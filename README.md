# iphone-size: a model of parse.js

`parse.js` reads two text files about iPhone models. It builds a dictionary `accum` from model name to a record `{model, volume, weight, squareMmPerGram}` and prints the dictionary as CSV.

- **Dimensions file.** Read line by line. A line containing `:` opens a block, and the following lines belong to that block. When the next header line arrives, or the file ends, `recordDim` handles the buffered block. It takes height, width and depth from lines 1–3 of the block, each matched by `/^\d.+\.?\d?\smm/` and read with `parseFloat`. It records the volume under every name in the header. The names are the header with its first `:` removed, split on `" & "`.
- **Weights file.** Handled line by line. The line is split on `:`. The second field, the text between the first and the second colon, goes through `calcWeight`, which trims it, matches `/^\d.+\.?\d?\sg/` and calls `parseInt`. The resulting weight is recorded under every name that `" and "` separates in the text before the first colon.
- **`recordModel`.** Creates a record with null fields on first use, writes one field, and recomputes the ratio `volume / weight` whenever both fields are truthy.
- **Report.** The rows are sorted with a comparator keyed on each name's position in a fixed list, `sortOrder`. Each row is joined with `,`, and the rows are joined with `\n`.

The Dafny modules follow this structure:

| module | file | what it holds |
|---|---|---|
| `Wrappers` | wrappers.dfy | `Option`, `Result`, `Outcome` |
| `Seqs` | seqs.dfy | small facts about sequences used by the proofs |
| `JsText` | text.dfy | the JavaScript string operations the script uses: `trim`, `indexOf`, `split`, `join`, `replace` with a string pattern, decimal text of a whole number |
| `Extract` | extract.dfy | the two unit regular expressions, `parseInt`, the literal `parseFloat` reads, `calcWeight`, `calcVolume` |
| `Records` | records.dfy | the record, `recordModel` on the dictionary as a value (`Put`), and the class `Accumulator`, which is `accum` updated in place |
| `Parser` | parser.dfy | the block grouping of a dimensions file, `recordDim`, the weight-line handler, a specification of a whole file (`ParseFileSpec`), the class `FileParser` with one method per event, and the driver `ParseFile` |
| `Report` | report.dfy | `sortOrder`, the key and comparator, the CSV rows and text |
| `Scenario` | scenario.dfy | a complete run on one model: one dimensions block plus one weight line |

The script throws a `TypeError` in three cases: a regular expression finds no match; a block has fewer than four lines, so `parts[k]` is `undefined`; or a weight line has no colon, so `split[1]` is `undefined` and `calcWeight` calls `trim` on it. The model returns these as error values (`Failure`) instead of throwing, and the first error ends the run.

Floating-point values are kept as the text they come from:

- A dimension is the decimal literal `parseFloat` reads.
- A volume is its three literals.
- A ratio is a volume paired with a whole number of grams.
- The two-decimal rendering by `toFixed` is a function parameter of the CSV formatter.

In these places the model follows what the code does:

- Every type other than `'dims'` is treated as a weights file. No unknown-type error exists.
- With a weight of 0 or NaN (both falsy) the ratio is never computed. A record can then hold both a volume and a weight and still have no ratio, or keep an older ratio.
- A line that is one digit, exactly one white-space character and the unit (`7 mm`, `5 g`) does not match: `.+` needs at least one character between the digit and the white space. With two white-space characters (`7  mm`) the line does match, because `.+` takes the first one.
- `parseInt` treats a match starting with `0x` as hexadecimal, and reads `0x g` as NaN.

## Model

| member | source | states |
|---|---|---|
| JsText.Trim | parse.js:24 | `trim` leaves the longest infix of the text that neither starts nor ends with white space; everything cut off on either side is white space |
| JsText.IndexOf | parse.js:55 | the first index at which the pattern occurs, or -1 exactly when it occurs nowhere |
| JsText.IndexOfChar | parse.js:55 | searching for one character finds its first position, and -1 exactly when the character is absent |
| JsText.RemoveFirst | parse.js:55 | `replace(':', '')` deletes the first colon only, and leaves a text without a colon unchanged |
| JsText.JoinSplit | parse.js:58 | joining the pieces of a split on a separator gives back the text (split loses nothing) |
| JsText.SplitFirst | parse.js:58 | step equation of `Split` (the proofs of `JoinSplit` and `SplitJoin` rest on it): the first piece of a split is the text before the first occurrence of the separator, and the remaining pieces are the split of the text after it; without an occurrence the text is the only piece |
| JsText.SplitPiecesFree | parse.js:58 | no piece of a split contains the separator |
| JsText.SplitJoin | parse.js:140 | with a one-character separator that no part contains, split undoes join |
| JsText.SplitFields | parse.js:75-77 | `line.split(':')` has one field exactly when the line has no colon; field 0 is the text before the first colon, field 1 the text between the first and second colon |
| JsText.DecimalText | parse.js:140 | `String(n)` of a whole number is a non-empty run of digits with no leading zero |
| JsText.DecimalRoundTrip | parse.js:140 | the decimal text of a whole number reads back as that number |
| Extract.LastUnitAt | parse.js:14 | the rightmost position not beyond the bound at which the regular expression can match, or -1 when there is none |
| Extract.MatchUnit | parse.js:14 | `match` of `/^\d.+\.?\d?\s<unit>/` succeeds exactly when some split of the line fits the pattern; the match is the prefix ending at the rightmost unit that fits |
| Extract.SingleDigitRejected | parse.js:14 | a line made of one digit, exactly one white-space character and the unit has no match |
| Extract.DoubleSpaceMatches | parse.js:14 | a line made of one digit, two white-space characters (no line terminator) and the unit does match, since `.+` takes the first white-space character |
| Extract.DigitRun | parse.js:24 | the longest prefix made of decimal digits |
| Extract.ParseInt | parse.js:24 | `parseInt` of a match yields a whole number, except when a `0x` prefix is followed by no hexadecimal digit, which yields NaN |
| Extract.FloatLiteral | parse.js:15 | `parseFloat` reads a non-empty prefix of the match made only of literal characters |
| Extract.CalcWeight | parse.js:22-25 | `calcWeight` succeeds exactly when the trimmed text matches the gram expression, and otherwise fails on that text |
| Extract.CalcWeightReadsDigitRun | parse.js:22-25 | outside the `0x` case the weight is the value of the whole leading digit run of the trimmed text, with any fraction dropped |
| Extract.CalcWeightReadsHexRun | parse.js:22-25 | in the `0x` case the weight is the value of the whole run of hexadecimal digits after the prefix, or NaN when there is none |
| Extract.HexRun | parse.js:24 | the longest prefix made of hexadecimal digits |
| Extract.ReadDimension | parse.js:15-18 | `applyRegex(parts[k])` fails with `undefined` when the block has no line `k`, succeeds exactly when the line matches the millimetre expression, and reads a prefix of the line |
| Extract.ReadDimensionOfLine | parse.js:15 | the literal read from the match equals the literal read from the whole line, since the match is cut after white space |
| Extract.FloatLiteralPrefix | parse.js:15 | the literal `parseFloat` reads does not depend on text after the first character that no literal holds |
| Extract.CalcVolume | parse.js:13-20 | `calcVolume` succeeds exactly when the block has at least four lines and lines 1, 2 and 3 match; a shorter block fails |
| Extract.CalcVolumeReads | parse.js:16-18 | on success the volume is the literals read from lines 1, 2 and 3, in that order as height, width and depth |
| Extract.MeasurementLine | parse.js:14-15 | a line `<digits>.<digit> mm` matches as a whole and is read as `<digits>.<digit>` |
| Extract.GramsText | parse.js:22-24 | a weight `<digits> g` with at least two digits is read as the number its digits denote |
| Records.Update | parse.js:36-40 | writing a field changes that field only; the ratio is recomputed from the new fields when both are truthy, and otherwise kept |
| Records.Put | parse.js:27-41 | `recordModel` adds the model's key if it is missing; no other key changes |
| Records.PutAll | parse.js:58-60 | `forEach` of `recordModel` over the names adds exactly those names and leaves every other record unchanged |
| Records.PutWrites | parse.js:27-36 | after a write the record exists, carries its own name and holds the written value; no other key appears or disappears |
| Records.PutCreates | parse.js:28-35 | a record created by a write has null in every field except the name and the one written |
| Records.PutRatio | parse.js:38-40 | the ratio changes only when weight and volume are both truthy after the write; the ratio, volume and weight are never reset to null |
| Records.PutWellFormed | parse.js:27-41 | a write keeps every record under its own name, with a ratio only from truthy fields and always current when both are truthy |
| Records.PutAllWrites | parse.js:58-60 | every name in the list ends up holding the value written |
| Records.PutAllWellFormed | parse.js:58-60 | a list of writes keeps the dictionary well formed |
| Records.Accumulator.constructor | parse.js:11 | `accum` starts empty |
| Records.Accumulator.RecordModel | parse.js:27-41 | the in-place update of `accum` leaves it equal to `Put` of the old dictionary, and well formed |
| Records.Accumulator.RecordEach | parse.js:58-60 | the loop over the names leaves `accum` equal to `PutAll` of the old dictionary |
| Parser.Blocks | parse.js:64-73 | the handler's blocks are empty exactly when no line has arrived |
| Parser.BlocksGroup | parse.js:64-73 | the blocks cut the lines, in order, into non-empty pieces; every piece after the first starts at a header line, and no piece has a header line anywhere but first |
| Parser.GroupingUnique | parse.js:64-73 | any partition with those properties is the handler's blocks |
| Parser.FlushedStable | parse.js:67-69 | more lines never change a block that has already been flushed |
| Parser.ApplyDimEffect | parse.js:54-60 | `recordDim` records the same volume under every name of the header and changes no other record; it fails exactly when `calcVolume` fails, including on a block shorter than four lines |
| Parser.ApplyWeightEffect | parse.js:75-81 | a line without a colon fails on `undefined`; a line with one succeeds exactly when `calcWeight` of the text between the first and second colon succeeds, and then records that weight under every name before the first colon, adds exactly those names and changes no other record |
| Parser.FailureIsFinal | parse.js:64-85 | once a line has failed, the run fails with that error whatever lines follow |
| Parser.DimsStep | parse.js:65-73 | a header line flushes the buffered block and starts a new one; any other line is appended to the buffer |
| Parser.WeightStep | parse.js:74-84 | step equation of `ApplyWeightLines`: each weight line is applied as it arrives (what one application does is `ApplyWeightEffect`) |
| Parser.CloseStep | parse.js:87-91 | step equation of `ApplyBlocks` over `Flushed`: the close handler flushes the block still buffered, and only that one (the grouping itself is `BlocksGroup` and `GroupingUnique`) |
| Parser.PipelineWellFormed | parse.js:97-99 | after both files every record sits under its own name; a record with a ratio has a volume and a weight, and the ratio's grams are not 0; whenever the weight is a non-zero whole number (truthy: not 0, not NaN) and the volume is present, the ratio is the current one |
| Parser.FileParser.constructor | parse.js:51 | a fresh parse starts with an empty buffer |
| Parser.FileParser.RecordDim | parse.js:54-62 | the in-place `recordDim` leaves `accum` as `ApplyDim` of the old dictionary, or fails with its error |
| Parser.FileParser.OnLine | parse.js:64-85 | each event keeps the buffer equal to the last block of the lines so far, and `accum` equal to the specification of those lines; a failure is the specification's error |
| Parser.FileParser.OnDimsLine | parse.js:65-73 | the dimensions handler flushes on a header line and buffers any other line, keeping the same correspondence |
| Parser.FileParser.OnWeightLine | parse.js:74-84 | the weights handler applies each line at once, keeping the same correspondence |
| Parser.FileParser.OnClose | parse.js:87-91 | after close, `accum` is the specification of the whole file, or the run fails with its error |
| Parser.ParseFile | parse.js:43-95 | feeding every line to the handler and then closing leaves `accum` equal to `ParseFileSpec` of the file, or fails with its error; every block is flushed exactly once; on success `accum` is still well formed, so the next parse can start from it |
| Parser.Run | parse.js:97-99 | parsing the dimensions file, then the weights file, into one fresh `accum` gives `Pipeline` of the two files, or the first error |
| Report.IndexFrom | parse.js:137 | the first position at or after a start index that holds the name, or -1 |
| Report.SortIndex | parse.js:101-137 | `sortOrder.indexOf(name)` is the first position of the name, and -1 exactly when the name is not listed |
| Report.Compare | parse.js:136-138 | the comparator answers only 1 or -1 |
| Report.CompareListed | parse.js:136-138 | between listed names the comparator answers 1 exactly when the first name comes later in `sortOrder`; on distinct listed names it is antisymmetric |
| Report.CompareUnlisted | parse.js:136-138 | an unlisted name compares before every listed name |
| Report.CompareTies | parse.js:136-138 | names with the same key, including two unlisted names, each compare before the other; the comparator never answers 0 |
| Report.Rows | parse.js:128-135 | one row per key, in the order of the keys, each the record under that key |
| Report.OrderingSize | parse.js:128-129 | an ordering of the keys has exactly one entry per record |
| Report.CsvLines | parse.js:140 | when no row contains a line break, the report has one line per record, in key order, with no trailing newline |
| Report.RowCells | parse.js:130-140 | when no cell contains a comma, a row splits back into its four cells: the model; the weight in decimal, `NaN`, or empty for null; the `toFixed` text of the volume and of the ratio, or empty for null |
| Report.CsvEmpty | parse.js:140 | an empty dictionary prints as empty text |
| Scenario.HeaderLabel | parse.js:55 | the header `name:` of a block gives the name, since its only colon is removed |
| Scenario.WeightFields | parse.js:75-77 | the line `name:<digits> g` splits on `:` into the name and the weight text |
| Scenario.OneBlock | parse.js:64-91 | a dimensions file that is a header followed by three non-header lines is handled as one block, flushed at close |
| Scenario.WeightLine | parse.js:75-81 | the line `name:<digits> g` writes the weight its digits denote under `name` |
| Scenario.DimsFile | parse.js:54-91 | a dimensions file holding one block `name:` and three measurement lines gives one record, with only its volume set |
| Scenario.WeightsFile | parse.js:74-84 | one line `name:<digits> g` sets the weight, and sets the ratio only when the weight is not 0 |
| Scenario.OneModel | parse.js:97-99 | one block and one weight line for the same model give the record with the three literals, the weight, and a ratio exactly when the weight is not 0 |

## Left out

- Reading the files (`fs.createReadStream`, `readline`), the Promise around `parseFile` and the async driver are not modelled. A file is given as its sequence of lines, and the two parses run in sequence on one dictionary (`Pipeline`).
- `console.log` of the report is not modelled. `Csv` is the text that would be printed.
- Floating-point arithmetic is not modelled: the value of a `parseFloat` literal, the product `height * width * depth`, the division `volume / weight`, and the `toFixed(2)` rendering. A volume keeps its three literals, and a ratio keeps its operands.
- Extract.FloatLiteral: states which characters the literal has and where it lies, not that it is the longest literal prefix. The exponent rule is written out in `ExponentLength` and `MantissaLength`.
- The order in which `Array.prototype.sort` leaves the rows is not modelled. The comparator never answers 0 and is not a consistent order, so that order depends on the engine. `Rows` and `Csv` take the order of the keys as a parameter.
- The order `Object.keys` gives is not modelled, because the sort, which is not modelled either, reorders the rows anyway. The key order is a parameter of `Rows`.
- The `lines` array that `parseFile` builds and resolves with is not modelled, because the caller discards it.
- Names that already exist on `Object.prototype` (`toString`, `constructor` and so on) are not modelled. For these, `typeof accum[model]` is not `'undefined'` even for a new model. The model treats every name as absent until written.
- Extract.ParseInt: the leading white space and sign that `parseInt` skips are not modelled, since the text it is given always starts with a digit. Precision loss above 2^53 is not modelled, since whole numbers are unbounded.
- Report.WeightText: `String(n)` switches to exponent notation at 10^21 or above. This is not modelled, and the decimal form is used for every whole number.
- The script's uncaught `TypeError` is modelled as an error result that ends the run. The state of the process after the throw is not modelled.
