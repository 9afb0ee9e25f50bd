/**
 * The two file parsers of parse.js (`parseFile`): the line handler groups a dimensions
 * file into blocks that `recordDim` turns into volume facts, or turns each line of a
 * weights file into weight facts; the close handler flushes the last block.
 * The file is given as its sequence of lines; reading it is not modelled.
 */
module Parser {
  import opened Wrappers
  import opened JsText
  import opened Extract
  import opened Records
  import opened Seqs

  /** `TYPE_DIMS`: every other type string selects the weight-line handler. */
  const TypeDims: string := "dims"

  /** `TYPE_WEIGHT`. */
  const TypeWeight: string := "weight"

  /** `/:/.test(line)`: the line opens a new block. */
  predicate IsHeader(line: string) {
    ':' in line
  }

  // ---------------------------------------------------------------- grouping a dimensions file into blocks

  /** The blocks the buffer holds, in order, once the handler has seen `lines`; the last one is still buffered. */
  function Blocks(lines: seq<string>): (bs: seq<seq<string>>)
    ensures bs == [] <==> lines == []
  {
    if lines == [] then []
    else
      var bs := Blocks(lines[..|lines| - 1]);
      var line := lines[|lines| - 1];
      if IsHeader(line) || bs == [] then bs + [[line]]
      else bs[..|bs| - 1] + [bs[|bs| - 1] + [line]]
  }

  /** The blocks already handed to `recordDim`: all but the one in the buffer. */
  function Flushed(bs: seq<seq<string>>): seq<seq<string>> {
    if bs == [] then [] else bs[..|bs| - 1]
  }

  function Concat(bs: seq<seq<string>>): seq<string> {
    if bs == [] then [] else Concat(bs[..|bs| - 1]) + bs[|bs| - 1]
  }

  /**
   * `bs` cuts `lines` into non-empty pieces, in order, each starting a new piece at a
   * header line: only the first piece may start with a non-header line, and no piece
   * has a header anywhere but at its start.
   */
  ghost predicate IsGrouping(lines: seq<string>, bs: seq<seq<string>>) {
    && Concat(bs) == lines
    && (forall i :: 0 <= i < |bs| ==> bs[i] != [])
    && (forall i :: 0 < i < |bs| ==> IsHeader(bs[i][0]))
    && (forall i, k :: 0 <= i < |bs| && 0 < k < |bs[i]| ==> !IsHeader(bs[i][k]))
  }

  lemma ConcatSnoc(bs: seq<seq<string>>, b: seq<string>)
    ensures Concat(bs + [b]) == Concat(bs) + b
  {
    assert (bs + [b])[..|bs|] == bs;
  }

  /** One more line, when it starts a block of its own. */
  lemma GroupingOpen(lines: seq<string>, bs: seq<seq<string>>, line: string)
    requires IsGrouping(lines, bs) && (IsHeader(line) || bs == [])
    ensures IsGrouping(lines + [line], bs + [[line]])
  {
    var bs' := bs + [[line]];
    ConcatSnoc(bs, [line]);
    forall i | 0 <= i < |bs'| ensures bs'[i] != [] {
      if i < |bs| { assert bs'[i] == bs[i]; }
    }
    forall i | 0 < i < |bs'| ensures IsHeader(bs'[i][0]) {
      if i < |bs| { assert bs'[i] == bs[i]; }
    }
    forall i, k | 0 <= i < |bs'| && 0 < k < |bs'[i]| ensures !IsHeader(bs'[i][k]) {
      assert bs'[i] == bs[i];
    }
  }

  /** One more line, when it joins the block in the buffer. */
  lemma GroupingExtend(lines: seq<string>, bs: seq<seq<string>>, line: string)
    requires IsGrouping(lines, bs) && !IsHeader(line) && bs != []
    ensures IsGrouping(lines + [line], bs[..|bs| - 1] + [bs[|bs| - 1] + [line]])
  {
    var front := bs[..|bs| - 1];
    var last := bs[|bs| - 1];
    var bs' := front + [last + [line]];
    assert bs == front + [last];
    ConcatSnoc(front, last);
    ConcatSnoc(front, last + [line]);
    forall i | 0 <= i < |bs'| ensures bs'[i] != [] {
      if i < |front| { assert bs'[i] == bs[i]; }
    }
    forall i | 0 < i < |bs'| ensures IsHeader(bs'[i][0]) {
      if i < |front| { assert bs'[i] == bs[i]; } else { assert bs'[i][0] == bs[i][0]; }
    }
    forall i, k | 0 <= i < |bs'| && 0 < k < |bs'[i]| ensures !IsHeader(bs'[i][k]) {
      if i < |front| { assert bs'[i] == bs[i]; }
      else if k < |last| { assert bs'[i][k] == bs[i][k]; }
    }
  }

  /** The blocks partition the lines, in order, at the header lines. */
  lemma {:induction false} BlocksGroup(lines: seq<string>)
    ensures IsGrouping(lines, Blocks(lines))
  {
    if lines != [] {
      var init := lines[..|lines| - 1];
      var line := lines[|lines| - 1];
      BlocksGroup(init);
      assert lines == init + [line];
      if IsHeader(line) || Blocks(init) == [] {
        GroupingOpen(init, Blocks(init), line);
      } else {
        GroupingExtend(init, Blocks(init), line);
      }
    }
  }

  /** There is only one such partition: the handler's grouping is the grouping. */
  lemma {:induction false} GroupingUnique(lines: seq<string>, bs: seq<seq<string>>)
    requires IsGrouping(lines, bs)
    ensures bs == Blocks(lines)
    decreases |lines|
  {
    if bs != [] {
      var front := bs[..|bs| - 1];
      var last := bs[|bs| - 1];
      var init := lines[..|lines| - 1];
      var line := last[|last| - 1];
      Snoc(bs);
      if |last| == 1 {
        GroupingDropBlock(lines, bs);
        GroupingUnique(init, front);
        BlocksOpen(lines, front);
      } else {
        GroupingDropLine(lines, bs);
        GroupingUnique(init, front + [last[..|last| - 1]]);
        BlocksJoin(lines, front, last);
      }
    }
  }

  /** A line that opens a block adds a block of its own. */
  lemma BlocksOpen(lines: seq<string>, front: seq<seq<string>>)
    requires lines != [] && Blocks(lines[..|lines| - 1]) == front
    requires front == [] || IsHeader(lines[|lines| - 1])
    ensures Blocks(lines) == front + [[lines[|lines| - 1]]]
  {
  }

  /** A line that does not open a block joins the last one. */
  lemma BlocksJoin(lines: seq<string>, front: seq<seq<string>>, last: seq<string>)
    requires lines != [] && |last| > 1 && !IsHeader(lines[|lines| - 1])
    requires Blocks(lines[..|lines| - 1]) == front + [last[..|last| - 1]]
    requires last[|last| - 1] == lines[|lines| - 1]
    ensures Blocks(lines) == front + [last]
  {
    Snoc(last);
    TakeAppend(front, [last[..|last| - 1]]);
  }

  /** The last block of a grouping is the last line alone: drop it. */
  lemma GroupingDropBlock(lines: seq<string>, bs: seq<seq<string>>)
    requires IsGrouping(lines, bs) && bs != [] && |bs[|bs| - 1]| == 1
    ensures lines != [] && bs[|bs| - 1] == [lines[|lines| - 1]]
    ensures IsGrouping(lines[..|lines| - 1], bs[..|bs| - 1])
    ensures |bs| > 1 ==> IsHeader(lines[|lines| - 1])
  {
    var front := bs[..|bs| - 1];
    var last := bs[|bs| - 1];
    Snoc(bs);
    ConcatSnoc(front, last);
    TakeAppend(Concat(front), last);
    assert forall i :: 0 <= i < |front| ==> front[i] == bs[i];
  }

  /** The last block of a grouping has more lines than the last one: drop that line. */
  lemma GroupingDropLine(lines: seq<string>, bs: seq<seq<string>>)
    requires IsGrouping(lines, bs) && bs != [] && |bs[|bs| - 1]| > 1
    ensures var (front, last) := (bs[..|bs| - 1], bs[|bs| - 1]);
      && lines != [] && last[|last| - 1] == lines[|lines| - 1] && !IsHeader(lines[|lines| - 1])
      && IsGrouping(lines[..|lines| - 1], front + [last[..|last| - 1]])
  {
    var front := bs[..|bs| - 1];
    var last := bs[|bs| - 1];
    var shorter := last[..|last| - 1];
    var bs' := front + [shorter];
    Snoc(bs);
    Snoc(last);
    ConcatSnoc(front, last);
    ConcatSnoc(front, shorter);
    TakeAppend(Concat(front) + shorter, [last[|last| - 1]]);
    assert forall i :: 0 <= i < |front| ==> bs'[i] == bs[i];
    assert forall k :: 0 <= k < |shorter| ==> shorter[k] == last[k];
  }

  /** One more line never changes a block that has been flushed. */
  lemma FlushedStep(lines: seq<string>, line: string)
    ensures Flushed(Blocks(lines)) <= Flushed(Blocks(lines + [line]))
  {
    assert (lines + [line])[..|lines|] == lines;
    var bs := Blocks(lines);
    if !(IsHeader(line) || bs == []) {
      assert (bs[..|bs| - 1] + [bs[|bs| - 1] + [line]])[..|bs| - 1] == bs[..|bs| - 1];
    } else {
      assert (bs + [[line]])[..|bs|] == bs;
    }
  }

  /** Feeding more lines never changes a block that has been flushed. */
  lemma {:induction false} FlushedStable(lines: seq<string>, more: seq<string>)
    ensures Flushed(Blocks(lines)) <= Flushed(Blocks(lines + more))
    decreases |more|
  {
    if more == [] {
      AppendNil(lines);
    } else {
      FlushedStable(lines, more[..|more| - 1]);
      FlushedStep(lines + more[..|more| - 1], more[|more| - 1]);
      AppendSnoc(lines, more);
    }
  }

  // ---------------------------------------------------------------- recordDim and the weight-line handler

  /** `parts[0].replace(':', '').split(' & ')`: the models a block's volume is recorded under. */
  function DimNames(block: seq<string>): seq<string>
    requires block != []
  {
    Split(RemoveFirst(block[0], ':'), " & ")
  }

  /** `recordDim(parts)` on the dictionary as a value. */
  function ApplyDim(m: map<string, Record>, block: seq<string>): Result<map<string, Record>, Failure>
    requires block != []
  {
    match CalcVolume(block)
    case Err(e) => Err(e)
    case Ok(v) => Ok(PutAll(m, DimNames(block), VolumeFact(v)))
  }

  /** `recordDim` on each block in turn; the first failure ends the run. */
  function ApplyBlocks(m: map<string, Record>, bs: seq<seq<string>>): Result<map<string, Record>, Failure>
    requires forall i :: 0 <= i < |bs| ==> bs[i] != []
  {
    if bs == [] then Ok(m)
    else match ApplyBlocks(m, bs[..|bs| - 1])
      case Err(e) => Err(e)
      case Ok(m') => ApplyDim(m', bs[|bs| - 1])
  }

  /** The line handler for a weights file: `split(':')`, `calcWeight(split[1])`, then `split[0].split(' and ')`. */
  function ApplyWeight(m: map<string, Record>, line: string): Result<map<string, Record>, Failure> {
    var split := Split(line, ":");
    if |split| < 2 then Err(Undefined(1))
    else match CalcWeight(split[1])
      case Err(e) => Err(e)
      case Ok(w) => Ok(PutAll(m, Split(split[0], " and "), WeightFact(w)))
  }

  function ApplyWeightLines(m: map<string, Record>, lines: seq<string>): Result<map<string, Record>, Failure> {
    if lines == [] then Ok(m)
    else match ApplyWeightLines(m, lines[..|lines| - 1])
      case Err(e) => Err(e)
      case Ok(m') => ApplyWeight(m', lines[|lines| - 1])
  }

  /** What `parseFile(file, type)` does to `accum` when the file has the given lines. */
  function ParseFileSpec(m: map<string, Record>, fileType: string, lines: seq<string>): Result<map<string, Record>, Failure> {
    if fileType == TypeDims then
      BlocksGroup(lines);
      ApplyBlocks(m, Blocks(lines))
    else ApplyWeightLines(m, lines)
  }

  /** What the line handler has done to `accum` after `lines`, before the close handler runs. */
  function Progress(m: map<string, Record>, fileType: string, lines: seq<string>): Result<map<string, Record>, Failure> {
    if fileType == TypeDims then
      BlocksGroup(lines);
      ApplyBlocks(m, Flushed(Blocks(lines)))
    else ApplyWeightLines(m, lines)
  }

  /**
   * A block records one volume under every name in its header, and nothing else; it
   * fails, changing nothing, exactly when lines 1 to 3 do not all carry a measurement.
   */
  lemma ApplyDimEffect(m: map<string, Record>, block: seq<string>)
    requires block != []
    ensures ApplyDim(m, block).Ok? <==> CalcVolume(block).Ok?
    ensures |block| < 4 ==> ApplyDim(m, block).Err?
    ensures ApplyDim(m, block).Ok? ==>
      var (v, m') := (CalcVolume(block).value, ApplyDim(m, block).value);
      && (forall n :: n in DimNames(block) ==> n in m' && m'[n].volume == Some(v))
      && (forall k :: k in m && k !in DimNames(block) ==> m'[k] == m[k])
      && (forall k :: k in m' <==> k in m || k in DimNames(block))
  {
    if CalcVolume(block).Ok? {
      PutAllWrites(m, DimNames(block), VolumeFact(CalcVolume(block).value));
    }
  }

  /**
   * A weight line records one weight, read from the text between its first and second
   * colon, under every name in the text before its first colon; a line without a colon fails.
   */
  lemma ApplyWeightEffect(m: map<string, Record>, line: string)
    ensures ':' !in line ==> ApplyWeight(m, line) == Err(Undefined(1))
    ensures ':' in line ==>
      && |Split(line, ":")| >= 2
      && (ApplyWeight(m, line).Ok? <==> CalcWeight(Split(line, ":")[1]).Ok?)
    ensures ApplyWeight(m, line).Ok? ==>
      var split := Split(line, ":");
      var (names, m') := (Split(split[0], " and "), ApplyWeight(m, line).value);
      && CalcWeight(split[1]).Ok?
      && (forall n :: n in names ==> n in m' && m'[n].weight == Some(CalcWeight(split[1]).value))
      && (forall k :: k in m && k !in names ==> m'[k] == m[k])
      && (forall k :: k in m' <==> k in m || k in names)
  {
    SplitFields(line, ':');
    var split := Split(line, ":");
    if |split| >= 2 && CalcWeight(split[1]).Ok? {
      PutAllWrites(m, Split(split[0], " and "), WeightFact(CalcWeight(split[1]).value));
    }
  }

  /** A failure ends the run: whatever lines follow, the file fails with the same error. */
  lemma FailureIsFinal(m: map<string, Record>, fileType: string, lines: seq<string>, more: seq<string>)
    requires Progress(m, fileType, lines).Err?
    ensures ParseFileSpec(m, fileType, lines + more) == Progress(m, fileType, lines)
  {
    if fileType == TypeDims {
      DimsFailed(m, lines, more);
    } else {
      WeightFailed(m, lines, more);
    }
  }

  lemma DimsFailed(m: map<string, Record>, lines: seq<string>, more: seq<string>)
    requires Progress(m, TypeDims, lines).Err?
    ensures ParseFileSpec(m, TypeDims, lines + more) == Progress(m, TypeDims, lines)
  {
    BlocksGroup(lines);
    BlocksGroup(lines + more);
    FlushedStable(lines, more);
    var done := Flushed(Blocks(lines));
    var bs := Blocks(lines + more);
    assert done == bs[..|done|];
    ApplyBlocksFailed(m, bs, |done|);
  }

  lemma {:induction false} ApplyBlocksFailed(m: map<string, Record>, bs: seq<seq<string>>, n: nat)
    requires forall i :: 0 <= i < |bs| ==> bs[i] != []
    requires n <= |bs| && ApplyBlocks(m, bs[..n]).Err?
    ensures ApplyBlocks(m, bs) == ApplyBlocks(m, bs[..n])
    decreases |bs|
  {
    if n < |bs| {
      var front := bs[..|bs| - 1];
      assert front[..n] == bs[..n];
      ApplyBlocksFailed(m, front, n);
    } else {
      assert bs[..n] == bs;
    }
  }

  lemma {:induction false} WeightFailed(m: map<string, Record>, lines: seq<string>, more: seq<string>)
    requires ApplyWeightLines(m, lines).Err?
    ensures ApplyWeightLines(m, lines + more) == ApplyWeightLines(m, lines)
    decreases |more|
  {
    if more != [] {
      var front := lines + more[..|more| - 1];
      assert (lines + more)[..|lines + more| - 1] == front;
      WeightFailed(m, lines, more[..|more| - 1]);
    } else {
      assert lines + more == lines;
    }
  }

  /** What one more line of a dimensions file does: flush the buffered block when the line is a header. */
  lemma DimsStep(m: map<string, Record>, before: seq<string>, line: string, cur: map<string, Record>)
    requires Progress(m, TypeDims, before) == Ok(cur)
    ensures var (bs, bs') := (Blocks(before), Blocks(before + [line]));
      && bs' != []
      && bs'[|bs'| - 1] == (if IsHeader(line) || bs == [] then [line] else bs[|bs| - 1] + [line])
      && Progress(m, TypeDims, before + [line]) == (if IsHeader(line) && bs != [] then ApplyDim(cur, bs[|bs| - 1]) else Ok(cur))
  {
    var after := before + [line];
    TakeAppend(before, [line]);
    BlocksGroup(before);
    BlocksGroup(after);
    var bs := Blocks(before);
    if IsHeader(line) || bs == [] {
      BlocksOpen(after, bs);
      TakeAppend(bs, [[line]]);
    } else {
      TakeAppend(bs[..|bs| - 1], [bs[|bs| - 1] + [line]]);
    }
  }

  /** What one more line of a weights file does: apply it. */
  lemma WeightStep(m: map<string, Record>, fileType: string, before: seq<string>, line: string, cur: map<string, Record>)
    requires fileType != TypeDims && Progress(m, fileType, before) == Ok(cur)
    ensures Progress(m, fileType, before + [line]) == ApplyWeight(cur, line)
  {
    assert (before + [line])[..|before|] == before;
  }

  /** What the close handler adds: the block still buffered, if there is one. */
  lemma CloseStep(m: map<string, Record>, fileType: string, lines: seq<string>, cur: map<string, Record>)
    requires Progress(m, fileType, lines) == Ok(cur)
    ensures var bs := Blocks(lines);
      ParseFileSpec(m, fileType, lines)
        == if fileType == TypeDims && bs != [] then ApplyDim(cur, bs[|bs| - 1]) else Ok(cur)
  {
    BlocksGroup(lines);
    var bs := Blocks(lines);
    if fileType == TypeDims && bs != [] {
      assert bs == Flushed(bs) + [bs[|bs| - 1]];
    }
  }

  /** A run that fails at line `i` fails as a whole with the same error. */
  lemma FailedRun(m: map<string, Record>, fileType: string, lines: seq<string>, i: nat, e: Failure)
    requires i < |lines| && Progress(m, fileType, lines[..i + 1]) == Err(e)
    ensures ParseFileSpec(m, fileType, lines) == Err(e)
  {
    FailureIsFinal(m, fileType, lines[..i + 1], lines[i + 1..]);
    assert lines[..i + 1] + lines[i + 1..] == lines;
  }

  /** The two parses in sequence, dimensions first, into one dictionary that starts empty. */
  function Pipeline(dims: seq<string>, weights: seq<string>): Result<map<string, Record>, Failure> {
    match ParseFileSpec(map[], TypeDims, dims)
    case Err(e) => Err(e)
    case Ok(m) => ParseFileSpec(m, TypeWeight, weights)
  }

  lemma {:induction false} ApplyBlocksWellFormed(m: map<string, Record>, bs: seq<seq<string>>)
    requires WellFormed(m) && forall i :: 0 <= i < |bs| ==> bs[i] != []
    requires ApplyBlocks(m, bs).Ok?
    ensures WellFormed(ApplyBlocks(m, bs).value)
  {
    if bs != [] {
      var m' := ApplyBlocks(m, bs[..|bs| - 1]).value;
      ApplyBlocksWellFormed(m, bs[..|bs| - 1]);
      var block := bs[|bs| - 1];
      PutAllWellFormed(m', DimNames(block), VolumeFact(CalcVolume(block).value));
    }
  }

  lemma {:induction false} ApplyWeightLinesWellFormed(m: map<string, Record>, lines: seq<string>)
    requires WellFormed(m) && ApplyWeightLines(m, lines).Ok?
    ensures WellFormed(ApplyWeightLines(m, lines).value)
  {
    if lines != [] {
      var m' := ApplyWeightLines(m, lines[..|lines| - 1]).value;
      ApplyWeightLinesWellFormed(m, lines[..|lines| - 1]);
      var split := Split(lines[|lines| - 1], ":");
      PutAllWellFormed(m', Split(split[0], " and "), WeightFact(CalcWeight(split[1]).value));
    }
  }

  /**
   * Every record of the finished dictionary sits under its own name, holds a ratio only
   * when volume and a non-zero weight were both present, and holds the current one
   * whenever its weight is a non-zero whole number (truthy: not 0, not NaN) and its
   * volume is present.
   */
  lemma PipelineWellFormed(dims: seq<string>, weights: seq<string>)
    requires Pipeline(dims, weights).Ok?
    ensures WellFormed(Pipeline(dims, weights).value)
  {
    BlocksGroup(dims);
    ApplyBlocksWellFormed(map[], Blocks(dims));
    ApplyWeightLinesWellFormed(ParseFileSpec(map[], TypeDims, dims).value, weights);
  }

  // ---------------------------------------------------------------- the handlers

  /** One call of `parseFile`: its `parts` buffer and the `line` and `close` handlers. */
  class FileParser {
    const accum: Accumulator
    const fileType: string
    var parts: seq<string>
    /** The lines the `line` handler has been given so far. */
    ghost var received: seq<string>
    /** The dictionary as it was when the file was opened. */
    ghost const start: map<string, Record>

    ghost predicate Valid()
      reads this, accum
    {
      && accum.Valid()
      && Progress(start, fileType, received) == Ok(accum.records)
      && (if fileType == TypeDims then
            var bs := Blocks(received);
            parts == (if bs == [] then [] else bs[|bs| - 1])
          else parts == [])
    }

    /** `let parts = []` in a fresh call of `parseFile`. */
    constructor (accum: Accumulator, fileType: string)
      requires accum.Valid()
      ensures Valid()
      ensures this.accum == accum && this.fileType == fileType
      ensures received == [] && start == accum.records
    {
      this.accum := accum;
      this.fileType := fileType;
      parts := [];
      received := [];
      start := accum.records;
    }

    /** `recordDim(parts)`: one block's volume under each of its names. */
    method RecordDim(block: seq<string>) returns (out: Outcome<Failure>)
      requires block != [] && accum.Valid()
      modifies accum
      ensures accum.Valid()
      ensures ApplyDim(old(accum.records), block) == if out.Pass? then Ok(accum.records) else Err(out.error)
    {
      var model := RemoveFirst(block[0], ':');
      var volume := CalcVolume(block);
      if volume.Err? {
        return Fail(volume.error);
      }
      accum.RecordEach(Split(model, " & "), VolumeFact(volume.value));
      out := Pass;
    }

    /** The `line` handler. */
    method OnLine(line: string) returns (out: Outcome<Failure>)
      requires Valid()
      modifies this, accum
      ensures received == old(received) + [line]
      ensures out.Pass? ==> Valid()
      ensures out.Fail? ==> Progress(start, fileType, received) == Err(out.error)
    {
      if fileType == TypeDims {
        out := OnDimsLine(line);
      } else {
        out := OnWeightLine(line);
      }
    }

    /** The `line` handler for a dimensions file: flush on a header, otherwise buffer. */
    method OnDimsLine(line: string) returns (out: Outcome<Failure>)
      requires Valid() && fileType == TypeDims
      modifies this, accum
      ensures received == old(received) + [line]
      ensures out.Pass? ==> Valid()
      ensures out.Fail? ==> Progress(start, fileType, received) == Err(out.error)
    {
      DimsStep(start, received, line, accum.records);
      received := received + [line];
      if ':' in line {
        if |parts| > 0 {
          out := RecordDim(parts);
          if out.Fail? {
            return;
          }
        }
        parts := [line];
      } else {
        parts := parts + [line];
      }
      out := Pass;
    }

    /** The `line` handler for a weights file: record the line at once. */
    method OnWeightLine(line: string) returns (out: Outcome<Failure>)
      requires Valid() && fileType != TypeDims
      modifies this, accum
      ensures received == old(received) + [line]
      ensures out.Pass? ==> Valid()
      ensures out.Fail? ==> Progress(start, fileType, received) == Err(out.error)
    {
      WeightStep(start, fileType, received, line, accum.records);
      received := received + [line];
      var split := Split(line, ":");
      if |split| < 2 {
        return Fail(Undefined(1));
      }
      var weight := CalcWeight(split[1]);
      if weight.Err? {
        return Fail(weight.error);
      }
      accum.RecordEach(Split(split[0], " and "), WeightFact(weight.value));
      out := Pass;
    }

    /** The `close` handler: flush the block still in the buffer. */
    method OnClose() returns (out: Outcome<Failure>)
      requires Valid()
      modifies accum
      ensures ParseFileSpec(start, fileType, received) == if out.Pass? then Ok(accum.records) else Err(out.error)
      ensures accum.Valid()
    {
      CloseStep(start, fileType, received, accum.records);
      if |parts| > 0 {
        out := RecordDim(parts);
      } else {
        out := Pass;
      }
    }
  }

  /** `parseFile(file, type)` for a file made of `lines`: every line to the handler, then close. */
  method ParseFile(accum: Accumulator, fileType: string, lines: seq<string>) returns (out: Outcome<Failure>)
    requires accum.Valid()
    modifies accum
    ensures ParseFileSpec(old(accum.records), fileType, lines) == if out.Pass? then Ok(accum.records) else Err(out.error)
    ensures out.Pass? ==> accum.Valid()
  {
    ghost var m := accum.records;
    var parser := new FileParser(accum, fileType);
    for i := 0 to |lines|
      invariant parser.Valid() && parser.accum == accum && parser.fileType == fileType
      invariant parser.received == lines[..i] && parser.start == m
    {
      out := parser.OnLine(lines[i]);
      TakeSnoc(lines, i);
      if out.Fail? {
        FailedRun(m, fileType, lines, i, out.error);
        return;
      }
    }
    TakeAll(lines);
    out := parser.OnClose();
  }

  /**
   * The script's driver: one fresh `accum`, the dimensions file parsed into it, then the
   * weights file; a failure of the first parse stops the run.
   */
  method Run(dims: seq<string>, weights: seq<string>) returns (out: Outcome<Failure>, accum: Accumulator)
    ensures Pipeline(dims, weights) == if out.Pass? then Ok(accum.records) else Err(out.error)
  {
    accum := new Accumulator();
    out := ParseFile(accum, TypeDims, dims);
    if out.Fail? {
      return;
    }
    out := ParseFile(accum, TypeWeight, weights);
  }
}
