/**
 * The report of parse.js: the dictionary's rows, the `sortOrder` key and comparator
 * handed to `Array.prototype.sort`, and the CSV text the rows are joined into.
 */
module Report {
  import opened Wrappers
  import opened JsText
  import opened Extract
  import opened Records

  /** `sortOrder`: the models in the order the report lists them. */
  const SortOrder: seq<string> := [
    "1st gen", "3G", "3GS", "4", "4S", "5", "5S", "5C", "SE", "6", "6 Plus", "6S",
    "6S Plus", "7", "7 Plus", "8", "8 Plus", "X", "XS", "XS Max", "XR", "11", "11 Pro", "11 Pro Max"
  ]

  function IndexFrom(names: seq<string>, name: string, from: nat): (i: int)
    requires from <= |names|
    ensures i == -1 || (from <= i < |names| && names[i] == name)
    ensures forall k :: from <= k < |names| && (i == -1 || k < i) ==> names[k] != name
    decreases |names| - from
  {
    if from == |names| then -1
    else if names[from] == name then from
    else IndexFrom(names, name, from + 1)
  }

  /** `sortOrder.indexOf(name)`: the first position of the name in the list, -1 for a name not listed. */
  function SortIndex(name: string): (i: int)
    ensures -1 <= i < |SortOrder|
    ensures i == -1 <==> name !in SortOrder
    ensures i >= 0 ==> SortOrder[i] == name && name !in SortOrder[..i]
  {
    IndexFrom(SortOrder, name, 0)
  }

  /** The comparator given to `sort`, on the model names in the first column of two rows. */
  function Compare(a: string, b: string): (c: int)
    ensures c == 1 || c == -1
  {
    if SortIndex(a) > SortIndex(b) then 1 else -1
  }

  /**
   * Between two listed names the comparator answers 1 exactly when the first comes later
   * in `sortOrder`, and it is antisymmetric on distinct listed names.
   */
  lemma CompareListed(a: string, b: string)
    requires a in SortOrder && b in SortOrder
    ensures Compare(a, b) == 1 <==> b in SortOrder[..SortIndex(a)]
    ensures a != b ==> Compare(a, b) == -Compare(b, a)
  {
    var (i, j) := (SortIndex(a), SortIndex(b));
    assert a != b ==> i != j;
    if b in SortOrder[..i] {
      var k :| 0 <= k < i && SortOrder[k] == b;
      assert j <= k;
    }
    if j < i {
      assert SortOrder[..i][j] == b;
    }
  }

  /** A name missing from `sortOrder` has key -1, so it compares before every listed name. */
  lemma CompareUnlisted(a: string, b: string)
    requires a !in SortOrder && b in SortOrder
    ensures Compare(a, b) == -1 && Compare(b, a) == 1
  {
  }

  /**
   * The comparator never answers 0: two names with the same key, such as a name with
   * itself or two unlisted names, each compare before the other.
   */
  lemma CompareTies(a: string, b: string)
    requires SortIndex(a) == SortIndex(b)
    ensures Compare(a, b) == -1 && Compare(b, a) == -1
  {
  }

  // ---------------------------------------------------------------- CSV

  /** How `join` renders the weight cell: a number in decimal, `NaN`, or empty text for null. */
  function WeightText(w: Option<Number>): string {
    match w
    case None => ""
    case Some(Int(n)) => DecimalText(n)
    case Some(NaN) => "NaN"
  }

  /** How `join` renders a cell holding a `toFixed` string: that string, or empty text for null. */
  function FixedText<T>(v: Option<T>, fixed: T -> string): string {
    match v
    case None => ""
    case Some(x) => fixed(x)
  }

  /** The four cells of a row: `[model, weight, volume, squareMmPerGram]`. */
  function Cells(r: Record, fixedVolume: Volume -> string, fixedRatio: Ratio -> string): seq<string> {
    [r.model, WeightText(r.weight), FixedText(r.volume, fixedVolume), FixedText(r.ratio, fixedRatio)]
  }

  /** `data.join(',')` for one row. */
  function RowText(r: Record, fixedVolume: Volume -> string, fixedRatio: Ratio -> string): string {
    Join(Cells(r, fixedVolume, fixedRatio), ",")
  }

  /** The rows of the dictionary, taken in the given order of its keys. */
  function Rows(m: map<string, Record>, keys: seq<string>): (rows: seq<Record>)
    requires forall k <- keys :: k in m
    ensures |rows| == |keys|
    ensures forall i :: 0 <= i < |keys| ==> rows[i] == m[keys[i]]
  {
    if keys == [] then [] else [m[keys[0]]] + Rows(m, keys[1..])
  }

  /** `final.map(data => data.join(',')).join('\n')`. */
  function Csv(rows: seq<Record>, fixedVolume: Volume -> string, fixedRatio: Ratio -> string): string {
    Join(seq(|rows|, i requires 0 <= i < |rows| => RowText(rows[i], fixedVolume, fixedRatio)), "\n")
  }

  /** `keys` lists every key of the dictionary once: the order `sort` left the rows in. */
  ghost predicate IsOrdering(m: map<string, Record>, keys: seq<string>) {
    && (forall k :: k in m <==> k in keys)
    && (forall i, j :: 0 <= i < j < |keys| ==> keys[i] != keys[j])
  }

  /** An ordering of the keys has one entry per record. */
  lemma {:induction false} OrderingSize(m: map<string, Record>, keys: seq<string>)
    requires IsOrdering(m, keys)
    ensures |keys| == |m|
    decreases |keys|
  {
    if keys != [] {
      var k := keys[0];
      var rest := m - {k};
      forall x | x in rest ensures x in keys[1..] {
        var i :| 0 <= i < |keys| && keys[i] == x;
        assert i != 0;
      }
      assert IsOrdering(rest, keys[1..]);
      OrderingSize(rest, keys[1..]);
    } else {
      assert m.Keys == {};
    }
  }

  /**
   * When no cell holds a line break, the report has one line per record, in the order
   * of the keys, with no trailing newline: splitting it on `\n` gives back the rows.
   */
  lemma CsvLines(m: map<string, Record>, keys: seq<string>, fixedVolume: Volume -> string, fixedRatio: Ratio -> string)
    requires IsOrdering(m, keys) && |m| > 0
    requires forall k <- m.Keys :: Free(RowText(m[k], fixedVolume, fixedRatio), "\n")
    ensures var lines := Split(Csv(Rows(m, keys), fixedVolume, fixedRatio), "\n");
      && |lines| == |m| == |keys|
      && forall i :: 0 <= i < |keys| ==> lines[i] == RowText(m[keys[i]], fixedVolume, fixedRatio)
  {
    OrderingSize(m, keys);
    var rows := Rows(m, keys);
    var texts := seq(|rows|, i requires 0 <= i < |rows| => RowText(rows[i], fixedVolume, fixedRatio));
    forall i | 0 <= i < |texts| ensures Free(texts[i], "\n") {
      assert keys[i] in m.Keys;
      assert texts[i] == RowText(m[keys[i]], fixedVolume, fixedRatio);
    }
    SplitJoin(texts, '\n');
    assert Split(Csv(rows, fixedVolume, fixedRatio), "\n") == texts;
  }

  /**
   * When no cell holds a comma, a row splits back into its four cells: the model,
   * the weight in decimal, then the volume and ratio text, with null as empty text.
   */
  lemma RowCells(r: Record, fixedVolume: Volume -> string, fixedRatio: Ratio -> string)
    requires forall c <- Cells(r, fixedVolume, fixedRatio) :: Free(c, ",")
    ensures Split(RowText(r, fixedVolume, fixedRatio), ",") == Cells(r, fixedVolume, fixedRatio)
    ensures var cells := Split(RowText(r, fixedVolume, fixedRatio), ",");
      && |cells| == 4 && cells[0] == r.model
      && (r.weight.None? ==> cells[1] == "")
      && (r.weight.Some? && r.weight.value.Int? ==> AllDigits(cells[1]) && DecimalValue(cells[1]) == r.weight.value.value)
      && (r.weight == Some(NaN) ==> cells[1] == "NaN")
      && cells[2] == (if r.volume.Some? then fixedVolume(r.volume.value) else "")
      && cells[3] == (if r.ratio.Some? then fixedRatio(r.ratio.value) else "")
  {
    SplitJoin(Cells(r, fixedVolume, fixedRatio), ',');
    if r.weight.Some? && r.weight.value.Int? {
      DecimalRoundTrip(r.weight.value.value);
    }
  }

  /** An empty dictionary prints as empty text. */
  lemma CsvEmpty(fixedVolume: Volume -> string, fixedRatio: Ratio -> string)
    ensures Csv([], fixedVolume, fixedRatio) == ""
  {
  }
}
