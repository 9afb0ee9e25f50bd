/**
 * The line-pattern extractors of parse.js: the two unit regular expressions,
 * `parseInt` / `parseFloat` applied to what they match, `calcWeight` and `calcVolume`.
 */
module Extract {
  import opened Wrappers
  import opened JsText
  import opened Seqs

  /** Why an extraction throws a TypeError in the script. */
  datatype Failure =
    | Undefined(index: nat)   // element `index` of a too-short array is `undefined`, and a method is called on it
    | NoMatch(text: string)   // `text.match(...)` gave `null`, and `[0]` is read from it

  /** What `parseInt` returns: a whole number, or NaN. */
  datatype Number = Int(value: nat) | NaN

  /**
   * A dimension as `calcVolume` holds it: the decimal literal `parseFloat` reads.
   * The binary floating-point value of the literal is not modelled.
   */
  type Dimension = string

  /**
   * `(height * width * depth).toFixed(2)`, kept as its three operands: the
   * floating-point product and its two-decimal rendering are not modelled.
   */
  datatype Volume = Volume(height: Dimension, width: Dimension, depth: Dimension)

  // ---------------------------------------------------------------- the unit regular expressions

  /**
   * `/^\d.+\.?\d?\s<unit>/` matches `s` with its white-space character at `j`: a digit
   * first, `.+` over s[1..j] (at least one character, none a line terminator), then white
   * space and the unit. `\.?\d?` only ever matches characters that `.+` can take as well,
   * so every match of the expression has this shape.
   */
  predicate UnitAt(s: string, unit: string, j: int) {
    && 2 <= j && j + 1 + |unit| <= |s|
    && IsDigit(s[0])
    && (forall k :: 1 <= k < j ==> !IsLineTerminator(s[k]))
    && IsSpace(s[j])
    && s[j + 1..j + 1 + |unit|] == unit
  }

  /** The regular expression matches `s` somewhere. */
  ghost predicate HasUnit(s: string, unit: string) {
    exists j :: UnitAt(s, unit, j)
  }

  /** The largest white-space position not above `j` at which the expression matches, or -1. */
  function LastUnitAt(s: string, unit: string, j: int): (r: int)
    ensures r == -1 || (r <= j && UnitAt(s, unit, r))
    ensures forall k :: r < k <= j ==> !UnitAt(s, unit, k)
    decreases j
  {
    if j < 2 then -1
    else if UnitAt(s, unit, j) then j
    else LastUnitAt(s, unit, j - 1)
  }

  /**
   * `s.match(/^\d.+\.?\d?\s<unit>/)`: `null` or the matched text. The greedy `.+` backtracks
   * from the end of the line, so the match ends at the last place the unit can end.
   */
  function MatchUnit(s: string, unit: string): (m: Option<string>)
    ensures m.Some? <==> HasUnit(s, unit)
    ensures m.Some? ==> exists j :: UnitAt(s, unit, j) && m.value == s[..j + 1 + |unit|]
                                   && forall k :: j < k ==> !UnitAt(s, unit, k)
  {
    var j := LastUnitAt(s, unit, |s|);
    if j == -1 then None else Some(s[..j + 1 + |unit|])
  }

  /**
   * A line made of one digit, exactly one white-space character and the unit has no match:
   * `.+` needs a character between the digit and the white space.
   */
  lemma SingleDigitRejected(d: char, w: char, unit: string)
    requires IsDigit(d) && IsSpace(w)
    ensures !HasUnit([d, w] + unit, unit)
  {
  }

  /** With two white-space characters before the unit, `.+` takes the first one and the line matches. */
  lemma DoubleSpaceMatches(d: char, w: char, unit: string)
    requires IsDigit(d) && IsSpace(w) && !IsLineTerminator(w)
    ensures HasUnit([d, w, w] + unit, unit)
  {
    assert UnitAt([d, w, w] + unit, unit, 2);
  }

  // ---------------------------------------------------------------- number parsing

  /** The longest prefix of `s` made of decimal digits. */
  function DigitRun(s: string): (r: string)
    ensures |r| <= |s| && r == s[..|r|] && AllDigits(r)
    ensures |r| < |s| ==> !IsDigit(s[|r|])
  {
    if s != [] && IsDigit(s[0]) then [s[0]] + DigitRun(s[1..]) else []
  }

  /** A digit run is not cut short by dropping text after a non-digit. */
  lemma {:induction false} DigitRunPrefix(s: string, t: string, n: nat, k: nat)
    requires k < n <= |s| && !IsDigit(s[k]) && t == s[..n]
    ensures DigitRun(t) == DigitRun(s)
  {
    assert t[0] == s[0];
    if IsDigit(s[0]) {
      var t' := t[1..];
      assert t' == s[1..][..n - 1];
      DigitRunPrefix(s[1..], t', n - 1, k - 1);
      assert DigitRun(t) == [t[0]] + DigitRun(t');
    }
  }

  predicate IsHexDigit(c: char) {
    IsDigit(c) || 'a' <= c <= 'f' || 'A' <= c <= 'F'
  }

  function HexDigitValue(c: char): (v: nat)
    requires IsHexDigit(c)
    ensures v < 16
  {
    if IsDigit(c) then DigitValue(c)
    else if 'a' <= c <= 'f' then c as nat - 'a' as nat + 10
    else c as nat - 'A' as nat + 10
  }

  /** The longest prefix of `s` made of hexadecimal digits. */
  function HexRun(s: string): (r: string)
    ensures |r| <= |s| && r == s[..|r|]
    ensures forall k :: 0 <= k < |r| ==> IsHexDigit(r[k])
    ensures |r| < |s| ==> !IsHexDigit(s[|r|])
  {
    if s != [] && IsHexDigit(s[0]) then [s[0]] + HexRun(s[1..]) else []
  }

  function HexValue(hs: string): nat
    requires forall k :: 0 <= k < |hs| ==> IsHexDigit(hs[k])
  {
    if hs == [] then 0 else HexValue(hs[..|hs| - 1]) * 16 + HexDigitValue(hs[|hs| - 1])
  }

  /** The text starts with the `0x` / `0X` prefix that makes `parseInt` read base 16. */
  predicate HexPrefixed(t: string) {
    |t| >= 2 && t[0] == '0' && (t[1] == 'x' || t[1] == 'X')
  }

  /**
   * `parseInt(t)` with no radix, for a text that starts with a digit (so there is no
   * white space or sign to skip): base 16 after a `0x` prefix, base 10 otherwise, over
   * the longest run of digits of that base; NaN when the run is empty.
   */
  function ParseInt(t: string): (n: Number)
    requires t != [] && IsDigit(t[0])
    ensures !HexPrefixed(t) ==> n.Int?
    ensures n.NaN? <==> HexPrefixed(t) && (|t| == 2 || !IsHexDigit(t[2]))
  {
    if HexPrefixed(t) then
      var hs := HexRun(t[2..]);
      if hs == [] then NaN else Int(HexValue(hs))
    else
      Int(DecimalValue(DigitRun(t)))
  }

  /** A character that can appear in a decimal literal. */
  predicate IsLiteralChar(c: char) {
    IsDigit(c) || c == '.' || c == 'e' || c == 'E' || c == '+' || c == '-'
  }

  /** Every character of `s` can appear in a decimal literal. */
  predicate AllLiteral(s: string) {
    forall k :: 0 <= k < |s| ==> IsLiteralChar(s[k])
  }

  /** A prefix of `t` made of literal characters, extended by literal characters that follow it. */
  lemma LiteralSplit(t: string, f: nat, e: nat)
    requires f + e <= |t| && AllLiteral(t[..f]) && AllLiteral(t[f..][..e])
    ensures AllLiteral(t[..f + e])
  {
    var lit := t[..f + e];
    forall k | 0 <= k < |lit| ensures IsLiteralChar(lit[k]) {
      if k < f {
        assert lit[k] == t[..f][k];
      } else {
        assert lit[k] == t[f..][..e][k - f];
      }
    }
  }

  /** The exponent part `e`/`E`, optional sign, digits, that a decimal literal may end with; 0 if absent. */
  function ExponentLength(s: string): (n: nat)
    ensures n <= |s| && AllLiteral(s[..n])
  {
    if |s| >= 1 && (s[0] == 'e' || s[0] == 'E') then
      var sign := if |s| >= 2 && (s[1] == '+' || s[1] == '-') then 1 else 0;
      var ds := DigitRun(s[1 + sign..]);
      if |ds| > 0 then
        assert AllLiteral(s[..1 + sign]);
        LiteralSplit(s, 1 + sign, |ds|);
        1 + sign + |ds|
      else 0
    else 0
  }

  /** The length of the digits, optionally followed by `.` and more digits, that `t` starts with. */
  function MantissaLength(t: string): (f: nat)
    ensures f <= |t| && AllLiteral(t[..f])
    ensures t != [] && IsDigit(t[0]) ==> f > 0
  {
    var i := |DigitRun(t)|;
    if i < |t| && t[i] == '.' then
      var ds := DigitRun(t[i + 1..]);
      assert t[..i + 1] == DigitRun(t) + ['.'];
      LiteralSplit(t, i + 1, |ds|);
      i + 1 + |ds|
    else
      i
  }

  /**
   * The decimal literal `parseFloat(t)` reads from a text that starts with a digit:
   * digits, optionally `.` and more digits, optionally an exponent.
   */
  function FloatLiteral(t: string): (lit: string)
    requires t != [] && IsDigit(t[0])
    ensures 0 < |lit| <= |t| && lit == t[..|lit|] && AllLiteral(lit)
  {
    var f := MantissaLength(t);
    var e := ExponentLength(t[f..]);
    LiteralSplit(t, f, e);
    t[..f + e]
  }

  // ---------------------------------------------------------------- calcWeight and calcVolume

  /** `calcWeight`: `parseInt` of what the gram expression matches in the trimmed text. */
  function CalcWeight(weightText: string): (r: Result<Number, Failure>)
    ensures r.Ok? <==> HasUnit(Trim(weightText), "g")
    ensures r.Err? ==> r.error == NoMatch(Trim(weightText))
  {
    var t := Trim(weightText);
    match MatchUnit(t, "g")
    case None => Err(NoMatch(t))
    case Some(m) => Ok(ParseInt(m))
  }

  /** `applyRegex(parts[k])` in `calcVolume`: the literal read from line `k` of a block. */
  function ReadDimension(parts: seq<string>, k: nat): (r: Result<Dimension, Failure>)
    ensures r.Ok? <==> k < |parts| && HasUnit(parts[k], "mm")
    ensures k >= |parts| ==> r == Err(Undefined(k))
    ensures r.Ok? ==> k < |parts| && 0 < |r.value| <= |parts[k]| && r.value == parts[k][..|r.value|]
  {
    if k >= |parts| then Err(Undefined(k))
    else match MatchUnit(parts[k], "mm")
      case None => Err(NoMatch(parts[k]))
      case Some(m) => Ok(FloatLiteral(m))
  }

  /** `calcVolume`: height, width and depth from lines 1, 2 and 3 of a block, read in that order. */
  function CalcVolume(parts: seq<string>): (r: Result<Volume, Failure>)
    ensures r.Ok? <==> |parts| >= 4 && HasUnit(parts[1], "mm") && HasUnit(parts[2], "mm") && HasUnit(parts[3], "mm")
    ensures |parts| < 4 ==> r.Err?
  {
    match ReadDimension(parts, 1)
    case Err(e) => Err(e)
    case Ok(h) =>
      match ReadDimension(parts, 2)
      case Err(e) => Err(e)
      case Ok(w) =>
        match ReadDimension(parts, 3)
        case Err(e) => Err(e)
        case Ok(d) => Ok(Volume(h, w, d))
  }

  /** The volume is the literals of lines 1, 2 and 3, in that order: height, width, depth. */
  lemma CalcVolumeReads(parts: seq<string>)
    requires CalcVolume(parts).Ok?
    ensures CalcVolume(parts).value == Volume(FloatLiteral(parts[1]), FloatLiteral(parts[2]), FloatLiteral(parts[3]))
  {
    ReadDimensionOfLine(parts, 1);
    ReadDimensionOfLine(parts, 2);
    ReadDimensionOfLine(parts, 3);
  }

  /** A hexadecimal run is not cut short by dropping text after a character that is not a hexadecimal digit. */
  lemma {:induction false} HexRunPrefix(s: string, t: string, n: nat, k: nat)
    requires k < n <= |s| && !IsHexDigit(s[k]) && t == s[..n]
    ensures HexRun(t) == HexRun(s)
  {
    assert t[0] == s[0];
    if IsHexDigit(s[0]) {
      var t' := t[1..];
      assert t' == s[1..][..n - 1];
      HexRunPrefix(s[1..], t', n - 1, k - 1);
      assert HexRun(t) == [t[0]] + HexRun(t');
    }
  }

  /**
   * In the `0x` case the weight is the value of the whole run of hexadecimal digits after
   * the prefix, or NaN when there is none.
   */
  lemma CalcWeightReadsHexRun(weightText: string)
    requires CalcWeight(weightText).Ok? && HexPrefixed(Trim(weightText))
    ensures var hs := HexRun(Trim(weightText)[2..]);
      CalcWeight(weightText) == Ok(if hs == [] then NaN else Int(HexValue(hs)))
  {
    var t := Trim(weightText);
    var m := MatchUnit(t, "g").value;
    var j :| UnitAt(t, "g", j) && m == t[..j + 2];
    MatchedHexRun(t, m, j);
  }

  /** `parseInt` of a gram match after `0x` reads the hexadecimal run of the whole text. */
  lemma MatchedHexRun(t: string, m: string, j: nat)
    requires UnitAt(t, "g", j) && m == t[..j + 2] && HexPrefixed(t)
    ensures HexPrefixed(m) && HexRun(m[2..]) == HexRun(t[2..])
  {
    SpaceNotHex(t[j]);
    DropOfTake(t, m, j + 2, 2);
    assert t[2..][j - 2] == t[j];
    HexRunPrefix(t[2..], m[2..], j, j - 2);
  }

  /** A white-space character is not a hexadecimal digit. */
  lemma SpaceNotHex(c: char)
    requires IsSpace(c)
    ensures !IsHexDigit(c)
  {
  }

  /** A white-space character is not a digit. */
  lemma SpaceNotDigit(c: char)
    requires IsSpace(c)
    ensures !IsDigit(c) && !IsLiteralChar(c)
  {
  }

  /**
   * Outside the `0x` case, the weight is the value of the whole leading digit run of the
   * trimmed text: the match cannot end inside that run, so what follows it does not matter.
   */
  lemma {:induction false} CalcWeightReadsDigitRun(weightText: string)
    requires CalcWeight(weightText).Ok? && !HexPrefixed(Trim(weightText))
    ensures CalcWeight(weightText) == Ok(Int(DecimalValue(DigitRun(Trim(weightText)))))
  {
    var t := Trim(weightText);
    var m := MatchUnit(t, "g").value;
    var j :| UnitAt(t, "g", j) && m == t[..j + 2];
    MatchedDigitRun(t, m, j);
  }

  /** `parseInt` of a gram match reads the leading digit run of the whole text. */
  lemma MatchedDigitRun(t: string, m: string, j: nat)
    requires UnitAt(t, "g", j) && m == t[..j + 2] && !HexPrefixed(t)
    ensures ParseInt(m) == Int(DecimalValue(DigitRun(t)))
  {
    SpaceNotDigit(t[j]);
    DigitRunPrefix(t, m, j + 2, j);
    assert m[0] == t[0] && m[1] == t[1];
  }

  /** The exponent of a literal does not reach past a character that cannot be part of one. */
  lemma ExponentPrefix(u: string, p: string, n: nat, k: nat)
    requires k < n <= |u| && !IsLiteralChar(u[k]) && p == u[..n]
    ensures ExponentLength(p) == ExponentLength(u)
  {
    assert p[0] == u[0];
    if u[0] == 'e' || u[0] == 'E' {
      assert p[1] == u[1];
      var sign := if |u| >= 2 && (u[1] == '+' || u[1] == '-') then 1 else 0;
      var q := p[1 + sign..];
      assert q == u[1 + sign..][..n - 1 - sign];
      DigitRunPrefix(u[1 + sign..], q, n - 1 - sign, k - 1 - sign);
    }
  }

  /** The mantissa of a literal does not reach a character that cannot be part of one, nor depend on what follows it. */
  lemma MantissaPrefix(t: string, p: string, n: nat, k: nat)
    requires k < n <= |t| && !IsLiteralChar(t[k]) && p == t[..n]
    ensures MantissaLength(p) == MantissaLength(t) <= k
  {
    DigitRunPrefix(t, p, n, k);
    DigitRunStops(t, k);
    var i := |DigitRun(t)|;
    assert p[i] == t[i];
    if t[i] == '.' {
      FractionPrefix(t, p, n, k, i);
    }
  }

  /** The digits after the point of a literal are the same in any prefix that reaches a non-literal character. */
  lemma FractionPrefix(t: string, p: string, n: nat, k: nat, i: nat)
    requires i < k < n <= |t| && !IsLiteralChar(t[k]) && p == t[..n]
    ensures |DigitRun(p[i + 1..])| == |DigitRun(t[i + 1..])| <= k - i - 1
  {
    var r := t[i + 1..];
    DropOfTake(t, p, n, i + 1);
    assert r[k - i - 1] == t[k];
    DigitRunPrefix(r, p[i + 1..], n - i - 1, k - i - 1);
    DigitRunStops(r, k - i - 1);
  }

  /** A digit run ends at or before the first non-digit. */
  lemma DigitRunStops(s: string, k: nat)
    requires k < |s| && !IsDigit(s[k])
    ensures |DigitRun(s)| <= k
  {
  }

  /** The length of the literal `parseFloat` reads is the same in any prefix of the text that reaches a character no literal holds. */
  lemma LiteralLengthPrefix(t: string, p: string, n: nat, k: nat)
    requires k < n <= |t| && !IsLiteralChar(t[k]) && p == t[..n]
    ensures var f := MantissaLength(t);
      && MantissaLength(p) == f
      && ExponentLength(p[f..]) == ExponentLength(t[f..])
      && f + ExponentLength(t[f..]) <= k
      && p[..f + ExponentLength(t[f..])] == t[..f + ExponentLength(t[f..])]
  {
    MantissaPrefix(t, p, n, k);
    var f := MantissaLength(t);
    var u := t[f..];
    DropOfTake(t, p, n, f);
    assert u[k - f] == t[k];
    ExponentPrefix(u, p[f..], n - f, k - f);
    ExponentStops(u, k - f);
    PrefixOfPrefix(t, p, n, f + ExponentLength(u));
  }

  /** An exponent ends before the first character no literal holds. */
  lemma ExponentStops(u: string, k: nat)
    requires k < |u| && !IsLiteralChar(u[k])
    ensures ExponentLength(u) <= k
  {
  }

  lemma PrefixOfPrefix(t: string, p: string, n: nat, m: nat)
    requires m <= n <= |t| && p == t[..n]
    ensures p[..m] == t[..m]
  {
  }

  /** The literal `parseFloat` reads is the same in any prefix of the text that reaches a character no literal holds. */
  lemma FloatLiteralPrefix(t: string, n: nat, k: nat)
    requires t != [] && IsDigit(t[0])
    requires k < n <= |t| && !IsLiteralChar(t[k])
    ensures FloatLiteral(t[..n]) == FloatLiteral(t)
  {
    LiteralLengthPrefix(t, t[..n], n, k);
  }

  /**
   * `applyRegex` reads the literal at the start of the line, whatever text follows
   * the unit: the matched text only cuts the line after a white-space character.
   */
  lemma ReadDimensionOfLine(parts: seq<string>, k: nat)
    requires ReadDimension(parts, k).Ok?
    ensures ReadDimension(parts, k) == Ok(FloatLiteral(parts[k]))
  {
    var line := parts[k];
    var m := MatchUnit(line, "mm").value;
    var j :| UnitAt(line, "mm", j) && m == line[..j + 3];
    SpaceNotDigit(line[j]);
    FloatLiteralPrefix(line, j + 3, j);
  }

  /** A digit run stops where the digits stop. */
  lemma {:induction false} DigitRunOf(ds: string, rest: string)
    requires AllDigits(ds) && (rest == [] || !IsDigit(rest[0]))
    ensures DigitRun(ds + rest) == ds
  {
    if ds != [] {
      assert (ds + rest)[1..] == ds[1..] + rest;
      DigitRunOf(ds[1..], rest);
    } else {
      assert ds + rest == rest;
    }
  }

  /** The largest match position is `j` when the expression matches there and cannot match further right. */
  lemma LastMatch(s: string, unit: string, j: int)
    requires UnitAt(s, unit, j) && j + 1 + |unit| == |s|
    ensures MatchUnit(s, unit) == Some(s)
  {
    assert s[..j + 1 + |unit|] == s;
  }

  /** A measurement line `<digits>.<digit> mm` matches as a whole and is read as `<digits>.<digit>`. */
  lemma MeasurementLine(ds: string, d: char)
    requires ds != [] && AllDigits(ds) && IsDigit(d)
    ensures var line := ds + ['.', d] + " mm";
      MatchUnit(line, "mm") == Some(line) && FloatLiteral(line) == ds + ['.', d]
  {
    MeasurementMatch(ds, d);
    MeasurementLiteral(ds, d);
  }

  lemma MeasurementMatch(ds: string, d: char)
    requires ds != [] && AllDigits(ds) && IsDigit(d)
    ensures var line := ds + ['.', d] + " mm";
      MatchUnit(line, "mm") == Some(line)
  {
    var line := ds + ['.', d] + " mm";
    var j := |ds| + 2;
    assert line[j + 1..j + 3] == "mm";
    forall k | 1 <= k < j ensures !IsLineTerminator(line[k]) {
      if k < |ds| { assert line[k] == ds[k]; }
    }
    assert UnitAt(line, "mm", j);
    LastMatch(line, "mm", j);
  }

  lemma MeasurementLiteral(ds: string, d: char)
    requires ds != [] && AllDigits(ds) && IsDigit(d)
    ensures FloatLiteral(ds + ['.', d] + " mm") == ds + ['.', d]
  {
    MantissaOfDecimal(ds, d, " mm");
    TakeAppend(ds + ['.', d], " mm");
  }

  /** Digits, a point and one digit form the mantissa when no digit follows. */
  lemma MantissaOfDecimal(ds: string, d: char, rest: string)
    requires AllDigits(ds) && IsDigit(d) && (rest == [] || !IsDigit(rest[0]))
    ensures MantissaLength(ds + ['.', d] + rest) == |ds| + 2
  {
    var t := ds + ['.', d] + rest;
    assert t == ds + (['.', d] + rest);
    DigitRunOf(ds, ['.', d] + rest);
    assert t[|ds| + 1..] == [d] + rest;
    DigitRunOf([d], rest);
  }

  /** A weight `<digits> g` with at least two digits is read as the number the digits denote. */
  lemma GramsText(ds: string)
    requires |ds| >= 2 && AllDigits(ds)
    ensures CalcWeight(ds + " g") == Ok(Int(DecimalValue(ds)))
  {
    GramsTrim(ds);
    GramsMatch(ds);
    DigitRunOf(ds, " g");
  }

  /** `<digits> g` matches as a whole and has no `0x` prefix. */
  lemma GramsMatch(ds: string)
    requires |ds| >= 2 && AllDigits(ds)
    ensures var t := ds + " g";
      MatchUnit(t, "g") == Some(t) && !HexPrefixed(t) && IsDigit(t[0])
  {
    var t := ds + " g";
    assert t[0] == ds[0] && t[1] == ds[1];
    assert t[|ds| + 1..|ds| + 2] == "g";
    forall k | 1 <= k < |ds| ensures !IsLineTerminator(t[k]) {
      assert t[k] == ds[k];
    }
    assert UnitAt(t, "g", |ds|);
    LastMatch(t, "g", |ds|);
  }

  /** `<digits> g` is its own trim. */
  lemma GramsTrim(ds: string)
    requires ds != [] && AllDigits(ds)
    ensures Trim(ds + " g") == ds + " g"
  {
    var t := ds + " g";
    assert t[0] == ds[0] && t[|t| - 1] == 'g';
    TrimUnpadded(t);
  }
}
