/**
 * The parts of the JavaScript string library that parse.js relies on:
 * `trim`, `indexOf`, `split` and `Array.prototype.join` on strings,
 * `replace` with a string pattern, and the decimal text of a whole number.
 */
module JsText {
  import opened Seqs

  /** `\d` in a regular expression: an ASCII decimal digit. */
  predicate IsDigit(c: char) {
    '0' <= c <= '9'
  }

  /** The characters `.` does not match in a regular expression without the `s` flag. */
  predicate IsLineTerminator(c: char) {
    c == '\n' || c == '\r' || c == '\U{2028}' || c == '\U{2029}'
  }

  /** WhiteSpace or LineTerminator: what `\s` matches and what `trim` strips. */
  predicate IsSpace(c: char) {
    || c == '\t' || c == '\U{B}' || c == '\U{C}' || c == ' ' || c == '\U{A0}' || c == '\U{FEFF}'
    || c == '\U{1680}' || ('\U{2000}' <= c <= '\U{200A}') || c == '\U{202F}' || c == '\U{205F}'
    || c == '\U{3000}' || IsLineTerminator(c)
  }

  // ---------------------------------------------------------------- trim

  function TrimStart(s: string): (r: string)
    ensures |r| <= |s| && r == s[|s| - |r|..]
    ensures r == [] || !IsSpace(r[0])
    ensures forall k :: 0 <= k < |s| - |r| ==> IsSpace(s[k])
  {
    if s != [] && IsSpace(s[0]) then TrimStart(s[1..]) else s
  }

  function TrimEnd(s: string): (r: string)
    ensures |r| <= |s| && r == s[..|r|]
    ensures r == [] || !IsSpace(r[|r| - 1])
    ensures forall k :: |r| <= k < |s| ==> IsSpace(s[k])
  {
    if s != [] && IsSpace(s[|s| - 1]) then TrimEnd(s[..|s| - 1]) else s
  }

  /** `String.prototype.trim`: the longest infix of `s` that neither starts nor ends with white space. */
  function Trim(s: string): (r: string)
    ensures r == [] || (!IsSpace(r[0]) && !IsSpace(r[|r| - 1]))
    ensures var i := |s| - |TrimStart(s)|;
      && i + |r| <= |s|
      && r == s[i..i + |r|]
      && (forall k :: 0 <= k < i ==> IsSpace(s[k]))
      && (forall k :: i + |r| <= k < |s| ==> IsSpace(s[k]))
  {
    TrimEnd(TrimStart(s))
  }

  /** A string that neither starts nor ends with white space is its own trim. */
  lemma TrimUnpadded(s: string)
    requires s == [] || (!IsSpace(s[0]) && !IsSpace(s[|s| - 1]))
    ensures Trim(s) == s
  {
  }

  // ---------------------------------------------------------------- search

  predicate OccursAt(s: string, pat: string, i: int) {
    0 <= i && i + |pat| <= |s| && s[i..i + |pat|] == pat
  }

  /** The first index at or after `from` where `pat` occurs in `s`, or -1. */
  function IndexOfFrom(s: string, pat: string, from: nat): (r: int)
    requires from <= |s|
    ensures r == -1 || (from <= r && OccursAt(s, pat, r))
    ensures forall k :: from <= k && (r == -1 || k < r) ==> !OccursAt(s, pat, k)
    decreases |s| - from
  {
    if OccursAt(s, pat, from) then from
    else if from == |s| then -1
    else IndexOfFrom(s, pat, from + 1)
  }

  /** `String.prototype.indexOf`. */
  function IndexOf(s: string, pat: string): (r: int)
    ensures r == -1 || OccursAt(s, pat, r)
    ensures forall k :: 0 <= k && (r == -1 || k < r) ==> !OccursAt(s, pat, k)
  {
    IndexOfFrom(s, pat, 0)
  }

  /** `pat` occurs nowhere in `s`. */
  predicate Free(s: string, pat: string) {
    IndexOf(s, pat) == -1
  }

  /** A one-character pattern occurs exactly where that character stands. */
  lemma OccursChar(s: string, c: char, k: int)
    requires 0 <= k < |s|
    ensures OccursAt(s, [c], k) <==> s[k] == c
  {
    assert s[k..k + 1] == [s[k]];
  }

  /** Searching for a one-character pattern finds the first place the character stands. */
  lemma IndexOfChar(s: string, c: char)
    ensures var i := IndexOf(s, [c]);
      && (i == -1 <==> c !in s)
      && (i != -1 ==> 0 <= i < |s| && s[i] == c && c !in s[..i])
  {
    var i := IndexOf(s, [c]);
    forall k | 0 <= k < |s| && (i == -1 || k < i) ensures s[k] != c { OccursChar(s, c, k); }
    if i != -1 { OccursChar(s, c, i); }
  }

  /** `s.replace(c, '')` with a one-character string pattern: deletes the first `c` only. */
  function RemoveFirst(s: string, c: char): (r: string)
    ensures c !in s ==> r == s
    ensures c in s ==> exists i :: 0 <= i < |s| && s[i] == c && c !in s[..i] && r == s[..i] + s[i + 1..]
  {
    IndexOfChar(s, c);
    var i := IndexOf(s, [c]);
    if i == -1 then s else s[..i] + s[i + 1..]
  }

  // ---------------------------------------------------------------- split and join

  /** `String.prototype.split` with a non-empty string separator. */
  function Split(s: string, sep: string): (parts: seq<string>)
    requires sep != []
    ensures |parts| >= 1
    decreases |s|
  {
    var i := IndexOf(s, sep);
    if i == -1 then [s] else [s[..i]] + Split(s[i + |sep|..], sep)
  }

  /** `Array.prototype.join` on strings. */
  function Join(parts: seq<string>, sep: string): (s: string)
    ensures |parts| == 1 ==> s == parts[0]
  {
    if |parts| == 0 then ""
    else if |parts| == 1 then parts[0]
    else parts[0] + sep + Join(parts[1..], sep)
  }

  /**
   * The first piece of a split ends where the separator first occurs, and the rest is the
   * split of what follows that occurrence; without an occurrence the text is one piece.
   */
  lemma SplitFirst(s: string, sep: string)
    requires sep != []
    ensures IndexOf(s, sep) == -1 <==> |Split(s, sep)| == 1
    ensures IndexOf(s, sep) == -1 ==> Split(s, sep) == [s]
    ensures var i := IndexOf(s, sep);
      i != -1 ==> 0 <= i && i + |sep| <= |s| && Split(s, sep) == [s[..i]] + Split(s[i + |sep|..], sep)
  {
  }

  /** Joining the pieces of a split restores the string. */
  lemma {:induction false} JoinSplit(s: string, sep: string)
    requires sep != []
    ensures Join(Split(s, sep), sep) == s
    decreases |s|
  {
    var i := IndexOf(s, sep);
    SplitFirst(s, sep);
    if i != -1 {
      var rest := s[i + |sep|..];
      JoinSplit(rest, sep);
      JoinCons(s[..i], Split(rest, sep), sep);
      Around(s, i, i + |sep|);
    }
  }

  /** Joining a first part onto the rest. */
  lemma JoinCons(p: string, rest: seq<string>, sep: string)
    requires |rest| >= 1
    ensures Join([p] + rest, sep) == p + sep + Join(rest, sep)
  {
    assert ([p] + rest)[1..] == rest;
  }

  /** No piece of a split contains the separator. */
  lemma {:induction false} SplitPiecesFree(s: string, sep: string)
    requires sep != []
    ensures forall p <- Split(s, sep) :: Free(p, sep)
    decreases |s|
  {
    var i := IndexOf(s, sep);
    if i != -1 {
      SplitPiecesFree(s[i + |sep|..], sep);
      HeadFree(s, sep, i);
    }
  }

  /** The text before the first occurrence of a pattern does not contain it. */
  lemma HeadFree(s: string, pat: string, i: int)
    requires pat != [] && i == IndexOf(s, pat) && i != -1
    ensures Free(s[..i], pat)
  {
    var head := s[..i];
    forall k | 0 <= k ensures !OccursAt(head, pat, k) {
      if k + |pat| <= i {
        assert !OccursAt(s, pat, k);
        assert head[k..k + |pat|] == s[k..k + |pat|];
      }
    }
  }

  /** With a one-character separator that no part contains, split undoes join. */
  lemma {:induction false} SplitJoin(parts: seq<string>, c: char)
    requires |parts| >= 1
    requires forall p <- parts :: Free(p, [c])
    ensures Split(Join(parts, [c]), [c]) == parts
    decreases |parts|
  {
    var s := Join(parts, [c]);
    var p := parts[0];
    assert Free(p, [c]) by { assert p in parts; }
    IndexOfChar(p, c);
    SplitFirst(s, [c]);
    if |parts| == 1 {
      IndexOfChar(s, c);
    } else {
      var rest := parts[1..];
      JoinCons(p, rest, [c]);
      FirstSeparator(p, Join(rest, [c]), c);
      SplitJoin(rest, c);
      Cons(parts);
    }
  }

  /** In `p + [c] + t` with no `c` in `p`, the first `c` is the one after `p`. */
  lemma FirstSeparator(p: string, t: string, c: char)
    requires c !in p
    ensures var s := p + [c] + t;
      IndexOf(s, [c]) == |p| && s[..|p|] == p && s[|p| + 1..] == t
  {
    var s := p + [c] + t;
    IndexOfChar(s, c);
    var i := IndexOf(s, [c]);
    assert s[|p|] == c;
    assert s[..|p|] == p;
    forall k | 0 <= k < |p| ensures s[k] != c {
      assert s[k] == p[k];
    }
  }

  /**
   * The first two fields of a split on a character: the text before the first `c`, and
   * the text between the first and the second `c` (or the end); a single field without any `c`.
   */
  lemma SplitFields(s: string, c: char)
    ensures var p := Split(s, [c]);
      && (|p| == 1 <==> c !in s)
      && |p[0]| <= |s| && p[0] == s[..|p[0]|] && c !in p[0]
      && (|p| >= 2 ==> var rest := s[|p[0]| + 1..];
            s[|p[0]|] == c && |p[1]| <= |rest| && p[1] == rest[..|p[1]|] && c !in p[1]
            && (|p[1]| < |rest| ==> rest[|p[1]|] == c))
  {
    var i := IndexOf(s, [c]);
    forall k | 0 <= k < |s| && (i == -1 || k < i) ensures s[k] != c { OccursChar(s, c, k); }
    if i != -1 {
      OccursChar(s, c, i);
      var rest := s[i + 1..];
      var j := IndexOf(rest, [c]);
      forall k | 0 <= k < |rest| && (j == -1 || k < j) ensures rest[k] != c { OccursChar(rest, c, k); }
      if j != -1 { OccursChar(rest, c, j); }
    }
  }

  // ---------------------------------------------------------------- whole numbers

  function DigitValue(c: char): nat
    requires IsDigit(c)
  {
    c as nat - '0' as nat
  }

  function DigitChar(d: nat): (c: char)
    requires d < 10
    ensures IsDigit(c) && DigitValue(c) == d
  {
    ('0' as nat + d) as char
  }

  predicate AllDigits(s: string) {
    forall k :: 0 <= k < |s| ==> IsDigit(s[k])
  }

  /** The number a run of decimal digits denotes. */
  function DecimalValue(ds: string): nat
    requires AllDigits(ds)
  {
    if ds == [] then 0 else DecimalValue(ds[..|ds| - 1]) * 10 + DigitValue(ds[|ds| - 1])
  }

  /** `String(n)` for a whole number below 10^21: its decimal digits, without leading zeros. */
  function DecimalText(n: nat): (s: string)
    ensures s != [] && AllDigits(s)
    ensures |s| > 1 ==> s[0] != '0'
  {
    if n < 10 then [DigitChar(n)] else DecimalText(n / 10) + [DigitChar(n % 10)]
  }

  /** Reading back the decimal text of a number gives the number. */
  lemma {:induction false} DecimalRoundTrip(n: nat)
    ensures DecimalValue(DecimalText(n)) == n
  {
    if n >= 10 {
      DecimalRoundTrip(n / 10);
      var s := DecimalText(n);
      assert s[..|s| - 1] == DecimalText(n / 10);
    }
  }
}
