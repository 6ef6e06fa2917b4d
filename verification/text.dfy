/**
 String helpers used by both scripts: Python's `sep.join`, `str.split` on one
 character, `str.endswith`, and decimal rendering of integers (`f'{n}'` and the
 zero-padded fields of `strftime`).
 */
module Text {

  /* ---------------------------------------------------------------- prefixes */

  predicate StartsWith(s: string, prefix: string) {
    |prefix| <= |s| && s[..|prefix|] == prefix
  }

  /** Python's `s.endswith(suffix)`; every string ends with "". */
  predicate EndsWith(s: string, suffix: string) {
    |suffix| <= |s| && s[|s| - |suffix|..] == suffix
  }

  /** The pieces of `a + [c] + b` sit where they were put. */
  lemma ConcatParts(a: string, c: char, b: string)
    ensures var s := a + [c] + b;
            s[..|a|] == a && s[|a|] == c && s[|a| + 1..] == b
  {
  }

  /* ------------------------------------------------------- decimal numbers */

  predicate IsDigit(c: char) {
    '0' <= c <= '9'
  }

  predicate AllDigits(s: string) {
    forall i :: 0 <= i < |s| ==> IsDigit(s[i])
  }

  function DigitChar(d: nat): (c: char)
    requires d < 10
    ensures IsDigit(c)
  {
    ('0' as int + d) as char
  }

  function DigitValue(c: char): (d: nat)
    requires IsDigit(c)
    ensures d < 10 && DigitChar(d) == c
  {
    c as int - '0' as int
  }

  /** The value of a string of decimal digits, most significant digit first. */
  function DecimalValue(s: string): nat
    requires AllDigits(s)
    decreases |s|
  {
    if |s| == 0 then 0 else 10 * DecimalValue(s[..|s| - 1]) + DigitValue(s[|s| - 1])
  }

  /** Python's `f'{n}'` for a non-negative integer: its shortest decimal form. */
  function NatToString(n: nat): (r: string)
    ensures 1 <= |r| && AllDigits(r)
    ensures DecimalValue(r) == n
    ensures r[0] == '0' <==> n == 0
    decreases n
  {
    if n < 10 then [DigitChar(n)] else NatToString(n / 10) + [DigitChar(n % 10)]
  }

  /** The decimal rendering of naturals never maps two numbers to one string. */
  lemma NatToStringInjective(a: nat, b: nat)
    ensures NatToString(a) == NatToString(b) <==> a == b
  {
  }

  function Pow10(k: nat): (p: nat)
    ensures 1 <= p
  {
    if k == 0 then 1 else 10 * Pow10(k - 1)
  }

  /** `n` written with exactly `width` digits, zero-padded on the left, as
      `strftime` renders `%Y` (width 4) and `%m`, `%d` (width 2). */
  function PadDigits(n: nat, width: nat): (r: string)
    requires n < Pow10(width)
    ensures |r| == width && AllDigits(r)
    ensures DecimalValue(r) == n
    decreases width
  {
    if width == 0 then ""
    else
      assert n / 10 < Pow10(width - 1);
      PadDigits(n / 10, width - 1) + [DigitChar(n % 10)]
  }

  /* ------------------------------------------------------- join and split */

  /** Python's `sep.join(parts)`. */
  function Join(sep: string, parts: seq<string>): string
    decreases |parts|
  {
    if |parts| == 0 then ""
    else if |parts| == 1 then parts[0]
    else parts[0] + sep + Join(sep, parts[1..])
  }

  /** `wrapjoin(parts, sep)` (convert.py): the parts joined by `sep`, with one
      more `sep` in front and one at the end. */
  function WrapJoin(parts: seq<string>, sep: string): (r: string)
    ensures StartsWith(r, sep) && EndsWith(r, sep)
    ensures |r| >= 2 * |sep|
    ensures |parts| == 0 ==> r == sep + sep
    ensures |parts| == 1 ==> r == sep + parts[0] + sep
  {
    sep + Join(sep, parts) + sep
  }

  /** `to_flist(parts)` (convert.py): the parts as a `|`-delimited list with a
      bar at each end, `|a|b|`. */
  function ToFList(parts: seq<string>): (r: string)
    ensures StartsWith(r, "|") && EndsWith(r, "|")
    ensures |parts| == 0 ==> r == "||"
  {
    WrapJoin(parts, "|")
  }

  /** Index of the first `c` in `s`, or `|s|` when there is none. */
  function IndexOf(s: string, c: char): (i: nat)
    ensures i <= |s|
    ensures i < |s| ==> s[i] == c
    ensures forall j :: 0 <= j < i ==> s[j] != c
    decreases |s|
  {
    if |s| == 0 then 0 else if s[0] == c then 0 else 1 + IndexOf(s[1..], c)
  }

  /** Python's `s.split(c)` for a one-character separator: the maximal
      `c`-free pieces, empty ones included; never an empty list. */
  function SplitOn(s: string, c: char): (r: seq<string>)
    ensures 1 <= |r|
    ensures forall k :: 0 <= k < |r| ==> c !in r[k]
    decreases |s|
  {
    var i := IndexOf(s, c);
    if i == |s| then [s] else [s[..i]] + SplitOn(s[i + 1..], c)
  }

  /** No part of `parts` contains the character `c`. */
  predicate Free(parts: seq<string>, c: char) {
    forall k :: 0 <= k < |parts| ==> c !in parts[k]
  }

  lemma {:induction false} JoinAppend(sep: string, a: seq<string>, b: seq<string>)
    requires 1 <= |a| && 1 <= |b|
    ensures Join(sep, a + b) == Join(sep, a) + sep + Join(sep, b)
    decreases |a|
  {
    assert (a + b)[0] == a[0];
    assert (a + b)[1..] == a[1..] + b;
    if |a| > 1 {
      JoinAppend(sep, a[1..], b);
    }
  }

  /** A wrapped join is a plain join with an empty part added at each end. */
  lemma WrapJoinIsJoin(parts: seq<string>, sep: string)
    requires 1 <= |parts|
    ensures WrapJoin(parts, sep) == Join(sep, [""] + parts + [""])
  {
    JoinAppend(sep, [""], parts);
    JoinAppend(sep, [""] + parts, [""]);
  }

  lemma SplitAtFirst(a: string, c: char, b: string)
    requires c !in a
    ensures SplitOn(a + [c] + b, c) == [a] + SplitOn(b, c)
  {
    var s := a + [c] + b;
    var i := IndexOf(s, c);
    assert s[|a|] == c;
    assert i == |a|;
    assert s[..i] == a;
    assert s[i + 1..] == b;
  }

  /** `split` undoes `join` when no part holds the separator. */
  lemma {:induction false} SplitJoin(parts: seq<string>, c: char)
    requires 1 <= |parts| && Free(parts, c)
    ensures SplitOn(Join([c], parts), c) == parts
    decreases |parts|
  {
    if |parts| == 1 {
      assert IndexOf(parts[0], c) == |parts[0]|;
    } else {
      SplitAtFirst(parts[0], c, Join([c], parts[1..]));
      SplitJoin(parts[1..], c);
    }
  }

  /** Splitting a wrapped join on its separator gives back the parts, framed
      by one empty piece on each side. */
  lemma WrapJoinSplit(parts: seq<string>, c: char)
    requires 1 <= |parts| && Free(parts, c)
    ensures SplitOn(WrapJoin(parts, [c]), c) == [""] + parts + [""]
  {
    WrapJoinIsJoin(parts, [c]);
    SplitJoin([""] + parts + [""], c);
  }

  /** `to_flist` round trip: a bar-free non-empty list is recovered by
      splitting on `|` and dropping the two empty ends. */
  lemma ToFListRoundTrip(parts: seq<string>)
    requires 1 <= |parts| && Free(parts, '|')
    ensures var pieces := SplitOn(ToFList(parts), '|');
            |pieces| == |parts| + 2 && pieces[1..|pieces| - 1] == parts
  {
    WrapJoinSplit(parts, '|');
    var pieces := SplitOn(ToFList(parts), '|');
    assert pieces == [""] + parts + [""];
  }

  /** The encoding cannot tell the empty list from a list of one empty
      string: both become `||`. */
  lemma ToFListEmptyIsAmbiguous()
    ensures ToFList([]) == ToFList([""]) == "||"
  {
  }
}
