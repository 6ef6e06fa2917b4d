/**
 The paragraph splitter of convert.py: `re.compile(r'[\n\r]+').split(text)`.
 The text is cut at every maximal run of carriage returns and line feeds; the
 runs themselves are dropped and empty pieces at either end are kept.
 */
module Paragraphs {

  predicate IsBreak(c: char) {
    c == '\n' || c == '\r'
  }

  /** `s` holds no line-break character. */
  predicate NoBreak(s: string) {
    forall i :: 0 <= i < |s| ==> !IsBreak(s[i])
  }

  /** `s` is a non-empty run of line-break characters. */
  predicate IsBreakRun(s: string) {
    1 <= |s| && forall i :: 0 <= i < |s| ==> IsBreak(s[i])
  }

  /* The spans and the splitter promise only their bounds in their own
     contracts; what they scan for is proved in the lemmas after them, so
     that unfolding the splitter stays cheap for the solver. */

  /** Length of the longest break-free prefix of `s`. */
  function TextSpan(s: string): (n: nat)
    ensures n <= |s|
    decreases |s|
  {
    if |s| == 0 || IsBreak(s[0]) then 0 else 1 + TextSpan(s[1..])
  }

  /** The text span is maximal: no break before it, a break right after it. */
  lemma {:induction false} TextSpanFacts(s: string)
    ensures forall i :: 0 <= i < TextSpan(s) ==> !IsBreak(s[i])
    ensures TextSpan(s) < |s| ==> IsBreak(s[TextSpan(s)])
    decreases |s|
  {
    if |s| > 0 && !IsBreak(s[0]) {
      TextSpanFacts(s[1..]);
      forall i | 0 < i < TextSpan(s)
        ensures !IsBreak(s[i])
      {
        assert s[i] == s[1..][i - 1];
      }
    }
  }

  /** Length of the longest all-break prefix of `s`. */
  function BreakSpan(s: string): (n: nat)
    ensures n <= |s|
    decreases |s|
  {
    if |s| == 0 || !IsBreak(s[0]) then 0 else 1 + BreakSpan(s[1..])
  }

  /** The break span is maximal: only breaks before it, no break right
      after it. */
  lemma {:induction false} BreakSpanFacts(s: string)
    ensures forall i :: 0 <= i < BreakSpan(s) ==> IsBreak(s[i])
    ensures BreakSpan(s) < |s| ==> !IsBreak(s[BreakSpan(s)])
    decreases |s|
  {
    if |s| > 0 && IsBreak(s[0]) {
      BreakSpanFacts(s[1..]);
      forall i | 0 < i < BreakSpan(s)
        ensures IsBreak(s[i])
      {
        assert s[i] == s[1..][i - 1];
      }
    }
  }

  /** `splitter.split(s)`: the pieces between maximal break runs. */
  function SplitParagraphs(s: string): (r: seq<string>)
    ensures 1 <= |r|
    decreases |s|
  {
    var p := TextSpan(s);
    if p == |s| then [s]
    else
      var b := BreakSpan(s[p..]);
      [s[..p]] + SplitParagraphs(s[p + b..])
  }

  /** The splitter returns at least one piece, and no piece holds a break. */
  lemma {:induction false} SplitPiecesHaveNoBreaks(s: string)
    ensures 1 <= |SplitParagraphs(s)|
    ensures forall k :: 0 <= k < |SplitParagraphs(s)| ==> NoBreak(SplitParagraphs(s)[k])
    decreases |s|
  {
    var p := TextSpan(s);
    TextSpanFacts(s);
    if p == |s| {
      assert s[..p] == s;
      assert SplitParagraphs(s) == [s];
    } else {
      var b := BreakSpan(s[p..]);
      SplitStep(s, p, b);
      SplitPiecesHaveNoBreaks(s[p + b..]);
      var r, rest := SplitParagraphs(s), SplitParagraphs(s[p + b..]);
      forall k | 0 <= k < |r|
        ensures NoBreak(r[k])
      {
        if k > 0 {
          assert r[k] == rest[k - 1];
        } else {
          assert r[0] == s[..p];
        }
      }
    }
  }

  /** The number of maximal break runs in `s`, counted independently of the
      splitter: a scan that counts the break characters not preceded by a
      break. `afterBreak` says whether the character before `s` was one. */
  function RunsFrom(s: string, afterBreak: bool): nat
    decreases |s|
  {
    if |s| == 0 then 0
    else (if IsBreak(s[0]) && !afterBreak then 1 else 0) + RunsFrom(s[1..], IsBreak(s[0]))
  }

  function BreakRuns(s: string): nat {
    RunsFrom(s, false)
  }

  lemma {:induction false} RunsFromText(x: string, y: string, afterBreak: bool)
    requires NoBreak(x) && 1 <= |x|
    ensures RunsFrom(x + y, afterBreak) == RunsFrom(y, false)
    decreases |x|
  {
    assert (x + y)[0] == x[0];
    assert (x + y)[1..] == x[1..] + y;
    if |x| > 1 {
      RunsFromText(x[1..], y, false);
    }
  }

  lemma {:induction false} RunsFromBreaks(x: string, y: string)
    requires forall i :: 0 <= i < |x| ==> IsBreak(x[i])
    ensures RunsFrom(x + y, true) == RunsFrom(y, true)
    decreases |x|
  {
    if |x| > 0 {
      assert (x + y)[0] == x[0];
      assert (x + y)[1..] == x[1..] + y;
      RunsFromBreaks(x[1..], y);
    } else {
      assert x + y == y;
    }
  }

  /** A text without breaks has no break runs. */
  lemma RunsOfText(s: string)
    requires TextSpan(s) == |s|
    ensures BreakRuns(s) == 0
  {
    TextSpanFacts(s);
    if |s| > 0 {
      RunsFromText(s, "", false);
      assert s + "" == s;
    }
  }

  /** Leading text adds no run of its own. */
  lemma RunsSkipText(s: string, p: nat)
    requires p == TextSpan(s) < |s|
    ensures BreakRuns(s) == RunsFrom(s[p..], false)
  {
    if p > 0 {
      TextSpanFacts(s);
      assert s == s[..p] + s[p..];
      RunsFromText(s[..p], s[p..], false);
    }
  }

  /** A maximal break run at the front counts once. */
  lemma RunsSkipBreaks(t: string, b: nat)
    requires 1 <= |t| && IsBreak(t[0]) && b == BreakSpan(t)
    ensures RunsFrom(t, false) == 1 + RunsFrom(t[b..], false)
  {
    BreakSpanFacts(t);
    var run, rest := t[..b], t[b..];
    assert t[1..] == run[1..] + rest;
    RunsFromBreaks(run[1..], rest);
    if |rest| > 0 {
      assert !IsBreak(rest[0]);
    }
    assert RunsFrom(rest, true) == RunsFrom(rest, false);
  }

  /** Leading text followed by a break run contributes exactly one run. */
  lemma RunsStep(s: string, p: nat, b: nat)
    requires p == TextSpan(s) < |s| && b == BreakSpan(s[p..])
    ensures BreakRuns(s) == 1 + BreakRuns(s[p + b..])
  {
    RunsSkipText(s, p);
    TextSpanFacts(s);
    assert s[p..][0] == s[p];
    RunsSkipBreaks(s[p..], b);
    assert s[p..][b..] == s[p + b..];
  }

  /** Splitting yields one piece more than there are maximal break runs. */
  lemma {:induction false} SplitCount(s: string)
    ensures |SplitParagraphs(s)| == BreakRuns(s) + 1
    decreases |s|
  {
    var p := TextSpan(s);
    if p == |s| {
      RunsOfText(s);
    } else {
      var b := BreakSpan(s[p..]);
      RunsStep(s, p, b);
      SplitStep(s, p, b);
      SplitCount(s[p + b..]);
    }
  }

  /** `pieces` with the break runs `seps` put back between them. */
  function Interleave(pieces: seq<string>, seps: seq<string>): string
    requires |pieces| == |seps| + 1
    decreases |seps|
  {
    if |seps| == 0 then pieces[0] else pieces[0] + seps[0] + Interleave(pieces[1..], seps[1..])
  }

  /** The break runs of `s`, in order: what the splitter throws away. */
  function Separators(s: string): seq<string>
    decreases |s|
  {
    var p := TextSpan(s);
    if p == |s| then [] else [s[p..p + BreakSpan(s[p..])]] + Separators(s[p + BreakSpan(s[p..])..])
  }

  /** Every separator is a non-empty run of breaks. */
  lemma {:induction false} SeparatorsAreRuns(s: string)
    ensures forall k :: 0 <= k < |Separators(s)| ==> IsBreakRun(Separators(s)[k])
    decreases |s|
  {
    var p := TextSpan(s);
    if p < |s| {
      var b := BreakSpan(s[p..]);
      RunAfterText(s, p, b);
      SeparatorsStep(s, p, b);
      SeparatorsAreRuns(s[p + b..]);
      var r, rest := Separators(s), Separators(s[p + b..]);
      forall k | 0 <= k < |r|
        ensures IsBreakRun(r[k])
      {
        if k > 0 {
          assert r[k] == rest[k - 1];
        }
      }
    }
  }

  /** The run right after the leading text is a non-empty run of breaks. */
  lemma RunAfterText(s: string, p: nat, b: nat)
    requires p == TextSpan(s) < |s| && b == BreakSpan(s[p..])
    ensures IsBreakRun(s[p..p + b])
  {
    var t := s[p..];
    TextSpanFacts(s);
    BreakSpanFacts(t);
    assert IsBreak(t[0]);
    assert 1 <= b;
    var run := s[p..p + b];
    forall i | 0 <= i < |run|
      ensures IsBreak(run[i])
    {
      assert run[i] == t[i];
    }
  }

  lemma Reassemble(s: string, i: nat, j: nat)
    requires i <= j <= |s|
    ensures s == s[..i] + s[i..j] + s[j..]
  {
  }

  /** One step of the splitter: the leading text, then the pieces of what
      follows the run after it. */
  lemma SplitStep(s: string, p: nat, b: nat)
    requires p == TextSpan(s) < |s| && b == BreakSpan(s[p..])
    ensures SplitParagraphs(s) == [s[..p]] + SplitParagraphs(s[p + b..])
  {
  }

  /** One step of the separator list: the run after the leading text, then
      the runs of what follows it. */
  lemma SeparatorsStep(s: string, p: nat, b: nat)
    requires p == TextSpan(s) < |s| && b == BreakSpan(s[p..])
    ensures Separators(s) == [s[p..p + b]] + Separators(s[p + b..])
  {
  }

  /** Splitting loses nothing but the break runs: putting them back between
      the pieces restores the text. */
  lemma {:induction false} SplitRestores(s: string)
    ensures |SplitParagraphs(s)| == |Separators(s)| + 1
    ensures Interleave(SplitParagraphs(s), Separators(s)) == s
    decreases |s|
  {
    var p := TextSpan(s);
    if p < |s| {
      var b := BreakSpan(s[p..]);
      var a, run, rest := s[..p], s[p..p + b], s[p + b..];
      SplitStep(s, p, b);
      SeparatorsStep(s, p, b);
      SplitRestores(rest);
      var pieces, seps := SplitParagraphs(s), Separators(s);
      var pr, sr := SplitParagraphs(rest), Separators(rest);
      assert pieces == [a] + pr;
      assert seps == [run] + sr;
      assert pieces[1..] == pr;
      assert seps[1..] == sr;
      assert Interleave(pieces, seps) == a + run + Interleave(pr, sr);
      Reassemble(s, p, p + b);
    } else {
      assert SplitParagraphs(s) == [s];
    }
  }

  /** The pieces and runs a text can be split into: break-free pieces, whose
      inner ones are non-empty, separated by break runs. */
  predicate Layout(pieces: seq<string>, seps: seq<string>) {
    && |pieces| == |seps| + 1
    && (forall k :: 0 <= k < |pieces| ==> NoBreak(pieces[k]))
    && (forall k :: 0 <= k < |seps| ==> IsBreakRun(seps[k]))
    && (forall k :: 0 < k < |pieces| - 1 ==> 1 <= |pieces[k]|)
  }

  lemma InterleaveHead(pieces: seq<string>, seps: seq<string>)
    requires Layout(pieces, seps)
    ensures var t := Interleave(pieces, seps);
            (|t| == 0 || !IsBreak(t[0])) <==> (1 <= |pieces[0]| || |seps| == 0)
  {
    if |seps| > 0 {
      var t := Interleave(pieces, seps);
      if |pieces[0]| == 0 {
        assert t[0] == seps[0][0];
      } else {
        assert t[0] == pieces[0][0];
      }
    }
  }

  /** A break-free piece followed by a break: the text span stops there. */
  lemma TextSpanOfPiece(a: string, t: string)
    requires NoBreak(a) && 1 <= |t| && IsBreak(t[0])
    ensures TextSpan(a + t) == |a|
    ensures (a + t)[..|a|] == a && (a + t)[|a|..] == t
  {
    var s := a + t;
    TextSpanFacts(s);
    assert s[|a|] == t[0];
    assert s[..|a|] == a;
  }

  /** A break run followed by text that does not start with a break: the
      break span is exactly the run. */
  lemma BreakSpanOfRun(run: string, rest: string)
    requires IsBreakRun(run) && (|rest| == 0 || !IsBreak(rest[0]))
    ensures BreakSpan(run + rest) == |run|
    ensures (run + rest)[|run|..] == rest
  {
    BreakSpanFacts(run + rest);
    if |rest| > 0 {
      assert (run + rest)[|run|] == rest[0];
    }
  }

  /** The first piece and the first run of a layout are what the splitter
      takes off its text first. */
  lemma InterleaveStep(pieces: seq<string>, seps: seq<string>)
    requires Layout(pieces, seps) && 1 <= |seps|
    ensures var s, a, run := Interleave(pieces, seps), pieces[0], seps[0];
            && TextSpan(s) == |a| < |s|
            && BreakSpan(s[|a|..]) == |run|
            && s[..|a|] == a
            && s[|a| + |run|..] == Interleave(pieces[1..], seps[1..])
  {
    var a, run, rest := pieces[0], seps[0], Interleave(pieces[1..], seps[1..]);
    assert Layout(pieces[1..], seps[1..]);
    InterleaveHead(pieces[1..], seps[1..]);
    if |seps| > 1 {
      assert 1 <= |pieces[1]|;
    }
    assert Interleave(pieces, seps) == a + (run + rest);
    TextSpanOfPiece(a, run + rest);
    BreakSpanOfRun(run, rest);
    assert (a + (run + rest))[|a| + |run|..] == (run + rest)[|run|..];
  }

  /** A text without breaks is one piece. */
  lemma SplitOfText(s: string)
    requires NoBreak(s)
    ensures SplitParagraphs(s) == [s]
  {
    var p := TextSpan(s);
    TextSpanFacts(s);
    assert p == |s| by {
      if p < |s| {
        assert false;
      }
    }
    assert s[..p] == s;
  }

  /** The tail of a layout is a layout. */
  lemma LayoutTail(pieces: seq<string>, seps: seq<string>)
    requires Layout(pieces, seps) && 1 <= |seps|
    ensures Layout(pieces[1..], seps[1..])
  {
    var ps, ss := pieces[1..], seps[1..];
    forall k | 0 <= k < |ps|
      ensures NoBreak(ps[k])
    {
      assert ps[k] == pieces[k + 1];
    }
    forall k | 0 <= k < |ss|
      ensures IsBreakRun(ss[k])
    {
      assert ss[k] == seps[k + 1];
    }
    forall k | 0 < k < |ps| - 1
      ensures 1 <= |ps[k]|
    {
      assert ps[k] == pieces[k + 1];
    }
  }

  /** If the splitter recovers the tail of a layout, it recovers the whole. */
  lemma SplitInterleaveStep(pieces: seq<string>, seps: seq<string>)
    requires Layout(pieces, seps) && 1 <= |seps|
    requires SplitParagraphs(Interleave(pieces[1..], seps[1..])) == pieces[1..]
    ensures SplitParagraphs(Interleave(pieces, seps)) == pieces
  {
    var s := Interleave(pieces, seps);
    InterleaveStep(pieces, seps);
    SplitStep(s, |pieces[0]|, |seps[0]|);
    assert pieces == [pieces[0]] + pieces[1..];
  }

  /** The splitter recovers any such layout from the text it spells. */
  lemma {:induction false} SplitInterleave(pieces: seq<string>, seps: seq<string>)
    requires Layout(pieces, seps)
    ensures SplitParagraphs(Interleave(pieces, seps)) == pieces
    decreases |seps|
  {
    if |seps| == 0 {
      SplitOfText(pieces[0]);
      assert pieces == [pieces[0]];
    } else {
      LayoutTail(pieces, seps);
      SplitInterleave(pieces[1..], seps[1..]);
      SplitInterleaveStep(pieces, seps);
    }
  }
}
