/**
 `add_sentences` (convert.py): each tagged sentence becomes an `s` element whose
 id is `s<n>`, taken from the run-wide sentence counter, and whose text holds one
 `word<TAB>pos` line per token between a leading and a trailing newline.
 The two counters of the script are threaded through explicitly as `Counters`.
 */
module Sentences {
  import opened Options
  import opened Text

  /** One tagger output pair: the surface word and its part-of-speech tag. */
  datatype Token = Token(word: string, pos: string)

  type TaggedSentence = seq<Token>

  /** The script's two global counters, `sentence_i` and `comment_i`. */
  datatype Counters = Counters(sentence: nat, comment: nat)

  /** An `s` element: the counter value it was stamped with and its text;
      its `id` attribute is `s<n>`. */
  datatype SentenceElem = SentenceElem(n: nat, text: string) {
    function Id(): string {
      SentenceId(n)
    }
  }

  /** The elements `add_sentences` appends, and the counters it leaves. */
  datatype Stamped = Stamped(elems: seq<SentenceElem>, counters: Counters)

  function TokenLine(t: Token): string {
    t.word + "\t" + t.pos
  }

  function TokenLines(s: TaggedSentence): seq<string> {
    seq(|s|, i requires 0 <= i < |s| => TokenLine(s[i]))
  }

  /** The text of an `s` element: `wrapjoin` of the token lines with "\n". */
  function SentenceBody(s: TaggedSentence): (r: string)
    ensures StartsWith(r, "\n") && EndsWith(r, "\n")
    ensures |s| == 0 ==> r == "\n\n"
  {
    WrapJoin(TokenLines(s), "\n")
  }

  /** The `id` of the `n`-th `s` element: `s` and then digits that read back
      as `n`. */
  function SentenceId(n: nat): (r: string)
    ensures 2 <= |r| && r[0] == 's'
    ensures AllDigits(r[1..]) && DecimalValue(r[1..]) == n
    ensures r[1] == '0' ==> |r| == 2
  {
    assert ("s" + NatToString(n))[1..] == NatToString(n);
    assert n == 0 ==> NatToString(n) == [DigitChar(0)];
    "s" + NatToString(n)
  }

  /** The `id` of the `n`-th `comment` element: `c` and then digits that read
      back as `n`. */
  function CommentId(n: nat): (r: string)
    ensures 2 <= |r| && r[0] == 'c'
    ensures AllDigits(r[1..]) && DecimalValue(r[1..]) == n
    ensures r[1] == '0' ==> |r| == 2
  {
    assert ("c" + NatToString(n))[1..] == NatToString(n);
    assert n == 0 ==> NatToString(n) == [DigitChar(0)];
    "c" + NatToString(n)
  }

  /** Two sentence ids are equal exactly when their numbers are, and so for
      comment ids; a sentence id is never a comment id. */
  lemma IdsInjective(a: nat, b: nat)
    ensures SentenceId(a) == SentenceId(b) <==> a == b
    ensures CommentId(a) == CommentId(b) <==> a == b
    ensures SentenceId(a) != CommentId(b)
  {
    NatToStringInjective(a, b);
    if SentenceId(a) == SentenceId(b) {
      assert NatToString(a) == SentenceId(a)[1..];
      assert NatToString(b) == SentenceId(b)[1..];
    }
    if CommentId(a) == CommentId(b) {
      assert NatToString(a) == CommentId(a)[1..];
      assert NatToString(b) == CommentId(b)[1..];
    }
    assert SentenceId(a)[0] != CommentId(b)[0];
  }

  /** `add_sentences(element, sentences)` starting from counters `c`. */
  function AddSentences(c: Counters, sentences: seq<TaggedSentence>): (r: Stamped)
    ensures r.counters == Counters(c.sentence + |sentences|, c.comment)
    ensures |r.elems| == |sentences|
    ensures forall i :: 0 <= i < |sentences| ==> r.elems[i] == SentenceElem(c.sentence + i, SentenceBody(sentences[i]))
    decreases |sentences|
  {
    if |sentences| == 0 then Stamped([], c)
    else
      var first := SentenceElem(c.sentence, SentenceBody(sentences[0]));
      var rest := AddSentences(Counters(c.sentence + 1, c.comment), sentences[1..]);
      Stamped([first] + rest.elems, rest.counters)
  }

  /* ------------------------------------------------- reading a body back */

  /** A token that the line layout can carry: no tab or newline inside. */
  predicate Plain(t: Token) {
    '\t' !in t.word && '\t' !in t.pos && '\n' !in t.word && '\n' !in t.pos
  }

  function ParseLine(line: string): Option<Token> {
    var fields := SplitOn(line, '\t');
    if |fields| == 2 then Some(Token(fields[0], fields[1])) else None
  }

  function ParseLines(lines: seq<string>): Option<TaggedSentence>
    decreases |lines|
  {
    if |lines| == 0 then Some([])
    else
      match (ParseLine(lines[0]), ParseLines(lines[1..]))
      case (Some(t), Some(ts)) => Some([t] + ts)
      case _ => None
  }

  /** Reads an `s` element's text back into tokens: a newline, then one
      `word<TAB>pos` line per token, then a final newline. */
  function ParseBody(body: string): Option<TaggedSentence> {
    var lines := SplitOn(body, '\n');
    if 2 <= |lines| && lines[0] == "" && lines[|lines| - 1] == "" then ParseLines(lines[1..|lines| - 1])
    else None
  }

  lemma LineRoundTrip(t: Token)
    requires Plain(t)
    ensures ParseLine(TokenLine(t)) == Some(t)
  {
    assert TokenLine(t) == t.word + ['\t'] + t.pos;
    SplitAtFirst(t.word, '\t', t.pos);
    assert IndexOf(t.pos, '\t') == |t.pos|;
  }

  lemma {:induction false} LinesRoundTrip(s: TaggedSentence)
    requires forall i :: 0 <= i < |s| ==> Plain(s[i])
    ensures ParseLines(TokenLines(s)) == Some(s)
    decreases |s|
  {
    if |s| > 0 {
      LineRoundTrip(s[0]);
      assert TokenLines(s)[0] == TokenLine(s[0]);
      assert TokenLines(s)[1..] == TokenLines(s[1..]);
      LinesRoundTrip(s[1..]);
      assert [s[0]] + s[1..] == s;
    }
  }

  /** The body has exactly one line per token, in token order, framed by a
      leading and a trailing newline. */
  lemma BodyLines(s: TaggedSentence)
    requires 1 <= |s| && forall i :: 0 <= i < |s| ==> Plain(s[i])
    ensures SplitOn(SentenceBody(s), '\n') == [""] + TokenLines(s) + [""]
  {
    var lines := TokenLines(s);
    forall k | 0 <= k < |lines|
      ensures '\n' !in lines[k]
    {
      assert lines[k] == s[k].word + "\t" + s[k].pos;
    }
    WrapJoinSplit(lines, '\n');
  }

  /** The body determines the sentence: reading it back gives the tokens. */
  lemma BodyRoundTrip(s: TaggedSentence)
    requires 1 <= |s| && forall i :: 0 <= i < |s| ==> Plain(s[i])
    ensures ParseBody(SentenceBody(s)) == Some(s)
  {
    BodyLines(s);
    var lines := SplitOn(SentenceBody(s), '\n');
    assert lines[1..|lines| - 1] == TokenLines(s);
    LinesRoundTrip(s);
  }

  /** The body of an empty sentence is two newlines. */
  lemma EmptyBodyText(s: TaggedSentence)
    requires |s| == 0
    ensures SentenceBody(s) == "\n\n"
  {
    assert |TokenLines(s)| == 0;
  }

  /** Two newlines split into three empty lines. */
  lemma TwoNewlinesSplit(body: string)
    requires |body| == 2 && body[0] == body[1] == '\n'
    ensures var lines := SplitOn(body, '\n');
            |lines| == 3 && lines[0] == lines[1] == lines[2] == ""
  {
    var empty := body[..0];
    assert body == empty + ['\n'] + body[1..];
    SplitAtFirst(empty, '\n', body[1..]);
    assert body[1..] == empty + ['\n'] + body[2..];
    SplitAtFirst(empty, '\n', body[2..]);
    assert IndexOf(body[2..], '\n') == 0;
  }

  lemma EmptyLineUnreadable(line: string)
    requires |line| == 0
    ensures ParseLine(line) == None
  {
    assert IndexOf(line, '\t') == 0;
  }

  /** An empty sentence gives a body of two newlines, which reads back as
      one empty line rather than as no tokens. */
  lemma EmptyBody(s: TaggedSentence)
    requires |s| == 0
    ensures SentenceBody(s) == "\n\n"
    ensures ParseBody(SentenceBody(s)) == None
  {
    EmptyBodyText(s);
    TwoNewlinesSplit(SentenceBody(s));
    var lines := SplitOn(SentenceBody(s), '\n');
    var inner := lines[1..|lines| - 1];
    assert |inner| == 1 && inner[0] == lines[1];
    EmptyLineUnreadable(lines[1]);
    assert inner[1..] == [];
  }
}
