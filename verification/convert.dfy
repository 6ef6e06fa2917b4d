/**
 The per-file conversion of convert.py, with the script's two global counters
 (`sentence_i`, `comment_i`) passed in and handed back as `Counters`.

 For each input file the script builds a `recipe` element carrying the record's
 metadata and one `s` element per sentence of the recipe text, then a
 `comments` element with one `comment` element per comment, each holding that
 comment's sentences. Both counters run on across files, and the sentence
 counter runs on across the recipe text and its comments.

 The record's dates are parsed by library calls (`strptime`, `fromisoformat`)
 that raise on a malformed date; the script does not catch this, so the run
 stops at that file. A `DateField` therefore carries the raw string together
 with what the library made of it.
 */
module Convert {
  import opened Options
  import opened Text
  import opened Dates
  import opened Sentences

  /* ------------------------------------------------------------ records */

  /** A date of the record: the raw string and the library parser's result
      for it, `None` when the parser raises. */
  datatype DateField = DateField(raw: string, parsed: Option<CivilDate>)

  datatype Ingredient = Ingredient(name: string)

  /** A comment; its text is given already tokenized and tagged. */
  datatype Comment = Comment(author: string, date: DateField, text: seq<TaggedSentence>)

  /** A recipe record; `rating` is given already stringified and the text
      already tokenized and tagged. */
  datatype Recipe = Recipe(
    title: string, id: string, url: string, author: string, date: DateField,
    rating: string, category: string, keywords: seq<string>, related: seq<string>,
    ingredients: seq<Ingredient>, text: seq<TaggedSentence>, comments: seq<Comment>)

  /** An input file: its name and the record it holds. */
  datatype Source = Source(name: string, recipe: Recipe)

  /* ------------------------------------------------------------- output */

  /** A `recipe` element. It keeps the values its attributes are rendered
      from: the date, and the three lists written in `to_flist` form. */
  datatype RecipeElem = RecipeElem(
    title: string, id: string, url: string, author: string, date: Option<CivilDate>,
    rating: string, category: string, keywords: seq<string>, related: seq<string>,
    ingredients: seq<string>, sentences: seq<SentenceElem>)
  {
    function DateAttr(): string {
      FormatDate(date)
    }

    function YearMonthAttr(): string {
      FormatYearMonth(date)
    }

    function YearAttr(): string {
      FormatYear(date)
    }

    function KeywordsAttr(): string {
      ToFList(keywords)
    }

    function RelatedAttr(): string {
      ToFList(related)
    }

    function IngredientsAttr(): string {
      ToFList(ingredients)
    }
  }

  /** A `comment` element; `n` is the comment counter value it was stamped
      with, and its `id` attribute is `c<n>`. Like a recipe element it keeps
      the date its three date attributes are rendered from. */
  datatype CommentElem = CommentElem(
    n: nat, parent: string, author: string, date: Option<CivilDate>, datetimeOrig: string,
    sentences: seq<SentenceElem>)
  {
    function Id(): string {
      CommentId(n)
    }

    function DateAttr(): string {
      FormatDate(date)
    }

    function YearMonthAttr(): string {
      FormatYearMonth(date)
    }

    function YearAttr(): string {
      FormatYear(date)
    }
  }

  /** What one input file produces: the recipe tree and the comments tree,
      each with the name of the file it is written to. */
  datatype Output = Output(recipeFile: string, recipe: RecipeElem, commentsFile: string, comments: seq<CommentElem>)

  datatype Error = UnparsableDate(raw: string)

  datatype Result<T> = Ok(value: T) | Err(error: Error)

  datatype CommentsStep = CommentsStep(elems: seq<CommentElem>, counters: Counters)

  datatype Step = Step(output: Output, counters: Counters)

  /** A finished or aborted run: the files written, the counters at the end,
      and the error that stopped it, if any. */
  datatype RunResult = RunResult(written: seq<Output>, counters: Counters, failure: Option<Error>)

  /* -------------------------------------------------------------- dates */

  /** `if field: d = parse(field) else: d = None` succeeds. */
  predicate Readable(f: DateField) {
    f.raw == "" || f.parsed.Some?
  }

  /** The date the script formats: none for an empty field. */
  function DateOf(f: DateField): Option<CivilDate> {
    if f.raw == "" then None else f.parsed
  }

  function ReadDate(f: DateField): Result<Option<CivilDate>> {
    if Readable(f) then Ok(DateOf(f)) else Err(UnparsableDate(f.raw))
  }

  predicate CommentDatesReadable(cs: seq<Comment>) {
    forall i :: 0 <= i < |cs| ==> Readable(cs[i].date)
  }

  lemma CommentDatesReadableSplit(cs: seq<Comment>)
    requires 1 <= |cs|
    ensures CommentDatesReadable(cs) <==> Readable(cs[0].date) && CommentDatesReadable(cs[1..])
  {
    if Readable(cs[0].date) && CommentDatesReadable(cs[1..]) {
      forall i | 1 <= i < |cs|
        ensures Readable(cs[i].date)
      {
        assert cs[i] == cs[1..][i - 1];
      }
    }
  }

  predicate DatesReadable(r: Recipe) {
    Readable(r.date) && CommentDatesReadable(r.comments)
  }

  /* --------------------------------------------------------- file names */

  /** `name.split('.')[0]`: the file name up to its first dot. */
  function Stem(name: string): (r: string)
    ensures '.' !in r
    ensures StartsWith(name, r)
    ensures r == name || name[|r|] == '.'
  {
    var i := IndexOf(name, '.');
    assert SplitOn(name, '.')[0] == name[..i];
    SplitOn(name, '.')[0]
  }

  /** The `.vrt` file written for `name`: its own stem is the input's stem. */
  function RecipeFileName(name: string): (r: string)
    ensures Stem(r) == Stem(name)
  {
    StemOfDotted(Stem(name), "vrt");
    assert Stem(name) + "." + "vrt" == Stem(name) + ".vrt";
    Stem(name) + ".vrt"
  }

  /** The `_comments.vrt` file written for `name`: its stem is the input's
      stem followed by `_comments`. */
  function CommentsFileName(name: string): (r: string)
    ensures Stem(r) == Stem(name) + "_comments"
  {
    StemOfDotted(Stem(name) + "_comments", "vrt");
    assert Stem(name) + "_comments" + "." + "vrt" == Stem(name) + "_comments.vrt";
    Stem(name) + "_comments.vrt"
  }

  /** The two output names of a file are its stem followed directly by
      `.vrt` and by `_comments.vrt`: they differ from each other, and both
      carry the `.vrt` extension that merge.py selects by default. */
  lemma OutputFileNames(name: string)
    ensures StartsWith(RecipeFileName(name), Stem(name))
    ensures StartsWith(CommentsFileName(name), Stem(name))
    ensures RecipeFileName(name) != CommentsFileName(name)
    ensures EndsWith(RecipeFileName(name), ".vrt") && EndsWith(CommentsFileName(name), ".vrt")
    ensures RecipeFileName(name)[|Stem(name)|..] == ".vrt"
    ensures CommentsFileName(name)[|Stem(name)|..] == "_comments.vrt"
  {
    var s := Stem(name);
    assert RecipeFileName(name)[..|s|] == s;
    assert CommentsFileName(name)[..|s|] == s;
    assert |RecipeFileName(name)| != |CommentsFileName(name)|;
    assert RecipeFileName(name)[|s|..] == ".vrt";
    assert CommentsFileName(name)[|s| + 9..] == ".vrt";
  }

  /** Output names depend on the stem alone: two different input names
      that agree up to their first dot, such as `x.json` and `x.old.json`,
      get the same two output names, so in one directory the file converted
      later overwrites the earlier one's output. */
  lemma OutputNamesCollide(base: string, ext1: string, ext2: string)
    requires '.' !in base && ext1 != ext2
    ensures base + "." + ext1 != base + "." + ext2
    ensures RecipeFileName(base + "." + ext1) == RecipeFileName(base + "." + ext2)
    ensures CommentsFileName(base + "." + ext1) == CommentsFileName(base + "." + ext2)
  {
    StemOfDotted(base, ext1);
    StemOfDotted(base, ext2);
    var a, b := base + "." + ext1, base + "." + ext2;
    assert a[|base| + 1..] == ext1 && b[|base| + 1..] == ext2;
  }

  /** A name made of a dot-free base, a dot and anything has that base as
      its stem. */
  lemma StemOfDotted(base: string, ext: string)
    requires '.' !in base
    ensures Stem(base + "." + ext) == base
  {
    var name := base + "." + ext;
    var r := Stem(name);
    assert name[|base|] == '.';
    assert forall k :: 0 <= k < |base| ==> name[k] == base[k];
    assert r == name[..|base|] == base;
  }

  /* ---------------------------------------------------------------- ids */

  /** `ns` is `from`, `from + 1`, ..., `count` numbers in all. */
  predicate Consecutive(ns: seq<nat>, from: nat, count: nat) {
    |ns| == count && forall i :: 0 <= i < count ==> ns[i] == from + i
  }

  lemma ConsecutiveAppend(a: seq<nat>, b: seq<nat>, from: nat, m: nat, n: nat)
    requires Consecutive(a, from, m) && Consecutive(b, from + m, n)
    ensures Consecutive(a + b, from, m + n)
  {
    forall i | 0 <= i < m + n
      ensures (a + b)[i] == from + i
    {
      if i < m {
        assert (a + b)[i] == a[i];
      } else {
        assert (a + b)[i] == b[i - m];
      }
    }
  }

  function SentenceNumbers(elems: seq<SentenceElem>): seq<nat> {
    seq(|elems|, i requires 0 <= i < |elems| => elems[i].n)
  }

  function CommentNumbers(elems: seq<CommentElem>): seq<nat> {
    seq(|elems|, i requires 0 <= i < |elems| => elems[i].n)
  }

  /** The sentence numbers of a comments tree, in document order. */
  function CommentSentenceNumbers(elems: seq<CommentElem>): seq<nat>
    decreases |elems|
  {
    if |elems| == 0 then [] else SentenceNumbers(elems[0].sentences) + CommentSentenceNumbers(elems[1..])
  }

  /** The sentence numbers of one file's output: the recipe's, then the comments'. */
  function OutputSentenceNumbers(o: Output): seq<nat> {
    SentenceNumbers(o.recipe.sentences) + CommentSentenceNumbers(o.comments)
  }

  lemma SentenceNumbersOfStamped(c: Counters, sentences: seq<TaggedSentence>)
    ensures Consecutive(SentenceNumbers(AddSentences(c, sentences).elems), c.sentence, |sentences|)
  {
  }

  lemma CommentNumbersAppend(a: seq<CommentElem>, b: seq<CommentElem>)
    ensures CommentNumbers(a + b) == CommentNumbers(a) + CommentNumbers(b)
  {
    var x, y := CommentNumbers(a + b), CommentNumbers(a) + CommentNumbers(b);
    assert |x| == |y|;
    forall i | 0 <= i < |x|
      ensures x[i] == y[i]
    {
      if i < |a| {
      } else {
      }
    }
  }

  lemma {:induction false} CommentSentenceNumbersAppend(a: seq<CommentElem>, b: seq<CommentElem>)
    ensures CommentSentenceNumbers(a + b) == CommentSentenceNumbers(a) + CommentSentenceNumbers(b)
    decreases |a|
  {
    if |a| == 0 {
      assert a + b == b;
    } else {
      assert (a + b)[0] == a[0];
      assert (a + b)[1..] == a[1..] + b;
      CommentSentenceNumbersAppend(a[1..], b);
    }
  }

  function CommentSentences(cs: seq<Comment>): nat
    decreases |cs|
  {
    if |cs| == 0 then 0 else |cs[0].text| + CommentSentences(cs[1..])
  }

  /** The number of sentences a record stamps: its text's and its comments'. */
  function RecipeSentences(r: Recipe): nat {
    |r.text| + CommentSentences(r.comments)
  }

  /* ------------------------------------------------------- conversion */

  /** The three date attributes of a `recipe` element agree with each
      other and give back the element's date: `date` is ten characters and
      reads back to it (the null date reads as none), and `yearmonth` and
      `year` are its first seven and four characters. */
  lemma RecipeDateAttributes(e: RecipeElem)
    ensures |e.DateAttr()| == 10 && ParseDate(e.DateAttr()) == e.date
    ensures e.YearMonthAttr() == e.DateAttr()[..7] && e.YearAttr() == e.DateAttr()[..4]
  {
    FormatDateRoundTrip(e.date);
    FieldsNest(e.date);
  }

  /** The same agreement for the date attributes of a `comment` element. */
  lemma CommentDateAttributes(e: CommentElem)
    ensures |e.DateAttr()| == 10 && ParseDate(e.DateAttr()) == e.date
    ensures e.YearMonthAttr() == e.DateAttr()[..7] && e.YearAttr() == e.DateAttr()[..4]
  {
    FormatDateRoundTrip(e.date);
    FieldsNest(e.date);
  }

  /** One pass of the comment loop body: the comment takes the next comment
      number, its sentences the next sentence numbers, and then the comment
      counter moves on by one. */
  function ConvertComment(c: Counters, parent: string, cm: Comment): (r: Result<CommentsStep>)
    ensures r.Ok? <==> Readable(cm.date)
    ensures r.Ok? ==>
              && r.value.counters == Counters(c.sentence + |cm.text|, c.comment + 1)
              && Consecutive(CommentNumbers(r.value.elems), c.comment, 1)
              && Consecutive(CommentSentenceNumbers(r.value.elems), c.sentence, |cm.text|)
  {
    match ReadDate(cm.date)
    case Err(e) => Err(e)
    case Ok(d) =>
      var stamped := AddSentences(c, cm.text);
      var elem := CommentElem(c.comment, parent, cm.author, d, cm.date.raw, stamped.elems);
      SentenceNumbersOfStamped(c, cm.text);
      assert [elem][1..] == [];
      Ok(CommentsStep([elem], Counters(stamped.counters.sentence, c.comment + 1)))
  }

  /** The comment loop over a record's comments, in order. */
  function ConvertComments(c: Counters, parent: string, comments: seq<Comment>): (r: Result<CommentsStep>)
    ensures r.Ok? <==> CommentDatesReadable(comments)
    ensures r.Ok? ==> |r.value.elems| == |comments|
    decreases |comments|
  {
    if |comments| == 0 then Ok(CommentsStep([], c))
    else
      CommentDatesReadableSplit(comments);
      match ConvertComment(c, parent, comments[0])
      case Err(e) => Err(e)
      case Ok(first) =>
        match ConvertComments(first.counters, parent, comments[1..])
        case Err(e) => Err(e)
        case Ok(rest) => Ok(CommentsStep(first.elems + rest.elems, rest.counters))
  }

  /** `step` is what stamping `comments` from counters `c` must leave: the
      counters advanced by the sentences and comments stamped, the comment
      numbers consecutive from the comment counter and the sentence numbers
      consecutive from the sentence counter. */
  predicate StampedFrom(c: Counters, comments: seq<Comment>, step: CommentsStep) {
    && step.counters == Counters(c.sentence + CommentSentences(comments), c.comment + |comments|)
    && Consecutive(CommentNumbers(step.elems), c.comment, |comments|)
    && Consecutive(CommentSentenceNumbers(step.elems), c.sentence, CommentSentences(comments))
  }

  /** One comment's elements followed by a correctly numbered stretch for
      the remaining comments make a correctly numbered stretch for all. */
  lemma JoinSteps(c: Counters, comments: seq<Comment>, a: CommentsStep, b: CommentsStep)
    requires 1 <= |comments|
    requires a.counters == Counters(c.sentence + |comments[0].text|, c.comment + 1)
    requires Consecutive(CommentNumbers(a.elems), c.comment, 1)
    requires Consecutive(CommentSentenceNumbers(a.elems), c.sentence, |comments[0].text|)
    requires StampedFrom(a.counters, comments[1..], b)
    ensures StampedFrom(c, comments, CommentsStep(a.elems + b.elems, b.counters))
  {
    var rest := comments[1..];
    assert CommentSentences(comments) == |comments[0].text| + CommentSentences(rest);
    CommentSentenceNumbersAppend(a.elems, b.elems);
    CommentNumbersAppend(a.elems, b.elems);
    ConsecutiveAppend(CommentNumbers(a.elems), CommentNumbers(b.elems), c.comment, 1, |rest|);
    ConsecutiveAppend(CommentSentenceNumbers(a.elems), CommentSentenceNumbers(b.elems),
                      c.sentence, |comments[0].text|, CommentSentences(rest));
  }

  /** The comment loop over a non-empty list: the first comment, then the
      loop over the rest from the counters it leaves. */
  lemma ConvertCommentsFirst(c: Counters, parent: string, comments: seq<Comment>)
    requires 1 <= |comments| && CommentDatesReadable(comments)
    ensures var first := ConvertComment(c, parent, comments[0]).value;
            var rest := ConvertComments(first.counters, parent, comments[1..]).value;
            ConvertComments(c, parent, comments).value == CommentsStep(first.elems + rest.elems, rest.counters)
  {
    CommentDatesReadableSplit(comments);
  }

  lemma ConvertCommentsStep(c: Counters, parent: string, comments: seq<Comment>)
    requires 1 <= |comments| && CommentDatesReadable(comments)
    requires var first := ConvertComment(c, parent, comments[0]).value;
             StampedFrom(first.counters, comments[1..], ConvertComments(first.counters, parent, comments[1..]).value)
    ensures StampedFrom(c, comments, ConvertComments(c, parent, comments).value)
  {
    CommentDatesReadableSplit(comments);
    var first := ConvertComment(c, parent, comments[0]).value;
    var rest := ConvertComments(first.counters, parent, comments[1..]).value;
    ConvertCommentsFirst(c, parent, comments);
    JoinSteps(c, comments, first, rest);
  }

  /** Over a record's comments, the comment numbers are consecutive from the
      comment counter and the sentence numbers consecutive from the sentence
      counter; each counter ends advanced by what was stamped. */
  lemma {:induction false} ConvertCommentsIds(c: Counters, parent: string, comments: seq<Comment>)
    requires CommentDatesReadable(comments)
    ensures StampedFrom(c, comments, ConvertComments(c, parent, comments).value)
    decreases |comments|
  {
    if |comments| > 0 {
      var first := ConvertComment(c, parent, comments[0]).value;
      ConvertCommentsIds(first.counters, parent, comments[1..]);
      ConvertCommentsStep(c, parent, comments);
    }
  }

  /** `e` is the element the comment loop makes for `cm` under the record
      `parent`: the comment's author, the record's id as `parent`, the raw
      date string as `datetime_orig`, the parsed date for the date
      attributes, and one `s` element per sentence. */
  predicate CommentElemOf(parent: string, cm: Comment, e: CommentElem) {
    && e.parent == parent && e.author == cm.author
    && e.datetimeOrig == cm.date.raw && e.date == DateOf(cm.date)
    && |e.sentences| == |cm.text|
    && (forall j :: 0 <= j < |cm.text| ==> e.sentences[j].text == SentenceBody(cm.text[j]))
  }

  /** Every element of `elems` is made from the comment at its index. */
  predicate ElemsOf(parent: string, comments: seq<Comment>, elems: seq<CommentElem>) {
    |elems| == |comments| && forall i :: 0 <= i < |comments| ==> CommentElemOf(parent, comments[i], elems[i])
  }

  lemma ConvertCommentElem(c: Counters, parent: string, cm: Comment)
    requires Readable(cm.date)
    ensures var elems := ConvertComment(c, parent, cm).value.elems;
            |elems| == 1 && CommentElemOf(parent, cm, elems[0])
  {
  }

  lemma ElemsOfCons(parent: string, comments: seq<Comment>, a: seq<CommentElem>, b: seq<CommentElem>)
    requires 1 <= |comments| && |a| == 1 && CommentElemOf(parent, comments[0], a[0])
    requires ElemsOf(parent, comments[1..], b)
    ensures ElemsOf(parent, comments, a + b)
  {
    var elems := a + b;
    forall i | 0 <= i < |comments|
      ensures CommentElemOf(parent, comments[i], elems[i])
    {
      if i > 0 {
        assert elems[i] == b[i - 1];
        assert comments[i] == comments[1..][i - 1];
      }
    }
  }

  /** The comment loop makes one element per comment, the `i`-th from the
      `i`-th comment. */
  lemma {:induction false} ConvertCommentsElems(c: Counters, parent: string, comments: seq<Comment>)
    requires CommentDatesReadable(comments)
    ensures ElemsOf(parent, comments, ConvertComments(c, parent, comments).value.elems)
    decreases |comments|
  {
    if |comments| > 0 {
      CommentDatesReadableSplit(comments);
      ConvertCommentsFirst(c, parent, comments);
      var first := ConvertComment(c, parent, comments[0]).value;
      var rest := ConvertComments(first.counters, parent, comments[1..]).value;
      ConvertCommentElem(c, parent, comments[0]);
      ConvertCommentsElems(first.counters, parent, comments[1..]);
      ElemsOfCons(parent, comments, first.elems, rest.elems);
    }
  }

  function IngredientNames(ings: seq<Ingredient>): seq<string> {
    seq(|ings|, i requires 0 <= i < |ings| => ings[i].name)
  }

  /** The body of the main loop for one input file. */
  function ConvertRecipe(c: Counters, src: Source): (r: Result<Step>)
    ensures r.Ok? <==> DatesReadable(src.recipe)
  {
    var rec := src.recipe;
    match ReadDate(rec.date)
    case Err(e) => Err(e)
    case Ok(d) =>
      var stamped := AddSentences(c, rec.text);
      var elem := RecipeElem(rec.title, rec.id, rec.url, rec.author, d, rec.rating, rec.category,
                             rec.keywords, rec.related, IngredientNames(rec.ingredients), stamped.elems);
      match ConvertComments(stamped.counters, rec.id, rec.comments)
      case Err(e) => Err(e)
      case Ok(cs) =>
        Ok(Step(Output(RecipeFileName(src.name), elem, CommentsFileName(src.name), cs.elems), cs.counters))
  }

  /** `o` carries the record of `src`: the recipe element has the record's
      metadata, its parsed date and its ingredient names in order, and one
      `s` element per sentence of the text, holding that sentence's body; the
      comments tree has one element per comment, made from that comment; the
      two trees go to the file's two output names. */
  predicate OutputOf(src: Source, o: Output) {
    var rec := src.recipe;
    && o.recipeFile == RecipeFileName(src.name) && o.commentsFile == CommentsFileName(src.name)
    && o.recipe.title == rec.title && o.recipe.id == rec.id && o.recipe.url == rec.url
    && o.recipe.author == rec.author && o.recipe.rating == rec.rating
    && o.recipe.category == rec.category && o.recipe.date == DateOf(rec.date)
    && o.recipe.keywords == rec.keywords && o.recipe.related == rec.related
    && |o.recipe.ingredients| == |rec.ingredients|
    && (forall i :: 0 <= i < |rec.ingredients| ==> o.recipe.ingredients[i] == rec.ingredients[i].name)
    && |o.recipe.sentences| == |rec.text|
    && (forall j :: 0 <= j < |rec.text| ==> o.recipe.sentences[j].text == SentenceBody(rec.text[j]))
    && ElemsOf(rec.id, rec.comments, o.comments)
  }

  /** A converted file carries its record (see `OutputOf`). */
  lemma ConvertRecipeOutput(c: Counters, src: Source)
    requires DatesReadable(src.recipe)
    ensures OutputOf(src, ConvertRecipe(c, src).value.output)
  {
    var rec := src.recipe;
    var stamped := AddSentences(c, rec.text);
    ConvertRecipeParts(c, src);
    ConvertCommentsElems(stamped.counters, rec.id, rec.comments);
  }

  /** `step` is what converting `rec` from counters `c` must leave: its
      sentence numbers, over the text and then every comment, consecutive
      from the sentence counter, its comment numbers consecutive from the
      comment counter, and both counters advanced by as many. */
  predicate FileStamped(c: Counters, rec: Recipe, step: Step) {
    && step.counters == Counters(c.sentence + RecipeSentences(rec), c.comment + |rec.comments|)
    && Consecutive(OutputSentenceNumbers(step.output), c.sentence, RecipeSentences(rec))
    && Consecutive(CommentNumbers(step.output.comments), c.comment, |rec.comments|)
  }

  /** Where the parts of one file's output come from: the recipe element
      holds the text's sentences, stamped first, and the comments tree is
      the comment loop run from the counters they leave. */
  lemma ConvertRecipeParts(c: Counters, src: Source)
    requires DatesReadable(src.recipe)
    ensures var rec, step := src.recipe, ConvertRecipe(c, src).value;
            var stamped := AddSentences(c, rec.text);
            var cs := ConvertComments(stamped.counters, rec.id, rec.comments).value;
            && step.output.recipe.sentences == stamped.elems
            && step.output.comments == cs.elems
            && step.counters == cs.counters
  {
  }

  /** One file's sentence numbers run on from the sentence counter across its
      text and all its comments, and its comment numbers from the comment
      counter. */
  lemma ConvertRecipeIds(c: Counters, src: Source)
    requires DatesReadable(src.recipe)
    ensures FileStamped(c, src.recipe, ConvertRecipe(c, src).value)
  {
    var rec := src.recipe;
    var stamped := AddSentences(c, rec.text);
    ConvertRecipeParts(c, src);
    SentenceNumbersOfStamped(c, rec.text);
    ConvertCommentsIds(stamped.counters, rec.id, rec.comments);
    FileStampedFrom(c, rec, ConvertRecipe(c, src).value, stamped,
                    ConvertComments(stamped.counters, rec.id, rec.comments).value);
  }

  /** The text's sentences followed by the comment loop's elements make a
      correctly numbered file. */
  lemma FileStampedFrom(c: Counters, rec: Recipe, step: Step, stamped: Stamped, cs: CommentsStep)
    requires stamped.counters == Counters(c.sentence + |rec.text|, c.comment)
    requires Consecutive(SentenceNumbers(stamped.elems), c.sentence, |rec.text|)
    requires StampedFrom(stamped.counters, rec.comments, cs)
    requires step.output.recipe.sentences == stamped.elems
    requires step.output.comments == cs.elems && step.counters == cs.counters
    ensures FileStamped(c, rec, step)
  {
    ConsecutiveAppend(SentenceNumbers(stamped.elems), CommentSentenceNumbers(cs.elems),
                      c.sentence, |rec.text|, CommentSentences(rec.comments));
  }

  /* --------------------------------------------------------------- run */

  /** Every file of `sources` has dates the parser accepts. */
  predicate AllReadable(sources: seq<Source>) {
    forall i :: 0 <= i < |sources| ==> DatesReadable(sources[i].recipe)
  }

  /** The main loop over the input files from counters `c`: files are
      converted in order until one has a date the parser rejects, which ends
      the run with the files before it already written. */
  function Run(c: Counters, sources: seq<Source>): (r: RunResult)
    ensures r.failure.None? <==> AllReadable(sources)
    ensures |r.written| <= |sources|
    ensures r.failure.None? ==> |r.written| == |sources|
    decreases |sources|
  {
    if |sources| == 0 then RunResult([], c, None)
    else
      AllReadableCons(sources);
      match ConvertRecipe(c, sources[0])
      case Err(e) => RunResult([], c, Some(e))
      case Ok(step) =>
        var rest := Run(step.counters, sources[1..]);
        RunResult([step.output] + rest.written, rest.counters, rest.failure)
  }

  /** A list of files is readable when its first file is and the rest are. */
  lemma AllReadableCons(sources: seq<Source>)
    requires 1 <= |sources|
    ensures AllReadable(sources) <==> DatesReadable(sources[0].recipe) && AllReadable(sources[1..])
  {
    if DatesReadable(sources[0].recipe) && AllReadable(sources[1..]) {
      forall i | 0 < i < |sources|
        ensures DatesReadable(sources[i].recipe)
      {
        assert sources[i] == sources[1..][i - 1];
      }
    }
  }

  /** A run whose first file converts writes that file and goes on with the
      rest from the counters it leaves. */
  lemma RunFirstOk(c: Counters, sources: seq<Source>)
    requires 1 <= |sources| && DatesReadable(sources[0].recipe)
    ensures var step := ConvertRecipe(c, sources[0]).value;
            var r, rest := Run(c, sources), Run(step.counters, sources[1..]);
            |r.written| == 1 + |rest.written| && r.failure == rest.failure
  {
  }

  /** A run whose first file has an unreadable date writes nothing. */
  lemma RunFirstErr(c: Counters, sources: seq<Source>)
    requires 1 <= |sources| && !DatesReadable(sources[0].recipe)
    ensures |Run(c, sources).written| == 0
  {
  }

  /** File `k` is the first one with an unreadable date. */
  predicate FirstUnreadable(sources: seq<Source>, k: nat) {
    k < |sources| && AllReadable(sources[..k]) && !DatesReadable(sources[k].recipe)
  }

  lemma FirstUnreadableCons(sources: seq<Source>, k: nat)
    requires 1 <= |sources| && DatesReadable(sources[0].recipe) && FirstUnreadable(sources[1..], k)
    ensures FirstUnreadable(sources, k + 1)
  {
    assert sources[k + 1] == sources[1..][k];
    var done, later := sources[..k + 1], sources[1..][..k];
    forall i | 0 <= i < |done|
      ensures DatesReadable(done[i].recipe)
    {
      if i > 0 {
        assert done[i] == later[i - 1];
      }
    }
  }

  /** A run that stops does so at the first file with an unreadable date:
      every file before it was readable and written. */
  lemma {:induction false} RunStopsAtFirstFailure(c: Counters, sources: seq<Source>)
    ensures var r := Run(c, sources);
            r.failure.Some? ==> FirstUnreadable(sources, |r.written|)
    decreases |sources|
  {
    if |sources| > 0 && !DatesReadable(sources[0].recipe) {
      RunFirstErr(c, sources);
    } else if |sources| > 0 {
      var step := ConvertRecipe(c, sources[0]).value;
      var rest := Run(step.counters, sources[1..]);
      RunFirstOk(c, sources);
      RunStopsAtFirstFailure(step.counters, sources[1..]);
      if rest.failure.Some? {
        FirstUnreadableCons(sources, |rest.written|);
      }
    }
  }

  /** A run whose first file converts: that file's output, then the rest. */
  lemma RunFirstWritten(c: Counters, sources: seq<Source>)
    requires 1 <= |sources| && DatesReadable(sources[0].recipe)
    ensures var step := ConvertRecipe(c, sources[0]).value;
            Run(c, sources).written == [step.output] + Run(step.counters, sources[1..]).written
  {
  }

  /** Output `i` of `written` is the conversion of input file `i`. */
  predicate WrittenFrom(sources: seq<Source>, written: seq<Output>) {
    |written| <= |sources| && forall i :: 0 <= i < |written| ==> OutputOf(sources[i], written[i])
  }

  lemma WrittenFromCons(sources: seq<Source>, o: Output, rest: seq<Output>)
    requires 1 <= |sources| && OutputOf(sources[0], o) && WrittenFrom(sources[1..], rest)
    ensures WrittenFrom(sources, [o] + rest)
  {
    var written := [o] + rest;
    forall i | 0 <= i < |written|
      ensures OutputOf(sources[i], written[i])
    {
      if i > 0 {
        assert written[i] == rest[i - 1];
        assert sources[i] == sources[1..][i - 1];
      }
    }
  }

  /** The files a run writes are the conversions of the input files, in
      input order: output `i` is made from file `i`, under that file's two
      output names. */
  lemma {:induction false} RunWritten(c: Counters, sources: seq<Source>)
    ensures WrittenFrom(sources, Run(c, sources).written)
    decreases |sources|
  {
    if |sources| > 0 {
      if DatesReadable(sources[0].recipe) {
        var step := ConvertRecipe(c, sources[0]).value;
        ConvertRecipeOutput(c, sources[0]);
        RunFirstWritten(c, sources);
        RunWritten(step.counters, sources[1..]);
        WrittenFromCons(sources, step.output, Run(step.counters, sources[1..]).written);
      } else {
        RunFirstErr(c, sources);
      }
    }
  }

  function RunSentenceNumbers(outs: seq<Output>): seq<nat>
    decreases |outs|
  {
    if |outs| == 0 then [] else OutputSentenceNumbers(outs[0]) + RunSentenceNumbers(outs[1..])
  }

  function RunCommentNumbers(outs: seq<Output>): seq<nat>
    decreases |outs|
  {
    if |outs| == 0 then [] else CommentNumbers(outs[0].comments) + RunCommentNumbers(outs[1..])
  }

  /** `r` numbers its sentences and comments consecutively from `c` up to the
      counters it ends with. */
  predicate RunStamped(c: Counters, r: RunResult) {
    && c.sentence <= r.counters.sentence && c.comment <= r.counters.comment
    && Consecutive(RunSentenceNumbers(r.written), c.sentence, r.counters.sentence - c.sentence)
    && Consecutive(RunCommentNumbers(r.written), c.comment, r.counters.comment - c.comment)
  }

  lemma RunStep(c: Counters, step: Step, src: Source, rest: RunResult)
    requires FileStamped(c, src.recipe, step)
    requires RunStamped(step.counters, rest)
    ensures RunStamped(c, RunResult([step.output] + rest.written, rest.counters, rest.failure))
  {
    var written := [step.output] + rest.written;
    assert written[0] == step.output && written[1..] == rest.written;
    ConsecutiveAppend(OutputSentenceNumbers(step.output), RunSentenceNumbers(rest.written),
                      c.sentence, step.counters.sentence - c.sentence, rest.counters.sentence - step.counters.sentence);
    ConsecutiveAppend(CommentNumbers(step.output.comments), RunCommentNumbers(rest.written),
                      c.comment, step.counters.comment - c.comment, rest.counters.comment - step.counters.comment);
  }

  /** Across a run the sentence numbers written are consecutive from the
      sentence counter it started with, and the comment numbers from the
      comment counter, whether the run finishes or stops early. */
  lemma {:induction false} RunIds(c: Counters, sources: seq<Source>)
    ensures RunStamped(c, Run(c, sources))
    decreases |sources|
  {
    if |sources| > 0 && DatesReadable(sources[0].recipe) {
      var step := ConvertRecipe(c, sources[0]).value;
      ConvertRecipeIds(c, sources[0]);
      RunIds(step.counters, sources[1..]);
      RunStep(c, step, sources[0], Run(step.counters, sources[1..]));
    }
  }

  /** Over a whole run from fresh counters, the sentences written are
      numbered 0, 1, 2, ... in document order, and so are the comments; in
      particular no two `s` elements and no two `comment` elements share an
      `id`. */
  lemma RunIdsUnique(sources: seq<Source>)
    ensures var r := Run(Counters(0, 0), sources);
            var sn, cn := RunSentenceNumbers(r.written), RunCommentNumbers(r.written);
            && Consecutive(sn, 0, r.counters.sentence)
            && Consecutive(cn, 0, r.counters.comment)
            && (forall i, j :: 0 <= i < j < |sn| ==> SentenceId(sn[i]) != SentenceId(sn[j]))
            && (forall i, j :: 0 <= i < j < |cn| ==> CommentId(cn[i]) != CommentId(cn[j]))
  {
    var r := Run(Counters(0, 0), sources);
    RunIds(Counters(0, 0), sources);
    var sn, cn := RunSentenceNumbers(r.written), RunCommentNumbers(r.written);
    forall i, j | 0 <= i < j < |sn|
      ensures SentenceId(sn[i]) != SentenceId(sn[j])
    {
      IdsInjective(sn[i], sn[j]);
    }
    forall i, j | 0 <= i < j < |cn|
      ensures CommentId(cn[i]) != CommentId(cn[j])
    {
      IdsInjective(cn[i], cn[j]);
    }
  }

  /** `r` with the files in `done` written before it. */
  function After(done: seq<Output>, r: RunResult): RunResult {
    RunResult(done + r.written, r.counters, r.failure)
  }

  /** One turn of the main loop: the run from file `i` on is file `i`'s
      conversion followed by the run from file `i + 1` on, or the error that
      file raises. */
  lemma RunAdvance(done: seq<Output>, c: Counters, sources: seq<Source>, i: nat)
    requires i < |sources|
    ensures var res := ConvertRecipe(c, sources[i]);
            && (res.Err? ==> After(done, Run(c, sources[i..])) == RunResult(done, c, Some(res.error)))
            && (res.Ok? ==> After(done, Run(c, sources[i..]))
                            == After(done + [res.value.output], Run(res.value.counters, sources[i + 1..])))
  {
    assert sources[i..][0] == sources[i];
    assert sources[i..][1..] == sources[i + 1..];
    var res := ConvertRecipe(c, sources[i]);
    if res.Ok? {
      var rest := Run(res.value.counters, sources[i + 1..]);
      assert done + ([res.value.output] + rest.written) == done + [res.value.output] + rest.written;
    } else {
      assert done + [] == done;
    }
  }

  /** The script's main loop, with the two counters held in one mutable
      `Counters` value. */
  method ConvertAll(sources: seq<Source>) returns (written: seq<Output>, failure: Option<Error>)
    ensures var r := Run(Counters(0, 0), sources); written == r.written && failure == r.failure
  {
    ghost var total := Run(Counters(0, 0), sources);
    var c := Counters(0, 0);
    written := [];
    var i := 0;
    RunStart(c, sources);
    while i < |sources|
      invariant i <= |sources|
      invariant After(written, Run(c, sources[i..])) == total
    {
      RunAdvance(written, c, sources, i);
      var res := ConvertRecipe(c, sources[i]);
      if res.Err? {
        return written, Some(res.error);
      }
      written := written + [res.value.output];
      c := res.value.counters;
      i := i + 1;
    }
    RunDone(written, c, sources[i..]);
    failure := None;
  }

  /** Before the first file, the run still to do is the whole run. */
  lemma RunStart(c: Counters, sources: seq<Source>)
    ensures After([], Run(c, sources[0..])) == Run(c, sources)
  {
    assert sources[0..] == sources;
    assert [] + Run(c, sources).written == Run(c, sources).written;
  }

  /** Nothing is left to convert: the run so far is the whole run. */
  lemma RunDone(done: seq<Output>, c: Counters, rest: seq<Source>)
    requires |rest| == 0
    ensures After(done, Run(c, rest)) == RunResult(done, c, None)
  {
    assert done + [] == done;
  }
}
