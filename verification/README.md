# soupchef-cwb in Dafny

A model of the two scripts that turn a dump of recipe records into a corpus
for the IMS Open Corpus Workbench (CWB).

- **convert.py** reads one JSON recipe record per file. For each file it
  builds a `recipe` element and a `comments` element.
  - The `recipe` element carries the record's metadata as attributes, with
    lists written as `|a|b|` and dates as `%Y-%m-%d`, `%Y-%m` and `%Y`. It
    holds one `s` element per tagged sentence of the recipe text.
  - The `comments` element holds one `comment` element per comment, each
    with its own `s` elements.
  - Every `s` element gets the id `s<n>` from a run-wide sentence counter.
    Every `comment` element gets the id `c<n>` from a run-wide comment
    counter.
  - The text of an `s` element is one `word<TAB>pos` line per token, framed
    by newlines.
  - The two trees go to `<stem>.vrt` and `<stem>_comments.vrt`.
- **merge.py** concatenates the lines of every file whose name ends with a
  given suffix, in the order the directory walk found them. It can
  optionally trim each file with the slice `lines[1:-2]`.

The model is a set of pure functions over immutable values:

| module | file | what it holds |
|---|---|---|
| `Options` | options.dfy | the `Option` type |
| `Text` | text.dfy | `join`, `wrapjoin`, `to_flist`, one-character `split`, `endswith`, decimal and zero-padded digits |
| `Dates` | dates.dfy | the three date renderings, the null date strings and a reader for the `%Y-%m-%d` layout |
| `Paragraphs` | paragraphs.dfy | the `[\n\r]+` splitter |
| `Sentences` | sentences.dfy | `add_sentences`, sentence bodies and their reader, the ids `s<n>` and `c<n>` |
| `Convert` | convert.dfy | records, elements, one file's conversion, the main loop and the counters |
| `Merge` | merge.dfy | Python slices, the suffix filter, the trim and the concatenation |

**The two global counters.** `sentence_i` and `comment_i` become one
`Counters` value. It is passed into each step and handed back, so the
script's uniqueness promise becomes a lemma about the whole run
(`Convert.RunIdsUnique`). `Convert.ConvertAll` is the same loop written with
one mutable variable.

**Attributes.** An element value keeps the data its attributes are rendered
from: the parsed date and the three lists. Member functions give the
attribute strings: `DateAttr`, `YearMonthAttr`, `YearAttr`, `KeywordsAttr`,
`RelatedAttr` and `IngredientsAttr`, plus `Id` for `s` and `comment`
elements.

**Dates.**
- A date field is a `DateField(raw, parsed)`: the raw string, and what
  `strptime` or `fromisoformat` made of it.
- An empty field means no date.
- A field the library cannot parse raises in the script, which does not
  catch the exception. The model therefore stops the run at that file and
  keeps the files written before it (`Convert.Run`).

**The script's shape, as the model follows it:**
- One sequential loop over the input files, with two module-level counters.
- The category is written unchanged.
- The comments file is written for every input file, even one with no
  comments.
- A token line is `word<TAB>pos`, with no lemma column.

## Model

| member | source | states |
|---|---|---|
| Text.WrapJoin | convert.py:27-29 | the result begins and ends with the separator and is at least two separators long, so an empty list gives the separator twice |
| Text.WrapJoinIsJoin | convert.py:27-29 | `wrapjoin` of a non-empty list is the plain join of the list with one empty part added at each end |
| Text.WrapJoinSplit | convert.py:27-29 | for a non-empty list whose parts hold no separator, splitting the wrapped join on its one-character separator gives the parts back, framed by one empty piece on each side (the empty list is excluded because `SplitOn(sep + sep, sep)` gives three empty pieces) |
| Text.ToFList | convert.py:31-32 | `to_flist` is `wrapjoin` with a bar: the result starts and ends with a bar, and the empty list gives `\|\|`; `Text.ToFListRoundTrip` reads the list back |
| Text.ToFListRoundTrip | convert.py:31-32 | a non-empty list whose items hold no bar is recovered from its `to_flist` form by splitting on the bar and dropping the two empty ends |
| Text.ToFListEmptyIsAmbiguous | convert.py:31-32 | the empty list and the list of one empty string are both written as two bars |
| Text.NatToString | convert.py:48 | the `f'{n}'` rendering is a non-empty digit string whose decimal value is `n`, with a leading zero only for 0 |
| Text.PadDigits | convert.py:55 | the `strftime` field has exactly the given width, holds only digits and has the number as its decimal value |
| Dates.FormatYear | convert.py:65-69 | `year(d)` is four digits, for a date and for the null date |
| Dates.FormatYearMonth | convert.py:59-63 | `yearmonth(d)` is seven characters with a dash at offset 4 |
| Dates.FormatDate | convert.py:53-57 | `date(d)` is ten characters with dashes at offsets 4 and 7; `Dates.FormatDateRoundTrip` reads it back |
| Dates.FormatDateRoundTrip | convert.py:53-57 | reading the `date` attribute back with the `%Y-%m-%d` layout gives the date it was made from, and the null date reads as no date |
| Dates.DateFieldsRead | convert.py:53-57 | the rendered date has `-` at offsets 4 and 7, with the year, month and day digits between them |
| Dates.FieldsNest | convert.py:53-69 | for a date and for the null date, `year(d)` is the first four characters of `date(d)` and `yearmonth(d)` the first seven |
| Dates.NullLiterals | convert.py:53-69 | with no date the three renderings are `0000-00-00`, `0000-00` and `0000` |
| Dates.NullRenderings | convert.py:53-69 | each rendering equals its null string exactly when there is no date, since a real year is at least 1 |
| Paragraphs.SplitParagraphs | convert.py:15 | `splitter.split(text)` always returns at least one piece; what the pieces hold is stated by the four splitter rows below |
| Paragraphs.SplitPiecesHaveNoBreaks | convert.py:15 | the splitter returns at least one piece, and no piece holds a CR or LF |
| Paragraphs.SeparatorsAreRuns | convert.py:15 | every stretch the splitter drops is a non-empty run made only of CR and LF |
| Paragraphs.SplitCount | convert.py:35 | there is one more piece than there are maximal CR/LF runs, counted by an independent scan |
| Paragraphs.SplitRestores | convert.py:35 | putting the dropped runs back between the pieces restores the text, so only the runs are lost and empty end pieces are kept |
| Paragraphs.SplitInterleave | convert.py:15 | any break-free pieces with non-empty inner pieces, joined by break runs, are split back into exactly those pieces |
| Sentences.AddSentences | convert.py:43-51 | sentence `i` becomes the element numbered `k + i` with that sentence's body, where `k` is the starting sentence counter; the counter ends at `k + n` and the comment counter is unchanged |
| Sentences.SentenceBody | convert.py:46-47 | the text of an `s` element starts and ends with a newline, and is `\n\n` for an empty sentence |
| Sentences.SentenceId | convert.py:48 | an `s` id is `s` followed by digits that read back as the sentence number, with no leading zero except in `s0` |
| Sentences.CommentId | convert.py:121 | a `comment` id is `c` followed by digits that read back as the comment number, with no leading zero except in `c0` |
| Sentences.IdsInjective | convert.py:48 | two `s` ids are equal exactly when their numbers are, and likewise for `c` ids; an `s` id is never a `c` id |
| Sentences.LineRoundTrip | convert.py:46 | a token with no tab or newline is read back from its `word<TAB>pos` line |
| Sentences.BodyLines | convert.py:46-47 | for a non-empty sentence whose words and tags hold no tab or newline, splitting the body on newlines gives an empty line, one `word<TAB>pos` line per token in token order, and an empty line (the empty sentence is covered by `Sentences.EmptyBody`) |
| Sentences.BodyRoundTrip | convert.py:46-47 | a non-empty sentence of plain tokens is read back from its body |
| Sentences.EmptyBody | convert.py:46-47 | an empty sentence gives the body `\n\n`, which reads back as one empty line and not as no tokens |
| Convert.Stem | convert.py:138 | `name.split('.')[0]` is the longest dot-free prefix of the name: it is the whole name or is followed by a dot |
| Convert.RecipeFileName | convert.py:138 | the recipe output name has the input name's stem as its own stem; that it is exactly the stem followed by `.vrt` is stated by `Convert.OutputFileNames` |
| Convert.CommentsFileName | convert.py:142 | the comments output name's stem is the input name's stem followed by `_comments`; that it is exactly the stem followed by `_comments.vrt` is stated by `Convert.OutputFileNames` |
| Convert.OutputFileNames | convert.py:138-142 | the recipe output name is exactly the stem followed by `.vrt` and the comments output name exactly the stem followed by `_comments.vrt`, so both end in `.vrt` and they always differ |
| Convert.StemOfDotted | convert.py:138 | a dot-free base followed by a dot and anything has that base as its stem |
| Convert.OutputNamesCollide | convert.py:138-142 | two different input names that both hold a dot and agree up to their first dot get the same two output names; for two such files in one input directory, whose outputs go to the same mirrored directories (convert.py:139, 143), the later file's output replaces the earlier one's |
| Convert.RecipeDateAttributes | convert.py:93-95 | a `recipe` element's `date` attribute is ten characters and reads back to the element's date, or to none for the null date; `yearmonth` and `year` are its first seven and four characters |
| Convert.CommentDateAttributes | convert.py:124-126 | the same for a `comment` element's three date attributes |
| Convert.ConvertComment | convert.py:113-136 | one comment succeeds exactly when its date is empty or parses. It takes one comment number and as many sentence numbers as it has sentences, consecutive from the counters, and moves the comment counter by one |
| Convert.ConvertComments | convert.py:113-136 | the comment loop succeeds exactly when every comment's date is readable, and then makes one element per comment |
| Convert.ConvertCommentsIds | convert.py:113-136 | over a record's comments the comment numbers run consecutively from the comment counter and the sentence numbers from the sentence counter; both counters advance by what was stamped |
| Convert.ConvertCommentsElems | convert.py:120-134 | comment element `i` comes from comment `i`: its author, the record id as parent, the raw date as `datetime_orig`, the parsed date, and one `s` element per sentence holding that sentence's body |
| Convert.ConvertRecipe | convert.py:83-136 | one file converts exactly when the record's date and every comment date are empty or parse |
| Convert.ConvertRecipeOutput | convert.py:88-142 | the recipe element carries the record's metadata, date, lists and ingredient names in order, and one `s` element per sentence holding that sentence's body; comment element `i` is made from comment `i`; the trees go to the file's two output names |
| Convert.ConvertRecipeIds | convert.py:105-136 | one file's sentence numbers run consecutively from the sentence counter over the text and then every comment, its comment numbers from the comment counter, and both counters advance by as many |
| Convert.Run | convert.py:78-150 | the run finishes without error exactly when every file's dates are readable; it produces at most one output per file, and one per file when it finishes |
| Convert.RunWritten | convert.py:78-150 | the outputs of a run are the input files' conversions in input order: output `i` carries file `i`'s record and goes to file `i`'s two output names |
| Convert.RunStopsAtFirstFailure | convert.py:83-86 | a run that stops does so at the first file with an unreadable date, having written every file before it |
| Convert.RunIds | convert.py:24-25 | across a run the sentence numbers written are consecutive from the starting sentence counter and the comment numbers from the starting comment counter, whether the run finishes or stops |
| Convert.RunIdsUnique | convert.py:24-25 | from fresh counters, sentences are numbered 0, 1, 2, … in document order, and so are comments; no two `s` elements and no two `comment` elements share an id |
| Convert.ConvertAll | convert.py:78-150 | the loop with a mutable counter writes exactly the outputs of the functional run and reports the same error |
| Merge.Slice | merge.py:20 | a Python slice keeps at most the whole sequence, is `s[i..j]` for bounds inside the sequence, and is empty when the bounds cross |
| Merge.SliceLaws | merge.py:20 | a negative bound no further back than the length counts from the end, a bound past the end stands for the end, a start bound before the start stands for the start, and a stop bound before the start leaves the slice empty |
| Merge.Trimmed | merge.py:19-20 | `lines[1:-2]` of a file of more than three lines is the file without its first line and last two lines, `n - 3` lines; a shorter file keeps nothing |
| Merge.TrimDropsOneLineMore | merge.py:35 | the trim the `--trim` help text describes (first and last line) is the code's trim plus the second-to-last line, so the two never agree on a file of three or more lines |
| Merge.Contribution | merge.py:19-22 | without trim a file contributes all its lines; with trim, `max(0, n - 3)` of them |
| Merge.ContributionIsInfix | merge.py:19-22 | a file's contribution is a contiguous run of its own lines |
| Merge.Select | merge.py:10-11 | every selected file's name ends with the filter, and no more files are selected than were found |
| Merge.SelectMembers | merge.py:10-11 | a file is selected exactly when it was found and its name ends with the filter |
| Merge.SelectAppend | merge.py:8-11 | selecting from two runs of files is selecting from each in turn, so the filter keeps walk order |
| Merge.MergeSingle | merge.py:14-22 | a lone file contributes its (trimmed) lines if its name matches and nothing otherwise |
| Merge.MergeAppend | merge.py:14-22 | the output for two runs of files is the output for the first followed by the output for the second |
| Merge.MergeLayout | merge.py:14-22 | the output is the files before file `i`, then file `i`'s own contribution, then the files after it; contributions are never reordered or interleaved |
| Merge.MergeSkipsUnmatched | merge.py:10-11 | a file whose name does not match changes nothing, wherever it stands |
| Merge.MergeLength | merge.py:14-22 | the output has as many lines as the selected files contribute together |
| Merge.ShortFilesVanish | merge.py:19-20 | with trim, a file of at most three lines changes nothing, wherever it stands |
| Merge.MergeAll | merge.py:4-22 | every line written is a line of a walked file whose name ends with the filter; its layout and length are stated by `Merge.MergeLayout` and `Merge.MergeLength` |
| Merge.MergeLinesFrom | merge.py:8-22 | the lines of the selected files' contributions all come from walked files whose names match |
| Merge.MergeAllLoop | merge.py:4-22 | the script's two loops, collecting and then writing, produce exactly the lines of the functional model |

## Left out

- File-system and output I/O are not modelled: `os.walk`, `open`, `json.load`, `os.makedirs` and `write` (convert.py:71-81, 139-150; merge.py:8, 13-17). Files are given as a sequence of (name, record) or (name, lines) values in walk order, because that order depends on the file system.
- The `index.dat` exclusion of the walk (convert.py:75) is not modelled. The model starts from the files that remain.
- The output directories are not modelled. The `path.replace(base, ...)` templating (convert.py:139, 143) depends on hard-coded machine paths; only the file names are.
- XML serialization by lxml is not modelled: escaping, the XML declaration, and the `\n` text and tail whitespace around elements. Elements are values, and their attributes are the strings the script passes.
- Tokenization and tagging (SoMaJo and SoMeWeTa, convert.py:9-21, 34-41) are external models. A text is given as its tagged sentences (`seq<TaggedSentence>`). The paragraph splitter that feeds them is modelled on its own.
- Date parsing by `strptime` and `fromisoformat` (convert.py:84, 116) is a library call. A `DateField` gives its result, and the time part of a comment's ISO datetime is dropped because no attribute shows it.
- Dates.FormatYear: renders `%Y` as four zero-padded digits. glibc's `strftime` writes years below 1000 without padding, so for those years the model's string differs from the script's.
- Convert.Run: only a date that does not parse stops the model's run. In the script, lxml also raises on attribute values holding characters XML 1.0 forbids (U+0001, U+000B, ...), which `json.load(..., strict=False)` (convert.py:81) lets through into the attributes of convert.py:88-101 and 120-128; the model converts those files.
- Convert.Run: keeps one output per converted file. On disk, two files in one directory whose names share a stem write the same two files, and the later one overwrites the earlier (`Convert.OutputNamesCollide`); the model does not merge such outputs.
- Convert.ConvertRecipe: takes `rating` as a string. The script writes `str(...)` of an arbitrary JSON value (convert.py:96).
- Convert.ConvertRecipe: takes the keyword, related and ingredient-name lists as strings, so `str(x)` in `wrapjoin` (convert.py:28) is the identity.
- JSON nulls are not modelled; no field is ever missing or null. A null date is falsy and would be treated like an empty one, but a null `datetime_orig` would make lxml raise.
- merge.py's command line (merge.py:25-48) and the `utf-8-sig` decoding that strips a byte-order mark are not modelled.
- Merge.MergeAll: takes each file's lines as text mode reads them. Opening without `newline=''` (merge.py:13, 16) turns `\r\n` and `\r` into `\n`, so the output reproduces a CRLF file only up to that translation; the translation itself is not modelled.
- Lines without a final newline are not modelled. A file's last line then runs into the next file's first line in the written text; the model keeps lines as a sequence.
- The progress message printed at start-up (convert.py:22) is not modelled.
