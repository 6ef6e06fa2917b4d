/**
 `merge_all` (merge.py) as a function on lines: the files found under the input
 folder, in the order the walk met them, are filtered by the suffix of their
 name, and the lines of each selected file, optionally trimmed with the slice
 `lines[1:-2]`, are written out one file after the other.
 */
module Merge {
  import opened Text

  /** One file met by the walk: its name and the lines `readlines` gives
      for it. Each line keeps its line ending as text mode reads it, with
      `\r\n` and `\r` already turned into `\n`, so writing the lines back
      one after the other reproduces the text up to that translation. */
  datatype InputFile = InputFile(name: string, lines: seq<string>)

  /* ------------------------------------------------------- Python slices */

  /** A Python slice bound against a sequence of length `n`: a negative
      bound counts from the end, and the result is clamped to `0..n`. */
  function SliceBound(i: int, n: nat): (b: nat)
    ensures b <= n
    ensures 0 <= i <= n ==> b == i
    ensures i < 0 && 0 <= n + i ==> b == n + i
    ensures n + i < 0 ==> b == 0
    ensures n < i ==> b == n
  {
    if i < 0 then (if n + i < 0 then 0 else n + i)
    else if i > n then n
    else i
  }

  /** Python's `s[i:j]`: empty when the normalised bounds cross. */
  function Slice<T>(s: seq<T>, i: int, j: int): (r: seq<T>)
    ensures |r| <= |s|
    ensures 0 <= i <= j <= |s| ==> r == s[i..j]
    ensures 0 <= j <= i ==> r == []
  {
    var lo, hi := SliceBound(i, |s|), SliceBound(j, |s|);
    if lo <= hi then s[lo..hi] else []
  }

  /** Python's slice laws: a negative bound of at least `-|s|` stands for
      `|s|` plus itself, a bound past the end stands for the end, and one
      below `-|s|` for the start, so such a stop bound leaves nothing. */
  lemma SliceLaws<T>(s: seq<T>, i: int, j: int)
    ensures -|s| <= i < 0 ==> Slice(s, i, j) == Slice(s, |s| + i, j)
    ensures -|s| <= j < 0 ==> Slice(s, i, j) == Slice(s, i, |s| + j)
    ensures i < -|s| ==> Slice(s, i, j) == Slice(s, 0, j)
    ensures |s| <= j ==> Slice(s, i, j) == Slice(s, i, |s|)
    ensures j < -|s| ==> Slice(s, i, j) == []
    ensures |s| <= i ==> Slice(s, i, j) == []
  {
  }

  /** `lines[1:-2]`, the trim of merge.py: the first line and the last two
      lines go; a file of three lines or fewer keeps nothing. */
  function Trimmed(lines: seq<string>): (r: seq<string>)
    ensures |lines| <= 3 ==> r == []
    ensures 3 <= |lines| ==> r == lines[1..|lines| - 2]
    ensures |r| == if |lines| <= 3 then 0 else |lines| - 3
  {
    Slice(lines, 1, -2)
  }

  /** `lines[1:-1]`: the trim the `--trim` help text describes, first and
      last line removed. */
  function FirstAndLastTrimmed(lines: seq<string>): (r: seq<string>)
    ensures 2 <= |lines| ==> r == lines[1..|lines| - 1]
    ensures |lines| <= 2 ==> r == []
  {
    Slice(lines, 1, -1)
  }

  /** The slice the code applies keeps one line fewer than the help text
      promises: on every file of at least three lines it also drops the
      second-to-last line, so the two trims never agree there. */
  lemma TrimDropsOneLineMore(lines: seq<string>)
    requires 3 <= |lines|
    ensures FirstAndLastTrimmed(lines) == Trimmed(lines) + [lines[|lines| - 2]]
    ensures Trimmed(lines) != FirstAndLastTrimmed(lines)
  {
    var n := |lines|;
    assert lines[1..n - 1] == lines[1..n - 2] + [lines[n - 2]];
  }

  /** What one file adds to the output. */
  function Contribution(f: InputFile, trim: bool): (r: seq<string>)
    ensures trim ==> |r| == if |f.lines| <= 3 then 0 else |f.lines| - 3
    ensures !trim ==> r == f.lines
  {
    if trim then Trimmed(f.lines) else f.lines
  }

  /** A contribution is a contiguous run of the file's own lines. */
  lemma ContributionIsInfix(f: InputFile, trim: bool)
    ensures exists lo, hi :: 0 <= lo <= hi <= |f.lines| && Contribution(f, trim) == f.lines[lo..hi]
  {
    var n := |f.lines|;
    if !trim {
      assert Contribution(f, trim) == f.lines[0..n];
    } else if n <= 3 {
      assert Contribution(f, trim) == f.lines[0..0];
    } else {
      assert Contribution(f, trim) == f.lines[1..n - 2];
    }
  }

  /* ------------------------------------------------------- selection */

  /** The walk's filter: the files whose name ends with `filter`, in order. */
  function Select(files: seq<InputFile>, filter: string): (r: seq<InputFile>)
    ensures |r| <= |files|
    ensures forall k :: 0 <= k < |r| ==> EndsWith(r[k].name, filter)
    decreases |files|
  {
    if |files| == 0 then []
    else if EndsWith(files[0].name, filter) then [files[0]] + Select(files[1..], filter)
    else Select(files[1..], filter)
  }

  /** A file is selected exactly when it was found and its name ends with
      the filter. */
  lemma {:induction false} SelectMembers(files: seq<InputFile>, filter: string, f: InputFile)
    ensures f in Select(files, filter) <==> f in files && EndsWith(f.name, filter)
    decreases |files|
  {
    if |files| > 0 {
      SelectMembers(files[1..], filter, f);
      assert files == [files[0]] + files[1..];
    }
  }

  /** Selecting from two lists in a row is selecting from each in turn: the
      filter never reorders files. */
  lemma {:induction false} SelectAppend(a: seq<InputFile>, b: seq<InputFile>, filter: string)
    ensures Select(a + b, filter) == Select(a, filter) + Select(b, filter)
    decreases |a|
  {
    if |a| == 0 {
      assert a + b == b;
    } else {
      assert (a + b)[0] == a[0];
      assert (a + b)[1..] == a[1..] + b;
      SelectAppend(a[1..], b, filter);
    }
  }

  /* ------------------------------------------------------- concatenation */

  /** The selected files' contributions, one after the other. */
  function Concat(files: seq<InputFile>, trim: bool): seq<string>
    decreases |files|
  {
    if |files| == 0 then [] else Contribution(files[0], trim) + Concat(files[1..], trim)
  }

  lemma {:induction false} ConcatAppend(a: seq<InputFile>, b: seq<InputFile>, trim: bool)
    ensures Concat(a + b, trim) == Concat(a, trim) + Concat(b, trim)
    decreases |a|
  {
    if |a| == 0 {
      assert a + b == b;
    } else {
      assert (a + b)[0] == a[0];
      assert (a + b)[1..] == a[1..] + b;
      ConcatAppend(a[1..], b, trim);
    }
  }

  /** `merge_all(infolder, outpath, filter, trim)` with the walk's files
      given in walk order: the lines written to the output file. */
  function MergeAll(files: seq<InputFile>, filter: string, trim: bool): (r: seq<string>)
    ensures forall line :: line in r ==> exists f :: f in files && EndsWith(f.name, filter) && line in f.lines
  {
    MergeLinesFrom(files, filter, trim);
    Concat(Select(files, filter), trim)
  }

  /** Every line a file contributes is one of its own lines. */
  lemma ContributionLines(f: InputFile, trim: bool, line: string)
    requires line in Contribution(f, trim)
    ensures line in f.lines
  {
    var c := Contribution(f, trim);
    var k :| 0 <= k < |c| && c[k] == line;
    if trim {
      assert c[k] == f.lines[k + 1];
    }
  }

  /** Every written line is a line of one of the files written. */
  lemma {:induction false} ConcatLinesFrom(files: seq<InputFile>, trim: bool)
    ensures forall line :: line in Concat(files, trim) ==> exists f :: f in files && line in f.lines
    decreases |files|
  {
    if |files| > 0 {
      ConcatLinesFrom(files[1..], trim);
      forall line | line in Concat(files, trim)
        ensures exists f :: f in files && line in f.lines
      {
        if line in Contribution(files[0], trim) {
          ContributionLines(files[0], trim, line);
          assert files[0] in files;
        } else {
          assert line in Concat(files[1..], trim);
          var f :| f in files[1..] && line in f.lines;
          assert f in files;
        }
      }
    }
  }

  /** The merged output holds no line that is not in a matching file. */
  lemma MergeLinesFrom(files: seq<InputFile>, filter: string, trim: bool)
    ensures forall line :: line in Concat(Select(files, filter), trim) ==>
              exists f :: f in files && EndsWith(f.name, filter) && line in f.lines
  {
    var sel := Select(files, filter);
    ConcatLinesFrom(sel, trim);
    forall line | line in Concat(sel, trim)
      ensures exists f :: f in files && EndsWith(f.name, filter) && line in f.lines
    {
      var f :| f in sel && line in f.lines;
      SelectMembers(files, filter, f);
    }
  }

  /** One file alone: its contribution if its name matches, nothing
      otherwise. */
  lemma MergeSingle(f: InputFile, filter: string, trim: bool)
    ensures EndsWith(f.name, filter) ==> MergeAll([f], filter, trim) == Contribution(f, trim)
    ensures !EndsWith(f.name, filter) ==> MergeAll([f], filter, trim) == []
  {
    assert [f][1..] == [];
    if EndsWith(f.name, filter) {
      assert Select([f], filter) == [f];
      assert Concat([f], trim) == Contribution(f, trim) + Concat([], trim);
    }
  }

  /** The output of two runs of files in a row is the output of the first
      followed by the output of the second. */
  lemma MergeAppend(a: seq<InputFile>, b: seq<InputFile>, filter: string, trim: bool)
    ensures MergeAll(a + b, filter, trim) == MergeAll(a, filter, trim) + MergeAll(b, filter, trim)
  {
    SelectAppend(a, b, filter);
    ConcatAppend(Select(a, filter), Select(b, filter), trim);
  }

  /** The output is laid out file by file in walk order: what the files
      before the `i`-th write, then the `i`-th file's own contribution (or
      nothing when its name does not match), then what the files after it
      write. Contributions are never reordered or interleaved. */
  lemma MergeLayout(files: seq<InputFile>, filter: string, trim: bool, i: nat)
    requires i < |files|
    ensures MergeAll(files, filter, trim)
            == MergeAll(files[..i], filter, trim) + MergeAll([files[i]], filter, trim) + MergeAll(files[i + 1..], filter, trim)
  {
    assert files == files[..i] + [files[i]] + files[i + 1..];
    MergeAppend(files[..i] + [files[i]], files[i + 1..], filter, trim);
    MergeAppend(files[..i], [files[i]], filter, trim);
  }

  /** A file whose name does not match adds nothing wherever it stands. */
  lemma MergeSkipsUnmatched(a: seq<InputFile>, f: InputFile, b: seq<InputFile>, filter: string, trim: bool)
    requires !EndsWith(f.name, filter)
    ensures MergeAll(a + [f] + b, filter, trim) == MergeAll(a + b, filter, trim)
  {
    MergeAppend(a + [f], b, filter, trim);
    MergeAppend(a, [f], filter, trim);
    MergeSingle(f, filter, trim);
    MergeAppend(a, b, filter, trim);
  }

  /** The number of lines a list of files contributes, file by file. */
  function TotalLines(files: seq<InputFile>, trim: bool): nat
    decreases |files|
  {
    if |files| == 0 then 0
    else (if !trim then |files[0].lines| else if |files[0].lines| <= 3 then 0 else |files[0].lines| - 3)
         + TotalLines(files[1..], trim)
  }

  /** The output has as many lines as the selected files contribute: all of
      each file's lines without trim, three fewer (and never below none) with
      trim. */
  lemma {:induction false} MergeLength(files: seq<InputFile>, filter: string, trim: bool)
    ensures |MergeAll(files, filter, trim)| == TotalLines(Select(files, filter), trim)
  {
    ConcatLength(Select(files, filter), trim);
  }

  lemma {:induction false} ConcatLength(files: seq<InputFile>, trim: bool)
    ensures |Concat(files, trim)| == TotalLines(files, trim)
    decreases |files|
  {
    if |files| > 0 {
      ConcatLength(files[1..], trim);
    }
  }

  /** With trim, a file of at most three lines never shows in the output. */
  lemma ShortFilesVanish(a: seq<InputFile>, f: InputFile, b: seq<InputFile>, filter: string)
    requires |f.lines| <= 3
    ensures MergeAll(a + [f] + b, filter, true) == MergeAll(a + b, filter, true)
  {
    MergeAppend(a + [f], b, filter, true);
    MergeAppend(a, [f], filter, true);
    MergeSingle(f, filter, true);
    MergeAppend(a, b, filter, true);
  }

  /** Selecting from one more file appends it when its name matches. */
  lemma SelectSnoc(files: seq<InputFile>, i: nat, filter: string)
    requires i < |files|
    ensures Select(files[..i + 1], filter)
            == Select(files[..i], filter) + (if EndsWith(files[i].name, filter) then [files[i]] else [])
  {
    assert files[..i + 1] == files[..i] + [files[i]];
    SelectAppend(files[..i], [files[i]], filter);
    assert [files[i]][1..] == [];
  }

  /** Writing one more file appends its contribution. */
  lemma ConcatSnoc(files: seq<InputFile>, j: nat, trim: bool)
    requires j < |files|
    ensures Concat(files[..j + 1], trim) == Concat(files[..j], trim) + Contribution(files[j], trim)
  {
    assert files[..j + 1] == files[..j] + [files[j]];
    ConcatAppend(files[..j], [files[j]], trim);
    assert [files[j]][1..] == [];
    assert Contribution(files[j], trim) + [] == Contribution(files[j], trim);
  }

  /** The script's two loops: the walk collects the matching files, then
      each one's lines are written in turn. */
  method MergeAllLoop(files: seq<InputFile>, filter: string, trim: bool) returns (out: seq<string>)
    ensures out == MergeAll(files, filter, trim)
  {
    var infiles: seq<InputFile> := [];
    var i := 0;
    while i < |files|
      invariant i <= |files|
      invariant infiles == Select(files[..i], filter)
    {
      SelectSnoc(files, i, filter);
      if EndsWith(files[i].name, filter) {
        infiles := infiles + [files[i]];
      }
      i := i + 1;
    }
    assert files[..i] == files;
    out := [];
    var j := 0;
    while j < |infiles|
      invariant j <= |infiles|
      invariant out == Concat(infiles[..j], trim)
    {
      ConcatSnoc(infiles, j, trim);
      if trim {
        out := out + Trimmed(infiles[j].lines);
      } else {
        out := out + infiles[j].lines;
      }
      j := j + 1;
    }
    assert infiles[..j] == infiles;
  }
}
