/** File selection for one group (`FindMatchingFiles`): the files of the
    group's globs, minus the files of its exclude globs, minus the files
    whose name matches an exclude file-name regex, then filtered on content;
    each file listed once. */
module FileSelector {
  import opened Wrappers
  import opened Text
  import opened Files
  import opened Matching
  import opened Options

  /** The files of each glob, in glob order, duplicates kept. */
  function FilesFromGlobs(fs: FileSystem, globs: seq<string>): seq<string>
  {
    if |globs| == 0 then [] else fs.resolveGlob(globs[0]) + FilesFromGlobs(fs, globs[1..])
  }

  predicate NoDuplicates(s: seq<string>)
  {
    forall i, j :: 0 <= i < j < |s| ==> s[i] != s[j]
  }

  /** `Distinct()`: the first occurrence of each element, in order. */
  function Distinct(s: seq<string>): seq<string>
  {
    if |s| == 0 then []
    else
      var d := Distinct(s[..|s| - 1]);
      if s[|s| - 1] in d then d else d + [s[|s| - 1]]
  }

  /** The position of the first occurrence of `x` in `s`. */
  function FirstIndex(s: seq<string>, x: string): (k: nat)
    requires x in s
    ensures k < |s| && s[k] == x
    ensures forall m :: 0 <= m < k ==> s[m] != x
  {
    if s[0] == x then 0 else 1 + FirstIndex(s[1..], x)
  }

  lemma FirstIndexUnique(s: seq<string>, x: string, k: nat)
    requires k < |s| && s[k] == x
    requires forall m :: 0 <= m < k ==> s[m] != x
    ensures FirstIndex(s, x) == k
  {
  }

  /** Appending to a sequence leaves the first occurrence of an element it
      already has where it was. */
  lemma FirstIndexSnoc(s: seq<string>, y: string, x: string)
    requires x in s
    ensures FirstIndex(s + [y], x) == FirstIndex(s, x)
  {
    var k := FirstIndex(s, x);
    assert (s + [y])[k] == x;
    assert forall m :: 0 <= m < k ==> (s + [y])[m] == s[m];
    FirstIndexUnique(s + [y], x, k);
  }

  /** What survives the exclude globs and the file-name regexes. */
  function Candidates(fs: FileSystem, files: seq<string>, excluded: set<string>, excludeFileNamePatterns: seq<string>,
                      isMatch: Matcher): seq<string>
  {
    if |files| == 0 then []
    else
      var f := files[0];
      (if f !in excluded && !AnyMatch(excludeFileNamePatterns, fs.fileName(f), isMatch) then [f] else [])
      + Candidates(fs, files[1..], excluded, excludeFileNamePatterns, isMatch)
  }

  /** The content filter; a file that cannot be read aborts the selection. */
  function ContentMatches(fs: FileSystem, files: seq<string>, includes: seq<string>, excludes: seq<string>,
                          isMatch: Matcher): Result<seq<string>, string>
  {
    if |files| == 0 then Success([])
    else
      match IsFileMatch(Read(fs, files[0]), includes, excludes, isMatch)
      case Failure(e) => Failure(e)
      case Success(keep) =>
        match ContentMatches(fs, files[1..], includes, excludes, isMatch)
        case Failure(e) => Failure(e)
        case Success(rest) => Success((if keep then [files[0]] else []) + rest)
  }

  /** A path is listed iff some glob resolves to it. */
  lemma {:induction false} FilesFromGlobsSpec(fs: FileSystem, globs: seq<string>)
    ensures forall f :: f in FilesFromGlobs(fs, globs) <==> exists k :: 0 <= k < |globs| && f in fs.resolveGlob(globs[k])
  {
    if |globs| > 0 {
      FilesFromGlobsSpec(fs, globs[1..]);
      assert forall k :: 1 <= k < |globs| ==> globs[k] == globs[1..][k - 1];
      forall f | exists k :: 0 <= k < |globs| && f in fs.resolveGlob(globs[k])
        ensures f in FilesFromGlobs(fs, globs)
      {
        var k :| 0 <= k < |globs| && f in fs.resolveGlob(globs[k]);
        if k > 0 {
          assert f in fs.resolveGlob(globs[1..][k - 1]);
        }
      }
    }
  }

  /** No repeats, exactly the members of the input, and listed in the order
      of their first occurrences. */
  lemma {:induction false} DistinctSpec(s: seq<string>)
    ensures NoDuplicates(Distinct(s))
    ensures forall x :: x in Distinct(s) <==> x in s
    ensures forall i, j :: 0 <= i < j < |Distinct(s)| ==>
              FirstIndex(s, Distinct(s)[i]) < FirstIndex(s, Distinct(s)[j])
  {
    if |s| > 0 {
      var init := s[..|s| - 1];
      var last := s[|s| - 1];
      DistinctSpec(init);
      assert s == init + [last];
      assert forall x :: x in s <==> x in init || x == last;
      var d := Distinct(init);
      forall x | x in init
        ensures FirstIndex(s, x) == FirstIndex(init, x)
      {
        FirstIndexSnoc(init, last, x);
      }
      if last !in d {
        assert Distinct(s) == d + [last];
        assert last !in init;
        FirstIndexUnique(s, last, |s| - 1);
        forall i, j | 0 <= i < j < |Distinct(s)|
          ensures FirstIndex(s, Distinct(s)[i]) < FirstIndex(s, Distinct(s)[j])
        {
          assert Distinct(s)[i] == d[i] && d[i] in init;
          if j < |d| {
            assert Distinct(s)[j] == d[j] && d[j] in init;
          }
        }
      }
    }
  }

  /** A file survives iff it is listed, not excluded by glob, and its name
      matches no exclude regex. */
  lemma {:induction false} CandidatesSpec(fs: FileSystem, files: seq<string>, excluded: set<string>,
                                          excludeFileNamePatterns: seq<string>, isMatch: Matcher)
    ensures forall f :: f in Candidates(fs, files, excluded, excludeFileNamePatterns, isMatch) <==>
              f in files && f !in excluded && !AnyMatch(excludeFileNamePatterns, fs.fileName(f), isMatch)
  {
    if |files| > 0 {
      CandidatesSpec(fs, files[1..], excluded, excludeFileNamePatterns, isMatch);
      assert files == [files[0]] + files[1..];
      assert forall x :: x in files <==> x == files[0] || x in files[1..];
    }
  }

  /** On success, exactly the files passing IsFileMatch, all of them read
      without error; on failure, the error of some file. */
  lemma {:induction false} ContentMatchesSpec(fs: FileSystem, files: seq<string>, includes: seq<string>,
                                              excludes: seq<string>, isMatch: Matcher)
    ensures var r := ContentMatches(fs, files, includes, excludes, isMatch);
            (r.Success? ==> forall f :: f in files ==> IsFileMatch(Read(fs, f), includes, excludes, isMatch).Success?)
            && (r.Success? ==>
                  forall f :: f in r.value <==> f in files && IsFileMatch(Read(fs, f), includes, excludes, isMatch) == Success(true))
            && (r.Failure? ==> exists f :: f in files && IsFileMatch(Read(fs, f), includes, excludes, isMatch) == Failure(r.error))
  {
    if |files| > 0 {
      ContentMatchesSpec(fs, files[1..], includes, excludes, isMatch);
      assert files == [files[0]] + files[1..];
      assert forall x :: x in files <==> x == files[0] || x in files[1..];
    }
  }

  datatype Selection = Notice(text: string) | Selected(files: seq<string>)

  function NoFilesFound(globs: seq<string>): string
  {
    "## Pattern: " + Join(globs, " ") + "\n\n - No files found\n"
  }

  function NoFilesMatched(globs: seq<string>): string
  {
    "## Pattern: " + Join(globs, " ") + "\n\n - No files matched criteria\n"
  }

  /** A file passes the name stage of a group. */
  ghost predicate NamePasses(fs: FileSystem, g: InputGroup, f: string, isMatch: Matcher)
  {
    (exists k :: 0 <= k < |g.globs| && f in fs.resolveGlob(g.globs[k]))
    && (forall k :: 0 <= k < |g.excludeGlobs| ==> f !in fs.resolveGlob(g.excludeGlobs[k]))
    && forall k :: 0 <= k < |g.excludeFileNamePatterns| ==> !isMatch(g.excludeFileNamePatterns[k], fs.fileName(f))
  }

  /** The files of the globs that survive the name stage. */
  function NameStage(fs: FileSystem, g: InputGroup, isMatch: Matcher): seq<string>
  {
    var excludeFiles := set f | f in FilesFromGlobs(fs, g.excludeGlobs);
    Candidates(fs, FilesFromGlobs(fs, g.globs), excludeFiles, g.excludeFileNamePatterns, isMatch)
  }

  function FindMatchingFiles(fs: FileSystem, g: InputGroup, isMatch: Matcher): Result<Selection, string>
  {
    var files := NameStage(fs, g, isMatch);
    if |files| == 0 then Success(Notice(NoFilesFound(g.globs)))
    else
      match ContentMatches(fs, files, g.includeFileContains, g.excludeFileContains, isMatch)
      case Failure(e) => Failure(e)
      case Success(filtered) =>
        if |filtered| == 0 then Success(Notice(NoFilesMatched(g.globs)))
        else Success(Selected(Distinct(filtered)))
  }

  // ---------------------------------------------------------------------
  // Properties

  lemma NameStageSpec(fs: FileSystem, g: InputGroup, isMatch: Matcher)
    ensures forall f :: f in NameStage(fs, g, isMatch) <==> NamePasses(fs, g, f, isMatch)
  {
    FilesFromGlobsSpec(fs, g.globs);
    FilesFromGlobsSpec(fs, g.excludeGlobs);
    var excludeFiles := set f | f in FilesFromGlobs(fs, g.excludeGlobs);
    CandidatesSpec(fs, FilesFromGlobs(fs, g.globs), excludeFiles, g.excludeFileNamePatterns, isMatch);
  }

  lemma NoticesDiffer(globs: seq<string>)
    ensures NoFilesFound(globs) != NoFilesMatched(globs)
  {
    assert |NoFilesFound(globs)| != |NoFilesMatched(globs)|;
  }

  /** "No files found" is printed exactly when no file passes the name stage. */
  lemma NoFilesFoundExactly(fs: FileSystem, g: InputGroup, isMatch: Matcher)
    ensures FindMatchingFiles(fs, g, isMatch) == Success(Notice(NoFilesFound(g.globs)))
            <==> forall f :: !NamePasses(fs, g, f, isMatch)
  {
    NameStageSpec(fs, g, isMatch);
    NoticesDiffer(g.globs);
    var files := NameStage(fs, g, isMatch);
    if |files| > 0 {
      assert files[0] in files;
    }
  }

  /** The selected files are exactly the files that pass both stages, listed
      once each. */
  lemma SelectedExactly(fs: FileSystem, g: InputGroup, isMatch: Matcher)
    ensures var r := FindMatchingFiles(fs, g, isMatch);
            r.Success? && r.value.Selected? ==>
              |r.value.files| > 0 && NoDuplicates(r.value.files)
              && forall f :: f in r.value.files <==>
                   NamePasses(fs, g, f, isMatch)
                   && IsFileMatch(Read(fs, f), g.includeFileContains, g.excludeFileContains, isMatch) == Success(true)
  {
    NameStageSpec(fs, g, isMatch);
    var files := NameStage(fs, g, isMatch);
    var m := ContentMatches(fs, files, g.includeFileContains, g.excludeFileContains, isMatch);
    ContentMatchesSpec(fs, files, g.includeFileContains, g.excludeFileContains, isMatch);
    if |files| > 0 && m.Success? && |m.value| > 0 {
      DistinctSpec(m.value);
      assert m.value[0] in Distinct(m.value);
    }
  }

  /** "No files matched criteria" means every name-stage file failed the
      content filter. */
  lemma NoFilesMatchedMeansContentRejected(fs: FileSystem, g: InputGroup, isMatch: Matcher)
    ensures FindMatchingFiles(fs, g, isMatch) == Success(Notice(NoFilesMatched(g.globs))) ==>
              (exists f :: NamePasses(fs, g, f, isMatch))
              && forall f :: NamePasses(fs, g, f, isMatch) ==>
                   IsFileMatch(Read(fs, f), g.includeFileContains, g.excludeFileContains, isMatch) == Success(false)
  {
    NameStageSpec(fs, g, isMatch);
    NoticesDiffer(g.globs);
    var files := NameStage(fs, g, isMatch);
    if |files| > 0 {
      assert files[0] in files;
      var m := ContentMatches(fs, files, g.includeFileContains, g.excludeFileContains, isMatch);
      ContentMatchesSpec(fs, files, g.includeFileContains, g.excludeFileContains, isMatch);
      if m.Success? && |m.value| == 0 {
        forall f | NamePasses(fs, g, f, isMatch)
          ensures IsFileMatch(Read(fs, f), g.includeFileContains, g.excludeFileContains, isMatch) == Success(false)
        {
          assert f in files;
          assert f !in m.value;
        }
      }
    }
  }

  /** An unreadable file aborts the selection only when content patterns are
      given and the file passed the name stage. */
  lemma SelectionFailureCause(fs: FileSystem, g: InputGroup, isMatch: Matcher)
    ensures FindMatchingFiles(fs, g, isMatch).Failure? ==>
              (|g.includeFileContains| > 0 || |g.excludeFileContains| > 0)
              && exists f :: NamePasses(fs, g, f, isMatch) && Read(fs, f).Unreadable?
                             && FindMatchingFiles(fs, g, isMatch).error == Read(fs, f).message
  {
    NameStageSpec(fs, g, isMatch);
    var files := NameStage(fs, g, isMatch);
    ContentMatchesSpec(fs, files, g.includeFileContains, g.excludeFileContains, isMatch);
  }
}
