/** The top of Program.cs: `Main` parses the command line with the older
    parser, then walks the groups in order and prints each selected file's
    section, skipping files an earlier group already printed (`processedFiles`).
    What is printed is recorded as a sequence of events. */
module OutputAssembler {
  import opened Wrappers
  import opened Text
  import opened Files
  import opened Matching
  import opened Options
  import opened Extractor
  import opened FileSelector
  import LegacyParser
  import TokenExpander

  /** The external `ai` run that applies one instruction to a text, as
      `apply(instruction, content)`. */
  type Instructor = (string, string) -> string

  /** `instructions.Aggregate(content, ...)`: each instruction applied to the
      result of the previous one. */
  function ApplyFileInstructions(instructions: seq<string>, content: string, apply: Instructor): string
  {
    if |instructions| == 0 then content
    else apply(instructions[|instructions| - 1], ApplyFileInstructions(instructions[..|instructions| - 1], content, apply))
  }

  /** Instructions run in order: the later ones see what the earlier ones
      produced. */
  lemma {:induction false} ApplyFileInstructionsAppend(a: seq<string>, b: seq<string>, content: string, apply: Instructor)
    ensures ApplyFileInstructions(a + b, content, apply)
            == ApplyFileInstructions(b, ApplyFileInstructions(a, content, apply), apply)
  {
    if |b| == 0 {
      assert a + b == a;
    } else {
      var init := b[..|b| - 1];
      assert (a + b)[..|a + b| - 1] == a + init;
      ApplyFileInstructionsAppend(a, init, content, apply);
    }
  }

  lemma ApplyOneInstruction(instruction: string, content: string, apply: Instructor)
    ensures ApplyFileInstructions([instruction], content, apply) == apply(instruction, content)
  {
    assert [instruction][..0] == [];
  }

  /** The printed text of one file: its section, with the group's
      instructions applied when it has any. */
  ghost function FileText(fs: FileSystem, file: string, g: InputGroup, isMatch: Matcher, apply: Instructor): string
  {
    var formatted := FormattedFileContent(file, Read(fs, file), g.includeLineContains, g.lineCountBefore,
                                          g.lineCountAfter, g.lineNumbers, g.removeAllLineContains, isMatch);
    if |g.fileInstructions| > 0 then ApplyFileInstructions(g.fileInstructions, formatted, apply) else formatted
  }

  method PrintFileContent(fs: FileSystem, fileName: string, g: InputGroup, isMatch: Matcher, apply: Instructor)
    returns (text: string)
    ensures text == FileText(fs, fileName, g, isMatch, apply)
  {
    var formatted := GetFormattedFileContent(fileName, Read(fs, fileName), g.includeLineContains, g.lineCountBefore,
                                             g.lineCountAfter, g.lineNumbers, g.removeAllLineContains, isMatch);
    text := if |g.fileInstructions| > 0 then ApplyFileInstructions(g.fileInstructions, formatted, apply) else formatted;
  }

  // ---------------------------------------------------------------------
  // The processed-files loop

  datatype Event = Message(text: string) | FileSection(path: string, text: string)

  datatype RunState = RunState(events: seq<Event>, processed: set<string>)

  /** One selected file: printed unless an earlier group printed it. */
  ghost function VisitFile(st: RunState, file: string, g: InputGroup, fs: FileSystem, isMatch: Matcher,
                           apply: Instructor): RunState
  {
    if file in st.processed then st
    else RunState(st.events + [FileSection(file, FileText(fs, file, g, isMatch, apply))], st.processed + {file})
  }

  ghost function VisitFiles(st: RunState, files: seq<string>, g: InputGroup, fs: FileSystem, isMatch: Matcher,
                            apply: Instructor): RunState
  {
    if |files| == 0 then st
    else VisitFile(VisitFiles(st, files[..|files| - 1], g, fs, isMatch, apply), files[|files| - 1], g, fs, isMatch, apply)
  }

  ghost function VisitGroup(st: RunState, g: InputGroup, fs: FileSystem, isMatch: Matcher, apply: Instructor)
    : Result<RunState, string>
  {
    match FindMatchingFiles(fs, g, isMatch)
    case Failure(e) => Failure(e)
    case Success(Notice(text)) => Success(st.(events := st.events + [Message(text)]))
    case Success(Selected(files)) => Success(VisitFiles(st, files, g, fs, isMatch, apply))
  }

  /** The run over the first `count` groups; a file that cannot be read
      while selecting aborts the run. */
  ghost function VisitGroups(groups: seq<InputGroup>, count: nat, fs: FileSystem, isMatch: Matcher, apply: Instructor)
    : Result<RunState, string>
    requires count <= |groups|
  {
    if count == 0 then Success(RunState([], {}))
    else
      match VisitGroups(groups, count - 1, fs, isMatch, apply)
      case Failure(e) => Failure(e)
      case Success(st) => VisitGroup(st, groups[count - 1], fs, isMatch, apply)
  }

  /** What reaches the console from the first `count` groups: everything,
      or, when a group aborts the run, what the groups before it printed
      (their sections are written as they go). */
  ghost function ConsoleOutput(groups: seq<InputGroup>, count: nat, fs: FileSystem, isMatch: Matcher,
                               apply: Instructor): seq<Event>
    requires count <= |groups|
  {
    if count == 0 then []
    else
      match VisitGroups(groups, count - 1, fs, isMatch, apply)
      case Failure(_) => ConsoleOutput(groups, count - 1, fs, isMatch, apply)
      case Success(st) =>
        match VisitGroup(st, groups[count - 1], fs, isMatch, apply)
        case Failure(_) => st.events
        case Success(st') => st'.events
  }

  /** The outer loop of `Main`. It returns what it printed, and the error
      that aborted it, if any. */
  method ProcessGroups(groups: seq<InputGroup>, fs: FileSystem, isMatch: Matcher, apply: Instructor)
    returns (events: seq<Event>, failure: Option<string>)
    ensures events == ConsoleOutput(groups, |groups|, fs, isMatch, apply)
    ensures failure.None? <==> VisitGroups(groups, |groups|, fs, isMatch, apply).Success?
    ensures failure.None? ==> events == VisitGroups(groups, |groups|, fs, isMatch, apply).value.events
    ensures failure.Some? ==> failure.value == VisitGroups(groups, |groups|, fs, isMatch, apply).error
  {
    events := [];
    var processedFiles: set<string> := {};
    for k := 0 to |groups|
      invariant VisitGroups(groups, k, fs, isMatch, apply) == Success(RunState(events, processedFiles))
    {
      var step := ProcessGroup(events, processedFiles, groups[k], fs, isMatch, apply);
      NextGroup(groups, k, RunState(events, processedFiles), fs, isMatch, apply);
      if step.Failure? {
        FailureStays(groups, k + 1, fs, isMatch, apply);
        return events, Some(step.error);
      }
      events, processedFiles := step.value.events, step.value.processed;
    }
    CompletedRunOutput(groups, |groups|, fs, isMatch, apply);
    failure := None;
  }

  lemma NextGroup(groups: seq<InputGroup>, k: nat, st: RunState, fs: FileSystem, isMatch: Matcher, apply: Instructor)
    requires k < |groups| && VisitGroups(groups, k, fs, isMatch, apply) == Success(st)
    ensures VisitGroups(groups, k + 1, fs, isMatch, apply) == VisitGroup(st, groups[k], fs, isMatch, apply)
    ensures VisitGroup(st, groups[k], fs, isMatch, apply).Failure? ==> ConsoleOutput(groups, k + 1, fs, isMatch, apply) == st.events
  {
  }

  /** One pass of the outer loop of `Main`: select the group's files, then
      print the notice or the files not yet processed. */
  method ProcessGroup(events: seq<Event>, processedFiles: set<string>, group: InputGroup, fs: FileSystem,
                      isMatch: Matcher, apply: Instructor)
    returns (r: Result<RunState, string>)
    ensures r == VisitGroup(RunState(events, processedFiles), group, fs, isMatch, apply)
  {
    var selection := FindMatchingFiles(fs, group, isMatch);
    match selection {
      case Failure(e) =>
        r := Failure(e);
      case Success(Notice(text)) =>
        r := Success(RunState(events + [Message(text)], processedFiles));
      case Success(Selected(files)) =>
        var events', processedFiles' := PrintSelected(events, processedFiles, files, group, fs, isMatch, apply);
        r := Success(RunState(events', processedFiles'));
    }
  }

  /** The inner loop of `Main`: the selected files of one group, each
      printed unless already processed. */
  method PrintSelected(events: seq<Event>, processedFiles: set<string>, files: seq<string>, group: InputGroup,
                       fs: FileSystem, isMatch: Matcher, apply: Instructor)
    returns (events': seq<Event>, processedFiles': set<string>)
    ensures RunState(events', processedFiles') == VisitFiles(RunState(events, processedFiles), files, group, fs, isMatch, apply)
  {
    events', processedFiles' := events, processedFiles;
    for j := 0 to |files|
      invariant VisitFiles(RunState(events, processedFiles), files[..j], group, fs, isMatch, apply)
                == RunState(events', processedFiles')
    {
      assert files[..j + 1][..j] == files[..j];
      var file := files[j];
      if file !in processedFiles' {
        var text := PrintFileContent(fs, file, group, isMatch, apply);
        events' := events' + [FileSection(file, text)];
        processedFiles' := processedFiles' + {file};
      }
    }
    assert files[..|files|] == files;
  }

  lemma {:induction false} FailureStays(groups: seq<InputGroup>, count: nat, fs: FileSystem, isMatch: Matcher,
                                        apply: Instructor)
    requires 0 < count <= |groups| && VisitGroups(groups, count, fs, isMatch, apply).Failure?
    ensures VisitGroups(groups, |groups|, fs, isMatch, apply) == VisitGroups(groups, count, fs, isMatch, apply)
    ensures ConsoleOutput(groups, |groups|, fs, isMatch, apply) == ConsoleOutput(groups, count, fs, isMatch, apply)
    decreases |groups| - count
  {
    if count < |groups| {
      FailureStays(groups, count + 1, fs, isMatch, apply);
    }
  }

  /** A run that aborts has printed exactly the output of the groups before
      the failing one, and reports that group's error. */
  lemma {:induction false} CrashKeepsEarlierOutput(groups: seq<InputGroup>, count: nat, fs: FileSystem,
                                                   isMatch: Matcher, apply: Instructor)
    requires count <= |groups| && VisitGroups(groups, count, fs, isMatch, apply).Failure?
    ensures exists k :: 0 <= k < count && VisitGroups(groups, k, fs, isMatch, apply).Success?
              && VisitGroup(VisitGroups(groups, k, fs, isMatch, apply).value, groups[k], fs, isMatch, apply)
                 == Failure(VisitGroups(groups, count, fs, isMatch, apply).error)
              && ConsoleOutput(groups, count, fs, isMatch, apply) == VisitGroups(groups, k, fs, isMatch, apply).value.events
  {
    if VisitGroups(groups, count - 1, fs, isMatch, apply).Failure? {
      CrashKeepsEarlierOutput(groups, count - 1, fs, isMatch, apply);
    } else {
      assert VisitGroups(groups, count - 1, fs, isMatch, apply).Success?;
    }
  }

  /** A completed run prints all of its events. */
  lemma CompletedRunOutput(groups: seq<InputGroup>, count: nat, fs: FileSystem, isMatch: Matcher, apply: Instructor)
    requires count <= |groups| && VisitGroups(groups, count, fs, isMatch, apply).Success?
    ensures ConsoleOutput(groups, count, fs, isMatch, apply) == VisitGroups(groups, count, fs, isMatch, apply).value.events
  {
  }

  // ---------------------------------------------------------------------
  // At most once

  ghost predicate SectionsDistinct(events: seq<Event>)
  {
    forall a, b :: 0 <= a < b < |events| && events[a].FileSection? && events[b].FileSection? ==>
      events[a].path != events[b].path
  }

  ghost predicate Printed(events: seq<Event>, p: string)
  {
    exists a :: 0 <= a < |events| && events[a].FileSection? && events[a].path == p
  }

  /** The processed set is exactly the set of printed paths, each printed once. */
  ghost predicate Tracks(st: RunState)
  {
    SectionsDistinct(st.events) && forall p :: p in st.processed <==> Printed(st.events, p)
  }

  lemma VisitFileTracks(st: RunState, file: string, g: InputGroup, fs: FileSystem, isMatch: Matcher, apply: Instructor)
    requires Tracks(st)
    ensures Tracks(VisitFile(st, file, g, fs, isMatch, apply))
    ensures VisitFile(st, file, g, fs, isMatch, apply).processed == st.processed + {file}
    ensures st.events <= VisitFile(st, file, g, fs, isMatch, apply).events
  {
    if file !in st.processed {
      var st' := VisitFile(st, file, g, fs, isMatch, apply);
      var n := |st.events|;
      assert st'.events[n].FileSection? && st'.events[n].path == file;
      forall p
        ensures p in st'.processed <==> Printed(st'.events, p)
      {
        if Printed(st'.events, p) {
          var a :| 0 <= a < |st'.events| && st'.events[a].FileSection? && st'.events[a].path == p;
          if a < n {
            assert st.events[a] == st'.events[a];
          }
        }
        if p in st.processed {
          var a :| 0 <= a < |st.events| && st.events[a].FileSection? && st.events[a].path == p;
          assert st'.events[a] == st.events[a];
        }
      }
      forall a, b | 0 <= a < b < |st'.events| && st'.events[a].FileSection? && st'.events[b].FileSection?
        ensures st'.events[a].path != st'.events[b].path
      {
        if b == n {
          assert st'.events[a] == st.events[a];
          assert !Printed(st.events, file);
        } else {
          assert st'.events[a] == st.events[a] && st'.events[b] == st.events[b];
        }
      }
    }
  }

  lemma {:induction false} VisitFilesTracks(st: RunState, files: seq<string>, g: InputGroup, fs: FileSystem,
                                            isMatch: Matcher, apply: Instructor)
    requires Tracks(st)
    ensures Tracks(VisitFiles(st, files, g, fs, isMatch, apply))
    ensures VisitFiles(st, files, g, fs, isMatch, apply).processed == st.processed + set f | f in files
  {
    if |files| > 0 {
      var init := files[..|files| - 1];
      VisitFilesTracks(st, init, g, fs, isMatch, apply);
      VisitFileTracks(VisitFiles(st, init, g, fs, isMatch, apply), files[|files| - 1], g, fs, isMatch, apply);
      assert files == init + [files[|files| - 1]];
      assert (set f | f in files) == (set f | f in init) + {files[|files| - 1]};
    }
  }

  lemma {:induction false} VisitGroupsTracks(groups: seq<InputGroup>, count: nat, fs: FileSystem, isMatch: Matcher,
                                             apply: Instructor)
    requires count <= |groups|
    ensures VisitGroups(groups, count, fs, isMatch, apply).Success? ==>
              Tracks(VisitGroups(groups, count, fs, isMatch, apply).value)
  {
    if count > 0 {
      VisitGroupsTracks(groups, count - 1, fs, isMatch, apply);
      var prev := VisitGroups(groups, count - 1, fs, isMatch, apply);
      if prev.Success? {
        match FindMatchingFiles(fs, groups[count - 1], isMatch)
        case Failure(_) =>
        case Success(Notice(text)) =>
          var st := prev.value;
          var st' := st.(events := st.events + [Message(text)]);
          forall p
            ensures Printed(st'.events, p) <==> Printed(st.events, p)
          {
            if Printed(st'.events, p) {
              var a :| 0 <= a < |st'.events| && st'.events[a].FileSection? && st'.events[a].path == p;
              assert a < |st.events|;
              assert st.events[a] == st'.events[a];
            }
            if Printed(st.events, p) {
              var a :| 0 <= a < |st.events| && st.events[a].FileSection? && st.events[a].path == p;
              assert st'.events[a] == st.events[a];
            }
          }
        case Success(Selected(files)) =>
          VisitFilesTracks(prev.value, files, groups[count - 1], fs, isMatch, apply);
      }
    }
  }

  /** Across all groups, no file is printed twice. */
  lemma EachFilePrintedOnce(groups: seq<InputGroup>, fs: FileSystem, isMatch: Matcher, apply: Instructor)
    ensures VisitGroups(groups, |groups|, fs, isMatch, apply).Success? ==>
              SectionsDistinct(VisitGroups(groups, |groups|, fs, isMatch, apply).value.events)
  {
    VisitGroupsTracks(groups, |groups|, fs, isMatch, apply);
  }

  /** One group only appends output and adds processed files. */
  lemma GroupGrows(st: RunState, g: InputGroup, fs: FileSystem, isMatch: Matcher, apply: Instructor)
    ensures VisitGroup(st, g, fs, isMatch, apply).Success? ==>
              st.events <= VisitGroup(st, g, fs, isMatch, apply).value.events
              && st.processed <= VisitGroup(st, g, fs, isMatch, apply).value.processed
  {
    match FindMatchingFiles(fs, g, isMatch)
    case Failure(_) =>
    case Success(Notice(_)) =>
    case Success(Selected(files)) =>
      VisitFilesGrow(st, files, g, fs, isMatch, apply);
  }

  /** A later group only adds to what earlier groups printed and processed. */
  lemma {:induction false} RunGrows(groups: seq<InputGroup>, c: nat, d: nat, fs: FileSystem, isMatch: Matcher,
                                    apply: Instructor)
    requires c <= d <= |groups| && VisitGroups(groups, d, fs, isMatch, apply).Success?
    ensures VisitGroups(groups, c, fs, isMatch, apply).Success?
    ensures VisitGroups(groups, c, fs, isMatch, apply).value.events <= VisitGroups(groups, d, fs, isMatch, apply).value.events
    ensures VisitGroups(groups, c, fs, isMatch, apply).value.processed <= VisitGroups(groups, d, fs, isMatch, apply).value.processed
  {
    if c < d {
      var prev := VisitGroups(groups, d - 1, fs, isMatch, apply);
      assert prev.Success?;
      GroupGrows(prev.value, groups[d - 1], fs, isMatch, apply);
      RunGrows(groups, c, d - 1, fs, isMatch, apply);
    }
  }

  lemma {:induction false} VisitFilesGrow(st: RunState, files: seq<string>, g: InputGroup, fs: FileSystem,
                                          isMatch: Matcher, apply: Instructor)
    ensures st.events <= VisitFiles(st, files, g, fs, isMatch, apply).events
    ensures VisitFiles(st, files, g, fs, isMatch, apply).processed == st.processed + set f | f in files
  {
    if |files| > 0 {
      var init := files[..|files| - 1];
      VisitFilesGrow(st, init, g, fs, isMatch, apply);
      assert files == init + [files[|files| - 1]];
      assert (set f | f in files) == (set f | f in init) + {files[|files| - 1]};
    }
  }

  lemma {:induction false} SelectedStep(groups: seq<InputGroup>, k: nat, files: seq<string>, fs: FileSystem,
                                        isMatch: Matcher, apply: Instructor)
    requires k < |groups| && VisitGroups(groups, k, fs, isMatch, apply).Success?
    requires FindMatchingFiles(fs, groups[k], isMatch) == Success(Selected(files))
    ensures VisitGroups(groups, k + 1, fs, isMatch, apply)
            == Success(VisitFiles(VisitGroups(groups, k, fs, isMatch, apply).value, files, groups[k], fs, isMatch, apply))
  {
  }

  /** Every file a group selects is printed by the end of the run. */
  lemma {:induction false} EverySelectedFilePrinted(groups: seq<InputGroup>, k: nat, files: seq<string>, fs: FileSystem,
                                 isMatch: Matcher, apply: Instructor)
    requires k < |groups| && VisitGroups(groups, |groups|, fs, isMatch, apply).Success?
    requires FindMatchingFiles(fs, groups[k], isMatch) == Success(Selected(files))
    ensures forall f :: f in files ==> Printed(VisitGroups(groups, |groups|, fs, isMatch, apply).value.events, f)
  {
    var n := |groups|;
    RunGrows(groups, k + 1, n, fs, isMatch, apply);
    RunGrows(groups, k, k + 1, fs, isMatch, apply);
    var pre := VisitGroups(groups, k, fs, isMatch, apply).value;
    var mid := VisitGroups(groups, k + 1, fs, isMatch, apply).value;
    var final := VisitGroups(groups, n, fs, isMatch, apply).value;
    SelectedStep(groups, k, files, fs, isMatch, apply);
    assert mid == VisitFiles(pre, files, groups[k], fs, isMatch, apply);
    VisitFilesGrow(pre, files, groups[k], fs, isMatch, apply);
    assert (set f | f in files) <= mid.processed;
    assert mid.processed <= final.processed;
    VisitGroupsTracks(groups, n, fs, isMatch, apply);
    ProcessedArePrinted(final, files);
  }

  lemma ProcessedArePrinted(st: RunState, files: seq<string>)
    requires Tracks(st) && (set f | f in files) <= st.processed
    ensures forall f :: f in files ==> Printed(st.events, f)
  {
  }

  // ---------------------------------------------------------------------
  // Formatting comes from the first group that selects a file

  /** Group `g` selects the file `p`. */
  ghost predicate Selects(fs: FileSystem, g: InputGroup, p: string, isMatch: Matcher)
  {
    var r := FindMatchingFiles(fs, g, isMatch);
    r.Success? && r.value.Selected? && p in r.value.files
  }

  /** Group `k` is the first of `groups` to select `p`. */
  ghost predicate FirstSelector(groups: seq<InputGroup>, k: int, p: string, fs: FileSystem, isMatch: Matcher)
  {
    0 <= k < |groups| && Selects(fs, groups[k], p, isMatch)
    && forall j :: 0 <= j < k ==> !Selects(fs, groups[j], p, isMatch)
  }

  /** The processed set is the set of files some earlier group selected. */
  lemma {:induction false} ProcessedAreSelected(groups: seq<InputGroup>, count: nat, fs: FileSystem, isMatch: Matcher,
                                                apply: Instructor)
    requires count <= |groups|
    ensures VisitGroups(groups, count, fs, isMatch, apply).Success? ==>
              forall p :: p in VisitGroups(groups, count, fs, isMatch, apply).value.processed <==>
                exists j :: 0 <= j < count && Selects(fs, groups[j], p, isMatch)
  {
    if count > 0 && VisitGroups(groups, count, fs, isMatch, apply).Success? {
      ProcessedAreSelected(groups, count - 1, fs, isMatch, apply);
      var st := VisitGroups(groups, count - 1, fs, isMatch, apply).value;
      var g := groups[count - 1];
      var st' := VisitGroups(groups, count, fs, isMatch, apply).value;
      match FindMatchingFiles(fs, g, isMatch)
      case Success(Notice(_)) =>
        assert st'.processed == st.processed;
        forall p ensures !Selects(fs, g, p, isMatch) { }
        ProcessedStep(groups, count, st.processed, st'.processed, fs, isMatch);
      case Success(Selected(files)) =>
        VisitFilesGrow(st, files, g, fs, isMatch, apply);
        assert forall p :: p in st'.processed <==> p in st.processed || Selects(fs, g, p, isMatch);
        ProcessedStep(groups, count, st.processed, st'.processed, fs, isMatch);
    }
  }

  lemma ProcessedStep(groups: seq<InputGroup>, count: nat, before: set<string>, after: set<string>, fs: FileSystem,
                      isMatch: Matcher)
    requires 0 < count <= |groups|
    requires forall p :: p in before <==> exists j :: 0 <= j < count - 1 && Selects(fs, groups[j], p, isMatch)
    requires forall p :: p in after <==> p in before || Selects(fs, groups[count - 1], p, isMatch)
    ensures forall p :: p in after <==> exists j :: 0 <= j < count && Selects(fs, groups[j], p, isMatch)
  {
    forall p | exists j :: 0 <= j < count && Selects(fs, groups[j], p, isMatch)
      ensures p in after
    {
      var j :| 0 <= j < count && Selects(fs, groups[j], p, isMatch);
      if j < count - 1 {
        assert p in before;
      }
    }
  }

  /** The sections one group adds are for its own files not printed before,
      rendered with its own options. */
  lemma {:induction false} VisitFilesNew(st: RunState, files: seq<string>, g: InputGroup, fs: FileSystem,
                                         isMatch: Matcher, apply: Instructor)
    ensures var st' := VisitFiles(st, files, g, fs, isMatch, apply);
            st.events <= st'.events
            && forall a :: |st.events| <= a < |st'.events| ==>
                 st'.events[a].FileSection? && st'.events[a].path in files && st'.events[a].path !in st.processed
                 && st'.events[a].text == FileText(fs, st'.events[a].path, g, isMatch, apply)
  {
    if |files| > 0 {
      var init := files[..|files| - 1];
      var last := files[|files| - 1];
      VisitFilesNew(st, init, g, fs, isMatch, apply);
      VisitFilesGrow(st, init, g, fs, isMatch, apply);
      var st1 := VisitFiles(st, init, g, fs, isMatch, apply);
      var st2 := VisitFiles(st, files, g, fs, isMatch, apply);
      assert st2 == VisitFile(st1, last, g, fs, isMatch, apply);
      assert forall f :: f in init ==> f in files;
      assert forall a :: 0 <= a < |st1.events| ==> st2.events[a] == st1.events[a];
    }
  }

  ghost predicate SectionsFromFirst(groups: seq<InputGroup>, count: nat, events: seq<Event>, fs: FileSystem,
                                    isMatch: Matcher, apply: Instructor)
  {
    forall a :: 0 <= a < |events| && events[a].FileSection? ==>
      exists k :: 0 <= k < count && FirstSelector(groups, k, events[a].path, fs, isMatch)
                  && events[a].text == FileText(fs, events[a].path, groups[k], isMatch, apply)
  }

  lemma {:induction false} SectionsFromFirstGroup(groups: seq<InputGroup>, count: nat, fs: FileSystem,
                                                  isMatch: Matcher, apply: Instructor)
    requires count <= |groups|
    ensures VisitGroups(groups, count, fs, isMatch, apply).Success? ==>
              SectionsFromFirst(groups, count, VisitGroups(groups, count, fs, isMatch, apply).value.events, fs, isMatch, apply)
  {
    if count > 0 && VisitGroups(groups, count, fs, isMatch, apply).Success? {
      SectionsFromFirstGroup(groups, count - 1, fs, isMatch, apply);
      ProcessedAreSelected(groups, count - 1, fs, isMatch, apply);
      var st := VisitGroups(groups, count - 1, fs, isMatch, apply).value;
      var st' := VisitGroups(groups, count, fs, isMatch, apply).value;
      var g := groups[count - 1];
      match FindMatchingFiles(fs, g, isMatch)
      case Success(Notice(text)) =>
        assert st'.events == st.events + [Message(text)];
        OldSectionsKept(groups, count, st.events, st'.events, fs, isMatch, apply);
      case Success(Selected(files)) =>
        assert st' == VisitFiles(st, files, g, fs, isMatch, apply);
        NewSectionsFromFirst(groups, count, st, files, fs, isMatch, apply);
        OldSectionsKept(groups, count, st.events, st'.events, fs, isMatch, apply);
    }
  }

  lemma NewSectionsFromFirst(groups: seq<InputGroup>, count: nat, st: RunState, files: seq<string>, fs: FileSystem,
                             isMatch: Matcher, apply: Instructor)
    requires 0 < count <= |groups|
    requires FindMatchingFiles(fs, groups[count - 1], isMatch) == Success(Selected(files))
    requires forall p :: p in st.processed <==> exists j :: 0 <= j < count - 1 && Selects(fs, groups[j], p, isMatch)
    ensures var st' := VisitFiles(st, files, groups[count - 1], fs, isMatch, apply);
            st.events <= st'.events
            && forall a :: |st.events| <= a < |st'.events| && st'.events[a].FileSection? ==>
                 FirstSelector(groups, count - 1, st'.events[a].path, fs, isMatch)
                 && st'.events[a].text == FileText(fs, st'.events[a].path, groups[count - 1], isMatch, apply)
  {
    var g := groups[count - 1];
    var st' := VisitFiles(st, files, g, fs, isMatch, apply);
    VisitFilesNew(st, files, g, fs, isMatch, apply);
    forall a | |st.events| <= a < |st'.events| && st'.events[a].FileSection?
      ensures FirstSelector(groups, count - 1, st'.events[a].path, fs, isMatch)
    {
      var p := st'.events[a].path;
      assert Selects(fs, g, p, isMatch);
      assert p !in st.processed;
    }
  }

  lemma OldSectionsKept(groups: seq<InputGroup>, count: nat, events: seq<Event>, events': seq<Event>, fs: FileSystem,
                        isMatch: Matcher, apply: Instructor)
    requires 0 < count && SectionsFromFirst(groups, count - 1, events, fs, isMatch, apply) && events <= events'
    requires forall a :: |events| <= a < |events'| && events'[a].FileSection? ==>
               FirstSelector(groups, count - 1, events'[a].path, fs, isMatch)
               && events'[a].text == FileText(fs, events'[a].path, groups[count - 1], isMatch, apply)
    ensures SectionsFromFirst(groups, count, events', fs, isMatch, apply)
  {
    forall a | 0 <= a < |events'| && events'[a].FileSection?
      ensures exists k :: 0 <= k < count && FirstSelector(groups, k, events'[a].path, fs, isMatch)
                          && events'[a].text == FileText(fs, events'[a].path, groups[k], isMatch, apply)
    {
      if a < |events| {
        assert events'[a] == events[a];
      }
    }
  }

  /** A file several groups select is printed once (EachFilePrintedOnce),
      using the options and instructions of the first group that selects
      it. */
  lemma FirstGroupFormats(groups: seq<InputGroup>, fs: FileSystem, isMatch: Matcher, apply: Instructor)
    ensures var r := VisitGroups(groups, |groups|, fs, isMatch, apply);
            r.Success? ==>
              forall a, k :: 0 <= a < |r.value.events| && r.value.events[a].FileSection?
                             && FirstSelector(groups, k, r.value.events[a].path, fs, isMatch) ==>
                r.value.events[a].text == FileText(fs, r.value.events[a].path, groups[k], isMatch, apply)
  {
    SectionsFromFirstGroup(groups, |groups|, fs, isMatch, apply);
    var r := VisitGroups(groups, |groups|, fs, isMatch, apply);
    if r.Success? {
      forall a, k | 0 <= a < |r.value.events| && r.value.events[a].FileSection?
                    && FirstSelector(groups, k, r.value.events[a].path, fs, isMatch)
        ensures r.value.events[a].text == FileText(fs, r.value.events[a].path, groups[k], isMatch, apply)
      {
        var p := r.value.events[a].path;
        var k' :| 0 <= k' < |groups| && FirstSelector(groups, k', p, fs, isMatch)
                  && r.value.events[a].text == FileText(fs, p, groups[k'], isMatch, apply);
        FirstSelectorUnique(groups, k, k', p, fs, isMatch);
      }
    }
  }

  lemma FirstSelectorUnique(groups: seq<InputGroup>, k: int, k': int, p: string, fs: FileSystem, isMatch: Matcher)
    requires FirstSelector(groups, k, p, fs, isMatch) && FirstSelector(groups, k', p, fs, isMatch)
    ensures k == k'
  {
  }

  // ---------------------------------------------------------------------
  // Main

  datatype MainResult =
    | Crashed(message: string, printed: seq<Event>)  // an exception other than an input error escapes
    | InputError(message: string)    // banner, then the message and two blank lines
    | Usage                          // banner, then the usage text
    | Ran(events: seq<Event>)

  /** The exit code `Main` returns; a crash leaves it to the runtime. */
  function ExitCode(m: MainResult): Option<int>
  {
    match m
    case Crashed(_, _) => None
    case InputError(_) => Some(2)
    case Usage => Some(1)
    case Ran(_) => Some(0)
  }

  ghost function MainSpec(stdinLines: seq<string>, args: seq<string>, fs: FileSystem, platform: Platform,
                          isMatch: Matcher, apply: Instructor, fuel: nat): MainResult
  {
    match TokenExpander.ExpandedInputsFromCommandLine(stdinLines, args, fs, fuel)
    case Failure(e) => if e.DepthExceeded? then Crashed("expansion too deep", []) else Crashed(e.message, [])
    case Success(inputs) =>
      match LegacyParser.LegacyParse(inputs, platform)
      case Failure(e) => InputError(e)
      case Success(groups) =>
        if |groups| == 0 then Usage
        else
          match VisitGroups(groups, |groups|, fs, isMatch, apply)
          case Failure(m) => Crashed(m, ConsoleOutput(groups, |groups|, fs, isMatch, apply))
          case Success(st) => Ran(st.events)
  }

  method RunMain(stdinLines: seq<string>, args: seq<string>, fs: FileSystem, platform: Platform,
                 isMatch: Matcher, apply: Instructor, fuel: nat)
    returns (m: MainResult)
    ensures m == MainSpec(stdinLines, args, fs, platform, isMatch, apply, fuel)
  {
    var allInputs := TokenExpander.ExpandedInputsFromCommandLine(stdinLines, args, fs, fuel);
    if allInputs.Failure? {
      return if allInputs.error.DepthExceeded? then Crashed("expansion too deep", []) else Crashed(allInputs.error.message, []);
    }
    var parsed := LegacyParser.ParseInputs(allInputs.value, platform);
    if parsed.Failure? {
      return InputError(parsed.error);
    }
    var groups := parsed.value;
    if |groups| == 0 {
      return Usage;
    }
    var events, failure := ProcessGroups(groups, fs, isMatch, apply);
    m := if failure.None? then Ran(events) else Crashed(failure.value, events);
  }

  /** Exit code 2 exactly for an input error, 1 exactly when no group was
      given, 0 otherwise. */
  lemma ExitCodes(stdinLines: seq<string>, args: seq<string>, fs: FileSystem, platform: Platform,
                  isMatch: Matcher, apply: Instructor, fuel: nat)
    ensures var m := MainSpec(stdinLines, args, fs, platform, isMatch, apply, fuel);
            var inputs := TokenExpander.ExpandedInputsFromCommandLine(stdinLines, args, fs, fuel);
            (ExitCode(m) == Some(2) <==> inputs.Success? && LegacyParser.LegacyParse(inputs.value, platform).Failure?)
            && (ExitCode(m) == Some(1) <==> inputs.Success? && LegacyParser.LegacyParse(inputs.value, platform) == Success([]))
            && (ExitCode(m) == Some(0) <==>
                  inputs.Success? && LegacyParser.LegacyParse(inputs.value, platform).Success?
                  && var groups := LegacyParser.LegacyParse(inputs.value, platform).value;
                     |groups| > 0 && VisitGroups(groups, |groups|, fs, isMatch, apply).Success?)
  {
  }

  /** With the older parser a lone `--` is an empty group, which finds no
      file: `mdcc --` prints the empty pattern notice and exits with 0. */
  lemma LoneSeparatorFindsNothing(fs: FileSystem, platform: Platform, isMatch: Matcher, apply: Instructor, fuel: nat)
    ensures MainSpec([], ["--"], fs, platform, isMatch, apply, fuel) == Ran([Message(NoFilesFound([]))])
  {
    TokenExpander.LiteralTokensKept(["--"], fs, fuel);
    assert [] + ["--"] == ["--"];
    LegacyParser.LoneSeparator(platform);
    var g := EmptyGroup();
    assert FilesFromGlobs(fs, g.globs) == [];
    assert NameStage(fs, g, isMatch) == [];
    assert FindMatchingFiles(fs, g, isMatch) == Success(Notice(NoFilesFound([])));
    assert VisitGroups([g], 0, fs, isMatch, apply) == Success(RunState([], {}));
    assert [] + [Message(NoFilesFound([]))] == [Message(NoFilesFound([]))];
    assert VisitGroup(RunState([], {}), g, fs, isMatch, apply) == Success(RunState([Message(NoFilesFound([]))], {}));
    assert VisitGroups([g], 1, fs, isMatch, apply) == Success(RunState([Message(NoFilesFound([]))], {}));
  }
}
