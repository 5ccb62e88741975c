/** The command-line parser of src/InputOptions.cs (`ParseInputOptions`): a
    left-to-right scan that fills the current group, closes it at `--`, and
    at the end keeps the last group and gives every glob-less group the glob
    `**`. */
module GroupParser {
  import opened Wrappers
  import opened Text
  import opened Options

  datatype InputOptions = InputOptions(debug: bool, verbose: bool, groups: seq<InputGroup>)

  /** The scanner's state between two tokens. */
  datatype ScanState = ScanState(debug: bool, verbose: bool, groups: seq<InputGroup>, current: InputGroup)

  function InitialState(): ScanState
  {
    ScanState(false, false, [], EmptyGroup())
  }

  datatype Outcome = Next(next: nat, state: ScanState) | Stop(message: string)

  /** The tokens that change only the current group: where scanning resumes
      and the new group, or the error the token raises. */
  function GroupStep(args: seq<string>, i: nat, g: InputGroup, platform: Platform): (h: Handled)
    requires i < |args|
    ensures !h.Unhandled?
    ensures h.Consumed? ==> i < h.next <= |args|
  {
    var arg := args[i];
    if arg == "--file-instructions" then
      var instructions := GetInputOptionArgs(args, i + 1);
      if |instructions| == 0 then Rejected(arg + " - Missing file instructions")
      else Consumed(i + 1 + |instructions|, g.(fileInstructions := g.fileInstructions + instructions))
    else if arg == "--save-file-output" then
      var optionArgs := GetInputOptionArgs(args, i + 1);
      var saveFileOutput := if |optionArgs| > 0 then optionArgs[|optionArgs| - 1] else "{filePath}/{fileBase}.md";
      Consumed(i + 1 + |optionArgs|, g.(saveFileOutput := Some(saveFileOutput)))
    else if arg == "--threads" then
      match ValidateInt(arg, NextToken(args, i), "thread count", platform)
      case Failure(e) => Rejected(e)
      case Success(count) => Consumed(AfterNextToken(args, i), g.(threadCount := Some(count)))
    else
      match GroupOption(args, i, g, platform)
      case Unhandled =>
        if IsFlag(arg) then Rejected(arg + " - Invalid argument")
        else Consumed(i + 1, g.(globs := g.globs + [arg]))
      case other => other
  }

  /** What the token at `args[i]` does: where scanning resumes and the new
      state, or the error it raises. The separator closes the current group
      only when that group is not empty; otherwise it falls through to the
      unknown-flag error. */
  function Step(args: seq<string>, i: nat, st: ScanState, platform: Platform): (o: Outcome)
    requires i < |args|
    ensures o.Next? ==> i < o.next <= |args|
  {
    var arg := args[i];
    if arg == "--" && !IsEmpty(st.current) then
      Next(i + 1, st.(groups := st.groups + [st.current], current := EmptyGroup()))
    else if arg == "--debug" then Next(i + 1, st.(debug := true))
    else if arg == "--verbose" then Next(i + 1, st.(verbose := true))
    else
      match GroupStep(args, i, st.current, platform)
      case Consumed(next, g) => Next(next, st.(current := g))
      case Rejected(e) => Stop(e)
  }

  /** The scan from `args[i]` to the end, or the first error. */
  function Scan(args: seq<string>, i: nat, st: ScanState, platform: Platform): Result<ScanState, string>
    requires i <= |args|
    decreases |args| - i
  {
    if i == |args| then Success(st)
    else
      match Step(args, i, st, platform)
      case Stop(e) => Failure(e)
      case Next(next, st') => Scan(args, next, st', platform)
  }

  /** `group.Globs.Add("**")` for every group without globs. */
  function DefaultGlobs(groups: seq<InputGroup>): (r: seq<InputGroup>)
    ensures |r| == |groups|
  {
    seq(|groups|, k requires 0 <= k < |groups| =>
      if |groups[k].globs| == 0 then groups[k].(globs := ["**"]) else groups[k])
  }

  /** The last group is kept when it is not empty, then globs are defaulted. */
  function Finish(st: ScanState): InputOptions
  {
    var groups := if IsEmpty(st.current) then st.groups else st.groups + [st.current];
    InputOptions(st.debug, st.verbose, DefaultGlobs(groups))
  }

  function Parse(args: seq<string>, platform: Platform): Result<InputOptions, string>
  {
    match Scan(args, 0, InitialState(), platform)
    case Failure(e) => Failure(e)
    case Success(st) => Success(Finish(st))
  }

  method ParseInputOptions(args: seq<string>, platform: Platform) returns (r: Result<InputOptions, string>)
    ensures r == Parse(args, platform)
  {
    var debug := false;
    var verbose := false;
    var groups: seq<InputGroup> := [];
    var currentGroup := EmptyGroup();
    var i := 0;
    while i < |args|
      invariant i <= |args|
      invariant Scan(args, i, ScanState(debug, verbose, groups, currentGroup), platform)
                == Scan(args, 0, InitialState(), platform)
      decreases |args| - i
    {
      ghost var st := ScanState(debug, verbose, groups, currentGroup);
      ghost var i0 := i;
      var arg := args[i];
      if arg == "--" && !IsEmpty(currentGroup) {
        groups := groups + [currentGroup];
        currentGroup := EmptyGroup();
        i := i + 1;
      } else if arg == "--debug" {
        debug := true;
        i := i + 1;
      } else if arg == "--verbose" {
        verbose := true;
        i := i + 1;
      } else {
        var h := CurrentGroupOption(args, i, currentGroup, platform);
        match h {
          case Rejected(e) =>
            return Failure(e);
          case Consumed(next, g) =>
            currentGroup := g;
            i := next;
        }
      }
      assert Step(args, i0, st, platform) == Next(i, ScanState(debug, verbose, groups, currentGroup));
    }
    if !IsEmpty(currentGroup) {
      groups := groups + [currentGroup];
    }
    groups := AddDefaultGlobs(groups);
    r := Success(InputOptions(debug, verbose, groups));
  }

  /** The branches of the scanning loop that update only the current group,
      written out as the loop body; GroupStep is their specification. */
  method CurrentGroupOption(args: seq<string>, i: nat, currentGroup: InputGroup, platform: Platform) returns (h: Handled)
    requires i < |args|
    ensures h == GroupStep(args, i, currentGroup, platform)
  {
    var arg := args[i];
    if arg == "--file-instructions" {
      var instructions := GetInputOptionArgs(args, i + 1);
      if |instructions| == 0 {
        return Rejected(arg + " - Missing file instructions");
      }
      h := Consumed(i + 1 + |instructions|,
                    currentGroup.(fileInstructions := currentGroup.fileInstructions + instructions));
    } else if arg == "--save-file-output" {
      var optionArgs := GetInputOptionArgs(args, i + 1);
      var saveFileOutput := if |optionArgs| > 0 then optionArgs[|optionArgs| - 1] else "{filePath}/{fileBase}.md";
      h := Consumed(i + 1 + |optionArgs|, currentGroup.(saveFileOutput := Some(saveFileOutput)));
    } else if arg == "--threads" {
      var count := ValidateInt(arg, NextToken(args, i), "thread count", platform);
      if count.Failure? {
        return Rejected(count.error);
      }
      h := Consumed(AfterNextToken(args, i), currentGroup.(threadCount := Some(count.value)));
    } else {
      h := GroupOption(args, i, currentGroup, platform);
      if h.Unhandled? {
        if IsFlag(arg) {
          return Rejected(arg + " - Invalid argument");
        }
        h := Consumed(i + 1, currentGroup.(globs := currentGroup.globs + [arg]));
      }
    }
  }

  /** The final loop of the parser: `**` for every group without globs. */
  method AddDefaultGlobs(groups: seq<InputGroup>) returns (r: seq<InputGroup>)
    ensures r == DefaultGlobs(groups)
  {
    r := groups;
    for k := 0 to |r|
      invariant |r| == |groups|
      invariant r[..k] == DefaultGlobs(groups)[..k] && r[k..] == groups[k..]
    {
      if |r[k].globs| == 0 {
        r := r[k := r[k].(globs := ["**"])];
      }
    }
    assert r == r[..|r|];
  }

  // ---------------------------------------------------------------------
  // Properties

  ghost predicate AllNonEmpty(groups: seq<InputGroup>)
  {
    forall k :: 0 <= k < |groups| ==> !IsEmpty(groups[k])
  }

  lemma {:induction false} ScanKeepsGroupsNonEmpty(args: seq<string>, i: nat, st: ScanState, platform: Platform)
    requires i <= |args| && AllNonEmpty(st.groups)
    ensures Scan(args, i, st, platform).Success? ==> AllNonEmpty(Scan(args, i, st, platform).value.groups)
    decreases |args| - i
  {
    if i < |args| {
      match Step(args, i, st, platform)
      case Stop(_) =>
      case Next(next, st') =>
        ScanKeepsGroupsNonEmpty(args, next, st', platform);
    }
  }

  /** Every group the parser returns names a glob or a content pattern, and
      has at least one glob: `**` when it named none. */
  lemma ParsedGroupsWellFormed(args: seq<string>, platform: Platform)
    ensures Parse(args, platform).Success? ==>
              forall k :: 0 <= k < |Parse(args, platform).value.groups| ==>
                var g := Parse(args, platform).value.groups[k];
                !IsEmpty(g) && |g.globs| > 0
  {
    ScanKeepsGroupsNonEmpty(args, 0, InitialState(), platform);
  }

  /** Defaulting touches only the globs of glob-less groups. */
  lemma DefaultGlobsOnlyFillsGaps(groups: seq<InputGroup>, k: nat)
    requires k < |groups|
    ensures DefaultGlobs(groups)[k].globs == if |groups[k].globs| == 0 then ["**"] else groups[k].globs
    ensures DefaultGlobs(groups)[k] == groups[k].(globs := DefaultGlobs(groups)[k].globs)
  {
  }

  /** A separator that would close an empty group is an invalid argument, so
      a command line cannot open with `--` or repeat it. */
  lemma SeparatorOnEmptyGroupRejected(args: seq<string>, i: nat, st: ScanState, platform: Platform)
    requires i < |args| && args[i] == "--" && IsEmpty(st.current)
    ensures Step(args, i, st, platform) == Stop("-- - Invalid argument")
  {
    SeparatorIsUnknownFlag(args[i]);
    FlagFallsThrough(args, i, st, platform);
  }

  lemma SeparatorIsUnknownFlag(arg: string)
    requires arg == "--"
    ensures IsFlag(arg) && !IsKnownFlag(arg)
    ensures arg + " - Invalid argument" == "-- - Invalid argument"
  {
    assert arg[..2] == "--";
  }

  /** A flag no branch of the scan recognises stops it with its own text. */
  lemma FlagFallsThrough(args: seq<string>, i: nat, st: ScanState, platform: Platform)
    requires i < |args| && IsFlag(args[i]) && !IsKnownFlag(args[i])
    requires args[i] != "--" || IsEmpty(st.current)
    ensures Step(args, i, st, platform) == Stop(args[i] + " - Invalid argument")
  {
  }

  lemma LeadingSeparatorRejected(args: seq<string>, platform: Platform)
    requires |args| > 0 && args[0] == "--"
    ensures Parse(args, platform) == Failure("-- - Invalid argument")
  {
    SeparatorOnEmptyGroupRejected(args, 0, InitialState(), platform);
  }

  predicate IsKnownFlag(arg: string)
  {
    IsGroupOption(arg) || arg == "--debug" || arg == "--verbose" || arg == "--file-instructions"
    || arg == "--save-file-output" || arg == "--threads"
  }

  /** Any other token starting with `--` stops the parse. */
  lemma UnknownFlagRejected(args: seq<string>, i: nat, st: ScanState, platform: Platform)
    requires i < |args| && IsFlag(args[i]) && !IsKnownFlag(args[i]) && args[i] != "--"
    ensures Step(args, i, st, platform) == Stop(args[i] + " - Invalid argument")
  {
  }

  /** Any token not starting with `--` is a glob of the current group. */
  lemma BareTokenIsGlob(args: seq<string>, i: nat, st: ScanState, platform: Platform)
    requires i < |args| && !IsFlag(args[i])
    ensures Step(args, i, st, platform)
            == Next(i + 1, st.(current := st.current.(globs := st.current.globs + [args[i]])))
  {
    OptionNamesAreFlags();
  }

  /** `--save-file-output` keeps the last of its arguments, or the default
      template when there is none, and resumes at the next flag. */
  lemma SaveFileOutputLast(args: seq<string>, i: nat, st: ScanState, platform: Platform)
    requires i < |args| && args[i] == "--save-file-output"
    ensures var optionArgs := GetInputOptionArgs(args, i + 1);
            Step(args, i, st, platform)
            == Next(i + 1 + |optionArgs|,
                    st.(current := st.current.(saveFileOutput :=
                          Some(if |optionArgs| > 0 then args[i + |optionArgs|] else "{filePath}/{fileBase}.md"))))
  {
  }

  /** `--file-instructions` with nothing after it but a flag or the end of
      the command line stops the parse. */
  lemma InstructionsMissingRejected(args: seq<string>, i: nat, st: ScanState, platform: Platform)
    requires i < |args| && args[i] == "--file-instructions"
    requires i + 1 == |args| || IsFlag(args[i + 1])
    ensures Step(args, i, st, platform) == Stop(args[i] + " - Missing file instructions")
  {
    var instructions := GetInputOptionArgs(args, i + 1);
    assert |instructions| == 0 by {
      if i + 1 < |args| { assert IsFlag(args[i + 1]); }
    }
  }

  /** Otherwise `--file-instructions` appends its whole argument run to the
      group's instructions and scanning resumes at the next flag. */
  lemma InstructionsConsumeRun(args: seq<string>, i: nat, st: ScanState, platform: Platform)
    requires i + 1 < |args| && args[i] == "--file-instructions" && !IsFlag(args[i + 1])
    ensures var instructions := GetInputOptionArgs(args, i + 1);
            |instructions| > 0
            && Step(args, i, st, platform)
               == Next(i + 1 + |instructions|,
                       st.(current := st.current.(fileInstructions := st.current.fileInstructions + instructions)))
            && (i + 1 + |instructions| == |args| || IsFlag(args[i + 1 + |instructions|]))
  {
    var instructions := GetInputOptionArgs(args, i + 1);
    assert instructions[0] == args[i + 1];
  }

  /** `a.cs -- b.cs` gives two groups of one glob each. */
  lemma TwoGroups(platform: Platform)
    ensures Parse(["a.cs", "--", "b.cs"], platform)
            == Success(InputOptions(false, false, [EmptyGroup().(globs := ["a.cs"]), EmptyGroup().(globs := ["b.cs"])]))
  {
    var args := ["a.cs", "--", "b.cs"];
    NotFlag("a.cs");
    NotFlag("b.cs");
    BareTokenIsGlob(args, 0, InitialState(), platform);
    var st1 := InitialState().(current := EmptyGroup().(globs := ["a.cs"]));
    var st2 := st1.(groups := [st1.current], current := EmptyGroup());
    assert Step(args, 1, st1, platform) == Next(2, st2);
    BareTokenIsGlob(args, 2, st2, platform);
    var st3 := st2.(current := EmptyGroup().(globs := ["b.cs"]));
    assert Scan(args, 3, st3, platform) == Success(st3);
    assert Step(args, 0, InitialState(), platform) == Next(1, st1);
    assert Step(args, 2, st2, platform) == Next(3, st3);
    assert Scan(args, 2, st2, platform) == Scan(args, 3, st3, platform);
    assert Scan(args, 1, st1, platform) == Scan(args, 2, st2, platform);
    assert Scan(args, 0, InitialState(), platform) == Scan(args, 1, st1, platform);
    assert st2.groups + [st3.current] == [st1.current, st3.current];
    var d := DefaultGlobs([st1.current, st3.current]);
    assert d[0] == st1.current && d[1] == st3.current;
    assert d == [st1.current, st3.current];
  }

  /** A content pattern alone makes a group, which then searches every file. */
  lemma PatternOnlySearchesEverything(platform: Platform)
    requires platform.isValidRegex("TODO")
    ensures Parse(["--contains", "TODO"], platform)
            == Success(InputOptions(false, false,
                 [EmptyGroup().(globs := ["**"], includeFileContains := ["TODO"], includeLineContains := ["TODO"])]))
  {
    var args := ["--contains", "TODO"];
    NotFlag("TODO");
    assert GetInputOptionArgs(args, 1) == ["TODO"];
    var g := EmptyGroup().(includeFileContains := ["TODO"], includeLineContains := ["TODO"]);
    var st1 := InitialState().(current := g);
    assert Step(args, 0, InitialState(), platform) == Next(2, st1);
    assert Scan(args, 2, st1, platform) == Success(st1);
    assert Scan(args, 0, InitialState(), platform) == Success(st1);
    assert InitialState().groups + [g] == [g];
    var d := DefaultGlobs([g]);
    assert d[0] == g.(globs := ["**"]);
    assert d == [g.(globs := ["**"])];
  }

  /** Options without globs or content patterns make no group at all. */
  lemma OptionsAloneMakeNoGroup(platform: Platform)
    ensures Parse(["--line-numbers"], platform) == Success(InputOptions(false, false, []))
  {
  }
}
