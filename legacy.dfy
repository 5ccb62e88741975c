/** The older parser of Program.cs (`ParseInputs`), the one `Main` calls. It
    differs from the parser of src/InputOptions.cs in four ways: `--` always
    closes the current group, even an empty one; `--file-instructions`
    leaves its arguments to be scanned again, so they also become globs;
    `--debug`, `--verbose`, `--save-file-output` and `--threads` are unknown;
    and no glob defaulting happens at the end. */
module LegacyParser {
  import opened Wrappers
  import opened Text
  import opened Options
  import GroupParser

  datatype LegacyState = LegacyState(groups: seq<InputGroup>, current: InputGroup)

  datatype LegacyOutcome = Next(next: nat, state: LegacyState) | Stop(message: string)

  /** The tokens that change only the current group. */
  function LegacyGroupStep(args: seq<string>, i: nat, g: InputGroup, platform: Platform): (h: Handled)
    requires i < |args|
    ensures !h.Unhandled?
    ensures h.Consumed? ==> i < h.next <= |args|
  {
    var arg := args[i];
    if arg == "--file-instructions" then
      var instructions := GetInputOptionArgs(args, i + 1);
      if |instructions| == 0 then Rejected(arg + " - Missing file instructions")
      else Consumed(i + 1, g.(fileInstructions := g.fileInstructions + instructions))
    else
      match GroupOption(args, i, g, platform)
      case Unhandled =>
        if IsFlag(arg) then Rejected(arg + " - Invalid argument")
        else Consumed(i + 1, g.(globs := g.globs + [arg]))
      case other => other
  }

  function LegacyStep(args: seq<string>, i: nat, st: LegacyState, platform: Platform): (o: LegacyOutcome)
    requires i < |args|
    ensures o.Next? ==> i < o.next <= |args|
  {
    if args[i] == "--" then Next(i + 1, LegacyState(st.groups + [st.current], EmptyGroup()))
    else
      match LegacyGroupStep(args, i, st.current, platform)
      case Consumed(next, g) => Next(next, st.(current := g))
      case Rejected(e) => Stop(e)
  }

  function LegacyScan(args: seq<string>, i: nat, st: LegacyState, platform: Platform): Result<LegacyState, string>
    requires i <= |args|
    decreases |args| - i
  {
    if i == |args| then Success(st)
    else
      match LegacyStep(args, i, st, platform)
      case Stop(e) => Failure(e)
      case Next(next, st') => LegacyScan(args, next, st', platform)
  }

  /** The last group is kept when it names a glob or a content pattern. */
  function LegacyParse(args: seq<string>, platform: Platform): Result<seq<InputGroup>, string>
  {
    match LegacyScan(args, 0, LegacyState([], EmptyGroup()), platform)
    case Failure(e) => Failure(e)
    case Success(st) => Success(if IsEmpty(st.current) then st.groups else st.groups + [st.current])
  }

  method ParseInputs(args: seq<string>, platform: Platform) returns (r: Result<seq<InputGroup>, string>)
    ensures r == LegacyParse(args, platform)
  {
    var inputGroups: seq<InputGroup> := [];
    var currentGroup := EmptyGroup();
    var i := 0;
    while i < |args|
      invariant i <= |args|
      invariant LegacyScan(args, i, LegacyState(inputGroups, currentGroup), platform)
                == LegacyScan(args, 0, LegacyState([], EmptyGroup()), platform)
      decreases |args| - i
    {
      ghost var st := LegacyState(inputGroups, currentGroup);
      ghost var i0 := i;
      if args[i] == "--" {
        inputGroups := inputGroups + [currentGroup];
        currentGroup := EmptyGroup();
        i := i + 1;
      } else {
        var h := LegacyCurrentGroupOption(args, i, currentGroup, platform);
        match h {
          case Rejected(e) =>
            return Failure(e);
          case Consumed(next, g) =>
            currentGroup := g;
            i := next;
        }
      }
      assert LegacyStep(args, i0, st, platform) == Next(i, LegacyState(inputGroups, currentGroup));
    }
    var groupOk := |currentGroup.globs| > 0 || |currentGroup.includeFileContains| > 0
                   || |currentGroup.excludeFileContains| > 0 || |currentGroup.includeLineContains| > 0
                   || |currentGroup.removeAllLineContains| > 0;
    if groupOk {
      inputGroups := inputGroups + [currentGroup];
    }
    r := Success(inputGroups);
  }

  /** The branches of the scanning loop that update only the current group,
      written out as the loop body; LegacyGroupStep is their specification. */
  method LegacyCurrentGroupOption(args: seq<string>, i: nat, currentGroup: InputGroup, platform: Platform)
    returns (h: Handled)
    requires i < |args|
    ensures h == LegacyGroupStep(args, i, currentGroup, platform)
  {
    var arg := args[i];
    if arg == "--file-instructions" {
      var instructions := GetInputOptionArgs(args, i + 1);
      if |instructions| == 0 {
        return Rejected(arg + " - Missing file instructions");
      }
      h := Consumed(i + 1, currentGroup.(fileInstructions := currentGroup.fileInstructions + instructions));
    } else {
      h := GroupOption(args, i, currentGroup, platform);
      if h.Unhandled? {
        if IsFlag(arg) {
          return Rejected(arg + " - Invalid argument");
        }
        h := Consumed(i + 1, currentGroup.(globs := currentGroup.globs + [arg]));
      }
    }
  }

  // ---------------------------------------------------------------------
  // Properties, and how the two parsers differ

  /** `--` closes the current group whatever it holds. */
  lemma SeparatorAlwaysCloses(args: seq<string>, i: nat, st: LegacyState, platform: Platform)
    requires i < |args| && args[i] == "--"
    ensures LegacyStep(args, i, st, platform) == Next(i + 1, LegacyState(st.groups + [st.current], EmptyGroup()))
  {
  }

  /** A lone `--` gives one empty group here, and an error in the newer
      parser. */
  lemma LoneSeparator(platform: Platform)
    ensures LegacyParse(["--"], platform) == Success([EmptyGroup()])
    ensures GroupParser.Parse(["--"], platform) == Failure("-- - Invalid argument")
  {
    var args := ["--"];
    var st1 := LegacyState([EmptyGroup()], EmptyGroup());
    assert LegacyStep(args, 0, LegacyState([], EmptyGroup()), platform) == Next(1, st1);
    assert LegacyScan(args, 0, LegacyState([], EmptyGroup()), platform) == Success(st1);
    GroupParser.LeadingSeparatorRejected(args, platform);
  }

  /** `--file-instructions` resumes right after itself, so its arguments are
      scanned again: here as globs. The newer parser skips them. */
  lemma InstructionsAlsoGlobs(platform: Platform)
    ensures LegacyParse(["a.json", "--file-instructions", "x"], platform)
            == Success([EmptyGroup().(globs := ["a.json", "x"], fileInstructions := ["x"])])
    ensures GroupParser.Parse(["a.json", "--file-instructions", "x"], platform)
            == Success(GroupParser.InputOptions(false, false, [EmptyGroup().(globs := ["a.json"], fileInstructions := ["x"])]))
  {
    var args := ["a.json", "--file-instructions", "x"];
    var g1 := EmptyGroup().(globs := ["a.json"]);
    var g2 := g1.(fileInstructions := ["x"]);
    var g3 := g2.(globs := ["a.json", "x"]);
    var s0 := LegacyState([], EmptyGroup());
    NotFlag("a.json");
    NotFlag("x");
    LegacyBareTokenIsGlob(args, 0, s0, platform);
    assert EmptyGroup().globs + [args[0]] == ["a.json"];
    assert GetInputOptionArgs(args, 2) == ["x"];
    InstructionsResumeNext(args, 1, s0.(current := g1), platform);
    assert g1.fileInstructions + ["x"] == ["x"];
    LegacyBareTokenIsGlob(args, 2, s0.(current := g2), platform);
    assert g2.globs + [args[2]] == ["a.json", "x"];
    assert LegacyScan(args, 3, s0.(current := g3), platform) == Success(s0.(current := g3));
    assert LegacyScan(args, 2, s0.(current := g2), platform) == Success(s0.(current := g3));
    assert LegacyScan(args, 1, s0.(current := g1), platform) == Success(s0.(current := g3));
    assert LegacyScan(args, 0, s0, platform) == Success(s0.(current := g3));
    assert [] + [g3] == [g3];
    InstructionsSkippedInNewerParser(platform);
  }

  /** A token that is not a flag is a glob of the current group. */
  lemma LegacyBareTokenIsGlob(args: seq<string>, i: nat, st: LegacyState, platform: Platform)
    requires i < |args| && !IsFlag(args[i])
    ensures LegacyStep(args, i, st, platform)
            == Next(i + 1, st.(current := st.current.(globs := st.current.globs + [args[i]])))
  {
    OptionNamesAreFlags();
  }

  /** `--file-instructions` with arguments adds them and resumes at the very
      next token. */
  lemma InstructionsResumeNext(args: seq<string>, i: nat, st: LegacyState, platform: Platform)
    requires i < |args| && args[i] == "--file-instructions" && |GetInputOptionArgs(args, i + 1)| > 0
    ensures LegacyStep(args, i, st, platform)
            == Next(i + 1, st.(current := st.current.(fileInstructions := st.current.fileInstructions
                                                                       + GetInputOptionArgs(args, i + 1))))
  {
  }

  lemma {:induction false} InstructionsSkippedInNewerParser(platform: Platform)
    ensures GroupParser.Parse(["a.json", "--file-instructions", "x"], platform)
            == Success(GroupParser.InputOptions(false, false, [EmptyGroup().(globs := ["a.json"], fileInstructions := ["x"])]))
  {
    var args := ["a.json", "--file-instructions", "x"];
    NotFlag("a.json");
    NotFlag("x");
    assert GetInputOptionArgs(args, 2) == ["x"];
    var g1 := EmptyGroup().(globs := ["a.json"]);
    var g2 := g1.(fileInstructions := ["x"]);
    var t0 := GroupParser.InitialState();
    assert GroupParser.Step(args, 0, t0, platform) == GroupParser.Next(1, t0.(current := g1));
    assert GroupParser.Step(args, 1, t0.(current := g1), platform) == GroupParser.Next(3, t0.(current := g2));
    assert GroupParser.Scan(args, 3, t0.(current := g2), platform) == Success(t0.(current := g2));
    assert GroupParser.Scan(args, 1, t0.(current := g1), platform) == Success(t0.(current := g2));
    assert GroupParser.Scan(args, 0, t0, platform) == Success(t0.(current := g2));
    assert t0.groups + [g2] == [g2];
    var d := GroupParser.DefaultGlobs([g2]);
    assert d[0] == g2;
    assert d == [g2];
  }

  /** The options the newer parser added are unknown here. */
  lemma NewerFlagsUnknown(args: seq<string>, i: nat, st: LegacyState, platform: Platform)
    requires i < |args|
    requires args[i] in ["--debug", "--verbose", "--save-file-output", "--threads"]
    ensures LegacyStep(args, i, st, platform) == Stop(args[i] + " - Invalid argument")
  {
    assert IsFlag(args[i]) by { assert args[i][..2] == "--"; }
  }

  /** No glob defaulting: a group with only a content pattern keeps an
      empty glob list. */
  lemma NoGlobDefault(platform: Platform)
    requires platform.isValidRegex("TODO")
    ensures LegacyParse(["--contains", "TODO"], platform)
            == Success([EmptyGroup().(includeFileContains := ["TODO"], includeLineContains := ["TODO"])])
  {
    var args := ["--contains", "TODO"];
    NotFlag("TODO");
    assert GetInputOptionArgs(args, 1) == ["TODO"];
    var g := EmptyGroup().(includeFileContains := ["TODO"], includeLineContains := ["TODO"]);
    var s0 := LegacyState([], EmptyGroup());
    assert LegacyStep(args, 0, s0, platform) == Next(2, s0.(current := g));
    assert LegacyScan(args, 2, s0.(current := g), platform) == Success(s0.(current := g));
    assert LegacyScan(args, 0, s0, platform) == Success(s0.(current := g));
    assert [] + [g] == [g];
  }
}
