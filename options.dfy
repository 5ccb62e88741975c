/** The option data of a command line and the validators both parsers share:
    the argument run of a variable-arity option (`GetInputOptionArgs`),
    regular-expression and file-pattern validation, integer validation, and
    the options that only touch the current group. A regular expression is
    kept as its (validated) pattern text. */
module Options {
  import opened Wrappers
  import opened Text

  /** One group of a command line: which files, and how to render them. */
  datatype InputGroup = InputGroup(
    globs: seq<string>,
    excludeGlobs: seq<string>,
    excludeFileNamePatterns: seq<string>,
    includeFileContains: seq<string>,
    excludeFileContains: seq<string>,
    includeLineContains: seq<string>,
    lineCountBefore: int,
    lineCountAfter: int,
    lineNumbers: bool,
    removeAllLineContains: seq<string>,
    fileInstructions: seq<string>,
    saveFileOutput: Option<string>,
    threadCount: Option<int>)

  /** `new InputGroup()` */
  function EmptyGroup(): InputGroup
  {
    InputGroup([], [], [], [], [], [], 0, 0, false, [], [], None, None)
  }

  /** A group that names no file glob and no content pattern. Exclusions,
      context counts, numbering and instructions alone do not make a group. */
  predicate IsEmpty(g: InputGroup)
  {
    |g.globs| == 0 && |g.includeFileContains| == 0 && |g.excludeFileContains| == 0
    && |g.includeLineContains| == 0 && |g.removeAllLineContains| == 0
  }

  /** What the tool borrows from the platform: whether it runs on Windows,
      whether `new Regex(p)` accepts a pattern, and `int.TryParse`. */
  datatype Platform = Platform(isWindows: bool, isValidRegex: string -> bool, tryParseInt: string -> Option<int>)

  predicate IsFlag(s: string)
  {
    StartsWith(s, "--")
  }

  /** Every option name starts with `--`, so a token that is no flag is no
      option. */
  lemma OptionNamesAreFlags()
    ensures IsFlag("--") && IsFlag("--debug") && IsFlag("--verbose") && IsFlag("--file-instructions")
            && IsFlag("--save-file-output") && IsFlag("--threads") && IsFlag("--exclude")
    ensures IsFlag("--contains") && IsFlag("--file-contains") && IsFlag("--file-not-contains")
            && IsFlag("--line-contains") && IsFlag("--remove-all-lines") && IsFlag("--lines")
            && IsFlag("--lines-before") && IsFlag("--lines-after") && IsFlag("--line-numbers")
  {
    assert "--debug"[..2] == "--" && "--verbose"[..2] == "--" && "--file-instructions"[..2] == "--";
    assert "--save-file-output"[..2] == "--" && "--threads"[..2] == "--" && "--exclude"[..2] == "--";
    assert "--contains"[..2] == "--" && "--file-contains"[..2] == "--" && "--file-not-contains"[..2] == "--";
    assert "--line-contains"[..2] == "--" && "--remove-all-lines"[..2] == "--" && "--lines"[..2] == "--";
    assert "--lines-before"[..2] == "--" && "--lines-after"[..2] == "--" && "--line-numbers"[..2] == "--";
  }

  /** A token that does not open with '-' is no flag. */
  lemma NotFlag(s: string)
    requires |s| > 0 && s[0] != '-'
    ensures !IsFlag(s)
  {
    if |s| >= 2 {
      assert s[..2][0] == s[0];
      assert "--"[0] == '-';
    }
  }

  /** The arguments of a variable-arity option: the tokens from `startAt` up
      to, not including, the next token that starts with `--`. */
  function GetInputOptionArgs(args: seq<string>, startAt: nat): (r: seq<string>)
    decreases |args| - startAt
    ensures startAt <= |args| ==> startAt + |r| <= |args| && r == args[startAt..startAt + |r|]
    ensures startAt >= |args| ==> r == []
    ensures forall k :: 0 <= k < |r| ==> !IsFlag(r[k])
    ensures startAt + |r| >= |args| || IsFlag(args[startAt + |r|])
  {
    if startAt >= |args| || IsFlag(args[startAt]) then []
    else [args[startAt]] + GetInputOptionArgs(args, startAt + 1)
  }

  /** The index of the first pattern the regex engine refuses, if any. */
  function FirstInvalid(patterns: seq<string>, isValid: string -> bool): (r: Option<nat>)
    ensures r.None? <==> forall k :: 0 <= k < |patterns| ==> isValid(patterns[k])
    ensures r.Some? ==> r.value < |patterns| && !isValid(patterns[r.value])
                        && forall k :: 0 <= k < r.value ==> isValid(patterns[k])
  {
    if |patterns| == 0 then None
    else if !isValid(patterns[0]) then Some(0)
    else match FirstInvalid(patterns[1..], isValid)
      case None => None
      case Some(k) => Some(k + 1)
  }

  /** The patterns of a regex option, all compiled, or the error for the
      missing list or for the first pattern that does not compile. */
  function ValidateRegExPatterns(arg: string, patterns: seq<string>, platform: Platform): (r: Result<seq<string>, string>)
    ensures |patterns| == 0 ==> r == Failure(arg + " - Missing regular expression pattern")
    ensures r.Success? <==> |patterns| > 0 && forall k :: 0 <= k < |patterns| ==> platform.isValidRegex(patterns[k])
    ensures r.Success? ==> r.value == patterns
    ensures |patterns| > 0 && r.Failure? ==>
              exists k :: 0 <= k < |patterns| && !platform.isValidRegex(patterns[k])
                          && (forall j :: 0 <= j < k ==> platform.isValidRegex(patterns[j]))
                          && r.error == arg + " " + patterns[k] + " - Invalid regular expression pattern"
  {
    if |patterns| == 0 then Failure(arg + " - Missing regular expression pattern")
    else match FirstInvalid(patterns, platform.isValidRegex)
      case None => Success(patterns)
      case Some(k) => Failure(arg + " " + patterns[k] + " - Invalid regular expression pattern")
  }

  // ---------------------------------------------------------------------
  // File-name patterns of --exclude

  /** The three `Replace` calls of the source, in their order. */
  function Rewrite(pattern: string): string
  {
    ReplaceChar(ReplaceChar(ReplaceChar(pattern, '.', "\\."), '*', ".*"), '?', ".")
  }

  function FilePatternRegex(pattern: string, isWindows: bool): string
  {
    (if isWindows then "(?i)^" else "^") + Rewrite(pattern) + "$"
  }

  /** The intended reading of one pattern character. */
  function TranslateChar(c: char): string
  {
    if c == '.' then "\\." else if c == '*' then ".*" else if c == '?' then "." else [c]
  }

  function Translate(pattern: string): string
  {
    if |pattern| == 0 then "" else TranslateChar(pattern[0]) + Translate(pattern[1..])
  }

  lemma RewriteChar(c: char)
    ensures Rewrite([c]) == TranslateChar(c)
  {
    assert [c][1..] == [];
    if c == '.' {
      assert ReplaceChar([c], '.', "\\.") == "\\.";
      assert ReplaceChar("\\.", '*', ".*") == "\\.";
      assert ReplaceChar("\\.", '?', ".") == "\\.";
    } else if c == '*' {
      assert ReplaceChar([c], '.', "\\.") == [c];
      assert ReplaceChar([c], '*', ".*") == ".*";
      assert ReplaceChar(".*", '?', ".") == ".*";
    } else if c == '?' {
      assert ReplaceChar([c], '.', "\\.") == [c];
      assert ReplaceChar([c], '*', ".*") == [c];
      assert ReplaceChar([c], '?', ".") == ".";
    } else {
      assert ReplaceChar([c], '.', "\\.") == [c];
      assert ReplaceChar([c], '*', ".*") == [c];
      assert ReplaceChar([c], '?', ".") == [c];
    }
  }

  lemma RewriteAppend(a: string, b: string)
    ensures Rewrite(a + b) == Rewrite(a) + Rewrite(b)
  {
    ReplaceCharAppend(a, b, '.', "\\.");
    ReplaceCharAppend(ReplaceChar(a, '.', "\\."), ReplaceChar(b, '.', "\\."), '*', ".*");
    ReplaceCharAppend(ReplaceChar(ReplaceChar(a, '.', "\\."), '*', ".*"),
                      ReplaceChar(ReplaceChar(b, '.', "\\."), '*', ".*"), '?', ".");
  }

  /** The chain of replacements never rewrites what an earlier replacement
      produced: it is the same as translating each character on its own, an
      escaped dot for '.', any run for '*' and any one character for '?'. */
  lemma {:induction false} RewriteIsTranslate(pattern: string)
    ensures Rewrite(pattern) == Translate(pattern)
  {
    if |pattern| > 0 {
      RewriteIsTranslate(pattern[1..]);
      assert pattern == [pattern[0]] + pattern[1..];
      RewriteAppend([pattern[0]], pattern[1..]);
      RewriteChar(pattern[0]);
    }
  }

  /** A file-name pattern becomes an anchored regular expression, matched
      case-insensitively on Windows; an empty pattern or one whose regular
      expression does not compile is an error. */
  function ValidateFilePatternToRegExPattern(arg: string, pattern: string, platform: Platform): (r: Result<string, string>)
    ensures pattern == "" ==> r == Failure(arg + " - Missing file pattern")
    ensures pattern != "" && !platform.isValidRegex(FilePatternRegex(pattern, platform.isWindows)) ==>
              r == Failure(arg + " " + pattern + " - Invalid file pattern")
    ensures r.Success? ==>
              r.value == (if platform.isWindows then "(?i)^" else "^") + Translate(pattern) + "$"
              && platform.isValidRegex(r.value)
  {
    RewriteIsTranslate(pattern);
    if pattern == "" then Failure(arg + " - Missing file pattern")
    else
      var regexPattern := FilePatternRegex(pattern, platform.isWindows);
      if platform.isValidRegex(regexPattern) then Success(regexPattern)
      else Failure(arg + " " + pattern + " - Invalid file pattern")
  }

  /** A pattern naming a directory (holding '/' or '\') is a glob; any other
      is matched against file names. */
  predicate HasSeparator(x: string)
  {
    '/' in x || '\\' in x
  }

  function WithSeparator(patterns: seq<string>): (r: seq<string>)
    ensures forall k :: 0 <= k < |r| ==> HasSeparator(r[k])
  {
    if |patterns| == 0 then []
    else (if HasSeparator(patterns[0]) then [patterns[0]] else []) + WithSeparator(patterns[1..])
  }

  function WithoutSeparator(patterns: seq<string>): (r: seq<string>)
    ensures forall k :: 0 <= k < |r| ==> !HasSeparator(r[k])
  {
    if |patterns| == 0 then []
    else (if HasSeparator(patterns[0]) then [] else [patterns[0]]) + WithoutSeparator(patterns[1..])
  }

  /** `--exclude` splits its arguments into two lists that together hold
      every argument exactly once. */
  lemma {:induction false} ExcludePartition(patterns: seq<string>)
    ensures multiset(WithSeparator(patterns)) + multiset(WithoutSeparator(patterns)) == multiset(patterns)
  {
    if |patterns| > 0 {
      var p := patterns[0];
      var rest := patterns[1..];
      ExcludePartition(rest);
      assert multiset(patterns) == multiset([p]) + multiset(rest) by {
        assert patterns == [p] + rest;
      }
      if HasSeparator(p) {
        assert WithSeparator(patterns) == [p] + WithSeparator(rest);
        assert WithoutSeparator(patterns) == WithoutSeparator(rest);
      } else {
        assert WithSeparator(patterns) == WithSeparator(rest);
        assert WithoutSeparator(patterns) == [p] + WithoutSeparator(rest);
      }
    }
  }

  /** The file-name regexes of the patterns without separator, in order, or
      the error of the first one that fails. */
  function FileNameRegexes(arg: string, patterns: seq<string>, platform: Platform): (r: Result<seq<string>, string>)
    ensures r.Success? ==>
              |r.value| == |patterns|
              && forall k :: 0 <= k < |patterns| ==>
                   ValidateFilePatternToRegExPattern(arg, patterns[k], platform) == Success(r.value[k])
    ensures r.Failure? ==>
              exists k :: 0 <= k < |patterns|
                          && ValidateFilePatternToRegExPattern(arg, patterns[k], platform) == Failure(r.error)
                          && forall j :: 0 <= j < k ==> ValidateFilePatternToRegExPattern(arg, patterns[j], platform).Success?
  {
    if |patterns| == 0 then Success([])
    else
      match ValidateFilePatternToRegExPattern(arg, patterns[0], platform)
      case Failure(e) => Failure(e)
      case Success(first) =>
        match FileNameRegexes(arg, patterns[1..], platform)
        case Failure(e) => Failure(e)
        case Success(rest) => Success([first] + rest)
  }

  // ---------------------------------------------------------------------
  // Integers

  /** A count argument: missing (no next token, or an empty one), not an
      integer, or its value. */
  function ValidateInt(arg: string, countStr: Option<string>, argDescription: string, platform: Platform): (r: Result<int, string>)
    ensures (countStr.None? || countStr.value == "") ==> r == Failure(arg + " - Missing " + argDescription)
    ensures countStr.Some? && countStr.value != "" && platform.tryParseInt(countStr.value).None? ==>
              r == Failure(arg + " " + countStr.value + " - Invalid " + argDescription)
    ensures r.Success? ==> countStr.Some? && platform.tryParseInt(countStr.value) == Some(r.value)
  {
    if countStr.None? || countStr.value == "" then Failure(arg + " - Missing " + argDescription)
    else match platform.tryParseInt(countStr.value)
      case None => Failure(arg + " " + countStr.value + " - Invalid " + argDescription)
      case Some(count) => Success(count)
  }

  function ValidateLineCount(arg: string, countStr: Option<string>, platform: Platform): (r: Result<int, string>)
    ensures (countStr.None? || countStr.value == "") ==> r == Failure(arg + " - Missing line count")
    ensures countStr.Some? && countStr.value != "" && platform.tryParseInt(countStr.value).None? ==>
              r == Failure(arg + " " + countStr.value + " - Invalid line count")
    ensures countStr.Some? && countStr.value != "" && platform.tryParseInt(countStr.value).Some? ==>
              r == Success(platform.tryParseInt(countStr.value).value)
  {
    assert arg + " - Missing " + "line count" == arg + " - Missing line count";
    assert countStr.Some? ==>
             arg + " " + countStr.value + " - Invalid " + "line count" == arg + " " + countStr.value + " - Invalid line count";
    ValidateInt(arg, countStr, "line count", platform)
  }

  /** `i + 1 < args.Count() ? args.ElementAt(++i) : null`: the token after
      the option, whatever it is, flags included. */
  function NextToken(args: seq<string>, i: nat): Option<string>
  {
    if i + 1 < |args| then Some(args[i + 1]) else None
  }

  /** Where scanning resumes after a single-value option. */
  function AfterNextToken(args: seq<string>, i: nat): nat
  {
    if i + 1 < |args| then i + 2 else i + 1
  }

  // ---------------------------------------------------------------------
  // Options that only touch the current group (the same in both parsers)

  datatype Handled =
    | Unhandled
    | Consumed(next: nat, group: InputGroup)
    | Rejected(message: string)

  /** `arg` is one of the options GroupOption handles. */
  predicate IsGroupOption(arg: string)
  {
    arg == "--contains" || arg == "--file-contains" || arg == "--file-not-contains" || arg == "--line-contains"
    || arg == "--remove-all-lines" || arg == "--lines" || arg == "--lines-before" || arg == "--lines-after"
    || arg == "--line-numbers" || arg == "--exclude"
  }

  /** The regex option `arg` with its patterns, added to the group lists the
      option feeds. */
  function AddPatterns(arg: string, g: InputGroup, ps: seq<string>): InputGroup
  {
    if arg == "--contains" then g.(includeFileContains := g.includeFileContains + ps,
                                   includeLineContains := g.includeLineContains + ps)
    else if arg == "--file-contains" then g.(includeFileContains := g.includeFileContains + ps)
    else if arg == "--file-not-contains" then g.(excludeFileContains := g.excludeFileContains + ps)
    else if arg == "--line-contains" then g.(includeLineContains := g.includeLineContains + ps)
    else g.(removeAllLineContains := g.removeAllLineContains + ps)
  }

  /** The option at `args[i]` applied to the group `g`: where scanning
      resumes and the new group, or the error the option raises. */
  function GroupOption(args: seq<string>, i: nat, g: InputGroup, platform: Platform): (h: Handled)
    requires i < |args|
    ensures h.Unhandled? <==> !IsGroupOption(args[i])
    ensures h.Consumed? ==> i < h.next <= |args|
  {
    var arg := args[i];
    if arg == "--contains" || arg == "--file-contains" || arg == "--file-not-contains" || arg == "--line-contains"
       || arg == "--remove-all-lines" then
      var patterns := GetInputOptionArgs(args, i + 1);
      match ValidateRegExPatterns(arg, patterns, platform)
      case Failure(e) => Rejected(e)
      case Success(asRegExs) => Consumed(i + 1 + |patterns|, AddPatterns(arg, g, asRegExs))
    else if arg == "--lines" || arg == "--lines-before" || arg == "--lines-after" then
      match ValidateLineCount(arg, NextToken(args, i), platform)
      case Failure(e) => Rejected(e)
      case Success(count) =>
        var next := AfterNextToken(args, i);
        if arg == "--lines" then Consumed(next, g.(lineCountBefore := count, lineCountAfter := count))
        else if arg == "--lines-before" then Consumed(next, g.(lineCountBefore := count))
        else Consumed(next, g.(lineCountAfter := count))
    else if arg == "--line-numbers" then
      Consumed(i + 1, g.(lineNumbers := true))
    else if arg == "--exclude" then
      var patterns := GetInputOptionArgs(args, i + 1);
      if |patterns| == 0 then Rejected(arg + " - Missing pattern")
      else
        match FileNameRegexes(arg, WithoutSeparator(patterns), platform)
        case Failure(e) => Rejected(e)
        case Success(asRegExs) =>
          Consumed(i + 1 + |patterns|, g.(excludeFileNamePatterns := g.excludeFileNamePatterns + asRegExs,
                                          excludeGlobs := g.excludeGlobs + WithSeparator(patterns)))
    else Unhandled
  }

  // ---------------------------------------------------------------------
  // Properties of the group options

  predicate IsPatternOption(arg: string)
  {
    arg == "--contains" || arg == "--file-contains" || arg == "--file-not-contains" || arg == "--line-contains"
    || arg == "--remove-all-lines" || arg == "--exclude"
  }

  /** A variable-arity option consumes exactly its argument run, so the next
      token scanned is a flag or the end of the command line. */
  lemma PatternOptionStopsAtFlag(args: seq<string>, i: nat, g: InputGroup, platform: Platform)
    requires i < |args| && IsPatternOption(args[i])
    ensures GroupOption(args, i, g, platform).Consumed? ==>
              GroupOption(args, i, g, platform).next == i + 1 + |GetInputOptionArgs(args, i + 1)|
              && (GroupOption(args, i, g, platform).next == |args| || IsFlag(args[GroupOption(args, i, g, platform).next]))
  {
  }

  /** A regex option with no pattern after it is rejected with the missing
      pattern message; `--exclude` has its own message. */
  lemma MissingPatternRejected(args: seq<string>, i: nat, g: InputGroup, platform: Platform)
    requires i < |args| && IsPatternOption(args[i])
    requires i + 1 == |args| || IsFlag(args[i + 1])
    ensures GroupOption(args, i, g, platform)
            == Rejected(args[i] + (if args[i] == "--exclude" then " - Missing pattern"
                                   else " - Missing regular expression pattern"))
  {
    assert GetInputOptionArgs(args, i + 1) == [];
  }

  /** `--lines N` sets both context counts to N and consumes N, even when N
      starts with `--`. */
  lemma LinesSetsBoth(args: seq<string>, i: nat, g: InputGroup, platform: Platform, n: int)
    requires i + 1 < |args| && args[i] == "--lines" && args[i + 1] != ""
    requires platform.tryParseInt(args[i + 1]) == Some(n)
    ensures GroupOption(args, i, g, platform) == Consumed(i + 2, g.(lineCountBefore := n, lineCountAfter := n))
  {
  }

  /** `--lines-before N` sets only the count before, and consumes N. */
  lemma LinesBeforeOnly(args: seq<string>, i: nat, g: InputGroup, platform: Platform, n: int)
    requires i + 1 < |args| && args[i] == "--lines-before" && args[i + 1] != ""
    requires platform.tryParseInt(args[i + 1]) == Some(n)
    ensures GroupOption(args, i, g, platform) == Consumed(i + 2, g.(lineCountBefore := n))
  {
  }

  /** `--lines-after N` sets only the count after, and consumes N. */
  lemma LinesAfterOnly(args: seq<string>, i: nat, g: InputGroup, platform: Platform, n: int)
    requires i + 1 < |args| && args[i] == "--lines-after" && args[i + 1] != ""
    requires platform.tryParseInt(args[i + 1]) == Some(n)
    ensures GroupOption(args, i, g, platform) == Consumed(i + 2, g.(lineCountAfter := n))
  {
  }

  /** `--file-contains` extends only the file include list. */
  lemma FileContainsOwnList(args: seq<string>, i: nat, g: InputGroup, platform: Platform)
    requires i < |args| && args[i] == "--file-contains"
    ensures GroupOption(args, i, g, platform).Consumed? ==>
              GroupOption(args, i, g, platform).group
              == g.(includeFileContains := g.includeFileContains + GetInputOptionArgs(args, i + 1))
  {
  }

  /** `--file-not-contains` extends only the file exclude list. */
  lemma FileNotContainsOwnList(args: seq<string>, i: nat, g: InputGroup, platform: Platform)
    requires i < |args| && args[i] == "--file-not-contains"
    ensures GroupOption(args, i, g, platform).Consumed? ==>
              GroupOption(args, i, g, platform).group
              == g.(excludeFileContains := g.excludeFileContains + GetInputOptionArgs(args, i + 1))
  {
  }

  /** `--line-contains` extends only the line include list. */
  lemma LineContainsOwnList(args: seq<string>, i: nat, g: InputGroup, platform: Platform)
    requires i < |args| && args[i] == "--line-contains"
    ensures GroupOption(args, i, g, platform).Consumed? ==>
              GroupOption(args, i, g, platform).group
              == g.(includeLineContains := g.includeLineContains + GetInputOptionArgs(args, i + 1))
  {
  }

  /** `--remove-all-lines` extends only the list of lines to remove. */
  lemma RemoveAllLinesOwnList(args: seq<string>, i: nat, g: InputGroup, platform: Platform)
    requires i < |args| && args[i] == "--remove-all-lines"
    ensures GroupOption(args, i, g, platform).Consumed? ==>
              GroupOption(args, i, g, platform).group
              == g.(removeAllLineContains := g.removeAllLineContains + GetInputOptionArgs(args, i + 1))
  {
  }

  /** `--contains` feeds both the file and the line include lists. */
  lemma ContainsFeedsBoth(args: seq<string>, i: nat, g: InputGroup, platform: Platform)
    requires i < |args| && args[i] == "--contains"
    ensures GroupOption(args, i, g, platform).Consumed? ==>
              var h := GroupOption(args, i, g, platform);
              var ps := GetInputOptionArgs(args, i + 1);
              h.group.includeFileContains == g.includeFileContains + ps
              && h.group.includeLineContains == g.includeLineContains + ps
              && h.group.globs == g.globs
  {
  }

  /** `--exclude` sends every argument with a separator to the exclude globs
      and turns every other into a file-name regex, keeping their order. */
  lemma ExcludeSplitsArguments(args: seq<string>, i: nat, g: InputGroup, platform: Platform)
    requires i < |args| && args[i] == "--exclude"
    ensures GroupOption(args, i, g, platform).Consumed? ==>
              var h := GroupOption(args, i, g, platform);
              var ps := GetInputOptionArgs(args, i + 1);
              h.group.excludeGlobs == g.excludeGlobs + WithSeparator(ps)
              && |h.group.excludeFileNamePatterns| == |g.excludeFileNamePatterns| + |WithoutSeparator(ps)|
              && forall k :: 0 <= k < |WithoutSeparator(ps)| ==>
                   h.group.excludeFileNamePatterns[|g.excludeFileNamePatterns| + k]
                   == (if platform.isWindows then "(?i)^" else "^") + Translate(WithoutSeparator(ps)[k]) + "$"
  {
    var ps := GetInputOptionArgs(args, i + 1);
    var h := GroupOption(args, i, g, platform);
    ExcludeConsumes(args, i, g, platform);
    if h.Consumed? {
      var w := WithoutSeparator(ps);
      var rs := FileNameRegexes(args[i], w, platform);
      forall k | 0 <= k < |w|
        ensures h.group.excludeFileNamePatterns[|g.excludeFileNamePatterns| + k]
                == (if platform.isWindows then "(?i)^" else "^") + Translate(w[k]) + "$"
      {
        assert ValidateFilePatternToRegExPattern(args[i], w[k], platform) == Success(rs.value[k]);
      }
    }
  }

  lemma ExcludeConsumes(args: seq<string>, i: nat, g: InputGroup, platform: Platform)
    requires i < |args| && args[i] == "--exclude"
    ensures var ps := GetInputOptionArgs(args, i + 1);
            var rs := FileNameRegexes(args[i], WithoutSeparator(ps), platform);
            GroupOption(args, i, g, platform).Consumed? ==>
              rs.Success?
              && GroupOption(args, i, g, platform).group
                 == g.(excludeFileNamePatterns := g.excludeFileNamePatterns + rs.value,
                       excludeGlobs := g.excludeGlobs + WithSeparator(ps))
  {
  }
}
