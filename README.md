# mdcc — Markdown Context Creator, modelled in Dafny

mdcc is a command-line tool. It turns a set of files into one Markdown
document meant as context for a language model. Its arguments do three
things:

- They name files by glob, split into groups by `--`.
- They filter files by name and by content.
- They filter the lines of each file by regular expression, with optional
  context lines and line numbers.

Each selected file becomes a section: a `## <path>` heading, then the
(filtered) text inside a code fence. A Markdown file gets a fence longer
than any backtick run in its text. An optional step sends each section
through an external `ai` command with the group's instructions.

This project models the tool's core:

- **Token expansion.** `@file` stands for the file's text. `@@file` stands
  for its lines, each expanded again.
- **Two argument parsers.**
  - `ParseInputs` in Program.cs is the older parser, and the one `Main` uses.
  - `ParseInputOptions` in src/InputOptions.cs is the newer one. It adds
    `--debug`, `--verbose`, `--save-file-output` and `--threads`, and gives
    a default glob to any group without one.
- **Per-group file selection.**
- **Section formatting**, including the line-window selector.
- **The fence-length computation.**
- **The processed-files loop of `Main`** and its exit codes.

The outside world enters as values:

- `Files.FileSystem` fixes three things: what reading each path yields (its
  bytes and UTF-8 text, or the error message), glob resolution, and
  `Path.GetFileName`.
- `Options.Platform` gives whether the system is Windows, whether a string
  is a valid .NET regular expression, and what `int.TryParse` returns.
- A `Matching.Matcher` `(pattern, text) -> bool` stands for `Regex.IsMatch`.
- An `OutputAssembler.Instructor` stands for one run of the `ai` process.

The loops of the source that build up state are Dafny methods with loop
invariants: the streak loop of `GetMaxBacktickCharSequence`
(`Fence.GetMaxBacktickCharSequence`), the three loops of `GetFilteredContent`
(`LineWindow.MatchedLineIndices`, `LineWindow.LinesToInclude`,
`LineWindow.RenderIndices`), the scanning loops of both parsers
(`GroupParser.ParseInputOptions`, `LegacyParser.ParseInputs`), the `**` loop
(`GroupParser.AddDefaultGlobs`) and the two loops of `Main`
(`OutputAssembler.ProcessGroups`, `OutputAssembler.PrintSelected`). Each such method is
proved equal to a specification function. The source's `yield return` loops
(`GetInputOptionArgs`, `FilesFromGlobs`, `ExpandedInput`,
`ExpandedInputsFromCommandLine`) and its LINQ queries (`Distinct`, `Where`,
`Aggregate`) produce values without keeping state, and are recursive
functions. The lemmas state their
properties in terms of those functions. An exception becomes the `Failure`
of a `Result`, with the source's message text. What `Main` prints is a
sequence of events. Each event stands for one `Console.WriteLine` of a group
notice or of a file section.

Files, in import order:

- `wrappers.dfy`: Option, Result.
- `text.dfy`: Split, Join, decimal formatting, character replacement.
- `files.dfy`: the file-system value.
- `matching.dfy`: `IsLineMatch`, `IsFileMatch`.
- `fence.dfy`: `GetMaxBacktickCharSequence`.
- `window.dfy`: `GetFilteredContent`.
- `extractor.dfy`: `GetFormattedFileContent`.
- `options.dfy`: the option helpers both parsers share.
- `parser.dfy`: `ParseInputOptions`.
- `legacy.dfy`: the older `ParseInputs`.
- `expand.dfy`: `ExpandedInput`.
- `selection.dfy`: `FindMatchingFiles`.
- `assembler.dfy`: `PrintFileContent`, the loop of `Main`, and the exit codes.

Where the two parsers differ, the model follows each one's own code.
In particular, the newer parser's `--` branch applies only when the current
group is non-empty (src/InputOptions.cs:107). A `--` after an empty group
(at the start, or twice in a row) therefore falls through to the
unknown-flag branch and is rejected as `-- - Invalid argument`. A "skip"
reading of that line would say otherwise; the model follows the code
(`GroupParser.SeparatorOnEmptyGroupRejected`).

## Model

| member | source | states |
|---|---|---|
| Text.JoinSplit | Program.cs:561-562 | joining the pieces of `Split(s, c)` with `c` gives back `s` |
| Text.SplitJoin | Program.cs:561-562 | splitting a join of separator-free pieces gives back the pieces |
| Fence.GetMaxBacktickCharSequence | Program.cs:721-743 | the streak loop returns FenceLength: one more than the longest backtick run, at least 3 |
| Fence.LongestRunBounds | Program.cs:726-740 | every run of consecutive backticks is at most the recorded maximum |
| Fence.LongestRunAttained | Program.cs:726-740 | the recorded maximum is the length of an actual run |
| Fence.FenceExceedsEveryRun | Program.cs:742 | the fence has at least 3 backticks and is longer than every backtick run; it is 3 or exactly one more than the longest run |
| Matching.AllMatch | Program.cs:386 | true iff every pattern matches the text |
| Matching.AnyMatch | Program.cs:395 | true iff some pattern matches the text |
| Matching.IsLineMatch | Program.cs:392-398 | true iff every include pattern matches the line and no remove pattern does; an empty include list accepts every line |
| Matching.IsFileMatch | Program.cs:380-390 | with no content pattern, true without reading the file; otherwise an unreadable file fails with its message, and a readable one passes iff all include patterns and no exclude pattern match its text |
| LineWindow.SeedsSpec | Program.cs:579-586 | the seed indices are ascending, inside the file, and exactly the lines passing IsLineMatch; a removable line never seeds |
| LineWindow.MatchedLineIndices | Program.cs:576-586 | the seeding loop returns exactly the seed sequence |
| LineWindow.LinesToInclude | Program.cs:596-616 | the set holds exactly the indices within some seed's window: the seed, up to `before` lines above and up to `after` lines below, clipped to the file |
| LineWindow.CoveredStep | Program.cs:598-616 | adding one seed adds exactly that seed's window |
| LineWindow.WindowIsClippedRange | Program.cs:604-615 | with non-negative counts a seed's window is the range `[s - before, s + after]` clipped to the file |
| LineWindow.SortAscending | Program.cs:619 | the ordered list is strictly ascending with the same members as the set |
| LineWindow.FinalIndicesSpec | Program.cs:596-619 | the final indices ascend without repeats, stay inside the file, include every seed, and are exactly the lines in some seed's window |
| LineWindow.RenderIndices | Program.cs:622-648 | the rendering loop with `previousIndex` produces exactly the Rendered segments |
| LineWindow.AddInt32 | Program.cs:628 | the C# `int` sum: in the 32-bit range, equal to the true sum modulo 2^32, and the true sum whenever that fits |
| LineWindow.ContextRequestedPlain | Program.cs:628 | when the sum of the counts fits in an `int`, separators are asked for exactly when it is positive |
| LineWindow.NegativeCountsWrapToContext | Program.cs:628 | the counts -2147483648 and -1 sum to 2147483647, so they ask for separators |
| LineWindow.RenderedWithout | Program.cs:622-648 | leave out the separators and the output is one entry per kept line, in ascending order of line |
| LineWindow.RenderedOccurrences | Program.cs:622-648 | one separator per break in the index sequence when context was requested (the 32-bit sum of the two counts is positive), none otherwise |
| LineWindow.RenderedShape | Program.cs:622-648 | leave out the separators and the output is one entry per kept line in ascending order; the number of separators is the number of breaks in the index sequence when context was requested, else 0 |
| LineWindow.SeparatorsPlaced | Program.cs:622-648 | with numbering, the entry of the k-th kept index sits after the k earlier entries and the separators so far, and a separator stands right before it exactly when the index is not the previous one plus 1 and the 32-bit sum of the two counts is positive |
| LineWindow.NumberedEntries | Program.cs:636-641 | with numbering, each index gives exactly one entry, which begins with the 1-based number and a colon |
| LineWindow.SeedEntry | Program.cs:633-645 | a seed line always appears verbatim (without numbering) or as `n: line` (with numbering) |
| LineWindow.GetFilteredContent | Program.cs:573-652 | the method returns FilteredContent: empty when nothing seeds, else the rendered segments joined by newlines |
| LineWindow.NoSeedNoContent | Program.cs:588-592 | when no line passes IsLineMatch the result is the empty string, not the file |
| LineWindow.RemovedLineNoSeparator | Program.cs:628-645 | `keep / // drop / keep2` with a remove pattern matching only the middle line and no context gives `keep\nkeep2`: the removed line never seeds and no separator appears |
| LineWindow.NumberedContext | Program.cs:604-641 | `L1 / MATCH / L3 / L4` with `--line-contains MATCH --lines 1 --line-numbers` gives `1: L1\n2: MATCH\n3: L3` |
| Extractor.GetFormattedFileContent | Program.cs:536-571 | the method returns FormattedFileContent for every outcome: binary notice, error notice, filtered, numbered or plain section |
| Extractor.BinaryIgnoresFilters | Program.cs:540-545 | a file with a zero byte yields `## name\n\nBinary data: N bytes\n\n` whatever the filters |
| Extractor.FenceIsSafe | Program.cs:549-552 | a Markdown file's fence has only backticks, at least 3, and is longer than every backtick run in its text; any other file gets three backticks |
| Extractor.PassThrough | Program.cs:554-565 | without line filters or numbering the section contains the file's text unchanged between the fences |
| Extractor.NumberedPassThrough | Program.cs:559-563 | numbering keeps the line count: the numbered text splits into exactly the numbered lines of the original |
| Extractor.NoSeedEmptyBlock | Program.cs:554-565 | with line filters that no line passes, the section is a heading and an empty fenced block |
| Extractor.UnreadableNotice | Program.cs:567-570 | an unreadable file yields `## name - Error reading file: message\n\n` |
| Options.GetInputOptionArgs | src/InputOptions.cs:242-253 | the result is the longest run of tokens right after `startAt` that do not start with `--` |
| Options.FirstInvalid | src/InputOptions.cs:263 | the first pattern that fails validation, or none when all pass |
| Options.ValidateRegExPatterns | src/InputOptions.cs:255-276 | no pattern gives "Missing regular expression pattern"; success iff every pattern is a valid regex; otherwise the error names the first invalid one |
| Options.RewriteIsTranslate | src/InputOptions.cs:287-290 | the three chained `Replace` calls equal one per-character translation: `.` to `\.`, `*` to `.*`, `?` to `.` |
| Options.ValidateFilePatternToRegExPattern | src/InputOptions.cs:278-300 | an empty pattern is "Missing file pattern"; an invalid translation is "Invalid file pattern"; success is the anchored translation, case-insensitive on Windows |
| Options.ExcludePartition | src/InputOptions.cs:207-213 | the patterns with a path separator and those without together are exactly the `--exclude` arguments |
| Options.FileNameRegexes | src/InputOptions.cs:208-210 | translates every separator-free pattern in order, or fails with the first failure |
| Options.ValidateInt | src/InputOptions.cs:307-320 | a missing or empty count is "Missing <what>"; an unparsable one is "<arg> <count> - Invalid <what>"; success returns the parsed value |
| Options.ValidateLineCount | src/InputOptions.cs:302-305 | the same with "line count" as the description |
| Options.GroupOption | src/InputOptions.cs:120-176 | the group options are handled exactly for their own flags, and always move forward |
| Options.PatternOptionStopsAtFlag | src/InputOptions.cs:122-126 | a pattern option consumes exactly its argument run and resumes at the next `--` token or the end |
| Options.MissingPatternRejected | src/InputOptions.cs:201-205 | with no argument after a pattern option the error is "Missing pattern" for `--exclude`, else "Missing regular expression pattern" |
| Options.LinesSetsBoth | src/InputOptions.cs:149-155 | `--lines N` sets both context counts to N and skips N |
| Options.LinesBeforeOnly | src/InputOptions.cs:156-160 | `--lines-before N` sets the count before to N, changes nothing else in the group, and skips N |
| Options.LinesAfterOnly | src/InputOptions.cs:161-165 | `--lines-after N` sets the count after to N, changes nothing else in the group, and skips N |
| Options.ContainsFeedsBoth | src/InputOptions.cs:120-127 | `--contains` appends its patterns to both the file and the line include lists |
| Options.FileContainsOwnList | src/InputOptions.cs:128-134 | `--file-contains` appends its patterns to the file include list and changes nothing else in the group |
| Options.FileNotContainsOwnList | src/InputOptions.cs:135-141 | `--file-not-contains` appends its patterns to the file exclude list and changes nothing else in the group |
| Options.LineContainsOwnList | src/InputOptions.cs:142-148 | `--line-contains` appends its patterns to the line include list and changes nothing else in the group |
| Options.RemoveAllLinesOwnList | src/InputOptions.cs:166-172 | `--remove-all-lines` appends its patterns to the list of lines to remove and changes nothing else in the group |
| Options.ExcludeSplitsArguments | src/InputOptions.cs:199-218 | `--exclude` turns arguments with a separator into exclude globs and the rest into translated file-name regexes, in order |
| GroupParser.GroupStep | src/InputOptions.cs:120-226 | every token that is not `--`, `--debug` or `--verbose` is handled: consumed, moving forward, or rejected |
| GroupParser.Step | src/InputOptions.cs:104-227 | a successful step always advances |
| GroupParser.DefaultGlobs | src/InputOptions.cs:234-237 | keeps the number of groups |
| GroupParser.ParseInputOptions | src/InputOptions.cs:98-240 | the loop with its helpers returns exactly Parse |
| GroupParser.AddDefaultGlobs | src/InputOptions.cs:234-237 | the loop equals DefaultGlobs |
| GroupParser.ScanKeepsGroupsNonEmpty | src/InputOptions.cs:107-111 | only non-empty groups are ever closed |
| GroupParser.ParsedGroupsWellFormed | src/InputOptions.cs:229-237 | every parsed group is non-empty and has at least one glob |
| GroupParser.DefaultGlobsOnlyFillsGaps | src/InputOptions.cs:234-237 | a group without globs gets `**`; every other field, and any group with globs, is unchanged |
| GroupParser.SeparatorOnEmptyGroupRejected | src/InputOptions.cs:107-222 | `--` on an empty current group misses the guarded branch at line 107 and is rejected as "-- - Invalid argument" |
| GroupParser.LeadingSeparatorRejected | src/InputOptions.cs:104-222 | a command line starting with `--` fails to parse |
| GroupParser.UnknownFlagRejected | src/InputOptions.cs:219-222 | any other `--` token is rejected as "<arg> - Invalid argument" |
| GroupParser.BareTokenIsGlob | src/InputOptions.cs:223-226 | a token not starting with `--` is appended to the current group's globs |
| GroupParser.SaveFileOutputLast | src/InputOptions.cs:187-193 | `--save-file-output` keeps its last argument, or the default template, and skips all its arguments |
| GroupParser.InstructionsMissingRejected | src/InputOptions.cs:177-183 | `--file-instructions` followed by a flag or by nothing stops the parse with `--file-instructions - Missing file instructions` |
| GroupParser.InstructionsConsumeRun | src/InputOptions.cs:177-186 | otherwise it appends its whole non-empty argument run to the group's instructions and scanning resumes at the next flag or the end |
| GroupParser.TwoGroups | src/InputOptions.cs:107-111 | `a.cs -- b.cs` parses into two groups |
| GroupParser.PatternOnlySearchesEverything | src/InputOptions.cs:229-237 | `--contains TODO` alone gives one group searching `**` |
| GroupParser.OptionsAloneMakeNoGroup | src/InputOptions.cs:229-232 | `--line-numbers` alone gives no group |
| LegacyParser.LegacyGroupStep | Program.cs:196-289 | every token except `--` is consumed, moving forward, or rejected |
| LegacyParser.LegacyStep | Program.cs:188-290 | a successful step always advances |
| LegacyParser.ParseInputs | Program.cs:182-303 | the loop returns exactly LegacyParse |
| LegacyParser.SeparatorAlwaysCloses | Program.cs:191-195 | `--` closes the current group whatever it holds |
| LegacyParser.LoneSeparator | Program.cs:191-195 | a lone `--` gives one empty group here and an error in the newer parser |
| LegacyParser.LegacyBareTokenIsGlob | Program.cs:282-289 | a token that is not a flag becomes a glob of the current group and the scan moves on one token |
| LegacyParser.InstructionsResumeNext | Program.cs:253-261 | `--file-instructions` with arguments appends them to the group's instructions and resumes at the token right after the flag |
| LegacyParser.InstructionsAlsoGlobs | Program.cs:253-261 | `--file-instructions` does not skip its arguments, so `a.json --file-instructions x` also makes `x` a glob |
| LegacyParser.NewerFlagsUnknown | Program.cs:282-285 | `--debug`, `--verbose`, `--save-file-output` and `--threads` are rejected as invalid |
| LegacyParser.NoGlobDefault | Program.cs:292-302 | a group with only `--contains` keeps an empty glob list |
| TokenExpander.TextLinesRoundTrip | src/InputOptions.cs:84 | reading back a file of line-terminated entries gives those entries |
| TokenExpander.AtFileIsText | src/InputOptions.cs:78-81 | `@p`, with `p` an existing readable file, expands to exactly one token: the file's text |
| TokenExpander.AtAtFileIsLines | src/InputOptions.cs:82-91 | `@@p` expands line by line, each line again, only when `@p` names no file |
| TokenExpander.OtherTokensPassThrough | src/InputOptions.cs:92-95 | every other token is kept as it is |
| TokenExpander.NoAtKeptAsIs | src/InputOptions.cs:76-95 | a token not starting with `@` is kept as it is |
| TokenExpander.LiteralTokensKept | src/InputOptions.cs:65-74 | a command line without `@` tokens expands to itself |
| TokenExpander.FuelMonotone | src/InputOptions.cs:76-96 | more nesting depth never changes a finished expansion |
| TokenExpander.FuelMonotoneLines | src/InputOptions.cs:84-90 | the same for a list of tokens |
| TokenExpander.ExpandLinesAppend | src/InputOptions.cs:65-74 | expanding a concatenation concatenates the expansions |
| FileSelector.FilesFromGlobsSpec | Program.cs:429-438 | a path is listed iff some glob resolves to it |
| FileSelector.DistinctSpec | Program.cs:426 | no repeats, the same members as the input, and listed in the order of their first occurrences in the input, so the sections print in first-seen order |
| FileSelector.CandidatesSpec | Program.cs:407-411 | a file survives iff it is listed, no exclude glob gives it, and no exclude file-name regex matches its name |
| FileSelector.ContentMatchesSpec | Program.cs:419 | on success, exactly the files that pass IsFileMatch; a failure carries the error of some file |
| FileSelector.NameStageSpec | Program.cs:407-411 | the name stage keeps exactly the files that pass NamePasses |
| FileSelector.NoticesDiffer | Program.cs:415-422 | the two notices are different texts |
| FileSelector.NoFilesFoundExactly | Program.cs:413-417 | "No files found" is printed iff no file passes the name stage |
| FileSelector.SelectedExactly | Program.cs:400-427 | a selection is non-empty, without repeats, and exactly the files passing both the name and the content stage |
| FileSelector.NoFilesMatchedMeansContentRejected | Program.cs:419-424 | "No files matched criteria" means some file passed the name stage and every such file failed the content test |
| FileSelector.SelectionFailureCause | Program.cs:380-419 | a failed selection needs a content pattern and an unreadable file that passed the name stage, and carries that file's message |
| OutputAssembler.ApplyFileInstructionsAppend | Program.cs:654-657 | instructions run in order: applying `a + b` is applying `b` to the result of `a` |
| OutputAssembler.ApplyOneInstruction | Program.cs:656 | a single instruction is one run of the external command |
| OutputAssembler.PrintFileContent | Program.cs:525-534 | the printed text is the formatted section, passed through the instructions when there are any |
| OutputAssembler.PrintSelected | Program.cs:85-99 | the inner loop equals VisitFiles: each file not yet processed is printed and recorded |
| OutputAssembler.ProcessGroups | Program.cs:75-100 | the loop returns what it printed, which is ConsoleOutput (all of a completed run, or the output of the groups before the failing one); it reports no error iff VisitGroups succeeds, and otherwise the failing group's error |
| OutputAssembler.ProcessGroup | Program.cs:78-99 | one pass of the loop gives exactly the state VisitGroup describes: the selection's error, the notice appended, or the selected files printed |
| OutputAssembler.FailureStays | Program.cs:78-83 | a failing group ends the run with its error, and later groups print nothing |
| OutputAssembler.CrashKeepsEarlierOutput | Program.cs:75-100 | a run that aborts has printed exactly the sections and notices of the groups before the failing group, and reports that group's error |
| OutputAssembler.CompletedRunOutput | Program.cs:75-100 | a completed run prints exactly its events |
| OutputAssembler.VisitFileTracks | Program.cs:87-98 | one file keeps the processed set equal to the set of printed paths, each printed once |
| OutputAssembler.VisitFilesTracks | Program.cs:85-99 | the same over one group's files: afterwards, every file of the group has been processed |
| OutputAssembler.VisitGroupsTracks | Program.cs:75-100 | the same across groups |
| OutputAssembler.EachFilePrintedOnce | Program.cs:75-100 | no path is printed twice in a run |
| OutputAssembler.GroupGrows | Program.cs:78-99 | one group only appends output and only adds processed files |
| OutputAssembler.RunGrows | Program.cs:76-100 | earlier groups' output is a prefix of later output, and the processed set only grows |
| OutputAssembler.VisitFilesGrow | Program.cs:85-99 | one group's files only append output, and add exactly those files to the processed set |
| OutputAssembler.SelectedStep | Program.cs:76-99 | a group that selects files continues the run with VisitFiles over them |
| OutputAssembler.EverySelectedFilePrinted | Program.cs:75-100 | every file any group selects is printed by the end of a successful run |
| OutputAssembler.ProcessedArePrinted | Program.cs:87-97 | every processed file has a printed section |
| OutputAssembler.ProcessedAreSelected | Program.cs:76-99 | after some groups, a file is processed iff one of those groups selected it |
| OutputAssembler.VisitFilesNew | Program.cs:85-98 | the sections one group adds are for its own files not processed before, rendered with that group's options and instructions |
| OutputAssembler.SectionsFromFirstGroup | Program.cs:76-99 | every printed section is rendered with the options of the first group that selects its file |
| OutputAssembler.FirstGroupFormats | Program.cs:76-99 | in a completed run, a file that several groups select is rendered with the options and instructions of the earliest of them |
| OutputAssembler.RunMain | Program.cs:56-103 | Main equals MainSpec: expand, parse with the older parser, show usage when there is no group, else process the groups; a crash keeps what was printed before it |
| OutputAssembler.ExitCodes | Program.cs:56-103 | the exit code is 2 iff parsing fails, 1 iff parsing gives no group, and 0 iff some group was given and the run succeeded |
| OutputAssembler.LoneSeparatorFindsNothing | Program.cs:182-195 | `mdcc --` runs one empty group, printing the empty-pattern "No files found" notice |

## Left out

- Regular expressions are opaque. A pattern is kept as its string. `Regex.IsMatch` is the `Matcher` parameter, and `new Regex(p)` succeeding is `Platform.isValidRegex`. The .NET regex engine is not part of this model.
- Glob matching is opaque. The directory walk of `FilesFromGlob` and `MakeRelativePath` (Program.cs:440-479) become `FileSystem.resolveGlob`. The swallowed exception of `FilesFromGlob` is part of that value.
- `Path.GetFileName` is `FileSystem.fileName`.
- `int.TryParse` is `Platform.tryParseInt`; its 32-bit range and culture rules are not modelled.
- `Environment.OSVersion` is `Platform.isWindows`.
- File contents are given, not read. `File.ReadAllBytes`, `File.ReadAllText` with its UTF-8 decoding, and `File.ReadLines` splitting at `\r\n`, `\n` and `\r` are modelled on the given text. Byte-order marks and invalid UTF-8 are not modelled. The message of a missing file is a fixed text.
- Standard input: `InputsFromStdio` becomes the `stdinLines` parameter of `ExpandedInputsFromCommandLine`, already trimmed. `Console.IsInputRedirected` and `Trim` are not modelled.
- Console output is a sequence of events. `PrintBanner`, `PrintUsage` and `PrintException` are summarised by the `MainResult` cases and not spelled out. The newline `Console.WriteLine` adds after each event is not part of the event text.
- `ApplyFileInstructions(string, string)` (Program.cs:659-705) is left out. It writes temporary files, builds the prompts (`GetSystemPrompt`, `GetUserPrompt` with a fence three backticks longer), starts the `ai` process and reads its output and exit code. That whole run is the `Instructor` parameter.
- ExpandedInput: the source recursion has no bound, and a file that names itself never finishes normally: every level opens the file again and adds stack frames, so the process eventually crashes. The model adds a `fuel` bound on `@@` nesting and reports `DepthExceeded` when it runs out, which `RunMain` turns into `Crashed`, as the source also ends in a crash. FuelMonotone shows that the bound never changes an expansion that finishes.
- RunMain: when an exception other than an input error escapes `Main`, the model records it as `Crashed` with no exit code, together with the sections printed before it. Examples are an unreadable file during expansion or during content selection. The runtime's message and exit code are not modelled.
- Options.IsEmpty: `InputGroup.IsEmpty()`, called by the newer parser, is declared outside Program.cs and src/InputOptions.cs, the two files this model covers. It is taken to be the negation of the older parser's `groupOk` test (Program.cs:292-296): no globs, no file-content patterns and no line patterns.
- The fields the newer parser uses are given the types their use implies: `FileInstructionsList`, `SaveFileOutput` (text) and `ThreadCount` (an integer). `InputGroup` is declared outside Program.cs and src/InputOptions.cs, which this model does not go beyond.
- `InputOptions.Debug` and `Verbose` are parsed but drive nothing in this core. The thread pool that `ThreadCount` feeds and the writing of `SaveFileOutput` files are not part of this model.
- Integer counts are unbounded, except the sum `before + after` that decides on separators (Program.cs:628), which is wrapped to 32 bits (`AddInt32`). The other 32-bit arithmetic of the window loops is not modelled:
- LineWindow.LinesToInclude: for a seed at index `s` and an after count above `2147483647 - s` (say `--lines-after 2147483000` with a seed at index 648 or later), `matchIndex + a` (Program.cs:613) wraps to a negative index that passes the `< allLines.Length` test. The model adds only indices inside the file.
- LineWindow.GetFilteredContent: in that case the source then fails at `allLines[index]` (Program.cs:633), and the catch at Program.cs:567-570 returns the error notice `## <file> - Error reading file: Index was outside the bounds of the array.`. The model renders the clipped window instead.
- LineWindow.LinesToInclude: a count of 2147483647 makes the loop counter `b` or `a` (Program.cs:604, 611) wrap past `int.MaxValue`, so the source loop never ends normally. The model ends the loop after `before` or `after` steps.
- Text.StartsWith: .NET `string.StartsWith(string)` compares with the current culture, and the model tests ordinal prefixes. Under ICU, ignorable characters such as the soft hyphen U+00AD are skipped, so `"\u00AD--x".StartsWith("--")` is true there. This affects the `--` flag test (Options.IsFlag, and so GetInputOptionArgs and the "Invalid argument" errors) and the `@` and `@@` tests of TokenExpander.ExpandedInput. In the source such a token can count as a flag or a file reference where the model keeps it as a glob or a literal.
- Negative context counts are kept as given. Their loops then run zero times, as in the source.
