/** The file and line predicates of Program.cs (`IsFileMatch`, `IsLineMatch`).
    A compiled regular expression is represented by its pattern text; whether
    it matches a text is decided by the opaque `isMatch`. */
module Matching {
  import opened Wrappers
  import opened Files

  /** `new Regex(pattern).IsMatch(text)`, as `isMatch(pattern, text)`. */
  type Matcher = (string, string) -> bool

  /** `patterns.All(regex => regex.IsMatch(text))` */
  function AllMatch(patterns: seq<string>, text: string, isMatch: Matcher): (r: bool)
    ensures r <==> forall k :: 0 <= k < |patterns| ==> isMatch(patterns[k], text)
  {
    if |patterns| == 0 then true
    else isMatch(patterns[0], text) && AllMatch(patterns[1..], text, isMatch)
  }

  /** `patterns.Any(regex => regex.IsMatch(text))` */
  function AnyMatch(patterns: seq<string>, text: string, isMatch: Matcher): (r: bool)
    ensures r <==> exists k :: 0 <= k < |patterns| && isMatch(patterns[k], text)
  {
    if |patterns| == 0 then false
    else isMatch(patterns[0], text) || AnyMatch(patterns[1..], text, isMatch)
  }

  /** A line seeds a window when every include pattern matches it and no
      remove pattern does; a removable line never seeds, whatever the include
      patterns say. */
  function IsLineMatch(line: string, includes: seq<string>, removes: seq<string>, isMatch: Matcher): (r: bool)
    ensures r <==> (forall k :: 0 <= k < |includes| ==> isMatch(includes[k], line))
                   && (forall k :: 0 <= k < |removes| ==> !isMatch(removes[k], line))
    ensures AnyMatch(removes, line, isMatch) ==> !r
  {
    var includeMatch := AllMatch(includes, line, isMatch);
    var excludeMatch := |removes| > 0 && AnyMatch(removes, line, isMatch);
    includeMatch && !excludeMatch
  }

  /** Whole-file content filter. The file is read only when some content
      pattern is given; with none it passes unread. A read failure is the
      exception the source lets escape. */
  function IsFileMatch(file: FileRead, includes: seq<string>, excludes: seq<string>, isMatch: Matcher): (r: Result<bool, string>)
    ensures |includes| == 0 && |excludes| == 0 ==> r == Success(true)
    ensures (|includes| > 0 || |excludes| > 0) && file.Unreadable? ==> r == Failure(file.message)
    ensures (|includes| > 0 || |excludes| > 0) && file.Readable? ==>
              r.Success? &&
              (r.value <==> (forall k :: 0 <= k < |includes| ==> isMatch(includes[k], file.text))
                            && (forall k :: 0 <= k < |excludes| ==> !isMatch(excludes[k], file.text)))
  {
    var checkContent := |includes| > 0 || |excludes| > 0;
    if !checkContent then Success(true)
    else
      match file
      case Unreadable(message) => Failure(message)
      case Readable(_, content) =>
        var includeFile := AllMatch(includes, content, isMatch);
        var excludeFile := |excludes| > 0 && AnyMatch(excludes, content, isMatch);
        Success(includeFile && !excludeFile)
  }
}
