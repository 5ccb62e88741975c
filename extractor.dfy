/** The per-file section (`GetFormattedFileContent`): a binary notice, an
    error notice, or the file's text inside a fenced block, after the line
    filters or line numbering have been applied. */
module Extractor {
  import opened Wrappers
  import opened Text
  import opened Files
  import opened Matching
  import opened Fence
  import opened LineWindow

  /** `fileName.EndsWith(".md", StringComparison.OrdinalIgnoreCase)` */
  predicate IsMarkdownName(name: string)
  {
    |name| >= 3 && name[|name| - 3] == '.'
    && (name[|name| - 2] == 'm' || name[|name| - 2] == 'M')
    && (name[|name| - 1] == 'd' || name[|name| - 1] == 'D')
  }

  /** `bytes.Any(x => x == 0)` */
  function IsBinary(bytes: seq<byte>): (r: bool)
    ensures r <==> exists k :: 0 <= k < |bytes| && bytes[k] == 0
  {
    0 in bytes
  }

  function BinaryNotice(name: string, size: nat): string
  {
    "## " + name + "\n\nBinary data: " + NatToString(size) + " bytes\n\n"
  }

  function ErrorNotice(name: string, message: string): string
  {
    "## " + name + " - Error reading file: " + message + "\n\n"
  }

  /** The section heading, then the body inside a fenced block. */
  function Section(name: string, fence: string, body: string): string
  {
    "## " + name + "\n\n" + fence + "\n" + body + "\n" + fence + "\n"
  }

  /** `lines.Select((line, index) => $"{index + 1}: {line}")` */
  function Numbered(lines: seq<string>): (r: seq<string>)
    ensures |r| == |lines|
    ensures forall k :: 0 <= k < |lines| ==> r[k] == NatToString(k + 1) + ": " + lines[k]
  {
    seq(|lines|, k requires 0 <= k < |lines| => NatToString(k + 1) + ": " + lines[k])
  }

  function NumberLines(content: string): string
  {
    Join(Numbered(Split(content, '\n')), "\n")
  }

  /** The fence the section uses: for a markdown file one backtick longer than
      the longest run inside it (at least three), for every other file three. */
  ghost function FenceFor(name: string, text: string): string
  {
    if IsMarkdownName(name) then Repeat('`', FenceLength(text)) else "```"
  }

  /** The body of the block: filtered when some line pattern is given, else
      numbered when asked, else the text itself. */
  ghost function Body(text: string, fence: string, includes: seq<string>, before: int, after: int, numbers: bool,
                      removes: seq<string>, isMatch: Matcher): string
  {
    if |includes| > 0 || |removes| > 0 then FilteredContent(text, includes, before, after, numbers, removes, fence, isMatch)
    else if numbers then NumberLines(text)
    else text
  }

  ghost function FormattedFileContent(fileName: string, file: FileRead, includes: seq<string>, before: int, after: int,
                                      numbers: bool, removes: seq<string>, isMatch: Matcher): string
  {
    match file
    case Unreadable(message) => ErrorNotice(fileName, message)
    case Readable(bytes, text) =>
      if IsBinary(bytes) then BinaryNotice(fileName, |bytes|)
      else
        var fence := FenceFor(fileName, text);
        Section(fileName, fence, Body(text, fence, includes, before, after, numbers, removes, isMatch))
  }

  method GetFormattedFileContent(fileName: string, file: FileRead, includes: seq<string>, before: int, after: int,
                                 numbers: bool, removes: seq<string>, isMatch: Matcher)
    returns (r: string)
    ensures r == FormattedFileContent(fileName, file, includes, before, after, numbers, removes, isMatch)
  {
    match file {
      case Unreadable(message) =>
        return ErrorNotice(fileName, message);
      case Readable(bytes, content) =>
        if IsBinary(bytes) {
          return BinaryNotice(fileName, |bytes|);
        }
        var backticks: string;
        if IsMarkdownName(fileName) {
          var n := GetMaxBacktickCharSequence(content);
          backticks := Repeat('`', n);
        } else {
          backticks := "```";
        }
        var body := content;
        if |includes| > 0 || |removes| > 0 {
          body := GetFilteredContent(content, includes, before, after, numbers, removes, backticks, isMatch);
        } else if numbers {
          body := NumberLines(content);
        }
        r := Section(fileName, backticks, body);
    }
  }

  // ---------------------------------------------------------------------
  // Properties

  /** A file holding a zero byte gives exactly the binary notice, whatever
      the filters and the name. */
  lemma BinaryIgnoresFilters(fileName: string, bytes: seq<byte>, text: string, includes: seq<string>, before: int,
                             after: int, numbers: bool, removes: seq<string>, isMatch: Matcher, k: nat)
    requires k < |bytes| && bytes[k] == 0
    ensures FormattedFileContent(fileName, Readable(bytes, text), includes, before, after, numbers, removes, isMatch)
            == "## " + fileName + "\n\nBinary data: " + NatToString(|bytes|) + " bytes\n\n"
  {
  }

  /** A markdown file's fence is all backticks, at least three, and longer
      than every backtick run in the text, so that the text cannot close the
      block; a non-markdown file's fence is three backticks. */
  lemma FenceIsSafe(fileName: string, text: string)
    ensures IsMarkdownName(fileName) ==>
              |FenceFor(fileName, text)| >= 3
              && (forall k :: 0 <= k < |FenceFor(fileName, text)| ==> FenceFor(fileName, text)[k] == '`')
              && forall i, j :: IsBacktickRun(text, i, j) ==> j - i < |FenceFor(fileName, text)|
    ensures !IsMarkdownName(fileName) ==> FenceFor(fileName, text) == "```"
  {
    FenceExceedsEveryRun(text);
  }

  /** With no line filter and no numbering, the text is copied unchanged into
      the block. */
  lemma PassThrough(fileName: string, bytes: seq<byte>, text: string, before: int, after: int, isMatch: Matcher)
    requires !IsBinary(bytes)
    ensures FormattedFileContent(fileName, Readable(bytes, text), [], before, after, false, [], isMatch)
            == "## " + fileName + "\n\n" + FenceFor(fileName, text) + "\n" + text + "\n" + FenceFor(fileName, text) + "\n"
  {
  }

  /** Numbering without filters keeps every line, in order, each prefixed
      by its 1-based number: splitting the body again gives the numbered
      lines one for one. */
  lemma NumberedPassThrough(text: string)
    ensures Split(NumberLines(text), '\n') == Numbered(Split(text, '\n'))
    ensures |Split(NumberLines(text), '\n')| == |Split(text, '\n')|
  {
    var lines := Split(text, '\n');
    var numbered := Numbered(lines);
    forall k | 0 <= k < |numbered|
      ensures '\n' !in numbered[k]
    {
      var num := NatToString(k + 1);
      assert '\n' !in num;
      assert numbered[k] == num + ": " + lines[k];
    }
    SplitJoin(numbered, '\n');
  }

  /** Filtering a file where no line seeds leaves an empty block. */
  lemma NoSeedEmptyBlock(fileName: string, bytes: seq<byte>, text: string, includes: seq<string>, before: int,
                         after: int, numbers: bool, removes: seq<string>, isMatch: Matcher)
    requires !IsBinary(bytes) && (|includes| > 0 || |removes| > 0)
    requires forall j :: 0 <= j < |Split(text, '\n')| ==> !IsLineMatch(Split(text, '\n')[j], includes, removes, isMatch)
    ensures FormattedFileContent(fileName, Readable(bytes, text), includes, before, after, numbers, removes, isMatch)
            == "## " + fileName + "\n\n" + FenceFor(fileName, text) + "\n\n" + FenceFor(fileName, text) + "\n"
  {
    NoSeedNoContent(text, includes, before, after, numbers, removes, FenceFor(fileName, text), isMatch);
  }

  /** A file that cannot be read gives the error notice. */
  lemma UnreadableNotice(fileName: string, message: string, includes: seq<string>, before: int, after: int,
                         numbers: bool, removes: seq<string>, isMatch: Matcher)
    ensures FormattedFileContent(fileName, Unreadable(message), includes, before, after, numbers, removes, isMatch)
            == "## " + fileName + " - Error reading file: " + message + "\n\n"
  {
  }
}
