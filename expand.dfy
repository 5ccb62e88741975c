/** Token expansion (`ExpandedInput`): `@p` stands for the text of file `p`,
    `@@p` for the lines of file `p`, each expanded again. Which files exist
    and what they hold comes from the file system value. */
module TokenExpander {
  import opened Wrappers
  import opened Text
  import opened Files

  /** Ran out of nesting depth, or a file that exists could not be read. */
  datatype ExpandError = DepthExceeded | ReadFailed(message: string)

  /** `File.Exists` */
  predicate Exists(fs: FileSystem, path: string)
  {
    path in fs.files
  }

  predicate IsLineBreak(c: char)
  {
    c == '\n' || c == '\r'
  }

  /** Index of the first line break in `s`, or |s|. */
  function LineEnd(s: string): (k: nat)
    ensures k <= |s|
    ensures forall j :: 0 <= j < k ==> !IsLineBreak(s[j])
    ensures k < |s| ==> IsLineBreak(s[k])
  {
    if |s| == 0 || IsLineBreak(s[0]) then 0 else 1 + LineEnd(s[1..])
  }

  /** `File.ReadLines`: lines end at "\r\n", "\n" or "\r"; a break at the
      very end does not start another line. */
  function TextLines(s: string): (r: seq<string>)
    ensures forall k, j :: 0 <= k < |r| && 0 <= j < |r[k]| ==> !IsLineBreak(r[k][j])
    decreases |s|
  {
    if |s| == 0 then []
    else
      var k := LineEnd(s);
      var rest := if k == |s| then ""
                  else if s[k] == '\r' && k + 1 < |s| && s[k + 1] == '\n' then s[k + 2..]
                  else s[k + 1..];
      [s[..k]] + TextLines(rest)
  }

  /** A file holding the lines, each followed by "\n". */
  function LinesText(lines: seq<string>): string
  {
    if |lines| == 0 then "" else lines[0] + "\n" + LinesText(lines[1..])
  }

  lemma LineEndOfLine(line: string, rest: string)
    requires forall j :: 0 <= j < |line| ==> !IsLineBreak(line[j])
    ensures LineEnd(line + "\n" + rest) == |line|
    decreases |line|
  {
    if |line| > 0 {
      assert (line + "\n" + rest)[1..] == line[1..] + "\n" + rest;
      LineEndOfLine(line[1..], rest);
    }
  }

  /** Reading back a file written one entry per line gives the entries. */
  lemma {:induction false} TextLinesRoundTrip(lines: seq<string>)
    requires forall k, j :: 0 <= k < |lines| && 0 <= j < |lines[k]| ==> !IsLineBreak(lines[k][j])
    ensures TextLines(LinesText(lines)) == lines
  {
    if |lines| > 0 {
      var s := LinesText(lines);
      var rest := LinesText(lines[1..]);
      assert s == lines[0] + "\n" + rest;
      LineEndOfLine(lines[0], rest);
      assert s[..|lines[0]|] == lines[0];
      assert s[|lines[0]| + 1..] == rest;
      TextLinesRoundTrip(lines[1..]);
      assert lines == [lines[0]] + lines[1..];
    }
  }

  /** The expansion of one token. The source recurses without bound (a file
      that names itself never finishes); `fuel` bounds the nesting of `@@`. */
  function ExpandedInput(input: string, fs: FileSystem, fuel: nat): Result<seq<string>, ExpandError>
    decreases fuel, 0
  {
    if StartsWith(input, "@") && Exists(fs, input[1..]) then
      match ReadText(fs, input[1..])
      case Failure(m) => Failure(ReadFailed(m))
      case Success(text) => Success([text])
    else if StartsWith(input, "@@") && Exists(fs, input[2..]) then
      if fuel == 0 then Failure(DepthExceeded)
      else
        match ReadText(fs, input[2..])
        case Failure(m) => Failure(ReadFailed(m))
        case Success(text) => ExpandLines(TextLines(text), fs, fuel - 1)
    else Success([input])
  }

  /** The expansions of several tokens, concatenated in order. */
  function ExpandLines(lines: seq<string>, fs: FileSystem, fuel: nat): Result<seq<string>, ExpandError>
    decreases fuel, 1, |lines|
  {
    if |lines| == 0 then Success([])
    else
      match ExpandedInput(lines[0], fs, fuel)
      case Failure(e) => Failure(e)
      case Success(first) =>
        match ExpandLines(lines[1..], fs, fuel)
        case Failure(e) => Failure(e)
        case Success(rest) => Success(first + rest)
  }

  /** The tokens of a command line: the (trimmed) lines of redirected
      standard input, then the arguments, each expanded. */
  function ExpandedInputsFromCommandLine(stdinLines: seq<string>, args: seq<string>, fs: FileSystem, fuel: nat)
    : Result<seq<string>, ExpandError>
  {
    ExpandLines(stdinLines + args, fs, fuel)
  }

  // ---------------------------------------------------------------------
  // Properties

  /** `@p` for an existing readable `p` is exactly one token, its text. */
  lemma AtFileIsText(input: string, fs: FileSystem, fuel: nat, bytes: seq<byte>, text: string)
    requires |input| >= 1 && input[0] == '@'
    requires input[1..] in fs.files && fs.files[input[1..]] == Readable(bytes, text)
    ensures ExpandedInput(input, fs, fuel) == Success([text])
  {
    assert StartsWith(input, "@");
  }

  /** `@@p` is read line by line only when `@p` names no file. */
  lemma AtAtFileIsLines(input: string, fs: FileSystem, fuel: nat, bytes: seq<byte>, text: string)
    requires |input| >= 2 && input[0] == '@' && input[1] == '@'
    requires input[1..] !in fs.files
    requires input[2..] in fs.files && fs.files[input[2..]] == Readable(bytes, text)
    requires fuel > 0
    ensures ExpandedInput(input, fs, fuel) == ExpandLines(TextLines(text), fs, fuel - 1)
  {
    assert input[..2] == "@@";
  }

  /** Every other token stands for itself. */
  lemma OtherTokensPassThrough(input: string, fs: FileSystem, fuel: nat)
    requires !(StartsWith(input, "@") && input[1..] in fs.files)
    requires !(StartsWith(input, "@@") && input[2..] in fs.files)
    ensures ExpandedInput(input, fs, fuel) == Success([input])
  {
  }

  lemma NoAtKeptAsIs(input: string, fs: FileSystem, fuel: nat)
    requires |input| == 0 || input[0] != '@'
    ensures ExpandedInput(input, fs, fuel) == Success([input])
  {
    if |input| >= 1 {
      assert !StartsWith(input, "@") by { assert input[..1][0] == input[0]; }
      assert !StartsWith(input, "@@") by {
        if |input| >= 2 { assert input[..2][0] == input[0]; }
      }
    }
  }

  /** Tokens that do not open with '@' are kept as they are. */
  lemma {:induction false} LiteralTokensKept(lines: seq<string>, fs: FileSystem, fuel: nat)
    requires forall k :: 0 <= k < |lines| ==> |lines[k]| == 0 || lines[k][0] != '@'
    ensures ExpandLines(lines, fs, fuel) == Success(lines)
  {
    if |lines| > 0 {
      NoAtKeptAsIs(lines[0], fs, fuel);
      LiteralTokensKept(lines[1..], fs, fuel);
      assert lines == [lines[0]] + lines[1..];
    }
  }

  /** More depth never changes a finished expansion: the bound only cuts off
      expansions that would not finish in the source. */
  lemma {:induction false} FuelMonotone(input: string, fs: FileSystem, fuel: nat)
    requires ExpandedInput(input, fs, fuel).Success?
    ensures ExpandedInput(input, fs, fuel + 1) == ExpandedInput(input, fs, fuel)
    decreases fuel, 0
  {
    if !(StartsWith(input, "@") && Exists(fs, input[1..])) && StartsWith(input, "@@") && Exists(fs, input[2..]) {
      var text := ReadText(fs, input[2..]).value;
      FuelMonotoneLines(TextLines(text), fs, fuel - 1);
    }
  }

  lemma {:induction false} FuelMonotoneLines(lines: seq<string>, fs: FileSystem, fuel: nat)
    requires ExpandLines(lines, fs, fuel).Success?
    ensures ExpandLines(lines, fs, fuel + 1) == ExpandLines(lines, fs, fuel)
    decreases fuel, 1, |lines|
  {
    if |lines| > 0 {
      FuelMonotone(lines[0], fs, fuel);
      FuelMonotoneLines(lines[1..], fs, fuel);
    }
  }

  /** Expansion distributes over the token list. */
  lemma {:induction false} ExpandLinesAppend(a: seq<string>, b: seq<string>, fs: FileSystem, fuel: nat)
    requires ExpandLines(a, fs, fuel).Success? && ExpandLines(b, fs, fuel).Success?
    ensures ExpandLines(a + b, fs, fuel) == Success(ExpandLines(a, fs, fuel).value + ExpandLines(b, fs, fuel).value)
  {
    if |a| == 0 {
      assert a + b == b;
      assert [] + ExpandLines(b, fs, fuel).value == ExpandLines(b, fs, fuel).value;
    } else {
      assert (a + b)[0] == a[0];
      assert (a + b)[1..] == a[1..] + b;
      ExpandLinesAppend(a[1..], b, fs, fuel);
      var first := ExpandedInput(a[0], fs, fuel).value;
      var ra := ExpandLines(a[1..], fs, fuel).value;
      var rb := ExpandLines(b, fs, fuel).value;
      assert first + (ra + rb) == (first + ra) + rb;
    }
  }
}
