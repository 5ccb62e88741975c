/** The line-window selector (`GetFilteredContent`): which lines of a file
    survive the line filters, with how much context around them, how they
    are numbered, and where fence separators break the ranges. */
module LineWindow {
  import opened Wrappers
  import opened Text
  import opened Matching

  ghost predicate StrictlyAscending(s: seq<int>)
  {
    forall a, b :: 0 <= a < b < |s| ==> s[a] < s[b]
  }

  ghost predicate InBounds(idx: seq<int>, n: int)
  {
    forall k :: 0 <= k < |idx| ==> 0 <= idx[k] < n
  }

  // ---------------------------------------------------------------------
  // 1. Seeding

  /** The indices among the first `n` lines that pass IsLineMatch, in order. */
  ghost function SeedsBelow(lines: seq<string>, n: nat, includes: seq<string>, removes: seq<string>, isMatch: Matcher): seq<int>
    requires n <= |lines|
  {
    if n == 0 then []
    else SeedsBelow(lines, n - 1, includes, removes, isMatch)
         + (if IsLineMatch(lines[n - 1], includes, removes, isMatch) then [n - 1] else [])
  }

  ghost function Seeds(lines: seq<string>, includes: seq<string>, removes: seq<string>, isMatch: Matcher): seq<int>
  {
    SeedsBelow(lines, |lines|, includes, removes, isMatch)
  }

  lemma {:induction false} SeedsBelowSpec(lines: seq<string>, n: nat, includes: seq<string>, removes: seq<string>, isMatch: Matcher)
    requires n <= |lines|
    ensures StrictlyAscending(SeedsBelow(lines, n, includes, removes, isMatch))
    ensures forall j :: j in SeedsBelow(lines, n, includes, removes, isMatch) <==>
                        0 <= j < n && IsLineMatch(lines[j], includes, removes, isMatch)
  {
    if n > 0 {
      SeedsBelowSpec(lines, n - 1, includes, removes, isMatch);
      var p := SeedsBelow(lines, n - 1, includes, removes, isMatch);
      assert forall a :: 0 <= a < |p| ==> p[a] in p;
    }
  }

  /** The seeds are exactly the lines that match every include pattern and no
      remove pattern, listed once each in ascending order. */
  lemma SeedsSpec(lines: seq<string>, includes: seq<string>, removes: seq<string>, isMatch: Matcher)
    ensures StrictlyAscending(Seeds(lines, includes, removes, isMatch))
    ensures InBounds(Seeds(lines, includes, removes, isMatch), |lines|)
    ensures forall j :: j in Seeds(lines, includes, removes, isMatch) <==>
                        0 <= j < |lines| && IsLineMatch(lines[j], includes, removes, isMatch)
    ensures forall j :: 0 <= j < |lines| && AnyMatch(removes, lines[j], isMatch) ==>
                        j !in Seeds(lines, includes, removes, isMatch)
  {
    SeedsBelowSpec(lines, |lines|, includes, removes, isMatch);
    var p := Seeds(lines, includes, removes, isMatch);
    assert forall a :: 0 <= a < |p| ==> p[a] in p;
  }

  /** Step 1 of Program.cs: the loop collecting `matchedLineIndices`. */
  method MatchedLineIndices(allLines: seq<string>, includes: seq<string>, removes: seq<string>, isMatch: Matcher)
    returns (matchedLineIndices: seq<int>)
    ensures matchedLineIndices == Seeds(allLines, includes, removes, isMatch)
  {
    matchedLineIndices := [];
    for i := 0 to |allLines|
      invariant matchedLineIndices == SeedsBelow(allLines, i, includes, removes, isMatch)
    {
      var line := allLines[i];
      if IsLineMatch(line, includes, removes, isMatch) {
        matchedLineIndices := matchedLineIndices + [i];
      }
    }
  }

  // ---------------------------------------------------------------------
  // 2. Windowing

  /** Line `j` is pulled in by the seed `s`: it is the seed itself, one of the
      `before` lines above it or one of the `after` lines below it, clipped to
      the file. A count below one adds nothing on its side. */
  ghost predicate InWindow(s: int, j: int, n: int, before: int, after: int)
  {
    j == s || (s - before <= j < s && 0 <= j) || (s < j <= s + after && j < n)
  }

  /** Line `j` is in the window of one of the first `t` seeds. */
  ghost predicate Covered(seeds: seq<int>, t: nat, j: int, n: int, before: int, after: int)
    requires t <= |seeds|
  {
    exists u :: 0 <= u < t && InWindow(seeds[u], j, n, before, after)
  }

  lemma CoveredStep(seeds: seq<int>, t: nat, j: int, n: int, before: int, after: int)
    requires t < |seeds|
    ensures Covered(seeds, t + 1, j, n, before, after) <==>
            Covered(seeds, t, j, n, before, after) || InWindow(seeds[t], j, n, before, after)
  {
    if Covered(seeds, t + 1, j, n, before, after) {
      var u :| 0 <= u < t + 1 && InWindow(seeds[u], j, n, before, after);
      assert u < t ==> Covered(seeds, t, j, n, before, after);
    }
  }

  ghost function IncludedIndices(seeds: seq<int>, n: int, before: int, after: int): set<int>
  {
    set j | 0 <= j < n && Covered(seeds, |seeds|, j, n, before, after)
  }

  /** Step 2 of Program.cs: the `linesToInclude` set, filled seed by seed. */
  method LinesToInclude(matchedLineIndices: seq<int>, n: int, before: int, after: int)
    returns (linesToInclude: set<int>)
    requires InBounds(matchedLineIndices, n)
    ensures forall j :: j in linesToInclude <==> Covered(matchedLineIndices, |matchedLineIndices|, j, n, before, after)
    ensures forall j :: j in linesToInclude ==> 0 <= j < n
  {
    var seeds := matchedLineIndices;
    linesToInclude := {};
    for t := 0 to |seeds|
      invariant forall j :: j in linesToInclude <==> Covered(seeds, t, j, n, before, after)
    {
      var matchIndex := seeds[t];
      linesToInclude := linesToInclude + {matchIndex};

      var b := 1;
      while b <= before
        invariant 1 <= b <= (if before >= 0 then before + 1 else 1)
        invariant forall j :: j in linesToInclude <==>
                    Covered(seeds, t, j, n, before, after) || j == matchIndex
                    || (matchIndex - b < j < matchIndex && 0 <= j)
      {
        var idxBefore := matchIndex - b;
        if idxBefore >= 0 {
          linesToInclude := linesToInclude + {idxBefore};
        }
        b := b + 1;
      }

      var a := 1;
      while a <= after
        invariant 1 <= a <= (if after >= 0 then after + 1 else 1)
        invariant forall j :: j in linesToInclude <==>
                    Covered(seeds, t, j, n, before, after) || j == matchIndex
                    || (matchIndex - before <= j < matchIndex && 0 <= j)
                    || (matchIndex < j < matchIndex + a && j < n)
      {
        var idxAfter := matchIndex + a;
        if idxAfter < n {
          linesToInclude := linesToInclude + {idxAfter};
        }
        a := a + 1;
      }

      forall j
        ensures j in linesToInclude <==> Covered(seeds, t + 1, j, n, before, after)
      {
        CoveredStep(seeds, t, j, n, before, after);
      }
    }
  }

  // ---------------------------------------------------------------------
  // 3. Ordering (`OrderBy(i => i)`)

  /** The members of `s` in `[lo, hi)`, in ascending order. */
  function AscendingWithin(s: set<int>, lo: int, hi: int): (r: seq<int>)
    ensures StrictlyAscending(r)
    ensures forall x :: x in r <==> x in s && lo <= x < hi
    decreases hi - lo
  {
    if lo >= hi then []
    else
      var rest := AscendingWithin(s, lo + 1, hi);
      assert forall k :: 0 <= k < |rest| ==> rest[k] in rest;
      (if lo in s then [lo] else []) + rest
  }

  /** `OrderBy(i => i)` on a set of line indices of a file of `n` lines:
      the same members, ascending, each once. */
  function SortAscending(s: set<int>, n: int): (r: seq<int>)
    requires forall x :: x in s ==> 0 <= x < n
    ensures StrictlyAscending(r)
    ensures forall x :: x in r <==> x in s
  {
    AscendingWithin(s, 0, n)
  }

  ghost function FinalIndices(seeds: seq<int>, n: int, before: int, after: int): seq<int>
  {
    SortAscending(IncludedIndices(seeds, n, before, after), n)
  }

  /** The final window is ascending without repeats, stays inside the file,
      contains every seed and contains only lines within some seed's window. */
  lemma FinalIndicesSpec(seeds: seq<int>, n: int, before: int, after: int)
    requires InBounds(seeds, n)
    ensures StrictlyAscending(FinalIndices(seeds, n, before, after))
    ensures InBounds(FinalIndices(seeds, n, before, after), n)
    ensures forall t :: 0 <= t < |seeds| ==> seeds[t] in FinalIndices(seeds, n, before, after)
    ensures forall j :: j in FinalIndices(seeds, n, before, after) <==>
                        0 <= j < n && exists t :: 0 <= t < |seeds| && InWindow(seeds[t], j, n, before, after)
  {
    var included := IncludedIndices(seeds, n, before, after);
    var idx := FinalIndices(seeds, n, before, after);
    assert forall j :: j in included <==> 0 <= j < n && Covered(seeds, |seeds|, j, n, before, after);
    assert forall k :: 0 <= k < |idx| ==> idx[k] in idx;
    forall t | 0 <= t < |seeds|
      ensures seeds[t] in idx
    {
      assert InWindow(seeds[t], seeds[t], n, before, after);
    }
  }

  /** With non-negative counts a window is the clipped range
      `[s - before, s + after]`. */
  lemma WindowIsClippedRange(s: int, j: int, n: int, before: int, after: int)
    requires 0 <= s < n && 0 <= before && 0 <= after
    ensures InWindow(s, j, n, before, after) <==> 0 <= j < n && s - before <= j <= s + after
  {
  }

  // ---------------------------------------------------------------------
  // 4. Rendering

  /** The separator closing one range and opening the next. */
  function Separator(fence: string): string
  {
    fence + "\n\n" + fence
  }

  /** What the line at index `i` contributes: numbered (a removable line keeps
      only its number), or the bare line unless it is removable. */
  function LineEntry(lines: seq<string>, i: int, removes: seq<string>, numbers: bool, isMatch: Matcher): seq<string>
    requires 0 <= i < |lines|
  {
    var line := lines[i];
    var shouldRemove := AnyMatch(removes, line, isMatch);
    if numbers then [if shouldRemove then NatToString(i + 1) + ":" else NatToString(i + 1) + ": " + line]
    else if shouldRemove then []
    else [line]
  }

  /** C# `int` addition: the sum wrapped to 32 bits in two's complement. */
  function AddInt32(a: int, b: int): (r: int)
    ensures -0x8000_0000 <= r < 0x8000_0000
    ensures (a + b - r) % 0x1_0000_0000 == 0
    ensures -0x8000_0000 <= a + b < 0x8000_0000 ==> r == a + b
  {
    (a + b + 0x8000_0000) % 0x1_0000_0000 - 0x8000_0000
  }

  /** `includeLineCountBefore + includeLineCountAfter > 0`, with the sum
      computed as a 32-bit `int`. */
  predicate ContextRequested(before: int, after: int)
  {
    AddInt32(before, after) > 0
  }

  /** For counts whose sum fits in an `int`, context is requested exactly
      when the counts add up to more than zero. */
  lemma ContextRequestedPlain(before: int, after: int)
    requires -0x8000_0000 <= before + after < 0x8000_0000
    ensures ContextRequested(before, after) <==> before + after > 0
  {
  }

  /** Two negative counts whose sum wraps around ask for separators:
      `--lines-before -2147483648 --lines-after -1`. */
  lemma NegativeCountsWrapToContext()
    ensures ContextRequested(-0x8000_0000, -1)
    ensures AddInt32(-0x8000_0000, -1) == 0x7FFF_FFFF
  {
  }

  /** A separator goes before the `k`-th index when there is a previous one,
      the gap to it exceeds one line, and some context was asked for. The
      previous index counts even when its own line was dropped. */
  ghost function SeparatorBefore(idx: seq<int>, k: nat, before: int, after: int, fence: string): seq<string>
    requires k < |idx|
  {
    if k > 0 && idx[k] > idx[k - 1] + 1 && ContextRequested(before, after) then [Separator(fence)] else []
  }

  /** The output segments for the first `count` indices. */
  ghost function Rendered(lines: seq<string>, idx: seq<int>, count: nat, removes: seq<string>, numbers: bool,
                          before: int, after: int, fence: string, isMatch: Matcher): seq<string>
    requires count <= |idx| && InBounds(idx, |lines|)
  {
    if count == 0 then []
    else Rendered(lines, idx, count - 1, removes, numbers, before, after, fence, isMatch)
         + SeparatorBefore(idx, count - 1, before, after, fence)
         + LineEntry(lines, idx[count - 1], removes, numbers, isMatch)
  }

  /** Step 4 of Program.cs: the `output` list, walked with `previousIndex`. */
  method RenderIndices(allLines: seq<string>, finalLineIndices: seq<int>, removes: seq<string>, numbers: bool,
                       before: int, after: int, fence: string, isMatch: Matcher)
    returns (output: seq<string>)
    requires InBounds(finalLineIndices, |allLines|)
    ensures output == Rendered(allLines, finalLineIndices, |finalLineIndices|, removes, numbers, before, after, fence, isMatch)
  {
    output := [];
    var previousIndex: Option<int> := None;
    for k := 0 to |finalLineIndices|
      invariant output == Rendered(allLines, finalLineIndices, k, removes, numbers, before, after, fence, isMatch)
      invariant previousIndex == if k == 0 then None else Some(finalLineIndices[k - 1])
    {
      ghost var prev := output;
      var index := finalLineIndices[k];
      if previousIndex.Some? && index > previousIndex.value + 1 && ContextRequested(before, after) {
        output := output + [Separator(fence)];
      }
      assert output == prev + SeparatorBefore(finalLineIndices, k, before, after, fence);
      output := AppendEntry(output, allLines, index, removes, numbers, isMatch);
      previousIndex := Some(index);
    }
  }

  /** The body of the rendering loop after the separator: the line's entry,
      if any, goes at the end of `output`; LineEntry is its specification. */
  method AppendEntry(output: seq<string>, allLines: seq<string>, index: int, removes: seq<string>, numbers: bool,
                     isMatch: Matcher)
    returns (r: seq<string>)
    requires 0 <= index < |allLines|
    ensures r == output + LineEntry(allLines, index, removes, numbers, isMatch)
  {
    r := output;
    var line := allLines[index];
    var shouldRemove := AnyMatch(removes, line, isMatch);
    if numbers {
      r := r + [if shouldRemove then NatToString(index + 1) + ":" else NatToString(index + 1) + ": " + line];
    } else if !shouldRemove {
      r := r + [line];
    }
  }

  // ---------------------------------------------------------------------
  // What the rendering amounts to

  /** Number of breaks between consecutive indices among the first `count`. */
  ghost function Gaps(idx: seq<int>, count: nat): nat
    requires count <= |idx|
  {
    if count <= 1 then 0
    else Gaps(idx, count - 1) + (if idx[count - 1] > idx[count - 2] + 1 then 1 else 0)
  }

  /** The line entries of the first `count` indices, without separators. */
  ghost function LineEntries(lines: seq<string>, idx: seq<int>, count: nat, removes: seq<string>, numbers: bool,
                             isMatch: Matcher): seq<string>
    requires count <= |idx| && InBounds(idx, |lines|)
  {
    if count == 0 then []
    else LineEntries(lines, idx, count - 1, removes, numbers, isMatch) + LineEntry(lines, idx[count - 1], removes, numbers, isMatch)
  }

  ghost function Without(xs: seq<string>, x: string): seq<string>
  {
    if |xs| == 0 then []
    else Without(xs[..|xs| - 1], x) + (if xs[|xs| - 1] == x then [] else [xs[|xs| - 1]])
  }

  ghost function Occurrences(xs: seq<string>, x: string): nat
  {
    if |xs| == 0 then 0
    else Occurrences(xs[..|xs| - 1], x) + (if xs[|xs| - 1] == x then 1 else 0)
  }

  lemma {:induction false} WithoutAppend(a: seq<string>, b: seq<string>, x: string)
    ensures Without(a + b, x) == Without(a, x) + Without(b, x)
    ensures Occurrences(a + b, x) == Occurrences(a, x) + Occurrences(b, x)
  {
    if |b| == 0 {
      assert a + b == a;
    } else {
      WithoutAppend(a, b[..|b| - 1], x);
      assert (a + b)[..|a + b| - 1] == a + b[..|b| - 1];
    }
  }

  /** Entries of a file split on line breaks contain no line break, so no
      entry can be mistaken for a separator. */
  lemma EntryIsNotSeparator(lines: seq<string>, i: int, removes: seq<string>, numbers: bool, isMatch: Matcher, fence: string)
    requires 0 <= i < |lines| && '\n' !in lines[i]
    ensures forall e :: e in LineEntry(lines, i, removes, numbers, isMatch) ==> '\n' !in e && e != Separator(fence)
  {
    var num := NatToString(i + 1);
    assert '\n' !in num;
    assert Separator(fence)[|fence|] == '\n';
  }

  lemma {:induction false} WithoutSingle(e: string, x: string)
    ensures Without([e], x) == if e == x then [] else [e]
    ensures Occurrences([e], x) == if e == x then 1 else 0
  {
    assert [e][..0] == [];
  }

  lemma {:induction false} ShapeStep(prev: seq<string>, gap: seq<string>, entry: seq<string>, sep: string)
    requires gap == [] || gap == [sep]
    requires |entry| <= 1 && forall e :: e in entry ==> e != sep
    ensures Without(prev + gap + entry, sep) == Without(prev, sep) + entry
    ensures Occurrences(prev + gap + entry, sep) == Occurrences(prev, sep) + |gap|
  {
    WithoutAppend(prev + gap, entry, sep);
    WithoutAppend(prev, gap, sep);
    if entry != [] {
      assert entry[0] in entry;
      WithoutSingle(entry[0], sep);
      assert entry == [entry[0]];
    }
    assert Without(entry, sep) == entry;
    if gap != [] {
      WithoutSingle(sep, sep);
    }
    assert Without(gap, sep) == [];
    assert Without(prev, sep) + [] == Without(prev, sep);
  }

  /** The rendered output is the line entries in index order, with one
      separator per break in the indices when context was asked for, and
      none otherwise. */
  lemma RenderedShape(lines: seq<string>, idx: seq<int>, count: nat, removes: seq<string>, numbers: bool,
                      before: int, after: int, fence: string, isMatch: Matcher)
    requires count <= |idx| && InBounds(idx, |lines|)
    requires forall j :: 0 <= j < |lines| ==> '\n' !in lines[j]
    ensures Without(Rendered(lines, idx, count, removes, numbers, before, after, fence, isMatch), Separator(fence))
            == LineEntries(lines, idx, count, removes, numbers, isMatch)
    ensures Occurrences(Rendered(lines, idx, count, removes, numbers, before, after, fence, isMatch), Separator(fence))
            == if ContextRequested(before, after) then Gaps(idx, count) else 0
  {
    RenderedWithout(lines, idx, count, removes, numbers, before, after, fence, isMatch);
    RenderedOccurrences(lines, idx, count, removes, numbers, before, after, fence, isMatch);
  }

  lemma {:induction false} RenderedStep(lines: seq<string>, idx: seq<int>, count: nat, removes: seq<string>,
                                        numbers: bool, before: int, after: int, fence: string, isMatch: Matcher)
    requires 0 < count <= |idx| && InBounds(idx, |lines|)
    requires forall j :: 0 <= j < |lines| ==> '\n' !in lines[j]
    ensures var prev := Rendered(lines, idx, count - 1, removes, numbers, before, after, fence, isMatch);
            var cur := Rendered(lines, idx, count, removes, numbers, before, after, fence, isMatch);
            var gap := SeparatorBefore(idx, count - 1, before, after, fence);
            var entry := LineEntry(lines, idx[count - 1], removes, numbers, isMatch);
            Without(cur, Separator(fence)) == Without(prev, Separator(fence)) + entry
            && Occurrences(cur, Separator(fence)) == Occurrences(prev, Separator(fence)) + |gap|
  {
    var prev := Rendered(lines, idx, count - 1, removes, numbers, before, after, fence, isMatch);
    var gap := SeparatorBefore(idx, count - 1, before, after, fence);
    var entry := LineEntry(lines, idx[count - 1], removes, numbers, isMatch);
    assert Rendered(lines, idx, count, removes, numbers, before, after, fence, isMatch) == prev + gap + entry;
    EntryIsNotSeparator(lines, idx[count - 1], removes, numbers, isMatch, fence);
    ShapeStep(prev, gap, entry, Separator(fence));
  }

  lemma {:induction false} RenderedWithout(lines: seq<string>, idx: seq<int>, count: nat, removes: seq<string>,
                                           numbers: bool, before: int, after: int, fence: string, isMatch: Matcher)
    requires count <= |idx| && InBounds(idx, |lines|)
    requires forall j :: 0 <= j < |lines| ==> '\n' !in lines[j]
    ensures Without(Rendered(lines, idx, count, removes, numbers, before, after, fence, isMatch), Separator(fence))
            == LineEntries(lines, idx, count, removes, numbers, isMatch)
  {
    if count > 0 {
      RenderedWithout(lines, idx, count - 1, removes, numbers, before, after, fence, isMatch);
      RenderedStep(lines, idx, count, removes, numbers, before, after, fence, isMatch);
    }
  }

  lemma {:induction false} RenderedOccurrences(lines: seq<string>, idx: seq<int>, count: nat, removes: seq<string>,
                                               numbers: bool, before: int, after: int, fence: string, isMatch: Matcher)
    requires count <= |idx| && InBounds(idx, |lines|)
    requires forall j :: 0 <= j < |lines| ==> '\n' !in lines[j]
    ensures Occurrences(Rendered(lines, idx, count, removes, numbers, before, after, fence, isMatch), Separator(fence))
            == if ContextRequested(before, after) then Gaps(idx, count) else 0
  {
    if count > 0 {
      var sep := Separator(fence);
      var gap := |SeparatorBefore(idx, count - 1, before, after, fence)|;
      var prev := Occurrences(Rendered(lines, idx, count - 1, removes, numbers, before, after, fence, isMatch), sep);
      var cur := Occurrences(Rendered(lines, idx, count, removes, numbers, before, after, fence, isMatch), sep);
      var breaks := if ContextRequested(before, after) then Gaps(idx, count) else 0;
      RenderedOccurrences(lines, idx, count - 1, removes, numbers, before, after, fence, isMatch);
      assert prev == if ContextRequested(before, after) then Gaps(idx, count - 1) else 0;
      RenderedStep(lines, idx, count, removes, numbers, before, after, fence, isMatch);
      assert cur == prev + gap;
      GapStep(idx, count, before, after, fence);
      assert breaks == prev + gap;
    }
  }

  /** The separator before the last index is exactly the new break it adds. */
  lemma {:induction false} GapStep(idx: seq<int>, count: nat, before: int, after: int, fence: string)
    requires 0 < count <= |idx|
    ensures (if ContextRequested(before, after) then Gaps(idx, count) else 0)
            == (if ContextRequested(before, after) then Gaps(idx, count - 1) else 0) + |SeparatorBefore(idx, count - 1, before, after, fence)|
  {
    if count == 1 {
      assert SeparatorBefore(idx, 0, before, after, fence) == [];
    }
  }

  /** Where the entry of the `k`-th index lands in the numbered output: after
      the `k` earlier entries and after every separator up to its own. */
  ghost function EntryPosition(idx: seq<int>, k: nat, before: int, after: int): nat
    requires k < |idx|
  {
    k + (if ContextRequested(before, after) then Gaps(idx, k + 1) else 0)
  }

  /** With numbering every index gives one entry, so the output holds the
      entries and the separators and nothing else. */
  lemma {:induction false} NumberedLength(lines: seq<string>, idx: seq<int>, count: nat, removes: seq<string>,
                                          before: int, after: int, fence: string, isMatch: Matcher)
    requires count <= |idx| && InBounds(idx, |lines|)
    ensures |Rendered(lines, idx, count, removes, true, before, after, fence, isMatch)|
            == count + if ContextRequested(before, after) then Gaps(idx, count) else 0
  {
    if count > 0 {
      NumberedLength(lines, idx, count - 1, removes, before, after, fence, isMatch);
      GapStep(idx, count, before, after, fence);
    }
  }

  /** The numbered output ends with the entry of its last index. */
  lemma NumberedLast(lines: seq<string>, idx: seq<int>, count: nat, removes: seq<string>,
                     before: int, after: int, fence: string, isMatch: Matcher)
    requires 0 < count <= |idx| && InBounds(idx, |lines|)
    requires '\n' !in lines[idx[count - 1]]
    ensures var out := Rendered(lines, idx, count, removes, true, before, after, fence, isMatch);
            |out| > 0 && out[|out| - 1] != Separator(fence)
  {
    var entry := LineEntry(lines, idx[count - 1], removes, true, isMatch);
    EntryIsNotSeparator(lines, idx[count - 1], removes, true, isMatch, fence);
    assert entry[0] in entry;
  }

  /** In `out`, the entry of the `k`-th index sits at its EntryPosition, and a
      separator stands right before it exactly when that index does not
      follow the previous one and context was requested. */
  ghost predicate EntryPlaced(out: seq<string>, idx: seq<int>, k: nat, before: int, after: int, fence: string)
    requires k < |idx|
  {
    var p := EntryPosition(idx, k, before, after);
    p < |out| && 0 <= idx[k] && StartsWith(out[p], NatToString(idx[k] + 1) + ":")
    && (p > 0 && out[p - 1] == Separator(fence)
        <==> k > 0 && idx[k] > idx[k - 1] + 1 && ContextRequested(before, after))
  }

  /** Program.cs:628-631 with numbering: every entry is placed as EntryPlaced says. */
  lemma {:induction false} SeparatorsPlaced(lines: seq<string>, idx: seq<int>, count: nat, removes: seq<string>,
                                            before: int, after: int, fence: string, isMatch: Matcher)
    requires count <= |idx| && InBounds(idx, |lines|)
    requires forall j :: 0 <= j < |lines| ==> '\n' !in lines[j]
    ensures forall k :: 0 <= k < count ==>
              EntryPlaced(Rendered(lines, idx, count, removes, true, before, after, fence, isMatch), idx, k, before, after, fence)
  {
    if count > 0 {
      SeparatorsPlaced(lines, idx, count - 1, removes, before, after, fence, isMatch);
      var prev := Rendered(lines, idx, count - 1, removes, true, before, after, fence, isMatch);
      var out := Rendered(lines, idx, count, removes, true, before, after, fence, isMatch);
      assert prev <= out;
      forall k | 0 <= k < count
        ensures EntryPlaced(out, idx, k, before, after, fence)
      {
        if k < count - 1 {
          PlacedKept(prev, out, idx, k, before, after, fence);
        } else {
          LastPlaced(lines, idx, count, removes, before, after, fence, isMatch);
        }
      }
    }
  }

  lemma PlacedKept(prev: seq<string>, out: seq<string>, idx: seq<int>, k: nat, before: int, after: int, fence: string)
    requires k < |idx| && prev <= out && EntryPlaced(prev, idx, k, before, after, fence)
    ensures EntryPlaced(out, idx, k, before, after, fence)
  {
    var p := EntryPosition(idx, k, before, after);
    assert out[p] == prev[p];
    if p > 0 {
      assert out[p - 1] == prev[p - 1];
    }
  }

  /** The entry the last index appends is placed as EntryPlaced says. */
  lemma {:induction false} LastPlaced(lines: seq<string>, idx: seq<int>, count: nat, removes: seq<string>,
                                      before: int, after: int, fence: string, isMatch: Matcher)
    requires 0 < count <= |idx| && InBounds(idx, |lines|)
    requires forall j :: 0 <= j < |lines| ==> '\n' !in lines[j]
    ensures EntryPlaced(Rendered(lines, idx, count, removes, true, before, after, fence, isMatch),
                        idx, count - 1, before, after, fence)
  {
    NumberedLength(lines, idx, count - 1, removes, before, after, fence, isMatch);
    GapStep(idx, count, before, after, fence);
    var prev := Rendered(lines, idx, count - 1, removes, true, before, after, fence, isMatch);
    var gap := SeparatorBefore(idx, count - 1, before, after, fence);
    var i := idx[count - 1];
    var entry := LineEntry(lines, i, removes, true, isMatch);
    var out := prev + gap + entry;
    assert Rendered(lines, idx, count, removes, true, before, after, fence, isMatch) == out;
    NumberedEntryHead(NatToString(i + 1), lines[i], AnyMatch(removes, lines[i], isMatch));
    var p := EntryPosition(idx, count - 1, before, after);
    assert p == |prev| + |gap|;
    assert out[p] == entry[0];
    if gap != [] {
      assert out[p - 1] == Separator(fence);
    } else if count > 1 {
      NumberedLast(lines, idx, count - 1, removes, before, after, fence, isMatch);
      assert out[p - 1] == prev[|prev| - 1];
    }
  }

  lemma NumberedEntryHead(num: string, line: string, shouldRemove: bool)
    ensures StartsWith(if shouldRemove then num + ":" else num + ": " + line, num + ":")
  {
    var e := if shouldRemove then num + ":" else num + ": " + line;
    assert e[..|num + ":"|] == num + ":";
  }

  /** With numbering on, every index yields exactly one entry, headed by its
      1-based line number. */
  lemma {:induction false} NumberedEntries(lines: seq<string>, idx: seq<int>, count: nat, removes: seq<string>, isMatch: Matcher)
    requires count <= |idx| && InBounds(idx, |lines|)
    ensures |LineEntries(lines, idx, count, removes, true, isMatch)| == count
    ensures forall k :: 0 <= k < count ==>
              StartsWith(LineEntries(lines, idx, count, removes, true, isMatch)[k], NatToString(idx[k] + 1) + ":")
  {
    if count > 0 {
      NumberedEntries(lines, idx, count - 1, removes, isMatch);
      var i := idx[count - 1];
      NumberedEntryHead(NatToString(i + 1), lines[i], AnyMatch(removes, lines[i], isMatch));
      var prev := LineEntries(lines, idx, count - 1, removes, true, isMatch);
      var entry := LineEntry(lines, i, removes, true, isMatch);
      assert LineEntries(lines, idx, count, removes, true, isMatch) == prev + entry;
      assert |entry| == 1;
    }
  }

  /** A seed line is never dropped or blanked: it appears whole, numbered or not. */
  lemma SeedEntry(lines: seq<string>, s: int, includes: seq<string>, removes: seq<string>, numbers: bool, isMatch: Matcher)
    requires 0 <= s < |lines| && IsLineMatch(lines[s], includes, removes, isMatch)
    ensures LineEntry(lines, s, removes, numbers, isMatch)
            == if numbers then [NatToString(s + 1) + ": " + lines[s]] else [lines[s]]
  {
  }

  // ---------------------------------------------------------------------
  // The whole selector

  ghost function FilteredContent(content: string, includes: seq<string>, before: int, after: int, numbers: bool,
                                 removes: seq<string>, fence: string, isMatch: Matcher): string
  {
    var lines := Split(content, '\n');
    var seeds := Seeds(lines, includes, removes, isMatch);
    if |seeds| == 0 then ""
    else
      SeedsSpec(lines, includes, removes, isMatch);
      FinalIndicesSpec(seeds, |lines|, before, after);
      var idx := FinalIndices(seeds, |lines|, before, after);
      Join(Rendered(lines, idx, |idx|, removes, numbers, before, after, fence, isMatch), "\n")
  }

  method GetFilteredContent(content: string, includes: seq<string>, before: int, after: int, numbers: bool,
                            removes: seq<string>, fence: string, isMatch: Matcher)
    returns (r: string)
    ensures r == FilteredContent(content, includes, before, after, numbers, removes, fence, isMatch)
  {
    var allLines := Split(content, '\n');
    var matchedLineIndices := MatchedLineIndices(allLines, includes, removes, isMatch);
    if |matchedLineIndices| == 0 {
      return "";
    }
    SeedsSpec(allLines, includes, removes, isMatch);
    var linesToInclude := LinesToInclude(matchedLineIndices, |allLines|, before, after);
    assert linesToInclude == IncludedIndices(matchedLineIndices, |allLines|, before, after);
    var finalLineIndices := SortAscending(linesToInclude, |allLines|);
    assert forall k :: 0 <= k < |finalLineIndices| ==> finalLineIndices[k] in finalLineIndices;
    var output := RenderIndices(allLines, finalLineIndices, removes, numbers, before, after, fence, isMatch);
    r := Join(output, "\n");
  }

  /** When no line seeds, the selector yields the empty text, not the file. */
  lemma NoSeedNoContent(content: string, includes: seq<string>, before: int, after: int, numbers: bool,
                        removes: seq<string>, fence: string, isMatch: Matcher)
    ensures (forall j :: 0 <= j < |Split(content, '\n')| ==> !IsLineMatch(Split(content, '\n')[j], includes, removes, isMatch))
            ==> FilteredContent(content, includes, before, after, numbers, removes, fence, isMatch) == ""
  {
    var lines := Split(content, '\n');
    SeedsSpec(lines, includes, removes, isMatch);
    var seeds := Seeds(lines, includes, removes, isMatch);
    if |seeds| > 0 {
      assert seeds[0] in seeds;
      assert IsLineMatch(lines[seeds[0]], includes, removes, isMatch);
    }
  }

  // ---------------------------------------------------------------------
  // Worked cases

  /** FilteredContent unfolded once its three stages are known. */
  lemma {:induction false} FilteredFromStages(content: string, includes: seq<string>, before: int, after: int,
                                              numbers: bool, removes: seq<string>, fence: string, isMatch: Matcher,
                                              lines: seq<string>, seeds: seq<int>, idx: seq<int>)
    requires Split(content, '\n') == lines && |seeds| > 0
    requires Seeds(lines, includes, removes, isMatch) == seeds
    requires FinalIndices(seeds, |lines|, before, after) == idx
    ensures InBounds(idx, |lines|)
    ensures FilteredContent(content, includes, before, after, numbers, removes, fence, isMatch)
            == Join(Rendered(lines, idx, |idx|, removes, numbers, before, after, fence, isMatch), "\n")
  {
    SeedsSpec(lines, includes, removes, isMatch);
    FinalIndicesSpec(seeds, |lines|, before, after);
  }

  lemma {:induction false} SplitLines(lines: seq<string>, content: string)
    requires |lines| >= 1 && forall k :: 0 <= k < |lines| ==> '\n' !in lines[k]
    requires Join(lines, "\n") == content
    ensures Split(content, '\n') == lines
  {
    SplitJoin(lines, '\n');
  }

  /** A removed line never seeds, and without context a gap between seeds
      gets no separator. */
  lemma {:induction false} RemovedLineNoSeparator(fence: string, isMatch: Matcher)
    requires isMatch("^//", "// drop") && !isMatch("^//", "keep") && !isMatch("^//", "keep2")
    ensures FilteredContent("keep\n// drop\nkeep2", [], 0, 0, false, ["^//"], fence, isMatch) == "keep\nkeep2"
  {
    var lines := ["keep", "// drop", "keep2"];
    var removes := ["^//"];
    assert Join(lines, "\n") == "keep\n// drop\nkeep2" by {
      assert Join(lines[2..], "\n") == "keep2";
      assert Join(lines[1..], "\n") == "// drop\nkeep2";
    }
    SplitLines(lines, "keep\n// drop\nkeep2");
    RemovedLineSeeds(lines, removes, isMatch);
    RemovedLineIndices();
    RemovedLineRendered(lines, removes, fence, isMatch);
    FilteredFromStages("keep\n// drop\nkeep2", [], 0, 0, false, removes, fence, isMatch, lines, [0, 2], [0, 2]);
  }

  lemma {:induction false} RemovedLineSeeds(lines: seq<string>, removes: seq<string>, isMatch: Matcher)
    requires lines == ["keep", "// drop", "keep2"] && removes == ["^//"]
    requires isMatch("^//", "// drop") && !isMatch("^//", "keep") && !isMatch("^//", "keep2")
    ensures Seeds(lines, [], removes, isMatch) == [0, 2]
  {
    assert SeedsBelow(lines, 0, [], removes, isMatch) == [];
    assert SeedsBelow(lines, 1, [], removes, isMatch) == [0];
    assert SeedsBelow(lines, 2, [], removes, isMatch) == [0];
    assert SeedsBelow(lines, 3, [], removes, isMatch) == [0, 2];
  }

  lemma {:induction false} RemovedLineIndices()
    ensures FinalIndices([0, 2], 3, 0, 0) == [0, 2]
  {
    RemovedLineIncluded();
    var included: set<int> := {0, 2};
    assert 0 in included && 1 !in included && 2 in included;
    var r2 := AscendingWithin(included, 2, 3);
    assert r2 == [2] + AscendingWithin(included, 3, 3);
    assert r2 == [2];
    var r1 := AscendingWithin(included, 1, 3);
    assert r1 == [] + r2;
    var r0 := AscendingWithin(included, 0, 3);
    assert r0 == [0] + r1;
  }

  lemma {:induction false} RemovedLineIncluded()
    ensures IncludedIndices([0, 2], 3, 0, 0) == {0, 2}
  {
    var seeds := [0, 2];
    forall j | 0 <= j < 3
      ensures Covered(seeds, |seeds|, j, 3, 0, 0) <==> j == 0 || j == 2
    {
      assert InWindow(seeds[0], 0, 3, 0, 0) && InWindow(seeds[1], 2, 3, 0, 0);
    }
  }

  lemma {:induction false} RemovedLineRendered(lines: seq<string>, removes: seq<string>, fence: string, isMatch: Matcher)
    requires lines == ["keep", "// drop", "keep2"] && removes == ["^//"]
    requires !isMatch("^//", "keep") && !isMatch("^//", "keep2")
    ensures InBounds([0, 2], |lines|)
    ensures Join(Rendered(lines, [0, 2], 2, removes, false, 0, 0, fence, isMatch), "\n") == "keep\nkeep2"
  {
    var idx := [0, 2];
    assert Rendered(lines, idx, 0, removes, false, 0, 0, fence, isMatch) == [];
    assert Rendered(lines, idx, 1, removes, false, 0, 0, fence, isMatch) == ["keep"];
    assert Rendered(lines, idx, 2, removes, false, 0, 0, fence, isMatch) == ["keep", "keep2"];
  }

  /** One line of context each side, numbered from one, with the last line
      outside the window. */
  lemma {:induction false} NumberedContext(fence: string, isMatch: Matcher)
    requires isMatch("MATCH", "MATCH") && !isMatch("MATCH", "L1") && !isMatch("MATCH", "L3") && !isMatch("MATCH", "L4")
    ensures FilteredContent("L1\nMATCH\nL3\nL4", ["MATCH"], 1, 1, true, [], fence, isMatch) == "1: L1\n2: MATCH\n3: L3"
  {
    var lines := ["L1", "MATCH", "L3", "L4"];
    assert Join(lines, "\n") == "L1\nMATCH\nL3\nL4" by {
      assert Join(lines[3..], "\n") == "L4";
      assert Join(lines[2..], "\n") == "L3\nL4";
      assert Join(lines[1..], "\n") == "MATCH\nL3\nL4";
    }
    SplitLines(lines, "L1\nMATCH\nL3\nL4");
    NumberedContextSeeds(lines, isMatch);
    NumberedContextIndices();
    NumberedContextRendered(lines, fence, isMatch);
    FilteredFromStages("L1\nMATCH\nL3\nL4", ["MATCH"], 1, 1, true, [], fence, isMatch, lines, [1], [0, 1, 2]);
  }

  lemma {:induction false} NumberedContextSeeds(lines: seq<string>, isMatch: Matcher)
    requires lines == ["L1", "MATCH", "L3", "L4"]
    requires isMatch("MATCH", "MATCH") && !isMatch("MATCH", "L1") && !isMatch("MATCH", "L3") && !isMatch("MATCH", "L4")
    ensures Seeds(lines, ["MATCH"], [], isMatch) == [1]
  {
    var includes := ["MATCH"];
    assert SeedsBelow(lines, 0, includes, [], isMatch) == [];
    assert SeedsBelow(lines, 1, includes, [], isMatch) == [];
    assert SeedsBelow(lines, 2, includes, [], isMatch) == [1];
    assert SeedsBelow(lines, 3, includes, [], isMatch) == [1];
    assert SeedsBelow(lines, 4, includes, [], isMatch) == [1];
  }

  lemma {:induction false} NumberedContextIndices()
    ensures FinalIndices([1], 4, 1, 1) == [0, 1, 2]
  {
    NumberedContextIncluded();
    var included: set<int> := {0, 1, 2};
    assert AscendingWithin(included, 4, 4) == [];
    assert AscendingWithin(included, 3, 4) == [];
    assert AscendingWithin(included, 2, 4) == [2];
    assert AscendingWithin(included, 1, 4) == [1, 2];
    assert AscendingWithin(included, 0, 4) == [0, 1, 2];
  }

  lemma {:induction false} NumberedContextIncluded()
    ensures IncludedIndices([1], 4, 1, 1) == {0, 1, 2}
  {
    var seeds := [1];
    forall j | 0 <= j < 4
      ensures Covered(seeds, |seeds|, j, 4, 1, 1) <==> j <= 2
    {
      assert 0 <= j <= 2 ==> InWindow(seeds[0], j, 4, 1, 1);
    }
  }

  lemma {:induction false} NumberedContextRendered(lines: seq<string>, fence: string, isMatch: Matcher)
    requires lines == ["L1", "MATCH", "L3", "L4"]
    ensures InBounds([0, 1, 2], |lines|)
    ensures Join(Rendered(lines, [0, 1, 2], 3, [], true, 1, 1, fence, isMatch), "\n") == "1: L1\n2: MATCH\n3: L3"
  {
    NumberedContextSegments(lines, fence, isMatch);
    var out := ["1: L1", "2: MATCH", "3: L3"];
    assert Join(out[2..], "\n") == "3: L3";
    assert Join(out[1..], "\n") == "2: MATCH\n3: L3";
  }

  lemma {:induction false} NumberedContextSegments(lines: seq<string>, fence: string, isMatch: Matcher)
    requires lines == ["L1", "MATCH", "L3", "L4"]
    ensures InBounds([0, 1, 2], |lines|)
    ensures Rendered(lines, [0, 1, 2], 3, [], true, 1, 1, fence, isMatch) == ["1: L1", "2: MATCH", "3: L3"]
  {
    var idx := [0, 1, 2];
    NumberedContextEntries(lines, isMatch);
    assert SeparatorBefore(idx, 0, 1, 1, fence) == [];
    assert SeparatorBefore(idx, 1, 1, 1, fence) == [];
    assert SeparatorBefore(idx, 2, 1, 1, fence) == [];
    assert Rendered(lines, idx, 0, [], true, 1, 1, fence, isMatch) == [];
    assert Rendered(lines, idx, 1, [], true, 1, 1, fence, isMatch) == ["1: L1"];
    assert Rendered(lines, idx, 2, [], true, 1, 1, fence, isMatch) == ["1: L1", "2: MATCH"];
  }

  lemma {:induction false} NumberedContextEntries(lines: seq<string>, isMatch: Matcher)
    requires lines == ["L1", "MATCH", "L3", "L4"]
    ensures LineEntry(lines, 0, [], true, isMatch) == ["1: L1"]
    ensures LineEntry(lines, 1, [], true, isMatch) == ["2: MATCH"]
    ensures LineEntry(lines, 2, [], true, isMatch) == ["3: L3"]
  {
    assert NatToString(1) == "1" && NatToString(2) == "2" && NatToString(3) == "3";
    assert !AnyMatch([], "L1", isMatch) && !AnyMatch([], "MATCH", isMatch) && !AnyMatch([], "L3", isMatch);
    assert NatToString(1) + ": " + "L1" == "1: L1";
    assert NatToString(2) + ": " + "MATCH" == "2: MATCH";
    assert NatToString(3) + ": " + "L3" == "3: L3";
  }
}
