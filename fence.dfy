/** Fence sizing for markdown files (`GetMaxBacktickCharSequence`): the fence
    must be longer than every run of backticks inside the content, so that
    the content cannot close the block early. */
module Fence {

  /** `s[i..j]` consists of backticks only. */
  ghost predicate IsBacktickRun(s: string, i: int, j: int)
  {
    0 <= i <= j <= |s| && forall k :: i <= k < j ==> s[k] == '`'
  }

  /** Length of the run of backticks that ends `s`. */
  ghost function TrailingRun(s: string): nat
  {
    if |s| == 0 || s[|s| - 1] != '`' then 0 else TrailingRun(s[..|s| - 1]) + 1
  }

  /** Length of the longest run of backticks anywhere in `s`. */
  ghost function LongestRun(s: string): nat
  {
    if |s| == 0 then 0
    else
      var before := LongestRun(s[..|s| - 1]);
      if TrailingRun(s) > before then TrailingRun(s) else before
  }

  /** The fence length the tool chooses: `Math.Max(3, longest + 1)`. */
  ghost function FenceLength(s: string): nat
  {
    if LongestRun(s) + 1 > 3 then LongestRun(s) + 1 else 3
  }

  /** The single counting pass of Program.cs, with its two counters. */
  method GetMaxBacktickCharSequence(content: string) returns (n: nat)
    ensures n == FenceLength(content)
  {
    var maxConsecutiveBackticks: nat := 0;
    var currentStreak: nat := 0;
    for k := 0 to |content|
      invariant currentStreak == TrailingRun(content[..k])
      invariant maxConsecutiveBackticks == LongestRun(content[..k])
    {
      assert content[..k + 1][..k] == content[..k];
      if content[k] == '`' {
        currentStreak := currentStreak + 1;
        if currentStreak > maxConsecutiveBackticks {
          maxConsecutiveBackticks := currentStreak;
        }
      } else {
        currentStreak := 0;
      }
    }
    assert content[..|content|] == content;
    n := if 3 > maxConsecutiveBackticks + 1 then 3 else maxConsecutiveBackticks + 1;
  }

  lemma {:induction false} TrailingRunIsRun(s: string)
    ensures IsBacktickRun(s, |s| - TrailingRun(s), |s|)
  {
    if |s| > 0 && s[|s| - 1] == '`' {
      TrailingRunIsRun(s[..|s| - 1]);
    }
  }

  lemma {:induction false} TrailingRunBound(s: string, i: int)
    requires IsBacktickRun(s, i, |s|)
    ensures |s| - i <= TrailingRun(s)
  {
    if i < |s| {
      TrailingRunBound(s[..|s| - 1], i);
    }
  }

  /** No run of backticks in `s` is longer than LongestRun(s). */
  lemma {:induction false} LongestRunBounds(s: string, i: int, j: int)
    requires IsBacktickRun(s, i, j)
    ensures j - i <= LongestRun(s)
  {
    if j == |s| {
      if |s| > 0 {
        TrailingRunBound(s, i);
      }
    } else {
      LongestRunBounds(s[..|s| - 1], i, j);
    }
  }

  /** Some run of backticks in `s` has exactly the length LongestRun(s). */
  lemma {:induction false} LongestRunAttained(s: string) returns (i: int)
    ensures IsBacktickRun(s, i, i + LongestRun(s))
  {
    if |s| == 0 {
      i := 0;
    } else if TrailingRun(s) > LongestRun(s[..|s| - 1]) {
      TrailingRunIsRun(s);
      i := |s| - TrailingRun(s);
    } else {
      i := LongestRunAttained(s[..|s| - 1]);
    }
  }

  /** The fence is at least three backticks, strictly longer than every run of
      backticks in the content, and no longer than it needs to be. */
  lemma FenceExceedsEveryRun(s: string)
    ensures FenceLength(s) >= 3
    ensures forall i, j :: IsBacktickRun(s, i, j) ==> j - i < FenceLength(s)
    ensures FenceLength(s) == 3 || exists i, j :: IsBacktickRun(s, i, j) && j - i == FenceLength(s) - 1
  {
    forall i, j | IsBacktickRun(s, i, j)
      ensures j - i < FenceLength(s)
    {
      LongestRunBounds(s, i, j);
    }
    var w := LongestRunAttained(s);
    assert IsBacktickRun(s, w, w + LongestRun(s));
  }
}
