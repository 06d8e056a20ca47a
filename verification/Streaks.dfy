/**
 * Activity streaks (packages/app-runtime/src/session-stats.ts:371-394) on days counted as civil dates; the next day is
 * one more.
 */
module Streaks {

  ghost predicate Ascending(days: seq<int>) {
    forall i, j :: 0 <= i < j < |days| ==> days[i] < days[j]
  }

  /** The `n` days that end at `last` are all active. */
  ghost predicate Block(active: set<int>, last: int, n: nat) {
    forall day :: last - n < day <= last ==> day in active
  }

  function SetOf(days: seq<int>): set<int> { set day | day in days }

  /** How long the run of consecutive days is that ends at index `k`. */
  function RunAt(days: seq<int>, k: nat): (n: nat)
    requires k < |days|
    ensures 1 <= n <= k + 1
  {
    if k > 0 && days[k - 1] + 1 == days[k] then RunAt(days, k - 1) + 1 else 1
  }

  /** The run is a block, and no longer block ends there. */
  lemma {:induction false} RunIsBlock(days: seq<int>, k: nat)
    requires Ascending(days) && k < |days|
    ensures Block(SetOf(days), days[k], RunAt(days, k))
    ensures days[k] - RunAt(days, k) !in SetOf(days)
    decreases k
  {
    if k > 0 && days[k - 1] + 1 == days[k] {
      RunIsBlock(days, k - 1);
    } else {
      assert k > 0 ==> days[k - 1] < days[k];
      assert forall i :: 0 <= i < k ==> i == k - 1 || days[i] < days[k - 1];
      assert forall i :: 0 <= i < |days| ==> days[i] != days[k] - 1;
    }
  }

  /** The size of the largest block of consecutive active days. */
  method LongestStreak(days: seq<int>) returns (longest: nat)
    requires Ascending(days)
    ensures days == [] <==> longest == 0
    ensures forall last, n: nat :: Block(SetOf(days), last, n) ==> n <= longest
    ensures longest > 0 ==> exists last :: Block(SetOf(days), last, longest)
  {
    longest := 0;
    var run: nat := 0;
    ghost var best := 0;
    for k := 0 to |days|
      invariant k > 0 ==> run == RunAt(days, k - 1)
      invariant forall i :: 0 <= i < k ==> RunAt(days, i) <= longest
      invariant k > 0 ==> 0 <= best < k && longest == RunAt(days, best)
      invariant k == 0 ==> longest == 0
    {
      run := if k > 0 && days[k - 1] + 1 == days[k] then run + 1 else 1;
      if run > longest { best := k; }
      longest := if run > longest then run else longest;
    }
    if days != [] { RunIsBlock(days, best); }
    forall last, n: nat | Block(SetOf(days), last, n) ensures n <= longest {
      BlockIsWithinRun(days, last, n);
    }
  }

  lemma BlockIsWithinRun(days: seq<int>, last: int, n: nat)
    requires Ascending(days) && Block(SetOf(days), last, n)
    ensures n > 0 ==> exists k :: 0 <= k < |days| && days[k] == last && n <= RunAt(days, k)
  {
    if n > 0 {
      assert last in SetOf(days);
      var k :| 0 <= k < |days| && days[k] == last;
      RunIsBlock(days, k);
    }
  }

  /** The days of the set up to and including one, which bound how far back a streak can reach. */
  function UpTo(active: set<int>, day: int): set<int> { set d | d in active && d <= day }

  /**
   * The size of the block that ends today, or yesterday when there is nothing today; the loop stops because the
   * set is finite.
   */
  method CurrentStreak(active: set<int>, today: int) returns (streak: nat)
    ensures var anchor := if today in active then today else today - 1;
            && Block(active, anchor, streak) && anchor - streak !in active
            && (streak == 0 <==> anchor !in active)
  {
    var anchor := today;
    if today !in active {
      anchor := today - 1;
      if anchor !in active { return 0; }
    }
    streak := 0;
    var day := anchor;
    while day in active
      invariant day == anchor - streak && Block(active, anchor, streak)
      decreases |UpTo(active, day)|
    {
      assert day in UpTo(active, day) && day !in UpTo(active, day - 1);
      assert UpTo(active, day - 1) <= UpTo(active, day) - {day};
      Smaller(UpTo(active, day - 1), UpTo(active, day), day);
      streak := streak + 1;
      day := day - 1;
    }
  }

  lemma Smaller(a: set<int>, b: set<int>, x: int)
    requires a <= b - {x} && x in b
    ensures |a| < |b|
  {
    var rest := b - {x} - a;
    assert a + rest == b - {x} && a * rest == {};
    assert |b - {x}| == |a| + |rest|;
  }

  /** The two figures of an overview: the current streak is never longer than the longest. */
  method BothStreaks(days: seq<int>, today: int) returns (longest: nat, current: nat)
    requires Ascending(days)
    ensures current <= longest
    ensures forall last, n: nat :: Block(SetOf(days), last, n) ==> n <= longest
    ensures Block(SetOf(days), if today in days then today else today - 1, current)
  {
    longest := LongestStreak(days);
    current := CurrentStreak(SetOf(days), today);
  }
}
