/**
 * The reference lockdown policy of run.py: given the recorded series of
 * active cases and deaths and the population size, decide how many ticks
 * of national lockdown to declare (0 means none).
 */
module Run {

  /** The two ways the policy raises: `max` of an empty list, and division by zero. */
  datatype PolicyError = EmptyHistory | ZeroPopulation

  datatype Result<T> = Ok(value: T) | Err(error: PolicyError)

  /** Length of a declared lockdown: three weeks of twelve ticks a day. */
  const LockdownTicks: int := 21 * 12

  /** Number of most recent entries the policy looks at. */
  const WindowSize: nat := 20

  /** The slice `s[-20:]`: the last 20 entries, or all of them when there are fewer. */
  function Window(s: seq<int>): (w: seq<int>)
    ensures |w| == if |s| < WindowSize then |s| else WindowSize
    ensures w == s[|s| - |w|..]
  {
    if |s| <= WindowSize then s else s[|s| - WindowSize..]
  }

  /** Python's `max` of a non-empty list. */
  function Max(s: seq<int>): (m: int)
    requires |s| > 0
    ensures m in s
    ensures forall i :: 0 <= i < |s| ==> s[i] <= m
  {
    if |s| == 1 then s[0]
    else
      var rest := Max(s[1..]);
      if s[0] < rest then rest else s[0]
  }

  /**
   * The float test `m / populationSize > 0.2`, stated exactly over the
   * integers: multiply both sides by the (non-zero) divisor, flipping the
   * comparison when it is negative.
   */
  predicate AboveOneFifth(m: int, populationSize: int)
    requires populationSize != 0
  {
    if populationSize > 0 then 5 * m > populationSize else 5 * m < populationSize
  }

  /**
   * `lockdown_policy(infected, deaths, population_size)`. The `deaths`
   * argument is accepted and never read.
   */
  function LockdownPolicy(infected: seq<int>, deaths: seq<int>, populationSize: int): (r: Result<int>)
    ensures r.Err? <==> |infected| == 0 || populationSize == 0
    ensures |infected| == 0 ==> r == Err(EmptyHistory)
    ensures |infected| > 0 && populationSize == 0 ==> r == Err(ZeroPopulation)
    ensures r.Ok? ==> r.value == 0 || r.value == LockdownTicks
  {
    if |infected| == 0 then Err(EmptyHistory)
    else if populationSize == 0 then Err(ZeroPopulation)
    else if AboveOneFifth(Max(Window(infected)), populationSize) then Ok(LockdownTicks)
    else Ok(0)
  }

  /**
   * For a positive population the policy declares a lockdown exactly when
   * some entry among the last 20 is more than a fifth of the population,
   * and declares none otherwise (so `max / population == 1/5` declares none).
   */
  lemma DeclaresIffRecentEntryAboveFifth(infected: seq<int>, deaths: seq<int>, populationSize: int)
    requires |infected| > 0 && populationSize > 0
    ensures LockdownPolicy(infected, deaths, populationSize) == Ok(LockdownTicks) <==>
      exists i :: |infected| - |Window(infected)| <= i < |infected| && 5 * infected[i] > populationSize
    ensures LockdownPolicy(infected, deaths, populationSize) == Ok(0) <==>
      forall i :: |infected| - |Window(infected)| <= i < |infected| ==> 5 * infected[i] <= populationSize
  {
    var w := Window(infected);
    var start := |infected| - |w|;
    var m := Max(w);
    var k :| 0 <= k < |w| && w[k] == m;
    assert infected[start + k] == m;
    forall i | start <= i < |infected|
      ensures infected[i] <= m
    {
      assert infected[i] == w[i - start];
    }
  }

  /**
   * Entries older than the last 20, and the deaths series, never affect
   * the decision: two histories that share their last 20 entries are
   * judged alike.
   */
  lemma OnlyRecentEntriesMatter(older: seq<int>, recent: seq<int>, deaths1: seq<int>, deaths2: seq<int>, populationSize: int)
    requires |recent| >= WindowSize
    ensures LockdownPolicy(older + recent, deaths1, populationSize) == LockdownPolicy(recent, deaths2, populationSize)
  {
    var s := older + recent;
    assert Window(s) == Window(recent) by {
      assert s[|s| - WindowSize..] == recent[|recent| - WindowSize..];
    }
  }

  /**
   * With fewer than 20 entries the whole history is examined: the
   * decision is a lockdown as soon as any entry exceeds a fifth.
   */
  lemma ShortHistoryExaminedWhole(infected: seq<int>, deaths: seq<int>, populationSize: int, i: int)
    requires populationSize > 0 && |infected| < WindowSize
    requires 0 <= i < |infected| && 5 * infected[i] > populationSize
    ensures LockdownPolicy(infected, deaths, populationSize) == Ok(LockdownTicks)
  {
    DeclaresIffRecentEntryAboveFifth(infected, deaths, populationSize);
  }

  /**
   * Raising any entries among the last 20 cannot turn a declared
   * lockdown into none.
   */
  lemma MonotoneInWindow(a: seq<int>, b: seq<int>, deaths: seq<int>, populationSize: int)
    requires |a| == |b| > 0 && populationSize > 0
    requires forall i :: |a| - |Window(a)| <= i < |a| ==> a[i] <= b[i]
    requires LockdownPolicy(a, deaths, populationSize) == Ok(LockdownTicks)
    ensures LockdownPolicy(b, deaths, populationSize) == Ok(LockdownTicks)
  {
    DeclaresIffRecentEntryAboveFifth(a, deaths, populationSize);
    var i :| |a| - |Window(a)| <= i < |a| && 5 * a[i] > populationSize;
    assert 5 * b[i] > populationSize;
    DeclaresIffRecentEntryAboveFifth(b, deaths, populationSize);
  }

  /**
   * A history whose latest entry is at least 21% of the population (for
   * instance nineteen zeros followed by that entry) makes the policy
   * declare a lockdown.
   */
  lemma LatestAboveTwentyOnePercentDeclares(infected: seq<int>, deaths: seq<int>, populationSize: int)
    requires |infected| > 0 && populationSize > 0
    requires 100 * infected[|infected| - 1] >= 21 * populationSize
    ensures LockdownPolicy(infected, deaths, populationSize) == Ok(LockdownTicks)
  {
    DeclaresIffRecentEntryAboveFifth(infected, deaths, populationSize);
    assert 5 * infected[|infected| - 1] > populationSize;
  }
}
