/**
 * Longest job first: the queue is sorted by falling duration before it is handed out, which makes
 * the greedy makespan at most 3/2 - 1/(2m) times that of any assignment.
 */
module LongestFirst {
  import opened Common
  import opened LoadBalancing

  /** Slots the greedy loop used hold at least its shortest job; the others are as they were. */
  lemma {:induction false} UsedSlots(loads: seq<real>, jobs: seq<real>, d: real, k: nat)
    requires loads != [] && NonNegative(loads) && k < |loads| && d >= 0.0
    requires forall i :: 0 <= i < |jobs| ==> jobs[i] >= d
    ensures Greedy(loads, jobs)[k] >= 0.0
    ensures k in GreedySlots(loads, jobs) ==> Greedy(loads, jobs)[k] >= d
    ensures k !in GreedySlots(loads, jobs) ==> Greedy(loads, jobs)[k] == loads[k]
  {
    if jobs != [] { UsedSlots(loads, jobs[..|jobs| - 1], d, k); }
  }

  /** Two jobs on one slot add up. */
  lemma {:induction false} AssignKeepsTwo(loads: seq<real>, jobs: seq<real>, slots: seq<nat>, i: nat, j: nat)
    requires |slots| == |jobs| && forall t :: 0 <= t < |slots| ==> slots[t] < |loads|
    requires NonNegative(loads) && NonNegative(jobs) && i < j < |jobs| && slots[i] == slots[j]
    ensures Assign(loads, jobs, slots)[slots[j]] >= jobs[i] + jobs[j]
  {
    var n := |jobs| - 1;
    assert slots[..n][i] == slots[i] && jobs[..n][i] == jobs[i];
    if j == n {
      AssignKeeps(loads, jobs[..n], slots[..n], slots[i]);
    } else {
      assert slots[..n][j] == slots[j] && jobs[..n][j] == jobs[j];
      AssignKeepsTwo(loads, jobs[..n], slots[..n], i, j);
    }
  }

  /** What any assignment with makespan `opt` must do with jobs longer than half of it. */
  lemma {:induction false} BigJobsApart(loads: seq<real>, jobs: seq<real>, slots: seq<nat>, n: nat)
    requires |slots| == |jobs| && forall t :: 0 <= t < |slots| ==> slots[t] < |loads|
    requires NonNegative(loads) && NonNegative(jobs) && Descending(jobs) && n < |jobs|
    requires jobs[n] + jobs[n] > Makespan(Assign(loads, jobs, slots))
    ensures Distinct(slots[..n + 1])
    ensures forall i :: 0 <= i <= n ==> loads[slots[i]] + jobs[n] <= Makespan(Assign(loads, jobs, slots))
  {
    var first := slots[..n + 1];
    forall i, j | 0 <= i < j < |first| ensures first[i] != first[j] {
      if slots[i] == slots[j] { AssignKeepsTwo(loads, jobs, slots, i, j); }
    }
    forall i | 0 <= i <= n ensures loads[slots[i]] + jobs[n] <= Makespan(Assign(loads, jobs, slots)) {
      AssignKeeps(loads, jobs, slots, slots[i]);
    }
  }

  /** So the greedy loop finds a slot that no long job is on yet and where the next one fits. */
  lemma {:induction false} BigJobFits(loads: seq<real>, jobs: seq<real>, slots: seq<nat>, n: nat)
    requires |slots| == |jobs| && forall t :: 0 <= t < |slots| ==> slots[t] < |loads|
    requires loads != [] && NonNegative(loads) && NonNegative(jobs) && Descending(jobs) && n < |jobs|
    requires jobs[n] + jobs[n] > Makespan(Assign(loads, jobs, slots))
    ensures var before := Greedy(loads, jobs[..n]);
            before[FirstLeast(before)] + jobs[n] <= Makespan(Assign(loads, jobs, slots))
  {
    var opt, d := Makespan(Assign(loads, jobs, slots)), jobs[n];
    var before, used := Greedy(loads, jobs[..n]), ToSet(GreedySlots(loads, jobs[..n]));
    var least := before[FirstLeast(before)];
    BigJobsApart(loads, jobs, slots, n);
    if least + d > opt {
      forall k | k in slots[..n + 1] ensures k in used {
        var i :| 0 <= i <= n && slots[i] == k;
        UsedSlots(loads, jobs[..n], d, k);
      }
      CardinalityBound(GreedySlots(loads, jobs[..n]));
      Pigeonhole(slots[..n + 1], used);
    }
  }

  /** `2m` times the load is at most `3m - 1` times the other makespan. */
  ghost predicate WithinTimes(m: nat, load: real, opt: real) {
    m > 0 && Times(2 * m, load) <= Times(3 * m - 1, opt)
  }

  /** The load of the slot that receives job `n`, with it. */
  ghost function LoadWith(loads: seq<real>, jobs: seq<real>, n: nat): real
    requires loads != [] && n < |jobs|
  {
    var before := Greedy(loads, jobs[..n]);
    before[FirstLeast(before)] + jobs[n]
  }

  lemma {:induction false} SmallJob(m: nat, least: real, total: real, d: real, opt: real)
    requires m > 0 && Times(m, least) <= total && total + d <= Times(m, opt) && 0.0 <= d && d + d <= opt
    ensures WithinTimes(m, least + d, opt)
  {
    TimesSum(m, least, d);
    TimesSum(m - 1, d, d);
    TimesMonotone(m - 1, d + d, opt);
    TimesAdds(m, m, least + d);
    TimesAdds(m, m, opt);
    TimesAdds(2 * m, m - 1, opt);
  }

  lemma {:induction false} WithinOpt(m: nat, x: real, opt: real)
    requires m > 0 && x <= opt && 0.0 <= opt
    ensures WithinTimes(m, x, opt)
  {
    TimesMonotone(2 * m, x, opt);
    TimesAdds(2 * m, m - 1, opt);
    TimesOfZero(m - 1);
    TimesMonotone(m - 1, 0.0, opt);
  }

  lemma {:induction false} TotalPrefix(jobs: seq<real>, n: nat)
    requires NonNegative(jobs) && n < |jobs|
    ensures Total(jobs[..n]) + jobs[n] <= Total(jobs)
  {
    var front := jobs[..|jobs| - 1];
    if n < |front| {
      TotalPrefix(front, n);
      assert front[..n] == jobs[..n];
    }
  }

  /** The bound for the slot that receives job `n`. */
  lemma {:induction false} NextLoad(loads: seq<real>, jobs: seq<real>, slots: seq<nat>, n: nat)
    requires |slots| == |jobs| && forall t :: 0 <= t < |slots| ==> slots[t] < |loads|
    requires loads != [] && NonNegative(loads) && NonNegative(jobs) && Descending(jobs) && n < |jobs|
    ensures WithinTimes(|loads|, LoadWith(loads, jobs, n), Makespan(Assign(loads, jobs, slots)))
  {
    var opt := Makespan(Assign(loads, jobs, slots));
    if jobs[n] + jobs[n] > opt {
      BigJobFits(loads, jobs, slots, n);
      WithinOpt(|loads|, LoadWith(loads, jobs, n), opt);
    } else {
      MakespanLowerBounds(loads, jobs, slots);
      SmallJobFits(loads, jobs, n, opt);
    }
  }

  lemma {:induction false} SmallJobFits(loads: seq<real>, jobs: seq<real>, n: nat, opt: real)
    requires loads != [] && NonNegative(jobs) && n < |jobs| && jobs[n] + jobs[n] <= opt
    requires Total(loads) + Total(jobs) <= Times(|loads|, opt)
    ensures WithinTimes(|loads|, LoadWith(loads, jobs, n), opt)
  {
    var before := Greedy(loads, jobs[..n]);
    LeastIsSmall(loads, jobs, n);
    SmallJob(|loads|, before[FirstLeast(before)], Total(before), jobs[n], opt);
  }

  lemma {:induction false} LeastIsSmall(loads: seq<real>, jobs: seq<real>, n: nat)
    requires loads != [] && NonNegative(jobs) && n < |jobs|
    ensures var before := Greedy(loads, jobs[..n]);
            Times(|loads|, before[FirstLeast(before)]) <= Total(before) &&
              Total(before) + jobs[n] <= Total(loads) + Total(jobs)
  {
    var before := Greedy(loads, jobs[..n]);
    GreedyConserves(loads, jobs[..n]);
    TotalAtLeast(before, before[FirstLeast(before)]);
    TotalPrefix(jobs, n);
  }

  lemma {:induction false} SlotBound(loads: seq<real>, jobs: seq<real>, opt: real, n: nat, k: nat)
    requires loads != [] && n <= |jobs| && k < |loads| && WithinTimes(|loads|, loads[k], opt)
    requires forall i :: 0 <= i < n ==> WithinTimes(|loads|, LoadWith(loads, jobs, i), opt)
    ensures WithinTimes(|loads|, Greedy(loads, jobs[..n])[k], opt)
  {
    if n > 0 {
      var before := Greedy(loads, jobs[..n - 1]);
      GreedyNext(loads, jobs, n - 1);
      assert WithinTimes(|loads|, LoadWith(loads, jobs, n - 1), opt);
      if k != FirstLeast(before) { SlotBound(loads, jobs, opt, n - 1, k); }
    }
  }

  /** One more job changes the least loaded slot and no other. */
  lemma {:induction false} GreedyNext(loads: seq<real>, jobs: seq<real>, n: nat)
    requires loads != [] && n < |jobs|
    ensures var before := Greedy(loads, jobs[..n]);
            var slot := FirstLeast(before);
            Greedy(loads, jobs[..n + 1]) == before[slot := before[slot] + jobs[n]]
  {
    assert jobs[..n + 1][..n] == jobs[..n];
  }

  /**
   * Longest first: 2m times the greedy makespan is at most 3m - 1 times that of any assignment of
   * the same jobs onto the same running loads.
   */
  lemma {:induction false} LongestFirstNearOptimal(loads: seq<real>, jobs: seq<real>, slots: seq<nat>)
    requires |slots| == |jobs| && forall t :: 0 <= t < |slots| ==> slots[t] < |loads|
    requires loads != [] && NonNegative(loads) && NonNegative(jobs) && Descending(jobs)
    ensures WithinTimes(|loads|, Makespan(Greedy(loads, jobs)), Makespan(Assign(loads, jobs, slots)))
  {
    var r := Greedy(loads, jobs);
    if Makespan(r) == 0.0 {
      WithinOpt(|loads|, 0.0, Makespan(Assign(loads, jobs, slots)));
    } else {
      var k :| 0 <= k < |r| && r[k] == Makespan(r);
      EverySlot(loads, jobs, slots, k);
    }
  }

  lemma {:induction false} EverySlot(loads: seq<real>, jobs: seq<real>, slots: seq<nat>, k: nat)
    requires |slots| == |jobs| && forall t :: 0 <= t < |slots| ==> slots[t] < |loads|
    requires loads != [] && NonNegative(loads) && NonNegative(jobs) && Descending(jobs) && k < |loads|
    ensures WithinTimes(|loads|, Greedy(loads, jobs)[k], Makespan(Assign(loads, jobs, slots)))
  {
    var opt := Makespan(Assign(loads, jobs, slots));
    MakespanLowerBounds(loads, jobs, slots);
    WithinOpt(|loads|, loads[k], opt);
    forall i | 0 <= i < |jobs| ensures WithinTimes(|loads|, LoadWith(loads, jobs, i), opt) {
      NextLoad(loads, jobs, slots, i);
    }
    SlotBound(loads, jobs, opt, |jobs|, k);
    assert jobs[..|jobs|] == jobs;
  }

  ghost predicate WithinThreeHalves(m: nat, a: real, b: real) {
    m > 0 && a <= (1.5 - 0.5 / m as real) * b
  }

  lemma DivideThroughTwice(m: real, a: real, b: real)
    requires m > 0.0 && 2.0 * m * a <= (3.0 * m - 1.0) * b
    ensures a <= (1.5 - 0.5 / m) * b
  {
    var c := (1.5 - 0.5 / m) * b;
    assert 2.0 * m * (1.5 - 0.5 / m) == 3.0 * m - 1.0;
    assert 2.0 * m * c == (2.0 * m * (1.5 - 0.5 / m)) * b;
  }

  /** The same bound as a ratio. */
  lemma {:induction false} LongestFirstRatio(loads: seq<real>, jobs: seq<real>, slots: seq<nat>)
    requires |slots| == |jobs| && forall t :: 0 <= t < |slots| ==> slots[t] < |loads|
    requires loads != [] && NonNegative(loads) && NonNegative(jobs) && Descending(jobs)
    ensures WithinThreeHalves(|loads|, Makespan(Greedy(loads, jobs)), Makespan(Assign(loads, jobs, slots)))
  {
    LongestFirstNearOptimal(loads, jobs, slots);
    ThreeHalvesFromTimes(|loads|, Makespan(Greedy(loads, jobs)), Makespan(Assign(loads, jobs, slots)));
  }

  lemma ThreeHalvesFromTimes(m: nat, a: real, b: real)
    requires m > 0 && Times(2 * m, a) <= Times(3 * m - 1, b)
    ensures WithinThreeHalves(m, a, b)
  {
    TimesIsProduct(2 * m, a);
    TimesIsProduct(3 * m - 1, b);
    assert (2 * m) as real == 2.0 * m as real && (3 * m - 1) as real == 3.0 * m as real - 1.0;
    DivideThroughTwice(m as real, a, b);
  }
}
