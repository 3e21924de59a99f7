/**
 * The list scheduler behind the batch ETA: each queued job goes to the worker slot that is free
 * first. Loads are seconds, as exact reals.
 */
module LoadBalancing {

  function Total(s: seq<real>): real {
    if s == [] then 0.0 else Total(s[..|s| - 1]) + s[|s| - 1]
  }

  /** `n * x`, by repeated addition. */
  function Times(n: nat, x: real): real {
    if n == 0 then 0.0 else Times(n - 1, x) + x
  }

  lemma {:induction false} TimesIsProduct(n: nat, x: real)
    ensures Times(n, x) == n as real * x
  {
    if n > 0 { TimesIsProduct(n - 1, x); }
  }

  lemma {:induction false} TimesMonotone(n: nat, x: real, y: real)
    requires x <= y
    ensures Times(n, x) <= Times(n, y)
  {
    if n > 0 { TimesMonotone(n - 1, x, y); }
  }

  lemma {:induction false} TimesAdds(n: nat, k: nat, x: real)
    ensures Times(n + k, x) == Times(n, x) + Times(k, x)
  {
    if k > 0 { TimesAdds(n, k - 1, x); }
  }

  lemma {:induction false} TimesSum(n: nat, x: real, y: real)
    ensures Times(n, x + y) == Times(n, x) + Times(n, y)
  {
    if n > 0 { TimesSum(n - 1, x, y); }
  }

  lemma {:induction false} TimesOfZero(n: nat)
    ensures Times(n, 0.0) == 0.0
  {
    if n > 0 { TimesOfZero(n - 1); }
  }

  /** `fold(0.0, f64::max)`. */
  function Makespan(s: seq<real>): (r: real)
    ensures r >= 0.0
    ensures forall i :: 0 <= i < |s| ==> s[i] <= r
    ensures r == 0.0 || r in s
  {
    if s == [] then 0.0
    else
      var r := Makespan(s[..|s| - 1]);
      assert forall i :: 0 <= i < |s| - 1 ==> s[i] == s[..|s| - 1][i];
      if r < s[|s| - 1] then s[|s| - 1] else r
  }

  ghost predicate NonNegative(s: seq<real>) {
    forall i :: 0 <= i < |s| ==> s[i] >= 0.0
  }

  ghost predicate Descending(s: seq<real>) {
    forall i, j :: 0 <= i < j < |s| ==> s[i] >= s[j]
  }

  /** The first slot with the least load. */
  function FirstLeast(s: seq<real>): (k: nat)
    requires s != []
    ensures k < |s|
    ensures forall i :: 0 <= i < |s| ==> s[k] <= s[i]
    ensures forall i :: 0 <= i < k ==> s[k] < s[i]
  {
    if |s| == 1 then 0
    else
      var front := s[..|s| - 1];
      var k := FirstLeast(front);
      assert forall i :: 0 <= i < |front| ==> front[i] == s[i];
      if s[|s| - 1] < s[k] then |s| - 1 else k
  }

  function Place(loads: seq<real>, slot: nat, d: real): seq<real>
    requires slot < |loads|
  {
    loads[slot := loads[slot] + d]
  }

  /** Longest list first is up to the caller; each job goes to the least loaded slot. */
  function Greedy(loads: seq<real>, jobs: seq<real>): (r: seq<real>)
    requires loads != []
    ensures |r| == |loads|
  {
    if jobs == [] then loads
    else
      var before := Greedy(loads, jobs[..|jobs| - 1]);
      Place(before, FirstLeast(before), jobs[|jobs| - 1])
  }

  /** Any other way to hand out the same jobs: job `i` to slot `slots[i]`. */
  function Assign(loads: seq<real>, jobs: seq<real>, slots: seq<nat>): (r: seq<real>)
    requires |slots| == |jobs| && forall i :: 0 <= i < |slots| ==> slots[i] < |loads|
    ensures |r| == |loads|
  {
    if jobs == [] then loads
    else
      var n := |jobs| - 1;
      Place(Assign(loads, jobs[..n], slots[..n]), slots[n], jobs[n])
  }

  method AssignGreedily(loads0: seq<real>, jobs: seq<real>) returns (loads: seq<real>)
    requires loads0 != []
    ensures loads == Greedy(loads0, jobs)
  {
    loads := loads0;
    for i := 0 to |jobs|
      invariant loads == Greedy(loads0, jobs[..i])
    {
      assert jobs[..i + 1][..i] == jobs[..i];
      var slot := FirstLeast(loads);
      loads := loads[slot := loads[slot] + jobs[i]];
    }
    assert jobs[..|jobs|] == jobs;
  }

  // ----- conservation -----

  lemma {:induction false} TotalUpdate(s: seq<real>, k: nat, d: real)
    requires k < |s|
    ensures Total(s[k := s[k] + d]) == Total(s) + d
  {
    var n := |s| - 1;
    if k == n {
      assert s[k := s[k] + d][..n] == s[..n];
    } else {
      assert s[k := s[k] + d][..n] == s[..n][k := s[..n][k] + d];
      TotalUpdate(s[..n], k, d);
    }
  }

  /** The assignment loop neither loses nor invents work. */
  lemma {:induction false} GreedyConserves(loads: seq<real>, jobs: seq<real>)
    requires loads != []
    ensures Total(Greedy(loads, jobs)) == Total(loads) + Total(jobs)
  {
    if jobs != [] {
      var front := jobs[..|jobs| - 1];
      GreedyConserves(loads, front);
      TotalUpdate(Greedy(loads, front), FirstLeast(Greedy(loads, front)), jobs[|jobs| - 1]);
    }
  }

  lemma {:induction false} AssignConserves(loads: seq<real>, jobs: seq<real>, slots: seq<nat>)
    requires |slots| == |jobs| && forall i :: 0 <= i < |slots| ==> slots[i] < |loads|
    ensures Total(Assign(loads, jobs, slots)) == Total(loads) + Total(jobs)
  {
    if jobs != [] {
      var n := |jobs| - 1;
      AssignConserves(loads, jobs[..n], slots[..n]);
      TotalUpdate(Assign(loads, jobs[..n], slots[..n]), slots[n], jobs[n]);
    }
  }

  // ----- lower bounds -----

  lemma {:induction false} TotalAtMost(s: seq<real>, bound: real)
    requires forall i :: 0 <= i < |s| ==> s[i] <= bound
    ensures Total(s) <= Times(|s|, bound)
  {
    if s != [] { TotalAtMost(s[..|s| - 1], bound); }
  }

  lemma {:induction false} TotalAtLeast(s: seq<real>, bound: real)
    requires forall i :: 0 <= i < |s| ==> s[i] >= bound
    ensures Total(s) >= Times(|s|, bound)
  {
    if s != [] { TotalAtLeast(s[..|s| - 1], bound); }
  }

  lemma {:induction false} AssignKeeps(loads: seq<real>, jobs: seq<real>, slots: seq<nat>, k: nat)
    requires |slots| == |jobs| && forall i :: 0 <= i < |slots| ==> slots[i] < |loads|
    requires NonNegative(loads) && NonNegative(jobs) && k < |loads|
    ensures Assign(loads, jobs, slots)[k] >= loads[k]
    ensures forall i :: 0 <= i < |jobs| && slots[i] == k ==> Assign(loads, jobs, slots)[k] >= loads[k] + jobs[i]
  {
    if jobs != [] {
      var n := |jobs| - 1;
      AssignKeeps(loads, jobs[..n], slots[..n], k);
      forall i | 0 <= i < n && slots[i] == k
        ensures Assign(loads, jobs[..n], slots[..n])[k] >= loads[k] + jobs[i]
      {
        assert slots[..n][i] == k && jobs[..n][i] == jobs[i];
      }
    }
  }

  /** No assignment finishes before its average load, its longest running load or its longest job. */
  lemma MakespanLowerBounds(loads: seq<real>, jobs: seq<real>, slots: seq<nat>)
    requires |slots| == |jobs| && forall i :: 0 <= i < |slots| ==> slots[i] < |loads|
    requires NonNegative(loads) && NonNegative(jobs)
    ensures Total(loads) + Total(jobs) <= Times(|loads|, Makespan(Assign(loads, jobs, slots)))
    ensures forall k :: 0 <= k < |loads| ==> loads[k] <= Makespan(Assign(loads, jobs, slots))
    ensures forall i :: 0 <= i < |jobs| ==> jobs[i] <= Makespan(Assign(loads, jobs, slots))
  {
    var r := Assign(loads, jobs, slots);
    AssignConserves(loads, jobs, slots);
    TotalAtMost(r, Makespan(r));
    forall k | 0 <= k < |loads| ensures loads[k] <= Makespan(r) { AssignKeeps(loads, jobs, slots, k); }
    forall i | 0 <= i < |jobs| ensures jobs[i] <= Makespan(r) { AssignKeeps(loads, jobs, slots, slots[i]); }
  }

  /** The greedy choices, as an assignment. */
  function GreedySlots(loads: seq<real>, jobs: seq<real>): (slots: seq<nat>)
    requires loads != []
    ensures |slots| == |jobs| && forall i :: 0 <= i < |slots| ==> slots[i] < |loads|
  {
    if jobs == [] then []
    else GreedySlots(loads, jobs[..|jobs| - 1]) + [FirstLeast(Greedy(loads, jobs[..|jobs| - 1]))]
  }

  lemma {:induction false} GreedyIsAssignment(loads: seq<real>, jobs: seq<real>)
    requires loads != []
    ensures Greedy(loads, jobs) == Assign(loads, jobs, GreedySlots(loads, jobs))
  {
    if jobs != [] {
      var n := |jobs| - 1;
      GreedyIsAssignment(loads, jobs[..n]);
      assert GreedySlots(loads, jobs)[..n] == GreedySlots(loads, jobs[..n]);
    }
  }

  // ----- the upper bound -----

  /** The slot was never used, or its last job went on when it was no fuller than the average. */
  ghost predicate Settled(loads: seq<real>, jobs: seq<real>, r: seq<real>, k: nat)
    requires k < |loads| && |r| == |loads|
  {
    r[k] == loads[k] || exists i :: 0 <= i < |jobs| && LastOn(r, k, jobs[i])
  }

  ghost predicate LastOn(r: seq<real>, k: nat, d: real)
    requires k < |r|
  {
    Times(|r|, r[k] - d) <= Total(r) - d
  }

  lemma SettlesNow(before: seq<real>, slot: nat, d: real)
    requires before != [] && slot == FirstLeast(before)
    ensures LastOn(Place(before, slot, d), slot, d)
  {
    TotalUpdate(before, slot, d);
    TotalAtLeast(before, before[slot]);
    assert Place(before, slot, d)[slot] - d == before[slot];
  }

  lemma {:induction false} GreedySettles(loads: seq<real>, jobs: seq<real>, k: nat)
    requires loads != [] && NonNegative(jobs) && k < |loads|
    ensures Settled(loads, jobs, Greedy(loads, jobs), k)
  {
    if jobs != [] {
      var n := |jobs| - 1;
      var before, after := Greedy(loads, jobs[..n]), Greedy(loads, jobs);
      var slot := FirstLeast(before);
      GreedySettles(loads, jobs[..n], k);
      TotalUpdate(before, slot, jobs[n]);
      if k == slot {
        SettlesNow(before, slot, jobs[n]);
        assert LastOn(after, k, jobs[n]);
      } else if before[k] != loads[k] {
        var i :| 0 <= i < n && LastOn(before, k, jobs[..n][i]);
        assert LastOn(after, k, jobs[i]);
      }
    }
  }

  lemma {:induction false} SettledBound(loads: seq<real>, jobs: seq<real>, r: seq<real>, k: nat, opt: real)
    requires k < |loads| && |r| == |loads| && Settled(loads, jobs, r, k)
    requires Total(r) <= Times(|r|, opt) && opt >= 0.0
    requires (forall i :: 0 <= i < |loads| ==> loads[i] <= opt) && forall i :: 0 <= i < |jobs| ==> jobs[i] <= opt
    ensures Times(|r|, r[k]) <= Times(2 * |r| - 1, opt)
  {
    var m := |r|;
    TimesAdds(m, m - 1, opt);
    TimesOfZero(m - 1);
    TimesMonotone(m - 1, 0.0, opt);
    if r[k] == loads[k] {
      TimesMonotone(m, r[k], opt);
    } else {
      var i :| 0 <= i < |jobs| && LastOn(r, k, jobs[i]);
      var d := jobs[i];
      TimesSum(m, r[k] - d, d);
      assert r[k] - d + d == r[k];
      TimesMonotone(m - 1, d, opt);
    }
  }

  /**
   * The greedy makespan over `m` slots is at most (2 - 1/m) times that of any assignment of the
   * same jobs onto the same running loads.
   */
  lemma {:induction false} GreedyNearOptimal(loads: seq<real>, jobs: seq<real>, slots: seq<nat>)
    requires loads != [] && NonNegative(loads) && NonNegative(jobs)
    requires |slots| == |jobs| && forall i :: 0 <= i < |slots| ==> slots[i] < |loads|
    ensures Times(|loads|, Makespan(Greedy(loads, jobs))) <=
            Times(2 * |loads| - 1, Makespan(Assign(loads, jobs, slots)))
  {
    MakespanLowerBounds(loads, jobs, slots);
    GreedyBound(loads, jobs, Makespan(Assign(loads, jobs, slots)));
  }

  /** Against anything that bounds the average, every running load and every job. */
  lemma {:induction false} GreedyBound(loads: seq<real>, jobs: seq<real>, opt: real)
    requires loads != [] && NonNegative(loads) && NonNegative(jobs)
    requires Total(loads) + Total(jobs) <= Times(|loads|, opt) && opt >= 0.0
    requires (forall i :: 0 <= i < |loads| ==> loads[i] <= opt) && forall i :: 0 <= i < |jobs| ==> jobs[i] <= opt
    ensures Times(|loads|, Makespan(Greedy(loads, jobs))) <= Times(2 * |loads| - 1, opt)
  {
    var r := Greedy(loads, jobs);
    GreedyConserves(loads, jobs);
    if Makespan(r) == 0.0 {
      IdleBound(|loads|, opt);
    } else {
      var k :| 0 <= k < |r| && r[k] == Makespan(r);
      GreedySettles(loads, jobs, k);
      SettledBound(loads, jobs, r, k, opt);
    }
  }

  lemma IdleBound(m: nat, opt: real)
    requires m > 0 && opt >= 0.0
    ensures Times(m, 0.0) <= Times(2 * m - 1, opt)
  {
    TimesOfZero(m);
    TimesOfZero(2 * m - 1);
    TimesMonotone(2 * m - 1, 0.0, opt);
  }

  /** The greedy makespan is at least the average, every running load and every queued job. */
  lemma {:induction false} GreedyLowerBounds(loads: seq<real>, jobs: seq<real>)
    requires loads != [] && NonNegative(loads) && NonNegative(jobs)
    ensures Total(loads) + Total(jobs) <= Times(|loads|, Makespan(Greedy(loads, jobs)))
    ensures forall k :: 0 <= k < |loads| ==> loads[k] <= Makespan(Greedy(loads, jobs))
    ensures forall i :: 0 <= i < |jobs| ==> jobs[i] <= Makespan(Greedy(loads, jobs))
  {
    GreedyIsAssignment(loads, jobs);
    MakespanLowerBounds(loads, jobs, GreedySlots(loads, jobs));
  }

  lemma DivideThrough(m: real, a: real, b: real)
    requires m > 0.0 && m * a <= (2.0 * m - 1.0) * b
    ensures a <= (2.0 - 1.0 / m) * b
  {
    var c := (2.0 - 1.0 / m) * b;
    assert m * (2.0 - 1.0 / m) == 2.0 * m - 1.0;
    assert m * c == (2.0 * m - 1.0) * b by {
      assert m * c == (m * (2.0 - 1.0 / m)) * b;
    }
  }

  ghost predicate WithinRatio(m: nat, a: real, b: real) {
    m > 0 && a <= (2.0 - 1.0 / m as real) * b
  }

  /** A bound of this form is a bound by the ratio 2 - 1/m. */
  lemma RatioFromTimes(m: nat, a: real, b: real)
    requires m > 0 && Times(m, a) <= Times(2 * m - 1, b)
    ensures WithinRatio(m, a, b)
  {
    TimesIsProduct(m, a);
    TimesIsProduct(2 * m - 1, b);
    assert (2 * m - 1) as real == 2.0 * m as real - 1.0;
    DivideThrough(m as real, a, b);
  }

  /** The same bound as a ratio. */
  lemma {:induction false} GreedyRatio(loads: seq<real>, jobs: seq<real>, slots: seq<nat>)
    requires loads != [] && NonNegative(loads) && NonNegative(jobs)
    requires |slots| == |jobs| && forall i :: 0 <= i < |slots| ==> slots[i] < |loads|
    ensures WithinRatio(|loads|, Makespan(Greedy(loads, jobs)), Makespan(Assign(loads, jobs, slots)))
  {
    GreedyNearOptimal(loads, jobs, slots);
    RatioFromTimes(|loads|, Makespan(Greedy(loads, jobs)), Makespan(Assign(loads, jobs, slots)));
  }
}
