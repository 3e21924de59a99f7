/**
 * What the batch ETA says when jobs behave: a steady pace is found exactly, and the estimate hands
 * out exactly the work that is left.
 */
module EtaAccuracy {
  import opened Common
  import opened LoadBalancing
  import opened BatchEta

  // ----- sums -----

  lemma {:induction false} TotalScales(xs: seq<real>, ys: seq<real>, c: real)
    requires c > 0.0 && |xs| == |ys| && forall i :: 0 <= i < |xs| ==> Pays(c, xs[i], ys[i])
    ensures Pays(c, Total(xs), Total(ys))
  {
    if xs != [] {
      var n := |xs| - 1;
      TotalScales(xs[..n], ys[..n], c);
      PaysAdds(c, Total(xs[..n]), Total(ys[..n]), xs[n], ys[n]);
    }
  }

  lemma PaysAdds(c: real, x: real, a: real, y: real, b: real)
    requires Pays(c, x, a) && Pays(c, y, b)
    ensures Pays(c, x + y, a + b)
  {
  }

  lemma {:induction false} SumScales<K>(xs: map<K, real>, ys: map<K, real>, c: real)
    requires c > 0.0 && xs.Keys == ys.Keys && forall k :: k in xs ==> Pays(c, xs[k], ys[k])
    ensures Pays(c, Sum(xs), Sum(ys))
    decreases |xs|
  {
    if xs == map[] {
      assert ys == map[];
    } else {
      var k :| k in xs;
      var fewer, less := xs - {k}, ys - {k};
      assert fewer.Keys == xs.Keys - {k} && less.Keys == fewer.Keys;
      assert |fewer.Keys| < |xs.Keys|;
      assert forall j :: j in fewer ==> Pays(c, fewer[j], less[j]);
      SumScales(fewer, less, c);
      SumSplit(xs, k);
      SumSplit(ys, k);
      PaysAdds(c, xs[k], ys[k], Sum(fewer), Sum(less));
    }
  }

  /** Adding up a map's values along any listing of its keys gives its sum. */
  lemma {:induction false} SumAlong<K>(keys: seq<K>, m: map<K, real>, values: seq<real>)
    requires ListsKeys(keys, m.Keys) && |values| == |keys|
    requires forall i :: 0 <= i < |keys| ==> keys[i] in m && values[i] == m[keys[i]]
    ensures Total(values) == Sum(m)
  {
    if keys == [] {
      assert m == map[];
    } else {
      var n := |keys| - 1;
      var k := keys[n];
      SumSplit(m, k);
      forall x ensures x in ToSet(keys[..n]) <==> x in (m - {k}).Keys {
        assert x in ToSet(keys) <==> x in m.Keys;
        if x in m.Keys && x != k {
          var i :| 0 <= i < |keys| && keys[i] == x;
          assert keys[..n][i] == x;
        }
      }
      assert ToSet(keys[..n]) == (m - {k}).Keys;
      SumAlong(keys[..n], m - {k}, values[..n]);
    }
  }

  lemma {:induction false} TotalWithout(s: seq<real>, j: nat)
    requires j < |s|
    ensures Total(s) == Total(s[..j] + s[j + 1..]) + s[j]
  {
    var n := |s| - 1;
    if j == n {
      assert s[..j] + s[j + 1..] == s[..n];
    } else {
      var rest := s[..j] + s[j + 1..];
      assert rest[..|rest| - 1] == s[..n][..j] + s[..n][j + 1..];
      TotalWithout(s[..n], j);
    }
  }

  lemma MultisetAround(s: seq<real>, j: nat)
    requires j < |s|
    ensures multiset(s) == multiset(s[..j] + s[j + 1..]) + multiset{s[j]}
  {
    assert s == s[..j] + ([s[j]] + s[j + 1..]);
  }

  /** The order of the summands does not matter. */
  lemma {:induction false} TotalOfMultiset(a: seq<real>, b: seq<real>)
    requires multiset(a) == multiset(b)
    ensures Total(a) == Total(b)
  {
    if a == [] {
      assert |b| == |multiset(b)| == 0;
    } else {
      var n := |a| - 1;
      assert a == a[..n] + [a[n]];
      assert a[n] in multiset(b);
      var j :| 0 <= j < |b| && b[j] == a[n];
      var rest := b[..j] + b[j + 1..];
      MultisetAround(b, j);
      assert multiset(a) == multiset(a[..n]) + multiset{a[n]};
      assert multiset(a[..n]) == multiset(a) - multiset{a[n]};
      assert multiset(rest) == multiset(b) - multiset{b[j]};
      TotalOfMultiset(a[..n], rest);
      TotalWithout(b, j);
    }
  }

  // ----- a steady pace -----

  /** Every observed job, finished or reported, took `c` seconds per unit of weight. */
  ghost predicate Steady(c: real, weights: seq<real>, durations: seq<real>, running: map<JobId, Job>, now: real) {
    && |weights| == |durations|
    && (forall i :: 0 <= i < |weights| ==> Pays(c, weights[i], durations[i]))
    && forall id :: id in running && Told(running[id]) ==>
         Pays(c, ToldWeights(running)[id], ToldTimes(running, now)[id])
  }

  /** Then the pace is `c`, as soon as one job has finished. */
  lemma SteadyPace(c: real, weights: seq<real>, durations: seq<real>, running: map<JobId, Job>, now: real)
    requires Steady(c, weights, durations, running, now) && Total(weights) > 0.0
    requires c > 0.0 && forall id :: id in running ==> running[id].weight >= MIN_JOB_WEIGHT
    ensures Pace(Total(weights), durations, running, now) == Some(c)
  {
    var weight, time := ObservedWeight(Total(weights), running), ObservedTime(durations, running, now);
    TotalScales(weights, durations, c);
    SumScales(ToldWeights(running), ToldTimes(running, now), c);
    PaysAdds(c, Total(weights), Total(durations), Sum(ToldWeights(running)), Sum(ToldTimes(running, now)));
    ToldIsReported(running, now);
    ReportedPositive(running, now);
    PositiveProduct(c, weight);
    PaceExplains(Total(weights), durations, running, now);
    SameRate(Pace(Total(weights), durations, running, now).value, c, weight, time);
  }

  lemma SameRate(a: real, b: real, weight: real, time: real)
    requires weight > 0.0 && Pays(a, weight, time) && Pays(b, weight, time)
    ensures a == b
  {
    assert (a * weight) / weight == a;
    assert (b * weight) / weight == b;
  }

  /** Before any progress is reported the finished jobs alone count. */
  lemma SteadyFromFinished(c: real, weights: seq<real>, durations: seq<real>, running: map<JobId, Job>, now: real)
    requires c > 0.0 && weights != [] && |weights| == |durations|
    requires forall i :: 0 <= i < |weights| ==> weights[i] >= 1.0 && durations[i] == c * weights[i]
    requires forall id :: id in running ==> running[id].progress.None? && running[id].weight >= MIN_JOB_WEIGHT
    ensures Pace(Total(weights), durations, running, now) == Some(c)
  {
    TotalAtLeast(weights, 1.0);
    TimesIsProduct(|weights|, 1.0);
    assert forall i :: 0 <= i < |weights| ==> Pays(c, weights[i], durations[i]);
    SteadyPace(c, weights, durations, running, now);
  }

  // ----- the raw estimate -----

  /** One slot per running job, and at least one per worker. */
  lemma SlotCount(slots: seq<real>, running: map<JobId, Job>, pace: real, now: real, workers: nat)
    requires AreSlots(slots, running, pace, now, workers)
    ensures |slots| == if |running| < workers then workers else |running|
  {
    var keys: seq<JobId> :| ListsKeys(keys, running.Keys) && (forall k :: k in keys ==> k in running)
                && slots == PadTo(Predictions(keys, running, pace, now), workers);
    DistinctCardinality(keys);
    assert |running.Keys| == |running|;
  }

  /** What is predicted for each running job. */
  ghost function Rests(running: map<JobId, Job>, pace: real, now: real): map<JobId, real> {
    map id | id in running :: PredictedRemaining(running[id], pace, now)
  }

  lemma {:induction false} TotalPadded(loads: seq<real>, k: nat)
    ensures Total(loads + seq(k, _ => 0.0)) == Total(loads)
  {
    var zeros: seq<real> := seq(k, _ => 0.0);
    if k == 0 {
      assert loads + zeros == loads;
    } else {
      var fewer: seq<real> := seq(k - 1, _ => 0.0);
      assert (loads + zeros)[..|loads| + k - 1] == loads + fewer;
      TotalPadded(loads, k - 1);
    }
  }

  lemma SlotsTotal(slots: seq<real>, running: map<JobId, Job>, pace: real, now: real, workers: nat)
    requires AreSlots(slots, running, pace, now, workers)
    ensures Total(slots) == Sum(Rests(running, pace, now))
  {
    var keys: seq<JobId> :| ListsKeys(keys, running.Keys) && (forall k :: k in keys ==> k in running)
                && slots == PadTo(Predictions(keys, running, pace, now), workers);
    var loads := Predictions(keys, running, pace, now);
    PredictionsTotal(keys, running, pace, now);
    if |loads| < workers { TotalPadded(loads, workers - |loads|); }
  }

  lemma JobsTotal(jobs: seq<real>, queued: map<string, real>, pace: real)
    requires AreJobs(jobs, queued, pace) && pace > 0.0
    ensures Total(jobs) == pace * Sum(queued)
  {
    var keys :| ListsKeys(keys, queued.Keys) && (forall k :: k in keys ==> k in queued)
                && multiset(jobs) == multiset(Durations(keys, queued, pace)) && Descending(jobs);
    TotalOfMultiset(jobs, Durations(keys, queued, pace));
    DurationsTotal(keys, queued, pace);
  }

  lemma PredictionsTotal(keys: seq<JobId>, running: map<JobId, Job>, pace: real, now: real)
    requires ListsKeys(keys, running.Keys) && forall k :: k in keys ==> k in running
    ensures Total(Predictions(keys, running, pace, now)) == Sum(Rests(running, pace, now))
  {
    var loads, rests := Predictions(keys, running, pace, now), Rests(running, pace, now);
    assert rests.Keys == running.Keys;
    forall i | 0 <= i < |keys| ensures keys[i] in rests && loads[i] == rests[keys[i]] { assert keys[i] in keys; }
    SumAlong(keys, rests, loads);
  }

  lemma DurationsTotal(keys: seq<string>, queued: map<string, real>, pace: real)
    requires ListsKeys(keys, queued.Keys) && (forall k :: k in keys ==> k in queued) && pace > 0.0
    ensures Total(Durations(keys, queued, pace)) == pace * Sum(queued)
  {
    var ds := Durations(keys, queued, pace);
    forall i | 0 <= i < |keys| ensures keys[i] in queued { assert keys[i] in keys; }
    var weights := seq(|keys|, i requires 0 <= i < |keys| => queued[keys[i]]);
    SumAlong(keys, queued, weights);
    forall i | 0 <= i < |keys| ensures Pays(pace, weights[i], ds[i]) {}
    TotalScales(weights, ds, pace);
  }

  /** The balanced slots hold exactly the running jobs' predicted rest and the queue at the pace. */
  lemma WorkHandedOut(queued: map<string, real>, running: map<JobId, Job>, pace: real, now: real, workers: nat,
                      slots: seq<real>, jobs: seq<real>)
    requires pace > 0.0 && BalancerInputs(queued, running, pace, now, workers, slots, jobs)
    ensures Total(Greedy(slots, jobs)) == Sum(Rests(running, pace, now)) + pace * Sum(queued)
  {
    SlotsTotal(slots, running, pace, now, workers);
    JobsTotal(jobs, queued, pace);
    GreedyConserves(slots, jobs);
  }

  /** With a single slot that is the raw estimate; for an idle worker it is the queue at the pace. */
  lemma OneWorkerEstimate(queued: map<string, real>, running: map<JobId, Job>, pace: real, now: real,
                          slots: seq<real>, jobs: seq<real>)
    requires pace > 0.0 && BalancerInputs(queued, running, pace, now, 1, slots, jobs) && |running| <= 1
    ensures Makespan(Greedy(slots, jobs)) == Sum(Rests(running, pace, now)) + pace * Sum(queued)
    ensures running == map[] ==> Makespan(Greedy(slots, jobs)) == pace * Sum(queued)
  {
    SlotCount(slots, running, pace, now, 1);
    WorkHandedOut(queued, running, pace, now, 1, slots, jobs);
    var loads := Greedy(slots, jobs);
    assert loads == [loads[0]] && loads[..0] == [];
    assert Total(loads) == loads[0];
    TotalAtLeast(slots, 0.0);
    TotalAtLeast(jobs, 0.0);
    TimesOfZero(|slots|);
    TimesOfZero(|jobs|);
    GreedyConserves(slots, jobs);
    if running == map[] { assert Rests(running, pace, now) == map[]; }
  }
}
