/**
 * The batch ETA: a tracker of queued, running and finished jobs by weight, a prediction per
 * running job, and a clamped smoother. Seconds and weights are exact reals; the time of each call
 * is an argument.
 */
module BatchEta {
  import opened Common
  import opened LoadBalancing
  import opened LongestFirst

  const MIN_JOB_WEIGHT: real := 1.0
  const ETA_WARMUP_JOBS: nat := 2
  const ETA_WARMUP_ELAPSED: real := 10.0
  const ETA_PROGRESS_CAP: real := 0.98
  const ETA_SMOOTHING_ALPHA: real := 0.35
  const ETA_MAX_STEP_UP: real := 1.30
  const ETA_MAX_STEP_DOWN: real := 0.75

  type JobId = nat

  datatype Job = Job(path: string, weight: real, startedAt: real, progress: Option<real>)

  datatype Confidence = Low | Medium | High

  datatype Estimate = Estimate(eta: Option<real>, confidence: Confidence, remainingWork: real)

  function Larger(a: real, b: real): real {
    if a < b then b else a
  }

  function Clamp(x: real, lo: real, hi: real): real {
    if x < lo then lo else if x > hi then hi else x
  }

  function JobWeight(size: nat): real {
    Larger(size as real, MIN_JOB_WEIGHT)
  }

  /** A file's weight is its size, and an empty file weighs as much as one byte. */
  lemma JobWeightExact(size: nat)
    ensures JobWeight(size) == if size == 0 then 1.0 else size as real
  {
  }

  // ----- sums over maps -----

  ghost function Sum<K>(m: map<K, real>): real {
    if m == map[] then 0.0
    else
      var k :| k in m;
      m[k] + Sum(m - {k})
  }

  /** The sum does not depend on the order in which the map is walked. */
  lemma {:induction false} SumSplit<K>(m: map<K, real>, k: K)
    requires k in m
    ensures Sum(m) == m[k] + Sum(m - {k})
    decreases |m|
  {
    var j :| j in m && Sum(m) == m[j] + Sum(m - {j});
    if j != k {
      assert |(m - {j}).Keys| < |m.Keys| by { assert (m - {j}).Keys == m.Keys - {j}; }
      assert |(m - {k}).Keys| < |m.Keys| by { assert (m - {k}).Keys == m.Keys - {k}; }
      SumSplit(m - {j}, k);
      SumSplit(m - {k}, j);
      assert m - {j} - {k} == m - {k} - {j};
    }
  }

  lemma SumInsert<K>(m: map<K, real>, k: K, x: real)
    ensures Sum(m[k := x]) == Sum(m - {k}) + x
    ensures Sum(m) == Sum(m - {k}) + if k in m then m[k] else 0.0
  {
    SumSplit(m[k := x], k);
    assert m[k := x] - {k} == m - {k};
    if k in m { SumSplit(m, k); } else { assert m - {k} == m; }
  }

  lemma {:induction false} SumPositive<K>(m: map<K, real>)
    requires forall k :: k in m ==> m[k] > 0.0
    ensures Sum(m) >= 0.0 && (Sum(m) > 0.0 <==> m != map[])
    decreases |m|
  {
    if m != map[] {
      var k :| k in m;
      SumSplit(m, k);
      assert |(m - {k}).Keys| < |m.Keys| by { assert (m - {k}).Keys == m.Keys - {k}; }
      SumPositive(m - {k});
    }
  }

  // ----- predictions -----

  /** `progress_for_job`: reported progress, or else what the elapsed time suggests, capped. */
  function ProgressFor(job: Job, secondsPerWeight: Option<real>, now: real): Option<real> {
    if job.progress.Some? then Some(Clamp(job.progress.value, 0.0, ETA_PROGRESS_CAP))
    else if secondsPerWeight.None? then None
    else Share(now - job.startedAt, ExpectedTime(job.weight, secondsPerWeight.value))
  }

  function ExpectedTime(weight: real, secondsPerWeight: real): real { weight * secondsPerWeight }

  /** The share of the expected time that has passed, capped. */
  function Share(elapsed: real, expected: real): Option<real> {
    if expected <= 0.0 then None else Some(Clamp(elapsed / expected, 0.0, ETA_PROGRESS_CAP))
  }

  /** `predicted_remaining_runtime_secs`. */
  function PredictedRemaining(job: Job, secondsPerWeight: real, now: real): real {
    var elapsed := now - job.startedAt;
    var expected := Larger(ExpectedTime(job.weight, secondsPerWeight), elapsed);
    var progress := ProgressFor(job, Some(secondsPerWeight), now);
    if progress.Some? && progress.value > 0.0
    then Larger(Larger(elapsed / progress.value, expected) - elapsed, 0.0)
    else Larger(expected - elapsed, 0.0)
  }

  lemma ProgressCapped(job: Job, secondsPerWeight: Option<real>, now: real)
    ensures ProgressFor(job, secondsPerWeight, now).Some? ==>
              0.0 <= ProgressFor(job, secondsPerWeight, now).value <= ETA_PROGRESS_CAP
  {
  }

  lemma DividingBySmaller(x: real, p: real, cap: real)
    requires x >= 0.0 && 0.0 < p <= cap
    ensures x / p >= x / cap
  {
    var y := x / p;
    assert y * p == x;
    assert y >= 0.0;
    assert y * cap >= y * p;
    assert (y * cap) / cap == y;
  }

  /**
   * A running job with known positive progress, reported or inferred from the elapsed time, is
   * never predicted to finish in less than elapsed/49.
   */
  lemma NeverImminent(job: Job, secondsPerWeight: real, now: real)
    requires now >= job.startedAt
    requires var p := ProgressFor(job, Some(secondsPerWeight), now); p.Some? && p.value > 0.0
    ensures PredictedRemaining(job, secondsPerWeight, now) >= (now - job.startedAt) / 49.0
  {
    var elapsed := now - job.startedAt;
    ProgressCapped(job, Some(secondsPerWeight), now);
    DividingBySmaller(elapsed, ProgressFor(job, Some(secondsPerWeight), now).value, ETA_PROGRESS_CAP);
    assert elapsed / ETA_PROGRESS_CAP - elapsed == elapsed / 49.0;
  }

  /** The later of the two predictions of a total, less the time spent. */
  lemma ToldPrediction(job: Job, pace: real, now: real)
    requires now >= job.startedAt && Told(job)
    ensures var elapsed := now - job.startedAt;
            var q := if job.progress.value < 0.98 then job.progress.value else 0.98;
            PredictedRemaining(job, pace, now) == Larger(elapsed / q, job.weight * pace) - elapsed
  {
    var elapsed := now - job.startedAt;
    var q := if job.progress.value < 0.98 then job.progress.value else 0.98;
    DividingBySmaller(elapsed, q, 1.0);
    assert elapsed / 1.0 == elapsed;
  }

  /** A job told that nothing is done yet takes the time its weight suggests. */
  lemma NothingDonePrediction(job: Job, pace: real, now: real)
    requires now >= job.startedAt && job.progress.Some? && job.progress.value <= 0.0
    ensures PredictedRemaining(job, pace, now) == Larger(job.weight * pace - (now - job.startedAt), 0.0)
  {
  }

  /**
   * Without a reported progress the inferred one amounts to this: the job takes the time its weight
   * suggests, and once it has taken longer, another 49th of the time spent.
   */
  lemma InferredPrediction(job: Job, pace: real, now: real)
    requires now >= job.startedAt && job.weight > 0.0 && pace > 0.0 && job.progress.None?
    ensures var elapsed := now - job.startedAt;
            PredictedRemaining(job, pace, now) == Larger(job.weight * pace, elapsed / 0.98) - elapsed
  {
    var elapsed, expected := now - job.startedAt, job.weight * pace;
    PositiveProduct(job.weight, pace);
    InferredTotal(elapsed, expected);
  }

  lemma InferredTotal(elapsed: real, expected: real)
    requires elapsed >= 0.0 && expected > 0.0
    ensures var p := Clamp(elapsed / expected, 0.0, 0.98);
            && p >= 0.0
            && (p == 0.0 <==> elapsed == 0.0)
            && (p > 0.0 ==> Larger(elapsed / p, Larger(expected, elapsed)) == Larger(expected, elapsed / 0.98))
  {
    if elapsed > 0.0 {
      Quotient(elapsed, expected);
      var x := elapsed / expected;
      ShareCompares(elapsed, expected, x);
      DivideBack(elapsed, expected, x);
    }
  }

  lemma ShareCompares(part: real, whole: real, x: real)
    requires x * whole == part && whole > 0.0
    ensures x <= 0.98 ==> part <= 0.98 * whole
    ensures x >= 0.98 ==> part >= 0.98 * whole
  {
    if x <= 0.98 { ScaleLeq(x, 0.98, whole); }
    if x >= 0.98 { ScaleLeq(0.98, x, whole); }
  }

  lemma DivideBack(a: real, b: real, x: real)
    requires x > 0.0 && x * b == a
    ensures a / x == b
  {
    assert (x * b) / x == b;
  }

  lemma ScaleLeq(a: real, b: real, c: real)
    requires a <= b && c > 0.0
    ensures a * c <= b * c
  {
  }

  // ----- the smoother -----

  function Smooth(previous: Option<real>, raw: real): real {
    match previous
    case None => raw
    case Some(p) => Clamp(p + ETA_SMOOTHING_ALPHA * (raw - p), p * ETA_MAX_STEP_DOWN, p * ETA_MAX_STEP_UP)
  }

  /**
   * One smoothing step from a positive display: it stays positive, moves by at most the step
   * factors, and lands between the old display and the raw estimate.
   */
  lemma SmoothStep(p: real, raw: real)
    requires p > 0.0 && raw > 0.0
    ensures var d := Smooth(Some(p), raw);
            && d > 0.0
            && ETA_MAX_STEP_DOWN * p <= d <= ETA_MAX_STEP_UP * p
            && (raw <= p ==> raw <= d <= p)
            && (raw >= p ==> p <= d <= raw)
            && (raw < p ==> d < p) && (raw > p ==> d > p)
  {
  }

  /**
   * The first display is the raw value. After that the display goes 35 in 100 of the way, unless the
   * raw value is out by more than the factors 2/7 and 13/7: then it goes the largest step.
   */
  lemma SmoothExact(p: real, raw: real)
    requires p > 0.0
    ensures Smooth(None, raw) == raw
    ensures 2.0 * p <= 7.0 * raw <= 13.0 * p ==> Smooth(Some(p), raw) == 0.65 * p + 0.35 * raw
    ensures 7.0 * raw < 2.0 * p ==> Smooth(Some(p), raw) == 0.75 * p
    ensures 7.0 * raw > 13.0 * p ==> Smooth(Some(p), raw) == 1.3 * p
  {
  }

  /** The display after a sequence of raw estimates, newest last. */
  function Displayed(start: Option<real>, raws: seq<real>): Option<real> {
    if raws == [] then start else Some(Smooth(Displayed(start, raws[..|raws| - 1]), raws[|raws| - 1]))
  }

  /** `error * 0.75^n`. */
  function Decayed(error: real, n: nat): real {
    if n == 0 then error else 0.75 * Decayed(error, n - 1)
  }

  /** Whatever the raw estimates, a display that was positive or absent stays positive. */
  lemma {:induction false} DisplayedPositive(start: Option<real>, raws: seq<real>)
    requires start.Some? ==> start.value > 0.0
    requires forall i :: 0 <= i < |raws| ==> raws[i] > 0.0
    ensures Displayed(start, raws).Some? ==> Displayed(start, raws).value > 0.0
    ensures raws != [] ==> Displayed(start, raws).Some?
  {
    if raws != [] {
      var front := raws[..|raws| - 1];
      DisplayedPositive(start, front);
      if Displayed(start, front).Some? { SmoothStep(Displayed(start, front).value, raws[|raws| - 1]); }
    }
  }

  lemma ErrorShrinks(p: real, raw: real)
    requires 0.0 < raw <= p
    ensures Smooth(Some(p), raw) - raw <= 0.75 * (p - raw)
  {
  }

  function Constant(raw: real, n: nat): seq<real> {
    seq(n, _ => raw)
  }

  /** Against a constant raw value below the display, the error shrinks at least as fast as 0.75^n. */
  lemma {:induction false} ConvergesFromAbove(start: real, raw: real, n: nat)
    requires 0.0 < raw <= start
    ensures var d := Displayed(Some(start), Constant(raw, n));
            d.Some? && raw <= d.value && d.value - raw <= Decayed(start - raw, n)
  {
    if n > 0 {
      ConvergesFromAbove(start, raw, n - 1);
      assert Constant(raw, n)[..n - 1] == Constant(raw, n - 1);
      var d := Displayed(Some(start), Constant(raw, n - 1)).value;
      SmoothStep(d, raw);
      ErrorShrinks(d, raw);
    }
  }

  // ----- what is left to do, and how fast it goes -----

  /** The weight still to do on each running job; progress is capped below one. */
  function InFlight(running: map<JobId, Job>, secondsPerWeight: Option<real>, now: real): map<JobId, real> {
    map id | id in running :: Unfinished(running[id], secondsPerWeight, now)
  }

  function Unfinished(job: Job, secondsPerWeight: Option<real>, now: real): real {
    var progress := ProgressFor(job, secondsPerWeight, now);
    job.weight * (1.0 - if progress.Some? then progress.value else 0.0)
  }

  /** The part of the weight not yet done: as reported, as the time spent suggests (below), or all of it. */
  lemma UnfinishedExact(job: Job, pace: Option<real>, now: real)
    ensures job.progress.Some? && 0.0 <= job.progress.value <= 0.98 ==>
            Unfinished(job, pace, now) == job.weight - job.weight * job.progress.value
    ensures job.progress.Some? && job.progress.value > 0.98 ==> Unfinished(job, pace, now) == 0.02 * job.weight
    ensures job.progress.None? && pace.None? ==> Unfinished(job, pace, now) == job.weight
  {
  }

  lemma InferredUnfinished(job: Job, pace: real, now: real)
    requires job.weight > 0.0 && now >= job.startedAt && pace > 0.0 && job.progress.None?
    ensures Unfinished(job, Some(pace), now) == Larger(job.weight - (now - job.startedAt) / pace, 0.02 * job.weight)
  {
    var expected := ExpectedTime(job.weight, pace);
    PositiveProduct(job.weight, pace);
    assert ProgressFor(job, Some(pace), now) == Share(now - job.startedAt, expected);
    InferredRest(job.weight, pace, now - job.startedAt, expected);
  }

  lemma InferredRest(weight: real, pace: real, elapsed: real, expected: real)
    requires weight > 0.0 && pace > 0.0 && elapsed >= 0.0 && expected == weight * pace && expected > 0.0
    ensures weight * (1.0 - Clamp(elapsed / expected, 0.0, 0.98)) == Larger(weight - elapsed / pace, 0.02 * weight)
  {
    var x, y := elapsed / expected, elapsed / pace;
    QuotientOfProduct(elapsed, weight, pace);
    ShareCompares(y, weight, x);
    RestOfShare(weight, x, y);
  }

  lemma QuotientOfProduct(a: real, w: real, p: real)
    requires a >= 0.0 && w > 0.0 && p > 0.0 && w * p > 0.0
    ensures a / (w * p) >= 0.0 && (a / (w * p)) * w == a / p
  {
    var x := a / (w * p);
    assert x * (w * p) == a;
    assert x * (w * p) == (x * w) * p;
    DivideBack(a, x * w, p);
  }

  lemma RestOfShare(weight: real, x: real, y: real)
    requires weight > 0.0 && x >= 0.0 && x * weight == y
    requires (x <= 0.98 ==> y <= 0.98 * weight) && (x >= 0.98 ==> y >= 0.98 * weight)
    ensures weight * (1.0 - Clamp(x, 0.0, 0.98)) == Larger(weight - y, 0.02 * weight)
  {
    assert weight * (1.0 - x) == weight - x * weight;
  }

  lemma UnfinishedPositive(job: Job, secondsPerWeight: Option<real>, now: real)
    requires job.weight >= MIN_JOB_WEIGHT
    ensures Unfinished(job, secondsPerWeight, now) > 0.0
  {
    ProgressCapped(job, secondsPerWeight, now);
  }

  ghost function RemainingWeight(queued: map<string, real>, running: map<JobId, Job>, secondsPerWeight: Option<real>,
                                 now: real): real {
    Sum(InFlight(running, secondsPerWeight, now)) + Sum(queued)
  }

  /** Work remains exactly while a job is queued or running, however far its progress is. */
  lemma WorkRemainsIff(queued: map<string, real>, running: map<JobId, Job>, secondsPerWeight: Option<real>, now: real)
    requires forall p :: p in queued ==> queued[p] >= MIN_JOB_WEIGHT
    requires forall id :: id in running ==> running[id].weight >= MIN_JOB_WEIGHT
    ensures RemainingWeight(queued, running, secondsPerWeight, now) > 0.0 <==> queued != map[] || running != map[]
  {
    var inFlight := InFlight(running, secondsPerWeight, now);
    forall id | id in inFlight ensures inFlight[id] > 0.0 { UnfinishedPositive(running[id], secondsPerWeight, now); }
    SumPositive(inFlight);
    SumPositive(queued);
    assert inFlight == map[] <==> running == map[] by {
      assert inFlight.Keys == running.Keys;
    }
  }

  predicate Reported(job: Job, now: real) {
    var p := ProgressFor(job, None, now);
    p.Some? && p.value > 0.0
  }

  function ReportedWeight(running: map<JobId, Job>, now: real): map<JobId, real> {
    map id | id in running && Reported(running[id], now) :: running[id].weight * ProgressFor(running[id], None,
      now).value
  }

  function ReportedTime(running: map<JobId, Job>, now: real): map<JobId, real> {
    map id | id in running && Reported(running[id], now) :: now - running[id].startedAt
  }

  /** `seconds_per_weight`: unknown until a job has finished. */
  ghost function Pace(completedWeight: real, durations: seq<real>, running: map<JobId, Job>, now: real): Option<real> {
    if completedWeight <= 0.0 then None
    else
      var weight := completedWeight + Sum(ReportedWeight(running, now));
      var time := Total(durations) + Sum(ReportedTime(running, now));
      Rate(time, weight)
  }

  function Rate(time: real, weight: real): Option<real> {
    if time <= 0.0 || weight <= 0.0 then None else Some(time / weight)
  }

  /** The job was told a progress above zero. */
  predicate Told(job: Job) {
    job.progress.Some? && job.progress.value > 0.0
  }

  /** The part of a running job's weight that was reported done, at most 98 in 100 of it. */
  ghost function ToldWeights(running: map<JobId, Job>): map<JobId, real> {
    map id | id in running && Told(running[id]) ::
      running[id].weight * if running[id].progress.value < 0.98 then running[id].progress.value else 0.98
  }

  ghost function ToldTimes(running: map<JobId, Job>, now: real): map<JobId, real> {
    map id | id in running && Told(running[id]) :: now - running[id].startedAt
  }

  /** The finished weight and the parts reported done. */
  ghost function ObservedWeight(completedWeight: real, running: map<JobId, Job>): real {
    completedWeight + Sum(ToldWeights(running))
  }

  /** The time spent on them. */
  ghost function ObservedTime(durations: seq<real>, running: map<JobId, Job>, now: real): real {
    Total(durations) + Sum(ToldTimes(running, now))
  }

  /** The pace is known once a job has finished and took time, and explains the observed time by the observed weight. */
  ghost predicate Explains(pace: Option<real>, completedWeight: real, durations: seq<real>, running: map<JobId, Job>,
                           now: real) {
    var weight, time := ObservedWeight(completedWeight, running), ObservedTime(durations, running, now);
    && (pace.Some? <==> completedWeight > 0.0 && time > 0.0)
    && (pace.Some? ==> Pays(pace.value, weight, time))
  }

  /** At `pace` seconds per unit, the weight takes that time. */
  ghost predicate Pays(pace: real, weight: real, time: real) {
    pace > 0.0 && pace * weight == time
  }

  lemma ToldIsReported(running: map<JobId, Job>, now: real)
    ensures ReportedWeight(running, now) == ToldWeights(running)
    ensures ReportedTime(running, now) == ToldTimes(running, now)
  {
    forall id | id in running ensures Told(running[id]) <==> Reported(running[id], now) {}
    forall id | id in running && Told(running[id])
      ensures ReportedWeight(running, now)[id] == ToldWeights(running)[id]
    {
      CappedProgress(running[id], now);
    }
  }

  lemma CappedProgress(job: Job, now: real)
    requires Told(job)
    ensures ProgressFor(job, None, now) == Some(if job.progress.value < 0.98 then job.progress.value else 0.98)
  {
  }

  lemma ReportedPositive(running: map<JobId, Job>, now: real)
    requires forall id :: id in running ==> running[id].weight >= MIN_JOB_WEIGHT
    ensures Sum(ReportedWeight(running, now)) >= 0.0
  {
    var weights := ReportedWeight(running, now);
    forall id | id in weights ensures weights[id] > 0.0 {
      PositiveProduct(running[id].weight, ProgressFor(running[id], None, now).value);
    }
    SumPositive(weights);
  }

  lemma PaceExplains(completedWeight: real, durations: seq<real>, running: map<JobId, Job>, now: real)
    requires forall id :: id in running ==> running[id].weight >= MIN_JOB_WEIGHT
    ensures Explains(Pace(completedWeight, durations, running, now), completedWeight, durations, running, now)
  {
    ToldIsReported(running, now);
    ReportedPositive(running, now);
    RatePays(ObservedTime(durations, running, now), ObservedWeight(completedWeight, running));
  }

  lemma RatePays(time: real, weight: real)
    ensures Rate(time, weight).Some? <==> time > 0.0 && weight > 0.0
    ensures Rate(time, weight).Some? ==> Pays(Rate(time, weight).value, weight, time)
  {
    if time > 0.0 && weight > 0.0 { Quotient(time, weight); }
  }

  lemma PositiveProduct(a: real, b: real)
    requires a > 0.0 && b > 0.0
    ensures a * b > 0.0
  {
  }

  lemma Quotient(a: real, b: real)
    requires a > 0.0 && b > 0.0
    ensures a / b > 0.0 && (a / b) * b == a
  {
  }

  method SumOf<K>(m: map<K, real>) returns (r: real)
    ensures r == Sum(m)
  {
    r := 0.0;
    var left := m;
    while left != map[]
      invariant r + Sum(left) == Sum(m)
      decreases |left|
    {
      var k :| k in left;
      SumSplit(left, k);
      assert |(left - {k}).Keys| < |left.Keys| by { assert (left - {k}).Keys == left.Keys - {k}; }
      r := r + left[k];
      left := left - {k};
    }
  }

  // ----- the inputs of the load balancer -----

  ghost predicate ListsKeys<K>(keys: seq<K>, m: set<K>) {
    Distinct(keys) && ToSet(keys) == m
  }

  method KeyList<K>(m: set<K>) returns (keys: seq<K>)
    ensures ListsKeys(keys, m)
  {
    keys := [];
    var left := m;
    while left != {}
      invariant Distinct(keys) && ToSet(keys) !! left && ToSet(keys) + left == m
      decreases |left|
    {
      var k :| k in left;
      assert k !in ToSet(keys);
      ghost var before := keys;
      keys := keys + [k];
      assert ToSet(keys) == ToSet(before) + {k};
      left := left - {k};
    }
  }

  function PadTo(loads: seq<real>, n: nat): seq<real> {
    if |loads| < n then loads + seq(n - |loads|, _ => 0.0) else loads
  }

  function Predictions(keys: seq<JobId>, running: map<JobId, Job>, pace: real, now: real): seq<real>
    requires forall k :: k in keys ==> k in running
  {
    seq(|keys|, i requires 0 <= i < |keys| => PredictedRemaining(running[keys[i]], pace, now))
  }

  function Durations(keys: seq<string>, queued: map<string, real>, pace: real): seq<real>
    requires forall k :: k in keys ==> k in queued
  {
    seq(|keys|, i requires 0 <= i < |keys| => queued[keys[i]] * pace)
  }

  function InsertDescending(x: real, s: seq<real>): seq<real> {
    if s == [] || x >= s[0] then [x] + s else [s[0]] + InsertDescending(x, s[1..])
  }

  function SortDescending(s: seq<real>): seq<real> {
    if s == [] then [] else InsertDescending(s[0], SortDescending(s[1..]))
  }

  lemma {:induction false} InsertDescendingKeeps(x: real, s: seq<real>)
    ensures multiset(InsertDescending(x, s)) == multiset(s) + multiset{x}
  {
    if s != [] && x < s[0] {
      InsertDescendingKeeps(x, s[1..]);
      TailMultiset(s);
    }
  }

  lemma {:induction false} InsertDescendingSorts(x: real, s: seq<real>)
    requires Descending(s)
    ensures Descending(InsertDescending(x, s))
  {
    if s != [] && x < s[0] {
      InsertDescendingSorts(x, s[1..]);
      InsertDescendingKeeps(x, s[1..]);
      DescendingCons(s[0], s[1..], x, InsertDescending(x, s[1..]));
    }
  }

  lemma DescendingCons(head: real, tail: seq<real>, x: real, rest: seq<real>)
    requires Descending(rest) && multiset(rest) == multiset(tail) + multiset{x}
    requires x <= head && forall y :: y in tail ==> y <= head
    ensures Descending([head] + rest)
  {
    forall i | 0 <= i < |rest| ensures rest[i] <= head {
      assert rest[i] in multiset(rest);
      assert rest[i] == x || rest[i] in multiset(tail);
      assert rest[i] == x || rest[i] in tail;
    }
  }

  lemma {:induction false} SortDescendingSorts(s: seq<real>)
    ensures Descending(SortDescending(s)) && multiset(SortDescending(s)) == multiset(s)
  {
    if s != [] {
      SortDescendingSorts(s[1..]);
      InsertDescendingSorts(s[0], SortDescending(s[1..]));
      InsertDescendingKeeps(s[0], SortDescending(s[1..]));
      TailMultiset(s);
    }
  }

  /** The slots: one per running job with its predicted time, padded with idle workers. */
  ghost predicate AreSlots(loads: seq<real>, running: map<JobId, Job>, pace: real, now: real, workers: nat) {
    exists keys :: ListsKeys(keys, running.Keys) && (forall k :: k in keys ==> k in running)
                   && loads == PadTo(Predictions(keys, running, pace, now), workers)
  }

  /** The queued jobs' durations, longest first. */
  ghost predicate AreJobs(jobs: seq<real>, queued: map<string, real>, pace: real) {
    exists keys :: ListsKeys(keys, queued.Keys) && (forall k :: k in keys ==> k in queued)
                   && multiset(jobs) == multiset(Durations(keys, queued, pace)) && Descending(jobs)
  }

  lemma SlotsNonNegative(loads: seq<real>, running: map<JobId, Job>, pace: real, now: real, workers: nat)
    requires AreSlots(loads, running, pace, now, workers) && workers >= 1
    ensures NonNegative(loads) && loads != []
  {
  }

  lemma JobsPositive(jobs: seq<real>, queued: map<string, real>, pace: real)
    requires AreJobs(jobs, queued, pace) && pace > 0.0
    requires forall p :: p in queued ==> queued[p] >= MIN_JOB_WEIGHT
    ensures forall i :: 0 <= i < |jobs| ==> jobs[i] > 0.0
  {
    var keys :| ListsKeys(keys, queued.Keys) && (forall k :: k in keys ==> k in queued)
                && multiset(jobs) == multiset(Durations(keys, queued, pace));
    var ds := Durations(keys, queued, pace);
    forall i | 0 <= i < |ds| ensures ds[i] > 0.0 {
      assert keys[i] in keys;
      assert queued[keys[i]] * pace > 0.0;
    }
    forall i | 0 <= i < |jobs| ensures jobs[i] > 0.0 {
      assert jobs[i] in multiset(jobs);
      assert jobs[i] in ds;
    }
  }

  method Slots(running: map<JobId, Job>, pace: real, now: real, workers: nat) returns (loads: seq<real>)
    ensures AreSlots(loads, running, pace, now, workers)
  {
    var keys := KeyList(running.Keys);
    forall k | k in keys ensures k in running { assert k in ToSet(keys); }
    loads := PadTo(Predictions(keys, running, pace, now), workers);
  }

  method Jobs(queued: map<string, real>, pace: real) returns (jobs: seq<real>)
    ensures AreJobs(jobs, queued, pace)
  {
    var keys := KeyList(queued.Keys);
    forall k | k in keys ensures k in queued { assert k in ToSet(keys); }
    var ds := Durations(keys, queued, pace);
    SortDescendingSorts(ds);
    jobs := SortDescending(ds);
  }

  ghost predicate BalancerInputs(queued: map<string, real>, running: map<JobId, Job>, pace: real, now: real,
                                 workers: nat,
                                 slots: seq<real>, jobs: seq<real>) {
    && AreSlots(slots, running, pace, now, workers) && slots != [] && NonNegative(slots)
    && AreJobs(jobs, queued, pace) && NonNegative(jobs)
  }

  method Inputs(queued: map<string, real>, running: map<JobId, Job>, pace: real, now: real, workers: nat)
    returns (slots: seq<real>, jobs: seq<real>)
    requires pace > 0.0 && workers >= 1 && forall p :: p in queued ==> queued[p] >= MIN_JOB_WEIGHT
    ensures BalancerInputs(queued, running, pace, now, workers, slots, jobs)
  {
    slots := Slots(running, pace, now, workers);
    jobs := Jobs(queued, pace);
    SlotsNonNegative(slots, running, pace, now, workers);
    JobsPositive(jobs, queued, pace);
  }

  /**
   * The raw estimate against any way to hand out the queue: the queue is sorted longest first, so
   * the bound for longest job first applies.
   */
  lemma RawEtaNearOptimal(queued: map<string, real>, running: map<JobId, Job>, pace: real, now: real, workers: nat,
                          slots: seq<real>, jobs: seq<real>, choice: seq<nat>)
    requires BalancerInputs(queued, running, pace, now, workers, slots, jobs)
    requires |choice| == |jobs| && forall i :: 0 <= i < |choice| ==> choice[i] < |slots|
    ensures WithinThreeHalves(|slots|, Makespan(Greedy(slots, jobs)), Makespan(Assign(slots, jobs, choice)))
  {
    LongestFirstRatio(slots, jobs, choice);
  }

  // ----- the tracker -----

  ghost function Weights(running: map<JobId, Job>): map<JobId, real> {
    map id | id in running :: running[id].weight
  }

  lemma WeightsInsert(running: map<JobId, Job>, id: JobId, job: Job)
    ensures Weights(running[id := job]) == Weights(running)[id := job.weight]
    ensures Weights(running - {id}) == Weights(running) - {id}
  {
  }

  /** The weights a batch accounts for. */
  datatype Ledger = Ledger(queued: map<string, real>, running: map<JobId, Job>, completed: real)

  datatype JobEvent =
    | Start(id: JobId, path: string, size: nat, now: real)
    | Progress(id: JobId, progress: real)
    | Complete(id: JobId)

  function Apply(l: Ledger, e: JobEvent): Ledger {
    match e
    case Start(id, path, size, now) =>
      var weight := if path in l.queued then l.queued[path] else JobWeight(size);
      l.(queued := l.queued - {path}, running := l.running[id := Job(path, weight, now, None)])
    case Progress(id, progress) =>
      if id !in l.running then l
      else l.(running := l.running[id := l.running[id].(progress := Some(Clamp(progress, 0.0, 1.0)))])
    case Complete(id) =>
      if id !in l.running then l
      else l.(running := l.running - {id}, completed := l.completed + l.running[id].weight)
  }

  ghost function Weight(l: Ledger): real {
    l.completed + Sum(Weights(l.running)) + Sum(l.queued)
  }

  /** What one event adds: an unseeded start its own weight, minus a job whose id it reuses. */
  lemma ApplyWeight(l: Ledger, e: JobEvent)
    ensures Weight(Apply(l, e)) == Weight(l) +
              (if e.Start? then
                 (if e.path in l.queued then 0.0 else JobWeight(e.size)) -
                 (if e.id in l.running then l.running[e.id].weight else 0.0)
               else 0.0)
  {
    var after := Apply(l, e);
    match e {
      case Start(id, path, size, now) =>
        SumInsert(l.queued, path, 0.0);
        SumInsert(Weights(l.running), id, after.running[id].weight);
        WeightsInsert(l.running, id, after.running[id]);
      case Progress(id, _) =>
        if id in l.running {
          WeightsInsert(l.running, id, after.running[id]);
          assert Weights(l.running)[id := l.running[id].weight] == Weights(l.running);
        }
      case Complete(id) =>
        if id in l.running {
          SumSplit(Weights(l.running), id);
          WeightsInsert(l.running, id, l.running[id]);
        }
    }
  }

  /** What one event does to the jobs: which job it touches, what it stores, and that the others stay. */
  lemma ApplyExact(l: Ledger, e: JobEvent)
    ensures var after := Apply(l, e);
            && (forall id :: id != e.id ==> (id in after.running <==> id in l.running))
            && (forall id :: id != e.id && id in l.running ==> after.running[id] == l.running[id])
            && (!e.Start? && e.id !in l.running ==> after == l)
    ensures e.Start? ==>
            var after := Apply(l, e);
            && e.id in after.running && after.running[e.id].path == e.path && after.running[e.id].startedAt == e.now
            && after.running[e.id].progress.None? && e.path !in after.queued
            && (e.path in l.queued ==> after.running[e.id].weight == l.queued[e.path])
            && (e.path !in l.queued && e.size > 0 ==> after.running[e.id].weight == e.size as real)
    ensures e.Progress? && e.id in l.running ==>
            var after := Apply(l, e);
            && e.id in after.running && after.running[e.id].progress.Some? && after.queued == l.queued
            && after.running[e.id] == l.running[e.id].(progress := after.running[e.id].progress)
            && 0.0 <= after.running[e.id].progress.value <= 1.0
            && (0.0 <= e.progress <= 1.0 ==> after.running[e.id].progress.value == e.progress)
    ensures e.Complete? && e.id in l.running ==>
            var after := Apply(l, e);
            && e.id !in after.running && after.queued == l.queued
            && after.completed == l.completed + l.running[e.id].weight
  {
  }

  function After(l: Ledger, events: seq<JobEvent>): Ledger {
    if events == [] then l else Apply(After(l, events[..|events| - 1]), events[|events| - 1])
  }

  function StartedPaths(events: seq<JobEvent>): set<string> {
    if events == [] then {}
    else
      var e := events[|events| - 1];
      StartedPaths(events[..|events| - 1]) + if e.Start? then {e.path} else {}
  }

  /** Every start has an id that is not running and a path that was not started before. */
  ghost predicate WellFormed(l: Ledger, events: seq<JobEvent>) {
    events == [] ||
    var front, e := events[..|events| - 1], events[|events| - 1];
    WellFormed(l, front) && (e.Start? ==> e.id !in After(l, front).running && e.path !in StartedPaths(front))
  }

  /** The weight of the starts whose path was not seeded. */
  function UnseededWeight(l: Ledger, events: seq<JobEvent>): real {
    if events == [] then 0.0
    else
      var e := events[|events| - 1];
      UnseededWeight(l, events[..|events| - 1]) + if e.Start? && e.path !in l.queued then JobWeight(e.size) else 0.0
  }

  lemma {:induction false} QueueAfter(l: Ledger, events: seq<JobEvent>)
    ensures After(l, events).queued == l.queued - StartedPaths(events)
  {
    if events != [] { QueueAfter(l, events[..|events| - 1]); }
  }

  /**
   * Conservation over every well-formed run: finished, running and queued weight together stay the
   * seeded weight plus that of the unseeded starts.
   */
  lemma {:induction false} RunConserves(l: Ledger, events: seq<JobEvent>)
    requires WellFormed(l, events)
    ensures Weight(After(l, events)) == Weight(l) + UnseededWeight(l, events)
  {
    if events != [] {
      var front, e := events[..|events| - 1], events[|events| - 1];
      RunConserves(l, front);
      ApplyWeight(After(l, front), e);
      QueueAfter(l, front);
    }
  }

  /** The queue seeded from the first `n` files. */
  function Seeded(files: seq<(string, nat)>, n: nat): (m: map<string, real>)
    requires n <= |files|
    ensures forall p :: p in m ==> m[p] >= MIN_JOB_WEIGHT
    ensures forall p :: p in m <==> exists i :: 0 <= i < n && files[i].0 == p
  {
    if n == 0 then map[] else Seeded(files, n - 1)[files[n - 1].0 := JobWeight(files[n - 1].1)]
  }

  class BatchEtaState {
    const batchStartedAt: real
    const effectiveWorkers: nat
    var queued: map<string, real>
    var running: map<JobId, Job>
    var completedDurations: seq<real>
    var completedWeight: real
    var completedJobs: nat
    var displayed: Option<real>

    ghost predicate Valid()
      reads this
    {
      && effectiveWorkers >= 1
      && (forall p :: p in queued ==> queued[p] >= MIN_JOB_WEIGHT)
      && (forall id :: id in running ==> running[id].weight >= MIN_JOB_WEIGHT)
      && completedWeight >= 0.0
      && (displayed.Some? ==> displayed.value > 0.0)
      && |completedDurations| == completedJobs
    }

    ghost function View(): Ledger
      reads this
    {
      Ledger(queued, running, completedWeight)
    }

    /** Seeds the queue; a path listed twice keeps its last size. */
    constructor (files: seq<(string, nat)>, workers: nat, now: real)
      ensures Valid() && View() == Ledger(Seeded(files, |files|), map[], 0.0) && displayed.None?
      ensures batchStartedAt == now && effectiveWorkers == (if workers < 1 then 1 else workers)
    {
      batchStartedAt, effectiveWorkers := now, if workers < 1 then 1 else workers;
      running, completedDurations, completedWeight, completedJobs, displayed := map[], [], 0.0, 0, None;
      var weights: map<string, real> := map[];
      for i := 0 to |files|
        invariant weights == Seeded(files, i)
      {
        weights := weights[files[i].0 := JobWeight(files[i].1)];
      }
      queued := weights;
    }

    method OnJobStart(id: JobId, path: string, size: nat, now: real)
      requires Valid()
      modifies this`queued, this`running
      ensures Valid() && View() == Apply(old(View()), Start(id, path, size, now))
    {
      var weight := if path in queued then queued[path] else JobWeight(size);
      queued := queued - {path};
      running := running[id := Job(path, weight, now, None)];
    }

    method OnJobProgress(id: JobId, progress: real) returns (known: bool)
      requires Valid()
      modifies this`running
      ensures Valid() && View() == Apply(old(View()), Progress(id, progress))
      ensures known <==> id in old(running)
    {
      known := id in running;
      if known {
        running := running[id := running[id].(progress := Some(Clamp(progress, 0.0, 1.0)))];
      }
    }

    method OnJobComplete(id: JobId, now: real) returns (known: bool)
      requires Valid()
      modifies this`running, this`completedWeight, this`completedJobs, this`completedDurations
      ensures Valid() && View() == Apply(old(View()), Complete(id))
      ensures known <==> id in old(running)
      ensures completedDurations == old(completedDurations) +
                                    if known then [now - old(running)[id].startedAt] else []
    {
      known := id in running;
      if known {
        var finished := running[id];
        running := running - {id};
        completedWeight := completedWeight + finished.weight;
        completedJobs := completedJobs + 1;
        completedDurations := completedDurations + [now - finished.startedAt];
      }
    }

    /** `smooth_eta`. */
    method SmoothEta(raw: real) returns (eta: real)
      requires Valid()
      modifies this`displayed
      ensures Valid()
      ensures raw <= 0.0 ==> eta == 0.0 && displayed.None?
      ensures raw > 0.0 ==> eta == Smooth(old(displayed), raw) && displayed == Some(eta) && eta > 0.0
    {
      if raw <= 0.0 {
        displayed := None;
        return 0.0;
      }
      eta := Smooth(displayed, raw);
      if displayed.Some? { SmoothStep(displayed.value, raw); }
      displayed := Some(eta);
    }

    method SecondsPerWeight(now: real) returns (pace: Option<real>)
      requires Valid()
      ensures pace == Pace(completedWeight, completedDurations, running, now)
      ensures Explains(pace, completedWeight, completedDurations, running, now)
    {
      if completedWeight <= 0.0 {
        pace := None;
        PaceExplains(completedWeight, completedDurations, running, now);
        return;
      }
      var reportedWeight := SumOf<JobId>(ReportedWeight(running, now));
      var reportedTime := SumOf<JobId>(ReportedTime(running, now));
      var weight := completedWeight + reportedWeight;
      var time := Total(completedDurations) + reportedTime;
      pace := Rate(time, weight);
      PaceExplains(completedWeight, completedDurations, running, now);
    }

    /**
     * `estimate`. When there is an ETA to show, the raw estimate is the greedy makespan of the
     * queued jobs, longest first, on one slot per running job or idle worker, smoothed.
     */
    method EstimateEta(now: real) returns (e: Estimate, ghost pace: Option<real>, ghost slots: seq<real>,
                                           ghost jobs: seq<real>)
      requires Valid()
      modifies this`displayed
      ensures Valid()
      ensures pace == Pace(completedWeight, completedDurations, running, now)
      ensures Explains(pace, completedWeight, completedDurations, running, now)
      ensures queued == map[] && running == map[] <==> e == Estimate(None, High, 0.0)
      ensures queued == map[] && running == map[] ==> displayed.None?
      ensures queued != map[] || running != map[] ==>
                e.remainingWork == RemainingWeight(queued, running, pace, now) && e.remainingWork > 0.0
      ensures e.confidence.Low? ==> e.eta.None? && displayed == old(displayed)
      ensures (queued != map[] || running != map[]) ==>
                (e.confidence.Low? <==> (completedJobs < 2 && now - batchStartedAt < 10.0) || pace.None?)
      ensures (queued != map[] || running != map[]) && !e.confidence.Low? ==>
                (e.confidence.High? <==> completedJobs >= 6)
      ensures (queued != map[] || running != map[]) && !e.confidence.Low? ==>
                && BalancerInputs(queued, running, pace.value, now, effectiveWorkers, slots, jobs)
                && RawShown(Makespan(Greedy(slots, jobs)), old(displayed), displayed, e.eta)
    {
      slots, jobs := [], [];
      var known := SecondsPerWeight(now);
      pace := known;
      var remaining := Remaining(known, now);
      WorkRemainsIff(queued, running, known, now);
      if remaining <= 0.0 {
        displayed := None;
        e := Estimate(None, High, 0.0);
        return;
      }
      if WarmingUp(now) || known.None? || known.value <= 0.0 {
        e := Estimate(None, Low, remaining);
        return;
      }
      var loads, durations := Inputs(queued, running, known.value, now, effectiveWorkers);
      slots, jobs := loads, durations;
      var balanced := AssignGreedily(loads, durations);
      var eta := SmoothEta(Makespan(balanced));
      e := Estimate(if eta > 0.0 then Some(eta) else None, if completedJobs >= ETA_WARMUP_JOBS * 3 then High
                    else Medium, remaining);
    }

    predicate WarmingUp(now: real)
      reads this
    {
      completedJobs < ETA_WARMUP_JOBS && now - batchStartedAt < ETA_WARMUP_ELAPSED
    }

    method Remaining(pace: Option<real>, now: real) returns (r: real)
      requires Valid()
      ensures r == RemainingWeight(queued, running, pace, now)
    {
      var inFlight := SumOf<JobId>(InFlight(running, pace, now));
      var waiting := SumOf<string>(queued);
      r := inFlight + waiting;
    }
  }

  /** How a raw estimate reaches the display. */
  ghost predicate RawShown(raw: real, before: Option<real>, after: Option<real>, eta: Option<real>) {
    if raw > 0.0 then after == Some(Smooth(before, raw)) && eta == after else after.None? && eta.None?
  }
}
