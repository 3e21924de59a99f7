/**
 * Phase ordering in the policy compiler: Kahn's algorithm over mutable in-degree and
 * adjacency maps, with a classifier for the phases it could not order.
 */
module PhaseScheduling {
  import opened Common
  import opened PolicyAst

  datatype ScheduleError =
    | UnknownDependencies(stuck: seq<string>)
    | CircularDependency(stuck: seq<string>)

  /**
   * `place(queue, name)` stands for the index `partition_point` returns. The queue is not
   * partitioned by the predicate it is given, so only that the index is a function of the queue
   * and the name, and in bounds, is relied on; every theorem holds for all such functions.
   */
  type Placement = (seq<string>, string) -> nat

  // ----- the dependency relation -----

  predicate DependsOn(phases: seq<PhaseNode>, a: string, b: string) {
    exists p :: p in phases && p.name == a && b in p.Deps()
  }

  ghost predicate AllKnown(phases: seq<PhaseNode>) {
    forall a, b :: DependsOn(phases, a, b) ==> b in Names(phases)
  }

  ghost predicate IsPath(phases: seq<PhaseNode>, p: seq<string>) {
    |p| > 0 && forall i :: 0 <= i < |p| - 1 ==> DependsOn(phases, p[i], p[i + 1])
  }

  /** A closed walk along dependencies, first element repeated at the end. */
  ghost predicate IsCycle(phases: seq<PhaseNode>, p: seq<string>) {
    IsPath(phases, p) && |p| >= 2 && p[0] == p[|p| - 1]
  }

  ghost predicate OnCycle(phases: seq<PhaseNode>, x: string) {
    exists p :: IsCycle(phases, p) && p[0] == x
  }

  ghost predicate Acyclic(phases: seq<PhaseNode>) {
    forall p :: !IsCycle(phases, p)
  }

  ghost predicate BlockedVia(phases: seq<PhaseNode>, x: string, p: seq<string>) {
    IsPath(phases, p) && p[0] == x &&
    (p[|p| - 1] !in Names(phases) || OnCycle(phases, p[|p| - 1]))
  }

  /** `x` reaches, through `depends_on`, an unknown name or a cycle. */
  ghost predicate Blocked(phases: seq<PhaseNode>, x: string) {
    exists p :: BlockedVia(phases, x, p)
  }

  /** Every dependency of a listed phase is listed before it. */
  ghost predicate Ordered(phases: seq<PhaseNode>, order: seq<string>) {
    forall i, d :: 0 <= i < |order| && DependsOn(phases, order[i], d) ==> d in order[..i]
  }

  // ----- counting dependencies -----

  function OpenDeps(deps: seq<string>, done: set<string>): nat {
    if deps == [] then 0
    else OpenDeps(deps[..|deps| - 1], done) + if deps[|deps| - 1] in done then 0 else 1
  }

  /** Dependency entries of the phases called `n` that are not yet in `done`. */
  function OpenCount(phases: seq<PhaseNode>, n: string, done: set<string>): nat {
    if phases == [] then 0
    else
      var p := phases[|phases| - 1];
      OpenCount(phases[..|phases| - 1], n, done) + if p.name == n then OpenDeps(p.Deps(), done) else 0
  }

  function Repeat(x: string, n: nat): seq<string> {
    seq(n, _ => x)
  }

  /** The adjacency list of `d`: one entry per dependency on `d`, in declaration order. */
  function Dependents(phases: seq<PhaseNode>, d: string): seq<string> {
    if phases == [] then []
    else
      var p := phases[|phases| - 1];
      Dependents(phases[..|phases| - 1], d) + Repeat(p.name, multiset(p.Deps())[d])
  }

  lemma {:induction false} OpenDepsZero(deps: seq<string>, done: set<string>)
    ensures OpenDeps(deps, done) == 0 <==> forall d :: d in deps ==> d in done
  {
    if deps != [] {
      OpenDepsZero(deps[..|deps| - 1], done);
      assert deps == deps[..|deps| - 1] + [deps[|deps| - 1]];
    }
  }

  lemma {:induction false} OpenDepsDrop(deps: seq<string>, done: set<string>, d: string)
    requires d !in done
    ensures OpenDeps(deps, done + {d}) == OpenDeps(deps, done) - multiset(deps)[d]
  {
    if deps != [] {
      OpenDepsDrop(deps[..|deps| - 1], done, d);
      assert deps == deps[..|deps| - 1] + [deps[|deps| - 1]];
    }
  }

  lemma {:induction false} OpenCountZero(phases: seq<PhaseNode>, n: string, done: set<string>)
    ensures OpenCount(phases, n, done) == 0 <==> forall d :: DependsOn(phases, n, d) ==> d in done
  {
    if phases != [] {
      var front, p := phases[..|phases| - 1], phases[|phases| - 1];
      assert phases == front + [p];
      OpenCountZero(front, n, done);
      OpenDepsZero(p.Deps(), done);
      assert forall d :: DependsOn(phases, n, d) <==> DependsOn(front, n, d) || (p.name == n && d in p.Deps());
    }
  }

  lemma RepeatCount(x: string, n: nat, y: string)
    ensures multiset(Repeat(x, n))[y] == if y == x then n else 0
  {
    if n > 0 {
      assert Repeat(x, n) == Repeat(x, n - 1) + [x];
      RepeatCount(x, n - 1, y);
    }
  }

  /** Finishing `d` lowers each in-degree by the number of its entries in `d`'s adjacency list. */
  lemma {:induction false} OpenCountDrop(phases: seq<PhaseNode>, n: string, done: set<string>, d: string)
    requires d !in done
    ensures OpenCount(phases, n, done + {d}) ==
            OpenCount(phases, n, done) - multiset(Dependents(phases, d))[n]
  {
    if phases != [] {
      var front, p := phases[..|phases| - 1], phases[|phases| - 1];
      OpenCountDrop(front, n, done, d);
      OpenDepsDrop(p.Deps(), done, d);
      RepeatCount(p.name, multiset(p.Deps())[d], n);
    }
  }

  lemma {:induction false} DependentsAreNames(phases: seq<PhaseNode>, d: string, x: string)
    requires x in Dependents(phases, d)
    ensures x in Names(phases)
  {
    var front, p := phases[..|phases| - 1], phases[|phases| - 1];
    assert phases == front + [p];
    if x in Dependents(front, d) {
      DependentsAreNames(front, d, x);
    } else {
      assert p in phases;
    }
  }

  // ----- one worklist step as a function -----

  datatype Worklist = Worklist(degree: map<string, nat>, queue: seq<string>, result: seq<string>)

  function InsertAt(queue: seq<string>, pos: nat, n: string): seq<string> {
    if pos <= |queue| then queue[..pos] + [n] + queue[pos..] else queue + [n]
  }

  /** Every decrement finds its entry and never goes below zero. */
  ghost predicate CanRelax(degree: map<string, nat>, ns: seq<string>) {
    forall n :: n in ns ==> n in degree && multiset(ns)[n] <= degree[n]
  }

  lemma CanRelaxTail(degree: map<string, nat>, ns: seq<string>)
    requires CanRelax(degree, ns) && ns != []
    ensures ns[0] in degree && degree[ns[0]] > 0
    ensures CanRelax(degree[ns[0] := degree[ns[0]] - 1], ns[1..])
  {
    assert ns == [ns[0]] + ns[1..];
    assert ns[0] in multiset(ns);
    forall n | n in ns[1..]
      ensures n in degree && multiset(ns[1..])[n] <= degree[ns[0] := degree[ns[0]] - 1][n]
    {
      assert n in ns;
    }
  }

  ghost function Relax(degree: map<string, nat>, queue: seq<string>, ns: seq<string>, place: Placement)
    : (map<string, nat>, seq<string>)
    requires CanRelax(degree, ns)
    decreases |ns|
  {
    if ns == [] then (degree, queue)
    else
      CanRelaxTail(degree, ns);
      var d := degree[ns[0]] - 1;
      Relax(degree[ns[0] := d],
            if d == 0 then InsertAt(queue, place(queue, ns[0]), ns[0]) else queue,
            ns[1..], place)
  }

  lemma InsertAtCount(queue: seq<string>, pos: nat, n: string)
    ensures multiset(InsertAt(queue, pos, n)) == multiset(queue) + multiset{n}
  {
    if pos <= |queue| {
      assert queue == queue[..pos] + queue[pos..];
    }
  }

  ghost predicate Relaxed(degree: map<string, nat>, queue: seq<string>, entries: nat, x: string,
                          after: (map<string, nat>, seq<string>))
  {
    && after.0.Keys == degree.Keys
    && (x in degree ==> after.0[x] == degree[x] - entries)
    && multiset(after.1)[x] == multiset(queue)[x] +
                               if x in degree && degree[x] > 0 && after.0[x] == 0 then 1 else 0
  }

  /** Relaxing subtracts the entries and enqueues exactly the names that reached zero, once each. */
  lemma {:induction false} RelaxEffect(degree: map<string, nat>, queue: seq<string>, ns: seq<string>,
                                       place: Placement, x: string)
    requires CanRelax(degree, ns)
    ensures Relaxed(degree, queue, multiset(ns)[x], x, Relax(degree, queue, ns, place))
    decreases |ns|
  {
    if ns != [] {
      CanRelaxTail(degree, ns);
      var n := ns[0];
      var d := degree[n] - 1;
      var queue' := if d == 0 then InsertAt(queue, place(queue, n), n) else queue;
      RelaxEffect(degree[n := d], queue', ns[1..], place, x);
      CountHead(ns, x);
      InsertAtCount(queue, place(queue, n), n);
      assert multiset(queue')[x] == multiset(queue)[x] + if x == n && d == 0 then 1 else 0;
    }
  }

  // ----- the loop invariant -----

  /** `x` is waiting or done exactly when nothing it needs is open, and then only once. */
  ghost predicate Accounted(phases: seq<PhaseNode>, w: Worklist, x: string) {
    && w.degree.Keys == Names(phases)
    && (x in Names(phases) ==> w.degree[x] == OpenCount(phases, x, ToSet(w.result)))
    && multiset(w.queue)[x] + multiset(w.result)[x] ==
       if x in Names(phases) && w.degree[x] == 0 then 1 else 0
  }

  ghost predicate WorklistValid(phases: seq<PhaseNode>, w: Worklist) {
    && w.degree.Keys == Names(phases)
    && (forall x :: Accounted(phases, w, x))
    && Ordered(phases, w.result)
  }

  lemma PopIsReady(phases: seq<PhaseNode>, w: Worklist)
    requires WorklistValid(phases, w) && w.queue != []
    ensures var node := w.queue[|w.queue| - 1];
            && node in Names(phases) && node !in w.result
            && (forall d :: DependsOn(phases, node, d) ==> d in w.result)
            && CanRelax(w.degree, Dependents(phases, node))
  {
    var node := w.queue[|w.queue| - 1];
    assert node in multiset(w.queue);
    assert Accounted(phases, w, node);
    assert node !in multiset(w.result);
    OpenCountZero(phases, node, ToSet(w.result));
    forall n | n in Dependents(phases, node)
      ensures n in w.degree && multiset(Dependents(phases, node))[n] <= w.degree[n]
    {
      DependentsAreNames(phases, node, n);
      assert Accounted(phases, w, n);
      OpenCountDrop(phases, n, ToSet(w.result), node);
    }
  }

  ghost function Step(phases: seq<PhaseNode>, w: Worklist, place: Placement): Worklist
    requires WorklistValid(phases, w) && w.queue != []
  {
    PopIsReady(phases, w);
    var node := w.queue[|w.queue| - 1];
    var (g, q) := Relax(w.degree, w.queue[..|w.queue| - 1], Dependents(phases, node), place);
    Worklist(g, q, w.result + [node])
  }

  lemma CountSnoc(s: seq<string>, x: string, y: string)
    ensures multiset(s + [x])[y] == multiset(s)[y] + if y == x then 1 else 0
  {
  }

  lemma AccountedAfter(phases: seq<PhaseNode>, w: Worklist, rest: seq<string>, node: string,
                       after: (map<string, nat>, seq<string>), x: string)
    requires Accounted(phases, w, x) && Accounted(phases, w, node)
    requires w.queue == rest + [node] && node !in w.result
    requires Relaxed(w.degree, rest, multiset(Dependents(phases, node))[x], x, after)
    ensures Accounted(phases, Worklist(after.0, after.1, w.result + [node]), x)
  {
    OpenCountDrop(phases, x, ToSet(w.result), node);
    assert ToSet(w.result + [node]) == ToSet(w.result) + {node};
    CountSnoc(rest, node, x);
    CountSnoc(rest, node, node);
    CountSnoc(w.result, node, x);
  }

  lemma StepAccounted(phases: seq<PhaseNode>, w: Worklist, place: Placement, x: string)
    requires WorklistValid(phases, w) && w.queue != []
    ensures Accounted(phases, Step(phases, w, place), x)
  {
    PopIsReady(phases, w);
    var node := w.queue[|w.queue| - 1];
    var rest := w.queue[..|w.queue| - 1];
    RelaxEffect(w.degree, rest, Dependents(phases, node), place, x);
    assert Accounted(phases, w, x) && Accounted(phases, w, node);
    AccountedAfter(phases, w, rest, node, Relax(w.degree, rest, Dependents(phases, node), place), x);
  }

  lemma StepValid(phases: seq<PhaseNode>, w: Worklist, place: Placement)
    requires WorklistValid(phases, w) && w.queue != []
    ensures WorklistValid(phases, Step(phases, w, place))
    ensures |Step(phases, w, place).result| == |w.result| + 1 <= |Names(phases)|
  {
    var w' := Step(phases, w, place);
    forall x ensures Accounted(phases, w', x) {
      StepAccounted(phases, w, place, x);
    }
    assert Accounted(phases, w', "");
    forall i, d | 0 <= i < |w'.result| && DependsOn(phases, w'.result[i], d) ensures d in w'.result[..i] {
      StepPrecedes(phases, w, place, i, d);
    }
    ResultBound(phases, w');
  }

  lemma StepPrecedes(phases: seq<PhaseNode>, w: Worklist, place: Placement, i: nat, d: string)
    requires WorklistValid(phases, w) && w.queue != []
    requires i <= |w.result| && DependsOn(phases, Step(phases, w, place).result[i], d)
    ensures d in Step(phases, w, place).result[..i]
  {
    PopIsReady(phases, w);
    assert Step(phases, w, place).result[..i] == w.result[..i];
    if i == |w.result| { assert w.result[..i] == w.result; }
  }

  lemma ResultBound(phases: seq<PhaseNode>, w: Worklist)
    requires WorklistValid(phases, w)
    ensures Distinct(w.result) && ToSet(w.result) <= Names(phases)
    ensures |w.result| <= |Names(phases)|
  {
    forall x ensures multiset(w.result)[x] <= 1 && (x in w.result ==> x in Names(phases)) {
      if x in w.result { assert x in multiset(w.result); }
      assert Accounted(phases, w, x);
    }
    DistinctByCount(w.result);
    DistinctCardinality(w.result);
    SubsetCardinality(ToSet(w.result), Names(phases));
  }

  ghost function Drain(phases: seq<PhaseNode>, w: Worklist, place: Placement): (result: seq<string>)
    requires WorklistValid(phases, w)
    decreases |Names(phases)| - |w.result|
  {
    if w.queue == [] then w.result
    else
      StepValid(phases, w, place);
      Drain(phases, Step(phases, w, place), place)
  }

  /** What is left when the queue runs dry: a phase is listed exactly when all it needs is. */
  ghost predicate Saturated(phases: seq<PhaseNode>, result: seq<string>) {
    && Distinct(result)
    && ToSet(result) <= Names(phases)
    && Ordered(phases, result)
    && (forall x :: x in Names(phases) && (forall d :: DependsOn(phases, x, d) ==> d in result) ==> x in result)
  }

  lemma {:induction false} DrainSaturates(phases: seq<PhaseNode>, w: Worklist, place: Placement)
    requires WorklistValid(phases, w)
    ensures Saturated(phases, Drain(phases, w, place))
    decreases |Names(phases)| - |w.result|
  {
    if w.queue == [] {
      ResultBound(phases, w);
      forall x | x in Names(phases) && (forall d :: DependsOn(phases, x, d) ==> d in w.result)
        ensures x in w.result
      {
        OpenCountZero(phases, x, ToSet(w.result));
        assert Accounted(phases, w, x);
      }
    } else {
      StepValid(phases, w, place);
      DrainSaturates(phases, Step(phases, w, place), place);
    }
  }

  // ----- initial state -----

  function InDegree(phases: seq<PhaseNode>, n: string): nat {
    OpenCount(phases, n, {})
  }

  function ReadyNames(phases: seq<PhaseNode>, names: seq<string>): seq<string> {
    if names == [] then []
    else (if InDegree(phases, names[0]) == 0 then [names[0]] else []) + ReadyNames(phases, names[1..])
  }

  function UniqueNames(phases: seq<PhaseNode>): seq<string> {
    if phases == [] then []
    else
      var front := phases[..|phases| - 1];
      var n := phases[|phases| - 1].name;
      UniqueNames(front) + if n in Names(front) then [] else [n]
  }

  /** `names` lists the keys of the in-degree map, in whatever order the map yields them. */
  ghost predicate ListsKeys(phases: seq<PhaseNode>, names: seq<string>) {
    Distinct(names) && ToSet(names) == Names(phases)
  }

  lemma {:induction false} UniqueNamesListKeys(phases: seq<PhaseNode>)
    ensures ListsKeys(phases, UniqueNames(phases))
  {
    if phases != [] {
      var front, p := phases[..|phases| - 1], phases[|phases| - 1];
      assert phases == front + [p];
      UniqueNamesListKeys(front);
      assert Names(phases) == Names(front) + {p.name};
      forall x ensures x in UniqueNames(phases) <==> x in Names(phases) {
        assert x in UniqueNames(front) <==> x in ToSet(UniqueNames(front));
      }
    }
  }

  lemma {:induction false} ReadyNamesCount(phases: seq<PhaseNode>, names: seq<string>, x: string)
    ensures multiset(ReadyNames(phases, names))[x] ==
            if InDegree(phases, x) == 0 then multiset(names)[x] else 0
  {
    if names != [] {
      assert names == [names[0]] + names[1..];
      ReadyNamesCount(phases, names[1..], x);
    }
  }

  ghost function Initial(phases: seq<PhaseNode>, names: seq<string>): Worklist {
    Worklist(map n | n in Names(phases) :: InDegree(phases, n), SortStrings(ReadyNames(phases, names)), [])
  }

  lemma InitialValid(phases: seq<PhaseNode>, names: seq<string>)
    requires ListsKeys(phases, names)
    ensures WorklistValid(phases, Initial(phases, names))
  {
    var w := Initial(phases, names);
    SortStringsSorts(ReadyNames(phases, names));
    assert ToSet(w.result) == {};
    forall x
      ensures multiset(w.queue)[x] == if x in Names(phases) && w.degree[x] == 0 then 1 else 0
    {
      ReadyNamesCount(phases, names, x);
      CountOfDistinct(names, x);
      assert x in names <==> x in ToSet(names);
    }
  }

  /** The sorted start queue does not depend on the order the in-degree map was walked in. */
  lemma IterationOrderIrrelevant(phases: seq<PhaseNode>, names: seq<string>)
    requires ListsKeys(phases, names)
    ensures Initial(phases, names) == Initial(phases, UniqueNames(phases))
  {
    var other := UniqueNames(phases);
    UniqueNamesListKeys(phases);
    SortStringsSorts(ReadyNames(phases, names));
    SortStringsSorts(ReadyNames(phases, other));
    forall x ensures multiset(ReadyNames(phases, names))[x] == multiset(ReadyNames(phases, other))[x] {
      ReadyNamesCount(phases, names, x);
      ReadyNamesCount(phases, other, x);
      CountOfDistinct(names, x);
      CountOfDistinct(other, x);
      assert x in names <==> x in ToSet(names);
      assert x in other <==> x in ToSet(other);
    }
    assert multiset(ReadyNames(phases, names)) == multiset(ReadyNames(phases, other));
    AscendingUnique(SortStrings(ReadyNames(phases, names)), SortStrings(ReadyNames(phases, other)));
  }

  // ----- the whole function -----

  /** `phases.iter().find(|p| p.name == name)` has a dependency that names no phase. */
  predicate FirstHasUnknown(phases: seq<PhaseNode>, name: string) {
    exists i :: 0 <= i < |phases| && phases[i].name == name
      && (forall j :: 0 <= j < i ==> phases[j].name != name)
      && exists d :: d in phases[i].Deps() && d !in Names(phases)
  }

  ghost function Ordering(phases: seq<PhaseNode>, place: Placement): seq<string> {
    UniqueNamesListKeys(phases);
    InitialValid(phases, UniqueNames(phases));
    Drain(phases, Initial(phases, UniqueNames(phases)), place)
  }

  /** `stuck` is the ascending list of the phase names that were not ordered. */
  ghost predicate IsStuckList(phases: seq<PhaseNode>, ordered: seq<string>, stuck: seq<string>) {
    Ascending(stuck) && Distinct(stuck) && ToSet(stuck) == Names(phases) - ToSet(ordered)
  }

  ghost predicate IsSchedule(phases: seq<PhaseNode>, place: Placement, r: Result<seq<string>, ScheduleError>) {
    var ordered := Ordering(phases, place);
    if |ordered| == |phases| then r == Ok(ordered)
    else
      && r.Err?
      && IsStuckList(phases, ordered, r.error.stuck)
      && (r.error.UnknownDependencies? <==> exists n :: n in r.error.stuck && FirstHasUnknown(phases, n))
  }

  // ----- stuck means blocked -----

  /** Along dependencies the position in an ordered list only goes down. */
  lemma {:induction false} PathDescends(phases: seq<PhaseNode>, order: seq<string>, p: seq<string>, i: nat)
    returns (j: nat)
    requires Ordered(phases, order) && IsPath(phases, p)
    requires i < |order| && order[i] == p[0]
    ensures j <= i && order[j] == p[|p| - 1]
    ensures |p| >= 2 ==> j < i
    decreases |p|
  {
    if |p| == 1 {
      j := i;
    } else {
      assert DependsOn(phases, p[0], p[1]);
      var k :| 0 <= k < i && order[k] == p[1];
      forall t | 0 <= t < |p[1..]| - 1 ensures DependsOn(phases, p[1..][t], p[1..][t + 1]) {
        assert DependsOn(phases, p[t + 1], p[t + 2]);
      }
      j := PathDescends(phases, order, p[1..], k);
    }
  }

  lemma ListedNotBlocked(phases: seq<PhaseNode>, order: seq<string>, x: string)
    requires Saturated(phases, order) && x in order
    ensures !Blocked(phases, x)
  {
    var i :| 0 <= i < |order| && order[i] == x;
    forall p ensures !BlockedVia(phases, x, p) {
      if BlockedVia(phases, x, p) {
        var j := PathDescends(phases, order, p, i);
        assert order[j] in ToSet(order);
        var c :| IsCycle(phases, c) && c[0] == p[|p| - 1];
        var k := PathDescends(phases, order, c, j);
      }
    }
  }

  /** From a stuck phase one can keep walking along stuck phases until an unknown name. */
  lemma {:induction false} StuckWalk(phases: seq<PhaseNode>, order: seq<string>, x: string, n: nat)
    returns (p: seq<string>)
    requires Saturated(phases, order) && x in Names(phases) && x !in order
    ensures IsPath(phases, p) && p[0] == x
    ensures forall i :: 0 <= i < |p| - 1 ==> p[i] in Names(phases) && p[i] !in order
    ensures p[|p| - 1] !in Names(phases) || (|p| == n + 1 && p[|p| - 1] in Names(phases) && p[|p| - 1] !in order)
    decreases n
  {
    if n == 0 {
      p := [x];
    } else {
      var d :| DependsOn(phases, x, d) && d !in order;
      if d !in Names(phases) {
        p := [x, d];
      } else {
        var q := StuckWalk(phases, order, d, n - 1);
        p := [x] + q;
        forall i | 0 <= i < |p| - 1
          ensures DependsOn(phases, p[i], p[i + 1]) && p[i] in Names(phases) && p[i] !in order
        {
          if i > 0 { assert p[i] == q[i - 1] && p[i + 1] == q[i]; }
        }
      }
    }
  }

  lemma SubPath(phases: seq<PhaseNode>, p: seq<string>, i: nat, j: nat)
    requires IsPath(phases, p) && i < j <= |p|
    ensures IsPath(phases, p[i..j])
  {
    forall t | 0 <= t < j - i - 1 ensures DependsOn(phases, p[i..j][t], p[i..j][t + 1]) {
      assert DependsOn(phases, p[i + t], p[i + t + 1]);
    }
  }

  lemma SplitAtRepeat(phases: seq<PhaseNode>, p: seq<string>, i: nat, j: nat)
    returns (q: seq<string>, cycle: seq<string>)
    requires IsPath(phases, p) && i < j < |p| && p[i] == p[j]
    ensures IsPath(phases, q) && q[0] == p[0] && q[|q| - 1] == p[i]
    ensures IsCycle(phases, cycle) && cycle[0] == p[i]
    ensures forall y :: y in q || y in cycle ==> y in p
  {
    SubPath(phases, p, 0, i + 1);
    SubPath(phases, p, i, j + 1);
    q, cycle := p[0..i + 1], p[i..j + 1];
  }

  lemma AllStuck(phases: seq<PhaseNode>, order: seq<string>, p: seq<string>)
    requires forall i :: 0 <= i < |p| ==> p[i] in Names(phases) && p[i] !in order
    ensures forall y :: y in p ==> y in Names(phases) && y !in order
  {
  }

  /** A path with more places than there are phases contains a cycle. */
  lemma LongWalkRepeats(phases: seq<PhaseNode>, p: seq<string>) returns (q: seq<string>, cycle: seq<string>)
    requires IsPath(phases, p) && |p| > |Names(phases)| && forall y :: y in p ==> y in Names(phases)
    ensures IsPath(phases, q) && q[0] == p[0]
    ensures IsCycle(phases, cycle) && cycle[0] == q[|q| - 1]
    ensures forall y :: y in q || y in cycle ==> y in p
  {
    Pigeonhole(p, Names(phases));
    var i, j :| 0 <= i < j < |p| && p[i] == p[j];
    q, cycle := SplitAtRepeat(phases, p, i, j);
  }

  /** A stuck phase reaches an unknown name, or a cycle made of stuck phases only. */
  lemma StuckReaches(phases: seq<PhaseNode>, order: seq<string>, x: string) returns (p: seq<string>, cycle: seq<string>)
    requires Saturated(phases, order) && x in Names(phases) && x !in order
    ensures IsPath(phases, p) && p[0] == x
    ensures p[|p| - 1] !in Names(phases) || (IsCycle(phases, cycle) && cycle[0] == p[|p| - 1])
    ensures p[|p| - 1] in Names(phases) ==> forall y :: y in cycle ==> y in Names(phases) && y !in order
  {
    p := StuckWalk(phases, order, x, |Names(phases)|);
    cycle := [];
    if p[|p| - 1] in Names(phases) {
      AllStuck(phases, order, p);
      p, cycle := LongWalkRepeats(phases, p);
    }
  }

  /** The phases Kahn's algorithm leaves over are exactly the blocked ones. */
  lemma StuckIffBlocked(phases: seq<PhaseNode>, order: seq<string>, x: string)
    requires Saturated(phases, order) && x in Names(phases)
    ensures x !in order <==> Blocked(phases, x)
  {
    if x in order {
      ListedNotBlocked(phases, order, x);
    } else {
      var p, cycle := StuckReaches(phases, order, x);
      assert BlockedVia(phases, x, p);
    }
  }

  lemma OrderingSaturated(phases: seq<PhaseNode>, place: Placement)
    ensures Saturated(phases, Ordering(phases, place))
  {
    UniqueNamesListKeys(phases);
    InitialValid(phases, UniqueNames(phases));
    DrainSaturates(phases, Initial(phases, UniqueNames(phases)), place);
  }

  lemma NoneBlockedIff(phases: seq<PhaseNode>)
    ensures (forall x :: x in Names(phases) ==> !Blocked(phases, x)) <==> AllKnown(phases) && Acyclic(phases)
  {
    if AllKnown(phases) && Acyclic(phases) {
      forall x | x in Names(phases) ensures !Blocked(phases, x) {
        forall p ensures !BlockedVia(phases, x, p) {
          if IsPath(phases, p) && p[0] == x { PathStaysKnown(phases, p); }
        }
      }
    } else if !AllKnown(phases) {
      var a, b :| DependsOn(phases, a, b) && b !in Names(phases);
      assert a in Names(phases);
      assert BlockedVia(phases, a, [a, b]);
    } else {
      var p :| IsCycle(phases, p);
      assert DependsOn(phases, p[0], p[1]);
      assert p[0] in Names(phases);
      assert BlockedVia(phases, p[0], [p[0]]);
    }
  }

  lemma NamesCardinality(phases: seq<PhaseNode>)
    ensures ToSet(NameList(phases)) == Names(phases)
    ensures |Names(phases)| <= |phases|
    ensures |Names(phases)| == |phases| <==> DistinctNames(phases)
    ensures DistinctNames(phases) <==> Distinct(NameList(phases))
  {
    var l := NameList(phases);
    forall x ensures x in l <==> x in Names(phases) {
      if x in Names(phases) {
        var p :| p in phases && p.name == x;
        var i :| 0 <= i < |phases| && phases[i] == p;
        assert l[i] == x;
      }
    }
    assert Distinct(l) ==> DistinctNames(phases) by {
      forall i, j | 0 <= i < j < |phases| && Distinct(l) ensures phases[i].name != phases[j].name {
        assert l[i] != l[j];
      }
    }
    assert ToSet(l) == Names(phases);
    CardinalityBound(l);
    if DistinctNames(phases) { DistinctCardinality(l); }
  }

  lemma AllListedMultiset(phases: seq<PhaseNode>, order: seq<string>)
    requires DistinctNames(phases) && Distinct(order) && ToSet(order) == Names(phases)
    ensures multiset(order) == multiset(NameList(phases))
  {
    NamesCardinality(phases);
    forall x ensures multiset(order)[x] == multiset(NameList(phases))[x] {
      CountOfDistinct(order, x);
      CountOfDistinct(NameList(phases), x);
      assert x in order <==> x in ToSet(order);
      assert x in NameList(phases) <==> x in ToSet(NameList(phases));
    }
  }

  lemma AllOrderedIff(phases: seq<PhaseNode>, order: seq<string>)
    requires Saturated(phases, order)
    ensures ToSet(order) == Names(phases) <==> AllKnown(phases) && Acyclic(phases)
  {
    forall x | x in Names(phases) ensures x in ToSet(order) <==> !Blocked(phases, x) {
      StuckIffBlocked(phases, order, x);
    }
    NoneBlockedIff(phases);
  }

  /**
   * Success, on every input: exactly when the names are distinct, every dependency names a phase
   * and the dependencies are acyclic; the order is then a permutation of the phase names with
   * every dependency first.
   */
  lemma ScheduleSucceedsIff(phases: seq<PhaseNode>, place: Placement, r: Result<seq<string>, ScheduleError>)
    requires IsSchedule(phases, place, r)
    ensures r.Ok? <==> DistinctNames(phases) && AllKnown(phases) && Acyclic(phases)
    ensures r.Ok? ==> multiset(r.value) == multiset(NameList(phases)) && Ordered(phases, r.value)
  {
    var order := Ordering(phases, place);
    OrderingSaturated(phases, place);
    NamesCardinality(phases);
    DistinctCardinality(order);
    SubsetCardinality(ToSet(order), Names(phases));
    AllOrderedIff(phases, order);
    if r.Ok? { AllListedMultiset(phases, order); }
  }

  lemma StuckListExact(phases: seq<PhaseNode>, order: seq<string>, stuck: seq<string>, x: string)
    requires Saturated(phases, order) && IsStuckList(phases, order, stuck)
    ensures x in stuck <==> x in Names(phases) && Blocked(phases, x)
  {
    assert x in stuck <==> x in ToSet(stuck);
    if x in Names(phases) { StuckIffBlocked(phases, order, x); }
  }

  lemma CycleAmongStuck(phases: seq<PhaseNode>, order: seq<string>, stuck: seq<string>) returns (c: seq<string>)
    requires Saturated(phases, order) && IsStuckList(phases, order, stuck)
    requires stuck != []
    requires forall p :: IsPath(phases, p) && p[0] == stuck[0] ==> p[|p| - 1] in Names(phases)
    ensures IsCycle(phases, c) && forall y :: y in c ==> y in stuck
  {
    var x := stuck[0];
    assert x in ToSet(stuck);
    var p;
    p, c := StuckReaches(phases, order, x);
    UnorderedAreStuck(phases, order, stuck, c);
  }

  lemma UnorderedAreStuck(phases: seq<PhaseNode>, order: seq<string>, stuck: seq<string>, c: seq<string>)
    requires IsStuckList(phases, order, stuck)
    requires forall y :: y in c ==> y in Names(phases) && y !in order
    ensures forall y :: y in c ==> y in stuck
  {
    forall y | y in c ensures y in stuck {
      assert y in ToSet(stuck);
    }
  }

  lemma EmptyStuckIff(phases: seq<PhaseNode>, stuck: seq<string>)
    requires forall x :: x in stuck <==> x in Names(phases) && Blocked(phases, x)
    ensures stuck == [] <==> AllKnown(phases) && Acyclic(phases)
  {
    NoneBlockedIff(phases);
    if stuck != [] { assert stuck[0] in stuck; }
  }

  /**
   * Failure, on every input: the reported names are exactly the blocked phases, and for distinct
   * names "unknown dependencies" is reported exactly when some phase names a non-phase, so that a
   * reported circular dependency has a real cycle among the reported names. An empty list is
   * reported exactly for duplicate names with nothing else wrong.
   */
  lemma ScheduleFailureExact(phases: seq<PhaseNode>, place: Placement, r: Result<seq<string>, ScheduleError>)
    requires IsSchedule(phases, place, r) && r.Err?
    ensures forall x :: x in r.error.stuck <==> x in Names(phases) && Blocked(phases, x)
    ensures DistinctNames(phases) ==> (r.error.UnknownDependencies? <==> !AllKnown(phases))
    ensures DistinctNames(phases) && r.error.CircularDependency? ==>
              exists c :: IsCycle(phases, c) && forall y :: y in c ==> y in r.error.stuck
    ensures r.error.stuck == [] <==> !DistinctNames(phases) && AllKnown(phases) && Acyclic(phases)
  {
    var order, stuck := Ordering(phases, place), r.error.stuck;
    OrderingSaturated(phases, place);
    forall x ensures x in stuck <==> x in Names(phases) && Blocked(phases, x) {
      StuckListExact(phases, order, stuck, x);
    }
    ScheduleSucceedsIff(phases, place, r);
    EmptyStuckIff(phases, stuck);
    if DistinctNames(phases) {
      UnknownClassified(phases, stuck);
      if r.error.CircularDependency? {
        forall p | IsPath(phases, p) && p[0] == stuck[0] ensures p[|p| - 1] in Names(phases) {
          PathStaysKnown(phases, p);
        }
        var c := CycleAmongStuck(phases, order, stuck);
      }
    }
  }

  lemma PathStaysKnown(phases: seq<PhaseNode>, p: seq<string>)
    requires IsPath(phases, p) && AllKnown(phases) && p[0] in Names(phases)
    ensures p[|p| - 1] in Names(phases)
  {
    if |p| >= 2 { assert DependsOn(phases, p[|p| - 2], p[|p| - 1]); }
  }

  lemma FirstHasUnknownIff(phases: seq<PhaseNode>, n: string)
    requires DistinctNames(phases)
    ensures FirstHasUnknown(phases, n) <==> exists d :: DependsOn(phases, n, d) && d !in Names(phases)
  {
    if d :| DependsOn(phases, n, d) && d !in Names(phases) {
      var p :| p in phases && p.name == n && d in p.Deps();
      var i :| 0 <= i < |phases| && phases[i] == p;
    }
    if FirstHasUnknown(phases, n) {
      var i :| 0 <= i < |phases| && phases[i].name == n && exists d :: d in phases[i].Deps() && d !in Names(phases);
      var d :| d in phases[i].Deps() && d !in Names(phases);
      assert DependsOn(phases, n, d);
    }
  }

  lemma UnknownClassified(phases: seq<PhaseNode>, stuck: seq<string>)
    requires DistinctNames(phases)
    requires forall x :: x in stuck <==> x in Names(phases) && Blocked(phases, x)
    ensures (exists n :: n in stuck && FirstHasUnknown(phases, n)) <==> !AllKnown(phases)
  {
    if n :| n in stuck && FirstHasUnknown(phases, n) {
      FirstHasUnknownIff(phases, n);
    }
    if !AllKnown(phases) {
      var a, b :| DependsOn(phases, a, b) && b !in Names(phases);
      assert a in Names(phases);
      assert BlockedVia(phases, a, [a, b]);
      FirstHasUnknownIff(phases, a);
    }
  }

  lemma SameStuckList(phases: seq<PhaseNode>, ordered: seq<string>, a: seq<string>, b: seq<string>)
    requires IsStuckList(phases, ordered, a) && IsStuckList(phases, ordered, b)
    ensures a == b
  {
    forall x ensures multiset(a)[x] == multiset(b)[x] {
      CountOfDistinct(a, x);
      CountOfDistinct(b, x);
      assert x in ToSet(a) <==> x in ToSet(b);
    }
    assert multiset(a) == multiset(b);
    AscendingUnique(a, b);
  }

  /** The outcome, order and error included, is determined by the phases. */
  lemma ScheduleUnique(phases: seq<PhaseNode>, place: Placement,
                       a: Result<seq<string>, ScheduleError>, b: Result<seq<string>, ScheduleError>)
    requires IsSchedule(phases, place, a) && IsSchedule(phases, place, b)
    ensures a == b
  {
    if a.Err? { SameStuckList(phases, Ordering(phases, place), a.error.stuck, b.error.stuck); }
  }

  // ----- the imperative form -----

  function Entry(adj: map<string, seq<string>>, d: string): seq<string> {
    if d in adj then adj[d] else []
  }

  lemma OpenDepsSnoc(deps: seq<string>, j: nat)
    requires j < |deps|
    ensures OpenDeps(deps[..j + 1], {}) == OpenDeps(deps[..j], {}) + 1
  {
    assert deps[..j + 1][..j] == deps[..j];
    assert deps[..j + 1] == deps[..j] + [deps[j]];
  }

  lemma PhaseSnoc(phases: seq<PhaseNode>, i: nat, d: string)
    requires i < |phases|
    ensures Names(phases[..i + 1]) == Names(phases[..i]) + {phases[i].name}
    ensures Dependents(phases[..i + 1], d) ==
            Dependents(phases[..i], d) + Repeat(phases[i].name, multiset(phases[i].Deps())[d])
    ensures InDegree(phases[..i + 1], d) ==
            InDegree(phases[..i], d) + if phases[i].name == d then OpenDeps(phases[i].Deps(), {}) else 0
  {
    assert phases[..i + 1][..i] == phases[..i];
    assert phases[..i + 1] == phases[..i] + [phases[i]];
  }

  /** The maps hold the graph of `done` plus the first `j` dependencies of phase `p`. */
  ghost predicate Building(done: seq<PhaseNode>, p: PhaseNode, j: nat,
                           adj: map<string, seq<string>>, degree: map<string, nat>)
    requires j <= |p.Deps()|
  {
    && DegreesAt(done, p.name, OpenDeps(p.Deps()[..j], {}), degree)
    && AllListed(done, p, multiset(p.Deps()[..j]), adj)
  }

  ghost predicate DegreesAt(done: seq<PhaseNode>, name: string, open: nat, degree: map<string, nat>) {
    && degree.Keys == Names(done) + {name}
    && (forall n :: n in degree ==> degree[n] == InDegree(done, n) + if n == name then open else 0)
  }

  lemma DegreesStep(done: seq<PhaseNode>, name: string, open: nat, degree: map<string, nat>)
    requires DegreesAt(done, name, open, degree)
    ensures DegreesAt(done, name, open + 1, degree[name := degree[name] + 1])
  {
    assert degree[name := degree[name] + 1].Keys == degree.Keys;
  }

  ghost predicate AllListed(done: seq<PhaseNode>, p: PhaseNode, seen: multiset<string>, adj: map<string, seq<string>>) {
    forall d :: Listed(done, p, seen, adj, d)
  }

  ghost predicate Listed(done: seq<PhaseNode>, p: PhaseNode, seen: multiset<string>,
                         adj: map<string, seq<string>>, d: string)
  {
    Entry(adj, d) == Dependents(done, d) + Repeat(p.name, seen[d])
  }

  ghost predicate Built(phases: seq<PhaseNode>, adj: map<string, seq<string>>, degree: map<string, nat>) {
    && degree.Keys == Names(phases)
    && (forall n :: n in degree ==> degree[n] == InDegree(phases, n))
    && (forall d :: Entry(adj, d) == Dependents(phases, d))
  }

  lemma {:induction false} UnseenHasNoDegree(phases: seq<PhaseNode>, n: string)
    requires n !in Names(phases)
    ensures InDegree(phases, n) == 0
  {
    OpenCountZero(phases, n, {});
  }

  lemma BuildingStart(done: seq<PhaseNode>, p: PhaseNode, adj0: map<string, seq<string>>, degree0: map<string, nat>)
    requires Built(done, adj0, degree0)
    ensures Building(done, p, 0,
                     if p.name in adj0 then adj0 else adj0[p.name := []],
                     if p.name in degree0 then degree0 else degree0[p.name := 0])
  {
    if p.name !in degree0 { UnseenHasNoDegree(done, p.name); }
    var adj := if p.name in adj0 then adj0 else adj0[p.name := []];
    var none := multiset(p.Deps()[..0]);
    forall d ensures Listed(done, p, none, adj, d) {
      assert Entry(adj, d) == Entry(adj0, d);
    }
  }

  lemma BuildingStep(done: seq<PhaseNode>, p: PhaseNode, j: nat, adj: map<string, seq<string>>,
                     degree: map<string, nat>)
    requires j < |p.Deps()| && Building(done, p, j, adj, degree)
    ensures Building(done, p, j + 1,
                     adj[p.Deps()[j] := Entry(adj, p.Deps()[j]) + [p.name]],
                     degree[p.name := degree[p.name] + 1])
  {
    var deps := p.Deps();
    OpenDepsSnoc(deps, j);
    DegreesStep(done, p.name, OpenDeps(deps[..j], {}), degree);
    assert deps[..j + 1] == deps[..j] + [deps[j]];
    AllListedStep(done, p, multiset(deps[..j]), adj, deps[j]);
  }

  lemma AllListedStep(done: seq<PhaseNode>, p: PhaseNode, seen: multiset<string>, adj: map<string, seq<string>>,
                      dep: string)
    requires AllListed(done, p, seen, adj)
    ensures AllListed(done, p, seen + multiset{dep}, adj[dep := Entry(adj, dep) + [p.name]])
  {
    var seen', adj' := seen + multiset{dep}, adj[dep := Entry(adj, dep) + [p.name]];
    forall d ensures Listed(done, p, seen', adj', d) {
      assert Listed(done, p, seen, adj, d);
      ListedStep(done, p, seen, adj, dep, d);
    }
  }

  lemma ListedStep(done: seq<PhaseNode>, p: PhaseNode, seen: multiset<string>, adj: map<string, seq<string>>,
                   dep: string, d: string)
    requires Listed(done, p, seen, adj, d)
    ensures Listed(done, p, seen + multiset{dep}, adj[dep := Entry(adj, dep) + [p.name]], d)
  {
    RepeatSnoc(Dependents(done, d), p.name, seen[d]);
  }

  lemma RepeatSnoc(s: seq<string>, x: string, n: nat)
    ensures s + Repeat(x, n) + [x] == s + Repeat(x, n + 1)
  {
    assert Repeat(x, n + 1) == Repeat(x, n) + [x];
  }

  method AddPhase(ghost done: seq<PhaseNode>, p: PhaseNode, adj0: map<string, seq<string>>, degree0: map<string, nat>)
    returns (adj: map<string, seq<string>>, degree: map<string, nat>)
    requires Built(done, adj0, degree0)
    ensures Building(done, p, |p.Deps()|, adj, degree)
  {
    BuildingStart(done, p, adj0, degree0);
    adj := if p.name in adj0 then adj0 else adj0[p.name := []];
    degree := if p.name in degree0 then degree0 else degree0[p.name := 0];
    for j := 0 to |p.Deps()|
      invariant Building(done, p, j, adj, degree)
    {
      BuildingStep(done, p, j, adj, degree);
      var dep := p.Deps()[j];
      adj := adj[dep := Entry(adj, dep) + [p.name]];
      degree := degree[p.name := degree[p.name] + 1];
    }
  }

  method BuildGraph(phases: seq<PhaseNode>) returns (adj: map<string, seq<string>>, degree: map<string, nat>)
    ensures Built(phases, adj, degree)
  {
    adj, degree := map[], map[];
    for i := 0 to |phases|
      invariant Built(phases[..i], adj, degree)
    {
      adj, degree := AddPhase(phases[..i], phases[i], adj, degree);
      BuiltNext(phases, i, adj, degree);
    }
    assert phases[..|phases|] == phases;
  }

  lemma BuiltNext(phases: seq<PhaseNode>, i: nat, adj: map<string, seq<string>>, degree: map<string, nat>)
    requires i < |phases|
    requires Building(phases[..i], phases[i], |phases[i].Deps()|, adj, degree)
    ensures Built(phases[..i + 1], adj, degree)
  {
    var deps := phases[i].Deps();
    assert deps[..|deps|] == deps;
    PhaseSnoc(phases, i, "");
    forall n | n in degree ensures degree[n] == InDegree(phases[..i + 1], n) {
      PhaseSnoc(phases, i, n);
    }
    forall d ensures Entry(adj, d) == Dependents(phases[..i + 1], d) {
      PhaseSnoc(phases, i, d);
      assert Listed(phases[..i], phases[i], multiset(deps), adj, d);
    }
  }

  /** The inner loop: decrement each dependent's in-degree, enqueue the ones that reach zero. */
  method RelaxAll(degree0: map<string, nat>, queue0: seq<string>, neighbors: seq<string>, place: Placement)
    returns (degree: map<string, nat>, queue: seq<string>)
    requires CanRelax(degree0, neighbors)
    ensures (degree, queue) == Relax(degree0, queue0, neighbors, place)
  {
    degree, queue := degree0, queue0;
    for i := 0 to |neighbors|
      invariant CanRelax(degree, neighbors[i..])
      invariant Relax(degree, queue, neighbors[i..], place) == Relax(degree0, queue0, neighbors, place)
    {
      var neighbor := neighbors[i];
      CanRelaxTail(degree, neighbors[i..]);
      assert neighbors[i..][1..] == neighbors[i + 1..];
      degree := degree[neighbor := degree[neighbor] - 1];
      if degree[neighbor] == 0 {
        queue := InsertAt(queue, place(queue, neighbor), neighbor);
      }
    }
  }

  method ReadyQueue(ghost phases: seq<PhaseNode>, degree: map<string, nat>, keys: seq<string>)
    returns (queue: seq<string>)
    requires ListsKeys(phases, keys)
    requires degree == Initial(phases, keys).degree
    ensures queue == Initial(phases, keys).queue
  {
    queue := [];
    var i := |keys|;
    while i > 0
      invariant 0 <= i <= |keys|
      invariant queue == ReadyNames(phases, keys[i..])
    {
      i := i - 1;
      assert keys[i] in ToSet(keys);
      assert keys[i..][1..] == keys[i + 1..];
      queue := (if degree[keys[i]] == 0 then [keys[i]] else []) + queue;
    }
    queue := SortStrings(queue);
  }

  lemma ToSetSnoc(s: seq<string>, x: string)
    requires Distinct(s) && x !in ToSet(s)
    ensures ToSet(s + [x]) == ToSet(s) + {x} && Distinct(s + [x])
  {
    assert x !in s;
  }

  lemma SortKeepsDistinct(s: seq<string>)
    requires Distinct(s)
    ensures Ascending(SortStrings(s)) && Distinct(SortStrings(s)) && ToSet(SortStrings(s)) == ToSet(s)
  {
    SortStringsSorts(s);
    forall x ensures x in SortStrings(s) <==> x in s {
      assert x in multiset(SortStrings(s)) <==> x in multiset(s);
    }
    forall x ensures multiset(SortStrings(s))[x] <= 1 { CountOfDistinct(s, x); }
    DistinctByCount(SortStrings(s));
  }

  method StuckNames(phases: seq<PhaseNode>, result: seq<string>) returns (stuck: seq<string>)
    ensures IsStuckList(phases, result, stuck)
  {
    var all := Names(phases) - ToSet(result);
    var listing: seq<string> := [];
    while all - ToSet(listing) != {}
      invariant ToSet(listing) <= all && Distinct(listing)
      decreases all - ToSet(listing)
    {
      var x :| x in all - ToSet(listing);
      ToSetSnoc(listing, x);
      listing := listing + [x];
    }
    assert ToSet(listing) == all by {
      forall x | x in all ensures x in ToSet(listing) { assert x !in all - ToSet(listing); }
    }
    stuck := SortStrings(listing);
    SortKeepsDistinct(listing);
  }

  /** The outer loop: pop a ready phase, list it, relax its dependents. */
  method DrainQueue(phases: seq<PhaseNode>, adj: map<string, seq<string>>, degree0: map<string, nat>,
                    queue0: seq<string>, place: Placement) returns (result: seq<string>)
    requires Built(phases, adj, degree0) && WorklistValid(phases, Worklist(degree0, queue0, []))
    ensures result == Drain(phases, Worklist(degree0, queue0, []), place)
  {
    var degree, queue := degree0, queue0;
    result := [];
    while queue != []
      invariant WorklistValid(phases, Worklist(degree, queue, result))
      invariant Drain(phases, Worklist(degree, queue, result), place) ==
                Drain(phases, Worklist(degree0, queue0, []), place)
      decreases |Names(phases)| - |result|
    {
      ghost var w := Worklist(degree, queue, result);
      StepValid(phases, w, place);
      PopIsReady(phases, w);
      var node := queue[|queue| - 1];
      queue := queue[..|queue| - 1];
      result := result + [node];
      degree, queue := RelaxAll(degree, queue, Entry(adj, node), place);
      assert Worklist(degree, queue, result) == Step(phases, w, place);
    }
  }

  /**
   * `topological_sort`. `keys` is the order in which the in-degree map is walked; the result is a
   * function of the phases alone, whatever that order.
   */
  method TopologicalSort(phases: seq<PhaseNode>, keys: seq<string>, place: Placement)
    returns (r: Result<seq<string>, ScheduleError>)
    requires ListsKeys(phases, keys)
    ensures IsSchedule(phases, place, r)
    ensures r.Ok? <==> DistinctNames(phases) && AllKnown(phases) && Acyclic(phases)
    ensures r.Ok? ==> multiset(r.value) == multiset(NameList(phases)) && Ordered(phases, r.value)
    ensures r.Err? ==> forall x :: x in r.error.stuck <==> x in Names(phases) && Blocked(phases, x)
  {
    var adj, degree := BuildGraph(phases);
    assert degree == Initial(phases, keys).degree;
    var queue := ReadyQueue(phases, degree, keys);
    InitialValid(phases, keys);
    IterationOrderIrrelevant(phases, keys);
    var result := DrainQueue(phases, adj, degree, queue, place);
    r := Classify(phases, result, place);
    ScheduleSucceedsIff(phases, place, r);
    if r.Err? { ScheduleFailureExact(phases, place, r); }
  }

  /** After the loop: compare lengths, and name and classify what is stuck. */
  method Classify(phases: seq<PhaseNode>, result: seq<string>, ghost place: Placement)
    returns (r: Result<seq<string>, ScheduleError>)
    requires result == Ordering(phases, place)
    ensures IsSchedule(phases, place, r)
  {
    if |result| == |phases| {
      return Ok(result);
    }
    var stuck := StuckNames(phases, result);
    if exists n :: n in stuck && FirstHasUnknown(phases, n) {
      r := Err(UnknownDependencies(stuck));
    } else {
      r := Err(CircularDependency(stuck));
    }
  }
}
