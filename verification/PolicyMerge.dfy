/**
 * One layer of policy composition: a child policy merged onto its resolved parent, and the
 * layer-by-layer composition of a whole `extends` chain.
 */
module PolicyMerge {
  import opened Common
  import opened PolicyAst

  datatype SourceId = Inline | Bundled(name: string) | File(path: string)

  function Label(id: SourceId): string {
    match id
    case Inline => "inline"
    case Bundled(name) => name
    case File(path) => path
  }

  datatype PhaseComposition =
    | Local
    | Inherited(source: string)
    | Extended(source: string, addedOperations: nat)
    | Overridden(source: string)

  datatype Resolved = Resolved(
    ast: Policy,
    sourceId: SourceId,
    extendsChain: seq<string>,
    phaseSources: map<string, PhaseComposition>)

  datatype ComposeError =
    | UnresolvedExtend(phase: string)
    | NoParentPhase(phase: string)
    | UnsupportedUri(uri: string)
    | FilesNotAllowed
    | UnresolvableFile(uri: string)
    | UnreadableFile(path: string)
    | UnknownBundled(name: string)
    | ParseFailed(id: SourceId)
    | CyclicExtends(chain: seq<string>)

  // ----- phases -----

  function Or<T>(a: Option<T>, b: Option<T>): Option<T> {
    if a.Some? then a else b
  }

  function ClearExtend(p: PhaseNode): PhaseNode {
    p.(extend := false)
  }

  function ExtendPhase(parent: PhaseNode, child: PhaseNode): PhaseNode {
    parent.(extend := false,
            skipWhen := Or(child.skipWhen, parent.skipWhen),
            dependsOn := Or(child.dependsOn, parent.dependsOn),
            runIf := Or(child.runIf, parent.runIf),
            onError := Or(child.onError, parent.onError),
            operations := parent.operations + child.operations)
  }

  function MergeMetadata(parent: Option<Metadata>, child: Option<Metadata>): Option<Metadata> {
    if parent.None? then child
    else if child.None? then parent
    else
      var p, c := parent.value, child.value;
      Some(Metadata(Or(c.version, p.version), Or(c.author, p.author), Or(c.description, p.description),
                    Or(c.requiresVoom, p.requiresVoom), Or(c.requiresTools, p.requiresTools),
                    Or(c.testFixtures, p.testFixtures), c.span))
  }

  function PhaseSourceLabel(c: PhaseComposition, parentId: SourceId): string {
    match c
    case Local => Label(parentId)
    case Inherited(source) => source
    case Extended(source, _) => source
    case Overridden(source) => source
  }

  /** The label that a merge onto `r` records as the origin of phase `name`. */
  function OriginLabel(r: Resolved, name: string): string {
    if name in r.phaseSources then PhaseSourceLabel(r.phaseSources[name], r.sourceId) else Label(r.sourceId)
  }

  // ----- the two merge loops as functions -----

  datatype MergeState = MergeState(
    phases: seq<PhaseNode>,
    sources: map<string, PhaseComposition>,
    consumed: seq<bool>)

  /** The first child phase from `i` on that is called `name` and was not consumed yet. */
  function FirstUnconsumed(child: seq<PhaseNode>, consumed: seq<bool>, name: string, i: nat): (r: Option<nat>)
    requires |consumed| == |child| && i <= |child|
    ensures r.Some? ==> i <= r.value < |child| && !consumed[r.value] && child[r.value].name == name
    ensures r.Some? ==> forall t :: i <= t < r.value ==> consumed[t] || child[t].name != name
    ensures r.None? ==> forall t :: i <= t < |child| ==> consumed[t] || child[t].name != name
    decreases |child| - i
  {
    if i == |child| then None
    else if !consumed[i] && child[i].name == name then Some(i)
    else FirstUnconsumed(child, consumed, name, i + 1)
  }

  function MergeParentPhase(st: MergeState, p: PhaseNode, origin: string, child: seq<PhaseNode>, childLabel: string)
    : (r: MergeState)
    requires |st.consumed| == |child|
    ensures |r.consumed| == |child|
  {
    match FirstUnconsumed(child, st.consumed, p.name, 0)
    case Some(index) =>
      var c := child[index];
      var consumed := st.consumed[index := true];
      if c.extend then
        MergeState(st.phases + [ExtendPhase(p, c)],
                   st.sources[p.name := Extended(origin, |c.operations|)], consumed)
      else
        MergeState(st.phases + [ClearExtend(c)], st.sources[p.name := Overridden(childLabel)], consumed)
    case None =>
      MergeState(st.phases + [ClearExtend(p)], st.sources[p.name := Inherited(origin)], st.consumed)
  }

  function MergeParents(parent: Resolved, child: seq<PhaseNode>, childLabel: string, n: nat): (r: MergeState)
    requires n <= |parent.ast.phases|
    ensures |r.consumed| == |child|
  {
    if n == 0 then MergeState([], map[], seq(|child|, _ => false))
    else
      var p := parent.ast.phases[n - 1];
      MergeParentPhase(MergeParents(parent, child, childLabel, n - 1), p, OriginLabel(parent, p.name), child,
                       childLabel)
  }

  function MergeChildPhase(st: MergeState, child: seq<PhaseNode>, i: nat): (r: Result<MergeState, ComposeError>)
    requires |st.consumed| == |child| && i < |child|
    ensures r.Ok? ==> r.value.consumed == st.consumed
  {
    if st.consumed[i] then Ok(st)
    else if child[i].extend then Err(NoParentPhase(child[i].name))
    else Ok(st.(phases := st.phases + [ClearExtend(child[i])], sources := st.sources[child[i].name := Local]))
  }

  function MergeRest(st: MergeState, child: seq<PhaseNode>, n: nat): (r: Result<MergeState, ComposeError>)
    requires |st.consumed| == |child| && n <= |child|
    ensures r.Ok? ==> r.value.consumed == st.consumed
  {
    if n == 0 then Ok(st)
    else
      match MergeRest(st, child, n - 1)
      case Err(e) => Err(e)
      case Ok(s) => MergeChildPhase(s, child, n - 1)
  }

  function Merge(parent: Resolved, child: Policy, id: SourceId): Result<Resolved, ComposeError> {
    var st := MergeParents(parent, child.phases, Label(id), |parent.ast.phases|);
    match MergeRest(st, child.phases, |child.phases|)
    case Err(e) => Err(e)
    case Ok(s) =>
      Ok(Resolved(
           Policy(child.name, None, MergeMetadata(parent.ast.metadata, child.metadata),
                  Or(child.config, parent.ast.config), s.phases, child.span),
           id, parent.extendsChain + [Label(parent.sourceId)], s.sources))
  }

  /** The first loop of `merge_policy`: every parent phase, extended, overridden or inherited. */
  method MergeParentLoop(parent: Resolved, childPhases: seq<PhaseNode>, childLabel: string, consumed: array<bool>)
    returns (phases: seq<PhaseNode>, sources: map<string, PhaseComposition>)
    requires consumed[..] == seq(|childPhases|, _ => false)
    modifies consumed
    ensures MergeState(phases, sources, consumed[..]) ==
            MergeParents(parent, childPhases, childLabel, |parent.ast.phases|)
  {
    phases, sources := [], map[];
    for i := 0 to |parent.ast.phases|
      invariant MergeState(phases, sources, consumed[..]) == MergeParents(parent, childPhases, childLabel, i)
    {
      var p := parent.ast.phases[i];
      var origin := OriginLabel(parent, p.name);
      ghost var before := consumed[..];
      match FirstUnconsumed(childPhases, consumed[..], p.name, 0) {
        case Some(index) =>
          consumed[index] := true;
          assert consumed[..] == before[index := true];
          var c := childPhases[index];
          if c.extend {
            phases := phases + [ExtendPhase(p, c)];
            sources := sources[p.name := Extended(origin, |c.operations|)];
          } else {
            phases := phases + [ClearExtend(c)];
            sources := sources[p.name := Overridden(childLabel)];
          }
        case None =>
          phases := phases + [ClearExtend(p)];
          sources := sources[p.name := Inherited(origin)];
      }
    }
  }

  /** The second loop of `merge_policy`: the child phases that no parent phase consumed. */
  method MergeChildLoop(ghost st: MergeState, childPhases: seq<PhaseNode>, consumed: seq<bool>,
                        phases0: seq<PhaseNode>, sources0: map<string, PhaseComposition>)
    returns (r: Result<(seq<PhaseNode>, map<string, PhaseComposition>), ComposeError>)
    requires st == MergeState(phases0, sources0, consumed) && |consumed| == |childPhases|
    ensures MergeRest(st, childPhases, |childPhases|) ==
            if r.Ok? then Ok(MergeState(r.value.0, r.value.1, consumed)) else Err(r.error)
  {
    var phases, sources := phases0, sources0;
    for i := 0 to |childPhases|
      invariant MergeRest(st, childPhases, i) == Ok(MergeState(phases, sources, consumed))
    {
      if consumed[i] {
        continue;
      }
      if childPhases[i].extend {
        MergeRestStops(st, childPhases, i + 1);
        return Err(NoParentPhase(childPhases[i].name));
      }
      phases := phases + [ClearExtend(childPhases[i])];
      sources := sources[childPhases[i].name := Local];
    }
    r := Ok((phases, sources));
  }

  method MergePolicy(parent: Resolved, child: Policy, id: SourceId) returns (r: Result<Resolved, ComposeError>)
    ensures r == Merge(parent, child, id)
  {
    var consumed := new bool[|child.phases|](_ => false);
    assert consumed[..] == seq(|child.phases|, _ => false);
    var phases, sources := MergeParentLoop(parent, child.phases, Label(id), consumed);
    var rest := MergeChildLoop(MergeState(phases, sources, consumed[..]), child.phases, consumed[..], phases, sources);
    if rest.Err? {
      return Err(rest.error);
    }
    var ast := Policy(child.name, None, MergeMetadata(parent.ast.metadata, child.metadata),
                      Or(child.config, parent.ast.config), rest.value.0, child.span);
    r := Ok(Resolved(ast, id, parent.extendsChain + [Label(parent.sourceId)], rest.value.1));
  }

  lemma {:induction false} MergeRestStops(st: MergeState, child: seq<PhaseNode>, n: nat)
    requires |st.consumed| == |child| && n <= |child| && MergeRest(st, child, n).Err?
    ensures MergeRest(st, child, |child|) == MergeRest(st, child, n)
    decreases |child| - n
  {
    if n < |child| { MergeRestStops(st, child, n + 1); }
  }

  // ----- a merge of policies with distinct phase names, name by name -----

  /** The phase called `n`; unique when names are distinct. */
  ghost function Lookup(phases: seq<PhaseNode>, n: string): (r: Option<PhaseNode>)
    ensures r.Some? <==> n in Names(phases)
    ensures r.Some? ==> r.value in phases && r.value.name == n
  {
    if n in Names(phases) then
      var p :| p in phases && p.name == n; Some(p)
    else None
  }

  lemma LookupAt(phases: seq<PhaseNode>, i: nat)
    requires DistinctNames(phases) && i < |phases|
    ensures Lookup(phases, phases[i].name) == Some(phases[i])
  {
    var n := phases[i].name;
    assert phases[i] in phases;
    var j :| 0 <= j < |phases| && phases[j] == Lookup(phases, n).value;
  }

  lemma NamesSnoc(phases: seq<PhaseNode>, i: nat)
    requires i < |phases|
    ensures Names(phases[..i + 1]) == Names(phases[..i]) + {phases[i].name}
  {
    assert phases[..i + 1] == phases[..i] + [phases[i]];
  }

  lemma NotYetNamed(phases: seq<PhaseNode>, i: nat)
    requires DistinctNames(phases) && i < |phases|
    ensures phases[i].name !in Names(phases[..i])
  {
  }

  /** What a child mention does to the parent's phase of the same name. */
  function Overlay(p: PhaseNode, c: Option<PhaseNode>): PhaseNode {
    match c
    case None => ClearExtend(p)
    case Some(c) => if c.extend then ExtendPhase(p, c) else ClearExtend(c)
  }

  function OverlaySource(origin: string, c: Option<PhaseNode>, childLabel: string): PhaseComposition {
    match c
    case None => Inherited(origin)
    case Some(c) => if c.extend then Extended(origin, |c.operations|) else Overridden(childLabel)
  }

  ghost predicate OverlaidTo(parent: seq<PhaseNode>, child: seq<PhaseNode>, n: nat, phases: seq<PhaseNode>)
    requires n <= |parent|
  {
    |phases| == n && forall j :: 0 <= j < n ==> phases[j] == Overlay(parent[j], Lookup(child, parent[j].name))
  }

  ghost predicate ConsumedTo(child: seq<PhaseNode>, names: set<string>, consumed: seq<bool>) {
    |consumed| == |child| && forall t :: 0 <= t < |child| ==> (consumed[t] <==> child[t].name in names)
  }

  ghost predicate SourcesTo(parent: Resolved, child: seq<PhaseNode>, childLabel: string, names: set<string>,
                            sources: map<string, PhaseComposition>)
  {
    && sources.Keys == names
    && forall x :: x in names ==> sources[x] == OverlaySource(OriginLabel(parent, x), Lookup(child, x), childLabel)
  }

  ghost predicate ParentsMerged(parent: Resolved, child: seq<PhaseNode>, childLabel: string, n: nat, st: MergeState)
    requires n <= |parent.ast.phases|
  {
    && OverlaidTo(parent.ast.phases, child, n, st.phases)
    && ConsumedTo(child, Names(parent.ast.phases[..n]), st.consumed)
    && SourcesTo(parent, child, childLabel, Names(parent.ast.phases[..n]), st.sources)
  }

  lemma FirstUnconsumedIsLookup(child: seq<PhaseNode>, consumed: seq<bool>, names: set<string>, name: string)
    requires DistinctNames(child) && ConsumedTo(child, names, consumed) && name !in names
    ensures var f := FirstUnconsumed(child, consumed, name, 0);
            if f.Some? then Lookup(child, name) == Some(child[f.value]) else Lookup(child, name).None?
  {
    var f := FirstUnconsumed(child, consumed, name, 0);
    if f.Some? { LookupAt(child, f.value); }
  }

  lemma ConsumeMatch(child: seq<PhaseNode>, consumed: seq<bool>, names: set<string>, name: string)
    requires DistinctNames(child) && ConsumedTo(child, names, consumed) && name !in names
    ensures var f := FirstUnconsumed(child, consumed, name, 0);
            ConsumedTo(child, names + {name}, if f.Some? then consumed[f.value := true] else consumed)
  {
    var f := FirstUnconsumed(child, consumed, name, 0);
  }

  lemma ParentStepExact(st: MergeState, p: PhaseNode, origin: string, child: seq<PhaseNode>, childLabel: string,
                        names: set<string>)
    requires DistinctNames(child) && ConsumedTo(child, names, st.consumed) && p.name !in names
    ensures var st' := MergeParentPhase(st, p, origin, child, childLabel);
            && st'.phases == st.phases + [Overlay(p, Lookup(child, p.name))]
            && st'.sources == st.sources[p.name := OverlaySource(origin, Lookup(child, p.name), childLabel)]
            && ConsumedTo(child, names + {p.name}, st'.consumed)
  {
    FirstUnconsumedIsLookup(child, st.consumed, names, p.name);
    ConsumeMatch(child, st.consumed, names, p.name);
  }

  lemma {:induction false} ParentLoopExact(parent: Resolved, child: seq<PhaseNode>, childLabel: string, n: nat)
    requires DistinctNames(parent.ast.phases) && DistinctNames(child) && n <= |parent.ast.phases|
    ensures ParentsMerged(parent, child, childLabel, n, MergeParents(parent, child, childLabel, n))
  {
    if n == 0 {
      assert Names(parent.ast.phases[..0]) == {};
    } else {
      ParentLoopExact(parent, child, childLabel, n - 1);
      ParentLoopStep(parent, child, childLabel, n - 1, MergeParents(parent, child, childLabel, n - 1));
    }
  }

  lemma ParentLoopStep(parent: Resolved, child: seq<PhaseNode>, childLabel: string, n: nat, st: MergeState)
    requires DistinctNames(parent.ast.phases) && DistinctNames(child) && n < |parent.ast.phases|
    requires ParentsMerged(parent, child, childLabel, n, st)
    ensures var p := parent.ast.phases[n];
            ParentsMerged(parent, child, childLabel, n + 1,
                          MergeParentPhase(st, p, OriginLabel(parent, p.name), child, childLabel))
  {
    var ps, p := parent.ast.phases, parent.ast.phases[n];
    NotYetNamed(ps, n);
    ParentStepExact(st, p, OriginLabel(parent, p.name), child, childLabel, Names(ps[..n]));
    ParentsMergedStep(parent, child, childLabel, n, st,
                      MergeParentPhase(st, p, OriginLabel(parent, p.name), child, childLabel));
  }

  lemma ParentsMergedStep(parent: Resolved, child: seq<PhaseNode>, childLabel: string, n: nat, st: MergeState,
                          st': MergeState)
    requires n < |parent.ast.phases| && ParentsMerged(parent, child, childLabel, n, st)
    requires var p := parent.ast.phases[n];
             && st'.phases == st.phases + [Overlay(p, Lookup(child, p.name))]
             && st'.sources == st.sources[p.name := OverlaySource(OriginLabel(parent, p.name), Lookup(child, p.name),
               childLabel)]
             && ConsumedTo(child, Names(parent.ast.phases[..n]) + {p.name}, st'.consumed)
    ensures ParentsMerged(parent, child, childLabel, n + 1, st')
  {
    NamesSnoc(parent.ast.phases, n);
    var x := parent.ast.phases[n].name;
    SourcesStep(parent, child, childLabel, Names(parent.ast.phases[..n]), st.sources, x);
  }

  lemma SourcesStep(parent: Resolved, child: seq<PhaseNode>, childLabel: string, names: set<string>,
                    sources: map<string, PhaseComposition>, x: string)
    requires SourcesTo(parent, child, childLabel, names, sources)
    ensures SourcesTo(parent, child, childLabel, names + {x},
                      sources[x := OverlaySource(OriginLabel(parent, x), Lookup(child, x), childLabel)])
  {
  }

  // ----- the rest of the child -----

  /** The phases of `child` whose names are not in `known`, in order. */
  function Fresh(child: seq<PhaseNode>, known: set<string>): seq<PhaseNode> {
    if child == [] then []
    else
      var c := child[|child| - 1];
      Fresh(child[..|child| - 1], known) + if c.name in known then [] else [c]
  }

  ghost predicate ExtendsKnown(child: seq<PhaseNode>, known: set<string>) {
    forall t :: 0 <= t < |child| && child[t].extend ==> child[t].name in known
  }

  ghost predicate LocalAdded(before: map<string, PhaseComposition>, added: set<string>,
                             after: map<string, PhaseComposition>) {
    && after.Keys == before.Keys + added
    && forall x :: x in after ==> after[x] == if x in added then Local else before[x]
  }

  ghost predicate RestMerged(st: MergeState, child: seq<PhaseNode>, known: set<string>,
                             r: Result<MergeState, ComposeError>) {
    && (r.Ok? <==> ExtendsKnown(child, known))
    && (r.Ok? ==> r.value.phases == st.phases + Cleared(Fresh(child, known)))
    && (r.Ok? ==> LocalAdded(st.sources, Names(child) - known, r.value.sources))
  }

  function Cleared(phases: seq<PhaseNode>): seq<PhaseNode> {
    seq(|phases|, i requires 0 <= i < |phases| => ClearExtend(phases[i]))
  }

  lemma FreshSnoc(child: seq<PhaseNode>, known: set<string>, c: PhaseNode)
    ensures Cleared(Fresh(child + [c], known)) ==
            Cleared(Fresh(child, known)) + if c.name in known then [] else [ClearExtend(c)]
    ensures Names(child + [c]) == Names(child) + {c.name}
  {
    assert (child + [c])[..|child|] == child;
    NamesSnoc(child + [c], |child|);
    assert (child + [c])[..|child| + 1] == child + [c];
  }

  lemma ExtendsKnownSnoc(child: seq<PhaseNode>, known: set<string>, c: PhaseNode)
    ensures ExtendsKnown(child + [c], known) <==> ExtendsKnown(child, known) && (c.extend ==> c.name in known)
  {
    var all := child + [c];
    assert all[|child|] == c;
    assert forall t :: 0 <= t < |child| ==> all[t] == child[t];
  }

  lemma LocalAddedStep(before: map<string, PhaseComposition>, added: set<string>,
                       after: map<string, PhaseComposition>, x: string)
    requires LocalAdded(before, added, after)
    ensures LocalAdded(before, added + {x}, after[x := Local])
  {
  }

  lemma RestSkips(st: MergeState, child: seq<PhaseNode>, known: set<string>, s: MergeState, c: PhaseNode)
    requires RestMerged(st, child, known, Ok(s)) && c.name in known
    ensures RestMerged(st, child + [c], known, Ok(s))
  {
    FreshSnoc(child, known, c);
    ExtendsKnownSnoc(child, known, c);
    assert Names(child + [c]) - known == Names(child) - known;
  }

  lemma RestRejects(st: MergeState, child: seq<PhaseNode>, known: set<string>, c: PhaseNode)
    requires c.name !in known && c.extend
    ensures RestMerged(st, child + [c], known, Err(NoParentPhase(c.name)))
  {
    ExtendsKnownSnoc(child, known, c);
  }

  lemma RestAdds(st: MergeState, child: seq<PhaseNode>, known: set<string>, s: MergeState, c: PhaseNode)
    requires RestMerged(st, child, known, Ok(s)) && c.name !in known && !c.extend
    ensures RestMerged(st, child + [c], known,
                       Ok(s.(phases := s.phases + [ClearExtend(c)], sources := s.sources[c.name := Local])))
  {
    FreshSnoc(child, known, c);
    ExtendsKnownSnoc(child, known, c);
    LocalAddedStep(st.sources, Names(child) - known, s.sources, c.name);
    assert Names(child + [c]) - known == Names(child) - known + {c.name};
  }

  lemma {:induction false} ChildLoopExact(st: MergeState, child: seq<PhaseNode>, known: set<string>, n: nat)
    requires ConsumedTo(child, known, st.consumed) && n <= |child|
    ensures RestMerged(st, child[..n], known, MergeRest(st, child, n))
  {
    if n > 0 {
      ChildLoopExact(st, child, known, n - 1);
      assert child[..n] == child[..n - 1] + [child[n - 1]];
      var before := MergeRest(st, child, n - 1);
      if before.Ok? {
        var c := child[n - 1];
        if c.name in known {
          RestSkips(st, child[..n - 1], known, before.value, c);
        } else if c.extend {
          RestRejects(st, child[..n - 1], known, c);
        } else {
          RestAdds(st, child[..n - 1], known, before.value, c);
        }
      } else {
        var t :| 0 <= t < n - 1 && child[..n - 1][t].extend && child[..n - 1][t].name !in known;
        assert child[..n][t] == child[..n - 1][t];
      }
    }
  }

  lemma {:induction false} FreshMembers(child: seq<PhaseNode>, known: set<string>)
    requires DistinctNames(child)
    ensures DistinctNames(Fresh(child, known))
    ensures forall p :: p in Fresh(child, known) <==> p in child && p.name !in known
  {
    if child != [] {
      var front, c := child[..|child| - 1], child[|child| - 1];
      assert child == front + [c];
      FreshMembers(front, known);
      forall p | p in Fresh(front, known) ensures p.name != c.name {
        var i :| 0 <= i < |front| && front[i] == p;
        assert child[i].name != child[|child| - 1].name;
      }
    }
  }

  /** What one merge does to the phase called `n`: the parent's and the child's mention combined. */
  ghost function Combined(p: Option<PhaseNode>, c: Option<PhaseNode>): Option<PhaseNode> {
    match p
    case None => if c.Some? then Some(ClearExtend(c.value)) else None
    case Some(p) => Some(Overlay(p, c))
  }

  /** The parent's order, then the new phases, each name treated on its own. */
  ghost predicate MergedPhases(parent: seq<PhaseNode>, child: seq<PhaseNode>, merged: seq<PhaseNode>) {
    && DistinctNames(merged)
    && NameList(merged) == NameList(parent) + NameList(Fresh(child, Names(parent)))
    && Names(merged) == Names(parent) + Names(child)
    && forall n :: Lookup(merged, n) == Combined(Lookup(parent, n), Lookup(child, n))
  }

  /** Where each merged phase came from. */
  ghost predicate MergedSources(parent: Resolved, child: seq<PhaseNode>, childLabel: string,
                                sources: map<string, PhaseComposition>) {
    && sources.Keys == Names(parent.ast.phases) + Names(child)
    && forall n :: n in sources ==>
         sources[n] == if n in Names(parent.ast.phases)
                       then OverlaySource(OriginLabel(parent, n), Lookup(child, n), childLabel)
                       else Local
  }

  lemma OverlaidNames(parent: seq<PhaseNode>, child: seq<PhaseNode>, phases: seq<PhaseNode>)
    requires OverlaidTo(parent, child, |parent|, phases)
    ensures NameList(phases) == NameList(parent) && Names(phases) == Names(parent)
    ensures DistinctNames(parent) ==> DistinctNames(phases)
  {
    forall j | 0 <= j < |parent| ensures phases[j].name == parent[j].name {
      assert phases[j] == Overlay(parent[j], Lookup(child, parent[j].name));
    }
    assert NameList(phases) == NameList(parent);
    forall x ensures x in Names(phases) <==> x in Names(parent) {
      if x in Names(phases) {
        var j :| 0 <= j < |phases| && phases[j].name == x;
        assert parent[j].name == x;
      }
      if x in Names(parent) {
        var j :| 0 <= j < |parent| && parent[j].name == x;
        assert phases[j].name == x;
      }
    }
  }

  lemma ClearedNames(phases: seq<PhaseNode>)
    ensures NameList(Cleared(phases)) == NameList(phases) && Names(Cleared(phases)) == Names(phases)
    ensures DistinctNames(phases) ==> DistinctNames(Cleared(phases))
  {
    forall x ensures x in Names(Cleared(phases)) <==> x in Names(phases) {
      if x in Names(phases) {
        var j :| 0 <= j < |phases| && phases[j].name == x;
        assert Cleared(phases)[j].name == x;
      }
    }
  }

  lemma AppendNames(a: seq<PhaseNode>, b: seq<PhaseNode>)
    ensures NameList(a + b) == NameList(a) + NameList(b)
    ensures Names(a + b) == Names(a) + Names(b)
    ensures DistinctNames(a) && DistinctNames(b) && Names(a) !! Names(b) ==> DistinctNames(a + b)
  {
    forall x | x in Names(a) + Names(b) ensures x in Names(a + b) {
      if x in Names(a) {
        var j :| 0 <= j < |a| && a[j].name == x;
        assert (a + b)[j].name == x;
      } else {
        var j :| 0 <= j < |b| && b[j].name == x;
        assert (a + b)[|a| + j].name == x;
      }
    }
    if DistinctNames(a) && DistinctNames(b) && Names(a) !! Names(b) {
      forall i, j | 0 <= i < j < |a + b| ensures (a + b)[i].name != (a + b)[j].name {
        if i < |a| <= j { assert a[i].name in Names(a) && b[j - |a|].name in Names(b); }
      }
    }
  }

  lemma FreshNames(child: seq<PhaseNode>, known: set<string>)
    requires DistinctNames(child)
    ensures Names(Fresh(child, known)) == Names(child) - known
  {
    FreshMembers(child, known);
    forall x ensures x in Names(Fresh(child, known)) <==> x in Names(child) - known {
      if x in Names(Fresh(child, known)) {
        var j :| 0 <= j < |Fresh(child, known)| && Fresh(child, known)[j].name == x;
        assert Fresh(child, known)[j] in child;
      }
      if x in Names(child) - known {
        var j :| 0 <= j < |child| && child[j].name == x;
        assert child[j] in Fresh(child, known);
      }
    }
  }

  lemma LookupInherited(parent: seq<PhaseNode>, child: seq<PhaseNode>, a: seq<PhaseNode>, added: seq<PhaseNode>,
                        n: string)
    requires DistinctNames(parent) && OverlaidTo(parent, child, |parent|, a) && DistinctNames(a + added)
    requires n in Names(parent)
    ensures Lookup(a + added, n) == Combined(Lookup(parent, n), Lookup(child, n))
  {
    var merged := a + added;
    var j :| 0 <= j < |parent| && parent[j].name == n;
    LookupAt(parent, j);
    assert merged[j] == a[j] == Overlay(parent[j], Lookup(child, n));
    LookupAt(merged, j);
  }

  lemma LookupAdded(a: seq<PhaseNode>, added: seq<PhaseNode>, c: PhaseNode)
    requires c in added && DistinctNames(a + Cleared(added))
    ensures Lookup(a + Cleared(added), c.name) == Some(ClearExtend(c))
  {
    var merged := a + Cleared(added);
    var t :| 0 <= t < |added| && added[t] == c;
    assert merged[|a| + t] == ClearExtend(c);
    LookupAt(merged, |a| + t);
  }

  lemma LookupMerged(parent: seq<PhaseNode>, child: seq<PhaseNode>, a: seq<PhaseNode>, n: string)
    requires DistinctNames(parent) && DistinctNames(child) && OverlaidTo(parent, child, |parent|, a)
    requires DistinctNames(a + Cleared(Fresh(child, Names(parent))))
    ensures Lookup(a + Cleared(Fresh(child, Names(parent))), n) == Combined(Lookup(parent, n), Lookup(child, n))
  {
    var added := Fresh(child, Names(parent));
    FreshMembers(child, Names(parent));
    if n in Names(parent) {
      LookupInherited(parent, child, a, Cleared(added), n);
    } else if n in Names(child) {
      LookupAdded(a, added, Lookup(child, n).value);
    } else {
      OverlaidNames(parent, child, a);
      FreshNames(child, Names(parent));
      ClearedNames(added);
      AppendNames(a, Cleared(added));
    }
  }

  lemma PhasesExact(parent: seq<PhaseNode>, child: seq<PhaseNode>, a: seq<PhaseNode>)
    requires DistinctNames(parent) && DistinctNames(child) && OverlaidTo(parent, child, |parent|, a)
    ensures MergedPhases(parent, child, a + Cleared(Fresh(child, Names(parent))))
  {
    var added := Fresh(child, Names(parent));
    var merged := a + Cleared(added);
    OverlaidNames(parent, child, a);
    FreshMembers(child, Names(parent));
    FreshNames(child, Names(parent));
    ClearedNames(added);
    AppendNames(a, Cleared(added));
    forall n ensures Lookup(merged, n) == Combined(Lookup(parent, n), Lookup(child, n)) {
      LookupMerged(parent, child, a, n);
    }
  }

  lemma SourcesExact(parent: Resolved, child: seq<PhaseNode>, childLabel: string,
                     before: map<string, PhaseComposition>, after: map<string, PhaseComposition>)
    requires SourcesTo(parent, child, childLabel, Names(parent.ast.phases), before)
    requires LocalAdded(before, Names(child) - Names(parent.ast.phases), after)
    ensures MergedSources(parent, child, childLabel, after)
  {
  }

  /**
   * One merge of policies with distinct names: it succeeds exactly when every extending phase has
   * a parent phase, and the result is the name-by-name combination.
   */
  lemma MergeExact(parent: Resolved, child: Policy, id: SourceId)
    requires DistinctNames(parent.ast.phases) && DistinctNames(child.phases)
    ensures Merge(parent, child, id).Ok? <==> ExtendsKnown(child.phases, Names(parent.ast.phases))
    ensures Merge(parent, child, id).Ok? ==>
              var r := Merge(parent, child, id).value;
              && MergedPhases(parent.ast.phases, child.phases, r.ast.phases)
              && MergedSources(parent, child.phases, Label(id), r.phaseSources)
  {
    var ps, cs := parent.ast.phases, child.phases;
    ParentLoopExact(parent, cs, Label(id), |ps|);
    assert ps[..|ps|] == ps && cs[..|cs|] == cs;
    var st := MergeParents(parent, cs, Label(id), |ps|);
    ChildLoopExact(st, cs, Names(ps), |cs|);
    var rest := MergeRest(st, cs, |cs|);
    if rest.Ok? {
      PhasesExact(ps, cs, st.phases);
      SourcesExact(parent, cs, Label(id), st.sources, rest.value.sources);
    }
  }

  // ----- whole chains -----

  datatype Layer = Layer(id: SourceId, ast: Policy)

  /** `reject_unresolved_phase_extends`: the first phase that extends where there is no parent. */
  function FirstExtend(phases: seq<PhaseNode>, i: nat): (r: Option<string>)
    requires i <= |phases|
    ensures r.None? <==> forall t :: i <= t < |phases| ==> !phases[t].extend
    ensures r.Some? ==> exists t :: i <= t < |phases| && phases[t].extend && phases[t].name == r.value &&
                                    forall u :: i <= u < t ==> !phases[u].extend
    decreases |phases| - i
  {
    if i == |phases| then None
    else if phases[i].extend then Some(phases[i].name)
    else FirstExtend(phases, i + 1)
  }

  function Root(layer: Layer): Result<Resolved, ComposeError> {
    match FirstExtend(layer.ast.phases, 0)
    case Some(name) => Err(UnresolvedExtend(name))
    case None => Ok(Resolved(layer.ast.(base := None), layer.id, [], map[]))
  }

  /** Layers root first: the root as it is, then one merge per descendant. */
  function Compose(chain: seq<Layer>): Result<Resolved, ComposeError>
    requires chain != []
  {
    var last := chain[|chain| - 1];
    if |chain| == 1 then Root(last)
    else
      match Compose(chain[..|chain| - 1])
      case Err(e) => Err(e)
      case Ok(parent) => Merge(parent, last.ast, last.id)
  }
}
