/**
 * What a composed `extends` chain means: a reading of the whole chain at once, phase by phase,
 * and the proof that layer-by-layer merging computes it.
 */
module PolicyFlattening {
  import opened Common
  import opened PolicyAst
  import opened PolicyMerge

  // ----- the declarative reading; `chain` is root first -----

  ghost function Mention(chain: seq<Layer>, j: nat, n: string): Option<PhaseNode>
    requires j < |chain|
  {
    Lookup(chain[j].ast.phases, n)
  }

  /** Layer `j` defines phase `n` afresh, without `extend`. */
  ghost predicate Defines(chain: seq<Layer>, j: nat, n: string)
    requires j < |chain|
  {
    Mention(chain, j, n).Some? && !Mention(chain, j, n).value.extend
  }

  /** Layer `k` is the most-derived layer that defines `n` afresh. */
  ghost predicate IsOrigin(chain: seq<Layer>, n: string, k: nat) {
    k < |chain| && Defines(chain, k, n) && forall j :: k < j < |chain| ==> !Defines(chain, j, n)
  }

  /** The operations of every mention of `n` from layer `k` on, base to derived. */
  ghost function OpsSince(chain: seq<Layer>, k: nat, n: string): seq<Operation> {
    if |chain| <= k then []
    else
      var m := Mention(chain, |chain| - 1, n);
      OpsSince(chain[..|chain| - 1], k, n) + if m.Some? then m.value.operations else []
  }

  ghost predicate Explicit<T>(chain: seq<Layer>, j: nat, n: string, get: PhaseNode -> Option<T>)
    requires j < |chain|
  {
    Mention(chain, j, n).Some? && get(Mention(chain, j, n).value).Some?
  }

  /** `v` is the field as given by the most-derived layer from `k` on that gives it explicitly. */
  ghost predicate MostDerived<T>(chain: seq<Layer>, k: nat, n: string, get: PhaseNode -> Option<T>, v: Option<T>) {
    match v
    case None => forall j :: k <= j < |chain| ==> !Explicit(chain, j, n, get)
    case Some(_) => exists j :: k <= j < |chain| && LastGiven(chain, j, n, get, v)
  }

  /** Layer `j` gives the field the value `v` and no later layer gives it. */
  ghost predicate LastGiven<T>(chain: seq<Layer>, j: nat, n: string, get: PhaseNode -> Option<T>, v: Option<T>)
    requires j < |chain|
  {
    && Explicit(chain, j, n, get)
    && get(Mention(chain, j, n).value) == v
    && forall i :: j < i < |chain| ==> !Explicit(chain, i, n, get)
  }

  ghost predicate IsFlat(chain: seq<Layer>, n: string, k: nat, p: PhaseNode) {
    && IsOrigin(chain, n, k)
    && p.name == n
    && !p.extend
    && p.span == Mention(chain, k, n).value.span
    && p.operations == OpsSince(chain, k, n)
    && MostDerived(chain, k, n, (q: PhaseNode) => q.skipWhen, p.skipWhen)
    && MostDerived(chain, k, n, (q: PhaseNode) => q.dependsOn, p.dependsOn)
    && MostDerived(chain, k, n, (q: PhaseNode) => q.runIf, p.runIf)
    && MostDerived(chain, k, n, (q: PhaseNode) => q.onError, p.onError)
  }

  ghost predicate AllDistinct(chain: seq<Layer>) {
    forall j :: 0 <= j < |chain| ==> DistinctNames(chain[j].ast.phases)
  }

  ghost function Mentioned(chain: seq<Layer>): set<string> {
    if chain == [] then {}
    else Mentioned(chain[..|chain| - 1]) + Names(chain[|chain| - 1].ast.phases)
  }

  /** The root's order, then each layer's new names in its own order. */
  ghost function NameOrder(chain: seq<Layer>): seq<string> {
    if chain == [] then []
    else
      var front := chain[..|chain| - 1];
      NameOrder(front) + NameList(Fresh(chain[|chain| - 1].ast.phases, Mentioned(front)))
  }

  /** Every extending phase is mentioned by an ancestor. */
  ghost predicate ExtendsResolvable(chain: seq<Layer>) {
    forall j :: 0 <= j < |chain| ==> ExtendsKnown(chain[j].ast.phases, Mentioned(chain[..j]))
  }

  function AncestorLabels(chain: seq<Layer>): seq<string>
    requires chain != []
  {
    seq(|chain| - 1, i requires 0 <= i < |chain| - 1 => Label(chain[i].id))
  }

  // ----- one layer -----

  lemma FrontMentions(chain: seq<Layer>, j: nat, n: string)
    requires j < |chain| - 1
    ensures Mention(chain[..|chain| - 1], j, n) == Mention(chain, j, n)
  {
  }

  lemma OriginKept(chain: seq<Layer>, n: string, k: nat)
    requires |chain| > 1 && IsOrigin(chain[..|chain| - 1], n, k) && !Defines(chain, |chain| - 1, n)
    ensures IsOrigin(chain, n, k)
  {
    var front := chain[..|chain| - 1];
    forall j | 0 <= j < |front| ensures Defines(chain, j, n) <==> Defines(front, j, n) { FrontMentions(chain, j, n); }
  }

  lemma ExplicitFront<T>(chain: seq<Layer>, n: string, get: PhaseNode -> Option<T>)
    requires |chain| > 1
    ensures forall j :: 0 <= j < |chain| - 1 ==>
              (Explicit(chain, j, n, get) <==> Explicit(chain[..|chain| - 1], j, n, get))
  {
    forall j | 0 <= j < |chain| - 1
      ensures Explicit(chain, j, n, get) <==> Explicit(chain[..|chain| - 1], j, n, get)
    {
      FrontMentions(chain, j, n);
    }
  }

  lemma LastGivenKept<T>(chain: seq<Layer>, j: nat, n: string, get: PhaseNode -> Option<T>, v: Option<T>)
    requires j < |chain| - 1 && LastGiven(chain[..|chain| - 1], j, n, get, v)
    requires !Explicit(chain, |chain| - 1, n, get)
    ensures LastGiven(chain, j, n, get, v)
  {
    ExplicitFront(chain, n, get);
    FrontMentions(chain, j, n);
  }

  lemma MostDerivedKept<T>(chain: seq<Layer>, k: nat, n: string, get: PhaseNode -> Option<T>, v: Option<T>)
    requires |chain| > 1 && k < |chain| - 1 && MostDerived(chain[..|chain| - 1], k, n, get, v)
    ensures var m := Mention(chain, |chain| - 1, n);
            MostDerived(chain, k, n, get, if m.Some? then Or(get(m.value), v) else v)
  {
    var front, last := chain[..|chain| - 1], |chain| - 1;
    if Explicit(chain, last, n, get) {
      assert LastGiven(chain, last, n, get, get(Mention(chain, last, n).value));
    } else if v.Some? {
      var j :| k <= j < |front| && LastGiven(front, j, n, get, v);
      LastGivenKept(chain, j, n, get, v);
    } else {
      ExplicitFront(chain, n, get);
    }
  }

  lemma MostDerivedStart<T>(chain: seq<Layer>, n: string, get: PhaseNode -> Option<T>)
    requires chain != [] && Mention(chain, |chain| - 1, n).Some?
    ensures MostDerived(chain, |chain| - 1, n, get, get(Mention(chain, |chain| - 1, n).value))
  {
    var last := |chain| - 1;
    if Explicit(chain, last, n, get) {
      assert LastGiven(chain, last, n, get, get(Mention(chain, last, n).value));
    }
  }

  lemma {:induction false} OpsBefore(chain: seq<Layer>, k: nat, n: string)
    requires |chain| <= k
    ensures OpsSince(chain, k, n) == []
  {
  }

  /** A layer that does not define `n` afresh keeps its origin and overlays its mention. */
  lemma FlatKept(chain: seq<Layer>, n: string, k: nat, p: PhaseNode)
    requires |chain| > 1 && IsFlat(chain[..|chain| - 1], n, k, p) && !Defines(chain, |chain| - 1, n)
    ensures IsFlat(chain, n, k, Overlay(p, Mention(chain, |chain| - 1, n)))
  {
    OriginKept(chain, n, k);
    FrontMentions(chain, k, n);
    MostDerivedKept(chain, k, n, (q: PhaseNode) => q.skipWhen, p.skipWhen);
    MostDerivedKept(chain, k, n, (q: PhaseNode) => q.dependsOn, p.dependsOn);
    MostDerivedKept(chain, k, n, (q: PhaseNode) => q.runIf, p.runIf);
    MostDerivedKept(chain, k, n, (q: PhaseNode) => q.onError, p.onError);
  }

  /** A layer that defines `n` afresh is its origin. */
  lemma FlatStart(chain: seq<Layer>, n: string)
    requires chain != [] && Defines(chain, |chain| - 1, n)
    ensures IsFlat(chain, n, |chain| - 1, ClearExtend(Mention(chain, |chain| - 1, n).value))
  {
    OpsBefore(chain[..|chain| - 1], |chain| - 1, n);
    MostDerivedStart(chain, n, (q: PhaseNode) => q.skipWhen);
    MostDerivedStart(chain, n, (q: PhaseNode) => q.dependsOn);
    MostDerivedStart(chain, n, (q: PhaseNode) => q.runIf);
    MostDerivedStart(chain, n, (q: PhaseNode) => q.onError);
  }

  // ----- the chain -----

  ghost predicate ComposedShape(chain: seq<Layer>, r: Resolved)
    requires chain != []
  {
    && DistinctNames(r.ast.phases)
    && Names(r.ast.phases) == Mentioned(chain)
    && NameList(r.ast.phases) == NameOrder(chain)
  }

  lemma RootShape(layer: Layer)
    requires DistinctNames(layer.ast.phases)
    ensures Root(layer).Ok? <==> ExtendsResolvable([layer])
    ensures Root(layer).Ok? ==> ComposedShape([layer], Root(layer).value)
  {
    var chain := [layer];
    assert chain[..0] == [];
    if Root(layer).Ok? {
      FreshOfNone(layer.ast.phases);
    } else {
      var t :| 0 <= t < |layer.ast.phases| && layer.ast.phases[t].extend;
      assert !ExtendsKnown(chain[0].ast.phases, Mentioned(chain[..0]));
    }
  }

  lemma {:induction false} FreshOfNone(phases: seq<PhaseNode>)
    ensures Fresh(phases, {}) == phases
  {
    if phases != [] {
      FreshOfNone(phases[..|phases| - 1]);
      assert phases == phases[..|phases| - 1] + [phases[|phases| - 1]];
    }
  }

  lemma ResolvableFront(chain: seq<Layer>)
    requires |chain| > 1
    ensures ExtendsResolvable(chain) <==>
            && ExtendsResolvable(chain[..|chain| - 1])
            && ExtendsKnown(chain[|chain| - 1].ast.phases, Mentioned(chain[..|chain| - 1]))
  {
    var front := chain[..|chain| - 1];
    forall j | 0 <= j < |front| ensures front[..j] == chain[..j] && front[j] == chain[j] {}
    if ExtendsResolvable(chain) {
      forall j | 0 <= j < |front| ensures ExtendsKnown(front[j].ast.phases, Mentioned(front[..j])) {
        assert ExtendsKnown(chain[j].ast.phases, Mentioned(chain[..j]));
      }
    }
    if ExtendsResolvable(front) && ExtendsKnown(chain[|chain| - 1].ast.phases, Mentioned(front)) {
      forall j | 0 <= j < |chain| ensures ExtendsKnown(chain[j].ast.phases, Mentioned(chain[..j])) {
        if j < |front| { assert ExtendsKnown(front[j].ast.phases, Mentioned(front[..j])); }
      }
    }
  }

  lemma ShapeStep(chain: seq<Layer>, parent: Resolved)
    requires |chain| > 1 && AllDistinct(chain) && ComposedShape(chain[..|chain| - 1], parent)
    ensures var r := Merge(parent, chain[|chain| - 1].ast, chain[|chain| - 1].id);
            && (r.Ok? <==> ExtendsKnown(chain[|chain| - 1].ast.phases, Mentioned(chain[..|chain| - 1])))
            && (r.Ok? ==> ComposedShape(chain, r.value))
  {
    var front, last := chain[..|chain| - 1], chain[|chain| - 1];
    MergeExact(parent, last.ast, last.id);
  }

  /**
   * For every chain of policies with distinct phase names: composition succeeds exactly when each
   * extending phase is mentioned by an ancestor; the result lists every mentioned name once,
   * ancestors' order first.
   */
  lemma {:induction false} ComposeShape(chain: seq<Layer>)
    requires chain != [] && AllDistinct(chain)
    ensures Compose(chain).Ok? <==> ExtendsResolvable(chain)
    ensures Compose(chain).Ok? ==> ComposedShape(chain, Compose(chain).value)
    decreases |chain|
  {
    var last := chain[|chain| - 1];
    if |chain| == 1 {
      assert chain == [last];
      RootShape(last);
    } else {
      var front := chain[..|chain| - 1];
      ComposeShape(front);
      ResolvableFront(chain);
      if Compose(front).Ok? { ShapeStep(chain, Compose(front).value); }
    }
  }

  /** What the last layer of `chain` makes of `parent`. */
  ghost predicate MergesOnto(chain: seq<Layer>, parent: Resolved) {
    |chain| > 1 && DistinctNames(parent.ast.phases) && DistinctNames(chain[|chain| - 1].ast.phases) &&
    Merge(parent, chain[|chain| - 1].ast, chain[|chain| - 1].id).Ok?
  }

  lemma FlattenDefined(chain: seq<Layer>, parent: Resolved, n: string)
    requires MergesOnto(chain, parent) && Defines(chain, |chain| - 1, n)
    ensures var last := chain[|chain| - 1]; var r := Merge(parent, last.ast, last.id).value;
            && n in Names(r.ast.phases)
            && IsFlat(chain, n, |chain| - 1, Lookup(r.ast.phases, n).value) && OriginLabel(r, n) == Label(last.id)
  {
    var last := chain[|chain| - 1];
    MergeExact(parent, last.ast, last.id);
    FlatStart(chain, n);
  }

  lemma FlattenInherits(chain: seq<Layer>, parent: Resolved, n: string)
    requires MergesOnto(chain, parent) && !Defines(chain, |chain| - 1, n)
    requires n in Names(Merge(parent, chain[|chain| - 1].ast, chain[|chain| - 1].id).value.ast.phases)
    ensures n in Names(parent.ast.phases)
  {
    MergeExact(parent, chain[|chain| - 1].ast, chain[|chain| - 1].id);
    UndefinedIsInherited(chain, parent, n);
  }

  lemma FlattenKept(chain: seq<Layer>, parent: Resolved, n: string, k: nat)
    requires MergesOnto(chain, parent) && !Defines(chain, |chain| - 1, n) && n in Names(parent.ast.phases)
    requires parent.sourceId == chain[|chain| - 2].id
    requires IsFlat(chain[..|chain| - 1], n, k, Lookup(parent.ast.phases, n).value)
    requires OriginLabel(parent, n) == Label(chain[k].id)
    ensures var last := chain[|chain| - 1]; var r := Merge(parent, last.ast, last.id).value;
            && n in Names(r.ast.phases)
            && IsFlat(chain, n, k, Lookup(r.ast.phases, n).value) && OriginLabel(r, n) == Label(chain[k].id)
  {
    MergeExact(parent, chain[|chain| - 1].ast, chain[|chain| - 1].id);
    FlatKept(chain, n, k, Lookup(parent.ast.phases, n).value);
  }

  /**
   * The flattening theorem: every phase of the composed policy has its operations from its
   * most-derived plain definition followed by every later extension, each guard from the
   * most-derived layer since then that gives it, and an origin label that names that definition.
   */
  lemma {:induction false} ComposeIsFlattening(chain: seq<Layer>, n: string) returns (k: nat)
    requires chain != [] && AllDistinct(chain) && Compose(chain).Ok?
    requires n in Names(Compose(chain).value.ast.phases)
    ensures IsFlat(chain, n, k, Lookup(Compose(chain).value.ast.phases, n).value)
    ensures OriginLabel(Compose(chain).value, n) == Label(chain[k].id)
    decreases |chain|
  {
    var last := |chain| - 1;
    var r := Compose(chain).value;
    if |chain| == 1 {
      k := 0;
      RootFlat(chain, n);
    } else {
      var front := chain[..last];
      ComposeShape(front);
      ComposeShape(chain);
      ComposedIsCompilable(front);
      if Defines(chain, last, n) {
        k := last;
        FlattenDefined(chain, Compose(front).value, n);
      } else {
        FlattenInherits(chain, Compose(front).value, n);
        k := ComposeIsFlattening(front, n);
        FlattenKept(chain, Compose(front).value, n, k);
      }
    }
  }

  lemma RootFlat(chain: seq<Layer>, n: string)
    requires |chain| == 1 && Root(chain[0]).Ok? && n in Names(chain[0].ast.phases)
    ensures IsFlat(chain, n, 0, Lookup(chain[0].ast.phases, n).value)
  {
    var p := Lookup(chain[0].ast.phases, n).value;
    assert !p.extend;
    FlatStart(chain, n);
    assert ClearExtend(p) == p;
  }

  lemma UndefinedIsInherited(chain: seq<Layer>, parent: Resolved, n: string)
    requires |chain| > 1 && !Defines(chain, |chain| - 1, n)
    requires ExtendsKnown(chain[|chain| - 1].ast.phases, Names(parent.ast.phases))
    requires n in Names(parent.ast.phases) + Names(chain[|chain| - 1].ast.phases)
    ensures n in Names(parent.ast.phases)
  {
    var m := Mention(chain, |chain| - 1, n);
    if m.Some? {
      assert m.value.extend;
    }
  }

  // ----- metadata and config -----

  /** `v` is what the most-derived layer that gives it says. */
  ghost predicate LatestLayer<T>(chain: seq<Layer>, get: Layer -> Option<T>, v: Option<T>) {
    match v
    case None => forall j :: 0 <= j < |chain| ==> get(chain[j]).None?
    case Some(_) => exists j :: 0 <= j < |chain| && LastLayerGiving(chain, j, get, v)
  }

  ghost predicate LastLayerGiving<T>(chain: seq<Layer>, j: nat, get: Layer -> Option<T>, v: Option<T>)
    requires j < |chain|
  {
    get(chain[j]) == v && v.Some? && forall i :: j < i < |chain| ==> get(chain[i]).None?
  }

  function Field<T>(layer: Layer, get: Metadata -> Option<T>): Option<T> {
    if layer.ast.metadata.Some? then get(layer.ast.metadata.value) else None
  }

  function FieldOf<T>(m: Option<Metadata>, get: Metadata -> Option<T>): Option<T> {
    if m.Some? then get(m.value) else None
  }

  lemma LatestLayerStep<T>(chain: seq<Layer>, get: Layer -> Option<T>, v: Option<T>)
    requires |chain| > 1 && LatestLayer(chain[..|chain| - 1], get, v)
    ensures LatestLayer(chain, get, Or(get(chain[|chain| - 1]), v))
  {
    var front, last := chain[..|chain| - 1], |chain| - 1;
    if get(chain[last]).Some? {
      assert LastLayerGiving(chain, last, get, get(chain[last]));
    } else if v.Some? {
      var j :| 0 <= j < |front| && LastLayerGiving(front, j, get, v);
      assert forall i :: 0 <= i < last ==> front[i] == chain[i];
      assert LastLayerGiving(chain, j, get, v);
    } else {
      assert forall i :: 0 <= i < last ==> front[i] == chain[i];
    }
  }

  lemma LatestLayerStart<T>(chain: seq<Layer>, get: Layer -> Option<T>)
    requires |chain| == 1
    ensures LatestLayer(chain, get, get(chain[0]))
  {
    if get(chain[0]).Some? {
      assert LastLayerGiving(chain, 0, get, get(chain[0]));
    }
  }

  lemma ComposeSplits(chain: seq<Layer>)
    requires |chain| > 1 && Compose(chain).Ok?
    ensures var front, last := chain[..|chain| - 1], chain[|chain| - 1];
            && Compose(front).Ok?
            && Compose(chain).value.ast.config == Or(last.ast.config, Compose(front).value.ast.config)
            && Compose(chain).value.ast.metadata == MergeMetadata(Compose(front).value.ast.metadata, last.ast.metadata)
  {
  }

  /** The composed config is the whole config block of the most-derived layer that has one. */
  lemma {:induction false} ConfigIsLatest(chain: seq<Layer>)
    requires chain != [] && Compose(chain).Ok?
    ensures LatestLayer(chain, (l: Layer) => l.ast.config, Compose(chain).value.ast.config)
    decreases |chain|
  {
    if |chain| == 1 {
      LatestLayerStart(chain, (l: Layer) => l.ast.config);
    } else {
      ComposeSplits(chain);
      ConfigIsLatest(chain[..|chain| - 1]);
      LatestLayerStep(chain, (l: Layer) => l.ast.config, Compose(chain[..|chain| - 1]).value.ast.config);
    }
  }

  /** A field selector that metadata merging treats as "the child's, or else the parent's". */
  ghost predicate MergedField<T(!new)>(get: Metadata -> Option<T>) {
    forall p, c :: MergedAt(p, c, get)
  }

  lemma {:induction false} MetadataFieldIsLatest<T(!new)>(chain: seq<Layer>, get: Metadata -> Option<T>)
    requires chain != [] && Compose(chain).Ok? && MergedField(get)
    ensures FieldIsLatest(chain, get)
    decreases |chain|
  {
    if |chain| == 1 {
      LatestLayerStart(chain, (l: Layer) => Field(l, get));
    } else {
      var front := chain[..|chain| - 1];
      ComposeSplits(chain);
      MetadataFieldIsLatest(front, get);
      assert MergedAt(Compose(front).value.ast.metadata, chain[|chain| - 1].ast.metadata, get);
      LatestLayerStep(chain, (l: Layer) => Field(l, get), FieldOf(Compose(front).value.ast.metadata, get));
    }
  }

  /** The composed value of one metadata field is that of the most-derived layer that gives it. */
  ghost predicate FieldIsLatest<T>(chain: seq<Layer>, get: Metadata -> Option<T>)
    requires chain != [] && Compose(chain).Ok?
  {
    LatestLayer(chain, (l: Layer) => Field(l, get), FieldOf(Compose(chain).value.ast.metadata, get))
  }

  ghost predicate MergedAt<T>(p: Option<Metadata>, c: Option<Metadata>, get: Metadata -> Option<T>) {
    FieldOf(MergeMetadata(p, c), get) == Or(FieldOf(c, get), FieldOf(p, get))
  }

  lemma FieldsMergeAt(p: Option<Metadata>, c: Option<Metadata>)
    ensures MergedAt(p, c, (d: Metadata) => d.version) && MergedAt(p, c, (d: Metadata) => d.author)
    ensures MergedAt(p, c, (d: Metadata) => d.description) && MergedAt(p, c, (d: Metadata) => d.requiresVoom)
    ensures MergedAt(p, c, (d: Metadata) => d.requiresTools) && MergedAt(p, c, (d: Metadata) => d.testFixtures)
  {
  }

  lemma FieldsMerge()
    ensures MergedField((d: Metadata) => d.version) && MergedField((d: Metadata) => d.author)
    ensures MergedField((d: Metadata) => d.description) && MergedField((d: Metadata) => d.requiresVoom)
    ensures MergedField((d: Metadata) => d.requiresTools) && MergedField((d: Metadata) => d.testFixtures)
  {
    var version, author, description := (d: Metadata) => d.version, (d: Metadata) => d.author,
      (d: Metadata) => d.description;
    var voom, tools, fixtures := (d: Metadata) => d.requiresVoom, (d: Metadata) => d.requiresTools,
      (d: Metadata) => d.testFixtures;
    forall p, c
      ensures MergedAt(p, c, version) && MergedAt(p, c, author) && MergedAt(p, c, description)
      ensures MergedAt(p, c, voom) && MergedAt(p, c, tools) && MergedAt(p, c, fixtures)
    {
      FieldsMergeAt(p, c);
    }
    assert MergedField(version) && MergedField(author) && MergedField(description);
    assert MergedField(voom) && MergedField(tools) && MergedField(fixtures);
  }

  /** Metadata is inherited field by field; an explicit empty list counts as given. */
  lemma {:induction false} MetadataIsLatest(chain: seq<Layer>)
    requires chain != [] && Compose(chain).Ok?
    ensures FieldIsLatest(chain, (d: Metadata) => d.version) && FieldIsLatest(chain, (d: Metadata) => d.author)
    ensures FieldIsLatest(chain, (d: Metadata) => d.description) &&
            FieldIsLatest(chain, (d: Metadata) => d.requiresVoom)
    ensures FieldIsLatest(chain, (d: Metadata) => d.requiresTools) &&
            FieldIsLatest(chain, (d: Metadata) => d.testFixtures)
  {
    FieldsMerge();
    MetadataFieldIsLatest(chain, (d: Metadata) => d.version);
    MetadataFieldIsLatest(chain, (d: Metadata) => d.author);
    MetadataFieldIsLatest(chain, (d: Metadata) => d.description);
    MetadataFieldIsLatest(chain, (d: Metadata) => d.requiresVoom);
    MetadataFieldIsLatest(chain, (d: Metadata) => d.requiresTools);
    MetadataFieldIsLatest(chain, (d: Metadata) => d.testFixtures);
  }

  // ----- duplicate names -----

  /** How many of the first `i` phases are called `n`. */
  function CountTo(phases: seq<PhaseNode>, i: nat, n: string): nat
    requires i <= |phases|
  {
    if i == 0 then 0 else CountTo(phases, i - 1, n) + if phases[i - 1].name == n then 1 else 0
  }

  function CountName(phases: seq<PhaseNode>, n: string): nat {
    CountTo(phases, |phases|, n)
  }

  /** How many of the first `i` child phases called `n` have the given consumed flag. */
  function FlaggedTo(child: seq<PhaseNode>, consumed: seq<bool>, flag: bool, i: nat, n: string): nat
    requires |consumed| == |child| && i <= |child|
  {
    if i == 0 then 0
    else FlaggedTo(child, consumed, flag, i - 1, n) + if consumed[i - 1] == flag && child[i - 1].name == n then 1 else 0
  }

  function Max(a: nat, b: nat): nat {
    if a > b then a else b
  }

  function Min(a: nat, b: nat): nat {
    if a < b then a else b
  }

  lemma {:induction false} CountPrefix(a: seq<PhaseNode>, b: seq<PhaseNode>, i: nat, n: string)
    requires i <= |a| && i <= |b| && forall t :: 0 <= t < i ==> a[t] == b[t]
    ensures CountTo(a, i, n) == CountTo(b, i, n)
  {
    if i > 0 { CountPrefix(a, b, i - 1, n); }
  }

  lemma CountAppend(a: seq<PhaseNode>, p: PhaseNode, n: string)
    ensures CountName(a + [p], n) == CountName(a, n) + if p.name == n then 1 else 0
  {
    CountPrefix(a + [p], a, |a|, n);
  }

  lemma {:induction false} CountPositive(phases: seq<PhaseNode>, i: nat, n: string)
    requires i <= |phases|
    ensures CountTo(phases, i, n) > 0 <==> exists t :: 0 <= t < i && phases[t].name == n
  {
    if i > 0 { CountPositive(phases, i - 1, n); }
  }

  ghost predicate DistinctTo(phases: seq<PhaseNode>, i: nat)
    requires i <= |phases|
  {
    forall s, t :: 0 <= s < t < i ==> phases[s].name != phases[t].name
  }

  lemma {:induction false} DistinctIffCount(phases: seq<PhaseNode>, i: nat)
    requires i <= |phases|
    ensures DistinctTo(phases, i) <==> forall n :: CountTo(phases, i, n) <= 1
  {
    if i > 0 {
      var x := phases[i - 1].name;
      DistinctIffCount(phases, i - 1);
      CountPositive(phases, i - 1, x);
      if DistinctTo(phases, i) {
        forall n ensures CountTo(phases, i, n) <= 1 {
          assert CountTo(phases, i - 1, n) <= 1;
        }
      } else if !DistinctTo(phases, i - 1) {
        var n :| CountTo(phases, i - 1, n) > 1;
        assert CountTo(phases, i, n) > 1;
      } else {
        assert CountTo(phases, i, x) > 1;
      }
    }
  }

  lemma {:induction false} FlagsPartition(child: seq<PhaseNode>, consumed: seq<bool>, i: nat, n: string)
    requires |consumed| == |child| && i <= |child|
    ensures FlaggedTo(child, consumed, true, i, n) + FlaggedTo(child, consumed, false, i, n) == CountTo(child, i, n)
  {
    if i > 0 { FlagsPartition(child, consumed, i - 1, n); }
  }

  lemma {:induction false} ConsumeOne(child: seq<PhaseNode>, consumed: seq<bool>, j: nat, i: nat, n: string)
    requires |consumed| == |child| && j < |child| && !consumed[j] && i <= |child|
    ensures FlaggedTo(child, consumed[j := true], true, i, n) ==
            FlaggedTo(child, consumed, true, i, n) + if j < i && child[j].name == n then 1 else 0
  {
    if i > 0 { ConsumeOne(child, consumed, j, i - 1, n); }
  }

  lemma {:induction false} LeftOver(child: seq<PhaseNode>, consumed: seq<bool>, i: nat, n: string)
    requires |consumed| == |child| && i <= |child|
    ensures FlaggedTo(child, consumed, false, i, n) > 0 <==>
            exists t :: 0 <= t < i && !consumed[t] && child[t].name == n
  {
    if i > 0 { LeftOver(child, consumed, i - 1, n); }
  }

  lemma {:induction false} NoneConsumed(child: seq<PhaseNode>, consumed: seq<bool>, i: nat, n: string)
    requires |consumed| == |child| && i <= |child| && forall t :: 0 <= t < |child| ==> !consumed[t]
    ensures FlaggedTo(child, consumed, true, i, n) == 0
  {
    if i > 0 { NoneConsumed(child, consumed, i - 1, n); }
  }

  lemma ParentStepCount(st: MergeState, p: PhaseNode, origin: string, child: seq<PhaseNode>, childLabel: string,
                        n: string, seen: nat)
    requires |st.consumed| == |child|
    requires FlaggedTo(child, st.consumed, true, |child|, n) == Min(seen, CountName(child, n))
    ensures var st' := MergeParentPhase(st, p, origin, child, childLabel);
            && CountName(st'.phases, n) == CountName(st.phases, n) + (if p.name == n then 1 else 0)
            && FlaggedTo(child, st'.consumed, true, |child|, n) ==
               Min(seen + (if p.name == n then 1 else 0), CountName(child, n))
  {
    var st' := MergeParentPhase(st, p, origin, child, childLabel);
    CountAppend(st.phases, st'.phases[|st.phases|], n);
    FlagsPartition(child, st.consumed, |child|, n);
    LeftOver(child, st.consumed, |child|, n);
    var f := FirstUnconsumed(child, st.consumed, p.name, 0);
    if f.Some? { ConsumeOne(child, st.consumed, f.value, |child|, n); }
  }

  lemma {:induction false} ParentLoopCount(parent: Resolved, child: seq<PhaseNode>, childLabel: string, i: nat,
                                           n: string)
    requires i <= |parent.ast.phases|
    ensures var st := MergeParents(parent, child, childLabel, i);
            && CountName(st.phases, n) == CountTo(parent.ast.phases, i, n)
            && FlaggedTo(child, st.consumed, true, |child|, n) ==
               Min(CountTo(parent.ast.phases, i, n), CountName(child, n))
  {
    if i == 0 {
      NoneConsumed(child, MergeParents(parent, child, childLabel, 0).consumed, |child|, n);
    } else {
      var p := parent.ast.phases[i - 1];
      ParentLoopCount(parent, child, childLabel, i - 1, n);
      ParentStepCount(MergeParents(parent, child, childLabel, i - 1), p, OriginLabel(parent, p.name), child, childLabel,
                      n, CountTo(parent.ast.phases, i - 1, n));
    }
  }

  lemma {:induction false} ChildLoopCount(st: MergeState, child: seq<PhaseNode>, i: nat, n: string)
    requires |st.consumed| == |child| && i <= |child| && MergeRest(st, child, i).Ok?
    ensures CountName(MergeRest(st, child, i).value.phases, n) ==
            CountName(st.phases, n) + FlaggedTo(child, st.consumed, false, i, n)
  {
    if i > 0 {
      ChildLoopCount(st, child, i - 1, n);
      CountAppend(MergeRest(st, child, i - 1).value.phases, ClearExtend(child[i - 1]), n);
    }
  }

  /** A merge keeps as many phases of a name as the richer of the two policies has. */
  lemma MergeCounts(parent: Resolved, child: Policy, id: SourceId, n: string)
    requires Merge(parent, child, id).Ok?
    ensures CountName(Merge(parent, child, id).value.ast.phases, n) ==
            Max(CountName(parent.ast.phases, n), CountName(child.phases, n))
  {
    var ps, cs := parent.ast.phases, child.phases;
    var st := MergeParents(parent, cs, Label(id), |ps|);
    ParentLoopCount(parent, cs, Label(id), |ps|, n);
    ChildLoopCount(st, cs, |cs|, n);
    FlagsPartition(cs, st.consumed, |cs|, n);
  }

  lemma MergeDistinctIff(parent: Resolved, child: Policy, id: SourceId)
    requires Merge(parent, child, id).Ok?
    ensures DistinctNames(Merge(parent, child, id).value.ast.phases) <==>
            DistinctNames(parent.ast.phases) && DistinctNames(child.phases)
  {
    var merged, ps, cs := Merge(parent, child, id).value.ast.phases, parent.ast.phases, child.phases;
    DistinctIffCount(merged, |merged|);
    DistinctIffCount(ps, |ps|);
    DistinctIffCount(cs, |cs|);
    forall n ensures CountTo(merged, |merged|, n) == Max(CountTo(ps, |ps|, n), CountTo(cs, |cs|, n)) {
      MergeCounts(parent, child, id, n);
    }
    if DistinctTo(merged, |merged|) {
      forall n ensures CountTo(ps, |ps|, n) <= 1 && CountTo(cs, |cs|, n) <= 1 {
        assert CountTo(merged, |merged|, n) <= 1;
      }
    } else {
      var n :| CountTo(merged, |merged|, n) > 1;
      assert CountTo(ps, |ps|, n) > 1 || CountTo(cs, |cs|, n) > 1;
    }
  }

  lemma AllDistinctSnoc(chain: seq<Layer>)
    requires chain != []
    ensures AllDistinct(chain) <==> AllDistinct(chain[..|chain| - 1]) && DistinctNames(chain[|chain| - 1].ast.phases)
  {
    forall j | 0 <= j < |chain| - 1 ensures chain[..|chain| - 1][j] == chain[j] {}
  }

  /**
   * Merging never hides a duplicate name: the composed policy passes the validator's duplicate
   * check exactly when every layer would.
   */
  lemma {:induction false} ComposeDistinctIff(chain: seq<Layer>)
    requires chain != [] && Compose(chain).Ok?
    ensures DistinctNames(Compose(chain).value.ast.phases) <==> AllDistinct(chain)
    decreases |chain|
  {
    if |chain| > 1 {
      var front, last := chain[..|chain| - 1], chain[|chain| - 1];
      ComposeDistinctIff(front);
      MergeDistinctIff(Compose(front).value, last.ast, last.id);
      AllDistinctSnoc(chain);
    }
  }

  // ----- what holds for every chain, duplicate names or not -----

  /** No phase is left that extends, and exactly the phases have a recorded source. */
  ghost predicate Clean(st: MergeState) {
    (forall i :: 0 <= i < |st.phases| ==> !st.phases[i].extend) && st.sources.Keys == Names(st.phases)
  }

  lemma CleanSnoc(st: MergeState, p: PhaseNode, c: PhaseComposition, consumed: seq<bool>)
    requires Clean(st) && !p.extend
    ensures Clean(MergeState(st.phases + [p], st.sources[p.name := c], consumed))
  {
    var phases := st.phases + [p];
    NamesSnoc(phases, |st.phases|);
    assert phases[..|st.phases|] == st.phases && phases[..|st.phases| + 1] == phases;
  }

  lemma ParentStepClean(st: MergeState, p: PhaseNode, origin: string, child: seq<PhaseNode>, childLabel: string)
    requires Clean(st) && |st.consumed| == |child|
    ensures Clean(MergeParentPhase(st, p, origin, child, childLabel))
  {
    match FirstUnconsumed(child, st.consumed, p.name, 0) {
      case Some(index) =>
        var c, consumed := child[index], st.consumed[index := true];
        CleanSnoc(st, ExtendPhase(p, c), Extended(origin, |c.operations|), consumed);
        CleanSnoc(st, ClearExtend(c), Overridden(childLabel), consumed);
      case None => CleanSnoc(st, ClearExtend(p), Inherited(origin), st.consumed);
    }
  }

  lemma {:induction false} ParentLoopClean(parent: Resolved, child: seq<PhaseNode>, childLabel: string, n: nat)
    requires n <= |parent.ast.phases|
    ensures Clean(MergeParents(parent, child, childLabel, n))
  {
    if n > 0 {
      var p := parent.ast.phases[n - 1];
      ParentLoopClean(parent, child, childLabel, n - 1);
      ParentStepClean(MergeParents(parent, child, childLabel, n - 1), p, OriginLabel(parent, p.name), child,
                      childLabel);
    }
  }

  lemma {:induction false} ChildLoopClean(st: MergeState, child: seq<PhaseNode>, n: nat)
    requires Clean(st) && |st.consumed| == |child| && n <= |child| && MergeRest(st, child, n).Ok?
    ensures Clean(MergeRest(st, child, n).value)
  {
    if n > 0 {
      ChildLoopClean(st, child, n - 1);
      var before := MergeRest(st, child, n - 1).value;
      CleanSnoc(before, ClearExtend(child[n - 1]), Local, before.consumed);
    }
  }

  lemma MergeNames(parent: Resolved, child: Policy, id: SourceId)
    requires Merge(parent, child, id).Ok?
    ensures Names(Merge(parent, child, id).value.ast.phases) == Names(parent.ast.phases) + Names(child.phases)
  {
    var merged := Merge(parent, child, id).value.ast.phases;
    forall n ensures n in Names(merged) <==> n in Names(parent.ast.phases) + Names(child.phases) {
      MergeCounts(parent, child, id, n);
      CountPositive(merged, |merged|, n);
      CountPositive(parent.ast.phases, |parent.ast.phases|, n);
      CountPositive(child.phases, |child.phases|, n);
    }
  }

  /** What a compiler gets from composing any chain. */
  ghost predicate Compilable(chain: seq<Layer>, r: Resolved)
    requires chain != []
  {
    && r.ast.base.None? && r.sourceId == chain[|chain| - 1].id && r.extendsChain == AncestorLabels(chain)
    && r.ast.name == chain[|chain| - 1].ast.name && r.ast.span == chain[|chain| - 1].ast.span
    && (forall i :: 0 <= i < |r.ast.phases| ==> !r.ast.phases[i].extend)
    && Names(r.ast.phases) == Mentioned(chain)
    && r.phaseSources.Keys == (if |chain| == 1 then {} else Names(r.ast.phases))
  }

  lemma MergeCompilable(chain: seq<Layer>, parent: Resolved)
    requires |chain| > 1 && Compilable(chain[..|chain| - 1], parent)
    requires Merge(parent, chain[|chain| - 1].ast, chain[|chain| - 1].id).Ok?
    ensures Compilable(chain, Merge(parent, chain[|chain| - 1].ast, chain[|chain| - 1].id).value)
  {
    var front, last := chain[..|chain| - 1], chain[|chain| - 1];
    var st := MergeParents(parent, last.ast.phases, Label(last.id), |parent.ast.phases|);
    ParentLoopClean(parent, last.ast.phases, Label(last.id), |parent.ast.phases|);
    ChildLoopClean(st, last.ast.phases, |last.ast.phases|);
    MergeNames(parent, last.ast, last.id);
    assert AncestorLabels(chain) == AncestorLabels(front) + [Label(parent.sourceId)];
  }

  /**
   * For every chain, with duplicate names too: no composed phase extends, every mentioned name is
   * there, the recorded sources are exactly those of the phases, and the ancestors are root first.
   */
  lemma {:induction false} ComposedIsCompilable(chain: seq<Layer>)
    requires chain != [] && Compose(chain).Ok?
    ensures Compilable(chain, Compose(chain).value)
    decreases |chain|
  {
    if |chain| == 1 {
      assert chain[..0] == [];
    } else {
      ComposedIsCompilable(chain[..|chain| - 1]);
      MergeCompilable(chain, Compose(chain[..|chain| - 1]).value);
    }
  }
}
