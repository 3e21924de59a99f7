/** Which policy applies to a file: prefix mappings, longest prefix first, then the default. */
module PolicyMap {
  import opened Common

  /**
   * The components of a path; `a <= b` says that `b` starts with `a`. A `char` stands for one byte
   * of a path, so the length of a text is its length in bytes.
   */
  type Path = seq<string>

  datatype MappingEntry = MappingEntry(prefix: string, policy: Option<string>, skip: Option<bool>)

  datatype MapError =
    | BothPolicyAndSkip(prefix: string)
    | NeitherPolicyNorSkip(prefix: string)
    | CompileFailed(policy: string)
    | NoMatch

  // ----- path text -----

  function Cut(text: string): (n: nat)
    ensures n <= |text| && (n < |text| ==> text[n] == '/')
  {
    if text == "" || text[0] == '/' then 0 else 1 + Cut(text[1..])
  }

  function AfterCut(text: string): string {
    if Cut(text) < |text| then text[Cut(text) + 1..] else ""
  }

  /** Empty and `.` parts are skipped. */
  function Parts(text: string): (p: Path)
    ensures forall k :: 0 <= k < |p| ==> p[k] != ""
    decreases |text|
  {
    if text == "" then [] else
      (if text[..Cut(text)] == "" || text[..Cut(text)] == "." then [] else [text[..Cut(text)]])
      + Parts(AfterCut(text))
  }

  /** A leading `/` is a component, and so is a leading `.`; later `.` parts are not. */
  function Components(text: string): (p: Path)
    ensures forall k :: 0 <= k < |p| ==> p[k] != ""
  {
    if text != "" && text[0] == '/' then ["/"] + Parts(text[1..])
    else if text[..Cut(text)] == "." then ["."] + Parts(AfterCut(text))
    else Parts(text)
  }

  function Join(p: Path): string {
    if p != [] && p[0] == "/" then "/" + Joined(p[1..]) else Joined(p)
  }

  function Joined(p: Path): string {
    if p == [] then "" else if |p| == 1 then p[0] else p[0] + "/" + Joined(p[1..])
  }

  /** No redundant separators or dot parts. */
  predicate Normalized(text: string) { text == Join(Components(text)) }

  lemma {:induction false} JoinedGrows(a: Path, b: Path)
    requires a < b && forall k :: 0 <= k < |b| ==> b[k] != ""
    ensures |Joined(a)| < |Joined(b)|
  {
    if |a| > 1 { JoinedGrows(a[1..], b[1..]); }
  }

  /** Among normalized texts, going down the tree makes the text longer. */
  lemma DeeperIsLonger(a: string, b: string)
    requires Normalized(a) && Normalized(b) && Components(a) < Components(b)
    ensures |a| < |b|
  {
    var x, y := Components(a), Components(b);
    if x != [] && x[0] == "/" { JoinedGrows(x[1..], y[1..]); }
    else if x != [] { JoinedGrows(x, y); }
  }

  // ----- the sorted list -----

  /** The order of the list: longer text first, equal lengths in configuration order. */
  predicate Before(entries: seq<MappingEntry>, i: nat, j: nat)
    requires i < |entries| && j < |entries|
  {
    |entries[i].prefix| > |entries[j].prefix| || (|entries[i].prefix| == |entries[j].prefix| && i < j)
  }

  predicate InRange(entries: seq<MappingEntry>, order: seq<nat>) {
    forall k :: 0 <= k < |order| ==> order[k] < |entries|
  }

  /** Put entry `x` after every entry whose text is at least as long. */
  function Insert(entries: seq<MappingEntry>, order: seq<nat>, x: nat): (r: seq<nat>)
    requires x < |entries| && InRange(entries, order)
    ensures InRange(entries, r) && |r| == |order| + 1
  {
    if order == [] || |entries[order[0]].prefix| < |entries[x].prefix| then [x] + order
    else [order[0]] + Insert(entries, order[1..], x)
  }

  /** The stable sort by descending text length, as the configuration indices in sorted order. */
  function Order(entries: seq<MappingEntry>, n: nat): (r: seq<nat>)
    requires n <= |entries|
    ensures InRange(entries, r) && |r| == n
  {
    if n == 0 then [] else Insert(entries, Order(entries, n - 1), n - 1)
  }

  ghost predicate Descends(entries: seq<MappingEntry>, order: seq<nat>)
    requires InRange(entries, order)
  {
    forall a, b :: 0 <= a < b < |order| ==> Before(entries, order[a], order[b])
  }

  lemma {:induction false} InsertMembers(entries: seq<MappingEntry>, order: seq<nat>, x: nat)
    requires x < |entries| && InRange(entries, order)
    ensures forall i :: i in Insert(entries, order, x) <==> i in order || i == x
  {
    if order != [] && |entries[order[0]].prefix| >= |entries[x].prefix| {
      InsertMembers(entries, order[1..], x);
      assert order == [order[0]] + order[1..];
    }
  }

  lemma DescendsCons(entries: seq<MappingEntry>, h: nat, t: seq<nat>)
    requires h < |entries| && InRange(entries, t) && Descends(entries, t)
    requires forall i :: i in t ==> Before(entries, h, i)
    ensures Descends(entries, [h] + t)
  {
    var s := [h] + t;
    forall a, b | 0 <= a < b < |s| ensures Before(entries, s[a], s[b]) {
      assert s[b] == t[b - 1] && t[b - 1] in t;
      if a > 0 { assert s[a] == t[a - 1]; }
    }
  }

  lemma {:induction false} InsertDescends(entries: seq<MappingEntry>, order: seq<nat>, x: nat)
    requires x < |entries| && InRange(entries, order) && Descends(entries, order)
    requires forall i :: i in order ==> i < x
    ensures Descends(entries, Insert(entries, order, x))
  {
    if order == [] || |entries[order[0]].prefix| < |entries[x].prefix| {
      forall i | i in order ensures Before(entries, x, i) {
        var b :| 0 <= b < |order| && order[b] == i;
        assert b > 0 ==> Before(entries, order[0], order[b]);
      }
      DescendsCons(entries, x, order);
    } else {
      forall i | i in order[1..] ensures i < x { assert i in order; }
      InsertDescends(entries, order[1..], x);
      InsertMembers(entries, order[1..], x);
      forall i | i in Insert(entries, order[1..], x) ensures Before(entries, order[0], i) {
        if i != x {
          var c :| 0 <= c < |order[1..]| && order[1..][c] == i;
          assert Before(entries, order[0], order[c + 1]);
        } else {
          assert order[0] in order;
        }
      }
      DescendsCons(entries, order[0], Insert(entries, order[1..], x));
    }
  }

  lemma {:induction false} OrderSorts(entries: seq<MappingEntry>, n: nat)
    requires n <= |entries|
    ensures Descends(entries, Order(entries, n))
    ensures forall i :: i in Order(entries, n) <==> 0 <= i < n
  {
    if n > 0 {
      OrderSorts(entries, n - 1);
      var order := Order(entries, n - 1);
      InsertDescends(entries, order, n - 1);
      InsertMembers(entries, order, n - 1);
    }
  }

  // ----- the simple reading -----

  predicate Matches(entry: MappingEntry, relative: Path) { Components(entry.prefix) <= relative }

  predicate AtLeastAsDeep(entries: seq<MappingEntry>, i: nat, j: nat)
    requires i < |entries| && j < |entries|
  {
    var (a, b) := (|Components(entries[i].prefix)|, |Components(entries[j].prefix)|);
    a > b || (a == b && i <= j)
  }

  /** `w` matches with the most components, the first such in configuration order. */
  ghost predicate IsBest(entries: seq<MappingEntry>, relative: Path, w: nat) {
    w < |entries| && Matches(entries[w], relative) &&
    forall i :: 0 <= i < |entries| && Matches(entries[i], relative) ==> AtLeastAsDeep(entries, w, i)
  }

  /** Position of the first match in the sorted list, at or after `from`. */
  function FirstMatch(entries: seq<MappingEntry>, order: seq<nat>, relative: Path, from: nat): (k: nat)
    requires InRange(entries, order) && from <= |order|
    ensures from <= k <= |order|
    ensures k < |order| ==> Matches(entries[order[k]], relative)
    ensures forall c :: from <= c < k ==> !Matches(entries[order[c]], relative)
    decreases |order| - from
  {
    if from == |order| || Matches(entries[order[from]], relative) then from
    else FirstMatch(entries, order, relative, from + 1)
  }

  /** The configuration index of the entry that the loop picks, or the number of entries. */
  function Picked(entries: seq<MappingEntry>, relative: Path): (w: nat) {
    var order := Order(entries, |entries|);
    var k := FirstMatch(entries, order, relative, 0);
    if k < |order| then order[k] else |entries|
  }

  /** The loop picks the matching entry that sorts first. */
  lemma PickedIsFirst(entries: seq<MappingEntry>, relative: Path, i: nat)
    requires i < |entries| && Matches(entries[i], relative)
    ensures Picked(entries, relative) < |entries| && Matches(entries[Picked(entries, relative)], relative)
    ensures i == Picked(entries, relative) || Before(entries, Picked(entries, relative), i)
  {
    var order := Order(entries, |entries|);
    OrderSorts(entries, |entries|);
    assert i in order;
    var c :| 0 <= c < |order| && order[c] == i;
    var k := FirstMatch(entries, order, relative, 0);
    assert k <= c;
    assert k < c ==> Before(entries, order[k], order[c]);
  }

  /**
   * An entry that is the first with its components sorts before every other entry that contains
   * its directory.
   */
  ghost predicate Aligned(entries: seq<MappingEntry>) {
    forall w, i :: 0 <= w < |entries| && 0 <= i < |entries| && Shadows(entries, w, i) ==> Before(entries, w, i)
  }

  ghost predicate Shadows(entries: seq<MappingEntry>, w: nat, i: nat)
    requires w < |entries| && i < |entries|
  {
    i != w && Components(entries[i].prefix) <= Components(entries[w].prefix) &&
    forall e :: 0 <= e < w ==> Components(entries[e].prefix) != Components(entries[w].prefix)
  }

  lemma AlignedPicksBest(entries: seq<MappingEntry>, relative: Path, w: nat)
    requires Aligned(entries) && IsBest(entries, relative, w)
    ensures Picked(entries, relative) == w
  {
    PickedIsFirst(entries, relative, w);
    var i := Picked(entries, relative);
    if i != w {
      assert AtLeastAsDeep(entries, w, i);
      forall e | 0 <= e < w ensures Components(entries[e].prefix) != Components(entries[w].prefix) {
        assert Matches(entries[e], relative) ==> AtLeastAsDeep(entries, w, e);
      }
      assert Shadows(entries, w, i);
    }
  }

  lemma BestPickedAligns(entries: seq<MappingEntry>, w: nat, i: nat)
    requires w < |entries| && i < |entries| && Shadows(entries, w, i)
    requires Picked(entries, Components(entries[w].prefix)) == w
    ensures Before(entries, w, i)
  {
    PickedIsFirst(entries, Components(entries[w].prefix), i);
  }

  lemma ShadowingIsBest(entries: seq<MappingEntry>, w: nat, i: nat)
    requires w < |entries| && i < |entries| && Shadows(entries, w, i)
    ensures IsBest(entries, Components(entries[w].prefix), w)
  {
  }

  /** First match in the length-sorted list is the deepest match for every file exactly when aligned. */
  lemma FirstMatchIsBestIff(entries: seq<MappingEntry>)
    ensures (forall relative, w :: IsBest(entries, relative, w) ==> Picked(entries, relative) == w) <==>
            Aligned(entries)
  {
    if Aligned(entries) {
      forall relative, w | IsBest(entries, relative, w) ensures Picked(entries, relative) == w {
        AlignedPicksBest(entries, relative, w);
      }
    }
    if forall relative, w :: IsBest(entries, relative, w) ==> Picked(entries, relative) == w {
      forall w: nat, i: nat | w < |entries| && i < |entries| && Shadows(entries, w, i) ensures Before(entries, w, i) {
        ShadowingIsBest(entries, w, i);
        BestPickedAligns(entries, w, i);
      }
    }
  }

  /** A component as a directory entry can have it. */
  predicate Plain(part: string) { part != "" && part != "." && '/' !in part }

  lemma {:induction false} PartsOfJoined(p: Path)
    requires forall k :: 0 <= k < |p| ==> Plain(p[k])
    ensures Parts(Joined(p)) == p
  {
    if |p| == 1 {
      CutWhole(p[0]);
      assert p[0][..|p[0]|] == p[0];
      assert Parts("") == [];
    } else if |p| > 1 {
      CutAt(p[0], Joined(p[1..]));
      PartsOfJoined(p[1..]);
    }
  }

  /** A path written out reads back as itself, with or without a leading separator. */
  lemma JoinReadsBack(p: Path)
    requires forall k :: 0 <= k < |p| ==> Plain(p[k])
    ensures Components(Join(p)) == p
    ensures Components(Join(["/"] + p)) == ["/"] + p
    ensures Components(Join(["."] + p)) == ["."] + p
  {
    PartsOfJoined(p);
    assert (["/"] + p)[1..] == p;
    assert ("/" + Joined(p))[1..] == Joined(p);
    JoinedHead(p);
    var dotted := ["."] + p;
    if p == [] {
      CutWhole(".");
      assert Parts("") == [];
    } else {
      assert dotted[1..] == p;
      CutAt(".", Joined(p));
    }
  }

  /** The first part of a written path is its first component. */
  lemma JoinedHead(p: Path)
    requires forall k :: 0 <= k < |p| ==> Plain(p[k])
    ensures p != [] ==> Joined(p) != "" && Joined(p)[0] != '/' && Joined(p)[..Cut(Joined(p))] == p[0]
  {
    if |p| == 1 { CutWhole(p[0]); assert p[0][..|p[0]|] == p[0]; }
    else if |p| > 1 { CutAt(p[0], Joined(p[1..])); }
  }

  /** Normalized prefixes are always aligned. */
  lemma NormalizedAligned(entries: seq<MappingEntry>)
    requires forall i :: 0 <= i < |entries| ==> Normalized(entries[i].prefix)
    ensures Aligned(entries)
  {
    forall w: nat, i: nat | w < |entries| && i < |entries| && Shadows(entries, w, i) ensures Before(entries, w, i) {
      var (a, b) := (Components(entries[i].prefix), Components(entries[w].prefix));
      if a != b { DeeperIsLonger(entries[i].prefix, entries[w].prefix); }
    }
  }

  lemma {:induction false} BestExists(entries: seq<MappingEntry>, relative: Path, i: nat) returns (w: nat)
    requires i < |entries| && Matches(entries[i], relative)
    ensures IsBest(entries, relative, w)
    decreases |relative| - |Components(entries[i].prefix)|, i
  {
    if j: nat :| j < |entries| && Matches(entries[j], relative) && !AtLeastAsDeep(entries, i, j) {
      w := BestExists(entries, relative, j);
    } else {
      w := i;
    }
  }

  /** Text without separators is one part. */
  lemma {:induction false} CutWhole(text: string)
    requires '/' !in text
    ensures Cut(text) == |text|
  {
    if text != "" { CutWhole(text[1..]); }
  }

  lemma {:induction false} CutAt(part: string, rest: string)
    requires '/' !in part
    ensures Cut(part + "/" + rest) == |part| && AfterCut(part + "/" + rest) == rest
    ensures (part + "/" + rest)[..|part|] == part
  {
    var text := part + "/" + rest;
    if part != "" {
      CutAt(part[1..], rest);
      assert text[1..] == part[1..] + "/" + rest;
    }
    assert Cut(text) == |part|;
    assert text[|part| + 1..] == rest;
    assert text[..|part|] == part;
  }

  lemma PartsCons(part: string, rest: string)
    requires '/' !in part && part != "."
    ensures Parts(part + "/" + rest) == (if part == "" then [] else [part]) + Parts(rest)
    ensures part != "" ==> Components(part + "/" + rest) == [part] + Parts(rest)
  {
    CutAt(part, rest);
    var text := part + "/" + rest;
    assert part != "" ==> text[0] == part[0] && part[0] in part;
  }

  lemma PartsLast(part: string)
    requires '/' !in part && part != "" && part != "."
    ensures Parts(part) == [part]
  {
    CutWhole(part);
    assert part[..|part|] == part;
  }

  lemma LongerTextWins(deep: MappingEntry, shallow: MappingEntry, relative: Path)
    requires Components(shallow.prefix) < Components(deep.prefix) <= relative
    requires |shallow.prefix| > |deep.prefix|
    ensures IsBest([deep, shallow], relative, 0) && Picked([deep, shallow], relative) == 1
  {
    PickedIsFirst([deep, shallow], relative, 0);
    PickedIsFirst([deep, shallow], relative, 1);
  }

  function Slashes(n: nat): (s: string)
    ensures |s| == n
  {
    if n == 0 then "" else "/" + Slashes(n - 1)
  }

  lemma {:induction false} SlashesAreNothing(n: nat)
    ensures Parts(Slashes(n)) == []
  {
    if n > 0 {
      SlashesAreNothing(n - 1);
      PartsCons("", Slashes(n - 1));
      assert Slashes(n) == "" + "/" + Slashes(n - 1);
    }
  }

  /** Redundant separators make a shallow prefix win: `movies////` over `movies/4k`. */
  lemma RedundantSeparatorsWin(parent: string, child: string, n: nat, deep: MappingEntry, shallow: MappingEntry,
                               file: Path)
    requires '/' !in parent && parent != "" && parent != "." && '/' !in child && child != "" && child != "."
    requires n > |child| && deep.prefix == parent + "/" + child && shallow.prefix == parent + "/" + Slashes(n)
    ensures IsBest([deep, shallow], [parent, child] + file, 0)
    ensures Picked([deep, shallow], [parent, child] + file) == 1
  {
    PartsLast(child);
    PartsCons(parent, child);
    PartsCons(parent, Slashes(n));
    SlashesAreNothing(n);
    LongerTextWins(deep, shallow, [parent, child] + file);
  }

  // ----- build and resolve -----

  /** The configured default and entries, with what compiling each policy file gives. */
  datatype Config<C> = Config(fallback: Option<string>, entries: seq<MappingEntry>, compile: string -> Option<C>)

  datatype Action = Policy(index: nat) | Skip

  datatype Fallback = UsePolicy(index: nat) | SkipAll | NoDefault

  datatype ResolvedMapping = ResolvedMapping(prefix: string, action: Action)

  datatype Resolver<C> = Resolver(
    root: Path, mappings: seq<ResolvedMapping>, fallback: Fallback, policies: seq<(string, C)>)

  datatype PolicyMatch<C> = Apply(compiled: C, name: string) | SkipFile

  predicate Acceptable(e: MappingEntry) { e.policy.Some? != (e.skip == Some(true)) }

  /** `MappingEntry::validate`: exactly one of `policy` and `skip = true`. */
  function Validate(e: MappingEntry): (r: Result<(), MapError>)
    ensures r.Ok? <==> Acceptable(e)
    ensures r == Err(BothPolicyAndSkip(e.prefix)) <==> e.policy.Some? && e.skip == Some(true)
  {
    if e.policy.Some? && e.skip == Some(true) then Err(BothPolicyAndSkip(e.prefix))
    else if e.policy.None? && e.skip != Some(true) then Err(NeitherPolicyNorSkip(e.prefix))
    else Ok(())
  }

  ghost predicate FirstInvalid(entries: seq<MappingEntry>, error: MapError) {
    exists k :: 0 <= k < |entries| && Validate(entries[k]) == Err(error) &&
      forall j :: 0 <= j < k ==> Acceptable(entries[j])
  }

  ghost predicate Referenced<C>(config: Config<C>, name: string) {
    (config.fallback == Some(name) && name != "skip") || Named(config.entries, name)
  }

  ghost predicate Named(entries: seq<MappingEntry>, name: string) {
    exists k :: 0 <= k < |entries| && entries[k].policy == Some(name)
  }

  ghost predicate IndexNames<C>(policies: seq<(string, C)>, index: nat, name: string) {
    index < |policies| && policies[index].0 == name
  }

  ghost predicate MappingIs<C>(e: MappingEntry, m: ResolvedMapping, policies: seq<(string, C)>) {
    m.prefix == e.prefix &&
    match m.action
    case Skip => e.skip == Some(true)
    case Policy(i) => e.skip != Some(true) && e.policy.Some? && IndexNames(policies, i, e.policy.value)
  }

  ghost predicate FallbackIs<C>(fallback: Option<string>, f: Fallback, policies: seq<(string, C)>) {
    match f
    case SkipAll => fallback == Some("skip")
    case NoDefault => fallback.None?
    case UsePolicy(i) => fallback.Some? && fallback.value != "skip" && IndexNames(policies, i, fallback.value)
  }

  ghost predicate Compiled<C>(config: Config<C>, policies: seq<(string, C)>) {
    forall k :: 0 <= k < |policies| ==> config.compile(policies[k].0) == Some(policies[k].1)
  }

  /** What a built resolver stores. */
  ghost predicate Built<C>(config: Config<C>, resolver: Resolver<C>) {
    var order := Order(config.entries, |config.entries|);
    Compiled(config, resolver.policies) &&
    FallbackIs(config.fallback, resolver.fallback, resolver.policies) &&
    |resolver.mappings| == |order| &&
    forall k :: 0 <= k < |order| ==> MappingIs(config.entries[order[k]], resolver.mappings[k], resolver.policies)
  }

  /** The names in order of first mention, the default first, up to entry `n`. */
  function Mentions<C>(config: Config<C>, n: nat): seq<string>
    requires n <= |config.entries|
  {
    if n == 0 then
      if config.fallback.Some? && config.fallback.value != "skip" then [config.fallback.value] else []
    else
      var seen := Mentions(config, n - 1);
      match config.entries[n - 1].policy
      case None => seen
      case Some(p) => if p in seen then seen else seen + [p]
  }

  /** The policy names in order of first mention, each once. */
  method PolicyPaths<C>(config: Config<C>) returns (paths: seq<string>)
    ensures paths == Mentions(config, |config.entries|) && Distinct(paths)
    ensures forall name :: name in paths <==> Referenced(config, name)
  {
    paths := [];
    if config.fallback.Some? && config.fallback.value != "skip" { paths := [config.fallback.value]; }
    ghost var first := paths;
    for k := 0 to |config.entries|
      invariant paths == Mentions(config, k) && Distinct(paths)
      invariant forall name :: name in paths <==> name in first || Named(config.entries[..k], name)
    {
      ghost var was := paths;
      var entry := config.entries[k];
      if entry.policy.Some? && entry.policy.value !in paths { paths := paths + [entry.policy.value]; }
      assert config.entries[..k + 1] == config.entries[..k] + [entry];
      forall name ensures Named(config.entries[..k + 1], name) <==>
        Named(config.entries[..k], name) || entry.policy == Some(name) {
        if Named(config.entries[..k], name) {
          var j :| 0 <= j < k && config.entries[..k][j].policy == Some(name);
          assert config.entries[..k + 1][j].policy == Some(name);
        }
        if entry.policy == Some(name) { assert config.entries[..k + 1][k].policy == Some(name); }
      }
    }
    assert config.entries[..|config.entries|] == config.entries;
  }

  ghost predicate NamedBy<C>(policies: seq<(string, C)>, paths: seq<string>) {
    |policies| == |paths| && forall k :: 0 <= k < |paths| ==> policies[k].0 == paths[k]
  }

  /** `name` does not compile, and every name before it does. */
  ghost predicate FirstFailing<C>(config: Config<C>, paths: seq<string>, name: string) {
    exists k :: 0 <= k < |paths| && paths[k] == name && config.compile(name).None? &&
      forall j :: 0 <= j < k ==> config.compile(paths[j]).Some?
  }

  /** Compile each name once and remember where it is stored. */
  method CompileAll<C>(config: Config<C>, paths: seq<string>)
    returns (r: Result<seq<(string, C)>, MapError>, pathToIndex: map<string, nat>)
    ensures r.Ok? <==> forall name :: name in paths ==> config.compile(name).Some?
    ensures r.Ok? ==> Compiled(config, r.value) && NamedBy(r.value, paths)
    ensures r.Ok? ==> forall name :: name in paths ==>
            name in pathToIndex && IndexNames(r.value, pathToIndex[name], name)
    ensures r.Err? ==> r.error.CompileFailed? && FirstFailing(config, paths, r.error.policy)
  {
    var policies: seq<(string, C)> := [];
    pathToIndex := map[];
    for k := 0 to |paths|
      invariant Compiled(config, policies) && NamedBy(policies, paths[..k])
      invariant forall j :: 0 <= j < k ==> config.compile(paths[j]).Some?
      invariant forall j :: 0 <= j < k ==>
                paths[j] in pathToIndex && IndexNames(policies, pathToIndex[paths[j]], paths[j])
    {
      var compiled := config.compile(paths[k]);
      if compiled.None? { return Err(CompileFailed(paths[k])), pathToIndex; }
      policies := policies + [(paths[k], compiled.value)];
      pathToIndex := pathToIndex[paths[k] := k];
    }
    r := Ok(policies);
  }

  /**
   * `PolicyResolver::build`. It succeeds exactly when every entry is acceptable and every named
   * policy compiles; every stored index is then in range and names its entry's policy.
   */
  method Build<C>(config: Config<C>, root: Path) returns (r: Result<Resolver<C>, MapError>)
    ensures r.Ok? <==> (forall e :: e in config.entries ==> Acceptable(e)) &&
                       (forall name :: Referenced(config, name) ==> config.compile(name).Some?)
    ensures r.Ok? ==> Built(config, r.value) && r.value.root == root
    ensures r.Err? ==> (r.error.CompileFailed? <==> forall e :: e in config.entries ==> Acceptable(e))
    ensures r.Err? && !r.error.CompileFailed? ==> FirstInvalid(config.entries, r.error)
    ensures r.Ok? ==> NamedBy(r.value.policies, Mentions(config, |config.entries|))
    ensures r.Err? && r.error.CompileFailed? ==>
            FirstFailing(config, Mentions(config, |config.entries|), r.error.policy)
  {
    for k := 0 to |config.entries|
      invariant forall j :: 0 <= j < k ==> Acceptable(config.entries[j])
    {
      var v := Validate(config.entries[k]);
      if v.Err? { return Err(v.error); }
    }
    var paths := PolicyPaths(config);
    var compiled, pathToIndex := CompileAll(config, paths);
    if compiled.Err? { return Err(compiled.error); }
    var policies := compiled.value;
    var fallback := NoDefault;
    if config.fallback == Some("skip") {
      fallback := SkipAll;
    } else if config.fallback.Some? {
      fallback := UsePolicy(pathToIndex[config.fallback.value]);
    }
    var resolved: seq<ResolvedMapping> := [];
    for k := 0 to |config.entries|
      invariant |resolved| == k
      invariant forall j :: 0 <= j < k ==> MappingIs(config.entries[j], resolved[j], policies)
    {
      var entry := config.entries[k];
      assert Acceptable(entry);
      assert entry.policy.Some? ==> Referenced(config, entry.policy.value);
      var action := if entry.skip == Some(true) then Skip else Policy(pathToIndex[entry.policy.value]);
      resolved := resolved + [ResolvedMapping(entry.prefix, action)];
    }
    var order := Order(config.entries, |config.entries|);
    var mappings := seq(|order|, k requires 0 <= k < |order| => resolved[order[k]]);
    r := Ok(Resolver(root, mappings, fallback, policies));
  }

  /** What an entry asks for, in terms of policy names alone. */
  ghost predicate Asks<C>(config: Config<C>, e: MappingEntry, m: Result<PolicyMatch<C>, MapError>) {
    m.Ok? &&
    if e.skip == Some(true) then m.value == SkipFile
    else m.value.Apply? && e.policy == Some(m.value.name) && config.compile(m.value.name) == Some(m.value.compiled)
  }

  ghost predicate DefaultAsks<C>(config: Config<C>, m: Result<PolicyMatch<C>, MapError>) {
    match config.fallback
    case None => m == Err(NoMatch)
    case Some(d) =>
      m.Ok? &&
      if d == "skip" then m.value == SkipFile
      else m.value.Apply? && m.value.name == d && config.compile(d) == Some(m.value.compiled)
  }

  function Relative(root: Path, file: Path): Path {
    if root <= file then file[|root|..] else file
  }

  /**
   * `PolicyResolver::resolve`. The entry picked decides, without a match the default does; with an
   * aligned configuration the entry picked is the matching one with the most components, ties in
   * configuration order.
   */
  method Resolve<C>(resolver: Resolver<C>, file: Path, ghost config: Config<C>)
    returns (r: Result<PolicyMatch<C>, MapError>)
    requires Built(config, resolver)
    ensures forall rel :: file == resolver.root + rel ==> Answers(config, rel, r)
    ensures !(resolver.root <= file) ==> Answers(config, file, r)
  {
    var relative := Relative(resolver.root, file);
    assert forall rel :: file == resolver.root + rel ==> rel == relative;
    for k := 0 to |resolver.mappings|
      invariant PassedOver(config.entries, relative, k)
    {
      StoredAction(config, resolver, k);
      if Components(resolver.mappings[k].prefix) <= relative {
        r := Ok(Perform(resolver, k));
        PickedAnswers(config, relative, k, r);
        return;
      }
      PassOne(config.entries, relative, k);
    }
    r := match resolver.fallback
      case UsePolicy(i) => Ok(Apply(resolver.policies[i].1, resolver.policies[i].0))
      case SkipAll => Ok(SkipFile)
      case NoDefault => Err(NoMatch);
    DefaultAnswers(config, relative, r);
  }

  function Perform<C>(resolver: Resolver<C>, k: nat): PolicyMatch<C>
    requires k < |resolver.mappings|
    requires var a := resolver.mappings[k].action; a.Policy? ==> a.index < |resolver.policies|
  {
    match resolver.mappings[k].action
    case Skip => SkipFile
    case Policy(i) => Apply(resolver.policies[i].1, resolver.policies[i].0)
  }

  lemma PassOne(entries: seq<MappingEntry>, relative: Path, k: nat)
    requires k < |entries| && PassedOver(entries, relative, k) && !Matches(At(entries, k), relative)
    ensures PassedOver(entries, relative, k + 1)
  {
  }

  /** The entry that is stored at place `k` of the sorted list. */
  ghost function At(entries: seq<MappingEntry>, k: nat): MappingEntry
    requires k < |entries|
  {
    entries[Order(entries, |entries|)[k]]
  }

  lemma StoredAction<C>(config: Config<C>, resolver: Resolver<C>, k: nat)
    requires Built(config, resolver) && k < |resolver.mappings|
    ensures resolver.mappings[k].prefix == At(config.entries, k).prefix
    ensures var a := resolver.mappings[k].action; a.Policy? ==> a.index < |resolver.policies|
    ensures Asks(config, At(config.entries, k), Ok(Perform(resolver, k)))
  {
  }

  /** `w` contains the file and has the longest text of those that do, the first such in configuration order. */
  ghost predicate SortsFirst(entries: seq<MappingEntry>, relative: Path, w: nat) {
    w < |entries| && Components(entries[w].prefix) <= relative &&
    forall i :: 0 <= i < |entries| && Components(entries[i].prefix) <= relative ==>
      |entries[w].prefix| > |entries[i].prefix| || (|entries[w].prefix| == |entries[i].prefix| && w <= i)
  }

  /** A file with a matching entry has one that sorts first. */
  lemma SomeSortsFirst(entries: seq<MappingEntry>, relative: Path, i: nat) returns (w: nat)
    requires i < |entries| && Components(entries[i].prefix) <= relative
    ensures SortsFirst(entries, relative, w)
  {
    w := Picked(entries, relative);
    PickedIsFirst(entries, relative, i);
    forall j: nat | j < |entries| && Components(entries[j].prefix) <= relative
      ensures w == j || Before(entries, w, j)
    {
      PickedIsFirst(entries, relative, j);
    }
  }

  ghost predicate Answers<C>(config: Config<C>, relative: Path, r: Result<PolicyMatch<C>, MapError>) {
    var entries := config.entries;
    (forall w: nat :: SortsFirst(entries, relative, w) ==> Asks(config, entries[w], r)) &&
    ((forall i :: 0 <= i < |entries| ==> !(Components(entries[i].prefix) <= relative)) ==> DefaultAsks(config, r)) &&
    (Aligned(entries) ==> forall b: nat :: IsBest(entries, relative, b) ==> Asks(config, entries[b], r))
  }

  /** The first `k` mappings of the sorted list do not match. */
  ghost predicate PassedOver(entries: seq<MappingEntry>, relative: Path, k: nat)
    requires k <= |entries|
  {
    forall c :: 0 <= c < k ==> !Matches(At(entries, c), relative)
  }

  lemma PickedAnswers<C>(config: Config<C>, relative: Path, k: nat, r: Result<PolicyMatch<C>, MapError>)
    requires k < |config.entries| && PassedOver(config.entries, relative, k)
    requires Matches(At(config.entries, k), relative) && Asks(config, At(config.entries, k), r)
    ensures Answers(config, relative, r)
  {
    PickedAt(config.entries, relative, k);
    forall w: nat | SortsFirst(config.entries, relative, w) ensures Asks(config, config.entries[w], r) {
      PickedIsFirst(config.entries, relative, w);
    }
    if Aligned(config.entries) {
      forall b: nat | IsBest(config.entries, relative, b) ensures Asks(config, config.entries[b], r) {
        AlignedPicksBest(config.entries, relative, b);
      }
    }
  }

  lemma PickedAt(entries: seq<MappingEntry>, relative: Path, k: nat)
    requires k < |entries| && PassedOver(entries, relative, k) && Matches(At(entries, k), relative)
    ensures Picked(entries, relative) < |entries| && entries[Picked(entries, relative)] == At(entries, k)
    ensures exists i :: 0 <= i < |entries| && Matches(entries[i], relative)
  {
    var order := Order(entries, |entries|);
    var first := FirstMatch(entries, order, relative, 0);
    assert At(entries, k) == entries[order[k]];
    assert first < k ==> !Matches(At(entries, first), relative);
    assert first == k;
  }

  lemma DefaultAnswers<C>(config: Config<C>, relative: Path, r: Result<PolicyMatch<C>, MapError>)
    requires PassedOver(config.entries, relative, |config.entries|) && DefaultAsks(config, r)
    ensures Answers(config, relative, r)
  {
    var order := Order(config.entries, |config.entries|);
    OrderSorts(config.entries, |config.entries|);
    forall i: nat | i < |config.entries| ensures !Matches(config.entries[i], relative) {
      assert i in order;
      var c :| 0 <= c < |order| && order[c] == i;
      assert !Matches(At(config.entries, c), relative);
    }
  }
}
