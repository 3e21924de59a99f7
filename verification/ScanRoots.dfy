/** Overlapping scan roots: sort, drop repeats, keep only roots that no other root contains. */
module ScanRoots {
  import opened Common

  /** The components of a canonical path; `a <= b` says that `b` lies at or under `a`. */
  type Path = seq<string>

  /** Paths compare component by component. */
  predicate PathLeq(a: Path, b: Path) {
    a == [] ||
    (b != [] && (if a[0] == b[0] then PathLeq(a[1..], b[1..]) else Leq(a[0], b[0])))
  }

  lemma {:induction false} PathLeqTotal(a: Path, b: Path)
    ensures PathLeq(a, b) || PathLeq(b, a)
  {
    if a != [] && b != [] {
      LeqTotal(a[0], b[0]);
      if a[0] == b[0] { PathLeqTotal(a[1..], b[1..]); }
    }
  }

  lemma {:induction false} PathLeqAntisymmetric(a: Path, b: Path)
    requires PathLeq(a, b) && PathLeq(b, a)
    ensures a == b
  {
    if a != [] {
      if a[0] == b[0] {
        PathLeqAntisymmetric(a[1..], b[1..]);
        assert a == [a[0]] + a[1..] && b == [b[0]] + b[1..];
      } else {
        LeqAntisymmetric(a[0], b[0]);
      }
    }
  }

  lemma {:induction false} PathLeqTransitive(a: Path, b: Path, c: Path)
    requires PathLeq(a, b) && PathLeq(b, c)
    ensures PathLeq(a, c)
  {
    if a != [] {
      if a[0] == b[0] == c[0] {
        PathLeqTransitive(a[1..], b[1..], c[1..]);
      } else {
        if a[0] != b[0] && b[0] != c[0] { LeqTransitive(a[0], b[0], c[0]); }
        if a[0] == c[0] && a[0] != b[0] { LeqAntisymmetric(a[0], b[0]); }
      }
    }
  }

  /** A containing root sorts first. */
  lemma {:induction false} PrefixLeq(a: Path, b: Path)
    requires a <= b
    ensures PathLeq(a, b)
  {
    if a != [] { PrefixLeq(a[1..], b[1..]); }
  }

  // ----- sort and dedup -----

  function Insert(x: Path, s: seq<Path>): seq<Path> {
    if s == [] || PathLeq(x, s[0]) then [x] + s else [s[0]] + Insert(x, s[1..])
  }

  function Sort(s: seq<Path>): seq<Path> {
    if s == [] then [] else Insert(s[0], Sort(s[1..]))
  }

  function Dedup(s: seq<Path>): seq<Path> {
    if |s| < 2 then s
    else if s[0] == s[1] then Dedup(s[1..])
    else [s[0]] + Dedup(s[1..])
  }

  /** Each element before its successor, in the recursive form that follows the list. */
  ghost predicate Ascends(s: seq<Path>, strictly: bool) {
    |s| < 2 || (PathLeq(s[0], s[1]) && (strictly ==> s[0] != s[1]) && Ascends(s[1..], strictly))
  }

  lemma ToSetCons(h: Path, t: seq<Path>)
    ensures ToSet([h] + t) == {h} + ToSet(t)
  {
    forall x ensures x in [h] + t <==> x == h || x in t {}
  }

  lemma {:induction false} InsertAscends(x: Path, s: seq<Path>)
    requires Ascends(s, false)
    ensures Ascends(Insert(x, s), false) && ToSet(Insert(x, s)) == ToSet(s) + {x}
    ensures Insert(x, s)[0] == x || (s != [] && Insert(x, s)[0] == s[0])
  {
    ToSetCons(x, s);
    if s != [] && !PathLeq(x, s[0]) {
      InsertAscends(x, s[1..]);
      PathLeqTotal(x, s[0]);
      assert s == [s[0]] + s[1..];
      ToSetCons(s[0], s[1..]);
      ToSetCons(s[0], Insert(x, s[1..]));
    }
  }

  lemma {:induction false} SortAscends(s: seq<Path>)
    ensures Ascends(Sort(s), false) && ToSet(Sort(s)) == ToSet(s)
  {
    if s != [] {
      SortAscends(s[1..]);
      InsertAscends(s[0], Sort(s[1..]));
      assert s == [s[0]] + s[1..];
      ToSetCons(s[0], s[1..]);
    }
  }

  lemma {:induction false} DedupAscends(s: seq<Path>)
    requires Ascends(s, false)
    ensures Ascends(Dedup(s), true) && ToSet(Dedup(s)) == ToSet(s)
    ensures s != [] ==> Dedup(s) != [] && Dedup(s)[0] == s[0]
  {
    if |s| >= 2 {
      DedupAscends(s[1..]);
      assert s == [s[0]] + s[1..];
      ToSetCons(s[0], s[1..]);
      ToSetCons(s[0], Dedup(s[1..]));
    }
  }

  lemma {:induction false} AscendsOrders(s: seq<Path>, i: nat, j: nat)
    requires Ascends(s, true) && i < j < |s|
    ensures PathLeq(s[i], s[j]) && s[i] != s[j]
    decreases j
  {
    if i > 0 {
      AscendsOrders(s[1..], i - 1, j - 1);
    } else if j > 1 {
      AscendsOrders(s[1..], 0, j - 1);
      PathLeqTransitive(s[0], s[1], s[j]);
      if s[0] == s[j] { PathLeqAntisymmetric(s[0], s[1]); }
    }
  }

  // ----- dominance -----

  /** No other root of `roots` contains `p`. */
  ghost predicate Topmost(roots: set<Path>, p: Path) {
    p in roots && forall q :: q in roots && q <= p ==> q == p
  }

  /** Every root lies under a topmost one. */
  lemma TopmostAbove(roots: set<Path>, p: Path) returns (t: Path)
    requires p in roots
    ensures Topmost(roots, t) && t <= p
    decreases |p|
  {
    if q :| q in roots && q <= p && q != p {
      t := TopmostAbove(roots, q);
    } else {
      t := p;
    }
  }

  lemma TopmostUnique(roots: set<Path>, p: Path, a: Path, b: Path)
    requires Topmost(roots, a) && Topmost(roots, b) && a <= p && b <= p
    ensures a == b
  {
    assert a <= b || b <= a;
  }

  function Retain(kept: seq<Path>, path: Path): seq<Path> {
    if kept == [] then []
    else Retain(kept[..|kept| - 1], path) + if path <= kept[|kept| - 1] then [] else [kept[|kept| - 1]]
  }

  lemma {:induction false} RetainAll(kept: seq<Path>, path: Path)
    requires forall k :: 0 <= k < |kept| ==> !(path <= kept[k])
    ensures Retain(kept, path) == kept
  {
    if kept != [] {
      var front := kept[..|kept| - 1];
      assert forall k :: 0 <= k < |front| ==> front[k] == kept[k];
      RetainAll(front, path);
      assert kept == front + [kept[|kept| - 1]];
    }
  }

  /** `kept` has exactly the topmost roots among the first `i`. */
  ghost predicate KeptSoFar(sorted: seq<Path>, i: nat, kept: seq<Path>)
    requires i <= |sorted|
  {
    forall q :: q in kept <==> q in sorted[..i] && Topmost(ToSet(sorted), q)
  }

  /** In sorted order no kept root lies under the next one, so `retain` has nothing to remove. */
  lemma NothingToRetract(sorted: seq<Path>, i: nat, k: nat)
    requires Ascends(sorted, true) && k < i < |sorted|
    ensures !(sorted[i] <= sorted[k])
  {
    AscendsOrders(sorted, k, i);
    if sorted[i] <= sorted[k] {
      PrefixLeq(sorted[i], sorted[k]);
      PathLeqAntisymmetric(sorted[i], sorted[k]);
    }
  }

  /** A root that is not topmost lies under one that is already kept. */
  lemma CoveredByKept(sorted: seq<Path>, i: nat, kept: seq<Path>) returns (t: Path)
    requires Ascends(sorted, true) && i < |sorted| && KeptSoFar(sorted, i, kept)
    requires !Topmost(ToSet(sorted), sorted[i])
    ensures t in kept && t <= sorted[i]
  {
    t := TopmostAbove(ToSet(sorted), sorted[i]);
    var k :| 0 <= k < |sorted| && sorted[k] == t;
    if k > i { NothingToRetract(sorted, k, i); }
    assert k < i;
    assert t == sorted[..i][k];
  }

  /** In sorted order a root is dominated by what is kept so far exactly when it is not topmost. */
  lemma DominatedIff(sorted: seq<Path>, i: nat, kept: seq<Path>)
    requires Ascends(sorted, true) && i < |sorted| && KeptSoFar(sorted, i, kept)
    ensures (exists q :: q in kept && q <= sorted[i]) <==> !Topmost(ToSet(sorted), sorted[i])
  {
    if Topmost(ToSet(sorted), sorted[i]) {
      forall q | q in kept ensures !(q <= sorted[i]) {
        var k :| 0 <= k < i && sorted[k] == q;
        AscendsOrders(sorted, k, i);
      }
    } else {
      var t := CoveredByKept(sorted, i, kept);
    }
  }

  /** No root is at or under another; in particular none is listed twice. */
  ghost predicate Antichain(roots: seq<Path>) {
    forall i, j :: 0 <= i < |roots| && 0 <= j < |roots| && i != j ==> !(roots[i] <= roots[j])
  }

  /** Exactly one of the roots contains `p`. */
  ghost predicate CoveredOnce(roots: seq<Path>, p: Path) {
    exists k :: 0 <= k < |roots| && roots[k] <= p && forall j :: 0 <= j < |roots| && roots[j] <= p ==> j == k
  }

  datatype PathError = PathNotFound

  /**
   * `resolve_paths`. `raw` has the canonical form of each given path, or nothing where it does not
   * exist. The result is exactly the topmost roots, so they do not overlap and every given path
   * lies under exactly one; `retain` is asked for every kept root and removes none.
   */
  method ResolvePaths(raw: seq<Option<Path>>) returns (r: Result<seq<Path>, PathError>)
    ensures r.Err? <==> exists i :: 0 <= i < |raw| && raw[i].None?
    ensures r.Ok? ==> forall p :: p in r.value <==> Topmost(Given(raw), p)
    ensures r.Ok? ==> Antichain(r.value) && forall p :: p in Given(raw) ==> CoveredOnce(r.value, p)
  {
    var canonical: seq<Path> := [];
    for i := 0 to |raw|
      invariant forall j :: 0 <= j < i ==> raw[j].Some?
      invariant ToSet(canonical) == Given(raw[..i])
    {
      if raw[i].None? { return Err(PathNotFound); }
      GivenSnoc(raw, i);
      ghost var before := canonical;
      canonical := canonical + [raw[i].value];
      assert ToSet(canonical) == ToSet(before) + {raw[i].value};
    }
    assert raw[..|raw|] == raw;
    SortAscends(canonical);
    DedupAscends(Sort(canonical));
    var sorted := Dedup(Sort(canonical));
    var filtered := FilterDominated(sorted);
    forall p | p in Given(raw) ensures CoveredOnce(filtered, p) { RootsCover(Given(raw), filtered, p); }
    r := Ok(filtered);
  }

  ghost function Given(raw: seq<Option<Path>>): set<Path> {
    set i | 0 <= i < |raw| && raw[i].Some? :: raw[i].value
  }

  lemma GivenSnoc(raw: seq<Option<Path>>, i: nat)
    requires i < |raw| && raw[i].Some?
    ensures Given(raw[..i + 1]) == Given(raw[..i]) + {raw[i].value}
  {
    forall p ensures p in Given(raw[..i + 1]) <==> p in Given(raw[..i]) + {raw[i].value} {
      if p in Given(raw[..i]) {
        var j :| 0 <= j < i && raw[..i][j] == Some(p);
        assert raw[..i + 1][j] == Some(p);
      }
      if p == raw[i].value { assert raw[..i + 1][i] == Some(p); }
    }
  }

  /** The next root that no kept one contains is kept beside them all. */
  lemma KeepNext(sorted: seq<Path>, i: nat, filtered: seq<Path>)
    requires Ascends(sorted, true) && i < |sorted| && KeptSoFar(sorted, i, filtered) && Antichain(filtered)
    requires forall q :: q in filtered ==> !(q <= sorted[i])
    ensures Retain(filtered, sorted[i]) == filtered && Antichain(filtered + [sorted[i]])
  {
    forall k | 0 <= k < |filtered| ensures !(sorted[i] <= filtered[k]) && !(filtered[k] <= sorted[i]) {
      assert filtered[k] in filtered;
      var n :| 0 <= n < i && sorted[n] == filtered[k];
      NothingToRetract(sorted, i, n);
    }
    RetainAll(filtered, sorted[i]);
  }

  method FilterDominated(sorted: seq<Path>) returns (filtered: seq<Path>)
    requires Ascends(sorted, true)
    ensures forall p :: p in filtered <==> Topmost(ToSet(sorted), p)
    ensures Antichain(filtered)
  {
    filtered := [];
    for i := 0 to |sorted|
      invariant KeptSoFar(sorted, i, filtered)
      invariant Antichain(filtered)
    {
      DominatedIff(sorted, i, filtered);
      assert sorted[..i + 1] == sorted[..i] + [sorted[i]];
      if !(exists q :: q in filtered && q <= sorted[i]) {
        KeepNext(sorted, i, filtered);
        filtered := Retain(filtered, sorted[i]);
        filtered := filtered + [sorted[i]];
      }
    }
    assert sorted[..|sorted|] == sorted;
    forall p ensures p in filtered <==> Topmost(ToSet(sorted), p) {
      assert p in ToSet(sorted) <==> p in sorted;
    }
  }

  /** Every given path lies under exactly one of the topmost roots. */
  lemma RootsCover(all: set<Path>, roots: seq<Path>, p: Path)
    requires p in all && Antichain(roots)
    requires forall q :: q in roots <==> Topmost(all, q)
    ensures CoveredOnce(roots, p)
  {
    var t := TopmostAbove(all, p);
    assert t in roots;
    var k :| 0 <= k < |roots| && roots[k] == t;
    forall j | 0 <= j < |roots| && roots[j] <= p ensures j == k {
      assert roots[j] in roots;
      TopmostUnique(all, p, roots[j], t);
    }
  }
}
