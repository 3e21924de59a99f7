/**
 * Ambiguous global backups over several runs: an ambiguity lasts as long as the operations that
 * cause it, and a later run gives the backup to the last path that is still pending.
 */
module AmbiguousRuns {
  import opened Common
  import opened BackupNames
  import opened CrashRecovery
  import opened CrashSafety
  import opened RecoveryRuns

  // ----- when a global backup is selected -----

  /** One operation is on `p`, and it is the only one on a file of that name. */
  ghost predicate OnlyOp(s: State, p: Path) {
    exists id :: id in s.pending && s.pending[id] == p &&
      forall k :: k in s.pending && FileName(s.pending[k]) == FileName(p) ==> k == id
  }

  /** At any point of any history, a run selects `e` for `p` exactly when no other operation has that name. */
  lemma {:induction false} SelectedIffOnlyOp(l: Layout, s: State, plan: Plan, e: Path, p: Path)
    requires Reads(l, s, plan) && e in s.files && CouldBelong(l, e, p) && !l.sibling(e)
    ensures Orphan(e, p) in plan.Orphans() <==> OnlyOp(s, p)
  {
    var name := FileName(p).value;
    SelectedMeans(l, s, plan, Orphan(e, p));
    PendingListed(plan.listing, s, p);
    MatchMeans(e, plan.listing, l.isUuid, p);
    NamedPathsCount(plan.listing, name);
    if OnlyOp(s, p) {
      OneNamed(plan.listing, s, p);
    } else if Orphan(e, p) in plan.Orphans() {
      ManyNamed(plan.listing, s, p);
    }
  }

  lemma {:induction false} OneNamed(listing: seq<PendingOp>, s: State, p: Path)
    requires Lists(listing, s.pending) && OnlyOp(s, p) && FileName(p).Some?
    ensures NamedPaths(listing, FileName(p).value) == [p]
  {
    var name := FileName(p).value;
    var id :| id in s.pending && s.pending[id] == p &&
      forall k :: k in s.pending && FileName(s.pending[k]) == FileName(p) ==> k == id;
    assert OpsNamed(listing, name) == {PendingOp(id, p)};
    NamedPathsCount(listing, name);
    NamedPathsMembers(listing, name, p);
    PendingListed(listing, s, p);
    assert Pending(s, p);
  }

  lemma {:induction false} ManyNamed(listing: seq<PendingOp>, s: State, p: Path)
    requires Lists(listing, s.pending) && !OnlyOp(s, p) && FileName(p).Some? && Pending(s, p)
    ensures |NamedPaths(listing, FileName(p).value)| > 1
  {
    var name := FileName(p).value;
    var id :| id in s.pending && s.pending[id] == p;
    var k :| k in s.pending && FileName(s.pending[k]) == FileName(p) && k != id;
    var two := {PendingOp(id, p), PendingOp(k, s.pending[k])};
    assert two <= OpsNamed(listing, name);
    SubsetCardinality(two, OpsNamed(listing, name));
    NamedPathsCount(listing, name);
  }

  // ----- a history in which a backup goes to the wrong path -----

  /** A global backup `e` with two candidates, one of which has a sibling backup `d`. */
  ghost predicate TwoCandidates(l: Layout, s: State, e: Path, d: Path, p: Path, q: Path) {
    && Separate(l, s) && s.files.Keys == {e, d} && s.pending == map["1" := p, "2" := q] && p != q
    && CouldBelong(l, e, p) && FileName(p) == FileName(q)
    && l.sibling(d) && InferOriginal(d, l.normalize) == Some(q)
  }

  /** The first run selects `d` alone. */
  lemma {:induction false} FirstSelection(l: Layout, s: State, plan: Plan, e: Path, d: Path, p: Path, q: Path)
    requires TwoCandidates(l, s, e, d, p, q) && Reads(l, s, plan)
    ensures Orphan(d, q) in plan.Orphans() && forall o :: o in plan.Orphans() ==> o == Orphan(d, q)
    ensures |GlobalMatches(e, plan.listing, l.isUuid)| > 1
  {
    assert !l.sibling(e) && !l.global(d);
    assert s.pending["1"] == p && s.pending["2"] == q;
    assert Pending(s, p) && Pending(s, q);
    SelectedMeans(l, s, plan, Orphan(d, q));
    ManyNamed(plan.listing, s, p);
    MatchMeans(e, plan.listing, l.isUuid, p);
    forall o | o in plan.Orphans() ensures o == Orphan(d, q) {
      SelectedMeans(l, s, plan, o);
      assert o == Orphan(o.backup, o.original);
    }
  }

  /** A failure-free run of it keeps `e` and deletes the operation of `q` alone. */
  lemma {:induction false} FirstRun(l: Layout, s: State, plan: Plan, e: Path, d: Path, p: Path, q: Path, f: Oracle)
    requires TwoCandidates(l, s, e, d, p, q) && Reads(l, s, plan) && Calm(f)
    ensures var t := AfterRun(Tick(Sys(s.files, s.pending, 0)), plan, f);
            e in t.files && t.files[e] == s.files[e] && t.pending == map["1" := p]
  {
    var s1 := Tick(Sys(s.files, s.pending, 0));
    FirstSelection(l, s, plan, e, d, p, q);
    CalmRun(s1, plan, f);
    assert q == s.pending["2"];
    OutcomeElsewhere(s.files, plan.Orphans(), |plan.Orphans()|, e);
    FirstDeletes(l, s, plan, e, d, p, q, f);
  }

  /** An operation on a path without a selected backup stays while anything is selected. */
  lemma {:induction false} OpStays(s: State, plan: Plan, log: seq<Moment>, id: string)
    requires Lists(plan.listing, s.pending) && RunLog(plan, s, log) && plan.Orphans() != [] && id in s.pending
    requires forall d :: Orphan(d, s.pending[id]) !in plan.Orphans()
    ensures id in Final(s, log).pending
  {
    if id !in Final(s, log).pending { DeletionsJustified(plan, s, log, id); }
  }

  /** A failure-free run deletes the operations on the first selected path. */
  lemma {:induction false} OpGoes(s: Sys, plan: Plan, f: Oracle, id: string)
    requires Lists(plan.listing, s.pending) && Calm(f) && plan.Orphans() != [] && id in s.pending
    requires plan.Orphans()[0].backup in s.files && s.pending[id] == plan.Orphans()[0].original
    ensures id !in AfterRun(s, plan, f).pending && SubMap(AfterRun(s, plan, f).pending, s.pending)
  {
    CalmOrphans(s, plan.mode, plan.listing, plan.Orphans(), |plan.Orphans()|, f);
    var q := plan.Orphans()[0].original;
    var i :| 0 <= i < |plan.listing| && plan.listing[i] == PendingOp(id, q);
    assert id in Ids(plan.listing, |plan.listing|, r => r == q);
  }

  lemma {:induction false} FirstDeletes(l: Layout, s: State, plan: Plan, e: Path, d: Path, p: Path, q: Path, f: Oracle)
    requires TwoCandidates(l, s, e, d, p, q) && Reads(l, s, plan) && Calm(f)
    ensures AfterRun(Tick(Sys(s.files, s.pending, 0)), plan, f).pending == map["1" := p]
  {
    var s1 := Tick(Sys(s.files, s.pending, 0));
    FirstSelection(l, s, plan, e, d, p, q);
    assert plan.Orphans()[0] in plan.Orphans();
    assert s.pending["1"] == p && s.pending["2"] == q;
    OpGoes(s1, plan, f, "2");
    var log := RunLogged(plan, s1, f);
    OpStays(s, plan, log, "1");
  }

  /** The next one selects `e` for `p`, and restores it. */
  lemma {:induction false} SecondRun(l: Layout, s: State, plan: Plan, e: Path, p: Path, f: Oracle)
    requires Separate(l, s) && Reads(l, s, plan) && Calm(f) && s.pending == map["1" := p]
    requires e in s.files && CouldBelong(l, e, p)
    requires forall b :: b in s.files && l.sibling(b) ==> InferOriginal(b, l.normalize) != Some(p)
    requires forall c :: c in s.files && CouldBelong(l, c, p) ==> c == e
    ensures var t := AfterRun(Tick(Sys(s.files, s.pending, 0)), plan, f);
            e !in t.files && p in t.files && t.files[p] == s.files[e]
  {
    assert !l.sibling(e) && s.pending["1"] == p;
    SelectedIffOnlyOp(l, s, plan, e, p);
    CalmRun(Tick(Sys(s.files, s.pending, 0)), plan, f);
    var orphans := plan.Orphans();
    forall o | o in orphans ensures o == Orphan(e, p) && o.backup in s.files { OnlyOrphan(l, s, plan, e, p, o); }
    ReadUnentangled(l, s, s, plan);
    var i :| 0 <= i < |orphans| && orphans[i] == Orphan(e, p);
    OutcomeRestores(s.files, orphans, |orphans|, p);
    OutcomeBackups(AlwaysRecover, s.files, orphans, |orphans|, Orphan(e, p));
  }

  lemma {:induction false} OnlyOrphan(l: Layout, s: State, plan: Plan, e: Path, p: Path, o: Orphan)
    requires Reads(l, s, plan) && s.pending == map["1" := p] && o in plan.Orphans()
    requires forall b :: b in s.files && l.sibling(b) ==> InferOriginal(b, l.normalize) != Some(p)
    requires forall c :: c in s.files && CouldBelong(l, c, p) ==> c == e
    ensures o == Orphan(e, p) && o.backup in s.files
  {
    SelectedMeans(l, s, plan, o);
    MatchMeans(o.backup, plan.listing, l.isUuid, p);
    assert o == Orphan(o.backup, o.original);
  }

  /**
   * Two failure-free runs: the first finds `e` ambiguous, leaves it alone and resolves the other
   * candidate `q`; the second gives `e` to `p`, whoever it was a backup of, and removes it.
   */
  lemma {:induction false} AmbiguityPasses(l: Layout, s: State, e: Path, d: Path, p: Path, q: Path, f: Oracle)
    returns (first: Plan, t: Sys, second: Plan, u: Sys)
    requires TwoCandidates(l, s, e, d, p, q) && Calm(f)
    ensures Reads(l, s, first) && t == AfterRun(Tick(Sys(s.files, s.pending, 0)), first, f)
    ensures Reads(l, State(t.files, t.pending), second)
    ensures u == AfterRun(Tick(Sys(t.files, t.pending, 0)), second, f)
    ensures |GlobalMatches(e, first.listing, l.isUuid)| > 1 && e in t.files && t.files[e] == s.files[e]
    ensures e !in u.files && p in u.files && u.files[p] == s.files[e]
  {
    first := CanRead(l, s);
    FirstSelection(l, s, first, e, d, p, q);
    FirstRun(l, s, first, e, d, p, q, f);
    t := AfterRun(Tick(Sys(s.files, s.pending, 0)), first, f);
    var s1 := State(t.files, t.pending);
    LeftForSecond(l, s, first, e, d, p, q, f);
    second := CanRead(l, s1);
    SecondRun(l, s1, second, e, p, f);
    u := AfterRun(Tick(Sys(t.files, t.pending, 0)), second, f);
  }

  lemma {:induction false} LeftForSecond(l: Layout, s: State, plan: Plan, e: Path, d: Path, p: Path, q: Path, f: Oracle)
    requires TwoCandidates(l, s, e, d, p, q) && Reads(l, s, plan) && Calm(f)
    ensures var t := AfterRun(Tick(Sys(s.files, s.pending, 0)), plan, f);
            && Separate(l, State(t.files, t.pending))
            && (forall b :: b in t.files && l.sibling(b) ==> InferOriginal(b, l.normalize) != Some(p))
            && (forall c :: c in t.files && CouldBelong(l, c, p) ==> c == e)
  {
    var log := RunLogged(plan, Tick(Sys(s.files, s.pending, 0)), f);
    RunSince(l, s, s, plan, log);
    assert s.pending["1"] == p;
  }

  // ----- the exact condition for ambiguous paths -----

  ghost predicate IsOther(p: Path, r: Path) {
    r != p && FileName(r) == FileName(p)
  }

  /** Resolve every other path with the name of `p`, and fail everywhere else. */
  ghost function ClearDeeds(orphans: seq<Orphan>, p: Path): (deeds: seq<Deed>)
    ensures |deeds| == |orphans|
  {
    seq(|orphans|, i requires 0 <= i < |orphans| => if IsOther(p, orphans[i].original) then Move else Skip)
  }

  /** Where the backup is gone, so are the operations. */
  ghost predicate GoneTogether(plan: Plan, t: State) {
    forall o :: o in plan.Orphans() && o.backup !in t.files ==>
      t.pending.Keys !! Ids(plan.listing, |plan.listing|, r => r == o.original)
  }

  lemma {:induction false} MoveKeepsTogether(plan: Plan, t: State, o: Orphan)
    requires Unentangled(plan.Orphans()) && o in plan.Orphans() && GoneTogether(plan, t) && o.backup in t.files
    ensures GoneTogether(plan, ActOn(Move, t, plan.listing, o))
  {
    var u := ActOn(Move, t, plan.listing, o);
    forall x | x in plan.Orphans() && x.backup !in u.files
      ensures u.pending.Keys !! Ids(plan.listing, |plan.listing|, r => r == x.original)
    {
      assert !Entangles(o, x) && !Entangles(x, o);
      if x.backup == o.backup { assert x.original == o.original; }
    }
  }

  lemma {:induction false} ActedSub(s: State, plan: Plan, deeds: seq<Deed>, n: nat)
    requires n <= |plan.Orphans()| == |deeds|
    ensures SubMap(Acted(s, plan, deeds, n).pending, s.pending)
  {
    if n > 0 { ActedSub(s, plan, deeds, n - 1); }
  }

  lemma {:induction false} ClearTogether(s: State, plan: Plan, p: Path, n: nat)
    requires Unentangled(plan.Orphans()) && n <= |plan.Orphans()| && Ready(plan, s)
    ensures GoneTogether(plan, Acted(s, plan, ClearDeeds(plan.Orphans(), p), n))
  {
    if n > 0 {
      var deeds := ClearDeeds(plan.Orphans(), p);
      ClearTogether(s, plan, p, n - 1);
      var t, o := Acted(s, plan, deeds, n - 1), plan.Orphans()[n - 1];
      assert o in plan.Orphans();
      if IsOther(p, o.original) && o.backup in t.files {
        MoveKeepsTogether(plan, t, o);
      } else {
        assert Acted(s, plan, deeds, n) == t;
      }
    }
  }

  lemma {:induction false} ClearGone(s: State, plan: Plan, p: Path, n: nat, i: nat)
    requires Unentangled(plan.Orphans()) && i < n <= |plan.Orphans()| && IsOther(p, plan.Orphans()[i].original)
    ensures plan.Orphans()[i].backup !in Acted(s, plan, ClearDeeds(plan.Orphans(), p), n).files
  {
    var o := plan.Orphans()[n - 1];
    assert o in plan.Orphans() && plan.Orphans()[i] in plan.Orphans() && !Entangles(o, plan.Orphans()[i]);
    if i < n - 1 { ClearGone(s, plan, p, n - 1, i); }
  }

  /** What belongs to `p` stays. */
  lemma {:induction false} ClearKeeps(s: State, plan: Plan, p: Path, n: nat, c: Path, id: string)
    requires n <= |plan.Orphans()| && Lists(plan.listing, s.pending) && c in s.files && id in s.pending &&
             s.pending[id] == p
    requires forall o :: o in plan.Orphans() && IsOther(p, o.original) ==> o.backup != c
    ensures var t := Acted(s, plan, ClearDeeds(plan.Orphans(), p), n); c in t.files && id in t.pending
  {
    if n > 0 {
      ClearKeeps(s, plan, p, n - 1, c, id);
      var o := plan.Orphans()[n - 1];
      assert o in plan.Orphans();
      if IsOther(p, o.original) { NotItsId(plan.listing, s, p, id, o.original); }
    }
  }

  lemma {:induction false} NotItsId(listing: seq<PendingOp>, s: State, p: Path, id: string, q: Path)
    requires Lists(listing, s.pending) && id in s.pending && s.pending[id] == p && q != p
    ensures id !in Ids(listing, |listing|, r => r == q)
  {
    forall i | 0 <= i < |listing| && listing[i].id == id ensures listing[i].path == p { assert listing[i] in listing; }
  }

  ghost predicate OneOp(s: State, p: Path) {
    forall i, j :: i in s.pending && j in s.pending && s.pending[i] == p == s.pending[j] ==> i == j
  }

  /** Every other path with the name of `p` has a selected backup. */
  ghost predicate AllCanGo(s0: State, plan0: Plan, p: Path) {
    forall q :: !CannotGo(s0, plan0, p, q)
  }

  /** The backup that `p` has, and one that is ambiguous because of other operations with its name. */
  ghost predicate Contested(l: Layout, s0: State, plan0: Plan, b: Path, e: Path, p: Path) {
    && Reads(l, s0, plan0) && Separate(l, s0) && OneOp(s0, p) && AllCanGo(s0, plan0, p)
    && Orphan(b, p) in plan0.Orphans() && l.sibling(b) && e in s0.files && CouldBelong(l, e, p) && !OnlyOp(s0, p)
  }

  lemma {:induction false} ContestedSelection(l: Layout, s0: State, plan0: Plan, b: Path, e: Path, p: Path, o: Orphan)
    requires Contested(l, s0, plan0, b, e, p) && o in plan0.Orphans()
    ensures o.backup != e && (o.backup == b ==> o.original == p)
  {
    SelectedMeans(l, s0, plan0, o);
    SelectedMeans(l, s0, plan0, Orphan(b, p));
    assert !(l.sibling(e) && l.global(e)) && !(l.sibling(b) && l.global(b));
    if o.backup == e {
      MatchMeans(e, plan0.listing, l.isUuid, p);
      MatchMeans(e, plan0.listing, l.isUuid, o.original);
      PendingListed(plan0.listing, s0, p);
      assert o == Orphan(e, p);
      SelectedIffOnlyOp(l, s0, plan0, e, p);
    }
  }

  /** A run that clears the way: afterwards `p` is the only pending path of its name, and both backups are there. */
  lemma {:induction false} OthersGo(l: Layout, s0: State, plan0: Plan, b: Path, e: Path, p: Path)
    returns (log: seq<Moment>)
    requires Contested(l, s0, plan0, b, e, p)
    ensures RunLog(plan0, s0, log) && ByCode(s0, plan0, Final(s0, log)) && Since(l, s0, Final(s0, log))
    ensures b in Final(s0, log).files && e in Final(s0, log).files && OnlyOp(Final(s0, log), p)
  {
    var orphans, deeds := plan0.Orphans(), ClearDeeds(plan0.Orphans(), p);
    SelectedMeans(l, s0, plan0, Orphan(b, p));
    forall o | o in orphans ensures o.backup in s0.files { SelectedMeans(l, s0, plan0, o); }
    log := DeedsHappen(s0, plan0, deeds);
    RunSince(l, s0, s0, plan0, log);
    var id :| id in s0.pending && s0.pending[id] == p;
    forall o | o in orphans ensures o.backup != e && (o.backup == b ==> o.original == p) {
      ContestedSelection(l, s0, plan0, b, e, p, o);
    }
    ClearKeeps(s0, plan0, p, |orphans|, b, id);
    ClearKeeps(s0, plan0, p, |orphans|, e, id);
    forall q | IsOther(p, q) ensures !Pending(Final(s0, log), q) {
      if Pending(Final(s0, log), q) { OtherIsGone(l, s0, plan0, p, q, Final(s0, log)); }
    }
    OnlyOneLeft(s0, Final(s0, log), p, id);
  }

  lemma {:induction false} OnlyOneLeft(s0: State, t: State, p: Path, id: string)
    requires SubMap(t.pending, s0.pending) && OneOp(s0, p) && id in t.pending && t.pending[id] == p
    requires forall q :: IsOther(p, q) ==> !Pending(t, q)
    ensures OnlyOp(t, p)
  {
    forall k | k in t.pending && FileName(t.pending[k]) == FileName(p) ensures k == id {
      assert Pending(t, t.pending[k]);
    }
  }

  lemma {:induction false} OtherIsGone(l: Layout, s0: State, plan0: Plan, p: Path, q: Path, t: State)
    requires Reads(l, s0, plan0) && Separate(l, s0) && AllCanGo(s0, plan0, p) && IsOther(p, q) && Since(l, s0, t)
    requires t == Acted(s0, plan0, ClearDeeds(plan0.Orphans(), p), |plan0.Orphans()|)
    ensures !Pending(t, q)
  {
    if Pending(t, q) {
      var id :| id in t.pending && t.pending[id] == q;
      assert Pending(s0, q) && !CannotGo(s0, plan0, p, q);
      var d :| Orphan(d, q) in plan0.Orphans();
      var i: nat :| i < |plan0.Orphans()| && plan0.Orphans()[i] == Orphan(d, q);
      forall o | o in plan0.Orphans() ensures o.backup in s0.files { SelectedMeans(l, s0, plan0, o); }
      ReadUnentangled(l, s0, s0, plan0);
      ClearTogether(s0, plan0, p, |plan0.Orphans()|);
      ActedSub(s0, plan0, ClearDeeds(plan0.Orphans(), p), |plan0.Orphans()|);
      ClearGone(s0, plan0, p, |plan0.Orphans()|, i);
      NothingPending(plan0.listing, s0, t, q);
    }
  }

  /** So a later run has two backups for `p`, and may leave junk in it for good. */
  lemma {:induction false} ContestedEndsBadly(l: Layout, s0: State, plan0: Plan, b: Path, e: Path, p: Path)
    requires Contested(l, s0, plan0, b, e, p)
    ensures !EndsWell(l, s0, plan0, p) && !EndsWellUncut(l, s0, plan0, p)
  {
    var log := OthersGo(l, s0, plan0, b, e, p);
    FirstOfHistory(l, s0, plan0, log);
    OriginalsArePending(l, s0, s0, plan0, Orphan(b, p));
    var plan := CanRead(l, Final(s0, log));
    BothSelected(l, s0, plan0, b, e, p, Final(s0, log), plan);
    SpoiledLater(l, s0, plan0, [CutRun(plan0, log)], plan, b, e, p);
  }

  /** Two backups of `p` in a later selection. */
  lemma {:induction false} SpoiledLater(l: Layout, s0: State, plan0: Plan, runs: seq<CutRun>, plan: Plan, b: Path,
                                        e: Path, p: Path)
    requires History(l, s0, runs) && AllByCode(s0, runs) && runs != [] && runs[0].plan == plan0
    requires Reads(l, After(s0, runs), plan) && Separate(l, After(s0, runs)) && !l.IsPlace(p)
    requires Orphan(b, p) in plan.Orphans() && Orphan(e, p) in plan.Orphans() && b != e
    ensures !EndsWell(l, s0, plan0, p) && !EndsWellUncut(l, s0, plan0, p)
  {
    var i, j := TwoPlaces(plan.Orphans(), Orphan(b, p), Orphan(e, p));
    var junk := NewBytes(s0.files);
    var log := SecondRestoreSpoils(l, After(s0, runs), plan, p, i, j, junk);
    OneMoreRun(l, s0, runs, CutRun(plan, log));
    JunkStays(l, s0, plan0, runs + [CutRun(plan, log)], p, junk);
  }

  lemma {:induction false} BothSelected(l: Layout, s0: State, plan0: Plan, b: Path, e: Path, p: Path, s: State,
                                        plan: Plan)
    requires Contested(l, s0, plan0, b, e, p) && Since(l, s0, s) && Reads(l, s, plan)
    requires b in s.files && e in s.files && OnlyOp(s, p)
    ensures Separate(l, s) && b != e && Orphan(b, p) in plan.Orphans() && Orphan(e, p) in plan.Orphans()
  {
    assert !(l.sibling(e) && l.global(e)) && !(l.sibling(b) && l.global(b));
    assert Pending(s, p);
    SelectedMeans(l, s0, plan0, Orphan(b, p));
    SelectedMeans(l, s, plan, Orphan(b, p));
    SelectedIffOnlyOp(l, s, plan, e, p);
  }

  /** An ambiguous path has a contested global backup, and its own is a sibling. */
  lemma {:induction false} AmbiguousIsContested(l: Layout, s0: State, plan0: Plan, b: Path, p: Path) returns (e: Path)
    requires Reads(l, s0, plan0) && Separate(l, s0) && p in plan0.ambiguous && OneOp(s0, p) && AllCanGo(s0, plan0, p)
    requires Orphan(b, p) in plan0.Orphans()
    ensures Contested(l, s0, plan0, b, e, p)
  {
    var found, entries :|
      Scans(l, s0.files, found, entries) && DerivedFrom(plan0, found, entries, l.normalize, l.isUuid);
    AmbiguousMembers(entries, plan0.listing, l.isUuid, p);
    e :| e in entries && |GlobalMatches(e, plan0.listing, l.isUuid)| > 1 &&
      p in GlobalMatches(e, plan0.listing, l.isUuid);
    MatchMeans(e, plan0.listing, l.isUuid, p);
    SelectedMeans(l, s0, plan0, Orphan(e, p));
    assert !(l.sibling(e) && l.global(e));
    SelectedIffOnlyOp(l, s0, plan0, e, p);
    SelectedMeans(l, s0, plan0, Orphan(b, p));
    if GlobalMatches(b, plan0.listing, l.isUuid) == [p] { SameNameSameMatches(b, e, plan0.listing, l.isUuid, p); }
  }

  /** The selection has one backup for `p`, and `p` is not ambiguous or stays so while it is pending. */
  ghost predicate Settles(s0: State, plan0: Plan, p: Path) {
    OneBackup(plan0, p) && (p !in plan0.ambiguous || !AllCanGo(s0, plan0, p))
  }

  /**
   * After any number of runs cut off anywhere and a failure-free one, a path of the first selection
   * holds the bytes of one of its backups, in every such history, if and only if the selection has
   * one backup for it and, if it is ambiguous, some other operation with its name cannot go. The
   * same condition is exact for histories of whole runs.
   */
  lemma {:induction false} RestoredInTheEndIff(l: Layout, s0: State, plan0: Plan, p: Path)
    requires Reads(l, s0, plan0) && Separate(l, s0) && HasBackup(plan0.Orphans(), p)
    requires p in plan0.ambiguous ==> OneOp(s0, p)
    ensures EndsWell(l, s0, plan0, p) <==> Settles(s0, plan0, p)
    ensures EndsWellUncut(l, s0, plan0, p) <==> Settles(s0, plan0, p)
  {
    var b :| Orphan(b, p) in plan0.Orphans();
    if !OneBackup(plan0, p) {
      SeveralBackupsEndBadly(l, s0, plan0, p);
    } else if p !in plan0.ambiguous {
      OneBackupEndsWell(Case(l, s0, plan0, b, p, None));
    } else if q :| CannotGo(s0, plan0, p, q) {
      OneBackupEndsWell(Case(l, s0, plan0, b, p, Some(q)));
    } else {
      var e := AmbiguousIsContested(l, s0, plan0, b, p);
      ContestedEndsBadly(l, s0, plan0, b, e, p);
    }
  }
}
