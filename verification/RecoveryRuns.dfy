/**
 * Recovery over several runs: each run may be cut off anywhere and the next one lists the disk and
 * the pending operations again. Does a path end up with the bytes of a backup?
 */
module RecoveryRuns {
  import opened Common
  import opened BackupNames
  import opened CrashRecovery
  import opened CrashSafety

  /** Where backups live, and how their names are read. */
  datatype Layout = Layout(sibling: Path -> bool, global: Path -> bool, normalize: Path -> Path, isUuid: string -> bool)
  {
    predicate IsPlace(p: Path) { sibling(p) || global(p) }
  }

  ghost predicate Scans(l: Layout, files: map<Path, Content>, found: seq<Path>, entries: seq<Path>) {
    && (forall b :: b in found <==> b in files && l.sibling(b))
    && (forall e :: e in entries <==> e in files && l.global(e))
  }

  /** `plan` is what a run in recover mode derives from the disk and the table of `s`. */
  ghost predicate Reads(l: Layout, s: State, plan: Plan) {
    && plan.mode.AlwaysRecover? && Lists(plan.listing, s.pending)
    && exists found, entries ::
      Scans(l, s.files, found, entries) && DerivedFrom(plan, found, entries, l.normalize, l.isUuid)
  }

  /** The two layouts do not overlap, and no pending path is a place for backups. */
  ghost predicate Separate(l: Layout, s: State) {
    (forall b :: !(l.sibling(b) && l.global(b))) && forall id :: id in s.pending ==> !l.IsPlace(s.pending[id])
  }

  /** Since `s0`, operations were only deleted, and places for backups only lost files. */
  ghost predicate Since(l: Layout, s0: State, s: State) {
    && SubMap(s.pending, s0.pending)
    && forall b :: b in s.files && l.IsPlace(b) ==> b in s0.files && s.files[b] == s0.files[b]
  }

  ghost predicate Pending(s: State, p: Path) {
    exists id :: id in s.pending && s.pending[id] == p
  }

  // ----- selections of later runs -----

  lemma {:induction false} PendingListed(listing: seq<PendingOp>, s: State, p: Path)
    requires Lists(listing, s.pending)
    ensures p in PendingPaths(listing) <==> Pending(s, p)
  {
    if p in PendingPaths(listing) {
      var op :| op in listing && op.path == p;
      assert op.id in s.pending;
    }
    if id :| id in s.pending && s.pending[id] == p {
      assert PendingOp(id, p) in listing;
    }
  }

  /** What it means to be selected, in terms of disk and table. */
  lemma {:induction false} SelectedMeans(l: Layout, s: State, plan: Plan, o: Orphan)
    requires Reads(l, s, plan)
    ensures o in plan.Orphans() <==>
            && o.backup in s.files && Pending(s, o.original)
            && ((l.sibling(o.backup) && InferOriginal(o.backup, l.normalize) == Some(o.original)) ||
                (l.global(o.backup) && GlobalMatches(o.backup, plan.listing, l.isUuid) == [o.original]))
  {
    var found, entries :| Scans(l, s.files, found, entries) && DerivedFrom(plan, found, entries, l.normalize, l.isUuid);
    OrphansOfMembers(plan.backups, plan.listing, o);
    SiblingMembers(found, l.normalize, o);
    GlobalMembers(entries, plan.listing, l.isUuid, o);
    PendingListed(plan.listing, s, o.original);
  }

  lemma {:induction false} AmbiguousMeans(l: Layout, s: State, plan: Plan, e: Path, p: Path)
    requires Reads(l, s, plan) && e in s.files && l.global(e) && p !in plan.ambiguous
    requires p in GlobalMatches(e, plan.listing, l.isUuid)
    ensures GlobalMatches(e, plan.listing, l.isUuid) == [p]
  {
    var found, entries :| Scans(l, s.files, found, entries) && DerivedFrom(plan, found, entries, l.normalize, l.isUuid);
    AmbiguousMembers(entries, plan.listing, l.isUuid, p);
    var m := GlobalMatches(e, plan.listing, l.isUuid);
    assert |m| == 1 && m == [m[0]];
  }

  lemma {:induction false} MatchMeans(e: Path, pending: seq<PendingOp>, isUuid: string -> bool, p: Path)
    ensures p in GlobalMatches(e, pending, isUuid) <==>
            FileName(e).Some? && ParseGlobal(FileName(e).value, isUuid).Some?
            && FileName(p) == ParseGlobal(FileName(e).value, isUuid) && p in PendingPaths(pending)
  {
    if FileName(e).Some? && ParseGlobal(FileName(e).value, isUuid).Some? {
      NamedPathsMembers(pending, ParseGlobal(FileName(e).value, isUuid).value, p);
    }
  }

  /** The listed operations on files called `name`. */
  ghost function OpsNamed(listing: seq<PendingOp>, name: string): set<PendingOp> {
    set op | op in listing && FileName(op.path) == Some(name)
  }

  lemma {:induction false} NamedPathsCount(listing: seq<PendingOp>, name: string)
    requires forall i, j :: 0 <= i < j < |listing| ==> listing[i].id != listing[j].id
    ensures |NamedPaths(listing, name)| == |OpsNamed(listing, name)|
  {
    if listing != [] {
      var front, op := listing[..|listing| - 1], listing[|listing| - 1];
      NamedPathsCount(front, name);
      assert listing == front + [op];
      assert op !in front;
      assert OpsNamed(listing, name) == OpsNamed(front, name) + if FileName(op.path) == Some(name) then {op} else {};
    }
  }

  /** A global backup that belongs to one pending path still does while that path is pending. */
  lemma {:induction false} MatchPersists(s0: State, listing0: seq<PendingOp>, s: State, listing: seq<PendingOp>,
                                         e: Path, isUuid: string -> bool, p: Path)
    requires Lists(listing0, s0.pending) && Lists(listing, s.pending) && SubMap(s.pending, s0.pending)
    requires GlobalMatches(e, listing0, isUuid) == [p] && Pending(s, p)
    ensures GlobalMatches(e, listing, isUuid) == [p]
  {
    MatchMeans(e, listing0, isUuid, p);
    PendingListed(listing, s, p);
    MatchMeans(e, listing, isUuid, p);
    var name := ParseGlobal(FileName(e).value, isUuid).value;
    NamedPathsCount(listing0, name);
    NamedPathsCount(listing, name);
    assert OpsNamed(listing, name) <= OpsNamed(listing0, name) by {
      forall op | op in listing ensures op in listing0 { assert PendingOp(op.id, s0.pending[op.id]) in listing0; }
    }
    SubsetCardinality(OpsNamed(listing, name), OpsNamed(listing0, name));
    var m := GlobalMatches(e, listing, isUuid);
    assert |m| == 1 && m == [m[0]];
  }

  /** Going by its name, the global backup `c` could belong to `p`. */
  ghost predicate CouldBelong(l: Layout, c: Path, p: Path) {
    && l.global(c) && FileName(c).Some? && ParseGlobal(FileName(c).value, l.isUuid).Some?
    && FileName(p) == ParseGlobal(FileName(c).value, l.isUuid)
  }

  /** Another pending path with the name of `p`, and with no selected backup through which its operations could go. */
  ghost predicate CannotGo(s0: State, plan0: Plan, p: Path, q: Path) {
    && q != p && FileName(q) == FileName(p) && Pending(s0, q)
    && forall d :: Orphan(d, q) !in plan0.Orphans()
  }

  /** A first state and selection, a path `p` and its backup `b`, and a path that keeps `p` ambiguous if it is. */
  datatype Case = Case(l: Layout, s0: State, plan0: Plan, b: Path, p: Path, rival: Option<Path>)

  /** `b` is the one backup of `p` in the first selection, and `p` is not ambiguous or has a rival that cannot go. */
  ghost predicate Sole(k: Case) {
    && Reads(k.l, k.s0, k.plan0) && Separate(k.l, k.s0)
    && (if k.rival.None? then k.p !in k.plan0.ambiguous else CannotGo(k.s0, k.plan0, k.p, k.rival.value))
    && Orphan(k.b, k.p) in k.plan0.Orphans() && forall c :: Orphan(c, k.p) in k.plan0.Orphans() ==> c == k.b
  }

  /** While `p` is pending its rival is too, or there is no global backup left that could belong to it. */
  ghost predicate Blocked(k: Case, s: State) {
    k.rival.Some? && Pending(s, k.p) ==>
      Pending(s, k.rival.value) || forall c :: c in s.files ==> !CouldBelong(k.l, c, k.p)
  }

  /** A state that later runs start from. */
  ghost predicate Later(k: Case, s: State) {
    Sole(k) && Since(k.l, k.s0, s) && Blocked(k, s)
  }

  /** No later run selects another backup for `p`. */
  lemma {:induction false} OnlyBackup(k: Case, s: State, plan: Plan, c: Path)
    requires Later(k, s) && Reads(k.l, s, plan) && Orphan(c, k.p) in plan.Orphans()
    ensures c == k.b
  {
    var l, s0, plan0, p := k.l, k.s0, k.plan0, k.p;
    SelectedMeans(l, s, plan, Orphan(c, p));
    SelectedMeans(l, s0, plan0, Orphan(c, p));
    var id :| id in s.pending && s.pending[id] == p;
    assert Pending(s0, p);
    if l.global(c) && GlobalMatches(c, plan.listing, l.isUuid) == [p] {
      MatchMeans(c, plan.listing, l.isUuid, p);
      if k.rival.Some? {
        RivalMatches(k, s, plan, c);
      } else {
        PendingListed(plan0.listing, s0, p);
        MatchMeans(c, plan0.listing, l.isUuid, p);
        AmbiguousMeans(l, s0, plan0, c, p);
      }
    }
  }

  /** A global backup that could belong to `p` could belong to its rival. */
  lemma {:induction false} RivalMatches(k: Case, s: State, plan: Plan, c: Path)
    requires Later(k, s) && Reads(k.l, s, plan) && k.rival.Some?
    requires c in s.files && CouldBelong(k.l, c, k.p) && Pending(s, k.p)
    ensures Pending(s, k.rival.value)
    ensures k.p in GlobalMatches(c, plan.listing, k.l.isUuid) &&
            k.rival.value in GlobalMatches(c, plan.listing, k.l.isUuid)
  {
    PendingListed(plan.listing, s, k.p);
    PendingListed(plan.listing, s, k.rival.value);
    MatchMeans(c, plan.listing, k.l.isUuid, k.p);
    MatchMeans(c, plan.listing, k.l.isUuid, k.rival.value);
  }

  /** While it is there and `p` is pending, every run selects `b` for `p`, and for `p` alone. */
  lemma {:induction false} StillSelected(k: Case, s: State, plan: Plan)
    requires Later(k, s) && Reads(k.l, s, plan) && k.b in s.files && Pending(s, k.p)
    ensures Orphan(k.b, k.p) in plan.Orphans()
    ensures forall r :: Orphan(k.b, r) in plan.Orphans() ==> r == k.p
  {
    SelectedMeans(k.l, k.s0, k.plan0, Orphan(k.b, k.p));
    SelectedMeans(k.l, s, plan, Orphan(k.b, k.p));
    if k.l.global(k.b) { MatchPersists(k.s0, k.plan0.listing, s, plan.listing, k.b, k.l.isUuid, k.p); }
    forall r | Orphan(k.b, r) in plan.Orphans() ensures r == k.p { SelectedMeans(k.l, s, plan, Orphan(k.b, r)); }
  }

  // ----- one run, cut off anywhere -----

  /** `p` is safe: its backup is there with the bytes and `p` is pending, or `p` has the bytes. */
  ghost predicate Safe(s0: State, s: State, b: Path, p: Path) {
    && b in s0.files
    && (b in s.files ==> Pending(s, p))
    && (b !in s.files ==> p in s.files && s.files[p] == s0.files[b])
  }

  lemma {:induction false} OriginalsArePending(l: Layout, s0: State, s: State, plan: Plan, o: Orphan)
    requires Separate(l, s0) && Since(l, s0, s) && Reads(l, s, plan) && o in plan.Orphans()
    ensures !l.IsPlace(o.original) && l.IsPlace(o.backup)
  {
    SelectedMeans(l, s, plan, o);
    var id :| id in s.pending && s.pending[id] == o.original;
    assert s0.pending[id] == o.original;
  }

  /** The event at the end of a log, as a step of the selection. */
  lemma {:induction false} LastStep(plan: Plan, start: State, log: seq<Moment>)
    requires RunLog(plan, start, log) && log != [] && !log[|log| - 1].event.Deleted?
    ensures log[|log| - 1].step < |plan.Orphans()| && plan.Orphans()[log[|log| - 1].step] in plan.Orphans()
    ensures log[|log| - 1].event.backup == plan.Orphans()[log[|log| - 1].step].backup
    ensures !log[|log| - 1].event.Removed? ==>
            log[|log| - 1].event.original == plan.Orphans()[log[|log| - 1].step].original
  {
    assert InTurn(plan, log[..|log| - 1], log[|log| - 1]);
  }

  /** Within a run, operations are only deleted and places only lose files. */
  lemma {:induction false} RunSince(l: Layout, s0: State, s: State, plan: Plan, log: seq<Moment>)
    requires Separate(l, s0) && Since(l, s0, s) && Reads(l, s, plan) && RunLog(plan, s, log)
    ensures Since(l, s, Final(s, log)) && Since(l, s0, Final(s, log))
    decreases |log|
  {
    if log != [] {
      RunSince(l, s0, s, plan, log[..|log| - 1]);
      if !log[|log| - 1].event.Deleted? {
        LastStep(plan, s, log);
        OriginalsArePending(l, s0, s, plan, plan.Orphans()[log[|log| - 1].step]);
      }
    }
  }

  /** A removed place stays empty. */
  lemma {:induction false} RemovedStaysGone(l: Layout, s0: State, s: State, plan: Plan, log: seq<Moment>, b: Path)
    requires Separate(l, s0) && Since(l, s0, s) && Reads(l, s, plan) && RunLog(plan, s, log) && l.IsPlace(b)
    requires HasRemoved(log, b)
    ensures b !in Final(s, log).files
    decreases |log|
  {
    var front, m := log[..|log| - 1], log[|log| - 1];
    if m.event != Removed(b) {
      var j :| 0 <= j < |log| && log[j].event == Removed(b);
      assert front[j].event == Removed(b);
      RemovedStaysGone(l, s0, s, plan, front, b);
      if !m.event.Deleted? {
        LastStep(plan, s, log);
        OriginalsArePending(l, s0, s, plan, plan.Orphans()[m.step]);
      }
    }
  }

  /** A run keeps `p` safe at every point. */
  lemma {:induction false} RunKeepsSafe(k: Case, s: State, plan: Plan, log: seq<Moment>)
    requires Later(k, s) && Reads(k.l, s, plan) && RunLog(plan, s, log) && Safe(k.s0, s, k.b, k.p)
    ensures Safe(k.s0, Final(s, log), k.b, k.p)
    decreases |log|
  {
    if log != [] {
      var front, m := log[..|log| - 1], log[|log| - 1];
      RunKeepsSafe(k, s, plan, front);
      RunSince(k.l, k.s0, s, plan, front);
      SelectedMeans(k.l, k.s0, k.plan0, Orphan(k.b, k.p));
      if m.event.Deleted? {
        DeleteKeepsSafe(k, s, plan, log);
      } else {
        StepKeepsSafe(k, s, plan, log);
      }
    }
  }

  lemma {:induction false} StepKeepsSafe(k: Case, s: State, plan: Plan, log: seq<Moment>)
    requires Later(k, s) && Reads(k.l, s, plan) && RunLog(plan, s, log) && k.l.IsPlace(k.b)
    requires log != [] && !log[|log| - 1].event.Deleted?
    requires var t := Final(s, log[..|log| - 1]); Safe(k.s0, t, k.b, k.p) && Since(k.l, k.s0, t) && Since(k.l, s, t)
    ensures Safe(k.s0, Final(s, log), k.b, k.p)
  {
    var front, m := log[..|log| - 1], log[|log| - 1];
    LastStep(plan, s, log);
    StepUses(k, s, plan, Final(s, front), plan.Orphans()[m.step]);
    if m.event.Removed? && m.event.backup == k.b {
      assert Justified(plan, front, m.event) && InTurn(plan, front, m);
      LastStep(plan, s, front);
      RestoredJustNow(k.l, k.s0, s, plan, front, k.b, k.p);
    }
  }

  /** A step that can matter to `b` or `p` is the restore of `b` to `p`. */
  lemma {:induction false} StepUses(k: Case, s: State, plan: Plan, t: State, o: Orphan)
    requires Later(k, s) && Reads(k.l, s, plan) && o in plan.Orphans()
    requires Since(k.l, s, t) && Safe(k.s0, t, k.b, k.p)
    ensures !k.l.IsPlace(o.original) && k.l.IsPlace(o.backup) && k.l.IsPlace(k.b) && !k.l.IsPlace(k.p)
    ensures o.original == k.p ==> o.backup == k.b
    ensures o.backup == k.b && k.b in t.files ==> o.original == k.p
  {
    OriginalsArePending(k.l, k.s0, s, plan, o);
    OriginalsArePending(k.l, k.s0, k.s0, k.plan0, Orphan(k.b, k.p));
    assert o == Orphan(o.backup, o.original);
    if o.original == k.p { OnlyBackup(k, s, plan, o.backup); }
    if o.backup == k.b && k.b in t.files {
      var id :| id in t.pending && t.pending[id] == k.p;
      assert Pending(s, k.p);
      StillSelected(k, s, plan);
    }
  }

  /** The bytes are in place when a removal follows a restore. */
  lemma {:induction false} RestoredJustNow(l: Layout, s0: State, s: State, plan: Plan, log: seq<Moment>, b: Path,
                                           p: Path)
    requires RunLog(plan, s, log) && log != [] && log[|log| - 1].event == Restored(b, p)
    requires Since(l, s0, Final(s, log)) && l.IsPlace(b) && b != p && b in Final(s, log).files
    ensures p in Final(s, log).files && b in s0.files && Final(s, log).files[p] == s0.files[b]
  {
  }

  lemma {:induction false} DeleteKeepsSafe(k: Case, s: State, plan: Plan, log: seq<Moment>)
    requires Later(k, s) && Reads(k.l, s, plan) && RunLog(plan, s, log) && k.l.IsPlace(k.b)
    requires log != [] && log[|log| - 1].event.Deleted?
    requires Safe(k.s0, Final(s, log[..|log| - 1]), k.b, k.p) && Since(k.l, s, Final(s, log[..|log| - 1]))
    ensures Safe(k.s0, Final(s, log), k.b, k.p)
  {
    var front, m := log[..|log| - 1], log[|log| - 1];
    var before, id := Final(s, front), m.event.id;
    if k.b in before.files {
      var i :| i in before.pending && before.pending[i] == k.p;
      if i == id {
        assert Pending(s, k.p);
        var path :| PendingOp(id, path) in plan.listing && MayDelete(plan, front, path);
        assert PendingOp(id, path).path == s.pending[id];
        StillSelected(k, s, plan);
        var c :| HasRemoved(front, c) && Orphan(c, k.p) in plan.Orphans();
        OnlyBackup(k, s, plan, c);
        RemovedStaysGone(k.l, k.s0, s, plan, front, k.b);
      }
      assert m.after.pending[i] == k.p;
    }
  }

  /** A run leaves `p` blocked: its rival's operations have no way to go while it is pending. */
  lemma {:induction false} RunKeepsBlocked(k: Case, s: State, plan: Plan, log: seq<Moment>)
    requires Later(k, s) && Reads(k.l, s, plan) && RunLog(plan, s, log)
    ensures Blocked(k, Final(s, log))
  {
    var t, p := Final(s, log), k.p;
    RunSince(k.l, k.s0, s, plan, log);
    if k.rival.Some? && Pending(t, p) {
      var own :| own in t.pending && t.pending[own] == p;
      assert Pending(s, p);
      if c :| c in s.files && CouldBelong(k.l, c, p) {
        RivalMatches(k, s, plan, c);
        var id :| id in s.pending && s.pending[id] == k.rival.value;
        if id !in t.pending { RivalStays(k, s, plan, log, c, id); }
        assert t.pending[id] == k.rival.value;
      }
    }
  }

  lemma {:induction false} RivalStays(k: Case, s: State, plan: Plan, log: seq<Moment>, c: Path, id: string)
    requires Later(k, s) && Reads(k.l, s, plan) && RunLog(plan, s, log) && k.rival.Some?
    requires c in s.files && CouldBelong(k.l, c, k.p) && Pending(s, k.p)
    requires id in s.pending && s.pending[id] == k.rival.value
    ensures id in Final(s, log).pending
  {
    var q := k.rival.value;
    if id !in Final(s, log).pending {
      DeletionsJustified(plan, s, log, id);
      var path :| PendingOp(id, path) in plan.listing && MayDelete(plan, log, path);
      assert PendingOp(id, path).path == q;
      RivalMatches(k, s, plan, c);
      RivalNotStale(k, s, plan, c);
      var d :| HasRemoved(log, d) && Orphan(d, q) in plan.Orphans();
      RivalNotSelected(k, s, plan, c, d);
    }
  }

  lemma {:induction false} RivalNotStale(k: Case, s: State, plan: Plan, c: Path)
    requires Reads(k.l, s, plan) && k.rival.Some? && c in s.files && k.l.global(c) && k.rival.value != k.p
    requires k.p in GlobalMatches(c, plan.listing, k.l.isUuid) &&
             k.rival.value in GlobalMatches(c, plan.listing, k.l.isUuid)
    ensures k.rival.value in plan.ambiguous
  {
    var found, entries :|
      Scans(k.l, s.files, found, entries) && DerivedFrom(plan, found, entries, k.l.normalize, k.l.isUuid);
    AmbiguousMembers(entries, plan.listing, k.l.isUuid, k.rival.value);
    TwoMembers(GlobalMatches(c, plan.listing, k.l.isUuid), k.p, k.rival.value);
  }

  lemma {:induction false} RivalNotSelected(k: Case, s: State, plan: Plan, c: Path, d: Path)
    requires Later(k, s) && Reads(k.l, s, plan) && k.rival.Some?
    requires c in s.files && CouldBelong(k.l, c, k.p) && Pending(s, k.p)
    ensures Orphan(d, k.rival.value) !in plan.Orphans()
  {
    var q := k.rival.value;
    SelectedMeans(k.l, s, plan, Orphan(d, q));
    SelectedMeans(k.l, k.s0, k.plan0, Orphan(d, q));
    PendingListed(plan.listing, s, k.p);
    MatchMeans(d, plan.listing, k.l.isUuid, k.p);
    MatchMeans(d, plan.listing, k.l.isUuid, q);
  }

  // ----- any number of runs -----

  datatype CutRun = CutRun(plan: Plan, log: seq<Moment>)

  ghost function After(s: State, runs: seq<CutRun>): State {
    if runs == [] then s else Final(After(s, runs[..|runs| - 1]), runs[|runs| - 1].log)
  }

  /** Runs one after the other, each reading what the last one left and cut off anywhere. */
  ghost predicate History(l: Layout, s: State, runs: seq<CutRun>) {
    runs == [] ||
    var front, r := runs[..|runs| - 1], runs[|runs| - 1];
    History(l, s, front) && Reads(l, After(s, front), r.plan) && RunLog(r.plan, After(s, front), r.log)
  }

  lemma {:induction false} HistoryKeepsSafe(k: Case, runs: seq<CutRun>)
    requires Sole(k) && History(k.l, k.s0, runs)
    ensures Later(k, After(k.s0, runs)) && Safe(k.s0, After(k.s0, runs), k.b, k.p)
    decreases |runs|
  {
    SelectedMeans(k.l, k.s0, k.plan0, Orphan(k.b, k.p));
    if runs != [] {
      var front, r := runs[..|runs| - 1], runs[|runs| - 1];
      HistoryKeepsSafe(k, front);
      RunSince(k.l, k.s0, After(k.s0, front), r.plan, r.log);
      RunKeepsSafe(k, After(k.s0, front), r.plan, r.log);
      RunKeepsBlocked(k, After(k.s0, front), r.plan, r.log);
    }
  }

  /** A path that is neither original nor backup of a selection is left alone. */
  lemma {:induction false} OutcomeElsewhere(files: map<Path, Content>, orphans: seq<Orphan>, n: nat, p: Path)
    requires n <= |orphans| && forall o :: o in orphans ==> o.original != p && o.backup != p
    ensures p in Outcome(AlwaysRecover, files, orphans, n) <==> p in files
    ensures p in files ==> Outcome(AlwaysRecover, files, orphans, n)[p] == files[p]
  {
    if n > 0 {
      OutcomeElsewhere(files, orphans, n - 1, p);
      assert orphans[n - 1] in orphans;
    }
  }

  lemma {:induction false} ReadUnentangled(l: Layout, s0: State, s: State, plan: Plan)
    requires Separate(l, s0) && Since(l, s0, s) && Reads(l, s, plan)
    ensures Unentangled(plan.Orphans())
  {
    forall a, b | a in plan.Orphans() && b in plan.Orphans() ensures !Entangles(a, b) {
      OriginalsArePending(l, s0, s, plan, a);
      OriginalsArePending(l, s0, s, plan, b);
      SelectedMeans(l, s, plan, a);
      SelectedMeans(l, s, plan, b);
      assert !(l.sibling(a.backup) && l.global(a.backup));
    }
  }

  /** A failure-free run gives a safe path its bytes. */
  lemma {:induction false} CalmRunRestores(k: Case, s: State, plan: Plan, clock: nat, f: Oracle)
    requires Later(k, s) && Reads(k.l, s, plan) && Safe(k.s0, s, k.b, k.p) && Calm(f)
    ensures var files := AfterRun(Sys(s.files, s.pending, clock), plan, f).files;
            k.p in files && files[k.p] == k.s0.files[k.b]
  {
    CalmRun(Sys(s.files, s.pending, clock), plan, f);
    OriginalsArePending(k.l, k.s0, k.s0, k.plan0, Orphan(k.b, k.p));
    if k.b in s.files {
      RestoresFromBackup(k, s, plan);
    } else {
      forall o | o in plan.Orphans() ensures o.original != k.p && o.backup != k.p {
        OriginalsArePending(k.l, k.s0, s, plan, o);
        SelectedMeans(k.l, s, plan, o);
        assert o == Orphan(o.backup, o.original);
        if o.original == k.p { OnlyBackup(k, s, plan, o.backup); }
      }
      OutcomeElsewhere(s.files, plan.Orphans(), |plan.Orphans()|, k.p);
    }
  }

  lemma {:induction false} RestoresFromBackup(k: Case, s: State, plan: Plan)
    requires Later(k, s) && Reads(k.l, s, plan) && k.b in s.files && Pending(s, k.p) && k.l.IsPlace(k.b)
    ensures var files := Outcome(AlwaysRecover, s.files, plan.Orphans(), |plan.Orphans()|);
            k.p in files && files[k.p] == s.files[k.b]
    ensures k.b in k.s0.files && s.files[k.b] == k.s0.files[k.b]
  {
    var orphans, p := plan.Orphans(), k.p;
    StillSelected(k, s, plan);
    ReadUnentangled(k.l, k.s0, s, plan);
    forall o | o in orphans ensures o.backup in s.files { SelectedMeans(k.l, s, plan, o); }
    var i :| 0 <= i < |orphans| && orphans[i] == Orphan(k.b, p);
    OutcomeRestores(s.files, orphans, |orphans|, p);
    var j :| 0 <= j < |orphans| && orphans[j].original == p
             && Outcome(AlwaysRecover, s.files, orphans, |orphans|)[p] == s.files[orphans[j].backup];
    assert orphans[j] in orphans && orphans[j] == Orphan(orphans[j].backup, p);
    OnlyBackup(k, s, plan, orphans[j].backup);
  }

  // ----- two backups of one path -----

  lemma {:induction false} ListSet(paths: set<Path>) returns (listing: seq<Path>)
    ensures forall p :: p in listing <==> p in paths
  {
    listing := [];
    if p :| p in paths {
      listing := ListSet(paths - {p});
      listing := listing + [p];
    }
  }

  lemma {:induction false} ListTable(pending: map<string, Path>) returns (listing: seq<PendingOp>)
    ensures Lists(listing, pending)
    decreases |pending|
  {
    listing := [];
    if id :| id in pending {
      assert |(pending - {id}).Keys| < |pending.Keys| by { assert (pending - {id}).Keys == pending.Keys - {id}; }
      var rest := ListTable(pending - {id});
      listing := rest + [PendingOp(id, pending[id])];
      forall i | 0 <= i < |rest| ensures rest[i].id != id { assert rest[i] in rest; }
      forall k | k in pending ensures PendingOp(k, pending[k]) in listing {
        if k != id { assert k in pending - {id} && PendingOp(k, pending[k]) in rest; }
      }
    }
  }

  /** Every disk and table can be read. */
  lemma {:induction false} CanRead(l: Layout, s: State) returns (plan: Plan)
    ensures Reads(l, s, plan)
  {
    var found := ListSet(set b | b in s.files && l.sibling(b));
    var entries := ListSet(set b | b in s.files && l.global(b));
    var listing := ListTable(s.pending);
    plan := Plan(AlwaysRecover, listing, SiblingOrphans(found, l.normalize) + GlobalOrphans(entries, listing, l.isUuid),
                 AmbiguousPaths(entries, listing, l.isUuid), []);
    assert Scans(l, s.files, found, entries) && DerivedFrom(plan, found, entries, l.normalize, l.isUuid);
  }

  lemma {:induction false} Longer(contents: set<Content>) returns (n: nat)
    ensures forall v :: v in contents ==> |v| < n
  {
    n := 0;
    if v :| v in contents {
      n := Longer(contents - {v});
      if n <= |v| { n := |v| + 1; }
    }
  }

  /** Bytes that no file has. */
  lemma {:induction false} NewBytes(files: map<Path, Content>) returns (junk: Content)
    ensures forall p :: p in files ==> files[p] != junk
  {
    var n := Longer(files.Values);
    junk := seq(n, _ => 'x');
    forall p | p in files ensures files[p] != junk { assert files[p] in files.Values; }
  }

  lemma {:induction false} NothingPending(listing: seq<PendingOp>, s0: State, s: State, p: Path)
    requires Lists(listing, s0.pending) && SubMap(s.pending, s0.pending)
    requires s.pending.Keys !! Ids(listing, |listing|, r => r == p)
    ensures !Pending(s, p)
  {
    forall id | id in s0.pending && s0.pending[id] == p ensures id in Ids(listing, |listing|, r => r == p) {
      var i :| 0 <= i < |listing| && listing[i] == PendingOp(id, p);
    }
  }

  /** Step `i` succeeds, step `j` fails part way, every other one fails. */
  function TwoDeeds(n: nat, i: nat, j: nat, junk: Content): (deeds: seq<Deed>)
    ensures |deeds| == n
  {
    seq(n, k => if k == i then Move else if k == j then Spoil(junk) else Skip)
  }

  lemma {:induction false} TwoDeedsActed(s: State, plan: Plan, i: nat, j: nat, junk: Content, n: nat)
    requires i < j < |plan.Orphans()| && n <= |plan.Orphans()|
    requires plan.Orphans()[i].backup in s.files && plan.Orphans()[j].backup in s.files
    requires plan.Orphans()[j].backup != plan.Orphans()[i].backup
    ensures var moved := ActOn(Move, s, plan.listing, plan.Orphans()[i]);
            Acted(s, plan, TwoDeeds(|plan.Orphans()|, i, j, junk), n) ==
            if n <= i then s
            else if n <= j then moved
            else moved.(files := moved.files[plan.Orphans()[j].original := junk])
  {
    if n > 0 { TwoDeedsActed(s, plan, i, j, junk, n - 1); }
  }

  /** `t` is what a whole run of the code can leave of `s`. */
  ghost predicate ByCode(s: State, plan: Plan, t: State) {
    exists f: Oracle :: f(0).NoFault? && CodeEnds(s, plan, f, t)
  }

  ghost predicate CodeEnds(s: State, plan: Plan, f: Oracle, t: State) {
    var r := AfterRun(Tick(Sys(s.files, s.pending, 0)), plan, f);
    State(r.files, r.pending) == t
  }

  /** Deeds are acted out by a whole run of the code, and it has a log. */
  lemma {:induction false} DeedsHappen(s: State, plan: Plan, deeds: seq<Deed>) returns (log: seq<Moment>)
    requires plan.mode.AlwaysRecover? && |plan.Orphans()| == |deeds| && plan.Orphans() != []
    ensures RunLog(plan, s, log) && Final(s, log) == Acted(s, plan, deeds, |deeds|) && ByCode(s, plan, Final(s, log))
  {
    var f := CodeRunActs(s, plan, deeds);
    log := RunLogged(plan, Tick(Sys(s.files, s.pending, 0)), f);
    assert CodeEnds(s, plan, f, Final(s, log));
  }

  /**
   * With two backups of `p`: the first is restored and its operations deleted, then the restore of
   * the second fails part way. Nothing is pending for `p` any more, so no later run looks at it.
   */
  lemma {:induction false} SecondRestoreSpoils(l: Layout, s0: State, plan0: Plan, p: Path, i: nat, j: nat,
                                               junk: Content)
    returns (log: seq<Moment>)
    requires Reads(l, s0, plan0) && Separate(l, s0) && i < j < |plan0.Orphans()|
    requires plan0.Orphans()[i].original == p == plan0.Orphans()[j].original
    requires plan0.Orphans()[i].backup != plan0.Orphans()[j].backup
    ensures RunLog(plan0, s0, log) && Since(l, s0, Final(s0, log)) && !Pending(Final(s0, log), p)
    ensures p in Final(s0, log).files && Final(s0, log).files[p] == junk && ByCode(s0, plan0, Final(s0, log))
  {
    var first, second := plan0.Orphans()[i], plan0.Orphans()[j];
    assert first in plan0.Orphans() && second in plan0.Orphans();
    SelectedMeans(l, s0, plan0, first);
    SelectedMeans(l, s0, plan0, second);
    log := DeedsHappen(s0, plan0, TwoDeeds(|plan0.Orphans()|, i, j, junk));
    TwoDeedsActed(s0, plan0, i, j, junk, |plan0.Orphans()|);
    NothingPending(plan0.listing, s0, Final(s0, log), p);
    RunSince(l, s0, s0, plan0, log);
  }

  /** A run leaves alone a path that is not pending and no place for backups. */
  lemma {:induction false} CalmRunElsewhere(l: Layout, s: State, plan: Plan, p: Path, clock: nat, f: Oracle)
    requires Reads(l, s, plan) && !Pending(s, p) && !l.IsPlace(p) && Calm(f) && p in s.files
    ensures var files := AfterRun(Sys(s.files, s.pending, clock), plan, f).files; p in files && files[p] == s.files[p]
  {
    CalmRun(Sys(s.files, s.pending, clock), plan, f);
    forall o | o in plan.Orphans() ensures o.original != p && o.backup != p {
      SelectedMeans(l, s, plan, o);
    }
    OutcomeElsewhere(s.files, plan.Orphans(), |plan.Orphans()|, p);
  }

  // ----- how histories end -----

  /** Cut runs, the first with selection `plan0`, and then a failure-free one. */
  ghost predicate Ending(l: Layout, s0: State, plan0: Plan, runs: seq<CutRun>, plan: Plan, clock: nat, f: Oracle) {
    History(l, s0, runs) && (runs != [] ==> runs[0].plan == plan0) && Reads(l, After(s0, runs), plan) && Calm(f)
  }

  /** None of the runs was cut off: each is a whole run of the code, with the failures that it met. */
  ghost predicate AllByCode(s0: State, runs: seq<CutRun>) {
    runs == [] ||
    var front := runs[..|runs| - 1];
    AllByCode(s0, front) && ByCode(After(s0, front), runs[|runs| - 1].plan, After(s0, runs))
  }

  ghost function FinalFiles(s0: State, runs: seq<CutRun>, plan: Plan, clock: nat, f: Oracle): map<Path, Content> {
    AfterRun(Sys(After(s0, runs).files, After(s0, runs).pending, clock), plan, f).files
  }

  /** `p` holds the bytes of one of its backups of the first selection. */
  ghost predicate Regained(s0: State, plan0: Plan, files: map<Path, Content>, p: Path) {
    p in files && exists c :: Orphan(c, p) in plan0.Orphans() && c in s0.files && files[p] == s0.files[c]
  }

  /** In every history `p` ends with the bytes of a backup. */
  ghost predicate EndsWell(l: Layout, s0: State, plan0: Plan, p: Path) {
    forall runs, plan, clock, f :: Ending(l, s0, plan0, runs, plan, clock, f) ==>
      Regained(s0, plan0, FinalFiles(s0, runs, plan, clock, f), p)
  }

  /** The same for histories of whole runs alone. */
  ghost predicate EndsWellUncut(l: Layout, s0: State, plan0: Plan, p: Path) {
    forall runs, plan, clock, f :: Ending(l, s0, plan0, runs, plan, clock, f) && AllByCode(s0, runs) ==>
      Regained(s0, plan0, FinalFiles(s0, runs, plan, clock, f), p)
  }

  ghost predicate OneBackup(plan: Plan, p: Path) {
    forall b, c :: Orphan(b, p) in plan.Orphans() && Orphan(c, p) in plan.Orphans() ==> b == c
  }

  lemma {:induction false} OneBackupEndsWell(k: Case)
    requires Sole(k)
    ensures EndsWell(k.l, k.s0, k.plan0, k.p) && EndsWellUncut(k.l, k.s0, k.plan0, k.p)
  {
    SelectedMeans(k.l, k.s0, k.plan0, Orphan(k.b, k.p));
    forall runs, plan, clock, f | Ending(k.l, k.s0, k.plan0, runs, plan, clock, f)
      ensures Regained(k.s0, k.plan0, FinalFiles(k.s0, runs, plan, clock, f), k.p)
    {
      HistoryKeepsSafe(k, runs);
      CalmRunRestores(k, After(k.s0, runs), plan, clock, f);
    }
  }

  /** Whole runs that leave junk in `p`, with nothing pending for it, end badly. */
  lemma {:induction false} JunkStays(l: Layout, s0: State, plan0: Plan, runs: seq<CutRun>, p: Path, junk: Content)
    requires History(l, s0, runs) && AllByCode(s0, runs) && runs != [] && runs[0].plan == plan0
    requires !Pending(After(s0, runs), p) && !l.IsPlace(p)
    requires p in After(s0, runs).files && After(s0, runs).files[p] == junk
    requires forall r :: r in s0.files ==> s0.files[r] != junk
    ensures !EndsWell(l, s0, plan0, p) && !EndsWellUncut(l, s0, plan0, p)
  {
    var s, calm: Oracle := After(s0, runs), (n: nat) => NoFault;
    var plan := CanRead(l, s);
    CalmRunElsewhere(l, s, plan, p, 0, calm);
    BadEnding(l, s0, plan0, p, runs, plan, 0, calm);
  }

  lemma {:induction false} BadEnding(l: Layout, s0: State, plan0: Plan, p: Path, runs: seq<CutRun>, plan: Plan,
                                     clock: nat, f: Oracle)
    requires Ending(l, s0, plan0, runs, plan, clock, f) && AllByCode(s0, runs)
    requires !Regained(s0, plan0, FinalFiles(s0, runs, plan, clock, f), p)
    ensures !EndsWell(l, s0, plan0, p) && !EndsWellUncut(l, s0, plan0, p)
  {
  }

  /** One more run of a history of whole runs. */
  lemma {:induction false} OneMoreRun(l: Layout, s0: State, runs: seq<CutRun>, r: CutRun)
    requires History(l, s0, runs) && AllByCode(s0, runs)
    requires Reads(l, After(s0, runs), r.plan) && RunLog(r.plan, After(s0, runs), r.log)
    requires ByCode(After(s0, runs), r.plan, Final(After(s0, runs), r.log))
    ensures History(l, s0, runs + [r]) && AllByCode(s0, runs + [r])
    ensures After(s0, runs + [r]) == Final(After(s0, runs), r.log)
  {
    assert (runs + [r])[..|runs|] == runs;
  }

  lemma {:induction false} TwoBackupsEndBadly(l: Layout, s0: State, plan0: Plan, p: Path, i: nat, j: nat)
    requires Reads(l, s0, plan0) && Separate(l, s0) && i < j < |plan0.Orphans()|
    requires plan0.Orphans()[i].original == p == plan0.Orphans()[j].original
    requires plan0.Orphans()[i].backup != plan0.Orphans()[j].backup
    ensures !EndsWell(l, s0, plan0, p) && !EndsWellUncut(l, s0, plan0, p)
  {
    var junk := NewBytes(s0.files);
    var log := SecondRestoreSpoils(l, s0, plan0, p, i, j, junk);
    assert plan0.Orphans()[i] in plan0.Orphans();
    OriginalsArePending(l, s0, s0, plan0, plan0.Orphans()[i]);
    FirstOfHistory(l, s0, plan0, log);
    JunkStays(l, s0, plan0, [CutRun(plan0, log)], p, junk);
  }

  lemma {:induction false} FirstOfHistory(l: Layout, s0: State, plan0: Plan, log: seq<Moment>)
    requires Reads(l, s0, plan0) && RunLog(plan0, s0, log) && ByCode(s0, plan0, Final(s0, log))
    ensures var runs := [CutRun(plan0, log)];
            History(l, s0, runs) && AllByCode(s0, runs) && After(s0, runs) == Final(s0, log)
  {
    OneMoreRun(l, s0, [], CutRun(plan0, log));
    assert [] + [CutRun(plan0, log)] == [CutRun(plan0, log)];
  }

  lemma {:induction false} SeveralBackupsEndBadly(l: Layout, s0: State, plan0: Plan, p: Path)
    requires Reads(l, s0, plan0) && Separate(l, s0) && !OneBackup(plan0, p)
    ensures !EndsWell(l, s0, plan0, p) && !EndsWellUncut(l, s0, plan0, p)
  {
    var b, c :| Orphan(b, p) in plan0.Orphans() && Orphan(c, p) in plan0.Orphans() && b != c;
    var i, j := TwoPlaces(plan0.Orphans(), Orphan(b, p), Orphan(c, p));
    TwoBackupsEndBadly(l, s0, plan0, p, i, j);
  }

  /** The places of two different orphans, in order. */
  lemma {:induction false} TwoPlaces(orphans: seq<Orphan>, a: Orphan, b: Orphan) returns (i: nat, j: nat)
    requires a in orphans && b in orphans && a != b
    ensures i < j < |orphans| && {orphans[i], orphans[j]} == {a, b}
  {
    i :| i < |orphans| && orphans[i] == a;
    j :| j < |orphans| && orphans[j] == b;
    if j < i { i, j := j, i; }
  }
}
