/**
 * Crash recovery: selecting orphaned backups, restoring or discarding them, and clearing the
 * pending operations they belong to. Every fallible call consults an oracle, so that a statement
 * about a run is a statement about every pattern of failures.
 */
module CrashRecovery {
  import opened Common
  import opened BackupNames

  type Content = string

  datatype PendingOp = PendingOp(id: string, path: Path)

  datatype Orphan = Orphan(backup: Path, original: Path)

  datatype Mode = AlwaysRecover | AlwaysDiscard

  /** A failing copy may leave anything in the destination. */
  datatype Fault = NoFault | Fails | FailsMidway(junk: Content)

  // ----- selection -----

  function FileName(p: Path): Option<string> {
    if p == [] then None else Some(p[|p| - 1])
  }

  predicate UnderAny(p: Path, dirs: seq<Path>) {
    exists d :: d in dirs && d <= p
  }

  function SiblingOrphans(found: seq<Path>, normalize: Path -> Path): seq<Orphan> {
    if found == [] then []
    else
      var b := found[|found| - 1];
      SiblingOrphans(found[..|found| - 1], normalize) +
      match InferOriginal(b, normalize)
      case None => []
      case Some(original) => [Orphan(b, original)]
  }

  /** The pending paths with file name `name`, one per operation. */
  function NamedPaths(pending: seq<PendingOp>, name: string): seq<Path> {
    if pending == [] then []
    else
      var op := pending[|pending| - 1];
      NamedPaths(pending[..|pending| - 1], name) + if FileName(op.path) == Some(name) then [op.path] else []
  }

  /** The pending paths that a file of the global backup directory could belong to. */
  function GlobalMatches(entry: Path, pending: seq<PendingOp>, isUuid: string -> bool): seq<Path> {
    match FileName(entry)
    case None => []
    case Some(n) =>
      match ParseGlobal(n, isUuid)
      case None => []
      case Some(name) => NamedPaths(pending, name)
  }

  function GlobalOrphans(entries: seq<Path>, pending: seq<PendingOp>, isUuid: string -> bool): seq<Orphan> {
    if entries == [] then []
    else
      var e := entries[|entries| - 1];
      var m := GlobalMatches(e, pending, isUuid);
      GlobalOrphans(entries[..|entries| - 1], pending, isUuid) + if |m| == 1 then [Orphan(e, m[0])] else []
  }

  function AmbiguousPaths(entries: seq<Path>, pending: seq<PendingOp>, isUuid: string -> bool): set<Path> {
    if entries == [] then {}
    else
      var m := GlobalMatches(entries[|entries| - 1], pending, isUuid);
      AmbiguousPaths(entries[..|entries| - 1], pending, isUuid) + if |m| > 1 then ToSet(m) else {}
  }

  function PendingPaths(pending: seq<PendingOp>): set<Path> {
    set op | op in pending :: op.path
  }

  function OrphansOf(backups: seq<Orphan>, pending: seq<PendingOp>): seq<Orphan> {
    if backups == [] then []
    else
      var b := backups[|backups| - 1];
      OrphansOf(backups[..|backups| - 1], pending) + if b.original in PendingPaths(pending) then [b] else []
  }

  lemma {:induction false} OrphansOfMembers(backups: seq<Orphan>, pending: seq<PendingOp>, o: Orphan)
    ensures o in OrphansOf(backups, pending) <==> o in backups && o.original in PendingPaths(pending)
  {
    if backups != [] {
      var front, last := backups[..|backups| - 1], backups[|backups| - 1];
      assert backups == front + [last];
      OrphansOfMembers(front, pending, o);
    }
  }

  lemma {:induction false} SiblingMembers(found: seq<Path>, normalize: Path -> Path, o: Orphan)
    ensures o in SiblingOrphans(found, normalize) <==>
            o.backup in found && InferOriginal(o.backup, normalize) == Some(o.original)
  {
    if found != [] {
      assert found == found[..|found| - 1] + [found[|found| - 1]];
      SiblingMembers(found[..|found| - 1], normalize, o);
    }
  }

  /** A file of the global directory belongs to the pending paths whose name follows its UUID and underscore. */
  lemma GlobalMatchExact(entry: Path, pending: seq<PendingOp>, isUuid: string -> bool, p: Path)
    ensures p in GlobalMatches(entry, pending, isUuid) <==>
            && (exists op :: op in pending && op.path == p)
            && p != [] && p[|p| - 1] != "" && entry != []
            && exists uuid: string :: |uuid| == 36 && isUuid(uuid) && entry[|entry| - 1] == uuid + "_" + p[|p| - 1]
  {
    if entry != [] {
      var name := entry[|entry| - 1];
      if p != [] { ParseGlobalExact(name, isUuid, p[|p| - 1]); }
      if ParseGlobal(name, isUuid).Some? { NamedPathsMembers(pending, ParseGlobal(name, isUuid).value, p); }
    }
  }

  /** A global backup is selected only when exactly one pending operation has its file name. */
  lemma {:induction false} GlobalMembers(entries: seq<Path>, pending: seq<PendingOp>, isUuid: string -> bool, o: Orphan)
    ensures o in GlobalOrphans(entries, pending, isUuid) <==>
            o.backup in entries && GlobalMatches(o.backup, pending, isUuid) == [o.original]
  {
    if entries != [] {
      var front, e := entries[..|entries| - 1], entries[|entries| - 1];
      assert entries == front + [e];
      GlobalMembers(front, pending, isUuid, o);
      var m := GlobalMatches(e, pending, isUuid);
      assert |m| == 1 ==> m == [m[0]];
    }
  }

  lemma {:induction false} AmbiguousMembers(entries: seq<Path>, pending: seq<PendingOp>, isUuid: string -> bool,
                                            p: Path)
    ensures p in AmbiguousPaths(entries, pending, isUuid) <==>
            exists e :: e in entries && |GlobalMatches(e, pending, isUuid)| > 1 &&
              p in GlobalMatches(e, pending, isUuid)
  {
    if entries != [] {
      var front, e := entries[..|entries| - 1], entries[|entries| - 1];
      assert entries == front + [e];
      AmbiguousMembers(front, pending, isUuid, p);
      if p in ToSet(GlobalMatches(e, pending, isUuid)) { assert e in entries; }
    }
  }

  lemma {:induction false} NamedPathsMembers(pending: seq<PendingOp>, name: string, p: Path)
    ensures p in NamedPaths(pending, name) <==> FileName(p) == Some(name) && p in PendingPaths(pending)
  {
    if pending != [] {
      var front, op := pending[..|pending| - 1], pending[|pending| - 1];
      assert pending == front + [op];
      NamedPathsMembers(front, name, p);
      assert PendingPaths(pending) == PendingPaths(front) + {op.path};
    }
  }

  /** Everything a run is given and derives before it changes anything. */
  datatype Plan = Plan(
    mode: Mode,
    listing: seq<PendingOp>,
    backups: seq<Orphan>,
    ambiguous: set<Path>,
    dirs: seq<Path>)
  {
    function Orphans(): seq<Orphan> {
      OrphansOf(backups, listing)
    }

    predicate IsStale(path: Path) {
      path !in ambiguous && UnderAny(path, dirs)
    }
  }

  lemma NoSiblingInSight(found: seq<Path>, rest: seq<Orphan>, pending: seq<PendingOp>, normalize: Path -> Path,
                         path: Path, b: Path)
    requires path in PendingPaths(pending) && b in found
    requires OrphansOf(SiblingOrphans(found, normalize) + rest, pending) == []
    ensures InferOriginal(b, normalize) != Some(path)
  {
    SiblingMembers(found, normalize, Orphan(b, path));
    OrphansOfMembers(SiblingOrphans(found, normalize) + rest, pending, Orphan(b, path));
  }

  lemma NoGlobalInSight(siblings: seq<Orphan>, entries: seq<Path>, pending: seq<PendingOp>, isUuid: string -> bool,
                        path: Path, e: Path)
    requires path in PendingPaths(pending) && path !in AmbiguousPaths(entries, pending, isUuid) && e in entries
    requires OrphansOf(siblings + GlobalOrphans(entries, pending, isUuid), pending) == []
    ensures path !in GlobalMatches(e, pending, isUuid)
  {
    var m := GlobalMatches(e, pending, isUuid);
    GlobalMembers(entries, pending, isUuid, Orphan(e, path));
    OrphansOfMembers(siblings + GlobalOrphans(entries, pending, isUuid), pending, Orphan(e, path));
    AmbiguousMembers(entries, pending, isUuid, path);
    if |m| == 1 { assert m == [m[0]]; }
  }

  /**
   * When nothing was selected, a path that is not ambiguous has no backup candidate in sight:
   * neither a sibling backup that reads back to it nor a global backup with its file name.
   */
  lemma NoCandidateInSight(found: seq<Path>, entries: seq<Path>, pending: seq<PendingOp>,
                           normalize: Path -> Path, isUuid: string -> bool, path: Path)
    requires path in PendingPaths(pending) && path !in AmbiguousPaths(entries, pending, isUuid)
    requires OrphansOf(SiblingOrphans(found, normalize) + GlobalOrphans(entries, pending, isUuid), pending) == []
    ensures forall b :: b in found ==> InferOriginal(b, normalize) != Some(path)
    ensures forall e :: e in entries ==> path !in GlobalMatches(e, pending, isUuid)
  {
    forall b | b in found ensures InferOriginal(b, normalize) != Some(path) {
      NoSiblingInSight(found, GlobalOrphans(entries, pending, isUuid), pending, normalize, path, b);
    }
    forall e | e in entries ensures path !in GlobalMatches(e, pending, isUuid) {
      NoGlobalInSight(SiblingOrphans(found, normalize), entries, pending, isUuid, path, e);
    }
  }

  // ----- what a run does, as a log -----

  datatype Event =
    | Restored(backup: Path, original: Path)
    | Spoiled(backup: Path, original: Path)
    | Removed(backup: Path)
    | Deleted(id: string)

  datatype State = State(files: map<Path, Content>, pending: map<string, Path>)

  /** `step` is the place in the selection of the orphan being handled. */
  datatype Moment = Moment(event: Event, step: nat, after: State)

  ghost predicate StepOk(s: State, e: Event, t: State) {
    match e
    case Restored(b, o) => b in s.files && t == s.(files := s.files[o := s.files[b]])
    case Spoiled(b, o) => b in s.files && o in t.files && t == s.(files := s.files[o := t.files[o]])
    case Removed(b) => b in s.files && t == s.(files := s.files - {b})
    case Deleted(id) => t == s.(pending := s.pending - {id})
  }

  ghost function Final(start: State, log: seq<Moment>): State {
    if log == [] then start else log[|log| - 1].after
  }

  /** Why a run takes step `e` after `log`. */
  ghost predicate Justified(plan: Plan, log: seq<Moment>, e: Event) {
    match e
    case Restored(b, o) => plan.mode.AlwaysRecover? && Orphan(b, o) in plan.Orphans()
    case Spoiled(b, o) => plan.mode.AlwaysRecover? && Orphan(b, o) in plan.Orphans()
    case Removed(b) =>
      if plan.mode.AlwaysRecover? then
        log != [] && log[|log| - 1].event.Restored? && log[|log| - 1].event.backup == b
      else
        exists o :: o in plan.Orphans() && o.backup == b
    case Deleted(id) =>
      exists path :: PendingOp(id, path) in plan.listing && MayDelete(plan, log, path)
  }

  /** A backup of `path` was resolved in this run, or nothing was selected and it is stale. */
  ghost predicate MayDelete(plan: Plan, log: seq<Moment>, path: Path) {
    (exists b :: HasRemoved(log, b) && Orphan(b, path) in plan.Orphans()) ||
    (plan.Orphans() == [] && plan.IsStale(path))
  }

  ghost predicate HasRemoved(log: seq<Moment>, b: Path) {
    exists j :: 0 <= j < |log| && log[j].event == Removed(b)
  }

  /** The place of the next orphan to handle. */
  ghost function Cursor(log: seq<Moment>): nat {
    if log == [] then 0
    else if log[|log| - 1].event.Deleted? then Cursor(log[..|log| - 1])
    else log[|log| - 1].step + 1
  }

  /** The selection is handled in order, each orphan at most once; a removal follows its own restore. */
  ghost predicate InTurn(plan: Plan, log: seq<Moment>, m: Moment) {
    m.event.Deleted? ||
    (m.step < |plan.Orphans()| &&
     match m.event
     case Restored(b, o) => plan.Orphans()[m.step] == Orphan(b, o) && Cursor(log) <= m.step
     case Spoiled(b, o) => plan.Orphans()[m.step] == Orphan(b, o) && Cursor(log) <= m.step
     case Removed(b) =>
       && plan.Orphans()[m.step].backup == b
       && (if plan.mode.AlwaysRecover? then log != [] && log[|log| - 1].event.Restored? && log[|log| - 1].step == m.step
           else Cursor(log) <= m.step)
     case Deleted(_) => true)
  }

  /** `log` is a run of `plan` from `start`, complete or cut off anywhere. */
  ghost predicate RunLog(plan: Plan, start: State, log: seq<Moment>)
    decreases |log|
  {
    log == [] ||
    var front, m := log[..|log| - 1], log[|log| - 1];
    && RunLog(plan, start, front) && StepOk(Final(start, front), m.event, m.after)
    && Justified(plan, front, m.event) && InTurn(plan, front, m)
  }

  lemma RunLogExtends(plan: Plan, start: State, log: seq<Moment>, m: Moment)
    requires RunLog(plan, start, log)
    requires StepOk(Final(start, log), m.event, m.after) && Justified(plan, log, m.event) && InTurn(plan, log, m)
    ensures RunLog(plan, start, log + [m])
  {
    assert (log + [m])[..|log|] == log;
  }

  /** A run cut short by a crash is a run. */
  lemma {:induction false} RunLogPrefix(plan: Plan, start: State, log: seq<Moment>, i: nat)
    requires RunLog(plan, start, log) && i <= |log|
    ensures RunLog(plan, start, log[..i])
    decreases |log|
  {
    if i == |log| {
      assert log[..i] == log;
    } else {
      RunLogPrefix(plan, start, log[..|log| - 1], i);
      assert log[..|log| - 1][..i] == log[..i];
    }
  }

  // ----- safety of a whole run -----

  /** Files are written, and backups removed, only for paths with a pending operation. */
  lemma TouchesOnlyPending(plan: Plan, start: State, log: seq<Moment>)
    requires RunLog(plan, start, log) && log != []
    ensures match log[|log| - 1].event
            case Restored(b, o) => o in PendingPaths(plan.listing) && Orphan(b, o) in plan.backups
            case Spoiled(b, o) => o in PendingPaths(plan.listing) && Orphan(b, o) in plan.backups
            case Removed(b) => exists o :: o in PendingPaths(plan.listing) && Orphan(b, o) in plan.backups
            case Deleted(id) => exists p :: PendingOp(id, p) in plan.listing
  {
    var front := log[..|log| - 1];
    match log[|log| - 1].event {
      case Restored(b, o) => OrphansOfMembers(plan.backups, plan.listing, Orphan(b, o));
      case Spoiled(b, o) => OrphansOfMembers(plan.backups, plan.listing, Orphan(b, o));
      case Removed(b) =>
        if plan.mode.AlwaysRecover? {
          OrphansOfMembers(plan.backups, plan.listing, Orphan(b, front[|front| - 1].event.original));
        } else {
          var o :| o in plan.Orphans() && o.backup == b;
          OrphansOfMembers(plan.backups, plan.listing, o);
          assert o == Orphan(b, o.original);
        }
      case Deleted(id) =>
    }
  }

  /** The selection asks for `p` to be removed, or written. */
  ghost predicate Touches(plan: Plan, p: Path) {
    exists o :: o in plan.Orphans() && (o.backup == p || (plan.mode.AlwaysRecover? && o.original == p))
  }

  /** A path that the selection does not touch keeps its bytes. */
  lemma {:induction false} OthersUntouched(plan: Plan, start: State, log: seq<Moment>, p: Path)
    requires RunLog(plan, start, log) && !Touches(plan, p)
    ensures p in Final(start, log).files <==> p in start.files
    ensures p in start.files ==> Final(start, log).files[p] == start.files[p]
    decreases |log|
  {
    if log != [] {
      var front, m := log[..|log| - 1], log[|log| - 1];
      OthersUntouched(plan, start, front, p);
      if !m.event.Deleted? { assert plan.Orphans()[m.step] in plan.Orphans(); }
    }
  }

  /** An operation is gone only if it was deleted for one of the two reasons. */
  lemma {:induction false} DeletionsJustified(plan: Plan, start: State, log: seq<Moment>, id: string)
    requires RunLog(plan, start, log)
    requires id in start.pending && id !in Final(start, log).pending
    ensures exists path :: PendingOp(id, path) in plan.listing && MayDelete(plan, log, path)
    decreases |log|
  {
    if log != [] {
      var front, m := log[..|log| - 1], log[|log| - 1];
      var path: Path;
      if id in Final(start, front).pending {
        path :| PendingOp(id, path) in plan.listing && MayDelete(plan, front, path);
      } else {
        DeletionsJustified(plan, start, front, id);
        path :| PendingOp(id, path) in plan.listing && MayDelete(plan, front, path);
      }
      MayDeleteExtends(plan, front, m, path);
      assert log == front + [m];
    }
  }

  lemma MayDeleteExtends(plan: Plan, log: seq<Moment>, m: Moment, path: Path)
    requires MayDelete(plan, log, path)
    ensures MayDelete(plan, log + [m], path)
  {
    if b :| HasRemoved(log, b) && Orphan(b, path) in plan.Orphans() {
      var j :| 0 <= j < |log| && log[j].event == Removed(b);
      assert (log + [m])[j].event == Removed(b);
      assert HasRemoved(log + [m], b);
    }
  }

  /** The plan that a run derives from what it lists. */
  ghost predicate DerivedFrom(plan: Plan, found: seq<Path>, entries: seq<Path>, normalize: Path -> Path,
                              isUuid: string -> bool) {
    && plan.backups == SiblingOrphans(found, normalize) + GlobalOrphans(entries, plan.listing, isUuid)
    && plan.ambiguous == AmbiguousPaths(entries, plan.listing, isUuid)
  }

  ghost predicate NoCandidate(found: seq<Path>, entries: seq<Path>, pending: seq<PendingOp>,
                              normalize: Path -> Path, isUuid: string -> bool, path: Path) {
    && (forall b :: b in found ==> InferOriginal(b, normalize) != Some(path))
    && (forall e :: e in entries ==> path !in GlobalMatches(e, pending, isUuid))
  }

  /**
   * An operation deleted by a run had a backup of its path removed in that run, or had no backup
   * candidate in sight at all, was not ambiguous and lay under a scanned root.
   */
  lemma DeletionSafe(plan: Plan, start: State, log: seq<Moment>, id: string,
                     found: seq<Path>, entries: seq<Path>, normalize: Path -> Path, isUuid: string -> bool)
    requires RunLog(plan, start, log) && DerivedFrom(plan, found, entries, normalize, isUuid)
    requires id in start.pending && id !in Final(start, log).pending
    ensures exists path :: PendingOp(id, path) in plan.listing &&
              ((exists b :: HasRemoved(log, b) && Orphan(b, path) in plan.Orphans()) ||
               (path !in AmbiguousPaths(entries, plan.listing, isUuid) && (exists d :: d in plan.dirs && d <= path)
                && NoCandidate(found, entries, plan.listing, normalize, isUuid, path)))
  {
    DeletionsJustified(plan, start, log, id);
    var path :| PendingOp(id, path) in plan.listing && MayDelete(plan, log, path);
    if !exists b :: HasRemoved(log, b) && Orphan(b, path) in plan.Orphans() {
      assert PendingOp(id, path).path in PendingPaths(plan.listing);
      NoCandidateInSight(found, entries, plan.listing, normalize, isUuid, path);
    }
  }

  /** An ambiguous path's operation goes only with a sibling backup of its own. */
  lemma AmbiguousOpKept(plan: Plan, start: State, log: seq<Moment>, id: string, path: Path, e: Path,
                        found: seq<Path>, entries: seq<Path>, normalize: Path -> Path, isUuid: string -> bool)
    requires RunLog(plan, start, log) && DerivedFrom(plan, found, entries, normalize, isUuid)
    requires forall p :: PendingOp(id, p) in plan.listing ==> p == path
    requires e in entries && |GlobalMatches(e, plan.listing, isUuid)| > 1 &&
             path in GlobalMatches(e, plan.listing, isUuid)
    requires id in start.pending && id !in Final(start, log).pending
    ensures exists b :: HasRemoved(log, b) && b in found && InferOriginal(b, normalize) == Some(path)
  {
    DeletionsJustified(plan, start, log, id);
    AmbiguousMembers(entries, plan.listing, isUuid, path);
    assert MayDelete(plan, log, path);
    var b :| HasRemoved(log, b) && Orphan(b, path) in plan.Orphans();
    OrphansOfMembers(plan.backups, plan.listing, Orphan(b, path));
    SiblingMembers(found, normalize, Orphan(b, path));
    GlobalMembers(entries, plan.listing, isUuid, Orphan(b, path));
    if GlobalMatches(b, plan.listing, isUuid) == [path] { SameNameSameMatches(b, e, plan.listing, isUuid, path); }
  }

  /** Two global backups that share a candidate have the same candidates. */
  lemma SameNameSameMatches(b: Path, e: Path, pending: seq<PendingOp>, isUuid: string -> bool, path: Path)
    requires path in GlobalMatches(b, pending, isUuid) && path in GlobalMatches(e, pending, isUuid)
    ensures GlobalMatches(b, pending, isUuid) == GlobalMatches(e, pending, isUuid)
  {
    var n := ParseGlobal(FileName(b).value, isUuid).value;
    var m := ParseGlobal(FileName(e).value, isUuid).value;
    NamedPathsMembers(pending, n, path);
    NamedPathsMembers(pending, m, path);
  }

  // ----- entangled selections -----

  /** No original is itself a selected backup, and no backup is selected for two originals. */
  ghost predicate Unentangled(orphans: seq<Orphan>) {
    forall a, b :: a in orphans && b in orphans ==> !Entangles(a, b)
  }

  predicate Entangles(a: Orphan, b: Orphan) {
    a.original == b.backup || (a.backup == b.backup && a.original != b.original)
  }

  // ----- what a run without failures leaves behind -----

  function ResolveOne(mode: Mode, files: map<Path, Content>, o: Orphan): map<Path, Content> {
    if o.backup !in files then files
    else if mode.AlwaysRecover? then files[o.original := files[o.backup]] - {o.backup}
    else files - {o.backup}
  }

  /** The disk after resolving the first `n` orphans in order. */
  function Outcome(mode: Mode, files: map<Path, Content>, orphans: seq<Orphan>, n: nat): map<Path, Content>
    requires n <= |orphans|
  {
    if n == 0 then files else ResolveOne(mode, Outcome(mode, files, orphans, n - 1), orphans[n - 1])
  }

  lemma {:induction false} OutcomeBackups(mode: Mode, files: map<Path, Content>, orphans: seq<Orphan>, n: nat,
                                          o: Orphan)
    requires n <= |orphans| && Unentangled(orphans) && o in orphans
    ensures var r := Outcome(mode, files, orphans, n);
            && (o.backup in r ==> o.backup in files && r[o.backup] == files[o.backup])
            && (forall j :: 0 <= j < n ==> orphans[j].backup !in r)
            && (o.backup in files && (forall j :: 0 <= j < n ==> orphans[j].backup != o.backup) ==> o.backup in r)
  {
    if n > 0 {
      var w := orphans[n - 1];
      OutcomeBackups(mode, files, orphans, n - 1, o);
      OutcomeBackups(mode, files, orphans, n - 1, w);
      assert w in orphans && w.original != o.backup && w.original != w.backup;
      forall j | 0 <= j < n ensures orphans[j].backup !in Outcome(mode, files, orphans, n) {
        assert orphans[j] in orphans && w.original != orphans[j].backup;
      }
    }
  }

  /**
   * Recovery recovers: with no failure, each path among the first `n` selections holds the bytes
   * that one of its backups had at the start.
   */
  lemma {:induction false} OutcomeRestores(files: map<Path, Content>, orphans: seq<Orphan>, n: nat, p: Path)
    requires n <= |orphans| && Unentangled(orphans) && forall o :: o in orphans ==> o.backup in files
    requires exists j :: 0 <= j < n && orphans[j].original == p
    ensures var r := Outcome(AlwaysRecover, files, orphans, n);
            p in r && exists j :: 0 <= j < n && orphans[j].original == p && r[p] == files[orphans[j].backup]
  {
    var w := orphans[n - 1];
    var before := Outcome(AlwaysRecover, files, orphans, n - 1);
    OutcomeBackups(AlwaysRecover, files, orphans, n - 1, w);
    assert w in orphans;
    var j :| 0 <= j < n && orphans[j].original == p;
    assert orphans[j] in orphans && p != w.backup;
    if w.original == p && w.backup in before {
      assert Outcome(AlwaysRecover, files, orphans, n)[p] == files[orphans[n - 1].backup];
    } else {
      if w.original == p {
        var t :| 0 <= t < n - 1 && orphans[t].backup == w.backup;
        assert orphans[t] in orphans;
      }
      OutcomeRestores(files, orphans, n - 1, p);
    }
  }

  // ----- one run as a function of its failures -----

  /** The disk, the pending-operation table and the number of fallible calls made so far. */
  datatype Sys = Sys(files: map<Path, Content>, pending: map<string, Path>, clock: nat)

  type Oracle = nat -> Fault

  function Tick(s: Sys): Sys { s.(clock := s.clock + 1) }

  /** `restore_from_paths`: a copy, which needs its source and may fail part way. */
  predicate Restores(s: Sys, o: Orphan, fault: Oracle) {
    o.backup in s.files && fault(s.clock).NoFault?
  }

  function AfterRestore(s: Sys, o: Orphan, fault: Oracle): Sys {
    if o.backup !in s.files then Tick(s)
    else
      match fault(s.clock)
      case NoFault => Tick(s.(files := s.files[o.original := s.files[o.backup]]))
      case Fails => Tick(s)
      case FailsMidway(junk) => Tick(s.(files := s.files[o.original := junk]))
  }

  predicate Removes(s: Sys, b: Path, fault: Oracle) {
    b in s.files && fault(s.clock).NoFault?
  }

  function AfterRemove(s: Sys, b: Path, fault: Oracle): Sys {
    Tick(if Removes(s, b, fault) then s.(files := s.files - {b}) else s)
  }

  function AfterDelete(s: Sys, id: string, fault: Oracle): Sys {
    Tick(if fault(s.clock).NoFault? then s.(pending := s.pending - {id}) else s)
  }

  /** Whether a call for `o` resolves it: in recover mode a restore and then a removal, else a removal. */
  predicate Succeeds(s: Sys, mode: Mode, o: Orphan, fault: Oracle) {
    if mode.AlwaysRecover? then Restores(s, o, fault) && Removes(AfterRestore(s, o, fault), o.backup, fault)
    else Removes(s, o.backup, fault)
  }

  function AfterAttempt(s: Sys, mode: Mode, o: Orphan, fault: Oracle): Sys {
    if mode.AlwaysDiscard? then AfterRemove(s, o.backup, fault)
    else if Restores(s, o, fault) then AfterRemove(AfterRestore(s, o, fault), o.backup, fault)
    else AfterRestore(s, o, fault)
  }

  /** After deleting those of the first `n` listed operations that are on `path`. */
  function AfterDeletes(s: Sys, listing: seq<PendingOp>, n: nat, path: Path, fault: Oracle): Sys
    requires n <= |listing|
  {
    if n == 0 then s
    else
      var t := AfterDeletes(s, listing, n - 1, path, fault);
      if listing[n - 1].path == path then AfterDelete(t, listing[n - 1].id, fault) else t
  }

  function AfterResolve(s: Sys, mode: Mode, listing: seq<PendingOp>, o: Orphan, fault: Oracle): Sys {
    var t := AfterAttempt(s, mode, o, fault);
    if Succeeds(s, mode, o, fault) then AfterDeletes(t, listing, |listing|, o.original, fault) else t
  }

  /** After handling the first `n` orphans: a failure at one does not stop the others. */
  function AfterOrphans(s: Sys, mode: Mode, listing: seq<PendingOp>, orphans: seq<Orphan>, n: nat, fault: Oracle): Sys
    requires n <= |orphans|
  {
    if n == 0 then s else AfterResolve(AfterOrphans(s, mode, listing, orphans, n - 1, fault), mode, listing,
                                       orphans[n - 1], fault)
  }

  /** After deleting the stale ones of the first `n` listed operations. */
  function AfterClean(s: Sys, plan: Plan, n: nat, fault: Oracle): Sys
    requires n <= |plan.listing|
  {
    if n == 0 then s
    else
      var t := AfterClean(s, plan, n - 1, fault);
      if plan.IsStale(plan.listing[n - 1].path) then AfterDelete(t, plan.listing[n - 1].id, fault) else t
  }

  function AfterRun(s: Sys, plan: Plan, fault: Oracle): Sys {
    if plan.Orphans() == [] then AfterClean(s, plan, |plan.listing|, fault)
    else AfterOrphans(s, plan.mode, plan.listing, plan.Orphans(), |plan.Orphans()|, fault)
  }

  // ----- runs without failures -----

  ghost predicate Calm(fault: Oracle) {
    forall n :: fault(n) == NoFault
  }

  ghost predicate CalmFrom(fault: Oracle, clock: nat) {
    forall n :: clock <= n ==> fault(n) == NoFault
  }

  /** The ids of those of the first `n` listed operations that `which` holds of. */
  ghost function Ids(listing: seq<PendingOp>, n: nat, which: Path -> bool): set<string>
    requires n <= |listing|
  {
    set i | 0 <= i < n && which(listing[i].path) :: listing[i].id
  }

  lemma {:induction false} CalmDeletes(s: Sys, listing: seq<PendingOp>, n: nat, path: Path, fault: Oracle)
    requires n <= |listing| && CalmFrom(fault, s.clock)
    ensures var t := AfterDeletes(s, listing, n, path, fault);
            t.files == s.files && t.pending == s.pending - Ids(listing, n, p => p == path) && t.clock >= s.clock
  {
    if n > 0 {
      CalmDeletes(s, listing, n - 1, path, fault);
      assert Ids(listing, n, p => p == path) ==
             Ids(listing, n - 1, p => p == path) + if listing[n - 1].path == path then {listing[n - 1].id} else {};
    }
  }

  lemma {:induction false} CalmClean(s: Sys, plan: Plan, n: nat, fault: Oracle)
    requires n <= |plan.listing| && Calm(fault)
    ensures var t := AfterClean(s, plan, n, fault);
            t.files == s.files && t.pending == s.pending - Ids(plan.listing, n, p => plan.IsStale(p))
  {
    if n > 0 {
      CalmClean(s, plan, n - 1, fault);
      var op := plan.listing[n - 1];
      assert Ids(plan.listing, n, p => plan.IsStale(p)) ==
             Ids(plan.listing, n - 1, p => plan.IsStale(p)) + if plan.IsStale(op.path) then {op.id} else {};
    }
  }

  lemma CalmResolve(s: Sys, mode: Mode, listing: seq<PendingOp>, o: Orphan, fault: Oracle)
    requires Calm(fault)
    ensures var t := AfterResolve(s, mode, listing, o, fault);
            && t.files == ResolveOne(mode, s.files, o)
            && t.pending == if o.backup in s.files then s.pending - Ids(listing, |listing|, p => p == o.original)
              else s.pending
  {
    CalmDeletes(AfterAttempt(s, mode, o, fault), listing, |listing|, o.original, fault);
  }

  /** Without failures the disk is the outcome of the selection. */
  lemma {:induction false} CalmOrphans(s: Sys, mode: Mode, listing: seq<PendingOp>, orphans: seq<Orphan>, n: nat,
                                       fault: Oracle)
    requires n <= |orphans| && Calm(fault)
    ensures var t := AfterOrphans(s, mode, listing, orphans, n, fault);
            && t.files == Outcome(mode, s.files, orphans, n)
            && SubMap(t.pending, s.pending)
            && (n > 0 && orphans[0].backup in s.files ==>
                t.pending.Keys !! Ids(listing, |listing|, p => p == orphans[0].original))
  {
    if n > 0 {
      CalmOrphans(s, mode, listing, orphans, n - 1, fault);
      CalmResolve(AfterOrphans(s, mode, listing, orphans, n - 1, fault), mode, listing, orphans[n - 1], fault);
    }
  }

  lemma CalmRun(s: Sys, plan: Plan, fault: Oracle)
    requires Calm(fault)
    ensures AfterRun(s, plan, fault).files == Outcome(plan.mode, s.files, plan.Orphans(), |plan.Orphans()|)
  {
    CalmClean(s, plan, |plan.listing|, fault);
    CalmOrphans(s, plan.mode, plan.listing, plan.Orphans(), |plan.Orphans()|, fault);
  }

  // ----- convergence -----

  ghost predicate SubMap(a: map<string, Path>, b: map<string, Path>) {
    forall k :: k in a ==> k in b && a[k] == b[k]
  }

  lemma SmallerSubMap(a: map<string, Path>, b: map<string, Path>, k: string)
    requires SubMap(a, b) && k in b && k !in a
    ensures |a| < |b|
  {
    assert a.Keys <= b.Keys - {k};
    SubsetCardinality(a.Keys, b.Keys - {k});
    assert |a.Keys| == |a| && |b.Keys| == |b|;
  }

  /** `listing` has every row of the table once. */
  ghost predicate Lists(listing: seq<PendingOp>, pending: map<string, Path>) {
    && (forall op :: op in listing ==> op.id in pending && pending[op.id] == op.path)
    && (forall id :: id in pending ==> PendingOp(id, pending[id]) in listing)
    && DistinctIds(listing)
  }

  ghost predicate DistinctIds(listing: seq<PendingOp>) {
    forall i, j :: 0 <= i < j < |listing| ==> listing[i].id != listing[j].id
  }

  /** The table that `listing` is a listing of. */
  function Table(listing: seq<PendingOp>): map<string, Path> {
    if listing == [] then map[]
    else Table(listing[..|listing| - 1])[listing[|listing| - 1].id := listing[|listing| - 1].path]
  }

  lemma {:induction false} TableMembers(listing: seq<PendingOp>, op: PendingOp)
    requires DistinctIds(listing)
    ensures op in listing <==> op.id in Table(listing) && Table(listing)[op.id] == op.path
  {
    if listing != [] {
      var front, last := listing[..|listing| - 1], listing[|listing| - 1];
      assert forall i :: 0 <= i < |front| ==> front[i] == listing[i];
      TableMembers(front, op);
      assert op in listing <==> op in front || op == last by { assert listing == front + [last]; }
      assert op in front ==> op.id != last.id by {
        if op in front {
          var i :| 0 <= i < |front| && front[i] == op;
          assert listing[i].id != listing[|front|].id;
        }
      }
    }
  }

  lemma {:induction false} TableLists(listing: seq<PendingOp>)
    requires DistinctIds(listing)
    ensures Lists(listing, Table(listing))
  {
    forall op | op in listing ensures op.id in Table(listing) && Table(listing)[op.id] == op.path {
      TableMembers(listing, op);
    }
    forall id | id in Table(listing) ensures PendingOp(id, Table(listing)[id]) in listing {
      TableMembers(listing, PendingOp(id, Table(listing)[id]));
    }
  }

  /** Nothing left to do: what remains is ambiguous or lies outside the scanned roots. */
  ghost predicate AtRest(plan: Plan, pending: map<string, Path>) {
    forall id :: id in pending ==> pending[id] in plan.ambiguous || forall d :: d in plan.dirs ==> !(d <= pending[id])
  }

  /** What one failure-free run achieves. */
  ghost predicate Progress(plan: Plan, before: map<string, Path>, after: map<string, Path>) {
    |after| < |before| || (after == before && plan.Orphans() == [] && AtRest(plan, before))
  }

  lemma PendingFor(plan: Plan, o: Orphan) returns (op: PendingOp)
    requires o in plan.Orphans()
    ensures op in plan.listing && op.path == o.original
  {
    OrphansOfMembers(plan.backups, plan.listing, o);
    op :| op in plan.listing && op.path == o.original;
  }

  /** Listings of files that are on the disk. */
  ghost predicate OnDisk(found: seq<Path>, entries: seq<Path>, files: map<Path, Content>) {
    forall b :: b in found || b in entries ==> b in files
  }

  /** `plan` is what a run derives from the table and from listings of the disk. */
  ghost predicate Listed(plan: Plan, s: Sys, normalize: Path -> Path, isUuid: string -> bool) {
    && Lists(plan.listing, s.pending)
    && exists found, entries :: OnDisk(found, entries, s.files) && DerivedFrom(plan, found, entries, normalize, isUuid)
  }

  lemma OrphanListed(found: seq<Path>, entries: seq<Path>, pending: seq<PendingOp>,
                     normalize: Path -> Path, isUuid: string -> bool, o: Orphan)
    requires o in OrphansOf(SiblingOrphans(found, normalize) + GlobalOrphans(entries, pending, isUuid), pending)
    ensures o.backup in found || o.backup in entries
  {
    OrphansOfMembers(SiblingOrphans(found, normalize) + GlobalOrphans(entries, pending, isUuid), pending, o);
    SiblingMembers(found, normalize, o);
    GlobalMembers(entries, pending, isUuid, o);
  }

  /** A failure-free run shrinks the pending set or finds nothing to do. */
  lemma CalmProgress(s: Sys, plan: Plan, fault: Oracle, normalize: Path -> Path, isUuid: string -> bool)
    requires Calm(fault) && Listed(plan, s, normalize, isUuid)
    ensures Progress(plan, s.pending, AfterRun(s, plan, fault).pending)
  {
    if plan.Orphans() == [] {
      CalmCleanProgress(s, plan, fault);
    } else {
      var found, entries :| OnDisk(found, entries, s.files) && DerivedFrom(plan, found, entries, normalize, isUuid);
      var o := plan.Orphans()[0];
      OrphanListed(found, entries, plan.listing, normalize, isUuid, o);
      var op := PendingFor(plan, o);
      CalmOrphans(s, plan.mode, plan.listing, plan.Orphans(), |plan.Orphans()|, fault);
      assert op.id in Ids(plan.listing, |plan.listing|, p => p == o.original);
      SmallerSubMap(AfterRun(s, plan, fault).pending, s.pending, op.id);
    }
  }

  lemma CalmCleanProgress(s: Sys, plan: Plan, fault: Oracle)
    requires Calm(fault) && Lists(plan.listing, s.pending) && plan.Orphans() == []
    ensures Progress(plan, s.pending, AfterRun(s, plan, fault).pending)
  {
    CalmClean(s, plan, |plan.listing|, fault);
    var stale := Ids(plan.listing, |plan.listing|, p => plan.IsStale(p));
    forall id ensures id in stale <==> id in s.pending && plan.IsStale(s.pending[id]) { StaleId(plan, s.pending, id); }
    if id :| id in stale {
      SmallerSubMap(s.pending - stale, s.pending, id);
    } else {
      assert s.pending - stale == s.pending;
    }
  }

  lemma StaleId(plan: Plan, pending: map<string, Path>, id: string)
    requires Lists(plan.listing, pending)
    ensures id in Ids(plan.listing, |plan.listing|, p => plan.IsStale(p)) <==>
            id in pending && plan.IsStale(pending[id])
  {
    if id in pending {
      var i :| 0 <= i < |plan.listing| && plan.listing[i] == PendingOp(id, pending[id]);
    }
    forall i | 0 <= i < |plan.listing| && plan.listing[i].id == id
      ensures id in pending && plan.listing[i].path == pending[id] {
      assert plan.listing[i] in plan.listing;
    }
  }

  ghost predicate RunsTo(plan: Plan, s: Sys, t: Sys, fault: Oracle) {
    AfterRun(Tick(s), plan, fault) == t
  }

  /**
   * What a failure-free run with nothing selected keeps: exactly the operations on ambiguous paths
   * and on paths under none of the scanned roots.
   */
  lemma CleanKeepsExactly(s: Sys, plan: Plan, fault: Oracle, found: seq<Path>, entries: seq<Path>,
                          normalize: Path -> Path, isUuid: string -> bool, id: string)
    requires Calm(fault) && Lists(plan.listing, s.pending) && plan.Orphans() == [] && id in s.pending
    requires DerivedFrom(plan, found, entries, normalize, isUuid)
    ensures id in AfterRun(s, plan, fault).pending <==>
            || s.pending[id] in AmbiguousPaths(entries, plan.listing, isUuid)
            || forall d :: d in plan.dirs ==> !(d <= s.pending[id])
  {
    CalmClean(s, plan, |plan.listing|, fault);
    StaleId(plan, s.pending, id);
  }

  /** Failure-free runs one after the other, each listing the table and the disk that the last one left. */
  ghost predicate CalmRuns(plans: seq<Plan>, states: seq<Sys>, fault: Oracle, normalize: Path -> Path,
                           isUuid: string -> bool) {
    |states| == |plans| + 1 &&
    forall i :: 0 <= i < |plans| ==>
      Listed(plans[i], states[i], normalize, isUuid) && RunsTo(plans[i], states[i], states[i + 1], fault)
  }

  /** Repeated failure-free runs find nothing left to do after at most as many runs as operations. */
  lemma {:induction false} ConvergesInBoundedRuns(plans: seq<Plan>, states: seq<Sys>, fault: Oracle,
                                                  normalize: Path -> Path, isUuid: string -> bool)
    requires CalmRuns(plans, states, fault, normalize, isUuid) && Calm(fault) && |plans| > |states[0].pending|
    ensures exists i :: 0 <= i <= |states[0].pending| && states[i].pending == states[i + 1].pending
                        && plans[i].Orphans() == [] && AtRest(plans[i], states[i].pending)
    decreases |states[0].pending|
  {
    assert RunsTo(plans[0], states[0], states[1], fault) && Listed(plans[0], states[0], normalize, isUuid);
    CalmProgress(Tick(states[0]), plans[0], fault, normalize, isUuid);
    if |states[1].pending| < |states[0].pending| {
      CalmRunsTail(plans, states, fault, normalize, isUuid);
      ConvergesInBoundedRuns(plans[1..], states[1..], fault, normalize, isUuid);
      var i :| 0 <= i <= |states[1].pending| && states[1..][i].pending == states[1..][i + 1].pending
               && plans[1..][i].Orphans() == [] && AtRest(plans[1..][i], states[1..][i].pending);
      assert states[i + 1].pending == states[i + 2].pending && AtRest(plans[i + 1], states[i + 1].pending);
    }
  }

  lemma CalmRunsTail(plans: seq<Plan>, states: seq<Sys>, fault: Oracle, normalize: Path -> Path, isUuid: string -> bool)
    requires CalmRuns(plans, states, fault, normalize, isUuid) && plans != []
    ensures CalmRuns(plans[1..], states[1..], fault, normalize, isUuid)
  {
    forall i | 0 <= i < |plans| - 1
      ensures Listed(plans[1..][i], states[1..][i], normalize, isUuid)
      ensures RunsTo(plans[1..][i], states[1..][i], states[1..][i + 1], fault)
    {
      assert RunsTo(plans[i + 1], states[i + 1], states[i + 2], fault);
    }
  }

  // ----- the imperative form -----

  function RemovedCount(log: seq<Moment>): nat {
    if log == [] then 0 else RemovedCount(log[..|log| - 1]) + if log[|log| - 1].event.Removed? then 1 else 0
  }

  lemma RemovedCountSnoc(log: seq<Moment>, m: Moment)
    ensures RemovedCount(log + [m]) == RemovedCount(log) + if m.event.Removed? then 1 else 0
  {
    assert (log + [m])[..|log|] == log;
  }

  lemma HasRemovedExtends(log: seq<Moment>, log': seq<Moment>, b: Path)
    requires HasRemoved(log, b) && log <= log'
    ensures HasRemoved(log', b)
  {
    var j :| 0 <= j < |log| && log[j].event == Removed(b);
    assert log'[j] == log[j];
  }

  method FindOrphans(found: seq<Path>, normalize: Path -> Path) returns (backups: seq<Orphan>)
    ensures backups == SiblingOrphans(found, normalize)
  {
    backups := [];
    for i := 0 to |found|
      invariant backups == SiblingOrphans(found[..i], normalize)
    {
      assert found[..i + 1][..i] == found[..i];
      var original := InferOriginal(found[i], normalize);
      if original.Some? {
        backups := backups + [Orphan(found[i], original.value)];
      }
    }
    assert found[..|found|] == found;
  }

  method IndexByFileName(pending: seq<PendingOp>) returns (byName: map<string, seq<Path>>)
    ensures forall n :: (if n in byName then byName[n] else []) == NamedPaths(pending, n)
  {
    byName := map[];
    for i := 0 to |pending|
      invariant forall n :: (if n in byName then byName[n] else []) == NamedPaths(pending[..i], n)
    {
      assert pending[..i + 1][..i] == pending[..i];
      var name := FileName(pending[i].path);
      if name.Some? {
        var n := name.value;
        byName := byName[n := (if n in byName then byName[n] else []) + [pending[i].path]];
      }
    }
    assert pending[..|pending|] == pending;
  }

  /** `collect_global_backups`: unique matches are appended, ambiguous ones only remembered. */
  method CollectGlobalBackups(entries: seq<Path>, pending: seq<PendingOp>, isUuid: string -> bool)
    returns (backups: seq<Orphan>, ambiguous: set<Path>)
    ensures backups == GlobalOrphans(entries, pending, isUuid)
    ensures ambiguous == AmbiguousPaths(entries, pending, isUuid)
  {
    var byName := IndexByFileName(pending);
    backups, ambiguous := [], {};
    for i := 0 to |entries|
      invariant backups == GlobalOrphans(entries[..i], pending, isUuid)
      invariant ambiguous == AmbiguousPaths(entries[..i], pending, isUuid)
    {
      assert entries[..i + 1][..i] == entries[..i];
      var name := FileName(entries[i]);
      if name.None? { continue; }
      var original := ParseGlobal(name.value, isUuid);
      if original.None? { continue; }
      assert GlobalMatches(entries[i], pending, isUuid) == NamedPaths(pending, original.value);
      if original.value in byName {
        var matched := byName[original.value];
        if |matched| > 1 {
          ambiguous := ambiguous + ToSet(matched);
        } else if |matched| == 1 {
          backups := backups + [Orphan(entries[i], matched[0])];
        }
      }
    }
    assert entries[..|entries|] == entries;
  }

  method SelectOrphans(backups: seq<Orphan>, pending: seq<PendingOp>) returns (orphans: seq<Orphan>)
    ensures orphans == OrphansOf(backups, pending)
  {
    orphans := [];
    for i := 0 to |backups|
      invariant orphans == OrphansOf(backups[..i], pending)
    {
      assert backups[..i + 1][..i] == backups[..i];
      if backups[i].original in PendingPaths(pending) {
        orphans := orphans + [backups[i]];
      }
    }
    assert backups[..|backups|] == backups;
  }

  /** The disk and the pending-operation table, with the log of what was done to them. */
  class Machine {
    var files: map<Path, Content>
    var pending: map<string, Path>
    var clock: nat
    const fault: Oracle
    ghost const start: State
    ghost var log: seq<Moment>

    ghost function Now(): Sys
      reads this
    {
      Sys(files, pending, clock)
    }

    /** `o` is the orphan at place `step`, which is not behind the cursor. */
    ghost predicate Next(plan: Plan, step: nat, o: Orphan)
      reads this
    {
      step < |plan.Orphans()| && plan.Orphans()[step] == o && o in plan.Orphans() && Cursor(log) <= step
    }

    ghost predicate Consistent(plan: Plan)
      reads this
    {
      RunLog(plan, start, log) && Final(start, log) == State(files, pending)
    }

    constructor (files: map<Path, Content>, pending: map<string, Path>, fault: Oracle)
      ensures this.files == files && this.pending == pending && this.fault == fault && clock == 0
      ensures start == State(files, pending) && log == []
    {
      this.files, this.pending, this.fault := files, pending, fault;
      clock := 0;
      start, log := State(files, pending), [];
    }

    ghost method Note(e: Event, plan: Plan, step: nat)
      requires RunLog(plan, start, log) && InTurn(plan, log, Moment(e, step, State(files, pending)))
      requires StepOk(Final(start, log), e, State(files, pending)) && Justified(plan, log, e)
      modifies this`log
      ensures Consistent(plan) && log == old(log) + [Moment(e, step, State(files, pending))]
      ensures Cursor(log) == if e.Deleted? then Cursor(old(log)) else step + 1
      ensures RemovedCount(log) == old(RemovedCount(log)) + if e.Removed? then 1 else 0
    {
      var m := Moment(e, step, State(files, pending));
      RunLogExtends(plan, start, log, m);
      RemovedCountSnoc(log, m);
      assert (log + [m])[..|log|] == log;
      log := log + [m];
    }

    method Restore(o: Orphan, ghost plan: Plan, ghost step: nat) returns (ok: bool)
      requires Consistent(plan) && plan.mode.AlwaysRecover? && Next(plan, step, o)
      modifies this
      ensures Consistent(plan) && Now() == AfterRestore(old(Now()), o, fault) && ok == Restores(old(Now()), o, fault)
      ensures old(log) <= log && RemovedCount(log) == old(RemovedCount(log)) && Cursor(log) <= step + 1
      ensures ok ==> log != [] && log[|log| - 1].event == Restored(o.backup, o.original) && log[|log| - 1].step == step
    {
      var outcome := fault(clock);
      clock := clock + 1;
      if o.backup !in files || outcome.Fails? {
        return false;
      }
      if outcome.FailsMidway? {
        files := files[o.original := outcome.junk];
        Note(Spoiled(o.backup, o.original), plan, step);
        return false;
      }
      files := files[o.original := files[o.backup]];
      Note(Restored(o.backup, o.original), plan, step);
      ok := true;
    }

    method RemoveBackup(b: Path, ghost plan: Plan, ghost step: nat) returns (ok: bool)
      requires Consistent(plan) && Justified(plan, log, Removed(b)) && Cursor(log) <= step + 1
      requires forall after :: InTurn(plan, log, Moment(Removed(b), step, after))
      modifies this
      ensures Consistent(plan) && Now() == AfterRemove(old(Now()), b, fault) && ok == Removes(old(Now()), b, fault)
      ensures old(log) <= log && Cursor(log) <= step + 1
      ensures RemovedCount(log) == old(RemovedCount(log)) + if ok then 1 else 0
      ensures ok ==> HasRemoved(log, b)
    {
      var outcome := fault(clock);
      clock := clock + 1;
      if b !in files || !outcome.NoFault? {
        return false;
      }
      files := files - {b};
      Note(Removed(b), plan, step);
      ok := true;
      assert log[|log| - 1].event == Removed(b);
    }

    method DeletePendingOp(id: string, ghost plan: Plan) returns (ok: bool)
      requires Consistent(plan) && Justified(plan, log, Deleted(id))
      modifies this
      ensures Consistent(plan) && Now() == AfterDelete(old(Now()), id, fault) && ok == fault(old(clock)).NoFault?
      ensures old(log) <= log && RemovedCount(log) == old(RemovedCount(log)) && Cursor(log) == old(Cursor(log))
    {
      var outcome := fault(clock);
      clock := clock + 1;
      if !outcome.NoFault? {
        return false;
      }
      pending := pending - {id};
      Note(Deleted(id), plan, 0);
      ok := true;
    }

    method ListPendingOps() returns (r: Result<seq<PendingOp>, ()>)
      modifies this`clock
      ensures clock == old(clock) + 1
      ensures r.Ok? <==> fault(old(clock)).NoFault?
      ensures r.Ok? ==> Lists(r.value, pending)
    {
      var outcome := fault(clock);
      clock := clock + 1;
      if !outcome.NoFault? {
        return Err(());
      }
      var listing: seq<PendingOp> := [];
      var left := pending.Keys;
      while left != {}
        invariant left <= pending.Keys
        invariant forall op :: op in listing <==> op.id in pending && op.id !in left && pending[op.id] == op.path
        invariant forall i, j :: 0 <= i < j < |listing| ==> listing[i].id != listing[j].id
        decreases |left|
      {
        var id :| id in left;
        forall i | 0 <= i < |listing| ensures listing[i].id != id { assert listing[i] in listing; }
        listing := listing + [PendingOp(id, pending[id])];
        left := left - {id};
      }
      r := Ok(listing);
    }

    /** `recover`: restore, then remove. */
    method Recover(o: Orphan, ghost plan: Plan, ghost step: nat) returns (ok: bool)
      requires Consistent(plan) && plan.mode.AlwaysRecover? && Next(plan, step, o)
      modifies this
      ensures Consistent(plan) && Now() == AfterAttempt(old(Now()), AlwaysRecover, o, fault)
      ensures ok == Succeeds(old(Now()), AlwaysRecover, o, fault) && (ok ==> HasRemoved(log, o.backup))
      ensures old(log) <= log && Cursor(log) <= step + 1
      ensures RemovedCount(log) == old(RemovedCount(log)) + if ok then 1 else 0
    {
      ok := Restore(o, plan, step);
      if ok {
        ok := RemoveBackup(o.backup, plan, step);
      }
    }

    /** `discard`: remove without restoring. */
    method Discard(o: Orphan, ghost plan: Plan, ghost step: nat) returns (ok: bool)
      requires Consistent(plan) && plan.mode.AlwaysDiscard? && Next(plan, step, o)
      modifies this
      ensures Consistent(plan) && Now() == AfterAttempt(old(Now()), AlwaysDiscard, o, fault)
      ensures ok == Succeeds(old(Now()), AlwaysDiscard, o, fault) && (ok ==> HasRemoved(log, o.backup))
      ensures old(log) <= log && Cursor(log) <= step + 1
      ensures RemovedCount(log) == old(RemovedCount(log)) + if ok then 1 else 0
    {
      ok := RemoveBackup(o.backup, plan, step);
    }

    /** `resolve_single_orphan`: on success, the operations on the same path are deleted. */
    method ResolveSingleOrphan(o: Orphan, mode: Mode, listing: seq<PendingOp>, ghost plan: Plan, ghost step: nat)
      returns (ok: bool)
      requires Consistent(plan) && Next(plan, step, o) && mode == plan.mode && listing == plan.listing
      modifies this
      ensures Consistent(plan) && Now() == AfterResolve(old(Now()), mode, listing, o, fault)
      ensures old(log) <= log && Cursor(log) <= step + 1
      ensures RemovedCount(log) == old(RemovedCount(log)) + if ok then 1 else 0
    {
      if mode.AlwaysRecover? {
        ok := Recover(o, plan, step);
      } else {
        ok := Discard(o, plan, step);
      }
      if ok {
        DeleteResolved(o, listing, plan);
      }
    }

    method DeleteResolved(o: Orphan, listing: seq<PendingOp>, ghost plan: Plan)
      requires Consistent(plan) && listing == plan.listing && o in plan.Orphans() && HasRemoved(log, o.backup)
      modifies this
      ensures Consistent(plan) && Now() == AfterDeletes(old(Now()), listing, |listing|, o.original, fault)
      ensures old(log) <= log && Cursor(log) == old(Cursor(log)) && RemovedCount(log) == old(RemovedCount(log))
    {
      for i := 0 to |listing|
        invariant Consistent(plan) && old(log) <= log
        invariant Cursor(log) == old(Cursor(log)) && RemovedCount(log) == old(RemovedCount(log))
        invariant Now() == AfterDeletes(old(Now()), listing, i, o.original, fault)
      {
        var op := listing[i];
        if op.path == o.original {
          HasRemovedExtends(old(log), log, o.backup);
          assert op == PendingOp(op.id, o.original) && o == Orphan(o.backup, o.original);
          assert MayDelete(plan, log, o.original);
          var deleted := DeletePendingOp(op.id, plan);
        }
      }
    }

    /** `clean_stale_pending_ops`. */
    method CleanStalePendingOps(listing: seq<PendingOp>, ambiguous: set<Path>, dirs: seq<Path>, ghost plan: Plan)
      requires Consistent(plan) && plan.Orphans() == []
      requires listing == plan.listing && ambiguous == plan.ambiguous && dirs == plan.dirs
      modifies this
      ensures Consistent(plan) && Now() == AfterClean(old(Now()), plan, |listing|, fault)
      ensures RemovedCount(log) == old(RemovedCount(log))
    {
      for i := 0 to |listing|
        invariant Consistent(plan) && RemovedCount(log) == old(RemovedCount(log))
        invariant Now() == AfterClean(old(Now()), plan, i, fault)
      {
        var op := listing[i];
        if op.path in ambiguous || !UnderAny(op.path, dirs) {
          continue;
        }
        assert op == PendingOp(op.id, op.path) && MayDelete(plan, log, op.path);
        var deleted := DeletePendingOp(op.id, plan);
      }
    }

    /** The loop over the selection: a failure at one orphan does not stop it. */
    method ResolveAll(orphans: seq<Orphan>, mode: Mode, listing: seq<PendingOp>, ghost plan: Plan)
      returns (resolved: nat)
      requires Consistent(plan) && RemovedCount(log) == 0 && Cursor(log) == 0
      requires orphans == plan.Orphans() && mode == plan.mode && listing == plan.listing
      modifies this
      ensures Consistent(plan) && resolved == RemovedCount(log)
      ensures Now() == AfterOrphans(old(Now()), mode, listing, orphans, |orphans|, fault)
    {
      resolved := 0;
      for i := 0 to |orphans|
        invariant Consistent(plan) && resolved == RemovedCount(log) && Cursor(log) <= i
        invariant Now() == AfterOrphans(old(Now()), mode, listing, orphans, i, fault)
      {
        assert orphans[i] in plan.Orphans();
        var ok := ResolveSingleOrphan(orphans[i], mode, listing, plan, i);
        if ok { resolved := resolved + 1; }
      }
    }

    /**
     * `check_and_recover_under`. `found` and `entries` are what the directory walks list; `plan`
     * is what the run derives from them and the listed operations. The new state is that plan's
     * run for the failures that happen, and the log records it step by step.
     */
    method CheckAndRecoverUnder(mode: Mode, found: seq<Path>, entries: seq<Path>, dirs: seq<Path>,
                                normalize: Path -> Path, isUuid: string -> bool)
      returns (resolved: nat, ghost plan: Plan)
      requires log == [] && start == State(files, pending)
      modifies this
      ensures if fault(old(clock)).NoFault? then Lists(plan.listing, old(pending)) else plan.listing == []
      ensures plan.mode == mode && plan.dirs == dirs && DerivedFrom(plan, found, entries, normalize, isUuid)
      ensures Consistent(plan) && resolved == RemovedCount(log)
      ensures Now() == AfterRun(Tick(old(Now())), plan, fault)
    {
      var listed := ListPendingOps();
      var listing := if listed.Ok? then listed.value else [];
      var siblings := FindOrphans(found, normalize);
      var globals, ambiguous := CollectGlobalBackups(entries, listing, isUuid);
      plan := Plan(mode, listing, siblings + globals, ambiguous, dirs);
      resolved := Execute(mode, listing, siblings + globals, ambiguous, dirs, plan);
    }

    /** The run after its inputs are gathered. */
    method Execute(mode: Mode, listing: seq<PendingOp>, backups: seq<Orphan>, ambiguous: set<Path>, dirs: seq<Path>,
                   ghost plan: Plan)
      returns (resolved: nat)
      requires log == [] && start == State(files, pending)
      requires plan == Plan(mode, listing, backups, ambiguous, dirs)
      modifies this
      ensures Consistent(plan) && resolved == RemovedCount(log)
      ensures Now() == AfterRun(old(Now()), plan, fault)
    {
      if listing == [] && backups == [] {
        return 0;
      }
      var orphans := SelectOrphans(backups, listing);
      if orphans == [] {
        if listing != [] {
          CleanStalePendingOps(listing, ambiguous, dirs, plan);
        }
        return 0;
      }
      resolved := ResolveAll(orphans, mode, listing, plan);
    }
  }
}
