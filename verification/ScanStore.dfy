/**
 * The store's scan-session calls in imperative form, and the batch reconciliation built on them.
 * Any call may fail with the tables unchanged, as a rolled-back transaction leaves them.
 */
module ScanStore {
  import opened Common
  import opened ScanSessions
  import opened ScanRuns

  datatype ReconcileResult = ReconcileResult(
    newFiles: nat,
    unchangedFiles: nat,
    moved: nat,
    externalChanges: nat,
    missing: nat,
    needsIntrospection: seq<Path>)

  datatype FinishOutcome = FinishOutcome(missing: nat, promotedMoves: nat)

  datatype StoreError = StorageFailure | SessionBusy | SessionNotOpen

  /** `needs_introspection_path`. */
  function NeedsIntrospection(d: Decision, p: Path): Option<Path> {
    match d
    case New(_, needs) => if needs then Some(p) else None
    case ExternallyChanged(_, _) => Some(p)
    case Moved(_, _) => Some(p)
    case Unchanged(_) => None
    case Duplicate(_) => None
  }

  // ----- counting decisions -----

  function CountNew(ds: seq<Decision>): nat {
    if ds == [] then 0 else CountNew(ds[..|ds| - 1]) + if ds[|ds| - 1].New? then 1 else 0
  }

  function CountUnchanged(ds: seq<Decision>): nat {
    if ds == [] then 0 else CountUnchanged(ds[..|ds| - 1]) + if ds[|ds| - 1].Unchanged? then 1 else 0
  }

  function CountExternal(ds: seq<Decision>): nat {
    if ds == [] then 0 else CountExternal(ds[..|ds| - 1]) + if ds[|ds| - 1].ExternallyChanged? then 1 else 0
  }

  function CountMoved(ds: seq<Decision>): nat {
    if ds == [] then 0 else CountMoved(ds[..|ds| - 1]) + if ds[|ds| - 1].Moved? then 1 else 0
  }

  function CountDuplicate(ds: seq<Decision>): nat {
    if ds == [] then 0 else CountDuplicate(ds[..|ds| - 1]) + if ds[|ds| - 1].Duplicate? then 1 else 0
  }

  lemma {:induction false} DecisionsPartition(ds: seq<Decision>)
    ensures CountNew(ds) + CountUnchanged(ds) + CountExternal(ds) + CountMoved(ds) + CountDuplicate(ds) == |ds|
  {
    if ds != [] { DecisionsPartition(ds[..|ds| - 1]); }
  }

  /** The paths whose decision asks for introspection, in input order. */
  function IntrospectionList(files: seq<Discovered>, ds: seq<Decision>): seq<Path>
    requires |ds| <= |files|
  {
    if ds == [] then []
    else
      var n := |ds| - 1;
      IntrospectionList(files, ds[..n]) +
      match NeedsIntrospection(ds[n], files[n].path) case Some(p) => [p] case None => []
  }

  /** Every new file is to be introspected. */
  ghost predicate NewNeedsIntrospection(ds: seq<Decision>) {
    forall i :: 0 <= i < |ds| && ds[i].New? ==> ds[i].needsIntrospection
  }

  /**
   * `list` holds, in input order, the paths of exactly those files that are new, changed outside or
   * moved; `at` says which.
   */
  ghost predicate ListsAt(files: seq<Discovered>, ds: seq<Decision>, list: seq<Path>, at: seq<nat>)
    requires |ds| <= |files|
  {
    && |at| == |list|
    && (forall k :: 0 <= k < |at| ==> at[k] < |ds| && list[k] == files[at[k]].path)
    && (forall j, k :: 0 <= j < k < |at| ==> at[j] < at[k])
    && (forall i :: 0 <= i < |ds| ==> (i in at <==> ds[i].New? || ds[i].ExternallyChanged? || ds[i].Moved?))
  }

  ghost predicate Introspects(files: seq<Discovered>, ds: seq<Decision>, list: seq<Path>)
    requires |ds| <= |files|
  {
    exists at: seq<nat> :: ListsAt(files, ds, list, at)
  }

  /** The list is that subsequence, and as long as the three counters together. */
  lemma {:induction false} IntrospectionExact(files: seq<Discovered>, ds: seq<Decision>) returns (at: seq<nat>)
    requires |ds| <= |files| && NewNeedsIntrospection(ds)
    ensures ListsAt(files, ds, IntrospectionList(files, ds), at)
    ensures |IntrospectionList(files, ds)| == CountNew(ds) + CountExternal(ds) + CountMoved(ds)
  {
    at := [];
    if ds != [] {
      var n := |ds| - 1;
      var before := IntrospectionExact(files, ds[..n]);
      at := before;
      if ds[n].New? || ds[n].ExternallyChanged? || ds[n].Moved? { at := before + [n]; }
      forall i | 0 <= i < |ds|
        ensures i in at <==> ds[i].New? || ds[i].ExternallyChanged? || ds[i].Moved?
      {
        if i < n {
          assert ds[..n][i] == ds[i] && (i in at <==> i in before);
        } else {
          assert i !in before;
        }
      }
    }
  }

  ghost function IndicesOf(ds: seq<Decision>, kind: Decision -> bool): set<nat> {
    set i: nat | i < |ds| && kind(ds[i])
  }

  lemma IndicesSnoc(ds: seq<Decision>, kind: Decision -> bool)
    requires ds != []
    ensures |IndicesOf(ds, kind)| == |IndicesOf(ds[..|ds| - 1], kind)| + if kind(ds[|ds| - 1]) then 1 else 0
  {
    var n := |ds| - 1;
    var before := IndicesOf(ds[..n], kind);
    assert IndicesOf(ds, kind) == if kind(ds[n]) then before + {n} else before;
  }

  /** Each counter is the number of decisions of its kind. */
  lemma {:induction false} CountsExact(ds: seq<Decision>)
    ensures CountNew(ds) == |set i: nat | i < |ds| && ds[i].New?|
    ensures CountUnchanged(ds) == |set i: nat | i < |ds| && ds[i].Unchanged?|
    ensures CountExternal(ds) == |set i: nat | i < |ds| && ds[i].ExternallyChanged?|
    ensures CountMoved(ds) == |set i: nat | i < |ds| && ds[i].Moved?|
    ensures CountDuplicate(ds) == |set i: nat | i < |ds| && ds[i].Duplicate?|
  {
    IndicesAre(ds);
    if ds != [] {
      CountsExact(ds[..|ds| - 1]);
      IndicesAre(ds[..|ds| - 1]);
      IndicesSnoc(ds, IsNew);
      IndicesSnoc(ds, IsUnchanged);
      IndicesSnoc(ds, IsExternal);
      IndicesSnoc(ds, IsMoved);
      IndicesSnoc(ds, IsDuplicate);
    }
  }

  ghost predicate IsNew(d: Decision) { d.New? }
  ghost predicate IsUnchanged(d: Decision) { d.Unchanged? }
  ghost predicate IsExternal(d: Decision) { d.ExternallyChanged? }
  ghost predicate IsMoved(d: Decision) { d.Moved? }
  ghost predicate IsDuplicate(d: Decision) { d.Duplicate? }

  lemma IndicesAre(ds: seq<Decision>)
    ensures IndicesOf(ds, IsNew) == set i: nat | i < |ds| && ds[i].New?
    ensures IndicesOf(ds, IsUnchanged) == set i: nat | i < |ds| && ds[i].Unchanged?
    ensures IndicesOf(ds, IsExternal) == set i: nat | i < |ds| && ds[i].ExternallyChanged?
    ensures IndicesOf(ds, IsMoved) == set i: nat | i < |ds| && ds[i].Moved?
    ensures IndicesOf(ds, IsDuplicate) == set i: nat | i < |ds| && ds[i].Duplicate?
  {
  }

  /** The running totals after the decisions `ds`. */
  function Tally(files: seq<Discovered>, ds: seq<Decision>): ReconcileResult
    requires |ds| <= |files|
  {
    ReconcileResult(CountNew(ds), CountUnchanged(ds), CountMoved(ds), CountExternal(ds), 0,
                    IntrospectionList(files, ds))
  }

  /** A decision repeats exactly when its path came earlier in the batch. */
  ghost predicate DuplicatesExact(files: seq<Discovered>, ds: seq<Decision>)
    requires |ds| <= |files|
  {
    forall i :: 0 <= i < |ds| ==> (ds[i].Duplicate? <==> exists j :: 0 <= j < i && files[j].path == files[i].path)
  }

  // ----- new rows are what promotion can use -----

  ghost function EligibleSet(db: Db, s: SessionId): set<FileId>
    requires s in db.sessions
  {
    set t | t in db.files && Eligible(db, s, t)
  }

  lemma IngestEligible(db: Db, s: SessionId, f: Discovered, now: Time, d: Decision, db': Db)
    requires Valid(db) && now > db.now && Ingests(db, s, f, now, d, db')
    ensures EligibleSet(db', s) == EligibleSet(db, s) + if d.New? then {d.id} else {}
    ensures d.New? ==> d.id !in EligibleSet(db, s)
  {
    assert OpenOwns(db, s);
    match d {
      case Duplicate(_) => SameEligible(db, s, db');
      case Unchanged(id) => SameEligible(db, s, db');
      case ExternallyChanged(id, prior) => SupersedeEligible(db, s, f, now, id, prior, db');
      case Moved(id, from) =>
        var vacated :| Vacated(db, s, f.path, vacated) && MovesRow(db, s, f, id, from, vacated, db'.files);
        var mid := db.(files := vacated);
        VacateEligible(db, s, f.path, mid);
        MoveEligible(mid, s, db', id);
      case New(id, _) =>
        var vacated :| Vacated(db, s, f.path, vacated) && InsertsRow(db, s, f, now, id, vacated, db'.files);
        var mid := db.(files := vacated);
        VacateEligible(db, s, f.path, mid);
        InsertEligible(mid, s, f, now, id, db');
    }
  }

  lemma SameEligible(db: Db, s: SessionId, db': Db)
    requires s in db.sessions && s in db'.sessions && db'.sessions[s] == db.sessions[s]
    requires OpenOwns(db, s) && db'.files.Keys == db.files.Keys
    requires forall k :: k in db.files ==>
               && db'.files[k].supersededBy == db.files[k].supersededBy
               && db'.files[k].createdAt == db.files[k].createdAt
               && db'.files[k].path.Some? == db.files[k].path.Some?
               && (db'.files[k].lastSeen == db.files[k].lastSeen || db.files[k].createdAt < db.sessions[s].startedAt)
    ensures EligibleSet(db', s) == EligibleSet(db, s)
  {
    forall t ensures t in EligibleSet(db', s) <==> t in EligibleSet(db, s) {
      if t in db.files {
        assert (forall k :: k in db.files ==> db.files[k].supersededBy != Some(t)) <==>
               (forall k :: k in db'.files ==> db'.files[k].supersededBy != Some(t));
      }
    }
  }

  lemma VacateEligible(db: Db, s: SessionId, p: Path, mid: Db)
    requires Valid(db) && Open(db, s) && Vacated(db, s, p, mid.files) && mid == db.(files := mid.files)
    ensures EligibleSet(mid, s) == EligibleSet(db, s) && OpenOwns(mid, s)
  {
    assert OpenOwns(db, s);
    if mid.files != db.files {
      var stub :| RowAt(db.files, p, stub) && db.files[stub].lastSeen != Some(s) &&
        mid.files == WithoutStub(db.files, stub);
      forall t | t in db.files && t != stub
        ensures Eligible(mid, s, t) <==> Eligible(db, s, t)
      {
        assert db.files[stub].supersededBy.None?;
        forall k | k in db.files && k != stub
          ensures mid.files[k].supersededBy == Some(t) <==> db.files[k].supersededBy == Some(t) {}
      }
    }
  }

  lemma MoveEligible(mid: Db, s: SessionId, db': Db, id: FileId)
    requires s in mid.sessions && OpenOwns(mid, s) && s in db'.sessions && db'.sessions[s] == mid.sessions[s]
    requires id in mid.files && mid.files[id].status.Missing? && mid.files[id].path.Some?
    requires db'.files.Keys == mid.files.Keys
    requires db'.files[id].supersededBy == mid.files[id].supersededBy &&
             db'.files[id].createdAt == mid.files[id].createdAt
             && db'.files[id].path.Some?
    requires forall k :: k in mid.files && k != id ==> db'.files[k] == mid.files[k]
    ensures EligibleSet(db', s) == EligibleSet(mid, s)
  {
    SameEligible(mid, s, db');
  }

  lemma InsertEligible(mid: Db, s: SessionId, f: Discovered, now: Time, id: FileId, db': Db)
    requires s in mid.sessions && mid.sessions[s].startedAt <= now && s in db'.sessions &&
             db'.sessions[s] == mid.sessions[s]
    requires FreshId(mid.files, id) && db'.files == mid.files[id := ActiveRow(f, s, now)]
    ensures EligibleSet(db', s) == EligibleSet(mid, s) + {id} && id !in EligibleSet(mid, s)
  {
    forall t | t in mid.files ensures Eligible(db', s, t) <==> Eligible(mid, s, t) {
      forall k | k in mid.files ensures db'.files[k] == mid.files[k] {}
    }
    assert Eligible(db', s, id);
  }

  lemma SupersedeEligible(db: Db, s: SessionId, f: Discovered, now: Time, id: FileId, prior: FileId, db': Db)
    requires Open(db, s) && OpenOwns(db, s) && Ingests(db, s, f, now, ExternallyChanged(id, prior), db')
    requires SupersededHavePassedOn(db.files)
    ensures EligibleSet(db', s) == EligibleSet(db, s)
  {
    assert db'.files[prior].supersededBy == Some(id);
    forall t | t in db.files ensures Eligible(db', s, t) <==> Eligible(db, s, t) {
      assert db.files[prior].supersededBy.None?;
      forall k | k in db.files ensures db'.files[k].supersededBy == Some(t) <==> db.files[k].supersededBy == Some(t) {}
    }
  }

  /** Each promotion uses up its own new row, so there are never more promotions than new files. */
  lemma PromotionsBounded(db: Db, s: SessionId, moves: map<FileId, FileId>)
    requires s in db.sessions && ValidMoves(db, s, moves)
    ensures |moves| <= |EligibleSet(db, s)|
  {
    InjectiveSize(moves);
    forall t | t in moves.Values ensures t in EligibleSet(db, s) {
      var c :| c in moves && moves[c] == t;
      assert Pairs(db, s, c, t);
    }
    SubsetCardinality(moves.Values, EligibleSet(db, s));
  }

  lemma {:induction false} InjectiveSize(m: map<FileId, FileId>)
    requires forall a, b :: a in m && b in m && m[a] == m[b] ==> a == b
    ensures |m.Values| == |m|
    decreases |m|
  {
    if m != map[] {
      var c :| c in m;
      var rest := m - {c};
      assert m.Keys == rest.Keys + {c} && |rest.Keys| == |rest|;
      InjectiveSize(rest);
      forall v ensures v in m.Values <==> v in rest.Values + {m[c]} {
        if v in m.Values {
          var k :| k in m && m[k] == v;
          if k != c { assert rest[k] == v; }
        }
      }
      assert m.Values == rest.Values + {m[c]};
      assert m[c] !in rest.Values;
    }
  }

  // ----- the finish pass, one update at a time -----

  /** The file table after promoting `moves`. */
  ghost predicate AfterMoves(db: Db, s: SessionId, moves: map<FileId, FileId>, files: map<FileId, Row>)
    requires s in db.sessions
  {
    && ValidMoves(db, s, moves)
    && files.Keys == db.files.Keys - moves.Values
    && (forall id :: id in files && id !in moves ==> files[id] == db.files[id])
    && (forall id :: id in files && id in moves ==>
        moves[id] in db.files && files[id] == Promoted(db, s, id, moves[id]))
  }

  /** What the finish pass relies on about an open session. */
  ghost predicate FinishReady(db: Db, s: SessionId) {
    Open(db, s) && OpenOwns(db, s) && SupersededHavePassedOn(db.files)
  }

  /** The query for a promotion target, on the updated table, finds exactly the unused new rows. */
  lemma EligibleAfterMoves(db: Db, s: SessionId, moves: map<FileId, FileId>, tx: Db, t: FileId)
    requires FinishReady(db, s) && AfterMoves(db, s, moves, tx.files) && tx == db.(files := tx.files)
    ensures Eligible(tx, s, t) <==> Eligible(db, s, t) && t !in moves.Values
    ensures Eligible(tx, s, t) ==> tx.files[t] == db.files[t]
  {
    forall c | c in moves ensures Candidate(db, s, c) && Eligible(db, s, moves[c]) { assert Pairs(db, s, c, moves[c]); }
    forall k | k in db.files && k in moves.Values ensures db.files[k].supersededBy.None? {
      var c :| c in moves && moves[c] == k;
    }
    if t in tx.files {
      forall k | k in tx.files ensures tx.files[k].supersededBy == db.files[k].supersededBy {}
      assert (forall k :: k in tx.files ==> tx.files[k].supersededBy != Some(t)) <==>
             (forall k :: k in db.files ==> db.files[k].supersededBy != Some(t));
    }
  }

  lemma ValuesAfterAdd(moves: map<FileId, FileId>, c: FileId, t: FileId)
    requires c !in moves
    ensures moves[c := t].Values == moves.Values + {t}
  {
    var moves' := moves[c := t];
    forall v | v in moves.Values + {t} ensures v in moves'.Values {
      if v in moves.Values {
        var k :| k in moves && moves[k] == v;
        assert moves'[k] == v;
      } else {
        assert moves'[c] == v;
      }
    }
  }

  lemma ValidMovesAdd(db: Db, s: SessionId, moves: map<FileId, FileId>, c: FileId, t: FileId)
    requires s in db.sessions && ValidMoves(db, s, moves)
    requires Pairs(db, s, c, t) && c !in moves && t !in moves.Values
    ensures ValidMoves(db, s, moves[c := t])
  {
    forall k | k in moves ensures moves[k] != t { assert moves[k] in moves.Values; }
  }

  lemma PromoteStep(db: Db, s: SessionId, moves: map<FileId, FileId>, files: map<FileId, Row>, c: FileId, t: FileId)
    requires s in db.sessions && AfterMoves(db, s, moves, files)
    requires Pairs(db, s, c, t) && c !in moves && c in files && t !in moves.Values
    ensures AfterMoves(db, s, moves[c := t], (files - {t})[c := Promoted(db, s, c, t)])
  {
    ValuesAfterAdd(moves, c, t);
    ValidMovesAdd(db, s, moves, c, t);
    assert c != t;
  }

  lemma CandidateStays(db: Db, s: SessionId, moves: map<FileId, FileId>, files: map<FileId, Row>, c: FileId)
    requires s in db.sessions && AfterMoves(db, s, moves, files) && Candidate(db, s, c)
    ensures c in files && !Eligible(db, s, c)
  {
    forall k | k in moves ensures moves[k] != c { assert Pairs(db, s, k, moves[k]); }
  }

  // ----- the finish pass in imperative form -----

  /** A new row that the candidate `c` can take on the updated table. */
  predicate Takes(tx: Db, s: SessionId, c: FileId, t: FileId)
    requires s in tx.sessions
  {
    t in tx.files && c in tx.files && Eligible(tx, s, t) && tx.files[c].expectedHash == Some(tx.files[t].contentHash)
  }

  lemma TakesExact(db: Db, s: SessionId, moves: map<FileId, FileId>, tx: Db, c: FileId, t: FileId)
    requires FinishReady(db, s) && AfterMoves(db, s, moves, tx.files) && tx == db.(files := tx.files)
    requires Candidate(db, s, c) && c !in moves
    ensures Takes(tx, s, c, t) <==> Pairs(db, s, c, t) && t !in moves.Values
  {
    CandidateStays(db, s, moves, tx.files, c);
    EligibleAfterMoves(db, s, moves, tx, t);
  }

  /** `try_promote_one_move_in_tx`. */
  method TryPromoteOne(db: Db, s: SessionId, c: FileId, files0: map<FileId, Row>, moves0: map<FileId, FileId>)
    returns (files: map<FileId, Row>, moves: map<FileId, FileId>, ok: bool)
    requires FinishReady(db, s) && AfterMoves(db, s, moves0, files0) && Candidate(db, s, c) && c !in moves0
    ensures AfterMoves(db, s, moves, files)
    ensures ok ==> |moves| == |moves0| + 1 && moves.Keys == moves0.Keys + {c} && moves0.Values <= moves.Values
    ensures !ok ==> moves == moves0 && forall t :: Pairs(db, s, c, t) ==> t in moves.Values
  {
    var tx := db.(files := files0);
    files, moves, ok := files0, moves0, false;
    if exists t :: t in tx.files && Takes(tx, s, c, t) {
      var t :| t in tx.files && Takes(tx, s, c, t);
      PromoteTaken(db, s, moves, tx, c, t);
      ValuesAfterAdd(moves, c, t);
      SizeAfterAdd(moves, c, t);
      files := (files - {t})[c := Promoted(db, s, c, t)];
      moves := moves[c := t];
      ok := true;
    } else {
      NothingToTake(db, s, moves, tx, c);
    }
  }

  lemma PromoteTaken(db: Db, s: SessionId, moves: map<FileId, FileId>, tx: Db, c: FileId, t: FileId)
    requires FinishReady(db, s) && AfterMoves(db, s, moves, tx.files) && tx == db.(files := tx.files)
    requires Candidate(db, s, c) && c !in moves && Takes(tx, s, c, t)
    ensures Pairs(db, s, c, t)
    ensures AfterMoves(db, s, moves[c := t], (tx.files - {t})[c := Promoted(db, s, c, t)])
  {
    TakesExact(db, s, moves, tx, c, t);
    CandidateStays(db, s, moves, tx.files, c);
    PromoteStep(db, s, moves, tx.files, c, t);
  }

  lemma SizeAfterAdd(moves: map<FileId, FileId>, c: FileId, t: FileId)
    requires c !in moves
    ensures moves[c := t].Keys == moves.Keys + {c} && |moves[c := t]| == |moves| + 1
  {
    assert moves[c := t].Keys == moves.Keys + {c};
    assert |moves.Keys| == |moves| && |moves[c := t].Keys| == |moves[c := t]|;
  }

  lemma NothingToTake(db: Db, s: SessionId, moves: map<FileId, FileId>, tx: Db, c: FileId)
    requires FinishReady(db, s) && AfterMoves(db, s, moves, tx.files) && tx == db.(files := tx.files)
    requires Candidate(db, s, c) && c !in moves && forall t :: t in tx.files ==> !Takes(tx, s, c, t)
    ensures forall t :: Pairs(db, s, c, t) ==> t in moves.Values
  {
    forall t | Pairs(db, s, c, t) ensures t in moves.Values { TakesExact(db, s, moves, tx, c, t); }
  }

  /** Every candidate outside `left` that has no move has no target left either. */
  ghost predicate Served(db: Db, s: SessionId, moves: map<FileId, FileId>, left: set<FileId>)
    requires s in db.sessions
  {
    forall c, t :: Pairs(db, s, c, t) && c !in left && c !in moves ==> t in moves.Values
  }

  /** `promote_moves_in_tx`: each candidate takes one matching new row, if any is left. */
  method PromoteMoves(db: Db, s: SessionId) returns (files: map<FileId, Row>, moves: map<FileId, FileId>, promoted: nat)
    requires FinishReady(db, s)
    ensures AfterMoves(db, s, moves, files) && MaximalMoves(db, s, moves) && promoted == |moves|
  {
    var left := set c | c in db.files && Candidate(db, s, c);
    files, moves, promoted := db.files, map[], 0;
    while left != {}
      invariant forall c :: c in left ==> Candidate(db, s, c) && c !in moves
      invariant AfterMoves(db, s, moves, files) && promoted == |moves|
      invariant Served(db, s, moves, left)
      decreases |left|
    {
      var c :| c in left;
      ghost var before, leftBefore := moves, left;
      left := left - {c};
      var ok;
      files, moves, ok := TryPromoteOne(db, s, c, files, moves);
      if ok { promoted := promoted + 1; }
      ServedStep(db, s, before, leftBefore, c, moves);
    }
  }

  lemma ServedStep(db: Db, s: SessionId, before: map<FileId, FileId>, left: set<FileId>, c: FileId,
                   moves: map<FileId, FileId>)
    requires s in db.sessions && Served(db, s, before, left) && before.Values <= moves.Values
    requires before.Keys <= moves.Keys
    requires c !in moves ==> forall t :: Pairs(db, s, c, t) ==> t in moves.Values
    ensures Served(db, s, moves, left - {c})
  {
  }

  ghost predicate MarksApplied(files0: map<FileId, Row>, marked: set<FileId>, files: map<FileId, Row>) {
    && files.Keys == files0.Keys
    && forall id :: id in files ==> files[id] == if id in marked then files0[id].(status := Missing) else files0[id]
  }

  function ToMark(db: Db, s: SessionId, files: map<FileId, Row>): set<FileId>
    requires s in db.sessions
  {
    set id | id in files && Unseen(files[id], s, db.sessions[s].roots) && (s, files[id].path.value) !in db.mutations
  }

  /** `mark_missing_in_finish_tx`, on the table left by the promotions. */
  method MarkMissing(db: Db, s: SessionId, files0: map<FileId, Row>) returns (files: map<FileId, Row>, missing: nat)
    requires s in db.sessions
    ensures MarksApplied(files0, ToMark(db, s, files0), files) && missing == |ToMark(db, s, files0)|
  {
    var candidates := ToMark(db, s, files0);
    files, missing := files0, 0;
    var left := candidates;
    while left != {}
      invariant left <= candidates && missing + |left| == |candidates|
      invariant MarksApplied(files0, candidates - left, files)
      decreases |left|
    {
      var id :| id in left;
      MarksStep(files0, candidates - left, files, id);
      assert candidates - (left - {id}) == candidates - left + {id};
      left := left - {id};
      files := files[id := files[id].(status := Missing)];
      missing := missing + 1;
    }
    assert candidates - {} == candidates;
  }

  lemma MarksStep(files0: map<FileId, Row>, done: set<FileId>, files: map<FileId, Row>, id: FileId)
    requires MarksApplied(files0, done, files) && id in files && id !in done
    ensures MarksApplied(files0, done + {id}, files[id := files[id].(status := Missing)])
  {
  }

  /** The finish transaction: promotions, then the missing pass, then the status. */
  method FinishTables(db: Db, s: SessionId, now: Time)
    returns (next: Db, outcome: FinishOutcome, moves: map<FileId, FileId>)
    requires FinishReady(db, s)
    ensures Finishes(db, s, now, moves, next) && outcome == FinishOutcome(|MarkedSet(db, s, moves)|, |moves|)
  {
    var files, promoted;
    files, moves, promoted := PromoteMoves(db, s);
    var after, missing := MarkMissing(db, s, files);
    MarkedOnUpdated(db, s, moves, files);
    FinishAssembled(db, s, now, moves, files, after);
    next := db.(files := after, now := now,
                sessions := db.sessions[s := db.sessions[s].(status := Completed, heartbeat := now)]);
    outcome := FinishOutcome(missing, promoted);
  }

  lemma FinishAssembled(db: Db, s: SessionId, now: Time, moves: map<FileId, FileId>, files: map<FileId, Row>,
                        after: map<FileId, Row>)
    requires Open(db, s) && AfterMoves(db, s, moves, files) && MaximalMoves(db, s, moves)
    requires MarksApplied(files, MarkedSet(db, s, moves), after)
    ensures Finishes(db, s, now, moves,
                     db.(files := after, now := now,
                         sessions := db.sessions[s := db.sessions[s].(status := Completed, heartbeat := now)]))
  {
  }

  // ----- a batch of ingests -----

  ghost predicate SeenExactly(db: Db, s: SessionId, files: seq<Discovered>, n: nat)
    requires n <= |files|
  {
    forall p :: Seen(db, s, p) <==> exists j :: 0 <= j < n && files[j].path == p
  }

  /** After the decisions `ds`: what was seen, what counts as new, and which decisions repeat. */
  ghost predicate BatchAt(db: Db, s: SessionId, files: seq<Discovered>, ds: seq<Decision>) {
    && |ds| <= |files| && Open(db, s)
    && SeenExactly(db, s, files, |ds|)
    && |EligibleSet(db, s)| == CountNew(ds)
    && DuplicatesExact(files, ds) && NewNeedsIntrospection(ds)
  }

  lemma BatchStart(db: Db, roots: seq<Path>, s: SessionId, now: Time, files: seq<Discovered>)
    requires FreshSession(db, s)
    ensures BatchAt(AfterBegin(db, roots, s, now), s, files, [])
  {
    var db' := AfterBegin(db, roots, s, now);
    assert EligibleSet(db', s) == {};
    assert forall p :: !Seen(db', s, p);
  }

  lemma IngestSeesOnly(db: Db, s: SessionId, f: Discovered, now: Time, d: Decision, db': Db, p: Path)
    requires Valid(db) && Ingests(db, s, f, now, d, db')
    ensures Seen(db', s, p) <==> Seen(db, s, p) || p == f.path
  {
    IngestSees(db, s, f, now, d, db');
    if p != f.path && Seen(db', s, p) {
      var id :| SeenAs(db', s, p, id);
      SeenWasThere(db, s, f, now, d, db', p, id);
    }
    if Seen(db, s, p) {
      var id :| SeenAs(db, s, p, id);
      IngestKeepsSeen(db, s, f, now, d, db', p, id);
    }
  }

  lemma SeenWasThere(db: Db, s: SessionId, f: Discovered, now: Time, d: Decision, db': Db, p: Path, id: FileId)
    requires Ingests(db, s, f, now, d, db') && SeenAs(db', s, p, id) && p != f.path
    ensures SeenAs(db, s, p, id)
  {
    match d {
      case Moved(k, from) =>
        var vacated :| Vacated(db, s, f.path, vacated) && MovesRow(db, s, f, k, from, vacated, db'.files);
      case New(k, _) =>
        var vacated :| Vacated(db, s, f.path, vacated) && InsertsRow(db, s, f, now, k, vacated, db'.files);
      case _ =>
    }
  }

  lemma SeenStep(db: Db, s: SessionId, files: seq<Discovered>, n: nat, now: Time, d: Decision, db': Db)
    requires Valid(db) && n < |files| && SeenExactly(db, s, files, n) && Ingests(db, s, files[n], now, d, db')
    ensures SeenExactly(db', s, files, n + 1)
    ensures d.Duplicate? <==> exists j :: 0 <= j < n && files[j].path == files[n].path
  {
    SeenIsDuplicate(db, s, files[n], now, d, db');
    forall p ensures Seen(db', s, p) <==> exists j :: 0 <= j < n + 1 && files[j].path == p {
      IngestSeesOnly(db, s, files[n], now, d, db', p);
    }
  }

  lemma BatchStep(db: Db, s: SessionId, files: seq<Discovered>, ds: seq<Decision>, now: Time, d: Decision, db': Db)
    requires Valid(db) && now > db.now && BatchAt(db, s, files, ds) && |ds| < |files|
    requires Ingests(db, s, files[|ds|], now, d, db')
    ensures BatchAt(db', s, files, ds + [d])
    ensures Tally(files, ds + [d]) == Count(Tally(files, ds), d, files[|ds|].path)
  {
    SeenStep(db, s, files, |ds|, now, d, db');
    IngestEligible(db, s, files[|ds|], now, d, db');
    TallyStep(files, ds, d);
  }

  lemma TallyStep(files: seq<Discovered>, ds: seq<Decision>, d: Decision)
    requires |ds| < |files|
    ensures Tally(files, ds + [d]) == Count(Tally(files, ds), d, files[|ds|].path)
    ensures CountNew(ds + [d]) == CountNew(ds) + if d.New? then 1 else 0
  {
    CountsStep(ds, d);
    IntrospectionStep(files, ds, d);
  }

  lemma CountsStep(ds: seq<Decision>, d: Decision)
    ensures CountNew(ds + [d]) == CountNew(ds) + if d.New? then 1 else 0
    ensures CountUnchanged(ds + [d]) == CountUnchanged(ds) + if d.Unchanged? then 1 else 0
    ensures CountExternal(ds + [d]) == CountExternal(ds) + if d.ExternallyChanged? then 1 else 0
    ensures CountMoved(ds + [d]) == CountMoved(ds) + if d.Moved? then 1 else 0
  {
    assert (ds + [d])[..|ds|] == ds;
  }

  lemma IntrospectionStep(files: seq<Discovered>, ds: seq<Decision>, d: Decision)
    requires |ds| < |files|
    ensures IntrospectionList(files, ds + [d]) ==
            IntrospectionList(files, ds) +
            match NeedsIntrospection(d, files[|ds|].path) case Some(p) => [p] case None => []
  {
    assert (ds + [d])[..|ds|] == ds;
  }

  /** The body of the ingest loop: one counter, and perhaps one path to introspect. */
  function Count(t: ReconcileResult, d: Decision, p: Path): ReconcileResult {
    var counted := match d
      case New(_, _) => t.(newFiles := t.newFiles + 1)
      case Unchanged(_) => t.(unchangedFiles := t.unchangedFiles + 1)
      case ExternallyChanged(_, _) => t.(externalChanges := t.externalChanges + 1)
      case Moved(_, _) => t.(moved := t.moved + 1)
      case Duplicate(_) => t;
    match NeedsIntrospection(d, p)
    case Some(q) => counted.(needsIntrospection := counted.needsIntrospection + [q])
    case None => counted
  }

  /** What a successful reconciliation of `files` reports, for its decisions and the finish outcome. */
  ghost predicate Reports(files: seq<Discovered>, ds: seq<Decision>, finish: FinishOutcome, t: ReconcileResult) {
    && |ds| == |files|
    && DuplicatesExact(files, ds)
    && finish.promotedMoves <= CountNew(ds)
    && t == ReconcileResult(CountNew(ds) - finish.promotedMoves, CountUnchanged(ds),
                            CountMoved(ds) + finish.promotedMoves,
                            CountExternal(ds), finish.missing, t.needsIntrospection)
    && Introspects(files, ds, t.needsIntrospection)
    && |t.needsIntrospection| == CountNew(ds) + CountExternal(ds) + CountMoved(ds)
  }

  /** The counters after the finish: promoted rows were counted as new and are moves. */
  function Settle(t: ReconcileResult, finish: FinishOutcome): ReconcileResult {
    t.(missing := finish.missing, newFiles := SaturatingSub(t.newFiles, finish.promotedMoves),
       moved := t.moved + finish.promotedMoves)
  }

  lemma BatchFinishes(db: Db, s: SessionId, files: seq<Discovered>, ds: seq<Decision>, now: Time,
                      moves: map<FileId, FileId>, db': Db, finish: FinishOutcome)
    requires Valid(db) && BatchAt(db, s, files, ds) && |ds| == |files|
    requires Finishes(db, s, now, moves, db') && finish.promotedMoves == |moves|
    ensures Reports(files, ds, finish, Settle(Tally(files, ds), finish)) && Closed(db', s)
  {
    PromotionsBounded(db, s, moves);
    var at := IntrospectionExact(files, ds);
  }

  /** Nothing is lost or counted twice: the counters and the dropped duplicates add up to the input. */
  lemma ReportConserves(files: seq<Discovered>, ds: seq<Decision>, finish: FinishOutcome, t: ReconcileResult)
    requires Reports(files, ds, finish, t)
    ensures t.newFiles + t.unchangedFiles + t.moved + t.externalChanges + CountDuplicate(ds) == |files|
  {
    DecisionsPartition(ds);
  }

  /** Ids are handed out in order, so that a new one is fresh. */
  predicate IdsBelow(id: FileId, row: Row, bound: nat) {
    && id < bound
    && (row.lastSeen.Some? ==> row.lastSeen.value < bound)
    && (row.supersededBy.Some? ==> row.supersededBy.value < bound)
  }

  datatype Request =
    | BeginCall
    | IngestCall(session: SessionId, path: Path)
    | FinishCall(session: SessionId)
    | CancelCall(session: SessionId)
    | HeartbeatCall(session: SessionId)
    | RecordCall(session: SessionId)

  /** What a reconciliation did: its session, the tables before and after each ingest, and the finish. */
  datatype Batch = Batch(
    session: SessionId, dbs: seq<Db>, ds: seq<Decision>, moves: map<FileId, FileId>, finish: FinishOutcome)

  ghost predicate Began(db: Db, dirs: seq<Path>, s: SessionId, db': Db) {
    CanBegin(db, db'.now) && FreshSession(db, s) && db' == AfterBegin(db, dirs, s, db'.now)
  }

  ghost predicate IngestsAt(s: SessionId, files: seq<Discovered>, dbs: seq<Db>, ds: seq<Decision>, i: nat)
    requires i < |ds| <= |files| && |dbs| == |ds| + 1
  {
    Ingests(dbs[i], s, files[i], dbs[i + 1].now, ds[i], dbs[i + 1])
  }

  /** `dbs` are the tables around the ingests of the first `|ds|` files, with decisions `ds`. */
  ghost predicate IngestRun(s: SessionId, files: seq<Discovered>, dbs: seq<Db>, ds: seq<Decision>) {
    |ds| <= |files| && |dbs| == |ds| + 1 && forall i :: 0 <= i < |ds| ==> IngestsAt(s, files, dbs, ds, i)
  }

  lemma IngestRunStep(s: SessionId, files: seq<Discovered>, dbs: seq<Db>, ds: seq<Decision>, d: Decision, db': Db)
    requires IngestRun(s, files, dbs, ds) && |ds| < |files|
    requires Ingests(dbs[|ds|], s, files[|ds|], db'.now, d, db')
    ensures IngestRun(s, files, dbs + [db'], ds + [d])
  {
    forall i | 0 <= i < |ds + [d]| ensures IngestsAt(s, files, dbs + [db'], ds + [d], i) {
      if i < |ds| { assert IngestsAt(s, files, dbs, ds, i); }
    }
  }

  /** Between two ingests of a batch. */
  ghost predicate InBatch(db: Db, files: seq<Discovered>, b: Batch, tally: ReconcileResult) {
    && BatchAt(db, b.session, files, b.ds) && IngestRun(b.session, files, b.dbs, b.ds)
    && b.dbs[|b.ds|] == db && tally == Tally(files, b.ds)
  }

  lemma InBatchStart(db: Db, files: seq<Discovered>, b: Batch)
    requires BatchAt(db, b.session, files, []) && b.dbs == [db] && b.ds == []
    ensures InBatch(db, files, b, ReconcileResult(0, 0, 0, 0, 0, []))
  {
  }

  ghost predicate FinishedWith(db: Db, b: Batch, db': Db) {
    Finishes(db, b.session, db'.now, b.moves, db') &&
    b.finish == FinishOutcome(|MarkedSet(db, b.session, b.moves)|, |b.moves|)
  }

  /** A whole reconciliation: begin, one ingest per file in order, finish, and the report of exactly these. */
  ghost predicate Reconciles(db: Db, dirs: seq<Path>, files: seq<Discovered>, b: Batch, t: ReconcileResult, db': Db) {
    && IngestRun(b.session, files, b.dbs, b.ds) && |b.ds| == |files|
    && Began(db, dirs, b.session, b.dbs[0])
    && FinishedWith(b.dbs[|files|], b, db')
    && Reports(files, b.ds, b.finish, t)
  }

  /** A reconciliation given up after some ingests: their rows stay, and the session is cancelled if that works. */
  ghost predicate Abandons(db: Db, dirs: seq<Path>, files: seq<Discovered>, b: Batch, cancelled: bool, db': Db) {
    && IngestRun(b.session, files, b.dbs, b.ds)
    && Began(db, dirs, b.session, b.dbs[0])
    && db' == if cancelled then AfterCancel(b.dbs[|b.ds|], b.session, db'.now) else b.dbs[|b.ds|]
  }

  lemma {:induction false} IngestRunSessions(s: SessionId, files: seq<Discovered>, dbs: seq<Db>, ds: seq<Decision>,
                                             i: nat)
    requires IngestRun(s, files, dbs, ds) && i <= |ds|
    ensures dbs[i].sessions == dbs[0].sessions
  {
    if i > 0 {
      IngestRunSessions(s, files, dbs, ds, i - 1);
      assert IngestsAt(s, files, dbs, ds, i - 1);
    }
  }

  /** Of the sessions that were not there before, only the batch's own can be open after its ingests. */
  lemma OnlyOwnSession(db: Db, dirs: seq<Path>, files: seq<Discovered>, b: Batch, t: SessionId)
    requires IngestRun(b.session, files, b.dbs, b.ds) && Began(db, dirs, b.session, b.dbs[0])
    requires Open(b.dbs[|b.ds|], t) && t !in db.sessions
    ensures t == b.session
  {
    IngestRunSessions(b.session, files, b.dbs, b.ds, |b.ds|);
  }

  /** A whole reconciliation leaves no new session open. */
  lemma ReconciledClosed(db: Db, dirs: seq<Path>, files: seq<Discovered>, b: Batch, t: ReconcileResult, db': Db,
                         x: SessionId)
    requires Reconciles(db, dirs, files, b, t, db') && x !in db.sessions
    ensures !Open(db', x) && Closed(db', b.session)
  {
    if Open(b.dbs[|b.ds|], x) { OnlyOwnSession(db, dirs, files, b, x); }
  }

  /** One given up leaves a new session open only if it is its own and the cancel failed. */
  lemma AbandonedOpen(db: Db, dirs: seq<Path>, files: seq<Discovered>, b: Batch, cancelled: bool, db': Db, x: SessionId)
    requires Abandons(db, dirs, files, b, cancelled, db') && x !in db.sessions
    ensures Open(db', x) ==> x == b.session && !cancelled
  {
    if Open(b.dbs[|b.ds|], x) { OnlyOwnSession(db, dirs, files, b, x); }
  }

  /** Some session was live when the call came. */
  ghost predicate Busy(db: Db) {
    exists now :: now > db.now && !CanBegin(db, now)
  }

  /** Looks for a session in progress with a live heartbeat. */
  method FindLive(db: Db, now: Time) returns (busy: bool)
    ensures busy <==> !CanBegin(db, now)
  {
    var left := db.sessions.Keys;
    while left != {}
      invariant left <= db.sessions.Keys
      invariant forall s :: s in db.sessions && s !in left && db.sessions[s].status.InProgress? ==>
                Stale(db.sessions[s], now)
      decreases |left|
    {
      var sid :| sid in left;
      if db.sessions[sid].status.InProgress? && !Stale(db.sessions[sid], now) { return true; }
      left := left - {sid};
    }
    busy := false;
  }

  class Store {
    var db: Db
    var nextId: nat
    var calls: nat
    ghost var requests: seq<Request>
    const fault: nat -> bool
    const pause: nat -> nat

    ghost predicate Sound()
      reads this
    {
      && Valid(db) && |requests| == calls
      && (forall s :: s in db.sessions ==> s < nextId)
      && (forall id :: id in db.files ==> IdsBelow(id, db.files[id], nextId))
    }

    /** Exactly one call was made since. */
    twostate predicate Asked(q: Request)
      reads this
    {
      calls == old(calls) + 1 && requests == old(requests) + [q]
    }

    /** When call number `n` reads the clock. */
    function CallTime(x: Db, n: nat): Time {
      x.now + 1 + pause(n)
    }

    /** Every call takes time and may fail. */
    method Call(ghost q: Request) returns (now: Time, fails: bool)
      modifies this`calls, this`requests
      ensures Asked(q) && now == CallTime(db, old(calls)) && now > db.now && fails == fault(old(calls))
    {
      now, fails := CallTime(db, calls), fault(calls);
      calls := calls + 1;
      requests := requests + [q];
    }

    method BeginScanSession(roots: seq<Path>) returns (r: Result<SessionId, StoreError>)
      requires Sound()
      modifies this
      ensures Sound() && Asked(BeginCall)
      ensures r.Ok? ==> Began(old(db), roots, r.value, db) && !fault(old(calls))
      ensures r.Err? ==> db == old(db) && (fault(old(calls)) || Busy(db))
      ensures r.Err? <==>
              || fault(old(calls))
              || exists s ::
                   && s in old(db).sessions && old(db).sessions[s].status.InProgress?
                   && CallTime(old(db), old(calls)) - old(db).sessions[s].heartbeat < 61 * 1_000_000_000
    {
      var now, fails := Call(BeginCall);
      BeginRefusedIff(db, now);
      if fails { return Err(StorageFailure); }
      var busy := FindLive(db, now);
      if busy { return Err(SessionBusy); }
      var id := nextId;
      nextId := nextId + 1;
      BeginKeeps(db, roots, id, now);
      db := AfterBegin(db, roots, id, now);
      r := Ok(id);
    }

    method CancelScanSession(s: SessionId) returns (r: Result<(), StoreError>)
      requires Sound()
      modifies this
      ensures Sound() && Asked(CancelCall(s))
      ensures db == if r.Ok? then AfterCancel(old(db), s, db.now) else old(db)
      ensures r.Err? <==> fault(old(calls))
    {
      var now, fails := Call(CancelCall(s));
      if fails { return Err(StorageFailure); }
      CancelKeeps(db, s, now);
      db := AfterCancel(db, s, now);
      r := Ok(());
    }

    method HeartbeatScanSession(s: SessionId) returns (r: Result<(), StoreError>)
      requires Sound()
      modifies this
      ensures Sound() && Asked(HeartbeatCall(s))
      ensures db == if r.Ok? then AfterHeartbeat(old(db), s, db.now) else old(db)
      ensures r.Err? <==> fault(old(calls))
    {
      var now, fails := Call(HeartbeatCall(s));
      if fails { return Err(StorageFailure); }
      HeartbeatKeeps(db, s, now);
      db := AfterHeartbeat(db, s, now);
      r := Ok(());
    }

    /**
     * `record_mutation_for_pending_write`: nothing to do without a session or a storage handle; else
     * record or refuse.
     */
    method RecordMutationForPendingWrite(handle: bool, session: Option<SessionId>, source: Path, dest: Path)
      returns (r: Result<(), StoreError>)
      requires Sound()
      modifies this
      ensures Sound()
      ensures session.None? || !handle ==> r.Ok? && db == old(db)
      ensures session.Some? && handle ==>
                db == if r.Ok? then AfterRecord(old(db), session.value, source, dest, db.now) else old(db)
      ensures session.Some? && handle ==> Asked(RecordCall(session.value)) && (r.Err? <==> fault(old(calls)))
    {
      if session.None? { return Ok(()); }
      if !handle { return Ok(()); }
      var now, fails := Call(RecordCall(session.value));
      if fails { return Err(StorageFailure); }
      var m := MutationFor(session.value, source, dest);
      RecordCoversWrite(session.value, source, dest);
      RecordKeeps(db, session.value, source, dest, now);
      db := db.(mutations := db.mutations + RowsOf(m), now := now);
      r := Ok(());
    }

    method IngestDiscoveredFile(s: SessionId, f: Discovered) returns (r: Result<Decision, StoreError>)
      requires Sound()
      modifies this
      ensures Sound() && Asked(IngestCall(s, f.path))
      ensures r.Ok? ==> Ingests(old(db), s, f, db.now, r.value, db) && old(db).now < db.now
      ensures r.Ok? ==> !fault(old(calls))
      ensures r.Err? ==> db == old(db) && (fault(old(calls)) || !Open(db, s))
    {
      var now, fails := Call(IngestCall(s, f.path));
      if fails { return Err(StorageFailure); }
      if !Open(db, s) { return Err(SessionNotOpen); }
      var vacated := db.files;
      if exists id :: id in db.files && RowAt(db.files, f.path, id) {
        var id :| id in db.files && RowAt(db.files, f.path, id);
        var row := db.files[id];
        if row.lastSeen == Some(s) {
          Commit(s, f, now, Duplicate(id), db.files);
          return Ok(Duplicate(id));
        }
        if !IsStub(db, row) {
          if HashMatches(row, f.hash) {
            var files := db.files[id := row.(size := f.size, contentHash := f.hash, status := Active,
                                             lastSeen := Some(s), expectedHash := Some(f.hash))];
            Commit(s, f, now, Unchanged(id), files);
            return Ok(Unchanged(id));
          }
          var newId := FreshFileId();
          var files := db.files[id := row.(path := None, status := Missing, supersededBy := Some(newId))]
                               [newId := ActiveRow(f, s, now)];
          Commit(s, f, now, ExternallyChanged(newId, id), files);
          return Ok(ExternallyChanged(newId, id));
        }
        vacated := WithoutStub(db.files, id);
      }
      assert Vacated(db, s, f.path, vacated);
      r := IngestNoRow(s, f, now, vacated);
    }

    method FreshFileId() returns (id: FileId)
      requires Sound()
      modifies this`nextId
      ensures Sound() && FreshId(db.files, id) && id < nextId
    {
      id := nextId;
      nextId := nextId + 1;
    }

    /** The move-or-new branch. */
    method IngestNoRow(s: SessionId, f: Discovered, now: Time, vacated: map<FileId, Row>)
      returns (r: Result<Decision, StoreError>)
      requires Sound() && Open(db, s) && now > db.now && Vacated(db, s, f.path, vacated)
      modifies this`db, this`nextId
      ensures Sound()
      ensures r.Ok? && Ingests(old(db), s, f, db.now, r.value, db) && old(db).now < db.now
    {
      var roots := db.sessions[s].roots;
      if exists k ::
        k in vacated && vacated[k].path.Some? && MoveCandidate(vacated, roots, f.hash, k, vacated[k].path.value) {
        var k :| k in vacated && vacated[k].path.Some? &&
          MoveCandidate(vacated, roots, f.hash, k, vacated[k].path.value);
        var from := vacated[k].path.value;
        var files := vacated[k := vacated[k].(path := Some(f.path), size := f.size, contentHash := f.hash,
                                              status := Active, lastSeen := Some(s))];
        assert MovesRow(db, s, f, k, from, vacated, files);
        Commit(s, f, now, Moved(k, from), files);
        return Ok(Moved(k, from));
      }
      var id := FreshFileId();
      var files := vacated[id := ActiveRow(f, s, now)];
      assert InsertsRow(db, s, f, now, id, vacated, files);
      Commit(s, f, now, New(id, true), files);
      r := Ok(New(id, true));
    }

    method Commit(s: SessionId, f: Discovered, now: Time, ghost d: Decision, files: map<FileId, Row>)
      requires Sound() && Open(db, s) && now > db.now && Decides(db, s, f, now, d, files)
      requires forall id :: id in files ==> IdsBelow(id, files[id], nextId)
      modifies this`db
      ensures Sound() && db == old(db).(files := files, now := now)
      ensures Ingests(old(db), s, f, now, d, db)
    {
      ghost var next := db.(files := files, now := now);
      IngestKeeps(db, s, f, now, d, next);
      db := db.(files := files, now := now);
    }

    method FinishScanSession(s: SessionId)
      returns (r: Result<FinishOutcome, StoreError>, ghost moves: map<FileId, FileId>)
      requires Sound()
      modifies this
      ensures Sound() && Asked(FinishCall(s))
      ensures r.Ok? ==> Finishes(old(db), s, db.now, moves, db) && old(db).now < db.now
      ensures r.Ok? ==> r.value == FinishOutcome(|MarkedSet(old(db), s, moves)|, |moves|)
      ensures r.Ok? ==> !fault(old(calls))
      ensures r.Err? ==> db == old(db) && (fault(old(calls)) || !Open(db, s))
    {
      moves := map[];
      var now, fails := Call(FinishCall(s));
      if fails { return Err(StorageFailure), moves; }
      if !Open(db, s) { return Err(SessionNotOpen), moves; }
      assert OpenOwns(db, s);
      var next, outcome, pairs := FinishTables(db, s, now);
      moves := pairs;
      FinishKeeps(db, s, now, moves, next);
      FinishIdsBelow(db, s, now, moves, next, nextId);
      db := next;
      r := Ok(outcome);
    }

    /** The session body of `reconcile_discovered_files`: ingest each file, then finish. */
    method ReconcileBody(s: SessionId, discovered: seq<Discovered>)
      returns (r: Result<ReconcileResult, StoreError>, ghost b: Batch)
      requires Sound() && BatchAt(db, s, discovered, [])
      modifies this
      ensures Sound() && calls > old(calls) && b.session == s
      ensures IngestRun(s, discovered, b.dbs, b.ds) && b.dbs[0] == old(db)
      ensures r.Ok? ==>
              |b.ds| == |discovered| && FinishedWith(b.dbs[|b.ds|], b, db) &&
              Reports(discovered, b.ds, b.finish, r.value)
      ensures r.Err? ==> db == b.dbs[|b.ds|] && Open(db, s) && fault(calls - 1)
    {
      var tally;
      tally, b := IngestAll(s, discovered);
      if tally.Err? { return tally, b; }
      r, b := FinishReport(s, discovered, tally.value, b);
    }

    /** The loop: a failing ingest ends it. */
    method IngestAll(s: SessionId, discovered: seq<Discovered>)
      returns (r: Result<ReconcileResult, StoreError>, ghost b: Batch)
      requires Sound() && BatchAt(db, s, discovered, [])
      modifies this
      ensures Sound() && calls >= old(calls) && b.session == s
      ensures IngestRun(s, discovered, b.dbs, b.ds) && b.dbs[0] == old(db) && b.dbs[|b.ds|] == db && Open(db, s)
      ensures r.Ok? ==> InBatch(db, discovered, b, r.value) && |b.ds| == |discovered|
      ensures r.Err? ==> calls > old(calls) && fault(calls - 1)
    {
      var result := ReconcileResult(0, 0, 0, 0, 0, []);
      b := Batch(s, [db], [], map[], FinishOutcome(0, 0));
      InBatchStart(db, discovered, b);
      for i := 0 to |discovered|
        invariant Sound() && calls >= old(calls) && b.session == s
        invariant InBatch(db, discovered, b, result) && |b.ds| == i && b.dbs[0] == old(db)
      {
        var next;
        next, b := IngestNext(s, discovered[i], result, discovered, b);
        if next.Err? { return next, b; }
        result := next.value;
      }
      r := Ok(result);
    }

    /** One turn of the loop: ingest a file and count its decision. */
    method IngestNext(s: SessionId, f: Discovered, tally: ReconcileResult, ghost files: seq<Discovered>,
                      ghost b0: Batch)
      returns (r: Result<ReconcileResult, StoreError>, ghost b: Batch)
      requires Sound() && b0.session == s && InBatch(db, files, b0, tally) && |b0.ds| < |files| && f == files[|b0.ds|]
      modifies this
      ensures Sound() && calls > old(calls) && b.session == s && b.dbs != [] && b.dbs[0] == b0.dbs[0]
      ensures r.Ok? ==> |b.ds| == |b0.ds| + 1 && InBatch(db, files, b, r.value)
      ensures r.Err? ==> b == b0 && db == old(db) && fault(calls - 1)
    {
      b := b0;
      var decision := IngestDiscoveredFile(s, f);
      if decision.Err? { return Err(decision.error), b; }
      BatchStep(old(db), s, files, b.ds, db.now, decision.value, db);
      IngestRunStep(s, files, b.dbs, b.ds, decision.value, db);
      r := Ok(Count(tally, decision.value, f.path));
      b := b.(dbs := b.dbs + [db], ds := b.ds + [decision.value]);
    }

    /** Finish the session and move the promoted rows from new to moved. */
    method FinishReport(s: SessionId, ghost discovered: seq<Discovered>, tally: ReconcileResult, ghost b0: Batch)
      returns (r: Result<ReconcileResult, StoreError>, ghost b: Batch)
      requires Sound() && BatchAt(db, s, discovered, b0.ds) && |b0.ds| == |discovered| &&
               tally == Tally(discovered, b0.ds)
      requires b0.session == s
      modifies this
      ensures Sound() && calls > old(calls) && b == b0.(moves := b.moves, finish := b.finish)
      ensures r.Ok? ==> FinishedWith(old(db), b, db) && Reports(discovered, b.ds, b.finish, r.value)
      ensures r.Err? ==> db == old(db) && fault(calls - 1)
    {
      b := b0;
      var outcome, moves := FinishScanSession(s);
      if outcome.Err? { return Err(outcome.error), b; }
      b := b.(moves := moves, finish := outcome.value);
      BatchFinishes(old(db), s, discovered, b.ds, db.now, moves, db, outcome.value);
      r := Ok(Settle(tally, outcome.value));
    }

    /** The error branch of `with_scan_session`. */
    method Abandon(ghost db0: Db, ghost dirs: seq<Path>, ghost discovered: seq<Discovered>, ghost b: Batch,
                   s: SessionId)
      requires Sound() && b.session == s && IngestRun(s, discovered, b.dbs, b.ds)
      requires Began(db0, dirs, s, b.dbs[0]) && db == b.dbs[|b.ds|]
      modifies this
      ensures Sound() && Asked(CancelCall(s)) && Abandons(db0, dirs, discovered, b, !fault(old(calls)), db)
      ensures forall t :: Open(db, t) && t !in db0.sessions ==> fault(old(calls)) && t == s
    {
      var cancelled := CancelScanSession(s);
      forall t | Open(db, t) && t !in db0.sessions ensures fault(old(calls)) && t == s {
        AbandonedOpen(db0, dirs, discovered, b, !fault(old(calls)), db, t);
      }
    }

    /**
     * `reconcile_discovered_files` inside `with_scan_session`. A success is a whole session: begin,
     * one ingest per file, finish, and a report of exactly its decisions. On an error after the
     * session was opened the rows ingested so far stay and the last call made is the cancel, so the
     * session is left open only if that call failed too.
     */
    method ReconcileDiscoveredFiles(discovered: seq<Discovered>, dirs: seq<Path>)
      returns (r: Result<ReconcileResult, StoreError>, ghost b: Option<Batch>)
      requires Sound()
      modifies this
      ensures Sound() && calls > old(calls)
      ensures r.Ok? ==> b.Some? && Reconciles(old(db), dirs, discovered, b.value, r.value, db)
      ensures r.Err? && b.Some? ==> Abandons(old(db), dirs, discovered, b.value, !fault(calls - 1), db)
                                    && requests[calls - 1] == CancelCall(b.value.session)
                                    && calls - 2 > old(calls) && fault(calls - 2)
      ensures r.Err? && b.None? ==> db == old(db) && calls == old(calls) + 1 && (fault(old(calls)) || Busy(db))
      ensures forall t :: Open(db, t) && t !in old(db).sessions ==>
              fault(calls - 1) && requests[calls - 1] == CancelCall(t)
    {
      b := None;
      var begun := BeginScanSession(dirs);
      if begun.Err? { return Err(begun.error), b; }
      BatchStart(old(db), dirs, begun.value, db.now, discovered);
      ghost var batch;
      r, batch := ReconcileBody(begun.value, discovered);
      b := Some(batch);
      if r.Err? {
        Abandon(old(db), dirs, discovered, batch, begun.value);
      } else {
        forall t | t !in old(db).sessions ensures !Open(db, t) {
          ReconciledClosed(old(db), dirs, discovered, batch, r.value, db, t);
        }
      }
    }
  }

  function SaturatingSub(a: nat, b: nat): nat {
    if b <= a then a - b else 0
  }

  lemma FinishIdsBelow(db: Db, s: SessionId, now: Time, moves: map<FileId, FileId>, db': Db, bound: nat)
    requires Finishes(db, s, now, moves, db') && s < bound
    requires forall id :: id in db.files ==> IdsBelow(id, db.files[id], bound)
    ensures forall id :: id in db'.files ==> IdsBelow(id, db'.files[id], bound)
  {
  }

  /** The missing pass reads the promoted table, but marks what was unseen before promotion. */
  lemma MarkedOnUpdated(db: Db, s: SessionId, moves: map<FileId, FileId>, files: map<FileId, Row>)
    requires s in db.sessions && AfterMoves(db, s, moves, files)
    ensures ToMark(db, s, files) == MarkedSet(db, s, moves)
  {
    forall id ensures id in ToMark(db, s, files) <==> id in MarkedSet(db, s, moves) {
      if id in db.files && id in moves.Values {
        var c :| c in moves && moves[c] == id;
        assert Pairs(db, s, c, id);
      }
    }
  }
}
