/**
 * Scan sessions as the SQLite store implements them: each call is one transaction on the file,
 * session and mutation tables. A transaction that has a choice (a fresh id, one of several move
 * candidates) is described by its choice and the tables it leaves.
 */
module ScanSessions {
  import opened Common

  type Path = seq<string>
  type Hash = string
  type FileId = nat
  type SessionId = nat
  type Time = int

  const STALE_SESSION_SECS: int := 60

  /** Times are in nanoseconds, the resolution of the store's timestamps. */
  const SECOND: int := 1_000_000_000

  datatype FileStatus = Active | Missing | Quarantined
  datatype SessionStatus = InProgress | Completed | Cancelled

  datatype Session = Session(roots: seq<Path>, status: SessionStatus, startedAt: Time, heartbeat: Time)

  datatype Row = Row(
    path: Option<Path>,
    size: nat,
    contentHash: Hash,
    expectedHash: Option<Hash>,
    status: FileStatus,
    supersededBy: Option<FileId>,
    lastSeen: Option<SessionId>,
    createdAt: Time)

  datatype Db = Db(
    sessions: map<SessionId, Session>,
    files: map<FileId, Row>,
    mutations: set<(SessionId, Path)>,
    now: Time)

  datatype Discovered = Discovered(path: Path, size: nat, hash: Hash)

  datatype Decision =
    | New(id: FileId, needsIntrospection: bool)
    | Unchanged(id: FileId)
    | ExternallyChanged(id: FileId, superseded: FileId)
    | Moved(id: FileId, from: Path)
    | Duplicate(id: FileId)

  predicate UnderAny(p: Path, roots: seq<Path>) {
    exists r :: r in roots && r <= p
  }

  predicate Open(db: Db, s: SessionId) {
    s in db.sessions && db.sessions[s].status.InProgress?
  }

  // ----- begin, cancel, heartbeat -----

  predicate Stale(x: Session, now: Time) {
    (now - x.heartbeat) / SECOND > STALE_SESSION_SECS
  }

  /** Begin is refused while some open session has a live heartbeat. */
  predicate CanBegin(db: Db, now: Time) {
    forall s :: s in db.sessions && db.sessions[s].status.InProgress? ==> Stale(db.sessions[s], now)
  }

  /** Refused exactly while some open session's heartbeat is less than 61 seconds old. */
  lemma BeginRefusedIff(db: Db, now: Time)
    ensures !CanBegin(db, now) <==>
            exists s :: s in db.sessions && db.sessions[s].status.InProgress? &&
                        now - db.sessions[s].heartbeat < 61 * 1_000_000_000
  {
    forall s | s in db.sessions ensures Stale(db.sessions[s], now) <==>
        now - db.sessions[s].heartbeat >= 61 * 1_000_000_000
    {
    }
  }

  predicate FreshSession(db: Db, s: SessionId) {
    s !in db.sessions && forall id :: id in db.files ==> db.files[id].lastSeen != Some(s)
  }

  function CloseAll(sessions: map<SessionId, Session>, now: Time): map<SessionId, Session> {
    map s | s in sessions ::
      if sessions[s].status.InProgress? then sessions[s].(status := Cancelled, heartbeat := now) else sessions[s]
  }

  function AfterBegin(db: Db, roots: seq<Path>, id: SessionId, now: Time): Db {
    db.(sessions := CloseAll(db.sessions, now)[id := Session(roots, InProgress, now, now)], now := now)
  }

  function AfterCancel(db: Db, s: SessionId, now: Time): Db {
    if Open(db, s)
    then db.(sessions := db.sessions[s := db.sessions[s].(status := Cancelled, heartbeat := now)], now := now)
    else db.(now := now)
  }

  function AfterHeartbeat(db: Db, s: SessionId, now: Time): Db {
    if Open(db, s)
    then db.(sessions := db.sessions[s := db.sessions[s].(heartbeat := now)], now := now)
    else db.(now := now)
  }

  // ----- ingest -----

  predicate RowAt(files: map<FileId, Row>, p: Path, id: FileId) {
    id in files && files[id].path == Some(p)
  }

  /** The row was last touched by a session that did not complete. */
  predicate IsStub(db: Db, row: Row) {
    row.lastSeen.Some? &&
    !(row.lastSeen.value in db.sessions && db.sessions[row.lastSeen.value].status.Completed?)
  }

  predicate HashMatches(row: Row, hash: Hash) {
    row.expectedHash.None? || row.expectedHash.value == hash
  }

  /** Stub recovery: the row goes, and so do pointers to it. */
  function WithoutStub(files: map<FileId, Row>, stub: FileId): map<FileId, Row> {
    map id | id in files && id != stub ::
      if files[id].supersededBy == Some(stub) then files[id].(supersededBy := None) else files[id]
  }

  /** A missing file with this hash whose old path lies under the session's roots. */
  predicate MoveCandidate(files: map<FileId, Row>, roots: seq<Path>, hash: Hash, id: FileId, from: Path) {
    && RowAt(files, from, id)
    && files[id].status.Missing?
    && files[id].expectedHash == Some(hash)
    && UnderAny(from, roots)
  }

  predicate FreshId(files: map<FileId, Row>, id: FileId) {
    id !in files && forall k :: k in files ==> files[k].supersededBy != Some(id)
  }

  function ActiveRow(f: Discovered, s: SessionId, now: Time): Row {
    Row(Some(f.path), f.size, f.hash, Some(f.hash), Active, None, Some(s), now)
  }

  /** The file table as the no-row branch sees it: with a stub at this path already deleted. */
  ghost predicate Vacated(db: Db, s: SessionId, p: Path, files: map<FileId, Row>) {
    || (files == db.files && forall id :: !RowAt(db.files, p, id))
    || exists stub :: RowAt(db.files, p, stub) && db.files[stub].lastSeen != Some(s)
                      && IsStub(db, db.files[stub]) && files == WithoutStub(db.files, stub)
  }

  /** `files` is the table after the decision `d` on file `f`. */
  ghost predicate Decides(db: Db, s: SessionId, f: Discovered, now: Time, d: Decision, files: map<FileId, Row>) {
    match d
    case Duplicate(id) =>
      RowAt(db.files, f.path, id) && db.files[id].lastSeen == Some(s) && files == db.files
    case Unchanged(id) =>
      && RowAt(db.files, f.path, id) && db.files[id].lastSeen != Some(s) && !IsStub(db, db.files[id])
      && HashMatches(db.files[id], f.hash)
      && files == db.files[id := db.files[id].(size := f.size, contentHash := f.hash, status := Active,
                                               lastSeen := Some(s),
                                               expectedHash := Some(f.hash))]
    case ExternallyChanged(id, prior) =>
      && RowAt(db.files, f.path, prior) && db.files[prior].lastSeen != Some(s) && !IsStub(db, db.files[prior])
      && !HashMatches(db.files[prior], f.hash)
      && FreshId(db.files, id)
      && files == db.files[prior := db.files[prior].(path := None, status := Missing, supersededBy := Some(id))]
                          [id := ActiveRow(f, s, now)]
    case Moved(id, from) =>
      exists vacated :: Vacated(db, s, f.path, vacated) && MovesRow(db, s, f, id, from, vacated, files)
    case New(id, needs) =>
      needs && exists vacated :: Vacated(db, s, f.path, vacated) && InsertsRow(db, s, f, now, id, vacated, files)
  }

  ghost predicate MovesRow(db: Db, s: SessionId, f: Discovered, id: FileId, from: Path,
                           vacated: map<FileId, Row>, files: map<FileId, Row>) {
    && s in db.sessions
    && MoveCandidate(vacated, db.sessions[s].roots, f.hash, id, from)
    && files == vacated[id := vacated[id].(path := Some(f.path), size := f.size, contentHash := f.hash,
                                           status := Active, lastSeen := Some(s))]
  }

  ghost predicate InsertsRow(db: Db, s: SessionId, f: Discovered, now: Time, id: FileId,
                             vacated: map<FileId, Row>, files: map<FileId, Row>) {
    && s in db.sessions
    && (forall k, p :: !MoveCandidate(vacated, db.sessions[s].roots, f.hash, k, p))
    && FreshId(vacated, id)
    && files == vacated[id := ActiveRow(f, s, now)]
  }

  ghost predicate Ingests(db: Db, s: SessionId, f: Discovered, now: Time, d: Decision, db': Db) {
    Open(db, s) && Decides(db, s, f, now, d, db'.files) && db' == db.(files := db'.files, now := now)
  }

  /** The session a row was last seen in, if any, completed. */
  predicate Settled(db: Db, row: Row) {
    row.lastSeen.None? ||
    (row.lastSeen.value in db.sessions && db.sessions[row.lastSeen.value].status == Completed)
  }

  /**
   * A known path that this session has not seen: unchanged exactly when no hash or the same hash is
   * expected, and else a new row takes the path over.
   */
  lemma KnownPathDecision(db: Db, s: SessionId, f: Discovered, now: Time, d: Decision, db': Db, id: FileId)
    requires UniquePaths(db.files) && Ingests(db, s, f, now, d, db')
    requires id in db.files && db.files[id].path == Some(f.path)
    requires db.files[id].lastSeen != Some(s) && Settled(db, db.files[id])
    ensures d.Unchanged? <==> db.files[id].expectedHash == None || db.files[id].expectedHash == Some(f.hash)
    ensures d.Unchanged? || d.ExternallyChanged?
    ensures d.Unchanged? ==>
            && d.id == id && db'.files.Keys == db.files.Keys
            && db'.files[id] == db.files[id].(size := f.size, contentHash := f.hash, status := Active,
                                              lastSeen := Some(s), expectedHash := Some(f.hash))
    ensures d.ExternallyChanged? ==>
            && d.superseded == id && d.id !in db.files && db'.files.Keys == db.files.Keys + {d.id}
            && db'.files[id] == db.files[id].(path := None, status := Missing, supersededBy := Some(d.id))
            && db'.files[d.id] ==
               Row(Some(f.path), f.size, f.hash, Some(f.hash), Active, None, Some(s), now)
    ensures forall k :: k in db.files && k != id ==> k in db'.files && db'.files[k] == db.files[k]
  {
    assert RowAt(db.files, f.path, id);
    forall k | RowAt(db.files, f.path, k) ensures k == id {}
  }

  /** A row that says this content was at another path under the session's roots and went missing there. */
  ghost predicate MissingElsewhere(db: Db, s: SessionId, f: Discovered, k: FileId)
    requires s in db.sessions
  {
    && k in db.files && db.files[k].path.Some? && db.files[k].path != Some(f.path)
    && db.files[k].status == Missing && db.files[k].expectedHash == Some(f.hash)
    && exists r :: r in db.sessions[s].roots && r <= db.files[k].path.value
  }

  /**
   * A path without a row, or with one that an unfinished session left: moved here when some missing
   * row has this content, and new exactly when none has.
   */
  lemma UnknownPathDecision(db: Db, s: SessionId, f: Discovered, now: Time, d: Decision, db': Db)
    requires UniquePaths(db.files) && Ingests(db, s, f, now, d, db')
    requires forall id :: id in db.files && db.files[id].path == Some(f.path) ==>
               db.files[id].lastSeen != Some(s) && !Settled(db, db.files[id])
    ensures d.New? || d.Moved?
    ensures d.New? <==> forall k :: !MissingElsewhere(db, s, f, k)
    ensures d.New? ==>
            && d.needsIntrospection && d.id in db'.files
            && db'.files[d.id] == Row(Some(f.path), f.size, f.hash, Some(f.hash), Active, None, Some(s), now)
    ensures d.Moved? ==>
            && MissingElsewhere(db, s, f, d.id) && db.files[d.id].path == Some(d.from)
            && d.id in db'.files && db'.files[d.id].path == Some(f.path)
            && db'.files[d.id].status == Active && db'.files[d.id].lastSeen == Some(s)
            && db'.files[d.id].size == f.size && db'.files[d.id].contentHash == f.hash
            && db'.files[d.id].expectedHash == Some(f.hash)
            && db'.files[d.id].createdAt == db.files[d.id].createdAt
    ensures forall k :: k in db.files && k != d.id ==> (k in db'.files <==> db.files[k].path != Some(f.path))
    ensures forall k :: k in db.files && k in db'.files && k != d.id ==>
            db'.files[k] == db.files[k] || db'.files[k] == db.files[k].(supersededBy := None)
  {
    forall id | RowAt(db.files, f.path, id) ensures db.files[id].lastSeen != Some(s) && IsStub(db, db.files[id]) {}
    if d.New? {
      var vacated :| Vacated(db, s, f.path, vacated) && InsertsRow(db, s, f, now, d.id, vacated, db'.files);
      forall k ensures !MissingElsewhere(db, s, f, k) {
        if MissingElsewhere(db, s, f, k) { ElsewhereIsCandidate(db, s, f, vacated, k, db.files[k].path.value); }
      }
      VacatedRows(db, s, f.path, vacated);
    } else if d.Moved? {
      var vacated :|
        Vacated(db, s, f.path, vacated) && MovesRow(db, s, f, d.id, d.from, vacated, db'.files);
      ElsewhereIsCandidate(db, s, f, vacated, d.id, d.from);
      VacatedRows(db, s, f.path, vacated);
    }
  }

  lemma VacatedRows(db: Db, s: SessionId, p: Path, vacated: map<FileId, Row>)
    requires UniquePaths(db.files) && Vacated(db, s, p, vacated)
    ensures forall k :: k in vacated ==> k in db.files
    ensures forall k :: k in db.files ==> (k in vacated <==> db.files[k].path != Some(p))
    ensures forall k :: k in vacated ==>
            vacated[k] == db.files[k] || vacated[k] == db.files[k].(supersededBy := None)
  {
    forall k | k in db.files ensures db.files[k].path == Some(p) <==> RowAt(db.files, p, k) {}
  }

  lemma ElsewhereIsCandidate(db: Db, s: SessionId, f: Discovered, vacated: map<FileId, Row>, k: FileId, from: Path)
    requires UniquePaths(db.files) && s in db.sessions && Vacated(db, s, f.path, vacated)
    ensures MoveCandidate(vacated, db.sessions[s].roots, f.hash, k, from) <==>
            MissingElsewhere(db, s, f, k) && db.files[k].path == Some(from)
    ensures k in vacated ==> k in db.files && vacated[k].createdAt == db.files[k].createdAt
  {
    if stub :| RowAt(db.files, f.path, stub) && vacated == WithoutStub(db.files, stub) {
      assert k in db.files && db.files[k].path == Some(f.path) ==> RowAt(db.files, f.path, k) && k == stub;
    } else {
      assert k in db.files && db.files[k].path == Some(f.path) ==> RowAt(db.files, f.path, k);
    }
  }

  // ----- finish -----

  predicate Unseen(row: Row, s: SessionId, roots: seq<Path>) {
    row.status.Active? && row.path.Some? && row.lastSeen != Some(s) && UnderAny(row.path.value, roots)
  }

  /** An active row that this session did not see and that a move could explain. */
  predicate Candidate(db: Db, s: SessionId, c: FileId)
    requires s in db.sessions
  {
    c in db.files && Unseen(db.files[c], s, db.sessions[s].roots) && db.files[c].expectedHash.Some?
  }

  /** A row this session inserted as new: not one that supersedes another. */
  predicate Eligible(db: Db, s: SessionId, t: FileId)
    requires s in db.sessions
  {
    && t in db.files
    && db.files[t].lastSeen == Some(s)
    && db.files[t].createdAt >= db.sessions[s].startedAt
    && db.files[t].path.Some?
    && forall k :: k in db.files ==> db.files[k].supersededBy != Some(t)
  }

  predicate Pairs(db: Db, s: SessionId, c: FileId, t: FileId)
    requires s in db.sessions
  {
    Candidate(db, s, c) && Eligible(db, s, t) && db.files[c].expectedHash == Some(db.files[t].contentHash)
  }

  /** Promoted moves: candidates matched one to one with new rows of the same content, as many as can be. */
  ghost predicate ValidMoves(db: Db, s: SessionId, moves: map<FileId, FileId>)
    requires s in db.sessions
  {
    && (forall c :: c in moves ==> Pairs(db, s, c, moves[c]))
    && (forall a, b :: a in moves && b in moves && moves[a] == moves[b] ==> a == b)
  }

  ghost predicate MaximalMoves(db: Db, s: SessionId, moves: map<FileId, FileId>)
    requires s in db.sessions
  {
    forall c, t :: Pairs(db, s, c, t) && c !in moves ==> t in moves.Values
  }

  /** Marked missing: unseen, under the roots, and not touched by VOOM in this session. */
  predicate Marked(db: Db, s: SessionId, moves: map<FileId, FileId>, id: FileId)
    requires s in db.sessions
  {
    && id in db.files && id !in moves
    && Unseen(db.files[id], s, db.sessions[s].roots)
    && (s, db.files[id].path.value) !in db.mutations
  }

  function Promoted(db: Db, s: SessionId, c: FileId, t: FileId): Row
    requires c in db.files && t in db.files
  {
    db.files[c].(path := db.files[t].path, size := db.files[t].size,
                 contentHash := if db.files[c].expectedHash.Some? then db.files[c].expectedHash.value else "",
                 status := Active, lastSeen := Some(s))
  }

  function RowAfterFinish(db: Db, s: SessionId, moves: map<FileId, FileId>, id: FileId): Row
    requires s in db.sessions && id in db.files && (id in moves ==> moves[id] in db.files)
  {
    if id in moves then Promoted(db, s, id, moves[id])
    else if Marked(db, s, moves, id) then db.files[id].(status := Missing)
    else db.files[id]
  }

  function MarkedSet(db: Db, s: SessionId, moves: map<FileId, FileId>): set<FileId>
    requires s in db.sessions
  {
    set id | id in db.files && Marked(db, s, moves, id)
  }

  ghost predicate Finishes(db: Db, s: SessionId, now: Time, moves: map<FileId, FileId>, db': Db) {
    && Open(db, s)
    && ValidMoves(db, s, moves) && MaximalMoves(db, s, moves)
    && db'.files.Keys == db.files.Keys - moves.Values
    && (forall id :: id in db'.files ==> id in db.files && (id in moves ==> moves[id] in db.files)
                                         && db'.files[id] == RowAfterFinish(db, s, moves, id))
    && db' == db.(files := db'.files, now := now,
                  sessions := db.sessions[s := db.sessions[s].(status := Completed, heartbeat := now)])
  }

  // ----- VOOM-originated mutations -----

  function Touched(s: SessionId, source: Path, dest: Path): set<(SessionId, Path)> {
    {(s, dest), (s, source)}
  }

  function AfterRecord(db: Db, s: SessionId, source: Path, dest: Path, now: Time): Db {
    db.(mutations := db.mutations + Touched(s, source, dest), now := now)
  }

  // ----- the table invariant -----

  ghost predicate UniquePaths(files: map<FileId, Row>) {
    forall a, b, p :: RowAt(files, p, a) && RowAt(files, p, b) ==> a == b
  }

  ghost predicate OneOpen(sessions: map<SessionId, Session>) {
    forall a, b :: a in sessions && b in sessions && sessions[a].status.InProgress? && sessions[b].status.InProgress?
                   ==> a == b
  }

  ghost predicate TimesPast(db: Db) {
    && (forall s :: s in db.sessions ==> db.sessions[s].startedAt <= db.now && db.sessions[s].heartbeat <= db.now)
    && (forall id :: id in db.files ==> db.files[id].createdAt <= db.now)
  }

  /** Superseded rows have given up their path. */
  ghost predicate SupersededHavePassedOn(files: map<FileId, Row>) {
    forall id :: id in files && files[id].supersededBy.Some? ==> files[id].path.None?
  }

  /** What an open session has seen is active and has a path; what was made since is its own. */
  ghost predicate OpenOwns(db: Db, s: SessionId)
    requires s in db.sessions
  {
    forall id :: id in db.files ==>
      && (db.files[id].lastSeen == Some(s) ==> db.files[id].status.Active? && db.files[id].path.Some?)
      && (db.files[id].createdAt >= db.sessions[s].startedAt ==> db.files[id].lastSeen == Some(s))
  }

  ghost predicate Valid(db: Db) {
    && UniquePaths(db.files)
    && OneOpen(db.sessions)
    && TimesPast(db)
    && SupersededHavePassedOn(db.files)
    && forall s :: s in db.sessions && db.sessions[s].status.InProgress? ==> OpenOwns(db, s)
  }

  // ----- every step keeps the invariant -----

  lemma BeginKeeps(db: Db, roots: seq<Path>, id: SessionId, now: Time)
    requires Valid(db) && CanBegin(db, now) && FreshSession(db, id) && now > db.now
    ensures Valid(AfterBegin(db, roots, id, now))
  {
    var db' := AfterBegin(db, roots, id, now);
    assert OpenOwns(db', id);
  }

  lemma CancelKeeps(db: Db, s: SessionId, now: Time)
    requires Valid(db) && now > db.now
    ensures Valid(AfterCancel(db, s, now))
  {
    var db' := AfterCancel(db, s, now);
    forall x | x in db'.sessions && db'.sessions[x].status.InProgress? ensures OpenOwns(db', x) {
      assert OpenOwns(db, x);
    }
  }

  lemma HeartbeatKeeps(db: Db, s: SessionId, now: Time)
    requires Valid(db) && now > db.now
    ensures Valid(AfterHeartbeat(db, s, now))
  {
    var db' := AfterHeartbeat(db, s, now);
    forall x | x in db'.sessions && db'.sessions[x].status.InProgress? ensures OpenOwns(db', x) {
      assert OpenOwns(db, x);
    }
  }

  lemma RecordKeeps(db: Db, s: SessionId, source: Path, dest: Path, now: Time)
    requires Valid(db) && now > db.now
    ensures Valid(AfterRecord(db, s, source, dest, now))
  {
    var db' := AfterRecord(db, s, source, dest, now);
    forall x | x in db'.sessions && db'.sessions[x].status.InProgress? ensures OpenOwns(db', x) {
      assert OpenOwns(db, x);
    }
  }

  /** What a table must satisfy for an open session `s`, whichever way an ingest changed it. */
  ghost predicate FilesValid(files: map<FileId, Row>, s: SessionId, started: Time, now: Time) {
    && UniquePaths(files)
    && SupersededHavePassedOn(files)
    && forall id :: id in files ==>
         && files[id].createdAt <= now
         && (files[id].lastSeen == Some(s) ==> files[id].status.Active? && files[id].path.Some?)
         && (files[id].createdAt >= started ==> files[id].lastSeen == Some(s))
  }

  lemma ValidFromFiles(db: Db, s: SessionId, db': Db, now: Time)
    requires Valid(db) && Open(db, s) && now > db.now
    requires db' == db.(files := db'.files, now := now)
    requires FilesValid(db'.files, s, db.sessions[s].startedAt, now)
    ensures Valid(db')
  {
    assert OpenOwns(db', s);
  }

  lemma FilesFromValid(db: Db, s: SessionId, now: Time)
    requires Valid(db) && Open(db, s) && now > db.now
    ensures FilesValid(db.files, s, db.sessions[s].startedAt, now)
    ensures db.sessions[s].startedAt < now
  {
    assert OpenOwns(db, s);
  }

  lemma VacatedValid(db: Db, s: SessionId, p: Path, vacated: map<FileId, Row>, started: Time, now: Time)
    requires FilesValid(db.files, s, started, now) && Vacated(db, s, p, vacated)
    ensures FilesValid(vacated, s, started, now)
    ensures forall id :: !RowAt(vacated, p, id)
  {
    if !(forall id :: !RowAt(db.files, p, id)) {
      var stub :| RowAt(db.files, p, stub) && vacated == WithoutStub(db.files, stub);
      forall id, q | RowAt(vacated, q, id) ensures RowAt(db.files, q, id) && id != stub {}
    }
  }

  lemma DecideKeeps(db: Db, s: SessionId, f: Discovered, now: Time, d: Decision, files: map<FileId, Row>)
    requires Open(db, s) && FilesValid(db.files, s, db.sessions[s].startedAt, now) && db.sessions[s].startedAt < now
    requires Decides(db, s, f, now, d, files)
    ensures FilesValid(files, s, db.sessions[s].startedAt, now)
  {
    var started := db.sessions[s].startedAt;
    match d {
      case Duplicate(id) =>
      case Unchanged(id) => UnchangedKeeps(db, s, f, now, id, files);
      case ExternallyChanged(id, prior) => ExternallyChangedKeeps(db, s, f, now, id, prior, files);
      case Moved(id, from) =>
        var vacated :| Vacated(db, s, f.path, vacated) && MovesRow(db, s, f, id, from, vacated, files);
        VacatedValid(db, s, f.path, vacated, started, now);
        MoveKeeps(db, s, f, now, id, from, vacated, files);
      case New(id, _) =>
        var vacated :| Vacated(db, s, f.path, vacated) && InsertsRow(db, s, f, now, id, vacated, files);
        VacatedValid(db, s, f.path, vacated, started, now);
        InsertKeeps(vacated, s, f, started, now, id);
    }
  }

  lemma UnchangedKeeps(db: Db, s: SessionId, f: Discovered, now: Time, id: FileId, files: map<FileId, Row>)
    requires Open(db, s) && FilesValid(db.files, s, db.sessions[s].startedAt, now)
    requires Decides(db, s, f, now, Unchanged(id), files)
    ensures FilesValid(files, s, db.sessions[s].startedAt, now)
  {
    forall k, p | RowAt(files, p, k) ensures RowAt(db.files, p, k) {}
  }

  lemma ExternallyChangedKeeps(db: Db, s: SessionId, f: Discovered, now: Time, id: FileId, prior: FileId,
                               files: map<FileId, Row>)
    requires Open(db, s) && FilesValid(db.files, s, db.sessions[s].startedAt, now)
    requires Decides(db, s, f, now, ExternallyChanged(id, prior), files)
    ensures FilesValid(files, s, db.sessions[s].startedAt, now)
  {
    forall k, p | RowAt(files, p, k) ensures (k == id && p == f.path) || (k != prior && RowAt(db.files, p, k)) {}
    forall k, p | k != prior && RowAt(db.files, p, k) ensures p != f.path { assert RowAt(db.files, f.path, prior); }
  }

  lemma MoveKeeps(db: Db, s: SessionId, f: Discovered, now: Time, id: FileId, from: Path,
                  vacated: map<FileId, Row>, files: map<FileId, Row>)
    requires s in db.sessions && FilesValid(vacated, s, db.sessions[s].startedAt, now)
    requires forall k :: !RowAt(vacated, f.path, k)
    requires MovesRow(db, s, f, id, from, vacated, files)
    ensures FilesValid(files, s, db.sessions[s].startedAt, now)
  {
    forall k, p | RowAt(files, p, k) ensures (k == id && p == f.path) || (k != id && RowAt(vacated, p, k)) {}
  }

  lemma InsertKeeps(vacated: map<FileId, Row>, s: SessionId, f: Discovered, started: Time, now: Time, id: FileId)
    requires FilesValid(vacated, s, started, now) && forall k :: !RowAt(vacated, f.path, k)
    requires FreshId(vacated, id)
    ensures FilesValid(vacated[id := ActiveRow(f, s, now)], s, started, now)
  {
    var files := vacated[id := ActiveRow(f, s, now)];
    forall k, p | RowAt(files, p, k) ensures (k == id && p == f.path) || (k != id && RowAt(vacated, p, k)) {}
  }

  lemma IngestKeeps(db: Db, s: SessionId, f: Discovered, now: Time, d: Decision, db': Db)
    requires Valid(db) && now > db.now && Ingests(db, s, f, now, d, db')
    ensures Valid(db')
  {
    FilesFromValid(db, s, now);
    DecideKeeps(db, s, f, now, d, db'.files);
    ValidFromFiles(db, s, db', now);
  }

  lemma FinishKeeps(db: Db, s: SessionId, now: Time, moves: map<FileId, FileId>, db': Db)
    requires Valid(db) && now > db.now && Finishes(db, s, now, moves, db')
    ensures Valid(db')
  {
    forall a, b, p | RowAt(db'.files, p, a) && RowAt(db'.files, p, b) ensures a == b {
      FinishPath(db, s, now, moves, db', a, p);
      FinishPath(db, s, now, moves, db', b, p);
    }
  }

  /** After a finish, the row at `p` was there before or took the place of a new row there. */
  lemma FinishPath(db: Db, s: SessionId, now: Time, moves: map<FileId, FileId>, db': Db, a: FileId, p: Path)
    requires Finishes(db, s, now, moves, db') && RowAt(db'.files, p, a)
    ensures a in db.files
    ensures if a in moves then RowAt(db.files, p, moves[a]) else RowAt(db.files, p, a) && a !in moves.Values
  {
    if a in moves { assert Pairs(db, s, a, moves[a]); }
  }
}
