/**
 * Whole runs of scan sessions: any interleaving of scanners, heartbeats and executors, where an
 * executor records its mutation first and writes only if the record was stored.
 */
module ScanRuns {
  import opened Common
  import opened ScanSessions

  // ----- what an executor records -----

  datatype MutationKind = Overwrite | Rename | ContainerConversion

  datatype Mutation = Mutation(session: SessionId, path: Path, original: Option<Path>, kind: MutationKind)

  /** `Path::extension` of the last component: what follows its last dot, unless that is its first character. */
  function Extension(p: Path): Option<string> {
    if p == [] then None else NameExtension(p[|p| - 1], |p[|p| - 1]|)
  }

  function NameExtension(name: string, i: nat): Option<string>
    requires i <= |name|
  {
    if i <= 1 then None
    else if name[i - 1] == '.' then Some(name[i..])
    else NameExtension(name, i - 1)
  }

  /** The record for a pending write from `source` to `dest`. */
  function MutationFor(s: SessionId, source: Path, dest: Path): Mutation {
    var kind := if dest == source then Overwrite
                else if Extension(dest) != Extension(source) then ContainerConversion
                else Rename;
    Mutation(s, dest, if dest != source then Some(source) else None, kind)
  }

  /** One row per touched path. */
  function RowsOf(m: Mutation): set<(SessionId, Path)> {
    {(m.session, m.path)} + if m.original.Some? then {(m.session, m.original.value)} else {}
  }

  /** Whatever the kind, the rows stored cover the destination and the source of the write. */
  lemma RecordCoversWrite(s: SessionId, source: Path, dest: Path)
    ensures RowsOf(MutationFor(s, source, dest)) == Touched(s, source, dest) == {(s, source), (s, dest)}
    ensures MutationFor(s, source, dest).kind.Overwrite? <==> source == dest
    ensures MutationFor(s, source, dest).kind.Rename? <==> source != dest && Extension(dest) == Extension(source)
  {
  }

  /** `e` is what follows the last dot of `name`. */
  lemma DotBefore(name: string, e: string)
    requires |e| < |name|
    ensures var n := |name| - |e| - 1;
            name == name[..n] + "." + e && '.' !in e <==>
            name[n] == '.' && name[n + 1..] == e && forall k :: n < k < |name| ==> name[k] != '.'
  {
    var n := |name| - |e| - 1;
    var again := name[..n] + "." + name[n + 1..];
    assert name[n] == '.' ==> name == again;
    assert (name[..n] + "." + e)[n] == '.' && (name[..n] + "." + e)[n + 1..] == e;
    assert forall k :: n < k < |name| ==> name[k] == name[n + 1..][k - n - 1];
    assert name[n + 1..] == e ==> forall j :: 0 <= j < |e| ==> e[j] == name[n + 1 + j];
  }

  lemma {:induction false} NameExtensionExact(name: string, i: nat, e: string)
    requires i <= |name| && forall k :: i <= k < |name| ==> name[k] != '.'
    ensures NameExtension(name, i) == Some(e) <==>
            |e| + 1 < |name| && name == name[..|name| - |e| - 1] + "." + e && '.' !in e
  {
    if |e| < |name| { DotBefore(name, e); }
    if i > 1 && name[i - 1] != '.' { NameExtensionExact(name, i - 1, e); }
  }

  /** An extension is what follows the last dot of a last component, when something comes before that dot. */
  lemma ExtensionExact(p: Path, e: string)
    ensures Extension(p) == Some(e) <==>
            '.' !in e && exists dir: Path, stem: string :: stem != "" && p == dir + [stem + "." + e]
  {
    if p != [] {
      var dir, name := p[..|p| - 1], p[|p| - 1];
      NameExtensionExact(name, |name|, e);
      assert p == dir + [name];
      if Extension(p) == Some(e) {
        var stem := name[..|name| - |e| - 1];
        assert stem != "" && p == dir + [stem + "." + e];
      }
      if '.' !in e {
        forall d: Path, stem: string | stem != "" && p == d + [stem + "." + e] ensures Extension(p) == Some(e) {
          assert name == stem + "." + e;
          assert name[..|name| - |e| - 1] == stem;
        }
      }
    }
  }

  // ----- the system -----

  datatype Executor = Idle | Recorded(session: SessionId, source: Path, dest: Path)

  datatype System = System(db: Db, executors: map<nat, Executor>, written: set<(SessionId, Path)>)

  datatype Action =
    | Begin(roots: seq<Path>, id: SessionId)
    | Ingest(session: SessionId, file: Discovered, decision: Decision)
    | Finish(session: SessionId, moves: map<FileId, FileId>)
    | Cancel(session: SessionId)
    | Heartbeat(session: SessionId)
    | Record(executor: nat, session: SessionId, source: Path, dest: Path)
    | Write(executor: nat)
    | Refused(executor: nat)  // a call that failed; an executor whose record failed gives up

  ghost predicate DbStep(db: Db, a: Action, db': Db) {
    match a
    case Begin(roots, id) => CanBegin(db, db'.now) && FreshSession(db, id) && db' == AfterBegin(db, roots, id, db'.now)
    case Ingest(s, f, d) => Ingests(db, s, f, db'.now, d, db')
    case Finish(s, moves) => Finishes(db, s, db'.now, moves, db')
    case Cancel(s) => db' == AfterCancel(db, s, db'.now)
    case Heartbeat(s) => db' == AfterHeartbeat(db, s, db'.now)
    case Record(_, s, source, dest) =>
      db' == db.(mutations := db.mutations + RowsOf(MutationFor(s, source, dest)), now := db'.now)
    case Write(_) => db' == db.(now := db'.now)
    case Refused(_) => db' == db.(now := db'.now)
  }

  ghost predicate Next(x: System, a: Action, y: System) {
    && DbStep(x.db, a, y.db)
    && x.db.now < y.db.now
    && match a
       case Record(e, s, source, dest) =>
         y.executors == x.executors[e := Recorded(s, source, dest)] && y.written == x.written
       case Write(e) =>
         && e in x.executors && x.executors[e].Recorded?
         && y.executors == x.executors[e := Idle]
         && y.written == x.written + Touched(x.executors[e].session, x.executors[e].source, x.executors[e].dest)
       case Refused(e) => y.executors == x.executors[e := Idle] && y.written == x.written
       case _ => y.executors == x.executors && y.written == x.written
  }

  ghost predicate SystemValid(x: System) {
    && Valid(x.db)
    && x.written <= x.db.mutations
    && forall e :: e in x.executors && x.executors[e].Recorded? ==>
         Touched(x.executors[e].session, x.executors[e].source, x.executors[e].dest) <= x.db.mutations
  }

  lemma DbStepKeeps(db: Db, a: Action, db': Db)
    requires Valid(db) && db.now < db'.now && DbStep(db, a, db')
    ensures Valid(db') && db.mutations <= db'.mutations
  {
    match a {
      case Begin(roots, id) => BeginKeeps(db, roots, id, db'.now);
      case Ingest(s, f, d) => IngestKeeps(db, s, f, db'.now, d, db');
      case Finish(s, moves) => FinishKeeps(db, s, db'.now, moves, db');
      case Cancel(s) => CancelKeeps(db, s, db'.now);
      case Heartbeat(s) => HeartbeatKeeps(db, s, db'.now);
      case Record(_, s, source, dest) =>
        RecordCoversWrite(s, source, dest);
        RecordKeeps(db, s, source, dest, db'.now);
      case Write(_) => TickKeeps(db, db'.now);
      case Refused(_) => TickKeeps(db, db'.now);
    }
  }

  lemma TickKeeps(db: Db, now: Time)
    requires Valid(db) && now > db.now
    ensures Valid(db.(now := now))
  {
    var db' := db.(now := now);
    forall x | x in db'.sessions && db'.sessions[x].status.InProgress? ensures OpenOwns(db', x) {
      assert OpenOwns(db, x);
    }
  }

  lemma NextKeeps(x: System, a: Action, y: System)
    requires SystemValid(x) && Next(x, a, y)
    ensures SystemValid(y)
  {
    DbStepKeeps(x.db, a, y.db);
    if a.Record? { RecordCoversWrite(a.session, a.source, a.dest); }
    forall e | e in y.executors && y.executors[e].Recorded?
      ensures Touched(y.executors[e].session, y.executors[e].source, y.executors[e].dest) <= y.db.mutations
    {
      if !(a.Record? && a.executor == e) {
        assert y.executors[e] == x.executors[e];
      }
    }
  }

  /** `trace` is the sequence of states of a run that takes `actions` in order. */
  ghost predicate IsRun(trace: seq<System>, actions: seq<Action>)
    decreases |actions|
  {
    && |trace| == |actions| + 1
    && (if actions == [] then SystemValid(trace[0])
        else
          && IsRun(trace[..|actions|], actions[..|actions| - 1])
          && Next(trace[|actions| - 1], actions[|actions| - 1], trace[|actions|]))
  }

  lemma {:induction false} RunPrefix(trace: seq<System>, actions: seq<Action>, i: nat)
    requires IsRun(trace, actions) && i <= |actions|
    ensures IsRun(trace[..i + 1], actions[..i])
    decreases |actions|
  {
    if i == |actions| {
      assert trace[..i + 1] == trace && actions[..i] == actions;
    } else {
      RunPrefix(trace[..|actions|], actions[..|actions| - 1], i);
      assert trace[..|actions|][..i + 1] == trace[..i + 1];
      assert actions[..|actions| - 1][..i] == actions[..i];
    }
  }

  /** Every state of every run satisfies the invariant; in particular at most one session is open. */
  lemma {:induction false} RunValid(trace: seq<System>, actions: seq<Action>)
    requires IsRun(trace, actions)
    ensures SystemValid(trace[|actions|])
    ensures OneOpen(trace[|actions|].db.sessions)
    decreases |actions|
  {
    if actions != [] {
      RunValid(trace[..|actions|], actions[..|actions| - 1]);
      NextKeeps(trace[|actions| - 1], actions[|actions| - 1], trace[|actions|]);
    }
  }

  lemma RunStep(trace: seq<System>, actions: seq<Action>, i: nat)
    requires IsRun(trace, actions) && i < |actions|
    ensures SystemValid(trace[i]) && Next(trace[i], actions[i], trace[i + 1])
  {
    RunPrefix(trace, actions, i);
    RunValid(trace[..i + 1], actions[..i]);
    RunPrefix(trace, actions, i + 1);
    assert trace[..i + 2][i] == trace[i] && trace[..i + 2][i + 1] == trace[i + 1] && actions[..i + 1][i] == actions[i];
  }

  // ----- closed sessions stay closed -----

  ghost predicate Closed(db: Db, s: SessionId) {
    s in db.sessions && !db.sessions[s].status.InProgress?
  }

  lemma StepKeepsClosed(x: System, a: Action, y: System, s: SessionId)
    requires Next(x, a, y) && Closed(x.db, s)
    ensures s in y.db.sessions && y.db.sessions[s] == x.db.sessions[s]
  {
  }

  /** Completed and Cancelled are never left, and nothing about such a session changes again. */
  lemma {:induction false} ClosedForever(trace: seq<System>, actions: seq<Action>, i: nat, j: nat, s: SessionId)
    requires IsRun(trace, actions) && i <= j <= |actions| && Closed(trace[i].db, s)
    ensures s in trace[j].db.sessions && trace[j].db.sessions[s] == trace[i].db.sessions[s]
    decreases j - i
  {
    if i < j {
      ClosedForever(trace, actions, i, j - 1, s);
      RunStep(trace, actions, j - 1);
      StepKeepsClosed(trace[j - 1], actions[j - 1], trace[j], s);
    }
  }

  // ----- who marks files missing -----

  ghost predicate GoesMissing(x: Db, y: Db, id: FileId) {
    id in x.files && x.files[id].status.Active? && id in y.files && y.files[id].status.Missing?
  }

  /**
   * A row goes from active to missing in exactly two ways: the finish pass marks it, or an ingest
   * finds new content at its path and supersedes it.
   */
  lemma MissingIff(x: System, a: Action, y: System, id: FileId)
    requires SystemValid(x) && Next(x, a, y)
    ensures GoesMissing(x.db, y.db, id) <==>
            || (a.Finish? && Marked(x.db, a.session, a.moves, id))
            || (a.Ingest? && a.decision.ExternallyChanged? && a.decision.superseded == id &&
                x.db.files[id].status.Active?)
  {
  }

  /** One row: the completed session 0 saw content "a" at `f`, and session 1, still open, ingests "b" there. */
  ghost function OneRow(): System {
    System(Db(map[0 := Session([[]], Completed, 0, 0), 1 := Session([[]], InProgress, 1, 1)],
              map[7 := Row(Some(["f"]), 1, "a", Some("a"), Active, None, Some(0), 0)], {}, 2),
           map[], {})
  }

  lemma OneRowValid()
    ensures SystemValid(OneRow())
  {
  }

  /** So an ingest, and not only a finish, takes a row from active to missing. */
  lemma IngestTakesRowMissing() returns (a: Action, y: System)
    ensures a.Ingest? && IsRun([OneRow(), y], [a]) && GoesMissing(OneRow().db, y.db, 7)
  {
    var x := OneRow();
    var f := Discovered(["f"], 2, "b");
    a := Ingest(1, f, ExternallyChanged(8, 7));
    y := x.(db := x.db.(files := x.db.files[7 := x.db.files[7].(path := None, status := Missing,
      supersededBy := Some(8))]
                                           [8 := ActiveRow(f, 1, 3)], now := 3));
    OneRowValid();
    assert [x, y][..1] == [x] && [a][..0] == [];
    assert IsRun([x], []);
  }

  ghost predicate ActiveAt(db: Db, p: Path) {
    exists id :: RowAt(db.files, p, id) && db.files[id].status.Active?
  }

  /**
   * What a reader of the library sees: a path loses its active row exactly in a finish that marks
   * that row missing or promotes it to a move elsewhere.
   */
  lemma PathLostIff(x: System, a: Action, y: System, p: Path)
    requires SystemValid(x) && Next(x, a, y)
    ensures ActiveAt(x.db, p) && !ActiveAt(y.db, p) <==>
            a.Finish? && exists id ::
              RowAt(x.db.files, p, id) && (Marked(x.db, a.session, a.moves, id) || id in a.moves)
  {
    match a {
      case Ingest(s, f, d) =>
        if ActiveAt(x.db, p) { IngestKeepsActive(x.db, s, f, y.db.now, d, y.db, p); }
      case Finish(s, moves) => FinishLosesIff(x.db, s, y.db.now, moves, y.db, p);
      case _ => assert y.db.files == x.db.files;
    }
  }

  lemma IngestKeepsActive(db: Db, s: SessionId, f: Discovered, now: Time, d: Decision, db': Db, p: Path)
    requires Valid(db) && Ingests(db, s, f, now, d, db') && ActiveAt(db, p)
    ensures ActiveAt(db', p)
  {
    IngestSees(db, s, f, now, d, db');
    if p == f.path {
      assert RowAt(db'.files, p, d.id) && db'.files[d.id].status.Active? by {
        if d.Duplicate? { assert OpenOwns(db, s); }
      }
    } else {
      var id :| RowAt(db.files, p, id) && db.files[id].status.Active?;
      match d {
        case Moved(k, from) =>
          var vacated :| Vacated(db, s, f.path, vacated) && MovesRow(db, s, f, k, from, vacated, db'.files);
        case New(k, _) =>
          var vacated :| Vacated(db, s, f.path, vacated) && InsertsRow(db, s, f, now, k, vacated, db'.files);
        case _ =>
      }
      assert RowAt(db'.files, p, id) && db'.files[id].status.Active?;
    }
  }

  lemma FinishLosesIff(db: Db, s: SessionId, now: Time, moves: map<FileId, FileId>, db': Db, p: Path)
    requires Valid(db) && Finishes(db, s, now, moves, db')
    ensures ActiveAt(db, p) && !ActiveAt(db', p) <==>
            exists id :: RowAt(db.files, p, id) && (Marked(db, s, moves, id) || id in moves)
  {
    if id :| RowAt(db.files, p, id) {
      FinishAt(db, s, now, moves, db', p, id);
    }
  }

  /** What a finish does to the path `p` of row `id`. */
  lemma FinishAt(db: Db, s: SessionId, now: Time, moves: map<FileId, FileId>, db': Db, p: Path, id: FileId)
    requires Valid(db) && Finishes(db, s, now, moves, db') && RowAt(db.files, p, id)
    ensures Marked(db, s, moves, id) || id in moves ==> db.files[id].status.Active? && !ActiveAt(db', p)
    ensures db.files[id].status.Active? && !Marked(db, s, moves, id) && id !in moves ==> ActiveAt(db', p)
  {
    if id in moves { assert Pairs(db, s, id, moves[id]); }
    if Marked(db, s, moves, id) || id in moves {
      forall k | RowAt(db'.files, p, k) ensures k == id && Marked(db, s, moves, id) {
        FinishPath(db, s, now, moves, db', k, p);
      }
    }
    if db.files[id].status.Active? && !Marked(db, s, moves, id) && id !in moves {
      if id in moves.Values {
        var c :| c in moves && moves[c] == id;
        assert Pairs(db, s, c, id);
        assert RowAt(db'.files, p, c);
      } else {
        assert RowAt(db'.files, p, id);
      }
    }
  }

  /** An active row under the session's roots that the session has not seen. */
  ghost predicate LeftUnseen(db: Db, s: SessionId, id: FileId)
    requires s in db.sessions
  {
    && id in db.files && db.files[id].status == Active && db.files[id].path.Some?
    && db.files[id].lastSeen != Some(s)
    && exists r :: r in db.sessions[s].roots && r <= db.files[id].path.value
  }

  /** A row that the session inserted and that took over no other row's path. */
  ghost predicate InsertedHere(db: Db, s: SessionId, t: FileId)
    requires s in db.sessions
  {
    && t in db.files && db.files[t].path.Some? && db.files[t].lastSeen == Some(s)
    && db.files[t].createdAt >= db.sessions[s].startedAt
    && forall k :: k in db.files ==> db.files[k].supersededBy != Some(t)
  }

  lemma NotBothSides(db: Db, s: SessionId, moves: map<FileId, FileId>, id: FileId)
    requires s in db.sessions && ValidMoves(db, s, moves) && id in moves
    ensures id !in moves.Values
  {
    assert Pairs(db, s, id, moves[id]);
    assert forall c :: c in moves ==> Pairs(db, s, c, moves[c]) && moves[c] != id;
  }

  /**
   * What a finish does to every row: promoted rows take over place and size of their partner, which
   * goes; unseen rows that VOOM did not touch go missing; the others stay as they are.
   */
  lemma FinishRowExact(db: Db, s: SessionId, now: Time, moves: map<FileId, FileId>, db': Db, id: FileId)
    requires Finishes(db, s, now, moves, db') && id in db.files
    ensures id in db'.files <==> id !in moves.Values
    ensures id in moves ==>
            && id !in moves.Values && LeftUnseen(db, s, id) && InsertedHere(db, s, moves[id])
            && db.files[id].expectedHash == Some(db.files[moves[id]].contentHash)
            && db'.files[id] == db.files[id].(path := db.files[moves[id]].path, size := db.files[moves[id]].size,
                                              contentHash := db.files[moves[id]].contentHash, lastSeen := Some(s))
    ensures id !in moves && id in db'.files ==>
            db'.files[id] == if LeftUnseen(db, s, id) && (s, db.files[id].path.value) !in db.mutations
                             then db.files[id].(status := Missing) else db.files[id]
  {
    if id in moves {
      assert Pairs(db, s, id, moves[id]);
      NotBothSides(db, s, moves, id);
    }
  }

  /** No promotion is missed: of an unseen row and an inserted one with the expected content, one is taken. */
  lemma FinishMatchesAll(db: Db, s: SessionId, now: Time, moves: map<FileId, FileId>, db': Db, c: FileId, t: FileId)
    requires Finishes(db, s, now, moves, db') && LeftUnseen(db, s, c) && InsertedHere(db, s, t)
    requires db.files[c].expectedHash == Some(db.files[t].contentHash)
    ensures c in moves || t in moves.Values
  {
    assert Pairs(db, s, c, t);
  }

  // ----- live sessions -----

  /** While it is open, a session's heartbeat never goes back. */
  lemma {:induction false} HeartbeatAdvances(trace: seq<System>, actions: seq<Action>, i: nat, j: nat, s: SessionId)
    requires IsRun(trace, actions) && i <= j <= |actions| && Open(trace[i].db, s) && Open(trace[j].db, s)
    ensures trace[i].db.sessions[s].heartbeat <= trace[j].db.sessions[s].heartbeat
    decreases j - i
  {
    if i < j {
      RunStep(trace, actions, i);
      SessionsOnlyAdded(trace[i], actions[i], trace[i + 1], s);
      OpenEarlier(trace, actions, i + 1, j, s);
      HeartbeatStep(trace[i], actions[i], trace[i + 1], s);
      HeartbeatAdvances(trace, actions, i + 1, j, s);
    }
  }

  lemma HeartbeatStep(x: System, a: Action, y: System, s: SessionId)
    requires SystemValid(x) && Next(x, a, y) && Open(x.db, s) && Open(y.db, s)
    ensures x.db.sessions[s].heartbeat <= y.db.sessions[s].heartbeat
  {
    assert a.Ingest? ==> y.db.sessions == x.db.sessions;
  }

  /**
   * In every run: within 61 seconds after a session that is still open sent a heartbeat, or was
   * begun, no other session begins, so that nobody takes the session from under its scanner.
   */
  lemma HeartbeatProtects(trace: seq<System>, actions: seq<Action>, h: nat, j: nat, s: SessionId)
    requires IsRun(trace, actions) && h < j < |actions|
    requires (actions[h].Heartbeat? && actions[h].session == s) || (actions[h].Begin? && actions[h].id == s)
    requires Open(trace[h + 1].db, s) && Open(trace[j].db, s)
    requires trace[j + 1].db.now < trace[h + 1].db.now + 61 * 1_000_000_000
    ensures !actions[j].Begin?
  {
    RunStep(trace, actions, h);
    HeartbeatSets(trace[h], actions[h], trace[h + 1], s);
    RunStep(trace, actions, j);
    HeartbeatAdvances(trace, actions, h + 1, j, s);
    BeginRefusedIff(trace[j].db, trace[j + 1].db.now);
  }

  lemma HeartbeatSets(x: System, a: Action, y: System, s: SessionId)
    requires Next(x, a, y) && Open(y.db, s)
    requires (a.Heartbeat? && a.session == s) || (a.Begin? && a.id == s)
    ensures y.db.sessions[s].heartbeat == y.db.now
    ensures a.Heartbeat? ==>
            && y.db == x.db.(sessions := y.db.sessions, now := y.db.now)
            && y.db.sessions == x.db.sessions[s := x.db.sessions[s].(heartbeat := y.db.now)]
  {
  }

  /** A begin closes every session still open and changes no other; a cancel closes its own. */
  lemma CloseExact(x: System, a: Action, y: System, t: SessionId)
    requires Next(x, a, y) && t in x.db.sessions && (a.Begin? || a.Cancel?)
    ensures t in y.db.sessions && y.db.files == x.db.files
    ensures y.db.sessions[t] == if x.db.sessions[t].status == InProgress && (a.Begin? || a.session == t)
                                then x.db.sessions[t].(status := Cancelled, heartbeat := y.db.now)
                                else x.db.sessions[t]
    ensures a.Begin? ==>
            && a.id !in x.db.sessions && a.id in y.db.sessions
            && y.db.sessions[a.id] == Session(a.roots, InProgress, y.db.now, y.db.now)
  {
  }

  // ----- what a session has seen -----

  ghost predicate SeenAs(db: Db, s: SessionId, p: Path, id: FileId) {
    RowAt(db.files, p, id) && db.files[id].lastSeen == Some(s)
  }

  ghost predicate Seen(db: Db, s: SessionId, p: Path) {
    exists id :: SeenAs(db, s, p, id)
  }

  lemma VacatedKeepsSeen(db: Db, s: SessionId, q: Path, vacated: map<FileId, Row>, p: Path, id: FileId)
    requires Vacated(db, s, q, vacated) && SeenAs(db, s, p, id)
    ensures RowAt(vacated, p, id) && vacated[id].lastSeen == Some(s) && vacated[id].status == db.files[id].status
  {
  }

  /** Ingesting any file keeps what the session has already seen, on the same row. */
  lemma IngestKeepsSeen(db: Db, s: SessionId, f: Discovered, now: Time, d: Decision, db': Db, p: Path, id: FileId)
    requires Valid(db) && Ingests(db, s, f, now, d, db') && SeenAs(db, s, p, id)
    ensures SeenAs(db', s, p, id)
  {
    assert OpenOwns(db, s);
    match d {
      case Duplicate(_) =>
      case Unchanged(_) =>
      case ExternallyChanged(_, _) =>
      case Moved(k, from) =>
        var vacated :| Vacated(db, s, f.path, vacated) && MovesRow(db, s, f, k, from, vacated, db'.files);
        VacatedKeepsSeen(db, s, f.path, vacated, p, id);
      case New(k, _) =>
        var vacated :| Vacated(db, s, f.path, vacated) && InsertsRow(db, s, f, now, k, vacated, db'.files);
        VacatedKeepsSeen(db, s, f.path, vacated, p, id);
    }
  }

  /** An ingested path is seen. */
  lemma IngestSees(db: Db, s: SessionId, f: Discovered, now: Time, d: Decision, db': Db)
    requires Ingests(db, s, f, now, d, db')
    ensures SeenAs(db', s, f.path, d.id)
  {
  }

  lemma StepKeepsSeen(x: System, a: Action, y: System, s: SessionId, p: Path)
    requires SystemValid(x) && Next(x, a, y) && Open(y.db, s) && Open(x.db, s) && Seen(x.db, s, p)
    ensures Seen(y.db, s, p)
  {
    var id :| SeenAs(x.db, s, p, id);
    if a.Ingest? {
      assert a.session == s;
      IngestKeepsSeen(x.db, s, a.file, y.db.now, a.decision, y.db, p, id);
    }
    assert SeenAs(y.db, s, p, id);
  }

  lemma OpenEarlier(trace: seq<System>, actions: seq<Action>, i: nat, j: nat, s: SessionId)
    requires IsRun(trace, actions) && i <= j <= |actions|
    requires Open(trace[j].db, s) && s in trace[i].db.sessions
    ensures Open(trace[i].db, s)
  {
    if Closed(trace[i].db, s) { ClosedForever(trace, actions, i, j, s); }
  }

  lemma {:induction false} SeenStays(trace: seq<System>, actions: seq<Action>, i: nat, j: nat, s: SessionId, p: Path)
    requires IsRun(trace, actions) && i <= j <= |actions|
    requires Open(trace[i].db, s) && Open(trace[j].db, s) && Seen(trace[i].db, s, p)
    ensures Seen(trace[j].db, s, p)
    decreases j - i
  {
    if i < j {
      RunStep(trace, actions, i);
      SessionsOnlyAdded(trace[i], actions[i], trace[i + 1], s);
      OpenEarlier(trace, actions, i + 1, j, s);
      StepKeepsSeen(trace[i], actions[i], trace[i + 1], s, p);
      SeenStays(trace, actions, i + 1, j, s, p);
    }
  }

  lemma SessionsOnlyAdded(x: System, a: Action, y: System, s: SessionId)
    requires Next(x, a, y) && s in x.db.sessions
    ensures s in y.db.sessions
  {
  }

  /** Ingest is idempotent: a seen path gives Duplicate and no change to any file row. */
  lemma SeenIsDuplicate(db: Db, s: SessionId, f: Discovered, now: Time, d: Decision, db': Db)
    requires Valid(db) && Ingests(db, s, f, now, d, db')
    ensures d.Duplicate? <==> Seen(db, s, f.path)
    ensures d.Duplicate? ==> db'.files == db.files
  {
    if Seen(db, s, f.path) {
      var id :| SeenAs(db, s, f.path, id);
      assert RowAt(db.files, f.path, id);
    }
    if d.Duplicate? { assert SeenAs(db, s, f.path, d.id); }
  }

  /** In every run, the second ingest of a path within a session reports a duplicate. */
  lemma SecondIngestIsDuplicate(trace: seq<System>, actions: seq<Action>, i: nat, j: nat)
    requires IsRun(trace, actions) && i < j < |actions|
    requires actions[i].Ingest? && actions[j].Ingest?
    requires actions[i].session == actions[j].session && actions[i].file.path == actions[j].file.path
    ensures actions[j].decision.Duplicate? && trace[j + 1].db.files == trace[j].db.files
  {
    var s, p := actions[i].session, actions[i].file.path;
    RunStep(trace, actions, i);
    RunStep(trace, actions, j);
    IngestSees(trace[i].db, s, actions[i].file, trace[i + 1].db.now, actions[i].decision, trace[i + 1].db);
    OpenEarlier(trace, actions, i + 1, j, s);
    SeenStays(trace, actions, i + 1, j, s, p);
    SeenIsDuplicate(trace[j].db, s, actions[j].file, trace[j + 1].db.now, actions[j].decision, trace[j + 1].db);
  }

  /**
   * The finish pass, in every run: a row it marks missing lies under the session's roots, at a
   * path that the session did not ingest and that VOOM did not write in the session.
   */
  lemma MarkedMeansGone(trace: seq<System>, actions: seq<Action>, j: nat, id: FileId)
    requires IsRun(trace, actions) && j < |actions| && actions[j].Finish?
    requires GoesMissing(trace[j].db, trace[j + 1].db, id)
    ensures var s, row := actions[j].session, trace[j].db.files[id];
            && row.path.Some? && s in trace[j].db.sessions
            && (exists r :: r in trace[j].db.sessions[s].roots && r <= row.path.value)
            && (s, row.path.value) !in trace[j].written
            && forall i :: 0 <= i < j && actions[i].Ingest? && actions[i].session == s ==>
              actions[i].file.path != row.path.value
  {
    var s, row := actions[j].session, trace[j].db.files[id];
    RunStep(trace, actions, j);
    MissingIff(trace[j], actions[j], trace[j + 1], id);
    forall i | 0 <= i < j && actions[i].Ingest? && actions[i].session == s
      ensures actions[i].file.path != row.path.value
    {
      IngestedNotUnseen(trace, actions, i, j, id);
    }
  }

  lemma IngestedNotUnseen(trace: seq<System>, actions: seq<Action>, i: nat, j: nat, id: FileId)
    requires IsRun(trace, actions) && i < j < |actions|
    requires actions[i].Ingest? && actions[j].Finish? && actions[i].session == actions[j].session
    requires Open(trace[j].db, actions[j].session) && id in trace[j].db.files
    requires Unseen(trace[j].db.files[id], actions[j].session, trace[j].db.sessions[actions[j].session].roots)
    ensures trace[j].db.files[id].path != Some(actions[i].file.path)
  {
    var s, p := actions[i].session, actions[i].file.path;
    RunStep(trace, actions, i);
    RunStep(trace, actions, j);
    IngestSees(trace[i].db, s, actions[i].file, trace[i + 1].db.now, actions[i].decision, trace[i + 1].db);
    OpenEarlier(trace, actions, i + 1, j, s);
    SeenStays(trace, actions, i + 1, j, s, p);
    var k :| SeenAs(trace[j].db, s, p, k);
    assert RowAt(trace[j].db.files, p, id) ==> id == k;
  }

  /**
   * In every run, a path loses its active row only in the finish of a session whose roots cover it
   * and which did not ingest it.
   */
  lemma PathLostMeansGone(trace: seq<System>, actions: seq<Action>, j: nat, p: Path)
    requires IsRun(trace, actions) && j < |actions| && ActiveAt(trace[j].db, p) && !ActiveAt(trace[j + 1].db, p)
    ensures actions[j].Finish? && Open(trace[j].db, actions[j].session)
    ensures exists r :: r in trace[j].db.sessions[actions[j].session].roots && r <= p
    ensures forall i :: 0 <= i < j && actions[i].Ingest? && actions[i].session == actions[j].session ==>
            actions[i].file.path != p
  {
    RunStep(trace, actions, j);
    PathLostIff(trace[j], actions[j], trace[j + 1], p);
    var db, s, moves := trace[j].db, actions[j].session, actions[j].moves;
    var id :| RowAt(db.files, p, id) && (Marked(db, s, moves, id) || id in moves);
    if id in moves { assert Pairs(db, s, id, moves[id]); }
    forall i | 0 <= i < j && actions[i].Ingest? && actions[i].session == s ensures actions[i].file.path != p {
      IngestedNotUnseen(trace, actions, i, j, id);
    }
  }

  // ----- paths that VOOM wrote -----

  /** A path that VOOM wrote in the session loses its active row in the finish exactly when that row is promoted. */
  lemma WrittenPathLostIff(x: System, a: Action, y: System, p: Path)
    requires SystemValid(x) && Next(x, a, y) && a.Finish? && (a.session, p) in x.written
    ensures ActiveAt(x.db, p) && !ActiveAt(y.db, p) <==> exists id :: RowAt(x.db.files, p, id) && id in a.moves
  {
    PathLostIff(x, a, y, p);
  }

  /** VOOM wrote `f` in session 1, which has not ingested it but found the same content at `g`. */
  ghost function WrittenAndFound(): System {
    System(Db(map[0 := Session([[]], Completed, 0, 0), 1 := Session([[]], InProgress, 1, 1)],
              map[7 := Row(Some(["f"]), 1, "a", Some("a"), Active, None, Some(0), 0),
                  8 := Row(Some(["g"]), 1, "a", Some("a"), Active, None, Some(1), 2)], {(1, ["f"])}, 3),
           map[], {(1, ["f"])})
  }

  lemma WrittenAndFoundValid()
    ensures SystemValid(WrittenAndFound())
  {
  }

  lemma WrittenAndFoundPairs(c: FileId, t: FileId)
    ensures Pairs(WrittenAndFound().db, 1, c, t) <==> c == 7 && t == 8
  {
    var db := WrittenAndFound().db;
    var root: Path := [];
    assert UnderAny(["f"], [root]) by { assert root in [root] && root <= ["f"]; }
    assert forall k :: k in db.files ==> k == 7 || k == 8;
  }

  lemma FinishOfWritten() returns (db: Db)
    ensures Finishes(WrittenAndFound().db, 1, 4, map[7 := 8], db) && db.now == 4
    ensures forall id :: id in db.files ==> id == 7 && db.files[id].path == Some(["g"])
  {
    var db0, moves := WrittenAndFound().db, map[7 := 8];
    WrittenAndFoundPairs(7, 8);
    forall c, t ensures Pairs(db0, 1, c, t) && c !in moves ==> t in moves.Values { WrittenAndFoundPairs(c, t); }
    db := db0.(files := map[7 := Promoted(db0, 1, 7, 8)], now := 4,
               sessions := db0.sessions[1 := db0.sessions[1].(status := Completed, heartbeat := 4)]);
    assert moves.Values == {8} && db0.files.Keys == {7, 8};
  }

  /** Its finish takes the active row away from `f` by promoting it to `g`. */
  lemma WrittenPathPromoted() returns (a: Action, y: System)
    ensures a.Finish? && (a.session, ["f"]) in WrittenAndFound().written && IsRun([WrittenAndFound(), y], [a])
    ensures ActiveAt(WrittenAndFound().db, ["f"]) && !ActiveAt(y.db, ["f"])
  {
    var x := WrittenAndFound();
    WrittenAndFoundValid();
    a := Finish(1, map[7 := 8]);
    var db := FinishOfWritten();
    y := x.(db := db);
    assert [x, y][..1] == [x] && [a][..0] == [] && IsRun([x], []);
    assert RowAt(x.db.files, ["f"], 7);
  }
}
