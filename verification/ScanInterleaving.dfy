/**
 * A scan session among other processes: between its begin and its finish, executors, heartbeats and
 * other scanners take any steps they can. Its report is exact all the same, and a session that is
 * found closed was closed by a named step.
 */
module ScanInterleaving {
  import opened Common
  import opened ScanSessions
  import opened ScanRuns
  import opened ScanStore

  predicate IsOwnIngest(a: Action, s: SessionId) {
    a.Ingest? && a.session == s
  }

  /** The files that session `s` ingested, in order. */
  function OwnFiles(actions: seq<Action>, s: SessionId): seq<Discovered> {
    if actions == [] then []
    else
      var a := actions[|actions| - 1];
      OwnFiles(actions[..|actions| - 1], s) + if IsOwnIngest(a, s) then [a.file] else []
  }

  function OwnDecisions(actions: seq<Action>, s: SessionId): (ds: seq<Decision>)
    ensures |ds| == |OwnFiles(actions, s)|
  {
    if actions == [] then []
    else
      var a := actions[|actions| - 1];
      OwnDecisions(actions[..|actions| - 1], s) + if IsOwnIngest(a, s) then [a.decision] else []
  }

  /** While a session is open, steps other than its own ingests leave its batch as it is. */
  lemma {:induction false} OthersKeepBatch(x: System, a: Action, y: System, s: SessionId, files: seq<Discovered>,
                                           ds: seq<Decision>)
    requires SystemValid(x) && Next(x, a, y) && !IsOwnIngest(a, s) && Open(x.db, s) && Open(y.db, s)
    requires BatchAt(x.db, s, files, ds)
    ensures BatchAt(y.db, s, files, ds)
  {
    OthersKeepFiles(x, a, y, s);
    assert EligibleSet(y.db, s) == EligibleSet(x.db, s);
    forall p ensures Seen(y.db, s, p) <==> Seen(x.db, s, p) {
      if id :| SeenAs(x.db, s, p, id) { assert SeenAs(y.db, s, p, id); }
      if id :| SeenAs(y.db, s, p, id) { assert SeenAs(x.db, s, p, id); }
    }
  }

  /** No other session can ingest or finish while `s` is open. */
  lemma {:induction false} OthersKeepFiles(x: System, a: Action, y: System, s: SessionId)
    requires SystemValid(x) && Next(x, a, y) && !IsOwnIngest(a, s) && Open(x.db, s) && Open(y.db, s)
    ensures y.db.files == x.db.files
    ensures y.db.sessions[s].roots == x.db.sessions[s].roots && y.db.sessions[s].startedAt == x.db.sessions[s].startedAt
  {
    assert a.Ingest? || a.Finish? ==> Open(x.db, a.session);
  }

  lemma {:induction false} BatchGrows(db: Db, s: SessionId, files: seq<Discovered>, ds: seq<Decision>, f: Discovered)
    requires BatchAt(db, s, files, ds) && |ds| == |files|
    ensures BatchAt(db, s, files + [f], ds)
  {
    var more := files + [f];
    assert forall i :: 0 <= i < |files| ==> more[i] == files[i];
    assert more[..|files|] == files && files[..|files|] == files;
  }

  /** A session that does not exist yet has ingested nothing. */
  lemma {:induction false} NothingBefore(trace: seq<System>, actions: seq<Action>, i: nat, s: SessionId)
    requires IsRun(trace, actions) && i <= |actions| && s !in trace[i].db.sessions
    ensures OwnFiles(actions[..i], s) == []
  {
    if i > 0 {
      RunStep(trace, actions, i - 1);
      if s in trace[i - 1].db.sessions { SessionsOnlyAdded(trace[i - 1], actions[i - 1], trace[i], s); }
      NothingBefore(trace, actions, i - 1, s);
      assert actions[..i][..i - 1] == actions[..i - 1];
    }
  }

  ghost predicate BeginsAt(actions: seq<Action>, b: nat, s: SessionId) {
    b < |actions| && actions[b].Begin? && actions[b].id == s
  }

  lemma {:induction false} JustBegun(trace: seq<System>, actions: seq<Action>, b: nat, s: SessionId)
    requires IsRun(trace, actions) && BeginsAt(actions, b, s)
    ensures BatchAt(trace[b + 1].db, s, OwnFiles(actions[..b + 1], s), OwnDecisions(actions[..b + 1], s))
    ensures Open(trace[b + 1].db, s)
  {
    RunStep(trace, actions, b);
    NothingBefore(trace, actions, b, s);
    assert actions[..b + 1][..b] == actions[..b];
    assert OwnDecisions(actions[..b + 1], s) == [];
    BatchStart(trace[b].db, actions[b].roots, s, trace[b + 1].db.now, []);
  }

  /** Whatever else happens, an open session's batch is that of its own ingests. */
  lemma {:induction false} BatchSoFar(trace: seq<System>, actions: seq<Action>, b: nat, i: nat, s: SessionId)
    requires IsRun(trace, actions) && BeginsAt(actions, b, s) && b < i <= |actions| && Open(trace[i].db, s)
    ensures BatchAt(trace[i].db, s, OwnFiles(actions[..i], s), OwnDecisions(actions[..i], s))
    decreases i
  {
    if i == b + 1 {
      JustBegun(trace, actions, b, s);
    } else {
      ExistsSince(trace, actions, b, i - 1, s);
      OpenEarlier(trace, actions, i - 1, i, s);
      BatchSoFar(trace, actions, b, i - 1, s);
      RunStep(trace, actions, i - 1);
      OwnSnoc(actions, i - 1, s);
      OwnStep(trace[i - 1], actions[i - 1], trace[i], s, OwnFiles(actions[..i - 1], s),
              OwnDecisions(actions[..i - 1], s));
    }
  }

  lemma {:induction false} OwnSnoc(actions: seq<Action>, i: nat, s: SessionId)
    requires i < |actions|
    ensures var own := IsOwnIngest(actions[i], s);
            && OwnFiles(actions[..i + 1], s) == (if own then OwnFiles(actions[..i], s) + [actions[i].file]
                                                 else OwnFiles(actions[..i], s))
            && OwnDecisions(actions[..i + 1], s) ==
               (if own then OwnDecisions(actions[..i], s) + [actions[i].decision] else OwnDecisions(actions[..i], s))
  {
    assert actions[..i + 1][..i] == actions[..i];
  }

  lemma {:induction false} OwnStep(x: System, a: Action, y: System, s: SessionId, files: seq<Discovered>,
                                   ds: seq<Decision>)
    requires SystemValid(x) && Next(x, a, y) && Open(x.db, s) && Open(y.db, s)
    requires BatchAt(x.db, s, files, ds) && |ds| == |files|
    ensures if IsOwnIngest(a, s) then BatchAt(y.db, s, files + [a.file], ds + [a.decision])
            else BatchAt(y.db, s, files, ds)
  {
    if IsOwnIngest(a, s) {
      BatchGrows(x.db, s, files, ds, a.file);
      BatchStep(x.db, s, files + [a.file], ds, y.db.now, a.decision, y.db);
    } else {
      OthersKeepBatch(x, a, y, s, files, ds);
    }
  }

  lemma {:induction false} ExistsSince(trace: seq<System>, actions: seq<Action>, b: nat, i: nat, s: SessionId)
    requires IsRun(trace, actions) && BeginsAt(actions, b, s) && b < i <= |actions|
    ensures s in trace[i].db.sessions
  {
    RunStep(trace, actions, i - 1);
    if i > b + 1 {
      ExistsSince(trace, actions, b, i - 1, s);
      SessionsOnlyAdded(trace[i - 1], actions[i - 1], trace[i], s);
    }
  }

  /**
   * In every run, whatever other processes do in between: for a session that begins and finishes,
   * the counters of its ingests and its finish are exact and add up to the files it ingested.
   */
  lemma {:induction false} SessionReportExact(trace: seq<System>, actions: seq<Action>, b: nat, f: nat, s: SessionId)
    requires IsRun(trace, actions) && BeginsAt(actions, b, s) && b < f < |actions|
    requires actions[f].Finish? && actions[f].session == s
    ensures var files, ds := OwnFiles(actions[..f], s), OwnDecisions(actions[..f], s);
            var moves := actions[f].moves;
            && Open(trace[f].db, s)
            && var finish := FinishOutcome(|MarkedSet(trace[f].db, s, moves)|, |moves|);
               var t := Settle(Tally(files, ds), finish);
               && Reports(files, ds, finish, t)
               && t.newFiles + t.unchangedFiles + t.moved + t.externalChanges + CountDuplicate(ds) == |files|
  {
    var files, ds, moves := OwnFiles(actions[..f], s), OwnDecisions(actions[..f], s), actions[f].moves;
    RunStep(trace, actions, f);
    BatchSoFar(trace, actions, b, f, s);
    var finish := FinishOutcome(|MarkedSet(trace[f].db, s, moves)|, |moves|);
    BatchFinishes(trace[f].db, s, files, ds, trace[f + 1].db.now, moves, trace[f + 1].db, finish);
    ReportConserves(files, ds, finish, Settle(Tally(files, ds), finish));
  }

  /** The steps that close session `s`: its finish, a cancel, or another begin once its heartbeat is stale. */
  ghost predicate Closes(x: System, a: Action, y: System, s: SessionId) {
    && Open(x.db, s)
    && ((a.Finish? && a.session == s) || (a.Cancel? && a.session == s) ||
        (a.Begin? && Stale(x.db.sessions[s], y.db.now)))
  }

  /**
   * A session that began and is found closed, so that its next call is refused without a failure,
   * was closed by such a step since.
   */
  lemma {:induction false} ClosedBySomeone(trace: seq<System>, actions: seq<Action>, b: nat, i: nat, s: SessionId)
    returns (j: nat)
    requires IsRun(trace, actions) && BeginsAt(actions, b, s) && b < i <= |actions| && !Open(trace[i].db, s)
    ensures b < j < i && Closes(trace[j], actions[j], trace[j + 1], s)
    decreases i
  {
    JustBegun(trace, actions, b, s);
    RunStep(trace, actions, i - 1);
    if Open(trace[i - 1].db, s) {
      j := i - 1;
    } else {
      j := ClosedBySomeone(trace, actions, b, i - 1, s);
    }
  }
}
