/**
 * Crash safety of recovery: whether every path with selected backups keeps its bytes, in a backup
 * or in place, at every point of every run, whatever fails. For each path the exact condition on
 * the selection and its order is given.
 */
module CrashSafety {
  import opened Common
  import opened BackupNames
  import opened CrashRecovery

  ghost predicate HeldBy(files0: map<Path, Content>, files: map<Path, Content>, o: Orphan) {
    && o.backup in files0
    && ((o.backup in files && files[o.backup] == files0[o.backup]) ||
        (o.original in files && files[o.original] == files0[o.backup]))
  }

  /** Some selected backup of `p` is still on disk, byte for byte, or `p` holds the bytes of one. */
  ghost predicate Held(orphans: seq<Orphan>, files0: map<Path, Content>, files: map<Path, Content>, p: Path) {
    exists o :: o in orphans && o.original == p && HeldBy(files0, files, o)
  }

  /** The selected backups are on the disk. */
  ghost predicate Ready(plan: Plan, start: State) {
    forall o :: o in plan.Orphans() ==> o.backup in start.files
  }

  /** A state that a run of `plan` can start in: its listing is the table's, its backups are on the disk. */
  ghost predicate CanStart(plan: Plan, start: State) {
    Lists(plan.listing, start.pending) && Ready(plan, start)
  }

  ghost predicate HasBackup(orphans: seq<Orphan>, p: Path) {
    exists b :: Orphan(b, p) in orphans
  }

  /** After `log`, the path `p` has no selected backup left and none of their bytes. */
  ghost predicate Loses(plan: Plan, start: State, log: seq<Moment>, p: Path) {
    && HasBackup(plan.Orphans(), p) && CanStart(plan, start) && RunLog(plan, start, log)
    && !Held(plan.Orphans(), start.files, Final(start, log).files, p)
  }

  // ----- the condition -----

  /** `c` is itself restored at some step. */
  ghost predicate Written(orphans: seq<Orphan>, c: Path) {
    exists i :: 0 <= i < |orphans| && orphans[i].original == c
  }

  /** From step `i` on, `c` is also used as a backup of another path than `p`. */
  ghost predicate UsedElsewhere(orphans: seq<Orphan>, c: Path, p: Path, i: nat) {
    exists k :: i <= k < |orphans| && orphans[k].backup == c && orphans[k].original != p
  }

  /** The backup `c` can be overwritten, or used up for another path than `p`. */
  ghost predicate Exposed(orphans: seq<Orphan>, c: Path, p: Path) {
    Written(orphans, c) || UsedElsewhere(orphans, c, p, 0)
  }

  /** `c` is restored to `p` before step `j`. */
  ghost predicate RestoredBefore(orphans: seq<Orphan>, c: Path, p: Path, j: nat) {
    exists i :: 0 <= i < j && i < |orphans| && orphans[i] == Orphan(c, p)
  }

  /** Step `j` can spoil what `p` holds without leaving `p` the backup it used. */
  ghost predicate Unsettles(orphans: seq<Orphan>, p: Path, j: nat)
    requires j < |orphans|
  {
    var b := orphans[j].backup;
    b == p || (orphans[j].original == p && (Written(orphans, b) || UsedElsewhere(orphans, b, p, j + 1)))
  }

  /** Step `j` unsettles `p`, and by then every other backup of `p` can be gone or is exposed. */
  ghost predicate LosesAt(orphans: seq<Orphan>, p: Path, j: nat) {
    && j < |orphans| && Unsettles(orphans, p, j)
    && forall c :: Orphan(c, p) in orphans && c != p && c != orphans[j].backup ==>
         Exposed(orphans, c, p) || RestoredBefore(orphans, c, p, j)
  }

  ghost predicate AllExposed(orphans: seq<Orphan>, p: Path) {
    Orphan(p, p) !in orphans && forall c :: Orphan(c, p) in orphans ==> Exposed(orphans, c, p)
  }

  ghost predicate CanLose(orphans: seq<Orphan>, p: Path) {
    HasBackup(orphans, p) && (AllExposed(orphans, p) || exists j: nat :: LosesAt(orphans, p, j))
  }

  // ----- safety -----

  /** A backup that is never restored to keeps its bytes as long as it is there. */
  lemma {:induction false} UnwrittenIntact(plan: Plan, start: State, log: seq<Moment>, c: Path)
    requires RunLog(plan, start, log) && c in start.files && !Written(plan.Orphans(), c)
    ensures c in Final(start, log).files ==> Final(start, log).files[c] == start.files[c]
    decreases |log|
  {
    if log != [] {
      UnwrittenIntact(plan, start, log[..|log| - 1], c);
      assert InTurn(plan, log[..|log| - 1], log[|log| - 1]);
    }
  }

  lemma {:induction false} CursorGrows(plan: Plan, start: State, log: seq<Moment>)
    requires RunLog(plan, start, log) && log != []
    ensures Cursor(log[..|log| - 1]) <= Cursor(log)
  {
    assert InTurn(plan, log[..|log| - 1], log[|log| - 1]);
  }

  /** A backup that is not exposed goes only by being restored to its own path. */
  lemma {:induction false} GoneWasRestored(plan: Plan, start: State, log: seq<Moment>, c: Path, p: Path)
    requires RunLog(plan, start, log) && c in start.files && !Exposed(plan.Orphans(), c, p)
    requires c !in Final(start, log).files
    ensures RestoredBefore(plan.Orphans(), c, p, Cursor(log))
    decreases |log|
  {
    var front, m := log[..|log| - 1], log[|log| - 1];
    CursorGrows(plan, start, log);
    if c in Final(start, front).files {
      assert m.event == Removed(c) && InTurn(plan, front, m);
      assert plan.Orphans()[m.step] == Orphan(c, p);
    } else {
      GoneWasRestored(plan, start, front, c, p);
    }
  }

  /** So far `p` is as it was, and its backups that are not exposed are there. */
  ghost predicate Untouched(orphans: seq<Orphan>, files0: map<Path, Content>, files: map<Path, Content>, p: Path) {
    && (p in files <==> p in files0) && (p in files0 ==> files[p] == files0[p])
    && forall c :: Orphan(c, p) in orphans && c != p && !Exposed(orphans, c, p) ==> c in files
  }

  ghost predicate Good(orphans: seq<Orphan>, files0: map<Path, Content>, files: map<Path, Content>, p: Path) {
    p in files && exists c :: Orphan(c, p) in orphans && c in files0 && files[p] == files0[c]
  }

  /** Step `j` was the last to change `p`. */
  ghost predicate Shaken(orphans: seq<Orphan>, files: map<Path, Content>, p: Path, j: nat) {
    && j < |orphans|
    && (Unsettles(orphans, p, j) || (orphans[j].original == p && orphans[j].backup in files))
    && forall c :: Orphan(c, p) in orphans && c != p && c != orphans[j].backup && !Exposed(orphans, c, p) ==>
         c in files || RestoredBefore(orphans, c, p, j)
  }

  /** What can have happened to `p`. */
  ghost predicate Story(plan: Plan, start: State, log: seq<Moment>, p: Path) {
    var files := Final(start, log).files;
    || Untouched(plan.Orphans(), start.files, files, p)
    || Good(plan.Orphans(), start.files, files, p)
    || exists j: nat :: j < Cursor(log) && Shaken(plan.Orphans(), files, p, j)
  }

  /** The backups of `p` that are not exposed are there or were restored before step `j`. */
  lemma {:induction false} OthersAccounted(plan: Plan, start: State, log: seq<Moment>, p: Path, j: nat, c: Path)
    requires RunLog(plan, start, log) && Ready(plan, start) && Cursor(log) <= j + 1 && j < |plan.Orphans()|
    requires Orphan(c, p) in plan.Orphans() && c != plan.Orphans()[j].backup && !Exposed(plan.Orphans(), c, p)
    ensures c in Final(start, log).files || RestoredBefore(plan.Orphans(), c, p, j)
  {
    assert Orphan(c, p).backup in start.files;
    if c !in Final(start, log).files {
      GoneWasRestored(plan, start, log, c, p);
    }
  }

  /** A write to `p` leaves it with good bytes, or is the step that shook it. */
  lemma {:induction false} StoryWrite(plan: Plan, start: State, log: seq<Moment>, p: Path)
    requires RunLog(plan, start, log) && Ready(plan, start) && log != []
    requires var e := log[|log| - 1].event; (e.Restored? || e.Spoiled?) && e.original == p
    ensures || Good(plan.Orphans(), start.files, Final(start, log).files, p)
            || Shaken(plan.Orphans(), Final(start, log).files, p, log[|log| - 1].step)
    ensures log[|log| - 1].event.Restored? ==>
              Good(plan.Orphans(), start.files, Final(start, log).files, p) ||
                Unsettles(plan.Orphans(), p, log[|log| - 1].step)
  {
    var orphans, front, m := plan.Orphans(), log[..|log| - 1], log[|log| - 1];
    assert InTurn(plan, front, m);
    var b := m.event.backup;
    assert orphans[m.step] == Orphan(b, p) && Orphan(b, p) in orphans;
    if m.event.Restored? && !Written(orphans, b) { UnwrittenIntact(plan, start, front, b); }
    forall c | Orphan(c, p) in orphans && c != p && c != b && !Exposed(orphans, c, p)
      ensures c in Final(start, log).files || RestoredBefore(orphans, c, p, m.step)
    {
      OthersAccounted(plan, start, log, p, m.step, c);
    }
  }

  lemma {:induction false} StoryElsewhere(plan: Plan, start: State, log: seq<Moment>, p: Path)
    requires RunLog(plan, start, log) && log != [] && Story(plan, start, log[..|log| - 1], p)
    requires var e := log[|log| - 1].event; e.Deleted? || ((e.Restored? || e.Spoiled?) && e.original != p)
    ensures Story(plan, start, log, p)
  {
    var orphans, front, m := plan.Orphans(), log[..|log| - 1], log[|log| - 1];
    CursorGrows(plan, start, log);
    assert InTurn(plan, front, m);
    var before, after := Final(start, front).files, Final(start, log).files;
    assert before.Keys <= after.Keys;
    if j: nat :| j < Cursor(front) && Shaken(orphans, before, p, j) {
      assert Shaken(orphans, after, p, j);
    }
  }

  lemma {:induction false} StoryRemove(plan: Plan, start: State, log: seq<Moment>, p: Path)
    requires RunLog(plan, start, log) && Ready(plan, start) && plan.mode.AlwaysRecover?
    requires log != [] && log[|log| - 1].event.Removed? && Story(plan, start, log[..|log| - 1], p)
    ensures Story(plan, start, log, p)
  {
    var orphans, front, m := plan.Orphans(), log[..|log| - 1], log[|log| - 1];
    var b, i, files := m.event.backup, m.step, Final(start, log).files;
    assert InTurn(plan, front, m) && InTurn(plan, front[..|front| - 1], front[|front| - 1]);
    if b == p || orphans[i].original == p {
      if b != p { StoryWrite(plan, start, front, p); }
      if b == p || Unsettles(orphans, p, i) {
        forall c | Orphan(c, p) in orphans && c != p && c != b && !Exposed(orphans, c, p)
          ensures c in files || RestoredBefore(orphans, c, p, i)
        {
          OthersAccounted(plan, start, log, p, i, c);
        }
        assert Shaken(orphans, files, p, i);
      }
    } else {
      StoryUseElsewhere(plan, start, log, p);
    }
  }

  /** Using a backup up for another path. */
  lemma {:induction false} StoryUseElsewhere(plan: Plan, start: State, log: seq<Moment>, p: Path)
    requires RunLog(plan, start, log) && log != [] && Story(plan, start, log[..|log| - 1], p)
    requires log[|log| - 1].event.Removed? && log[|log| - 1].step < |plan.Orphans()|
    requires Cursor(log[..|log| - 1]) <= log[|log| - 1].step + 1
    requires var o := plan.Orphans()[log[|log| - 1].step];
             o.backup == log[|log| - 1].event.backup && o.backup != p && o.original != p
    ensures Story(plan, start, log, p)
  {
    var orphans, front, i := plan.Orphans(), log[..|log| - 1], log[|log| - 1].step;
    var before, after := Final(start, front).files, Final(start, log).files;
    assert UsedElsewhere(orphans, orphans[i].backup, p, 0);
    if Untouched(orphans, start.files, before, p) {
      assert Untouched(orphans, start.files, after, p);
    } else if j: nat :| j < Cursor(front) && Shaken(orphans, before, p, j) {
      assert orphans[j].backup == orphans[i].backup && orphans[j].original == p ==>
        UsedElsewhere(orphans, orphans[j].backup, p, j + 1);
      assert Shaken(orphans, after, p, j);
    }
  }

  lemma {:induction false} EveryStory(plan: Plan, start: State, log: seq<Moment>, p: Path)
    requires RunLog(plan, start, log) && Ready(plan, start) && plan.mode.AlwaysRecover?
    ensures Story(plan, start, log, p)
    decreases |log|
  {
    if log == [] {
      forall c | Orphan(c, p) in plan.Orphans() ensures c in start.files { assert Orphan(c, p).backup in start.files; }
    } else {
      var front, m := log[..|log| - 1], log[|log| - 1];
      EveryStory(plan, start, front, p);
      if m.event.Removed? {
        StoryRemove(plan, start, log, p);
      } else if (m.event.Restored? || m.event.Spoiled?) && m.event.original == p {
        StoryWrite(plan, start, log, p);
        assert m.step < Cursor(log);
      } else {
        StoryElsewhere(plan, start, log, p);
      }
    }
  }

  /** A backup that is there and never written keeps its path held. */
  lemma {:induction false} HeldOnDisk(plan: Plan, start: State, log: seq<Moment>, c: Path, p: Path)
    requires RunLog(plan, start, log) && Ready(plan, start) && Orphan(c, p) in plan.Orphans()
    requires !Written(plan.Orphans(), c) && c in Final(start, log).files
    ensures Held(plan.Orphans(), start.files, Final(start, log).files, p)
  {
    assert Orphan(c, p).backup in start.files;
    UnwrittenIntact(plan, start, log, c);
    assert HeldBy(start.files, Final(start, log).files, Orphan(c, p));
  }

  /**
   * Crash safety: in recover mode, at every point of every run, whatever fails, a path that cannot
   * lose has a selected backup on disk, byte for byte, or holds the bytes of one.
   */
  lemma {:induction false} CrashSafe(plan: Plan, start: State, log: seq<Moment>, p: Path, i: nat)
    requires RunLog(plan, start, log) && Ready(plan, start) && plan.mode.AlwaysRecover? && i <= |log|
    requires HasBackup(plan.Orphans(), p) && !CanLose(plan.Orphans(), p)
    ensures Held(plan.Orphans(), start.files, Final(start, log[..i]).files, p)
  {
    RunLogPrefix(plan, start, log, i);
    EveryStory(plan, start, log[..i], p);
    if !Held(plan.Orphans(), start.files, Final(start, log[..i]).files, p) {
      LostMeansCanLose(plan, start, log[..i], p);
    }
  }

  lemma {:induction false} LostMeansCanLose(plan: Plan, start: State, log: seq<Moment>, p: Path)
    requires Ready(plan, start) && RunLog(plan, start, log) && HasBackup(plan.Orphans(), p) &&
             Story(plan, start, log, p)
    requires !Held(plan.Orphans(), start.files, Final(start, log).files, p)
    ensures CanLose(plan.Orphans(), p)
  {
    var orphans, files := plan.Orphans(), Final(start, log).files;
    forall c | Orphan(c, p) in orphans && c in files ensures Written(orphans, c) {
      if !Written(orphans, c) { HeldOnDisk(plan, start, log, c, p); }
    }
    if Untouched(orphans, start.files, files, p) {
      if Orphan(p, p) in orphans { assert HeldBy(start.files, files, Orphan(p, p)); }
    } else if !Good(orphans, start.files, files, p) {
      var j: nat :| j < Cursor(log) && Shaken(orphans, files, p, j);
      assert orphans[j] in orphans;
      assert orphans[j].original == p ==> orphans[j] == Orphan(orphans[j].backup, p);
      assert LosesAt(orphans, p, j);
    }
  }

  // ----- loss -----

  /** One more event of a run. */
  lemma {:induction false} Happens(plan: Plan, start: State, log: seq<Moment>, m: Moment) returns (next: seq<Moment>)
    requires RunLog(plan, start, log) && StepOk(Final(start, log), m.event, m.after)
    requires Justified(plan, log, m.event) && InTurn(plan, log, m)
    ensures RunLog(plan, start, next) && Final(start, next) == m.after && next == log + [m]
    ensures Cursor(next) == if m.event.Deleted? then Cursor(log) else m.step + 1
  {
    next := log + [m];
    RunLogExtends(plan, start, log, m);
    assert next[..|log|] == log;
  }

  /** Restoring the orphan at place `i` and removing its backup, with nothing failing. */
  lemma {:induction false} RestoreHappens(plan: Plan, start: State, log: seq<Moment>, i: nat)
    returns (next: seq<Moment>)
    requires RunLog(plan, start, log) && plan.mode.AlwaysRecover? && Cursor(log) <= i < |plan.Orphans()|
    requires plan.Orphans()[i].backup in Final(start, log).files
    ensures RunLog(plan, start, next) && Cursor(next) == i + 1
    ensures var s, o := Final(start, log), plan.Orphans()[i];
            Final(start, next) == s.(files := s.files[o.original := s.files[o.backup]] - {o.backup})
    ensures HasRemoved(next, plan.Orphans()[i].backup)
  {
    var s, o := Final(start, log), plan.Orphans()[i];
    assert o == Orphan(o.backup, o.original) && o in plan.Orphans();
    var t := s.(files := s.files[o.original := s.files[o.backup]]);
    next := Happens(plan, start, log, Moment(Restored(o.backup, o.original), i, t));
    next := Happens(plan, start, next, Moment(Removed(o.backup), i, t.(files := t.files - {o.backup})));
    assert next[|next| - 1].event == Removed(o.backup);
  }

  /** A restore of the orphan at place `i` that fails part way. */
  lemma {:induction false} SpoilHappens(plan: Plan, start: State, log: seq<Moment>, i: nat, junk: Content)
    returns (next: seq<Moment>)
    requires RunLog(plan, start, log) && plan.mode.AlwaysRecover? && Cursor(log) <= i < |plan.Orphans()|
    requires plan.Orphans()[i].backup in Final(start, log).files
    ensures RunLog(plan, start, next) && Cursor(next) == i + 1
    ensures var s, o := Final(start, log), plan.Orphans()[i];
            Final(start, next) == s.(files := s.files[o.original := junk])
  {
    var s, o := Final(start, log), plan.Orphans()[i];
    assert o == Orphan(o.backup, o.original) && o in plan.Orphans();
    next := Happens(plan, start, log,
                    Moment(Spoiled(o.backup, o.original), i, s.(files := s.files[o.original := junk])));
  }

  function FirstUse(orphans: seq<Orphan>, b: Path): (n: nat)
    ensures n <= |orphans| && (n < |orphans| ==> orphans[n].backup == b)
    ensures forall i :: 0 <= i < n ==> orphans[i].backup != b
  {
    if orphans == [] || orphans[0].backup == b then 0 else 1 + FirstUse(orphans[1..], b)
  }

  function Mark(n: nat): Content { seq(n + 1, _ => 'x') }

  /** A disk with every selected backup, no two with the same bytes, and none empty. */
  ghost function Disk(orphans: seq<Orphan>): (files: map<Path, Content>) {
    var backups := set o | o in orphans :: o.backup;
    map b | b in backups :: Mark(FirstUse(orphans, b))
  }

  lemma {:induction false} DiskDistinct(orphans: seq<Orphan>, b: Path, c: Path)
    requires b in Disk(orphans) && c in Disk(orphans)
    ensures Disk(orphans)[b] == Disk(orphans)[c] ==> b == c
    ensures Disk(orphans)[b] != ""
  {
    var o :| o in orphans && o.backup == b;
    var i :| 0 <= i < |orphans| && orphans[i] == o;
    assert |Mark(FirstUse(orphans, b))| == FirstUse(orphans, b) + 1 &&
      |Mark(FirstUse(orphans, c))| == FirstUse(orphans, c) + 1;
  }

  /** How the handling of one orphan turns out: it fails, it fails part way, or it succeeds. */
  datatype Deed = Skip | Spoil(junk: Content) | Move

  /**
   * How each step is made to turn out so that `p` is lost, with `p` unsettled at step `j`: use up
   * the backups of `p` that nothing else touches while `p` may still be spoiled, overwrite those
   * that are written, and use up the others for another path at the last chance.
   */
  ghost function Plot(orphans: seq<Orphan>, p: Path, j: nat, i: nat): Deed
    requires i < |orphans|
  {
    var b, o := orphans[i].backup, orphans[i].original;
    if i == j then (if b == p then Move else Spoil(""))
    else if o == p then (if i < j && b != p && !Exposed(orphans, b, p) then Move else Skip)
    else if b != p && Orphan(b, p) in orphans && !Written(orphans, b) && !UsedElsewhere(orphans, b, p, i + 1) then Move
    else if Orphan(o, p) in orphans then Spoil("")
    else Skip
  }

  function Act(deed: Deed, files: map<Path, Content>, o: Orphan): map<Path, Content> {
    if o.backup !in files || deed.Skip? then files
    else if deed.Spoil? then files[o.original := deed.junk]
    else files[o.original := files[o.backup]] - {o.backup}
  }

  /** The disk after the first `n` steps. */
  ghost function Scene(orphans: seq<Orphan>, deeds: seq<Deed>, n: nat): map<Path, Content>
    requires n <= |orphans| == |deeds|
  {
    if n == 0 then Disk(orphans) else Act(deeds[n - 1], Scene(orphans, deeds, n - 1), orphans[n - 1])
  }

  ghost function Deeds(orphans: seq<Orphan>, p: Path, j: nat): (deeds: seq<Deed>)
    ensures |deeds| == |orphans| && forall i :: 0 <= i < |orphans| ==> deeds[i] == Plot(orphans, p, j, i)
  {
    seq(|orphans|, i requires 0 <= i < |orphans| => Plot(orphans, p, j, i))
  }

  lemma {:induction false} ActKeeps(deed: Deed, files: map<Path, Content>, o: Orphan, c: Path)
    requires c != o.original && (c == o.backup ==> !deed.Move?)
    ensures c in Act(deed, files, o) <==> c in files
    ensures c in files ==> Act(deed, files, o)[c] == files[c]
  {
  }

  lemma {:induction false} SceneRuns(plan: Plan, pending: map<string, Path>, deeds: seq<Deed>, n: nat)
    returns (log: seq<Moment>)
    requires plan.mode.AlwaysRecover? && n <= |plan.Orphans()| == |deeds|
    ensures var start := State(Disk(plan.Orphans()), pending);
            RunLog(plan, start, log) && Cursor(log) <= n && Final(start, log).files == Scene(plan.Orphans(), deeds, n)
  {
    var start := State(Disk(plan.Orphans()), pending);
    log := [];
    if n > 0 {
      log := SceneRuns(plan, pending, deeds, n - 1);
      if plan.Orphans()[n - 1].backup in Final(start, log).files && !deeds[n - 1].Skip? {
        if deeds[n - 1].Spoil? {
          log := SpoilHappens(plan, start, log, n - 1, deeds[n - 1].junk);
        } else {
          log := RestoreHappens(plan, start, log, n - 1);
        }
      }
    }
  }

  /** A backup that no earlier step moves is there. */
  lemma {:induction false} StillThere(orphans: seq<Orphan>, deeds: seq<Deed>, n: nat, c: Path)
    requires n <= |orphans| == |deeds| && c in Disk(orphans)
    requires forall i :: 0 <= i < n && orphans[i].backup == c ==> !deeds[i].Move?
    ensures c in Scene(orphans, deeds, n)
  {
    if n > 0 { StillThere(orphans, deeds, n - 1, c); }
  }

  lemma {:induction false} StillIntact(orphans: seq<Orphan>, deeds: seq<Deed>, n: nat, c: Path)
    requires n <= |orphans| == |deeds| && c in Disk(orphans) && !Written(orphans, c)
    ensures c in Scene(orphans, deeds, n) ==> Scene(orphans, deeds, n)[c] == Disk(orphans)[c]
  {
    if n > 0 {
      StillIntact(orphans, deeds, n - 1, c);
      ActUnwritten(deeds[n - 1], Scene(orphans, deeds, n - 1), orphans[n - 1], c);
    }
  }

  lemma {:induction false} ActUnwritten(deed: Deed, files: map<Path, Content>, o: Orphan, c: Path)
    requires c != o.original
    ensures c in Act(deed, files, o) ==> c in files && Act(deed, files, o)[c] == files[c]
  {
  }

  /** A backup that is moved and never written is gone. */
  lemma {:induction false} GoneOnceMoved(orphans: seq<Orphan>, deeds: seq<Deed>, n: nat, c: Path, i: nat)
    requires i < n <= |orphans| == |deeds| && !Written(orphans, c)
    requires orphans[i].backup == c && deeds[i].Move?
    ensures c !in Scene(orphans, deeds, n)
  {
    if i < n - 1 { GoneOnceMoved(orphans, deeds, n - 1, c, i); }
  }

  /** What the plot relies on: everything is exposed, or `j` is a losing step, the last one that uses `p` itself. */
  ghost predicate Scenario(orphans: seq<Orphan>, p: Path, j: nat) {
    || (j == |orphans| && AllExposed(orphans, p))
    || (LosesAt(orphans, p, j) && (orphans[j].backup == p ==> forall k :: j < k < |orphans| ==> orphans[k].backup != p))
  }

  /** A backup that some step uses for another path than `p` was not moved before that step. */
  lemma {:induction false} NotMovedYet(orphans: seq<Orphan>, p: Path, j: nat, i: nat, k: nat)
    requires Scenario(orphans, p, j) && k < i < |orphans|
    requires orphans[i].original != p && orphans[k].backup == orphans[i].backup
    ensures !Plot(orphans, p, j, k).Move?
  {
    assert UsedElsewhere(orphans, orphans[i].backup, p, k + 1) && UsedElsewhere(orphans, orphans[i].backup, p, 0);
  }

  lemma {:induction false} InDisk(orphans: seq<Orphan>, i: nat)
    requires i < |orphans|
    ensures orphans[i].backup in Disk(orphans)
  {
    assert orphans[i] in orphans;
  }

  /** `v` is what `p` had itself, or the bytes of a backup of `p` that nothing else touches. */
  ghost predicate OwnOrClear(orphans: seq<Orphan>, p: Path, v: Content) {
    || (p in Disk(orphans) && v == Disk(orphans)[p])
    || exists c :: Orphan(c, p) in orphans && c in Disk(orphans) && !Exposed(orphans, c, p) && v == Disk(orphans)[c]
  }

  ghost predicate SoFar(orphans: seq<Orphan>, p: Path, files: map<Path, Content>) {
    p in files ==> OwnOrClear(orphans, p, files[p])
  }

  /** Before step `n` nothing spoils or moves `p`, and only backups that nothing else touches are moved to it. */
  ghost predicate Cautious(orphans: seq<Orphan>, deeds: seq<Deed>, p: Path, n: nat)
    requires n <= |orphans| == |deeds|
  {
    forall i :: 0 <= i < n ==>
      && (orphans[i].backup == p ==> !deeds[i].Move?)
      && (orphans[i].original == p ==> !deeds[i].Spoil?)
      && (orphans[i].original == p && deeds[i].Move? ==> !Exposed(orphans, orphans[i].backup, p))
  }

  lemma {:induction false} CautiousScene(orphans: seq<Orphan>, deeds: seq<Deed>, p: Path, n: nat)
    requires n <= |orphans| == |deeds| && Cautious(orphans, deeds, p, n)
    ensures SoFar(orphans, p, Scene(orphans, deeds, n))
  {
    if n > 0 {
      CautiousScene(orphans, deeds, p, n - 1);
      var deed, o, files := deeds[n - 1], orphans[n - 1], Scene(orphans, deeds, n - 1);
      if deed.Move? && o.original == p && o.backup in files { ClearBytes(orphans, deeds, p, n - 1); }
      NotYetShaken(orphans, p, deed, files, o);
    }
  }

  lemma {:induction false} UntilShaken(orphans: seq<Orphan>, p: Path, j: nat, n: nat)
    requires n <= j && n <= |orphans|
    ensures SoFar(orphans, p, Scene(orphans, Deeds(orphans, p, j), n))
  {
    CautiousScene(orphans, Deeds(orphans, p, j), p, n);
  }

  lemma {:induction false} NotYetShaken(orphans: seq<Orphan>, p: Path, deed: Deed, files: map<Path, Content>, o: Orphan)
    requires SoFar(orphans, p, files) && (o.backup == p ==> !deed.Move?) && (o.original == p ==> !deed.Spoil?)
    requires deed.Move? && o.original == p && o.backup in files ==> OwnOrClear(orphans, p, files[o.backup])
    ensures SoFar(orphans, p, Act(deed, files, o))
  {
  }

  lemma {:induction false} ClearBytes(orphans: seq<Orphan>, deeds: seq<Deed>, p: Path, i: nat)
    requires i < |orphans| == |deeds| && orphans[i].original == p && !Exposed(orphans, orphans[i].backup, p)
    requires orphans[i].backup in Scene(orphans, deeds, i)
    ensures OwnOrClear(orphans, p, Scene(orphans, deeds, i)[orphans[i].backup])
  {
    InDisk(orphans, i);
    StillIntact(orphans, deeds, i, orphans[i].backup);
    assert orphans[i] == Orphan(orphans[i].backup, p) && orphans[i] in orphans;
  }

  /** A backup of `p` that is written is overwritten with other bytes. */
  lemma {:induction false} OverwrittenNow(orphans: seq<Orphan>, p: Path, j: nat, i: nat, c: Path)
    requires Scenario(orphans, p, j) && i < |orphans| && orphans[i].original == c && c != p && Orphan(c, p) in orphans
    ensures c in Scene(orphans, Deeds(orphans, p, j), i + 1) && c in Disk(orphans) &&
            Scene(orphans, Deeds(orphans, p, j), i + 1)[c] != Disk(orphans)[c]
  {
    var b, files := orphans[i].backup, Scene(orphans, Deeds(orphans, p, j), i);
    assert Orphan(c, p).backup in Disk(orphans);
    InDisk(orphans, i);
    assert b in files by {
      forall k | 0 <= k < i && orphans[k].backup == b
        ensures !Plot(orphans, p, j, k).Move? { NotMovedYet(orphans, p, j, i, k); }
      StillThere(orphans, Deeds(orphans, p, j), i, b);
    }
    DiskDistinct(orphans, c, c);
    if Plot(orphans, p, j, i).Move? {
      if b == p {
        UntilShaken(orphans, p, j, i);
        PValueDiffers(orphans, p, c, files[p]);
      } else {
        StillIntact(orphans, Deeds(orphans, p, j), i, b);
        DiskDistinct(orphans, b, c);
      }
    }
  }

  lemma {:induction false} PValueDiffers(orphans: seq<Orphan>, p: Path, c: Path, v: Content)
    requires c in Disk(orphans) && c != p && Written(orphans, c)
    requires OwnOrClear(orphans, p, v)
    ensures v != Disk(orphans)[c]
  {
    if p in Disk(orphans) && v == Disk(orphans)[p] {
      DiskDistinct(orphans, p, c);
    } else {
      var d :| Orphan(d, p) in orphans && d in Disk(orphans) && !Exposed(orphans, d, p) && v == Disk(orphans)[d];
      DiskDistinct(orphans, d, c);
    }
  }

  lemma {:induction false} OverwrittenStays(orphans: seq<Orphan>, p: Path, j: nat, n: nat, c: Path, i: nat)
    requires Scenario(orphans, p, j) && i < n <= |orphans| && orphans[i].original == c && c != p &&
             Orphan(c, p) in orphans
    ensures var files := Scene(orphans, Deeds(orphans, p, j), n);
            c in files && c in Disk(orphans) && files[c] != Disk(orphans)[c]
  {
    var o := orphans[n - 1];
    if o.original == c {
      OverwrittenNow(orphans, p, j, n - 1, c);
    } else {
      OverwrittenStays(orphans, p, j, n - 1, c, i);
      assert Written(orphans, c) && Exposed(orphans, c, p);
      ActKeeps(Plot(orphans, p, j, n - 1), Scene(orphans, Deeds(orphans, p, j), n - 1), o, c);
    }
  }

  lemma {:induction false} ShakenNow(orphans: seq<Orphan>, p: Path, j: nat)
    requires LosesAt(orphans, p, j)
    ensures var files := Scene(orphans, Deeds(orphans, p, j), j + 1); p in files ==> files[p] == ""
  {
    if orphans[j].backup != p {
      InDisk(orphans, j);
      var b := orphans[j].backup;
      forall k | 0 <= k < j && orphans[k].backup == b ensures !Plot(orphans, p, j, k).Move? {
        UnsettlerStays(orphans, p, j, k);
      }
      StillThere(orphans, Deeds(orphans, p, j), j, b);
    }
  }

  /** After step `j`, `p` is gone or empty. */
  lemma {:induction false} OnceShaken(orphans: seq<Orphan>, p: Path, j: nat, n: nat)
    requires LosesAt(orphans, p, j) && j < n <= |orphans|
    ensures var files := Scene(orphans, Deeds(orphans, p, j), n); p in files ==> files[p] == ""
  {
    if j == n - 1 {
      ShakenNow(orphans, p, j);
    } else {
      OnceShaken(orphans, p, j, n - 1);
      if orphans[n - 1].original != p {
        ActKeeps(Plot(orphans, p, j, n - 1), Scene(orphans, Deeds(orphans, p, j), n - 1), orphans[n - 1], p);
      }
    }
  }

  lemma {:induction false} UnsettlerStays(orphans: seq<Orphan>, p: Path, j: nat, k: nat)
    requires LosesAt(orphans, p, j) && k < j && orphans[k].backup == orphans[j].backup != p
    ensures !Plot(orphans, p, j, k).Move?
  {
    var b := orphans[j].backup;
    if !Written(orphans, b) {
      var i :| j + 1 <= i < |orphans| && orphans[i].backup == b && orphans[i].original != p;
      assert UsedElsewhere(orphans, b, p, k + 1) && UsedElsewhere(orphans, b, p, 0);
    }
  }

  lemma {:induction false} LastUse(orphans: seq<Orphan>, c: Path, p: Path, i: nat) returns (k: nat)
    requires UsedElsewhere(orphans, c, p, i)
    ensures i <= k < |orphans| && orphans[k].backup == c && orphans[k].original != p &&
            !UsedElsewhere(orphans, c, p, k + 1)
    decreases |orphans| - i
  {
    k :| i <= k < |orphans| && orphans[k].backup == c && orphans[k].original != p;
    if UsedElsewhere(orphans, c, p, k + 1) { k := LastUse(orphans, c, p, k + 1); }
  }

  /** At the end no backup of `p` other than `p` itself is on disk with its bytes. */
  lemma {:induction false} BackupLost(orphans: seq<Orphan>, p: Path, j: nat, c: Path)
    requires Scenario(orphans, p, j) && Orphan(c, p) in orphans && c != p
    ensures var files := Scene(orphans, Deeds(orphans, p, j), |orphans|);
            c in files && c in Disk(orphans) ==> files[c] != Disk(orphans)[c]
  {
    if i: nat :| i < |orphans| && orphans[i].original == c {
      OverwrittenStays(orphans, p, j, |orphans|, c, i);
    } else if UsedElsewhere(orphans, c, p, 0) {
      var k := LastUse(orphans, c, p, 0);
      GoneOnceMoved(orphans, Deeds(orphans, p, j), |orphans|, c, k);
    } else {
      var i: nat :| i < j && i < |orphans| && orphans[i] == Orphan(c, p);
      GoneOnceMoved(orphans, Deeds(orphans, p, j), |orphans|, c, i);
    }
  }

  /** At the end `p` holds the bytes of none of its backups. */
  lemma {:induction false} BytesLost(orphans: seq<Orphan>, p: Path, j: nat, c: Path)
    requires Scenario(orphans, p, j) && Orphan(c, p) in orphans && c in Disk(orphans)
    ensures var files := Scene(orphans, Deeds(orphans, p, j), |orphans|); p in files ==> files[p] != Disk(orphans)[c]
  {
    DiskDistinct(orphans, c, c);
    if j < |orphans| {
      OnceShaken(orphans, p, j, |orphans|);
    } else {
      UntilShaken(orphans, p, j, |orphans|);
      if p in Disk(orphans) { DiskDistinct(orphans, p, c); }
    }
  }

  lemma {:induction false} SceneLoses(orphans: seq<Orphan>, p: Path, j: nat)
    requires Scenario(orphans, p, j)
    ensures !Held(orphans, Disk(orphans), Scene(orphans, Deeds(orphans, p, j), |orphans|), p)
  {
    var files := Scene(orphans, Deeds(orphans, p, j), |orphans|);
    forall o | o in orphans && o.original == p ensures !HeldBy(Disk(orphans), files, o) {
      assert o == Orphan(o.backup, p) && o.backup in Disk(orphans);
      BytesLost(orphans, p, j, o.backup);
      if o.backup != p { BackupLost(orphans, p, j, o.backup); }
    }
  }

  /** A losing step can be chosen as the last that uses `p` itself as a backup. */
  lemma {:induction false} LastLosing(orphans: seq<Orphan>, p: Path, j: nat) returns (k: nat)
    requires LosesAt(orphans, p, j)
    ensures Scenario(orphans, p, k)
    decreases |orphans| - j
  {
    k := j;
    if orphans[j].backup == p {
      if i: nat :| j < i < |orphans| && orphans[i].backup == p {
        forall c | Orphan(c, p) in orphans && c != p && RestoredBefore(orphans, c, p, j)
          ensures RestoredBefore(orphans, c, p, i) {}
        k := LastLosing(orphans, p, i);
      }
    }
  }

  lemma {:induction false} ChooseScenario(orphans: seq<Orphan>, p: Path) returns (j: nat)
    requires CanLose(orphans, p)
    ensures Scenario(orphans, p, j)
  {
    if AllExposed(orphans, p) {
      j := |orphans|;
    } else {
      var i: nat :| LosesAt(orphans, p, i);
      j := LastLosing(orphans, p, i);
    }
  }

  /**
   * Crash safety, exactly: recovery of the selection in its order can lose a path, in some run from
   * some disk that has the selected backups, if and only if the condition holds.
   */
  lemma {:induction false} CrashSafeIff(plan: Plan, p: Path)
    requires plan.mode.AlwaysRecover? && DistinctIds(plan.listing)
    ensures (exists start, log :: Loses(plan, start, log, p)) <==> CanLose(plan.Orphans(), p)
  {
    if start, log :| Loses(plan, start, log, p) {
      EveryStory(plan, start, log, p);
      LostMeansCanLose(plan, start, log, p);
    }
    if CanLose(plan.Orphans(), p) {
      var j := ChooseScenario(plan.Orphans(), p);
      TableLists(plan.listing);
      var start := State(Disk(plan.Orphans()), Table(plan.listing));
      var log := SceneRuns(plan, start.pending, Deeds(plan.Orphans(), p, j), |plan.Orphans()|);
      SceneLoses(plan.Orphans(), p, j);
      assert Loses(plan, start, log, p);
    }
  }

  // ----- the same loss as a run of the code -----

  ghost predicate Agree(f: Oracle, g: Oracle, lo: nat, hi: nat) {
    forall k :: lo <= k < hi ==> f(k) == g(k)
  }

  /** A run depends on the outcomes of the calls it makes and on no others. */
  lemma {:induction false} AgreeDeletes(s: Sys, listing: seq<PendingOp>, n: nat, path: Path, f: Oracle, g: Oracle)
    requires n <= |listing| && Agree(f, g, s.clock, AfterDeletes(s, listing, n, path, f).clock)
    ensures AfterDeletes(s, listing, n, path, f) == AfterDeletes(s, listing, n, path, g)
    ensures AfterDeletes(s, listing, n, path, f).clock >= s.clock
  {
    if n > 0 { AgreeDeletes(s, listing, n - 1, path, f, g); }
  }

  lemma {:induction false} AgreeResolve(s: Sys, mode: Mode, listing: seq<PendingOp>, o: Orphan, f: Oracle, g: Oracle)
    requires Agree(f, g, s.clock, AfterResolve(s, mode, listing, o, f).clock)
    ensures AfterResolve(s, mode, listing, o, f) == AfterResolve(s, mode, listing, o, g)
    ensures AfterResolve(s, mode, listing, o, f).clock >= s.clock
  {
    var t := AfterAttempt(s, mode, o, f);
    AgreeDeletes(t, listing, |listing|, o.original, f, f);
    if Succeeds(s, mode, o, f) { AgreeDeletes(t, listing, |listing|, o.original, f, g); }
  }

  lemma {:induction false} AgreeOrphans(s: Sys, plan: Plan, n: nat, f: Oracle, g: Oracle)
    requires n <= |plan.Orphans()|
    requires Agree(f, g, s.clock, AfterOrphans(s, plan.mode, plan.listing, plan.Orphans(), n, f).clock)
    ensures AfterOrphans(s, plan.mode, plan.listing, plan.Orphans(), n, f) ==
            AfterOrphans(s, plan.mode, plan.listing, plan.Orphans(), n, g)
    ensures AfterOrphans(s, plan.mode, plan.listing, plan.Orphans(), n, f).clock >= s.clock
  {
    if n > 0 {
      var t := AfterOrphans(s, plan.mode, plan.listing, plan.Orphans(), n - 1, f);
      AgreeResolve(t, plan.mode, plan.listing, plan.Orphans()[n - 1], f, f);
      AgreeOrphans(s, plan, n - 1, f, g);
      AgreeResolve(t, plan.mode, plan.listing, plan.Orphans()[n - 1], f, g);
    }
  }

  /** The outcome of every call from `clock` on that makes one step turn out as `deed`. */
  function From(f: Oracle, clock: nat, deed: Deed): Oracle {
    (k: nat) =>
      if k < clock then f(k)
      else match deed
        case Skip => Fails
        case Spoil(junk) => FailsMidway(junk)
        case Move => NoFault
  }

  /** The state after one deed; a success deletes the listed operations on the path. */
  ghost function ActOn(deed: Deed, s: State, listing: seq<PendingOp>, o: Orphan): State {
    State(Act(deed, s.files, o),
          if deed.Move? && o.backup in s.files then s.pending - Ids(listing, |listing|, p => p == o.original)
            else s.pending)
  }

  /** The state after the first `n` deeds. */
  ghost function Acted(s: State, plan: Plan, deeds: seq<Deed>, n: nat): State
    requires n <= |plan.Orphans()| == |deeds|
  {
    if n == 0 then s else ActOn(deeds[n - 1], Acted(s, plan, deeds, n - 1), plan.listing, plan.Orphans()[n - 1])
  }

  lemma {:induction false} StepTurnsOut(s: Sys, listing: seq<PendingOp>, o: Orphan, f: Oracle, deed: Deed)
    ensures var t := AfterResolve(s, AlwaysRecover, listing, o, From(f, s.clock, deed));
            State(t.files, t.pending) == ActOn(deed, State(s.files, s.pending), listing, o)
  {
    var g := From(f, s.clock, deed);
    var t := AfterAttempt(s, AlwaysRecover, o, g);
    if deed.Move? && o.backup in s.files && Removes(AfterRestore(s, o, g), o.backup, g) {
      CalmDeletes(t, listing, |listing|, o.original, g);
    }
  }

  /** The failures that make the code act out given deeds. */
  lemma {:induction false} CodeActs(s: Sys, plan: Plan, deeds: seq<Deed>, n: nat) returns (f: Oracle)
    requires plan.mode.AlwaysRecover? && n <= |plan.Orphans()| == |deeds|
    ensures var t := AfterOrphans(s, plan.mode, plan.listing, plan.Orphans(), n, f);
            State(t.files, t.pending) == Acted(State(s.files, s.pending), plan, deeds, n)
  {
    f := (k: nat) => NoFault;
    if n > 0 {
      f := CodeActs(s, plan, deeds, n - 1);
      var t := AfterOrphans(s, plan.mode, plan.listing, plan.Orphans(), n - 1, f);
      var g := From(f, t.clock, deeds[n - 1]);
      AgreeOrphans(s, plan, n - 1, f, g);
      StepTurnsOut(t, plan.listing, plan.Orphans()[n - 1], f, deeds[n - 1]);
      f := g;
    }
  }

  /** The same after a listing call that succeeds: a whole run of the code. */
  lemma {:induction false} CodeRunActs(s: State, plan: Plan, deeds: seq<Deed>) returns (f: Oracle)
    requires plan.mode.AlwaysRecover? && |plan.Orphans()| == |deeds| && plan.Orphans() != []
    ensures f(0).NoFault?
    ensures var t := AfterRun(Tick(Sys(s.files, s.pending, 0)), plan, f);
            State(t.files, t.pending) == Acted(s, plan, deeds, |deeds|)
  {
    var s1 := Tick(Sys(s.files, s.pending, 0));
    var g := CodeActs(s1, plan, deeds, |deeds|);
    f := (k: nat) => if k == 0 then NoFault else g(k);
    AgreeOrphans(s1, plan, |deeds|, g, f);
  }

  lemma {:induction false} ActedScene(plan: Plan, pending: map<string, Path>, deeds: seq<Deed>, n: nat)
    requires n <= |plan.Orphans()| == |deeds|
    ensures Acted(State(Disk(plan.Orphans()), pending), plan, deeds, n).files == Scene(plan.Orphans(), deeds, n)
  {
    if n > 0 { ActedScene(plan, pending, deeds, n - 1); }
  }

  /**
   * Whenever a path can be lost, the code does lose it: from some disk and a table with exactly the
   * listed operations, for some failures after a listing that succeeds.
   */
  lemma {:induction false} CodeLoses(plan: Plan, p: Path) returns (s: Sys, f: Oracle)
    requires plan.mode.AlwaysRecover? && CanLose(plan.Orphans(), p) && DistinctIds(plan.listing)
    ensures CanStart(plan, State(s.files, s.pending)) && s.clock == 0 && f(0).NoFault?
    ensures !Held(plan.Orphans(), s.files, AfterRun(Tick(s), plan, f).files, p)
  {
    var orphans := plan.Orphans();
    var j := ChooseScenario(orphans, p);
    TableLists(plan.listing);
    s := Sys(Disk(orphans), Table(plan.listing), 0);
    f := CodeRunActs(State(s.files, s.pending), plan, Deeds(orphans, p, j));
    ActedScene(plan, s.pending, Deeds(orphans, p, j), |orphans|);
    SceneLoses(orphans, p, j);
  }

  // ----- every run of the code has a log -----

  ghost predicate Logged(plan: Plan, start: State, log: seq<Moment>, s: Sys) {
    RunLog(plan, start, log) && Final(start, log) == State(s.files, s.pending)
  }

  lemma {:induction false} AttemptLogged(plan: Plan, start: State, log: seq<Moment>, s: Sys, i: nat, f: Oracle)
    returns (next: seq<Moment>)
    requires Logged(plan, start, log, s) && Cursor(log) <= i < |plan.Orphans()|
    ensures Logged(plan, start, next, AfterAttempt(s, plan.mode, plan.Orphans()[i], f)) && Cursor(next) <= i + 1
    ensures Succeeds(s, plan.mode, plan.Orphans()[i], f) ==> HasRemoved(next, plan.Orphans()[i].backup)
  {
    var o, t := plan.Orphans()[i], State(s.files, s.pending);
    assert o in plan.Orphans() && o == Orphan(o.backup, o.original);
    next := log;
    if o.backup in s.files {
      if plan.mode.AlwaysDiscard? {
        if f(s.clock).NoFault? {
          next := Happens(plan, start, log, Moment(Removed(o.backup), i, t.(files := t.files - {o.backup})));
          assert next[|next| - 1].event == Removed(o.backup);
        }
      } else {
        match f(s.clock) {
          case NoFault =>
            if Removes(AfterRestore(s, o, f), o.backup, f) {
              next := RestoreHappens(plan, start, log, i);
            } else {
              var u := t.(files := t.files[o.original := t.files[o.backup]]);
              next := Happens(plan, start, log, Moment(Restored(o.backup, o.original), i, u));
            }
          case Fails =>
          case FailsMidway(junk) => next := SpoilHappens(plan, start, log, i, junk);
        }
      }
    }
  }

  lemma {:induction false} DeletesLogged(plan: Plan, start: State, log: seq<Moment>, s: Sys, o: Orphan, n: nat,
                                         f: Oracle)
    returns (next: seq<Moment>)
    requires Logged(plan, start, log, s) && HasRemoved(log, o.backup) && o in plan.Orphans() && n <= |plan.listing|
    ensures Logged(plan, start, next, AfterDeletes(s, plan.listing, n, o.original, f)) && Cursor(next) == Cursor(log)
    ensures HasRemoved(next, o.backup)
  {
    next := log;
    if n > 0 {
      next := DeletesLogged(plan, start, log, s, o, n - 1, f);
      var t, op := AfterDeletes(s, plan.listing, n - 1, o.original, f), plan.listing[n - 1];
      if op.path == o.original && f(t.clock).NoFault? {
        assert op == PendingOp(op.id, o.original) && op in plan.listing && o == Orphan(o.backup, o.original);
        assert MayDelete(plan, next, o.original);
        var earlier := next;
        var after := State(t.files, t.pending - {op.id});
        next := Happens(plan, start, earlier, Moment(Deleted(op.id), 0, after));
        HasRemovedExtends(earlier, next, o.backup);
      }
    }
  }

  lemma {:induction false} OrphansLogged(plan: Plan, s: Sys, n: nat, f: Oracle) returns (log: seq<Moment>)
    requires n <= |plan.Orphans()|
    ensures Logged(plan, State(s.files, s.pending), log,
                   AfterOrphans(s, plan.mode, plan.listing, plan.Orphans(), n, f)) && Cursor(log) <= n
  {
    log := [];
    if n > 0 {
      var start, o := State(s.files, s.pending), plan.Orphans()[n - 1];
      log := OrphansLogged(plan, s, n - 1, f);
      var t := AfterOrphans(s, plan.mode, plan.listing, plan.Orphans(), n - 1, f);
      log := AttemptLogged(plan, start, log, t, n - 1, f);
      if Succeeds(t, plan.mode, o, f) {
        assert o in plan.Orphans();
        log := DeletesLogged(plan, start, log, AfterAttempt(t, plan.mode, o, f), o, |plan.listing|, f);
      }
    }
  }

  lemma {:induction false} CleanLogged(plan: Plan, s: Sys, n: nat, f: Oracle) returns (log: seq<Moment>)
    requires n <= |plan.listing| && plan.Orphans() == []
    ensures Logged(plan, State(s.files, s.pending), log, AfterClean(s, plan, n, f))
  {
    log := [];
    if n > 0 {
      log := CleanLogged(plan, s, n - 1, f);
      var t, op := AfterClean(s, plan, n - 1, f), plan.listing[n - 1];
      if plan.IsStale(op.path) && f(t.clock).NoFault? {
        assert op == PendingOp(op.id, op.path) && op in plan.listing && MayDelete(plan, log, op.path);
        var after := State(t.files, t.pending - {op.id});
        log := Happens(plan, State(s.files, s.pending), log, Moment(Deleted(op.id), 0, after));
      }
    }
  }

  /** Whatever the outcome of its calls, what the code does is recorded by a log. */
  lemma {:induction false} RunLogged(plan: Plan, s: Sys, f: Oracle) returns (log: seq<Moment>)
    ensures Logged(plan, State(s.files, s.pending), log, AfterRun(s, plan, f))
  {
    if plan.Orphans() == [] {
      log := CleanLogged(plan, s, |plan.listing|, f);
    } else {
      log := OrphansLogged(plan, s, |plan.Orphans()|, f);
    }
  }

  /** From `s`, after a listing that succeeds, the run of the code loses `p`. */
  ghost predicate CodeLost(plan: Plan, s: Sys, f: Oracle, p: Path) {
    && HasBackup(plan.Orphans(), p) && CanStart(plan, State(s.files, s.pending)) && f(s.clock).NoFault?
    && !Held(plan.Orphans(), s.files, AfterRun(Tick(s), plan, f).files, p)
  }

  /** The same condition for what the code leaves behind: some disk and some failures lose `p` exactly then. */
  lemma {:induction false} CodeSafeIff(plan: Plan, p: Path)
    requires plan.mode.AlwaysRecover? && DistinctIds(plan.listing)
    ensures (exists s, f :: CodeLost(plan, s, f, p)) <==> CanLose(plan.Orphans(), p)
  {
    if s, f :| CodeLost(plan, s, f, p) {
      var log := RunLogged(plan, Tick(s), f);
      EveryStory(plan, State(s.files, s.pending), log, p);
      LostMeansCanLose(plan, State(s.files, s.pending), log, p);
    }
    if CanLose(plan.Orphans(), p) {
      var s, f := CodeLoses(plan, p);
      assert CodeLost(plan, s, f, p);
    }
  }

  // ----- layouts -----

  /** A selection that is not entangled loses nothing. */
  lemma {:induction false} UnentangledSafe(orphans: seq<Orphan>, b: Path, p: Path)
    requires Unentangled(orphans) && Orphan(b, p) in orphans
    ensures !CanLose(orphans, p)
  {
    forall c | Orphan(c, p) in orphans ensures !Exposed(orphans, c, p) { NotExposed(orphans, c, p); }
    forall j: nat | j < |orphans| ensures !Unsettles(orphans, p, j) {
      assert orphans[j] in orphans && !Entangles(Orphan(b, p), orphans[j]);
      if orphans[j].original == p { assert orphans[j] == Orphan(orphans[j].backup, p); }
    }
  }

  lemma {:induction false} NotExposed(orphans: seq<Orphan>, c: Path, p: Path)
    requires Unentangled(orphans) && Orphan(c, p) in orphans
    ensures !Exposed(orphans, c, p)
  {
    forall i | 0 <= i < |orphans| ensures orphans[i].original != c &&
      (orphans[i].backup == c ==> orphans[i].original == p) {
      assert orphans[i] in orphans && !Entangles(orphans[i], Orphan(c, p));
    }
  }

  /** Separate sibling and global listings, with no listed backup itself pending, never entangle. */
  lemma {:induction false} LayoutUnentangled(found: seq<Path>, entries: seq<Path>, pending: seq<PendingOp>,
                          normalize: Path -> Path, isUuid: string -> bool)
    requires ToSet(found) !! ToSet(entries)
    requires forall b :: b in found || b in entries ==> b !in PendingPaths(pending)
    ensures Unentangled(OrphansOf(SiblingOrphans(found, normalize) + GlobalOrphans(entries, pending, isUuid), pending))
  {
    var all := SiblingOrphans(found, normalize) + GlobalOrphans(entries, pending, isUuid);
    forall o | o in OrphansOf(all, pending)
      ensures o.original in PendingPaths(pending)
      ensures (o.backup in ToSet(found) && InferOriginal(o.backup, normalize) == Some(o.original)) ||
              (o.backup in ToSet(entries) && GlobalMatches(o.backup, pending, isUuid) == [o.original])
    {
      OrphansOfMembers(all, pending, o);
      SiblingMembers(found, normalize, o);
      GlobalMembers(entries, pending, isUuid, o);
    }
  }

  /** No listing selects a file as its own backup: a backup's name is longer than the name it is read back to. */
  lemma {:induction false} NeverOwnBackup(plan: Plan, p: Path, found: seq<Path>, entries: seq<Path>,
                                          normalize: Path -> Path, isUuid: string -> bool)
    requires DerivedFrom(plan, found, entries, normalize, isUuid)
    ensures Orphan(p, p) !in plan.Orphans()
  {
    OrphansOfMembers(plan.backups, plan.listing, Orphan(p, p));
    SiblingMembers(found, normalize, Orphan(p, p));
    GlobalMembers(entries, plan.listing, isUuid, Orphan(p, p));
    if InferOriginal(p, normalize) == Some(p) { SiblingNameLonger(p, normalize); }
    if GlobalMatches(p, plan.listing, isUuid) == [p] {
      NamedPathsMembers(plan.listing, ParseGlobal(FileName(p).value, isUuid).value, p);
      BackupNameDiffers(FileName(p).value, FileName(p).value, isUuid);
    }
  }

  lemma {:induction false} SiblingNameLonger(b: Path, normalize: Path -> Path)
    requires InferOriginal(b, normalize).Some?
    ensures InferOriginal(b, normalize) != Some(b)
  {
    var name := InferName(b[|b| - 1]).value;
    InferNameExact(b[|b| - 1], name);
    var original := InferOriginal(b, normalize).value;
    assert original[|original| - 1] == name;
  }

  // ----- a global backup directory inside the library -----

  /** `name` is the name of a global backup of a file called `m`. */
  predicate NamesBackup(name: string, m: string, isUuid: string -> bool) {
    ParseGlobal(name, isUuid) == Some(m)
  }

  lemma {:induction false} BackupNameDiffers(name: string, m: string, isUuid: string -> bool)
    requires NamesBackup(name, m, isUuid)
    ensures |name| > |m|
  {
  }

  lemma {:induction false} Named(pending: seq<PendingOp>, op: PendingOp, name: string)
    ensures NamedPaths(pending + [op], name) == NamedPaths(pending, name) + if FileName(op.path) == Some(name)
            then [op.path] else []
  {
    assert (pending + [op])[..|pending|] == pending;
  }

  /** The first restore fails, the second one spoils the backup that the first needed. */
  lemma {:induction false} SecondStepLoses(plan: Plan, a: Path, b: Path, p: Path)
    returns (start: State, log: seq<Moment>)
    requires plan.mode.AlwaysRecover? && plan.Orphans() == [Orphan(a, p), Orphan(b, a)] && a != b && p != a && p != b
    requires DistinctIds(plan.listing)
    ensures Loses(plan, start, log, p) && start.files.Keys == {a, b}
  {
    TableLists(plan.listing);
    start := State(map[a := "x", b := "y"], Table(plan.listing));
    assert plan.Orphans()[0] in plan.Orphans();
    log := SpoilHappens(plan, start, [], 1, "z");
    var files := Final(start, log).files;
    forall o | o in plan.Orphans() && o.original == p ensures !HeldBy(start.files, files, o) {
      assert o == Orphan(a, p);
    }
  }

  /**
   * The loss on a disk that recovery can meet: the global backup directory `g` is itself scanned,
   * and the backup of `lib/m` there has a pending operation and a backup of its own.
   */
  lemma {:induction false} BackupOfBackupLoses(g: Path, lib: Path, m: string, first: string, second: string,
                                               dirs: seq<Path>,
                                               normalize: Path -> Path, isUuid: string -> bool)
    returns (plan: Plan, start: State, log: seq<Moment>)
    requires NamesBackup(first, m, isUuid) && NamesBackup(second, first, isUuid)
    ensures DerivedFrom(plan, [], [g + [first], g + [second]], normalize, isUuid) && plan.dirs == dirs
    ensures plan.listing == [PendingOp("1", lib + [m]), PendingOp("2", g + [first])]
    ensures Loses(plan, start, log, lib + [m]) && start.files.Keys == {g + [first], g + [second]}
  {
    var p, a, b := lib + [m], g + [first], g + [second];
    var ops := [PendingOp("1", p), PendingOp("2", a)];
    assert FileName(p) == Some(m) && FileName(a) == Some(first) && FileName(b) == Some(second);
    BackupNameDiffers(first, m, isUuid);
    BackupNameDiffers(second, first, isUuid);
    NamedInLibrary(p, a, m, first);
    TwoGlobals(a, b, ops, isUuid, p, a);
    plan := Plan(AlwaysRecover, ops, SiblingOrphans([], normalize) + GlobalOrphans([a, b], ops, isUuid),
                 AmbiguousPaths([a, b], ops, isUuid), dirs);
    assert plan.backups == [Orphan(a, p), Orphan(b, a)];
    assert ops[0].path in PendingPaths(ops) &&
      ops[1].path in PendingPaths(ops) by { assert ops[0] in ops && ops[1] in ops; }
    TwoPending(Orphan(a, p), Orphan(b, a), ops);
    start, log := SecondStepLoses(plan, a, b, p);
  }

  lemma {:induction false} NamedInLibrary(p: Path, a: Path, m: string, name: string)
    requires FileName(p) == Some(m) && FileName(a) == Some(name) && m != name
    ensures var ops := [PendingOp("1", p), PendingOp("2", a)]; NamedPaths(ops, m) == [p] && NamedPaths(ops, name) == [a]
  {
    var op, own := PendingOp("1", p), PendingOp("2", a);
    assert [] + [op] == [op] && [op] + [own] == [op, own];
    Named([], op, m);
    Named([op], own, m);
    Named([], op, name);
    Named([op], own, name);
  }

  lemma {:induction false} TwoGlobals(e: Path, d: Path, pending: seq<PendingOp>, isUuid: string -> bool, p: Path,
                                      q: Path)
    requires GlobalMatches(e, pending, isUuid) == [p] && GlobalMatches(d, pending, isUuid) == [q]
    ensures GlobalOrphans([e, d], pending, isUuid) == [Orphan(e, p), Orphan(d, q)]
  {
    assert [e, d][..1] == [e] && [e][..0] == [];
    assert GlobalOrphans([e], pending, isUuid) == [Orphan(e, p)];
  }

  lemma {:induction false} TwoPending(a: Orphan, b: Orphan, ops: seq<PendingOp>)
    requires a.original in PendingPaths(ops) && b.original in PendingPaths(ops)
    ensures OrphansOf([a, b], ops) == [a, b]
  {
    assert [a, b][..1] == [a] && [a][..0] == [];
    assert OrphansOf([a], ops) == [a];
  }

  // ----- what a run may do to a backup that it does not select -----

  ghost predicate AlwaysKept(plan: Plan, e: Path) {
    forall start, log :: CanStart(plan, start) && RunLog(plan, start, log) ==> Keeps(start, log, e)
  }

  ghost predicate Keeps(start: State, log: seq<Moment>, e: Path) {
    && (e in Final(start, log).files <==> e in start.files)
    && (e in start.files ==> Final(start, log).files[e] == start.files[e])
  }

  /** A path is safe from a run exactly when the selection does not touch it. */
  lemma {:induction false} AlwaysKeptIff(plan: Plan, e: Path)
    requires DistinctIds(plan.listing)
    ensures AlwaysKept(plan, e) <==> !Touches(plan, e)
  {
    if !Touches(plan, e) {
      forall start, log | RunLog(plan, start, log)
        ensures Keeps(start, log, e) { OthersUntouched(plan, start, log, e); }
    } else {
      var o :| o in plan.Orphans() && (o.backup == e || (plan.mode.AlwaysRecover? && o.original == e));
      var i: nat :| i < |plan.Orphans()| && plan.Orphans()[i] == o;
      var start, log := TouchHappens(plan, i, e);
      assert !Keeps(start, log, e);
    }
  }

  lemma {:induction false} TouchHappens(plan: Plan, i: nat, e: Path) returns (start: State, log: seq<Moment>)
    requires i < |plan.Orphans()|
    requires var o := plan.Orphans()[i]; o.backup == e || (plan.mode.AlwaysRecover? && o.original == e)
    requires DistinctIds(plan.listing)
    ensures CanStart(plan, start) && RunLog(plan, start, log) && !Keeps(start, log, e)
  {
    var o := plan.Orphans()[i];
    assert o in plan.Orphans();
    TableLists(plan.listing);
    start := State(Disk(plan.Orphans())[e := "y"], Table(plan.listing));
    if plan.mode.AlwaysDiscard? {
      log := Happens(plan, start, [], Moment(Removed(e), i, start.(files := start.files - {e})));
    } else if o.backup == e {
      log := RestoreHappens(plan, start, [], i);
    } else {
      log := SpoilHappens(plan, start, [], i, "z");
    }
  }

  /**
   * An ambiguous global backup keeps its bytes in every run exactly when it is not also a sibling
   * backup of a pending path and no selected backup is restored onto it.
   */
  lemma {:induction false} AmbiguousKeptIff(plan: Plan, e: Path, found: seq<Path>, entries: seq<Path>,
                                            normalize: Path -> Path, isUuid: string -> bool)
    requires DerivedFrom(plan, found, entries, normalize, isUuid) && |GlobalMatches(e, plan.listing, isUuid)| > 1
    requires DistinctIds(plan.listing)
    ensures AlwaysKept(plan, e) <==>
            && !(e in found && InferOriginal(e, normalize).Some? &&
                 InferOriginal(e, normalize).value in PendingPaths(plan.listing))
            && !(plan.mode.AlwaysRecover? && Written(plan.Orphans(), e))
  {
    AlwaysKeptIff(plan, e);
    forall q ensures Orphan(e, q) in plan.Orphans() <==>
                     e in found && InferOriginal(e, normalize) == Some(q) && q in PendingPaths(plan.listing)
    {
      OrphansOfMembers(plan.backups, plan.listing, Orphan(e, q));
      SiblingMembers(found, normalize, Orphan(e, q));
      GlobalMembers(entries, plan.listing, isUuid, Orphan(e, q));
    }
    if o :| o in plan.Orphans() && o.backup == e { assert o == Orphan(e, o.original); }
    if i :| 0 <= i < |plan.Orphans()| && plan.Orphans()[i].original == e { assert plan.Orphans()[i] in plan.Orphans(); }
  }

  lemma {:induction false} NamedTwice(p: Path, q: Path, a: Path, m: string, name: string)
    requires FileName(p) == FileName(q) == Some(m) && FileName(a) == Some(name) && m != name
    ensures var ops := [PendingOp("1", p), PendingOp("2", q), PendingOp("3", a)];
            NamedPaths(ops, m) == [p, q] && NamedPaths(ops, name) == [a]
  {
    var op1, op2, own := PendingOp("1", p), PendingOp("2", q), PendingOp("3", a);
    assert [] + [op1] == [op1] && [op1] + [op2] == [op1, op2] && [op1, op2] + [own] == [op1, op2, own];
    Named([], op1, m);
    Named([op1], op2, m);
    Named([op1, op2], own, m);
    Named([], op1, name);
    Named([op1], op2, name);
    Named([op1, op2], own, name);
  }

  /** A selected backup of `p` in a plan that is derived from global entries alone. */
  lemma {:induction false} GlobalSelected(plan: Plan, d: Path, p: Path, entries: seq<Path>, normalize: Path -> Path,
                                          isUuid: string -> bool)
    requires DerivedFrom(plan, [], entries, normalize, isUuid) && d in entries
    requires GlobalMatches(d, plan.listing, isUuid) == [p] && p in PendingPaths(plan.listing)
    ensures Orphan(d, p) in plan.Orphans()
  {
    GlobalMembers(entries, plan.listing, isUuid, Orphan(d, p));
    OrphansOfMembers(plan.backups, plan.listing, Orphan(d, p));
  }

  /** An ambiguous backup that has a pending operation and a backup of its own is overwritten. */
  lemma {:induction false} AmbiguousOverwritten(g: Path, lib: Path, other: Path, m: string, first: string,
                                                second: string,
                                                dirs: seq<Path>, normalize: Path -> Path, isUuid: string -> bool)
    returns (plan: Plan)
    requires NamesBackup(first, m, isUuid) && NamesBackup(second, first, isUuid)
    ensures DerivedFrom(plan, [], [g + [first], g + [second]], normalize, isUuid) && plan.dirs == dirs
    ensures |GlobalMatches(g + [first], plan.listing, isUuid)| == 2 && !AlwaysKept(plan, g + [first])
  {
    var p, q, a, b := lib + [m], other + [m], g + [first], g + [second];
    var ops := [PendingOp("1", p), PendingOp("2", q), PendingOp("3", a)];
    BackupNameDiffers(first, m, isUuid);
    NamedTwice(p, q, a, m, first);
    plan := Plan(AlwaysRecover, ops, SiblingOrphans([], normalize) + GlobalOrphans([a, b], ops, isUuid),
                 AmbiguousPaths([a, b], ops, isUuid), dirs);
    assert ops[2].path in PendingPaths(ops) by { assert ops[2] in ops; }
    GlobalSelected(plan, b, a, [a, b], normalize, isUuid);
    AlwaysKeptIff(plan, a);
  }
}
