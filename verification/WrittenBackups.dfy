/**
 * From writing to restoring: what the backup manager wrote next to a file, found by the directory
 * walk, read back, selected and restored.
 */
module WrittenBackups {
  import opened Common
  import opened BackupNames
  import opened BackupWalk
  import opened CrashRecovery
  import opened CrashSafety

  /**
   * A written sibling backup in the tree of a scan root is selected for its file exactly when the
   * walk reaches it and its name is clean.
   */
  lemma {:induction false} WrittenBackupSelectedIff(root: Node, dir: Path, sub: Path, name: string, stamp: string,
                                                    entries: seq<Path>, plan: Plan,
                                                    normalize: Path -> Path, isUuid: string -> bool)
    requires root.Dir? && IsStamp(stamp) && InTree(root, SiblingBackup(sub, name, stamp))
    requires DerivedFrom(plan, Walk(root, dir, |root.entries|), entries, normalize, isUuid)
    requires SiblingBackup(dir + sub, name, stamp) !in entries
    requires normalize(dir + sub) + [name] in PendingPaths(plan.listing)
    ensures Orphan(SiblingBackup(dir + sub, name, stamp), normalize(dir + sub) + [name]) in plan.Orphans() <==>
            BACKUP_DIR !in sub && IsClean(name)
  {
    var o := Orphan(SiblingBackup(dir + sub, name, stamp), normalize(dir + sub) + [name]);
    WrittenBackupFoundIff(root, dir, sub, name, stamp, normalize);
    OrphansOfMembers(plan.backups, plan.listing, o);
    SiblingMembers(Walk(root, dir, |root.entries|), normalize, o);
    GlobalMembers(entries, plan.listing, isUuid, o);
  }

  /**
   * `found` has what the scan root offers, the listings are of the disk and do not overlap, and list
   * nothing that is pending.
   */
  ghost predicate GoodListings(root: Node, dir: Path, found: seq<Path>, entries: seq<Path>, plan: Plan, s: Sys) {
    && root.Dir? && (forall b :: b in Walk(root, dir, |root.entries|) ==> b in found)
    && OnDisk(found, entries, s.files) && ToSet(found) !! ToSet(entries)
    && forall b :: b in found || b in entries ==> b !in PendingPaths(plan.listing)
  }

  /** The file of a written backup, if pending, has the bytes of one of its backups after a failure-free run. */
  lemma {:induction false} WrittenBackupRestored(root: Node, dir: Path, sub: Path, name: string, stamp: string,
                                                 found: seq<Path>, entries: seq<Path>, plan: Plan, s: Sys, f: Oracle,
                                                 normalize: Path -> Path, isUuid: string -> bool)
    requires GoodListings(root, dir, found, entries, plan, s) && plan.mode.AlwaysRecover? && Calm(f)
    requires DerivedFrom(plan, found, entries, normalize, isUuid) && Lists(plan.listing, s.pending)
    requires IsStamp(stamp) && InTree(root, SiblingBackup(sub, name, stamp)) && BACKUP_DIR !in sub && IsClean(name)
    requires normalize(dir + sub) + [name] in PendingPaths(plan.listing)
    ensures var b, p := SiblingBackup(dir + sub, name, stamp), normalize(dir + sub) + [name];
            var files := AfterRun(Tick(s), plan, f).files;
            && Orphan(b, p) in plan.Orphans() && p in files
            && (exists c :: Orphan(c, p) in plan.Orphans() && c in s.files && files[p] == s.files[c])
            && ((forall c :: Orphan(c, p) in plan.Orphans() ==> c == b) ==> b in s.files && files[p] == s.files[b])
  {
    var b, p := SiblingBackup(dir + sub, name, stamp), normalize(dir + sub) + [name];
    WrittenBackupFoundIff(root, dir, sub, name, stamp, normalize);
    SiblingMembers(found, normalize, Orphan(b, p));
    OrphansOfMembers(plan.backups, plan.listing, Orphan(b, p));
    LayoutUnentangled(found, entries, plan.listing, normalize, isUuid);
    forall o | o in plan.Orphans() ensures o.backup in s.files {
      OrphanListed(found, entries, plan.listing, normalize, isUuid, o);
    }
    CalmRun(Tick(s), plan, f);
    RestoredByOutcome(s.files, plan.Orphans(), b, p);
  }

  lemma {:induction false} RestoredByOutcome(files: map<Path, Content>, orphans: seq<Orphan>, b: Path, p: Path)
    requires Unentangled(orphans) && Orphan(b, p) in orphans && forall o :: o in orphans ==> o.backup in files
    ensures var r := Outcome(AlwaysRecover, files, orphans, |orphans|);
            p in r && exists c :: Orphan(c, p) in orphans && c in files && r[p] == files[c]
  {
    var i :| 0 <= i < |orphans| && orphans[i] == Orphan(b, p);
    OutcomeRestores(files, orphans, |orphans|, p);
    var r := Outcome(AlwaysRecover, files, orphans, |orphans|);
    var j :| 0 <= j < |orphans| && orphans[j].original == p && r[p] == files[orphans[j].backup];
    assert orphans[j] in orphans && orphans[j] == Orphan(orphans[j].backup, p);
  }
}
