/**
 * The directory walk of crash recovery: which files a scan root offers as sibling backups.
 * A listing is given as it comes, in any order.
 */
module BackupWalk {
  import opened Common
  import opened BackupNames

  /** A directory that cannot be read is `Other`, like a plain file. */
  datatype Node = Other | Dir(entries: seq<(string, Node)>)

  function Vbaks(entries: seq<(string, Node)>, dir: Path, n: nat): seq<Path>
    requires n <= |entries|
  {
    if n == 0 then []
    else Vbaks(entries, dir, n - 1) + if HasVbakExtension(entries[n - 1].0) then [dir + [entries[n - 1].0]] else []
  }

  function Offered(name: string, node: Node, dir: Path): seq<Path>
    decreases node, 1, 0
  {
    if !node.Dir? then []
    else if name == BACKUP_DIR then Vbaks(node.entries, dir + [name], |node.entries|)
    else Walk(node, dir + [name], |node.entries|)
  }

  /** What the first `n` entries of directory `node` at `dir` offer. */
  function Walk(node: Node, dir: Path, n: nat): seq<Path>
    requires node.Dir? && n <= |node.entries|
    decreases node, 0, n
  {
    if n == 0 then []
    else Walk(node, dir, n - 1) + Offered(node.entries[n - 1].0, node.entries[n - 1].1, dir)
  }

  // ----- the simple reading -----

  ghost predicate InTree(node: Node, rel: Path)
    decreases rel
  {
    rel == [] || (node.Dir? && exists k :: 0 <= k < |node.entries| && Leads(node.entries[k], rel))
  }

  ghost predicate Leads(entry: (string, Node), rel: Path)
    requires rel != []
    decreases rel, 0
  {
    entry.0 == rel[0] && InTree(entry.1, rel[1..])
  }

  /** A `.vbak` name directly inside a backup directory that is not itself inside one. */
  predicate IsBackupPlace(rel: Path) {
    |rel| >= 2 && rel[|rel| - 2] == BACKUP_DIR && BACKUP_DIR !in rel[..|rel| - 2] && HasVbakExtension(rel[|rel| - 1])
  }

  lemma {:induction false} VbaksExact(entries: seq<(string, Node)>, dir: Path, n: nat, name: string)
    requires n <= |entries|
    ensures dir + [name] in Vbaks(entries, dir, n) <==>
            HasVbakExtension(name) && exists k :: 0 <= k < n && entries[k].0 == name
  {
    if n > 0 {
      VbaksExact(entries, dir, n - 1, name);
      assert (dir + [name])[|dir|] == name;
      assert (dir + [entries[n - 1].0])[|dir|] == entries[n - 1].0;
    }
  }

  lemma {:induction false} VbaksInside(entries: seq<(string, Node)>, dir: Path, n: nat, p: Path)
    requires n <= |entries| && p in Vbaks(entries, dir, n)
    ensures dir < p && |p| == |dir| + 1
  {
    if n > 0 && p in Vbaks(entries, dir, n - 1) { VbaksInside(entries, dir, n - 1, p); }
  }

  lemma PlaceBelow(name: string, rel: Path)
    requires name != BACKUP_DIR
    ensures IsBackupPlace([name] + rel) <==> IsBackupPlace(rel)
  {
    if |rel| >= 2 {
      assert ([name] + rel)[..|rel| - 1] == [name] + rel[..|rel| - 2];
    }
  }

  lemma PlaceInside(rel: Path)
    ensures IsBackupPlace([BACKUP_DIR] + rel) <==> |rel| == 1 && HasVbakExtension(rel[0])
  {
    if |rel| > 1 {
      assert ([BACKUP_DIR] + rel)[..|rel| - 1][0] == BACKUP_DIR;
    }
  }

  lemma {:induction false} OfferedExact(name: string, node: Node, dir: Path, rel: Path)
    ensures dir + [name] + rel in Offered(name, node, dir) <==> InTree(node, rel) && IsBackupPlace([name] + rel)
    decreases node, 1, 0
  {
    if node.Dir? {
      if name == BACKUP_DIR {
        PlaceInside(rel);
        if |rel| == 1 {
          assert rel == [rel[0]];
          VbaksExact(node.entries, dir + [name], |node.entries|, rel[0]);
          if k :| 0 <= k < |node.entries| && node.entries[k].0 == rel[0] { assert Leads(node.entries[k], rel); }
        } else if dir + [name] + rel in Offered(name, node, dir) {
          VbaksInside(node.entries, dir + [name], |node.entries|, dir + [name] + rel);
        }
      } else {
        PlaceBelow(name, rel);
        WalkExact(node, dir + [name], |node.entries|, rel);
      }
    } else if InTree(node, rel) {
      assert rel == [];
    }
  }

  /** The walk offers exactly the backup places of the tree. */
  lemma {:induction false} WalkExact(node: Node, dir: Path, n: nat, rel: Path)
    requires node.Dir? && n <= |node.entries|
    ensures dir + rel in Walk(node, dir, n) <==>
            IsBackupPlace(rel) && exists k :: 0 <= k < n && Leads(node.entries[k], rel)
    decreases node, 0, n
  {
    if n > 0 {
      WalkExact(node, dir, n - 1, rel);
      var (name, child) := node.entries[n - 1];
      if rel != [] && rel[0] == name {
        OfferedExact(name, child, dir, rel[1..]);
        assert rel == [name] + rel[1..];
        assert dir + rel == dir + [name] + rel[1..];
        assert Leads(node.entries[n - 1], rel) <==> InTree(child, rel[1..]);
      } else if dir + rel in Offered(name, child, dir) {
        OfferedBelow(name, child, dir, dir + rel);
        assert (dir + rel)[|dir|] == (dir + [name])[|dir|];
      }
    }
  }

  lemma {:induction false} OfferedBelow(name: string, node: Node, dir: Path, p: Path)
    requires p in Offered(name, node, dir)
    ensures dir + [name] < p
    decreases node, 1, 0
  {
    if name == BACKUP_DIR {
      VbaksInside(node.entries, dir + [name], |node.entries|, p);
    } else {
      WalkBelow(node, dir + [name], |node.entries|, p);
    }
  }

  lemma {:induction false} WalkBelow(node: Node, dir: Path, n: nat, p: Path)
    requires node.Dir? && n <= |node.entries| && p in Walk(node, dir, n)
    ensures dir < p
    decreases node, 0, n
  {
    if p in Walk(node, dir, n - 1) {
      WalkBelow(node, dir, n - 1, p);
    } else {
      OfferedBelow(node.entries[n - 1].0, node.entries[n - 1].1, dir, p);
    }
  }

  /** A scan root offers exactly the backup places in its tree. */
  lemma RootExact(root: Node, dir: Path, rel: Path)
    requires root.Dir?
    ensures dir + rel in Walk(root, dir, |root.entries|) <==> InTree(root, rel) && IsBackupPlace(rel)
  {
    WalkExact(root, dir, |root.entries|, rel);
  }

  /**
   * From writing to finding: the sibling backup of `dir/sub/name` is offered, and read back to that
   * path, exactly when the file did not itself lie in a backup directory and its name is clean.
   */
  lemma WrittenBackupFoundIff(root: Node, dir: Path, sub: Path, name: string, stamp: string, normalize: Path -> Path)
    requires root.Dir? && IsStamp(stamp) && InTree(root, SiblingBackup(sub, name, stamp))
    ensures var b := SiblingBackup(dir + sub, name, stamp);
            b in Walk(root, dir, |root.entries|) &&
              InferOriginal(b, normalize) == Some(normalize(dir + sub) + [name]) <==>
            BACKUP_DIR !in sub && IsClean(name)
  {
    var rel := SiblingBackup(sub, name, stamp);
    assert dir + rel == SiblingBackup(dir + sub, name, stamp);
    RootExact(root, dir, rel);
    SiblingRoundTrip(dir + sub, name, stamp, normalize);
    InferableHasExtension(SiblingName(name, stamp));
    assert rel[..|rel| - 2] == sub;
  }

  method CollectVbakFiles(node: Node, dir: Path, found: seq<Path>) returns (r: seq<Path>)
    ensures r == found + if node.Dir? then Vbaks(node.entries, dir, |node.entries|) else []
  {
    r := found;
    if !node.Dir? { return; }
    for i := 0 to |node.entries|
      invariant r == found + Vbaks(node.entries, dir, i)
    {
      if HasVbakExtension(node.entries[i].0) { r := r + [dir + [node.entries[i].0]]; }
    }
  }

  /** `collect_orphans_in`: one level inside a backup directory, every level elsewhere. */
  method CollectOrphansIn(node: Node, dir: Path, found: seq<Path>) returns (r: seq<Path>)
    ensures r == found + if node.Dir? then Walk(node, dir, |node.entries|) else []
    decreases node
  {
    r := found;
    if !node.Dir? { return; }
    for i := 0 to |node.entries|
      invariant r == found + Walk(node, dir, i)
    {
      var (name, child) := node.entries[i];
      if child.Dir? {
        if name == BACKUP_DIR {
          r := CollectVbakFiles(child, dir + [name], r);
        } else {
          r := CollectOrphansIn(child, dir + [name], r);
        }
      }
    }
  }
}
