/**
 * Backup file names: how the backup manager builds them and how crash recovery reads the original
 * path back. Paths are lists of components below the root.
 */
module BackupNames {
  import opened Common

  type Path = seq<string>

  const BACKUP_DIR: string := ".voom-backup"
  const VBAK: string := ".vbak"
  const STAMP_LEN: nat := 14
  const UUID_LEN: nat := 36

  predicate IsDigit(c: char) {
    '0' <= c <= '9'
  }

  /** `YYYYmmddHHMMSS`, as far as recovery looks: fourteen ASCII digits. */
  predicate IsStamp(s: string) {
    |s| == STAMP_LEN && forall i :: 0 <= i < |s| ==> IsDigit(s[i])
  }

  predicate IsReplaced(c: char) {
    c == '/' || c == '\\' || c == '\0'
  }

  function Sanitize(name: string): string {
    seq(|name|, i requires 0 <= i < |name| => if IsReplaced(name[i]) then '_' else name[i])
  }

  /** The name parts that survive `backup_path_for` unchanged. */
  predicate IsClean(name: string) {
    forall i :: 0 <= i < |name| ==> !IsReplaced(name[i])
  }

  function SiblingName(name: string, stamp: string): string {
    Sanitize(name) + "." + stamp + VBAK
  }

  /** `backup_path_for` in sibling mode, for the file `dir/name`. */
  function SiblingBackup(dir: Path, name: string, stamp: string): Path {
    dir + [BACKUP_DIR, SiblingName(name, stamp)]
  }

  /** `backup_path_for` in global mode. */
  function GlobalName(uuid: string, name: string): string {
    uuid + "_" + Sanitize(name)
  }

  // ----- reading names back -----

  /** `rfind('.')`. */
  function LastDot(s: string): (r: Option<nat>)
    ensures r.Some? ==> r.value < |s| && s[r.value] == '.' && '.' !in s[r.value + 1..]
    ensures r.None? ==> '.' !in s
  {
    if s == "" then None
    else if s[|s| - 1] == '.' then Some(|s| - 1)
    else
      var front := s[..|s| - 1];
      assert s == front + [s[|s| - 1]];
      var r := LastDot(front);
      if r.Some? then
        assert s[r.value + 1..] == front[r.value + 1..] + [s[|s| - 1]];
        r
      else None
  }

  function StripSuffix(s: string, suffix: string): Option<string> {
    if |suffix| <= |s| && s[|s| - |suffix|..] == suffix then Some(s[..|s| - |suffix|]) else None
  }

  function StripTimestamp(name: string): Option<string> {
    match LastDot(name)
    case None => None
    case Some(dot) => if IsStamp(name[dot + 1..]) then Some(name[..dot]) else None
  }

  /** `path.extension() == "vbak"`: something before the last dot, "vbak" after it. */
  predicate HasVbakExtension(name: string) {
    var dot := LastDot(name);
    dot.Some? && dot.value > 0 && name[dot.value + 1..] == "vbak"
  }

  function InferName(backupName: string): Option<string> {
    match StripSuffix(backupName, VBAK)
    case None => None
    case Some(stem) => StripTimestamp(stem)
  }

  /** `infer_original_path`; `normalize` stands for the discovery scanner's path normalization. */
  function InferOriginal(backup: Path, normalize: Path -> Path): Option<Path> {
    if |backup| < 2 then None
    else
      match InferName(backup[|backup| - 1])
      case None => None
      case Some(name) => Some(normalize(backup[..|backup| - 2]) + [name])
  }

  function ParseGlobal(name: string, isUuid: string -> bool): Option<string> {
    if |name| <= UUID_LEN + 1 || name[UUID_LEN] != '_' || !isUuid(name[..UUID_LEN]) then None
    else Some(name[UUID_LEN + 1..])
  }

  // ----- round trips -----

  lemma NoDotAfter(s: string, dot: nat)
    requires dot < |s| && '.' !in s[dot + 1..]
    ensures forall i :: dot < i < |s| ==> s[i] != '.'
  {
    forall i | dot < i < |s| ensures s[i] != '.' {
      assert s[i] == s[dot + 1..][i - dot - 1];
    }
  }

  lemma DotPosition(s: string, dot: nat)
    requires dot < |s| && s[dot] == '.' && '.' !in s[dot + 1..]
    ensures LastDot(s) == Some(dot)
  {
    NoDotAfter(s, dot);
    NoDotAfter(s, LastDot(s).value);
  }

  lemma StampHasNoDot(stamp: string)
    requires IsStamp(stamp)
    ensures '.' !in stamp
  {
  }

  /** A backup name is recognized exactly when it is some name, a dot, a stamp and `.vbak`. */
  lemma InferNameExact(backupName: string, name: string)
    ensures InferName(backupName) == Some(name) <==>
            exists stamp :: IsStamp(stamp) && backupName == name + "." + stamp + VBAK
  {
    if stamp :| IsStamp(stamp) && backupName == name + "." + stamp + VBAK {
      var stem := name + "." + stamp;
      assert backupName[|backupName| - |VBAK|..] == VBAK && backupName[..|backupName| - |VBAK|] == stem;
      assert stem[|name| + 1..] == stamp && stem[..|name|] == name;
      StampHasNoDot(stamp);
      DotPosition(stem, |name|);
    }
    if InferName(backupName) == Some(name) {
      var stem := StripSuffix(backupName, VBAK).value;
      var dot := LastDot(stem).value;
      var stamp := stem[dot + 1..];
      assert stem == stem[..dot] + "." + stamp;
      assert backupName == stem + VBAK;
      assert backupName == name + "." + stamp + VBAK;
    }
  }

  /** The collectors' extension filter drops no name that recovery could read. */
  lemma InferableHasExtension(backupName: string)
    requires InferName(backupName).Some?
    ensures HasVbakExtension(backupName)
  {
    var name := InferName(backupName).value;
    InferNameExact(backupName, name);
    var stamp :| IsStamp(stamp) && backupName == name + "." + stamp + VBAK;
    var dot := |name| + 1 + STAMP_LEN;
    assert backupName[dot] == '.' && backupName[dot + 1..] == "vbak";
    DotPosition(backupName, dot);
  }

  lemma SanitizeIdentity(name: string)
    ensures Sanitize(name) == name <==> IsClean(name)
  {
    if Sanitize(name) == name {
      forall i | 0 <= i < |name| ensures !IsReplaced(name[i]) {
        assert Sanitize(name)[i] == name[i];
      }
    }
  }

  /**
   * The sibling round trip: recovery reads back the directory and the sanitized name, so it finds
   * the original path exactly when the name has no character that the backup manager replaces.
   */
  lemma SiblingRoundTrip(dir: Path, name: string, stamp: string, normalize: Path -> Path)
    requires IsStamp(stamp)
    ensures InferOriginal(SiblingBackup(dir, name, stamp), normalize) == Some(normalize(dir) + [Sanitize(name)])
    ensures InferOriginal(SiblingBackup(dir, name, stamp), normalize) == Some(normalize(dir) + [name]) <==>
            IsClean(name)
  {
    var b := SiblingBackup(dir, name, stamp);
    assert b[..|b| - 2] == dir;
    InferNameExact(SiblingName(name, stamp), Sanitize(name));
    SanitizeIdentity(name);
    assert (normalize(dir) + [Sanitize(name)])[|normalize(dir)|] == Sanitize(name);
    assert (normalize(dir) + [name])[|normalize(dir)|] == name;
  }

  /** A legal file name that does not round trip: recovery looks for `a_b` instead. */
  lemma BackslashDoesNotRoundTrip(dir: Path, stamp: string, normalize: Path -> Path)
    requires IsStamp(stamp)
    ensures InferOriginal(SiblingBackup(dir, "a\\b", stamp), normalize) == Some(normalize(dir) + ["a_b"])
    ensures InferOriginal(SiblingBackup(dir, "a\\b", stamp), normalize) != Some(normalize(dir) + ["a\\b"])
  {
    SiblingRoundTrip(dir, "a\\b", stamp, normalize);
    assert Sanitize("a\\b") == "a_b";
    assert IsReplaced("a\\b"[1]);
  }

  /** A global name is recognized exactly when it is a UUID, an underscore and some text. */
  lemma ParseGlobalExact(name: string, isUuid: string -> bool, original: string)
    ensures ParseGlobal(name, isUuid) == Some(original) <==>
            original != "" && exists uuid: string :: |uuid| == 36 && isUuid(uuid) && name == uuid + "_" + original
  {
    if ParseGlobal(name, isUuid) == Some(original) {
      var uuid := name[..UUID_LEN];
      assert name == uuid + "_" + original;
    }
    if uuid: string :| |uuid| == 36 && isUuid(uuid) && name == uuid + "_" + original {
      assert name[..UUID_LEN] == uuid && name[UUID_LEN] == '_' && name[UUID_LEN + 1..] == original;
    }
  }

  /** The extension filter looks for something followed by `.vbak`. */
  lemma VbakExtensionExact(name: string)
    ensures HasVbakExtension(name) <==> exists stem: string :: stem != "" && name == stem + ".vbak"
  {
    if HasVbakExtension(name) {
      var dot := LastDot(name).value;
      assert name == name[..dot] + ".vbak";
    }
    if stem: string :| stem != "" && name == stem + ".vbak" {
      assert name[|stem|] == '.' && name[|stem| + 1..] == "vbak";
      DotPosition(name, |stem|);
    }
  }

  lemma GlobalRoundTrip(uuid: string, name: string, isUuid: string -> bool)
    requires |uuid| == UUID_LEN && isUuid(uuid) && name != ""
    ensures ParseGlobal(GlobalName(uuid, name), isUuid) == Some(Sanitize(name))
    ensures ParseGlobal(GlobalName(uuid, name), isUuid) == Some(name) <==> IsClean(name)
  {
    var g := GlobalName(uuid, name);
    assert g[..UUID_LEN] == uuid && g[UUID_LEN] == '_' && g[UUID_LEN + 1..] == Sanitize(name);
    SanitizeIdentity(name);
  }
}
