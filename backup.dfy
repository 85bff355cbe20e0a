/** The backup naming used by ApplyAsync and RestoreBackupDialog
    (Core/ViewModels.cs:209-213, 375-376): a backup sits next to the
    original with the suffix ".bak_mme"; restoring strips that suffix and
    refuses a path that lacks it. */
module Backup {
  import opened Text

  const BackupSuffix: string := ".bak_mme"

  /** `file.FullPath + ".bak_mme"`. */
  function BackupPath(path: string): (r: string)
    ensures |r| == |path| + |BackupSuffix|
    ensures r[..|path|] == path
    ensures EndsWith(r, BackupSuffix)
  {
    path + BackupSuffix
  }

  /** The original a backup restores onto, or None ("Invalid backup") when
      the name does not end in the suffix. */
  function OriginalPath(bak: string): (r: Option<string>)
    ensures r.None? <==> !EndsWith(bak, BackupSuffix)
    ensures r.Some? ==> |r.value| == |bak| - |BackupSuffix| && BackupPath(r.value) == bak
  {
    if EndsWith(bak, BackupSuffix) then Some(bak[..|bak| - |BackupSuffix|]) else None
  }

  /** Restoring the backup of `p` targets `p` again. */
  lemma RestoreUndoesBackup(path: string)
    ensures OriginalPath(BackupPath(path)) == Some(path)
  {
    var b := BackupPath(path);
    assert b[..|b| - |BackupSuffix|] == path;
  }

  /** Two different originals never share a backup. */
  lemma BackupPathInjective(p: string, q: string)
    requires BackupPath(p) == BackupPath(q)
    ensures p == q
  {
    RestoreUndoesBackup(p);
    RestoreUndoesBackup(q);
  }
}
