/** The atomic replacement of the baseline file, over every pattern of file-system failures. */
module AtomicWrite {
  import opened Options

  datatype Path = Target | Temporary | Rollback

  /** A file's bytes, and whether they were synchronized to the device as they are. */
  datatype File = File(bytes: string, synced: bool)

  /** How one file-system call goes: a write that fails may leave any bytes behind. */
  datatype Fault = Works | Fails | LeavesPart(bytes: string)

  datatype Problem =
    | BeforeCommit
    | CleanupFailed(path: Path)
    | SyncFailed
    | RestoreFailed
    | RestoreSyncFailed

  function At(files: map<Path, File>, path: Path): Option<File> {
    if path in files then Some(files[path]) else None
  }

  /** The three files of one replacement and the failures that will happen, call by call. */
  class Disk {
    var files: map<Path, File>
    var calls: nat
    const faults: nat -> Fault
    ghost var shown: seq<File> // every file the target became, in order

    constructor (files: map<Path, File>, faults: nat -> Fault)
      ensures this.files == files && this.faults == faults && shown == [] && calls == 0
    {
      this.files := files;
      this.faults := faults;
      calls := 0;
      shown := [];
    }

    ghost predicate NoFaults() {
      forall k :: faults(k) == Works
    }

    method NextFault() returns (f: Fault)
      modifies this`calls
      ensures f == faults(old(calls)) && calls == old(calls) + 1
    {
      f := faults(calls);
      calls := calls + 1;
    }

    method WriteFile(path: Path, bytes: string) returns (ok: bool)
      requires path != Target
      modifies this`files, this`calls
      ensures ok ==> files == old(files)[path := File(bytes, false)]
      ensures forall p | p != path :: At(files, p) == At(old(files), p)
      ensures NoFaults() ==> ok
    {
      var f := NextFault();
      ok := f == Works;
      if ok {
        files := files[path := File(bytes, false)];
      } else if f.LeavesPart? {
        files := files[path := File(f.bytes, false)];
      }
    }

    /** Opening, synchronizing and closing; closing happens whether or not synchronizing worked. */
    method SyncFile(path: Path) returns (ok: bool)
      requires path != Target
      modifies this`files, this`calls
      ensures ok ==> path in old(files) && files == old(files)[path := old(files)[path].(synced := true)]
      ensures forall p | p != path :: At(files, p) == At(old(files), p)
      ensures NoFaults() && path in old(files) ==> ok
    {
      var opening := NextFault();
      if opening != Works || path !in files { return false; }
      var syncing := NextFault();
      if syncing == Works { files := files[path := files[path].(synced := true)]; }
      var closing := NextFault();
      ok := syncing == Works && closing == Works;
    }

    /** Renaming over the target: all or nothing. */
    method RenameToTarget(path: Path) returns (ok: bool)
      requires path != Target
      modifies this`files, this`calls, this`shown
      ensures ok ==> path in old(files) && files == (old(files) - {path})[Target := old(files)[path]]
                     && shown == old(shown) + [old(files)[path]]
      ensures !ok ==> files == old(files) && shown == old(shown)
      ensures NoFaults() && path in old(files) ==> ok
    {
      var f := NextFault();
      ok := f == Works && path in files;
      if ok {
        shown := shown + [files[path]];
        files := (files - {path})[Target := files[path]];
      }
    }

    method SyncDirectory() returns (ok: bool)
      modifies this`calls
      ensures NoFaults() ==> ok
    {
      var f := NextFault();
      ok := f == Works;
    }

    /** A missing file counts as removed; any other error is a failure. */
    method RemoveTemporary(path: Path) returns (ok: bool)
      requires path != Target
      modifies this`files, this`calls
      ensures ok ==> files == old(files) - {path}
      ensures !ok ==> files == old(files)
      ensures NoFaults() ==> ok
    {
      var f := NextFault();
      ok := f == Works;
      if ok { files := files - {path}; }
    }

    method CleanupTemporaries() returns (issues: seq<Problem>)
      modifies this`files, this`calls
      ensures forall i | 0 <= i < |issues| :: issues[i].CleanupFailed? && issues[i].path != Target
      ensures forall p | p != Target :: At(files, p) == if CleanupFailed(p) in issues then At(old(files), p) else None
      ensures At(files, Target) == At(old(files), Target)
      ensures NoFaults() ==> issues == []
    {
      issues := [];
      var removed := RemoveTemporary(Temporary);
      if !removed { issues := issues + [CleanupFailed(Temporary)]; }
      var cleared := RemoveTemporary(Rollback);
      if !cleared { issues := issues + [CleanupFailed(Rollback)]; }
      assert (CleanupFailed(Temporary) in issues <==> !removed) && (CleanupFailed(Rollback) in issues <==> !cleared);
    }

    /** Writes and synchronizes both copies and renames the new one; any failure ends it. */
    method PrepareAndCommit(content: string, priorContent: string) returns (committed: bool)
      requires Temporary !in files && Rollback !in files
      modifies this`files, this`calls, this`shown
      ensures committed ==> shown == old(shown) + [File(content, true)]
                            && files == old(files)[Target := File(content, true)][Rollback := File(priorContent, true)]
      ensures !committed ==> shown == old(shown) && At(files, Target) == At(old(files), Target)
      ensures NoFaults() ==> committed
    {
      committed := false;
      var ok := WriteFile(Temporary, content);
      if !ok { return; }
      ok := SyncFile(Temporary);
      if !ok { return; }
      ok := WriteFile(Rollback, priorContent);
      if !ok { return; }
      ok := SyncFile(Rollback);
      if !ok { return; }
      committed := RenameToTarget(Temporary);
    }

    /**
     * The whole replacement. Its result lists what went wrong; a normal return lists nothing.
     * The target never holds anything but its old file, the complete new file or the complete prior one,
     * each synchronized before it is shown.
     */
    method AtomicReplace(content: string, priorContent: string) returns (issues: seq<Problem>)
      requires Temporary !in files && Rollback !in files
      modifies this`files, this`calls, this`shown
      ensures shown == old(shown) + (if BeforeCommit in issues then [] else [File(content, true)])
                       + (if SyncFailed in issues && RestoreFailed !in issues then [File(priorContent, true)] else [])
      ensures BeforeCommit in issues ==> SyncFailed !in issues && At(files, Target) == At(old(files), Target)
      ensures BeforeCommit !in issues ==>
                At(files, Target) == Some(File(if SyncFailed in issues && RestoreFailed !in issues then priorContent
                                               else content, true))
      ensures forall p | p != Target && p in files :: CleanupFailed(p) in issues
      ensures NoFaults() ==> issues == []
    {
      var committed := PrepareAndCommit(content, priorContent);
      if !committed {
        var left := CleanupTemporaries();
        issues := [BeforeCommit] + left;
        return;
      }
      var synced := SyncDirectory();
      if !synced {
        issues := [SyncFailed];
        var restored := RenameToTarget(Rollback);
        if !restored {
          issues := issues + [RestoreFailed];
        } else {
          synced := SyncDirectory();
          if !synced { issues := issues + [RestoreSyncFailed]; }
        }
        var left := CleanupTemporaries();
        issues := issues + left;
        return;
      }
      issues := CleanupTemporaries();
    }
  }

  /**
   * What a caller may rely on after any run: a normal return means the new bytes and no temporary file; a failure
   * before the commit, or one that was rolled back, means the bytes that were there or the prior bytes.
   */
  method ReplaceBaseline(disk: Disk, content: string) returns (ok: bool, issues: seq<Problem>)
    requires Target in disk.files && Temporary !in disk.files && Rollback !in disk.files
    modifies disk
    ensures ok ==> disk.files == map[Target := File(content, true)]
    ensures Target in disk.files && disk.files[Target].bytes in {content, old(disk.files[Target].bytes)}
    ensures forall i | |old(disk.shown)| <= i < |disk.shown| ::
              disk.shown[i].synced && disk.shown[i].bytes in {content, old(disk.files[Target].bytes)}
    ensures BeforeCommit in issues || (SyncFailed in issues && RestoreFailed !in issues) ==>
              disk.files[Target].bytes == old(disk.files[Target].bytes)
  {
    issues := disk.AtomicReplace(content, disk.files[Target].bytes);
    ok := issues == [];
    if ok {
      assert forall p :: p in disk.files <==> p == Target;
    }
  }
}
