/**
 * `delete_file` and the recursive `delete_folder`.  Files are removed from
 * the tables; folders keep their record, marked deleted, and lose their key.
 */
module Deletes {
  import opened Wrappers
  import opened Metadata
  import opened Tables

  // ---------------------------------------------------------------------------
  // What a deletion leaves alone

  /** `b` keeps every folder of `a` but for its stamp and deleted flag, keeps
      the counter, and only loses folder keys (each keeping its binding)
      and files; a deleted folder stays deleted, a file that stays changes
      at most in its version links, and a file key is lost only when it is
      the path of a file that went. */
  predicate Trims(a: Db, b: Db) {
    && a.counter == b.counter
    && a.folders.Keys == b.folders.Keys
    && (forall id :: id in a.folders ==> Marked(a.folders[id], b.folders[id]))
    && (forall k :: k in b.folderPaths ==> k in a.folderPaths && b.folderPaths[k] == a.folderPaths[k])
    && (forall y :: y in b.files ==> y in a.files && Relinked(a.files[y], b.files[y]))
    && (forall k :: k in b.filePaths ==> k in a.filePaths && b.filePaths[k] == a.filePaths[k])
    && (forall k :: k in a.filePaths && (forall y :: y in a.files && y !in b.files ==> a.files[y].fullFilePath != k) ==>
          k in b.filePaths)
  }

  /** `g` is `f` but for its links to the versions before and after it. */
  predicate Relinked(f: FileMetadata, g: FileMetadata) {
    g == f.(priorVersion := g.priorVersion, nextVersion := g.nextVersion)
  }

  /** `g` is `f` but for its stamp and a deleted flag that can only be set. */
  predicate Marked(f: FolderMetadata, g: FolderMetadata) {
    && g == f.(lastChangedUnixMs := g.lastChangedUnixMs, deleted := g.deleted)
    && (f.deleted ==> g.deleted)
  }

  lemma TrimsTrans(a: Db, b: Db, c: Db)
    requires Trims(a, b) && Trims(b, c)
    ensures Trims(a, c)
  {
  }

  lemma TrimsChildrenYounger(a: Db, b: Db)
    requires ChildrenYounger(a) && Trims(a, b)
    ensures ChildrenYounger(b)
  {
    ChildrenYoungerFrame(a, b);
  }

  /** The folder invariants survive a deletion. */
  lemma TrimsFolderSide(a: Db, b: Db)
    requires Trims(a, b)
    ensures FolderSide(a) ==> FolderSide(b)
    ensures FolderIndexAgrees(a) ==> FolderIndexAgrees(b)
  {
  }

  // ---------------------------------------------------------------------------
  // delete_file

  /** `delete_file`: the record and the key of its path removed, and the
      versions on either side linked to each other past it. */
  function DeleteFile(db: Db, id: Uuid): (r: (Result<()>, Db))
    ensures Trims(db, r.1) && r.1.folders == db.folders && r.1.folderPaths == db.folderPaths
    ensures r.0.Err? <==> id !in db.files
    ensures r.0.Err? ==> r == (Err("File not found"), db)
  {
    if id !in db.files then (Err("File not found"), db)
    else (Ok(()), db.(files := Splice(db.files, id), filePaths := Drop(db.filePaths, db.files[id].fullFilePath)))
  }

  /** The file records without `id`, the versions on either side of it
      linked to each other past it. */
  function Splice(files: map<Uuid, FileMetadata>, id: Uuid): (r: map<Uuid, FileMetadata>)
    requires id in files
    ensures r.Keys == files.Keys - {id}
    ensures var f := files[id];
      forall y :: y in r ==>
        r[y] == files[y].(
          nextVersion := if f.priorVersion == Some(y) then f.nextVersion else files[y].nextVersion,
          priorVersion := if f.nextVersion == Some(y) then f.priorVersion else files[y].priorVersion)
  {
    var f := files[id];
    var files1 := Drop(files, id);
    var files2 :=
      if f.priorVersion.Some? && f.priorVersion.value in files1 then
        files1[f.priorVersion.value := files1[f.priorVersion.value].(nextVersion := f.nextVersion)]
      else files1;
    if f.nextVersion.Some? && f.nextVersion.value in files2 then
      files2[f.nextVersion.value := files2[f.nextVersion.value].(priorVersion := f.priorVersion)]
    else files2
  }

  /** A successful delete_file: the file and the key of its path are gone,
      every other key is kept, and the version chain is spliced: the prior
      version now points forward to the next one and the next one back to
      the prior one; nothing else changes. */
  lemma DeleteFileEffect(db: Db, id: Uuid)
    requires id in db.files
    ensures var r := DeleteFile(db, id).1; var f := db.files[id];
      && r.files.Keys == db.files.Keys - {id}
      && r.filePaths == Drop(db.filePaths, f.fullFilePath)
      && forall y :: y in r.files ==>
           r.files[y] == db.files[y].(
             nextVersion := if f.priorVersion == Some(y) then f.nextVersion else db.files[y].nextVersion,
             priorVersion := if f.nextVersion == Some(y) then f.priorVersion else db.files[y].priorVersion)
  {
  }

  /** delete_file keeps the file invariants: the splice keeps prior links
      older and next links newer, and the only key naming the file is the
      one removed. */
  lemma DeleteFileFileSide(db: Db, id: Uuid)
    requires FileSide(db)
    ensures FileSide(DeleteFile(db, id).1)
  {
    if id in db.files {
      var r := DeleteFile(db, id).1;
      DeleteFileEffect(db, id);
      forall k | k in r.filePaths
        ensures r.filePaths[k] in r.files && r.files[r.filePaths[k]].fullFilePath == k
      {
        assert db.filePaths[k] != id;
      }
    }
  }

  lemma DeleteFileValid(db: Db, id: Uuid)
    requires Valid(db)
    ensures Valid(DeleteFile(db, id).1)
  {
    DeleteFileFileSide(db, id);
    TrimsFolderSide(db, DeleteFile(db, id).1);
  }

  // ---------------------------------------------------------------------------
  // delete_folder

  /** The files loop of delete_folder: each listed file deleted in turn,
      stopping at the first failure.  With `lenient`, a file that is already
      gone is passed over instead. */
  function DeleteFiles(db: Db, ys: seq<Uuid>, lenient: bool): (r: (Result<()>, Db))
    ensures Trims(db, r.1) && r.1.folders == db.folders && r.1.folderPaths == db.folderPaths
    ensures r.0.Err? ==> r.0 == Err("File not found") && !lenient
    ensures r.0.Ok? ==> forall y :: y in ys ==> y !in r.1.files
    decreases |ys|
  {
    if ys == [] then (Ok(()), db)
    else if lenient && ys[0] !in db.files then DeleteFiles(db, ys[1..], lenient)
    else
      var s := DeleteFile(db, ys[0]);
      if s.0.Err? then s
      else
        var r := DeleteFiles(s.1, ys[1..], lenient);
        TrimsTrans(db, s.1, r.1);
        r
  }

  /** `delete_folder(x)`, reading `x`'s lists as they are on entry: its key
      removed, every listed subfolder deleted, every listed file deleted,
      stopping at the first failure with what was done so far kept; then
      `x` stamped and marked deleted.  `lenient` passes over files already
      gone (see DeleteFiles). */
  function DeleteTree(db: Db, x: Uuid, now: u64, lenient: bool): (r: (Result<()>, Db))
    requires ChildrenYounger(db)
    ensures Trims(db, r.1)
    ensures r.0.Err? ==> r.0 == Err("Folder not found") || (r.0 == Err("File not found") && !lenient)
    ensures x !in db.folders ==> r == (Err("Folder not found"), db)
    decreases db.counter - x.k, 1, 0
  {
    if x !in db.folders then (Err("Folder not found"), db)
    else
      var f := db.folders[x];
      var db1 := Unkeyed(db, x);
      var s := DeleteSubfolders(db1, x, f.subfolderUuids, now, lenient);
      TrimsTrans(db, db1, s.1);
      var r := Finish(s, x, f.fileUuids, now, lenient);
      TrimsTrans(db, s.1, r.1);
      r
  }

  /** The table with the key of folder `x` unbound, the first step of
      delete_folder. */
  function Unkeyed(db: Db, x: Uuid): (r: Db)
    requires x in db.folders
    ensures Trims(db, r) && r.folders == db.folders && r.files == db.files && r.filePaths == db.filePaths
    ensures db.folders[x].fullFolderPath !in r.folderPaths
    ensures ChildrenYounger(db) ==> ChildrenYounger(r)
    ensures FileSide(db) ==> FileSide(r)
  {
    db.(folderPaths := Drop(db.folderPaths, db.folders[x].fullFolderPath))
  }

  /** The end of delete_folder once its subfolders are dealt with: unless
      they failed, the listed files deleted and then, unless that failed,
      the folder stamped and marked deleted. */
  function Finish(s: (Result<()>, Db), x: Uuid, ys: seq<Uuid>, now: u64, lenient: bool): (r: (Result<()>, Db))
    requires x in s.1.folders
    ensures Trims(s.1, r.1)
    ensures r.0.Err? ==> r.0 == s.0 || (r.0 == Err("File not found") && !lenient)
    ensures r.0.Ok? ==> s.0.Ok? && r.1.folders[x].deleted && r.1.folders[x].lastChangedUnixMs == MsOf(now)
    ensures r.0.Ok? ==> forall y :: y in ys ==> y !in r.1.files
  {
    if s.0.Err? then s
    else
      var t := DeleteFiles(s.1, ys, lenient);
      if t.0.Err? then t
      else
        var m := MarkDeleted(t.1, x, now);
        TrimsTrans(s.1, t.1, m);
        (Ok(()), m)
  }

  /** The folder record stamped and marked deleted. */
  function MarkDeleted(db: Db, x: Uuid, now: u64): (r: Db)
    requires x in db.folders
    ensures Trims(db, r) && r.folders[x].deleted && r.folders[x].lastChangedUnixMs == MsOf(now)
    ensures r.files == db.files && r.filePaths == db.filePaths && r.folderPaths == db.folderPaths
    ensures forall y :: y in db.folders && y != x ==> r.folders[y] == db.folders[y]
  {
    db.(folders := db.folders[x := db.folders[x].(lastChangedUnixMs := MsOf(now), deleted := true)])
  }

  /** The subfolder loop of delete_folder. */
  function DeleteSubfolders(db: Db, x: Uuid, subs: seq<Uuid>, now: u64, lenient: bool): (r: (Result<()>, Db))
    requires ChildrenYounger(db) && forall c :: c in subs ==> x.k < c.k < db.counter
    ensures Trims(db, r.1)
    ensures r.0.Err? ==> r.0 == Err("Folder not found") || (r.0 == Err("File not found") && !lenient)
    decreases db.counter - x.k, 0, |subs|
  {
    if subs == [] then (Ok(()), db)
    else
      var s := DeleteTree(db, subs[0], now, lenient);
      TrimsChildrenYounger(db, s.1);
      if s.0.Err? then s
      else
        assert forall c :: c in subs[1..] ==> c in subs;
        var r := DeleteSubfolders(s.1, x, subs[1..], now, lenient);
        TrimsTrans(db, s.1, r.1);
        r
  }

  /** `delete_folder` as written. */
  function DeleteFolder(db: Db, x: Uuid, now: u64): (r: (Result<()>, Db))
    requires ChildrenYounger(db)
    ensures Trims(db, r.1)
    ensures r.0 == Ok(()) || r.0 == Err("Folder not found") || r.0 == Err("File not found")
    ensures x !in db.folders ==> r == (Err("Folder not found"), db)
  {
    DeleteTree(db, x, now, false)
  }

  /** delete_folder as evidently intended: a file the folder still lists
      after delete_file removed it is passed over. */
  function DeleteFolderCorrected(db: Db, x: Uuid, now: u64): (r: (Result<()>, Db))
    requires ChildrenYounger(db)
    ensures Trims(db, r.1)
    ensures r.0 == Ok(()) || r.0 == Err("Folder not found")
    ensures x !in db.folders ==> r == (Err("Folder not found"), db)
  {
    DeleteTree(db, x, now, true)
  }

  // ---------------------------------------------------------------------------
  // Validity

  lemma {:induction false} DeleteFilesFileSide(db: Db, ys: seq<Uuid>, lenient: bool)
    requires FileSide(db)
    ensures FileSide(DeleteFiles(db, ys, lenient).1)
    decreases |ys|
  {
    if ys != [] {
      if !(lenient && ys[0] !in db.files) {
        DeleteFileFileSide(db, ys[0]);
        DeleteFilesFileSide(DeleteFile(db, ys[0]).1, ys[1..], lenient);
      } else {
        DeleteFilesFileSide(db, ys[1..], lenient);
      }
    }
  }

  lemma FinishFileSide(s: (Result<()>, Db), x: Uuid, ys: seq<Uuid>, now: u64, lenient: bool)
    requires x in s.1.folders && FileSide(s.1)
    ensures FileSide(Finish(s, x, ys, now, lenient).1)
  {
    if s.0.Ok? {
      DeleteFilesFileSide(s.1, ys, lenient);
      var t := DeleteFiles(s.1, ys, lenient);
      if t.0.Ok? {
        FileSideFrame(t.1, MarkDeleted(t.1, x, now));
      }
    }
  }

  lemma {:induction false} DeleteTreeFileSide(db: Db, x: Uuid, now: u64, lenient: bool)
    requires ChildrenYounger(db) && FileSide(db)
    ensures FileSide(DeleteTree(db, x, now, lenient).1)
    decreases db.counter - x.k, 1, 0
  {
    if x in db.folders {
      var f := db.folders[x];
      var db1 := Unkeyed(db, x);
      DeleteSubfoldersFileSide(db1, x, f.subfolderUuids, now, lenient);
      var s := DeleteSubfolders(db1, x, f.subfolderUuids, now, lenient);
      FinishFileSide(s, x, f.fileUuids, now, lenient);
    }
  }

  lemma {:induction false} DeleteSubfoldersFileSide(db: Db, x: Uuid, subs: seq<Uuid>, now: u64, lenient: bool)
    requires ChildrenYounger(db) && forall c :: c in subs ==> x.k < c.k < db.counter
    requires FileSide(db)
    ensures FileSide(DeleteSubfolders(db, x, subs, now, lenient).1)
    decreases db.counter - x.k, 0, |subs|
  {
    if subs != [] {
      DeleteTreeFileSide(db, subs[0], now, lenient);
      var s := DeleteTree(db, subs[0], now, lenient);
      TrimsChildrenYounger(db, s.1);
      DeleteSubfoldersFileSide(s.1, x, subs[1..], now, lenient);
    }
  }

  /** delete_folder keeps the tables valid, children younger than their
      parents and the folder index in agreement, whatever its outcome. */
  lemma DeleteFolderValid(db: Db, x: Uuid, now: u64, lenient: bool)
    requires ChildrenYounger(db) && Valid(db)
    ensures Valid(DeleteTree(db, x, now, lenient).1)
    ensures ChildrenYounger(DeleteTree(db, x, now, lenient).1)
    ensures FolderIndexAgrees(db) ==> FolderIndexAgrees(DeleteTree(db, x, now, lenient).1)
  {
    var r := DeleteTree(db, x, now, lenient).1;
    DeleteTreeFileSide(db, x, now, lenient);
    TrimsFolderSide(db, r);
    TrimsChildrenYounger(db, r);
  }

  // ---------------------------------------------------------------------------
  // What a successful delete_folder removes

  /** The subfolder lists of a table. */
  function Links(db: Db): (t: map<Uuid, seq<Uuid>>)
    ensures t.Keys == db.folders.Keys
  {
    map id | id in db.folders :: db.folders[id].subfolderUuids
  }

  lemma TrimsLinks(a: Db, b: Db)
    requires Trims(a, b)
    ensures Links(b) == Links(a)
  {
  }

  /** Every listed child is younger than its parent and drawn before `bound`. */
  predicate Younger(t: map<Uuid, seq<Uuid>>, bound: nat) {
    forall id, c :: id in t && c in t[id] ==> id.k < c.k < bound
  }

  /** `y` is `x` or lies below it through the subfolder lists. */
  ghost predicate Below(t: map<Uuid, seq<Uuid>>, bound: nat, x: Uuid, y: Uuid)
    requires Younger(t, bound)
    decreases bound - x.k
  {
    y == x || (x in t && exists c :: c in t[x] && Below(t, bound, c, y))
  }

  /** After the deletion `b`, the folder `y` of `a` is marked deleted, its
      key is unbound and every file it lists is gone. */
  predicate Purged(a: Db, b: Db, y: Uuid)
    requires y in a.folders && y in b.folders
  {
    && b.folders[y].deleted
    && a.folders[y].fullFolderPath !in b.folderPaths
    && forall z :: z in a.folders[y].fileUuids ==> z !in b.files
  }

  lemma PurgedLater(a: Db, b: Db, c: Db, y: Uuid)
    requires y in a.folders && Trims(a, b) && Trims(b, c) && Purged(a, b, y)
    ensures Purged(a, c, y)
  {
  }

  lemma PurgedEarlier(a0: Db, a: Db, b: Db, y: Uuid)
    requires y in a0.folders && Trims(a0, a) && Trims(a, b) && Purged(a, b, y)
    ensures Purged(a0, b, y)
  {
  }

  lemma CYYounger(db: Db)
    requires ChildrenYounger(db)
    ensures Younger(Links(db), db.counter)
  {
  }

  /** The folder deleted itself is purged. */
  lemma FinishPurges(db: Db, x: Uuid, s: (Result<()>, Db), now: u64, lenient: bool)
    requires x in db.folders
    requires Trims(Unkeyed(db, x), s.1)
    ensures var r := Finish(s, x, db.folders[x].fileUuids, now, lenient);
      r.0.Ok? ==> Purged(db, r.1, x)
  {
  }

  /** A successful delete_folder marks every folder below it deleted,
      unbinds its key and removes every file it lists. */
  lemma {:induction false} DeleteTreePurges(db: Db, x: Uuid, now: u64, lenient: bool, y: Uuid)
    requires ChildrenYounger(db) && y in db.folders
    requires Younger(Links(db), db.counter) && Below(Links(db), db.counter, x, y)
    ensures var r := DeleteTree(db, x, now, lenient);
      r.0.Ok? ==> y in r.1.folders && Purged(db, r.1, y)
    decreases db.counter - x.k, 1, 0
  {
    var r := DeleteTree(db, x, now, lenient);
    if r.0.Ok? {
      var f := db.folders[x];
      var db1, s := DeleteTreeStep(db, x, now, lenient);
      if y == x {
        FinishPurges(db, x, s, now, lenient);
      } else {
        var c :| c in Links(db)[x] && Below(Links(db), db.counter, c, y);
        TrimsLinks(db, db1);
        DeleteSubfoldersPurges(db1, x, f.subfolderUuids, now, lenient, y, c);
        PurgedLater(db1, s.1, r.1, y);
      }
    }
  }

  /** A successful delete_folder is its key unbound, then the pass over
      its subfolders, then Finish. */
  lemma DeleteTreeStep(db: Db, x: Uuid, now: u64, lenient: bool) returns (db1: Db, s: (Result<()>, Db))
    requires ChildrenYounger(db) && DeleteTree(db, x, now, lenient).0.Ok?
    ensures x in db.folders && db1 == Unkeyed(db, x) && ChildrenYounger(db1)
    ensures forall c :: c in db.folders[x].subfolderUuids ==> x.k < c.k < db1.counter
    ensures s == DeleteSubfolders(db1, x, db.folders[x].subfolderUuids, now, lenient)
    ensures DeleteTree(db, x, now, lenient) == Finish(s, x, db.folders[x].fileUuids, now, lenient)
    ensures Trims(db1, s.1)
  {
    db1 := Unkeyed(db, x);
    s := DeleteSubfolders(db1, x, db.folders[x].subfolderUuids, now, lenient);
  }

  lemma {:induction false} DeleteSubfoldersPurges(db: Db, x: Uuid, subs: seq<Uuid>, now: u64, lenient: bool, y: Uuid, c: Uuid)
    requires ChildrenYounger(db) && forall c :: c in subs ==> x.k < c.k < db.counter
    requires y in db.folders && c in subs
    requires Younger(Links(db), db.counter) && Below(Links(db), db.counter, c, y)
    ensures var r := DeleteSubfolders(db, x, subs, now, lenient);
      r.0.Ok? ==> y in r.1.folders && Purged(db, r.1, y)
    decreases db.counter - x.k, 0, |subs|
  {
    var r := DeleteSubfolders(db, x, subs, now, lenient);
    if r.0.Ok? {
      var s, rest := DeleteSubfoldersStep(db, x, subs, now, lenient);
      if c == subs[0] {
        DeleteTreePurges(db, c, now, lenient, y);
        PurgedLater(db, s.1, rest.1, y);
      } else {
        assert c in subs[1..];
        TrimsLinks(db, s.1);
        DeleteSubfoldersPurges(s.1, x, subs[1..], now, lenient, y, c);
        PurgedEarlier(db, s.1, rest.1, y);
      }
    }
  }

  /** A successful pass over the subfolders is the first subtree deleted,
      then a pass over the rest. */
  lemma DeleteSubfoldersStep(db: Db, x: Uuid, subs: seq<Uuid>, now: u64, lenient: bool)
    returns (s: (Result<()>, Db), rest: (Result<()>, Db))
    requires ChildrenYounger(db) && forall c :: c in subs ==> x.k < c.k < db.counter
    requires subs != [] && DeleteSubfolders(db, x, subs, now, lenient).0.Ok?
    ensures s == DeleteTree(db, subs[0], now, lenient) && s.0.Ok? && Trims(db, s.1) && ChildrenYounger(s.1)
    ensures forall c :: c in subs[1..] ==> x.k < c.k < s.1.counter
    ensures rest == DeleteSubfolders(s.1, x, subs[1..], now, lenient)
    ensures rest == DeleteSubfolders(db, x, subs, now, lenient)
  {
    s := DeleteTree(db, subs[0], now, lenient);
    TrimsChildrenYounger(db, s.1);
    assert forall c :: c in subs[1..] ==> c in subs;
    rest := DeleteSubfolders(s.1, x, subs[1..], now, lenient);
  }

  // ---------------------------------------------------------------------------
  // What delete_folder leaves alone

  /** The files loop keeps every file it does not list. */
  lemma {:induction false} DeleteFilesKeepsFile(db: Db, ys: seq<Uuid>, lenient: bool, z: Uuid)
    requires z in db.files && z !in ys
    ensures z in DeleteFiles(db, ys, lenient).1.files
    decreases |ys|
  {
    if ys != [] {
      if lenient && ys[0] !in db.files {
        DeleteFilesKeepsFile(db, ys[1..], lenient, z);
      } else if ys[0] in db.files {
        DeleteFileEffect(db, ys[0]);
        DeleteFilesKeepsFile(DeleteFile(db, ys[0]).1, ys[1..], lenient, z);
      }
    }
  }

  /** Whatever its outcome, the files loop changes no folder and no folder
      key, keeps every file it does not list, changing it at most in its
      version links, and loses a file key only when it is the path of a file
      that went. */
  lemma DeleteFilesFrame(db: Db, ys: seq<Uuid>, lenient: bool)
    ensures var r := DeleteFiles(db, ys, lenient).1;
      && r.folders == db.folders && r.folderPaths == db.folderPaths
      && (forall z :: z in db.files && z !in ys ==> z in r.files && Relinked(db.files[z], r.files[z]))
      && (forall k :: k in db.filePaths && (forall z :: z in db.files && z !in r.files ==> db.files[z].fullFilePath != k) ==>
            k in r.filePaths && r.filePaths[k] == db.filePaths[k])
  {
    forall z | z in db.files && z !in ys ensures z in DeleteFiles(db, ys, lenient).1.files {
      DeleteFilesKeepsFile(db, ys, lenient, z);
    }
  }

  /** delete_folder on a folder that exists, whatever the outcome: its key
      unbound, the pass over its subfolders, then Finish. */
  lemma DeleteTreeUnfold(db: Db, x: Uuid, now: u64, lenient: bool) returns (db1: Db, s: (Result<()>, Db))
    requires ChildrenYounger(db) && x in db.folders
    ensures db1 == Unkeyed(db, x) && ChildrenYounger(db1) && Links(db1) == Links(db)
    ensures forall c :: c in db.folders[x].subfolderUuids ==> x.k < c.k < db1.counter
    ensures s == DeleteSubfolders(db1, x, db.folders[x].subfolderUuids, now, lenient)
    ensures DeleteTree(db, x, now, lenient) == Finish(s, x, db.folders[x].fileUuids, now, lenient)
  {
    db1 := Unkeyed(db, x);
    TrimsLinks(db, db1);
    s := DeleteSubfolders(db1, x, db.folders[x].subfolderUuids, now, lenient);
  }

  /** Finish changes no folder but `x` and no folder key, and keeps every
      file it does not list. */
  lemma FinishKeeps(s: (Result<()>, Db), x: Uuid, ys: seq<Uuid>, now: u64, lenient: bool)
    requires x in s.1.folders
    ensures var r := Finish(s, x, ys, now, lenient).1;
      && r.folderPaths == s.1.folderPaths
      && (forall y :: y in s.1.folders && y != x ==> r.folders[y] == s.1.folders[y])
      && (forall z :: z in s.1.files && z !in ys ==> z in r.files)
  {
    if s.0.Ok? {
      forall z | z in s.1.files && z !in ys ensures z in DeleteFiles(s.1, ys, lenient).1.files {
        DeleteFilesKeepsFile(s.1, ys, lenient, z);
      }
    }
  }

  /** A folder outside the subtree of `x` keeps its record, whatever the
      outcome. */
  lemma {:induction false} DeleteTreeKeepsFolder(db: Db, x: Uuid, now: u64, lenient: bool, y: Uuid)
    requires ChildrenYounger(db) && Younger(Links(db), db.counter)
    requires y in db.folders && !Below(Links(db), db.counter, x, y)
    ensures DeleteTree(db, x, now, lenient).1.folders[y] == db.folders[y]
    decreases db.counter - x.k, 1, 0
  {
    if x in db.folders {
      var f := db.folders[x];
      var db1, s := DeleteTreeUnfold(db, x, now, lenient);
      DeleteSubfoldersKeepsFolder(db1, x, f.subfolderUuids, now, lenient, y);
      FinishKeeps(s, x, f.fileUuids, now, lenient);
    }
  }

  lemma {:induction false} DeleteSubfoldersKeepsFolder(db: Db, x: Uuid, subs: seq<Uuid>, now: u64, lenient: bool, y: Uuid)
    requires ChildrenYounger(db) && forall c :: c in subs ==> x.k < c.k < db.counter
    requires Younger(Links(db), db.counter)
    requires y in db.folders && forall c :: c in subs ==> !Below(Links(db), db.counter, c, y)
    ensures DeleteSubfolders(db, x, subs, now, lenient).1.folders[y] == db.folders[y]
    decreases db.counter - x.k, 0, |subs|
  {
    if subs != [] {
      DeleteTreeKeepsFolder(db, subs[0], now, lenient, y);
      var s := DeleteTree(db, subs[0], now, lenient);
      if s.0.Ok? {
        TrimsChildrenYounger(db, s.1);
        TrimsLinks(db, s.1);
        assert forall c :: c in subs[1..] ==> c in subs;
        DeleteSubfoldersKeepsFolder(s.1, x, subs[1..], now, lenient, y);
      }
    }
  }

  /** A folder key that is the path of no folder in the subtree of `x`
      keeps its binding, whatever the outcome. */
  lemma {:induction false} DeleteTreeKeepsFolderKey(db: Db, x: Uuid, now: u64, lenient: bool, k: string)
    requires ChildrenYounger(db) && Younger(Links(db), db.counter)
    requires k in db.folderPaths
    requires forall y :: y in db.folders && Below(Links(db), db.counter, x, y) ==> db.folders[y].fullFolderPath != k
    ensures var r := DeleteTree(db, x, now, lenient).1;
      k in r.folderPaths && r.folderPaths[k] == db.folderPaths[k]
    decreases db.counter - x.k, 1, 0
  {
    if x in db.folders {
      var f := db.folders[x];
      var db1, s := DeleteTreeUnfold(db, x, now, lenient);
      forall c, y | c in f.subfolderUuids && y in db1.folders && Below(Links(db1), db1.counter, c, y)
        ensures db1.folders[y].fullFolderPath != k
      {
        assert Below(Links(db), db.counter, x, y);
      }
      DeleteSubfoldersKeepsFolderKey(db1, x, f.subfolderUuids, now, lenient, k);
      FinishKeeps(s, x, f.fileUuids, now, lenient);
    }
  }

  lemma {:induction false} DeleteSubfoldersKeepsFolderKey(db: Db, x: Uuid, subs: seq<Uuid>, now: u64, lenient: bool, k: string)
    requires ChildrenYounger(db) && forall c :: c in subs ==> x.k < c.k < db.counter
    requires Younger(Links(db), db.counter)
    requires k in db.folderPaths
    requires forall c, y :: c in subs && y in db.folders && Below(Links(db), db.counter, c, y) ==> db.folders[y].fullFolderPath != k
    ensures var r := DeleteSubfolders(db, x, subs, now, lenient).1;
      k in r.folderPaths && r.folderPaths[k] == db.folderPaths[k]
    decreases db.counter - x.k, 0, |subs|
  {
    if subs != [] {
      DeleteTreeKeepsFolderKey(db, subs[0], now, lenient, k);
      var s := DeleteTree(db, subs[0], now, lenient);
      if s.0.Ok? {
        TrimsChildrenYounger(db, s.1);
        TrimsLinks(db, s.1);
        assert forall c :: c in subs[1..] ==> c in subs;
        DeleteSubfoldersKeepsFolderKey(s.1, x, subs[1..], now, lenient, k);
      }
    }
  }

  /** A file that no folder in the subtree of `x` lists stays, whatever the
      outcome. */
  lemma {:induction false} DeleteTreeKeepsFile(db: Db, x: Uuid, now: u64, lenient: bool, z: Uuid)
    requires ChildrenYounger(db) && Younger(Links(db), db.counter)
    requires z in db.files
    requires forall y :: y in db.folders && Below(Links(db), db.counter, x, y) ==> z !in db.folders[y].fileUuids
    ensures z in DeleteTree(db, x, now, lenient).1.files
    decreases db.counter - x.k, 1, 0
  {
    if x in db.folders {
      var f := db.folders[x];
      var db1, s := DeleteTreeUnfold(db, x, now, lenient);
      forall c, y | c in f.subfolderUuids && y in db1.folders && Below(Links(db1), db1.counter, c, y)
        ensures z !in db1.folders[y].fileUuids
      {
        assert Below(Links(db), db.counter, x, y);
      }
      assert Below(Links(db), db.counter, x, x);
      DeleteSubfoldersKeepsFile(db1, x, f.subfolderUuids, now, lenient, z);
      FinishKeeps(s, x, f.fileUuids, now, lenient);
    }
  }

  lemma {:induction false} DeleteSubfoldersKeepsFile(db: Db, x: Uuid, subs: seq<Uuid>, now: u64, lenient: bool, z: Uuid)
    requires ChildrenYounger(db) && forall c :: c in subs ==> x.k < c.k < db.counter
    requires Younger(Links(db), db.counter)
    requires z in db.files
    requires forall c, y :: c in subs && y in db.folders && Below(Links(db), db.counter, c, y) ==> z !in db.folders[y].fileUuids
    ensures z in DeleteSubfolders(db, x, subs, now, lenient).1.files
    decreases db.counter - x.k, 0, |subs|
  {
    if subs != [] {
      DeleteTreeKeepsFile(db, subs[0], now, lenient, z);
      var s := DeleteTree(db, subs[0], now, lenient);
      if s.0.Ok? {
        TrimsChildrenYounger(db, s.1);
        TrimsLinks(db, s.1);
        assert forall c :: c in subs[1..] ==> c in subs;
        DeleteSubfoldersKeepsFile(s.1, x, subs[1..], now, lenient, z);
      }
    }
  }

  /** No folder in the subtree of `x` has the path `k`. */
  ghost predicate NoFolderAt(db: Db, x: Uuid, k: string)
    requires Younger(Links(db), db.counter)
  {
    forall y :: y in db.folders && Below(Links(db), db.counter, x, y) ==> db.folders[y].fullFolderPath != k
  }

  /** No folder in the subtree of `x` lists the file `z`. */
  ghost predicate ListedNowhere(db: Db, x: Uuid, z: Uuid)
    requires Younger(Links(db), db.counter)
  {
    forall y :: y in db.folders && Below(Links(db), db.counter, x, y) ==> z !in db.folders[y].fileUuids
  }

  /** Whatever its outcome, delete_folder(x) leaves alone every folder
      outside the subtree of `x` and every folder key that is the path of no
      folder in it; every file that no folder in it lists stays, changed at
      most in its version links; and a file key is lost only when it is the
      path of a file that went. */
  lemma DeleteTreeFrame(db: Db, x: Uuid, now: u64, lenient: bool)
    requires ChildrenYounger(db) && Younger(Links(db), db.counter)
    ensures var r := DeleteTree(db, x, now, lenient).1;
      && (forall y :: y in db.folders && !Below(Links(db), db.counter, x, y) ==> r.folders[y] == db.folders[y])
      && (forall k :: k in db.folderPaths && NoFolderAt(db, x, k) ==>
            k in r.folderPaths && r.folderPaths[k] == db.folderPaths[k])
      && (forall z :: z in db.files && ListedNowhere(db, x, z) ==>
            z in r.files && Relinked(db.files[z], r.files[z]))
      && (forall k :: k in db.filePaths && (forall z :: z in db.files && z !in r.files ==> db.files[z].fullFilePath != k) ==>
            k in r.filePaths && r.filePaths[k] == db.filePaths[k])
  {
    forall y | y in db.folders && !Below(Links(db), db.counter, x, y)
      ensures DeleteTree(db, x, now, lenient).1.folders[y] == db.folders[y]
    {
      DeleteTreeKeepsFolder(db, x, now, lenient, y);
    }
    forall k | k in db.folderPaths && NoFolderAt(db, x, k)
      ensures k in DeleteTree(db, x, now, lenient).1.folderPaths
      ensures DeleteTree(db, x, now, lenient).1.folderPaths[k] == db.folderPaths[k]
    {
      DeleteTreeKeepsFolderKey(db, x, now, lenient, k);
    }
    forall z | z in db.files && ListedNowhere(db, x, z)
      ensures z in DeleteTree(db, x, now, lenient).1.files
    {
      DeleteTreeKeepsFile(db, x, now, lenient, z);
    }
  }

  // ---------------------------------------------------------------------------
  // Deleting a folder after one of its files

  /** Every listed subfolder has a record: true of every table the
      operations build, since folder records are never removed. */
  predicate ChildrenExist(db: Db) {
    forall id, c :: id in db.folders && c in db.folders[id].subfolderUuids ==> c in db.folders
  }

  /** As written, the files loop fails on a file that is already gone. */
  lemma {:induction false} DeleteFilesMissing(db: Db, ys: seq<Uuid>, y: Uuid)
    requires y in ys && y !in db.files
    ensures DeleteFiles(db, ys, false).0 == Err("File not found")
    decreases |ys|
  {
    if ys[0] != y && ys[0] in db.files {
      DeleteFilesMissing(DeleteFile(db, ys[0]).1, ys[1..], y);
    }
  }

  /** As written, deleting a folder after deleting one of its files (which
      delete_file leaves in the folder's list on purpose) fails with "File
      not found", and leaves the folder without its key yet not marked
      deleted. */
  lemma DeleteFolderAfterFile(db: Db, x: Uuid, y: Uuid, now: u64)
    requires ChildrenYounger(db) && x in db.folders && !db.folders[x].deleted
    requires db.folders[x].subfolderUuids == [] && y in db.folders[x].fileUuids && y in db.files
    ensures var d := DeleteFile(db, y).1;
      var r := DeleteFolder(d, x, now);
      && r.0 == Err("File not found")
      && !r.1.folders[x].deleted
      && db.folders[x].fullFolderPath !in r.1.folderPaths
  {
    var d := DeleteFile(db, y).1;
    TrimsChildrenYounger(db, d);
    var f := d.folders[x];
    var d1 := d.(folderPaths := Drop(d.folderPaths, f.fullFolderPath));
    ChildrenYoungerFrame(d, d1);
    assert DeleteSubfolders(d1, x, [], now, false) == (Ok(()), d1);
    DeleteFilesMissing(d1, f.fileUuids, y);
  }

  /** The corrected delete_folder fails only on a listed subfolder without a
      record, so it always succeeds when every listed subfolder exists. */
  lemma {:induction false} DeleteTreeLenientOk(db: Db, x: Uuid, now: u64)
    requires ChildrenYounger(db) && ChildrenExist(db) && x in db.folders
    ensures DeleteTree(db, x, now, true).0 == Ok(())
    decreases db.counter - x.k, 1, 0
  {
    var f := db.folders[x];
    var db1 := Unkeyed(db, x);
    DeleteSubfoldersLenientOk(db1, x, f.subfolderUuids, now);
  }

  lemma {:induction false} DeleteSubfoldersLenientOk(db: Db, x: Uuid, subs: seq<Uuid>, now: u64)
    requires ChildrenYounger(db) && forall c :: c in subs ==> x.k < c.k < db.counter
    requires ChildrenExist(db) && forall c :: c in subs ==> c in db.folders
    ensures DeleteSubfolders(db, x, subs, now, true).0 == Ok(())
    decreases db.counter - x.k, 0, |subs|
  {
    if subs != [] {
      DeleteTreeLenientOk(db, subs[0], now);
      var s := DeleteTree(db, subs[0], now, true);
      TrimsChildrenYounger(db, s.1);
      DeleteSubfoldersLenientOk(s.1, x, subs[1..], now);
    }
  }

  /** The corrected delete_folder succeeds after delete_file removed one of
      the folder's files, and marks the folder deleted. */
  lemma DeleteFolderCorrectedAfterFile(db: Db, x: Uuid, y: Uuid, now: u64)
    requires ChildrenYounger(db) && ChildrenExist(db) && x in db.folders
    ensures var d := DeleteFile(db, y).1;
      ChildrenYounger(d) && DeleteFolderCorrected(d, x, now).0 == Ok(())
      && DeleteFolderCorrected(d, x, now).1.folders[x].deleted
  {
    var d := DeleteFile(db, y).1;
    TrimsChildrenYounger(db, d);
    DeleteTreeLenientOk(d, x, now);
    CYYounger(d);
    DeleteTreePurges(d, x, now, true, x);
  }
}
