/**
 * Facts about the folder tree that the operations keep: every folder key
 * and folder path ends in `/` or `:` (`Renames.KeyEnds`), every listed
 * subfolder has a record (`Deletes.ChildrenExist`), and the folder index
 * names folders whose records carry the key (`Tables.FolderIndexAgrees`).
 * All three hold of the empty tables `State::new` starts from; the rename
 * and delete findings assume the first two.
 */
module TreeShape {
  import opened Wrappers
  import opened Paths
  import opened Metadata
  import opened Tables
  import opened Folders
  import opened Upsert
  import opened Renames
  import opened Deletes
  import opened Sync

  /** What a step from `a` to `b` keeps: keys ending in `/` or `:`, listed
      children that exist, and, when every folder id of `a` was drawn before
      its counter (`Tidy`), a folder index that agrees with the records. */
  predicate KeepsShape(a: Db, b: Db) {
    && (KeyEnds(a) ==> KeyEnds(b))
    && (ChildrenExist(a) ==> ChildrenExist(b))
    && (Tidy(a) && FolderIndexAgrees(a) ==> FolderIndexAgrees(b))
  }

  lemma KeepsShapeTrans(a: Db, b: Db, c: Db)
    requires KeepsShape(a, b) && KeepsShape(b, c) && (Tidy(a) ==> Tidy(b))
    ensures KeepsShape(a, c)
  {
  }

  /** `b` has the folder ids of `a`, only folder keys of `a`, bound as in
      `a`, and every folder keeps its path and its children. */
  predicate TreeKept(a: Db, b: Db) {
    && a.folders.Keys == b.folders.Keys
    && (forall k :: k in b.folderPaths ==> k in a.folderPaths && b.folderPaths[k] == a.folderPaths[k])
    && (forall id :: id in a.folders ==>
          b.folders[id].fullFolderPath == a.folders[id].fullFolderPath
          && b.folders[id].subfolderUuids == a.folders[id].subfolderUuids)
  }

  lemma TreeKeptKeeps(a: Db, b: Db)
    requires TreeKept(a, b)
    ensures KeepsShape(a, b)
    ensures FolderIndexAgrees(a) ==> FolderIndexAgrees(b)
  {
  }

  /** The tables of `State::new` have all three facts. */
  lemma EmptyShaped()
    ensures KeyEnds(Db(map[], map[], map[], map[], 0))
    ensures ChildrenExist(Db(map[], map[], map[], map[], 0))
    ensures Tidy(Db(map[], map[], map[], map[], 0)) && FolderIndexAgrees(Db(map[], map[], map[], map[], 0))
  {
  }

  /** A deletion keeps every folder's path and children and only unbinds
      folder keys. */
  lemma TrimsTreeKept(a: Db, b: Db)
    requires Trims(a, b)
    ensures TreeKept(a, b)
  {
    forall id | id in a.folders
      ensures b.folders[id].fullFolderPath == a.folders[id].fullFolderPath
      ensures b.folders[id].subfolderUuids == a.folders[id].subfolderUuids
    {
      assert Marked(a.folders[id], b.folders[id]);
    }
  }

  // ---------------------------------------------------------------------------
  // Building folders

  lemma RootPathEnds(loc: StorageLocation)
    ensures EndsInSlashOrColon(loc.RootPath())
  {
    LastOfAppend(loc.Name(), "::");
  }

  /** ensure_root_folder binds `<ns>::`, which ends in `:`, to a folder
      without children, under an id no folder holds when the tables are
      tidy. */
  lemma EnsureRootShaped(db: Db, loc: StorageLocation, user: Principal, now: u64)
    ensures KeepsShape(db, EnsureRoot(db, loc, user, now).1)
  {
    RootPathEnds(loc);
    var r := EnsureRoot(db, loc, user, now);
    if loc.RootPath() !in db.folderPaths && Tidy(db) && FolderIndexAgrees(db) {
      forall p | p in r.1.folderPaths
        ensures r.1.folderPaths[p] in r.1.folders && r.1.folders[r.1.folderPaths[p]].fullFolderPath == p
      {
        if p != loc.RootPath() {
          assert db.folderPaths[p] != r.0;
        }
      }
    }
  }

  /** Listing an existing folder under a parent changes no key and no
      path. */
  lemma LinkChildShaped(db: Db, parent: Uuid, child: Uuid, dedup: bool)
    requires child in db.folders
    ensures var d := LinkChild(db, parent, child, dedup);
      KeepsShape(db, d) && (FolderIndexAgrees(db) ==> FolderIndexAgrees(d))
  {
    var d := LinkChild(db, parent, child, dedup);
    forall x | x in d.folders
      ensures d.folders[x].fullFolderPath == db.folders[x].fullFolderPath
      ensures forall c :: c in d.folders[x].subfolderUuids ==> c in db.folders[x].subfolderUuids || c == child
    {
    }
  }

  /** Binding a key to a new folder under the next id keeps the index in
      agreement when no folder holds that id. */
  lemma AddFolderAgrees(db: Db, path: string, f: FolderMetadata)
    requires Tidy(db) && FolderIndexAgrees(db) && f.id == Uuid(db.counter) && f.fullFolderPath == path
    ensures FolderIndexAgrees(AddFolder(db, path, f))
  {
    var a := AddFolder(db, path, f);
    forall p | p in a.folderPaths
      ensures a.folderPaths[p] in a.folders && a.folders[a.folderPaths[p]].fullFolderPath == p
    {
      if p != path {
        assert db.folderPaths[p] != f.id;
      }
    }
  }

  /** One pass of the segment loop binds a key ending in `/` to a fresh
      folder without children that carries that key, and lists it under its
      parent. */
  lemma StepShaped(db: Db, path: string, part: string, parent: Uuid, loc: StorageLocation,
                   user: Principal, now: u64, dedup: bool)
    requires EndsInSlashOrColon(path)
    ensures KeepsShape(db, Step(db, path, part, parent, loc, user, now, dedup).2)
  {
    if path !in db.folderPaths {
      var id := Uuid(db.counter);
      var f := NewFolder(id, part, Some(parent), path, user, now, loc);
      AddFolderShaped(db, path, f);
      LinkChildShaped(AddFolder(db, path, f), parent, id, dedup);
    }
  }

  /** Binding a key ending in `/` or `:` to a new folder without children
      that carries the key, under the next id. */
  lemma AddFolderShaped(db: Db, path: string, f: FolderMetadata)
    requires EndsInSlashOrColon(path) && f.id == Uuid(db.counter) && f.fullFolderPath == path && f.subfolderUuids == []
    ensures var a := AddFolder(db, path, f);
      && f.id in a.folders
      && (KeyEnds(db) ==> KeyEnds(a))
      && (ChildrenExist(db) ==> ChildrenExist(a))
      && (Tidy(db) && FolderIndexAgrees(db) ==> FolderIndexAgrees(a))
  {
    if Tidy(db) && FolderIndexAgrees(db) {
      AddFolderAgrees(db, path, f);
    }
  }

  lemma {:induction false} WalkShaped(db: Db, cur: string, segs: seq<string>, parent: Uuid, loc: StorageLocation,
                                      user: Principal, now: u64, dedup: bool, last: Option<FolderMetadata>)
    ensures KeepsShape(db, Walk(db, cur, segs, parent, loc, user, now, dedup, last).2)
    decreases |segs|
  {
    if segs != [] {
      var path := cur + segs[0] + "/";
      var (next, made, db1) := Step(db, path, segs[0], parent, loc, user, now, dedup);
      LastOfAppend(cur + segs[0], "/");
      StepShaped(db, path, segs[0], parent, loc, user, now, dedup);
      if Tidy(db) {
        StepTidy(db, path, segs[0], parent, loc, user, now, dedup);
      }
      WalkShaped(db1, path, segs[1..], next, loc, user, now, dedup, made);
      KeepsShapeTrans(db, db1, Walk(db, cur, segs, parent, loc, user, now, dedup, last).2);
    }
  }

  /** The root followed by the segment loop. */
  lemma RootWalkShaped(db: Db, head: string, segs: seq<string>, loc: StorageLocation, user: Principal, now: u64, dedup: bool)
    ensures var (root, db1) := EnsureRoot(db, loc, user, now);
      KeepsShape(db, Walk(db1, head, segs, root, loc, user, now, dedup, None).2)
  {
    var (root, db1) := EnsureRoot(db, loc, user, now);
    EnsureRootShaped(db, loc, user, now);
    if Tidy(db) {
      EnsureRootTidy(db, loc, user, now);
    }
    WalkShaped(db1, head, segs, root, loc, user, now, dedup, None);
    KeepsShapeTrans(db, db1, Walk(db1, head, segs, root, loc, user, now, dedup, None).2);
  }

  /** `create_folder` keeps all three facts, whether it fails or not. */
  lemma CreateFolderShaped(db: Db, fullPath: string, loc: StorageLocation, user: Principal, now: u64)
    ensures KeepsShape(db, CreateFolder(db, fullPath, loc, user, now).1)
  {
    var path := WithSlash(Sanitize(fullPath));
    if SplitOnce(path).Some? {
      CreateInShaped(db, Segments(SplitOnce(path).value.1), loc, user, now);
    }
  }

  lemma CreateInShaped(db: Db, segs: seq<string>, loc: StorageLocation, user: Principal, now: u64)
    ensures KeepsShape(db, CreateIn(db, segs, loc, user, now).1)
  {
    RootWalkShaped(db, loc.RootPath(), segs, loc, user, now, false);
  }

  lemma EnsureUnderShaped(db: Db, head: string, segs: seq<string>, loc: StorageLocation, user: Principal, now: u64)
    ensures KeepsShape(db, EnsureUnder(db, head, segs, loc, user, now).1)
  {
    RootWalkShaped(db, head + "::", segs, loc, user, now, true);
  }

  /** `ensure_folder_structure` keeps all three facts. */
  lemma EnsureFoldersShaped(db: Db, folderPath: string, loc: StorageLocation, user: Principal, now: u64)
    requires HasSep(folderPath)
    ensures KeepsShape(db, EnsureFolders(db, folderPath, loc, user, now).1)
  {
    var parts := EnsureParts(folderPath).value;
    EnsureUnderShaped(db, parts.0, Segments(parts.1), loc, user, now);
  }

  /** Drawing an id for a file keeps the folder tree, and keeps ids drawn. */
  lemma BumpShaped(db: Db)
    ensures KeepsShape(db, db.(counter := db.counter + 1))
    ensures Tidy(db) ==> Tidy(db.(counter := db.counter + 1))
  {
  }

  // ---------------------------------------------------------------------------
  // Filing files

  lemma UpdateFolderFileUuidsKept(db: Db, folder: Uuid, file: Uuid, isAdd: bool)
    ensures TreeKept(db, UpdateFolderFileUuids(db, folder, file, isAdd))
  {
    var d := UpdateFolderFileUuids(db, folder, file, isAdd);
    forall id | id in db.folders
      ensures d.folders[id].fullFolderPath == db.folders[id].fullFolderPath
      ensures d.folders[id].subfolderUuids == db.folders[id].subfolderUuids
    {
      UpdateFolderFileUuidsEffect(db, folder, file, isAdd, id);
    }
  }

  lemma UpsertTailKept(db1: Db, full: string, name: string, folder: Uuid, newId: Uuid,
                       loc: StorageLocation, user: Principal, now: u64)
    requires full in db1.filePaths ==> db1.filePaths[full] in db1.files
    ensures TreeKept(db1, UpsertTail(db1, full, name, folder, newId, loc, user, now))
  {
    var existing := Bound(db1, full);
    var version := if existing.Some? then WrappingInc(db1.files[existing.value].fileVersion) else 1;
    var f := NewVersion(newId, name, folder, version, existing, full, user, now, loc);
    var db2 := db1.(files := db1.files[newId := f], filePaths := db1.filePaths[full := newId]);
    var db3 := UpdateFolderFileUuids(db2, folder, newId, true);
    UpdateFolderFileUuidsKept(db2, folder, newId, true);
    if existing.Some? {
      var prev := existing.value;
      var db5 := if prev in db3.files then PutFile(db3, prev, db3.files[prev].(nextVersion := Some(newId))) else db3;
      UpdateFolderFileUuidsKept(db5, folder, prev, false);
    }
  }

  lemma UpsertAtShaped(db: Db, full: string, head: string, segs: seq<string>, name: string,
                       loc: StorageLocation, user: Principal, now: u64)
    requires full in db.filePaths ==> db.filePaths[full] in db.files
    ensures KeepsShape(db, UpsertAt(db, full, head, segs, name, loc, user, now).1)
  {
    var b := db.(counter := db.counter + 1);
    var e := EnsureUnder(b, head, segs, loc, user, now);
    UpsertAtUnfolds(db, full, head, segs, name, e.0, e.1, loc, user, now);
    BumpShaped(db);
    EnsureUnderShaped(b, head, segs, loc, user, now);
    KeepsShapeTrans(db, b, e.1);
    var d := UpsertTail(e.1, full, name, e.0, Uuid(db.counter), loc, user, now);
    UpsertTailKept(e.1, full, name, e.0, Uuid(db.counter), loc, user, now);
    TreeKeptKeeps(e.1, d);
  }

  /** `upsert_file_to_hash_tables` keeps all three facts: it builds folders
      only through ensure_folder_structure and otherwise edits file lists. */
  lemma UpsertFileShaped(db: Db, filePath: string, loc: StorageLocation, user: Principal, now: u64)
    requires HasSep(SplitPath(Sanitize(filePath)).0)
    requires Sanitize(filePath) in db.filePaths ==> db.filePaths[Sanitize(filePath)] in db.files
    ensures KeepsShape(db, UpsertFile(db, filePath, loc, user, now).1)
  {
    var full := Sanitize(filePath);
    var parts := EnsureParts(SplitPath(full).0).value;
    assert UpsertFile(db, filePath, loc, user, now) == UpsertAt(db, full, parts.0, Segments(parts.1), SplitPath(full).1, loc, user, now);
    UpsertAtShaped(db, full, parts.0, Segments(parts.1), SplitPath(full).1, loc, user, now);
  }

  /** Replacing one folder's file list keeps the tree. */
  lemma FileListKept(db: Db, folder: Uuid, l: seq<Uuid>)
    requires folder in db.folders
    ensures TreeKept(db, PutFolder(db, folder, db.folders[folder].(fileUuids := l)))
  {
  }

  lemma TreeKeptTrans(a: Db, b: Db, c: Db)
    requires TreeKept(a, b) && TreeKept(b, c)
    ensures TreeKept(a, c)
  {
  }

  lemma SyncTailKept(db1: Db, fileId: Uuid, existing: FileMetadata, full: string, name: string, folder: Uuid,
                     newId: Uuid, incoming: FileMetadata, user: Principal, now: u64)
    requires PriorsOlder(db1.files)
    ensures TreeKept(db1, SyncTail(db1, fileId, existing, full, name, folder, newId, incoming, user, now))
  {
    var db2 := if folder in db1.folders then
      PutFolder(db1, folder, db1.folders[folder].(fileUuids := ChainStrip(db1.files, db1.folders[folder].fileUuids, Some(fileId))))
      else db1;
    if folder in db1.folders {
      FileListKept(db1, folder, ChainStrip(db1.files, db1.folders[folder].fileUuids, Some(fileId)));
    }
    var rec := SyncedFile(newId, name, folder, existing, full, incoming, user, now);
    var db3 := db2.(files := db2.files[newId := rec], filePaths := db2.filePaths[full := newId]);
    var db4 := if folder in db3.folders then
      PutFolder(db3, folder, db3.folders[folder].(fileUuids := Without(db3.folders[folder].fileUuids, newId) + [newId]))
      else db3;
    if folder in db3.folders {
      FileListKept(db3, folder, Without(db3.folders[folder].fileUuids, newId) + [newId]);
    }
    TreeKeptTrans(db1, db2, db4);
    assert SyncTail(db1, fileId, existing, full, name, folder, newId, incoming, user, now)
      == if fileId in db4.files then PutFile(db4, fileId, db4.files[fileId].(nextVersion := Some(newId))) else db4;
  }

  lemma SyncAtShaped(db: Db, fileId: Uuid, incoming: FileMetadata, full: string, head: string, segs: seq<string>,
                     name: string, user: Principal, now: u64)
    requires fileId in db.files && PriorsOlder(db.files)
    ensures KeepsShape(db, SyncAt(db, fileId, incoming, full, head, segs, name, user, now).1)
  {
    var b := db.(counter := db.counter + 1);
    var e := EnsureUnder(b, head, segs, incoming.storageLocation, user, now);
    SyncAtUnfolds(db, fileId, incoming, full, head, segs, name, e.0, e.1, user, now);
    BumpShaped(db);
    EnsureUnderShaped(b, head, segs, incoming.storageLocation, user, now);
    KeepsShapeTrans(db, b, e.1);
    var d := SyncTail(e.1, fileId, db.files[fileId], full, name, e.0, Uuid(db.counter), incoming, user, now);
    SyncTailKept(e.1, fileId, db.files[fileId], full, name, e.0, Uuid(db.counter), incoming, user, now);
    TreeKeptKeeps(e.1, d);
  }

  /** The file half of the offline sync keeps all three facts. */
  lemma SyncFileShaped(db: Db, fileId: Uuid, incoming: FileMetadata, user: Principal, now: u64)
    requires fileId in db.files && PriorsOlder(db.files)
    requires HasSep(SplitPath(Sanitize(incoming.fullFilePath)).0)
    ensures KeepsShape(db, SyncFile(db, fileId, incoming, user, now).1)
  {
    var full := Sanitize(incoming.fullFilePath);
    var parts := EnsureParts(SplitPath(full).0).value;
    assert SyncFile(db, fileId, incoming, user, now) == SyncAt(db, fileId, incoming, full, parts.0, Segments(parts.1), SplitPath(full).1, user, now);
    SyncAtShaped(db, fileId, incoming, full, parts.0, Segments(parts.1), SplitPath(full).1, user, now);
  }

  /** The folder half of the offline sync keeps every child list, and keeps
      every folder path ending in `/` or `:` exactly when the client's path
      does. */
  lemma SyncFolderShaped(db: Db, folderId: Uuid, incoming: FolderMetadata, now: u64)
    requires folderId in db.folders
    ensures var d := SyncFolder(db, folderId, incoming, now).1;
      && (ChildrenExist(db) ==> ChildrenExist(d))
      && (KeyEnds(db) ==> (KeyEnds(d) <==> EndsInSlashOrColon(incoming.fullFolderPath)))
  {
    SyncFolderEffect(db, folderId, incoming, now);
  }

  // ---------------------------------------------------------------------------
  // Renaming and deleting

  /** `rename_file` touches neither folder table. */
  lemma RenameFileShaped(db: Db, id: Uuid, newName: string, now: u64)
    ensures KeepsShape(db, RenameFile(db, id, newName, now).1)
  {
    FolderTablesKept(db, RenameFile(db, id, newName, now).1);
  }

  lemma FolderTablesKept(a: Db, b: Db)
    requires a.folders == b.folders && a.folderPaths == b.folderPaths
    ensures TreeKept(a, b) && KeepsShape(a, b)
  {
    TreeKeptKeeps(a, b);
  }

  /** Changing only paths keeps every child list. */
  lemma ShapeChildrenExist(a: Db, b: Db)
    requires SameShape(a, b)
    ensures ChildrenExist(a) ==> ChildrenExist(b)
  {
    forall id | id in b.folders ensures b.folders[id].subfolderUuids == a.folders[id].subfolderUuids {
    }
  }

  /** rename_folder past its checks keeps the first two facts when the new key ends
      in `/` or `:`: the rewrite changes only paths, to keys ending so, and
      the parent repair lists the renamed folder, which exists. */
  lemma RenameAtShaped(db: Db, id: Uuid, newName: string, now: u64, m: FolderMove, parentKey: string)
    requires ChildrenYounger(db) && id in db.folders && EndsInSlashOrColon(m.newPath)
    ensures var d := RenameAt(db, id, newName, now, m, parentKey).1;
      (KeyEnds(db) ==> KeyEnds(d)) && (ChildrenExist(db) ==> ChildrenExist(d))
  {
    var db1 := Retitle(db, id, newName, now, m.newPath);
    ChildrenYoungerFrame(db, db1);
    var db2 := Relocate(db, id, newName, now, m.newPath);
    assert db2 == UpdatePaths(db1, id, db.folders[id].fullFolderPath, m.newPath);
    if KeyEnds(db) {
      RelocateKeyEnds(db, id, newName, now, m.newPath);
    }
    assert ChildrenExist(db) ==> ChildrenExist(db1);
    ShapeChildrenExist(db1, db2);
    if m.parentPath != [] && parentKey in db2.folderPaths {
      LinkChildShaped(db2, db2.folderPaths[parentKey], id, true);
    }
  }

  /** `rename_folder` keeps the first two facts, as written and corrected;
      `Renames.RenameFolderValid` shows that it keeps the third. */
  lemma RenameFolderShaped(db: Db, id: Uuid, newName: string, now: u64)
    requires ChildrenYounger(db)
    ensures var d := RenameFolder(db, id, newName, now).1;
      (KeyEnds(db) ==> KeyEnds(d)) && (ChildrenExist(db) ==> ChildrenExist(d))
    ensures var d := RenameFolderCorrected(db, id, newName, now).1;
      (KeyEnds(db) ==> KeyEnds(d)) && (ChildrenExist(db) ==> ChildrenExist(d))
  {
    var t := RenameTarget(db, id, newName);
    if t.Ok? {
      RenameAtShaped(db, id, newName, now, t.value, ParentKey(t.value));
      RenameAtShaped(db, id, newName, now, t.value, ParentKey(t.value) + "/");
    }
  }

  /** `delete_file` keeps all three facts. */
  lemma DeleteFileShaped(db: Db, id: Uuid)
    ensures KeepsShape(db, DeleteFile(db, id).1)
  {
    TrimsTreeKept(db, DeleteFile(db, id).1);
    TreeKeptKeeps(db, DeleteFile(db, id).1);
  }

  /** `delete_folder` keeps all three facts, as written and corrected. */
  lemma DeleteTreeShaped(db: Db, x: Uuid, now: u64, lenient: bool)
    requires ChildrenYounger(db)
    ensures KeepsShape(db, DeleteTree(db, x, now, lenient).1)
  {
    TrimsTreeKept(db, DeleteTree(db, x, now, lenient).1);
    TreeKeptKeeps(db, DeleteTree(db, x, now, lenient).1);
  }
}
