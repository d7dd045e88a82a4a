/**
 * The folder tree the rename and delete lemmas assume (`Subtrees.Tree`):
 * folder lists and parent pointers agree, a listed file names the folder
 * listing it, no list repeats an id.  It holds of the empty tables
 * `State::new` starts from, together with every parent pointer naming a
 * folder that has a record, and every builder, upsert, file sync, rename
 * and delete keeps both.  The folder sync keeps them when the client sends
 * the parent the record already has, and rename_folder's parent repair
 * when it finds the recorded parent; otherwise each can break the tree.
 */
module TreeKeep {
  import opened Wrappers
  import opened Paths
  import opened Metadata
  import opened Tables
  import opened Folders
  import opened Upsert
  import opened Renames
  import opened Deletes
  import opened Sync
  import opened Subtrees

  /** Every parent pointer names a folder that has a record. */
  predicate ParentsKnown(db: Db) {
    forall id :: id in db.folders && db.folders[id].parentFolderUuid.Some? ==>
      db.folders[id].parentFolderUuid.value in db.folders
  }

  /** The tree, with no dangling parent pointer. */
  predicate Linked(db: Db) {
    Tree(db) && ParentsKnown(db)
  }

  /** The tables of `State::new` are linked. */
  lemma EmptyLinked()
    ensures Linked(Db(map[], map[], map[], map[], 0))
  {
  }

  // ---------------------------------------------------------------------------
  // Lists without repeats

  lemma NoDupSnoc(s: seq<Uuid>, x: Uuid)
    requires NoDup(s) && x !in s
    ensures NoDup(s + [x])
  {
  }

  /** Dropping an id keeps a list free of repeats. */
  lemma {:induction false} NoDupWithout(s: seq<Uuid>, x: Uuid)
    requires NoDup(s)
    ensures NoDup(Without(s, x))
    decreases |s|
  {
    if s != [] {
      NoDupTail(s);
      NoDupWithout(s[1..], x);
      WithoutMembers(s[1..], x, s[0]);
      var t := Without(s[1..], x);
      var h := if s[0] == x then [] else [s[0]];
      assert Without(s, x) == h + t;
      forall i, j | 0 <= i < j < |h + t| ensures (h + t)[i] != (h + t)[j] {
        if h != [] && i == 0 {
          assert (h + t)[j] == t[j - 1];
        }
      }
    }
  }

  /** The clean-up walk of the file sync keeps a list free of repeats and
      only drops ids. */
  lemma {:induction false} ChainStripNoDup(files: map<Uuid, FileMetadata>, list: seq<Uuid>, cur: Option<Uuid>)
    requires PriorsOlder(files) && NoDup(list)
    ensures NoDup(ChainStrip(files, list, cur))
    ensures forall y :: y in ChainStrip(files, list, cur) ==> y in list
    decreases if cur.Some? then cur.value.k + 1 else 0
  {
    if cur.Some? && cur.value in files {
      NoDupWithout(list, cur.value);
      ChainStripNoDup(files, Without(list, cur.value), files[cur.value].priorVersion);
      forall y | y in Without(list, cur.value) ensures y in list {
        WithoutMembers(list, cur.value, y);
      }
    }
  }

  // ---------------------------------------------------------------------------
  // Changes that keep the tree

  /** `b` has the folders of `a` with the same parents and lists, and only
      files of `a`, in the same folders. */
  predicate SameTree(a: Db, b: Db) {
    && a.folders.Keys == b.folders.Keys
    && (forall id :: id in a.folders ==>
          && b.folders[id].parentFolderUuid == a.folders[id].parentFolderUuid
          && b.folders[id].subfolderUuids == a.folders[id].subfolderUuids
          && b.folders[id].fileUuids == a.folders[id].fileUuids)
    && (forall y :: y in b.files ==> y in a.files && b.files[y].folderUuid == a.files[y].folderUuid)
  }

  lemma SameTreeLinked(a: Db, b: Db)
    requires Linked(a) && SameTree(a, b)
    ensures Linked(b)
  {
    forall c | c in b.folders ensures ListedBy(b, c) {
      assert ListedBy(a, c);
    }
  }

  /** Replacing one folder's file list by one without repeats whose filed
      records all name that folder. */
  lemma FileListLinked(db: Db, folder: Uuid, l: seq<Uuid>)
    requires Linked(db) && folder in db.folders && NoDup(l)
    requires forall y :: y in l && y in db.files ==> db.files[y].folderUuid == folder
    ensures Linked(PutFolder(db, folder, db.folders[folder].(fileUuids := l)))
  {
    var d := PutFolder(db, folder, db.folders[folder].(fileUuids := l));
    forall c | c in d.folders ensures ListedBy(d, c) {
      assert ListedBy(db, c);
    }
  }

  /** Writing a file record that either keeps the folder of the record it
      replaces or is filed in no folder. */
  lemma FileRecordLinked(db: Db, y: Uuid, g: FileMetadata)
    requires Linked(db)
    requires (y in db.files && g.folderUuid == db.files[y].folderUuid)
      || (forall v :: v in db.folders ==> y !in db.folders[v].fileUuids)
    ensures Linked(PutFile(db, y, g))
  {
    var d := PutFile(db, y, g);
    forall c | c in d.folders ensures ListedBy(d, c) {
      assert ListedBy(db, c);
    }
  }

  /** Filing or unfiling one file: filing needs a record naming the folder,
      if the file has a record at all. */
  lemma UpdateFolderFileUuidsLinked(db: Db, folder: Uuid, file: Uuid, isAdd: bool)
    requires Linked(db)
    requires isAdd && file in db.files ==> db.files[file].folderUuid == folder
    ensures Linked(UpdateFolderFileUuids(db, folder, file, isAdd))
  {
    if folder in db.folders {
      var l := db.folders[folder].fileUuids;
      if isAdd && file !in l {
        NoDupSnoc(l, file);
        FileListLinked(db, folder, l + [file]);
      } else if !isAdd {
        NoDupWithout(l, file);
        forall y | y in Without(l, file) ensures y in l {
          WithoutMembers(l, file, y);
        }
        FileListLinked(db, folder, Without(l, file));
      }
    }
  }

  // ---------------------------------------------------------------------------
  // Building folders

  /** ensure_root_folder adds a parentless, empty root under an id no
      folder holds. */
  lemma EnsureRootLinked(db: Db, loc: StorageLocation, user: Principal, now: u64)
    requires Tidy(db) && Linked(db)
    ensures Linked(EnsureRoot(db, loc, user, now).1)
  {
    var r := EnsureRoot(db, loc, user, now);
    if loc.RootPath() !in db.folderPaths {
      assert r.0 !in db.folders;
      forall c | c in r.1.folders ensures ListedBy(r.1, c) {
        if c != r.0 {
          assert ListedBy(db, c);
        }
      }
    }
  }

  /** One pass of the segment loop files a fresh folder under an existing
      parent, in both directions. */
  lemma StepLinked(db: Db, path: string, part: string, parent: Uuid, loc: StorageLocation,
                   user: Principal, now: u64, dedup: bool)
    requires Tidy(db) && Linked(db) && parent in db.folders
    ensures Linked(Step(db, path, part, parent, loc, user, now, dedup).2)
  {
    if path !in db.folderPaths {
      var id := Uuid(db.counter);
      assert id !in db.folders;
      var f := NewFolder(id, part, Some(parent), path, user, now, loc);
      var a := AddFolder(db, path, f);
      var l := db.folders[parent].subfolderUuids;
      assert id !in l;
      NoDupSnoc(l, id);
      var d := Step(db, path, part, parent, loc, user, now, dedup).2;
      assert d.folders == a.folders[parent := db.folders[parent].(subfolderUuids := l + [id])];
      forall c | c in d.folders ensures ListedBy(d, c) {
        if c != id {
          assert ListedBy(db, c);
        }
      }
    }
  }

  lemma {:induction false} WalkLinked(db: Db, cur: string, segs: seq<string>, parent: Uuid, loc: StorageLocation,
                                      user: Principal, now: u64, dedup: bool, last: Option<FolderMetadata>)
    requires Tidy(db) && Linked(db) && parent in db.folders
    ensures Linked(Walk(db, cur, segs, parent, loc, user, now, dedup, last).2)
    decreases |segs|
  {
    if segs != [] {
      var path := cur + segs[0] + "/";
      var (next, made, db1) := Step(db, path, segs[0], parent, loc, user, now, dedup);
      StepLinked(db, path, segs[0], parent, loc, user, now, dedup);
      StepTidy(db, path, segs[0], parent, loc, user, now, dedup);
      WalkLinked(db1, path, segs[1..], next, loc, user, now, dedup, made);
    }
  }

  /** The root followed by the segment loop. */
  lemma RootWalkLinked(db: Db, head: string, segs: seq<string>, loc: StorageLocation, user: Principal, now: u64, dedup: bool)
    requires Tidy(db) && Linked(db)
    ensures var (root, db1) := EnsureRoot(db, loc, user, now);
      Linked(db1) && Linked(Walk(db1, head, segs, root, loc, user, now, dedup, None).2)
  {
    var (root, db1) := EnsureRoot(db, loc, user, now);
    EnsureRootLinked(db, loc, user, now);
    EnsureRootTidy(db, loc, user, now);
    WalkLinked(db1, head, segs, root, loc, user, now, dedup, None);
  }

  lemma CreateInLinked(db: Db, segs: seq<string>, loc: StorageLocation, user: Principal, now: u64)
    requires Tidy(db) && Linked(db)
    ensures Linked(CreateIn(db, segs, loc, user, now).1)
  {
    RootWalkLinked(db, loc.RootPath(), segs, loc, user, now, false);
  }

  /** `create_folder` keeps the tree linked, whether it fails or not. */
  lemma CreateFolderLinked(db: Db, fullPath: string, loc: StorageLocation, user: Principal, now: u64)
    requires Tidy(db) && Linked(db)
    ensures Linked(CreateFolder(db, fullPath, loc, user, now).1)
  {
    var path := WithSlash(Sanitize(fullPath));
    if SplitOnce(path).Some? {
      CreateInLinked(db, Segments(SplitOnce(path).value.1), loc, user, now);
    }
  }

  lemma EnsureUnderLinked(db: Db, head: string, segs: seq<string>, loc: StorageLocation, user: Principal, now: u64)
    requires Tidy(db) && Linked(db)
    ensures Linked(EnsureUnder(db, head, segs, loc, user, now).1)
  {
    RootWalkLinked(db, head + "::", segs, loc, user, now, true);
  }

  /** `ensure_folder_structure` keeps the tree linked. */
  lemma EnsureFoldersLinked(db: Db, folderPath: string, loc: StorageLocation, user: Principal, now: u64)
    requires HasSep(folderPath) && Tidy(db) && Linked(db)
    ensures Linked(EnsureFolders(db, folderPath, loc, user, now).1)
  {
    var parts := EnsureParts(folderPath).value;
    EnsureUnderLinked(db, parts.0, Segments(parts.1), loc, user, now);
  }

  /** After the id is drawn and the folders are ensured, the new id is in
      no table and no file list. */
  lemma EnsuredFresh(db: Db, head: string, segs: seq<string>, loc: StorageLocation, user: Principal, now: u64)
    requires Valid(db) && Linked(db)
    ensures var b := db.(counter := db.counter + 1);
      var e := EnsureUnder(b, head, segs, loc, user, now);
      && Linked(e.1) && Uuid(db.counter) !in e.1.files && e.1.files == db.files
      && forall v :: v in e.1.folders ==> Uuid(db.counter) !in e.1.folders[v].fileUuids
  {
    var b := db.(counter := db.counter + 1);
    FreshId(db);
    FolderSideTidy(db);
    assert Tidy(b);
    EnsureUnderLinked(b, head, segs, loc, user, now);
    var e := EnsureUnder(b, head, segs, loc, user, now);
    forall v | v in e.1.folders ensures Uuid(db.counter) !in e.1.folders[v].fileUuids {
      EnsureUnderFileLists(b, head, segs, loc, user, now, v);
    }
  }

  // ---------------------------------------------------------------------------
  // Filing files

  /** The tail of upsert_file_to_hash_tables files a new id, filed nowhere
      before, under the folder its record names, and unfiles the version it
      replaces, whose folder it keeps. */
  lemma UpsertTailLinked(db1: Db, full: string, name: string, folder: Uuid, newId: Uuid,
                         loc: StorageLocation, user: Principal, now: u64)
    requires full in db1.filePaths ==> db1.filePaths[full] in db1.files
    requires Linked(db1) && newId !in db1.files
    requires forall v :: v in db1.folders ==> newId !in db1.folders[v].fileUuids
    ensures Linked(UpsertTail(db1, full, name, folder, newId, loc, user, now))
  {
    var existing := Bound(db1, full);
    var version := if existing.Some? then WrappingInc(db1.files[existing.value].fileVersion) else 1;
    var f := NewVersion(newId, name, folder, version, existing, full, user, now, loc);
    FileRecordLinked(db1, newId, f);
    var db2 := db1.(files := db1.files[newId := f], filePaths := db1.filePaths[full := newId]);
    assert Linked(db2) by {
      SameTreeLinked(PutFile(db1, newId, f), db2);
    }
    UpdateFolderFileUuidsLinked(db2, folder, newId, true);
    var db3 := UpdateFolderFileUuids(db2, folder, newId, true);
    if existing.Some? {
      var prev := existing.value;
      var db5 := if prev in db3.files then PutFile(db3, prev, db3.files[prev].(nextVersion := Some(newId))) else db3;
      if prev in db3.files {
        FileRecordLinked(db3, prev, db3.files[prev].(nextVersion := Some(newId)));
      }
      UpdateFolderFileUuidsLinked(db5, folder, prev, false);
    }
  }

  lemma UpsertAtLinked(db: Db, full: string, head: string, segs: seq<string>, name: string,
                       loc: StorageLocation, user: Principal, now: u64)
    requires full in db.filePaths ==> db.filePaths[full] in db.files
    requires Valid(db) && Linked(db)
    ensures Linked(UpsertAt(db, full, head, segs, name, loc, user, now).1)
  {
    var b := db.(counter := db.counter + 1);
    var e := EnsureUnder(b, head, segs, loc, user, now);
    UpsertAtUnfolds(db, full, head, segs, name, e.0, e.1, loc, user, now);
    EnsuredFresh(db, head, segs, loc, user, now);
    UpsertTailLinked(e.1, full, name, e.0, Uuid(db.counter), loc, user, now);
  }

  /** `upsert_file_to_hash_tables` keeps the tree linked. */
  lemma UpsertFileLinked(db: Db, filePath: string, loc: StorageLocation, user: Principal, now: u64)
    requires HasSep(SplitPath(Sanitize(filePath)).0)
    requires Sanitize(filePath) in db.filePaths ==> db.filePaths[Sanitize(filePath)] in db.files
    requires Valid(db) && Linked(db)
    ensures Linked(UpsertFile(db, filePath, loc, user, now).1)
  {
    var full := Sanitize(filePath);
    var parts := EnsureParts(SplitPath(full).0).value;
    assert UpsertFile(db, filePath, loc, user, now) == UpsertAt(db, full, parts.0, Segments(parts.1), SplitPath(full).1, loc, user, now);
    UpsertAtLinked(db, full, parts.0, Segments(parts.1), SplitPath(full).1, loc, user, now);
  }

  /** The tail of the file sync strips the target folder's list, files the
      new id, filed nowhere before, under the folder its record names, and
      links the synced file forward without moving it. */
  lemma SyncTailLinked(db1: Db, fileId: Uuid, existing: FileMetadata, full: string, name: string, folder: Uuid,
                       newId: Uuid, incoming: FileMetadata, user: Principal, now: u64)
    requires PriorsOlder(db1.files) && Linked(db1) && newId !in db1.files
    requires forall v :: v in db1.folders ==> newId !in db1.folders[v].fileUuids
    ensures Linked(SyncTail(db1, fileId, existing, full, name, folder, newId, incoming, user, now))
  {
    var db2 := if folder in db1.folders then
      PutFolder(db1, folder, db1.folders[folder].(fileUuids := ChainStrip(db1.files, db1.folders[folder].fileUuids, Some(fileId))))
      else db1;
    if folder in db1.folders {
      ChainStripNoDup(db1.files, db1.folders[folder].fileUuids, Some(fileId));
      FileListLinked(db1, folder, ChainStrip(db1.files, db1.folders[folder].fileUuids, Some(fileId)));
    }
    assert forall v :: v in db2.folders ==> newId !in db2.folders[v].fileUuids;
    var rec := SyncedFile(newId, name, folder, existing, full, incoming, user, now);
    FileRecordLinked(db2, newId, rec);
    var db3 := db2.(files := db2.files[newId := rec], filePaths := db2.filePaths[full := newId]);
    assert Linked(db3) by {
      SameTreeLinked(PutFile(db2, newId, rec), db3);
    }
    var db4 := if folder in db3.folders then
      PutFolder(db3, folder, db3.folders[folder].(fileUuids := Without(db3.folders[folder].fileUuids, newId) + [newId]))
      else db3;
    if folder in db3.folders {
      RefileLastLinked(db3, folder, newId);
    }
    if fileId in db4.files {
      FileRecordLinked(db4, fileId, db4.files[fileId].(nextVersion := Some(newId)));
    }
    assert SyncTail(db1, fileId, existing, full, name, folder, newId, incoming, user, now)
      == if fileId in db4.files then PutFile(db4, fileId, db4.files[fileId].(nextVersion := Some(newId))) else db4;
  }

  /** Moving a file whose record names the folder to the end of that
      folder's list. */
  lemma RefileLastLinked(db: Db, folder: Uuid, y: Uuid)
    requires Linked(db) && folder in db.folders && y in db.files && db.files[y].folderUuid == folder
    ensures Linked(PutFolder(db, folder, db.folders[folder].(fileUuids := Without(db.folders[folder].fileUuids, y) + [y])))
  {
    var l := db.folders[folder].fileUuids;
    NoDupWithout(l, y);
    WithoutMembers(l, y, y);
    NoDupSnoc(Without(l, y), y);
    forall z | z in Without(l, y) + [y] && z in db.files ensures db.files[z].folderUuid == folder {
      WithoutMembers(l, y, z);
    }
    FileListLinked(db, folder, Without(l, y) + [y]);
  }

  lemma SyncAtLinked(db: Db, fileId: Uuid, incoming: FileMetadata, full: string, head: string, segs: seq<string>,
                     name: string, user: Principal, now: u64)
    requires fileId in db.files && PriorsOlder(db.files) && Valid(db) && Linked(db)
    ensures Linked(SyncAt(db, fileId, incoming, full, head, segs, name, user, now).1)
  {
    var b := db.(counter := db.counter + 1);
    var e := EnsureUnder(b, head, segs, incoming.storageLocation, user, now);
    SyncAtUnfolds(db, fileId, incoming, full, head, segs, name, e.0, e.1, user, now);
    EnsuredFresh(db, head, segs, incoming.storageLocation, user, now);
    SyncTailLinked(e.1, fileId, db.files[fileId], full, name, e.0, Uuid(db.counter), incoming, user, now);
  }

  /** The file half of the offline sync keeps the tree linked. */
  lemma SyncFileLinked(db: Db, fileId: Uuid, incoming: FileMetadata, user: Principal, now: u64)
    requires fileId in db.files && PriorsOlder(db.files)
    requires HasSep(SplitPath(Sanitize(incoming.fullFilePath)).0)
    requires Valid(db) && Linked(db)
    ensures Linked(SyncFile(db, fileId, incoming, user, now).1)
  {
    var full := Sanitize(incoming.fullFilePath);
    var parts := EnsureParts(SplitPath(full).0).value;
    assert SyncFile(db, fileId, incoming, user, now) == SyncAt(db, fileId, incoming, full, parts.0, Segments(parts.1), SplitPath(full).1, user, now);
    SyncAtLinked(db, fileId, incoming, full, parts.0, Segments(parts.1), SplitPath(full).1, user, now);
  }

  /** The folder half of the offline sync keeps the tree linked when the
      client sends the parent the record has. */
  lemma SyncFolderLinked(db: Db, folderId: Uuid, incoming: FolderMetadata, now: u64)
    requires folderId in db.folders && Linked(db)
    requires incoming.parentFolderUuid == db.folders[folderId].parentFolderUuid
    ensures Linked(SyncFolder(db, folderId, incoming, now).1)
  {
    SyncFolderEffect(db, folderId, incoming, now);
    SameTreeLinked(db, SyncFolder(db, folderId, incoming, now).1);
  }

  /** The folder sync breaks the tree when the client names as parent an
      existing folder that does not list this one: the parent pointer
      moves, no list does. */
  lemma SyncFolderUnlinks(db: Db, folderId: Uuid, incoming: FolderMetadata, now: u64, q: Uuid)
    requires folderId in db.folders && q in db.folders
    requires incoming.parentFolderUuid == Some(q) && folderId !in db.folders[q].subfolderUuids
    ensures !Tree(SyncFolder(db, folderId, incoming, now).1)
  {
    SyncFolderEffect(db, folderId, incoming, now);
    var d := SyncFolder(db, folderId, incoming, now).1;
    assert !ListedBy(d, folderId);
  }

  // ---------------------------------------------------------------------------
  // Renaming and deleting

  /** `rename_file` keeps the file's folder and every list. */
  lemma RenameFileLinked(db: Db, id: Uuid, newName: string, now: u64)
    requires Linked(db)
    ensures Linked(RenameFile(db, id, newName, now).1)
  {
    SameTreeLinked(db, RenameFile(db, id, newName, now).1);
  }

  /** The retitle and the path rewrite of rename_folder change names, paths
      and stamps only. */
  lemma RelocateSameTree(db: Db, id: Uuid, newName: string, now: u64, newPath: string)
    requires ChildrenYounger(db) && id in db.folders
    ensures SameTree(db, Relocate(db, id, newName, now, newPath))
  {
    RelocateShape(db, id, newName, now, newPath);
    RelocateRecord(db, id, newName, now, newPath);
  }

  /** rename_folder past its checks keeps the tree linked when its parent
      repair, if any, finds the folder's recorded parent: that parent lists
      it already and the repair adds nothing. */
  lemma RenameAtLinked(db: Db, id: Uuid, newName: string, now: u64, m: FolderMove, parentKey: string)
    requires ChildrenYounger(db) && id in db.folders && Linked(db)
    requires var r := RenameAt(db, id, newName, now, m, parentKey).1;
      m.parentPath != [] && parentKey in r.folderPaths ==>
        db.folders[id].parentFolderUuid == Some(r.folderPaths[parentKey])
    ensures Linked(RenameAt(db, id, newName, now, m, parentKey).1)
  {
    var db2 := Relocate(db, id, newName, now, m.newPath);
    RelocateSameTree(db, id, newName, now, m.newPath);
    SameTreeLinked(db, db2);
    if m.parentPath != [] && parentKey in db2.folderPaths {
      var q := db2.folderPaths[parentKey];
      assert ListedBy(db2, id);
      assert LinkChild(db2, q, id, true) == db2;
    }
  }

  /** The parent repair breaks the tree when the key it looks up names an
      existing folder other than the recorded parent: that folder lists the
      renamed one, which does not point back at it. */
  lemma RenameAtUnlinks(db: Db, id: Uuid, newName: string, now: u64, m: FolderMove, parentKey: string)
    requires ChildrenYounger(db) && id in db.folders && m.parentPath != []
    requires var r := RenameAt(db, id, newName, now, m, parentKey).1;
      && parentKey in r.folderPaths && r.folderPaths[parentKey] in db.folders
      && db.folders[id].parentFolderUuid != Some(r.folderPaths[parentKey])
    ensures !Tree(RenameAt(db, id, newName, now, m, parentKey).1)
  {
    var db2 := Relocate(db, id, newName, now, m.newPath);
    RelocateSameTree(db, id, newName, now, m.newPath);
    var q := db2.folderPaths[parentKey];
    var r := LinkChild(db2, q, id, true);
    assert RenameAt(db, id, newName, now, m, parentKey).1 == r;
    LinkChildLists(db2, q, id);
    assert !(q in r.folders && id in r.folders[q].subfolderUuids ==> r.folders[id].parentFolderUuid == Some(q));
  }

  /** Listing a child with the `contains` check leaves it listed and moves
      no parent pointer. */
  lemma LinkChildLists(db: Db, parent: Uuid, child: Uuid)
    requires parent in db.folders && child in db.folders
    ensures var r := LinkChild(db, parent, child, true);
      && child in r.folders[parent].subfolderUuids
      && r.folders[child].parentFolderUuid == db.folders[child].parentFolderUuid
  {
    var l := db.folders[parent].subfolderUuids;
    if child !in l {
      assert LinkChild(db, parent, child, true).folders == db.folders[parent := db.folders[parent].(subfolderUuids := l + [child])];
    }
  }

  /** `rename_folder` keeps the tree linked, as written and corrected, when
      its parent repair finds the recorded parent or nothing. */
  lemma RenameFolderLinked(db: Db, id: Uuid, newName: string, now: u64)
    requires ChildrenYounger(db) && Linked(db)
    ensures var t := RenameTarget(db, id, newName);
      var r := RenameFolder(db, id, newName, now).1;
      (t.Ok? && t.value.parentPath != [] && ParentKey(t.value) in r.folderPaths ==>
         db.folders[id].parentFolderUuid == Some(r.folderPaths[ParentKey(t.value)]))
      ==> Linked(r)
    ensures var t := RenameTarget(db, id, newName);
      var r := RenameFolderCorrected(db, id, newName, now).1;
      (t.Ok? && t.value.parentPath != [] && ParentKey(t.value) + "/" in r.folderPaths ==>
         db.folders[id].parentFolderUuid == Some(r.folderPaths[ParentKey(t.value) + "/"]))
      ==> Linked(r)
  {
    var t := RenameTarget(db, id, newName);
    if t.Ok? {
      var m := t.value;
      var r1 := RenameAt(db, id, newName, now, m, ParentKey(m)).1;
      if m.parentPath != [] && ParentKey(m) in r1.folderPaths ==>
           db.folders[id].parentFolderUuid == Some(r1.folderPaths[ParentKey(m)]) {
        RenameAtLinked(db, id, newName, now, m, ParentKey(m));
      }
      var r2 := RenameAt(db, id, newName, now, m, ParentKey(m) + "/").1;
      if m.parentPath != [] && ParentKey(m) + "/" in r2.folderPaths ==>
           db.folders[id].parentFolderUuid == Some(r2.folderPaths[ParentKey(m) + "/"]) {
        RenameAtLinked(db, id, newName, now, m, ParentKey(m) + "/");
      }
    }
  }

  /** A deletion keeps every folder with its parent and lists, and every
      surviving file in its folder. */
  lemma TrimsSameTree(a: Db, b: Db)
    requires Trims(a, b)
    ensures SameTree(a, b)
  {
    forall id | id in a.folders
      ensures b.folders[id].parentFolderUuid == a.folders[id].parentFolderUuid
      ensures b.folders[id].subfolderUuids == a.folders[id].subfolderUuids
      ensures b.folders[id].fileUuids == a.folders[id].fileUuids
    {
      assert Marked(a.folders[id], b.folders[id]);
    }
    forall y | y in b.files ensures b.files[y].folderUuid == a.files[y].folderUuid {
      assert Relinked(a.files[y], b.files[y]);
    }
  }

  /** `delete_file` keeps the tree linked. */
  lemma DeleteFileLinked(db: Db, id: Uuid)
    requires Linked(db)
    ensures Linked(DeleteFile(db, id).1)
  {
    TrimsSameTree(db, DeleteFile(db, id).1);
    SameTreeLinked(db, DeleteFile(db, id).1);
  }

  /** `delete_folder` keeps the tree linked, as written and corrected,
      whatever the outcome. */
  lemma DeleteTreeLinked(db: Db, x: Uuid, now: u64, lenient: bool)
    requires ChildrenYounger(db) && Linked(db)
    ensures Linked(DeleteTree(db, x, now, lenient).1)
  {
    TrimsSameTree(db, DeleteTree(db, x, now, lenient).1);
    SameTreeLinked(db, DeleteTree(db, x, now, lenient).1);
  }
}
