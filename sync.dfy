/**
 * The offline-sync merges: `upsert_cloud_file_with_local_sync`, which adds
 * the client's copy of a file as a new version, and
 * `upsert_cloud_folder_with_local_sync`, which overwrites a folder record
 * with the client's copy.
 */
module Sync {
  import opened Wrappers
  import opened Paths
  import opened Metadata
  import opened Tables
  import opened Folders
  import opened Upsert

  // ---------------------------------------------------------------------------
  // The prior-version chain

  /** Every prior link leads to an older id, so a walk along them ends. */
  predicate PriorsOlder(files: map<Uuid, FileMetadata>) {
    forall id :: id in files && files[id].priorVersion.Some? ==> files[id].priorVersion.value.k < id.k
  }

  /** The ids met walking back from `cur` along the prior links, stopping
      before the first id without a record. */
  ghost function ChainIds(files: map<Uuid, FileMetadata>, cur: Option<Uuid>): (c: set<Uuid>)
    requires PriorsOlder(files)
    ensures forall y :: y in c ==> y in files
    ensures cur.Some? && cur.value in files ==> cur.value in c
    decreases if cur.Some? then cur.value.k + 1 else 0
  {
    if cur.None? || cur.value !in files then {}
    else {cur.value} + ChainIds(files, files[cur.value].priorVersion)
  }

  /** The clean-up walk of the file sync: every id on the prior chain from
      `cur` dropped from the list, in turn. */
  function ChainStrip(files: map<Uuid, FileMetadata>, list: seq<Uuid>, cur: Option<Uuid>): (r: seq<Uuid>)
    requires PriorsOlder(files)
    ensures |r| <= |list|
    decreases if cur.Some? then cur.value.k + 1 else 0
  {
    if cur.None? || cur.value !in files then list
    else ChainStrip(files, Without(list, cur.value), files[cur.value].priorVersion)
  }

  /** The walk drops exactly the ids of the chain, every occurrence of
      them, and keeps every other id as often as it was listed. */
  lemma {:induction false} ChainStripCounts(files: map<Uuid, FileMetadata>, list: seq<Uuid>, cur: Option<Uuid>, y: Uuid)
    requires PriorsOlder(files)
    ensures multiset(ChainStrip(files, list, cur))[y] == if y in ChainIds(files, cur) then 0 else multiset(list)[y]
    decreases if cur.Some? then cur.value.k + 1 else 0
  {
    if cur.Some? && cur.value in files {
      ChainStripCounts(files, Without(list, cur.value), files[cur.value].priorVersion, y);
    }
  }

  /** The walk keeps the order of what it keeps: it only deletes. */
  lemma {:induction false} ChainStripAbsent(files: map<Uuid, FileMetadata>, list: seq<Uuid>, cur: Option<Uuid>)
    requires PriorsOlder(files)
    requires forall y :: y in list ==> y !in ChainIds(files, cur)
    ensures ChainStrip(files, list, cur) == list
    decreases if cur.Some? then cur.value.k + 1 else 0
  {
    if cur.Some? && cur.value in files {
      WithoutAbsent(list, cur.value);
      ChainStripAbsent(files, list, files[cur.value].priorVersion);
    }
  }

  // ---------------------------------------------------------------------------
  // upsert_cloud_file_with_local_sync

  /** The record the file sync writes for the client's copy. */
  function SyncedFile(id: Uuid, name: string, folder: Uuid, existing: FileMetadata, full: string,
                      incoming: FileMetadata, user: Principal, now: u64): FileMetadata
  {
    FileMetadata(id, name, folder, WrappingInc(existing.fileVersion), Some(existing.id), None,
                 Extension(name), full, [], user, incoming.createdDate, incoming.storageLocation,
                 incoming.fileSize, incoming.rawUrl, OrMs(incoming.lastChangedUnixMs, MsOf(now)),
                 incoming.deleted)
  }

  /** `upsert_cloud_file_with_local_sync`: the client's path is sanitized,
      split, and its folder part cut at its `::` as ensure_folder_structure
      cuts it.  The file must have a record (the source unwraps the lookup),
      the folder part of the client's sanitized path must hold `::`
      (ensure_folder_structure indexes past its parts otherwise), and prior
      links must lead to older ids (the clean-up walk need not end
      otherwise). */
  function SyncFile(db: Db, fileId: Uuid, incoming: FileMetadata, user: Principal, now: u64): (r: (Uuid, Db))
    requires fileId in db.files && PriorsOlder(db.files)
    requires HasSep(SplitPath(Sanitize(incoming.fullFilePath)).0)
    ensures r.0 == Uuid(db.counter) && r.1.counter > db.counter
  {
    var full := Sanitize(incoming.fullFilePath);
    var parts := EnsureParts(SplitPath(full).0).value;
    SyncAt(db, fileId, incoming, full, parts.0, Segments(parts.1), SplitPath(full).1, user, now)
  }

  /** The file sync on the sanitized path `full`, whose folder part is cut
      into `head` and the pieces `segs`, and whose file name is `name`.  The
      new id is drawn before the folders are ensured. */
  function SyncAt(db: Db, fileId: Uuid, incoming: FileMetadata, full: string, head: string, segs: seq<string>,
                  name: string, user: Principal, now: u64): (r: (Uuid, Db))
    requires fileId in db.files && PriorsOlder(db.files)
    ensures r.0 == Uuid(db.counter) && r.1.counter > db.counter
  {
    var e := EnsureUnder(db.(counter := db.counter + 1), head, segs, incoming.storageLocation, user, now);
    (Uuid(db.counter), SyncTail(e.1, fileId, db.files[fileId], full, name, e.0, Uuid(db.counter), incoming, user, now))
  }

  /** SyncAt read as its two halves, for a given result of ensuring the
      folder. */
  lemma SyncAtUnfolds(db: Db, fileId: Uuid, incoming: FileMetadata, full: string, head: string, segs: seq<string>,
                      name: string, folder: Uuid, db1: Db, user: Principal, now: u64)
    requires fileId in db.files && PriorsOlder(db.files)
    requires (folder, db1) == EnsureUnder(db.(counter := db.counter + 1), head, segs, incoming.storageLocation, user, now)
    ensures db1.files == db.files && db1.filePaths == db.filePaths
    ensures SyncAt(db, fileId, incoming, full, head, segs, name, user, now)
      == (Uuid(db.counter), SyncTail(db1, fileId, db.files[fileId], full, name, folder, Uuid(db.counter), incoming, user, now))
  {
  }

  /** What the file sync does once the folder is ensured. */
  function SyncTail(db1: Db, fileId: Uuid, existing: FileMetadata, full: string, name: string, folder: Uuid,
                    newId: Uuid, incoming: FileMetadata, user: Principal, now: u64): (r: Db)
    requires PriorsOlder(db1.files)
    ensures r.counter == db1.counter && r.folderPaths == db1.folderPaths && r.folders.Keys == db1.folders.Keys
  {
    var db2 := if folder in db1.folders then
      PutFolder(db1, folder, db1.folders[folder].(fileUuids := ChainStrip(db1.files, db1.folders[folder].fileUuids, Some(fileId))))
      else db1;
    var rec := SyncedFile(newId, name, folder, existing, full, incoming, user, now);
    var db3 := db2.(files := db2.files[newId := rec], filePaths := db2.filePaths[full := newId]);
    var db4 := if folder in db3.folders then
      PutFolder(db3, folder, db3.folders[folder].(fileUuids := Without(db3.folders[folder].fileUuids, newId) + [newId]))
      else db3;
    if fileId in db4.files then PutFile(db4, fileId, db4.files[fileId].(nextVersion := Some(newId))) else db4
  }

  /** The file tables of the tail: the new record and its path binding
      added, the synced file linked forward to it, nothing else changed. */
  lemma SyncTailFiles(db1: Db, fileId: Uuid, existing: FileMetadata, full: string, name: string, folder: Uuid,
                      newId: Uuid, incoming: FileMetadata, user: Principal, now: u64)
    requires PriorsOlder(db1.files) && fileId in db1.files && newId != fileId
    ensures var d := SyncTail(db1, fileId, existing, full, name, folder, newId, incoming, user, now);
      && d.files == db1.files[newId := SyncedFile(newId, name, folder, existing, full, incoming, user, now)]
                             [fileId := db1.files[fileId].(nextVersion := Some(newId))]
      && d.filePaths == db1.filePaths[full := newId]
  {
  }

  /** The folder lists of the tail: the target folder's list loses the
      prior chain and gains the new id at its end; no other list changes. */
  lemma SyncTailLists(db1: Db, fileId: Uuid, existing: FileMetadata, full: string, name: string, folder: Uuid,
                      newId: Uuid, incoming: FileMetadata, user: Principal, now: u64, id: Uuid)
    requires PriorsOlder(db1.files) && id in db1.folders && newId !in db1.files
    ensures var d := SyncTail(db1, fileId, existing, full, name, folder, newId, incoming, user, now);
      var before := db1.folders[id];
      && d.folders[id] == before.(fileUuids := d.folders[id].fileUuids)
      && (id != folder ==> d.folders[id] == before)
      && (id == folder && newId !in before.fileUuids ==>
            d.folders[id].fileUuids == ChainStrip(db1.files, before.fileUuids, Some(fileId)) + [newId])
  {
    if id == folder {
      SyncTailTarget(db1, fileId, existing, full, name, folder, newId, incoming, user, now);
    } else {
      SyncTailOther(db1, fileId, existing, full, name, folder, newId, incoming, user, now, id);
    }
  }

  /** The target folder's record after the tail differs only in its file
      list: the prior chain dropped and the new id appended. */
  lemma SyncTailTarget(db1: Db, fileId: Uuid, existing: FileMetadata, full: string, name: string, folder: Uuid,
                       newId: Uuid, incoming: FileMetadata, user: Principal, now: u64)
    requires PriorsOlder(db1.files) && folder in db1.folders && newId !in db1.files
    ensures var d := SyncTail(db1, fileId, existing, full, name, folder, newId, incoming, user, now);
      var before := db1.folders[folder];
      var s := ChainStrip(db1.files, before.fileUuids, Some(fileId));
      && d.folders[folder] == before.(fileUuids := Without(s, newId) + [newId])
      && (newId !in before.fileUuids ==> Without(s, newId) == s)
  {
    var s := ChainStrip(db1.files, db1.folders[folder].fileUuids, Some(fileId));
    if newId !in db1.folders[folder].fileUuids {
      assert newId !in s by {
        ChainStripCounts(db1.files, db1.folders[folder].fileUuids, Some(fileId), newId);
        assert multiset(s)[newId] == 0;
      }
      WithoutAbsent(s, newId);
    }
  }

  /** The tail leaves every other folder's record alone. */
  lemma SyncTailOther(db1: Db, fileId: Uuid, existing: FileMetadata, full: string, name: string, folder: Uuid,
                      newId: Uuid, incoming: FileMetadata, user: Principal, now: u64, id: Uuid)
    requires PriorsOlder(db1.files) && id in db1.folders && id != folder
    ensures SyncTail(db1, fileId, existing, full, name, folder, newId, incoming, user, now).folders[id] == db1.folders[id]
  {
  }

  /** The prior links of a valid table lead to older ids. */
  lemma ValidPriorsOlder(db: Db)
    requires Valid(db)
    ensures PriorsOlder(db.files)
  {
  }

  /** The file tables after the sync: the new record (see SyncedFile) under
      the next id drawn, which no file held, with the client's sanitized
      path bound to it; the synced file now points forward to it; every
      other file record is kept and every other path stays bound as
      before, so the synced file's old path is never unbound. */
  lemma SyncFileEffect(db: Db, fileId: Uuid, incoming: FileMetadata, full: string, head: string, segs: seq<string>, name: string,
                       user: Principal, now: u64)
    requires Valid(db) && fileId in db.files
    ensures var r := SyncAt(db, fileId, incoming, full, head, segs, name, user, now);
      var id := r.0;
      && id !in db.files
      && r.1.files == db.files[id := SyncedFile(id, name, FolderFor(db, head, segs, incoming.storageLocation, user, now),
                                                  db.files[fileId], full, incoming, user, now)]
                              [fileId := db.files[fileId].(nextVersion := Some(id))]
      && r.1.filePaths == db.filePaths[full := id]
  {
    FreshId(db);
    var e := EnsureUnder(db.(counter := db.counter + 1), head, segs, incoming.storageLocation, user, now);
    SyncAtUnfolds(db, fileId, incoming, full, head, segs, name, e.0, e.1, user, now);
    SyncTailFiles(e.1, fileId, db.files[fileId], full, name, e.0, Uuid(db.counter), incoming, user, now);
  }

  /** The new record is one version above the synced file (wrapping at
      2^32), points back to it and forward to nothing, has no tags and the
      caller as owner, the client's dates, place, size, url and deleted
      flag, the clock merged into the client's stamp, and the name and
      extension of the path it is filed under. */
  lemma SyncedFileFields(db: Db, fileId: Uuid, id: Uuid, name: string, folder: Uuid, full: string,
                         incoming: FileMetadata, user: Principal, now: u64)
    requires Valid(db) && fileId in db.files
    ensures var f := SyncedFile(id, name, folder, db.files[fileId], full, incoming, user, now);
      && f.id == id && f.fileVersion == (db.files[fileId].fileVersion + 1) % 0x1_0000_0000
      && f.priorVersion == Some(fileId) && f.nextVersion == None
      && f.extension == Extension(name) && (('.' !in name) ==> f.extension == name)
      && f.tags == [] && f.owner == user && f.fullFilePath == full && f.folderUuid == folder
      && f.originalFileName == name && f.createdDate == incoming.createdDate
      && f.storageLocation == incoming.storageLocation && f.fileSize == incoming.fileSize
      && f.rawUrl == incoming.rawUrl && f.deleted == incoming.deleted
      && f.lastChangedUnixMs == OrMs(incoming.lastChangedUnixMs, MsOf(now))
  {
  }

  /** The folder the copy is filed in keeps what it listed but for the
      synced file's prior chain, every occurrence of which is dropped, and
      lists the new id once, at its end; no other folder's file list
      changes. */
  lemma SyncFileList(db: Db, fileId: Uuid, incoming: FileMetadata, full: string, head: string, segs: seq<string>, name: string,
                     user: Principal, now: u64, id: Uuid)
    requires Valid(db) && fileId in db.files && ProperSegments(segs)
    ensures var folder := FolderFor(db, head, segs, incoming.storageLocation, user, now);
      var r := SyncAt(db, fileId, incoming, full, head, segs, name, user, now);
      && folder in r.1.folders
      && var before := if folder in db.folders then db.folders[folder].fileUuids else [];
      && r.1.folders[folder].fileUuids == ChainStrip(db.files, before, Some(fileId)) + [r.0]
      && (id in db.folders && id != folder ==> id in r.1.folders && r.1.folders[id].fileUuids == db.folders[id].fileUuids)
  {
    var folder, db1 := EnsuredLists(db, head, segs, incoming.storageLocation, user, now, id);
    SyncAtUnfolds(db, fileId, incoming, full, head, segs, name, folder, db1, user, now);
    ValidPriorsOlder(db);
    SyncTailListsAfter(db, db1, fileId, full, name, folder, Uuid(db.counter), incoming, user, now, id);
  }

  /** SyncFileList for a given result of ensuring the folder: the folder
      exists and lists what it listed before, every other folder too. */
  lemma SyncTailListsAfter(db: Db, db1: Db, fileId: Uuid, full: string, name: string, folder: Uuid,
                           newId: Uuid, incoming: FileMetadata, user: Principal, now: u64, id: Uuid)
    requires PriorsOlder(db.files) && db1.files == db.files && fileId in db.files
    requires folder in db1.folders
    requires db1.folders[folder].fileUuids == if folder in db.folders then db.folders[folder].fileUuids else []
    requires newId !in db.files && newId !in db1.folders[folder].fileUuids
    requires id in db.folders && id != folder ==> id in db1.folders && db1.folders[id].fileUuids == db.folders[id].fileUuids
    ensures var d := SyncTail(db1, fileId, db.files[fileId], full, name, folder, newId, incoming, user, now);
      && folder in d.folders
      && var before := if folder in db.folders then db.folders[folder].fileUuids else [];
      && d.folders[folder].fileUuids == ChainStrip(db.files, before, Some(fileId)) + [newId]
      && (id in db.folders && id != folder ==> id in d.folders && d.folders[id].fileUuids == db.folders[id].fileUuids)
  {
    SyncTailTarget(db1, fileId, db.files[fileId], full, name, folder, newId, incoming, user, now);
    if id in db.folders && id != folder {
      SyncTailOther(db1, fileId, db.files[fileId], full, name, folder, newId, incoming, user, now, id);
    }
  }

  /** The tail keeps the file invariants when the new id is above every
      stored file id and the synced file. */
  lemma SyncTailFileSide(db1: Db, fileId: Uuid, existing: FileMetadata, full: string, name: string, folder: Uuid,
                         newId: Uuid, incoming: FileMetadata, user: Principal, now: u64)
    requires FileSide(db1) && fileId in db1.files && existing == db1.files[fileId] && newId.k < db1.counter
    requires forall id :: id in db1.files ==> id.k < newId.k
    ensures PriorsOlder(db1.files)
    ensures FileSide(SyncTail(db1, fileId, existing, full, name, folder, newId, incoming, user, now))
  {
    var d := SyncTail(db1, fileId, existing, full, name, folder, newId, incoming, user, now);
    SyncTailFiles(db1, fileId, existing, full, name, folder, newId, incoming, user, now);
    LinkedVersionFileSide(db1, d, fileId, newId, SyncedFile(newId, name, folder, existing, full, incoming, user, now));
  }

  /** Filing a record under a fresh id above every stored one, with its path
      bound to it and linked back from the file it succeeds, keeps the file
      invariants. */
  lemma LinkedVersionFileSide(db1: Db, d: Db, fileId: Uuid, newId: Uuid, rec: FileMetadata)
    requires FileSide(db1) && fileId in db1.files && newId.k < db1.counter
    requires forall id :: id in db1.files ==> id.k < newId.k
    requires rec.id == newId && rec.nextVersion == None && rec.priorVersion == Some(fileId)
    requires d.counter == db1.counter
    requires d.files == db1.files[newId := rec][fileId := db1.files[fileId].(nextVersion := Some(newId))]
    requires d.filePaths == db1.filePaths[rec.fullFilePath := newId]
    ensures FileSide(d)
  {
    forall p | p in d.filePaths
      ensures d.filePaths[p] in d.files && d.files[d.filePaths[p]].fullFilePath == p
    {
      if p != rec.fullFilePath {
        assert d.filePaths[p] == db1.filePaths[p];
      }
    }
  }

  /** The tail keeps the folder invariants and children younger than their
      parents: it only drops ids from a file list and files one below the
      counter. */
  lemma SyncTailFolderSide(db1: Db, fileId: Uuid, existing: FileMetadata, full: string, name: string, folder: Uuid,
                           newId: Uuid, incoming: FileMetadata, user: Principal, now: u64)
    requires FolderSide(db1) && PriorsOlder(db1.files) && newId.k < db1.counter && newId !in db1.files
    ensures var d := SyncTail(db1, fileId, existing, full, name, folder, newId, incoming, user, now);
      FolderSide(d) && (ChildrenYounger(db1) ==> ChildrenYounger(d))
  {
    var d := SyncTail(db1, fileId, existing, full, name, folder, newId, incoming, user, now);
    forall id | id in d.folders
      ensures d.folders[id] == db1.folders[id].(fileUuids := d.folders[id].fileUuids)
      ensures forall c :: c in d.folders[id].fileUuids ==> c.k < d.counter
    {
      SyncTailLists(db1, fileId, existing, full, name, folder, newId, incoming, user, now, id);
      if id == folder {
        var before := db1.folders[id].fileUuids;
        var s := ChainStrip(db1.files, before, Some(fileId));
        forall c | c in s ensures c in before {
          ChainStripCounts(db1.files, before, Some(fileId), c);
          assert multiset(s)[c] > 0;
        }
        assert d.folders[id].fileUuids == Without(s, newId) + [newId];
        forall c | c in Without(s, newId) ensures c in s {
          WithoutMembers(s, newId, c);
        }
      }
    }
  }

  /** The file sync keeps the invariants and keeps children younger than
      their parents. */
  lemma SyncFileValid(db: Db, fileId: Uuid, incoming: FileMetadata, full: string, head: string, segs: seq<string>, name: string,
                      user: Principal, now: u64)
    requires Valid(db) && fileId in db.files
    ensures var d := SyncAt(db, fileId, incoming, full, head, segs, name, user, now).1;
      Valid(d) && (ChildrenYounger(db) ==> ChildrenYounger(d))
  {
    var newId := Uuid(db.counter);
    var db0 := db.(counter := db.counter + 1);
    var e := EnsureUnder(db0, head, segs, incoming.storageLocation, user, now);
    var folder, db1 := e.0, e.1;
    SyncAtUnfolds(db, fileId, incoming, full, head, segs, name, folder, db1, user, now);
    FolderSideFrame(db, db0);
    FileSideFrame(db, db0);
    if ChildrenYounger(db) {
      ChildrenYoungerBump(db, db0);
    }
    EnsureUnderValid(db0, head, segs, incoming.storageLocation, user, now);
    SyncTailFileSide(db1, fileId, db.files[fileId], full, name, folder, newId, incoming, user, now);
    SyncTailFolderSide(db1, fileId, db.files[fileId], full, name, folder, newId, incoming, user, now);
  }

  // ---------------------------------------------------------------------------
  // upsert_cloud_folder_with_local_sync

  /** `upsert_cloud_folder_with_local_sync`: the client's name, tags, place,
      path, parent and deleted flag copied over, the clock merged into the
      client's stamp.  The folder must have a record (the source unwraps the
      lookup). */
  function SyncFolder(db: Db, folderId: Uuid, incoming: FolderMetadata, now: u64): (r: (Uuid, Db))
    requires folderId in db.folders
    ensures r.0 == folderId
  {
    var f := db.folders[folderId];
    var g := f.(originalFolderName := incoming.originalFolderName, tags := incoming.tags,
                storageLocation := incoming.storageLocation, fullFolderPath := incoming.fullFolderPath,
                parentFolderUuid := incoming.parentFolderUuid, deleted := incoming.deleted,
                lastChangedUnixMs := OrMs(incoming.lastChangedUnixMs, MsOf(now)));
    (folderId, PutFolder(db, folderId, g))
  }

  /** Only the folder's record changes, and in it only the copied fields and
      the stamp: its id, child lists, owner and creation date are kept, and
      no index entry moves. */
  lemma SyncFolderEffect(db: Db, folderId: Uuid, incoming: FolderMetadata, now: u64)
    requires folderId in db.folders
    ensures var d := SyncFolder(db, folderId, incoming, now).1;
      var f := db.folders[folderId];
      var g := d.folders[folderId];
      && d.files == db.files && d.folderPaths == db.folderPaths && d.filePaths == db.filePaths
      && d.counter == db.counter && d.folders.Keys == db.folders.Keys
      && (forall id :: id in db.folders && id != folderId ==> d.folders[id] == db.folders[id])
      && g.id == f.id && g.subfolderUuids == f.subfolderUuids && g.fileUuids == f.fileUuids
      && g.owner == f.owner && g.createdDate == f.createdDate
      && g.originalFolderName == incoming.originalFolderName && g.tags == incoming.tags
      && g.storageLocation == incoming.storageLocation && g.fullFolderPath == incoming.fullFolderPath
      && g.parentFolderUuid == incoming.parentFolderUuid && g.deleted == incoming.deleted
      && g.lastChangedUnixMs == OrMs(incoming.lastChangedUnixMs, MsOf(now))
  {
  }

  /** The folder sync keeps the invariants and children younger than their
      parents; the folder index keeps agreeing with the records as long as
      the client's path is the stored one (a different path leaves the old
      key bound to the folder). */
  lemma SyncFolderValid(db: Db, folderId: Uuid, incoming: FolderMetadata, now: u64)
    requires folderId in db.folders
    ensures var d := SyncFolder(db, folderId, incoming, now).1;
      && (Valid(db) ==> Valid(d))
      && (ChildrenYounger(db) ==> ChildrenYounger(d))
      && (FolderIndexAgrees(db) && incoming.fullFolderPath == db.folders[folderId].fullFolderPath ==>
            FolderIndexAgrees(d))
  {
  }

  /** A client path that differs from the stored one leaves the folder
      index out of step with the record: the stored key still names the
      folder, whose record now carries another path. */
  lemma SyncFolderStaleKey(db: Db, folderId: Uuid, incoming: FolderMetadata, now: u64)
    requires folderId in db.folders
    requires db.folders[folderId].fullFolderPath in db.folderPaths
    requires db.folderPaths[db.folders[folderId].fullFolderPath] == folderId
    requires incoming.fullFolderPath != db.folders[folderId].fullFolderPath
    ensures !FolderIndexAgrees(SyncFolder(db, folderId, incoming, now).1)
  {
    var p := db.folders[folderId].fullFolderPath;
    var d := SyncFolder(db, folderId, incoming, now).1;
    assert d.folders[d.folderPaths[p]].fullFolderPath != p;
  }
}
