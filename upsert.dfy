/**
 * `update_folder_file_uuids` and `upsert_file_to_hash_tables`: adding a new
 * version of a file at a path, with the prior/next version links and the
 * containing folder's file list kept up to date.
 */
module Upsert {
  import opened Wrappers
  import opened Paths
  import opened Metadata
  import opened Tables
  import opened Folders

  /** `update_folder_file_uuids`: add `file` to the folder's list unless it
      is there already, or drop every occurrence of it; nothing happens for
      a folder without a record. */
  function UpdateFolderFileUuids(db: Db, folder: Uuid, file: Uuid, isAdd: bool): (r: Db)
    ensures r.files == db.files && r.filePaths == db.filePaths && r.folderPaths == db.folderPaths
    ensures r.counter == db.counter && r.folders.Keys == db.folders.Keys
  {
    if folder !in db.folders then db
    else
      var f := db.folders[folder];
      if isAdd then
        if file in f.fileUuids then db
        else PutFolder(db, folder, f.(fileUuids := f.fileUuids + [file]))
      else PutFolder(db, folder, f.(fileUuids := Without(f.fileUuids, file)))
  }

  /** Adding puts the file in the list exactly once if it was absent and
      leaves the list as it was otherwise; removing drops it and keeps every
      other entry, in number.  No other record and no other field changes. */
  lemma UpdateFolderFileUuidsEffect(db: Db, folder: Uuid, file: Uuid, isAdd: bool, id: Uuid)
    requires id in db.folders
    ensures var d := UpdateFolderFileUuids(db, folder, file, isAdd);
      var before := db.folders[id].fileUuids;
      var after := d.folders[id].fileUuids;
      && d.folders[id] == db.folders[id].(fileUuids := after)
      && (id != folder ==> after == before)
      && (id == folder && isAdd ==>
            file in after && multiset(after) == multiset(before) + (if file in before then multiset{} else multiset{file}))
      && (id == folder && !isAdd ==>
            file !in after && multiset(after) == multiset(before)[file := 0])
  {
    if id == folder && !isAdd {
      WithoutMembers(db.folders[id].fileUuids, file, file);
    }
  }

  // ---------------------------------------------------------------------------
  // upsert_file_to_hash_tables

  /** The id a path is bound to in the file index, if any. */
  function Bound(db: Db, path: string): (r: Option<Uuid>)
    ensures r.Some? <==> path in db.filePaths
    ensures r.Some? ==> r.value == db.filePaths[path]
  {
    if path in db.filePaths then Some(db.filePaths[path]) else None
  }

  /** After the write, `path` looks up the record of `id`, and that record
      carries `path`. */
  predicate Upserted(db: Db, path: string, id: Uuid) {
    path in db.filePaths && db.filePaths[path] == id && id in db.files && db.files[id].fullFilePath == path
  }

  /** The record upsert_file_to_hash_tables writes for a new version. */
  function NewVersion(id: Uuid, name: string, folder: Uuid, version: u32, prior: Option<Uuid>, path: string,
                      user: Principal, now: u64, loc: StorageLocation): FileMetadata
  {
    FileMetadata(id, name, folder, version, prior, None, Extension(name), path, [], user, now, loc, 0, [], MsOf(now), false)
  }

  /** `upsert_file_to_hash_tables`: the path is sanitized, split into its
      folder part and file name, and the folder part cut at its `::` as
      ensure_folder_structure cuts it.  The folder part must hold `::` (the
      source indexes past the end of its parts otherwise), and a path that
      is bound must name a record (the source unwraps the lookup). */
  function UpsertFile(db: Db, filePath: string, loc: StorageLocation, user: Principal, now: u64): (r: (Uuid, Db))
    requires HasSep(SplitPath(Sanitize(filePath)).0)
    requires Sanitize(filePath) in db.filePaths ==> db.filePaths[Sanitize(filePath)] in db.files
    ensures r.0 == Uuid(db.counter) && r.1.counter > db.counter
    ensures Upserted(r.1, Sanitize(filePath), r.0)
  {
    var full := Sanitize(filePath);
    var parts := EnsureParts(SplitPath(full).0).value;
    UpsertAt(db, full, parts.0, Segments(parts.1), SplitPath(full).1, loc, user, now)
  }

  /** upsert_file_to_hash_tables on the sanitized path `full`, whose folder
      part is cut into `head` and the pieces `segs`, and whose file name is
      `name`.  The new id is drawn before the folders are ensured. */
  function UpsertAt(db: Db, full: string, head: string, segs: seq<string>, name: string,
                    loc: StorageLocation, user: Principal, now: u64): (r: (Uuid, Db))
    requires full in db.filePaths ==> db.filePaths[full] in db.files
    ensures r.0 == Uuid(db.counter) && r.1.counter > db.counter
    ensures Upserted(r.1, full, r.0)
  {
    var e := EnsureUnder(db.(counter := db.counter + 1), head, segs, loc, user, now);
    (Uuid(db.counter), UpsertTail(e.1, full, name, e.0, Uuid(db.counter), loc, user, now))
  }

  /** UpsertAt read as its two halves, for a given result of ensuring the
      folder. */
  lemma UpsertAtUnfolds(db: Db, full: string, head: string, segs: seq<string>, name: string, folder: Uuid, db1: Db,
                        loc: StorageLocation, user: Principal, now: u64)
    requires (folder, db1) == EnsureUnder(db.(counter := db.counter + 1), head, segs, loc, user, now)
    requires full in db.filePaths ==> db.filePaths[full] in db.files
    ensures db1.files == db.files && db1.filePaths == db.filePaths
    ensures UpsertAt(db, full, head, segs, name, loc, user, now)
      == (Uuid(db.counter), UpsertTail(db1, full, name, folder, Uuid(db.counter), loc, user, now))
  {
  }

  /** What upsert_file_to_hash_tables does once the folder is ensured:
      write the record, bind the path, file the new id, link the version it
      replaces forward and unfile that one. */
  function UpsertTail(db1: Db, full: string, name: string, folder: Uuid, newId: Uuid,
                      loc: StorageLocation, user: Principal, now: u64): (r: Db)
    requires full in db1.filePaths ==> db1.filePaths[full] in db1.files
    ensures Upserted(r, full, newId)
    ensures r.counter == db1.counter && r.folderPaths == db1.folderPaths && r.folders.Keys == db1.folders.Keys
  {
    var existing := Bound(db1, full);
    var version := if existing.Some? then WrappingInc(db1.files[existing.value].fileVersion) else 1;
    var f := NewVersion(newId, name, folder, version, existing, full, user, now, loc);
    var db2 := db1.(files := db1.files[newId := f], filePaths := db1.filePaths[full := newId]);
    var db3 := UpdateFolderFileUuids(db2, folder, newId, true);
    if existing.None? then db3
    else
      var prev := existing.value;
      var db5 := if prev in db3.files then PutFile(db3, prev, db3.files[prev].(nextVersion := Some(newId))) else db3;
      UpdateFolderFileUuids(db5, folder, prev, false)
  }

  /** A folder's file list after filing `id` as the version replacing
      `prev`: `id` exactly once, `prev` no more, every other entry as before. */
  predicate Refiled(before: seq<Uuid>, after: seq<Uuid>, prev: Option<Uuid>, id: Uuid) {
    && multiset(after)[id] == 1
    && (prev.Some? ==> prev.value !in after)
    && multiset(after) == (if prev.Some? then multiset(before)[prev.value := 0] else multiset(before)) + multiset{id}
  }

  /** The list bookkeeping of the tail, for a new id the folder does not
      list yet. */
  lemma UpsertTailList(db1: Db, full: string, name: string, folder: Uuid, newId: Uuid,
                       loc: StorageLocation, user: Principal, now: u64)
    requires full in db1.filePaths ==> db1.filePaths[full] in db1.files
    requires folder in db1.folders && newId !in db1.folders[folder].fileUuids
    requires Bound(db1, full) != Some(newId)
    ensures var prev := Bound(db1, full);
      var before := db1.folders[folder].fileUuids;
      var d := UpsertTail(db1, full, name, folder, newId, loc, user, now);
      folder in d.folders && Refiled(before, d.folders[folder].fileUuids, prev, newId)
  {
    var existing := Bound(db1, full);
    var version := if existing.Some? then WrappingInc(db1.files[existing.value].fileVersion) else 1;
    var f := NewVersion(newId, name, folder, version, existing, full, user, now, loc);
    var db2 := db1.(files := db1.files[newId := f], filePaths := db1.filePaths[full := newId]);
    UpdateFolderFileUuidsEffect(db2, folder, newId, true, folder);
    var db3 := UpdateFolderFileUuids(db2, folder, newId, true);
    var l3 := db3.folders[folder].fileUuids;
    assert multiset(l3) == multiset(db1.folders[folder].fileUuids) + multiset{newId};
    if existing.Some? {
      var prev := existing.value;
      var db5 := if prev in db3.files then PutFile(db3, prev, db3.files[prev].(nextVersion := Some(newId))) else db3;
      assert db5.folders == db3.folders;
      UpdateFolderFileUuidsEffect(db5, folder, prev, false, folder);
      var d := UpdateFolderFileUuids(db5, folder, prev, false);
      assert UpsertTail(db1, full, name, folder, newId, loc, user, now) == d;
      RefiledDropped(db1.folders[folder].fileUuids, l3, d.folders[folder].fileUuids, prev, newId);
    }
  }

  /** Filing `id` and then unfiling `prev` leaves a list refiled. */
  lemma RefiledDropped(before: seq<Uuid>, mid: seq<Uuid>, after: seq<Uuid>, prev: Uuid, id: Uuid)
    requires prev != id && id !in before
    requires multiset(mid) == multiset(before) + multiset{id}
    requires prev !in after && multiset(after) == multiset(mid)[prev := 0]
    ensures Refiled(before, after, Some(prev), id)
  {
    assert multiset(mid)[prev := 0] == multiset(before)[prev := 0] + multiset{id};
  }

  /** The folder a new version is filed in: the one ensure_folder_structure
      returns for `head` and `segs` once the new id is drawn. */
  function FolderFor(db: Db, head: string, segs: seq<string>, loc: StorageLocation, user: Principal, now: u64): Uuid
  {
    EnsureUnder(db.(counter := db.counter + 1), head, segs, loc, user, now).0
  }

  /** The new record written by the tail, for a new id without one. */
  lemma UpsertTailRecord(db1: Db, full: string, name: string, folder: Uuid, newId: Uuid,
                         loc: StorageLocation, user: Principal, now: u64)
    requires full in db1.filePaths ==> db1.filePaths[full] in db1.files
    requires Bound(db1, full) != Some(newId)
    ensures var prev := Bound(db1, full);
      var d := UpsertTail(db1, full, name, folder, newId, loc, user, now);
      && newId in d.files
      && d.files[newId] == NewVersion(newId, name, folder,
           if prev.Some? then WrappingInc(db1.files[prev.value].fileVersion) else 1, prev, full, user, now, loc)
      && full in d.filePaths && d.filePaths[full] == newId
  {
  }

  /** The new record: its id is the next one drawn, it is version 1 of a
      fresh path and one more (wrapping at 2^32) than the version it
      replaces otherwise, points back to that version and forward to
      nothing, carries the name after the last `/` and that name's
      extension, and the file index binds the path to it. */
  lemma UpsertNewRecord(db: Db, full: string, head: string, segs: seq<string>, name: string, loc: StorageLocation, user: Principal, now: u64)
    requires Valid(db)
    ensures var prev := Bound(db, full);
      var r := UpsertAt(db, full, head, segs, name, loc, user, now);
      var id := r.0;
      var d := r.1;
      && id !in db.files && id in d.files
      && var f := d.files[id];
      && f.id == id
      && f.fileVersion == (if prev.Some? then WrappingInc(db.files[prev.value].fileVersion) else 1)
      && f.priorVersion == prev && f.nextVersion.None?
      && f.originalFileName == name
      && f.extension == Extension(f.originalFileName)
      && f.fullFilePath == full && f.folderUuid == FolderFor(db, head, segs, loc, user, now)
      && f.owner == user && f.tags == [] && f.fileSize == 0 && !f.deleted
      && full in d.filePaths && d.filePaths[full] == id
  {
    FreshId(db);
    var e := EnsureUnder(db.(counter := db.counter + 1), head, segs, loc, user, now);
    UpsertAtUnfolds(db, full, head, segs, name, e.0, e.1, loc, user, now);
    UpsertTailRecord(e.1, full, name, e.0, Uuid(db.counter), loc, user, now);
  }

  /** The forward link of the tail, for a new id without a record. */
  lemma UpsertTailLinks(db1: Db, full: string, name: string, folder: Uuid, newId: Uuid,
                        loc: StorageLocation, user: Principal, now: u64, other: Uuid)
    requires full in db1.filePaths ==> db1.filePaths[full] in db1.files
    requires newId !in db1.files
    ensures var prev := Bound(db1, full);
      var d := UpsertTail(db1, full, name, folder, newId, loc, user, now);
      && (prev.Some? ==> prev.value in d.files && d.files[prev.value] == db1.files[prev.value].(nextVersion := Some(newId)))
      && (other in db1.files && prev != Some(other) ==> other in d.files && d.files[other] == db1.files[other])
  {
  }

  /** The version it replaces now points forward to the new one; every
      other file record is as it was. */
  lemma UpsertLinksPrior(db: Db, full: string, head: string, segs: seq<string>, name: string, loc: StorageLocation, user: Principal, now: u64, other: Uuid)
    requires Valid(db)
    ensures var prev := Bound(db, full);
      var r := UpsertAt(db, full, head, segs, name, loc, user, now);
      && (prev.Some? ==> prev.value in r.1.files && r.1.files[prev.value] == db.files[prev.value].(nextVersion := Some(r.0)))
      && (other in db.files && prev != Some(other) ==> other in r.1.files && r.1.files[other] == db.files[other])
  {
    FreshId(db);
    var e := EnsureUnder(db.(counter := db.counter + 1), head, segs, loc, user, now);
    UpsertAtUnfolds(db, full, head, segs, name, e.0, e.1, loc, user, now);
    UpsertTailLinks(e.1, full, name, e.0, Uuid(db.counter), loc, user, now, other);
  }

  /** The tail keeps the file invariants when the new id is above every
      stored file id and the version it replaces. */
  lemma UpsertTailFileSide(db1: Db, full: string, name: string, folder: Uuid, newId: Uuid,
                           loc: StorageLocation, user: Principal, now: u64)
    requires FileSide(db1) && newId.k < db1.counter
    requires forall id :: id in db1.files ==> id.k < newId.k
    ensures FileSide(UpsertTail(db1, full, name, folder, newId, loc, user, now))
  {
    var d := UpsertTail(db1, full, name, folder, newId, loc, user, now);
    var prev := Bound(db1, full);
    forall p | p in d.filePaths
      ensures d.filePaths[p] in d.files && d.files[d.filePaths[p]].fullFilePath == p
    {
      if p != full {
        assert d.filePaths[p] == db1.filePaths[p];
      }
    }
    forall id | id in d.files
      ensures id.k < d.counter && d.files[id].id == id
      ensures d.files[id].nextVersion.Some? ==> d.files[id].nextVersion.value.k < d.counter
      ensures d.files[id].priorVersion.Some? ==> d.files[id].priorVersion.value.k < id.k
      ensures d.files[id].nextVersion.Some? ==> d.files[id].nextVersion.value.k > id.k
    {
      if id != newId && Some(id) != prev {
        assert d.files[id] == db1.files[id];
      }
    }
  }

  /** The tail keeps the folder invariants and children younger than their
      parents: it only files and unfiles ids below the counter. */
  lemma UpsertTailFolderSide(db1: Db, full: string, name: string, folder: Uuid, newId: Uuid,
                             loc: StorageLocation, user: Principal, now: u64)
    requires FolderSide(db1) && newId.k < db1.counter
    requires full in db1.filePaths ==> db1.filePaths[full] in db1.files
    ensures var d := UpsertTail(db1, full, name, folder, newId, loc, user, now);
      FolderSide(d) && (ChildrenYounger(db1) ==> ChildrenYounger(d))
  {
    var d := UpsertTail(db1, full, name, folder, newId, loc, user, now);
    forall id | id in d.folders
      ensures d.folders[id] == db1.folders[id].(fileUuids := d.folders[id].fileUuids)
      ensures forall c :: c in d.folders[id].fileUuids ==> c.k < d.counter
    {
      UpsertTailEntry(db1, full, name, folder, newId, loc, user, now, id);
    }
    FileListsOnly(db1, d);
  }

  /** The tail changes a folder's record only in its file list, and lists
      nothing there but what it listed and the new id. */
  lemma UpsertTailEntry(db1: Db, full: string, name: string, folder: Uuid, newId: Uuid,
                        loc: StorageLocation, user: Principal, now: u64, id: Uuid)
    requires full in db1.filePaths ==> db1.filePaths[full] in db1.files
    requires id in db1.folders
    ensures var d := UpsertTail(db1, full, name, folder, newId, loc, user, now);
      && id in d.folders
      && d.folders[id] == db1.folders[id].(fileUuids := d.folders[id].fileUuids)
      && forall c :: c in d.folders[id].fileUuids ==> c in db1.folders[id].fileUuids || c == newId
  {
    var d := UpsertTail(db1, full, name, folder, newId, loc, user, now);
    var prev := Bound(db1, full);
    var version := if prev.Some? then WrappingInc(db1.files[prev.value].fileVersion) else 1;
    var f := NewVersion(newId, name, folder, version, prev, full, user, now, loc);
    var db2 := db1.(files := db1.files[newId := f], filePaths := db1.filePaths[full := newId]);
    var db3 := UpdateFolderFileUuids(db2, folder, newId, true);
    UpdateFolderFileUuidsEffect(db2, folder, newId, true, id);
    if prev.Some? {
      var db5 := if prev.value in db3.files then PutFile(db3, prev.value, db3.files[prev.value].(nextVersion := Some(newId))) else db3;
      UpdateFolderFileUuidsEffect(db5, folder, prev.value, false, id);
    }
    forall c | c in d.folders[id].fileUuids
      ensures c in db1.folders[id].fileUuids || c == newId
    {
      assert multiset(d.folders[id].fileUuids)[c] > 0;
    }
  }

  /** upsert_file_to_hash_tables keeps the invariants and keeps children
      younger than their parents. */
  lemma UpsertValid(db: Db, full: string, head: string, segs: seq<string>, name: string, loc: StorageLocation, user: Principal, now: u64)
    requires Valid(db)
    ensures var d := UpsertAt(db, full, head, segs, name, loc, user, now).1;
      Valid(d) && (ChildrenYounger(db) ==> ChildrenYounger(d))
  {
    var newId := Uuid(db.counter);
    var e := EnsureUnder(db.(counter := db.counter + 1), head, segs, loc, user, now);
    UpsertAtUnfolds(db, full, head, segs, name, e.0, e.1, loc, user, now);
    EnsuredValid(db, head, segs, loc, user, now);
    UpsertTailValid(e.1, full, name, e.0, newId, loc, user, now);
  }

  /** Ensuring the folder after drawing the next id keeps the invariants,
      keeps children younger and leaves every file id older than the
      drawn one. */
  lemma EnsuredValid(db: Db, head: string, segs: seq<string>, loc: StorageLocation, user: Principal, now: u64)
    requires Valid(db)
    ensures var d := EnsureUnder(db.(counter := db.counter + 1), head, segs, loc, user, now).1;
      && Valid(d) && db.counter < d.counter && (ChildrenYounger(db) ==> ChildrenYounger(d))
      && forall id :: id in d.files ==> id.k < db.counter
  {
    var db0 := db.(counter := db.counter + 1);
    FolderSideFrame(db, db0);
    FileSideFrame(db, db0);
    if ChildrenYounger(db) {
      ChildrenYoungerBump(db, db0);
    }
    EnsureUnderValid(db0, head, segs, loc, user, now);
  }

  /** The tail of upsert_file_to_hash_tables keeps the invariants and keeps
      children younger than their parents. */
  lemma UpsertTailValid(db1: Db, full: string, name: string, folder: Uuid, newId: Uuid,
                        loc: StorageLocation, user: Principal, now: u64)
    requires Valid(db1) && newId.k < db1.counter
    requires forall id :: id in db1.files ==> id.k < newId.k
    ensures var d := UpsertTail(db1, full, name, folder, newId, loc, user, now);
      Valid(d) && (ChildrenYounger(db1) ==> ChildrenYounger(d))
  {
    UpsertTailFileSide(db1, full, name, folder, newId, loc, user, now);
    UpsertTailFolderSide(db1, full, name, folder, newId, loc, user, now);
  }

  /** The folder the new version is filed in lists it exactly once, no
      longer lists the version it replaces, and otherwise lists what it
      listed before. */
  lemma UpsertFolderList(db: Db, full: string, head: string, segs: seq<string>, name: string, loc: StorageLocation, user: Principal, now: u64)
    requires Valid(db) && ProperSegments(segs)
    ensures var prev := Bound(db, full);
      var folder := FolderFor(db, head, segs, loc, user, now);
      var before := if folder in db.folders then db.folders[folder].fileUuids else [];
      var r := UpsertAt(db, full, head, segs, name, loc, user, now);
      var id := r.0;
      var d := r.1;
      folder in d.folders && Refiled(before, d.folders[folder].fileUuids, prev, id)
  {
    var folder, db1 := EnsuredLists(db, head, segs, loc, user, now, Uuid(db.counter));
    UpsertAtUnfolds(db, full, head, segs, name, folder, db1, loc, user, now);
    UpsertTailList(db1, full, name, folder, Uuid(db.counter), loc, user, now);
    assert Bound(db1, full) == Bound(db, full);
  }

  /** The folder ensured after drawing the next id, and the tables then:
      the file tables as before, the folder present and listing what it
      listed before (which holds no fresh id), every other folder's list
      as before. */
  lemma EnsuredLists(db: Db, head: string, segs: seq<string>, loc: StorageLocation, user: Principal, now: u64, id: Uuid)
    returns (folder: Uuid, db1: Db)
    requires Valid(db) && ProperSegments(segs)
    ensures (folder, db1) == EnsureUnder(db.(counter := db.counter + 1), head, segs, loc, user, now)
    ensures folder == FolderFor(db, head, segs, loc, user, now)
    ensures db1.files == db.files && db1.filePaths == db.filePaths && folder in db1.folders
    ensures db1.folders[folder].fileUuids == if folder in db.folders then db.folders[folder].fileUuids else []
    ensures Uuid(db.counter) !in db.files && Uuid(db.counter) !in db1.folders[folder].fileUuids
    ensures id in db.folders && id != folder ==> id in db1.folders && db1.folders[id].fileUuids == db.folders[id].fileUuids
  {
    var db0 := db.(counter := db.counter + 1);
    var r := EnsureUnder(db0, head, segs, loc, user, now);
    folder, db1 := r.0, r.1;
    BumpTidy(db, db0);
    EnsuredFolder(db, db0, head, segs, loc, user, now);
    EnsuredOther(db, db0, head, segs, loc, user, now, id);
  }

  /** Every folder but the ensured one keeps its file list. */
  lemma EnsuredOther(db: Db, db0: Db, head: string, segs: seq<string>, loc: StorageLocation, user: Principal, now: u64, id: Uuid)
    requires db0.folders == db.folders && Tidy(db0)
    ensures var r := EnsureUnder(db0, head, segs, loc, user, now);
      id in db.folders && id != r.0 ==> id in r.1.folders && r.1.folders[id].fileUuids == db.folders[id].fileUuids
  {
    if id in db.folders {
      EnsureUnderFileLists(db0, head, segs, loc, user, now, id);
      EnsureUnderKeeps(db0, head, segs, loc, user, now, [], id);
    }
  }

  /** Drawing an id keeps the tables tidy. */
  lemma BumpTidy(db: Db, db0: Db)
    requires Valid(db) && db0 == db.(counter := db.counter + 1)
    ensures Tidy(db0)
  {
    FolderSideFrame(db, db0);
    FolderSideTidy(db0);
  }

  /** The ensured folder exists and lists what it listed before, which does
      not hold the fresh id. */
  lemma EnsuredFolder(db: Db, db0: Db, head: string, segs: seq<string>, loc: StorageLocation, user: Principal, now: u64)
    requires Valid(db) && db0 == db.(counter := db.counter + 1) && Tidy(db0) && ProperSegments(segs)
    ensures var r := EnsureUnder(db0, head, segs, loc, user, now);
      && r.0 in r.1.folders
      && r.1.folders[r.0].fileUuids == (if r.0 in db.folders then db.folders[r.0].fileUuids else [])
      && Uuid(db.counter) !in db.files && Uuid(db.counter) !in r.1.folders[r.0].fileUuids
  {
    var r := EnsureUnder(db0, head, segs, loc, user, now);
    FreshId(db);
    EnsureUnderBinds(db0, head, segs, loc, user, now);
    EnsureUnderFileLists(db0, head, segs, loc, user, now, r.0);
  }
}
