/**
 * The four tables of the `State` impl as one value: folder id -> record,
 * file id -> record, folder path -> id and file path -> id, together with
 * the id counter.  The invariants every operation keeps, and the lookups.
 */
module Tables {
  import opened Wrappers
  import opened Paths
  import opened Metadata

  datatype Db = Db(
    folders: map<Uuid, FolderMetadata>,
    files: map<Uuid, FileMetadata>,
    folderPaths: map<string, Uuid>,
    filePaths: map<string, Uuid>,
    counter: nat)

  /** A map without one key (`HashMap::remove`). */
  function Drop<K, V>(m: map<K, V>, key: K): (r: map<K, V>)
    ensures key !in r && r.Keys == m.Keys - {key}
    ensures forall j :: j in r ==> r[j] == m[j]
  {
    map j | j in m && j != key :: m[j]
  }

  // ---------------------------------------------------------------------------
  // Invariants

  /** Every folder and every listed child was drawn from the counter before. */
  predicate FolderIdsBelow(db: Db) {
    && (forall id :: id in db.folders ==> id.k < db.counter)
    && (forall id, c :: id in db.folders && c in db.folders[id].subfolderUuids ==> c.k < db.counter)
    && (forall id, c :: id in db.folders && c in db.folders[id].fileUuids ==> c.k < db.counter)
  }

  /** Every file and every successor link was drawn from the counter before. */
  predicate FileIdsBelow(db: Db) {
    && (forall id :: id in db.files ==> id.k < db.counter)
    && (forall id :: id in db.files && db.files[id].nextVersion.Some? ==>
          db.files[id].nextVersion.value.k < db.counter)
  }

  /** The folder index only names folders that have a record. */
  predicate FolderIndexTargets(db: Db) {
    forall p :: p in db.folderPaths ==> db.folderPaths[p] in db.folders
  }

  /** The file index maps a path to a file whose record carries that path. */
  predicate FileIndexSound(db: Db) {
    forall p :: p in db.filePaths ==>
      db.filePaths[p] in db.files && db.files[db.filePaths[p]].fullFilePath == p
  }

  /** Version links point backwards to older ids and forwards to newer ones. */
  predicate VersionOrder(db: Db) {
    forall id :: id in db.files ==>
      && (db.files[id].priorVersion.Some? ==> db.files[id].priorVersion.value.k < id.k)
      && (db.files[id].nextVersion.Some? ==> db.files[id].nextVersion.value.k > id.k)
  }

  /** The invariants about folders: ids drawn before, records under their
      own id, the index naming existing folders. */
  predicate FolderSide(db: Db) {
    && FolderIdsBelow(db)
    && (forall id :: id in db.folders ==> db.folders[id].id == id)
    && FolderIndexTargets(db)
  }

  /** The invariants about files: ids drawn before, records under their own
      id, a sound index, ordered version links. */
  predicate FileSide(db: Db) {
    && FileIdsBelow(db)
    && (forall id :: id in db.files ==> db.files[id].id == id)
    && FileIndexSound(db)
    && VersionOrder(db)
  }

  predicate Valid(db: Db) {
    FolderSide(db) && FileSide(db)
  }

  /** The file invariants only look at the file tables and the counter. */
  lemma FileSideFrame(db: Db, d: Db)
    requires FileSide(db) && d.files == db.files && d.filePaths == db.filePaths && db.counter <= d.counter
    ensures FileSide(d)
  {
  }

  /** The folder invariants only look at the folder tables and the counter. */
  lemma FolderSideFrame(db: Db, d: Db)
    requires FolderSide(db) && d.folders == db.folders && d.folderPaths == db.folderPaths && db.counter <= d.counter
    ensures FolderSide(d)
  {
  }

  /** Every listed subfolder is younger than its parent (and drawn before the
      counter): the measure on which the recursive delete and path rewrite
      descend. */
  predicate ChildrenYounger(db: Db) {
    forall id, c :: id in db.folders && c in db.folders[id].subfolderUuids ==> id.k < c.k < db.counter
  }

  /** Drawing an id keeps children younger than their parents. */
  lemma ChildrenYoungerBump(db: Db, d: Db)
    requires ChildrenYounger(db) && d.folders == db.folders && db.counter <= d.counter
    ensures ChildrenYounger(d)
  {
  }

  /** Children stay younger than their parents as long as no child list
      changes and no id is added. */
  lemma ChildrenYoungerFrame(a: Db, b: Db)
    requires ChildrenYounger(a) && a.counter <= b.counter
    requires forall id :: id in b.folders ==>
      id in a.folders && b.folders[id].subfolderUuids == a.folders[id].subfolderUuids
    ensures ChildrenYounger(b)
  {
  }

  /** Changing nothing but folders' file lists, to ids drawn before, keeps
      the folder invariants and children younger than their parents. */
  lemma FileListsOnly(db: Db, d: Db)
    requires FolderSide(db) && d.counter == db.counter && d.folderPaths == db.folderPaths
    requires d.folders.Keys == db.folders.Keys
    requires forall id :: id in d.folders ==> d.folders[id] == db.folders[id].(fileUuids := d.folders[id].fileUuids)
    requires forall id, c :: id in d.folders && c in d.folders[id].fileUuids ==> c.k < d.counter
    ensures FolderSide(d) && (ChildrenYounger(db) ==> ChildrenYounger(d))
  {
    if ChildrenYounger(db) {
      ChildrenYoungerFrame(db, d);
    }
  }

  /** The folder index maps a path to a folder whose record carries it. */
  predicate FolderIndexAgrees(db: Db) {
    forall p :: p in db.folderPaths ==>
      db.folderPaths[p] in db.folders && db.folders[db.folderPaths[p]].fullFolderPath == p
  }

  /** The id the counter hands out next is held nowhere. */
  lemma FreshId(db: Db)
    requires Valid(db)
    ensures var n := Uuid(db.counter);
      && n !in db.folders && n !in db.files
      && n !in db.folderPaths.Values && n !in db.filePaths.Values
      && (forall id :: id in db.folders ==>
            n !in db.folders[id].subfolderUuids && n !in db.folders[id].fileUuids)
      && (forall id :: id in db.files ==> db.files[id].nextVersion != Some(n))
  {
  }

  // ---------------------------------------------------------------------------
  // Lookups (get_folder_by_id, get_file_by_id, get_folder_by_path,
  // get_file_by_path)

  function GetFolderById(db: Db, id: Uuid): (r: Option<FolderMetadata>)
    ensures r.Some? <==> id in db.folders
    ensures r.Some? ==> r.value == db.folders[id]
  {
    if id in db.folders then Some(db.folders[id]) else None
  }

  function GetFileById(db: Db, id: Uuid): (r: Option<FileMetadata>)
    ensures r.Some? <==> id in db.files
    ensures r.Some? ==> r.value == db.files[id]
  {
    if id in db.files then Some(db.files[id]) else None
  }

  function GetFolderByPath(db: Db, path: string): (r: Option<FolderMetadata>)
    ensures FolderIndexAgrees(db) ==> (r.Some? <==> path in db.folderPaths)
    ensures r.Some? ==> path in db.folderPaths && r == GetFolderById(db, db.folderPaths[path])
    ensures FolderIndexAgrees(db) && r.Some? ==> r.value.fullFolderPath == path
  {
    if path in db.folderPaths then GetFolderById(db, db.folderPaths[path]) else None
  }

  function GetFileByPath(db: Db, path: string): (r: Option<FileMetadata>)
    ensures FileIndexSound(db) ==> (r.Some? <==> path in db.filePaths)
    ensures r.Some? ==> path in db.filePaths && r == GetFileById(db, db.filePaths[path])
    ensures FileIndexSound(db) && r.Some? ==> r.value.fullFilePath == path
  {
    if path in db.filePaths then GetFileById(db, db.filePaths[path]) else None
  }

  /** A folder record with one field list replaced, stored back. */
  function PutFolder(db: Db, id: Uuid, f: FolderMetadata): Db {
    db.(folders := db.folders[id := f])
  }

  function PutFile(db: Db, id: Uuid, f: FileMetadata): Db {
    db.(files := db.files[id := f])
  }
}
