/**
 * The `State` of the backend canister: the four tables as fields updated in
 * place, and the id counter of `generate_unique_id`.  Every mutator is
 * proved to leave the tables as the function of the same name computes
 * from the tables before, so what is proved about those functions holds of
 * the object.
 */
module Backend {
  import opened Wrappers
  import opened Paths
  import opened Metadata
  import opened Tables
  import Folders
  import Upsert
  import Renames
  import Deletes
  import Sync
  import Fetch

  /** delete_folder read as its three stages. */
  lemma DeleteTreeUnfolds(db: Db, x: Uuid, now: u64, lenient: bool)
    requires ChildrenYounger(db) && x in db.folders
    ensures var f := db.folders[x];
      var db1 := Deletes.Unkeyed(db, x);
      ChildrenYounger(db1) &&
      Deletes.DeleteTree(db, x, now, lenient)
        == Deletes.Finish(Deletes.DeleteSubfolders(db1, x, f.subfolderUuids, now, lenient), x, f.fileUuids, now, lenient)
  {
  }

  /** Finish returns a failure of the subfolder pass as it stands, and
      otherwise runs on the tables that pass left. */
  lemma FinishCases(s: (Result<()>, Db), t: (Result<()>, Db), x: Uuid, ys: seq<Uuid>, now: u64, lenient: bool)
    requires x in s.1.folders
    requires s.0.Err? ==> t == s
    requires s.0.Ok? ==> t == Deletes.Finish((Ok(()), s.1), x, ys, now, lenient)
    ensures t == Deletes.Finish(s, x, ys, now, lenient)
  {
  }

  class State {
    var folders: map<Uuid, FolderMetadata>
    var files: map<Uuid, FileMetadata>
    var folderPaths: map<string, Uuid>
    var filePaths: map<string, Uuid>
    /** `ID_COUNTER`: the value the next id is derived from. */
    var counter: nat

    /** The tables as one value. */
    function Db(): Db
      reads this
    {
      Tables.Db(folders, files, folderPaths, filePaths, counter)
    }

    /** `State::new`: four empty tables; the counter starts at zero. */
    constructor ()
      ensures Db() == Tables.Db(map[], map[], map[], map[], 0)
      ensures Valid(Db()) && ChildrenYounger(Db()) && FolderIndexAgrees(Db())
      ensures Renames.KeyEnds(Db()) && Deletes.ChildrenExist(Db())
    {
      folders, files, folderPaths, filePaths, counter := map[], map[], map[], map[], 0;
    }

    /** The counter part of `generate_unique_id`: the id of the current
        value, which then grows by one. */
    method GenerateUniqueId() returns (id: Uuid)
      modifies this
      ensures id == Uuid(old(counter)) && Db() == old(Db()).(counter := old(counter) + 1)
    {
      id := Uuid(counter);
      counter := counter + 1;
    }

    // -------------------------------------------------------------------------
    // Folders

    method EnsureRootFolder(loc: StorageLocation, user: Principal, now: u64) returns (id: Uuid)
      modifies this
      ensures (id, Db()) == Folders.EnsureRoot(old(Db()), loc, user, now)
    {
      var rootPath := loc.RootPath();
      if rootPath in folderPaths {
        id := folderPaths[rootPath];
      } else {
        id := GenerateUniqueId();
        var root := Folders.NewFolder(id, "", None, rootPath, user, now, loc);
        folderPaths := folderPaths[rootPath := id];
        folders := folders[id := root];
      }
    }

    /** The segment loop shared by `create_folder` (which appends a new
        folder to its parent unconditionally) and `ensure_folder_structure`
        (which checks `contains` first, `dedup`).  Returns the last folder
        and the record the last pass created, if it created one. */
    method WalkSegments(start: string, segs: seq<string>, root: Uuid, loc: StorageLocation,
                        user: Principal, now: u64, dedup: bool)
      returns (id: Uuid, made: Option<FolderMetadata>)
      modifies this
      ensures (id, made, Db()) == Folders.Walk(old(Db()), start, segs, root, loc, user, now, dedup, None)
    {
      var cur, parent, last := start, root, None;
      var i := 0;
      while i < |segs|
        invariant 0 <= i <= |segs|
        invariant Folders.Walk(old(Db()), start, segs, root, loc, user, now, dedup, None)
          == Folders.Walk(Db(), cur, segs[i..], parent, loc, user, now, dedup, last)
      {
        var path := cur + segs[i] + "/";
        parent, last := StepSegment(path, segs[i], parent, loc, user, now, dedup);
        assert segs[i..][1..] == segs[i + 1..];
        cur := path;
        i := i + 1;
      }
      id, made := parent, last;
    }

    /** One pass of the segment loop: the folder bound to `path`, or a new
        one created there and appended to `parent`'s subfolders. */
    method StepSegment(path: string, part: string, parent: Uuid, loc: StorageLocation,
                       user: Principal, now: u64, dedup: bool)
      returns (next: Uuid, made: Option<FolderMetadata>)
      modifies this
      ensures (next, made, Db()) == Folders.Step(old(Db()), path, part, parent, loc, user, now, dedup)
    {
      if path in folderPaths {
        next, made := folderPaths[path], None;
      } else {
        next := GenerateUniqueId();
        var f := Folders.NewFolder(next, part, Some(parent), path, user, now, loc);
        folderPaths := folderPaths[path := next];
        folders := folders[next := f];
        if parent in folders && !(dedup && next in folders[parent].subfolderUuids) {
          folders := folders[parent := folders[parent].(subfolderUuids := folders[parent].subfolderUuids + [next])];
        }
        made := Some(f);
      }
    }

    /** `create_folder`. */
    method CreateFolder(fullPath: string, loc: StorageLocation, user: Principal, now: u64)
      returns (r: Result<FolderMetadata>)
      modifies this
      ensures (r, Db()) == Folders.CreateFolder(old(Db()), fullPath, loc, user, now)
    {
      var path := Folders.WithSlash(Sanitize(fullPath));
      if path == [] {
        return Err("Invalid folder path");
      }
      match SplitOnce(path)
      case None =>
        return Err("Invalid folder path format");
      case Some((storage, rest)) =>
        if storage != loc.Name() {
          return Err("Storage location mismatch");
        }
        var segs := Segments(rest);
        var root := EnsureRootFolder(loc, user, now);
        if segs == [] {
          r := if root in folders then Ok(folders[root]) else Err("Parent folder not found");
        } else {
          var _, made := WalkSegments(loc.RootPath(), segs, root, loc, user, now, false);
          r := if made.Some? then Ok(made.value) else Err("Folder already exists");
        }
    }

    /** `ensure_folder_structure`. */
    method EnsureFolderStructure(folderPath: string, loc: StorageLocation, user: Principal, now: u64)
      returns (id: Uuid)
      requires HasSep(folderPath)
      modifies this
      ensures (id, Db()) == Folders.EnsureFolders(old(Db()), folderPath, loc, user, now)
    {
      var parts := EnsureParts(folderPath).value;
      Folders.EnsureFoldersUnfolds(Db(), folderPath, parts.0, parts.1, loc, user, now);
      id := EnsureUnder(parts.0, Segments(parts.1), loc, user, now);
    }

    /** The folders of `ensure_folder_structure` once its path is cut into
        `head` and the pieces `segs`: the root, then one pass per piece. */
    method EnsureUnder(head: string, segs: seq<string>, loc: StorageLocation, user: Principal, now: u64)
      returns (id: Uuid)
      modifies this
      ensures (id, Db()) == Folders.EnsureUnder(old(Db()), head, segs, loc, user, now)
    {
      var root := EnsureRootFolder(loc, user, now);
      var made;
      id, made := WalkSegments(head + "::", segs, root, loc, user, now, true);
    }

    /** `update_folder_file_uuids`. */
    method UpdateFolderFileUuids(folder: Uuid, file: Uuid, isAdd: bool)
      modifies this
      ensures Db() == Upsert.UpdateFolderFileUuids(old(Db()), folder, file, isAdd)
    {
      if folder in folders {
        var f := folders[folder];
        if isAdd {
          if file !in f.fileUuids {
            folders := folders[folder := f.(fileUuids := f.fileUuids + [file])];
          }
        } else {
          folders := folders[folder := f.(fileUuids := Without(f.fileUuids, file))];
        }
      }
    }

    /** `upsert_file_to_hash_tables`. */
    method UpsertFileToHashTables(filePath: string, loc: StorageLocation, user: Principal, now: u64)
      returns (id: Uuid)
      requires HasSep(SplitPath(Sanitize(filePath)).0)
      requires Sanitize(filePath) in filePaths ==> filePaths[Sanitize(filePath)] in files
      modifies this
      ensures (id, Db()) == Upsert.UpsertFile(old(Db()), filePath, loc, user, now)
    {
      var full := Sanitize(filePath);
      var folderPath, name := SplitPath(full).0, SplitPath(full).1;
      var parts := EnsureParts(folderPath).value;
      id := UpsertAt(full, parts.0, Segments(parts.1), name, loc, user, now);
    }

    /** `upsert_file_to_hash_tables` once the sanitized path `full` is split
        into its folder part, cut into `head` and the pieces `segs` as
        ensure_folder_structure cuts it, and the file name `name`: the id
        drawn, the folders ensured, then the version written. */
    method UpsertAt(full: string, head: string, segs: seq<string>, name: string,
                    loc: StorageLocation, user: Principal, now: u64)
      returns (id: Uuid)
      requires full in filePaths ==> filePaths[full] in files
      modifies this
      ensures (id, Db()) == Upsert.UpsertAt(old(Db()), full, head, segs, name, loc, user, now)
    {
      ghost var d0 := Db();
      id := GenerateUniqueId();
      ghost var dg := Db();
      assert dg == d0.(counter := d0.counter + 1);
      var folder := EnsureUnder(head, segs, loc, user, now);
      ghost var db1 := Db();
      assert (folder, db1) == Folders.EnsureUnder(dg, head, segs, loc, user, now);
      Upsert.UpsertAtUnfolds(d0, full, head, segs, name, folder, db1, loc, user, now);
      WriteVersion(full, name, folder, id, loc, user, now);
    }

    /** The part of `upsert_file_to_hash_tables` after the folder is
        ensured: the record, the path, and the list and link updates. */
    method WriteVersion(full: string, name: string, folder: Uuid, id: Uuid,
                        loc: StorageLocation, user: Principal, now: u64)
      requires full in filePaths ==> filePaths[full] in files
      modifies this
      ensures Db() == Upsert.UpsertTail(old(Db()), full, name, folder, id, loc, user, now)
    {
      var existing := if full in filePaths then Some(filePaths[full]) else None;
      var version := if existing.Some? then WrappingInc(files[existing.value].fileVersion) else 1;
      var f := Upsert.NewVersion(id, name, folder, version, existing, full, user, now, loc);
      files := files[id := f];
      filePaths := filePaths[full := id];
      UpdateFolderFileUuids(folder, id, true);
      if existing.Some? {
        var prev := existing.value;
        if prev in files {
          files := files[prev := files[prev].(nextVersion := Some(id))];
        }
        UpdateFolderFileUuids(folder, prev, false);
      }
    }

    // -------------------------------------------------------------------------
    // Renames

    /** Moving one folder record to the key `q`, as update_subfolder_paths
        and rename_folder do: the old key dropped, the path set, `q` bound. */
    method MoveFolderKey(c: Uuid, q: string)
      requires c in folders
      modifies this
      ensures Db() == Renames.MoveFolder(old(Db()), c, q)
    {
      folderPaths := Drop(folderPaths, folders[c].fullFolderPath);
      folders := folders[c := folders[c].(fullFolderPath := q)];
      folderPaths := folderPaths[q := c];
    }

    /** `update_subfolder_paths`: every subfolder of `x`, in list order, gets
        `from` replaced by `to` in its key and then its own subtree
        rewritten; then every file `x` lists gets the same replacement. */
    method UpdateSubfolderPaths(x: Uuid, from: string, to: string)
      requires ChildrenYounger(Db())
      modifies this
      ensures Db() == Renames.UpdatePaths(old(Db()), x, from, to)
      ensures ChildrenYounger(Db())
      decreases counter - x.k, 1, 0
    {
      if x in folders {
        var f := folders[x];
        ghost var d0 := Db();
        MoveSubfolders(x, f.subfolderUuids, from, to);
        ghost var d1 := Db();
        MoveFilePaths(f.fileUuids, from, to);
        assert Renames.UpdatePaths(d0, x, from, to) == Renames.MoveFiles(d1, f.fileUuids, from, to);
        Renames.ShapeChildrenYounger(d1, Db());
      }
    }

    /** The first loop of update_subfolder_paths, over the snapshot `subs`
        of `x`'s subfolder list. */
    method MoveSubfolders(x: Uuid, subs: seq<Uuid>, from: string, to: string)
      requires ChildrenYounger(Db())
      requires forall c :: c in subs ==> x.k < c.k < counter
      modifies this
      ensures Db() == Renames.UpdateSubfolders(old(Db()), x, subs, from, to)
      ensures ChildrenYounger(Db())
      decreases counter - x.k, 0, 1
    {
      ghost var d0 := Db();
      var i := 0;
      while i < |subs|
        invariant 0 <= i <= |subs|
        invariant ChildrenYounger(Db()) && counter == d0.counter
        invariant Renames.UpdateSubfolders(d0, x, subs, from, to) == Renames.UpdateSubfolders(Db(), x, subs[i..], from, to)
      {
        assert subs[i] in subs;
        assert subs[i..][1..] == subs[i + 1..];
        ghost var before := Db();
        MoveSubtreeAt(x, subs[i], from, to);
        assert Renames.UpdateSubfolders(before, x, subs[i..], from, to)
          == Renames.UpdateSubfolders(Db(), x, subs[i + 1..], from, to);
        i := i + 1;
      }
    }

    /** One subfolder `c` of `x` in update_subfolder_paths' first loop:
        re-keyed, then its own subtree rewritten from its old key to its new. */
    method MoveSubtreeAt(x: Uuid, c: Uuid, from: string, to: string)
      requires ChildrenYounger(Db()) && x.k < c.k < counter
      modifies this
      ensures Db() == Renames.MoveSubtree(old(Db()), x, c, from, to)
      ensures ChildrenYounger(Db())
      decreases counter - x.k, 0, 0
    {
      if c in folders {
        var p := folders[c].fullFolderPath;
        var q := ReplaceAll(p, from, to);
        MoveFolderKey(c, q);
        Renames.ShapeChildrenYounger(old(Db()), Db());
        UpdateSubfolderPaths(c, p, q);
      }
    }

    /** One file of update_subfolder_paths' second loop. */
    method MoveFileKey(y: Uuid, from: string, to: string)
      modifies this
      ensures Db() == Renames.MoveFile(old(Db()), y, from, to)
    {
      if y in files {
        var p := files[y].fullFilePath;
        var q := ReplaceAll(p, from, to);
        filePaths := Drop(filePaths, p);
        files := files[y := files[y].(fullFilePath := q)];
        filePaths := filePaths[q := y];
      }
    }

    /** The second loop of update_subfolder_paths: each listed file that has
        a record gets `from` replaced by `to` in its path and is re-keyed. */
    method MoveFilePaths(ys: seq<Uuid>, from: string, to: string)
      modifies this
      ensures Db() == Renames.MoveFiles(old(Db()), ys, from, to)
    {
      ghost var d0 := Db();
      var i := 0;
      while i < |ys|
        invariant 0 <= i <= |ys|
        invariant Renames.MoveFiles(d0, ys, from, to) == Renames.MoveFiles(Db(), ys[i..], from, to)
      {
        ghost var before := Db();
        Renames.MoveFilesFirst(before, ys, i, from, to);
        MoveFileKey(ys[i], from, to);
        i := i + 1;
      }
      assert ys[i..] == [];
    }

    /** `rename_folder`, with the parent looked up under its own key (the
        source drops the key's trailing `/` there).  The record is
        retitled and re-keyed, its subtree rewritten, and the parent, found
        under its key, lists the folder. */
    method RenameFolder(id: Uuid, newName: string, now: u64) returns (r: Result<()>)
      requires ChildrenYounger(Db())
      modifies this
      ensures (r, Db()) == Renames.RenameFolderCorrected(old(Db()), id, newName, now)
    {
      if id !in folders {
        return Err("Folder not found");
      }
      var oldPath := folders[id].fullFolderPath;
      match FolderRenameTarget(oldPath, newName)
      case None =>
        return Err("Invalid folder structure");
      case Some(m) =>
        if m.newPath in folderPaths {
          return Err("A folder with the new name already exists in the parent directory");
        }
        assert Renames.RenameTarget(old(Db()), id, newName) == Ok(m);
        r := RenameAt(id, newName, now, m, ParentKey(m) + "/");
    }

    /** rename_folder past its checks: the changes, then the parent looked up
        under `parentKey` and made to list the folder. */
    method RenameAt(id: Uuid, newName: string, now: u64, m: FolderMove, parentKey: string)
      returns (r: Result<()>)
      requires ChildrenYounger(Db()) && id in folders
      modifies this
      ensures (r, Db()) == Renames.RenameAt(old(Db()), id, newName, now, m, parentKey)
    {
      RelocateFolder(id, newName, now, m.newPath);
      r := Ok(());
      if m.parentPath != [] {
        if parentKey in folderPaths {
          var parent := folderPaths[parentKey];
          if parent in folders && id !in folders[parent].subfolderUuids {
            folders := folders[parent := folders[parent].(subfolderUuids := folders[parent].subfolderUuids + [id])];
          }
        } else {
          r := Err("Parent folder not found");
        }
      }
    }

    /** rename_folder's changes once the new key is known to be free: the
        record retitled and re-keyed, then its subtree rewritten. */
    method RelocateFolder(id: Uuid, newName: string, now: u64, newPath: string)
      requires ChildrenYounger(Db()) && id in folders
      modifies this
      ensures Db() == Renames.Relocate(old(Db()), id, newName, now, newPath)
    {
      var oldPath := folders[id].fullFolderPath;
      folders := folders[id := folders[id].(originalFolderName := newName, lastChangedUnixMs := MsOf(now))];
      MoveFolderKey(id, newPath);
      ChildrenYoungerFrame(old(Db()), Db());
      UpdateSubfolderPaths(id, oldPath, newPath);
    }

    /** `rename_file`. */
    method RenameFile(id: Uuid, newName: string, now: u64) returns (r: Result<()>)
      modifies this
      ensures (r, Db()) == Renames.RenameFile(old(Db()), id, newName, now)
    {
      if id !in files {
        return Err("File not found");
      }
      var f := files[id];
      match FileRenameTarget(f.fullFilePath, newName)
      case None =>
        return Err("Invalid file structure");
      case Some(q) =>
        if q in filePaths {
          return Err("A file with this name already exists");
        }
        files := files[id := Renames.RenamedFile(f, newName, q, now)];
        filePaths := Drop(filePaths, f.fullFilePath);
        filePaths := filePaths[q := id];
        r := Ok(());
    }

    // -------------------------------------------------------------------------
    // Deletes

    /** `delete_file`: the record and its path key removed, and its
        neighbours in the version chain linked past it. */
    method DeleteFile(id: Uuid) returns (r: Result<()>)
      modifies this
      ensures (r, Db()) == Deletes.DeleteFile(old(Db()), id)
    {
      if id !in files {
        return Err("File not found");
      }
      var f := files[id];
      files := Drop(files, id);
      filePaths := Drop(filePaths, f.fullFilePath);
      if f.priorVersion.Some? && f.priorVersion.value in files {
        files := files[f.priorVersion.value := files[f.priorVersion.value].(nextVersion := f.nextVersion)];
      }
      if f.nextVersion.Some? && f.nextVersion.value in files {
        files := files[f.nextVersion.value := files[f.nextVersion.value].(priorVersion := f.priorVersion)];
      }
      r := Ok(());
    }

    /** delete_folder's loop over the snapshot of the folder's files,
        stopping at the first failure; `lenient` skips files without a
        record instead. */
    method DeleteFileList(ys: seq<Uuid>, lenient: bool) returns (r: Result<()>)
      modifies this
      ensures (r, Db()) == Deletes.DeleteFiles(old(Db()), ys, lenient)
    {
      ghost var d0 := Db();
      var i := 0;
      while i < |ys|
        invariant 0 <= i <= |ys|
        invariant Deletes.DeleteFiles(d0, ys, lenient) == Deletes.DeleteFiles(Db(), ys[i..], lenient)
      {
        assert ys[i..][1..] == ys[i + 1..];
        if !(lenient && ys[i] !in files) {
          var e := DeleteFile(ys[i]);
          if e.Err? {
            return e;
          }
        }
        i := i + 1;
      }
      r := Ok(());
    }

    /** `delete_folder` over the tree below `x`: the key dropped, every
        subfolder deleted in list order, then every file, then the record
        marked; the first failure is returned as it stands. */
    method DeleteTree(x: Uuid, now: u64, lenient: bool) returns (r: Result<()>)
      requires ChildrenYounger(Db())
      modifies this
      ensures (r, Db()) == Deletes.DeleteTree(old(Db()), x, now, lenient)
      ensures ChildrenYounger(Db())
      decreases counter - x.k, 1, 0
    {
      if x !in folders {
        return Err("Folder not found");
      }
      var f := folders[x];
      folderPaths := Drop(folderPaths, f.fullFolderPath);
      ghost var db1 := Db();
      assert db1 == Deletes.Unkeyed(old(Db()), x);
      DeleteTreeUnfolds(old(Db()), x, now, lenient);
      r := DeleteSubfolderList(x, f.subfolderUuids, now, lenient);
      ghost var s := (r, Db());
      if r.Ok? {
        r := FinishFolder(x, f.fileUuids, now, lenient);
      }
      FinishCases(s, (r, Db()), x, f.fileUuids, now, lenient);
      Deletes.TrimsChildrenYounger(old(Db()), Db());
    }

    /** The end of delete_folder once its subfolders are gone: the files
        deleted, then the record stamped and marked deleted. */
    method FinishFolder(x: Uuid, ys: seq<Uuid>, now: u64, lenient: bool) returns (r: Result<()>)
      requires x in folders
      modifies this
      ensures (r, Db()) == Deletes.Finish((Ok(()), old(Db())), x, ys, now, lenient)
    {
      r := DeleteFileList(ys, lenient);
      ghost var t := (r, Db());
      assert t == Deletes.DeleteFiles(old(Db()), ys, lenient) && folders == old(folders);
      if r.Ok? {
        folders := folders[x := folders[x].(lastChangedUnixMs := MsOf(now), deleted := true)];
        r := Ok(());
      }
    }

    /** delete_folder's loop over the snapshot `subs` of `x`'s subfolders. */
    method DeleteSubfolderList(x: Uuid, subs: seq<Uuid>, now: u64, lenient: bool) returns (r: Result<()>)
      requires ChildrenYounger(Db()) && forall c :: c in subs ==> x.k < c.k < counter
      modifies this
      ensures (r, Db()) == Deletes.DeleteSubfolders(old(Db()), x, subs, now, lenient)
      ensures ChildrenYounger(Db())
      decreases counter - x.k, 0, 1
    {
      ghost var d0 := Db();
      var i := 0;
      while i < |subs|
        invariant 0 <= i <= |subs|
        invariant ChildrenYounger(Db()) && counter == d0.counter
        invariant forall c :: c in subs[i..] ==> x.k < c.k < counter
        invariant Deletes.DeleteSubfolders(d0, x, subs, now, lenient)
          == Deletes.DeleteSubfolders(Db(), x, subs[i..], now, lenient)
      {
        var e := DeleteFirst(x, subs[i..], now, lenient);
        if e.Err? {
          return e;
        }
        assert subs[i..][1..] == subs[i + 1..];
        i := i + 1;
      }
      r := Ok(());
    }

    /** One pass of delete_folder's subfolder loop: the first of `subs`
        deleted; on failure the whole loop's outcome, otherwise what is
        left to do is the rest of the list. */
    method DeleteFirst(x: Uuid, subs: seq<Uuid>, now: u64, lenient: bool) returns (e: Result<()>)
      requires subs != [] && ChildrenYounger(Db()) && forall c :: c in subs ==> x.k < c.k < counter
      modifies this
      ensures ChildrenYounger(Db()) && counter == old(counter)
      ensures e.Err? ==> (e, Db()) == Deletes.DeleteSubfolders(old(Db()), x, subs, now, lenient)
      ensures e.Ok? ==> Deletes.DeleteSubfolders(old(Db()), x, subs, now, lenient)
                        == Deletes.DeleteSubfolders(Db(), x, subs[1..], now, lenient)
      decreases counter - x.k, 0, 0
    {
      assert subs[0] in subs;
      e := DeleteTree(subs[0], now, lenient);
      assert forall c :: c in subs[1..] ==> c in subs;
    }

    /** `delete_folder`, continuing past listed files that no longer have a
        record (the source stops there with "File not found"). */
    method DeleteFolder(x: Uuid, now: u64) returns (r: Result<()>)
      requires ChildrenYounger(Db())
      modifies this
      ensures (r, Db()) == Deletes.DeleteFolderCorrected(old(Db()), x, now)
      ensures ChildrenYounger(Db())
    {
      r := DeleteTree(x, now, true);
    }

    // -------------------------------------------------------------------------
    // Offline sync

    /** `upsert_cloud_file_with_local_sync`: a new version drawn for the
        client's copy of `fileId`, filed in the folder its sanitized path
        names, after the chain of versions it replaces has been unfiled. */
    method UpsertCloudFileWithLocalSync(fileId: Uuid, incoming: FileMetadata, user: Principal, now: u64)
      returns (r: Result<Uuid>)
      requires fileId in files && Sync.PriorsOlder(files)
      requires HasSep(SplitPath(Sanitize(incoming.fullFilePath)).0)
      modifies this
      ensures r == Ok(Sync.SyncFile(old(Db()), fileId, incoming, user, now).0)
      ensures Db() == Sync.SyncFile(old(Db()), fileId, incoming, user, now).1
    {
      var full := Sanitize(incoming.fullFilePath);
      var folderPath, name := SplitPath(full).0, SplitPath(full).1;
      var parts := EnsureParts(folderPath).value;
      var newId := SyncAt(fileId, incoming, full, parts.0, Segments(parts.1), name, user, now);
      r := Ok(newId);
    }

    /** The file sync once the client's sanitized path `full` is split and
        cut as in UpsertAt: the id drawn, the folders ensured, then the
        chain unfiled and the copy written. */
    method SyncAt(fileId: Uuid, incoming: FileMetadata, full: string, head: string, segs: seq<string>,
                  name: string, user: Principal, now: u64)
      returns (newId: Uuid)
      requires fileId in files && Sync.PriorsOlder(files)
      modifies this
      ensures (newId, Db()) == Sync.SyncAt(old(Db()), fileId, incoming, full, head, segs, name, user, now)
    {
      ghost var d0 := Db();
      var existing := files[fileId];
      newId := GenerateUniqueId();
      ghost var dg := Db();
      assert dg == d0.(counter := d0.counter + 1);
      var folder := EnsureUnder(head, segs, incoming.storageLocation, user, now);
      ghost var db1 := Db();
      assert (folder, db1) == Folders.EnsureUnder(dg, head, segs, incoming.storageLocation, user, now);
      Sync.SyncAtUnfolds(d0, fileId, incoming, full, head, segs, name, folder, db1, user, now);
      assert existing == d0.files[fileId];
      WriteSynced(fileId, existing, full, name, folder, newId, incoming, user, now);
    }

    /** The part of the file sync after the folder is ensured. */
    method WriteSynced(fileId: Uuid, existing: FileMetadata, full: string, name: string, folder: Uuid,
                       newId: Uuid, incoming: FileMetadata, user: Principal, now: u64)
      requires Sync.PriorsOlder(files)
      modifies this
      ensures Db() == Sync.SyncTail(old(Db()), fileId, existing, full, name, folder, newId, incoming, user, now)
    {
      ghost var d1 := Db();
      if folder in folders {
        var list := StripChain(folders[folder].fileUuids, fileId);
        folders := folders[folder := folders[folder].(fileUuids := list)];
      }
      ghost var d2 := Db();
      assert d2 == if folder in d1.folders then
        PutFolder(d1, folder, d1.folders[folder].(fileUuids := Sync.ChainStrip(d1.files, d1.folders[folder].fileUuids, Some(fileId))))
        else d1;
      var rec := Sync.SyncedFile(newId, name, folder, existing, full, incoming, user, now);
      files := files[newId := rec];
      filePaths := filePaths[full := newId];
      ghost var d3 := Db();
      if folder in folders {
        folders := folders[folder := folders[folder].(fileUuids := Without(folders[folder].fileUuids, newId) + [newId])];
      }
      ghost var d4 := Db();
      assert d4 == if folder in d3.folders then
        PutFolder(d3, folder, d3.folders[folder].(fileUuids := Without(d3.folders[folder].fileUuids, newId) + [newId]))
        else d3;
      if fileId in files {
        files := files[fileId := files[fileId].(nextVersion := Some(newId))];
      }
    }

    /** The clean-up walk of the file sync: from `fileId` back along the
        prior links, each version that has a record is dropped from `list`;
        the walk stops at the first id without one. */
    method StripChain(list: seq<Uuid>, fileId: Uuid) returns (r: seq<Uuid>)
      requires Sync.PriorsOlder(files)
      ensures r == Sync.ChainStrip(files, list, Some(fileId))
    {
      r := list;
      var cur := Some(fileId);
      while cur.Some?
        invariant Sync.ChainStrip(files, r, cur) == Sync.ChainStrip(files, list, Some(fileId))
        decreases if cur.Some? then cur.value.k + 1 else 0
      {
        var v := cur.value;
        if v !in files {
          break;
        }
        r := Without(r, v);
        cur := files[v].priorVersion;
      }
    }

    /** `upsert_cloud_folder_with_local_sync`. */
    method UpsertCloudFolderWithLocalSync(folderId: Uuid, incoming: FolderMetadata, now: u64)
      returns (r: Result<Uuid>)
      requires folderId in folders
      modifies this
      ensures r == Ok(folderId) && Db() == Sync.SyncFolder(old(Db()), folderId, incoming, now).1
    {
      folders := folders[folderId := folders[folderId].(
        originalFolderName := incoming.originalFolderName, tags := incoming.tags,
        storageLocation := incoming.storageLocation, fullFolderPath := incoming.fullFolderPath,
        parentFolderUuid := incoming.parentFolderUuid, deleted := incoming.deleted,
        lastChangedUnixMs := OrMs(incoming.lastChangedUnixMs, MsOf(now)))];
      r := Ok(folderId);
    }

    // -------------------------------------------------------------------------
    // Listing

    /** `fetch_files_at_folder_path`: the records of the folder's subfolders
        and files collected in list order, then one page of them. */
    method FetchFilesAtFolderPath(path: string, limit: u32, after: u32) returns (r: FetchFilesResult)
      requires Fetch.FetchFits(Db(), path, after, limit)
      ensures r == Fetch.FetchAt(Db(), path, limit, after)
    {
      if path !in folderPaths || folderPaths[path] !in folders {
        return EmptyPage();
      }
      var folder := folders[folderPaths[path]];
      var fs := CollectFolders(folder.subfolderUuids);
      var gs := CollectFiles(folder.fileUuids);
      r := Fetch.Paginate(fs, gs, after, limit);
    }

    /** fetch_files_at_folder_path's first loop: the records of `ids` that
        have one, in list order. */
    method CollectFolders(ids: seq<Uuid>) returns (fs: seq<FolderMetadata>)
      ensures fs == Fetch.PresentFolders(Db(), ids)
    {
      fs := [];
      var i := 0;
      while i < |ids|
        invariant 0 <= i <= |ids|
        invariant fs == Fetch.PresentFolders(Db(), ids[..i])
      {
        assert ids[..i + 1][..i] == ids[..i];
        if ids[i] in folders {
          fs := fs + [folders[ids[i]]];
        }
        i := i + 1;
      }
      assert ids[..|ids|] == ids;
    }

    /** fetch_files_at_folder_path's second loop, over the file list. */
    method CollectFiles(ids: seq<Uuid>) returns (gs: seq<FileMetadata>)
      ensures gs == Fetch.PresentFiles(Db(), ids)
    {
      gs := [];
      var i := 0;
      while i < |ids|
        invariant 0 <= i <= |ids|
        invariant gs == Fetch.PresentFiles(Db(), ids[..i])
      {
        assert ids[..i + 1][..i] == ids[..i];
        if ids[i] in files {
          gs := gs + [files[ids[i]]];
        }
        i := i + 1;
      }
      assert ids[..|ids|] == ids;
    }
  }
}
