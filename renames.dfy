/**
 * `rename_folder`, `rename_file` and the recursive `update_subfolder_paths`
 * that rename_folder runs over the renamed folder's subtree.
 */
module Renames {
  import opened Wrappers
  import opened Paths
  import opened Metadata
  import opened Tables
  import opened Folders

  // ---------------------------------------------------------------------------
  // What a path rewrite leaves alone

  /** `b` differs from `a` at most in the stored paths and the two indexes. */
  predicate SameShape(a: Db, b: Db) {
    && a.counter == b.counter
    && a.folders.Keys == b.folders.Keys && a.files.Keys == b.files.Keys
    && (forall id :: id in a.folders ==>
          b.folders[id] == a.folders[id].(fullFolderPath := b.folders[id].fullFolderPath))
    && (forall id :: id in a.files ==>
          b.files[id] == a.files[id].(fullFilePath := b.files[id].fullFilePath))
  }

  lemma ShapeTrans(a: Db, b: Db, c: Db)
    requires SameShape(a, b) && SameShape(b, c)
    ensures SameShape(a, c)
  {
  }

  lemma ShapeChildrenYounger(a: Db, b: Db)
    requires ChildrenYounger(a) && SameShape(a, b)
    ensures ChildrenYounger(b)
  {
    ChildrenYoungerFrame(a, b);
  }

  // ---------------------------------------------------------------------------
  // update_subfolder_paths

  /** `k` is bound in `a` exactly when in `b`, and to the same id. */
  predicate SameKey(a: map<string, Uuid>, b: map<string, Uuid>, k: string) {
    (k in a <==> k in b) && (k in a ==> a[k] == b[k])
  }

  /** Folder `c` moved to the key `q`: its old key dropped, `q` bound to it. */
  function MoveFolder(db: Db, c: Uuid, q: string): (r: Db)
    requires c in db.folders
    ensures SameShape(db, r) && r.files == db.files && r.filePaths == db.filePaths
    ensures r.folders[c].fullFolderPath == q && q in r.folderPaths && r.folderPaths[q] == c
    ensures forall id :: id in db.folders && id != c ==> r.folders[id] == db.folders[id]
    ensures db.folders[c].fullFolderPath != q ==> db.folders[c].fullFolderPath !in r.folderPaths
    ensures forall k :: k != q && k != db.folders[c].fullFolderPath ==> SameKey(db.folderPaths, r.folderPaths, k)
  {
    db.(folders := db.folders[c := db.folders[c].(fullFolderPath := q)],
        folderPaths := Drop(db.folderPaths, db.folders[c].fullFolderPath)[q := c])
  }

  /** File `y` (if it exists) has every `from` in its path replaced by `to`,
      and is re-keyed under the new path. */
  function MoveFile(db: Db, y: Uuid, from: string, to: string): (r: Db)
    ensures SameShape(db, r) && r.folders == db.folders && r.folderPaths == db.folderPaths
    ensures y !in db.files ==> r == db
    ensures forall z :: z in db.files && z != y ==> r.files[z] == db.files[z]
    ensures y in db.files ==>
      var p := db.files[y].fullFilePath;
      var q := ReplaceAll(p, from, to);
      && r.files[y].fullFilePath == q && q in r.filePaths && r.filePaths[q] == y
      && (p != q ==> p !in r.filePaths)
      && forall k :: k != p && k != q ==> SameKey(db.filePaths, r.filePaths, k)
  {
    if y in db.files then RekeyFile(db, y, ReplaceAll(db.files[y].fullFilePath, from, to))
    else db
  }

  /** File `y` moved to the key `q`: its old key dropped, `q` bound to it. */
  function RekeyFile(db: Db, y: Uuid, q: string): (r: Db)
    requires y in db.files
    ensures SameShape(db, r) && r.folders == db.folders && r.folderPaths == db.folderPaths
    ensures forall z :: z in db.files && z != y ==> r.files[z] == db.files[z]
    ensures r.files[y].fullFilePath == q && q in r.filePaths && r.filePaths[q] == y
    ensures db.files[y].fullFilePath != q ==> db.files[y].fullFilePath !in r.filePaths
    ensures forall k :: k != q && k != db.files[y].fullFilePath ==> SameKey(db.filePaths, r.filePaths, k)
  {
    db.(files := db.files[y := db.files[y].(fullFilePath := q)],
        filePaths := Drop(db.filePaths, db.files[y].fullFilePath)[q := y])
  }

  /** The loop over the folder's `file_uuids`. */
  function MoveFiles(db: Db, ys: seq<Uuid>, from: string, to: string): (r: Db)
    ensures SameShape(db, r) && r.folders == db.folders && r.folderPaths == db.folderPaths
    decreases |ys|
  {
    if ys == [] then db
    else
      var d := MoveFile(db, ys[0], from, to);
      var r := MoveFiles(d, ys[1..], from, to);
      ShapeTrans(db, d, r);
      r
  }

  /** Moving the files from position `i` on is moving the one at `i`, then
      the rest. */
  lemma MoveFilesFirst(db: Db, ys: seq<Uuid>, i: nat, from: string, to: string)
    requires i < |ys|
    ensures MoveFiles(db, ys[i..], from, to) == MoveFiles(MoveFile(db, ys[i], from, to), ys[i + 1..], from, to)
  {
    assert ys[i..][1..] == ys[i + 1..];
  }

  /** No id appears twice in `s`. */
  predicate NoDup(s: seq<Uuid>) {
    forall i, j :: 0 <= i < j < |s| ==> s[i] != s[j]
  }

  /** A file the loop does not list keeps its record. */
  lemma {:induction false} MoveFilesOther(db: Db, ys: seq<Uuid>, from: string, to: string, y: Uuid)
    requires y !in ys && y in db.files
    ensures MoveFiles(db, ys, from, to).files[y] == db.files[y]
    decreases |ys|
  {
    if ys != [] {
      MoveFilesOther(MoveFile(db, ys[0], from, to), ys[1..], from, to, y);
    }
  }

  /** With no id listed twice, every listed file that has a record ends with
      `from` replaced by `to` in its path. */
  lemma {:induction false} MoveFilesRewrites(db: Db, ys: seq<Uuid>, from: string, to: string)
    requires NoDup(ys)
    ensures forall y :: y in ys && y in db.files ==>
      MoveFiles(db, ys, from, to).files[y].fullFilePath == ReplaceAll(db.files[y].fullFilePath, from, to)
    decreases |ys|
  {
    if ys != [] {
      var d := MoveFile(db, ys[0], from, to);
      NoDupTail(ys);
      MoveFilesRewrites(d, ys[1..], from, to);
      if ys[0] in db.files {
        MoveFilesOther(d, ys[1..], from, to, ys[0]);
      }
    }
  }

  /** A key that is neither the old nor the new path of any listed file keeps
      its binding. */
  lemma {:induction false} MoveFilesKey(db: Db, ys: seq<Uuid>, from: string, to: string, k: string)
    requires NoDup(ys)
    requires forall y :: y in ys && y in db.files ==>
      db.files[y].fullFilePath != k && MoveFiles(db, ys, from, to).files[y].fullFilePath != k
    ensures SameKey(db.filePaths, MoveFiles(db, ys, from, to).filePaths, k)
    decreases |ys|
  {
    if ys != [] {
      var d := MoveFile(db, ys[0], from, to);
      var r := MoveFiles(d, ys[1..], from, to);
      NoDupTail(ys);
      if ys[0] in db.files {
        MoveFilesOther(d, ys[1..], from, to, ys[0]);
      }
      MoveFilesKey(d, ys[1..], from, to, k);
    }
  }

  lemma NoDupTail(ys: seq<Uuid>)
    requires NoDup(ys) && ys != []
    ensures NoDup(ys[1..]) && ys[0] !in ys[1..]
  {
    forall i, j | 0 <= i < j < |ys[1..]| ensures ys[1..][i] != ys[1..][j] {
      assert ys[1..][i] == ys[i + 1] && ys[1..][j] == ys[j + 1];
    }
    forall j | 0 <= j < |ys[1..]| ensures ys[1..][j] != ys[0] {
      assert ys[1..][j] == ys[j + 1];
    }
  }

  /** A listed file ends bound under its new path, unless another listed
      file started or ended at that path. */
  lemma {:induction false} MoveFilesBinds(db: Db, ys: seq<Uuid>, from: string, to: string, y: Uuid)
    requires NoDup(ys) && y in ys && y in db.files
    requires var q := ReplaceAll(db.files[y].fullFilePath, from, to);
      forall z :: z in ys && z != y && z in db.files ==>
        db.files[z].fullFilePath != q && MoveFiles(db, ys, from, to).files[z].fullFilePath != q
    ensures var q := ReplaceAll(db.files[y].fullFilePath, from, to);
      q in MoveFiles(db, ys, from, to).filePaths && MoveFiles(db, ys, from, to).filePaths[q] == y
    decreases |ys|
  {
    var d := MoveFile(db, ys[0], from, to);
    NoDupTail(ys);
    if ys[0] == y {
      MoveFilesKey(d, ys[1..], from, to, ReplaceAll(db.files[y].fullFilePath, from, to));
    } else {
      MoveFilesBinds(d, ys[1..], from, to, y);
    }
  }

  /** `update_subfolder_paths(x, from, to)`: with the lists of `x` as they
      are on entry, every listed subfolder gets `from` replaced by `to` in
      its path and the call recurses into it with its own old and new path;
      then every listed file gets the same replacement.  Children younger
      than their parents make the recursion end. */
  function UpdatePaths(db: Db, x: Uuid, from: string, to: string): (r: Db)
    requires ChildrenYounger(db)
    ensures SameShape(db, r)
    decreases db.counter - x.k, 1, 0
  {
    if x in db.folders then
      var f := db.folders[x];
      var d := UpdateSubfolders(db, x, f.subfolderUuids, from, to);
      var r := MoveFiles(d, f.fileUuids, from, to);
      ShapeTrans(db, d, r);
      r
    else db
  }

  /** The loop over the subfolders `subs` of `x`. */
  function UpdateSubfolders(db: Db, x: Uuid, subs: seq<Uuid>, from: string, to: string): (r: Db)
    requires ChildrenYounger(db)
    requires forall c :: c in subs ==> x.k < c.k < db.counter
    ensures SameShape(db, r)
    decreases db.counter - x.k, 0, |subs|
  {
    if subs == [] then db
    else
      var d := MoveSubtree(db, x, subs[0], from, to);
      ShapeChildrenYounger(db, d);
      var r := UpdateSubfolders(d, x, subs[1..], from, to);
      ShapeTrans(db, d, r);
      r
  }

  /** One pass of that loop: subfolder `c` re-keyed and its subtree
      rewritten from its old path to its new one. */
  function MoveSubtree(db: Db, x: Uuid, c: Uuid, from: string, to: string): (r: Db)
    requires ChildrenYounger(db) && x.k < c.k < db.counter
    ensures SameShape(db, r)
    decreases db.counter - x.k, 0, 0
  {
    if c in db.folders then
      var p := db.folders[c].fullFolderPath;
      var q := ReplaceAll(p, from, to);
      var m := MoveFolder(db, c, q);
      ShapeChildrenYounger(db, m);
      var r := UpdatePaths(m, c, p, q);
      ShapeTrans(db, m, r);
      r
    else db
  }

  /** The rewrite below `x` never touches `x` itself nor any folder as old
      as `x`. */
  lemma {:induction false} UpdatePathsKeeps(db: Db, x: Uuid, from: string, to: string, y: Uuid)
    requires ChildrenYounger(db) && y in db.folders && y.k <= x.k
    ensures UpdatePaths(db, x, from, to).folders[y] == db.folders[y]
    decreases db.counter - x.k, 1, 0
  {
    if x in db.folders {
      UpdateSubfoldersKeeps(db, x, db.folders[x].subfolderUuids, from, to, y);
    }
  }

  lemma {:induction false} UpdateSubfoldersKeeps(db: Db, x: Uuid, subs: seq<Uuid>, from: string, to: string, y: Uuid)
    requires ChildrenYounger(db) && forall c :: c in subs ==> x.k < c.k < db.counter
    requires y in db.folders && y.k <= x.k
    ensures UpdateSubfolders(db, x, subs, from, to).folders[y] == db.folders[y]
    decreases db.counter - x.k, 0, |subs|
  {
    if subs != [] {
      var d := MoveSubtree(db, x, subs[0], from, to);
      MoveSubtreeKeeps(db, x, subs[0], from, to, y);
      ShapeChildrenYounger(db, d);
      UpdateSubfoldersKeeps(d, x, subs[1..], from, to, y);
    }
  }

  lemma {:induction false} MoveSubtreeKeeps(db: Db, x: Uuid, c: Uuid, from: string, to: string, y: Uuid)
    requires ChildrenYounger(db) && x.k < c.k < db.counter
    requires y in db.folders && y.k <= x.k
    ensures MoveSubtree(db, x, c, from, to).folders[y] == db.folders[y]
    decreases db.counter - x.k, 0, 0
  {
    if c in db.folders {
      var p := db.folders[c].fullFolderPath;
      var q := ReplaceAll(p, from, to);
      var m := MoveFolder(db, c, q);
      ShapeChildrenYounger(db, m);
      UpdatePathsKeeps(m, c, p, q, y);
    }
  }

  // ---------------------------------------------------------------------------
  // The indexes under a path rewrite

  /** Both index invariants that a rewrite has to re-establish. */
  predicate Indexed(db: Db) {
    FolderIndexTargets(db) && FileIndexSound(db)
  }

  lemma MoveFolderIndexes(db: Db, c: Uuid, q: string)
    requires c in db.folders
    ensures Indexed(db) ==> Indexed(MoveFolder(db, c, q))
    ensures FolderIndexAgrees(db) ==> FolderIndexAgrees(MoveFolder(db, c, q))
  {
    var r := MoveFolder(db, c, q);
    if FolderIndexAgrees(db) {
      forall k | k in r.folderPaths
        ensures r.folderPaths[k] in r.folders && r.folders[r.folderPaths[k]].fullFolderPath == k
      {
        if k != q {
          assert db.folderPaths[k] != c;
        }
      }
    }
  }

  lemma MoveFileIndexes(db: Db, y: Uuid, from: string, to: string)
    ensures Indexed(db) ==> Indexed(MoveFile(db, y, from, to))
    ensures FolderIndexAgrees(db) ==> FolderIndexAgrees(MoveFile(db, y, from, to))
  {
    var r := MoveFile(db, y, from, to);
    if Indexed(db) && y in db.files {
      var q := ReplaceAll(db.files[y].fullFilePath, from, to);
      forall k | k in r.filePaths
        ensures r.filePaths[k] in r.files && r.files[r.filePaths[k]].fullFilePath == k
      {
        if k != q {
          assert db.filePaths[k] != y;
        }
      }
    }
  }

  lemma {:induction false} MoveFilesIndexes(db: Db, ys: seq<Uuid>, from: string, to: string)
    ensures Indexed(db) ==> Indexed(MoveFiles(db, ys, from, to))
    ensures FolderIndexAgrees(db) ==> FolderIndexAgrees(MoveFiles(db, ys, from, to))
    decreases |ys|
  {
    if ys != [] {
      MoveFileIndexes(db, ys[0], from, to);
      MoveFilesIndexes(MoveFile(db, ys[0], from, to), ys[1..], from, to);
    }
  }

  /** The rewrite keeps the folder index naming existing folders, the file
      index sound and, when it held, the folder index in agreement with the
      records. */
  lemma {:induction false} UpdatePathsIndexes(db: Db, x: Uuid, from: string, to: string)
    requires ChildrenYounger(db)
    ensures Indexed(db) ==> Indexed(UpdatePaths(db, x, from, to))
    ensures FolderIndexAgrees(db) ==> FolderIndexAgrees(UpdatePaths(db, x, from, to))
    decreases db.counter - x.k, 1, 0
  {
    if x in db.folders {
      var f := db.folders[x];
      UpdateSubfoldersIndexes(db, x, f.subfolderUuids, from, to);
      MoveFilesIndexes(UpdateSubfolders(db, x, f.subfolderUuids, from, to), f.fileUuids, from, to);
    }
  }

  lemma {:induction false} UpdateSubfoldersIndexes(db: Db, x: Uuid, subs: seq<Uuid>, from: string, to: string)
    requires ChildrenYounger(db) && forall c :: c in subs ==> x.k < c.k < db.counter
    ensures Indexed(db) ==> Indexed(UpdateSubfolders(db, x, subs, from, to))
    ensures FolderIndexAgrees(db) ==> FolderIndexAgrees(UpdateSubfolders(db, x, subs, from, to))
    decreases db.counter - x.k, 0, |subs|
  {
    if subs != [] {
      var d := MoveSubtree(db, x, subs[0], from, to);
      MoveSubtreeIndexes(db, x, subs[0], from, to);
      ShapeChildrenYounger(db, d);
      UpdateSubfoldersIndexes(d, x, subs[1..], from, to);
    }
  }

  lemma {:induction false} MoveSubtreeIndexes(db: Db, x: Uuid, c: Uuid, from: string, to: string)
    requires ChildrenYounger(db) && x.k < c.k < db.counter
    ensures Indexed(db) ==> Indexed(MoveSubtree(db, x, c, from, to))
    ensures FolderIndexAgrees(db) ==> FolderIndexAgrees(MoveSubtree(db, x, c, from, to))
    decreases db.counter - x.k, 0, 0
  {
    if c in db.folders {
      var p := db.folders[c].fullFolderPath;
      var q := ReplaceAll(p, from, to);
      var m := MoveFolder(db, c, q);
      MoveFolderIndexes(db, c, q);
      ShapeChildrenYounger(db, m);
      UpdatePathsIndexes(m, c, p, q);
    }
  }

  /** A table that differs only in paths and indexes is valid when the
      indexes are. */
  lemma ShapeValid(a: Db, b: Db)
    requires Valid(a) && SameShape(a, b) && Indexed(b)
    ensures Valid(b)
  {
  }

  // ---------------------------------------------------------------------------
  // Folder keys end in `/` or `:`

  predicate EndsInSlashOrColon(s: string) {
    s != [] && (s[|s| - 1] == '/' || s[|s| - 1] == ':')
  }

  /** Every folder key and every folder path ends in `/` (a folder below a
      root) or `:` (a root `<ns>::`), as the builders write them. */
  predicate KeyEnds(db: Db) {
    && (forall k :: k in db.folderPaths ==> EndsInSlashOrColon(k))
    && (forall id :: id in db.folders ==> EndsInSlashOrColon(db.folders[id].fullFolderPath))
  }

  lemma LastOfAppend(a: string, b: string)
    requires b != []
    ensures |a + b| > 0 && (a + b)[|a + b| - 1] == b[|b| - 1]
  {
  }

  /** The last character of a replacement result is the last character of
      the text or of the replacement. */
  lemma {:induction false} ReplaceAllLast(s: string, from: string, to: string)
    requires s != [] && to != []
    ensures var r := ReplaceAll(s, from, to);
      r != [] && (r[|r| - 1] == s[|s| - 1] || r[|r| - 1] == to[|to| - 1])
    decreases |s|
  {
    var r := ReplaceAll(s, from, to);
    if from == [] {
      var tail := ReplaceAll(s[1..], from, to);
      assert r == (to + [s[0]]) + tail;
      if |s| > 1 {
        ReplaceAllLast(s[1..], from, to);
        assert s[1..][|s[1..]| - 1] == s[|s| - 1];
      } else {
        assert tail == to;
      }
      LastOfAppend(to + [s[0]], tail);
    } else if |s| < |from| {
    } else if s[..|from|] == from {
      var tail := ReplaceAll(s[|from|..], from, to);
      assert r == to + tail;
      if |s| > |from| {
        ReplaceAllLast(s[|from|..], from, to);
        assert s[|from|..][|s[|from|..]| - 1] == s[|s| - 1];
        LastOfAppend(to, tail);
      } else {
        assert tail == [];
        assert r == to;
      }
    } else {
      var tail := ReplaceAll(s[1..], from, to);
      assert r == [s[0]] + tail;
      if |s| > 1 {
        ReplaceAllLast(s[1..], from, to);
        assert s[1..][|s[1..]| - 1] == s[|s| - 1];
        LastOfAppend([s[0]], tail);
      } else {
        assert tail == [];
      }
    }
  }

  lemma MoveFolderKeyEnds(db: Db, c: Uuid, q: string)
    requires c in db.folders && KeyEnds(db) && EndsInSlashOrColon(q)
    ensures KeyEnds(MoveFolder(db, c, q))
  {
  }

  lemma {:induction false} UpdatePathsKeyEnds(db: Db, x: Uuid, from: string, to: string)
    requires ChildrenYounger(db) && KeyEnds(db) && EndsInSlashOrColon(to)
    ensures KeyEnds(UpdatePaths(db, x, from, to))
    decreases db.counter - x.k, 1, 0
  {
    if x in db.folders {
      var f := db.folders[x];
      UpdateSubfoldersKeyEnds(db, x, f.subfolderUuids, from, to);
    }
  }

  lemma {:induction false} UpdateSubfoldersKeyEnds(db: Db, x: Uuid, subs: seq<Uuid>, from: string, to: string)
    requires ChildrenYounger(db) && forall c :: c in subs ==> x.k < c.k < db.counter
    requires KeyEnds(db) && EndsInSlashOrColon(to)
    ensures KeyEnds(UpdateSubfolders(db, x, subs, from, to))
    decreases db.counter - x.k, 0, |subs|
  {
    if subs != [] {
      var d := MoveSubtree(db, x, subs[0], from, to);
      MoveSubtreeKeyEnds(db, x, subs[0], from, to);
      ShapeChildrenYounger(db, d);
      UpdateSubfoldersKeyEnds(d, x, subs[1..], from, to);
    }
  }

  lemma {:induction false} MoveSubtreeKeyEnds(db: Db, x: Uuid, c: Uuid, from: string, to: string)
    requires ChildrenYounger(db) && x.k < c.k < db.counter
    requires KeyEnds(db) && EndsInSlashOrColon(to)
    ensures KeyEnds(MoveSubtree(db, x, c, from, to))
    decreases db.counter - x.k, 0, 0
  {
    if c in db.folders {
      var p := db.folders[c].fullFolderPath;
      var q := ReplaceAll(p, from, to);
      ReplaceAllLast(p, from, to);
      var m := MoveFolder(db, c, q);
      MoveFolderKeyEnds(db, c, q);
      ShapeChildrenYounger(db, m);
      UpdatePathsKeyEnds(m, c, p, q);
    }
  }

  // ---------------------------------------------------------------------------
  // rename_folder

  /** rename_folder's checks: the folder must exist, its key must hold
      `::`, and the key the new name gives must be free. */
  function RenameTarget(db: Db, id: Uuid, newName: string): (r: Result<FolderMove>)
    ensures r == Err("Folder not found") <==> id !in db.folders
    ensures r == Err("Invalid folder structure") <==>
      id in db.folders && !HasSep(db.folders[id].fullFolderPath)
    ensures r == Err("A folder with the new name already exists in the parent directory") <==>
      && id in db.folders && HasSep(db.folders[id].fullFolderPath)
      && FolderRenameTarget(db.folders[id].fullFolderPath, newName).value.newPath in db.folderPaths
    ensures r.Ok? ==>
      && id in db.folders && r.value.newPath !in db.folderPaths
      && FolderRenameTarget(db.folders[id].fullFolderPath, newName) == Some(r.value)
  {
    if id !in db.folders then Err("Folder not found")
    else
      match FolderRenameTarget(db.folders[id].fullFolderPath, newName)
      case None => Err("Invalid folder structure")
      case Some(m) =>
        if m.newPath in db.folderPaths then
          Err("A folder with the new name already exists in the parent directory")
        else Ok(m)
  }

  /** The renamed record with its new name and stamp, re-keyed. */
  function Retitle(db: Db, id: Uuid, newName: string, now: u64, newPath: string): (r: Db)
    requires id in db.folders
    ensures r.counter == db.counter && r.files == db.files && r.filePaths == db.filePaths
    ensures r.folders == db.folders[id := db.folders[id].(
      originalFolderName := newName, fullFolderPath := newPath, lastChangedUnixMs := MsOf(now))]
    ensures r.folderPaths == Drop(db.folderPaths, db.folders[id].fullFolderPath)[newPath := id]
  {
    MoveFolder(PutFolder(db, id, db.folders[id].(originalFolderName := newName, lastChangedUnixMs := MsOf(now))), id, newPath)
  }

  /** The changes rename_folder makes once the new key is known to be free:
      the record retitled, then the subtree below it rewritten from the old
      key to the new one. */
  function Relocate(db: Db, id: Uuid, newName: string, now: u64, newPath: string): (r: Db)
    requires ChildrenYounger(db) && id in db.folders
    ensures r.counter == db.counter && r.folders.Keys == db.folders.Keys && r.files.Keys == db.files.Keys
  {
    var db1 := Retitle(db, id, newName, now, newPath);
    ChildrenYoungerFrame(db, db1);
    UpdatePaths(db1, id, db.folders[id].fullFolderPath, newPath)
  }

  /** rename_folder past its checks: the changes applied, then the parent
      looked up under `parentKey`; when found, it gets the folder appended
      to its subfolder list unless already there. */
  function RenameAt(db: Db, id: Uuid, newName: string, now: u64, m: FolderMove, parentKey: string): (r: (Result<()>, Db))
    requires ChildrenYounger(db) && id in db.folders
    ensures r.0 == Ok(()) || r.0 == Err("Parent folder not found")
    ensures r.0 == Err("Parent folder not found") <==> m.parentPath != [] && parentKey !in r.1.folderPaths
  {
    var db2 := Relocate(db, id, newName, now, m.newPath);
    if m.parentPath == [] then (Ok(()), db2)
    else if parentKey !in db2.folderPaths then (Err("Parent folder not found"), db2)
    else (Ok(()), LinkChild(db2, db2.folderPaths[parentKey], id, true))
  }

  /** The outcomes rename_folder can return: one of the three checks on the
      old tables, each under its own condition, or the result of the parent
      lookup once they pass. */
  predicate RenameOutcome(db: Db, id: Uuid, newName: string, res: Result<()>) {
    match RenameTarget(db, id, newName)
    case Err(e) => res == Err(e)
    case Ok(_) => res == Ok(()) || res == Err("Parent folder not found")
  }

  /** `rename_folder`, which looks the parent up under `<ns>::<parent part>`. */
  function RenameFolder(db: Db, id: Uuid, newName: string, now: u64): (r: (Result<()>, Db))
    requires ChildrenYounger(db)
    ensures RenameOutcome(db, id, newName, r.0)
  {
    match RenameTarget(db, id, newName)
    case Err(e) => (Err(e), db)
    case Ok(m) => RenameAt(db, id, newName, now, m, ParentKey(m))
  }

  /** rename_folder as evidently intended: the parent looked up under its
      own key, which ends in `/`. */
  function RenameFolderCorrected(db: Db, id: Uuid, newName: string, now: u64): (r: (Result<()>, Db))
    requires ChildrenYounger(db)
    ensures RenameOutcome(db, id, newName, r.0)
  {
    match RenameTarget(db, id, newName)
    case Err(e) => (Err(e), db)
    case Ok(m) => RenameAt(db, id, newName, now, m, ParentKey(m) + "/")
  }

  // ---------------------------------------------------------------------------
  // Relocate

  /** The renamed record ends up with the new name, key and stamp, and
      nothing else of it changes. */
  lemma RelocateRecord(db: Db, id: Uuid, newName: string, now: u64, newPath: string)
    requires ChildrenYounger(db) && id in db.folders
    ensures Relocate(db, id, newName, now, newPath).folders[id] == db.folders[id].(
      originalFolderName := newName, fullFolderPath := newPath, lastChangedUnixMs := MsOf(now))
  {
    var db1 := Retitle(db, id, newName, now, newPath);
    ChildrenYoungerFrame(db, db1);
    UpdatePathsKeeps(db1, id, db.folders[id].fullFolderPath, newPath, id);
  }

  /** Folders older than the renamed one are untouched. */
  lemma RelocateKeepsOlder(db: Db, id: Uuid, newName: string, now: u64, newPath: string, y: Uuid)
    requires ChildrenYounger(db) && id in db.folders && y in db.folders && y.k < id.k
    ensures Relocate(db, id, newName, now, newPath).folders[y] == db.folders[y]
  {
    var db1 := Retitle(db, id, newName, now, newPath);
    ChildrenYoungerFrame(db, db1);
    UpdatePathsKeeps(db1, id, db.folders[id].fullFolderPath, newPath, y);
  }

  /** Every other record changes at most in its path. */
  lemma RelocateShape(db: Db, id: Uuid, newName: string, now: u64, newPath: string)
    requires ChildrenYounger(db) && id in db.folders
    ensures var r := Relocate(db, id, newName, now, newPath);
      && (forall y :: y in db.files ==> r.files[y] == db.files[y].(fullFilePath := r.files[y].fullFilePath))
      && (forall y :: y in db.folders && y != id ==>
            r.folders[y] == db.folders[y].(fullFolderPath := r.folders[y].fullFolderPath))
  {
    var db1 := Retitle(db, id, newName, now, newPath);
    ChildrenYoungerFrame(db, db1);
    var r := UpdatePaths(db1, id, db.folders[id].fullFolderPath, newPath);
    assert SameShape(db1, r);
  }

  /** Retitling keeps the tables valid and the folder index in agreement. */
  lemma RetitleValid(db: Db, id: Uuid, newName: string, now: u64, newPath: string)
    requires id in db.folders && Valid(db)
    ensures Valid(Retitle(db, id, newName, now, newPath))
    ensures FolderIndexAgrees(db) ==> FolderIndexAgrees(Retitle(db, id, newName, now, newPath))
  {
    var r := Retitle(db, id, newName, now, newPath);
    FileSideFrame(db, r);
    if FolderIndexAgrees(db) {
      forall k | k in r.folderPaths
        ensures r.folderPaths[k] in r.folders && r.folders[r.folderPaths[k]].fullFolderPath == k
      {
        if k != newPath {
          assert db.folderPaths[k] != id;
        }
      }
    }
  }

  /** Relocating keeps the tables valid and the folder index in agreement. */
  lemma RelocateValid(db: Db, id: Uuid, newName: string, now: u64, newPath: string)
    requires ChildrenYounger(db) && id in db.folders && Valid(db)
    ensures Valid(Relocate(db, id, newName, now, newPath))
    ensures FolderIndexAgrees(db) ==> FolderIndexAgrees(Relocate(db, id, newName, now, newPath))
  {
    var db1 := RelocateParts(db, id, newName, now, newPath);
    RetitleValid(db, id, newName, now, newPath);
    UpdatePathsIndexes(db1, id, db.folders[id].fullFolderPath, newPath);
    ShapeValid(db1, UpdatePaths(db1, id, db.folders[id].fullFolderPath, newPath));
  }

  /** Relocating is retitling, then rewriting the paths from the folder
      down. */
  lemma RelocateParts(db: Db, id: Uuid, newName: string, now: u64, newPath: string) returns (db1: Db)
    requires ChildrenYounger(db) && id in db.folders
    ensures db1 == Retitle(db, id, newName, now, newPath) && ChildrenYounger(db1)
    ensures Relocate(db, id, newName, now, newPath) == UpdatePaths(db1, id, db.folders[id].fullFolderPath, newPath)
  {
    db1 := Retitle(db, id, newName, now, newPath);
    ChildrenYoungerFrame(db, db1);
  }

  /** Every folder key keeps ending in `/` or `:` when the new key does. */
  lemma RelocateKeyEnds(db: Db, id: Uuid, newName: string, now: u64, newPath: string)
    requires ChildrenYounger(db) && id in db.folders && KeyEnds(db) && EndsInSlashOrColon(newPath)
    ensures KeyEnds(Relocate(db, id, newName, now, newPath))
  {
    var db1 := Retitle(db, id, newName, now, newPath);
    ChildrenYoungerFrame(db, db1);
    UpdatePathsKeyEnds(db1, id, db.folders[id].fullFolderPath, newPath);
  }

  /** A folder without subfolders is re-keyed and no other folder key
      moves. */
  lemma RelocateNoSubfolders(db: Db, id: Uuid, newName: string, now: u64, newPath: string)
    requires ChildrenYounger(db) && id in db.folders && db.folders[id].subfolderUuids == []
    ensures Relocate(db, id, newName, now, newPath).folderPaths
      == Drop(db.folderPaths, db.folders[id].fullFolderPath)[newPath := id]
  {
    var db1 := Retitle(db, id, newName, now, newPath);
    ChildrenYoungerFrame(db, db1);
    var from := db.folders[id].fullFolderPath;
    assert UpdateSubfolders(db1, id, [], from, newPath) == db1;
    assert UpdatePaths(db1, id, from, newPath) == MoveFiles(db1, db1.folders[id].fileUuids, from, newPath);
  }

  /** For a folder without subfolders, every key other than its old and new
      one keeps its binding. */
  lemma RelocateKeepsKey(db: Db, id: Uuid, newName: string, now: u64, newPath: string, key: string)
    requires ChildrenYounger(db) && id in db.folders && db.folders[id].subfolderUuids == []
    requires key != db.folders[id].fullFolderPath && key != newPath && key in db.folderPaths
    ensures var r := Relocate(db, id, newName, now, newPath);
      key in r.folderPaths && r.folderPaths[key] == db.folderPaths[key]
  {
    RelocateNoSubfolders(db, id, newName, now, newPath);
  }

  /** A folder without subfolders or files: only its own record and key
      change. */
  lemma RelocateLeaf(db: Db, id: Uuid, newName: string, now: u64, newPath: string)
    requires ChildrenYounger(db) && id in db.folders
    requires db.folders[id].subfolderUuids == [] && db.folders[id].fileUuids == []
    ensures Relocate(db, id, newName, now, newPath) == Retitle(db, id, newName, now, newPath)
  {
    var db1 := Retitle(db, id, newName, now, newPath);
    ChildrenYoungerFrame(db, db1);
    var from := db.folders[id].fullFolderPath;
    assert UpdateSubfolders(db1, id, [], from, newPath) == db1;
    assert MoveFiles(db1, [], from, newPath) == db1;
  }

  // ---------------------------------------------------------------------------
  // The parent link

  /** The parent repair appends the child to one list at most. */
  lemma LinkChildEffect(db: Db, parent: Uuid, child: Uuid)
    ensures var r := LinkChild(db, parent, child, true);
      && (forall y :: y in db.folders && y != parent ==> r.folders[y] == db.folders[y])
      && (parent in db.folders ==>
            && r.folders[parent] == db.folders[parent].(subfolderUuids := r.folders[parent].subfolderUuids)
            && child in r.folders[parent].subfolderUuids
            && (r.folders[parent].subfolderUuids == db.folders[parent].subfolderUuids ||
                r.folders[parent].subfolderUuids == db.folders[parent].subfolderUuids + [child]))
  {
  }

  /** Past the checks: the renamed record as Relocate leaves it but for its
      subfolder list, every other record changed at most in its path and
      one subfolder list extended by the renamed folder. */
  lemma RenameAtRecord(db: Db, id: Uuid, newName: string, now: u64, m: FolderMove, parentKey: string)
    requires ChildrenYounger(db) && id in db.folders
    ensures var r := RenameAt(db, id, newName, now, m, parentKey).1;
      && r.counter == db.counter && r.folders.Keys == db.folders.Keys && r.files.Keys == db.files.Keys
      && r.folders[id] == db.folders[id].(
           originalFolderName := newName, fullFolderPath := m.newPath, lastChangedUnixMs := MsOf(now),
           subfolderUuids := r.folders[id].subfolderUuids)
  {
    RelocateRecord(db, id, newName, now, m.newPath);
    var db2 := RenameAtParts(db, id, newName, now, m, parentKey);
    if parentKey in db2.folderPaths {
      LinkChildEffect(db2, db2.folderPaths[parentKey], id);
    }
  }

  /** RenameAt is Relocate, then possibly the parent repair. */
  lemma RenameAtParts(db: Db, id: Uuid, newName: string, now: u64, m: FolderMove, parentKey: string)
    returns (db2: Db)
    requires ChildrenYounger(db) && id in db.folders
    ensures db2 == Relocate(db, id, newName, now, m.newPath)
    ensures var r := RenameAt(db, id, newName, now, m, parentKey).1;
      r == db2 || (parentKey in db2.folderPaths && r == LinkChild(db2, db2.folderPaths[parentKey], id, true))
  {
    db2 := Relocate(db, id, newName, now, m.newPath);
  }

  /** Past the checks, file records change only in their path, and every
      other folder record only in its path and by the renamed folder
      appended to its subfolder list. */
  lemma RenameAtFrame(db: Db, id: Uuid, newName: string, now: u64, m: FolderMove, parentKey: string)
    requires ChildrenYounger(db) && id in db.folders
    ensures var r := RenameAt(db, id, newName, now, m, parentKey).1;
      && (forall y :: y in db.files ==> r.files[y] == db.files[y].(fullFilePath := r.files[y].fullFilePath))
      && (forall y :: y in db.folders && y != id ==>
            && r.folders[y] == db.folders[y].(fullFolderPath := r.folders[y].fullFolderPath,
                                             subfolderUuids := r.folders[y].subfolderUuids)
            && (r.folders[y].subfolderUuids == db.folders[y].subfolderUuids ||
                r.folders[y].subfolderUuids == db.folders[y].subfolderUuids + [id]))
  {
    RelocateShape(db, id, newName, now, m.newPath);
    var db2 := RenameAtParts(db, id, newName, now, m, parentKey);
    var r := RenameAt(db, id, newName, now, m, parentKey).1;
    if r != db2 {
      LinkChildEffect(db2, db2.folderPaths[parentKey], id);
      RenameAtLinkedFrame(db, db2, r, id, db2.folderPaths[parentKey]);
    }
  }

  /** The frame, once the parent repair has been applied to `db2`. */
  lemma RenameAtLinkedFrame(db: Db, db2: Db, r: Db, id: Uuid, p: Uuid)
    requires db2.folders.Keys == db.folders.Keys && r.folders.Keys == db2.folders.Keys
    requires forall y :: y in db.folders && y != id ==>
      db2.folders[y] == db.folders[y].(fullFolderPath := db2.folders[y].fullFolderPath)
    requires forall y :: y in db2.folders && y != p ==> r.folders[y] == db2.folders[y]
    requires p in db2.folders ==>
      && r.folders[p] == db2.folders[p].(subfolderUuids := r.folders[p].subfolderUuids)
      && (r.folders[p].subfolderUuids == db2.folders[p].subfolderUuids ||
          r.folders[p].subfolderUuids == db2.folders[p].subfolderUuids + [id])
    ensures forall y :: y in db.folders && y != id ==>
      && r.folders[y] == db.folders[y].(fullFolderPath := r.folders[y].fullFolderPath,
                                       subfolderUuids := r.folders[y].subfolderUuids)
      && (r.folders[y].subfolderUuids == db.folders[y].subfolderUuids ||
          r.folders[y].subfolderUuids == db.folders[y].subfolderUuids + [id])
  {
  }

  lemma RenameAtKeepsOlder(db: Db, id: Uuid, newName: string, now: u64, m: FolderMove, parentKey: string, y: Uuid)
    requires ChildrenYounger(db) && id in db.folders && y in db.folders && y.k < id.k
    ensures var r := RenameAt(db, id, newName, now, m, parentKey).1;
      y in r.folders && r.folders[y].fullFolderPath == db.folders[y].fullFolderPath
  {
    RelocateKeepsOlder(db, id, newName, now, m.newPath, y);
    var db2 := RenameAtParts(db, id, newName, now, m, parentKey);
    if parentKey in db2.folderPaths {
      LinkChildEffect(db2, db2.folderPaths[parentKey], id);
    }
  }

  /** When the parent key is bound to a folder, the rename succeeds and that
      folder lists the renamed one. */
  lemma RenameAtLinks(db: Db, id: Uuid, newName: string, now: u64, m: FolderMove, parentKey: string)
    requires ChildrenYounger(db) && id in db.folders && m.parentPath != []
    ensures var db2 := Relocate(db, id, newName, now, m.newPath);
      var r := RenameAt(db, id, newName, now, m, parentKey);
      parentKey in db2.folderPaths && db2.folderPaths[parentKey] in db.folders ==>
        && r.0 == Ok(())
        && db2.folderPaths[parentKey] in r.1.folders
        && id in r.1.folders[db2.folderPaths[parentKey]].subfolderUuids
  {
    var db2 := Relocate(db, id, newName, now, m.newPath);
    if parentKey in db2.folderPaths {
      LinkChildEffect(db2, db2.folderPaths[parentKey], id);
    }
  }

  // ---------------------------------------------------------------------------
  // rename_folder's properties

  /** The three checks leave the tables as they were. */
  lemma RenameFolderRejects(db: Db, id: Uuid, newName: string, now: u64)
    requires ChildrenYounger(db)
    ensures var r := RenameFolder(db, id, newName, now);
      && (r.0 == Err("Folder not found") <==> RenameTarget(db, id, newName) == Err("Folder not found"))
      && (r.0 != Ok(()) && r.0 != Err("Parent folder not found") ==> r.1 == db)
  {
  }

  /** Past the checks, the renamed record carries the new name, the new key
      and the clock, and nothing else of it changes but its subfolder
      list. */
  lemma RenameFolderRecord(db: Db, id: Uuid, newName: string, now: u64)
    requires ChildrenYounger(db)
    ensures var r := RenameFolder(db, id, newName, now);
      RenameTarget(db, id, newName).Ok? ==>
        && id in db.folders && id in r.1.folders
        && r.1.folders[id] == db.folders[id].(
             originalFolderName := newName,
             fullFolderPath := RenameTarget(db, id, newName).value.newPath,
             lastChangedUnixMs := MsOf(now),
             subfolderUuids := r.1.folders[id].subfolderUuids)
  {
    var t := RenameTarget(db, id, newName);
    if t.Ok? {
      RenameAtRecord(db, id, newName, now, t.value, ParentKey(t.value));
    }
  }

  /** Whatever the outcome, a rename changes no id and no key set; of the
      other records it changes only paths and, in one folder, appends the
      renamed folder to the subfolder list. */
  lemma RenameFolderFrame(db: Db, id: Uuid, newName: string, now: u64)
    requires ChildrenYounger(db)
    ensures var r := RenameFolder(db, id, newName, now).1;
      && r.counter == db.counter && r.folders.Keys == db.folders.Keys && r.files.Keys == db.files.Keys
      && (forall y :: y in db.files ==> r.files[y] == db.files[y].(fullFilePath := r.files[y].fullFilePath))
      && (forall y :: y in db.folders && y != id ==>
            && r.folders[y] == db.folders[y].(fullFolderPath := r.folders[y].fullFolderPath,
                                             subfolderUuids := r.folders[y].subfolderUuids)
            && (r.folders[y].subfolderUuids == db.folders[y].subfolderUuids ||
                r.folders[y].subfolderUuids == db.folders[y].subfolderUuids + [id]))
  {
    var t := RenameTarget(db, id, newName);
    if t.Ok? {
      RenameAtRecord(db, id, newName, now, t.value, ParentKey(t.value));
      RenameAtFrame(db, id, newName, now, t.value, ParentKey(t.value));
    }
  }

  /** Folders older than the renamed one keep their paths: the rewrite only
      reaches down the tree. */
  lemma RenameFolderKeepsOlder(db: Db, id: Uuid, newName: string, now: u64, y: Uuid)
    requires ChildrenYounger(db) && y in db.folders && y.k < id.k
    ensures var r := RenameFolder(db, id, newName, now).1;
      y in r.folders && r.folders[y].fullFolderPath == db.folders[y].fullFolderPath
  {
    var t := RenameTarget(db, id, newName);
    if t.Ok? {
      RenameAtKeepsOlder(db, id, newName, now, t.value, ParentKey(t.value), y);
    }
  }

  /** The parent repair keeps the tables valid and the index in agreement. */
  lemma LinkValid(db: Db, parent: Uuid, child: Uuid)
    requires Valid(db) && child in db.folders
    ensures Valid(LinkChild(db, parent, child, true))
    ensures FolderIndexAgrees(db) ==> FolderIndexAgrees(LinkChild(db, parent, child, true))
  {
    LinkChildValid(db, parent, child, true);
    FileSideFrame(db, LinkChild(db, parent, child, true));
  }

  lemma RenameAtValid(db: Db, id: Uuid, newName: string, now: u64, m: FolderMove, parentKey: string)
    requires ChildrenYounger(db) && id in db.folders && Valid(db)
    ensures Valid(RenameAt(db, id, newName, now, m, parentKey).1)
    ensures FolderIndexAgrees(db) ==> FolderIndexAgrees(RenameAt(db, id, newName, now, m, parentKey).1)
  {
    RelocateValid(db, id, newName, now, m.newPath);
    var db2 := Relocate(db, id, newName, now, m.newPath);
    if m.parentPath != [] && parentKey in db2.folderPaths {
      LinkValid(db2, db2.folderPaths[parentKey], id);
    }
  }

  /** rename_folder keeps the tables valid, and keeps the folder index in
      agreement with the records when it was. */
  lemma RenameFolderValid(db: Db, id: Uuid, newName: string, now: u64)
    requires Valid(db) && ChildrenYounger(db)
    ensures Valid(RenameFolder(db, id, newName, now).1)
    ensures FolderIndexAgrees(db) ==> FolderIndexAgrees(RenameFolder(db, id, newName, now).1)
  {
    var t := RenameTarget(db, id, newName);
    if t.Ok? {
      RenameAtValid(db, id, newName, now, t.value, ParentKey(t.value));
    }
  }

  /** Renaming a folder with no subfolders and no files re-keys it and
      touches no other key and no file. */
  lemma RenameFolderLeaf(db: Db, id: Uuid, newName: string, now: u64)
    requires ChildrenYounger(db) && id in db.folders
    requires db.folders[id].subfolderUuids == [] && db.folders[id].fileUuids == []
    ensures var r := RenameFolder(db, id, newName, now);
      RenameTarget(db, id, newName).Ok? ==>
        && r.1.folderPaths == Drop(db.folderPaths, db.folders[id].fullFolderPath)[RenameTarget(db, id, newName).value.newPath := id]
        && r.1.files == db.files && r.1.filePaths == db.filePaths
  {
    var t := RenameTarget(db, id, newName);
    if t.Ok? {
      RelocateLeaf(db, id, newName, now, t.value.newPath);
    }
  }

  // ---------------------------------------------------------------------------
  // Nested renames

  /** The last character of joined segments is that of the last segment. */
  lemma JoinSlashLast(ss: seq<string>)
    requires ss != [] && ProperSegments(ss)
    ensures var j := JoinSlash(ss); var l := ss[|ss| - 1];
      j != [] && j[|j| - 1] == l[|l| - 1]
  {
  }

  /** The parent part rename_folder reads off a key built from at least
      two segments ends in the last character of the parent's segment. */
  lemma NestedParentLast(storage: string, segs: seq<string>, newName: string)
    requires LeadsToSep(storage) && |segs| >= 2 && ProperSegments(segs)
    ensures var m := FolderRenameTarget(storage + "::" + FolderSuffix(segs), newName);
      var l := segs[|segs| - 2];
      && m.Some? && m.value.parentPath != []
      && ParentKey(m.value)[|ParentKey(m.value)| - 1] == l[|l| - 1]
  {
    FolderRenameParent(storage, segs, newName);
    var front := segs[..|segs| - 1];
    FrontProper(segs);
    JoinSlashLast(front);
    assert front[|front| - 1] == segs[|segs| - 2];
  }

  /** How rename_folder reads a key built from at least two segments: the
      parent key it looks up ends in neither `/` nor `:`, and adding the
      `/` gives the parent's own key. */
  lemma NestedParentKey(storage: string, segs: seq<string>, newName: string)
    requires LeadsToSep(storage) && |segs| >= 2 && ProperSegments(segs)
    requires forall i :: 0 <= i < |segs| ==> ':' !in segs[i]
    ensures var m := FolderRenameTarget(storage + "::" + FolderSuffix(segs), newName);
      && m.Some? && m.value.parentPath != []
      && !EndsInSlashOrColon(ParentKey(m.value))
      && ParentKey(m.value) + "/" == storage + "::" + FolderSuffix(segs[..|segs| - 1])
  {
    NestedParentLast(storage, segs, newName);
    FolderRenameParentLacksSlash(storage, segs, newName);
    var l := segs[|segs| - 2];
    assert l[|l| - 1] in l;
  }

  /** As written, renaming a folder nested below a top-level folder never
      succeeds: the parent is looked up without the `/` that ends every
      folder key, so the rename reports "Parent folder not found" after the
      record, the index and the subtree have already been changed. */
  lemma RenameNestedFolderFails(db: Db, id: Uuid, newName: string, now: u64, storage: string, segs: seq<string>)
    requires ChildrenYounger(db) && KeyEnds(db) && id in db.folders
    requires LeadsToSep(storage) && |segs| >= 2 && ProperSegments(segs)
    requires forall i :: 0 <= i < |segs| ==> ':' !in segs[i]
    requires db.folders[id].fullFolderPath == storage + "::" + FolderSuffix(segs)
    ensures var r := RenameFolder(db, id, newName, now);
      && r.0 != Ok(())
      && (RenameTarget(db, id, newName).Ok? ==>
            r.0 == Err("Parent folder not found")
            && r.1.folders[id].fullFolderPath == RenameTarget(db, id, newName).value.newPath)
  {
    NestedParentKey(storage, segs, newName);
    var t := RenameTarget(db, id, newName);
    if t.Ok? {
      var m := t.value;
      RelocateKeyEnds(db, id, newName, now, m.newPath);
      RelocateRecord(db, id, newName, now, m.newPath);
    }
  }

  /** The parent's key differs from the folder's key before and after the
      rename. */
  lemma NestedKeysDistinct(storage: string, segs: seq<string>, newName: string)
    requires LeadsToSep(storage) && |segs| >= 2 && ProperSegments(segs)
    ensures var key := storage + "::" + FolderSuffix(segs[..|segs| - 1]);
      var m := FolderRenameTarget(storage + "::" + FolderSuffix(segs), newName);
      && m.Some?
      && key != storage + "::" + FolderSuffix(segs) && key != m.value.newPath
  {
    var front := segs[..|segs| - 1];
    FolderSuffixSnoc(front, segs[|segs| - 1]);
    assert segs == front + [segs[|segs| - 1]];
    FolderRenameOfBuiltKey(storage, segs, newName);
    FolderSuffixSnoc(front, newName);
  }

  /** The corrected rename of a nested folder without subfolders succeeds
      whenever its parent's key is bound, and lists the folder in that
      parent. */
  lemma RenameNestedFolderCorrected(db: Db, id: Uuid, newName: string, now: u64, storage: string, segs: seq<string>)
    requires ChildrenYounger(db) && Valid(db) && id in db.folders && db.folders[id].subfolderUuids == []
    requires LeadsToSep(storage) && |segs| >= 2 && ProperSegments(segs)
    requires db.folders[id].fullFolderPath == storage + "::" + FolderSuffix(segs)
    requires storage + "::" + FolderSuffix(segs[..|segs| - 1]) in db.folderPaths
    ensures var r := RenameFolderCorrected(db, id, newName, now);
      var pid := db.folderPaths[storage + "::" + FolderSuffix(segs[..|segs| - 1])];
      RenameTarget(db, id, newName).Ok? ==>
        && r.0 == Ok(())
        && pid in r.1.folders && id in r.1.folders[pid].subfolderUuids
  {
    var t := RenameTarget(db, id, newName);
    if t.Ok? {
      var m := t.value;
      var key := storage + "::" + FolderSuffix(segs[..|segs| - 1]);
      FolderRenameParent(storage, segs, newName);
      FolderRenameParentLacksSlash(storage, segs, newName);
      NestedKeysDistinct(storage, segs, newName);
      RelocateKeepsKey(db, id, newName, now, m.newPath, key);
      RenameAtLinks(db, id, newName, now, m, key);
    }
  }

  /** The corrected rename keeps the tables valid too. */
  lemma RenameFolderCorrectedValid(db: Db, id: Uuid, newName: string, now: u64)
    requires Valid(db) && ChildrenYounger(db)
    ensures Valid(RenameFolderCorrected(db, id, newName, now).1)
  {
    var t := RenameTarget(db, id, newName);
    if t.Ok? {
      RenameAtValid(db, id, newName, now, t.value, ParentKey(t.value) + "/");
    }
  }

  // ---------------------------------------------------------------------------
  // rename_file

  /** The renamed file record: new name, path, stamp and the extension read
      off the new name. */
  function RenamedFile(f: FileMetadata, newName: string, newPath: string, now: u64): (r: FileMetadata)
    ensures r.id == f.id && r.folderUuid == f.folderUuid && r.fileVersion == f.fileVersion
    ensures r.priorVersion == f.priorVersion && r.nextVersion == f.nextVersion
  {
    f.(originalFileName := newName, fullFilePath := newPath,
       lastChangedUnixMs := MsOf(now), extension := Extension(newName))
  }

  /** `rename_file`. */
  function RenameFile(db: Db, id: Uuid, newName: string, now: u64): (r: (Result<()>, Db))
    ensures r.1.folders == db.folders && r.1.folderPaths == db.folderPaths && r.1.counter == db.counter
    ensures r.1.files.Keys == db.files.Keys
    ensures forall y :: y in db.files && y != id ==> r.1.files[y] == db.files[y]
  {
    if id !in db.files then (Err("File not found"), db)
    else
      var f := db.files[id];
      match FileRenameTarget(f.fullFilePath, newName)
      case None => (Err("Invalid file structure"), db)
      case Some(q) =>
        if q in db.filePaths then (Err("A file with this name already exists"), db)
        else
          (Ok(()), db.(files := db.files[id := RenamedFile(f, newName, q, now)],
                      filePaths := Drop(db.filePaths, f.fullFilePath)[q := id]))
  }

  /** Each failure of rename_file has an exact condition and leaves the
      tables as they were; there is no other failure. */
  lemma RenameFileChecks(db: Db, id: Uuid, newName: string, now: u64)
    ensures var r := RenameFile(db, id, newName, now);
      && (r.0 == Err("File not found") <==> id !in db.files)
      && (r.0 == Err("Invalid file structure") <==> id in db.files && !HasSep(db.files[id].fullFilePath))
      && (r.0 == Err("A file with this name already exists") <==>
            && id in db.files && HasSep(db.files[id].fullFilePath)
            && FileRenameTarget(db.files[id].fullFilePath, newName).value in db.filePaths)
      && (r.0.Err? ==> r.1 == db)
      && (r.0.Ok? || r.0 == Err("File not found") || r.0 == Err("Invalid file structure") ||
          r.0 == Err("A file with this name already exists"))
  {
  }

  /** A successful rename_file: the new path finds the renamed record, the
      old path finds nothing, every other path and record is as before, and
      the folders are untouched. */
  lemma RenameFileEffect(db: Db, id: Uuid, newName: string, now: u64)
    requires FileIndexSound(db)
    ensures var r := RenameFile(db, id, newName, now);
      r.0.Ok? ==>
        var f := db.files[id];
        var q := FileRenameTarget(f.fullFilePath, newName).value;
        && GetFileByPath(r.1, q) == Some(RenamedFile(f, newName, q, now))
        && (f.fullFilePath != q ==> GetFileByPath(r.1, f.fullFilePath) == None)
        && (forall k :: k != q && k != f.fullFilePath ==> GetFileByPath(r.1, k) == GetFileByPath(db, k))
        && r.1.folders == db.folders && r.1.folderPaths == db.folderPaths && r.1.counter == db.counter
        && r.1.files.Keys == db.files.Keys
  {
    var r := RenameFile(db, id, newName, now);
    if r.0.Ok? {
      var f := db.files[id];
      var q := FileRenameTarget(f.fullFilePath, newName).value;
      forall k | k != q && k != f.fullFilePath
        ensures GetFileByPath(r.1, k) == GetFileByPath(db, k)
      {
        if k in db.filePaths {
          assert db.filePaths[k] != id;
        }
      }
    }
  }

  /** Rebinding one file's record and index key to a new path keeps the
      file invariants, when the record keeps its id and version links and
      the new path is not yet bound. */
  lemma RebindFileSide(db: Db, d: Db, id: Uuid, q: string)
    requires FileSide(db) && id in db.files && q !in db.filePaths
    requires d.counter == db.counter
    requires d.files.Keys == db.files.Keys
    requires forall y :: y in db.files && y != id ==> d.files[y] == db.files[y]
    requires d.files[id].id == id && d.files[id].fullFilePath == q
    requires d.files[id].priorVersion == db.files[id].priorVersion
    requires d.files[id].nextVersion == db.files[id].nextVersion
    requires d.filePaths == Drop(db.filePaths, db.files[id].fullFilePath)[q := id]
    ensures FileSide(d)
  {
    forall k | k in d.filePaths
      ensures d.filePaths[k] in d.files && d.files[d.filePaths[k]].fullFilePath == k
    {
      if k != q {
        assert db.filePaths[k] != id;
      }
    }
    assert FileIndexSound(d);
    forall y | y in d.files
      ensures d.files[y].id == y && d.files[y].nextVersion == db.files[y].nextVersion
      ensures d.files[y].priorVersion == db.files[y].priorVersion
    {
    }
  }

  /** The file index entry of the old path is the only one naming the
      file, and rename_file replaces it by the new one. */
  lemma RenameFileFileSide(db: Db, id: Uuid, newName: string, now: u64)
    requires FileSide(db)
    ensures FileSide(RenameFile(db, id, newName, now).1)
  {
    var r := RenameFile(db, id, newName, now);
    if r.0.Ok? {
      var q := FileRenameTarget(db.files[id].fullFilePath, newName).value;
      RebindFileSide(db, r.1, id, q);
    }
  }

  /** rename_file keeps the tables valid. */
  lemma RenameFileValid(db: Db, id: Uuid, newName: string, now: u64)
    requires Valid(db)
    ensures Valid(RenameFile(db, id, newName, now).1)
    ensures FolderIndexAgrees(db) ==> FolderIndexAgrees(RenameFile(db, id, newName, now).1)
  {
    RenameFileFileSide(db, id, newName, now);
    FolderSideFrame(db, RenameFile(db, id, newName, now).1);
  }

  /** Renaming a file to a name without `/` keeps it in the same folder:
      splitting the new path gives the old folder part and the new name. */
  lemma RenameFileKeepsFolder(db: Db, id: Uuid, newName: string, now: u64)
    requires '/' !in newName
    ensures var r := RenameFile(db, id, newName, now);
      r.0.Ok? ==>
        var p := db.files[id].fullFilePath;
        && '/' !in SplitOnce(p).value.0 ==>
           SplitPath(r.1.files[id].fullFilePath) == (SplitPath(p).0, newName)
  {
    var r := RenameFile(db, id, newName, now);
    if r.0.Ok? {
      var p := db.files[id].fullFilePath;
      if '/' !in SplitOnce(p).value.0 {
        FileRenameKeepsFolder(p, newName);
      }
    }
  }

  /** Renaming twice is renaming once to the second name, when the first
      name holds no `/`. */
  lemma FileRenameTwice(p: string, n1: string, n2: string)
    requires HasSep(p) && '/' !in n1
    ensures FileRenameTarget(p, n1).Some?
    ensures FileRenameTarget(FileRenameTarget(p, n1).value, n2) == FileRenameTarget(p, n2)
  {
    var (storage, rest) := SplitOnce(p).value;
    match LastSlash(rest)
    case Some(i) =>
      var front := rest[..i];
      assert FileRenameTarget(p, n1).value == storage + "::" + (front + "/" + n1);
      SplitOnceOf(storage, front + "/" + n1);
      LastSlashAfter(front, n1);
      assert (front + "/" + n1)[..i] == front;
    case None =>
      assert FileRenameTarget(p, n1).value == storage + "::" + n1;
      SplitOnceOf(storage, n1);
  }
}
