/**
 * Building the folder tree: `ensure_root_folder`, the segment loop shared by
 * `create_folder` and `ensure_folder_structure`, and those two operations,
 * as functions from the tables before to the result and the tables after.
 */
module Folders {
  import opened Wrappers
  import opened Paths
  import opened Metadata
  import opened Tables

  /** A folder record as the three builders create it: no children, no
      tags, not deleted, stamped with the clock. */
  function NewFolder(id: Uuid, name: string, parent: Option<Uuid>, path: string,
                     user: Principal, now: u64, loc: StorageLocation): FolderMetadata
  {
    FolderMetadata(id, name, parent, [], [], path, [], user, now, loc, MsOf(now), false)
  }

  /** `ensure_root_folder`: the id bound to `<ns>::`, creating a parentless,
      empty-named root there if the key is absent. */
  function EnsureRoot(db: Db, loc: StorageLocation, user: Principal, now: u64): (r: (Uuid, Db))
    ensures loc.RootPath() in r.1.folderPaths && r.1.folderPaths[loc.RootPath()] == r.0
    ensures loc.RootPath() in db.folderPaths ==> r.1 == db
    ensures loc.RootPath() !in db.folderPaths ==>
      && r.0 == Uuid(db.counter) && r.1.counter == db.counter + 1
      && r.1.folders == db.folders[r.0 := NewFolder(r.0, "", None, loc.RootPath(), user, now, loc)]
      && r.1.folderPaths == db.folderPaths[loc.RootPath() := r.0]
      && r.1.files == db.files && r.1.filePaths == db.filePaths
  {
    var rootPath := loc.RootPath();
    if rootPath in db.folderPaths then (db.folderPaths[rootPath], db)
    else
      var id := Uuid(db.counter);
      var root := NewFolder(id, "", None, rootPath, user, now, loc);
      (id, db.(folderPaths := db.folderPaths[rootPath := id],
               folders := db.folders[id := root],
               counter := db.counter + 1))
  }

  /** Drawing the next id for `f` and binding `path` to it. */
  function AddFolder(db: Db, path: string, f: FolderMetadata): (r: Db)
    ensures r.files == db.files && r.filePaths == db.filePaths && r.counter == db.counter + 1
  {
    db.(folderPaths := db.folderPaths[path := f.id], folders := db.folders[f.id := f], counter := db.counter + 1)
  }

  lemma AddFolderValid(db: Db, path: string, f: FolderMetadata)
    requires FolderSide(db) && f.id == Uuid(db.counter) && f.subfolderUuids == [] && f.fileUuids == []
    ensures FolderSide(AddFolder(db, path, f))
    ensures ChildrenYounger(db) ==> ChildrenYounger(AddFolder(db, path, f))
  {
    var d := AddFolder(db, path, f);
    forall id, c | id in d.folders && c in d.folders[id].subfolderUuids
      ensures c.k < d.counter && (ChildrenYounger(db) ==> id.k < c.k)
    {
      assert id != f.id;
    }
    forall id, c | id in d.folders && c in d.folders[id].fileUuids
      ensures c.k < d.counter
    {
      assert id != f.id;
    }
  }

  /** Appending a new child to its parent's `subfolder_uuids`, if the parent
      has a record; `dedup` is `ensure_folder_structure`'s `contains` check. */
  function LinkChild(db: Db, parent: Uuid, child: Uuid, dedup: bool): (r: Db)
    ensures r.files == db.files && r.filePaths == db.filePaths && r.counter == db.counter
    ensures r.folderPaths == db.folderPaths && r.folders.Keys == db.folders.Keys
  {
    if parent in db.folders && !(dedup && child in db.folders[parent].subfolderUuids) then
      PutFolder(db, parent, db.folders[parent].(subfolderUuids := db.folders[parent].subfolderUuids + [child]))
    else db
  }

  lemma LinkChildValid(db: Db, parent: Uuid, child: Uuid, dedup: bool)
    requires FolderSide(db) && child.k < db.counter
    ensures FolderSide(LinkChild(db, parent, child, dedup))
    ensures ChildrenYounger(db) && parent.k < child.k ==> ChildrenYounger(LinkChild(db, parent, child, dedup))
  {
    var d := LinkChild(db, parent, child, dedup);
    if d != db {
      var f := db.folders[parent];
      assert d.folders == db.folders[parent := f.(subfolderUuids := f.subfolderUuids + [child])];
      forall id, c | id in d.folders && c in d.folders[id].subfolderUuids
        ensures c.k < d.counter && (ChildrenYounger(db) && parent.k < child.k ==> id.k < c.k)
      {
        if id == parent && c !in f.subfolderUuids {
          assert c == child;
        }
      }
      assert FolderIdsBelow(d);
    }
  }

  /** One pass of the segment loop for the key `path` and segment `part`:
      the folder that becomes the next parent and, if it had to be created,
      its record as built. */
  function Step(db: Db, path: string, part: string, parent: Uuid, loc: StorageLocation,
                user: Principal, now: u64, dedup: bool): (r: (Uuid, Option<FolderMetadata>, Db))
    ensures r.2.files == db.files && r.2.filePaths == db.filePaths && r.2.counter >= db.counter
  {
    if path in db.folderPaths then (db.folderPaths[path], None, db)
    else
      var id := Uuid(db.counter);
      var f := NewFolder(id, part, Some(parent), path, user, now, loc);
      (id, Some(f), LinkChild(AddFolder(db, path, f), parent, id, dedup))
  }

  /** One pass keeps the invariants, returns a folder, and keeps children
      younger than their parents as long as the parent was drawn before. */
  lemma StepValid(db: Db, path: string, part: string, parent: Uuid, loc: StorageLocation,
                  user: Principal, now: u64, dedup: bool)
    requires Valid(db)
    ensures var r := Step(db, path, part, parent, loc, user, now, dedup);
      Valid(r.2) && r.0 in r.2.folders && r.0.k < r.2.counter
    ensures parent.k < db.counter && ChildrenYounger(db) ==>
      ChildrenYounger(Step(db, path, part, parent, loc, user, now, dedup).2)
  {
    if path !in db.folderPaths {
      var id := Uuid(db.counter);
      var f := NewFolder(id, part, Some(parent), path, user, now, loc);
      AddFolderValid(db, path, f);
      LinkChildValid(AddFolder(db, path, f), parent, id, dedup);
      FileSideFrame(db, Step(db, path, part, parent, loc, user, now, dedup).2);
    }
  }

  /** The part of the folder invariants the segment loop relies on: folder
      ids drawn before the counter, and the index naming existing folders. */
  predicate Tidy(db: Db) {
    && (forall id :: id in db.folders ==> id.k < db.counter)
    && FolderIndexTargets(db)
  }

  lemma FolderSideTidy(db: Db)
    requires FolderSide(db)
    ensures Tidy(db)
  {
  }

  lemma StepTidy(db: Db, path: string, part: string, parent: Uuid, loc: StorageLocation,
                 user: Principal, now: u64, dedup: bool)
    requires Tidy(db)
    ensures var r := Step(db, path, part, parent, loc, user, now, dedup);
      Tidy(r.2) && r.0 in r.2.folders
  {
  }

  /** A pass binds at most its own key. */
  lemma StepKeys(db: Db, path: string, part: string, parent: Uuid, loc: StorageLocation,
                 user: Principal, now: u64, dedup: bool, p: string)
    ensures var d := Step(db, path, part, parent, loc, user, now, dedup).2;
      && (p in db.folderPaths ==> p in d.folderPaths && d.folderPaths[p] == db.folderPaths[p])
      && (p in d.folderPaths ==> p in db.folderPaths || p == path)
  {
  }

  /** A folder record that only gained children. */
  predicate Extends(a: FolderMetadata, b: FolderMetadata) {
    b == a.(subfolderUuids := b.subfolderUuids) && a.subfolderUuids <= b.subfolderUuids
  }

  lemma ExtendsTrans(a: FolderMetadata, b: FolderMetadata, c: FolderMetadata)
    requires Extends(a, b) && Extends(b, c)
    ensures Extends(a, c)
  {
    var x, y, z := a.subfolderUuids, b.subfolderUuids, c.subfolderUuids;
    assert y[..|x|] == x && z[..|y|] == y;
    assert z[..|x|] == x;
  }

  lemma StepKeepsFolder(db: Db, path: string, part: string, parent: Uuid, loc: StorageLocation,
                        user: Principal, now: u64, dedup: bool, id: Uuid)
    requires id in db.folders && Uuid(db.counter) !in db.folders
    ensures var d := Step(db, path, part, parent, loc, user, now, dedup).2;
      id in d.folders && Extends(db.folders[id], d.folders[id])
  {
    if path !in db.folderPaths {
      var n := Uuid(db.counter);
      var x := db.folders[id].subfolderUuids;
      assert x == (x + [n])[..|x|];
    }
  }

  /** The segment loop, from the key `cur` of the current parent `parent`
      over the remaining segments; `last` is the record created by the
      previous pass, if any.  Returns the final folder id and the record
      created by the final pass. */
  function Walk(db: Db, cur: string, segs: seq<string>, parent: Uuid, loc: StorageLocation,
                user: Principal, now: u64, dedup: bool, last: Option<FolderMetadata>)
    : (r: (Uuid, Option<FolderMetadata>, Db))
    ensures r.2.files == db.files && r.2.filePaths == db.filePaths && r.2.counter >= db.counter
    decreases |segs|
  {
    if segs == [] then (parent, last, db)
    else
      var path := cur + segs[0] + "/";
      var (next, made, db1) := Step(db, path, segs[0], parent, loc, user, now, dedup);
      Walk(db1, path, segs[1..], next, loc, user, now, dedup, made)
  }

  /** The key of the `j`-th folder on the walk. */
  function KeyAt(cur: string, segs: seq<string>, j: nat): string
    requires j <= |segs|
  {
    cur + FolderSuffix(segs[..j])
  }

  lemma KeyAtShift(cur: string, segs: seq<string>, j: nat)
    requires 1 <= j <= |segs|
    ensures KeyAt(cur, segs, j) == KeyAt(cur + segs[0] + "/", segs[1..], j - 1)
  {
    assert segs[..j] == [segs[0]] + segs[1..][..j - 1];
    FolderSuffixCons(segs[0], segs[1..][..j - 1]);
  }

  lemma KeyAtFirst(cur: string, segs: seq<string>)
    requires 1 <= |segs|
    ensures KeyAt(cur, segs, 1) == cur + segs[0] + "/"
  {
    assert segs[..1] == [segs[0]];
    FolderSuffixCons(segs[0], []);
  }

  lemma {:induction false} KeyAtLonger(cur: string, segs: seq<string>, i: nat, j: nat)
    requires ProperSegments(segs) && i < j <= |segs|
    ensures |KeyAt(cur, segs, i)| < |KeyAt(cur, segs, j)|
    decreases j
  {
    assert segs[..j][..j - 1] == segs[..j - 1];
    assert segs[j - 1] != [];
    if i < j - 1 {
      KeyAtLonger(cur, segs, i, j - 1);
    }
  }

  /** The walk keeps the invariants and ends on a folder drawn before the
      counter; it keeps children younger than their parents. */
  lemma {:induction false} WalkValid(db: Db, cur: string, segs: seq<string>, parent: Uuid, loc: StorageLocation,
                                     user: Principal, now: u64, dedup: bool, last: Option<FolderMetadata>)
    requires Valid(db) && parent.k < db.counter
    ensures var r := Walk(db, cur, segs, parent, loc, user, now, dedup, last);
      Valid(r.2) && r.0.k < r.2.counter && (segs != [] || parent in db.folders ==> r.0 in r.2.folders)
    ensures ChildrenYounger(db) ==> ChildrenYounger(Walk(db, cur, segs, parent, loc, user, now, dedup, last).2)
    decreases |segs|
  {
    if segs != [] {
      var path := cur + segs[0] + "/";
      var (next, made, db1) := Step(db, path, segs[0], parent, loc, user, now, dedup);
      StepValid(db, path, segs[0], parent, loc, user, now, dedup);
      WalkValid(db1, path, segs[1..], next, loc, user, now, dedup, made);
      if segs[1..] == [] {
        assert Walk(db1, path, segs[1..], next, loc, user, now, dedup, made).2 == db1;
      }
    }
  }

  /** The walk keeps the loop's invariants and ends on a folder. */
  lemma {:induction false} WalkTidy(db: Db, cur: string, segs: seq<string>, parent: Uuid, loc: StorageLocation,
                                    user: Principal, now: u64, dedup: bool, last: Option<FolderMetadata>)
    requires Tidy(db)
    ensures var r := Walk(db, cur, segs, parent, loc, user, now, dedup, last);
      Tidy(r.2) && (segs != [] || parent in db.folders ==> r.0 in r.2.folders)
    decreases |segs|
  {
    if segs != [] {
      var path := cur + segs[0] + "/";
      var (next, made, db1) := Step(db, path, segs[0], parent, loc, user, now, dedup);
      StepTidy(db, path, segs[0], parent, loc, user, now, dedup);
      WalkTidy(db1, path, segs[1..], next, loc, user, now, dedup, made);
    }
  }

  lemma {:induction false} WalkKeepsKey(db: Db, cur: string, segs: seq<string>, parent: Uuid, loc: StorageLocation,
                                        user: Principal, now: u64, dedup: bool, last: Option<FolderMetadata>, p: string)
    requires p in db.folderPaths
    ensures var d := Walk(db, cur, segs, parent, loc, user, now, dedup, last).2;
      p in d.folderPaths && d.folderPaths[p] == db.folderPaths[p]
    decreases |segs|
  {
    if segs != [] {
      var path := cur + segs[0] + "/";
      var (next, made, db1) := Step(db, path, segs[0], parent, loc, user, now, dedup);
      StepKeys(db, path, segs[0], parent, loc, user, now, dedup, p);
      WalkKeepsKey(db1, path, segs[1..], next, loc, user, now, dedup, made, p);
    }
  }

  lemma {:induction false} WalkKeepsFolder(db: Db, cur: string, segs: seq<string>, parent: Uuid, loc: StorageLocation,
                                           user: Principal, now: u64, dedup: bool, last: Option<FolderMetadata>, id: Uuid)
    requires Tidy(db) && id in db.folders
    ensures var d := Walk(db, cur, segs, parent, loc, user, now, dedup, last).2;
      id in d.folders && Extends(db.folders[id], d.folders[id])
    decreases |segs|
  {
    if segs == [] {
      var x := db.folders[id].subfolderUuids;
      assert x[..|x|] == x;
    } else {
      var path := cur + segs[0] + "/";
      var (next, made, db1) := Step(db, path, segs[0], parent, loc, user, now, dedup);
      StepKeepsFolder(db, path, segs[0], parent, loc, user, now, dedup, id);
      StepTidy(db, path, segs[0], parent, loc, user, now, dedup);
      WalkKeepsFolder(db1, path, segs[1..], next, loc, user, now, dedup, made, id);
      ExtendsTrans(db.folders[id], db1.folders[id], Walk(db1, path, segs[1..], next, loc, user, now, dedup, made).2.folders[id]);
    }
  }

  /** After one pass its key is bound to the returned id, and a folder was
      created exactly when the key was absent: a fresh, empty record under
      that key and the part's name, with a parent. */
  lemma StepBinds(db: Db, path: string, part: string, parent: Uuid, loc: StorageLocation,
                  user: Principal, now: u64, dedup: bool)
    requires Tidy(db) && parent.k < db.counter
    ensures var r := Step(db, path, part, parent, loc, user, now, dedup);
      && path in r.2.folderPaths && r.2.folderPaths[path] == r.0
      && (r.1.Some? <==> path !in db.folderPaths)
      && (r.1.Some? ==>
            && r.0 in r.2.folders && r.2.folders[r.0] == r.1.value && r.1.value.id == r.0
            && r.1.value.fullFolderPath == path && r.1.value.originalFolderName == part
            && r.1.value.parentFolderUuid.Some?
            && r.1.value.subfolderUuids == [] && r.1.value.fileUuids == [] && !r.1.value.deleted)
  {
  }

  /** When the walk reports a made folder, it is a fresh, empty, live record
      stored under the returned id, with parent, key `key` and name `part`. */
  predicate Made(r: (Uuid, Option<FolderMetadata>, Db), key: string, part: string) {
    r.1.Some? ==>
      && r.0 in r.2.folders && r.2.folders[r.0] == r.1.value && r.1.value.id == r.0
      && r.1.value.fullFolderPath == key
      && r.1.value.originalFolderName == part
      && r.1.value.parentFolderUuid.Some?
      && r.1.value.subfolderUuids == [] && r.1.value.fileUuids == [] && !r.1.value.deleted
  }

  /** After the walk the final key is bound to the returned id, and the last
      folder was created exactly when its key was absent before. */
  lemma WalkBinds(db: Db, cur: string, segs: seq<string>, parent: Uuid, loc: StorageLocation,
                  user: Principal, now: u64, dedup: bool, last: Option<FolderMetadata>)
    requires Tidy(db) && ProperSegments(segs) && segs != [] && parent.k < db.counter
    ensures var r := Walk(db, cur, segs, parent, loc, user, now, dedup, last);
      var key := KeyAt(cur, segs, |segs|);
      && key in r.2.folderPaths && r.2.folderPaths[key] == r.0
      && (r.1.Some? <==> key !in db.folderPaths)
      && Made(r, key, segs[|segs| - 1])
  {
    WalkKey(db, cur, segs, parent, loc, user, now, dedup, last);
    WalkMade(db, cur, segs, parent, loc, user, now, dedup, last);
  }

  /** The final key is bound to the returned id, and the last folder was
      created exactly when its key was absent before. */
  lemma {:induction false} WalkKey(db: Db, cur: string, segs: seq<string>, parent: Uuid, loc: StorageLocation,
                                   user: Principal, now: u64, dedup: bool, last: Option<FolderMetadata>)
    requires Tidy(db) && ProperSegments(segs) && segs != [] && parent.k < db.counter
    ensures var r := Walk(db, cur, segs, parent, loc, user, now, dedup, last);
      var key := KeyAt(cur, segs, |segs|);
      && key in r.2.folderPaths && r.2.folderPaths[key] == r.0
      && (r.1.Some? <==> key !in db.folderPaths)
    decreases |segs|
  {
    var path := cur + segs[0] + "/";
    var (next, made, db1) := Step(db, path, segs[0], parent, loc, user, now, dedup);
    StepTidy(db, path, segs[0], parent, loc, user, now, dedup);
    KeyAtFirst(cur, segs);
    var key := KeyAt(cur, segs, |segs|);
    if |segs| == 1 {
      assert segs[1..] == [];
      StepBinds(db, path, segs[0], parent, loc, user, now, dedup);
    } else {
      var rest := segs[1..];
      assert ProperSegments(rest);
      WalkKey(db1, path, rest, next, loc, user, now, dedup, made);
      KeyAtShift(cur, segs, |segs|);
      KeyAtLonger(cur, segs, 1, |segs|);
      StepKeys(db, path, segs[0], parent, loc, user, now, dedup, key);
    }
  }

  /** A folder the walk reports as made is the fresh record of the final
      key. */
  lemma {:induction false} WalkMade(db: Db, cur: string, segs: seq<string>, parent: Uuid, loc: StorageLocation,
                                    user: Principal, now: u64, dedup: bool, last: Option<FolderMetadata>)
    requires Tidy(db) && ProperSegments(segs) && segs != [] && parent.k < db.counter
    ensures var r := Walk(db, cur, segs, parent, loc, user, now, dedup, last);
      Made(r, KeyAt(cur, segs, |segs|), segs[|segs| - 1])
    decreases |segs|
  {
    var path := cur + segs[0] + "/";
    var (next, made, db1) := Step(db, path, segs[0], parent, loc, user, now, dedup);
    StepTidy(db, path, segs[0], parent, loc, user, now, dedup);
    KeyAtFirst(cur, segs);
    if |segs| == 1 {
      assert segs[1..] == [];
      StepBinds(db, path, segs[0], parent, loc, user, now, dedup);
    } else {
      var rest := segs[1..];
      assert ProperSegments(rest);
      assert rest[|rest| - 1] == segs[|segs| - 1];
      WalkMade(db1, path, rest, next, loc, user, now, dedup, made);
      KeyAtShift(cur, segs, |segs|);
    }
  }

  /** A pass that creates its folder binds the key to a fresh record under
      `parent`, appended to the parent's `subfolder_uuids`. */
  lemma StepLinks(db: Db, path: string, part: string, parent: Uuid, loc: StorageLocation,
                  user: Principal, now: u64, dedup: bool)
    requires Tidy(db) && parent in db.folders && path !in db.folderPaths
    ensures var r := Step(db, path, part, parent, loc, user, now, dedup);
      && r.0 == Uuid(db.counter)
      && path in r.2.folderPaths && r.2.folderPaths[path] == r.0 && r.0 in r.2.folders
      && r.2.folders[r.0].fullFolderPath == path && r.2.folders[r.0].originalFolderName == part
      && r.2.folders[r.0].parentFolderUuid == Some(parent)
      && parent in r.2.folders && r.0 in r.2.folders[parent].subfolderUuids
  {
  }

  /** The first folder the walk creates is linked under `parent`. */
  lemma WalkLinksFirst(db: Db, cur: string, segs: seq<string>, parent: Uuid, loc: StorageLocation,
                       user: Principal, now: u64, dedup: bool, last: Option<FolderMetadata>)
    requires Tidy(db) && parent in db.folders && segs != [] && cur + segs[0] + "/" !in db.folderPaths
    ensures var d := Walk(db, cur, segs, parent, loc, user, now, dedup, last).2;
      var key := cur + segs[0] + "/";
      && key in d.folderPaths && d.folderPaths[key] in d.folders
      && var f := d.folders[d.folderPaths[key]];
      && f.fullFolderPath == key && f.originalFolderName == segs[0]
      && f.parentFolderUuid == Some(parent)
      && parent in d.folders && d.folderPaths[key] in d.folders[parent].subfolderUuids
  {
    var path := cur + segs[0] + "/";
    var (next, made, db1) := Step(db, path, segs[0], parent, loc, user, now, dedup);
    StepTidy(db, path, segs[0], parent, loc, user, now, dedup);
    var rest := segs[1..];
    var d := Walk(db1, path, rest, next, loc, user, now, dedup, made).2;
    var id := Uuid(db.counter);
    StepLinks(db, path, segs[0], parent, loc, user, now, dedup);
    WalkKeepsKey(db1, path, rest, next, loc, user, now, dedup, made, path);
    WalkKeepsFolder(db1, path, rest, next, loc, user, now, dedup, made, id);
    WalkKeepsFolder(db1, path, rest, next, loc, user, now, dedup, made, parent);
    var x := db1.folders[parent].subfolderUuids;
    assert x == d.folders[parent].subfolderUuids[..|x|];
  }

  /** Every folder the walk had to create carries its segment's name and
      key, points to the folder of the key before it, and was appended to
      that folder's `subfolder_uuids`. */
  lemma {:induction false} WalkLinksAt(db: Db, cur: string, segs: seq<string>, parent: Uuid, loc: StorageLocation,
                                       user: Principal, now: u64, dedup: bool, last: Option<FolderMetadata>, j: nat)
    requires Tidy(db) && ProperSegments(segs) && parent in db.folders
    requires 1 <= j <= |segs| && KeyAt(cur, segs, j) !in db.folderPaths
    ensures var d := Walk(db, cur, segs, parent, loc, user, now, dedup, last).2;
      var key := KeyAt(cur, segs, j);
      && key in d.folderPaths && d.folderPaths[key] in d.folders
      && (j > 1 ==> KeyAt(cur, segs, j - 1) in d.folderPaths)
      && var up := if j == 1 then parent else d.folderPaths[KeyAt(cur, segs, j - 1)];
      && var f := d.folders[d.folderPaths[key]];
      && f.fullFolderPath == key && f.originalFolderName == segs[j - 1]
      && f.parentFolderUuid == Some(up)
      && up in d.folders && d.folderPaths[key] in d.folders[up].subfolderUuids
    decreases |segs|
  {
    var path := cur + segs[0] + "/";
    var (next, made, db1) := Step(db, path, segs[0], parent, loc, user, now, dedup);
    StepTidy(db, path, segs[0], parent, loc, user, now, dedup);
    var rest := segs[1..];
    assert ProperSegments(rest);
    var d := Walk(db1, path, rest, next, loc, user, now, dedup, made).2;
    KeyAtFirst(cur, segs);
    if j == 1 {
      WalkLinksFirst(db, cur, segs, parent, loc, user, now, dedup, last);
    } else {
      KeyAtShift(cur, segs, j);
      KeyAtShift(cur, segs, j - 1);
      KeyAtLonger(cur, segs, 1, j);
      StepKeys(db, path, segs[0], parent, loc, user, now, dedup, KeyAt(cur, segs, j));
      WalkLinksAt(db1, path, rest, next, loc, user, now, dedup, made, j - 1);
      if j == 2 {
        StepKeys(db, path, segs[0], parent, loc, user, now, dedup, path);
        WalkKeepsKey(db1, path, rest, next, loc, user, now, dedup, made, path);
      }
    }
  }

  // ---------------------------------------------------------------------------
  // create_folder

  /** The path with a `/` appended unless it already ends in one. */
  function WithSlash(s: string): (r: string)
    ensures r != [] && r[|r| - 1] == '/'
  {
    if s != [] && s[|s| - 1] == '/' then s else s + "/"
  }

  /** What follows the first `::` of a sanitized folder path once the `/`
      is appended: `/` alone, or every segment followed by `/`. */
  function FolderTail(segs: seq<string>): string {
    if segs == [] then "/" else FolderSuffix(segs)
  }

  lemma WithSlashJoin(prefix: string, segs: seq<string>)
    requires ProperSegments(segs)
    ensures WithSlash(prefix + "::" + JoinSlash(segs)) == prefix + "::" + FolderTail(segs)
  {
    if segs != [] {
      JoinSlashNoSlashEnds(segs);
      FolderSuffixJoin(segs);
    }
  }

  lemma SegmentsOfTail(segs: seq<string>)
    requires ProperSegments(segs)
    ensures Segments(FolderTail(segs)) == segs
  {
    if segs == [] {
      assert "/"[1..] == [];
    } else {
      SegmentsOfFolderSuffix(segs);
    }
  }

  /** `create_folder`. */
  function CreateFolder(db: Db, fullPath: string, loc: StorageLocation, user: Principal, now: u64)
    : (r: (Result<FolderMetadata>, Db))
  {
    var path := WithSlash(Sanitize(fullPath));
    if path == [] then (Err("Invalid folder path"), db)
    else
      match SplitOnce(path)
      case None => (Err("Invalid folder path format"), db)
      case Some((storage, rest)) =>
        if storage != loc.Name() then (Err("Storage location mismatch"), db)
        else CreateIn(db, Segments(rest), loc, user, now)
  }

  /** The table part of `create_folder`, once the path has been read as the
      namespace of `loc` and the segments `segs`. */
  function CreateIn(db: Db, segs: seq<string>, loc: StorageLocation, user: Principal, now: u64)
    : (r: (Result<FolderMetadata>, Db))
    ensures r.1.files == db.files && r.1.filePaths == db.filePaths && r.1.counter >= db.counter
    ensures segs == [] ==> r.1 == EnsureRoot(db, loc, user, now).1
  {
    var (root, db1) := EnsureRoot(db, loc, user, now);
    if segs == [] then
      (if root in db1.folders then Ok(db1.folders[root]) else Err("Parent folder not found"), db1)
    else
      var (_, made, db2) := Walk(db1, loc.RootPath(), segs, root, loc, user, now, false, None);
      match made
      case Some(f) => (Ok(f), db2)
      case None => (Err("Folder already exists"), db2)
  }

  /** How create_folder reads a path holding `::`: the text before the
      first `::`, and the non-empty `/`-pieces of the rest with `:` turned
      into `;`. */
  lemma CreateFolderParse(fullPath: string)
    requires HasSep(fullPath)
    ensures var (prefix, rest) := SplitOnce(fullPath).value;
      var p := WithSlash(Sanitize(fullPath));
      && SplitOnce(p).Some? && SplitOnce(p).value.0 == prefix
      && Segments(SplitOnce(p).value.1) == Segments(ColonsToSemicolons(rest))
  {
    var (prefix, rest) := SplitOnce(fullPath).value;
    var segs := Segments(ColonsToSemicolons(rest));
    WithSlashJoin(prefix, segs);
    SplitOnceOf(prefix, FolderTail(segs));
    SegmentsOfTail(segs);
  }

  /** A path without `::` that does not end in `:` is read as the bare
      namespace `<path>::`: the root of `loc` when it names `loc`, and a
      mismatch otherwise. */
  lemma CreateFolderNoSep(db: Db, fullPath: string, loc: StorageLocation, user: Principal, now: u64)
    requires LeadsToSep(fullPath)
    ensures CreateFolder(db, fullPath, loc, user, now) ==
      if fullPath != loc.Name() then (Err("Storage location mismatch"), db)
      else CreateIn(db, [], loc, user, now)
  {
    assert JoinSlash([]) == [];
    WithSlashJoin(fullPath, []);
    SplitOnceOf(fullPath, FolderTail([]));
    SegmentsOfTail([]);
    CreateFolderSplit(db, fullPath, loc, user, now, fullPath, FolderTail([]));
  }

  /** create_folder once its sanitized path is split at its first `::`. */
  lemma CreateFolderSplit(db: Db, fullPath: string, loc: StorageLocation, user: Principal, now: u64,
                          storage: string, rest: string)
    requires SplitOnce(WithSlash(Sanitize(fullPath))) == Some((storage, rest))
    ensures CreateFolder(db, fullPath, loc, user, now) ==
      if storage != loc.Name() then (Err("Storage location mismatch"), db)
      else CreateIn(db, Segments(rest), loc, user, now)
  {
  }

  /** Sanitizing always leaves a `::` in the path, so create_folder only
      fails on a namespace mismatch, a missing parent or an existing folder:
      never with "Invalid folder path" or "Invalid folder path format". */
  lemma CreateFolderFormatErrorsUnreachable(db: Db, fullPath: string, loc: StorageLocation, user: Principal, now: u64)
    ensures var r := CreateFolder(db, fullPath, loc, user, now).0;
      r.Err? ==> r.msg == "Storage location mismatch" || r.msg == "Parent folder not found" || r.msg == "Folder already exists"
  {
    var storage, rest := SanitizedSplit(fullPath);
    CreateFolderSplit(db, fullPath, loc, user, now, storage, rest);
    if storage == loc.Name() {
      CreateInErrors(db, Segments(rest), loc, user, now);
    }
  }

  /** The only failures of the table part. */
  lemma CreateInErrors(db: Db, segs: seq<string>, loc: StorageLocation, user: Principal, now: u64)
    ensures var r := CreateIn(db, segs, loc, user, now).0;
      r.Err? ==> r.msg == "Parent folder not found" || r.msg == "Folder already exists"
  {
  }

  /** The sanitized path always splits at a `::`. */
  lemma SanitizedSplit(fullPath: string) returns (storage: string, rest: string)
    ensures SplitOnce(WithSlash(Sanitize(fullPath))) == Some((storage, rest))
  {
    SanitizedHasSep(fullPath);
    var p := WithSlash(Sanitize(fullPath));
    assert SplitOnce(p).Some?;
    storage, rest := SplitOnce(p).value.0, SplitOnce(p).value.1;
  }

  lemma SanitizedHasSep(fullPath: string)
    ensures HasSep(WithSlash(Sanitize(fullPath)))
  {
    if HasSep(fullPath) {
      var (a, rest) := SplitOnce(fullPath).value;
      SepWithSlash(a, JoinSlash(Segments(ColonsToSemicolons(rest))));
    } else {
      SepWithSlash(fullPath, []);
    }
  }

  lemma SepWithSlash(a: string, b: string)
    ensures HasSep(WithSlash(a + "::" + b))
  {
    var w := WithSlash(a + "::" + b);
    assert w[..|a| + 2 + |b|] == a + "::" + b;
    assert SepAt(w, |a|);
  }

  /** A path holding `::` is read as its namespace and segments: a
      namespace other than the one the folder is created in is refused and
      nothing changes, and otherwise the segments go to the table part. */
  lemma CreateFolderDispatch(db: Db, fullPath: string, loc: StorageLocation, user: Principal, now: u64)
    requires HasSep(fullPath)
    ensures var (prefix, rest) := SplitOnce(fullPath).value;
      CreateFolder(db, fullPath, loc, user, now) ==
        if prefix != loc.Name() then (Err("Storage location mismatch"), db)
        else CreateIn(db, Segments(ColonsToSemicolons(rest)), loc, user, now)
  {
    CreateFolderParse(fullPath);
  }

  /** No segments after `<ns>::` yields the namespace's root: bound to
      `<ns>::`, and parentless and empty-named when it had to be created. */
  lemma CreateInRoot(db: Db, loc: StorageLocation, user: Principal, now: u64)
    requires Valid(db) && FolderIndexAgrees(db)
    ensures var r := CreateIn(db, [], loc, user, now);
      && r.0.Ok? && r.0.value.fullFolderPath == loc.RootPath()
      && r.1.folderPaths[loc.RootPath()] == r.0.value.id
      && (loc.RootPath() !in db.folderPaths ==>
            r.0.value.parentFolderUuid.None? && r.0.value.originalFolderName == [])
  {
    EnsureRootValid(db, loc, user, now);
  }

  /** The table part of create_folder with at least one segment is the
      walk from the root, answering with the folder the last pass made. */
  lemma CreateInWalk(db: Db, segs: seq<string>, loc: StorageLocation, user: Principal, now: u64)
    requires segs != []
    ensures var (root, db1) := EnsureRoot(db, loc, user, now);
      var w := Walk(db1, loc.RootPath(), segs, root, loc, user, now, false, None);
      CreateIn(db, segs, loc, user, now) ==
        (if w.1.Some? then Ok(w.1.value) else Err("Folder already exists"), w.2)
  {
  }

  /** The key of a folder below the root is longer than the root's. */
  lemma KeyBelowRoot(cur: string, segs: seq<string>)
    requires segs != []
    ensures cur + FolderSuffix(segs) != cur
  {
    FolderSuffixCons(segs[0], segs[1..]);
    assert segs == [segs[0]] + segs[1..];
    assert |cur + FolderSuffix(segs)| > |cur|;
  }

  /** For segments `s1 … sn` (n >= 1) create_folder succeeds exactly when the
      key `<ns>::s1/…/sn/` is not yet bound; the folder it returns carries
      that key and the last segment as name, has a parent, starts empty, and
      the index binds the key to it.  Otherwise it fails with "Folder
      already exists". */
  lemma CreateInNew(db: Db, segs: seq<string>, loc: StorageLocation, user: Principal, now: u64)
    requires Tidy(db) && ProperSegments(segs) && segs != []
    ensures var key := loc.RootPath() + FolderSuffix(segs);
      var r := CreateIn(db, segs, loc, user, now);
      && (r.0.Ok? <==> key !in db.folderPaths)
      && (r.0.Err? ==> r.0.msg == "Folder already exists")
      && (r.0.Ok? ==>
            && r.0.value.fullFolderPath == key
            && r.0.value.originalFolderName == segs[|segs| - 1]
            && r.0.value.parentFolderUuid.Some?
            && r.0.value.subfolderUuids == [] && r.0.value.fileUuids == [] && !r.0.value.deleted
            && key in r.1.folderPaths && r.1.folderPaths[key] == r.0.value.id
            && r.0.value.id in r.1.folders && r.1.folders[r.0.value.id] == r.0.value)
  {
    var (root, db1) := EnsureRoot(db, loc, user, now);
    EnsureRootTidy(db, loc, user, now);
    var cur := loc.RootPath();
    CreateInWalk(db, segs, loc, user, now);
    WalkBinds(db1, cur, segs, root, loc, user, now, false, None);
    assert segs[..|segs|] == segs;
    KeyBelowRoot(cur, segs);
  }

  /** Every folder create_folder had to make on the way down is linked: its
      record carries the segment's name and key and names the folder of
      the key before it (the root for the first) as parent, which lists it
      among its subfolders. */
  lemma CreateInLinks(db: Db, segs: seq<string>, loc: StorageLocation, user: Principal, now: u64, j: nat)
    requires Tidy(db) && ProperSegments(segs) && 1 <= j <= |segs|
    requires loc.RootPath() + FolderSuffix(segs[..j]) !in db.folderPaths
    ensures var d := CreateIn(db, segs, loc, user, now).1;
      var key := loc.RootPath() + FolderSuffix(segs[..j]);
      var up := loc.RootPath() + FolderSuffix(segs[..j - 1]);
      && key in d.folderPaths && up in d.folderPaths
      && d.folderPaths[key] in d.folders && d.folderPaths[up] in d.folders
      && d.folders[d.folderPaths[key]].fullFolderPath == key
      && d.folders[d.folderPaths[key]].originalFolderName == segs[j - 1]
      && d.folders[d.folderPaths[key]].parentFolderUuid == Some(d.folderPaths[up])
      && d.folderPaths[key] in d.folders[d.folderPaths[up]].subfolderUuids
  {
    var (root, db1) := EnsureRoot(db, loc, user, now);
    EnsureRootTidy(db, loc, user, now);
    var cur := loc.RootPath();
    CreateInWalk(db, segs, loc, user, now);
    KeyBelowRoot(cur, segs[..j]);
    WalkLinksAt(db1, cur, segs, root, loc, user, now, false, None, j);
    if j == 1 {
      assert segs[..j - 1] == [];
      assert loc.RootPath() + FolderSuffix(segs[..j - 1]) == cur;
      WalkKeepsKey(db1, cur, segs, root, loc, user, now, false, None, cur);
    } else {
      assert KeyAt(cur, segs, j - 1) == cur + FolderSuffix(segs[..j - 1]);
    }
  }

  /** Creating the root keeps the loop's invariants. */
  lemma EnsureRootTidy(db: Db, loc: StorageLocation, user: Principal, now: u64)
    requires Tidy(db)
    ensures var r := EnsureRoot(db, loc, user, now);
      Tidy(r.1) && r.0 in r.1.folders
  {
  }

  /** Creating the root keeps the invariants, and the root is a folder. */
  lemma EnsureRootValid(db: Db, loc: StorageLocation, user: Principal, now: u64)
    requires Valid(db)
    ensures var r := EnsureRoot(db, loc, user, now);
      Valid(r.1) && r.0 in r.1.folders && r.0.k < r.1.counter
    ensures ChildrenYounger(db) ==> ChildrenYounger(EnsureRoot(db, loc, user, now).1)
  {
    FreshId(db);
    var r := EnsureRoot(db, loc, user, now);
    if loc.RootPath() !in db.folderPaths {
      AddFolderValid(db, loc.RootPath(), NewFolder(r.0, "", None, loc.RootPath(), user, now, loc));
      assert r.1 == AddFolder(db, loc.RootPath(), NewFolder(r.0, "", None, loc.RootPath(), user, now, loc));
      FileSideFrame(db, r.1);
    }
  }

  /** The table part of create_folder keeps the invariants, keeps children
      younger than their parents, and leaves every binding of the index as
      it was. */
  lemma CreateInValid(db: Db, segs: seq<string>, loc: StorageLocation, user: Principal, now: u64, p: string)
    requires Valid(db)
    ensures var d := CreateIn(db, segs, loc, user, now).1;
      && Valid(d)
      && (ChildrenYounger(db) ==> ChildrenYounger(d))
      && (p in db.folderPaths ==> p in d.folderPaths && d.folderPaths[p] == db.folderPaths[p])
  {
    var root, db1, d := CreateInParts(db, segs, loc, user, now);
    EnsureRootValid(db, loc, user, now);
    if segs != [] {
      WalkValid(db1, loc.RootPath(), segs, root, loc, user, now, false, None);
    }
    if p in db.folderPaths {
      CreateInKeeps(db, segs, loc, user, now, p);
    }
  }

  /** The table part of create_folder leaves a bound path bound as it was. */
  lemma CreateInKeeps(db: Db, segs: seq<string>, loc: StorageLocation, user: Principal, now: u64, p: string)
    requires Valid(db) && p in db.folderPaths
    ensures var d := CreateIn(db, segs, loc, user, now).1;
      p in d.folderPaths && d.folderPaths[p] == db.folderPaths[p]
  {
    var root, db1, d := CreateInParts(db, segs, loc, user, now);
    assert p in db1.folderPaths && db1.folderPaths[p] == db.folderPaths[p];
    if segs != [] {
      EnsureRootTidy(db, loc, user, now);
      WalkKeepsKey(db1, loc.RootPath(), segs, root, loc, user, now, false, None, p);
    }
  }

  /** The tables create_folder leaves: those after ensuring the root, then,
      below it, those after the walk. */
  lemma CreateInParts(db: Db, segs: seq<string>, loc: StorageLocation, user: Principal, now: u64)
    returns (root: Uuid, db1: Db, d: Db)
    ensures (root, db1) == EnsureRoot(db, loc, user, now)
    ensures d == CreateIn(db, segs, loc, user, now).1
    ensures segs == [] ==> d == db1
    ensures segs != [] ==> d == Walk(db1, loc.RootPath(), segs, root, loc, user, now, false, None).2
  {
    root, db1 := EnsureRoot(db, loc, user, now).0, EnsureRoot(db, loc, user, now).1;
    d := CreateIn(db, segs, loc, user, now).1;
  }

  /** create_folder keeps the invariants, keeps children younger than their
      parents, and leaves every binding of the index as it was. */
  lemma CreateFolderValid(db: Db, fullPath: string, loc: StorageLocation, user: Principal, now: u64, p: string)
    requires Valid(db)
    ensures var d := CreateFolder(db, fullPath, loc, user, now).1;
      && Valid(d)
      && (ChildrenYounger(db) ==> ChildrenYounger(d))
      && (p in db.folderPaths ==> p in d.folderPaths && d.folderPaths[p] == db.folderPaths[p])
  {
    var segs := CreateFolderTables(db, fullPath, loc, user, now);
    CreateInValid(db, segs, loc, user, now, p);
  }

  /** create_folder either leaves the tables alone or leaves those of its
      table part on some segments. */
  lemma CreateFolderTables(db: Db, fullPath: string, loc: StorageLocation, user: Principal, now: u64)
    returns (segs: seq<string>)
    ensures var d := CreateFolder(db, fullPath, loc, user, now).1;
      d == db || d == CreateIn(db, segs, loc, user, now).1
  {
    var storage, rest := SanitizedSplit(fullPath);
    CreateFolderSplit(db, fullPath, loc, user, now, storage, rest);
    segs := Segments(rest);
  }

  // ---------------------------------------------------------------------------
  // ensure_folder_structure

  /** `ensure_folder_structure`; a path without `::` makes the source index
      past the end of its parts, hence the precondition. */
  function EnsureFolders(db: Db, folderPath: string, loc: StorageLocation, user: Principal, now: u64)
    : (r: (Uuid, Db))
    requires HasSep(folderPath)
    ensures r.1.files == db.files && r.1.filePaths == db.filePaths && r.1.counter >= db.counter
  {
    var parts := EnsureParts(folderPath).value;
    EnsureUnder(db, parts.0, Segments(parts.1), loc, user, now)
  }

  /** ensure_folder_structure once its path is cut into the text `head`
      before the first `::` and the pieces `segs` after it: the root of the
      namespace passed in, then one folder per piece below it. */
  function EnsureUnder(db: Db, head: string, segs: seq<string>, loc: StorageLocation, user: Principal, now: u64)
    : (r: (Uuid, Db))
    ensures r.1.files == db.files && r.1.filePaths == db.filePaths && r.1.counter >= db.counter
  {
    var (root, db1) := EnsureRoot(db, loc, user, now);
    var w := Walk(db1, head + "::", segs, root, loc, user, now, true, None);
    (w.0, w.2)
  }

  /** EnsureFolders is EnsureUnder on the parts of its path. */
  lemma EnsureFoldersUnfolds(db: Db, folderPath: string, head: string, second: string,
                             loc: StorageLocation, user: Principal, now: u64)
    requires EnsureParts(folderPath) == Some((head, second))
    ensures HasSep(folderPath)
    ensures EnsureFolders(db, folderPath, loc, user, now) == EnsureUnder(db, head, Segments(second), loc, user, now)
  {
  }

  /** The folder ensured under `head` with no pieces is the root of the
      namespace passed in, whatever `head` says; with pieces it is the one
      bound to `<head>::s1/…/sn/`.  Either way it names a folder. */
  lemma EnsureUnderBinds(db: Db, head: string, segs: seq<string>, loc: StorageLocation, user: Principal, now: u64)
    requires Tidy(db) && ProperSegments(segs)
    ensures var r := EnsureUnder(db, head, segs, loc, user, now);
      && r.0 in r.1.folders
      && (segs == [] ==> loc.RootPath() in r.1.folderPaths && r.0 == r.1.folderPaths[loc.RootPath()])
      && (segs != [] ==>
            var key := head + "::" + FolderSuffix(segs);
            key in r.1.folderPaths && r.1.folderPaths[key] == r.0)
  {
    var (root, db1) := EnsureRoot(db, loc, user, now);
    EnsureRootTidy(db, loc, user, now);
    if segs != [] {
      WalkBinds(db1, head + "::", segs, root, loc, user, now, true, None);
      WalkTidy(db1, head + "::", segs, root, loc, user, now, true, None);
      assert segs[..|segs|] == segs;
    }
  }

  /** ensure_folder_structure returns the folder bound to
      `<head>::s1/…/sn/`, where `head` is the text before the first `::` and
      `s1 … sn` the pieces up to the next `::`; with no pieces it returns the
      root of the namespace passed in, whatever `head` says.  The returned
      id names a folder. */
  lemma EnsureFoldersBinds(db: Db, folderPath: string, loc: StorageLocation, user: Principal, now: u64)
    requires Tidy(db) && HasSep(folderPath)
    ensures var (head, second) := EnsureParts(folderPath).value;
      var segs := Segments(second);
      var r := EnsureFolders(db, folderPath, loc, user, now);
      && r.0 in r.1.folders
      && (segs == [] ==> loc.RootPath() in r.1.folderPaths && r.0 == r.1.folderPaths[loc.RootPath()])
      && (segs != [] ==>
            var key := head + "::" + FolderSuffix(segs);
            key in r.1.folderPaths && r.1.folderPaths[key] == r.0)
  {
    var parts := EnsureParts(folderPath).value;
    EnsureFoldersUnfolds(db, folderPath, parts.0, parts.1, loc, user, now);
    EnsureUnderBinds(db, parts.0, Segments(parts.1), loc, user, now);
  }

  /** ensure_folder_structure keeps the invariants and keeps children younger
      than their parents. */
  lemma EnsureUnderValid(db: Db, head: string, segs: seq<string>, loc: StorageLocation, user: Principal, now: u64)
    requires Valid(db)
    ensures var d := EnsureUnder(db, head, segs, loc, user, now).1;
      Valid(d) && (ChildrenYounger(db) ==> ChildrenYounger(d))
  {
    var (root, db1) := EnsureRoot(db, loc, user, now);
    EnsureRootValid(db, loc, user, now);
    WalkValid(db1, head + "::", segs, root, loc, user, now, true, None);
  }

  /** ensure_folder_structure leaves every binding of the index and every
      existing folder's name, key and parent as they were. */
  lemma EnsureUnderKeeps(db: Db, head: string, segs: seq<string>, loc: StorageLocation, user: Principal, now: u64,
                         p: string, id: Uuid)
    requires Tidy(db)
    ensures var d := EnsureUnder(db, head, segs, loc, user, now).1;
      && (p in db.folderPaths ==> p in d.folderPaths && d.folderPaths[p] == db.folderPaths[p])
      && (id in db.folders ==> id in d.folders && Extends(db.folders[id], d.folders[id]))
  {
    var (root, db1) := EnsureRoot(db, loc, user, now);
    EnsureRootTidy(db, loc, user, now);
    if p in db.folderPaths {
      WalkKeepsKey(db1, head + "::", segs, root, loc, user, now, true, None, p);
    }
    if id in db.folders {
      WalkKeepsFolder(db1, head + "::", segs, root, loc, user, now, true, None, id);
    }
  }

  /** The folder builders never touch a file list: an existing folder keeps
      its list and a created one has none. */
  lemma StepFileLists(db: Db, path: string, part: string, parent: Uuid, loc: StorageLocation,
                      user: Principal, now: u64, dedup: bool, id: Uuid)
    requires Tidy(db)
    ensures var d := Step(db, path, part, parent, loc, user, now, dedup).2;
      id in d.folders ==> d.folders[id].fileUuids == if id in db.folders then db.folders[id].fileUuids else []
  {
  }

  lemma {:induction false} WalkFileLists(db: Db, cur: string, segs: seq<string>, parent: Uuid, loc: StorageLocation,
                                         user: Principal, now: u64, dedup: bool, last: Option<FolderMetadata>, id: Uuid)
    requires Tidy(db)
    ensures var d := Walk(db, cur, segs, parent, loc, user, now, dedup, last).2;
      id in d.folders ==> d.folders[id].fileUuids == if id in db.folders then db.folders[id].fileUuids else []
    decreases |segs|
  {
    if segs != [] {
      var path := cur + segs[0] + "/";
      var (next, made, db1) := Step(db, path, segs[0], parent, loc, user, now, dedup);
      StepFileLists(db, path, segs[0], parent, loc, user, now, dedup, id);
      StepTidy(db, path, segs[0], parent, loc, user, now, dedup);
      WalkFileLists(db1, path, segs[1..], next, loc, user, now, dedup, made, id);
    }
  }

  lemma EnsureUnderFileLists(db: Db, head: string, segs: seq<string>, loc: StorageLocation, user: Principal, now: u64,
                             id: Uuid)
    requires Tidy(db)
    ensures var d := EnsureUnder(db, head, segs, loc, user, now).1;
      id in d.folders ==> d.folders[id].fileUuids == if id in db.folders then db.folders[id].fileUuids else []
  {
    var (root, db1) := EnsureRoot(db, loc, user, now);
    WalkFileLists(db1, head + "::", segs, root, loc, user, now, true, None, id);
    EnsureRootTidy(db, loc, user, now);
  }
}
