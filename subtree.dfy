/**
 * What `update_subfolder_paths` does to a table whose folder lists form a
 * tree: every folder below the renamed one gets its path rewritten from its
 * parent's old path to its parent's new path, every file listed below it
 * the same from its folder's paths, and each new path is bound to its
 * record unless another rewritten record started or ended there.
 */
module Subtrees {
  import opened Wrappers
  import opened Paths
  import opened Metadata
  import opened Tables
  import opened Renames

  // ---------------------------------------------------------------------------
  // Trees

  /** The parent pointer of every folder. */
  function Parents(db: Db): map<Uuid, Option<Uuid>> {
    map id | id in db.folders :: db.folders[id].parentFolderUuid
  }

  /** `w` is `z` or lies below it, following parent pointers that lead to
      older folders. */
  predicate Within(ps: map<Uuid, Option<Uuid>>, z: Uuid, w: Uuid)
    decreases w.k
  {
    w == z || (w in ps && ps[w].Some? && ps[w].value.k < w.k && Within(ps, z, ps[w].value))
  }

  /** A folder with no parent, or whose parent has no record, needs no
      listing; any other folder is listed by its parent. */
  predicate ListedBy(db: Db, c: Uuid)
    requires c in db.folders
  {
    var p := db.folders[c].parentFolderUuid;
    p.Some? && p.value in db.folders ==> c in db.folders[p.value].subfolderUuids
  }

  /** The folder lists and the parent pointers describe one tree: a folder
      lists a subfolder exactly when that subfolder points back at it, a
      listed file that has a record names the folder that lists it, and no
      list repeats an id. */
  predicate Tree(db: Db) {
    && (forall v, c {:trigger c in db.folders[v].subfolderUuids} :: v in db.folders && c in db.folders[v].subfolderUuids ==>
          c in db.folders && db.folders[c].parentFolderUuid == Some(v))
    && (forall c :: c in db.folders ==> ListedBy(db, c))
    && (forall v, y {:trigger y in db.folders[v].fileUuids} :: v in db.folders && y in db.folders[v].fileUuids && y in db.files ==>
          db.files[y].folderUuid == v)
    && (forall v :: v in db.folders ==>
          NoDup(db.folders[v].subfolderUuids) && NoDup(db.folders[v].fileUuids))
  }

  lemma ShapeParents(a: Db, b: Db)
    requires SameShape(a, b)
    ensures Parents(a) == Parents(b)
  {
  }

  lemma ShapeTree(a: Db, b: Db)
    requires Tree(a) && SameShape(a, b)
    ensures Tree(b)
  {
    forall v | v in b.folders
      ensures b.folders[v].subfolderUuids == a.folders[v].subfolderUuids
      ensures b.folders[v].fileUuids == a.folders[v].fileUuids
      ensures b.folders[v].parentFolderUuid == a.folders[v].parentFolderUuid
    {
    }
    forall y | y in b.files ensures b.files[y].folderUuid == a.files[y].folderUuid {
    }
    forall c | c in b.folders ensures ListedBy(b, c) {
      assert ListedBy(a, c);
    }
  }

  lemma ChildListOf(db: Db, x: Uuid)
    requires ChildrenYounger(db) && Tree(db) && x in db.folders
    ensures ChildList(db, x, db.folders[x].subfolderUuids)
  {
  }

  lemma {:induction false} WithinOlder(ps: map<Uuid, Option<Uuid>>, z: Uuid, w: Uuid)
    ensures Within(ps, z, w) ==> z.k <= w.k
    decreases w.k
  {
    if w != z && w in ps && ps[w].Some? && ps[w].value.k < w.k {
      WithinOlder(ps, z, ps[w].value);
    }
  }

  lemma {:induction false} WithinTrans(ps: map<Uuid, Option<Uuid>>, a: Uuid, b: Uuid, c: Uuid)
    ensures Within(ps, a, b) && Within(ps, b, c) ==> Within(ps, a, c)
    decreases c.k
  {
    if c != b && c in ps && ps[c].Some? && ps[c].value.k < c.k {
      WithinTrans(ps, a, b, ps[c].value);
    }
  }

  /** A listed subfolder lies below the folder that lists it. */
  lemma WithinChild(db: Db, x: Uuid, c: Uuid)
    requires Tree(db) && ChildrenYounger(db) && x in db.folders && c in db.folders[x].subfolderUuids
    ensures c in db.folders && c in Parents(db) && Parents(db)[c] == Some(x) && x.k < c.k && Within(Parents(db), x, c)
  {
  }

  /** Two different children of one folder have disjoint subtrees. */
  lemma {:induction false} SiblingsApart(ps: map<Uuid, Option<Uuid>>, x: Uuid, c1: Uuid, c2: Uuid, w: Uuid)
    requires c1 != c2 && c1 in ps && c2 in ps && ps[c1] == Some(x) && ps[c2] == Some(x)
    requires x.k < c1.k && x.k < c2.k
    ensures !(Within(ps, c1, w) && Within(ps, c2, w))
    decreases w.k
  {
    if w == c1 {
      WithinOlder(ps, c2, x);
    } else if w == c2 {
      WithinOlder(ps, c1, x);
    } else if w in ps && ps[w].Some? && ps[w].value.k < w.k {
      SiblingsApart(ps, x, c1, c2, ps[w].value);
    }
  }

  /** Siblings listed in `subs` after the first have subtrees apart from the
      first's. */
  lemma SubsApart(db: Db, x: Uuid, subs: seq<Uuid>, w: Uuid)
    requires Tree(db) && ChildrenYounger(db) && x in db.folders && subs != [] && NoDup(subs)
    requires forall c :: c in subs ==> c in db.folders[x].subfolderUuids
    requires Within(Parents(db), subs[0], w)
    ensures forall c :: c in subs[1..] ==> !Within(Parents(db), c, w)
  {
    NoDupTail(subs);
    forall c | c in subs[1..] ensures !Within(Parents(db), c, w) {
      WithinChild(db, x, c);
      WithinChild(db, x, subs[0]);
      SiblingsApart(Parents(db), x, subs[0], c, w);
    }
  }

  // ---------------------------------------------------------------------------
  // What the rewrite leaves alone

  /** A child's subtree lies strictly below its parent. */
  lemma BelowChild(db: Db, x: Uuid, c: Uuid, w: Uuid)
    requires Tree(db) && ChildrenYounger(db) && x in db.folders && c in db.folders[x].subfolderUuids
    ensures Within(Parents(db), c, w) ==> w != x && Within(Parents(db), x, w)
  {
    WithinChild(db, x, c);
    WithinOlder(Parents(db), c, w);
    WithinTrans(Parents(db), x, c, w);
  }

  /** The rewrite below `x` changes no folder record outside the folders
      strictly below `x`. */
  lemma {:induction false} UpdatePathsFrame(db: Db, x: Uuid, from: string, to: string, w: Uuid)
    requires ChildrenYounger(db) && Tree(db) && w in db.folders
    requires w == x || !Within(Parents(db), x, w)
    ensures UpdatePaths(db, x, from, to).folders[w] == db.folders[w]
    decreases db.counter - x.k, 1, 0
  {
    if x in db.folders {
      var subs := db.folders[x].subfolderUuids;
      forall c | c in subs ensures !Within(Parents(db), c, w) {
        BelowChild(db, x, c, w);
      }
      UpdateSubfoldersFrame(db, x, subs, from, to, w);
    }
  }

  lemma {:induction false} UpdateSubfoldersFrame(db: Db, x: Uuid, subs: seq<Uuid>, from: string, to: string, w: Uuid)
    requires ChildrenYounger(db) && Tree(db) && w in db.folders
    requires forall c :: c in subs ==> x.k < c.k < db.counter && !Within(Parents(db), c, w)
    ensures UpdateSubfolders(db, x, subs, from, to).folders[w] == db.folders[w]
    decreases db.counter - x.k, 0, |subs|
  {
    if subs != [] {
      var d := MoveSubtree(db, x, subs[0], from, to);
      MoveSubtreeFrame(db, x, subs[0], from, to, w);
      ShapeChildrenYounger(db, d);
      ShapeTree(db, d);
      ShapeParents(db, d);
      UpdateSubfoldersFrame(d, x, subs[1..], from, to, w);
    }
  }

  lemma {:induction false} MoveSubtreeFrame(db: Db, x: Uuid, c: Uuid, from: string, to: string, w: Uuid)
    requires ChildrenYounger(db) && Tree(db) && x.k < c.k < db.counter
    requires w in db.folders && !Within(Parents(db), c, w)
    ensures MoveSubtree(db, x, c, from, to).folders[w] == db.folders[w]
    decreases db.counter - x.k, 0, 0
  {
    if c in db.folders {
      var p := db.folders[c].fullFolderPath;
      var q := ReplaceAll(p, from, to);
      var m := MoveFolder(db, c, q);
      ShapeChildrenYounger(db, m);
      ShapeTree(db, m);
      ShapeParents(db, m);
      UpdatePathsFrame(m, c, p, q, w);
    }
  }

  /** The rewrite below `x` changes no file record whose folder is not `x`
      or below it. */
  lemma {:induction false} UpdatePathsFileFrame(db: Db, x: Uuid, from: string, to: string, y: Uuid)
    requires ChildrenYounger(db) && Tree(db) && y in db.files
    requires !Within(Parents(db), x, db.files[y].folderUuid)
    ensures UpdatePaths(db, x, from, to).files[y] == db.files[y]
    decreases db.counter - x.k, 1, 0
  {
    if x in db.folders {
      var f := db.folders[x];
      forall c | c in f.subfolderUuids ensures !Within(Parents(db), c, db.files[y].folderUuid) {
        BelowChild(db, x, c, db.files[y].folderUuid);
      }
      UpdateSubfoldersFileFrame(db, x, f.subfolderUuids, from, to, y);
      MoveFilesOther(UpdateSubfolders(db, x, f.subfolderUuids, from, to), f.fileUuids, from, to, y);
    }
  }

  lemma {:induction false} UpdateSubfoldersFileFrame(db: Db, x: Uuid, subs: seq<Uuid>, from: string, to: string, y: Uuid)
    requires ChildrenYounger(db) && Tree(db) && y in db.files
    requires forall c :: c in subs ==> x.k < c.k < db.counter && !Within(Parents(db), c, db.files[y].folderUuid)
    ensures UpdateSubfolders(db, x, subs, from, to).files[y] == db.files[y]
    decreases db.counter - x.k, 0, |subs|
  {
    if subs != [] {
      var d := MoveSubtree(db, x, subs[0], from, to);
      MoveSubtreeFileFrame(db, x, subs[0], from, to, y);
      ShapeChildrenYounger(db, d);
      ShapeTree(db, d);
      ShapeParents(db, d);
      UpdateSubfoldersFileFrame(d, x, subs[1..], from, to, y);
    }
  }

  lemma {:induction false} MoveSubtreeFileFrame(db: Db, x: Uuid, c: Uuid, from: string, to: string, y: Uuid)
    requires ChildrenYounger(db) && Tree(db) && x.k < c.k < db.counter
    requires y in db.files && !Within(Parents(db), c, db.files[y].folderUuid)
    ensures MoveSubtree(db, x, c, from, to).files[y] == db.files[y]
    decreases db.counter - x.k, 0, 0
  {
    if c in db.folders {
      var p := db.folders[c].fullFolderPath;
      var q := ReplaceAll(p, from, to);
      var m := MoveFolder(db, c, q);
      ShapeChildrenYounger(db, m);
      ShapeTree(db, m);
      ShapeParents(db, m);
      UpdatePathsFileFrame(m, c, p, q, y);
    }
  }

  // ---------------------------------------------------------------------------
  // Keys the rewrite leaves alone

  /** `subs` lists, without repeats, children of `x`. */
  predicate ChildList(db: Db, x: Uuid, subs: seq<Uuid>) {
    && x in db.folders && NoDup(subs)
    && forall c :: c in subs ==> c in db.folders[x].subfolderUuids && x.k < c.k < db.counter
  }

  lemma ChildListTail(db: Db, d: Db, x: Uuid, subs: seq<Uuid>)
    requires ChildList(db, x, subs) && subs != [] && SameShape(db, d)
    ensures ChildList(d, x, subs[1..]) && subs[0] !in subs[1..]
  {
    NoDupTail(subs);
  }

  /** No folder strictly below `x` has the path `k` before or after. */
  predicate FolderKeyClear(db: Db, r: Db, x: Uuid, k: string)
    requires SameShape(db, r)
  {
    forall w :: w in db.folders && w != x && Within(Parents(db), x, w) ==>
      db.folders[w].fullFolderPath != k && r.folders[w].fullFolderPath != k
  }

  /** Neither `c` nor any folder below it has the path `k` before or after. */
  predicate SubtreeKeyClear(db: Db, r: Db, c: Uuid, k: string)
    requires SameShape(db, r)
  {
    forall w :: w in db.folders && Within(Parents(db), c, w) ==>
      db.folders[w].fullFolderPath != k && r.folders[w].fullFolderPath != k
  }

  /** No file listed by `x` or by a folder below it has the path `k` before
      or after. */
  predicate FileKeyClear(db: Db, r: Db, x: Uuid, k: string)
    requires SameShape(db, r)
  {
    forall v, y {:trigger y in db.folders[v].fileUuids} :: v in db.folders && Within(Parents(db), x, v) && y in db.folders[v].fileUuids && y in db.files ==>
      db.files[y].fullFilePath != k && r.files[y].fullFilePath != k
  }

  /** The first child's subtree is untouched by the later children's
      rewrites, and theirs by the first's. */
  lemma {:induction false} SubsSplit(db: Db, x: Uuid, subs: seq<Uuid>, from: string, to: string)
    requires ChildrenYounger(db) && Tree(db) && ChildList(db, x, subs) && subs != []
    ensures var d := MoveSubtree(db, x, subs[0], from, to);
      ChildrenYounger(d) && Tree(d) && Parents(d) == Parents(db) && ChildList(d, x, subs[1..])
    ensures var d := MoveSubtree(db, x, subs[0], from, to);
      var r := UpdateSubfolders(d, x, subs[1..], from, to);
      && (forall w :: w in db.folders && Within(Parents(db), subs[0], w) ==> r.folders[w] == d.folders[w])
      && (forall c, w {:trigger Within(Parents(db), c, w)} :: c in subs[1..] && w in db.folders && Within(Parents(db), c, w) ==> d.folders[w] == db.folders[w])
  {
    SubsHead(db, x, subs, from, to);
    SubsFirstUntouched(db, x, subs, from, to);
    SubsRestUntouched(db, x, subs, from, to);
  }

  /** The later subfolders' rewrite leaves the first one's subtree alone. */
  lemma SubsFirstUntouched(db: Db, x: Uuid, subs: seq<Uuid>, from: string, to: string)
    requires ChildrenYounger(db) && Tree(db) && ChildList(db, x, subs) && subs != []
    ensures var d := MoveSubtree(db, x, subs[0], from, to);
      ChildrenYounger(d) && Tree(d) && Parents(d) == Parents(db) && ChildList(d, x, subs[1..])
    ensures var d := MoveSubtree(db, x, subs[0], from, to);
      var r := UpdateSubfolders(d, x, subs[1..], from, to);
      forall w :: w in db.folders && Within(Parents(db), subs[0], w) ==> r.folders[w] == d.folders[w]
  {
    var c := subs[0];
    var d := MoveSubtree(db, x, c, from, to);
    SubsHead(db, x, subs, from, to);
    var r := UpdateSubfolders(d, x, subs[1..], from, to);
    forall w | w in db.folders && Within(Parents(db), c, w) ensures r.folders[w] == d.folders[w] {
      SubsApart(db, x, subs, w);
      UpdateSubfoldersFrame(d, x, subs[1..], from, to, w);
    }
  }

  /** The first subfolder's rewrite leaves the later ones' subtrees alone. */
  lemma SubsRestUntouched(db: Db, x: Uuid, subs: seq<Uuid>, from: string, to: string)
    requires ChildrenYounger(db) && Tree(db) && ChildList(db, x, subs) && subs != []
    ensures var d := MoveSubtree(db, x, subs[0], from, to);
      forall c, w {:trigger Within(Parents(db), c, w)} :: c in subs[1..] && w in db.folders && Within(Parents(db), c, w) ==> d.folders[w] == db.folders[w]
  {
    var c := subs[0];
    var d := MoveSubtree(db, x, c, from, to);
    forall c', w {:trigger Within(Parents(db), c', w)} | c' in subs[1..] && w in db.folders && Within(Parents(db), c', w)
      ensures d.folders[w] == db.folders[w]
    {
      WithinChild(db, x, c);
      WithinChild(db, x, c');
      SiblingsApart(Parents(db), x, c, c', w);
      MoveSubtreeFrame(db, x, c, from, to, w);
    }
  }

  /** The same split for the files listed in those subtrees: the later
      children's rewrites leave the first subtree's files alone ... */
  lemma {:induction false} SubsSplitFirstFiles(db: Db, x: Uuid, subs: seq<Uuid>, from: string, to: string)
    requires ChildrenYounger(db) && Tree(db) && ChildList(db, x, subs) && subs != []
    ensures var d := MoveSubtree(db, x, subs[0], from, to);
      var r := UpdateSubfolders(d, x, subs[1..], from, to);
      forall v, y {:trigger y in db.folders[v].fileUuids} :: v in db.folders && Within(Parents(db), subs[0], v) && y in db.folders[v].fileUuids && y in db.files ==>
        r.files[y] == d.files[y]
  {
    var c := subs[0];
    var d := MoveSubtree(db, x, c, from, to);
    SubsSplit(db, x, subs, from, to);
    forall v, y {:trigger y in db.folders[v].fileUuids} | v in db.folders && Within(Parents(db), c, v) && y in db.folders[v].fileUuids && y in db.files
      ensures UpdateSubfolders(d, x, subs[1..], from, to).files[y] == d.files[y]
    {
      SubsApart(db, x, subs, v);
      UpdateSubfoldersFileFrame(d, x, subs[1..], from, to, y);
    }
  }

  /** ... and the first child's rewrite leaves the later subtrees' files
      alone. */
  lemma {:induction false} SubsSplitRestFiles(db: Db, x: Uuid, subs: seq<Uuid>, from: string, to: string)
    requires ChildrenYounger(db) && Tree(db) && ChildList(db, x, subs) && subs != []
    ensures var d := MoveSubtree(db, x, subs[0], from, to);
      forall c, v, y {:trigger Within(Parents(db), c, v), y in db.folders[v].fileUuids} ::
        c in subs[1..] && v in db.folders && Within(Parents(db), c, v) && y in db.folders[v].fileUuids && y in db.files
        ==> d.files[y] == db.files[y]
  {
    var c := subs[0];
    NoDupTail(subs);
    forall c', v, y {:trigger Within(Parents(db), c', v), y in db.folders[v].fileUuids} | c' in subs[1..] && v in db.folders && Within(Parents(db), c', v)
      && y in db.folders[v].fileUuids && y in db.files
      ensures MoveSubtree(db, x, c, from, to).files[y] == db.files[y]
    {
      WithinChild(db, x, c);
      WithinChild(db, x, c');
      SiblingsApart(Parents(db), x, c, c', v);
      MoveSubtreeFileFrame(db, x, c, from, to, y);
    }
  }

  /** A folder key that no folder below `x` leaves or takes keeps its
      binding. */
  lemma {:induction false} UpdatePathsFolderKey(db: Db, x: Uuid, from: string, to: string, k: string)
    requires ChildrenYounger(db) && Tree(db)
    requires FolderKeyClear(db, UpdatePaths(db, x, from, to), x, k)
    ensures SameKey(db.folderPaths, UpdatePaths(db, x, from, to).folderPaths, k)
    decreases db.counter - x.k, 1, 0
  {
    if x in db.folders {
      var f := db.folders[x];
      var d := UpdateSubfolders(db, x, f.subfolderUuids, from, to);
      assert UpdatePaths(db, x, from, to) == MoveFiles(d, f.fileUuids, from, to);
      forall c | c in f.subfolderUuids ensures SubtreeKeyClear(db, d, c, k) {
        forall w | w in db.folders && Within(Parents(db), c, w)
          ensures db.folders[w].fullFolderPath != k && d.folders[w].fullFolderPath != k
        {
          BelowChild(db, x, c, w);
        }
      }
      UpdateSubfoldersFolderKey(db, x, f.subfolderUuids, from, to, k);
    }
  }

  lemma {:induction false} UpdateSubfoldersFolderKey(db: Db, x: Uuid, subs: seq<Uuid>, from: string, to: string, k: string)
    requires ChildrenYounger(db) && Tree(db) && ChildList(db, x, subs)
    requires forall c :: c in subs ==> SubtreeKeyClear(db, UpdateSubfolders(db, x, subs, from, to), c, k)
    ensures SameKey(db.folderPaths, UpdateSubfolders(db, x, subs, from, to).folderPaths, k)
    decreases db.counter - x.k, 0, |subs|
  {
    if subs != [] {
      var c := subs[0];
      var d := MoveSubtree(db, x, c, from, to);
      SubsHead(db, x, subs, from, to);
      var r := UpdateSubfolders(d, x, subs[1..], from, to);
      SubsSplit(db, x, subs, from, to);
      assert SubtreeKeyClear(db, r, c, k);
      MoveSubtreeFolderKey(db, x, c, from, to, k);
      forall c' | c' in subs[1..] ensures SubtreeKeyClear(d, r, c', k) {
        assert SubtreeKeyClear(db, r, c', k);
      }
      UpdateSubfoldersFolderKey(d, x, subs[1..], from, to, k);
    }
  }

  lemma {:induction false} MoveSubtreeFolderKey(db: Db, x: Uuid, c: Uuid, from: string, to: string, k: string)
    requires ChildrenYounger(db) && Tree(db) && x in db.folders && c in db.folders[x].subfolderUuids
    requires SubtreeKeyClear(db, MoveSubtree(db, x, c, from, to), c, k)
    ensures SameKey(db.folderPaths, MoveSubtree(db, x, c, from, to).folderPaths, k)
    decreases db.counter - x.k, 0, 0
  {
    var p := db.folders[c].fullFolderPath;
    var q := ReplaceAll(p, from, to);
    var m := MoveFolder(db, c, q);
    ShapeChildrenYounger(db, m);
    var r := UpdatePaths(m, c, p, q);
    ShapeTree(db, m);
    ShapeParents(db, m);
    assert MoveSubtree(db, x, c, from, to) == r;
    UpdatePathsFrame(m, c, p, q, c);
    assert FolderKeyClear(m, r, c, k);
    UpdatePathsFolderKey(m, c, p, q, k);
  }

  /** A file key that no file listed at or below `x` leaves or takes keeps
      its binding. */
  lemma {:induction false} UpdatePathsFileKey(db: Db, x: Uuid, from: string, to: string, k: string)
    requires ChildrenYounger(db) && Tree(db)
    requires FileKeyClear(db, UpdatePaths(db, x, from, to), x, k)
    ensures SameKey(db.filePaths, UpdatePaths(db, x, from, to).filePaths, k)
    decreases db.counter - x.k, 1, 0
  {
    if x in db.folders {
      var f := db.folders[x];
      var d := UpdateSubfolders(db, x, f.subfolderUuids, from, to);
      var r := MoveFiles(d, f.fileUuids, from, to);
      ChildListOf(db, x);
      FileKeyClearBelow(db, x, from, to, k);
      UpdateSubfoldersFileKey(db, x, f.subfolderUuids, from, to, k);
      FileKeyHere(db, x, from, to, k);
    }
  }

  /** The files below the children of `x` are clear of `k` after the
      children's rewrites, since the last step moves only the files of `x`. */
  lemma FileKeyClearBelow(db: Db, x: Uuid, from: string, to: string, k: string)
    requires ChildrenYounger(db) && Tree(db) && x in db.folders
    requires FileKeyClear(db, UpdatePaths(db, x, from, to), x, k)
    ensures var d := UpdateSubfolders(db, x, db.folders[x].subfolderUuids, from, to);
      forall c :: c in db.folders[x].subfolderUuids ==> FileKeyClear(db, d, c, k)
  {
    var f := db.folders[x];
    var d := UpdateSubfolders(db, x, f.subfolderUuids, from, to);
    assert UpdatePaths(db, x, from, to) == MoveFiles(d, f.fileUuids, from, to);
    forall c | c in f.subfolderUuids ensures FileKeyClear(db, d, c, k) {
      forall v, y {:trigger y in db.folders[v].fileUuids} | v in db.folders && Within(Parents(db), c, v) && y in db.folders[v].fileUuids && y in db.files
        ensures db.files[y].fullFilePath != k && d.files[y].fullFilePath != k
      {
        BelowChild(db, x, c, v);
        MoveFilesOther(d, f.fileUuids, from, to, y);
      }
    }
  }

  /** The files of `x` itself reach the last step with their old paths, so
      that step keeps the binding of `k`. */
  lemma FileKeyHere(db: Db, x: Uuid, from: string, to: string, k: string)
    requires ChildrenYounger(db) && Tree(db) && x in db.folders
    requires FileKeyClear(db, UpdatePaths(db, x, from, to), x, k)
    ensures var f := db.folders[x];
      var d := UpdateSubfolders(db, x, f.subfolderUuids, from, to);
      SameKey(d.filePaths, MoveFiles(d, f.fileUuids, from, to).filePaths, k)
  {
    var f := db.folders[x];
    var d := UpdateSubfolders(db, x, f.subfolderUuids, from, to);
    var r := MoveFiles(d, f.fileUuids, from, to);
    assert UpdatePaths(db, x, from, to) == r;
    forall c | c in f.subfolderUuids ensures !Within(Parents(db), c, x) {
      BelowChild(db, x, c, x);
    }
    forall y | y in f.fileUuids && y in d.files
      ensures d.files[y].fullFilePath != k && r.files[y].fullFilePath != k
    {
      UpdateSubfoldersFileFrame(db, x, f.subfolderUuids, from, to, y);
    }
    MoveFilesKey(d, f.fileUuids, from, to, k);
  }

  lemma {:induction false} UpdateSubfoldersFileKey(db: Db, x: Uuid, subs: seq<Uuid>, from: string, to: string, k: string)
    requires ChildrenYounger(db) && Tree(db) && ChildList(db, x, subs)
    requires forall c :: c in subs ==> FileKeyClear(db, UpdateSubfolders(db, x, subs, from, to), c, k)
    ensures SameKey(db.filePaths, UpdateSubfolders(db, x, subs, from, to).filePaths, k)
    decreases db.counter - x.k, 0, |subs|
  {
    if subs != [] {
      var c := subs[0];
      var d := MoveSubtree(db, x, c, from, to);
      SubsHead(db, x, subs, from, to);
      var r := UpdateSubfolders(d, x, subs[1..], from, to);
      SubsSplit(db, x, subs, from, to);
      SubsSplitFirstFiles(db, x, subs, from, to);
      SubsSplitRestFiles(db, x, subs, from, to);
      assert FileKeyClear(db, r, c, k);
      MoveSubtreeFileKey(db, x, c, from, to, k);
      forall c' | c' in subs[1..] ensures FileKeyClear(d, r, c', k) {
        assert FileKeyClear(db, r, c', k);
      }
      UpdateSubfoldersFileKey(d, x, subs[1..], from, to, k);
    }
  }

  lemma {:induction false} MoveSubtreeFileKey(db: Db, x: Uuid, c: Uuid, from: string, to: string, k: string)
    requires ChildrenYounger(db) && Tree(db) && x in db.folders && c in db.folders[x].subfolderUuids
    requires FileKeyClear(db, MoveSubtree(db, x, c, from, to), c, k)
    ensures SameKey(db.filePaths, MoveSubtree(db, x, c, from, to).filePaths, k)
    decreases db.counter - x.k, 0, 0
  {
    var p := db.folders[c].fullFolderPath;
    var q := ReplaceAll(p, from, to);
    var m := MoveFolder(db, c, q);
    ShapeChildrenYounger(db, m);
    var r := UpdatePaths(m, c, p, q);
    ShapeTree(db, m);
    ShapeParents(db, m);
    assert MoveSubtree(db, x, c, from, to) == r;
    assert FileKeyClear(m, r, c, k);
    UpdatePathsFileKey(m, c, p, q, k);
  }

  // ---------------------------------------------------------------------------
  // Where every folder and file below the renamed folder ends up

  /** A folder strictly below `x` has a parent, older than it, that is `x`
      or below `x`. */
  lemma ParentWithin(db: Db, x: Uuid, w: Uuid)
    requires w in db.folders && w != x && Within(Parents(db), x, w)
    ensures var p := db.folders[w].parentFolderUuid;
      p.Some? && p.value.k < w.k && Within(Parents(db), x, p.value) && (p.value != x ==> p.value in db.folders)
  {
    var ps := Parents(db);
    assert ps[w] == db.folders[w].parentFolderUuid;
    var p := ps[w].value;
    if p != x {
      assert Within(ps, x, p);
      assert p in ps;
    }
  }

  /** The path a folder strictly below `x` is given when the subtree of `x`
      is rewritten from `from` to `to`, defined along its parent pointers: a
      child of `x` has `from` replaced by `to`, a deeper folder has its
      parent's old path replaced by its parent's new path. */
  ghost function Rewritten(db: Db, x: Uuid, from: string, to: string, w: Uuid): string
    requires w in db.folders && w != x && Within(Parents(db), x, w)
    decreases w.k
  {
    ParentWithin(db, x, w);
    var p := db.folders[w].parentFolderUuid.value;
    if p == x then ReplaceAll(db.folders[w].fullFolderPath, from, to)
    else ReplaceAll(db.folders[w].fullFolderPath, db.folders[p].fullFolderPath, Rewritten(db, x, from, to, p))
  }

  /** The path a file listed by `v` (which is `x` or below it) is given: the
      replacement that `v`'s own rewrite passes down. */
  ghost function FileRewritten(db: Db, x: Uuid, from: string, to: string, v: Uuid, y: Uuid): string
    requires v in db.folders && Within(Parents(db), x, v) && y in db.files
  {
    if v == x then ReplaceAll(db.files[y].fullFilePath, from, to)
    else ReplaceAll(db.files[y].fullFilePath, db.folders[v].fullFolderPath, Rewritten(db, x, from, to, v))
  }

  /** A folder strictly below `x` lies below one of the subfolders `x`
      lists. */
  lemma {:induction false} ChildAbove(db: Db, x: Uuid, w: Uuid) returns (c: Uuid)
    requires Tree(db) && x in db.folders && w in db.folders && w != x && Within(Parents(db), x, w)
    ensures c in db.folders[x].subfolderUuids && Within(Parents(db), c, w)
    decreases w.k
  {
    var p := db.folders[w].parentFolderUuid.value;
    if p == x {
      assert ListedBy(db, w);
      c := w;
    } else {
      c := ChildAbove(db, x, p);
      WithinTrans(Parents(db), c, p, w);
    }
  }

  /** Rewriting the subtree of a child `c` of `x` from `c`'s old path to its
      new one gives every folder strictly below `c` the path the rewrite of
      `x` would, when the paths below `c` are still the original ones. */
  lemma {:induction false} RewrittenShift(db: Db, m: Db, x: Uuid, c: Uuid, from: string, to: string, w: Uuid)
    requires Parents(m) == Parents(db)
    requires c in db.folders && db.folders[c].parentFolderUuid == Some(x) && x.k < c.k
    requires forall v :: v in db.folders && v != c && Within(Parents(db), c, v) ==>
      v in m.folders && m.folders[v].fullFolderPath == db.folders[v].fullFolderPath
    requires w in db.folders && w != c && Within(Parents(db), c, w)
    ensures w in m.folders && w != x && Within(Parents(db), x, w)
    ensures Rewritten(m, c, db.folders[c].fullFolderPath, ReplaceAll(db.folders[c].fullFolderPath, from, to), w)
      == Rewritten(db, x, from, to, w)
    decreases w.k
  {
    var ps := Parents(db);
    assert Within(ps, x, c);
    WithinTrans(ps, x, c, w);
    WithinOlder(ps, c, w);
    var p := db.folders[w].parentFolderUuid.value;
    if p != c {
      WithinOlder(ps, c, p);
      RewrittenShift(db, m, x, c, from, to, p);
    }
  }

  /** Two tables with the same parents and the same paths in the subtree of
      a child `c` of `x` agree on where the rewrite of `x` sends that
      subtree. */
  lemma {:induction false} RewrittenAgree(a: Db, b: Db, x: Uuid, c: Uuid, from: string, to: string, w: Uuid)
    requires Parents(a) == Parents(b)
    requires c in a.folders && a.folders[c].parentFolderUuid == Some(x) && x.k < c.k
    requires forall v :: v in a.folders && Within(Parents(a), c, v) ==>
      v in b.folders && b.folders[v].fullFolderPath == a.folders[v].fullFolderPath
    requires w in a.folders && Within(Parents(a), c, w)
    ensures w in b.folders && w != x && Within(Parents(a), x, w)
    ensures Rewritten(a, x, from, to, w) == Rewritten(b, x, from, to, w)
    decreases w.k
  {
    var ps := Parents(a);
    assert Within(ps, x, c);
    WithinTrans(ps, x, c, w);
    WithinOlder(ps, c, w);
    if w != c {
      var p := a.folders[w].parentFolderUuid.value;
      WithinOlder(ps, c, p);
      RewrittenAgree(a, b, x, c, from, to, p);
    }
  }

  /** The table after the first child's rewrite still satisfies what the
      rewrite of the later children needs. */
  lemma SubsHead(db: Db, x: Uuid, subs: seq<Uuid>, from: string, to: string)
    requires ChildrenYounger(db) && Tree(db) && ChildList(db, x, subs) && subs != []
    ensures var d := MoveSubtree(db, x, subs[0], from, to);
      ChildrenYounger(d) && Tree(d) && Parents(d) == Parents(db) && ChildList(d, x, subs[1..])
    ensures var d := MoveSubtree(db, x, subs[0], from, to);
      UpdateSubfolders(db, x, subs, from, to) == UpdateSubfolders(d, x, subs[1..], from, to)
  {
    var d := MoveSubtree(db, x, subs[0], from, to);
    ShapeChildrenYounger(db, d);
    ShapeTree(db, d);
    ShapeParents(db, d);
    ChildListTail(db, d, x, subs);
  }

  /** The tables after the first child's rewrite and after all of them have
      the same shape. */
  lemma SubsHeadShape(db: Db, x: Uuid, subs: seq<Uuid>, from: string, to: string)
    requires ChildrenYounger(db) && Tree(db) && ChildList(db, x, subs) && subs != []
    ensures var d := MoveSubtree(db, x, subs[0], from, to);
      SameShape(db, d) && Parents(d) == Parents(db) && SameShape(d, UpdateSubfolders(db, x, subs, from, to))
  {
    SubsHead(db, x, subs, from, to);
  }

  /** The first child's rewrite leaves alone a folder below another child
      of `x`. */
  lemma LaterFrame(db: Db, x: Uuid, subs: seq<Uuid>, from: string, to: string, c: Uuid, u: Uuid)
    requires ChildrenYounger(db) && Tree(db) && ChildList(db, x, subs) && subs != []
    requires c in db.folders[x].subfolderUuids && c != subs[0]
    requires u in db.folders && Within(Parents(db), c, u)
    ensures u != x && Within(Parents(db), x, u) && !Within(Parents(db), subs[0], u)
    ensures MoveSubtree(db, x, subs[0], from, to).folders[u] == db.folders[u]
  {
    var ps := Parents(db);
    WithinChild(db, x, subs[0]);
    WithinChild(db, x, c);
    WithinOlder(ps, c, u);
    WithinTrans(ps, x, c, u);
    SiblingsApart(ps, x, subs[0], c, u);
    MoveSubtreeFrame(db, x, subs[0], from, to, u);
  }

  /** The later children's rewrites leave a folder of the first child's
      subtree alone ... */
  lemma SubsFirstKept(db: Db, x: Uuid, subs: seq<Uuid>, from: string, to: string, w: Uuid)
    requires ChildrenYounger(db) && Tree(db) && ChildList(db, x, subs) && subs != []
    requires w in db.folders && Within(Parents(db), subs[0], w)
    ensures var d := MoveSubtree(db, x, subs[0], from, to);
      UpdateSubfolders(db, x, subs, from, to).folders[w] == d.folders[w]
  {
    var d := MoveSubtree(db, x, subs[0], from, to);
    SubsHead(db, x, subs, from, to);
    SubsApart(db, x, subs, w);
    UpdateSubfoldersFrame(d, x, subs[1..], from, to, w);
  }

  /** ... and a file listed there. */
  lemma SubsFirstFileKept(db: Db, x: Uuid, subs: seq<Uuid>, from: string, to: string, v: Uuid, y: Uuid)
    requires ChildrenYounger(db) && Tree(db) && ChildList(db, x, subs) && subs != []
    requires v in db.folders && Within(Parents(db), subs[0], v) && y in db.folders[v].fileUuids && y in db.files
    ensures var d := MoveSubtree(db, x, subs[0], from, to);
      UpdateSubfolders(db, x, subs, from, to).files[y] == d.files[y]
  {
    var d := MoveSubtree(db, x, subs[0], from, to);
    SubsHead(db, x, subs, from, to);
    SubsApart(db, x, subs, v);
    UpdateSubfoldersFileFrame(d, x, subs[1..], from, to, y);
  }

  /** The first child's rewrite leaves the paths in a later child's subtree
      alone, so `Rewritten` reads the same there before and after it. */
  lemma SubsLaterAgree(db: Db, x: Uuid, subs: seq<Uuid>, from: string, to: string, c: Uuid, w: Uuid)
    requires ChildrenYounger(db) && Tree(db) && ChildList(db, x, subs) && subs != [] && c in subs[1..]
    requires w in db.folders && Within(Parents(db), c, w)
    ensures var d := MoveSubtree(db, x, subs[0], from, to);
      Parents(d) == Parents(db) && w in d.folders && w != x && Within(Parents(db), x, w)
    ensures var d := MoveSubtree(db, x, subs[0], from, to);
      Rewritten(d, x, from, to, w) == Rewritten(db, x, from, to, w)
  {
    var d := MoveSubtree(db, x, subs[0], from, to);
    ShapeParents(db, d);
    NoDupTail(subs);
    WithinChild(db, x, c);
    forall u | u in db.folders && Within(Parents(db), c, u)
      ensures u in d.folders && d.folders[u].fullFolderPath == db.folders[u].fullFolderPath
    {
      LaterFrame(db, x, subs, from, to, c, u);
    }
    RewrittenAgree(db, d, x, c, from, to, w);
  }

  /** The same for a file listed in a later child's subtree. */
  lemma SubsLaterFileAgree(db: Db, x: Uuid, subs: seq<Uuid>, from: string, to: string, c: Uuid, v: Uuid, y: Uuid)
    requires ChildrenYounger(db) && Tree(db) && ChildList(db, x, subs) && subs != [] && c in subs[1..]
    requires v in db.folders && Within(Parents(db), c, v) && y in db.folders[v].fileUuids && y in db.files
    ensures var d := MoveSubtree(db, x, subs[0], from, to);
      Parents(d) == Parents(db) && v in d.folders && y in d.files && Within(Parents(db), x, v)
    ensures var d := MoveSubtree(db, x, subs[0], from, to);
      FileRewritten(d, x, from, to, v, y) == FileRewritten(db, x, from, to, v, y)
  {
    var d := MoveSubtree(db, x, subs[0], from, to);
    ShapeParents(db, d);
    NoDupTail(subs);
    WithinChild(db, x, c);
    forall u | u in db.folders && Within(Parents(db), c, u)
      ensures u in d.folders && d.folders[u].fullFolderPath == db.folders[u].fullFolderPath
    {
      LaterFrame(db, x, subs, from, to, c, u);
    }
    LaterFrame(db, x, subs, from, to, c, v);
    MoveSubtreeFileFrame(db, x, subs[0], from, to, y);
    FileRewrittenAgree(db, d, x, c, from, to, v, y);
  }

  /** Every folder strictly below `x` ends with the path `Rewritten` gives
      it. */
  lemma UpdatePathsRewrites(db: Db, x: Uuid, from: string, to: string)
    requires ChildrenYounger(db) && Tree(db) && x in db.folders
    ensures forall w :: w in db.folders && w != x && Within(Parents(db), x, w) ==>
      UpdatePaths(db, x, from, to).folders[w].fullFolderPath == Rewritten(db, x, from, to, w)
  {
    forall w | w in db.folders && w != x && Within(Parents(db), x, w)
      ensures UpdatePaths(db, x, from, to).folders[w].fullFolderPath == Rewritten(db, x, from, to, w)
    {
      UpdatePathsRewritesAt(db, x, from, to, w);
    }
  }

  /** The same, one folder at a time, which is how the induction runs. */
  lemma {:induction false} UpdatePathsRewritesAt(db: Db, x: Uuid, from: string, to: string, w: Uuid)
    requires ChildrenYounger(db) && Tree(db) && x in db.folders
    requires w in db.folders && w != x && Within(Parents(db), x, w)
    ensures UpdatePaths(db, x, from, to).folders[w].fullFolderPath == Rewritten(db, x, from, to, w)
    decreases db.counter - x.k, 1, 0
  {
    var f := db.folders[x];
    var d := UpdateSubfolders(db, x, f.subfolderUuids, from, to);
    assert UpdatePaths(db, x, from, to).folders == d.folders;
    ChildListOf(db, x);
    var c := ChildAbove(db, x, w);
    UpdateSubfoldersRewritesAt(db, x, f.subfolderUuids, from, to, c, w);
  }

  lemma {:induction false} UpdateSubfoldersRewritesAt(db: Db, x: Uuid, subs: seq<Uuid>, from: string, to: string, c: Uuid, w: Uuid)
    requires ChildrenYounger(db) && Tree(db) && ChildList(db, x, subs) && c in subs
    requires w in db.folders && w != x && Within(Parents(db), x, w) && Within(Parents(db), c, w)
    ensures UpdateSubfolders(db, x, subs, from, to).folders[w].fullFolderPath == Rewritten(db, x, from, to, w)
    decreases db.counter - x.k, 0, |subs|
  {
    var d := MoveSubtree(db, x, subs[0], from, to);
    SubsHead(db, x, subs, from, to);
    if c == subs[0] {
      MoveSubtreeRewritesAt(db, x, c, from, to, w);
      SubsFirstKept(db, x, subs, from, to, w);
    } else {
      assert c in subs[1..];
      UpdateSubfoldersRewritesAt(d, x, subs[1..], from, to, c, w);
      SubsLaterAgree(db, x, subs, from, to, c, w);
    }
  }

  /** Subfolder `c` itself gets `from` replaced by `to` in its path. */
  lemma MoveSubtreeHead(db: Db, x: Uuid, c: Uuid, from: string, to: string)
    requires ChildrenYounger(db) && Tree(db) && x in db.folders && c in db.folders[x].subfolderUuids
    ensures c in db.folders && c != x && Within(Parents(db), x, c)
    ensures MoveSubtree(db, x, c, from, to).folders[c].fullFolderPath == ReplaceAll(db.folders[c].fullFolderPath, from, to)
    ensures MoveSubtree(db, x, c, from, to).folders[c].fullFolderPath == Rewritten(db, x, from, to, c)
  {
    var p := db.folders[c].fullFolderPath;
    var q := ReplaceAll(p, from, to);
    var m := MoveFolder(db, c, q);
    ShapeChildrenYounger(db, m);
    ShapeTree(db, m);
    WithinChild(db, x, c);
    UpdatePathsFrame(m, c, p, q, c);
  }

  lemma {:induction false} MoveSubtreeRewritesAt(db: Db, x: Uuid, c: Uuid, from: string, to: string, w: Uuid)
    requires ChildrenYounger(db) && Tree(db) && x in db.folders && c in db.folders[x].subfolderUuids
    requires w in db.folders && Within(Parents(db), c, w)
    ensures w != x && Within(Parents(db), x, w)
    ensures MoveSubtree(db, x, c, from, to).folders[w].fullFolderPath == Rewritten(db, x, from, to, w)
    decreases db.counter - x.k, 0, 0
  {
    var ps := Parents(db);
    WithinChild(db, x, c);
    WithinTrans(ps, x, c, w);
    WithinOlder(ps, c, w);
    if w == c {
      MoveSubtreeHead(db, x, c, from, to);
    } else {
      var p := db.folders[c].fullFolderPath;
      var q := ReplaceAll(p, from, to);
      var m := MoveFolder(db, c, q);
      ShapeChildrenYounger(db, m);
      ShapeTree(db, m);
      ShapeParents(db, m);
      assert MoveSubtree(db, x, c, from, to) == UpdatePaths(m, c, p, q);
      UpdatePathsRewritesAt(m, c, p, q, w);
      RewrittenShift(db, m, x, c, from, to, w);
    }
  }

  /** `FileRewritten` seen from the rewrite of a child `c` of `x` equals the
      one seen from `x`, as `RewrittenShift` is for folders. */
  lemma FileRewrittenShift(db: Db, m: Db, x: Uuid, c: Uuid, from: string, to: string, v: Uuid, y: Uuid)
    requires Parents(m) == Parents(db) && m.files == db.files
    requires c in db.folders && db.folders[c].parentFolderUuid == Some(x) && x.k < c.k
    requires forall u :: u in db.folders && u != c && Within(Parents(db), c, u) ==>
      u in m.folders && m.folders[u].fullFolderPath == db.folders[u].fullFolderPath
    requires v in db.folders && v in m.folders && Within(Parents(db), c, v) && y in db.files
    ensures v != x && Within(Parents(db), x, v)
    ensures FileRewritten(m, c, db.folders[c].fullFolderPath, ReplaceAll(db.folders[c].fullFolderPath, from, to), v, y)
      == FileRewritten(db, x, from, to, v, y)
  {
    var ps := Parents(db);
    assert Within(ps, x, c);
    WithinTrans(ps, x, c, v);
    WithinOlder(ps, c, v);
    if v != c {
      RewrittenShift(db, m, x, c, from, to, v);
    }
  }

  /** Two tables with the same parents, and the same paths in the subtree of
      a child `c` of `x` and for file `y`, agree on where the rewrite of `x`
      sends `y`. */
  lemma FileRewrittenAgree(a: Db, b: Db, x: Uuid, c: Uuid, from: string, to: string, v: Uuid, y: Uuid)
    requires Parents(a) == Parents(b)
    requires c in a.folders && a.folders[c].parentFolderUuid == Some(x) && x.k < c.k
    requires forall u :: u in a.folders && Within(Parents(a), c, u) ==>
      u in b.folders && b.folders[u].fullFolderPath == a.folders[u].fullFolderPath
    requires v in a.folders && Within(Parents(a), c, v) && y in a.files && y in b.files
    requires b.files[y].fullFilePath == a.files[y].fullFilePath
    ensures v in b.folders && v != x && Within(Parents(a), x, v)
    ensures FileRewritten(a, x, from, to, v, y) == FileRewritten(b, x, from, to, v, y)
  {
    RewrittenAgree(a, b, x, c, from, to, v);
  }

  /** Every file listed by `x` or by a folder below it ends with the path
      `FileRewritten` gives it. */
  lemma UpdatePathsFileRewrites(db: Db, x: Uuid, from: string, to: string)
    requires ChildrenYounger(db) && Tree(db) && x in db.folders
    ensures forall v, y {:trigger y in db.folders[v].fileUuids} :: v in db.folders && Within(Parents(db), x, v) && y in db.folders[v].fileUuids && y in db.files ==>
      UpdatePaths(db, x, from, to).files[y].fullFilePath == FileRewritten(db, x, from, to, v, y)
  {
    forall v, y {:trigger y in db.folders[v].fileUuids} | v in db.folders && Within(Parents(db), x, v) && y in db.folders[v].fileUuids && y in db.files
      ensures UpdatePaths(db, x, from, to).files[y].fullFilePath == FileRewritten(db, x, from, to, v, y)
    {
      UpdatePathsFileRewritesAt(db, x, from, to, v, y);
    }
  }

  lemma {:induction false} UpdatePathsFileRewritesAt(db: Db, x: Uuid, from: string, to: string, v: Uuid, y: Uuid)
    requires ChildrenYounger(db) && Tree(db) && x in db.folders
    requires v in db.folders && Within(Parents(db), x, v) && y in db.folders[v].fileUuids && y in db.files
    ensures UpdatePaths(db, x, from, to).files[y].fullFilePath == FileRewritten(db, x, from, to, v, y)
    decreases db.counter - x.k, 1, 0
  {
    var f := db.folders[x];
    var d := UpdateSubfolders(db, x, f.subfolderUuids, from, to);
    assert UpdatePaths(db, x, from, to) == MoveFiles(d, f.fileUuids, from, to);
    if v == x {
      FilesHere(db, x, from, to);
    } else {
      ChildListOf(db, x);
      var c := ChildAbove(db, x, v);
      UpdateSubfoldersFileRewritesAt(db, x, f.subfolderUuids, from, to, c, v, y);
      assert db.files[y].folderUuid == v;
      MoveFilesOther(d, f.fileUuids, from, to, y);
    }
  }
  /** The files `x` lists get `from` replaced by `to`. */
  lemma FilesHere(db: Db, x: Uuid, from: string, to: string)
    requires ChildrenYounger(db) && Tree(db) && x in db.folders
    ensures var f := db.folders[x];
      var d := UpdateSubfolders(db, x, f.subfolderUuids, from, to);
      forall y :: y in f.fileUuids && y in db.files ==>
        MoveFiles(d, f.fileUuids, from, to).files[y].fullFilePath == ReplaceAll(db.files[y].fullFilePath, from, to)
  {
    var f := db.folders[x];
    var d := UpdateSubfolders(db, x, f.subfolderUuids, from, to);
    forall c | c in f.subfolderUuids ensures !Within(Parents(db), c, x) {
      BelowChild(db, x, c, x);
    }
    forall y | y in f.fileUuids && y in db.files ensures d.files[y] == db.files[y] {
      UpdateSubfoldersFileFrame(db, x, f.subfolderUuids, from, to, y);
    }
    MoveFilesRewrites(d, f.fileUuids, from, to);
  }

  lemma {:induction false} UpdateSubfoldersFileRewritesAt(db: Db, x: Uuid, subs: seq<Uuid>, from: string, to: string, c: Uuid, v: Uuid, y: Uuid)
    requires ChildrenYounger(db) && Tree(db) && ChildList(db, x, subs) && c in subs
    requires v in db.folders && Within(Parents(db), c, v) && y in db.folders[v].fileUuids && y in db.files
    ensures Within(Parents(db), x, v)
    ensures UpdateSubfolders(db, x, subs, from, to).files[y].fullFilePath == FileRewritten(db, x, from, to, v, y)
    decreases db.counter - x.k, 0, |subs|
  {
    WithinChild(db, x, c);
    WithinTrans(Parents(db), x, c, v);
    var d := MoveSubtree(db, x, subs[0], from, to);
    SubsHead(db, x, subs, from, to);
    if c == subs[0] {
      MoveSubtreeFileRewritesAt(db, x, c, from, to, v, y);
      SubsFirstFileKept(db, x, subs, from, to, v, y);
    } else {
      assert c in subs[1..];
      UpdateSubfoldersFileRewritesAt(d, x, subs[1..], from, to, c, v, y);
      SubsLaterFileAgree(db, x, subs, from, to, c, v, y);
    }
  }

  lemma {:induction false} MoveSubtreeFileRewritesAt(db: Db, x: Uuid, c: Uuid, from: string, to: string, v: Uuid, y: Uuid)
    requires ChildrenYounger(db) && Tree(db) && x in db.folders && c in db.folders[x].subfolderUuids
    requires v in db.folders && Within(Parents(db), c, v) && y in db.folders[v].fileUuids && y in db.files
    ensures v != x && Within(Parents(db), x, v)
    ensures MoveSubtree(db, x, c, from, to).files[y].fullFilePath == FileRewritten(db, x, from, to, v, y)
    decreases db.counter - x.k, 0, 0
  {
    var p := db.folders[c].fullFolderPath;
    var q := ReplaceAll(p, from, to);
    var m := MoveFolder(db, c, q);
    ShapeChildrenYounger(db, m);
    ShapeTree(db, m);
    ShapeParents(db, m);
    assert MoveSubtree(db, x, c, from, to) == UpdatePaths(m, c, p, q);
    WithinChild(db, x, c);
    UpdatePathsFileRewritesAt(m, c, p, q, v, y);
    FileRewrittenShift(db, m, x, c, from, to, v, y);
  }

  // ---------------------------------------------------------------------------
  // Where the rewritten paths are indexed

  /** No folder strictly below `x` other than `w` has the path `k` before or
      after. */
  predicate FolderKeyFree(db: Db, r: Db, x: Uuid, w: Uuid, k: string)
    requires SameShape(db, r)
  {
    forall u :: u in db.folders && u != x && u != w && Within(Parents(db), x, u) ==>
      db.folders[u].fullFolderPath != k && r.folders[u].fullFolderPath != k
  }

  /** Neither `c` nor any folder below it other than `w` has the path `k`
      before or after. */
  predicate SubtreeKeyFree(db: Db, r: Db, c: Uuid, w: Uuid, k: string)
    requires SameShape(db, r)
  {
    forall u :: u in db.folders && u != w && Within(Parents(db), c, u) ==>
      db.folders[u].fullFolderPath != k && r.folders[u].fullFolderPath != k
  }

  /** A folder below `x` ends up indexed under its rewritten path, unless
      another folder below `x` has that path before or after. */
  lemma {:induction false} UpdatePathsBinds(db: Db, x: Uuid, from: string, to: string, w: Uuid)
    requires ChildrenYounger(db) && Tree(db) && x in db.folders
    requires w in db.folders && w != x && Within(Parents(db), x, w)
    requires FolderKeyFree(db, UpdatePaths(db, x, from, to), x, w, Rewritten(db, x, from, to, w))
    ensures var k := Rewritten(db, x, from, to, w);
      k in UpdatePaths(db, x, from, to).folderPaths && UpdatePaths(db, x, from, to).folderPaths[k] == w
    decreases db.counter - x.k, 1, 0
  {
    var f := db.folders[x];
    var d := UpdateSubfolders(db, x, f.subfolderUuids, from, to);
    assert UpdatePaths(db, x, from, to).folders == d.folders;
    assert UpdatePaths(db, x, from, to).folderPaths == d.folderPaths;
    ChildListOf(db, x);
    var c := ChildAbove(db, x, w);
    UpdateSubfoldersBinds(db, x, f.subfolderUuids, from, to, c, w);
  }

  lemma {:induction false} UpdateSubfoldersBinds(db: Db, x: Uuid, subs: seq<Uuid>, from: string, to: string, c: Uuid, w: Uuid)
    requires ChildrenYounger(db) && Tree(db) && ChildList(db, x, subs) && c in subs
    requires w in db.folders && w != x && Within(Parents(db), x, w) && Within(Parents(db), c, w)
    requires FolderKeyFree(db, UpdateSubfolders(db, x, subs, from, to), x, w, Rewritten(db, x, from, to, w))
    ensures var k := Rewritten(db, x, from, to, w);
      k in UpdateSubfolders(db, x, subs, from, to).folderPaths && UpdateSubfolders(db, x, subs, from, to).folderPaths[k] == w
    decreases db.counter - x.k, 0, |subs|
  {
    var d := MoveSubtree(db, x, subs[0], from, to);
    SubsHead(db, x, subs, from, to);
    if c == subs[0] {
      SubsFirstKeyFree(db, x, subs, from, to, w, Rewritten(db, x, from, to, w));
      MoveSubtreeBinds(db, x, c, from, to, w);
      SubsFirstBinds(db, x, subs, from, to, w, Rewritten(db, x, from, to, w));
    } else {
      assert c in subs[1..];
      SubsLaterAgree(db, x, subs, from, to, c, w);
      SubsLaterKeyFree(db, x, subs, from, to, w, Rewritten(db, x, from, to, w));
      UpdateSubfoldersBinds(d, x, subs[1..], from, to, c, w);
    }
  }

  lemma {:induction false} MoveSubtreeBinds(db: Db, x: Uuid, c: Uuid, from: string, to: string, w: Uuid)
    requires ChildrenYounger(db) && Tree(db) && x in db.folders && c in db.folders[x].subfolderUuids
    requires w in db.folders && w != x && Within(Parents(db), x, w) && Within(Parents(db), c, w)
    requires SubtreeKeyFree(db, MoveSubtree(db, x, c, from, to), c, w, Rewritten(db, x, from, to, w))
    ensures var k := Rewritten(db, x, from, to, w);
      k in MoveSubtree(db, x, c, from, to).folderPaths && MoveSubtree(db, x, c, from, to).folderPaths[k] == w
    decreases db.counter - x.k, 0, 0
  {
    if w == c {
      MoveSubtreeBindsHead(db, x, c, from, to);
    } else {
      var p := db.folders[c].fullFolderPath;
      var q := ReplaceAll(p, from, to);
      var m := MoveFolder(db, c, q);
      ShapeChildrenYounger(db, m);
      var r := UpdatePaths(m, c, p, q);
      ShapeTree(db, m);
      ShapeParents(db, m);
      assert MoveSubtree(db, x, c, from, to) == r;
      WithinChild(db, x, c);
      RewrittenShift(db, m, x, c, from, to, w);
      assert FolderKeyFree(m, r, c, w, Rewritten(db, x, from, to, w));
      UpdatePathsBinds(m, c, p, q, w);
    }
  }

  /** `c` itself: moving it binds its new path, and the rewrite below it
      leaves that binding alone. */
  lemma MoveSubtreeBindsHead(db: Db, x: Uuid, c: Uuid, from: string, to: string)
    requires ChildrenYounger(db) && Tree(db) && x in db.folders && c in db.folders[x].subfolderUuids
    requires c in db.folders && c != x && Within(Parents(db), x, c)
    requires SubtreeKeyFree(db, MoveSubtree(db, x, c, from, to), c, c, Rewritten(db, x, from, to, c))
    ensures var k := Rewritten(db, x, from, to, c);
      k in MoveSubtree(db, x, c, from, to).folderPaths && MoveSubtree(db, x, c, from, to).folderPaths[k] == c
  {
    var p := db.folders[c].fullFolderPath;
    var q := ReplaceAll(p, from, to);
    var m := MoveFolder(db, c, q);
    ShapeChildrenYounger(db, m);
    var r := UpdatePaths(m, c, p, q);
    ShapeTree(db, m);
    ShapeParents(db, m);
    assert MoveSubtree(db, x, c, from, to) == r;
    MoveSubtreeHead(db, x, c, from, to);
    assert FolderKeyClear(m, r, c, q);
    UpdatePathsFolderKey(m, c, p, q, q);
  }

  /** A binding the first child's rewrite makes for a folder of its subtree
      survives the later children's rewrites. */
  lemma SubsFirstBinds(db: Db, x: Uuid, subs: seq<Uuid>, from: string, to: string, w: Uuid, k: string)
    requires ChildrenYounger(db) && Tree(db) && ChildList(db, x, subs) && subs != []
    requires w in db.folders && Within(Parents(db), subs[0], w)
    requires FolderKeyFree(db, UpdateSubfolders(db, x, subs, from, to), x, w, k)
    requires var d := MoveSubtree(db, x, subs[0], from, to);
      k in d.folderPaths && d.folderPaths[k] == w
    ensures k in UpdateSubfolders(db, x, subs, from, to).folderPaths && UpdateSubfolders(db, x, subs, from, to).folderPaths[k] == w
  {
    var d := MoveSubtree(db, x, subs[0], from, to);
    SubsHead(db, x, subs, from, to);
    SubsRestKeyClear(db, x, subs, from, to, w, k);
    UpdateSubfoldersFolderKey(d, x, subs[1..], from, to, k);
  }

  /** Splitting the hypothesis at the first child, whose subtree holds `w`:
      that subtree is free of `k` but for `w` ... */
  lemma SubsFirstKeyFree(db: Db, x: Uuid, subs: seq<Uuid>, from: string, to: string, w: Uuid, k: string)
    requires ChildrenYounger(db) && Tree(db) && ChildList(db, x, subs) && subs != []
    requires FolderKeyFree(db, UpdateSubfolders(db, x, subs, from, to), x, w, k)
    ensures SubtreeKeyFree(db, MoveSubtree(db, x, subs[0], from, to), subs[0], w, k)
  {
    var d := MoveSubtree(db, x, subs[0], from, to);
    SubsSplit(db, x, subs, from, to);
    WithinChild(db, x, subs[0]);
    SubtreeBelow(db, x, subs[0]);
    FreeBelow(db, d, UpdateSubfolders(db, x, subs, from, to), x, subs[0], w, k);
  }

  /** Every folder in the subtree of a child `c` of `x` is strictly below
      `x`. */
  lemma SubtreeBelow(db: Db, x: Uuid, c: Uuid)
    requires c in Parents(db) && Parents(db)[c] == Some(x) && x.k < c.k
    ensures forall u :: Within(Parents(db), c, u) ==> u != x && Within(Parents(db), x, u)
  {
    assert Within(Parents(db), x, c);
    forall u | Within(Parents(db), c, u) ensures u != x && Within(Parents(db), x, u) {
      WithinOlder(Parents(db), c, u);
      WithinTrans(Parents(db), x, c, u);
    }
  }

  /** The part of `FolderKeyFree` about a subtree that the later rewrites
      leave alone. */
  lemma FreeBelow(db: Db, d: Db, r: Db, x: Uuid, c: Uuid, w: Uuid, k: string)
    requires SameShape(db, d) && SameShape(db, r) && FolderKeyFree(db, r, x, w, k)
    requires forall u :: Within(Parents(db), c, u) ==> u != x && Within(Parents(db), x, u)
    requires forall u :: u in db.folders && Within(Parents(db), c, u) ==> r.folders[u] == d.folders[u]
    ensures SubtreeKeyFree(db, d, c, w, k)
  {
  }



  /** ... and the later subtrees are clear of it. */
  lemma SubsRestKeyClear(db: Db, x: Uuid, subs: seq<Uuid>, from: string, to: string, w: Uuid, k: string)
    requires ChildrenYounger(db) && Tree(db) && ChildList(db, x, subs) && subs != []
    requires w in db.folders && Within(Parents(db), subs[0], w)
    requires FolderKeyFree(db, UpdateSubfolders(db, x, subs, from, to), x, w, k)
    ensures var d := MoveSubtree(db, x, subs[0], from, to);
      forall c :: c in subs[1..] ==> SubtreeKeyClear(d, UpdateSubfolders(db, x, subs, from, to), c, k)
  {
    var d := MoveSubtree(db, x, subs[0], from, to);
    SubsHead(db, x, subs, from, to);
    NoDupTail(subs);
    forall c | c in subs[1..] ensures SubtreeKeyClear(d, UpdateSubfolders(db, x, subs, from, to), c, k) {
      LaterKeyClear(db, x, subs, from, to, c, w, k);
    }
  }

  lemma LaterKeyClear(db: Db, x: Uuid, subs: seq<Uuid>, from: string, to: string, c: Uuid, w: Uuid, k: string)
    requires ChildrenYounger(db) && Tree(db) && ChildList(db, x, subs) && subs != [] && c in subs[1..]
    requires w in db.folders && Within(Parents(db), subs[0], w)
    requires FolderKeyFree(db, UpdateSubfolders(db, x, subs, from, to), x, w, k)
    ensures var d := MoveSubtree(db, x, subs[0], from, to);
      SubtreeKeyClear(d, UpdateSubfolders(db, x, subs, from, to), c, k)
  {
    var d := MoveSubtree(db, x, subs[0], from, to);
    SubsHead(db, x, subs, from, to);
    var r := UpdateSubfolders(db, x, subs, from, to);
    NoDupTail(subs);
    forall u | u in db.folders && Within(Parents(db), c, u)
      ensures d.folders[u].fullFolderPath != k && r.folders[u].fullFolderPath != k
    {
      LaterFrame(db, x, subs, from, to, c, u);
    }
  }



  /** For `w` below a later child, the hypothesis carries over to the table
      after the first child's rewrite. */
  lemma SubsLaterKeyFree(db: Db, x: Uuid, subs: seq<Uuid>, from: string, to: string, w: Uuid, k: string)
    requires ChildrenYounger(db) && Tree(db) && ChildList(db, x, subs) && subs != []
    requires FolderKeyFree(db, UpdateSubfolders(db, x, subs, from, to), x, w, k)
    ensures var d := MoveSubtree(db, x, subs[0], from, to);
      FolderKeyFree(d, UpdateSubfolders(db, x, subs, from, to), x, w, k)
  {
    var d := MoveSubtree(db, x, subs[0], from, to);
    SubsHead(db, x, subs, from, to);
    var r := UpdateSubfolders(db, x, subs, from, to);
    forall u | u in db.folders && u != x && u != w && Within(Parents(db), x, u)
      ensures d.folders[u].fullFolderPath != k && r.folders[u].fullFolderPath != k
    {
      LaterFolderFrame(db, x, subs, from, to, u);
    }
  }

  /** A folder strictly below `x` has, after the first child's rewrite,
      either its old record or its final one. */
  lemma LaterFolderFrame(db: Db, x: Uuid, subs: seq<Uuid>, from: string, to: string, u: Uuid)
    requires ChildrenYounger(db) && Tree(db) && ChildList(db, x, subs) && subs != []
    requires u in db.folders && u != x && Within(Parents(db), x, u)
    ensures var d := MoveSubtree(db, x, subs[0], from, to);
      d.folders[u] == db.folders[u] || UpdateSubfolders(db, x, subs, from, to).folders[u] == d.folders[u]
  {
    var c' := ChildAbove(db, x, u);
    if c' == subs[0] {
      SubsFirstKept(db, x, subs, from, to, u);
    } else {
      LaterFrame(db, x, subs, from, to, c', u);
    }
  }

  /** No file listed by `x` or by a folder below it, other than `y`, has the
      path `k` before or after. */
  predicate FileKeyFree(db: Db, r: Db, x: Uuid, y: Uuid, k: string)
    requires SameShape(db, r)
  {
    forall v, z {:trigger z in db.folders[v].fileUuids} :: v in db.folders && Within(Parents(db), x, v) && z in db.folders[v].fileUuids && z in db.files && z != y ==>
      db.files[z].fullFilePath != k && r.files[z].fullFilePath != k
  }

  /** A file listed by `x` or below it ends up indexed under its rewritten
      path, unless another file listed there has that path before or
      after. */
  lemma {:induction false} UpdatePathsFileBinds(db: Db, x: Uuid, from: string, to: string, v: Uuid, y: Uuid)
    requires ChildrenYounger(db) && Tree(db) && x in db.folders
    requires v in db.folders && Within(Parents(db), x, v) && y in db.folders[v].fileUuids && y in db.files
    requires FileKeyFree(db, UpdatePaths(db, x, from, to), x, y, FileRewritten(db, x, from, to, v, y))
    ensures var k := FileRewritten(db, x, from, to, v, y);
      k in UpdatePaths(db, x, from, to).filePaths && UpdatePaths(db, x, from, to).filePaths[k] == y
    decreases db.counter - x.k, 1, 0
  {
    var k := FileRewritten(db, x, from, to, v, y);
    if v == x {
      HereFileBinds(db, x, from, to, y);
    } else {
      var f := db.folders[x];
      var d := UpdateSubfolders(db, x, f.subfolderUuids, from, to);
      ChildListOf(db, x);
      var c := ChildAbove(db, x, v);
      WithinChild(db, x, c);
      BeforeHereFileFree(db, x, from, to, y, k);
      UpdateSubfoldersFileBinds(db, x, f.subfolderUuids, from, to, c, v, y);
      AfterHereFileKey(db, x, from, to, v, y, k);
    }
  }

  lemma {:induction false} UpdateSubfoldersFileBinds(db: Db, x: Uuid, subs: seq<Uuid>, from: string, to: string, c: Uuid, v: Uuid, y: Uuid)
    requires ChildrenYounger(db) && Tree(db) && ChildList(db, x, subs) && c in subs
    requires v in db.folders && Within(Parents(db), x, v) && Within(Parents(db), c, v)
    requires y in db.folders[v].fileUuids && y in db.files
    requires FileKeyFree(db, UpdateSubfolders(db, x, subs, from, to), x, y, FileRewritten(db, x, from, to, v, y))
    ensures var k := FileRewritten(db, x, from, to, v, y);
      k in UpdateSubfolders(db, x, subs, from, to).filePaths && UpdateSubfolders(db, x, subs, from, to).filePaths[k] == y
    decreases db.counter - x.k, 0, |subs|
  {
    var d := MoveSubtree(db, x, subs[0], from, to);
    SubsHead(db, x, subs, from, to);
    if c == subs[0] {
      SubsFirstFileKeyFree(db, x, subs, from, to, y, FileRewritten(db, x, from, to, v, y));
      MoveSubtreeFileBinds(db, x, c, from, to, v, y);
      SubsFirstFileBinds(db, x, subs, from, to, v, y, FileRewritten(db, x, from, to, v, y));
    } else {
      assert c in subs[1..];
      SubsLaterFileAgree(db, x, subs, from, to, c, v, y);
      SubsLaterFileKeyFree(db, x, subs, from, to, y, FileRewritten(db, x, from, to, v, y));
      UpdateSubfoldersFileBinds(d, x, subs[1..], from, to, c, v, y);
    }
  }

  lemma {:induction false} MoveSubtreeFileBinds(db: Db, x: Uuid, c: Uuid, from: string, to: string, v: Uuid, y: Uuid)
    requires ChildrenYounger(db) && Tree(db) && x in db.folders && c in db.folders[x].subfolderUuids
    requires v in db.folders && Within(Parents(db), x, v) && Within(Parents(db), c, v)
    requires y in db.folders[v].fileUuids && y in db.files
    requires FileKeyFree(db, MoveSubtree(db, x, c, from, to), c, y, FileRewritten(db, x, from, to, v, y))
    ensures var k := FileRewritten(db, x, from, to, v, y);
      k in MoveSubtree(db, x, c, from, to).filePaths && MoveSubtree(db, x, c, from, to).filePaths[k] == y
    decreases db.counter - x.k, 0, 0
  {
    WithinChild(db, x, c);
    var p := db.folders[c].fullFolderPath;
    var q := ReplaceAll(p, from, to);
    var m := MoveFolder(db, c, q);
    ShapeChildrenYounger(db, m);
    ShapeTree(db, m);
    ShapeParents(db, m);
    var r := UpdatePaths(m, c, p, q);
    assert MoveSubtree(db, x, c, from, to) == r;
    FileRewrittenShift(db, m, x, c, from, to, v, y);
    FileKeyFreeMoved(db, m, r, c, y, FileRewritten(db, x, from, to, v, y));
    UpdatePathsFileBinds(m, c, p, q, v, y);
  }

  /** Moving one folder changes neither the parents, the file lists nor the
      file records, so it keeps `FileKeyFree`. */
  lemma FileKeyFreeMoved(db: Db, m: Db, r: Db, c: Uuid, y: Uuid, k: string)
    requires SameShape(db, m) && SameShape(db, r) && SameShape(m, r)
    requires m.files == db.files && Parents(m) == Parents(db)
    requires FileKeyFree(db, r, c, y, k)
    ensures FileKeyFree(m, r, c, y, k)
  {
  }

  /** The files `x` lists itself are left alone by the rewrite of its
      subfolders. */
  lemma HereFrame(db: Db, x: Uuid, from: string, to: string)
    requires ChildrenYounger(db) && Tree(db) && x in db.folders
    ensures var f := db.folders[x];
      forall z :: z in f.fileUuids && z in db.files ==>
        UpdateSubfolders(db, x, f.subfolderUuids, from, to).files[z] == db.files[z]
  {
    var f := db.folders[x];
    forall c | c in f.subfolderUuids ensures !Within(Parents(db), c, x) {
      BelowChild(db, x, c, x);
    }
    forall z | z in f.fileUuids && z in db.files
      ensures UpdateSubfolders(db, x, f.subfolderUuids, from, to).files[z] == db.files[z]
    {
      UpdateSubfoldersFileFrame(db, x, f.subfolderUuids, from, to, z);
    }
  }

  /** A file `x` lists itself is bound by the last step, the move of `x`'s
      own files. */
  lemma HereFileBinds(db: Db, x: Uuid, from: string, to: string, y: Uuid)
    requires ChildrenYounger(db) && Tree(db) && x in db.folders && y in db.folders[x].fileUuids && y in db.files
    requires Within(Parents(db), x, x)
    requires FileKeyFree(db, UpdatePaths(db, x, from, to), x, y, FileRewritten(db, x, from, to, x, y))
    ensures var k := FileRewritten(db, x, from, to, x, y);
      k in UpdatePaths(db, x, from, to).filePaths && UpdatePaths(db, x, from, to).filePaths[k] == y
  {
    var f := db.folders[x];
    var d := UpdateSubfolders(db, x, f.subfolderUuids, from, to);
    assert UpdatePaths(db, x, from, to) == MoveFiles(d, f.fileUuids, from, to);
    HereFrame(db, x, from, to);
    MoveFilesBinds(d, f.fileUuids, from, to, y);
  }

  /** Before the move of `x`'s own files, the hypothesis holds of the
      rewrite of its subfolders. */
  lemma BeforeHereFileFree(db: Db, x: Uuid, from: string, to: string, y: Uuid, k: string)
    requires ChildrenYounger(db) && Tree(db) && x in db.folders
    requires FileKeyFree(db, UpdatePaths(db, x, from, to), x, y, k)
    ensures FileKeyFree(db, UpdateSubfolders(db, x, db.folders[x].subfolderUuids, from, to), x, y, k)
  {
    var f := db.folders[x];
    var d := UpdateSubfolders(db, x, f.subfolderUuids, from, to);
    var r := UpdatePaths(db, x, from, to);
    assert r == MoveFiles(d, f.fileUuids, from, to);
    HereFrame(db, x, from, to);
    forall v, z {:trigger z in db.folders[v].fileUuids} | v in db.folders && Within(Parents(db), x, v) && z in db.folders[v].fileUuids && z in db.files && z != y
      ensures db.files[z].fullFilePath != k && d.files[z].fullFilePath != k
    {
      if v == x {
        assert d.files[z] == db.files[z];
      } else {
        assert db.files[z].folderUuid == v;
        MoveFilesOther(d, f.fileUuids, from, to, z);
        assert d.files[z] == r.files[z];
      }
    }
  }

  /** After the rewrite of its subfolders, the move of `x`'s own files
      leaves alone a key that none of them has before or after. */
  lemma AfterHereFileKey(db: Db, x: Uuid, from: string, to: string, v: Uuid, y: Uuid, k: string)
    requires ChildrenYounger(db) && Tree(db) && x in db.folders
    requires v in db.folders && v != x && y in db.folders[v].fileUuids && y in db.files
    requires FileKeyFree(db, UpdatePaths(db, x, from, to), x, y, k)
    ensures var d := UpdateSubfolders(db, x, db.folders[x].subfolderUuids, from, to);
      SameKey(d.filePaths, UpdatePaths(db, x, from, to).filePaths, k)
  {
    var f := db.folders[x];
    var d := UpdateSubfolders(db, x, f.subfolderUuids, from, to);
    assert UpdatePaths(db, x, from, to) == MoveFiles(d, f.fileUuids, from, to);
    HereFrame(db, x, from, to);
    assert Within(Parents(db), x, x);
    assert db.files[y].folderUuid == v;
    MoveFilesKey(d, f.fileUuids, from, to, k);
  }

  /** Splitting the file hypothesis at the first child ... */
  lemma SubsFirstFileKeyFree(db: Db, x: Uuid, subs: seq<Uuid>, from: string, to: string, y: Uuid, k: string)
    requires ChildrenYounger(db) && Tree(db) && ChildList(db, x, subs) && subs != []
    requires FileKeyFree(db, UpdateSubfolders(db, x, subs, from, to), x, y, k)
    ensures FileKeyFree(db, MoveSubtree(db, x, subs[0], from, to), subs[0], y, k)
  {
    var d := MoveSubtree(db, x, subs[0], from, to);
    SubsSplitFirstFiles(db, x, subs, from, to);
    SubsHead(db, x, subs, from, to);
    WithinChild(db, x, subs[0]);
    SubtreeBelow(db, x, subs[0]);
    FileFreeBelow(db, d, UpdateSubfolders(db, x, subs, from, to), x, subs[0], y, k);
  }

  lemma FileFreeBelow(db: Db, d: Db, r: Db, x: Uuid, c: Uuid, y: Uuid, k: string)
    requires SameShape(db, d) && SameShape(db, r) && FileKeyFree(db, r, x, y, k)
    requires forall u :: Within(Parents(db), c, u) ==> u != x && Within(Parents(db), x, u)
    requires forall v, z {:trigger z in db.folders[v].fileUuids} :: v in db.folders && Within(Parents(db), c, v) && z in db.folders[v].fileUuids && z in db.files ==>
      r.files[z] == d.files[z]
    ensures FileKeyFree(db, d, c, y, k)
  {
  }

  /** ... a binding made in the first subtree survives the later ones ... */
  lemma SubsFirstFileBinds(db: Db, x: Uuid, subs: seq<Uuid>, from: string, to: string, v: Uuid, y: Uuid, k: string)
    requires ChildrenYounger(db) && Tree(db) && ChildList(db, x, subs) && subs != []
    requires v in db.folders && Within(Parents(db), subs[0], v) && y in db.folders[v].fileUuids && y in db.files
    requires FileKeyFree(db, UpdateSubfolders(db, x, subs, from, to), x, y, k)
    requires var d := MoveSubtree(db, x, subs[0], from, to);
      k in d.filePaths && d.filePaths[k] == y
    ensures k in UpdateSubfolders(db, x, subs, from, to).filePaths && UpdateSubfolders(db, x, subs, from, to).filePaths[k] == y
  {
    LaterFilesClear(db, x, subs, from, to, v, y, k);
    SubsTailFileKey(db, x, subs, from, to, k);
  }

  /** The later children's rewrites keep a file key that no file below them
      leaves or takes. */
  lemma SubsTailFileKey(db: Db, x: Uuid, subs: seq<Uuid>, from: string, to: string, k: string)
    requires ChildrenYounger(db) && Tree(db) && ChildList(db, x, subs) && subs != []
    requires var d := MoveSubtree(db, x, subs[0], from, to);
      SameShape(d, UpdateSubfolders(db, x, subs, from, to)) &&
      forall c :: c in subs[1..] ==> FileKeyClear(d, UpdateSubfolders(db, x, subs, from, to), c, k)
    ensures SameKey(MoveSubtree(db, x, subs[0], from, to).filePaths, UpdateSubfolders(db, x, subs, from, to).filePaths, k)
  {
    var d := MoveSubtree(db, x, subs[0], from, to);
    SubsHead(db, x, subs, from, to);
    NoDupTail(subs);
    UpdateSubfoldersFileKey(d, x, subs[1..], from, to, k);
  }

  /** When `y` lies in the first child's subtree, the files below the later
      children are clear of the key `y` ends with. */
  lemma LaterFilesClear(db: Db, x: Uuid, subs: seq<Uuid>, from: string, to: string, v: Uuid, y: Uuid, k: string)
    requires ChildrenYounger(db) && Tree(db) && ChildList(db, x, subs) && subs != []
    requires v in db.folders && Within(Parents(db), subs[0], v) && y in db.folders[v].fileUuids && y in db.files
    requires FileKeyFree(db, UpdateSubfolders(db, x, subs, from, to), x, y, k)
    ensures var d := MoveSubtree(db, x, subs[0], from, to);
      && SameShape(d, UpdateSubfolders(db, x, subs, from, to))
      && forall c :: c in subs[1..] ==> FileKeyClear(d, UpdateSubfolders(db, x, subs, from, to), c, k)
  {
    var d := MoveSubtree(db, x, subs[0], from, to);
    SubsHeadShape(db, x, subs, from, to);
    var r := UpdateSubfolders(db, x, subs, from, to);
    forall c | c in subs[1..] ensures FileKeyClear(d, r, c, k) {
      forall u, z {:trigger z in db.folders[u].fileUuids} | u in db.folders && Within(Parents(db), c, u) && z in db.folders[u].fileUuids && z in db.files
        ensures d.files[z].fullFilePath != k && r.files[z].fullFilePath != k
      {
        LaterFileAt(db, x, subs, from, to, c, v, y, u, z);
        FileClearAt(db, d, r, x, y, k, u, z);
      }
    }
  }

  /** A file listed below a later child is not `y`, lies below `x`, and is
      left alone by the first child's rewrite. */
  lemma LaterFileAt(db: Db, x: Uuid, subs: seq<Uuid>, from: string, to: string, c: Uuid, v: Uuid, y: Uuid, u: Uuid, z: Uuid)
    requires ChildrenYounger(db) && Tree(db) && ChildList(db, x, subs) && subs != [] && c in subs[1..]
    requires v in db.folders && Within(Parents(db), subs[0], v) && y in db.folders[v].fileUuids && y in db.files
    requires u in db.folders && Within(Parents(db), c, u) && z in db.folders[u].fileUuids && z in db.files
    ensures Within(Parents(db), x, u) && z != y
    ensures var d := MoveSubtree(db, x, subs[0], from, to); z in d.files && d.files[z] == db.files[z]
  {
    NoDupTail(subs);
    LaterFrame(db, x, subs, from, to, c, u);
    assert db.files[z].folderUuid == u && db.files[y].folderUuid == v;
    MoveSubtreeFileFrame(db, x, subs[0], from, to, z);
  }

  /** One file other than `y` below `x` that a step leaves alone is clear of
      `k` there. */
  lemma FileClearAt(db: Db, d: Db, r: Db, x: Uuid, y: Uuid, k: string, u: Uuid, z: Uuid)
    requires SameShape(db, r) && FileKeyFree(db, r, x, y, k)
    requires u in db.folders && Within(Parents(db), x, u) && z in db.folders[u].fileUuids && z in db.files && z != y
    requires z in d.files && d.files[z] == db.files[z]
    ensures d.files[z].fullFilePath != k && r.files[z].fullFilePath != k
  {
  }

  /** ... and for `y` below a later child the hypothesis carries over to the
      table after the first child's rewrite. */
  lemma SubsLaterFileKeyFree(db: Db, x: Uuid, subs: seq<Uuid>, from: string, to: string, y: Uuid, k: string)
    requires ChildrenYounger(db) && Tree(db) && ChildList(db, x, subs) && subs != []
    requires FileKeyFree(db, UpdateSubfolders(db, x, subs, from, to), x, y, k)
    ensures var d := MoveSubtree(db, x, subs[0], from, to);
      FileKeyFree(d, UpdateSubfolders(db, x, subs, from, to), x, y, k)
  {
    var d := MoveSubtree(db, x, subs[0], from, to);
    SubsHead(db, x, subs, from, to);
    var r := UpdateSubfolders(db, x, subs, from, to);
    forall u, z {:trigger z in db.folders[u].fileUuids} | u in db.folders && Within(Parents(db), x, u) && z in db.folders[u].fileUuids && z in db.files && z != y
      ensures d.files[z].fullFilePath != k && r.files[z].fullFilePath != k
    {
      LaterFileFrame(db, x, subs, from, to, u, z);
    }
  }

  /** A file listed by `x` or by a folder below it keeps its record through
      the first child's rewrite, or already has there the one it ends
      with. */
  lemma LaterFileFrame(db: Db, x: Uuid, subs: seq<Uuid>, from: string, to: string, u: Uuid, z: Uuid)
    requires ChildrenYounger(db) && Tree(db) && ChildList(db, x, subs) && subs != []
    requires u in db.folders && Within(Parents(db), x, u) && z in db.folders[u].fileUuids && z in db.files
    ensures var d := MoveSubtree(db, x, subs[0], from, to);
      d.files[z] == db.files[z] || UpdateSubfolders(db, x, subs, from, to).files[z] == d.files[z]
  {
    SubsHead(db, x, subs, from, to);
    assert db.files[z].folderUuid == u;
    WithinChild(db, x, subs[0]);
    if u == x {
      BelowChild(db, x, subs[0], x);
      MoveSubtreeFileFrame(db, x, subs[0], from, to, z);
    } else {
      ChildListOf(db, x);
      var c := ChildAbove(db, x, u);
      if c == subs[0] {
        SubsFirstFileKept(db, x, subs, from, to, u, z);
      } else {
        LaterFrame(db, x, subs, from, to, c, u);
        MoveSubtreeFileFrame(db, x, subs[0], from, to, z);
      }
    }
  }
}
