/**
 * `fetch_files_at_folder_path`: one page of the listing of a folder, its
 * subfolders first and then its files, each in list order.
 */
module Fetch {
  import opened Metadata
  import opened Tables

  /** One entry of a listing. */
  datatype Item = FolderItem(folder: FolderMetadata) | FileItem(file: FileMetadata)

  /** The records of the listed folders that have one, in list order:
      deleted folders keep their record and so are listed. */
  function PresentFolders(db: Db, ids: seq<Uuid>): (r: seq<FolderMetadata>)
    ensures |r| <= |ids|
    ensures forall id :: id in ids && id in db.folders ==> db.folders[id] in r
    ensures forall f :: f in r ==> exists id :: id in ids && id in db.folders && db.folders[id] == f
  {
    if ids == [] then []
    else
      var init := ids[..|ids| - 1];
      var last := ids[|ids| - 1];
      assert ids == init + [last];
      PresentFolders(db, init) + (if last in db.folders then [db.folders[last]] else [])
  }

  /** The records of the listed files that have one, in list order: files
      removed by delete_file are skipped. */
  function PresentFiles(db: Db, ids: seq<Uuid>): (r: seq<FileMetadata>)
    ensures |r| <= |ids|
    ensures forall id :: id in ids && id in db.files ==> db.files[id] in r
    ensures forall f :: f in r ==> exists id :: id in ids && id in db.files && db.files[id] == f
  {
    if ids == [] then []
    else
      var init := ids[..|ids| - 1];
      var last := ids[|ids| - 1];
      assert ids == init + [last];
      PresentFiles(db, init) + (if last in db.files then [db.files[last]] else [])
  }

  function FolderItems(fs: seq<FolderMetadata>): (r: seq<Item>)
    ensures |r| == |fs| && forall i :: 0 <= i < |fs| ==> r[i] == FolderItem(fs[i])
  {
    seq(|fs|, i requires 0 <= i < |fs| => FolderItem(fs[i]))
  }

  function FileItems(fs: seq<FileMetadata>): (r: seq<Item>)
    ensures |r| == |fs| && forall i :: 0 <= i < |fs| ==> r[i] == FileItem(fs[i])
  {
    seq(|fs|, i requires 0 <= i < |fs| => FileItem(fs[i]))
  }

  /** A page read as one sequence of entries. */
  function ItemsOf(folders: seq<FolderMetadata>, files: seq<FileMetadata>): (r: seq<Item>)
    ensures |r| == |folders| + |files|
  {
    FolderItems(folders) + FileItems(files)
  }

  /** The end of the page: `after + limit`, cut to the number of entries. */
  function PageEnd(count: nat, after: u32, limit: u32): (e: nat)
    ensures e <= count && (e == count || e == after + limit)
  {
    if after + limit < count then after + limit else count
  }

  /** The pagination of the source over the collected folders and files,
      branch for branch.  The start must not pass the number of entries
      (the slice panics otherwise), and `after + limit` must fit the 32-bit
      `usize` of the canister. */
  function Paginate(folders: seq<FolderMetadata>, files: seq<FileMetadata>, after: u32, limit: u32)
    : (r: FetchFilesResult)
    requires after <= |folders| + |files| && after + limit < 0x1_0000_0000
    ensures r.total == |r.folders| + |r.files| <= limit
    ensures r.hasMore ==> r.total == limit
  {
    var count := |folders| + |files|;
    var start := after as int;
    var end := PageEnd(count, after, limit);
    var (rf, rg) :=
      if start < |folders| then
        (folders[start..if end < |folders| then end else |folders|],
         if end > |folders| then files[0..end - |folders|] else [])
      else
        ([], files[start - |folders|..end - |folders|]);
    FetchFilesResult(rf, rg, |rf| + |rg|, end < count)
  }

  /** A page is the slice `[after, end)` of the folders followed by the
      files, its total is the number of entries in it, and more remain
      exactly when the slice stops before the last entry. */
  lemma PaginateSlice(folders: seq<FolderMetadata>, files: seq<FileMetadata>, after: u32, limit: u32)
    requires after <= |folders| + |files| && after + limit < 0x1_0000_0000
    ensures var p := Paginate(folders, files, after, limit);
      var end := PageEnd(|folders| + |files|, after, limit);
      && ItemsOf(p.folders, p.files) == ItemsOf(folders, files)[after..end]
      && p.total == end - after
      && p.hasMore == (end < |folders| + |files|)
      && p.total <= limit
  {
    var p := Paginate(folders, files, after, limit);
    var end := PageEnd(|folders| + |files|, after, limit);
    var all := ItemsOf(folders, files);
    var got := ItemsOf(p.folders, p.files);
    assert |got| == end - after;
    forall i | 0 <= i < |got|
      ensures got[i] == all[after + i]
    {
      if i < |p.folders| {
        assert got[i] == FolderItem(p.folders[i]);
      } else {
        assert got[i] == FileItem(p.files[i - |p.folders|]);
      }
    }
  }

  /** The entries of the folder bound to `path`. */
  function Listing(db: Db, id: Uuid): (r: (seq<FolderMetadata>, seq<FileMetadata>))
    requires id in db.folders
    ensures |r.0| <= |db.folders[id].subfolderUuids| && |r.1| <= |db.folders[id].fileUuids|
    ensures forall y :: y in db.folders[id].fileUuids && y in db.files ==> db.files[y] in r.1
  {
    (PresentFolders(db, db.folders[id].subfolderUuids), PresentFiles(db, db.folders[id].fileUuids))
  }

  /** The folder a path resolves to: bound in the index and with a record. */
  predicate Resolves(db: Db, path: string) {
    path in db.folderPaths && db.folderPaths[path] in db.folders
  }

  /** What the source demands of a fetch: for a folder that resolves, a
      start within its entries and an end that fits a 32-bit `usize`. */
  predicate FetchFits(db: Db, path: string, after: u32, limit: u32) {
    Resolves(db, path) ==>
      var (fs, gs) := Listing(db, db.folderPaths[path]);
      after <= |fs| + |gs| && after + limit < 0x1_0000_0000
  }

  /** `fetch_files_at_folder_path`. */
  function FetchAt(db: Db, path: string, limit: u32, after: u32): (r: FetchFilesResult)
    requires FetchFits(db, path, after, limit)
    ensures r.total == |r.folders| + |r.files| <= limit
    ensures r.hasMore ==> r.total == limit
  {
    if !Resolves(db, path) then EmptyPage()
    else
      var (fs, gs) := Listing(db, db.folderPaths[path]);
      Paginate(fs, gs, after, limit)
  }

  /** A path that does not resolve gives the empty page; one that does
      gives the slice `[after, min(after + limit, n))` of its `n` entries,
      the number of entries in it, and whether entries remain. */
  lemma FetchAtPage(db: Db, path: string, limit: u32, after: u32)
    requires FetchFits(db, path, after, limit)
    ensures var r := FetchAt(db, path, limit, after);
      && (!Resolves(db, path) ==> r == EmptyPage())
      && (Resolves(db, path) ==>
            var (fs, gs) := Listing(db, db.folderPaths[path]);
            var n := |fs| + |gs|;
            var end := PageEnd(n, after, limit);
            && ItemsOf(r.folders, r.files) == ItemsOf(fs, gs)[after..end]
            && r.total == end - after && r.hasMore == (end < n))
  {
    if Resolves(db, path) {
      var (fs, gs) := Listing(db, db.folderPaths[path]);
      PaginateSlice(fs, gs, after, limit);
    }
  }

  /** The entries of a page, in order. */
  function PageItems(folders: seq<FolderMetadata>, files: seq<FileMetadata>, after: u32, limit: u32): (r: seq<Item>)
    requires after <= |folders| + |files| && after + limit < 0x1_0000_0000
    ensures r == ItemsOf(folders, files)[after..PageEnd(|folders| + |files|, after, limit)]
  {
    PaginateSlice(folders, files, after, limit);
    var p := Paginate(folders, files, after, limit);
    ItemsOf(p.folders, p.files)
  }

  /** Paging through a listing: the page at `after` followed by the page
      at its end is the page over both spans. */
  lemma PaginateAdjacent(folders: seq<FolderMetadata>, files: seq<FileMetadata>, after: u32, limit: u32, limit2: u32)
    requires after <= |folders| + |files| && after + limit + limit2 < 0x1_0000_0000
    ensures var e := PageEnd(|folders| + |files|, after, limit);
      e + limit2 < 0x1_0000_0000 &&
      PageItems(folders, files, after, limit) + PageItems(folders, files, e, limit2)
        == PageItems(folders, files, after, limit + limit2)
  {
    var n := |folders| + |files|;
    var e := PageEnd(n, after, limit);
    PageEndAdjacent(n, after, limit, limit2);
    SliceJoin(ItemsOf(folders, files), after, e, PageEnd(n, e, limit2));
  }

  lemma PageEndAdjacent(n: nat, after: u32, limit: u32, limit2: u32)
    requires after <= n && after + limit + limit2 < 0x1_0000_0000
    ensures var e := PageEnd(n, after, limit);
      after <= e <= n && e + limit2 < 0x1_0000_0000 && PageEnd(n, e, limit2) == PageEnd(n, after, limit + limit2)
  {
  }

  lemma SliceJoin<T>(s: seq<T>, a: nat, b: nat, c: nat)
    requires a <= b <= c <= |s|
    ensures s[a..b] + s[b..c] == s[a..c]
  {
  }
}
