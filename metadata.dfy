/**
 * The records of the drive: folder and file metadata, ids, the fixed-width
 * integers they carry, and the page returned by a folder listing.
 */
module Metadata {
  import opened Wrappers
  import opened Paths

  type u32 = x: int | 0 <= x < 0x1_0000_0000
  type u64 = x: int | 0 <= x < 0x1_0000_0000_0000_0000

  /** An id.  The canister derives it by hashing, among other inputs, the
      value `k` of a counter that grows by one per id; only that value is
      kept here, so two ids are equal exactly when their counters are. */
  datatype Uuid = Uuid(k: nat)

  /** The caller or owner of a record, kept abstract. */
  datatype Principal = Principal(text: string)

  datatype FolderMetadata = FolderMetadata(
    id: Uuid,
    originalFolderName: string,
    parentFolderUuid: Option<Uuid>,
    subfolderUuids: seq<Uuid>,
    fileUuids: seq<Uuid>,
    fullFolderPath: string,
    tags: seq<string>,
    owner: Principal,
    createdDate: u64,
    storageLocation: StorageLocation,
    lastChangedUnixMs: u64,
    deleted: bool)

  datatype FileMetadata = FileMetadata(
    id: Uuid,
    originalFileName: string,
    folderUuid: Uuid,
    fileVersion: u32,
    priorVersion: Option<Uuid>,
    nextVersion: Option<Uuid>,
    extension: string,
    fullFilePath: string,
    tags: seq<string>,
    owner: Principal,
    createdDate: u64,
    storageLocation: StorageLocation,
    fileSize: u64,
    rawUrl: string,
    lastChangedUnixMs: u64,
    deleted: bool)

  /** One page of a folder listing. */
  datatype FetchFilesResult = FetchFilesResult(
    folders: seq<FolderMetadata>,
    files: seq<FileMetadata>,
    total: u32,
    hasMore: bool)

  /** `FetchFilesResult::empty`: the page of an unresolved folder. */
  function EmptyPage(): (r: FetchFilesResult)
    ensures r.folders == [] && r.files == [] && r.total == 0 && !r.hasMore
  {
    FetchFilesResult([], [], 0, false)
  }

  /** Milliseconds of a nanosecond clock reading. */
  function MsOf(nowNs: u64): (r: u64)
    ensures r * 1_000_000 <= nowNs < (r + 1) * 1_000_000
  {
    nowNs / 1_000_000
  }

  /** The bitwise OR with which the sync merges combine a client timestamp
      with the clock. */
  function OrMs(a: u64, b: u64): u64 {
    ((a as bv64) | (b as bv64)) as int
  }

  /** `file_version + 1` on a `u32`, wrapping at 2^32 as a release build does. */
  function WrappingInc(v: u32): (r: u32)
    ensures r == (v + 1) % 0x1_0000_0000
  {
    if v == 0xFFFF_FFFF then 0 else v + 1
  }

  /** `Vec::retain(|u| u != x)`: every occurrence of `x` dropped, the rest
      kept in order. */
  function Without(s: seq<Uuid>, x: Uuid): (r: seq<Uuid>)
    ensures multiset(r) == multiset(s)[x := 0]
    ensures |r| <= |s|
  {
    if s == [] then []
    else
      assert s == [s[0]] + s[1..];
      (if s[0] == x then [] else [s[0]]) + Without(s[1..], x)
  }

  lemma WithoutMembers(s: seq<Uuid>, x: Uuid, y: Uuid)
    ensures y in Without(s, x) <==> y in s && y != x
  {
    assert y in Without(s, x) <==> multiset(Without(s, x))[y] > 0;
    assert y in s <==> multiset(s)[y] > 0;
  }

  /** The retain filters each part of a list on its own and keeps the parts
      in order: with `Without([y], x)` being `[]` or `[y]`, this makes it the
      order-preserving filter. */
  lemma {:induction false} WithoutAppend(a: seq<Uuid>, b: seq<Uuid>, x: Uuid)
    ensures Without(a + b, x) == Without(a, x) + Without(b, x)
    decreases |a|
  {
    if a == [] {
      assert a + b == b;
    } else {
      assert (a + b)[1..] == a[1..] + b;
      WithoutAppend(a[1..], b, x);
    }
  }

  /** Dropping an id that is absent changes nothing. */
  lemma {:induction false} WithoutAbsent(s: seq<Uuid>, x: Uuid)
    requires x !in s
    ensures Without(s, x) == s
  {
    if s != [] {
      assert x !in s[1..];
      WithoutAbsent(s[1..], x);
      assert s == [s[0]] + s[1..];
    }
  }
}
