# OfficeX drive metadata backend, in Dafny

This project models the metadata engine of the OfficeX backend canister:
the `State` impl of `src/officex-canisters-backend/src/lib.rs`. `State`
keeps four tables:

- folder id → `FolderMetadata`;
- file id → `FileMetadata`;
- folder path → folder id;
- file path → file id.

Paths have the form `<namespace>::<segment>/…/<name>`, and every folder key
ends in `/` (a root is `<namespace>::`). The operations on these tables are:

- building the folder tree (`ensure_root_folder`, `create_folder`,
  `ensure_folder_structure`);
- filing a new version of a file at a path (`upsert_file_to_hash_tables`,
  `update_folder_file_uuids`), with its `prior_version`/`next_version`
  chain;
- renaming a folder together with its whole subtree (`rename_folder`,
  `update_subfolder_paths`), and renaming a file (`rename_file`);
- deleting a file (it is purged and spliced out of its version chain) and
  deleting a folder (it is tombstoned, recursively);
- the two offline-sync merges;
- the lookups and the paginated folder listing.

Layout, one module per file:

- `wrappers.dfy`: `Option` and `Result`.
- `metadata.dfy`: the records, the 32- and 64-bit integers, the id type and
  the listing page.
- `paths.dfy`: the pure string handling: `sanitize_file_path`, `split_path`,
  the extension rule, `str::replace`, and the rename path arithmetic.
- `tables.dfy`: the four tables and the id counter as one value `Db`, the
  invariants, and the `get_*` lookups.
- `folders.dfy`, `upsert.dfy`, `renames.dfy`, `deletes.dfy`, `sync.dfy` and
  `fetch.dfy`: each operation as a function from the tables before to the
  result and the tables after, with the lemmas about it.
- `subtree.dfy`: what `update_subfolder_paths` does to each folder and
  file below the renamed folder, for folder lists that form a tree.
- `treeshape.dfy`: the facts about the folder tree that the operations
  keep.
- `treekeep.dfy`: the tree that the subtree lemmas assume, and which
  operations keep it.
- `state.dfy`: class `Backend.State`. It holds the four tables and the
  counter as fields updated in place, plus one method per mutator. The
  mutators have the loops and the recursion of the source. Each method's
  `ensures` ties the new state and its result to the function of the same
  name applied to the old state, so what is proved about that function
  holds of the object.

Ids are `Uuid(k)`, where `k` is the value of `ID_COUNTER` that
`generate_unique_id` consumed. The model assumes the SHA-256 hash of that
value (with the canister id, the clock and the caller) is injective on the
values the counter takes, so two ids are equal exactly when their counters
are.

`Tables.Valid` is the invariant every operation keeps:

- every stored id and every listed or linked id was drawn before the
  counter;
- every record is stored under its own id;
- the folder index names existing folders;
- the file index maps each path to a record that carries that path;
- `prior_version` points to an older id and `next_version` to a newer one.

Five more facts hold of the empty tables of `State::new`. The operations
keep them, with the exceptions named here:

- `ChildrenYounger`: every listed subfolder is younger than its parent. The
  recursive delete and the path rewrite descend along it. The builders, the
  two syncs and `delete_folder` keep it. `delete_file` and `rename_file`
  change no subfolder list. `rename_folder` does not keep it: its parent
  repair can list the renamed folder under a folder younger than it.
- `FolderIndexAgrees`: every folder key names a record that carries that
  key. Every operation keeps it in valid tables, except the folder sync
  with a client path other than the stored one. That sync leaves the old
  key naming a record that now carries another path
  (`Sync.SyncFolderStaleKey`).
- `KeyEnds`: every folder key and folder path ends in `/` or `:`. Every
  operation keeps it, except the folder sync with a client path that ends
  in neither (`TreeShape.SyncFolderShaped`).
- `ChildrenExist`: every listed subfolder has a record. Every operation
  keeps it.
- `TreeKeep.Linked`: the folder lists and the parent pointers form one tree
  (`Subtrees.Tree`), and every parent pointer names a folder that has a
  record. In `Subtrees.Tree`, a folder lists a subfolder exactly when the
  subfolder points back at it. A listed file that has a record names the
  folder that lists it, and no list repeats an id. The builders, the upsert, the file sync,
  `rename_file` and both deletes keep it in valid tables. There are two
  exceptions:
  - The folder sync copies the client's `parent_folder_uuid` (lib.rs:618).
    It keeps the tree when that is the parent the record has
    (`TreeKeep.SyncFolderLinked`). It breaks the tree when the client names
    an existing folder that does not list this one
    (`TreeKeep.SyncFolderUnlinks`).
  - `rename_folder`'s parent repair keeps the tree when the key it looks up
    names the recorded parent, or nothing (`TreeKeep.RenameFolderLinked`).
    It breaks the tree when that key names another folder
    (`TreeKeep.RenameAtUnlinks`).

`treeshape.dfy` proves `KeyEnds` and `ChildrenExist` for every operation,
and `treekeep.dfy` proves `Linked`.
It also proves `FolderIndexAgrees` for the builders, the file sync,
`rename_file` and the deletions. The `…Valid` lemmas of each operation
except rename_folder prove `ChildrenYounger`. They also prove `FolderIndexAgrees` for the
renames, the deletions and the folder sync with an unchanged path.

The model follows the code, including these behaviours:

- The extension of a name without `.` is the whole name, not the empty
  string (`rsplit('.').next()` always yields).
- `delete_folder` deletes the subfolders first, then the files. It is not
  all-or-nothing: the key is removed before the recursion, and a failure
  part way keeps what was done.
- `update_subfolder_paths` rewrites every occurrence of the old key, not
  only a prefix.
- A root folder `<ns>::` can be renamed to `<ns>::<new>/`.
- Sanitizing never rejects a path. An empty path becomes `::`.
- Index inserts overwrite an existing binding instead of failing.
- `rename_file` computes the new path from the file's own path, not from
  its folder's.
- An upserted new version reuses the path of the version it replaces
  (lib.rs:266-267). The older version keeps that path in its record, so
  `rename_file` (lib.rs:433-439) or `delete_file` (lib.rs:509) on it
  removes the path key of the current version (`Renames.RenameFileEffect`,
  `Deletes.DeleteFileEffect`).

## Model

| member | source | states |
|---|---|---|
| `Metadata.EmptyPage` | src/officex-canisters-backend/src/lib.rs:1021-1028 | the empty page has no folders, no files, total 0 and no more entries |
| `Metadata.MsOf` | src/officex-canisters-backend/src/lib.rs:185 | the millisecond stamp is the whole number of milliseconds in the nanosecond clock reading |
| `Metadata.WrappingInc` | src/officex-canisters-backend/src/lib.rs:241 | `file_version + 1` on a `u32` is `(v + 1) mod 2^32` |
| `Metadata.OrMs` | src/officex-canisters-backend/src/lib.rs:587 | no contract: the client stamp OR-ed with the clock in milliseconds, bit for bit on 64 bits, as both sync merges compute it (lib.rs:587, 620) |
| `Metadata.Without` | src/officex-canisters-backend/src/lib.rs:219 | `retain(\|u\| u != x)` drops every occurrence of `x` and keeps every other id as often as it was listed |
| `Metadata.WithoutMembers` | src/officex-canisters-backend/src/lib.rs:219 | after the retain, an id is listed exactly when it was listed before and is not `x` |
| `Metadata.WithoutAppend` | src/officex-canisters-backend/src/lib.rs:219 | the retain filters each part of a list on its own and keeps the parts in order, so it is the order-preserving filter |
| `Metadata.WithoutAbsent` | src/officex-canisters-backend/src/lib.rs:219 | retaining away an absent id leaves the list unchanged |
| `Paths.SplitOnce` | src/officex-canisters-backend/src/lib.rs:791-793 | `splitn(2, "::")` is None exactly when there is no `::`; otherwise the two parts joined by `::` give the input back, and the first part holds no `::` |
| `Paths.SplitOnceOf` | src/officex-canisters-backend/src/lib.rs:791-793 | splitting `a::b` gives back `a` and `b` whenever `a` cannot hold the first separator |
| `Paths.HasSep` | src/officex-canisters-backend/src/lib.rs:313-316 | no contract: `contains("::")`, the condition under which the `splitn(2, "::")` and `split("::")` calls of the source yield two parts (`Paths.SplitOnce` states that equivalence) |
| `Paths.StorageLocation.Name` | src/officex-canisters-backend/src/lib.rs:36-44 | the `Display` text of each namespace is non-empty and holds no `:` and no `/` |
| `Paths.StorageLocation.RootPath` | src/officex-canisters-backend/src/lib.rs:714 | no contract: the root key `<ns>::`; `Paths.RootPathSplits` reads it back |
| `Paths.RootPathSplits` | src/officex-canisters-backend/src/lib.rs:714 | the root key splits back into the namespace and an empty folder part |
| `Paths.ColonsToSemicolons` | src/officex-canisters-backend/src/lib.rs:795 | same length, no `:` left, and `/` exactly where it was |
| `Paths.CollapseSlashes` | src/officex-canisters-backend/src/lib.rs:798-799 | no two `/` in a row; first and last characters kept; no new characters |
| `Paths.TrimStart` | src/officex-canisters-backend/src/lib.rs:802 | a suffix of the input that does not start with `/` |
| `Paths.TrimEnd` | src/officex-canisters-backend/src/lib.rs:319 | a prefix of the input that does not end with `/` |
| `Paths.Sanitize` | src/officex-canisters-backend/src/lib.rs:790-808 | a path without `::` becomes `path::`; otherwise the text before the first `::` is kept and the rest becomes the `/`-join of its non-empty pieces, with `:` turned into `;` |
| `Paths.Segments` | src/officex-canisters-backend/src/lib.rs:156 | the `/`-pieces kept by the `!is_empty` filter are non-empty and hold no `/` |
| `Paths.SegmentsOfJoin` | src/officex-canisters-backend/src/lib.rs:156 | splitting the `/`-join of proper segments gives those segments back |
| `Paths.SegmentsOfFolderSuffix` | src/officex-canisters-backend/src/lib.rs:751 | splitting a folder key's suffix `s1/…/sn/` gives back `s1 … sn` |
| `Paths.FolderSuffixJoin` | src/officex-canisters-backend/src/lib.rs:133-135 | a folder key's suffix `s1/…/sn/` is the `/`-join of the segments followed by one `/` |
| `Paths.LastSlashAfter` | src/officex-canisters-backend/src/lib.rs:810-813 | the last `/` of `f/n`, with `n` free of `/`, is the one right after `f` |
| `Paths.SegmentsCollapse` | src/officex-canisters-backend/src/lib.rs:798-799 | collapsing runs of `/` does not change the non-empty pieces |
| `Paths.SegmentsTrimStart` | src/officex-canisters-backend/src/lib.rs:802 | stripping leading `/` does not change the non-empty pieces |
| `Paths.SegmentsTrimEnd` | src/officex-canisters-backend/src/lib.rs:802 | stripping trailing `/` does not change the non-empty pieces |
| `Paths.CleanPartMeaning` | src/officex-canisters-backend/src/lib.rs:795-802 | the sanitised part is the `/`-join of the non-empty pieces with `:` turned into `;`, and it is clean: no `:`, no `//`, no leading or trailing `/` |
| `Paths.CleanPartIsClean` | src/officex-canisters-backend/src/lib.rs:795-802 | the sanitised part has no `:`, no `//`, and no leading or trailing `/` |
| `Paths.CleanPartSegments` | src/officex-canisters-backend/src/lib.rs:795-802 | sanitising keeps the non-empty pieces of the colon-replaced text |
| `Paths.CleanPartFixed` | src/officex-canisters-backend/src/lib.rs:795-802 | a clean part is its own sanitised form |
| `Paths.SanitizeCanonical` | src/officex-canisters-backend/src/lib.rs:790-808 | every path holding `::` sanitises to `<prefix>::<clean part>` with the same text before the first `::` |
| `Paths.SanitizeFixesCanonical` | src/officex-canisters-backend/src/lib.rs:790-808 | a canonical path is left as it is |
| `Paths.SanitizeIdempotent` | src/officex-canisters-backend/src/lib.rs:790-808 | for paths holding `::`, sanitising twice equals sanitising once |
| `Paths.SanitizeNoSepNotIdempotent` | src/officex-canisters-backend/src/lib.rs:790-808 | without `::`, sanitising is not idempotent: `x:` gives `x:::`, which gives `x::;` |
| `Paths.LastSlash` | src/officex-canisters-backend/src/lib.rs:811 | the index of a `/` with none after it, or None exactly when there is no `/` |
| `Paths.SplitPath` | src/officex-canisters-backend/src/lib.rs:810-823 | the name holds no `/`; with a `/`, `folder + "/" + name` is the input; without one but with `::`, the folder is `<storage>::` and `folder + name` is the input; otherwise `("", input)` |
| `Paths.SplitLastUnique` | src/officex-canisters-backend/src/lib.rs:810-813 | `f/n` with `n` free of `/` splits into exactly `(f, n)` |
| `Paths.SplitNoSlash` | src/officex-canisters-backend/src/lib.rs:814-817 | `storage::n` with no `/` splits into `(storage::, n)` |
| `Paths.LastDot` | src/officex-canisters-backend/src/lib.rs:246 | the index of a `.` with none after it, or None exactly when there is no `.` |
| `Paths.Extension` | src/officex-canisters-backend/src/lib.rs:246 | a `.`-free suffix of the name that is either the whole name or preceded by a `.`; the whole name when it has no `.` |
| `Paths.ReplaceAbsent` | src/officex-canisters-backend/src/lib.rs:629 | `replace` of a text that does not occur changes nothing |
| `Paths.ReplacePrefix` | src/officex-canisters-backend/src/lib.rs:629 | replacing a path's own leading key rewrites it as a prefix when the key does not occur again |
| `Paths.ReplaceRewritesEveryOccurrence` | src/officex-canisters-backend/src/lib.rs:643 | `replace` is not a prefix rewrite: `a/a/` with `a/` → `b/` gives `b/b/` |
| `Paths.ReplaceAll` | src/officex-canisters-backend/src/lib.rs:629 | `str::replace`: replacing a text by itself changes nothing, and a non-empty text replaced by one of the same length keeps the length (the same call at lib.rs:643) |
| `Paths.FolderRenameTarget` | src/officex-canisters-backend/src/lib.rs:313-334 | None (invalid structure) exactly when the key has no `::`; the new key always ends in `/` |
| `Paths.ParentKey` | src/officex-canisters-backend/src/lib.rs:357 | the parent key `<ns>::<parent part>` splits back into the namespace and the parent part whenever the namespace part cannot hold the first `::` |
| `Paths.ParentOfJoin` | src/officex-canisters-backend/src/lib.rs:322-325 | `rsplitn(2, '/')` of joined segments gives the join of all but the last segment as parent part, or nothing for one segment |
| `Paths.FolderRenameParent` | src/officex-canisters-backend/src/lib.rs:318-327 | for a key built from segments, the storage part and the parent part read off it |
| `Paths.FolderRenameOfBuiltKey` | src/officex-canisters-backend/src/lib.rs:313-334 | renaming the folder `<ns>::s1/…/sn/` gives `<ns>::s1/…/s(n-1)/<new>/`, and the parent part is empty exactly when n = 1 |
| `Paths.FolderRenameParentLacksSlash` | src/officex-canisters-backend/src/lib.rs:357-359 | for a nested folder, the parent key looked up is the parent's own key without its trailing `/` |
| `Paths.FolderRenameOfRoot` | src/officex-canisters-backend/src/lib.rs:322-331 | the root `<ns>::` is renamed to `<ns>::<new>/` with no parent part |
| `Paths.KeyOfFront` | src/officex-canisters-backend/src/lib.rs:358 | `<ns>::s1/…/sk` plus `/` is the key of that folder, and it does not end in `/` |
| `Paths.FileRenameTarget` | src/officex-canisters-backend/src/lib.rs:394-408 | None (invalid structure) exactly when the path has no `::` |
| `Paths.FileRenameKeepsFolder` | src/officex-canisters-backend/src/lib.rs:399-408 | the renamed path splits into the old folder part and the new name |
| `Paths.FileRenameNested` | src/officex-canisters-backend/src/lib.rs:404-405 | a file below a folder keeps that folder part under the new name |
| `Paths.FileRenameTop` | src/officex-canisters-backend/src/lib.rs:406-407 | a file at the top of its namespace stays there under the new name |
| `Renames.FileRenameTwice` | src/officex-canisters-backend/src/lib.rs:394-408 | renaming twice is renaming once to the second name, when the first holds no `/` |
| `Paths.EnsureParts` | src/officex-canisters-backend/src/lib.rs:747-751 | the parts `path_parts[0]` and `path_parts[1]` exist exactly when the path holds `::` |
| `Tables.Drop` | src/officex-canisters-backend/src/lib.rs:348 | `HashMap::remove` unbinds the key and keeps every other binding |
| `Tables.FreshId` | src/officex-canisters-backend/src/lib.rs:844-846 | in valid tables the next id is held by no record, no index, no list and no version link |
| `Tables.GetFolderById` | src/officex-canisters-backend/src/lib.rs:286-288 | found exactly when the id has a record, and then that record |
| `Tables.GetFileById` | src/officex-canisters-backend/src/lib.rs:290-292 | found exactly when the id has a record, and then that record |
| `Tables.GetFolderByPath` | src/officex-canisters-backend/src/lib.rs:294-298 | a found record is the one the index names; when the index agrees, found exactly for a bound path, and the record carries that path |
| `Tables.GetFileByPath` | src/officex-canisters-backend/src/lib.rs:300-304 | a found record is the one the index names; with a sound index, found exactly for a bound path, and the record carries that path |
| `Tables.Valid` | src/officex-canisters-backend/src/lib.rs:83-90 | no contract: the invariant of the four tables, the folder side and the file side together; every operation keeps it (the `…Valid` lemmas) |
| `Tables.FolderSide` | src/officex-canisters-backend/src/lib.rs:83-90 | no contract: ids below the counter, folders stored under their own id, the folder index naming existing folders |
| `Tables.FileSide` | src/officex-canisters-backend/src/lib.rs:83-90 | no contract: ids below the counter, files stored under their own id, a sound file index and ordered version links |
| `Tables.FolderIdsBelow` | src/officex-canisters-backend/src/lib.rs:838-856 | no contract: every folder id, listed subfolder, listed file and parent pointer was drawn before the counter |
| `Tables.FileIdsBelow` | src/officex-canisters-backend/src/lib.rs:838-856 | no contract: every file id, its folder and its version links were drawn before the counter |
| `Tables.FolderIndexTargets` | src/officex-canisters-backend/src/lib.rs:86 | no contract: every folder key names a folder that has a record |
| `Tables.FileIndexSound` | src/officex-canisters-backend/src/lib.rs:240 | no contract: every file key names a record that carries that key, which the `unwrap` of the lookup relies on |
| `Tables.VersionOrder` | src/officex-canisters-backend/src/lib.rs:253-254 | no contract: `prior_version` names an older id and `next_version` a newer one |
| `Tables.ChildrenYounger` | src/officex-canisters-backend/src/lib.rs:624-651 | no contract: every listed subfolder is younger than the folder listing it, the measure the recursive rewrite and delete descend along |
| `Tables.FolderIndexAgrees` | src/officex-canisters-backend/src/lib.rs:294-298 | no contract: every folder key names a record that carries that key |
| `Folders.EnsureRoot` | src/officex-canisters-backend/src/lib.rs:713-739 | `<ns>::` ends up bound to the returned id; tables unchanged when it was bound; otherwise one parentless, empty-named root with the next id is added |
| `Folders.NewFolder` | src/officex-canisters-backend/src/lib.rs:174-187 | no contract: the folder record the three builders create, with no subfolders, no files, no tags, not deleted and stamped with the clock (also lib.rs:719-732, 756-769) |
| `Folders.EnsureRootValid` | src/officex-canisters-backend/src/lib.rs:713-739 | ensuring the root keeps the invariants and children younger, and returns a folder |
| `Folders.AddFolderValid` | src/officex-canisters-backend/src/lib.rs:189-190 | inserting a fresh empty folder under the next id keeps the folder invariants |
| `Folders.LinkChildValid` | src/officex-canisters-backend/src/lib.rs:775-779 | appending a drawn id to a parent's subfolders keeps the folder invariants, and keeps children younger when the child is younger |
| `Folders.StepValid` | src/officex-canisters-backend/src/lib.rs:169-205 | one pass of the segment loop keeps the invariants and returns a folder drawn before the counter |
| `Folders.AddFolder` | src/officex-canisters-backend/src/lib.rs:189-190 | inserting a folder record touches no file table and draws one id |
| `Folders.LinkChild` | src/officex-canisters-backend/src/lib.rs:193-195 | appending a child changes no key, no file table, no id set and not the counter |
| `Folders.Step` | src/officex-canisters-backend/src/lib.rs:169-205 | a pass leaves the file tables alone and never lowers the counter |
| `Folders.StepKeys` | src/officex-canisters-backend/src/lib.rs:172-189 | a pass binds at most its own key and keeps every existing binding |
| `Folders.StepKeepsFolder` | src/officex-canisters-backend/src/lib.rs:189-195 | a pass changes an existing folder at most by appending to its subfolders |
| `Folders.StepBinds` | src/officex-canisters-backend/src/lib.rs:169-205 | after a pass its key is bound to the returned id; a folder is created exactly when the key was absent: fresh, empty, named by the segment, under that key, with a parent |
| `Folders.StepLinks` | src/officex-canisters-backend/src/lib.rs:172-197 | a pass that creates its folder points it to `parent` and appends it to the parent's `subfolder_uuids` |
| `Folders.WalkValid` | src/officex-canisters-backend/src/lib.rs:168-206 | the segment loop keeps the invariants and children younger, and ends on a folder |
| `Folders.Walk` | src/officex-canisters-backend/src/lib.rs:168-206 | the segment loop leaves the file tables alone and never lowers the counter |
| `Folders.WalkKeepsKey` | src/officex-canisters-backend/src/lib.rs:168-206 | the loop never rebinds an existing key |
| `Folders.WalkKeepsFolder` | src/officex-canisters-backend/src/lib.rs:168-206 | the loop changes existing folders only by appending subfolders |
| `Folders.WalkBinds` | src/officex-canisters-backend/src/lib.rs:168-206 | the final key is bound to the returned id, and the last folder was created exactly when that key was absent, with the last segment's name |
| `Folders.WalkLinksFirst` | src/officex-canisters-backend/src/lib.rs:172-197 | a folder created by the first pass is linked under the starting parent |
| `Folders.WalkLinksAt` | src/officex-canisters-backend/src/lib.rs:168-206 | every folder the loop had to create carries its segment and key, names the folder of the previous key as parent, and is listed by it |
| `Folders.WithSlash` | src/officex-canisters-backend/src/lib.rs:133-135 | the result ends in `/` |
| `Folders.WithSlashJoin` | src/officex-canisters-backend/src/lib.rs:131-135 | a sanitized path with `/` appended is `<prefix>::s1/…/sn/`, or `<prefix>::/` for no segments |
| `Folders.SegmentsOfTail` | src/officex-canisters-backend/src/lib.rs:156 | the segments create_folder reads back from that tail are the original ones |
| `Folders.CreateFolderParse` | src/officex-canisters-backend/src/lib.rs:132-156 | create_folder reads the text before the first `::` and the non-empty pieces of the rest, with `:` turned into `;` |
| `Folders.CreateFolderNoSep` | src/officex-canisters-backend/src/lib.rs:132-153 | a path without `::` is the bare namespace: its root when it names `loc`, else "Storage location mismatch" |
| `Folders.CreateFolderSplit` | src/officex-canisters-backend/src/lib.rs:141-156 | once split, a wrong namespace is refused with no change, and otherwise the segments go to the table part |
| `Folders.CreateFolderDispatch` | src/officex-canisters-backend/src/lib.rs:141-156 | for a path with `::`, "Storage location mismatch" with no change exactly when the prefix is not `loc`'s name; otherwise the table part on the path's segments |
| `Folders.CreateFolder` | src/officex-canisters-backend/src/lib.rs:125-210 | no contract of its own: create_folder as written, branch for branch; its outcomes are stated by `Folders.CreateFolderDispatch`, `Folders.CreateFolderNoSep`, `Folders.CreateFolderFormatErrorsUnreachable`, `Folders.CreateInNew`, its tables by `Folders.CreateFolderTables`, its invariants by `Folders.CreateFolderValid` |
| `Folders.CreateIn` | src/officex-canisters-backend/src/lib.rs:157-209 | the table part touches no file table and never lowers the counter; with no segments it leaves the tables of ensure_root_folder |
| `Folders.CreateFolderFormatErrorsUnreachable` | src/officex-canisters-backend/src/lib.rs:137-145 | create_folder never fails with "Invalid folder path" or "Invalid folder path format", only on a mismatch, a missing parent or an existing folder |
| `Folders.CreateInErrors` | src/officex-canisters-backend/src/lib.rs:159-209 | the table part fails only with "Parent folder not found" or "Folder already exists" |
| `Folders.SanitizedSplit` | src/officex-canisters-backend/src/lib.rs:132-145 | the sanitized path with `/` appended always splits at a `::` |
| `Folders.SanitizedHasSep` | src/officex-canisters-backend/src/lib.rs:132-145 | the sanitized path with `/` appended always holds `::` |
| `Folders.CreateInRoot` | src/officex-canisters-backend/src/lib.rs:159-165 | no segments returns the namespace's root, bound to `<ns>::`, parentless and empty-named when newly created |
| `Folders.CreateInWalk` | src/officex-canisters-backend/src/lib.rs:159-209 | with segments, the answer is the folder the last pass created, or "Folder already exists" |
| `Folders.KeyBelowRoot` | src/officex-canisters-backend/src/lib.rs:169-170 | a key below the root differs from the root's key |
| `Folders.CreateInNew` | src/officex-canisters-backend/src/lib.rs:125-210 | for `s1 … sn`, success exactly when `<ns>::s1/…/sn/` is unbound: a fresh empty folder with that key, the last segment's name and a parent, bound in the index; otherwise "Folder already exists" |
| `Folders.CreateInLinks` | src/officex-canisters-backend/src/lib.rs:168-197 | every missing ancestor is created with the key and name of its level, its parent's id, and is listed in the parent's `subfolder_uuids` |
| `Folders.CreateInValid` | src/officex-canisters-backend/src/lib.rs:159-209 | the table part keeps the invariants and children younger, and keeps every existing binding |
| `Folders.CreateInKeeps` | src/officex-canisters-backend/src/lib.rs:159-209 | the table part keeps every existing binding of the folder index |
| `Folders.CreateInParts` | src/officex-canisters-backend/src/lib.rs:159-206 | the tables after create_folder's table part are those after the root, then after the walk below it |
| `Folders.CreateFolderValid` | src/officex-canisters-backend/src/lib.rs:125-210 | create_folder keeps the invariants and children younger, and keeps every existing binding |
| `Folders.CreateFolderTables` | src/officex-canisters-backend/src/lib.rs:125-210 | create_folder leaves the tables alone or leaves those of its table part |
| `Folders.EnsureFoldersUnfolds` | src/officex-canisters-backend/src/lib.rs:747-751 | ensure_folder_structure is the walk below the root on `path_parts[0]` and the pieces of `path_parts[1]` |
| `Folders.EnsureFolders` | src/officex-canisters-backend/src/lib.rs:741-788 | ensure_folder_structure touches no file table and never lowers the counter |
| `Folders.EnsureUnder` | src/officex-canisters-backend/src/lib.rs:747-787 | ensuring the root and then the pieces leaves the file tables alone and never lowers the counter |
| `Folders.EnsureUnderBinds` | src/officex-canisters-backend/src/lib.rs:747-787 | the result is a folder; with no pieces the root of `loc`, whatever the head says; otherwise the folder bound to `<head>::s1/…/sn/` |
| `Folders.EnsureFoldersBinds` | src/officex-canisters-backend/src/lib.rs:741-788 | ensure_folder_structure returns the folder bound to `<head>::s1/…/sn/`, or the root of `loc` for no pieces |
| `Folders.EnsureUnderValid` | src/officex-canisters-backend/src/lib.rs:741-788 | ensure_folder_structure keeps the invariants and children younger |
| `Folders.EnsureUnderKeeps` | src/officex-canisters-backend/src/lib.rs:741-788 | it keeps every binding and changes existing folders only by appending subfolders |
| `Folders.StepFileLists` | src/officex-canisters-backend/src/lib.rs:754-784 | a pass leaves every file list alone and creates folders with none |
| `Folders.WalkFileLists` | src/officex-canisters-backend/src/lib.rs:751-785 | the segment loop leaves every file list alone |
| `Folders.EnsureUnderFileLists` | src/officex-canisters-backend/src/lib.rs:741-788 | ensure_folder_structure leaves every file list alone |
| `Upsert.UpdateFolderFileUuids` | src/officex-canisters-backend/src/lib.rs:212-222 | only a folder list changes; no key, file or counter moves |
| `Upsert.UpdateFolderFileUuidsEffect` | src/officex-canisters-backend/src/lib.rs:212-222 | add puts the file in once if absent and changes nothing otherwise; remove drops every occurrence and keeps the rest; other folders and fields untouched |
| `Upsert.Bound` | src/officex-canisters-backend/src/lib.rs:237 | the id the file index binds the path to, present exactly for a bound path |
| `Upsert.UpsertAt` | src/officex-canisters-backend/src/lib.rs:230-283 | the new id is the next one drawn, and the counter grows; the path then looks up the new record, which carries that path |
| `Upsert.UpsertAtUnfolds` | src/officex-canisters-backend/src/lib.rs:232-237 | the id is drawn, the folder ensured (file tables unchanged), then the version written |
| `Upsert.UpsertTailList` | src/officex-canisters-backend/src/lib.rs:267-281 | the folder lists the new id once, no longer lists the replaced id, and keeps the rest |
| `Upsert.UpsertFile` | src/officex-canisters-backend/src/lib.rs:224-284 | the new id is the next one drawn and the counter grows; the sanitised path then looks up the new record, which carries that path |
| `Upsert.UpsertTail` | src/officex-canisters-backend/src/lib.rs:237-281 | the path looks up the new record, which carries that path; the counter, the folder keys and the set of folders are unchanged |
| `Upsert.NewVersion` | src/officex-canisters-backend/src/lib.rs:248-265 | no contract: the record of a new version: the next version empty, the extension read off the name, size 0, not deleted, stamped with the clock |
| `Upsert.FolderFor` | src/officex-canisters-backend/src/lib.rs:234-235 | no contract: the folder ensure_folder_structure returns once the new id has been drawn |
| `Upsert.UpsertTailRecord` | src/officex-canisters-backend/src/lib.rs:239-269 | the written record and the path binding, for a given ensured folder |
| `Upsert.UpsertNewRecord` | src/officex-canisters-backend/src/lib.rs:224-284 | the new record has a fresh id, version 1 or one above the replaced one (wrapping), links back to it and forward to nothing, the name after the last `/` and its extension, the ensured folder; the path is bound to it |
| `Upsert.UpsertTailLinks` | src/officex-canisters-backend/src/lib.rs:274-278 | the replaced record links forward to the new id; other records unchanged |
| `Upsert.UpsertLinksPrior` | src/officex-canisters-backend/src/lib.rs:274-278 | the replaced version's `next_version` becomes the new id, and every other file record is kept |
| `Upsert.UpsertTailFileSide` | src/officex-canisters-backend/src/lib.rs:267-281 | writing the version keeps the file invariants |
| `Upsert.UpsertTailFolderSide` | src/officex-canisters-backend/src/lib.rs:271-281 | the list updates keep the folder invariants and children younger |
| `Upsert.UpsertTailEntry` | src/officex-canisters-backend/src/lib.rs:271-281 | a folder record changes only in its file list, which gains nothing but the new id |
| `Upsert.UpsertValid` | src/officex-canisters-backend/src/lib.rs:224-284 | upsert keeps the invariants and children younger |
| `Upsert.UpsertFolderList` | src/officex-canisters-backend/src/lib.rs:232-281 | the containing folder lists the new id exactly once, not the replaced id, and otherwise what it listed |
| `Upsert.EnsuredLists` | src/officex-canisters-backend/src/lib.rs:232-235 | ensuring the folder after drawing the id keeps the file tables and every folder's file list, and the fresh id is listed nowhere |
| `Renames.MoveFolder` | src/officex-canisters-backend/src/lib.rs:631-633 | the folder's path becomes the new key, which is bound to it; its old key is unbound when different; every other record and every other key's binding is kept; files untouched |
| `Renames.MoveFile` | src/officex-canisters-backend/src/lib.rs:641-648 | a file without a record leaves the tables as they are; otherwise its path becomes `replace(path, from, to)`, bound to it, the old path is unbound when different, and every other record and key binding is kept; folders untouched |
| `Renames.RekeyFile` | src/officex-canisters-backend/src/lib.rs:645-647 | the file's path becomes the new key, which is bound to it; its old key is unbound when different; every other record and every other key's binding is kept; folders untouched |
| `Renames.MoveFiles` | src/officex-canisters-backend/src/lib.rs:640-649 | the file loop changes only file paths and the file index; its effect on each file is `Renames.MoveFilesRewrites`, `Renames.MoveFilesBinds` and `Renames.MoveFilesKey` |
| `Renames.MoveFilesFirst` | src/officex-canisters-backend/src/lib.rs:640-649 | the loop from position `i` is the file at `i`, then the rest |
| `Renames.MoveFilesOther` | src/officex-canisters-backend/src/lib.rs:640-649 | a file the loop does not list keeps its record |
| `Renames.MoveFilesRewrites` | src/officex-canisters-backend/src/lib.rs:640-649 | with no id listed twice, every listed file that has a record gets `replace(path, from, to)` |
| `Renames.MoveFilesKey` | src/officex-canisters-backend/src/lib.rs:640-649 | a key that is neither the old nor the new path of a listed file keeps its binding |
| `Renames.MoveFilesBinds` | src/officex-canisters-backend/src/lib.rs:645-647 | a listed file ends bound under its new path, unless another listed file has that path before or after |
| `Renames.UpdatePaths` | src/officex-canisters-backend/src/lib.rs:624-651 | the recursive rewrite changes only paths and indexes; on a tree, `Subtrees.UpdatePathsRewrites`, `Subtrees.UpdatePathsBinds` and their file forms state its effect on each folder and file below |
| `Renames.UpdateSubfolders` | src/officex-canisters-backend/src/lib.rs:626-637 | the subfolder loop changes only paths and indexes; its effect on each folder below is `Subtrees.UpdateSubfoldersRewritesAt` and `Subtrees.UpdateSubfoldersBinds` |
| `Renames.MoveSubtree` | src/officex-canisters-backend/src/lib.rs:627-635 | one subfolder re-keyed and its subtree rewritten changes only paths and indexes; its effect is `Subtrees.MoveSubtreeRewritesAt` and `Subtrees.MoveSubtreeBinds` |
| `Renames.UpdatePathsKeeps` | src/officex-canisters-backend/src/lib.rs:624-651 | the rewrite below `x` leaves `x` and every folder as old as it untouched |
| `Renames.UpdateSubfoldersKeeps` | src/officex-canisters-backend/src/lib.rs:626-637 | the subfolder loop leaves every folder as old as `x` untouched |
| `Renames.MoveSubtreeKeeps` | src/officex-canisters-backend/src/lib.rs:627-635 | one subtree pass leaves every folder as old as `x` untouched |
| `Renames.MoveFolderIndexes` | src/officex-canisters-backend/src/lib.rs:631-633 | re-keying a folder keeps both indexes sound, and the folder index in agreement |
| `Renames.MoveFileIndexes` | src/officex-canisters-backend/src/lib.rs:645-647 | re-keying a file keeps both indexes sound |
| `Renames.MoveFilesIndexes` | src/officex-canisters-backend/src/lib.rs:640-649 | the file loop keeps both indexes sound |
| `Renames.UpdatePathsIndexes` | src/officex-canisters-backend/src/lib.rs:624-651 | the recursive rewrite keeps the folder index naming folders, the file index sound, and the folder index in agreement |
| `Renames.UpdateSubfoldersIndexes` | src/officex-canisters-backend/src/lib.rs:626-637 | the subfolder loop keeps the indexes sound |
| `Renames.MoveSubtreeIndexes` | src/officex-canisters-backend/src/lib.rs:627-635 | one subtree pass keeps the indexes sound |
| `Renames.ShapeValid` | src/officex-canisters-backend/src/lib.rs:624-651 | changing only paths keeps the tables valid when the indexes are sound |
| `Renames.ShapeChildrenYounger` | src/officex-canisters-backend/src/lib.rs:624-651 | changing only paths keeps every subfolder younger than its parent |
| `Renames.ReplaceAllLast` | src/officex-canisters-backend/src/lib.rs:629 | the replaced text ends in the last character of the text or of the replacement |
| `Renames.UpdatePathsKeyEnds` | src/officex-canisters-backend/src/lib.rs:624-651 | when the new key ends in `/` or `:`, every folder key still does |
| `Renames.UpdateSubfoldersKeyEnds` | src/officex-canisters-backend/src/lib.rs:626-637 | the subfolder loop keeps every folder key ending in `/` or `:` |
| `Renames.MoveSubtreeKeyEnds` | src/officex-canisters-backend/src/lib.rs:627-635 | one subtree pass keeps every folder key ending in `/` or `:` |
| `Renames.MoveFolderKeyEnds` | src/officex-canisters-backend/src/lib.rs:631-633 | re-keying to a key ending in `/` or `:` keeps every key ending so |
| `Subtrees.ShapeTree` | src/officex-canisters-backend/src/lib.rs:624-651 | changing only paths keeps the folder lists and parent pointers a tree |
| `Subtrees.WithinChild` | src/officex-canisters-backend/src/lib.rs:626-628 | a listed subfolder lies below the folder that lists it |
| `Subtrees.SiblingsApart` | src/officex-canisters-backend/src/lib.rs:626-637 | two different children of one folder have disjoint subtrees |
| `Subtrees.UpdatePathsFrame` | src/officex-canisters-backend/src/lib.rs:624-651 | the rewrite below `x` changes no folder record outside the folders strictly below `x` |
| `Subtrees.UpdateSubfoldersFrame` | src/officex-canisters-backend/src/lib.rs:626-637 | the subfolder loop changes no folder record outside the listed subtrees |
| `Subtrees.MoveSubtreeFrame` | src/officex-canisters-backend/src/lib.rs:627-635 | one subtree pass changes no folder record outside that subtree |
| `Subtrees.UpdatePathsFileFrame` | src/officex-canisters-backend/src/lib.rs:624-651 | the rewrite below `x` changes no file record whose folder is not `x` or below it |
| `Subtrees.UpdateSubfoldersFileFrame` | src/officex-canisters-backend/src/lib.rs:626-637 | the subfolder loop changes no file record outside the listed subtrees |
| `Subtrees.MoveSubtreeFileFrame` | src/officex-canisters-backend/src/lib.rs:627-635 | one subtree pass changes no file record outside that subtree |
| `Subtrees.UpdatePathsFolderKey` | src/officex-canisters-backend/src/lib.rs:624-651 | a folder key that no folder below `x` has before or after keeps its binding |
| `Subtrees.UpdateSubfoldersFolderKey` | src/officex-canisters-backend/src/lib.rs:626-637 | the same for the subfolder loop |
| `Subtrees.MoveSubtreeFolderKey` | src/officex-canisters-backend/src/lib.rs:627-635 | the same for one subtree pass |
| `Subtrees.UpdatePathsFileKey` | src/officex-canisters-backend/src/lib.rs:624-651 | a file key that no file listed at or below `x` has before or after keeps its binding |
| `Subtrees.UpdateSubfoldersFileKey` | src/officex-canisters-backend/src/lib.rs:626-637 | the same for the subfolder loop |
| `Subtrees.MoveSubtreeFileKey` | src/officex-canisters-backend/src/lib.rs:627-635 | the same for one subtree pass |
| `Subtrees.UpdatePathsRewrites` | src/officex-canisters-backend/src/lib.rs:624-651 | every folder strictly below `x` gets its rewritten path: a child `replace(path, from, to)`, a deeper folder `replace(path, parent's old path, parent's new path)` |
| `Subtrees.UpdatePathsRewritesAt` | src/officex-canisters-backend/src/lib.rs:624-651 | the same for one folder below `x` |
| `Subtrees.UpdateSubfoldersRewritesAt` | src/officex-canisters-backend/src/lib.rs:626-637 | the subfolder loop gives each folder in a listed subtree its rewritten path |
| `Subtrees.MoveSubtreeHead` | src/officex-canisters-backend/src/lib.rs:629-633 | the subfolder itself gets `replace(path, from, to)`, its rewritten path |
| `Subtrees.MoveSubtreeRewritesAt` | src/officex-canisters-backend/src/lib.rs:627-635 | one subtree pass gives each folder in that subtree its rewritten path |
| `Subtrees.UpdatePathsFileRewrites` | src/officex-canisters-backend/src/lib.rs:624-651 | every file listed by `x` or below it gets its folder's replacement applied to its path |
| `Subtrees.UpdatePathsFileRewritesAt` | src/officex-canisters-backend/src/lib.rs:624-651 | the same for one file |
| `Subtrees.FilesHere` | src/officex-canisters-backend/src/lib.rs:640-649 | the files `x` lists itself get `replace(path, from, to)` |
| `Subtrees.UpdateSubfoldersFileRewritesAt` | src/officex-canisters-backend/src/lib.rs:626-637 | the subfolder loop rewrites each file listed in a listed subtree |
| `Subtrees.MoveSubtreeFileRewritesAt` | src/officex-canisters-backend/src/lib.rs:627-635 | one subtree pass rewrites each file listed in that subtree |
| `Subtrees.UpdatePathsBinds` | src/officex-canisters-backend/src/lib.rs:624-651 | a folder below `x` ends bound under its rewritten path, unless another folder below `x` has that path before or after |
| `Subtrees.UpdateSubfoldersBinds` | src/officex-canisters-backend/src/lib.rs:626-637 | the same for the subfolder loop |
| `Subtrees.MoveSubtreeBinds` | src/officex-canisters-backend/src/lib.rs:627-635 | the same for one subtree pass |
| `Subtrees.MoveSubtreeBindsHead` | src/officex-canisters-backend/src/lib.rs:629-635 | the subfolder itself ends bound under its new path, unless a folder of its subtree has that path |
| `Subtrees.UpdatePathsFileBinds` | src/officex-canisters-backend/src/lib.rs:624-651 | a file listed at or below `x` ends bound under its rewritten path, unless another file listed there has that path before or after |
| `Subtrees.UpdateSubfoldersFileBinds` | src/officex-canisters-backend/src/lib.rs:626-637 | the same for the subfolder loop |
| `Subtrees.MoveSubtreeFileBinds` | src/officex-canisters-backend/src/lib.rs:627-635 | the same for one subtree pass |
| `Subtrees.HereFileBinds` | src/officex-canisters-backend/src/lib.rs:640-649 | a file `x` lists itself ends bound under its new path, unless another file below has it |
| `Renames.RenameTarget` | src/officex-canisters-backend/src/lib.rs:306-339 | "Folder not found", "Invalid folder structure" and the collision error each hold exactly under their condition, the new key counting as taken even when it is the folder's own key; success gives a free new key |
| `Renames.Retitle` | src/officex-canisters-backend/src/lib.rs:342-351 | the record gets the new name, key and stamp; the old key is unbound and the new one bound to it |
| `Renames.Relocate` | src/officex-canisters-backend/src/lib.rs:341-354 | no id is added or removed and the counter stays |
| `Renames.RenameAt` | src/officex-canisters-backend/src/lib.rs:356-374 | the result is Ok or "Parent folder not found", the latter exactly for a nested folder whose parent key is unbound |
| `Renames.RenameFolder` | src/officex-canisters-backend/src/lib.rs:306-378 | as written: the outcome is the error of the three checks on the old tables, each exactly under its condition (`Renames.RenameTarget`), or, once they pass, Ok or "Parent folder not found" |
| `Renames.RenameFolderCorrected` | src/officex-canisters-backend/src/lib.rs:306-378 | the same outcomes, with the parent looked up under its own key |
| `Renames.RelocateRecord` | src/officex-canisters-backend/src/lib.rs:342-344 | the renamed record has the new name, key and stamp and nothing else of it changes |
| `Renames.RelocateKeepsOlder` | src/officex-canisters-backend/src/lib.rs:353-354 | folders older than the renamed one are untouched |
| `Renames.RelocateShape` | src/officex-canisters-backend/src/lib.rs:341-354 | every other record changes at most in its path |
| `Renames.RetitleValid` | src/officex-canisters-backend/src/lib.rs:342-351 | retitling keeps the invariants and the folder index in agreement |
| `Renames.RelocateValid` | src/officex-canisters-backend/src/lib.rs:341-354 | the retitle and the rewrite keep the invariants and the folder index in agreement |
| `Renames.RelocateParts` | src/officex-canisters-backend/src/lib.rs:341-354 | the changes are the retitle, then the rewrite from the old key to the new |
| `Renames.RelocateKeyEnds` | src/officex-canisters-backend/src/lib.rs:341-354 | every folder key keeps ending in `/` or `:` |
| `Renames.RelocateNoSubfolders` | src/officex-canisters-backend/src/lib.rs:346-354 | for a folder without subfolders the folder index only loses the old key and gains the new one |
| `Renames.RelocateKeepsKey` | src/officex-canisters-backend/src/lib.rs:346-354 | for a folder without subfolders every other key keeps its binding |
| `Renames.RelocateLeaf` | src/officex-canisters-backend/src/lib.rs:346-354 | for a folder without subfolders or files only its record and key change |
| `Renames.LinkChildEffect` | src/officex-canisters-backend/src/lib.rs:359-366 | the parent repair changes only the parent's subfolder list, which then lists the child, appended once at most |
| `Renames.RenameAtRecord` | src/officex-canisters-backend/src/lib.rs:341-371 | after the changes the record has the new name, key and stamp, and keeps everything else but its subfolder list |
| `Renames.RenameAtParts` | src/officex-canisters-backend/src/lib.rs:353-371 | the result is the relocation, possibly followed by the parent repair |
| `Renames.RenameAtFrame` | src/officex-canisters-backend/src/lib.rs:341-371 | files change only in path; other folders only in path and by the folder appended to one subfolder list |
| `Renames.RenameAtKeepsOlder` | src/officex-canisters-backend/src/lib.rs:353-371 | folders older than the renamed one keep their path |
| `Renames.RenameAtLinks` | src/officex-canisters-backend/src/lib.rs:357-366 | when the parent key is bound to a folder the rename succeeds and that folder lists the renamed one |
| `Renames.RenameFolderRejects` | src/officex-canisters-backend/src/lib.rs:306-339 | the three checks leave the tables as they were |
| `Renames.RenameFolderRecord` | src/officex-canisters-backend/src/lib.rs:306-378 | past the checks, the record has the new name, key and stamp, and only its subfolder list may also change |
| `Renames.RenameFolderFrame` | src/officex-canisters-backend/src/lib.rs:306-378 | whatever the outcome no id is added or removed, files change only in path, and other folders only in path and one appended subfolder |
| `Renames.RenameFolderKeepsOlder` | src/officex-canisters-backend/src/lib.rs:306-378 | folders older than the renamed one keep their path |
| `Renames.LinkValid` | src/officex-canisters-backend/src/lib.rs:359-366 | the parent repair keeps the invariants and the folder index in agreement |
| `Renames.RenameAtValid` | src/officex-canisters-backend/src/lib.rs:341-371 | the changes past the checks keep the invariants and the folder index in agreement |
| `Renames.RenameFolderValid` | src/officex-canisters-backend/src/lib.rs:306-378 | rename_folder keeps the invariants and the folder index in agreement |
| `Renames.RenameFolderLeaf` | src/officex-canisters-backend/src/lib.rs:306-378 | renaming a folder with no children drops its old key, binds the new one to it, and touches no other key and no file |
| `Renames.JoinSlashLast` | src/officex-canisters-backend/src/lib.rs:322 | joined segments end in the last segment's last character |
| `Renames.NestedParentLast` | src/officex-canisters-backend/src/lib.rs:357-359 | a nested folder's looked-up parent key ends in the last character of the parent segment |
| `Renames.NestedParentKey` | src/officex-canisters-backend/src/lib.rs:357-359 | that parent key ends in neither `/` nor `:`, and adding `/` gives the parent's own key |
| `Renames.RenameNestedFolderFails` | src/officex-canisters-backend/src/lib.rs:306-378 | as written, renaming a nested folder never succeeds in tables whose keys end in `/` or `:` (`KeyEnds`, which `State::new` and every operation but a folder sync to such a path keep, by `TreeShape`): past the checks it returns "Parent folder not found" with the new key already applied |
| `Renames.NestedKeysDistinct` | src/officex-canisters-backend/src/lib.rs:313-358 | the parent's key differs from the folder's key before and after the rename |
| `Renames.RenameNestedFolderCorrected` | src/officex-canisters-backend/src/lib.rs:356-371 | with the parent looked up under its own key, the rename of a nested folder succeeds and the parent lists it |
| `Renames.RenameFolderCorrectedValid` | src/officex-canisters-backend/src/lib.rs:306-378 | the corrected rename keeps the invariants |
| `Renames.RenameFile` | src/officex-canisters-backend/src/lib.rs:381-447 | folders, folder keys and the counter untouched; no file id added or removed; every other file record kept |
| `Renames.RenamedFile` | src/officex-canisters-backend/src/lib.rs:419-426 | the renamed record keeps its id, folder, version number and both version links |
| `Renames.RenameFileChecks` | src/officex-canisters-backend/src/lib.rs:381-447 | "File not found", "Invalid file structure" and the collision error each hold exactly under their condition and change nothing; there is no other failure |
| `Renames.RenameFileEffect` | src/officex-canisters-backend/src/lib.rs:389-443 | on success the new path finds the renamed record (name, path, stamp, extension), the old path finds nothing, every other path finds what it found |
| `Renames.RenameFileFileSide` | src/officex-canisters-backend/src/lib.rs:413-440 | rename_file keeps the file invariants |
| `Renames.RenameFileValid` | src/officex-canisters-backend/src/lib.rs:381-447 | rename_file keeps the invariants and the folder index in agreement |
| `Renames.RenameFileKeepsFolder` | src/officex-canisters-backend/src/lib.rs:399-408 | a renamed file stays in its folder under the new name |
| `Deletes.TrimsLinks` | src/officex-canisters-backend/src/lib.rs:482-489 | deletions keep every folder's subfolder list |
| `Deletes.TrimsFolderSide` | src/officex-canisters-backend/src/lib.rs:449-500 | deletions keep the folder invariants and the folder index in agreement |
| `Deletes.DeleteFile` | src/officex-canisters-backend/src/lib.rs:502-541 | fails exactly on an absent id, with "File not found" and no change; never touches a folder or folder key |
| `Deletes.DeleteFileEffect` | src/officex-canisters-backend/src/lib.rs:505-537 | the record goes, the key equal to its path goes whatever it names, and the prior's next and the next's prior are spliced past it; nothing else changes |
| `Deletes.DeleteFileFileSide` | src/officex-canisters-backend/src/lib.rs:502-541 | delete_file keeps the file invariants |
| `Deletes.DeleteFileValid` | src/officex-canisters-backend/src/lib.rs:502-541 | delete_file keeps the invariants |
| `Deletes.DeleteFiles` | src/officex-canisters-backend/src/lib.rs:477-480 | the file loop fails only with "File not found" (not when lenient), and on success every listed file is gone; it changes no folder and no folder key, and loses a file key only when it is the path of a removed file |
| `Deletes.DeleteFilesKeepsFile` | src/officex-canisters-backend/src/lib.rs:477-480 | whatever the outcome, a file the loop does not list stays |
| `Deletes.DeleteFilesFrame` | src/officex-canisters-backend/src/lib.rs:477-480 | whatever the outcome, no folder or folder key changes; a file the loop does not list stays, changed at most in its version links; a file key is lost only when it is the path of a file that went |
| `Deletes.DeleteTree` | src/officex-canisters-backend/src/lib.rs:449-500 | delete_folder only trims: every folder stays, at most stamped and marked deleted; surviving files change at most in their version links; keys are only lost, and a lost file key is the path of a removed file. It fails only with "Folder not found" or "File not found"; an absent id fails with no change |
| `Deletes.DeleteFolder` | src/officex-canisters-backend/src/lib.rs:449-500 | as written: only trims (as `Deletes.DeleteTree`); the outcome is Ok, "Folder not found" or "File not found"; an absent id fails with no change |
| `Deletes.DeleteFolderCorrected` | src/officex-canisters-backend/src/lib.rs:449-500 | only trims; never fails with "File not found"; an absent id fails with "Folder not found" and no change |
| `Deletes.Splice` | src/officex-canisters-backend/src/lib.rs:505-535 | the file's record goes, and the versions on either side point past it; no other record changes |
| `Deletes.DeleteTreeUnfold` | src/officex-canisters-backend/src/lib.rs:463-497 | on an existing folder, whatever the outcome: the key unbound, the subfolder loop, then the files and the mark |
| `Deletes.FinishKeeps` | src/officex-canisters-backend/src/lib.rs:475-495 | the files loop and the mark change no folder but the deleted one and no folder key, and keep every file not listed |
| `Deletes.DeleteTreeKeepsFolder` | src/officex-canisters-backend/src/lib.rs:449-500 | whatever the outcome, a folder outside the subtree keeps its record |
| `Deletes.DeleteSubfoldersKeepsFolder` | src/officex-canisters-backend/src/lib.rs:470-473 | the subfolder loop keeps the record of a folder below none of the listed subfolders |
| `Deletes.DeleteTreeKeepsFolderKey` | src/officex-canisters-backend/src/lib.rs:449-500 | whatever the outcome, a folder key that is the path of no folder in the subtree keeps its binding |
| `Deletes.DeleteSubfoldersKeepsFolderKey` | src/officex-canisters-backend/src/lib.rs:470-473 | the subfolder loop keeps every folder key that is the path of no folder below the listed subfolders |
| `Deletes.DeleteTreeKeepsFile` | src/officex-canisters-backend/src/lib.rs:449-500 | whatever the outcome, a file that no folder in the subtree lists stays |
| `Deletes.DeleteSubfoldersKeepsFile` | src/officex-canisters-backend/src/lib.rs:470-473 | the subfolder loop keeps every file that no folder below the listed subfolders lists |
| `Deletes.DeleteTreeFrame` | src/officex-canisters-backend/src/lib.rs:449-500 | whatever the outcome, delete_folder keeps: every folder outside the subtree, unchanged; every folder key that is the path of no folder in it, bound as before; every file no folder in it lists, changed at most in its version links. A file key is lost only when it is the path of a file that went |
| `Deletes.Unkeyed` | src/officex-canisters-backend/src/lib.rs:466 | the folder's key is unbound and nothing else changes |
| `Deletes.Finish` | src/officex-canisters-backend/src/lib.rs:475-495 | on success the folder is stamped and marked deleted and every listed file is gone |
| `Deletes.MarkDeleted` | src/officex-canisters-backend/src/lib.rs:492-495 | the folder is marked deleted with the clock's stamp; no other folder record and no table entry changes |
| `Deletes.DeleteSubfolders` | src/officex-canisters-backend/src/lib.rs:470-473 | the subfolder loop only trims and fails only with the two messages |
| `Deletes.DeleteFolderValid` | src/officex-canisters-backend/src/lib.rs:449-500 | delete_folder keeps the invariants, children younger and the folder index in agreement, whatever its outcome |
| `Deletes.TrimsChildrenYounger` | src/officex-canisters-backend/src/lib.rs:449-500 | deletions keep every subfolder younger than its parent |
| `Deletes.DeleteFilesFileSide` | src/officex-canisters-backend/src/lib.rs:477-480 | the file loop keeps the file invariants |
| `Deletes.FinishFileSide` | src/officex-canisters-backend/src/lib.rs:475-495 | deleting the listed files and marking the folder keeps the file invariants |
| `Deletes.DeleteTreeFileSide` | src/officex-canisters-backend/src/lib.rs:449-500 | delete_folder keeps the file invariants, whatever its outcome |
| `Deletes.DeleteSubfoldersFileSide` | src/officex-canisters-backend/src/lib.rs:470-473 | the subfolder loop keeps the file invariants |
| `Deletes.FinishPurges` | src/officex-canisters-backend/src/lib.rs:476-495 | on success the folder itself is marked deleted, unkeyed, and its files are gone |
| `Deletes.DeleteTreePurges` | src/officex-canisters-backend/src/lib.rs:449-500 | a successful delete_folder marks every folder below it deleted, unbinds its key and removes every file it lists |
| `Deletes.DeleteSubfoldersPurges` | src/officex-canisters-backend/src/lib.rs:468-473 | a successful subfolder loop purges every folder below each listed subfolder |
| `Deletes.DeleteSubfoldersStep` | src/officex-canisters-backend/src/lib.rs:470-473 | a successful loop is the first subtree deleted, then the loop over the rest |
| `Deletes.DeleteFilesMissing` | src/officex-canisters-backend/src/lib.rs:477-480 | as written, the file loop fails on a listed file that is already gone |
| `Deletes.DeleteFolderAfterFile` | src/officex-canisters-backend/src/lib.rs:449-541 | as written, deleting a folder after deleting one of its files fails with "File not found" and leaves it unkeyed but not marked deleted |
| `Deletes.DeleteTreeLenientOk` | src/officex-canisters-backend/src/lib.rs:449-500 | the corrected delete succeeds whenever every listed subfolder has a record |
| `Deletes.DeleteSubfoldersLenientOk` | src/officex-canisters-backend/src/lib.rs:470-473 | the corrected subfolder loop succeeds whenever every listed subfolder has a record |
| `Deletes.DeleteFolderCorrectedAfterFile` | src/officex-canisters-backend/src/lib.rs:449-541 | in tables whose listed subfolders have records (`ChildrenExist`, which `State::new` and every operation keep, by `TreeShape`), the corrected delete_folder succeeds after delete_file and marks the folder deleted |
| `Sync.ChainIds` | src/officex-canisters-backend/src/lib.rs:561-569 | the chain holds only ids with a record, and the start when it has one |
| `Sync.ChainStrip` | src/officex-canisters-backend/src/lib.rs:561-569 | the clean-up walk only shortens the list |
| `Sync.ChainStripCounts` | src/officex-canisters-backend/src/lib.rs:561-569 | the walk drops every occurrence of every id on the prior chain and keeps every other id as often as it was listed |
| `Sync.ChainStripAbsent` | src/officex-canisters-backend/src/lib.rs:561-569 | a list holding no chain id is left as it is |
| `Sync.SyncAt` | src/officex-canisters-backend/src/lib.rs:549-606 | the new id is the next one drawn, and the counter grows |
| `Sync.SyncAtUnfolds` | src/officex-canisters-backend/src/lib.rs:552-555 | the id is drawn, the folder ensured (file tables unchanged), then the copy written |
| `Sync.SyncFile` | src/officex-canisters-backend/src/lib.rs:543-608 | the new id is the next one drawn and the counter grows; where the copy is written, bound and filed is stated by `Sync.SyncFileEffect`, `Sync.SyncedFileFields` and `Sync.SyncFileList` |
| `Sync.SyncedFile` | src/officex-canisters-backend/src/lib.rs:572-589 | no contract: the record the sync writes: the next version number, linked back to the synced file, the client's stamps, size, URL and flag, the stamp OR-ed with the clock |
| `Sync.SyncTail` | src/officex-canisters-backend/src/lib.rs:557-606 | no folder key, folder id or counter changes |
| `Sync.SyncTailFiles` | src/officex-canisters-backend/src/lib.rs:591-606 | the new record is added, its path bound, and the synced file linked forward; nothing else in the file tables |
| `Sync.SyncTailLists` | src/officex-canisters-backend/src/lib.rs:559-601 | the target folder's list loses the prior chain and gains the new id at its end; other folders unchanged |
| `Sync.SyncTailTarget` | src/officex-canisters-backend/src/lib.rs:559-601 | the target folder's record differs only in its list: the chain dropped, then the new id retained away and appended |
| `Sync.SyncTailOther` | src/officex-canisters-backend/src/lib.rs:559-601 | every other folder record is unchanged |
| `Sync.ValidPriorsOlder` | src/officex-canisters-backend/src/lib.rs:562-569 | in valid tables the prior links lead to older ids, so the walk ends |
| `Sync.SyncFileEffect` | src/officex-canisters-backend/src/lib.rs:543-608 | the new record under a fresh id, the client's path bound to it, the synced file linked forward; every other record and binding kept, the old path never unbound |
| `Sync.SyncedFileFields` | src/officex-canisters-backend/src/lib.rs:572-589 | version one above the synced file (wrapping), prior the synced file, no next, no tags, owner the caller, the client's dates, place, size, url and flag, the OR-merged stamp, the path's name and extension |
| `Sync.SyncFileList` | src/officex-canisters-backend/src/lib.rs:559-601 | the target folder keeps what it listed but the prior chain and lists the new id once at its end; no other folder's file list changes |
| `Sync.SyncTailListsAfter` | src/officex-canisters-backend/src/lib.rs:559-601 | the same, for a given result of ensuring the folder |
| `Sync.SyncTailFileSide` | src/officex-canisters-backend/src/lib.rs:591-606 | writing the copy keeps the file invariants |
| `Sync.LinkedVersionFileSide` | src/officex-canisters-backend/src/lib.rs:592-606 | filing a new version above every id, bound and linked back from its predecessor, keeps the file invariants |
| `Sync.SyncTailFolderSide` | src/officex-canisters-backend/src/lib.rs:559-601 | the list updates keep the folder invariants and children younger |
| `Sync.SyncFileValid` | src/officex-canisters-backend/src/lib.rs:543-608 | the file sync keeps the invariants and children younger |
| `Sync.SyncFolder` | src/officex-canisters-backend/src/lib.rs:610-622 | the result is the folder's own id |
| `Sync.SyncFolderEffect` | src/officex-canisters-backend/src/lib.rs:610-622 | only the folder's record changes: name, tags, place, path, parent and flag from the client, the OR-merged stamp; id, lists, owner and creation date kept; no index entry moves |
| `Sync.SyncFolderValid` | src/officex-canisters-backend/src/lib.rs:610-622 | the folder sync keeps the invariants and children younger, and the index agreement when the path is unchanged |
| `Sync.SyncFolderStaleKey` | src/officex-canisters-backend/src/lib.rs:617 | a different client path leaves the stored key naming a record that carries another path |
| `TreeShape.EmptyShaped` | src/officex-canisters-backend/src/lib.rs:94-105 | the empty tables have keys ending in `/` or `:`, existing children, drawn ids and an agreeing folder index |
| `TreeShape.TrimsTreeKept` | src/officex-canisters-backend/src/lib.rs:449-541 | a deletion keeps every folder's path and children and only unbinds folder keys |
| `TreeShape.RootPathEnds` | src/officex-canisters-backend/src/lib.rs:714 | the root key `<ns>::` ends in `:` |
| `TreeShape.EnsureRootShaped` | src/officex-canisters-backend/src/lib.rs:713-739 | ensuring the root keeps the three facts |
| `TreeShape.LinkChildShaped` | src/officex-canisters-backend/src/lib.rs:193-195 | appending an existing child keeps the three facts and the index agreement |
| `TreeShape.AddFolderAgrees` | src/officex-canisters-backend/src/lib.rs:189-190 | binding a new folder under the next id keeps the folder index in agreement when ids are drawn |
| `TreeShape.AddFolderShaped` | src/officex-canisters-backend/src/lib.rs:189-190 | binding a key ending in `/` to a new childless folder keeps the three facts |
| `TreeShape.StepShaped` | src/officex-canisters-backend/src/lib.rs:169-205 | one pass of the segment loop keeps the three facts |
| `TreeShape.WalkShaped` | src/officex-canisters-backend/src/lib.rs:168-206 | the segment loop keeps the three facts |
| `TreeShape.RootWalkShaped` | src/officex-canisters-backend/src/lib.rs:159-206 | the root, then the segment loop, keeps the three facts |
| `TreeShape.CreateFolderShaped` | src/officex-canisters-backend/src/lib.rs:125-210 | create_folder keeps the three facts, whether it fails or not |
| `TreeShape.CreateInShaped` | src/officex-canisters-backend/src/lib.rs:159-209 | the table part of create_folder keeps the three facts |
| `TreeShape.EnsureUnderShaped` | src/officex-canisters-backend/src/lib.rs:747-787 | the root and the passes of ensure_folder_structure keep the three facts |
| `TreeShape.EnsureFoldersShaped` | src/officex-canisters-backend/src/lib.rs:741-788 | ensure_folder_structure keeps the three facts |
| `TreeShape.UpdateFolderFileUuidsKept` | src/officex-canisters-backend/src/lib.rs:212-222 | editing a file list keeps every folder key, binding, path and child list |
| `TreeShape.UpsertTailKept` | src/officex-canisters-backend/src/lib.rs:237-281 | writing the version keeps every folder key, binding, path and child list |
| `TreeShape.UpsertAtShaped` | src/officex-canisters-backend/src/lib.rs:230-283 | upsert over the split path keeps the three facts |
| `TreeShape.UpsertFileShaped` | src/officex-canisters-backend/src/lib.rs:224-284 | upsert keeps the three facts |
| `TreeShape.SyncTailKept` | src/officex-canisters-backend/src/lib.rs:557-606 | writing the synced copy keeps every folder key, binding, path and child list |
| `TreeShape.SyncAtShaped` | src/officex-canisters-backend/src/lib.rs:549-606 | the file sync over the split path keeps the three facts |
| `TreeShape.SyncFileShaped` | src/officex-canisters-backend/src/lib.rs:543-608 | the file sync keeps the three facts |
| `TreeShape.SyncFolderShaped` | src/officex-canisters-backend/src/lib.rs:610-622 | the folder sync keeps existing children, and keeps keys ending in `/` or `:` exactly when the client's path ends so |
| `TreeShape.RenameFileShaped` | src/officex-canisters-backend/src/lib.rs:381-447 | rename_file keeps the three facts |
| `TreeShape.RenameAtShaped` | src/officex-canisters-backend/src/lib.rs:341-371 | rename_folder past its checks keeps keys ending in `/` or `:` and existing children when the new key ends so |
| `TreeShape.RenameFolderShaped` | src/officex-canisters-backend/src/lib.rs:306-378 | rename_folder, as written and corrected, keeps keys ending in `/` or `:` and existing children |
| `TreeShape.DeleteFileShaped` | src/officex-canisters-backend/src/lib.rs:502-541 | delete_file keeps the three facts |
| `TreeShape.DeleteTreeShaped` | src/officex-canisters-backend/src/lib.rs:449-500 | delete_folder, as written and corrected, keeps the three facts |
| `TreeKeep.EmptyLinked` | src/officex-canisters-backend/src/lib.rs:94-105 | the empty tables form a tree with no dangling parent |
| `TreeKeep.NoDupWithout` | src/officex-canisters-backend/src/lib.rs:219 | the retain keeps a list free of repeats |
| `TreeKeep.ChainStripNoDup` | src/officex-canisters-backend/src/lib.rs:560-570 | the clean-up walk of the file sync keeps a list free of repeats and only drops ids |
| `TreeKeep.SameTreeLinked` | src/officex-canisters-backend/src/lib.rs:94-105 | tables with the same folders, parents and lists, and only files of the first in the same folders, are linked when the first are |
| `TreeKeep.FileListLinked` | src/officex-canisters-backend/src/lib.rs:212-222 | a folder's file list replaced by one without repeats whose records all name that folder keeps the tree |
| `TreeKeep.FileRecordLinked` | src/officex-canisters-backend/src/lib.rs:268 | a file record written in its old folder, or filed nowhere, keeps the tree |
| `TreeKeep.UpdateFolderFileUuidsLinked` | src/officex-canisters-backend/src/lib.rs:212-222 | filing a file whose record names the folder, or unfiling any file, keeps the tree |
| `TreeKeep.EnsureRootLinked` | src/officex-canisters-backend/src/lib.rs:713-739 | ensuring the root keeps the tree |
| `TreeKeep.StepLinked` | src/officex-canisters-backend/src/lib.rs:169-205 | a pass of the segment loop lists the new folder under an existing parent, which it points back at |
| `TreeKeep.WalkLinked` | src/officex-canisters-backend/src/lib.rs:168-206 | the segment loop from an existing folder keeps the tree |
| `TreeKeep.RootWalkLinked` | src/officex-canisters-backend/src/lib.rs:159-206 | the root, then the segment loop, keeps the tree |
| `TreeKeep.CreateInLinked` | src/officex-canisters-backend/src/lib.rs:159-209 | the table part of create_folder keeps the tree |
| `TreeKeep.CreateFolderLinked` | src/officex-canisters-backend/src/lib.rs:125-210 | create_folder keeps the tree, whether it fails or not |
| `TreeKeep.EnsureUnderLinked` | src/officex-canisters-backend/src/lib.rs:747-787 | the root and the passes of ensure_folder_structure keep the tree |
| `TreeKeep.EnsureFoldersLinked` | src/officex-canisters-backend/src/lib.rs:741-788 | ensure_folder_structure keeps the tree |
| `TreeKeep.EnsuredFresh` | src/officex-canisters-backend/src/lib.rs:230-236 | after the id is drawn and the folders ensured, the tree is kept and the new id is in no file table and no file list |
| `TreeKeep.UpsertTailLinked` | src/officex-canisters-backend/src/lib.rs:237-281 | writing the version files a new id under the folder its record names and unfiles the old version, keeping the tree |
| `TreeKeep.UpsertAtLinked` | src/officex-canisters-backend/src/lib.rs:230-283 | upsert over the split path keeps the tree in valid tables |
| `TreeKeep.UpsertFileLinked` | src/officex-canisters-backend/src/lib.rs:224-284 | upsert keeps the tree in valid tables |
| `TreeKeep.RefileLastLinked` | src/officex-canisters-backend/src/lib.rs:598-601 | moving a file whose record names the folder to the end of its list keeps the tree |
| `TreeKeep.SyncTailLinked` | src/officex-canisters-backend/src/lib.rs:557-606 | writing the synced copy strips the old chain, files the new id under the folder its record names, and keeps the tree |
| `TreeKeep.SyncAtLinked` | src/officex-canisters-backend/src/lib.rs:549-606 | the file sync over the split path keeps the tree in valid tables |
| `TreeKeep.SyncFileLinked` | src/officex-canisters-backend/src/lib.rs:543-608 | the file sync keeps the tree in valid tables |
| `TreeKeep.SyncFolderLinked` | src/officex-canisters-backend/src/lib.rs:610-622 | the folder sync keeps the tree when the client sends the recorded parent |
| `TreeKeep.SyncFolderUnlinks` | src/officex-canisters-backend/src/lib.rs:617-618 | the folder sync breaks the tree when the client names an existing parent that does not list the folder |
| `TreeKeep.RenameFileLinked` | src/officex-canisters-backend/src/lib.rs:381-447 | rename_file keeps the tree |
| `TreeKeep.RelocateSameTree` | src/officex-canisters-backend/src/lib.rs:341-354 | the retitle and the path rewrite change no parent, no list and no file's folder |
| `TreeKeep.RenameAtLinked` | src/officex-canisters-backend/src/lib.rs:353-371 | rename_folder past its checks keeps the tree when its repair finds the recorded parent or nothing: the parent already lists the folder |
| `TreeKeep.LinkChildLists` | src/officex-canisters-backend/src/lib.rs:360-365 | the repair with its `contains` check leaves the folder listed and moves no parent pointer |
| `TreeKeep.RenameAtUnlinks` | src/officex-canisters-backend/src/lib.rs:353-371 | the repair breaks the tree when its key names an existing folder other than the recorded parent |
| `TreeKeep.RenameFolderLinked` | src/officex-canisters-backend/src/lib.rs:306-378 | rename_folder, as written and corrected, keeps the tree when its repair finds the recorded parent or nothing |
| `TreeKeep.TrimsSameTree` | src/officex-canisters-backend/src/lib.rs:449-541 | a deletion keeps every folder's parent and lists and every surviving file's folder |
| `TreeKeep.DeleteFileLinked` | src/officex-canisters-backend/src/lib.rs:502-541 | delete_file keeps the tree |
| `TreeKeep.DeleteTreeLinked` | src/officex-canisters-backend/src/lib.rs:449-500 | delete_folder, as written and corrected, keeps the tree, whatever the outcome |
| `Fetch.PresentFolders` | src/officex-canisters-backend/src/lib.rs:661-666 | the records of exactly the listed folders that have one (deleted ones included) |
| `Fetch.PresentFiles` | src/officex-canisters-backend/src/lib.rs:668-673 | the records of exactly the listed files that have one (purged ones skipped) |
| `Fetch.PageEnd` | src/officex-canisters-backend/src/lib.rs:678 | the end is `after + limit` cut to the number of entries |
| `Fetch.FolderItems` | src/officex-canisters-backend/src/lib.rs:683-685 | the folder entries of a page, one per record, in order |
| `Fetch.FileItems` | src/officex-canisters-backend/src/lib.rs:686-694 | the file entries of a page, one per record, in order |
| `Fetch.ItemsOf` | src/officex-canisters-backend/src/lib.rs:697 | a page has as many entries as folders plus files |
| `Fetch.PageEndAdjacent` | src/officex-canisters-backend/src/lib.rs:678 | cutting at `after + limit`, then at `limit2` further, is cutting at `after + limit + limit2` |
| `Fetch.PaginateSlice` | src/officex-canisters-backend/src/lib.rs:675-704 | the page is the slice `[after, end)` of folders then files, total is its length (at most `limit`), and more remain exactly when `end` is before the last entry |
| `Fetch.Paginate` | src/officex-canisters-backend/src/lib.rs:675-704 | the total is the number of records returned, at most `limit`, and more remain only after a full page |
| `Fetch.Listing` | src/officex-canisters-backend/src/lib.rs:657-673 | at most one record per listed id on each side, and every listed file that has a record is in it |
| `Fetch.FetchAt` | src/officex-canisters-backend/src/lib.rs:653-711 | the total is the number of records returned, at most `limit`, and more remain only after a full page |
| `Fetch.FetchAtPage` | src/officex-canisters-backend/src/lib.rs:653-711 | an unresolved path gives the empty page; otherwise the slice `[after, min(after + limit, n))` of the listing, its length, and whether entries remain |
| `Fetch.PageItems` | src/officex-canisters-backend/src/lib.rs:683-695 | the entries of a page, as the slice of the listing |
| `Fetch.PaginateAdjacent` | src/officex-canisters-backend/src/lib.rs:675-704 | the page at `after` followed by the page at its end is the page over both spans |
| `Backend.DeleteTreeUnfolds` | src/officex-canisters-backend/src/lib.rs:449-500 | delete_folder is: unkey, the subfolder loop, then the files and the mark |
| `Backend.FinishCases` | src/officex-canisters-backend/src/lib.rs:475-495 | the end of delete_folder returns a failure of the subfolder loop as it stands and otherwise runs on the tables that loop left |
| `Backend.State.constructor` | src/officex-canisters-backend/src/lib.rs:94-105 | four empty tables and the counter at zero |
| `Backend.State.Db` | src/officex-canisters-backend/src/lib.rs:83-90 | no contract: the four tables and the counter read as one value, the state every method is specified on |
| `Backend.State.GenerateUniqueId` | src/officex-canisters-backend/src/lib.rs:838-856 | the id of the current counter value, which then grows by one; the tables are unchanged |
| `Backend.State.EnsureRootFolder` | src/officex-canisters-backend/src/lib.rs:713-739 | the new state and result are `Folders.EnsureRoot` of the old state |
| `Backend.State.WalkSegments` | src/officex-canisters-backend/src/lib.rs:168-206 | the segment loop leaves what `Folders.Walk` computes |
| `Backend.State.StepSegment` | src/officex-canisters-backend/src/lib.rs:169-205 | one pass leaves what `Folders.Step` computes |
| `Backend.State.CreateFolder` | src/officex-canisters-backend/src/lib.rs:125-210 | create_folder leaves what `Folders.CreateFolder` computes |
| `Backend.State.EnsureFolderStructure` | src/officex-canisters-backend/src/lib.rs:741-788 | ensure_folder_structure leaves what `Folders.EnsureFolders` computes |
| `Backend.State.EnsureUnder` | src/officex-canisters-backend/src/lib.rs:747-787 | the root, then one pass per piece, as `Folders.EnsureUnder` |
| `Backend.State.UpdateFolderFileUuids` | src/officex-canisters-backend/src/lib.rs:212-222 | leaves what `Upsert.UpdateFolderFileUuids` computes |
| `Backend.State.UpsertFileToHashTables` | src/officex-canisters-backend/src/lib.rs:224-284 | leaves what `Upsert.UpsertFile` computes |
| `Backend.State.UpsertAt` | src/officex-canisters-backend/src/lib.rs:230-283 | leaves what `Upsert.UpsertAt` computes |
| `Backend.State.WriteVersion` | src/officex-canisters-backend/src/lib.rs:237-281 | leaves what `Upsert.UpsertTail` computes |
| `Backend.State.MoveFolderKey` | src/officex-canisters-backend/src/lib.rs:631-633 | leaves what `Renames.MoveFolder` computes: the folder carries the new key, the key is bound to it, the old key is unbound when different, nothing else changes |
| `Backend.State.UpdateSubfolderPaths` | src/officex-canisters-backend/src/lib.rs:624-651 | leaves what `Renames.UpdatePaths` computes and keeps children younger; on a tree every folder below gets its rewritten path and is bound under it unless another rewritten folder has that path (`Subtrees.UpdatePathsRewrites`, `Subtrees.UpdatePathsBinds`), every file below likewise (`Subtrees.UpdatePathsFileRewrites`, `Subtrees.UpdatePathsFileBinds`), and every other record and key is kept (`Subtrees.UpdatePathsFrame`, `Subtrees.UpdatePathsFolderKey`) |
| `Backend.State.MoveSubfolders` | src/officex-canisters-backend/src/lib.rs:626-637 | leaves what `Renames.UpdateSubfolders` computes: on a tree each listed subfolder's subtree rewritten and re-bound (`Subtrees.UpdateSubfoldersRewritesAt`, `Subtrees.UpdateSubfoldersBinds`, `Subtrees.UpdateSubfoldersFileBinds`), everything outside kept (`Subtrees.UpdateSubfoldersFrame`) |
| `Backend.State.MoveSubtreeAt` | src/officex-canisters-backend/src/lib.rs:627-635 | leaves what `Renames.MoveSubtree` computes: on a tree the subfolder gets `replace(path, from, to)` (`Subtrees.MoveSubtreeHead`) and its subtree is rewritten and re-bound (`Subtrees.MoveSubtreeRewritesAt`, `Subtrees.MoveSubtreeBinds`, `Subtrees.MoveSubtreeFileBinds`) |
| `Backend.State.MoveFileKey` | src/officex-canisters-backend/src/lib.rs:641-648 | leaves what `Renames.MoveFile` computes: the file's path is `replace(path, from, to)`, bound to it, the old path unbound when different, nothing else changes |
| `Backend.State.MoveFilePaths` | src/officex-canisters-backend/src/lib.rs:640-649 | leaves what `Renames.MoveFiles` computes: every listed file rewritten and re-bound (`Renames.MoveFilesRewrites`, `Renames.MoveFilesBinds`), every other file and key kept (`Renames.MoveFilesOther`, `Renames.MoveFilesKey`) |
| `Backend.State.RenameFolder` | src/officex-canisters-backend/src/lib.rs:306-378 | leaves what `Renames.RenameFolderCorrected` computes |
| `Backend.State.RenameAt` | src/officex-canisters-backend/src/lib.rs:353-371 | leaves what `Renames.RenameAt` computes |
| `Backend.State.RelocateFolder` | src/officex-canisters-backend/src/lib.rs:341-354 | leaves what `Renames.Relocate` computes |
| `Backend.State.RenameFile` | src/officex-canisters-backend/src/lib.rs:381-447 | leaves what `Renames.RenameFile` computes |
| `Backend.State.DeleteFile` | src/officex-canisters-backend/src/lib.rs:502-541 | leaves what `Deletes.DeleteFile` computes |
| `Backend.State.DeleteFileList` | src/officex-canisters-backend/src/lib.rs:477-480 | the file loop leaves what `Deletes.DeleteFiles` computes |
| `Backend.State.DeleteTree` | src/officex-canisters-backend/src/lib.rs:449-500 | leaves what `Deletes.DeleteTree` computes and keeps children younger |
| `Backend.State.FinishFolder` | src/officex-canisters-backend/src/lib.rs:475-495 | leaves what `Deletes.Finish` computes |
| `Backend.State.DeleteSubfolderList` | src/officex-canisters-backend/src/lib.rs:470-473 | the subfolder loop leaves what `Deletes.DeleteSubfolders` computes |
| `Backend.State.DeleteFirst` | src/officex-canisters-backend/src/lib.rs:470-473 | one pass: a failure is the loop's outcome, otherwise the loop over the rest remains |
| `Backend.State.DeleteFolder` | src/officex-canisters-backend/src/lib.rs:449-500 | leaves what `Deletes.DeleteFolderCorrected` computes and keeps children younger |
| `Backend.State.UpsertCloudFileWithLocalSync` | src/officex-canisters-backend/src/lib.rs:543-608 | returns Ok of the new id and leaves what `Sync.SyncFile` computes |
| `Backend.State.SyncAt` | src/officex-canisters-backend/src/lib.rs:549-606 | leaves what `Sync.SyncAt` computes |
| `Backend.State.WriteSynced` | src/officex-canisters-backend/src/lib.rs:557-606 | leaves what `Sync.SyncTail` computes |
| `Backend.State.StripChain` | src/officex-canisters-backend/src/lib.rs:560-570 | the `while` walk down the prior chain returns `Sync.ChainStrip` of the list |
| `Backend.State.UpsertCloudFolderWithLocalSync` | src/officex-canisters-backend/src/lib.rs:610-622 | returns Ok of the folder id and leaves what `Sync.SyncFolder` computes |
| `Backend.State.FetchFilesAtFolderPath` | src/officex-canisters-backend/src/lib.rs:653-711 | the collected records, paged, equal `Fetch.FetchAt` of the tables |
| `Backend.State.CollectFolders` | src/officex-canisters-backend/src/lib.rs:661-666 | the first loop collects `Fetch.PresentFolders` of the subfolder list |
| `Backend.State.CollectFiles` | src/officex-canisters-backend/src/lib.rs:668-673 | the second loop collects `Fetch.PresentFiles` of the file list |

## Left out

- Ids: the hash in `generate_unique_id` (SHA-256 over the canister id, the clock, the caller and the counter) is not modelled. An id is the counter value it consumed, assuming the hash is injective on those values.
- The clock and the caller are parameters (`now` in nanoseconds, `user`). They are not read from the host.
- `ID_COUNTER` is a `u64` and is modelled as an unbounded `nat`: it cannot wrap in any reachable run.
- `file_version + 1` on a `u32` is modelled as wrapping at 2^32 (`Metadata.WrappingInc`), as a release build does. A debug build would panic instead.
- `Metadata.OrMs`: the bitwise OR with which both sync merges combine the client's stamp with the clock is computed on `bv64`. No property of it is stated.
- Logging (`ic_cdk::println!`), the Candid and Serde derives, and the `ping` method are not modelled.
- The `owner` and `username` fields, `update_username`, `sanitize_username` and `is_valid_username` are not modelled. They are regex checks, and the owner check goes through the host caller. `State::new` is modelled only for its four empty tables.
- `snapshot_hashtables` and `StateSnapshot` are not modelled. They copy the tables for serialisation, and the copied username is the text after the last `@`, which is the owner principal.
- The canister entry points and the thread-local `STATE` are not modelled. They only delegate to `State`.
- The factory canister is not part of this model.
- The `unwrap()` calls at lib.rs lines 240, 547 and 613 become preconditions: the looked-up record exists.
  - For line 240 this is implied by `Tables.Valid`: the file index is sound.
- `ensure_folder_structure` requires a `::` in its path, because it indexes `path_parts[1]`.
- The pagination requires `after` within the listing and `after + limit` within a 32-bit `usize`, because the slice panics and the addition overflows otherwise.
- The recursion of `delete_folder` and `update_subfolder_paths` is modelled for tables whose children are younger than their parents (`ChildrenYounger`). Every operation but `rename_folder` keeps this property, and it is the termination measure. On tables where that rename's parent repair broke it, the rewrite and the recursive delete are not modelled. On a cyclic subfolder graph the source recurses without end.
- The `while` walk of the file sync is modelled for prior links that point to older ids (`Sync.PriorsOlder`). `Tables.Valid` implies this.
- `Renames.RenameFolderValid`: does not promise that children stay younger than their parents. The parent repair can list the renamed folder under a folder that is younger than it.
- `Renames.RenameNestedFolderCorrected`: proved only for a folder without subfolders. The subtree rewrite can rebind the parent's key when an old key occurs inside a descendant's path.
- `Renames.RenameFolderLeaf`: the exact new folder index is stated only for a folder with no subfolders and no files. Otherwise `Renames.RenameFolderFrame` and `Renames.UpdatePathsIndexes` give the shape and the index invariants, not every key.
- `Upsert.UpsertAt`, `Sync.SyncAt`: the functions' own contracts give the new id, and for the upsert the binding of the path to the new record. The rest of their effect is stated by the lemmas listed beside them.
- The class methods take the already-split parts of a path (`Backend.State.UpsertAt`, `Backend.State.SyncAt`). The lemmas about upsert and sync are stated over those parts, with proper segments as `Paths.Segments` produces them.
- `Sync.SyncFolderValid`: the folder index keeps agreeing with the records only when the client's path equals the stored one. With another path the old key stays bound, as `Sync.SyncFolderStaleKey` shows.
- `TreeKeep.SyncFolderLinked`: the tree is promised only when the client sends the parent the record has. The folder sync copies any parent, and `TreeKeep.SyncFolderUnlinks` shows it can break the tree.
- `TreeKeep.RenameFolderLinked`, `TreeKeep.RenameAtLinked`: the tree is promised only when the parent repair finds the recorded parent or nothing. That the key it looks up names the recorded parent is not proved, and `TreeKeep.RenameAtUnlinks` shows what happens otherwise.
- `Backend.State.RenameFolder`, `Backend.State.DeleteFolder`: the class methods carry the corrected behaviour of the two findings below. The code as written is `Renames.RenameFolder` and `Deletes.DeleteFolder`.

## Findings

| source | as written | input that shows it | evidently intended | confidence | as-written member | corrected member |
|---|---|---|---|---|---|---|
| src/officex-canisters-backend/src/lib.rs:358 | the parent is looked up under `<ns>::<parent part>`, without the `/` that ends every folder key | rename the folder `HardDrive::a/b/` (created by `create_folder("HardDrive::a/b")`) to `c`: the record and the index become `HardDrive::a/c/`, then the lookup of `HardDrive::a` fails and the call returns "Parent folder not found" | look the parent up under `<ns>::<parent part>/` and return Ok | high (not executed) | `Renames.RenameNestedFolderFails` | `Renames.RenameNestedFolderCorrected` |
| src/officex-canisters-backend/src/lib.rs:479 | delete_folder stops at the first listed file without a record, but delete_file leaves the deleted file in its folder's `file_uuids` on purpose (lib.rs:516) | upsert `HardDrive::a/f.txt`, delete that file, then delete the folder `HardDrive::a/`: "File not found", with the folder's key already removed and the folder not marked deleted | pass over listed files that are already gone and mark the folder deleted | medium (not executed) | `Deletes.DeleteFolderAfterFile` | `Deletes.DeleteFolderCorrectedAfterFile` |
