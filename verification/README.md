# Verification of the storage, agent, terminal and downloader services

A Dafny model of the parts of the system that keep several pieces of mutable state in step, with
proofs of what they keep. Verify it with `dafny verify dfyconfig.toml`.

## What is modelled

**Storage** (`crates/storage`). The physical tree is a map from object path to directory or bytes
(`FileTree`), with the operations of the OpenDAL file system backend. `cloud_files` is a map keyed
by its UNIQUE key, `trash_items` a map from id to row, and the uuid generator a counter
(`StorageState`). `LIKE` is a matcher with `%`, `_` and the backslash escape (`Like`). Two
invariants tie the pieces together. *Agreement*: below every registered user's home and outside
`.Trash`, a path is on disk exactly when its key is in the index, with the same kind and size; and
every row's name is a single path component.
*Integrity*: every file row of the trash names an existing blob of its size, no two name the same
one; *no orphans* adds that every blob has a row.

Each operation is described twice. The functions of `StorageIndex`, `StorageRename`,
`StorageTrash`, `StorageRestore` and `StorageRequests` say what it makes of a whole state. The
class `StorageService.Service` performs it step by step, statement by statement, and each method is
proved to end in the state the function gives; its ghost `trail` records the tree after every
physical step. What the service promises is then proved about the functions: exactly when an
operation keeps the agreement (`StorageIndex`, `SaveNames`, `StorageRename`, `StorageTrash`,
`StorageRoundTrip`), integrity (`TrashIntegrity`, and inside `.Trash` `TrashPaths`, `HomeDeletion`,
`HomeRestore`), which names keep a save in the owner's home (`SaveContainment`), delete followed by restore
(`TrashRoundTrip` for the states, `RequestRoundTrip` and `FileRoundTrip` for the requests), permanent
deletion (`PermanentDelete`), what a deletion records and the purger takes (`TrashRecords`), every
intermediate tree (`CrashSafety`), and every run of requests (`StorageRuns`, for the class `ServiceRuns`).
`AccessLaws` says who may do what, and `RequestEffects` what single requests do to the disk and the
tables, path by path and row by row.

**Agent** (`crates/agent`). `AgentRuntime` is the tool loop against an arbitrary provider and
arbitrary tools; `AgentSession` turns its events into rows and the last rows into the next history.

**Terminal** (`crates/kernel`). `Terminal` is the component stack of resolve_path and the working
directory it feeds.

**Downloader** (`crates/downloader`). `Magnet` is the link enrichment, `HttpDownload` the resumable
append loop against a server, `TorrentSync` the index kept by the torrent monitor.

## Where the code does less than one might expect

These are results of the model; the table below names the lemmas that say when each of them occurs.

- A subtree `LIKE` built from a path with `%` or `_` reaches other directories; it never misses a
  descendant. A move or delete of such a path goes wrong exactly when a row stands there.
- mkdir, save_file and a move below a missing parent create directories that get no row.
- save_file does not check the name: with a slash in it the bytes go to a sub-directory, and the row
  to a name that no path leads to; with `..` in it they can go to another home.
- A direct file with a backslash in its name is looked for elsewhere when its directory is deleted; the
  delete then stops half-way.
- A move onto an existing file moves the bytes and then fails on the UNIQUE key.
- Deleting a home, `.Trash` or `.Trash/blobs` is not refused, and takes the blobs of the user's trash
  along; nor is deleting, moving or overwriting a single blob.
- The directory walk removes a directory before its sub-directories are visited, so files deeper than
  the first level are neither archived nor recorded.
- A directory below the top level of the trash is restored with a root that lacks its leading slash;
  unless that root begins with a wildcard it matches no row, and only the item's own row is dropped.
- The root of a restored directory gets no index row.
- A restore onto a home makes a directory called User inside it, without a row, and may write over a
  blob below `.Trash`.
- Permanent deletion binds its directory without the leading slash, so it finds top-level items only,
  and never a file.
- Two trashed files of one trash path: restoring one drops both rows and deletes one blob.
- A connection that breaks during a download is marked done like one that ends; a finished file that
  is resumed is marked failed.
- cd `~/~` and then `x` is not `~/~/x`.
- The 50-row window may start with a tool result whose call it cut off.

## Model

| member | source | states |
|---|---|---|
| VirtualPath.NormalizeIdempotent | crates/storage/src/storage_service.rs:311-316 | Normalising twice is normalising once, and the fixed points are exactly the rendered lists of valid components. |
| VirtualPath.NormalizeStep | crates/storage/src/storage_service.rs:311-316 | One more piece after a slash or a backslash: a valid name is appended, an empty one, `.` or `..` is dropped; the empty path gives the root. |
| VirtualPath.NormalizeAppend | crates/storage/src/storage_service.rs:311-316 | Whatever is appended to a normalised path, normalisation cannot climb out of it. |
| VirtualPath.UnderIsPrefix | crates/storage/src/storage_service.rs:971-977 | On normalised paths the string test `p` or `p/...` is the prefix relation on components, both ways. |
| VirtualPath.ResolveHomePath | crates/storage/src/storage_service.rs:388-400 | Every normalised `/User` path resolves to `vol1` followed by the path itself. |
| VirtualPath.ResolveInjective | crates/storage/src/storage_service.rs:388-400 | Two normalised `/User` paths resolve to the same object if and only if they are equal, whoever asks. |
| VirtualPath.ResolveParentThenName | crates/storage/src/storage_service.rs:1107-1108 | For any name at all, resolving a parent and appending `/name` addresses the object of the joined path if and only if the joined path is already normalised. |
| VirtualPath.JoinedPath | crates/storage/src/storage_service.rs:1107-1112 | For any name without `..` the object written is the directory followed by the pieces of the name, empty ones and `.` dropped; for any name at all the directory made first is spelled by all pieces but the last. |
| Like.SqlSubtreeIsExact | crates/storage/src/storage_service.rs:971-977 | `dir = p or dir like p/%` selects, for every directory, exactly the component-prefix relation if and only if `p` has no `%` or `_`. |
| Like.DescendantsSelected | crates/storage/src/storage_service.rs:971-977 | With or without wildcards the pattern never misses a real descendant. |
| Like.WildcardSweepsStranger | crates/storage/src/storage_service.rs:902-921 | For every path with a wildcard there is a normalised directory outside its subtree that its pattern selects. |
| StorageState.RoutedKey | crates/storage/src/storage_service.rs:601-615 | Owner, parent and file name of a normalised `/User` path form a key whose path is that path; the two-component paths are exactly the homes. |
| StorageState.AccessExact | crates/storage/src/storage_service.rs:949-959 | A request is let through exactly for a path at or below the home of one user who is the requester, or for whom admin asks; it is a bad request exactly when the path is in no home, and forbidden otherwise. |
| AccessLaws.MoveAccess | crates/storage/src/storage_service.rs:846-874 | A move is granted exactly when both paths are in one home and the requester is its owner or admin; it is a bad request exactly when one of them is in no home, and forbidden otherwise. |
| AccessLaws.AccessDecides | crates/storage/src/storage_service.rs:580-966 | Every request without permission for the paths it is judged by leaves the whole state as it was and is answered as bad if one of them is in no home, as forbidden if not; with permission none is forbidden. |
| StorageIndex.MkdirAgreement | crates/storage/src/storage_service.rs:580-639 | mkdir succeeds and keeps index and tree in agreement exactly when the path is free and its parent is a directory; it breaks the agreement exactly when the path is free and its parent is not. |
| RequestEffects.MkdirEffect | crates/storage/src/storage_service.rs:580-639 | Path by path: a path with a row is a database error without effect; otherwise the row of an empty directory is added, and the directory and those above it are made unless a file stands there, which is an I/O error. |
| RequestEffects.MkdirHomeRefused | crates/storage/src/storage_service.rs:607-609 | A home cannot be made: a bad request without effect. |
| RequestEffects.MkdirUnregistered | crates/storage/src/storage_service.rs:617-622 | Nor anything in the home of an unregistered owner: a database error without effect. |
| RequestEffects.SaveEffect | crates/storage/src/storage_service.rs:1080-1140 | A name of one component: an I/O error exactly when a file stands above or a directory at the path, and the index is then as before; otherwise the bytes are there and the row has their size and keeps its id, or, for an unregistered owner, a database error without a row. No other object but missing directories above and no other row changes. |
| SaveNames.SaveNamedAgreement | crates/storage/src/storage_service.rs:1080-1140 | For every name without `..` that does not lead into `.Trash`: save_file succeeds exactly when the name does not end in a slash or `.`, the directories above can be made and no directory has the path; index and tree agree afterwards exactly when no directory had to be made and no row with a slash in its name was written. |
| SaveNames.TrashSaveAgreement | crates/storage/src/storage_service.rs:1080-1140 | A name that leads into `.Trash` leaves index and tree in agreement exactly when no row with a slash in its name is written. |
| SaveNames.SlashRowDisagrees | crates/storage/src/storage_service.rs:1118-1137 | Any name with a slash that is saved at all, `..` among its pieces or not, leaves a row that belongs to no path. |
| SaveContainment.SaveContained | crates/storage/src/storage_service.rs:1092-1113 | For every granted directory and every name: whatever the state and the bytes, the save changes nothing outside the owner's home, if and only if following the pieces of the name never leads out of it. |
| SaveContainment.SiblingSave | crates/storage/src/storage_service.rs:1107-1113 | Such a name: `../b/n` saved into the home of a is written into the home of b, and the request succeeds. |
| StorageRename.PlanOnRow | crates/storage/src/storage_service.rs:892-921 | On one row of the owner the three successive updates are one simultaneous substitution of the source by the target if and only if the third does not sweep it away: its pattern selects the row's directory outside the subtree and changes it. |
| StorageRename.PlanIsSubstitution | crates/storage/src/storage_service.rs:892-921 | Without wildcards they are that substitution on every key; each subtree row is rewritten once, every other row never. |
| StorageRename.PlanExact | crates/storage/src/storage_service.rs:892-921 | For every table the three updates are that substitution if and only if the source path has no LIKE wildcard. |
| StorageRename.LiteralIsFaithful | crates/storage/src/storage_service.rs:902-921 | A source path without wildcards sweeps no row away, whatever the table holds. |
| StorageRename.PlanFitsFreeTarget | crates/storage/src/storage_service.rs:892-921 | With no row at or below the target and no row swept away, none of the three statements can meet the UNIQUE key, in whatever order rows are updated. |
| StorageRename.RenameAgreement | crates/storage/src/storage_service.rs:876-921 | For any path, wildcards included: a move succeeds and leaves the index of the moved tree exactly when the source exists, the target is free and not inside it, the target's parent is a directory, and no row of the owner is swept away; the rows have then followed the substitution. |
| StorageRename.MoveOntoFile | crates/storage/src/storage_service.rs:884-921 | A file moved onto an indexed file overwrites its bytes, then the request fails with the index unchanged and no longer in agreement. |
| RequestEffects.MoveEffect | crates/storage/src/storage_service.rs:876-884 | A granted move: the directory above the target is made if no file is in the way; then either the file system refuses the rename and nothing else changes, or every object at or below the source is, with its bytes, at the same place below the target and no other object has changed. |
| RequestEffects.MoveUnregistered | crates/storage/src/storage_service.rs:884-890 | In the home of an unregistered owner the bytes move, the rows do not, and the answer is a database error. |
| StorageRename.FirstStatementStays | crates/storage/src/storage_service.rs:892-921 | The statements are not one transaction: when a later one fails, the row of the source has its new key all the same if nothing was in the way of the first. |
| StorageTrash.ArchiveWorks | crates/storage/src/storage_service.rs:34-53 | Archiving any file succeeds, moves it to its blob and changes nothing else but the blob directory. |
| StorageTrash.WalkWorks | crates/storage/src/storage_service.rs:100-146 | A directory walk whose direct files are all found, each where its normalised name leads and no two at one place, succeeds, removes the whole subtree, leaves the index alone, and moves those files into blobs. |
| StorageTrash.WalkFrame | crates/storage/src/storage_service.rs:100-146 | After such a walk every object outside the subtree and not one of the blobs drawn for its files is as before, but for the blob directory. |
| StorageTrash.RowOrigin | crates/storage/src/storage_service.rs:109-146 | Each trash row after such a walk is an old row, the row of the directory, of one of its files or of one of its sub-directories, under the id drawn for it, of the user and the time of the deletion; a file's row has the listed name and the size of the file that name led to. |
| StorageTrash.RowPresent | crates/storage/src/storage_service.rs:109-146 | Conversely each of these rows is there, under its id, with that user and that time. |
| StorageTrash.OldRowKept | crates/storage/src/storage_service.rs:109-146 | And every old row is kept as it was. |
| StorageTrash.BlobHoldsFile | crates/storage/src/storage_service.rs:133-137 | The blob drawn for the j-th file holds the bytes of the file its name led to when the walk is over. |
| TrashRecords.DirectoryRecorded | crates/storage/src/storage_service.rs:100-146 | The request on a directory below a home, wherever it lies: each new row, read as a path of the home, is that of the directory or of one thing directly in it, has the user and the time, and for a file the size and a blob with the bytes its name led to; and each of these paths has such a row. |
| TrashRecords.DeletionDated | crates/storage/src/storage_service.rs:61-98 | Whatever a request deletes and wherever it stops: old rows stay as they are, and each new one belongs to the owner of the home and has the time of the request. |
| TrashRecords.PurgeSparesDeletion | crates/storage/src/storage_service.rs:1216-1232 | A purge with a cut-off no later than the deletion takes none of its rows and none of their blobs. |
| TrashRecords.PurgeExact | crates/storage/src/storage_service.rs:1216-1232 | Exactly the rows deleted before the cut-off leave, and of all objects exactly the blobs of the file rows among them. |
| FileRoundTrip.FileDeleted | crates/storage/src/storage_service.rs:984-995 | The request on a path below a home that is no directory: Ok exactly when something is there. Then its bytes are a new blob, the path is free, the index has lost its row and no other, and the trash has gained one row, with the full parent, the name, the size, that blob and the time. |
| RequestEffects.DirectoryDeleted | crates/storage/src/storage_service.rs:968-983 | A directory deleted with Ok is gone with everything below it, its row and the rows below it too; of the other rows only those its pattern reaches are, and none if the path has no wildcard. |
| RequestEffects.DeleteNothing | crates/storage/src/storage_service.rs:956-966 | Deleting what is not there is an I/O error, and deleting in the home of an unregistered user a database error, both without effect. |
| StorageTrash.DeleteFileAgreement | crates/storage/src/storage_service.rs:984-995 | Deleting a tracked path that is no directory keeps the agreement, and succeeds exactly when it is a file. |
| StorageTrash.DeleteDirAgreement | crates/storage/src/storage_service.rs:968-983 | Deleting a directory succeeds exactly when every file directly in it is found where its normalised name leads, and no two at one place. If it succeeds, index and tree agree exactly when its LIKE pattern selects no row of another directory; if it stops, exactly when the first file of the listing was the one not found. |
| StorageTrash.LiteralHasNoStray | crates/storage/src/storage_service.rs:971-977 | A path without wildcards selects no row of another directory, whatever the index holds. |
| TrashRoundTrip.BackslashStopsDelete | crates/storage/src/storage_service.rs:121-137 | A direct file with a backslash in its name is looked for one level down: if it is not there the delete fails, and index and tree disagree as soon as the listing began with a file that was found. |
| HomeDeletion.DeleteOverBlobs | crates/storage/src/storage_service.rs:100-146 | The walk of a home, of `.Trash` or of `.Trash/blobs`: if it comes to its end nothing is left there, and the trash stays whole if and only if the user has no file row in it and no file lies directly in the directory; if it stops, if and only if no file archived so far was the blob of a row. |
| HomeDeletion.DeleteHomeIntegrity | crates/storage/src/storage_service.rs:945-983 | Deleting a home is accepted, goes through if the names directly in it are valid components, and then leaves no home; the trash stays whole if and only if the user has no file row in it and no file lies directly in the home. |
| HomeDeletion.DeleteTrashIntegrity | crates/storage/src/storage_service.rs:945-983 | The same for `.Trash` and `.Trash/blobs`; with nothing to lose the state stays valid and no blob is orphaned. |
| HomeDeletion.DeletingTrashHarms | crates/storage/src/storage_service.rs:945-983 | With a file of the user in the trash and no file directly in `.Trash`, deleting `.Trash` answers Ok and leaves the row without its blob. |
| HomeDeletion.DeletingBlobHarms | crates/storage/src/storage_service.rs:984-995 | Deleting the path of a row's own blob answers Ok and leaves the row without it. |
| StorageRestore.TrashAddressing | crates/storage/src/storage_service.rs:660-690 | A row listed under a trash directory is found again at `/Trash` plus that directory if and only if the directory does not itself begin with `/Trash`. |
| StorageRestore.NestedRootFindsNothing | crates/storage/src/storage_service.rs:700-715 | Below the top level the root of a restore lacks its leading slash: its query can select no recorded directory, if and only if the root does not begin with a wildcard. |
| StorageRestore.NestedRestoreForgets | crates/storage/src/storage_service.rs:698-791 | So restoring a directory item there restores nothing, drops exactly that item's row and answers Ok. |
| StorageRequests.NestedEraseDoesNothing | crates/storage/src/storage_service.rs:941-942 | Permanent deletion below the top level finds no item, answers Ok and changes nothing. |
| StorageRequests.EraseFindsNoFile | crates/storage/src/storage_service.rs:244-262 | No permanent deletion selects a trashed file: at the top level there are only directories, and below it nothing is found. |
| PermanentDelete.EraseTakesRows | crates/storage/src/storage_service.rs:244-309 | Permanent deletion of a listed item answers Ok; its row goes and every row at or below it, of the others only those its pattern reaches, so none without a wildcard; the rows that stay are unchanged. |
| PermanentDelete.EraseTakesBlobs | crates/storage/src/storage_service.rs:263-279 | The blobs of exactly these rows leave the disk; every other object and the index stay as they are. |
| PermanentDelete.OthersKeepBlobs | crates/storage/src/storage_service.rs:263-279 | A file row that stays keeps its blob. |
| PermanentDelete.ErasedFile | crates/storage/src/storage_service.rs:292-306 | The file branch: the file rows of the trash path go and the blob of the item, nothing else. |
| PermanentDelete.EraseNothing | crates/storage/src/storage_service.rs:936-942 | An item that is not listed is answered with Ok, /Trash itself with a bad request and an unregistered requester with a database error, all without effect. |
| StorageRestore.RestoreRowsFrame | crates/storage/src/storage_service.rs:716-769 | However far the restoring loop gets, no trash row and no object outside the owner's tracked paths has changed, for rows that do not lead into `.Trash`. |
| StorageRestore.SaneLands | crates/storage/src/storage_service.rs:716-731 | Below a target that is not a home no row can lead out of the target, whatever directory and name it records. |
| TrashIntegrity.ArchiveIntegrity | crates/storage/src/storage_service.rs:34-77 | An archived file gets a new blob and the one row that owns it; the trash stays whole if and only if the file was not itself the blob of a row, and then no orphan appears. |
| TrashIntegrity.DeleteFileIntegrity | crates/storage/src/storage_service.rs:984-995 | Deleting a file anywhere below the home, `.Trash` included, keeps every file row on an existing blob of its size and no two rows on one blob if and only if the path is no file or no row's blob; and then leaves no new orphan. |
| TrashIntegrity.DeleteDirIntegrity | crates/storage/src/storage_service.rs:100-146 | The walk of any directory below a home but `.Trash` and `.Trash/blobs` keeps the trash whole, whatever the shape of the subtree, the names in it and the point at which the walk ends; every new row is recorded below the user root, and no file directly at it. |
| TrashIntegrity.RowsLeave | crates/storage/src/storage_service.rs:263-291 | Rows that leave together with their blobs keep the rest whole, and orphan nothing if every file row among them was deleted by blob. |
| TrashIntegrity.PurgeIntegrity | crates/storage/src/storage_service.rs:1211-1236 | The 30-day purger keeps referential integrity and leaves no orphan. |
| TrashIntegrity.DirEraseIntegrity | crates/storage/src/storage_service.rs:260-291 | Permanent deletion of a directory item does so too, at any depth and with any wildcard. |
| TrashIntegrity.FileEraseIntegrity | crates/storage/src/storage_service.rs:292-306 | The file branch of permanent deletion keeps integrity, and leaves no orphan exactly when the trash path was held by that row alone; EraseFindsNoFile says that no request takes it. |
| TrashIntegrity.RestoreFileIntegrity | crates/storage/src/storage_service.rs:792-827 | Restoring a file to a path outside `.Trash` keeps integrity, and leaves no orphan exactly when it failed or its trash path was held by that row alone. |
| TrashIntegrity.RestoreDirIntegrity | crates/storage/src/storage_service.rs:698-791 | Restoring a directory to any place at or below a home keeps integrity and orphans nothing, at every outcome, as long as no row leads into `.Trash`; what happens if one does is RestoreOverBlobs. |
| TrashPaths.SaveIntegrity | crates/storage/src/storage_service.rs:1107-1113 | A save under any name, wherever its pieces lead, keeps the trash whole if and only if it fails or every row whose blob it overwrites has the size of the new bytes. |
| TrashPaths.SavingOverBlobHarms | crates/storage/src/storage_service.rs:1107-1113 | So `.Trash/blobs/` and a blob's id, saved into the home with another size, succeeds and leaves the row with a blob of the wrong size. |
| TrashPaths.TrashFileBlocks | crates/storage/src/storage_service.rs:34-53 | Once a file stands in the place of `.Trash` or `.Trash/blobs` no file of that home can be archived: every attempt fails and changes nothing. |
| TrashPaths.MoveIntegrity | crates/storage/src/storage_service.rs:876-884 | A move anywhere below a home keeps the trash whole if and only if no bytes move, or no row's blob moves along and none is overwritten by a file of another size. |
| TrashPaths.RestoreFileAnywhere | crates/storage/src/storage_service.rs:792-827 | A file restored to any path keeps the trash whole if and only if it fails, or a row that stays and whose blob it overwrites has the size of the restored file. |
| StorageRoundTrip.RestoreFileAgreement | crates/storage/src/storage_service.rs:792-827 | Restoring a file succeeds and keeps the agreement exactly when its blob exists, the target's parent is a directory and the target is not one. |
| StorageRoundTrip.RestoreOntoHomeAgreement | crates/storage/src/storage_service.rs:792-801 | Restoring a file onto a home fails, and keeps the agreement if and only if the home already holds something called User: that directory is made, since the home's parent resolves into the home. |
| HomeRestore.RestoreOverBlobs | crates/storage/src/storage_service.rs:698-791 | A directory restored anywhere: if it succeeds the trash stays whole if and only if every file row that stays has the size of the row whose bytes end up at its blob, traced through the rows that lead there; if it stops, if and only if every file row of the trash has. |
| HomeRestore.RestoreOverBlob | crates/storage/src/storage_service.rs:716-791 | One file row that leads to the blob of another: the request succeeds, and integrity is kept if and only if both files have one size. |
| HomeRestore.LandingHarms | crates/storage/src/storage_service.rs:716-791 | A concrete valid state in which restoring a directory onto the home does this to two files of different sizes. |
| HomeRestore.ClearRestoreKeeps | crates/storage/src/storage_service.rs:698-791 | If no row leads to a row's blob, to `.Trash` or to `.Trash/blobs`, a restore anywhere at or below a home keeps the trash whole and the state valid, wherever it stops. |
| TrashRoundTrip.RestoreDirAgreement | crates/storage/src/storage_service.rs:698-791 | Restoring a directory whose rows are free to go directly below the target succeeds, and leaves index and tree in agreement if and only if the target was indexed already or there was nothing to restore. |
| StorageRoundTrip.RestoreRowsWorks | crates/storage/src/storage_service.rs:716-769 | Restoring rows recorded directly under the restored root to free destinations succeeds; every object and every index entry afterwards is given by the last row for it, all others are as before. |
| RequestEffects.DestFollows | crates/storage/src/storage_service.rs:716-727 | A row at any depth below the root goes to the same place below the target; one that only the pattern reached goes directly into it. |
| RequestEffects.RowRestored | crates/storage/src/storage_service.rs:728-769 | A restored row of any depth: the bytes of its blob at its place and an index row of the recorded size, or a directory with a row that is left as it was if there was one; no other index row and nothing of the trash changes. |
| RequestEffects.RowsIndexed | crates/storage/src/storage_service.rs:716-769 | After a finished loop every row, at any depth, has an index row at its place, files with the recorded size. |
| RequestEffects.OtherRowsStay | crates/storage/src/storage_service.rs:716-769 | However far the loop gets, index rows that are no row's place are unchanged. |
| RequestEffects.RestoreNothing | crates/storage/src/storage_service.rs:677-690 | Restoring what is not in the trash is a bad request, and of an unregistered requester a database error, without effect. |
| TrashRoundTrip.ContentsSurviveIffFlat | crates/storage/src/storage_service.rs:100-146 | Every file of a deleted directory is found in the trash under its own address, with its bytes, if and only if each lies directly in the directory and its normalised name leads to its own bytes. |
| TrashRoundTrip.GatheredIffFlat | crates/storage/src/storage_service.rs:100-146 | Where all direct files are found at their own paths that is the case exactly when no file lies deeper than the directory itself. |
| TrashRoundTrip.QueryFindsChildren | crates/storage/src/storage_service.rs:705-715 | The restore of a top-level directory, deleted with all direct files found at their own paths, finds exactly one row per direct child, describing it. |
| RequestRoundTrip.DeleteThenRestore | crates/storage/src/storage_service.rs:641-791 | The two requests, from their paths: delete of a directory of the home, then rename of `/Trash/name`. Both answer Ok, trash rows and blobs are what they were, and index and tree agree afterwards exactly when the target directory existed or there was nothing to restore. |
| RequestRoundTrip.ChildRestored | crates/storage/src/storage_service.rs:716-769 | Each direct child comes back with its bytes and its index entry, size included, under the new path. |
| RequestRoundTrip.RestoredIffFlat | crates/storage/src/storage_service.rs:698-791 | The restored subtree equals the deleted one exactly when the directory had no grandchildren. |
| FileRoundTrip.FileDeleteThenRestore | crates/storage/src/storage_service.rs:641-828 | The two requests on a file anywhere below a home, from their paths: delete, by its owner or admin, then rename of its path in /Trash to any path. The first answers Ok; the second does, and leaves index and tree in agreement, exactly when the target's parent is a directory and the target is not one. |
| FileRoundTrip.FileBack | crates/storage/src/storage_service.rs:792-827 | If both answer Ok the bytes are at the target with an index row of their size, no index row but those of the two paths has changed, and the trash is what it was. |
| FileRoundTrip.BlobsBack | crates/storage/src/storage_service.rs:792-827 | And so is every blob of every user. |
| CrashSafety.DeleteFileLosesNothing | crates/storage/src/storage_service.rs:34-53 | In every tree a file deletion passes through, the bytes are at the source or in the blob. |
| CrashSafety.RestoreFileLosesNothing | crates/storage/src/storage_service.rs:792-827 | In every tree a file restore passes through, the bytes are in the blob or at the destination. |
| CrashSafety.RestoreDirLosesNothing | crates/storage/src/storage_service.rs:716-779 | In every tree a directory restore passes through, at any depth, each file with a destination of its own outside `.Trash` is in its blob or at that destination. |
| CrashSafety.DeleteFileTrail | crates/storage/src/storage_service.rs:34-53 | A finished file deletion passes through two trees: the blob directory made, then the state it leaves. |
| CrashSafety.RestoreFileTrail | crates/storage/src/storage_service.rs:792-827 | A finished file restore passes through three: directory made, bytes written with the blob still there, blob gone. |
| CrashSafety.RestoreDirTrail | crates/storage/src/storage_service.rs:698-791 | The last tree a directory restore passes through is the one it leaves, finished or stopped. |
| StorageRuns.StepIntegrity | crates/storage/src/storage_service.rs:580-1236 | Any request below the homes, `.Trash` included, granted or refused, keeps the state valid, the trash whole and its rows rooted, unless it takes or overwrites a row's blob; and without orphans outside `.Trash`, unless it restores a file that shares its trash path. |
| StorageRuns.OutsideTrashHarmless | crates/storage/src/storage_service.rs:580-1236 | No request on paths outside `.Trash` takes or overwrites a row's blob, whatever its names, its trash path and its answer. |
| StorageRuns.StepAgreement | crates/storage/src/storage_service.rs:580-1236 | A request outside `.Trash` whose parents exist, whose saved name is one component, whose move target is free, whose LIKE patterns reach no row elsewhere, whose deleted directory has all its direct files found or not one of them, and whose restored directory has free destinations and an indexed target keeps index and tree in agreement, whatever it answers. |
| StorageRuns.RunIntegrity | crates/storage/src/storage_service.rs:580-1236 | On every run of requests at or below the homes, `.Trash` included, that delete no home and take or overwrite no row's blob, every file row of the trash names an existing blob of its own and every row stays rooted; no blob is orphaned on runs outside `.Trash` whose restored files do not share a trash path. |
| StorageRuns.RunAgreement | crates/storage/src/storage_service.rs:580-1236 | On every run of requests like those of StepAgreement index and tree agree in every state. |
| FreshState.NewStateIsSound | crates/auth/src/auth_service.rs:57-60 | The storage root with the home made for each user at registration and nothing else is valid, agrees with its empty tables and has a whole, rooted trash without orphans: such runs can start. |
| ServiceRuns.Handle | crates/storage/src/storage_service.rs:580-1236 | The class does what the runs are made of: each request takes it to a state and an answer that Serves allows. |
| ServiceRuns.HandleKeeps | crates/storage/src/storage_service.rs:580-1236 | So, request by request, the running service keeps the trash whole on harmless requests, and tree and index in agreement on tidy ones. |
| StorageService.Service.Mkdir | crates/storage/src/storage_service.rs:580-639 | The whole new state and the answer, from the path string on: row first, then the directory. |
| StorageService.Service.SaveFile | crates/storage/src/storage_service.rs:1080-1140 | Parents, bytes, then the upserted row, for a name of any form, `.` and `..` included; a failed write leaves only the parents. |
| StorageService.Service.WriteAndIndex | crates/storage/src/storage_service.rs:1109-1139 | Parents, bytes and row of one object with the trees passed through. |
| StorageService.Service.SaveAtPath | crates/storage/src/storage_service.rs:1108-1139 | The same for a path in any spelling, its `..` resolved piece by piece. |
| StorageService.Service.UpdateRows | crates/storage/src/storage_service.rs:905-911 | One UPDATE run row by row in any order: the rekeyed table, or the old one when a key conflicts; it cannot fail when no key is in the way. |
| StorageService.Service.MoveRows | crates/storage/src/storage_service.rs:892-921 | The three statements up to the first failure; all three when the plan fits the table. |
| StorageService.Service.Rename | crates/storage/src/storage_service.rs:641-926 | Restores from `/Trash` and moves otherwise, with the state and answer of each. |
| StorageService.Service.Move | crates/storage/src/storage_service.rs:846-921 | Checks, physical rename, then the rows. |
| StorageService.Service.HashAndArchive | crates/storage/src/storage_service.rs:34-53 | The blob's name and size, the new tree, and the error when the object is missing, a directory or cannot be moved. |
| StorageService.Service.VisitEntries | crates/storage/src/storage_service.rs:121-141 | The loop over one listing, names of any form: files archived in order at the objects their paths resolve to, up to the first failure, sub-directories pushed. |
| StorageService.Service.Visit | crates/storage/src/storage_service.rs:104-144 | One round of the walk: row, listing, remove_all. |
| StorageService.Service.TrashDirectory | crates/storage/src/storage_service.rs:100-146 | The stack loop terminates on every tree and its result is the walk over some listing of the directory: the visit of the top, then one row per sub-directory, whose objects are gone. |
| StorageService.Service.DeleteSingle | crates/storage/src/storage_service.rs:984-995 | The file becomes a blob and a trash row, its index row goes. |
| StorageService.Service.DeleteDirectory | crates/storage/src/storage_service.rs:968-983 | The walk, then the two index statements; of a home as well. |
| StorageService.Service.Delete | crates/storage/src/storage_service.rs:928-999 | Dispatch between permanent deletion and moving to the trash, with checks and errors. |
| StorageService.Service.EraseTrashItem | crates/storage/src/storage_service.rs:244-309 | Looks up one item and erases it: blobs and rows of its subtree, or the file rows of its path and its blob; nothing if it is not found. |
| StorageService.Service.RestoreItem | crates/storage/src/storage_service.rs:677-828 | Looks up one item and restores it to any `/User` path, a home included, with the error when it is missing. |
| StorageService.Service.RestoreFile | crates/storage/src/storage_service.rs:792-827 | Blob read, saved at the target, rows dropped, blob deleted, in that order. |
| StorageService.Service.RestoreAll | crates/storage/src/storage_service.rs:716-770 | The rows in order up to the first failure, and the trees on the way. |
| StorageService.Service.RestoreDirectory | crates/storage/src/storage_service.rs:698-791 | The rows of the subtree restored, directories first, then blobs and rows removed; the trees on the way. |
| StorageService.Service.Purge | crates/storage/src/storage_service.rs:1211-1236 | Exactly the rows older than the cut-off go, and their blobs. |
| StorageList.Listing.List | crates/storage/src/storage_service.rs:532-577 | The requested slice of the directory's rows in name order, whether more follow, and the next offset; a negative bound is a database error. |
| StorageList.BeforeExact | crates/storage/src/storage_service.rs:541-548 | The order of names is the ascending lexicographic one: after a common beginning the first name ends or has the smaller character. |
| StorageList.OneOrder | crates/storage/src/storage_service.rs:541-548 | The rows of a directory have only one name order, so its pages are slices of one list. |
| StorageList.Listing.ListPages | crates/storage/src/storage_service.rs:532-577 | A client that calls list while has_more, from next_offset, for at most p requests: it has the first p * limit rows of the directory, each once and in order, and is told that it is done exactly when these are all; so with limit 0 never, unless there are none. |
| StorageList.ListingShowsDisk | crates/storage/src/storage_service.rs:541-563 | While index and tree agree, a complete listing has an entry of a name exactly when the object is on disk, with its kind and size. |
| AgentRuntime.Chat | crates/agent/src/runtime.rs:76-197 | For every provider and tools: at most 10 calls, each seeing an extension of the one before; each reply followed by its assistant message and one tool message per call with its id, reporting what the tool gave or which error met the call; the event log is that of the appended messages; exactly one terminal event, the last, and why it came. |
| AgentRuntime.OpeningExact | crates/agent/src/runtime.rs:82-105 | The transcript the first call sees is the one with the whole history, the input last and, if a system prompt is configured, a system message first: the history's own or else the configured one. |
| AgentRuntime.RoundLog | crates/agent/src/runtime.rs:136-185 | The log of a round index by index: its text first, a thought if tools are called and the answer if not, then each call followed by its result. |
| AgentRuntime.RunTools | crates/agent/src/runtime.rs:158-185 | One tool message per call, in order: the tool's output if a registered tool was given JSON and succeeded, its error if it failed, `Tool not found` or `Invalid JSON args` with the parser's complaint otherwise; and the pair of events for each. |
| AgentRuntime.LogConcat | crates/agent/src/runtime.rs:136-185 | The event log of two stretches of transcript is the concatenation of their logs. |
| AgentSession.PersistRehydrate | crates/agent/src/agent_service.rs:184-209 | Reading back the rows of a turn's events gives its transcript with one call per assistant message. |
| AgentSession.FlattenKeepsProtocol | crates/agent/src/agent_service.rs:291-331 | The flattened transcript still answers every call directly after it, with at most one call a message. |
| AgentSession.FlattenKeepsExchanges | crates/agent/src/agent_service.rs:291-331 | Flattening keeps the calls, their order and their results. |
| AgentSession.FlattenKeepsTexts | crates/agent/src/agent_service.rs:291-331 | And what the assistant says, in the same order. |
| AgentSession.TurnRowsPaired | crates/agent/src/agent_service.rs:268-359 | Every tool row a turn leaves follows the row of the call it answers. |
| AgentSession.CutIsPaired | crates/agent/src/agent_service.rs:387-401 | Cutting the front off paired rows leaves them paired exactly when the first row left is not a tool row. |
| AgentSession.HistoryPaired | crates/agent/src/agent_service.rs:387-401 | In the history the next request builds every tool message follows the assistant message of its call, if and only if the session fits the window or the 49th row from the end is not a tool row. |
| AgentSession.HistoryIsTail | crates/agent/src/agent_service.rs:182-216 | Dropping the duplicated input leaves exactly the last 49 rows there were before it. |
| AgentSession.NextTurnSees | crates/agent/src/agent_service.rs:182-216 | While the session fits the window the next turn starts from everything before, the last turn flattened. |
| AgentSession.Session.FetchHistory | crates/agent/src/agent_service.rs:182-216 | The window rehydrated row by row, without the input saved a moment ago. |
| AgentSession.Session.Persist | crates/agent/src/agent_service.rs:268-359 | The rows of the events in the order of their inserts. |
| AgentSession.Session.Converse | crates/agent/src/agent_service.rs:153-367 | One request: the rows grow by the input and the turn's events, which read back as the flattened turn of a finished chat; paired rows stay paired. |
| Terminal.ResolveIsClean | crates/kernel/src/service.rs:82-123 | Whatever is typed, the resolved path has a leading slash and no empty, `.` or `..` component. |
| Terminal.CwdStaysClean | crates/kernel/src/sys/process.rs:28-50 | So has the working directory on every run of chdir. |
| Terminal.CleanIsNormal | crates/kernel/src/service.rs:107-123 | Such a path is a fixed point of the storage normaliser if and only if it has no backslash. |
| Terminal.CdThenResolve | crates/kernel/src/service.rs:82-123 | cd p then q resolves as p/q. |
| Terminal.CdLaw | crates/kernel/src/service.rs:92-104 | That law holds for every relative q exactly when p is not `~/` repeated and a final `~`. |
| Terminal.NestedHomeDiffers | crates/kernel/src/service.rs:96-97 | For such a p the law fails for q = x, because every leading `~/` is stripped. |
| Terminal.CdParent | crates/kernel/src/service.rs:107-123 | From a clean directory `..` leads to its parent, from the root nowhere. |
| Terminal.CdHere | crates/kernel/src/service.rs:108-113 | `.` leads nowhere else. |
| Terminal.DownAndUp | crates/kernel/src/service.rs:82-123 | cd to a name and then to `..` leads back. |
| Terminal.NameCancels | crates/kernel/src/service.rs:107-123 | In an absolute path a name and the `..` after it cancel, wherever they stand. |
| Terminal.AbsoluteIsItself | crates/kernel/src/service.rs:92-123 | A clean absolute path resolves to itself from any directory. |
| Terminal.HomePaths | crates/kernel/src/service.rs:94-97 | `~` is the home of the user and `~/n` the n in it, from any directory. |
| Terminal.BlankStays | crates/kernel/src/service.rs:83-86 | A blank argument leaves the directory. |
| Terminal.TrimExact | crates/kernel/src/service.rs:83 | Trimming takes exactly the white space off both ends. |
| Terminal.Shell.ResolvePath | crates/kernel/src/service.rs:82-123 | The loop over the components computes the resolved path. |
| Terminal.Shell.Chdir | crates/kernel/src/sys/process.rs:28-50 | The working directory becomes the resolved path and stays clean. |
| Magnet.EnrichMagnetLink | crates/downloader/src/downloader_service.rs:122-134 | The loop over the trackers computes the enriched link. |
| Magnet.TrackersContained | crates/downloader/src/downloader_service.rs:122-134 | For every tracker list the link stays a prefix and every tracker is contained afterwards. |
| Magnet.NothingAdded | crates/downloader/src/downloader_service.rs:122-134 | Nothing is appended if and only if every tracker is contained already. |
| Magnet.EnrichOnce | crates/downloader/src/downloader_service.rs:212-213 | Enriching twice is enriching once, all default trackers are contained, and other links are left alone. |
| Magnet.AppendedAreMissing | crates/downloader/src/downloader_service.rs:122-134 | What is appended are `&tr=` parameters of trackers of the list that the link did not contain, and nothing else. |
| Magnet.EncodeDecodes | crates/downloader/src/downloader_service.rs:127 | The encoding leaves only unreserved characters and escapes, and percent-decoding gives the text back. |
| HttpDownload.Worker.Receive | crates/downloader/src/downloader_service.rs:773-803 | The chunk loop: the counter equals the file length at each loop head, and the file grows by exactly the bytes received. |
| HttpDownload.Worker.Download | crates/downloader/src/downloader_service.rs:711-823 | File, status and total after one worker, for every way it can end. |
| HttpDownload.AttemptKeepsPrefix | crates/downloader/src/downloader_service.rs:711-803 | A worker whose range is honoured leaves a longer prefix of the resource. |
| HttpDownload.RunKeepsPrefix | crates/downloader/src/downloader_service.rs:307-359 | After any number of aborts and resumes the file is a prefix of the resource that never shrank. |
| HttpDownload.TotalIsConstant | crates/downloader/src/downloader_service.rs:757-765 | The total a worker records is the resource's size, from whatever offset it starts, exactly when the server announces lengths or nothing is missing. |
| HttpDownload.EndOfBodyIsComplete | crates/downloader/src/downloader_service.rs:773-808 | A body read to its end completes the file exactly when the range was honoured or there was nothing to resume or to fetch. |
| HttpDownload.BrokenMarkedDone | crates/downloader/src/downloader_service.rs:773-812 | A worker whose connection breaks marks the download done too, and the file is then whole exactly when every byte had arrived. |
| HttpDownload.CompleteIsRefused | crates/downloader/src/downloader_service.rs:729-745 | Resuming a finished file leaves it whole and, unless it is empty, marks the download as failed and changes nothing else. |
| HttpDownload.StatusTells | crates/downloader/src/downloader_service.rs:741-823 | Failed exactly if refused or unable to write, downloading exactly if aborted, and otherwise done. |
| HttpDownload.FinishedIsDone | crates/downloader/src/downloader_service.rs:711-823 | A worker that fetches what is missing to the end leaves the whole resource, marked done, with its size as the total if lengths are announced. |
| TorrentSync.Index.EnsureDirectory | crates/downloader/src/downloader_service.rs:674-709 | The loop over the components adds the missing ancestors' rows. |
| TorrentSync.Index.Sync | crates/downloader/src/downloader_service.rs:870-889 | The file loop. |
| TorrentSync.SyncedAt | crates/downloader/src/downloader_service.rs:870-889 | Which rows there are afterwards and their sizes; kinds of existing rows never change. |
| TorrentSync.SyncIdempotent | crates/downloader/src/downloader_service.rs:870-889 | Running the loop again changes nothing. |
| TorrentSync.SyncIndexes | crates/downloader/src/downloader_service.rs:870-889 | Every file present has a file row of its size and every ancestor a directory row if and only if no name is needed as both. |
| TorrentSync.OtherRowsUnchanged | crates/downloader/src/downloader_service.rs:639-709 | Rows of no present file keep everything they had. |
| TorrentSync.WayIndexed | crates/downloader/src/downloader_service.rs:674-709 | Every directory on the way to a file of the torrent has a row, read as a path. |
| TorrentSync.ParentsIndexed | crates/downloader/src/downloader_service.rs:870-889 | No row is added below a directory that has none. |

## Left out

- /AppData and /System: unindexed or aliasing branches of every operation; /Trash paths with a date, which probe the disk.
- Agreement inside `.Trash`, and requests for homes of unregistered users, as subjects of the theorems; the methods of the service take them.
- StorageService.Service.SaveFile: the trimming of white space that OpenDAL applies to object paths is not modelled, and there are no symbolic links, so `..` goes back one piece.
- StorageRename.RenameAgreement: that a swept row breaks the agreement is stated for rows of tracked paths; agreement says nothing of the others.
- StorageRuns.RunIntegrity: runs do not delete homes (DeleteHomeIntegrity), do not make a file of `.Trash` or `.Trash/blobs` (TrashFileBlocks), and guess no uuid still to be drawn.
- StorageRoundTrip.RestoreRowsWorks: speaks of the rows recorded directly under the restored root, the only ones a delete of that directory leaves; DestFollows, RowRestored, RowsIndexed and CrashSafety cover rows of any depth.
- StorageService.Service.UpdateRows: the order in which rows are updated is arbitrary, as in the database.
- RequestRoundTrip.DeleteThenRestore: speaks of directories directly below the home, since deeper ones cannot be addressed for restore, and of a trash that held nothing of that path before.
- FileRoundTrip.FileDeleteThenRestore: speaks of paths outside `.Trash` and of a trash that held nothing of that path before; two rows of one path are the subject of RestoreFileIntegrity.
- Spontaneous I/O and database failures; an operation fails only for the reasons the model names. remove_all removes exactly the subtree.
- A listing never yields `.` or `..` as real objects; the walk's test for the empty name and `.` is kept.
- Users, uuids, the clock, MIME guessing: a set whose members all have their home directory, a counter, parameters and a fixed function of the name that is never a directory's. One timestamp per deletion.
- The columns of cloud_files and trash_items that no operation reads back (storage class, timestamps of files, MIME of trash rows).
- The listing of the trash, readers, save_file_from_path, multipart upload and application permissions: easy or foreign calls.
- Concurrent requests: operations run one after the other; crashes between physical steps are covered by the trees of a single operation.
- AgentRuntime.Chat: the receiver of the events stays open; tool definitions, the sandbox and the chat log are not modelled.
- AgentSession.Session.Persist: rows arrive in the order of the events, although the code inserts them from spawned tasks.
- Sessions and tasks of the agent beyond one session's rows, and the terminal built for each request.
- Command parsing, pipelines, redirection and completion of the terminal.
- HttpDownload.Worker.Download: speed and progress, the task table and the write to the index at the end are not modelled; the resource does not change between workers, and one worker is live at a time.
- Magnet.EnrichMagnetLink: percent-encoding is that of ASCII text, as all the trackers are.
- TorrentSync.Index.Sync: relative paths are given as component lists; row ids and timestamps are not modelled.
- HTTP routing, authentication, containers, search, GPU and system statistics.
