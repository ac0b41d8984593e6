/**
  What a deletion writes into the trash: whose rows, of which time, and which object each of them is
  about; and what the purger makes of them.
 */
module TrashRecords {
  import opened Wrappers
  import opened VirtualPath
  import opened FileTree
  import opened StorageState
  import opened StorageIndex
  import opened StorageTrash
  import opened StorageRestore
  import opened StorageRequests
  import opened TrashIntegrity
  import opened TrashRoundTrip

  // ---- Owner and time of the new rows ----------------------------------------------------------

  // Old rows are as they were, new ones are the user's and of that time.
  ghost predicate Dated(s: State, s': State, user: string, now: int) {
    && IdsDrawn(s') && s'.nextId >= s.nextId
    && (forall i {:trigger i in s'.trash} {:trigger i in s.trash} ::
          i in s.trash ==> i in s'.trash && s'.trash[i] == s.trash[i])
    && (forall i {:trigger i in s'.trash} :: i in s'.trash && i !in s.trash ==>
          i >= s.nextId && s'.trash[i].user == user && s'.trash[i].deletedAt == now)
  }

  lemma DatedTransitive(a: State, b: State, c: State, user: string, now: int)
    requires IdsDrawn(a) && Dated(a, b, user, now) && Dated(b, c, user, now)
    ensures Dated(a, c, user, now)
  {
  }

  lemma OneRowDated(s: State, s': State, id: nat, row: TrashRow)
    requires IdsDrawn(s) && s.nextId <= id < s'.nextId && s'.trash == s.trash[id := row]
    ensures Dated(s, s', row.user, row.deletedAt)
  {
  }

  // At most one row is added, under an id drawn for it.
  predicate AddsRow(s: State, s': State, id: nat, row: TrashRow) {
    s'.nextId >= s.nextId && (s'.trash == s.trash || (s.nextId <= id < s'.nextId && s'.trash == s.trash[id := row]))
  }

  lemma AddedDated(s: State, s': State, id: nat, row: TrashRow)
    requires IdsDrawn(s) && AddsRow(s, s', id, row)
    ensures Dated(s, s', row.user, row.deletedAt)
  {
    if s'.trash != s.trash { OneRowDated(s, s', id, row); }
  }

  lemma FoundAdds(s: State, k: Key, now: int, f: Found)
    ensures AddsRow(s, ArchiveFound(s, k, now, f).0, s.nextId + 1, FileRow(s, k, now, f, s.nextId))
  {
  }

  lemma FileAdds(s: State, k: Key, now: int) returns (row: TrashRow)
    ensures AddsRow(s, DeleteFileResult(s, k, now).0, s.nextId + 1, row) && row.user == k.user && row.deletedAt == now
  {
    row := TrashRow(k.user, k.dir, k.name, false, SizeAt(s.fs, Phys(PathOf(k))), Some(s.nextId), now);
  }

  lemma FoundDated(s: State, k: Key, now: int, f: Found)
    requires IdsDrawn(s)
    ensures Dated(s, ArchiveFound(s, k, now, f).0, k.user, now)
  {
    FoundAdds(s, k, now, f);
    AddedDated(s, ArchiveFound(s, k, now, f).0, s.nextId + 1, FileRow(s, k, now, f, s.nextId));
  }

  lemma {:induction false} FoundAllDated(s: State, k: Key, now: int, found: seq<Found>)
    requires IdsDrawn(s)
    ensures Dated(s, ArchiveAll(s, k, now, found).0, k.user, now)
  {
    if found != [] {
      var n := |found| - 1;
      FoundAllDated(s, k, now, found[..n]);
      var (s1, r1) := ArchiveAll(s, k, now, found[..n]);
      if r1.Ok? {
        FoundDated(s1, k, now, found[n]);
        DatedTransitive(s, s1, ArchiveFound(s1, k, now, found[n]).0, k.user, now);
      }
    }
  }

  lemma {:induction false} SubdirsDated(s: State, k: Key, now: int, dirs: seq<string>)
    requires IdsDrawn(s)
    ensures Dated(s, FileDirs(s, k, now, dirs), k.user, now)
  {
    if dirs != [] {
      var n := |dirs| - 1;
      SubdirsDated(s, k, now, dirs[..n]);
      var s1 := FileDirs(s, k, now, dirs[..n]);
      OneRowDated(s1, FileDirs(s, k, now, dirs), s1.nextId, DirRow(k.user, RelativeDir(k.user, PathOf(k)), dirs[n], now));
      DatedTransitive(s, s1, FileDirs(s, k, now, dirs), k.user, now);
    }
  }

  lemma DirectoryDated(s: State, k: Key, now: int, files: seq<string>, dirs: seq<string>)
    requires IdsDrawn(s)
    ensures Dated(s, DeleteDirResult(s, k, now, files, dirs).0, k.user, now)
  {
    var s1 := OpenWalk(s, k, now);
    OneRowDated(s, s1, s.nextId, DirRow(k.user, RelativeDir(k.user, k.dir), k.name, now));
    FoundAllDated(s1, k, now, FoundFiles(k, files));
    var (s2, r) := ArchiveAll(s1, k, now, FoundFiles(k, files));
    DatedTransitive(s, s1, s2, k.user, now);
    if r.Ok? {
      var s3 := s2.(fs := RemoveAll(s2.fs, OpPath(PathOf(k))));
      SubdirsDated(s3, k, now, dirs);
      DatedTransitive(s, s3, FileDirs(s3, k, now, dirs), k.user, now);
    }
  }

  lemma FileDated(s: State, k: Key, now: int)
    requires IdsDrawn(s)
    ensures Dated(s, DeleteFileResult(s, k, now).0, k.user, now)
  {
    var row := FileAdds(s, k, now);
    AddedDated(s, DeleteFileResult(s, k, now).0, s.nextId + 1, row);
  }

  lemma IdsAreDrawn(s: State)
    requires Valid(s)
    ensures IdsDrawn(s)
  {
    forall i | i in s.trash ensures i < s.nextId { assert RowSane(i, s.trash[i], s.nextId); }
  }

  // Whatever a request deletes and wherever it stops: rows that were there stay as they were, and each
  // new row belongs to the user in whose home the path lies and bears the time of the request.
  lemma DeletionDated(s: State, s': State, username: string, p: string, now: int, r: Outcome, id: nat)
    requires Valid(s) && Normal(p) && DeleteRequest(s, s', username, p, now, r)
    ensures id in s.trash ==> id in s'.trash && s'.trash[id] == s.trash[id]
    ensures id in s'.trash && id !in s.trash ==> s'.trash[id].deletedAt == now && InHomeOf(p, s'.trash[id].user)
  {
    if Authorise(username, p).Ok? {
      var k := RoutedKey(p);
      IdsAreDrawn(s);
      if k.user in s.users {
        if IsDir(s.fs, Phys(PathOf(k))) {
          var files, dirs :| Listing(s.fs, PathOf(k), files, dirs) && (s', r) == DeleteDirResult(s, k, now, files, dirs);
          DirectoryDated(s, k, now, files, dirs);
        } else {
          FileDated(s, k, now);
        }
      }
    }
  }

  // ---- What the rows are about -------------------------------------------------------------------

  // The path recorded in a row of a deleted directory: relative to the home of its user.
  function Original(row: TrashRow): string {
    Child(Home(row.user) + (if row.dir == "/" then "" else row.dir), row.name)
  }

  // The row's blob has what the object at q had, and the row its size.
  predicate Holds(s: State, s': State, row: TrashRow, q: string) {
    && row.blob.Some? && IsFile(s.fs, q) && row.size == |s.fs[q].data|
    && At(s'.fs, BlobPath(row.user, row.blob.value)) == At(s.fs, q)
  }

  // A row left by the deletion of a directory: of the directory itself, of a directory in it, or of a file
  // in it with the bytes of the object its name led to.
  predicate TellsOf(s: State, s': State, k: Key, now: int, row: TrashRow) {
    && row.user == k.user && row.deletedAt == now
    && if row.isDir then
         row.blob.None? && row.size == 0 &&
         (Original(row) == PathOf(k)
          || (Original(row) == Child(PathOf(k), row.name) && HasChild(s.fs, PathOf(k), row.name)
              && !HasFile(s.fs, PathOf(k), row.name)))
       else
         && Original(row) == Child(PathOf(k), row.name) && HasFile(s.fs, PathOf(k), row.name)
         && Holds(s, s', row, Phys(Addressed(k, row.name)))
  }

  // Stripping the home from a directory and putting it back.
  predicate Recovers(user: string, dir: string) {
    Home(user) + (if RelativeDir(user, dir) == "/" then "" else RelativeDir(user, dir)) == dir
  }

  lemma DirRecovers(user: string, dir: string)
    requires ValidName(user) && (dir == Home(user) || (Tracked(user, dir) && Normal(dir)))
    ensures Recovers(user, dir)
  {
    var h := Home(user);
    if dir != h {
      NoTrailingSlash(user, dir);
      assert dir[..|h|] == h && dir == h + dir[|h|..];
      assert dir[|h|..][|dir| - |h| - 1] == dir[|dir| - 1];
    }
  }

  // The directory of a key and its path, as the rows record them.
  ghost predicate RecordedPlain(k: Key) {
    && FilesDir(k.user, PathOf(k)) == RelativeDir(k.user, PathOf(k))
    && Recovers(k.user, PathOf(k)) && Recovers(k.user, k.dir)
  }

  lemma KeyRecovers(users: set<string>, k: Key)
    requires InDomain(users, k) && ValidName(k.user) && Normal(PathOf(k))
    ensures RecordedPlain(k)
  {
    KeyRooted(k);
    TrackedParent(k.user, k.dir, k.name);
    var j := TrackedKey(k.user, PathOf(k));
    ChildInjective(j.dir, j.name, k.dir, k.name);
    DirRecovers(k.user, PathOf(k));
    DirRecovers(k.user, k.dir);
  }

  lemma NoTrailingSlash(user: string, p: string)
    requires ValidName(user) && Normal(p) && Tracked(user, p)
    ensures p[|p| - 1] != '/'
  {
    var k := TrackedKey(user, p);
    assert k.name[|k.name| - 1] in k.name && p[|p| - 1] == k.name[|k.name| - 1];
  }

  // The walk of a directory below a home came to its end in s'.
  ghost predicate Ended(s: State, s': State, k: Key, now: int, files: seq<string>, found: seq<Found>, dirs: seq<string>) {
    && Valid(s) && Listing(s.fs, PathOf(k), files, dirs) && OfListing(s, k, files, found)
    && Walked(s, s', k, now, found, dirs) && RecordedPlain(k)
  }

  // The files of the listing, each found where its name leads.
  ghost predicate OfListing(s: State, k: Key, files: seq<string>, found: seq<Found>) {
    && |found| == |files|
    && forall j {:trigger found[j]} :: 0 <= j < |found| ==>
         found[j] == Located(k, files[j]) && IsFile(s.fs, Phys(found[j].path))
  }

  lemma WalkEnded(s: State, s': State, k: Key, now: int, files: seq<string>, dirs: seq<string>)
    requires Walks(s, k, files, dirs) && s' == DeleteDirResult(s, k, now, files, dirs).0
    ensures Ended(s, s', k, now, files, FoundFiles(k, files), dirs)
  {
    assert ValidName(k.user);
    DeleteIsWalk(s, k, now, files, dirs);
    WalkLeaves(s, k, now, files, dirs);
    KeyRecovers(s.users, k);
    ReachedListing(s, k, files);
  }

  lemma ReachedListing(s: State, k: Key, files: seq<string>)
    requires Reached(s, k, files)
    ensures OfListing(s, k, files, FoundFiles(k, files))
  {
    var found := FoundFiles(k, files);
    forall j | 0 <= j < |found| ensures IsFile(s.fs, Phys(found[j].path)) { assert found[j] in found; }
  }

  // Every new row a finished walk leaves tells of the directory, or of one thing directly in it.
  lemma WalkTells(s: State, s': State, k: Key, now: int, files: seq<string>, found: seq<Found>, dirs: seq<string>, id: nat)
    requires Ended(s, s', k, now, files, found, dirs) && id in s'.trash && id !in s.trash
    ensures TellsOf(s, s', k, now, s'.trash[id])
  {
    var o := OriginOf(s, k, now, found, dirs, id);
    OriginTells(s, s', k, now, files, found, dirs, o, s'.trash[id]);
  }

  lemma OriginTells(s: State, s': State, k: Key, now: int, files: seq<string>, found: seq<Found>, dirs: seq<string>,
                    o: Origin, row: TrashRow)
    requires Ended(s, s', k, now, files, found, dirs)
    requires o != Older && (o.OfFile? ==> o.index < |found|) && (o.OfDir? ==> o.index < |dirs|)
    requires row == RowOf(s, k, now, found, dirs, o)
    ensures TellsOf(s, s', k, now, row)
  {
    if o.OfFile? {
      FoundTells(s, s', k, now, files, found, dirs, o.index, row);
    } else if o.OfDir? {
      ListedTells(s, s', k, now, files, found, dirs, o.index, row);
    } else {
      DirTells(s, s', k, now, row);
    }
  }

  lemma FoundTells(s: State, s': State, k: Key, now: int, files: seq<string>, found: seq<Found>, dirs: seq<string>, j: nat,
                   row: TrashRow)
    requires Ended(s, s', k, now, files, found, dirs) && j < |found| && row == RowOf(s, k, now, found, dirs, OfFile(j))
    ensures TellsOf(s, s', k, now, row)
  {
    assert files[j] in files;
    FileTells(s, s', k, now, found[j], s.nextId + 1 + 2 * j, row);
  }

  lemma ListedTells(s: State, s': State, k: Key, now: int, files: seq<string>, found: seq<Found>, dirs: seq<string>, j: nat,
                    row: TrashRow)
    requires Ended(s, s', k, now, files, found, dirs) && j < |dirs| && row == RowOf(s, k, now, found, dirs, OfDir(j))
    ensures TellsOf(s, s', k, now, row)
  {
    assert dirs[j] in dirs;
    SubdirTells(s, s', k, now, dirs[j], row);
  }

  lemma FileTells(s: State, s': State, k: Key, now: int, f: Found, h: nat, row: TrashRow)
    requires row == FileRow(s, k, now, f, h) && HasFile(s.fs, PathOf(k), f.name) && f == Located(k, f.name)
    requires IsFile(s.fs, Phys(f.path)) && RecordedPlain(k)
    requires At(s'.fs, BlobPath(k.user, h)) == At(s.fs, Phys(f.path))
    ensures TellsOf(s, s', k, now, row)
  {
  }

  lemma SubdirTells(s: State, s': State, k: Key, now: int, n: string, row: TrashRow)
    requires row == DirRow(k.user, RelativeDir(k.user, PathOf(k)), n, now)
    requires HasChild(s.fs, PathOf(k), n) && !HasFile(s.fs, PathOf(k), n) && RecordedPlain(k)
    ensures TellsOf(s, s', k, now, row)
  {
  }

  lemma DirTells(s: State, s': State, k: Key, now: int, row: TrashRow)
    requires row == DirRow(k.user, RelativeDir(k.user, k.dir), k.name, now) && RecordedPlain(k)
    ensures TellsOf(s, s', k, now, row)
  {
  }

  // A new row about the path p.
  ghost predicate RecordedIn(s: State, s': State, p: string, isDir: bool) {
    exists id :: id in s'.trash && id !in s.trash && Original(s'.trash[id]) == p && s'.trash[id].isDir == isDir
  }

  // And there is one of the directory itself, and one of everything directly in it.
  lemma WalkRecords(s: State, s': State, k: Key, now: int, files: seq<string>, found: seq<Found>, dirs: seq<string>,
                    n: string)
    requires Ended(s, s', k, now, files, found, dirs) && HasChild(s.fs, PathOf(k), n)
    ensures RecordedIn(s, s', Child(PathOf(k), n), !HasFile(s.fs, PathOf(k), n))
  {
    if HasFile(s.fs, PathOf(k), n) {
      var i := ListingIndex(s.fs, PathOf(k), files, dirs, n);
      OriginRecorded(s, s', k, now, files, found, dirs, OfFile(i));
    } else {
      assert n in dirs;
      var i :| 0 <= i < |dirs| && dirs[i] == n;
      OriginRecorded(s, s', k, now, files, found, dirs, OfDir(i));
    }
  }

  lemma OriginRecorded(s: State, s': State, k: Key, now: int, files: seq<string>, found: seq<Found>, dirs: seq<string>,
                       o: Origin)
    requires Ended(s, s', k, now, files, found, dirs)
    requires o != Older && (o.OfFile? ==> o.index < |found|) && (o.OfDir? ==> o.index < |dirs|)
    ensures var row := RowOf(s, k, now, found, dirs, o); RecordedIn(s, s', Original(row), row.isDir)
  {
    OriginPresent(s, k, now, found, dirs, o);
    FreshIds(s, |found|, o);
    assert IdOf(s, |found|, o) in s'.trash;
  }

  // The new rows are one of the directory and one of each thing directly in it, nothing else.
  ghost predicate RecordedWhole(s: State, s': State, k: Key, now: int) {
    && (forall id {:trigger s'.trash[id]} :: id in s'.trash && id !in s.trash ==> TellsOf(s, s', k, now, s'.trash[id]))
    && RecordedIn(s, s', PathOf(k), true)
    && forall n {:trigger HasChild(s.fs, PathOf(k), n)} :: HasChild(s.fs, PathOf(k), n) ==>
         RecordedIn(s, s', Child(PathOf(k), n), !HasFile(s.fs, PathOf(k), n))
  }

  lemma WalkRecordsAll(s: State, s': State, k: Key, now: int, files: seq<string>, found: seq<Found>, dirs: seq<string>)
    requires Ended(s, s', k, now, files, found, dirs)
    ensures RecordedWhole(s, s', k, now)
  {
    forall id | id in s'.trash && id !in s.trash ensures TellsOf(s, s', k, now, s'.trash[id]) {
      WalkTells(s, s', k, now, files, found, dirs, id);
    }
    SelfRecorded(s, s', k, now, files, found, dirs);
    forall n | HasChild(s.fs, PathOf(k), n) ensures RecordedIn(s, s', Child(PathOf(k), n), !HasFile(s.fs, PathOf(k), n)) {
      WalkRecords(s, s', k, now, files, found, dirs, n);
    }
  }

  lemma SelfRecorded(s: State, s': State, k: Key, now: int, files: seq<string>, found: seq<Found>, dirs: seq<string>)
    requires Ended(s, s', k, now, files, found, dirs)
    ensures RecordedIn(s, s', PathOf(k), true)
  {
    OriginRecorded(s, s', k, now, files, found, dirs, Itself);
  }

  // The request: whoever deletes a directory below a home, the trash then records it that way.
  lemma DirectoryRecorded(s: State, s': State, username: string, p: string, now: int, r: Outcome)
    requires Valid(s) && Reachable(s.users, username, p) && IsDir(s.fs, Phys(p))
    requires DeleteRequest(s, s', username, p, now, r) && r.Ok?
    ensures RecordedWhole(s, s', KeyFor(p), now)
  {
    var k := ReachableKey(s.users, username, p);
    var files, dirs :| Listing(s.fs, PathOf(k), files, dirs) && (s', r) == DeleteDirResult(s, k, now, files, dirs);
    FinishedWalk(s, k, now, files, dirs);
    WalkEnded(s, s', k, now, files, dirs);
    WalkRecordsAll(s, s', k, now, files, FoundFiles(k, files), dirs);
  }

  // ---- The purger --------------------------------------------------------------------------------

  // Exactly the rows deleted before the cut-off leave, the others are untouched, and of the objects
  // exactly the blobs of the file rows among them.
  lemma PurgeExact(s: State, s': State, cutoff: int, id: nat, q: string)
    requires Integrity(s) && PurgeStep(s, s', cutoff)
    ensures id in s'.trash <==> id in s.trash && s.trash[id].deletedAt >= cutoff
    ensures id in s'.trash ==> s'.trash[id] == s.trash[id]
    ensures At(s'.fs, q) == if ExpiredBlob(s.trash, cutoff, q) then None else At(s.fs, q)
    ensures s'.users == s.users && s'.cloud == s.cloud
  {
    var rows: seq<TrashRow>, ids: seq<nat> :| ExpiredRows(s.trash, cutoff, rows, ids) && s' == Purged(s, cutoff, rows);
    AtDeleteBlobs(s.fs, rows, q);
    if ExpiredBlob(s.trash, cutoff, q) {
      var i :| i in s.trash && s.trash[i].deletedAt < cutoff && !s.trash[i].isDir && s.trash[i].blob.Some?
               && BlobOf(s.trash[i]) == q;
      assert Backed(s, s.trash[i]) && i in ids;
      var j :| 0 <= j < |ids| && ids[j] == i;
      assert rows[j] == s.trash[i];
    }
  }

  ghost predicate ExpiredBlob(trash: Trash, cutoff: int, q: string) {
    exists i {:trigger trash[i]} ::
      i in trash && trash[i].deletedAt < cutoff && !trash[i].isDir && trash[i].blob.Some? && BlobOf(trash[i]) == q
  }

  // Right after a deletion a purge that reaches no further than its time takes none of its rows and
  // none of their blobs.
  lemma PurgeSparesDeletion(s: State, s1: State, s2: State, username: string, p: string, now: int, r: Outcome,
                            cutoff: int, id: nat)
    requires Valid(s) && Normal(p) && DeleteRequest(s, s1, username, p, now, r)
    requires Valid(s1) && Integrity(s1) && PurgeStep(s1, s2, cutoff) && cutoff <= now
    requires id in s1.trash && id !in s.trash
    ensures id in s2.trash && s2.trash[id] == s1.trash[id]
    ensures !s2.trash[id].isDir ==> At(s2.fs, BlobOf(s2.trash[id])) == At(s1.fs, BlobOf(s1.trash[id]))
  {
    var row := s1.trash[id];
    DeletionDated(s, s1, username, p, now, r, id);
    PurgeExact(s1, s2, cutoff, id, BlobOf(row));
    if !row.isDir && ExpiredBlob(s1.trash, cutoff, BlobOf(row)) {
      var i :| i in s1.trash && s1.trash[i].deletedAt < cutoff && !s1.trash[i].isDir && s1.trash[i].blob.Some?
               && BlobOf(s1.trash[i]) == BlobOf(row);
      SameBlobSameRow(s1, i, id);
    }
  }
}
