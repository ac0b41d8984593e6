/**
  Referential integrity between trash_items and the blob files, kept by every operation.
 */
module TrashIntegrity {
  import opened Wrappers
  import opened VirtualPath
  import opened FileTree
  import opened StorageState
  import opened StorageIndex
  import opened StorageRename
  import opened StorageTrash
  import opened StorageRestore

  // The row's blob exists, belongs to a registered user and has the recorded size.
  predicate Backed(s: State, row: TrashRow) {
    row.isDir ||
    (row.user in s.users && row.blob.Some?
     && At(s.fs, BlobPath(row.user, row.blob.value)).Some?
     && At(s.fs, BlobPath(row.user, row.blob.value)).value.File?
     && |At(s.fs, BlobPath(row.user, row.blob.value)).value.data| == row.size)
  }

  predicate Owns(row: TrashRow, user: string, id: nat) {
    !row.isDir && row.user == user && row.blob == Some(id)
  }

  predicate ShareBlob(a: TrashRow, b: TrashRow) {
    !a.isDir && !b.isDir && a.user == b.user && a.blob == b.blob
  }

  function BlobOf(row: TrashRow): string {
    if row.blob.Some? then BlobPath(row.user, row.blob.value) else ""
  }

  // The object at q is the blob of a file row.
  ghost predicate Owned(trash: Trash, q: string) {
    exists i {:trigger trash[i]} :: i in trash && !trash[i].isDir && trash[i].blob.Some? && BlobOf(trash[i]) == q
  }

  // Every file row names an existing blob, and no two rows share one.
  ghost predicate Integrity(s: State) {
    && (forall i {:trigger s.trash[i]} :: i in s.trash ==> Backed(s, s.trash[i]))
    && (forall i, j {:trigger s.trash[i], s.trash[j]} ::
          i in s.trash && j in s.trash && ShareBlob(s.trash[i], s.trash[j]) ==> i == j)
  }

  // Every blob belongs to a row.
  ghost predicate NoOrphans(s: State) {
    forall u, h {:trigger BlobPath(u, h)} :: u in s.users && BlobPath(u, h) in s.fs ==>
      exists i :: i in s.trash && Owns(s.trash[i], u, h)
  }

  ghost predicate SameBlobs(s: State, s': State) {
    forall u, h {:trigger BlobPath(u, h)} :: u in s.users ==> At(s'.fs, BlobPath(u, h)) == At(s.fs, BlobPath(u, h))
  }

  // Directory rows may come and go; file rows stay.
  ghost predicate SameFileRows(t: Trash, t': Trash) {
    && (forall i {:trigger i in t} :: i in t && !t[i].isDir ==> i in t' && t'[i] == t[i])
    && (forall i {:trigger i in t'} :: i in t' && !t'[i].isDir ==> i in t)
    && (forall i {:trigger i in t'} :: i in t' && i in t ==> t'[i] == t[i])
  }

  lemma IntegrityKept(s: State, s': State)
    requires Integrity(s) && SameBlobs(s, s') && SameFileRows(s.trash, s'.trash) && s'.users == s.users
    ensures Integrity(s') && (NoOrphans(s) ==> NoOrphans(s'))
  {
    forall i {:trigger s'.trash[i]} | i in s'.trash ensures Backed(s', s'.trash[i]) {
      if !s'.trash[i].isDir { assert Backed(s, s.trash[i]); }
    }
    if NoOrphans(s) {
      forall u, h {:trigger BlobPath(u, h)} | u in s'.users && BlobPath(u, h) in s'.fs
        ensures exists i :: i in s'.trash && Owns(s'.trash[i], u, h)
      {
        assert At(s'.fs, BlobPath(u, h)) == At(s.fs, BlobPath(u, h));
        var i :| i in s.trash && Owns(s.trash[i], u, h);
        assert i in s'.trash && Owns(s'.trash[i], u, h);
      }
    }
  }

  // Operations on tracked objects cannot reach a blob.
  lemma TrackedChangesKeepBlobs(s: State, s': State, owner: string)
    requires Valid(s) && owner in s.users && OnlyTracked(s.fs, s'.fs, owner)
    ensures SameBlobs(s, s')
  {
    forall u, h {:trigger BlobPath(u, h)} | u in s.users
      ensures At(s'.fs, BlobPath(u, h)) == At(s.fs, BlobPath(u, h))
    {
      assert ValidName(u) && ValidName(owner);
      SystemObjectsUntracked(owner, u, h);
    }
  }

  // One archived file: a new blob and the row that owns it. The trash stays whole exactly when the file
  // was not itself the blob of a row.
  lemma ArchiveIntegrity(s: State, s': State, user: string, p: string, row: TrashRow)
    requires Integrity(s) && Archives(s, s'.fs, user, p) && s'.users == s.users
    requires Owns(row, user, s.nextId) && row.size == |s.fs[Phys(p)].data|
    requires s'.trash == s.trash[s.nextId + 1 := row]
    ensures Integrity(s') <==> !Owned(s.trash, Phys(p))
    ensures Integrity(s') && NoOrphans(s) ==> NoOrphans(s')
  {
    NewRowId(s);
    if i :| i in s.trash && !s.trash[i].isDir && s.trash[i].blob.Some? && BlobOf(s.trash[i]) == Phys(p) {
      BlobTaken(s, s', user, p, row, i);
    } else {
      ArchivedBacked(s, s', user, p, row);
      ArchivedApart(s, s', user, row);
      if NoOrphans(s) { ArchiveOrphans(s, s', user, p, row); }
    }
  }

  lemma NewRowId(s: State)
    requires Valid(s)
    ensures forall id :: id >= s.nextId ==> id !in s.trash
  {
    forall id | id in s.trash ensures id < s.nextId { assert RowSane(id, s.trash[id], s.nextId); }
  }

  lemma BlobTaken(s: State, s': State, user: string, p: string, row: TrashRow, i: nat)
    requires Integrity(s) && Archives(s, s'.fs, user, p) && s'.users == s.users
    requires s'.trash == s.trash[s.nextId + 1 := row]
    requires i in s.trash && !s.trash[i].isDir && s.trash[i].blob.Some? && BlobOf(s.trash[i]) == Phys(p)
    ensures !Integrity(s')
  {
    NewRowId(s);
    assert Backed(s, s.trash[i]) && RowSane(i, s.trash[i], s.nextId) && ValidName(user) && ValidName(s.trash[i].user);
    ArchiveWorks(s, user, p, s.nextId);
    assert BlobPath(user, s.nextId) !in s.fs;
    assert At(s'.fs, Phys(p)) == None;
    assert s'.trash[i] == s.trash[i] && !Backed(s', s'.trash[i]);
  }

  lemma ArchivedBacked(s: State, s': State, user: string, p: string, row: TrashRow)
    requires Integrity(s) && Archives(s, s'.fs, user, p) && s'.users == s.users
    requires Owns(row, user, s.nextId) && row.size == |s.fs[Phys(p)].data|
    requires s'.trash == s.trash[s.nextId + 1 := row] && !Owned(s.trash, Phys(p))
    ensures forall i {:trigger s'.trash[i]} :: i in s'.trash ==> Backed(s', s'.trash[i])
  {
    ArchiveWorks(s, user, p, s.nextId);
    forall i {:trigger s'.trash[i]} | i in s'.trash ensures Backed(s', s'.trash[i]) {
      if i != s.nextId + 1 && !s.trash[i].isDir {
        assert Backed(s, s.trash[i]) && RowSane(i, s.trash[i], s.nextId);
        ArchiveKeepsBlob(s, s'.fs, user, p, s.trash[i].user, s.trash[i].blob.value);
      }
    }
  }

  lemma ArchivedApart(s: State, s': State, user: string, row: TrashRow)
    requires Valid(s) && Integrity(s) && Owns(row, user, s.nextId) && s'.trash == s.trash[s.nextId + 1 := row]
    ensures forall i, j {:trigger s'.trash[i], s'.trash[j]} ::
              i in s'.trash && j in s'.trash && ShareBlob(s'.trash[i], s'.trash[j]) ==> i == j
  {
    forall i, j {:trigger s'.trash[i], s'.trash[j]} | i in s'.trash && j in s'.trash && ShareBlob(s'.trash[i], s'.trash[j])
      ensures i == j
    {
      if i in s.trash { assert Backed(s, s.trash[i]) && RowSane(i, s.trash[i], s.nextId); }
      if j in s.trash { assert Backed(s, s.trash[j]) && RowSane(j, s.trash[j], s.nextId); }
    }
  }

  lemma ArchiveKeepsBlob(s: State, fs': Tree, user: string, p: string, u: string, h: nat)
    requires Archives(s, fs', user, p) && u in s.users
    ensures u != user || h != s.nextId ==>
              At(fs', BlobPath(u, h)) == if BlobPath(u, h) == Phys(p) then None else At(s.fs, BlobPath(u, h))
  {
    assert ValidName(user) && ValidName(u);
    ArchiveWorks(s, user, p, s.nextId);
    BlobNotInChain(user, u, h);
    if BlobPath(u, h) == BlobPath(user, s.nextId) { BlobPathInjective(u, h, user, s.nextId); }
  }

  lemma ArchiveOrphans(s: State, s': State, user: string, p: string, row: TrashRow)
    requires NoOrphans(s) && Archives(s, s'.fs, user, p) && s'.users == s.users
    requires Owns(row, user, s.nextId) && s'.trash == s.trash[s.nextId + 1 := row]
    ensures NoOrphans(s')
  {
    NewRowId(s);
    forall u, h {:trigger BlobPath(u, h)} | u in s'.users && BlobPath(u, h) in s'.fs
      ensures exists i :: i in s'.trash && Owns(s'.trash[i], u, h)
    {
      ArchiveKeepsBlob(s, s'.fs, user, p, u, h);
      if u == user && h == s.nextId {
        assert Owns(s'.trash[s.nextId + 1], u, h);
      } else {
        assert At(s'.fs, BlobPath(u, h)) == At(s.fs, BlobPath(u, h));
        var i :| i in s.trash && Owns(s.trash[i], u, h);
        assert i in s'.trash && Owns(s'.trash[i], u, h);
      }
    }
  }

  // What a step keeps: validity, integrity and the form of the rows; and no blob is orphaned if
  // none was, as long as `sole` holds.
  ghost predicate KeepsTrash(s: State, s': State, sole: bool) {
    && Valid(s') && s'.users == s.users && Integrity(s')
    && (Rooted(s.trash) ==> Rooted(s'.trash))
    && (NoOrphans(s) && sole ==> NoOrphans(s'))
  }

  // A directory below the home, stripped of it: what the rows of its children are recorded under.
  lemma StrippedRooted(user: string, p: string)
    requires Above(Home(user), p) && p[|p| - 1] != '/'
    ensures "/" <= FilesDir(user, p) && FilesDir(user, p) != "/" && RelativeDir(user, p) == FilesDir(user, p)
  {
    assert p[..|Home(user)|] == Home(user);
    assert FilesDir(user, p)[0] == p[|Home(user)|] && FilesDir(user, p)[|FilesDir(user, p)| - 1] == p[|p| - 1];
  }

  lemma KeyRooted(k: Key)
    requires PlainName(k.name) && Above(Home(k.user), PathOf(k))
    ensures "/" <= FilesDir(k.user, PathOf(k)) && FilesDir(k.user, PathOf(k)) != "/"
    ensures RelativeDir(k.user, PathOf(k)) == FilesDir(k.user, PathOf(k))
    ensures "/" <= RelativeDir(k.user, k.dir)
    ensures Under(k.dir, Home(k.user)) && "/" <= k.dir && k.dir != "/"
  {
    var p := PathOf(k);
    assert k.name[|k.name| - 1] in k.name && p[|p| - 1] == k.name[|k.name| - 1];
    StrippedRooted(k.user, p);
    AboveChild(Home(k.user), k.dir, k.name);
    HomeBelow(k.user, k.dir);
    if Above(Home(k.user), k.dir) { assert RelativeDir(k.user, k.dir)[0] == k.dir[|Home(k.user)|]; }
  }

  lemma ArchivedKeeps(s: State, s': State, user: string, p: string, row: TrashRow)
    requires Integrity(s) && Archives(s, s'.fs, user, p) && s'.users == s.users && s'.nextId == s.nextId + 2
    requires Owns(row, user, s.nextId) && row.size == |s.fs[Phys(p)].data|
    requires PlainName(row.name) && "/" <= row.dir && row.dir != "/" && !Owned(s.trash, Phys(p))
    requires s'.trash == s.trash[s.nextId + 1 := row]
    ensures KeepsTrash(s, s', true)
  {
    ArchiveIntegrity(s, s', user, p, row);
    ArchivedValid(s, s', user, p, row);
  }

  lemma ArchivedValid(s: State, s': State, user: string, p: string, row: TrashRow)
    requires Archives(s, s'.fs, user, p) && s'.users == s.users && s'.nextId == s.nextId + 2
    requires RowSane(s.nextId + 1, row, s'.nextId) && "/" <= row.dir && (row.dir == "/" ==> row.isDir)
    requires s'.trash == s.trash[s.nextId + 1 := row]
    ensures Valid(s') && (Rooted(s.trash) ==> Rooted(s'.trash))
  {
    NewRowSane(s, s', s.nextId + 1, row);
    ArchiveValid(s, s', user, p);
  }

  lemma NewRowSane(s: State, s': State, id: nat, row: TrashRow)
    requires Valid(s) && id < s'.nextId && s.nextId < s'.nextId && RowSane(id, row, s'.nextId)
    requires "/" <= row.dir && (row.dir == "/" ==> row.isDir) && s'.trash == s.trash[id := row]
    ensures forall i {:trigger i in s'.trash} :: i in s'.trash ==> RowSane(i, s'.trash[i], s'.nextId)
    ensures Rooted(s.trash) ==> Rooted(s'.trash)
  {
    forall i {:trigger i in s'.trash} | i in s'.trash ensures RowSane(i, s'.trash[i], s'.nextId) {
      if i != id { assert RowSane(i, s.trash[i], s.nextId); }
    }
  }

  // A file anywhere below the home, blobs included: deleting it keeps the trash whole exactly when it
  // is not there or no row owns it.
  lemma DeleteFileIntegrity(s: State, k: Key, now: int)
    requires Valid(s) && Integrity(s) && Registered(s.users, k) && Above(Home(k.user), PathOf(k))
    ensures var s' := DeleteFileResult(s, k, now).0;
            && (Integrity(s') <==> !IsFile(s.fs, Phys(PathOf(k))) || !Owned(s.trash, Phys(PathOf(k))))
            && (Integrity(s') ==> KeepsTrash(s, s', true))
  {
    if IsFile(s.fs, Phys(PathOf(k))) {
      KeyRooted(k);
      var s' := FileArchived(s, k, now);
      ArchiveIntegrity(s, s', k.user, PathOf(k), s'.trash[s.nextId + 1]);
      if Integrity(s') { ArchivedKeeps(s, s', k.user, PathOf(k), s'.trash[s.nextId + 1]); }
    }
  }

  lemma FileArchived(s: State, k: Key, now: int) returns (s': State)
    requires Valid(s) && k.user in s.users && IsFile(s.fs, Phys(PathOf(k)))
    ensures s' == DeleteFileResult(s, k, now).0
    ensures Archives(s, s'.fs, k.user, PathOf(k)) && s'.users == s.users && s'.nextId == s.nextId + 2
    ensures var row := TrashRow(k.user, k.dir, k.name, false, |s.fs[Phys(PathOf(k))].data|, Some(s.nextId), now);
            s'.trash == s.trash[s.nextId + 1 := row]
  {
    ArchiveWorks(s, k.user, PathOf(k), s.nextId);
    s' := DeleteFileResult(s, k, now).0;
  }

  // ---- The directory walk --------------------------------------------------------------------

  // No blob of a row lies at or below p, and none still to be drawn will.
  ghost predicate BlobsElsewhere(s: State, user: string, p: string) {
    && (forall q {:trigger Owned(s.trash, q)} :: Owned(s.trash, q) ==> !Under(q, Phys(p)))
    && (forall h: nat {:trigger BlobPath(user, h)} :: h >= s.nextId ==> !Under(BlobPath(user, h), Phys(p)))
  }

  // Only three directories hold blobs: the home, .Trash and .Trash/blobs.
  predicate HoldsBlobs(user: string, p: string) {
    Under(TrashRoot(user) + "/blobs", p)
  }

  lemma BlobOwner(s: State, q: string) returns (u: string, h: nat)
    requires Valid(s) && Integrity(s) && Owned(s.trash, q)
    ensures u in s.users && ValidName(u) && q == BlobPath(u, h) && IsFile(s.fs, q)
  {
    var i :| i in s.trash && !s.trash[i].isDir && s.trash[i].blob.Some? && BlobOf(s.trash[i]) == q;
    assert Backed(s, s.trash[i]);
    u, h := s.trash[i].user, s.trash[i].blob.value;
  }

  // Rows with one blob are one row.
  lemma SameBlobSameRow(s: State, i: nat, j: nat)
    requires Valid(s) && Integrity(s) && i in s.trash && j in s.trash && !s.trash[i].isDir && !s.trash[j].isDir
    requires BlobOf(s.trash[i]) == BlobOf(s.trash[j])
    ensures i == j
  {
    assert Backed(s, s.trash[i]) && Backed(s, s.trash[j]);
    assert ValidName(s.trash[i].user) && ValidName(s.trash[j].user);
    BlobPathInjective(s.trash[i].user, s.trash[i].blob.value, s.trash[j].user, s.trash[j].blob.value);
    assert ShareBlob(s.trash[i], s.trash[j]);
  }

  lemma DirectoryHoldsNoBlob(user: string, p: string, u: string, h: nat)
    requires ValidName(user) && ValidName(u) && Under(p, Home(user)) && !HoldsBlobs(user, p) && Phys(p) != BlobPath(u, h)
    ensures !Under(BlobPath(u, h), Phys(p))
  {
    BlobPathFacts(u, h);
    var b := Child(TrashRoot(u) + "/blobs", UuidText(h));
    PhysUnder(b, p);
    AboveChild(p, TrashRoot(u) + "/blobs", UuidText(h));
    if Above(p, b) {
      AboveTransitive(Home(user), p, b);
      assert Above(Home(u), TrashRoot(u));
      AboveTransitive(Home(u), TrashRoot(u), b);
      HomesApart(user, u, b);
    }
  }

  // Every other directory at or below the home is clear of blobs.
  lemma DirectoryBlobsElsewhere(s: State, user: string, p: string)
    requires Valid(s) && Integrity(s) && user in s.users
    requires Under(p, Home(user)) && !HoldsBlobs(user, p) && IsDir(s.fs, Phys(p))
    ensures BlobsElsewhere(s, user, p)
  {
    assert ValidName(user);
    forall q | Owned(s.trash, q) ensures !Under(q, Phys(p)) {
      var u, h := BlobOwner(s, q);
      DirectoryHoldsNoBlob(user, p, u, h);
    }
    forall h: nat | h >= s.nextId ensures !Under(BlobPath(user, h), Phys(p)) {
      DirectoryHoldsNoBlob(user, p, user, h);
    }
  }

  // The walk of a directory below the home.
  ghost predicate Walking(s: State, k: Key) {
    && Valid(s) && Integrity(s) && Registered(s.users, k) && Above(Home(k.user), PathOf(k))
    && BlobsElsewhere(s, k.user, PathOf(k))
  }

  // Found at or below the directory.
  ghost predicate FoundIn(k: Key, found: seq<Found>) {
    forall f {:trigger f in found} :: f in found ==> PlainName(f.name) && Under(f.path, PathOf(k))
  }

  lemma FoundKeeps(s: State, k: Key, now: int, f: Found)
    requires Walking(s, k) && PlainName(f.name) && Under(f.path, PathOf(k))
    ensures KeepsTrash(s, ArchiveFound(s, k, now, f).0, true) && Walking(ArchiveFound(s, k, now, f).0, k)
  {
    if IsFile(s.fs, Phys(f.path)) {
      PhysUnder(f.path, PathOf(k));
      assert !Owned(s.trash, Phys(f.path));
      ArchiveFoundWorks(s, k, now, f, "");
      ArchiveFoundTrash(s, k, now, f);
      FoundRowKeeps(s, ArchiveFound(s, k, now, f).0, k, now, f);
      StillElsewhere(s, ArchiveFound(s, k, now, f).0, k, FileRow(s, k, now, f, s.nextId));
    }
  }

  lemma FoundRowKeeps(s: State, s': State, k: Key, now: int, f: Found)
    requires Walking(s, k) && PlainName(f.name) && Archives(s, s'.fs, k.user, f.path) && !Owned(s.trash, Phys(f.path))
    requires s'.users == s.users && s'.nextId == s.nextId + 2
    requires s'.trash == s.trash[s.nextId + 1 := FileRow(s, k, now, f, s.nextId)]
    ensures KeepsTrash(s, s', true)
  {
    KeyRooted(k);
    ArchivedKeeps(s, s', k.user, f.path, FileRow(s, k, now, f, s.nextId));
  }

  lemma StillElsewhere(s: State, s': State, k: Key, row: TrashRow)
    requires BlobsElsewhere(s, k.user, PathOf(k)) && Owns(row, k.user, s.nextId) && s'.nextId >= s.nextId
    requires s'.trash == s.trash[s.nextId + 1 := row]
    ensures BlobsElsewhere(s', k.user, PathOf(k))
  {
    forall q | Owned(s'.trash, q) ensures !Under(q, Phys(PathOf(k))) {
      var i :| i in s'.trash && !s'.trash[i].isDir && s'.trash[i].blob.Some? && BlobOf(s'.trash[i]) == q;
      if i != s.nextId + 1 { assert s.trash[i] == s'.trash[i] && Owned(s.trash, q); }
    }
  }

  lemma {:induction false} FoundAllKeep(s: State, k: Key, now: int, found: seq<Found>)
    requires Walking(s, k) && FoundIn(k, found)
    ensures KeepsTrash(s, ArchiveAll(s, k, now, found).0, true) && Walking(ArchiveAll(s, k, now, found).0, k)
  {
    if found != [] {
      var n := |found| - 1;
      assert forall f :: f in found[..n] ==> f in found;
      FoundAllKeep(s, k, now, found[..n]);
      assert found[n] in found;
      FoundKeeps(ArchiveAll(s, k, now, found[..n]).0, k, now, found[n]);
    }
  }

  // Every id in use has been drawn.
  ghost predicate IdsDrawn(s: State) {
    forall id {:trigger id in s.trash} :: id in s.trash ==> id < s.nextId
  }

  lemma {:induction false} FileDirsIntegrity(s: State, k: Key, now: int, dirs: seq<string>)
    requires IdsDrawn(s) && Integrity(s)
    ensures var s' := FileDirs(s, k, now, dirs); IdsDrawn(s') && Integrity(s') && (NoOrphans(s) ==> NoOrphans(s'))
  {
    if dirs != [] {
      var rest := dirs[..|dirs| - 1];
      FileDirsIntegrity(s, k, now, rest);
      var s1 := FileDirs(s, k, now, rest);
      FileDirsTree(s, k, now, rest);
      IntegrityKept(s1, FileDirs(s, k, now, dirs));
    }
  }

  lemma {:induction false} FileDirsRooted(s: State, k: Key, now: int, dirs: seq<string>)
    requires "/" <= RelativeDir(k.user, PathOf(k)) && Rooted(s.trash)
    ensures Rooted(FileDirs(s, k, now, dirs).trash)
  {
    if dirs != [] { FileDirsRooted(s, k, now, dirs[..|dirs| - 1]); }
  }

  lemma OpenWalkIntegrity(s: State, k: Key, now: int)
    requires Valid(s) && Integrity(s) && Registered(s.users, k)
    ensures var s1 := OpenWalk(s, k, now); Valid(s1) && Integrity(s1) && (NoOrphans(s) ==> NoOrphans(s1))
  {
    NewRowId(s);
    IntegrityKept(s, OpenWalk(s, k, now));
    OpenWalkValid(s, k, now);
  }

  lemma OpenedKeeps(s: State, k: Key, now: int)
    requires Valid(s) && Integrity(s) && Registered(s.users, k) && Above(Home(k.user), PathOf(k))
    ensures KeepsTrash(s, OpenWalk(s, k, now), true)
  {
    KeyRooted(k);
    OpenWalkIntegrity(s, k, now);
  }

  lemma OpenWalkKeeps(s: State, k: Key, now: int)
    requires Walking(s, k)
    ensures KeepsTrash(s, OpenWalk(s, k, now), true) && Walking(OpenWalk(s, k, now), k)
  {
    OpenedKeeps(s, k, now);
    var s1 := OpenWalk(s, k, now);
    forall q | Owned(s1.trash, q) ensures !Under(q, Phys(PathOf(k))) {
      var i :| i in s1.trash && !s1.trash[i].isDir && s1.trash[i].blob.Some? && BlobOf(s1.trash[i]) == q;
      assert s.trash[i] == s1.trash[i] && Owned(s.trash, q);
    }
  }

  // remove_all of something below the home spares the homes.
  lemma RemoveBelowHomeValid(s: State, user: string, p: string)
    requires Valid(s) && user in s.users && Above(Home(user), p)
    ensures Valid(s.(fs := RemoveAll(s.fs, Phys(p))))
  {
    RemoveAllWellFormed(s.fs, Phys(p));
    forall u | u in s.users ensures !Under(Phys(Home(u)), Phys(p)) {
      assert ValidName(u) && ValidName(user);
      PhysUnder(Home(u), p);
      if Under(Home(u), p) {
        AboveTransitive(Home(user), p, Home(u));
        HomesApart(user, u, Home(u));
      }
    }
  }

  // What stands at the blobs of the rows stays, and no blob appears.
  lemma RemovalIntegrity(s: State, user: string, p: string)
    requires Valid(s) && Integrity(s) && BlobsElsewhere(s, user, p)
    ensures var s' := s.(fs := RemoveAll(s.fs, Phys(p))); Integrity(s') && (NoOrphans(s) ==> NoOrphans(s'))
  {
    var s' := s.(fs := RemoveAll(s.fs, Phys(p)));
    forall i {:trigger s'.trash[i]} | i in s'.trash ensures Backed(s', s'.trash[i]) {
      assert Backed(s, s.trash[i]);
      if !s.trash[i].isDir { assert Owned(s.trash, BlobOf(s.trash[i])); }
    }
  }

  lemma RemovedKeeps(s: State, k: Key)
    requires Walking(s, k)
    ensures KeepsTrash(s, s.(fs := RemoveAll(s.fs, Phys(PathOf(k)))), true)
  {
    RemovalIntegrity(s, k.user, PathOf(k));
    RemoveBelowHomeValid(s, k.user, PathOf(k));
  }

  lemma RecordedKeeps(s: State, k: Key, now: int, dirs: seq<string>, cloud: Cloud)
    requires Valid(s) && Integrity(s) && Registered(s.users, k) && Above(Home(k.user), PathOf(k))
    requires forall n :: n in dirs ==> PlainName(n)
    ensures KeepsTrash(s, FileDirs(s, k, now, dirs).(cloud := cloud), true)
  {
    NewRowId(s);
    FileDirsIntegrity(s, k, now, dirs);
    FileDirsFrame(s, k, now, dirs);
    KeyRooted(k);
    if Rooted(s.trash) { FileDirsRooted(s, k, now, dirs); }
    var s4 := FileDirs(s, k, now, dirs);
    IntegrityKept(s4, s4.(cloud := cloud));
  }

  // The subtree goes, the rows of its direct sub-directories come, the index rows go.
  lemma CloseWalkKeeps(s: State, k: Key, now: int, dirs: seq<string>, cloud: Cloud)
    requires Walking(s, k) && forall n :: n in dirs ==> PlainName(n)
    ensures KeepsTrash(s, FileDirs(s.(fs := RemoveAll(s.fs, Phys(PathOf(k)))), k, now, dirs).(cloud := cloud), true)
  {
    RemovedKeeps(s, k);
    RecordedKeeps(s.(fs := RemoveAll(s.fs, Phys(PathOf(k)))), k, now, dirs, cloud);
  }

  // The walk of any directory below the home but .Trash and .Trash/blobs keeps the trash whole, whatever
  // the shape of the subtree, the names in it and the point at which the walk ends.
  lemma DeleteDirIntegrity(s: State, k: Key, now: int, files: seq<string>, dirs: seq<string>)
    requires Valid(s) && Integrity(s) && Registered(s.users, k) && Normal(PathOf(k))
    requires Above(Home(k.user), PathOf(k)) && !HoldsBlobs(k.user, PathOf(k)) && IsDir(s.fs, Phys(PathOf(k)))
    requires Listing(s.fs, PathOf(k), files, dirs)
    ensures KeepsTrash(s, DeleteDirResult(s, k, now, files, dirs).0, true)
  {
    DirectoryBlobsElsewhere(s, k.user, PathOf(k));
    FoundInDirectory(s, k, files, dirs);
    WalkKeeps(s, k, now, files, dirs, FoundFiles(k, files));
  }

  lemma FoundInDirectory(s: State, k: Key, files: seq<string>, dirs: seq<string>)
    requires Normal(PathOf(k)) && Above(Home(k.user), PathOf(k)) && Listing(s.fs, PathOf(k), files, dirs)
    ensures FoundIn(k, FoundFiles(k, files)) && forall n :: n in dirs ==> PlainName(n)
  {
    FoundBelow(k, files);
    forall f | f in FoundFiles(k, files) ensures PlainName(f.name) {
      var i := FoundIndex(k, files, f);
      assert HasFile(s.fs, PathOf(k), files[i]);
    }
    forall n | n in dirs ensures PlainName(n) { assert HasChild(s.fs, PathOf(k), n); }
  }

  lemma WalkKeeps(s: State, k: Key, now: int, files: seq<string>, dirs: seq<string>, found: seq<Found>)
    requires Walking(s, k) && Normal(PathOf(k)) && found == FoundFiles(k, files) && FoundIn(k, found)
    requires forall n :: n in dirs ==> PlainName(n)
    ensures KeepsTrash(s, DeleteDirResult(s, k, now, files, dirs).0, true)
  {
    OpenWalkKeeps(s, k, now);
    FoundAllKeep(OpenWalk(s, k, now), k, now, found);
    var (s2, r) := ArchiveAll(OpenWalk(s, k, now), k, now, found);
    if r.Ok? {
      OnlyOk(r);
      DeleteUnfold(s, k, now, files, dirs, s2);
      WalkClosed(s2, DeleteDirResult(s, k, now, files, dirs).0, k, now, dirs);
    } else {
      DeleteStops(s, k, now, files, dirs, s2, r);
    }
  }

  lemma WalkClosed(s: State, s': State, k: Key, now: int, dirs: seq<string>)
    requires Walking(s, k) && forall n :: n in dirs ==> PlainName(n)
    requires s' == FileDirs(s.(fs := RemoveAll(s.fs, Phys(PathOf(k)))), k, now, dirs).(cloud := s'.cloud)
    ensures KeepsTrash(s, s', true)
  {
    CloseWalkKeeps(s, k, now, dirs, s'.cloud);
  }

  // ---- Rows leave the trash ------------------------------------------------------------------

  // The rows under ids are among those to be dropped.
  ghost predicate Leaving(trash: Trash, drop: TrashRow -> bool, rows: seq<TrashRow>, ids: seq<nat>) {
    |rows| == |ids| &&
    forall j {:trigger ids[j]} {:trigger rows[j]} :: 0 <= j < |ids| ==>
      ids[j] in trash && rows[j] == trash[ids[j]] && drop(rows[j])
  }

  // Rows disappear together with their blobs; what is left stays whole.
  lemma RowsLeave(s: State, s': State, drop: TrashRow -> bool, rows: seq<TrashRow>, ids: seq<nat>)
    requires Valid(s) && Integrity(s) && s'.users == s.users
    requires s'.trash == DropRows(s.trash, drop)
    requires Leaving(s.trash, drop, rows, ids)
    requires SameBlobs(s.(fs := DeleteBlobs(s.fs, rows)), s')
    ensures Integrity(s')
    ensures NoOrphans(s) && (forall i {:trigger i in s.trash} :: i in s.trash && drop(s.trash[i]) && !s.trash[i].isDir ==> i in ids)
            ==> NoOrphans(s')
  {
    forall i {:trigger s'.trash[i]} | i in s'.trash ensures Backed(s', s'.trash[i]) {
      var row := s.trash[i];
      assert Backed(s, row);
      if !row.isDir { SurvivorKeepsBlob(s, drop, rows, ids, i); }
    }
    if NoOrphans(s) && (forall i :: i in s.trash && drop(s.trash[i]) && !s.trash[i].isDir ==> i in ids) {
      forall u, h {:trigger BlobPath(u, h)} | u in s'.users && BlobPath(u, h) in s'.fs
        ensures exists i :: i in s'.trash && Owns(s'.trash[i], u, h)
      {
        AtDeleteBlobs(s.fs, rows, BlobPath(u, h));
        assert At(s'.fs, BlobPath(u, h)) == At(s.fs, BlobPath(u, h));
        var i :| i in s.trash && Owns(s.trash[i], u, h);
        assert Backed(s, s.trash[i]) && IsFile(s.fs, BlobPath(u, h));
        assert !drop(s.trash[i]);
        assert i in s'.trash && Owns(s'.trash[i], u, h);
      }
    }
  }

  lemma SurvivorKeepsBlob(s: State, drop: TrashRow -> bool, rows: seq<TrashRow>, ids: seq<nat>, i: nat)
    requires Valid(s) && Integrity(s) && i in s.trash && !s.trash[i].isDir && !drop(s.trash[i])
    requires Leaving(s.trash, drop, rows, ids)
    ensures s.trash[i].blob.Some? && s.trash[i].user in s.users
    ensures var b := BlobPath(s.trash[i].user, s.trash[i].blob.value);
            At(DeleteBlobs(s.fs, rows), b) == At(s.fs, b)
  {
    var row := s.trash[i];
    assert Backed(s, row);
    var b := BlobPath(row.user, row.blob.value);
    AtDeleteBlobs(s.fs, rows, b);
    if At(DeleteBlobs(s.fs, rows), b) != At(s.fs, b) {
      var j :| 0 <= j < |rows| && !rows[j].isDir && rows[j].blob.Some? && b == BlobPath(rows[j].user, rows[j].blob.value);
      assert rows[j] == s.trash[ids[j]];
      assert Backed(s, rows[j]) && ValidName(rows[j].user) && ValidName(row.user);
      BlobPathInjective(row.user, row.blob.value, rows[j].user, rows[j].blob.value);
      assert false;
    }
  }

  // The purger: old rows and their blobs leave together.
  lemma PurgeIntegrity(s: State, cutoff: int, rows: seq<TrashRow>, ids: seq<nat>)
    requires Valid(s) && Integrity(s) && QueryRows(s.trash, (t: TrashRow) => t.deletedAt < cutoff, rows, ids)
    ensures Integrity(Purged(s, cutoff, rows)) && (NoOrphans(s) ==> NoOrphans(Purged(s, cutoff, rows)))
  {
    RowsLeave(s, Purged(s, cutoff, rows), (t: TrashRow) => t.deletedAt < cutoff, rows, ids);
  }

  // ---- Restore and permanent delete ----------------------------------------------------------

  lemma DirEraseIntegrity(s: State, item: TrashRow, base: string, rows: seq<TrashRow>, ids: seq<nat>)
    requires Valid(s) && Integrity(s) && item.isDir
    requires QueryRows(s.trash, (t: TrashRow) => !t.isDir && InTrashTree(t, item.user, base), rows, ids)
    ensures var s' := ErasedItem(s, item, base, rows);
            Integrity(s') && (NoOrphans(s) ==> NoOrphans(s'))
  {
    RowsLeave(s, ErasedItem(s, item, base, rows),
              (t: TrashRow) => InTrashTree(t, item.user, base)
                               || (SameItem(t, item.user, item.dir, item.name) && t.isDir), rows, ids);
  }

  // The file row is the only one of its trash path.
  ghost predicate OnlyFileOfItsPath(trash: Trash, id: nat)
    requires id in trash
  {
    forall j {:trigger j in trash} ::
      j in trash && !trash[j].isDir && SameItem(trash[j], trash[id].user, trash[id].dir, trash[id].name) ==> j == id
  }

  // Erasing or restoring one file drops every file row of its trash path but only one blob: no
  // orphan is left exactly when the path was held once.
  lemma OneBlobManyRows(s: State, s': State, id: nat)
    requires Valid(s) && Integrity(s) && id in s.trash && !s.trash[id].isDir && s'.users == s.users
    requires var item := s.trash[id];
             s'.trash == DropRows(s.trash, (t: TrashRow) => SameItem(t, item.user, item.dir, item.name) && !t.isDir)
    requires SameBlobs(s.(fs := DeleteBlobs(s.fs, [s.trash[id]])), s')
    ensures Integrity(s')
    ensures NoOrphans(s) ==> (NoOrphans(s') <==> OnlyFileOfItsPath(s.trash, id))
  {
    var item := s.trash[id];
    var drop := (t: TrashRow) => SameItem(t, item.user, item.dir, item.name) && !t.isDir;
    assert Leaving(s.trash, drop, [item], [id]);
    RowsLeave(s, s', drop, [item], [id]);
    if j :| j in s.trash && !s.trash[j].isDir && SameItem(s.trash[j], item.user, item.dir, item.name) && j != id {
      OrphanLeft(s, s', id, j);
    } else {
      assert OnlyFileOfItsPath(s.trash, id);
    }
  }

  lemma OrphanLeft(s: State, s': State, id: nat, j: nat)
    requires Valid(s) && Integrity(s) && s'.users == s.users
    requires id in s.trash && j in s.trash && j != id && !s.trash[id].isDir && !s.trash[j].isDir
    requires var item := s.trash[id];
             && SameItem(s.trash[j], item.user, item.dir, item.name)
             && s'.trash == DropRows(s.trash, (t: TrashRow) => SameItem(t, item.user, item.dir, item.name) && !t.isDir)
    requires SameBlobs(s.(fs := DeleteBlobs(s.fs, [s.trash[id]])), s')
    ensures !NoOrphans(s')
  {
    var item, twin := s.trash[id], s.trash[j];
    assert Backed(s, item) && Backed(s, twin) && ValidName(item.user);
    var b := BlobPath(twin.user, twin.blob.value);
    AtDeleteBlobs(s.fs, [item], b);
    if b == BlobPath(item.user, item.blob.value) {
      BlobPathInjective(twin.user, twin.blob.value, item.user, item.blob.value);
    }
    assert !ShareBlob(item, twin);
    assert At(s'.fs, b) == At(s.fs, b);
    assert b in s'.fs;
    forall i | i in s'.trash ensures !Owns(s'.trash[i], twin.user, twin.blob.value) {
      if Owns(s.trash[i], twin.user, twin.blob.value) { assert ShareBlob(s.trash[i], s.trash[j]); }
    }
  }

  lemma FileEraseIntegrity(s: State, id: nat, base: string, rows: seq<TrashRow>)
    requires Valid(s) && Integrity(s) && id in s.trash && !s.trash[id].isDir
    ensures var s' := ErasedItem(s, s.trash[id], base, rows);
            Integrity(s') && (NoOrphans(s) ==> (NoOrphans(s') <==> OnlyFileOfItsPath(s.trash, id)))
  {
    OneBlobManyRows(s, ErasedItem(s, s.trash[id], base, rows), id);
  }

  lemma DeleteKeepsSame(s: State, s1: State, rows: seq<TrashRow>)
    requires SameBlobs(s, s1)
    ensures SameBlobs(s.(fs := DeleteBlobs(s.fs, rows)), s1.(fs := DeleteBlobs(s1.fs, rows)))
  {
    forall u, h {:trigger BlobPath(u, h)} | u in s.users
      ensures At(DeleteBlobs(s1.fs, rows), BlobPath(u, h)) == At(DeleteBlobs(s.fs, rows), BlobPath(u, h))
    {
      assert At(s1.fs, BlobPath(u, h)) == At(s.fs, BlobPath(u, h));
      SameDeletions(s.fs, s1.fs, rows, BlobPath(u, h));
    }
  }

  lemma {:induction false} SameDeletions(fs: Tree, fs1: Tree, rows: seq<TrashRow>, q: string)
    requires At(fs1, q) == At(fs, q)
    ensures At(DeleteBlobs(fs1, rows), q) == At(DeleteBlobs(fs, rows), q)
  {
    if rows != [] { SameDeletions(fs, fs1, rows[..|rows| - 1], q); }
  }

  // Restoring a file: the same, and until the last step nothing has left the trash.
  lemma RestoreFileIntegrity(s: State, id: nat, dst: Key)
    requires Valid(s) && Integrity(s) && id in s.trash && !s.trash[id].isDir
    requires InDomain(s.users, dst)
    ensures var (s', r) := RestoreFileResult(s, s.trash[id], dst);
            Integrity(s') && (NoOrphans(s) ==> (NoOrphans(s') <==> r.Err? || OnlyFileOfItsPath(s.trash, id)))
  {
    var item := s.trash[id];
    assert Backed(s, item);
    var b := BlobPath(item.user, item.blob.value);
    var data := s.fs[b].data;
    RestoreSaves(s, dst, data);
    var (s1, r1) := SaveResult(s, dst, data);
    SaveAtFrame(s, dst, dst.dir, dst.name, data, |data|);
    TrackedChangesKeepBlobs(s, s1, dst.user);
    IntegrityKept(s, s1);
    if r1.Ok? {
      DeleteKeepsSame(s, s1, [item]);
      var s' := RestoreFileResult(s, item, dst).0;
      assert DeleteBlobs(s1.fs, [item]) == Delete(s1.fs, b) by { assert [item][..0] == []; }
      OneBlobManyRows(s, s', id);
    }
  }

  // Until the clean-up of a restored directory.
  lemma RowsRestoredKeep(s: State, c: Target, rows: seq<TrashRow>) returns (s0: State, s1: State)
    requires Valid(s) && Integrity(s) && AnyTarget(s, c) && "/" <= c.to && RowsLand(c, rows)
    ensures s0 == s.(fs := TryCreateDir(s.fs, ParentOp(c.toUser, Parent(c.to)))) && s1 == RestoreRows(s0, rows, c).0
    ensures Valid(s1) && s1.users == s.users && s1.trash == s.trash && SameBlobs(s, s1)
    ensures Integrity(s1) && (NoOrphans(s) ==> NoOrphans(s1))
  {
    s0 := s.(fs := TryCreateDir(s.fs, ParentOp(c.toUser, Parent(c.to))));
    RestoreOpens(s, c);
    RestoreRowsFrame(s0, rows, c);
    s1 := RestoreRows(s0, rows, c).0;
    OnlyTrackedTransitive(s.fs, s0.fs, s1.fs, c.toUser);
    TrackedChangesKeepBlobs(s, s1, c.toUser);
    IntegrityKept(s, s1);
  }

  // What is left of the state and its trash at the end.
  ghost predicate StillWhole(s: State, s': State) {
    Integrity(s') && (NoOrphans(s) ==> NoOrphans(s'))
  }

  lemma RestoredRowsLeave(s: State, s1: State, s': State, dir: string, name: string, c: Target,
                          rows: seq<TrashRow>, ids: seq<nat>)
    requires Valid(s) && Integrity(s) && BelowRows(s.trash, c, rows, ids)
    requires s1.users == s.users && s1.trash == s.trash && SameBlobs(s, s1)
    requires s' == s1.(fs := DeleteBlobs(s1.fs, rows),
                       trash := DropRows(s1.trash, (t: TrashRow) => Below(t, c) || (SameItem(t, c.user, dir, name) && t.isDir)))
    ensures StillWhole(s, s')
  {
    DeleteKeepsSame(s, s1, rows);
    RowsLeave(s, s', (t: TrashRow) => Below(t, c) || (SameItem(t, c.user, dir, name) && t.isDir), rows, ids);
  }

  lemma RestoreEnds(s: State, s0: State, s1: State, dir: string, name: string, c: Target,
                    rows: seq<TrashRow>, ids: seq<nat>)
    requires Valid(s) && Integrity(s) && "/" <= c.to && BelowRows(s.trash, c, rows, ids)
    requires s0 == s.(fs := TryCreateDir(s.fs, ParentOp(c.toUser, Parent(c.to)))) && s1 == RestoreRows(s0, rows, c).0
    requires s1.users == s.users && s1.trash == s.trash && SameBlobs(s, s1) && StillWhole(s, s1)
    ensures StillWhole(s, RestoreDirResult(s, dir, name, c, rows).0)
  {
    if RestoreRows(s0, rows, c).1.Ok? {
      RestoredRowsLeave(s, s1, RestoreDirResult(s, dir, name, c, rows).0, dir, name, c, rows, ids);
    }
  }

  // Restoring a directory keeps referential integrity at every outcome, unless a row leads into .Trash.
  lemma RestoreDirIntegrity(s: State, dir: string, name: string, c: Target, rows: seq<TrashRow>, ids: seq<nat>)
    requires Valid(s) && Integrity(s) && AnyTarget(s, c) && "/" <= c.to && RowsLand(c, rows)
    requires BelowRows(s.trash, c, rows, ids)
    ensures StillWhole(s, RestoreDirResult(s, dir, name, c, rows).0)
  {
    var s0, s1 := RowsRestoredKeep(s, c, rows);
    RestoreEnds(s, s0, s1, dir, name, c, rows, ids);
  }
}
