/**
  delete of a directory that holds the blobs: a home, its .Trash or .Trash/blobs. No check stops it,
  and remove_all takes the blobs along with the rest.
 */
module HomeDeletion {
  import opened Wrappers
  import opened VirtualPath
  import opened FileTree
  import opened StorageState
  import opened StorageTrash
  import opened StorageRequests
  import opened TrashIntegrity

  // ---- A walk that meets blobs -------------------------------------------------------------------

  // How many of the files are archived.
  function ArchivedCount(s: State, k: Key, now: int, found: seq<Found>): (m: nat)
    ensures m <= |found|
  {
    if found == [] then 0
    else if ArchiveAll(s, k, now, found[..|found| - 1]).1.Err? then ArchivedCount(s, k, now, found[..|found| - 1])
    else if ArchiveAll(s, k, now, found).1.Ok? then |found|
    else |found| - 1
  }

  // None of the first m files is the blob of a row when its turn comes.
  ghost predicate SparesBlobs(s: State, k: Key, now: int, found: seq<Found>, m: nat)
    requires m <= |found|
  {
    forall i {:trigger found[i]} :: 0 <= i < m ==> !Owned(ArchiveAll(s, k, now, found[..i]).0.trash, Phys(found[i].path))
  }

  lemma SparesPrefix(s: State, k: Key, now: int, found: seq<Found>, n: nat, m: nat)
    requires m <= n <= |found|
    ensures SparesBlobs(s, k, now, found[..n], m) <==> SparesBlobs(s, k, now, found, m)
  {
    forall i | 0 <= i < m ensures found[..n][..i] == found[..i] && found[..n][i] == found[i] {}
  }

  // A row without its blob stays so.
  lemma LostStaysLost(s: State, s': State, user: string, p: string, row: TrashRow)
    requires !Integrity(s) && Archives(s, s'.fs, user, p) && s'.users == s.users
    requires Owns(row, user, s.nextId) && s'.trash == s.trash[s.nextId + 1 := row]
    ensures !Integrity(s')
  {
    NewRowId(s);
    if i :| i in s.trash && !Backed(s, s.trash[i]) {
      StillUnbacked(s, s', user, p, i);
      assert s'.trash[i] == s.trash[i];
    } else {
      var i, j :| i in s.trash && j in s.trash && ShareBlob(s.trash[i], s.trash[j]) && i != j;
      assert s'.trash[i] == s.trash[i] && s'.trash[j] == s.trash[j];
    }
  }

  lemma StillUnbacked(s: State, s': State, user: string, p: string, i: nat)
    requires Archives(s, s'.fs, user, p) && s'.users == s.users && i in s.trash && !Backed(s, s.trash[i])
    ensures !Backed(s', s.trash[i])
  {
    var row := s.trash[i];
    assert RowSane(i, row, s.nextId);
    if row.blob.Some? && row.user in s.users { ArchiveKeepsBlob(s, s'.fs, user, p, row.user, row.blob.value); }
  }

  lemma StepSpares(s: State, k: Key, now: int, f: Found)
    requires Valid(s) && Registered(s.users, k) && IsFile(s.fs, Phys(f.path))
    ensures Integrity(ArchiveFound(s, k, now, f).0) <==> Integrity(s) && !Owned(s.trash, Phys(f.path))
  {
    var s' := ArchiveFound(s, k, now, f).0;
    ArchiveFoundWorks(s, k, now, f, "");
    ArchiveFoundTrash(s, k, now, f);
    SparedOrLost(s, s', k.user, f.path, FileRow(s, k, now, f, s.nextId));
  }

  lemma SparedOrLost(s: State, s': State, user: string, p: string, row: TrashRow)
    requires Archives(s, s'.fs, user, p) && s'.users == s.users && row.size == |s.fs[Phys(p)].data|
    requires Owns(row, user, s.nextId) && s'.trash == s.trash[s.nextId + 1 := row]
    ensures Integrity(s') <==> Integrity(s) && !Owned(s.trash, Phys(p))
  {
    if Integrity(s) { ArchiveIntegrity(s, s', user, p, row); } else { LostStaysLost(s, s', user, p, row); }
  }

  // Archiving files of any kind keeps the trash whole exactly when none of them is a row's blob.
  lemma {:induction false} ArchiveAllIntegrity(s: State, k: Key, now: int, found: seq<Found>)
    requires Valid(s) && Integrity(s) && Registered(s.users, k) && forall f :: f in found ==> PlainName(f.name)
    ensures var (s', r) := ArchiveAll(s, k, now, found);
            && Valid(s') && s'.users == s.users && (r.Ok? ==> ArchivedCount(s, k, now, found) == |found|)
            && (Integrity(s') <==> SparesBlobs(s, k, now, found, ArchivedCount(s, k, now, found)))
  {
    if found != [] {
      var n := |found| - 1;
      ArchiveAllIntegrity(s, k, now, found[..n]);
      SparesPrefix(s, k, now, found, n, ArchivedCount(s, k, now, found[..n]));
      if ArchiveAll(s, k, now, found[..n]).1.Ok? {
        OnlyOk(ArchiveAll(s, k, now, found[..n]).1);
        LastSpares(s, k, now, found, ArchiveAll(s, k, now, found[..n]).0);
      }
    }
  }

  lemma SparesNext(s: State, k: Key, now: int, found: seq<Found>, s1: State)
    requires found != [] && ArchiveAll(s, k, now, found[..|found| - 1]).0 == s1
    ensures SparesBlobs(s, k, now, found, |found|)
            <==> SparesBlobs(s, k, now, found, |found| - 1) && !Owned(s1.trash, Phys(found[|found| - 1].path))
  {
    assert found[|found| - 1] == found[|found| - 1];
  }

  lemma LastSpares(s: State, k: Key, now: int, found: seq<Found>, s1: State)
    requires found != [] && ArchiveAll(s, k, now, found[..|found| - 1]) == (s1, Ok(()))
    requires Valid(s1) && Registered(s1.users, k) && s1.users == s.users && PlainName(found[|found| - 1].name)
    requires Integrity(s1) <==> SparesBlobs(s, k, now, found, |found| - 1)
    ensures var (s', r) := ArchiveAll(s, k, now, found);
            && Valid(s') && s'.users == s.users
            && (r.Ok? ==> (Integrity(s') <==> SparesBlobs(s, k, now, found, |found|)))
            && (r.Err? ==> (Integrity(s') <==> SparesBlobs(s, k, now, found, |found| - 1)))
  {
    var last := found[|found| - 1];
    ArchiveAllUnfold(s, s1, k, now, found);
    if IsFile(s1.fs, Phys(last.path)) {
      LastArchivedSpares(s1, k, now, last);
      SparesNext(s, k, now, found, s1);
    }
  }

  lemma LastArchivedSpares(s1: State, k: Key, now: int, f: Found)
    requires Valid(s1) && Registered(s1.users, k) && PlainName(f.name) && IsFile(s1.fs, Phys(f.path))
    ensures var (s', r) := ArchiveFound(s1, k, now, f);
            && r.Ok? && Valid(s') && s'.users == s1.users
            && (Integrity(s') <==> Integrity(s1) && !Owned(s1.trash, Phys(f.path)))
  {
    ArchiveFoundWorks(s1, k, now, f, "");
    ArchiveFoundValid(s1, k, now, f);
    StepSpares(s1, k, now, f);
  }

  // ---- Rows that outlive their blobs ---------------------------------------------------------------

  // The row is in the trash, and no id drawn later replaces it.
  predicate Recorded(s: State, id: nat, row: TrashRow) {
    id in s.trash && s.trash[id] == row && id < s.nextId
  }

  lemma {:induction false} ArchivingKeepsRow(s: State, k: Key, now: int, found: seq<Found>, id: nat, row: TrashRow)
    requires Recorded(s, id, row)
    ensures Recorded(ArchiveAll(s, k, now, found).0, id, row)
  {
    if found != [] { ArchivingKeepsRow(s, k, now, found[..|found| - 1], id, row); }
  }

  lemma {:induction false} FilingKeepsRow(s: State, k: Key, now: int, dirs: seq<string>, id: nat, row: TrashRow)
    requires Recorded(s, id, row)
    ensures Recorded(FileDirs(s, k, now, dirs), id, row)
  {
    if dirs != [] { FilingKeepsRow(s, k, now, dirs[..|dirs| - 1], id, row); }
  }

  predicate FileRowOf(row: TrashRow, user: string) {
    !row.isDir && row.user == user
  }

  lemma ArchivingRecords(s: State, k: Key, now: int, found: seq<Found>) returns (id: nat, row: TrashRow)
    requires found != [] && ArchiveAll(s, k, now, found).1.Ok?
    ensures Recorded(ArchiveAll(s, k, now, found).0, id, row) && FileRowOf(row, k.user)
  {
    var s1 := ArchiveAll(s, k, now, found[..|found| - 1]).0;
    id, row := s1.nextId + 1, ArchiveAll(s, k, now, found).0.trash[s1.nextId + 1];
  }

  // The user has nothing in the trash but directories, and no file stands directly in p.
  ghost predicate NothingToLose(s: State, user: string, p: string) {
    && (forall i {:trigger i in s.trash} :: i in s.trash ==> !FileRowOf(s.trash[i], user))
    && (forall n {:trigger HasFile(s.fs, p, n)} :: !HasFile(s.fs, p, n))
  }

  lemma SomeFileRow(s: State, k: Key, now: int, files: seq<string>, dirs: seq<string>) returns (id: nat, row: TrashRow)
    requires Valid(s) && Listing(s.fs, PathOf(k), files, dirs) && !NothingToLose(s, k.user, PathOf(k))
    requires ArchiveAll(OpenWalk(s, k, now), k, now, FoundFiles(k, files)).1.Ok?
    ensures Recorded(ArchiveAll(OpenWalk(s, k, now), k, now, FoundFiles(k, files)).0, id, row) && FileRowOf(row, k.user)
  {
    if i :| i in s.trash && FileRowOf(s.trash[i], k.user) {
      id, row := i, s.trash[i];
      NewRowId(s);
      ArchivingKeepsRow(OpenWalk(s, k, now), k, now, FoundFiles(k, files), id, row);
    } else {
      var n :| HasFile(s.fs, PathOf(k), n);
      assert n in files;
      id, row := ArchivingRecords(OpenWalk(s, k, now), k, now, FoundFiles(k, files));
    }
  }

  lemma BlobBelow(user: string, h: nat, p: string)
    requires HoldsBlobs(user, p)
    ensures Under(BlobPath(user, h), Phys(p))
  {
    BlobPathFacts(user, h);
    var b := Child(TrashRoot(user) + "/blobs", UuidText(h));
    AboveTransitive(p, TrashRoot(user) + "/blobs", b);
    PhysUnder(b, p);
  }

  // A file row whose blobs are gone.
  lemma RowDangles(s: State, user: string, p: string, id: nat, row: TrashRow)
    requires Recorded(s, id, row) && FileRowOf(row, user) && HoldsBlobs(user, p)
    requires forall q :: q in s.fs ==> !Under(q, Phys(p))
    ensures !Integrity(s)
  {
    if row.blob.Some? { BlobBelow(user, row.blob.value, p); }
    assert !Backed(s, s.trash[id]);
  }

  // The walk is over: everything below is gone, and the sub-directories are recorded.
  ghost predicate Emptied(s: State, s2: State, k: Key, now: int, files: seq<string>, dirs: seq<string>) {
    && ArchiveAll(OpenWalk(s, k, now), k, now, FoundFiles(k, files)) == (s2, Ok(()))
    && var s3 := FileDirs(s2.(fs := RemoveAll(s2.fs, Phys(PathOf(k)))), k, now, dirs);
       DeleteDirResult(s, k, now, files, dirs) == (s3.(cloud := Unindexed(s3.cloud, k)), Ok(()))
  }

  lemma WalkOver(s: State, k: Key, now: int, files: seq<string>, dirs: seq<string>) returns (s2: State)
    requires Normal(PathOf(k)) && DeleteDirResult(s, k, now, files, dirs).1.Ok?
    ensures Emptied(s, s2, k, now, files, dirs)
  {
    var walked := ArchiveAll(OpenWalk(s, k, now), k, now, FoundFiles(k, files));
    s2 := walked.0;
    if walked.1.Err? {
      DeleteStops(s, k, now, files, dirs, s2, walked.1);
    } else {
      OnlyOk(walked.1);
      DeleteUnfold(s, k, now, files, dirs, s2);
    }
  }

  lemma SomethingLost(s: State, s2: State, k: Key, now: int, files: seq<string>, dirs: seq<string>)
    requires Valid(s) && HoldsBlobs(k.user, PathOf(k)) && Listing(s.fs, PathOf(k), files, dirs)
    requires Emptied(s, s2, k, now, files, dirs) && !NothingToLose(s, k.user, PathOf(k))
    ensures !Integrity(DeleteDirResult(s, k, now, files, dirs).0)
  {
    var id, row := SomeFileRow(s, k, now, files, dirs);
    LostWith(s2, k, now, dirs, id, row, DeleteDirResult(s, k, now, files, dirs).0);
  }

  lemma LostWith(s2: State, k: Key, now: int, dirs: seq<string>, id: nat, row: TrashRow, s': State)
    requires Recorded(s2, id, row) && FileRowOf(row, k.user) && HoldsBlobs(k.user, PathOf(k))
    requires s' == FileDirs(s2.(fs := RemoveAll(s2.fs, Phys(PathOf(k)))), k, now, dirs).(cloud := s'.cloud)
    ensures !Integrity(s')
  {
    var s3 := s2.(fs := RemoveAll(s2.fs, Phys(PathOf(k))));
    FilingKeepsRow(s3, k, now, dirs, id, row);
    FileDirsTree(s3, k, now, dirs);
    RowDangles(s', k.user, PathOf(k), id, row);
  }

  // The rows are of others, and their blobs lie in other homes.
  ghost predicate OthersOnly(s: State, k: Key) {
    && Valid(s) && Integrity(s) && Registered(s.users, k) && Under(PathOf(k), Home(k.user))
    && forall i {:trigger i in s.trash} :: i in s.trash ==> !FileRowOf(s.trash[i], k.user)
  }

  lemma BlobOfAnother(u: string, v: string, h: nat)
    requires '/' !in u && '/' !in v && u != v
    ensures !Under(BlobPath(v, h), Phys(Home(u)))
  {
    BlobPathFacts(v, h);
    var b := Child(TrashRoot(v) + "/blobs", UuidText(h));
    assert Above(Home(v), TrashRoot(v));
    AboveTransitive(Home(v), TrashRoot(v), b);
    PhysUnder(b, Home(u));
    if Under(b, Home(u)) { HomesApart(u, v, b); }
  }

  lemma OthersElsewhere(s: State, k: Key, i: nat)
    requires OthersOnly(s, k) && i in s.trash && !s.trash[i].isDir
    ensures !Under(BlobOf(s.trash[i]), Phys(PathOf(k)))
  {
    var row := s.trash[i];
    assert Backed(s, row) && ValidName(row.user) && ValidName(k.user);
    BlobOfAnother(k.user, row.user, row.blob.value);
    PhysUnder(PathOf(k), Home(k.user));
    if Under(BlobOf(row), Phys(PathOf(k))) { AboveTransitive(Phys(Home(k.user)), Phys(PathOf(k)), BlobOf(row)); }
  }

  lemma EmptiedIntegrity(s: State, k: Key)
    requires OthersOnly(s, k)
    ensures var s' := s.(fs := RemoveAll(s.fs, Phys(PathOf(k)))); Integrity(s') && (NoOrphans(s) ==> NoOrphans(s'))
  {
    var s' := s.(fs := RemoveAll(s.fs, Phys(PathOf(k))));
    forall i {:trigger s'.trash[i]} | i in s'.trash ensures Backed(s', s'.trash[i]) {
      assert Backed(s, s.trash[i]);
      if !s.trash[i].isDir { OthersElsewhere(s, k, i); }
    }
  }

  lemma ClosedIntegrity(s: State, k: Key, now: int, dirs: seq<string>, cloud: Cloud)
    requires OthersOnly(s, k)
    ensures var s' := FileDirs(s.(fs := RemoveAll(s.fs, Phys(PathOf(k)))), k, now, dirs).(cloud := cloud);
            Integrity(s') && (NoOrphans(s) ==> NoOrphans(s'))
  {
    var s3 := s.(fs := RemoveAll(s.fs, Phys(PathOf(k))));
    EmptiedIntegrity(s, k);
    NewRowId(s);
    FileDirsIntegrity(s3, k, now, dirs);
    var s4 := FileDirs(s3, k, now, dirs);
    IntegrityKept(s4, s4.(cloud := cloud));
  }

  lemma ClosedKeeps(s: State, k: Key, now: int, dirs: seq<string>, cloud: Cloud)
    requires OthersOnly(s, k) && Above(Home(k.user), PathOf(k)) && forall n :: n in dirs ==> PlainName(n)
    ensures KeepsTrash(s, FileDirs(s.(fs := RemoveAll(s.fs, Phys(PathOf(k)))), k, now, dirs).(cloud := cloud), true)
  {
    EmptiedIntegrity(s, k);
    RemoveBelowHomeValid(s, k.user, PathOf(k));
    RecordedKeeps(s.(fs := RemoveAll(s.fs, Phys(PathOf(k)))), k, now, dirs, cloud);
  }

  lemma NoFiles(fs: Tree, p: string, files: seq<string>, dirs: seq<string>)
    requires Listing(fs, p, files, dirs) && forall n {:trigger HasFile(fs, p, n)} :: !HasFile(fs, p, n)
    ensures files == [] && forall n :: n in dirs ==> PlainName(n)
  {
    FirstMember(files);
    forall n | n in dirs ensures PlainName(n) { assert HasChild(fs, p, n); }
  }

  lemma FirstMember(names: seq<string>)
    ensures names != [] ==> names[0] in names
  {
  }

  lemma NothingLost(s: State, k: Key, now: int, files: seq<string>, dirs: seq<string>)
    requires Valid(s) && Integrity(s) && Registered(s.users, k) && Normal(PathOf(k)) && Under(PathOf(k), Home(k.user))
    requires Listing(s.fs, PathOf(k), files, dirs) && NothingToLose(s, k.user, PathOf(k))
    ensures var s' := DeleteDirResult(s, k, now, files, dirs).0;
            && Integrity(s') && (NoOrphans(s) ==> NoOrphans(s'))
            && (Above(Home(k.user), PathOf(k)) ==> KeepsTrash(s, s', true))
  {
    var s1, s' := OpenWalk(s, k, now), DeleteDirResult(s, k, now, files, dirs).0;
    NoFiles(s.fs, PathOf(k), files, dirs);
    OpenWalkIntegrity(s, k, now);
    assert OthersOnly(s1, k);
    DeleteUnfold(s, k, now, files, dirs, s1);
    ClosedIntegrity(s1, k, now, dirs, s'.cloud);
    if Above(Home(k.user), PathOf(k)) {
      OpenedKeeps(s, k, now);
      ClosedKeeps(s1, k, now, dirs, s'.cloud);
    }
  }

  // ---- The three directories -----------------------------------------------------------------------

  // Deleting a directory that holds the blobs leaves nothing of it if it succeeds, and then keeps the
  // trash whole exactly when the user has no file in it and none directly in the directory. If it stops
  // at a file it cannot find, exactly when no file archived so far was a row's blob.
  lemma DeleteOverBlobs(s: State, k: Key, now: int, files: seq<string>, dirs: seq<string>)
    requires Valid(s) && Integrity(s) && Registered(s.users, k) && Normal(PathOf(k)) && Under(PathOf(k), Home(k.user))
    requires HoldsBlobs(k.user, PathOf(k)) && Listing(s.fs, PathOf(k), files, dirs)
    ensures var (s', r) := DeleteDirResult(s, k, now, files, dirs);
            var s1, found := OpenWalk(s, k, now), FoundFiles(k, files);
            && s'.users == s.users && (OwnPaths(k, files) ==> r.Ok?)
            && (r.Ok? ==> (forall q :: q in s'.fs ==> !Under(q, Phys(PathOf(k))))
                          && (Integrity(s') <==> NothingToLose(s, k.user, PathOf(k))))
            && (r.Err? ==> (Integrity(s') <==> SparesBlobs(s1, k, now, found, ArchivedCount(s1, k, now, found))))
  {
    OpenWalkIntegrity(s, k, now);
    ListedPlain(s.fs, k, files, dirs);
    ArchiveAllIntegrity(OpenWalk(s, k, now), k, now, FoundFiles(k, files));
    if OwnPaths(k, files) { OwnPathsSucceed(s, k, now, files, dirs); }
    if DeleteDirResult(s, k, now, files, dirs).1.Ok? {
      var s2 := WalkOver(s, k, now, files, dirs);
      FileDirsTree(s2.(fs := RemoveAll(s2.fs, Phys(PathOf(k)))), k, now, dirs);
      if NothingToLose(s, k.user, PathOf(k)) {
        NothingLost(s, k, now, files, dirs);
      } else {
        SomethingLost(s, s2, k, now, files, dirs);
      }
    }
  }

  lemma ListedPlain(fs: Tree, k: Key, files: seq<string>, dirs: seq<string>)
    requires Listing(fs, PathOf(k), files, dirs)
    ensures forall f :: f in FoundFiles(k, files) ==> PlainName(f.name)
  {
    forall f | f in FoundFiles(k, files) ensures PlainName(f.name) {
      var i := FoundIndex(k, files, f);
      assert HasFile(fs, PathOf(k), files[i]);
    }
  }

  lemma OwnPathsSucceed(s: State, k: Key, now: int, files: seq<string>, dirs: seq<string>)
    requires Valid(s) && Registered(s.users, k) && Normal(PathOf(k)) && Listing(s.fs, PathOf(k), files, dirs) && OwnPaths(k, files)
    ensures DeleteDirResult(s, k, now, files, dirs).1.Ok?
  {
    OwnPathsReached(s, k, files, dirs);
    var s2 := WalkArchives(s, k, now, files, dirs, "");
  }

  // ---- The requests --------------------------------------------------------------------------------

  function HomeKey(u: string): Key {
    Key(u, "/User", u)
  }

  lemma HomeKeyFacts(u: string)
    requires ValidName(u)
    ensures PathOf(HomeKey(u)) == Home(u) && Normal(Home(u)) && "/User/" <= Home(u)
    ensures |Components(Home(u))| == 2 && Components(Home(u))[1] == u && KeyFor(Home(u)) == HomeKey(u)
  {
    var parts := ["User", u];
    assert ValidParts(parts);
    RenderIsSlashed(parts);
    SlashedTwo(parts);
    assert Slashed(parts) == "/User/" + u;
    ComponentsOfRender(parts);
    SplitLast("/User", u);
    assert Child("/User", u) == Home(u);
  }

  lemma TrashPathNormal(u: string)
    requires ValidName(u)
    ensures Normal(TrashRoot(u)) && Normal(TrashRoot(u) + "/blobs") && Above(TrashRoot(u), TrashRoot(u) + "/blobs")
    ensures Above(Home(u), TrashRoot(u)) && Above(Home(u), TrashRoot(u) + "/blobs")
  {
    HomeKeyFacts(u);
    assert TrashRoot(u) == Child(Home(u), ".Trash") && TrashRoot(u) + "/blobs" == Child(TrashRoot(u), "blobs");
    NormalChild(Home(u), ".Trash");
    NormalChild(TrashRoot(u), "blobs");
    AboveTransitive(Home(u), TrashRoot(u), TrashRoot(u) + "/blobs");
  }

  // The key of a path below a home.
  lemma RoutedBelow(u: string, p: string) returns (k: Key)
    requires ValidName(u) && Normal(p) && Above(Home(u), p)
    ensures "/User/" <= p && |Components(p)| >= 2 && Components(p)[1] == u
    ensures k == KeyFor(p) && PathOf(k) == p && k.user == u && PlainName(k.name)
  {
    HomeBelow(u, p);
    k := RoutedKey(p);
    HomesApart(u, k.user, p);
  }

  // The trash of u, and the directory of its blobs.
  lemma TrashPathFacts(u: string, p: string) returns (k: Key)
    requires ValidName(u) && (p == TrashRoot(u) || p == TrashRoot(u) + "/blobs")
    ensures Normal(p) && "/User/" <= p && |Components(p)| >= 2 && Components(p)[1] == u
    ensures k == KeyFor(p) && PathOf(k) == p && k.user == u && PlainName(k.name)
    ensures HoldsBlobs(u, p) && Above(Home(u), p)
  {
    TrashPathNormal(u);
    k := RoutedBelow(u, p);
  }

  // What a delete of such a directory comes to.
  ghost predicate WholeIffSpared(s: State, s': State, u: string, p: string, r: Outcome) {
    && ((forall n {:trigger HasFile(s.fs, p, n)} :: HasFile(s.fs, p, n) ==> ValidName(n)) ==> r == Ok(()))
    && (r.Ok? ==> (forall q :: q in s'.fs ==> !Under(q, Phys(p))) && (Integrity(s') <==> NothingToLose(s, u, p)))
  }

  lemma DeleteSpared(s: State, s': State, k: Key, now: int, r: Outcome)
    requires Valid(s) && Integrity(s) && Registered(s.users, k) && Normal(PathOf(k)) && Under(PathOf(k), Home(k.user))
    requires HoldsBlobs(k.user, PathOf(k)) && PathOf(k) != "/" && DeleteDirStep(s, s', k, now, r)
    ensures WholeIffSpared(s, s', k.user, PathOf(k), r) && s'.users == s.users
    ensures NothingToLose(s, k.user, PathOf(k)) && Above(Home(k.user), PathOf(k)) ==> KeepsTrash(s, s', true)
  {
    var files, dirs :| Listing(s.fs, PathOf(k), files, dirs) && (s', r) == DeleteDirResult(s, k, now, files, dirs);
    if forall n :: HasFile(s.fs, PathOf(k), n) ==> ValidName(n) {
      forall n | n in files ensures Addressed(k, n) == Child(PathOf(k), n) {
        assert HasFile(s.fs, PathOf(k), n);
        ValidNamesAddressed(k, n);
      }
    }
    DeleteOverBlobs(s, k, now, files, dirs);
    if NothingToLose(s, k.user, PathOf(k)) { NothingLost(s, k, now, files, dirs); }
  }

  lemma HomeGone(s: State, u: string)
    requires u in s.users && forall q :: q in s.fs ==> !Under(q, Phys(Home(u)))
    ensures !Valid(s)
  {
    assert Phys(Home(u)) !in s.fs;
  }

  // A home: the request goes through, and no home is left. The trash stays whole exactly when the user has
  // no file in it and none directly in the home.
  lemma DeleteHomeIntegrity(s: State, s': State, username: string, u: string, now: int, r: Outcome)
    requires Valid(s) && Integrity(s) && u in s.users && (username == u || username == "admin")
    requires DeleteRequest(s, s', username, Home(u), now, r)
    ensures WholeIffSpared(s, s', u, Home(u), r) && (r.Ok? ==> !Valid(s'))
  {
    assert ValidName(u) && IsDir(s.fs, Phys(Home(u)));
    HomeKeyFacts(u);
    TrashPathNormal(u);
    DeleteSpared(s, s', HomeKey(u), now, r);
    if r.Ok? { HomeGone(s', u); }
  }

  // .Trash or .Trash/blobs: the same, and with nothing to lose the state stays valid. The row of a file
  // dangles as soon as its owner has one.
  lemma DeleteTrashIntegrity(s: State, s': State, username: string, u: string, p: string, now: int, r: Outcome)
    requires Valid(s) && Integrity(s) && u in s.users && (username == u || username == "admin")
    requires (p == TrashRoot(u) || p == TrashRoot(u) + "/blobs") && IsDir(s.fs, Phys(p))
    requires DeleteRequest(s, s', username, p, now, r)
    ensures WholeIffSpared(s, s', u, p, r)
    ensures NothingToLose(s, u, p) ==> KeepsTrash(s, s', true)
  {
    assert ValidName(u);
    var k := TrashPathFacts(u, p);
    DeleteSpared(s, s', k, now, r);
  }

  // ---- Inputs that harm ----------------------------------------------------------------------------

  // A blob's own path.
  function BlobVirtual(u: string, h: nat): string {
    Child(TrashRoot(u) + "/blobs", UuidText(h))
  }

  lemma BlobVirtualFacts(u: string, h: nat) returns (k: Key)
    requires ValidName(u)
    ensures Normal(BlobVirtual(u, h)) && "/User/" <= BlobVirtual(u, h) && |Components(BlobVirtual(u, h))| >= 2
    ensures Components(BlobVirtual(u, h))[1] == u && Above(Home(u), BlobVirtual(u, h)) && Phys(BlobVirtual(u, h)) == BlobPath(u, h)
    ensures k == KeyFor(BlobVirtual(u, h)) && PathOf(k) == BlobVirtual(u, h) && k.user == u && PlainName(k.name)
  {
    TrashPathNormal(u);
    BlobPathFacts(u, h);
    assert UuidText(h)[0] == '0' && ValidName(UuidText(h));
    NormalChild(TrashRoot(u) + "/blobs", UuidText(h));
    AboveTransitive(Home(u), TrashRoot(u) + "/blobs", BlobVirtual(u, h));
    k := RoutedBelow(u, BlobVirtual(u, h));
  }

  // With a file of u in the trash and no file directly in .Trash, u can delete .Trash, and the row dangles.
  lemma DeletingTrashHarms(s: State, s': State, u: string, id: nat, now: int, r: Outcome)
    requires Valid(s) && Integrity(s) && id in s.trash && FileRowOf(s.trash[id], u)
    requires forall n {:trigger HasFile(s.fs, TrashRoot(u), n)} :: !HasFile(s.fs, TrashRoot(u), n)
    requires DeleteRequest(s, s', u, TrashRoot(u), now, r)
    ensures r == Ok(()) && !Integrity(s')
  {
    assert Backed(s, s.trash[id]);
    TrashDirsThere(s, u, s.trash[id].blob.value);
    DeleteTrashIntegrity(s, s', u, u, TrashRoot(u), now, r);
    assert !NothingToLose(s, u, TrashRoot(u));
  }

  lemma TrashDirsThere(s: State, u: string, h: nat)
    requires Valid(s) && BlobPath(u, h) in s.fs && u in s.users
    ensures IsDir(s.fs, Phys(TrashRoot(u)))
  {
    BlobPathFacts(u, h);
    AboveTransitive(TrashRoot(u), TrashRoot(u) + "/blobs", BlobVirtual(u, h));
    PhysUnder(BlobVirtual(u, h), TrashRoot(u));
  }

  // So can u delete the blob itself.
  lemma DeletingBlobHarms(s: State, s': State, u: string, id: nat, now: int, r: Outcome)
    requires Valid(s) && Integrity(s) && id in s.trash && FileRowOf(s.trash[id], u) && s.trash[id].blob.Some?
    requires DeleteRequest(s, s', u, BlobVirtual(u, s.trash[id].blob.value), now, r)
    ensures r == Ok(()) && !Integrity(s')
  {
    var h := s.trash[id].blob.value;
    assert Backed(s, s.trash[id]) && ValidName(u);
    var k := BlobVirtualFacts(u, h);
    assert BlobOf(s.trash[id]) == BlobPath(u, h) && Owned(s.trash, BlobPath(u, h));
    DeleteFileIntegrity(s, k, now);
    ArchiveWorks(s, u, PathOf(k), s.nextId);
  }
}
