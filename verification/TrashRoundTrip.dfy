/**
  Deleting a directory and what can be had back: which contents survive, and the round trip
  through the trash of a directory of the user's root.
 */
module TrashRoundTrip {
  import opened Wrappers
  import opened VirtualPath
  import opened Like
  import opened FileTree
  import opened StorageState
  import opened StorageIndex
  import opened StorageTrash
  import opened StorageRestore
  import opened StorageRoundTrip
  import opened TrashIntegrity

  // ---- Which contents survive a directory delete ---------------------------------------------

  // j names a file below the directory k.
  predicate FileBelow(s: State, k: Key, j: Key) {
    InDomain(s.users, j) && Above(PathOf(k), PathOf(j)) && IsFile(s.fs, Phys(PathOf(j)))
  }

  // A new trash row with j's address and a blob with j's bytes.
  predicate SavedAs(s: State, s': State, k: Key, j: Key, id: nat) {
    && id in s'.trash && id !in s.trash && !s'.trash[id].isDir
    && SameItem(s'.trash[id], k.user, RelativeDir(k.user, j.dir), j.name)
    && s'.trash[id].blob.Some?
    && At(s'.fs, BlobPath(k.user, s'.trash[id].blob.value)) == At(s.fs, Phys(PathOf(j)))
  }

  lemma RelativeDirInjective(user: string, d: string, e: string)
    requires Above(Home(user), d) && Above(Home(user), e) && RelativeDir(user, d) == RelativeDir(user, e)
    ensures d == e
  {
    var h := Home(user);
    assert h <= d && h <= e && d == h + d[|h|..] && e == h + e[|h|..];
  }

  lemma ListingIndex(fs: Tree, p: string, files: seq<string>, dirs: seq<string>, n: string) returns (i: nat)
    requires Listing(fs, p, files, dirs) && HasFile(fs, p, n)
    ensures i < |files| && files[i] == n
  {
    assert n in files;
    i :| i < |files| && files[i] == n;
  }

  // A walk below a home that comes to its end.
  ghost predicate Walks(s: State, k: Key, files: seq<string>, dirs: seq<string>) {
    && Valid(s) && InDomain(s.users, k) && Normal(PathOf(k))
    && Listing(s.fs, PathOf(k), files, dirs) && Reached(s, k, files)
  }

  // The index statements come after the walk and touch the index only.
  lemma DeleteIsWalk(s: State, k: Key, now: int, files: seq<string>, dirs: seq<string>)
    requires Walks(s, k, files, dirs)
    ensures DeleteDirResult(s, k, now, files, dirs)
            == (WalkResult(s, k, now, files, dirs).0.(cloud := Unindexed(s.cloud, k)), Ok(()))
  {
    WalkWorks(s, k, now, files, dirs, "");
  }

  // Only such a walk is answered with Ok.
  lemma FinishedWalk(s: State, k: Key, now: int, files: seq<string>, dirs: seq<string>)
    requires Valid(s) && InDomain(s.users, k) && Normal(PathOf(k)) && Listing(s.fs, PathOf(k), files, dirs)
    requires DeleteDirResult(s, k, now, files, dirs).1.Ok?
    ensures Walks(s, k, files, dirs)
  {
    OpenWalkValid(s, k, now);
    FoundTracked(s, k, files, dirs);
    ArchiveAllExact(OpenWalk(s, k, now), k, now, FoundFiles(k, files));
    assert Archivable(OpenWalk(s, k, now), FoundFiles(k, files)) <==> Archivable(s, FoundFiles(k, files));
  }

  lemma FreshIds(s: State, files: nat, o: Origin)
    requires Valid(s)
    ensures IdOf(s, files, o) !in s.trash
  {
    forall i | i in s.trash ensures i < s.nextId { assert RowSane(i, s.trash[i], s.nextId); }
  }

  // What a walk leaves of the found files: their rows, and their bytes in the blobs drawn for them.
  ghost predicate Walked(s: State, s': State, k: Key, now: int, found: seq<Found>, dirs: seq<string>) {
    && s'.trash == RowsAfter(s, k, now, found, dirs)
    && forall j {:trigger found[j]} :: 0 <= j < |found| ==>
         At(s'.fs, BlobPath(k.user, s.nextId + 1 + 2 * j)) == At(s.fs, Phys(found[j].path))
  }

  lemma WalkLeaves(s: State, k: Key, now: int, files: seq<string>, dirs: seq<string>)
    requires Walks(s, k, files, dirs)
    ensures Walked(s, WalkResult(s, k, now, files, dirs).0, k, now, FoundFiles(k, files), dirs)
  {
    WalkTrash(s, k, now, files, dirs);
    forall j | 0 <= j < |files|
      ensures At(WalkResult(s, k, now, files, dirs).0.fs, BlobPath(k.user, s.nextId + 1 + 2 * j))
              == At(s.fs, Phys(FoundFiles(k, files)[j].path))
    {
      BlobHoldsFile(s, k, now, files, dirs, j);
    }
  }

  // The files found are those listed, each name once.
  ghost predicate FoundNames(files: seq<string>, found: seq<Found>) {
    && |found| == |files| && (forall i {:trigger found[i]} :: 0 <= i < |found| ==> found[i].name == files[i])
    && (forall i, j {:trigger files[i], files[j]} :: 0 <= i < j < |files| ==> files[i] != files[j])
  }

  // j lies directly in the directory, and its name leads to a file with its own bytes.
  predicate Gathered(s: State, k: Key, j: Key) {
    j.dir == PathOf(k) && At(s.fs, Phys(Addressed(k, j.name))) == At(s.fs, Phys(PathOf(j)))
  }

  lemma FoundFileSaved(s: State, s': State, k: Key, now: int, files: seq<string>, found: seq<Found>, dirs: seq<string>,
                       j: Key, i: nat)
    requires Valid(s) && Walked(s, s', k, now, found, dirs) && FoundNames(files, found) && Above(Home(k.user), PathOf(k))
    requires j.dir == PathOf(k) && i < |found| && files[i] == j.name
    requires At(s.fs, Phys(found[i].path)) == At(s.fs, Phys(PathOf(j)))
    ensures exists id :: SavedAs(s, s', k, j, id)
  {
    var id := IdOf(s, |found|, OfFile(i));
    OriginPresent(s, k, now, found, dirs, OfFile(i));
    FreshIds(s, |found|, OfFile(i));
    RowSaves(s, s', k, j, id, FileRow(s, k, now, found[i], s.nextId + 1 + 2 * i));
  }

  lemma RowSaves(s: State, s': State, k: Key, j: Key, id: nat, row: TrashRow)
    requires id in s'.trash && id !in s.trash && s'.trash[id] == row && !row.isDir && row.blob.Some?
    requires row.user == k.user && row.dir == RelativeDir(k.user, j.dir) && row.name == j.name
    requires At(s'.fs, BlobPath(k.user, row.blob.value)) == At(s.fs, Phys(PathOf(j)))
    ensures SavedAs(s, s', k, j, id)
  {
  }

  // A new file row is of a direct file, and holds what its name led to.
  lemma SavedIsFound(s: State, s': State, k: Key, now: int, files: seq<string>, found: seq<Found>, dirs: seq<string>,
                     j: Key, id: nat) returns (i: nat)
    requires Valid(s) && Walked(s, s', k, now, found, dirs) && FoundNames(files, found) && Above(Home(k.user), PathOf(k))
    requires Under(j.dir, PathOf(k)) && SavedAs(s, s', k, j, id)
    ensures j.dir == PathOf(k) && i < |found| && files[i] == j.name
    ensures At(s.fs, Phys(found[i].path)) == At(s.fs, Phys(PathOf(j)))
  {
    var o := OriginOf(s, k, now, found, dirs, id);
    AboveTransitive(Home(k.user), PathOf(k), j.dir);
    i := o.index;
    assert found[i].name == files[i];
    RelativeDirInjective(k.user, j.dir, PathOf(k));
  }

  lemma SavedIffFound(s: State, s': State, k: Key, now: int, files: seq<string>, found: seq<Found>, dirs: seq<string>,
                      j: Key, i: nat)
    requires Valid(s) && Walked(s, s', k, now, found, dirs) && FoundNames(files, found) && Above(Home(k.user), PathOf(k))
    requires j.dir == PathOf(k) && i < |found| && files[i] == j.name
    ensures (exists id :: SavedAs(s, s', k, j, id)) <==> At(s.fs, Phys(found[i].path)) == At(s.fs, Phys(PathOf(j)))
  {
    if At(s.fs, Phys(found[i].path)) == At(s.fs, Phys(PathOf(j))) {
      FoundFileSaved(s, s', k, now, files, found, dirs, j, i);
    } else if id :| SavedAs(s, s', k, j, id) {
      var m := SavedIsFound(s, s', k, now, files, found, dirs, j, id);
    }
  }

  // A file in a sub-directory is not saved: remove_all takes the sub-directory before its turn comes.
  lemma DeeperFileLost(s: State, s': State, k: Key, now: int, files: seq<string>, found: seq<Found>, dirs: seq<string>, j: Key)
    requires Valid(s) && Walked(s, s', k, now, found, dirs) && FoundNames(files, found) && Above(Home(k.user), PathOf(k))
    requires Under(j.dir, PathOf(k)) && j.dir != PathOf(k)
    ensures !exists id :: SavedAs(s, s', k, j, id)
  {
    if id :| SavedAs(s, s', k, j, id) {
      var m := SavedIsFound(s, s', k, now, files, found, dirs, j, id);
      assert false;
    }
  }

  lemma FoundFilesNames(fs: Tree, k: Key, files: seq<string>, dirs: seq<string>)
    requires Listing(fs, PathOf(k), files, dirs)
    ensures FoundNames(files, FoundFiles(k, files))
  {
  }

  lemma SavedIffGathered(s: State, s': State, k: Key, now: int, files: seq<string>, found: seq<Found>, dirs: seq<string>, j: Key)
    requires Walks(s, k, files, dirs) && Walked(s, s', k, now, found, dirs) && FoundNames(files, found)
    requires forall i {:trigger found[i]} :: 0 <= i < |found| ==> found[i].path == Addressed(k, files[i])
    requires FileBelow(s, k, j)
    ensures (exists id :: SavedAs(s, s', k, j, id)) <==> Gathered(s, k, j)
  {
    AboveChild(PathOf(k), j.dir, j.name);
    if j.dir == PathOf(k) {
      var i := ListingIndex(s.fs, PathOf(k), files, dirs, j.name);
      SavedIffFound(s, s', k, now, files, found, dirs, j, i);
      assert found[i].path == Addressed(k, j.name);
    } else {
      DeeperFileLost(s, s', k, now, files, found, dirs, j);
    }
  }

  // Deleting a directory preserves every file's bytes under its own address in the trash exactly when
  // every file lies directly in the directory and its name leads to its own bytes.
  lemma ContentsSurviveIffFlat(s: State, k: Key, now: int, files: seq<string>, dirs: seq<string>)
    requires Walks(s, k, files, dirs)
    ensures (forall j :: FileBelow(s, k, j) ==>
               exists id :: SavedAs(s, DeleteDirResult(s, k, now, files, dirs).0, k, j, id))
            <==> (forall j :: FileBelow(s, k, j) ==> Gathered(s, k, j))
  {
    var s' := DeleteDirResult(s, k, now, files, dirs).0;
    DeleteIsWalk(s, k, now, files, dirs);
    WalkLeaves(s, k, now, files, dirs);
    FoundFilesNames(s.fs, k, files, dirs);
    forall j | FileBelow(s, k, j) ensures (exists id :: SavedAs(s, s', k, j, id)) <==> Gathered(s, k, j) {
      SavedIffGathered(s, s', k, now, files, FoundFiles(k, files), dirs, j);
    }
  }

  // Where every file is found at its own path, that is when no file lies deeper than the directory.
  lemma GatheredIffFlat(s: State, k: Key, files: seq<string>, dirs: seq<string>)
    requires Walks(s, k, files, dirs) && OwnPaths(k, files)
    ensures (forall j :: FileBelow(s, k, j) ==> Gathered(s, k, j)) <==> (forall j :: FileBelow(s, k, j) ==> j.dir == PathOf(k))
  {
    forall j | FileBelow(s, k, j) && j.dir == PathOf(k) ensures Gathered(s, k, j) {
      var i := ListingIndex(s.fs, PathOf(k), files, dirs, j.name);
      OwnFileGathered(s, k, files, j, i);
    }
  }

  lemma OwnFileGathered(s: State, k: Key, files: seq<string>, j: Key, i: nat)
    requires OwnPaths(k, files) && i < |files| && files[i] == j.name && j.dir == PathOf(k)
    ensures Gathered(s, k, j)
  {
    assert files[i] in files;
  }

  // A direct file whose name holds a backslash is looked for one level down. If it is not there the
  // delete fails, and tree and index disagree as soon as the listing began with a file that was found.
  lemma BackslashStopsDelete(s: State, k: Key, now: int, files: seq<string>, dirs: seq<string>, a: string, b: string)
    requires Valid(s) && Agree(s) && InDomain(s.users, k) && Normal(PathOf(k)) && Listing(s.fs, PathOf(k), files, dirs)
    requires ValidName(a) && ValidName(b) && HasFile(s.fs, PathOf(k), a + "\\" + b)
    requires !IsFile(s.fs, Phys(Child(Child(PathOf(k), a), b)))
    ensures var (s', r) := DeleteDirResult(s, k, now, files, dirs);
            r.Err? && files != [] && (IsFile(s.fs, Phys(Addressed(k, files[0]))) ==> !Agree(s'))
  {
    var n := a + "\\" + b;
    var i := ListingIndex(s.fs, PathOf(k), files, dirs, n);
    HomeBelow(k.user, PathOf(k));
    BackslashAddress(k, a, b);
    assert FoundFiles(k, files)[i] in FoundFiles(k, files);
    DeleteDirAgreement(s, k, now, files, dirs);
  }

  lemma BackslashAddress(k: Key, a: string, b: string)
    requires Normal(PathOf(k)) && PathOf(k) != "/" && ValidName(a) && ValidName(b)
    ensures Addressed(k, a + "\\" + b) == Child(Child(PathOf(k), a), b)
  {
    BackslashIsSlash(PathOf(k), a, b);
    NormalChild(PathOf(k), a);
    NormalChild(Child(PathOf(k), a), b);
    NormalizeIdempotent(Child(Child(PathOf(k), a), b));
  }

  // ---- The rows a restore of that directory finds ---------------------------------------------

  // Nothing of that trash path was there before.
  ghost predicate NoPrior(trash: Trash, c: Target, name: string) {
    forall i {:trigger i in trash} :: i in trash ==> !Below(trash[i], c) && !SameItem(trash[i], c.user, "/", name)
  }

  lemma {:induction false} EmptyMatches(pat: string)
    requires Matches("", pat)
    ensures forall ch :: ch in pat ==> ch == '%'
  {
    if pat != "" {
      EmptyMatches(pat[1..]);
      assert pat == [pat[0]] + pat[1..];
    }
  }

  // The top level itself is not below any of its directories.
  lemma TopNotSelected(name: string)
    requires name != ""
    ensures !Selects("/" + name, "/")
  {
    var pat := ("/" + name) + "/%";
    assert pat[1..] == name + "/%" && "/"[1..] == "";
    assert (name + "/%")[|name|] == '/';
    assert '/' in name + "/%";
    if Matches("/", pat) { EmptyMatches(name + "/%"); }
  }

  // A directory of the user's root, its trash address, and where it is restored to.
  ghost predicate TopLevel(s: State, k: Key, c: Target) {
    InDomain(s.users, k) && k.dir == Home(k.user) && k.name != "" && c.user == k.user && c.root == "/" + k.name
  }

  // Its walk finds every file at its own path, and nothing of that trash path was there before.
  ghost predicate TopWalk(s: State, k: Key, c: Target, files: seq<string>, dirs: seq<string>) {
    && Valid(s) && TopLevel(s, k, c) && Normal(PathOf(k)) && Listing(s.fs, PathOf(k), files, dirs)
    && OwnPaths(k, files) && NoPrior(s.trash, c, k.name)
  }

  lemma TopWalks(s: State, k: Key, c: Target, files: seq<string>, dirs: seq<string>)
    requires TopWalk(s, k, c, files, dirs)
    ensures Walks(s, k, files, dirs)
  {
    OwnPathsReached(s, k, files, dirs);
  }

  lemma TopLevelAddress(k: Key)
    requires k.dir == Home(k.user)
    ensures RelativeDir(k.user, PathOf(k)) == "/" + k.name && RelativeDir(k.user, k.dir) == "/"
  {
  }

  // Every listed file found at its own path.
  ghost predicate OwnFound(k: Key, files: seq<string>, found: seq<Found>) {
    |found| == |files| &&
    forall i {:trigger found[i]} :: 0 <= i < |found| ==> found[i] == Found(files[i], Child(PathOf(k), files[i]))
  }

  // The walk of a directory of the user's root led from s to s1, and the trash held nothing of that path.
  ghost predicate TopWalked(s: State, s1: State, k: Key, now: int, c: Target, files: seq<string>, found: seq<Found>, dirs: seq<string>) {
    && Valid(s) && TopLevel(s, k, c) && Listing(s.fs, PathOf(k), files, dirs) && NoPrior(s.trash, c, k.name)
    && OwnFound(k, files, found) && Walked(s, s1, k, now, found, dirs)
  }

  lemma TopWalkLeaves(s: State, k: Key, now: int, c: Target, files: seq<string>, dirs: seq<string>)
    requires TopWalk(s, k, c, files, dirs)
    ensures TopWalked(s, WalkResult(s, k, now, files, dirs).0, k, now, c, files, FoundFiles(k, files), dirs)
  {
    TopWalks(s, k, c, files, dirs);
    WalkLeaves(s, k, now, files, dirs);
    OwnPathsFound(k, files);
  }

  lemma OwnPathsFound(k: Key, files: seq<string>)
    requires OwnPaths(k, files)
    ensures OwnFound(k, files, FoundFiles(k, files))
  {
    forall i | 0 <= i < |files| ensures Addressed(k, files[i]) == Child(PathOf(k), files[i]) { assert files[i] in files; }
  }

  lemma SelectedOrigin(s: State, s1: State, k: Key, now: int, c: Target, files: seq<string>, found: seq<Found>, dirs: seq<string>, id: nat)
    returns (o: Origin)
    requires TopWalked(s, s1, k, now, c, files, found, dirs) && id in s1.trash
    ensures (o.OfFile? ==> o.index < |files|) && (o.OfDir? ==> o.index < |dirs|)
    ensures o == Older ==> id in s.trash && s1.trash[id] == s.trash[id]
    ensures o != Older ==> id == IdOf(s, |files|, o) && s1.trash[id] == RowOf(s, k, now, found, dirs, o)
    ensures Below(s1.trash[id], c) <==> o.OfFile? || o.OfDir?
    ensures SameItem(s1.trash[id], c.user, "/", k.name) <==> o == Itself
  {
    o := OriginOf(s, k, now, found, dirs, id);
    TopLevelAddress(k);
    TopNotSelected(k.name);
    assert |"/" + k.name| > 1;
  }

  // What the query row says about a child of the deleted directory.
  predicate Describes(s: State, s1: State, k: Key, r: TrashRow) {
    && HasChild(s.fs, PathOf(k), r.name) && r.user == k.user && r.dir == "/" + k.name
    && (r.isDir <==> !HasFile(s.fs, PathOf(k), r.name))
    && (r.isDir || (
          && r.blob.Some?
          && At(s1.fs, BlobPath(k.user, r.blob.value)) == At(s.fs, Phys(Child(PathOf(k), r.name)))
          && r.size == SizeAt(s.fs, Phys(Child(PathOf(k), r.name)))))
  }

  lemma OriginDescribes(s: State, s1: State, k: Key, now: int, c: Target, files: seq<string>, found: seq<Found>, dirs: seq<string>, o: Origin)
    requires TopWalked(s, s1, k, now, c, files, found, dirs)
    requires (o.OfFile? && o.index < |files|) || (o.OfDir? && o.index < |dirs|)
    ensures Describes(s, s1, k, RowOf(s, k, now, found, dirs, o))
  {
    TopLevelAddress(k);
    match o {
      case OfFile(j) => assert files[j] in files && found[j] == Found(files[j], Child(PathOf(k), files[j]));
      case OfDir(j) => assert dirs[j] in dirs;
    }
  }

  // The rows found are the direct children, each once.
  ghost predicate ChildrenRows(s: State, s1: State, k: Key, rows: seq<TrashRow>) {
    && (forall r {:trigger r in rows} :: r in rows ==> Describes(s, s1, k, r))
    && (forall n {:trigger HasChild(s.fs, PathOf(k), n)} :: HasChild(s.fs, PathOf(k), n) ==>
          exists r :: r in rows && r.name == n)
    && (forall i, j {:trigger rows[i], rows[j]} :: 0 <= i < j < |rows| ==> rows[i].name != rows[j].name)
  }

  // After the delete of a directory of the user's root whose files were found at their own paths, the
  // query of a restore finds the direct children.
  lemma QueryFindsChildren(s: State, k: Key, now: int, files: seq<string>, dirs: seq<string>, c: Target,
                           rows: seq<TrashRow>, ids: seq<nat>)
    requires TopWalk(s, k, c, files, dirs)
    requires QueryRows(WalkResult(s, k, now, files, dirs).0.trash, (t: TrashRow) => Below(t, c), rows, ids)
    ensures ChildrenRows(s, WalkResult(s, k, now, files, dirs).0, k, rows)
  {
    TopWalkLeaves(s, k, now, c, files, dirs);
    QueriedChildren(s, WalkResult(s, k, now, files, dirs).0, k, now, c, files, FoundFiles(k, files), dirs, rows, ids);
  }

  lemma QueriedChildren(s: State, s1: State, k: Key, now: int, c: Target, files: seq<string>, found: seq<Found>, dirs: seq<string>,
                        rows: seq<TrashRow>, ids: seq<nat>)
    requires TopWalked(s, s1, k, now, c, files, found, dirs) && BelowRows(s1.trash, c, rows, ids)
    ensures ChildrenRows(s, s1, k, rows)
  {
    forall r | r in rows ensures Describes(s, s1, k, r) {
      var j :| 0 <= j < |rows| && rows[j] == r;
      var o := SelectedOrigin(s, s1, k, now, c, files, found, dirs, ids[j]);
      OriginDescribes(s, s1, k, now, c, files, found, dirs, o);
    }
    forall n | HasChild(s.fs, PathOf(k), n) ensures exists r :: r in rows && r.name == n {
      ChildFound(s, s1, k, now, c, files, found, dirs, rows, ids, n);
    }
    forall i, j | 0 <= i < j < |rows| ensures rows[i].name != rows[j].name {
      var o := SelectedOrigin(s, s1, k, now, c, files, found, dirs, ids[i]);
      var p := SelectedOrigin(s, s1, k, now, c, files, found, dirs, ids[j]);
      OriginsDistinct(s, k, now, files, found, dirs, o, p);
    }
  }

  lemma OriginsDistinct(s: State, k: Key, now: int, files: seq<string>, found: seq<Found>, dirs: seq<string>, o: Origin, p: Origin)
    requires Listing(s.fs, PathOf(k), files, dirs) && OwnFound(k, files, found)
    requires (o.OfFile? && o.index < |files|) || (o.OfDir? && o.index < |dirs|)
    requires (p.OfFile? && p.index < |files|) || (p.OfDir? && p.index < |dirs|)
    requires IdOf(s, |files|, o) != IdOf(s, |files|, p)
    ensures RowOf(s, k, now, found, dirs, o).name != RowOf(s, k, now, found, dirs, p).name
  {
    if o.OfFile? { assert files[o.index] in files; } else { assert dirs[o.index] in dirs; }
    if p.OfFile? { assert files[p.index] in files; } else { assert dirs[p.index] in dirs; }
  }

  lemma ChildFound(s: State, s1: State, k: Key, now: int, c: Target, files: seq<string>, found: seq<Found>, dirs: seq<string>,
                   rows: seq<TrashRow>, ids: seq<nat>, n: string)
    requires TopWalked(s, s1, k, now, c, files, found, dirs) && BelowRows(s1.trash, c, rows, ids)
    requires HasChild(s.fs, PathOf(k), n)
    ensures exists r :: r in rows && r.name == n
  {
    var o: Origin;
    if HasFile(s.fs, PathOf(k), n) {
      assert n in files;
      var i :| 0 <= i < |files| && files[i] == n;
      o := OfFile(i);
    } else {
      assert n in dirs;
      var i :| 0 <= i < |dirs| && dirs[i] == n;
      o := OfDir(i);
    }
    OriginPresent(s, k, now, found, dirs, o);
    var id := IdOf(s, |files|, o);
    TopLevelAddress(k);
    assert Below(s1.trash[id], c);
    assert id in ids;
    var j :| 0 <= j < |ids| && ids[j] == id;
    assert rows[j] in rows && rows[j].name == n;
  }

  // ---- The round trip --------------------------------------------------------------------------

  // The target can take the children: its parent is a directory, it is not a file itself, and
  // none of the names is taken there.
  ghost predicate TargetReady(s: State, s1: State, k: Key, c: Target, dst: Key) {
    && InDomain(s1.users, dst) && dst.user == c.toUser && PathOf(dst) == c.to && Normal(c.to)
    && IsDir(s1.fs, Phys(dst.dir)) && !IsFile(s1.fs, Phys(c.to))
    && forall n {:trigger HasChild(s.fs, PathOf(k), n)} :: HasChild(s.fs, PathOf(k), n) ==>
         ValidName(n) && Phys(Child(c.to, n)) !in s1.fs
  }

  lemma ChildrenRestorable(s: State, s1: State, k: Key, c: Target, dst: Key, rows: seq<TrashRow>)
    requires Valid(s) && Valid(s1) && Agree(s1) && TopLevel(s, k, c) && s1.users == s.users
    requires TargetReady(s, s1, k, c, dst) && ChildrenRows(s, s1, k, rows)
    ensures Restorable(s1, c, dst, rows)
  {
    forall r | r in rows ensures FreeRow(s1, c, r) {
      assert Describes(s, s1, k, r);
      DirectChildTracked(c, r.name);
      assert InDomain(s1.users, Key(c.toUser, c.to, r.name));
      assert TreeView(s1.fs, Child(c.to, r.name)) == Absent;
    }
  }

  ghost predicate DistinctNames(rows: seq<TrashRow>) {
    forall i, j {:trigger rows[i], rows[j]} :: 0 <= i < j < |rows| ==> rows[i].name != rows[j].name
  }

  // Contents and index of a restored row, among rows of distinct names.
  lemma {:induction false} RestoredRow(s: State, c: Target, rows: seq<TrashRow>, r: TrashRow)
    requires r in rows && DistinctNames(rows)
    ensures AfterRestoring(s, c, rows, Phys(Child(c.to, r.name))) == Contents(s, c, r)
    ensures IndexAfterRestoring(s, c, rows, Key(c.toUser, c.to, r.name)) == if r.isDir then Directory else Regular(r.size)
  {
    var n := |rows| - 1;
    if rows[n] != r {
      var i :| 0 <= i < |rows| && rows[i] == r;
      assert rows[..n][i] == r;
      assert r.name != rows[n].name;
      ChildNamesApart(c.to, r.name, rows[n].name);
      RestoredRow(s, c, rows[..n], r);
    }
  }

  // Those of a restored child are those of the deleted one.
  lemma RestoredChild(s: State, s1: State, k: Key, c: Target, rows: seq<TrashRow>, r: TrashRow)
    requires r in rows && DistinctNames(rows) && Describes(s, s1, k, r) && c.user == k.user
    ensures AfterRestoring(s1, c, rows, Phys(Child(c.to, r.name))) ==
            if r.isDir then Some(Dir) else At(s.fs, Phys(Child(PathOf(k), r.name)))
    ensures IndexAfterRestoring(s1, c, rows, Key(c.toUser, c.to, r.name)) ==
            if r.isDir then Directory else Regular(SizeAt(s.fs, Phys(Child(PathOf(k), r.name))))
  {
    RestoredRow(s1, c, rows, r);
  }

  lemma ChildNamesApart(dir: string, m: string, n: string)
    requires m != n
    ensures Phys(Child(dir, m)) != Phys(Child(dir, n)) && Phys(Child(dir, m)) != Phys(dir)
  {
    assert Child(dir, m)[|dir| + 1..] == m && Child(dir, n)[|dir| + 1..] == n;
    PhysInjective(Child(dir, m), Child(dir, n));
    assert |Phys(Child(dir, m))| > |Phys(dir)|;
  }

  lemma {:induction false} RestoringLeaves(s: State, c: Target, rows: seq<TrashRow>, q: string)
    requires forall r :: r in rows ==> q != Phys(Child(c.to, r.name))
    ensures AfterRestoring(s, c, rows, q) == if q == Phys(c.to) && rows != [] then Some(Dir) else At(s.fs, q)
  {
    if rows != [] {
      assert rows[|rows| - 1] in rows;
      RestoringLeaves(s, c, rows[..|rows| - 1], q);
    }
  }

  lemma {:induction false} IndexLeaves(s: State, c: Target, rows: seq<TrashRow>, j: Key)
    requires forall r :: r in rows ==> j != Key(c.toUser, c.to, r.name)
    ensures IndexAfterRestoring(s, c, rows, j) == IndexView(s.cloud, j)
  {
    if rows != [] {
      assert rows[|rows| - 1] in rows;
      IndexLeaves(s, c, rows[..|rows| - 1], j);
    }
  }

  lemma {:induction false} BlobsGone(s: State, rows: seq<TrashRow>)
    requires Valid(s) && forall r :: r in rows && !r.isDir ==> r.user in s.users
    ensures var s' := s.(fs := DeleteBlobs(s.fs, rows)); Valid(s') && (Agree(s') <==> Agree(s))
  {
    if rows != [] {
      var n := |rows| - 1;
      assert rows[n] in rows;
      BlobsGone(s, rows[..n]);
      var s1 := s.(fs := DeleteBlobs(s.fs, rows[..n]));
      if !rows[n].isDir && rows[n].blob.Some? {
        BlobGone(s1, s.(fs := DeleteBlobs(s.fs, rows)), rows[n].user, rows[n].blob.value);
      }
    }
  }

  // The restore of a ready target: the loop over the rows, then the clean-up.
  lemma RestoreLoop(s1: State, c: Target, dst: Key, rows: seq<TrashRow>) returns (mid: State)
    requires Valid(s1) && Restorable(s1, c, dst, rows)
    ensures RestoreRows(s1, rows, c) == (mid, Ok(())) && Valid(mid) && mid.users == s1.users && mid.trash == s1.trash
  {
    RestoreRowsWorks(s1, c, dst, rows, c.to, dst);
    mid := RestoreRows(s1, rows, c).0;
  }

  lemma NothingToOpen(s1: State, c: Target, dst: Key)
    requires Valid(s1) && SaneTarget(s1, c) && "/" <= c.to && InDomain(s1.users, dst) && PathOf(dst) == c.to
    requires IsDir(s1.fs, Phys(dst.dir))
    ensures TryCreateDir(s1.fs, ParentOp(c.toUser, Parent(c.to))) == s1.fs
  {
    assert ValidName(c.toUser);
    var d := TrackedKey(c.toUser, c.to);
    ChildInjective(d.dir, d.name, dst.dir, dst.name);
    SplitLast(d.dir, d.name);
    DomainDir(d);
    CreateExistingDir(s1.fs, Phys(dst.dir));
  }

  lemma CleanUp(s1: State, dir: string, name: string, c: Target, rows: seq<TrashRow>, mid: State)
    requires "/" <= c.to && TryCreateDir(s1.fs, ParentOp(c.toUser, Parent(c.to))) == s1.fs
    requires RestoreRows(s1, rows, c) == (mid, Ok(())) && Valid(mid) && mid.users == s1.users && mid.trash == s1.trash
    requires forall r :: r in rows && !r.isDir ==> r.user in s1.users
    ensures var (s2, r2) := RestoreDirResult(s1, dir, name, c, rows);
            && r2.Ok? && Valid(s2) && (Agree(s2) <==> Agree(mid)) && s2.cloud == mid.cloud && s2.users == s1.users
            && s2.fs == DeleteBlobs(mid.fs, rows)
            && s2.trash == DropRows(s1.trash, (t: TrashRow) => Below(t, c) || (SameItem(t, c.user, dir, name) && t.isDir))
  {
    BlobsGone(mid, rows);
    assert s1.(fs := TryCreateDir(s1.fs, ParentOp(c.toUser, Parent(c.to)))) == s1;
    TrashShrinks(mid.(fs := DeleteBlobs(mid.fs, rows)), RestoreDirResult(s1, dir, name, c, rows).0);
  }

  lemma TrashShrinks(s: State, s': State)
    requires Valid(s) && s' == s.(trash := s'.trash)
    requires forall i {:trigger i in s'.trash} :: i in s'.trash ==> i in s.trash && s'.trash[i] == s.trash[i]
    ensures Valid(s') && (Agree(s') <==> Agree(s))
  {
    assert forall j :: InDomain(s'.users, j) <==> InDomain(s.users, j);
  }

  lemma {:induction false} RestoredNamesPlain(s: State, rows: seq<TrashRow>, c: Target)
    requires NamesPlain(s.cloud) && forall r :: r in rows ==> PlainName(r.name)
    ensures NamesPlain(RestoreRows(s, rows, c).0.cloud)
  {
    if rows != [] {
      var n := |rows| - 1;
      RestoredNamesPlain(s, rows[..n], c);
      assert rows[n] in rows;
      RestoredRowPlain(RestoreRows(s, rows[..n], c).0, rows[n], c);
    }
  }

  lemma RestoredRowPlain(s: State, row: TrashRow, c: Target)
    requires NamesPlain(s.cloud) && PlainName(row.name)
    ensures NamesPlain(RestoreRow(s, row, c).0.cloud)
  {
    forall k | k in RestoreRow(s, row, c).0.cloud ensures PlainName(k.name) {
      OnlyItsRow(s, row, c, k);
    }
  }

  lemma OnlyItsRow(s: State, row: TrashRow, c: Target, k: Key)
    requires k in RestoreRow(s, row, c).0.cloud
    ensures k in s.cloud || k == DestKey(row, c)
  {
    if !row.isDir && row.blob.Some? { OnlyItsFileRow(s, row, c, k, DestKey(row, c)); }
  }

  lemma OnlyItsFileRow(s: State, row: TrashRow, c: Target, k: Key, dest: Key)
    requires !row.isDir && row.blob.Some? && dest == DestKey(row, c) && k in RestoreRow(s, row, c).0.cloud
    ensures k in s.cloud || k == dest
  {
    var op := OpPath(PathOf(dest));
    OpPathSlash(PathOf(dest));
    match Read(TryCreateDir(s.fs, OpParent(op)), BlobPath(c.user, row.blob.value))
    case Err(_) =>
    case Ok(data) => SaveAddsItsRow(s, dest, OpParent(op), op, data, row.size, k);
  }

  lemma SaveAddsItsRow(s: State, dest: Key, opDir: string, op: string, data: Bytes, size: nat, k: Key)
    requires k in SaveAt(s, dest, opDir, op, data, size).0.cloud
    ensures k in s.cloud || k == dest
  {
  }

  // The recorded sizes are those of the blobs.
  ghost predicate SizesRecorded(s: State, c: Target, rows: seq<TrashRow>) {
    forall r {:trigger r in rows} :: r in rows && !r.isDir ==>
      (Contents(s, c, r).Some? && Contents(s, c, r).value.File? && |Contents(s, c, r).value.data| == r.size)
  }

  // Tree and index agree afterwards exactly when the target directory was already indexed, or
  // there was nothing to restore into it.
  lemma RestoredAgreement(s: State, c: Target, dst: Key, rows: seq<TrashRow>, mid: State)
    requires Valid(s) && Agree(s) && InDomain(s.users, dst) && Restorable(s, c, dst, rows) && SizesRecorded(s, c, rows)
    requires RestoreRows(s, rows, c) == (mid, Ok(())) && mid.users == s.users
    ensures Agree(mid) <==> IsDir(s.fs, Phys(c.to)) || rows == []
  {
    forall j {:trigger InDomain(s.users, j)} | InDomain(s.users, j)
      ensures IndexView(mid.cloud, j) == TreeView(mid.fs, PathOf(j))
              <==> j != dst || IsDir(s.fs, Phys(c.to)) || rows == []
    {
      RestoredView(s, c, dst, rows, mid, j);
    }
    RestorableNames(s, c, dst, rows);
    RestoredNamesPlain(s, rows, c);
    MirrorsUnless(s.users, mid, dst, IsDir(s.fs, Phys(c.to)) || rows == []);
  }

  lemma RestorableNames(s: State, c: Target, dst: Key, rows: seq<TrashRow>)
    requires Restorable(s, c, dst, rows)
    ensures forall r :: r in rows ==> PlainName(r.name)
  {
    forall r | r in rows ensures PlainName(r.name) { assert FreeRow(s, c, r); }
  }

  lemma MirrorsUnless(users: set<string>, s: State, dst: Key, ok: bool)
    requires s.users == users && NamesPlain(s.cloud) && InDomain(users, dst)
    requires forall j {:trigger InDomain(users, j)} :: InDomain(users, j) ==>
               (IndexView(s.cloud, j) == TreeView(s.fs, PathOf(j)) <==> j != dst || ok)
    ensures Agree(s) <==> ok
  {
  }

  lemma RestoredView(s: State, c: Target, dst: Key, rows: seq<TrashRow>, mid: State, j: Key)
    requires Valid(s) && Agree(s) && InDomain(s.users, dst) && Restorable(s, c, dst, rows) && SizesRecorded(s, c, rows)
    requires RestoreRows(s, rows, c) == (mid, Ok(())) && InDomain(s.users, j)
    ensures IndexView(mid.cloud, j) == TreeView(mid.fs, PathOf(j))
            <==> j != dst || IsDir(s.fs, Phys(c.to)) || rows == []
  {
    RestoreRowsWorks(s, c, dst, rows, Phys(PathOf(j)), j);
    if r :| r in rows && PathOf(j) == Child(c.to, r.name) {
      RestoredRowView(s, c, dst, rows, j, r);
    } else {
      forall r | r in rows ensures Phys(PathOf(j)) != Phys(Child(c.to, r.name)) && j != Key(c.toUser, c.to, r.name) {
        PhysInjective(PathOf(j), Child(c.to, r.name));
      }
      RestoringLeaves(s, c, rows, Phys(PathOf(j)));
      IndexLeaves(s, c, rows, j);
      PhysInjective(PathOf(j), c.to);
      if PathOf(j) == c.to { SameKey(s.users, j, dst); }
    }
  }

  lemma RestoredRowView(s: State, c: Target, dst: Key, rows: seq<TrashRow>, j: Key, r: TrashRow)
    requires Valid(s) && Restorable(s, c, dst, rows) && SizesRecorded(s, c, rows) && InDomain(s.users, j)
    requires r in rows && PathOf(j) == Child(c.to, r.name)
    ensures j != dst && IndexAfterRestoring(s, c, rows, j) ==
            match AfterRestoring(s, c, rows, Phys(PathOf(j))) case None => Absent case Some(Dir) => Directory case Some(File(d)) => Regular(|d|)
  {
    assert FreeRow(s, c, r);
    DirectChildTracked(c, r.name);
    assert InDomain(s.users, Key(c.toUser, c.to, r.name));
    SameKey(s.users, j, Key(c.toUser, c.to, r.name));
    RestoredRow(s, c, rows, r);
    assert |PathOf(j)| > |c.to|;
  }

  // Restoring a directory whose rows are free to go directly below the target succeeds, and keeps tree and
  // index in agreement exactly when the target is indexed already or there is nothing to restore.
  lemma RestoreDirAgreement(s: State, dir: string, name: string, c: Target, dst: Key, rows: seq<TrashRow>, ids: seq<nat>)
    requires Valid(s) && Agree(s) && Integrity(s) && InDomain(s.users, dst) && "/" <= c.to
    requires Restorable(s, c, dst, rows) && BelowRows(s.trash, c, rows, ids)
    ensures var (s', r) := RestoreDirResult(s, dir, name, c, rows);
            && r.Ok? && Valid(s') && (Agree(s') <==> IsDir(s.fs, Phys(c.to)) || rows == [])
  {
    BackedSizes(s, c, rows, ids);
    var mid := RestoreLoop(s, c, dst, rows);
    NothingToOpen(s, c, dst);
    RestoredAgreement(s, c, dst, rows, mid);
    CleanUp(s, dir, name, c, rows, mid);
  }

  lemma BackedSizes(s: State, c: Target, rows: seq<TrashRow>, ids: seq<nat>)
    requires Integrity(s) && BelowRows(s.trash, c, rows, ids)
    ensures SizesRecorded(s, c, rows) && forall r :: r in rows && !r.isDir ==> r.user in s.users
  {
    forall r | r in rows && !r.isDir
      ensures r.user in s.users && Contents(s, c, r).Some? && Contents(s, c, r).value.File? && |Contents(s, c, r).value.data| == r.size
    {
      var i :| 0 <= i < |rows| && rows[i] == r;
      assert Backed(s, s.trash[ids[i]]);
    }
  }

  lemma DescribedSizes(s: State, s1: State, k: Key, c: Target, rows: seq<TrashRow>)
    requires ChildrenRows(s, s1, k, rows) && c.user == k.user
    ensures SizesRecorded(s1, c, rows)
  {
    forall r | r in rows && !r.isDir
      ensures Contents(s1, c, r).Some? && Contents(s1, c, r).value.File? && |Contents(s1, c, r).value.data| == r.size
    {
      assert Describes(s, s1, k, r);
    }
  }

  // The trash rows are those there were before the delete.
  lemma TrashAsBefore(s: State, s1: State, k: Key, now: int, c: Target, files: seq<string>, found: seq<Found>, dirs: seq<string>)
    requires TopWalked(s, s1, k, now, c, files, found, dirs)
    ensures DropRows(s1.trash, (t: TrashRow) => Below(t, c) || (SameItem(t, c.user, "/", k.name) && t.isDir)) == s.trash
  {
    var drop := (t: TrashRow) => Below(t, c) || (SameItem(t, c.user, "/", k.name) && t.isDir);
    forall id | id in s1.trash ensures !drop(s1.trash[id]) <==> id in s.trash {
      var o := SelectedOrigin(s, s1, k, now, c, files, found, dirs, id);
      if o != Older { FreshIds(s, |files|, o); TopLevelAddress(k); }
    }
    forall id | id in s.trash ensures id in s1.trash && s1.trash[id] == s.trash[id] {
      OldRowThere(s, k, now, found, dirs, id);
    }
  }

  // The blobs are those there were before the delete.
  lemma BlobsAsBefore(s: State, k: Key, now: int, files: seq<string>, dirs: seq<string>, c: Target,
                      rows: seq<TrashRow>, ids: seq<nat>, fs: Tree, u: string, h: nat)
    requires TopWalk(s, k, c, files, dirs) && BelowRows(WalkResult(s, k, now, files, dirs).0.trash, c, rows, ids)
    requires u in s.users && At(fs, BlobPath(u, h)) == At(WalkResult(s, k, now, files, dirs).0.fs, BlobPath(u, h))
    ensures At(DeleteBlobs(fs, rows), BlobPath(u, h)) == At(s.fs, BlobPath(u, h))
  {
    TopWalks(s, k, c, files, dirs);
    TopWalkLeaves(s, k, now, c, files, dirs);
    if !(u == k.user && Drawn(s, files, h)) { WalkKeepsBlob(s, k, now, files, dirs, u, h); }
    BlobsOfWalk(s, WalkResult(s, k, now, files, dirs).0, k, now, c, files, FoundFiles(k, files), dirs, rows, ids, fs, u, h);
  }

  lemma BlobsOfWalk(s: State, s1: State, k: Key, now: int, c: Target, files: seq<string>, found: seq<Found>, dirs: seq<string>,
                    rows: seq<TrashRow>, ids: seq<nat>, fs: Tree, u: string, h: nat)
    requires TopWalked(s, s1, k, now, c, files, found, dirs) && BelowRows(s1.trash, c, rows, ids)
    requires u in s.users && At(fs, BlobPath(u, h)) == At(s1.fs, BlobPath(u, h))
    requires !(u == k.user && Drawn(s, files, h)) ==> At(s1.fs, BlobPath(u, h)) == At(s.fs, BlobPath(u, h))
    ensures At(DeleteBlobs(fs, rows), BlobPath(u, h)) == At(s.fs, BlobPath(u, h))
  {
    if u == k.user && Drawn(s, files, h) {
      var i :| 0 <= i < |files| && h == s.nextId + 1 + 2 * i;
      DrawnBlobBack(s, s1, k, now, c, files, found, dirs, rows, ids, fs, i);
    } else {
      UndrawnBlobBack(s, s1, k, now, c, files, found, dirs, rows, ids, fs, u, h);
    }
  }

  // The walk drew h as the name of a blob.
  ghost predicate Drawn(s: State, files: seq<string>, h: nat) {
    exists i :: 0 <= i < |files| && h == s.nextId + 1 + 2 * i
  }

  lemma DrawnBlobBack(s: State, s1: State, k: Key, now: int, c: Target, files: seq<string>, found: seq<Found>, dirs: seq<string>,
                      rows: seq<TrashRow>, ids: seq<nat>, fs: Tree, i: nat)
    requires TopWalked(s, s1, k, now, c, files, found, dirs) && BelowRows(s1.trash, c, rows, ids) && i < |files|
    requires At(fs, BlobPath(k.user, s.nextId + 1 + 2 * i)) == At(s1.fs, BlobPath(k.user, s.nextId + 1 + 2 * i))
    ensures var b := BlobPath(k.user, s.nextId + 1 + 2 * i); At(DeleteBlobs(fs, rows), b) == At(s.fs, b)
  {
    var id, b := IdOf(s, |files|, OfFile(i)), BlobPath(k.user, s.nextId + 1 + 2 * i);
    OriginPresent(s, k, now, found, dirs, OfFile(i));
    OriginDescribes(s, s1, k, now, c, files, found, dirs, OfFile(i));
    TopLevelAddress(k);
    assert Below(s1.trash[id], c);
    assert id in ids;
    var j :| 0 <= j < |ids| && ids[j] == id;
    assert rows[j] == RowOf(s, k, now, found, dirs, OfFile(i));
    AtDeleteBlobs(fs, rows, b);
    assert b !in s.fs;
  }

  lemma UndrawnBlobBack(s: State, s1: State, k: Key, now: int, c: Target, files: seq<string>, found: seq<Found>, dirs: seq<string>,
                        rows: seq<TrashRow>, ids: seq<nat>, fs: Tree, u: string, h: nat)
    requires TopWalked(s, s1, k, now, c, files, found, dirs) && BelowRows(s1.trash, c, rows, ids)
    requires u in s.users && !(u == k.user && Drawn(s, files, h)) && At(fs, BlobPath(u, h)) == At(s.fs, BlobPath(u, h))
    ensures At(DeleteBlobs(fs, rows), BlobPath(u, h)) == At(s.fs, BlobPath(u, h))
  {
    forall j | 0 <= j < |rows| && !rows[j].isDir && rows[j].blob.Some?
      ensures BlobPath(u, h) != BlobPath(rows[j].user, rows[j].blob.value)
    {
      var o := SelectedOrigin(s, s1, k, now, c, files, found, dirs, ids[j]);
      assert ValidName(u) && ValidName(k.user);
      if BlobPath(u, h) == BlobPath(rows[j].user, rows[j].blob.value) {
        BlobPathInjective(u, h, rows[j].user, rows[j].blob.value);
      }
    }
    AtDeleteBlobs(fs, rows, BlobPath(u, h));
  }

  lemma RestoreKeepsBlob(s1: State, c: Target, dst: Key, rows: seq<TrashRow>, mid: State, u: string, h: nat)
    requires Valid(s1) && Restorable(s1, c, dst, rows) && RestoreRows(s1, rows, c) == (mid, Ok(())) && u in s1.users
    ensures At(mid.fs, BlobPath(u, h)) == At(s1.fs, BlobPath(u, h))
  {
    assert ValidName(u) && ValidName(c.toUser);
    RestoreRowsWorks(s1, c, dst, rows, BlobPath(u, h), dst);
    BlobApartFromTracked(u, h, c.toUser, c.to);
    RestoringElsewhere(s1, c, rows, BlobPath(u, h));
  }

  lemma UndrawnIsNone(s: State, user: string, files: seq<string>, u: string, h: nat)
    requires '/' !in user && '/' !in u && !(u == user && Drawn(s, files, h))
    ensures NoneDrawn(user, s.nextId + 1, |files|, BlobPath(u, h))
  {
    forall g {:trigger BlobPath(user, g)} | s.nextId + 1 <= g < s.nextId + 1 + 2 * |files| && (g - s.nextId - 1) % 2 == 0
      ensures BlobPath(u, h) != BlobPath(user, g)
    {
      EvenOffset(s, files, g);
      if BlobPath(u, h) == BlobPath(user, g) { BlobPathInjective(u, h, user, g); }
    }
  }

  lemma EvenOffset(s: State, files: seq<string>, g: nat)
    requires s.nextId + 1 <= g < s.nextId + 1 + 2 * |files| && (g - s.nextId - 1) % 2 == 0
    ensures Drawn(s, files, g)
  {
    var i := (g - s.nextId - 1) / 2;
    assert 0 <= i < |files| && g == s.nextId + 1 + 2 * i;
  }

  lemma WalkKeepsBlob(s: State, k: Key, now: int, files: seq<string>, dirs: seq<string>, u: string, h: nat)
    requires Walks(s, k, files, dirs) && u in s.users && !(u == k.user && Drawn(s, files, h))
    ensures At(WalkResult(s, k, now, files, dirs).0.fs, BlobPath(u, h)) == At(s.fs, BlobPath(u, h))
  {
    assert ValidName(u) && ValidName(k.user);
    UndrawnIsNone(s, k.user, files, u, h);
    WalkFrame(s, k, now, files, dirs, BlobPath(u, h));
    BlobApartFromTracked(u, h, k.user, PathOf(k));
    BlobNotInChain(k.user, u, h);
  }

  // What the round trip is about: a ready target, an untouched corner of the trash, and the
  // rows the restore's query returns.
  ghost predicate RoundTripSetting(s: State, k: Key, now: int, files: seq<string>, dirs: seq<string>,
                                   c: Target, dst: Key, rows: seq<TrashRow>, ids: seq<nat>) {
    && Agree(s) && TopWalk(s, k, c, files, dirs)
    && (var s1 := DeleteDirResult(s, k, now, files, dirs).0;
        && Agree(s1) && SaneTarget(s1, c) && "/" <= c.to && '/' !in dst.name && TargetReady(s, s1, k, c, dst)
        && QueryRows(s1.trash, (t: TrashRow) => Below(t, c), rows, ids))
  }

  lemma SettingFacts(s: State, k: Key, now: int, files: seq<string>, dirs: seq<string>,
                     c: Target, dst: Key, rows: seq<TrashRow>, ids: seq<nat>) returns (s1: State, mid: State)
    requires RoundTripSetting(s, k, now, files, dirs, c, dst, rows, ids)
    ensures s1 == DeleteDirResult(s, k, now, files, dirs).0 && Valid(s1) && s1.users == s.users
    ensures s1 == WalkResult(s, k, now, files, dirs).0.(cloud := s1.cloud)
    ensures ChildrenRows(s, s1, k, rows) && Restorable(s1, c, dst, rows)
    ensures RestoreRows(s1, rows, c) == (mid, Ok(())) && Valid(mid) && mid.users == s1.users && mid.trash == s1.trash
    ensures forall r :: r in rows ==> r.user in s1.users
  {
    s1 := DeleteDirResult(s, k, now, files, dirs).0;
    TopWalks(s, k, c, files, dirs);
    WalkWorks(s, k, now, files, dirs, "");
    DeleteIsWalk(s, k, now, files, dirs);
    QueryFindsChildren(s, k, now, files, dirs, c, rows, ids);
    DescribesFrame(s, WalkResult(s, k, now, files, dirs).0, s1, k, rows);
    ChildrenRestorable(s, s1, k, c, dst, rows);
    mid := RestoreLoop(s1, c, dst, rows);
  }

  lemma DescribesFrame(s: State, s0: State, s1: State, k: Key, rows: seq<TrashRow>)
    requires ChildrenRows(s, s0, k, rows) && s1.fs == s0.fs
    ensures ChildrenRows(s, s1, k, rows)
  {
    forall r | r in rows ensures Describes(s, s1, k, r) { assert Describes(s, s0, k, r); }
  }

  // Trash rows and blobs are as before, and tree and index agree exactly when the target directory was
  // indexed already or there was nothing to restore into it.
  ghost predicate AsBefore(s: State, s1: State, s2: State, k: Key, to: string) {
    && Valid(s2) && s2.trash == s.trash && SameBlobsAs(s, s2)
    && (Agree(s2) <==> IsDir(s1.fs, Phys(to)) || NoChildren(s.fs, PathOf(k)))
  }

  ghost predicate SameBlobsAs(s: State, s2: State) {
    forall v, h {:trigger BlobPath(v, h)} :: v in s.users ==> At(s2.fs, BlobPath(v, h)) == At(s.fs, BlobPath(v, h))
  }

  ghost predicate NoChildren(fs: Tree, p: string) {
    forall n {:trigger HasChild(fs, p, n)} :: !HasChild(fs, p, n)
  }

  // The delete leads from s to s1, the restore from there to s2.
  ghost predicate Tripped(s: State, s1: State, s2: State, k: Key, now: int, files: seq<string>, dirs: seq<string>,
                          c: Target, dst: Key, rows: seq<TrashRow>, ids: seq<nat>, r: Outcome) {
    && s1 == DeleteDirResult(s, k, now, files, dirs).0
    && RoundTripSetting(s, k, now, files, dirs, c, dst, rows, ids)
    && (s2, r) == RestoreDirResult(s1, "/", k.name, c, rows)
  }

  // Deleting a top-level directory and restoring it leaves trash rows and blobs as they were; the
  // children come back as RoundTripChild says.
  lemma RoundTrip(s: State, s1: State, s2: State, k: Key, now: int, files: seq<string>, dirs: seq<string>,
                  c: Target, dst: Key, rows: seq<TrashRow>, ids: seq<nat>, r: Outcome)
    requires Tripped(s, s1, s2, k, now, files, dirs, c, dst, rows, ids, r)
    ensures r == Ok(()) && AsBefore(s, s1, s2, k, c.to)
  {
    var t1, mid := SettingFacts(s, k, now, files, dirs, c, dst, rows, ids);
    NothingToOpen(s1, c, dst);
    CleanUp(s1, "/", k.name, c, rows, mid);
    TopWalkLeaves(s, k, now, c, files, dirs);
    SameWalk(s, s1, k, now, c, files, FoundFiles(k, files), dirs, WalkResult(s, k, now, files, dirs).0);
    TrashAsBefore(s, s1, k, now, c, files, FoundFiles(k, files), dirs);
    BlobsBack(s, s1, k, now, files, dirs, c, dst, rows, ids, mid);
    DescribedSizes(s, s1, k, c, rows);
    RestoredAgreement(s1, c, dst, rows, mid);
    NoRowsNoChildren(s, s1, k, rows);
  }

  lemma SameWalk(s: State, s1: State, k: Key, now: int, c: Target, files: seq<string>, found: seq<Found>, dirs: seq<string>, s0: State)
    requires TopWalked(s, s0, k, now, c, files, found, dirs) && s1 == s0.(cloud := s1.cloud)
    ensures TopWalked(s, s1, k, now, c, files, found, dirs)
  {
  }

  lemma BlobsBack(s: State, s1: State, k: Key, now: int, files: seq<string>, dirs: seq<string>,
                  c: Target, dst: Key, rows: seq<TrashRow>, ids: seq<nat>, mid: State)
    requires RoundTripSetting(s, k, now, files, dirs, c, dst, rows, ids) && Valid(s1) && Restorable(s1, c, dst, rows)
    requires s1 == DeleteDirResult(s, k, now, files, dirs).0 && s1 == WalkResult(s, k, now, files, dirs).0.(cloud := s1.cloud)
    requires RestoreRows(s1, rows, c) == (mid, Ok(())) && s1.users == s.users
    ensures SameBlobsAs(s, mid.(fs := DeleteBlobs(mid.fs, rows)))
  {
    forall u, h | u in s.users
      ensures At(DeleteBlobs(mid.fs, rows), BlobPath(u, h)) == At(s.fs, BlobPath(u, h))
    {
      RestoreKeepsBlob(s1, c, dst, rows, mid, u, h);
      BlobsAsBefore(s, k, now, files, dirs, c, rows, ids, mid.fs, u, h);
    }
  }

  lemma NoRowsNoChildren(s: State, s1: State, k: Key, rows: seq<TrashRow>)
    requires ChildrenRows(s, s1, k, rows)
    ensures rows == [] <==> forall n :: !HasChild(s.fs, PathOf(k), n)
  {
    if rows != [] { assert rows[0] in rows && Describes(s, s1, k, rows[0]); }
  }

  // The contents and index of one direct child after the round trip.
  lemma RoundTripChild(s: State, k: Key, now: int, files: seq<string>, dirs: seq<string>,
                       c: Target, dst: Key, rows: seq<TrashRow>, ids: seq<nat>, n: string)
    requires RoundTripSetting(s, k, now, files, dirs, c, dst, rows, ids) && HasChild(s.fs, PathOf(k), n)
    ensures var s1 := DeleteDirResult(s, k, now, files, dirs).0;
            var s2 := RestoreDirResult(s1, "/", k.name, c, rows).0;
            && At(s2.fs, Phys(Child(c.to, n))) == At(s.fs, Phys(Child(PathOf(k), n)))
            && IndexView(s2.cloud, Key(c.toUser, c.to, n)) == IndexView(s.cloud, Key(k.user, PathOf(k), n))
  {
    var s1, mid := SettingFacts(s, k, now, files, dirs, c, dst, rows, ids);
    ChildInMid(s, s1, k, c, dst, rows, mid, n);
    CleanUpKeepsTracked(s1, c, mid, rows, n);
    RestoredFrom(s, s1, k, c, dst, rows, mid);
  }

  lemma RestoredFrom(s: State, s1: State, k: Key, c: Target, dst: Key, rows: seq<TrashRow>, mid: State)
    requires Valid(s1) && SaneTarget(s1, c) && "/" <= c.to && TargetReady(s, s1, k, c, dst)
    requires RestoreRows(s1, rows, c) == (mid, Ok(())) && Valid(mid) && mid.users == s1.users && mid.trash == s1.trash
    requires forall r :: r in rows ==> r.user in s1.users
    ensures var s2 := RestoreDirResult(s1, "/", k.name, c, rows).0;
            s2.fs == DeleteBlobs(mid.fs, rows) && s2.cloud == mid.cloud
  {
    NothingToOpen(s1, c, dst);
    CleanUp(s1, "/", k.name, c, rows, mid);
  }

  lemma ChildInMid(s: State, s1: State, k: Key, c: Target, dst: Key, rows: seq<TrashRow>, mid: State, n: string)
    requires Valid(s) && Agree(s) && Valid(s1) && TopLevel(s, k, c)
    requires ChildrenRows(s, s1, k, rows) && Restorable(s1, c, dst, rows) && RestoreRows(s1, rows, c) == (mid, Ok(()))
    requires HasChild(s.fs, PathOf(k), n)
    ensures At(mid.fs, Phys(Child(c.to, n))) == At(s.fs, Phys(Child(PathOf(k), n)))
    ensures IndexView(mid.cloud, Key(c.toUser, c.to, n)) == IndexView(s.cloud, Key(k.user, PathOf(k), n))
  {
    var r :| r in rows && r.name == n;
    assert Describes(s, s1, k, r);
    RestoredChild(s, s1, k, c, rows, r);
    RestoreRowsWorks(s1, c, dst, rows, Phys(Child(c.to, n)), Key(c.toUser, c.to, n));
    ChildTracked(k, n);
    assert InDomain(s.users, Key(k.user, PathOf(k), n));
  }

  lemma ChildTracked(k: Key, n: string)
    requires Tracked(k.user, PathOf(k)) && '/' !in n
    ensures Tracked(k.user, Child(PathOf(k), n))
  {
    AboveChild(PathOf(k), PathOf(k), n);
    TrackedBelow(k.user, PathOf(k), Child(PathOf(k), n));
  }

  lemma CleanUpKeepsTracked(s1: State, c: Target, mid: State, rows: seq<TrashRow>, n: string)
    requires Valid(s1) && SaneTarget(s1, c) && '/' !in n && forall r :: r in rows ==> r.user in s1.users
    ensures At(DeleteBlobs(mid.fs, rows), Phys(Child(c.to, n))) == At(mid.fs, Phys(Child(c.to, n)))
  {
    DirectChildTracked(c, n);
    TrackedSurvivesCleanUp(s1, c, mid, rows, Child(c.to, n));
  }

  lemma TrackedSurvivesCleanUp(s1: State, c: Target, mid: State, rows: seq<TrashRow>, p: string)
    requires Valid(s1) && SaneTarget(s1, c) && Tracked(c.toUser, p) && forall r :: r in rows ==> r.user in s1.users
    ensures At(DeleteBlobs(mid.fs, rows), Phys(p)) == At(mid.fs, Phys(p))
  {
    AtDeleteBlobs(mid.fs, rows, Phys(p));
    forall j | 0 <= j < |rows| && rows[j].blob.Some? ensures Phys(p) != BlobPath(rows[j].user, rows[j].blob.value) {
      assert rows[j] in rows && ValidName(rows[j].user) && ValidName(c.toUser);
      BlobApartFromTracked(rows[j].user, rows[j].blob.value, c.toUser, p);
    }
  }

  // The subtree at the target equals the deleted one exactly when the directory had no
  // grandchildren: what lay deeper is neither archived nor recorded.
  lemma RoundTripExact(s: State, k: Key, now: int, files: seq<string>, dirs: seq<string>,
                       c: Target, dst: Key, rows: seq<TrashRow>, ids: seq<nat>)
    requires RoundTripSetting(s, k, now, files, dirs, c, dst, rows, ids)
    requires Phys(c.to) !in DeleteDirResult(s, k, now, files, dirs).0.fs
    ensures var s2 := RestoreDirResult(DeleteDirResult(s, k, now, files, dirs).0, "/", k.name, c, rows).0;
            (forall j :: BelowDir(s, k, j) ==>
               At(s2.fs, Phys(Rebase(PathOf(j), PathOf(k), c.to))) == At(s.fs, Phys(PathOf(j))))
            <==> (forall j :: BelowDir(s, k, j) && j.dir != PathOf(k) ==> Phys(PathOf(j)) !in s.fs)
  {
    forall j | BelowDir(s, k, j)
      ensures var s2 := RestoreDirResult(DeleteDirResult(s, k, now, files, dirs).0, "/", k.name, c, rows).0;
              At(s2.fs, Phys(Rebase(PathOf(j), PathOf(k), c.to))) ==
              if j.dir == PathOf(k) then At(s.fs, Phys(PathOf(j))) else None
    {
      RoundTripAt(s, k, now, files, dirs, c, dst, rows, ids, j);
    }
  }

  // j addresses something below the directory k, there or not.
  predicate BelowDir(s: State, k: Key, j: Key) {
    InDomain(s.users, j) && Above(PathOf(k), PathOf(j))
  }

  lemma RoundTripAt(s: State, k: Key, now: int, files: seq<string>, dirs: seq<string>,
                    c: Target, dst: Key, rows: seq<TrashRow>, ids: seq<nat>, j: Key)
    requires RoundTripSetting(s, k, now, files, dirs, c, dst, rows, ids) && BelowDir(s, k, j)
    requires Phys(c.to) !in DeleteDirResult(s, k, now, files, dirs).0.fs
    ensures var s2 := RestoreDirResult(DeleteDirResult(s, k, now, files, dirs).0, "/", k.name, c, rows).0;
            At(s2.fs, Phys(Rebase(PathOf(j), PathOf(k), c.to))) ==
            if j.dir == PathOf(k) then At(s.fs, Phys(PathOf(j))) else None
  {
    AboveChild(PathOf(k), j.dir, j.name);
    RebaseChild(j.dir, j.name, PathOf(k), c.to);
    if j.dir == PathOf(k) && HasChild(s.fs, PathOf(k), j.name) {
      assert Rebase(j.dir, PathOf(k), c.to) == c.to;
      RoundTripChild(s, k, now, files, dirs, c, dst, rows, ids, j.name);
    } else {
      var s1, mid := SettingFacts(s, k, now, files, dirs, c, dst, rows, ids);
      var p := Rebase(PathOf(j), PathOf(k), c.to);
      RebaseUnder(PathOf(j), PathOf(k), c.to);
      TrackedBelow(c.toUser, c.to, p);
      NoSuchRow(s, s1, k, c, rows, j, p);
      RestoreRowsWorks(s1, c, dst, rows, Phys(p), dst);
      RestoringLeaves(s1, c, rows, Phys(p));
      PhysUnder(p, c.to);
      assert Phys(p) !in s1.fs;
      TrackedSurvivesCleanUp(s1, c, mid, rows, p);
      RestoredFrom(s, s1, k, c, dst, rows, mid);
    }
  }

  lemma NoSuchRow(s: State, s1: State, k: Key, c: Target, rows: seq<TrashRow>, j: Key, p: string)
    requires ChildrenRows(s, s1, k, rows) && '/' !in j.name && Under(j.dir, PathOf(k))
    requires p == Child(Rebase(j.dir, PathOf(k), c.to), j.name)
    requires j.dir == PathOf(k) ==> !HasChild(s.fs, PathOf(k), j.name)
    ensures forall r :: r in rows ==> Phys(p) != Phys(Child(c.to, r.name))
  {
    forall r | r in rows ensures Phys(p) != Phys(Child(c.to, r.name)) {
      assert Describes(s, s1, k, r);
      PhysInjective(p, Child(c.to, r.name));
      if p == Child(c.to, r.name) {
        ChildInjective(Rebase(j.dir, PathOf(k), c.to), j.name, c.to, r.name);
        RebaseUnder(j.dir, PathOf(k), c.to);
      }
    }
  }
}
