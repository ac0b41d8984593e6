/**
  delete of a file or directory: contents move into blobs below .Trash, rows into trash_items.
  A directory is emptied by a depth-first walk whose steps are described here.
 */
module StorageTrash {
  import opened Wrappers
  import opened VirtualPath
  import opened Like
  import opened FileTree
  import opened StorageState

  // ---- hash_and_archive_file ---------------------------------------------------------------

  // The blob directory is made (its failure ignored), then the object renamed into it.
  function ArchiveTree(fs: Tree, user: string, p: string, id: nat): Result<Tree, ()> {
    Rename(TryCreateDir(fs, BlobBase(user)), Phys(p), BlobPath(user, id))
  }

  // What the object at q becomes once the blob directory exists.
  function WithBlobBase(fs: Tree, user: string, q: string): Option<Node> {
    if q in Chain(BlobBase(user)) then Some(Dir) else At(fs, q)
  }

  lemma BlobBaseChain(s: State, user: string)
    requires Valid(s) && user in s.users
    ensures CreateDir(s.fs, BlobBase(user)).Ok?
    ensures forall a :: a in Chain(BlobBase(user)) && a !in s.fs ==> a == Phys(TrashRoot(user)) || a == BlobBase(user)
  {
    var home, trash, base := Phys(Home(user)), Phys(TrashRoot(user)), BlobBase(user);
    assert trash == Child(home, ".Trash") && base == Child(trash, "blobs");
    forall a | a in Chain(base)
      ensures !IsFile(s.fs, a) && (a !in s.fs ==> a == trash || a == base)
    {
      assert ValidName(user);
      if a != base {
        AboveChild(a, trash, "blobs");
        if a != trash {
          AboveChild(a, home, ".Trash");
          assert a == home || Above(a, home);
          assert IsDir(s.fs, home);
        }
      }
    }
  }

  // Neither the way to the blob directory nor a blob still to come is a file.
  lemma FileElsewhere(s: State, user: string, q: string, id: nat)
    requires Valid(s) && user in s.users && IsFile(s.fs, q) && id >= s.nextId
    ensures q !in Chain(BlobBase(user)) && q != BlobPath(user, id) && BlobPath(user, id) !in s.fs
    ensures BlobPath(user, id) !in Chain(BlobBase(user)) && !Above(q, BlobPath(user, id))
  {
    assert ValidName(user);
    BlobBaseChain(s, user);
    BlobNotInChain(user, user, id);
    BlobIsChild(user, id);
    AboveChild(q, BlobBase(user), UuidText(id));
  }

  lemma BlobIsChild(user: string, id: nat)
    ensures BlobPath(user, id) == Child(BlobBase(user), UuidText(id)) && '/' !in UuidText(id)
  {
  }

  lemma ArchiveWorks(s: State, user: string, p: string, id: nat)
    requires Valid(s) && user in s.users && IsFile(s.fs, Phys(p)) && id >= s.nextId
    ensures ArchiveTree(s.fs, user, p, id).Ok?
    ensures var fs' := ArchiveTree(s.fs, user, p, id).value;
            && WellFormed(fs')
            && forall q :: At(fs', q) ==
                 if q == BlobPath(user, id) then At(s.fs, Phys(p))
                 else if q == Phys(p) then None
                 else WithBlobBase(s.fs, user, q)
  {
    assert ValidName(user);
    var from, to, base := Phys(p), BlobPath(user, id), BlobBase(user);
    BlobBaseChain(s, user);
    CreateDirWellFormed(s.fs, base);
    var fs1 := TryCreateDir(s.fs, base);
    assert to == Child(base, UuidText(id)) && '/' !in UuidText(id);
    LastSlashOfChild(base, UuidText(id));
    FileElsewhere(s, user, from, id);
    assert CanMove(fs1, from, to);
    MovedWellFormed(fs1, from, to);
    var fs' := Moved(fs1, from, to);
    forall q ensures At(fs', q) ==
                 if q == to then At(s.fs, from)
                 else if q == from then None
                 else WithBlobBase(s.fs, user, q)
    {
      AtMoved(fs1, from, to, q);
      AtCreateDir(s.fs, base, q);
      AtCreateDir(s.fs, base, from);
      if Above(to, q) {
        RebaseUnder(q, to, from);
        AtCreateDir(s.fs, base, Rebase(q, to, from));
        assert Above(from, Rebase(q, to, from));
        assert Rebase(q, to, from) !in fs1;
        assert q !in fs1;
      } else if Above(from, q) {
        assert q !in fs1;
      }
      assert Rebase(to, to, from) == from;
    }
  }

  // stat fails on a missing object; anything but a file is refused.
  function Refusal(fs: Tree, p: string): Error {
    if Phys(p) in fs then BadRequest else Io
  }

  // ---- Single file ---------------------------------------------------------------------------

  // The trash row of a single file keeps the full virtual parent as original_dir.
  function DeleteFileResult(s: State, k: Key, now: int): (State, Outcome) {
    if !IsFile(s.fs, Phys(PathOf(k))) then (s, Err(Refusal(s.fs, PathOf(k))))
    else match ArchiveTree(s.fs, k.user, PathOf(k), s.nextId)
      case Err(_) => (s.(fs := TryCreateDir(s.fs, BlobBase(k.user)), nextId := s.nextId + 1), Err(Io))
      case Ok(fs) =>
        var row := TrashRow(k.user, k.dir, k.name, false, |s.fs[Phys(PathOf(k))].data|, Some(s.nextId), now);
        (s.(fs := fs, trash := s.trash[s.nextId + 1 := row], cloud := s.cloud - {k}, nextId := s.nextId + 2), Ok(()))
  }

  // A file becomes a blob, in the tree fs'.
  ghost predicate Archives(s: State, fs': Tree, user: string, p: string) {
    && Valid(s) && user in s.users && IsFile(s.fs, Phys(p))
    && ArchiveTree(s.fs, user, p, s.nextId) == Ok(fs')
  }

  lemma ArchiveValid(s: State, s': State, user: string, p: string)
    requires Archives(s, s'.fs, user, p)
    requires s'.users == s.users && s'.nextId > s.nextId
    requires forall i {:trigger i in s'.trash} :: i in s'.trash ==> RowSane(i, s'.trash[i], s'.nextId)
    ensures Valid(s')
  {
    ArchiveWorks(s, user, p, s.nextId);
    forall u | u in s.users
      ensures IsDir(s'.fs, Phys(Home(u))) && !IsFile(s'.fs, Phys(TrashRoot(u))) && !IsFile(s'.fs, BlobBase(u))
    {
      assert ValidName(u) && ValidName(user);
      BlobPathIsNoSystemDir(user, s.nextId, u);
      assert At(s'.fs, Phys(Home(u))) == WithBlobBase(s.fs, user, Phys(Home(u)));
      assert At(s'.fs, Phys(TrashRoot(u))) == WithBlobBase(s.fs, user, Phys(TrashRoot(u)));
      assert At(s'.fs, BlobBase(u)) == WithBlobBase(s.fs, user, BlobBase(u));
    }
    forall u, h {:trigger BlobPath(u, h)} | u in s'.users && h >= s'.nextId ensures BlobPath(u, h) !in s'.fs {
      assert ValidName(u) && ValidName(user);
      if BlobPath(u, h) == BlobPath(user, s.nextId) { BlobPathInjective(u, h, user, s.nextId); }
      BlobNotInChain(user, u, h);
      assert At(s'.fs, BlobPath(u, h)) == if BlobPath(u, h) == Phys(p) then None else At(s.fs, BlobPath(u, h));
    }
  }

  // Tracked paths, homes, trash directories and blobs never coincide.
  lemma SystemObjectsDistinct(user: string, p: string, u: string, h: nat)
    requires ValidName(user) && ValidName(u) && Tracked(user, p)
    ensures Phys(p) != Phys(Home(u)) && Phys(p) != Phys(TrashRoot(u)) && Phys(p) != BlobBase(u) && Phys(p) != BlobPath(u, h)
  {
    SystemObjectsUntracked(user, u, h);
    assert Phys(p)[4..] == p && TrackedObject(user, Phys(p));
  }

  lemma ChildDiffers(d1: string, n1: string, d2: string, n2: string)
    requires '/' !in n1 && '/' !in n2 && (d1 != d2 || n1 != n2)
    ensures Child(d1, n1) != Child(d2, n2)
  {
    if Child(d1, n1) == Child(d2, n2) { ChildInjective(d1, n1, d2, n2); }
  }

  lemma BlobPathIsNoSystemDir(user: string, h: nat, u: string)
    requires ValidName(user) && ValidName(u)
    ensures BlobPath(user, h) != Phys(Home(u)) && BlobPath(user, h) != Phys(TrashRoot(u)) && BlobPath(user, h) != BlobBase(u)
  {
    var base, id := BlobBase(user), UuidText(h);
    assert id[0] == '0' && '/' !in id;
    assert |base| > |"vol1/User"|;
    ChildDiffers(base, id, "vol1/User", u);
    assert Phys(Home(u)) == Child("vol1/User", u);
    BlobIsNoTrashDir(user, id, u);
  }

  lemma BlobIsNoTrashDir(user: string, id: string, u: string)
    requires '/' !in id && id != "" && id[0] == '0'
    ensures Child(BlobBase(user), id) != Phys(TrashRoot(u)) && Child(BlobBase(user), id) != BlobBase(u)
  {
    ChildDiffers(BlobBase(user), id, Phys(Home(u)), ".Trash");
    assert Phys(TrashRoot(u)) == Child(Phys(Home(u)), ".Trash");
    ChildDiffers(BlobBase(user), id, Phys(TrashRoot(u)), "blobs");
    assert BlobBase(u) == Child(Phys(TrashRoot(u)), "blobs");
  }

  lemma BlobNotInChain(user: string, u: string, h: nat)
    requires ValidName(user) && ValidName(u)
    ensures BlobPath(u, h) !in Chain(BlobBase(user))
  {
    var b := BlobPath(u, h);
    BlobPathIsNoSystemDir(u, h, user);
    assert |b| > |"vol1/User"|;
    assert Phys(Home(user)) == Child("vol1/User", user);
    NotAtOrAbove(b, "vol1/User", user);
    assert Phys(TrashRoot(user)) == Child(Phys(Home(user)), ".Trash");
    NotAtOrAbove(b, Phys(Home(user)), ".Trash");
    assert BlobBase(user) == Child(Phys(TrashRoot(user)), "blobs");
    NotAtOrAbove(b, Phys(TrashRoot(user)), "blobs");
  }

  lemma NotAtOrAbove(b: string, dir: string, name: string)
    requires '/' !in name && !Under(dir, b) && b != Child(dir, name)
    ensures !Under(Child(dir, name), b)
  {
    AboveChild(b, dir, name);
  }

  // ---- Directory -------------------------------------------------------------------------------

  // Paths in the trash are relative to the user root.
  function RelativeDir(user: string, dir: string): string {
    if dir == Home(user) then "/"
    else if Home(user) <= dir then dir[|Home(user)|..]
    else dir
  }

  // The directory the files of a listing are recorded under; empty for the home itself.
  function FilesDir(user: string, dir: string): string {
    if Home(user) <= dir then dir[|Home(user)|..] else dir
  }

  predicate HasChild(fs: Tree, p: string, n: string) {
    PlainName(n) && Phys(Child(p, n)) in fs
  }

  predicate HasFile(fs: Tree, p: string, n: string) {
    PlainName(n) && IsFile(fs, Phys(Child(p, n)))
  }

  function DirRow(user: string, dir: string, name: string, now: int): TrashRow {
    TrashRow(user, dir, name, true, 0, None, now)
  }

  function SizeAt(fs: Tree, p: string): nat {
    if IsFile(fs, p) then |fs[p].data| else 0
  }

  // A listed file: its name, and the path that name resolves to. A backslash in it counts as a slash.
  datatype Found = Found(name: string, path: string)

  function Addressed(k: Key, n: string): string {
    NormalizePath(Child(PathOf(k), n))
  }

  function Located(k: Key, n: string): Found {
    Found(n, Addressed(k, n))
  }

  function FoundFiles(k: Key, files: seq<string>): seq<Found> {
    seq(|files|, i requires 0 <= i < |files| => Located(k, files[i]))
  }

  function FileRow(s: State, k: Key, now: int, f: Found, blob: nat): TrashRow {
    TrashRow(k.user, FilesDir(k.user, PathOf(k)), f.name, false, SizeAt(s.fs, Phys(f.path)), Some(blob), now)
  }

  // hash_and_archive_file then upsert_trash_file_item, for one listed file.
  function ArchiveFound(s: State, k: Key, now: int, f: Found): (State, Outcome) {
    if !IsFile(s.fs, Phys(f.path)) then (s, Err(Refusal(s.fs, f.path)))
    else match ArchiveTree(s.fs, k.user, f.path, s.nextId)
      case Err(_) => (s.(fs := TryCreateDir(s.fs, BlobBase(k.user)), nextId := s.nextId + 1), Err(Io))
      case Ok(fs) =>
        (s.(fs := fs, trash := s.trash[s.nextId + 1 := FileRow(s, k, now, f, s.nextId)], nextId := s.nextId + 2), Ok(()))
  }

  // The files in listing order, stopping at the first failure.
  function ArchiveAll(s: State, k: Key, now: int, found: seq<Found>): (State, Outcome) {
    if found == [] then (s, Ok(()))
    else
      var (s1, r1) := ArchiveAll(s, k, now, found[..|found| - 1]);
      if r1.Err? then (s1, r1) else ArchiveFound(s1, k, now, found[|found| - 1])
  }

  // One row per sub-directory popped off the stack; its directory is already gone.
  function FileDirs(s: State, k: Key, now: int, dirs: seq<string>): State {
    if dirs == [] then s
    else
      var s1 := FileDirs(s, k, now, dirs[..|dirs| - 1]);
      s1.(trash := s1.trash[s1.nextId := DirRow(k.user, RelativeDir(k.user, PathOf(k)), dirs[|dirs| - 1], now)],
          nextId := s1.nextId + 1)
  }

  // The children of p, files and directories apart, each once.
  ghost predicate Listing(fs: Tree, p: string, files: seq<string>, dirs: seq<string>) {
    && (forall n {:trigger n in files} :: n in files <==> HasFile(fs, p, n))
    && (forall n {:trigger n in dirs} :: n in dirs <==> HasChild(fs, p, n) && !HasFile(fs, p, n))
    && (forall i, j {:trigger files[i], files[j]} :: 0 <= i < j < |files| ==> files[i] != files[j])
    && (forall i, j {:trigger dirs[i], dirs[j]} :: 0 <= i < j < |dirs| ==> dirs[i] != dirs[j])
  }

  function OpenWalk(s: State, k: Key, now: int): State {
    s.(trash := s.trash[s.nextId := DirRow(k.user, RelativeDir(k.user, k.dir), k.name, now)], nextId := s.nextId + 1)
  }

  // One round of trash_directory_recursive: the row of the directory, its files, remove_all.
  function VisitResult(s: State, k: Key, now: int, files: seq<string>): (State, Outcome) {
    var (s2, r) := ArchiveAll(OpenWalk(s, k, now), k, now, FoundFiles(k, files));
    if r.Err? then (s2, r) else (s2.(fs := RemoveAll(s2.fs, OpPath(PathOf(k)))), Ok(()))
  }

  // The whole of it: then a row for each direct sub-directory.
  function WalkResult(s: State, k: Key, now: int, files: seq<string>, dirs: seq<string>): (State, Outcome) {
    var (s1, r) := VisitResult(s, k, now, files);
    if r.Err? then (s1, r) else (FileDirs(s1, k, now, dirs), Ok(()))
  }

  // The index statements of delete on a directory: the LIKE subtree, then the row itself.
  function Unindexed(cloud: Cloud, k: Key): Cloud {
    cloud - (set j | j in cloud && j.user == k.user && Selects(PathOf(k), j.dir)) - {k}
  }

  function DeleteDirResult(s: State, k: Key, now: int, files: seq<string>, dirs: seq<string>): (State, Outcome) {
    var (s1, r) := WalkResult(s, k, now, files, dirs);
    if r.Err? then (s1, r) else (s1.(cloud := Unindexed(s1.cloud, k)), Ok(()))
  }

  // ---- Where the walk finds its files --------------------------------------------------------------

  // Every path is a file, and no two listed files resolve to one.
  ghost predicate Archivable(s: State, found: seq<Found>) {
    && (forall f {:trigger f in found} :: f in found ==> IsFile(s.fs, Phys(f.path)) && PlainName(f.name))
    && (forall i, j {:trigger found[i], found[j]} :: 0 <= i < j < |found| ==> found[i].path != found[j].path)
  }

  ghost predicate Reached(s: State, k: Key, files: seq<string>) {
    Archivable(s, FoundFiles(k, files))
  }

  // Every file of the listing is found at its own path.
  ghost predicate OwnPaths(k: Key, files: seq<string>) {
    forall n {:trigger n in files} :: n in files ==> Addressed(k, n) == Child(PathOf(k), n)
  }

  lemma ValidNamesAddressed(k: Key, n: string)
    requires Normal(PathOf(k)) && PathOf(k) != "/" && ValidName(n)
    ensures Addressed(k, n) == Child(PathOf(k), n)
  {
    NormalChild(PathOf(k), n);
    NormalizeIdempotent(Child(PathOf(k), n));
  }

  lemma FoundIndex(k: Key, files: seq<string>, f: Found) returns (i: nat)
    requires f in FoundFiles(k, files)
    ensures i < |files| && files[i] in files && f == Located(k, files[i]) && f == FoundFiles(k, files)[i]
  {
    i :| i < |files| && FoundFiles(k, files)[i] == f;
  }

  lemma FoundConcat(k: Key, files: seq<string>, more: seq<string>)
    ensures FoundFiles(k, files + more) == FoundFiles(k, files) + FoundFiles(k, more)
  {
  }

  lemma OwnPathsReached(s: State, k: Key, files: seq<string>, dirs: seq<string>)
    requires Listing(s.fs, PathOf(k), files, dirs) && OwnPaths(k, files)
    ensures Reached(s, k, files)
  {
    var found := FoundFiles(k, files);
    forall f | f in found ensures IsFile(s.fs, Phys(f.path)) && PlainName(f.name) {
      var i := FoundIndex(k, files, f);
      assert HasFile(s.fs, PathOf(k), files[i]);
    }
    forall i, j | 0 <= i < j < |found| ensures found[i].path != found[j].path {
      assert files[i] in files && files[j] in files;
      assert found[i].path[|PathOf(k)| + 1..] == files[i] && found[j].path[|PathOf(k)| + 1..] == files[j];
    }
  }

  // ---- The files become blobs ----------------------------------------------------------------------

  // The object at q once the file at p has become the blob h, where `rest` was there before.
  function OnceArchived(s: State, k: Key, p: string, h: nat, q: string, rest: Option<Node>): Option<Node> {
    if q == BlobPath(k.user, h) then At(s.fs, Phys(p))
    else if q == Phys(p) then None
    else if q in Chain(BlobBase(k.user)) then Some(Dir)
    else rest
  }

  // The object at q once the given files have been archived.
  function AfterArchiving(s: State, k: Key, found: seq<Found>, q: string): Option<Node> {
    if found == [] then At(s.fs, q)
    else
      var n := |found| - 1;
      OnceArchived(s, k, found[n].path, s.nextId + 2 * n, q, AfterArchiving(s, k, found[..n], q))
  }

  predicate Registered(users: set<string>, k: Key) {
    k.user in users && PlainName(k.name)
  }

  // A file that is not among the archived ones is where it was.
  lemma {:induction false} OtherFileStays(s: State, k: Key, found: seq<Found>, p: string)
    requires Valid(s) && k.user in s.users && IsFile(s.fs, Phys(p)) && forall f :: f in found ==> f.path != p
    ensures AfterArchiving(s, k, found, Phys(p)) == At(s.fs, Phys(p))
  {
    if found != [] {
      var m := |found| - 1;
      OtherFileStays(s, k, found[..m], p);
      FileElsewhere(s, k.user, Phys(p), s.nextId + 2 * m);
      assert found[m] in found;
      assert Phys(p)[4..] == p && Phys(found[m].path)[4..] == found[m].path;
    }
  }

  lemma ArchiveFoundWorks(s: State, k: Key, now: int, f: Found, q: string)
    requires Valid(s) && k.user in s.users && IsFile(s.fs, Phys(f.path))
    ensures var (s', r) := ArchiveFound(s, k, now, f);
            && r.Ok? && s'.users == s.users && s'.cloud == s.cloud && s'.nextId == s.nextId + 2
            && At(s'.fs, q) == if q == BlobPath(k.user, s.nextId) then At(s.fs, Phys(f.path))
                               else if q == Phys(f.path) then None
                               else WithBlobBase(s.fs, k.user, q)
  {
    ArchiveWorks(s, k.user, f.path, s.nextId);
  }

  lemma ArchiveFoundTrash(s: State, k: Key, now: int, f: Found)
    requires Valid(s) && k.user in s.users && IsFile(s.fs, Phys(f.path))
    ensures ArchiveFound(s, k, now, f).0.trash == s.trash[s.nextId + 1 := FileRow(s, k, now, f, s.nextId)]
    ensures ArchiveTree(s.fs, k.user, f.path, s.nextId) == Ok(ArchiveFound(s, k, now, f).0.fs)
  {
    ArchiveWorks(s, k.user, f.path, s.nextId);
  }

  lemma ArchiveFoundValid(s: State, k: Key, now: int, f: Found)
    requires Valid(s) && k.user in s.users && IsFile(s.fs, Phys(f.path)) && PlainName(f.name)
    ensures Valid(ArchiveFound(s, k, now, f).0)
  {
    ArchiveFoundWorks(s, k, now, f, "");
    ArchiveFoundTrash(s, k, now, f);
    ArchiveValid(s, ArchiveFound(s, k, now, f).0, k.user, f.path);
  }

  // Archiving succeeds for every file and leaves at q what AfterArchiving says.
  lemma {:induction false} ArchiveAllWorks(s: State, k: Key, now: int, found: seq<Found>, q: string)
    requires Valid(s) && Registered(s.users, k) && Archivable(s, found)
    ensures var (s', r) := ArchiveAll(s, k, now, found);
            && r.Ok? && ArchivedSoFar(s, s', found)
            && At(s'.fs, q) == AfterArchiving(s, k, found, q)
  {
    if found != [] {
      var n := |found| - 1;
      var rest := found[..n];
      ArchivablePrefix(s, found);
      ArchiveAllWorks(s, k, now, rest, q);
      ArchiveAllWorks(s, k, now, rest, Phys(found[n].path));
      var s1 := ArchiveAll(s, k, now, rest).0;
      LastIsFile(s, s1, k, found);
      ArchiveLast(s, s1, k, now, found);
      ArchiveLastAt(s, s1, k, now, found, q);
    }
  }

  ghost predicate ArchivedSoFar(s: State, s': State, found: seq<Found>) {
    Valid(s') && s'.nextId == s.nextId + 2 * |found| && s'.users == s.users && s'.cloud == s.cloud
  }

  // The next file is where it was.
  lemma LastIsFile(s: State, s1: State, k: Key, found: seq<Found>)
    requires Valid(s) && k.user in s.users && Archivable(s, found) && found != []
    requires var q := Phys(found[|found| - 1].path);
             At(s1.fs, q) == AfterArchiving(s, k, found[..|found| - 1], q)
    ensures var q := Phys(found[|found| - 1].path); At(s1.fs, q) == At(s.fs, q) && IsFile(s1.fs, q)
    ensures PlainName(found[|found| - 1].name)
  {
    var n := |found| - 1;
    assert found[n] in found;
    forall f | f in found[..n] ensures f.path != found[n].path {
      var i :| 0 <= i < n && found[i] == f;
    }
    OtherFileStays(s, k, found[..n], found[n].path);
  }

  // All but the last file are in the trash.
  ghost predicate OneLeft(s: State, s1: State, k: Key, now: int, found: seq<Found>) {
    && found != [] && Registered(s.users, k)
    && ArchiveAll(s, k, now, found[..|found| - 1]) == (s1, Ok(())) && ArchivedSoFar(s, s1, found[..|found| - 1])
    && PlainName(found[|found| - 1].name)
    && var c := Phys(found[|found| - 1].path); IsFile(s1.fs, c) && At(s1.fs, c) == At(s.fs, c)
  }

  lemma ArchiveLast(s: State, s1: State, k: Key, now: int, found: seq<Found>)
    requires OneLeft(s, s1, k, now, found)
    ensures var (s', r) := ArchiveAll(s, k, now, found); r.Ok? && ArchivedSoFar(s, s', found)
  {
    var last := found[|found| - 1];
    ArchiveAllUnfold(s, s1, k, now, found);
    ArchiveFoundWorks(s1, k, now, last, "");
    ArchiveFoundValid(s1, k, now, last);
  }

  lemma ArchiveLastAt(s: State, s1: State, k: Key, now: int, found: seq<Found>, q: string)
    requires OneLeft(s, s1, k, now, found)
    requires At(s1.fs, q) == AfterArchiving(s, k, found[..|found| - 1], q)
    ensures At(ArchiveAll(s, k, now, found).0.fs, q) == AfterArchiving(s, k, found, q)
  {
    ArchiveAllUnfold(s, s1, k, now, found);
    AfterArchivingUnfold(s, k, found, q);
    LastAt(s, s1, k, now, found[|found| - 1], q, AfterArchiving(s, k, found[..|found| - 1], q));
  }

  lemma LastAt(s: State, s1: State, k: Key, now: int, f: Found, q: string, rest: Option<Node>)
    requires Valid(s1) && k.user in s1.users && IsFile(s1.fs, Phys(f.path)) && At(s1.fs, Phys(f.path)) == At(s.fs, Phys(f.path))
    requires At(s1.fs, q) == rest
    ensures At(ArchiveFound(s1, k, now, f).0.fs, q) == OnceArchived(s, k, f.path, s1.nextId, q, rest)
  {
    ArchiveFoundWorks(s1, k, now, f, q);
  }

  lemma AfterArchivingUnfold(s: State, k: Key, found: seq<Found>, q: string)
    requires found != []
    ensures var n := |found| - 1;
            AfterArchiving(s, k, found, q)
            == OnceArchived(s, k, found[n].path, s.nextId + 2 * n, q, AfterArchiving(s, k, found[..n], q))
  {
  }

  lemma ArchiveAllUnfold(s: State, s1: State, k: Key, now: int, found: seq<Found>)
    requires found != [] && ArchiveAll(s, k, now, found[..|found| - 1]) == (s1, Ok(()))
    ensures ArchiveAll(s, k, now, found) == ArchiveFound(s1, k, now, found[|found| - 1])
  {
  }

  lemma ArchivablePrefix(s: State, found: seq<Found>)
    requires found != [] && Archivable(s, found)
    ensures Archivable(s, found[..|found| - 1])
  {
    var rest := found[..|found| - 1];
    assert forall f :: f in rest ==> f in found;
    assert forall i :: 0 <= i < |rest| ==> rest[i] == found[i];
  }

  // ---- Their rows ------------------------------------------------------------------------------------

  // The trash rows of the archived files, under the ids drawn for them.
  function FileRows(s: State, k: Key, now: int, found: seq<Found>): Trash {
    if found == [] then map[]
    else
      var n := |found| - 1;
      FileRows(s, k, now, found[..n])[s.nextId + 2 * n + 1 := FileRow(s, k, now, found[n], s.nextId + 2 * n)]
  }

  lemma {:induction false} ArchiveAllTrash(s: State, k: Key, now: int, found: seq<Found>)
    requires Valid(s) && Registered(s.users, k) && Archivable(s, found)
    ensures ArchiveAll(s, k, now, found).0.trash == s.trash + FileRows(s, k, now, found)
  {
    if found == [] {
      assert s.trash + map[] == s.trash;
    } else {
      var n := |found| - 1;
      ArchivablePrefix(s, found);
      ArchiveAllTrash(s, k, now, found[..n]);
      var s1 := AllButLast(s, k, now, found);
      LastArchived(s, s1, k, now, found);
      OneMoreRow(s, k, now, found, s1.trash, s1.nextId);
    }
  }

  lemma OneMoreRow(s: State, k: Key, now: int, found: seq<Found>, before: Trash, id: nat)
    requires found != [] && id == s.nextId + 2 * (|found| - 1)
    requires before == s.trash + FileRows(s, k, now, found[..|found| - 1])
    ensures before[id + 1 := FileRow(s, k, now, found[|found| - 1], id)] == s.trash + FileRows(s, k, now, found)
  {
    var n := |found| - 1;
    FileRowsUnfold(s, k, now, found, id);
    MergeThenUpdate(s.trash, FileRows(s, k, now, found[..n]), id + 1, FileRow(s, k, now, found[n], id));
  }

  lemma AllButLast(s: State, k: Key, now: int, found: seq<Found>) returns (s1: State)
    requires Valid(s) && Registered(s.users, k) && Archivable(s, found) && found != []
    ensures OneLeft(s, s1, k, now, found) && s1.nextId == s.nextId + 2 * (|found| - 1)
  {
    var n := |found| - 1;
    ArchivablePrefix(s, found);
    ArchiveAllWorks(s, k, now, found[..n], Phys(found[n].path));
    s1 := ArchiveAll(s, k, now, found[..n]).0;
    LastIsFile(s, s1, k, found);
  }

  lemma FileRowsUnfold(s: State, k: Key, now: int, found: seq<Found>, id: nat)
    requires found != [] && id == s.nextId + 2 * (|found| - 1)
    ensures FileRows(s, k, now, found)
            == FileRows(s, k, now, found[..|found| - 1])[id + 1 := FileRow(s, k, now, found[|found| - 1], id)]
  {
  }

  lemma MergeThenUpdate(a: Trash, b: Trash, id: nat, row: TrashRow)
    ensures a + b[id := row] == (a + b)[id := row]
  {
  }

  lemma LastArchived(s: State, s1: State, k: Key, now: int, found: seq<Found>)
    requires OneLeft(s, s1, k, now, found)
    ensures ArchiveAll(s, k, now, found).0.trash
            == s1.trash[s1.nextId + 1 := FileRow(s, k, now, found[|found| - 1], s1.nextId)]
  {
    var last := found[|found| - 1];
    ArchiveAllUnfold(s, s1, k, now, found);
    ArchiveFoundTrash(s1, k, now, last);
    SameFileRow(s, s1, k, now, last, s1.nextId);
  }

  lemma SameFileRow(s: State, s1: State, k: Key, now: int, f: Found, blob: nat)
    requires At(s1.fs, Phys(f.path)) == At(s.fs, Phys(f.path))
    ensures FileRow(s1, k, now, f, blob) == FileRow(s, k, now, f, blob)
  {
  }

  lemma {:induction false} FileRowAt(s: State, k: Key, now: int, found: seq<Found>, j: nat)
    requires j < |found|
    ensures var id := s.nextId + 2 * j + 1;
            id in FileRows(s, k, now, found)
            && FileRows(s, k, now, found)[id] == FileRow(s, k, now, found[j], s.nextId + 2 * j)
  {
    if j < |found| - 1 { FileRowAt(s, k, now, found[..|found| - 1], j); }
  }

  lemma {:induction false} FileRowIndex(s: State, k: Key, now: int, found: seq<Found>, id: nat) returns (j: nat)
    requires id in FileRows(s, k, now, found)
    ensures j < |found| && id == s.nextId + 2 * j + 1
  {
    var n := |found| - 1;
    if id == s.nextId + 2 * n + 1 { j := n; } else { j := FileRowIndex(s, k, now, found[..n], id); }
  }

  // ---- The walk --------------------------------------------------------------------------------------

  lemma {:induction false} FileDirsFrame(s: State, k: Key, now: int, dirs: seq<string>)
    requires Valid(s) && forall n :: n in dirs ==> PlainName(n)
    ensures var s' := FileDirs(s, k, now, dirs);
            Valid(s') && s'.fs == s.fs && s'.cloud == s.cloud && s'.users == s.users && s'.nextId == s.nextId + |dirs|
  {
    if dirs != [] {
      assert dirs[|dirs| - 1] in dirs;
      FileDirsFrame(s, k, now, dirs[..|dirs| - 1]);
    }
  }

  lemma {:induction false} FileDirsTree(s: State, k: Key, now: int, dirs: seq<string>)
    ensures FileDirs(s, k, now, dirs).fs == s.fs && FileDirs(s, k, now, dirs).users == s.users
  {
    if dirs != [] { FileDirsTree(s, k, now, dirs[..|dirs| - 1]); }
  }

  lemma OpenWalkValid(s: State, k: Key, now: int)
    requires Valid(s) && Registered(s.users, k)
    ensures Valid(OpenWalk(s, k, now))
  {
  }

  // Removing a tracked subtree keeps the state valid.
  lemma RemoveTrackedValid(s: State, user: string, p: string)
    requires Valid(s) && user in s.users && Tracked(user, p)
    ensures Valid(s.(fs := RemoveAll(s.fs, Phys(p))))
  {
    RemoveAllWellFormed(s.fs, Phys(p));
    var fs' := RemoveAll(s.fs, Phys(p));
    forall q | !TrackedObject(user, q) ensures At(fs', q) == At(s.fs, q) {
      if Under(q, Phys(p)) { BelowTrackedObject(user, p, q); }
    }
    FrameValid(s, s.(fs := fs'), user);
  }

  // A walk whose files are all reached comes to its end.
  lemma WalkArchives(s: State, k: Key, now: int, files: seq<string>, dirs: seq<string>, q: string) returns (s2: State)
    requires Valid(s) && Registered(s.users, k) && Normal(PathOf(k)) && Reached(s, k, files)
    ensures ArchiveAll(OpenWalk(s, k, now), k, now, FoundFiles(k, files)) == (s2, Ok(()))
    ensures ArchivedSoFar(OpenWalk(s, k, now), s2, FoundFiles(k, files))
    ensures At(s2.fs, q) == AfterArchiving(OpenWalk(s, k, now), k, FoundFiles(k, files), q)
    ensures WalkResult(s, k, now, files, dirs)
            == (FileDirs(s2.(fs := RemoveAll(s2.fs, Phys(PathOf(k)))), k, now, dirs), Ok(()))
  {
    OpenWalkValid(s, k, now);
    s2 := OpenedArchives(OpenWalk(s, k, now), k, now, FoundFiles(k, files), q);
    WalkUnfold(s, k, now, files, dirs, s2);
  }

  lemma OpenedArchives(s1: State, k: Key, now: int, found: seq<Found>, q: string) returns (s2: State)
    requires Valid(s1) && Registered(s1.users, k) && Archivable(s1, found)
    ensures ArchiveAll(s1, k, now, found) == (s2, Ok(())) && ArchivedSoFar(s1, s2, found)
    ensures At(s2.fs, q) == AfterArchiving(s1, k, found, q)
  {
    ArchiveAllWorks(s1, k, now, found, q);
    s2 := ArchiveAll(s1, k, now, found).0;
  }

  lemma WalkUnfold(s: State, k: Key, now: int, files: seq<string>, dirs: seq<string>, s2: State)
    requires Normal(PathOf(k)) && ArchiveAll(OpenWalk(s, k, now), k, now, FoundFiles(k, files)) == (s2, Ok(()))
    ensures WalkResult(s, k, now, files, dirs)
            == (FileDirs(s2.(fs := RemoveAll(s2.fs, Phys(PathOf(k)))), k, now, dirs), Ok(()))
  {
    NormalizeIdempotent(PathOf(k));
  }

  // A delete whose files are all archived.
  lemma DeleteUnfold(s: State, k: Key, now: int, files: seq<string>, dirs: seq<string>, s2: State)
    requires Normal(PathOf(k)) && ArchiveAll(OpenWalk(s, k, now), k, now, FoundFiles(k, files)) == (s2, Ok(()))
    ensures var s3 := FileDirs(s2.(fs := RemoveAll(s2.fs, Phys(PathOf(k)))), k, now, dirs);
            DeleteDirResult(s, k, now, files, dirs) == (s3.(cloud := Unindexed(s3.cloud, k)), Ok(()))
  {
    WalkUnfold(s, k, now, files, dirs, s2);
  }

  // One that stops.
  lemma DeleteStops(s: State, k: Key, now: int, files: seq<string>, dirs: seq<string>, s2: State, r: Outcome)
    requires ArchiveAll(OpenWalk(s, k, now), k, now, FoundFiles(k, files)) == (s2, r) && r.Err?
    ensures DeleteDirResult(s, k, now, files, dirs) == (s2, r)
  {
  }

  // A walk below a home that reaches its files succeeds; it removes the whole subtree and outside it
  // only adds blobs.
  lemma WalkWorks(s: State, k: Key, now: int, files: seq<string>, dirs: seq<string>, q: string)
    requires Valid(s) && InDomain(s.users, k) && Normal(PathOf(k)) && Listing(s.fs, PathOf(k), files, dirs)
    requires Reached(s, k, files)
    ensures var (s', r) := WalkResult(s, k, now, files, dirs);
            && r.Ok? && Valid(s') && s'.users == s.users && s'.cloud == s.cloud
            && s'.nextId == s.nextId + 1 + 2 * |files| + |dirs|
            && At(s'.fs, q) == if Under(q, Phys(PathOf(k))) then None
                               else AfterArchiving(OpenWalk(s, k, now), k, FoundFiles(k, files), q)
  {
    var s2 := WalkArchives(s, k, now, files, dirs, q);
    RemoveTrackedValid(s2, k.user, PathOf(k));
    FileDirsFrame(s2.(fs := RemoveAll(s2.fs, Phys(PathOf(k)))), k, now, dirs);
  }

  lemma AddressedBelow(k: Key, n: string)
    requires Normal(PathOf(k)) && PathOf(k) != "/"
    ensures Under(Addressed(k, n), PathOf(k)) && Normal(Addressed(k, n))
  {
    NormalizeAppend(PathOf(k), n);
    NormalizeIdempotent(Child(PathOf(k), n));
  }

  // All found paths lie at or below the directory.
  lemma FoundBelow(k: Key, files: seq<string>)
    requires Normal(PathOf(k)) && PathOf(k) != "/"
    ensures forall f :: f in FoundFiles(k, files) ==> Under(f.path, PathOf(k))
  {
    forall f | f in FoundFiles(k, files) ensures Under(f.path, PathOf(k)) {
      var i := FoundIndex(k, files, f);
      AddressedBelow(k, files[i]);
    }
  }

  // One of the files was found at p.
  ghost predicate FoundAt(found: seq<Found>, p: string) {
    exists i {:trigger found[i]} :: 0 <= i < |found| && found[i].path == p
  }

  lemma FoundAtLast(found: seq<Found>, p: string)
    requires found != []
    ensures FoundAt(found, p) <==> FoundAt(found[..|found| - 1], p) || found[|found| - 1].path == p
  {
    var n, front := |found| - 1, found[..|found| - 1];
    if FoundAt(front, p) {
      var i :| 0 <= i < n && front[i].path == p;
      assert found[i].path == p;
    }
    if FoundAt(found, p) && found[n].path != p {
      var i :| 0 <= i < |found| && found[i].path == p;
      assert front[i].path == p;
    }
  }

  // Archiving leaves every other tracked object alone, and nothing where it found its files.
  lemma {:induction false} ArchivingElsewhere(s: State, k: Key, found: seq<Found>, user: string, p: string)
    requires ValidName(k.user) && ValidName(user) && Tracked(user, p)
    ensures AfterArchiving(s, k, found, Phys(p)) == if FoundAt(found, p) then None else At(s.fs, Phys(p))
  {
    if found != [] {
      var n := |found| - 1;
      ArchivingElsewhere(s, k, found[..n], user, p);
      FoundAtLast(found, p);
      OneArchivedElsewhere(s, k, found[n].path, s.nextId + 2 * n, user, p, AfterArchiving(s, k, found[..n], Phys(p)));
    }
  }

  lemma OneArchivedElsewhere(s: State, k: Key, from: string, h: nat, user: string, p: string, rest: Option<Node>)
    requires ValidName(k.user) && ValidName(user) && Tracked(user, p)
    ensures OnceArchived(s, k, from, h, Phys(p), rest) == if from == p then None else rest
  {
    BlobApartFromTracked(k.user, h, user, p);
    assert Phys(p)[4..] == p && Phys(from)[4..] == from;
  }

  // q is none of the blobs drawn for that many files.
  ghost predicate NoneDrawn(user: string, first: nat, files: nat, q: string) {
    forall h {:trigger BlobPath(user, h)} :: first <= h < first + 2 * files && (h - first) % 2 == 0 ==> q != BlobPath(user, h)
  }

  // What the walk does not touch: everything but the subtree, the blobs drawn for its files, and
  // the blob directory, which is there afterwards if anything was archived.
  lemma WalkFrame(s: State, k: Key, now: int, files: seq<string>, dirs: seq<string>, q: string)
    requires Valid(s) && InDomain(s.users, k) && Normal(PathOf(k)) && Listing(s.fs, PathOf(k), files, dirs)
    requires Reached(s, k, files)
    requires NoneDrawn(k.user, s.nextId + 1, |files|, q)
    ensures At(WalkResult(s, k, now, files, dirs).0.fs, q) ==
            if Under(q, Phys(PathOf(k))) then None
            else if files != [] && q in Chain(BlobBase(k.user)) then Some(Dir)
            else At(s.fs, q)
  {
    if !Under(q, Phys(PathOf(k))) { FrameOutside(OpenWalk(s, k, now), k, files, q); }
    WalkWorks(s, k, now, files, dirs, q);
  }

  lemma FrameOutside(s: State, k: Key, files: seq<string>, q: string)
    requires Tracked(k.user, PathOf(k)) && Normal(PathOf(k)) && !Under(q, Phys(PathOf(k)))
    requires NoneDrawn(k.user, s.nextId, |files|, q)
    ensures AfterArchiving(s, k, FoundFiles(k, files), q) ==
            if files != [] && q in Chain(BlobBase(k.user)) then Some(Dir) else At(s.fs, q)
  {
    HomeBelow(k.user, PathOf(k));
    FoundBelow(k, files);
    ArchivingFrame(s, k, FoundFiles(k, files), q);
  }

  lemma {:induction false} ArchivingFrame(s: State, k: Key, found: seq<Found>, q: string)
    requires !Under(q, Phys(PathOf(k))) && forall f {:trigger f in found} :: f in found ==> Under(f.path, PathOf(k))
    requires NoneDrawn(k.user, s.nextId, |found|, q)
    ensures AfterArchiving(s, k, found, q) == if found != [] && q in Chain(BlobBase(k.user)) then Some(Dir) else At(s.fs, q)
  {
    if found != [] {
      var n := |found| - 1;
      forall f | f in found[..n] ensures Under(f.path, PathOf(k)) { assert f in found; }
      ArchivingFrame(s, k, found[..n], q);
      assert found[n] in found && q != BlobPath(k.user, s.nextId + 2 * n);
      PhysUnder(found[n].path, PathOf(k));
      AfterArchivingUnfold(s, k, found, q);
    }
  }

  // ---- Agreement -------------------------------------------------------------------------------

  // Deleting a tracked file always succeeds and keeps tree and index in agreement.
  lemma DeleteFileAgreement(s: State, k: Key, now: int)
    requires Valid(s) && Agree(s) && InDomain(s.users, k)
    ensures var (s', r) := DeleteFileResult(s, k, now);
            Valid(s') && Agree(s') && (r.Ok? <==> IsFile(s.fs, Phys(PathOf(k))))
  {
    var (s', r) := DeleteFileResult(s, k, now);
    if IsFile(s.fs, Phys(PathOf(k))) {
      assert ValidName(k.user);
      ArchiveWorks(s, k.user, PathOf(k), s.nextId);
      ArchiveValid(s, s', k.user, PathOf(k));
      forall j {:trigger InDomain(s'.users, j)} | InDomain(s'.users, j)
        ensures IndexView(s'.cloud, j) == TreeView(s'.fs, PathOf(j))
      {
        ArchivedView(s, s'.fs, k, j);
        assert InDomain(s.users, j);
      }
    }
  }

  lemma ArchivedView(s: State, fs': Tree, k: Key, j: Key)
    requires Valid(s) && InDomain(s.users, k) && InDomain(s.users, j) && IsFile(s.fs, Phys(PathOf(k)))
    requires ArchiveTree(s.fs, k.user, PathOf(k), s.nextId) == Ok(fs')
    ensures TreeView(fs', PathOf(j)) == if j == k then Absent else TreeView(s.fs, PathOf(j))
  {
    assert ValidName(k.user) && ValidName(j.user);
    ArchiveWorks(s, k.user, PathOf(k), s.nextId);
    BlobApartFromTracked(k.user, s.nextId, j.user, PathOf(j));
    assert Phys(PathOf(j)) !in Chain(BlobBase(k.user));
    if PathOf(j) == PathOf(k) { SameKey(s.users, j, k); }
    assert Phys(PathOf(j))[4..] == PathOf(j) && Phys(PathOf(k))[4..] == PathOf(k);
    assert At(fs', Phys(PathOf(j))) == if j == k then None else At(s.fs, Phys(PathOf(j)));
  }

  // A row that the LIKE subtree selects although it lies outside the directory.
  predicate Stray(users: set<string>, cloud: Cloud, k: Key, j: Key) {
    j in cloud && InDomain(users, j) && j != k && j.user == k.user
    && Selects(PathOf(k), j.dir) && !Under(j.dir, PathOf(k))
  }

  // What a tracked object is after a directory walk and what the index says about it.
  lemma DeletedViews(s: State, k: Key, now: int, files: seq<string>, dirs: seq<string>, j: Key)
    requires Valid(s) && Agree(s) && InDomain(s.users, k) && InDomain(s.users, j)
    requires Normal(PathOf(k)) && Listing(s.fs, PathOf(k), files, dirs) && Reached(s, k, files)
    ensures var s' := DeleteDirResult(s, k, now, files, dirs).0;
            && TreeView(s'.fs, PathOf(j)) == (if Under(PathOf(j), PathOf(k)) then Absent else TreeView(s.fs, PathOf(j)))
            && IndexView(s'.cloud, j) == (if Under(PathOf(j), PathOf(k)) || Stray(s.users, s.cloud, k, j) then Absent
                                          else IndexView(s.cloud, j))
  {
    DeletedTree(s, k, now, files, dirs, j);
    DeletedIndex(s, k, j);
    WalkWorks(s, k, now, files, dirs, "");
  }

  lemma DeletedTree(s: State, k: Key, now: int, files: seq<string>, dirs: seq<string>, j: Key)
    requires Valid(s) && InDomain(s.users, k) && InDomain(s.users, j)
    requires Normal(PathOf(k)) && Listing(s.fs, PathOf(k), files, dirs) && Reached(s, k, files)
    ensures TreeView(WalkResult(s, k, now, files, dirs).0.fs, PathOf(j))
            == if Under(PathOf(j), PathOf(k)) then Absent else TreeView(s.fs, PathOf(j))
  {
    assert ValidName(k.user) && ValidName(j.user);
    WalkWorks(s, k, now, files, dirs, Phys(PathOf(j)));
    PhysUnder(PathOf(j), PathOf(k));
    if !Under(PathOf(j), PathOf(k)) {
      HomeBelow(k.user, PathOf(k));
      FoundBelow(k, files);
      ArchivingElsewhere(OpenWalk(s, k, now), k, FoundFiles(k, files), j.user, PathOf(j));
    }
  }

  lemma DeletedIndex(s: State, k: Key, j: Key)
    requires Valid(s) && Agree(s) && InDomain(s.users, k) && InDomain(s.users, j) && Normal(PathOf(k))
    ensures IndexView(Unindexed(s.cloud, k), j)
            == if Under(PathOf(j), PathOf(k)) || Stray(s.users, s.cloud, k, j) then Absent else IndexView(s.cloud, j)
  {
    assert ValidName(k.user) && ValidName(j.user);
    NormalHasNoBackslash(PathOf(k));
    AboveChild(PathOf(k), j.dir, j.name);
    if Under(PathOf(j), PathOf(k)) {
      AboveTransitive(Home(k.user), PathOf(k), PathOf(j));
      HomesApart(k.user, j.user, PathOf(j));
      if PathOf(j) == PathOf(k) { SameKey(s.users, j, k); }
      else if Above(PathOf(k), j.dir) { DescendantsSelected(PathOf(k), j.dir); }
    }
  }

  // ---- Which walks come to their end ---------------------------------------------------------------

  ghost predicate TrackedFinds(k: Key, found: seq<Found>) {
    forall f {:trigger f in found} :: f in found ==> Tracked(k.user, f.path) && PlainName(f.name)
  }

  lemma FoundTracked(s: State, k: Key, files: seq<string>, dirs: seq<string>)
    requires Tracked(k.user, PathOf(k)) && Normal(PathOf(k)) && Listing(s.fs, PathOf(k), files, dirs)
    ensures TrackedFinds(k, FoundFiles(k, files))
  {
    forall f | f in FoundFiles(k, files) ensures Tracked(k.user, f.path) && PlainName(f.name) {
      var i := FoundIndex(k, files, f);
      assert HasFile(s.fs, PathOf(k), files[i]);
      HomeBelow(k.user, PathOf(k));
      AddressedBelow(k, files[i]);
      TrackedBelow(k.user, PathOf(k), f.path);
    }
  }

  lemma TrackedFindsPrefix(k: Key, found: seq<Found>, m: nat)
    requires TrackedFinds(k, found) && m <= |found|
    ensures TrackedFinds(k, found[..m])
  {
    assert forall f :: f in found[..m] ==> f in found;
  }

  // The files can all be archived exactly when each is a file and no two are one.
  lemma {:induction false} ArchiveAllExact(s: State, k: Key, now: int, found: seq<Found>)
    requires Valid(s) && Registered(s.users, k) && TrackedFinds(k, found)
    ensures ArchiveAll(s, k, now, found).1.Ok? <==> Archivable(s, found)
  {
    if Archivable(s, found) {
      ArchiveAllWorks(s, k, now, found, "");
    } else {
      var n := |found| - 1;
      TrackedFindsPrefix(k, found, n);
      ArchiveAllExact(s, k, now, found[..n]);
      if ArchiveAll(s, k, now, found[..n]).1.Ok? {
        LastNotArchivable(s, k, now, found);
      }
    }
  }

  lemma LastNotArchivable(s: State, k: Key, now: int, found: seq<Found>)
    requires Valid(s) && Registered(s.users, k) && TrackedFinds(k, found) && found != []
    requires Archivable(s, found[..|found| - 1]) && !Archivable(s, found)
    ensures var (s1, r1) := ArchiveAll(s, k, now, found[..|found| - 1]);
            r1.Ok? && !IsFile(s1.fs, Phys(found[|found| - 1].path))
  {
    var n := |found| - 1;
    var rest, last := found[..n], found[n];
    assert last in found && ValidName(k.user);
    ArchiveAllWorks(s, k, now, rest, Phys(last.path));
    ArchivingElsewhere(s, k, rest, k.user, last.path);
    if IsFile(s.fs, Phys(last.path)) && forall f :: f in rest ==> f.path != last.path {
      OneMoreArchivable(s, found);
    } else if f :| f in rest && f.path == last.path {
      var i :| 0 <= i < n && rest[i] == f;
    }
  }

  lemma OneMoreArchivable(s: State, found: seq<Found>)
    requires found != [] && Archivable(s, found[..|found| - 1])
    requires var last := found[|found| - 1];
             IsFile(s.fs, Phys(last.path)) && PlainName(last.name)
             && forall f :: f in found[..|found| - 1] ==> f.path != last.path
    ensures Archivable(s, found)
  {
    var n := |found| - 1;
    var rest := found[..n];
    assert found == rest + [found[n]];
    forall i, j | 0 <= i < j < |found| ensures found[i].path != found[j].path {
      assert found[i] == rest[i] && rest[i] in rest;
      if j < n { assert found[j] == rest[j]; }
    }
  }

  // Otherwise the walk stops before the first file it cannot archive.
  lemma {:induction false} ArchiveAllStops(s: State, k: Key, now: int, found: seq<Found>) returns (m: nat)
    requires Valid(s) && Registered(s.users, k) && TrackedFinds(k, found) && ArchiveAll(s, k, now, found).1.Err?
    ensures m < |found| && Archivable(s, found[..m]) && ArchiveAll(s, k, now, found).0 == ArchiveAll(s, k, now, found[..m]).0
    ensures m == 0 <==> !IsFile(s.fs, Phys(found[0].path))
  {
    var n := |found| - 1;
    TrackedFindsPrefix(k, found, n);
    if ArchiveAll(s, k, now, found[..n]).1.Err? {
      m := ArchiveAllStops(s, k, now, found[..n]);
      assert found[..n][..m] == found[..m] && found[..n][0] == found[0];
    } else {
      m := n;
      ArchiveAllExact(s, k, now, found[..n]);
      StoppedAtLast(s, k, now, found);
      if m > 0 { assert found[..m][0] == found[0] && found[0] in found[..m]; }
    }
  }

  lemma StoppedAtLast(s: State, k: Key, now: int, found: seq<Found>)
    requires Valid(s) && Registered(s.users, k) && found != [] && Archivable(s, found[..|found| - 1])
    requires ArchiveAll(s, k, now, found).1.Err?
    ensures ArchiveAll(s, k, now, found).0 == ArchiveAll(s, k, now, found[..|found| - 1]).0
    ensures |found| == 1 ==> !IsFile(s.fs, Phys(found[0].path))
  {
    var rest, last := found[..|found| - 1], found[|found| - 1];
    ArchiveAllWorks(s, k, now, rest, "");
    var s1 := ArchiveAll(s, k, now, rest).0;
    ArchiveAllUnfold(s, s1, k, now, found);
    if IsFile(s1.fs, Phys(last.path)) { ArchiveFoundWorks(s1, k, now, last, ""); }
  }

  lemma StoppedState(s: State, k: Key, now: int, files: seq<string>, dirs: seq<string>) returns (s1: State, done: seq<Found>)
    requires Valid(s) && InDomain(s.users, k) && Normal(PathOf(k)) && Listing(s.fs, PathOf(k), files, dirs)
    requires DeleteDirResult(s, k, now, files, dirs).1.Err?
    ensures s1 == OpenWalk(s, k, now) && Valid(s1) && Archivable(s1, done) && files != []
    ensures DeleteDirResult(s, k, now, files, dirs).0 == ArchiveAll(s1, k, now, done).0
    ensures done == [] <==> !IsFile(s.fs, Phys(Addressed(k, files[0])))
    ensures done != [] ==> done[0] == Located(k, files[0])
  {
    s1 := OpenWalk(s, k, now);
    var found := FoundFiles(k, files);
    OpenWalkValid(s, k, now);
    FoundTracked(s, k, files, dirs);
    var m := ArchiveAllStops(s1, k, now, found);
    done := found[..m];
  }

  // A delete whose walk stops has left its row to every file archived so far.
  lemma StoppedAgreement(s: State, k: Key, now: int, files: seq<string>, dirs: seq<string>)
    requires Valid(s) && Agree(s) && InDomain(s.users, k) && Normal(PathOf(k)) && Listing(s.fs, PathOf(k), files, dirs)
    requires DeleteDirResult(s, k, now, files, dirs).1.Err?
    ensures Valid(DeleteDirResult(s, k, now, files, dirs).0) && files != []
    ensures Agree(DeleteDirResult(s, k, now, files, dirs).0) <==> !IsFile(s.fs, Phys(Addressed(k, files[0])))
  {
    var s1, done := StoppedState(s, k, now, files, dirs);
    HomeBelow(k.user, PathOf(k));
    AddressedBelow(k, files[0]);
    TrackedBelow(k.user, PathOf(k), Addressed(k, files[0]));
    StoppedViews(s, s1, k, now, done, Addressed(k, files[0]));
  }

  lemma StoppedViews(s: State, s1: State, k: Key, now: int, done: seq<Found>, p: string)
    requires Valid(s) && Agree(s) && Registered(s.users, k) && s1 == s.(trash := s1.trash, nextId := s1.nextId) && Valid(s1)
    requires Archivable(s1, done) && (done != [] ==> done[0].path == p) && Tracked(k.user, p) && Normal(p)
    ensures Valid(ArchiveAll(s1, k, now, done).0)
    ensures Agree(ArchiveAll(s1, k, now, done).0) <==> done == []
  {
    ArchiveAllWorks(s1, k, now, done, "");
    if done == [] {
      assert Agree(s1);
    } else {
      ArchivedUnindexed(s, s1, ArchiveAll(s1, k, now, done).0, k, now, done);
    }
  }

  lemma ArchivedUnindexed(s: State, s1: State, s': State, k: Key, now: int, found: seq<Found>)
    requires Valid(s) && Agree(s) && Registered(s.users, k) && s1 == s.(trash := s1.trash, nextId := s1.nextId) && Valid(s1)
    requires TrackedKeyed(k, found) && Archivable(s1, found) && s' == ArchiveAll(s1, k, now, found).0
    ensures !Agree(s')
  {
    assert found[0] in found && ValidName(k.user);
    var j := TrackedKey(k.user, found[0].path);
    ArchiveAllWorks(s1, k, now, found, Phys(found[0].path));
    ArchivingElsewhere(s1, k, found, k.user, found[0].path);
    assert found[0].path == found[0].path && FoundAt(found, found[0].path);
    assert InDomain(s.users, j) && InDomain(s'.users, j);
    assert IndexView(s.cloud, j) == TreeView(s.fs, PathOf(j));
  }

  // Found paths of a tracked directory, normalised as they are.
  ghost predicate TrackedKeyed(k: Key, found: seq<Found>) {
    found != [] && Tracked(k.user, found[0].path) && Normal(found[0].path)
  }

  // Deleting a directory succeeds exactly when every file directly in it is found, names with a
  // backslash being looked for elsewhere. If it succeeds it keeps tree and index in agreement exactly
  // when its LIKE pattern selects no row of another directory; if it fails, exactly when the first
  // file of the listing was the one not found.
  lemma DeleteDirAgreement(s: State, k: Key, now: int, files: seq<string>, dirs: seq<string>)
    requires Valid(s) && Agree(s) && InDomain(s.users, k) && Normal(PathOf(k))
    requires Listing(s.fs, PathOf(k), files, dirs)
    ensures var (s', r) := DeleteDirResult(s, k, now, files, dirs);
            && Valid(s') && (r.Ok? <==> Reached(s, k, files))
            && (r.Ok? ==> (Agree(s') <==> forall j :: !Stray(s.users, s.cloud, k, j)))
            && (r.Err? ==> files != [] && (Agree(s') <==> !IsFile(s.fs, Phys(Addressed(k, files[0])))))
  {
    OpenWalkValid(s, k, now);
    FoundTracked(s, k, files, dirs);
    ArchiveAllExact(OpenWalk(s, k, now), k, now, FoundFiles(k, files));
    assert Reached(s, k, files) <==> Archivable(OpenWalk(s, k, now), FoundFiles(k, files));
    if Reached(s, k, files) {
      ReachedAgreement(s, k, now, files, dirs);
    } else {
      StoppedAgreement(s, k, now, files, dirs);
    }
  }

  lemma ReachedAgreement(s: State, k: Key, now: int, files: seq<string>, dirs: seq<string>)
    requires Valid(s) && Agree(s) && InDomain(s.users, k) && Normal(PathOf(k))
    requires Listing(s.fs, PathOf(k), files, dirs) && Reached(s, k, files)
    ensures var (s', r) := DeleteDirResult(s, k, now, files, dirs);
            r.Ok? && Valid(s') && (Agree(s') <==> forall j :: !Stray(s.users, s.cloud, k, j))
  {
    var s' := DeleteDirResult(s, k, now, files, dirs).0;
    WalkWorks(s, k, now, files, dirs, "");
    forall j {:trigger InDomain(s.users, j)} | InDomain(s.users, j)
      ensures IndexView(s'.cloud, j) == TreeView(s'.fs, PathOf(j)) <==> !Stray(s.users, s.cloud, k, j)
    {
      DeletedViews(s, k, now, files, dirs, j);
      AboveChild(PathOf(k), j.dir, j.name);
      if PathOf(j) == PathOf(k) { SameKey(s.users, j, k); }
    }
    if j :| Stray(s.users, s.cloud, k, j) {
      assert InDomain(s'.users, j);
    } else {
      assert Agree(s');
    }
  }

  // Without a wildcard in the path there is no such row.
  lemma LiteralHasNoStray(users: set<string>, cloud: Cloud, k: Key)
    requires Normal(PathOf(k)) && WildcardFree(PathOf(k))
    ensures forall j :: !Stray(users, cloud, k, j)
  {
    NormalHasNoBackslash(PathOf(k));
    forall j ensures !Stray(users, cloud, k, j) { LiteralSubtree(PathOf(k), j.dir); }
  }

  // ---- The rows a walk leaves in the trash --------------------------------------------------

  function SubdirRows(first: nat, k: Key, now: int, dirs: seq<string>): Trash {
    if dirs == [] then map[]
    else
      var n := |dirs| - 1;
      SubdirRows(first, k, now, dirs[..n])[first + n := DirRow(k.user, RelativeDir(k.user, PathOf(k)), dirs[n], now)]
  }

  lemma {:induction false} FileDirsTrash(s: State, k: Key, now: int, dirs: seq<string>)
    ensures FileDirs(s, k, now, dirs).trash == s.trash + SubdirRows(s.nextId, k, now, dirs)
    ensures FileDirs(s, k, now, dirs).nextId == s.nextId + |dirs|
  {
    if dirs == [] {
      assert s.trash + map[] == s.trash;
    } else {
      var n := |dirs| - 1;
      FileDirsTrash(s, k, now, dirs[..n]);
      MergeThenUpdate(s.trash, SubdirRows(s.nextId, k, now, dirs[..n]), s.nextId + n,
                      DirRow(k.user, RelativeDir(k.user, PathOf(k)), dirs[n], now));
    }
  }

  lemma {:induction false} SubdirRowAt(first: nat, k: Key, now: int, dirs: seq<string>, j: nat)
    requires j < |dirs|
    ensures first + j in SubdirRows(first, k, now, dirs)
    ensures SubdirRows(first, k, now, dirs)[first + j] == DirRow(k.user, RelativeDir(k.user, PathOf(k)), dirs[j], now)
  {
    if j < |dirs| - 1 { SubdirRowAt(first, k, now, dirs[..|dirs| - 1], j); }
  }

  lemma {:induction false} SubdirRowIndex(first: nat, k: Key, now: int, dirs: seq<string>, id: nat) returns (j: nat)
    requires id in SubdirRows(first, k, now, dirs)
    ensures j < |dirs| && id == first + j
  {
    var n := |dirs| - 1;
    if id == first + n { j := n; } else { j := SubdirRowIndex(first, k, now, dirs[..n], id); }
  }

  // Where a row of the trash comes from.
  datatype Origin = Older | Itself | OfFile(index: nat) | OfDir(index: nat)

  function RowOf(s: State, k: Key, now: int, found: seq<Found>, dirs: seq<string>, o: Origin): TrashRow
    requires o.OfFile? ==> o.index < |found|
    requires o.OfDir? ==> o.index < |dirs|
  {
    match o
    case OfFile(j) => FileRow(s, k, now, found[j], s.nextId + 1 + 2 * j)
    case OfDir(j) => DirRow(k.user, RelativeDir(k.user, PathOf(k)), dirs[j], now)
    case _ => DirRow(k.user, RelativeDir(k.user, k.dir), k.name, now)
  }

  // The user's, of the time of the deletion; a file has a blob, a directory neither blob nor size.
  predicate OfDeletion(row: TrashRow, user: string, now: int, o: Origin) {
    && row.user == user && row.deletedAt == now && (row.isDir <==> !o.OfFile?)
    && (row.isDir ==> row.blob == None && row.size == 0) && (!row.isDir ==> row.blob.Some?)
  }

  function IdOf(s: State, files: nat, o: Origin): nat {
    match o
    case OfFile(j) => s.nextId + 2 + 2 * j
    case OfDir(j) => s.nextId + 1 + 2 * files + j
    case _ => s.nextId
  }

  // Old rows, the row of the directory, a row per file.
  function RowsOfFiles(s: State, k: Key, now: int, found: seq<Found>): Trash {
    OpenWalk(s, k, now).trash + FileRows(OpenWalk(s, k, now), k, now, found)
  }

  // And a row per sub-directory.
  function RowsAfter(s: State, k: Key, now: int, found: seq<Found>, dirs: seq<string>): Trash {
    RowsOfFiles(s, k, now, found) + SubdirRows(s.nextId + 1 + 2 * |found|, k, now, dirs)
  }

  lemma WalkTrash(s: State, k: Key, now: int, files: seq<string>, dirs: seq<string>)
    requires Valid(s) && Registered(s.users, k) && Normal(PathOf(k)) && Reached(s, k, files)
    ensures WalkResult(s, k, now, files, dirs).0.trash == RowsAfter(s, k, now, FoundFiles(k, files), dirs)
  {
    var s2 := WalkArchives(s, k, now, files, dirs, "");
    var found := FoundFiles(k, files);
    OpenedRows(s, k, now, found);
    WalkedRows(s, k, now, found, dirs, s2.trash, s2.(fs := RemoveAll(s2.fs, Phys(PathOf(k)))));
  }

  lemma WalkedRows(s: State, k: Key, now: int, found: seq<Found>, dirs: seq<string>, before: Trash, s3: State)
    requires s3.trash == before && before == RowsOfFiles(s, k, now, found) && s3.nextId == s.nextId + 1 + 2 * |found|
    ensures FileDirs(s3, k, now, dirs).trash == RowsAfter(s, k, now, found, dirs)
  {
    DirRowsAdded(s3, k, now, dirs, before, s3.nextId);
  }

  lemma OpenedRows(s: State, k: Key, now: int, found: seq<Found>)
    requires Valid(s) && Registered(s.users, k) && Archivable(s, found)
    ensures ArchiveAll(OpenWalk(s, k, now), k, now, found).0.trash == RowsOfFiles(s, k, now, found)
  {
    var s1 := OpenWalk(s, k, now);
    OpenWalkValid(s, k, now);
    assert Archivable(s1, found);
    ArchiveAllTrash(s1, k, now, found);
  }

  lemma DirRowsAdded(s: State, k: Key, now: int, dirs: seq<string>, before: Trash, first: nat)
    requires s.trash == before && s.nextId == first
    ensures FileDirs(s, k, now, dirs).trash == before + SubdirRows(first, k, now, dirs)
  {
    FileDirsTrash(s, k, now, dirs);
  }

  lemma OriginOf(s: State, k: Key, now: int, found: seq<Found>, dirs: seq<string>, id: nat) returns (o: Origin)
    requires id in RowsAfter(s, k, now, found, dirs)
    ensures (o.OfFile? ==> o.index < |found|) && (o.OfDir? ==> o.index < |dirs|)
    ensures o == Older ==> id in s.trash && RowsAfter(s, k, now, found, dirs)[id] == s.trash[id]
    ensures o != Older ==> id == IdOf(s, |found|, o)
                           && RowsAfter(s, k, now, found, dirs)[id] == RowOf(s, k, now, found, dirs, o)
  {
    var first, s1 := s.nextId + 1 + 2 * |found|, OpenWalk(s, k, now);
    if id in SubdirRows(first, k, now, dirs) {
      var j := SubdirRowIndex(first, k, now, dirs, id);
      SubdirRowAt(first, k, now, dirs, j);
      o := OfDir(j);
    } else if id in FileRows(s1, k, now, found) {
      var j := FileRowIndex(s1, k, now, found, id);
      FileRowAt(s1, k, now, found, j);
      SameFileRow(s, s1, k, now, found[j], s1.nextId + 2 * j);
      o := OfFile(j);
    } else if id == s.nextId {
      o := Itself;
    } else {
      o := Older;
    }
  }

  lemma RowOrigin(s: State, k: Key, now: int, files: seq<string>, dirs: seq<string>, id: nat) returns (o: Origin)
    requires Valid(s) && Registered(s.users, k) && Normal(PathOf(k)) && Reached(s, k, files)
    requires id in WalkResult(s, k, now, files, dirs).0.trash
    ensures (o.OfFile? ==> o.index < |files|) && (o.OfDir? ==> o.index < |dirs|)
    ensures o == Older ==> id in s.trash && WalkResult(s, k, now, files, dirs).0.trash[id] == s.trash[id]
    ensures o != Older ==> id == IdOf(s, |files|, o)
                           && WalkResult(s, k, now, files, dirs).0.trash[id] == RowOf(s, k, now, FoundFiles(k, files), dirs, o)
    ensures o != Older ==> OfDeletion(WalkResult(s, k, now, files, dirs).0.trash[id], k.user, now, o)
  {
    WalkTrash(s, k, now, files, dirs);
    o := OriginOf(s, k, now, FoundFiles(k, files), dirs, id);
  }

  lemma OriginPresent(s: State, k: Key, now: int, found: seq<Found>, dirs: seq<string>, o: Origin)
    requires o != Older && (o.OfFile? ==> o.index < |found|) && (o.OfDir? ==> o.index < |dirs|)
    ensures var trash := RowsAfter(s, k, now, found, dirs);
            IdOf(s, |found|, o) in trash && trash[IdOf(s, |found|, o)] == RowOf(s, k, now, found, dirs, o)
  {
    var first, s1, id := s.nextId + 1 + 2 * |found|, OpenWalk(s, k, now), IdOf(s, |found|, o);
    if id in SubdirRows(first, k, now, dirs) { var j := SubdirRowIndex(first, k, now, dirs, id); }
    if id in FileRows(s1, k, now, found) { var j := FileRowIndex(s1, k, now, found, id); }
    match o {
      case OfFile(j) =>
        FileRowAt(s1, k, now, found, j);
        SameFileRow(s, s1, k, now, found[j], s1.nextId + 2 * j);
      case OfDir(j) => SubdirRowAt(first, k, now, dirs, j);
      case _ =>
    }
  }

  lemma RowPresent(s: State, k: Key, now: int, files: seq<string>, dirs: seq<string>, o: Origin)
    requires Valid(s) && Registered(s.users, k) && Normal(PathOf(k)) && Reached(s, k, files)
    requires o != Older && (o.OfFile? ==> o.index < |files|) && (o.OfDir? ==> o.index < |dirs|)
    ensures var trash := WalkResult(s, k, now, files, dirs).0.trash;
            && IdOf(s, |files|, o) in trash && trash[IdOf(s, |files|, o)] == RowOf(s, k, now, FoundFiles(k, files), dirs, o)
            && OfDeletion(trash[IdOf(s, |files|, o)], k.user, now, o)
  {
    WalkTrash(s, k, now, files, dirs);
    OriginPresent(s, k, now, FoundFiles(k, files), dirs, o);
  }

  lemma OldRowKept(s: State, k: Key, now: int, files: seq<string>, dirs: seq<string>, id: nat)
    requires Valid(s) && Registered(s.users, k) && Normal(PathOf(k)) && Reached(s, k, files) && id in s.trash
    ensures var trash := WalkResult(s, k, now, files, dirs).0.trash; id in trash && trash[id] == s.trash[id]
  {
    WalkTrash(s, k, now, files, dirs);
    OldRowThere(s, k, now, FoundFiles(k, files), dirs, id);
  }

  lemma OldRowThere(s: State, k: Key, now: int, found: seq<Found>, dirs: seq<string>, id: nat)
    requires Valid(s) && id in s.trash
    ensures var trash := RowsAfter(s, k, now, found, dirs); id in trash && trash[id] == s.trash[id]
  {
    var first, s1 := s.nextId + 1 + 2 * |found|, OpenWalk(s, k, now);
    assert id < s.nextId by { assert RowSane(id, s.trash[id], s.nextId); }
    if id in SubdirRows(first, k, now, dirs) { var j := SubdirRowIndex(first, k, now, dirs, id); }
    if id in FileRows(s1, k, now, found) { var j := FileRowIndex(s1, k, now, found, id); }
  }

  // The blob of the j-th archived file holds the bytes of the file it was found at.
  lemma BlobHoldsFile(s: State, k: Key, now: int, files: seq<string>, dirs: seq<string>, j: nat)
    requires Valid(s) && InDomain(s.users, k) && Normal(PathOf(k)) && Listing(s.fs, PathOf(k), files, dirs)
    requires Reached(s, k, files) && j < |files|
    ensures At(WalkResult(s, k, now, files, dirs).0.fs, BlobPath(k.user, s.nextId + 1 + 2 * j))
            == At(s.fs, Phys(Addressed(k, files[j])))
  {
    assert ValidName(k.user);
    var b, h := BlobPath(k.user, s.nextId + 1 + 2 * j), s.nextId + 1 + 2 * j;
    OpenWalkValid(s, k, now);
    FoundContent(OpenWalk(s, k, now), k, files, j, b);
    BlobApartFromTracked(k.user, h, k.user, PathOf(k));
    WalkWorks(s, k, now, files, dirs, b);
  }

  lemma FoundContent(s: State, k: Key, files: seq<string>, j: nat, b: string)
    requires Valid(s) && k.user in s.users && Reached(s, k, files) && j < |files| && b == BlobPath(k.user, s.nextId + 2 * j)
    ensures AfterArchiving(s, k, FoundFiles(k, files), b) == At(s.fs, Phys(Addressed(k, files[j])))
  {
    ArchivedContent(s, k, FoundFiles(k, files), j, b);
  }

  lemma BlobNamesDiffer(user: string, h: nat, g: nat)
    requires h != g
    ensures BlobPath(user, h) != BlobPath(user, g)
  {
    assert BlobPath(user, h)[|BlobBase(user)| + 1..] == UuidText(h);
    assert BlobPath(user, g)[|BlobBase(user)| + 1..] == UuidText(g);
    assert |UuidText(h)| != |UuidText(g)|;
  }

  lemma {:induction false} ArchivedContent(s: State, k: Key, found: seq<Found>, j: nat, b: string)
    requires Valid(s) && k.user in s.users && Archivable(s, found) && j < |found| && b == BlobPath(k.user, s.nextId + 2 * j)
    ensures AfterArchiving(s, k, found, b) == At(s.fs, Phys(found[j].path))
  {
    var n := |found| - 1;
    if j < n {
      BlobNamesDiffer(k.user, s.nextId + 2 * j, s.nextId + 2 * n);
      assert found[n] in found && ValidName(k.user);
      FileElsewhere(s, k.user, Phys(found[n].path), s.nextId + 2 * j);
      ArchivablePrefix(s, found);
      ArchivedContent(s, k, found[..n], j, b);
    }
  }
}
