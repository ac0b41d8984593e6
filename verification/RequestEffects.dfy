/**
  What single requests do to the disk and the tables, path by path and row by row, and with which error
  each of them is refused.
 */
module RequestEffects {
  import opened Wrappers
  import opened Text
  import opened VirtualPath
  import opened Like
  import opened FileTree
  import opened DotPaths
  import opened StorageState
  import opened StorageIndex
  import opened StorageRename
  import opened StorageTrash
  import opened StorageRestore
  import opened StorageRequests
  import opened SaveNames
  import opened TrashIntegrity
  import opened TrashRoundTrip

  // ---- mkdir ---------------------------------------------------------------------------------------

  // A file stands at the object or above it.
  ghost predicate FileInTheWay(fs: Tree, q: string) {
    exists a {:trigger IsFile(fs, a)} :: IsFile(fs, a) && (a == q || (a != "" && Above(a, q)))
  }

  // The tree with a directory at q and above it.
  ghost predicate DirectoryMade(fs: Tree, fs': Tree, q: string) {
    forall x {:trigger At(fs', x)} :: At(fs', x) == if x == q || (x != "" && Above(x, q)) then Some(Dir) else At(fs, x)
  }

  // A path that has a row is refused by the database and nothing changes. Otherwise the row of an empty
  // directory is added; then the directory is made, unless a file is in the way.
  lemma MkdirEffect(s: State, s': State, username: string, p: string, r: Outcome)
    requires Reachable(s.users, username, p) && (s', r) == MkdirRequest(s, username, p)
    ensures r == Err(Database) <==> KeyFor(p) in s.cloud
    ensures r == Err(Database) ==> s' == s
    ensures r == Ok(()) <==> KeyFor(p) !in s.cloud && !FileInTheWay(s.fs, Phys(p))
    ensures r == Ok(()) ==> DirectoryMade(s.fs, s'.fs, Phys(p))
    ensures r != Ok(()) ==> s'.fs == s.fs
    ensures KeyFor(p) !in s.cloud ==>
              && KeyFor(p) in s'.cloud && s'.cloud == s.cloud[KeyFor(p) := s'.cloud[KeyFor(p)]]
              && s'.cloud[KeyFor(p)].size == 0 && s'.cloud[KeyFor(p)].mime == InodeDirectory
    ensures s'.trash == s.trash && s'.users == s.users
  {
    var k := ReachableKey(s.users, username, p);
    HomePathLength(p, k);
    BlockedIsFile(s.fs, Phys(p));
  }

  // In the home of an unregistered owner no directory is made.
  lemma MkdirUnregistered(s: State, username: string, p: string)
    requires Normal(p) && Authorise(username, p).Ok? && Authorise(username, p).value !in s.users && |Components(p)| > 2
    ensures MkdirRequest(s, username, p) == (s, Err(Database))
  {
    var k := RoutedKey(p);
  }

  lemma HomePathLength(p: string, k: Key)
    requires Normal(p) && "/User/" <= p && |Components(p)| >= 2 && k == KeyFor(p) && Above(Home(k.user), p)
    ensures |Components(p)| != 2
  {
    var j := RoutedKey(p);
  }

  lemma BlockedIsFile(fs: Tree, q: string)
    ensures Blocked(fs, Chain(q)) <==> FileInTheWay(fs, q)
  {
  }

  // A home cannot be made.
  lemma MkdirHomeRefused(s: State, username: string, owner: string)
    requires ValidName(owner) && (username == owner || username == "admin")
    ensures MkdirRequest(s, username, Home(owner)) == (s, Err(BadRequest))
  {
    var parts := ["User", owner];
    assert ValidParts(parts);
    RenderIsSlashed(parts);
    SlashedTwo(parts);
    assert parts[2..] == [] && Slashed([]) == "";
    assert Render(parts) == Home(owner);
    ComponentsOfRender(parts);
  }

  // ---- save ----------------------------------------------------------------------------------------

  // The tree with the bytes at q and directories above it.
  ghost predicate FileWritten(fs: Tree, fs': Tree, q: string, data: Bytes) {
    forall x {:trigger At(fs', x)} ::
      At(fs', x) == if x == q then Some(File(data)) else if x != "" && Above(x, q) then Some(Dir) else At(fs, x)
  }

  // The row after an upsert: the size and kind of the new bytes, and the id the row had if it was there.
  predicate Upserted(cloud: Cloud, cloud': Cloud, k: Key, size: nat) {
    && k in cloud' && cloud' == cloud[k := cloud'[k]]
    && cloud'[k].size == size && cloud'[k].mime == Guessed(k.name) && (k in cloud ==> cloud'[k].id == cloud[k].id)
  }

  // save_file of one component. A file above the path or a directory at it is an I/O error that leaves the
  // index alone. Otherwise the bytes are there, whatever was before, and the index has their row; of an
  // unregistered owner there is no row, which is a database error. Nothing else changes.
  lemma SaveEffect(s: State, s': State, username: string, dir: string, name: string, data: Bytes, r: Outcome)
    requires Normal(dir) && Authorise(username, dir).Ok? && PlainName(name) && name != ".."
    requires (s', r) == SaveRequest(s, username, dir, name, data)
    ensures var q, k := Phys(Child(dir, name)), Key(Authorise(username, dir).value, dir, name);
            if FileInTheWay(s.fs, Phys(dir)) || IsDir(s.fs, q) then r == Err(Io) && s'.cloud == s.cloud
            else
              && FileWritten(s.fs, s'.fs, q, data)
              && if k.user in s.users then r == Ok(()) && Upserted(s.cloud, s'.cloud, k, |data|)
                 else r == Err(Database) && s'.cloud == s.cloud
    ensures s'.trash == s.trash && s'.users == s.users
  {
    var k := Key(Authorise(username, dir).value, dir, name);
    SplitWithout(name, '/');
    FilterAll([name], (n: string) => n != "");
    assert Components(name) == [name] && NoClimb(name);
    PlainNameSaved(s, k.user, dir, name, data);
    SavedTree(s.fs, dir, name, data);
  }

  lemma SavedTree(fs: Tree, dir: string, name: string, data: Bytes)
    requires '/' !in name && "/" <= dir
    ensures var fs1, q := TryCreateDir(fs, Phys(dir)), Phys(Child(dir, name));
            && (Write(fs1, q, data).Ok? <==> !FileInTheWay(fs, Phys(dir)) && !IsDir(fs, q))
            && (Write(fs1, q, data).Ok? ==> FileWritten(fs, Write(fs1, q, data).value, q, data))
  {
    var fs1, q := TryCreateDir(fs, Phys(dir)), Phys(Child(dir, name));
    assert q == Child(Phys(dir), name);
    forall a ensures a in Chain(q) - {q} <==> a in Chain(Phys(dir)) { AboveChild(a, Phys(dir), name); }
    assert Chain(q) - {q} == Chain(Phys(dir));
    BlockedIsFile(fs, Phys(dir));
    assert q !in Chain(Phys(dir));
    if FileInTheWay(fs, Phys(dir)) {
      assert Blocked(fs1, Chain(q) - {q});
    } else {
      assert fs1 == WithDirs(fs, Chain(Phys(dir))) && !Blocked(fs1, Chain(Phys(dir)));
    }
  }

  // ---- rename --------------------------------------------------------------------------------------

  // The tree after everything at or below one object has moved to another.
  ghost predicate SubtreeMoved(fs: Tree, fs': Tree, from: string, to: string) {
    forall x {:trigger At(fs', x)} ::
      At(fs', x) == if Under(x, to) then At(fs, Rebase(x, to, from)) else if Under(x, from) then None else At(fs, x)
  }

  // create_dir with its failure ignored.
  ghost predicate DirectoryTried(fs: Tree, fs': Tree, q: string) {
    if FileInTheWay(fs, q) then fs' == fs else DirectoryMade(fs, fs', q)
  }

  lemma TriedDirectory(fs: Tree, q: string)
    ensures DirectoryTried(fs, TryCreateDir(fs, q), q)
  {
    BlockedIsFile(fs, q);
  }

  // A granted move: the directory above the target is made if it can be. Then either the file system
  // refuses the rename and nothing else changes, or the whole subtree moves with its bytes and only the
  // rows of the index can follow it. The trash is left alone.
  lemma MoveEffect(s: State, s': State, username: string, from: string, to: string, r: Outcome) returns (fs1: Tree)
    requires Valid(s) && Reachable(s.users, username, from) && Reachable(s.users, username, to)
    requires MoveOwner(username, from, to).Ok? && MoveRequest(s, s', username, from, to, r)
    ensures "/" <= to && DirectoryTried(s.fs, fs1, Phys(Parent(to)))
    ensures r == Err(Io) <==> !CanMove(fs1, Phys(from), Phys(to))
    ensures r == Err(Io) ==> s' == s.(fs := fs1)
    ensures r != Err(Io) ==> SubtreeMoved(fs1, s'.fs, Phys(from), Phys(to))
    ensures s'.trash == s.trash && s'.users == s.users && s'.nextId == s.nextId
  {
    var src := ReachableKey(s.users, username, from);
    var dst := ReachableKey(s.users, username, to);
    fs1 := TryCreateDir(s.fs, Phys(dst.dir));
    TriedDirectory(s.fs, Phys(dst.dir));
    CreateDirWellFormed(s.fs, Phys(dst.dir));
    MoveStepEffect(s, s', fs1, src, dst, r);
  }

  // In the home of an unregistered owner the bytes move and the rows do not follow.
  lemma MoveUnregistered(s: State, s': State, username: string, from: string, to: string, r: Outcome)
    requires WellFormed(s.fs) && Normal(from) && Normal(to) && MoveOwner(username, from, to).Ok?
    requires MoveOwner(username, from, to).value !in s.users && "/" <= to && IsDir(s.fs, Phys(Parent(to)))
    requires MoveRequest(s, s', username, from, to, r)
    ensures r == Err(if CanMove(s.fs, Phys(from), Phys(to)) then Database else Io) && s'.cloud == s.cloud
    ensures r == Err(Database) ==> SubtreeMoved(s.fs, s'.fs, Phys(from), Phys(to))
  {
    var src := RoutedKey(from);
    var dst := RoutedKey(to);
    CreateExistingDir(s.fs, Phys(dst.dir));
    if CanMove(s.fs, Phys(from), Phys(to)) { MovedSubtree(s.fs, Phys(from), Phys(to)); }
  }

  lemma MoveStepEffect(s: State, s': State, fs1: Tree, src: Key, dst: Key, r: Outcome)
    requires fs1 == TryCreateDir(s.fs, Phys(dst.dir)) && WellFormed(fs1) && src.user in s.users
    requires MoveStep(s, s', src, dst, r)
    ensures r == Err(Io) <==> !CanMove(fs1, Phys(PathOf(src)), Phys(PathOf(dst)))
    ensures r == Err(Io) ==> s' == s.(fs := fs1)
    ensures r != Err(Io) ==> SubtreeMoved(fs1, s'.fs, Phys(PathOf(src)), Phys(PathOf(dst)))
    ensures s'.trash == s.trash && s'.users == s.users && s'.nextId == s.nextId
  {
    var from, to := Phys(PathOf(src)), Phys(PathOf(dst));
    if CanMove(fs1, from, to) { MovedSubtree(fs1, from, to); }
  }

  lemma MovedSubtree(fs: Tree, from: string, to: string)
    requires WellFormed(fs) && CanMove(fs, from, to)
    ensures SubtreeMoved(fs, Moved(fs, from, to), from, to)
  {
    forall x ensures At(Moved(fs, from, to), x) ==
                     if Under(x, to) then At(fs, Rebase(x, to, from)) else if Under(x, from) then None else At(fs, x)
    {
      AtMoved(fs, from, to, x);
    }
  }

  // ---- delete of a directory -----------------------------------------------------------------------

  // A deleted directory is gone with everything below it, and so are its row and the rows below it; of the
  // others only those its pattern reaches, so none if the path has no wildcard.
  lemma DirectoryDeleted(s: State, s': State, username: string, p: string, now: int, r: Outcome, q: string, j: Key)
    requires Valid(s) && Reachable(s.users, username, p) && IsDir(s.fs, Phys(p))
    requires DeleteRequest(s, s', username, p, now, r) && r == Ok(())
    ensures Under(q, Phys(p)) ==> q !in s'.fs
    ensures j in s'.cloud ==> j in s.cloud && s'.cloud[j] == s.cloud[j]
    ensures j.user == KeyFor(p).user && (j == KeyFor(p) || Under(j.dir, p)) ==> j !in s'.cloud
    ensures j in s.cloud && j !in s'.cloud ==> j.user == KeyFor(p).user && (j == KeyFor(p) || Selects(p, j.dir))
    ensures WildcardFree(p) ==>
              (j in s'.cloud <==> j in s.cloud && !(j.user == KeyFor(p).user && (j == KeyFor(p) || Under(j.dir, p))))
  {
    var k := ReachableKey(s.users, username, p);
    var files, dirs :| Listing(s.fs, PathOf(k), files, dirs) && (s', r) == DeleteDirResult(s, k, now, files, dirs);
    WalkedAway(s, s', k, now, files, dirs, r, q);
    RowsUnindexed(s.cloud, k, p, j);
  }

  lemma WalkedAway(s: State, s': State, k: Key, now: int, files: seq<string>, dirs: seq<string>, r: Outcome, q: string)
    requires Valid(s) && InDomain(s.users, k) && Normal(PathOf(k)) && Listing(s.fs, PathOf(k), files, dirs)
    requires (s', r) == DeleteDirResult(s, k, now, files, dirs) && r == Ok(())
    ensures (Under(q, Phys(PathOf(k))) ==> q !in s'.fs) && s'.cloud == Unindexed(s.cloud, k)
  {
    FinishedWalk(s, k, now, files, dirs);
    DeleteIsWalk(s, k, now, files, dirs);
    WalkWorks(s, k, now, files, dirs, q);
  }

  lemma RowsUnindexed(cloud: Cloud, k: Key, p: string, j: Key)
    requires Normal(p) && p == PathOf(k)
    ensures var cloud' := Unindexed(cloud, k);
            && (j in cloud' ==> j in cloud && cloud'[j] == cloud[j])
            && (j.user == k.user && (j == k || Under(j.dir, p)) ==> j !in cloud')
            && (j in cloud && j !in cloud' ==> j.user == k.user && (j == k || Selects(p, j.dir)))
            && (WildcardFree(p) ==> (j in cloud' <==> j in cloud && !(j.user == k.user && (j == k || Under(j.dir, p)))))
  {
    NormalHasNoBackslash(p);
    if Above(p, j.dir) { DescendantsSelected(p, j.dir); }
    if WildcardFree(p) { LiteralSubtree(p, j.dir); }
  }

  // A delete of what is not there fails without effect, and so does one in the home of an unregistered user.
  lemma DeleteNothing(s: State, s': State, username: string, p: string, now: int, r: Outcome)
    requires Normal(p) && Authorise(username, p).Ok? && DeleteRequest(s, s', username, p, now, r)
    requires Authorise(username, p).value !in s.users || Phys(p) !in s.fs
    ensures s' == s && r == Err(if Authorise(username, p).value !in s.users then Database else Io)
  {
    var k := RoutedKey(p);
  }

  // ---- restore -------------------------------------------------------------------------------------

  // A restore of what is not in the trash is a bad request without effect.
  lemma RestoreNothing(s: State, s': State, username: string, from: string, to: string, r: Outcome)
    requires "/" <= from && Authorise(username, to).Ok? && RestoreRequest(s, s', username, from, to, r)
    requires username !in s.users || !Listed(s.trash, username, OriginalDir(from), FileName(from))
    ensures s' == s && r == Err(if username !in s.users then Database else BadRequest)
  {
  }

  // A row recorded at or below the root goes to the same place at or below the target, at any depth; a row
  // that only the pattern reached goes directly into it.
  lemma DestFollows(row: TrashRow, c: Target)
    requires c.root != "" && c.to != ""
    ensures Under(row.dir, c.root) && !("//" <= row.dir[|c.root|..]) && row.dir[|row.dir| - 1] != '/' ==>
              DestKey(row, c) == Key(c.toUser, Rebase(row.dir, c.root, c.to), row.name)
    ensures !(c.root <= row.dir) ==> DestKey(row, c) == Key(c.toUser, c.to, row.name)
  {
    if Under(row.dir, c.root) && !("//" <= row.dir[|c.root|..]) && row.dir[|row.dir| - 1] != '/' {
      assert c.root <= row.dir;
      var tail := row.dir[|c.root|..];
      if tail != "" {
        assert tail[0] == '/' && tail[|tail| - 1] != '/';
        assert tail[|"/"|..] == tail[1..];
        assert tail == "/" + tail[1..];
        assert !("/" <= tail[1..]);
        assert TrimStart(tail[1..], "/") == tail[1..];
        assert RelTail(row.dir, c.root) == tail[1..] != "";
        assert c.to + "/" + tail[1..] == c.to + tail;
      }
    }
  }

  // A row that comes back with Ok: a file's bytes are those of its blob, at its place, and the index has a
  // row of the recorded size there; a directory's place is a directory if nothing was in the way, and has
  // a row, which is left as it was if there was one.
  lemma RowRestored(s: State, s': State, row: TrashRow, c: Target)
    requires RestoreRow(s, row, c) == (s', Ok(())) && (row.isDir || row.blob.Some?)
    ensures var k := DestKey(row, c);
            && k in s'.cloud && s'.cloud == s.cloud[k := s'.cloud[k]]
            && (if row.isDir then
                  && s'.fs == TryCreateDir(s.fs, OpPath(PathOf(k)))
                  && (if k in s.cloud then s'.cloud[k] == s.cloud[k]
                      else s'.cloud[k].size == 0 && s'.cloud[k].mime == InodeDirectory)
                else
                  && IsFile(s.fs, BlobPath(c.user, row.blob.value))
                  && At(s'.fs, OpPath(PathOf(k))) == At(s.fs, BlobPath(c.user, row.blob.value))
                  && IndexView(s'.cloud, k) == Regular(row.size) && s'.cloud[k].mime == Guessed(row.name))
    ensures s'.trash == s.trash && s'.users == s.users
  {
  }

  // No later row goes to the same place.
  ghost predicate LastOfItsPlace(rows: seq<TrashRow>, c: Target, j: nat)
    requires j < |rows|
  {
    forall i {:trigger rows[i]} :: j < i < |rows| ==> DestKey(rows[i], c) != DestKey(rows[j], c)
  }

  // The index has a row at the place of a restored one, a file's with the recorded size.
  predicate IndexedAt(cloud: Cloud, k: Key, row: TrashRow) {
    k in cloud && (!row.isDir ==> IndexView(cloud, k) == Regular(row.size))
  }

  // Restoring rows of any depth indexes each of them at its place, files with the recorded size.
  lemma {:induction false} RowsIndexed(s: State, rows: seq<TrashRow>, c: Target, j: nat)
    requires RestoreRows(s, rows, c).1.Ok? && j < |rows| && LastOfItsPlace(rows, c, j)
    requires rows[j].isDir || rows[j].blob.Some?
    ensures IndexedAt(RestoreRows(s, rows, c).0.cloud, DestKey(rows[j], c), rows[j])
  {
    if j < |rows| - 1 {
      LastInPrefix(rows, c, j);
      FrontRestored(s, rows, c);
      RowsIndexed(s, rows[..|rows| - 1], c, j);
      EarlierStays(s, rows, c, rows[j]);
    } else {
      FinalIndexed(s, rows, c);
    }
  }

  lemma LastInPrefix(rows: seq<TrashRow>, c: Target, j: nat)
    requires j < |rows| - 1 && LastOfItsPlace(rows, c, j)
    ensures LastOfItsPlace(rows[..|rows| - 1], c, j) && rows[..|rows| - 1][j] == rows[j]
    ensures DestKey(rows[|rows| - 1], c) != DestKey(rows[j], c)
  {
    var front := rows[..|rows| - 1];
    forall i | j < i < |front| ensures DestKey(front[i], c) != DestKey(front[j], c) { assert front[i] == rows[i]; }
  }

  lemma FrontRestored(s: State, rows: seq<TrashRow>, c: Target)
    requires rows != [] && RestoreRows(s, rows, c).1.Ok?
    ensures RestoreRows(s, rows[..|rows| - 1], c).1.Ok?
  {
  }

  lemma EarlierStays(s: State, rows: seq<TrashRow>, c: Target, row: TrashRow)
    requires rows != [] && RestoreRows(s, rows[..|rows| - 1], c).1.Ok? && DestKey(row, c) != DestKey(rows[|rows| - 1], c)
    requires IndexedAt(RestoreRows(s, rows[..|rows| - 1], c).0.cloud, DestKey(row, c), row)
    ensures IndexedAt(RestoreRows(s, rows, c).0.cloud, DestKey(row, c), row)
  {
    RowLeavesOthers(RestoreRows(s, rows[..|rows| - 1], c).0, rows[|rows| - 1], c, DestKey(row, c));
  }

  lemma FinalIndexed(s: State, rows: seq<TrashRow>, c: Target)
    requires rows != [] && RestoreRows(s, rows, c).1.Ok?
    requires rows[|rows| - 1].isDir || rows[|rows| - 1].blob.Some?
    ensures IndexedAt(RestoreRows(s, rows, c).0.cloud, DestKey(rows[|rows| - 1], c), rows[|rows| - 1])
  {
    LastIndexed(RestoreRows(s, rows[..|rows| - 1], c).0, rows[|rows| - 1], c);
  }

  lemma LastIndexed(s: State, row: TrashRow, c: Target)
    requires RestoreRow(s, row, c).1.Ok? && (row.isDir || row.blob.Some?)
    ensures IndexedAt(RestoreRow(s, row, c).0.cloud, DestKey(row, c), row)
  {
    OnlyOk(RestoreRow(s, row, c).1);
    RowRestored(s, RestoreRow(s, row, c).0, row, c);
  }

  lemma RowLeavesOthers(s: State, row: TrashRow, c: Target, k: Key)
    requires k != DestKey(row, c)
    ensures SameRow(s.cloud, RestoreRow(s, row, c).0.cloud, k)
  {
    if !row.isDir && row.blob.Some? {
      var op := OpPath(PathOf(DestKey(row, c)));
      OpPathSlash(PathOf(DestKey(row, c)));
      FileLeavesOthers(s, row, c, k, op);
    }
  }

  predicate SameRow(cloud: Cloud, cloud': Cloud, k: Key) {
    (k in cloud' <==> k in cloud) && (k in cloud' ==> cloud'[k] == cloud[k])
  }

  lemma FileLeavesOthers(s: State, row: TrashRow, c: Target, k: Key, op: string)
    requires k != DestKey(row, c) && !row.isDir && row.blob.Some? && op == OpPath(PathOf(DestKey(row, c))) && '/' in op
    ensures SameRow(s.cloud, RestoreRow(s, row, c).0.cloud, k)
  {
    match Read(TryCreateDir(s.fs, OpParent(op)), BlobPath(c.user, row.blob.value))
    case Err(_) =>
    case Ok(data) => SaveLeavesOthers(s, DestKey(row, c), OpParent(op), op, data, row.size, k);
  }

  lemma SaveLeavesOthers(s: State, j: Key, opDir: string, op: string, data: Bytes, size: nat, k: Key)
    requires k != j
    ensures SameRow(s.cloud, SaveAt(s, j, opDir, op, data, size).0.cloud, k)
  {
  }

  // And no other row of the index changes, however far the loop gets.
  lemma {:induction false} OtherRowsStay(s: State, rows: seq<TrashRow>, c: Target, k: Key)
    requires forall row :: row in rows ==> k != DestKey(row, c)
    ensures SameRow(s.cloud, RestoreRows(s, rows, c).0.cloud, k)
  {
    if rows != [] {
      var n := |rows| - 1;
      OtherRowsStay(s, rows[..n], c, k);
      RowLeavesOthers(RestoreRows(s, rows[..n], c).0, rows[n], c, k);
    }
  }
}
