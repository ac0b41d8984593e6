/**
  Whole runs of the service: what every sequence of requests keeps.
 */
module StorageRuns {
  import opened Wrappers
  import opened VirtualPath
  import opened Like
  import opened FileTree
  import opened StorageState
  import opened StorageIndex
  import opened StorageRename
  import opened StorageTrash
  import opened StorageRestore
  import opened StorageRequests
  import opened SaveNames
  import opened StorageRoundTrip
  import opened TrashIntegrity
  import opened TrashPaths
  import opened TrashRoundTrip
  import opened HomeDeletion
  import opened HomeRestore
  import opened CrashSafety

  // Requests as the methods see them, paths normalised.
  datatype Request =
    | Mkdir(username: string, path: string)
    | Save(username: string, dir: string, name: string, data: Bytes)
    | Rename(username: string, from: string, to: string)
    | Delete(username: string, path: string, now: int)
    | Purge(cutoff: int)

  predicate FromTrash(p: string) { "/Trash" <= p }

  predicate InTrash(p: string) { p == "/Trash" || "/Trash/" <= p }

  // s' and r are a state and an answer the request can lead to.
  ghost predicate Serves(s: State, q: Request, s': State, r: Outcome) {
    match q
    case Mkdir(u, p) => (s', r) == MkdirRequest(s, u, p)
    case Save(u, d, n, data) => (s', r) == SaveRequest(s, u, d, n, data)
    case Rename(u, f, t) => "/" <= f && if FromTrash(f) then RestoreRequest(s, s', u, f, t, r) else MoveRequest(s, s', u, f, t, r)
    case Delete(u, p, now) => "/" <= p && if InTrash(p) then EraseRequest(s, s', u, p, r) else DeleteRequest(s, s', u, p, now, r)
    case Purge(cutoff) => PurgeStep(s, s', cutoff) && r == Ok(())
  }

  // Below the home of a registered user, .Trash included, or refused for its form.
  ghost predicate Reaches(users: set<string>, p: string) {
    Normal(p) && ("/User/" <= p && |Components(p)| >= 2 ==>
                    Components(p)[1] in users && Above(Home(Components(p)[1]), p))
  }

  // Below the home and outside .Trash.
  ghost predicate Placed(users: set<string>, p: string) {
    Normal(p) && ("/User/" <= p && |Components(p)| >= 2 ==> Components(p)[1] in users && Tracked(Components(p)[1], p))
  }

  // At or below the home of a registered user, or refused for its form.
  ghost predicate Homely(users: set<string>, p: string) {
    Normal(p) && ("/User/" <= p && |Components(p)| >= 2 ==> Components(p)[1] in users)
  }

  // And neither .Trash nor .Trash/blobs itself.
  ghost predicate Aimed(users: set<string>, p: string) {
    Homely(users, p) && ("/User/" <= p && |Components(p)| >= 2 ==> !TrashPlace(Components(p)[1], Phys(p)))
  }

  // A directory at or below the home of a registered user, and a name that does not make a file of .Trash.
  ghost predicate Saves(users: set<string>, owner: string, dir: string, name: string) {
    owner in users && NoTrashPlace(users, SaveObject(dir, name))
  }

  // A restore may also name a home itself.
  ghost predicate RestoreAimed(s: State, u: string, t: string) {
    Normal(t) &&
    (Authorise(u, t).Ok? ==>
       var owner := Authorise(u, t).value;
       owner in s.users && (t == Home(owner) || (Above(Home(owner), t) && !TrashPlace(owner, Phys(t)))))
  }

  // The requests the model speaks about.
  ghost predicate InScope(s: State, q: Request) {
    match q
    case Mkdir(_, p) => Homely(s.users, p)
    case Save(u, d, n, _) => Normal(d) && (Authorise(u, d).Ok? ==> Saves(s.users, Authorise(u, d).value, d, n))
    case Rename(u, f, t) => if FromTrash(f) then RestoreAimed(s, u, t) else Homely(s.users, f) && Aimed(s.users, t)
    case Delete(_, p, _) => InTrash(p) || Reaches(s.users, p)
    case Purge(_) => true
  }

  // No blob of a row is taken or given other bytes than its size says: what a caller can check beforehand.
  ghost predicate Harmless(s: State, q: Request) {
    match q
    case Mkdir(_, _) => true
    case Save(u, d, n, data) => Authorise(u, d).Ok? ==> SizesFit(s.trash, SaveObject(d, n), |data|)
    case Rename(u, f, t) =>
      if FromTrash(f) then "/" <= f && Authorise(u, t).Ok? ==> HarmlessRestore(s, u, f, t)
      else MoveOwner(u, f, t).Ok? && !HomeNamed(f, t) ==> MoveSpares(s, Phys(f), Phys(t))
    case Delete(u, p, _) => !InTrash(p) && Authorise(u, p).Ok? ==> HarmlessDelete(s, Authorise(u, p).value, p)
    case Purge(_) => true
  }

  // One end of the move is a home, and nothing moves.
  predicate HomeNamed(f: string, t: string) {
    |Components(f)| == 2 || |Components(t)| == 2
  }

  // Whichever item of that trash path is taken: the rows of a directory lead to no blob, and a file does
  // not change the size of one that stays.
  ghost predicate HarmlessRestore(s: State, u: string, f: string, t: string)
    requires "/" <= f && Authorise(u, t).Ok?
  {
    forall id {:trigger id in s.trash} :: id in s.trash && SameItem(s.trash[id], u, OriginalDir(f), FileName(f)) ==>
      if s.trash[id].isDir then Clear(s.trash, TargetOf(u, f, t))
      else SizesFit(OtherFiles(s.trash, s.trash[id]), Phys(t), s.trash[id].size)
  }

  // What a restored file leaves in the trash.
  function OtherFiles(trash: Trash, item: TrashRow): Trash {
    DropRows(trash, (t: TrashRow) => SameItem(t, item.user, item.dir, item.name) && !t.isDir)
  }

  // .Trash and .Trash/blobs are empty of files, a file is not a row's blob.
  ghost predicate HarmlessDelete(s: State, owner: string, p: string) {
    if IsDir(s.fs, Phys(p)) then HoldsBlobs(owner, p) ==> NothingToLose(s, owner, p)
    else IsFile(s.fs, Phys(p)) ==> !Owned(s.trash, Phys(p))
  }

  // A restore to a tracked path, or onto a home with no row that leads into .Trash.
  ghost predicate RestorePlaced(s: State, u: string, f: string, t: string) {
    Normal(t) &&
    ("/" <= f && Authorise(u, t).Ok? ==>
       var c := TargetOf(u, f, t);
       && c.toUser in s.users
       && (Tracked(c.toUser, t) || (t == Home(c.toUser) && AllLand(s.trash, c))))
  }

  ghost predicate AllLand(trash: Trash, c: Target) {
    forall i {:trigger i in trash} :: i in trash && Below(trash[i], c) ==> LandsTracked(c, trash[i])
  }

  lemma PlacedKey(users: set<string>, username: string, p: string) returns (k: Key)
    requires Placed(users, p) && Authorise(username, p).Ok?
    ensures "/User/" <= p && k == KeyFor(p) && PathOf(k) == p && InDomain(users, k) && Normal(k.dir)
    ensures |Components(p)| != 2 && k.user == Authorise(username, p).value
  {
    k := RoutedKey(p);
  }

  lemma ReachedKey(users: set<string>, username: string, p: string) returns (k: Key)
    requires Reaches(users, p) && Authorise(username, p).Ok?
    ensures "/User/" <= p && |Components(p)| >= 2 && k == KeyFor(p) && PathOf(k) == p && Registered(users, k) && '/' !in k.name
    ensures |Components(p)| != 2 && k.user == Authorise(username, p).value && Above(Home(k.user), p)
  {
    k := RoutedKey(p);
  }

  lemma ReachedMove(users: set<string>, u: string, f: string, t: string) returns (src: Key, dst: Key)
    requires Homely(users, f) && Aimed(users, t) && MoveOwner(u, f, t).Ok?
    ensures "/User/" <= f && |Components(f)| >= 2 && src == KeyFor(f) && PathOf(src) == f && src.user in users
    ensures "/User/" <= t && |Components(t)| >= 2 && dst == KeyFor(t) && PathOf(dst) == t && '/' !in dst.name
    ensures src.user == dst.user && Under(f, Home(src.user)) && Under(t, Home(dst.user))
    ensures t != Home(dst.user) ==> !TrashPlace(dst.user, Phys(t))
  {
    src := RoutedKey(f);
    dst := RoutedKey(t);
  }

  lemma PlacedMove(users: set<string>, u: string, f: string, t: string) returns (src: Key, dst: Key)
    requires Placed(users, f) && Placed(users, t) && MoveOwner(u, f, t).Ok?
    ensures "/User/" <= f && |Components(f)| >= 2 && src == KeyFor(f) && PathOf(src) == f && InDomain(users, src)
    ensures "/User/" <= t && |Components(t)| >= 2 && dst == KeyFor(t) && PathOf(dst) == t && InDomain(users, dst)
    ensures src.user == dst.user && Normal(dst.dir) && '\\' !in PathOf(src) && "/" <= t && dst.dir == Parent(t)
  {
    src := PlacedKey(users, u, f);
    dst := PlacedKey(users, u, t);
    NormalHasNoBackslash(f);
  }

  // ---- Validity and referential integrity on every run -----------------------------------------

  lemma TrackedStep(s: State, s': State, owner: string)
    requires Valid(s) && Integrity(s) && owner in s.users && OnlyTracked(s.fs, s'.fs, owner)
    requires Valid(s') && s'.users == s.users && s'.trash == s.trash
    ensures KeepsTrash(s, s', true)
  {
    TrackedChangesKeepBlobs(s, s', owner);
    IntegrityKept(s, s');
  }

  lemma MkdirKeepsTrash(s: State, k: Key)
    requires Valid(s) && Integrity(s) && InDomain(s.users, k)
    ensures KeepsTrash(s, MkdirResult(s, k).0, true)
  {
    if k !in s.cloud {
      MkdirValid(s, k);
      CreateDirOnlyTracked(s, k.user, PathOf(k));
      TrackedStep(s, MkdirResult(s, k).0, k.user);
    }
  }

  lemma SaveKeepsTrash(s: State, owner: string, dir: string, name: string, data: Bytes)
    requires Valid(s) && Integrity(s) && SavePlace(s.users, owner, dir, name) && "/User/" <= dir
    ensures KeepsTrash(s, SaveNamed(s, owner, dir, name, data).0, true)
  {
    SaveNamedFrame(s, owner, dir, name, data);
    TrackedStep(s, SaveNamed(s, owner, dir, name, data).0, owner);
  }

  lemma MoveKeepsTrash(s: State, s': State, src: Key, dst: Key, r: Outcome)
    requires Valid(s) && Integrity(s) && InDomain(s.users, src) && InDomain(s.users, dst) && src.user == dst.user
    requires MoveStep(s, s', src, dst, r)
    ensures KeepsTrash(s, s', true)
  {
    MoveValid(s, s', src, dst, r);
    TrackedStep(s, s', dst.user);
  }

  lemma DeleteDirKeepsTrash(s: State, s': State, k: Key, now: int, r: Outcome)
    requires Valid(s) && Integrity(s) && Registered(s.users, k) && Normal(PathOf(k)) && Above(Home(k.user), PathOf(k))
    requires IsDir(s.fs, Phys(PathOf(k))) && HarmlessDelete(s, k.user, PathOf(k)) && DeleteDirStep(s, s', k, now, r)
    ensures KeepsTrash(s, s', true)
  {
    HomeBelow(k.user, PathOf(k));
    if HoldsBlobs(k.user, PathOf(k)) {
      DeleteSpared(s, s', k, now, r);
    } else {
      var files, dirs :| Listing(s.fs, PathOf(k), files, dirs) && (s', r) == DeleteDirResult(s, k, now, files, dirs);
      DeleteDirIntegrity(s, k, now, files, dirs);
    }
  }

  // Blobs of backed rows and rows of the trash go; the state stays valid, the agreement as it was.
  lemma RowsAndBlobsGone(s: State, s': State, rows: seq<TrashRow>)
    requires Valid(s) && (forall r :: r in rows && !r.isDir ==> r.user in s.users)
    requires s' == s.(fs := DeleteBlobs(s.fs, rows), trash := s'.trash)
    requires forall i {:trigger i in s'.trash} :: i in s'.trash ==> i in s.trash && s'.trash[i] == s.trash[i]
    ensures Valid(s') && (Agree(s') <==> Agree(s)) && (Rooted(s.trash) ==> Rooted(s'.trash))
  {
    BlobsGone(s, rows);
    TrashShrinks(s.(fs := DeleteBlobs(s.fs, rows)), s');
  }

  lemma RowsAreBacked(s: State, where: TrashRow -> bool, rows: seq<TrashRow>, ids: seq<nat>)
    requires Integrity(s) && QueryRows(s.trash, where, rows, ids)
    ensures forall r :: r in rows && !r.isDir ==> r.user in s.users
  {
    forall r | r in rows && !r.isDir ensures r.user in s.users {
      var j :| 0 <= j < |rows| && rows[j] == r;
      assert Backed(s, s.trash[ids[j]]);
    }
  }

  lemma ErasedKeeps(s: State, s': State, id: nat, base: string)
    requires Valid(s) && Integrity(s) && id in s.trash && Erased(s, s', s.trash[id], base)
    ensures KeepsTrash(s, s', s.trash[id].isDir || OnlyFileOfItsPath(s.trash, id))
    ensures Agree(s') <==> Agree(s)
  {
    var item := s.trash[id];
    var rows, ids :| FilesBelow(s.trash, item.user, base, rows, ids) && s' == ErasedItem(s, item, base, rows);
    if item.isDir {
      DirEraseIntegrity(s, item, base, rows, ids);
      RowsAreBacked(s, (t: TrashRow) => !t.isDir && InTrashTree(t, item.user, base), rows, ids);
      RowsAndBlobsGone(s, s', rows);
    } else {
      FileEraseIntegrity(s, id, base, rows);
      assert Backed(s, item);
      RowsAndBlobsGone(s, s', [item]);
    }
  }

  lemma PurgedKeeps(s: State, s': State, cutoff: int)
    requires Valid(s) && Integrity(s) && PurgeStep(s, s', cutoff)
    ensures KeepsTrash(s, s', true)
    ensures Agree(s') <==> Agree(s)
  {
    var rows, ids :| ExpiredRows(s.trash, cutoff, rows, ids) && s' == Purged(s, cutoff, rows);
    PurgeIntegrity(s, cutoff, rows, ids);
    RowsAreBacked(s, (t: TrashRow) => t.deletedAt < cutoff, rows, ids);
    RowsAndBlobsGone(s, s', rows);
  }

  lemma RestoreFileKeepsTrash(s: State, id: nat, dst: Key)
    requires Valid(s) && Integrity(s) && InDomain(s.users, dst) && id in s.trash && !s.trash[id].isDir
    ensures KeepsTrash(s, RestoreFileResult(s, s.trash[id], dst).0, OnlyFileOfItsPath(s.trash, id))
  {
    var row := s.trash[id];
    RestoreFileIntegrity(s, id, dst);
    assert Backed(s, row);
    var data := s.fs[BlobPath(row.user, row.blob.value)].data;
    SaveAtFrame(s, dst, dst.dir, dst.name, data, |data|);
    AfterTheSave(s, row, dst, data, SaveResult(s, dst, data).0);
  }

  // A file cannot be restored onto a home; the attempt only makes a directory.
  lemma RestoreOntoHomeKeepsTrash(s: State, id: nat, owner: string)
    requires Valid(s) && Integrity(s) && owner in s.users && id in s.trash && !s.trash[id].isDir
    ensures KeepsTrash(s, RestoreFileResult(s, s.trash[id], Key(owner, "/User", owner)).0, true)
  {
    assert Backed(s, s.trash[id]);
    OpenStray(s, owner);
    RestoreOntoHome(s, s.trash[id], owner);
    TrackedStep(s, RestoreFileResult(s, s.trash[id], Key(owner, "/User", owner)).0, owner);
  }

  lemma RestoreDirKeepsTrash(s: State, s': State, dir: string, name: string, c: Target, r: Outcome)
    requires Valid(s) && Integrity(s) && AnyTarget(s, c) && "/" <= c.to && AllLand(s.trash, c)
    requires RestoreDirStep(s, s', dir, name, c, r)
    ensures KeepsTrash(s, s', true)
  {
    var rows, ids :| RowsBelow(s.trash, c, rows, ids) && (s', r) == RestoreDirResult(s, dir, name, c, rows);
    QueriedLand(s, c, rows, ids);
    RestoreDirIntegrity(s, dir, name, c, rows, ids);
    RestoreDirValid(s, dir, name, c, rows, ids);
  }

  lemma QueriedLand(s: State, c: Target, rows: seq<TrashRow>, ids: seq<nat>)
    requires AllLand(s.trash, c) && RowsBelow(s.trash, c, rows, ids)
    ensures RowsLand(c, rows)
  {
    forall r | r in rows ensures LandsTracked(c, r) {
      var j :| 0 <= j < |rows| && rows[j] == r;
      assert ids[j] in s.trash;
    }
  }

  lemma RestoreDirValid(s: State, dir: string, name: string, c: Target, rows: seq<TrashRow>, ids: seq<nat>)
    requires Valid(s) && Integrity(s) && AnyTarget(s, c) && "/" <= c.to && RowsBelow(s.trash, c, rows, ids)
    requires RowsLand(c, rows)
    ensures var s' := RestoreDirResult(s, dir, name, c, rows).0;
            Valid(s') && s'.users == s.users && (Rooted(s.trash) ==> Rooted(s'.trash))
  {
    RowsAreBacked(s, (t: TrashRow) => Below(t, c), rows, ids);
    var s0, s1 := RowsRestoredKeep(s, c, rows);
    if RestoreRows(s0, rows, c).1.Ok? { RowsAndBlobsGone(s1, RestoreDirResult(s, dir, name, c, rows).0, rows); }
  }

  // The file items a restore may pick are the only files of their trash path.
  ghost predicate SoleFiles(trash: Trash, user: string, dir: string, name: string) {
    forall id {:trigger id in trash} :: id in trash && SameItem(trash[id], user, dir, name) && !trash[id].isDir ==>
      OnlyFileOfItsPath(trash, id)
  }

  // Outside .Trash, and no restore picks a file that shares its trash path.
  ghost predicate LeavesNoOrphan(s: State, q: Request) {
    match q
    case Mkdir(_, p) => Placed(s.users, p)
    case Save(u, d, n, _) => Authorise(u, d).Ok? ==> SavePlace(s.users, Authorise(u, d).value, d, n)
    case Rename(u, f, t) =>
      if FromTrash(f) then
        "/" <= f && RestorePlaced(s, u, f, t) && SoleFiles(s.trash, u, OriginalDir(f), FileName(f))
      else Placed(s.users, f) && Placed(s.users, t)
    case Delete(_, _, _) => true
    case Purge(_) => true
  }

  lemma HomeKeyFor(p: string, user: string)
    requires p == Home(user) && '/' !in user
    ensures "/" <= p && Parent(p) == "/User" && FileName(p) == user
  {
    assert Home(user) == Child("/User", user);
    SplitLast("/User", user);
  }

  lemma PlacedTarget(s: State, u: string, f: string, t: string) returns (c: Target, k: Key)
    requires Valid(s) && RestorePlaced(s, u, f, t) && "/" <= f && Authorise(u, t).Ok? && u in s.users
    ensures "/User/" <= t && |Components(t)| >= 2 && c == TargetOf(u, f, t) && k == KeyFor(t)
    ensures AnyTarget(s, c) && AllLand(s.trash, c) && c.user == u
    ensures InDomain(s.users, k) || k == Key(c.toUser, "/User", c.toUser)
  {
    c := TargetOf(u, f, t);
    k := RoutedKey(t);
    if Tracked(c.toUser, t) {
      forall i | i in s.trash ensures LandsTracked(c, s.trash[i]) { SaneLands(s, c, s.trash[i]); }
    } else {
      assert ValidName(c.toUser);
      HomeKeyFor(t, c.toUser);
    }
  }

  lemma RestoreKeepsTrash(s: State, s': State, u: string, f: string, t: string, r: Outcome)
    requires Valid(s) && Integrity(s) && RestorePlaced(s, u, f, t) && "/" <= f && RestoreRequest(s, s', u, f, t, r)
    ensures KeepsTrash(s, s', SoleFiles(s.trash, u, OriginalDir(f), FileName(f)))
  {
    if Authorise(u, t).Ok? && s' != s {
      var c, k := PlacedTarget(s, u, f, t);
      var dir, name := OriginalDir(f), FileName(f);
      var id :| id in s.trash && SameItem(s.trash[id], u, dir, name)
                && if s.trash[id].isDir then RestoreDirStep(s, s', dir, name, c, r)
                   else (s', r) == RestoreFileResult(s, s.trash[id], k);
      if s.trash[id].isDir {
        RestoreDirKeepsTrash(s, s', dir, name, c, r);
      } else if InDomain(s.users, k) {
        RestoreFileKeepsTrash(s, id, k);
      } else {
        RestoreOntoHomeKeepsTrash(s, id, c.toUser);
      }
    }
  }

  // An erase request drops a directory with all rows and blobs below it, or does nothing.
  lemma EraseKeepsTrash(s: State, s': State, u: string, p: string, r: Outcome)
    requires Valid(s) && Integrity(s) && Rooted(s.trash) && "/" <= p && EraseRequest(s, s', u, p, r)
    ensures KeepsTrash(s, s', true)
    ensures Agree(s') <==> Agree(s)
  {
    if s' != s {
      var id :| id in s.trash && SameItem(s.trash[id], u, EraseDir(p), FileName(p)) && Erased(s, s', s.trash[id], EraseBase(p));
      EraseFindsNoFile(s, u, p, id);
      ErasedKeeps(s, s', id, EraseBase(p));
    }
  }

  lemma MoveRequestKeepsTrash(s: State, s': State, u: string, f: string, t: string, r: Outcome)
    requires Valid(s) && Integrity(s) && Placed(s.users, f) && Placed(s.users, t) && MoveRequest(s, s', u, f, t, r)
    ensures KeepsTrash(s, s', true)
  {
    if MoveOwner(u, f, t).Ok? {
      var src, dst := PlacedMove(s.users, u, f, t);
      MoveKeepsTrash(s, s', src, dst, r);
    }
  }

  lemma DeleteRequestKeepsTrash(s: State, s': State, u: string, p: string, now: int, r: Outcome)
    requires Valid(s) && Integrity(s) && Reaches(s.users, p) && DeleteRequest(s, s', u, p, now, r)
    requires Authorise(u, p).Ok? ==> HarmlessDelete(s, Authorise(u, p).value, p)
    ensures KeepsTrash(s, s', true)
  {
    if Authorise(u, p).Ok? {
      var k := ReachedKey(s.users, u, p);
      if IsDir(s.fs, Phys(p)) { DeleteDirKeepsTrash(s, s', k, now, r); } else { DeleteFileIntegrity(s, k, now); }
    }
  }

  // ---- Requests that may reach into .Trash ----------------------------------------------------------

  lemma SaveReaches(s: State, owner: string, dir: string, name: string, data: Bytes)
    requires Valid(s) && Integrity(s) && Saves(s.users, owner, dir, name) && Normal(dir) && "/User/" <= dir
    requires SizesFit(s.trash, SaveObject(dir, name), |data|)
    ensures var s' := SaveNamed(s, owner, dir, name, data).0; Unguessed(s') ==> KeepsTrash(s, s', false)
  {
    SaveIntegrity(s, owner, dir, name, data);
    SaveValidAnywhere(s, owner, dir, name, data);
  }

  lemma MoveReaches(s: State, s': State, u: string, f: string, t: string, r: Outcome)
    requires Valid(s) && Integrity(s) && Homely(s.users, f) && Aimed(s.users, t) && MoveRequest(s, s', u, f, t, r)
    requires MoveOwner(u, f, t).Ok? && !HomeNamed(f, t) ==> MoveSpares(s, Phys(f), Phys(t))
    ensures Unguessed(s') ==> KeepsTrash(s, s', false)
  {
    if MoveOwner(u, f, t).Ok? {
      var src, dst := ReachedMove(s.users, u, f, t);
      HomePaths(f, src);
      HomePaths(t, dst);
      if HomeNamed(f, t) { HomeNotMoved(s, src, dst); }
      MoveIntegrity(s, s', src, dst, r);
      MoveValidAnywhere(s, s', src, dst, r);
    }
  }

  lemma HomePaths(p: string, k: Key)
    requires Normal(p) && "/User/" <= p && |Components(p)| >= 2 && k == KeyFor(p)
    ensures |Components(p)| == 2 <==> p == Home(k.user)
  {
    var j := RoutedKey(p);
  }

  lemma HomeNotMoved(s: State, src: Key, dst: Key)
    requires Valid(s) && src.user in s.users && src.user == dst.user
    requires Under(PathOf(src), Home(src.user)) && Under(PathOf(dst), Home(src.user))
    requires PathOf(src) == Home(src.user) || PathOf(dst) == Home(src.user)
    ensures !Moves(s.fs, src, dst)
  {
    var fs1, from, to := TryCreateDir(s.fs, Phys(dst.dir)), Phys(PathOf(src)), Phys(PathOf(dst));
    PhysUnder(PathOf(src), Home(src.user));
    PhysUnder(PathOf(dst), Home(src.user));
    assert IsDir(s.fs, Phys(Home(src.user)));
    DirectoryStays(s.fs, Phys(Home(src.user)), Phys(dst.dir));
    if PathOf(dst) == Home(src.user) && from in fs1 && from != to { assert from in Subtree(fs1, to); }
  }

  lemma RestoreFileReaches(s: State, id: nat, k: Key)
    requires Valid(s) && Integrity(s) && id in s.trash && !s.trash[id].isDir && k.user in s.users && '/' !in k.name
    requires Above(Home(k.user), PathOf(k)) && !TrashPlace(k.user, Phys(PathOf(k)))
    requires SizesFit(OtherFiles(s.trash, s.trash[id]), Phys(PathOf(k)), s.trash[id].size)
    ensures var s' := RestoreFileResult(s, s.trash[id], k).0; Unguessed(s') ==> KeepsTrash(s, s', false)
  {
    RestoreFileAnywhere(s, id, k);
    RestoreFileValid(s, id, k);
    RestoredFileTrash(s, s.trash[id], k);
  }

  lemma RestoredFileTrash(s: State, item: TrashRow, k: Key)
    ensures var (s', r) := RestoreFileResult(s, item, k);
            s'.trash == if r.Ok? then OtherFiles(s.trash, item) else s.trash
  {
  }

  lemma RestoreDirReaches(s: State, s': State, dir: string, name: string, c: Target, r: Outcome)
    requires Valid(s) && Integrity(s) && HomeTarget(s, c) && "/" <= c.to && Clear(s.trash, c)
    requires RestoreDirStep(s, s', dir, name, c, r)
    ensures Unguessed(s') ==> KeepsTrash(s, s', false)
  {
    var rows, ids :| RowsBelow(s.trash, c, rows, ids) && (s', r) == RestoreDirResult(s, dir, name, c, rows);
    ClearRestoreKeeps(s, dir, name, c, rows, ids);
  }

  lemma AimedTarget(s: State, u: string, f: string, t: string) returns (c: Target, k: Key)
    requires Valid(s) && RestoreAimed(s, u, t) && "/" <= f && Authorise(u, t).Ok?
    ensures "/User/" <= t && |Components(t)| >= 2 && c == TargetOf(u, f, t) && k == KeyFor(t) && HomeTarget(s, c)
    ensures k.user in s.users && '/' !in k.name && PathOf(k) == t && c.user == u && c.toUser == k.user
    ensures t == Home(k.user) ==> k == Key(k.user, "/User", k.user)
    ensures t != Home(k.user) ==> Above(Home(k.user), t) && !TrashPlace(k.user, Phys(t))
  {
    c := TargetOf(u, f, t);
    k := RoutedKey(t);
    if t == Home(k.user) { HomeKeyFor(t, k.user); }
  }

  lemma RestoreReaches(s: State, s': State, u: string, f: string, t: string, r: Outcome)
    requires Valid(s) && Integrity(s) && RestoreAimed(s, u, t) && "/" <= f && RestoreRequest(s, s', u, f, t, r)
    requires Authorise(u, t).Ok? ==> HarmlessRestore(s, u, f, t)
    ensures Unguessed(s') ==> KeepsTrash(s, s', false)
  {
    if Authorise(u, t).Ok? && s' != s {
      var c, k := AimedTarget(s, u, f, t);
      var dir, name := OriginalDir(f), FileName(f);
      var id :| id in s.trash && SameItem(s.trash[id], u, dir, name)
                && if s.trash[id].isDir then RestoreDirStep(s, s', dir, name, c, r)
                   else (s', r) == RestoreFileResult(s, s.trash[id], k);
      if s.trash[id].isDir {
        RestoreDirReaches(s, s', dir, name, c, r);
      } else if t != Home(k.user) {
        RestoreFileReaches(s, id, k);
      } else {
        RestoreOntoHomeKeepsTrash(s, id, k.user);
      }
    }
  }

  // One request keeps the trash whole, whatever its answer, unless it takes or overwrites a row's blob;
  // and outside .Trash it orphans none.
  lemma StepIntegrity(s: State, q: Request, s': State, r: Outcome)
    requires Valid(s) && Integrity(s) && Rooted(s.trash) && InScope(s, q) && Harmless(s, q) && Serves(s, q, s', r)
    requires Unguessed(s')
    ensures KeepsTrash(s, s', LeavesNoOrphan(s, q))
  {
    match q {
      case Mkdir(u, p) => MkdirStep(s, s', u, p, r);
      case Save(u, d, n, data) => SaveStep(s, u, d, n, data);
      case Rename(u, f, t) =>
        if FromTrash(f) { RestoreStepKeeps(s, s', u, f, t, r); } else { MoveStepKeeps(s, s', u, f, t, r); }
      case Delete(u, p, now) =>
        if InTrash(p) { EraseKeepsTrash(s, s', u, p, r); } else { DeleteRequestKeepsTrash(s, s', u, p, now, r); }
      case Purge(cutoff) => PurgedKeeps(s, s', cutoff);
    }
  }

  lemma MkdirStep(s: State, s': State, u: string, p: string, r: Outcome)
    requires Valid(s) && Integrity(s) && Homely(s.users, p) && (s', r) == MkdirRequest(s, u, p) && Unguessed(s')
    ensures KeepsTrash(s, s', Placed(s.users, p))
  {
    if Authorise(u, p).Ok? {
      if Placed(s.users, p) {
        var k := PlacedKey(s.users, u, p);
        MkdirKeepsTrash(s, k);
      } else {
        MkdirIntegrity(s, KeyFor(p));
      }
    }
  }

  lemma SaveStep(s: State, u: string, d: string, n: string, data: Bytes)
    requires Valid(s) && Integrity(s) && InScope(s, Save(u, d, n, data)) && Harmless(s, Save(u, d, n, data))
    requires Unguessed(SaveRequest(s, u, d, n, data).0)
    ensures KeepsTrash(s, SaveRequest(s, u, d, n, data).0, LeavesNoOrphan(s, Save(u, d, n, data)))
  {
    if Authorise(u, d).Ok? {
      if SavePlace(s.users, Authorise(u, d).value, d, n) {
        SaveKeepsTrash(s, Authorise(u, d).value, d, n, data);
      } else {
        SaveReaches(s, Authorise(u, d).value, d, n, data);
      }
    }
  }

  lemma MoveStepKeeps(s: State, s': State, u: string, f: string, t: string, r: Outcome)
    requires Valid(s) && Integrity(s) && !FromTrash(f) && InScope(s, Rename(u, f, t)) && Harmless(s, Rename(u, f, t))
    requires MoveRequest(s, s', u, f, t, r) && Unguessed(s')
    ensures KeepsTrash(s, s', LeavesNoOrphan(s, Rename(u, f, t)))
  {
    if Placed(s.users, f) && Placed(s.users, t) {
      MoveRequestKeepsTrash(s, s', u, f, t, r);
    } else {
      MoveReaches(s, s', u, f, t, r);
    }
  }

  lemma RestoreStepKeeps(s: State, s': State, u: string, f: string, t: string, r: Outcome)
    requires Valid(s) && Integrity(s) && FromTrash(f) && "/" <= f && InScope(s, Rename(u, f, t)) && Harmless(s, Rename(u, f, t))
    requires RestoreRequest(s, s', u, f, t, r) && Unguessed(s')
    ensures KeepsTrash(s, s', LeavesNoOrphan(s, Rename(u, f, t)))
  {
    if RestorePlaced(s, u, f, t) {
      RestoreKeepsTrash(s, s', u, f, t, r);
    } else {
      RestoreReaches(s, s', u, f, t, r);
    }
  }

  // ---- Outside .Trash nothing harms -------------------------------------------------------------------

  ghost predicate OutsideTrash(s: State, q: Request) {
    match q
    case Mkdir(_, p) => Placed(s.users, p)
    case Save(u, d, n, _) => Authorise(u, d).Ok? ==> SavePlace(s.users, Authorise(u, d).value, d, n)
    case Rename(u, f, t) => if FromTrash(f) then Placed(s.users, t) else Placed(s.users, f) && Placed(s.users, t)
    case Delete(_, p, _) => InTrash(p) || Placed(s.users, p)
    case Purge(_) => true
  }

  lemma TrackedUnowned(s: State, user: string, p: string)
    requires Valid(s) && Integrity(s) && ValidName(user) && Tracked(user, p)
    ensures forall q {:trigger Owned(s.trash, q)} :: Owned(s.trash, q) ==> !Under(q, Phys(p))
  {
    forall q | Owned(s.trash, q) ensures !Under(q, Phys(p)) {
      var u, h := BlobOwner(s, q);
      BlobApartFromTracked(u, h, user, p);
    }
  }

  lemma UnownedFits(trash: Trash, q: string, size: nat)
    requires !Owned(trash, q)
    ensures SizesFit(trash, q, size)
  {
  }

  lemma FewerOwned(trash: Trash, fewer: Trash, q: string)
    requires !Owned(trash, q) && forall i {:trigger i in fewer} :: i in fewer ==> i in trash && fewer[i] == trash[i]
    ensures !Owned(fewer, q)
  {
  }

  lemma HomeUnowned(s: State, user: string)
    requires Valid(s) && Integrity(s) && user in s.users
    ensures !Owned(s.trash, Phys(Home(user)))
  {
    assert IsDir(s.fs, Phys(Home(user)));
    if Owned(s.trash, Phys(Home(user))) {
      var u, h := BlobOwner(s, Phys(Home(user)));
    }
  }

  lemma SaveHarmless(s: State, owner: string, d: string, n: string, size: nat)
    requires Valid(s) && Integrity(s) && SavePlace(s.users, owner, d, n) && "/User/" <= d
    ensures SizesFit(s.trash, SaveObject(d, n), size)
  {
    assert ValidName(owner);
    JoinedForm(d, n);
    JoinedPath(d, n);
    Regroup(VOLUME, d, Slashed(Pieces(n)));
    assert SaveObject(d, n) == Phys(Spot(d, n));
    if Pieces(n) != [] {
      TrackedUnowned(s, owner, Spot(d, n));
    } else {
      assert Spot(d, n) == d;
      if d == Home(owner) { HomeUnowned(s, owner); } else { TrackedUnowned(s, owner, d); }
    }
    assert !Owned(s.trash, SaveObject(d, n));
    UnownedFits(s.trash, SaveObject(d, n), size);
  }

  lemma TrackedClear(s: State, c: Target)
    requires Valid(s) && Integrity(s) && SaneTarget(s, c)
    ensures Clear(s.trash, c)
  {
    forall i | i in s.trash && Below(s.trash[i], c)
      ensures !Owned(s.trash, DestObject(s.trash[i], c)) && !TrashPlace(c.toUser, DestObject(s.trash[i], c))
    {
      SaneLands(s, c, s.trash[i]);
      var q := DestTracked(s, s.trash[i], c);
      assert ValidName(c.toUser);
      TrackedUnowned(s, c.toUser, PathOf(q));
      SystemObjectsDistinct(c.toUser, PathOf(q), c.toUser, 0);
    }
  }

  lemma RestoreHarmless(s: State, u: string, f: string, t: string)
    requires Valid(s) && Integrity(s) && Placed(s.users, t) && "/" <= f && Authorise(u, t).Ok?
    ensures HarmlessRestore(s, u, f, t)
  {
    var k := PlacedKey(s.users, u, t);
    assert ValidName(k.user);
    TrackedUnowned(s, k.user, t);
    forall id | id in s.trash && SameItem(s.trash[id], u, OriginalDir(f), FileName(f))
      ensures if s.trash[id].isDir then Clear(s.trash, TargetOf(u, f, t))
              else SizesFit(OtherFiles(s.trash, s.trash[id]), Phys(t), s.trash[id].size)
    {
      if s.trash[id].isDir {
        ClearUnlessUnknown(s, u, f, t, k);
      } else {
        FewerOwned(s.trash, OtherFiles(s.trash, s.trash[id]), Phys(t));
        UnownedFits(OtherFiles(s.trash, s.trash[id]), Phys(t), s.trash[id].size);
      }
    }
  }

  // Of a user that is not registered no file is in the trash.
  lemma ClearUnlessUnknown(s: State, u: string, f: string, t: string, k: Key)
    requires Valid(s) && Integrity(s) && "/" <= f && "/User/" <= t && |Components(t)| >= 2 && k == KeyFor(t)
    requires k.user in s.users && Tracked(k.user, t) && Normal(t)
    ensures Clear(s.trash, TargetOf(u, f, t))
  {
    var c := TargetOf(u, f, t);
    if u in s.users {
      TrackedClear(s, c);
    } else {
      forall i | i in s.trash && !s.trash[i].isDir ensures s.trash[i].user in s.users { assert Backed(s, s.trash[i]); }
    }
  }

  lemma MoveHarmless(s: State, u: string, f: string, t: string)
    requires Valid(s) && Integrity(s) && Placed(s.users, f) && Placed(s.users, t) && MoveOwner(u, f, t).Ok?
    ensures MoveSpares(s, Phys(f), Phys(t))
  {
    var src, dst := PlacedMove(s.users, u, f, t);
    assert ValidName(src.user);
    TrackedUnowned(s, src.user, f);
    TrackedUnowned(s, dst.user, t);
    UnownedFits(s.trash, Phys(t), SizeOf(s.fs, Phys(f)));
  }

  lemma DeleteHarmless(s: State, u: string, p: string)
    requires Valid(s) && Integrity(s) && Placed(s.users, p) && Authorise(u, p).Ok?
    ensures HarmlessDelete(s, Authorise(u, p).value, p)
  {
    var k := PlacedKey(s.users, u, p);
    assert ValidName(k.user);
    TrackedUnowned(s, k.user, p);
    if HoldsBlobs(k.user, p) {
      assert Under(TrashRoot(k.user) + "/blobs", TrashRoot(k.user));
      TrackedBelow(k.user, p, TrashRoot(k.user) + "/blobs");
    }
  }

  // Requests outside .Trash take or overwrite no blob, whatever they say.
  lemma OutsideTrashHarmless(s: State, q: Request)
    requires Valid(s) && Integrity(s) && OutsideTrash(s, q)
    ensures Harmless(s, q)
  {
    match q {
      case Mkdir(_, _) =>
      case Save(u, d, n, data) => if Authorise(u, d).Ok? { SaveHarmless(s, Authorise(u, d).value, d, n, |data|); }
      case Rename(u, f, t) =>
        if FromTrash(f) {
          if "/" <= f && Authorise(u, t).Ok? { RestoreHarmless(s, u, f, t); }
        } else if MoveOwner(u, f, t).Ok? {
          MoveHarmless(s, u, f, t);
        }
      case Delete(u, p, _) => if !InTrash(p) && Authorise(u, p).Ok? { DeleteHarmless(s, u, p); }
      case Purge(_) =>
    }
  }

  // ---- Agreement ------------------------------------------------------------------------------------

  // What a caller can check beforehand: the paths lie outside .Trash, parents exist, targets of moves are
  // free, no LIKE pattern of a moved or deleted path selects a row that lies elsewhere, saved names are
  // single components, the files of a deleted directory are found, or not a single one is, and the rows of
  // a restored one are free to go directly below an indexed target.
  ghost predicate Tidy(s: State, q: Request) {
    match q
    case Mkdir(u, p) => Placed(s.users, p) && (Authorise(u, p).Ok? ==> Phys(p) in s.fs || ParentThere(s.fs, p))
    case Save(u, d, n, _) =>
      IsDir(s.fs, Phys(d)) && PlainName(n) && (Authorise(u, d).Ok? ==> SavePlace(s.users, Authorise(u, d).value, d, n))
    case Rename(u, f, t) =>
      if FromTrash(f) then
        Authorise(u, t).Ok? ==> Placed(s.users, t) && ParentThere(s.fs, t) && "/" <= f && TidyItems(s, u, f, t)
      else
        Placed(s.users, f) && Placed(s.users, t) &&
        (MoveOwner(u, f, t).Ok? ==>
           ParentThere(s.fs, t) && (Phys(f) in s.fs ==> Phys(t) !in s.fs && Faithful(s.cloud, KeyFor(f), KeyFor(t))))
    case Delete(u, p, _) =>
      InTrash(p) ||
      (Placed(s.users, p) &&
       (Authorise(u, p).Ok? && IsDir(s.fs, Phys(p)) ==>
          (NoStrays(s.users, s.cloud, KeyFor(p)) && AllFound(s.fs, KeyFor(p))) || NoneFound(s.fs, KeyFor(p))))
    case Purge(_) => true
  }

  // Every file of the directory is found where its name leads, and no two at one place.
  ghost predicate AllFound(fs: Tree, k: Key) {
    && (forall n {:trigger HasFile(fs, PathOf(k), n)} :: HasFile(fs, PathOf(k), n) ==> IsFile(fs, Phys(Addressed(k, n))))
    && (forall m, n {:trigger HasFile(fs, PathOf(k), m), HasFile(fs, PathOf(k), n)} ::
          HasFile(fs, PathOf(k), m) && HasFile(fs, PathOf(k), n) && Addressed(k, m) == Addressed(k, n) ==> m == n)
  }

  // There are files, and none is.
  ghost predicate NoneFound(fs: Tree, k: Key) {
    && (exists n {:trigger HasFile(fs, PathOf(k), n)} :: HasFile(fs, PathOf(k), n))
    && (forall n {:trigger HasFile(fs, PathOf(k), n)} :: HasFile(fs, PathOf(k), n) ==> !IsFile(fs, Phys(Addressed(k, n))))
  }

  // The items of that trash path are files, or directories whose rows are free to come back.
  ghost predicate TidyItems(s: State, u: string, f: string, t: string)
    requires "/" <= f && Authorise(u, t).Ok?
  {
    forall id {:trigger id in s.trash} ::
      id in s.trash && SameItem(s.trash[id], u, OriginalDir(f), FileName(f)) && s.trash[id].isDir ==>
        FreeRows(s, TargetOf(u, f, t)) && (IsDir(s.fs, Phys(t)) || NoRowsBelow(s.trash, TargetOf(u, f, t)))
  }

  ghost predicate FreeRows(s: State, c: Target) {
    && SaneTarget(s, c) && !IsFile(s.fs, Phys(c.to))
    && (forall i {:trigger s.trash[i]} :: i in s.trash && Below(s.trash[i], c) ==> FreeRow(s, c, s.trash[i]))
    && (forall i, j {:trigger s.trash[i], s.trash[j]} ::
          i in s.trash && j in s.trash && Below(s.trash[i], c) && Below(s.trash[j], c) && s.trash[i].name == s.trash[j].name ==> i == j)
  }

  ghost predicate NoRowsBelow(trash: Trash, c: Target) {
    forall i {:trigger trash[i]} :: i in trash ==> !Below(trash[i], c)
  }

  ghost predicate NoStrays(users: set<string>, cloud: Cloud, k: Key) {
    forall j {:trigger j in cloud} :: !Stray(users, cloud, k, j)
  }

  predicate ParentThere(fs: Tree, p: string) {
    "/" <= p && IsDir(fs, Phys(Parent(p)))
  }

  lemma MoveKeepsAgreement(s: State, s': State, u: string, f: string, t: string, r: Outcome)
    requires Valid(s) && Agree(s) && Tidy(s, Rename(u, f, t)) && !FromTrash(f)
    requires MoveRequest(s, s', u, f, t, r)
    ensures Agree(s')
  {
    if MoveOwner(u, f, t).Ok? {
      var src, dst := PlacedMove(s.users, u, f, t);
      MoveStepAgreement(s, s', src, dst, r);
    }
  }

  lemma MoveStepAgreement(s: State, s': State, src: Key, dst: Key, r: Outcome)
    requires Valid(s) && Agree(s) && InDomain(s.users, src) && InDomain(s.users, dst) && src.user == dst.user
    requires Normal(dst.dir) && '\\' !in PathOf(src) && IsDir(s.fs, Phys(dst.dir))
    requires Phys(PathOf(src)) in s.fs ==> Phys(PathOf(dst)) !in s.fs && Faithful(s.cloud, src, dst)
    requires MoveStep(s, s', src, dst, r)
    ensures Agree(s')
  {
    RenameAgreement(s, s', src, dst, r);
    if !Movable(s.fs, src, dst) {
      CreateExistingDir(s.fs, Phys(dst.dir));
      Immovable(s.fs, src, dst);
    }
  }

  lemma Immovable(fs: Tree, src: Key, dst: Key)
    requires WellFormed(fs) && IsDir(fs, Phys(dst.dir)) && !Movable(fs, src, dst)
    requires Phys(PathOf(src)) in fs ==> Phys(PathOf(dst)) !in fs
    ensures FileTree.Rename(fs, Phys(PathOf(src)), Phys(PathOf(dst))).Err?
  {
    PhysUnder(PathOf(dst), PathOf(src));
  }

  lemma AllFoundReached(s: State, k: Key, files: seq<string>, dirs: seq<string>)
    requires Listing(s.fs, PathOf(k), files, dirs) && AllFound(s.fs, k)
    ensures Reached(s, k, files)
  {
    var found := FoundFiles(k, files);
    forall f | f in found ensures IsFile(s.fs, Phys(f.path)) && PlainName(f.name) {
      var i := FoundIndex(k, files, f);
      assert HasFile(s.fs, PathOf(k), files[i]);
    }
    forall i, j | 0 <= i < j < |found| ensures found[i].path != found[j].path {
      assert files[i] in files && files[j] in files;
      assert HasFile(s.fs, PathOf(k), files[i]) && HasFile(s.fs, PathOf(k), files[j]);
    }
  }

  lemma NoneFoundFirst(s: State, k: Key, files: seq<string>, dirs: seq<string>)
    requires Listing(s.fs, PathOf(k), files, dirs) && NoneFound(s.fs, k)
    ensures files != [] && !IsFile(s.fs, Phys(Addressed(k, files[0]))) && !Reached(s, k, files)
  {
    var n :| HasFile(s.fs, PathOf(k), n);
    assert n in files;
    assert files[0] in files && HasFile(s.fs, PathOf(k), files[0]);
    assert FoundFiles(k, files)[0] in FoundFiles(k, files);
  }

  lemma DeleteDirStepAgreement(s: State, s': State, k: Key, now: int, r: Outcome)
    requires Valid(s) && Agree(s) && InDomain(s.users, k) && Normal(PathOf(k)) && DeleteDirStep(s, s', k, now, r)
    requires (NoStrays(s.users, s.cloud, k) && AllFound(s.fs, k)) || NoneFound(s.fs, k)
    ensures Agree(s')
  {
    var files, dirs :| Listing(s.fs, PathOf(k), files, dirs) && (s', r) == DeleteDirResult(s, k, now, files, dirs);
    if NoneFound(s.fs, k) { NoneFoundFirst(s, k, files, dirs); } else { AllFoundReached(s, k, files, dirs); }
    DeleteDirAgreement(s, k, now, files, dirs);
  }

  lemma DeleteKeepsAgreement(s: State, s': State, u: string, p: string, now: int, r: Outcome)
    requires Valid(s) && Agree(s) && Placed(s.users, p) && DeleteRequest(s, s', u, p, now, r)
    requires Authorise(u, p).Ok? && IsDir(s.fs, Phys(p)) ==>
               (NoStrays(s.users, s.cloud, KeyFor(p)) && AllFound(s.fs, KeyFor(p))) || NoneFound(s.fs, KeyFor(p))
    ensures Agree(s')
  {
    if Authorise(u, p).Ok? {
      var k := PlacedKey(s.users, u, p);
      if IsDir(s.fs, Phys(p)) { DeleteDirStepAgreement(s, s', k, now, r); } else { DeleteFileAgreement(s, k, now); }
    }
  }

  lemma RestoreKeepsAgreement(s: State, s': State, u: string, f: string, t: string, r: Outcome)
    requires Valid(s) && Agree(s) && Integrity(s) && Tidy(s, Rename(u, f, t)) && FromTrash(f)
    requires "/" <= f && RestoreRequest(s, s', u, f, t, r)
    ensures Agree(s')
  {
    if Authorise(u, t).Ok? && s' != s {
      var k := PlacedKey(s.users, u, t);
      var c, dir, name := TargetOf(u, f, t), OriginalDir(f), FileName(f);
      var id :| id in s.trash && SameItem(s.trash[id], u, dir, name)
                && if s.trash[id].isDir then RestoreDirStep(s, s', dir, name, c, r)
                   else (s', r) == RestoreFileResult(s, s.trash[id], k);
      if s.trash[id].isDir {
        RestoredDirAgrees(s, s', dir, name, c, k, r);
      } else {
        RestoredFileAgrees(s, id, k);
      }
    }
  }

  lemma RestoredDirAgrees(s: State, s': State, dir: string, name: string, c: Target, k: Key, r: Outcome)
    requires Valid(s) && Agree(s) && Integrity(s) && InDomain(s.users, k) && PathOf(k) == c.to && c.toUser == k.user && "/" <= c.to
    requires IsDir(s.fs, Phys(k.dir)) && FreeRows(s, c) && (IsDir(s.fs, Phys(c.to)) || NoRowsBelow(s.trash, c))
    requires RestoreDirStep(s, s', dir, name, c, r)
    ensures Agree(s')
  {
    var rows, ids :| RowsBelow(s.trash, c, rows, ids) && (s', r) == RestoreDirResult(s, dir, name, c, rows);
    FreeRowsRestorable(s, c, k, rows, ids);
    RestoreDirAgreement(s, dir, name, c, k, rows, ids);
  }

  lemma FreeRowsRestorable(s: State, c: Target, k: Key, rows: seq<TrashRow>, ids: seq<nat>)
    requires PathOf(k) == c.to && c.toUser == k.user && '/' !in k.name && IsDir(s.fs, Phys(k.dir)) && FreeRows(s, c)
    requires BelowRows(s.trash, c, rows, ids)
    ensures Restorable(s, c, k, rows) && (NoRowsBelow(s.trash, c) ==> rows == [])
  {
    forall r | r in rows ensures FreeRow(s, c, r) {
      var i :| 0 <= i < |rows| && rows[i] == r;
      assert r == s.trash[ids[i]];
    }
    forall i, j | 0 <= i < j < |rows| ensures rows[i].name != rows[j].name {
      assert rows[i] == s.trash[ids[i]] && rows[j] == s.trash[ids[j]];
    }
    if NoRowsBelow(s.trash, c) { FirstRow(s.trash, (t: TrashRow) => Below(t, c), rows, ids); }
  }

  lemma RestoredFileAgrees(s: State, id: nat, k: Key)
    requires Valid(s) && Agree(s) && Integrity(s) && id in s.trash && !s.trash[id].isDir
    requires InDomain(s.users, k) && IsDir(s.fs, Phys(k.dir))
    ensures Agree(RestoreFileResult(s, s.trash[id], k).0)
  {
    var row := s.trash[id];
    assert Backed(s, row);
    var data := s.fs[BlobPath(row.user, row.blob.value)].data;
    SaveIntoDir(s, k, data);
    AfterTheSave(s, row, k, data, SaveResult(s, k, data).0);
  }

  lemma SaveKeepsAgreement(s: State, u: string, d: string, n: string, data: Bytes)
    requires Valid(s) && Agree(s) && InScope(s, Save(u, d, n, data)) && Tidy(s, Save(u, d, n, data))
    ensures Agree(SaveRequest(s, u, d, n, data).0)
  {
    if Authorise(u, d).Ok? {
      var owner := Authorise(u, d).value;
      PlainNameSaved(s, owner, d, n, data);
      PlainSpotIs(d, n);
      SaveIntoDir(s, Key(owner, d, n), data);
    }
  }

  // Of restores, those that are not granted do nothing.
  lemma TidyHarmless(s: State, q: Request)
    requires Valid(s) && Integrity(s) && Tidy(s, q)
    ensures Harmless(s, q)
  {
    match q {
      case Rename(u, f, t) =>
        if FromTrash(f) {
          if "/" <= f && Authorise(u, t).Ok? { RestoreHarmless(s, u, f, t); }
        } else {
          OutsideTrashHarmless(s, q);
        }
      case _ => OutsideTrashHarmless(s, q);
    }
  }

  // A tidy request leaves tree and index in agreement, whatever its answer.
  lemma StepAgreement(s: State, q: Request, s': State, r: Outcome)
    requires Valid(s) && Agree(s) && Integrity(s) && Rooted(s.trash) && InScope(s, q) && Tidy(s, q) && Serves(s, q, s', r)
    ensures Agree(s')
  {
    match q {
      case Mkdir(u, p) =>
        if Authorise(u, p).Ok? {
          var k := PlacedKey(s.users, u, p);
          MkdirAgreement(s, k);
        }
      case Save(u, d, n, data) => SaveKeepsAgreement(s, u, d, n, data);
      case Rename(u, f, t) =>
        if FromTrash(f) { RestoreKeepsAgreement(s, s', u, f, t, r); } else { MoveKeepsAgreement(s, s', u, f, t, r); }
      case Delete(u, p, now) =>
        if InTrash(p) { EraseKeepsTrash(s, s', u, p, r); } else { DeleteKeepsAgreement(s, s', u, p, now, r); }
      case Purge(cutoff) => PurgedKeeps(s, s', cutoff);
    }
  }

  // ---- Runs -------------------------------------------------------------------------------------------

  // states[i + 1] and some answer come of serving requests[i] in states[i].
  ghost predicate Run(states: seq<State>, requests: seq<Request>) {
    |states| == |requests| + 1 &&
    forall i {:trigger requests[i]} :: 0 <= i < |requests| ==>
      InScope(states[i], requests[i]) && Leads(states[i], requests[i], states[i + 1]) && Unguessed(states[i + 1])
  }

  ghost predicate Leads(s: State, q: Request, s': State) {
    exists r :: Serves(s, q, s', r)
  }

  lemma AnswerOf(s: State, q: Request, s': State) returns (r: Outcome)
    requires Leads(s, q, s')
    ensures Serves(s, q, s', r)
  {
    r :| Serves(s, q, s', r);
  }

  // On every run of requests below the homes, .Trash included, that take or overwrite no row's blob, each file
  // row of the trash names its own existing blob; and no blob is orphaned as long as the requests stay
  // outside .Trash and no restore picks a file that shares its trash path.
  lemma {:induction false} RunIntegrity(states: seq<State>, requests: seq<Request>, i: nat)
    requires Run(states, requests) && i < |states| && Valid(states[0]) && Integrity(states[0]) && Rooted(states[0].trash)
    requires forall j {:trigger requests[j]} :: 0 <= j < i ==> Harmless(states[j], requests[j])
    ensures Valid(states[i]) && Integrity(states[i]) && Rooted(states[i].trash)
    ensures NoOrphans(states[0]) && (forall j {:trigger requests[j]} :: 0 <= j < i ==> LeavesNoOrphan(states[j], requests[j]))
            ==> NoOrphans(states[i])
  {
    if i > 0 {
      RunIntegrity(states, requests, i - 1);
      assert Leads(states[i - 1], requests[i - 1], states[i - 1 + 1]);
      var r := AnswerOf(states[i - 1], requests[i - 1], states[i]);
      StepIntegrity(states[i - 1], requests[i - 1], states[i], r);
    }
  }

  // On every run of tidy requests the index agrees with the tree in every state.
  lemma {:induction false} RunAgreement(states: seq<State>, requests: seq<Request>, i: nat)
    requires Run(states, requests) && i < |states|
    requires Valid(states[0]) && Integrity(states[0]) && Rooted(states[0].trash) && Agree(states[0])
    requires forall j {:trigger requests[j]} :: 0 <= j < i ==> Tidy(states[j], requests[j])
    ensures Valid(states[i]) && Integrity(states[i]) && Rooted(states[i].trash) && Agree(states[i])
  {
    if i > 0 {
      RunAgreement(states, requests, i - 1);
      assert Leads(states[i - 1], requests[i - 1], states[i - 1 + 1]);
      var r := AnswerOf(states[i - 1], requests[i - 1], states[i]);
      TidyHarmless(states[i - 1], requests[i - 1]);
      StepIntegrity(states[i - 1], requests[i - 1], states[i], r);
      StepAgreement(states[i - 1], requests[i - 1], states[i], r);
    }
  }
}
