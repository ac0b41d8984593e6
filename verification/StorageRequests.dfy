/**
  What each request does to the whole state, from its path strings on: the outcome functions of
  the Storage modules behind the access checks, and the trees a request passes through.
 */
module StorageRequests {
  import opened Wrappers
  import opened Text
  import opened VirtualPath
  import opened FileTree
  import opened DotPaths
  import opened StorageState
  import opened StorageIndex
  import opened StorageRename
  import opened StorageTrash
  import opened StorageRestore

  // Requests of /AppData and /System take branches that are not part of this model.
  predicate Routed(p: string) {
    !("/AppData" <= p) && !("/System" <= p)
  }

  // A path below a home and outside .Trash, on which the requester may act.
  ghost predicate Reachable(users: set<string>, username: string, p: string) {
    Normal(p) && Authorise(username, p).Ok? && InDomain(users, KeyFor(p))
  }

  lemma ReachableKey(users: set<string>, username: string, p: string) returns (k: Key)
    requires Reachable(users, username, p)
    ensures "/User/" <= p && |Components(p)| >= 2 && k == KeyFor(p) && PathOf(k) == p && Normal(k.dir)
    ensures InDomain(users, k) && '/' !in k.name && k.dir == Parent(p) && k.name == FileName(p)
    ensures k.user == Authorise(username, p).value && Under(k.dir, Home(k.user))
  {
    k := RoutedKey(p);
  }

  function MkdirRequest(s: State, username: string, p: string): (State, Outcome) {
    match Authorise(username, p)
    case Err(e) => (s, Err(e))
    case Ok(_) => if |Components(p)| == 2 then (s, Err(BadRequest)) else MkdirResult(s, KeyFor(p))
  }

  function SaveRequest(s: State, username: string, dir: string, name: string, data: Bytes): (State, Outcome) {
    match Authorise(username, dir)
    case Err(e) => (s, Err(e))
    case Ok(owner) => SaveNamed(s, owner, dir, name, data)
  }

  ghost predicate MoveRequest(s: State, s': State, username: string, from: string, to: string, r: Outcome) {
    match MoveOwner(username, from, to)
    case Err(e) => s' == s && r == Err(e)
    case Ok(_) => MoveStep(s, s', KeyFor(from), KeyFor(to), r)
  }

  // ---- delete ------------------------------------------------------------------------------

  // The listing comes in no particular order.
  ghost predicate DeleteDirStep(s: State, s': State, k: Key, now: int, r: Outcome) {
    exists files, dirs {:trigger DeleteDirResult(s, k, now, files, dirs)} ::
      Listing(s.fs, PathOf(k), files, dirs) && (s', r) == DeleteDirResult(s, k, now, files, dirs)
  }

  ghost predicate DeleteStep(s: State, s': State, k: Key, now: int, r: Outcome) {
    if k.user !in s.users then s' == s && r == Err(Database)
    else if IsDir(s.fs, Phys(PathOf(k))) then DeleteDirStep(s, s', k, now, r)
    else (s', r) == DeleteFileResult(s, k, now)
  }

  ghost predicate DeleteRequest(s: State, s': State, username: string, p: string, now: int, r: Outcome) {
    match Authorise(username, p)
    case Err(e) => s' == s && r == Err(e)
    case Ok(_) => DeleteStep(s, s', KeyFor(p), now, r)
  }

  // ---- Permanent delete -----------------------------------------------------------------------

  // original_dir as the permanent delete binds it: no leading slash below the top level.
  function EraseDir(p: string): string
    requires "/" <= p
  {
    if RelParent(p) == "" then "/" else RelParent(p)
  }

  function EraseBase(p: string): string
    requires "/" <= p
  {
    RelParent(p) + "/" + FileName(p)
  }

  ghost predicate FilesBelow(trash: Trash, user: string, base: string, rows: seq<TrashRow>, ids: seq<nat>) {
    QueryRows(trash, (t: TrashRow) => !t.isDir && InTrashTree(t, user, base), rows, ids)
  }

  ghost predicate Erased(s: State, s': State, item: TrashRow, base: string) {
    exists rows, ids :: FilesBelow(s.trash, item.user, base, rows, ids) && s' == ErasedItem(s, item, base, rows)
  }

  // fetch_optional takes any one of the matching rows.
  ghost predicate EraseStep(s: State, s': State, username: string, dir: string, name: string, base: string, r: Outcome) {
    if username !in s.users then s' == s && r == Err(Database)
    else
      r == Ok(()) &&
      if !Listed(s.trash, username, dir, name) then s' == s
      else exists id :: id in s.trash && SameItem(s.trash[id], username, dir, name) && Erased(s, s', s.trash[id], base)
  }

  ghost predicate Listed(trash: Trash, user: string, dir: string, name: string) {
    exists id :: id in trash && SameItem(trash[id], user, dir, name)
  }

  ghost predicate EraseRequest(s: State, s': State, username: string, p: string, r: Outcome)
    requires "/" <= p
  {
    if p == "/Trash" then s' == s && r == Err(BadRequest)
    else EraseStep(s, s', username, EraseDir(p), FileName(p), EraseBase(p), r)
  }

  // No request erases a trashed file: at the top level there are only directories, and below it the
  // bound directory lacks its leading slash.
  lemma EraseFindsNoFile(s: State, username: string, p: string, id: nat)
    requires Rooted(s.trash) && "/" <= p && id in s.trash && SameItem(s.trash[id], username, EraseDir(p), FileName(p))
    ensures s.trash[id].isDir && RelParent(p) == ""
  {
    TrimStartShorter(TrimStart(Parent(p), "/Trash"), "/");
    assert !("/" <= RelParent(p));
  }

  // Below the top level the bound directory lacks its leading slash: permanent deletion finds no
  // item there, answers Ok and changes nothing.
  lemma NestedEraseDoesNothing(s: State, s': State, username: string, p: string, r: Outcome)
    requires "/" <= p && p != "/Trash" && RelParent(p) != "" && username in s.users
    requires Rooted(s.trash)
    ensures EraseRequest(s, s', username, p, r) <==> s' == s && r == Ok(())
  {
    TrimStartShorter(TrimStart(Parent(p), "/Trash"), "/");
    assert !("/" <= EraseDir(p));
    assert !Listed(s.trash, username, EraseDir(p), FileName(p));
  }

  // ---- Restore ---------------------------------------------------------------------------------

  function TargetOf(username: string, from: string, to: string): Target
    requires "/" <= from && "/User/" <= to && |Components(to)| >= 2
  {
    Target(username, FromRoot(from), KeyFor(to).user, to)
  }

  ghost predicate RowsBelow(trash: Trash, c: Target, rows: seq<TrashRow>, ids: seq<nat>) {
    BelowRows(trash, c, rows, ids) && DirsFirst(rows)
  }

  ghost predicate RestoreDirStep(s: State, s': State, dir: string, name: string, c: Target, r: Outcome)
    requires "/" <= c.to
  {
    exists rows, ids :: RowsBelow(s.trash, c, rows, ids) && (s', r) == RestoreDirResult(s, dir, name, c, rows)
  }

  ghost predicate RestoreStep(s: State, s': State, dir: string, name: string, c: Target, dst: Key, r: Outcome)
    requires "/" <= c.to
  {
    if c.user !in s.users then s' == s && r == Err(Database)
    else if !Listed(s.trash, c.user, dir, name) then s' == s && r == Err(BadRequest)
    else exists id :: id in s.trash && SameItem(s.trash[id], c.user, dir, name)
                      && if s.trash[id].isDir then RestoreDirStep(s, s', dir, name, c, r)
                         else (s', r) == RestoreFileResult(s, s.trash[id], dst)
  }

  ghost predicate RestoreRequest(s: State, s': State, username: string, from: string, to: string, r: Outcome)
    requires "/" <= from
  {
    match Authorise(username, to)
    case Err(e) => s' == s && r == Err(e)
    case Ok(_) =>
      assert "/" <= to;
      RestoreStep(s, s', OriginalDir(from), FileName(from), TargetOf(username, from, to), KeyFor(to), r)
  }

  // ---- The purger ------------------------------------------------------------------------------

  ghost predicate ExpiredRows(trash: Trash, cutoff: int, rows: seq<TrashRow>, ids: seq<nat>) {
    QueryRows(trash, (t: TrashRow) => t.deletedAt < cutoff, rows, ids)
  }

  ghost predicate PurgeStep(s: State, s': State, cutoff: int) {
    exists rows, ids :: ExpiredRows(s.trash, cutoff, rows, ids) && s' == Purged(s, cutoff, rows)
  }

  // ---- The trees on the way ----------------------------------------------------------------------

  function SaveTrees(fs: Tree, opDir: string, op: string, data: Bytes): seq<Tree> {
    var fs1 := TryCreateDir(fs, opDir);
    match Write(fs1, op, data)
    case Err(_) => [fs1]
    case Ok(fs2) => [fs1, fs2]
  }

  function PathTrees(fs: Tree, path: string, data: Bytes): seq<Tree> {
    var fs1 := MakeDirs(fs, PathParent(path));
    match PutFile(fs1, path, data)
    case Err(_) => [fs1]
    case Ok(fs2) => [fs1, fs2]
  }

  function ArchiveTrees(fs: Tree, user: string, p: string, id: nat): seq<Tree> {
    var fs1 := TryCreateDir(fs, BlobBase(user));
    match Rename(fs1, Phys(p), BlobPath(user, id))
    case Err(_) => [fs1]
    case Ok(fs2) => [fs1, fs2]
  }

  function DeleteFileTrees(s: State, k: Key): seq<Tree> {
    if IsFile(s.fs, Phys(PathOf(k))) then ArchiveTrees(s.fs, k.user, PathOf(k), s.nextId) else []
  }

  function RestoreFileTrees(s: State, row: TrashRow, dst: Key): seq<Tree> {
    if row.blob.None? then []
    else match Read(s.fs, BlobPath(row.user, row.blob.value))
      case Err(_) => []
      case Ok(data) =>
        var (s1, r) := RestoreSave(s, dst, data);
        SaveTrees(s.fs, ParentOp(dst.user, dst.dir), Phys(PathOf(dst)), data)
        + if r.Ok? then [Delete(s1.fs, BlobPath(row.user, row.blob.value))] else []
  }

  function RestoreRowTrees(s: State, row: TrashRow, c: Target): seq<Tree> {
    var op := OpPath(PathOf(DestKey(row, c)));
    if row.isDir then [TryCreateDir(s.fs, op)]
    else if row.blob.None? then []
    else
      OpPathSlash(PathOf(DestKey(row, c)));
      var fs1 := TryCreateDir(s.fs, OpParent(op));
      match Read(fs1, BlobPath(c.user, row.blob.value))
      case Err(_) => [fs1]
      case Ok(data) => [fs1] + WriteTree(fs1, op, data)
  }

  function WriteTree(fs: Tree, op: string, data: Bytes): seq<Tree> {
    match Write(fs, op, data) case Err(_) => [] case Ok(fs') => [fs']
  }

  function RestoreRowsTrees(s: State, rows: seq<TrashRow>, c: Target): seq<Tree> {
    if rows == [] then []
    else
      var n := |rows| - 1;
      var (s1, r1) := RestoreRows(s, rows[..n], c);
      RestoreRowsTrees(s, rows[..n], c) + if r1.Ok? then RestoreRowTrees(s1, rows[n], c) else []
  }

  function DeleteBlobsTrees(fs: Tree, rows: seq<TrashRow>): seq<Tree> {
    if rows == [] then []
    else
      var n := |rows| - 1;
      DeleteBlobsTrees(fs, rows[..n])
      + if !rows[n].isDir && rows[n].blob.Some? then [DeleteBlobs(fs, rows)] else []
  }

  function RestoreDirTrees(s: State, c: Target, rows: seq<TrashRow>): seq<Tree>
    requires "/" <= c.to
  {
    var s0 := s.(fs := TryCreateDir(s.fs, ParentOp(c.toUser, Parent(c.to))));
    var (s1, r) := RestoreRows(s0, rows, c);
    [s0.fs] + RestoreRowsTrees(s0, rows, c) + if r.Ok? then DeleteBlobsTrees(s1.fs, rows) else []
  }
}
