/**
  rename from /Trash: a trashed file or directory goes back to a /User path.
 */
module StorageRestore {
  import opened Wrappers
  import opened Text
  import opened VirtualPath
  import opened Like
  import opened FileTree
  import opened StorageState
  import opened StorageIndex
  import opened StorageTrash

  // ---- Addressing the trash ------------------------------------------------------------------

  // parent of the /Trash path without its leading "/Trash"s and slashes
  function RelParent(from: string): string
    requires "/" <= from
  {
    TrimStart(TrimStart(Parent(from), "/Trash"), "/")
  }

  // original_dir the request looks up.
  function OriginalDir(from: string): string
    requires "/" <= from
  {
    if RelParent(from) == "" then "/" else "/" + RelParent(from)
  }

  // Root below which a restored directory's rows are sought; no leading slash below the top level.
  function FromRoot(from: string): string
    requires "/" <= from
  {
    if RelParent(from) == "" then "/" + FileName(from) else RelParent(from) + "/" + FileName(from)
  }

  lemma {:induction false} TrimStartShorter(s: string, pat: string)
    ensures |TrimStart(s, pat)| <= |s|
    ensures pat != "" ==> !(pat <= TrimStart(s, pat))
    decreases |s|
  {
    if pat != "" && pat <= s { TrimStartShorter(s[|pat|..], pat); }
  }

  // The item listed under dir/name is found again at /Trash + dir + "/" + name exactly when its
  // original directory does not itself begin with "/Trash".
  lemma TrashAddressing(dir: string, name: string)
    requires "/" <= dir && dir != "/" && !("//" <= dir) && '/' !in name
    ensures var from := Child("/Trash" + dir, name);
            "/" <= from && FileName(from) == name && (OriginalDir(from) == dir <==> !("/Trash" <= dir))
  {
    var base := "/Trash" + dir;
    var from := Child(base, name);
    SplitLast(base, name);
    assert base[|"/Trash"|..] == dir;
    assert TrimStart(base, "/Trash") == TrimStart(dir, "/Trash");
    if "/Trash" <= dir {
      TrimStartShorter(dir[|"/Trash"|..], "/Trash");
      TrimStartShorter(TrimStart(dir, "/Trash"), "/");
    } else {
      assert dir[|"/"|..] == dir[1..];
      assert !("/" <= dir[1..]) by { assert !("//" <= dir) && dir == ['/'] + dir[1..]; }
      assert TrimStart(dir, "/") == dir[1..];
    }
  }

  // At the top level the root of a directory's rows is the path they were recorded under.
  lemma TopLevelRoot(name: string)
    requires '/' !in name
    ensures var from := Child("/Trash", name);
            "/" <= from && OriginalDir(from) == "/" && FromRoot(from) == "/" + name
  {
    SplitLast("/Trash", name);
    assert "/Trash"[|"/Trash"|..] == "";
    assert TrimStart("/Trash", "/Trash") == "" && TrimStart("", "/") == "";
  }

  lemma NestedRootForm(from: string)
    requires "/" <= from && RelParent(from) != ""
    ensures FromRoot(from) != "" && FromRoot(from)[0] != '/'
  {
    TrimStartShorter(TrimStart(Parent(from), "/Trash"), "/");
    assert FromRoot(from)[0] == RelParent(from)[0] != '/' by { assert !("/" <= RelParent(from)); }
  }

  // A pattern that begins with an ordinary character selects only what begins with it.
  lemma OrdinaryFirst(root: string, dir: string)
    requires root != "" && root[0] !in "%_\\" && Selects(root, dir)
    ensures dir != "" && dir[0] == root[0]
  {
    assert (root + "/%")[0] == root[0];
  }

  // Below the top level the root lacks its leading slash. No directory of a trash row can be selected
  // then, unless the root begins with a wildcard.
  lemma NestedRootFindsNothing(from: string)
    requires "/" <= from && RelParent(from) != "" && '\\' !in from
    ensures (forall dir :: "/" <= dir ==> !Selects(FromRoot(from), dir)) <==> FromRoot(from)[0] !in "%_"
  {
    var root := FromRoot(from);
    NestedRootForm(from);
    NoBackslashInRoot(from);
    if root[0] in "%_" {
      var b := root[1..];
      assert root == [root[0]] + b;
      SubstituteWildcard("", root[0], b, '/');
      assert "" + (['/'] + (b + "/x")) == "/" + (b + "/x");
      assert ("" + ([root[0]] + b)) + "/%" == root + "/%";
      assert "/" <= "/" + (b + "/x") && Selects(root, "/" + (b + "/x"));
    } else {
      forall dir | "/" <= dir ensures !Selects(root, dir) {
        if Selects(root, dir) { OrdinaryFirst(root, dir); }
      }
    }
  }

  lemma NoBackslashInRoot(from: string)
    requires "/" <= from && '\\' !in from
    ensures '\\' !in FromRoot(from)
  {
    TrimStartMembers(Parent(from), "/Trash");
    TrimStartMembers(TrimStart(Parent(from), "/Trash"), "/");
    assert forall c :: c in FileName(from) ==> c in from;
  }

  lemma {:induction false} TrimStartMembers(s: string, pat: string)
    ensures forall c :: c in TrimStart(s, pat) ==> c in s
    decreases |s|
  {
    if pat != "" && pat <= s { TrimStartMembers(s[|pat|..], pat); }
  }

  // ---- Single file -----------------------------------------------------------------------------

  predicate SameItem(row: TrashRow, user: string, dir: string, name: string) {
    row.user == user && row.dir == dir && row.name == name
  }

  function DropRows(trash: Trash, drop: TrashRow -> bool): Trash {
    map i | i in trash && !drop(trash[i]) :: trash[i]
  }

  function RestoreSave(s: State, dst: Key, data: Bytes): (State, Outcome) {
    SaveAt(s, dst, ParentOp(dst.user, dst.dir), Phys(PathOf(dst)), data, |data|)
  }

  lemma DomainDir(k: Key)
    requires '/' !in k.name && Tracked(k.user, PathOf(k))
    ensures k.dir != "/User"
  {
    AboveChild(Home(k.user), k.dir, k.name);
    assert |Home(k.user)| > |"/User"|;
  }

  // Outside the home itself it is save_file of that path.
  lemma RestoreSaves(s: State, dst: Key, data: Bytes)
    requires '/' !in dst.name && Tracked(dst.user, PathOf(dst))
    ensures RestoreSave(s, dst, data) == SaveResult(s, dst, data)
  {
    DomainDir(dst);
  }

  // The blob is read and saved at the target; then the file rows of that trash path go, and the blob.
  function RestoreFileResult(s: State, row: TrashRow, dst: Key): (State, Outcome) {
    if row.blob.None? then (s, Err(Database))
    else match Read(s.fs, BlobPath(row.user, row.blob.value))
      case Err(_) => (s, Err(Io))
      case Ok(data) =>
        var (s1, r) := RestoreSave(s, dst, data);
        if r.Err? then (s1, r)
        else (s1.(trash := DropRows(s1.trash, (t: TrashRow) => SameItem(t, row.user, row.dir, row.name) && !t.isDir),
                  fs := Delete(s1.fs, BlobPath(row.user, row.blob.value))), Ok(()))
  }

  // ---- Directory -------------------------------------------------------------------------------

  // user's trash below `root` goes to toUser's directory `to`.
  datatype Target = Target(user: string, root: string, toUser: string, to: string)

  // `user_id = $1 and (original_dir = $2 or original_dir like $3)`
  predicate InTrashTree(row: TrashRow, user: string, root: string) {
    row.user == user && Selects(root, row.dir)
  }

  predicate Below(row: TrashRow, c: Target) {
    InTrashTree(row, c.user, c.root)
  }

  // strip_prefix(from_root).unwrap_or("") and trim_start_matches('/')
  function RelTail(dir: string, root: string): string {
    TrimStart(if root <= dir then dir[|root|..] else "", "/")
  }

  function DestDir(row: TrashRow, c: Target): string {
    var tail := RelTail(row.dir, c.root);
    if tail == "" then c.to else c.to + "/" + tail
  }

  function DestKey(row: TrashRow, c: Target): Key {
    Key(c.toUser, DestDir(row, c), row.name)
  }

  // parent() of a resolved path
  function OpParent(op: string): string
    requires '/' in op
  {
    op[..LastSlash(op)]
  }

  lemma OpPathSlash(p: string)
    ensures '/' in OpPath(p)
  {
    assert OpPath(p)[4] == '/';
  }

  // One row of the subtree. A directory is created and indexed unless its row exists; a file is
  // read from its blob, written and its row upserted with the recorded size.
  function RestoreRow(s: State, row: TrashRow, c: Target): (State, Outcome) {
    var k := DestKey(row, c);
    var op := OpPath(PathOf(k));
    if row.isDir then
      var s1 := s.(fs := TryCreateDir(s.fs, op));
      if k.user !in s.users then (s1, Err(Database))
      else
        var cloud := if k in s.cloud then s.cloud else s.cloud[k := Entry(s.nextId, 0, InodeDirectory)];
        (s1.(cloud := cloud, nextId := s.nextId + 1), Ok(()))
    else if row.blob.None? then (s, Ok(()))
    else
      OpPathSlash(PathOf(k));
      var s1 := s.(fs := TryCreateDir(s.fs, OpParent(op)));
      match Read(s1.fs, BlobPath(c.user, row.blob.value))
      case Err(_) => (s1, Err(Io))
      case Ok(data) => SaveAt(s, k, OpParent(op), op, data, row.size)
  }

  // The rows in the given order, stopping at the first failure.
  function RestoreRows(s: State, rows: seq<TrashRow>, c: Target): (State, Outcome) {
    if rows == [] then (s, Ok(()))
    else
      var (s1, r1) := RestoreRows(s, rows[..|rows| - 1], c);
      if r1.Err? then (s1, r1) else RestoreRow(s1, rows[|rows| - 1], c)
  }

  // Deletes the blob of every file row.
  function DeleteBlobs(fs: Tree, rows: seq<TrashRow>): Tree {
    if rows == [] then fs
    else
      var fs1 := DeleteBlobs(fs, rows[..|rows| - 1]);
      var row := rows[|rows| - 1];
      if !row.isDir && row.blob.Some? then Delete(fs1, BlobPath(row.user, row.blob.value)) else fs1
  }

  // The clean-up: the blobs of the restored rows, the rows, and the row of the directory go.
  function CleanedUp(s: State, dir: string, name: string, c: Target, rows: seq<TrashRow>): State {
    s.(fs := DeleteBlobs(s.fs, rows),
       trash := DropRows(s.trash, (t: TrashRow) => Below(t, c) || (SameItem(t, c.user, dir, name) && t.isDir)))
  }

  // Restoring a directory item named `name` of `dir`, rows in query order.
  function RestoreDirResult(s: State, dir: string, name: string, c: Target, rows: seq<TrashRow>): (State, Outcome)
    requires "/" <= c.to
  {
    var s0 := s.(fs := TryCreateDir(s.fs, ParentOp(c.toUser, Parent(c.to))));
    var (s1, r) := RestoreRows(s0, rows, c);
    (if r.Err? then s1 else CleanedUp(s1, dir, name, c, rows), r)
  }

  // A query result: each row satisfying `where` once.
  ghost predicate QueryRows(trash: Trash, where: TrashRow -> bool, rows: seq<TrashRow>, ids: seq<nat>) {
    && |rows| == |ids|
    && (forall j {:trigger ids[j]} {:trigger rows[j]} :: 0 <= j < |ids| ==>
          ids[j] in trash && trash[ids[j]] == rows[j] && where(rows[j]))
    && (forall i {:trigger i in trash} :: i in trash && where(trash[i]) ==> i in ids)
    && (forall i, j {:trigger ids[i], ids[j]} :: 0 <= i < j < |ids| ==> ids[i] != ids[j])
  }

  // The rows of a restored subtree.
  ghost predicate BelowRows(trash: Trash, c: Target, rows: seq<TrashRow>, ids: seq<nat>) {
    QueryRows(trash, (t: TrashRow) => Below(t, c), rows, ids)
  }

  // `order by is_dir desc`
  ghost predicate DirsFirst(rows: seq<TrashRow>) {
    forall i, j {:trigger rows[i], rows[j]} :: 0 <= i < j < |rows| && rows[j].isDir ==> rows[i].isDir
  }

  // A directory item below the top level: nothing is restored, and its row is dropped.
  lemma NestedRestoreForgets(s: State, from: string, c: Target, rows: seq<TrashRow>, ids: seq<nat>)
    requires "/" <= from && RelParent(from) != "" && '\\' !in from && FromRoot(from)[0] !in "%_"
    requires Rooted(s.trash)
    requires c.root == FromRoot(from) && "/" <= c.to && QueryRows(s.trash, (t: TrashRow) => Below(t, c), rows, ids)
    ensures var (s', r) := RestoreDirResult(s, OriginalDir(from), FileName(from), c, rows);
            && r.Ok? && s'.cloud == s.cloud && s'.fs == TryCreateDir(s.fs, ParentOp(c.toUser, Parent(c.to)))
            && forall i :: i in s'.trash <==>
                 i in s.trash && !(SameItem(s.trash[i], c.user, OriginalDir(from), FileName(from)) && s.trash[i].isDir)
  {
    NestedRootFindsNothing(from);
    assert forall i :: i in s.trash ==> !Below(s.trash[i], c);
    FirstRow(s.trash, (t: TrashRow) => Below(t, c), rows, ids);
    assert rows == [];
  }

  lemma FirstRow(trash: Trash, where: TrashRow -> bool, rows: seq<TrashRow>, ids: seq<nat>)
    requires QueryRows(trash, where, rows, ids)
    ensures rows != [] ==> ids[0] in trash && where(trash[ids[0]])
  {
  }

  // ---- Permanent delete and the purger -------------------------------------------------------

  // delete_trash_item_recursive for one fetched item; `dir` and `base` as bound to the queries.
  function ErasedItem(s: State, item: TrashRow, base: string, rows: seq<TrashRow>): State {
    if item.isDir then
      s.(fs := DeleteBlobs(s.fs, rows),
         trash := DropRows(s.trash, (t: TrashRow) => InTrashTree(t, item.user, base)
                                                     || (SameItem(t, item.user, item.dir, item.name) && t.isDir)))
    else
      s.(fs := DeleteBlobs(s.fs, [item]),
         trash := DropRows(s.trash, (t: TrashRow) => SameItem(t, item.user, item.dir, item.name) && !t.isDir))
  }

  // run_trash_purger: rows deleted before the cut-off go, and their blobs with them.
  function Purged(s: State, cutoff: int, rows: seq<TrashRow>): State {
    s.(fs := DeleteBlobs(s.fs, rows), trash := DropRows(s.trash, (t: TrashRow) => t.deletedAt < cutoff))
  }

  lemma {:induction false} AtDeleteBlobs(fs: Tree, rows: seq<TrashRow>, q: string)
    ensures At(DeleteBlobs(fs, rows), q) == At(fs, q) || At(DeleteBlobs(fs, rows), q) == None
    ensures At(DeleteBlobs(fs, rows), q) != At(fs, q) ==>
              exists j :: 0 <= j < |rows| && !rows[j].isDir && rows[j].blob.Some? && q == BlobPath(rows[j].user, rows[j].blob.value)
    ensures IsFile(fs, q) && (exists j :: 0 <= j < |rows| && !rows[j].isDir && rows[j].blob.Some?
                                          && q == BlobPath(rows[j].user, rows[j].blob.value)) ==>
              q !in DeleteBlobs(fs, rows)
  {
    if rows != [] {
      var rest := rows[..|rows| - 1];
      AtDeleteBlobs(fs, rest, q);
      assert forall j :: 0 <= j < |rest| ==> rest[j] == rows[j];
    }
  }

  // ---- Framing -----------------------------------------------------------------------------------

  // A write at a tracked path, with its parents, changes tracked objects only.
  lemma WriteOnlyTracked(s: State, owner: string, p: string, data: Bytes)
    requires Valid(s) && owner in s.users && Tracked(owner, p) && Write(s.fs, Phys(p), data).Ok?
    ensures OnlyTracked(s.fs, Write(s.fs, Phys(p), data).value, owner)
    ensures WellFormed(Write(s.fs, Phys(p), data).value)
  {
    var fs' := Write(s.fs, Phys(p), data).value;
    WriteWellFormed(s.fs, Phys(p), data);
    assert Phys(p)[4..] == p;
    forall q | !TrackedObject(owner, q) ensures At(fs', q) == At(s.fs, q) {
      if q in Chain(Phys(p)) && q != Phys(p) && !IsDir(s.fs, q) {
        ChainTracked(s, owner, p, q);
      }
    }
  }

  lemma SaveAtFrame(s: State, k: Key, dir: string, name: string, data: Bytes, size: nat)
    requires Valid(s) && k.user in s.users && '/' !in name
    requires Tracked(k.user, Child(dir, name))
    ensures var s' := SaveAt(s, k, Phys(dir), Phys(Child(dir, name)), data, size).0;
            Valid(s') && OnlyTracked(s.fs, s'.fs, k.user) && s'.trash == s.trash && s'.users == s.users
  {
    var s' := SaveAt(s, k, Phys(dir), Phys(Child(dir, name)), data, size).0;
    var s1 := s.(fs := TryCreateDir(s.fs, Phys(dir)));
    TrackedParent(k.user, dir, name);
    OpenTracked(s, k.user, dir);
    if Write(s1.fs, Phys(Child(dir, name)), data).Ok? {
      WriteOnlyTracked(s1, k.user, Child(dir, name), data);
      FrameValid(s1, s', k.user);
    }
  }

  ghost predicate SaneTarget(s: State, c: Target) {
    c.toUser in s.users && c.user in s.users && Normal(c.to) && Tracked(c.toUser, c.to)
  }

  // A target at or below a home, and rows that do not lead into .Trash.
  ghost predicate AnyTarget(s: State, c: Target) {
    c.toUser in s.users && c.user in s.users && Normal(c.to) && (Tracked(c.toUser, c.to) || c.to == Home(c.toUser))
  }

  ghost predicate LandsTracked(c: Target, row: TrashRow) {
    Tracked(c.toUser, NormalizePath(PathOf(DestKey(row, c))))
  }

  ghost predicate RowsLand(c: Target, rows: seq<TrashRow>) {
    forall r {:trigger LandsTracked(c, r)} :: r in rows ==> LandsTracked(c, r)
  }

  lemma RowsLandPrefix(c: Target, rows: seq<TrashRow>)
    requires RowsLand(c, rows) && rows != []
    ensures RowsLand(c, rows[..|rows| - 1])
  {
    assert forall r :: r in rows[..|rows| - 1] ==> r in rows;
  }

  lemma RowsLandSplit(c: Target, rows: seq<TrashRow>)
    requires RowsLand(c, rows) && rows != []
    ensures RowsLand(c, rows[..|rows| - 1]) && LandsTracked(c, rows[|rows| - 1])
  {
    RowsLandPrefix(c, rows);
    assert rows[|rows| - 1] in rows;
  }

  // Below a tracked target every row's destination is tracked, whatever the row says.
  lemma SaneLands(s: State, c: Target, row: TrashRow)
    requires Valid(s) && SaneTarget(s, c)
    ensures AnyTarget(s, c) && LandsTracked(c, row)
  {
    HomeBelow(c.toUser, c.to);
    var x := DestTail(row, c);
    NormalizeAppend(c.to, x);
    TrackedBelow(c.toUser, c.to, NormalizePath(c.to + "/" + x));
  }

  lemma DestTracked(s: State, row: TrashRow, c: Target) returns (q: Key)
    requires Valid(s) && AnyTarget(s, c) && LandsTracked(c, row)
    ensures OpPath(PathOf(DestKey(row, c))) == Phys(PathOf(q))
    ensures OpParent(Phys(PathOf(q))) == Phys(q.dir) && Phys(PathOf(q)) == Child(Phys(q.dir), q.name)
    ensures Tracked(c.toUser, PathOf(q)) && q.user == c.toUser && '/' !in q.name
  {
    assert ValidName(c.toUser);
    NormalizeIdempotent(PathOf(DestKey(row, c)));
    q := TrackedKey(c.toUser, NormalizePath(PathOf(DestKey(row, c))));
    KeyOpParent(q);
  }

  lemma DestTail(row: TrashRow, c: Target) returns (x: string)
    ensures PathOf(DestKey(row, c)) == c.to + "/" + x
  {
    var tail := RelTail(row.dir, c.root);
    if tail == "" {
      x := row.name;
    } else {
      x := tail + "/" + row.name;
      assert (c.to + "/" + tail) + "/" + row.name == c.to + "/" + (tail + "/" + row.name);
    }
  }

  lemma KeyOpParent(q: Key)
    requires '/' !in q.name
    ensures OpParent(Phys(PathOf(q))) == Phys(q.dir) && Phys(PathOf(q)) == Child(Phys(q.dir), q.name)
  {
    assert Phys(PathOf(q)) == Child(Phys(q.dir), q.name);
    LastSlashOfChild(Phys(q.dir), q.name);
  }

  lemma RestoreRowFrame(s: State, row: TrashRow, c: Target)
    requires Valid(s) && AnyTarget(s, c) && LandsTracked(c, row)
    ensures var s' := RestoreRow(s, row, c).0;
            Valid(s') && OnlyTracked(s.fs, s'.fs, c.toUser) && s'.trash == s.trash && s'.users == s.users
  {
    var q := DestTracked(s, row, c);
    if row.isDir {
      RestoreDirRowFrame(s, row, c, q);
    } else if row.blob.Some? {
      TrackedParent(c.toUser, q.dir, q.name);
      OpenTracked(s, c.toUser, q.dir);
      RestoreFileRowFrame(s, row, c, q);
    }
  }

  lemma RestoreDirRowFrame(s: State, row: TrashRow, c: Target, q: Key)
    requires Valid(s) && AnyTarget(s, c) && row.isDir
    requires OpPath(PathOf(DestKey(row, c))) == Phys(PathOf(q)) && Tracked(c.toUser, PathOf(q))
    ensures var s' := RestoreRow(s, row, c).0;
            Valid(s') && OnlyTracked(s.fs, s'.fs, c.toUser) && s'.trash == s.trash && s'.users == s.users
  {
    CreateDirOnlyTracked(s, c.toUser, PathOf(q));
    FrameValid(s, RestoreRow(s, row, c).0, c.toUser);
  }

  lemma OpenTracked(s: State, user: string, dir: string)
    requires Valid(s) && user in s.users && (dir == Home(user) || Tracked(user, dir))
    ensures var s1 := s.(fs := TryCreateDir(s.fs, Phys(dir))); Valid(s1) && OnlyTracked(s.fs, s1.fs, user)
  {
    if dir == Home(user) {
      assert IsDir(s.fs, Phys(Home(user)));
      CreateExistingDir(s.fs, Phys(dir));
    } else {
      CreateDirOnlyTracked(s, user, dir);
      FrameValid(s, s.(fs := TryCreateDir(s.fs, Phys(dir))), user);
    }
  }

  lemma RestoreFileRowFrame(s: State, row: TrashRow, c: Target, q: Key)
    requires Valid(s) && AnyTarget(s, c) && !row.isDir && row.blob.Some?
    requires OpPath(PathOf(DestKey(row, c))) == Phys(PathOf(q)) && OpParent(Phys(PathOf(q))) == Phys(q.dir)
    requires Tracked(c.toUser, PathOf(q)) && '/' !in q.name
    requires var s1 := s.(fs := TryCreateDir(s.fs, Phys(q.dir))); Valid(s1) && OnlyTracked(s.fs, s1.fs, c.toUser)
    ensures var s' := RestoreRow(s, row, c).0;
            Valid(s') && OnlyTracked(s.fs, s'.fs, c.toUser) && s'.trash == s.trash && s'.users == s.users
  {
    match Read(TryCreateDir(s.fs, Phys(q.dir)), BlobPath(c.user, row.blob.value))
    case Err(_) =>
    case Ok(data) => SaveAtFrame(s, DestKey(row, c), q.dir, q.name, data, row.size);
  }

  lemma OnlyTrackedTransitive(a: Tree, b: Tree, c: Tree, owner: string)
    requires OnlyTracked(a, b, owner) && OnlyTracked(b, c, owner)
    ensures OnlyTracked(a, c, owner)
  {
    forall q | !TrackedObject(owner, q) ensures At(c, q) == At(a, q) {
      assert At(b, q) == At(a, q);
    }
  }

  // Until the clean-up no blob and no trash row is touched, however far the loop gets.
  lemma {:induction false} RestoreRowsFrame(s: State, rows: seq<TrashRow>, c: Target)
    requires Valid(s) && AnyTarget(s, c) && RowsLand(c, rows)
    ensures var s' := RestoreRows(s, rows, c).0;
            Valid(s') && OnlyTracked(s.fs, s'.fs, c.toUser) && s'.trash == s.trash && s'.users == s.users
  {
    if rows != [] {
      var n := |rows| - 1;
      RowsLandSplit(c, rows);
      RestoreRowsFrame(s, rows[..n], c);
      var (s1, r1) := RestoreRows(s, rows[..n], c);
      if r1.Ok? {
        RestoreRowFrame(s1, rows[n], c);
        OnlyTrackedTransitive(s.fs, s1.fs, RestoreRow(s1, rows[n], c).0.fs, c.toUser);
      }
    }
  }

  // Creating the target's parent is harmless.
  lemma RestoreOpens(s: State, c: Target)
    requires Valid(s) && AnyTarget(s, c) && "/" <= c.to
    ensures var s0 := s.(fs := TryCreateDir(s.fs, ParentOp(c.toUser, Parent(c.to))));
            Valid(s0) && OnlyTracked(s.fs, s0.fs, c.toUser)
  {
    assert ValidName(c.toUser);
    if c.to == Home(c.toUser) {
      assert Home(c.toUser) == Child("/User", c.toUser);
      SplitLast("/User", c.toUser);
      OpenStray(s, c.toUser);
    } else {
      var k := TrackedKey(c.toUser, c.to);
      DomainDir(k);
      OpenTracked(s, c.toUser, k.dir);
    }
  }

  // The directory a restore into the home makes: User, inside the home.
  lemma OpenStray(s: State, user: string)
    requires Valid(s) && user in s.users
    ensures Tracked(user, Child(Home(user), "User"))
    ensures var s0 := s.(fs := TryCreateDir(s.fs, ParentOp(user, "/User"))); Valid(s0) && OnlyTracked(s.fs, s0.fs, user)
  {
    HomeChildTracked(user, "User");
    OpenTracked(s, user, Child(Home(user), "User"));
  }

  lemma HomeChildTracked(user: string, n: string)
    requires '/' !in n && n != ".Trash"
    ensures Tracked(user, Child(Home(user), n))
  {
    AboveChild(Home(user), Home(user), n);
    AboveChild(TrashRoot(user), Home(user), n);
    assert TrashRoot(user) == Child(Home(user), ".Trash");
    ChildDiffers(Home(user), n, Home(user), ".Trash");
  }
}
