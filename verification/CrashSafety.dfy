/**
  No byte is lost on the way: whichever physical step of a delete or restore is the last one to
  happen, the content of every file involved is at its source, in its blob or at its destination.
 */
module CrashSafety {
  import opened Wrappers
  import opened VirtualPath
  import opened FileTree
  import opened StorageState
  import opened StorageIndex
  import opened StorageTrash
  import opened StorageRestore
  import opened StorageRequests

  // ---- Single files ----------------------------------------------------------------------------

  lemma DeleteFileLosesNothing(s: State, k: Key, t: Tree)
    requires Valid(s) && InDomain(s.users, k) && t in DeleteFileTrees(s, k)
    ensures At(t, Phys(PathOf(k))) == At(s.fs, Phys(PathOf(k)))
            || At(t, BlobPath(k.user, s.nextId)) == At(s.fs, Phys(PathOf(k)))
  {
    assert ValidName(k.user);
    ArchiveWorks(s, k.user, PathOf(k), s.nextId);
    BlobApartFromTracked(k.user, s.nextId, k.user, PathOf(k));
    var base := BlobBase(k.user);
    assert Phys(PathOf(k)) !in Chain(base);
    if CreateDir(s.fs, base).Ok? { AtCreateDir(s.fs, base, Phys(PathOf(k))); }
  }

  // Making directories and writing another file leave a file as it is.
  lemma FileStays(fs: Tree, p: string, op: string)
    requires IsFile(fs, p)
    ensures At(TryCreateDir(fs, op), p) == At(fs, p)
  {
    if CreateDir(fs, op).Ok? { AtCreateDir(fs, op, p); }
  }

  lemma FileSurvivesWrite(fs: Tree, p: string, op: string, data: Bytes)
    requires IsFile(fs, p) && p != op && Write(fs, op, data).Ok?
    ensures At(Write(fs, op, data).value, p) == At(fs, p)
  {
  }

  lemma RestoreFileLosesNothing(s: State, row: TrashRow, dst: Key, t: Tree)
    requires Valid(s) && InDomain(s.users, dst) && row.user in s.users && row.blob.Some?
    requires t in RestoreFileTrees(s, row, dst)
    ensures var blob := BlobPath(row.user, row.blob.value);
            At(t, blob) == At(s.fs, blob) || At(t, Phys(PathOf(dst))) == At(s.fs, blob)
  {
    var blob, op := BlobPath(row.user, row.blob.value), Phys(PathOf(dst));
    assert ValidName(row.user) && ValidName(dst.user);
    BlobApartFromTracked(row.user, row.blob.value, dst.user, PathOf(dst));
    var data := s.fs[blob].data;
    DomainDir(dst);
    var fs1 := TryCreateDir(s.fs, Phys(dst.dir));
    FileStays(s.fs, blob, Phys(dst.dir));
    if Write(fs1, op, data).Ok? { FileSurvivesWrite(fs1, blob, op, data); }
    SavedContent(s, dst, data);
  }

  lemma SavedContent(s: State, dst: Key, data: Bytes)
    ensures RestoreSave(s, dst, data).1.Ok? ==> At(RestoreSave(s, dst, data).0.fs, Phys(PathOf(dst))) == Some(File(data))
  {
  }

  // ---- Directories ------------------------------------------------------------------------------

  function DestObject(row: TrashRow, c: Target): string {
    OpPath(PathOf(DestKey(row, c)))
  }

  // Up to the clean-up every tree differs from the first at tracked objects only.
  lemma RowTreesTracked(s: State, row: TrashRow, c: Target, t: Tree)
    requires Valid(s) && AnyTarget(s, c) && LandsTracked(c, row) && t in RestoreRowTrees(s, row, c)
    ensures OnlyTracked(s.fs, t, c.toUser)
  {
    var q := DestTracked(s, row, c);
    if row.isDir {
      CreateDirOnlyTracked(s, c.toUser, PathOf(q));
    } else {
      TrackedParent(c.toUser, q.dir, q.name);
      OpenTracked(s, c.toUser, q.dir);
      FileRowTreesTracked(s, row, c, q, t);
    }
  }

  lemma FileRowTreesTracked(s: State, row: TrashRow, c: Target, q: Key, t: Tree)
    requires t in RestoreRowTrees(s, row, c) && !row.isDir
    requires DestObject(row, c) == Phys(PathOf(q)) && OpParent(Phys(PathOf(q))) == Phys(q.dir)
    requires Tracked(c.toUser, PathOf(q)) && c.toUser in s.users
    requires var s1 := s.(fs := TryCreateDir(s.fs, Phys(q.dir))); Valid(s1) && OnlyTracked(s.fs, s1.fs, c.toUser)
    ensures OnlyTracked(s.fs, t, c.toUser)
  {
    var s1 := s.(fs := TryCreateDir(s.fs, Phys(q.dir)));
    if t != s1.fs {
      var data := Read(s1.fs, BlobPath(c.user, row.blob.value)).value;
      assert Write(s1.fs, Phys(PathOf(q)), data) == Ok(t);
      WriteOnlyTracked(s1, c.toUser, PathOf(q), data);
      OnlyTrackedTransitive(s.fs, s1.fs, t, c.toUser);
    }
  }

  lemma {:induction false} RowsTreesTracked(s: State, rows: seq<TrashRow>, c: Target, t: Tree)
    requires Valid(s) && AnyTarget(s, c) && RowsLand(c, rows)
    requires t in RestoreRowsTrees(s, rows, c)
    ensures OnlyTracked(s.fs, t, c.toUser)
  {
    var n := |rows| - 1;
    RowsLandSplit(c, rows);
    if t in RestoreRowsTrees(s, rows[..n], c) {
      RowsTreesTracked(s, rows[..n], c, t);
    } else {
      var s1 := RestoreRows(s, rows[..n], c).0;
      RestoreRowsFrame(s, rows[..n], c);
      RowTreesTracked(s1, rows[n], c, t);
      OnlyTrackedTransitive(s.fs, s1.fs, t, c.toUser);
    }
  }

  // A restored row leaves every file but its own destination alone.
  lemma OtherFileKept(s: State, row: TrashRow, c: Target, p: string)
    requires IsFile(s.fs, p) && (row.isDir || p != DestObject(row, c))
    ensures At(RestoreRow(s, row, c).0.fs, p) == At(s.fs, p)
  {
    var op := DestObject(row, c);
    FileStays(s.fs, p, op);
    if !row.isDir && row.blob.Some? { OtherFileKeptByFile(s, row, c, op, p); }
  }

  lemma SaveKeepsFile(s: State, k: Key, opDir: string, op: string, data: Bytes, size: nat, p: string)
    requires IsFile(s.fs, p) && p != op
    ensures At(SaveAt(s, k, opDir, op, data, size).0.fs, p) == At(s.fs, p)
  {
    FileStays(s.fs, p, opDir);
    var fs1 := TryCreateDir(s.fs, opDir);
    if Write(fs1, op, data).Ok? { FileSurvivesWrite(fs1, p, op, data); }
  }

  lemma OtherFileKeptByFile(s: State, row: TrashRow, c: Target, op: string, p: string)
    requires IsFile(s.fs, p) && !row.isDir && row.blob.Some? && op == DestObject(row, c) && p != op
    ensures At(RestoreRow(s, row, c).0.fs, p) == At(s.fs, p)
  {
    OpPathSlash(PathOf(DestKey(row, c)));
    FileStays(s.fs, p, OpParent(op));
    match Read(TryCreateDir(s.fs, OpParent(op)), BlobPath(c.user, row.blob.value))
    case Err(_) =>
    case Ok(data) => SaveKeepsFile(s, DestKey(row, c), OpParent(op), op, data, row.size, p);
  }

  lemma OwnFileWritten(s: State, row: TrashRow, c: Target)
    requires !row.isDir && row.blob.Some? && IsFile(s.fs, BlobPath(c.user, row.blob.value))
    requires RestoreRow(s, row, c).1.Ok?
    ensures At(RestoreRow(s, row, c).0.fs, DestObject(row, c)) == At(s.fs, BlobPath(c.user, row.blob.value))
  {
    OpPathSlash(PathOf(DestKey(row, c)));
    FileStays(s.fs, BlobPath(c.user, row.blob.value), OpParent(DestObject(row, c)));
  }

  ghost predicate OwnDestination(rows: seq<TrashRow>, c: Target, j: nat)
    requires j < |rows|
  {
    forall i {:trigger DestObject(rows[i], c)} ::
      0 <= i < |rows| && i != j && !rows[i].isDir ==> DestObject(rows[i], c) != DestObject(rows[j], c)
  }

  lemma OwnDestinationPrefix(rows: seq<TrashRow>, c: Target, j: nat)
    requires j < |rows| - 1 && OwnDestination(rows, c, j)
    ensures OwnDestination(rows[..|rows| - 1], c, j)
    ensures rows[|rows| - 1].isDir || DestObject(rows[|rows| - 1], c) != DestObject(rows[j], c)
  {
    var rest, last := rows[..|rows| - 1], rows[|rows| - 1];
    forall i {:trigger DestObject(rest[i], c)} | 0 <= i < |rest| && i != j && !rest[i].isDir
      ensures DestObject(rest[i], c) != DestObject(rest[j], c)
    {
      assert rest[i] == rows[i];
    }
  }

  lemma LastContent(s: State, s1: State, rows: seq<TrashRow>, row: TrashRow, c: Target)
    requires Valid(s) && AnyTarget(s, c) && RowsLand(c, rows) && s1 == RestoreRows(s, rows, c).0
    requires !row.isDir && row.blob.Some? && IsFile(s.fs, BlobPath(c.user, row.blob.value)) && RestoreRow(s1, row, c).1.Ok?
    ensures At(RestoreRow(s1, row, c).0.fs, DestObject(row, c)) == At(s.fs, BlobPath(c.user, row.blob.value))
  {
    RestoreRowsFrame(s, rows, c);
    BlobUntouched(s, s1, c, row.blob.value);
    OwnFileWritten(s1, row, c);
  }

  // The bytes of the row's blob in fs stand at its destination in the tree t.
  predicate Landed(fs: Tree, t: Tree, row: TrashRow, c: Target) {
    row.blob.Some? && IsFile(fs, BlobPath(c.user, row.blob.value))
    && At(t, DestObject(row, c)) == At(fs, BlobPath(c.user, row.blob.value))
  }

  lemma LandedNext(s: State, rows: seq<TrashRow>, c: Target, row: TrashRow)
    requires rows != [] && RestoreRows(s, rows, c).1.Ok?
    requires rows[|rows| - 1].isDir || DestObject(rows[|rows| - 1], c) != DestObject(row, c)
    requires Landed(s.fs, RestoreRows(s, rows[..|rows| - 1], c).0.fs, row, c)
    ensures Landed(s.fs, RestoreRows(s, rows, c).0.fs, row, c)
  {
    var s1 := LastRowRestored(s, rows, c);
    OtherFileKept(s1, rows[|rows| - 1], c, DestObject(row, c));
  }

  lemma LandedLast(s: State, rows: seq<TrashRow>, c: Target, row: TrashRow)
    requires Valid(s) && AnyTarget(s, c) && RowsLand(c, rows) && rows != [] && row == rows[|rows| - 1]
    requires !row.isDir && row.blob.Some? && IsFile(s.fs, BlobPath(c.user, row.blob.value)) && RestoreRows(s, rows, c).1.Ok?
    ensures Landed(s.fs, RestoreRows(s, rows, c).0.fs, row, c)
  {
    var s1 := LastRowRestored(s, rows, c);
    RowsLandPrefix(c, rows);
    LastContent(s, s1, rows[..|rows| - 1], row, c);
  }

  lemma AllButLastOk(s: State, rows: seq<TrashRow>, c: Target)
    requires rows != [] && RestoreRows(s, rows, c).1.Ok?
    ensures RestoreRows(s, rows[..|rows| - 1], c).1.Ok?
  {
  }

  // The rows are restored and the blob of row j was there; its destination is its own.
  ghost predicate Restores(s: State, rows: seq<TrashRow>, c: Target, j: nat) {
    && RowsLand(c, rows) && RestoreRows(s, rows, c).1.Ok?
    && j < |rows| && !rows[j].isDir && rows[j].blob.Some? && IsFile(s.fs, BlobPath(c.user, rows[j].blob.value))
    && OwnDestination(rows, c, j)
  }

  lemma RestoresPrefix(s: State, rows: seq<TrashRow>, c: Target, j: nat)
    requires Restores(s, rows, c, j) && j < |rows| - 1
    ensures Restores(s, rows[..|rows| - 1], c, j)
  {
    OwnDestinationPrefix(rows, c, j);
    RowsLandPrefix(c, rows);
    AllButLastOk(s, rows, c);
  }

  lemma RestoresNext(s: State, rows: seq<TrashRow>, c: Target, j: nat)
    requires Restores(s, rows, c, j) && j < |rows| - 1
    requires Landed(s.fs, RestoreRows(s, rows[..|rows| - 1], c).0.fs, rows[j], c)
    ensures Landed(s.fs, RestoreRows(s, rows, c).0.fs, rows[j], c)
  {
    OwnDestinationPrefix(rows, c, j);
    LandedNext(s, rows, c, rows[j]);
  }

  // Once every row is restored the file stands at its destination.
  lemma {:induction false} RestoredContent(s: State, rows: seq<TrashRow>, c: Target, j: nat)
    requires Valid(s) && AnyTarget(s, c) && Restores(s, rows, c, j)
    ensures Landed(s.fs, RestoreRows(s, rows, c).0.fs, rows[j], c)
    decreases |rows|
  {
    if j < |rows| - 1 {
      RestoresPrefix(s, rows, c, j);
      RestoredContent(s, rows[..|rows| - 1], c, j);
      assert rows[..|rows| - 1][j] == rows[j];
      RestoresNext(s, rows, c, j);
    } else {
      LandedLast(s, rows, c, rows[j]);
    }
  }

  lemma LastRowRestored(s: State, rows: seq<TrashRow>, c: Target) returns (s1: State)
    requires rows != [] && RestoreRows(s, rows, c).1.Ok?
    ensures RestoreRows(s, rows[..|rows| - 1], c).1.Ok? && s1 == RestoreRows(s, rows[..|rows| - 1], c).0
    ensures RestoreRows(s, rows, c) == RestoreRow(s1, rows[|rows| - 1], c)
  {
    s1 := RestoreRows(s, rows[..|rows| - 1], c).0;
  }

  lemma BlobUntouched(s: State, s1: State, c: Target, h: nat)
    requires Valid(s) && AnyTarget(s, c) && OnlyTracked(s.fs, s1.fs, c.toUser)
    ensures At(s1.fs, BlobPath(c.user, h)) == At(s.fs, BlobPath(c.user, h))
  {
    assert ValidName(c.user) && ValidName(c.toUser);
    SystemObjectsUntracked(c.toUser, c.user, h);
  }

  lemma {:induction false} BlobsTree(fs: Tree, rows: seq<TrashRow>, t: Tree) returns (i: nat)
    requires t in DeleteBlobsTrees(fs, rows)
    ensures i <= |rows| && t == DeleteBlobs(fs, rows[..i])
  {
    var n := |rows| - 1;
    if t in DeleteBlobsTrees(fs, rows[..n]) {
      i := BlobsTree(fs, rows[..n], t);
      assert rows[..n][..i] == rows[..i];
    } else {
      i := |rows|;
      assert rows[..i] == rows;
    }
  }

  lemma CleanUpKeepsDestination(s: State, fs: Tree, rows: seq<TrashRow>, c: Target, j: nat, t: Tree)
    requires Valid(s) && AnyTarget(s, c) && j < |rows| && LandsTracked(c, rows[j]) && forall r :: r in rows ==> r.user == c.user
    requires t in DeleteBlobsTrees(fs, rows)
    ensures At(t, DestObject(rows[j], c)) == At(fs, DestObject(rows[j], c))
  {
    var q := DestTracked(s, rows[j], c);
    var i := BlobsTree(fs, rows, t);
    AtDeleteBlobs(fs, rows[..i], DestObject(rows[j], c));
    assert ValidName(c.user) && ValidName(c.toUser);
    forall m | 0 <= m < i && rows[m].blob.Some?
      ensures DestObject(rows[j], c) != BlobPath(rows[m].user, rows[m].blob.value)
    {
      assert rows[m] in rows;
      BlobApartFromTracked(c.user, rows[m].blob.value, c.toUser, PathOf(q));
    }
  }

  // Restoring a directory, at any depth: all writes come before all blob deletions, so a file
  // with a destination of its own is always in its blob or at its destination.
  lemma RestoreDirLosesNothing(s: State, c: Target, rows: seq<TrashRow>, j: nat, t: Tree)
    requires Valid(s) && AnyTarget(s, c) && "/" <= c.to
    requires RowsLand(c, rows) && forall r :: r in rows ==> r.user == c.user
    requires j < |rows| && !rows[j].isDir && rows[j].blob.Some? && IsFile(s.fs, BlobPath(c.user, rows[j].blob.value))
    requires OwnDestination(rows, c, j) && t in RestoreDirTrees(s, c, rows)
    ensures var blob := BlobPath(c.user, rows[j].blob.value);
            At(t, blob) == At(s.fs, blob) || At(t, DestObject(rows[j], c)) == At(s.fs, blob)
  {
    var s0 := s.(fs := TryCreateDir(s.fs, ParentOp(c.toUser, Parent(c.to))));
    RestoreOpens(s, c);
    BlobUntouched(s, s0, c, rows[j].blob.value);
    if t in RestoreRowsTrees(s0, rows, c) {
      RowsTreesTracked(s0, rows, c, t);
      BlobUntouched(s0, s0.(fs := t), c, rows[j].blob.value);
    } else if t != s0.fs {
      RestoredContent(s0, rows, c, j);
      assert rows[j] in rows && LandsTracked(c, rows[j]);
      CleanUpKeepsDestination(s0, RestoreRows(s0, rows, c).0.fs, rows, c, j, t);
    }
  }

  // ---- The trees are all there -----------------------------------------------------------------------

  // A finished deletion passes through two trees: the blob directory made, the object in it.
  lemma DeleteFileTrail(s: State, k: Key, now: int)
    requires Valid(s) && InDomain(s.users, k) && IsFile(s.fs, Phys(PathOf(k)))
    ensures DeleteFileTrees(s, k) == [TryCreateDir(s.fs, BlobBase(k.user)), DeleteFileResult(s, k, now).0.fs]
  {
    ArchiveWorks(s, k.user, PathOf(k), s.nextId);
  }

  // A finished restore of a file through three: the directory made, the bytes written while the blob is
  // still there, the blob gone.
  lemma RestoreFileTrail(s: State, row: TrashRow, dst: Key)
    requires Valid(s) && InDomain(s.users, dst) && row.user in s.users && RestoreFileResult(s, row, dst).1.Ok?
    ensures var trees, blob := RestoreFileTrees(s, row, dst), BlobPath(row.user, row.blob.value);
            && |trees| == 3 && trees[0] == TryCreateDir(s.fs, Phys(dst.dir))
            && At(trees[1], Phys(PathOf(dst))) == At(s.fs, blob) && At(trees[1], blob) == At(s.fs, blob)
            && trees[2] == RestoreFileResult(s, row, dst).0.fs && At(trees[2], blob) == None
  {
    var blob := BlobPath(row.user, row.blob.value);
    var data := s.fs[blob].data;
    assert ValidName(row.user) && ValidName(dst.user);
    BlobApartFromTracked(row.user, row.blob.value, dst.user, PathOf(dst));
    DomainDir(dst);
    var fs1 := TryCreateDir(s.fs, Phys(dst.dir));
    FileStays(s.fs, blob, Phys(dst.dir));
    FileSurvivesWrite(fs1, blob, Phys(PathOf(dst)), data);
    SavedContent(s, dst, data);
  }

  // The last tree so far, or the one before all of them.
  function Latest(fs: Tree, trees: seq<Tree>): Tree {
    if trees == [] then fs else trees[|trees| - 1]
  }

  lemma LatestConcat(fs: Tree, a: seq<Tree>, b: seq<Tree>)
    ensures Latest(fs, a + b) == Latest(Latest(fs, a), b)
  {
  }

  lemma RowTrail(s: State, row: TrashRow, c: Target)
    ensures Latest(s.fs, RestoreRowTrees(s, row, c)) == RestoreRow(s, row, c).0.fs
  {
    if !row.isDir && row.blob.Some? { FileRowTrail(s, row, c, OpPath(PathOf(DestKey(row, c)))); }
  }

  lemma FileRowTrail(s: State, row: TrashRow, c: Target, op: string)
    requires !row.isDir && row.blob.Some? && op == OpPath(PathOf(DestKey(row, c))) && '/' in op
    ensures Latest(s.fs, RestoreRowTrees(s, row, c)) == RestoreRow(s, row, c).0.fs
  {
    var fs1 := TryCreateDir(s.fs, OpParent(op));
    var read := Read(fs1, BlobPath(c.user, row.blob.value));
    FileRowTrees(s, row, c, op, fs1, read);
    FileRowResult(s, row, c, op, fs1, read);
    if read.Ok? { SaveTrail(s, DestKey(row, c), OpParent(op), op, read.value, row.size); }
  }

  lemma FileRowTrees(s: State, row: TrashRow, c: Target, op: string, fs1: Tree, read: Result<Bytes, ()>)
    requires !row.isDir && row.blob.Some? && op == OpPath(PathOf(DestKey(row, c))) && '/' in op
    requires fs1 == TryCreateDir(s.fs, OpParent(op)) && read == Read(fs1, BlobPath(c.user, row.blob.value))
    ensures RestoreRowTrees(s, row, c) == [fs1] + if read.Ok? then WriteTree(fs1, op, read.value) else []
  {
  }

  lemma FileRowResult(s: State, row: TrashRow, c: Target, op: string, fs1: Tree, read: Result<Bytes, ()>)
    requires !row.isDir && row.blob.Some? && op == OpPath(PathOf(DestKey(row, c))) && '/' in op
    requires fs1 == TryCreateDir(s.fs, OpParent(op)) && read == Read(fs1, BlobPath(c.user, row.blob.value))
    ensures read.Err? ==> RestoreRow(s, row, c).0.fs == fs1
    ensures read.Ok? ==> RestoreRow(s, row, c) == SaveAt(s, DestKey(row, c), OpParent(op), op, read.value, row.size)
  {
  }

  lemma SaveTrail(s: State, k: Key, opDir: string, op: string, data: Bytes, size: nat)
    ensures var fs1 := TryCreateDir(s.fs, opDir);
            Latest(s.fs, [fs1] + WriteTree(fs1, op, data)) == SaveAt(s, k, opDir, op, data, size).0.fs
  {
  }

  lemma {:induction false} RowsTrail(s: State, rows: seq<TrashRow>, c: Target)
    ensures Latest(s.fs, RestoreRowsTrees(s, rows, c)) == RestoreRows(s, rows, c).0.fs
  {
    if rows != [] {
      var n := |rows| - 1;
      RowsTrail(s, rows[..n], c);
      var (s1, r1) := RestoreRows(s, rows[..n], c);
      if r1.Ok? {
        RowTrail(s1, rows[n], c);
        LatestConcat(s.fs, RestoreRowsTrees(s, rows[..n], c), RestoreRowTrees(s1, rows[n], c));
      }
    }
  }

  lemma {:induction false} BlobsTrail(fs: Tree, rows: seq<TrashRow>)
    ensures Latest(fs, DeleteBlobsTrees(fs, rows)) == DeleteBlobs(fs, rows)
  {
    if rows != [] {
      var n := |rows| - 1;
      BlobsTrail(fs, rows[..n]);
      LatestConcat(fs, DeleteBlobsTrees(fs, rows[..n]),
                   if !rows[n].isDir && rows[n].blob.Some? then [DeleteBlobs(fs, rows)] else []);
    }
  }

  // The last tree a directory restore passes through is the one it leaves, whether it succeeds or stops.
  lemma RestoreDirTrail(s: State, dir: string, name: string, c: Target, rows: seq<TrashRow>)
    requires "/" <= c.to
    ensures Latest(s.fs, RestoreDirTrees(s, c, rows)) == RestoreDirResult(s, dir, name, c, rows).0.fs
  {
    var s0 := s.(fs := TryCreateDir(s.fs, ParentOp(c.toUser, Parent(c.to))));
    var (s1, r) := RestoreRows(s0, rows, c);
    RowsTrail(s0, rows, c);
    BlobsTrail(s1.fs, rows);
    LatestConcat(s.fs, [s0.fs], RestoreRowsTrees(s0, rows, c));
    LatestConcat(s.fs, [s0.fs] + RestoreRowsTrees(s0, rows, c), if r.Ok? then DeleteBlobsTrees(s1.fs, rows) else []);
  }
}
