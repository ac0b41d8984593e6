/**
  A directory restored onto a home, or into .Trash: nothing keeps its rows away from the blobs.
 */
module HomeRestore {
  import opened Wrappers
  import opened Text
  import opened VirtualPath
  import opened Like
  import opened FileTree
  import opened DotPaths
  import opened StorageState
  import opened StorageIndex
  import opened StorageTrash
  import opened StorageRestore
  import opened TrashIntegrity
  import opened TrashPaths
  import opened CrashSafety

  // ---- What the loop writes --------------------------------------------------------------------------

  // The row has bytes to bring back.
  predicate Carries(row: TrashRow) {
    !row.isDir && row.blob.Some?
  }

  // Every row is of the restoring user, and its blob is there with the recorded size.
  ghost predicate RowsBacked(s: State, c: Target, rows: seq<TrashRow>) {
    forall r {:trigger r in rows} :: r in rows ==> r.user == c.user && Backed(s, r)
  }

  // The row whose bytes stand at q once the rows are restored: that of the last row that leads there, or
  // of the row whose bytes had been written over its blob by then.
  function LandedRow(c: Target, rows: seq<TrashRow>, q: string): Option<TrashRow> {
    if rows == [] then None
    else
      var r := rows[|rows| - 1];
      if Carries(r) && DestObject(r, c) == q then
        match LandedRow(c, rows[..|rows| - 1], BlobOf(r))
        case None => Some(r)
        case Some(x) => Some(x)
      else LandedRow(c, rows[..|rows| - 1], q)
  }

  // The file of before at q, or the bytes of that row.
  function Landed(s: State, q: string, row: Option<TrashRow>): Option<Node> {
    match row case None => At(s.fs, q) case Some(r) => At(s.fs, BlobOf(r))
  }

  lemma RowsFront(s: State, c: Target, rows: seq<TrashRow>)
    requires RowsBacked(s, c, rows) && rows != []
    ensures RowsBacked(s, c, rows[..|rows| - 1])
    ensures var r := rows[|rows| - 1]; r.user == c.user && Backed(s, r)
  {
    assert rows[|rows| - 1] in rows;
    forall r | r in rows[..|rows| - 1] ensures r.user == c.user && Backed(s, r) { assert r in rows; }
  }

  lemma {:induction false} LandedIsRow(c: Target, rows: seq<TrashRow>, q: string)
    ensures LandedRow(c, rows, q).Some? ==> LandedRow(c, rows, q).value in rows && Carries(LandedRow(c, rows, q).value)
  {
    if rows != [] {
      LandedIsRow(c, rows[..|rows| - 1], q);
      LandedIsRow(c, rows[..|rows| - 1], BlobOf(rows[|rows| - 1]));
      assert forall r :: r in rows[..|rows| - 1] ==> r in rows;
    }
  }

  lemma LandedIsFile(s: State, c: Target, rows: seq<TrashRow>, q: string)
    requires IsFile(s.fs, q) && RowsBacked(s, c, rows)
    ensures var n := Landed(s, q, LandedRow(c, rows, q)); n.Some? && n.value.File?
  {
    LandedIsRow(c, rows, q);
    if LandedRow(c, rows, q).Some? { assert Backed(s, LandedRow(c, rows, q).value); }
  }

  // A row that fails writes nothing.
  lemma FailedRowKeepsFiles(s: State, row: TrashRow, c: Target, q: string)
    requires c.toUser in s.users && IsFile(s.fs, q) && RestoreRow(s, row, c).1.Err?
    ensures At(RestoreRow(s, row, c).0.fs, q) == At(s.fs, q)
  {
    var op := DestObject(row, c);
    FileStays(s.fs, q, op);
    if Carries(row) {
      OpPathSlash(PathOf(DestKey(row, c)));
      FileStays(s.fs, q, OpParent(op));
    }
  }

  ghost predicate TrashKept(s: State, s': State) {
    s'.trash == s.trash && s'.users == s.users && s'.nextId >= s.nextId
  }

  lemma SaveAtKeepsTrash(s: State, k: Key, opDir: string, op: string, data: Bytes, size: nat)
    ensures TrashKept(s, SaveAt(s, k, opDir, op, data, size).0)
  {
  }

  lemma RowKeepsTrash(s: State, row: TrashRow, c: Target)
    ensures TrashKept(s, RestoreRow(s, row, c).0)
  {
    if Carries(row) { FileRowKeepsTrash(s, row, c, DestObject(row, c)); }
  }

  lemma FileRowKeepsTrash(s: State, row: TrashRow, c: Target, op: string)
    requires !row.isDir && row.blob.Some? && op == DestObject(row, c)
    ensures TrashKept(s, RestoreRow(s, row, c).0)
  {
    OpPathSlash(PathOf(DestKey(row, c)));
    match Read(TryCreateDir(s.fs, OpParent(op)), BlobPath(c.user, row.blob.value))
    case Err(_) =>
    case Ok(data) => SaveAtKeepsTrash(s, DestKey(row, c), OpParent(op), op, data, row.size);
  }

  lemma {:induction false} RowsKeepTrash(s: State, rows: seq<TrashRow>, c: Target)
    ensures var s' := RestoreRows(s, rows, c).0; s'.trash == s.trash && s'.users == s.users && s'.nextId >= s.nextId
  {
    if rows != [] {
      RowsKeepTrash(s, rows[..|rows| - 1], c);
      RowKeepsTrash(RestoreRows(s, rows[..|rows| - 1], c).0, rows[|rows| - 1], c);
    }
  }

  // One more row, on files that stand as the rows before it left them.
  lemma OneMoreLanded(s: State, s1: State, c: Target, r: TrashRow, q: string, before: Option<TrashRow>, source: Option<TrashRow>)
    requires c.toUser in s1.users && IsFile(s1.fs, q) && RestoreRow(s1, r, c).1.Ok? && At(s1.fs, q) == Landed(s, q, before)
    requires Carries(r) ==> r.user == c.user && IsFile(s1.fs, BlobOf(r)) && At(s1.fs, BlobOf(r)) == Landed(s, BlobOf(r), source)
    ensures At(RestoreRow(s1, r, c).0.fs, q) ==
            if Carries(r) && DestObject(r, c) == q then Landed(s, BlobOf(r), source) else Landed(s, q, before)
  {
    if Carries(r) && DestObject(r, c) == q {
      OwnFileWritten(s1, r, c);
    } else if !r.isDir && r.blob.None? {
    } else {
      OtherFileKept(s1, r, c, q);
    }
  }

  // The loop leaves every file of before as the rows say.
  lemma {:induction false} LoopEnds(s: State, c: Target, rows: seq<TrashRow>, q: string)
    requires c.toUser in s.users && IsFile(s.fs, q) && RowsBacked(s, c, rows) && RestoreRows(s, rows, c).1.Ok?
    ensures At(RestoreRows(s, rows, c).0.fs, q) == Landed(s, q, LandedRow(c, rows, q))
  {
    if rows != [] {
      var front, last := rows[..|rows| - 1], rows[|rows| - 1];
      RowsFront(s, c, rows);
      var s1 := LastRowRestored(s, rows, c);
      RowsKeepTrash(s, front, c);
      LoopEnds(s, c, front, q);
      LandedIsFile(s, c, front, q);
      var source := LandedRow(c, front, BlobOf(last));
      if Carries(last) {
        LoopEnds(s, c, front, BlobOf(last));
        LandedIsFile(s, c, front, BlobOf(last));
      }
      OneMoreLanded(s, s1, c, last, q, LandedRow(c, front, q), source);
      LandedUnfold(s, c, rows, q);
    }
  }

  lemma LandedUnfold(s: State, c: Target, rows: seq<TrashRow>, q: string)
    requires rows != []
    ensures var front, last := rows[..|rows| - 1], rows[|rows| - 1];
            Landed(s, q, LandedRow(c, rows, q)) ==
            if Carries(last) && DestObject(last, c) == q then Landed(s, BlobOf(last), LandedRow(c, front, BlobOf(last)))
            else Landed(s, q, LandedRow(c, front, q))
  {
  }

  // How many of the rows are restored.
  function RestoredCount(s: State, rows: seq<TrashRow>, c: Target): (m: nat)
    ensures m <= |rows|
  {
    if rows == [] then 0
    else if RestoreRows(s, rows[..|rows| - 1], c).1.Err? then RestoredCount(s, rows[..|rows| - 1], c)
    else if RestoreRows(s, rows, c).1.Ok? then |rows|
    else |rows| - 1
  }

  // Wherever it stops.
  lemma {:induction false} LoopFiles(s: State, c: Target, rows: seq<TrashRow>, q: string)
    requires c.toUser in s.users && IsFile(s.fs, q) && RowsBacked(s, c, rows)
    ensures RestoreRows(s, rows, c).1.Ok? ==> RestoredCount(s, rows, c) == |rows|
    ensures At(RestoreRows(s, rows, c).0.fs, q) == Landed(s, q, LandedRow(c, rows[..RestoredCount(s, rows, c)], q))
  {
    if RestoreRows(s, rows, c).1.Ok? {
      LoopEnds(s, c, rows, q);
      assert rows[..|rows|] == rows;
    } else if rows != [] {
      var n, front := |rows| - 1, rows[..|rows| - 1];
      RowsFront(s, c, rows);
      if RestoreRows(s, front, c).1.Err? {
        LoopFiles(s, c, front, q);
        assert front[..RestoredCount(s, front, c)] == rows[..RestoredCount(s, front, c)];
      } else {
        LoopEnds(s, c, front, q);
        LandedIsFile(s, c, front, q);
        RowsKeepTrash(s, front, c);
        FailedRowKeepsFiles(RestoreRows(s, front, c).0, rows[n], c, q);
      }
    }
  }

  // ---- Integrity ---------------------------------------------------------------------------------------

  // What stands at the row's blob after the loop has the row's size.
  predicate RowFits(c: Target, rows: seq<TrashRow>, row: TrashRow) {
    match LandedRow(c, rows, BlobOf(row)) case None => true case Some(r) => r.size == row.size
  }

  lemma RowAfterLoop(s: State, s': State, c: Target, rows: seq<TrashRow>, row: TrashRow)
    requires RowsBacked(s, c, rows) && !row.isDir && Backed(s, row) && s'.users == s.users
    requires At(s'.fs, BlobOf(row)) == Landed(s, BlobOf(row), LandedRow(c, rows, BlobOf(row)))
    ensures Backed(s', row) <==> RowFits(c, rows, row)
  {
    LandedIsRow(c, rows, BlobOf(row));
    if LandedRow(c, rows, BlobOf(row)).Some? { assert Backed(s, LandedRow(c, rows, BlobOf(row)).value); }
  }

  // Every file row of the trash does, and every one that is not restored.
  ghost predicate AllFit(trash: Trash, c: Target, rows: seq<TrashRow>) {
    forall j {:trigger trash[j]} :: j in trash && !trash[j].isDir ==> RowFits(c, rows, trash[j])
  }

  ghost predicate OthersFit(trash: Trash, c: Target, rows: seq<TrashRow>) {
    forall j {:trigger trash[j]} :: j in trash && !trash[j].isDir && !Below(trash[j], c) ==> RowFits(c, rows, trash[j])
  }

  // A loop that stops has dropped no row.
  lemma StoppedLoopIntegrity(s: State, c: Target, rows: seq<TrashRow>)
    requires Integrity(s) && c.toUser in s.users && RowsBacked(s, c, rows)
    ensures Integrity(RestoreRows(s, rows, c).0) <==> AllFit(s.trash, c, rows[..RestoredCount(s, rows, c)])
  {
    var s', done := RestoreRows(s, rows, c).0, rows[..RestoredCount(s, rows, c)];
    RowsKeepTrash(s, rows, c);
    forall r | r in done ensures r.user == c.user && Backed(s, r) { assert r in rows; }
    forall j {:trigger s.trash[j]} | j in s.trash && !s.trash[j].isDir
      ensures Backed(s', s'.trash[j]) <==> RowFits(c, done, s.trash[j])
    {
      assert Backed(s, s.trash[j]);
      LoopFiles(s, c, rows, BlobOf(s.trash[j]));
      RowAfterLoop(s, s', c, done, s.trash[j]);
    }
    BackedRows(s, s');
  }

  // Rows that are as before share no blob: the trash is whole when each of them is backed.
  lemma BackedRows(s: State, s': State)
    requires Integrity(s) && forall i {:trigger s'.trash[i]} :: i in s'.trash ==> i in s.trash && s'.trash[i] == s.trash[i]
    ensures Integrity(s') <==> forall i {:trigger s'.trash[i]} :: i in s'.trash ==> Backed(s', s'.trash[i])
  {
  }

  // The clean-up drops the restored rows and their blobs only.
  lemma CleanUpReads(s1: State, dir: string, name: string, c: Target, rows: seq<TrashRow>, j: nat)
    requires j in s1.trash && !s1.trash[j].isDir && !Below(s1.trash[j], c)
    requires forall r {:trigger r in rows} :: r in rows && Carries(r) ==> BlobOf(r) != BlobOf(s1.trash[j])
    ensures var s' := CleanedUp(s1, dir, name, c, rows);
            && j in s'.trash && s'.trash[j] == s1.trash[j] && At(s'.fs, BlobOf(s1.trash[j])) == At(s1.fs, BlobOf(s1.trash[j]))
  {
    AtDeleteBlobs(s1.fs, rows, BlobOf(s1.trash[j]));
    forall m | 0 <= m < |rows| && !rows[m].isDir && rows[m].blob.Some?
      ensures BlobOf(s1.trash[j]) != BlobPath(rows[m].user, rows[m].blob.value)
    {
      assert rows[m] in rows;
    }
  }

  // The rows of a restore against the rest of the trash.
  lemma RestApart(s: State, c: Target, rows: seq<TrashRow>, ids: seq<nat>, j: nat)
    requires Named(s.users) && Integrity(s) && BelowRows(s.trash, c, rows, ids) && j in s.trash && !s.trash[j].isDir && !Below(s.trash[j], c)
    ensures forall r {:trigger r in rows} :: r in rows && Carries(r) ==> BlobOf(r) != BlobOf(s.trash[j])
  {
    forall r | r in rows && Carries(r) ensures BlobOf(r) != BlobOf(s.trash[j]) {
      var i :| 0 <= i < |rows| && rows[i] == r;
      assert ids[i] in s.trash;
      BlobsApart(s, ids[i], j);
    }
  }

  lemma QueriedBacked(s: State, c: Target, rows: seq<TrashRow>, ids: seq<nat>)
    requires Integrity(s) && BelowRows(s.trash, c, rows, ids)
    ensures RowsBacked(s, c, rows)
  {
    forall r | r in rows ensures r.user == c.user && Backed(s, r) {
      var i :| 0 <= i < |rows| && rows[i] == r;
      assert Backed(s, s.trash[ids[i]]);
    }
  }

  lemma CleanedIntegrity(s: State, s1: State, dir: string, name: string, c: Target, rows: seq<TrashRow>, ids: seq<nat>)
    requires Named(s.users) && Integrity(s) && BelowRows(s.trash, c, rows, ids) && c.toUser in s.users
    requires RestoreRows(s, rows, c) == (s1, Ok(()))
    ensures Integrity(CleanedUp(s1, dir, name, c, rows)) <==> OthersFit(s.trash, c, rows)
  {
    var s' := CleanedUp(s1, dir, name, c, rows);
    QueriedBacked(s, c, rows, ids);
    RowsKeepTrash(s, rows, c);
    forall j {:trigger s.trash[j]} | j in s.trash && !s.trash[j].isDir && !Below(s.trash[j], c)
      ensures j in s'.trash && s'.trash[j] == s.trash[j] && (Backed(s', s'.trash[j]) <==> RowFits(c, rows, s.trash[j]))
    {
      assert Backed(s, s.trash[j]);
      LoopEnds(s, c, rows, BlobOf(s.trash[j]));
      RestApart(s, c, rows, ids, j);
      CleanUpReads(s1, dir, name, c, rows, j);
      RowAfterLoop(s, s', c, rows, s.trash[j]);
    }
    BackedRows(s, s');
  }

  // A directory restored anywhere: if it succeeds the trash stays whole exactly when every row that stays
  // has the size of what stands at its blob then; if it stops, exactly when every row has.
  lemma RestoreOverBlobs(s: State, dir: string, name: string, c: Target, rows: seq<TrashRow>, ids: seq<nat>)
    requires Valid(s) && Integrity(s) && c.toUser in s.users && "/" <= c.to && BelowRows(s.trash, c, rows, ids)
    ensures var (s', r) := RestoreDirResult(s, dir, name, c, rows);
            var s0 := s.(fs := TryCreateDir(s.fs, ParentOp(c.toUser, Parent(c.to))));
            && (r.Ok? ==> (Integrity(s') <==> OthersFit(s.trash, c, rows)))
            && (r.Err? ==> (Integrity(s') <==> AllFit(s.trash, c, rows[..RestoredCount(s0, rows, c)])))
  {
    var op := ParentOp(c.toUser, Parent(c.to));
    var s0 := s.(fs := TryCreateDir(s.fs, op));
    CreateDirAdds(s.fs, op);
    AddedDirsIntegrity(s, s0);
    var (s1, r) := RestoreRows(s0, rows, c);
    RestoreOutcome(s, s0, s1, r, dir, name, c, rows);
    QueriedBacked(s0, c, rows, ids);
    if r.Ok? {
      OnlyOk(r);
      CleanedIntegrity(s0, s1, dir, name, c, rows, ids);
    } else {
      StoppedLoopIntegrity(s0, c, rows);
    }
  }

  lemma RestoreOutcome(s: State, s0: State, s1: State, r: Outcome, dir: string, name: string, c: Target, rows: seq<TrashRow>)
    requires "/" <= c.to && s0 == s.(fs := TryCreateDir(s.fs, ParentOp(c.toUser, Parent(c.to)))) && RestoreRows(s0, rows, c) == (s1, r)
    ensures RestoreDirResult(s, dir, name, c, rows) == (if r.Err? then s1 else CleanedUp(s1, dir, name, c, rows), r)
  {
  }

  lemma WrittenOver(s: State, row: TrashRow, c: Target, user: string, h: nat)
    requires WellFormed(s.fs) && c.toUser in s.users && Carries(row) && IsFile(s.fs, BlobPath(c.user, row.blob.value))
    requires DestObject(row, c) == BlobPath(user, h) && IsFile(s.fs, BlobPath(user, h))
    ensures RestoreRows(s, [row], c).1.Ok?
  {
    BlobIsChild(user, h);
    LastSlashOfChild(BlobBase(user), UuidText(h));
    InPlace(s.fs, BlobBase(user), UuidText(h), s.fs[BlobPath(c.user, row.blob.value)].data);
    assert [row][..0] == [] && RestoreRows(s, [row][..0], c) == (s, Ok(()));
  }

  // The one restored file leads to the blob of another row.
  ghost predicate LandsOnBlob(s: State, c: Target, id: nat, other: nat) {
    && Valid(s) && Integrity(s) && c.toUser in s.users && "/" <= c.to
    && id in s.trash && other in s.trash && other != id && Carries(s.trash[id]) && Carries(s.trash[other])
    && BelowRows(s.trash, c, [s.trash[id]], [id]) && DestObject(s.trash[id], c) == BlobOf(s.trash[other])
  }

  lemma OneRowLands(s: State, c: Target, id: nat, other: nat)
    requires LandsOnBlob(s, c, id, other)
    ensures RestoreDirResult(s, "", "", c, [s.trash[id]]).1.Ok?
  {
    var op := ParentOp(c.toUser, Parent(c.to));
    var s0 := s.(fs := TryCreateDir(s.fs, op));
    CreateDirWellFormed(s.fs, op);
    assert Backed(s, s.trash[id]) && Backed(s, s.trash[other]) && s.trash[id].user == c.user;
    FileStays(s.fs, BlobOf(s.trash[id]), op);
    FileStays(s.fs, BlobOf(s.trash[other]), op);
    WrittenOver(s0, s.trash[id], c, s.trash[other].user, s.trash[other].blob.value);
  }

  // Such a restore succeeds, and keeps the trash whole exactly when both files have one size.
  lemma RestoreOverBlob(s: State, dir: string, name: string, c: Target, id: nat, other: nat)
    requires LandsOnBlob(s, c, id, other)
    ensures var (s', r) := RestoreDirResult(s, dir, name, c, [s.trash[id]]);
            r.Ok? && (Integrity(s') <==> s.trash[id].size == s.trash[other].size)
  {
    OneRowLands(s, c, id, other);
    RestoreOverBlobs(s, dir, name, c, [s.trash[id]], [id]);
    OneRowFits(s, c, id, other);
  }

  lemma OneRowFits(s: State, c: Target, id: nat, other: nat)
    requires LandsOnBlob(s, c, id, other)
    ensures OthersFit(s.trash, c, [s.trash[id]]) <==> s.trash[id].size == s.trash[other].size
  {
    var row := s.trash[id];
    assert [row][..0] == [];
    forall q ensures LandedRow(c, [row], q) == if DestObject(row, c) == q then Some(row) else None {
      assert LandedRow(c, [row][..0], q) == None && LandedRow(c, [row][..0], BlobOf(row)) == None;
    }
    NotBelow(s.trash, c, id, other);
    forall j | j in s.trash && Carries(s.trash[j]) && BlobOf(s.trash[j]) == DestObject(row, c) ensures j == other {
      if j != other { BlobsApart(s, j, other); }
    }
    assert forall j :: j in s.trash && !s.trash[j].isDir ==> Carries(s.trash[j]) by {
      forall j | j in s.trash && !s.trash[j].isDir ensures Carries(s.trash[j]) { assert Backed(s, s.trash[j]); }
    }
  }

  lemma NotBelow(trash: Trash, c: Target, id: nat, other: nat)
    requires id in trash && other in trash && other != id && BelowRows(trash, c, [trash[id]], [id])
    ensures !Below(trash[other], c)
  {
  }

  // ---- The state stays valid -----------------------------------------------------------------------------

  // A target at or below a home, .Trash included.
  ghost predicate HomeTarget(s: State, c: Target) {
    c.toUser in s.users && Normal(c.to) && Under(c.to, Home(c.toUser))
  }

  lemma DestBelow(row: TrashRow, c: Target) returns (p: string)
    requires Normal(c.to) && Under(c.to, Home(c.toUser))
    ensures DestObject(row, c) == Phys(p) && Under(p, Home(c.toUser)) && "/User/" <= p
  {
    HomeBelow(c.toUser, c.to);
    var x := DestTail(row, c);
    p := NormalizePath(PathOf(DestKey(row, c)));
    NormalizeAppend(c.to, x);
    AboveTransitive(Home(c.toUser), c.to, p);
    HomeBelow(c.toUser, p);
  }

  lemma DestParent(p: string)
    requires "/User/" <= p
    ensures '/' in Phys(p) && OpParent(Phys(p)) != ""
  {
    assert Phys(p)[4] == '/' && Phys(p)[1..][3] == '/';
  }

  lemma RowSound(s: State, row: TrashRow, c: Target)
    requires Sound(s.users, s.fs) && HomeTarget(s, c) && (Carries(row) ==> !TrashPlace(c.toUser, DestObject(row, c)))
    ensures Sound(s.users, RestoreRow(s, row, c).0.fs)
  {
    var p := DestBelow(row, c);
    DestParent(p);
    RowSoundAt(s, row, c, p);
  }

  lemma RowSoundAt(s: State, row: TrashRow, c: Target, p: string)
    requires Sound(s.users, s.fs) && c.toUser in s.users && DestObject(row, c) == Phys(p) && Under(p, Home(c.toUser))
    requires '/' in Phys(p) && OpParent(Phys(p)) != "" && (Carries(row) ==> !TrashPlace(c.toUser, Phys(p)))
    ensures Sound(s.users, RestoreRow(s, row, c).0.fs)
  {
    DirSound(s.users, s.fs, Phys(p));
    DirSound(s.users, s.fs, OpParent(Phys(p)));
    if Carries(row) {
      OwnTrashPlace(s.users, s.fs, c.toUser, p);
      match Read(TryCreateDir(s.fs, OpParent(Phys(p))), BlobPath(c.user, row.blob.value))
      case Err(_) =>
      case Ok(data) => SaveSound(s, DestKey(row, c), OpParent(Phys(p)), Phys(p), data, row.size);
    }
  }

  lemma DirSound(users: set<string>, fs: Tree, op: string)
    requires Sound(users, fs) && op != ""
    ensures Sound(users, TryCreateDir(fs, op))
  {
    CreateDirAdds(fs, op);
    CreateDirWellFormed(fs, op);
    AddedDirsSound(users, fs, TryCreateDir(fs, op));
  }

  lemma SaveSound(s: State, k: Key, opDir: string, op: string, data: Bytes, size: nat)
    requires Sound(s.users, s.fs) && opDir != "" && op != "" && NoTrashPlace(s.users, op)
    ensures Sound(s.users, SaveAt(s, k, opDir, op, data, size).0.fs)
  {
    DirSound(s.users, s.fs, opDir);
    var fs1 := TryCreateDir(s.fs, opDir);
    if Write(fs1, op, data).Ok? {
      WriteAdds(fs1, op, data);
      WriteWellFormed(fs1, op, data);
      AddedFileSound(s.users, fs1, Write(fs1, op, data).value, op, data);
    }
  }

  ghost predicate NoTrashDest(c: Target, rows: seq<TrashRow>) {
    forall r {:trigger r in rows} :: r in rows && Carries(r) ==> !TrashPlace(c.toUser, DestObject(r, c))
  }

  lemma {:induction false} RowsSound(s: State, rows: seq<TrashRow>, c: Target)
    requires Sound(s.users, s.fs) && HomeTarget(s, c) && NoTrashDest(c, rows)
    ensures Sound(s.users, RestoreRows(s, rows, c).0.fs)
  {
    if rows != [] {
      var n, front := |rows| - 1, rows[..|rows| - 1];
      forall r | r in front && Carries(r) ensures !TrashPlace(c.toUser, DestObject(r, c)) { assert r in rows; }
      RowsSound(s, front, c);
      RowsKeepTrash(s, front, c);
      assert rows[n] in rows;
      if RestoreRows(s, front, c).1.Ok? { RowSound(RestoreRows(s, front, c).0, rows[n], c); }
    }
  }

  lemma {:induction false} BlobsDeletedSound(users: set<string>, fs: Tree, rows: seq<TrashRow>)
    requires Sound(users, fs) && forall r {:trigger r in rows} :: r in rows && !r.isDir ==> r.user in users
    ensures Sound(users, DeleteBlobs(fs, rows))
  {
    if rows != [] {
      var n, front := |rows| - 1, rows[..|rows| - 1];
      forall r | r in front && !r.isDir ensures r.user in users { assert r in rows; }
      BlobsDeletedSound(users, fs, front);
      assert rows[n] in rows;
      if Carries(rows[n]) { BlobDeletedSound(users, DeleteBlobs(fs, front), rows[n].user, rows[n].blob.value); }
    }
  }

  // No row of the subtree leads to a blob, to .Trash or to .Trash/blobs.
  ghost predicate Clear(trash: Trash, c: Target) {
    forall i {:trigger trash[i]} :: i in trash && Below(trash[i], c) && Carries(trash[i]) ==>
      !Owned(trash, DestObject(trash[i], c)) && !TrashPlace(c.toUser, DestObject(trash[i], c))
  }

  lemma {:induction false} NoneLands(trash: Trash, c: Target, rows: seq<TrashRow>, q: string)
    requires Owned(trash, q)
    requires forall r {:trigger r in rows} :: r in rows && Carries(r) ==> !Owned(trash, DestObject(r, c))
    ensures LandedRow(c, rows, q) == None
  {
    if rows != [] {
      var front := rows[..|rows| - 1];
      forall r | r in front && Carries(r) ensures !Owned(trash, DestObject(r, c)) { assert r in rows; }
      NoneLands(trash, c, front, q);
      assert rows[|rows| - 1] in rows;
    }
  }

  lemma ClearFits(s: State, c: Target, rows: seq<TrashRow>)
    requires Integrity(s) && forall r {:trigger r in rows} :: r in rows && Carries(r) ==> !Owned(s.trash, DestObject(r, c))
    ensures AllFit(s.trash, c, rows) && OthersFit(s.trash, c, rows)
  {
    forall j {:trigger s.trash[j]} | j in s.trash && !s.trash[j].isDir ensures RowFits(c, rows, s.trash[j]) {
      assert Backed(s, s.trash[j]) && Owned(s.trash, BlobOf(s.trash[j]));
      NoneLands(s.trash, c, rows, BlobOf(s.trash[j]));
    }
  }

  lemma ClearRows(s: State, c: Target, rows: seq<TrashRow>, ids: seq<nat>, m: nat)
    requires Integrity(s) && Clear(s.trash, c) && BelowRows(s.trash, c, rows, ids) && m <= |rows|
    ensures AllFit(s.trash, c, rows[..m]) && OthersFit(s.trash, c, rows) && NoTrashDest(c, rows)
  {
    forall r | r in rows && Carries(r) ensures !Owned(s.trash, DestObject(r, c)) && !TrashPlace(c.toUser, DestObject(r, c)) {
      var i :| 0 <= i < |rows| && rows[i] == r;
      assert rows[i] == s.trash[ids[i]];
    }
    forall r | r in rows[..m] && Carries(r) ensures !Owned(s.trash, DestObject(r, c)) { assert r in rows; }
    ClearFits(s, c, rows);
    ClearFits(s, c, rows[..m]);
  }

  // Then a restore anywhere keeps the trash whole and the state valid, wherever it stops.
  lemma ClearRestoreKeeps(s: State, dir: string, name: string, c: Target, rows: seq<TrashRow>, ids: seq<nat>)
    requires Valid(s) && Integrity(s) && HomeTarget(s, c) && "/" <= c.to && BelowRows(s.trash, c, rows, ids) && Clear(s.trash, c)
    ensures var s' := RestoreDirResult(s, dir, name, c, rows).0; Unguessed(s') ==> KeepsTrash(s, s', false)
  {
    var s0 := s.(fs := TryCreateDir(s.fs, ParentOp(c.toUser, Parent(c.to))));
    ClearRows(s, c, rows, ids, RestoredCount(s0, rows, c));
    RestoreOverBlobs(s, dir, name, c, rows, ids);
    RestoreDirSound(s, dir, name, c, rows, ids);
    SoundValid(s, RestoreDirResult(s, dir, name, c, rows).0);
  }

  lemma RestoreDirSound(s: State, dir: string, name: string, c: Target, rows: seq<TrashRow>, ids: seq<nat>)
    requires Valid(s) && Integrity(s) && HomeTarget(s, c) && "/" <= c.to && BelowRows(s.trash, c, rows, ids) && NoTrashDest(c, rows)
    ensures var s' := RestoreDirResult(s, dir, name, c, rows).0;
            && Sound(s.users, s'.fs) && s'.users == s.users && s'.nextId >= s.nextId
            && forall i {:trigger s'.trash[i]} :: i in s'.trash ==> i in s.trash && s'.trash[i] == s.trash[i]
  {
    var op := ParentOp(c.toUser, Parent(c.to));
    var s0 := s.(fs := TryCreateDir(s.fs, op));
    DirSound(s.users, s.fs, op);
    var (s1, r) := RestoreRows(s0, rows, c);
    RestoreOutcome(s, s0, s1, r, dir, name, c, rows);
    RowsSound(s0, rows, c);
    RowsKeepTrash(s0, rows, c);
    QueriedBacked(s, c, rows, ids);
    forall r | r in rows && !r.isDir ensures r.user in s.users { assert Backed(s, r); }
    BlobsDeletedSound(s.users, s1.fs, rows);
  }

  // ---- An input that harms -------------------------------------------------------------------------------

  // In the trash of u: the directory /d, the file "00" of its directory .Trash/blobs, and f from /e, whose
  // blob is called "00" as well.
  function LandingState(): State {
    var fs1 := TryCreateDir(map[], BlobBase("u"))[BlobPath("u", 0) := File([])];
    State({"u"}, fs1[BlobPath("u", 1) := File([0])], map[],
          map[1 := TrashRow("u", "/", "d", true, 0, None, 0),
              2 := TrashRow("u", "/d/.Trash/blobs", "00", false, 0, Some(0), 0),
              3 := TrashRow("u", "/e", "f", false, 1, Some(1), 0)], 4)
  }

  function LandingTarget(): Target {
    Target("u", "/d", "u", Home("u"))
  }

  lemma LandingTree()
    ensures WellFormed(LandingState().fs)
    ensures forall q {:trigger At(LandingState().fs, q)} ::
              At(LandingState().fs, q) == if q == BlobPath("u", 1) then Some(File([0]))
                                          else if q == BlobPath("u", 0) then Some(File([]))
                                          else if q in Chain(BlobBase("u")) then Some(Dir) else None
  {
    var base := BlobBase("u");
    var fs0: Tree := map[];
    assert !Blocked(fs0, Chain(base));
    CreateDirWellFormed(fs0, base);
    var fs1 := TryCreateDir(fs0, base);
    forall q ensures At(fs1, q) == if q in Chain(base) then Some(Dir) else None { AtCreateDir(fs0, base, q); }
    var fs := LandingState().fs;
    BlobIsChild("u", 0);
    BlobIsChild("u", 1);
    forall q, a {:trigger Above(a, q)} | q in fs && a != "" && Above(a, q) ensures IsDir(fs, a) {
      if q == BlobPath("u", 0) { AboveChild(a, base, UuidText(0)); }
      else if q == BlobPath("u", 1) { AboveChild(a, base, UuidText(1)); }
      else { AboveTransitive(a, q, base); }
      assert a in Chain(base);
    }
  }

  lemma UuidTexts()
    ensures UuidText(0) == "0" && UuidText(1) == "00" && BlobPath("u", 0) != BlobPath("u", 1)
  {
    BlobNamesDiffer("u", 0, 1);
  }

  lemma LandingUnguessed(h: nat)
    requires h >= 4
    ensures BlobPath("u", h) !in LandingState().fs
  {
    LandingTree();
    BlobNotInChain("u", "u", h);
    BlobNamesDiffer("u", h, 0);
    BlobNamesDiffer("u", h, 1);
    assert At(LandingState().fs, BlobPath("u", h)) == None;
  }

  lemma LandingDirs()
    ensures var fs := LandingState().fs; IsDir(fs, Phys(Home("u"))) && IsDir(fs, Phys(TrashRoot("u"))) && IsDir(fs, BlobBase("u"))
  {
    var fs := LandingState().fs;
    LandingTree();
    TrashDirsInChain("u");
    BlobPathIsNoSystemDir("u", 0, "u");
    BlobPathIsNoSystemDir("u", 1, "u");
    assert At(fs, Phys(Home("u"))) == Some(Dir) && At(fs, Phys(TrashRoot("u"))) == Some(Dir) && At(fs, BlobBase("u")) == Some(Dir);
  }

  lemma LandingRowsSane()
    ensures var s := LandingState(); forall i {:trigger i in s.trash} :: i in s.trash ==> RowSane(i, s.trash[i], s.nextId)
  {
  }

  lemma LandingValid()
    ensures Valid(LandingState())
  {
    LandingTree();
    LandingDirs();
    LandingRowsSane();
    forall h: nat | h >= 4 ensures BlobPath("u", h) !in LandingState().fs { LandingUnguessed(h); }
    OneUserValid(LandingState(), "u");
  }

  lemma OneUserValid(s: State, u: string)
    requires s.users == {u} && ValidName(u) && WellFormed(s.fs)
    requires IsDir(s.fs, Phys(Home(u))) && IsDir(s.fs, Phys(TrashRoot(u))) && IsDir(s.fs, BlobBase(u))
    requires forall h: nat {:trigger BlobPath(u, h)} :: h >= s.nextId ==> BlobPath(u, h) !in s.fs
    requires forall i {:trigger i in s.trash} :: i in s.trash ==> RowSane(i, s.trash[i], s.nextId)
    ensures Valid(s)
  {
  }

  lemma TrashDirsInChain(u: string)
    requires '/' !in u
    ensures Phys(Home(u)) in Chain(BlobBase(u)) && Phys(TrashRoot(u)) in Chain(BlobBase(u)) && BlobBase(u) in Chain(BlobBase(u))
  {
    assert Phys(TrashRoot(u)) == Child(Phys(Home(u)), ".Trash") && BlobBase(u) == Child(Phys(TrashRoot(u)), "blobs");
    AboveChild(Phys(TrashRoot(u)), Phys(TrashRoot(u)), "blobs");
    AboveChild(Phys(Home(u)), Phys(Home(u)), ".Trash");
    AboveChild(Phys(Home(u)), Phys(TrashRoot(u)), "blobs");
  }

  lemma LandingIntegrity()
    ensures Integrity(LandingState())
  {
    var s := LandingState();
    LandingTree();
    UuidTexts();
    assert At(s.fs, BlobPath("u", 0)) == Some(File([])) && At(s.fs, BlobPath("u", 1)) == Some(File([0]));
    assert Backed(s, s.trash[2]) && Backed(s, s.trash[3]);
    assert s.trash.Keys == {1, 2, 3};
  }

  lemma LandingSelects()
    ensures Selects("/d", "/d/.Trash/blobs") && !Selects("/d", "/e") && !Selects("/d", "/")
  {
    LiteralSubtree("/d", "/");
    DescendantsSelected("/d", "/d/.Trash/blobs");
    LiteralSubtree("/d", "/e");
  }

  lemma LandingRows()
    ensures BelowRows(LandingState().trash, LandingTarget(), [LandingState().trash[2]], [2])
  {
    LandingSelects();
    LandingQuery(LandingState().trash, LandingTarget());
  }

  lemma LandingQuery(trash: Trash, c: Target)
    requires trash.Keys == {1, 2, 3} && !Below(trash[1], c) && Below(trash[2], c) && !Below(trash[3], c)
    ensures BelowRows(trash, c, [trash[2]], [2])
  {
  }

  lemma LandingTail()
    ensures RelTail("/d/.Trash/blobs", "/d") == ".Trash/blobs"
  {
    assert "/d/.Trash/blobs"[|"/d"|..] == "/.Trash/blobs" && "/.Trash/blobs"[|"/"|..] == ".Trash/blobs";
    assert ".Trash/blobs"[0] == '.' && TrimStart(".Trash/blobs", "/") == ".Trash/blobs";
  }

  lemma LandingPath() returns (p: string)
    ensures p == PathOf(DestKey(LandingState().trash[2], LandingTarget())) && p == Child(Child(Child(Home("u"), ".Trash"), "blobs"), "00")
  {
    LandingTail();
    p := PathOf(DestKey(LandingState().trash[2], LandingTarget()));
  }

  lemma LandingPlace()
    ensures DestObject(LandingState().trash[2], LandingTarget()) == BlobPath("u", 1)
  {
    var p := LandingPath();
    LandingNormal();
    NormalizeIdempotent(p);
    LandingObject(p);
  }

  lemma LandingObject(p: string)
    requires p == Child(Child(Child(Home("u"), ".Trash"), "blobs"), "00")
    ensures Phys(p) == BlobPath("u", 1)
  {
    UuidTexts();
    BlobPathFacts("u", 1);
    assert Child(Child(Home("u"), ".Trash"), "blobs") == TrashRoot("u") + "/blobs";
  }

  lemma LandingNormal()
    ensures Normal(Home("u")) && Normal(Child(Child(Child(Home("u"), ".Trash"), "blobs"), "00"))
  {
    var parts := ["User", "u"];
    assert ValidParts(parts) && Render(parts) == "/User/u" && Home("u") == "/User/u";
    NormalChild(Home("u"), ".Trash");
    NormalChild(Child(Home("u"), ".Trash"), "blobs");
    NormalChild(Child(Child(Home("u"), ".Trash"), "blobs"), "00");
  }

  lemma LandingShape()
    ensures var s, c := LandingState(), LandingTarget();
            && 1 in s.trash && 2 in s.trash && 3 in s.trash && Carries(s.trash[2]) && Carries(s.trash[3])
            && s.trash[1].isDir && SameItem(s.trash[1], "u", "/", "d") && s.trash[2].size != s.trash[3].size
            && BlobOf(s.trash[3]) == BlobPath("u", 1) && c.toUser in s.users && "/" <= c.to
  {
  }

  lemma LandingLands()
    ensures LandsOnBlob(LandingState(), LandingTarget(), 2, 3)
  {
    LandingShape();
    LandingValid();
    LandingIntegrity();
    LandingRows();
    LandingPlace();
  }

  // Restoring /Trash/d onto the home of u succeeds, and the row of f is left with bytes of another size.
  lemma LandingHarms()
    ensures var s, c := LandingState(), LandingTarget();
            && LandsOnBlob(s, c, 2, 3) && HomeTarget(s, c) && s.trash[1].isDir && SameItem(s.trash[1], "u", "/", "d")
            && var (s', r) := RestoreDirResult(s, "/", "d", c, [s.trash[2]]); r.Ok? && !Integrity(s')
  {
    LandingShape();
    LandingNormal();
    LandingLands();
    RestoreOverBlob(LandingState(), "/", "d", LandingTarget(), 2, 3);
  }
}
