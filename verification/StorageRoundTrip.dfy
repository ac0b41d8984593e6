/**
  Restoring what was trashed: what a restore brings back, and what a delete followed by a
  restore does to contents, index, trash rows and blobs.
 */
module StorageRoundTrip {
  import opened Wrappers
  import opened Text
  import opened VirtualPath
  import opened Like
  import opened FileTree
  import opened StorageState
  import opened StorageIndex
  import opened StorageTrash
  import opened StorageRestore
  import opened TrashIntegrity

  // Restoring a single file succeeds and keeps the agreement exactly when its blob is there, the
  // target's parent is a directory and the target is not one.
  lemma RestoreFileAgreement(s: State, row: TrashRow, dst: Key)
    requires Valid(s) && Agree(s) && InDomain(s.users, dst) && Normal(dst.dir)
    requires row.user in s.users
    ensures var (s', r) := RestoreFileResult(s, row, dst);
            && Valid(s')
            && (r.Ok? && Agree(s') <==>
                && row.blob.Some? && IsFile(s.fs, BlobPath(row.user, row.blob.value))
                && IsDir(s.fs, Phys(dst.dir)) && !IsDir(s.fs, Phys(PathOf(dst))))
  {
    if row.blob.Some? && IsFile(s.fs, BlobPath(row.user, row.blob.value)) {
      var data := s.fs[BlobPath(row.user, row.blob.value)].data;
      SaveAgreement(s, dst, data);
      AfterTheSave(s, row, dst, data, SaveResult(s, dst, data).0);
    }
  }

  lemma AfterTheSave(s: State, row: TrashRow, dst: Key, data: Bytes, s1: State)
    requires row.blob.Some? && Read(s.fs, BlobPath(row.user, row.blob.value)) == Ok(data)
    requires '/' !in dst.name && Tracked(dst.user, PathOf(dst))
    requires s1 == SaveResult(s, dst, data).0 && Valid(s1) && row.user in s1.users
    ensures Valid(RestoreFileResult(s, row, dst).0)
    ensures Agree(RestoreFileResult(s, row, dst).0) <==> Agree(s1)
    ensures RestoreFileResult(s, row, dst).1 == SaveResult(s, dst, data).1
  {
    RestoreSaves(s, dst, data);
    if SaveResult(s, dst, data).1.Ok? {
      BlobGone(s1, RestoreFileResult(s, row, dst).0, row.user, row.blob.value);
    }
  }

  lemma RestoreOntoHome(s: State, row: TrashRow, owner: string)
    requires Valid(s) && owner in s.users && row.blob.Some? && IsFile(s.fs, BlobPath(row.user, row.blob.value))
    ensures RestoreFileResult(s, row, Key(owner, "/User", owner))
            == (s.(fs := TryCreateDir(s.fs, Phys(Child(Home(owner), "User")))), Err(Io))
  {
    assert PathOf(Key(owner, "/User", owner)) == Home(owner) && IsDir(s.fs, Phys(Home(owner)));
    DirectoryStays(s.fs, Phys(Home(owner)), Phys(Child(Home(owner), "User")));
  }

  lemma DirectoryStays(fs: Tree, p: string, op: string)
    requires IsDir(fs, p)
    ensures IsDir(TryCreateDir(fs, op), p)
  {
  }

  // Restoring a file onto a home fails, and leaves tree and index in agreement exactly when the home
  // already holds something called User: the parent of the home is resolved to a directory of that
  // name inside it, which is made and never indexed.
  lemma RestoreOntoHomeAgreement(s: State, row: TrashRow, owner: string)
    requires Valid(s) && Agree(s) && owner in s.users
    requires row.blob.Some? && IsFile(s.fs, BlobPath(row.user, row.blob.value))
    ensures var (s', r) := RestoreFileResult(s, row, Key(owner, "/User", owner));
            r == Err(Io) && (Agree(s') <==> Phys(Child(Home(owner), "User")) in s.fs)
  {
    RestoreOntoHome(s, row, owner);
    HomeChildTracked(owner, "User");
    assert IsDir(s.fs, Phys(Home(owner)));
    DirectoryAgreement(s, Key(owner, Home(owner), "User"));
  }

  // Making a tracked directory without indexing it.
  lemma DirectoryAgreement(s: State, k: Key)
    requires Valid(s) && Agree(s) && InDomain(s.users, k) && IsDir(s.fs, Phys(k.dir))
    ensures Agree(s.(fs := TryCreateDir(s.fs, Phys(PathOf(k))))) <==> Phys(PathOf(k)) in s.fs
  {
    var s' := s.(fs := TryCreateDir(s.fs, Phys(PathOf(k))));
    if Phys(PathOf(k)) !in s.fs {
      AddChildDir(s.fs, k.dir, k.name);
      assert InDomain(s'.users, k) && IndexView(s'.cloud, k) == Absent;
    } else if IsDir(s.fs, Phys(PathOf(k))) {
      CreateExistingDir(s.fs, Phys(PathOf(k)));
    } else {
      assert Phys(PathOf(k)) in Chain(Phys(PathOf(k)));
    }
  }

  // Deleting a blob concerns neither the agreement nor the validity of the state.
  lemma BlobGone(s: State, s': State, user: string, h: nat)
    requires Valid(s) && user in s.users
    requires s'.fs == Delete(s.fs, BlobPath(user, h)) && s' == s.(fs := s'.fs, trash := s'.trash)
    requires forall i {:trigger i in s'.trash} :: i in s'.trash ==> i in s.trash && s'.trash[i] == s.trash[i]
    ensures Valid(s') && (Agree(s') <==> Agree(s))
  {
    DeleteWellFormed(s.fs, BlobPath(user, h));
    assert ValidName(user);
    forall u | u in s.users
      ensures IsDir(s'.fs, Phys(Home(u))) && !IsFile(s'.fs, Phys(TrashRoot(u))) && !IsFile(s'.fs, BlobBase(u))
    {
      BlobPathIsNoSystemDir(user, h, u);
    }
    forall j {:trigger InDomain(s.users, j)} | InDomain(s.users, j)
      ensures TreeView(s'.fs, PathOf(j)) == TreeView(s.fs, PathOf(j))
    {
      assert ValidName(j.user);
      BlobApartFromTracked(user, h, j.user, PathOf(j));
    }
    assert forall j :: InDomain(s'.users, j) <==> InDomain(s.users, j);
  }

  // ---- Rows of one directory come back ---------------------------------------------------------

  // Rows directly below the root, with their blobs, whose destinations are free.
  ghost predicate Restorable(s: State, c: Target, dst: Key, rows: seq<TrashRow>) {
    && SaneTarget(s, c) && dst.user == c.toUser && PathOf(dst) == c.to && '/' !in dst.name
    && IsDir(s.fs, Phys(dst.dir)) && !IsFile(s.fs, Phys(c.to))
    && (forall r {:trigger r in rows} :: r in rows ==> FreeRow(s, c, r))
    && (forall i, j {:trigger rows[i], rows[j]} :: 0 <= i < j < |rows| ==> rows[i].name != rows[j].name)
  }

  predicate FreeRow(s: State, c: Target, r: TrashRow) {
    && r.user == c.user && r.dir == c.root && ValidName(r.name)
    && At(s.fs, Phys(Child(c.to, r.name))) == None && Key(c.toUser, c.to, r.name) !in s.cloud
    && (r.isDir || (r.blob.Some? && At(s.fs, BlobPath(c.user, r.blob.value)).Some?
                    && At(s.fs, BlobPath(c.user, r.blob.value)).value.File?))
  }

  function Contents(s: State, c: Target, r: TrashRow): Option<Node> {
    if r.isDir then Some(Dir) else if r.blob.Some? then At(s.fs, BlobPath(c.user, r.blob.value)) else None
  }

  // The object at q once the rows are restored.
  function AfterRestoring(s: State, c: Target, rows: seq<TrashRow>, q: string): Option<Node> {
    if rows == [] then At(s.fs, q)
    else
      var r := rows[|rows| - 1];
      if q == Phys(Child(c.to, r.name)) then Contents(s, c, r)
      else if q == Phys(c.to) then Some(Dir)
      else AfterRestoring(s, c, rows[..|rows| - 1], q)
  }

  // The index entry of j once the rows are restored.
  function IndexAfterRestoring(s: State, c: Target, rows: seq<TrashRow>, j: Key): View {
    if rows == [] then IndexView(s.cloud, j)
    else
      var r := rows[|rows| - 1];
      if j == Key(c.toUser, c.to, r.name) then (if r.isDir then Directory else Regular(r.size))
      else IndexAfterRestoring(s, c, rows[..|rows| - 1], j)
  }

  lemma DestOfDirectRow(r: TrashRow, c: Target)
    requires r.dir == c.root && Normal(c.to) && c.to != "/" && ValidName(r.name)
    ensures DestKey(r, c) == Key(c.toUser, c.to, r.name)
    ensures OpPath(PathOf(DestKey(r, c))) == Phys(Child(c.to, r.name))
    ensures OpPath(PathOf(DestKey(r, c))) == Child(Phys(c.to), r.name)
    ensures '/' in OpPath(PathOf(DestKey(r, c))) && OpParent(OpPath(PathOf(DestKey(r, c)))) == Phys(c.to)
  {
    assert c.root[|c.root|..] == "";
    assert RelTail(r.dir, c.root) == "";
    NormalChild(c.to, r.name);
    NormalizeIdempotent(Child(c.to, r.name));
    assert Phys(Child(c.to, r.name)) == Child(Phys(c.to), r.name);
    LastSlashOfChild(Phys(c.to), r.name);
    OpPathSlash(PathOf(DestKey(r, c)));
  }

  // create_dir of the target when its parent is a directory.
  lemma MakeTarget(fs: Tree, dst: Key, q: string)
    requires WellFormed(fs) && '/' !in dst.name
    requires IsDir(fs, Phys(dst.dir)) && !IsFile(fs, Phys(PathOf(dst)))
    ensures CreateDir(fs, Phys(PathOf(dst))).Ok?
    ensures At(TryCreateDir(fs, Phys(PathOf(dst))), q) == if q == Phys(PathOf(dst)) then Some(Dir) else At(fs, q)
    ensures WellFormed(TryCreateDir(fs, Phys(PathOf(dst))))
  {
    ChainBelowDir(fs, dst.dir, dst.name);
    AtCreateDir(fs, Phys(PathOf(dst)), q);
    CreateDirWellFormed(fs, Phys(PathOf(dst)));
  }

  // One row: its object and its index row appear, and the target directory if it was missing.
  lemma RestoreRowWorks(s: State, r: TrashRow, c: Target, dst: Key, q: string, j: Key)
    requires Valid(s) && SaneTarget(s, c) && dst.user == c.toUser && PathOf(dst) == c.to && '/' !in dst.name
    requires IsDir(s.fs, Phys(dst.dir)) && !IsFile(s.fs, Phys(c.to)) && FreeRow(s, c, r)
    ensures RestoreRow(s, r, c).1.Ok?
    ensures At(RestoreRow(s, r, c).0.fs, q) ==
            if q == Phys(Child(c.to, r.name)) then Contents(s, c, r)
            else if q == Phys(c.to) then Some(Dir)
            else At(s.fs, q)
    ensures IndexView(RestoreRow(s, r, c).0.cloud, j) ==
            if j == Key(c.toUser, c.to, r.name) then (if r.isDir then Directory else Regular(r.size))
            else IndexView(s.cloud, j)
  {
    HomeBelow(c.toUser, c.to);
    DestOfDirectRow(r, c);
    if r.isDir { DirRowTree(s, r, c, dst, q); } else { FileRowTree(s, r, c, dst, q); }
    RestoreRowIndex(s, r, c, j);
  }

  lemma DirRowTree(s: State, r: TrashRow, c: Target, dst: Key, q: string)
    requires Valid(s) && SaneTarget(s, c) && dst.user == c.toUser && PathOf(dst) == c.to && '/' !in dst.name
    requires IsDir(s.fs, Phys(dst.dir)) && !IsFile(s.fs, Phys(c.to)) && FreeRow(s, c, r) && r.isDir
    requires DestKey(r, c) == Key(c.toUser, c.to, r.name) && OpPath(PathOf(DestKey(r, c))) == Phys(Child(c.to, r.name))
    ensures RestoreRow(s, r, c).1.Ok?
    ensures At(RestoreRow(s, r, c).0.fs, q) ==
            if q == Phys(Child(c.to, r.name)) || q == Phys(c.to) then Some(Dir) else At(s.fs, q)
  {
    DirBelowTarget(s.fs, dst, r.name, q);
  }

  lemma FileRowTree(s: State, r: TrashRow, c: Target, dst: Key, q: string)
    requires Valid(s) && SaneTarget(s, c) && dst.user == c.toUser && PathOf(dst) == c.to && '/' !in dst.name
    requires IsDir(s.fs, Phys(dst.dir)) && !IsFile(s.fs, Phys(c.to)) && FreeRow(s, c, r) && !r.isDir
    requires DestKey(r, c) == Key(c.toUser, c.to, r.name) && OpPath(PathOf(DestKey(r, c))) == Phys(Child(c.to, r.name))
    requires '/' in OpPath(PathOf(DestKey(r, c))) && OpParent(OpPath(PathOf(DestKey(r, c)))) == Phys(c.to)
    ensures RestoreRow(s, r, c).1.Ok?
    ensures At(RestoreRow(s, r, c).0.fs, q) ==
            if q == Phys(Child(c.to, r.name)) then Contents(s, c, r) else if q == Phys(c.to) then Some(Dir) else At(s.fs, q)
  {
    FileBelowTarget(s, r, c, dst, q);
  }

  lemma RestoreRowIndex(s: State, r: TrashRow, c: Target, j: Key)
    requires RestoreRow(s, r, c).1.Ok? && (r.isDir || r.blob.Some?)
    requires DestKey(r, c) == Key(c.toUser, c.to, r.name) && DestKey(r, c) !in s.cloud
    ensures IndexView(RestoreRow(s, r, c).0.cloud, j) ==
            if j == Key(c.toUser, c.to, r.name) then (if r.isDir then Directory else Regular(r.size))
            else IndexView(s.cloud, j)
  {
  }

  lemma FileBelowTarget(s: State, r: TrashRow, c: Target, dst: Key, q: string)
    requires Valid(s) && SaneTarget(s, c) && dst.user == c.toUser && PathOf(dst) == c.to && '/' !in dst.name
    requires IsDir(s.fs, Phys(dst.dir)) && !IsFile(s.fs, Phys(c.to)) && FreeRow(s, c, r) && !r.isDir
    ensures var fs1 := TryCreateDir(s.fs, Phys(c.to));
            var child := Phys(Child(c.to, r.name));
            && Read(fs1, BlobPath(c.user, r.blob.value)).Ok?
            && Some(File(Read(fs1, BlobPath(c.user, r.blob.value)).value)) == Contents(s, c, r)
            && Write(fs1, child, Read(fs1, BlobPath(c.user, r.blob.value)).value).Ok?
            && At(Write(fs1, child, Read(fs1, BlobPath(c.user, r.blob.value)).value).value, q) ==
               if q == child then Contents(s, c, r) else if q == Phys(c.to) then Some(Dir) else At(s.fs, q)
  {
    var child := Phys(Child(c.to, r.name));
    var fs1 := TryCreateDir(s.fs, Phys(c.to));
    MakeTarget(s.fs, dst, q);
    MakeTarget(s.fs, dst, child);
    MakeTarget(s.fs, dst, Phys(c.to));
    MakeTarget(s.fs, dst, BlobPath(c.user, r.blob.value));
    assert |child| > |Phys(c.to)|;
    assert ValidName(c.toUser) && ValidName(c.user);
    BlobApartFromTracked(c.user, r.blob.value, c.toUser, c.to);
    WriteBelowDir(fs1, c.to, r.name, fs1[BlobPath(c.user, r.blob.value)].data);
  }

  lemma DirBelowTarget(fs: Tree, dst: Key, n: string, q: string)
    requires WellFormed(fs) && '/' !in dst.name && '/' !in n
    requires IsDir(fs, Phys(dst.dir)) && !IsFile(fs, Phys(PathOf(dst))) && !IsFile(fs, Phys(Child(PathOf(dst), n)))
    ensures At(TryCreateDir(fs, Phys(Child(PathOf(dst), n))), q) ==
            if q == Phys(Child(PathOf(dst), n)) || q == Phys(PathOf(dst)) then Some(Dir) else At(fs, q)
  {
    var p := Phys(Child(PathOf(dst), n));
    ChainBelowDir(fs, dst.dir, dst.name);
    assert p == Child(Phys(PathOf(dst)), n);
    forall a ensures a in Chain(p) <==> a == p || a in Chain(Phys(PathOf(dst))) {
      AboveChild(a, Phys(PathOf(dst)), n);
    }
    AtCreateDir(fs, p, q);
  }

  ghost predicate RestoredSoFar(s: State, s': State, c: Target, dst: Key) {
    && Valid(s') && s'.users == s.users && s'.trash == s.trash
    && IsDir(s'.fs, Phys(dst.dir)) && !IsFile(s'.fs, Phys(c.to))
  }

  // A row not restored yet still has a free destination and its blob.
  lemma {:induction false} RowStillFree(s: State, c: Target, dst: Key, rows: seq<TrashRow>, r: TrashRow)
    requires Valid(s) && Restorable(s, c, dst, rows) && FreeRow(s, c, r)
    requires forall p :: p in rows ==> p.name != r.name
    ensures AfterRestoring(s, c, rows, Phys(Child(c.to, r.name))) == None
    ensures IndexAfterRestoring(s, c, rows, Key(c.toUser, c.to, r.name)) == Absent
    ensures r.blob.Some? ==> AfterRestoring(s, c, rows, BlobPath(c.user, r.blob.value)) == At(s.fs, BlobPath(c.user, r.blob.value))
  {
    if rows != [] {
      var n := |rows| - 1;
      assert rows[n] in rows && FreeRow(s, c, rows[n]);
      assert ValidName(c.toUser) && ValidName(c.user);
      ChildDiffers(c.to, r.name, c.to, rows[n].name);
      PhysInjective(Child(c.to, r.name), Child(c.to, rows[n].name));
      assert |Phys(Child(c.to, r.name))| > |Phys(c.to)|;
      RestorablePrefix(s, c, dst, rows);
      if r.blob.Some? {
        BlobApartFromTracked(c.user, r.blob.value, c.toUser, c.to);
        DirectChildTracked(c, rows[n].name);
        BlobApartFromTracked(c.user, r.blob.value, c.toUser, Child(c.to, rows[n].name));
      }
      RowStillFree(s, c, dst, rows[..n], r);
    }
  }

  lemma PhysInjective(p: string, q: string)
    ensures Phys(p) == Phys(q) <==> p == q
  {
    assert Phys(p)[4..] == p && Phys(q)[4..] == q;
  }

  lemma DirectChildTracked(c: Target, n: string)
    requires Tracked(c.toUser, c.to) && '/' !in n
    ensures Tracked(c.toUser, Child(c.to, n)) && Above(c.to, Child(c.to, n))
  {
    AboveChild(c.to, c.to, n);
    TrackedBelow(c.toUser, c.to, Child(c.to, n));
  }

  lemma RestorablePrefix(s: State, c: Target, dst: Key, rows: seq<TrashRow>)
    requires Restorable(s, c, dst, rows) && rows != []
    ensures Restorable(s, c, dst, rows[..|rows| - 1])
    ensures forall p :: p in rows[..|rows| - 1] ==> p.name != rows[|rows| - 1].name
  {
    var n := |rows| - 1;
    assert forall i :: 0 <= i < n ==> rows[..n][i] == rows[i];
    assert forall r :: r in rows[..n] ==> r in rows;
  }

  // Objects outside the target directory are not touched.
  lemma {:induction false} RestoringElsewhere(s: State, c: Target, rows: seq<TrashRow>, q: string)
    requires Tracked(c.toUser, c.to) && !Under(q, Phys(c.to)) && forall r :: r in rows ==> '/' !in r.name
    ensures AfterRestoring(s, c, rows, q) == At(s.fs, q)
  {
    if rows != [] {
      var n := |rows| - 1;
      assert rows[n] in rows;
      DirectChildTracked(c, rows[n].name);
      PhysUnder(Child(c.to, rows[n].name), c.to);
      RestoringElsewhere(s, c, rows[..n], q);
    }
  }

  // Restoring the rows succeeds and leaves what AfterRestoring and IndexAfterRestoring say.
  lemma {:induction false} RestoreRowsWorks(s: State, c: Target, dst: Key, rows: seq<TrashRow>, q: string, j: Key)
    requires Valid(s) && Restorable(s, c, dst, rows)
    ensures var (s', r) := RestoreRows(s, rows, c);
            && r.Ok? && RestoredSoFar(s, s', c, dst)
            && At(s'.fs, q) == AfterRestoring(s, c, rows, q)
            && IndexView(s'.cloud, j) == IndexAfterRestoring(s, c, rows, j)
  {
    if rows != [] {
      var n := |rows| - 1;
      var r := rows[n];
      RestorablePrefix(s, c, dst, rows);
      assert r in rows;
      RowStillFree(s, c, dst, rows[..n], r);
      RestoreRowsWorks(s, c, dst, rows[..n], q, j);
      RestoreRowsWorks(s, c, dst, rows[..n], Phys(Child(c.to, r.name)), Key(c.toUser, c.to, r.name));
      if r.blob.Some? { RestoreRowsWorks(s, c, dst, rows[..n], BlobPath(c.user, r.blob.value), j); }
      RestoreNext(s, RestoreRows(s, rows[..n], c).0, c, dst, r, q, j);
    }
  }

  lemma RestoreNext(s: State, s1: State, c: Target, dst: Key, r: TrashRow, q: string, j: Key)
    requires SaneTarget(s, c) && dst.user == c.toUser && PathOf(dst) == c.to && '/' !in dst.name
    requires RestoredSoFar(s, s1, c, dst) && FreeRow(s, c, r)
    requires At(s1.fs, Phys(Child(c.to, r.name))) == None
    requires IndexView(s1.cloud, Key(c.toUser, c.to, r.name)) == Absent
    requires r.blob.Some? ==> At(s1.fs, BlobPath(c.user, r.blob.value)) == At(s.fs, BlobPath(c.user, r.blob.value))
    ensures RestoreRow(s1, r, c).1.Ok?
    ensures RestoredSoFar(s, RestoreRow(s1, r, c).0, c, dst)
    ensures At(RestoreRow(s1, r, c).0.fs, q) ==
            if q == Phys(Child(c.to, r.name)) then Contents(s, c, r)
            else if q == Phys(c.to) then Some(Dir)
            else At(s1.fs, q)
    ensures IndexView(RestoreRow(s1, r, c).0.cloud, j) ==
            if j == Key(c.toUser, c.to, r.name) then (if r.isDir then Directory else Regular(r.size))
            else IndexView(s1.cloud, j)
  {
    StillFreeRow(s, s1, c, r);
    RestoreRowWorks(s1, r, c, dst, q, j);
    NextKeepsTarget(s, s1, c, dst, r);
  }

  lemma StillFreeRow(s: State, s1: State, c: Target, r: TrashRow)
    requires FreeRow(s, c, r)
    requires At(s1.fs, Phys(Child(c.to, r.name))) == None
    requires IndexView(s1.cloud, Key(c.toUser, c.to, r.name)) == Absent
    requires r.blob.Some? ==> At(s1.fs, BlobPath(c.user, r.blob.value)) == At(s.fs, BlobPath(c.user, r.blob.value))
    ensures FreeRow(s1, c, r) && Contents(s1, c, r) == Contents(s, c, r)
  {
  }

  lemma NextKeepsTarget(s: State, s1: State, c: Target, dst: Key, r: TrashRow)
    requires SaneTarget(s, c) && dst.user == c.toUser && PathOf(dst) == c.to && '/' !in dst.name
    requires RestoredSoFar(s, s1, c, dst) && FreeRow(s1, c, r)
    ensures RestoredSoFar(s, RestoreRow(s1, r, c).0, c, dst)
  {
    SaneLands(s1, c, r);
    RestoreRowFrame(s1, r, c);
    assert |Phys(dst.dir)| < |Phys(c.to)| < |Phys(Child(c.to, r.name))|;
    RestoreRowWorks(s1, r, c, dst, Phys(dst.dir), dst);
    RestoreRowWorks(s1, r, c, dst, Phys(c.to), dst);
  }
}
