/**
  Requests on paths anywhere below a home, .Trash included: mkdir, save_file, move and the restore of
  a file, and exactly when each of them leaves the trash whole.
 */
module TrashPaths {
  import opened Wrappers
  import opened Text
  import opened VirtualPath
  import opened FileTree
  import opened DotPaths
  import opened StorageState
  import opened StorageIndex
  import opened StorageRename
  import opened StorageTrash
  import opened StorageRestore
  import opened TrashIntegrity

  // A row whose blob is the object at q says it has this size.
  ghost predicate SizesFit(trash: Trash, q: string, size: nat) {
    forall i {:trigger trash[i]} ::
      i in trash && !trash[i].isDir && trash[i].blob.Some? && BlobOf(trash[i]) == q ==> trash[i].size == size
  }

  // No object bears an id still to be drawn.
  ghost predicate Unguessed(s: State) {
    forall u, h {:trigger BlobPath(u, h)} :: u in s.users && h >= s.nextId ==> BlobPath(u, h) !in s.fs
  }

  // ---- Trees that differ in directories and one file -----------------------------------------------

  // Files stay, but for the one at op.
  ghost predicate Overwrites(fs: Tree, fs': Tree, op: string, data: Bytes) {
    && At(fs', op) == Some(File(data))
    && forall q {:trigger At(fs', q)} :: IsFile(fs, q) && q != op ==> At(fs', q) == At(fs, q)
  }

  lemma AddedDirsIntegrity(s: State, s': State)
    requires Integrity(s) && DirsAdded(s.fs, s'.fs) && s'.users == s.users && s'.trash == s.trash
    ensures Integrity(s')
  {
    forall i {:trigger s'.trash[i]} | i in s'.trash ensures Backed(s', s'.trash[i]) {
      assert Backed(s, s.trash[i]);
      if !s.trash[i].isDir { assert At(s'.fs, BlobOf(s.trash[i])) == At(s.fs, BlobOf(s.trash[i])); }
    }
  }

  // Rows that stay find their blobs as they were, or overwritten.
  ghost predicate RowsRead(s: State, s': State, op: string, data: Bytes) {
    && s'.users == s.users
    && (forall i {:trigger s'.trash[i]} :: i in s'.trash ==> i in s.trash && s'.trash[i] == s.trash[i])
    && (forall i {:trigger s'.trash[i]} :: i in s'.trash && !s'.trash[i].isDir ==>
          At(s'.fs, BlobOf(s'.trash[i])) == if BlobOf(s'.trash[i]) == op then Some(File(data)) else At(s.fs, BlobOf(s'.trash[i])))
  }

  lemma RowsReadIntegrity(s: State, s': State, op: string, data: Bytes)
    requires Integrity(s) && RowsRead(s, s', op, data)
    ensures Integrity(s') <==> SizesFit(s'.trash, op, |data|)
  {
    forall i {:trigger s'.trash[i]} | i in s'.trash && !s'.trash[i].isDir
      ensures Backed(s', s'.trash[i]) <==> BlobOf(s'.trash[i]) != op || s'.trash[i].size == |data|
    {
      assert Backed(s, s.trash[i]);
    }
    assert forall i, j {:trigger s'.trash[i], s'.trash[j]} ::
             i in s'.trash && j in s'.trash && ShareBlob(s'.trash[i], s'.trash[j]) ==> i == j by {
      assert forall i :: i in s'.trash ==> s'.trash[i] == s.trash[i];
    }
    if Integrity(s') {
      forall i | i in s'.trash && !s'.trash[i].isDir && BlobOf(s'.trash[i]) == op ensures s'.trash[i].size == |data| {
        assert Backed(s', s'.trash[i]);
      }
    }
  }

  lemma OverwriteRead(s: State, s': State, op: string, data: Bytes)
    requires Integrity(s) && Overwrites(s.fs, s'.fs, op, data) && s'.users == s.users && s'.trash == s.trash
    ensures RowsRead(s, s', op, data)
  {
    forall i {:trigger s'.trash[i]} | i in s'.trash && !s'.trash[i].isDir
      ensures At(s'.fs, BlobOf(s'.trash[i])) == if BlobOf(s'.trash[i]) == op then Some(File(data)) else At(s.fs, BlobOf(s'.trash[i]))
    {
      assert Backed(s, s.trash[i]);
    }
  }

  // .Trash and .Trash/blobs, where a file would end the trash.
  predicate TrashPlace(user: string, q: string) {
    q == Phys(TrashRoot(user)) || q == BlobBase(user)
  }

  // What Valid says of the tree, but for the ids still to be drawn.
  ghost predicate Sound(users: set<string>, fs: Tree) {
    && WellFormed(fs)
    && (forall u {:trigger u in users} :: u in users ==>
          ValidName(u) && IsDir(fs, Phys(Home(u))) && !IsFile(fs, Phys(TrashRoot(u))) && !IsFile(fs, BlobBase(u)))
  }

  lemma SoundValid(s: State, s': State)
    requires Valid(s) && Sound(s.users, s'.fs) && s'.users == s.users && s'.nextId >= s.nextId
    requires forall i {:trigger s'.trash[i]} :: i in s'.trash ==> i in s.trash && s'.trash[i] == s.trash[i]
    ensures Unguessed(s') ==> Valid(s')
  {
    forall i {:trigger i in s'.trash} | i in s'.trash ensures RowSane(i, s'.trash[i], s'.nextId) {
      assert s'.trash[i] == s.trash[i] && RowSane(i, s.trash[i], s.nextId);
    }
  }

  lemma AddedDirsSound(users: set<string>, fs: Tree, fs': Tree)
    requires Sound(users, fs) && DirsAdded(fs, fs') && WellFormed(fs')
    ensures Sound(users, fs')
  {
    forall u | u in users
      ensures IsDir(fs', Phys(Home(u))) && !IsFile(fs', Phys(TrashRoot(u))) && !IsFile(fs', BlobBase(u))
    {
      assert At(fs', Phys(Home(u))) == At(fs, Phys(Home(u)));
      assert At(fs', Phys(TrashRoot(u))) == At(fs, Phys(TrashRoot(u))) || At(fs', Phys(TrashRoot(u))) == Some(Dir);
      assert At(fs', BlobBase(u)) == At(fs, BlobBase(u)) || At(fs', BlobBase(u)) == Some(Dir);
    }
  }

  // Directories, and one file where no directory stands.
  ghost predicate FileAdded(fs: Tree, fs': Tree, op: string, data: Bytes) {
    exists fs1 {:trigger DirsAdded(fs, fs1)} :: DirsAdded(fs, fs1) && !IsDir(fs1, op) && fs' == fs1[op := File(data)]
  }

  lemma AddedOverwrites(fs: Tree, fs': Tree, op: string, data: Bytes)
    requires FileAdded(fs, fs', op, data)
    ensures Overwrites(fs, fs', op, data)
  {
    var fs1 :| DirsAdded(fs, fs1) && !IsDir(fs1, op) && fs' == fs1[op := File(data)];
    forall q | IsFile(fs, q) && q != op ensures At(fs', q) == At(fs, q) { assert At(fs1, q) == At(fs, q); }
  }

  ghost predicate NoTrashPlace(users: set<string>, q: string) {
    forall u {:trigger TrashPlace(u, q)} :: u in users ==> !TrashPlace(u, q)
  }

  lemma AddedFileSound(users: set<string>, fs: Tree, fs': Tree, op: string, data: Bytes)
    requires Sound(users, fs) && FileAdded(fs, fs', op, data) && WellFormed(fs') && NoTrashPlace(users, op)
    ensures Sound(users, fs')
  {
    var fs1 :| DirsAdded(fs, fs1) && !IsDir(fs1, op) && fs' == fs1[op := File(data)];
    forall u | u in users
      ensures IsDir(fs', Phys(Home(u))) && !IsFile(fs', Phys(TrashRoot(u))) && !IsFile(fs', BlobBase(u))
    {
      assert !TrashPlace(u, op);
      assert At(fs1, Phys(Home(u))) == At(fs, Phys(Home(u)));
      assert At(fs1, Phys(TrashRoot(u))) == At(fs, Phys(TrashRoot(u))) || At(fs1, Phys(TrashRoot(u))) == Some(Dir);
      assert At(fs1, BlobBase(u)) == At(fs, BlobBase(u)) || At(fs1, BlobBase(u)) == Some(Dir);
    }
  }

  // Below a home only its own two trash directories are such places.
  lemma OwnTrashPlace(users: set<string>, fs: Tree, owner: string, p: string)
    requires Sound(users, fs) && owner in users && Under(p, Home(owner)) && !TrashPlace(owner, Phys(p))
    ensures NoTrashPlace(users, Phys(p))
  {
    forall u | u in users ensures !TrashPlace(u, Phys(p)) {
      assert ValidName(u) && ValidName(owner);
      BlobPathFacts(u, 0);
      assert Phys(p)[4..] == p && Phys(TrashRoot(u))[4..] == TrashRoot(u) && Phys(TrashRoot(u) + "/blobs")[4..] == TrashRoot(u) + "/blobs";
      assert Above(Home(u), TrashRoot(u));
      AboveTransitive(Home(u), TrashRoot(u), TrashRoot(u) + "/blobs");
      if TrashPlace(u, Phys(p)) { HomesApart(owner, u, p); }
    }
  }

  lemma WriteAdds(t: Tree, op: string, data: Bytes)
    requires Write(t, op, data).Ok?
    ensures FileAdded(t, Write(t, op, data).value, op, data)
  {
    var t1 := WithDirs(t, Chain(op) - {op});
    forall q ensures At(t1, q) == At(t, q) || (q !in t && At(t1, q) == Some(Dir)) {
      if q in Chain(op) - {op} { assert !IsFile(t, q); }
    }
    assert DirsAdded(t, t1);
  }

  lemma AddedThenFile(t: Tree, t1: Tree, t2: Tree, op: string, data: Bytes)
    requires DirsAdded(t, t1) && FileAdded(t1, t2, op, data)
    ensures FileAdded(t, t2, op, data)
  {
    var t3 :| DirsAdded(t1, t3) && !IsDir(t3, op) && t2 == t3[op := File(data)];
    forall q ensures At(t3, q) == At(t, q) || (q !in t && At(t3, q) == Some(Dir)) {
      assert At(t3, q) == At(t1, q) || (q !in t1 && At(t3, q) == Some(Dir));
      assert At(t1, q) == At(t, q) || (q !in t && At(t1, q) == Some(Dir));
    }
    assert DirsAdded(t, t3);
  }

  // A file in the place of .Trash or .Trash/blobs ends archiving: it fails, and changes nothing.
  lemma TrashFileBlocks(s: State, user: string, p: string, id: nat)
    requires WellFormed(s.fs) && '/' !in user && (IsFile(s.fs, Phys(TrashRoot(user))) || IsFile(s.fs, BlobBase(user)))
    ensures TryCreateDir(s.fs, BlobBase(user)) == s.fs && ArchiveTree(s.fs, user, p, id).Err?
  {
    assert BlobBase(user) == Child(Phys(TrashRoot(user)), "blobs");
    AboveChild(Phys(TrashRoot(user)), Phys(TrashRoot(user)), "blobs");
    assert Phys(TrashRoot(user)) in Chain(BlobBase(user)) && BlobBase(user) in Chain(BlobBase(user));
    BlobIsChild(user, id);
    LastSlashOfChild(BlobBase(user), UuidText(id));
  }

  // ---- mkdir -------------------------------------------------------------------------------------------

  // mkdir cannot harm the trash, wherever it makes its directory.
  lemma MkdirIntegrity(s: State, k: Key)
    requires Valid(s) && Integrity(s)
    ensures var s' := MkdirResult(s, k).0;
            && Integrity(s') && s'.users == s.users && s'.trash == s.trash && (Unguessed(s') ==> Valid(s'))
  {
    var s' := MkdirResult(s, k).0;
    CreateDirAdds(s.fs, Phys(PathOf(k)));
    CreateDirWellFormed(s.fs, Phys(PathOf(k)));
    if s' != s {
      AddedDirsIntegrity(s, s');
      AddedDirsSound(s.users, s.fs, s'.fs);
      SoundValid(s, s');
    }
  }

  // ---- save_file ---------------------------------------------------------------------------------------

  // The object a path in any spelling leads to.
  function Object(path: string): string {
    if NoClimb(path) then ObjectOf(path) else EndOf(Pieces(path))
  }

  lemma PutAdds(t: Tree, path: string, data: Bytes)
    requires PutFile(t, path, data).Ok?
    ensures FileAdded(t, PutFile(t, path, data).value, Object(path), data)
  {
    if NoClimb(path) {
      WriteAdds(t, ObjectOf(path), data);
    } else {
      StepsAdd(t, Steps(Front(Pieces(path))));
    }
  }

  lemma MakeDirsWellFormed(t: Tree, path: string)
    requires WellFormed(t) && Pieces(path) != []
    ensures WellFormed(MakeDirs(t, path))
  {
    PiecesNoBlank(path);
    if NoClimb(path) {
      assert Pieces(path)[0] in Pieces(path) && ObjectOf(path) != "";
      CreateDirWellFormed(t, ObjectOf(path));
    } else {
      StepsWellFormed(t, Pieces(path));
    }
  }

  lemma PutWellFormed(t: Tree, path: string, data: Bytes)
    requires WellFormed(t) && PutFile(t, path, data).Ok?
    ensures WellFormed(PutFile(t, path, data).value)
  {
    var pieces := Pieces(path);
    PiecesNoBlank(path);
    WritablePieces(path);
    if NoClimb(path) {
      assert pieces[0] in pieces && ObjectOf(path) != "";
      WriteWellFormed(t, ObjectOf(path), data);
    } else {
      var front, last := Front(pieces), pieces[|pieces| - 1];
      StepsWellFormed(t, front);
      SettledPlain(front);
      assert last in pieces;
      LastWritten(MakeSteps(t, Steps(front)), Settled(front), last, data);
    }
  }

  lemma LastWritten(made: Made, stack: seq<string>, last: string, data: Bytes)
    requires WellFormed(made.tree) && PlainPieces(stack) && last != "" && '/' !in last && NamesFile(last)
    requires stack != [] ==> IsDir(made.tree, Join(stack, '/'))
    requires !IsDir(made.tree, Join(Settle(stack, last), '/'))
    ensures WellFormed(made.tree[Join(Settle(stack, last), '/') := File(data)])
  {
    SettlePlain(stack, last);
    AddedDirWellFormed(made.tree, stack, last, File(data));
  }

  // What save_file leaves, for any name: directories, or directories and one file.
  lemma SaveTree(s: State, k: Key, path: string, data: Bytes)
    requires k.user in s.users
    ensures var (s', r) := SavePath(s, k, path, data);
            && s'.trash == s.trash && s'.users == s.users && s'.nextId >= s.nextId
            && (r.Ok? ==> FileAdded(s.fs, s'.fs, Object(path), data)) && (r.Err? ==> DirsAdded(s.fs, s'.fs))
  {
    var fs1 := MakeDirs(s.fs, PathParent(path));
    MakeDirsAdds(s.fs, PathParent(path));
    if PutFile(fs1, path, data).Ok? {
      PutAdds(fs1, path, data);
      AddedThenFile(s.fs, fs1, PutFile(fs1, path, data).value, Object(path), data);
    }
  }

  lemma SaveWellFormed(s: State, k: Key, path: string, data: Bytes)
    requires WellFormed(s.fs) && Front(Pieces(path)) != []
    ensures WellFormed(SavePath(s, k, path, data).0.fs)
  {
    var fs1 := MakeDirs(s.fs, PathParent(path));
    ParentPieces(path);
    MakeDirsWellFormed(s.fs, PathParent(path));
    if PutFile(fs1, path, data).Ok? { PutWellFormed(fs1, path, data); }
  }

  function SaveObject(dir: string, name: string): string {
    Object(Phys(dir) + "/" + name)
  }

  // Saving under any name keeps the trash whole exactly when it fails, or when a row whose blob it
  // overwrites has the size of the new bytes.
  lemma SaveIntegrity(s: State, owner: string, dir: string, name: string, data: Bytes)
    requires Integrity(s) && owner in s.users
    ensures var (s', r) := SaveNamed(s, owner, dir, name, data);
            && s'.trash == s.trash && s'.users == s.users
            && (Integrity(s') <==> r.Err? || SizesFit(s.trash, SaveObject(dir, name), |data|))
  {
    var (s', r) := SaveNamed(s, owner, dir, name, data);
    SaveTree(s, Key(owner, dir, name), Phys(dir) + "/" + name, data);
    if r.Ok? {
      AddedOverwrites(s.fs, s'.fs, SaveObject(dir, name), data);
      OverwriteRead(s, s', SaveObject(dir, name), data);
      RowsReadIntegrity(s, s', SaveObject(dir, name), data);
    } else {
      AddedDirsIntegrity(s, s');
    }
  }

  // Saved into the home under ".Trash/blobs/" and the id of a row's blob, bytes of another size do harm.
  lemma SavingOverBlobHarms(s: State, u: string, id: nat, data: Bytes)
    requires Valid(s) && Integrity(s) && id in s.trash && !s.trash[id].isDir && s.trash[id].user == u
    requires s.trash[id].blob.Some? && |data| != s.trash[id].size && Normal(Home(u))
    ensures var (s', r) := SaveNamed(s, u, Home(u), BlobName(s.trash[id].blob.value), data); r.Ok? && !Integrity(s')
  {
    var h := s.trash[id].blob.value;
    assert Backed(s, s.trash[id]) && "/User/" <= Home(u);
    BlobNamePieces(u, h);
    SaveBelow(s, u, Home(u), BlobName(h), data);
    BlobIsChild(u, h);
    InPlace(s.fs, BlobBase(u), UuidText(h), data);
    SaveIntegrity(s, u, Home(u), BlobName(h), data);
    assert !SizesFit(s.trash, BlobPath(u, h), |data|);
  }

  function BlobName(h: nat): string {
    ".Trash" + "/" + ("blobs" + "/" + UuidText(h))
  }

  lemma OnePiece(n: string)
    requires n != "" && n != "." && '/' !in n
    ensures Components(n) == [n] && Pieces(n) == [n]
  {
    SplitWithout(n, '/');
    FilterAll([n], (m: string) => m != "");
    FilterAll([n], (m: string) => m != ".");
  }

  lemma ThreePieces(a: string, b: string, c: string)
    requires ValidName(a) && ValidName(b) && ValidName(c)
    ensures Components(a + "/" + (b + "/" + c)) == [a, b, c] && Pieces(a + "/" + (b + "/" + c)) == [a, b, c]
  {
    OnePiece(a);
    OnePiece(b);
    OnePiece(c);
    ComponentsBelow(b, c);
    ComponentsBelow(a, b + "/" + c);
    PiecesBelow(b, c);
    PiecesBelow(a, b + "/" + c);
    assert [a] + ([b] + [c]) == [a, b, c];
  }

  lemma BlobNameForm(h: nat)
    ensures Components(BlobName(h)) == [".Trash", "blobs", UuidText(h)] && Pieces(BlobName(h)) == [".Trash", "blobs", UuidText(h)]
    ensures !Refused(BlobName(h)) && NoClimb(BlobName(h))
  {
    var name, id := BlobName(h), UuidText(h);
    assert id[0] == '0' && ValidName(id);
    ThreePieces(".Trash", "blobs", id);
    assert name[|name| - 1] == id[|id| - 1] == '0';
    assert ".." !in [".Trash", "blobs", id];
  }

  lemma BlobNamePieces(u: string, h: nat)
    requires Normal(Home(u)) && "/User/" <= Home(u)
    ensures !Refused(BlobName(h)) && NoClimb(BlobName(h)) && SaveObject(Home(u), BlobName(h)) == BlobPath(u, h)
    ensures PiecesParent(Home(u), Pieces(BlobName(h))) == BlobBase(u)
    ensures Phys(Home(u)) + Slashed(Pieces(BlobName(h))) == BlobPath(u, h)
  {
    BlobNameForm(h);
    BlobNamePath(u, h);
    ObjectBelow(Home(u), BlobName(h));
  }

  lemma ObjectBelow(dir: string, name: string)
    requires Normal(dir) && "/User/" <= dir && NoClimb(name)
    ensures SaveObject(dir, name) == Phys(dir) + Slashed(Pieces(name))
  {
    JoinedForm(dir, name);
    JoinedPath(dir, name);
  }

  lemma SlashedThree(a: string, b: string, c: string)
    ensures Slashed([a, b]) == "/" + a + ("/" + b) && Slashed([a, b, c]) == "/" + a + ("/" + b + ("/" + c))
  {
    assert [a, b, c][1..] == [b, c] && [b, c][1..] == [c] && [a, b][1..] == [b];
    assert Slashed([c]) == "/" + c && Slashed([b]) == "/" + b && Slashed([b, c]) == "/" + b + ("/" + c);
  }

  lemma BlobNamePath(u: string, h: nat)
    ensures Phys(Home(u)) + Slashed([".Trash", "blobs", UuidText(h)]) == BlobPath(u, h)
    ensures Phys(Home(u)) + Slashed([".Trash", "blobs", UuidText(h)][..2]) == BlobBase(u)
  {
    var id := UuidText(h);
    SlashedThree(".Trash", "blobs", id);
    assert [".Trash", "blobs", id][..2] == [".Trash", "blobs"];
    TrashTexts(u, id);
  }

  lemma TrashTexts(u: string, id: string)
    ensures Phys(Home(u)) + ("/" + ".Trash" + ("/" + "blobs")) == BlobBase(u)
    ensures Phys(Home(u)) + ("/" + ".Trash" + ("/" + "blobs" + ("/" + id))) == BlobBase(u) + "/" + id
  {
  }

  // An existing file is written in place.
  lemma InPlace(fs: Tree, dir: string, name: string, data: Bytes)
    requires WellFormed(fs) && '/' !in name && dir != "" && IsFile(fs, Child(dir, name))
    ensures TryCreateDir(fs, dir) == fs && Write(fs, Child(dir, name), data) == Ok(fs[Child(dir, name) := File(data)])
  {
    var p := Child(dir, name);
    AboveChild(dir, dir, name);
    assert IsDir(fs, dir);
    CreateExistingDir(fs, dir);
    assert forall a :: a in Chain(p) - {p} ==> IsDir(fs, a);
    assert WithDirs(fs, Chain(p) - {p}) == fs;
  }

  lemma SaveValidAnywhere(s: State, owner: string, dir: string, name: string, data: Bytes)
    requires Valid(s) && owner in s.users && Normal(dir) && "/User/" <= dir && NoTrashPlace(s.users, SaveObject(dir, name))
    ensures var s' := SaveNamed(s, owner, dir, name, data).0; Unguessed(s') ==> Valid(s')
  {
    var (s', r) := SaveNamed(s, owner, dir, name, data);
    var path := Phys(dir) + "/" + name;
    SaveTree(s, Key(owner, dir, name), path, data);
    JoinedForm(dir, name);
    var parts := HomeParts(dir);
    assert Pieces(path)[0] == VOLUME && |Pieces(path)| > 1;
    SaveWellFormed(s, Key(owner, dir, name), path, data);
    if r.Ok? {
      AddedFileSound(s.users, s.fs, s'.fs, SaveObject(dir, name), data);
    } else {
      AddedDirsSound(s.users, s.fs, s'.fs);
    }
    SoundValid(s, s');
  }

  // ---- move ------------------------------------------------------------------------------------------

  // The bytes get as far as the target.
  predicate Moves(fs: Tree, src: Key, dst: Key) {
    CanMove(TryCreateDir(fs, Phys(dst.dir)), Phys(PathOf(src)), Phys(PathOf(dst)))
  }

  function SizeOf(fs: Tree, q: string): nat {
    if IsFile(fs, q) then |fs[q].data| else 0
  }

  // A blob of a row before and after the move.
  lemma MovedBlob(s: State, src: Key, dst: Key, b: string)
    requires Valid(s) && Moves(s.fs, src, dst) && '/' !in dst.name && IsFile(s.fs, b)
    ensures var fs' := Moved(TryCreateDir(s.fs, Phys(dst.dir)), Phys(PathOf(src)), Phys(PathOf(dst)));
            At(fs', b) == if b == Phys(PathOf(dst)) then At(s.fs, Phys(PathOf(src)))
                          else if Under(b, Phys(PathOf(src))) then None
                          else At(s.fs, b)
    ensures b == Phys(PathOf(dst)) ==> IsFile(s.fs, Phys(PathOf(src))) && !Under(b, Phys(PathOf(src)))
  {
    var fs1, from, to := TryCreateDir(s.fs, Phys(dst.dir)), Phys(PathOf(src)), Phys(PathOf(dst));
    CreateDirWellFormed(s.fs, Phys(dst.dir));
    CreateDirAdds(s.fs, Phys(dst.dir));
    assert At(fs1, from) == At(s.fs, from) || (from !in s.fs && At(fs1, from) == Some(Dir));
    AtMoved(fs1, from, to, b);
    MoveIsApart(fs1, from, to);
    assert At(fs1, b) == At(s.fs, b);
    assert Rebase(to, to, from) == from;
  }

  // A row of the trash is whole after the move exactly when its blob was not moved away, and was not
  // overwritten by a file of another size.
  lemma MovedRow(s: State, s': State, src: Key, dst: Key, row: TrashRow)
    requires Valid(s) && Moves(s.fs, src, dst) && '/' !in dst.name && s'.users == s.users && !row.isDir && Backed(s, row)
    requires s'.fs == Moved(TryCreateDir(s.fs, Phys(dst.dir)), Phys(PathOf(src)), Phys(PathOf(dst)))
    ensures Backed(s', row) <==> !Under(BlobOf(row), Phys(PathOf(src)))
                                 && (BlobOf(row) == Phys(PathOf(dst)) ==> row.size == SizeOf(s.fs, Phys(PathOf(src))))
  {
    MovedBlob(s, src, dst, BlobOf(row));
  }

  // Every row is.
  ghost predicate MoveSpares(s: State, from: string, to: string) {
    && (forall q {:trigger Owned(s.trash, q)} :: Owned(s.trash, q) ==> !Under(q, from))
    && SizesFit(s.trash, to, SizeOf(s.fs, from))
  }

  // Moving anything below a home keeps the trash whole exactly when the bytes do not move, or no row's
  // blob moves along and none is overwritten by a file of another size.
  lemma MoveIntegrity(s: State, s': State, src: Key, dst: Key, r: Outcome)
    requires Valid(s) && Integrity(s) && src.user in s.users && '/' !in dst.name && MoveStep(s, s', src, dst, r)
    ensures s'.trash == s.trash && s'.users == s.users
    ensures Integrity(s') <==> !Moves(s.fs, src, dst) || MoveSpares(s, Phys(PathOf(src)), Phys(PathOf(dst)))
  {
    CreateDirAdds(s.fs, Phys(dst.dir));
    if Moves(s.fs, src, dst) {
      MovedIntegrity(s, s', src, dst);
    } else {
      AddedDirsIntegrity(s, s');
    }
  }

  lemma MovedIntegrity(s: State, s': State, src: Key, dst: Key)
    requires Valid(s) && Integrity(s) && Moves(s.fs, src, dst) && '/' !in dst.name && s'.users == s.users && s'.trash == s.trash
    requires s'.fs == Moved(TryCreateDir(s.fs, Phys(dst.dir)), Phys(PathOf(src)), Phys(PathOf(dst)))
    ensures Integrity(s') <==> MoveSpares(s, Phys(PathOf(src)), Phys(PathOf(dst)))
  {
    var from, to := Phys(PathOf(src)), Phys(PathOf(dst));
    forall i {:trigger s.trash[i]} | i in s.trash && !s.trash[i].isDir
      ensures Backed(s', s.trash[i]) <==> !Under(BlobOf(s.trash[i]), from)
                                          && (BlobOf(s.trash[i]) == to ==> s.trash[i].size == SizeOf(s.fs, from))
      ensures Owned(s.trash, BlobOf(s.trash[i]))
    {
      assert Backed(s, s.trash[i]);
      MovedRow(s, s', src, dst, s.trash[i]);
    }
    if Integrity(s') {
      forall q | Owned(s.trash, q) ensures !Under(q, from) {
        var i :| i in s.trash && !s.trash[i].isDir && s.trash[i].blob.Some? && BlobOf(s.trash[i]) == q;
        assert Backed(s', s'.trash[i]);
      }
      forall i | i in s.trash && !s.trash[i].isDir && BlobOf(s.trash[i]) == to ensures s.trash[i].size == SizeOf(s.fs, from) {
        assert Backed(s', s'.trash[i]);
      }
    }
  }

  // The homes and the trash directories after a move below a home to another name than .Trash or its blobs.
  lemma MoveValidAnywhere(s: State, s': State, src: Key, dst: Key, r: Outcome)
    requires Valid(s) && src.user in s.users && dst.user in s.users && '/' !in dst.name && MoveStep(s, s', src, dst, r)
    requires Moves(s.fs, src, dst) ==> Above(Home(src.user), PathOf(src)) && Above(Home(dst.user), PathOf(dst))
    requires Moves(s.fs, src, dst) ==> !TrashPlace(dst.user, Phys(PathOf(dst)))
    ensures Unguessed(s') ==> Valid(s')
  {
    CreateDirAdds(s.fs, Phys(dst.dir));
    CreateDirWellFormed(s.fs, Phys(dst.dir));
    if Moves(s.fs, src, dst) { MovedSystem(s, s', src, dst); } else { AddedDirsSound(s.users, s.fs, s'.fs); }
    SoundValid(s, s');
  }

  lemma MovedSystem(s: State, s': State, src: Key, dst: Key)
    requires Valid(s) && src.user in s.users && dst.user in s.users && '/' !in dst.name && Moves(s.fs, src, dst)
    requires Above(Home(src.user), PathOf(src)) && Above(Home(dst.user), PathOf(dst)) && !TrashPlace(dst.user, Phys(PathOf(dst)))
    requires s'.fs == Moved(TryCreateDir(s.fs, Phys(dst.dir)), Phys(PathOf(src)), Phys(PathOf(dst)))
    ensures Sound(s.users, s'.fs)
  {
    MovedTreeWellFormed(s.fs, src, dst);
    forall u | u in s.users
      ensures IsDir(s'.fs, Phys(Home(u))) && !IsFile(s'.fs, Phys(TrashRoot(u))) && !IsFile(s'.fs, BlobBase(u))
    {
      MovedHome(s, s', src, dst, u);
      MovedTrash(s, s', src, dst, u);
    }
  }

  lemma MovedTreeWellFormed(fs: Tree, src: Key, dst: Key)
    requires WellFormed(fs) && '/' !in dst.name && Moves(fs, src, dst)
    ensures WellFormed(Moved(TryCreateDir(fs, Phys(dst.dir)), Phys(PathOf(src)), Phys(PathOf(dst))))
  {
    var to := Phys(PathOf(dst));
    CreateDirWellFormed(fs, Phys(dst.dir));
    assert to == Child(Phys(dst.dir), dst.name);
    LastSlashOfChild(Phys(dst.dir), dst.name);
    MovedWellFormed(TryCreateDir(fs, Phys(dst.dir)), Phys(PathOf(src)), to);
  }

  lemma MovedHome(s: State, s': State, src: Key, dst: Key, u: string)
    requires Valid(s) && src.user in s.users && dst.user in s.users && u in s.users && Moves(s.fs, src, dst)
    requires Above(Home(src.user), PathOf(src)) && Above(Home(dst.user), PathOf(dst))
    requires s'.fs == Moved(TryCreateDir(s.fs, Phys(dst.dir)), Phys(PathOf(src)), Phys(PathOf(dst)))
    ensures IsDir(s'.fs, Phys(Home(u)))
  {
    HomeApart(s, u, src.user, PathOf(src));
    HomeApart(s, u, dst.user, PathOf(dst));
    SystemMoved(s, src, dst, Phys(Home(u)));
    assert IsDir(s.fs, Phys(Home(u)));
  }

  lemma MovedTrash(s: State, s': State, src: Key, dst: Key, u: string)
    requires Valid(s) && dst.user in s.users && u in s.users && Moves(s.fs, src, dst)
    requires Above(Home(dst.user), PathOf(dst)) && !TrashPlace(dst.user, Phys(PathOf(dst)))
    requires s'.fs == Moved(TryCreateDir(s.fs, Phys(dst.dir)), Phys(PathOf(src)), Phys(PathOf(dst)))
    ensures !IsFile(s'.fs, Phys(TrashRoot(u))) && !IsFile(s'.fs, BlobBase(u))
  {
    TrashPlacesApart(s, u, dst.user, PathOf(dst));
    SystemMoved(s, src, dst, Phys(TrashRoot(u)));
    SystemMoved(s, src, dst, BlobBase(u));
  }

  lemma HomeApart(s: State, u: string, v: string, p: string)
    requires Valid(s) && u in s.users && v in s.users && Above(Home(v), p)
    ensures !Under(Phys(Home(u)), Phys(p))
  {
    assert ValidName(u) && ValidName(v);
    PhysUnder(Home(u), p);
    if Under(Home(u), p) {
      AboveTransitive(Home(v), p, Home(u));
      HomesApart(v, u, Home(u));
    }
  }

  // Only .Trash and .Trash/blobs themselves have a trash directory at or below them.
  lemma TrashPlacesApart(s: State, u: string, v: string, p: string)
    requires Valid(s) && u in s.users && v in s.users && Above(Home(v), p) && !TrashPlace(v, Phys(p))
    ensures !Under(Phys(TrashRoot(u)), Phys(p)) && !Under(BlobBase(u), Phys(p))
  {
    assert ValidName(u) && ValidName(v);
    BlobPathFacts(u, 0);
    PhysUnder(TrashRoot(u), p);
    PhysUnder(TrashRoot(u) + "/blobs", p);
    assert TrashRoot(u) == Child(Home(u), ".Trash") && TrashRoot(u) + "/blobs" == Child(TrashRoot(u), "blobs");
    AboveChild(p, TrashRoot(u), "blobs");
    AboveChild(p, Home(u), ".Trash");
    if Under(Home(u), p) {
      AboveTransitive(Home(v), p, Home(u));
      HomesApart(v, u, Home(u));
    }
    if p == TrashRoot(u) || p == TrashRoot(u) + "/blobs" {
      AboveTransitive(Home(u), TrashRoot(u), p);
      HomesApart(u, v, p);
    }
  }

  lemma SystemMoved(s: State, src: Key, dst: Key, q: string)
    requires Valid(s) && Moves(s.fs, src, dst) && !Under(q, Phys(PathOf(dst)))
    ensures var fs' := Moved(TryCreateDir(s.fs, Phys(dst.dir)), Phys(PathOf(src)), Phys(PathOf(dst)));
            && (IsFile(fs', q) ==> IsFile(s.fs, q))
            && (!Under(q, Phys(PathOf(src))) && IsDir(s.fs, q) ==> IsDir(fs', q))
  {
    var fs1 := TryCreateDir(s.fs, Phys(dst.dir));
    CreateDirWellFormed(s.fs, Phys(dst.dir));
    CreateDirAdds(s.fs, Phys(dst.dir));
    assert At(fs1, q) == At(s.fs, q) || (q !in s.fs && At(fs1, q) == Some(Dir));
    AtMoved(fs1, Phys(PathOf(src)), Phys(PathOf(dst)), q);
  }

  // ---- Restoring a file --------------------------------------------------------------------------------

  // Restoring a file anywhere below a home keeps the trash whole exactly when it fails, or when a row
  // that stays and whose blob it overwrites has the size of the restored one.
  lemma RestoreFileAnywhere(s: State, id: nat, dst: Key)
    requires Valid(s) && Integrity(s) && id in s.trash && !s.trash[id].isDir && dst.user in s.users
    ensures var (s', r) := RestoreFileResult(s, s.trash[id], dst);
            && s'.users == s.users
            && (Integrity(s') <==> r.Err? || SizesFit(s'.trash, Phys(PathOf(dst)), s.trash[id].size))
  {
    var item, op := s.trash[id], Phys(PathOf(dst));
    assert Backed(s, item);
    var data := s.fs[BlobOf(item)].data;
    var (s1, r1) := RestoreSave(s, dst, data);
    RestoreSaveTree(s, dst, data);
    if r1.Ok? {
      AddedOverwrites(s.fs, s1.fs, op, data);
      var s' := RestoreFileResult(s, item, dst).0;
      RestoredRead(s, s1, s', id, op, data);
      RowsReadIntegrity(s, s', op, data);
    } else {
      AddedDirsIntegrity(s, s1);
    }
  }

  lemma RestoreFileValid(s: State, id: nat, dst: Key)
    requires Valid(s) && Integrity(s) && id in s.trash && !s.trash[id].isDir && dst.user in s.users
    requires Above(Home(dst.user), PathOf(dst)) && '/' !in dst.name && !TrashPlace(dst.user, Phys(PathOf(dst)))
    ensures var s' := RestoreFileResult(s, s.trash[id], dst).0; Unguessed(s') ==> Valid(s')
  {
    var item, op := s.trash[id], Phys(PathOf(dst));
    assert Backed(s, item);
    var data := s.fs[BlobOf(item)].data;
    var (s1, r1) := RestoreSave(s, dst, data);
    RestoreSaveTree(s, dst, data);
    RestoreSaveWellFormed(s, dst, data);
    if r1.Ok? {
      OwnTrashPlace(s.users, s.fs, dst.user, PathOf(dst));
      AddedFileSound(s.users, s.fs, s1.fs, op, data);
      BlobDeletedSound(s1.users, s1.fs, item.user, item.blob.value);
    } else {
      AddedDirsSound(s.users, s.fs, s1.fs);
    }
    SoundValid(s, RestoreFileResult(s, item, dst).0);
  }

  lemma RestoreSaveWellFormed(s: State, dst: Key, data: Bytes)
    requires WellFormed(s.fs)
    ensures WellFormed(RestoreSave(s, dst, data).0.fs)
  {
    var opDir, op := ParentOp(dst.user, dst.dir), Phys(PathOf(dst));
    CreateDirWellFormed(s.fs, opDir);
    if Write(TryCreateDir(s.fs, opDir), op, data).Ok? { WriteWellFormed(TryCreateDir(s.fs, opDir), op, data); }
  }

  lemma BlobDeletedSound(users: set<string>, fs: Tree, user: string, h: nat)
    requires Sound(users, fs) && user in users
    ensures Sound(users, Delete(fs, BlobPath(user, h)))
  {
    DeleteWellFormed(fs, BlobPath(user, h));
    forall u | u in users ensures BlobPath(user, h) != Phys(Home(u)) {
      assert ValidName(u) && ValidName(user);
      BlobPathIsNoSystemDir(user, h, u);
    }
  }

  lemma RestoreSaveTree(s: State, dst: Key, data: Bytes)
    requires dst.user in s.users
    ensures var (s1, r) := RestoreSave(s, dst, data);
            && s1.trash == s.trash && s1.users == s.users && s1.nextId >= s.nextId
            && (r.Ok? ==> FileAdded(s.fs, s1.fs, Phys(PathOf(dst)), data)) && (r.Err? ==> DirsAdded(s.fs, s1.fs))
  {
    var opDir, op := ParentOp(dst.user, dst.dir), Phys(PathOf(dst));
    var fs1 := TryCreateDir(s.fs, opDir);
    CreateDirAdds(s.fs, opDir);
    if Write(fs1, op, data).Ok? {
      WriteAdds(fs1, op, data);
      AddedThenFile(s.fs, fs1, Write(fs1, op, data).value, op, data);
    }
  }

  // The rows that stay do not own the blob that goes.
  lemma RestoredRead(s: State, s1: State, s': State, id: nat, op: string, data: Bytes)
    requires Valid(s) && Integrity(s) && id in s.trash && !s.trash[id].isDir && Overwrites(s.fs, s1.fs, op, data)
    requires s1.users == s.users && s1.trash == s.trash
    requires var item := s.trash[id];
             s' == s1.(trash := DropRows(s1.trash, (t: TrashRow) => SameItem(t, item.user, item.dir, item.name) && !t.isDir),
                       fs := Delete(s1.fs, BlobOf(item)))
    ensures RowsRead(s, s', op, data)
  {
    forall i {:trigger s'.trash[i]} | i in s'.trash && !s'.trash[i].isDir
      ensures At(s'.fs, BlobOf(s'.trash[i])) == if BlobOf(s'.trash[i]) == op then Some(File(data)) else At(s.fs, BlobOf(s'.trash[i]))
    {
      assert i != id;
      BlobsApart(s, id, i);
      KeptBlob(s, s1, BlobOf(s.trash[id]), BlobOf(s.trash[i]), op, data);
    }
  }

  lemma KeptBlob(s: State, s1: State, gone: string, b: string, op: string, data: Bytes)
    requires Overwrites(s.fs, s1.fs, op, data) && IsFile(s.fs, b) && b != gone
    ensures At(Delete(s1.fs, gone), b) == if b == op then Some(File(data)) else At(s.fs, b)
  {
    if b != op { assert At(s1.fs, b) == At(s.fs, b); }
  }

  ghost predicate Named(users: set<string>) {
    forall u {:trigger u in users} :: u in users ==> ValidName(u)
  }

  lemma BlobsApart(s: State, id: nat, other: nat)
    requires Named(s.users) && Integrity(s) && id in s.trash && other in s.trash && other != id
    requires !s.trash[id].isDir && !s.trash[other].isDir
    ensures Backed(s, s.trash[id]) && Backed(s, s.trash[other]) && BlobOf(s.trash[id]) != BlobOf(s.trash[other])
  {
    var a, b := s.trash[id], s.trash[other];
    assert Backed(s, a) && Backed(s, b) && ValidName(a.user) && ValidName(b.user);
    if BlobOf(a) == BlobOf(b) { BlobPathInjective(a.user, a.blob.value, b.user, b.blob.value); }
    assert !ShareBlob(a, b);
  }
}
