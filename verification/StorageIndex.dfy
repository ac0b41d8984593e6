/**
  mkdir and save_file: what each does to tree and index once the request is routed, and
  exactly when the two still agree afterwards.
 */
module StorageIndex {
  import opened Wrappers
  import opened VirtualPath
  import opened FileTree
  import opened DotPaths
  import opened StorageState

  // ---- mkdir ---------------------------------------------------------------------------

  // The row is inserted first; the directory is created afterwards and its failure reported.
  function MkdirResult(s: State, k: Key): (State, Outcome) {
    if k.user !in s.users || k in s.cloud then (s, Err(Database))
    else
      var s1 := s.(cloud := s.cloud[k := Entry(s.nextId, 0, InodeDirectory)], nextId := s.nextId + 1);
      match CreateDir(s.fs, Phys(PathOf(k)))
      case Err(_) => (s1, Err(Io))
      case Ok(fs) => (s1.(fs := fs), Ok(()))
  }

  // mkdir succeeds and keeps the agreement exactly when the path is free and its parent is a
  // directory; with a free path and no such parent it breaks the agreement.
  lemma MkdirAgreement(s: State, k: Key)
    requires Valid(s) && Agree(s) && InDomain(s.users, k) && Normal(k.dir)
    ensures var (s', r) := MkdirResult(s, k);
            && Valid(s')
            && (r.Ok? && Agree(s') <==> Phys(PathOf(k)) !in s.fs && IsDir(s.fs, Phys(k.dir)))
            && (!Agree(s') <==> Phys(PathOf(k)) !in s.fs && !IsDir(s.fs, Phys(k.dir)))
  {
    if k !in s.cloud {
      MkdirValid(s, k);
      assert Phys(PathOf(k)) !in s.fs;
      if IsDir(s.fs, Phys(k.dir)) {
        AddChildDir(s.fs, k.dir, k.name);
        AgreeAfterInsert(s, MkdirResult(s, k).0, k);
      } else {
        MkdirOrphans(s, MkdirResult(s, k).0, k);
      }
    }
  }

  lemma MkdirValid(s: State, k: Key)
    requires Valid(s) && InDomain(s.users, k)
    ensures Valid(s.(cloud := s.cloud[k := Entry(s.nextId, 0, InodeDirectory)], nextId := s.nextId + 1,
                     fs := TryCreateDir(s.fs, Phys(PathOf(k)))))
  {
    CreateDirOnlyTracked(s, k.user, PathOf(k));
    var s' := s.(cloud := s.cloud[k := Entry(s.nextId, 0, InodeDirectory)], nextId := s.nextId + 1,
                 fs := TryCreateDir(s.fs, Phys(PathOf(k))));
    FrameValid(s, s', k.user);
  }

  // Below an existing directory create_dir adds one object.
  lemma AddChildDir(fs: Tree, dir: string, name: string)
    requires WellFormed(fs) && IsDir(fs, Phys(dir)) && '/' !in name
    requires Phys(Child(dir, name)) !in fs
    ensures CreateDir(fs, Phys(Child(dir, name))) == Ok(fs[Phys(Child(dir, name)) := Dir])
  {
    ChainBelowDir(fs, dir, name);
    var p := Phys(Child(dir, name));
    assert WithDirs(fs, Chain(p)) == fs[p := Dir];
  }

  // All proper ancestors of a child of an existing directory are directories.
  lemma ChainBelowDir(fs: Tree, dir: string, name: string)
    requires WellFormed(fs) && IsDir(fs, Phys(dir)) && '/' !in name
    ensures forall a :: a in Chain(Phys(Child(dir, name))) - {Phys(Child(dir, name))} ==> IsDir(fs, a)
    ensures Phys(dir) in Chain(Phys(Child(dir, name)))
  {
    assert Phys(Child(dir, name)) == Child(Phys(dir), name);
    forall a | a in Chain(Phys(Child(dir, name))) - {Phys(Child(dir, name))} ensures IsDir(fs, a) {
      AboveChild(a, Phys(dir), name);
    }
    AboveChild(Phys(dir), Phys(dir), name);
  }

  // One object and its row changed together.
  lemma AgreeAfterInsert(s: State, s': State, k: Key)
    requires Valid(s) && Agree(s) && InDomain(s.users, k) && s'.users == s.users
    requires Phys(PathOf(k)) in s'.fs && s'.fs == s.fs[Phys(PathOf(k)) := s'.fs[Phys(PathOf(k))]]
    requires k in s'.cloud && s'.cloud == s.cloud[k := s'.cloud[k]]
    requires IndexView(s'.cloud, k) == TreeView(s'.fs, PathOf(k))
    ensures Agree(s')
  {
    forall j {:trigger InDomain(s'.users, j)} | InDomain(s'.users, j)
      ensures IndexView(s'.cloud, j) == TreeView(s'.fs, PathOf(j))
    {
      assert InDomain(s.users, j);
      if PathOf(j) == PathOf(k) {
        SameKey(s.users, j, k);
      } else {
        assert Phys(PathOf(j))[4..] == PathOf(j) && Phys(PathOf(k))[4..] == PathOf(k);
      }
    }
  }

  // The row a missing parent directory would need.
  lemma MissingParentKey(s: State, k: Key) returns (parent: Key)
    requires Valid(s) && Agree(s) && InDomain(s.users, k) && Normal(k.dir)
    requires Phys(k.dir) !in s.fs
    ensures InDomain(s.users, parent) && PathOf(parent) == k.dir && parent !in s.cloud
    ensures Tracked(k.user, k.dir) && parent.user == k.user && parent != k
  {
    TrackedParent(k.user, k.dir, k.name);
    assert IsDir(s.fs, Phys(Home(k.user)));
    assert ValidName(k.user);
    parent := TrackedKey(k.user, k.dir);
    assert InDomain(s.users, parent);
    assert |PathOf(parent)| < |PathOf(k)|;
  }

  lemma MkdirOrphans(s: State, s': State, k: Key)
    requires Valid(s) && Agree(s) && InDomain(s.users, k) && s'.users == s.users && Normal(k.dir)
    requires k !in s.cloud && !IsDir(s.fs, Phys(k.dir))
    requires s'.cloud == s.cloud[k := Entry(s.nextId, 0, InodeDirectory)]
    requires s'.fs == TryCreateDir(s.fs, Phys(PathOf(k)))
    ensures !Agree(s')
  {
    assert Phys(PathOf(k)) == Child(Phys(k.dir), k.name);
    AboveChild(Phys(k.dir), Phys(k.dir), k.name);
    assert Phys(k.dir) in Chain(Phys(PathOf(k)));
    if CreateDir(s.fs, Phys(PathOf(k))).Ok? {
      assert !IsFile(s.fs, Phys(k.dir));
      var parent := MissingParentKey(s, k);
      assert IndexView(s'.cloud, parent) == Absent;
      assert TreeView(s'.fs, PathOf(parent)) == Directory;
      assert InDomain(s'.users, parent);
    } else {
      assert TreeView(s'.fs, PathOf(k)) == Absent;
      assert InDomain(s'.users, k);
    }
  }

  // ---- save_file -------------------------------------------------------------------------

  // insert .. on conflict (user_id, dir, name) do update set size, mime
  function Upsert(cloud: Cloud, k: Key, row: Entry): Cloud {
    cloud[k := if k in cloud then cloud[k].(size := row.size, mime := row.mime) else row]
  }

  function Indexed(s: State, k: Key, size: nat): (State, Outcome) {
    if k.user !in s.users then (s, Err(Database))
    else (s.(cloud := Upsert(s.cloud, k, Entry(s.nextId, size, Guessed(k.name))), nextId := s.nextId + 1), Ok(()))
  }

  // Parents are created, the bytes written at op, and then the row of the file upserted.
  function SaveAt(s: State, k: Key, opDir: string, op: string, data: Bytes, size: nat): (State, Outcome) {
    var fs1 := TryCreateDir(s.fs, opDir);
    match Write(fs1, op, data)
    case Err(_) => (s.(fs := fs1), Err(Io))
    case Ok(fs2) => Indexed(s.(fs := fs2), k, size)
  }

  function SaveResult(s: State, k: Key, data: Bytes): (State, Outcome) {
    SaveAt(s, k, Phys(k.dir), Phys(PathOf(k)), data, |data|)
  }

  // The same at a path in any spelling: its directory is made, the bytes written, the row upserted.
  function SavePath(s: State, k: Key, path: string, data: Bytes): (State, Outcome) {
    var fs1 := MakeDirs(s.fs, PathParent(path));
    match PutFile(fs1, path, data)
    case Err(_) => (s.(fs := fs1), Err(Io))
    case Ok(fs2) => Indexed(s.(fs := fs2), k, |data|)
  }

  // save_file takes any name: it is appended to the resolved directory, but the row gets `dir` and the
  // name as given.
  function SaveNamed(s: State, owner: string, dir: string, name: string, data: Bytes): (State, Outcome) {
    SavePath(s, Key(owner, dir, name), Phys(dir) + "/" + name, data)
  }

  // Unless the name climbs, its pieces become directories and a file below `dir`.
  lemma SaveBelow(s: State, owner: string, dir: string, name: string, data: Bytes)
    requires Normal(dir) && "/User/" <= dir && NoClimb(name)
    ensures SaveNamed(s, owner, dir, name, data) ==
            if Refused(name) then (s.(fs := TryCreateDir(s.fs, PiecesParent(dir, Pieces(name)))), Err(Io))
            else SaveAt(s, Key(owner, dir, name), PiecesParent(dir, Pieces(name)), Phys(dir) + Slashed(Pieces(name)), data, |data|)
  {
    var full := Phys(dir) + "/" + name;
    JoinedForm(dir, name);
    JoinedPath(dir, name);
    ParentPieces(full);
  }

  // save_file of a plain name succeeds and keeps the agreement exactly when the parent is a directory and the
  // name is not taken by one; it breaks the agreement exactly when it had to create parents.
  lemma SaveAgreement(s: State, k: Key, data: Bytes)
    requires Valid(s) && Agree(s) && InDomain(s.users, k) && Normal(k.dir)
    ensures var (s', r) := SaveResult(s, k, data);
            && Valid(s')
            && (r.Ok? && Agree(s') <==> IsDir(s.fs, Phys(k.dir)) && !IsDir(s.fs, Phys(PathOf(k))))
            && (!Agree(s') <==> CreateDir(s.fs, Phys(k.dir)).Ok? && !IsDir(s.fs, Phys(k.dir)))
  {
    if IsDir(s.fs, Phys(k.dir)) {
      SaveIntoDir(s, k, data);
      CreateExistingDir(s.fs, Phys(k.dir));
    } else if CreateDir(s.fs, Phys(k.dir)).Err? {
      WriteBlocked(s.fs, k.dir, k.name, data);
      assert SaveResult(s, k, data).0 == s;
    } else {
      SaveCreatesParent(s, k, data);
    }
  }

  lemma SaveIntoDir(s: State, k: Key, data: Bytes)
    requires Valid(s) && Agree(s) && InDomain(s.users, k) && IsDir(s.fs, Phys(k.dir))
    ensures var (s', r) := SaveResult(s, k, data);
            Valid(s') && Agree(s') && (r.Ok? <==> !IsDir(s.fs, Phys(PathOf(k))))
  {
    var (s', r) := SaveResult(s, k, data);
    CreateExistingDir(s.fs, Phys(k.dir));
    WriteBelowDir(s.fs, k.dir, k.name, data);
    if r.Ok? {
      SaveValid(s, s', k, data);
      AgreeAfterInsert(s, s', k);
    }
  }

  lemma SaveCreatesParent(s: State, k: Key, data: Bytes)
    requires Valid(s) && Agree(s) && InDomain(s.users, k) && Normal(k.dir)
    requires CreateDir(s.fs, Phys(k.dir)).Ok? && !IsDir(s.fs, Phys(k.dir))
    ensures var (s', r) := SaveResult(s, k, data); Valid(s') && !Agree(s')
  {
    var (s', r) := SaveResult(s, k, data);
    var s1 := s.(fs := TryCreateDir(s.fs, Phys(k.dir)));
    assert Phys(k.dir) in Chain(Phys(k.dir)) && !IsFile(s.fs, Phys(k.dir));
    var parent := MissingParentKey(s, k);
    CreateDirOnlyTracked(s, k.user, k.dir);
    FrameValid(s, s1, k.user);
    AbsentBelowAbsent(s.fs, k.dir, k.name);
    assert |k.dir| < |PathOf(k)|;
    AtCreateDir(s.fs, Phys(k.dir), Phys(PathOf(k)));
    AtCreateDir(s.fs, Phys(k.dir), Phys(k.dir));
    WriteBelowDir(s1.fs, k.dir, k.name, data);
    SaveValid(s1, s', k, data);
    assert IndexView(s'.cloud, parent) == Absent;
    assert TreeView(s'.fs, k.dir) == Directory;
    assert InDomain(s'.users, parent);
  }

  lemma AbsentBelowAbsent(fs: Tree, dir: string, name: string)
    requires WellFormed(fs) && Phys(dir) !in fs && '/' !in name
    ensures Phys(Child(dir, name)) !in fs
  {
    AboveChild(Phys(dir), Phys(dir), name);
    assert Phys(Child(dir, name)) == Child(Phys(dir), name);
  }

  lemma WriteBelowDir(fs: Tree, dir: string, name: string, data: Bytes)
    requires WellFormed(fs) && IsDir(fs, Phys(dir)) && '/' !in name
    ensures var p := Phys(Child(dir, name));
            Write(fs, p, data) == if IsDir(fs, p) then Err(()) else Ok(fs[p := File(data)])
  {
    ChainBelowDir(fs, dir, name);
    var p := Phys(Child(dir, name));
    assert WithDirs(fs, Chain(p) - {p}) == fs;
  }

  lemma WriteBlocked(fs: Tree, dir: string, name: string, data: Bytes)
    requires CreateDir(fs, Phys(dir)).Err? && '/' !in name
    ensures Write(fs, Phys(Child(dir, name)), data).Err?
  {
    var a :| a in Chain(Phys(dir)) && IsFile(fs, a);
    assert Phys(Child(dir, name)) == Child(Phys(dir), name);
    AboveChild(a, Phys(dir), name);
    assert a in Chain(Phys(Child(dir, name))) - {Phys(Child(dir, name))};
  }

  lemma SaveValid(s: State, s': State, k: Key, data: Bytes)
    requires Valid(s) && InDomain(s.users, k)
    requires s'.fs == s.fs[Phys(PathOf(k)) := File(data)] && Write(s.fs, Phys(PathOf(k)), data) == Ok(s'.fs)
    requires s'.users == s.users && s'.trash == s.trash && s'.nextId >= s.nextId
    ensures Valid(s')
  {
    WriteWellFormed(s.fs, Phys(PathOf(k)), data);
    assert Phys(PathOf(k))[4..] == PathOf(k);
    assert OnlyTracked(s.fs, s'.fs, k.user);
    FrameValid(s, s', k.user);
  }
}
