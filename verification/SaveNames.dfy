/**
  save_file with a name the client chose freely: the name is not checked, so it may hold slashes.
 */
module SaveNames {
  import opened Wrappers
  import opened Text
  import opened VirtualPath
  import opened FileTree
  import opened DotPaths
  import opened StorageState
  import opened StorageIndex
  import opened StorageRestore

  // Where the bytes of the name go and what stands above them.
  function Spot(dir: string, name: string): string {
    dir + Slashed(Pieces(name))
  }

  // A directory of the owner's tree outside .Trash, and a name that does not lead into .Trash.
  ghost predicate SavePlace(users: set<string>, owner: string, dir: string, name: string) {
    && owner in users && Normal(dir) && (dir == Home(owner) || Tracked(owner, dir))
    && NoClimb(name) && (Pieces(name) != [] ==> Tracked(owner, Spot(dir, name)))
  }

  lemma PlainIsOnePiece(name: string)
    requires PlainName(name) && NoClimb(name)
    ensures Pieces(name) == [name] && Slashed(Pieces(name)) == "/" + name && !Refused(name)
  {
    SplitWithout(name, '/');
    FilterAll([name], (n: string) => n != "");
    FilterAll([name], (n: string) => n != ".");
    assert Components(name) == [name] && ".." !in [name];
    assert Slashed([name][1..]) == "";
    assert name[|name| - 1] in name;
  }

  // A name of one component is saved as the rest of this model describes.
  lemma PlainNameSaved(s: State, owner: string, dir: string, name: string, data: Bytes)
    requires PlainName(name) && NoClimb(name) && Normal(dir) && "/User/" <= dir
    ensures SaveNamed(s, owner, dir, name, data) == SaveResult(s, Key(owner, dir, name), data)
  {
    PlainIsOnePiece(name);
    SaveBelow(s, owner, dir, name, data);
    OnePiecePaths(dir, name, Pieces(name));
  }

  lemma OnePiecePaths(dir: string, name: string, pieces: seq<string>)
    requires pieces == [name] && Slashed(pieces) == "/" + name && "/" <= dir
    ensures PiecesParent(dir, pieces) == Phys(dir) && Phys(dir) + Slashed(pieces) == Phys(Child(dir, name))
  {
    assert [name][..0] == [];
    assert Phys(dir) + "" == Phys(dir);
    Regroup(VOLUME, dir, "/" + name);
    assert Child(dir, name) == dir + ("/" + name);
  }

  // ---- The object and the directory above it -----------------------------------------------------

  lemma WritableHasPiece(name: string)
    requires !Refused(name)
    ensures Pieces(name) != []
  {
    SomePiece(name);
    var last := Components(name)[|Components(name)| - 1];
    assert last in Components(name) && last in Pieces(name);
  }

  // The key whose path is the spot of the name.
  lemma SpotKey(owner: string, dir: string, name: string) returns (q: Key)
    requires Pieces(name) != [] && "/" <= dir
    ensures q.user == owner && PathOf(q) == Spot(dir, name) && PlainName(q.name)
    ensures Phys(PathOf(q)) == Phys(dir) + Slashed(Pieces(name))
    ensures Phys(q.dir) == PiecesParent(dir, Pieces(name))
    ensures |Pieces(name)| == 1 ==> q.dir == dir
    ensures |Pieces(name)| > 1 ==>
              exists d, n {:trigger Child(d, n)} :: PlainName(n) && q.dir == Child(d, n)
  {
    var pieces := Pieces(name);
    var front, last := pieces[..|pieces| - 1], pieces[|pieces| - 1];
    assert pieces == front + [last] && last in pieces;
    PiecesNoBlank(name);
    q := Key(owner, dir + Slashed(front), last);
    PieceBelow(dir, front, last);
    Regroup(VOLUME, dir, Slashed(pieces));
    Regroup(VOLUME, dir, Slashed(front));
    if front != [] {
      var rest, m := front[..|front| - 1], front[|front| - 1];
      assert front == rest + [m] && m in pieces;
      PieceBelow(dir, rest, m);
    }
  }

  lemma PieceBelow(dir: string, front: seq<string>, last: string)
    ensures dir + Slashed(front + [last]) == Child(dir + Slashed(front), last)
  {
    LastPiece(front, last);
    Regroup(dir, Slashed(front), "/");
    Regroup(dir, Slashed(front) + "/", last);
  }

  // Making the directory above the spot changes tracked objects only.
  lemma OpenSpot(s: State, owner: string, dir: string, name: string)
    requires Valid(s) && SavePlace(s.users, owner, dir, name) && "/User/" <= dir
    ensures var s1 := s.(fs := TryCreateDir(s.fs, PiecesParent(dir, Pieces(name))));
            Valid(s1) && OnlyTracked(s.fs, s1.fs, owner)
  {
    assert ValidName(owner);
    if Pieces(name) != [] {
      var q := SpotKey(owner, dir, name);
      TrackedParent(owner, q.dir, q.name);
      OpenTracked(s, owner, q.dir);
    } else if dir == Home(owner) {
      UsersDirectory(s, owner);
      CreateExistingDir(s.fs, Phys(Parent(dir)));
    } else {
      var k := TrackedKey(owner, dir);
      OpenTracked(s, owner, k.dir);
    }
  }

  lemma UsersDirectory(s: State, owner: string)
    requires Valid(s) && owner in s.users
    ensures Parent(Home(owner)) == "/User" && IsDir(s.fs, Phys("/User"))
  {
    assert ValidName(owner) && Home(owner) == Child("/User", owner) && IsDir(s.fs, Phys(Home(owner)));
    SplitLast("/User", owner);
    AboveChild("/User", "/User", owner);
    PhysUnder(Home(owner), "/User");
  }

  // A name that does not climb, nor lead into .Trash: only tracked objects change and the trash is left alone.
  lemma SaveNamedFrame(s: State, owner: string, dir: string, name: string, data: Bytes)
    requires Valid(s) && SavePlace(s.users, owner, dir, name) && "/User/" <= dir
    ensures var s' := SaveNamed(s, owner, dir, name, data).0;
            Valid(s') && OnlyTracked(s.fs, s'.fs, owner) && s'.trash == s.trash && s'.users == s.users
  {
    SaveBelow(s, owner, dir, name, data);
    if Refused(name) {
      OpenSpot(s, owner, dir, name);
    } else {
      WritableHasPiece(name);
      var q := SpotKey(owner, dir, name);
      SaveAtFrame(s, Key(owner, dir, name), q.dir, q.name, data, |data|);
    }
  }

  // ---- Agreement -------------------------------------------------------------------------------------

  // The row a missing directory above the spot would need.
  lemma MissingAbove(s: State, owner: string, dir: string, name: string) returns (parent: Key)
    requires Valid(s) && Agree(s) && SavePlace(s.users, owner, dir, name) && "/User/" <= dir
    requires PiecesParent(dir, Pieces(name)) !in s.fs
    ensures InDomain(s.users, parent) && Phys(PathOf(parent)) == PiecesParent(dir, Pieces(name))
    ensures parent !in s.cloud && parent != Key(owner, dir, name)
  {
    assert ValidName(owner) && IsDir(s.fs, Phys(Home(owner)));
    if Pieces(name) != [] {
      var q := SpotKey(owner, dir, name);
      TrackedParent(owner, q.dir, q.name);
      if |Pieces(name)| == 1 {
        parent := TrackedKey(owner, dir);
      } else {
        var d, n :| PlainName(n) && q.dir == Child(d, n);
        parent := Key(owner, d, n);
      }
      if parent == Key(owner, dir, name) { PlainIsOnePiece(name); }
    } else {
      UsersDirectory(s, owner);
      var k := TrackedKey(owner, dir);
      parent := MissingParentKey(s, k);
      if parent == Key(owner, dir, name) { PlainIsOnePiece(name); }
    }
    assert InDomain(s.users, parent);
  }

  // A directory appears that has no row.
  lemma NewAboveDisagrees(s: State, s': State, owner: string, dir: string, name: string)
    requires Valid(s) && Agree(s) && SavePlace(s.users, owner, dir, name) && "/User/" <= dir && s'.users == s.users
    requires PiecesParent(dir, Pieces(name)) !in s.fs && IsDir(s'.fs, PiecesParent(dir, Pieces(name)))
    requires forall k {:trigger k in s'.cloud} :: k in s'.cloud ==> k in s.cloud || k == Key(owner, dir, name)
    ensures !Agree(s')
  {
    var parent := MissingAbove(s, owner, dir, name);
    assert InDomain(s'.users, parent);
    assert TreeView(s'.fs, PathOf(parent)) == Directory;
  }

  lemma SlashNameAgreement(s: State, owner: string, dir: string, name: string, data: Bytes)
    requires Valid(s) && Agree(s) && SavePlace(s.users, owner, dir, name) && "/User/" <= dir && Refused(name)
    ensures var (s', r) := SaveNamed(s, owner, dir, name, data);
            var opDir := PiecesParent(dir, Pieces(name));
            r.Err? && (Agree(s') <==> IsDir(s.fs, opDir) || CreateDir(s.fs, opDir).Err?)
  {
    var opDir := PiecesParent(dir, Pieces(name));
    SaveBelow(s, owner, dir, name, data);
    if IsDir(s.fs, opDir) {
      CreateExistingDir(s.fs, opDir);
    } else if CreateDir(s.fs, opDir).Ok? {
      assert opDir in Chain(opDir);
      NewAboveDisagrees(s, SaveNamed(s, owner, dir, name, data).0, owner, dir, name);
    }
  }

  // What write does at q once the directory above it is made.
  ghost predicate WritesBelow(fs: Tree, q: Key, data: Bytes) {
    if CreateDir(fs, Phys(q.dir)).Err? then Write(fs, Phys(PathOf(q)), data).Err?
    else
      var fs1 := TryCreateDir(fs, Phys(q.dir));
      && Phys(q.dir) != Phys(PathOf(q)) && IsDir(fs1, Phys(q.dir))
      && Write(fs1, Phys(PathOf(q)), data) ==
           if IsDir(fs, Phys(PathOf(q))) then Err(()) else Ok(fs1[Phys(PathOf(q)) := File(data)])
  }

  lemma KeyWrites(fs: Tree, q: Key, data: Bytes)
    requires WellFormed(fs) && '/' !in q.name
    ensures WritesBelow(fs, q, data)
  {
    assert |Phys(q.dir)| < |Phys(PathOf(q))|;
    if CreateDir(fs, Phys(q.dir)).Ok? {
      CreateDirWellFormed(fs, Phys(q.dir));
      AtCreateDir(fs, Phys(q.dir), Phys(q.dir));
      AtCreateDir(fs, Phys(q.dir), Phys(PathOf(q)));
      WriteBelowDir(TryCreateDir(fs, Phys(q.dir)), q.dir, q.name, data);
    } else {
      WriteBlocked(fs, q.dir, q.name, data);
    }
  }

  // The directory stands already: only the row's name decides.
  lemma SavedThere(s: State, s': State, r: Outcome, k: Key, q: Key, data: Bytes)
    requires Valid(s) && Agree(s) && k.user in s.users && IsDir(s.fs, Phys(q.dir))
    requires WritesBelow(s.fs, q, data) && (PlainName(k.name) ==> k == q && InDomain(s.users, q))
    requires (s', r) == SaveAt(s, k, Phys(q.dir), Phys(PathOf(q)), data, |data|)
    ensures r.Ok? <==> !IsDir(s.fs, Phys(PathOf(q)))
    ensures Agree(s') <==> PlainName(k.name) || r.Err?
  {
    CreateExistingDir(s.fs, Phys(q.dir));
    if r.Ok? {
      assert k in s'.cloud;
      if PlainName(k.name) { AgreeAfterInsert(s, s', q); }
    }
  }

  lemma SavedBelowNew(s: State, s': State, r: Outcome, owner: string, dir: string, name: string, q: Key, data: Bytes)
    requires Valid(s) && Agree(s) && SavePlace(s.users, owner, dir, name) && "/User/" <= dir
    requires Phys(q.dir) == PiecesParent(dir, Pieces(name)) && CreateDir(s.fs, Phys(q.dir)).Ok? && !IsDir(s.fs, Phys(q.dir))
    requires WritesBelow(s.fs, q, data)
    requires (s', r) == SaveAt(s, Key(owner, dir, name), Phys(q.dir), Phys(PathOf(q)), data, |data|)
    ensures (r.Ok? <==> !IsDir(s.fs, Phys(PathOf(q)))) && !Agree(s')
  {
    assert Phys(q.dir) in Chain(Phys(q.dir));
    NewAboveDisagrees(s, s', owner, dir, name);
  }

  lemma PlainSpot(q: Key, owner: string, dir: string, name: string)
    requires q.user == owner && PathOf(q) == Spot(dir, name) && '/' !in q.name && NoClimb(name)
    ensures PlainName(name) ==> q == Key(owner, dir, name)
  {
    if PlainName(name) {
      PlainIsOnePiece(name);
      Regroup(dir, "/", name);
      ChildInjective(q.dir, q.name, dir, name);
    }
  }

  lemma SavedAtSpot(s: State, owner: string, dir: string, name: string, data: Bytes) returns (q: Key)
    requires Valid(s) && SavePlace(s.users, owner, dir, name) && "/User/" <= dir && !Refused(name)
    ensures InDomain(s.users, q) && (PlainName(name) ==> q == Key(owner, dir, name))
    ensures Phys(q.dir) == PiecesParent(dir, Pieces(name)) && PathOf(q) == Spot(dir, name)
    ensures SaveNamed(s, owner, dir, name, data)
            == SaveAt(s, Key(owner, dir, name), Phys(q.dir), Phys(PathOf(q)), data, |data|)
  {
    WritableHasPiece(name);
    q := SpotKey(owner, dir, name);
    PlainSpot(q, owner, dir, name);
    SaveBelow(s, owner, dir, name, data);
  }

  lemma WrittenNameAgreement(s: State, owner: string, dir: string, name: string, data: Bytes)
    requires Valid(s) && Agree(s) && SavePlace(s.users, owner, dir, name) && "/User/" <= dir && !Refused(name)
    ensures var (s', r) := SaveNamed(s, owner, dir, name, data);
            var opDir := PiecesParent(dir, Pieces(name));
            && (r.Ok? <==> CreateDir(s.fs, opDir).Ok? && !IsDir(s.fs, Phys(Spot(dir, name))))
            && (Agree(s') <==> (PlainName(name) || r.Err?) && (IsDir(s.fs, opDir) || CreateDir(s.fs, opDir).Err?))
  {
    var (s', r) := SaveNamed(s, owner, dir, name, data);
    var q := SavedAtSpot(s, owner, dir, name, data);
    KeyWrites(s.fs, q, data);
    SpotAgreement(s, s', r, owner, dir, name, q, data);
  }

  lemma SpotAgreement(s: State, s': State, r: Outcome, owner: string, dir: string, name: string, q: Key, data: Bytes)
    requires Valid(s) && Agree(s) && SavePlace(s.users, owner, dir, name) && "/User/" <= dir && InDomain(s.users, q)
    requires (s', r) == SaveAt(s, Key(owner, dir, name), Phys(q.dir), Phys(PathOf(q)), data, |data|)
    requires PlainName(name) ==> q == Key(owner, dir, name)
    requires Phys(q.dir) == PiecesParent(dir, Pieces(name)) && WritesBelow(s.fs, q, data)
    ensures r.Ok? <==> CreateDir(s.fs, Phys(q.dir)).Ok? && !IsDir(s.fs, Phys(PathOf(q)))
    ensures Agree(s') <==> (PlainName(name) || r.Err?) && (IsDir(s.fs, Phys(q.dir)) || CreateDir(s.fs, Phys(q.dir)).Err?)
  {
    if IsDir(s.fs, Phys(q.dir)) {
      CreateExistingDir(s.fs, Phys(q.dir));
      SavedThere(s, s', r, Key(owner, dir, name), q, data);
    } else if CreateDir(s.fs, Phys(q.dir)).Ok? {
      SavedBelowNew(s, s', r, owner, dir, name, q, data);
    }
  }

  // For every name: save_file succeeds exactly when the name does not end in a slash, the
  // directories above can be made and no directory has the path; tree and index agree afterwards
  // exactly when no directory had to be made and no row with a slash in its name was written.
  lemma SaveNamedAgreement(s: State, owner: string, dir: string, name: string, data: Bytes)
    requires Valid(s) && Agree(s) && SavePlace(s.users, owner, dir, name) && "/User/" <= dir
    ensures var (s', r) := SaveNamed(s, owner, dir, name, data);
            var opDir := PiecesParent(dir, Pieces(name));
            && Valid(s')
            && (r.Ok? <==> !Refused(name) && CreateDir(s.fs, opDir).Ok? && !IsDir(s.fs, Phys(Spot(dir, name))))
            && (Agree(s') <==> (PlainName(name) || r.Err?) && (IsDir(s.fs, opDir) || CreateDir(s.fs, opDir).Err?))
  {
    SaveNamedFrame(s, owner, dir, name, data);
    if Refused(name) {
      SlashNameAgreement(s, owner, dir, name, data);
    } else {
      WrittenNameAgreement(s, owner, dir, name, data);
    }
  }

  // A name with a slash that is saved at all, wherever its pieces lead, leaves a row that no path has.
  lemma SlashRowDisagrees(s: State, owner: string, dir: string, name: string, data: Bytes)
    requires '/' in name
    ensures var (s', r) := SaveNamed(s, owner, dir, name, data); r.Ok? ==> !Agree(s')
  {
    var (s', r) := SaveNamed(s, owner, dir, name, data);
    if r.Ok? { assert Key(owner, dir, name) in s'.cloud; }
  }

  // ---- Into .Trash ---------------------------------------------------------------------------------

  // A directory of the owner's home, and a name that leads into .Trash.
  ghost predicate TrashSpot(users: set<string>, owner: string, dir: string, name: string) {
    && owner in users && Normal(dir) && Under(dir, Home(owner)) && NoClimb(name)
    && Under(if Pieces(name) == [] then dir else Spot(dir, name), TrashRoot(owner))
  }

  // No tracked object stands on the way to a path in .Trash.
  lemma NoneOnTheWay(users: set<string>, owner: string, p: string, j: Key)
    requires ValidName(owner) && ValidName(j.user) && InDomain(users, j) && Under(p, TrashRoot(owner))
    ensures Phys(PathOf(j)) !in Chain(Phys(p))
  {
    PhysUnder(p, PathOf(j));
    if Under(p, PathOf(j)) {
      TrackedBelow(j.user, PathOf(j), p);
      assert Above(Home(owner), TrashRoot(owner));
      AboveTransitive(Home(owner), TrashRoot(owner), p);
      HomesApart(j.user, owner, p);
    }
  }

  lemma TrashDirMade(s: State, owner: string, p: string, j: Key)
    requires Valid(s) && owner in s.users && InDomain(s.users, j) && (p == Home(owner) || Under(p, TrashRoot(owner)))
    ensures At(TryCreateDir(s.fs, Phys(p)), Phys(PathOf(j))) == At(s.fs, Phys(PathOf(j)))
  {
    if p == Home(owner) {
      assert IsDir(s.fs, Phys(Home(owner)));
      CreateExistingDir(s.fs, Phys(p));
    } else {
      assert ValidName(owner) && ValidName(j.user);
      NoneOnTheWay(s.users, owner, p, j);
    }
  }

  lemma TrashWritten(fs: Tree, users: set<string>, owner: string, p: string, data: Bytes, j: Key)
    requires ValidName(owner) && ValidName(j.user) && InDomain(users, j) && Under(p, TrashRoot(owner)) && Write(fs, Phys(p), data).Ok?
    ensures At(Write(fs, Phys(p), data).value, Phys(PathOf(j))) == At(fs, Phys(PathOf(j)))
  {
    NoneOnTheWay(users, owner, p, j);
  }

  lemma AboveTrash(owner: string, q: Key)
    requires '/' !in q.name && Under(PathOf(q), TrashRoot(owner))
    ensures q.dir == Home(owner) || Under(q.dir, TrashRoot(owner))
  {
    assert TrashRoot(owner) == Child(Home(owner), ".Trash");
    AboveChild(TrashRoot(owner), q.dir, q.name);
    if PathOf(q) == TrashRoot(owner) { ChildInjective(q.dir, q.name, Home(owner), ".Trash"); }
  }

  // The directory above the spot, in .Trash or the home.
  lemma AboveTrashSpot(users: set<string>, owner: string, dir: string, name: string) returns (p: string)
    requires ValidName(owner) && TrashSpot(users, owner, dir, name) && "/User/" <= dir
    ensures PiecesParent(dir, Pieces(name)) == Phys(p) && (p == Home(owner) || Under(p, TrashRoot(owner)))
  {
    if Pieces(name) == [] {
      var q := RoutedKey(dir);
      p := q.dir;
      AboveTrash(owner, q);
    } else {
      var q := SpotKey(owner, dir, name);
      p := q.dir;
      AboveTrash(owner, q);
    }
  }

  // What a tracked object is, whatever is made or written in .Trash.
  lemma TrashSaveTree(s: State, k: Key, owner: string, p: string, spot: string, data: Bytes, j: Key)
    requires Valid(s) && owner in s.users && InDomain(s.users, j) && (p == Home(owner) || Under(p, TrashRoot(owner)))
    requires Under(spot, TrashRoot(owner)) && k != j
    ensures var s' := SaveAt(s, k, Phys(p), Phys(spot), data, |data|).0;
            TreeView(s'.fs, PathOf(j)) == TreeView(s.fs, PathOf(j)) && IndexView(s'.cloud, j) == IndexView(s.cloud, j)
  {
    TrashDirMade(s, owner, p, j);
    TrashPut(s, TryCreateDir(s.fs, Phys(p)), owner, spot, data, j);
  }

  lemma TrashPut(s: State, fs: Tree, owner: string, spot: string, data: Bytes, j: Key)
    requires Valid(s) && owner in s.users && InDomain(s.users, j) && Under(spot, TrashRoot(owner))
    ensures Write(fs, Phys(spot), data).Ok? ==>
              At(Write(fs, Phys(spot), data).value, Phys(PathOf(j))) == At(fs, Phys(PathOf(j)))
  {
    assert ValidName(owner) && ValidName(j.user);
    if Write(fs, Phys(spot), data).Ok? { TrashWritten(fs, s.users, owner, spot, data, j); }
  }

  lemma TrashMakeTree(s: State, owner: string, p: string, j: Key)
    requires Valid(s) && owner in s.users && InDomain(s.users, j) && (p == Home(owner) || Under(p, TrashRoot(owner)))
    ensures TreeView(TryCreateDir(s.fs, Phys(p)), PathOf(j)) == TreeView(s.fs, PathOf(j))
  {
    TrashDirMade(s, owner, p, j);
  }

  lemma TrashSaveView(s: State, owner: string, dir: string, name: string, data: Bytes, j: Key)
    requires Valid(s) && TrashSpot(s.users, owner, dir, name) && "/User/" <= dir && InDomain(s.users, j)
    ensures var s' := SaveNamed(s, owner, dir, name, data).0;
            TreeView(s'.fs, PathOf(j)) == TreeView(s.fs, PathOf(j)) && IndexView(s'.cloud, j) == IndexView(s.cloud, j)
  {
    assert ValidName(owner);
    SaveBelow(s, owner, dir, name, data);
    var p := AboveTrashSpot(s.users, owner, dir, name);
    TrashKeyUntracked(s.users, owner, dir, name, j);
    if Refused(name) {
      TrashMakeTree(s, owner, p, j);
    } else {
      WritableHasPiece(name);
      Regroup(VOLUME, dir, Slashed(Pieces(name)));
      TrashSaveTree(s, Key(owner, dir, name), owner, p, Spot(dir, name), data, j);
    }
  }

  lemma PlainSpotIs(dir: string, name: string)
    requires PlainName(name) && NoClimb(name)
    ensures Pieces(name) != [] && Spot(dir, name) == Child(dir, name)
  {
    PlainIsOnePiece(name);
    Regroup(dir, "/", name);
  }

  lemma TrashKeyUntracked(users: set<string>, owner: string, dir: string, name: string, j: Key)
    requires InDomain(users, j) && TrashSpot(users, owner, dir, name)
    ensures j != Key(owner, dir, name)
  {
    if PlainName(name) { PlainSpotIs(dir, name); }
  }

  // Saving into .Trash keeps the agreement, which says nothing of what lies there, unless a row with a
  // slash in its name is written.
  lemma TrashSaveAgreement(s: State, owner: string, dir: string, name: string, data: Bytes)
    requires Valid(s) && Agree(s) && TrashSpot(s.users, owner, dir, name) && "/User/" <= dir
    ensures var (s', r) := SaveNamed(s, owner, dir, name, data);
            Agree(s') <==> PlainName(name) || r.Err?
  {
    var (s', r) := SaveNamed(s, owner, dir, name, data);
    SaveBelow(s, owner, dir, name, data);
    assert s'.users == s.users;
    forall j {:trigger InDomain(s'.users, j)} | InDomain(s'.users, j) ensures IndexView(s'.cloud, j) == TreeView(s'.fs, PathOf(j)) {
      assert InDomain(s.users, j);
      TrashSaveView(s, owner, dir, name, data, j);
    }
    if r.Ok? { assert Key(owner, dir, name) in s'.cloud; }
  }
}
