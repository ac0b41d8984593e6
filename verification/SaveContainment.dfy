/**
  save_file of a name with ".." in it: the access check looks at the directory only, and the file system
  takes the name from there.
 */
module SaveContainment {
  import opened Wrappers
  import opened Text
  import opened VirtualPath
  import opened FileTree
  import opened DotPaths
  import opened StorageState
  import opened StorageIndex
  import opened StorageTrash
  import opened StorageRequests
  import opened FreshState
  import opened TrashPaths

  // Nothing outside the owner's home changes.
  ghost predicate OutsideKept(fs: Tree, fs': Tree, owner: string) {
    forall q {:trigger At(fs', q)} :: !Under(q, Phys(Home(owner))) ==> At(fs', q) == At(fs, q)
  }

  // At or below the home, or one of the directories above it.
  predicate Inside(owner: string, q: string) {
    q == "" || Under(q, Phys(Home(owner))) || Above(q, Phys(Home(owner)))
  }

  // The objects the request makes its way through: the directories, then the file if one can be written.
  function Touched(path: string): seq<string> {
    Steps(if Refused(path) then Front(Pieces(path)) else Pieces(path))
  }

  // Following the pieces of the name never leads out of the home.
  ghost predicate StaysInside(owner: string, dir: string, name: string) {
    var path := Phys(dir) + "/" + name;
    NoClimb(PathParent(path)) || forall q {:trigger q in Touched(path)} :: q in Touched(path) ==> Inside(owner, q)
  }

  ghost predicate HomeStands(fs: Tree, owner: string) {
    forall a {:trigger IsDir(fs, a)} :: a == Phys(Home(owner)) || (a != "" && Above(a, Phys(Home(owner)))) ==> IsDir(fs, a)
  }

  lemma ValidHomeStands(s: State, owner: string)
    requires Valid(s) && owner in s.users
    ensures HomeStands(s.fs, owner)
  {
  }

  lemma KeptTransitive(a: Tree, b: Tree, c: Tree, owner: string)
    requires OutsideKept(a, b, owner) && OutsideKept(b, c, owner)
    ensures OutsideKept(a, c, owner)
  {
    forall q | !Under(q, Phys(Home(owner))) ensures At(c, q) == At(a, q) { assert At(b, q) == At(a, q); }
  }

  // ---- Without climbing ----------------------------------------------------------------------------

  lemma ChainInside(fs: Tree, owner: string, op: string, a: string)
    requires HomeStands(fs, owner) && Inside(owner, op) && a in Chain(op) && !IsDir(fs, a) && a != ""
    ensures Under(a, Phys(Home(owner)))
  {
    var home := Phys(Home(owner));
    if Above(op, home) {
      AboveTransitive(a, op, home);
    } else if op != "" {
      AncestorsComparable(a, home, op);
    }
  }

  lemma CreateDirInside(fs: Tree, owner: string, op: string)
    requires HomeStands(fs, owner) && Inside(owner, op) && op != ""
    ensures OutsideKept(fs, TryCreateDir(fs, op), owner) && HomeStands(TryCreateDir(fs, op), owner)
  {
    CreateDirAdds(fs, op);
    var fs' := TryCreateDir(fs, op);
    forall q | !Under(q, Phys(Home(owner))) ensures At(fs', q) == At(fs, q) {
      if q in Chain(op) && !IsDir(fs, q) { ChainInside(fs, owner, op, q); }
    }
    forall a | IsDir(fs, a) ensures IsDir(fs', a) { assert At(fs', a) == At(fs, a); }
  }

  lemma WriteInside(fs: Tree, owner: string, op: string, data: Bytes)
    requires HomeStands(fs, owner) && Above(Phys(Home(owner)), op) && Write(fs, op, data).Ok?
    ensures OutsideKept(fs, Write(fs, op, data).value, owner)
  {
    var fs' := Write(fs, op, data).value;
    forall q | !Under(q, Phys(Home(owner))) ensures At(fs', q) == At(fs, q) {
      if q in Chain(op) && !IsDir(fs, q) { ChainInside(fs, owner, op, q); }
    }
  }

  lemma SlashedBelow(dir: string, pieces: seq<string>)
    ensures Under(Phys(dir) + Slashed(pieces), Phys(dir)) && (pieces != [] ==> Above(Phys(dir), Phys(dir) + Slashed(pieces)))
  {
    if pieces == [] { assert Phys(dir) + "" == Phys(dir); }
  }

  // The directory above the object, and the object, for a name that does not climb.
  lemma PlacesInside(owner: string, dir: string, pieces: seq<string>)
    requires ValidName(owner) && Normal(dir) && Under(dir, Home(owner)) && "/" <= dir
    ensures PiecesParent(dir, pieces) != "" && Inside(owner, PiecesParent(dir, pieces))
    ensures pieces != [] ==> Above(Phys(Home(owner)), Phys(dir) + Slashed(pieces))
  {
    PhysUnder(dir, Home(owner));
    if pieces != [] {
      SlashedBelow(dir, pieces);
      SlashedBelow(dir, pieces[..|pieces| - 1]);
      AboveTransitive(Phys(Home(owner)), Phys(dir), Phys(dir) + Slashed(pieces));
      AboveTransitive(Phys(Home(owner)), Phys(dir), Phys(dir) + Slashed(pieces[..|pieces| - 1]));
    } else {
      ParentInside(owner, dir);
    }
  }

  lemma ParentInside(owner: string, dir: string)
    requires ValidName(owner) && Normal(dir) && Under(dir, Home(owner)) && "/" <= dir
    ensures Inside(owner, Phys(Parent(dir)))
  {
    HomeBelow(owner, dir);
    var k := RoutedKey(dir);
    HomesApart(owner, k.user, dir);
    if dir == Home(owner) {
      assert Home(owner) == Child("/User", owner);
      SplitLast("/User", owner);
      AboveChild("/User", "/User", owner);
      PhysUnder(Home(owner), "/User");
    } else {
      PhysUnder(k.dir, Home(owner));
    }
  }

  lemma UnclimbedKept(s: State, owner: string, dir: string, name: string, data: Bytes)
    requires Valid(s) && owner in s.users && Normal(dir) && Under(dir, Home(owner)) && NoClimb(PathParent(Phys(dir) + "/" + name))
    ensures OutsideKept(s.fs, SaveNamed(s, owner, dir, name, data).0.fs, owner)
  {
    var path := Phys(dir) + "/" + name;
    HomeBelow(owner, dir);
    ParentPieces(path);
    JoinedForm(dir, name);
    JoinedPath(dir, name);
    ValidHomeStands(s, owner);
    assert ValidName(owner);
    PlacesInside(owner, dir, Pieces(name));
    CreateDirInside(s.fs, owner, PiecesParent(dir, Pieces(name)));
    var fs1 := MakeDirs(s.fs, PathParent(path));
    if PutFile(fs1, path, data).Ok? {
      WritableUnclimbed(path);
      WritablePieces(name);
      WriteInside(fs1, owner, ObjectOf(path), data);
      KeptTransitive(s.fs, fs1, PutFile(fs1, path, data).value, owner);
    }
  }


  // ---- Climbing ------------------------------------------------------------------------------------

  lemma {:induction false} StepsInside(t: Tree, steps: seq<string>, owner: string)
    requires HomeStands(t, owner) && forall q {:trigger q in steps} :: q in steps ==> Inside(owner, q)
    ensures var made := MakeSteps(t, steps); OutsideKept(t, made.tree, owner) && HomeStands(made.tree, owner)
  {
    if steps != [] {
      var front, p := steps[..|steps| - 1], steps[|steps| - 1];
      forall q | q in front ensures Inside(owner, q) { assert q in steps; }
      StepsInside(t, front, owner);
      assert p in steps;
      StepInside(MakeSteps(t, front), MakeSteps(t, steps).tree, owner, p);
      KeptTransitive(t, MakeSteps(t, front).tree, MakeSteps(t, steps).tree, owner);
    }
  }

  lemma StepInside(before: Made, after: Tree, owner: string, p: string)
    requires HomeStands(before.tree, owner) && Inside(owner, p)
    requires after == if !before.ok || IsFile(before.tree, p) || p == "" then before.tree else before.tree[p := Dir]
    ensures OutsideKept(before.tree, after, owner) && HomeStands(after, owner)
  {
    if p != "" && Above(p, Phys(Home(owner))) { assert IsDir(before.tree, p); }
    forall a | IsDir(before.tree, a) ensures IsDir(after, a) {}
  }

  lemma ClimbKept(s: State, owner: string, dir: string, name: string, data: Bytes)
    requires Valid(s) && owner in s.users && !NoClimb(PathParent(Phys(dir) + "/" + name)) && StaysInside(owner, dir, name)
    ensures OutsideKept(s.fs, SaveNamed(s, owner, dir, name, data).0.fs, owner)
  {
    var path := Phys(dir) + "/" + name;
    ValidHomeStands(s, owner);
    ParentPieces(path);
    FrontTouched(path);
    StepsInside(s.fs, Steps(Front(Pieces(path))), owner);
    var fs1 := MakeDirs(s.fs, PathParent(path));
    if PutFile(fs1, path, data).Ok? {
      StepsInside(fs1, Steps(Front(Pieces(path))), owner);
      EndNotRoot(path);
      PutInside(MakeSteps(fs1, Steps(Front(Pieces(path)))).tree, owner, EndOf(Pieces(path)), data);
      ClimbingPut(fs1, path, data);
      KeptTransitive(fs1, MakeSteps(fs1, Steps(Front(Pieces(path)))).tree, PutFile(fs1, path, data).value, owner);
      KeptTransitive(s.fs, fs1, PutFile(fs1, path, data).value, owner);
    }
  }

  lemma ClimbingPut(t: Tree, path: string, data: Bytes)
    requires !NoClimb(PathParent(path)) && PutFile(t, path, data).Ok?
    ensures var made, op := MakeSteps(t, Steps(Front(Pieces(path)))), EndOf(Pieces(path));
            !IsDir(made.tree, op) && PutFile(t, path, data).value == made.tree[op := File(data)]
  {
    ParentPieces(path);
  }

  // The steps to the directory are touched, and so is the object if it can be written.
  lemma FrontTouched(path: string)
    ensures forall q :: q in Steps(Front(Pieces(path))) ==> q in Touched(path)
    ensures !Refused(path) ==> Touched(path) == Steps(Front(Pieces(path))) + [EndOf(Pieces(path))]
    ensures !Refused(path) ==> EndOf(Pieces(path)) in Touched(path)
  {
    if !Refused(path) { WritablePieces(path); }
  }

  lemma EndNotRoot(path: string)
    requires !Refused(path)
    ensures EndOf(Pieces(path)) != ""
  {
    WritablePieces(path);
    PiecesNoBlank(path);
    var front, last := Front(Pieces(path)), Pieces(path)[|Pieces(path)| - 1];
    assert last in Pieces(path);
    JoinSnoc(Settled(front), last);
  }

  lemma PutInside(t: Tree, owner: string, op: string, data: Bytes)
    requires HomeStands(t, owner) && Inside(owner, op) && op != "" && !IsDir(t, op)
    ensures OutsideKept(t, t[op := File(data)], owner)
  {
  }

  // ---- A home where it shows -----------------------------------------------------------------------

  ghost predicate AllDirs(t: Tree) {
    forall q {:trigger t[q]} :: q in t ==> t[q] == Dir
  }

  // Where there are no files every step is made.
  lemma {:induction false} StepsAllMade(t: Tree, steps: seq<string>)
    requires AllDirs(t)
    ensures var made := MakeSteps(t, steps);
            && made.ok && AllDirs(made.tree) && (forall q :: q in t ==> q in made.tree)
            && (forall q :: q in steps && q != "" ==> q in made.tree)
            && forall q :: q in made.tree ==> q in t || q in steps
  {
    if steps != [] {
      var front, p := steps[..|steps| - 1], steps[|steps| - 1];
      StepsAllMade(t, front);
      assert steps == front + [p];
    }
  }

  lemma TouchedAppears(s: State, owner: string, dir: string, name: string, data: Bytes, q: string)
    requires AllDirs(s.fs) && owner in s.users && !NoClimb(PathParent(Phys(dir) + "/" + name))
    requires q in Touched(Phys(dir) + "/" + name) && q != ""
    ensures q in SaveNamed(s, owner, dir, name, data).0.fs
  {
    var path := Phys(dir) + "/" + name;
    var steps := Steps(Front(Pieces(path)));
    ParentPieces(path);
    FrontTouched(path);
    StepsAllMade(s.fs, steps);
    var fs1 := MakeDirs(s.fs, PathParent(path));
    StepsAllMade(fs1, steps);
    assert q in steps ==> q in fs1;
    if !Refused(path) {
      EndNotRoot(path);
      PutAppears(fs1, path, data, MakeSteps(fs1, steps), EndOf(Pieces(path)), q);
    }
  }

  lemma PutAppears(fs1: Tree, path: string, data: Bytes, made: Made, op: string, q: string)
    requires !Refused(path) && !NoClimb(path) && made == MakeSteps(fs1, Steps(Front(Pieces(path)))) && op == EndOf(Pieces(path))
    requires made.ok && (forall p :: p in fs1 ==> p in made.tree) && (forall p :: p in made.tree && p != "" ==> p in fs1)
    requires (q in fs1 || q == op) && op != ""
    ensures match PutFile(fs1, path, data) case Ok(t) => q in t case Err(_) => q in fs1
  {
  }

  // ---- Every name ------------------------------------------------------------------------------------

  lemma OutsideIsNew(owner: string, q: string)
    requires !Inside(owner, q)
    ensures q !in NewState({owner}).fs
  {
  }

  lemma StraysFromNew(owner: string, dir: string, name: string)
    requires ValidName(owner) && !StaysInside(owner, dir, name)
    ensures var s := NewState({owner}); Valid(s) && !OutsideKept(s.fs, SaveNamed(s, owner, dir, name, []).0.fs, owner)
  {
    NewStateIsSound({owner});
    var q :| q in Touched(Phys(dir) + "/" + name) && !Inside(owner, q);
    OutsideIsNew(owner, q);
    TouchedAppears(NewState({owner}), owner, dir, name, [], q);
    Differs(NewState({owner}).fs, SaveNamed(NewState({owner}), owner, dir, name, []).0.fs, owner, q);
  }

  lemma Differs(fs: Tree, fs': Tree, owner: string, q: string)
    requires q !in fs && q in fs' && !Inside(owner, q)
    ensures !OutsideKept(fs, fs', owner)
  {
    assert At(fs', q) != At(fs, q);
  }

  // Whatever the state and the bytes, a granted save changes only the owner's home exactly when the pieces
  // of the name never lead out of it.
  lemma SaveContained(username: string, owner: string, dir: string, name: string)
    requires Normal(dir) && Authorise(username, dir) == Ok(owner)
    ensures (forall s, data {:trigger SaveRequest(s, username, dir, name, data)} :: Valid(s) && owner in s.users ==>
               OutsideKept(s.fs, SaveRequest(s, username, dir, name, data).0.fs, owner))
            <==> StaysInside(owner, dir, name)
  {
    AccessExact(username, dir);
    assert InHomeOf(dir, owner);
    if StaysInside(owner, dir, name) {
      forall s, data | Valid(s) && owner in s.users
        ensures OutsideKept(s.fs, SaveRequest(s, username, dir, name, data).0.fs, owner)
      {
        if NoClimb(PathParent(Phys(dir) + "/" + name)) {
          UnclimbedKept(s, owner, dir, name, data);
        } else {
          ClimbKept(s, owner, dir, name, data);
        }
      }
    } else {
      StraysFromNew(owner, dir, name);
      var s := NewState({owner});
      assert SaveRequest(s, username, dir, name, []) == SaveNamed(s, owner, dir, name, []);
    }
  }

  // ---- An input that leads out -------------------------------------------------------------------------

  // "../b/n"
  function SiblingName(b: string, n: string): string {
    ".." + "/" + (b + "/" + n)
  }

  lemma SiblingPieces(b: string, n: string)
    requires ValidName(b) && ValidName(n)
    ensures Pieces(SiblingName(b, n)) == ["..", b, n] && Components(SiblingName(b, n)) == ["..", b, n]
  {
    OnePiece("..");
    OnePiece(b);
    OnePiece(n);
    ComponentsBelow("..", b + "/" + n);
    ComponentsBelow(b, n);
    PiecesBelow("..", b + "/" + n);
    PiecesBelow(b, n);
    assert [".."] + ([b] + [n]) == ["..", b, n];
  }

  lemma SettledSnoc(front: seq<string>, piece: string)
    ensures Settled(front + [piece]) == Settle(Settled(front), piece)
    ensures Steps(front + [piece]) == Steps(front) + [Join(Settle(Settled(front), piece), '/')]
  {
    assert (front + [piece])[..|front|] == front;
  }

  lemma HomeSettled(a: string)
    requires ValidName(a)
    ensures Settled([VOLUME, "User"]) == [VOLUME, "User"] && Settled([VOLUME, "User", a]) == [VOLUME, "User", a]
    ensures Steps([VOLUME, "User", a]) == [Join([VOLUME], '/'), Join([VOLUME, "User"], '/'), Join([VOLUME, "User", a], '/')]
  {
    assert Settled([]) == [] && Steps([]) == [];
    assert [] + [VOLUME] == [VOLUME] && [VOLUME] + ["User"] == [VOLUME, "User"] && [VOLUME, "User"] + [a] == [VOLUME, "User", a];
    SettledSnoc([], VOLUME);
    SettledSnoc([VOLUME], "User");
    SettledSnoc([VOLUME, "User"], a);
  }

  // From the home of a, ".." is the directory of all homes.
  lemma UpSettled(a: string)
    requires ValidName(a)
    ensures Settled([VOLUME, "User", a, ".."]) == [VOLUME, "User"]
    ensures Steps([VOLUME, "User", a, ".."]) == Steps([VOLUME, "User", a]) + [Join([VOLUME, "User"], '/')]
  {
    HomeSettled(a);
    assert [VOLUME, "User", a] + [".."] == [VOLUME, "User", a, ".."] && [VOLUME, "User", a][..2] == [VOLUME, "User"];
    SettledSnoc([VOLUME, "User", a], "..");
  }

  lemma SiblingSettled(a: string, b: string)
    requires ValidName(a) && ValidName(b)
    ensures Settled([VOLUME, "User", a, "..", b]) == [VOLUME, "User", b]
    ensures Steps([VOLUME, "User", a, "..", b]) ==
            Steps([VOLUME, "User", a]) + [Join([VOLUME, "User"], '/')] + [Join([VOLUME, "User", b], '/')]
  {
    UpSettled(a);
    assert [VOLUME, "User", a, ".."] + [b] == [VOLUME, "User", a, "..", b] && [VOLUME, "User"] + [b] == [VOLUME, "User", b];
    SettledSnoc([VOLUME, "User", a, ".."], b);
  }

  lemma SiblingEnd(a: string, b: string, n: string)
    requires ValidName(a) && ValidName(b) && ValidName(n)
    ensures Settled([VOLUME, "User", a, "..", b, n]) == [VOLUME, "User", b, n]
  {
    SiblingSettled(a, b);
    assert [VOLUME, "User", a, "..", b] + [n] == [VOLUME, "User", a, "..", b, n] && [VOLUME, "User", b] + [n] == [VOLUME, "User", b, n];
    SettledSnoc([VOLUME, "User", a, "..", b], n);
  }

  lemma {:induction false} StepsThere(t: Tree, steps: seq<string>)
    requires forall p {:trigger p in steps} :: p in steps ==> IsDir(t, p)
    ensures MakeSteps(t, steps) == Made(t, true)
  {
    if steps != [] {
      var front, p := steps[..|steps| - 1], steps[|steps| - 1];
      forall q | q in front ensures IsDir(t, q) { assert q in steps; }
      StepsThere(t, front);
      assert p in steps && t[p := Dir] == t;
    }
  }

  lemma HomeJoins(u: string, n: string)
    requires ValidName(u)
    ensures Join([VOLUME], '/') == "vol1" && Join([VOLUME, "User"], '/') == "vol1/User"
    ensures Join([VOLUME, "User", u], '/') == Phys(Home(u)) && Join([VOLUME, "User", u, n], '/') == Phys(Child(Home(u), n))
  {
    assert [VOLUME] + ["User"] == [VOLUME, "User"];
    JoinSnoc([VOLUME], "User");
    HomeJoin(u);
    HomeChildJoin(u, n);
  }

  lemma HomeJoin(u: string)
    requires Join([VOLUME, "User"], '/') == "vol1/User"
    ensures Join([VOLUME, "User", u], '/') == Phys(Home(u))
  {
    assert [VOLUME, "User"] + [u] == [VOLUME, "User", u];
    JoinSnoc([VOLUME, "User"], u);
    assert Child("vol1/User", u) == Phys(Home(u));
  }

  lemma HomeChildJoin(u: string, n: string)
    requires Join([VOLUME, "User", u], '/') == Phys(Home(u))
    ensures Join([VOLUME, "User", u, n], '/') == Phys(Child(Home(u), n))
  {
    assert [VOLUME, "User", u] + [n] == [VOLUME, "User", u, n];
    JoinSnoc([VOLUME, "User", u], n);
    VolumeChild(Home(u), n);
  }

  lemma HomesThere(s: State, u: string)
    requires Valid(s) && u in s.users
    ensures IsDir(s.fs, "vol1") && IsDir(s.fs, "vol1/User") && IsDir(s.fs, Phys(Home(u)))
  {
    assert IsDir(s.fs, Phys(Home(u)));
    assert Phys(Home(u)) == Child("vol1/User", u) && "vol1/User" == Child("vol1", "User") && ValidName(u);
    AboveChild("vol1/User", "vol1/User", u);
    AboveChild("vol1", "vol1", "User");
    AboveTransitive("vol1", "vol1/User", Phys(Home(u)));
  }

  lemma HomeRouted(u: string)
    requires ValidName(u)
    ensures Normal(Home(u)) && "/User/" <= Home(u) && Components(Home(u)) == ["User", u]
  {
    var parts := ["User", u];
    assert ValidParts(parts);
    RenderIsSlashed(parts);
    SlashedTwo(parts);
    ComponentsOfRender(parts);
  }

  lemma SiblingPath(a: string, b: string, n: string) returns (path: string)
    requires ValidName(a) && ValidName(b) && ValidName(n)
    ensures path == Phys(Home(a)) + "/" + SiblingName(b, n)
    ensures Pieces(path) == [VOLUME, "User", a, "..", b, n] && Pieces(PathParent(path)) == [VOLUME, "User", a, "..", b]
    ensures !Refused(path) && !NoClimb(path) && !NoClimb(PathParent(path)) && Front(Pieces(path)) == [VOLUME, "User", a, "..", b]
  {
    path := Phys(Home(a)) + "/" + SiblingName(b, n);
    HomeRouted(a);
    SiblingPieces(b, n);
    JoinedForm(Home(a), SiblingName(b, n));
    ParentPieces(path);
    assert ([VOLUME] + ["User", a]) + ["..", b, n] == [VOLUME, "User", a, "..", b, n];
    assert ".." in ["..", b, n] && n[|n| - 1] in n;
    assert ".." in [VOLUME, "User", a, "..", b];
  }

  // Saved into the home of a under the name "../b/n", the bytes go into the home of b.
  lemma SiblingSave(s: State, a: string, b: string, n: string, data: Bytes)
    requires Valid(s) && a in s.users && b in s.users && a != b && ValidName(n) && !IsDir(s.fs, Phys(Child(Home(b), n)))
    ensures var (s', r) := SaveRequest(s, a, Home(a), SiblingName(b, n), data);
            && r.Ok? && At(s'.fs, Phys(Child(Home(b), n))) == Some(File(data))
            && !Under(Phys(Child(Home(b), n)), Phys(Home(a)))
  {
    assert ValidName(a) && ValidName(b);
    HomeRouted(a);
    var path := SiblingPath(a, b, n);
    SiblingSettled(a, b);
    SiblingEnd(a, b, n);
    HomeSettled(a);
    HomeJoins(a, n);
    HomeJoins(b, n);
    HomesThere(s, a);
    HomesThere(s, b);
    StepsThere(s.fs, Steps([VOLUME, "User", a, "..", b]));
    AboveChild(Home(b), Home(b), n);
    PhysUnder(Child(Home(b), n), Home(a));
    if Under(Child(Home(b), n), Home(a)) { HomesApart(a, b, Child(Home(b), n)); }
    SavedThere(s, Key(a, Home(a), SiblingName(b, n)), path, data, Phys(Child(Home(b), n)));
  }

  lemma SavedThere(s: State, k: Key, path: string, data: Bytes, op: string)
    requires k.user in s.users && !Refused(path) && !NoClimb(path) && !NoClimb(PathParent(path))
    requires Pieces(PathParent(path)) == Front(Pieces(path)) && EndOf(Pieces(path)) == op && !IsDir(s.fs, op)
    requires MakeSteps(s.fs, Steps(Front(Pieces(path)))) == Made(s.fs, true)
    ensures var (s', r) := SavePath(s, k, path, data); r.Ok? && At(s'.fs, op) == Some(File(data))
  {
  }
}
