/**
  The three pieces of state the storage service keeps in step: the physical tree, the index
  `cloud_files` and the recycle bin `trash_items`, with the invariants that tie them together.
 */
module StorageState {
  import opened Wrappers
  import opened VirtualPath
  import opened FileTree

  datatype Error = BadRequest | Forbidden | Database | Io
  type Outcome = Result<(), Error>

  lemma OnlyOk(r: Outcome)
    requires r.Ok?
    ensures r == Ok(())
  {
    assert r.value == ();
  }

  // mime_guess is a fixed function of the file name that never yields inode/directory.
  datatype Mime = InodeDirectory | Guessed(name: string)

  // The UNIQUE(user_id, dir, name) key of cloud_files; a user is identified by username.
  datatype Key = Key(user: string, dir: string, name: string)
  datatype Entry = Entry(id: nat, size: nat, mime: Mime)
  type Cloud = map<Key, Entry>

  // A row of trash_items, stored under its primary key.
  datatype TrashRow = TrashRow(user: string, dir: string, name: string, isDir: bool,
                               size: nat, blob: Option<nat>, deletedAt: int)
  type Trash = map<nat, TrashRow>

  // nextId stands for the uuid generator: every id drawn so far is below it.
  datatype State = State(users: set<string>, fs: Tree, cloud: Cloud, trash: Trash, nextId: nat)

  // ---- Paths of users, trash and blobs ---------------------------------------------------

  function TrashRoot(user: string): string {
    Home(user) + "/.Trash"
  }

  function BlobBase(user: string): string {
    "vol1/User/" + user + "/.Trash/blobs"
  }

  // The text of a generated uuid: only its distinctness and the absence of '/' matter.
  function UuidText(id: nat): string {
    seq(id + 1, _ => '0')
  }

  function BlobPath(user: string, id: nat): string {
    BlobBase(user) + "/" + UuidText(id)
  }

  function PathOf(k: Key): string {
    Child(k.dir, k.name)
  }

  // A tracked path lies strictly below a user's home and outside the user's .Trash.
  predicate Tracked(user: string, p: string) {
    Above(Home(user), p) && !Under(p, TrashRoot(user))
  }

  // A single path component; listings skip the other names.
  predicate PlainName(n: string) {
    n != "" && n != "." && '/' !in n
  }

  predicate InDomain(users: set<string>, k: Key) {
    k.user in users && PlainName(k.name) && Tracked(k.user, PathOf(k))
  }

  // ---- Invariants --------------------------------------------------------------------------

  datatype View = Absent | Directory | Regular(size: nat)

  function IndexView(cloud: Cloud, k: Key): View {
    if k !in cloud then Absent
    else if cloud[k].mime == InodeDirectory then Directory
    else Regular(cloud[k].size)
  }

  function TreeView(fs: Tree, p: string): View {
    if Phys(p) !in fs then Absent
    else match fs[Phys(p)] case Dir => Directory case File(data) => Regular(|data|)
  }

  // A path is on disk exactly when its row is in the index, with the same kind and size.
  ghost predicate Mirrors(s: State) {
    forall k {:trigger InDomain(s.users, k)} ::
      InDomain(s.users, k) ==> IndexView(s.cloud, k) == TreeView(s.fs, PathOf(k))
  }

  // Every row names a single path component.
  ghost predicate NamesPlain(cloud: Cloud) {
    forall k {:trigger k in cloud} :: k in cloud ==> PlainName(k.name)
  }

  ghost predicate Agree(s: State) {
    Mirrors(s) && NamesPlain(s.cloud)
  }

  // Ids were drawn, the name is one component, and directories have no blob.
  predicate RowSane(id: nat, row: TrashRow, bound: nat) {
    && id < bound && (row.blob.Some? ==> row.blob.value < bound && !row.isDir)
    && PlainName(row.name)
  }

  // Rows are recorded below the user root, and no file directly at it.
  ghost predicate Rooted(trash: Trash) {
    forall i {:trigger i in trash} :: i in trash ==> "/" <= trash[i].dir && (trash[i].dir == "/" ==> trash[i].isDir)
  }

  ghost predicate Valid(s: State) {
    && WellFormed(s.fs)
    && (forall u {:trigger u in s.users} :: u in s.users ==>
          ValidName(u) && IsDir(s.fs, Phys(Home(u)))
          && !IsFile(s.fs, Phys(TrashRoot(u))) && !IsFile(s.fs, BlobBase(u)))
    && (forall u, h {:trigger BlobPath(u, h)} :: u in s.users && h >= s.nextId ==> BlobPath(u, h) !in s.fs)
    && (forall i {:trigger i in s.trash} :: i in s.trash ==> RowSane(i, s.trash[i], s.nextId))
  }

  // ---- Facts about tracked paths -----------------------------------------------------------

  lemma PhysUnder(p: string, a: string)
    ensures Above(Phys(a), Phys(p)) <==> Above(a, p)
    ensures Under(Phys(p), Phys(a)) <==> Under(p, a)
  {
    var q := Phys(p);
    if |a| < |p| {
      assert q[|Phys(a)|] == p[|a|];
      assert q[..|Phys(a)|] == "vol1" + p[..|a|];
      assert q[..|Phys(a)|][4..] == p[..|a|];
      assert Phys(a)[4..] == a;
    }
    assert q[4..] == p && Phys(a)[4..] == a;
  }

  lemma PhysRebase(p: string, from: string, to: string)
    requires Under(p, from)
    ensures Rebase(Phys(p), Phys(from), Phys(to)) == Phys(Rebase(p, from, to))
  {
    assert Phys(p)[|Phys(from)|..] == p[|from|..];
  }

  lemma HomesApart(u: string, v: string, p: string)
    requires '/' !in u && '/' !in v
    requires Under(p, Home(u)) && Under(p, Home(v))
    ensures u == v
  {
    AncestorsComparable(Home(u), Home(v), p);
    assert Home(u) == Child("/User", u) && Home(v) == Child("/User", v);
    AboveChild(Home(u), "/User", v);
    AboveChild(Home(v), "/User", u);
    assert Home(u) == Home(v);
    ChildInjective("/User", u, "/User", v);
  }

  // Everything below a tracked path is tracked, and so is every ancestor below the home.
  lemma TrackedBelow(u: string, p: string, q: string)
    requires Tracked(u, p) && Under(q, p)
    ensures Tracked(u, q)
  {
    AboveTransitive(Home(u), p, q);
    assert TrashRoot(u) == Child(Home(u), ".Trash");
    AboveChild(p, Home(u), ".Trash");
    if Under(q, TrashRoot(u)) {
      AncestorsComparable(p, TrashRoot(u), q);
      assert false;
    }
  }

  lemma TrackedParent(u: string, dir: string, name: string)
    requires '/' !in name && Tracked(u, Child(dir, name))
    ensures dir == Home(u) || Tracked(u, dir)
  {
    AboveChild(Home(u), dir, name);
    if Under(dir, TrashRoot(u)) {
      AboveChild(TrashRoot(u), dir, name);
      assert false;
    }
  }

  // ---- Routing -----------------------------------------------------------------------------

  // The owner of a /User path and the access rule shared by every operation.
  function Authorise(username: string, p: string): Result<string, Error> {
    if !("/User/" <= p) || |Components(p)| < 2 then Err(BadRequest)
    else if Components(p)[1] != username && username != "admin" then Err(Forbidden)
    else Ok(Components(p)[1])
  }

  // Owner, parent() and file_name() of a /User path.
  function KeyFor(p: string): Key
    requires "/User/" <= p && |Components(p)| >= 2
  {
    assert "/" <= p;
    Key(Components(p)[1], Parent(p), FileName(p))
  }

  // What routing makes of a normalised /User path.
  lemma RoutedKey(p: string) returns (k: Key)
    requires Normal(p) && "/User/" <= p
    ensures |Components(p)| >= 2 && k == KeyFor(p) && PathOf(k) == p
    ensures ValidName(k.user) && ValidName(k.name) && Under(p, Home(k.user))
    ensures p == Home(k.user) <==> |Components(p)| == 2
    ensures p != Home(k.user) ==> Under(k.dir, Home(k.user)) && Normal(k.dir) && "/User/" <= k.dir
  {
    var parts := HomeParts(p);
    var n := |parts| - 1;
    var dir := Slashed(parts[..n]);
    assert parts[1] in parts && parts[n] in parts;
    LastComponent(p, parts);
    SplitLast(dir, parts[n]);
    k := Key(parts[1], dir, parts[n]);
    if p != Home(parts[1]) {
      AboveChild(Home(parts[1]), dir, parts[n]);
      HomeBelow(parts[1], dir);
    }
  }

  lemma LastComponent(p: string, parts: seq<string>)
    requires ValidParts(parts) && |parts| >= 2 && p == Render(parts)
    ensures var dir := Slashed(parts[..|parts| - 1]);
            p == Child(dir, parts[|parts| - 1]) && Normal(dir) && "/" <= dir
  {
    var front, name := parts[..|parts| - 1], parts[|parts| - 1];
    assert parts == front + [name];
    SlashedConcat(front, [name]);
    RenderIsSlashed(parts);
    assert Slashed([name]) == "/" + name;
    Regroup(Slashed(front), "/", name);
    RenderIsSlashed(front);
    assert ValidParts(front);
  }

  lemma HomeBelow(owner: string, p: string)
    requires Under(p, Home(owner))
    ensures "/User/" <= p
  {
    assert "/User/" <= Home(owner) && p[..|Home(owner)|] == Home(owner);
  }

  ghost predicate InHomeOf(p: string, u: string) {
    ValidName(u) && Under(p, Home(u))
  }

  // The check lets a request through exactly for a path at or below the home of one user, who is the
  // requester or asked for by admin; a path in no home is a bad request, any other refusal forbidden.
  lemma AccessExact(username: string, p: string)
    requires Normal(p)
    ensures forall u :: Authorise(username, p) == Ok(u) <==> InHomeOf(p, u) && (username == u || username == "admin")
    ensures Authorise(username, p) == Err(BadRequest) <==> forall u :: !InHomeOf(p, u)
    ensures Authorise(username, p).Ok? || Authorise(username, p) == Err(BadRequest) || Authorise(username, p) == Err(Forbidden)
  {
    if "/User/" <= p {
      var k := RoutedKey(p);
      assert InHomeOf(p, k.user);
      forall u | InHomeOf(p, u) ensures u == k.user { HomesApart(u, k.user, p); }
    } else {
      forall u ensures !InHomeOf(p, u) {
        if InHomeOf(p, u) { HomeBelow(u, p); }
      }
    }
  }

  // A tracked normalised path is routed to its owner.
  lemma TrackedKey(u: string, p: string) returns (k: Key)
    requires Normal(p) && Tracked(u, p) && '/' !in u
    ensures "/User/" <= p && |Components(p)| > 2 && k == KeyFor(p) && k.user == u && PathOf(k) == p
    ensures ValidName(u) && ValidName(k.name) && Normal(k.dir)
    ensures k.dir == Home(u) || Tracked(u, k.dir)
  {
    HomeBelow(u, p);
    k := RoutedKey(p);
    HomesApart(u, k.user, p);
    TrackedParent(u, k.dir, k.name);
  }

  lemma SameKey(users: set<string>, k1: Key, k2: Key)
    requires forall u :: u in users ==> ValidName(u)
    requires InDomain(users, k1) && InDomain(users, k2) && PathOf(k1) == PathOf(k2)
    ensures k1 == k2
  {
    ChildInjective(k1.dir, k1.name, k2.dir, k2.name);
    assert ValidName(k1.user) && ValidName(k2.user);
    HomesApart(k1.user, k2.user, PathOf(k1));
  }

  lemma BlobPathFacts(u: string, h: nat)
    ensures BlobPath(u, h) == Phys(Child(TrashRoot(u) + "/blobs", UuidText(h)))
    ensures BlobBase(u) == Phys(TrashRoot(u) + "/blobs")
    ensures Under(TrashRoot(u) + "/blobs", TrashRoot(u))
    ensures Under(Child(TrashRoot(u) + "/blobs", UuidText(h)), TrashRoot(u))
    ensures Above(TrashRoot(u) + "/blobs", Child(TrashRoot(u) + "/blobs", UuidText(h)))
  {
    assert '/' !in UuidText(h);
    AboveChild(TrashRoot(u), TrashRoot(u) + "/blobs", UuidText(h));
    AboveChild(TrashRoot(u) + "/blobs", TrashRoot(u) + "/blobs", UuidText(h));
  }

  lemma BlobPathInjective(u: string, h: nat, v: string, g: nat)
    requires '/' !in u && '/' !in v && BlobPath(u, h) == BlobPath(v, g)
    ensures u == v && h == g
  {
    BlobPathFacts(u, h);
    BlobPathFacts(v, g);
    assert '/' !in UuidText(h) && '/' !in UuidText(g);
    var b, c := Child(TrashRoot(u) + "/blobs", UuidText(h)), Child(TrashRoot(v) + "/blobs", UuidText(g));
    assert b == Phys(b)[4..] == Phys(c)[4..] == c;
    ChildInjective(TrashRoot(u) + "/blobs", UuidText(h), TrashRoot(v) + "/blobs", UuidText(g));
    assert |UuidText(h)| == |UuidText(g)|;
    assert Under(TrashRoot(u), Home(u)) && Under(TrashRoot(v), Home(v));
    AboveTransitive(Home(u), TrashRoot(u), b);
    AboveTransitive(Home(v), TrashRoot(v), b);
    HomesApart(u, v, b);
  }

  // A blob never lies on, above or below a tracked path.
  lemma BlobApartFromTracked(u: string, h: nat, v: string, p: string)
    requires '/' !in u && '/' !in v && Tracked(v, p)
    ensures !Under(BlobPath(u, h), Phys(p)) && !Under(Phys(p), BlobPath(u, h))
    ensures !Under(BlobBase(u), Phys(p)) && !Under(Phys(TrashRoot(u)), Phys(p))
  {
    BlobPathFacts(u, h);
    var b := Child(TrashRoot(u) + "/blobs", UuidText(h));
    PhysUnder(b, p);
    PhysUnder(p, b);
    PhysUnder(TrashRoot(u) + "/blobs", p);
    PhysUnder(TrashRoot(u), p);
    assert Above(Home(u), TrashRoot(u));
    AboveTransitive(Home(u), TrashRoot(u), TrashRoot(u) + "/blobs");
    AboveTransitive(Home(u), TrashRoot(u), b);
    NotAbove(u, b, v, p);
    NotAbove(u, TrashRoot(u) + "/blobs", v, p);
    NotAbove(u, TrashRoot(u), v, p);
    if Under(p, b) {
      AboveTransitive(TrashRoot(u), b, p);
      AboveTransitive(Home(u), TrashRoot(u), p);
      HomesApart(u, v, p);
      assert false;
    }
  }

  lemma NotAbove(u: string, t: string, v: string, p: string)
    requires '/' !in u && '/' !in v && Tracked(v, p) && Under(t, TrashRoot(u)) && Above(Home(u), t)
    ensures !Under(t, p)
  {
    if Under(t, p) {
      AboveTransitive(Home(v), p, t);
      HomesApart(u, v, t);
      TrackedBelow(v, p, t);
      assert false;
    }
  }

  // ---- Framing -----------------------------------------------------------------------------

  predicate TrackedObject(owner: string, q: string) {
    "vol1" <= q && Tracked(owner, q[4..])
  }

  // Two trees differ at tracked objects of one user only.
  ghost predicate OnlyTracked(fs: Tree, fs': Tree, owner: string) {
    forall q {:trigger TrackedObject(owner, q)} {:trigger At(fs', q)} ::
      TrackedObject(owner, q) || At(fs', q) == At(fs, q)
  }

  lemma SystemObjectsUntracked(owner: string, u: string, h: nat)
    requires ValidName(owner) && ValidName(u)
    ensures !TrackedObject(owner, Phys(Home(u))) && !TrackedObject(owner, Phys(TrashRoot(u)))
    ensures !TrackedObject(owner, BlobBase(u)) && !TrackedObject(owner, BlobPath(u, h))
  {
    assert Phys(Home(u))[4..] == Home(u);
    assert Home(u) == Child("/User", u);
    AboveChild(Home(owner), "/User", u);
    forall q | "vol1" <= q && Tracked(owner, q[4..])
      ensures q != Phys(TrashRoot(u)) && q != BlobBase(u) && q != BlobPath(u, h)
    {
      assert q == Phys(q[4..]);
      BlobApartFromTracked(u, h, owner, q[4..]);
    }
  }

  lemma FrameValid(s: State, s': State, owner: string)
    requires Valid(s) && owner in s.users
    requires WellFormed(s'.fs) && OnlyTracked(s.fs, s'.fs, owner)
    requires s'.users == s.users && s'.nextId >= s.nextId
    requires forall i {:trigger i in s'.trash} :: i in s'.trash ==> RowSane(i, s'.trash[i], s'.nextId)
    ensures Valid(s')
  {
    assert ValidName(owner);
    forall u | u in s.users
      ensures IsDir(s'.fs, Phys(Home(u))) && !IsFile(s'.fs, Phys(TrashRoot(u))) && !IsFile(s'.fs, BlobBase(u))
    {
      assert ValidName(u);
      SystemObjectsUntracked(owner, u, 0);
      assert At(s'.fs, Phys(Home(u))) == At(s.fs, Phys(Home(u)));
      assert At(s'.fs, Phys(TrashRoot(u))) == At(s.fs, Phys(TrashRoot(u)));
      assert At(s'.fs, BlobBase(u)) == At(s.fs, BlobBase(u));
    }
    forall u, h {:trigger BlobPath(u, h)} | u in s'.users && h >= s'.nextId ensures BlobPath(u, h) !in s'.fs {
      assert ValidName(u);
      SystemObjectsUntracked(owner, u, h);
      assert At(s'.fs, BlobPath(u, h)) == At(s.fs, BlobPath(u, h));
    }
  }

  // The directories create_dir adds on the way to a tracked path are tracked.
  lemma ChainTracked(s: State, owner: string, p: string, q: string)
    requires Valid(s) && owner in s.users && Tracked(owner, p)
    requires q in Chain(Phys(p)) && !IsDir(s.fs, q)
    ensures TrackedObject(owner, q)
  {
    var home := Phys(Home(owner));
    PhysUnder(p, Home(owner));
    AncestorsComparable(q, home, Phys(p));
    assert IsDir(s.fs, home);
    assert q != home && !Above(q, home);
    assert Above(home, q);
    assert q[..|home|] == home && home[..4] == "vol1";
    assert "vol1" <= q && q == Phys(q[4..]);
    PhysUnder(q[4..], Home(owner));
    PhysUnder(p, q[4..]);
    if Under(q[4..], TrashRoot(owner)) {
      AboveTransitive(TrashRoot(owner), q[4..], p);
      assert false;
    }
  }

  lemma CreateDirOnlyTracked(s: State, owner: string, p: string)
    requires Valid(s) && owner in s.users && Tracked(owner, p)
    ensures OnlyTracked(s.fs, TryCreateDir(s.fs, Phys(p)), owner)
    ensures WellFormed(TryCreateDir(s.fs, Phys(p)))
  {
    CreateDirWellFormed(s.fs, Phys(p));
    var fs' := TryCreateDir(s.fs, Phys(p));
    forall q | !TrackedObject(owner, q) ensures At(fs', q) == At(s.fs, q) {
      if q in Chain(Phys(p)) && !IsDir(s.fs, q) {
        ChainTracked(s, owner, p, q);
      }
    }
  }

  lemma BelowTrackedObject(owner: string, p: string, q: string)
    requires Tracked(owner, p) && Under(q, Phys(p))
    ensures TrackedObject(owner, q)
  {
    assert q[..|Phys(p)|] == Phys(p) && Phys(p)[..4] == "vol1";
    assert "vol1" <= q && q == Phys(q[4..]);
    PhysUnder(q[4..], p);
    TrackedBelow(owner, p, q[4..]);
  }
}
