/**
  Delete a directory of the home, then restore it from /Trash: the two requests, from their path
  strings on.
 */
module RequestRoundTrip {
  import opened Wrappers
  import opened VirtualPath
  import opened FileTree
  import opened StorageState
  import opened StorageTrash
  import opened StorageRestore
  import opened StorageRequests
  import opened StorageRoundTrip
  import opened TrashRoundTrip

  function TopKey(u: string, name: string): Key {
    Key(u, Home(u), name)
  }

  // What the restore request makes of its two paths.
  function TripTarget(u: string, name: string, to: string): Target
    requires "/User/" <= to && |Components(to)| >= 2
  {
    Target(u, "/" + name, KeyFor(to).user, to)
  }

  // u deletes /User/u/name in s, which leads to s1, and restores /Trash/name to `to` there: the trash
  // held nothing of that path, tree and index agree, and the target can take the children.
  ghost predicate TripReady(s: State, s1: State, u: string, name: string, to: string) {
    var k := TopKey(u, name);
    && Valid(s) && Agree(s) && InDomain(s.users, k) && ValidName(name) && IsDir(s.fs, Phys(PathOf(k)))
    && Agree(s1) && s1.users == s.users
    && "/User/" <= to && |Components(to)| >= 2 && Authorise(u, to).Ok?
    && var c := TripTarget(u, name, to);
       SaneTarget(s1, c) && TargetReady(s, s1, k, c, KeyFor(to)) && NoPrior(s.trash, c, name)
  }

  lemma TopKeyFacts(u: string, name: string)
    requires ValidName(u) && ValidName(name)
    ensures var p := PathOf(TopKey(u, name));
            Normal(p) && "/User/" <= p && |Components(p)| == 3 && Components(p)[1] == u && KeyFor(p) == TopKey(u, name)
  {
    var parts, p := ["User", u, name], PathOf(TopKey(u, name));
    assert ValidParts(parts);
    RenderIsSlashed(parts);
    SlashedTwo(parts);
    assert parts[2..] == [name] && Slashed([name]) == "/" + name;
    Regroup("/User/" + u, "/", name);
    assert p == Render(parts);
    ComponentsOfRender(parts);
    SplitLast(Home(u), name);
  }

  lemma DeletedDirectory(s: State, s1: State, u: string, name: string, to: string, now: int, r: Outcome)
    returns (files: seq<string>, dirs: seq<string>)
    requires TripReady(s, s1, u, name, to) && DeleteRequest(s, s1, u, PathOf(TopKey(u, name)), now, r)
    ensures TopWalk(s, TopKey(u, name), TripTarget(u, name, to), files, dirs)
    ensures s1 == DeleteDirResult(s, TopKey(u, name), now, files, dirs).0 && r == Ok(())
  {
    var k := TopKey(u, name);
    assert ValidName(u);
    TopKeyFacts(u, name);
    files, dirs :| Listing(s.fs, PathOf(k), files, dirs) && (s1, r) == DeleteDirResult(s, k, now, files, dirs);
    ReadyOwnPaths(s, s1, u, name, to, files, dirs);
    TopWalks(s, k, TripTarget(u, name, to), files, dirs);
    DeleteIsWalk(s, k, now, files, dirs);
  }

  lemma ReadyOwnPaths(s: State, s1: State, u: string, name: string, to: string, files: seq<string>, dirs: seq<string>)
    requires TripReady(s, s1, u, name, to) && Listing(s.fs, PathOf(TopKey(u, name)), files, dirs) && Normal(PathOf(TopKey(u, name)))
    requires PathOf(TopKey(u, name)) != "/"
    ensures OwnPaths(TopKey(u, name), files)
  {
    var k := TopKey(u, name);
    forall n | n in files ensures Addressed(k, n) == Child(PathOf(k), n) {
      assert HasChild(s.fs, PathOf(k), n);
      ValidNamesAddressed(k, n);
    }
  }

  lemma ItemListed(s: State, s1: State, k: Key, now: int, c: Target, files: seq<string>, dirs: seq<string>)
    requires TopWalk(s, k, c, files, dirs) && s1 == DeleteDirResult(s, k, now, files, dirs).0
    ensures TopWalked(s, s1, k, now, c, files, FoundFiles(k, files), dirs)
    ensures IdOf(s, |files|, Itself) in s1.trash && SameItem(s1.trash[IdOf(s, |files|, Itself)], k.user, "/", k.name)
  {
    TopWalks(s, k, c, files, dirs);
    DeleteIsWalk(s, k, now, files, dirs);
    TopWalkLeaves(s, k, now, c, files, dirs);
    SameWalk(s, s1, k, now, c, files, FoundFiles(k, files), dirs, WalkResult(s, k, now, files, dirs).0);
    OriginPresent(s, k, now, FoundFiles(k, files), dirs, Itself);
    TopLevelAddress(k);
  }

  // The item the restore request looks up is the one the delete has just recorded.
  lemma RestoredDirectory(s: State, s1: State, s2: State, u: string, name: string, to: string, now: int,
                          files: seq<string>, dirs: seq<string>, r: Outcome) returns (rows: seq<TrashRow>, ids: seq<nat>)
    requires TripReady(s, s1, u, name, to) && TopWalk(s, TopKey(u, name), TripTarget(u, name, to), files, dirs)
    requires s1 == DeleteDirResult(s, TopKey(u, name), now, files, dirs).0
    requires '/' !in name && "/" <= Child("/Trash", name) && RestoreRequest(s1, s2, u, Child("/Trash", name), to, r)
    ensures var c := TripTarget(u, name, to);
            && QueryRows(s1.trash, (t: TrashRow) => Below(t, c), rows, ids)
            && "/" <= c.to && (s2, r) == RestoreDirResult(s1, "/", name, c, rows)
  {
    var k, c, from := TopKey(u, name), TripTarget(u, name, to), Child("/Trash", name);
    TopLevelRoot(name);
    SplitLast("/Trash", name);
    assert TargetOf(u, from, to) == c;
    ItemListed(s, s1, k, now, c, files, dirs);
    assert SameItem(s1.trash[IdOf(s, |files|, Itself)], u, "/", name);
    var id :| id in s1.trash && SameItem(s1.trash[id], u, "/", name)
              && (s1.trash[id].isDir ==> RestoreDirStep(s1, s2, "/", name, c, r))
              && (!s1.trash[id].isDir ==> (s2, r) == RestoreFileResult(s1, s1.trash[id], KeyFor(to)));
    var o := SelectedOrigin(s, s1, k, now, c, files, FoundFiles(k, files), dirs, id);
    rows, ids :| RowsBelow(s1.trash, c, rows, ids) && (s2, r) == RestoreDirResult(s1, "/", name, c, rows);
  }

  // The two requests, one after the other.
  ghost predicate Trip(s: State, s1: State, s2: State, u: string, name: string, to: string, now: int, r1: Outcome, r2: Outcome) {
    && TripReady(s, s1, u, name, to) && "/" <= Child("/Trash", name)
    && DeleteRequest(s, s1, u, PathOf(TopKey(u, name)), now, r1)
    && RestoreRequest(s1, s2, u, Child("/Trash", name), to, r2)
  }

  lemma TripSetting(s: State, s1: State, s2: State, u: string, name: string, to: string, now: int, r1: Outcome, r2: Outcome)
    returns (c: Target, dst: Key, files: seq<string>, dirs: seq<string>, rows: seq<TrashRow>, ids: seq<nat>)
    requires Trip(s, s1, s2, u, name, to, now, r1, r2)
    ensures r1 == Ok(()) && Tripped(s, s1, s2, TopKey(u, name), now, files, dirs, c, dst, rows, ids, r2)
    ensures "/User/" <= to && |Components(to)| >= 2 && c.to == to && dst == KeyFor(to) && c.toUser == KeyFor(to).user
  {
    c, dst := TripTarget(u, name, to), KeyFor(to);
    files, dirs := DeletedDirectory(s, s1, u, name, to, now, r1);
    rows, ids := RestoredDirectory(s, s1, s2, u, name, to, now, files, dirs, r2);
  }

  // Both requests answer Ok; trash rows and blobs are as before the delete; tree and index agree
  // exactly when the target directory was indexed already or there was nothing to restore.
  lemma DeleteThenRestore(s: State, s1: State, s2: State, u: string, name: string, to: string, now: int,
                          r1: Outcome, r2: Outcome)
    requires Trip(s, s1, s2, u, name, to, now, r1, r2)
    ensures r1 == Ok(()) && r2 == Ok(()) && AsBefore(s, s1, s2, TopKey(u, name), to)
  {
    var c, dst, files, dirs, rows, ids := TripSetting(s, s1, s2, u, name, to, now, r1, r2);
    RoundTrip(s, s1, s2, TopKey(u, name), now, files, dirs, c, dst, rows, ids, r2);
  }

  // Every direct child is back with its bytes and its index entry under the new path.
  lemma ChildRestored(s: State, s1: State, s2: State, u: string, name: string, to: string, now: int,
                      r1: Outcome, r2: Outcome, n: string)
    requires Trip(s, s1, s2, u, name, to, now, r1, r2) && HasChild(s.fs, PathOf(TopKey(u, name)), n)
    ensures At(s2.fs, Phys(Child(to, n))) == At(s.fs, Phys(Child(PathOf(TopKey(u, name)), n)))
    ensures IndexView(s2.cloud, Key(KeyFor(to).user, to, n)) == IndexView(s.cloud, Key(u, PathOf(TopKey(u, name)), n))
  {
    var c, dst, files, dirs, rows, ids := TripSetting(s, s1, s2, u, name, to, now, r1, r2);
    RoundTripChild(s, TopKey(u, name), now, files, dirs, c, dst, rows, ids, n);
  }

  // With a fresh target the restored subtree equals the deleted one exactly when the directory had no
  // grandchildren: what lay deeper is neither archived nor recorded.
  lemma RestoredIffFlat(s: State, s1: State, s2: State, u: string, name: string, to: string, now: int,
                        r1: Outcome, r2: Outcome)
    requires Trip(s, s1, s2, u, name, to, now, r1, r2) && Phys(to) !in s1.fs
    ensures var k := TopKey(u, name);
            (forall j :: BelowDir(s, k, j) ==>
               At(s2.fs, Phys(Rebase(PathOf(j), PathOf(k), to))) == At(s.fs, Phys(PathOf(j))))
            <==> (forall j :: BelowDir(s, k, j) && j.dir != PathOf(k) ==> Phys(PathOf(j)) !in s.fs)
  {
    var c, dst, files, dirs, rows, ids := TripSetting(s, s1, s2, u, name, to, now, r1, r2);
    RoundTripExact(s, TopKey(u, name), now, files, dirs, c, dst, rows, ids);
  }
}
