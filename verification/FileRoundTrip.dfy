/**
  Delete a file, then restore it from /Trash: the two requests, from their path strings on.
 */
module FileRoundTrip {
  import opened Wrappers
  import opened VirtualPath
  import opened FileTree
  import opened StorageState
  import opened StorageIndex
  import opened StorageTrash
  import opened StorageRestore
  import opened StorageRequests
  import opened StorageRoundTrip
  import opened TrashIntegrity

  // ---- Deleting the file ---------------------------------------------------------------------------

  // Deleting a path that is no directory succeeds exactly when something is there. Its bytes are then the
  // new blob h, the path is free, the index has lost its row and nothing else, and the trash has gained
  // one row: the full parent of the path, its name, size, blob and the time.
  lemma FileDeleted(s: State, s1: State, username: string, p: string, now: int, r: Outcome) returns (id: nat, h: nat)
    requires Valid(s) && Reachable(s.users, username, p) && !IsDir(s.fs, Phys(p))
    requires DeleteRequest(s, s1, username, p, now, r)
    ensures r == if Phys(p) in s.fs then Ok(()) else Err(Io)
    ensures r.Err? ==> s1 == s
    ensures r.Ok? ==> id !in s.trash && h >= s.nextId && FileGone(s, s1, KeyFor(p), now, id, h)
    ensures r.Ok? ==> Valid(s1) && (Agree(s) ==> Agree(s1))
  {
    var k := ReachableKey(s.users, username, p);
    id, h := s.nextId + 1, s.nextId;
    if IsFile(s.fs, Phys(p)) {
      NewRowId(s);
      ArchivedAway(s, s1, k, now);
      ArchiveValid(s, s1, k.user, p);
      if Agree(s) { DeleteFileAgreement(s, k, now); }
    }
  }

  // The tree once p has become the blob h of the user.
  ghost predicate Away(fs: Tree, fs1: Tree, user: string, p: string, h: nat) {
    forall q {:trigger At(fs1, q)} ::
      At(fs1, q) == if q == BlobPath(user, h) then At(fs, Phys(p))
                    else if q == Phys(p) then None
                    else if q in Chain(BlobBase(user)) then Some(Dir)
                    else At(fs, q)
  }

  ghost predicate FileGone(s: State, s1: State, k: Key, now: int, id: nat, h: nat) {
    && IsFile(s.fs, Phys(PathOf(k)))
    && s1.trash == s.trash[id := TrashRow(k.user, k.dir, k.name, false, |s.fs[Phys(PathOf(k))].data|, Some(h), now)]
    && s1.cloud == s.cloud - {k} && s1.users == s.users
    && Away(s.fs, s1.fs, k.user, PathOf(k), h)
  }

  lemma ArchivedAway(s: State, s1: State, k: Key, now: int)
    requires Valid(s) && Registered(s.users, k) && IsFile(s.fs, Phys(PathOf(k))) && s1 == DeleteFileResult(s, k, now).0
    ensures DeleteFileResult(s, k, now).1 == Ok(()) && FileGone(s, s1, k, now, s.nextId + 1, s.nextId)
    ensures Archives(s, s1.fs, k.user, PathOf(k)) && s1.nextId == s.nextId + 2
    ensures forall i {:trigger i in s1.trash} :: i in s1.trash ==> RowSane(i, s1.trash[i], s1.nextId)
  {
    var t := FileArchived(s, k, now);
    ArchiveWorks(s, k.user, PathOf(k), s.nextId);
    assert forall i {:trigger i in s.trash} :: i in s.trash ==> RowSane(i, s.trash[i], s.nextId);
  }

  // ---- And restoring it -------------------------------------------------------------------------------

  // Where the trash shows the file.
  function TrashPath(p: string): string
    requires "/" <= p
  {
    Child("/Trash" + Parent(p), FileName(p))
  }

  lemma TrashPathFound(k: Key, p: string)
    requires "/" <= p && k.dir == Parent(p) && k.name == FileName(p) && '/' !in k.name && Under(k.dir, Home(k.user))
    ensures var from := TrashPath(p); "/" <= from && OriginalDir(from) == k.dir && FileName(from) == k.name
  {
    HomeBelow(k.user, k.dir);
    assert k.dir[1] == 'U';
    TrashAddressing(k.dir, k.name);
  }

  // The owner u restores to `to` what was deleted at p, of which path the trash held nothing before.
  ghost predicate FileTrip(s: State, s1: State, s2: State, w: string, u: string, p: string, to: string, now: int,
                           r1: Outcome, r2: Outcome) {
    && Valid(s) && Agree(s) && IsFile(s.fs, Phys(p))
    && Reachable(s.users, w, p) && u == Authorise(w, p).value && Reachable(s.users, u, to)
    && (forall i {:trigger s.trash[i]} :: i in s.trash ==> !SameItem(s.trash[i], u, Parent(p), FileName(p)))
    && DeleteRequest(s, s1, w, p, now, r1)
    && "/" <= TrashPath(p) && RestoreRequest(s1, s2, u, TrashPath(p), to, r2)
  }

  lemma FileTripSetting(s: State, s1: State, s2: State, w: string, u: string, p: string, to: string, now: int,
                        r1: Outcome, r2: Outcome) returns (k: Key, dst: Key, id: nat, h: nat)
    requires FileTrip(s, s1, s2, w, u, p, to, now, r1, r2)
    ensures r1 == Ok(()) && "/User/" <= p && |Components(p)| >= 2 && k == KeyFor(p) && PathOf(k) == p && k.user == u
    ensures "/User/" <= to && |Components(to)| >= 2 && dst == KeyFor(to) && PathOf(dst) == to && Normal(dst.dir) && "/" <= to
    ensures dst.dir == Parent(to)
    ensures InDomain(s.users, k) && InDomain(s.users, dst) && Normal(k.dir)
    ensures id !in s.trash && h >= s.nextId && FileGone(s, s1, k, now, id, h) && Valid(s1) && Agree(s1)
    ensures (s2, r2) == RestoreFileResult(s1, s1.trash[id], dst)
  {
    k := ReachableKey(s.users, w, p);
    dst := ReachableKey(s.users, u, to);
    id, h := FileDeleted(s, s1, w, p, now, r1);
    TrashPathFound(k, p);
    var c := TargetOf(u, TrashPath(p), to);
    assert SameItem(s1.trash[id], u, k.dir, k.name);
    OnlyRow(s, s1, s2, k, id, c, dst, r2);
  }

  // The lookup can only take the row of the deletion.
  lemma OnlyRow(s: State, s1: State, s2: State, k: Key, id: nat, c: Target, dst: Key, r: Outcome)
    requires "/" <= c.to && c.user == k.user && k.user in s1.users && id in s1.trash && !s1.trash[id].isDir
    requires s1.trash == s.trash[id := s1.trash[id]] && SameItem(s1.trash[id], k.user, k.dir, k.name)
    requires forall i {:trigger s.trash[i]} :: i in s.trash ==> !SameItem(s.trash[i], k.user, k.dir, k.name)
    requires RestoreStep(s1, s2, k.dir, k.name, c, dst, r)
    ensures (s2, r) == RestoreFileResult(s1, s1.trash[id], dst)
  {
    assert Listed(s1.trash, c.user, k.dir, k.name);
    var i :| i in s1.trash && SameItem(s1.trash[i], c.user, k.dir, k.name)
             && if s1.trash[i].isDir then RestoreDirStep(s1, s2, k.dir, k.name, c, r)
                else (s2, r) == RestoreFileResult(s1, s1.trash[i], dst);
    assert i == id;
  }

  // The delete is answered with Ok. The restore is, and leaves tree and index in agreement, exactly when
  // the target's parent is a directory and the target is not one.
  lemma FileDeleteThenRestore(s: State, s1: State, s2: State, w: string, u: string, p: string, to: string, now: int,
                              r1: Outcome, r2: Outcome)
    requires FileTrip(s, s1, s2, w, u, p, to, now, r1, r2)
    ensures r1 == Ok(()) && "/" <= to
    ensures r2 == Ok(()) && Agree(s2) <==> IsDir(s.fs, Phys(Parent(to))) && !IsDir(s.fs, Phys(to))
  {
    var k, dst, id, h := FileTripSetting(s, s1, s2, w, u, p, to, now, r1, r2);
    ArchivedRestores(s1, s1.trash[id], dst, h, s.fs[Phys(p)].data);
    SameTarget(s, s1, k, h, dst);
  }

  lemma ArchivedRestores(s1: State, row: TrashRow, dst: Key, h: nat, data: Bytes)
    requires Valid(s1) && Agree(s1) && InDomain(s1.users, dst) && Normal(dst.dir) && row.user in s1.users
    requires row.blob == Some(h) && At(s1.fs, BlobPath(row.user, h)) == Some(File(data))
    ensures var (s2, r2) := RestoreFileResult(s1, row, dst);
            r2 == Ok(()) && Agree(s2) <==> IsDir(s1.fs, Phys(dst.dir)) && !IsDir(s1.fs, Phys(PathOf(dst)))
  {
    RestoreFileAgreement(s1, row, dst);
    if RestoreFileResult(s1, row, dst).1.Ok? { OnlyOk(RestoreFileResult(s1, row, dst).1); }
  }

  lemma SameTarget(s: State, s1: State, k: Key, h: nat, dst: Key)
    requires Valid(s) && InDomain(s.users, k) && InDomain(s.users, dst)
    requires IsFile(s.fs, Phys(PathOf(k))) && Away(s.fs, s1.fs, k.user, PathOf(k), h)
    ensures IsDir(s1.fs, Phys(dst.dir)) <==> IsDir(s.fs, Phys(dst.dir))
    ensures IsDir(s1.fs, Phys(PathOf(dst))) <==> IsDir(s.fs, Phys(PathOf(dst)))
  {
    TrackedParent(dst.user, dst.dir, dst.name);
    SameKind(s, s1, k, h, dst.user, dst.dir);
    SameKind(s, s1, k, h, dst.user, PathOf(dst));
  }

  // Archiving a file makes or removes no directory below a home but those of the trash.
  lemma SameKind(s: State, s1: State, k: Key, h: nat, v: string, q: string)
    requires Valid(s) && InDomain(s.users, k) && v in s.users && (q == Home(v) || Tracked(v, q))
    requires IsFile(s.fs, Phys(PathOf(k))) && Away(s.fs, s1.fs, k.user, PathOf(k), h)
    ensures IsDir(s1.fs, Phys(q)) <==> IsDir(s.fs, Phys(q))
  {
    assert ValidName(k.user) && ValidName(v);
    assert At(s1.fs, Phys(q)) == At(s1.fs, Phys(q));
    if q == Home(v) {
      SystemObjectsUntracked(k.user, v, h);
      BlobPathIsNoSystemDir(k.user, h, v);
      assert IsDir(s.fs, Phys(Home(v)));
    } else {
      SystemObjectsDistinct(v, q, k.user, h);
      BlobApartFromTracked(k.user, h, v, q);
    }
  }

  // What the two requests come to, once the second has saved the file in mid.
  lemma FileTripEnd(s: State, s1: State, s2: State, w: string, u: string, p: string, to: string, now: int,
                    r1: Outcome, r2: Outcome) returns (k: Key, dst: Key, h: nat, mid: State)
    requires FileTrip(s, s1, s2, w, u, p, to, now, r1, r2) && r2.Ok?
    ensures "/User/" <= p && |Components(p)| >= 2 && k == KeyFor(p) && PathOf(k) == p && k.user == u
    ensures "/User/" <= to && |Components(to)| >= 2 && dst == KeyFor(to) && PathOf(dst) == to
    ensures InDomain(s.users, k) && InDomain(s.users, dst) && h >= s.nextId && Valid(s1) && s1.users == s.users
    ensures s1.cloud == s.cloud - {k} && Away(s.fs, s1.fs, u, p, h)
    ensures SaveResult(s1, dst, s.fs[Phys(p)].data) == (mid, Ok(()))
    ensures s2.fs == Delete(mid.fs, BlobPath(u, h)) && s2.cloud == mid.cloud && s2.trash == s.trash
  {
    var id;
    k, dst, id, h := FileTripSetting(s, s1, s2, w, u, p, to, now, r1, r2);
    var data := s.fs[Phys(p)].data;
    assert At(s1.fs, BlobPath(u, h)) == At(s.fs, Phys(p));
    RestoredFile(s1, s2, s1.trash[id], dst, data, r2);
    mid := SaveResult(s1, dst, data).0;
    OnlyOk(SaveResult(s1, dst, data).1);
    RowBack(s.trash, id, s1.trash[id]);
  }

  // If it is answered with Ok, the bytes are at the target with an index row of their size, and no other row
  // of the index has changed but that of the old path; the trash is as before the deletion.
  lemma FileBack(s: State, s1: State, s2: State, w: string, u: string, p: string, to: string, now: int,
                 r1: Outcome, r2: Outcome)
    requires FileTrip(s, s1, s2, w, u, p, to, now, r1, r2) && r2.Ok?
    ensures At(s2.fs, Phys(to)) == At(s.fs, Phys(p)) && s2.trash == s.trash
    ensures IndexView(s2.cloud, KeyFor(to)) == Regular(|s.fs[Phys(p)].data|)
    ensures forall j :: j != KeyFor(to) ==> (j in s2.cloud <==> j in s.cloud && j != KeyFor(p))
                                            && (j in s2.cloud ==> s2.cloud[j] == s.cloud[j])
  {
    var k, dst, h, mid := FileTripEnd(s, s1, s2, w, u, p, to, now, r1, r2);
    var data := s.fs[Phys(p)].data;
    SavedThere(s1, mid, dst, data);
    BlobStaysApart(s1, s2, u, h, dst, data);
    IndexBack(s.cloud, s1.cloud, s2.cloud, k, dst);
  }

  // One row leaves, and one is written.
  lemma IndexBack(cloud: Cloud, cloud1: Cloud, cloud2: Cloud, k: Key, dst: Key)
    requires cloud1 == cloud - {k} && dst in cloud2 && cloud2 == cloud1[dst := cloud2[dst]]
    ensures forall j :: j != dst ==> (j in cloud2 <==> j in cloud && j != k) && (j in cloud2 ==> cloud2[j] == cloud[j])
  {
  }

  // And so is every blob.
  lemma BlobsBack(s: State, s1: State, s2: State, w: string, u: string, p: string, to: string, now: int,
                  r1: Outcome, r2: Outcome, v: string, g: nat)
    requires FileTrip(s, s1, s2, w, u, p, to, now, r1, r2) && r2.Ok? && v in s.users
    ensures At(s2.fs, BlobPath(v, g)) == At(s.fs, BlobPath(v, g))
  {
    var k, dst, h, mid := FileTripEnd(s, s1, s2, w, u, p, to, now, r1, r2);
    BlobBack(s, s1, s2, k, h, dst, s.fs[Phys(p)].data, v, g);
  }

  lemma RestoredFile(s1: State, s2: State, row: TrashRow, dst: Key, data: Bytes, r: Outcome)
    requires '/' !in dst.name && Tracked(dst.user, PathOf(dst)) && row.blob.Some?
    requires Read(s1.fs, BlobPath(row.user, row.blob.value)) == Ok(data)
    requires (s2, r) == RestoreFileResult(s1, row, dst) && r.Ok?
    ensures SaveResult(s1, dst, data).1.Ok? && s2.cloud == SaveResult(s1, dst, data).0.cloud
    ensures s2.fs == Delete(SaveResult(s1, dst, data).0.fs, BlobPath(row.user, row.blob.value))
    ensures s2.trash == DropRows(s1.trash, (t: TrashRow) => SameItem(t, row.user, row.dir, row.name) && !t.isDir)
  {
    RestoreSaves(s1, dst, data);
  }

  // The one row of its trash path comes and goes.
  lemma RowBack(trash: Trash, id: nat, row: TrashRow)
    requires id !in trash && !row.isDir
    requires forall i {:trigger trash[i]} :: i in trash ==> !SameItem(trash[i], row.user, row.dir, row.name)
    ensures DropRows(trash[id := row], (t: TrashRow) => SameItem(t, row.user, row.dir, row.name) && !t.isDir) == trash
  {
  }

  lemma SavedThere(s: State, s': State, k: Key, data: Bytes)
    requires s' == SaveResult(s, k, data).0 && SaveResult(s, k, data).1.Ok?
    ensures At(s'.fs, Phys(PathOf(k))) == Some(File(data)) && IndexView(s'.cloud, k) == Regular(|data|)
    ensures s'.cloud == s.cloud[k := s'.cloud[k]] && s'.trash == s.trash && s'.users == s.users
  {
  }

  lemma BlobStaysApart(s1: State, s2: State, u: string, h: nat, dst: Key, data: Bytes)
    requires Valid(s1) && u in s1.users && InDomain(s1.users, dst) && SaveResult(s1, dst, data).1.Ok?
    requires s2.fs == Delete(SaveResult(s1, dst, data).0.fs, BlobPath(u, h))
    ensures At(s2.fs, Phys(PathOf(dst))) == At(SaveResult(s1, dst, data).0.fs, Phys(PathOf(dst)))
  {
    assert ValidName(u) && ValidName(dst.user);
    BlobApartFromTracked(u, h, dst.user, PathOf(dst));
  }

  lemma BlobBack(s: State, s1: State, s2: State, k: Key, h: nat, dst: Key, data: Bytes, v: string, g: nat)
    requires Valid(s) && Valid(s1) && s1.users == s.users && InDomain(s.users, k) && InDomain(s.users, dst) && v in s.users
    requires h >= s.nextId && IsFile(s.fs, Phys(PathOf(k))) && Away(s.fs, s1.fs, k.user, PathOf(k), h)
    requires s2.fs == Delete(SaveResult(s1, dst, data).0.fs, BlobPath(k.user, h))
    ensures At(s2.fs, BlobPath(v, g)) == At(s.fs, BlobPath(v, g))
  {
    assert ValidName(k.user) && ValidName(v);
    var b := BlobPath(v, g);
    SaveAtFrame(s1, dst, dst.dir, dst.name, data, |data|);
    TrackedChangesKeepBlobs(s1, SaveResult(s1, dst, data).0, dst.user);
    assert At(SaveResult(s1, dst, data).0.fs, b) == At(s1.fs, b);
    BlobNotInChain(k.user, v, g);
    BlobApartFromTracked(v, g, k.user, PathOf(k));
    if b == BlobPath(k.user, h) {
      BlobPathInjective(v, g, k.user, h);
      FileElsewhere(s, k.user, Phys(PathOf(k)), h);
    }
  }
}
