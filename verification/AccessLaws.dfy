/**
  Who may do what: when a request is let through, and that a refused one changes nothing.
 */
module AccessLaws {
  import opened Wrappers
  import opened VirtualPath
  import opened FileTree
  import opened StorageState
  import opened StorageIndex
  import opened StorageRename
  import opened StorageTrash
  import opened StorageRestore
  import opened StorageRequests
  import opened StorageRuns

  // The requester acts for the owner.
  predicate ActsFor(username: string, owner: string) {
    username == owner || username == "admin"
  }

  ghost predicate InNoHome(p: string) {
    forall u :: !InHomeOf(p, u)
  }

  // A path is in one home at most, the one routing finds.
  lemma OneHome(p: string, username: string) returns (owner: string)
    requires Normal(p) && !InNoHome(p)
    ensures InHomeOf(p, owner) && forall u :: InHomeOf(p, u) ==> u == owner
    ensures "/User/" <= p && |Components(p)| >= 2 && Components(p)[1] == owner
  {
    var v :| InHomeOf(p, v);
    HomeBelow(v, p);
    var k := RoutedKey(p);
    owner := k.user;
    forall u | InHomeOf(p, u) ensures u == owner { HomesApart(u, owner, p); }
  }

  lemma NoHomeForm(p: string)
    requires Normal(p) && InNoHome(p)
    ensures !("/User/" <= p)
  {
    if "/User/" <= p {
      var k := RoutedKey(p);
      assert InHomeOf(p, k.user);
    }
  }

  // A move is granted exactly when both paths are in one home whose owner the requester is, or for whom
  // admin asks; it is a bad request exactly when one of them is in no home, and forbidden otherwise.
  lemma MoveAccess(username: string, from: string, to: string)
    requires Normal(from) && Normal(to)
    ensures forall u :: MoveOwner(username, from, to) == Ok(u) <==>
              InHomeOf(from, u) && InHomeOf(to, u) && ActsFor(username, u)
    ensures MoveOwner(username, from, to) == Err(BadRequest) <==> InNoHome(from) || InNoHome(to)
    ensures MoveOwner(username, from, to) == Err(Forbidden) <==>
              !InNoHome(from) && !InNoHome(to)
              && forall u :: !(InHomeOf(from, u) && InHomeOf(to, u) && ActsFor(username, u))
  {
    if InNoHome(from) {
      NoHomeForm(from);
    } else if InNoHome(to) {
      NoHomeForm(to);
    } else {
      var a := OneHome(from, username);
      var b := OneHome(to, username);
      assert InHomeOf(from, a) && InHomeOf(to, b);
    }
  }

  // The paths on which a request is decided. The trash is everyone's own.
  function Judged(q: Request): seq<string> {
    match q
    case Mkdir(_, p) => [p]
    case Save(_, d, _, _) => [d]
    case Rename(_, f, t) => if "/Trash" <= f then [t] else [f, t]
    case Delete(_, p, _) => if p == "/Trash" || "/Trash/" <= p then [] else [p]
    case Purge(_) => []
  }

  function Requester(q: Request): string {
    if q.Purge? then "" else q.username
  }

  // All paths are in one home, and the requester acts for its owner.
  ghost predicate Permitted(q: Request) {
    Judged(q) == [] ||
    exists u :: ActsFor(Requester(q), u) && forall p :: p in Judged(q) ==> InHomeOf(p, u)
  }

  // A request without permission changes nothing. It is answered as bad when a path is in no home and
  // as forbidden otherwise; with permission no request is forbidden.
  lemma AccessDecides(s: State, q: Request, s': State, r: Outcome)
    requires Serves(s, q, s', r) && forall p :: p in Judged(q) ==> Normal(p)
    ensures !Permitted(q) ==>
              s' == s && r == Err(if exists p :: p in Judged(q) && InNoHome(p) then BadRequest else Forbidden)
    ensures r == Err(Forbidden) ==> !Permitted(q)
  {
    match q {
      case Mkdir(u, p) => OnePathDecides(q, u, p);
      case Save(u, d, _, _) => OnePathDecides(q, u, d);
      case Rename(u, f, t) =>
        if FromTrash(f) { OnePathDecides(q, u, t); } else { TwoPathsDecide(q, u, f, t); }
      case Delete(u, p, _) => if !InTrash(p) { OnePathDecides(q, u, p); }
      case Purge(_) =>
    }
    if Granted(q) { GrantedNotForbidden(s, q, s', r); }
  }

  lemma OnePathDecides(q: Request, u: string, p: string)
    requires Normal(p) && Judged(q) == [p] && !q.Purge? && q.username == u
    ensures Permitted(q) <==> Authorise(u, p).Ok?
    ensures !Permitted(q) ==>
              Authorise(u, p) == Err(if exists p :: p in Judged(q) && InNoHome(p) then BadRequest else Forbidden)
  {
    AccessExact(u, p);
    if Authorise(u, p).Ok? {
      var owner := Authorise(u, p).value;
      assert InHomeOf(p, owner) && ActsFor(Requester(q), owner);
    }
    assert p in Judged(q);
  }

  lemma TwoPathsDecide(q: Request, u: string, f: string, t: string)
    requires Normal(f) && Normal(t) && Judged(q) == [f, t] && !q.Purge? && q.username == u
    ensures Permitted(q) <==> MoveOwner(u, f, t).Ok?
    ensures !Permitted(q) ==>
              MoveOwner(u, f, t) == Err(if exists p :: p in Judged(q) && InNoHome(p) then BadRequest else Forbidden)
  {
    MoveAccess(u, f, t);
    if MoveOwner(u, f, t).Ok? {
      var owner := MoveOwner(u, f, t).value;
      assert InHomeOf(f, owner) && InHomeOf(t, owner) && ActsFor(Requester(q), owner);
    }
    assert f in Judged(q) && t in Judged(q);
  }

  // ---- No step behind the checks answers Forbidden -------------------------------------------------

  lemma {:induction false} ArchivingNotForbidden(s: State, k: Key, now: int, found: seq<Found>)
    ensures ArchiveAll(s, k, now, found).1 != Err(Forbidden)
  {
    if found != [] { ArchivingNotForbidden(s, k, now, found[..|found| - 1]); }
  }

  lemma {:induction false} RestoringNotForbidden(s: State, rows: seq<TrashRow>, c: Target)
    ensures RestoreRows(s, rows, c).1 != Err(Forbidden)
  {
    if rows != [] {
      RestoringNotForbidden(s, rows[..|rows| - 1], c);
      RowNotForbidden(RestoreRows(s, rows[..|rows| - 1], c).0, rows[|rows| - 1], c);
    }
  }

  lemma RowNotForbidden(s: State, row: TrashRow, c: Target)
    ensures RestoreRow(s, row, c).1 != Err(Forbidden)
  {
  }

  lemma DeleteNotForbidden(s: State, s': State, k: Key, now: int, r: Outcome)
    requires DeleteStep(s, s', k, now, r)
    ensures r != Err(Forbidden)
  {
    if k.user in s.users && IsDir(s.fs, Phys(PathOf(k))) {
      var files, dirs :| Listing(s.fs, PathOf(k), files, dirs) && (s', r) == DeleteDirResult(s, k, now, files, dirs);
      ArchivingNotForbidden(OpenWalk(s, k, now), k, now, FoundFiles(k, files));
    }
  }

  lemma RestoreNotForbidden(s: State, s': State, dir: string, name: string, c: Target, dst: Key, r: Outcome)
    requires "/" <= c.to && RestoreStep(s, s', dir, name, c, dst, r)
    ensures r != Err(Forbidden)
  {
    if c.user in s.users && Listed(s.trash, c.user, dir, name) {
      var id :| id in s.trash && SameItem(s.trash[id], c.user, dir, name)
                && if s.trash[id].isDir then RestoreDirStep(s, s', dir, name, c, r)
                   else (s', r) == RestoreFileResult(s, s.trash[id], dst);
      if s.trash[id].isDir { DirRestoreNotForbidden(s, s', dir, name, c, r); }
    }
  }

  lemma DirRestoreNotForbidden(s: State, s': State, dir: string, name: string, c: Target, r: Outcome)
    requires "/" <= c.to && RestoreDirStep(s, s', dir, name, c, r)
    ensures r != Err(Forbidden)
  {
    var rows, ids :| RowsBelow(s.trash, c, rows, ids) && (s', r) == RestoreDirResult(s, dir, name, c, rows);
    RestoringNotForbidden(s.(fs := TryCreateDir(s.fs, ParentOp(c.toUser, Parent(c.to)))), rows, c);
  }

  // Whether the checks of the request let it through.
  ghost predicate Granted(q: Request) {
    match q
    case Mkdir(u, p) => Authorise(u, p).Ok?
    case Save(u, d, _, _) => Authorise(u, d).Ok?
    case Rename(u, f, t) => if FromTrash(f) then Authorise(u, t).Ok? else MoveOwner(u, f, t).Ok?
    case Delete(u, p, _) => InTrash(p) || Authorise(u, p).Ok?
    case Purge(_) => true
  }

  lemma GrantedNotForbidden(s: State, q: Request, s': State, r: Outcome)
    requires Serves(s, q, s', r) && Granted(q)
    ensures r != Err(Forbidden)
  {
    match q {
      case Mkdir(_, _) =>
      case Save(_, _, _, _) =>
      case Rename(u, f, t) =>
        if FromTrash(f) {
          RestoreNotForbidden(s, s', OriginalDir(f), FileName(f), TargetOf(u, f, t), KeyFor(t), r);
        }
      case Delete(_, p, now) => if !InTrash(p) { DeleteNotForbidden(s, s', KeyFor(p), now, r); }
      case Purge(_) =>
    }
  }
}
