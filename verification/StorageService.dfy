/**
  The storage service as it runs: one object holding the tree and the two tables, updated step
  by step. Each method is proved against the outcome functions of the Storage modules.
 */
module StorageService {
  import opened Wrappers
  import opened Text
  import opened VirtualPath
  import opened Like
  import opened FileTree
  import opened DotPaths
  import opened StorageState
  import opened StorageIndex
  import opened StorageRename
  import opened StorageTrash
  import opened StorageRestore
  import opened StorageRequests

  class Service {
    var users: set<string>
    var fs: Tree
    var cloud: Cloud
    var trash: Trash
    var nextId: nat

    // The tree after each physical step so far.
    ghost var trail: seq<Tree>

    constructor (users: set<string>, fs: Tree)
      ensures Snapshot() == State(users, fs, map[], map[], 0) && trail == []
    {
      this.users, this.fs, this.cloud, this.trash, this.nextId := users, fs, map[], map[], 0;
      trail := [];
    }

    ghost function Snapshot(): State
      reads this
    {
      State(users, fs, cloud, trash, nextId)
    }

    // let _ = op.create_dir(..)
    method MakeDir(op: string) returns (ok: bool)
      modifies `fs, `trail
      ensures fs == TryCreateDir(old(fs), op) && (ok <==> CreateDir(old(fs), op).Ok?)
      ensures trail == old(trail) + [fs]
    {
      var made := CreateDir(fs, op);
      ok := made.Ok?;
      if ok { fs := made.value; }
      trail := trail + [fs];
    }

    // Owner of the path, or the error of the checks every request starts with.
    method CheckAccess(username: string, p: string) returns (r: Result<string, Error>)
      ensures r == Authorise(username, p)
    {
      if !("/User/" <= p) { return Err(BadRequest); }
      var parts := Components(p);
      if |parts| < 2 { return Err(BadRequest); }
      var owner := parts[1];
      if owner != username && username != "admin" { return Err(Forbidden); }
      r := Ok(owner);
    }

    // resolve_opendal_path of a /User path
    method Resolve(username: string, p: string) returns (op: string)
      requires Normal(p) && "/User/" <= p
      ensures op == Phys(p)
    {
      ResolveHomePath(username, p);
      op := ResolveOpendalPath(username, p);
    }

    // The same for a path that is still to be normalised.
    method ResolveSpelling(username: string, p: string) returns (op: string)
      requires "/User/" <= NormalizePath(p)
      ensures op == OpPath(p)
    {
      NormalizeIdempotent(p);
      ResolveHomePath(username, NormalizePath(p));
      op := ResolveOpendalPath(username, p);
    }

    // And for the parent of a /User path.
    method ResolveAbove(username: string, dir: string) returns (op: string)
      requires ParentForm(dir)
      ensures op == ParentOp(username, dir)
    {
      ResolveParent(username, dir);
      op := ResolveOpendalPath(username, dir);
    }

    // ---- mkdir ------------------------------------------------------------------------------

    method Mkdir(username: string, path: string) returns (r: Outcome)
      requires Routed(NormalizePath(path))
      modifies this
      ensures (Snapshot(), r) == MkdirRequest(old(Snapshot()), username, NormalizePath(path))
    {
      var fullPath := NormalizePath(path);
      var access := CheckAccess(username, fullPath);
      if access.Err? { return Err(access.error); }
      if |Components(fullPath)| == 2 { return Err(BadRequest); }
      NormalizeIdempotent(path);
      var k := RoutedKey(fullPath);
      var op := Resolve(access.value, fullPath);
      r := InsertDirectory(KeyFor(fullPath), op);
    }

    method InsertDirectory(k: Key, op: string) returns (r: Outcome)
      requires op == Phys(PathOf(k))
      modifies this
      ensures (Snapshot(), r) == MkdirResult(old(Snapshot()), k)
    {
      if k.user !in users { return Err(Database); }
      if k in cloud { return Err(Database); }
      cloud := cloud[k := Entry(nextId, 0, InodeDirectory)];
      nextId := nextId + 1;
      var ok := MakeDir(op);
      r := if ok then Ok(()) else Err(Io);
    }

    // ---- save_file ----------------------------------------------------------------------------

    // The name is appended as it is; the file system makes of its pieces what it does.
    method SaveFile(username: string, parentPath: string, name: string, data: Bytes) returns (r: Outcome)
      requires Routed(NormalizePath(parentPath))
      modifies this
      ensures (Snapshot(), r) == SaveRequest(old(Snapshot()), username, NormalizePath(parentPath), name, data)
    {
      var dir := NormalizePath(parentPath);
      var access := CheckAccess(username, dir);
      if access.Err? { return Err(access.error); }
      NormalizeIdempotent(parentPath);
      var opPath := Resolve(access.value, dir);
      r := SaveAtPath(Key(access.value, dir, name), opPath + "/" + name, data);
    }

    method SaveAtPath(k: Key, path: string, data: Bytes) returns (r: Outcome)
      modifies this
      ensures (Snapshot(), r) == SavePath(old(Snapshot()), k, path, data)
      ensures trail == old(trail) + PathTrees(old(fs), path, data)
    {
      fs := MakeDirs(fs, PathParent(path));
      trail := trail + [fs];
      var written := PutFile(fs, path, data);
      if written.Err? { return Err(Io); }
      fs := written.value;
      trail := trail + [fs];
      r := IndexFile(k, |data|);
    }

    // The parents, the bytes, then the row.
    method WriteAndIndex(k: Key, opDir: string, op: string, data: Bytes, size: nat) returns (r: Outcome)
      modifies this
      ensures (Snapshot(), r) == SaveAt(old(Snapshot()), k, opDir, op, data, size)
      ensures trail == old(trail) + SaveTrees(old(fs), opDir, op, data)
    {
      ghost var s := Snapshot();
      var _ := MakeDir(opDir);
      r := WriteThenIndex(k, op, data, size, s, opDir);
    }

    method WriteThenIndex(k: Key, op: string, data: Bytes, size: nat, ghost s: State, ghost opDir: string) returns (r: Outcome)
      requires Snapshot() == s.(fs := TryCreateDir(s.fs, opDir))
      modifies this
      ensures (Snapshot(), r) == SaveAt(s, k, opDir, op, data, size)
      ensures trail == old(trail) + WriteTree(old(fs), op, data)
    {
      var ok := WriteObject(op, data);
      if !ok { return Err(Io); }
      r := IndexFile(k, size);
    }

    method WriteObject(op: string, data: Bytes) returns (ok: bool)
      modifies `fs, `trail
      ensures ok <==> Write(old(fs), op, data).Ok?
      ensures ok ==> Write(old(fs), op, data) == Result.Ok(fs)
      ensures !ok ==> fs == old(fs)
      ensures trail == old(trail) + WriteTree(old(fs), op, data)
    {
      var written := Write(fs, op, data);
      ok := written.Ok?;
      if ok {
        fs := written.value;
        trail := trail + [fs];
      }
    }

    // insert .. on conflict do update
    method IndexFile(k: Key, size: nat) returns (r: Outcome)
      modifies `cloud, `nextId
      ensures (Snapshot(), r) == Indexed(old(Snapshot()), k, size)
    {
      if k.user !in users { return Err(Database); }
      cloud := Upsert(cloud, k, Entry(nextId, size, Guessed(k.name)));
      nextId := nextId + 1;
      r := Ok(());
    }

    // ---- rename: move -------------------------------------------------------------------------

    // One UPDATE statement: rows are rewritten in no particular order, and the first conflict with
    // the UNIQUE key rolls the statement back.
    method UpdateRows(u: Update) returns (ok: bool)
      modifies `cloud
      ensures ok ==> Rekeyed(old(cloud), cloud, [u])
      ensures !ok ==> cloud == old(cloud)
      ensures Unobstructed(old(cloud), u) ==> ok
    {
      var before := cloud;
      var pending := set k | k in cloud && Hits(u, k);
      ghost var src := map k | k in cloud :: k;
      while pending != {}
        invariant Halfway(u, before, cloud, pending, src)
        decreases |pending|
      {
        var k :| k in pending;
        var target := Retarget(u, k);
        if target != k && target in cloud {
          HalfwayConflict(u, before, cloud, pending, src, k);
          cloud := before;
          return false;
        }
        HalfwayStep(u, before, cloud, pending, src, k);
        cloud := (cloud - {k})[target := before[k]];
        src := (src - {k})[target := k];
        pending := pending - {k};
      }
      HalfwayDone(u, before, cloud, src);
      ok := true;
    }

    // The three statements of a move, each autocommitted; a failure ends the request.
    method MoveRows(src: Key, dst: Key) returns (ok: bool)
      modifies `cloud
      ensures Updated(old(cloud), cloud, RenamePlan(src, dst), ok)
    {
      ghost var t0, plan := cloud, RenamePlan(src, dst);
      PlanStart(t0, plan);
      ok := RunStatement(OwnRow(src.user, src.dir, src.name, dst.dir, dst.name), t0, plan, 0);
      if ok { ok := RunStatement(Children(src.user, PathOf(src), PathOf(dst)), t0, plan, 1); }
      if ok { ok := RunStatement(Deeper(src.user, PathOf(src), PathOf(dst)), t0, plan, 2); }
      if ok { PlanEnded(t0, cloud, plan); }
    }

    method RunStatement(u: Update, ghost t0: Cloud, ghost plan: seq<Update>, ghost done: nat) returns (ok: bool)
      requires done < |plan| && u == plan[done] && PlanAt(t0, cloud, plan, done)
      modifies `cloud
      ensures ok ==> PlanAt(t0, cloud, plan, done + 1)
      ensures !ok ==> Updated(t0, cloud, plan, false)
    {
      ghost var t := cloud;
      ok := UpdateRows(u);
      if ok { StatementRan(t0, t, cloud, plan, done); } else { PlanStopped(t0, t, plan, done); }
    }

    method Move(username: string, from: string, to: string) returns (r: Outcome)
      requires Routed(NormalizePath(from)) && Routed(NormalizePath(to)) && !("/Trash" <= NormalizePath(from))
      modifies this
      ensures MoveRequest(old(Snapshot()), Snapshot(), username, NormalizePath(from), NormalizePath(to), r)
    {
      var fromPath, toPath := NormalizePath(from), NormalizePath(to);
      var owner := MoveAccess(username, fromPath, toPath);
      if owner.Err? { return Err(owner.error); }
      NormalizeIdempotent(from);
      NormalizeIdempotent(to);
      var k := RoutedKey(fromPath);
      k := RoutedKey(toPath);
      var fromOp := Resolve(owner.value, fromPath);
      var toOp := Resolve(owner.value, toPath);
      r := MoveObjects(KeyFor(fromPath), KeyFor(toPath), fromOp, toOp);
    }

    method MoveAccess(username: string, from: string, to: string) returns (r: Result<string, Error>)
      ensures r == MoveOwner(username, from, to)
    {
      if !("/User/" <= from) { return Err(BadRequest); }
      var fromParts := Components(from);
      if |fromParts| < 2 { return Err(BadRequest); }
      if !("/User/" <= to) { return Err(BadRequest); }
      var toParts := Components(to);
      if |toParts| < 2 { return Err(BadRequest); }
      if fromParts[1] != toParts[1] { return Err(Forbidden); }
      if fromParts[1] != username && username != "admin" { return Err(Forbidden); }
      r := Ok(fromParts[1]);
    }

    method MoveObjects(src: Key, dst: Key, fromOp: string, toOp: string) returns (r: Outcome)
      requires fromOp == Phys(PathOf(src)) && toOp == Phys(PathOf(dst)) && '/' !in dst.name
      modifies this
      ensures MoveStep(old(Snapshot()), Snapshot(), src, dst, r)
    {
      KeyOpParent(dst);
      var _ := MakeDir(OpParent(toOp));
      var moved := FileTree.Rename(fs, fromOp, toOp);
      if moved.Err? { return Err(Io); }
      fs := moved.value;
      trail := trail + [fs];
      if src.user !in users { return Err(Database); }
      var ok := MoveRows(src, dst);
      r := if ok then Ok(()) else Err(Database);
    }

    // ---- delete -------------------------------------------------------------------------------

    method Delete(username: string, path: string, now: int) returns (r: Outcome)
      requires Routed(NormalizePath(path))
      modifies this
      ensures var p := NormalizePath(path);
              if p == "/Trash" || "/Trash/" <= p then EraseRequest(old(Snapshot()), Snapshot(), username, p, r)
              else DeleteRequest(old(Snapshot()), Snapshot(), username, p, now, r)
    {
      var p := NormalizePath(path);
      if p == "/Trash" { return Err(BadRequest); }
      if "/Trash/" <= p {
        r := EraseTrashItem(username, RelParent(p), FileName(p));
        return;
      }
      var access := CheckAccess(username, p);
      if access.Err? { return Err(access.error); }
      NormalizeIdempotent(path);
      var k := RoutedKey(p);
      if access.value !in users { return Err(Database); }
      r := DeleteObject(KeyFor(p), p, now);
    }

    method DeleteObject(k: Key, p: string, now: int) returns (r: Outcome)
      requires p == PathOf(k) && Normal(p) && "/User/" <= p && '/' !in k.name && "/" <= k.dir && k.user in users
      modifies this
      ensures DeleteStep(old(Snapshot()), Snapshot(), k, now, r)
      ensures !IsDir(old(fs), Phys(p)) ==> trail == old(trail) + DeleteFileTrees(old(Snapshot()), k)
    {
      var op := Resolve(k.user, p);
      if op !in fs { return Err(Io); }
      if fs[op].Dir? { r := DeleteDirectory(k, p, now); } else { r := DeleteSingle(k, p, now); }
    }

    method DeleteDirectory(k: Key, p: string, now: int) returns (r: Outcome)
      requires p == PathOf(k) && Normal(p) && "/User/" <= p && '/' !in k.name && "/" <= k.dir
      modifies this
      ensures DeleteDirStep(old(Snapshot()), Snapshot(), k, now, r)
    {
      ghost var s := Snapshot();
      ghost var files, dirs;
      r, files, dirs := TrashDirectory(k.user, p, now, k);
      ghost var t := Snapshot();
      if r.Ok? {
        cloud := cloud - (set j | j in cloud && j.user == k.user && Selects(p, j.dir));
        cloud := cloud - {k};
      }
      WalkedDelete(s, t, Snapshot(), k, now, files, dirs, r);
    }

    method DeleteSingle(k: Key, p: string, now: int) returns (r: Outcome)
      requires p == PathOf(k) && Normal(p) && "/User/" <= p
      modifies this
      ensures FileDeleted(old(Snapshot()), Snapshot(), k, now, r)
      ensures trail == old(trail) + DeleteFileTrees(old(Snapshot()), k)
    {
      ghost var s := Snapshot();
      NormalizeIdempotent(p);
      var archived := HashAndArchive(k.user, p);
      r := RecordSingle(k, now, archived, s);
    }

    // The trash row and the index row of an archived file.
    method RecordSingle(k: Key, now: int, archived: Result<(nat, nat), Error>, ghost s: State) returns (r: Outcome)
      requires Archived(s, Snapshot(), k.user, PathOf(k), archived)
      modifies `cloud, `trash, `nextId
      ensures FileDeleted(s, Snapshot(), k, now, r)
    {
      ghost var t := Snapshot();
      if archived.Err? {
        DeletedNot(s, t, k, now, archived);
        return Err(archived.error);
      }
      var (blob, size) := archived.value;
      InsertTrashRow(TrashRow(k.user, k.dir, k.name, false, size, Some(blob), now));
      cloud := cloud - {k};
      r := Ok(());
      DeletedSingle(s, t, Snapshot(), k, now, archived);
    }

    // The object becomes a blob; its name and size are returned.
    method HashAndArchive(user: string, path: string) returns (r: Result<(nat, nat), Error>)
      requires "/User/" <= NormalizePath(path)
      modifies `fs, `nextId, `trail
      ensures Archived(old(Snapshot()), Snapshot(), user, NormalizePath(path), r)
      ensures trail == old(trail)
                       + if IsFile(old(fs), OpPath(path)) then ArchiveTrees(old(fs), user, NormalizePath(path), old(nextId)) else []
    {
      var op := ResolveSpelling(user, path);
      if op !in fs { return Err(Io); }
      if fs[op].Dir? { return Err(BadRequest); }
      r := ArchiveObject(user, NormalizePath(path), op);
    }

    method ArchiveObject(user: string, ghost p: string, op: string) returns (r: Result<(nat, nat), Error>)
      requires op == Phys(p) && IsFile(fs, op)
      modifies `fs, `nextId, `trail
      ensures Archived(old(Snapshot()), Snapshot(), user, p, r)
      ensures trail == old(trail) + ArchiveTrees(old(fs), user, p, old(nextId))
    {
      var size := |fs[op].data|;
      var id := nextId;
      nextId := nextId + 1;
      ghost var s := old(Snapshot());
      var ok := MoveToBlob(user, p, op, id);
      r := if ok then Ok((id, size)) else Err(Io);
      ObjectArchived(s, Snapshot(), user, p, ok, r);
    }

    method MoveToBlob(user: string, ghost p: string, op: string, id: nat) returns (ok: bool)
      requires op == Phys(p)
      modifies `fs, `trail
      ensures trail == old(trail) + ArchiveTrees(old(fs), user, p, id)
      ensures match ArchiveTree(old(fs), user, p, id)
              case Ok(t) => ok && fs == t
              case Err(_) => !ok && fs == TryCreateDir(old(fs), BlobBase(user))
    {
      var _ := MakeDir(BlobBase(user));
      var moved := FileTree.Rename(fs, op, BlobPath(user, id));
      ok := moved.Ok?;
      if ok {
        fs := moved.value;
        trail := trail + [fs];
      }
    }

    method InsertTrashRow(row: TrashRow)
      modifies `trash, `nextId
      ensures trash == old(trash)[old(nextId) := row] && nextId == old(nextId) + 1
    {
      trash := trash[nextId := row];
      nextId := nextId + 1;
    }

    // op.list: the children of a directory, in no particular order.
    method ListObjects(op: string) returns (entries: seq<ObjectEntry>)
      ensures ListsObjects(fs, op, entries)
    {
      entries := [];
      var todo := fs.Keys;
      while todo != {}
        invariant todo <= fs.Keys
        invariant forall e {:trigger e in entries} :: e in entries ==>
                    IsEntry(fs, op, e) && Child(op, e.name) !in todo
        invariant forall i, j {:trigger entries[i], entries[j]} ::
                    0 <= i < j < |entries| ==> entries[i].name != entries[j].name
        invariant forall n {:trigger Child(op, n)} :: '/' !in n && Child(op, n) in fs && Child(op, n) !in todo ==>
                    exists e :: e in entries && e.name == n
        decreases |todo|
      {
        var q :| q in todo;
        todo := todo - {q};
        if op + "/" <= q && '/' !in q[|op| + 1..] {
          var e := ObjectEntry(q[|op| + 1..], fs[q].Dir?);
          assert Child(op, e.name) == q by { assert q[..|op| + 1] == op + "/"; }
          assert forall e' :: e' in entries ==> e'.name != e.name;
          entries := entries + [e];
        } else {
          forall n | '/' !in n ensures Child(op, n) != q { ChildIsEntry(op, n); }
        }
      }
    }

    method ArchiveEntry(user: string, p: string, n: string, now: int, ghost k: Key) returns (r: Outcome)
      requires user == k.user && p == PathOf(k) && Routable(p)
      modifies this
      ensures (Snapshot(), r) == EntryResult(old(Snapshot()), k, now, n)
    {
      ghost var s := Snapshot();
      RoutableChild(p, n);
      var archived := HashAndArchive(user, Child(p, n));
      r := RecordEntry(user, p, n, now, archived, k, Addressed(k, n), s);
    }

    method RecordEntry(user: string, p: string, n: string, now: int, archived: Result<(nat, nat), Error>,
                       ghost k: Key, ghost q: string, ghost s: State) returns (r: Outcome)
      requires user == k.user && p == PathOf(k) && Archived(s, Snapshot(), user, q, archived)
      modifies `trash, `nextId
      ensures EntryDone(s, Snapshot(), k, now, n, q, r)
    {
      ghost var t := Snapshot();
      if archived.Err? {
        EntryNot(s, t, k, n, q, now, archived);
        return Err(archived.error);
      }
      var (blob, size) := archived.value;
      InsertTrashRow(TrashRow(user, FilesDir(user, p), n, false, size, Some(blob), now));
      r := Ok(());
      ArchivedEntry(s, t, Snapshot(), k, n, q, now, archived);
    }

    // The loop over a listing: sub-directories go onto the stack, files into the trash.
    method VisitEntries(user: string, p: string, now: int, entries: seq<ObjectEntry>, below: seq<string>, ghost k: Key)
      returns (r: Outcome, stack: seq<string>)
      requires user == k.user && p == PathOf(k) && Routable(p)
      modifies this
      ensures (Snapshot(), r) == EntriesResult(old(Snapshot()), k, now, Names(entries, false))
      ensures r.Ok? ==> stack == below + Paths(p, Names(entries, true))
    {
      ghost var s := Snapshot();
      stack := below;
      StackStart(p, entries, below);
      assert FilesArchived(s, s, k, now, entries, 0) by { assert entries[..0] == []; }
      for i := 0 to |entries|
        invariant StackAt(p, entries, i, below, stack) && FilesArchived(s, Snapshot(), k, now, entries, i)
      {
        var e := entries[i];
        StackNext(p, entries, i, below, stack);
        if e.name == "" || e.name == "." || e.isDir {
          EntryPassed(s, Snapshot(), k, now, entries, i);
          if e.name != "" && e.name != "." { stack := stack + [Child(p, e.name)]; }
        } else {
          r := ArchiveNext(user, p, now, entries, i, k, s);
          if r.Err? { return; }
        }
      }
      assert entries[..|entries|] == entries;
      r := Ok(());
    }

    method ArchiveNext(user: string, p: string, now: int, entries: seq<ObjectEntry>, i: nat, ghost k: Key, ghost s: State)
      returns (r: Outcome)
      requires user == k.user && p == PathOf(k) && Routable(p) && i < |entries|
      requires !entries[i].isDir && !Skipped(entries[i].name) && FilesArchived(s, Snapshot(), k, now, entries, i)
      modifies this
      ensures r.Ok? ==> FilesArchived(s, Snapshot(), k, now, entries, i + 1)
      ensures r.Err? ==> EntriesResult(s, k, now, Names(entries, false)) == (Snapshot(), r)
    {
      ghost var t := Snapshot();
      r := ArchiveEntry(user, p, entries[i].name, now, k);
      NextEntry(s, t, k, now, entries, i);
      ArchivedOne(s, Snapshot(), k, now, entries, i, r);
    }

    // One round of the walk: the row of the directory, its children, remove_all. The object
    // listed and removed is that of the normalised path q.
    method Visit(user: string, p: string, now: int, below: seq<string>, ghost k: Key, ghost q: string)
      returns (r: Outcome, stack: seq<string>, ghost files: seq<string>, ghost dirs: seq<string>)
      requires user == k.user && p == PathOf(k) && '/' !in k.name && "/" <= k.dir
      requires q == NormalizePath(p) && Routable(p)
      modifies this
      ensures Listing(old(fs), q, files, dirs)
      ensures Visited(old(Snapshot()), Snapshot(), k, now, files, r)
      ensures r.Ok? ==> stack == below + Paths(p, dirs)
    {
      ghost var s := Snapshot();
      RecordDirectory(user, p, now, k);
      RoutableResolves(p);
      var op := ResolveSpelling(user, p);
      r, stack, files, dirs := VisitChildren(user, p, op, now, below, k, q);
      ghost var t := Snapshot();
      if r.Ok? {
        fs := RemoveAll(fs, op);
        trail := trail + [fs];
      }
      VisitedAll(s, t, Snapshot(), k, now, files, r);
    }

    method RecordDirectory(user: string, p: string, now: int, ghost k: Key)
      requires user == k.user && p == PathOf(k) && '/' !in k.name && "/" <= k.dir
      modifies `trash, `nextId
      ensures Snapshot() == OpenWalk(old(Snapshot()), k, now)
    {
      SplitLast(k.dir, k.name);
      InsertTrashRow(DirRow(user, RelativeDir(user, Parent(p)), FileName(p), now));
    }

    method VisitChildren(user: string, p: string, op: string, now: int, below: seq<string>, ghost k: Key, ghost q: string)
      returns (r: Outcome, stack: seq<string>, ghost files: seq<string>, ghost dirs: seq<string>)
      requires user == k.user && p == PathOf(k) && op == Phys(q) && Routable(p)
      modifies this
      ensures Listing(old(fs), q, files, dirs)
      ensures (Snapshot(), r) == EntriesResult(old(Snapshot()), k, now, files)
      ensures r.Ok? ==> stack == below + Paths(p, dirs)
    {
      var entries := ListObjects(op);
      files, dirs := Names(entries, false), Names(entries, true);
      ListedNames(fs, q, entries);
      r, stack := VisitEntries(user, p, now, entries, below, k);
    }

    // trash_directory_recursive
    method TrashDirectory(user: string, p: string, now: int, ghost k: Key)
      returns (r: Outcome, ghost files: seq<string>, ghost dirs: seq<string>)
      requires user == k.user && p == PathOf(k) && Normal(p) && "/User/" <= p && '/' !in k.name && "/" <= k.dir
      modifies this
      ensures Listing(old(fs), p, files, dirs)
      ensures Walked(old(Snapshot()), Snapshot(), k, now, files, dirs, r)
    {
      ghost var s, pushed := Snapshot(), [];
      var stack;
      NormalRoutable(p);
      r, stack, files, pushed := Visit(user, p, now, [], k, p);
      dirs := Reversed(pushed);
      ReversedListing(s.fs, p, files, pushed);
      ghost var t := Snapshot();
      if r.Ok? {
        EmptySubtree(s, t, k, now, files, r);
        StackReversed(s.fs, p, files, pushed, stack);
        DrainStack(user, stack, now, k, dirs);
      }
      WalkedOut(s, t, Snapshot(), k, now, files, dirs, r);
    }

    // The rest of the walk: the sub-directories on the stack are gone from the disk already.
    method DrainStack(user: string, pending: seq<string>, now: int, ghost k: Key, ghost dirs: seq<string>)
      requires user == k.user && Draining(Snapshot(), k, dirs) && pending == Paths(PathOf(k), Reversed(dirs))
      modifies this
      ensures Snapshot() == FileDirs(old(Snapshot()), k, now, dirs)
    {
      var stack := pending;
      ghost var base := Snapshot();
      assert dirs[..0] == [];
      while stack != []
        invariant Drained(base, Snapshot(), k, now, dirs, stack)
        decreases |stack|
      {
        stack := DrainOne(user, stack, now, k, dirs, base);
      }
      assert dirs[..|dirs|] == dirs;
    }

    method DrainOne(user: string, pending: seq<string>, now: int, ghost k: Key, ghost dirs: seq<string>, ghost base: State)
      returns (stack: seq<string>)
      requires user == k.user && Draining(base, k, dirs)
      requires Drained(base, Snapshot(), k, now, dirs, pending) && pending != []
      modifies this
      ensures Drained(base, Snapshot(), k, now, dirs, stack) && |stack| < |pending|
    {
      ghost var t := Snapshot();
      ghost var sub := NextVisit(base, t, k, now, dirs, pending);
      var curr := pending[|pending| - 1];
      ghost var files, more;
      var r;
      r, stack, files, more := Visit(user, curr, now, pending[..|pending| - 1], sub, NormalizePath(curr));
      VisitedMissing(base, t, Snapshot(), k, now, dirs, pending, files, more, sub, r);
      assert pending[..|pending| - 1] + Paths(curr, []) == pending[..|pending| - 1];
    }

    // ---- Permanent delete, and the purger -------------------------------------------------------

    // A query result, in no particular order.
    method SelectRows(where: TrashRow -> bool) returns (rows: seq<TrashRow>, ids: seq<nat>)
      ensures QueryRows(trash, where, rows, ids)
    {
      rows, ids := [], [];
      var todo := trash.Keys;
      while todo != {}
        invariant todo <= trash.Keys && |rows| == |ids|
        invariant forall j {:trigger ids[j]} {:trigger rows[j]} :: 0 <= j < |ids| ==>
                    ids[j] in trash && ids[j] !in todo && trash[ids[j]] == rows[j] && where(rows[j])
        invariant forall i {:trigger i in trash} :: i in trash && i !in todo && where(trash[i]) ==> i in ids
        invariant forall i, j {:trigger ids[i], ids[j]} :: 0 <= i < j < |ids| ==> ids[i] != ids[j]
        decreases |todo|
      {
        var i :| i in todo;
        todo := todo - {i};
        if where(trash[i]) {
          rows, ids := rows + [trash[i]], ids + [i];
        }
      }
    }

    method FindItem(user: string, dir: string, name: string) returns (id: Option<nat>)
      ensures id.None? <==> !Listed(trash, user, dir, name)
      ensures id.Some? ==> id.value in trash && SameItem(trash[id.value], user, dir, name)
    {
      id := None;
      var todo := trash.Keys;
      while todo != {}
        invariant todo <= trash.Keys
        invariant forall i {:trigger i in trash} :: i in trash && i !in todo ==> !SameItem(trash[i], user, dir, name)
        decreases |todo|
      {
        var i :| i in todo;
        if SameItem(trash[i], user, dir, name) { return Some(i); }
        todo := todo - {i};
      }
    }

    method DeleteBlob(user: string, blob: Option<nat>)
      modifies `fs, `trail
      ensures fs == (if blob.Some? then FileTree.Delete(old(fs), BlobPath(user, blob.value)) else old(fs))
      ensures trail == old(trail) + if blob.Some? then [fs] else []
    {
      if blob.Some? {
        fs := FileTree.Delete(fs, BlobPath(user, blob.value));
        trail := trail + [fs];
      }
    }

    method DeleteBlobFiles(rows: seq<TrashRow>)
      modifies `fs, `trail
      ensures fs == DeleteBlobs(old(fs), rows)
      ensures trail == old(trail) + DeleteBlobsTrees(old(fs), rows)
    {
      assert rows[..0] == [];
      for i := 0 to |rows|
        invariant fs == DeleteBlobs(old(fs), rows[..i])
        invariant trail == old(trail) + DeleteBlobsTrees(old(fs), rows[..i])
      {
        var row := rows[i];
        assert rows[..i + 1][..i] == rows[..i];
        if !row.isDir { DeleteBlob(row.user, row.blob); }
      }
      assert rows[..|rows|] == rows;
    }

    // delete_trash_item_recursive; the relative directory comes without its leading slash.
    method EraseTrashItem(username: string, relDir: string, name: string) returns (r: Outcome)
      modifies this
      ensures EraseStep(old(Snapshot()), Snapshot(), username, if relDir == "" then "/" else relDir, name,
                        relDir + "/" + name, r)
    {
      if username !in users { return Err(Database); }
      var dir := if relDir == "" then "/" else relDir;
      var id := FindItem(username, dir, name);
      if id.None? { return Ok(()); }
      assert relDir == "" ==> "/" + name == relDir + "/" + name;
      EraseItem(id.value, if relDir == "" then "/" + name else relDir + "/" + name);
      r := Ok(());
    }

    method EraseItem(id: nat, base: string)
      requires id in trash
      modifies `fs, `trash, `trail
      ensures Erased(old(Snapshot()), Snapshot(), old(trash)[id], base)
    {
      var item := trash[id];
      var rows, ids := SelectRows((t: TrashRow) => !t.isDir && InTrashTree(t, item.user, base));
      assert FilesBelow(trash, item.user, base, rows, ids);
      if item.isDir { EraseDirectory(item, base, rows); } else { EraseFile(item, base, rows); }
    }

    method EraseDirectory(item: TrashRow, base: string, rows: seq<TrashRow>)
      requires item.isDir
      modifies `fs, `trash, `trail
      ensures Snapshot() == ErasedItem(old(Snapshot()), item, base, rows)
    {
      ghost var s := Snapshot();
      DeleteBlobFiles(rows);
      trash := DropRows(trash, (t: TrashRow) => InTrashTree(t, item.user, base));
      trash := DropRows(trash, (t: TrashRow) => SameItem(t, item.user, item.dir, item.name) && t.isDir);
      assert trash == ErasedItem(s, item, base, rows).trash;
    }

    method EraseFile(item: TrashRow, ghost base: string, ghost rows: seq<TrashRow>)
      requires !item.isDir
      modifies `fs, `trash, `trail
      ensures Snapshot() == ErasedItem(old(Snapshot()), item, base, rows)
    {
      ghost var s := Snapshot();
      trash := DropRows(trash, (t: TrashRow) => SameItem(t, item.user, item.dir, item.name) && !t.isDir);
      SingleBlob(fs, item);
      DeleteBlob(item.user, item.blob);
      assert trash == ErasedItem(s, item, base, rows).trash;
    }

    // One round of run_trash_purger, for the rows deleted before the cut-off.
    method Purge(cutoff: int)
      modifies `fs, `trash, `trail
      ensures PurgeStep(old(Snapshot()), Snapshot(), cutoff)
    {
      ghost var s := Snapshot();
      var rows, ids := SelectRows((t: TrashRow) => t.deletedAt < cutoff);
      assert ExpiredRows(trash, cutoff, rows, ids);
      assert rows[..0] == [];
      for i := 0 to |rows|
        invariant fs == DeleteBlobs(old(fs), rows[..i])
        invariant trash == WithoutIds(old(trash), ids[..i])
      {
        var row := rows[i];
        assert rows[..i + 1][..i] == rows[..i];
        WithoutNext(old(trash), ids, i);
        if !row.isDir { DeleteBlob(row.user, row.blob); }
        trash := trash - {ids[i]};
      }
      assert rows[..|rows|] == rows && ids[..|ids|] == ids;
      PurgedRows(old(trash), cutoff, rows, ids);
      assert Snapshot() == Purged(s, cutoff, rows);
    }

    // ---- rename: restore from /Trash --------------------------------------------------------------

    method Rename(username: string, from: string, to: string) returns (r: Outcome)
      requires Routed(NormalizePath(from)) && Routed(NormalizePath(to))
      modifies this
      ensures if "/Trash" <= NormalizePath(from)
              then RestoreRequest(old(Snapshot()), Snapshot(), username, NormalizePath(from), NormalizePath(to), r)
              else MoveRequest(old(Snapshot()), Snapshot(), username, NormalizePath(from), NormalizePath(to), r)
    {
      var fromPath, toPath := NormalizePath(from), NormalizePath(to);
      NormalizeIdempotent(from);
      NormalizeIdempotent(to);
      if "/Trash" <= fromPath {
        r := Restore(username, fromPath, toPath);
      } else {
        r := Move(username, fromPath, toPath);
      }
    }

    method Restore(username: string, from: string, to: string) returns (r: Outcome)
      requires "/" <= from && Normal(to)
      modifies this
      ensures RestoreRequest(old(Snapshot()), Snapshot(), username, from, to, r)
    {
      var access := CheckAccess(username, to);
      if access.Err? { return Err(access.error); }
      var k := RoutedKey(to);
      RoutedDir(to, k);
      r := RestoreItem(OriginalDir(from), FileName(from), TargetOf(username, from, to), KeyFor(to));
    }

    method RestoreItem(dir: string, name: string, c: Target, dst: Key) returns (r: Outcome)
      requires RestoreTarget(c) && PathOf(dst) == c.to && ParentForm(dst.dir)
      modifies this
      ensures RestoreStep(old(Snapshot()), Snapshot(), dir, name, c, dst, r)
    {
      if c.user !in users { return Err(Database); }
      var id := FindItem(c.user, dir, name);
      if id.None? { return Err(BadRequest); }
      if trash[id.value].isDir { r := RestoreDirectory(dir, name, c); } else { r := RestoreFile(id.value, dst); }
    }

    method RestoreFile(id: nat, dst: Key) returns (r: Outcome)
      requires id in trash && !trash[id].isDir
      requires Normal(PathOf(dst)) && "/User/" <= PathOf(dst) && ParentForm(dst.dir)
      modifies this
      ensures (Snapshot(), r) == RestoreFileResult(old(Snapshot()), old(trash)[id], dst)
      ensures trail == old(trail) + RestoreFileTrees(old(Snapshot()), old(trash)[id], dst)
    {
      var row := trash[id];
      if row.blob.None? { return Err(Database); }
      var data := Read(fs, BlobPath(row.user, row.blob.value));
      if data.Err? { return Err(Io); }
      var parentOp := ResolveAbove(dst.user, dst.dir);
      var op := Resolve(dst.user, PathOf(dst));
      r := WriteAndIndex(dst, parentOp, op, data.value, |data.value|);
      if r.Ok? {
        trash := DropRows(trash, (t: TrashRow) => SameItem(t, row.user, row.dir, row.name) && !t.isDir);
        DeleteBlob(row.user, row.blob);
      }
    }

    // order by is_dir desc
    method SelectTree(c: Target) returns (rows: seq<TrashRow>, ids: seq<nat>)
      ensures RowsBelow(trash, c, rows, ids)
    {
      var dirs, dirIds := SelectRows((t: TrashRow) => Below(t, c) && t.isDir);
      var files, fileIds := SelectRows((t: TrashRow) => Below(t, c) && !t.isDir);
      rows, ids := dirs + files, dirIds + fileIds;
      TwoQueries(trash, c, dirs, dirIds, files, fileIds);
    }

    method RestoreDirectory(dir: string, name: string, c: Target) returns (r: Outcome)
      requires RestoreTarget(c)
      modifies this
      ensures RestoreDirStep(old(Snapshot()), Snapshot(), dir, name, c, r)
      ensures exists rows, ids :: RowsBelow(old(trash), c, rows, ids)
                                  && trail == old(trail) + RestoreDirTrees(old(Snapshot()), c, rows)
    {
      ghost var s, trail0 := Snapshot(), trail;
      var parentOp := ResolveAbove(c.toUser, Parent(c.to));
      var _ := MakeDir(parentOp);
      ghost var s0 := Snapshot();
      var rows, ids := SelectTree(c);
      r := RestoreAll(rows, c);
      ghost var s1 := Snapshot();
      if r.Ok? { CleanUp(rows, dir, name, c); }
      RestoredDirectory(s, s0, s1, Snapshot(), dir, name, c, rows, ids, r);
      RestoredTrail(s, s0, s1, c, rows, r, trail0, trail);
    }

    // The blobs of the restored rows, then the rows, then the row of the directory.
    method CleanUp(rows: seq<TrashRow>, dir: string, name: string, c: Target)
      modifies `fs, `trash, `trail
      ensures fs == DeleteBlobs(old(fs), rows)
      ensures trash == DropRows(old(trash), (t: TrashRow) => Below(t, c) || (SameItem(t, c.user, dir, name) && t.isDir))
      ensures trail == old(trail) + DeleteBlobsTrees(old(fs), rows)
    {
      DeleteBlobFiles(rows);
      trash := DropRows(trash, (t: TrashRow) => Below(t, c));
      trash := DropRows(trash, (t: TrashRow) => SameItem(t, c.user, dir, name) && t.isDir);
    }

    method RestoreAll(rows: seq<TrashRow>, c: Target) returns (r: Outcome)
      requires RestoreTarget(c)
      modifies this
      ensures (Snapshot(), r) == RestoreRows(old(Snapshot()), rows, c)
      ensures trail == old(trail) + RestoreRowsTrees(old(Snapshot()), rows, c)
    {
      ghost var s := Snapshot();
      RestoringStart(s, rows, c, trail);
      for i := 0 to |rows|
        invariant RestoringAt(s, Snapshot(), rows, i, c, old(trail), trail)
      {
        ghost var t, before := Snapshot(), trail;
        r := RestoreOne(rows[i], c);
        RestoringStep(s, t, Snapshot(), rows, i, c, old(trail), before, trail, r);
        if r.Err? { return; }
      }
      RestoringEnd(s, Snapshot(), rows, c, old(trail), trail);
      r := Ok(());
    }

    method RestoreOne(row: TrashRow, c: Target) returns (r: Outcome)
      requires RestoreTarget(c)
      modifies this
      ensures RowRestored(old(Snapshot()), Snapshot(), row, c, r, old(trail), trail)
    {
      DestRouted(row, c);
      var op := ResolveSpelling(c.toUser, PathOf(DestKey(row, c)));
      if row.isDir {
        r := RestoreDirRow(row, c, op);
      } else if row.blob.Some? {
        r := RestoreFileRow(row, c, op);
      } else {
        r := Ok(());
        NothingToRestore(Snapshot(), row, c, trail);
      }
    }

    method RestoreDirRow(row: TrashRow, c: Target, op: string) returns (r: Outcome)
      requires op == OpPath(PathOf(DestKey(row, c))) && row.isDir
      modifies this
      ensures RowRestored(old(Snapshot()), Snapshot(), row, c, r, old(trail), trail)
    {
      var k := DestKey(row, c);
      var _ := MakeDir(op);
      if k.user !in users { return Err(Database); }
      if k !in cloud { cloud := cloud[k := Entry(nextId, 0, InodeDirectory)]; }
      nextId := nextId + 1;
      r := Ok(());
    }

    method RestoreFileRow(row: TrashRow, c: Target, op: string) returns (r: Outcome)
      requires op == OpPath(PathOf(DestKey(row, c))) && !row.isDir && row.blob.Some?
      modifies this
      ensures RowRestored(old(Snapshot()), Snapshot(), row, c, r, old(trail), trail)
    {
      ghost var s := Snapshot();
      var k := DestKey(row, c);
      OpPathSlash(PathOf(k));
      var _ := MakeDir(OpParent(op));
      var data := Read(fs, BlobPath(c.user, row.blob.value));
      if data.Err? { return Err(Io); }
      r := WriteThenIndex(k, op, data.value, row.size, s, OpParent(op));
    }
  }

  // One row of a restored subtree, as RestoreRow has it.
  ghost predicate RowRestored(s: State, t: State, row: TrashRow, c: Target, r: Outcome, before: seq<Tree>, after: seq<Tree>) {
    (t, r) == RestoreRow(s, row, c) && after == before + RestoreRowTrees(s, row, c)
  }

  lemma NothingToRestore(s: State, row: TrashRow, c: Target, trail: seq<Tree>)
    requires !row.isDir && row.blob.None?
    ensures RowRestored(s, s, row, c, Ok(()), trail, trail)
  {
    assert trail + [] == trail;
  }

  // ---- Archiving ------------------------------------------------------------------------------

  // What hash_and_archive_file leaves behind.
  ghost predicate Archived(s: State, t: State, user: string, p: string, r: Result<(nat, nat), Error>) {
    if !IsFile(s.fs, Phys(p)) then t == s && r == Err(Refusal(s.fs, p))
    else match ArchiveTree(s.fs, user, p, s.nextId)
      case Ok(fs) => t == s.(fs := fs, nextId := s.nextId + 1) && r == Ok((s.nextId, |s.fs[Phys(p)].data|))
      case Err(_) => t == s.(fs := TryCreateDir(s.fs, BlobBase(user)), nextId := s.nextId + 1) && r == Err(Io)
  }

  lemma ObjectArchived(s: State, t: State, user: string, p: string, ok: bool, r: Result<(nat, nat), Error>)
    requires IsFile(s.fs, Phys(p)) && t == s.(fs := t.fs, nextId := s.nextId + 1)
    requires match ArchiveTree(s.fs, user, p, s.nextId)
             case Ok(fs) => ok && t.fs == fs
             case Err(_) => !ok && t.fs == TryCreateDir(s.fs, BlobBase(user))
    requires r == if ok then Ok((s.nextId, |s.fs[Phys(p)].data|)) else Err(Io)
    ensures Archived(s, t, user, p, r)
  {
  }

  ghost predicate FileDeleted(s: State, t: State, k: Key, now: int, r: Outcome) {
    (t, r) == DeleteFileResult(s, k, now)
  }

  lemma DeletedNot(s: State, t: State, k: Key, now: int, r: Result<(nat, nat), Error>)
    requires Archived(s, t, k.user, PathOf(k), r) && r.Err?
    ensures FileDeleted(s, t, k, now, Err(r.error))
  {
  }

  lemma DeletedSingle(s: State, t: State, t': State, k: Key, now: int, r: Result<(nat, nat), Error>)
    requires Archived(s, t, k.user, PathOf(k), r) && r.Ok?
    requires var row := TrashRow(k.user, k.dir, k.name, false, r.value.1, Some(r.value.0), now);
             t' == t.(trash := t.trash[t.nextId := row], cloud := t.cloud - {k}, nextId := t.nextId + 1)
    ensures FileDeleted(s, t', k, now, Ok(()))
  {
  }

  // One listed file, and all of them, at the paths their names resolve to.
  ghost function EntryResult(s: State, k: Key, now: int, n: string): (State, Outcome) {
    ArchiveFound(s, k, now, StorageTrash.Located(k, n))
  }

  ghost function EntriesResult(s: State, k: Key, now: int, files: seq<string>): (State, Outcome) {
    ArchiveAll(s, k, now, FoundFiles(k, files))
  }

  ghost predicate EntryDone(s: State, t: State, k: Key, now: int, n: string, p: string, r: Outcome) {
    (t, r) == ArchiveFound(s, k, now, Found(n, p))
  }

  lemma EntryNot(s: State, t: State, k: Key, n: string, p: string, now: int, r: Result<(nat, nat), Error>)
    requires Archived(s, t, k.user, p, r) && r.Err?
    ensures EntryDone(s, t, k, now, n, p, Err(r.error))
  {
  }

  lemma ArchivedEntry(s: State, t: State, t': State, k: Key, n: string, p: string, now: int, r: Result<(nat, nat), Error>)
    requires Archived(s, t, k.user, p, r) && r.Ok?
    requires var row := TrashRow(k.user, FilesDir(k.user, PathOf(k)), n, false, r.value.1, Some(r.value.0), now);
             t' == t.(trash := t.trash[t.nextId := row], nextId := t.nextId + 1)
    ensures EntryDone(s, t', k, now, n, p, Ok(()))
  {
  }

  // ---- Listings -------------------------------------------------------------------------------

  datatype ObjectEntry = ObjectEntry(name: string, isDir: bool)

  predicate IsEntry(fs: Tree, op: string, e: ObjectEntry) {
    '/' !in e.name && Child(op, e.name) in fs && (e.isDir <==> IsDir(fs, Child(op, e.name)))
  }

  ghost predicate ListsObjects(fs: Tree, op: string, entries: seq<ObjectEntry>) {
    && (forall e {:trigger e in entries} :: e in entries ==> IsEntry(fs, op, e))
    && (forall i, j {:trigger entries[i], entries[j]} :: 0 <= i < j < |entries| ==> entries[i].name != entries[j].name)
    && (forall n {:trigger Child(op, n)} :: '/' !in n && Child(op, n) in fs ==> exists e :: e in entries && e.name == n)
  }

  // Names the loop skips.
  predicate Skipped(n: string) {
    n == "" || n == "."
  }

  // Names of the sub-directories, or of the files, of a listing.
  function Names(entries: seq<ObjectEntry>, isDir: bool): seq<string> {
    if entries == [] then []
    else
      var n := |entries| - 1;
      Names(entries[..n], isDir) + if entries[n].isDir == isDir && !Skipped(entries[n].name) then [entries[n].name] else []
  }

  function Paths(p: string, names: seq<string>): seq<string> {
    seq(|names|, i requires 0 <= i < |names| => Child(p, names[i]))
  }

  lemma ChildIsEntry(op: string, n: string)
    requires '/' !in n
    ensures op + "/" <= Child(op, n) && Child(op, n)[|op| + 1..] == n
  {
  }

  lemma NamesEnd(entries: seq<ObjectEntry>)
    requires entries != []
    ensures var n, e := |entries| - 1, entries[|entries| - 1];
            && Names(entries, e.isDir) == Names(entries[..n], e.isDir) + (if Skipped(e.name) then [] else [e.name])
            && Names(entries, !e.isDir) == Names(entries[..n], !e.isDir)
  {
  }

  // The files among the first i entries are in the trash.
  ghost predicate FilesArchived(s: State, t: State, k: Key, now: int, entries: seq<ObjectEntry>, i: nat) {
    i <= |entries| && EntriesResult(s, k, now, Names(entries[..i], false)) == (t, Ok(()))
  }

  lemma NamesNext(entries: seq<ObjectEntry>, i: nat)
    requires i < |entries|
    ensures var e := entries[i];
            && Names(entries[..i + 1], e.isDir) == Names(entries[..i], e.isDir) + (if Skipped(e.name) then [] else [e.name])
            && Names(entries[..i + 1], !e.isDir) == Names(entries[..i], !e.isDir)
  {
    assert entries[..i + 1][..i] == entries[..i];
    NamesEnd(entries[..i + 1]);
  }

  // The sub-directories among the first i entries are on the stack.
  ghost predicate StackAt(p: string, entries: seq<ObjectEntry>, i: nat, below: seq<string>, stack: seq<string>) {
    i <= |entries| && stack == below + Paths(p, Names(entries[..i], true))
  }

  lemma StackStart(p: string, entries: seq<ObjectEntry>, below: seq<string>)
    ensures StackAt(p, entries, 0, below, below)
  {
    assert entries[..0] == [];
    assert below + Paths(p, []) == below;
  }

  lemma StackNext(p: string, entries: seq<ObjectEntry>, i: nat, below: seq<string>, stack: seq<string>)
    requires i < |entries| && StackAt(p, entries, i, below, stack)
    ensures var e := entries[i];
            StackAt(p, entries, i + 1, below, if e.isDir && !Skipped(e.name) then stack + [Child(p, e.name)] else stack)
  {
    NamesNext(entries, i);
    PathsNext(p, Names(entries[..i], true), entries[i].name, below);
  }

  lemma PathsNext(p: string, names: seq<string>, n: string, below: seq<string>)
    ensures below + Paths(p, names + [n]) == below + Paths(p, names) + [Child(p, n)]
    ensures below + Paths(p, names + []) == below + Paths(p, names)
  {
    assert names + [] == names;
  }

  lemma EntryPassed(s: State, t: State, k: Key, now: int, entries: seq<ObjectEntry>, i: nat)
    requires i < |entries| && FilesArchived(s, t, k, now, entries, i)
    requires entries[i].isDir || Skipped(entries[i].name)
    ensures FilesArchived(s, t, k, now, entries, i + 1)
  {
    NamesNext(entries, i);
    assert Names(entries[..i], false) + [] == Names(entries[..i], false);
  }

  lemma NextFile(entries: seq<ObjectEntry>, i: nat)
    requires i < |entries| && !entries[i].isDir && !Skipped(entries[i].name)
    ensures Names(entries[..i + 1], false) == Names(entries[..i], false) + [entries[i].name]
  {
    NamesNext(entries, i);
  }

  lemma NextEntry(s: State, t: State, k: Key, now: int, entries: seq<ObjectEntry>, i: nat)
    requires i < |entries| && !entries[i].isDir && !Skipped(entries[i].name) && FilesArchived(s, t, k, now, entries, i)
    ensures EntriesResult(s, k, now, Names(entries[..i + 1], false)) == EntryResult(t, k, now, entries[i].name)
  {
    NextFile(entries, i);
    ArchivedNext(s, t, k, now, Names(entries[..i], false), entries[i].name);
  }

  lemma ArchivedOne(s: State, t: State, k: Key, now: int, entries: seq<ObjectEntry>, i: nat, r: Outcome)
    requires i < |entries| && EntriesResult(s, k, now, Names(entries[..i + 1], false)) == (t, r)
    ensures r.Ok? ==> FilesArchived(s, t, k, now, entries, i + 1)
    ensures r.Err? ==> EntriesResult(s, k, now, Names(entries, false)) == (t, r)
  {
    if r.Ok? { OnlyOk(r); } else { ArchivedErr(s, t, k, now, entries, i + 1, r); }
  }

  lemma ArchivedErr(s: State, t: State, k: Key, now: int, entries: seq<ObjectEntry>, i: nat, r: Outcome)
    requires i <= |entries| && EntriesResult(s, k, now, Names(entries[..i], false)) == (t, r) && r.Err?
    ensures EntriesResult(s, k, now, Names(entries, false)) == (t, r)
  {
    ArchivingStopped(s, k, now, entries, i);
  }

  lemma ArchivingStopped(s: State, k: Key, now: int, entries: seq<ObjectEntry>, i: nat)
    requires i <= |entries| && EntriesResult(s, k, now, Names(entries[..i], false)).1.Err?
    ensures EntriesResult(s, k, now, Names(entries, false)) == EntriesResult(s, k, now, Names(entries[..i], false))
  {
    var more := NamesPrefix(entries, false, i);
    FoundConcat(k, Names(entries[..i], false), more);
    ArchivingOver(s, k, now, FoundFiles(k, Names(entries[..i], false)), FoundFiles(k, more));
  }

  lemma ArchivedNext(s: State, t: State, k: Key, now: int, files: seq<string>, n: string)
    requires EntriesResult(s, k, now, files) == (t, Ok(()))
    ensures EntriesResult(s, k, now, files + [n]) == EntryResult(t, k, now, n)
  {
    FoundConcat(k, files, [n]);
    FoundNext(s, t, k, now, FoundFiles(k, files), StorageTrash.Located(k, n));
  }

  lemma FoundNext(s: State, t: State, k: Key, now: int, found: seq<Found>, f: Found)
    requires ArchiveAll(s, k, now, found) == (t, Ok(()))
    ensures ArchiveAll(s, k, now, found + [f]) == ArchiveFound(t, k, now, f)
  {
    assert (found + [f])[..|found|] == found;
  }

  lemma {:induction false} NamesAre(entries: seq<ObjectEntry>, isDir: bool)
    requires forall i, j {:trigger entries[i], entries[j]} :: 0 <= i < j < |entries| ==> entries[i].name != entries[j].name
    ensures forall n {:trigger n in Names(entries, isDir)} ::
              n in Names(entries, isDir) <==> ObjectEntry(n, isDir) in entries && !Skipped(n)
    ensures forall i, j {:trigger Names(entries, isDir)[i], Names(entries, isDir)[j]} ::
              0 <= i < j < |Names(entries, isDir)| ==> Names(entries, isDir)[i] != Names(entries, isDir)[j]
  {
    if entries != [] {
      var n := |entries| - 1;
      var rest, last := entries[..n], entries[n];
      NamesAre(rest, isDir);
      assert entries == rest + [last];
      forall m | m in Names(rest, isDir) ensures m != last.name {
        var i :| 0 <= i < n && rest[i] == ObjectEntry(m, isDir);
        assert entries[i].name != entries[n].name;
      }
      var all, before := Names(entries, isDir), Names(rest, isDir);
      forall i, j | 0 <= i < j < |all| ensures all[i] != all[j] { assert all[i] == before[i] && before[i] in before; }
    }
  }

  lemma ListedNames(fs: Tree, p: string, entries: seq<ObjectEntry>)
    requires ListsObjects(fs, Phys(p), entries)
    ensures Listing(fs, p, Names(entries, false), Names(entries, true))
  {
    NamesAre(entries, false);
    NamesAre(entries, true);
    forall n ensures Phys(Child(p, n)) == Child(Phys(p), n) {}
    forall n | HasChild(fs, p, n) ensures ObjectEntry(n, IsDir(fs, Phys(Child(p, n)))) in entries {
      var e :| e in entries && e.name == n;
      assert e == ObjectEntry(n, IsDir(fs, Phys(Child(p, n))));
    }
  }

  lemma {:induction false} NamesPrefix(entries: seq<ObjectEntry>, isDir: bool, m: nat) returns (more: seq<string>)
    requires m <= |entries|
    ensures Names(entries, isDir) == Names(entries[..m], isDir) + more
  {
    if m == |entries| {
      assert entries[..m] == entries;
      more := [];
    } else {
      var n := |entries| - 1;
      assert entries[..n][..m] == entries[..m];
      more := NamesPrefix(entries[..n], isDir, m);
      if entries[n].isDir == isDir && !Skipped(entries[n].name) { more := more + [entries[n].name]; }
    }
  }

  // The first failure ends the loop over the children.
  lemma {:induction false} ArchivingOver(s: State, k: Key, now: int, found: seq<Found>, more: seq<Found>)
    requires ArchiveAll(s, k, now, found).1.Err?
    ensures ArchiveAll(s, k, now, found + more) == ArchiveAll(s, k, now, found)
  {
    if more == [] {
      assert found + more == found;
    } else {
      var n := |more| - 1;
      ArchivingOver(s, k, now, found, more[..n]);
      assert (found + more)[..|found + more| - 1] == found + more[..n];
    }
  }

  // ---- The walk -----------------------------------------------------------------------------------

  // At or below a normalised path of some home: resolved to that home, whatever the names are.
  ghost predicate Routable(p: string) {
    exists base {:trigger Under(p, base)} :: Normal(base) && "/User/" <= base && Under(p, base)
  }

  lemma NormalRoutable(p: string)
    requires Normal(p) && "/User/" <= p
    ensures Routable(p) && NormalizePath(p) == p
  {
    NormalizeIdempotent(p);
    assert Under(p, p);
  }

  lemma RoutableChild(p: string, n: string)
    requires Routable(p)
    ensures Routable(Child(p, n)) && "/User/" <= NormalizePath(Child(p, n))
  {
    var base :| Normal(base) && "/User/" <= base && Under(p, base);
    var c, x := Child(p, n), Child(p, n)[|base| + 1..];
    assert c[..|p|] == p && c[|p|] == '/';
    assert c[..|base|] == base && c[|base|] == '/';
    assert Under(c, base) && c == Child(base, x);
    AppendRouted(base, x);
  }

  lemma RoutableResolves(p: string)
    requires Routable(p)
    ensures "/User/" <= NormalizePath(p)
  {
    var base :| Normal(base) && "/User/" <= base && Under(p, base);
    if p == base {
      NormalizeIdempotent(p);
    } else {
      assert p == Child(base, p[|base| + 1..]);
      AppendRouted(base, p[|base| + 1..]);
    }
  }

  lemma AppendRouted(p: string, x: string)
    requires Normal(p) && "/User/" <= p
    ensures "/User/" <= NormalizePath(Child(p, x)) && Under(NormalizePath(Child(p, x)), p)
  {
    NormalizeAppend(p, x);
    assert NormalizePath(Child(p, x))[..|p|] == p;
  }

  // One round of the walk, as VisitResult has it.
  ghost predicate Visited(s: State, t: State, k: Key, now: int, files: seq<string>, r: Outcome) {
    (t, r) == VisitResult(s, k, now, files)
  }

  // The whole of it.
  ghost predicate Walked(s: State, t: State, k: Key, now: int, files: seq<string>, dirs: seq<string>, r: Outcome) {
    var (s1, r1) := VisitResult(s, k, now, files);
    r == r1 && t == if r.Err? then s1 else FileDirs(s1, k, now, dirs)
  }

  lemma VisitedAll(s: State, t: State, t': State, k: Key, now: int, files: seq<string>, r: Outcome)
    requires EntriesResult(OpenWalk(s, k, now), k, now, files) == (t, r)
    requires t' == if r.Err? then t else t.(fs := RemoveAll(t.fs, OpPath(PathOf(k))))
    ensures Visited(s, t', k, now, files, r)
  {
  }

  lemma WalkedOut(s: State, t: State, t': State, k: Key, now: int, files: seq<string>, dirs: seq<string>, r: Outcome)
    requires Visited(s, t, k, now, files, r) && t' == if r.Err? then t else FileDirs(t, k, now, dirs)
    ensures Walked(s, t', k, now, files, dirs, r)
  {
  }

  lemma WalkedDelete(s: State, t: State, t': State, k: Key, now: int, files: seq<string>, dirs: seq<string>, r: Outcome)
    requires Walked(s, t, k, now, files, dirs, r)
    requires t' == if r.Err? then t else t.(cloud := Unindexed(t.cloud, k))
    ensures (t', r) == DeleteDirResult(s, k, now, files, dirs)
  {
  }

  // The sub-directories no longer on the stack have their rows.
  ghost predicate Drained(base: State, s: State, k: Key, now: int, dirs: seq<string>, stack: seq<string>) {
    && |stack| <= |dirs|
    && (forall i :: 0 <= i < |stack| ==> stack[i] == Child(PathOf(k), dirs[|dirs| - 1 - i]))
    && s == FileDirs(base, k, now, dirs[..|dirs| - |stack|])
  }

  function Reversed(names: seq<string>): seq<string> {
    seq(|names|, i requires 0 <= i < |names| => names[|names| - 1 - i])
  }

  lemma ReversedListing(fs: Tree, p: string, files: seq<string>, dirs: seq<string>)
    requires Listing(fs, p, files, dirs)
    ensures Listing(fs, p, files, Reversed(dirs))
  {
    forall n ensures n in Reversed(dirs) <==> n in dirs {
      if n in dirs {
        var i :| 0 <= i < |dirs| && dirs[i] == n;
        assert Reversed(dirs)[|dirs| - 1 - i] == n;
      }
    }
  }

  lemma StackReversed(fs: Tree, p: string, files: seq<string>, pushed: seq<string>, stack: seq<string>)
    requires Listing(fs, p, files, pushed) && stack == [] + Paths(p, pushed)
    ensures stack == Paths(p, Reversed(Reversed(pushed))) && forall d :: d in Reversed(pushed) ==> PlainName(d)
  {
    assert Reversed(Reversed(pushed)) == pushed;
    forall d | d in Reversed(pushed) ensures PlainName(d) {
      assert d in pushed && HasChild(fs, p, d);
    }
  }

  lemma EmptySubtree(s: State, t: State, k: Key, now: int, files: seq<string>, r: Outcome)
    requires Visited(s, t, k, now, files, r) && r.Ok? && NormalizePath(PathOf(k)) == PathOf(k)
    ensures forall q :: q in t.fs ==> !Under(q, Phys(PathOf(k)))
  {
  }

  // Nothing is left of the directory, and the names are those of its listing.
  ghost predicate Draining(base: State, k: Key, dirs: seq<string>) {
    && Normal(PathOf(k)) && "/User/" <= PathOf(k) && "/" <= PathOf(k) && (forall d :: d in dirs ==> PlainName(d))
    && forall q :: q in base.fs ==> !Under(q, Phys(PathOf(k)))
  }

  // The sub-directory on top of the stack.
  lemma NextVisit(base: State, t: State, k: Key, now: int, dirs: seq<string>, stack: seq<string>) returns (sub: Key)
    requires Drained(base, t, k, now, dirs, stack) && stack != []
    requires Draining(base, k, dirs)
    ensures sub == Key(k.user, PathOf(k), dirs[|dirs| - |stack|]) && PathOf(sub) == stack[|stack| - 1]
    ensures '/' !in sub.name && "/" <= sub.dir && Routable(PathOf(sub))
  {
    NormalRoutable(PathOf(k));
    var d := dirs[|dirs| - |stack|];
    sub := Key(k.user, PathOf(k), d);
    assert d in dirs;
    RoutableChild(PathOf(k), d);
  }

  lemma FirstIsMember(names: seq<string>)
    ensures names != [] ==> names[0] in names
  {
  }

  lemma NothingBelow(fs: Tree, p: string, d: string)
    requires (forall q :: q in fs ==> !Under(q, Phys(p))) && Normal(p) && "/User/" <= p
    ensures forall q :: q in fs ==> !Under(q, OpPath(Child(p, d)))
  {
    AppendRouted(p, d);
    PhysUnder(NormalizePath(Child(p, d)), p);
    forall r | r in fs ensures !Under(r, OpPath(Child(p, d))) {
      if Under(r, OpPath(Child(p, d))) { AboveTransitive(Phys(p), OpPath(Child(p, d)), r); }
    }
  }

  lemma NoChildBelow(fs: Tree, q: string, n: string)
    requires forall r :: r in fs ==> !Under(r, Phys(q))
    ensures !HasChild(fs, q, n)
  {
    if PlainName(n) {
      AboveChild(q, q, n);
      PhysUnder(Child(q, n), q);
    }
  }

  // Nothing is left at or below what the name of a sub-directory resolves to.
  lemma NothingListed(fs: Tree, p: string, d: string, files: seq<string>, more: seq<string>)
    requires (forall q :: q in fs ==> !Under(q, Phys(p))) && Normal(p) && "/User/" <= p
    requires Listing(fs, NormalizePath(Child(p, d)), files, more)
    ensures files == [] && more == [] && Subtree(fs, OpPath(Child(p, d))) == {}
  {
    NothingBelow(fs, p, d);
    forall n ensures !HasChild(fs, NormalizePath(Child(p, d)), n) { NoChildBelow(fs, NormalizePath(Child(p, d)), n); }
    FirstIsMember(files);
    FirstIsMember(more);
  }

  // A visit of what is gone only records the sub-directory.
  lemma VisitNothing(t: State, sub: Key, now: int, files: seq<string>, more: seq<string>)
    requires Normal(sub.dir) && "/User/" <= sub.dir && forall q :: q in t.fs ==> !Under(q, Phys(sub.dir))
    requires Listing(t.fs, NormalizePath(PathOf(sub)), files, more)
    ensures more == [] && VisitResult(t, sub, now, files) == (OpenWalk(t, sub, now), Ok(()))
  {
    NothingListed(t.fs, sub.dir, sub.name, files, more);
    EmptyVisit(t, sub, now);
  }

  lemma VisitedMissing(base: State, t: State, t': State, k: Key, now: int, dirs: seq<string>,
                       before: seq<string>, files: seq<string>, more: seq<string>, sub: Key, r: Outcome)
    requires Drained(base, t, k, now, dirs, before) && before != [] && Draining(base, k, dirs)
    requires sub == Key(k.user, PathOf(k), dirs[|dirs| - |before|])
    requires Listing(t.fs, NormalizePath(PathOf(sub)), files, more) && Visited(t, t', sub, now, files, r)
    ensures r == Ok(()) && more == [] && Drained(base, t', k, now, dirs, before[..|before| - 1])
  {
    DrainedTree(base, t, k, now, dirs, before);
    VisitNothing(t, sub, now, files, more);
    DrainedNext(base, t, t', k, now, dirs, before);
  }

  lemma DrainedTree(base: State, t: State, k: Key, now: int, dirs: seq<string>, before: seq<string>)
    requires Drained(base, t, k, now, dirs, before)
    ensures t.fs == base.fs
  {
    FileDirsTree(base, k, now, dirs[..|dirs| - |before|]);
  }

  lemma DrainedNext(base: State, t: State, t': State, k: Key, now: int, dirs: seq<string>, before: seq<string>)
    requires Drained(base, t, k, now, dirs, before) && before != []
    requires t' == OpenWalk(t, Key(k.user, PathOf(k), dirs[|dirs| - |before|]), now)
    ensures Drained(base, t', k, now, dirs, before[..|before| - 1])
  {
    OneMoreDir(base, t, k, now, dirs, |dirs| - |before|);
    PoppedOne(base, t, t', k, now, dirs, before);
  }

  lemma PoppedOne(base: State, t: State, t': State, k: Key, now: int, dirs: seq<string>, before: seq<string>)
    requires Drained(base, t, k, now, dirs, before) && before != []
    requires t' == FileDirs(base, k, now, dirs[..|dirs| - |before| + 1])
    ensures Drained(base, t', k, now, dirs, before[..|before| - 1])
  {
  }

  lemma EmptyVisit(t: State, k: Key, now: int)
    requires Subtree(t.fs, OpPath(PathOf(k))) == {}
    ensures VisitResult(t, k, now, []) == (OpenWalk(t, k, now), Ok(()))
  {
    assert t.fs - {} == t.fs;
  }

  lemma OneMoreDir(base: State, t: State, k: Key, now: int, dirs: seq<string>, m: nat)
    requires m < |dirs| && t == FileDirs(base, k, now, dirs[..m])
    ensures OpenWalk(t, Key(k.user, PathOf(k), dirs[m]), now) == FileDirs(base, k, now, dirs[..m + 1])
  {
    assert dirs[..m + 1][..m] == dirs[..m];
  }

  // ---- Rows of the trash ---------------------------------------------------------------------------

  predicate ParentPlace(dir: string) {
    "/User/" <= dir || dir == "/User"
  }

  ghost predicate ParentForm(dir: string) {
    Normal(dir) && ParentPlace(dir)
  }

  ghost predicate RestoreTarget(c: Target) {
    Normal(c.to) && "/User/" <= c.to && ParentForm(Parent(c.to))
  }

  // The parent of a /User path is one, or "/User".
  lemma RoutedDir(p: string, k: Key)
    requires Normal(p) && "/User/" <= p && |Components(p)| >= 2 && k == KeyFor(p)
    ensures ParentForm(k.dir)
  {
    var j := RoutedKey(p);
    ParentHasForm(p, k);
  }

  lemma ParentHasForm(p: string, k: Key)
    requires PathOf(k) == p && '/' !in k.user && '/' !in k.name
    requires p == Home(k.user) || (Normal(k.dir) && "/User/" <= k.dir)
    ensures ParentForm(k.dir)
  {
    if p == Home(k.user) {
      assert Home(k.user) == Child("/User", k.user);
      ChildInjective(k.dir, k.name, "/User", k.user);
      assert ValidParts(["User"]) && Render(["User"]) == "/User";
    }
  }

  lemma DestRouted(row: TrashRow, c: Target)
    requires Normal(c.to) && "/User/" <= c.to
    ensures "/User/" <= NormalizePath(PathOf(DestKey(row, c)))
  {
    var x := DestTail(row, c);
    NormalizeAppend(c.to, x);
    var p := NormalizePath(c.to + "/" + x);
    assert p[..|c.to|] == c.to;
  }

  lemma TwoQueries(trash: Trash, c: Target, dirs: seq<TrashRow>, dirIds: seq<nat>, files: seq<TrashRow>, fileIds: seq<nat>)
    requires QueryRows(trash, (t: TrashRow) => Below(t, c) && t.isDir, dirs, dirIds)
    requires QueryRows(trash, (t: TrashRow) => Below(t, c) && !t.isDir, files, fileIds)
    ensures RowsBelow(trash, c, dirs + files, dirIds + fileIds)
  {
  }

  ghost predicate RestoringAt(s: State, t: State, rows: seq<TrashRow>, i: nat, c: Target, start: seq<Tree>, trail: seq<Tree>) {
    i <= |rows| && RestoreRows(s, rows[..i], c) == (t, Ok(())) && trail == start + RestoreRowsTrees(s, rows[..i], c)
  }

  lemma RestoringStart(s: State, rows: seq<TrashRow>, c: Target, trail: seq<Tree>)
    ensures RestoringAt(s, s, rows, 0, c, trail, trail)
  {
    assert rows[..0] == [];
    assert trail + [] == trail;
  }

  lemma RestoringEnd(s: State, t: State, rows: seq<TrashRow>, c: Target, start: seq<Tree>, trail: seq<Tree>)
    requires RestoringAt(s, t, rows, |rows|, c, start, trail)
    ensures RestoreRows(s, rows, c) == (t, Ok(())) && trail == start + RestoreRowsTrees(s, rows, c)
  {
    assert rows[..|rows|] == rows;
  }

  lemma RestoringStep(s: State, t: State, t': State, rows: seq<TrashRow>, i: nat, c: Target,
                      start: seq<Tree>, before: seq<Tree>, trail: seq<Tree>, r: Outcome)
    requires i < |rows| && RestoringAt(s, t, rows, i, c, start, before)
    requires RowRestored(t, t', rows[i], c, r, before, trail)
    ensures r.Ok? ==> RestoringAt(s, t', rows, i + 1, c, start, trail)
    ensures r.Err? ==> RestoreRows(s, rows, c) == (t', r) && trail == start + RestoreRowsTrees(s, rows, c)
  {
    RestoringRows(s, t, t', rows, i, c, r);
    RestoringTrail(s, t, t', rows, i, c, start, before, r);
  }

  lemma RestoringRows(s: State, t: State, t': State, rows: seq<TrashRow>, i: nat, c: Target, r: Outcome)
    requires i < |rows| && RestoreRows(s, rows[..i], c) == (t, Ok(())) && (t', r) == RestoreRow(t, rows[i], c)
    ensures RestoreRows(s, rows[..i + 1], c) == (t', r)
    ensures r.Err? ==> RestoreRows(s, rows, c) == (t', r)
  {
    RestoredNext(s, t, rows, i, c);
    if r.Err? {
      SplitAt(rows, i + 1);
      RestoringOver(s, rows, rows[..i + 1], rows[i + 1..], c);
    }
  }

  lemma RestoringTrail(s: State, t: State, t': State, rows: seq<TrashRow>, i: nat, c: Target,
                       start: seq<Tree>, before: seq<Tree>, r: Outcome)
    requires i < |rows| && RestoringAt(s, t, rows, i, c, start, before) && RestoreRows(s, rows[..i + 1], c) == (t', r)
    ensures before + RestoreRowTrees(t, rows[i], c) == start + RestoreRowsTrees(s, rows[..i + 1], c)
    ensures r.Err? ==> RestoreRowsTrees(s, rows, c) == RestoreRowsTrees(s, rows[..i + 1], c)
  {
    if r.Err? {
      SplitAt(rows, i + 1);
      NoMoreTrees(s, rows, rows[..i + 1], rows[i + 1..], c);
    }
    TrailNext(s, t, rows, i, c, start, before);
  }

  lemma SplitAt<T>(xs: seq<T>, i: nat)
    requires i <= |xs|
    ensures xs == xs[..i] + xs[i..]
  {
  }

  lemma TrailNext(s: State, t: State, rows: seq<TrashRow>, i: nat, c: Target, start: seq<Tree>, before: seq<Tree>)
    requires i < |rows| && RestoringAt(s, t, rows, i, c, start, before)
    ensures before + RestoreRowTrees(t, rows[i], c) == start + RestoreRowsTrees(s, rows[..i + 1], c)
  {
    RowsTreesNext(s, t, rows, i, c);
    ConcatAssociative(start, RestoreRowsTrees(s, rows[..i], c), RestoreRowTrees(t, rows[i], c), []);
  }

  lemma RestoredNext(s: State, t: State, rows: seq<TrashRow>, i: nat, c: Target)
    requires i < |rows| && RestoreRows(s, rows[..i], c) == (t, Ok(()))
    ensures RestoreRows(s, rows[..i + 1], c) == RestoreRow(t, rows[i], c)
  {
    assert rows[..i + 1][..i] == rows[..i];
  }

  lemma RowsTreesNext(s: State, t: State, rows: seq<TrashRow>, i: nat, c: Target)
    requires i < |rows| && RestoreRows(s, rows[..i], c) == (t, Ok(()))
    ensures RestoreRowsTrees(s, rows[..i + 1], c) == RestoreRowsTrees(s, rows[..i], c) + RestoreRowTrees(t, rows[i], c)
  {
    assert rows[..i + 1][..i] == rows[..i];
  }

  // The first failure ends the loop over the rows.
  lemma {:induction false} RestoringOver(s: State, rows: seq<TrashRow>, done: seq<TrashRow>, more: seq<TrashRow>, c: Target)
    requires rows == done + more && RestoreRows(s, done, c).1.Err?
    ensures RestoreRows(s, rows, c) == RestoreRows(s, done, c)
    decreases |more|
  {
    if more == [] {
      assert rows == done;
    } else {
      var n := |rows| - 1;
      assert rows[..n] == done + more[..|more| - 1];
      RestoringOver(s, rows[..n], done, more[..|more| - 1], c);
      RestoringFailed(s, rows, c);
    }
  }

  lemma RestoringFailed(s: State, rows: seq<TrashRow>, c: Target)
    requires rows != [] && RestoreRows(s, rows[..|rows| - 1], c).1.Err?
    ensures RestoreRows(s, rows, c) == RestoreRows(s, rows[..|rows| - 1], c)
  {
  }

  lemma {:induction false} NoMoreTrees(s: State, rows: seq<TrashRow>, done: seq<TrashRow>, more: seq<TrashRow>, c: Target)
    requires rows == done + more && RestoreRows(s, done, c).1.Err?
    ensures RestoreRowsTrees(s, rows, c) == RestoreRowsTrees(s, done, c)
    decreases |more|
  {
    if more == [] {
      assert rows == done;
    } else {
      var n := |rows| - 1;
      assert rows[..n] == done + more[..|more| - 1];
      NoMoreTrees(s, rows[..n], done, more[..|more| - 1], c);
      RestoringOver(s, rows[..n], done, more[..|more| - 1], c);
      NoTreeAfterFailure(s, rows, c);
    }
  }

  lemma NoTreeAfterFailure(s: State, rows: seq<TrashRow>, c: Target)
    requires rows != [] && RestoreRows(s, rows[..|rows| - 1], c).1.Err?
    ensures RestoreRowsTrees(s, rows, c) == RestoreRowsTrees(s, rows[..|rows| - 1], c)
  {
    assert RestoreRowsTrees(s, rows, c) == RestoreRowsTrees(s, rows[..|rows| - 1], c) + [];
  }

  lemma DirResultIs(s: State, s0: State, s1: State, dir: string, name: string, c: Target, rows: seq<TrashRow>, r: Outcome)
    requires "/" <= c.to && s0 == s.(fs := TryCreateDir(s.fs, ParentOp(c.toUser, Parent(c.to)))) && RestoreRows(s0, rows, c) == (s1, r)
    ensures RestoreDirResult(s, dir, name, c, rows) == (if r.Err? then s1 else CleanedUp(s1, dir, name, c, rows), r)
  {
  }

  lemma RestoredDirectory(s: State, s0: State, s1: State, s2: State, dir: string, name: string, c: Target,
                          rows: seq<TrashRow>, ids: seq<nat>, r: Outcome)
    requires "/" <= c.to && s0 == s.(fs := TryCreateDir(s.fs, ParentOp(c.toUser, Parent(c.to))))
    requires RowsBelow(s.trash, c, rows, ids) && RestoreRows(s0, rows, c) == (s1, r)
    requires s2 == if r.Err? then s1 else CleanedUp(s1, dir, name, c, rows)
    ensures RestoreDirStep(s, s2, dir, name, c, r)
  {
    DirResultIs(s, s0, s1, dir, name, c, rows, r);
    assert (s2, r) == RestoreDirResult(s, dir, name, c, rows);
  }

  lemma RestoredTrail(s: State, s0: State, s1: State, c: Target, rows: seq<TrashRow>, r: Outcome,
                      before: seq<Tree>, after: seq<Tree>)
    requires "/" <= c.to && s0 == s.(fs := TryCreateDir(s.fs, ParentOp(c.toUser, Parent(c.to)))) && RestoreRows(s0, rows, c) == (s1, r)
    requires after == before + [s0.fs] + RestoreRowsTrees(s0, rows, c) + if r.Ok? then DeleteBlobsTrees(s1.fs, rows) else []
    ensures after == before + RestoreDirTrees(s, c, rows)
  {
    DirTrees(s, s0, s1, c, rows, r);
    ConcatAssociative(before, [s0.fs], RestoreRowsTrees(s0, rows, c), if r.Ok? then DeleteBlobsTrees(s1.fs, rows) else []);
  }

  lemma DirTrees(s: State, s0: State, s1: State, c: Target, rows: seq<TrashRow>, r: Outcome)
    requires "/" <= c.to && s0 == s.(fs := TryCreateDir(s.fs, ParentOp(c.toUser, Parent(c.to)))) && RestoreRows(s0, rows, c) == (s1, r)
    ensures RestoreDirTrees(s, c, rows)
            == [s0.fs] + RestoreRowsTrees(s0, rows, c) + if r.Ok? then DeleteBlobsTrees(s1.fs, rows) else []
  {
  }

  lemma ConcatAssociative<T>(a: seq<T>, x: seq<T>, y: seq<T>, z: seq<T>)
    ensures a + x + y + z == a + (x + y + z)
    ensures a + (x + y) == a + x + y
  {
  }

  function WithoutIds(trash: Trash, ids: seq<nat>): Trash {
    map i | i in trash && i !in ids :: trash[i]
  }

  lemma PurgedRows(trash: Trash, cutoff: int, rows: seq<TrashRow>, ids: seq<nat>)
    requires ExpiredRows(trash, cutoff, rows, ids)
    ensures WithoutIds(trash, ids) == DropRows(trash, (t: TrashRow) => t.deletedAt < cutoff)
  {
  }

  lemma WithoutNext(trash: Trash, ids: seq<nat>, i: nat)
    requires i < |ids|
    ensures WithoutIds(trash, ids[..i]) - {ids[i]} == WithoutIds(trash, ids[..i + 1])
  {
    assert ids[..i + 1] == ids[..i] + [ids[i]];
  }

  lemma SingleBlob(fs: Tree, row: TrashRow)
    requires !row.isDir
    ensures DeleteBlobs(fs, [row]) == if row.blob.Some? then FileTree.Delete(fs, BlobPath(row.user, row.blob.value)) else fs
  {
    assert DeleteBlobs(fs, [row][..0]) == fs;
  }

  // ---- UPDATE statements --------------------------------------------------------------------------

  // Where the row that started at k stands while `pending` rows are still to be rewritten.
  function Located(u: Update, pending: set<Key>, k: Key): Key {
    if k in pending then k else Retarget(u, k)
  }

  // A statement under way: every row is where Located says, and src leads back to its old key.
  ghost predicate Halfway(u: Update, before: Cloud, t: Cloud, pending: set<Key>, src: map<Key, Key>) {
    && (forall k :: k in pending ==> k in before)
    && src.Keys == t.Keys
    && (forall k {:trigger Located(u, pending, k)} :: k in before ==>
          Located(u, pending, k) in t && t[Located(u, pending, k)] == before[k] && src[Located(u, pending, k)] == k)
    && (forall k {:trigger src[k]} :: k in t ==> src[k] in before && Located(u, pending, src[k]) == k)
  }

  lemma HalfwayStep(u: Update, before: Cloud, t: Cloud, pending: set<Key>, src: map<Key, Key>, k: Key)
    requires Halfway(u, before, t, pending, src) && k in pending
    requires Retarget(u, k) == k || Retarget(u, k) !in t
    ensures Halfway(u, before, (t - {k})[Retarget(u, k) := before[k]], pending - {k}, (src - {k})[Retarget(u, k) := k])
  {
    assert Located(u, pending, k) == k && Located(u, pending - {k}, k) == Retarget(u, k);
    HalfwayOthers(u, before, t, pending, src, k);
  }

  // The other rows are where they were.
  lemma HalfwayOthers(u: Update, before: Cloud, t: Cloud, pending: set<Key>, src: map<Key, Key>, k: Key)
    requires Halfway(u, before, t, pending, src) && k in pending
    ensures forall j {:trigger Located(u, pending - {k}, j)} {:trigger Located(u, pending, j)} :: j in before && j != k ==>
              Located(u, pending - {k}, j) == Located(u, pending, j) && Located(u, pending, j) != k && Located(u, pending, j) in t
  {
    assert Located(u, pending, k) == k;
    forall j {:trigger Located(u, pending, j)} | j in before && j != k
      ensures Located(u, pending - {k}, j) == Located(u, pending, j) && Located(u, pending, j) != k && Located(u, pending, j) in t
    {
      assert src[Located(u, pending, j)] == j;
    }
  }

  lemma HalfwayConflict(u: Update, before: Cloud, t: Cloud, pending: set<Key>, src: map<Key, Key>, k: Key)
    requires Halfway(u, before, t, pending, src) && k in pending
    requires Retarget(u, k) != k && Retarget(u, k) in t
    ensures !Unobstructed(before, u)
  {
    var j := src[Retarget(u, k)];
    assert Located(u, pending, j) == Retarget(u, k) && j in before && k in before;
    assert Located(u, pending, k) == k;
    assert j in pending ==> Retarget(u, k) in before;
    assert j !in pending ==> Retarget(u, j) == Retarget(u, k) && j != k;
  }

  lemma HalfwayDone(u: Update, before: Cloud, t: Cloud, src: map<Key, Key>)
    requires Halfway(u, before, t, {}, src)
    ensures Rekeyed(before, t, [u])
  {
    forall k ensures Located(u, {}, k) == RetargetAll([u], k) { SingleStatement([u], k); }
    forall k' | k' in t ensures HasSource(before, [u], k') {
      assert src[k'] in before && RetargetAll([u], src[k']) == k';
    }
    forall j, k | j in before && k in before && RetargetAll([u], j) == RetargetAll([u], k) ensures j == k {
      assert src[Located(u, {}, j)] == j && src[Located(u, {}, k)] == k;
    }
  }

  // After `done` statements: how far the table has come, and what a fitting plan still promises.
  ghost predicate PlanAt(t0: Cloud, t: Cloud, plan: seq<Update>, done: nat) {
    && done <= |plan|
    && Rekeyed(t0, t, plan[..done])
    && (PlanFits(t0, plan) ==> PlanFits(t, plan[done..]))
  }

  lemma PlanStart(t0: Cloud, plan: seq<Update>)
    ensures PlanAt(t0, t0, plan, 0)
  {
    NoStatement(t0);
    assert plan[..0] == [] && plan[0..] == plan;
  }

  lemma StatementRan(t0: Cloud, t: Cloud, t': Cloud, plan: seq<Update>, done: nat)
    requires done < |plan| && PlanAt(t0, t, plan, done) && Rekeyed(t, t', [plan[done]])
    ensures PlanAt(t0, t', plan, done + 1)
  {
    RekeyedThen(t0, t, t', plan[..done], plan[done]);
    assert plan[..done] + [plan[done]] == plan[..done + 1];
    assert plan[done..][..1] == [plan[done]] && plan[done..][1..] == plan[done + 1..];
  }

  lemma PlanStopped(t0: Cloud, t: Cloud, plan: seq<Update>, done: nat)
    requires done < |plan| && PlanAt(t0, t, plan, done) && !Unobstructed(t, plan[done])
    ensures Updated(t0, t, plan, false)
  {
    assert plan[done..][0] == plan[done];
    assert !PlanFits(t0, plan);
  }

  lemma PlanEnded(t0: Cloud, t: Cloud, plan: seq<Update>)
    requires PlanAt(t0, t, plan, |plan|)
    ensures Updated(t0, t, plan, true)
  {
  }
}
