/**
  The physical tree behind the OpenDAL `Fs` operator: a map from path to node, with the
  operations the service calls. They fail for the reasons a POSIX file system does.
 */
module FileTree {
  import opened Wrappers
  import opened VirtualPath

  newtype byte = x: int | 0 <= x < 256
  type Bytes = seq<byte>

  datatype Node = Dir | File(data: Bytes)
  type Tree = map<string, Node>

  // Every proper ancestor of an object is a directory.
  ghost predicate WellFormed(t: Tree) {
    forall p, a {:trigger Above(a, p)} :: p in t && a != "" && Above(a, p) ==> a in t && t[a].Dir?
  }

  function At(t: Tree, p: string): Option<Node> {
    if p in t then Some(t[p]) else None
  }

  predicate IsDir(t: Tree, p: string) { p in t && t[p].Dir? }

  predicate IsFile(t: Tree, p: string) { p in t && t[p].File? }

  // p and its ancestors.
  function Chain(p: string): (c: set<string>)
    ensures forall a :: a in c <==> a == p || (a != "" && Above(a, p))
  {
    var above := set i | 0 < i < |p| && p[i] == '/' :: p[..i];
    assert forall a :: a != "" && Above(a, p) ==> a == p[..|a|] && a in above;
    above + {p}
  }

  predicate Blocked(t: Tree, chain: set<string>) {
    exists a :: a in chain && IsFile(t, a)
  }

  function WithDirs(t: Tree, chain: set<string>): Tree {
    t + map a | a in chain :: Dir
  }

  // create_dir: makes the directory and its missing ancestors.
  function CreateDir(t: Tree, p: string): Result<Tree, ()> {
    if Blocked(t, Chain(p)) then Err(()) else Ok(WithDirs(t, Chain(p)))
  }

  // `let _ = op.create_dir(..)`
  function TryCreateDir(t: Tree, p: string): Tree {
    match CreateDir(t, p) case Ok(t') => t' case Err(_) => t
  }

  // write: creates missing parents, truncates an existing file.
  function Write(t: Tree, p: string, data: Bytes): Result<Tree, ()> {
    if Blocked(t, Chain(p) - {p}) || IsDir(t, p) then Err(())
    else Ok(WithDirs(t, Chain(p) - {p})[p := File(data)])
  }

  function Read(t: Tree, p: string): Result<Bytes, ()> {
    if IsFile(t, p) then Ok(t[p].data) else Err(())
  }

  // delete: unlinks a file; a missing object is no error, a directory stays.
  function Delete(t: Tree, p: string): Tree {
    if IsFile(t, p) then t - {p} else t
  }

  function Subtree(t: Tree, p: string): set<string> {
    set q | q in t && Under(q, p)
  }

  // remove_all: the object and everything below it.
  function RemoveAll(t: Tree, p: string): Tree {
    t - Subtree(t, p)
  }

  // The tree after the subtree of `from` became the subtree of `to`.
  function Moved(t: Tree, from: string, to: string): Tree {
    (map q | q in t && !Under(q, from) && !Under(q, to) :: t[q]) +
    (map q | q in (set r | r in Subtree(t, from) :: Rebase(r, from, to)) && Rebase(q, to, from) in t
       :: t[Rebase(q, to, from)])
  }

  predicate CanMove(t: Tree, from: string, to: string) {
    && from != to
    && from in t
    && !Above(from, to)
    && '/' in to && IsDir(t, to[..LastSlash(to)])
    && (to in t ==> if t[from].File? then t[to].File? else t[to].Dir? && Subtree(t, to) == {to})
  }

  // rename(2): replaces a file by a file and an empty directory by a directory.
  function Rename(t: Tree, from: string, to: string): Result<Tree, ()> {
    if CanMove(t, from, to) then Ok(Moved(t, from, to)) else Err(())
  }

  // ---- Laws ------------------------------------------------------------------------

  lemma AtCreateDir(t: Tree, p: string, q: string)
    requires CreateDir(t, p).Ok?
    ensures At(CreateDir(t, p).value, q) == if q in Chain(p) then Some(Dir) else At(t, q)
  {
  }

  lemma CreateDirWellFormed(t: Tree, p: string)
    requires WellFormed(t) && p != ""
    ensures WellFormed(TryCreateDir(t, p))
  {
    if CreateDir(t, p).Ok? {
      var t' := CreateDir(t, p).value;
      forall q, a {:trigger Above(a, q)} | q in t' && a != "" && Above(a, q) ensures IsDir(t', a) {
        if q in Chain(p) {
          AboveTransitive(a, q, p);
          assert a in Chain(p);
        } else {
          assert q in t;
          assert IsDir(t, a);
        }
      }
    }
  }

  // A directory that is already there is left alone.
  lemma CreateExistingDir(t: Tree, p: string)
    requires WellFormed(t) && IsDir(t, p)
    ensures CreateDir(t, p) == Ok(t)
  {
    assert forall a :: a in Chain(p) ==> IsDir(t, a);
    assert WithDirs(t, Chain(p)) == t;
  }

  lemma WriteWellFormed(t: Tree, p: string, data: Bytes)
    requires WellFormed(t) && p != "" && Write(t, p, data).Ok?
    ensures WellFormed(Write(t, p, data).value)
  {
    var t' := Write(t, p, data).value;
    forall q, a {:trigger Above(a, q)} | q in t' && a != "" && Above(a, q) ensures IsDir(t', a) {
      if q in Chain(p) {
        AboveTransitive(a, q, p);
        assert a in Chain(p) - {p};
      } else {
        assert q in t;
        assert IsDir(t, a);
        assert a != p;
      }
    }
  }

  lemma DeleteWellFormed(t: Tree, p: string)
    requires WellFormed(t)
    ensures WellFormed(Delete(t, p))
  {
    var t' := Delete(t, p);
    forall q, a {:trigger Above(a, q)} | q in t' && a != "" && Above(a, q) ensures IsDir(t', a) {
      assert q in t && IsDir(t, a);
    }
  }

  lemma RemoveAllWellFormed(t: Tree, p: string)
    requires WellFormed(t)
    ensures WellFormed(RemoveAll(t, p))
  {
    var t' := RemoveAll(t, p);
    forall q, a {:trigger Above(a, q)} | q in t' && a != "" && Above(a, q) ensures IsDir(t', a) {
      assert q in t && IsDir(t, a);
      if Under(a, p) { AboveTransitive(p, a, q); }
    }
  }

  lemma AtMoved(t: Tree, from: string, to: string, q: string)
    requires WellFormed(t) && CanMove(t, from, to)
    ensures At(Moved(t, from, to), q) ==
            if Under(q, to) then At(t, Rebase(q, to, from))
            else if Under(q, from) then None
            else At(t, q)
  {
    var t' := Moved(t, from, to);
    if Under(q, to) {
      RebaseUnder(q, to, from);
      var r := Rebase(q, to, from);
      if r in t { assert r in Subtree(t, from) && Rebase(r, from, to) == q; }
    } else {
      assert q !in (set r | r in Subtree(t, from) :: Rebase(r, from, to)) by {
        forall r | r in Subtree(t, from) ensures Rebase(r, from, to) != q { RebaseUnder(r, from, to); }
      }
    }
  }

  // Nothing but `to` itself can stand at or below a legal target, and source and target
  // subtrees are apart.
  lemma MoveIsApart(t: Tree, from: string, to: string)
    requires WellFormed(t) && CanMove(t, from, to) && to != ""
    ensures !Under(to, from)
    ensures !Under(from, to)
    ensures forall q :: q in t && Under(q, to) ==> q == to
  {
    forall q | q in t && Under(q, to) ensures q == to {
      assert q in Subtree(t, to);
      assert q == to || IsDir(t, to);
    }
  }

  lemma MovedWellFormed(t: Tree, from: string, to: string)
    requires WellFormed(t) && CanMove(t, from, to) && from != "" && to != "" && to[..LastSlash(to)] != ""
    ensures WellFormed(Moved(t, from, to))
  {
    var t' := Moved(t, from, to);
    MoveIsApart(t, from, to);
    forall q, a {:trigger Above(a, q)} | q in t' && a != "" && Above(a, q) ensures IsDir(t', a) {
      AtMoved(t, from, to, q);
      AtMoved(t, from, to, a);
      if Under(q, to) {
        AncestorsComparable(a, to, q);
        if Under(a, to) {
          RebaseUnder(q, to, from);
          RebaseUnder(a, to, from);
          RebaseAbove(a, q, to, from);
          var r := Rebase(q, to, from);
          assert r in t;
          assert IsDir(t, Rebase(a, to, from));
        } else {
          // a is an ancestor of the target: its parent directory or higher
          ParentIsNearest(a, to);
          var dir := to[..LastSlash(to)];
          assert a == dir || Above(a, dir);
          assert IsDir(t, a);
          if Under(a, from) { AboveTransitive(from, a, to); }
        }
      } else {
        assert q in t && IsDir(t, a);
        if Under(a, from) { AboveTransitive(from, a, q); }
        if Under(a, to) { AboveTransitive(to, a, q); }
      }
    }
  }

  lemma RebaseAbove(a: string, q: string, from: string, to: string)
    requires Under(a, from) && Above(a, q)
    ensures Above(Rebase(a, from, to), Rebase(q, from, to))
  {
    AboveTransitive(from, a, q);
    var a', q' := Rebase(a, from, to), Rebase(q, from, to);
    assert q[..|a|][|from|..] == a[|from|..];
    assert q[|from|..][..|a| - |from|] == q[..|a|][|from|..];
    assert q'[..|a'|] == to + q[|from|..][..|a| - |from|];
    assert q'[|a'|] == q[|from|..][|a| - |from|] == q[|a|];
  }

  lemma ParentIsNearest(a: string, p: string)
    requires Above(a, p)
    ensures Under(p[..LastSlash(p)], a)
  {
    var i := LastSlash(p);
    assert p == Child(p[..i], p[i + 1..]);
    AboveChild(a, p[..i], p[i + 1..]);
  }
}
