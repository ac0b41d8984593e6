/**
  Object paths as the file system takes them: with ".." among the pieces, one piece after the other,
  each directory on the way made before the next step.
 */
module DotPaths {
  import opened Wrappers
  import opened Text
  import opened VirtualPath
  import opened FileTree

  // ".." goes back one piece, above the storage root as well.
  function Settle(stack: seq<string>, piece: string): seq<string> {
    if piece == ".." && stack != [] && stack[|stack| - 1] != ".." then stack[..|stack| - 1] else stack + [piece]
  }

  function Settled(pieces: seq<string>): seq<string> {
    if pieces == [] then [] else Settle(Settled(pieces[..|pieces| - 1]), pieces[|pieces| - 1])
  }

  // The object the pieces lead to.
  function EndOf(pieces: seq<string>): string {
    Join(Settled(pieces), '/')
  }

  // The objects passed on the way.
  function Steps(pieces: seq<string>): seq<string> {
    if pieces == [] then [] else Steps(pieces[..|pieces| - 1]) + [EndOf(pieces)]
  }

  datatype Made = Made(tree: Tree, ok: bool)

  // Makes each in turn, up to the first that is a file; the storage root is always there.
  function MakeSteps(t: Tree, steps: seq<string>): Made {
    if steps == [] then Made(t, true)
    else
      var before := MakeSteps(t, steps[..|steps| - 1]);
      var p := steps[|steps| - 1];
      if !before.ok || IsFile(before.tree, p) then Made(before.tree, false)
      else Made(if p == "" then before.tree else before.tree[p := Dir], true)
  }

  // create_dir of a path in any spelling, its failure ignored.
  function MakeDirs(t: Tree, path: string): Tree {
    if NoClimb(path) then TryCreateDir(t, ObjectOf(path)) else MakeSteps(t, Steps(Pieces(path))).tree
  }

  // write at a path in any spelling.
  function PutFile(t: Tree, path: string, data: Bytes): Result<Tree, ()> {
    if Refused(path) then Err(())
    else if NoClimb(path) then Write(t, ObjectOf(path), data)
    else
      var made, op := MakeSteps(t, Steps(Front(Pieces(path)))), EndOf(Pieces(path));
      if !made.ok || IsDir(made.tree, op) then Err(()) else Ok(made.tree[op := File(data)])
  }

  // ---- Reading a path back from its pieces -----------------------------------------------------------

  ghost predicate NoBlank(pieces: seq<string>) {
    forall n {:trigger n in pieces} :: n in pieces ==> n != "" && n != "." && '/' !in n
  }

  lemma PiecesNoBlank(path: string)
    ensures NoBlank(Pieces(path)) && NoBlank(Front(Pieces(path)))
  {
    SplitPieces(path, '/');
    forall n | n in Front(Pieces(path)) ensures n in Pieces(path) {}
  }

  lemma PiecesOfJoin(parts: seq<string>)
    requires NoBlank(parts)
    ensures Components(Join(parts, '/')) == parts && Pieces(Join(parts, '/')) == parts
  {
    var keep := (n: string) => n != "";
    if parts == [] {
      assert Split("", '/') == [""];
    } else {
      RenderIsSlashed(parts);
      SplitSlashed(parts);
      assert Render(parts)[1..] == Join(parts, '/');
      SplitLeading(Render(parts), parts);
      FilterAll(parts, keep);
    }
    FilterAll(parts, (n: string) => n != ".");
  }

  // The directory above a path, read back.
  lemma ParentPieces(path: string)
    ensures Pieces(PathParent(path)) == Front(Pieces(path)) && ObjectOf(PathParent(path)) == PathParent(path)
    ensures NoClimb(PathParent(path)) <==> ".." !in Front(Pieces(path))
    ensures NoClimb(path) ==> NoClimb(PathParent(path))
  {
    PiecesNoBlank(path);
    PiecesOfJoin(Front(Pieces(path)));
    forall n | n in Front(Pieces(path)) ensures n in Components(path) { assert n in Pieces(path); }
  }

  // The last piece of a path that can be written is a name.
  lemma WritablePieces(path: string)
    requires !Refused(path)
    ensures Pieces(path) != [] && NamesFile(Pieces(path)[|Pieces(path)| - 1])
  {
    SomePiece(path);
    var cs, keep := Components(path), (n: string) => n != ".";
    var front, last := cs[..|cs| - 1], cs[|cs| - 1];
    assert cs == front + [last];
    FilterConcat(front, [last], keep);
    FilterAll([last], keep);
    assert Pieces(path) == Filter(front, keep) + [last];
  }

  // Only the last piece of a path can make it climb when its directory does not, and then it is refused.
  lemma WritableUnclimbed(path: string)
    requires !Refused(path) && NoClimb(PathParent(path))
    ensures NoClimb(path)
  {
    ParentPieces(path);
    WritablePieces(path);
    var last := Pieces(path)[|Pieces(path)| - 1];
    assert Pieces(path) == Front(Pieces(path)) + [last];
    assert ".." in Components(path) <==> ".." in Pieces(path);
  }

  // ---- What making directories changes -------------------------------------------------------------

  // Directories appear; nothing else changes.
  ghost predicate DirsAdded(fs: Tree, fs': Tree) {
    forall q {:trigger At(fs', q)} :: At(fs', q) == At(fs, q) || (q !in fs && At(fs', q) == Some(Dir))
  }

  lemma CreateDirAdds(t: Tree, p: string)
    ensures DirsAdded(t, TryCreateDir(t, p))
  {
    if CreateDir(t, p).Ok? {
      forall q ensures At(TryCreateDir(t, p), q) == At(t, q) || (q !in t && At(TryCreateDir(t, p), q) == Some(Dir)) {
        AtCreateDir(t, p, q);
      }
    }
  }

  lemma {:induction false} StepsAdd(t: Tree, steps: seq<string>)
    ensures DirsAdded(t, MakeSteps(t, steps).tree)
  {
    if steps != [] {
      var rest, p := steps[..|steps| - 1], steps[|steps| - 1];
      StepsAdd(t, rest);
      var t1, t2 := MakeSteps(t, rest).tree, MakeSteps(t, steps).tree;
      forall q ensures At(t2, q) == At(t, q) || (q !in t && At(t2, q) == Some(Dir)) {
        assert At(t1, q) == At(t, q) || (q !in t && At(t1, q) == Some(Dir));
      }
    }
  }

  lemma MakeDirsAdds(t: Tree, path: string)
    ensures DirsAdded(t, MakeDirs(t, path))
  {
    if NoClimb(path) { CreateDirAdds(t, ObjectOf(path)); } else { StepsAdd(t, Steps(Pieces(path))); }
  }

  // ---- The tree keeps its shape ----------------------------------------------------------------------

  lemma JoinSnoc(stack: seq<string>, piece: string)
    ensures Join(stack + [piece], '/') == if stack == [] then piece else Child(Join(stack, '/'), piece)
  {
    if stack != [] {
      RenderIsSlashed(stack + [piece]);
      RenderIsSlashed(stack);
      LastPiece(stack, piece);
      assert ("/" + Join(stack + [piece], '/'))[1..] == Join(stack + [piece], '/');
      assert Child("/" + Join(stack, '/'), piece)[1..] == Child(Join(stack, '/'), piece);
    }
  }

  predicate PlainPieces(pieces: seq<string>) {
    forall n {:trigger n in pieces} :: n in pieces ==> n != "" && '/' !in n
  }

  lemma PlainFront(pieces: seq<string>)
    requires PlainPieces(pieces) && pieces != []
    ensures PlainPieces(pieces[..|pieces| - 1]) && pieces[|pieces| - 1] != "" && '/' !in pieces[|pieces| - 1]
  {
    var front := pieces[..|pieces| - 1];
    assert pieces[|pieces| - 1] in pieces;
    forall n | n in front ensures n != "" && '/' !in n { assert n in pieces; }
  }

  lemma SettlePlain(stack: seq<string>, piece: string)
    requires PlainPieces(stack) && piece != "" && '/' !in piece
    ensures PlainPieces(Settle(stack, piece))
  {
    if Settle(stack, piece) != stack + [piece] { PlainFront(stack); }
  }

  lemma {:induction false} SettledPlain(pieces: seq<string>)
    requires PlainPieces(pieces)
    ensures PlainPieces(Settled(pieces))
  {
    if pieces != [] {
      PlainFront(pieces);
      SettledPlain(pieces[..|pieces| - 1]);
      SettlePlain(Settled(pieces[..|pieces| - 1]), pieces[|pieces| - 1]);
    }
  }

  // A new directory in an existing one, or at the top.
  lemma AddedDirWellFormed(t: Tree, stack: seq<string>, piece: string, node: Node)
    requires WellFormed(t) && PlainPieces(stack + [piece]) && (stack != [] ==> IsDir(t, Join(stack, '/')))
    requires var p := Join(stack + [piece], '/'); p !in t || t[p] == node || (IsFile(t, p) && node.File?)
    ensures WellFormed(t[Join(stack + [piece], '/') := node])
  {
    var p := Join(stack + [piece], '/');
    assert piece in stack + [piece];
    JoinSnoc(stack, piece);
    forall q, a {:trigger Above(a, q)} | q in t[p := node] && a != "" && Above(a, q) ensures IsDir(t[p := node], a) {
      if q == p && q !in t {
        if stack != [] { AboveChild(a, Join(stack, '/'), piece); }
      } else {
        assert IsDir(t, a);
      }
    }
  }

  lemma {:induction false} StepsWellFormed(t: Tree, pieces: seq<string>)
    requires WellFormed(t) && PlainPieces(pieces)
    ensures var made := MakeSteps(t, Steps(pieces));
            WellFormed(made.tree) && (made.ok && Settled(pieces) != [] ==> IsDir(made.tree, EndOf(pieces)))
  {
    if pieces != [] {
      var front, piece := pieces[..|pieces| - 1], pieces[|pieces| - 1];
      PlainFront(pieces);
      StepsWellFormed(t, front);
      assert Steps(pieces)[..|Steps(pieces)| - 1] == Steps(front);
      SettledPlain(front);
      NextStep(MakeSteps(t, Steps(front)), Settled(front), piece);
    }
  }

  lemma NextStep(before: Made, stack: seq<string>, piece: string)
    requires WellFormed(before.tree) && PlainPieces(stack) && piece != "" && '/' !in piece
    requires before.ok && stack != [] ==> IsDir(before.tree, Join(stack, '/'))
    ensures var p := Join(Settle(stack, piece), '/');
            before.ok && !IsFile(before.tree, p) ==>
              WellFormed(if p == "" then before.tree else before.tree[p := Dir]) && (Settle(stack, piece) != [] ==> p != "")
  {
    var next := Settle(stack, piece);
    if before.ok && !IsFile(before.tree, Join(next, '/')) {
      if next == stack + [piece] {
        JoinSnoc(stack, piece);
        AddedDirWellFormed(before.tree, stack, piece, Dir);
      } else if next != [] {
        assert stack == next + [stack[|stack| - 1]];
        StepBack(before.tree, next, stack[|stack| - 1]);
        assert before.tree[Join(next, '/') := Dir] == before.tree;
      }
    }
  }

  // Back from a directory that stands to the one above it.
  lemma StepBack(t: Tree, next: seq<string>, last: string)
    requires WellFormed(t) && PlainPieces(next + [last]) && next != [] && IsDir(t, Join(next + [last], '/'))
    ensures Join(next, '/') != "" && IsDir(t, Join(next, '/'))
  {
    var front, top := next[..|next| - 1], next[|next| - 1];
    assert next == front + [top] && top in next + [last] && last in next + [last];
    JoinSnoc(front, top);
    JoinSnoc(next, last);
    AboveChild(Join(next, '/'), Join(next, '/'), last);
  }
}
