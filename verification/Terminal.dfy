/**
  The terminal's working directory: path arguments are resolved by a stack of components, and
  chdir feeds the result back as the next starting point.
 */
module Terminal {
  import opened Text
  import opened VirtualPath

  // ---- Resolution -------------------------------------------------------------------------------

  // char::is_whitespace
  predicate IsSpace(c: char) {
    c == ' ' || '\U{0009}' <= c <= '\U{000D}' || c == '\U{0085}' || c == '\U{00A0}' || c == '\U{1680}'
    || '\U{2000}' <= c <= '\U{200A}' || c == '\U{2028}' || c == '\U{2029}' || c == '\U{202F}' || c == '\U{205F}'
    || c == '\U{3000}'
  }

  function Trim(s: string): string
    decreases |s|
  {
    if s != "" && IsSpace(s[0]) then Trim(s[1..])
    else if s != "" && IsSpace(s[|s| - 1]) then Trim(s[..|s| - 1])
    else s
  }

  // The path to normalise: from the root, the home or the working directory.
  function Absolute(user: string, cwd: string, p: string): string {
    if "/" <= p then p
    else if p == "~" then Home(user)
    else if "~/" <= p then Home(user) + "/" + TrimStart(p, "~/")
    else if cwd == "/" then "/" + p
    else cwd + "/" + p
  }

  // One component against the stack.
  function Step(stack: seq<string>, part: string): seq<string> {
    if part == "" || part == "." then stack
    else if part == ".." then (if stack == [] then [] else stack[..|stack| - 1])
    else stack + [part]
  }

  function WalkFrom(stack: seq<string>, parts: seq<string>): seq<string> {
    if parts == [] then stack else Step(WalkFrom(stack, parts[..|parts| - 1]), parts[|parts| - 1])
  }

  function Resolve(user: string, cwd: string, path: string): string {
    var p := Trim(path);
    if p == "" then cwd else Render(WalkFrom([], Split(Absolute(user, cwd, p), '/')))
  }

  // ---- Normal results ------------------------------------------------------------------------------

  // A component that survives the walk; backslashes are ordinary characters here.
  predicate Name(n: string) {
    n != "" && n != "." && n != ".." && '/' !in n
  }

  predicate Names(parts: seq<string>) {
    forall n :: n in parts ==> Name(n)
  }

  ghost predicate Clean(p: string) {
    exists parts :: Names(parts) && p == Render(parts)
  }

  lemma {:induction false} WalkIsNames(stack: seq<string>, parts: seq<string>)
    requires Names(stack) && forall n :: n in parts ==> '/' !in n
    ensures Names(WalkFrom(stack, parts))
  {
    if parts != [] {
      WalkIsNames(stack, parts[..|parts| - 1]);
      assert parts[|parts| - 1] in parts;
    }
  }

  // Whatever is typed, the result has a leading slash and no empty, "." or ".." component.
  lemma ResolveIsClean(user: string, cwd: string, path: string)
    requires Clean(cwd)
    ensures Clean(Resolve(user, cwd, path))
  {
    var p := Trim(path);
    if p != "" {
      SplitPieces(Absolute(user, cwd, p), '/');
      WalkIsNames([], Split(Absolute(user, cwd, p), '/'));
    }
  }

  function CwdAfter(user: string, cwd: string, paths: seq<string>): string {
    if paths == [] then cwd else Resolve(user, CwdAfter(user, cwd, paths[..|paths| - 1]), paths[|paths| - 1])
  }

  // The working directory is clean on every run of chdir.
  lemma {:induction false} CwdStaysClean(user: string, cwd: string, paths: seq<string>)
    requires Clean(cwd)
    ensures Clean(CwdAfter(user, cwd, paths))
  {
    if paths != [] {
      CwdStaysClean(user, cwd, paths[..|paths| - 1]);
      ResolveIsClean(user, CwdAfter(user, cwd, paths[..|paths| - 1]), paths[|paths| - 1]);
    }
  }

  // A clean path is what the storage normaliser expects exactly when it is free of backslashes.
  lemma CleanIsNormal(p: string)
    requires Clean(p)
    ensures NormalizePath(p) == p <==> '\\' !in p
  {
    if '\\' !in p {
      var parts :| Names(parts) && p == Render(parts);
      if parts != [] {
        RenderIsSlashed(parts);
        SlashedMembers(parts);
      }
      assert ValidParts(parts);
      NormalizeIdempotent(p);
    } else {
      NormalizeIdempotent(p);
      if NormalizePath(p) == p { NormalHasNoBackslash(p); }
    }
  }

  lemma {:induction false} SlashedMembers(parts: seq<string>)
    ensures forall n, c :: n in parts && c in n ==> c in Slashed(parts)
  {
    if parts != [] { SlashedMembers(parts[1..]); }
  }

  // ---- cd p, then q ------------------------------------------------------------------------------------

  lemma {:induction false} WalkConcat(stack: seq<string>, a: seq<string>, b: seq<string>)
    ensures WalkFrom(stack, a + b) == WalkFrom(WalkFrom(stack, a), b)
  {
    if b == [] {
      assert a + b == a;
    } else {
      assert (a + b)[..|a + b| - 1] == a + b[..|b| - 1];
      WalkConcat(stack, a, b[..|b| - 1]);
    }
  }

  lemma {:induction false} WalkNames(stack: seq<string>, names: seq<string>)
    requires Names(names)
    ensures WalkFrom(stack, names) == stack + names
  {
    if names != [] {
      var n := |names| - 1;
      WalkNames(stack, names[..n]);
      assert Name(names[n]);
      assert names == names[..n] + [names[n]];
    }
  }

  // Going on from a clean path is going on from its components.
  lemma ContinueFrom(parts: seq<string>, q: string)
    requires Names(parts)
    ensures var r := Render(parts);
            WalkFrom([], Split(if r == "/" then "/" + q else r + "/" + q, '/')) == WalkFrom(parts, Split(q, '/'))
  {
    var r := Render(parts);
    var s := Slashed(parts);
    if parts == [] {
      assert Render([]) == "/";
    } else {
      RenderIsSlashed(parts);
      assert Name(parts[0]);
    }
    assert (if r == "/" then "/" + q else r + "/" + q) == s + ['/'] + q;
    SplitAtSeparator(s, q, '/');
    forall n | n in parts ensures '/' !in n { assert Name(n); }
    SplitSlashed(parts);
    WalkConcat([], [""] + parts, Split(q, '/'));
    LeadingSlash(parts);
  }

  lemma LeadingSlash(parts: seq<string>)
    requires Names(parts)
    ensures WalkFrom([], [""] + parts) == parts
  {
    WalkConcat([], [""], parts);
    assert [""][..0] == [];
    assert WalkFrom([], [""]) == Step(WalkFrom([], []), "") == [];
    WalkNames([], parts);
    assert [] + parts == parts;
  }

  // Relative, not starting at the home, and without surrounding blanks.
  predicate Relative(q: string) {
    Trim(q) == q && !("/" <= q) && q != "~" && !("~/" <= q)
  }

  lemma TrimmedEnds(s: string)
    ensures Trim(s) == s <==> s == "" || (!IsSpace(s[0]) && !IsSpace(s[|s| - 1]))
  {
    TrimShorter(s);
    if s != "" && IsSpace(s[0]) { TrimShorter(s[1..]); }
    else if s != "" && IsSpace(s[|s| - 1]) { TrimShorter(s[..|s| - 1]); }
  }

  lemma {:induction false} TrimShorter(s: string)
    ensures |Trim(s)| <= |s|
    decreases |s|
  {
    if s != "" && IsSpace(s[0]) { TrimShorter(s[1..]); }
    else if s != "" && IsSpace(s[|s| - 1]) { TrimShorter(s[..|s| - 1]); }
  }

  lemma JoinedIsTrimmed(p: string, q: string)
    requires p != "" && Trim(p) == p && Trim(q) == q
    ensures Trim(p + "/" + q) == p + "/" + q
  {
    TrimmedEnds(p);
    TrimmedEnds(q);
    TrimmedEnds(p + "/" + q);
  }

  // Stripping "~/" from p + "/" + q eats the separator when p is "~" in the end.
  lemma {:induction false} TrimTilde(p: string, q: string)
    ensures TrimStart(p + "/" + q, "~/") ==
            if TrimStart(p, "~/") == "~" then TrimStart(q, "~/") else TrimStart(p, "~/") + "/" + q
    decreases |p|
  {
    var s := p + "/" + q;
    if "~/" <= p {
      assert s[2..] == p[2..] + "/" + q;
      TrimTilde(p[2..], q);
    } else if p == "~" {
      assert s == "~/" + q && s[2..] == q;
    } else {
      LeadsHome(p);
      LeadsHome(s);
      assert |p| == 1 ==> p == [p[0]];
    }
  }

  lemma LeadsHome(s: string)
    ensures "~/" <= s <==> |s| >= 2 && s[0] == '~' && s[1] == '/'
  {
  }

  // Nested home: "~/" as often as you like, then "~".
  predicate NestedHome(p: string) {
    "~/" <= p && TrimStart(p, "~/") == "~"
  }

  lemma AbsoluteAppend(user: string, cwd: string, p: string, q: string)
    requires p != "" && Relative(q) && !NestedHome(p)
    ensures Absolute(user, cwd, p + "/" + q) == Absolute(user, cwd, p) + "/" + q
  {
    var s := p + "/" + q;
    assert s[0] == p[0];
    if "/" <= p {
    } else if p == "~" {
      assert s == "~/" + q && s[2..] == q;
      assert TrimStart(s, "~/") == q;
    } else if "~/" <= p {
      TrimTilde(p, q);
      LeadsHome(s);
      Regroup(Home(user) + "/", TrimStart(p, "~/") + "/", q);
      Regroup(Home(user) + "/", TrimStart(p, "~/"), "/");
    } else {
      TildePrefix(p, q);
      Regroup(if cwd == "/" then "/" else cwd + "/", p + "/", q);
      Regroup(if cwd == "/" then "/" else cwd + "/", p, "/");
    }
  }

  lemma TildePrefix(p: string, q: string)
    requires p != "" && !("/" <= p) && p != "~" && !("~/" <= p)
    ensures var s := p + "/" + q; !("/" <= s) && s != "~" && !("~/" <= s)
  {
    var s := p + "/" + q;
    LeadsHome(p);
    LeadsHome(s);
    assert s[0] == p[0];
    assert |p| == 1 ==> p == [p[0]];
  }

  // cd p followed by q is p/q.
  lemma CdThenResolve(user: string, cwd: string, p: string, q: string)
    requires Clean(cwd) && p != "" && Trim(p) == p && Relative(q) && !NestedHome(p)
    ensures Resolve(user, Resolve(user, cwd, p), q) == Resolve(user, cwd, p + "/" + q)
  {
    var full := Absolute(user, cwd, p);
    var parts := WalkFrom([], Split(full, '/'));
    SplitPieces(full, '/');
    WalkIsNames([], Split(full, '/'));
    JoinedIsTrimmed(p, q);
    AbsoluteAppend(user, cwd, p, q);
    assert full + "/" + q == full + ['/'] + q;
    SplitAtSeparator(full, q, '/');
    WalkConcat([], Split(full, '/'), Split(q, '/'));
    if q == "" {
      assert Split(q, '/') == [""] && [""][..0] == [];
      assert WalkFrom(parts, [""]) == Step(WalkFrom(parts, []), "");
    } else {
      ContinueFrom(parts, q);
    }
  }

  // "~/~" names a file "~" of the home, "~/~/x" the x of the home itself.
  lemma NestedHomeDiffers(user: string, cwd: string, p: string)
    requires NestedHome(p) && Trim(p) == p
    ensures Relative("x") && Resolve(user, Resolve(user, cwd, p), "x") != Resolve(user, cwd, p + "/" + "x")
  {
    var home := Split(Home(user), '/');
    var h := WalkFrom([], home);
    SplitPieces(Home(user), '/');
    WalkIsNames([], home);
    TrimmedEnds("x");
    JoinedIsTrimmed(p, "x");
    TrimTilde(p, "x");
    assert "~/" <= p + "/" + "x" && p + "/" + "x" != "~" by { assert (p + "/" + "x")[..2] == p[..2]; }
    assert TrimStart("x", "~/") == "x";
    HomeChildWalk(user, "~");
    HomeChildWalk(user, "x");
    OneMore(h + ["~"], "x");
    ContinueFrom(h + ["~"], "x");
    DifferentDepth(h, "~", "x");
  }

  lemma OneMore(stack: seq<string>, n: string)
    requires Name(n)
    ensures WalkFrom(stack, Split(n, '/')) == stack + [n]
  {
    SplitWithout(n, '/');
    assert [n][..0] == [];
    assert WalkFrom(stack, [n]) == Step(WalkFrom(stack, []), n);
  }

  lemma DifferentDepth(h: seq<string>, m: string, n: string)
    ensures Render(h + [m] + [n]) != Render(h + [n])
  {
    RenderIsSlashed(h + [m] + [n]);
    RenderIsSlashed(h + [n]);
    SlashedConcat(h + [m], [n]);
    SlashedConcat(h, [m]);
    SlashedConcat(h, [n]);
    assert |Slashed([m])| > 0;
  }

  lemma HomeChildWalk(user: string, n: string)
    requires Name(n)
    ensures WalkFrom([], Split(Home(user) + "/" + n, '/')) == WalkFrom([], Split(Home(user), '/')) + [n]
  {
    assert Home(user) + "/" + n == Home(user) + ['/'] + n;
    SplitAtSeparator(Home(user), n, '/');
    WalkConcat([], Split(Home(user), '/'), Split(n, '/'));
    OneMore(WalkFrom([], Split(Home(user), '/')), n);
  }

  // The law holds for every relative q exactly when p is not a nested home.
  lemma CdLaw(user: string, cwd: string, p: string)
    requires Clean(cwd) && p != "" && Trim(p) == p
    ensures (forall q {:trigger Relative(q)} :: Relative(q) ==>
               Resolve(user, Resolve(user, cwd, p), q) == Resolve(user, cwd, p + "/" + q))
            <==> !NestedHome(p)
  {
    if NestedHome(p) {
      NestedHomeDiffers(user, cwd, p);
    } else {
      forall q | Relative(q) ensures Resolve(user, Resolve(user, cwd, p), q) == Resolve(user, cwd, p + "/" + q) {
        CdThenResolve(user, cwd, p, q);
      }
    }
  }

  lemma HomeIsClean(user: string)
    requires Name(user)
    ensures Clean(Home(user))
  {
    var parts := ["User", user];
    assert parts[1..] == [user];
    assert Join(parts, '/') == "User" + ['/'] + user;
    assert "/" + ("User" + ['/'] + user) == "/User/" + user;
    assert Names(parts) && Home(user) == Render(parts);
  }

  // ---- Where single steps lead -------------------------------------------------------------------------

  predicate Blank(s: string) {
    forall c :: c in s ==> IsSpace(c)
  }

  // Trimming takes the white space off both ends and nothing else.
  lemma {:induction false} TrimExact(s: string) returns (a: string, b: string)
    ensures s == a + Trim(s) + b && Blank(a) && Blank(b)
    ensures Trim(s) == "" || (!IsSpace(Trim(s)[0]) && !IsSpace(Trim(s)[|Trim(s)| - 1]))
    decreases |s|
  {
    a, b := "", "";
    if s != "" && IsSpace(s[0]) {
      a, b := TrimExact(s[1..]);
      OneMoreBefore(s, a, Trim(s), b);
      a := [s[0]] + a;
    } else if s != "" && IsSpace(s[|s| - 1]) {
      a, b := TrimExact(s[..|s| - 1]);
      OneMoreAfter(s, a, Trim(s), b);
      b := b + [s[|s| - 1]];
    }
  }

  lemma OneMoreBefore(s: string, a: string, t: string, b: string)
    requires s != "" && s[1..] == a + t + b
    ensures s == ([s[0]] + a) + t + b
  {
    assert s == [s[0]] + s[1..];
  }

  lemma OneMoreAfter(s: string, a: string, t: string, b: string)
    requires s != "" && s[..|s| - 1] == a + t + b
    ensures s == a + t + (b + [s[|s| - 1]])
  {
    assert s == s[..|s| - 1] + [s[|s| - 1]];
  }

  // A blank argument leaves the working directory.
  lemma BlankStays(user: string, cwd: string, path: string)
    requires Blank(path)
    ensures Resolve(user, cwd, path) == cwd
  {
    TrimBlank(path);
  }

  lemma {:induction false} TrimBlank(s: string)
    requires Blank(s)
    ensures Trim(s) == ""
  {
    if s != "" {
      assert s[0] in s && forall c :: c in s[1..] ==> c in s;
      TrimBlank(s[1..]);
    }
  }

  lemma OnePart(stack: seq<string>, n: string)
    requires '/' !in n
    ensures WalkFrom(stack, Split(n, '/')) == Step(stack, n)
  {
    SplitWithout(n, '/');
    assert [n][..0] == [] && WalkFrom(stack, [n][..0]) == stack;
  }

  // From a clean directory, ".." leads to its parent, and from the root nowhere.
  lemma CdParent(user: string, parts: seq<string>)
    requires Names(parts)
    ensures Resolve(user, Render(parts), "..") == Render(if parts == [] then [] else parts[..|parts| - 1])
  {
    TrimmedEnds("..");
    ContinueFrom(parts, "..");
    OnePart(parts, "..");
  }

  lemma CdHere(user: string, parts: seq<string>)
    requires Names(parts)
    ensures Resolve(user, Render(parts), ".") == Render(parts)
  {
    TrimmedEnds(".");
    ContinueFrom(parts, ".");
    OnePart(parts, ".");
  }

  // A name leads one level down.
  lemma CdName(user: string, parts: seq<string>, n: string)
    requires Names(parts) && Name(n) && Relative(n)
    ensures Resolve(user, Render(parts), n) == Render(parts + [n])
  {
    ContinueFrom(parts, n);
    OnePart(parts, n);
  }

  // Going down and up again leads back.
  lemma DownAndUp(user: string, cwd: string, n: string)
    requires Clean(cwd) && Name(n) && Relative(n)
    ensures Resolve(user, Resolve(user, cwd, n), "..") == cwd
  {
    var parts :| Names(parts) && cwd == Render(parts);
    CdName(user, parts, n);
    CdParent(user, parts + [n]);
    assert (parts + [n])[..|parts|] == parts;
  }

  lemma WalkNext(head: string, tail: string)
    ensures WalkFrom([], Split(head + "/" + tail, '/')) == WalkFrom(WalkFrom([], Split(head, '/')), Split(tail, '/'))
  {
    SplitAtSeparator(head, tail, '/');
    WalkConcat([], Split(head, '/'), Split(tail, '/'));
  }

  lemma WalkBack(head: string, n: string)
    requires Name(n)
    ensures WalkFrom([], Split(head + "/" + n + "/" + "..", '/')) == WalkFrom([], Split(head, '/'))
  {
    var stack := WalkFrom([], Split(head, '/'));
    WalkNext(head, n);
    WalkNext(head + "/" + n, "..");
    OnePart(stack, n);
    OnePart(stack + [n], "..");
    assert (stack + [n])[..|stack|] == stack;
  }

  lemma AbsoluteWalk(user: string, cwd: string, head: string, b: string)
    requires "/" <= head && (b == "" || !IsSpace(b[|b| - 1]))
    ensures Resolve(user, cwd, head + "/" + b) == Render(WalkFrom([], Split(head + "/" + b, '/')))
  {
    TrimmedEnds(head + "/" + b);
  }

  // In an absolute path a name and the ".." after it cancel, wherever they stand.
  lemma NameCancels(user: string, cwd: string, head: string, n: string, b: string)
    requires "/" <= head && Name(n) && (b == "" || !IsSpace(b[|b| - 1]))
    ensures Resolve(user, cwd, head + "/" + n + "/" + ".." + "/" + b) == Resolve(user, cwd, head + "/" + b)
  {
    var long := head + "/" + n + "/" + "..";
    AbsoluteWalk(user, cwd, long, b);
    AbsoluteWalk(user, cwd, head, b);
    WalkBack(head, n);
    WalkNext(long, b);
    WalkNext(head, b);
  }

  // A clean absolute path resolves to itself, from any directory.
  lemma AbsoluteIsItself(user: string, cwd: string, parts: seq<string>)
    requires Names(parts) && Trim(Render(parts)) == Render(parts)
    ensures Resolve(user, cwd, Render(parts)) == Render(parts)
  {
    if parts == [] {
      ContinueFrom([], "");
      OnePart([], "");
      assert Render([]) == "/";
    } else {
      RenderIsSlashed(parts);
      forall n | n in parts ensures '/' !in n { assert Name(n); }
      SplitSlashed(parts);
      LeadingSlash(parts);
    }
  }

  // "~" is the home, and "~/n" the n in it, from any directory.
  lemma HomePaths(user: string, cwd: string, n: string)
    requires Name(user) && Name(n) && Trim("~/" + n) == "~/" + n
    ensures Resolve(user, cwd, "~") == Home(user) && Resolve(user, cwd, "~/" + n) == Child(Home(user), n)
  {
    TrimmedEnds("~");
    HomeRendered(user);
    TildeName(user, cwd, n);
    HomeChildWalk(user, n);
    HomeRenderedChild(user, n);
  }

  lemma TildeName(user: string, cwd: string, n: string)
    requires Name(n) && Trim("~/" + n) == "~/" + n
    ensures Resolve(user, cwd, "~/" + n) == Render(WalkFrom([], Split(Home(user) + "/" + n, '/')))
  {
    LeadsHome(n);
    assert ("~/" + n)[2..] == n;
    assert TrimStart("~/" + n, "~/") == n;
  }

  lemma HomeRendered(user: string)
    requires Name(user)
    ensures WalkFrom([], Split(Home(user), '/')) == ["User", user] && Render(["User", user]) == Home(user)
  {
    var parts := ["User", user];
    RenderIsSlashed(parts);
    SlashedTwo(parts);
    assert parts[2..] == [];
    assert Slashed(parts) == "/User/" + user;
    SplitSlashed(parts);
    LeadingSlash(parts);
  }

  lemma HomeRenderedChild(user: string, n: string)
    requires Render(["User", user]) == Home(user)
    ensures Render(["User", user] + [n]) == Child(Home(user), n)
  {
    var parts := ["User", user];
    RenderIsSlashed(parts);
    RenderIsSlashed(parts + [n]);
    SlashedConcat(parts, [n]);
    assert Slashed([n]) == "/" + n;
    Regroup(Home(user), "/", n);
  }

  // ---- The service ------------------------------------------------------------------------------------

  class Shell {
    const user: string
    var cwd: string

    ghost predicate Valid()
      reads this
    {
      Clean(cwd)
    }

    constructor (user: string)
      requires Name(user)
      ensures Valid() && this.user == user && cwd == Home(user)
    {
      this.user := user;
      cwd := "/User/" + user;
      HomeIsClean(user);
    }

    method Expand(p: string) returns (full: string)
      ensures full == Absolute(user, cwd, p)
    {
      if "/" <= p {
        full := p;
      } else if p == "~" {
        full := "/User/" + user;
      } else if "~/" <= p {
        full := "/User/" + user + "/" + TrimStart(p, "~/");
      } else if cwd == "/" {
        full := "/" + p;
      } else {
        full := cwd + "/" + p;
      }
    }

    method ResolvePath(path: string) returns (r: string)
      ensures r == Resolve(user, cwd, path)
    {
      var p := Trim(path);
      if p == "" { return cwd; }
      var full := Expand(p);
      var pieces := Split(full, '/');
      var parts: seq<string> := [];
      assert pieces[..0] == [];
      for i := 0 to |pieces|
        invariant parts == WalkFrom([], pieces[..i])
      {
        var part := pieces[i];
        assert pieces[..i + 1][..i] == pieces[..i];
        if part == "" || part == "." { continue; }
        if part == ".." {
          if parts != [] { parts := parts[..|parts| - 1]; }
        } else {
          parts := parts + [part];
        }
      }
      assert pieces[..|pieces|] == pieces;
      r := "/" + Join(parts, '/');
    }

    method Chdir(path: string) returns (r: string)
      requires Valid()
      modifies this
      ensures Valid() && cwd == r == Resolve(user, old(cwd), path)
    {
      r := ResolvePath(path);
      ResolveIsClean(user, cwd, path);
      cwd := r;
    }
  }
}
