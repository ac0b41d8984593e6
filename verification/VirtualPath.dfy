/**
  Virtual paths as the storage service sees them: normalisation, parent and file name,
  the subtree relation on strings, and the mapping to the physical tree.
 */
module VirtualPath {
  import opened Text

  // ---- Components -----------------------------------------------------------------

  // A path component that survives normalisation.
  predicate ValidName(n: string) {
    n != "" && n != "." && n != ".." && '/' !in n && '\\' !in n
  }

  predicate ValidParts(parts: seq<string>) {
    forall n :: n in parts ==> ValidName(n)
  }

  // "/a" + "/b" + ...; the empty list gives "".
  function Slashed(parts: seq<string>): string {
    if parts == [] then "" else "/" + parts[0] + Slashed(parts[1..])
  }

  // The string form of a component list.
  function Render(parts: seq<string>): string {
    "/" + Join(parts, '/')
  }

  // The non-empty pieces between slashes: `path.split('/').filter(|x| !x.is_empty())`.
  function Components(p: string): seq<string> {
    Filter(Split(p, '/'), (n: string) => n != "")
  }

  // storage_service.rs normalize_path
  function NormalizePath(p: string): string {
    var s := if "/" <= p then p[1..] else p;
    var t := Replace(s, '\\', '/');
    Render(Filter(Split(t, '/'), (n: string) => n != "" && n != "." && n != ".."))
  }

  ghost predicate Normal(p: string) {
    exists parts :: ValidParts(parts) && p == Render(parts)
  }

  lemma {:induction false} SlashedConcat(a: seq<string>, b: seq<string>)
    ensures Slashed(a + b) == Slashed(a) + Slashed(b)
  {
    if a == [] {
      assert a + b == b;
    } else {
      assert (a + b)[1..] == a[1..] + b;
      SlashedConcat(a[1..], b);
    }
  }

  lemma {:induction false} RenderIsSlashed(parts: seq<string>)
    requires parts != []
    ensures Render(parts) == Slashed(parts)
  {
    if |parts| == 1 {
      assert parts[1..] == [];
    } else {
      RenderIsSlashed(parts[1..]);
    }
  }

  lemma SplitLeading(s: string, parts: seq<string>)
    requires "/" <= s && Split(s, '/') == [""] + parts
    ensures Split(s[1..], '/') == parts
  {
    assert s == "" + ['/'] + s[1..];
    SplitAtSeparator("", s[1..], '/');
    assert Split(s[1..], '/') == (Split("", '/') + Split(s[1..], '/'))[1..];
    assert parts == ([""] + parts)[1..];
  }

  lemma SplitCons(n: string, tail: string, rest: seq<string>)
    requires '/' !in n
    requires tail == "" || "/" <= tail
    requires Split(tail, '/') == [""] + rest
    ensures Split("/" + n + tail, '/') == ["", n] + rest
  {
    SplitWithout(n, '/');
    assert Split("", '/') == [""];
    assert "" + ['/'] + (n + tail) == "/" + n + tail;
    SplitAtSeparator("", n + tail, '/');
    if tail == "" {
      assert n + tail == n;
      assert rest == [];
    } else {
      assert n + tail == n + ['/'] + tail[1..];
      SplitAtSeparator(n, tail[1..], '/');
      SplitLeading(tail, rest);
    }
  }

  lemma {:induction false} SplitSlashed(parts: seq<string>)
    requires forall n :: n in parts ==> '/' !in n
    ensures Split(Slashed(parts), '/') == [""] + parts
  {
    if parts != [] {
      SplitSlashed(parts[1..]);
      SplitCons(parts[0], Slashed(parts[1..]), parts[1..]);
      assert ["", parts[0]] + parts[1..] == [""] + parts;
    }
  }

  // Reading the components back is the inverse of rendering them.
  lemma {:induction false} ComponentsOfRender(parts: seq<string>)
    requires ValidParts(parts)
    ensures Components(Render(parts)) == parts
  {
    var keep := (n: string) => n != "";
    if parts == [] {
      assert Split("", '/') == [""];
      assert Render(parts) == "/";
      assert Split("/", '/') == ["", ""];
    } else {
      RenderIsSlashed(parts);
      SplitSlashed(parts);
      FilterConcat([""], parts, keep);
      FilterAll(parts, keep);
      assert Filter([""], keep) == [];
    }
  }

  lemma NormalizeGivesValidParts(p: string)
    ensures exists parts :: ValidParts(parts) && NormalizePath(p) == Render(parts)
  {
    var s := if "/" <= p then p[1..] else p;
    var t := Replace(s, '\\', '/');
    var keep := (n: string) => n != "" && n != "." && n != "..";
    SplitPieces(t, '/');
    var parts := Filter(Split(t, '/'), keep);
    assert '\\' !in t;
    assert ValidParts(parts);
    assert NormalizePath(p) == Render(parts);
  }

  lemma NormalizeRender(parts: seq<string>)
    requires ValidParts(parts)
    ensures NormalizePath(Render(parts)) == Render(parts)
  {
    var keep := (n: string) => n != "" && n != "." && n != "..";
    var p := Render(parts);
    var s := p[1..];
    if parts == [] {
      assert s == "" && Replace(s, '\\', '/') == "";
      assert Split("", '/') == [""];
      assert Filter([""], keep) == [];
    } else {
      RenderIsSlashed(parts);
      SlashedHasNoBackslash(parts);
      assert Replace(s, '\\', '/') == s;
      SplitSlashed(parts);
      SplitLeading(p, parts);
      FilterAll(parts, keep);
    }
  }

  lemma {:induction false} SlashedHasNoBackslash(parts: seq<string>)
    requires ValidParts(parts)
    ensures '\\' !in Slashed(parts)
  {
    if parts != [] {
      assert ValidName(parts[0]);
      SlashedHasNoBackslash(parts[1..]);
    }
  }

  // normalize_path is idempotent, and its fixed points are exactly the rendered paths.
  lemma NormalizeIdempotent(p: string)
    ensures Normal(NormalizePath(p))
    ensures NormalizePath(NormalizePath(p)) == NormalizePath(p)
    ensures Normal(p) <==> NormalizePath(p) == p
  {
    NormalizeGivesValidParts(p);
    var parts :| ValidParts(parts) && NormalizePath(p) == Render(parts);
    NormalizeRender(parts);
    if Normal(p) {
      var own :| ValidParts(own) && p == Render(own);
      NormalizeRender(own);
    }
  }

  function Stripped(p: string): string {
    if "/" <= p then p[1..] else p
  }

  // The components normalisation leaves of a text without its leading slash.
  function Kept(s: string): seq<string> {
    Filter(Split(Replace(s, '\\', '/'), '/'), (n: string) => n != "" && n != "." && n != "..")
  }

  lemma KeptAppend(s: string, sep: char, n: string)
    requires (sep == '/' || sep == '\\') && '/' !in n && '\\' !in n
    ensures Kept(s + [sep] + n) == Kept(s) + if ValidName(n) then [n] else []
    ensures Kept(n) == if ValidName(n) then [n] else []
  {
    var keep := (n: string) => n != "" && n != "." && n != "..";
    assert Replace(n, '\\', '/') == n;
    assert Replace(s + [sep] + n, '\\', '/') == Replace(s, '\\', '/') + ['/'] + n;
    SplitAtSeparator(Replace(s, '\\', '/'), n, '/');
    SplitWithout(n, '/');
    FilterConcat(Split(Replace(s, '\\', '/'), '/'), [n], keep);
    assert [n][1..] == [] && Filter([], keep) == [];
  }

  // One more piece after a slash or a backslash: a valid name is appended, any other piece, ".." among
  // them, is dropped. With the empty path, which gives the root, this determines the whole function.
  lemma NormalizeStep(p: string, sep: char, n: string) returns (parts: seq<string>)
    requires (sep == '/' || sep == '\\') && '/' !in n && '\\' !in n
    ensures ValidParts(parts) && NormalizePath(p) == Render(parts)
    ensures NormalizePath(p + [sep] + n) == Render(if ValidName(n) then parts + [n] else parts)
    ensures p == "" ==> parts == []
  {
    parts := Kept(Stripped(p));
    KeptIsValid(Stripped(p));
    NormalizeStripped(p);
    if p == "" { FirstStep(sep, n); } else { LaterStep(p, sep, n); }
    assert parts + [] == parts;
  }

  lemma FirstStep(sep: char, n: string)
    requires (sep == '/' || sep == '\\') && '/' !in n && '\\' !in n
    ensures Kept("") == [] && NormalizePath("" + [sep] + n) == Render(Kept("") + if ValidName(n) then [n] else [])
  {
    var q := "" + [sep] + n;
    assert Split("", '/') == [""] && Replace("", '\\', '/') == "";
    KeptAppend("", sep, n);
    if sep == '/' { assert "/" <= q && q[1..] == n; } else { assert q[0] == '\\'; }
  }

  lemma LaterStep(p: string, sep: char, n: string)
    requires p != "" && (sep == '/' || sep == '\\') && '/' !in n && '\\' !in n
    ensures NormalizePath(p + [sep] + n) == Render(Kept(Stripped(p)) + if ValidName(n) then [n] else [])
  {
    KeptAppend(Stripped(p), sep, n);
    StrippedAppend(p, [sep] + n);
    Regroup(p, [sep], n);
    Regroup(Stripped(p), [sep], n);
    NormalizeStripped(p + [sep] + n);
  }

  lemma NormalizeStripped(p: string)
    ensures NormalizePath(p) == Render(Kept(Stripped(p)))
  {
  }

  lemma StrippedAppend(p: string, tail: string)
    requires p != ""
    ensures Stripped(p + tail) == Stripped(p) + tail
  {
    assert (p + tail)[0] == p[0];
  }

  lemma KeptIsValid(s: string)
    ensures ValidParts(Kept(s))
  {
    SplitPieces(Replace(s, '\\', '/'), '/');
    assert '\\' !in Replace(s, '\\', '/');
  }

  lemma NormalParts(p: string) returns (parts: seq<string>)
    requires Normal(p)
    ensures ValidParts(parts) && p == Render(parts) && Components(p) == parts
  {
    parts :| ValidParts(parts) && p == Render(parts);
    ComponentsOfRender(parts);
  }

  // ---- The subtree relation on strings ---------------------------------------------

  // a is a proper ancestor of p: p continues a with a slash.
  predicate Above(a: string, p: string) {
    |a| < |p| && p[|a|] == '/' && p[..|a|] == a
  }

  // p is a or lies below a.
  predicate Under(p: string, a: string) {
    p == a || Above(a, p)
  }

  function Child(dir: string, name: string): string {
    dir + "/" + name
  }

  // `to || substring(p from length(from) + 1)`; past the end PostgreSQL's substring is ''.
  function Rebase(p: string, from: string, to: string): string {
    to + if |from| <= |p| then p[|from|..] else ""
  }

  lemma AboveTransitive(a: string, b: string, c: string)
    requires Under(b, a) && Under(c, b)
    ensures Under(c, a)
    ensures Above(a, b) || Above(b, c) ==> Above(a, c)
  {
    if Above(a, b) && Above(b, c) {
      assert c[..|b|][|a|] == c[|a|];
      assert c[..|b|][..|a|] == c[..|a|];
    }
  }

  // Two ancestors of one path are comparable.
  lemma AncestorsComparable(a: string, b: string, p: string)
    requires Under(p, a) && Under(p, b)
    ensures Under(a, b) || Under(b, a)
  {
    if |a| <= |b| {
      assert p[..|b|][..|a|] == p[..|a|];
      if |a| < |b| { assert p[..|b|][|a|] == p[|a|]; }
    } else {
      assert p[..|a|][..|b|] == p[..|b|];
      assert p[..|a|][|b|] == p[|b|];
    }
  }

  lemma AboveChild(a: string, dir: string, name: string)
    requires '/' !in name
    ensures Above(a, Child(dir, name)) <==> Under(dir, a)
  {
    var p := Child(dir, name);
    assert p[..|dir|] == dir && p[|dir|] == '/';
    assert forall i :: |dir| < i < |p| ==> p[i] in name;
    if Above(a, p) {
      if |a| < |dir| {
        assert dir[|a|] == p[|a|];
        assert dir[..|a|] == p[..|a|];
      }
    }
    if Above(a, dir) {
      assert p[..|dir|][..|a|] == p[..|a|];
    }
  }

  lemma ChildInjective(d1: string, n1: string, d2: string, n2: string)
    requires '/' !in n1 && '/' !in n2
    requires Child(d1, n1) == Child(d2, n2)
    ensures d1 == d2 && n1 == n2
  {
    var p := Child(d1, n1);
    assert p == d1 + "/" + n1 == d2 + "/" + n2;
    assert p[|d1|] == '/' && p[|d2|] == '/';
    assert forall i :: |d1| < i < |p| ==> p[i] in n1;
    assert forall i :: |d2| < i < |p| ==> p[i] in n2;
    assert |d1| == |d2|;
    assert d1 == p[..|d1|] == d2;
    assert n1 == p[|d1| + 1..] == n2;
  }

  lemma RebaseUnder(p: string, from: string, to: string)
    requires Under(p, from)
    ensures Under(Rebase(p, from, to), to)
    ensures Rebase(Rebase(p, from, to), to, from) == p
    ensures Rebase(p, from, to) == to <==> p == from
  {
    var q := Rebase(p, from, to);
    if Above(from, p) {
      assert q[..|to|] == to && q[|to|] == p[|from|];
    }
    assert q[|to|..] == p[|from|..];
    assert p == p[..|from|] + p[|from|..];
  }

  lemma RebaseChild(dir: string, name: string, from: string, to: string)
    requires Under(dir, from)
    ensures Rebase(Child(dir, name), from, to) == Child(Rebase(dir, from, to), name)
  {
    assert Child(dir, name)[|from|..] == dir[|from|..] + "/" + name;
    assert to + (dir[|from|..] + "/" + name) == to + dir[|from|..] + "/" + name;
  }

  // ---- parent() and file_name() of a normalised path ---------------------------------

  function LastSlash(p: string): (i: nat)
    requires '/' in p
    ensures i < |p| && p[i] == '/' && '/' !in p[i + 1..]
  {
    if p[|p| - 1] == '/' then |p| - 1 else
      assert p == p[..|p| - 1] + [p[|p| - 1]];
      LastSlash(p[..|p| - 1])
  }

  lemma LastSlashOfChild(dir: string, name: string)
    requires '/' !in name
    ensures LastSlash(Child(dir, name)) == |dir|
    ensures Child(dir, name)[..|dir|] == dir && Child(dir, name)[|dir| + 1..] == name
  {
    var p := Child(dir, name);
    var i := LastSlash(p);
    assert p == p[..i] + "/" + p[i + 1..];
    assert Child(p[..i], p[i + 1..]) == p;
    ChildInjective(p[..i], p[i + 1..], dir, name);
  }

  // Path::file_name() of a path with at least one component.
  function FileName(p: string): string
    requires "/" <= p
  {
    assert p[0] == '/';
    p[LastSlash(p) + 1..]
  }

  function Parent(p: string): string
    requires "/" <= p
  {
    assert p[0] == '/';
    if LastSlash(p) == 0 then "/" else p[..LastSlash(p)]
  }

  lemma SplitLast(dir: string, name: string)
    requires '/' !in name && "/" <= dir
    ensures FileName(Child(dir, name)) == name
    ensures Parent(Child(dir, name)) == dir
  {
    LastSlashOfChild(dir, name);
  }

  // On normalised paths the string relation is the prefix relation on components.
  lemma UnderIsPrefix(d: string, p: string)
    requires Normal(d) && Normal(p) && p != "/"
    ensures Under(d, p) <==> Components(p) <= Components(d)
  {
    var dp := NormalParts(d);
    var pp := NormalParts(p);
    assert Render([]) == "/";
    if Above(p, d) {
      var rest := d[|p| + 1..];
      assert d == p + ['/'] + rest;
      SplitAtSeparator(p, rest, '/');
      FilterConcat(Split(p, '/'), Split(rest, '/'), (n: string) => n != "");
    }
    if pp <= dp {
      var rest := dp[|pp|..];
      assert dp == pp + rest;
      SlashedConcat(pp, rest);
      RenderIsSlashed(pp);
      RenderIsSlashed(dp);
      assert d == p + Slashed(rest);
      if rest == [] { assert d == p; } else { assert d[|p|] == '/'; }
    }
  }

  // ---- From virtual to physical --------------------------------------------------------

  function Home(user: string): string {
    "/User/" + user
  }

  // The namespaces whose requests this model does not route (starts_with tests of the source).
  predicate Foreign(p: string) {
    "/AppData" <= p || "/System" <= p || "/Trash" <= p
  }

  // storage_service.rs resolve_opendal_path, outside /AppData, /System and /Trash.
  function ResolveOpendalPath(username: string, virtualPath: string): string
    requires !Foreign(NormalizePath(virtualPath))
  {
    var clean := NormalizePath(virtualPath);
    if "/User/" <= clean then
      var parts := Components(clean);
      if |parts| <= 2 then "vol1/User/" + (if |parts| == 2 then parts[1] else "")
      else "vol1/User/" + parts[1] + "/" + Join(parts[2..], '/')
    else "vol1/User/" + username + "/" + clean[1..]
  }

  // The directory of the storage root that holds the homes.
  const VOLUME := "vol1"

  // Where the object of a normalised /User path lives, relative to the storage root.
  function Phys(p: string): string {
    "vol1" + p
  }

  // resolve_opendal_path of any spelling of a /User path (see ResolveHomePath).
  function OpPath(p: string): string {
    Phys(NormalizePath(p))
  }

  // What the parent of a /User path resolves to. The parent of a home is not itself below "/User/" and
  // is taken as relative to the user.
  function ParentOp(user: string, dir: string): string {
    if dir == "/User" then Phys(Child(Home(user), "User")) else Phys(dir)
  }

  lemma LeadingName(n1: string, t1: string, n2: string, t2: string)
    requires '/' !in n1 && '/' !in n2
    requires (t1 == "" || "/" <= t1) && "/" <= t2
    requires n1 + t1 == n2 + t2
    ensures n1 == n2 && t1 == t2
  {
    var s := n1 + t1;
    assert forall i :: 0 <= i < |n1| ==> s[i] in n1;
    assert forall i :: 0 <= i < |n2| ==> s[i] in n2;
    assert s[|n2|] == t2[0] == '/';
    assert t1 != "" ==> s[|n1|] == t1[0] == '/';
    assert |n1| == |n2|;
    assert n1 == s[..|n1|] == n2;
    assert t1 == s[|n1|..] == t2;
  }

  lemma Regroup(a: string, b: string, c: string)
    ensures a + (b + c) == a + b + c
  {
  }

  lemma SlashedTwo(parts: seq<string>)
    requires |parts| >= 2
    ensures Slashed(parts) == "/" + parts[0] + "/" + parts[1] + Slashed(parts[2..])
  {
    var a, more := "/" + parts[0], Slashed(parts[2..]);
    assert parts[1..][1..] == parts[2..];
    assert Slashed(parts[1..]) == ("/" + parts[1]) + more;
    Regroup(a, "/" + parts[1], more);
    Regroup(a, "/", parts[1]);
  }

  lemma WithoutSlash(n: string, tail: string, rest: string)
    requires "/" + n + tail == "/User" + rest
    ensures n + tail == "User" + rest
  {
    assert ("/" + n + tail)[1..] == n + tail;
    assert ("/User" + rest)[1..] == "User" + rest;
  }

  // A rendered list under "/User/" starts with "User" and goes on.
  lemma StartsWithUser(parts: seq<string>, rest: string)
    requires ValidParts(parts) && Slashed(parts) == "/User" + rest && "/" <= rest
    ensures |parts| >= 2 && parts[0] == "User"
  {
    assert ValidName(parts[0]);
    WithoutSlash(parts[0], Slashed(parts[1..]), rest);
    LeadingName(parts[0], Slashed(parts[1..]), "User", rest);
  }

  lemma HomeParts(p: string) returns (parts: seq<string>)
    requires Normal(p) && "/User/" <= p
    ensures ValidParts(parts) && p == Render(parts) && Components(p) == parts
    ensures |parts| >= 2 && parts[0] == "User"
    ensures p == Home(parts[1]) + Slashed(parts[2..])
    ensures Under(p, Home(parts[1]))
    ensures p == Home(parts[1]) <==> |parts| == 2
  {
    parts := NormalParts(p);
    assert Render([]) == "/";
    RenderIsSlashed(parts);
    assert p == "/User" + p[5..];
    StartsWithUser(parts, p[5..]);
    SlashedTwo(parts);
    var more := Slashed(parts[2..]);
    assert "/User" + "/" + parts[1] == Home(parts[1]);
    BelowHome(Home(parts[1]), more);
    if |parts| > 2 { assert more[0] == '/'; }
  }

  lemma BelowHome(home: string, more: string)
    requires more == "" || more[0] == '/'
    ensures Under(home + more, home)
  {
    if more != "" { assert (home + more)[..|home|] == home; }
  }

  // resolve_opendal_path maps the /User tree onto "vol1" rigidly.
  lemma ResolveHomePath(username: string, p: string)
    requires Normal(p) && "/User/" <= p
    ensures !Foreign(p) && NormalizePath(p) == p
    ensures ResolveOpendalPath(username, p) == Phys(p)
  {
    NormalizeIdempotent(p);
    HomeIsNotForeign(p);
    var parts := HomeParts(p);
    ResolveByParts(username, p, parts);
    VolumeForm(parts);
  }

  lemma HomeIsNotForeign(p: string)
    requires "/User/" <= p
    ensures !Foreign(p)
  {
    assert p[1] == 'U';
  }

  lemma VolumeForm(parts: seq<string>)
    requires |parts| >= 2
    ensures (if |parts| == 2 then "vol1/User/" + parts[1] else "vol1/User/" + parts[1] + "/" + Join(parts[2..], '/'))
            == Phys(Home(parts[1]) + Slashed(parts[2..]))
  {
    UnderVolume(parts[1]);
    if |parts| > 2 {
      RenderIsSlashed(parts[2..]);
      DeepUnderVolume(parts[1], Join(parts[2..], '/'));
    } else {
      assert parts[2..] == [];
      assert Home(parts[1]) + "" == Home(parts[1]);
    }
  }

  lemma ResolveByParts(username: string, p: string, parts: seq<string>)
    requires NormalizePath(p) == p && "/User/" <= p && !Foreign(p) && Components(p) == parts && |parts| >= 2
    ensures ResolveOpendalPath(username, p) ==
            if |parts| == 2 then "vol1/User/" + parts[1] else "vol1/User/" + parts[1] + "/" + Join(parts[2..], '/')
  {
  }

  lemma UnderVolume(owner: string)
    ensures "vol1/User/" + owner == "vol1" + Home(owner)
  {
    assert "vol1/User/" == "vol1" + "/User/";
    Regroup("vol1", "/User/", owner);
  }

  lemma DeepUnderVolume(owner: string, rest: string)
    ensures "vol1/User/" + owner + "/" + rest == "vol1" + (Home(owner) + ("/" + rest))
  {
    UnderVolume(owner);
    Regroup("vol1", Home(owner), "/" + rest);
    Regroup("vol1" + Home(owner), "/", rest);
  }

  // Distinct normalised /User paths never share an object, and resolving a parent then
  // appending "/name" addresses the object of the joined path.
  lemma ResolveInjective(u1: string, p1: string, u2: string, p2: string)
    requires Normal(p1) && "/User/" <= p1 && Normal(p2) && "/User/" <= p2
    ensures !Foreign(NormalizePath(p1)) && !Foreign(NormalizePath(p2))
    ensures ResolveOpendalPath(u1, p1) == ResolveOpendalPath(u2, p2) <==> p1 == p2
  {
    ResolveHomePath(u1, p1);
    ResolveHomePath(u2, p2);
    if Phys(p1) == Phys(p2) {
      assert p1 == Phys(p1)[4..] == Phys(p2)[4..] == p2;
    }
  }

  lemma VolumeChild(dir: string, name: string)
    ensures "vol1" + dir + "/" + name == Phys(Child(dir, name))
  {
    Regroup("vol1", dir, "/");
    Regroup("vol1", dir + "/", name);
  }

  lemma ResolveParent(user: string, dir: string)
    requires Normal(dir) && ("/User/" <= dir || dir == "/User")
    ensures !Foreign(NormalizePath(dir)) && ResolveOpendalPath(user, dir) == ParentOp(user, dir)
  {
    NormalizeIdempotent(dir);
    if dir == "/User" {
      assert dir[1] == 'U' && dir[1..] == "User";
      UnderVolume(user);
      VolumeChild(Home(user), "User");
    } else {
      ResolveHomePath(user, dir);
    }
  }

  lemma NormalChild(dir: string, name: string)
    requires Normal(dir) && dir != "/" && ValidName(name)
    ensures Normal(Child(dir, name))
  {
    var parts := NormalParts(dir);
    assert Render([]) == "/";
    SlashedConcat(parts, [name]);
    RenderIsSlashed(parts);
    RenderIsSlashed(parts + [name]);
    assert Slashed([name]) == "/" + name;
    assert Child(dir, name) == Render(parts + [name]);
    assert ValidParts(parts + [name]);
  }

  lemma HomeChild(dir: string, name: string)
    requires "/User/" <= dir
    ensures "/User/" <= Child(dir, name)
    ensures Phys(Child(dir, name)) == Phys(dir) + "/" + name
  {
  }

  // Appending to a normalised path cannot climb out of it.
  lemma NormalizeAppend(dir: string, x: string)
    requires Normal(dir) && dir != "/"
    ensures Under(NormalizePath(dir + "/" + x), dir)
  {
    var keep := (n: string) => n != "" && n != "." && n != "..";
    var parts := NormalParts(dir);
    assert Render([]) == "/";
    RenderIsSlashed(parts);
    SlashedHasNoBackslash(parts);
    var p := dir + "/" + x;
    var s := p[1..];
    assert s == dir[1..] + ['/'] + x;
    assert dir[1..] == Replace(dir[1..], '\\', '/');
    assert Replace(s, '\\', '/') == dir[1..] + ['/'] + Replace(x, '\\', '/');
    SplitAtSeparator(dir[1..], Replace(x, '\\', '/'), '/');
    SplitSlashed(parts);
    SplitLeading(dir, parts);
    var more := Split(Replace(x, '\\', '/'), '/');
    FilterConcat(parts, more, keep);
    FilterAll(parts, keep);
    var all := parts + Filter(more, keep);
    assert NormalizePath(p) == Render(all);
    RenderIsSlashed(all);
    SlashedConcat(parts, Filter(more, keep));
    var tail := Slashed(Filter(more, keep));
    assert Render(all) == dir + tail;
    if tail != "" { assert tail[0] == '/'; }
  }

  // A backslash in a name is one more separator.
  lemma BackslashIsSlash(dir: string, a: string, b: string)
    requires "/" <= dir
    ensures NormalizePath(Child(dir, a + "\\" + b)) == NormalizePath(Child(Child(dir, a), b))
  {
    var p, q := Child(dir, a + "\\" + b), Child(Child(dir, a), b);
    assert p == dir + "/" + a + "\\" + b && q == dir + "/" + a + "/" + b;
    assert Replace(p[1..], '\\', '/') == Replace(q[1..], '\\', '/');
  }

  // Resolving a parent and appending "/" and a name addresses the object of the joined path exactly
  // when the joined path is already normalised.
  lemma ResolveParentThenName(u1: string, dir: string, name: string, u2: string)
    requires Normal(dir) && "/User/" <= dir
    ensures !Foreign(NormalizePath(dir)) && !Foreign(NormalizePath(Child(dir, name)))
    ensures ResolveOpendalPath(u1, dir) + "/" + name == ResolveOpendalPath(u2, Child(dir, name))
            <==> Normal(Child(dir, name))
  {
    var p := Child(dir, name);
    NormalizeAppend(dir, name);
    NormalizeIdempotent(p);
    assert "/User/" <= NormalizePath(p);
    HomeChild(dir, name);
    ResolveHomePath(u1, dir);
    ResolveHomePath(u2, NormalizePath(p));
    assert Phys(p)[4..] == p && Phys(NormalizePath(p))[4..] == NormalizePath(p);
  }

  // ---- Paths below a resolved directory, for a name of any form -----------------------------

  // The pieces of a path that name something: the file system passes over ".".
  function Pieces(op: string): seq<string> {
    Filter(Components(op), (n: string) => n != ".")
  }

  // No piece of the path is "..".
  predicate NoClimb(op: string) {
    ".." !in Components(op)
  }

  // Nothing can be written at a path that ends in a slash, "." or "..".
  predicate Refused(op: string) {
    op == "" || op[|op| - 1] == '/' || (Components(op) != [] && !NamesFile(Components(op)[|Components(op)| - 1]))
  }

  predicate NamesFile(piece: string) {
    piece != "." && piece != ".."
  }

  // The object of a path without "..".
  function ObjectOf(op: string): string {
    Join(Pieces(op), '/')
  }

  function Front(pieces: seq<string>): seq<string> {
    if pieces == [] then [] else pieces[..|pieces| - 1]
  }

  // Path::parent() of a relative path.
  function PathParent(op: string): string {
    Join(Front(Pieces(op)), '/')
  }

  lemma JoinIsSlashed(first: string, rest: seq<string>)
    ensures Join([first] + rest, '/') == first + Slashed(rest)
  {
    var parts := [first] + rest;
    RenderIsSlashed(parts);
    assert parts[1..] == rest;
    assert Render(parts)[1..] == Join(parts, '/');
    assert ("/" + first + Slashed(rest))[1..] == first + Slashed(rest);
  }

  lemma ComponentsBelow(a: string, b: string)
    ensures Components(a + "/" + b) == Components(a) + Components(b)
  {
    SplitAtSeparator(a, b, '/');
    FilterConcat(Split(a, '/'), Split(b, '/'), (n: string) => n != "");
  }

  lemma PhysComponents(dir: string)
    requires "/" <= dir
    ensures Components(Phys(dir)) == ["vol1"] + Components(dir)
  {
    var rest := dir[1..];
    assert dir == "" + "/" + rest && Phys(dir) == "vol1" + "/" + rest;
    ComponentsBelow("", rest);
    ComponentsBelow("vol1", rest);
    assert Components("") == [];
    SplitWithout("vol1", '/');
    FilterAll(["vol1"], (n: string) => n != "");
  }

  lemma PiecesBelow(a: string, b: string)
    ensures Pieces(a + "/" + b) == Pieces(a) + Pieces(b)
  {
    ComponentsBelow(a, b);
    FilterConcat(Components(a), Components(b), (n: string) => n != ".");
  }

  // A resolved directory has no dots.
  lemma PhysPieces(dir: string, dparts: seq<string>)
    requires ValidParts(dparts) && "/" <= dir && Components(dir) == dparts
    ensures Pieces(Phys(dir)) == [VOLUME] + dparts && Components(Phys(dir)) == [VOLUME] + dparts
  {
    PhysComponents(dir);
    FilterAll([VOLUME] + dparts, (n: string) => n != ".");
  }

  // Whether the joined path is refused, and whether it climbs, is up to the name.
  lemma JoinedForm(dir: string, name: string)
    requires Normal(dir) && "/User/" <= dir
    ensures Refused(Phys(dir) + "/" + name) <==> Refused(name)
    ensures NoClimb(Phys(dir) + "/" + name) <==> NoClimb(name)
    ensures Pieces(Phys(dir) + "/" + name) == ([VOLUME] + Components(dir)) + Pieces(name)
  {
    var dparts := NormalParts(dir);
    PhysPieces(dir, dparts);
    ComponentsBelow(Phys(dir), name);
    PiecesBelow(Phys(dir), name);
    var full := Phys(dir) + "/" + name;
    if name != "" {
      assert full[|full| - 1] == name[|name| - 1];
      if name[|name| - 1] != '/' { SomePiece(name); }
    }
  }

  // A path that does not end in a slash has a piece.
  lemma SomePiece(name: string)
    requires name != "" && name[|name| - 1] != '/'
    ensures Components(name) != []
  {
    var pieces := Split(name, '/');
    LastSplit(name);
    assert pieces[|pieces| - 1] in pieces;
    assert pieces[|pieces| - 1] in Components(name);
  }

  lemma {:induction false} LastSplit(name: string)
    requires name != "" && name[|name| - 1] != '/'
    ensures Split(name, '/')[|Split(name, '/')| - 1] != ""
  {
    if |name| == 1 {
      assert name[1..] == "" && Split("", '/') == [""];
    } else {
      LastSplit(name[1..]);
    }
  }

  function PiecesParent(dir: string, pieces: seq<string>): string
    requires "/" <= dir
  {
    if pieces == [] then Phys(Parent(dir)) else Phys(dir) + Slashed(pieces[..|pieces| - 1])
  }

  // Where the pieces of a name end up below a directory, and the directory above them. With ".." among
  // them the object is another one.
  lemma JoinedPath(dir: string, name: string)
    requires Normal(dir) && "/User/" <= dir
    ensures ObjectOf(Phys(dir) + "/" + name) == Phys(dir) + Slashed(Pieces(name))
    ensures PathParent(Phys(dir) + "/" + name) == PiecesParent(dir, Pieces(name))
  {
    var dparts := HomeParts(dir);
    RenderIsSlashed(dparts);
    JoinedForm(dir, name);
    JoinedPieces(VOLUME, dparts, Pieces(name));
    if Pieces(name) == [] {
      var front, last := dparts[..|dparts| - 1], dparts[|dparts| - 1];
      assert dparts == front + [last] && last in dparts;
      ParentAlone(Phys(dir) + "/" + name, VOLUME, front, last);
      FrontIsParent(dir, front, last);
    } else {
      ParentBelow(Phys(dir) + "/" + name, VOLUME, dparts, Pieces(name));
    }
  }

  lemma ParentOf(op: string, front: seq<string>, last: string)
    requires Pieces(op) == front + [last]
    ensures PathParent(op) == Join(front, '/')
  {
    assert Pieces(op)[..|Pieces(op)| - 1] == front;
  }

  lemma ParentBelow(op: string, volume: string, dparts: seq<string>, pieces: seq<string>)
    requires pieces != [] && Pieces(op) == ([volume] + dparts) + pieces
    ensures PathParent(op) == volume + Slashed(dparts) + Slashed(pieces[..|pieces| - 1])
  {
    var front, last := pieces[..|pieces| - 1], pieces[|pieces| - 1];
    assert ([volume] + dparts) + pieces == (([volume] + dparts) + front) + [last];
    ParentOf(op, ([volume] + dparts) + front, last);
    JoinedPieces(volume, dparts, front);
  }

  lemma ParentAlone(op: string, volume: string, front: seq<string>, last: string)
    requires Pieces(op) == ([volume] + (front + [last])) + []
    ensures PathParent(op) == volume + Slashed(front)
  {
    assert ([volume] + (front + [last])) + [] == ([volume] + front) + [last];
    ParentOf(op, [volume] + front, last);
    JoinIsSlashed(volume, front);
  }

  lemma JoinedPieces(volume: string, dparts: seq<string>, pieces: seq<string>)
    ensures Join(([volume] + dparts) + pieces, '/') == volume + Slashed(dparts) + Slashed(pieces)
  {
    assert ([volume] + dparts) + pieces == [volume] + (dparts + pieces);
    JoinIsSlashed(volume, dparts + pieces);
    SlashedConcat(dparts, pieces);
    Regroup(volume, Slashed(dparts), Slashed(pieces));
  }

  lemma FrontIsParent(dir: string, front: seq<string>, last: string)
    requires '/' !in last && front != [] && dir == Slashed(front + [last])
    ensures "/" <= dir && Parent(dir) == Slashed(front)
  {
    LastPiece(front, last);
    LeadingSlash(front);
    SplitLast(Slashed(front), last);
  }

  lemma LeadingSlash(parts: seq<string>)
    requires parts != []
    ensures "/" <= Slashed(parts)
  {
  }

  lemma LastPiece(front: seq<string>, last: string)
    ensures Slashed(front + [last]) == Child(Slashed(front), last)
  {
    SlashedConcat(front, [last]);
    assert Slashed([last]) == "/" + last;
    Regroup(Slashed(front), "/", last);
  }

  lemma NormalHasNoBackslash(p: string)
    requires Normal(p)
    ensures '\\' !in p
  {
    var parts := NormalParts(p);
    assert Render([]) == "/";
    if parts != [] {
      RenderIsSlashed(parts);
      SlashedHasNoBackslash(parts);
    }
  }
}
