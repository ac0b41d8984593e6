/** PostgreSQL's LIKE, and what the unescaped patterns `path || '/%'` of the service select. */
module Like {
  import opened Text
  import opened VirtualPath

  // '%' any run, '_' any one character, '\' takes the next pattern character literally.
  predicate Matches(s: string, pat: string)
    decreases |s| + |pat|
  {
    if pat == "" then s == ""
    else if pat[0] == '%' then Matches(s, pat[1..]) || (s != "" && Matches(s[1..], pat))
    else if pat[0] == '_' then s != "" && Matches(s[1..], pat[1..])
    else if pat[0] == '\\' then |pat| >= 2 && s != "" && s[0] == pat[1] && Matches(s[1..], pat[2..])
    else s != "" && s[0] == pat[0] && Matches(s[1..], pat[1..])
  }

  predicate WildcardFree(p: string) {
    '%' !in p && '_' !in p
  }

  // `dir = p or dir like p || '/%'`
  predicate Selects(p: string, dir: string) {
    dir == p || Matches(dir, p + "/%")
  }

  lemma {:induction false} PercentMatchesAll(s: string)
    ensures Matches(s, "%")
  {
    if s != "" { PercentMatchesAll(s[1..]); }
  }

  lemma {:induction false} LiteralPrefix(s: string, p: string, rest: string)
    requires WildcardFree(p) && '\\' !in p
    ensures Matches(s, p + rest) <==> p <= s && Matches(s[|p|..], rest)
  {
    if p == "" {
      assert p + rest == rest;
    } else {
      assert (p + rest)[1..] == p[1..] + rest;
      assert p[0] in p;
      if s != "" {
        LiteralPrefix(s[1..], p[1..], rest);
        if s[0] == p[0] {
          assert p <= s <==> p[1..] <= s[1..] by { assert p == [p[0]] + p[1..] && s == [s[0]] + s[1..]; }
          if p <= s { assert s[|p|..] == s[1..][|p[1..]|..]; }
        }
      }
    }
  }

  // Without wildcards the pattern selects exactly the proper descendants.
  lemma LiteralSubtree(p: string, dir: string)
    requires WildcardFree(p) && '\\' !in p
    ensures Matches(dir, p + "/%") <==> Above(p, dir)
  {
    assert p + "/%" == (p + "/") + "%";
    LiteralPrefix(dir, p + "/", "%");
    if p + "/" <= dir {
      PercentMatchesAll(dir[|p + "/"|..]);
      assert dir[..|p| + 1] == p + "/";
      assert dir[|p|] == dir[..|p| + 1][|p|];
      assert dir[..|p|] == dir[..|p| + 1][..|p|];
    }
    if Above(p, dir) {
      assert dir[..|p| + 1] == dir[..|p|] + [dir[|p|]];
      assert p + "/" == dir[..|p| + 1];
    }
  }

  lemma {:induction false} MatchConcat(a: string, p: string, b: string, q: string)
    requires Matches(a, p) && Matches(b, q) && '\\' !in p
    ensures Matches(a + b, p + q)
    decreases |a| + |p|
  {
    if p == "" {
      assert a + b == b && p + q == q;
    } else {
      assert (p + q)[1..] == p[1..] + q;
      assert p[0] in p;
      if p[0] == '%' && Matches(a, p[1..]) {
        MatchConcat(a, p[1..], b, q);
      } else if p[0] == '%' {
        assert (a + b)[1..] == a[1..] + b;
        MatchConcat(a[1..], p, b, q);
      } else {
        assert (a + b)[1..] == a[1..] + b;
        MatchConcat(a[1..], p[1..], b, q);
      }
    }
  }

  lemma {:induction false} MatchesItself(p: string)
    requires '\\' !in p
    ensures Matches(p, p)
  {
    if p != "" {
      assert p[0] in p;
      MatchesItself(p[1..]);
      if p[0] == '%' { assert Matches(p[1..], p[1..]); assert Matches(p[1..], p); }
    }
  }

  // With or without wildcards, everything below a path is selected.
  lemma DescendantsSelected(p: string, dir: string)
    requires '\\' !in p && Above(p, dir)
    ensures Matches(dir, p + "/%")
  {
    MatchesItself(p + "/");
    var rest := dir[|p| + 1..];
    PercentMatchesAll(rest);
    MatchConcat(p + "/", p + "/", rest, "%");
    assert dir == dir[..|p|] + [dir[|p|]] + rest;
    assert (p + "/") + rest == dir && (p + "/") + "%" == p + "/%";
  }

  lemma AnyCharacter(c: char, wildcard: char)
    requires wildcard == '%' || wildcard == '_'
    ensures Matches([c], [wildcard])
  {
    assert [wildcard][1..] == "" && [c][1..] == "";
    assert Matches("", "");
    assert Matches("", [wildcard]) || wildcard == '_';
  }

  lemma SubstituteWildcard(a: string, wildcard: char, b: string, c: char)
    requires wildcard == '%' || wildcard == '_'
    requires '\\' !in a && '\\' !in b
    ensures Matches(a + ([c] + (b + "/x")), (a + ([wildcard] + b)) + "/%")
  {
    TailMatches(b);
    AnyCharacter(c, wildcard);
    MatchConcat([c], [wildcard], b + "/x", b + "/%");
    MatchesItself(a);
    MatchConcat(a, a, [c] + (b + "/x"), [wildcard] + (b + "/%"));
    Regroup(a, [wildcard] + b, "/%");
    Regroup([wildcard], b, "/%");
  }

  lemma TailMatches(b: string)
    requires '\\' !in b
    ensures Matches(b + "/x", b + "/%")
  {
    MatchesItself(b);
    PercentMatchesAll("x");
    MatchesItself("/");
    MatchConcat("/", "/", "x", "%");
    assert "/" + "%" == "/%" && "/" + "x" == "/x";
    MatchConcat(b, b, "/x", "/%");
  }

  lemma ValidSubstitute(n: string, i: nat, c: char)
    requires ValidName(n) && i < |n| && c in "xy"
    ensures ValidName(n[..i] + [c] + n[i + 1..])
  {
    var n' := n[..i] + [c] + n[i + 1..];
    assert n'[i] == c;
    assert forall k :: 0 <= k < |n| && k != i ==> n'[k] == n[k];
  }

  // Replacing a wildcard by an ordinary character and going one level down stays normalised.
  lemma NormalStranger(p: string) returns (a: string, wildcard: char, b: string)
    requires Normal(p) && !WildcardFree(p)
    ensures p == a + ([wildcard] + b) && (wildcard == '%' || wildcard == '_')
    ensures '\\' !in a && '\\' !in b
    ensures forall c :: c in "xy" ==> Normal(a + ([c] + (b + "/x")))
  {
    var parts := NormalParts(p);
    assert Render([]) == "/";
    RenderIsSlashed(parts);
    var j := WildcardPart(parts);
    var n := parts[j];
    var i :| 0 <= i < |n| && (n[i] == '%' || n[i] == '_');
    wildcard := n[i];
    a, b := SplitAround(parts, j, i);
    SlashedHasNoBackslash(parts);
    forall c | c in "xy" ensures Normal(a + ([c] + (b + "/x"))) {
      NormalSubstitute(parts, j, i, a, b, c);
    }
  }

  lemma NormalSubstitute(parts: seq<string>, j: nat, i: nat, a: string, b: string, c: char)
    requires j < |parts| && i < |parts[j]| && ValidParts(parts) && c in "xy"
    requires a == Slashed(parts[..j]) + "/" + parts[j][..i]
    requires b == parts[j][i + 1..] + Slashed(parts[j + 1..])
    ensures Normal(a + ([c] + (b + "/x")))
  {
    SlashedUpdate(parts, j, i, a, b, c);
    ValidSubstitute(parts[j], i, c);
    var parts' := parts[j := parts[j][..i] + [c] + parts[j][i + 1..]];
    assert ValidParts(parts');
    RenderIsSlashed(parts');
    assert Normal(Slashed(parts'));
    NormalChild(Slashed(parts'), "x");
    assert Child(Slashed(parts'), "x") == a + ([c] + (b + "/x"));
  }

  // A path with a wildcard sweeps in a stranger: a normalised directory outside its subtree,
  // which the third UPDATE of a rename to `to` would move.
  lemma WildcardSweepsStranger(p: string, to: string) returns (stranger: string)
    requires Normal(p) && !WildcardFree(p)
    ensures Normal(stranger) && Matches(stranger, p + "/%") && !Under(stranger, p)
    ensures |stranger| > |p| && Rebase(stranger, p, to) != stranger
  {
    var a, wildcard, b := NormalStranger(p);
    var c := if to == a + (['x'] + b) then 'y' else 'x';
    stranger := a + ([c] + (b + "/x"));
    SubstituteWildcard(a, wildcard, b, c);
    assert stranger[|a|] == c && p[|a|] == wildcard;
    assert stranger == (a + ([c] + b)) + "/x";
    assert stranger[|p|..] == "/x";
  }

  // The text before and after character i of component j.
  lemma SplitAround(parts: seq<string>, j: nat, i: nat) returns (a: string, b: string)
    requires j < |parts| && i < |parts[j]|
    ensures a == Slashed(parts[..j]) + "/" + parts[j][..i]
    ensures b == parts[j][i + 1..] + Slashed(parts[j + 1..])
    ensures Slashed(parts) == a + ([parts[j][i]] + b)
  {
    var c := parts[j];
    a, b := Slashed(parts[..j]) + "/" + c[..i], c[i + 1..] + Slashed(parts[j + 1..]);
    assert parts == parts[..j] + ([c] + parts[j + 1..]);
    SlashedConcat(parts[..j], [c] + parts[j + 1..]);
    assert ([c] + parts[j + 1..])[1..] == parts[j + 1..];
    assert c == c[..i] + [c[i]] + c[i + 1..];
  }

  lemma SlashedUpdate(parts: seq<string>, j: nat, i: nat, a: string, b: string, c: char)
    requires j < |parts| && i < |parts[j]|
    requires a == Slashed(parts[..j]) + "/" + parts[j][..i]
    requires b == parts[j][i + 1..] + Slashed(parts[j + 1..])
    ensures Slashed(parts[j := parts[j][..i] + [c] + parts[j][i + 1..]]) == a + ([c] + b)
  {
    var n := parts[j][..i] + [c] + parts[j][i + 1..];
    var parts' := parts[j := n];
    var a', b' := SplitAround(parts', j, i);
    assert parts'[..j] == parts[..j] && parts'[j + 1..] == parts[j + 1..];
    assert n[..i] == parts[j][..i] && n[i + 1..] == parts[j][i + 1..];
  }

  lemma {:induction false} WildcardPart(parts: seq<string>) returns (j: nat)
    requires !WildcardFree(Slashed(parts))
    ensures j < |parts| && !WildcardFree(parts[j])
  {
    if WildcardFree(parts[0]) {
      j := WildcardPart(parts[1..]);
      j := j + 1;
    } else {
      j := 0;
    }
  }

  // The SQL subtree predicate is the component-prefix relation for every directory exactly
  // when the path carries no LIKE wildcard.
  lemma SqlSubtreeIsExact(p: string)
    requires Normal(p) && p != "/"
    ensures (forall d :: Normal(d) ==> (Selects(p, d) <==> Components(p) <= Components(d)))
            <==> WildcardFree(p)
  {
    if WildcardFree(p) {
      var parts := NormalParts(p);
      assert Render([]) == "/";
      RenderIsSlashed(parts);
      SlashedHasNoBackslash(parts);
      forall d | Normal(d) ensures Selects(p, d) <==> Components(p) <= Components(d) {
        LiteralSubtree(p, d);
        UnderIsPrefix(d, p);
      }
    } else {
      var stranger := WildcardSweepsStranger(p, p);
      UnderIsPrefix(stranger, p);
    }
  }
}
