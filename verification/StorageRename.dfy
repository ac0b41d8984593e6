/**
  The move half of rename: one physical rename followed by three UPDATE statements on
  cloud_files, each able to fail on the UNIQUE key. Source and target are given as keys.
 */
module StorageRename {
  import opened Wrappers
  import opened VirtualPath
  import opened Like
  import opened FileTree
  import opened StorageState
  import opened StorageIndex

  // The three UPDATE statements: the row itself, its direct children, everything deeper.
  datatype Update =
    | OwnRow(user: string, fromDir: string, fromName: string, toDir: string, toName: string)
    | Children(user: string, from: string, to: string)
    | Deeper(user: string, from: string, to: string)

  // The WHERE clause.
  predicate Hits(u: Update, k: Key) {
    k.user == u.user &&
    match u
    case OwnRow(_, dir, name, _, _) => k.dir == dir && k.name == name
    case Children(_, from, _) => k.dir == from
    case Deeper(_, from, _) => Matches(k.dir, from + "/%")
  }

  // The SET clause; rows the statement does not hit keep their key.
  function Retarget(u: Update, k: Key): Key {
    if !Hits(u, k) then k
    else match u
      case OwnRow(_, _, _, dir, name) => k.(dir := dir, name := name)
      case Children(_, _, to) => k.(dir := to)
      case Deeper(_, from, to) => k.(dir := Rebase(k.dir, from, to))
  }

  function RetargetAll(us: seq<Update>, k: Key): Key {
    if us == [] then k else Retarget(us[|us| - 1], RetargetAll(us[..|us| - 1], k))
  }

  function RenamePlan(src: Key, dst: Key): seq<Update> {
    [OwnRow(src.user, src.dir, src.name, dst.dir, dst.name),
     Children(src.user, PathOf(src), PathOf(dst)),
     Deeper(src.user, PathOf(src), PathOf(dst))]
  }

  ghost predicate HasSource(before: Cloud, us: seq<Update>, k': Key) {
    exists k :: k in before && RetargetAll(us, k) == k'
  }

  // The table `after` is the table `before` with every key k changed to RetargetAll(us, k).
  ghost predicate Rekeyed(before: Cloud, after: Cloud, us: seq<Update>) {
    && (forall k {:trigger RetargetAll(us, k)} :: k in before ==>
          RetargetAll(us, k) in after && after[RetargetAll(us, k)] == before[k])
    && (forall k' {:trigger HasSource(before, us, k')} :: k' in after ==> HasSource(before, us, k'))
    && (forall j, k {:trigger RetargetAll(us, j), RetargetAll(us, k)} ::
          j in before && k in before && RetargetAll(us, j) == RetargetAll(us, k) ==> j == k)
  }

  // No row the statement changes meets an existing key, and no two rows meet each other.
  ghost predicate Unobstructed(t: Cloud, u: Update) {
    && (forall k {:trigger Retarget(u, k)} :: k in t && Retarget(u, k) != k ==> Retarget(u, k) !in t)
    && (forall j, k {:trigger Retarget(u, j), Retarget(u, k)} ::
          j in t && k in t && Retarget(u, j) == Retarget(u, k) ==> j == k)
  }

  ghost predicate PlanFits(t: Cloud, us: seq<Update>)
    decreases |us|
  {
    us == [] ||
    (Unobstructed(t, us[0]) && forall t' {:trigger Rekeyed(t, t', us[..1])} ::
       Rekeyed(t, t', us[..1]) ==> PlanFits(t', us[1..]))
  }

  // The statements run one by one, each keeping what it did, until one meets the UNIQUE key.
  ghost predicate Updated(before: Cloud, after: Cloud, plan: seq<Update>, ok: bool) {
    exists done: nat {:trigger plan[..done]} :: (
      && done <= |plan|
      && Rekeyed(before, after, plan[..done])
      && (ok <==> done == |plan|)
      && (!ok ==> !Unobstructed(after, plan[done]))
      && (PlanFits(before, plan) ==> ok))
  }

  // Both ends must belong to one user the caller may act for.
  function MoveOwner(username: string, from: string, to: string): Result<string, Error> {
    if !("/User/" <= from) || !("/User/" <= to) || |Components(from)| < 2 || |Components(to)| < 2
    then Err(BadRequest)
    else if Components(from)[1] != Components(to)[1] then Err(Forbidden)
    else if Components(from)[1] != username && username != "admin" then Err(Forbidden)
    else Ok(Components(from)[1])
  }

  // The bytes move first, the rows follow.
  ghost predicate MoveStep(s: State, s': State, src: Key, dst: Key, r: Outcome) {
    var fs1 := TryCreateDir(s.fs, Phys(dst.dir));
    match Rename(fs1, Phys(PathOf(src)), Phys(PathOf(dst)))
    case Err(_) => s' == s.(fs := fs1) && r == Err(Io)
    case Ok(fs2) =>
      if src.user !in s.users then s' == s.(fs := fs2) && r == Err(Database)
      else
        && s' == s.(fs := fs2, cloud := s'.cloud)
        && Updated(s.cloud, s'.cloud, RenamePlan(src, dst), r.Ok?)
        && (r == Ok(()) || r == Err(Database))
  }

  // ---- The statements compose to one substitution ---------------------------------------

  // The simultaneous substitution of the source path by the target path on one key.
  function Substitute(k: Key, src: Key, dst: Key): Key {
    if k.user != src.user then k
    else if k.dir == src.dir && k.name == src.name then k.(dir := dst.dir, name := dst.name)
    else if Under(k.dir, PathOf(src)) then k.(dir := Rebase(k.dir, PathOf(src), PathOf(dst)))
    else k
  }

  // The rows of the moved subtree: the row of the source and the rows at or below it.
  predicate InSubtree(k: Key, src: Key) {
    k.user == src.user && ((k.dir == src.dir && k.name == src.name) || Under(k.dir, PathOf(src)))
  }

  // How many of the statements rewrite the row as it passes through the plan.
  function Rewrites(us: seq<Update>, k: Key): nat {
    if us == [] then 0
    else
      var rest := us[..|us| - 1];
      Rewrites(rest, k) + if Hits(us[|us| - 1], RetargetAll(rest, k)) then 1 else 0
  }

  lemma PlanPrefixes(plan: seq<Update>, k: Key)
    requires |plan| == 3
    ensures var k1 := Retarget(plan[0], k);
            var k2 := Retarget(plan[1], k1);
            && RetargetAll(plan, k) == Retarget(plan[2], k2)
            && Rewrites(plan, k) == (if Hits(plan[0], k) then 1 else 0)
               + (if Hits(plan[1], k1) then 1 else 0) + (if Hits(plan[2], k2) then 1 else 0)
  {
    var one, two := plan[..1], plan[..2];
    assert plan[..|plan| - 1] == two && two[..|two| - 1] == one && one[..|one| - 1] == [];
    assert RetargetAll([], k) == k && Rewrites([], k) == 0;
    assert RetargetAll(one, k) == Retarget(plan[0], k);
    assert Rewrites(one, k) == if Hits(plan[0], k) then 1 else 0;
    assert RetargetAll(two, k) == Retarget(plan[1], RetargetAll(one, k));
    assert Rewrites(two, k) == Rewrites(one, k) + if Hits(plan[1], RetargetAll(one, k)) then 1 else 0;
  }

  lemma SingleStatement(us: seq<Update>, k: Key)
    requires |us| == 1
    ensures RetargetAll(us, k) == Retarget(us[0], k)
  {
    assert us[..0] == [];
    assert RetargetAll(us[..0], k) == k;
  }

  lemma NoStatement(t: Cloud)
    ensures Rekeyed(t, t, [])
  {
    assert forall k :: RetargetAll([], k) == k;
  }

  // One more statement after a run of statements.
  lemma RekeyedThen(a: Cloud, b: Cloud, c: Cloud, us: seq<Update>, u: Update)
    requires Rekeyed(a, b, us) && Rekeyed(b, c, [u])
    ensures Rekeyed(a, c, us + [u])
  {
    forall k ensures RetargetAll(us + [u], k) == Retarget(u, RetargetAll(us, k)) == RetargetAll([u], RetargetAll(us, k)) {
      assert (us + [u])[..|us|] == us;
      SingleStatement([u], RetargetAll(us, k));
    }
    forall k' | k' in c ensures HasSource(a, us + [u], k') {
      assert HasSource(b, [u], k');
      var j :| j in b && RetargetAll([u], j) == k';
      assert HasSource(a, us, j);
      var k :| k in a && RetargetAll(us, k) == j;
      assert RetargetAll(us + [u], k) == k';
    }
  }

  // A move of `src` to `dst`, both of one user, the target not at or below the source.
  predicate ProperMove(src: Key, dst: Key) {
    src.user == dst.user && '/' !in src.name && '/' !in dst.name && !Under(PathOf(dst), PathOf(src))
  }

  predicate Literal(p: string) {
    WildcardFree(p) && '\\' !in p
  }

  // The directory the row has when the third statement runs.
  function Landing(k: Key, src: Key, dst: Key): string {
    if k.dir == src.dir && k.name == src.name then dst.dir
    else if k.dir == PathOf(src) then PathOf(dst)
    else k.dir
  }

  // The third statement selects the directory, though it lies outside the subtree, and changes it.
  predicate Swept(dir: string, from: string, to: string) {
    Matches(dir, from + "/%") && !Above(from, dir) && Rebase(dir, from, to) != dir
  }

  // On one row of the owner the three successive updates are one simultaneous substitution exactly
  // when the third does not sweep it away; if it does, it strikes on top of the substitution.
  lemma PlanOnRow(src: Key, dst: Key, k: Key)
    requires ProperMove(src, dst) && '\\' !in PathOf(src) && k.user == src.user
    ensures RetargetAll(RenamePlan(src, dst), k) == Substitute(k, src, dst)
            <==> !Swept(Landing(k, src, dst), PathOf(src), PathOf(dst))
    ensures Swept(Landing(k, src, dst), PathOf(src), PathOf(dst)) ==>
              && Substitute(k, src, dst).dir == Landing(k, src, dst)
              && RetargetAll(RenamePlan(src, dst), k)
                 == Substitute(k, src, dst).(dir := Rebase(Landing(k, src, dst), PathOf(src), PathOf(dst)))
  {
    var from, to := PathOf(src), PathOf(dst);
    PlanPrefixes(RenamePlan(src, dst), k);
    assert |src.dir| < |from|;
    AboveChild(from, dst.dir, dst.name);
    assert Rebase(from, from, to) == to;
    if Above(from, k.dir) { DescendantsSelected(from, k.dir); }
  }

  // Without wildcards in the source path they are that substitution on every key: they rewrite
  // exactly the subtree rows, each of them once.
  lemma PlanIsSubstitution(src: Key, dst: Key, k: Key)
    requires ProperMove(src, dst) && Literal(PathOf(src))
    ensures RetargetAll(RenamePlan(src, dst), k) == Substitute(k, src, dst)
    ensures Rewrites(RenamePlan(src, dst), k) == if InSubtree(k, src) then 1 else 0
  {
    var from, to := PathOf(src), PathOf(dst);
    LiteralSubtree(from, k.dir);
    LiteralSubtree(from, to);
    LiteralSubtree(from, dst.dir);
    AboveChild(from, dst.dir, dst.name);
    PlanCases(src, dst, from, to, k);
  }

  // The same, from what the WHERE clauses see.
  lemma PlanCases(src: Key, dst: Key, from: string, to: string, k: Key)
    requires from == PathOf(src) && to == PathOf(dst) && src.user == dst.user
    requires to != from && dst.dir != from
    requires Matches(k.dir, from + "/%") <==> Above(from, k.dir)
    requires !Matches(to, from + "/%") && !Matches(dst.dir, from + "/%")
    ensures RetargetAll(RenamePlan(src, dst), k) == Substitute(k, src, dst)
    ensures Rewrites(RenamePlan(src, dst), k) == if InSubtree(k, src) then 1 else 0
  {
    var plan := RenamePlan(src, dst);
    PlanPrefixes(plan, k);
    assert |src.dir| < |from|;
    var k1 := Retarget(plan[0], k);
    var k2 := Retarget(plan[1], k1);
    if k.user == src.user {
      if k.dir == src.dir && k.name == src.name {
        assert k1 == dst && k2 == k1;
      } else if k.dir == from {
        assert k1 == k && k2 == k.(dir := to);
        assert Rebase(from, from, to) == to;
      } else {
        assert k2 == k;
      }
    }
  }

  // For every table the three statements are the simultaneous substitution exactly when the
  // source carries no LIKE wildcard; otherwise some foreign directory's rows move as well.
  lemma PlanExact(src: Key, dst: Key)
    requires ProperMove(src, dst) && Normal(PathOf(src))
    ensures (forall k :: RetargetAll(RenamePlan(src, dst), k) == Substitute(k, src, dst))
            <==> WildcardFree(PathOf(src))
  {
    if WildcardFree(PathOf(src)) {
      NormalHasNoBackslash(PathOf(src));
      forall k ensures RetargetAll(RenamePlan(src, dst), k) == Substitute(k, src, dst) {
        PlanIsSubstitution(src, dst, k);
      }
    } else {
      var dir := WildcardSweepsStranger(PathOf(src), PathOf(dst));
      var k := Key(src.user, dir, "f");
      assert |src.dir| < |PathOf(src)| < |dir|;
      PlanPrefixes(RenamePlan(src, dst), k);
      assert RetargetAll(RenamePlan(src, dst), k) != Substitute(k, src, dst);
    }
  }

  // The table `after` is `before` under the simultaneous substitution.
  ghost predicate Substituted(before: Cloud, after: Cloud, src: Key, dst: Key) {
    && (forall k {:trigger Substitute(k, src, dst)} :: k in before ==>
          Substitute(k, src, dst) in after && after[Substitute(k, src, dst)] == before[k])
    && (forall k' {:trigger k' in after} :: k' in after ==> exists k :: k in before && Substitute(k, src, dst) == k')
  }

  // No row of the owner is swept away. What a caller can check beforehand: the LIKE pattern of the
  // source selects no directory of a row outside the subtree, or the rewriting leaves it as it is.
  ghost predicate Faithful(t: Cloud, src: Key, dst: Key) {
    forall k {:trigger k in t} :: k in t && k.user == src.user ==>
      !Swept(Landing(k, src, dst), PathOf(src), PathOf(dst))
  }

  lemma LiteralIsFaithful(t: Cloud, src: Key, dst: Key)
    requires ProperMove(src, dst) && Literal(PathOf(src))
    ensures Faithful(t, src, dst)
  {
    forall k | k in t && k.user == src.user ensures !Swept(Landing(k, src, dst), PathOf(src), PathOf(dst)) {
      LiteralSubtree(PathOf(src), Landing(k, src, dst));
    }
  }

  lemma FaithfulRow(t: Cloud, src: Key, dst: Key, k: Key)
    requires ProperMove(src, dst) && '\\' !in PathOf(src) && Faithful(t, src, dst) && k in t
    ensures RetargetAll(RenamePlan(src, dst), k) == Substitute(k, src, dst)
  {
    if k.user == src.user { PlanOnRow(src, dst, k); } else { PlanPrefixes(RenamePlan(src, dst), k); }
  }

  lemma RekeyedIsSubstituted(before: Cloud, after: Cloud, src: Key, dst: Key)
    requires ProperMove(src, dst) && '\\' !in PathOf(src) && Faithful(before, src, dst)
    requires Rekeyed(before, after, RenamePlan(src, dst))
    ensures Substituted(before, after, src, dst)
  {
    forall k | k in before ensures RetargetAll(RenamePlan(src, dst), k) == Substitute(k, src, dst) {
      FaithfulRow(before, src, dst, k);
    }
    forall k' | k' in after ensures exists k :: k in before && Substitute(k, src, dst) == k' {
      assert HasSource(before, RenamePlan(src, dst), k');
    }
  }

  // ---- The statements never meet the UNIQUE key when the target is free ---------------------

  // No row of the owner stands at or below the target.
  ghost predicate FreeTarget(t: Cloud, dst: Key) {
    forall k {:trigger k in t} :: k in t && k.user == dst.user ==> k != dst && !Under(k.dir, PathOf(dst))
  }

  lemma PlanFitsFreeTarget(t: Cloud, src: Key, dst: Key)
    requires ProperMove(src, dst) && '\\' !in PathOf(src) && FreeTarget(t, dst) && Faithful(t, src, dst)
    ensures PlanFits(t, RenamePlan(src, dst))
  {
    var plan := RenamePlan(src, dst);
    var from, to := PathOf(src), PathOf(dst);
    assert |dst.dir| < |to| && |src.dir| < |from|;
    AboveChild(from, dst.dir, dst.name);
    assert Unobstructed(t, plan[0]);
    forall t1: Cloud {:trigger Rekeyed(t, t1, plan[..1])} | Rekeyed(t, t1, plan[..1]) ensures PlanFits(t1, plan[1..]) {
      forall k: Key {:trigger k in t1} | k in t1 && k.user == dst.user
        ensures !Under(k.dir, to) && !Swept(if k.dir == from then to else k.dir, from, to)
      {
        assert HasSource(t, plan[..1], k);
        var j :| j in t && RetargetAll(plan[..1], j) == k;
        SingleStatement(plan[..1], j);
      }
      ChildrenThenDeeperFit(t1, src.user, from, to);
      assert plan[1..] == [plan[1], plan[2]];
    }
  }

  lemma ChildrenThenDeeperFit(t1: Cloud, user: string, from: string, to: string)
    requires '\\' !in from
    requires forall k {:trigger k in t1} :: k in t1 && k.user == user ==>
               !Under(k.dir, to) && !Swept(if k.dir == from then to else k.dir, from, to)
    ensures PlanFits(t1, [Children(user, from, to), Deeper(user, from, to)])
  {
    var us := [Children(user, from, to), Deeper(user, from, to)];
    assert Unobstructed(t1, us[0]);
    forall t2: Cloud {:trigger Rekeyed(t1, t2, us[..1])} | Rekeyed(t1, t2, us[..1]) ensures PlanFits(t2, us[1..]) {
      forall k: Key {:trigger k in t2} | k in t2 && k.user == user ensures !Above(to, k.dir) && !Swept(k.dir, from, to) {
        assert HasSource(t1, us[..1], k);
        var j :| j in t1 && RetargetAll(us[..1], j) == k;
        SingleStatement(us[..1], j);
      }
      DeeperFits(t2, user, from, to);
      assert us[1..] == [us[1]];
    }
  }

  lemma DeeperFits(t2: Cloud, user: string, from: string, to: string)
    requires '\\' !in from
    requires forall k {:trigger k in t2} :: k in t2 && k.user == user ==> !Above(to, k.dir) && !Swept(k.dir, from, to)
    ensures PlanFits(t2, [Deeper(user, from, to)])
  {
    var u := Deeper(user, from, to);
    forall k {:trigger Retarget(u, k)} | k in t2 && Retarget(u, k) != k ensures Above(from, k.dir) && Retarget(u, k) !in t2 {
      RebaseUnder(k.dir, from, to);
    }
    forall j, k {:trigger Retarget(u, j), Retarget(u, k)} | j in t2 && k in t2 && Retarget(u, j) == Retarget(u, k)
      ensures j == k
    {
      if Retarget(u, j) != j { RebaseUnder(j.dir, from, to); }
      if Retarget(u, k) != k { RebaseUnder(k.dir, from, to); }
    }
    assert [u][1..] == [];
  }

  // ---- Agreement ---------------------------------------------------------------------------

  // What a caller can check beforehand.
  predicate Movable(fs: Tree, src: Key, dst: Key) {
    && Phys(PathOf(src)) in fs
    && Phys(PathOf(dst)) !in fs
    && !Under(PathOf(dst), PathOf(src))
    && IsDir(fs, Phys(dst.dir))
  }

  // A legal move between two tracked paths of a state whose index agrees with the tree.
  ghost predicate LegalMove(s: State, src: Key, dst: Key) {
    && Valid(s) && Agree(s)
    && InDomain(s.users, src) && InDomain(s.users, dst) && ProperMove(src, dst)
    && CanMove(s.fs, Phys(PathOf(src)), Phys(PathOf(dst)))
    && Phys(PathOf(dst)) !in s.fs && !Under(PathOf(src), PathOf(dst))
  }

  lemma MovableIsLegal(s: State, src: Key, dst: Key)
    requires Valid(s) && Agree(s) && InDomain(s.users, src) && InDomain(s.users, dst) && src.user == dst.user
    requires Movable(s.fs, src, dst)
    ensures TryCreateDir(s.fs, Phys(dst.dir)) == s.fs && LegalMove(s, src, dst)
  {
    CreateExistingDir(s.fs, Phys(dst.dir));
    MovableCanMove(s.fs, src, dst);
    MoveApart(s.fs, PathOf(src), PathOf(dst));
  }

  lemma MovableCanMove(fs: Tree, src: Key, dst: Key)
    requires Movable(fs, src, dst) && '/' !in dst.name
    ensures CanMove(fs, Phys(PathOf(src)), Phys(PathOf(dst)))
  {
    PhysUnder(PathOf(dst), PathOf(src));
    assert Phys(PathOf(dst)) == Child(Phys(dst.dir), dst.name);
    LastSlashOfChild(Phys(dst.dir), dst.name);
  }

  lemma MoveApart(fs: Tree, from: string, to: string)
    requires WellFormed(fs) && CanMove(fs, Phys(from), Phys(to))
    ensures !Under(to, from) && !Under(from, to)
  {
    MoveIsApart(fs, Phys(from), Phys(to));
    PhysUnder(to, from);
    PhysUnder(from, to);
  }

  lemma MovedTreeView(fs: Tree, from: string, to: string, p: string)
    requires WellFormed(fs) && CanMove(fs, Phys(from), Phys(to))
    ensures TreeView(Moved(fs, Phys(from), Phys(to)), p) ==
            if Under(p, to) then TreeView(fs, Rebase(p, to, from))
            else if Under(p, from) then Absent
            else TreeView(fs, p)
  {
    AtMoved(fs, Phys(from), Phys(to), Phys(p));
    PhysUnder(p, to);
    PhysUnder(p, from);
    if Under(p, to) { PhysRebase(p, to, from); }
  }

  // The key whose row becomes the row of k'.
  function Preimage(k': Key, src: Key, dst: Key): Key {
    if k' == dst then src else k'.(dir := Rebase(k'.dir, PathOf(dst), PathOf(src)))
  }

  lemma PreimageFacts(s: State, src: Key, dst: Key, k': Key)
    requires LegalMove(s, src, dst)
    requires InDomain(s.users, k') && Under(PathOf(k'), PathOf(dst))
    ensures var pre := Preimage(k', src, dst);
            && InDomain(s.users, pre) && Substitute(pre, src, dst) == k'
            && PathOf(pre) == Rebase(PathOf(k'), PathOf(dst), PathOf(src))
    ensures k'.user == dst.user && k' !in s.cloud
  {
    var from, to := PathOf(src), PathOf(dst);
    assert ValidName(k'.user) && ValidName(dst.user);
    AboveTransitive(Home(dst.user), to, PathOf(k'));
    HomesApart(dst.user, k'.user, PathOf(k'));
    PhysUnder(PathOf(k'), to);
    assert TreeView(s.fs, PathOf(k')) == Absent;
    RebaseUnder(PathOf(k'), to, from);
    TrackedBelow(src.user, from, Rebase(PathOf(k'), to, from));
    AboveChild(to, k'.dir, k'.name);
    if k' == dst {
      assert Rebase(to, to, from) == from;
    } else {
      if PathOf(k') == to { ChildInjective(k'.dir, k'.name, dst.dir, dst.name); }
      RebaseChild(k'.dir, k'.name, to, from);
      RebaseUnder(k'.dir, to, from);
      assert |src.dir| < |from| <= |Preimage(k', src, dst).dir|;
    }
  }

  // Below the target the substitution has one source; elsewhere it moves nothing in.
  lemma SubstituteSource(j: Key, src: Key, dst: Key, k': Key)
    requires Substitute(j, src, dst) == k' && j != k' && '/' !in k'.name && src.user == dst.user
    ensures Under(PathOf(k'), PathOf(dst)) && j == Preimage(k', src, dst) && k'.user == src.user
  {
    if j.dir == src.dir && j.name == src.name {
    } else {
      RebaseUnder(j.dir, PathOf(src), PathOf(dst));
      AboveChild(PathOf(dst), k'.dir, k'.name);
      assert k' != dst by { assert |dst.dir| < |PathOf(dst)| <= |k'.dir|; }
    }
  }

  lemma MovedRow(s: State, cloud: Cloud, src: Key, dst: Key, k': Key)
    requires LegalMove(s, src, dst) && Substituted(s.cloud, cloud, src, dst)
    requires InDomain(s.users, k') && Under(PathOf(k'), PathOf(dst))
    ensures IndexView(cloud, k') == TreeView(s.fs, Rebase(PathOf(k'), PathOf(dst), PathOf(src)))
  {
    PreimageFacts(s, src, dst, k');
    var pre := Preimage(k', src, dst);
    if k' in cloud {
      var j :| j in s.cloud && Substitute(j, src, dst) == k';
      SubstituteSource(j, src, dst, k');
    }
    assert IndexView(cloud, k') == IndexView(s.cloud, pre);
  }

  lemma OutsideRow(s: State, cloud: Cloud, src: Key, dst: Key, k': Key)
    requires LegalMove(s, src, dst) && Substituted(s.cloud, cloud, src, dst)
    requires InDomain(s.users, k') && !Under(PathOf(k'), PathOf(dst))
    ensures IndexView(cloud, k') == if Under(PathOf(k'), PathOf(src)) then Absent else TreeView(s.fs, PathOf(k'))
  {
    assert ValidName(src.user) && ValidName(k'.user);
    AboveChild(PathOf(src), k'.dir, k'.name);
    if Under(PathOf(k'), PathOf(src)) {
      AboveTransitive(Home(src.user), PathOf(src), PathOf(k'));
      HomesApart(src.user, k'.user, PathOf(k'));
      if PathOf(k') == PathOf(src) { SameKey(s.users, k', src); }
      assert Substitute(k', src, dst) != k' by { RebaseMoves(k', src, dst); }
    } else {
      assert Substitute(k', src, dst) == k';
    }
    if k' in cloud {
      var j :| j in s.cloud && Substitute(j, src, dst) == k';
      if j != k' { SubstituteSource(j, src, dst, k'); }
    }
  }

  lemma RebaseMoves(k: Key, src: Key, dst: Key)
    requires src.user == dst.user && k.user == src.user && k != dst
    requires k == src || Under(k.dir, PathOf(src))
    requires !Under(PathOf(k), PathOf(dst)) && '/' !in k.name
    ensures Substitute(k, src, dst) != k
  {
    if k != src {
      RebaseUnder(k.dir, PathOf(src), PathOf(dst));
      AboveChild(PathOf(dst), k.dir, k.name);
    }
  }

  // The index after the substitution is the index of the moved tree.
  lemma AgreeMoved(s: State, s': State, src: Key, dst: Key)
    requires LegalMove(s, src, dst) && s'.users == s.users
    requires s'.fs == Moved(s.fs, Phys(PathOf(src)), Phys(PathOf(dst)))
    requires Substituted(s.cloud, s'.cloud, src, dst)
    ensures Agree(s')
  {
    forall k' {:trigger InDomain(s'.users, k')} | InDomain(s'.users, k')
      ensures IndexView(s'.cloud, k') == TreeView(s'.fs, PathOf(k'))
    {
      assert InDomain(s.users, k');
      MovedTreeView(s.fs, PathOf(src), PathOf(dst), PathOf(k'));
      if Under(PathOf(k'), PathOf(dst)) {
        MovedRow(s, s'.cloud, src, dst, k');
      } else {
        OutsideRow(s, s'.cloud, src, dst, k');
      }
    }
  }

  lemma AgreeingTargetIsFree(s: State, dst: Key)
    requires Valid(s) && Agree(s) && InDomain(s.users, dst) && Phys(PathOf(dst)) !in s.fs
    ensures FreeTarget(s.cloud, dst)
  {
    forall k | k in s.cloud && k.user == dst.user ensures k != dst && !Under(k.dir, PathOf(dst)) {
      AboveChild(PathOf(dst), k.dir, k.name);
      if Under(PathOf(k), PathOf(dst)) {
        TrackedBelow(dst.user, PathOf(dst), PathOf(k));
        PhysUnder(PathOf(k), PathOf(dst));
        assert Phys(PathOf(k)) !in s.fs;
        assert InDomain(s.users, k);
      }
    }
  }

  // ---- The theorem ---------------------------------------------------------------------------

  // A move succeeds and leaves tree and index in agreement exactly when the source exists, the
  // target is free and not inside it, the target's parent is a directory, and the LIKE pattern of
  // the source sweeps no row away; the rows then follow the simultaneous substitution.
  lemma RenameAgreement(s: State, s': State, src: Key, dst: Key, r: Outcome)
    requires Valid(s) && Agree(s) && InDomain(s.users, src) && InDomain(s.users, dst) && src.user == dst.user
    requires Normal(dst.dir) && '\\' !in PathOf(src)
    requires MoveStep(s, s', src, dst, r)
    ensures Valid(s')
    ensures Movable(s.fs, src, dst) && Faithful(s.cloud, src, dst) ==>
              r.Ok? && Agree(s') && Substituted(s.cloud, s'.cloud, src, dst)
    ensures r.Ok? && Agree(s') ==> Movable(s.fs, src, dst)
    ensures SweptTracked(s, src, dst) ==>
              (r.Ok? && Agree(s') <==> Movable(s.fs, src, dst) && Faithful(s.cloud, src, dst))
  {
    MoveValid(s, s', src, dst, r);
    if Movable(s.fs, src, dst) {
      if Faithful(s.cloud, src, dst) {
        FaithfulMove(s, s', src, dst, r);
      } else if r.Ok? && Agree(s') && SweptTracked(s, src, dst) {
        AgreementIsFaithful(s, s', src, dst, r);
      }
    } else if r.Ok? {
      UnmovableDisagrees(s, s', src, dst, r);
    }
  }

  lemma FaithfulMove(s: State, s': State, src: Key, dst: Key, r: Outcome)
    requires Valid(s) && Agree(s) && InDomain(s.users, src) && InDomain(s.users, dst) && src.user == dst.user
    requires '\\' !in PathOf(src) && Movable(s.fs, src, dst) && Faithful(s.cloud, src, dst)
    requires MoveStep(s, s', src, dst, r)
    ensures r.Ok? && Agree(s') && Substituted(s.cloud, s'.cloud, src, dst)
  {
    MovableIsLegal(s, src, dst);
    AgreeingTargetIsFree(s, dst);
    PlanFitsFreeTarget(s.cloud, src, dst);
    FullPlan(s.cloud, s'.cloud, src, dst);
    RekeyedIsSubstituted(s.cloud, s'.cloud, src, dst);
    AgreeMoved(s, s', src, dst);
  }

  lemma FullPlan(before: Cloud, after: Cloud, src: Key, dst: Key)
    requires Updated(before, after, RenamePlan(src, dst), true)
    ensures Rekeyed(before, after, RenamePlan(src, dst))
  {
    assert RenamePlan(src, dst)[..3] == RenamePlan(src, dst);
  }

  lemma MoveValid(s: State, s': State, src: Key, dst: Key, r: Outcome)
    requires Valid(s) && InDomain(s.users, src) && InDomain(s.users, dst) && src.user == dst.user
    requires MoveStep(s, s', src, dst, r)
    ensures Valid(s') && OnlyTracked(s.fs, s'.fs, dst.user) && s'.trash == s.trash && s'.users == s.users
  {
    var s1 := s.(fs := TryCreateDir(s.fs, Phys(dst.dir)));
    TrackedParent(dst.user, dst.dir, dst.name);
    if dst.dir == Home(dst.user) {
      assert IsDir(s.fs, Phys(Home(dst.user)));
      CreateExistingDir(s.fs, Phys(dst.dir));
    } else {
      CreateDirOnlyTracked(s, dst.user, dst.dir);
      FrameValid(s, s1, dst.user);
    }
    if CanMove(s1.fs, Phys(PathOf(src)), Phys(PathOf(dst))) { MovedStepValid(s, s1, s', src, dst, r); }
  }

  lemma MovedStepValid(s: State, s1: State, s': State, src: Key, dst: Key, r: Outcome)
    requires Valid(s1) && InDomain(s.users, src) && InDomain(s.users, dst) && src.user == dst.user
    requires s1 == s.(fs := TryCreateDir(s.fs, Phys(dst.dir))) && OnlyTracked(s.fs, s1.fs, dst.user)
    requires CanMove(s1.fs, Phys(PathOf(src)), Phys(PathOf(dst))) && MoveStep(s, s', src, dst, r)
    ensures Valid(s') && OnlyTracked(s.fs, s'.fs, dst.user)
  {
    MovedValid(s1, src, dst);
    FrameValid(s1, s', dst.user);
    forall q | !TrackedObject(dst.user, q) ensures At(s'.fs, q) == At(s.fs, q) {
      assert At(s1.fs, q) == At(s.fs, q);
    }
  }

  lemma MovedValid(s: State, src: Key, dst: Key)
    requires Valid(s) && InDomain(s.users, src) && InDomain(s.users, dst) && src.user == dst.user
    requires CanMove(s.fs, Phys(PathOf(src)), Phys(PathOf(dst)))
    ensures WellFormed(Moved(s.fs, Phys(PathOf(src)), Phys(PathOf(dst))))
    ensures OnlyTracked(s.fs, Moved(s.fs, Phys(PathOf(src)), Phys(PathOf(dst))), dst.user)
  {
    var from, to := Phys(PathOf(src)), Phys(PathOf(dst));
    MovedStaysWellFormed(s, dst, from);
    forall q | !TrackedObject(dst.user, q) ensures At(Moved(s.fs, from, to), q) == At(s.fs, q) {
      MovedElsewhere(s, src, dst, q);
    }
  }

  lemma MovedStaysWellFormed(s: State, dst: Key, from: string)
    requires Valid(s) && InDomain(s.users, dst) && from != "" && CanMove(s.fs, from, Phys(PathOf(dst)))
    ensures WellFormed(Moved(s.fs, from, Phys(PathOf(dst))))
  {
    TargetSlice(dst);
    MovedWellFormed(s.fs, from, Phys(PathOf(dst)));
  }

  lemma TargetSlice(dst: Key)
    requires '/' !in dst.name
    ensures var to := Phys(PathOf(dst)); '/' in to && to[..LastSlash(to)] == Phys(dst.dir) != ""
  {
    assert Phys(PathOf(dst)) == Child(Phys(dst.dir), dst.name);
    LastSlashOfChild(Phys(dst.dir), dst.name);
  }

  lemma MovedElsewhere(s: State, src: Key, dst: Key, q: string)
    requires Valid(s) && InDomain(s.users, src) && InDomain(s.users, dst) && src.user == dst.user
    requires CanMove(s.fs, Phys(PathOf(src)), Phys(PathOf(dst))) && !TrackedObject(dst.user, q)
    ensures At(Moved(s.fs, Phys(PathOf(src)), Phys(PathOf(dst))), q) == At(s.fs, q)
  {
    AtMoved(s.fs, Phys(PathOf(src)), Phys(PathOf(dst)), q);
    if Under(q, Phys(PathOf(dst))) { BelowTrackedObject(dst.user, PathOf(dst), q); }
    if Under(q, Phys(PathOf(src))) { BelowTrackedObject(dst.user, PathOf(src), q); }
  }

  // A successful request that is not Movable leaves a new parent directory without a row.
  lemma UnmovableDisagrees(s: State, s': State, src: Key, dst: Key, r: Outcome)
    requires Valid(s) && Agree(s) && InDomain(s.users, src) && InDomain(s.users, dst) && src.user == dst.user
    requires Normal(dst.dir)
    requires MoveStep(s, s', src, dst, r) && r.Ok? && !Movable(s.fs, src, dst)
    ensures !Agree(s')
  {
    var fs1 := TryCreateDir(s.fs, Phys(dst.dir));
    CreateDirWellFormed(s.fs, Phys(dst.dir));
    MoveApart(fs1, PathOf(src), PathOf(dst));
    FullPlan(s.cloud, s'.cloud, src, dst);
    SourceExisted(s.fs, fs1, src, dst);
    TargetWasFree(s, s'.cloud, src, dst);
    NewParentUnindexed(s, s', src, dst);
  }

  lemma SourceExisted(fs: Tree, fs1: Tree, src: Key, dst: Key)
    requires fs1 == TryCreateDir(fs, Phys(dst.dir))
    requires '/' !in dst.name && !Under(PathOf(dst), PathOf(src)) && Phys(PathOf(src)) in fs1
    ensures Phys(PathOf(src)) in fs
  {
    PhysUnder(dst.dir, PathOf(src));
    AboveChild(PathOf(src), dst.dir, dst.name);
  }

  // Otherwise the first statement would have met the UNIQUE key.
  lemma TargetWasFree(s: State, after: Cloud, src: Key, dst: Key)
    requires Valid(s) && Agree(s) && InDomain(s.users, src) && InDomain(s.users, dst)
    requires ProperMove(src, dst) && Phys(PathOf(src)) in s.fs
    requires Rekeyed(s.cloud, after, RenamePlan(src, dst))
    ensures Phys(PathOf(dst)) !in s.fs
  {
    var plan := RenamePlan(src, dst);
    assert plan[..3] == plan;
    FirstStatementClashes(src, dst, plan, 3);
    assert src in s.cloud;
    assert dst !in s.cloud by { assert RetargetAll(plan, src) == RetargetAll(plan, dst); }
  }

  // A file moved onto another overwrites its bytes; then the first statement meets the UNIQUE key
  // and the request fails with the index as it was.
  lemma MoveOntoFile(s: State, s': State, src: Key, dst: Key, r: Outcome)
    requires Valid(s) && Agree(s) && InDomain(s.users, src) && InDomain(s.users, dst) && src.user == dst.user && src != dst
    requires IsFile(s.fs, Phys(PathOf(src))) && IsFile(s.fs, Phys(PathOf(dst))) && MoveStep(s, s', src, dst, r)
    ensures r == Err(Database) && s'.cloud == s.cloud && !Agree(s')
    ensures At(s'.fs, Phys(PathOf(dst))) == At(s.fs, Phys(PathOf(src))) && At(s'.fs, Phys(PathOf(src))) == None
  {
    MoveOntoFileBytes(s, s', src, dst, r);
    assert src in s.cloud && dst in s.cloud;
    var plan := RenamePlan(src, dst);
    var done: nat :| done <= 3 && Rekeyed(s.cloud, s'.cloud, plan[..done]) && (r.Ok? <==> done == 3);
    if done > 0 { FirstStatementClashes(src, dst, plan, done); }
    assert done == 0;
    RekeyedByNothing(s.cloud, s'.cloud, plan[..done]);
    assert InDomain(s'.users, src);
  }

  // A failing move is not undone: when nothing was in the way of the first statement it has taken effect,
  // and the row of the source bears its new key.
  lemma FirstStatementStays(before: Cloud, after: Cloud, src: Key, dst: Key)
    requires Updated(before, after, RenamePlan(src, dst), false) && Unobstructed(before, RenamePlan(src, dst)[0])
    requires src in before && src.user == dst.user && dst.dir != PathOf(src)
    ensures dst in after && after[dst] == before[src]
  {
    var plan := RenamePlan(src, dst);
    var done: nat :| done < 3 && Rekeyed(before, after, plan[..done]) && !Unobstructed(after, plan[done]);
    if done == 0 {
      RekeyedByNothing(before, after, plan[..done]);
    } else {
      SourceRekeyed(src, dst, plan, done);
    }
  }

  lemma SourceRekeyed(src: Key, dst: Key, plan: seq<Update>, done: nat)
    requires plan == RenamePlan(src, dst) && 0 < done < 3 && src.user == dst.user && dst.dir != PathOf(src)
    ensures RetargetAll(plan[..done], src) == dst
  {
    SingleStatement(plan[..1], src);
    if done == 2 { assert plan[..2][..1] == plan[..1]; }
  }

  lemma RekeyedByNothing(before: Cloud, after: Cloud, us: seq<Update>)
    requires us == [] && Rekeyed(before, after, us)
    ensures after == before
  {
    forall k | k in before ensures k in after && after[k] == before[k] { assert RetargetAll(us, k) == k; }
    forall k | k in after ensures k in before { assert HasSource(before, us, k); }
  }

  lemma {:induction false} FirstStatementClashes(src: Key, dst: Key, plan: seq<Update>, done: nat)
    requires src.user == dst.user && plan == RenamePlan(src, dst) && 0 < done <= 3
    ensures RetargetAll(plan[..done], src) == RetargetAll(plan[..done], dst)
    decreases done
  {
    assert plan[..done][..done - 1] == plan[..done - 1];
    if done == 1 {
      SingleStatement(plan[..1], src);
      SingleStatement(plan[..1], dst);
    } else {
      FirstStatementClashes(src, dst, plan, done - 1);
    }
  }

  lemma MoveOntoFileBytes(s: State, s': State, src: Key, dst: Key, r: Outcome)
    requires Valid(s) && InDomain(s.users, src) && InDomain(s.users, dst) && src != dst
    requires IsFile(s.fs, Phys(PathOf(src))) && IsFile(s.fs, Phys(PathOf(dst))) && MoveStep(s, s', src, dst, r)
    ensures src.user in s.users ==> Updated(s.cloud, s'.cloud, RenamePlan(src, dst), r.Ok?)
    ensures s'.users == s.users
    ensures At(s'.fs, Phys(PathOf(dst))) == At(s.fs, Phys(PathOf(src))) && At(s'.fs, Phys(PathOf(src))) == None
  {
    FileCanReplace(s, src, dst);
    ReplacedAt(s.fs, Phys(PathOf(src)), Phys(PathOf(dst)));
  }

  lemma FileCanReplace(s: State, src: Key, dst: Key)
    requires Valid(s) && InDomain(s.users, src) && InDomain(s.users, dst) && src != dst
    requires IsFile(s.fs, Phys(PathOf(src))) && IsFile(s.fs, Phys(PathOf(dst)))
    ensures TryCreateDir(s.fs, Phys(dst.dir)) == s.fs && CanMove(s.fs, Phys(PathOf(src)), Phys(PathOf(dst)))
  {
    var from, to := Phys(PathOf(src)), Phys(PathOf(dst));
    TargetSlice(dst);
    ParentAbove(dst);
    assert IsDir(s.fs, Phys(dst.dir));
    CreateExistingDir(s.fs, Phys(dst.dir));
    if PathOf(src) == PathOf(dst) { SameKey(s.users, src, dst); }
    assert from[4..] == PathOf(src) && to[4..] == PathOf(dst);
  }

  lemma ParentAbove(k: Key)
    requires '/' !in k.name
    ensures Above(Phys(k.dir), Phys(PathOf(k)))
  {
    assert Phys(PathOf(k)) == Child(Phys(k.dir), k.name);
    AboveChild(Phys(k.dir), Phys(k.dir), k.name);
  }

  lemma ReplacedAt(fs: Tree, from: string, to: string)
    requires WellFormed(fs) && IsFile(fs, from) && IsFile(fs, to) && CanMove(fs, from, to) && to != ""
    ensures At(Moved(fs, from, to), to) == At(fs, from) && At(Moved(fs, from, to), from) == None
  {
    AtMoved(fs, from, to, to);
    AtMoved(fs, from, to, from);
    MoveIsApart(fs, from, to);
    assert Rebase(to, to, from) == from;
  }

  lemma NewParentUnindexed(s: State, s': State, src: Key, dst: Key)
    requires Valid(s) && Agree(s) && InDomain(s.users, src) && InDomain(s.users, dst)
    requires ProperMove(src, dst) && Normal(dst.dir) && s'.users == s.users
    requires !IsDir(s.fs, Phys(dst.dir))
    requires var fs1 := TryCreateDir(s.fs, Phys(dst.dir));
             CanMove(fs1, Phys(PathOf(src)), Phys(PathOf(dst)))
             && s'.fs == Moved(fs1, Phys(PathOf(src)), Phys(PathOf(dst)))
    requires Rekeyed(s.cloud, s'.cloud, RenamePlan(src, dst))
    ensures !Agree(s')
  {
    NewParentOnDisk(s.fs, src, dst);
    var parent := MissingParentKey(s, dst);
    OnlyTargetsAppear(s.cloud, s'.cloud, src, dst, parent);
    assert InDomain(s'.users, parent);
    assert IndexView(s'.cloud, parent) == Absent;
  }

  lemma NewParentOnDisk(fs: Tree, src: Key, dst: Key)
    requires WellFormed(fs) && ProperMove(src, dst) && !IsDir(fs, Phys(dst.dir))
    requires CanMove(TryCreateDir(fs, Phys(dst.dir)), Phys(PathOf(src)), Phys(PathOf(dst)))
    ensures Phys(dst.dir) !in fs
    ensures var fs1 := TryCreateDir(fs, Phys(dst.dir));
            TreeView(Moved(fs1, Phys(PathOf(src)), Phys(PathOf(dst))), dst.dir) == Directory
  {
    var fs1 := TryCreateDir(fs, Phys(dst.dir));
    TargetParent(fs1, src, dst);
    CreateDirWellFormed(fs, Phys(dst.dir));
    MovedTreeView(fs1, PathOf(src), PathOf(dst), dst.dir);
    AboveChild(PathOf(src), dst.dir, dst.name);
    assert |dst.dir| < |PathOf(dst)|;
    OnlyCreated(fs, Phys(dst.dir));
  }

  lemma TargetParent(fs: Tree, src: Key, dst: Key)
    requires '/' !in dst.name && CanMove(fs, Phys(PathOf(src)), Phys(PathOf(dst)))
    ensures IsDir(fs, Phys(dst.dir))
  {
    assert Phys(PathOf(dst)) == Child(Phys(dst.dir), dst.name);
    LastSlashOfChild(Phys(dst.dir), dst.name);
  }

  lemma OnlyCreated(fs: Tree, p: string)
    requires IsDir(TryCreateDir(fs, p), p) && !IsDir(fs, p)
    ensures p !in fs
  {
  }

  // No statement produces a path shorter than the target.
  lemma OnlyTargetsAppear(before: Cloud, after: Cloud, src: Key, dst: Key, k: Key)
    requires Rekeyed(before, after, RenamePlan(src, dst))
    requires k !in before && |PathOf(k)| < |PathOf(dst)|
    ensures k !in after
  {
    if k in after {
      assert HasSource(before, RenamePlan(src, dst), k);
      var j :| j in before && RetargetAll(RenamePlan(src, dst), j) == k;
      PlanPrefixes(RenamePlan(src, dst), j);
    }
  }

  // ---- The converse: a swept row leaves a path without its row ---------------------------------

  // The rows the pattern selects are rows of tracked paths.
  ghost predicate SweptTracked(s: State, src: Key, dst: Key) {
    forall k {:trigger k in s.cloud} ::
      k in s.cloud && k.user == src.user && Swept(Landing(k, src, dst), PathOf(src), PathOf(dst)) ==> InDomain(s.users, k)
  }

  ghost predicate Misplaced(s: State, src: Key, dst: Key, k: Key) {
    k in s.cloud && k.user == src.user && InDomain(s.users, k) && Swept(Landing(k, src, dst), PathOf(src), PathOf(dst))
  }

  // Under the substitution each row's path is on disk after the move.
  lemma ImageOnDisk(s: State, src: Key, dst: Key, k: Key)
    requires LegalMove(s, src, dst) && k in s.cloud && InDomain(s.users, k) && k.user == src.user
    ensures var g := Substitute(k, src, dst);
            InDomain(s.users, g) && TreeView(Moved(s.fs, Phys(PathOf(src)), Phys(PathOf(dst))), PathOf(g)) != Absent
  {
    var from, to, g := PathOf(src), PathOf(dst), Substitute(k, src, dst);
    assert IndexView(s.cloud, k) == TreeView(s.fs, PathOf(k));
    MovedTreeView(s.fs, from, to, PathOf(g));
    AboveChild(from, k.dir, k.name);
    if Under(PathOf(k), from) {
      if PathOf(k) == from { SameKey(s.users, k, src); }
      assert PathOf(g) == Rebase(PathOf(k), from, to) by { if k != src { RebaseChild(k.dir, k.name, from, to); } }
      RebaseUnder(PathOf(k), from, to);
      TrackedBelow(dst.user, to, PathOf(g));
    } else {
      assert g == k;
      AgreeingTargetIsFree(s, dst);
      AboveChild(to, k.dir, k.name);
      if PathOf(k) == to { SameKey(s.users, k, dst); }
    }
  }

  lemma SubstituteInjective(s: State, src: Key, dst: Key, j: Key, k: Key)
    requires LegalMove(s, src, dst) && j in s.cloud && k in s.cloud && InDomain(s.users, k) && PlainName(j.name)
    requires k.user == src.user && Substitute(j, src, dst) == Substitute(k, src, dst)
    ensures j == k
  {
    var g := Substitute(k, src, dst);
    ImageOnDisk(s, src, dst, k);
    if j != g { SubstituteSource(j, src, dst, g); }
    if k != g { SubstituteSource(k, src, dst, g); }
    if j != k { PreimageFacts(s, src, dst, g); }
  }

  // The path a misplaced row belongs to can only be held by another misplaced row.
  lemma Successor(s: State, s': State, src: Key, dst: Key, k: Key) returns (j: Key)
    requires LegalMove(s, src, dst) && '\\' !in PathOf(src) && Agree(s') && s'.users == s.users
    requires s'.fs == Moved(s.fs, Phys(PathOf(src)), Phys(PathOf(dst)))
    requires Rekeyed(s.cloud, s'.cloud, RenamePlan(src, dst)) && SweptTracked(s, src, dst) && Misplaced(s, src, dst, k)
    ensures Misplaced(s, src, dst, j)
    ensures Landing(k, src, dst) == Rebase(Landing(j, src, dst), PathOf(src), PathOf(dst))
  {
    var g := Substitute(k, src, dst);
    ImageOnDisk(s, src, dst, k);
    assert IndexView(s'.cloud, g) != Absent;
    assert HasSource(s.cloud, RenamePlan(src, dst), g);
    j :| j in s.cloud && RetargetAll(RenamePlan(src, dst), j) == g;
    PlanPrefixes(RenamePlan(src, dst), j);
    PlanOnRow(src, dst, k);
    PlanOnRow(src, dst, j);
    if Substitute(j, src, dst) == g { SubstituteInjective(s, src, dst, j, k); }
  }

  // Such a chain of rows grows or shrinks along the directories and cannot go on for ever.
  lemma {:induction false} NoneMisplaced(s: State, s': State, src: Key, dst: Key, k: Key, bound: nat)
    requires LegalMove(s, src, dst) && '\\' !in PathOf(src) && Agree(s') && s'.users == s.users
    requires s'.fs == Moved(s.fs, Phys(PathOf(src)), Phys(PathOf(dst)))
    requires Rekeyed(s.cloud, s'.cloud, RenamePlan(src, dst)) && SweptTracked(s, src, dst)
    requires forall j {:trigger Landing(j, src, dst)} :: j in s.cloud ==> |Landing(j, src, dst)| <= bound
    ensures !Misplaced(s, src, dst, k)
    decreases if |PathOf(dst)| > |PathOf(src)| then |Landing(k, src, dst)| else bound - |Landing(k, src, dst)|
  {
    if Misplaced(s, src, dst, k) {
      var j := Successor(s, s', src, dst, k);
      RebaseChain(Landing(j, src, dst), Landing(k, src, dst), PathOf(src), PathOf(dst));
      NoneMisplaced(s, s', src, dst, j, bound);
    }
  }

  // A directory that comes of rewriting another and is rewritten itself: lengths move one way.
  lemma RebaseChain(before: string, after: string, from: string, to: string)
    requires after == Rebase(before, from, to) && Rebase(after, from, to) != after
    ensures |to| > |from| ==> |before| < |after|
    ensures |to| <= |from| ==> |before| > |after|
  {
    assert after[|to|..] == if |from| <= |before| then before[|from|..] else "";
  }

  lemma {:induction false} Longest(keys: set<Key>, src: Key, dst: Key) returns (bound: nat)
    ensures forall k {:trigger Landing(k, src, dst)} :: k in keys ==> |Landing(k, src, dst)| <= bound
  {
    if keys == {} {
      bound := 0;
    } else {
      var k :| k in keys;
      var rest := Longest(keys - {k}, src, dst);
      bound := rest + |Landing(k, src, dst)|;
      assert forall j :: j in keys ==> j == k || j in keys - {k};
    }
  }

  lemma AgreementIsFaithful(s: State, s': State, src: Key, dst: Key, r: Outcome)
    requires Valid(s) && Agree(s) && InDomain(s.users, src) && InDomain(s.users, dst) && src.user == dst.user
    requires '\\' !in PathOf(src) && Movable(s.fs, src, dst) && SweptTracked(s, src, dst)
    requires MoveStep(s, s', src, dst, r) && r.Ok? && Agree(s')
    ensures Faithful(s.cloud, src, dst)
  {
    MovableIsLegal(s, src, dst);
    FullPlan(s.cloud, s'.cloud, src, dst);
    var bound := Longest(s.cloud.Keys, src, dst);
    forall k | k in s.cloud && k.user == src.user ensures !Swept(Landing(k, src, dst), PathOf(src), PathOf(dst)) {
      NoneMisplaced(s, s', src, dst, k, bound);
    }
  }
}
