/**
  The state a new installation starts in: the homes of its users, and nothing else.
 */
module FreshState {
  import opened Wrappers
  import opened VirtualPath
  import opened FileTree
  import opened StorageState
  import opened TrashIntegrity

  // The homes and the directories above them.
  function Homes(users: set<string>): set<string> {
    set u, a | u in users && a in Chain(Phys(Home(u))) :: a
  }

  function NewState(users: set<string>): State {
    State(users, map a | a in Homes(users) :: Dir, map[], map[], 0)
  }

  // What lies below a home is at or above no home.
  lemma BelowHomeIsNew(u: string, x: string, users: set<string>)
    requires ValidName(u) && (forall v :: v in users ==> ValidName(v)) && Above(Home(u), x)
    ensures Phys(x) !in Homes(users)
  {
    forall v | v in users ensures Phys(x) !in Chain(Phys(Home(v))) {
      PhysUnder(Home(v), x);
      if Under(Home(v), x) {
        AboveTransitive(Home(u), x, Home(v));
        HomesApart(u, v, Home(v));
      }
    }
  }

  lemma NewTree(users: set<string>)
    ensures WellFormed(NewState(users).fs)
  {
    var fs := NewState(users).fs;
    forall p, a {:trigger Above(a, p)} | p in fs && a != "" && Above(a, p) ensures IsDir(fs, a) {
      var u :| u in users && p in Chain(Phys(Home(u)));
      AboveTransitive(a, p, Phys(Home(u)));
      assert a in Chain(Phys(Home(u)));
    }
  }

  // It satisfies everything the requests are proved to keep.
  lemma NewStateIsSound(users: set<string>)
    requires forall u :: u in users ==> ValidName(u)
    ensures var s := NewState(users); Valid(s) && Agree(s) && Integrity(s) && NoOrphans(s) && Rooted(s.trash)
  {
    var s := NewState(users);
    NewTree(users);
    forall u | u in users ensures Phys(Home(u)) in s.fs {
      assert Phys(Home(u)) in Chain(Phys(Home(u)));
    }
    forall u, h {:trigger BlobPath(u, h)} | u in users ensures BlobPath(u, h) !in s.fs {
      BlobPathFacts(u, h);
      var b := Child(TrashRoot(u) + "/blobs", UuidText(h));
      assert Above(Home(u), TrashRoot(u));
      AboveTransitive(Home(u), TrashRoot(u), b);
      BelowHomeIsNew(u, b, users);
    }
    forall k {:trigger InDomain(users, k)} | InDomain(users, k) ensures IndexView(s.cloud, k) == TreeView(s.fs, PathOf(k)) {
      BelowHomeIsNew(k.user, PathOf(k), users);
    }
  }
}
