/**
  list: a directory's rows in name order, page by page, answered from the index alone.
 */
module StorageList {
  import opened Wrappers
  import opened VirtualPath
  import opened FileTree
  import opened StorageState

  const DEFAULT_LIMIT := 200

  // ---- Name order ------------------------------------------------------------------------------

  predicate Before(a: string, b: string) {
    if b == "" then false
    else if a == "" then true
    else if a[0] != b[0] then a[0] < b[0]
    else Before(a[1..], b[1..])
  }

  // After i common characters a ends, or has the smaller character.
  predicate FirstDifference(a: string, b: string, i: nat) {
    i <= |a| && i < |b| && a[..i] == b[..i] && (i == |a| || a[i] < b[i])
  }

  lemma DifferenceShifts(a: string, b: string, i: nat)
    requires a != "" && b != "" && a[0] == b[0]
    ensures FirstDifference(a[1..], b[1..], i) <==> FirstDifference(a, b, i + 1)
  {
    if i < |a| && i + 1 < |b| {
      assert a[..i + 1] == [a[0]] + a[1..][..i] && b[..i + 1] == [b[0]] + b[1..][..i];
      assert a[..i + 1][1..] == a[1..][..i] && b[..i + 1][1..] == b[1..][..i];
    }
  }

  // The order is the ascending lexicographic one.
  lemma {:induction false} BeforeExact(a: string, b: string)
    ensures Before(a, b) <==> exists i {:trigger FirstDifference(a, b, i)} :: FirstDifference(a, b, i)
  {
    if a == "" || b == "" || a[0] != b[0] {
      if b != "" && (a == "" || a[0] < b[0]) { assert FirstDifference(a, b, 0); }
    } else {
      BeforeExact(a[1..], b[1..]);
      forall i: nat ensures FirstDifference(a[1..], b[1..], i) <==> FirstDifference(a, b, i + 1) { DifferenceShifts(a, b, i); }
      assert !FirstDifference(a, b, 0);
      if i: nat :| FirstDifference(a, b, i) { assert FirstDifference(a[1..], b[1..], i - 1); }
    }
  }

  lemma {:induction false} BeforeIsTotal(a: string, b: string)
    ensures Before(a, b) || Before(b, a) || a == b
    ensures !(Before(a, b) && Before(b, a)) && !Before(a, a)
  {
    if a != "" { BeforeIsTotal(a[1..], a[1..]); }
    if a != "" && b != "" && a[0] == b[0] {
      BeforeIsTotal(a[1..], b[1..]);
      assert a == [a[0]] + a[1..] && b == [b[0]] + b[1..];
    }
  }

  lemma {:induction false} BeforeTransitive(a: string, b: string, c: string)
    requires Before(a, b) && Before(b, c)
    ensures Before(a, c)
  {
    if a != "" && a[0] == b[0] && b[0] == c[0] { BeforeTransitive(a[1..], b[1..], c[1..]); }
  }

  ghost predicate InOrder(names: seq<string>) {
    forall i, j {:trigger names[i], names[j]} :: 0 <= i < j < |names| ==> Before(names[i], names[j])
  }

  function Insert(names: seq<string>, n: string): seq<string> {
    if names == [] then [n]
    else if Before(n, names[0]) then [n] + names
    else [names[0]] + Insert(names[1..], n)
  }

  lemma {:induction false} InsertKeepsOrder(names: seq<string>, n: string)
    requires InOrder(names) && n !in names
    ensures InOrder(Insert(names, n))
    ensures forall m :: m in Insert(names, n) <==> m in names || m == n
  {
    if names != [] {
      var first, rest := names[0], names[1..];
      assert names == [first] + rest;
      BeforeIsTotal(n, first);
      if Before(n, first) {
        forall m | m in names ensures Before(n, m) {
          if m != first { assert Before(first, m); BeforeTransitive(n, first, m); }
        }
      } else {
        InsertKeepsOrder(rest, n);
        forall m | m in Insert(rest, n) ensures Before(first, m) {
          if m != n { assert m in rest; }
        }
      }
    }
  }

  // ---- Pages -----------------------------------------------------------------------------------

  datatype DocsEntry = DocsEntry(name: string, isDir: bool, size: nat)
  datatype Page = Page(entries: seq<DocsEntry>, hasMore: bool, nextOffset: int)

  // The rows of one directory in name order: what `order by name` returns, every name once.
  ghost predicate RowsOf(cloud: Cloud, user: string, dir: string, names: seq<string>) {
    InOrder(names) && forall n :: n in names <==> Key(user, dir, n) in cloud
  }

  function EntryOf(cloud: Cloud, k: Key): DocsEntry
    requires k in cloud
  {
    DocsEntry(k.name, cloud[k].mime == InodeDirectory, cloud[k].size)
  }

  // The i-th entry is the row of the i-th name.
  predicate ShowsAt(cloud: Cloud, user: string, dir: string, entries: seq<DocsEntry>, names: seq<string>, i: nat)
    requires i < |entries| == |names|
  {
    Key(user, dir, names[i]) in cloud && entries[i] == EntryOf(cloud, Key(user, dir, names[i]))
  }

  ghost predicate Shows(cloud: Cloud, user: string, dir: string, entries: seq<DocsEntry>, names: seq<string>) {
    |entries| == |names| &&
    forall i {:trigger ShowsAt(cloud, user, dir, entries, names, i)} :: 0 <= i < |names| ==>
      ShowsAt(cloud, user, dir, entries, names, i)
  }

  lemma ShowsNext(cloud: Cloud, user: string, dir: string, entries: seq<DocsEntry>, names: seq<string>, n: string)
    requires Shows(cloud, user, dir, entries, names) && Key(user, dir, n) in cloud
    ensures Shows(cloud, user, dir, entries + [EntryOf(cloud, Key(user, dir, n))], names + [n])
  {
    var more, all := entries + [EntryOf(cloud, Key(user, dir, n))], names + [n];
    forall i | 0 <= i < |all| ensures ShowsAt(cloud, user, dir, more, all, i) {
      if i < |names| { assert ShowsAt(cloud, user, dir, entries, names, i); }
    }
  }

  function Min(a: int, b: int): int { if a < b then a else b }

  // limit and offset of the query; a negative one is refused by the database.
  function Slice<T>(rows: seq<T>, offset: int, limit: int): seq<T>
    requires offset >= 0 && limit >= 0
  {
    rows[Min(offset, |rows|)..Min(offset + limit, |rows|)]
  }

  // One page of the directory's rows.
  ghost predicate PageOf(cloud: Cloud, user: string, dir: string, names: seq<string>, offset: int, limit: int, page: Page)
    requires offset >= 0 && limit >= 0
  {
    && RowsOf(cloud, user, dir, names)
    && Shows(cloud, user, dir, page.entries, Slice(names, offset, limit))
    && (page.hasMore <==> |names| > offset + limit)
    && page.nextOffset == offset + limit
  }

  lemma SameEmptiness(a: seq<string>, b: seq<string>)
    requires forall n :: n in a <==> n in b
    ensures a == [] <==> b == []
  {
    if a != [] { assert a[0] in a; }
    if b != [] { assert b[0] in b; }
  }

  // The rows in name order are determined, so the pages of one directory fit together.
  lemma {:induction false} OneOrder(a: seq<string>, b: seq<string>)
    requires InOrder(a) && InOrder(b) && forall n :: n in a <==> n in b
    ensures a == b
  {
    SameEmptiness(a, b);
    if a != [] {
      FirstIsLeast(a, b);
      var a', b' := a[1..], b[1..];
      assert a == [a[0]] + a' && b == [b[0]] + b';
      forall n ensures n in a' <==> n in b' { InTail(a, n); InTail(b, n); }
      OneOrder(a', b');
    }
  }

  lemma InTail(a: seq<string>, n: string)
    requires InOrder(a) && a != []
    ensures n in a[1..] <==> n in a && n != a[0]
  {
    assert a == [a[0]] + a[1..];
    if i :| 1 <= i < |a| && a[i] == n {
      assert Before(a[0], a[i]);
      BeforeIsTotal(a[0], n);
    }
  }

  lemma FirstIsLeast(a: seq<string>, b: seq<string>)
    requires InOrder(a) && InOrder(b) && a != [] && b != [] && forall n :: n in a <==> n in b
    ensures a[0] == b[0]
  {
    assert a[0] in b && b[0] in a;
    if a[0] != b[0] {
      assert Before(a[0], b[0]) && Before(b[0], a[0]);
      BeforeIsTotal(a[0], b[0]);
    }
  }

  class Listing {
    var cloud: Cloud

    constructor (cloud: Cloud)
      ensures this.cloud == cloud
    {
      this.cloud := cloud;
    }

    method SelectNames(user: string, dir: string) returns (names: seq<string>)
      ensures RowsOf(cloud, user, dir, names)
    {
      names := [];
      var todo := cloud.Keys;
      while todo != {}
        invariant todo <= cloud.Keys && InOrder(names)
        invariant forall n :: n in names <==> Key(user, dir, n) in cloud && Key(user, dir, n) !in todo
        decreases |todo|
      {
        var k :| k in todo;
        todo := todo - {k};
        if k.user == user && k.dir == dir {
          InsertKeepsOrder(names, k.name);
          names := Insert(names, k.name);
        }
      }
    }

    method List(user: string, dir: string, queryLimit: Option<int>, queryOffset: Option<int>)
      returns (r: Result<Page, Error>)
      ensures var limit := if queryLimit.Some? then queryLimit.value else 200;
              var offset := if queryOffset.Some? then queryOffset.value else 0;
              if limit < 0 || offset < 0 then r == Err(Database)
              else r.Ok? && exists names :: PageOf(cloud, user, dir, names, offset, limit, r.value)
    {
      var limit := if queryLimit.Some? then queryLimit.value else DEFAULT_LIMIT;
      var offset := if queryOffset.Some? then queryOffset.value else 0;
      var all := SelectNames(user, dir);
      if limit < 0 || offset < 0 { return Err(Database); }
      var rows := Slice(all, offset, limit);
      var entries: seq<DocsEntry> := [];
      for i := 0 to |rows|
        invariant Shows(cloud, user, dir, entries, rows[..i])
      {
        assert rows[i] in all;
        ShowsNext(cloud, user, dir, entries, rows[..i], rows[i]);
        assert rows[..i + 1] == rows[..i] + [rows[i]];
        entries := entries + [EntryOf(cloud, Key(user, dir, rows[i]))];
      }
      assert rows[..|rows|] == rows;
      r := Ok(Page(entries, |all| > offset + limit, offset + limit));
      assert PageOf(cloud, user, dir, all, offset, limit, r.value);
    }

    // A client that follows nextOffset while hasMore, for at most `pages` requests. It has the first
    // pages * limit rows, each once and in order, and is told so exactly when these are all.
    method ListPages(user: string, dir: string, limit: int, pages: nat) returns (r: Result<seq<DocsEntry>, Error>, done: bool)
      ensures r.Err? <==> limit < 0 && pages > 0
      ensures limit >= 0 ==> exists names :: RowsOf(cloud, user, dir, names)
                               && Shows(cloud, user, dir, r.value, names[..Min(pages * limit, |names|)])
                               && (done <==> pages > 0 && |names| <= pages * limit)
    {
      ghost var names := RowsAmong(cloud.Keys, user, dir);
      var collected: seq<DocsEntry> := [];
      var offset, i := 0, 0;
      done := false;
      while i < pages && !done
        invariant i <= pages && (i > 0 ==> limit >= 0) && offset == i * limit && offset >= 0
        invariant Shows(cloud, user, dir, collected, names[..Min(offset, |names|)])
        invariant done <==> i > 0 && |names| <= offset
      {
        var page := List(user, dir, Some(limit), Some(offset));
        if page.Err? { return Err(page.error), false; }
        NextPage(cloud, user, dir, names, offset, limit, page.value, collected);
        NextProduct(i, limit);
        collected := collected + page.value.entries;
        done := !page.value.hasMore;
        offset := page.value.nextOffset;
        i := i + 1;
      }
      if limit >= 0 { PagesLeft(i, pages, limit, |names|, done); }
      r := Ok(collected);
    }
  }

  lemma {:induction false} RowsAmong(keys: set<Key>, user: string, dir: string) returns (names: seq<string>)
    ensures InOrder(names) && forall n :: n in names <==> Key(user, dir, n) in keys
    decreases |keys|
  {
    if keys == {} {
      names := [];
    } else {
      var k :| k in keys;
      names := RowsAmong(keys - {k}, user, dir);
      if k.user == user && k.dir == dir {
        InsertKeepsOrder(names, k.name);
        names := Insert(names, k.name);
      }
    }
  }

  lemma ShowsConcat(cloud: Cloud, user: string, dir: string, a: seq<DocsEntry>, b: seq<DocsEntry>, m: seq<string>, n: seq<string>)
    requires Shows(cloud, user, dir, a, m) && Shows(cloud, user, dir, b, n)
    ensures Shows(cloud, user, dir, a + b, m + n)
  {
    forall i | 0 <= i < |m + n| ensures ShowsAt(cloud, user, dir, a + b, m + n, i) {
      if i < |m| { assert ShowsAt(cloud, user, dir, a, m, i); } else { assert ShowsAt(cloud, user, dir, b, n, i - |m|); }
    }
  }

  lemma SliceNext<T>(rows: seq<T>, offset: int, limit: int)
    requires offset >= 0 && limit >= 0
    ensures rows[..Min(offset, |rows|)] + Slice(rows, offset, limit) == rows[..Min(offset + limit, |rows|)]
  {
  }

  // One more page of the same rows.
  lemma NextPage(cloud: Cloud, user: string, dir: string, names: seq<string>, offset: int, limit: int, page: Page,
                 collected: seq<DocsEntry>)
    requires offset >= 0 && limit >= 0 && RowsOf(cloud, user, dir, names)
    requires exists all :: PageOf(cloud, user, dir, all, offset, limit, page)
    requires Shows(cloud, user, dir, collected, names[..Min(offset, |names|)])
    ensures Shows(cloud, user, dir, collected + page.entries, names[..Min(offset + limit, |names|)])
    ensures page.nextOffset == offset + limit && (page.hasMore <==> |names| > offset + limit)
  {
    var all :| PageOf(cloud, user, dir, all, offset, limit, page);
    OneOrder(names, all);
    ShowsConcat(cloud, user, dir, collected, page.entries, names[..Min(offset, |names|)], Slice(names, offset, limit));
    SliceNext(names, offset, limit);
  }

  lemma NextProduct(i: nat, limit: int)
    ensures (i + 1) * limit == i * limit + limit
  {
  }

  // Fewer pages than allowed were asked for only because there was nothing left.
  lemma PagesLeft(i: nat, pages: nat, limit: nat, rows: nat, done: bool)
    requires i <= pages && (i == pages || done) && (done <==> i > 0 && rows <= i * limit)
    ensures Min(i * limit, rows) == Min(pages * limit, rows)
    ensures done <==> pages > 0 && rows <= pages * limit
  {
    assert pages * limit == i * limit + (pages - i) * limit;
  }

  // While the index agrees with the tree, a complete listing shows exactly what is on disk.
  lemma ListingShowsDisk(s: State, user: string, dir: string, entries: seq<DocsEntry>, names: seq<string>, n: string)
    requires Agree(s) && RowsOf(s.cloud, user, dir, names) && Shows(s.cloud, user, dir, entries, names)
    requires InDomain(s.users, Key(user, dir, n))
    ensures (exists i :: 0 <= i < |entries| && entries[i].name == n) <==> Phys(Child(dir, n)) in s.fs
    ensures forall i :: 0 <= i < |entries| && entries[i].name == n ==>
              && entries[i].isDir == IsDir(s.fs, Phys(Child(dir, n)))
              && (!entries[i].isDir ==> entries[i].size == |s.fs[Phys(Child(dir, n))].data|)
  {
    var k := Key(user, dir, n);
    assert IndexView(s.cloud, k) == TreeView(s.fs, PathOf(k));
    if k in s.cloud {
      assert n in names;
      var i :| 0 <= i < |names| && names[i] == n;
      assert ShowsAt(s.cloud, user, dir, entries, names, i);
      assert entries[i].name == n;
    }
    forall i | 0 <= i < |entries| && entries[i].name == n
      ensures k in s.cloud && entries[i] == EntryOf(s.cloud, k)
    {
      assert ShowsAt(s.cloud, user, dir, entries, names, i);
    }
  }
}
