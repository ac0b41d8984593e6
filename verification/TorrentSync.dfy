/**
  The downloader's own index: after a torrent is complete every file on disk gets a row, and every
  directory on the way to it gets one as well.
 */
module TorrentSync {
  import opened Wrappers
  import opened Text
  import opened VirtualPath

  // Rows of one user; storage is 'dir' or 'file'.
  datatype Slot = Slot(dir: string, name: string)
  datatype Record = Record(size: nat, isDir: bool)
  type Table = map<Slot, Record>

  // A file of the torrent: the components of its virtual directory, and its name.
  datatype Entry = Entry(parts: seq<string>, name: string)

  // Sizes of the files present on disk, by the row they belong to.
  type Disk = map<Slot, nat>

  function SlotOf(e: Entry): Slot {
    Slot(Render(e.parts), e.name)
  }

  // The row of the i-th directory on the way.
  function Ancestor(parts: seq<string>, i: nat): Slot
    requires i < |parts|
  {
    Slot(Render(parts[..i]), parts[i])
  }

  predicate IsAncestor(parts: seq<string>, k: Slot) {
    exists i {:trigger Ancestor(parts, i)} :: 0 <= i < |parts| && Ancestor(parts, i) == k
  }

  // An insert that meets an existing key fails, and its failure is ignored.
  function InsertDir(t: Table, k: Slot): Table {
    if k in t then t else t[k := Record(0, true)]
  }

  function EnsureDirs(t: Table, parts: seq<string>): Table {
    if parts == [] then t
    else
      var n := |parts| - 1;
      InsertDir(EnsureDirs(t, parts[..n]), Ancestor(parts, n))
  }

  function SyncFile(t: Table, k: Slot, size: Option<nat>): Table {
    if size.None? then t
    else if k in t then t[k := t[k].(size := size.value)]
    else t[k := Record(size.value, false)]
  }

  function SizeOnDisk(disk: Disk, k: Slot): Option<nat> {
    if k in disk then Some(disk[k]) else None
  }

  function SyncEntry(t: Table, disk: Disk, e: Entry): Table {
    SyncFile(EnsureDirs(t, e.parts), SlotOf(e), SizeOnDisk(disk, SlotOf(e)))
  }

  function SyncAll(t: Table, disk: Disk, files: seq<Entry>): Table {
    if files == [] then t else SyncEntry(SyncAll(t, disk, files[..|files| - 1]), disk, files[|files| - 1])
  }

  // ---- What the table says afterwards ------------------------------------------------------------

  predicate Touched(files: seq<Entry>, k: Slot) {
    exists e {:trigger IsAncestor(e.parts, k)} :: e in files && IsAncestor(e.parts, k)
  }

  predicate Present(disk: Disk, files: seq<Entry>, k: Slot) {
    k in disk && exists e {:trigger SlotOf(e)} :: e in files && SlotOf(e) == k
  }

  lemma {:induction false} EnsuredAt(t: Table, parts: seq<string>, k: Slot)
    ensures k in EnsureDirs(t, parts) <==> k in t || IsAncestor(parts, k)
    ensures k in EnsureDirs(t, parts) ==> EnsureDirs(t, parts)[k] == if k in t then t[k] else Record(0, true)
  {
    if parts != [] {
      var n := |parts| - 1;
      EnsuredAt(t, parts[..n], k);
      assert forall i {:trigger Ancestor(parts, i)} :: 0 <= i < n ==> Ancestor(parts[..n], i) == Ancestor(parts, i) by {
        forall i | 0 <= i < n ensures Ancestor(parts[..n], i) == Ancestor(parts, i) { assert parts[..n][..i] == parts[..i]; }
      }
      if IsAncestor(parts[..n], k) {
        var i :| 0 <= i < n && Ancestor(parts[..n], i) == k;
        assert Ancestor(parts, i) == k;
      }
    }
  }

  // Which rows there are, and their sizes: current for every file present, otherwise untouched.
  lemma {:induction false} SyncedAt(t: Table, disk: Disk, files: seq<Entry>, k: Slot)
    ensures var t' := SyncAll(t, disk, files);
            && (k in t' <==> k in t || Touched(files, k) || Present(disk, files, k))
            && (k in t' ==> t'[k].size == if Present(disk, files, k) then disk[k] else if k in t then t[k].size else 0)
            && (k in t ==> t'[k].isDir == t[k].isDir)
  {
    if files != [] {
      var n := |files| - 1;
      var e := files[n];
      SyncedAt(t, disk, files[..n], k);
      EnsuredAt(SyncAll(t, disk, files[..n]), e.parts, k);
      LastTouched(disk, files, k);
    }
  }

  lemma LastTouched(disk: Disk, files: seq<Entry>, k: Slot)
    requires files != []
    ensures var front, e := files[..|files| - 1], files[|files| - 1];
            && (Touched(files, k) <==> Touched(front, k) || IsAncestor(e.parts, k))
            && (Present(disk, files, k) <==> Present(disk, front, k) || (k in disk && SlotOf(e) == k))
  {
    var front, e := files[..|files| - 1], files[|files| - 1];
    assert files == front + [e];
  }

  // ---- Directories on the way ----------------------------------------------------------------------

  // The path a row stands for.
  function FullPath(k: Slot): string {
    if k.dir == "/" then "/" + k.name else k.dir + "/" + k.name
  }

  lemma AncestorPath(parts: seq<string>, i: nat)
    requires i < |parts| && ValidParts(parts)
    ensures FullPath(Slot(Render(parts[..i]), parts[i])) == Render(parts[..i + 1])
  {
    assert parts[..i + 1] == parts[..i] + [parts[i]];
    assert forall n :: n in parts[..i] ==> n in parts && ValidName(n);
    RenderNext(parts[..i], parts[i]);
  }

  // Every directory on the way to a file of the torrent has a row, whatever is on disk.
  lemma WayIndexed(t: Table, disk: Disk, files: seq<Entry>, e: Entry, i: nat)
    requires e in files && ValidParts(e.parts) && i < |e.parts|
    ensures exists k {:trigger FullPath(k)} :: k in SyncAll(t, disk, files) && FullPath(k) == Render(e.parts[..i + 1])
  {
    var k := Slot(Render(e.parts[..i]), e.parts[i]);
    assert Ancestor(e.parts, i) == k && IsAncestor(e.parts, k) && Touched(files, k);
    SyncedAt(t, disk, files, k);
    AncestorPath(e.parts, i);
    assert FullPath(k) == Render(e.parts[..i + 1]);
  }

  // Every new row stands at the top level or in a directory that has a row: no file or directory is
  // indexed below one that is not.
  lemma ParentsIndexed(t: Table, disk: Disk, files: seq<Entry>, k: Slot)
    requires forall e {:trigger e in files} :: e in files ==> ValidParts(e.parts)
    requires k in SyncAll(t, disk, files) && k !in t
    ensures k.dir == "/" || exists j {:trigger FullPath(j)} :: j in SyncAll(t, disk, files) && FullPath(j) == k.dir
  {
    SyncedAt(t, disk, files, k);
    var e: Entry, n: nat;
    if Touched(files, k) {
      e :| e in files && IsAncestor(e.parts, k);
      n :| n < |e.parts| && Ancestor(e.parts, n) == k;
    } else {
      e :| e in files && SlotOf(e) == k;
      n := |e.parts|;
    }
    assert k.dir == Render(e.parts[..n]) by { assert e.parts[..|e.parts|] == e.parts; }
    if n > 0 { WayIndexed(t, disk, files, e, n - 1); } else { assert Render([]) == "/"; }
  }

  // Running the loop again changes nothing.
  lemma SyncIdempotent(t: Table, disk: Disk, files: seq<Entry>)
    ensures SyncAll(SyncAll(t, disk, files), disk, files) == SyncAll(t, disk, files)
  {
    var t1 := SyncAll(t, disk, files);
    var t2 := SyncAll(t1, disk, files);
    forall k ensures k in t2 <==> k in t1 { SyncedAt(t, disk, files, k); SyncedAt(t1, disk, files, k); }
    forall k | k in t1 ensures t2[k] == t1[k] {
      SyncedAt(t, disk, files, k);
      SyncedAt(t1, disk, files, k);
    }
  }

  // ---- Kinds ----------------------------------------------------------------------------------------

  // No file row sits where a directory is needed, no directory row where a file is, and no file
  // of the torrent bears the name of a directory on the way to another.
  ghost predicate NoClash(t: Table, disk: Disk, files: seq<Entry>) {
    forall k {:trigger k in t} {:trigger Touched(files, k)} {:trigger Present(disk, files, k)} ::
      && (Touched(files, k) && k in t ==> t[k].isDir)
      && (Present(disk, files, k) && k in t ==> !t[k].isDir)
      && !(Touched(files, k) && Present(disk, files, k))
  }

  // Every file present has a file row of its size, every directory on the way a directory row.
  ghost predicate Indexed(t: Table, disk: Disk, files: seq<Entry>) {
    forall k {:trigger k in t} {:trigger Touched(files, k)} {:trigger Present(disk, files, k)} ::
      && (Touched(files, k) ==> k in t && t[k].isDir)
      && (Present(disk, files, k) ==> k in t && t[k] == Record(disk[k], false))
  }

  // A new row is a directory or a file according to what asked for it.
  lemma {:induction false} NewRowKind(t: Table, disk: Disk, files: seq<Entry>, k: Slot)
    requires k !in t && !(Touched(files, k) && Present(disk, files, k))
    ensures var t' := SyncAll(t, disk, files);
            && (Touched(files, k) ==> k in t' && t'[k].isDir)
            && (Present(disk, files, k) ==> k in t' && !t'[k].isDir)
  {
    if files != [] {
      var n := |files| - 1;
      LastTouched(disk, files, k);
      NewRowKind(t, disk, files[..n], k);
      SyncedAt(t, disk, files[..n], k);
      EnsuredAt(SyncAll(t, disk, files[..n]), files[n].parts, k);
    }
  }

  // The sync leaves everything indexed exactly when nothing clashes.
  lemma SyncIndexes(t: Table, disk: Disk, files: seq<Entry>)
    ensures Indexed(SyncAll(t, disk, files), disk, files) <==> NoClash(t, disk, files)
  {
    var t' := SyncAll(t, disk, files);
    if NoClash(t, disk, files) {
      forall k ensures (Touched(files, k) ==> k in t' && t'[k].isDir)
                       && (Present(disk, files, k) ==> k in t' && t'[k] == Record(disk[k], false))
      {
        SyncedAt(t, disk, files, k);
        if k !in t { NewRowKind(t, disk, files, k); }
      }
    }
    if Indexed(t', disk, files) {
      forall k ensures (Touched(files, k) && k in t ==> t[k].isDir) && (Present(disk, files, k) && k in t ==> !t[k].isDir)
                       && !(Touched(files, k) && Present(disk, files, k))
      {
        SyncedAt(t, disk, files, k);
        assert Touched(files, k) ==> t'[k].isDir;
        assert Present(disk, files, k) ==> !t'[k].isDir;
      }
    }
  }

  // Rows that belong to no file present keep everything they had.
  lemma OtherRowsUnchanged(t: Table, disk: Disk, files: seq<Entry>, k: Slot)
    requires k in t && !Present(disk, files, k)
    ensures k in SyncAll(t, disk, files) && SyncAll(t, disk, files)[k] == t[k]
  {
    SyncedAt(t, disk, files, k);
  }

  // ---- The service ------------------------------------------------------------------------------------

  class Index {
    var rows: Table

    constructor (rows: Table)
      ensures this.rows == rows
    {
      this.rows := rows;
    }

    // ensure_directory_exists_internal
    method EnsureDirectory(dir: string, ghost parts: seq<string>)
      requires ValidParts(parts) && dir == Render(parts)
      modifies this
      ensures rows == EnsureDirs(old(rows), parts)
    {
      ComponentsOfRender(parts);
      if dir == "/" {
        RootHasNoParts(parts);
        return;
      }
      var names := Components(dir);
      var current := "/";
      assert names[..0] == [] && Render([]) == "/";
      for i := 0 to |names|
        invariant current == Render(names[..i])
        invariant rows == EnsureDirs(old(rows), names[..i])
      {
        var name := names[i];
        LevelAdded(old(rows), names, i);
        EnsureLevel(Slot(current, name));
        current := if current == "/" then "/" + name else current + "/" + name;
      }
      assert names[..|names|] == names;
    }

    // One directory: its row is looked for and, if there is none, inserted.
    method EnsureLevel(k: Slot)
      modifies this
      ensures rows == if k in old(rows) then old(rows) else old(rows)[k := Record(0, true)]
    {
      var found := k in rows && rows[k].isDir;
      if !found {
        if k !in rows { rows := rows[k := Record(0, true)]; }
      }
    }

    // sync_file_to_db_internal
    method SyncOne(k: Slot, size: Option<nat>)
      modifies this
      ensures rows == SyncFile(old(rows), k, size)
    {
      if size.None? { return; }
      if k in rows {
        rows := rows[k := rows[k].(size := size.value)];
      } else {
        rows := rows[k := Record(size.value, false)];
      }
    }

    // The file loop of monitor_torrent_process_internal.
    method Sync(disk: Disk, files: seq<Entry>)
      requires forall e {:trigger e in files} :: e in files ==> ValidParts(e.parts)
      modifies this
      ensures rows == SyncAll(old(rows), disk, files)
    {
      assert files[..0] == [];
      for i := 0 to |files|
        invariant rows == SyncAll(old(rows), disk, files[..i])
      {
        var e := files[i];
        assert e in files && files[..i + 1][..i] == files[..i];
        EnsureDirectory(Render(e.parts), e.parts);
        SyncOne(SlotOf(e), SizeOnDisk(disk, SlotOf(e)));
      }
      assert files[..|files|] == files;
    }
  }

  lemma LevelAdded(t: Table, names: seq<string>, i: nat)
    requires i < |names| && ValidParts(names)
    ensures EnsureDirs(t, names[..i + 1]) ==
            var before, k := EnsureDirs(t, names[..i]), Slot(Render(names[..i]), names[i]);
            if k in before then before else before[k := Record(0, true)]
    ensures Render(names[..i + 1]) ==
            if Render(names[..i]) == "/" then "/" + names[i] else Render(names[..i]) + "/" + names[i]
  {
    assert names[..i + 1][..i] == names[..i];
    assert names[..i + 1] == names[..i] + [names[i]];
    assert forall n :: n in names[..i] ==> n in names && ValidName(n);
    RenderNext(names[..i], names[i]);
  }

  lemma RenderNext(parts: seq<string>, name: string)
    requires forall n :: n in parts ==> n != ""
    ensures Render(parts + [name]) == if Render(parts) == "/" then "/" + name else Render(parts) + "/" + name
  {
    RenderIsSlashed(parts + [name]);
    SlashedConcat(parts, [name]);
    assert Slashed([name]) == "/" + name;
    assert Render([]) == "/";
    if parts != [] {
      RenderIsSlashed(parts);
      assert parts[0] in parts;
      Regroup(Slashed(parts), "/", name);
    }
  }

  lemma RootHasNoParts(parts: seq<string>)
    requires ValidParts(parts) && Render(parts) == "/"
    ensures parts == []
  {
    if parts != [] {
      assert ValidName(parts[0]);
      RenderIsSlashed(parts);
    }
  }
}
