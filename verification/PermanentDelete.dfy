/**
  Permanent deletion from the trash: which rows and which objects it takes, and that it takes no others.
 */
module PermanentDelete {
  import opened Wrappers
  import opened VirtualPath
  import opened Like
  import opened FileTree
  import opened StorageState
  import opened StorageTrash
  import opened StorageRestore
  import opened StorageRequests
  import opened TrashIntegrity

  // The row is the item name of u's trash, or recorded at or below it.
  predicate OfItem(row: TrashRow, u: string, name: string) {
    row.user == u && ((row.dir == "/" && row.name == name) || Under(row.dir, "/" + name))
  }

  // What the statements take: the LIKE pattern of the item may reach rows of other items.
  predicate Taken(row: TrashRow, u: string, name: string) {
    row.user == u && ((row.dir == "/" && row.name == name) || Selects("/" + name, row.dir))
  }

  // q is the blob of a file row that is taken.
  ghost predicate TakenBlob(trash: Trash, u: string, name: string, q: string) {
    exists i {:trigger trash[i]} ::
      i in trash && Taken(trash[i], u, name) && !trash[i].isDir && trash[i].blob.Some? && BlobOf(trash[i]) == q
  }

  lemma OfItemTaken(row: TrashRow, u: string, name: string)
    requires '\\' !in name
    ensures OfItem(row, u, name) ==> Taken(row, u, name)
    ensures WildcardFree(name) ==> (Taken(row, u, name) <==> OfItem(row, u, name))
  {
    var root := "/" + name;
    if Above(root, row.dir) { DescendantsSelected(root, row.dir); }
    if WildcardFree(name) { LiteralSubtree(root, row.dir); }
  }

  // What an erase request at the top level looks up.
  lemma TopItem(name: string)
    requires '/' !in name
    ensures var p := Child("/Trash", name);
            "/" <= p && p != "/Trash" && EraseDir(p) == "/" && FileName(p) == name && EraseBase(p) == "/" + name
  {
    TopLevelRoot(name);
    SplitLast("/Trash", name);
    assert Parent(Child("/Trash", name)) == "/Trash";
    assert "/Trash"[|"/Trash"|..] == "";
    assert RelParent(Child("/Trash", name)) == "";
    assert "" + "/" + name == "/" + name;
  }

  lemma ErasedTop(s: State, s': State, u: string, name: string, r: Outcome) returns (rows: seq<TrashRow>, ids: seq<nat>)
    requires Rooted(s.trash) && u in s.users && '/' !in name && Listed(s.trash, u, "/", name)
    requires "/" <= Child("/Trash", name) && EraseRequest(s, s', u, Child("/Trash", name), r)
    ensures r == Ok(()) && FilesBelow(s.trash, u, "/" + name, rows, ids)
    ensures s' == s.(fs := DeleteBlobs(s.fs, rows), trash := s'.trash)
    ensures forall i :: i in s'.trash <==> i in s.trash && !Taken(s.trash[i], u, name)
    ensures forall i :: i in s'.trash ==> s'.trash[i] == s.trash[i]
  {
    TopItem(name);
    var id :| id in s.trash && SameItem(s.trash[id], u, "/", name) && Erased(s, s', s.trash[id], "/" + name);
    rows, ids := ErasedDirectory(s, s', u, name, s.trash[id]);
  }

  lemma ErasedDirectory(s: State, s': State, u: string, name: string, item: TrashRow)
    returns (rows: seq<TrashRow>, ids: seq<nat>)
    requires Rooted(s.trash) && SameItem(item, u, "/", name) && (exists i :: i in s.trash && s.trash[i] == item)
    requires Erased(s, s', item, "/" + name)
    ensures FilesBelow(s.trash, u, "/" + name, rows, ids)
    ensures s' == s.(fs := DeleteBlobs(s.fs, rows), trash := s'.trash)
    ensures forall i :: i in s'.trash <==> i in s.trash && !Taken(s.trash[i], u, name)
    ensures forall i :: i in s'.trash ==> s'.trash[i] == s.trash[i]
  {
    rows, ids :| FilesBelow(s.trash, u, "/" + name, rows, ids) && s' == ErasedItem(s, item, "/" + name, rows);
    assert item.isDir;
  }

  // Erasing an item answers Ok. Its row goes, and every row at or below it; of the other rows only those
  // the pattern reaches, so none if the name has no wildcard; the rows that stay are unchanged.
  lemma EraseTakesRows(s: State, s': State, u: string, name: string, r: Outcome, i: nat)
    requires Rooted(s.trash) && u in s.users && '/' !in name && '\\' !in name && Listed(s.trash, u, "/", name)
    requires "/" <= Child("/Trash", name) && EraseRequest(s, s', u, Child("/Trash", name), r)
    ensures r == Ok(()) && !Listed(s'.trash, u, "/", name)
    ensures i in s.trash && OfItem(s.trash[i], u, name) ==> i !in s'.trash
    ensures i in s.trash && i !in s'.trash ==> Taken(s.trash[i], u, name)
    ensures WildcardFree(name) ==> (i in s'.trash <==> i in s.trash && !OfItem(s.trash[i], u, name))
    ensures i in s'.trash ==> i in s.trash && s'.trash[i] == s.trash[i]
  {
    var rows, ids := ErasedTop(s, s', u, name, r);
    if i in s.trash { OfItemTaken(s.trash[i], u, name); }
  }

  // The blobs of those rows leave the disk, and nothing else does; the index is not touched.
  lemma EraseTakesBlobs(s: State, s': State, u: string, name: string, r: Outcome, q: string)
    requires Integrity(s) && Rooted(s.trash) && u in s.users && '/' !in name && Listed(s.trash, u, "/", name)
    requires "/" <= Child("/Trash", name) && EraseRequest(s, s', u, Child("/Trash", name), r)
    ensures At(s'.fs, q) == if TakenBlob(s.trash, u, name, q) then None else At(s.fs, q)
    ensures s'.cloud == s.cloud && s'.users == s.users
  {
    var rows, ids := ErasedTop(s, s', u, name, r);
    AtDeleteBlobs(s.fs, rows, q);
    if TakenBlob(s.trash, u, name, q) {
      var i :| i in s.trash && Taken(s.trash[i], u, name) && !s.trash[i].isDir && s.trash[i].blob.Some?
               && BlobOf(s.trash[i]) == q;
      assert Backed(s, s.trash[i]) && s.trash[i].dir != "/" && i in ids;
      var j :| 0 <= j < |ids| && ids[j] == i;
      assert rows[j] == s.trash[i];
    }
  }

  // Rows that stay keep their blobs.
  lemma OthersKeepBlobs(s: State, s': State, u: string, name: string, r: Outcome, i: nat)
    requires Valid(s) && Integrity(s) && Rooted(s.trash) && u in s.users && '/' !in name && Listed(s.trash, u, "/", name)
    requires "/" <= Child("/Trash", name) && EraseRequest(s, s', u, Child("/Trash", name), r)
    requires i in s.trash && !s.trash[i].isDir && !Taken(s.trash[i], u, name)
    ensures At(s'.fs, BlobOf(s.trash[i])) == At(s.fs, BlobOf(s.trash[i]))
  {
    EraseTakesBlobs(s, s', u, name, r, BlobOf(s.trash[i]));
    if TakenBlob(s.trash, u, name, BlobOf(s.trash[i])) {
      var j :| j in s.trash && Taken(s.trash[j], u, name) && !s.trash[j].isDir && s.trash[j].blob.Some?
               && BlobOf(s.trash[j]) == BlobOf(s.trash[i]);
      SameBlobSameRow(s, i, j);
    }
  }

  // The file branch: the file rows of the trash path go and the item's blob, nothing else.
  lemma ErasedFile(s: State, item: TrashRow, base: string, rows: seq<TrashRow>, i: nat, q: string)
    requires !item.isDir && item.blob.Some?
    ensures var s' := ErasedItem(s, item, base, rows);
            && (i in s'.trash <==>
                  i in s.trash && (s.trash[i].isDir || !SameItem(s.trash[i], item.user, item.dir, item.name)))
            && (i in s'.trash ==> s'.trash[i] == s.trash[i])
            && At(s'.fs, q) == (if q == BlobOf(item) && IsFile(s.fs, q) then None else At(s.fs, q))
            && s'.cloud == s.cloud
  {
    assert [item][..0] == [];
    assert DeleteBlobs(s.fs, [item]) == Delete(s.fs, BlobOf(item));
  }

  // Nothing is erased by mistake: an item that is not there is answered with Ok, the trash itself cannot be
  // deleted, and a requester who is not registered gets a database error; none of this changes anything.
  lemma EraseNothing(s: State, s': State, u: string, p: string, r: Outcome)
    requires "/" <= p && EraseRequest(s, s', u, p, r)
    requires p == "/Trash" || u !in s.users || !Listed(s.trash, u, EraseDir(p), FileName(p))
    ensures s' == s
    ensures r == if p == "/Trash" then Err(BadRequest) else if u !in s.users then Err(Database) else Ok(())
  {
  }
}
