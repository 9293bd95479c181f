/** A delete operation, alone and at the end of a list: what it takes out of view. */
module Iso9660PatchDelete {
  import opened Bytes
  import opened Iso9660Record
  import opened Iso9660Image
  import opened Iso9660Volume
  import opened Iso9660Refinement
  import opened Iso9660Replace
  import opened Iso9660Add
  import opened Iso9660Delete
  import opened Iso9660Patches
  import opened Iso9660Example

  /** Every path, seen or read, is as before unless one of its prefixes names a record hidden by a deletion at off. */
  ghost predicate OnlyBlockedLost(img: bytes, out: bytes, dirs: set<Extent>, off: nat)
    requires ReadPvd(img).Ok?
  {
    var cat, root := CatalogOf(img, dirs), ReadPvd(img).value.root;
    && (forall k :: View(out, k) == if Blocked(cat, root, off, k) then None else View(img, k))
    && (forall q, content :: ReadFileByPath(out, q) == Ok(content) <==>
                             !Blocked(cat, root, off, PathKey(q)) && ReadFileByPath(img, q) == Ok(content))
  }

  /** Every path is seen and read as before. */
  ghost predicate NothingLost(img: bytes, out: bytes) {
    && (forall k :: View(out, k) == View(img, k))
    && (forall q, content :: ReadFileByPath(out, q) == Ok(content) <==> ReadFileByPath(img, q) == Ok(content))
  }

  /** How e can come of deleting a path from a well-formed image, by what the path names there. */
  ghost predicate Deletes(img: bytes, e: Edit, dirs: set<Extent>, path: bytes)
    requires ReadPvd(img).Ok?
  {
    var key, root := PathKey(path), ReadPvd(img).value.root;
    if key == [] then
      e.error == None && WellFormed(e.img, dirs) && NothingLost(img, e.img)
    else if View(img, key) == None then
      e.error != None && e.img == img
    else
      && e.error == None && View(e.img, key) == None && ReadFileByPath(e.img, path).Err?
      && ReadPvd(e.img) == ReadPvd(img)
      && ResolveIn(img, root, key).Ok?
      && OnlyBlockedLost(img, e.img, dirs, ResolveIn(img, root, key).value.off)
  }

  /** Deleting a path in view takes it out of view, one not in view is an error, and the root stays as it is. */
  lemma {:induction false} DeleteOpRefines(img: bytes, dirs: set<Extent>, path: bytes)
    requires WellFormed(img, dirs)
    ensures ReadPvd(img).Ok? && Deletes(img, ApplyOp(img, Delete(path)), dirs, path)
  {
    hide *;
    WellFormedSize(img, dirs);
    var pvd, key, e := ReadPvd(img).value, PathKey(path), ApplyOp(img, Delete(path));
    DeleteUnfold(img, pvd, path);
    if key == [] {
      DeleteRoot(img, dirs);
      SameViewSameReads(img, e.img);
      RootDeletes(img, e, dirs, path);
    } else if View(img, key) == None {
      NoViewNoRecord(img, dirs, key);
      FailedDeletes(img, e, dirs, path);
    } else {
      DeleteRefines(img, dirs, key);
      var off := ResolveIn(img, pvd.root, key).value.off;
      BlockedViewReads(img, e.img, dirs, off);
      ReadIsView(e.img, path);
      ReadNone(e.img, path);
      RecordDeletes(img, e, dirs, path);
    }
  }

  lemma DeleteUnfold(img: bytes, pvd: Pvd, path: bytes)
    requires ReadPvd(img) == Ok(pvd)
    ensures PathKey(path) == [] ==> ApplyOp(img, Delete(path)) == Edit(WriteAt(img, [0], 0), None)
    ensures PathKey(path) != [] ==>
              var found, e := ResolveIn(img, pvd.root, PathKey(path)), ApplyOp(img, Delete(path));
              && (found.Ok? ==> e == DeleteFile(img, found.value))
              && (found.Err? ==> e == Edit(img, Some(found.error)))
  {
    hide ReadPvd, ResolveIn, WriteAt;
  }

  /** Deleting the root zeroes the first byte of the system area. */
  lemma DeleteRoot(img: bytes, dirs: set<Extent>)
    requires WellFormed(img, dirs)
    ensures var out := WriteAt(img, [0], 0); WellFormed(out, dirs) && forall k :: View(out, k) == View(img, k)
  {
    hide *;
    WellFormedSize(img, dirs);
    var pvd, out := ReadPvd(img).value, WriteAt(img, [0], 0);
    FirstByteUnused(img, pvd);
    UnusedIsHarmless(img, out, dirs, pvd.volumeSpaceSize);
    HarmlessFacts(img, out, dirs);
  }

  lemma FirstByteUnused(img: bytes, pvd: Pvd)
    requires ReadPvd(img) == Ok(pvd)
    ensures var out := WriteAt(img, [0], 0);
            Edited(img, out, pvd.volumeSpaceSize, 0, [])
              && ReadPvd(out) == Ok(pvd.(volumeSpaceSize := pvd.volumeSpaceSize))
  {
    WriteAtBytes(img, [0], 0);
    PvdFrame(img, WriteAt(img, [0], 0));
    hide ReadPvd, WriteAt;
  }

  lemma SameViewSameReads(img: bytes, out: bytes)
    requires forall k :: View(out, k) == View(img, k)
    ensures NothingLost(img, out)
  {
    hide View, ReadFileByPath;
    forall q, content
      ensures ReadFileByPath(out, q) == Ok(content) <==> ReadFileByPath(img, q) == Ok(content)
    {
      ReadIsView(img, q);
      ReadIsView(out, q);
    }
  }

  lemma BlockedViewReads(img: bytes, out: bytes, dirs: set<Extent>, off: nat)
    requires ReadPvd(img).Ok?
    requires forall k :: View(out, k) == if Blocked(CatalogOf(img, dirs), ReadPvd(img).value.root, off, k) then None
                                         else View(img, k)
    ensures OnlyBlockedLost(img, out, dirs, off)
  {
    hide View, ReadFileByPath, Blocked, ReadPvd, CatalogOf;
    var cat, root := CatalogOf(img, dirs), ReadPvd(img).value.root;
    forall q, content
      ensures ReadFileByPath(out, q) == Ok(content) <==>
              !Blocked(cat, root, off, PathKey(q)) && ReadFileByPath(img, q) == Ok(content)
    {
      ReadIsView(img, q);
      ReadIsView(out, q);
    }
  }

  lemma ReadNone(img: bytes, path: bytes)
    requires View(img, PathKey(path)) == None
    ensures ReadFileByPath(img, path).Err?
  {
    hide View;
    ReadIsView(img, path);
  }

  lemma RootDeletes(img: bytes, e: Edit, dirs: set<Extent>, path: bytes)
    requires ReadPvd(img).Ok? && PathKey(path) == []
    requires e.error == None && WellFormed(e.img, dirs) && NothingLost(img, e.img)
    ensures Deletes(img, e, dirs, path)
  {
    hide WellFormed, NothingLost, ReadPvd;
  }

  lemma FailedDeletes(img: bytes, e: Edit, dirs: set<Extent>, path: bytes)
    requires ReadPvd(img).Ok? && PathKey(path) != [] && View(img, PathKey(path)) == None
    requires e.error != None && e.img == img
    ensures Deletes(img, e, dirs, path)
  {
    hide View, ReadPvd;
  }

  lemma RecordDeletes(img: bytes, e: Edit, dirs: set<Extent>, path: bytes)
    requires ReadPvd(img).Ok? && PathKey(path) != [] && View(img, PathKey(path)) != None
    requires e.error == None && View(e.img, PathKey(path)) == None && ReadFileByPath(e.img, path).Err?
    requires ReadPvd(e.img) == ReadPvd(img) && ResolveIn(img, ReadPvd(img).value.root, PathKey(path)).Ok?
    requires OnlyBlockedLost(img, e.img, dirs, ResolveIn(img, ReadPvd(img).value.root, PathKey(path)).value.off)
    ensures Deletes(img, e, dirs, path)
  {
    hide View, ReadPvd, ResolveIn, OnlyBlockedLost, ReadFileByPath;
  }

  /** After an allowed list that succeeds, one more delete has that effect on what the list made. */
  lemma {:induction false} LastDelete(img: bytes, dirs: set<Extent>, ops: seq<PatchOp>, path: bytes)
    requires WellFormed(img, dirs) && AllAllowed(img, ops) && ApplyPatches(img, ops).error == None
    requires ReadPvd(img).value.volumeSpaceSize + SectorsOf(ops) < U32
    ensures var mid, e := ApplyPatches(img, ops).img, ApplyPatches(img, ops + [Delete(path)]);
            && (forall k :: View(mid, k) == Expected(img, ops, k))
            && ReadPvd(mid).Ok? && Deletes(mid, e, dirs, path)
            && (e.error == None <==> PathKey(path) == [] || Expected(img, ops, PathKey(path)).Some?)
            && (PathKey(path) != [] ==> View(e.img, PathKey(path)) == None && ReadFileByPath(e.img, path).Err?)
  {
    hide *;
    var mid := ApplyPatches(img, ops).img;
    PatchesRefine(img, dirs, ops);
    RefinesFacts(img, ApplyPatches(img, ops), dirs, ops);
    FollowsWellFormed(img, mid, dirs, SectorsOf(ops));
    ApplyLast(img, ops, Delete(path));
    DeleteOpRefines(mid, dirs, path);
    DeletesFacts(mid, ApplyOp(mid, Delete(path)), dirs, path);
  }

  lemma FollowsWellFormed(img: bytes, out: bytes, dirs: set<Extent>, sectors: nat)
    requires Follows(img, out, dirs, sectors)
    ensures WellFormed(out, dirs)
  {
  }

  lemma DeletesFacts(img: bytes, e: Edit, dirs: set<Extent>, path: bytes)
    requires ReadPvd(img).Ok? && Deletes(img, e, dirs, path)
    ensures e.error == None <==> PathKey(path) == [] || View(img, PathKey(path)).Some?
    ensures PathKey(path) != [] ==> View(e.img, PathKey(path)) == None && ReadFileByPath(e.img, path).Err?
  {
    hide View, ReadPvd, ResolveIn, OnlyBlockedLost, NothingLost, ReadFileByPath, WellFormed;
    if PathKey(path) != [] && View(img, PathKey(path)) == None {
      ReadNone(img, path);
    }
  }

  /** In the empty volume, adding a file and deleting it again succeeds and leaves nothing to read. */
  lemma {:induction false} AddThenDelete(name: bytes, content: bytes)
    requires 0 < |name| <= 107 && 47 !in name && Fits(Pvd(18, ROOT), content)
    ensures var path := [47] + name;
            var one, two := ApplyPatches(EmptyVolume(), [Add(path, content)]),
                            ApplyPatches(EmptyVolume(), [Add(path, content), Delete(path)]);
            && one.error == None && ReadFileByPath(one.img, path) == Ok(content)
            && two.error == None && ReadFileByPath(two.img, path).Err?
  {
    hide *;
    var path := [47] + name;
    var one := ApplyPatches(EmptyVolume(), [Add(path, content)]);
    EmptyPvd();
    FirstFile(name, content);
    PlainPath(name);
    OneOp(EmptyVolume(), Add(path, content));
    AddAtRoot(EmptyVolume(), Pvd(18, ROOT), name, content);
    ReadIsView(one.img, path);
    ApplyLast(EmptyVolume(), [Add(path, content)], Delete(path));
    assert [Add(path, content)] + [Delete(path)] == [Add(path, content), Delete(path)];
    DeleteOpRefines(one.img, {ROOT}, path);
    DeletesFacts(one.img, ApplyOp(one.img, Delete(path)), {ROOT}, path);
  }

  lemma PlainPath(name: bytes)
    requires 47 !in name && name != []
    ensures PathKey([47] + name) == [name] && BaseName([47] + name) == name && ParentPath([47] + name) == [47]
  {
    assert TrimSlash([47] + name) == name;
    SplitOne(47, name);
  }

  lemma OneOp(img: bytes, op: PatchOp)
    ensures ApplyPatches(img, [op]) == ApplyOp(img, op)
  {
    hide ApplyOp;
    assert [op][..0] == [];
  }

  lemma AddAtRoot(img: bytes, pvd: Pvd, name: bytes, content: bytes)
    requires 47 !in name && name != [] && ReadPvd(img) == Ok(pvd)
    ensures ApplyOp(img, Add([47] + name, content)) == AddFile(img, pvd.root, [], name, content)
  {
    PlainPath(name);
    AddOpUnfold(img, pvd, [47] + name, content);
    hide ReadPvd, InsertRecord, NewRecord, WriteAt;
  }
}
