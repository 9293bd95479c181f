/** Lists of patch operations refine updates of the path-to-content map. */
module Iso9660Patches {
  import opened Bytes
  import opened Iso9660Record
  import opened Iso9660Image
  import opened Iso9660Catalog
  import opened Iso9660Layout
  import opened Iso9660Volume
  import opened Iso9660Refinement
  import opened Iso9660Replace
  import opened Iso9660Add
  import opened Iso9660ReplaceDir
  import opened Iso9660AddLong

  // Paths.

  /** A path is its components, with or without a slash before them; the empty path and "/" are the root. */
  lemma {:induction false} PathKeyOfParts(parts: seq<bytes>)
    requires parts != [] && parts[0] != [] && Apart(47, parts)
    ensures PathKey(Join(47, parts)) == parts && PathKey([47] + Join(47, parts)) == parts
    ensures PathKey([]) == [] && PathKey([47]) == []
  {
    SplitJoin(47, parts);
    hide Split, Apart;
    var path := Join(47, parts);
    assert path != [] && path[0] == parts[0][0] && parts[0][0] in parts[0];
    assert TrimSlash(path) == path && TrimSlash([47] + path) == path && TrimSlash([47]) == [];
  }

  /** The path an add really creates: the base name under what the code resolves as its parent. */
  function AddKey(path: bytes): Key {
    PathKey(ParentPath(path)) + [BaseName(path)]
  }

  lemma ParentKey(path: bytes)
    ensures var parts := Split(47, TrimSlash(path));
            PathKey(ParentPath(path)) == if parts[..|parts| - 1] == [[]] then [] else parts[..|parts| - 1]
  {
    var parts := Split(47, TrimSlash(path));
    var init := parts[..|parts| - 1];
    SplitApart(47, TrimSlash(path));
    assert ParentPath(path) == [47] + Join(47, init);
    JoinedKey(init);
  }

  lemma JoinedKey(init: seq<bytes>)
    requires Apart(47, init)
    ensures PathKey([47] + Join(47, init)) == if init == [[]] then [] else init
  {
    hide Split, Apart;
    assert TrimSlash([47] + Join(47, init)) == Join(47, init);
    if init != [] {
      SplitJoin(47, init);
      JoinEmpty(init);
    }
  }

  lemma JoinEmpty(parts: seq<bytes>)
    requires parts != []
    ensures Join(47, parts) == [] <==> parts == [[]]
  {
  }

  /** It is the path given, except for the root itself and for paths of the form "//name". */
  lemma {:induction false} AddKeyIsPathKey(path: bytes)
    ensures AddKey(path) == PathKey(path)
            <==> TrimSlash(path) != [] && Split(47, TrimSlash(path))[..|Split(47, TrimSlash(path))| - 1] != [[]]
  {
    ParentKey(path);
    var parts := Split(47, TrimSlash(path));
    assert parts[..|parts| - 1] + [parts[|parts| - 1]] == parts;
  }

  // The updates.

  /** What an operation that succeeds makes of the content at a path. */
  function Updated(op: PatchOp, key: Key, before: Option<Node>): Option<Node> {
    match op
    case Replace(path, content) => if PathKey(path) != []
      && SameKey(key, PathKey(path)) then Some(File(content)) else before
    case Add(path, content) => if SameKey(key, AddKey(path)) then Some(File(content)) else before
    case _ => before
  }

  /** The original view with all the operations' updates, the last one naming a path deciding. */
  function Expected(img: bytes, ops: seq<PatchOp>, key: Key): Option<Node> {
    if ops == [] then View(img, key) else Updated(ops[|ops| - 1], key, Expected(img, ops[..|ops| - 1], key))
  }

  function ContentOf(op: PatchOp): bytes {
    match op
    case Replace(_, content) => content
    case Add(_, content) => content
    case _ => []
  }

  function SectorsOf(ops: seq<PatchOp>): nat {
    if ops == [] then 0 else SectorsOf(ops[..|ops| - 1]) + SectorsFor(|ContentOf(ops[|ops| - 1])|)
  }

  /** The path's parent is a directory with a slot for the record that an add builds. */
  predicate HasRoom(img: bytes, path: bytes, content: bytes) {
    match ReadPvd(img)
    case Err(_) => false
    case Ok(pvd) =>
      match ResolvePath(img, pvd.root, ParentPath(path))
      case Err(_) => false
      case Ok(parent) =>
        && parent.isDir
        && Slot(img, parent.Data(), NewRecord(BaseName(path), pvd.volumeSpaceSize, |content| % U32)).Some?
  }

  /**
   * Replaces of anything but a directory below the root, and adds of fresh names that have at most 107 bytes or find
   * no room.
   */
  predicate Allowed(img: bytes, done: seq<PatchOp>, op: PatchOp) {
    match op
    case Replace(path, _) => PathKey(path) == [] || Expected(img, done, PathKey(path)) != Some(Directory)
    case Add(path, content) =>
      && Expected(img, done, AddKey(path)) == None
      && (|BaseName(path)| <= 107 || !HasRoom(ApplyPatches(img, done).img, path, content))
    case Delete(_) => false
    case Unknown => true
  }

  predicate AllAllowed(img: bytes, ops: seq<PatchOp>) {
    ops == [] || (AllAllowed(img, ops[..|ops| - 1]) && |ContentOf(ops[|ops| - 1])| < U32
                  && Allowed(img, ops[..|ops| - 1], ops[|ops| - 1]))
  }

  // One operation.

  /** out is a well-formed image no smaller than img, holding at most the given sectors more. */
  ghost predicate Follows(img: bytes, out: bytes, dirs: set<Extent>, sectors: nat) {
    && WellFormed(out, dirs) && ReadPvd(img).Ok? && ReadPvd(out).Ok?
    && ReadPvd(out).value.root == ReadPvd(img).value.root
    && ReadPvd(img).value.volumeSpaceSize <= ReadPvd(out).value.volumeSpaceSize
    && ReadPvd(out).value.volumeSpaceSize <= ReadPvd(img).value.volumeSpaceSize + sectors
  }

  lemma FollowsBy(img: bytes, out: bytes, dirs: set<Extent>, n: nat, sectors: nat)
    requires WellFormed(img, dirs) && WellFormed(out, dirs) && n <= sectors
    requires ReadPvd(out) == Ok(ReadPvd(img).value.(volumeSpaceSize := ReadPvd(img).value.volumeSpaceSize + n))
    ensures Follows(img, out, dirs, sectors)
  {
  }

  ghost predicate Steps(img: bytes, e: Edit, dirs: set<Extent>, op: PatchOp) {
    && Follows(img, e.img, dirs, SectorsFor(|ContentOf(op)|))
    && forall k :: View(e.img, k) == if e.error == None then Updated(op, k, View(img, k)) else View(img, k)
  }

  lemma {:induction false} StepReplaceRoot(img: bytes, dirs: set<Extent>, content: bytes)
    requires WellFormed(img, dirs) && Fits(ReadPvd(img).value, content)
    ensures var pvd := ReadPvd(img).value;
            var e := ReplaceFile(img, RootRecord(pvd.root), content);
            && e.error == None && Follows(img, e.img, dirs, SectorsFor(|content|))
            && forall k :: View(e.img, k) == View(img, k)
  {
    hide *;
    WellFormedSize(img, dirs);
    var pvd := ReadPvd(img).value;
    RootPlace(img, pvd);
    SizeExact(pvd, content);
    ReplaceCommits(img, pvd, RootRecord(pvd.root), content);
    var out := ReplaceFile(img, RootRecord(pvd.root), content).img;
    RootEditUnused(img, out, pvd, content);
    UnusedIsHarmless(img, out, dirs, pvd.volumeSpaceSize + SectorsFor(|content|));
    HarmlessFacts(img, out, dirs);
    FollowsBy(img, out, dirs, SectorsFor(|content|), SectorsFor(|content|));
  }

  lemma RootPlace(img: bytes, pvd: Pvd)
    requires ReadPvd(img) == Ok(pvd) && 17 <= pvd.volumeSpaceSize
    ensures var r := RootRecord(pvd.root); r.off + 18 <= |img| && r.off + 18 <= pvd.End() && r.off + 18 <= PVD_OFFSET
  {
  }

  /** The root has no record: the extent fields land in the unused system area. */
  lemma RootEditUnused(img: bytes, out: bytes, pvd: Pvd, content: bytes)
    requires ReadPvd(img) == Ok(pvd) && Fits(pvd, content)
    requires Committed(img, out, pvd, RootRecord(pvd.root).off + 2,
             ExtentFields(pvd.volumeSpaceSize, |content| % U32), content,
                       SizeAfter(pvd, content))
    ensures Edited(img, out, pvd.volumeSpaceSize, 0, [])
    ensures ReadPvd(out) == Ok(pvd.(volumeSpaceSize := pvd.volumeSpaceSize + SectorsFor(|content|)))
  {
    hide ReadPvd;
    SizeExact(pvd, content);
  }

  lemma HarmlessFacts(img: bytes, out: bytes, dirs: set<Extent>)
    requires Harmless(img, out, dirs)
    ensures WellFormed(out, dirs) && forall k :: View(out, k) == View(img, k)
  {
  }

  lemma StepReplace(img: bytes, dirs: set<Extent>, path: bytes, content: bytes)
    requires WellFormed(img, dirs) && Fits(ReadPvd(img).value, content)
    requires PathKey(path) == [] || View(img, PathKey(path)) != Some(Directory)
    ensures Steps(img, ApplyOp(img, Replace(path, content)), dirs, Replace(path, content))
  {
    hide *;
    WellFormedSize(img, dirs);
    ContentOfReplace(path, content);
    var pvd, key, op := ReadPvd(img).value, PathKey(path), Replace(path, content);
    var e := ApplyOp(img, op);
    ReplaceUnfold(img, pvd, path, content);
    UpdatedReplace(path, content);
    if key == [] {
      StepReplaceRoot(img, dirs, content);
    } else if View(img, key) == None {
      NoViewNoRecord(img, dirs, key);
      FollowsBy(img, img, dirs, 0, SectorsFor(|content|));
    } else {
      ReplaceRefines(img, dirs, key, content);
      FollowsBy(img, e.img, dirs, SectorsFor(|content|), SectorsFor(|content|));
    }
    StepsBy(img, e, dirs, op);
  }

  lemma ContentOfReplace(path: bytes, content: bytes)
    ensures ContentOf(Replace(path, content)) == content && ContentOf(Add(path, content)) == content
  {
  }

  lemma ReplaceUnfold(img: bytes, pvd: Pvd, path: bytes, content: bytes)
    requires ReadPvd(img) == Ok(pvd)
    ensures PathKey(path) == [] ==>
            ApplyOp(img, Replace(path, content)) == ReplaceFile(img, RootRecord(pvd.root), content)
    ensures PathKey(path) != [] ==>
              var found, e := ResolveIn(img, pvd.root, PathKey(path)), ApplyOp(img, Replace(path, content));
              && (found.Ok? ==> e == ReplaceFile(img, found.value, content))
              && (found.Err? ==> e == Edit(img, Some(found.error)))
  {
    hide ReadPvd, ReplaceFile, ResolveIn;
  }

  lemma UpdatedReplace(path: bytes, content: bytes)
    ensures forall k, v :: Updated(Replace(path, content), k, v)
                        == if PathKey(path) != [] && SameKey(k, PathKey(path)) then Some(File(content)) else v
  {
  }

  lemma UpdatedAdd(path: bytes, content: bytes)
    ensures forall k, v :: Updated(Add(path, content), k, v)
                        == if SameKey(k, AddKey(path)) then Some(File(content)) else v
  {
  }

  lemma StepsBy(img: bytes, e: Edit, dirs: set<Extent>, op: PatchOp)
    requires Follows(img, e.img, dirs, SectorsFor(|ContentOf(op)|))
    requires forall k :: View(e.img, k) == if e.error == None then Updated(op, k, View(img, k)) else View(img, k)
    ensures Steps(img, e, dirs, op)
  {
  }

  /** A path that is not in view does not resolve. */
  lemma NoViewNoRecord(img: bytes, dirs: set<Extent>, key: Key)
    requires WellFormed(img, dirs) && key != [] && View(img, key) == None
    ensures ReadPvd(img).Ok? && ResolveIn(img, ReadPvd(img).value.root, key).Err?
  {
    WellFormedReads(img, dirs);
    ViewNoneIff(img, dirs, key);
    hide *;
    ResolveIsLookup(img, CatalogOf(img, dirs), ReadPvd(img).value.root, key);
  }

  lemma StepAdd(img: bytes, dirs: set<Extent>, path: bytes, content: bytes)
    requires WellFormed(img, dirs) && Fits(ReadPvd(img).value, content)
    requires View(img, AddKey(path)) == None && (|BaseName(path)| <= 107 || !HasRoom(img, path, content))
    ensures Steps(img, ApplyOp(img, Add(path, content)), dirs, Add(path, content))
  {
    hide *;
    WellFormedSize(img, dirs);
    ContentOfReplace(path, content);
    var pvd, parent, name, op := ReadPvd(img).value, ParentPath(path), BaseName(path), Add(path, content);
    var e := ApplyOp(img, op);
    AddOpUnfold(img, pvd, path, content);
    UpdatedAdd(path, content);
    if View(img, PathKey(parent)) == Some(Directory) {
      var d, i := AddRefines(img, dirs, parent, name, content);
      RoomIsSlot(img, dirs, path, content, d);
      if Slot(img, d, NewRecord(name, pvd.volumeSpaceSize, |content|)) == None {
        HarmlessFacts(img, e.img, dirs);
        FollowsBy(img, e.img, dirs, 0, SectorsFor(|content|));
      } else {
        FollowsBy(img, e.img, dirs, SectorsFor(|content|), SectorsFor(|content|));
      }
    } else {
      NoParentNoAdd(img, dirs, parent, name, content);
      FollowsBy(img, img, dirs, 0, SectorsFor(|content|));
    }
    StepsBy(img, e, dirs, op);
  }

  lemma RoomIsSlot(img: bytes, dirs: set<Extent>, path: bytes, content: bytes, d: Extent)
    requires WellFormed(img, dirs) && View(img, PathKey(ParentPath(path))) == Some(Directory)
    requires Fits(ReadPvd(img).value, content)
    requires DirAt(CatalogOf(img, dirs), ReadPvd(img).value.root, PathKey(ParentPath(path))) == Some(d)
    ensures ReadPvd(img).Ok? && |content| < U32
    ensures HasRoom(img, path, content)
            <==> Slot(img, d, NewRecord(BaseName(path), ReadPvd(img).value.volumeSpaceSize, |content|)).Some?
  {
    hide *;
    var parent := AddCommits(img, dirs, ParentPath(path), BaseName(path), content);
    RoomUnfold(img, ReadPvd(img).value, path, content, d);
  }

  lemma RoomUnfold(img: bytes, pvd: Pvd, path: bytes, content: bytes, d: Extent)
    requires ReadPvd(img) == Ok(pvd) && |content| < U32 && ResolvePath(img, pvd.root, ParentPath(path)).Ok?
    requires var parent := ResolvePath(img, pvd.root, ParentPath(path)).value; parent.isDir && parent.Data() == d
    ensures HasRoom(img, path, content)
            <==> Slot(img, d, NewRecord(BaseName(path), pvd.volumeSpaceSize, |content|)).Some?
  {
    hide ReadPvd, ResolvePath, Slot, NewRecord, ParentPath, BaseName;
    assert |content| % U32 == |content|;
  }

  lemma AddOpUnfold(img: bytes, pvd: Pvd, path: bytes, content: bytes)
    requires ReadPvd(img) == Ok(pvd)
    ensures ApplyOp(img, Add(path, content)) == AddFile(img, pvd.root, ParentPath(path), BaseName(path), content)
    ensures AddKey(path) == PathKey(ParentPath(path)) + [BaseName(path)]
  {
    hide ReadPvd, AddFile;
  }

  /** Without a parent directory in view the add fails and writes nothing. */
  lemma NoParentNoAdd(img: bytes, dirs: set<Extent>, parent: bytes, name: bytes, content: bytes)
    requires WellFormed(img, dirs) && View(img, PathKey(parent)) != Some(Directory)
    ensures ReadPvd(img).Ok?
    ensures var e := AddFile(img, ReadPvd(img).value.root, parent, name, content); e.error != None && e.img == img
  {
    WellFormedSize(img, dirs);
    hide ReadPvd, WellFormed, InsertRecord, NewRecord, ResolveIn, SectorsFor, WriteAt;
    EmptyKeyView(img);
    if View(img, PathKey(parent)) == None {
      NoViewNoRecord(img, dirs, PathKey(parent));
    }
  }

  /** An allowed operation: a success makes exactly its update, a failure changes nothing in view. */
  lemma {:induction false} StepRefines(img: bytes, dirs: set<Extent>, done: seq<PatchOp>, base: bytes, op: PatchOp)
    requires WellFormed(img, dirs) && Fits(ReadPvd(img).value, ContentOf(op))
    requires Allowed(base, done, op) && img == ApplyPatches(base, done).img
    requires forall k :: View(img, k) == Expected(base, done, k)
    ensures Steps(img, ApplyOp(img, op), dirs, op)
  {
    hide WellFormed, View, ReadPvd, Expected, ApplyOp, Steps, Fits, AddKey, BaseName, PathKey, HasRoom, ApplyPatches;
    match op
    case Replace(path, content) => StepReplace(img, dirs, path, content);
    case Add(path, content) => StepAdd(img, dirs, path, content);
    case Unknown => StepUnknown(img, dirs);
  }

  lemma StepUnknown(img: bytes, dirs: set<Extent>)
    requires WellFormed(img, dirs)
    ensures Steps(img, ApplyOp(img, Unknown), dirs, Unknown)
  {
    WellFormedSize(img, dirs);
    hide WellFormed, View, ReadPvd;
  }

  // The whole list.

  /** After a list: well-formed, the volume no smaller, and in view exactly the updates of the operations done. */
  ghost predicate Refines(img: bytes, e: Edit, dirs: set<Extent>, ops: seq<PatchOp>) {
    && Follows(img, e.img, dirs, SectorsOf(ops))
    && (e.error == None ==> forall k :: View(e.img, k) == Expected(img, ops, k))
    && (e.error != None ==> exists n | 0 <= n < |ops| :: forall k :: View(e.img, k) == Expected(img, ops[..n], k))
  }

  lemma {:induction false} PatchesRefine(img: bytes, dirs: set<Extent>, ops: seq<PatchOp>)
    requires WellFormed(img, dirs) && AllAllowed(img, ops)
    requires ReadPvd(img).value.volumeSpaceSize + SectorsOf(ops) < U32
    ensures Refines(img, ApplyPatches(img, ops), dirs, ops)
    decreases |ops|
  {
    hide *;
    if ops == [] {
      NothingApplied(img, dirs);
    } else {
      var init, op := ops[..|ops| - 1], ops[|ops| - 1];
      ListStep(img, ops);
      PatchesRefine(img, dirs, init);
      var before := ApplyPatches(img, init);
      if before.error == None {
        RefinesFacts(img, before, dirs, init);
        FollowsRoom(img, before.img, dirs, SectorsOf(init), op);
        StepRefines(before.img, dirs, init, img, op);
        StepsAfter(img, before.img, ApplyOp(before.img, op), dirs, init, op);
        assert init + [op] == ops;
      } else {
        FailedEarlier(img, before, dirs, ops);
      }
    }
  }

  lemma NothingApplied(img: bytes, dirs: set<Extent>)
    requires WellFormed(img, dirs)
    ensures Refines(img, ApplyPatches(img, []), dirs, [])
  {
    hide WellFormed, View, ReadPvd, Follows;
    WellFormedSize(img, dirs);
    FollowsBy(img, img, dirs, 0, 0);
  }

  /** The last operation of a list. */
  lemma ListStep(img: bytes, ops: seq<PatchOp>)
    requires ops != []
    ensures var init, op := ops[..|ops| - 1], ops[|ops| - 1];
            var before := ApplyPatches(img, init);
            && ApplyPatches(img, ops) == (if before.error.Some? then before else ApplyOp(before.img, op))
            && SectorsOf(ops) == SectorsOf(init) + SectorsFor(|ContentOf(op)|)
            && (AllAllowed(img, ops) ==>
                  AllAllowed(img, init) && |ContentOf(op)| < U32 && Allowed(img, init, op))
  {
    hide ApplyOp, Allowed, SectorsFor, ContentOf;
  }

  lemma FollowsRoom(img: bytes, mid: bytes, dirs: set<Extent>, sectors: nat, op: PatchOp)
    requires Follows(img, mid, dirs, sectors) && |ContentOf(op)| < U32
    requires ReadPvd(img).value.volumeSpaceSize + sectors + SectorsFor(|ContentOf(op)|) < U32
    ensures WellFormed(mid, dirs) && ReadPvd(mid).Ok? && Fits(ReadPvd(mid).value, ContentOf(op))
  {
  }

  lemma StepsAfter(img: bytes, mid: bytes, e: Edit, dirs: set<Extent>, init: seq<PatchOp>, op: PatchOp)
    requires Follows(img, mid, dirs, SectorsOf(init)) && Steps(mid, e, dirs, op)
    requires forall k :: View(mid, k) == Expected(img, init, k)
    ensures Refines(img, e, dirs, init + [op])
  {
    hide WellFormed, View, ReadPvd, SectorsFor, Updated;
    var ops := init + [op];
    assert ops[..|ops| - 1] == init && ops[..|init|] == init;
    if e.error != None {
      assert forall k :: View(e.img, k) == Expected(img, ops[..|init|], k);
    }
  }

  lemma FailedEarlier(img: bytes, before: Edit, dirs: set<Extent>, ops: seq<PatchOp>)
    requires ops != [] && Refines(img, before, dirs, ops[..|ops| - 1]) && before.error != None
    ensures Refines(img, before, dirs, ops)
  {
    hide WellFormed, View, ReadPvd, SectorsFor, Expected;
    var init := ops[..|ops| - 1];
    var n :| 0 <= n < |init| && forall k :: View(before.img, k) == Expected(img, init[..n], k);
    assert init[..n] == ops[..n];
  }

  /** For the reader of files: after a list that succeeds, reading any path gives its expected content. */
  lemma {:induction false} PatchesReadBack(img: bytes, dirs: set<Extent>, ops: seq<PatchOp>, path: bytes,
                                           content: bytes)
    requires WellFormed(img, dirs) && AllAllowed(img, ops)
    requires ReadPvd(img).value.volumeSpaceSize + SectorsOf(ops) < U32 && ApplyPatches(img, ops).error == None
    ensures ReadFileByPath(ApplyPatches(img, ops).img, path) == Ok(content) <==>
            Expected(img, ops, PathKey(path)) == Some(File(content))
  {
    hide *;
    PatchesRefine(img, dirs, ops);
    RefinesView(img, ApplyPatches(img, ops), dirs, ops, PathKey(path));
    ReadIsView(ApplyPatches(img, ops).img, path);
  }

  lemma RefinesView(img: bytes, e: Edit, dirs: set<Extent>, ops: seq<PatchOp>, k: Key)
    requires Refines(img, e, dirs, ops) && e.error == None
    ensures View(e.img, k) == Expected(img, ops, k)
  {
  }

  lemma ApplyLast(img: bytes, ops: seq<PatchOp>, op: PatchOp)
    requires ApplyPatches(img, ops).error == None
    ensures ApplyPatches(img, ops + [op]) == ApplyOp(ApplyPatches(img, ops).img, op)
    ensures forall k :: Expected(img, ops + [op], k) == Updated(op, k, Expected(img, ops, k))
  {
    hide ApplyOp, Updated;
    assert (ops + [op])[..|ops|] == ops;
  }

  /**
   * After an allowed list that succeeds, a replace of a path in view succeeds, and makes its update unless it
   * names a directory.
   */
  lemma {:induction false} LastReplaceIff(img: bytes, dirs: set<Extent>, ops: seq<PatchOp>, path: bytes, content: bytes)
    requires WellFormed(img, dirs) && AllAllowed(img, ops) && ApplyPatches(img, ops).error == None && |content| < U32
    requires ReadPvd(img).value.volumeSpaceSize + SectorsOf(ops) + SectorsFor(|content|) < U32
    requires PathKey(path) != [] && Expected(img, ops, PathKey(path)).Some?
    ensures var all := ops + [Replace(path, content)];
            var e := ApplyPatches(img, all);
            && e.error == None
            && ((forall k :: View(e.img, k) == Expected(img, all, k))
               <==> Expected(img, ops, PathKey(path)) != Some(Directory))
  {
    hide *;
    var op, mid := Replace(path, content), ApplyPatches(img, ops).img;
    ContentOfReplace(path, content);
    PatchesRefine(img, dirs, ops);
    RefinesFacts(img, ApplyPatches(img, ops), dirs, ops);
    FollowsRoom(img, mid, dirs, SectorsOf(ops), op);
    ReplaceUnfold(mid, ReadPvd(mid).value, path, content);
    ReplaceIff(mid, dirs, PathKey(path), content);
    ApplyLast(img, ops, op);
    UpdatedReplace(path, content);
  }

  /**
   * After an allowed list that succeeds, an add to a directory in view fails harmlessly for lack of a slot,
     or makes the
   * directory list exactly one record more, of that name, if and only if the name has at most 107 bytes.
   */
  lemma {:induction false} LastAddIff(img: bytes, dirs: set<Extent>, ops: seq<PatchOp>, path: bytes, content: bytes)
    returns (d: Extent)
    requires WellFormed(img, dirs) && AllAllowed(img, ops) && ApplyPatches(img, ops).error == None && |content| < U32
    requires ReadPvd(img).value.volumeSpaceSize + SectorsOf(ops) + SectorsFor(|content|) < U32
    requires Expected(img, ops, PathKey(ParentPath(path))) == Some(Directory)
    ensures var mid, e := ApplyPatches(img, ops).img, ApplyPatches(img, ops + [Add(path, content)]);
            && ReadPvd(mid).Ok?
            && DirAt(CatalogOf(mid, dirs), ReadPvd(mid).value.root, PathKey(ParentPath(path))) == Some(d)
            && (e.error != None ==> e.error == Some(NoFreeSpace) && forall k :: View(e.img, k) == Expected(img, ops, k))
            && (e.error == None ==>
                  (ListsOneMore(e.img, d, Listing(mid, d), BaseName(path)) <==> |BaseName(path)| <= 107))
  {
    hide *;
    var op, mid := Add(path, content), ApplyPatches(img, ops).img;
    ContentOfReplace(path, content);
    PatchesRefine(img, dirs, ops);
    RefinesFacts(img, ApplyPatches(img, ops), dirs, ops);
    FollowsRoom(img, mid, dirs, SectorsOf(ops), op);
    AddOpUnfold(mid, ReadPvd(mid).value, path, content);
    d := AddListsIff(mid, dirs, ParentPath(path), BaseName(path), content);
    ApplyLast(img, ops, op);
    if ApplyOp(mid, op).error != None {
      HarmlessFacts(mid, ApplyOp(mid, op).img, dirs);
    }
  }

  lemma RefinesFacts(img: bytes, e: Edit, dirs: set<Extent>, ops: seq<PatchOp>)
    requires Refines(img, e, dirs, ops) && e.error == None
    ensures Follows(img, e.img, dirs, SectorsOf(ops)) && forall k :: View(e.img, k) == Expected(img, ops, k)
  {
    hide Follows;
  }
}
