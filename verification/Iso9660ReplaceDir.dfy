/** Replacing a directory: the code reports success, but the path stays a directory. */
module Iso9660ReplaceDir {
  import opened Bytes
  import opened Iso9660Record
  import opened Iso9660Image
  import opened Iso9660Catalog
  import opened Iso9660Layout
  import opened Iso9660Volume
  import opened Iso9660Refinement
  import opened Iso9660Replace

  // Resolution needs only the directories along the path.

  ghost predicate KnownAlong(cat: Catalog, d: Extent, key: Key) {
    forall j | 0 <= j < |key| && DirAt(cat, d, key[..j]).Some? :: DirAt(cat, d, key[..j]).value in cat
  }

  lemma DirAtForward(cat: Catalog, d: Extent, key: Key)
    requires key != [] && d in cat
    ensures DirAt(cat, d, key)
         == match FirstMatch(cat[d], key[0])
            case None => None
            case Some(r) => if r.isDir then DirAt(cat, r.Data(), key[1..]) else None
  {
    hide FirstMatch;
    if |key| == 1 {
      assert key[..|key| - 1] == [] && key[1..] == [];
      assert Lookup(cat, d, key) == FirstMatch(cat[d], key[0]);
    } else {
      LookupForward(cat, d, key);
    }
  }

  lemma KnownAhead(cat: Catalog, d: Extent, key: Key, r: DirRecord)
    requires d in cat && |key| >= 2 && KnownAlong(cat, d, key) && FirstMatch(cat[d], key[0]) == Some(r) && r.isDir
    ensures r.Data() in cat && KnownAlong(cat, r.Data(), key[1..])
  {
    hide FirstMatch, DirAt, DirRecord.Data;
    var tail := key[1..];
    forall j | 0 <= j < |tail|
      ensures DirAt(cat, r.Data(), tail[..j]) == DirAt(cat, d, key[..j + 1])
    {
      assert key[..j + 1][1..] == tail[..j] && key[..j + 1][0] == key[0];
      DirAtForward(cat, d, key[..j + 1]);
    }
    DirAtNone(cat, r.Data());
    assert tail[..0] == [];
    assert DirAt(cat, d, key[..1]) == Some(r.Data());
  }

  lemma DirAtNone(cat: Catalog, d: Extent)
    ensures DirAt(cat, d, []) == Some(d)
  {
  }

  lemma {:induction false} ResolveAlong(img: bytes, cat: Catalog, d: Extent, key: Key)
    requires Reads(img, cat) && d in cat && key != [] && KnownAlong(cat, d, key)
    ensures ResolveIn(img, d, key).Ok? <==> Lookup(cat, d, key).Some?
    ensures ResolveIn(img, d, key).Ok? ==> ResolveIn(img, d, key).value == Lookup(cat, d, key).value
    decreases |key|
  {
    hide EqualFold, DirRecord.Name, ReadDirectory, KnownAlong;
    FirstMatchIn(cat[d], key[0]);
    var r := FirstMatch(cat[d], key[0]);
    if |key| == 1 {
      assert key[..0] == [];
    } else {
      LookupForward(cat, d, key);
      if r.Some? && r.value.isDir {
        KnownAhead(cat, d, key, r.value);
        ResolveAlong(img, cat, r.value.Data(), key[1..]);
      }
    }
  }

  // The catalog after one of its subdirectories gets a new extent.

  /** Along a path on which no directory's own record moves, lookups are as before. */
  lemma {:induction false} MovedDirAt(cat: Catalog, root: Extent, off: nat, lba: nat, len: nat, key: Key)
    requires Sound(cat, root)
    requires forall j | 0 < j <= |key| && Lookup(cat, root, key[..j]).Some? ::
             Lookup(cat, root, key[..j]).value.off != off
    ensures DirAt(Retarget(cat, off, lba, len), root, key) == DirAt(cat, root, key)
    decreases |key|, 2
  {
    hide Sound, Retarget;
    if key != [] {
      MovedLookup(cat, root, off, lba, len, key);
      assert key[..|key|] == key;
    }
  }

  lemma {:induction false} MovedLookup(cat: Catalog, root: Extent, off: nat, lba: nat, len: nat, key: Key)
    requires Sound(cat, root) && key != []
    requires forall j | 0 < j < |key| && Lookup(cat, root, key[..j]).Some? ::
             Lookup(cat, root, key[..j]).value.off != off
    ensures Lookup(Retarget(cat, off, lba, len), root, key)
         == match Lookup(cat, root, key) case None => None case Some(r) => Some(RetargetOne(r, off, lba, len))
    decreases |key|, 1
  {
    hide Sound, RetargetOne, RetargetAll;
    var init := key[..|key| - 1];
    assert forall j | 0 < j <= |init| :: init[..j] == key[..j];
    MovedDirAt(cat, root, off, lba, len, init);
    DirAtInCatalog(cat, root, init);
    var d := DirAt(cat, root, init);
    if d.Some? {
      RetargetFirstMatch(cat[d.value], key[|key| - 1], off, lba, len);
    }
  }

  /** Only paths under a record's path go through the record. */
  lemma OnlyUnder(cat: Catalog, root: Extent, full: Key, k: Key, j: nat)
    requires Sound(cat, root) && full != [] && Lookup(cat, root, full).Some? && 0 < j <= |k|
    requires Lookup(cat, root, k[..j]).Some? && Lookup(cat, root, k[..j]).value.off == Lookup(cat, root, full).value.off
    ensures Under(k, full) && j == |full|
  {
    hide Sound, Lookup;
    RecordDeterminesKey(cat, root, k[..j], full);
  }

  lemma {:induction false} MovedKnown(cat: Catalog, root: Extent, off: nat, lba: nat, len: nat, k: Key)
    requires Sound(cat, root)
    requires forall j | 0 < j < |k| && Lookup(cat, root, k[..j]).Some? :: Lookup(cat, root, k[..j]).value.off != off
    ensures KnownAlong(Retarget(cat, off, lba, len), root, k)
  {
    hide Sound, DirAt, RetargetAll;
    forall j | 0 <= j < |k|
      ensures DirAt(Retarget(cat, off, lba, len), root, k[..j]) == DirAt(cat, root, k[..j])
      ensures DirAt(cat, root, k[..j]).Some? ==> DirAt(cat, root, k[..j]).value in cat
    {
      assert forall i | 0 < i <= j :: k[..j][..i] == k[..i];
      MovedDirAt(cat, root, off, lba, len, k[..j]);
      DirAtInCatalog(cat, root, k[..j]);
    }
  }

  // The image.

  /** r is the record of a subdirectory, listed in directory d. */
  ghost predicate DirIn(img: bytes, dirs: set<Extent>, d: Extent, r: DirRecord) {
    d in dirs && r in Listing(img, d) && IsSubdir(r)
  }

  /** The subdirectory a path names, with the directory that lists it. */
  lemma DirOfKey(img: bytes, dirs: set<Extent>, key: Key) returns (d: Extent, r: DirRecord)
    requires WellFormed(img, dirs) && key != [] && View(img, key) == Some(Directory)
    ensures Lookup(CatalogOf(img, dirs), ReadPvd(img).value.root, key) == Some(r) && DirIn(img, dirs, d, r)
    ensures ResolveIn(img, ReadPvd(img).value.root, key) == Ok(r)
  {
    hide ResolveIn, Lookup, Listing, ReadPvd, Sound;
    var root := ReadPvd(img).value.root;
    ViewIsLookup(img, dirs, key);
    WellFormedReads(img, dirs);
    ResolveIsLookup(img, CatalogOf(img, dirs), root, key);
    LookupInCatalog(CatalogOf(img, dirs), root, key);
    r := Lookup(CatalogOf(img, dirs), root, key).value;
    d := DirAt(CatalogOf(img, dirs), root, key[..|key| - 1]).value;
  }

  lemma DirPlace(img: bytes, dirs: set<Extent>, d: Extent, r: DirRecord)
    requires WellFormed(img, dirs) && DirIn(img, dirs, d, r)
    ensures ReadPvd(img).Ok?
    ensures DATA_START <= r.off && r.off + 33 <= |img| && r.off + 33 <= ReadPvd(img).value.End()
  {
    RecordInDir(img, ReadPvd(img).value.volumeSpaceSize, dirs, d, r);
  }

  /** The bytes and listings after the replacement. */
  ghost predicate Moved(img: bytes, out: bytes, dirs: set<Extent>, d: Extent, r: DirRecord, content: bytes)
    requires ReadPvd(img).Ok? && |content| < U32
  {
    var pvd := ReadPvd(img).value;
    && DirIn(img, dirs, d, r) && Reads(out, CatalogOf(out, dirs)) && ReadPvd(out).Ok?
       && ReadPvd(out).value.root == pvd.root
    && CatalogOf(out, dirs) == Retarget(CatalogOf(img, dirs), r.off, pvd.volumeSpaceSize, |content|)
    && Edited(img, out, pvd.volumeSpaceSize, r.off + 2, ExtentFields(pvd.volumeSpaceSize, |content|))
  }

  lemma DirReplaceStep(img: bytes, dirs: set<Extent>, d: Extent, r: DirRecord, content: bytes)
    requires WellFormed(img, dirs) && DirIn(img, dirs, d, r) && Fits(ReadPvd(img).value, content)
    ensures ReadPvd(img).Ok? && |content| < U32
    ensures var e := ReplaceFile(img, r, content); e.error == None && Moved(img, e.img, dirs, d, r, content)
  {
    hide *;
    WellFormedSize(img, dirs);
    var pvd := ReadPvd(img).value;
    DirPlace(img, dirs, d, r);
    DirInFacts(img, dirs, d, r);
    SizeExact(pvd, content);
    FitsBound(pvd, content);
    ReplaceCommits(img, pvd, r, content);
    var out := ReplaceFile(img, r, content).img;
    DirCommitted(img, out, dirs, d, r, content);
  }

  lemma FitsBound(pvd: Pvd, content: bytes)
    requires Fits(pvd, content)
    ensures |content| < U32 && 0 <= pvd.volumeSpaceSize < U32
  {
  }

  lemma DirInFacts(img: bytes, dirs: set<Extent>, d: Extent, r: DirRecord)
    requires DirIn(img, dirs, d, r)
    ensures d in dirs && r in Listing(img, d) && r.isDir && !r.IsDot()
  {
  }

  lemma DirCommitted(img: bytes, out: bytes, dirs: set<Extent>, d: Extent, r: DirRecord, content: bytes)
    requires WellFormed(img, dirs) && DirIn(img, dirs, d, r) && Fits(ReadPvd(img).value, content)
    requires var pvd := ReadPvd(img).value;
             Committed(img, out, pvd, r.off + 2, ExtentFields(pvd.volumeSpaceSize, |content|), content,
               SizeAfter(pvd, content))
    ensures Moved(img, out, dirs, d, r, content)
  {
    hide ExtentFields, Edited, DirsOk, FilesOk, Listing, ReadPvd, CatalogOf, Sound, Reads, Retarget;
    var pvd := ReadPvd(img).value;
    CatalogAfterReplace(img, out, pvd.volumeSpaceSize, dirs, d, r, pvd.volumeSpaceSize, |content|);
    EditedGrows(img, out, pvd.volumeSpaceSize, r.off + 2, ExtentFields(pvd.volumeSpaceSize, |content|));
    DirsAfterEdit(img, out, pvd.volumeSpaceSize, SizeAfter(pvd, content), dirs);
    DirsRead(out, SizeAfter(pvd, content), dirs);
  }

  /** Other records read what they read. */
  lemma NodeElsewhere(img: bytes, out: bytes, dirs: set<Extent>, d: Extent, r: DirRecord, content: bytes, e: Extent,
                      s: DirRecord)
    requires WellFormed(img, dirs) && |content| < U32 && Moved(img, out, dirs, d, r, content)
    requires e in dirs && s in Listing(img, e) && !s.IsDot()
    ensures NodeAt(out, s) == NodeAt(img, s)
  {
    hide Listing, ReadPvd, ExtentFields, Edited, DirsOk, ReadAt, NodeAt, Reads, CatalogOf, Sound, Retarget;
    var pvd := ReadPvd(img).value;
    if !s.isDir {
      RecordInDir(img, pvd.volumeSpaceSize, dirs, d, r);
      assert FileOk(img, pvd.volumeSpaceSize, dirs, s.Data()) && Disjoint(d, s.Data());
      FieldsLength(pvd.volumeSpaceSize, |content|);
      BytesUnchanged(img, out, pvd.volumeSpaceSize, r.off + 2, ExtentFields(pvd.volumeSpaceSize, |content|), s.Data());
    }
    SameBytesSameNode(img, out, s);
  }

  lemma FieldsLength(lba: int, len: int)
    requires 0 <= lba < U32 && 0 <= len < U32
    ensures |ExtentFields(lba, len)| == 16
  {
  }

  lemma ViewAlong(img: bytes, cat: Catalog, key: Key)
    requires ReadPvd(img).Ok? && Reads(img, cat) && ReadPvd(img).value.root in cat && key != []
    requires KnownAlong(cat, ReadPvd(img).value.root, key)
    ensures View(img, key) == match Lookup(cat, ReadPvd(img).value.root, key)
                              case None => None
                              case Some(r) => NodeAt(img, r)
  {
    hide ResolveIn, Lookup, NodeAt, ReadPvd, Reads, KnownAlong;
    ResolveAlong(img, cat, ReadPvd(img).value.root, key);
  }

  lemma MovedFacts(img: bytes, out: bytes, dirs: set<Extent>, d: Extent, r: DirRecord, content: bytes)
    requires WellFormed(img, dirs) && ReadPvd(img).Ok? && |content| < U32 && Moved(img, out, dirs, d, r, content)
    ensures var pvd, cat := ReadPvd(img).value, CatalogOf(img, dirs);
            && Sound(cat, pvd.root) && Reads(out, CatalogOf(out, dirs)) && pvd.root in CatalogOf(out, dirs) && r.isDir
            && ReadPvd(out).Ok? && ReadPvd(out).value.root == pvd.root
            && CatalogOf(out, dirs) == Retarget(cat, r.off, pvd.volumeSpaceSize, |content|)
  {
    hide ReadPvd, Reads, Listing, Edited, FilesOk, DirsOk;
  }

  lemma NodeOfDir(img: bytes, r: DirRecord, lba: nat, len: nat)
    requires r.isDir
    ensures NodeAt(img, RetargetOne(r, r.off, lba, len)) == Some(Directory)
  {
  }

  lemma RetargetOther(s: DirRecord, off: nat, lba: nat, len: nat)
    requires s.off != off
    ensures RetargetOne(s, off, lba, len) == s
  {
  }

  /** One path after a directory was replaced. */
  lemma MovedView(img: bytes, out: bytes, dirs: set<Extent>, d: Extent, r: DirRecord, key: Key, content: bytes, k: Key)
    requires WellFormed(img, dirs) && ReadPvd(img).Ok? && |content| < U32 && Moved(img, out, dirs, d, r, content)
    requires key != [] && Lookup(CatalogOf(img, dirs), ReadPvd(img).value.root, key) == Some(r)
    ensures SameKey(k, key) ==> View(out, k) == Some(Directory)
    ensures !Under(k, key) ==> View(out, k) == View(img, k)
  {
    hide *;
    MovedFacts(img, out, dirs, d, r, content);
    UnderCases(k, key);
    if k == [] {
      EmptyKeyView(img);
      EmptyKeyView(out);
    } else if SameKey(k, key) || !Under(k, key) {
      var pvd, cat := ReadPvd(img).value, CatalogOf(img, dirs);
      var lba, len := pvd.volumeSpaceSize, |content|;
      forall j | 0 < j <= |k| && Lookup(cat, pvd.root, k[..j]).Some? && Lookup(cat, pvd.root, k[..j]).value.off == r.off
        ensures j == |k| && Under(k, key)
      {
        OnlyUnder(cat, pvd.root, key, k, j);
      }
      assert k[..|k|] == k;
      MovedLookup(cat, pvd.root, r.off, lba, len, k);
      MovedKnown(cat, pvd.root, r.off, lba, len, k);
      ViewAlong(out, CatalogOf(out, dirs), k);
      ViewIsLookup(img, dirs, k);
      if SameKey(k, key) {
        SameKeySameRecord(cat, pvd.root, k, key);
        NodeOfDir(out, r, lba, len);
      } else if Lookup(cat, pvd.root, k).Some? {
        var s := Lookup(cat, pvd.root, k).value;
        LookupInCatalog(cat, pvd.root, k);
        CatalogAt(img, dirs, DirAt(cat, pvd.root, k[..|k| - 1]).value);
        RetargetOther(s, r.off, lba, len);
        NodeElsewhere(img, out, dirs, d, r, content, DirAt(cat, pvd.root, k[..|k| - 1]).value, s);
      }
    }
  }

  lemma MovedExtent(r: DirRecord, lba: nat, len: nat)
    ensures RetargetOne(r, r.off, lba, len).isDir == r.isDir
            && RetargetOne(r, r.off, lba, len).Data() == Extent(lba, len)
  {
  }

  /** A path strictly under the replaced directory is looked up in the new content. */
  lemma MovedBelow(img: bytes, out: bytes, dirs: set<Extent>, d: Extent, r: DirRecord, key: Key, content: bytes, k: Key)
    requires WellFormed(img, dirs) && ReadPvd(img).Ok? && |content| < U32 && Moved(img, out, dirs, d, r, content)
    requires key != [] && Lookup(CatalogOf(img, dirs), ReadPvd(img).value.root, key) == Some(r) && Below(k, key)
    ensures |key| < |k|
    ensures View(out, k) == ViewIn(out, Extent(ReadPvd(img).value.volumeSpaceSize, |content|), k[|key|..])
  {
    hide *;
    MovedFacts(img, out, dirs, d, r, content);
    BelowPrefix(k, key);
    var pvd, cat, a := ReadPvd(img).value, CatalogOf(img, dirs), k[..|key|];
    var lba, len := pvd.volumeSpaceSize, |content|;
    forall j | 0 < j <= |a| && Lookup(cat, pvd.root, a[..j]).Some? && Lookup(cat, pvd.root, a[..j]).value.off == r.off
      ensures j == |a|
    {
      OnlyUnder(cat, pvd.root, key, a, j);
    }
    MovedLookup(cat, pvd.root, r.off, lba, len, a);
    MovedKnown(cat, pvd.root, r.off, lba, len, a);
    SameKeySameRecord(cat, pvd.root, a, key);
    ResolveAlong(out, CatalogOf(out, dirs), pvd.root, a);
    MovedExtent(r, lba, len);
    ViewBeyond(out, pvd.root, k, |key|);
  }

  lemma BelowPrefix(k: Key, full: Key)
    requires Below(k, full)
    ensures |full| < |k| && SameKey(k[..|full|], full)
  {
  }

  /**
   * Replacing a directory other than the root succeeds and the path stays a directory. Every path that is not under it
   * reads what it read; the paths under it are looked up in the new content, and leave the view if that is empty.
   */
  lemma {:induction false} ReplaceDirectory(img: bytes, dirs: set<Extent>, key: Key, content: bytes)
    requires WellFormed(img, dirs) && key != [] && View(img, key) == Some(Directory)
             && Fits(ReadPvd(img).value, content)
    ensures var pvd := ReadPvd(img).value;
            && ResolveIn(img, pvd.root, key).Ok?
            && var e := ReplaceFile(img, ResolveIn(img, pvd.root, key).value, content);
            && e.error == None && View(e.img, key) == Some(Directory)
            && (forall k | SameKey(k, key) :: View(e.img, k) == Some(Directory))
            && (forall k | !Under(k, key) :: View(e.img, k) == View(img, k))
            && (forall k | Below(k, key) ::
                  View(e.img, k) == ViewIn(e.img, Extent(pvd.volumeSpaceSize, |content|), k[|key|..]))
            && (content == [] ==> forall k | Below(k, key) :: View(e.img, k) == None)
  {
    hide *;
    WellFormedSize(img, dirs);
    var pvd := ReadPvd(img).value;
    var d, r := DirOfKey(img, dirs, key);
    DirReplaceStep(img, dirs, d, r, content);
    var out := ReplaceFile(img, r, content).img;
    forall k
      ensures SameKey(k, key) ==> View(out, k) == Some(Directory)
      ensures !Under(k, key) ==> View(out, k) == View(img, k)
    {
      MovedView(img, out, dirs, d, r, key, content, k);
    }
    forall k | Below(k, key)
      ensures |key| < |k| && View(out, k) == ViewIn(out, Extent(pvd.volumeSpaceSize, |content|), k[|key|..])
      ensures content == [] ==> View(out, k) == None
    {
      MovedBelow(img, out, dirs, d, r, key, content, k);
      EmptyExtentView(out, pvd.volumeSpaceSize, k[|key|..]);
    }
    BelowLonger(key);
    SameKeySelf(key);
  }

  lemma BelowLonger(full: Key)
    ensures forall k | Below(k, full) :: |full| < |k|
  {
    hide SameKey;
  }

  /** A replace of a path in view, which never fails, makes its update exactly when the path is no directory. */
  lemma {:induction false} ReplaceIff(img: bytes, dirs: set<Extent>, key: Key, content: bytes)
    requires WellFormed(img, dirs) && key != [] && View(img, key).Some? && Fits(ReadPvd(img).value, content)
    ensures var pvd := ReadPvd(img).value;
            && ResolveIn(img, pvd.root, key).Ok?
            && var e := ReplaceFile(img, ResolveIn(img, pvd.root, key).value, content);
            && e.error == None
            && ((forall k :: View(e.img, k) == if SameKey(k, key) then Some(File(content)) else View(img, k))
                <==> View(img, key) != Some(Directory))
  {
    hide *;
    if View(img, key) == Some(Directory) {
      ReplaceDirectory(img, dirs, key, content);
      SameKeySelf(key);
    } else {
      ReplaceRefines(img, dirs, key, content);
    }
  }
}
