/** Replacing a file of a well-formed image: its path reads the new content, every other path is as before. */
module Iso9660Replace {
  import opened Bytes
  import opened Iso9660Record
  import opened Iso9660Image
  import opened Iso9660Catalog
  import opened Iso9660Layout
  import opened Iso9660Volume
  import opened Iso9660Refinement

  /** r is the record of a file, listed in directory d. */
  ghost predicate FileIn(img: bytes, dirs: set<Extent>, d: Extent, r: DirRecord) {
    d in dirs && r in Listing(img, d) && !r.isDir && !r.IsDot()
  }

  /** The content and the volume after it still fit 32-bit fields. */
  predicate Fits(pvd: Pvd, content: bytes) {
    |content| < U32 && pvd.volumeSpaceSize + SectorsFor(|content|) < U32
  }

  lemma ListingAfterReplace(img: bytes, out: bytes, sectors: nat, dirs: set<Extent>, d: Extent, r: DirRecord,
                            lba: int, len: int, e: Extent)
    requires DirsOk(img, sectors, dirs) && d in dirs && r in Listing(img, d) && e in dirs
    requires 0 <= lba < U32 && 0 <= len < U32 && Edited(img, out, sectors, r.off + 2, ExtentFields(lba, len))
    ensures Framed(BytesOf(out, e), 0) && Listing(out, e) == RetargetAll(Listing(img, e), r.off, lba, len)
  {
    hide Edited, RetargetAll, BytesOf, ExtentFields, Framed, Patch, Records;
    RecordInside(img, sectors, d, r);
    if e == d {
      ScanRetarget(BytesOf(img, d), d.Start(), 0, r, lba, len);
      BytesPatched(img, out, sectors, r.off + 2, ExtentFields(lba, len), d);
    } else {
      assert Disjoint(d, e);
      BytesUnchanged(img, out, sectors, r.off + 2, ExtentFields(lba, len), e);
      forall s | s in Listing(img, e)
        ensures s.off != r.off
      {
        RecordInside(img, sectors, e, s);
      }
      RetargetNone(Listing(img, e), r.off, lba, len);
    }
  }

  lemma CatalogAfterReplace(img: bytes, out: bytes, sectors: nat, dirs: set<Extent>, d: Extent, r: DirRecord,
                            lba: int, len: int)
    requires DirsOk(img, sectors, dirs) && d in dirs && r in Listing(img, d)
    requires 0 <= lba < U32 && 0 <= len < U32 && Edited(img, out, sectors, r.off + 2, ExtentFields(lba, len))
    ensures CatalogOf(out, dirs) == Retarget(CatalogOf(img, dirs), r.off, lba, len)
    ensures forall e | e in dirs :: Framed(BytesOf(out, e), 0)
  {
    forall e | e in dirs
      ensures Framed(BytesOf(out, e), 0) && Listing(out, e) == RetargetAll(Listing(img, e), r.off, lba, len)
    {
      ListingAfterReplace(img, out, sectors, dirs, d, r, lba, len, e);
    }
    hide Listing, RetargetAll, Framed, Edited;
  }

  /** Only the target has its offset. */
  lemma TargetAlone(img: bytes, dirs: set<Extent>, root: Extent, d: Extent, r: DirRecord)
    requires Sound(CatalogOf(img, dirs), root) && FileIn(img, dirs, d, r)
    ensures NoSubdirAt(CatalogOf(img, dirs), r.off)
    ensures forall e, s: DirRecord | e in dirs && s in Listing(img, e) && s.off == r.off :: s == r
  {
    hide Listing;
    var cat := CatalogOf(img, dirs);
    forall e, s: DirRecord | e in dirs && s in Listing(img, e) && s.off == r.off
      ensures s == r
    {
      assert cat[e] == Listing(img, e) && cat[d] == Listing(img, d);
      OffsetUnique(cat, d, e, r, s);
    }
  }

  lemma DirsAfterEdit(img: bytes, out: bytes, before: nat, after: nat, dirs: set<Extent>)
    requires DirsOk(img, before, dirs) && |img| <= |out| && before <= after
    requires forall e | e in dirs :: Framed(BytesOf(out, e), 0)
    ensures DirsOk(out, after, dirs)
  {
    hide Framed, BytesOf;
  }

  lemma NewFileOk(img: bytes, out: bytes, pvd: Pvd, dirs: set<Extent>, content: bytes, size: nat)
    requires DirsOk(img, pvd.volumeSpaceSize, dirs) && 17 <= pvd.volumeSpaceSize
    requires size >= pvd.volumeSpaceSize + SectorsFor(|content|)
    requires content != [] ==> pvd.End() + |content| <= |out|
    ensures FileOk(out, size, dirs, Extent(pvd.volumeSpaceSize, |content|))
  {
    hide Framed, BytesOf;
  }

  lemma FileStaysOk(img: bytes, out: bytes, before: nat, after: nat, dirs: set<Extent>, e: Extent)
    requires FileOk(img, before, dirs, e) && |img| <= |out| && before <= after
    ensures FileOk(out, after, dirs, e)
  {
  }

  lemma FilesAfterReplace(img: bytes, out: bytes, pvd: Pvd, dirs: set<Extent>, d: Extent, r: DirRecord,
                          content: bytes, size: nat)
    requires DirsOk(img, pvd.volumeSpaceSize, dirs) && FilesOk(img, pvd.volumeSpaceSize, dirs)
             && 17 <= pvd.volumeSpaceSize
    requires size >= pvd.volumeSpaceSize + SectorsFor(|content|) && |img| <= |out|
    requires content != [] ==> pvd.End() + |content| <= |out|
    requires CatalogOf(out, dirs) == Retarget(CatalogOf(img, dirs), r.off, pvd.volumeSpaceSize, |content|)
    ensures FilesOk(out, size, dirs)
  {
    forall e, t | e in dirs && t in Listing(out, e) && !t.isDir && !t.IsDot()
      ensures FileOk(out, size, dirs, t.Data())
    {
      hide FileOk, DirsOk, Listing, RetargetAll;
      assert Listing(out, e) == CatalogOf(out, dirs)[e]
             == RetargetAll(Listing(img, e), r.off, pvd.volumeSpaceSize, |content|);
      var s := RetargetMember(Listing(img, e), r.off, pvd.volumeSpaceSize, |content|, t);
      if s.off == r.off {
        NewFileOk(img, out, pvd, dirs, content, size);
      } else {
        FileStaysOk(img, out, pvd.volumeSpaceSize, size, dirs, s.Data());
      }
    }
  }

  /** The edit of a file's record keeps the image well-formed and retargets its catalog. */
  lemma ReplaceKeeps(img: bytes, out: bytes, dirs: set<Extent>, d: Extent, r: DirRecord, content: bytes)
    requires WellFormed(img, dirs) && FileIn(img, dirs, d, r) && Fits(ReadPvd(img).value, content)
    requires var pvd := ReadPvd(img).value;
             Committed(img, out, pvd, r.off + 2, ExtentFields(pvd.volumeSpaceSize, |content|), content,
               SizeAfter(pvd, content))
    ensures WellFormed(out, dirs)
    ensures CatalogOf(out, dirs) == Retarget(CatalogOf(img, dirs), r.off, ReadPvd(img).value.volumeSpaceSize, |content|)
  {
    hide *;
    FileFacts(img, dirs, d, r);
    SizeGrows(ReadPvd(img).value, content);
    CommittedFacts(img, out, ReadPvd(img).value, r.off + 2, content);
    var pvd := ReadPvd(img).value;
    var size := SizeAfter(pvd, content);
    CatalogAfterReplace(img, out, pvd.volumeSpaceSize, dirs, d, r, pvd.volumeSpaceSize, |content|);
    TargetAlone(img, dirs, pvd.root, d, r);
    RetargetSound(CatalogOf(img, dirs), pvd.root, r.off, pvd.volumeSpaceSize, |content|);
    EditedGrows(img, out, pvd.volumeSpaceSize, r.off + 2, ExtentFields(pvd.volumeSpaceSize, |content|));
    DirsAfterEdit(img, out, pvd.volumeSpaceSize, size, dirs);
    FilesAfterReplace(img, out, pvd, dirs, d, r, content, size);
    WellFormedBy(out, dirs, pvd.(volumeSpaceSize := size));
  }

  lemma FileFacts(img: bytes, dirs: set<Extent>, d: Extent, r: DirRecord)
    requires WellFormed(img, dirs) && FileIn(img, dirs, d, r)
    ensures ReadPvd(img).Ok? && d in dirs && r in Listing(img, d)
    ensures var pvd := ReadPvd(img).value;
            && 17 <= pvd.volumeSpaceSize && DirsOk(img, pvd.volumeSpaceSize, dirs)
            && FilesOk(img, pvd.volumeSpaceSize, dirs) && Sound(CatalogOf(img, dirs), pvd.root)
  {
    hide ReadPvd, DirsOk, FilesOk, Sound, Listing, CatalogOf;
  }

  lemma SizeGrows(pvd: Pvd, content: bytes)
    requires Fits(pvd, content)
    ensures |content| < U32 && pvd.volumeSpaceSize < U32
    ensures SizeAfter(pvd, content) == pvd.volumeSpaceSize + SectorsFor(|content|)
  {
  }

  lemma CommittedFacts(img: bytes, out: bytes, pvd: Pvd, at: nat, content: bytes)
    requires pvd.volumeSpaceSize < U32 && |content| < U32
    requires Committed(img, out, pvd, at, ExtentFields(pvd.volumeSpaceSize, |content|), content,
             SizeAfter(pvd, content))
    ensures Edited(img, out, pvd.volumeSpaceSize, at, ExtentFields(pvd.volumeSpaceSize, |content|))
    ensures ReadPvd(out) == Ok(pvd.(volumeSpaceSize := SizeAfter(pvd, content)))
    ensures content != [] ==> pvd.End() + |content| <= |out|
  {
    hide Edited, ReadPvd, ExtentFields;
  }

  lemma EditedGrows(img: bytes, out: bytes, sectors: nat, at: nat, piece: bytes)
    requires Edited(img, out, sectors, at, piece)
    ensures |img| <= |out|
  {
  }

  /** What a record reads after the edit: the new content for the target, the old for any other file. */
  lemma NodeAfterReplace(img: bytes, out: bytes, dirs: set<Extent>, d: Extent, r: DirRecord, content: bytes,
                         e: Extent, s: DirRecord)
    requires WellFormed(img, dirs) && FileIn(img, dirs, d, r) && |content| < U32
    requires var pvd := ReadPvd(img).value;
             Committed(img, out, pvd, r.off + 2, ExtentFields(pvd.volumeSpaceSize, |content|), content,
               SizeAfter(pvd, content))
    requires e in dirs && s in Listing(img, e) && !s.IsDot()
    ensures NodeAt(out, RetargetOne(s, r.off, ReadPvd(img).value.volumeSpaceSize, |content|))
         == if s.off == r.off then Some(File(content)) else NodeAt(img, s)
  {
    hide Listing, ReadPvd, ExtentFields, Edited, DirsOk, ReadAt, NodeAt;
    var pvd := ReadPvd(img).value;
    if s.off == r.off {
      TargetAlone(img, dirs, pvd.root, d, r);
      NewContentReads(out, pvd, content, RetargetOne(s, r.off, pvd.volumeSpaceSize, |content|));
    } else if !s.isDir {
      RecordInDir(img, pvd.volumeSpaceSize, dirs, d, r);
      assert FileOk(img, pvd.volumeSpaceSize, dirs, s.Data()) && Disjoint(d, s.Data());
      BytesUnchanged(img, out, pvd.volumeSpaceSize, r.off + 2, ExtentFields(pvd.volumeSpaceSize, |content|), s.Data());
      SameBytesSameNode(img, out, s);
    } else {
      SameBytesSameNode(img, out, s);
    }
  }

  lemma SameBytesSameNode(img: bytes, out: bytes, s: DirRecord)
    requires s.isDir || ReadAt(out, s.dataLen, s.Data().Start()) == ReadAt(img, s.dataLen, s.Data().Start())
    ensures NodeAt(out, s) == NodeAt(img, s)
  {
  }

  lemma NewContentReads(out: bytes, pvd: Pvd, content: bytes, r: DirRecord)
    requires var start := pvd.End();
             content != [] ==> start + |content| <= |out| && out[start..start + |content|] == content
    requires r.lba == pvd.volumeSpaceSize && r.dataLen == |content| && !r.isDir
    ensures NodeAt(out, r) == Some(File(content))
  {
  }

  lemma RecordInDir(img: bytes, sectors: nat, dirs: set<Extent>, d: Extent, r: DirRecord)
    requires DirsOk(img, sectors, dirs) && d in dirs && r in Listing(img, d)
    ensures d.len > 0 && d.Start() <= r.off && r.off + 33 <= d.End()
    ensures DATA_START <= r.off && r.off + 33 <= |img| && r.off + 33 <= sectors * SECTOR
  {
    assert DirOk(img, sectors, d);
    RecordInside(img, sectors, d, r);
  }

  /** The file a path names, with the directory that lists it. */
  lemma FileOfKey(img: bytes, dirs: set<Extent>, key: Key) returns (d: Extent, r: DirRecord)
    requires WellFormed(img, dirs) && key != [] && View(img, key).Some? && View(img, key) != Some(Directory)
    ensures Lookup(CatalogOf(img, dirs), ReadPvd(img).value.root, key) == Some(r) && FileIn(img, dirs, d, r)
    ensures ResolveIn(img, ReadPvd(img).value.root, key) == Ok(r)
  {
    hide ResolveIn, Lookup, Listing;
    var pvd := ReadPvd(img).value;
    hide ReadPvd, Sound;
    ViewIsLookup(img, dirs, key);
    WellFormedReads(img, dirs);
    ResolveIsLookup(img, CatalogOf(img, dirs), pvd.root, key);
    LookupInCatalog(CatalogOf(img, dirs), pvd.root, key);
    r := Lookup(CatalogOf(img, dirs), pvd.root, key).value;
    d := DirAt(CatalogOf(img, dirs), pvd.root, key[..|key| - 1]).value;
  }

  /** The main result for one path: exactly the paths naming the file read the new content. */
  lemma {:induction false} ReplaceView(img: bytes, out: bytes, dirs: set<Extent>, d: Extent, r: DirRecord, key: Key,
                                       content: bytes, k: Key)
    requires WellFormed(img, dirs) && FileIn(img, dirs, d, r) && Fits(ReadPvd(img).value, content) && key != []
    requires Lookup(CatalogOf(img, dirs), ReadPvd(img).value.root, key) == Some(r)
    requires var pvd := ReadPvd(img).value;
             Committed(img, out, pvd, r.off + 2, ExtentFields(pvd.volumeSpaceSize, |content|), content,
               SizeAfter(pvd, content))
    ensures View(out, k) == if SameKey(k, key) then Some(File(content)) else View(img, k)
  {
    var pvd := ReadPvd(img).value;
    var cat := CatalogOf(img, dirs);
    ReplaceKeeps(img, out, dirs, d, r, content);
    if k == [] {
      EmptyKeyView(img);
      EmptyKeyView(out);
    } else {
      TargetAlone(img, dirs, pvd.root, d, r);
      assert ReadPvd(out).value.root == pvd.root;
      assert WellFormed(img, dirs) && Sound(cat, pvd.root);
      hide Sound, WellFormed, Committed, View, Lookup, NodeAt, SameKey, ReadPvd, Listing, NoSubdirAt, Retarget, FileIn;
      RetargetLookup(cat, pvd.root, r.off, pvd.volumeSpaceSize, |content|, k);
      ViewIsLookup(img, dirs, k);
      ViewIsLookup(out, dirs, k);
      var found := Lookup(cat, pvd.root, k);
      if found.Some? {
        LookupInCatalog(cat, pvd.root, k);
        NodeAfterReplace(img, out, dirs, d, r, content, DirAt(cat, pvd.root, k[..|k| - 1]).value, found.value);
        if found.value.off == r.off {
          RecordDeterminesKey(cat, pvd.root, k, key);
        }
      }
      if SameKey(k, key) {
        SameKeySameRecord(cat, pvd.root, k, key);
      }
    }
  }

  lemma EmptyKeyView(img: bytes)
    requires ReadPvd(img).Ok?
    ensures View(img, []) == Some(Directory)
  {
  }

  /** Replacing the file a path names. */
  lemma {:induction false} ReplaceRefines(img: bytes, dirs: set<Extent>, key: Key, content: bytes)
    requires WellFormed(img, dirs) && key != [] && View(img, key).Some? && View(img, key) != Some(Directory)
    requires Fits(ReadPvd(img).value, content)
    ensures var pvd := ReadPvd(img).value;
            && ResolveIn(img, pvd.root, key).Ok?
            && var rec := ResolveIn(img, pvd.root, key).value;
            && var e := ReplaceFile(img, rec, content);
            && e.error == None && WellFormed(e.img, dirs)
            && ReadPvd(e.img) == Ok(pvd.(volumeSpaceSize := pvd.volumeSpaceSize + SectorsFor(|content|)))
            && CatalogOf(e.img, dirs) == Retarget(CatalogOf(img, dirs), rec.off, pvd.volumeSpaceSize, |content|)
            && forall k :: View(e.img, k) == if SameKey(k, key) then Some(File(content)) else View(img, k)
  {
    hide *;
    WellFormedSize(img, dirs);
    var d, r := FileOfKey(img, dirs, key);
    var pvd := ReadPvd(img).value;
    ReplaceStep(img, dirs, d, r, content);
    var out := ReplaceFile(img, r, content).img;
    forall k
      ensures View(out, k) == if SameKey(k, key) then Some(File(content)) else View(img, k)
    {
      ReplaceView(img, out, dirs, d, r, key, content, k);
    }
  }

  lemma ReplaceStep(img: bytes, dirs: set<Extent>, d: Extent, r: DirRecord, content: bytes)
    requires WellFormed(img, dirs) && FileIn(img, dirs, d, r) && Fits(ReadPvd(img).value, content)
    ensures var pvd := ReadPvd(img).value;
            && var e := ReplaceFile(img, r, content);
            && e.error == None && WellFormed(e.img, dirs)
            && ReadPvd(e.img) == Ok(pvd.(volumeSpaceSize := pvd.volumeSpaceSize + SectorsFor(|content|)))
            && CatalogOf(e.img, dirs) == Retarget(CatalogOf(img, dirs), r.off, pvd.volumeSpaceSize, |content|)
            && Committed(img, e.img, pvd, r.off + 2, ExtentFields(pvd.volumeSpaceSize, |content|), content,
               SizeAfter(pvd, content))
  {
    hide *;
    WellFormedSize(img, dirs);
    var pvd := ReadPvd(img).value;
    FilePlace(img, dirs, d, r);
    SizeExact(pvd, content);
    ReplaceCommits(img, pvd, r, content);
    var out := ReplaceFile(img, r, content).img;
    ReplaceKeeps(img, out, dirs, d, r, content);
    CommittedPvd(img, out, pvd, r.off + 2, ExtentFields(pvd.volumeSpaceSize, |content|), content,
      SizeAfter(pvd, content));
  }

  lemma FilePlace(img: bytes, dirs: set<Extent>, d: Extent, r: DirRecord)
    requires WellFormed(img, dirs) && FileIn(img, dirs, d, r)
    ensures ReadPvd(img).Ok?
    ensures DATA_START <= r.off && r.off + 33 <= |img| && r.off + 33 <= ReadPvd(img).value.End()
  {
    RecordInDir(img, ReadPvd(img).value.volumeSpaceSize, dirs, d, r);
  }

  lemma SizeExact(pvd: Pvd, content: bytes)
    requires Fits(pvd, content)
    ensures |content| % U32 == |content| && SizeAfter(pvd, content) == pvd.volumeSpaceSize + SectorsFor(|content|)
    ensures 0 <= SizeAfter(pvd, content) < U32
  {
  }

  lemma WellFormedSize(img: bytes, dirs: set<Extent>)
    requires WellFormed(img, dirs)
    ensures ReadPvd(img).Ok? && ReadPvd(img).value.volumeSpaceSize >= 17
  {
  }

  lemma CommittedPvd(img: bytes, out: bytes, pvd: Pvd, at: nat, piece: bytes, content: bytes, size: nat)
    requires Committed(img, out, pvd, at, piece, content, size)
    ensures ReadPvd(out) == Ok(pvd.(volumeSpaceSize := size))
  {
  }
}
