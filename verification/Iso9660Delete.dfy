/** Deleting a record of a well-formed image: which records stay listed and which paths stay in view. */
module Iso9660Delete {
  import opened Bytes
  import opened Iso9660Record
  import opened Iso9660Image
  import opened Iso9660Catalog
  import opened Iso9660Layout
  import opened Iso9660Volume
  import opened Iso9660Refinement
  import opened Iso9660Replace

  /** The catalog without the records hidden by a deletion at off. */
  function RemainingCatalog(cat: Catalog, off: nat): Catalog {
    map d | d in cat :: Remaining(cat[d], off)
  }

  /** Some prefix of the path names a hidden record. */
  predicate Blocked(cat: Catalog, root: Extent, off: nat, key: Key)
    decreases |key|
  {
    key != [] && (Blocked(cat, root, off, key[..|key| - 1])
                  || (Lookup(cat, root, key).Some? && HiddenBy(off, Lookup(cat, root, key).value)))
  }

  // The catalog.

  lemma {:induction false} RemainingMembers(rs: seq<DirRecord>, off: nat)
    ensures forall r :: r in Remaining(rs, off) <==> r in rs && !HiddenBy(off, r)
  {
    if rs != [] {
      RemainingMembers(rs[1..], off);
    }
  }

  lemma {:induction false} RemainingFirstMatch(rs: seq<DirRecord>, off: nat, name: bytes)
    requires NamesUnique(rs)
    ensures FirstMatch(Remaining(rs, off), name)
         == match FirstMatch(rs, name) case None => None case Some(r) => if HiddenBy(off, r) then None else Some(r)
  {
    if rs != [] {
      TailUnique(rs);
      hide NamesUnique;
      RemainingFirstMatch(rs[1..], off, name);
      if !rs[0].IsDot() && EqualFold(rs[0].Name(), name) {
        NoSecondMatch(rs, name);
      }
      RemainingCons(rs[0], rs[1..], off);
      hide EqualFold, DirRecord.Name, DirRecord.IsDot, HiddenBy;
      assert rs == [rs[0]] + rs[1..];
      if Remaining(rs, off) == [rs[0]] + Remaining(rs[1..], off) {
        assert Remaining(rs, off)[1..] == Remaining(rs[1..], off);
      }
    }
  }

  lemma TailUnique(rs: seq<DirRecord>)
    requires NamesUnique(rs) && rs != []
    ensures NamesUnique(rs[1..])
  {
    hide EqualFold, DirRecord.Name, DirRecord.IsDot;
  }

  lemma NoSecondMatch(rs: seq<DirRecord>, name: bytes)
    requires NamesUnique(rs) && rs != [] && !rs[0].IsDot() && EqualFold(rs[0].Name(), name)
    ensures FirstMatch(rs[1..], name).None?
  {
    FirstMatchIn(rs[1..], name);
  }

  lemma {:induction false} RemainingLookup(cat: Catalog, root: Extent, off: nat, key: Key)
    requires Sound(cat, root) && key != []
    ensures Lookup(RemainingCatalog(cat, off), root, key)
         == if Blocked(cat, root, off, key) then None else Lookup(cat, root, key)
    decreases |key|, 1
  {
    var init := key[..|key| - 1];
    RemainingDirAt(cat, root, off, init);
    var d := DirAt(cat, root, init);
    if d.Some? && d.value in cat {
      assert NamesUnique(cat[d.value]);
      hide Sound, Remaining, FirstMatch, HiddenBy, NamesUnique;
      RemainingFirstMatch(cat[d.value], off, key[|key| - 1]);
    }
  }

  lemma {:induction false} RemainingDirAt(cat: Catalog, root: Extent, off: nat, key: Key)
    requires Sound(cat, root)
    ensures DirAt(RemainingCatalog(cat, off), root, key)
         == if Blocked(cat, root, off, key) then None else DirAt(cat, root, key)
    decreases |key|, 2
  {
    hide Sound;
    if key != [] {
      RemainingLookup(cat, root, off, key);
    }
  }

  // The bytes.

  lemma DeleteEffect(img: bytes, pvd: Pvd, r: DirRecord)
    requires ReadPvd(img) == Ok(pvd) && DATA_START <= r.off < |img|
    ensures var e := DeleteFile(img, r);
            e.error == None && Edited(img, e.img, pvd.volumeSpaceSize, r.off, [0]) && ReadPvd(e.img) == Ok(pvd)
  {
    WriteAtBytes(img, [0], r.off);
    PvdFrame(img, WriteAt(img, [0], r.off));
  }

  /** Hidden records lie in the deleted record's own directory, which is a whole number of sectors. */
  lemma HiddenInside(img: bytes, sectors: nat, dirs: set<Extent>, d: Extent, r: DirRecord, e: Extent, s: DirRecord)
    requires DirsOk(img, sectors, dirs) && d in dirs && e in dirs
    requires r in Listing(img, d) && s in Listing(img, e) && HiddenBy(r.off, s)
    ensures d == e
  {
    hide Listing, DirsOk, BytesOf, Framed;
    DirsFacts(img, sectors, dirs, d, e);
    RecordInside(img, sectors, d, r);
    RecordInside(img, sectors, e, s);
    SectorInside(d, r.off);
  }

  lemma SectorInside(d: Extent, off: nat)
    requires d.len % SECTOR == 0 && d.Start() <= off < d.End()
    ensures NextSector(off) <= d.End()
  {
  }

  lemma ReadAfterDelete(img: bytes, out: bytes, sectors: nat, dirs: set<Extent>, d: Extent, r: DirRecord, e: Extent)
    requires DirsOk(img, sectors, dirs) && d in dirs && r in Listing(img, d) && e in dirs
    requires Edited(img, out, sectors, r.off, [0])
    ensures ReadDirectory(out, e) == Ok(Remaining(Listing(img, e), r.off))
  {
    hide *;
    DirsFacts(img, sectors, dirs, d, e);
    DirFacts(img, sectors, e);
    DirFacts(img, sectors, d);
    RecordInside(img, sectors, d, r);
    ListingIs(img, e);
    if e == d {
      StartAligned(d);
      ScanDelete(BytesOf(img, d), d.Start(), 0, r);
      BytesPatched(img, out, sectors, r.off, [0], d);
      InDataGrows(img, out, sectors, sectors, d) by { EditedGrows(img, out, sectors, r.off, [0]); }
      ReadDirectoryIs(out, sectors, d);
    } else {
      ApartInTime(d, e, r.off);
      BytesUnchanged(img, out, sectors, r.off, [0], e);
      ReadDirectoryOk(img, sectors, e);
      ReadDirectorySame(img, out, e);
      forall s | s in Listing(img, e)
        ensures !HiddenBy(r.off, s)
      {
        if HiddenBy(r.off, s) {
          HiddenInside(img, sectors, dirs, d, r, e, s);
        }
      }
      RemainingNone(Listing(img, e), r.off);
    }
  }

  lemma DirsFacts(img: bytes, sectors: nat, dirs: set<Extent>, d: Extent, e: Extent)
    requires DirsOk(img, sectors, dirs) && d in dirs && e in dirs
    ensures DirOk(img, sectors, d) && DirOk(img, sectors, e) && (d != e ==> Disjoint(d, e))
  {
  }

  lemma StartAligned(d: Extent)
    ensures d.Start() % SECTOR == 0
  {
  }

  lemma ApartInTime(d: Extent, e: Extent, at: nat)
    requires Disjoint(d, e) && d.Start() <= at < d.End()
    ensures e.len == 0 || e.End() <= at || at + 1 <= e.Start()
  {
  }

  lemma ReadDirectoryIs(img: bytes, sectors: nat, d: Extent)
    requires InData(img, sectors, d)
    ensures ReadDirectory(img, d) == Scan(BytesOf(img, d), d.Start(), 0)
  {
  }

  lemma ReadDirectorySame(img: bytes, out: bytes, e: Extent)
    requires ReadAt(out, e.len, e.Start()) == ReadAt(img, e.len, e.Start())
    ensures ReadDirectory(out, e) == ReadDirectory(img, e)
  {
  }

  lemma NodeAfterDelete(img: bytes, out: bytes, pvd: Pvd, dirs: set<Extent>, d: Extent, r: DirRecord, e: Extent,
                        s: DirRecord)
    requires DirsOk(img, pvd.volumeSpaceSize, dirs) && FilesOk(img, pvd.volumeSpaceSize, dirs)
    requires d in dirs && r in Listing(img, d) && e in dirs && s in Listing(img, e) && !s.IsDot()
    requires Edited(img, out, pvd.volumeSpaceSize, r.off, [0])
    ensures NodeAt(out, s) == NodeAt(img, s)
  {
    hide DirsOk, Listing, Edited, NodeAt, ReadAt;
    if !s.isDir {
      RecordInDir(img, pvd.volumeSpaceSize, dirs, d, r);
      assert FileOk(img, pvd.volumeSpaceSize, dirs, s.Data()) && Disjoint(d, s.Data());
      BytesUnchanged(img, out, pvd.volumeSpaceSize, r.off, [0], s.Data());
    }
    SameBytesSameNode(img, out, s);
  }

  /** Listings, contents and paths after deleting the record a path names. */
  lemma {:induction false} DeleteRefines(img: bytes, dirs: set<Extent>, key: Key)
    requires WellFormed(img, dirs) && key != [] && View(img, key).Some?
    ensures var pvd, cat := ReadPvd(img).value, CatalogOf(img, dirs);
            && ResolveIn(img, pvd.root, key).Ok?
            && var rec := ResolveIn(img, pvd.root, key).value;
            && var e := DeleteFile(img, rec);
            && e.error == None && ReadPvd(e.img) == Ok(pvd)
            && Blocked(cat, pvd.root, rec.off, key)
            && Reads(e.img, RemainingCatalog(cat, rec.off))
            && (forall d, s: DirRecord | d in cat && s in cat[d] && !s.IsDot() :: NodeAt(e.img, s) == NodeAt(img, s))
            && (forall k :: View(e.img, k) == if Blocked(cat, pvd.root, rec.off, k) then None else View(img, k))
  {
    hide *;
    WellFormedReads(img, dirs);
    var pvd, cat := ReadPvd(img).value, CatalogOf(img, dirs);
    WellFormedParts(img, dirs);
    ViewIsLookup(img, dirs, key);
    LookupInCatalog(cat, pvd.root, key);
    ResolveIsLookup(img, cat, pvd.root, key);
    var r, d := Lookup(cat, pvd.root, key).value, DirAt(cat, pvd.root, key[..|key| - 1]).value;
    CatalogAt(img, dirs, d);
    RecordInDir(img, pvd.volumeSpaceSize, dirs, d, r);
    DeleteEffect(img, pvd, r);
    var out := DeleteFile(img, r).img;
    BlockedSelf(cat, pvd.root, key);
    ReadsAfterDelete(img, out, pvd, dirs, d, r);
    forall e, s: DirRecord | e in cat && s in cat[e] && !s.IsDot()
      ensures NodeAt(out, s) == NodeAt(img, s)
    {
      CatalogAt(img, dirs, e);
      NodeAfterDelete(img, out, pvd, dirs, d, r, e, s);
    }
    forall k
      ensures View(out, k) == if Blocked(cat, pvd.root, r.off, k) then None else View(img, k)
    {
      ViewAfterDelete(img, out, dirs, r.off, k);
    }
  }

  lemma BlockedSelf(cat: Catalog, root: Extent, key: Key)
    requires key != [] && Lookup(cat, root, key).Some?
    ensures Blocked(cat, root, Lookup(cat, root, key).value.off, key)
  {
  }

  lemma ReadsAfterDelete(img: bytes, out: bytes, pvd: Pvd, dirs: set<Extent>, d: Extent, r: DirRecord)
    requires DirsOk(img, pvd.volumeSpaceSize, dirs) && d in dirs && r in Listing(img, d)
    requires Edited(img, out, pvd.volumeSpaceSize, r.off, [0])
    ensures Reads(out, RemainingCatalog(CatalogOf(img, dirs), r.off))
  {
    forall e | e in dirs
      ensures ReadDirectory(out, e) == Ok(Remaining(Listing(img, e), r.off))
    {
      ReadAfterDelete(img, out, pvd.volumeSpaceSize, dirs, d, r, e);
    }
    hide Listing, ReadDirectory, Remaining, Edited, DirsOk;
  }

  lemma RemainingClosed(cat: Catalog, root: Extent, off: nat)
    requires SubdirsClosed(cat) && root in cat
    ensures SubdirsClosed(RemainingCatalog(cat, off)) && root in RemainingCatalog(cat, off)
  {
    forall d | d in cat
      ensures forall r :: r in Remaining(cat[d], off) <==> r in cat[d] && !HiddenBy(off, r)
    {
      RemainingMembers(cat[d], off);
    }
  }

  lemma ViewAfterDelete(img: bytes, out: bytes, dirs: set<Extent>, off: nat, k: Key)
    requires WellFormed(img, dirs) && ReadPvd(out) == ReadPvd(img)
    requires Reads(out, RemainingCatalog(CatalogOf(img, dirs), off))
    requires forall d, s: DirRecord | d in CatalogOf(img, dirs) && s in CatalogOf(img, dirs)[d] && !s.IsDot() ::
             NodeAt(out, s) == NodeAt(img, s)
    ensures View(out, k) == if Blocked(CatalogOf(img, dirs), ReadPvd(img).value.root, off, k) then None
            else View(img, k)
  {
    WellFormedParts(img, dirs);
    WellFormedReads(img, dirs);
    var root, cat := ReadPvd(img).value.root, CatalogOf(img, dirs);
    hide WellFormed, CatalogOf, ReadPvd, Reads, Sound, ResolveIn, Lookup, DirsOk, FilesOk, NodeAt, RemainingCatalog,
         HiddenBy;
    if k != [] {
      ViewIsLookup(img, dirs, k);
      RemainingClosed(cat, root, off);
      ResolveIsLookup(out, RemainingCatalog(cat, off), root, k);
      RemainingLookup(cat, root, off, k);
      LookupInCatalog(cat, root, k);
    }
  }

  lemma {:induction false} OnlyHidden(rs: seq<DirRecord>, i: nat)
    requires i < |rs| && forall j | 0 <= j < |rs| && j != i :: !HiddenBy(rs[i].off, rs[j])
    ensures Remaining(rs, rs[i].off) == rs[..i] + rs[i + 1..]
  {
    var off := rs[i].off;
    if i == 0 {
      RemainingNone(rs[1..], off);
    } else {
      assert rs[1..][i - 1] == rs[i];
      OnlyHidden(rs[1..], i - 1);
      assert rs[..i] + rs[i + 1..] == [rs[0]] + (rs[1..][..i - 1] + rs[1..][i..]);
    }
  }

  /** No listed record follows the i-th in its sector. */
  ghost predicate LastInSector(rs: seq<DirRecord>, i: nat)
    requires i < |rs|
  {
    forall j | i < j < |rs| :: NextSector(rs[i].off) <= rs[j].off
  }

  lemma {:induction false} LastOfSectorIff(rs: seq<DirRecord>, i: nat)
    requires i < |rs| && InOffsetOrder(rs)
    ensures Remaining(rs, rs[i].off) == rs[..i] + rs[i + 1..] <==> LastInSector(rs, i)
  {
    if LastInSector(rs, i) {
      OnlyHidden(rs, i);
    } else {
      var j :| i < j < |rs| && rs[j].off < NextSector(rs[i].off);
      RemainingMembers(rs, rs[i].off);
      assert rs[j] in rs && HiddenBy(rs[i].off, rs[j]);
      assert (rs[..i] + rs[i + 1..])[j - 1] == rs[j];
    }
  }

  /** The reread directory lacks exactly the deleted record if and only if no record follows it in its sector. */
  lemma {:induction false} DeleteLosesOneIff(img: bytes, dirs: set<Extent>, key: Key) returns (d: Extent, i: nat)
    requires WellFormed(img, dirs) && key != [] && View(img, key).Some?
    ensures ReadPvd(img).Ok? && ReadDirectory(img, d) == Ok(Listing(img, d)) && i < |Listing(img, d)|
    ensures DirAt(CatalogOf(img, dirs), ReadPvd(img).value.root, key[..|key| - 1]) == Some(d)
    ensures ResolveIn(img, ReadPvd(img).value.root, key) == Ok(Listing(img, d)[i])
    ensures var rs := Listing(img, d);
            ReadDirectory(DeleteFile(img, rs[i]).img, d) == Ok(rs[..i] + rs[i + 1..]) <==> LastInSector(rs, i)
  {
    hide *;
    WellFormedReads(img, dirs);
    WellFormedParts(img, dirs);
    DeleteRefines(img, dirs, key);
    var pvd, cat := ReadPvd(img).value, CatalogOf(img, dirs);
    ViewIsLookup(img, dirs, key);
    LookupInCatalog(cat, pvd.root, key);
    ResolveIsLookup(img, cat, pvd.root, key);
    d := DirAt(cat, pvd.root, key[..|key| - 1]).value;
    CatalogAt(img, dirs, d);
    var r := Lookup(cat, pvd.root, key).value;
    i :| i < |Listing(img, d)| && Listing(img, d)[i] == r;
    DirsFacts(img, pvd.volumeSpaceSize, dirs, d, d);
    DirFacts(img, pvd.volumeSpaceSize, d);
    ReadDirectoryOk(img, pvd.volumeSpaceSize, d);
    ListingIs(img, d);
    RecordsInOrder(BytesOf(img, d), d.Start(), 0);
    LastOfSectorIff(Listing(img, d), i);
    RecordInDir(img, pvd.volumeSpaceSize, dirs, d, r);
    DeleteEffect(img, pvd, r);
    ReadAfterDelete(img, DeleteFile(img, r).img, pvd.volumeSpaceSize, dirs, d, r, d);
  }
}
