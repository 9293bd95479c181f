/** Adding a fresh name to a directory of a well-formed image: one record more, and one path more. */
module Iso9660Add {
  import opened Bytes
  import opened Iso9660Record
  import opened Iso9660Image
  import opened Iso9660Catalog
  import opened Iso9660Layout
  import opened Iso9660Volume
  import opened Iso9660Refinement
  import opened Iso9660Replace

  /** The record that parsing the built bytes gives at a position. */
  function AddedRecord(name: bytes, lba: nat, len: nat, at: nat): DirRecord
    requires lba < U32 && len < U32 && |name| <= 107
  {
    ParseNewRecord(name, lba, len, at);
    ParseDirRecord(NewRecord(name, lba, len), at).rec
  }

  lemma NewRecordWritable(name: bytes, lba: int, len: int)
    requires 0 <= lba < U32 && 0 <= len < U32 && |name| <= 107
    ensures Writable(NewRecord(name, lba, len))
  {
    hide FixedPart, NewRecord, NewRecordLen, IsoId, NmEntry, NmStart, Writable, WriteBoth32;
    NewRecordFields(name, lba, len);
    NewRecordSize(name, lba, len);
    FixedPartFields(name, lba, len);
    PrefixFields(NewRecord(name, lba, len), FixedPart(name, lba, len));
    WritableBy(NewRecord(name, lba, len), |name|);
  }

  lemma WritableBy(record: bytes, n: nat)
    requires n <= 107 && |record| == 2 * n + (if n % 2 == 0 then 42 else 40)
    requires record[0] == |record| % 256 && record[32] == (n + 2) % 256
    ensures Writable(record)
  {
    var size := |record|;
    assert 40 <= size < 256;
    assert size % 256 == size && (n + 2) % 256 == n + 2;
  }

  /** The free slot the code finds in a directory. */
  function Slot(img: bytes, d: Extent, record: bytes): Option<nat> {
    FindSlot(BytesOf(img, d), |record|, 0)
  }

  /** Inserting into a directory commits if and only if there is a slot; otherwise nothing in use has changed. */
  lemma {:induction false} InsertCommits(img: bytes, pvd: Pvd, d: Extent, record: bytes, content: bytes, size: nat)
    requires ReadPvd(img) == Ok(pvd) && 17 <= pvd.volumeSpaceSize && size < U32
    requires DirOk(img, pvd.volumeSpaceSize, d) && record != []
    ensures var mid := WriteAt(img, Padded(content), pvd.End());
            var e := InsertRecord(mid, d, record, size);
            match Slot(img, d, record)
            case None =>
              e == Edit(mid, Some(NoFreeSpace)) && Edited(img, e.img, pvd.volumeSpaceSize, 0, [])
                && ReadPvd(e.img) == Ok(pvd)
            case Some(slot) =>
              && e.error == None && d.len > 0 && slot + |record| <= d.len
              && Committed(img, e.img, pvd, d.Start() + slot, record, content, size)
  {
    hide *;
    var mid := WriteAt(img, Padded(content), pvd.End());
    AppendEffect(img, pvd, content);
    DirFacts(img, pvd.volumeSpaceSize, d);
    BytesUnchanged(img, mid, pvd.volumeSpaceSize, 0, [], d);
    DirBytesRead(img, pvd.volumeSpaceSize, d);
    InsertUnfold(mid, d, record, size, BytesOf(img, d));
    SlotUnfold(img, d, record);
    if Slot(img, d, record).Some? {
      SlotFree(BytesOf(img, d), |record|, 0);
      SlotPlace(img, pvd.volumeSpaceSize, d, record);
      EndOf(pvd);
      CommitsInTwoSteps(img, pvd, content, d.Start() + Slot(img, d, record).value, record, size);
    }
  }

  lemma EndOf(pvd: Pvd)
    ensures pvd.End() == pvd.volumeSpaceSize * SECTOR
  {
  }

  lemma DirBytesRead(img: bytes, sectors: nat, d: Extent)
    requires InData(img, sectors, d)
    ensures ReadAt(img, d.len, d.Start()) == Ok(BytesOf(img, d)) && |BytesOf(img, d)| == d.len
  {
  }

  lemma InsertUnfold(mid: bytes, d: Extent, record: bytes, size: nat, data: bytes)
    requires size < U32 && ReadAt(mid, d.len, d.Start()) == Ok(data)
    ensures InsertRecord(mid, d, record, size)
         == match FindSlot(data, |record|, 0)
            case None => Edit(mid, Some(NoFreeSpace))
            case Some(slot) => Edit(SetVolumeSpaceSize(WriteAt(mid, record, d.Start() + slot), size), None)
  {
  }

  lemma SlotUnfold(img: bytes, d: Extent, record: bytes)
    ensures Slot(img, d, record) == FindSlot(BytesOf(img, d), |record|, 0)
  {
  }

  lemma SlotPlace(img: bytes, sectors: nat, d: Extent, record: bytes)
    requires DirOk(img, sectors, d) && record != [] && Slot(img, d, record).Some?
    ensures var slot := Slot(img, d, record).value;
            && d.len > 0 && slot + |record| <= d.len && BytesOf(img, d) != []
            && d.Start() + slot + |record| <= |img| && d.Start() + slot + |record| <= sectors * SECTOR
            && DATA_START <= d.Start() + slot && d.Start() + slot + |record| <= d.End()
            && |BytesOf(img, d)| == d.len && BytesOf(img, d)[slot] == 0
  {
    hide Framed, ParseDirRecord;
    SlotFree(BytesOf(img, d), |record|, 0) by { DirFacts(img, sectors, d); }
  }

  /** No record of any directory starts at the slot. */
  lemma {:induction false} SlotFresh(img: bytes, sectors: nat, dirs: set<Extent>, d: Extent, record: bytes)
    requires DirsOk(img, sectors, dirs) && d in dirs && record != [] && Slot(img, d, record).Some?
    ensures FreshOffset(CatalogOf(img, dirs), d.Start() + Slot(img, d, record).value)
  {
    var cat, slot := CatalogOf(img, dirs), Slot(img, d, record).value;
    SlotPlace(img, sectors, d, record);
    forall e, r: DirRecord | e in cat && r in cat[e]
      ensures r.off != d.Start() + slot
    {
      hide Framed, Listing, BytesOf, Slot, ParseDirRecord;
      assert DirOk(img, sectors, e) && (e != d ==> Disjoint(d, e));
      RecordInside(img, sectors, e, r);
      if e == d {
        RecordNotZero(img, sectors, d, r);
      }
    }
  }

  lemma RecordNotZero(img: bytes, sectors: nat, d: Extent, r: DirRecord)
    requires DirOk(img, sectors, d) && r in Listing(img, d)
    ensures d.Start() <= r.off < d.Start() + |BytesOf(img, d)| && BytesOf(img, d)[r.off - d.Start()] != 0
  {
    var data := BytesOf(img, d);
    ScanFramed(data, d.Start(), 0);
    assert Placed(data, d.Start(), 0, r);
    assert data[r.off - d.Start()..][0] == data[r.off - d.Start()];
  }

  /** An insertion: the slot, the record parsed there, and the bytes that change. */
  ghost predicate Inserts(img: bytes, out: bytes, sectors: nat, d: Extent, record: bytes, slot: nat, r: DirRecord) {
    && Writable(record) && Slot(img, d, record) == Some(slot)
    && ParseDirRecord(record, d.Start() + slot) == Record(r)
    && Edited(img, out, sectors, d.Start() + slot, record)
  }

  lemma ListingAfterInsert(img: bytes, out: bytes, sectors: nat, d: Extent, record: bytes, slot: nat, r: DirRecord)
    returns (i: nat)
    requires DirOk(img, sectors, d) && Inserts(img, out, sectors, d, record, slot, r)
    ensures Framed(BytesOf(out, d), 0) && i <= |Listing(img, d)| && Listing(out, d) == InsertAt(Listing(img, d), i, r)
  {
    hide *;
    InsertsFacts(img, out, sectors, d, record, slot, r);
    DirFacts(img, sectors, d);
    SlotPlace(img, sectors, d, record);
    i := ScanInsert(BytesOf(img, d), d.Start(), 0, record);
    BytesPatched(img, out, sectors, d.Start() + slot, record, d);
    ListingIs(img, d);
    ListingIs(out, d);
  }

  lemma InsertsFacts(img: bytes, out: bytes, sectors: nat, d: Extent, record: bytes, slot: nat, r: DirRecord)
    requires Inserts(img, out, sectors, d, record, slot, r)
    ensures Writable(record) && record != []
            && Slot(img, d, record) == FindSlot(BytesOf(img, d), |record|, 0) == Some(slot)
    ensures ParseDirRecord(record, d.Start() + slot) == Record(r) && Edited(img, out, sectors, d.Start() + slot, record)
  {
  }

  lemma ListingElsewhere(img: bytes, out: bytes, sectors: nat, d: Extent, record: bytes, slot: nat, r: DirRecord,
                         e: Extent)
    requires DirOk(img, sectors, d) && Inserts(img, out, sectors, d, record, slot, r)
    requires InData(img, sectors, e) && Disjoint(d, e)
    ensures BytesOf(out, e) == BytesOf(img, e) && ReadAt(out, e.len, e.Start()) == ReadAt(img, e.len, e.Start())
  {
    hide Framed, BytesOf, Slot, Edited, Writable, DirOk, ParseDirRecord;
    InsertsFacts(img, out, sectors, d, record, slot, r);
    SlotPlace(img, sectors, d, record);
    BytesUnchanged(img, out, sectors, d.Start() + slot, record, e);
  }

  lemma CatalogAfterInsert(img: bytes, out: bytes, sectors: nat, dirs: set<Extent>, d: Extent, record: bytes,
                           slot: nat, r: DirRecord)
    returns (i: nat)
    requires DirsOk(img, sectors, dirs) && d in dirs && Inserts(img, out, sectors, d, record, slot, r)
    ensures forall e | e in dirs :: Framed(BytesOf(out, e), 0)
    ensures i <= |CatalogOf(img, dirs)[d]|
    ensures CatalogOf(out, dirs) == CatalogOf(img, dirs)[d := InsertAt(CatalogOf(img, dirs)[d], i, r)]
  {
    hide Framed, BytesOf, Inserts, InsertAt, Records, DirOk;
    i := ListingAfterInsert(img, out, sectors, d, record, slot, r);
    forall e | e in dirs && e != d
      ensures Framed(BytesOf(out, e), 0) && Listing(out, e) == Listing(img, e)
    {
      DirFacts(img, sectors, e);
      assert Disjoint(d, e);
      ListingElsewhere(img, out, sectors, d, record, slot, r, e);
    }
    hide Listing;
  }

  lemma {:induction false} ViewNoneIff(img: bytes, dirs: set<Extent>, key: Key)
    requires WellFormed(img, dirs) && key != []
    ensures View(img, key).None? <==> Lookup(CatalogOf(img, dirs), ReadPvd(img).value.root, key).None?
  {
    var root, cat := ReadPvd(img).value.root, CatalogOf(img, dirs);
    ViewIsLookup(img, dirs, key);
    LookupInCatalog(cat, root, key);
    var found := Lookup(cat, root, key);
    if found.Some? {
      hide ReadPvd, Sound, Lookup, Listing, View;
      var d := DirAt(cat, root, key[..|key| - 1]).value;
      ListedNode(img, dirs, d, found.value);
    }
  }

  lemma ListedNode(img: bytes, dirs: set<Extent>, d: Extent, r: DirRecord)
    requires WellFormed(img, dirs) && d in dirs && r in Listing(img, d) && !r.IsDot()
    ensures NodeAt(img, r).Some?
  {
    hide Listing, Sound, ReadPvd;
    if !r.isDir {
      FileReads(img, ReadPvd(img).value.volumeSpaceSize, dirs, r);
    }
  }

  lemma FilesAfterAdd(img: bytes, out: bytes, pvd: Pvd, dirs: set<Extent>, d: Extent, i: nat, r: DirRecord,
                      content: bytes, size: nat)
    requires DirsOk(img, pvd.volumeSpaceSize, dirs) && FilesOk(img, pvd.volumeSpaceSize, dirs)
             && 17 <= pvd.volumeSpaceSize
    requires size >= pvd.volumeSpaceSize + SectorsFor(|content|) && |img| <= |out|
    requires content != [] ==> pvd.End() + |content| <= |out|
    requires d in dirs && i <= |CatalogOf(img, dirs)[d]| && r.Data() == Extent(pvd.volumeSpaceSize, |content|)
    requires CatalogOf(out, dirs) == CatalogOf(img, dirs)[d := InsertAt(CatalogOf(img, dirs)[d], i, r)]
    ensures FilesOk(out, size, dirs)
  {
    forall e, t | e in dirs && t in Listing(out, e) && !t.isDir && !t.IsDot()
      ensures FileOk(out, size, dirs, t.Data())
    {
      hide FileOk, DirsOk, Listing, InsertAt;
      InsertMembers(CatalogOf(img, dirs)[d], i, r);
      assert Listing(out, e) == CatalogOf(out, dirs)[e];
      if e == d && t == r {
        NewFileOk(img, out, pvd, dirs, content, size);
      } else {
        assert t in Listing(img, e);
        FileStaysOk(img, out, pvd.volumeSpaceSize, size, dirs, t.Data());
      }
    }
  }

  /** An insertion of name with its content into directory d at the slot, as a committed edit. */
  ghost predicate Adds(img: bytes, out: bytes, dirs: set<Extent>, d: Extent, name: bytes, content: bytes, slot: nat) {
    && WellFormed(img, dirs) && d in dirs && |name| <= 107
    && var pvd := ReadPvd(img).value;
    && Fits(pvd, content)
    && var record := NewRecord(name, pvd.volumeSpaceSize, |content|);
    && Slot(img, d, record) == Some(slot)
    && Committed(img, out, pvd, d.Start() + slot, record, content, SizeAfter(pvd, content))
  }

  /** The record that an insertion lists. */
  function RecordOf(img: bytes, d: Extent, name: bytes, content: bytes, slot: nat): DirRecord
    requires ReadPvd(img).Ok? && |content| < U32 && |name| <= 107
  {
    AddedRecord(name, ReadPvd(img).value.volumeSpaceSize, |content|, d.Start() + slot)
  }

  lemma RecordOfFields(img: bytes, d: Extent, name: bytes, content: bytes, slot: nat)
    requires ReadPvd(img).Ok? && |content| < U32 && |name| <= 107
    ensures var r, pvd := RecordOf(img, d, name, content, slot), ReadPvd(img).value;
            && r.Name() == name && !r.isDir && !r.IsDot() && r.off == d.Start() + slot
            && r.Data() == Extent(pvd.volumeSpaceSize, |content|) && r.id == IsoId(name)
            && ParseDirRecord(NewRecord(name, pvd.volumeSpaceSize, |content|), d.Start() + slot) == Record(r)
  {
    hide ReadPvd, NewRecord, ParseDirRecord, DirRecord.Name, DirRecord.IsDot;
    ParseNewRecord(name, ReadPvd(img).value.volumeSpaceSize, |content|, d.Start() + slot);
  }

  lemma AddsFacts(img: bytes, out: bytes, dirs: set<Extent>, d: Extent, name: bytes, content: bytes, slot: nat)
    requires Adds(img, out, dirs, d, name, content, slot)
    ensures WellFormed(img, dirs) && d in dirs && |name| <= 107 && ReadPvd(img).Ok?
    ensures var pvd := ReadPvd(img).value;
            var record := NewRecord(name, pvd.volumeSpaceSize, |content|);
            && 17 <= pvd.volumeSpaceSize && Fits(pvd, content) && |content| < U32
            && SizeAfter(pvd, content) == pvd.volumeSpaceSize + SectorsFor(|content|)
            && Slot(img, d, record) == Some(slot) && DirOk(img, pvd.volumeSpaceSize, d)
            && DirsOk(img, pvd.volumeSpaceSize, dirs) && FilesOk(img, pvd.volumeSpaceSize, dirs)
            && Sound(CatalogOf(img, dirs), pvd.root)
            && Committed(img, out, pvd, d.Start() + slot, record, content, SizeAfter(pvd, content))
            && Edited(img, out, pvd.volumeSpaceSize, d.Start() + slot, record) && |img| <= |out|
            && ReadPvd(out) == Ok(pvd.(volumeSpaceSize := SizeAfter(pvd, content)))
            && (content != [] ==> pvd.End() + |content| <= |out| && out[pvd.End()..pvd.End() + |content|] == content)
  {
    hide CatalogOf, FilesOk, Slot, NewRecord, ReadPvd, Sound, DirOk;
  }

  lemma AddsInserts(img: bytes, out: bytes, dirs: set<Extent>, d: Extent, name: bytes, content: bytes, slot: nat)
    requires Adds(img, out, dirs, d, name, content, slot) && ReadPvd(img).Ok? && |content| < U32
    ensures var pvd := ReadPvd(img).value;
            Inserts(img, out, pvd.volumeSpaceSize, d, NewRecord(name, pvd.volumeSpaceSize, |content|), slot,
                    RecordOf(img, d, name, content, slot))
  {
    AddsFacts(img, out, dirs, d, name, content, slot);
    RecordOfFields(img, d, name, content, slot);
    NewRecordWritable(name, ReadPvd(img).value.volumeSpaceSize, |content|);
    hide Adds, Slot, ParseDirRecord, NewRecord, ReadPvd, WellFormed, Edited, Committed, Writable, RecordOf, Sound,
         FilesOk, DirsOk, DirOk;
  }

  lemma AddCanInsert(img: bytes, out: bytes, dirs: set<Extent>, d: Extent, name: bytes, content: bytes, slot: nat,
                     i: nat)
    requires Adds(img, out, dirs, d, name, content, slot) && ReadPvd(img).Ok? && |content| < U32
    requires d in CatalogOf(img, dirs) && i <= |CatalogOf(img, dirs)[d]|
             && FirstMatch(CatalogOf(img, dirs)[d], name) == None
    ensures CanInsert(CatalogOf(img, dirs), d, i, RecordOf(img, d, name, content, slot))
  {
    AddsFacts(img, out, dirs, d, name, content, slot);
    RecordOfFields(img, d, name, content, slot);
    var pvd := ReadPvd(img).value;
    NewRecordWritable(name, pvd.volumeSpaceSize, |content|);
    SlotFresh(img, pvd.volumeSpaceSize, dirs, d, NewRecord(name, pvd.volumeSpaceSize, |content|));
    hide Adds, Slot, ParseDirRecord, NewRecord, ReadPvd, WellFormed, Edited, Committed, Writable, RecordOf, Sound,
         FilesOk, DirsOk, DirOk,
      FreshOffset, FirstMatch, DirRecord.Name, DirRecord.IsDot, CatalogOf;
  }

  /** An insertion of a fresh name keeps the image well-formed and inserts exactly its record. */
  lemma AddKeeps(img: bytes, out: bytes, dirs: set<Extent>, d: Extent, name: bytes, content: bytes, slot: nat)
    returns (i: nat)
    requires Adds(img, out, dirs, d, name, content, slot) && ReadPvd(img).Ok? && |content| < U32
    requires d in CatalogOf(img, dirs) && FirstMatch(CatalogOf(img, dirs)[d], name) == None
    ensures CanInsert(CatalogOf(img, dirs), d, i, RecordOf(img, d, name, content, slot))
    ensures CatalogOf(out, dirs)
         == CatalogOf(img, dirs)[d := InsertAt(CatalogOf(img, dirs)[d], i, RecordOf(img, d, name, content, slot))]
    ensures WellFormed(out, dirs)
  {
    hide *;
    AddsFacts(img, out, dirs, d, name, content, slot);
    AddsInserts(img, out, dirs, d, name, content, slot);
    RecordOfFields(img, d, name, content, slot);
    var pvd := ReadPvd(img).value;
    var r, size := RecordOf(img, d, name, content, slot), SizeAfter(pvd, content);
    i := CatalogAfterInsert(img, out, pvd.volumeSpaceSize, dirs, d, NewRecord(name, pvd.volumeSpaceSize, |content|),
      slot, r);
    AddCanInsert(img, out, dirs, d, name, content, slot, i);
    InsertSound(CatalogOf(img, dirs), pvd.root, d, i, r);
    DirsAfterEdit(img, out, pvd.volumeSpaceSize, size, dirs);
    FilesAfterAdd(img, out, pvd, dirs, d, i, r, content, size);
    WellFormedBy(out, dirs, pvd.(volumeSpaceSize := size));
  }

  /** What a listed record of the old image reads after the insertion: the same. */
  lemma NodeAfterAdd(img: bytes, out: bytes, dirs: set<Extent>, d: Extent, name: bytes, content: bytes, slot: nat,
                     e: Extent, s: DirRecord)
    requires Adds(img, out, dirs, d, name, content, slot) && e in dirs && s in Listing(img, e) && !s.IsDot()
    ensures NodeAt(out, s) == NodeAt(img, s)
  {
    hide *;
    AddsFacts(img, out, dirs, d, name, content, slot);
    if !s.isDir {
      AddsInserts(img, out, dirs, d, name, content, slot);
      var pvd := ReadPvd(img).value;
      ListedFileOk(img, pvd.volumeSpaceSize, dirs, d, e, s);
      ListingElsewhere(img, out, pvd.volumeSpaceSize, d, NewRecord(name, pvd.volumeSpaceSize, |content|), slot,
                       RecordOf(img, d, name, content, slot), s.Data());
      DataOf(s);
    }
    SameBytesSameNode(img, out, s);
  }

  lemma DataOf(s: DirRecord)
    ensures s.Data() == Extent(s.lba, s.dataLen)
  {
  }

  lemma ListedFileOk(img: bytes, sectors: nat, dirs: set<Extent>, d: Extent, e: Extent, s: DirRecord)
    requires FilesOk(img, sectors, dirs) && d in dirs && e in dirs && s in Listing(img, e) && !s.isDir && !s.IsDot()
    ensures InData(img, sectors, s.Data()) && Disjoint(d, s.Data())
  {
    assert FileOk(img, sectors, dirs, s.Data());
  }

  /** A path names the added file exactly when it is the parent's path followed by the name, up to case. */
  lemma AddedKey(cat: Catalog, root: Extent, d: Extent, parent: Key, name: bytes, k: Key)
    requires Sound(cat, root) && DirAt(cat, root, parent) == Some(d) && k != []
    ensures SameKey(k, parent + [name]) <==> DirAt(cat, root, k[..|k| - 1]) == Some(d) && EqualFold(name, k[|k| - 1])
  {
    hide Sound, DirAt;
    var full := parent + [name];
    assert full[..|full| - 1] == parent && full[|full| - 1] == name;
    if SameKey(k, full) {
      InitSameKey(k, full);
      SameKeySameDir(cat, root, k[..|k| - 1], parent);
    } else if DirAt(cat, root, k[..|k| - 1]) == Some(d) && EqualFold(name, k[|k| - 1]) {
      DirDeterminesKey(cat, root, k[..|k| - 1], parent);
      SnocSameKey(k, full);
    }
  }

  lemma InitSameKey(a: Key, b: Key)
    requires a != [] && SameKey(a, b)
    ensures SameKey(a[..|a| - 1], b[..|b| - 1]) && EqualFold(a[|a| - 1], b[|b| - 1])
  {
  }

  /** The main result for one path: the new path reads the content, every other path is as before. */
  lemma {:induction false} AddView(img: bytes, out: bytes, dirs: set<Extent>, d: Extent, name: bytes,
                                   content: bytes, slot: nat, parent: Key, k: Key)
    requires Adds(img, out, dirs, d, name, content, slot) && ReadPvd(img).Ok? && |content| < U32
    requires DirAt(CatalogOf(img, dirs), ReadPvd(img).value.root, parent) == Some(d)
    requires d in CatalogOf(img, dirs) && FirstMatch(CatalogOf(img, dirs)[d], name) == None
    ensures View(out, k) == if SameKey(k, parent + [name]) then Some(File(content)) else View(img, k)
  {
    hide *;
    AddsFacts(img, out, dirs, d, name, content, slot);
    if k == [] {
      EmptyKeyView(img);
      EmptyKeyView(out);
      SameKeyLength(k, parent + [name]);
    } else {
      AddViewAt(img, out, dirs, d, name, content, slot, parent, k);
    }
  }

  lemma SameKeyLength(a: Key, b: Key)
    ensures SameKey(a, b) ==> |a| == |b|
  {
  }

  lemma AddViewAt(img: bytes, out: bytes, dirs: set<Extent>, d: Extent, name: bytes, content: bytes, slot: nat,
                  parent: Key, k: Key)
    requires Adds(img, out, dirs, d, name, content, slot) && ReadPvd(img).Ok? && |content| < U32 && k != []
    requires DirAt(CatalogOf(img, dirs), ReadPvd(img).value.root, parent) == Some(d)
    requires d in CatalogOf(img, dirs) && FirstMatch(CatalogOf(img, dirs)[d], name) == None
    ensures View(out, k) == if SameKey(k, parent + [name]) then Some(File(content)) else View(img, k)
  {
    hide *;
    AddsFacts(img, out, dirs, d, name, content, slot);
    var i := AddKeeps(img, out, dirs, d, name, content, slot);
    var pvd, cat, r := ReadPvd(img).value, CatalogOf(img, dirs), RecordOf(img, d, name, content, slot);
    RecordOfFields(img, d, name, content, slot);
    InsertLookup(cat, pvd.root, d, i, r, k);
    AddedKey(cat, pvd.root, d, parent, name, k);
    ViewIsLookup(img, dirs, k);
    ViewIsLookup(out, dirs, k);
    if SameKey(k, parent + [name]) {
      DataOf(r);
      NewContentReads(out, pvd, content, r) by { EndOf(pvd); }
    } else if Lookup(cat, pvd.root, k).Some? {
      LookupInCatalog(cat, pvd.root, k);
      var e := DirAt(cat, pvd.root, k[..|k| - 1]).value;
      CatalogAt(img, dirs, e);
      NodeAfterAdd(img, out, dirs, d, name, content, slot, e, Lookup(cat, pvd.root, k).value);
    }
  }

  // The code's own steps.

  /** The directory that a parent path in view resolves to. */
  lemma ParentResolves(img: bytes, dirs: set<Extent>, path: bytes) returns (d: Extent)
    requires WellFormed(img, dirs) && View(img, PathKey(path)) == Some(Directory)
    ensures ReadPvd(img).Ok? && d in dirs
    ensures ResolvePath(img, ReadPvd(img).value.root, path).Ok?
    ensures var parent := ResolvePath(img, ReadPvd(img).value.root, path).value; parent.isDir && parent.Data() == d
    ensures DirAt(CatalogOf(img, dirs), ReadPvd(img).value.root, PathKey(path)) == Some(d)
  {
    var pvd, cat, key := ReadPvd(img).value, CatalogOf(img, dirs), PathKey(path);
    if key == [] {
      d := pvd.root;
    } else {
      hide ReadPvd, Sound, Listing, ResolveIn, Lookup;
      WellFormedReads(img, dirs);
      ResolveIsLookup(img, cat, pvd.root, key);
      LookupInCatalog(cat, pvd.root, key);
      d := Lookup(cat, pvd.root, key).value.Data();
      SubdirInDirs(cat, pvd.root, key);
    }
  }

  lemma SubdirInDirs(cat: Catalog, root: Extent, key: Key)
    requires Sound(cat, root) && key != [] && Lookup(cat, root, key).Some? && Lookup(cat, root, key).value.isDir
    ensures Lookup(cat, root, key).value.Data() in cat
  {
    LookupInCatalog(cat, root, key);
  }

  /** No match in the parent's listing when the path to add names nothing. */
  lemma FreshInListing(img: bytes, dirs: set<Extent>, d: Extent, parent: Key, name: bytes)
    requires WellFormed(img, dirs) && DirAt(CatalogOf(img, dirs), ReadPvd(img).value.root, parent) == Some(d)
    requires d in dirs && View(img, parent + [name]).None?
    ensures FirstMatch(CatalogOf(img, dirs)[d], name) == None
  {
    hide ReadPvd, Sound, Listing, View, WellFormed, DirAt, FirstMatch;
    var full := parent + [name];
    assert full[..|full| - 1] == parent && full[|full| - 1] == name;
    ViewNoneIff(img, dirs, full);
  }

  lemma AddUnfold(img: bytes, pvd: Pvd, path: bytes, name: bytes, content: bytes, d: Extent)
    requires ReadPvd(img) == Ok(pvd) && |content| < U32
    requires ResolvePath(img, pvd.root, path).Ok?
    requires var parent := ResolvePath(img, pvd.root, path).value; parent.isDir && parent.Data() == d
    ensures AddFile(img, pvd.root, path, name, content)
         == InsertRecord(WriteAt(img, Padded(content), pvd.End()), d, NewRecord(name, pvd.volumeSpaceSize, |content|),
                         SizeAfter(pvd, content))
  {
    hide ResolvePath, InsertRecord, NewRecord, WriteAt, Padded, ReadPvd;
    assert |content| % U32 == |content|;
  }

  /** An edit that changed nothing in use: still well-formed, same listings, same view. */
  ghost predicate Harmless(img: bytes, out: bytes, dirs: set<Extent>) {
    WellFormed(out, dirs) && CatalogOf(out, dirs) == CatalogOf(img, dirs) && forall k :: View(out, k) == View(img, k)
  }

  lemma UnusedIsHarmless(img: bytes, out: bytes, dirs: set<Extent>, size: nat)
    requires WellFormed(img, dirs) && size >= ReadPvd(img).value.volumeSpaceSize
    requires ReadPvd(out) == Ok(ReadPvd(img).value.(volumeSpaceSize := size))
    requires Edited(img, out, ReadPvd(img).value.volumeSpaceSize, 0, [])
    ensures Harmless(img, out, dirs)
  {
    var pvd := ReadPvd(img).value;
    UnusedListings(img, out, pvd.volumeSpaceSize, dirs);
    EditedGrows(img, out, pvd.volumeSpaceSize, 0, []);
    DirsAfterEdit(img, out, pvd.volumeSpaceSize, size, dirs);
    UnusedFiles(img, out, pvd.volumeSpaceSize, size, dirs);
    WellFormedBy(out, dirs, pvd.(volumeSpaceSize := size));
    hide WellFormed, ReadPvd, View, CatalogOf, Edited;
    forall k
      ensures View(out, k) == View(img, k)
    {
      UnusedView(img, out, dirs, k);
    }
  }

  lemma UnusedListings(img: bytes, out: bytes, sectors: nat, dirs: set<Extent>)
    requires DirsOk(img, sectors, dirs) && Edited(img, out, sectors, 0, [])
    ensures CatalogOf(out, dirs) == CatalogOf(img, dirs) && forall e | e in dirs :: Framed(BytesOf(out, e), 0)
  {
    forall e | e in dirs
      ensures Framed(BytesOf(out, e), 0) && Listing(out, e) == Listing(img, e)
    {
      assert DirOk(img, sectors, e);
      hide Edited, Framed, Records, BytesOf;
      BytesUnchanged(img, out, sectors, 0, [], e);
    }
    hide Listing, Framed, Edited;
  }

  lemma UnusedFiles(img: bytes, out: bytes, before: nat, after: nat, dirs: set<Extent>)
    requires FilesOk(img, before, dirs) && |img| <= |out| && before <= after
             && CatalogOf(out, dirs) == CatalogOf(img, dirs)
    ensures FilesOk(out, after, dirs)
  {
    forall e, t | e in dirs && t in Listing(out, e) && !t.isDir && !t.IsDot()
      ensures FileOk(out, after, dirs, t.Data())
    {
      hide FileOk, Listing;
      assert Listing(out, e) == CatalogOf(out, dirs)[e] == Listing(img, e);
      FileStaysOk(img, out, before, after, dirs, t.Data());
    }
  }

  lemma UnusedView(img: bytes, out: bytes, dirs: set<Extent>, k: Key)
    requires WellFormed(img, dirs) && WellFormed(out, dirs) && ReadPvd(out).value.root == ReadPvd(img).value.root
    requires CatalogOf(out, dirs) == CatalogOf(img, dirs) && Edited(img, out, ReadPvd(img).value.volumeSpaceSize, 0, [])
    ensures View(out, k) == View(img, k)
  {
    var pvd, cat := ReadPvd(img).value, CatalogOf(img, dirs);
    assert Sound(cat, pvd.root) && FilesOk(img, pvd.volumeSpaceSize, dirs);
    hide *;
    if k == [] {
      WellFormedSize(img, dirs);
      WellFormedSize(out, dirs);
      EmptyKeyView(img);
      EmptyKeyView(out);
    } else {
      ViewIsLookup(img, dirs, k);
      ViewIsLookup(out, dirs, k);
      LookupInCatalog(cat, pvd.root, k);
      if Lookup(cat, pvd.root, k).Some? {
        var e, s := DirAt(cat, pvd.root, k[..|k| - 1]).value, Lookup(cat, pvd.root, k).value;
        CatalogAt(img, dirs, e);
        if !s.isDir {
          ListedFileOk(img, pvd.volumeSpaceSize, dirs, e, e, s);
          BytesUnchanged(img, out, pvd.volumeSpaceSize, 0, [], s.Data());
          DataOf(s);
        }
        SameBytesSameNode(img, out, s);
      }
    }
  }

  /** An add of any name to a directory in view commits its record if and only if there is a slot for it. */
  lemma {:induction false} AddCommits(img: bytes, dirs: set<Extent>, path: bytes, name: bytes, content: bytes)
    returns (d: Extent)
    requires WellFormed(img, dirs) && View(img, PathKey(path)) == Some(Directory) && Fits(ReadPvd(img).value, content)
    ensures ReadPvd(img).Ok? && |content| < U32 && d in dirs && d in CatalogOf(img, dirs)
    ensures DirAt(CatalogOf(img, dirs), ReadPvd(img).value.root, PathKey(path)) == Some(d)
    ensures ResolvePath(img, ReadPvd(img).value.root, path).Ok?
    ensures var parent := ResolvePath(img, ReadPvd(img).value.root, path).value; parent.isDir && parent.Data() == d
    ensures var pvd := ReadPvd(img).value;
            var record, e := NewRecord(name, pvd.volumeSpaceSize, |content|),
                AddFile(img, pvd.root, path, name, content);
            && record != []
            && match Slot(img, d, record)
               case None => e.error == Some(NoFreeSpace) && Harmless(img, e.img, dirs) && ReadPvd(e.img) == Ok(pvd)
               case Some(slot) =>
                 && e.error == None && SizeAfter(pvd, content) == pvd.volumeSpaceSize + SectorsFor(|content|)
                 && Committed(img, e.img, pvd, d.Start() + slot, record, content, SizeAfter(pvd, content))
  {
    hide *;
    WellFormedSize(img, dirs);
    var pvd := ReadPvd(img).value;
    d := ParentResolves(img, dirs, path);
    CatalogAt(img, dirs, d);
    FitsSize(pvd, content);
    AddUnfold(img, pvd, path, name, content, d);
    NewRecordSize(name, pvd.volumeSpaceSize, |content|);
    WellFormedDir(img, dirs, d);
    SizeExact(pvd, content);
    InsertCommits(img, pvd, d, NewRecord(name, pvd.volumeSpaceSize, |content|), content, SizeAfter(pvd, content));
    if Slot(img, d, NewRecord(name, pvd.volumeSpaceSize, |content|)).None? {
      UnusedIsHarmless(img, AddFile(img, pvd.root, path, name, content).img, dirs, pvd.volumeSpaceSize);
    }
  }

  /**
   * Adding a fresh name to a directory in view fails only for lack of a slot, whatever the name, and then harmlessly.
   * With a slot, a name of at most 107 bytes inserts one record, and one path.
   */
  lemma {:induction false} AddRefines(img: bytes, dirs: set<Extent>, path: bytes, name: bytes, content: bytes)
    returns (d: Extent, i: nat)
    requires WellFormed(img, dirs) && View(img, PathKey(path)) == Some(Directory)
    requires View(img, PathKey(path) + [name]) == None && Fits(ReadPvd(img).value, content)
    ensures ReadPvd(img).Ok? && |content| < U32
    ensures DirAt(CatalogOf(img, dirs), ReadPvd(img).value.root, PathKey(path)) == Some(d) && d in CatalogOf(img, dirs)
    ensures var pvd := ReadPvd(img).value;
            var e := AddFile(img, pvd.root, path, name, content);
            match Slot(img, d, NewRecord(name, pvd.volumeSpaceSize, |content|))
            case None => e.error == Some(NoFreeSpace) && Harmless(img, e.img, dirs) && ReadPvd(e.img) == Ok(pvd)
            case Some(slot) =>
              && e.error == None
              && ReadPvd(e.img) == Ok(pvd.(volumeSpaceSize := pvd.volumeSpaceSize + SectorsFor(|content|)))
              && (|name| <= 107 ==>
                    && WellFormed(e.img, dirs) && i <= |CatalogOf(img, dirs)[d]|
                    && CatalogOf(e.img, dirs)
                       == CatalogOf(img, dirs)[d := InsertAt(CatalogOf(img, dirs)[d], i,
                                                             RecordOf(img, d, name, content, slot))]
                    && forall k :: View(e.img, k)
                                == if SameKey(k, PathKey(path) + [name]) then Some(File(content)) else View(img, k))
  {
    hide *;
    i := 0;
    d := AddCommits(img, dirs, path, name, content);
    var pvd := ReadPvd(img).value;
    var record := NewRecord(name, pvd.volumeSpaceSize, |content|);
    var out := AddFile(img, pvd.root, path, name, content).img;
    if Slot(img, d, record).Some? {
      var slot := Slot(img, d, record).value;
      CommittedPvd(img, out, pvd, d.Start() + slot, record, content, SizeAfter(pvd, content));
      if |name| <= 107 {
        FreshInListing(img, dirs, d, PathKey(path), name);
        AddsBy(img, out, dirs, d, name, content, slot);
        i := AddKeeps(img, out, dirs, d, name, content, slot);
        CanInsertBound(CatalogOf(img, dirs), d, i, RecordOf(img, d, name, content, slot));
        forall k
          ensures View(out, k) == if SameKey(k, PathKey(path) + [name]) then Some(File(content)) else View(img, k)
        {
          AddView(img, out, dirs, d, name, content, slot, PathKey(path), k);
        }
      }
    }
  }

  lemma FitsSize(pvd: Pvd, content: bytes)
    requires Fits(pvd, content)
    ensures |content| < U32
  {
  }

  lemma WellFormedDir(img: bytes, dirs: set<Extent>, d: Extent)
    requires WellFormed(img, dirs) && d in dirs
    ensures DirOk(img, ReadPvd(img).value.volumeSpaceSize, d)
  {
  }

  lemma AddsBy(img: bytes, out: bytes, dirs: set<Extent>, d: Extent, name: bytes, content: bytes, slot: nat)
    requires WellFormed(img, dirs) && d in dirs && |name| <= 107 && Fits(ReadPvd(img).value, content) && |content| < U32
    requires var pvd := ReadPvd(img).value;
             var record := NewRecord(name, pvd.volumeSpaceSize, |content|);
             && Slot(img, d, record) == Some(slot)
             && Committed(img, out, pvd, d.Start() + slot, record, content, SizeAfter(pvd, content))
    ensures Adds(img, out, dirs, d, name, content, slot)
  {
  }

  lemma CanInsertBound(cat: Catalog, d: Extent, i: nat, r: DirRecord)
    requires CanInsert(cat, d, i, r)
    ensures d in cat && i <= |cat[d]|
  {
  }
}
