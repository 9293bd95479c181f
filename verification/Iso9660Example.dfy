/**
 * Volumes with an empty root directory and with one subdirectory: well-formed images exist, and what edits do
 * to them.
 */
module Iso9660Example {
  import opened Bytes
  import opened Iso9660Record
  import opened Iso9660Image
  import opened Iso9660Catalog
  import opened Iso9660Layout
  import opened Iso9660Volume
  import opened Iso9660Replace
  import opened Iso9660Add
  import opened Iso9660ReplaceDir
  import opened Iso9660AddLong

  const ROOT := Extent(17, 2048)

  /** A descriptor for a number of sectors with the root directory in sector 17. */
  function Descriptor(sectors: int): bytes
    requires 0 <= sectors < U32
  {
    SIGNATURE + Zeros(74) + WriteBoth32(sectors) + Zeros(70) + WriteBoth32(17) + WriteBoth32(2048) + Zeros(SECTOR - 174)
  }

  function EmptyVolume(): bytes {
    Zeros(PVD_OFFSET) + Descriptor(18) + Zeros(SECTOR)
  }

  lemma DescriptorFields(sectors: int)
    requires 0 <= sectors < U32
    ensures var b := Descriptor(sectors);
            && |b| == SECTOR && b[..6] == SIGNATURE && b[80..88] == WriteBoth32(sectors)
            && b[158..166] == WriteBoth32(17) && b[166..174] == WriteBoth32(2048)
  {
    hide WriteBoth32;
  }

  lemma PvdOf(img: bytes, sectors: int, data: bytes)
    requires 0 <= sectors < U32 && img == Zeros(PVD_OFFSET) + Descriptor(sectors) + data
    ensures ReadPvd(img) == Ok(Pvd(sectors, ROOT))
  {
    hide Descriptor, WriteBoth32, ReadBoth32, Zeros;
    var b := Descriptor(sectors);
    DescriptorFields(sectors);
    assert img[PVD_OFFSET..PVD_OFFSET + SECTOR] == b;
    FieldRead(b, 80, sectors);
    FieldRead(b, 158, 17);
    FieldRead(b, 166, 2048);
  }

  lemma EmptyPvd()
    ensures ReadPvd(EmptyVolume()) == Ok(Pvd(18, ROOT))
  {
    hide Descriptor, ReadPvd, Zeros;
    PvdOf(EmptyVolume(), 18, Zeros(SECTOR));
  }

  lemma ZerosFramed()
    ensures Framed(Zeros(SECTOR), 0) && forall base :: Records(Zeros(SECTOR), base, 0) == []
  {
    hide ParseDirRecord, Scan;
    assert ZerosToSectorEnd(Zeros(SECTOR), 0);
    forall base
      ensures Records(Zeros(SECTOR), base, 0) == []
    {
      RecordsStep(Zeros(SECTOR), base, 0);
      RecordsStep(Zeros(SECTOR), base, SECTOR);
    }
  }

  lemma EmptyRoot()
    ensures BytesOf(EmptyVolume(), ROOT) == Zeros(SECTOR) && |EmptyVolume()| == 18 * SECTOR
  {
    hide Descriptor, Zeros;
    DescriptorFields(18);
    assert EmptyVolume()[17 * SECTOR..18 * SECTOR] == Zeros(SECTOR);
  }

  lemma {:induction false} EmptyVolumeWellFormed()
    ensures WellFormed(EmptyVolume(), {ROOT}) && CatalogOf(EmptyVolume(), {ROOT}) == map[ROOT := []]
  {
    hide EmptyVolume, ReadPvd, Framed, Records;
    EmptyPvd();
    EmptyRoot();
    ZerosFramed();
  }

  /** Into the empty volume a file of any name of at most 107 bytes and any content that fits can be added. */
  lemma {:induction false} FirstFile(name: bytes, content: bytes)
    requires |name| <= 107 && Fits(Pvd(18, ROOT), content)
    ensures |content| < U32
    ensures var e := AddFile(EmptyVolume(), ROOT, [], name, content);
            e.error == None && WellFormed(e.img, {ROOT}) && View(e.img, [name]) == Some(File(content))
  {
    hide *;
    EmptyPvd();
    EmptyVolumeWellFormed();
    NothingThere(name);
    FitsSize(Pvd(18, ROOT), content);
    var d, i := AddRefines(EmptyVolume(), {ROOT}, [], name, content);
    RootSlot(name, content);
    CatalogAt(EmptyVolume(), {ROOT}, d);
    SameKeySelf([name]);
  }

  lemma NothingThere(name: bytes)
    ensures View(EmptyVolume(), PathKey([])) == Some(Directory) && PathKey([]) + [name] == [name]
    ensures View(EmptyVolume(), [name]) == None
  {
    EmptyPvd();
    EmptyVolumeWellFormed();
    hide EmptyVolume, ReadPvd, ResolveIn, WellFormed, CatalogOf;
    ViewIsLookup(EmptyVolume(), {ROOT}, [name]);
  }

  lemma RootSlot(name: bytes, content: bytes)
    requires |name| <= 1003 && |content| < U32
    ensures Slot(EmptyVolume(), ROOT, NewRecord(name, 18, |content|)) == Some(0)
  {
    hide EmptyVolume, NewRecord, BytesOf;
    EmptyRoot();
    NewRecordSize(name, 18, |content|);
  }

  /**
   * Into the empty volume a name of 108 to 1003 bytes is added without an error, and the root then does not list it.
   * Depending on the length it lists nothing new, or cannot be listed any more.
   */
  lemma {:induction false} LongFile(name: bytes, content: bytes)
    requires 108 <= |name| <= 1003 && Fits(Pvd(18, ROOT), content)
    ensures var e := AddFile(EmptyVolume(), ROOT, [], name, content);
            && e.error == None && !ListsOneMore(e.img, ROOT, [], name)
            && (Unseen(|name|) ==> ReadDirectory(e.img, ROOT) == Ok([]) && View(e.img, [name]) == None)
            && (OutOfBounds(|name|) ==> ReadDirectory(e.img, ROOT) == Err(Crash) && View(e.img, [name]) == None)
  {
    hide *;
    EmptyPvd();
    EmptyVolumeWellFormed();
    NothingThere(name);
    FitsSize(Pvd(18, ROOT), content);
    var d := AddCommits(EmptyVolume(), {ROOT}, [], name, content);
    CatalogAt(EmptyVolume(), {ROOT}, d);
    RootSlot(name, content);
    var f := AddListsIff(EmptyVolume(), {ROOT}, [], name, content);
    var g := AddAnyName(EmptyVolume(), {ROOT}, [], name, content);
    RootBelow(name);
  }

  lemma RootBelow(name: bytes)
    ensures PathKey([]) == [] && Below([name], [])
  {
  }

  // A volume with a subdirectory "D" in sector 18.

  const SUB := Extent(18, 2048)
  const SUB_NAME: bytes := [68]

  function SubRecordBytes(): bytes {
    [34, 0] + WriteBoth32(18) + WriteBoth32(2048) + Zeros(7) + [2] + Zeros(2) + [1, 0, 0, 1] + [1] + SUB_NAME
  }

  function SubRecord(): DirRecord {
    DirRecord(34, 18, 2048, 2, 1, SUB_NAME, [], 17 * 2048, true)
  }

  function RootSector(): bytes {
    SubRecordBytes() + Zeros(SECTOR - 34)
  }

  function SubVolume(): bytes {
    Zeros(PVD_OFFSET) + Descriptor(19) + (RootSector() + Zeros(SECTOR))
  }

  lemma SubRecordFields()
    ensures var b := RootSector();
            && |b| == SECTOR && b[0] == 34 && b[25] == 2 && b[32] == 1 && b[33..34] == SUB_NAME
            && b[2..10] == WriteBoth32(18) && b[10..18] == WriteBoth32(2048) && forall i | 34 <= i < SECTOR :: b[i] == 0
  {
    hide WriteBoth32;
  }

  lemma SubRecordParses()
    ensures ParseDirRecord(RootSector(), 17 * 2048) == Record(SubRecord())
  {
    hide RootSector, ReadBoth32, WriteBoth32, RockRidgeName;
    SubRecordFields();
    FieldRead(RootSector(), 2, 18);
    FieldRead(RootSector(), 10, 2048);
  }

  lemma RootSectorFramed()
    ensures Framed(RootSector(), 0) && Records(RootSector(), 17 * 2048, 0) == [SubRecord()]
  {
    hide RootSector, ParseDirRecord, Scan, Records;
    var data, base := RootSector(), 17 * 2048;
    SubRecordFields();
    SubRecordParses();
    assert ZerosToSectorEnd(data, 34) && Framed(data, SECTOR) && Framed(data, 34) && data[0..] == data;
    RecordsStep(data, base, 0);
    RecordsStep(data, base, 34);
    RecordsStep(data, base, SECTOR);
  }

  lemma SubVolumeSectors()
    ensures |SubVolume()| == 19 * SECTOR && BytesOf(SubVolume(), ROOT) == RootSector()
            && BytesOf(SubVolume(), SUB) == Zeros(SECTOR)
  {
    hide Descriptor, RootSector, Zeros;
    DescriptorFields(19);
    SubRecordFields();
    assert SubVolume()[17 * SECTOR..18 * SECTOR] == RootSector();
    assert SubVolume()[18 * SECTOR..19 * SECTOR] == Zeros(SECTOR);
  }

  lemma {:induction false} SubVolumeWellFormed()
    ensures WellFormed(SubVolume(), {ROOT, SUB}) && ReadPvd(SubVolume()) == Ok(Pvd(19, ROOT))
    ensures CatalogOf(SubVolume(), {ROOT, SUB}) == map[ROOT := [SubRecord()], SUB := []]
  {
    hide SubVolume, RootSector, ReadPvd, Framed, Records, Sound;
    SubPvd();
    SubVolumeSectors();
    RootSectorFramed();
    ZerosFramed();
    SubTree();
    assert CatalogOf(SubVolume(), {ROOT, SUB}) == map[ROOT := [SubRecord()], SUB := []];
  }

  lemma SubTree()
    ensures Sound(map[ROOT := [SubRecord()], SUB := []], ROOT)
  {
    hide DirRecord.IsDot, DirRecord.Name, EqualFold;
    var cat: Catalog := map[ROOT := [SubRecord()], SUB := []];
    forall d, x: DirRecord | d in cat && x in cat[d]
      ensures d == ROOT && x == SubRecord()
    {
      assert d != SUB;
    }
    assert SubRecord().Data() == SUB;
    OneRecordTree(cat, SubRecord());
  }

  lemma OneRecordTree(cat: Catalog, r: DirRecord)
    requires ROOT in cat && cat[ROOT] == [r] && r.Data() in cat && r.Data() != ROOT
    requires forall d, x: DirRecord | d in cat && x in cat[d] :: d == ROOT && x == r
    requires forall d | d in cat && d != ROOT :: cat[d] == []
    ensures Sound(cat, ROOT)
  {
    hide DirRecord.IsDot, DirRecord.Name, DirRecord.Data, EqualFold;
    assert AllNamesUnique(cat);
    assert SubdirsKnown(cat, ROOT);
    assert OffsetsUnique(cat);
    assert ParentsUnique(cat);
  }

  lemma SubPvd()
    ensures ReadPvd(SubVolume()) == Ok(Pvd(19, ROOT))
  {
    hide Descriptor, ReadPvd, Zeros, RootSector;
    PvdOf(SubVolume(), 19, RootSector() + Zeros(SECTOR));
  }

  /** Replacing the subdirectory by any content succeeds and leaves it a directory. */
  lemma {:induction false} DirectoryStays(content: bytes)
    requires Fits(Pvd(19, ROOT), content)
    ensures WellFormed(SubVolume(), {ROOT, SUB}) && View(SubVolume(), [SUB_NAME]) == Some(Directory)
    ensures var found := ResolveIn(SubVolume(), ROOT, [SUB_NAME]);
            && found == Ok(SubRecord())
            && var e := ReplaceFile(SubVolume(), found.value, content);
            e.error == None && View(e.img, [SUB_NAME]) == Some(Directory)
  {
    hide *;
    SubVolumeWellFormed();
    SubInView();
    ReplaceDirectory(SubVolume(), {ROOT, SUB}, [SUB_NAME], content);
  }

  lemma SubInView()
    ensures View(SubVolume(), [SUB_NAME]) == Some(Directory)
            && ResolveIn(SubVolume(), ROOT, [SUB_NAME]) == Ok(SubRecord())
  {
    hide SubVolume, ReadPvd, ResolveIn, WellFormed, CatalogOf;
    SubVolumeWellFormed();
    WellFormedReads(SubVolume(), {ROOT, SUB});
    ViewIsLookup(SubVolume(), {ROOT, SUB}, [SUB_NAME]);
    ResolveIsLookup(SubVolume(), CatalogOf(SubVolume(), {ROOT, SUB}), ROOT, [SUB_NAME]);
  }
}
