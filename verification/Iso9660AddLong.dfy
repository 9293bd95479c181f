/** Adding names of any length, fresh or listed: what the directory then lists and what paths then read. */
module Iso9660AddLong {
  import opened Bytes
  import opened Iso9660Record
  import opened Iso9660Image
  import opened Iso9660Catalog
  import opened Iso9660Layout
  import opened Iso9660Volume
  import opened Iso9660Refinement
  import opened Iso9660Replace
  import opened Iso9660ReplaceDir
  import opened Iso9660Add
  import opened Iso9660AddAgain

  // Lookups that stay away from one directory.

  /** No directory on the way to the last component is d. */
  ghost predicate Away(cat: Catalog, root: Extent, d: Extent, k: Key) {
    forall j | 0 <= j < |k| :: DirAt(cat, root, k[..j]) != Some(d)
  }

  lemma AwayInit(cat: Catalog, root: Extent, d: Extent, k: Key)
    requires Away(cat, root, d, k) && k != []
    ensures Away(cat, root, d, k[..|k| - 1]) && DirAt(cat, root, k[..|k| - 1]) != Some(d)
  {
    hide DirAt;
    var init := k[..|k| - 1];
    assert forall j | 0 <= j < |init| :: init[..j] == k[..j];
  }

  lemma {:induction false} AwayDirAt(cat: Catalog, root: Extent, d: Extent, k: Key)
    requires Away(cat, root, d, k)
    ensures DirAt(cat - {d}, root, k) == DirAt(cat, root, k)
    decreases |k|, 2
  {
    hide Away;
    if k != [] {
      AwayLookup(cat, root, d, k);
    }
  }

  lemma {:induction false} AwayLookup(cat: Catalog, root: Extent, d: Extent, k: Key)
    requires Away(cat, root, d, k) && k != []
    ensures Lookup(cat - {d}, root, k) == Lookup(cat, root, k)
    decreases |k|, 1
  {
    hide Away, DirAt, FirstMatch;
    AwayInit(cat, root, d, k);
    AwayDirAt(cat, root, d, k[..|k| - 1]);
  }

  lemma {:induction false} AwayKnown(cat: Catalog, root: Extent, d: Extent, k: Key)
    requires Sound(cat, root) && Away(cat, root, d, k)
    ensures KnownAlong(cat - {d}, root, k)
  {
    hide Sound, DirAt;
    forall j | 0 <= j < |k| && DirAt(cat - {d}, root, k[..j]).Some?
      ensures DirAt(cat - {d}, root, k[..j]).value in cat - {d}
    {
      assert forall i | 0 <= i < j :: k[..j][..i] == k[..i];
      AwayDirAt(cat, root, d, k[..j]);
      DirAtInCatalog(cat, root, k[..j]);
    }
  }

  /** Only the paths strictly under a directory's path go through the directory. */
  lemma NotBelowAway(cat: Catalog, root: Extent, d: Extent, parent: Key, k: Key)
    requires Sound(cat, root) && DirAt(cat, root, parent) == Some(d) && !Below(k, parent)
    ensures Away(cat, root, d, k)
  {
    hide Sound, DirAt, EqualFold;
    forall j | 0 <= j < |k|
      ensures DirAt(cat, root, k[..j]) != Some(d)
    {
      if DirAt(cat, root, k[..j]) == Some(d) {
        DirDeterminesKey(cat, root, k[..j], parent);
      }
    }
  }

  // The image after any bytes were written into one directory.

  /** Below the volume's end out is img with piece written into directory d, and the root is the same. */
  ghost predicate WritesInto(img: bytes, out: bytes, dirs: set<Extent>, d: Extent, at: nat, piece: bytes) {
    && WellFormed(img, dirs) && d in dirs && d.len > 0 && d.Start() <= at && at + |piece| <= d.End()
    && ReadPvd(out).Ok? && ReadPvd(out).value.root == ReadPvd(img).value.root
    && Edited(img, out, ReadPvd(img).value.volumeSpaceSize, at, piece)
  }

  lemma WritesFacts(img: bytes, out: bytes, dirs: set<Extent>, d: Extent, at: nat, piece: bytes)
    requires WritesInto(img, out, dirs, d, at, piece)
    ensures ReadPvd(img).Ok? && d in dirs && d.len > 0 && d.Start() <= at && at + |piece| <= d.End()
    ensures ReadPvd(out).Ok? && ReadPvd(out).value.root == ReadPvd(img).value.root && WellFormed(img, dirs)
    ensures var pvd := ReadPvd(img).value;
            && DirsOk(img, pvd.volumeSpaceSize, dirs) && FilesOk(img, pvd.volumeSpaceSize, dirs)
            && Sound(CatalogOf(img, dirs), pvd.root) && Edited(img, out, pvd.volumeSpaceSize, at, piece)
  {
    hide ReadPvd, DirsOk, FilesOk, Sound, CatalogOf, Edited;
  }

  /** All other directories list what they listed. */
  lemma OthersRead(img: bytes, out: bytes, dirs: set<Extent>, d: Extent, at: nat, piece: bytes)
    requires WritesInto(img, out, dirs, d, at, piece)
    ensures Reads(out, CatalogOf(img, dirs) - {d})
  {
    WritesFacts(img, out, dirs, d, at, piece);
    var sectors := ReadPvd(img).value.volumeSpaceSize;
    forall e | e in dirs && e != d
      ensures ReadDirectory(out, e) == Ok(Listing(img, e))
    {
      hide *;
      ApartDirs(img, sectors, dirs, d, e);
      DirFacts(img, sectors, e);
      ReadDirectoryOk(img, sectors, e);
      ApartRange(d, e, at, |piece|);
      BytesUnchanged(img, out, sectors, at, piece, e);
      SameRead(img, out, e);
    }
    hide WritesInto, WellFormed, Listing, ReadDirectory, DirsOk, FilesOk, Sound, Edited, ReadPvd;
  }

  lemma ApartDirs(img: bytes, sectors: nat, dirs: set<Extent>, d: Extent, e: Extent)
    requires DirsOk(img, sectors, dirs) && d in dirs && e in dirs && d != e
    ensures DirOk(img, sectors, d) && DirOk(img, sectors, e) && Disjoint(d, e)
  {
  }

  lemma ApartRange(d: Extent, e: Extent, at: nat, n: nat)
    requires Disjoint(d, e) && d.len > 0 && d.Start() <= at && at + n <= d.End()
    ensures e.len == 0 || e.End() <= at || at + n <= e.Start()
  {
  }

  lemma SameRead(img: bytes, out: bytes, e: Extent)
    requires ReadAt(out, e.len, e.Start()) == ReadAt(img, e.len, e.Start())
    ensures ReadDirectory(out, e) == ReadDirectory(img, e)
  {
  }

  /** Every listed record reads what it read. */
  lemma NodeStays(img: bytes, out: bytes, dirs: set<Extent>, d: Extent, at: nat, piece: bytes, e: Extent, s: DirRecord)
    requires WritesInto(img, out, dirs, d, at, piece) && e in dirs && s in Listing(img, e) && !s.IsDot()
    ensures NodeAt(out, s) == NodeAt(img, s)
  {
    hide *;
    WritesFacts(img, out, dirs, d, at, piece);
    if !s.isDir {
      var sectors := ReadPvd(img).value.volumeSpaceSize;
      ListedFileOk(img, sectors, dirs, d, e, s);
      ApartRange(d, s.Data(), at, |piece|);
      BytesUnchanged(img, out, sectors, at, piece, s.Data());
      DataOf(s);
    }
    SameBytesSameNode(img, out, s);
  }

  /** Lookups that agree read the same. */
  lemma SameFound(img: bytes, out: bytes, dirs: set<Extent>, d: Extent, at: nat, piece: bytes, k: Key)
    requires WritesInto(img, out, dirs, d, at, piece) && k != [] && ReadPvd(img).Ok?
    ensures var found := Lookup(CatalogOf(img, dirs), ReadPvd(img).value.root, k);
            found.Some? ==> NodeAt(out, found.value) == NodeAt(img, found.value)
  {
    hide *;
    WritesFacts(img, out, dirs, d, at, piece);
    var cat, root := CatalogOf(img, dirs), ReadPvd(img).value.root;
    LookupInCatalog(cat, root, k);
    if Lookup(cat, root, k).Some? {
      var e := DirAt(cat, root, k[..|k| - 1]).value;
      CatalogAt(img, dirs, e);
      NodeStays(img, out, dirs, d, at, piece, e, Lookup(cat, root, k).value);
    }
  }

  /** Paths that are not strictly under the directory read what they read. */
  lemma AwayView(img: bytes, out: bytes, dirs: set<Extent>, d: Extent, at: nat, piece: bytes, parent: Key, k: Key)
    requires WritesInto(img, out, dirs, d, at, piece) && ReadPvd(img).Ok?
    requires DirAt(CatalogOf(img, dirs), ReadPvd(img).value.root, parent) == Some(d) && !Below(k, parent)
    ensures View(out, k) == View(img, k)
  {
    hide *;
    WritesFacts(img, out, dirs, d, at, piece);
    if k == [] {
      EmptyKeyView(img);
      EmptyKeyView(out);
    } else {
      var cat, root := CatalogOf(img, dirs), ReadPvd(img).value.root;
      NotBelowAway(cat, root, d, parent, k);
      RootStays(cat, root, d, k);
      AwayKnown(cat, root, d, k);
      AwayLookup(cat, root, d, k);
      OthersRead(img, out, dirs, d, at, piece);
      ViewAlong(out, cat - {d}, k);
      ViewIsLookup(img, dirs, k);
      SameFound(img, out, dirs, d, at, piece, k);
    }
  }

  lemma RootStays(cat: Catalog, root: Extent, d: Extent, k: Key)
    requires Sound(cat, root) && k != [] && Away(cat, root, d, k)
    ensures root in cat - {d}
  {
    assert k[..0] == [] && DirAt(cat, root, []) == Some(root);
  }

  /** Paths strictly under the directory are looked up in what it now lists. */
  lemma BelowView(img: bytes, out: bytes, dirs: set<Extent>, d: Extent, at: nat, piece: bytes, parent: Key, k: Key)
    requires WritesInto(img, out, dirs, d, at, piece) && ReadPvd(img).Ok?
    requires DirAt(CatalogOf(img, dirs), ReadPvd(img).value.root, parent) == Some(d) && Below(k, parent)
    ensures |parent| < |k| && View(out, k) == ViewIn(out, d, k[|parent|..])
  {
    hide *;
    WritesFacts(img, out, dirs, d, at, piece);
    BelowPrefix(k, parent);
    var cat, root, a := CatalogOf(img, dirs), ReadPvd(img).value.root, k[..|parent|];
    SameKeySameDir(cat, root, a, parent);
    if a == [] {
      DirAtNone(cat, root);
      assert k[|parent|..] == k;
      ViewOfRoot(out, root, k);
    } else {
      SelfNotBelow(a);
      NotBelowAway(cat, root, d, a, a);
      RootStays(cat, root, d, a);
      AwayKnown(cat, root, d, a);
      AwayLookup(cat, root, d, a);
      OthersRead(img, out, dirs, d, at, piece);
      ResolveAlong(out, cat - {d}, root, a);
      DirAtUnfold(cat, root, a);
      ViewBeyond(out, root, k, |parent|);
    }
  }

  lemma ViewOfRoot(img: bytes, root: Extent, k: Key)
    requires ReadPvd(img).Ok? && ReadPvd(img).value.root == root && k != []
    ensures View(img, k) == ViewIn(img, root, k)
  {
    hide ReadPvd, ResolveIn, NodeAt;
  }

  lemma SelfNotBelow(k: Key)
    ensures !Below(k, k)
  {
  }

  lemma DirAtUnfold(cat: Catalog, root: Extent, k: Key)
    requires k != [] && DirAt(cat, root, k).Some?
    ensures Lookup(cat, root, k).Some?
    ensures Lookup(cat, root, k).value.isDir && DirAt(cat, root, k).value == Lookup(cat, root, k).value.Data()
  {
  }

  lemma FailedRead(img: bytes, d: Extent, key: Key)
    requires key != [] && ReadDirectory(img, d).Err?
    ensures ViewIn(img, d, key) == None
  {
  }

  /** If the directory still lists what it listed, every path reads what it read. */
  lemma UnchangedView(img: bytes, out: bytes, dirs: set<Extent>, d: Extent, at: nat, piece: bytes, k: Key)
    requires WritesInto(img, out, dirs, d, at, piece) && ReadDirectory(out, d) == Ok(Listing(img, d))
    ensures View(out, k) == View(img, k)
  {
    hide *;
    WritesFacts(img, out, dirs, d, at, piece);
    WellFormedReads(img, dirs);
    OthersRead(img, out, dirs, d, at, piece);
    CatalogAt(img, dirs, d);
    var cat := CatalogOf(img, dirs);
    ReadsAll(out, cat, d);
    if k == [] {
      EmptyKeyView(img);
      EmptyKeyView(out);
    } else {
      ViewByLookup(out, cat, k);
      ViewIsLookup(img, dirs, k);
      SameFound(img, out, dirs, d, at, piece, k);
    }
  }

  lemma ReadsAll(img: bytes, cat: Catalog, d: Extent)
    requires d in cat && Reads(img, cat - {d}) && ReadDirectory(img, d) == Ok(cat[d])
    ensures Reads(img, cat)
  {
    hide ReadDirectory;
  }

  // Adds.

  /** The committed record is such a write, and rereading the directory scans the patched bytes. */
  lemma AddWrites(img: bytes, out: bytes, dirs: set<Extent>, d: Extent, record: bytes, slot: nat, content: bytes,
                  size: nat)
    requires WellFormed(img, dirs) && d in dirs && record != [] && ReadPvd(img).Ok?
             && Slot(img, d, record) == Some(slot)
    requires Committed(img, out, ReadPvd(img).value, d.Start() + slot, record, content, size)
    ensures WritesInto(img, out, dirs, d, d.Start() + slot, record) && slot + |record| <= |BytesOf(img, d)|
    ensures ReadDirectory(out, d) == Scan(Patch(BytesOf(img, d), slot, record), d.Start(), 0)
    ensures ReadPvd(out) == Ok(ReadPvd(img).value.(volumeSpaceSize := size))
  {
    hide *;
    var pvd := ReadPvd(img).value;
    WellFormedDir(img, dirs, d);
    DirFacts(img, pvd.volumeSpaceSize, d);
    SlotPlace(img, pvd.volumeSpaceSize, d, record);
    CommittedEdit(img, out, pvd, d.Start() + slot, record, content, size);
    BytesPatched(img, out, pvd.volumeSpaceSize, d.Start() + slot, record, d);
    EditedGrows(img, out, pvd.volumeSpaceSize, d.Start() + slot, record);
    InDataGrows(img, out, pvd.volumeSpaceSize, pvd.volumeSpaceSize, d);
    DirBytesRead(out, pvd.volumeSpaceSize, d);
    ReadOf(out, d, BytesOf(out, d));
    WritesBy(img, out, dirs, d, d.Start() + slot, record);
  }

  lemma CommittedEdit(img: bytes, out: bytes, pvd: Pvd, at: nat, piece: bytes, content: bytes, size: nat)
    requires Committed(img, out, pvd, at, piece, content, size)
    ensures Edited(img, out, pvd.volumeSpaceSize, at, piece) && ReadPvd(out) == Ok(pvd.(volumeSpaceSize := size))
  {
    hide Edited, ReadPvd;
  }

  lemma ReadOf(img: bytes, d: Extent, data: bytes)
    requires ReadAt(img, d.len, d.Start()) == Ok(data)
    ensures ReadDirectory(img, d) == Scan(data, d.Start(), 0)
  {
  }

  lemma WritesBy(img: bytes, out: bytes, dirs: set<Extent>, d: Extent, at: nat, piece: bytes)
    requires WellFormed(img, dirs) && d in dirs && d.len > 0 && d.Start() <= at && at + |piece| <= d.End()
    requires ReadPvd(img).Ok? && ReadPvd(out).Ok? && ReadPvd(out).value.root == ReadPvd(img).value.root
    requires Edited(img, out, ReadPvd(img).value.volumeSpaceSize, at, piece)
    ensures WritesInto(img, out, dirs, d, at, piece)
  {
    hide ReadPvd, WellFormed, Edited;
  }

  /** What rereading the directory gives, by what is parsed at the slot. */
  lemma RereadBySlot(img: bytes, dirs: set<Extent>, d: Extent, name: bytes, lba: int, len: int, slot: nat)
    requires WellFormed(img, dirs) && d in dirs && 0 <= lba < U32 && 0 <= len < U32
    requires var record := NewRecord(name, lba, len);
             record != [] && Slot(img, d, record) == Some(slot) && slot + |record| <= |BytesOf(img, d)|
    ensures slot < |BytesOf(img, d)|
    ensures var record := NewRecord(name, lba, len);
            var out := Patch(BytesOf(img, d), slot, record);
            var reread := Scan(out, d.Start(), 0);
            && (Unseen(|name|) ==> reread == Ok(Listing(img, d)))
            && (OutOfBounds(|name|) ==> reread == Err(Crash))
            && (!Unseen(|name|) && !OutOfBounds(|name|) && reread.Ok? ==>
                  exists r :: r in reread.value && r.off == d.Start() + slot && (|name| > 107 ==> r.Name() != name))
  {
    hide *;
    var record, data := NewRecord(name, lba, len), BytesOf(img, d);
    WellFormedSize(img, dirs);
    WellFormedDir(img, dirs, d);
    DirFacts(img, ReadPvd(img).value.volumeSpaceSize, d);
    SlotUnfold(img, d, record);
    ScanAtSlot(data, d.Start(), 0, record);
    ListingIs(img, d);
    var out := Patch(data, slot, record);
    var rest := PatchedTail(data, slot, record);
    BuiltRecordParse(name, lba, len, rest, d.Start() + slot);
    var p := ParseDirRecord(out[slot..], d.Start() + slot);
    if p.Record? {
      ParsedLength(out[slot..], d.Start() + slot);
      if |name| > 107 {
        LongNameUnread(name, lba, len, rest, d.Start() + slot);
      }
    }
  }

  lemma PatchedTail(data: bytes, slot: nat, record: bytes) returns (rest: bytes)
    requires slot + |record| <= |data|
    ensures Patch(data, slot, record)[slot..] == record + rest
  {
    rest := data[slot + |record|..];
  }

  /** The listing is the old one with a record of the name inserted. */
  ghost predicate ListsOneMore(out: bytes, d: Extent, before: seq<DirRecord>, name: bytes) {
    exists i: nat, r: DirRecord ::
      i <= |before| && r.Name() == name && ReadDirectory(out, d) == Ok(InsertAt(before, i, r))
  }

  /** No listed record starts at a free slot, so a record seen there is the one inserted, and it has another name. */
  lemma LongNotListed(img: bytes, out: bytes, dirs: set<Extent>, d: Extent, name: bytes, lba: int, len: int, slot: nat)
    requires WellFormed(img, dirs) && d in dirs && 0 <= lba < U32 && 0 <= len < U32 && |name| > 107
    requires var record := NewRecord(name, lba, len);
             && record != [] && Slot(img, d, record) == Some(slot) && slot + |record| <= |BytesOf(img, d)|
             && ReadDirectory(out, d) == Scan(Patch(BytesOf(img, d), slot, record), d.Start(), 0)
    ensures !ListsOneMore(out, d, Listing(img, d), name)
  {
    hide *;
    RereadBySlot(img, dirs, d, name, lba, len, slot);
    WellFormedSize(img, dirs);
    WellFormedParts(img, dirs);
    SlotFresh(img, ReadPvd(img).value.volumeSpaceSize, dirs, d, NewRecord(name, lba, len));
    CatalogAt(img, dirs, d);
    NotFresh(CatalogOf(img, dirs), d, d.Start() + slot);
    var before := Listing(img, d);
    if ListsOneMore(out, d, before, name) {
      var i, r := ListedOne(out, d, before, name);
      InsertMembers(before, i, r);
      InsertLonger(before, i, r);
    }
  }

  lemma NotFresh(cat: Catalog, d: Extent, off: nat)
    requires FreshOffset(cat, off) && d in cat
    ensures forall r | r in cat[d] :: r.off != off
  {
  }

  lemma ListedOne(out: bytes, d: Extent, before: seq<DirRecord>, name: bytes) returns (i: nat, r: DirRecord)
    requires ListsOneMore(out, d, before, name)
    ensures i <= |before| && r.Name() == name && ReadDirectory(out, d) == Ok(InsertAt(before, i, r))
  {
    hide ReadDirectory, InsertAt, DirRecord.Name;
    i, r :| i <= |before| && r.Name() == name && ReadDirectory(out, d) == Ok(InsertAt(before, i, r));
  }

  lemma InsertLonger(rs: seq<DirRecord>, i: nat, r: DirRecord)
    requires i <= |rs|
    ensures InsertAt(rs, i, r) != rs
  {
    assert |InsertAt(rs, i, r)| == |rs| + 1;
  }

  lemma ShortListed(img: bytes, out: bytes, dirs: set<Extent>, d: Extent, name: bytes, content: bytes, slot: nat)
    requires Adds(img, out, dirs, d, name, content, slot) && ReadPvd(img).Ok? && |content| < U32
    ensures ListsOneMore(out, d, Listing(img, d), name)
  {
    hide *;
    AddsFacts(img, out, dirs, d, name, content, slot);
    CatalogAt(img, dirs, d);
    var i := AgainReads(img, out, dirs, d, name, content, slot);
    RecordOfFields(img, d, name, content, slot);
    var before, r := Listing(img, d), RecordOf(img, d, name, content, slot);
    ReadsAt(out, CatalogOf(img, dirs)[d := InsertAt(before, i, r)], d);
    ListedBy(out, d, before, name, i, r);
  }

  lemma ReadsAt(img: bytes, cat: Catalog, d: Extent)
    requires Reads(img, cat) && d in cat
    ensures ReadDirectory(img, d) == Ok(cat[d])
  {
  }

  lemma ListedBy(out: bytes, d: Extent, before: seq<DirRecord>, name: bytes, i: nat, r: DirRecord)
    requires i <= |before| && r.Name() == name && ReadDirectory(out, d) == Ok(InsertAt(before, i, r))
    ensures ListsOneMore(out, d, before, name)
  {
    hide ReadDirectory, InsertAt, DirRecord.Name;
  }

  /**
   * An add of any name to a directory in view. It fails only for lack of a slot, and then harmlessly. Otherwise the
   * directory lists exactly one record more, of that name, if and only if the name has at most 107 bytes.
   */
  lemma {:induction false} AddListsIff(img: bytes, dirs: set<Extent>, path: bytes, name: bytes, content: bytes)
    returns (d: Extent)
    requires WellFormed(img, dirs) && View(img, PathKey(path)) == Some(Directory) && Fits(ReadPvd(img).value, content)
    ensures DirAt(CatalogOf(img, dirs), ReadPvd(img).value.root, PathKey(path)) == Some(d)
    ensures var e := AddFile(img, ReadPvd(img).value.root, path, name, content);
            && (e.error != None ==> e.error == Some(NoFreeSpace) && Harmless(img, e.img, dirs))
            && (e.error == None ==> (ListsOneMore(e.img, d, Listing(img, d), name) <==> |name| <= 107))
  {
    hide *;
    d := AddCommits(img, dirs, path, name, content);
    var pvd := ReadPvd(img).value;
    FitsBound(pvd, content);
    var record, e := NewRecord(name, pvd.volumeSpaceSize, |content|), AddFile(img, pvd.root, path, name, content);
    if e.error == None {
      var slot := Slot(img, d, record).value;
      if |name| <= 107 {
        AddsBy(img, e.img, dirs, d, name, content, slot);
        ShortListed(img, e.img, dirs, d, name, content, slot);
      } else {
        AddWrites(img, e.img, dirs, d, record, slot, content, SizeAfter(pvd, content));
        LongNotListed(img, e.img, dirs, d, name, pvd.volumeSpaceSize, |content|, slot);
      }
    }
  }

  /**
   * What the view is after an add of any name that succeeds: paths not strictly under the directory read what they
   * read, and those under it are looked up in what it lists now. If the length byte hides the record nothing has
   * changed; if the identifier wraps, every listing of the directory crashes and nothing is in view under it.
   */
  lemma {:induction false} AddAnyName(img: bytes, dirs: set<Extent>, path: bytes, name: bytes, content: bytes)
    returns (d: Extent)
    requires WellFormed(img, dirs) && View(img, PathKey(path)) == Some(Directory) && Fits(ReadPvd(img).value, content)
    requires AddFile(img, ReadPvd(img).value.root, path, name, content).error == None
    ensures DirAt(CatalogOf(img, dirs), ReadPvd(img).value.root, PathKey(path)) == Some(d)
    ensures forall k | Below(k, PathKey(path)) :: |PathKey(path)| < |k|
    ensures var out, key := AddFile(img, ReadPvd(img).value.root, path, name, content).img, PathKey(path);
            && (forall k | !Below(k, key) :: View(out, k) == View(img, k))
            && (forall k | Below(k, key) :: View(out, k) == ViewIn(out, d, k[|key|..]))
            && (Unseen(|name|) ==> ReadDirectory(out, d) == Ok(Listing(img, d)) && forall k ::
               View(out, k) == View(img, k))
            && (OutOfBounds(|name|) ==>
                  ReadDirectory(out, d) == Err(Crash) && forall k | Below(k, key) :: View(out, k) == None)
  {
    hide *;
    d := AddCommits(img, dirs, path, name, content);
    var pvd := ReadPvd(img).value;
    FitsBound(pvd, content);
    var record, key := NewRecord(name, pvd.volumeSpaceSize, |content|), PathKey(path);
    var out, slot := AddFile(img, pvd.root, path, name, content).img, Slot(img, d, record).value;
    AddWrites(img, out, dirs, d, record, slot, content, SizeAfter(pvd, content));
    RereadBySlot(img, dirs, d, name, pvd.volumeSpaceSize, |content|, slot);
    BelowLonger(key);
    forall k
      ensures !Below(k, key) ==> View(out, k) == View(img, k)
      ensures Unseen(|name|) ==> View(out, k) == View(img, k)
      ensures Below(k, key) ==> View(out, k) == ViewIn(out, d, k[|key|..])
      ensures Below(k, key) && OutOfBounds(|name|) ==> View(out, k) == None
    {
      if !Below(k, key) {
        AwayView(img, out, dirs, d, d.Start() + slot, record, key, k);
      } else {
        BelowView(img, out, dirs, d, d.Start() + slot, record, key, k);
        if OutOfBounds(|name|) {
          FailedRead(out, d, k[|key|..]);
        }
      }
      if Unseen(|name|) {
        UnchangedView(img, out, dirs, d, d.Start() + slot, record, k);
      }
    }
  }
}
