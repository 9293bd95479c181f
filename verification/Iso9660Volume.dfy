/** Well-formed images, and what a path names in them. */
module Iso9660Volume {
  import opened Bytes
  import opened Iso9660Record
  import opened Iso9660Image
  import opened Iso9660Catalog
  import opened Iso9660Layout

  /** The first byte after the volume descriptor; extents lie at or after it. */
  const DATA_START: nat := PVD_OFFSET + SECTOR

  function BytesOf(img: bytes, e: Extent): bytes {
    match ReadAt(img, e.len, e.Start())
    case Ok(data) => data
    case Err(_) => []
  }

  function Listing(img: bytes, dir: Extent): seq<DirRecord> {
    Records(BytesOf(img, dir), dir.Start(), 0)
  }

  function CatalogOf(img: bytes, dirs: set<Extent>): Catalog {
    map d | d in dirs :: Listing(img, d)
  }

  predicate InData(img: bytes, sectors: nat, e: Extent) {
    e.len == 0 || (DATA_START <= e.Start() && e.End() <= |img| && e.End() <= sectors * SECTOR)
  }

  predicate Disjoint(d: Extent, e: Extent) {
    d.len == 0 || e.len == 0 || d.End() <= e.Start() || e.End() <= d.Start()
  }

  predicate DirOk(img: bytes, sectors: nat, d: Extent) {
    d.len % SECTOR == 0 && InData(img, sectors, d) && Framed(BytesOf(img, d), 0)
  }

  ghost predicate FileOk(img: bytes, sectors: nat, dirs: set<Extent>, e: Extent) {
    InData(img, sectors, e) && forall d | d in dirs :: Disjoint(d, e)
  }

  ghost predicate DirsOk(img: bytes, sectors: nat, dirs: set<Extent>) {
    && (forall d | d in dirs :: DirOk(img, sectors, d))
    && (forall d, e | d in dirs && e in dirs && d != e :: Disjoint(d, e))
  }

  ghost predicate FilesOk(img: bytes, sectors: nat, dirs: set<Extent>) {
    forall d, r | d in dirs && r in Listing(img, d) && !r.isDir && !r.IsDot() :: FileOk(img, sectors, dirs, r.Data())
  }

  /** The image holds a descriptor and the directories dirs, a tree of whole records with its files apart. */
  ghost predicate WellFormed(img: bytes, dirs: set<Extent>) {
    && ReadPvd(img).Ok?
    && var pvd := ReadPvd(img).value;
    && 17 <= pvd.volumeSpaceSize
    && DirsOk(img, pvd.volumeSpaceSize, dirs)
    && Sound(CatalogOf(img, dirs), pvd.root)
    && FilesOk(img, pvd.volumeSpaceSize, dirs)
  }

  // What a path names.

  datatype Node = Directory | File(content: bytes)

  function PathKey(path: bytes): Key {
    if TrimSlash(path) == [] then [] else Split(47, TrimSlash(path))
  }

  function NodeAt(img: bytes, r: DirRecord): Option<Node> {
    if r.isDir then Some(Directory)
    else
      match ReadFile(img, r)
      case Ok(content) => Some(File(content))
      case Err(_) => None
  }

  /** The directory or file content that the code's own resolution and reading give for a path. */
  function View(img: bytes, key: Key): Option<Node> {
    match ReadPvd(img)
    case Err(_) => None
    case Ok(pvd) =>
      if key == [] then Some(Directory)
      else
        match ResolveIn(img, pvd.root, key)
        case Err(_) => None
        case Ok(r) => NodeAt(img, r)
  }

  /** Reading by path succeeds with exactly the contents of the files in view. */
  lemma {:induction false} ReadIsView(img: bytes, path: bytes)
    ensures forall content ::
            ReadFileByPath(img, path) == Ok(content) <==> View(img, PathKey(path)) == Some(File(content))
  {
  }

  // Resolution from the root forwards is the catalog's lookup from the last component backwards.

  lemma {:induction false} LookupForward(cat: Catalog, d: Extent, key: Key)
    requires |key| >= 2 && d in cat
    ensures Lookup(cat, d, key)
         == match FirstMatch(cat[d], key[0])
            case None => None
            case Some(r) => if r.isDir then Lookup(cat, r.Data(), key[1..]) else None
    decreases |key|
  {
    var init := key[..|key| - 1];
    assert init[0] == key[0] && init[..|init| - 1] == key[..|key| - 2];
    if |key| == 2 {
      var tail := key[1..];
      assert init[..|init| - 1] == [] && tail[..|tail| - 1] == [];
      assert Lookup(cat, d, init) == FirstMatch(cat[d], key[0]);
    } else {
      LookupForward(cat, d, init);
      assert init[1..] == key[1..][..|key| - 2];
    }
  }

  lemma ReadDirectoryOk(img: bytes, sectors: nat, d: Extent)
    requires DirOk(img, sectors, d)
    ensures ReadDirectory(img, d) == Ok(Listing(img, d))
  {
    ScanFramed(BytesOf(img, d), d.Start(), 0);
  }

  ghost predicate SubdirsClosed(cat: Catalog) {
    forall d, r | d in cat && r in cat[d] && IsSubdir(r) :: r.Data() in cat
  }

  /** The catalog holds what reading each of its directories gives. */
  ghost predicate Reads(img: bytes, cat: Catalog) {
    forall d | d in cat :: ReadDirectory(img, d) == Ok(cat[d])
  }

  lemma {:induction false} ResolveIsLookup(img: bytes, cat: Catalog, d: Extent, key: Key)
    requires Reads(img, cat) && SubdirsClosed(cat) && d in cat && key != []
    ensures ResolveIn(img, d, key).Ok? <==> Lookup(cat, d, key).Some?
    ensures ResolveIn(img, d, key).Ok? ==> ResolveIn(img, d, key).value == Lookup(cat, d, key).value
    decreases |key|
  {
    hide EqualFold, DirRecord.Name, ReadDirectory;
    FirstMatchIn(cat[d], key[0]);
    var r := FirstMatch(cat[d], key[0]);
    if |key| == 1 {
      assert key[..0] == [];
    } else {
      LookupForward(cat, d, key);
      if r.Some? && r.value.isDir {
        ResolveIsLookup(img, cat, r.value.Data(), key[1..]);
      }
    }
  }

  lemma WellFormedReads(img: bytes, dirs: set<Extent>)
    requires WellFormed(img, dirs)
    ensures Reads(img, CatalogOf(img, dirs)) && SubdirsClosed(CatalogOf(img, dirs))
    ensures ReadPvd(img).Ok? && ReadPvd(img).value.root in CatalogOf(img, dirs)
  {
    var pvd := ReadPvd(img).value;
    hide ReadPvd;
    forall d | d in CatalogOf(img, dirs)
      ensures ReadDirectory(img, d) == Ok(CatalogOf(img, dirs)[d])
    {
      assert DirOk(img, pvd.volumeSpaceSize, d);
      hide Listing, DirOk, ReadDirectory;
      ReadDirectoryOk(img, pvd.volumeSpaceSize, d);
    }
  }

  lemma DirsRead(img: bytes, sectors: nat, dirs: set<Extent>)
    requires DirsOk(img, sectors, dirs)
    ensures Reads(img, CatalogOf(img, dirs))
  {
    forall d | d in CatalogOf(img, dirs)
      ensures ReadDirectory(img, d) == Ok(CatalogOf(img, dirs)[d])
    {
      assert DirOk(img, sectors, d);
      hide Listing, DirOk, ReadDirectory;
      ReadDirectoryOk(img, sectors, d);
    }
  }

  lemma {:induction false} ViewIsLookup(img: bytes, dirs: set<Extent>, key: Key)
    requires WellFormed(img, dirs) && key != []
    ensures View(img, key) == match Lookup(CatalogOf(img, dirs), ReadPvd(img).value.root, key)
                              case None => None
                              case Some(r) => NodeAt(img, r)
  {
    WellFormedReads(img, dirs);
    hide ResolveIn, Lookup, WellFormed, NodeAt, ReadPvd, CatalogOf;
    ResolveIsLookup(img, CatalogOf(img, dirs), ReadPvd(img).value.root, key);
  }

  /** A record of a listing lies inside its directory. */
  lemma RecordInside(img: bytes, sectors: nat, d: Extent, r: DirRecord)
    requires DirOk(img, sectors, d) && r in Listing(img, d)
    ensures d.len > 0 && d.Start() <= r.off && r.off + 33 <= d.End()
  {
    ScanFramed(BytesOf(img, d), d.Start(), 0);
  }

  /** Files in view can be read. */
  lemma FileReads(img: bytes, sectors: nat, dirs: set<Extent>, r: DirRecord)
    requires FileOk(img, sectors, dirs, r.Data()) && !r.isDir
    ensures ReadFile(img, r) == Ok(BytesOf(img, r.Data()))
  {
  }

  /** What a nonempty path names from a directory on. */
  function ViewIn(img: bytes, d: Extent, key: Key): Option<Node>
    requires key != []
  {
    match ResolveIn(img, d, key)
    case Err(_) => None
    case Ok(r) => NodeAt(img, r)
  }

  /** Beyond a directory that resolves, resolution goes on in its extent. */
  lemma {:induction false} ResolveBeyond(img: bytes, d: Extent, a: Key, b: Key)
    requires a != [] && b != [] && ResolveIn(img, d, a).Ok? && ResolveIn(img, d, a).value.isDir
    ensures ResolveIn(img, d, a + b) == ResolveIn(img, ResolveIn(img, d, a).value.Data(), b)
    decreases |a|
  {
    hide EqualFold, DirRecord.Name, ReadDirectory, FirstMatch;
    assert (a + b)[0] == a[0] && (a + b)[1..] == a[1..] + b;
    if |a| == 1 {
      assert a[1..] + b == b;
    } else {
      var r := FirstMatch(ReadDirectory(img, d).value, a[0]).value;
      ResolveBeyond(img, r.Data(), a[1..], b);
    }
  }

  lemma ViewBeyond(img: bytes, root: Extent, k: Key, n: nat)
    requires ReadPvd(img).Ok? && ReadPvd(img).value.root == root && 0 < n < |k|
    requires ResolveIn(img, root, k[..n]).Ok? && ResolveIn(img, root, k[..n]).value.isDir
    ensures View(img, k) == ViewIn(img, ResolveIn(img, root, k[..n]).value.Data(), k[n..])
  {
    hide ReadPvd, ResolveIn, NodeAt;
    ResolveBeyond(img, root, k[..n], k[n..]);
    assert k[..n] + k[n..] == k;
  }

  /** Nothing is in view in an empty extent. */
  lemma EmptyExtentView(img: bytes, lba: nat, key: Key)
    requires key != []
    ensures ViewIn(img, Extent(lba, 0), key) == None
  {
  }

  // Definitions unfolded where a proof hides them.

  lemma DirFacts(img: bytes, sectors: nat, d: Extent)
    requires DirOk(img, sectors, d)
    ensures InData(img, sectors, d) && Framed(BytesOf(img, d), 0)
  {
  }

  lemma WellFormedParts(img: bytes, dirs: set<Extent>)
    requires WellFormed(img, dirs)
    ensures ReadPvd(img).Ok?
    ensures var pvd := ReadPvd(img).value;
            DirsOk(img, pvd.volumeSpaceSize, dirs) && FilesOk(img, pvd.volumeSpaceSize, dirs)
              && Sound(CatalogOf(img, dirs), pvd.root)
  {
  }

  lemma WellFormedBy(img: bytes, dirs: set<Extent>, pvd: Pvd)
    requires ReadPvd(img) == Ok(pvd) && 17 <= pvd.volumeSpaceSize && DirsOk(img, pvd.volumeSpaceSize, dirs)
    requires Sound(CatalogOf(img, dirs), pvd.root) && FilesOk(img, pvd.volumeSpaceSize, dirs)
    ensures WellFormed(img, dirs)
  {
  }

  lemma ListingIs(img: bytes, d: Extent)
    ensures Listing(img, d) == Records(BytesOf(img, d), d.Start(), 0)
  {
  }

  lemma CatalogAt(img: bytes, dirs: set<Extent>, e: Extent)
    ensures e in CatalogOf(img, dirs) <==> e in dirs
    ensures e in dirs ==> CatalogOf(img, dirs)[e] == Listing(img, e)
  {
  }
}
