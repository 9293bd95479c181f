/** Why a path of a well-formed image cannot be resolved or read. */
module Iso9660Errors {
  import opened Bytes
  import opened Iso9660Record
  import opened Iso9660Image
  import opened Iso9660Catalog
  import opened Iso9660Volume
  import opened Iso9660Add

  /** From the directory d, some proper beginning of the path names a file. */
  ghost predicate PassesFile(img: bytes, d: Extent, key: Key) {
    exists n | 0 < n < |key| :: ViewIn(img, d, key[..n]).Some? && ViewIn(img, d, key[..n]).value.File?
  }

  function WhyUnresolved(passesFile: bool): Error {
    if passesFile then NotADirectory else NotFound
  }

  lemma {:induction false} ResolveErrorIn(img: bytes, sectors: nat, dirs: set<Extent>, d: Extent, key: Key)
    requires DirsOk(img, sectors, dirs) && FilesOk(img, sectors, dirs) && SubdirsClosed(CatalogOf(img, dirs))
    requires d in dirs && key != [] && ResolveIn(img, d, key).Err?
    ensures ResolveIn(img, d, key).error == WhyUnresolved(PassesFile(img, d, key))
    decreases |key|
  {
    hide *;
    DirsRead(img, sectors, dirs);
    ReadsAt(img, dirs, d);
    FirstStep(img, d, key);
    var found := FirstMatch(Listing(img, d), key[0]);
    MatchListed(Listing(img, d), key[0]);
    if found == None {
      NothingPassed(img, d, key);
    } else if !found.value.isDir {
      ListedFileSeen(img, sectors, dirs, d, found.value);
      FilePassed(img, d, key, found.value);
    } else {
      SubdirIn(img, dirs, d, found.value);
      ResolveErrorIn(img, sectors, dirs, found.value.Data(), key[1..]);
      PassedLater(img, d, key, found.value);
    }
    WhyIs();
  }

  lemma WhyIs()
    ensures WhyUnresolved(true) == NotADirectory && WhyUnresolved(false) == NotFound
  {
  }

  lemma ReadsAt(img: bytes, dirs: set<Extent>, d: Extent)
    requires Reads(img, CatalogOf(img, dirs)) && d in dirs
    ensures ReadDirectory(img, d) == Ok(Listing(img, d))
  {
    hide Listing, ReadDirectory;
  }

  lemma SubdirIn(img: bytes, dirs: set<Extent>, d: Extent, r: DirRecord)
    requires SubdirsClosed(CatalogOf(img, dirs)) && d in dirs && r in Listing(img, d) && r.isDir && !r.IsDot()
    ensures r.Data() in dirs
  {
    hide Listing, DirRecord.IsDot, DirRecord.Data;
    assert r in CatalogOf(img, dirs)[d] && IsSubdir(r);
  }

  /** Resolution by its first component. */
  lemma FirstStep(img: bytes, d: Extent, key: Key)
    requires key != [] && ReadDirectory(img, d) == Ok(Listing(img, d))
    ensures ResolveIn(img, d, key)
         == match FirstMatch(Listing(img, d), key[0])
            case None => Err(NotFound)
            case Some(r) => if |key| == 1 then Ok(r) else if !r.isDir then Err(NotADirectory)
                            else ResolveIn(img, r.Data(), key[1..])
  {
    hide ReadDirectory, Listing, FirstMatch;
  }

  lemma NothingPassed(img: bytes, d: Extent, key: Key)
    requires key != [] && ReadDirectory(img, d) == Ok(Listing(img, d)) && FirstMatch(Listing(img, d), key[0]) == None
    ensures !PassesFile(img, d, key)
  {
    hide ReadDirectory, Listing, FirstMatch, ResolveIn, NodeAt;
    forall n | 0 < n < |key|
      ensures ViewIn(img, d, key[..n]) == None
    {
      FirstStep(img, d, key[..n]);
    }
  }

  lemma FilePassed(img: bytes, d: Extent, key: Key, r: DirRecord)
    requires |key| >= 2 && ReadDirectory(img, d) == Ok(Listing(img, d))
    requires FirstMatch(Listing(img, d), key[0]) == Some(r)
    requires NodeAt(img, r).Some? && NodeAt(img, r).value.File?
    ensures PassesFile(img, d, key)
  {
    hide ReadDirectory, Listing, FirstMatch, ResolveIn, NodeAt;
    FirstStep(img, d, key[..1]);
    assert ViewIn(img, d, key[..1]) == NodeAt(img, r);
  }

  lemma PassedLater(img: bytes, d: Extent, key: Key, r: DirRecord)
    requires |key| >= 2 && ReadDirectory(img, d) == Ok(Listing(img, d))
    requires FirstMatch(Listing(img, d), key[0]) == Some(r) && r.isDir
    ensures PassesFile(img, d, key) == PassesFile(img, r.Data(), key[1..])
  {
    hide ReadDirectory, Listing, FirstMatch, ResolveIn;
    var rest := key[1..];
    forall n | 0 < n < |key|
      ensures ViewIn(img, d, key[..n]) == if n == 1 then Some(Directory) else ViewIn(img, r.Data(), rest[..n - 1])
    {
      FirstStep(img, d, key[..n]);
      assert key[..n][1..] == rest[..n - 1];
    }
    if PassesFile(img, r.Data(), rest) {
      var n :| 0 < n < |rest| && ViewIn(img, r.Data(), rest[..n]).Some? && ViewIn(img, r.Data(), rest[..n]).value.File?;
      assert ViewIn(img, d, key[..n + 1]) == ViewIn(img, r.Data(), rest[..n]);
    }
  }

  lemma MatchListed(rs: seq<DirRecord>, name: bytes)
    ensures FirstMatch(rs, name).Some? ==> FirstMatch(rs, name).value in rs && !FirstMatch(rs, name).value.IsDot()
  {
    FirstMatchIn(rs, name);
  }

  lemma ListedFileSeen(img: bytes, sectors: nat, dirs: set<Extent>, d: Extent, r: DirRecord)
    requires FilesOk(img, sectors, dirs) && d in dirs && r in Listing(img, d) && !r.isDir && !r.IsDot()
    ensures NodeAt(img, r) == Some(File(BytesOf(img, r.Data())))
  {
    FileReads(img, sectors, dirs, r);
  }

  /** Some proper beginning of the path names a file. */
  ghost predicate ThroughFile(img: bytes, key: Key) {
    exists n | 0 < n < |key| :: View(img, key[..n]).Some? && View(img, key[..n]).value.File?
  }

  /**
   * Reading by path from a well-formed image: the content of a file, an error for a directory, and an error that says
   * whether the path leads through a file or does not exist.
   */
  lemma {:induction false} ReadOutcomes(img: bytes, dirs: set<Extent>, path: bytes)
    requires WellFormed(img, dirs)
    ensures var key := PathKey(path);
            ReadFileByPath(img, path)
            == match View(img, key)
               case Some(File(content)) => Ok(content)
               case Some(Directory) => Err(ReadOfDirectory)
               case None => Err(if ThroughFile(img, key) then NotADirectory else NotFound)
  {
    hide *;
    WellFormedReads(img, dirs);
    WellFormedParts(img, dirs);
    var pvd, key := ReadPvd(img).value, PathKey(path);
    ReadUnfold(img, pvd, path);
    if key != [] {
      CatalogAt(img, dirs, pvd.root);
      ViewFromRoot(img, pvd, key);
      ViewNoneIff(img, dirs, key);
      ResolveIsLookup(img, CatalogOf(img, dirs), pvd.root, key);
      if ResolveIn(img, pvd.root, key).Err? {
        ResolveErrorIn(img, pvd.volumeSpaceSize, dirs, pvd.root, key);
        WhyIs();
        ThroughFromRoot(img, pvd, key);
      } else {
        NodeRead(img, ResolveIn(img, pvd.root, key).value);
      }
    }
  }

  lemma ReadUnfold(img: bytes, pvd: Pvd, path: bytes)
    requires ReadPvd(img) == Ok(pvd)
    ensures PathKey(path) == [] ==>
              View(img, []) == Some(Directory) && ReadFileByPath(img, path) == Err(ReadOfDirectory)
    ensures PathKey(path) != [] ==>
              var found := ResolveIn(img, pvd.root, PathKey(path));
              && (found.Err? ==> ReadFileByPath(img, path) == Err(found.error))
              && (found.Ok? ==> ReadFileByPath(img, path) == ReadFile(img, found.value))
  {
    hide ReadPvd, ResolveIn, ReadAt;
  }

  lemma ViewFromRoot(img: bytes, pvd: Pvd, key: Key)
    requires ReadPvd(img) == Ok(pvd) && key != []
    ensures View(img, key) == ViewIn(img, pvd.root, key)
    ensures ResolveIn(img, pvd.root, key).Ok? ==> View(img, key) == NodeAt(img, ResolveIn(img, pvd.root, key).value)
  {
    hide ReadPvd, ResolveIn, NodeAt;
  }

  lemma NodeRead(img: bytes, r: DirRecord)
    ensures NodeAt(img, r) == Some(Directory) ==> ReadFile(img, r) == Err(ReadOfDirectory)
    ensures NodeAt(img, r).Some? && NodeAt(img, r).value.File? ==> ReadFile(img, r) == Ok(NodeAt(img, r).value.content)
  {
    hide ReadAt;
  }

  lemma ThroughFromRoot(img: bytes, pvd: Pvd, key: Key)
    requires ReadPvd(img) == Ok(pvd)
    ensures ThroughFile(img, key) == PassesFile(img, pvd.root, key)
  {
    hide ReadPvd, View, ViewIn;
    forall n | 0 < n < |key|
      ensures View(img, key[..n]) == ViewIn(img, pvd.root, key[..n])
    {
      ViewFromRoot(img, pvd, key[..n]);
    }
  }
}
