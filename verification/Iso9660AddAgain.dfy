/** Adding a name that its directory already lists: which of the two records the path then names. */
module Iso9660AddAgain {
  import opened Bytes
  import opened Iso9660Record
  import opened Iso9660Image
  import opened Iso9660Catalog
  import opened Iso9660Layout
  import opened Iso9660Volume
  import opened Iso9660Replace
  import opened Iso9660Add

  lemma OrderAround(rs: seq<DirRecord>, i: nat, r: DirRecord, j: nat)
    requires i <= |rs| && j < |rs| && InOffsetOrder(InsertAt(rs, i, r))
    ensures if j < i then rs[j].off < r.off else r.off < rs[j].off
  {
    var all := InsertAt(rs, i, r);
    assert all[i] == r && all[if j < i then j else j + 1] == rs[j];
  }

  lemma MatchIndex(rs: seq<DirRecord>, name: bytes) returns (j: nat)
    requires FirstMatch(rs, name).Some?
    ensures j < |rs| && rs[j] == FirstMatch(rs, name).value
  {
    hide FirstMatch;
    FirstMatchIn(rs, name);
    j :| j < |rs| && rs[j] == FirstMatch(rs, name).value;
  }

  /** The first match in a listing with one record more, in offset order. */
  lemma FirstOfTwo(rs: seq<DirRecord>, i: nat, r: DirRecord, name: bytes)
    requires i <= |rs| && InOffsetOrder(InsertAt(rs, i, r)) && !r.IsDot() && EqualFold(r.Name(), name)
             && FirstMatch(rs, name).Some?
    ensures var prior := FirstMatch(rs, name).value;
            FirstMatch(InsertAt(rs, i, r), name) == Some(if r.off < prior.off then r else prior)
  {
    hide DirRecord.Name, DirRecord.IsDot, EqualFold, FirstMatch, InOffsetOrder;
    var a, b := rs[..i], rs[i..];
    assert rs == a + b && InsertAt(rs, i, r) == a + ([r] + b);
    FirstMatchConcat(a, b, name);
    FirstMatchConcat(a, [r] + b, name);
    HeadMatches(r, b, name);
    if FirstMatch(a, name).Some? {
      var j := MatchIndex(a, name);
      OrderAround(rs, i, r, j);
    } else {
      var j := MatchIndex(b, name);
      OrderAround(rs, i, r, i + j);
    }
  }

  lemma HeadMatches(r: DirRecord, rest: seq<DirRecord>, name: bytes)
    requires !r.IsDot() && EqualFold(r.Name(), name)
    ensures FirstMatch([r] + rest, name) == Some(r)
  {
  }

  lemma OtherMatch(rs: seq<DirRecord>, i: nat, r: DirRecord, name: bytes)
    requires i <= |rs| && !EqualFold(r.Name(), name)
    ensures FirstMatch(InsertAt(rs, i, r), name) == FirstMatch(rs, name)
  {
    hide DirRecord.Name, DirRecord.IsDot, EqualFold;
    var a, b := rs[..i], rs[i..];
    assert rs == a + b && InsertAt(rs, i, r) == a + ([r] + b) && ([r] + b)[1..] == b;
    FirstMatchConcat(a, b, name);
    FirstMatchConcat(a, [r] + b, name);
  }

  // Paths that do not go through the added name.

  /** No component of the path names the added record's name in its directory. */
  ghost predicate Avoids(cat: Catalog, root: Extent, dir: Extent, name: bytes, key: Key) {
    forall j | 0 <= j < |key| :: !(DirAt(cat, root, key[..j]) == Some(dir) && EqualFold(name, key[j]))
  }

  lemma AvoidsInit(cat: Catalog, root: Extent, dir: Extent, name: bytes, key: Key)
    requires Avoids(cat, root, dir, name, key) && key != []
    ensures Avoids(cat, root, dir, name, key[..|key| - 1])
    ensures !(DirAt(cat, root, key[..|key| - 1]) == Some(dir) && EqualFold(name, key[|key| - 1]))
  {
    hide DirAt, EqualFold;
    var init := key[..|key| - 1];
    assert forall j | 0 <= j < |init| :: init[..j] == key[..j] && init[j] == key[j];
  }

  lemma {:induction false} AvoidingDirAt(cat: Catalog, root: Extent, dir: Extent, i: nat, r: DirRecord, key: Key)
    requires dir in cat && i <= |cat[dir]| && Avoids(cat, root, dir, r.Name(), key)
    ensures DirAt(cat[dir := InsertAt(cat[dir], i, r)], root, key) == DirAt(cat, root, key)
    decreases |key|, 2
  {
    hide Avoids, InsertAt, EqualFold, DirRecord.Name, FirstMatch;
    if key != [] {
      AvoidingLookup(cat, root, dir, i, r, key);
    }
  }

  lemma {:induction false} AvoidingLookup(cat: Catalog, root: Extent, dir: Extent, i: nat, r: DirRecord, key: Key)
    requires dir in cat && i <= |cat[dir]| && Avoids(cat, root, dir, r.Name(), key) && key != []
    ensures Lookup(cat[dir := InsertAt(cat[dir], i, r)], root, key) == Lookup(cat, root, key)
    decreases |key|, 1
  {
    hide Avoids, InsertAt, EqualFold, DirRecord.Name, FirstMatch, DirAt;
    var init := key[..|key| - 1];
    AvoidsInit(cat, root, dir, r.Name(), key);
    AvoidingDirAt(cat, root, dir, i, r, init);
    if DirAt(cat, root, init) == Some(dir) {
      OtherMatch(cat[dir], i, r, key[|key| - 1]);
    }
  }

  lemma NotUnderAvoids(cat: Catalog, root: Extent, d: Extent, parent: Key, name: bytes, k: Key)
    requires Sound(cat, root) && DirAt(cat, root, parent) == Some(d) && !Under(k, parent + [name])
    ensures Avoids(cat, root, d, name, k)
  {
    hide Sound, DirAt, SameKey, EqualFold;
    forall j | 0 <= j < |k|
      ensures !(DirAt(cat, root, k[..j]) == Some(d) && EqualFold(name, k[j]))
    {
      var upTo := k[..j + 1];
      assert upTo[..|upTo| - 1] == k[..j];
      AddedKey(cat, root, d, parent, name, upTo);
      SameKeyLength(upTo, parent + [name]);
    }
  }

  lemma AgainLookup(cat: Catalog, root: Extent, d: Extent, i: nat, r: DirRecord, parent: Key, k: Key)
    requires Sound(cat, root) && DirAt(cat, root, parent) == Some(d) && d in cat && i <= |cat[d]| && !r.IsDot()
    requires InOffsetOrder(InsertAt(cat[d], i, r)) && FirstMatch(cat[d], r.Name()).Some?
             && SameKey(k, parent + [r.Name()])
    ensures Lookup(cat, root, k) == FirstMatch(cat[d], r.Name())
    ensures var prior := FirstMatch(cat[d], r.Name()).value;
            Lookup(cat[d := InsertAt(cat[d], i, r)], root, k) == Some(if r.off < prior.off then r else prior)
  {
    hide Sound, DirAt, SameKey, FirstMatch, InsertAt, InOffsetOrder, DirRecord.Name, DirRecord.IsDot;
    SameKeyLength(k, parent + [r.Name()]);
    var full, init, last := parent + [r.Name()], k[..|k| - 1], k[|k| - 1];
    assert full[..|full| - 1] == parent && full[|full| - 1] == r.Name();
    InitSameKey(k, full);
    AddedKey(cat, root, d, parent, r.Name(), k);
    SameKeySameDir(cat, root, init, parent);
    NotUnderAvoids(cat, root, d, parent, r.Name(), init);
    AvoidingDirAt(cat, root, d, i, r, init);
    FirstMatchFold(cat[d], r.Name(), last);
    FirstOfTwo(cat[d], i, r, last);
  }

  lemma BelowInit(k: Key, full: Key)
    requires Below(k, full)
    ensures k != [] && |k[..|k| - 1]| >= |full|
    ensures |k| - 1 > |full| ==> Below(k[..|k| - 1], full)
    ensures |k| - 1 == |full| ==> SameKey(k[..|k| - 1], full)
  {
    assert k[..|k| - 1][..|full|] == k[..|full|];
    if |k| - 1 == |full| {
      assert k[..|k| - 1] == k[..|full|];
    }
  }

  /** If the new record comes first nothing lies under the path any more. */
  lemma {:induction false} GoneBelow(cat: Catalog, root: Extent, d: Extent, i: nat, r: DirRecord, parent: Key, k: Key)
    requires Sound(cat, root) && DirAt(cat, root, parent) == Some(d) && d in cat && i <= |cat[d]| && !r.IsDot()
    requires InOffsetOrder(InsertAt(cat[d], i, r)) && FirstMatch(cat[d], r.Name()).Some?
    requires r.off < FirstMatch(cat[d], r.Name()).value.off && !r.isDir && Below(k, parent + [r.Name()])
    ensures Lookup(cat[d := InsertAt(cat[d], i, r)], root, k) == None
    decreases |k|
  {
    hide Sound, SameKey, FirstMatch, InsertAt, InOffsetOrder, DirRecord.Name, DirRecord.IsDot, Below;
    BelowInit(k, parent + [r.Name()]);
    var init := k[..|k| - 1];
    if |init| > |parent| + 1 {
      GoneBelow(cat, root, d, i, r, parent, init);
    } else {
      AgainLookup(cat, root, d, i, r, parent, init);
    }
  }

  /** If the new record comes second everything under the path is as before. */
  lemma {:induction false} KeptBelow(cat: Catalog, root: Extent, d: Extent, i: nat, r: DirRecord, parent: Key, k: Key)
    requires Sound(cat, root) && DirAt(cat, root, parent) == Some(d) && d in cat && i <= |cat[d]| && !r.IsDot()
    requires InOffsetOrder(InsertAt(cat[d], i, r)) && FirstMatch(cat[d], r.Name()).Some?
    requires r.off >= FirstMatch(cat[d], r.Name()).value.off && Below(k, parent + [r.Name()])
    ensures Lookup(cat[d := InsertAt(cat[d], i, r)], root, k) == Lookup(cat, root, k)
    decreases |k|
  {
    hide Sound, SameKey, FirstMatch, InsertAt, InOffsetOrder, DirRecord.Name, DirRecord.IsDot, Below;
    BelowInit(k, parent + [r.Name()]);
    var init := k[..|k| - 1];
    if |init| > |parent| + 1 {
      KeptBelow(cat, root, d, i, r, parent, init);
    } else {
      AgainLookup(cat, root, d, i, r, parent, init);
    }
    if DirAt(cat, root, init) == Some(d) {
      DirDeterminesKey(cat, root, init, parent);
      SameKeyLength(init, parent);
    }
  }

  // The image after such an insertion.

  /** The directories of out are framed, and reading them gives the catalog with the one record more. */
  lemma AgainReads(img: bytes, out: bytes, dirs: set<Extent>, d: Extent, name: bytes, content: bytes, slot: nat)
    returns (i: nat)
    requires Adds(img, out, dirs, d, name, content, slot) && ReadPvd(img).Ok? && |content| < U32
    ensures d in CatalogOf(img, dirs) && i <= |CatalogOf(img, dirs)[d]|
    ensures var cat := CatalogOf(img, dirs)[d := InsertAt(CatalogOf(img, dirs)[d], i,
            RecordOf(img, d, name, content, slot))];
            Reads(out, cat) && SubdirsClosed(cat) && InOffsetOrder(cat[d])
  {
    hide *;
    AddsFacts(img, out, dirs, d, name, content, slot);
    AddsInserts(img, out, dirs, d, name, content, slot);
    RecordOfFields(img, d, name, content, slot);
    CatalogAt(img, dirs, d);
    WellFormedReads(img, dirs);
    var pvd, cat, r := ReadPvd(img).value, CatalogOf(img, dirs), RecordOf(img, d, name, content, slot);
    i := CatalogAfterInsert(img, out, pvd.volumeSpaceSize, dirs, d, NewRecord(name, pvd.volumeSpaceSize, |content|),
      slot, r);
    DirsAfterEdit(img, out, pvd.volumeSpaceSize, SizeAfter(pvd, content), dirs);
    DirsRead(out, SizeAfter(pvd, content), dirs);
    ClosedInsert(cat, d, i, r);
    CatalogAt(out, dirs, d);
    ListingIs(out, d);
    RecordsInOrder(BytesOf(out, d), d.Start(), 0);
  }

  lemma ClosedInsert(cat: Catalog, d: Extent, i: nat, r: DirRecord)
    requires SubdirsClosed(cat) && d in cat && i <= |cat[d]| && !r.isDir
    ensures SubdirsClosed(cat[d := InsertAt(cat[d], i, r)])
  {
    hide InsertAt;
    InsertMembers(cat[d], i, r);
  }

  /**
   * The added name reads the new content if its record comes first, else what it read before; other paths as
   * before.
   */
  lemma AgainView(img: bytes, out: bytes, dirs: set<Extent>, d: Extent, name: bytes, content: bytes, slot: nat,
                  parent: Key, k: Key)
    requires Adds(img, out, dirs, d, name, content, slot) && ReadPvd(img).Ok? && |content| < U32
    requires DirAt(CatalogOf(img, dirs), ReadPvd(img).value.root, parent) == Some(d)
    requires d in CatalogOf(img, dirs) && FirstMatch(CatalogOf(img, dirs)[d], name).Some?
    ensures SameKey(k, parent + [name]) ==>
              View(out, k) == if d.Start() + slot < FirstMatch(CatalogOf(img, dirs)[d], name).value.off
                then Some(File(content))
                              else View(img, k)
    ensures !Under(k, parent + [name]) ==> View(out, k) == View(img, k)
    ensures Below(k, parent + [name]) ==>
              View(out, k) == if d.Start() + slot < FirstMatch(CatalogOf(img, dirs)[d], name).value.off then None
                              else View(img, k)
  {
    hide *;
    AddsFacts(img, out, dirs, d, name, content, slot);
    UnderCases(k, parent + [name]);
    if k == [] {
      EmptyKeyView(img);
      EmptyKeyView(out);
      SameKeyLength(k, parent + [name]);
    } else {
      var pvd, cat, r := ReadPvd(img).value, CatalogOf(img, dirs), RecordOf(img, d, name, content, slot);
      var i := AgainReads(img, out, dirs, d, name, content, slot);
      RecordOfFields(img, d, name, content, slot);
      var after := cat[d := InsertAt(cat[d], i, r)];
      RootIn(cat, pvd.root);
      ViewIsLookup(img, dirs, k);
      ViewByLookup(out, after, k);
      LookupInCatalog(cat, pvd.root, k);
      if Lookup(cat, pvd.root, k).Some? {
        var e := DirAt(cat, pvd.root, k[..|k| - 1]).value;
        CatalogAt(img, dirs, e);
        NodeAfterAdd(img, out, dirs, d, name, content, slot, e, Lookup(cat, pvd.root, k).value);
      }
      if SameKey(k, parent + [name]) {
        AgainLookup(cat, pvd.root, d, i, r, parent, k);
        DataOf(r);
        NewContentReads(out, pvd, content, r) by { EndOf(pvd); }
      } else if !Under(k, parent + [name]) {
        NotUnderAvoids(cat, pvd.root, d, parent, name, k);
        AvoidingLookup(cat, pvd.root, d, i, r, k);
      } else if r.off < FirstMatch(cat[d], name).value.off {
        GoneBelow(cat, pvd.root, d, i, r, parent, k);
      } else {
        KeptBelow(cat, pvd.root, d, i, r, parent, k);
      }
    }
  }

  lemma RootIn(cat: Catalog, root: Extent)
    requires Sound(cat, root)
    ensures root in cat
  {
  }

  lemma ViewByLookup(img: bytes, cat: Catalog, key: Key)
    requires ReadPvd(img).Ok? && Reads(img, cat) && SubdirsClosed(cat) && ReadPvd(img).value.root in cat && key != []
    ensures View(img, key) == match Lookup(cat, ReadPvd(img).value.root, key)
                              case None => None
                              case Some(r) => NodeAt(img, r)
  {
    hide ResolveIn, Lookup, NodeAt, ReadPvd, Reads, SubdirsClosed;
    ResolveIsLookup(img, cat, ReadPvd(img).value.root, key);
  }

  /**
   * Adding a name that the directory already lists fails only for lack of a slot, and then harmlessly. With a slot, a
   * name of at most 107 bytes makes the path read the new content exactly when the slot comes before the record it
   * names so far; what lay under the path then leaves the view. So the add makes its update exactly when the slot comes
   * first and nothing lay under the path, or it comes later and the path had the content already.
   */
  lemma {:induction false} AddAgain(img: bytes, dirs: set<Extent>, path: bytes, name: bytes, content: bytes)
    returns (d: Extent, prior: DirRecord)
    requires WellFormed(img, dirs) && View(img, PathKey(path)) == Some(Directory)
    requires View(img, PathKey(path) + [name]).Some? && Fits(ReadPvd(img).value, content)
    ensures ReadPvd(img).Ok? && |content| < U32
    ensures DirAt(CatalogOf(img, dirs), ReadPvd(img).value.root, PathKey(path)) == Some(d)
    ensures Lookup(CatalogOf(img, dirs), ReadPvd(img).value.root, PathKey(path) + [name]) == Some(prior)
    ensures var pvd, full := ReadPvd(img).value, PathKey(path) + [name];
            var e := AddFile(img, pvd.root, path, name, content);
            match Slot(img, d, NewRecord(name, pvd.volumeSpaceSize, |content|))
            case None => e.error == Some(NoFreeSpace) && Harmless(img, e.img, dirs)
            case Some(slot) =>
              e.error == None && (|name| <= 107 ==> Again(img, e.img, full, content, d.Start() + slot < prior.off))
    ensures var pvd, full := ReadPvd(img).value, PathKey(path) + [name];
            var e := AddFile(img, pvd.root, path, name, content);
            e.error == None && |name| <= 107 ==>
              var slot := Slot(img, d, NewRecord(name, pvd.volumeSpaceSize, |content|));
              && slot.Some?
              && ((forall k :: View(e.img, k) == if SameKey(k, full) then Some(File(content)) else View(img, k))
                  <==> if d.Start() + slot.value < prior.off then forall k | Below(k, full) :: View(img, k) == None
                       else View(img, full) == Some(File(content)))
  {
    hide *;
    d := AddCommits(img, dirs, path, name, content);
    var pvd, full := ReadPvd(img).value, PathKey(path) + [name];
    prior := ListedPrior(img, dirs, d, PathKey(path), name);
    var record := NewRecord(name, pvd.volumeSpaceSize, |content|);
    var out := AddFile(img, pvd.root, path, name, content).img;
    if Slot(img, d, record).Some? && |name| <= 107 {
      var slot := Slot(img, d, record).value;
      AddsBy(img, out, dirs, d, name, content, slot);
      forall k
        ensures SameKey(k, full) ==>
                View(out, k) == if d.Start() + slot < prior.off then Some(File(content)) else View(img, k)
        ensures !Under(k, full) ==> View(out, k) == View(img, k)
        ensures Below(k, full) ==> View(out, k) == if d.Start() + slot < prior.off then None else View(img, k)
      {
        AgainView(img, out, dirs, d, name, content, slot, PathKey(path), k);
      }
      AgainBy(img, out, full, content, d.Start() + slot < prior.off);
      AgainUpdates(img, out, dirs, full, content, d.Start() + slot < prior.off);
    }
  }

  /** The view after the add: first says whether the new record comes before the one the path named. */
  ghost predicate Again(img: bytes, out: bytes, full: Key, content: bytes, first: bool) {
    && (forall k | SameKey(k, full) :: View(out, k) == if first then Some(File(content)) else View(img, k))
    && (forall k | !Under(k, full) :: View(out, k) == View(img, k))
    && (forall k | Below(k, full) :: View(out, k) == if first then None else View(img, k))
  }

  lemma AgainBy(img: bytes, out: bytes, full: Key, content: bytes, first: bool)
    requires forall k | SameKey(k, full) :: View(out, k) == if first then Some(File(content)) else View(img, k)
    requires forall k | !Under(k, full) :: View(out, k) == View(img, k)
    requires forall k | Below(k, full) :: View(out, k) == if first then None else View(img, k)
    ensures Again(img, out, full, content, first)
  {
    hide View, SameKey, Under, Below;
  }

  lemma AgainUpdates(img: bytes, out: bytes, dirs: set<Extent>, full: Key, content: bytes, first: bool)
    requires WellFormed(img, dirs) && full != [] && Again(img, out, full, content, first)
    ensures (forall k :: View(out, k) == if SameKey(k, full) then Some(File(content)) else View(img, k))
            <==> if first then forall k | Below(k, full) ::
              View(img, k) == None else View(img, full) == Some(File(content))
  {
    hide View, SameKey, Under, Below, WellFormed;
    SameKeySelf(full);
    forall k
      ensures SameKey(k, full) ==> View(img, k) == View(img, full)
      ensures (SameKey(k, full) || Below(k, full) || !Under(k, full)) && !(SameKey(k, full) && Below(k, full))
    {
      UnderCases(k, full);
      if SameKey(k, full) {
        SameKeyView(img, dirs, k, full);
      }
    }
  }

  lemma SameKeyView(img: bytes, dirs: set<Extent>, a: Key, b: Key)
    requires WellFormed(img, dirs) && SameKey(a, b) && b != []
    ensures View(img, a) == View(img, b)
  {
    hide WellFormed, View, ReadPvd, Lookup, CatalogOf, NodeAt;
    SameKeyLength(a, b);
    WellFormedSize(img, dirs);
    ViewIsLookup(img, dirs, a);
    ViewIsLookup(img, dirs, b);
    SameKeySameRecord(CatalogOf(img, dirs), ReadPvd(img).value.root, a, b);
  }

  lemma ListedPrior(img: bytes, dirs: set<Extent>, d: Extent, parent: Key, name: bytes) returns (prior: DirRecord)
    requires WellFormed(img, dirs) && DirAt(CatalogOf(img, dirs), ReadPvd(img).value.root, parent) == Some(d)
    requires d in dirs && View(img, parent + [name]).Some?
    ensures FirstMatch(CatalogOf(img, dirs)[d], name) == Some(prior)
    ensures Lookup(CatalogOf(img, dirs), ReadPvd(img).value.root, parent + [name]) == Some(prior)
  {
    hide ReadPvd, Sound, Listing, View, WellFormed, DirAt, FirstMatch;
    var full := parent + [name];
    assert full[..|full| - 1] == parent && full[|full| - 1] == name;
    ViewNoneIff(img, dirs, full);
    prior := FirstMatch(CatalogOf(img, dirs)[d], name).value;
  }
}
