/** Directory trees as maps from a directory's extent to its records, and what a path names in them. */
module Iso9660Catalog {
  import opened Bytes
  import opened Iso9660Record
  import opened Iso9660Image

  type Catalog = map<Extent, seq<DirRecord>>

  type Key = seq<bytes>

  predicate IsSubdir(r: DirRecord) {
    r.isDir && !r.IsDot()
  }

  ghost predicate NamesUnique(rs: seq<DirRecord>) {
    forall i, j | 0 <= i < j < |rs| && !rs[i].IsDot() && !rs[j].IsDot() :: !EqualFold(rs[i].Name(), rs[j].Name())
  }

  ghost predicate AllNamesUnique(cat: Catalog) {
    forall d | d in cat :: NamesUnique(cat[d])
  }

  ghost predicate SubdirsKnown(cat: Catalog, root: Extent) {
    forall d, r | d in cat && r in cat[d] && IsSubdir(r) :: r.Data() in cat && r.Data() != root
  }

  ghost predicate OffsetsUnique(cat: Catalog) {
    forall d, e, r: DirRecord, s: DirRecord | d in cat && e in cat && r in cat[d] && s in cat[e] && r.off == s.off ::
      d == e && r == s
  }

  ghost predicate ParentsUnique(cat: Catalog) {
    forall d, e, r, s | d in cat && e in cat && r in cat[d] && s in cat[e] && IsSubdir(r) && IsSubdir(s)
                        && r.Data() == s.Data() :: r.off == s.off
  }

  /** The catalog is a tree: names are unique, offsets identify records, every subdirectory has one parent. */
  ghost predicate Sound(cat: Catalog, root: Extent) {
    root in cat && AllNamesUnique(cat) && SubdirsKnown(cat, root) && OffsetsUnique(cat) && ParentsUnique(cat)
  }

  /** Paths are the same when their components match up to case. */
  predicate SameKey(a: Key, b: Key) {
    |a| == |b| && forall i | 0 <= i < |a| :: EqualFold(a[i], b[i])
  }

  /** The path is the given one or lies under it. */
  predicate Under(k: Key, full: Key) {
    |full| <= |k| && SameKey(k[..|full|], full)
  }

  /** The path lies strictly under the given one. */
  predicate Below(k: Key, full: Key) {
    |full| < |k| && SameKey(k[..|full|], full)
  }

  lemma UnderCases(k: Key, full: Key)
    ensures Under(k, full) <==> SameKey(k, full) || Below(k, full)
    ensures (SameKey(k, full) ==> |k| == |full|) && (Below(k, full) ==> |k| > |full|)
  {
    if |k| == |full| {
      assert k[..|full|] == k;
    }
  }

  lemma SameKeySelf(k: Key)
    ensures SameKey(k, k)
  {
  }

  /** The directory a path names, by its parent's listing; the root for the empty path. */
  function DirAt(cat: Catalog, root: Extent, key: Key): Option<Extent>
    decreases |key|, 1
  {
    if key == [] then Some(root)
    else
      match Lookup(cat, root, key)
      case None => None
      case Some(r) => if r.isDir then Some(r.Data()) else None
  }

  /** The record a nonempty path names. */
  function Lookup(cat: Catalog, root: Extent, key: Key): Option<DirRecord>
    requires key != []
    decreases |key|, 0
  {
    match DirAt(cat, root, key[..|key| - 1])
    case None => None
    case Some(d) => if d in cat then FirstMatch(cat[d], key[|key| - 1]) else None
  }

  // First matches.

  lemma {:induction false} FirstMatchFold(rs: seq<DirRecord>, a: bytes, b: bytes)
    requires EqualFold(a, b)
    ensures FirstMatch(rs, a) == FirstMatch(rs, b)
  {
    if rs != [] {
      FirstMatchFold(rs[1..], a, b);
    }
  }

  lemma {:induction false} FirstMatchIn(rs: seq<DirRecord>, name: bytes)
    ensures match FirstMatch(rs, name)
            case Some(r) => r in rs && !r.IsDot() && EqualFold(r.Name(), name)
            case None => forall r | r in rs && !r.IsDot() :: !EqualFold(r.Name(), name)
  {
    if rs != [] {
      FirstMatchIn(rs[1..], name);
    }
  }

  // A path and the record it names determine each other.

  lemma {:induction false} DirAtInCatalog(cat: Catalog, root: Extent, key: Key)
    requires Sound(cat, root)
    ensures DirAt(cat, root, key).Some? ==> DirAt(cat, root, key).value in cat
    decreases |key|
  {
    if key != [] {
      LookupInCatalog(cat, root, key);
    }
  }

  lemma LookupInCatalog(cat: Catalog, root: Extent, key: Key)
    requires Sound(cat, root) && key != []
    ensures Lookup(cat, root, key).Some? ==>
              var d := DirAt(cat, root, key[..|key| - 1]);
              && d.Some? && d.value in cat && Lookup(cat, root, key).value in cat[d.value]
              && !Lookup(cat, root, key).value.IsDot()
              && EqualFold(Lookup(cat, root, key).value.Name(), key[|key| - 1])
    decreases |key|, 0
  {
    DirAtInCatalog(cat, root, key[..|key| - 1]);
    var d := DirAt(cat, root, key[..|key| - 1]);
    if d.Some? {
      FirstMatchIn(cat[d.value], key[|key| - 1]);
    }
  }

  lemma {:induction false} SameKeySameDir(cat: Catalog, root: Extent, a: Key, b: Key)
    requires SameKey(a, b)
    ensures DirAt(cat, root, a) == DirAt(cat, root, b)
    decreases |a|
  {
    if a != [] {
      SameKeySameRecord(cat, root, a, b);
    }
  }

  lemma {:induction false} SameKeySameRecord(cat: Catalog, root: Extent, a: Key, b: Key)
    requires SameKey(a, b) && a != []
    ensures Lookup(cat, root, a) == Lookup(cat, root, b)
    decreases |a|, 0
  {
    SameKeySameDir(cat, root, a[..|a| - 1], b[..|b| - 1]);
    var d := DirAt(cat, root, a[..|a| - 1]);
    if d.Some? && d.value in cat {
      FirstMatchFold(cat[d.value], a[|a| - 1], b[|b| - 1]);
    }
  }

  lemma {:induction false} DirDeterminesKey(cat: Catalog, root: Extent, a: Key, b: Key)
    requires Sound(cat, root) && DirAt(cat, root, a).Some? && DirAt(cat, root, a) == DirAt(cat, root, b)
    ensures SameKey(a, b)
    decreases |a|
  {
    if a != [] {
      LookupInCatalog(cat, root, a);
    }
    if b != [] {
      LookupInCatalog(cat, root, b);
    }
    if a != [] && b != [] {
      RecordDeterminesKey(cat, root, a, b);
    }
  }

  lemma {:induction false} RecordDeterminesKey(cat: Catalog, root: Extent, a: Key, b: Key)
    requires Sound(cat, root) && a != [] && b != []
    requires Lookup(cat, root, a).Some? && Lookup(cat, root, b).Some?
    requires Lookup(cat, root, a).value.off == Lookup(cat, root, b).value.off
    ensures SameKey(a, b)
    decreases |a|, 0
  {
    LookupInCatalog(cat, root, a);
    LookupInCatalog(cat, root, b);
    DirDeterminesKey(cat, root, a[..|a| - 1], b[..|b| - 1]);
    SnocSameKey(a, b);
  }

  lemma SnocSameKey(a: Key, b: Key)
    requires a != [] && b != [] && SameKey(a[..|a| - 1], b[..|b| - 1]) && EqualFold(a[|a| - 1], b[|b| - 1])
    ensures SameKey(a, b)
  {
    forall i | 0 <= i < |a|
      ensures EqualFold(a[i], b[i])
    {
      if i < |a| - 1 {
        assert a[i] == a[..|a| - 1][i] && b[i] == b[..|b| - 1][i];
      }
    }
  }

  // Pointing a file's record at a new extent.

  function RetargetOne(r: DirRecord, off: nat, lba: nat, len: nat): DirRecord {
    if r.off == off then r.(lba := lba, dataLen := len) else r
  }

  function RetargetAll(rs: seq<DirRecord>, off: nat, lba: nat, len: nat): seq<DirRecord> {
    seq(|rs|, i requires 0 <= i < |rs| => RetargetOne(rs[i], off, lba, len))
  }

  function Retarget(cat: Catalog, off: nat, lba: nat, len: nat): Catalog {
    map d | d in cat :: RetargetAll(cat[d], off, lba, len)
  }

  lemma {:induction false} RetargetFirstMatch(rs: seq<DirRecord>, name: bytes, off: nat, lba: nat, len: nat)
    ensures FirstMatch(RetargetAll(rs, off, lba, len), name)
         == match FirstMatch(rs, name) case None => None case Some(r) => Some(RetargetOne(r, off, lba, len))
  {
    if rs != [] {
      RetargetFirstMatch(rs[1..], name, off, lba, len);
      assert RetargetAll(rs, off, lba, len)[1..] == RetargetAll(rs[1..], off, lba, len);
    }
  }

  lemma RetargetMember(rs: seq<DirRecord>, off: nat, lba: nat, len: nat, t: DirRecord) returns (r: DirRecord)
    requires t in RetargetAll(rs, off, lba, len)
    ensures r in rs && t == RetargetOne(r, off, lba, len)
  {
    var i :| 0 <= i < |rs| && RetargetAll(rs, off, lba, len)[i] == t;
    r := rs[i];
  }

  ghost predicate NoSubdirAt(cat: Catalog, off: nat) {
    forall d, r | d in cat && r in cat[d] && r.off == off :: !IsSubdir(r)
  }

  /** Lookups of the retargeted catalog: the same record, with its new extent if it is the target. */
  lemma {:induction false} RetargetLookup(cat: Catalog, root: Extent, off: nat, lba: nat, len: nat, key: Key)
    requires Sound(cat, root) && NoSubdirAt(cat, off) && key != []
    ensures Lookup(Retarget(cat, off, lba, len), root, key)
         == match Lookup(cat, root, key) case None => None case Some(r) => Some(RetargetOne(r, off, lba, len))
    decreases |key|, 1
  {
    hide Sound;
    var init := key[..|key| - 1];
    RetargetDirAt(cat, root, off, lba, len, init);
    DirAtInCatalog(cat, root, init);
    var d := DirAt(cat, root, init);
    if d.Some? {
      RetargetFirstMatch(cat[d.value], key[|key| - 1], off, lba, len);
    }
  }

  lemma {:induction false} RetargetDirAt(cat: Catalog, root: Extent, off: nat, lba: nat, len: nat, key: Key)
    requires Sound(cat, root) && NoSubdirAt(cat, off)
    ensures DirAt(Retarget(cat, off, lba, len), root, key) == DirAt(cat, root, key)
    decreases |key|, 2
  {
    hide Sound;
    if key != [] {
      RetargetLookup(cat, root, off, lba, len, key);
      LookupInCatalog(cat, root, key);
      var r := Lookup(cat, root, key);
      assert r.Some? && r.value.off == off ==> !r.value.isDir;
    }
  }

  lemma {:induction false} RetargetSound(cat: Catalog, root: Extent, off: nat, lba: nat, len: nat)
    requires Sound(cat, root) && NoSubdirAt(cat, off)
    ensures Sound(Retarget(cat, off, lba, len), root)
  {
    RetargetNames(cat, off, lba, len);
    RetargetSubdirs(cat, root, off, lba, len);
    RetargetOffsets(cat, off, lba, len);
    RetargetParents(cat, off, lba, len);
  }

  lemma RetargetParents(cat: Catalog, off: nat, lba: nat, len: nat)
    requires ParentsUnique(cat) && NoSubdirAt(cat, off)
    ensures ParentsUnique(Retarget(cat, off, lba, len))
  {
    var out := Retarget(cat, off, lba, len);
    forall d, e, r, s | d in out && e in out && r in out[d] && s in out[e] && IsSubdir(r) && IsSubdir(s)
      && r.Data() == s.Data()
      ensures r.off == s.off
    {
      hide ParentsUnique, NoSubdirAt, RetargetAll, IsSubdir;
      RetargetParent(cat, off, lba, len, d, e, r, s);
    }
  }

  lemma RetargetParent(cat: Catalog, off: nat, lba: nat, len: nat, d: Extent, e: Extent, r: DirRecord, s: DirRecord)
    requires ParentsUnique(cat) && NoSubdirAt(cat, off) && d in cat && e in cat
    requires r in RetargetAll(cat[d], off, lba, len) && s in RetargetAll(cat[e], off, lba, len)
    requires IsSubdir(r) && IsSubdir(s) && r.Data() == s.Data()
    ensures r.off == s.off
  {
    hide ParentsUnique, RetargetAll;
    var q := RetargetMember(cat[d], off, lba, len, r);
    var p := RetargetMember(cat[e], off, lba, len, s);
    ParentUnique(cat, d, e, q, p);
  }

  lemma ParentUnique(cat: Catalog, d: Extent, e: Extent, r: DirRecord, s: DirRecord)
    requires ParentsUnique(cat) && d in cat && e in cat && r in cat[d] && s in cat[e]
    requires IsSubdir(r) && IsSubdir(s) && r.Data() == s.Data()
    ensures r.off == s.off
  {
  }

  lemma RetargetOffsets(cat: Catalog, off: nat, lba: nat, len: nat)
    requires OffsetsUnique(cat)
    ensures OffsetsUnique(Retarget(cat, off, lba, len))
  {
    var out := Retarget(cat, off, lba, len);
    forall d, e, r: DirRecord, s: DirRecord | d in out && e in out && r in out[d] && s in out[e] && r.off == s.off
      ensures d == e && r == s
    {
      hide OffsetsUnique, RetargetAll;
      RetargetOffset(cat, off, lba, len, d, e, r, s);
    }
  }

  lemma RetargetOffset(cat: Catalog, off: nat, lba: nat, len: nat, d: Extent, e: Extent, r: DirRecord, s: DirRecord)
    requires OffsetsUnique(cat) && d in cat && e in cat && r.off == s.off
    requires r in RetargetAll(cat[d], off, lba, len) && s in RetargetAll(cat[e], off, lba, len)
    ensures d == e && r == s
  {
    hide OffsetsUnique;
    var q := RetargetMember(cat[d], off, lba, len, r);
    var p := RetargetMember(cat[e], off, lba, len, s);
    OffsetUnique(cat, d, e, q, p);
  }

  lemma OffsetUnique(cat: Catalog, d: Extent, e: Extent, r: DirRecord, s: DirRecord)
    requires OffsetsUnique(cat) && d in cat && e in cat && r in cat[d] && s in cat[e] && r.off == s.off
    ensures d == e && r == s
  {
  }

  lemma RetargetNames(cat: Catalog, off: nat, lba: nat, len: nat)
    requires AllNamesUnique(cat)
    ensures AllNamesUnique(Retarget(cat, off, lba, len))
  {
    var out := Retarget(cat, off, lba, len);
    forall d | d in out
      ensures NamesUnique(out[d])
    {
      forall i, j | 0 <= i < j < |out[d]| && !out[d][i].IsDot() && !out[d][j].IsDot()
        ensures !EqualFold(out[d][i].Name(), out[d][j].Name())
      {
        assert !EqualFold(cat[d][i].Name(), cat[d][j].Name());
      }
    }
  }

  lemma RetargetSubdirs(cat: Catalog, root: Extent, off: nat, lba: nat, len: nat)
    requires SubdirsKnown(cat, root) && NoSubdirAt(cat, off)
    ensures SubdirsKnown(Retarget(cat, off, lba, len), root)
  {
    var out := Retarget(cat, off, lba, len);
    forall d, r | d in out && r in out[d] && IsSubdir(r)
      ensures r.Data() in out && r.Data() != root
    {
      var q := RetargetMember(cat[d], off, lba, len, r);
    }
  }

  // Inserting one record.

  function InsertAt(rs: seq<DirRecord>, i: nat, r: DirRecord): seq<DirRecord>
    requires i <= |rs|
  {
    rs[..i] + [r] + rs[i..]
  }

  lemma {:induction false} FirstMatchConcat(a: seq<DirRecord>, b: seq<DirRecord>, name: bytes)
    ensures FirstMatch(a + b, name) == if FirstMatch(a, name).Some? then FirstMatch(a, name) else FirstMatch(b, name)
  {
    if a == [] {
      assert a + b == b;
    } else {
      assert (a + b)[1..] == a[1..] + b;
      FirstMatchConcat(a[1..], b, name);
    }
  }

  lemma InsertFirstMatch(rs: seq<DirRecord>, i: nat, r: DirRecord, name: bytes)
    requires i <= |rs| && !r.IsDot() && FirstMatch(rs, r.Name()).None?
    ensures FirstMatch(InsertAt(rs, i, r), name) == if EqualFold(r.Name(), name) then Some(r) else FirstMatch(rs, name)
  {
    assert rs == rs[..i] + rs[i..];
    FirstMatchConcat(rs[..i], rs[i..], name);
    FirstMatchConcat(rs[..i], [r] + rs[i..], name);
    assert InsertAt(rs, i, r) == rs[..i] + ([r] + rs[i..]);
    assert ([r] + rs[i..])[1..] == rs[i..];
    if EqualFold(r.Name(), name) {
      FirstMatchFold(rs, r.Name(), name);
    }
  }

  ghost predicate FreshOffset(cat: Catalog, off: nat) {
    forall d, r | d in cat && r in cat[d] :: r.off != off
  }

  ghost predicate CanInsert(cat: Catalog, dir: Extent, i: nat, r: DirRecord) {
    && dir in cat && i <= |cat[dir]| && !r.IsDot() && !r.isDir
    && FirstMatch(cat[dir], r.Name()).None? && FreshOffset(cat, r.off)
  }

  lemma {:induction false} InsertLookup(cat: Catalog, root: Extent, dir: Extent, i: nat, r: DirRecord, key: Key)
    requires Sound(cat, root) && CanInsert(cat, dir, i, r) && key != []
    ensures Lookup(cat[dir := InsertAt(cat[dir], i, r)], root, key)
         == if DirAt(cat, root, key[..|key| - 1]) == Some(dir) && EqualFold(r.Name(), key[|key| - 1]) then Some(r)
            else Lookup(cat, root, key)
    decreases |key|, 1
  {
    hide Sound;
    var init := key[..|key| - 1];
    InsertDirAt(cat, root, dir, i, r, init);
    InsertFirstMatch(cat[dir], i, r, key[|key| - 1]);
  }

  lemma {:induction false} InsertDirAt(cat: Catalog, root: Extent, dir: Extent, i: nat, r: DirRecord, key: Key)
    requires Sound(cat, root) && CanInsert(cat, dir, i, r)
    ensures DirAt(cat[dir := InsertAt(cat[dir], i, r)], root, key) == DirAt(cat, root, key)
    decreases |key|, 2
  {
    hide Sound;
    if key != [] {
      InsertLookup(cat, root, dir, i, r, key);
      if DirAt(cat, root, key[..|key| - 1]) == Some(dir) && EqualFold(r.Name(), key[|key| - 1]) {
        FirstMatchFold(cat[dir], r.Name(), key[|key| - 1]);
      }
    }
  }

  lemma InsertNamesUnique(rs: seq<DirRecord>, i: nat, r: DirRecord)
    requires NamesUnique(rs) && i <= |rs| && FirstMatch(rs, r.Name()).None?
    ensures NamesUnique(InsertAt(rs, i, r))
  {
    hide EqualFold, DirRecord.Name, DirRecord.IsDot, FirstMatch;
    forall k, l | 0 <= k < l < |rs| + 1
      ensures var t := InsertAt(rs, i, r); !t[k].IsDot() && !t[l].IsDot() ==> !EqualFold(t[k].Name(), t[l].Name())
    {
      hide EqualFold, DirRecord.Name, DirRecord.IsDot, FirstMatch, NamesUnique;
      var a, b := if k < i then k else k - 1, if l < i then l else l - 1;
      if k == i {
        InsertedApart(rs, r, b);
      } else if l == i {
        InsertedApart(rs, r, a);
      } else {
        NamesApart(rs, a, b);
      }
    }
  }

  lemma NamesApart(rs: seq<DirRecord>, a: nat, b: nat)
    requires NamesUnique(rs) && a < b < |rs|
    ensures !rs[a].IsDot() && !rs[b].IsDot() ==> !EqualFold(rs[a].Name(), rs[b].Name())
  {
  }

  lemma InsertedApart(rs: seq<DirRecord>, r: DirRecord, k: nat)
    requires k < |rs| && FirstMatch(rs, r.Name()).None?
    ensures !rs[k].IsDot() ==> !EqualFold(rs[k].Name(), r.Name()) && !EqualFold(r.Name(), rs[k].Name())
  {
    FirstMatchIn(rs, r.Name());
  }

  lemma {:induction false} InsertSound(cat: Catalog, root: Extent, dir: Extent, i: nat, r: DirRecord)
    requires Sound(cat, root) && CanInsert(cat, dir, i, r)
    ensures Sound(cat[dir := InsertAt(cat[dir], i, r)], root)
  {
    InsertNamesUnique(cat[dir], i, r);
    InsertMembers(cat[dir], i, r);
    InsertSubdirs(cat, root, dir, i, r);
    InsertOffsets(cat, dir, i, r);
    InsertParents(cat, dir, i, r);
    var out := cat[dir := InsertAt(cat[dir], i, r)];
    forall d | d in out
      ensures NamesUnique(out[d])
    {
      assert d != dir ==> out[d] == cat[d];
    }
  }

  lemma InsertSubdirs(cat: Catalog, root: Extent, dir: Extent, i: nat, r: DirRecord)
    requires SubdirsKnown(cat, root) && CanInsert(cat, dir, i, r)
    ensures SubdirsKnown(cat[dir := InsertAt(cat[dir], i, r)], root)
  {
    InsertMembers(cat[dir], i, r);
  }

  lemma InsertOffsets(cat: Catalog, dir: Extent, i: nat, r: DirRecord)
    requires OffsetsUnique(cat) && CanInsert(cat, dir, i, r)
    ensures OffsetsUnique(cat[dir := InsertAt(cat[dir], i, r)])
  {
    InsertMembers(cat[dir], i, r);
    var out := cat[dir := InsertAt(cat[dir], i, r)];
    forall d, e, p: DirRecord, q: DirRecord | d in out && e in out && p in out[d] && q in out[e] && p.off == q.off
      ensures d == e && p == q
    {
      hide OffsetsUnique, InsertAt;
      assert (d == dir && p == r) || p in cat[d];
      assert (e == dir && q == r) || q in cat[e];
      if p in cat[d] && q in cat[e] {
        OffsetUnique(cat, d, e, p, q);
      }
    }
  }

  lemma InsertParents(cat: Catalog, dir: Extent, i: nat, r: DirRecord)
    requires ParentsUnique(cat) && CanInsert(cat, dir, i, r)
    ensures ParentsUnique(cat[dir := InsertAt(cat[dir], i, r)])
  {
    InsertMembers(cat[dir], i, r);
    var out := cat[dir := InsertAt(cat[dir], i, r)];
    forall d, e, p, q | d in out && e in out && p in out[d] && q in out[e] && IsSubdir(p) && IsSubdir(q)
      && p.Data() == q.Data()
      ensures p.off == q.off
    {
      hide ParentsUnique, InsertAt;
      assert p in cat[d] && q in cat[e];
      ParentUnique(cat, d, e, p, q);
    }
  }

  lemma InsertMembers(rs: seq<DirRecord>, i: nat, r: DirRecord)
    requires i <= |rs|
    ensures forall t :: t in InsertAt(rs, i, r) <==> t == r || t in rs
  {
    assert rs == rs[..i] + rs[i..];
  }
}
