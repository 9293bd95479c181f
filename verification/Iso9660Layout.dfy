/** How directory records lie in a directory's bytes, and what small changes of those bytes do to the listing. */
module Iso9660Layout {
  import opened Bytes
  import opened Iso9660Record
  import opened Iso9660Image
  import opened Iso9660Catalog

  /** A whole record at pos: inside its sector, its identifier inside the record. */
  predicate RecordAt(data: bytes, pos: nat) {
    && pos < |data| && NextSector(pos) <= |data|
    && 33 <= data[pos] && pos + data[pos] <= NextSector(pos)
    && data[pos + 32] as int + 33 <= data[pos]
  }

  predicate ZerosToSectorEnd(data: bytes, pos: nat) {
    NextSector(pos) <= |data| && forall i | pos <= i < NextSector(pos) :: data[i] == 0
  }

  /** From pos to the end, every sector is a run of records followed by zeros. */
  predicate Framed(data: bytes, pos: nat)
    decreases |data| - pos
  {
    if pos >= |data| then pos == |data|
    else if data[pos] == 0 then ZerosToSectorEnd(data, pos) && Framed(data, NextSector(pos))
    else RecordAt(data, pos) && Framed(data, pos + data[pos])
  }

  function Records(data: bytes, base: nat, pos: nat): seq<DirRecord> {
    match Scan(data, base, pos)
    case Err(_) => []
    case Ok(rs) => rs
  }

  /** The record r is the one parsed at its own offset, at or after pos. */
  ghost predicate Placed(data: bytes, base: nat, pos: nat, r: DirRecord) {
    && base + pos <= r.off && 33 <= r.recordLen && r.off + r.recordLen <= base + |data|
    && ParseDirRecord(data[r.off - base..], r.off) == Record(r)
  }

  /** The record at the head of framed bytes. */
  function Head(data: bytes, base: nat, pos: nat): (r: DirRecord)
    requires RecordAt(data, pos)
    ensures ParseDirRecord(data[pos..], base + pos) == Record(r)
    ensures r.recordLen == data[pos] && r.off == base + pos
  {
    assert data[pos..][0] == data[pos] && data[pos..][32] == data[pos + 32];
    ParseDirRecord(data[pos..], base + pos).rec
  }

  /** One step of the scan over framed bytes. */
  lemma ScanStep(data: bytes, base: nat, pos: nat)
    requires Framed(data, pos)
    ensures pos >= |data| ==> Scan(data, base, pos) == Ok([])
    ensures pos < |data| && data[pos] == 0 ==> Scan(data, base, pos) == Scan(data, base, NextSector(pos))
    ensures pos < |data| && data[pos] != 0 && Scan(data, base, pos + data[pos]).Ok? ==>
              Scan(data, base, pos) == Ok([Head(data, base, pos)] + Scan(data, base, pos + data[pos]).value)
  {
    hide Framed, ParseDirRecord, Head;
    if pos < |data| {
      if data[pos] == 0 {
        ZeroIsNoRecord(data, base, pos);
      } else {
        FramedHead(data, pos);
        var r := Head(data, base, pos);
      }
    }
  }

  lemma ZeroIsNoRecord(data: bytes, base: nat, pos: nat)
    requires pos < |data| && data[pos] == 0
    ensures ParseDirRecord(data[pos..], base + pos) == NoRecord
  {
    assert data[pos..][0] == 0;
  }

  lemma FramedHead(data: bytes, pos: nat)
    requires Framed(data, pos) && pos < |data| && data[pos] != 0
    ensures RecordAt(data, pos) && Framed(data, pos + data[pos])
  {
  }

  lemma {:induction false} ScanFramed(data: bytes, base: nat, pos: nat)
    requires Framed(data, pos)
    ensures Scan(data, base, pos) == Ok(Records(data, base, pos))
    ensures forall r | r in Records(data, base, pos) :: Placed(data, base, pos, r)
    decreases |data| - pos
  {
    hide ParseDirRecord, Head;
    ScanStep(data, base, pos);
    if pos < |data| {
      if data[pos] == 0 {
        ScanFramed(data, base, NextSector(pos));
        hide Scan;
      } else {
        ScanFramed(data, base, pos + data[pos]);
        hide Scan;
        assert Records(data, base, pos) == [Head(data, base, pos)] + Records(data, base, pos + data[pos]);
      }
    }
  }

  /** The listing from pos on: the head's record, then those behind it. */
  lemma RecordsStep(data: bytes, base: nat, pos: nat)
    requires Framed(data, pos)
    ensures pos >= |data| ==> Records(data, base, pos) == []
    ensures pos < |data| && data[pos] == 0 ==> Records(data, base, pos) == Records(data, base, NextSector(pos))
    ensures pos < |data| && data[pos] != 0 ==>
              Records(data, base, pos) == [Head(data, base, pos)] + Records(data, base, pos + data[pos])
  {
    hide ParseDirRecord, Head;
    ScanStep(data, base, pos);
    if pos < |data| {
      if data[pos] == 0 {
        ScanFramed(data, base, NextSector(pos));
      } else {
        ScanFramed(data, base, pos + data[pos]);
      }
    }
    hide Scan;
  }

  lemma FramedZeros(data: bytes, pos: nat)
    requires ZerosToSectorEnd(data, pos) && Framed(data, NextSector(pos))
    ensures Framed(data, pos)
  {
    ZerosStart(data, pos);
  }

  // Listings are in the order of their offsets.

  ghost predicate InOffsetOrder(rs: seq<DirRecord>) {
    forall a, b | 0 <= a < b < |rs| :: rs[a].off < rs[b].off
  }

  lemma {:induction false} RecordsInOrder(data: bytes, base: nat, pos: nat)
    requires Framed(data, pos)
    ensures InOffsetOrder(Records(data, base, pos))
    decreases |data| - pos
  {
    hide Records, Head, ParseDirRecord;
    RecordsStep(data, base, pos);
    if pos < |data| {
      if data[pos] == 0 {
        FramedZero(data, pos);
        RecordsInOrder(data, base, NextSector(pos));
      } else {
        FramedHead(data, pos);
        var next := pos + data[pos];
        RecordsInOrder(data, base, next);
        ScanFramed(data, base, next);
        var head, rest := Head(data, base, pos), Records(data, base, next);
        assert forall b | 0 <= b < |rest| :: Placed(data, base, next, rest[b]);
      }
    }
  }

  /** Only the bytes from pos on matter. */
  lemma {:induction false} ScanLocal(data: bytes, other: bytes, base: nat, pos: nat)
    requires |data| == |other| && (pos <= |data| ==> data[pos..] == other[pos..])
    ensures Scan(data, base, pos) == Scan(other, base, pos)
    ensures Framed(data, pos) == Framed(other, pos)
    decreases |data| - pos
  {
    hide ParseDirRecord;
    if pos < |data| {
      TailsAgree(data, other, pos);
      hide RecordAt, ZerosToSectorEnd;
      ScanLocal(data, other, base, NextSector(pos));
      if data[pos] != 0 {
        ScanLocal(data, other, base, pos + data[pos]);
      }
      match ParseDirRecord(data[pos..], base + pos)
      case Record(rec) =>
        ParsedLength(data[pos..], base + pos);
      case _ =>
    }
  }

  lemma ParsedLength(raw: bytes, off: nat)
    requires ParseDirRecord(raw, off).Record?
    ensures |raw| > 0 && raw[0] != 0 && ParseDirRecord(raw, off).rec.recordLen == raw[0]
            && ParseDirRecord(raw, off).rec.off == off
  {
  }

  lemma TailsAgree(data: bytes, other: bytes, pos: nat)
    requires |data| == |other| && pos < |data| && data[pos..] == other[pos..]
    ensures forall i | pos <= i < |data| :: data[i] == other[i]
    ensures forall i | pos <= i <= |data| :: data[i..] == other[i..]
    ensures RecordAt(data, pos) == RecordAt(other, pos) && ZerosToSectorEnd(data, pos) == ZerosToSectorEnd(other, pos)
  {
    assert forall i | pos <= i < |data| :: data[i] == data[pos..][i - pos] && other[i] == other[pos..][i - pos];
  }

  // Changing one record in place.

  function Patch(data: bytes, at: nat, piece: bytes): (p: bytes)
    requires at + |piece| <= |data|
    ensures |p| == |data|
  {
    data[..at] + piece + data[at + |piece|..]
  }

  /** A patch leaves the bytes before and after it alone. */
  lemma PatchFrame(data: bytes, at: nat, piece: bytes, a: nat, b: nat)
    requires at + |piece| <= |data| && a <= b <= |data| && (b <= at || at + |piece| <= a)
    ensures Patch(data, at, piece)[a..b] == data[a..b]
  {
  }

  lemma PatchInside(data: bytes, at: nat, piece: bytes)
    requires at + |piece| <= |data|
    ensures Patch(data, at, piece)[at..at + |piece|] == piece
  {
  }

  /** The head record depends on its own bytes alone. */
  lemma HeadLocal(data: bytes, other: bytes, base: nat, pos: nat)
    requires RecordAt(data, pos) && |other| == |data| && other[pos..pos + data[pos]] == data[pos..pos + data[pos]]
    ensures RecordAt(other, pos) && other[pos] == data[pos] && Head(other, base, pos) == Head(data, base, pos)
  {
    var n := data[pos] as nat;
    var u, v := data[pos..], other[pos..];
    assert u[..n] == data[pos..pos + n] && v[..n] == other[pos..pos + n];
    assert u[0] == u[..n][0] == v[0] && u[32] == u[..n][32] == v[32];
    assert u[0] == data[pos] && v[0] == other[pos] && u[32] == data[pos + 32] && v[32] == other[pos + 32];
    ParseLocal(u, v, base + pos);
  }

  lemma SameZeros(data: bytes, other: bytes, pos: nat)
    requires pos < |data| == |other| && NextSector(pos) <= |data|
             && data[pos..NextSector(pos)] == other[pos..NextSector(pos)]
    ensures ZerosToSectorEnd(data, pos) ==> ZerosToSectorEnd(other, pos) && other[pos] == 0
  {
    var u, v := data[pos..NextSector(pos)], other[pos..NextSector(pos)];
    if ZerosToSectorEnd(data, pos) {
      forall i | pos <= i < NextSector(pos)
        ensures other[i] == 0
      {
        assert other[i] == v[i - pos] == u[i - pos] == data[i];
      }
    }
  }

  function ExtentFields(lba: int, len: int): (b: bytes)
    requires 0 <= lba < U32 && 0 <= len < U32
    ensures |b| == 16
  {
    WriteBoth32(lba) + WriteBoth32(len)
  }

  lemma HeadRetarget(data: bytes, base: nat, pos: nat, lba: int, len: int)
    requires RecordAt(data, pos) && 0 <= lba < U32 && 0 <= len < U32
    ensures var out := Patch(data, pos + 2, ExtentFields(lba, len));
            && RecordAt(out, pos) && out[pos] == data[pos]
            && Head(out, base, pos) == Head(data, base, pos).(lba := lba, dataLen := len)
  {
    hide ParseDirRecord, ReadBoth32, WriteBoth32, ExtentFields, Framed;
    var out := Patch(data, pos + 2, ExtentFields(lba, len));
    assert out[pos] == data[pos] && out[pos + 25] == data[pos + 25] && out[pos + 32] == data[pos + 32];
    assert RecordAt(out, pos);
    var u, v := data[pos..], out[pos..];
    PatchedFields(data, pos, lba, len);
    FieldRead(v, 2, lba);
    FieldRead(v, 10, len);
    assert u[18..] == v[18..];
    SameSlices(u, v);
    assert u[0] == v[0] == data[pos] && u[25] == v[25] && u[32] == v[32];
    assert ParseDirRecord(u, base + pos) == Record(Head(data, base, pos));
    HeadRetargetParse(u, v, base + pos, lba, len);
  }

  lemma SameSlices(u: bytes, v: bytes)
    requires |u| == |v| >= 18 && u[18..] == v[18..]
    ensures forall i, j | 18 <= i <= j <= |u| :: u[i..j] == v[i..j]
  {
    forall i, j | 18 <= i <= j <= |u|
      ensures u[i..j] == v[i..j]
    {
      SliceOfTail(u, i, j);
      SliceOfTail(v, i, j);
    }
  }

  lemma SliceOfTail(u: bytes, i: nat, j: nat)
    requires 18 <= i <= j <= |u|
    ensures u[i..j] == u[18..][i - 18..j - 18]
  {
    var tail := u[18..];
    assert forall k | 0 <= k < |tail| :: tail[k] == u[18 + k];
    var a, b := u[i..j], tail[i - 18..j - 18];
    assert forall k | 0 <= k < j - i :: a[k] == u[i + k] && b[k] == tail[i - 18 + k];
  }

  lemma PatchedFields(data: bytes, pos: nat, lba: int, len: int)
    requires pos + 18 <= |data| && 0 <= lba < U32 && 0 <= len < U32
    ensures var v := Patch(data, pos + 2, ExtentFields(lba, len))[pos..];
            v[2..10] == WriteBoth32(lba) && v[10..18] == WriteBoth32(len)
  {
    var out := Patch(data, pos + 2, ExtentFields(lba, len));
    assert out[pos + 2..pos + 18] == ExtentFields(lba, len);
    assert out[pos..][2..18] == ExtentFields(lba, len);
    assert out[pos..][2..10] == out[pos..][2..18][..8] && out[pos..][10..18] == out[pos..][2..18][8..];
  }

  lemma HeadRetargetParse(u: bytes, v: bytes, off: nat, lba: int, len: int)
    requires |u| == |v| > 0 && 33 <= u[0] <= |u| && v[0] == u[0] && v[25] == u[25] && v[32] == u[32]
    requires ParseDirRecord(u, off).Record?
    requires ReadBoth32(v, 2) == lba && ReadBoth32(v, 10) == len
    requires forall i, j | 18 <= i <= j <= u[0] as int :: u[i..j] == v[i..j]
    ensures ParseDirRecord(v, off) == Record(ParseDirRecord(u, off).rec.(lba := lba, dataLen := len))
  {
  }

  lemma RetargetCons(h: DirRecord, t: seq<DirRecord>, off: nat, lba: nat, len: nat)
    ensures RetargetAll([h] + t, off, lba, len) == [RetargetOne(h, off, lba, len)] + RetargetAll(t, off, lba, len)
  {
  }

  lemma RetargetNone(rs: seq<DirRecord>, off: nat, lba: nat, len: nat)
    requires forall r | r in rs :: r.off != off
    ensures RetargetAll(rs, off, lba, len) == rs
  {
  }

  /** Writing a new extent into one record changes exactly that record of the listing. */
  lemma {:induction false} ScanRetarget(data: bytes, base: nat, pos: nat, r: DirRecord, lba: int, len: int)
    requires Framed(data, pos) && r in Records(data, base, pos) && 0 <= lba < U32 && 0 <= len < U32
    ensures base + pos <= r.off && r.off + 33 <= base + |data|
    ensures var out := Patch(data, r.off - base + 2, ExtentFields(lba, len));
            && Framed(out, pos)
            && Records(out, base, pos) == RetargetAll(Records(data, base, pos), r.off, lba, len)
    decreases |data| - pos
  {
    hide ParseDirRecord, Head, RetargetAll, Records, ZerosToSectorEnd, Patch, ExtentFields;
    ScanFramed(data, base, pos);
    RecordsStep(data, base, pos);
    var out := Patch(data, r.off - base + 2, ExtentFields(lba, len));
    if data[pos] == 0 {
      ScanFramed(data, base, NextSector(pos));
      ScanRetarget(data, base, NextSector(pos), r, lba, len);
      PatchFrame(data, r.off - base + 2, ExtentFields(lba, len), pos, NextSector(pos));
      SameZeros(data, out, pos);
      RecordsStep(out, base, pos);
    } else {
      ScanRetargetRecord(data, base, pos, r, lba, len);
    }
  }

  lemma ScanRetargetRecord(data: bytes, base: nat, pos: nat, r: DirRecord, lba: int, len: int)
    requires Framed(data, pos) && r in Records(data, base, pos) && 0 <= lba < U32 && 0 <= len < U32
    requires pos < |data| && data[pos] != 0 && base + pos <= r.off && r.off + 33 <= base + |data|
    ensures var out := Patch(data, r.off - base + 2, ExtentFields(lba, len));
            && Framed(out, pos)
            && Records(out, base, pos) == RetargetAll(Records(data, base, pos), r.off, lba, len)
    decreases |data| - pos, 0
  {
    hide ParseDirRecord, Head, RetargetAll, Records, ZerosToSectorEnd, Patch, ExtentFields;
    var next := pos + data[pos];
    var at, piece := r.off - base + 2, ExtentFields(lba, len);
    var out := Patch(data, at, piece);
    RecordsStep(data, base, pos);
    ScanFramed(data, base, next);
    RetargetCons(Head(data, base, pos), Records(data, base, next), r.off, lba, len);
    if r.off == base + pos {
      HeadRetarget(data, base, pos, lba, len);
      PatchFrame(data, at, piece, next, |data|);
      TailFrom(data, out, next);
      ScanLocal(data, out, base, next);
      RetargetNone(Records(data, base, next), r.off, lba, len);
      assert Records(out, base, next) == Records(data, base, next) by { SameScanSameRecords(data, out, base, next); }
    } else {
      assert r in Records(data, base, next);
      ScanRetarget(data, base, next, r, lba, len);
      PatchFrame(data, at, piece, pos, next);
      HeadLocal(data, out, base, pos);
    }
    RecordsStep(out, base, pos);
  }

  lemma TailFrom(data: bytes, out: bytes, pos: nat)
    requires |data| == |out| && pos <= |data| && out[pos..|data|] == data[pos..|data|]
    ensures data[pos..] == out[pos..]
  {
    assert data[pos..] == data[pos..|data|] && out[pos..] == out[pos..|out|];
  }

  lemma SameScanSameRecords(data: bytes, out: bytes, base: nat, pos: nat)
    requires Scan(data, base, pos) == Scan(out, base, pos)
    ensures Records(data, base, pos) == Records(out, base, pos)
  {
  }

  // Inserting a record into free space.

  /** A record that can be written: its length byte is exact and its identifier fits. */
  predicate Writable(record: bytes) {
    && 33 <= |record| < 256 && record[0] == |record| && record[32] as int + 33 <= |record|
  }

  /** Where the slot is: zero bytes inside one sector. */
  lemma {:induction false} SlotFree(data: bytes, need: nat, pos: nat)
    requires Framed(data, pos) && FindSlot(data, need, pos).Some? && need > 0
    ensures var slot := FindSlot(data, need, pos).value;
            && pos <= slot < |data| && slot + need <= NextSector(slot) <= |data| && ZerosToSectorEnd(data, slot)
    decreases |data| - pos
  {
    if data[pos] != 0 {
      SlotFree(data, need, pos + data[pos]);
    } else if NextSector(pos) - pos < need {
      SlotFree(data, need, NextSector(pos));
    }
  }

  lemma HeadOfPatch(data: bytes, base: nat, slot: nat, record: bytes)
    requires Writable(record) && slot + |record| <= NextSector(slot) <= |data|
    ensures var out := Patch(data, slot, record);
            && RecordAt(out, slot) && out[slot] == |record|
            && ParseDirRecord(record, base + slot) == Record(Head(out, base, slot))
  {
    var out := Patch(data, slot, record);
    assert out[slot] == record[0] && out[slot + 32] == record[32];
    var v := out[slot..];
    assert v[..|record|] == record == record[..|record|];
    ParseLocal(record, v, base + slot);
  }

  /** A patch into the zeros at the end of a sector leaves zeros behind it. */
  lemma PatchZeros(data: bytes, slot: nat, record: bytes)
    requires ZerosToSectorEnd(data, slot) && slot + |record| < NextSector(slot)
    ensures var out := Patch(data, slot, record);
            ZerosToSectorEnd(out, slot + |record|) && NextSector(slot + |record|) == NextSector(slot)
  {
  }

  /** Writing a record into the slot inserts exactly that record into the listing. */
  lemma {:induction false} ScanInsert(data: bytes, base: nat, pos: nat, record: bytes) returns (i: nat)
    requires Framed(data, pos) && Writable(record) && FindSlot(data, |record|, pos).Some?
    ensures var slot := FindSlot(data, |record|, pos).value;
            && pos <= slot && slot + |record| <= |data| && i <= |Records(data, base, pos)|
            && var out := Patch(data, slot, record);
            && Framed(out, pos) && RecordAt(out, slot)
               && ParseDirRecord(record, base + slot) == Record(Head(out, base, slot))
            && Records(out, base, pos) == InsertAt(Records(data, base, pos), i, Head(out, base, slot))
    decreases |data| - pos
  {
    hide ParseDirRecord, Head, Records, Patch, ZerosToSectorEnd, Framed, InsertAt, RecordAt, Writable;
    var slot := FindSlot(data, |record|, pos).value;
    WritableLength(record);
    SlotFree(data, |record|, pos);
    HeadOfPatch(data, base, slot, record);
    var out := Patch(data, slot, record);
    RecordsStep(data, base, pos);
    if data[pos] != 0 {
      var next := pos + data[pos];
      FramedHead(data, pos);
      i := ScanInsert(data, base, next, record);
      InsertCons(Head(data, base, pos), Records(data, base, next), i, Head(out, base, slot));
      i := i + 1;
      SlotFree(data, |record|, next);
      PatchFrame(data, slot, record, pos, next);
      HeadLocal(data, out, base, pos);
      FramedRecord(out, pos);
      RecordsStep(out, base, pos);
    } else if NextSector(pos) - pos < |record| {
      FramedZero(data, pos);
      i := ScanInsert(data, base, NextSector(pos), record);
      SlotFree(data, |record|, NextSector(pos));
      PatchFrame(data, slot, record, pos, NextSector(pos));
      SameZeros(data, out, pos);
      FramedZeros(out, pos);
      RecordsStep(out, base, pos);
    } else {
      i := 0;
      ScanInsertHere(data, base, pos, record);
      InsertFirst(Records(data, base, pos), Head(out, base, slot));
    }
  }

  lemma InsertCons(h: DirRecord, rs: seq<DirRecord>, i: nat, r: DirRecord)
    requires i <= |rs|
    ensures InsertAt([h] + rs, i + 1, r) == [h] + InsertAt(rs, i, r)
  {
  }

  lemma InsertFirst(rs: seq<DirRecord>, r: DirRecord)
    ensures InsertAt(rs, 0, r) == [r] + rs
  {
  }

  lemma WritableLength(record: bytes)
    requires Writable(record)
    ensures 33 <= |record| < 256
  {
  }

  lemma ScanInsertHere(data: bytes, base: nat, pos: nat, record: bytes)
    requires Framed(data, pos) && Writable(record) && pos < |data| && data[pos] == 0
    requires pos + |record| <= NextSector(pos) <= |data|
    ensures var out := Patch(data, pos, record);
            && Framed(out, pos) && RecordAt(out, pos)
            && Records(out, base, pos) == [Head(out, base, pos)] + Records(data, base, pos)
  {
    hide ParseDirRecord, Head, Records, Patch, ZerosToSectorEnd, Framed;
    var out := Patch(data, pos, record);
    HeadOfPatch(data, base, pos, record);
    AfterSlot(data, base, pos, record);
    FramedRecord(out, pos);
    RecordsStep(out, base, pos);
  }

  lemma AfterSlot(data: bytes, base: nat, pos: nat, record: bytes)
    requires Framed(data, pos) && pos < |data| && data[pos] == 0
    requires 0 < |record| && pos + |record| <= NextSector(pos) <= |data|
    ensures Framed(Patch(data, pos, record), pos + |record|)
    ensures Records(Patch(data, pos, record), base, pos + |record|) == Records(data, base, pos)
  {
    hide ParseDirRecord, Head, Records, Patch, ZerosToSectorEnd, Framed;
    var out, next, end := Patch(data, pos, record), pos + |record|, NextSector(pos);
    FramedZero(data, pos);
    RecordsStep(data, base, pos);
    PatchFrame(data, pos, record, end, |data|);
    hide NextSector;
    TailFrom(data, out, end);
    ScanLocal(data, out, base, end);
    SameScanSameRecords(data, out, base, end);
    if next < end {
      PatchZeros(data, pos, record);
      ZerosStart(out, next);
      FramedZeros(out, next);
      RecordsStep(out, base, next);
    }
  }

  lemma FramedRecord(data: bytes, pos: nat)
    requires RecordAt(data, pos) && Framed(data, pos + data[pos])
    ensures Framed(data, pos)
  {
  }

  lemma ZerosStart(data: bytes, pos: nat)
    requires ZerosToSectorEnd(data, pos)
    ensures pos < |data| && data[pos] == 0
  {
  }

  // Deleting a record.

  /** Deleting the record at off hides it and the records behind it in its sector. */
  predicate HiddenBy(off: nat, r: DirRecord) {
    off <= r.off && r.off < NextSector(off)
  }

  function Remaining(rs: seq<DirRecord>, off: nat): seq<DirRecord> {
    if rs == [] then []
    else if HiddenBy(off, rs[0]) then Remaining(rs[1..], off)
    else [rs[0]] + Remaining(rs[1..], off)
  }

  lemma RemainingCons(h: DirRecord, t: seq<DirRecord>, off: nat)
    ensures Remaining([h] + t, off) == if HiddenBy(off, h) then Remaining(t, off) else [h] + Remaining(t, off)
  {
    assert ([h] + t)[1..] == t;
  }

  lemma {:induction false} RemainingNone(rs: seq<DirRecord>, off: nat)
    requires forall r | r in rs :: !HiddenBy(off, r)
    ensures Remaining(rs, off) == rs
  {
    if rs != [] {
      RemainingNone(rs[1..], off);
    }
  }

  /** From inside the deleted record's sector on, what remains is what the next sectors hold. */
  lemma {:induction false} RestOfSector(data: bytes, base: nat, pos: nat, off: nat)
    requires Framed(data, pos) && base % SECTOR == 0
    requires base <= off <= base + pos && pos < |data| && NextSector(pos) + base == NextSector(off)
    ensures NextSector(pos) <= |data| && Framed(data, NextSector(pos))
    ensures Remaining(Records(data, base, pos), off) == Records(data, base, NextSector(pos))
    decreases |data| - pos
  {
    hide ParseDirRecord, Head, Records, ZerosToSectorEnd, Framed, NextSector, RecordAt, Remaining, HiddenBy;
    RecordsStep(data, base, pos);
    var end := NextSector(pos);
    if data[pos] == 0 {
      FramedZero(data, pos);
      AfterSector(data, base, end, off);
    } else {
      var next := pos + data[pos];
      FramedHead(data, pos);
      RecordEnd(data, base, pos, off);
      RemainingCons(Head(data, base, pos), Records(data, base, next), off);
      if next == end {
        AfterSector(data, base, end, off);
      } else {
        RestOfSector(data, base, next, off);
      }
    }
  }

  /** Where the record at pos ends, and that a deletion before it in its sector hides it. */
  lemma RecordEnd(data: bytes, base: nat, pos: nat, off: nat)
    requires RecordAt(data, pos) && base % SECTOR == 0 && base <= off <= base + pos
    requires NextSector(pos) + base == NextSector(off)
    ensures var next := pos + data[pos];
            && pos < next <= NextSector(pos) <= |data|
            && (next < NextSector(pos) ==> NextSector(next) == NextSector(pos))
            && HiddenBy(off, Head(data, base, pos))
  {
    hide ParseDirRecord, Head;
    var next, end := pos + data[pos], NextSector(pos);
    SectorOf(pos);
    if next < end {
      SameSector(pos, next);
    }
  }

  lemma SectorOf(pos: nat)
    ensures pos < NextSector(pos) <= pos + SECTOR
  {
  }

  lemma SameSector(pos: nat, next: nat)
    requires pos <= next < NextSector(pos)
    ensures NextSector(next) == NextSector(pos)
  {
    assert pos / SECTOR == next / SECTOR;
  }

  lemma FramedZero(data: bytes, pos: nat)
    requires Framed(data, pos) && pos < |data| && data[pos] == 0
    ensures NextSector(pos) <= |data| && Framed(data, NextSector(pos)) && ZerosToSectorEnd(data, pos)
  {
  }

  lemma AfterSector(data: bytes, base: nat, pos: nat, off: nat)
    requires Framed(data, pos) && base + pos >= NextSector(off)
    ensures Remaining(Records(data, base, pos), off) == Records(data, base, pos)
  {
    ScanFramed(data, base, pos);
    RemainingNone(Records(data, base, pos), off);
  }

  // Any bytes in the slot.

  /**
   * The scan after any bytes were written into the slot: it crashes if parsing them does, lists what it listed if no
   * record is seen there, and otherwise, if it succeeds, lists the record parsed at the slot.
   */
  lemma {:induction false} ScanAtSlot(data: bytes, base: nat, pos: nat, record: bytes)
    requires Framed(data, pos) && record != [] && FindSlot(data, |record|, pos).Some?
    ensures var slot := FindSlot(data, |record|, pos).value;
            && pos <= slot < |data| && slot + |record| <= |data|
            && var out := Patch(data, slot, record);
            && var p := ParseDirRecord(out[slot..], base + slot);
            && (p.OutOfRange? ==> Scan(out, base, pos) == Err(Crash))
            && (p.NoRecord? ==> Scan(out, base, pos) == Ok(Records(data, base, pos)))
            && (p.Record? && Scan(out, base, pos).Ok? ==> p.rec in Scan(out, base, pos).value)
    decreases |data| - pos
  {
    hide ParseDirRecord, Head, Records, Patch, ZerosToSectorEnd, Framed, RecordAt, Scan, NextSector;
    var slot := FindSlot(data, |record|, pos).value;
    SlotFree(data, |record|, pos);
    SectorOf(pos);
    var out := Patch(data, slot, record);
    RecordsStep(data, base, pos);
    if data[pos] != 0 {
      var next := pos + data[pos];
      FramedHead(data, pos);
      ScanAtSlot(data, base, next, record);
      PatchFrame(data, slot, record, pos, next);
      HeadLocal(data, out, base, pos);
      ScanPasses(out, base, pos, Head(data, base, pos));
    } else if NextSector(pos) - pos < |record| {
      FramedZero(data, pos);
      ScanAtSlot(data, base, NextSector(pos), record);
      PatchFrame(data, slot, record, pos, NextSector(pos));
      SameZeros(data, out, pos);
      ZeroIsNoRecord(out, base, pos);
      ScanSkips(out, base, pos);
    } else {
      FramedZero(data, pos);
      ScanHere(data, out, base, pos, record);
    }
  }

  /** Past a record the scan is that of the bytes behind it, success or failure. */
  lemma ScanPasses(data: bytes, base: nat, pos: nat, r: DirRecord)
    requires pos < |data| && ParseDirRecord(data[pos..], base + pos) == Record(r)
    ensures var rest := Scan(data, base, pos + r.recordLen);
            && (rest.Ok? ==> Scan(data, base, pos) == Ok([r] + rest.value))
            && (rest.Err? ==> Scan(data, base, pos) == Err(rest.error))
  {
    hide ParseDirRecord;
    ParsedLength(data[pos..], base + pos);
  }

  lemma ScanHere(data: bytes, out: bytes, base: nat, pos: nat, record: bytes)
    requires Framed(data, pos) && pos < |data| && data[pos] == 0 && pos + |record| <= NextSector(pos) <= |data|
    requires out == Patch(data, pos, record) && Framed(data, NextSector(pos))
    ensures var p := ParseDirRecord(out[pos..], base + pos);
            && (p.OutOfRange? ==> Scan(out, base, pos) == Err(Crash))
            && (p.NoRecord? ==> Scan(out, base, pos) == Ok(Records(data, base, pos)))
            && (p.Record? && Scan(out, base, pos).Ok? ==> p.rec in Scan(out, base, pos).value)
  {
    hide ParseDirRecord, Head, Records, Patch, ZerosToSectorEnd, Framed, RecordAt, NextSector;
    var p := ParseDirRecord(out[pos..], base + pos);
    var end := NextSector(pos);
    RecordsStep(data, base, pos);
    if p.NoRecord? {
      PatchFrame(data, pos, record, end, |data|);
      TailFrom(data, out, end);
      ScanLocal(data, out, base, end);
      ScanFramed(data, base, end);
      ScanSkips(out, base, pos);
    } else if p.Record? {
      ScanPasses(out, base, pos, p.rec);
    }
  }

  /** Zeroing a record's length byte: the scan succeeds and lists exactly the records that are not hidden. */
  lemma {:induction false} ScanDelete(data: bytes, base: nat, pos: nat, r: DirRecord)
    requires Framed(data, pos) && base % SECTOR == 0 && r in Records(data, base, pos)
    ensures base + pos <= r.off && r.off + 33 <= base + |data|
    ensures Scan(Patch(data, r.off - base, [0]), base, pos) == Ok(Remaining(Records(data, base, pos), r.off))
    decreases |data| - pos
  {
    hide ParseDirRecord, Head, Records, ZerosToSectorEnd, Patch, Framed, Scan, Remaining, NextSector, RecordAt;
    SectorOf(pos);
    ScanFramed(data, base, pos);
    RecordsStep(data, base, pos);
    var out := Patch(data, r.off - base, [0]);
    if data[pos] == 0 {
      var end := NextSector(pos);
      FramedZero(data, pos);
      ScanFramed(data, base, end);
      ScanDelete(data, base, end, r);
      PatchFrame(data, r.off - base, [0], pos, end);
      SameZeros(data, out, pos);
      ZeroIsNoRecord(out, base, pos);
      ScanSkips(out, base, pos);
    } else {
      ScanDeleteRecord(data, base, pos, r);
    }
  }

  lemma ScanDeleteRecord(data: bytes, base: nat, pos: nat, r: DirRecord)
    requires Framed(data, pos) && base % SECTOR == 0 && r in Records(data, base, pos)
    requires pos < |data| && data[pos] != 0 && base + pos <= r.off && r.off + 33 <= base + |data|
    ensures Scan(Patch(data, r.off - base, [0]), base, pos) == Ok(Remaining(Records(data, base, pos), r.off))
    decreases |data| - pos, 0
  {
    hide ParseDirRecord, Head, Records, ZerosToSectorEnd, Patch, Framed, Scan, Remaining, NextSector;
    var out, next := Patch(data, r.off - base, [0]), pos + data[pos];
    SectorOf(pos);
    FramedHead(data, pos);
    RecordsStep(data, base, pos);
    ScanFramed(data, base, next);
    hide Placed;
    if r.off == base + pos {
      ScanDeleteHere(data, base, pos);
    } else {
      assert r in Records(data, base, next);
      ScanDelete(data, base, next, r);
      PatchFrame(data, r.off - base, [0], pos, next);
      HeadLocal(data, out, base, pos);
      RemainingCons(Head(data, base, pos), Records(data, base, next), r.off);
      ScanTakes(out, base, pos, Head(data, base, pos));
      LaterVisible(data, base, pos, r.off);
    }
  }

  lemma ScanSkips(data: bytes, base: nat, pos: nat)
    requires pos < |data| && ParseDirRecord(data[pos..], base + pos) == NoRecord
    ensures Scan(data, base, pos) == Scan(data, base, NextSector(pos))
  {
    hide ParseDirRecord;
  }

  lemma ScanTakes(data: bytes, base: nat, pos: nat, r: DirRecord)
    requires pos < |data| && ParseDirRecord(data[pos..], base + pos) == Record(r)
             && Scan(data, base, pos + r.recordLen).Ok?
    ensures Scan(data, base, pos) == Ok([r] + Scan(data, base, pos + r.recordLen).value)
  {
    hide ParseDirRecord;
    ParsedLength(data[pos..], base + pos);
  }

  /** A deletion behind a record does not hide it. */
  lemma LaterVisible(data: bytes, base: nat, pos: nat, off: nat)
    requires RecordAt(data, pos) && base + pos < off
    ensures !HiddenBy(off, Head(data, base, pos))
  {
  }

  lemma ScanDeleteHere(data: bytes, base: nat, pos: nat)
    requires Framed(data, pos) && base % SECTOR == 0 && pos < |data| && data[pos] != 0
    ensures Scan(Patch(data, pos, [0]), base, pos) == Ok(Remaining(Records(data, base, pos), base + pos))
  {
    hide ParseDirRecord, Head, Records, ZerosToSectorEnd, Patch, Framed;
    var out, end := Patch(data, pos, [0]), NextSector(pos);
    RestOfSector(data, base, pos, base + pos);
    PatchFrame(data, pos, [0], end, |data|);
    TailFrom(data, out, end);
    ScanLocal(data, out, base, end);
    ScanFramed(data, base, end);
    PatchFirst(data, pos);
    ZeroIsNoRecord(out, base, pos);
  }

  lemma PatchFirst(data: bytes, pos: nat)
    requires pos < |data|
    ensures Patch(data, pos, [0])[pos] == 0
  {
  }
}
