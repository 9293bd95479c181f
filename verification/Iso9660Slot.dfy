/** Where an add puts its record: the first place that no listed record leaves too little room at. */
module Iso9660Slot {
  import opened Bytes
  import opened Iso9660Record
  import opened Iso9660Image
  import opened Iso9660Layout
  import opened Iso9660Volume
  import opened Iso9660Add

  /** From q on, need bytes of the directory lie in one sector in which no listed record ends behind q. */
  predicate HasRoomAt(rs: seq<DirRecord>, base: nat, size: nat, need: nat, q: nat) {
    var end := (q / 2048 + 1) * 2048;
    && q + need <= end <= size
    && forall r | r in rs :: r.off + r.recordLen <= base + q || base + end <= r.off
  }

  /** Among the places from pos on, slot is the first with room, or there is none. */
  ghost predicate FirstRoom(rs: seq<DirRecord>, base: nat, size: nat, need: nat, pos: nat, slot: Option<nat>) {
    match slot
    case None => forall q: nat | pos <= q :: !HasRoomAt(rs, base, size, need, q)
    case Some(p) =>
      && pos <= p && HasRoomAt(rs, base, size, need, p)
      && forall q: nat | pos <= q < p :: !HasRoomAt(rs, base, size, need, q)
  }

  /** The search by jumps finds the first place that has room according to the listing. */
  lemma {:induction false} SlotIsFirstRoom(data: bytes, base: nat, need: nat, pos: nat)
    requires Framed(data, pos) && need > 0
    ensures FirstRoom(Records(data, base, pos), base, |data|, need, pos, FindSlot(data, need, pos))
    decreases |data| - pos
  {
    hide HasRoomAt, Records, Head, ParseDirRecord, ZerosToSectorEnd, RecordAt;
    RecordsStep(data, base, pos);
    ScanFramed(data, base, pos);
    if pos >= |data| {
      NoRoomBehind(Records(data, base, pos), base, |data|, need, pos);
    } else if data[pos] == 0 {
      var next := NextSector(pos);
      FramedZero(data, pos);
      SlotIsFirstRoom(data, base, need, next);
      ScanFramed(data, base, next);
      RoomInGap(data, base, need, pos);
    } else {
      var next := pos + data[pos];
      FramedHead(data, pos);
      SlotIsFirstRoom(data, base, need, next);
      NoRoomInRecord(data, base, need, pos);
    }
  }

  lemma NoRoomBehind(rs: seq<DirRecord>, base: nat, size: nat, need: nat, pos: nat)
    requires pos >= size
    ensures forall q: nat | pos <= q :: !HasRoomAt(rs, base, size, need, q)
  {
  }

  /** In the zeros at the end of a sector there is room exactly while enough of them are left. */
  lemma RoomInGap(data: bytes, base: nat, need: nat, pos: nat)
    requires pos < |data| && NextSector(pos) <= |data| && need > 0
    requires forall r | r in Records(data, base, NextSector(pos)) :: base + NextSector(pos) <= r.off
    ensures forall q: nat | pos <= q < NextSector(pos) ::
              HasRoomAt(Records(data, base, NextSector(pos)), base, |data|, need, q) <==> q + need <= NextSector(pos)
  {
    hide Records;
  }

  /** No place inside a record has room, and it takes none from the places behind it. */
  lemma NoRoomInRecord(data: bytes, base: nat, need: nat, pos: nat)
    requires RecordAt(data, pos) && need > 0
    ensures var h, rs := Head(data, base, pos), Records(data, base, pos + data[pos]);
            && (forall q: nat | pos <= q < pos + data[pos] :: !HasRoomAt([h] + rs, base, |data|, need, q))
            && (forall q: nat | pos + data[pos] <= q ::
                  HasRoomAt([h] + rs, base, |data|, need, q) == HasRoomAt(rs, base, |data|, need, q))
  {
    hide Records, Head, ParseDirRecord;
    var h, rs := Head(data, base, pos), Records(data, base, pos + data[pos]);
    assert h in [h] + rs && forall r :: r in [h] + rs <==> r == h || r in rs;
  }

  /** An add finds the first place of its parent directory with room for its record, or there is none. */
  lemma {:induction false} SlotByListing(img: bytes, sectors: nat, d: Extent, record: bytes)
    requires DirOk(img, sectors, d) && record != []
    ensures FirstRoom(Listing(img, d), d.Start(), d.len, |record|, 0, Slot(img, d, record))
  {
    hide *;
    DirFacts(img, sectors, d);
    DirBytesRead(img, sectors, d);
    ListingIs(img, d);
    SlotUnfold(img, d, record);
    SlotIsFirstRoom(BytesOf(img, d), d.Start(), |record|, 0);
  }
}
