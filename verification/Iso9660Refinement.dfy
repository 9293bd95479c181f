/** Edits of a well-formed image refine updates of its path-to-content map. */
module Iso9660Refinement {
  import opened Bytes
  import opened Iso9660Record
  import opened Iso9660Image
  import opened Iso9660Layout
  import opened Iso9660Volume

  /** In the data area below the given sector, out is img with piece written at the byte at. */
  ghost predicate Edited(img: bytes, out: bytes, sectors: nat, at: nat, piece: bytes) {
    && |out| >= |img|
    && forall i | DATA_START <= i < |img| && i < sectors * SECTOR ::
         out[i] == if at <= i < at + |piece| then piece[i - at] else img[i]
  }

  lemma WriteAtBytes(img: bytes, data: bytes, off: nat)
    ensures var out := WriteAt(img, data, off);
            && |out| >= |img|
            && (forall i | 0 <= i < |out| :: out[i] == if off <= i < off + |data| then data[i - off]
                                                      else if i < |img| then img[i] else 0)
  {
  }

  // The descriptor under writes elsewhere and under an update of the volume size.

  lemma PvdFrame(img: bytes, out: bytes)
    requires |out| >= |img| && (forall i | PVD_OFFSET <= i < DATA_START && i < |img| :: out[i] == img[i])
    requires ReadPvd(img).Ok?
    ensures ReadPvd(out) == ReadPvd(img)
  {
    assert out[PVD_OFFSET..PVD_OFFSET + SECTOR] == img[PVD_OFFSET..PVD_OFFSET + SECTOR];
  }

  lemma PvdUpdate(img: bytes, sectors: int)
    requires ReadPvd(img).Ok? && 0 <= sectors < U32
    ensures ReadPvd(SetVolumeSpaceSize(img, sectors)) == Ok(ReadPvd(img).value.(volumeSpaceSize := sectors))
  {
    var piece := WriteBoth32(sectors);
    WriteInside(img, piece, PVD_OFFSET + 80, PVD_OFFSET, DATA_START);
    var u, v := img[PVD_OFFSET..DATA_START], SetVolumeSpaceSize(img, sectors)[PVD_OFFSET..DATA_START];
    assert v == Patch(u, 80, piece);
    PatchFrame(u, 80, piece, 0, 6);
    PatchFrame(u, 80, piece, 158, 166);
    PatchFrame(u, 80, piece, 166, 174);
    PatchInside(u, 80, piece);
    hide Patch, SetVolumeSpaceSize;
    FieldRead(v, 80, sectors);
    ReadLocal(v, 158, u, 158);
    ReadLocal(v, 166, u, 166);
    assert v[..6] == v[0..6] && u[..6] == u[0..6];
  }

  // What each kind of edit writes.

  /** Appending content at the end of the volume: nothing in use changes and the content reads back. */
  lemma {:induction false} AppendEffect(img: bytes, pvd: Pvd, content: bytes)
    requires 17 <= pvd.volumeSpaceSize && ReadPvd(img) == Ok(pvd)
    ensures var out := WriteAt(img, Padded(content), pvd.End());
            && Edited(img, out, pvd.volumeSpaceSize, 0, []) && ReadPvd(out) == Ok(pvd)
            && (content != [] ==> pvd.End() + |content| <= |out| && out[pvd.End()..pvd.End() + |content|] == content)
  {
    hide ReadPvd, Padded, WriteAt;
    var out := WriteAt(img, Padded(content), pvd.End());
    PaddedStart(content);
    WriteAtBytes(img, Padded(content), pvd.End());
    PvdFrame(img, out);
    if content != [] {
      ReadBack(img, Padded(content), pvd.End());
      assert forall i | 0 <= i < |content| :: out[pvd.End() + i] == Padded(content)[i] == content[i];
    }
  }

  lemma PaddedStart(content: bytes)
    ensures |content| <= |Padded(content)| && forall i | 0 <= i < |content| :: Padded(content)[i] == content[i]
  {
  }

  /** A write of a record's bytes, then of the volume size. */
  lemma RecordWriteEffect(img: bytes, sectors: nat, at: nat, piece: bytes, size: int)
    requires 17 <= sectors && ReadPvd(img).Ok? && at + |piece| <= |img|
    requires at + |piece| <= PVD_OFFSET || DATA_START <= at
    requires 0 <= size < U32
    ensures var out := SetVolumeSpaceSize(WriteAt(img, piece, at), size);
            && Edited(img, out, sectors, at, piece)
            && ReadPvd(out) == Ok(ReadPvd(img).value.(volumeSpaceSize := size))
            && (forall i | at + |piece| <= i < |img| && DATA_START <= i :: out[i] == img[i])
  {
    var mid := WriteAt(img, piece, at);
    WriteAtBytes(img, piece, at);
    PvdFrame(img, mid);
    PvdUpdate(mid, size);
    WriteAtBytes(mid, WriteBoth32(size), PVD_OFFSET + 80);
  }

  /** The two extent fields are written one after the other. */
  lemma TwoWrites(img: bytes, at: nat, lba: int, len: int)
    requires 0 <= lba < U32 && 0 <= len < U32 && at + 16 <= |img|
    ensures WriteAt(WriteAt(img, WriteBoth32(lba), at), WriteBoth32(len), at + 8)
            == WriteAt(img, ExtentFields(lba, len), at)
  {
    hide WriteAt, WriteBoth32;
    var one := WriteAt(img, WriteBoth32(lba), at);
    WriteAtBytes(img, WriteBoth32(lba), at);
    WriteAtBytes(one, WriteBoth32(len), at + 8);
    WriteAtBytes(img, ExtentFields(lba, len), at);
    SizeKept(img, WriteBoth32(lba), at);
    SizeKept(one, WriteBoth32(len), at + 8);
    SizeKept(img, ExtentFields(lba, len), at);
  }

  lemma SizeKept(img: bytes, data: bytes, at: nat)
    requires at + |data| <= |img|
    ensures |WriteAt(img, data, at)| == |img|
  {
  }

  /** A finished edit: piece written at the byte at, content appended, the volume size set. */
  ghost predicate Committed(img: bytes, out: bytes, pvd: Pvd, at: nat, piece: bytes, content: bytes, size: nat) {
    && Edited(img, out, pvd.volumeSpaceSize, at, piece)
    && ReadPvd(out) == Ok(pvd.(volumeSpaceSize := size))
    && (content != [] ==>
          var start := pvd.End();
          start + |content| <= |out| && out[start..start + |content|] == content)
  }

  lemma CommitsInTwoSteps(img: bytes, pvd: Pvd, content: bytes, at: nat, piece: bytes, size: nat)
    requires ReadPvd(img) == Ok(pvd) && 17 <= pvd.volumeSpaceSize && size < U32
    requires at + |piece| <= |img| && at + |piece| <= pvd.End()
    requires at + |piece| <= PVD_OFFSET || DATA_START <= at
    ensures var mid := WriteAt(img, Padded(content), pvd.End());
            Committed(img, SetVolumeSpaceSize(WriteAt(mid, piece, at), size), pvd, at, piece, content, size)
  {
    hide WriteAt, SetVolumeSpaceSize, ReadPvd, Padded;
    var mid := WriteAt(img, Padded(content), pvd.End());
    AppendEffect(img, pvd, content);
    RecordWriteEffect(mid, pvd.volumeSpaceSize, at, piece, size);
    var out := SetVolumeSpaceSize(WriteAt(mid, piece, at), size);
    var start := pvd.End();
    if content != [] {
      assert forall i | start <= i < start + |content| :: out[i] == mid[i];
    }
  }

  lemma ReplaceCommits(img: bytes, pvd: Pvd, rec: DirRecord, content: bytes)
    requires ReadPvd(img) == Ok(pvd) && 17 <= pvd.volumeSpaceSize
    requires rec.off + 18 <= |img| && rec.off + 18 <= pvd.End()
    requires rec.off + 18 <= PVD_OFFSET || DATA_START <= rec.off
    ensures var e := ReplaceFile(img, rec, content);
            && e.error == None
            && Committed(img, e.img, pvd, rec.off + 2, ExtentFields(pvd.volumeSpaceSize, |content| % U32), content,
                         SizeAfter(pvd, content))
  {
    hide WriteAt, SetVolumeSpaceSize, ReadPvd, Padded, Committed;
    var mid := WriteAt(img, Padded(content), pvd.End());
    AppendEffect(img, pvd, content);
    TwoWrites(mid, rec.off + 2, pvd.volumeSpaceSize, |content| % U32);
    CommitsInTwoSteps(img, pvd, content, rec.off + 2, ExtentFields(pvd.volumeSpaceSize, |content| % U32),
      SizeAfter(pvd, content));
  }

  // What a finished edit does to extents.

  lemma BytesUnchanged(img: bytes, out: bytes, sectors: nat, at: nat, piece: bytes, e: Extent)
    requires Edited(img, out, sectors, at, piece) && InData(img, sectors, e)
    requires e.len == 0 || piece == [] || e.End() <= at || at + |piece| <= e.Start()
    ensures ReadAt(out, e.len, e.Start()) == ReadAt(img, e.len, e.Start()) && BytesOf(out, e) == BytesOf(img, e)
  {
    if e.len > 0 {
      assert out[e.Start()..e.End()] == img[e.Start()..e.End()];
    }
  }

  lemma BytesPatched(img: bytes, out: bytes, sectors: nat, at: nat, piece: bytes, d: Extent)
    requires Edited(img, out, sectors, at, piece) && InData(img, sectors, d)
    requires d.len > 0 && d.Start() <= at && at + |piece| <= d.End()
    ensures |BytesOf(img, d)| == d.len && BytesOf(out, d) == Patch(BytesOf(img, d), at - d.Start(), piece)
  {
    var u, v := img[d.Start()..d.End()], out[d.Start()..d.End()];
    assert v == Patch(u, at - d.Start(), piece);
  }

  lemma InDataGrows(img: bytes, out: bytes, before: nat, after: nat, e: Extent)
    requires InData(img, before, e) && |img| <= |out| && before <= after
    ensures InData(out, after, e)
  {
  }
}
