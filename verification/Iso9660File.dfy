/** The patcher as the code runs it: loops over the bytes and writes into an open image file. */
module Iso9660File {
  import opened Bytes
  import opened Iso9660Record
  import opened Iso9660Image
  import opened Iso9660Layout

  method ParseRockRidgeNM(area: bytes) returns (name: bytes)
    ensures name == RockRidgeName(area)
  {
    var sua := area;
    name := [];
    while |sua| >= 5
      invariant RockRidgeName(area) == name + RockRidgeName(sua)
      decreases |sua|
    {
      if sua[0] == 78 && sua[1] == 77 {
        var entryLen := sua[2];
        if entryLen < 5 || entryLen > |sua| {
          break;
        }
        var flags := sua[4];
        name := name + sua[5..entryLen];
        sua := sua[entryLen..];
        if flags % 2 == 0 {
          return;
        }
      } else {
        var entryLen := sua[2];
        if entryLen < 3 || entryLen > |sua| {
          break;
        }
        sua := sua[entryLen..];
      }
    }
  }

  method ParseRecord(raw: bytes, off: nat) returns (p: Parsed)
    ensures p == ParseDirRecord(raw, off)
  {
    hide ReadBoth32, RockRidgeName;
    if |raw| < 1 || raw[0] == 0 {
      return NoRecord;
    }
    var recLen := raw[0];
    if recLen > |raw| || recLen < 33 {
      return NoRecord;
    }
    var idLen, id := raw[32], [];
    var idEnd := (33 + idLen) % 256;
    if idLen > 0 && idEnd <= recLen {
      if idEnd < 33 {
        return OutOfRange;
      }
      id := raw[33..idEnd];
    }
    var suaStart := 33 + idLen as int;
    if idLen % 2 == 0 {
      suaStart := suaStart + 1;
    }
    var rrName := [];
    if suaStart < recLen {
      rrName := ParseRockRidgeNM(raw[suaStart..recLen]);
    }
    return Record(DirRecord(recLen, ReadBoth32(raw, 2), ReadBoth32(raw, 10), raw[25], idLen, id, rrName, off,
                            IsDirFlag(raw[25])));
  }

  lemma PatchNone(b: bytes, at: nat, piece: bytes)
    requires at + |piece| <= |b|
    ensures Patch(b, at, piece[..0]) == b
  {
  }

  lemma PatchNext(b: bytes, at: nat, piece: bytes, i: nat)
    requires i < |piece| && at + |piece| <= |b|
    ensures |Patch(b, at, piece[..i])| == |b|
    ensures Patch(b, at, piece[..i + 1]) == Patch(b, at, piece[..i])[at + i := piece[i]]
  {
  }

  method CopyInto(a: array<byte>, at: nat, piece: bytes)
    requires at + |piece| <= a.Length
    modifies a
    ensures a[..] == Patch(old(a[..]), at, piece)
  {
    hide Patch;
    ghost var was := a[..];
    PatchNone(was, at, piece);
    for i := 0 to |piece|
      invariant a[..] == Patch(was, at, piece[..i])
    {
      ghost var before := a[..];
      a[at + i] := piece[i];
      assert a[..] == before[at + i := piece[i]];
      PatchNext(was, at, piece, i);
    }
    assert piece[..|piece|] == piece;
  }

  method FillHeader(rec: array<byte>, lba: int, size: int, idLen: nat)
    requires rec.Length >= 40 && rec[..] == Zeros(rec.Length) && 0 <= lba < U32 && 0 <= size < U32
    modifies rec
    ensures rec[..] == FilledHeader(rec.Length, WriteBoth32(lba), WriteBoth32(size), idLen % 256)
  {
    hide Patch, WriteBoth32;
    CopyInto(rec, 0, [rec.Length % 256]);
    CopyInto(rec, 2, WriteBoth32(lba));
    CopyInto(rec, 10, WriteBoth32(size));
    CopyInto(rec, 25, [0]);
    CopyInto(rec, 28, WriteBoth32(1));
    CopyInto(rec, 28, [1, 0, 0, 1]);
    CopyInto(rec, 32, [idLen % 256]);
    BuiltSteps(rec.Length, WriteBoth32(lba), WriteBoth32(size), idLen % 256);
  }

  /** A zeroed record of n bytes after its header fields are written, the volume number twice. */
  function FilledHeader(n: nat, lba: bytes, size: bytes, idLen: byte): bytes
    requires n >= 36
  {
    [n % 256, 0] + lba + size + Zeros(10) + [1, 0, 0, 1, idLen] + [0, 0, 1] + Zeros(n - 36)
  }

  method BuildRecord(name: bytes, lba: int, size: int) returns (rec: array<byte>)
    requires 0 <= lba < U32 && 0 <= size < U32
    ensures fresh(rec) && rec[..] == NewRecord(name, lba, size)
  {
    hide Patch, NewRecord, WriteBoth32, NewRecordLen, Header, NmEntry, UpperByte, FilledHeader;
    var fileId := IsoId(name);
    var idLen := |fileId|;
    var recLen := 33 + idLen;
    if recLen % 2 != 0 {
      recLen := recLen + 1;
    }
    var nmEntry: bytes := [];
    if name != fileId {
      nmEntry := NmEntry(name);
      recLen := recLen + |nmEntry|;
    }
    if recLen % 2 != 0 {
      recLen := recLen + 1;
    }
    BuiltLength(name, recLen);
    rec := new byte[recLen](_ => 0);
    assert rec[..] == Zeros(recLen);
    FillHeader(rec, lba, size, idLen);
    BuiltHeader(name, lba, size);
    CopyNames(rec, name, lba, size, fileId, nmEntry);
  }

  method CopyNames(rec: array<byte>, name: bytes, lba: int, size: int, fileId: bytes, nmEntry: bytes)
    requires 0 <= lba < U32 && 0 <= size < U32 && rec[..] == Header(name, lba, size)
    requires fileId == IsoId(name) && nmEntry == SystemUse(name)
    modifies rec
    ensures rec[..] == NewRecord(name, lba, size)
  {
    hide Patch, NewRecord, NewRecordLen, Header, NmEntry, UpperByte, SystemUse;
    var idLen := |fileId|;
    BuiltBody(name, lba, size);
    NmEntrySize(name);
    BuiltLength(name, NewRecordLen(name));
    CopyInto(rec, 33, fileId);
    var nmStart := 33 + idLen;
    if idLen % 2 == 0 {
      nmStart := nmStart + 1;
    }
    CopyInto(rec, nmStart, nmEntry);
  }

  lemma BuiltLength(name: bytes, n: nat)
    requires n == Even(Even(35 + |name|) + |SystemUse(name)|) || n == NewRecordLen(name)
    ensures n == NewRecordLen(name) && n == 2 * |name| + (if |name| % 2 == 0 then 42 else 40)
            && SystemUse(name) == NmEntry(name)
  {
    hide IsoId, NmEntry, Even;
    LongerId(name);
    EvenSum(|name|);
  }

  /** The record after everything before the identifier is written. */
  function Header(name: bytes, lba: int, size: int): bytes
    requires 0 <= lba < U32 && 0 <= size < U32
  {
    FixedPart(name, lba, size) + [0, 0, 1] + Zeros(if NewRecordLen(name) >= 36 then NewRecordLen(name) - 36 else 0)
  }

  lemma BuiltHeader(name: bytes, lba: int, size: int)
    requires 0 <= lba < U32 && 0 <= size < U32
    ensures NewRecordLen(name) >= 40
    ensures FilledHeader(NewRecordLen(name), WriteBoth32(lba), WriteBoth32(size), (|name| + 2) % 256)
            == Header(name, lba, size)
  {
    hide WriteBoth32;
    BuiltLength(name, NewRecordLen(name));
  }

  lemma BuiltExtent(n: nat, lba: bytes, size: bytes)
    requires n >= 40 && |lba| == |size| == 8
    ensures Patch(Patch(Patch(Patch(Zeros(n), 0, [n % 256]), 2, lba), 10, size), 25, [0])
         == [n % 256, 0] + lba + size + Zeros(10) + Zeros(n - 28)
  {
    var a := Patch(Patch(Zeros(n), 0, [n % 256]), 2, lba);
    assert a == [n % 256, 0] + lba + Zeros(n - 10);
    var b := Patch(a, 10, size);
    assert b == [n % 256, 0] + lba + size + Zeros(n - 18);
  }

  lemma BuiltVolume(head: bytes, n: nat, idLen: byte)
    requires |head| == 28 && n >= 40
    ensures Patch(Patch(Patch(head + Zeros(n - 28), 28, WriteBoth32(1)), 28, [1, 0, 0, 1]), 32, [idLen])
         == head + [1, 0, 0, 1, idLen] + [0, 0, 1] + Zeros(n - 36)
  {
    var d := Patch(head + Zeros(n - 28), 28, WriteBoth32(1));
    assert d == head + ([1, 0, 0, 0, 0, 0, 0, 1] + Zeros(n - 36));
    var e := Patch(d, 28, [1, 0, 0, 1]);
    assert e == head + ([1, 0, 0, 1, 0, 0, 0, 1] + Zeros(n - 36));
    assert Patch(e, 32, [idLen]) == head + ([1, 0, 0, 1, idLen, 0, 0, 1] + Zeros(n - 36));
  }

  lemma BuiltSteps(n: nat, lba: bytes, size: bytes, idLen: byte)
    requires n >= 40 && |lba| == |size| == 8
    ensures var a := Patch(Patch(Patch(Patch(Zeros(n), 0, [n % 256]), 2, lba), 10, size), 25, [0]);
            Patch(Patch(Patch(a, 28, WriteBoth32(1)), 28, [1, 0, 0, 1]), 32, [idLen])
              == FilledHeader(n, lba, size, idLen)
  {
    hide Patch, Zeros, WriteBoth32;
    BuiltExtent(n, lba, size);
    BuiltVolume([n % 256, 0] + lba + size + Zeros(10), n, idLen);
  }

  lemma BuiltBody(name: bytes, lba: int, size: int)
    requires 0 <= lba < U32 && 0 <= size < U32
    ensures |Header(name, lba, size)| == NewRecordLen(name) >= NmStart(name) + 5 + |name|
    ensures Patch(Patch(Header(name, lba, size), 33, IsoId(name)), NmStart(name), SystemUse(name))
            == NewRecord(name, lba, size)
  {
    hide Patch, FixedPart, NmEntry, PadTo, UpperByte;
    var n := NewRecordLen(name);
    NmEntrySize(name);
    BuiltLength(name, n);
    BodySteps(FixedPart(name, lba, size), IsoId(name), IdPadding(name), SystemUse(name), n);
  }

  lemma NmEntrySize(name: bytes)
    ensures |NmEntry(name)| == 5 + |name|
  {
  }

  lemma BodySteps(h: bytes, id: bytes, pad: bytes, nm: bytes, n: nat)
    requires |h| == 33 && |id| >= 2 && n >= 36 && 33 + |id| + |pad| + |nm| <= n
    requires pad == if |id| % 2 != 0 then [] else if |id| == 2 then [1] else [0]
    ensures Patch(Patch(h + [0, 0, 1] + Zeros(n - 36), 33, id), 33 + |id| + |pad|, nm)
            == PadTo(h + (id + (pad + nm)), n)
  {
    var a := Patch(h + [0, 0, 1] + Zeros(n - 36), 33, id);
    assert a == h + id + pad + Zeros(n - 33 - |id| - |pad|);
    assert Patch(a, 33 + |id| + |pad|, nm) == h + id + pad + nm + Zeros(n - 33 - |id| - |pad| - |nm|);
  }

  function Prepend(records: seq<DirRecord>, rest: Result<seq<DirRecord>>): Result<seq<DirRecord>> {
    match rest
    case Err(e) => Err(e)
    case Ok(rs) => Ok(records + rs)
  }

  lemma PrependOne(records: seq<DirRecord>, r: DirRecord, rest: Result<seq<DirRecord>>)
    ensures Prepend(records, Prepend([r], rest)) == Prepend(records + [r], rest)
  {
    match rest
    case Err(_) =>
    case Ok(rs) => assert records + ([r] + rs) == records + [r] + rs;
  }

  lemma PrependUnits(records: seq<DirRecord>, rest: Result<seq<DirRecord>>)
    ensures Prepend([], rest) == rest && Prepend(records, Ok([])) == Ok(records)
  {
    assert records + [] == records;
    match rest
    case Err(_) =>
    case Ok(rs) => assert [] + rs == rs;
  }

  /** One step of the scan, as the loop takes it. */
  lemma ScanUnfold(buf: bytes, base: nat, pos: nat)
    requires pos < |buf|
    ensures match ParseDirRecord(buf[pos..], base + pos)
            case NoRecord => Scan(buf, base, pos) == Scan(buf, base, NextSector(pos))
            case OutOfRange => Scan(buf, base, pos) == Err(Crash)
            case Record(r) =>
              r.recordLen > 0 && Scan(buf, base, pos) == Prepend([r], Scan(buf, base, pos + r.recordLen))
  {
    if ParseDirRecord(buf[pos..], base + pos).Record? {
      ParsedLength(buf[pos..], base + pos);
    }
  }

  method FindEntry(records: seq<DirRecord>, part: bytes) returns (r: Option<DirRecord>)
    ensures r == FirstMatch(records, part)
  {
    hide EqualFold, DirRecord.Name, DirRecord.IsDot;
    for j := 0 to |records|
      invariant FirstMatch(records, part) == FirstMatch(records[j..], part)
    {
      var rec := records[j];
      assert records[j..][0] == rec && records[j..][1..] == records[j + 1..];
      if !rec.IsDot() && EqualFold(rec.Name(), part) {
        return Some(rec);
      }
    }
    return None;
  }

  /** An image file open for reading and writing. */
  class IsoFile {
    var data: bytes

    constructor (contents: bytes)
      ensures data == contents
    {
      data := contents;
    }

    method ReadRange(n: nat, off: nat) returns (r: Result<bytes>)
      ensures r == ReadAt(data, n, off)
    {
      if n == 0 {
        return Ok([]);
      } else if off + n <= |data| {
        return Ok(data[off..off + n]);
      } else {
        return Err(ReadError);
      }
    }

    method WriteRange(piece: bytes, off: nat)
      modifies this
      ensures data == WriteAt(old(data), piece, off)
    {
      if piece != [] {
        if |data| < off + |piece| {
          data := data + Zeros(off + |piece| - |data|);
        }
        data := data[..off] + piece + data[off + |piece|..];
      }
    }

    method GetPvd() returns (r: Result<Pvd>)
      ensures r == ReadPvd(data)
    {
      var buf := ReadRange(SECTOR, PVD_OFFSET);
      if buf.Err? {
        return Err(buf.error);
      }
      var sector := buf.value;
      assert sector[..6] == [sector[0]] + sector[1..6];
      if sector[0] != 1 || sector[1..6] != [67, 68, 48, 48, 49] {
        assert sector[..6][0] == sector[0] && sector[..6][1..] == sector[1..6];
        return Err(BadPvd);
      }
      return Ok(Pvd(ReadBoth32(sector, 80), Extent(ReadBoth32(sector, 158), ReadBoth32(sector, 166))));
    }

    method UpdateVolumeSpaceSize(sectors: int)
      requires 0 <= sectors < U32
      modifies this
      ensures data == SetVolumeSpaceSize(old(data), sectors)
    {
      WriteRange(WriteBoth32(sectors), PVD_OFFSET + 80);
    }

    method ListRecords(dir: Extent) returns (r: Result<seq<DirRecord>>)
      ensures r == ReadDirectory(data, dir)
    {
      hide ParseDirRecord, Scan;
      var read := ReadRange(dir.len, dir.Start());
      if read.Err? {
        return Err(read.error);
      }
      var buf, base := read.value, dir.Start();
      var records, pos := [], 0;
      PrependUnits(records, Scan(buf, base, 0));
      while pos < |buf|
        invariant Scan(buf, base, 0) == Prepend(records, Scan(buf, base, pos))
        decreases |buf| - pos
      {
        ScanUnfold(buf, base, pos);
        var sectorRemain := SECTOR - pos % SECTOR;
        if buf[pos] == 0 {
          ZeroIsNoRecord(buf, base, pos);
          pos := pos + sectorRemain;
        } else {
          var parsed := ParseRecord(buf[pos..], base + pos);
          match parsed
          case NoRecord =>
            pos := pos + sectorRemain;
          case OutOfRange =>
            return Err(Crash);
          case Record(rec) =>
            PrependOne(records, rec, Scan(buf, base, pos + rec.recordLen));
            records := records + [rec];
            pos := pos + rec.recordLen;
        }
      }
      ScanEnd(buf, base, pos);
      PrependUnits(records, Ok([]));
      return Ok(records);
    }

    method Resolve(root: Extent, path: bytes) returns (r: Result<DirRecord>)
      ensures r == ResolvePath(data, root, path)
    {
      hide ReadDirectory, FirstMatch;
      var trimmed := TrimSlash(path);
      if trimmed == [] {
        return Ok(RootRecord(root));
      }
      var parts, current, i := Split(47, trimmed), root, 0;
      while true
        invariant 0 <= i < |parts|
        invariant ResolveIn(data, root, parts) == ResolveIn(data, current, parts[i..])
        decreases |parts| - i
      {
        var listed := ListRecords(current);
        if listed.Err? {
          return Err(listed.error);
        }
        var found := FindEntry(listed.value, parts[i]);
        if found.None? {
          return Err(NotFound);
        }
        if i == |parts| - 1 {
          return Ok(found.value);
        }
        if !found.value.isDir {
          return Err(NotADirectory);
        }
        current := found.value.Data();
        assert parts[i..][1..] == parts[i + 1..];
        i := i + 1;
      }
    }

    method Read(rec: DirRecord) returns (r: Result<bytes>)
      ensures r == ReadFile(data, rec)
    {
      if rec.isDir {
        return Err(ReadOfDirectory);
      }
      r := ReadRange(rec.dataLen, rec.Data().Start());
    }

    method ReadByPath(path: bytes) returns (r: Result<bytes>)
      ensures r == ReadFileByPath(data, path)
    {
      hide ReadPvd, ResolvePath;
      var pvd := GetPvd();
      if pvd.Err? {
        return Err(pvd.error);
      }
      var rec := Resolve(pvd.value.root, path);
      if rec.Err? {
        return Err(rec.error);
      }
      r := Read(rec.value);
    }

    method Replace(rec: DirRecord, content: bytes) returns (error: Option<Error>)
      modifies this
      ensures Edit(data, error) == ReplaceFile(old(data), rec, content)
    {
      hide ReadPvd, WriteAt, SetVolumeSpaceSize, SectorsFor, Padded, SizeAfter;
      var got := GetPvd();
      if got.Err? {
        return Some(got.error);
      }
      var pvd := got.value;
      var paddedLen := (|content| + SECTOR - 1) / SECTOR * SECTOR;
      PaddedLength(pvd, content, paddedLen);
      WriteRange(content + Zeros(paddedLen - |content|), pvd.End());
      WriteRange(WriteBoth32(pvd.volumeSpaceSize), rec.off + 2);
      WriteRange(WriteBoth32(|content| % U32), rec.off + 10);
      UpdateVolumeSpaceSize((pvd.volumeSpaceSize + paddedLen / SECTOR % U32) % U32);
      return None;
    }

    method Delete(rec: DirRecord) returns (error: Option<Error>)
      modifies this
      ensures Edit(data, error) == DeleteFile(old(data), rec)
    {
      WriteRange([0], rec.off);
      return None;
    }

    method FindFreeSpace(dirData: bytes, recLen: nat) returns (insertPos: Option<nat>)
      ensures insertPos == FindSlot(dirData, recLen, 0)
    {
      var pos := 0;
      while pos < |dirData|
        invariant FindSlot(dirData, recLen, 0) == FindSlot(dirData, recLen, pos)
        decreases |dirData| - pos
      {
        if dirData[pos] == 0 {
          var sectorEnd := (pos / SECTOR + 1) * SECTOR;
          var freeSpace := sectorEnd - pos;
          if freeSpace >= recLen {
            return Some(pos);
          }
          pos := sectorEnd;
        } else {
          pos := pos + dirData[pos];
        }
      }
      return None;
    }

    method AddEntry(root: Extent, parentPath: bytes, fileName: bytes, content: bytes) returns (error: Option<Error>)
      modifies this
      ensures Edit(data, error) == AddFile(old(data), root, parentPath, fileName, content)
    {
      hide ReadPvd, WriteAt, ResolvePath, InsertRecord, NewRecord, SectorsFor, Padded, SizeAfter;
      var parent := Resolve(root, parentPath);
      if parent.Err? {
        return Some(parent.error);
      }
      if !parent.value.isDir {
        return Some(NotADirectory);
      }
      var got := GetPvd();
      if got.Err? {
        return Some(got.error);
      }
      var pvd := got.value;
      var paddedLen := (|content| + SECTOR - 1) / SECTOR * SECTOR;
      PaddedLength(pvd, content, paddedLen);
      WriteRange(content + Zeros(paddedLen - |content|), pvd.End());
      var rec := BuildRecord(fileName, pvd.volumeSpaceSize, |content| % U32);
      error := Insert(parent.value.Data(), rec[..], (pvd.volumeSpaceSize + paddedLen / SECTOR % U32) % U32);
    }

    method Insert(dir: Extent, rec: bytes, newSectors: int) returns (error: Option<Error>)
      requires 0 <= newSectors < U32
      modifies this
      ensures Edit(data, error) == InsertRecord(old(data), dir, rec, newSectors)
    {
      hide WriteAt, SetVolumeSpaceSize, FindSlot;
      var dirData := ReadRange(dir.len, dir.Start());
      if dirData.Err? {
        return Some(dirData.error);
      }
      var insertPos := FindFreeSpace(dirData.value, |rec|);
      if insertPos.None? {
        return Some(NoFreeSpace);
      }
      WriteRange(rec, dir.Start() + insertPos.value);
      UpdateVolumeSpaceSize(newSectors);
      return None;
    }

    method Apply(op: PatchOp) returns (error: Option<Error>)
      modifies this
      ensures Edit(data, error) == ApplyOp(old(data), op)
    {
      hide ReadPvd, ResolvePath, ReplaceFile, DeleteFile, AddFile;
      var got := GetPvd();
      if got.Err? {
        return Some(got.error);
      }
      var root := got.value.root;
      match op
      case Replace(path, content) =>
        var rec := Resolve(root, path);
        if rec.Err? {
          return Some(rec.error);
        }
        error := Replace(rec.value, content);
      case Delete(path) =>
        var rec := Resolve(root, path);
        if rec.Err? {
          return Some(rec.error);
        }
        error := Delete(rec.value);
      case Add(path, content) =>
        var parts := Split(47, TrimSlash(path));
        error := AddEntry(root, [47] + Join(47, parts[..|parts| - 1]), parts[|parts| - 1], content);
      case Unknown =>
        return Some(UnknownOp);
    }

    method ApplyAll(ops: seq<PatchOp>) returns (error: Option<Error>)
      modifies this
      ensures Edit(data, error) == ApplyPatches(old(data), ops)
    {
      hide ApplyOp;
      for i := 0 to |ops|
        invariant Edit(data, None) == ApplyPatches(old(data), ops[..i])
      {
        assert ops[..i + 1][..i] == ops[..i] && ops[..i + 1][i] == ops[i];
        error := Apply(ops[i]);
        if error.Some? {
          FailureStays(old(data), ops, i + 1);
          return;
        }
      }
      assert ops[..|ops|] == ops;
      return None;
    }
  }

  lemma PaddedLength(pvd: Pvd, content: bytes, paddedLen: int)
    requires paddedLen == (|content| + SECTOR - 1) / SECTOR * SECTOR
    ensures paddedLen >= |content| && Padded(content) == content + Zeros(paddedLen - |content|)
    ensures SizeAfter(pvd, content) == (pvd.volumeSpaceSize + paddedLen / SECTOR % U32) % U32
  {
  }

  lemma ScanEnd(buf: bytes, base: nat, pos: nat)
    requires pos >= |buf|
    ensures Scan(buf, base, pos) == Ok([])
  {
  }

  /** Once an operation has failed the rest of the list changes nothing. */
  lemma {:induction false} FailureStays(img: bytes, ops: seq<PatchOp>, i: nat)
    requires i <= |ops| && ApplyPatches(img, ops[..i]).error.Some?
    ensures ApplyPatches(img, ops) == ApplyPatches(img, ops[..i])
    decreases |ops|
  {
    if i == |ops| {
      assert ops[..i] == ops;
    } else {
      assert ops[..|ops| - 1][..i] == ops[..i];
      FailureStays(img, ops[..|ops| - 1], i);
    }
  }
}
