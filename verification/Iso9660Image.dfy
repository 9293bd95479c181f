/** What each function of the patcher computes, as a function of the image bytes. */
module Iso9660Image {
  import opened Bytes
  import opened Iso9660Record

  const PVD_OFFSET: nat := 16 * SECTOR

  // The file: reads fail at the end, writes grow it with zeros; empty reads and writes touch nothing.

  function ReadAt(img: bytes, n: nat, off: nat): Result<bytes> {
    if n == 0 then Ok([]) else if off + n <= |img| then Ok(img[off..off + n]) else Err(ReadError)
  }

  function WriteAt(img: bytes, data: bytes, off: nat): bytes {
    if data == [] then img
    else
      var grown := Grow(img, off + |data|);
      grown[..off] + data + grown[off + |data|..]
  }

  function Grow(img: bytes, size: nat): (g: bytes)
    ensures |g| == if |img| < size then size else |img|
  {
    if |img| < size then img + Zeros(size - |img|) else img
  }

  // The primary volume descriptor (section 8.4 of ECMA-119).

  datatype Pvd = Pvd(volumeSpaceSize: nat, root: Extent) {
    function End(): nat {
      volumeSpaceSize * SECTOR
    }
  }

  // Type 1 and the identifier "CD001".
  const SIGNATURE: bytes := [1, 67, 68, 48, 48, 49]

  function ReadPvd(img: bytes): (r: Result<Pvd>)
    ensures r.Ok? <==> |img| >= PVD_OFFSET + SECTOR && img[PVD_OFFSET..PVD_OFFSET + 6] == SIGNATURE
    ensures r.Ok? ==> r.value.volumeSpaceSize < U32 && r.value.root.lba < U32 && r.value.root.len < U32
  {
    match ReadAt(img, SECTOR, PVD_OFFSET)
    case Err(e) => Err(e)
    case Ok(buf) =>
      assert buf[..6] == img[PVD_OFFSET..PVD_OFFSET + 6];
      if buf[..6] != SIGNATURE then Err(BadPvd)
      else Ok(Pvd(ReadBoth32(buf, 80), Extent(ReadBoth32(buf, 158), ReadBoth32(buf, 166))))
  }

  function SetVolumeSpaceSize(img: bytes, sectors: int): bytes
    requires 0 <= sectors < U32
  {
    WriteAt(img, WriteBoth32(sectors), PVD_OFFSET + 80)
  }

  // Directories.

  function NextSector(pos: nat): nat {
    (pos / SECTOR + 1) * SECTOR
  }

  /** The records read from position pos on; a zero or unparsable record skips to the next sector. */
  function Scan(data: bytes, base: nat, pos: nat): Result<seq<DirRecord>>
    decreases |data| - pos
  {
    if pos >= |data| then Ok([])
    else
      match ParseDirRecord(data[pos..], base + pos)
      case NoRecord => Scan(data, base, NextSector(pos))
      case OutOfRange => Err(Crash)
      case Record(rec) =>
        match Scan(data, base, pos + rec.recordLen)
        case Err(e) => Err(e)
        case Ok(rest) => Ok([rec] + rest)
  }

  function ReadDirectory(img: bytes, dir: Extent): Result<seq<DirRecord>> {
    match ReadAt(img, dir.len, dir.Start())
    case Err(e) => Err(e)
    case Ok(data) => Scan(data, dir.Start(), 0)
  }

  // Paths.

  function TrimSlash(path: bytes): bytes {
    if path != [] && path[0] == 47 then path[1..] else path
  }

  /** The first record other than "." and ".." whose name matches up to case. */
  function FirstMatch(records: seq<DirRecord>, name: bytes): Option<DirRecord> {
    if records == [] then None
    else if !records[0].IsDot() && EqualFold(records[0].Name(), name) then Some(records[0])
    else FirstMatch(records[1..], name)
  }

  function ResolveIn(img: bytes, dir: Extent, parts: seq<bytes>): Result<DirRecord>
    requires parts != []
    decreases |parts|
  {
    match ReadDirectory(img, dir)
    case Err(e) => Err(e)
    case Ok(records) =>
      match FirstMatch(records, parts[0])
      case None => Err(NotFound)
      case Some(rec) =>
        if |parts| == 1 then Ok(rec)
        else if !rec.isDir then Err(NotADirectory)
        else ResolveIn(img, rec.Data(), parts[1..])
  }

  /** The made-up record of the root directory: offset 0, marked as a directory. */
  function RootRecord(root: Extent): DirRecord {
    DirRecord(0, root.lba, root.len, 0, 0, [], [], 0, true)
  }

  function ResolvePath(img: bytes, root: Extent, path: bytes): Result<DirRecord> {
    if TrimSlash(path) == [] then Ok(RootRecord(root)) else ResolveIn(img, root, Split(47, TrimSlash(path)))
  }

  function ReadFile(img: bytes, rec: DirRecord): Result<bytes> {
    if rec.isDir then Err(ReadOfDirectory) else ReadAt(img, rec.dataLen, rec.Data().Start())
  }

  function ReadFileByPath(img: bytes, path: bytes): Result<bytes> {
    match ReadPvd(img)
    case Err(e) => Err(e)
    case Ok(pvd) =>
      match ResolvePath(img, pvd.root, path)
      case Err(e) => Err(e)
      case Ok(rec) => ReadFile(img, rec)
  }

  // Edits. An edit that fails part-way leaves what it has already written.

  datatype Edit = Edit(img: bytes, error: Option<Error>)

  function SectorsFor(n: nat): nat {
    (n + SECTOR - 1) / SECTOR
  }

  function Padded(content: bytes): bytes {
    content + Zeros(SectorsFor(|content|) * SECTOR - |content|)
  }

  function SizeAfter(pvd: Pvd, content: bytes): int {
    (pvd.volumeSpaceSize + SectorsFor(|content|)) % U32
  }

  function ReplaceFile(img: bytes, rec: DirRecord, content: bytes): Edit {
    match ReadPvd(img)
    case Err(e) => Edit(img, Some(e))
    case Ok(pvd) =>
      var img1 := WriteAt(img, Padded(content), pvd.End());
      var img2 := WriteAt(img1, WriteBoth32(pvd.volumeSpaceSize), rec.off + 2);
      var img3 := WriteAt(img2, WriteBoth32(|content| % U32), rec.off + 10);
      Edit(SetVolumeSpaceSize(img3, SizeAfter(pvd, content)), None)
  }

  function DeleteFile(img: bytes, rec: DirRecord): Edit {
    Edit(WriteAt(img, [0], rec.off), None)
  }

  /** The first position with a zero byte and enough bytes left in its sector. */
  function FindSlot(data: bytes, need: nat, pos: nat): Option<nat>
    decreases |data| - pos
  {
    if pos >= |data| then None
    else if data[pos] != 0 then FindSlot(data, need, pos + data[pos])
    else if NextSector(pos) - pos >= need then Some(pos)
    else FindSlot(data, need, NextSector(pos))
  }

  function AddFile(img: bytes, root: Extent, parentPath: bytes, name: bytes, content: bytes): Edit {
    match ResolvePath(img, root, parentPath)
    case Err(e) => Edit(img, Some(e))
    case Ok(parent) =>
      if !parent.isDir then Edit(img, Some(NotADirectory))
      else
        match ReadPvd(img)
        case Err(e) => Edit(img, Some(e))
        case Ok(pvd) =>
          var img1 := WriteAt(img, Padded(content), pvd.End());
          InsertRecord(img1, parent.Data(), NewRecord(name, pvd.volumeSpaceSize, |content| % U32),
            SizeAfter(pvd, content))
  }

  function InsertRecord(img: bytes, dir: Extent, record: bytes, sectors: int): Edit
    requires 0 <= sectors < U32
  {
    match ReadAt(img, dir.len, dir.Start())
    case Err(e) => Edit(img, Some(e))
    case Ok(data) =>
      match FindSlot(data, |record|, 0)
      case None => Edit(img, Some(NoFreeSpace))
      case Some(slot) => Edit(SetVolumeSpaceSize(WriteAt(img, record, dir.Start() + slot), sectors), None)
  }

  datatype PatchOp = Replace(path: bytes, content: bytes) | Delete(path: bytes) | Add(path: bytes, content: bytes)
    | Unknown

  function ParentPath(path: bytes): bytes {
    var parts := Split(47, TrimSlash(path));
    [47] + Join(47, parts[..|parts| - 1])
  }

  function BaseName(path: bytes): bytes {
    var parts := Split(47, TrimSlash(path));
    parts[|parts| - 1]
  }

  function ApplyOp(img: bytes, op: PatchOp): Edit {
    match ReadPvd(img)
    case Err(e) => Edit(img, Some(e))
    case Ok(pvd) =>
      match op
      case Replace(path, content) =>
        (match ResolvePath(img, pvd.root, path)
         case Err(e) => Edit(img, Some(e))
         case Ok(rec) => ReplaceFile(img, rec, content))
      case Delete(path) =>
        (match ResolvePath(img, pvd.root, path)
         case Err(e) => Edit(img, Some(e))
         case Ok(rec) => DeleteFile(img, rec))
      case Add(path, content) => AddFile(img, pvd.root, ParentPath(path), BaseName(path), content)
      case Unknown => Edit(img, Some(UnknownOp))
  }

  /** All operations in order, up to and including the first that fails. */
  function ApplyPatches(img: bytes, ops: seq<PatchOp>): Edit {
    if ops == [] then Edit(img, None)
    else
      var before := ApplyPatches(img, ops[..|ops| - 1]);
      if before.error.Some? then before else ApplyOp(before.img, ops[|ops| - 1])
  }

  /** Content is followed by zeros, up to the fewest whole sectors that hold it. */
  lemma {:induction false} FewestSectors(content: bytes)
    ensures var p, n := Padded(content), |content|;
            && |p| == 2048 * SectorsFor(n) && n <= |p| < n + 2048
            && p[..n] == content && forall i | n <= i < |p| :: p[i] == 0
  {
  }

  // Reads and writes of ranges.

  lemma {:induction false} ReadBack(img: bytes, data: bytes, off: nat)
    ensures data != [] ==> off + |data| <= |WriteAt(img, data, off)|
    ensures ReadAt(WriteAt(img, data, off), |data|, off) == Ok(data)
    ensures |WriteAt(img, data, off)| >= |img|
  {
  }

  /** A write leaves every range apart from it alone. */
  lemma {:induction false} WriteFrame(img: bytes, data: bytes, off: nat, a: nat, b: nat)
    requires a <= b <= |img| && (b <= off || off + |data| <= a)
    ensures b <= |WriteAt(img, data, off)| && WriteAt(img, data, off)[a..b] == img[a..b]
  {
    if data != [] {
      var g := Grow(img, off + |data|);
      assert g[a..b] == img[a..b];
      if b <= off {
        assert (g[..off] + data + g[off + |data|..])[a..b] == g[a..b];
      } else {
        assert (g[..off] + data + g[off + |data|..])[a..b] == g[a..b];
      }
    }
  }

  /** The piece of a range that a write falls into. */
  lemma WriteInside(img: bytes, data: bytes, off: nat, a: nat, b: nat)
    requires a <= off && off + |data| <= b <= |img|
    ensures |WriteAt(img, data, off)| == |img|
    ensures WriteAt(img, data, off)[a..b] == img[a..b][..off - a] + data + img[a..b][off - a + |data|..]
  {
  }
}
