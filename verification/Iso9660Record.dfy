/** Directory records of an ISO 9660 image: parsing, names, and the record the patcher builds. */
module Iso9660Record {
  import opened Bytes

  const SECTOR: int := 2048

  datatype Option<+T> = None | Some(value: T)

  // ReadError: the file ends before the requested range. Crash: a slice out of range.
  datatype Error = ReadError | BadPvd | NotFound | NotADirectory | ReadOfDirectory | NoFreeSpace | UnknownOp | Crash

  datatype Result<+T> = Ok(value: T) | Err(error: Error)

  datatype DirRecord = DirRecord(recordLen: byte, lba: nat, dataLen: nat, flags: byte, idLen: byte,
                                 id: bytes, rrName: bytes, off: nat, isDir: bool)
  {
    /** The Rock Ridge name when there is one, else the identifier without its version. */
    function Name(): bytes {
      if rrName != [] then rrName else BeforeSemicolon(id)
    }

    /** "." and ".." have the one-byte identifiers 0 and 1. */
    predicate IsDot() {
      idLen == 1 && (id == [0] || id == [1])
    }

    function Data(): Extent {
      Extent(lba, dataLen)
    }
  }

  datatype Extent = Extent(lba: nat, len: nat) {
    function Start(): nat {
      lba * SECTOR
    }

    function End(): nat {
      Start() + len
    }
  }

  function BeforeSemicolon(s: bytes): bytes {
    if s == [] || s[0] == 59 then [] else [s[0]] + BeforeSemicolon(s[1..])
  }

  // What parsing the bytes at one position gives. Crash: an index computed in eight bits runs out of range.
  datatype Parsed = NoRecord | OutOfRange | Record(rec: DirRecord)

  function SuaStart(idLen: byte): nat {
    33 + idLen + (if idLen % 2 == 0 then 1 else 0)
  }

  /** The identifier, or None where `raw[33 : 33+FileIDLen]` has its upper bound wrapped below 33. */
  function ParseId(raw: bytes, recLen: byte, idLen: byte): Option<bytes>
    requires 33 <= recLen <= |raw|
  {
    var end := (33 + idLen) % 256;
    if idLen > 0 && end <= recLen then
      if end < 33 then None else Some(raw[33..end])
    else
      Some([])
  }

  predicate IsDirFlag(flags: byte) {
    flags / 2 % 2 == 1
  }

  function ParseDirRecord(raw: bytes, off: nat): Parsed {
    if |raw| < 1 || raw[0] == 0 then NoRecord
    else if raw[0] > |raw| || raw[0] < 33 then NoRecord
    else
      var recLen := raw[0];
      var sua := SuaStart(raw[32]);
      match ParseId(raw, recLen, raw[32])
      case None => OutOfRange
      case Some(id) =>
        Record(DirRecord(recLen, ReadBoth32(raw, 2), ReadBoth32(raw, 10), raw[25], raw[32], id,
                         if sua < recLen then RockRidgeName(raw[sua..recLen]) else [], off, IsDirFlag(raw[25])))
  }

  /** The name spread over the NM entries of a system use area (section 4.1.4 of RRIP). */
  function RockRidgeName(sua: bytes): bytes
    decreases |sua|
  {
    if |sua| < 5 then []
    else if sua[0] == 78 && sua[1] == 77 then
      if sua[2] < 5 || sua[2] > |sua| then []
      else sua[5..sua[2]] + (if sua[4] % 2 == 0 then [] else RockRidgeName(sua[sua[2]..]))
    else if sua[2] < 3 || sua[2] > |sua| then []
    else RockRidgeName(sua[sua[2]..])
  }

  /** Parsing runs out of range exactly on the records whose identifier length is at least 223. */
  lemma {:induction false} ParseCrashesIff(raw: bytes, off: nat)
    ensures ParseDirRecord(raw, off).OutOfRange? <==> |raw| > 0 && 33 <= raw[0] <= |raw| && raw[32] >= 223
  {
  }

  /** Parsing looks only at the record's own bytes. */
  lemma {:induction false} ParseLocal(a: bytes, b: bytes, off: nat)
    requires |a| > 0 && 33 <= a[0] <= |a| && a[0] <= |b| && a[..a[0]] == b[..a[0]]
    ensures ParseDirRecord(a, off) == ParseDirRecord(b, off)
  {
    var n := a[0];
    assert forall k | 0 <= k < n :: a[k] == a[..n][k] == b[k];
    assert forall i, j | 0 <= i <= j <= n :: a[i..j] == a[..n][i..j] == b[..n][i..j] == b[i..j];
  }

  // The record that iso9660AddFile builds.

  function NmEntry(name: bytes): bytes {
    [78, 77, (5 + |name|) % 256, 1, 0] + name
  }

  function IsoId(name: bytes): bytes {
    Upper(name) + [59, 49]
  }

  function Even(n: nat): nat {
    n + n % 2
  }

  /** The NM entry, left out only if the name equals its own identifier. */
  function SystemUse(name: bytes): bytes {
    if name != IsoId(name) then NmEntry(name) else []
  }

  function NewRecordLen(name: bytes): nat {
    if name != IsoId(name) then Even(Even(35 + |name|) + 5 + |name|) else Even(35 + |name|)
  }

  /** The last of the eight bytes written at offset 28 survives at 35 when the identifier is only ";1". */
  function IdPadding(name: bytes): bytes {
    if |name| % 2 != 0 then [] else if name == [] then [1] else [0]
  }

  /** Everything before the identifier: length, extent, data length, zero date and flags, volume 1. */
  function FixedPart(name: bytes, lba: int, len: int): (r: bytes)
    requires 0 <= lba < U32 && 0 <= len < U32
    ensures |r| == 33
  {
    [NewRecordLen(name) % 256, 0] + WriteBoth32(lba) + WriteBoth32(len) + Zeros(10)
    + [1, 0, 0, 1, (|name| + 2) % 256]
  }

  function NewRecord(name: bytes, lba: int, len: int): bytes
    requires 0 <= lba < U32 && 0 <= len < U32
  {
    PadTo(FixedPart(name, lba, len) + (IsoId(name) + (IdPadding(name) + SystemUse(name))), NewRecordLen(name))
  }

  function PadTo(s: bytes, n: nat): bytes {
    s + Zeros(if |s| < n then n - |s| else 0)
  }

  lemma FixedPartFields(name: bytes, lba: int, len: int)
    requires 0 <= lba < U32 && 0 <= len < U32
    ensures var r := FixedPart(name, lba, len);
            && r[0] == NewRecordLen(name) % 256 && r[2..10] == WriteBoth32(lba) && r[10..18] == WriteBoth32(len)
            && r[25] == 0 && r[32] == (|name| + 2) % 256
  {
  }

  lemma {:induction false} NewRecordSize(name: bytes, lba: int, len: int)
    requires 0 <= lba < U32 && 0 <= len < U32
    ensures SystemUse(name) == NmEntry(name)
    ensures |NewRecord(name, lba, len)| == NewRecordLen(name) == 2 * |name| + (if |name| % 2 == 0 then 42 else 40)
  {
    hide NewRecord, FixedPart, PadTo, IsoId, NmEntry, Even, IdPadding;
    LongerId(name);
    EvenSum(|name|);
    NewRecordParts(name, lba, len);
  }

  lemma LongerId(name: bytes)
    ensures name != IsoId(name) && |IsoId(name)| == |name| + 2 && |NmEntry(name)| == 5 + |name|
  {
    assert |name| != |IsoId(name)|;
  }

  lemma EvenSum(n: nat)
    ensures Even(Even(35 + n) + 5 + n) == 2 * n + (if n % 2 == 0 then 42 else 40)
  {
    hide Even;
    var m := n / 2;
    if n == 2 * m {
      EvenUp(35 + n, 17 + m);
      EvenUp(41 + 2 * n, 20 + n);
    } else {
      EvenKeeps(35 + n, 18 + m);
      EvenKeeps(40 + 2 * n, 20 + n);
    }
  }

  lemma EvenUp(n: nat, half: nat)
    requires n == 2 * half + 1
    ensures Even(n) == n + 1
  {
  }

  lemma EvenKeeps(n: nat, half: nat)
    requires n == 2 * half
    ensures Even(n) == n
  {
  }

  lemma NewRecordParts(name: bytes, lba: int, len: int)
    requires 0 <= lba < U32 && 0 <= len < U32 && |SystemUse(name)| == 5 + |name|
    requires NewRecordLen(name) == 2 * |name| + (if |name| % 2 == 0 then 42 else 40)
    ensures |NewRecord(name, lba, len)| == NewRecordLen(name)
  {
    hide SystemUse, NewRecordLen, FixedPart, Even;
  }

  lemma NewRecordFields(name: bytes, lba: int, len: int)
    requires 0 <= lba < U32 && 0 <= len < U32
    ensures var r := NewRecord(name, lba, len);
            && |r| == 2 * |name| + (if |name| % 2 == 0 then 42 else 40)
            && r[..33] == FixedPart(name, lba, len)
            && r[33..35 + |name|] == IsoId(name)
            && r[NmStart(name)..NmStart(name) + 5 + |name|] == NmEntry(name)
  {
    NewRecordSize(name, lba, len);
    Sections(FixedPart(name, lba, len), IsoId(name), IdPadding(name), SystemUse(name), NewRecordLen(name));
  }

  lemma Sections(h: bytes, i: bytes, p: bytes, n: bytes, len: nat)
    ensures var r := PadTo(h + (i + (p + n)), len);
            && |r| >= |h| + |i| + |p| + |n|
            && r[..|h|] == h && r[|h|..|h| + |i|] == i
            && r[|h| + |i| + |p|..|h| + |i| + |p| + |n|] == n
  {
  }

  function NmStart(name: bytes): nat {
    35 + |name| + (if |name| % 2 == 0 then 1 else 0)
  }

  /** Parsing the built record gives back everything, for every name of at most 107 bytes. */
  lemma {:induction false} NewRecordRoundTrip(name: bytes, lba: int, len: int, rest: bytes, off: nat)
    requires 0 <= lba < U32 && 0 <= len < U32 && |name| <= 107
    ensures var p := ParseDirRecord(NewRecord(name, lba, len) + rest, off);
            && p.Record? && p.rec.recordLen == NewRecordLen(name) && p.rec.off == off
            && p.rec.lba == lba && p.rec.dataLen == len && !p.rec.isDir && !p.rec.IsDot()
            && p.rec.id == IsoId(name) && p.rec.Name() == name
  {
    var r := NewRecord(name, lba, len);
    NewRecordSize(name, lba, len);
    ParseNewRecord(name, lba, len, off);
    assert (r + rest)[..|r|] == r == r[..|r|];
    assert r[0] == |r| by {
      FixedPartFields(name, lba, len);
      NewRecordFields(name, lba, len);
      assert r[0] == r[..33][0];
    }
    ParseLocal(r, r + rest, off);
  }

  lemma ParseNewRecord(name: bytes, lba: int, len: int, off: nat)
    requires 0 <= lba < U32 && 0 <= len < U32 && |name| <= 107
    ensures var p := ParseDirRecord(NewRecord(name, lba, len), off);
            && p.Record? && p.rec.recordLen == NewRecordLen(name) && p.rec.off == off
            && p.rec.lba == lba && p.rec.dataLen == len && !p.rec.isDir && !p.rec.IsDot()
            && p.rec.id == IsoId(name) && p.rec.Name() == name
  {
    NewRecordSize(name, lba, len);
    NewRecordFields(name, lba, len);
    FixedPartFields(name, lba, len);
    PrefixFields(NewRecord(name, lba, len), FixedPart(name, lba, len));
    ParseFields(NewRecord(name, lba, len), name, lba, len, off);
    NameOf(DirRecord(NewRecordLen(name), lba, len, 0, |name| + 2, IsoId(name), name, off, false), name);
  }

  lemma ParseFields(r: bytes, name: bytes, lba: int, len: int, off: nat)
    requires 0 <= lba < U32 && 0 <= len < U32 && |name| <= 107
    requires |r| == 2 * |name| + (if |name| % 2 == 0 then 42 else 40)
    requires r[0] == |r| && r[25] == 0 && r[32] == |name| + 2
    requires r[2..10] == WriteBoth32(lba) && r[10..18] == WriteBoth32(len)
    requires r[33..35 + |name|] == IsoId(name) && r[NmStart(name)..NmStart(name) + 5 + |name|] == NmEntry(name)
    ensures ParseDirRecord(r, off)
         == Record(DirRecord(|r|, lba, len, 0, |name| + 2, IsoId(name), name, off, false))
  {
    hide ParseDirRecord, RockRidgeName, NmEntry, IsoId, ReadBoth32, WriteBoth32;
    FieldRead(r, 2, lba);
    FieldRead(r, 10, len);
    assert SuaStart(r[32]) == NmStart(name);
    NmEntryRead(name, r, NmStart(name));
    ParseByFields(r, |name|, off);
  }

  /** What parsing gives for a record whose length byte is exact and whose identifier fits. */
  lemma ParseByFields(r: bytes, n: nat, off: nat)
    requires 36 <= |r| < 256 && r[0] == |r| && n <= 107 && r[32] == n + 2
    requires SuaStart(r[32]) + 5 <= |r|
    ensures ParseDirRecord(r, off) == Record(DirRecord(r[0], ReadBoth32(r, 2), ReadBoth32(r, 10), r[25], r[32],
                                                       r[33..35 + n], RockRidgeName(r[SuaStart(r[32])..]), off,
                                                         IsDirFlag(r[25])))
  {
    hide RockRidgeName, ReadBoth32, IsDirFlag;
    assert r[SuaStart(r[32])..|r|] == r[SuaStart(r[32])..];
  }

  lemma FieldRead(r: bytes, at: nat, v: int)
    requires 0 <= v < U32 && at + 8 <= |r| && r[at..at + 8] == WriteBoth32(v)
    ensures ReadBoth32(r, at) == v
  {
    assert WriteBoth32(v) == WriteBoth32(v)[0..8];
    ReadLocal(r, at, WriteBoth32(v), 0);
    ReadOfWrite(v);
  }

  lemma PrefixFields(r: bytes, h: bytes)
    requires |h| == 33 <= |r| && r[..33] == h
    ensures r[0] == h[0] && r[25] == h[25] && r[32] == h[32] && r[2..10] == h[2..10] && r[10..18] == h[10..18]
  {
    assert forall k | 0 <= k < 33 :: r[k] == h[k];
  }

  lemma NameOf(rec: DirRecord, name: bytes)
    requires rec.rrName == name && rec.id == IsoId(name)
    ensures rec.Name() == name
  {
    if name == [] {
      assert rec.id == [59, 49];
    }
  }

  lemma NmEntryRead(name: bytes, r: bytes, at: nat)
    requires |name| <= 250 && at + 5 + |name| <= |r| && r[at..at + 5 + |name|] == NmEntry(name)
    ensures RockRidgeName(r[at..]) == name
  {
    var n, s := NmEntry(name), r[at..];
    assert s[..|n|] == n;
    assert s[0] == n[0] && s[1] == n[1] && s[2] == n[2] && s[4] == n[4];
    assert s[5..s[2]] == n[5..] == name;
  }

  /** The bound is exact: a longer name is never read back. */
  lemma {:induction false} NewRecordRoundTripIff(name: bytes, lba: int, len: int, rest: bytes, off: nat)
    requires 0 <= lba < U32 && 0 <= len < U32
    ensures var p := ParseDirRecord(NewRecord(name, lba, len) + rest, off);
            p.Record? && p.rec.Name() == name <==> |name| <= 107
  {
    hide ParseDirRecord, NewRecord;
    if |name| <= 107 {
      NewRecordRoundTrip(name, lba, len, rest, off);
    } else {
      LongNameUnread(name, lba, len, rest, off);
    }
  }

  /** The length byte of a long record is too small for its name. */
  lemma LongNameUnread(name: bytes, lba: int, len: int, rest: bytes, off: nat)
    requires 0 <= lba < U32 && 0 <= len < U32 && |name| > 107
    ensures var p := ParseDirRecord(NewRecord(name, lba, len) + rest, off); p.Record? ==> p.rec.Name() != name
  {
    hide ParseDirRecord, NewRecord, FixedPart, NewRecordLen;
    var raw := NewRecord(name, lba, len) + rest;
    NewRecordFields(name, lba, len);
    NewRecordSize(name, lba, len);
    FixedPartFields(name, lba, len);
    PrefixFields(NewRecord(name, lba, len), FixedPart(name, lba, len));
    if ParseDirRecord(raw, off).Record? {
      NameFitsRecord(raw, off);
      LengthByteShort(|name|, raw[0]);
    }
  }

  lemma LengthByteShort(n: nat, b: int)
    requires n > 107 && b == (2 * n + (if n % 2 == 0 then 42 else 40)) % 256
    ensures n > b - 33
  {
  }

  // What parsing the built record gives, by the length of the name: its length byte and its identifier's are cut.

  /** The length byte is below 33, so that no record is seen. */
  predicate Unseen(n: nat) {
    108 <= n % 128 <= 123
  }

  /** The end of the identifier wraps below its start. */
  predicate OutOfBounds(n: nat) {
    221 <= n % 256 <= 235 || 252 <= n % 256 <= 253
  }

  lemma {:induction false} BuiltRecordParse(name: bytes, lba: int, len: int, rest: bytes, off: nat)
    requires 0 <= lba < U32 && 0 <= len < U32
    ensures var p := ParseDirRecord(NewRecord(name, lba, len) + rest, off);
            && (p.NoRecord? <==> Unseen(|name|)) && (p.OutOfRange? <==> OutOfBounds(|name|))
  {
    hide ParseDirRecord, NewRecord, FixedPart, NewRecordLen, Unseen, OutOfBounds;
    var raw := NewRecord(name, lba, len) + rest;
    NewRecordFields(name, lba, len);
    NewRecordSize(name, lba, len);
    FixedPartFields(name, lba, len);
    PrefixFields(NewRecord(name, lba, len), FixedPart(name, lba, len));
    CutLengths(|name|);
    ParseCrashesIff(raw, off);
    NoRecordIff(raw, off);
  }

  lemma NoRecordIff(raw: bytes, off: nat)
    requires |raw| > 0
    ensures ParseDirRecord(raw, off).NoRecord? <==> raw[0] < 33 || raw[0] > |raw|
  {
  }

  function CutLength(n: nat): int {
    (2 * n + (if n % 2 == 0 then 42 else 40)) % 256
  }

  lemma CutLengths(n: nat)
    ensures CutLength(n) <= 2 * n + (if n % 2 == 0 then 42 else 40)
    ensures CutLength(n) < 33 <==> Unseen(n)
    ensures CutLength(n) >= 33 && (n + 2) % 256 >= 223 <==> OutOfBounds(n)
  {
    var q, m := n / 256, n % 256;
    assert n == 256 * q + m;
    CutPeriod(q, m);
    CutByte(m);
  }

  /** Both cut lengths have period 256. */
  lemma CutPeriod(q: nat, m: nat)
    requires m < 256
    ensures var n := 256 * q + m;
            && CutLength(n) == CutLength(m) && (n + 2) % 256 == (m + 2) % 256 && n % 256 == m && n % 128 == m % 128
  {
    hide CutLength;
    var half := m / 2;
    Period256(q, m);
    Period256(q, m + 2);
    Period256(2 * q, 4 * half + 42);
    Period128(2 * q, m);
    CutHalf(m, half);
    CutHalf(256 * q + m, 128 * q + half);
  }

  lemma CutHalf(n: nat, half: nat)
    requires n == 2 * half || n == 2 * half + 1
    ensures CutLength(n) == (4 * half + 42) % 256
  {
    assert n % 2 == n - 2 * half;
  }

  lemma Period256(q: nat, x: nat)
    ensures (256 * q + x) % 256 == x % 256
  {
  }

  lemma Period128(q: nat, x: nat)
    ensures (128 * q + x) % 128 == x % 128
  {
  }

  lemma CutByte(m: nat)
    requires m < 256
    ensures CutLength(m) < 33 <==> Unseen(m)
    ensures CutLength(m) >= 33 && (m + 2) % 256 >= 223 <==> OutOfBounds(m)
  {
    hide CutLength;
    var half := m / 2;
    CutValue(m, half);
    assert m % 256 == m && m % 128 == (if m < 128 then m else m - 128);
    assert (m + 2) % 256 == if m < 254 then m + 2 else m - 254;
  }

  lemma CutValue(m: nat, half: nat)
    requires half < 128 && (m == 2 * half || m == 2 * half + 1)
    ensures CutLength(m) == if half <= 53 then 4 * half + 42 else if half <= 117 then 4 * half - 214 else 4 * half - 470
  {
    CutHalf(m, half);
    CutOff(4 * half + 42);
  }

  lemma CutOff(full: nat)
    requires full < 768
    ensures full % 256 == if full < 256 then full else if full < 512 then full - 256 else full - 512
  {
  }

  /** A parsed name is shorter than the record it came from. */
  lemma NameFitsRecord(raw: bytes, off: nat)
    requires ParseDirRecord(raw, off).Record?
    ensures |ParseDirRecord(raw, off).rec.Name()| <= raw[0] - 33
  {
    var sua := SuaStart(raw[32]);
    if sua < raw[0] {
      RockRidgeNameFits(raw[sua..raw[0]]);
    }
    BeforeSemicolonFits(ParseDirRecord(raw, off).rec.id);
  }

  lemma {:induction false} RockRidgeNameFits(sua: bytes)
    ensures |RockRidgeName(sua)| <= |sua|
    decreases |sua|
  {
    if |sua| >= 5 && 3 <= sua[2] <= |sua| {
      RockRidgeNameFits(sua[sua[2]..]);
    }
  }

  lemma {:induction false} BeforeSemicolonFits(s: bytes)
    ensures |BeforeSemicolon(s)| <= |s|
  {
    if s != [] {
      BeforeSemicolonFits(s[1..]);
    }
  }
}
