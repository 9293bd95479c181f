/**
 * Directory records as section 9.1 of ECMA-119 lays them out, with system use entries as RRIP has them: what the parser
 * reads of any of them, and that the built record is one.
 */
module Iso9660Format {
  import opened Bytes
  import opened Iso9660Record

  // System use entries.

  /** An NM entry with a piece of the name, or any other entry: signature, and what follows its length byte. */
  datatype Entry = Nm(flags: byte, piece: bytes) | Other(first: byte, second: byte, tail: bytes)

  predicate EntryOk(e: Entry) {
    match e
    case Nm(_, piece) => |piece| <= 250
    case Other(first, second, tail) => |tail| <= 252 && (first != 78 || second != 77)
  }

  function EntryBytes(e: Entry): (b: bytes)
    requires EntryOk(e)
    ensures |b| == (if e.Nm? then 5 + |e.piece| else 3 + |e.tail|)
  {
    match e
    case Nm(flags, piece) => [78, 77, 5 + |piece|, 1, flags] + piece
    case Other(first, second, tail) => [first, second, 3 + |tail|] + tail
  }

  function EntriesBytes(es: seq<Entry>): bytes
    requires forall e | e in es :: EntryOk(e)
  {
    if es == [] then [] else EntryBytes(es[0]) + EntriesBytes(es[1..])
  }

  /** The pieces of the NM entries, in order, up to the first that does not say that the name goes on. */
  function NameIn(es: seq<Entry>): bytes {
    if es == [] then []
    else
      match es[0]
      case Other(_, _, _) => NameIn(es[1..])
      case Nm(flags, piece) => piece + (if flags % 2 == 1 then NameIn(es[1..]) else [])
  }

  lemma OneEntry(e: Entry, rest: bytes)
    requires EntryOk(e)
    ensures RockRidgeName(EntryBytes(e) + rest)
         == match e
            case Other(_, _, _) => RockRidgeName(rest)
            case Nm(flags, piece) => piece + (if flags % 2 == 1 then RockRidgeName(rest) else [])
  {
    var s, n := EntryBytes(e) + rest, |EntryBytes(e)|;
    assert s[..n] == EntryBytes(e) && s[n..] == rest;
    if e.Nm? {
      assert s[5..n] == e.piece;
    }
  }

  /** The name of entries before a tail that begins no further one is that of their NM entries. */
  lemma {:induction false} NameOfEntries(es: seq<Entry>, tail: bytes)
    requires (forall e | e in es :: EntryOk(e)) && |tail| < 5
    ensures RockRidgeName(EntriesBytes(es) + tail) == NameIn(es)
  {
    hide EntryOk, EntryBytes, RockRidgeName;
    if es == [] {
      NoEntry(tail);
      assert EntriesBytes(es) + tail == tail;
    } else {
      var e, rest := es[0], es[1..];
      assert e in es && forall f | f in rest :: f in es;
      NameOfEntries(rest, tail);
      OneEntry(e, EntriesBytes(rest) + tail);
      assert EntriesBytes(es) + tail == EntryBytes(e) + (EntriesBytes(rest) + tail);
    }
  }

  lemma NoEntry(tail: bytes)
    requires |tail| < 5
    ensures RockRidgeName(tail) == []
  {
  }

  /** An entry whose length byte is too small, or points past the end, ends the name. */
  lemma {:induction false} BadEntryEndsName(sua: bytes)
    requires |sua| >= 3
    requires sua[2] > |sua| || sua[2] < 3 || (sua[0] == 78 && sua[1] == 77 && sua[2] < 5)
    ensures RockRidgeName(sua) == []
  {
  }

  // Records.

  /** The fields that come behind the extent and before the identifier. */
  datatype Middle = Middle(date: bytes, flags: byte, unit: byte, gap: byte, volume: bytes)

  predicate RecordOk(lba: int, len: int, m: Middle, id: bytes, use: bytes) {
    && 0 <= lba < U32 && 0 <= len < U32 && |m.date| == 7 && |m.volume| == 4
    && 33 + |id| + |IdPad(id)| + |use| <= 255
  }

  /** A zero byte behind an identifier of even length. */
  function IdPad(id: bytes): bytes {
    if |id| % 2 == 0 then [0] else []
  }

  function RecordHead(total: byte, attribute: byte, lba: int, len: int, m: Middle, idLen: byte): (b: bytes)
    requires 0 <= lba < U32 && 0 <= len < U32 && |m.date| == 7 && |m.volume| == 4
    ensures |b| == 33
  {
    [total, attribute] + WriteBoth32(lba) + WriteBoth32(len) + m.date + [m.flags, m.unit, m.gap] + m.volume + [idLen]
  }

  function RecordBytes(attribute: byte, lba: int, len: int, m: Middle, id: bytes, use: bytes): bytes
    requires RecordOk(lba, len, m, id, use)
  {
    RecordHead(33 + |id| + |IdPad(id)| + |use|, attribute, lba, len, m, |id|) + (id + (IdPad(id) + use))
  }

  lemma HeadFields(total: byte, attribute: byte, lba: int, len: int, m: Middle, idLen: byte)
    requires 0 <= lba < U32 && 0 <= len < U32 && |m.date| == 7 && |m.volume| == 4
    ensures var b := RecordHead(total, attribute, lba, len, m, idLen);
            && b[0] == total && b[2..10] == WriteBoth32(lba) && b[10..18] == WriteBoth32(len)
            && b[25] == m.flags && b[32] == idLen
  {
    hide WriteBoth32;
  }

  lemma SecondBit(flags: byte)
    ensures flags % 4 >= 2 <==> IsDirFlag(flags)
  {
  }

  /** Every record of the standard is read back field by field, whatever follows it, with the name its entries spell. */
  lemma {:induction false} ParseStandard(attribute: byte, lba: int, len: int, m: Middle, id: bytes, es: seq<Entry>,
                                         tail: bytes, rest: bytes, off: nat)
    requires (forall e | e in es :: EntryOk(e)) && |tail| < 5 && RecordOk(lba, len, m, id, EntriesBytes(es) + tail)
    ensures var p := ParseDirRecord(RecordBytes(attribute, lba, len, m, id, EntriesBytes(es) + tail) + rest, off);
            && p == Record(DirRecord(33 + |id| + |IdPad(id)| + |EntriesBytes(es) + tail|, lba, len, m.flags, |id|, id,
                                     NameIn(es), off, m.flags % 4 >= 2))
            && p.rec.Name() == (if NameIn(es) == [] then BeforeSemicolon(id) else NameIn(es))
            && (p.rec.IsDot() <==> id == [0] || id == [1])
  {
    hide ParseDirRecord, RockRidgeName, WriteBoth32, IsDirFlag, EntriesBytes, RecordHead, RecordBytes;
    var use := EntriesBytes(es) + tail;
    var total := 33 + |id| + |IdPad(id)| + |use|;
    var raw := RecordBytes(attribute, lba, len, m, id, use) + rest;
    RecordParts(attribute, lba, len, m, id, use, rest);
    NameOfEntries(es, tail);
    SecondBit(m.flags);
    FieldRead(raw, 2, lba);
    FieldRead(raw, 10, len);
    ParseInPlace(raw, id, use, off);
    NoUseNoName(es, tail);
  }

  lemma NoUseNoName(es: seq<Entry>, tail: bytes)
    requires forall e | e in es :: EntryOk(e)
    ensures EntriesBytes(es) + tail == [] ==> NameIn(es) == []
  {
    if es != [] {
      assert |EntriesBytes(es)| >= |EntryBytes(es[0])|;
    }
  }

  lemma RecordParts(attribute: byte, lba: int, len: int, m: Middle, id: bytes, use: bytes, rest: bytes)
    requires RecordOk(lba, len, m, id, use)
    ensures var raw, at := RecordBytes(attribute, lba, len, m, id, use) + rest, 33 + |id| + |IdPad(id)|;
            && |raw| == at + |use| + |rest| && raw[0] == at + |use| && raw[2..10] == WriteBoth32(lba)
            && raw[10..18] == WriteBoth32(len) && raw[25] == m.flags && raw[32] == |id|
            && raw[33..33 + |id|] == id && raw[at..at + |use|] == use
  {
    hide RecordHead, WriteBoth32;
    var at := 33 + |id| + |IdPad(id)|;
    var head := RecordHead(at + |use|, attribute, lba, len, m, |id|);
    HeadFields(at + |use|, attribute, lba, len, m, |id|);
    var raw := head + (id + (IdPad(id) + use)) + rest;
    assert raw[..33] == head;
    PrefixFields(raw, head);
    assert raw[33..] == id + (IdPad(id) + use) + rest;
  }

  /** Parsing by position. */
  lemma ParseInPlace(raw: bytes, id: bytes, use: bytes, off: nat)
    requires var at := 33 + |id| + |IdPad(id)|;
             at + |use| <= 255 && at + |use| <= |raw| && raw[0] == at + |use| && raw[32] == |id|
             && raw[33..33 + |id|] == id && raw[at..at + |use|] == use
    ensures ParseDirRecord(raw, off)
         == Record(DirRecord(raw[0], ReadBoth32(raw, 2), ReadBoth32(raw, 10), raw[25], |id|, id,
                             if use == [] then [] else RockRidgeName(use), off, IsDirFlag(raw[25])))
  {
    hide RockRidgeName, ReadBoth32, IsDirFlag, ParseId, SuaStart, IdPad;
    IdInPlace(raw, id);
    UseStart(raw, id);
  }

  lemma IdInPlace(raw: bytes, id: bytes)
    requires |raw| > 0 && 33 + |id| <= raw[0] <= |raw| && raw[33..33 + |id|] == id
    ensures ParseId(raw, raw[0], |id|) == Some(id)
  {
    assert (33 + |id|) % 256 == 33 + |id|;
  }

  lemma UseStart(raw: bytes, id: bytes)
    requires |raw| > 32 && raw[32] == |id|
    ensures SuaStart(raw[32]) == 33 + |id| + |IdPad(id)|
  {
  }

  /** Without a Rock Ridge name the name is the identifier up to its version number. */
  lemma {:induction false} NameWithoutVersion(name: bytes, version: bytes)
    requires 59 !in name
    ensures BeforeSemicolon(name) == name && BeforeSemicolon(name + [59] + version) == name
  {
    if name != [] {
      NameWithoutVersion(name[1..], version);
      assert (name + [59] + version)[1..] == name[1..] + [59] + version;
    }
  }

  /** The identifier of a name: small ASCII letters made capitals, and version 1. */
  predicate Capitals(name: bytes, id: bytes) {
    && |id| == |name| + 2 && id[|name|..] == [59, 49]
    && forall i | 0 <= i < |name| :: id[i] == if 97 <= name[i] <= 122 then name[i] - 32 else name[i]
  }

  /** The record an add builds is one of the standard: no date, a plain file, volume 1, and one NM entry. */
  lemma {:induction false} BuiltIsStandard(name: bytes, lba: int, len: int)
    requires 0 < |name| <= 107 && 0 <= lba < U32 && 0 <= len < U32
    ensures var m, id := Middle(Zeros(7), 0, 0, 0, [1, 0, 0, 1]), IsoId(name);
            var use := EntryBytes(Nm(0, name)) + (if |name| % 2 == 0 then [0] else []);
            Capitals(name, id) && RecordOk(lba, len, m, id, use)
              && NewRecord(name, lba, len) == RecordBytes(0, lba, len, m, id, use)
  {
    hide *;
    var id, n := IsoId(name), NmEntry(name);
    var pad: bytes := if |name| % 2 == 0 then [0] else [];
    NewRecordSize(name, lba, len);
    IdCapitals(name);
    NmIsEntry(name);
    HeadIsFixed(name, lba, len);
    BuiltRecord(name, lba, len, id, n, pad);
    NewRecordIs(name, lba, len);
    ZeroPad(pad);
    Padding(FixedPart(name, lba, len), id, IdPad(id), n, pad, NewRecordLen(name));
  }

  lemma NmIsEntry(name: bytes)
    requires |name| <= 107
    ensures EntryOk(Nm(0, name)) && EntryBytes(Nm(0, name)) == NmEntry(name) && |NmEntry(name)| == 5 + |name|
  {
  }

  lemma ZeroPad(pad: bytes)
    requires pad == [] || pad == [0]
    ensures pad == Zeros(|pad|)
  {
  }

  lemma BuiltRecord(name: bytes, lba: int, len: int, id: bytes, n: bytes, pad: bytes)
    requires |name| <= 107 && 0 <= lba < U32 && 0 <= len < U32 && |id| == |name| + 2 && |n| == 5 + |name|
    requires |pad| == |IdPad(id)| == (if |name| % 2 == 0 then 1 else 0)
    ensures var m, total := Middle(Zeros(7), 0, 0, 0, [1, 0, 0, 1]), 2 * |name| + (if |name| % 2 == 0 then 42 else 40);
            && total <= 255 && RecordOk(lba, len, m, id, n + pad)
            && RecordBytes(0, lba, len, m, id, n + pad)
               == RecordHead(total, 0, lba, len, m, |name| + 2) + (id + (IdPad(id) + (n + pad)))
            && |RecordHead(total, 0, lba, len, m, |name| + 2)| == 33
  {
    hide RecordHead, IdPad;
  }

  /** Without a name the record differs from the standard's in the byte behind the identifier, which is 1. */
  lemma {:induction false} BuiltWithoutName(lba: int, len: int)
    requires 0 <= lba < U32 && 0 <= len < U32
    ensures var m, id, use := Middle(Zeros(7), 0, 0, 0, [1, 0, 0, 1]), [59, 49], EntryBytes(Nm(0, [])) + [0];
            && RecordOk(lba, len, m, id, use) && |RecordBytes(0, lba, len, m, id, use)| > 35
            && NewRecord([], lba, len) == RecordBytes(0, lba, len, m, id, use)[35 := 1]
  {
    hide FixedPart, RecordHead, WriteBoth32, NewRecordLen, IsoId, IdPadding, SystemUse, EntryBytes;
    EmptyNameParts();
    HeadIsFixed([], lba, len);
    var h := FixedPart([], lba, len);
    assert PadTo(h + ([59, 49] + ([1] + [78, 77, 5, 1, 0])), 42) == h + [59, 49, 1, 78, 77, 5, 1, 0, 0];
  }

  lemma EmptyNameParts()
    ensures IsoId([]) == [59, 49] && IdPadding([]) == [1] && SystemUse([]) == [78, 77, 5, 1, 0] == EntryBytes(Nm(0, []))
    ensures NewRecordLen([]) == 42
  {
  }

  lemma IdCapitals(name: bytes)
    ensures Capitals(name, IsoId(name)) && |IsoId(name)| == |name| + 2
    ensures |IdPad(IsoId(name))| == if |name| % 2 == 0 then 1 else 0
  {
  }

  lemma HeadIsFixed(name: bytes, lba: int, len: int)
    requires |name| <= 107 && 0 <= lba < U32 && 0 <= len < U32
    ensures var m, total := Middle(Zeros(7), 0, 0, 0, [1, 0, 0, 1]), NewRecordLen(name);
            total <= 255 && FixedPart(name, lba, len) == RecordHead(total, 0, lba, len, m, |name| + 2)
  {
    NewRecordSize(name, lba, len);
    hide WriteBoth32, NewRecordLen, Zeros;
    ZeroFields([NewRecordLen(name), 0], WriteBoth32(lba), WriteBoth32(len), [1, 0, 0, 1], |name| + 2);
  }

  lemma ZeroFields(start: bytes, lba: bytes, len: bytes, volume: bytes, idLen: byte)
    ensures start + lba + len + Zeros(10) + (volume + [idLen])
         == start + lba + len + Zeros(7) + [0, 0, 0] + volume + [idLen]
  {
    assert Zeros(10) == Zeros(7) + [0, 0, 0];
    hide Zeros;
  }

  lemma NewRecordIs(name: bytes, lba: int, len: int)
    requires name != [] && 0 <= lba < U32 && 0 <= len < U32
    ensures NewRecord(name, lba, len)
         == PadTo(FixedPart(name, lba, len) + (IsoId(name) + (IdPad(IsoId(name)) + NmEntry(name))), NewRecordLen(name))
  {
    LongerId(name);
    hide FixedPart, NmEntry, NewRecordLen;
  }

  lemma Padding(h: bytes, i: bytes, p: bytes, n: bytes, pad: bytes, total: nat)
    requires total == |h| + |i| + |p| + |n| + |pad| && pad == Zeros(|pad|)
    ensures PadTo(h + (i + (p + n)), total) == h + (i + (p + (n + pad)))
  {
  }
}
