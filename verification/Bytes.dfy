/** Bytes, little-endian words and the few string functions the disc and wire formats need. */
module Bytes {
  type byte = b: int | 0 <= b < 256
  type bytes = seq<byte>

  const U32: int := 0x1_0000_0000

  function Zeros(n: nat): (z: bytes)
    ensures |z| == n && forall i | 0 <= i < n :: z[i] == 0
  {
    seq(n, _ => 0)
  }

  /** The little-endian half of a both-byte-order number (section 7.3.3 of ECMA-119). */
  function ReadBoth32(b: bytes, at: nat): (v: int)
    requires at + 8 <= |b|
    ensures 0 <= v < U32
  {
    var b0: int, b1: int, b2: int, b3: int := b[at], b[at + 1], b[at + 2], b[at + 3];
    b0 + 0x100 * b1 + 0x1_0000 * b2 + 0x100_0000 * b3
  }

  /** A number in both byte orders: four little-endian bytes, then four big-endian ones. */
  function WriteBoth32(v: int): (b: bytes)
    requires 0 <= v < U32
    ensures |b| == 8
  {
    [v % 0x100, v / 0x100 % 0x100, v / 0x1_0000 % 0x100, v / 0x100_0000,
     v / 0x100_0000, v / 0x1_0000 % 0x100, v / 0x100 % 0x100, v % 0x100]
  }

  lemma {:induction false} ReadOfWrite(v: int)
    requires 0 <= v < U32
    ensures ReadBoth32(WriteBoth32(v), 0) == v
  {
    var b := WriteBoth32(v);
    assert v == v % 0x100 + 0x100 * (v / 0x100);
    assert v / 0x100 == v / 0x100 % 0x100 + 0x100 * (v / 0x1_0000);
    assert v / 0x1_0000 == v / 0x1_0000 % 0x100 + 0x100 * (v / 0x100_0000);
  }

  /** The big-endian half holds the same number. */
  lemma {:induction false} BigEndianHalf(v: int)
    requires 0 <= v < U32
    ensures var b := WriteBoth32(v);
            var b4: int, b5: int, b6: int, b7: int := b[4], b[5], b[6], b[7];
            b7 + 0x100 * b6 + 0x1_0000 * b5 + 0x100_0000 * b4 == v
  {
    ReadOfWrite(v);
  }

  /** The big-endian half, right or wrong, makes no difference to the number read. */
  lemma {:induction false} LittleEndianOnly(a: bytes, i: nat, b: bytes, j: nat)
    requires i + 8 <= |a| && j + 8 <= |b| && a[i..i + 4] == b[j..j + 4]
    ensures ReadBoth32(a, i) == ReadBoth32(b, j)
  {
    var u, w := a[i..i + 4], b[j..j + 4];
    assert u[0] == a[i] && u[1] == a[i + 1] && u[2] == a[i + 2] && u[3] == a[i + 3];
    assert w[0] == b[j] && w[1] == b[j + 1] && w[2] == b[j + 2] && w[3] == b[j + 3];
  }

  /** The number depends only on the eight bytes of its field. */
  lemma ReadLocal(a: bytes, i: nat, b: bytes, j: nat)
    requires i + 8 <= |a| && j + 8 <= |b| && a[i..i + 8] == b[j..j + 8]
    ensures ReadBoth32(a, i) == ReadBoth32(b, j)
  {
    assert a[i..i + 8][..4] == a[i..i + 4] && b[j..j + 8][..4] == b[j..j + 4];
    LittleEndianOnly(a, i, b, j);
  }

  // Case folding of ASCII letters.

  function LowerByte(b: byte): byte {
    if 65 <= b <= 90 then b + 32 else b
  }

  function UpperByte(b: byte): byte {
    if 97 <= b <= 122 then b - 32 else b
  }

  function Upper(s: bytes): (u: bytes)
    ensures |u| == |s|
  {
    seq(|s|, i requires 0 <= i < |s| => UpperByte(s[i]))
  }

  function Fold(s: bytes): (f: bytes)
    ensures |f| == |s|
  {
    seq(|s|, i requires 0 <= i < |s| => LowerByte(s[i]))
  }

  /** strings.EqualFold on ASCII strings. */
  predicate EqualFold(a: bytes, b: bytes) {
    Fold(a) == Fold(b)
  }

  /** Equal up to case: at each place the same byte, or one letter in its two cases. */
  lemma {:induction false} EqualFoldIff(a: bytes, b: bytes)
    ensures EqualFold(a, b) <==>
            |a| == |b| && forall i | 0 <= i < |a| ::
              a[i] == b[i] || (65 <= a[i] <= 90 && b[i] == a[i] + 32) || (65 <= b[i] <= 90 && a[i] == b[i] + 32)
  {
    if EqualFold(a, b) {
      forall i | 0 <= i < |a|
        ensures LowerByte(a[i]) == LowerByte(b[i])
      {
        assert Fold(a)[i] == Fold(b)[i];
      }
    }
  }

  /** strings.Split: the parts between separators, at least one. */
  function Split(sep: byte, s: bytes): (parts: seq<bytes>)
    ensures parts != []
  {
    if s == [] then [[]]
    else
      var rest := Split(sep, s[1..]);
      if s[0] == sep then [[]] + rest else [[s[0]] + rest[0]] + rest[1..]
  }

  /** strings.Join. */
  function Join(sep: byte, parts: seq<bytes>): bytes {
    if parts == [] then [] else if |parts| == 1 then parts[0] else parts[0] + [sep] + Join(sep, parts[1..])
  }

  /** None of the parts holds the separator. */
  predicate Apart(sep: byte, parts: seq<bytes>) {
    forall p | p in parts :: sep !in p
  }

  lemma {:induction false} SplitApart(sep: byte, s: bytes)
    ensures Apart(sep, Split(sep, s))
  {
    if s != [] {
      SplitApart(sep, s[1..]);
      var rest := Split(sep, s[1..]);
      forall p | p in Split(sep, s)
        ensures sep !in p
      {
        assert sep !in rest[0];
        assert p in rest || (if s[0] == sep then p == [] else p == [s[0]] + rest[0]);
      }
    }
  }

  lemma {:induction false} SplitCons(sep: byte, part: bytes, s: bytes)
    requires sep !in part
    ensures Split(sep, part + [sep] + s) == [part] + Split(sep, s)
    decreases |part|
  {
    var whole := part + [sep] + s;
    if part == [] {
      assert whole[1..] == s;
    } else {
      assert whole[1..] == part[1..] + [sep] + s && whole[0] == part[0];
      SplitCons(sep, part[1..], s);
      assert [whole[0]] + part[1..] == part;
      assert ([part[1..]] + Split(sep, s))[1..] == Split(sep, s);
    }
  }

  lemma {:induction false} SplitOne(sep: byte, part: bytes)
    requires sep !in part
    ensures Split(sep, part) == [part]
  {
    if part != [] {
      SplitOne(sep, part[1..]);
      assert [part[0]] + part[1..] == part;
    }
  }

  /** Splitting undoes joining. */
  lemma {:induction false} SplitJoin(sep: byte, parts: seq<bytes>)
    requires parts != [] && Apart(sep, parts)
    ensures Split(sep, Join(sep, parts)) == parts
  {
    if |parts| == 1 {
      SplitOne(sep, parts[0]);
    } else {
      SplitJoin(sep, parts[1..]);
      SplitCons(sep, parts[0], Join(sep, parts[1..]));
    }
  }

  /** Joining undoes splitting. */
  lemma {:induction false} JoinSplit(sep: byte, s: bytes)
    ensures Join(sep, Split(sep, s)) == s
  {
    if s != [] {
      JoinSplit(sep, s[1..]);
      var rest := Split(sep, s[1..]);
      if s[0] == sep {
        assert ([[]] + rest)[1..] == rest && [] + [sep] + s[1..] == s;
      } else {
        var parts := [[s[0]] + rest[0]] + rest[1..];
        assert parts[1..] == rest[1..];
        assert [s[0]] + s[1..] == s;
        if |rest| > 1 {
          assert [s[0]] + (rest[0] + [sep] + Join(sep, rest[1..])) == parts[0] + [sep] + Join(sep, parts[1..]);
        }
      }
    }
  }
}
