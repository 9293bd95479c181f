/** The answer check of the DNS smoke test, against messages encoded as section 4.1 of RFC 1035 lays them out. */
module DnsAnswer {
  import opened Bytes

  datatype Option<+T> = None | Some(value: T)

  // Messages.

  // A name is labels and then the root or a pointer into the message.
  datatype Name = Name(labels: seq<bytes>, end: NameEnd)

  datatype NameEnd = Root | Pointer(high: byte, low: byte)

  datatype Question = Question(name: Name, qtype: int, qclass: int)

  datatype Record = Record(name: Name, rtype: int, rclass: int, ttl: int, rdata: bytes)

  const U16: int := 0x1_0000

  predicate LabelOk(part: bytes) {
    1 <= |part| <= 63
  }

  /** Labels of 1 to 63 bytes; the two top bits of a pointer are ones. */
  predicate NameOk(n: Name) {
    (forall l | l in n.labels :: LabelOk(l)) && (n.end.Pointer? ==> n.end.high >= 0xC0)
  }

  /** What the code steps over as a name: labels of up to 191 bytes count too. */
  predicate Skippable(n: Name) {
    (forall l | l in n.labels :: 1 <= |l| <= 0xBF) && (n.end.Pointer? ==> n.end.high >= 0xC0)
  }

  predicate QuestionFits(q: Question) {
    Skippable(q.name) && 0 <= q.qtype < U16 && 0 <= q.qclass < U16
  }

  predicate RecordFits(r: Record) {
    Skippable(r.name) && 0 <= r.rtype < U16 && 0 <= r.rclass < U16 && 0 <= r.ttl < U32 && |r.rdata| < U16
  }

  // Encoding.

  function Put16(v: int): bytes
    requires 0 <= v < U16
  {
    [v / 0x100, v % 0x100]
  }

  function Put32(v: int): bytes
    requires 0 <= v < U32
  {
    [v / 0x100_0000, v / 0x1_0000 % 0x100, v / 0x100 % 0x100, v % 0x100]
  }

  function EncodeLabels(ls: seq<bytes>): bytes
    requires forall l | l in ls :: |l| <= 0xBF
  {
    if ls == [] then [] else [|ls[0]|] + ls[0] + EncodeLabels(ls[1..])
  }

  function EncodeEnd(e: NameEnd): bytes {
    match e
    case Root => [0]
    case Pointer(high, low) => [high, low]
  }

  function EncodeName(n: Name): bytes
    requires Skippable(n)
  {
    EncodeLabels(n.labels) + EncodeEnd(n.end)
  }

  function EncodeQuestion(q: Question): bytes
    requires QuestionFits(q)
  {
    EncodeName(q.name) + (Put16(q.qtype) + Put16(q.qclass))
  }

  function EncodeQuestions(qs: seq<Question>): bytes
    requires forall q | q in qs :: QuestionFits(q)
  {
    if qs == [] then [] else EncodeQuestion(qs[0]) + EncodeQuestions(qs[1..])
  }

  /** The ten bytes between a record's name and its data. */
  function Fixed(r: Record): (f: bytes)
    requires RecordFits(r)
    ensures |f| == 10
  {
    Put16(r.rtype) + Put16(r.rclass) + Put32(r.ttl) + Put16(|r.rdata|)
  }

  function EncodeRecord(r: Record): bytes
    requires RecordFits(r)
  {
    EncodeName(r.name) + (Fixed(r) + r.rdata)
  }

  function EncodeRecords(rs: seq<Record>): bytes
    requires forall r | r in rs :: RecordFits(r)
  {
    if rs == [] then [] else EncodeRecord(rs[0]) + EncodeRecords(rs[1..])
  }

  predicate HeaderOk(header: bytes, questions: nat, answers: nat) {
    && |header| == 12 && questions < U16 && answers < U16
    && header[4..6] == Put16(questions) && header[6..8] == Put16(answers)
  }

  // The code as functions of the bytes.

  function Get16(buf: bytes, at: nat): int
    requires at + 2 <= |buf|
  {
    var h: int, l: int := buf[at], buf[at + 1];
    0x100 * h + l
  }

  /** The offset after the name at the given offset, which may run past the end by one. */
  function SkipName(buf: bytes, offset: nat): Option<nat>
    decreases |buf| - offset
  {
    if offset >= |buf| then None
    else if buf[offset] == 0 then Some(offset + 1)
    else if buf[offset] >= 0xC0 then Some(offset + 2)
    else if offset + 1 + buf[offset] > |buf| then None
    else SkipName(buf, offset + 1 + buf[offset])
  }

  function SkipQuestions(buf: bytes, offset: nat, n: nat): Option<nat>
    decreases n
  {
    if n == 0 then Some(offset)
    else
      match SkipName(buf, offset)
      case None => None
      case Some(o) => if o + 4 > |buf| then None else SkipQuestions(buf, o + 4, n - 1)
  }

  function FindAnswer(buf: bytes, offset: nat, n: nat, expected: bytes): bool
    decreases n
  {
    n > 0 &&
    match SkipName(buf, offset)
    case None => false
    case Some(o) =>
      if o + 10 > |buf| then false
      else
        var rdlength := Get16(buf, o + 8);
        if o + 10 + rdlength > |buf| then false
        else if Get16(buf, o) == 1 && rdlength == 4 && buf[o + 10..o + 14] == expected then true
        else FindAnswer(buf, o + 10 + rdlength, n - 1, expected)
  }

  /** expected is None when the expected address does not parse as IPv4. */
  function Answered(buf: bytes, expected: Option<bytes>): bool {
    |buf| >= 12 && buf[3] % 16 == 0 && Get16(buf, 6) != 0 && expected.Some? &&
    match SkipQuestions(buf, 12, Get16(buf, 4))
    case None => false
    case Some(o) => FindAnswer(buf, o, Get16(buf, 6), expected.value)
  }

  predicate Matches(r: Record, ip: bytes) {
    r.rtype == 1 && |r.rdata| == 4 && r.rdata == ip
  }

  // Decoding what was encoded.

  /** buf holds piece at the offset. */
  predicate Holds(buf: bytes, offset: nat, piece: bytes) {
    offset + |piece| <= |buf| && buf[offset..offset + |piece|] == piece
  }

  lemma HoldsSplit(buf: bytes, offset: nat, a: bytes, b: bytes)
    ensures Holds(buf, offset, a + b) <==> Holds(buf, offset, a) && Holds(buf, offset + |a|, b)
  {
    if offset + |a| + |b| <= |buf| {
      assert buf[offset..offset + |a + b|] == buf[offset..offset + |a|] + buf[offset + |a|..offset + |a| + |b|];
      if buf[offset..offset + |a + b|] == a + b {
        assert buf[offset..offset + |a|] == (a + b)[..|a|];
        assert buf[offset + |a|..offset + |a| + |b|] == (a + b)[|a|..];
      }
    }
  }

  lemma HoldsAt(buf: bytes, offset: nat, piece: bytes, i: nat)
    requires Holds(buf, offset, piece) && i < |piece|
    ensures buf[offset + i] == piece[i]
  {
    assert buf[offset..offset + |piece|][i] == piece[i];
  }

  lemma HoldsSlice(buf: bytes, from: nat, to: nat)
    requires from <= to <= |buf|
    ensures Holds(buf, from, buf[from..to])
  {
  }

  lemma HoldsInside(buf: bytes, offset: nat, piece: bytes)
    requires Holds(buf, offset, piece)
    ensures offset + |piece| <= |buf|
  {
  }

  lemma {:induction false} SkipLabels(buf: bytes, offset: nat, ls: seq<bytes>, e: NameEnd)
    requires Skippable(Name(ls, e)) && Holds(buf, offset, EncodeName(Name(ls, e)))
    ensures SkipName(buf, offset) == Some(offset + |EncodeName(Name(ls, e))|)
    decreases |ls|
  {
    hide Holds;
    if ls == [] {
      assert EncodeName(Name(ls, e)) == EncodeEnd(e);
      HoldsAt(buf, offset, EncodeEnd(e), 0);
      HoldsInside(buf, offset, EncodeEnd(e));
    } else {
      assert ls[0] in ls;
      var head := [|ls[0]|] + ls[0];
      var rest := Name(ls[1..], e);
      assert EncodeName(Name(ls, e)) == head + EncodeName(rest);
      HoldsSplit(buf, offset, head, EncodeName(rest));
      HoldsAt(buf, offset, head, 0);
      HoldsInside(buf, offset, head);
      SkipLabels(buf, offset + |head|, ls[1..], e);
    }
  }

  lemma Get16Put(buf: bytes, at: nat, v: int)
    requires 0 <= v < U16 && Holds(buf, at, Put16(v))
    ensures Get16(buf, at) == v
  {
    HoldsAt(buf, at, Put16(v), 0);
    HoldsAt(buf, at, Put16(v), 1);
  }

  lemma {:induction false} SkipEncodedQuestions(buf: bytes, offset: nat, qs: seq<Question>)
    requires (forall q | q in qs :: QuestionFits(q)) && Holds(buf, offset, EncodeQuestions(qs))
    ensures SkipQuestions(buf, offset, |qs|) == Some(offset + |EncodeQuestions(qs)|)
    decreases |qs|
  {
    hide EncodeQuestion, SkipName, QuestionFits, Holds;
    if qs != [] {
      var q, rest := qs[0], qs[1..];
      HoldsSplit(buf, offset, EncodeQuestion(q), EncodeQuestions(rest));
      SkipEncodedQuestion(buf, offset, q);
      SkipEncodedQuestions(buf, offset + |EncodeQuestion(q)|, rest);
    }
  }

  lemma SkipEncodedQuestion(buf: bytes, offset: nat, q: Question)
    requires QuestionFits(q) && Holds(buf, offset, EncodeQuestion(q))
    ensures SkipName(buf, offset).Some?
    ensures SkipName(buf, offset).value + 4 == offset + |EncodeQuestion(q)| <= |buf|
  {
    hide SkipName, EncodeName, Skippable;
    assert Name(q.name.labels, q.name.end) == q.name;
    HoldsSplit(buf, offset, EncodeName(q.name), Put16(q.qtype) + Put16(q.qclass));
    SkipLabels(buf, offset, q.name.labels, q.name.end);
  }

  /** The fields the code reads of one encoded record. */
  lemma ReadRecord(buf: bytes, offset: nat, r: Record)
    requires RecordFits(r) && Holds(buf, offset, EncodeRecord(r))
    ensures SkipName(buf, offset).Some?
    ensures var o := SkipName(buf, offset).value;
            && o + 10 + |r.rdata| <= |buf| && Get16(buf, o) == r.rtype && Get16(buf, o + 8) == |r.rdata|
            && buf[o + 10..o + 10 + |r.rdata|] == r.rdata && o + 10 + |r.rdata| == offset + |EncodeRecord(r)|
  {
    hide EncodeName, SkipName, Put16, Put32;
    HoldsSplit(buf, offset, EncodeName(r.name), Fixed(r) + r.rdata);
    assert Name(r.name.labels, r.name.end) == r.name;
    SkipLabels(buf, offset, r.name.labels, r.name.end);
    var o := offset + |EncodeName(r.name)|;
    HoldsSplit(buf, o, Fixed(r), r.rdata);
    ReadFixed(buf, o, r);
  }

  lemma ReadFixed(buf: bytes, o: nat, r: Record)
    requires RecordFits(r) && Holds(buf, o, Fixed(r))
    ensures Get16(buf, o) == r.rtype && Get16(buf, o + 8) == |r.rdata|
  {
    var head := Put16(r.rtype) + Put16(r.rclass) + Put32(r.ttl);
    HoldsSplit(buf, o, head, Put16(|r.rdata|));
    Get16Put(buf, o + 8, |r.rdata|);
    assert head == Put16(r.rtype) + (Put16(r.rclass) + Put32(r.ttl));
    HoldsSplit(buf, o, Put16(r.rtype), Put16(r.rclass) + Put32(r.ttl));
    Get16Put(buf, o, r.rtype);
  }

  lemma {:induction false} FindEncodedAnswer(buf: bytes, offset: nat, rs: seq<Record>, ip: bytes)
    requires (forall r | r in rs :: RecordFits(r)) && Holds(buf, offset, EncodeRecords(rs)) && |ip| == 4
    ensures FindAnswer(buf, offset, |rs|, ip) <==> exists r | r in rs :: Matches(r, ip)
    decreases |rs|
  {
    hide EncodeRecord, SkipName, Get16, RecordFits, Holds;
    if rs != [] {
      assert RecordFits(rs[0]);
      HoldsSplit(buf, offset, EncodeRecord(rs[0]), EncodeRecords(rs[1..]));
      ReadRecord(buf, offset, rs[0]);
      FindEncodedAnswer(buf, offset + |EncodeRecord(rs[0])|, rs[1..], ip);
      OneOrRest(rs, ip);
    }
  }

  lemma OneOrRest(rs: seq<Record>, ip: bytes)
    requires rs != []
    ensures (exists r | r in rs :: Matches(r, ip)) <==> Matches(rs[0], ip) || exists r | r in rs[1..] :: Matches(r, ip)
  {
    hide Matches;
    assert rs == [rs[0]] + rs[1..];
  }

  /** On every encoded response the check succeeds exactly when it has no error and an answer has the address. */
  lemma {:induction false} AnsweredIff(header: bytes, qs: seq<Question>, rs: seq<Record>, rest: bytes, ip: bytes)
    requires (forall q | q in qs :: QuestionFits(q)) && (forall r | r in rs :: RecordFits(r)) && |ip| == 4
    requires HeaderOk(header, |qs|, |rs|)
    ensures Answered(header + (EncodeQuestions(qs) + (EncodeRecords(rs) + rest)), Some(ip)) <==>
            header[3] % 16 == 0 && exists r | r in rs :: Matches(r, ip)
  {
    hide EncodeQuestions, EncodeRecords, SkipQuestions, FindAnswer, Matches;
    var buf := header + (EncodeQuestions(qs) + (EncodeRecords(rs) + rest));
    HeaderRead(header, |qs|, |rs|, buf);
    HoldsTail(buf, header, EncodeQuestions(qs) + (EncodeRecords(rs) + rest));
    HoldsSplit(buf, 12, EncodeQuestions(qs), EncodeRecords(rs) + rest);
    var o := 12 + |EncodeQuestions(qs)|;
    HoldsSplit(buf, o, EncodeRecords(rs), rest);
    SkipEncodedQuestions(buf, 12, qs);
    FindEncodedAnswer(buf, o, rs, ip);
    if rs == [] {
      assert !exists r | r in rs :: Matches(r, ip);
    }
  }

  lemma HoldsTail(buf: bytes, a: bytes, b: bytes)
    requires buf == a + b
    ensures Holds(buf, |a|, b)
  {
  }

  lemma HeaderRead(header: bytes, questions: nat, answers: nat, buf: bytes)
    requires HeaderOk(header, questions, answers) && header <= buf
    ensures Get16(buf, 4) == questions && Get16(buf, 6) == answers && buf[3] == header[3]
  {
    assert buf[4..6] == header[4..6] && buf[6..8] == header[6..8];
    Get16Put(buf, 4, questions);
    Get16Put(buf, 6, answers);
  }

  /** Names as RFC 1035 has them are among those the code steps over. */
  lemma {:induction false} NameOkSkippable(n: Name)
    requires NameOk(n)
    ensures Skippable(n)
  {
  }

  // Decoding arbitrary bytes.

  /** Whatever the code steps over is the encoding of some name. */
  lemma {:induction false} NameAt(buf: bytes, offset: nat) returns (n: Name)
    requires SkipName(buf, offset).Some? && SkipName(buf, offset).value <= |buf|
    ensures Skippable(n) && Holds(buf, offset, EncodeName(n)) && SkipName(buf, offset).value == offset + |EncodeName(n)|
    decreases |buf| - offset
  {
    if buf[offset] == 0 {
      n := Name([], Root);
      assert EncodeName(n) == [0];
    } else if buf[offset] >= 0xC0 {
      n := Name([], Pointer(buf[offset], buf[offset + 1]));
      assert EncodeName(n) == [buf[offset], buf[offset + 1]];
    } else {
      var next := offset + 1 + buf[offset];
      var rest := NameAt(buf, next);
      n := Name([buf[offset + 1..next]] + rest.labels, rest.end);
      ConsName(buf, offset, next, rest);
    }
  }

  lemma ConsName(buf: bytes, offset: nat, next: nat, rest: Name)
    requires offset < next <= |buf| && 1 <= buf[offset] <= 0xBF && next == offset + 1 + buf[offset]
    requires Skippable(rest) && Holds(buf, next, EncodeName(rest))
    ensures var n := Name([buf[offset + 1..next]] + rest.labels, rest.end);
            Skippable(n) && EncodeName(n) == buf[offset..next] + EncodeName(rest) && Holds(buf, offset, EncodeName(n))
  {
    hide Holds;
    var ls := [buf[offset + 1..next]] + rest.labels;
    assert ls[1..] == rest.labels;
    assert buf[offset..next] == [|ls[0]|] + ls[0];
    HoldsSlice(buf, offset, next);
    HoldsSplit(buf, offset, buf[offset..next], EncodeName(rest));
    assert EncodeName(Name(ls, rest.end)) == buf[offset..next] + EncodeName(rest);
  }

  lemma Put16Get(buf: bytes, at: nat)
    requires at + 2 <= |buf|
    ensures 0 <= Get16(buf, at) < U16 && Put16(Get16(buf, at)) == buf[at..at + 2]
  {
  }

  lemma {:induction false} QuestionsAt(buf: bytes, offset: nat, n: nat) returns (qs: seq<Question>)
    requires SkipQuestions(buf, offset, n).Some? && offset <= |buf|
    ensures |qs| == n && forall q | q in qs :: QuestionFits(q)
    ensures Holds(buf, offset, EncodeQuestions(qs))
            && SkipQuestions(buf, offset, n).value == offset + |EncodeQuestions(qs)|
    decreases n
  {
    hide SkipName, EncodeQuestion, QuestionFits, EncodeQuestions, Holds, Get16;
    if n == 0 {
      qs := [];
      NoQuestions(buf, offset);
    } else {
      var o := SkipName(buf, offset).value;
      var q := QuestionAt(buf, offset);
      var rest := QuestionsAt(buf, o + 4, n - 1);
      qs := [q] + rest;
      EncodeQuestionsCons(q, rest);
      HoldsSplit(buf, offset, EncodeQuestion(q), EncodeQuestions(rest));
    }
  }

  lemma QuestionAt(buf: bytes, offset: nat) returns (q: Question)
    requires SkipName(buf, offset).Some? && SkipName(buf, offset).value + 4 <= |buf|
    ensures QuestionFits(q) && Holds(buf, offset, EncodeQuestion(q))
    ensures offset + |EncodeQuestion(q)| == SkipName(buf, offset).value + 4
  {
    hide SkipName, EncodeName, Put16, Skippable;
    var o := SkipName(buf, offset).value;
    var name := NameAt(buf, offset);
    Put16Get(buf, o);
    Put16Get(buf, o + 2);
    q := Question(name, Get16(buf, o), Get16(buf, o + 2));
    assert buf[o..o + 4] == Put16(q.qtype) + Put16(q.qclass);
    HoldsSplit(buf, offset, EncodeName(name), Put16(q.qtype) + Put16(q.qclass));
  }

  lemma NoQuestions(buf: bytes, offset: nat)
    requires offset <= |buf|
    ensures Holds(buf, offset, EncodeQuestions([])) && EncodeQuestions([]) == []
  {
  }

  lemma EncodeQuestionsCons(q: Question, rest: seq<Question>)
    requires QuestionFits(q) && forall k | k in rest :: QuestionFits(k)
    ensures forall k | k in [q] + rest :: QuestionFits(k)
    ensures EncodeQuestions([q] + rest) == EncodeQuestion(q) + EncodeQuestions(rest)
  {
    hide QuestionFits, EncodeQuestion;
    assert ([q] + rest)[1..] == rest;
  }

  /** The record whose fixed part starts at o. */
  function RecordOf(buf: bytes, o: nat, name: Name): Record
    requires o + 10 <= |buf| && o + 10 + Get16(buf, o + 8) <= |buf|
    requires 0 <= Get16(buf, o + 8)
  {
    Record(name, Get16(buf, o), Get16(buf, o + 2), 0x1_0000 * Get16(buf, o + 4) + Get16(buf, o + 6),
           buf[o + 10..o + 10 + Get16(buf, o + 8)])
  }

  lemma RecordAt(buf: bytes, offset: nat, o: nat, name: Name)
    requires Skippable(name) && Holds(buf, offset, EncodeName(name)) && o == offset + |EncodeName(name)|
    requires o + 10 <= |buf| && 0 <= Get16(buf, o + 8) && o + 10 + Get16(buf, o + 8) <= |buf|
    ensures var r := RecordOf(buf, o, name);
            RecordFits(r) && Holds(buf, offset, EncodeRecord(r)) && offset + |EncodeRecord(r)| == o + 10 + |r.rdata|
  {
    hide EncodeName, Skippable, Get16, Put16, Put32;
    var r := RecordOf(buf, o, name);
    FixedAt(buf, o, r);
    assert Holds(buf, o + 10, r.rdata);
    HoldsSplit(buf, o, Fixed(r), r.rdata);
    HoldsSplit(buf, offset, EncodeName(name), Fixed(r) + r.rdata);
  }

  lemma FixedAt(buf: bytes, o: nat, r: Record)
    requires o + 10 <= |buf| && 0 <= Get16(buf, o + 8) && o + 10 + Get16(buf, o + 8) <= |buf|
             && r == RecordOf(buf, o, r.name)
    requires Skippable(r.name)
    ensures RecordFits(r) && Holds(buf, o, Fixed(r))
  {
    Put16Get(buf, o);
    Put16Get(buf, o + 2);
    Put16Get(buf, o + 4);
    Put16Get(buf, o + 6);
    Put16Get(buf, o + 8);
    Put32Halves(Get16(buf, o + 4), Get16(buf, o + 6));
    hide Get16, Put16, Put32, Skippable;
    assert buf[o..o + 10] == buf[o..o + 2] + buf[o + 2..o + 4] + (buf[o + 4..o + 6] + buf[o + 6..o + 8])
           + buf[o + 8..o + 10];
  }

  lemma Put32Halves(a: int, b: int)
    requires 0 <= a < U16 && 0 <= b < U16
    ensures 0 <= 0x1_0000 * a + b < U32 && Put32(0x1_0000 * a + b) == Put16(a) + Put16(b)
  {
    var v := 0x1_0000 * a + b;
    HighBytes(a, b);
    LowBytes(a, b);
    assert Put32(v) == [a / 0x100, a % 0x100, b / 0x100, b % 0x100];
  }

  lemma HighBytes(a: int, b: int)
    requires 0 <= a < U16 && 0 <= b < U16
    ensures var v := 0x1_0000 * a + b; v / 0x1_0000 == a && v / 0x100_0000 == a / 0x100
  {
  }

  lemma LowBytes(a: int, b: int)
    requires 0 <= a < U16 && 0 <= b < U16
    ensures var v := 0x1_0000 * a + b; v / 0x100 % 0x100 == b / 0x100 && v % 0x100 == b % 0x100
  {
    var v, bh, bl := 0x1_0000 * a + b, b / 0x100, b % 0x100;
    assert v == 0x100 * (0x100 * a + bh) + bl;
    assert v / 0x100 == 0x100 * a + bh;
  }

  lemma FoundStep(buf: bytes, offset: nat, n: nat, ip: bytes)
    requires FindAnswer(buf, offset, n, ip)
    ensures n > 0 && SkipName(buf, offset).Some?
    ensures var o := SkipName(buf, offset).value;
            && o + 10 <= |buf| && 0 <= Get16(buf, o + 8) && o + 10 + Get16(buf, o + 8) <= |buf|
            && (!Matches(RecordOf(buf, o, Name([], Root)), ip)
               ==> FindAnswer(buf, o + 10 + Get16(buf, o + 8), n - 1, ip))
  {
    hide SkipName;
  }

  lemma EncodeRecordsCons(r: Record, rest: seq<Record>)
    requires RecordFits(r) && forall k | k in rest :: RecordFits(k)
    ensures (forall k | k in [r] + rest :: RecordFits(k))
            && EncodeRecords([r] + rest) == EncodeRecord(r) + EncodeRecords(rest)
  {
    hide RecordFits, EncodeRecord;
    assert ([r] + rest)[1..] == rest;
  }

  /** A success points at records, the last of which has the address. */
  lemma {:induction false} AnswersAt(buf: bytes, offset: nat, n: nat, ip: bytes) returns (rs: seq<Record>)
    requires FindAnswer(buf, offset, n, ip)
    ensures rs != [] && |rs| <= n && (forall r | r in rs :: RecordFits(r)) && Holds(buf, offset, EncodeRecords(rs))
    ensures Matches(rs[|rs| - 1], ip)
    decreases n
  {
    hide SkipName, EncodeRecord, EncodeRecords, RecordFits, Skippable, Holds, Get16, FindAnswer;
    FoundStep(buf, offset, n, ip);
    var o := SkipName(buf, offset).value;
    var name := NameAt(buf, offset);
    RecordAt(buf, offset, o, name);
    var r := RecordOf(buf, o, name);
    var rest: seq<Record> := [];
    if Matches(r, ip) {
      NoRecords(buf, offset + |EncodeRecord(r)|);
    } else {
      rest := AnswersAt(buf, o + 10 + |r.rdata|, n - 1, ip);
    }
    rs := [r] + rest;
    EncodeRecordsCons(r, rest);
    HoldsSplit(buf, offset, EncodeRecord(r), EncodeRecords(rest));
  }

  lemma NoRecords(buf: bytes, offset: nat)
    requires offset <= |buf|
    ensures Holds(buf, offset, EncodeRecords([]))
  {
  }

  /** Records with a match among at most n make the search succeed, whatever follows them. */
  lemma {:induction false} FindAmong(buf: bytes, offset: nat, n: nat, rs: seq<Record>, ip: bytes)
    requires (forall r | r in rs :: RecordFits(r)) && Holds(buf, offset, EncodeRecords(rs)) && |rs| <= n && |ip| == 4
    requires exists r | r in rs :: Matches(r, ip)
    ensures FindAnswer(buf, offset, n, ip)
    decreases |rs|
  {
    hide EncodeRecord, SkipName, Get16, RecordFits, Holds;
    assert RecordFits(rs[0]);
    HoldsSplit(buf, offset, EncodeRecord(rs[0]), EncodeRecords(rs[1..]));
    ReadRecord(buf, offset, rs[0]);
    OneOrRest(rs, ip);
    if !Matches(rs[0], ip) {
      FindAmong(buf, offset + |EncodeRecord(rs[0])|, n - 1, rs[1..], ip);
    }
  }

  /** The bytes begin with the announced questions and with records among which one has the address. */
  ghost predicate HoldsAnswer(buf: bytes, ip: bytes) {
    && |buf| >= 12 && 0 <= Get16(buf, 4) && 0 <= Get16(buf, 6)
    && exists qs: seq<Question>, rs: seq<Record> ::
         && |qs| == Get16(buf, 4) && |rs| <= Get16(buf, 6)
         && (forall q | q in qs :: QuestionFits(q)) && (forall r | r in rs :: RecordFits(r))
         && Holds(buf, 12, EncodeQuestions(qs) + EncodeRecords(rs))
         && exists r | r in rs :: Matches(r, ip)
  }

  /** On arbitrary bytes: the check succeeds exactly when they begin with a message that answers with the address. */
  lemma {:induction false} AnsweredExactly(buf: bytes, ip: bytes)
    requires |ip| == 4
    ensures Answered(buf, Some(ip)) <==> HoldsAnswer(buf, ip) && buf[3] % 16 == 0
  {
    hide EncodeQuestions, EncodeRecords, SkipQuestions, FindAnswer, Matches, QuestionFits, RecordFits, Holds;
    if |buf| >= 12 {
      Put16Get(buf, 4);
      Put16Get(buf, 6);
    }
    if Answered(buf, Some(ip)) {
      var qs := QuestionsAt(buf, 12, Get16(buf, 4));
      var o := 12 + |EncodeQuestions(qs)|;
      var rs := AnswersAt(buf, o, Get16(buf, 6), ip);
      HoldsSplit(buf, 12, EncodeQuestions(qs), EncodeRecords(rs));
      assert rs[|rs| - 1] in rs;
    } else if HoldsAnswer(buf, ip) && buf[3] % 16 == 0 {
      var qs: seq<Question>, rs: seq<Record> :|
        && |qs| == Get16(buf, 4) && |rs| <= Get16(buf, 6)
        && (forall q | q in qs :: QuestionFits(q)) && (forall r | r in rs :: RecordFits(r))
        && Holds(buf, 12, EncodeQuestions(qs) + EncodeRecords(rs))
        && exists r | r in rs :: Matches(r, ip);
      HoldsSplit(buf, 12, EncodeQuestions(qs), EncodeRecords(rs));
      SkipEncodedQuestions(buf, 12, qs);
      FindAmong(buf, 12 + |EncodeQuestions(qs)|, Get16(buf, 6), rs, ip);
    }
  }

  // The loops.

  method SkipDNSName(buf: bytes, start: nat) returns (r: Option<nat>)
    ensures r == SkipName(buf, start)
  {
    var offset := start;
    while true
      invariant SkipName(buf, start) == SkipName(buf, offset)
      decreases |buf| - offset
    {
      if offset >= |buf| {
        return None;
      }
      var length := buf[offset];
      if length == 0 {
        return Some(offset + 1);
      }
      if length >= 0xC0 {
        return Some(offset + 2);
      }
      if offset + 1 + length > |buf| {
        return None;
      }
      offset := offset + 1 + length;
    }
  }

  lemma SkipQuestionsStep(buf: bytes, offset: nat, n: nat)
    requires n > 0
    ensures var o := SkipName(buf, offset);
            SkipQuestions(buf, offset, n)
            == if o.None? || o.value + 4 > |buf| then None else SkipQuestions(buf, o.value + 4, n - 1)
  {
    hide SkipName;
  }

  lemma SameFour(buf: bytes, at: nat, ip: bytes)
    requires at + 4 <= |buf| && |ip| == 4
    ensures buf[at..at + 4] == ip <==>
            buf[at] == ip[0] && buf[at + 1] == ip[1] && buf[at + 2] == ip[2] && buf[at + 3] == ip[3]
  {
    var s := buf[at..at + 4];
    assert s[0] == buf[at] && s[1] == buf[at + 1] && s[2] == buf[at + 2] && s[3] == buf[at + 3];
  }

  method ParseDNSAAnswer(buf: bytes, expected: Option<bytes>) returns (found: bool)
    requires expected.Some? ==> |expected.value| == 4
    ensures found == Answered(buf, expected)
  {
    hide SkipName, Get16;
    if |buf| < 12 || buf[3] % 16 != 0 {
      return false;
    }
    Put16Get(buf, 4);
    Put16Get(buf, 6);
    var qdcount, ancount := Get16(buf, 4), Get16(buf, 6);
    if ancount == 0 {
      return false;
    }
    var offset := 12;
    for i := 0 to qdcount
      invariant offset >= 0 && SkipQuestions(buf, 12, qdcount) == SkipQuestions(buf, offset, qdcount - i)
    {
      var o := SkipDNSName(buf, offset);
      SkipQuestionsStep(buf, offset, qdcount - i);
      if o.None? || o.value + 4 > |buf| {
        return false;
      }
      offset := o.value + 4;
    }
    if expected.None? {
      return false;
    }
    ghost var first := offset;
    for i := 0 to ancount
      invariant offset >= 0 && FindAnswer(buf, first, ancount, expected.value)
                == FindAnswer(buf, offset, ancount - i, expected.value)
    {
      var o := SkipDNSName(buf, offset);
      if o.None? || o.value + 10 > |buf| {
        return false;
      }
      offset := o.value + 10;
      Put16Get(buf, o.value + 8);
      var rtype, rdlength := Get16(buf, o.value), Get16(buf, o.value + 8);
      if offset + rdlength > |buf| {
        return false;
      }
      if rtype == 1 && rdlength == 4 {
        SameFour(buf, offset, expected.value);
        if buf[offset] == expected.value[0] && buf[offset + 1] == expected.value[1]
          && buf[offset + 2] == expected.value[2]
           && buf[offset + 3] == expected.value[3] {
          return true;
        }
      }
      offset := offset + rdlength;
    }
    return false;
  }

  // The query.

  const QUERY_HEADER: bytes := [0xAB, 0xCD, 0x01, 0, 0, 1, 0, 0, 0, 0, 0, 0]

  function TrimDot(fqdn: bytes): bytes {
    if fqdn != [] && fqdn[|fqdn| - 1] == 46 then fqdn[..|fqdn| - 1] else fqdn
  }

  function NonEmpty(parts: seq<bytes>): seq<bytes> {
    if parts == [] then [] else if parts[0] == [] then NonEmpty(parts[1..]) else [parts[0]] + NonEmpty(parts[1..])
  }

  /** The nonempty labels of a host name. */
  function LabelsOf(fqdn: bytes): seq<bytes> {
    NonEmpty(Split(46, TrimDot(fqdn)))
  }

  /** Each label behind its length, cut to a byte. */
  function Prefixed(ls: seq<bytes>): bytes {
    if ls == [] then [] else [|ls[0]| % 0x100] + ls[0] + Prefixed(ls[1..])
  }

  function QueryBytes(fqdn: bytes): bytes {
    QUERY_HEADER + (Prefixed(LabelsOf(fqdn)) + [0] + [0, 1] + [0, 1])
  }

  method BuildDNSAQuery(fqdn: bytes) returns (query: bytes)
    ensures query == QueryBytes(fqdn)
  {
    hide Prefixed, NonEmpty, Split;
    var labels := Split(46, TrimDot(fqdn));
    var question: bytes := [];
    NonEmptyStart(labels);
    for i := 0 to |labels|
      invariant Prefixed(LabelsOf(fqdn)) == question + Prefixed(NonEmpty(labels[i..]))
    {
      NonEmptyStep(labels, i);
      var part := labels[i];
      if |part| != 0 {
        PrefixedCons(part, NonEmpty(labels[i + 1..]));
        question := question + [|part| % 0x100];
        question := question + part;
      }
    }
    NonEmptyEnd(labels);
    question := question + [0];
    question := question + [0, 1];
    question := question + [0, 1];
    query := QUERY_HEADER + question;
  }

  lemma NonEmptyStart(parts: seq<bytes>)
    ensures parts[0..] == parts && Prefixed([]) == []
  {
  }

  lemma NonEmptyStep(parts: seq<bytes>, i: nat)
    requires i < |parts|
    ensures NonEmpty(parts[i..])
         == if parts[i] == [] then NonEmpty(parts[i + 1..]) else [parts[i]] + NonEmpty(parts[i + 1..])
  {
    assert parts[i..][0] == parts[i] && parts[i..][1..] == parts[i + 1..];
  }

  lemma NonEmptyEnd(parts: seq<bytes>)
    ensures NonEmpty(parts[|parts|..]) == [] && Prefixed([]) == []
  {
  }

  lemma PrefixedCons(l: bytes, ls: seq<bytes>)
    ensures Prefixed([l] + ls) == [|l| % 0x100] + l + Prefixed(ls)
  {
    assert ([l] + ls)[1..] == ls;
  }

  lemma {:induction false} PrefixedIsEncoded(ls: seq<bytes>)
    requires forall l | l in ls :: 1 <= |l| <= 63
    ensures Prefixed(ls) == EncodeLabels(ls)
  {
    if ls != [] {
      assert ls[0] in ls;
      PrefixedIsEncoded(ls[1..]);
    }
  }

  /**
   * The query announces and holds one question, for the host's address, and the code's own stepping ends
   * exactly at its end.
   */
  lemma {:induction false} QueryIsOneQuestion(fqdn: bytes)
    requires forall l | l in LabelsOf(fqdn) :: LabelOk(l)
    ensures var q, buf := Question(Name(LabelsOf(fqdn), Root), 1, 1), QueryBytes(fqdn);
            && NameOk(q.name) && QuestionFits(q) && HeaderOk(buf[..12], 1, 0) && buf[12..] == EncodeQuestion(q)
            && buf[..4] == [0xAB, 0xCD, 1, 0] && buf[8..12] == [0, 0, 0, 0]
            && SkipQuestions(buf, 12, 1) == Some(|buf|)
  {
    var labels := LabelsOf(fqdn);
    hide LabelsOf;
    var q := Question(Name(labels, Root), 1, 1);
    PrefixedIsEncoded(labels);
    EncodedQuery(labels);
    var buf := QUERY_HEADER + EncodeQuestion(q);
    assert EncodeQuestions([q]) == EncodeQuestion(q) + EncodeQuestions([q][1..]) == EncodeQuestion(q);
    StepOverQuery(q, buf);
  }

  lemma EncodedQuery(labels: seq<bytes>)
    requires forall l | l in labels :: 1 <= |l| <= 63
    ensures EncodeQuestion(Question(Name(labels, Root), 1, 1)) == EncodeLabels(labels) + [0] + [0, 1] + [0, 1]
  {
    hide EncodeLabels;
    assert Put16(1) == [0, 1] && EncodeEnd(Root) == [0];
  }

  lemma StepOverQuery(q: Question, buf: bytes)
    requires QuestionFits(q) && buf == QUERY_HEADER + EncodeQuestion(q) && EncodeQuestion(q) == EncodeQuestions([q])
    ensures SkipQuestions(buf, 12, 1) == Some(|buf|)
  {
    hide EncodeQuestions, SkipQuestions, EncodeQuestion, QuestionFits;
    HoldsTail(buf, QUERY_HEADER, EncodeQuestions([q]));
    SkipEncodedQuestions(buf, 12, [q]);
  }

  /** The labels of a name written in full, as section 4.1.2 of RFC 1035 reads them: lengths of 1 to 63, then 0. */
  function ReadLabels(buf: bytes, at: nat): Option<seq<bytes>>
    decreases |buf| - at
  {
    if at >= |buf| || buf[at] > 63 || at + 1 + buf[at] > |buf| then None
    else if buf[at] == 0 then Some([])
    else
      match ReadLabels(buf, at + 1 + buf[at])
      case None => None
      case Some(rest) => Some([buf[at + 1..at + 1 + buf[at]]] + rest)
  }

  lemma {:induction false} NonEmptyLabels(parts: seq<bytes>)
    ensures forall l | l in NonEmpty(parts) :: l != []
  {
    if parts != [] {
      NonEmptyLabels(parts[1..]);
    }
  }

  /** One label behind its cut length: read back if it has at most 63 bytes, and never else. */
  lemma ReadOneLabel(buf: bytes, at: nat, l: bytes, rest: seq<bytes>)
    requires l != [] && Holds(buf, at, [|l| % 0x100] + l)
    ensures |l| <= 63 ==> (ReadLabels(buf, at) == Some([l] + rest) <==> ReadLabels(buf, at + 1 + |l|) == Some(rest))
    ensures |l| > 63 ==> ReadLabels(buf, at) != Some([l] + rest)
  {
    HoldsAt(buf, at, [|l| % 0x100] + l, 0);
    HoldsSplit(buf, at, [|l| % 0x100], l);
    HeldSlice(buf, at + 1, l);
    hide Holds;
    var found := ReadLabels(buf, at);
    if |l| <= 63 {
      var tail := ReadLabels(buf, at + 1 + |l|);
      assert tail.Some? ==> ([l] + tail.value)[1..] == tail.value;
      assert ([l] + rest)[1..] == rest;
    } else if found.Some? && found.value != [] {
      assert |found.value[0]| <= 63 && ([l] + rest)[0] == l;
    }
  }

  lemma {:induction false} ReadPrefixedIff(buf: bytes, at: nat, ls: seq<bytes>)
    requires Holds(buf, at, Prefixed(ls)) && Holds(buf, at + |Prefixed(ls)|, [0]) && forall l | l in ls :: l != []
    ensures ReadLabels(buf, at) == Some(ls) <==> forall l | l in ls :: |l| <= 63
    decreases |ls|
  {
    hide Holds, ReadLabels;
    if ls == [] {
      ReadNoLabels(buf, at);
    } else {
      var l, rest := ls[0], ls[1..];
      assert ls == [l] + rest && l in ls;
      assert Prefixed(ls) == [|l| % 0x100] + l + Prefixed(rest);
      HoldsSplit(buf, at, [|l| % 0x100] + l, Prefixed(rest));
      ReadOneLabel(buf, at, l, rest);
      assert |[|l| % 0x100] + l| == 1 + |l|;
      assert forall k | k in rest :: k in ls;
      ReadPrefixedIff(buf, at + 1 + |l|, rest);
    }
  }

  lemma ReadNoLabels(buf: bytes, at: nat)
    requires Holds(buf, at, [0])
    ensures ReadLabels(buf, at) == Some([])
  {
    HoldsAt(buf, at, [0], 0);
  }

  lemma HeldSlice(buf: bytes, at: nat, piece: bytes)
    requires Holds(buf, at, piece)
    ensures at + |piece| <= |buf| && buf[at..at + |piece|] == piece
  {
  }

  /**
   * Read by the standard, the question's name has exactly the host's labels if and only if none is longer than
   * 63 bytes.
   */
  lemma {:induction false} QueryReadsBackIff(fqdn: bytes)
    ensures ReadLabels(QueryBytes(fqdn), 12) == Some(LabelsOf(fqdn)) <==> forall l | l in LabelsOf(fqdn) :: |l| <= 63
  {
    var labels := LabelsOf(fqdn);
    NonEmptyLabels(Split(46, TrimDot(fqdn)));
    hide LabelsOf, ReadLabels, Prefixed;
    HoldsTail(QueryBytes(fqdn), QUERY_HEADER, Prefixed(labels) + [0] + [0, 1] + [0, 1]);
    assert Prefixed(labels) + [0] + [0, 1] + [0, 1] == (Prefixed(labels) + [0]) + [0, 1, 0, 1];
    HoldsSplit(QueryBytes(fqdn), 12, Prefixed(labels) + [0], [0, 1, 0, 1]);
    HoldsSplit(QueryBytes(fqdn), 12, Prefixed(labels), [0]);
    ReadPrefixedIff(QueryBytes(fqdn), 12, labels);
  }
}
