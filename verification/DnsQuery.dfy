/** Which host a DNS query asks about: the name written in the query, read back by the standard. */
module DnsQuery {
  import opened Bytes
  import opened DnsAnswer

  /** The host name of some labels: the labels with a dot, byte 46, between them. */
  function Dotted(labels: seq<bytes>): bytes {
    Join(46, labels)
  }

  predicate Dotless(labels: seq<bytes>) {
    forall l | l in labels :: 46 !in l
  }

  /** Every host name is some dotless parts with dots between them. */
  lemma {:induction false} PartsOf(fqdn: bytes) returns (parts: seq<bytes>)
    ensures parts != [] && Dotless(parts) && Dotted(parts) == fqdn
  {
    parts := Split(46, fqdn);
    SplitApart(46, fqdn);
    JoinSplit(46, fqdn);
  }

  lemma {:induction false} NonEmptyConcat(a: seq<bytes>, b: seq<bytes>)
    ensures NonEmpty(a + b) == NonEmpty(a) + NonEmpty(b)
  {
    if a == [] {
      assert a + b == b && NonEmpty(a) + NonEmpty(b) == NonEmpty(b);
    } else {
      NonEmptyConcat(a[1..], b);
      NonEmptyCons(a[0], a[1..]);
      NonEmptyCons(a[0], a[1..] + b);
      assert [a[0]] + a[1..] == a && [a[0]] + (a[1..] + b) == a + b;
    }
  }

  lemma NonEmptyCons(part: bytes, rest: seq<bytes>)
    ensures NonEmpty([part] + rest) == (if part == [] then [] else [part]) + NonEmpty(rest)
  {
    assert ([part] + rest)[1..] == rest;
  }

  lemma {:induction false} NonEmptyAll(parts: seq<bytes>)
    requires forall p | p in parts :: p != []
    ensures NonEmpty(parts) == parts
  {
    if parts != [] {
      assert parts[0] in parts && forall p | p in parts[1..] :: p in parts;
      NonEmptyAll(parts[1..]);
      assert [parts[0]] + parts[1..] == parts;
    }
  }

  /** What comes behind the last dot. */
  lemma {:induction false} LastPart(parts: seq<bytes>)
    requires parts != [] && Dotless(parts)
    ensures var s, last, init := Dotted(parts), parts[|parts| - 1], parts[..|parts| - 1];
            && (s != [] && s[|s| - 1] == 46 <==> last == [] && init != [])
            && (last == [] && init != [] ==> s == Dotted(init) + [46])
  {
    var s, last, init := Dotted(parts), parts[|parts| - 1], parts[..|parts| - 1];
    if |parts| == 1 {
      assert init == [] && s == last && last in parts;
      assert s != [] ==> s[|s| - 1] in s;
    } else {
      var rest := parts[1..];
      LastPart(rest);
      assert init[1..] == rest[..|rest| - 1] && s == parts[0] + [46] + Dotted(rest);
      if last == [] && |rest| == 1 {
        assert init == [parts[0]];
      }
    }
  }

  /** The code's labels are the nonempty parts between the dots. */
  lemma {:induction false} LabelsOfDotted(parts: seq<bytes>)
    requires Dotless(parts)
    ensures LabelsOf(Dotted(parts)) == NonEmpty(parts)
  {
    hide Split, Join;
    if parts == [] {
      NoParts();
    } else {
      var init := parts[..|parts| - 1];
      LastPart(parts);
      SplitJoin(46, parts);
      if parts[|parts| - 1] == [] && init != [] {
        SplitJoin(46, init);
        NonEmptyConcat(init, [[]]);
        assert init + [[]] == parts;
      }
    }
  }

  lemma NoParts()
    ensures Dotted([]) == [] && LabelsOf([]) == [] && NonEmpty([]) == []
  {
  }

  /**
   * The question of a query is about the nonempty parts between the dots of the host name, in order, if and only if
   * none of them is longer than 63 bytes.
   */
  lemma {:induction false} QueryNames(parts: seq<bytes>)
    requires Dotless(parts)
    ensures ReadLabels(QueryBytes(Dotted(parts)), 12) == Some(NonEmpty(parts)) <==> forall p | p in parts :: |p| <= 63
  {
    hide LabelsOf, ReadLabels, QueryBytes;
    LabelsOfDotted(parts);
    QueryReadsBackIff(Dotted(parts));
    NonEmptyMembers(parts);
  }

  lemma {:induction false} NonEmptyMembers(parts: seq<bytes>)
    ensures forall p :: p in NonEmpty(parts) <==> p in parts && p != []
  {
    if parts != [] {
      NonEmptyMembers(parts[1..]);
      assert parts == [parts[0]] + parts[1..];
    }
  }

  /** An empty part between two dots, or at either end, makes no difference to the query. */
  lemma {:induction false} EmptyPartIgnored(a: seq<bytes>, b: seq<bytes>)
    requires Dotless(a) && Dotless(b)
    ensures QueryBytes(Dotted(a + [[]] + b)) == QueryBytes(Dotted(a + b))
  {
    hide LabelsOf, Dotted, Prefixed;
    LabelsOfDotted(a + [[]] + b);
    LabelsOfDotted(a + b);
    NonEmptyConcat(a + [[]], b);
    NonEmptyConcat(a, [[]]);
    NonEmptyConcat(a, b);
    assert NonEmpty([[]]) == [] && NonEmpty(a) + [] == NonEmpty(a);
  }

  /**
   * A query for labels with dots between them, ended by a dot or not, asks about just these labels if and only if
   * none is longer than 63 bytes.
   */
  lemma {:induction false} QueryNamesHost(labels: seq<bytes>)
    requires labels != [] && Dotless(labels) && forall l | l in labels :: l != []
    ensures ReadLabels(QueryBytes(Dotted(labels)), 12) == Some(labels) <==> forall l | l in labels :: |l| <= 63
    ensures ReadLabels(QueryBytes(Dotted(labels) + [46]), 12) == Some(labels) <==> forall l | l in labels :: |l| <= 63
  {
    hide ReadLabels, QueryBytes, Dotted;
    NonEmptyAll(labels);
    QueryNames(labels);
    LastPart(labels + [[]]);
    assert (labels + [[]])[..|labels|] == labels && labels + [[]] + [] == labels + [[]] && labels + [] == labels;
    EmptyPartIgnored(labels, []);
  }

  /** Some of the 64 bytes from the i-th on is a dot. */
  predicate DotAmong(s: bytes, i: nat)
    requires i + 64 <= |s|
  {
    exists k | i <= k < i + 64 :: s[k] == 46
  }

  lemma ShortStretch(s: bytes, at: nat, n: nat)
    requires forall i | 0 <= i && i + 64 <= |s| :: DotAmong(s, i)
    requires at + n <= |s|
    ensures (forall k | at <= k < at + n :: s[k] != 46) ==> n <= 63
  {
    if n > 63 {
      assert DotAmong(s, at);
      var k :| at <= k < at + 64 && s[k] == 46;
    }
  }

  /**
   * A host name that does not begin with a dot and has no two dots in a row: its query's labels, with dots between
   * them, are the name again, without the dot at its end, as long as no dotless stretch is longer than 63 bytes.
   */
  lemma {:induction false} QueryJoinsBack(fqdn: bytes)
    requires fqdn != [] && fqdn[0] != 46 && forall i | 0 <= i < |fqdn| - 1 :: fqdn[i] != 46 || fqdn[i + 1] != 46
    requires forall i | 0 <= i && i + 64 <= |fqdn| :: DotAmong(fqdn, i)
    ensures var read, host := ReadLabels(QueryBytes(fqdn), 12),
                              if fqdn[|fqdn| - 1] == 46 then fqdn[..|fqdn| - 1] else fqdn;
            read.Some? && Dotless(read.value) && Dotted(read.value) == host
  {
    hide ReadLabels, QueryBytes, Dotted;
    var host := if fqdn[|fqdn| - 1] == 46 then fqdn[..|fqdn| - 1] else fqdn;
    var labels := PartsOf(host);
    forall l | l in labels
      ensures l != [] && |l| <= 63
    {
      var i :| 0 <= i < |labels| && labels[i] == l;
      var at := PartPlace(labels, i);
      assert forall k | at <= k < at + |l| :: fqdn[k] == l[k - at] && l[k - at] in l;
      ShortStretch(fqdn, at, |l|);
    }
    QueryNamesHost(labels);
    assert host + [46] == fqdn || host == fqdn;
  }

  /** Where a part lies in the host name: at either end, or between two dots. */
  lemma {:induction false} PartPlace(parts: seq<bytes>, i: nat) returns (at: nat)
    requires i < |parts|
    ensures var s, p := Dotted(parts), parts[i];
            && at + |p| <= |s| && s[at..at + |p|] == p
            && (at == 0 || s[at - 1] == 46) && (at + |p| == |s| || s[at + |p|] == 46)
  {
    at := 0;
    if |parts| > 1 {
      var tail := Dotted(parts[1..]);
      assert Dotted(parts) == parts[0] + [46] + tail;
      if i > 0 {
        var k := PartPlace(parts[1..], i - 1);
        at := |parts[0]| + 1 + k;
        assert Dotted(parts)[at..] == tail[k..];
      }
    }
  }
}
