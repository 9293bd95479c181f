/** The DNS client's record cache, against the paged reads it stands in for. */
module DnsBatch {
  datatype Option<+T> = None | Some(value: T)

  datatype Record = Record(id: nat, name: string, rtype: string, data: string, ttl: int)

  datatype ZoneRef = ZoneRef(endpoint: string, zoneID: string)

  // All servers together. Each zone keeps its records in the order it lists them; next is an unused record id.
  datatype Servers = Servers(zones: map<ZoneRef, seq<Record>>, next: nat, down: set<string>)

  const PAGE_SIZE: nat := 100

  predicate Reachable(s: Servers, z: ZoneRef) {
    z.endpoint !in s.down && z in s.zones
  }

  predicate UniqueIds(records: seq<Record>) {
    forall i, j | 0 <= i < j < |records| :: records[i].id != records[j].id
  }

  predicate ServersOk(s: Servers) {
    forall z | z in s.zones :: UniqueIds(s.zones[z]) && forall i | 0 <= i < |s.zones[z]| :: s.zones[z][i].id < s.next
  }

  // The servers' answers.

  function ListAll(s: Servers, z: ZoneRef): Option<seq<Record>> {
    if Reachable(s, z) then Some(s.zones[z]) else None
  }

  /** The answer to a list request with a limit and an offset. */
  function Page(s: Servers, z: ZoneRef, limit: nat, offset: nat): Option<seq<Record>> {
    if !Reachable(s, z) then None
    else
      var all := s.zones[z];
      var from := if offset < |all| then offset else |all|;
      Some(all[from..if from + limit < |all| then from + limit else |all|])
  }

  function Post(s: Servers, z: ZoneRef, name: string, ip: string, ttl: int): (Servers, bool) {
    if Reachable(s, z) then
      var record := Record(s.next, name, "A", ip, ttl);
      (s.(zones := s.zones[z := s.zones[z] + [record]], next := s.next + 1), true)
    else (s, false)
  }

  function WithoutId(records: seq<Record>, id: nat): seq<Record> {
    if records == [] then []
    else if records[0].id == id then WithoutId(records[1..], id)
    else [records[0]] + WithoutId(records[1..], id)
  }

  predicate HasId(records: seq<Record>, id: nat) {
    exists i | 0 <= i < |records| :: records[i].id == id
  }

  function Delete(s: Servers, z: ZoneRef, id: nat): (r: (Servers, bool))
    ensures !r.1 ==> r.0 == s
  {
    if Reachable(s, z) && HasId(s.zones[z], id) then (s.(zones := s.zones[z := WithoutId(s.zones[z], id)]), true)
    else (s, false)
  }

  // The calls.

  datatype Op =
    | Begin
    | End
    | Register(z: ZoneRef, host: string, ip: string, ttl: int)
    | Deregister(z: ZoneRef, host: string)
    | DeregisterByIP(z: ZoneRef, host: string, ip: string)
    | CleanStale(z: ZoneRef, host: string, ip: string)

  predicate HasAddress(records: seq<Record>, host: string, ip: string) {
    exists i | 0 <= i < |records| :: records[i].rtype == "A" && records[i].name == host && records[i].data == ip
  }

  /** The records a call removes. */
  predicate Drops(op: Op, r: Record) {
    match op
    case Deregister(_, host) => r.name == host && r.rtype == "A"
    case DeregisterByIP(_, host, ip) => r.name == host && r.rtype == "A" && r.data == ip
    case CleanStale(_, host, ip) => r.name == host && r.rtype == "A" && r.data != ip
    case _ => false
  }

  function Keep(op: Op, records: seq<Record>): seq<Record> {
    if records == [] then []
    else if Drops(op, records[0]) then Keep(op, records[1..])
    else [records[0]] + Keep(op, records[1..])
  }

  /** What a call means: the zone it leaves and whether it succeeds. */
  function Meant(s: Servers, op: Op): (Servers, bool) {
    if op.Begin? || op.End? then (s, true)
    else if !Reachable(s, op.z) then (s, false)
    else if op.Register? then
      if HasAddress(s.zones[op.z], op.host, op.ip) then (s, true) else Post(s, op.z, op.host, op.ip, op.ttl)
    else (s.(zones := s.zones[op.z := Keep(op, s.zones[op.z])]), true)
  }

  // The client. Outside a batch its cache and its blacklist are nil, here empty.
  datatype Cache = Cache(batch: bool, lists: map<string, seq<Record>>, failed: set<string>)

  function CacheKey(z: ZoneRef): string {
    z.endpoint + ":" + z.zoneID
  }

  predicate Skipped(c: Cache, z: ZoneRef) {
    c.batch && z.endpoint in c.failed
  }

  function Blacklist(c: Cache, endpoint: string): Cache {
    if c.batch then c.(failed := c.failed + {endpoint}) else c
  }

  function Invalidate(c: Cache, z: ZoneRef): Cache {
    c.(lists := c.lists - {CacheKey(z)})
  }

  function ListCached(c: Cache, s: Servers, z: ZoneRef): (Cache, Option<seq<Record>>) {
    if !c.batch then (c, ListAll(s, z))
    else if z.endpoint in c.failed then (c, None)
    else if CacheKey(z) in c.lists then (c, Some(c.lists[CacheKey(z)]))
    else
      match ListAll(s, z)
      case None => (Blacklist(c, z.endpoint), None)
      case Some(records) => (c.(lists := c.lists[CacheKey(z) := records]), Some(records))
  }

  // What the deletion of the listed records did.
  datatype Swept = Swept(servers: Servers, failed: bool, deleted: bool)

  /** One delete request for each listed record the call removes; only CleanStale goes on after a failed one. */
  function Sweep(s: Servers, op: Op, records: seq<Record>): Swept
    requires op.Deregister? || op.DeregisterByIP? || op.CleanStale?
    decreases |records|
  {
    if records == [] then Swept(s, false, false)
    else if !Drops(op, records[0]) then Sweep(s, op, records[1..])
    else
      var (s1, ok) := Delete(s, op.z, records[0].id);
      if !ok && !op.CleanStale? then Swept(s, true, false)
      else
        var rest := Sweep(s1, op, records[1..]);
        rest.(deleted := rest.deleted || ok)
  }

  datatype Outcome = Outcome(cache: Cache, servers: Servers, ok: bool)

  function RegisterWith(c: Cache, s: Servers, op: Op, records: Option<seq<Record>>): Outcome
    requires op.Register?
  {
    if records.Some? && HasAddress(records.value, op.host, op.ip) then Outcome(c, s, true)
    else
      var (s1, ok) := Post(s, op.z, op.host, op.ip, op.ttl);
      if ok then Outcome(Invalidate(c, op.z), s1, true)
      else if op.z.endpoint in s.down then Outcome(Blacklist(c, op.z.endpoint), s, false)
      else Outcome(c, s, false)
  }

  function SweepWith(c: Cache, s: Servers, op: Op, records: Option<seq<Record>>): Outcome
    requires op.Deregister? || op.DeregisterByIP? || op.CleanStale?
  {
    if records.None? then Outcome(c, s, false)
    else
      var swept := Sweep(s, op, records.value);
      if swept.failed then Outcome(c, swept.servers, false)
      else Outcome(if swept.deleted then Invalidate(c, op.z) else c, swept.servers, true)
  }

  /** A call as the code runs it. */
  function Do(c: Cache, s: Servers, op: Op): Outcome {
    if op.Begin? then Outcome(Cache(true, map[], {}), s, true)
    else if op.End? then Outcome(Cache(false, map[], {}), s, true)
    else if op.Register? && Skipped(c, op.z) then Outcome(c, s, false)
    else
      var (c1, records) := ListCached(c, s, op.z);
      if op.Register? then RegisterWith(c1, s, op, records) else SweepWith(c1, s, op, records)
  }

  function RunCached(c: Cache, s: Servers, ops: seq<Op>): (Servers, seq<bool>)
    decreases |ops|
  {
    if ops == [] then (s, [])
    else
      var o := Do(c, s, ops[0]);
      var (s', oks) := RunCached(o.cache, o.servers, ops[1..]);
      (s', [o.ok] + oks)
  }

  function RunMeant(s: Servers, ops: seq<Op>): (Servers, seq<bool>)
    decreases |ops|
  {
    if ops == [] then (s, [])
    else
      var (s1, ok) := Meant(s, ops[0]);
      var (s', oks) := RunMeant(s1, ops[1..]);
      (s', [ok] + oks)
  }

  const FRESH: Cache := Cache(false, map[], {})

  // Deleting what was listed.

  lemma {:induction false} WithoutAbsent(records: seq<Record>, id: nat)
    requires !HasId(records, id)
    ensures WithoutId(records, id) == records
  {
    if records != [] {
      assert records[0].id != id;
      assert forall i | 0 <= i < |records[1..]| :: records[1..][i] == records[i + 1];
      WithoutAbsent(records[1..], id);
    }
  }

  lemma {:induction false} WithoutMiddle(kept: seq<Record>, r: Record, rest: seq<Record>)
    requires UniqueIds(kept + [r] + rest)
    ensures WithoutId(kept + [r] + rest, r.id) == kept + rest && HasId(kept + [r] + rest, r.id)
    decreases |kept|
  {
    var all := kept + [r] + rest;
    assert all[|kept|] == r;
    if kept == [] {
      assert all[1..] == rest;
      forall i | 0 <= i < |rest|
        ensures rest[i].id != r.id
      {
        assert all[0] == r && all[i + 1] == rest[i];
      }
      WithoutAbsent(rest, r.id);
    } else {
      assert all[0] == kept[0] && all[0].id != r.id;
      assert all[1..] == kept[1..] + [r] + rest;
      WithoutMiddle(kept[1..], r, rest);
      assert [kept[0]] + (kept[1..] + rest) == kept + rest;
    }
  }

  lemma UniqueRest(kept: seq<Record>, r: Record, rest: seq<Record>)
    requires UniqueIds(kept + [r] + rest)
    ensures UniqueIds(kept + rest)
  {
    var all, some := kept + [r] + rest, kept + rest;
    forall i, j | 0 <= i < j < |some|
      ensures some[i].id != some[j].id
    {
      assert some[i] == all[if i < |kept| then i else i + 1] && some[j] == all[if j < |kept| then j else j + 1];
    }
  }

  /** Deleting by the ids of the zone's own list leaves the other records in order. */
  lemma {:induction false} SweepIsKeep(s: Servers, op: Op, kept: seq<Record>, records: seq<Record>)
    requires op.Deregister? || op.DeregisterByIP? || op.CleanStale?
    requires Reachable(s, op.z) && s.zones[op.z] == kept + records && UniqueIds(kept + records)
    ensures var r := Sweep(s, op, records);
            && !r.failed && r.servers == s.(zones := s.zones[op.z := kept + Keep(op, records)])
            && (!r.deleted ==> r.servers == s)
    decreases |records|
  {
    hide WithoutId, UniqueIds, HasId, Drops;
    if records == [] {
      assert kept + Keep(op, records) == kept + records;
    } else {
      var r, rest := records[0], records[1..];
      assert kept + [r] + rest == kept + records;
      if Drops(op, r) {
        WithoutMiddle(kept, r, rest);
        UniqueRest(kept, r, rest);
        SweepIsKeep(s.(zones := s.zones[op.z := kept + rest]), op, kept, rest);
      } else {
        SweepIsKeep(s, op, kept + [r], rest);
        assert kept + [r] + Keep(op, rest) == kept + Keep(op, records);
      }
    }
  }

  // When the cache changes nothing.

  predicate SameShape(s: Servers, t: Servers) {
    s.zones.Keys == t.zones.Keys && s.down == t.down
  }

  /**
   * No zone shares its cache key with a reachable one, and no missing zone gets the server of a reachable one
   * blacklisted.
   */
  predicate Separable(zs: set<ZoneRef>, s: Servers) {
    forall z1, z2 | z1 in zs && z2 in zs && Reachable(s, z1) ::
      (CacheKey(z1) == CacheKey(z2) ==> z1 == z2) && (z1.endpoint == z2.endpoint ==> Reachable(s, z2))
  }

  predicate Within(zs: set<ZoneRef>, op: Op) {
    op.Begin? || op.End? || op.z in zs
  }

  predicate AllWithin(zs: set<ZoneRef>, ops: seq<Op>) {
    forall i | 0 <= i < |ops| :: Within(zs, ops[i])
  }

  predicate Agree(zs: set<ZoneRef>, c: Cache, s: Servers) {
    && (!c.batch ==> c.lists == map[] && c.failed == {})
    && (forall z | z in zs && CacheKey(z) in c.lists :: Reachable(s, z) && c.lists[CacheKey(z)] == s.zones[z])
    && (forall z | z in zs && Reachable(s, z) :: z.endpoint !in c.failed)
  }

  lemma ListCachedIsList(zs: set<ZoneRef>, c: Cache, s: Servers, z: ZoneRef)
    requires Agree(zs, c, s) && Separable(zs, s) && z in zs
    ensures var (c1, records) := ListCached(c, s, z); records == ListAll(s, z) && Agree(zs, c1, s)
  {
    hide CacheKey;
    if c.batch && z.endpoint !in c.failed && CacheKey(z) !in c.lists && Reachable(s, z) {
      var c1 := c.(lists := c.lists[CacheKey(z) := s.zones[z]]);
      forall y | y in zs && CacheKey(y) in c1.lists
        ensures Reachable(s, y) && c1.lists[CacheKey(y)] == s.zones[y]
      {
        assert CacheKey(y) == CacheKey(z) ==> y == z;
      }
    }
  }

  /** A changed zone has left the cache, and the others have not changed. */
  lemma InvalidateAgrees(zs: set<ZoneRef>, c: Cache, s: Servers, t: Servers, z: ZoneRef)
    requires Agree(zs, c, s) && SameShape(s, t) && forall y | y in s.zones && y != z :: t.zones[y] == s.zones[y]
    ensures Agree(zs, Invalidate(c, z), t)
  {
    hide CacheKey;
    var c1 := Invalidate(c, z);
    forall y | y in zs && CacheKey(y) in c1.lists
      ensures Reachable(t, y) && c1.lists[CacheKey(y)] == t.zones[y]
    {
      assert y != z;
    }
  }

  lemma SeparableShape(zs: set<ZoneRef>, s: Servers, t: Servers)
    requires SameShape(s, t)
    ensures Separable(zs, s) <==> Separable(zs, t)
  {
    hide CacheKey;
    assert forall z :: Reachable(s, z) <==> Reachable(t, z);
  }

  lemma RegisterStep(zs: set<ZoneRef>, c: Cache, s: Servers, op: Op)
    requires op.Register? && Agree(zs, c, s) && op.z in zs
    ensures var o := RegisterWith(c, s, op, ListAll(s, op.z));
            (o.servers, o.ok) == Meant(s, op) && Agree(zs, o.cache, o.servers) && SameShape(s, o.servers)
  {
    hide CacheKey, HasAddress, Invalidate;
    var (t, ok) := Post(s, op.z, op.host, op.ip, op.ttl);
    if ok {
      InvalidateAgrees(zs, c, s, t, op.z);
    }
  }

  lemma SweepStep(zs: set<ZoneRef>, c: Cache, s: Servers, op: Op)
    requires (op.Deregister? || op.DeregisterByIP? || op.CleanStale?) && Agree(zs, c, s) && op.z in zs && ServersOk(s)
    ensures var o := SweepWith(c, s, op, ListAll(s, op.z));
            (o.servers, o.ok) == Meant(s, op) && Agree(zs, o.cache, o.servers) && SameShape(s, o.servers)
  {
    hide CacheKey, Invalidate, UniqueIds;
    if Reachable(s, op.z) {
      assert [] + s.zones[op.z] == s.zones[op.z] && [] + Keep(op, s.zones[op.z]) == Keep(op, s.zones[op.z]);
      SweepIsKeep(s, op, [], s.zones[op.z]);
      InvalidateAgrees(zs, c, s, Sweep(s, op, s.zones[op.z]).servers, op.z);
    }
  }

  lemma {:induction false} KeepFrom(op: Op, records: seq<Record>, next: nat)
    requires UniqueIds(records) && forall i | 0 <= i < |records| :: records[i].id < next
    ensures var k := Keep(op, records);
            && UniqueIds(k) && (forall i | 0 <= i < |k| :: k[i].id < next)
            && forall i | 0 <= i < |k| :: HasId(records, k[i].id)
  {
    hide Drops;
    if records != [] {
      var rest, k := records[1..], Keep(op, records);
      assert forall i | 0 <= i < |rest| :: rest[i] == records[i + 1];
      KeepFrom(op, rest, next);
      forall i | 0 <= i < |k|
        ensures HasId(records, k[i].id)
      {
        if !Drops(op, records[0]) && i == 0 {
          assert k[i] == records[0];
        } else {
          var r := if Drops(op, records[0]) then k[i] else Keep(op, rest)[i - 1];
          assert HasId(rest, r.id);
          var j :| 0 <= j < |rest| && rest[j].id == r.id;
          assert records[j + 1].id == r.id;
        }
      }
      forall i, j | 0 <= i < j < |k|
        ensures k[i].id != k[j].id
      {
        if !Drops(op, records[0]) {
          assert k[j] == Keep(op, rest)[j - 1];
          if i == 0 {
            var m :| 0 <= m < |rest| && rest[m].id == k[j].id;
            assert records[m + 1].id == k[j].id;
          }
        }
      }
    }
  }

  lemma MeantOk(s: Servers, op: Op)
    requires ServersOk(s)
    ensures ServersOk(Meant(s, op).0) && SameShape(s, Meant(s, op).0)
  {
    hide HasAddress;
    var t := Meant(s, op).0;
    if !op.Begin? && !op.End? && Reachable(s, op.z) {
      if !op.Register? {
        KeepFrom(op, s.zones[op.z], s.next);
      }
    }
  }

  lemma {:induction false} DoIsMeant(zs: set<ZoneRef>, c: Cache, s: Servers, op: Op)
    requires Agree(zs, c, s) && Separable(zs, s) && ServersOk(s) && Within(zs, op)
    ensures var o := Do(c, s, op);
            (o.servers, o.ok) == Meant(s, op) && Agree(zs, o.cache, o.servers) && SameShape(s, o.servers)
  {
    hide CacheKey, ServersOk, Separable, RegisterWith, SweepWith, ListCached;
    if op.Begin? || op.End? {
    } else if op.Register? && Skipped(c, op.z) {
      assert !Reachable(s, op.z);
    } else {
      ListCachedIsList(zs, c, s, op.z);
      var (c1, records) := ListCached(c, s, op.z);
      if op.Register? {
        RegisterStep(zs, c1, s, op);
      } else {
        SweepStep(zs, c1, s, op);
      }
    }
  }

  lemma {:induction false} RunIsMeant(zs: set<ZoneRef>, c: Cache, s: Servers, ops: seq<Op>)
    requires Agree(zs, c, s) && Separable(zs, s) && ServersOk(s) && AllWithin(zs, ops)
    ensures RunCached(c, s, ops) == RunMeant(s, ops)
    decreases |ops|
  {
    hide Agree, Separable, ServersOk, Within, Do, Meant, SameShape;
    if ops != [] {
      var o, rest := Do(c, s, ops[0]), ops[1..];
      assert forall i | 0 <= i < |rest| :: rest[i] == ops[i + 1];
      DoIsMeant(zs, c, s, ops[0]);
      MeantOk(s, ops[0]);
      SeparableShape(zs, s, o.servers);
      RunIsMeant(zs, o.cache, o.servers, rest);
    }
  }

  // And when it does.

  function Start3(z1: ZoneRef, z2: ZoneRef): seq<Op> {
    [Begin, Register(z1, "h", "1", 0), Register(z2, "h", "1", 0)]
  }

  /** The given zone holds the address, all others are empty. */
  function OnlyIn(z: ZoneRef, s: Servers): Servers {
    Servers(map y | y in s.zones :: if y == z then [Record(0, "h", "A", "1", 0)] else [], 1, s.down)
  }

  lemma RunThree(c: Cache, s: Servers, ops: seq<Op>)
    requires |ops| == 3
    ensures var o0 := Do(c, s, ops[0]);
            var o1 := Do(o0.cache, o0.servers, ops[1]);
            var o2 := Do(o1.cache, o1.servers, ops[2]);
            RunCached(c, s, ops) == (o2.servers, [o0.ok, o1.ok, o2.ok])
    ensures var m0 := Meant(s, ops[0]);
            var m1 := Meant(m0.0, ops[1]);
            var m2 := Meant(m1.0, ops[2]);
            RunMeant(s, ops) == (m2.0, [m0.1, m1.1, m2.1])
  {
    hide Do, Meant;
    var two, one := ops[1..], ops[2..];
    assert two[0] == ops[1] && two[1..] == one && one[0] == ops[2] && one[1..] == [];
    var o0 := Do(c, s, ops[0]);
    var o1 := Do(o0.cache, o0.servers, ops[1]);
    var o2 := Do(o1.cache, o1.servers, ops[2]);
    assert RunCached(o1.cache, o1.servers, one).1 == [o2.ok];
    assert RunCached(o0.cache, o0.servers, two).1 == [o1.ok, o2.ok];
    assert RunCached(c, s, ops).1 == [o0.ok, o1.ok, o2.ok];
    var m0 := Meant(s, ops[0]);
    var m1 := Meant(m0.0, ops[1]);
    var m2 := Meant(m1.0, ops[2]);
    assert RunMeant(m1.0, one).1 == [m2.1];
    assert RunMeant(m0.0, two).1 == [m1.1, m2.1];
    assert RunMeant(s, ops).1 == [m0.1, m1.1, m2.1];
  }

  /** Two zones with one cache key: the second registration is taken for done. */
  lemma {:induction false} SharedKey(s0: Servers, z1: ZoneRef, z2: ZoneRef)
    requires Reachable(s0, z1) && z1 != z2 && CacheKey(z1) == CacheKey(z2)
    ensures var s := OnlyIn(z1, s0);
            SameShape(s, s0) && ServersOk(s) && RunCached(FRESH, s, Start3(z1, z2)) != RunMeant(s, Start3(z1, z2))
  {
    hide CacheKey;
    var s := OnlyIn(z1, s0);
    RunThree(FRESH, s, Start3(z1, z2));
    assert s.zones[z1][0].name == "h" && HasAddress(s.zones[z1], "h", "1");
    if z2 in s.zones {
      assert !HasAddress(s.zones[z2], "h", "1");
    }
  }

  /** A missing zone before another of its server: the second registration is skipped. */
  lemma {:induction false} MissingZone(s0: Servers, z1: ZoneRef, z2: ZoneRef)
    requires !Reachable(s0, z1) && Reachable(s0, z2) && z1.endpoint == z2.endpoint
    ensures var s := OnlyIn(z1, s0);
            SameShape(s, s0) && ServersOk(s) && RunCached(FRESH, s, Start3(z1, z2)) != RunMeant(s, Start3(z1, z2))
  {
    hide CacheKey;
    var s := OnlyIn(z1, s0);
    RunThree(FRESH, s, Start3(z1, z2));
  }

  /**
   * Batches leave all zones and all results as the calls mean them, whatever the zones hold and whatever calls name
   * the zones zs, exactly when zs is separable.
   */
  lemma {:induction false} CacheFaithfulIff(zs: set<ZoneRef>, s0: Servers)
    ensures (forall s: Servers, ops: seq<Op> | SameShape(s, s0) && ServersOk(s) && AllWithin(zs, ops) ::
               RunCached(FRESH, s, ops) == RunMeant(s, ops))
            <==> Separable(zs, s0)
  {
    hide RunCached, RunMeant, CacheKey, ServersOk, SameShape;
    if Separable(zs, s0) {
      forall s: Servers, ops: seq<Op> | SameShape(s, s0) && ServersOk(s) && AllWithin(zs, ops)
        ensures RunCached(FRESH, s, ops) == RunMeant(s, ops)
      {
        SeparableShape(zs, s, s0);
        RunIsMeant(zs, FRESH, s, ops);
      }
    } else {
      var z1, z2 :| && z1 in zs && z2 in zs && Reachable(s0, z1)
                    && ((CacheKey(z1) == CacheKey(z2) && z1 != z2)
                       || (z1.endpoint == z2.endpoint && !Reachable(s0, z2)));
      if CacheKey(z1) == CacheKey(z2) && z1 != z2 {
        assert AllWithin(zs, Start3(z1, z2));
        SharedKey(s0, z1, z2);
      } else {
        assert AllWithin(zs, Start3(z2, z1));
        MissingZone(s0, z2, z1);
      }
    }
  }

  lemma ColonInside(e1: string, i1: string, e2: string, i2: string)
    requires e1 + ":" + i1 == e2 + ":" + i2 && |e1| < |e2|
    ensures ':' in i1
  {
    assert (e1 + ":" + i1)[|e2|] == i1[|e2| - |e1| - 1] == ':';
  }

  /** A zone id without a colon can be read back from its key. */
  lemma {:induction false} KeyInjective(e1: string, i1: string, e2: string, i2: string)
    requires ':' !in i1 && ':' !in i2 && e1 + ":" + i1 == e2 + ":" + i2
    ensures e1 == e2 && i1 == i2
  {
    var k := e1 + ":" + i1;
    if |e1| < |e2| {
      ColonInside(e1, i1, e2, i2);
    } else if |e2| < |e1| {
      ColonInside(e2, i2, e1, i1);
    }
    assert e1 == k[..|e1|] && e2 == k[..|e2|] && i1 == k[|e1| + 1..] && i2 == k[|e2| + 1..];
  }

  /** Zone ids without a colon on servers that have all the zones or are down: batching is safe. */
  lemma {:induction false} PlainIdsSafe(zs: set<ZoneRef>, s: Servers, ops: seq<Op>)
    requires forall z | z in zs :: ':' !in z.zoneID && (z.endpoint in s.down || z in s.zones)
    requires ServersOk(s) && AllWithin(zs, ops)
    ensures RunCached(FRESH, s, ops) == RunMeant(s, ops)
  {
    hide RunCached, RunMeant, ServersOk, AllWithin;
    forall z1, z2 | z1 in zs && z2 in zs && Reachable(s, z1)
      ensures (CacheKey(z1) == CacheKey(z2) ==> z1 == z2) && (z1.endpoint == z2.endpoint ==> Reachable(s, z2))
    {
      if CacheKey(z1) == CacheKey(z2) {
        KeyInjective(z1.endpoint, z1.zoneID, z2.endpoint, z2.zoneID);
      }
    }
    RunIsMeant(zs, FRESH, s, ops);
  }

  // What a call does with any list, an outdated one or one of another zone included.

  /** Outside a batch nothing is remembered, and the end of a batch forgets what was. */
  lemma {:induction false} OutsideBatch(c: Cache, s: Servers, op: Op)
    requires !op.Begin?
    ensures Do(FRESH, s, op).cache == FRESH && Do(c, s, End) == Outcome(FRESH, s, true)
  {
    hide Sweep, HasAddress;
  }

  /** In a batch a server found down is asked no more, whatever the call and the zone. */
  lemma {:induction false} DownIsSkipped(c: Cache, s: Servers, op: Op)
    requires c.batch && !op.Begin? && !op.End?
    ensures op.z.endpoint in c.failed ==> Do(c, s, op) == Outcome(c, s, false)
    ensures op.z.endpoint in s.down && (op.Register? || CacheKey(op.z) !in c.lists) && !Do(c, s, op).ok ==>
            Do(c, s, op) == Outcome(c.(failed := c.failed + {op.z.endpoint}), s, false)
  {
    hide Sweep, HasAddress, CacheKey;
    if op.z.endpoint in c.failed {
      assert c.failed + {op.z.endpoint} == c.failed;
    } else if op.z.endpoint in s.down && CacheKey(op.z) !in c.lists {
      assert c.failed + {op.z.endpoint} + {op.z.endpoint} == c.failed + {op.z.endpoint};
    }
  }

  /** The records without those of the given ids. */
  function Sparing(records: seq<Record>, ids: set<nat>): seq<Record> {
    if records == [] then []
    else (if records[0].id in ids then [] else [records[0]]) + Sparing(records[1..], ids)
  }

  /** The ids of the listed records that the call is to remove. */
  function AskedIds(op: Op, listed: seq<Record>): set<nat> {
    set i | 0 <= i < |listed| && Drops(op, listed[i]) :: listed[i].id
  }

  /** The call's zone answers and still has a record of this id. */
  predicate Still(s: Servers, z: ZoneRef, id: nat) {
    z in s.zones && z.endpoint !in s.down && exists i | 0 <= i < |s.zones[z]| :: s.zones[z][i].id == id
  }

  lemma {:induction false} SparingNone(records: seq<Record>)
    ensures Sparing(records, {}) == records
  {
    if records != [] {
      SparingNone(records[1..]);
    }
  }

  lemma {:induction false} SparingOne(records: seq<Record>, id: nat, ids: set<nat>)
    ensures Sparing(WithoutId(records, id), ids) == Sparing(records, {id} + ids)
  {
    if records != [] {
      SparingOne(records[1..], id, ids);
    }
  }

  lemma {:induction false} SparedIds(records: seq<Record>, id: nat)
    ensures forall other :: HasId(WithoutId(records, id), other) <==> other != id && HasId(records, other)
  {
    if records != [] {
      SparedIds(records[1..], id);
      HasIdCons(records);
      if records[0].id != id {
        HasIdCons(WithoutId(records, id));
      }
    }
  }

  lemma HasIdCons(records: seq<Record>)
    requires records != []
    ensures forall id :: HasId(records, id) <==> records[0].id == id || HasId(records[1..], id)
  {
    forall id
      ensures HasId(records, id) <==> records[0].id == id || HasId(records[1..], id)
    {
      if HasId(records[1..], id) {
        var i :| 0 <= i < |records[1..]| && records[1..][i].id == id;
        assert records[i + 1].id == id;
      }
      if HasId(records, id) && records[0].id != id {
        var i :| 0 <= i < |records| && records[i].id == id;
        assert records[1..][i - 1].id == id;
      }
    }
  }

  lemma AskedCons(op: Op, listed: seq<Record>, n: nat)
    requires 0 < n <= |listed|
    ensures AskedIds(op, listed[..n])
         == (if Drops(op, listed[0]) then {listed[0].id} else {}) + AskedIds(op, listed[1..][..n - 1])
  {
    var rest := listed[1..][..n - 1];
    assert listed[..n] == [listed[0]] + rest;
    forall id | id in AskedIds(op, rest)
      ensures id in AskedIds(op, listed[..n])
    {
      var i :| 0 <= i < |rest| && Drops(op, rest[i]) && rest[i].id == id;
      assert listed[..n][i + 1] == rest[i];
    }
  }

  /** How the removal of the listed records ends: at the n-th, which is gone, or, if n is their number, at the end. */
  ghost predicate Stops(s: Servers, op: Op, listed: seq<Record>, n: nat, r: Swept)
    requires op.Deregister? || op.DeregisterByIP? || op.CleanStale?
  {
    && n <= |listed|
    && (forall i | 0 <= i < n :: Drops(op, listed[i]) ==> op.CleanStale? || Still(s, op.z, listed[i].id))
    && (n < |listed| ==> !op.CleanStale? && Drops(op, listed[n]) && !Still(s, op.z, listed[n].id))
    && (r.failed <==> n < |listed|)
    && (!r.failed ==> (r.deleted <==> exists id :: id in AskedIds(op, listed) && Still(s, op.z, id)))
    && r.servers == if op.z in s.zones && op.z.endpoint !in s.down
                    then s.(zones := s.zones[op.z := Sparing(s.zones[op.z], AskedIds(op, listed[..n]))]) else s
  }

  /**
   * Removing by any list of distinct ids: the records asked for before the first one that is gone are removed, and
   * there the call fails, unless it is CleanStale, which goes on and never fails.
   */
  lemma {:induction false} SweepStops(s: Servers, op: Op, listed: seq<Record>) returns (n: nat)
    requires (op.Deregister? || op.DeregisterByIP? || op.CleanStale?) && UniqueIds(listed)
    ensures Stops(s, op, listed, n, Sweep(s, op, listed))
    decreases |listed|
  {
    hide Stops, Delete, Drops;
    if listed == [] {
      n := 0;
      StopsNone(s, op);
    } else {
      var r, rest := listed[0], listed[1..];
      var (s1, ok) := Delete(s, op.z, r.id);
      if Drops(op, r) && !ok && !op.CleanStale? {
        n := 0;
        StopsHere(s, op, listed);
      } else {
        var m := SweepStops(if Drops(op, r) then s1 else s, op, rest);
        n := m + 1;
        StopsLater(s, op, listed, m, Sweep(if Drops(op, r) then s1 else s, op, rest));
      }
    }
  }

  lemma StopsNone(s: Servers, op: Op)
    requires op.Deregister? || op.DeregisterByIP? || op.CleanStale?
    ensures Stops(s, op, [], 0, Swept(s, false, false))
  {
    assert AskedIds(op, []) == {};
    if op.z in s.zones {
      SparingNone(s.zones[op.z]);
    }
  }

  lemma DeleteStill(s: Servers, op: Op, id: nat)
    requires op.Deregister? || op.DeregisterByIP? || op.CleanStale?
    ensures Delete(s, op.z, id).1 <==> Still(s, op.z, id)
    ensures !Reachable(s, op.z) ==> Delete(s, op.z, id) == (s, false)
  {
  }

  lemma StopsHere(s: Servers, op: Op, listed: seq<Record>)
    requires (op.Deregister? || op.DeregisterByIP?) && listed != [] && Drops(op, listed[0])
    requires !Delete(s, op.z, listed[0].id).1
    ensures Stops(s, op, listed, 0, Swept(s, true, false))
  {
    hide Delete, Drops, Still;
    DeleteStill(s, op, listed[0].id);
    assert AskedIds(op, listed[..0]) == {};
    if op.z in s.zones {
      SparingNone(s.zones[op.z]);
    }
  }

  /** After the deletion of one id just the other ids are still there. */
  lemma StillAfter(s: Servers, op: Op, id: nat)
    requires op.Deregister? || op.DeregisterByIP? || op.CleanStale?
    ensures forall other :: Still(Delete(s, op.z, id).0, op.z, other) <==> other != id && Still(s, op.z, other)
  {
    hide WithoutId, HasId, Still;
    var t := Delete(s, op.z, id).0;
    StillIs(s, op.z);
    StillIs(t, op.z);
    if Reachable(s, op.z) {
      SparedIds(s.zones[op.z], id);
    }
  }

  lemma StillIs(s: Servers, z: ZoneRef)
    ensures forall id :: Still(s, z, id) <==> Reachable(s, z) && HasId(s.zones[z], id)
  {
  }

  lemma StopsLater(s: Servers, op: Op, listed: seq<Record>, m: nat, after: Swept)
    requires (op.Deregister? || op.DeregisterByIP? || op.CleanStale?) && listed != [] && UniqueIds(listed)
    requires var (s1, ok) := Delete(s, op.z, listed[0].id);
             var drop := Drops(op, listed[0]);
             (drop ==> ok || op.CleanStale?) && Stops(if drop then s1 else s, op, listed[1..], m, after)
    ensures var ok := Drops(op, listed[0]) && Delete(s, op.z, listed[0].id).1;
            Stops(s, op, listed, m + 1, after.(deleted := after.deleted || ok))
  {
    hide Delete, Drops, Still, Sparing, UniqueIds, AskedIds;
    var id, rest := listed[0].id, listed[1..];
    var drop := Drops(op, listed[0]);
    var (s1, ok) := Delete(s, op.z, id);
    DeleteStill(s, op, id);
    StillAfter(s, op, id);
    OtherIds(op, listed);
    AskedCons(op, listed, m + 1);
    AskedCons(op, listed, |listed|);
    assert listed[..|listed|] == listed && rest[..|rest|] == rest;
    var ids := AskedIds(op, rest[..m]);
    assert {} + ids == ids;
    if Reachable(s, op.z) {
      DeleteSpares(s, op, id, ids);
      assert s1.zones[op.z := Sparing(s1.zones[op.z], ids)] == s.zones[op.z := Sparing(s1.zones[op.z], ids)];
    }
  }

  lemma OtherIds(op: Op, listed: seq<Record>)
    requires listed != [] && UniqueIds(listed)
    ensures forall i | 0 < i < |listed| :: listed[i].id != listed[0].id
    ensures listed[0].id !in AskedIds(op, listed[1..])
  {
  }

  lemma DeleteSpares(s: Servers, op: Op, id: nat, ids: set<nat>)
    requires op.Deregister? || op.DeregisterByIP? || op.CleanStale?
    requires Reachable(s, op.z)
    ensures var (s1, ok) := Delete(s, op.z, id);
            && op.z in s1.zones && s1 == s.(zones := s.zones[op.z := s1.zones[op.z]])
            && Sparing(s1.zones[op.z], ids) == Sparing(s.zones[op.z], {id} + ids)
  {
    SparingOne(s.zones[op.z], id, ids);
    if !HasId(s.zones[op.z], id) {
      WithoutAbsent(s.zones[op.z], id);
    }
  }

  /**
   * A removing call that trusts a cached list, whatever the zone now holds: it fails exactly at a record that is gone,
   * keeping what it removed before and the list, and forgets the list only after a success that removed something.
   */
  lemma {:induction false} CachedSweep(c: Cache, s: Servers, op: Op, listed: seq<Record>) returns (n: nat)
    requires (op.Deregister? || op.DeregisterByIP? || op.CleanStale?) && UniqueIds(listed)
    requires c.batch && op.z.endpoint !in c.failed && CacheKey(op.z) in c.lists && c.lists[CacheKey(op.z)] == listed
    ensures var o := Do(c, s, op);
            var removed := exists id :: id in AskedIds(op, listed) && Still(s, op.z, id);
            && Stops(s, op, listed, n, Swept(o.servers, !o.ok, removed))
            && o.cache == if o.ok && removed then c.(lists := c.lists - {CacheKey(op.z)}) else c
  {
    hide CacheKey, Sweep, Still, AskedIds, Drops, UniqueIds, Sparing;
    n := SweepStops(s, op, listed);
  }

  /** What the calls mean for the addresses of one host. */
  function Addresses(records: seq<Record>, host: string): set<string> {
    set i | 0 <= i < |records| && records[i].rtype == "A" && records[i].name == host :: records[i].data
  }

  predicate Foreign(r: Record, host: string) {
    r.rtype != "A" || r.name != host
  }

  /** The records that are no address of the host. */
  function Others(records: seq<Record>, host: string): seq<Record> {
    if records == [] then []
    else if Foreign(records[0], host) then [records[0]] + Others(records[1..], host)
    else Others(records[1..], host)
  }

  predicate Retains(op: Op, ip: string) {
    match op
    case Deregister(_, _) => false
    case DeregisterByIP(_, _, gone) => ip != gone
    case CleanStale(_, _, current) => ip == current
    case _ => true
  }

  lemma {:induction false} KeepAddresses(op: Op, records: seq<Record>)
    requires op.Deregister? || op.DeregisterByIP? || op.CleanStale?
    ensures Addresses(Keep(op, records), op.host) == set ip | ip in Addresses(records, op.host) && Retains(op, ip)
    ensures Others(Keep(op, records), op.host) == Others(records, op.host)
  {
    hide Addresses, Others;
    if records == [] {
      NoAddresses(op.host);
    } else {
      var r, rest, h := records[0], records[1..], op.host;
      KeepAddresses(op, rest);
      AddressesCons(r, rest, h);
      OthersCons(r, rest, h);
      AddressesCons(r, Keep(op, rest), h);
      OthersCons(r, Keep(op, rest), h);
      assert [r] + rest == records;
    }
  }

  lemma NoAddresses(host: string)
    ensures Addresses([], host) == {}
  {
  }

  lemma AddressesCons(r: Record, rest: seq<Record>, host: string)
    ensures Addresses([r] + rest, host) == (if Foreign(r, host) then {} else {r.data}) + Addresses(rest, host)
  {
    var all := [r] + rest;
    forall ip | ip in Addresses(rest, host)
      ensures ip in Addresses(all, host)
    {
      var i :| 0 <= i < |rest| && rest[i].rtype == "A" && rest[i].name == host && rest[i].data == ip;
      assert all[i + 1] == rest[i];
    }
    if !Foreign(r, host) {
      assert all[0].rtype == "A" && all[0].name == host && all[0].data == r.data;
    }
  }

  lemma OthersCons(r: Record, rest: seq<Record>, host: string)
    ensures Others([r] + rest, host) == (if Foreign(r, host) then [r] else []) + Others(rest, host)
  {
    assert ([r] + rest)[1..] == rest;
  }

  lemma {:induction false} PostAddresses(records: seq<Record>, r: Record, host: string)
    requires r.rtype == "A" && r.name == host
    ensures Addresses(records + [r], host) == Addresses(records, host) + {r.data}
    ensures Others(records + [r], host) == Others(records, host)
  {
    if records == [] {
      assert records + [r] == [r] + [];
      AddressesCons(r, [], host);
      OthersCons(r, [], host);
    } else {
      var first, rest := records[0], records[1..];
      PostAddresses(rest, r, host);
      AddressesCons(first, rest, host);
      AddressesCons(first, rest + [r], host);
      OthersCons(first, rest, host);
      OthersCons(first, rest + [r], host);
      assert [first] + rest == records && [first] + (rest + [r]) == records + [r];
    }
  }

  function AddressesAfter(op: Op, before: set<string>): set<string> {
    if op.Register? then before + {op.ip} else set ip | ip in before && Retains(op, ip)
  }

  /** A successful call changes the host's addresses as its name says and no other record or zone. */
  lemma {:induction false} MeantAddresses(s: Servers, op: Op)
    requires !op.Begin? && !op.End? && Reachable(s, op.z)
    ensures var (t, ok) := Meant(s, op);
            && ok && Reachable(t, op.z)
               && (forall z | z in s.zones && z != op.z :: z in t.zones && t.zones[z] == s.zones[z])
            && Addresses(t.zones[op.z], op.host) == AddressesAfter(op, Addresses(s.zones[op.z], op.host))
            && Others(t.zones[op.z], op.host) == Others(s.zones[op.z], op.host)
  {
    if op.Register? {
      PostAddresses(s.zones[op.z], Record(s.next, op.host, "A", op.ip, op.ttl), op.host);
    } else {
      KeepAddresses(op, s.zones[op.z]);
    }
  }

  /** A registration is made once: only when the host lacks the address is one record appended, and nothing else. */
  lemma {:induction false} RegisterExact(s: Servers, op: Op)
    requires op.Register?
    ensures var there := op.z in s.zones && op.z.endpoint !in s.down;
            && (!there ==> Meant(s, op) == (s, false))
            && (there && op.ip in Addresses(s.zones[op.z], op.host) ==> Meant(s, op) == (s, true))
            && (there && op.ip !in Addresses(s.zones[op.z], op.host) ==>
                  var record := Record(s.next, op.host, "A", op.ip, op.ttl);
                  Meant(s, op) == (Servers(s.zones[op.z := s.zones[op.z] + [record]], s.next + 1, s.down), true))
  {
    if Reachable(s, op.z) {
      AddressListed(s.zones[op.z], op.host, op.ip);
    }
  }

  lemma AddressListed(records: seq<Record>, host: string, ip: string)
    ensures HasAddress(records, host, ip) <==> ip in Addresses(records, host)
  {
  }

  /** Registering again, with whatever ttl, changes nothing. */
  lemma {:induction false} RegisterTwice(s: Servers, op: Op, ttl: int)
    requires op.Register? && Meant(s, op).1
    ensures Meant(Meant(s, op).0, op.(ttl := ttl)) == (Meant(s, op).0, true)
  {
    hide Addresses, HasAddress;
    RegisterExact(s, op);
    RegisterExact(Meant(s, op).0, op.(ttl := ttl));
    MeantAddresses(s, op);
  }

  /** The other calls remove every record of the kind they name, and keep every other one as often as it was there. */
  lemma {:induction false} RemoveExact(s: Servers, op: Op)
    requires op.Deregister? || op.DeregisterByIP? || op.CleanStale?
    ensures var there := op.z in s.zones && op.z.endpoint !in s.down;
            && (!there ==> Meant(s, op) == (s, false))
            && (there ==>
                  var (t, ok) := Meant(s, op);
                  && ok && op.z in t.zones && t == s.(zones := s.zones[op.z := t.zones[op.z]])
                  && InOrder(t.zones[op.z], s.zones[op.z])
                  && forall r :: multiset(t.zones[op.z])[r]
                                 == if r.rtype == "A" && r.name == op.host
                                       && (op.DeregisterByIP? ==> r.data == op.ip)
                                       && (op.CleanStale? ==> r.data != op.ip)
                                    then 0 else multiset(s.zones[op.z])[r])
  {
    if Reachable(s, op.z) {
      KeepCounts(op, s.zones[op.z]);
    }
  }

  /** The records of some come in all in the same order. */
  predicate InOrder(some: seq<Record>, all: seq<Record>) {
    some == [] || (all != [] && if some[0] == all[0] then InOrder(some[1..], all[1..]) else InOrder(some, all[1..]))
  }

  lemma {:induction false} KeepCounts(op: Op, records: seq<Record>)
    requires op.Deregister? || op.DeregisterByIP? || op.CleanStale?
    ensures InOrder(Keep(op, records), records)
    ensures forall r :: multiset(Keep(op, records))[r] == if Drops(op, r) then 0 else multiset(records)[r]
  {
    hide Drops;
    if records != [] {
      var r, rest := records[0], records[1..];
      KeepCounts(op, rest);
      assert records == [r] + rest;
      if Drops(op, r) && Keep(op, records) != [] {
        KeptNotDropped(op, rest);
      }
    }
  }

  lemma {:induction false} KeptNotDropped(op: Op, records: seq<Record>)
    requires Keep(op, records) != []
    ensures !Drops(op, Keep(op, records)[0])
  {
    hide Drops;
    if Drops(op, records[0]) {
      KeptNotDropped(op, records[1..]);
    }
  }

  // The calls as methods. A transport error is NoAnswer, a status other than success Refused.
  datatype Reply = NoAnswer | Refused | Success

  class Network {
    var servers: Servers

    constructor (s: Servers)
      ensures servers == s
    {
      servers := s;
    }

    method GetPage(z: ZoneRef, limit: nat, offset: nat) returns (page: Option<seq<Record>>)
      ensures page == Page(servers, z, limit, offset)
    {
      page := Page(servers, z, limit, offset);
    }

    method PostRecord(z: ZoneRef, name: string, ip: string, ttl: int) returns (reply: Reply)
      modifies this
      ensures (servers, reply.Success?) == Post(old(servers), z, name, ip, ttl)
      ensures reply.NoAnswer? <==> z.endpoint in servers.down
    {
      var (s, ok) := Post(servers, z, name, ip, ttl);
      reply := if ok then Success else if z.endpoint in servers.down then NoAnswer else Refused;
      servers := s;
    }

    method DeleteRecord(z: ZoneRef, id: nat) returns (ok: bool)
      modifies this
      ensures (servers, ok) == Delete(old(servers), z, id)
    {
      var (s, done) := Delete(servers, z, id);
      servers := s;
      ok := done;
    }
  }

  class Client {
    const net: Network
    var batchMode: bool
    var recordCache: map<string, seq<Record>>
    var failedEndpoints: set<string>

    constructor (net: Network)
      ensures this.net == net && View() == FRESH
    {
      this.net := net;
      batchMode := false;
      recordCache := map[];
      failedEndpoints := {};
    }

    ghost function View(): Cache
      reads this
    {
      Cache(batchMode, recordCache, failedEndpoints)
    }

    method BeginBatch()
      modifies this
      ensures (View(), net.servers, true)
              == var o := Do(old(View()), old(net.servers), Begin); (o.cache, o.servers, o.ok)
      ensures View() == Cache(true, map[], {}) && net.servers == old(net.servers)
    {
      batchMode := true;
      recordCache := map[];
      failedEndpoints := {};
    }

    method EndBatch()
      modifies this
      ensures (View(), net.servers, true) == var o := Do(old(View()), old(net.servers), End); (o.cache, o.servers, o.ok)
      ensures View() == Cache(false, map[], {}) && net.servers == old(net.servers)
    {
      batchMode := false;
      recordCache := map[];
      failedEndpoints := {};
    }

    method InvalidateCache(z: ZoneRef)
      modifies this
      ensures View() == Invalidate(old(View()), z)
    {
      recordCache := recordCache - {CacheKey(z)};
    }

    /** The pages together are the zone's whole list, whatever its length. */
    method ListRecords(z: ZoneRef) returns (records: Option<seq<Record>>)
      ensures records == ListAll(net.servers, z)
    {
      var all: seq<Record> := [];
      var offset := 0;
      while true
        invariant |all| == offset
        invariant Reachable(net.servers, z)
                  ==> offset <= |net.servers.zones[z]| && all == net.servers.zones[z][..offset]
        invariant !Reachable(net.servers, z) ==> offset == 0
        decreases if Reachable(net.servers, z) then |net.servers.zones[z]| - offset else 0
      {
        var page := net.GetPage(z, PAGE_SIZE, offset);
        if page.None? {
          return None;
        }
        all := all + page.value;
        assert all == net.servers.zones[z][..offset + |page.value|];
        if |page.value| < PAGE_SIZE {
          assert all == net.servers.zones[z];
          break;
        }
        offset := offset + |page.value|;
      }
      return Some(all);
    }

    method ListRecordsCached(z: ZoneRef) returns (records: Option<seq<Record>>)
      modifies this
      ensures (View(), records) == ListCached(old(View()), net.servers, z)
    {
      hide CacheKey;
      if batchMode {
        if z.endpoint in failedEndpoints {
          return None;
        }
        var key := CacheKey(z);
        if key in recordCache {
          return Some(recordCache[key]);
        }
        records := ListRecords(z);
        if records.None? {
          failedEndpoints := failedEndpoints + {z.endpoint};
        } else {
          recordCache := recordCache[key := records.value];
        }
      } else {
        records := ListRecords(z);
      }
    }

    method RegisterHost(z: ZoneRef, host: string, ip: string, ttl: int) returns (ok: bool)
      modifies this, net
      ensures Outcome(View(), net.servers, ok) == Do(old(View()), old(net.servers), Register(z, host, ip, ttl))
    {
      hide CacheKey, ListCached, Invalidate;
      if batchMode && z.endpoint in failedEndpoints {
        return false;
      }
      var records := ListRecordsCached(z);
      if records.Some? {
        for i := 0 to |records.value|
          invariant !HasAddress(records.value[..i], host, ip)
        {
          var r := records.value[i];
          if r.rtype == "A" && r.name == host && r.data == ip {
            return true;
          }
        }
        assert records.value[..|records.value|] == records.value;
      }
      var reply := net.PostRecord(z, host, ip, ttl);
      match reply
      case NoAnswer =>
        if batchMode {
          failedEndpoints := failedEndpoints + {z.endpoint};
        }
        return false;
      case Refused => return false;
      case Success =>
        InvalidateCache(z);
        return true;
    }

    method DeregisterHost(z: ZoneRef, host: string) returns (ok: bool)
      modifies this, net
      ensures Outcome(View(), net.servers, ok) == Do(old(View()), old(net.servers), Deregister(z, host))
    {
      hide CacheKey, ListCached, Invalidate, Delete;
      ghost var op := Deregister(z, host);
      var records := ListRecordsCached(z);
      if records.None? {
        return false;
      }
      var deleted := false;
      for i := 0 to |records.value|
        invariant View() == ListCached(old(View()), old(net.servers), z).0
        invariant Follows(old(net.servers), op, records.value, net.servers, deleted, records.value[i..])
      {
        SweepNext(net.servers, op, records.value, i);
        var r := records.value[i];
        if r.name == host && r.rtype == "A" {
          var gone := net.DeleteRecord(z, r.id);
          if !gone {
            return false;
          }
          deleted := true;
        }
      }
      if deleted {
        InvalidateCache(z);
      }
      return true;
    }

    method DeregisterHostByIP(z: ZoneRef, host: string, ip: string) returns (ok: bool)
      modifies this, net
      ensures Outcome(View(), net.servers, ok) == Do(old(View()), old(net.servers), DeregisterByIP(z, host, ip))
    {
      hide CacheKey, ListCached, Invalidate, Delete;
      ghost var op := DeregisterByIP(z, host, ip);
      var records := ListRecordsCached(z);
      if records.None? {
        return false;
      }
      var deleted := false;
      for i := 0 to |records.value|
        invariant View() == ListCached(old(View()), old(net.servers), z).0
        invariant Follows(old(net.servers), op, records.value, net.servers, deleted, records.value[i..])
      {
        SweepNext(net.servers, op, records.value, i);
        var r := records.value[i];
        if r.name == host && r.rtype == "A" && r.data == ip {
          var gone := net.DeleteRecord(z, r.id);
          if !gone {
            return false;
          }
          deleted := true;
        }
      }
      if deleted {
        InvalidateCache(z);
      }
      return true;
    }

    method CleanStaleRecords(z: ZoneRef, host: string, currentIP: string) returns (ok: bool)
      modifies this, net
      ensures Outcome(View(), net.servers, ok) == Do(old(View()), old(net.servers), CleanStale(z, host, currentIP))
    {
      hide CacheKey, ListCached, Invalidate, Delete;
      ghost var op := CleanStale(z, host, currentIP);
      var records := ListRecordsCached(z);
      if records.None? {
        return false;
      }
      var deleted := false;
      for i := 0 to |records.value|
        invariant View() == ListCached(old(View()), old(net.servers), z).0
        invariant Follows(old(net.servers), op, records.value, net.servers, deleted, records.value[i..])
      {
        SweepNext(net.servers, op, records.value, i);
        var r := records.value[i];
        if r.name == host && r.rtype == "A" && r.data != currentIP {
          var gone := net.DeleteRecord(z, r.id);
          if gone {
            deleted := true;
          }
        }
      }
      if deleted {
        InvalidateCache(z);
      }
      return true;
    }
  }

  /** The sweep of all records, from s0, goes on as the sweep of those left, from s. */
  ghost predicate Follows(s0: Servers, op: Op, all: seq<Record>, s: Servers, deleted: bool, left: seq<Record>)
    requires op.Deregister? || op.DeregisterByIP? || op.CleanStale?
  {
    var whole, rest := Sweep(s0, op, all), Sweep(s, op, left);
    whole.servers == rest.servers && whole.failed == rest.failed
      && (!whole.failed ==> whole.deleted == (deleted || rest.deleted))
  }

  lemma SweepNext(s: Servers, op: Op, records: seq<Record>, i: nat)
    requires i < |records| && (op.Deregister? || op.DeregisterByIP? || op.CleanStale?)
    ensures records[i..][0] == records[i] && records[i..][1..] == records[i + 1..]
  {
  }
}
