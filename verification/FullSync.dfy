/** The full resync between two cluster nodes. */
module FullSync {
  // A store's buckets as one map. Empty buckets are never sent, so a payload is such a map too.
  datatype Key = Key(bucket: string, name: string)

  type Value = string
  type Entries = map<Key, Value>

  const SYNCED: seq<string> := [
    "PODS", "CONFIGMAPS", "NAMESPACES", "BAREMETALHOSTS", "DEPLOYMENTS", "PVCS", "NETWORKS", "REGISTRIES",
    "ISCSICDROMS", "BOOTCONFIGS"]

  const LOCAL: seq<string> := ["NODE_STATUS", "HOSTRESERVATIONS", "JOBRUNNERS", "JOBS", "JOBLOGS"]

  predicate Synced(k: Key) {
    k.bucket in SYNCED
  }

  /** The store has a bucket of this name. */
  predicate Known(k: Key) {
    k.bucket in SYNCED || k.bucket in LOCAL
  }

  function KnownKeys(m: Entries): set<Key> {
    set k | k in m && Known(k)
  }

  function Export(s: Entries): Entries {
    map k | k in s && Synced(k) :: s[k]
  }

  /** The payload's keys the store lacks are added. */
  function Fill(s: Entries, payload: Entries): Entries {
    map k | k in s.Keys + payload.Keys && (k in s || Known(k)) :: if k in s then s[k] else payload[k]
  }

  /** All of the payload's keys are written. */
  function Overwrite(s: Entries, payload: Entries): Entries {
    map k | k in s.Keys + payload.Keys && (k in s || Known(k)) :: if k in payload && Known(k) then payload[k] else s[k]
  }

  /** The initiator's and the peer's store after a resync nobody disturbs. */
  function Resync(a: Entries, b: Entries): (Entries, Entries) {
    var a' := Fill(a, Export(b));
    (a', Overwrite(b, Export(a')))
  }

  /** Both stores have the key, with different values. */
  predicate Disagree(a: Entries, b: Entries, k: Key) {
    Synced(k) && k in a && k in b && a[k] != b[k]
  }

  /** The two stores hold the same in the synced buckets. */
  predicate Converged(a: Entries, b: Entries) {
    Export(a) == Export(b)
  }

  function Local(s: Entries): Entries {
    map k | k in s && !Synced(k) :: s[k]
  }

  /**
   * An import takes whatever is addressed to one of fifteen buckets, ten of which a node ever sends: jobs, runners,
   * reservations, job logs and node states would be taken from a peer but are never given to one.
   */
  lemma {:induction false} ImportedBuckets(s: Entries, payload: Entries, k: Key)
    requires k in payload
    ensures var sent := k.bucket in {"PODS", "CONFIGMAPS", "NAMESPACES", "BAREMETALHOSTS", "DEPLOYMENTS", "PVCS",
                                     "NETWORKS", "REGISTRIES", "ISCSICDROMS", "BOOTCONFIGS"};
            var own := k.bucket in {"NODE_STATUS", "HOSTRESERVATIONS", "JOBRUNNERS", "JOBS", "JOBLOGS"};
            && (k in Export(payload) <==> sent)
            && (sent || own ==> k in Overwrite(s, payload) && Overwrite(s, payload)[k] == payload[k])
            && (!sent && !own ==> (k in Overwrite(s, payload) <==> k in s)
                                  && (k in s ==> Overwrite(s, payload)[k] == s[k]))
    ensures KnownKeys(payload) == Overwrite(map[], payload).Keys
  {
  }

  /** What a resync does to one key. */
  lemma ResyncAt(a: Entries, b: Entries, k: Key)
    ensures var (a', b') := Resync(a, b);
            if Synced(k) then
              && (k in a' <==> k in a || k in b) && (k in b' <==> k in a || k in b)
              && (k in a ==> a'[k] == a[k] == b'[k]) && (k !in a && k in b ==> a'[k] == b[k] == b'[k])
            else
              && (k in a' <==> k in a) && (k in a ==> a'[k] == a[k]) && (k in b' <==> k in b)
                 && (k in b ==> b'[k] == b[k])
  {
    var a' := Fill(a, Export(b));
    assert k in Export(b) <==> k in b && Synced(k);
    assert k in Export(a') <==> k in a' && Synced(k);
  }

  /** Both sides end with every key of either, the initiator's value where both had one; the local buckets stay. */
  lemma {:induction false} LoneResync(a: Entries, b: Entries)
    ensures var (a', b') := Resync(a, b);
            && Converged(a', b')
            && (forall k | Synced(k) :: k in a' <==> k in a || k in b)
            && (forall k | Synced(k) && k in a' :: a'[k] == if k in a then a[k] else b[k])
            && Local(a') == Local(a) && Local(b') == Local(b)
  {
    hide Resync, Fill, Overwrite;
    forall k
      ensures var (a', b') := Resync(a, b);
              && (Synced(k) ==> (k in a' <==> k in a || k in b) && (k in a' <==> k in b'))
              && (Synced(k) && k in a' ==> a'[k] == b'[k] == if k in a then a[k] else b[k])
              && (!Synced(k) ==> (k in a' <==> k in a) && (k in b' <==> k in b))
              && (!Synced(k) && k in a ==> a'[k] == a[k]) && (!Synced(k) && k in b ==> b'[k] == b[k])
    {
      ResyncAt(a, b, k);
    }
    var (a', b') := Resync(a, b);
    SameExport(a', b');
    SameLocal(a', a);
    SameLocal(b', b);
  }

  lemma SameExport(s: Entries, t: Entries)
    requires forall k | Synced(k) :: (k in s <==> k in t) && (k in s ==> s[k] == t[k])
    ensures Export(s) == Export(t)
  {
    hide Synced;
  }

  lemma SameLocal(s: Entries, t: Entries)
    requires forall k | !Synced(k) :: (k in s <==> k in t) && (k in s ==> s[k] == t[k])
    ensures Local(s) == Local(t)
  {
    hide Synced;
  }

  /** A repeat from either side changes nothing. */
  lemma {:induction false} RepeatIsNoOp(a: Entries, b: Entries)
    ensures var (a', b') := Resync(a, b); Resync(a', b') == (a', b') && Resync(b', a') == (b', a')
  {
    var (a', b') := Resync(a, b);
    LoneResync(a, b);
    ResyncOfConverged(a', b');
    ResyncOfConverged(b', a');
  }

  lemma ResyncOfConverged(a: Entries, b: Entries)
    requires Converged(a, b)
    ensures Resync(a, b) == (a, b)
  {
    assert forall k | k in Export(b) :: k in Export(a);
    assert Fill(a, Export(b)) == a;
    assert forall k | k in Export(a) :: k in Export(b) && Export(a)[k] == Export(b)[k];
    assert Overwrite(b, Export(a)) == b;
  }

  // The resync as its processes run it, one read or write of one key at a time.

  // Fetching: the peer collects its state; must holds the keys it listed and has not read.
  // Merging: left holds the entries not looked at. Writing: key k was found missing.
  // Building: the same as Fetching, on the own store. Pushing: left holds the entries the peer has not written.
  datatype Proc =
    | Idle
    | Fetching(must: set<Key>, got: Entries)
    | Merging(left: Entries)
    | Writing(left: Entries, k: Key, v: Value)
    | Building(must: set<Key>, got: Entries)
    | Pushing(left: Entries)
    | Done

  // A node's store and the resync it initiated.
  datatype Node = Node(store: Entries, proc: Proc)

  datatype Pair = Pair(a: Node, b: Node)

  function SyncedKeys(s: Entries): set<Key> {
    set k | k in s && Synced(k)
  }

  datatype Action = Start | Finish | One(k: Key)

  predicate Enabled(me: Node, peer: Node, act: Action) {
    match me.proc
    case Idle => act.Start?
    case Fetching(must, got) => if act.Finish? then must == {} else act.One? && act.k in peer.store && Synced(act.k)
    case Merging(left) => if act.Finish? then left == map[] else act.One? && act.k in left
    case Writing(left, k, v) => act == One(k)
    case Building(must, got) => if act.Finish? then must == {} else act.One? && act.k in me.store && Synced(act.k)
    case Pushing(left) => if act.Finish? then left == map[] else act.One? && act.k in left
    case Done => false
  }

  /** One action of the resync that me runs with peer. */
  function Act(me: Node, peer: Node, act: Action): (r: (Node, Node))
    requires Enabled(me, peer, act)
  {
    match me.proc
    case Idle => (me.(proc := Fetching(SyncedKeys(peer.store), map[])), peer)
    case Fetching(must, got) =>
      if act.Finish? then (me.(proc := Merging(got)), peer)
      else (me.(proc := Fetching(must - {act.k}, got[act.k := peer.store[act.k]])), peer)
    case Merging(left) =>
      if act.Finish? then (me.(proc := Building(SyncedKeys(me.store), map[])), peer)
      else if act.k in me.store then (me.(proc := Merging(left - {act.k})), peer)
      else (me.(proc := Writing(left - {act.k}, act.k, left[act.k])), peer)
    case Writing(left, k, v) => (Node(me.store[k := v], Merging(left)), peer)
    case Building(must, got) =>
      if act.Finish? then (me.(proc := Pushing(got)), peer)
      else (me.(proc := Building(must - {act.k}, got[act.k := me.store[act.k]])), peer)
    case Pushing(left) =>
      if act.Finish? then (me.(proc := Done), peer)
      else (me.(proc := Pushing(left - {act.k})), peer.(store := peer.store[act.k := left[act.k]]))
  }

  function Swap(s: Pair): Pair {
    Pair(s.b, s.a)
  }

  ghost predicate StepA(s: Pair, t: Pair) {
    exists act :: Enabled(s.a, s.b, act) && (t.a, t.b) == Act(s.a, s.b, act)
  }

  ghost predicate Next(s: Pair, t: Pair) {
    StepA(s, t) || StepA(Swap(s), Swap(t))
  }

  ghost predicate IsRun(run: seq<Pair>) {
    run != [] && forall i {:trigger run[i]} | 0 < i < |run| :: Next(run[i - 1], run[i])
  }

  function Initial(a: Entries, b: Entries): Pair {
    Pair(Node(a, Idle), Node(b, Idle))
  }

  ghost predicate Reaches(s: Pair, t: Pair) {
    exists run :: IsRun(run) && run[0] == s && run[|run| - 1] == t
  }

  // What every step keeps.

  /** A value the key had at the outset. */
  predicate FromStart(a0: Entries, b0: Entries, k: Key, v: Value) {
    Synced(k) && ((k in a0 && v == a0[k]) || (k in b0 && v == b0[k]))
  }

  predicate AllFromStart(a0: Entries, b0: Entries, m: Entries) {
    forall k | k in m :: FromStart(a0, b0, k, m[k])
  }

  predicate Carried(a0: Entries, b0: Entries, p: Proc) {
    match p
    case Idle => true
    case Fetching(must, got) => AllFromStart(a0, b0, got)
    case Merging(left) => AllFromStart(a0, b0, left)
    case Writing(left, k, v) => AllFromStart(a0, b0, left) && FromStart(a0, b0, k, v)
    case Building(must, got) => AllFromStart(a0, b0, got)
    case Pushing(left) => AllFromStart(a0, b0, left)
    case Done => true
  }

  /** What the process of me, which started with me0, has still to do leaves no key of either side behind. */
  predicate Covers(me0: Entries, peer0: Entries, me: Node, peer: Entries) {
    var all := SyncedKeys(me0) + SyncedKeys(peer0);
    match me.proc
    case Idle => true
    case Fetching(must, got) => SyncedKeys(peer0) <= must + got.Keys
    case Merging(left) => SyncedKeys(peer0) <= left.Keys + me.store.Keys
    case Writing(left, k, v) => SyncedKeys(peer0) <= left.Keys + {k} + me.store.Keys
    case Building(must, got) => all <= me.store.Keys && all <= must + got.Keys
    case Pushing(left) => all <= me.store.Keys && all <= left.Keys + peer.Keys
    case Done => all <= me.store.Keys && all <= peer.Keys
  }

  predicate NodeKept(me0: Entries, peer0: Entries, me: Node, peer: Entries) {
    && me0.Keys <= me.store.Keys && Local(me.store) == Local(me0) && AllFromStart(me0, peer0, Export(me.store))
    && Carried(me0, peer0, me.proc) && Covers(me0, peer0, me, peer)
  }

  predicate PairKept(a0: Entries, b0: Entries, s: Pair) {
    NodeKept(a0, b0, s.a, s.b.store) && NodeKept(b0, a0, s.b, s.a.store)
  }

  lemma InitialKept(a: Entries, b: Entries)
    ensures PairKept(a, b, Initial(a, b))
  {
  }

  lemma StoreGrows(s0: Entries, s: Entries, p0: Entries, k: Key, v: Value)
    requires AllFromStart(s0, p0, Export(s)) && FromStart(s0, p0, k, v)
    ensures AllFromStart(s0, p0, Export(s[k := v])) && Local(s[k := v]) == Local(s) && s.Keys <= s[k := v].Keys
  {
    var t := s[k := v];
    forall j | j in Export(t)
      ensures FromStart(s0, p0, j, t[j])
    {
      if j != k {
        assert j in Export(s);
      }
    }
    assert Local(t) == Local(s);
  }

  lemma StepKeepsA(a0: Entries, b0: Entries, s: Pair, act: Action)
    requires PairKept(a0, b0, s) && Enabled(s.a, s.b, act)
    ensures var (a, b) := Act(s.a, s.b, act); PairKept(a0, b0, Pair(a, b))
  {
    var me, peer := s.a, s.b;
    match me.proc
    case Idle =>
    case Fetching(must, got) =>
      if act.One? {
        assert act.k in Export(peer.store);
      }
    case Merging(left) =>
    case Writing(left, k, v) => StoreGrows(a0, me.store, b0, k, v);
    case Building(must, got) =>
      if act.One? {
        assert act.k in Export(me.store);
      }
    case Pushing(left) =>
      if act.One? {
        assert FromStart(b0, a0, act.k, left[act.k]);
        StoreGrows(b0, peer.store, a0, act.k, left[act.k]);
      }
    case Done =>
  }

  lemma {:induction false} StepKeeps(a0: Entries, b0: Entries, s: Pair, t: Pair)
    requires PairKept(a0, b0, s) && Next(s, t)
    ensures PairKept(a0, b0, t)
  {
    hide Act, Enabled, NodeKept;
    if StepA(s, t) {
      var act :| Enabled(s.a, s.b, act) && (t.a, t.b) == Act(s.a, s.b, act);
      StepKeepsA(a0, b0, s, act);
    } else {
      var act :| Enabled(s.b, s.a, act) && (t.b, t.a) == Act(s.b, s.a, act);
      StepKeepsA(b0, a0, Swap(s), act);
    }
  }

  lemma {:induction false} RunKeeps(a0: Entries, b0: Entries, run: seq<Pair>)
    requires IsRun(run) && run[0] == Initial(a0, b0)
    ensures PairKept(a0, b0, run[|run| - 1])
    decreases |run|
  {
    hide PairKept, Next;
    if |run| == 1 {
      InitialKept(a0, b0);
    } else {
      var start := run[..|run| - 1];
      assert forall i {:trigger start[i]} | 0 < i < |start| :: run[i] == start[i] && run[i - 1] == start[i - 1];
      RunKeeps(a0, b0, start);
      StepKeeps(a0, b0, start[|start| - 1], run[|run| - 1]);
    }
  }

  /**
   * Under every interleaving, once one resync is over both sides hold every key of either side,
   * and each key that was no point of disagreement has the same value on both.
   */
  lemma {:induction false} CrossingConverges(a0: Entries, b0: Entries, s: Pair)
    requires Reaches(Initial(a0, b0), s) && (s.a.proc.Done? || s.b.proc.Done?)
    ensures forall k | Synced(k) :: (k in s.a.store <==> k in a0 || k in b0) && (k in s.b.store <==> k in a0 || k in b0)
    ensures forall k | Synced(k) && k in s.a.store && !Disagree(a0, b0, k) :: s.a.store[k] == s.b.store[k]
    ensures Local(s.a.store) == Local(a0) && Local(s.b.store) == Local(b0)
  {
    var run :| IsRun(run) && run[0] == Initial(a0, b0) && run[|run| - 1] == s;
    RunKeeps(a0, b0, run);
    forall k | Synced(k)
      ensures (k in s.a.store ==> FromStart(a0, b0, k, s.a.store[k]))
              && (k in s.b.store ==> FromStart(b0, a0, k, s.b.store[k]))
      ensures k in a0 || k in b0 ==> k in s.a.store && k in s.b.store
    {
      assert k in s.a.store ==> k in Export(s.a.store);
      assert k in s.b.store ==> k in Export(s.b.store);
      assert k in a0 || k in b0 ==> k in SyncedKeys(a0) + SyncedKeys(b0);
    }
  }

  // Two resyncs in step.

  /** The pair seen from b when swapped. */
  function Turn(s: Pair, swapped: bool): Pair {
    if swapped then Swap(s) else s
  }

  lemma ReachesSelf(s: Pair)
    ensures Reaches(s, s)
  {
    assert IsRun([s]);
  }

  /** A run goes on with an action of either side. */
  lemma Go(start: Pair, me: Node, peer: Node, swapped: bool, act: Action)
    requires Reaches(start, Turn(Pair(me, peer), swapped)) && Enabled(me, peer, act)
    ensures var (m, p) := Act(me, peer, act); Reaches(start, Turn(Pair(m, p), swapped))
  {
    hide Enabled, Act;
    var s := Turn(Pair(me, peer), swapped);
    var (m, p) := Act(me, peer, act);
    var t := Turn(Pair(m, p), swapped);
    assert Turn(s, swapped) == Pair(me, peer) && Turn(t, swapped) == Pair(m, p);
    assert StepA(Turn(s, swapped), Turn(t, swapped));
    assert Next(s, t);
    Extend(start, s, t);
  }

  lemma Extend(start: Pair, s: Pair, t: Pair)
    requires Reaches(start, s) && Next(s, t)
    ensures Reaches(start, t)
  {
    hide Next;
    var run :| IsRun(run) && run[0] == start && run[|run| - 1] == s;
    var longer := run + [t];
    forall i {:trigger longer[i]} | 0 < i < |longer|
      ensures Next(longer[i - 1], longer[i])
    {
      assert i < |run| ==> longer[i] == run[i] && longer[i - 1] == run[i - 1];
    }
    assert IsRun(longer);
  }

  predicate SubMap(part: Entries, whole: Entries) {
    forall k | k in part :: k in whole && part[k] == whole[k]
  }

  lemma SubMapWhole(part: Entries, whole: Entries)
    requires SubMap(part, whole) && whole.Keys <= part.Keys
    ensures part == whole
  {
    assert forall k | k in whole :: k in part;
  }

  lemma {:induction false} FetchRest(start: Pair, me: Node, peer: Node, swapped: bool)
    requires Reaches(start, Turn(Pair(me, peer), swapped)) && me.proc.Fetching?
    requires SubMap(me.proc.got, Export(peer.store))
             && me.proc.must <= SyncedKeys(peer.store) <= me.proc.must + me.proc.got.Keys
    ensures Reaches(start, Turn(Pair(me.(proc := Merging(Export(peer.store))), peer), swapped))
    decreases |me.proc.must|
  {
    hide Reaches, Turn;
    var all := Export(peer.store);
    if me.proc.must == {} {
      SubMapWhole(me.proc.got, all);
      Go(start, me, peer, swapped, Finish);
    } else {
      var k :| k in me.proc.must;
      assert k in all && k in SyncedKeys(peer.store);
      Go(start, me, peer, swapped, One(k));
      var m := me.(proc := Fetching(me.proc.must - {k}, me.proc.got[k := peer.store[k]]));
      FetchRest(start, m, peer, swapped);
    }
  }

  lemma {:induction false} BuildRest(start: Pair, me: Node, peer: Node, swapped: bool)
    requires Reaches(start, Turn(Pair(me, peer), swapped)) && me.proc.Building?
    requires SubMap(me.proc.got, Export(me.store))
             && me.proc.must <= SyncedKeys(me.store) <= me.proc.must + me.proc.got.Keys
    ensures Reaches(start, Turn(Pair(me.(proc := Pushing(Export(me.store))), peer), swapped))
    decreases |me.proc.must|
  {
    hide Reaches, Turn;
    var all := Export(me.store);
    if me.proc.must == {} {
      SubMapWhole(me.proc.got, all);
      Go(start, me, peer, swapped, Finish);
    } else {
      var k :| k in me.proc.must;
      assert k in all && k in SyncedKeys(me.store);
      Go(start, me, peer, swapped, One(k));
      var m := me.(proc := Building(me.proc.must - {k}, me.proc.got[k := me.store[k]]));
      BuildRest(start, m, peer, swapped);
    }
  }

  predicate AllSynced(m: Entries) {
    forall k | k in m :: Synced(k)
  }

  lemma FillSkip(s: Entries, left: Entries, k: Key)
    requires k in left && k in s
    ensures Fill(s, left - {k}) == Fill(s, left)
  {
  }

  lemma FillPut(s: Entries, left: Entries, k: Key)
    requires k in left && k !in s && Synced(k)
    ensures Fill(s[k := left[k]], left - {k}) == Fill(s, left)
  {
  }

  lemma FillNone(s: Entries)
    ensures Fill(s, map[]) == s
  {
  }

  lemma OverwriteOne(s: Entries, left: Entries, k: Key)
    requires k in left && Synced(k)
    ensures Overwrite(s[k := left[k]], left - {k}) == Overwrite(s, left)
  {
  }

  lemma OverwriteNone(s: Entries)
    ensures Overwrite(s, map[]) == s
  {
  }

  lemma {:induction false} MergeRest(start: Pair, me: Node, peer: Node, swapped: bool)
    requires Reaches(start, Turn(Pair(me, peer), swapped)) && me.proc.Merging? && AllSynced(me.proc.left)
    ensures var filled := Fill(me.store, me.proc.left);
            Reaches(start, Turn(Pair(Node(filled, Building(SyncedKeys(filled), map[])), peer), swapped))
    decreases me.proc.left.Keys
  {
    hide Reaches, Turn, Fill, Synced;
    var left := me.proc.left;
    if left == map[] {
      FillNone(me.store);
      Go(start, me, peer, swapped, Finish);
    } else {
      var k :| k in left;
      Go(start, me, peer, swapped, One(k));
      assert (left - {k}).Keys < left.Keys by { assert k in left.Keys; }
      if k in me.store {
        FillSkip(me.store, left, k);
        MergeRest(start, me.(proc := Merging(left - {k})), peer, swapped);
      } else {
        FillPut(me.store, left, k);
        Go(start, me.(proc := Writing(left - {k}, k, left[k])), peer, swapped, One(k));
        MergeRest(start, Node(me.store[k := left[k]], Merging(left - {k})), peer, swapped);
      }
    }
  }

  lemma {:induction false} PushRest(start: Pair, me: Node, peer: Node, swapped: bool)
    requires Reaches(start, Turn(Pair(me, peer), swapped)) && me.proc.Pushing? && AllSynced(me.proc.left)
    ensures Reaches(start, Turn(Pair(me.(proc := Done), peer.(store := Overwrite(peer.store, me.proc.left))), swapped))
    decreases me.proc.left.Keys
  {
    hide Reaches, Turn, Overwrite, Synced;
    var left := me.proc.left;
    if left == map[] {
      OverwriteNone(peer.store);
      Go(start, me, peer, swapped, Finish);
    } else {
      var k :| k in left;
      Go(start, me, peer, swapped, One(k));
      assert (left - {k}).Keys < left.Keys by { assert k in left.Keys; }
      OverwriteOne(peer.store, left, k);
      PushRest(start, me.(proc := Pushing(left - {k})), peer.(store := peer.store[k := left[k]]), swapped);
    }
  }

  /** Where two resyncs end that go through their phases in step. */
  function Crossed(a: Entries, b: Entries): Pair {
    var fa, fb := Fill(a, Export(b)), Fill(b, Export(a));
    Pair(Node(Overwrite(fa, Export(fb)), Done), Node(Overwrite(fb, Export(fa)), Done))
  }

  lemma {:induction false} ReachesCrossed(a: Entries, b: Entries)
    ensures Reaches(Initial(a, b), Crossed(a, b))
  {
    hide Reaches, Fill, Overwrite, Export, SyncedKeys, Synced;
    var start := Initial(a, b);
    var fetchA, fetchB := Fetching(SyncedKeys(b), map[]), Fetching(SyncedKeys(a), map[]);
    var mergeA, mergeB := Merging(Export(b)), Merging(Export(a));
    var fa, fb := Fill(a, Export(b)), Fill(b, Export(a));
    var buildA, buildB := Building(SyncedKeys(fa), map[]), Building(SyncedKeys(fb), map[]);
    var pushA, pushB := Pushing(Export(fa)), Pushing(Export(fb));
    ExportSynced(a);
    ExportSynced(b);
    ExportSynced(fa);
    ExportSynced(fb);
    ReachesSelf(start);
    Go(start, Node(a, Idle), Node(b, Idle), false, Start);
    Go(start, Node(b, Idle), Node(a, fetchA), true, Start);
    FetchRest(start, Node(a, fetchA), Node(b, fetchB), false);
    FetchRest(start, Node(b, fetchB), Node(a, mergeA), true);
    MergeRest(start, Node(a, mergeA), Node(b, mergeB), false);
    MergeRest(start, Node(b, mergeB), Node(fa, buildA), true);
    BuildRest(start, Node(fa, buildA), Node(fb, buildB), false);
    BuildRest(start, Node(fb, buildB), Node(fa, pushA), true);
    PushRest(start, Node(fa, pushA), Node(fb, pushB), false);
    PushRest(start, Node(Overwrite(fb, Export(fa)), pushB), Node(fa, Done), true);
  }

  lemma ExportSynced(s: Entries)
    ensures AllSynced(Export(s))
  {
  }

  lemma {:induction false} CrossedSwaps(a: Entries, b: Entries, k: Key)
    requires Disagree(a, b, k)
    ensures var s := Crossed(a, b);
            && k in Export(s.a.store) && s.a.store[k] == b[k] && k in Export(s.b.store) && s.b.store[k] == a[k]
  {
    var fa, fb := Fill(a, Export(b)), Fill(b, Export(a));
    assert k in fa && k in Export(fa) && fa[k] == a[k];
    assert k in fb && k in Export(fb) && fb[k] == b[k];
  }

  /** Crossing resyncs are sure to leave the two sides equal exactly when they had no key in dispute. */
  lemma {:induction false} CrossingConvergesIff(a: Entries, b: Entries)
    ensures (forall s | Reaches(Initial(a, b), s) && s.a.proc.Done? && s.b.proc.Done? ::
            Converged(s.a.store, s.b.store))
            <==> !exists k :: Disagree(a, b, k)
  {
    hide Reaches, Crossed, Synced, Disagree;
    if k :| Disagree(a, b, k) {
      ReachesCrossed(a, b);
      CrossedSwaps(a, b, k);
      CrossedDone(a, b);
      NotConverged(a, b, k);
    } else {
      forall s | Reaches(Initial(a, b), s) && s.a.proc.Done? && s.b.proc.Done?
        ensures Converged(s.a.store, s.b.store)
      {
        CrossingConverges(a, b, s);
        SameExport(s.a.store, s.b.store);
      }
    }
  }

  lemma CrossedDone(a: Entries, b: Entries)
    ensures Crossed(a, b).a.proc.Done? && Crossed(a, b).b.proc.Done?
  {
  }

  lemma NotConverged(a: Entries, b: Entries, k: Key)
    requires Disagree(a, b, k)
    ensures !Converged(Crossed(a, b).a.store, Crossed(a, b).b.store)
  {
    hide Crossed;
    CrossedSwaps(a, b, k);
    var s := Crossed(a, b);
    assert Export(s.a.store)[k] == b[k] != a[k] == Export(s.b.store)[k];
  }

  // One resync alone, key by key, is the resync as one function.

  predicate LoneKept(a0: Entries, b0: Entries, s: Pair) {
    var filled := Fill(a0, Export(b0));
    s.b.proc.Idle? &&
    match s.a.proc
    case Idle => s.a.store == a0 && s.b.store == b0
    case Fetching(must, got) =>
      s.a.store == a0 && s.b.store == b0 && SubMap(got, Export(b0)) && SyncedKeys(b0) <= must + got.Keys
    case Merging(left) => s.b.store == b0 && AllSynced(left) && Fill(s.a.store, left) == filled
    case Writing(left, k, v) => s.b.store == b0 && AllSynced(left) && Synced(k)
      && Fill(s.a.store[k := v], left) == filled
    case Building(must, got) =>
      s.a.store == filled && s.b.store == b0 && SubMap(got, Export(filled)) && SyncedKeys(filled) <= must + got.Keys
    case Pushing(left) =>
      s.a.store == filled && AllSynced(left) && Overwrite(s.b.store, left) == Overwrite(b0, Export(filled))
    case Done => (s.a.store, s.b.store) == Resync(a0, b0)
  }

  lemma LoneStep(a0: Entries, b0: Entries, s: Pair, act: Action)
    requires LoneKept(a0, b0, s) && Enabled(s.a, s.b, act)
    ensures var (a, b) := Act(s.a, s.b, act); LoneKept(a0, b0, Pair(a, b))
  {
    hide Fill, Overwrite, Synced;
    var me, peer := s.a, s.b;
    match me.proc
    case Idle =>
    case Fetching(must, got) =>
      if act.Finish? {
        SubMapWhole(got, Export(b0));
        ExportSynced(b0);
      } else {
        assert act.k in Export(b0);
      }
    case Merging(left) =>
      if act.Finish? {
        FillNone(me.store);
      } else if act.k in me.store {
        FillSkip(me.store, left, act.k);
      } else {
        FillPut(me.store, left, act.k);
      }
    case Writing(left, k, v) =>
    case Building(must, got) =>
      if act.Finish? {
        SubMapWhole(got, Export(me.store));
        ExportSynced(me.store);
      } else {
        assert act.k in Export(me.store);
      }
    case Pushing(left) =>
      if act.Finish? {
        OverwriteNone(peer.store);
      } else {
        OverwriteOne(peer.store, left, act.k);
      }
    case Done =>
  }

  /** A resync that no other crosses ends, whatever the order of its keys, as one call of Resync. */
  lemma {:induction false} LoneRunIsResync(a0: Entries, b0: Entries, run: seq<Pair>)
    requires IsRun(run) && run[0] == Initial(a0, b0) && forall i | 0 <= i < |run| :: run[i].b.proc.Idle?
    ensures LoneKept(a0, b0, run[|run| - 1])
    ensures run[|run| - 1].a.proc.Done? ==> (run[|run| - 1].a.store, run[|run| - 1].b.store) == Resync(a0, b0)
    decreases |run|
  {
    hide Resync, Fill, Overwrite, Synced, Next;
    if |run| > 1 {
      var start := run[..|run| - 1];
      assert forall i {:trigger start[i]} | 0 < i < |start| :: run[i] == start[i] && run[i - 1] == start[i - 1];
      LoneRunIsResync(a0, b0, start);
      assert run[|run| - 1].b.proc.Idle? && start[|start| - 1].b.proc.Idle?;
      LoneNext(a0, b0, start[|start| - 1], run[|run| - 1]);
    }
  }

  lemma LoneNext(a0: Entries, b0: Entries, s: Pair, t: Pair)
    requires LoneKept(a0, b0, s) && Next(s, t) && t.b.proc.Idle?
    ensures LoneKept(a0, b0, t)
  {
    hide LoneKept, Act, Enabled;
    if StepA(s, t) {
      var act :| Enabled(s.a, s.b, act) && (t.a, t.b) == Act(s.a, s.b, act);
      LoneStep(a0, b0, s, act);
    } else {
      var act :| Enabled(s.b, s.a, act) && (t.b, t.a) == Act(s.b, s.a, act);
      LoneIdle(a0, b0, s);
      NoLongerIdle(s.b, s.a, act);
    }
  }

  lemma LoneIdle(a0: Entries, b0: Entries, s: Pair)
    requires LoneKept(a0, b0, s)
    ensures s.b.proc.Idle?
  {
  }

  lemma NoLongerIdle(me: Node, peer: Node, act: Action)
    requires me.proc.Idle? && Enabled(me, peer, act)
    ensures !Act(me, peer, act).0.proc.Idle?
  {
  }

  // The loops.

  class Store {
    var entries: Entries

    constructor ()
      ensures entries == map[]
    {
      entries := map[];
    }

    /** The export handler does the same. */
    method BuildPayload() returns (payload: Entries)
      ensures payload == Export(entries)
    {
      hide SYNCED;
      payload := map[];
      for i := 0 to |SYNCED|
        invariant payload == map k | k in entries && k.bucket in SYNCED[..i] :: entries[k]
      {
        var keys := set k | k in entries && k.bucket == SYNCED[i];
        ghost var before := payload;
        while keys != {}
          invariant forall k | k in keys :: k in entries && k.bucket == SYNCED[i]
          invariant payload == map k | k in entries && (k in before || (k.bucket == SYNCED[i] && k !in keys)) ::
                    entries[k]
          decreases keys
        {
          var key :| key in keys;
          payload := payload[key := entries[key]];
          keys := keys - {key};
        }
        assert SYNCED[..i + 1] == SYNCED[..i] + [SYNCED[i]];
      }
      assert SYNCED[..|SYNCED|] == SYNCED;
    }

    method Put(key: Key, value: Value)
      modifies this
      ensures entries == old(entries)[key := value]
    {
      entries := entries[key := value];
    }

    method HandleFullSyncImport(payload: Entries) returns (imported: nat)
      modifies this
      ensures entries == Overwrite(old(entries), payload) && imported == |KnownKeys(payload)|
    {
      hide Known;
      imported := 0;
      var todo := payload;
      OverwriteNone(entries);
      while todo != map[]
        invariant imported + |KnownKeys(todo)| == |KnownKeys(payload)|
        invariant SubMap(todo, payload) && Overwrite(entries, todo) == Overwrite(old(entries), payload)
        decreases todo.Keys
      {
        var key :| key in todo;
        assert key in todo.Keys;
        OverwriteKey(entries, todo, key);
        assert KnownKeys(todo - {key}) == KnownKeys(todo) - {key};
        if Known(key) {
          Put(key, todo[key]);
          imported := imported + 1;
        }
        todo := todo - {key};
      }
      OverwriteNone(entries);
    }

    method FullResyncWithPeer(peer: Store)
      requires peer != this
      modifies this, peer
      ensures (entries, peer.entries) == Resync(old(entries), old(peer.entries))
    {
      hide Known;
      var fetched := peer.BuildPayload();
      var todo := fetched;
      FillNone(entries);
      while todo != map[]
        invariant SubMap(todo, fetched) && Fill(entries, todo) == Fill(old(entries), fetched)
        invariant peer.entries == old(peer.entries)
        decreases todo.Keys
      {
        var key :| key in todo;
        assert key in todo.Keys;
        FillKey(entries, todo, key);
        if Known(key) && key !in entries {
          Put(key, todo[key]);
        }
        todo := todo - {key};
      }
      FillNone(entries);
      var payload := BuildPayload();
      var _ := peer.HandleFullSyncImport(payload);
    }
  }

  lemma OverwriteKey(s: Entries, left: Entries, k: Key)
    requires k in left
    ensures Overwrite(if Known(k) then s[k := left[k]] else s, left - {k}) == Overwrite(s, left)
  {
  }

  lemma FillKey(s: Entries, left: Entries, k: Key)
    requires k in left
    ensures Fill(if Known(k) && k !in s then s[k := left[k]] else s, left - {k}) == Fill(s, left)
  {
  }
}
