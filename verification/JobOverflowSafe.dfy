/** A pass from a safe state keeps hosts exclusive: each turn takes an idle host. */
module JobOverflowSafe {
  import opened JobState
  import opened JobPass
  import opened JobOverflow
  import opened JobOverflowTurns

  /**
   * Hosts are exclusive, and every start of a pool's job has used up one of its free hosts,
     except that one job at most,
   * of pool over, was placed on an unreserved host.
   */
  ghost predicate SafeSoFar(s: State, x: State, over: Option<string>) {
    && Exclusive(x)
    && (forall pool: string :: Balanced(s, x, pool, over == Some(pool)))
    && (forall h, pool | h in FreeIn(x, pool) && Busy(x, x.reservations[h].bmhRef) :: Busy(s, x.reservations[h].bmhRef))
    && (over.None? ==> forall b | Spare(s, b) && Busy(x, b) :: Busy(s, b))
    && (over.Some? ==> FreeIn(x, over.value) == {} && exists rn :: MayOverflow(s, over.value, rn, 1))
  }

  predicate Balanced(s: State, x: State, pool: string, once: bool) {
    |ActiveIn(x, pool)| + |FreeIn(x, pool)| == |ActiveIn(s, pool)| + |FreeIn(s, pool)| + (if once then 1 else 0)
  }

  lemma SafeStart(s: State)
    requires Exclusive(s)
    ensures SafeSoFar(s, s, None)
  {
    hide Busy, Exclusive, FreeIn, Spare;
  }

  /** Jobs of the pool that became active were waiting, and the next one is still waiting. */
  lemma StartedBound(s: State, x: State, order: seq<string>, i: nat, pool: string)
    requires QueueOrder(s, order) && Base(s, x, order, i) && i < |order| && order[i] in s.jobs
             && s.jobs[order[i]].pool == pool
    ensures |ActiveIn(s, pool)| <= |ActiveIn(x, pool)| < |ActiveIn(s, pool)| + |PendingIn(s, pool)|
  {
    NextPending(s, x, order, i);
    var a, b, rest := ActiveIn(s, pool), ActiveIn(x, pool), PendingIn(s, pool) - {order[i]};
    ActiveStay(s, x, order, i, pool);
    assert b == a + (b - a);
    assert rest == (b - a) + (rest - (b - a));
    assert order[i] in PendingIn(s, pool);
    assert |rest| == |PendingIn(s, pool)| - 1;
  }

  lemma ActiveStay(s: State, x: State, order: seq<string>, i: nat, pool: string)
    requires QueueOrder(s, order) && Base(s, x, order, i) && i < |order| && order[i] in s.jobs
    ensures ActiveIn(s, pool) <= ActiveIn(x, pool)
    ensures ActiveIn(x, pool) - ActiveIn(s, pool) <= PendingIn(s, pool) - {order[i]}
  {
    NextPending(s, x, order, i);
    hide QueueOrder;
  }

  /** A turn that places a job on an unreserved host is one more overflow of the pool than there were. */
  lemma OneMoreOverflow(s: State, x: State, order: seq<string>, i: nat, rn: string, over: Option<string>)
    requires QueueOrder(s, order) && Base(s, x, order, i) && i < |order| && order[i] in s.jobs
    requires var pool := s.jobs[order[i]].pool;
             && FreeIn(x, pool) == {} && Balanced(s, x, pool, over == Some(pool))
             && rn in x.runners && ServesPool(x.runners[rn], pool) && x.runners[rn].allowOverflow
             && !AtCapacity(x, x.runners[rn])
    ensures var pool := s.jobs[order[i]].pool; MayOverflow(s, pool, rn, if over == Some(pool) then 2 else 1)
  {
    StartedBound(s, x, order, i, s.jobs[order[i]].pool);
    BaseRunners(s, x, order, i);
    hide Base, QueueOrder, ActiveIn, FreeIn, PendingIn;
  }

  lemma FreeShrinks(s: State, x: State, order: seq<string>, i: nat, pool: string)
    requires Base(s, x, order, i)
    ensures FreeIn(x, pool) <= FreeIn(s, pool)
  {
  }

  /** In a safe state a host that a turn takes from the pool's free ones is idle. */
  lemma FreeIsIdle(s: State, x: State, order: seq<string>, i: nat, rn: string, h: string, over: Option<string>)
    requires PassSafe(s) && QueueOrder(s, order) && Base(s, x, order, i) && i < |order| && order[i] in s.jobs
    requires SafeSoFar(s, x, over) && h in FreeIn(x, s.jobs[order[i]].pool)
    requires rn in x.runners && ServesPool(x.runners[rn], s.jobs[order[i]].pool) && !AtCapacity(x, x.runners[rn])
    ensures h in x.reservations && !Busy(x, x.reservations[h].bmhRef)
  {
    var k := order[i];
    NextPending(s, x, order, i);
    StartedBound(s, x, order, i, s.jobs[k].pool);
    FreeShrinks(s, x, order, i, s.jobs[k].pool);
    BaseRunners(s, x, order, i);
    hide Base, QueueOrder, Busy, ActiveIn, MayOverflow, Exclusive, MayOverflowTwice, Balanced, Spare;
    assert k in PendingKeys(s);
    assert FreeForPool(s, k, rn, h);
  }

  /** In a safe state a turn that overflows is the first to do so, and the host is idle. */
  lemma SpareIsIdle(s: State, x: State, order: seq<string>, i: nat, rn: string, bmh: string, over: Option<string>)
    requires PassSafe(s) && QueueOrder(s, order) && Base(s, x, order, i) && i < |order| && order[i] in s.jobs
    requires SafeSoFar(s, x, over) && Spare(s, bmh) && FreeIn(x, s.jobs[order[i]].pool) == {}
    requires rn in x.runners && ServesPool(x.runners[rn], s.jobs[order[i]].pool) && !AtCapacity(x, x.runners[rn])
             && x.runners[rn].allowOverflow
    ensures over == None && !Busy(x, bmh) && MayOverflow(s, s.jobs[order[i]].pool, rn, 1)
  {
    OneMoreOverflow(s, x, order, i, rn, over);
    hide Base, QueueOrder, Busy, ActiveIn, MayOverflow, MayOverflowTwice, Exclusive, Balanced, Spare, FreeForPool;
    var pool := s.jobs[order[i]].pool;
    if over == Some(pool) {
      OnePoolTwice(s, pool, rn);
    } else if over.Some? {
      var rm :| MayOverflow(s, over.value, rm, 1);
      TwoPoolsOnce(s, pool, rn, over.value, rm);
    }
  }

  lemma OnePoolTwice(s: State, pool: string, rn: string)
    requires MayOverflow(s, pool, rn, 2)
    ensures MayOverflowTwice(s)
  {
  }

  lemma TwoPoolsOnce(s: State, p: string, rn: string, q: string, rm: string)
    requires p != q && MayOverflow(s, p, rn, 1) && MayOverflow(s, q, rm, 1)
    ensures MayOverflowTwice(s)
  {
  }

  /** One turn of a safe pass. */
  lemma SafeStep(s: State, x: State, order: seq<string>, i: nat, over: Option<string>, y: State)
    returns (over': Option<string>)
    requires PassSafe(s) && QueueOrder(s, order) && Base(s, x, order, i) && OnePerHost(s) && "" !in s.jobs
    requires i < |order| && order[i] in x.jobs && ScheduleOne(x, order[i], y) && SafeSoFar(s, x, over)
    ensures Base(s, y, order, i + 1) && SafeSoFar(s, y, over')
  {
    hide *;
    NextPending(s, x, order, i);
    var k := order[i];
    var rn, bmh, ip := TurnOffers(x, k, y);
    if y == x {
      BaseSkip(s, x, order, i);
      over' := over;
    } else {
      OfferFacts(x, k, rn, bmh);
      BaseAssign(s, x, order, i, rn, bmh, ip);
      BaseOnePerHost(s, x, order, i);
      if FreeIn(x, x.jobs[k].pool) != {} {
        var h := OfferFree(x, k, rn, bmh);
        FreeIsIdle(s, x, order, i, rn, h, over);
        SafeTake(s, x, order, i, rn, h, ip, over);
        over' := over;
      } else {
        OfferSpare(x, k, rn, bmh);
        SameSpare(s, x, order, i, bmh);
        SpareIsIdle(s, x, order, i, rn, bmh, over);
        SafeOverflow(s, x, order, i, rn, bmh, ip);
        over' := Some(x.jobs[k].pool);
      }
    }
  }

  /** Taking a free host. */
  lemma SafeTake(s: State, x: State, order: seq<string>, i: nat, rn: string, h: string, ip: string,
    over: Option<string>)
    requires QueueOrder(s, order) && Base(s, x, order, i) && i < |order| && OnePerHost(x) && "" !in s.jobs
    requires order[i] in x.jobs && rn in x.runners && SafeSoFar(s, x, over)
    requires h in x.reservations && h in FreeIn(x, x.jobs[order[i]].pool) && !Busy(x, x.reservations[h].bmhRef)
    ensures SafeSoFar(s, Assign(x, order[i], rn, x.reservations[h].bmhRef, ip), over)
  {
    hide *;
    var k, bmh := order[i], x.reservations[h].bmhRef;
    var y := Assign(x, k, rn, bmh, ip);
    NextPending(s, x, order, i);
    SafeFacts(s, x, over);
    AssignShape(x, k, rn, bmh, ip);
    AssignExclusive(x, k, rn, bmh, ip);
    forall pool: string
      ensures Balanced(s, y, pool, over == Some(pool)) && FreeIn(y, pool) == FreeIn(x, pool) - {h}
    {
      AssignActive(x, k, rn, bmh, ip, pool);
      AssignTakes(x, k, rn, h, ip, pool);
      FreeInPool(x, h, x.jobs[k].pool, pool);
      BalancedTake(s, x, y, pool, k, h, over == Some(pool), x.jobs[k].pool == pool);
    }
    forall b: string
      ensures Busy(y, b) <==> Busy(x, b) || b == bmh
    {
      AssignBusy(x, k, rn, bmh, ip, b);
    }
    BaseRunners(s, x, order, i);
    ReservedNotSpare(s, h);
    SafeTaken(s, x, y, h, bmh, over);
  }

  lemma ReservedNotSpare(s: State, h: string)
    requires h in s.reservations
    ensures !Spare(s, s.reservations[h].bmhRef)
  {
  }

  lemma SafeFacts(s: State, x: State, over: Option<string>)
    requires SafeSoFar(s, x, over)
    ensures Exclusive(x) && forall pool: string :: Balanced(s, x, pool, over == Some(pool))
    ensures over == None ==> forall pool: string :: Balanced(s, x, pool, false)
  {
    hide Exclusive, Balanced, Busy, FreeIn, Spare, MayOverflow;
    forall pool: string | over == None
      ensures Balanced(s, x, pool, false)
    {
      assert Balanced(s, x, pool, over == Some(pool));
    }
  }

  /** A start from a free host moves one from the free hosts to the active jobs. */
  lemma BalancedTake(s: State, x: State, y: State, pool: string, k: string, h: string, once: bool, own: bool)
    requires Balanced(s, x, pool, once) && k !in ActiveIn(x, pool)
    requires ActiveIn(y, pool) == ActiveIn(x, pool) + (if own then {k} else {})
    requires FreeIn(y, pool) == FreeIn(x, pool) - {h} && (h in FreeIn(x, pool) <==> own)
    ensures Balanced(s, y, pool, once)
  {
    hide ActiveIn, FreeIn;
  }

  /** A start on an unreserved host is one active job more. */
  lemma BalancedOverflow(s: State, x: State, y: State, pool: string, k: string, own: bool)
    requires Balanced(s, x, pool, false) && k !in ActiveIn(x, pool) && FreeIn(y, pool) == FreeIn(x, pool)
    requires ActiveIn(y, pool) == ActiveIn(x, pool) + (if own then {k} else {})
    ensures Balanced(s, y, pool, own)
  {
    hide ActiveIn, FreeIn;
  }

  lemma SafeTaken(s: State, x: State, y: State, h: string, bmh: string, over: Option<string>)
    requires SafeSoFar(s, x, over) && Exclusive(y) && OnePerHost(x) && h in x.reservations
             && x.reservations[h].bmhRef == bmh
    requires y.reservations.Keys == x.reservations.Keys
             && forall g | g in x.reservations :: y.reservations[g].bmhRef == x.reservations[g].bmhRef
    requires forall pool: string :: Balanced(s, y, pool, over == Some(pool)) && FreeIn(y, pool) == FreeIn(x, pool) - {h}
    requires forall b: string :: Busy(y, b) <==> Busy(x, b) || b == bmh
    requires forall b: string :: Spare(s, b) ==> b != bmh
    ensures SafeSoFar(s, y, over)
  {
    hide Busy, Exclusive, Spare, Balanced, MayOverflow;
  }

  /** Placing a job on an unreserved host, for the first time. */
  lemma SafeOverflow(s: State, x: State, order: seq<string>, i: nat, rn: string, bmh: string, ip: string)
    requires QueueOrder(s, order) && Base(s, x, order, i) && i < |order| && order[i] in x.jobs && rn in x.runners
    requires SafeSoFar(s, x, None) && !Reserved(x, bmh) && !Busy(x, bmh)
    requires var pool := x.jobs[order[i]].pool; FreeIn(x, pool) == {} && MayOverflow(s, pool, rn, 1)
    ensures SafeSoFar(s, Assign(x, order[i], rn, bmh, ip), Some(x.jobs[order[i]].pool))
  {
    hide *;
    var k, over := order[i], x.jobs[order[i]].pool;
    var y := Assign(x, k, rn, bmh, ip);
    NextPending(s, x, order, i);
    SafeFacts(s, x, None);
    AssignShape(x, k, rn, bmh, ip);
    AssignExclusive(x, k, rn, bmh, ip);
    forall pool: string
      ensures Balanced(s, y, pool, Some(over) == Some(pool)) && FreeIn(y, pool) == FreeIn(x, pool)
    {
      AssignActive(x, k, rn, bmh, ip, pool);
      AssignSpare(x, k, rn, bmh, ip, pool);
      BalancedOverflow(s, x, y, pool, k, over == pool);
    }
    forall b: string
      ensures Busy(y, b) <==> Busy(x, b) || b == bmh
    {
      AssignBusy(x, k, rn, bmh, ip, b);
    }
    SafeOverflowed(s, x, y, over, rn, bmh);
  }

  lemma SafeOverflowed(s: State, x: State, y: State, over: string, rn: string, bmh: string)
    requires SafeSoFar(s, x, None) && Exclusive(y) && !Reserved(x, bmh)
    requires y.reservations.Keys == x.reservations.Keys
             && forall g | g in x.reservations :: y.reservations[g].bmhRef == x.reservations[g].bmhRef
    requires forall pool: string ::
               Balanced(s, y, pool, Some(over) == Some(pool)) && FreeIn(y, pool) == FreeIn(x, pool)
    requires forall b: string :: Busy(y, b) <==> Busy(x, b) || b == bmh
    requires FreeIn(x, over) == {} && MayOverflow(s, over, rn, 1)
    ensures SafeSoFar(s, y, Some(over))
  {
    hide Busy, Exclusive, Spare, Balanced, MayOverflow;
  }

  lemma {:induction false} SafeTrace(s: State, order: seq<string>, states: seq<State>,
    i: nat) returns (over: Option<string>)
    requires PassSafe(s) && Exclusive(s) && OnePerHost(s) && "" !in s.jobs
    requires QueueOrder(s, order) && PassTrace(order, states) && states[0] == s && i <= |order|
    ensures Base(s, states[i], order, i) && SafeSoFar(s, states[i], over)
  {
    hide PassSafe, QueueOrder, Base, SafeSoFar, Exclusive, OnePerHost, ScheduleOne;
    if i == 0 {
      BaseStart(s, order);
      SafeStart(s);
      over := None;
    } else {
      var before := SafeTrace(s, order, states, i - 1);
      over := SafeStep(s, states[i - 1], order, i - 1, before, states[i]);
    }
  }

  /** A pass from a safe state leaves hosts exclusive. */
  lemma SafePass(s: State, t: State)
    requires PassSafe(s) && Exclusive(s) && OnePerHost(s) && "" !in s.jobs && SchedulingPass(s, t)
    ensures Exclusive(t)
  {
    hide PassSafe, QueueOrder, Base, Exclusive, OnePerHost, ScheduleOne;
    var order, states :| QueueOrder(s, order) && PassTrace(order, states) && states[0] == s && states[|order|] == t;
    var over := SafeTrace(s, order, states, |order|);
  }
}
