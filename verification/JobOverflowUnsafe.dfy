/** From an unsafe state some pass puts two jobs on one host: the passes, turn by turn. */
module JobOverflowUnsafe {
  import opened JobState
  import opened JobPass
  import opened JobOverflow
  import opened JobProvider
  import opened JobOverflowTurns

  lemma {:induction false} QueueOf(jobs: map<string, Job>, ks: set<string>) returns (order: seq<string>)
    requires ks <= jobs.Keys
    ensures InOrder(jobs, order) && Distinct(order) && forall k :: k in order <==> k in ks
    decreases |ks|
  {
    hide NotAfter;
    if ks == {} {
      order := [];
    } else {
      var k :| k in ks;
      var rest := QueueOf(jobs, ks - {k});
      var i := PlaceInQueue(jobs, rest, k, 0);
      InsertedInOrder(jobs, rest, k, i);
      order := rest[..i] + [k] + rest[i..];
    }
  }

  /** Where a job goes in a sorted queue, searched from index i on. */
  lemma {:induction false} PlaceInQueue(jobs: map<string, Job>, queue: seq<string>, k: string, i: nat) returns (m: nat)
    requires InOrder(jobs, queue) && k in jobs && i <= |queue|
    requires forall j | 0 <= j < i :: NotAfter(jobs[queue[j]], jobs[k])
    ensures m <= |queue| && forall j | 0 <= j < m :: NotAfter(jobs[queue[j]], jobs[k])
    ensures forall j | m <= j < |queue| :: NotAfter(jobs[k], jobs[queue[j]])
    decreases |queue| - i
  {
    hide NotAfter;
    if i < |queue| && NotAfter(jobs[queue[i]], jobs[k]) {
      m := PlaceInQueue(jobs, queue, k, i + 1);
    } else {
      m := i;
      forall j | m <= j < |queue|
        ensures NotAfter(jobs[k], jobs[queue[j]])
      {
        NotAfterTotal(jobs[queue[m]], jobs[k]);
        if j > m {
          NotAfterTransitive(jobs[k], jobs[queue[m]], jobs[queue[j]]);
        }
      }
    }
  }

  lemma QueueExists(s: State) returns (order: seq<string>)
    ensures QueueOrder(s, order)
  {
    hide NotAfter;
    order := QueueOf(s.jobs, PendingKeys(s));
  }

  /** Every turn can be taken. */
  lemma TurnExists(x: State, k: string) returns (y: State)
    requires k in x.jobs
    ensures ScheduleOne(x, k, y)
  {
    hide Available, AtCapacity, Assign, HostAddress;
    y := x;
    if rn :| rn in x.runners && ServesPool(x.runners[rn], x.jobs[k].pool) {
      var r := x.runners[rn];
      if !AtCapacity(x, r) {
        if bmh :| Available(x, x.jobs[k].pool, r.allowOverflow, bmh) {
          if bmh != "" {
            var ip := OfferTaken(x, k, rn, bmh);
            y := Assign(x, k, rn, bmh, ip);
          } else {
            var ip := SomeAddress(x, bmh, x.jobs[k].hostIP);
            assert ScheduleWith(x, k, rn, x);
          }
        } else {
          assert ScheduleWith(x, k, rn, x);
        }
      } else {
        assert ScheduleWith(x, k, rn, x);
      }
    }
  }

  lemma SomeAddress(x: State, bmh: string, before: string) returns (ip: string)
    ensures HostAddress(x, bmh, before, ip)
  {
    ip := before;
    if b :| b in x.hosts && x.hosts[b].name == bmh {
      ip := x.hosts[b].ip;
    }
  }

  /** The start of a pass, turn by turn. */
  ghost predicate Prefix(s: State, order: seq<string>, states: seq<State>, n: nat) {
    && n <= |order| && |states| == n + 1 && states[0] == s
    && forall i | 0 <= i < n :: order[i] in states[i].jobs && ScheduleOne(states[i], order[i], states[i + 1])
  }

  lemma PrefixNext(s: State, order: seq<string>, states: seq<State>, n: nat, y: State)
    requires Prefix(s, order, states, n) && n < |order| && order[n] in states[n].jobs
             && ScheduleOne(states[n], order[n], y)
    ensures Prefix(s, order, states + [y], n + 1)
  {
    hide ScheduleOne;
    var more := states + [y];
    forall i | 0 <= i < n + 1
      ensures order[i] in more[i].jobs && ScheduleOne(more[i], order[i], more[i + 1])
    {
      assert more[i] == states[i];
      assert i < n ==> more[i + 1] == states[i + 1];
    }
  }

  lemma PrefixPass(s: State, order: seq<string>, states: seq<State>)
    requires QueueOrder(s, order) && Prefix(s, order, states, |order|)
    ensures SchedulingPass(s, states[|order|])
  {
    hide ScheduleOne, QueueOrder;
    assert PassTrace(order, states);
  }

  lemma AnyTurn(s: State, x: State, order: seq<string>, i: nat, y: State)
    requires QueueOrder(s, order) && Base(s, x, order, i) && i < |order| && "" !in s.jobs
    requires order[i] in x.jobs && ScheduleOne(x, order[i], y)
    ensures Base(s, y, order, i + 1)
  {
    hide *;
    var rn, bmh, ip := TurnOffers(x, order[i], y);
    if y == x {
      BaseSkip(s, x, order, i);
    } else {
      OfferFacts(x, order[i], rn, bmh);
      BaseAssign(s, x, order, i, rn, bmh, ip);
    }
  }

  /** A turn leaves the other pools' active jobs and free hosts alone. */
  lemma OtherPools(x: State, k: string, y: State, pool: string)
    requires k in x.jobs && k != "" && x.jobs[k].phase == Pending && x.jobs[k].pool != pool && OnePerHost(x)
    requires ScheduleOne(x, k, y)
    ensures ActiveIn(y, pool) == ActiveIn(x, pool) && FreeIn(y, pool) == FreeIn(x, pool)
  {
    hide *;
    var rn, bmh, ip := TurnOffers(x, k, y);
    if y != x {
      OfferFacts(x, k, rn, bmh);
      AssignActive(x, k, rn, bmh, ip, pool);
      if FreeIn(x, x.jobs[k].pool) != {} {
        var h := OfferFree(x, k, rn, bmh);
        AssignTakes(x, k, rn, h, ip, pool);
        FreeInPool(x, h, x.jobs[k].pool, pool);
      } else {
        OfferSpare(x, k, rn, bmh);
        AssignSpare(x, k, rn, bmh, ip, pool);
      }
    }
  }

  /** Two jobs on one host stay there for the rest of the pass. */
  lemma StaysShared(x: State, k: string, y: State)
    requires k in x.jobs && x.jobs[k].phase == Pending && ScheduleOne(x, k, y) && !Exclusive(x)
    ensures !Exclusive(y)
  {
    hide ScheduleOne, Offered;
    var rn, bmh, ip := TurnOffers(x, k, y);
    if y != x {
      OfferRunner(x, k, rn, bmh);
      var a, b :| a in x.jobs && b in x.jobs && x.jobs[a].IsActive() && x.jobs[b].IsActive()
        && x.jobs[a].bmhRef == x.jobs[b].bmhRef && a != b;
      assert y.jobs[a] == x.jobs[a] && y.jobs[b] == x.jobs[b];
    }
  }

  /** The jobs of a pool among the first i of the queue. */
  function Turned(s: State, order: seq<string>, i: nat, pool: string): set<string>
    requires i <= |order|
  {
    set k | k in order[..i] && k in s.jobs && s.jobs[k].pool == pool
  }

  lemma TurnedNext(s: State, order: seq<string>, i: nat, pool: string)
    requires i < |order| && order[i] in s.jobs && order[i] !in order[..i]
    ensures Turned(s, order, i + 1, pool)
         == Turned(s, order, i, pool) + (if s.jobs[order[i]].pool == pool then {order[i]} else {})
    ensures order[i] !in Turned(s, order, i, pool)
  {
    assert order[..i + 1] == order[..i] + [order[i]];
  }

  lemma TurnedAll(s: State, order: seq<string>, pool: string)
    requires QueueOrder(s, order)
    ensures Turned(s, order, |order|, pool) == PendingIn(s, pool)
  {
    hide NotAfter;
    assert order[..|order|] == order;
  }

  // A free host that is busy: the first job of its pool takes it.

  ghost predicate Waits(s: State, x: State, order: seq<string>, i: nat, pool: string, h: string) {
    && i <= |order| && h in x.reservations
    && (Exclusive(x) ==>
          && Turned(s, order, i, pool) == {} && ActiveIn(x, pool) == ActiveIn(s, pool)
             && FreeIn(x, pool) == FreeIn(s, pool)
          && Busy(x, x.reservations[h].bmhRef))
  }

  lemma WaitsTurn(s: State, x: State, order: seq<string>, i: nat, k: string, rn: string, h: string) returns (y: State)
    requires QueueOrder(s, order) && Base(s, x, order, i) && i < |order| && OnePerHost(x) && "" !in s.jobs
    requires FreeForPool(s, k, rn, h) && Waits(s, x, order, i, s.jobs[k].pool, h)
    requires s.reservations[h].bmhRef != ""
    ensures order[i] in x.jobs && ScheduleOne(x, order[i], y)
    ensures Base(s, y, order, i + 1) && Waits(s, y, order, i + 1, s.jobs[k].pool, h)
  {
    hide *;
    FreeForPoolFacts(s, k, rn, h);
    NextPending(s, x, order, i);
    BaseRunners(s, x, order, i);
    var pool, j := s.jobs[k].pool, order[i];
    TurnedNext(s, order, i, pool);
    WaitsFacts(s, x, order, i, pool, h);
    y := TurnExists(x, j);
    if !Exclusive(x) {
      StaysShared(x, j, y);
    } else if s.jobs[j].pool != pool {
      OtherPools(x, j, y, pool);
      StaysBusy(x, j, y, x.reservations[h].bmhRef);
    } else {
      var bmh := x.reservations[h].bmhRef;
      FreeOffered(s, x, j, rn, h);
      var ip := OfferTaken(x, j, rn, bmh);
      y := Assign(x, j, rn, bmh, ip);
      AssignExclusive(x, j, rn, bmh, ip);
    }
    AnyTurn(s, x, order, i, y);
    BaseRunners(s, y, order, i + 1);
    WaitsBy(s, y, order, i + 1, pool, h);
  }

  lemma FreeForPoolFacts(s: State, k: string, rn: string, h: string)
    requires FreeForPool(s, k, rn, h)
    ensures k in s.jobs && k in PendingIn(s, s.jobs[k].pool) && rn in s.runners && h in s.reservations
    ensures ServesPool(s.runners[rn], s.jobs[k].pool) && !AtCapacity(s, s.runners[rn]) && h in FreeIn(s, s.jobs[k].pool)
  {
  }

  lemma WaitsFacts(s: State, x: State, order: seq<string>, i: nat, pool: string, h: string)
    requires Waits(s, x, order, i, pool, h)
    ensures h in x.reservations && i <= |order|
    ensures Exclusive(x) ==> Turned(s, order, i, pool) == {} && ActiveIn(x, pool) == ActiveIn(s, pool)
                             && FreeIn(x, pool) == FreeIn(s, pool) && Busy(x, x.reservations[h].bmhRef)
  {
    hide Exclusive, Turned, ActiveIn, FreeIn, Busy;
  }

  lemma WaitsBy(s: State, x: State, order: seq<string>, i: nat, pool: string, h: string)
    requires h in x.reservations && i <= |order|
    requires Exclusive(x) ==> Turned(s, order, i, pool) == {} && ActiveIn(x, pool) == ActiveIn(s, pool)
                              && FreeIn(x, pool) == FreeIn(s, pool) && Busy(x, x.reservations[h].bmhRef)
    ensures Waits(s, x, order, i, pool, h)
  {
    hide Exclusive, Turned, ActiveIn, FreeIn, Busy;
  }

  lemma FreeOffered(s: State, x: State, j: string, rn: string, h: string)
    requires j in x.jobs && h in x.reservations && x.reservations[h].bmhRef != "" && rn in x.runners
    requires x.runners == s.runners && ServesPool(s.runners[rn], x.jobs[j].pool) && !AtCapacity(s, s.runners[rn])
    requires ActiveIn(x, x.jobs[j].pool) == ActiveIn(s, x.jobs[j].pool) && h in FreeIn(x, x.jobs[j].pool)
    ensures Offered(x, j, rn, x.reservations[h].bmhRef)
  {
    hide ActiveIn;
  }

  lemma StaysBusy(x: State, k: string, y: State, b: string)
    requires k in x.jobs && x.jobs[k].phase == Pending && ScheduleOne(x, k, y) && Busy(x, b)
    ensures Busy(y, b)
  {
    hide *;
    var rn, bmh, ip := TurnOffers(x, k, y);
    if y != x {
      OfferRunner(x, k, rn, bmh);
      AssignBusy(x, k, rn, bmh, ip, b);
    }
  }

  lemma {:induction false} WaitsTrace(s: State, order: seq<string>, n: nat, k: string, rn: string, h: string)
    returns (states: seq<State>)
    requires QueueOrder(s, order) && n <= |order| && OnePerHost(s) && "" !in s.jobs
    requires FreeForPool(s, k, rn, h) && s.reservations[h].bmhRef != "" && Busy(s, s.reservations[h].bmhRef)
    ensures Prefix(s, order, states, n) && Base(s, states[n], order, n)
            && Waits(s, states[n], order, n, s.jobs[k].pool, h)
  {
    hide QueueOrder, Base, Waits, OnePerHost, Busy, ScheduleOne, FreeForPool;
    FreeForPoolFacts(s, k, rn, h);
    if n == 0 {
      states := [s];
      BaseStart(s, order);
      TurnedNone(s, order, s.jobs[k].pool);
      WaitsBy(s, s, order, 0, s.jobs[k].pool, h);
    } else {
      var before := WaitsTrace(s, order, n - 1, k, rn, h);
      BaseOnePerHost(s, before[n - 1], order, n - 1);
      var y := WaitsTurn(s, before[n - 1], order, n - 1, k, rn, h);
      PrefixNext(s, order, before, n - 1, y);
      states := before + [y];
    }
  }

  lemma TurnedNone(s: State, order: seq<string>, pool: string)
    ensures Turned(s, order, 0, pool) == {}
  {
  }

  lemma BusyFreeUnsafe(s: State, k: string, rn: string, h: string) returns (t: State)
    requires OnePerHost(s) && "" !in s.jobs && FreeForPool(s, k, rn, h)
    requires s.reservations[h].bmhRef != "" && Busy(s, s.reservations[h].bmhRef)
    ensures SchedulingPass(s, t) && !Exclusive(t)
  {
    hide *;
    FreeForPoolFacts(s, k, rn, h);
    var order := QueueExists(s);
    var states := WaitsTrace(s, order, |order|, k, rn, h);
    PrefixLength(s, order, states, |order|);
    PrefixPass(s, order, states);
    t := states[|order|];
    TurnedAll(s, order, s.jobs[k].pool);
    WaitsFacts(s, t, order, |order|, s.jobs[k].pool, h);
  }

  lemma PrefixLength(s: State, order: seq<string>, states: seq<State>, n: nat)
    requires Prefix(s, order, states, n)
    ensures n <= |order| && |states| == n + 1
  {
  }

  // Overflows onto one host: the plan says for a pool which runner is found, and how many jobs shall overflow.

  datatype Plan = Plan(rn: string, n: nat)

  /** The pool's jobs that started and are on the host. */
  function OnHost(s: State, x: State, pool: string, bmh: string): set<string> {
    set k | k in PendingIn(s, pool) && k in x.jobs && x.jobs[k].IsActive() && x.jobs[k].bmhRef == bmh
  }

  ghost predicate Planned(s: State, plans: map<string, Plan>) {
    forall pool | pool in plans :: MayOverflow(s, pool, plans[pool].rn, plans[pool].n)
  }

  /** After c of its jobs had their turn: while the plan is not used up all have started, the free hosts first. */
  predicate OnPlan(s: State, x: State, pool: string, c: nat, n: nat, bmh: string) {
    var a, f := |ActiveIn(s, pool)|, |FreeIn(s, pool)|;
    && (c <= f + n ==> |ActiveIn(x, pool)| == a + c && |FreeIn(x, pool)| == if c <= f then f - c else 0)
    && |OnHost(s, x, pool, bmh)| >= (if c <= f + n then c else f + n) - f
  }

  ghost predicate AllOnPlan(s: State, x: State, order: seq<string>, i: nat, plans: map<string, Plan>, bmh: string) {
    i <= |order| && forall pool | pool in plans :: OnPlan(s, x, pool, |Turned(s, order, i, pool)|, plans[pool].n, bmh)
  }

  /** A waiting job is on no host; others stay where they are. */
  lemma OnHostGrows(s: State, x: State, k: string, y: State, pool: string, bmh: string)
    requires k in x.jobs && x.jobs[k].phase == Pending && ScheduleOne(x, k, y)
    ensures OnHost(s, x, pool, bmh) <= OnHost(s, y, pool, bmh) && k !in OnHost(s, x, pool, bmh)
    ensures |OnHost(s, x, pool, bmh)| <= |OnHost(s, y, pool, bmh)|
  {
    hide ScheduleOne, PendingIn, Job.IsActive;
    TurnKeeps(x, k, y);
    PendingIdle(x.jobs[k]);
    var a, b := OnHost(s, x, pool, bmh), OnHost(s, y, pool, bmh);
    assert b == a + (b - a);
  }

  lemma PendingIdle(j: Job)
    requires j.phase == Pending
    ensures !j.IsActive()
  {
  }

  lemma TurnKeeps(x: State, k: string, y: State)
    requires k in x.jobs && ScheduleOne(x, k, y)
    ensures y.jobs.Keys == x.jobs.Keys && forall j | j in x.jobs && j != k :: y.jobs[j] == x.jobs[j]
  {
    hide ScheduleOne, Offered;
    var rn, bmh, ip := TurnOffers(x, k, y);
    if y != x {
      OfferRunner(x, k, rn, bmh);
    }
  }

  /** The turn of a pool's job while its plan is not used up. */
  lemma PlannedTurn(s: State, x: State, k: string, pool: string, c: nat, plan: Plan, bmh: string) returns (y: State)
    requires OnPlan(s, x, pool, c, plan.n, bmh) && c < |FreeIn(s, pool)| + plan.n
    requires MayOverflow(s, pool, plan.rn, plan.n) && x.runners == s.runners && OnePerHost(x) && Spare(x, bmh)
    requires k in PendingIn(s, pool) && k in x.jobs && k != "" && x.jobs[k].phase == Pending && x.jobs[k].pool == pool
    ensures ScheduleOne(x, k, y) && OnPlan(s, y, pool, c + 1, plan.n, bmh)
  {
    hide *;
    PlanFacts(s, x, pool, c, plan, bmh);
    if c < |FreeIn(s, pool)| {
      var h: string :| h in FreeIn(x, pool);
      FreeFacts(x, pool, h);
      FreeOffers(x, k, plan.rn, h);
      var ip := OfferTaken(x, k, plan.rn, x.reservations[h].bmhRef);
      y := Assign(x, k, plan.rn, x.reservations[h].bmhRef, ip);
      AssignActive(x, k, plan.rn, x.reservations[h].bmhRef, ip, pool);
      AssignTakes(x, k, plan.rn, h, ip, pool);
      OnHostGrows(s, x, k, y, pool, bmh);
      PlanTake(s, x, y, k, h, pool, c, plan.n, bmh);
    } else {
      SpareOffers(x, k, plan.rn, bmh);
      var ip := OfferTaken(x, k, plan.rn, bmh);
      y := Assign(x, k, plan.rn, bmh, ip);
      AssignActive(x, k, plan.rn, bmh, ip, pool);
      SpareFacts(x, bmh);
      AssignSpare(x, k, plan.rn, bmh, ip, pool);
      OnHostGrows(s, x, k, y, pool, bmh);
      AssignedOn(s, x, k, plan.rn, bmh, ip, pool);
      PlanOverflow(s, x, y, k, pool, c, plan.n, bmh);
    }
  }

  lemma PlanFacts(s: State, x: State, pool: string, c: nat, plan: Plan, bmh: string)
    requires OnPlan(s, x, pool, c, plan.n, bmh) && c < |FreeIn(s, pool)| + plan.n
    requires MayOverflow(s, pool, plan.rn, plan.n) && x.runners == s.runners
    ensures plan.rn in x.runners && ServesPool(x.runners[plan.rn], pool) && x.runners[plan.rn].allowOverflow
    ensures !AtCapacity(x, x.runners[plan.rn])
    ensures c < |FreeIn(s, pool)| ==> FreeIn(x, pool) != {}
    ensures c >= |FreeIn(s, pool)| ==> FreeIn(x, pool) == {}
  {
    hide ActiveIn, FreeIn, OnHost;
  }

  lemma FreeFacts(x: State, pool: string, h: string)
    requires h in FreeIn(x, pool) && OnePerHost(x)
    ensures h in x.reservations && x.reservations[h].bmhRef != ""
  {
  }

  lemma FreeOffers(x: State, k: string, rn: string, h: string)
    requires k in x.jobs && rn in x.runners && ServesPool(x.runners[rn], x.jobs[k].pool)
             && !AtCapacity(x, x.runners[rn])
    requires h in FreeIn(x, x.jobs[k].pool) && h in x.reservations && x.reservations[h].bmhRef != ""
    ensures Offered(x, k, rn, x.reservations[h].bmhRef)
  {
    hide ActiveIn;
  }

  lemma SpareOffers(x: State, k: string, rn: string, bmh: string)
    requires k in x.jobs && rn in x.runners && ServesPool(x.runners[rn], x.jobs[k].pool)
             && !AtCapacity(x, x.runners[rn])
    requires x.runners[rn].allowOverflow && FreeIn(x, x.jobs[k].pool) == {} && Spare(x, bmh)
    ensures Offered(x, k, rn, bmh)
  {
    hide ActiveIn, Reserved;
  }

  lemma SpareFacts(x: State, bmh: string)
    requires Spare(x, bmh)
    ensures !Reserved(x, bmh)
  {
  }

  lemma AssignedOn(s: State, x: State, k: string, rn: string, bmh: string, ip: string, pool: string)
    requires k in PendingIn(s, pool) && k in x.jobs && rn in x.runners
    ensures k in OnHost(s, Assign(x, k, rn, bmh, ip), pool, bmh)
  {
  }

  lemma PlanTake(s: State, x: State, y: State, k: string, h: string, pool: string, c: nat, n: nat, bmh: string)
    requires OnPlan(s, x, pool, c, n, bmh) && c < |FreeIn(s, pool)| && h in FreeIn(x, pool) && k !in ActiveIn(x, pool)
    requires ActiveIn(y, pool) == ActiveIn(x, pool) + {k} && FreeIn(y, pool) == FreeIn(x, pool) - {h}
    ensures OnPlan(s, y, pool, c + 1, n, bmh)
  {
    hide ActiveIn, FreeIn, OnHost;
  }

  lemma PlanOverflow(s: State, x: State, y: State, k: string, pool: string, c: nat, n: nat, bmh: string)
    requires OnPlan(s, x, pool, c, n, bmh) && |FreeIn(s, pool)| <= c < |FreeIn(s, pool)| + n && k !in ActiveIn(x, pool)
    requires ActiveIn(y, pool) == ActiveIn(x, pool) + {k} && FreeIn(y, pool) == FreeIn(x, pool)
    requires OnHost(s, x, pool, bmh) <= OnHost(s, y, pool, bmh)
    requires k !in OnHost(s, x, pool, bmh) && k in OnHost(s, y, pool, bmh)
    ensures OnPlan(s, y, pool, c + 1, n, bmh)
  {
    hide ActiveIn, FreeIn, OnHost;
    Larger(OnHost(s, x, pool, bmh), OnHost(s, y, pool, bmh), k);
  }

  lemma Larger(a: set<string>, b: set<string>, k: string)
    requires a <= b && k !in a && k in b
    ensures |b| > |a|
  {
    var rest := b - a;
    assert k in rest;
    assert b == a + rest;
  }

  lemma PlanUsedUp(s: State, x: State, y: State, pool: string, c: nat, n: nat, bmh: string)
    requires OnPlan(s, x, pool, c, n, bmh) && c >= |FreeIn(s, pool)| + n
    requires |OnHost(s, x, pool, bmh)| <= |OnHost(s, y, pool, bmh)|
    ensures OnPlan(s, y, pool, c + 1, n, bmh)
  {
    hide ActiveIn, FreeIn, OnHost;
  }

  lemma PlanElsewhere(s: State, x: State, y: State, pool: string, c: nat, n: nat, bmh: string)
    requires OnPlan(s, x, pool, c, n, bmh) && ActiveIn(y, pool) == ActiveIn(x, pool)
             && FreeIn(y, pool) == FreeIn(x, pool)
    requires |OnHost(s, x, pool, bmh)| <= |OnHost(s, y, pool, bmh)|
    ensures OnPlan(s, y, pool, c, n, bmh)
  {
    hide ActiveIn, FreeIn, OnHost;
  }

  lemma PlanTurn(s: State, x: State, order: seq<string>, i: nat, plans: map<string, Plan>,
    bmh: string) returns (y: State)
    requires QueueOrder(s, order) && Base(s, x, order, i) && i < |order| && OnePerHost(x) && "" !in s.jobs
    requires Planned(s, plans) && AllOnPlan(s, x, order, i, plans, bmh) && Spare(s, bmh)
    ensures order[i] in x.jobs && ScheduleOne(x, order[i], y)
    ensures Base(s, y, order, i + 1) && AllOnPlan(s, y, order, i + 1, plans, bmh)
  {
    hide *;
    NextPending(s, x, order, i);
    BaseRunners(s, x, order, i);
    SameSpare(s, x, order, i, bmh);
    var k := order[i];
    var own, c := s.jobs[k].pool, |Turned(s, order, i, s.jobs[k].pool)|;
    if own in plans && c < |FreeIn(s, own)| + plans[own].n {
      PlansAt(s, x, order, i, plans, bmh, own);
      PendingHere(s, k);
      y := PlannedTurn(s, x, k, own, c, plans[own], bmh);
    } else {
      y := TurnExists(x, k);
    }
    AnyTurn(s, x, order, i, y);
    forall pool | pool in plans
      ensures OnPlan(s, y, pool, |Turned(s, order, i + 1, pool)|, plans[pool].n, bmh)
    {
      PlansAt(s, x, order, i, plans, bmh, pool);
      TurnedNext(s, order, i, pool);
      OnHostGrows(s, x, k, y, pool, bmh);
      if pool != own {
        OtherPools(x, k, y, pool);
        PlanElsewhere(s, x, y, pool, |Turned(s, order, i, pool)|, plans[pool].n, bmh);
      } else if c >= |FreeIn(s, own)| + plans[own].n {
        PlanUsedUp(s, x, y, own, c, plans[own].n, bmh);
      }
    }
    PlansBy(s, y, order, i + 1, plans, bmh);
  }

  lemma PendingHere(s: State, k: string)
    requires k in s.jobs && s.jobs[k].phase == Pending
    ensures k in PendingIn(s, s.jobs[k].pool)
  {
  }

  lemma PlansAt(s: State, x: State, order: seq<string>, i: nat, plans: map<string, Plan>, bmh: string, pool: string)
    requires Planned(s, plans) && AllOnPlan(s, x, order, i, plans, bmh) && pool in plans
    ensures i <= |order| && MayOverflow(s, pool, plans[pool].rn, plans[pool].n)
    ensures OnPlan(s, x, pool, |Turned(s, order, i, pool)|, plans[pool].n, bmh)
  {
    hide MayOverflow, OnPlan, Turned;
  }

  lemma PlansBy(s: State, x: State, order: seq<string>, i: nat, plans: map<string, Plan>, bmh: string)
    requires i <= |order|
    requires forall pool | pool in plans :: OnPlan(s, x, pool, |Turned(s, order, i, pool)|, plans[pool].n, bmh)
    ensures AllOnPlan(s, x, order, i, plans, bmh)
  {
    hide OnPlan, Turned;
  }

  lemma PlanStart(s: State, pool: string, n: nat, bmh: string)
    ensures OnPlan(s, s, pool, 0, n, bmh)
  {
    hide ActiveIn, FreeIn, OnHost;
  }

  lemma {:induction false} PlanTrace(s: State, order: seq<string>, n: nat, plans: map<string, Plan>, bmh: string)
    returns (states: seq<State>)
    requires QueueOrder(s, order) && n <= |order| && OnePerHost(s) && "" !in s.jobs && Planned(s, plans)
             && Spare(s, bmh)
    ensures Prefix(s, order, states, n) && Base(s, states[n], order, n) && AllOnPlan(s, states[n], order, n, plans, bmh)
  {
    hide QueueOrder, Base, AllOnPlan, OnePerHost, ScheduleOne, Planned, Spare;
    if n == 0 {
      states := [s];
      BaseStart(s, order);
      forall pool | pool in plans
        ensures OnPlan(s, s, pool, |Turned(s, order, 0, pool)|, plans[pool].n, bmh)
      {
        hide OnPlan;
        TurnedNone(s, order, pool);
        PlanStart(s, pool, plans[pool].n, bmh);
      }
      PlansBy(s, s, order, 0, plans, bmh);
    } else {
      var before := PlanTrace(s, order, n - 1, plans, bmh);
      BaseOnePerHost(s, before[n - 1], order, n - 1);
      var y := PlanTurn(s, before[n - 1], order, n - 1, plans, bmh);
      PrefixNext(s, order, before, n - 1, y);
      states := before + [y];
    }
  }

  /** Planned overflows all happen: at the end as many jobs of each pool are on the host. */
  lemma PlannedPass(s: State, plans: map<string, Plan>, bmh: string) returns (order: seq<string>, t: State)
    requires OnePerHost(s) && "" !in s.jobs && Planned(s, plans) && Spare(s, bmh)
    ensures SchedulingPass(s, t) && Base(s, t, order, |order|)
    ensures forall pool | pool in plans :: |OnHost(s, t, pool, bmh)| >= plans[pool].n
  {
    hide *;
    order := QueueExists(s);
    var states := PlanTrace(s, order, |order|, plans, bmh);
    PrefixLength(s, order, states, |order|);
    PrefixPass(s, order, states);
    t := states[|order|];
    forall pool | pool in plans
      ensures |OnHost(s, t, pool, bmh)| >= plans[pool].n
    {
      PlansAt(s, t, order, |order|, plans, bmh, pool);
      TurnedAll(s, order, pool);
      PlanEnd(s, t, pool, plans[pool], bmh);
    }
  }

  lemma PlanEnd(s: State, t: State, pool: string, plan: Plan, bmh: string)
    requires OnPlan(s, t, pool, |PendingIn(s, pool)|, plan.n, bmh) && MayOverflow(s, pool, plan.rn, plan.n)
    ensures |OnHost(s, t, pool, bmh)| >= plan.n
  {
    hide ActiveIn, FreeIn, OnHost, PendingIn;
  }

  lemma OnHostFacts(s: State, t: State, pool: string, bmh: string, k: string)
    requires k in OnHost(s, t, pool, bmh)
    ensures k in s.jobs && k in t.jobs && s.jobs[k].phase == Pending && s.jobs[k].pool == pool
    ensures t.jobs[k].IsActive() && t.jobs[k].bmhRef == bmh
  {
  }

  lemma SharedBy(t: State, a: string, b: string)
    requires a in t.jobs && b in t.jobs && a != b && t.jobs[a].IsActive() && t.jobs[b].IsActive()
    requires t.jobs[a].bmhRef == t.jobs[b].bmhRef
    ensures !Exclusive(t)
  {
  }

  lemma SomeOf(ks: set<string>, n: nat) returns (a: string, b: string)
    requires |ks| >= n > 0
    ensures a in ks && b in ks && (n >= 2 ==> a != b)
  {
    a :| a in ks;
    b := a;
    if n >= 2 {
      assert |ks - {a}| == |ks| - 1;
      b :| b in ks - {a};
    }
  }

  /** An overflow onto a busy host. */
  lemma BusySpareUnsafe(s: State, pool: string, rn: string, bmh: string) returns (t: State)
    requires OnePerHost(s) && "" !in s.jobs && MayOverflow(s, pool, rn, 1) && Spare(s, bmh) && Busy(s, bmh)
    ensures SchedulingPass(s, t) && !Exclusive(t)
  {
    hide OnePerHost, SchedulingPass, Base, MayOverflow, Spare, Exclusive, OnHost, Job.IsActive;
    var order, last := PlannedPass(s, map[pool := Plan(rn, 1)], bmh);
    t := last;
    var j :| j in s.jobs && s.jobs[j].IsActive() && s.jobs[j].bmhRef == bmh;
    var k, _ := SomeOf(OnHost(s, t, pool, bmh), 1);
    OnHostFacts(s, t, pool, bmh, k);
    PendingIdle(s.jobs[k]);
    ActiveSame(s, t, order, |order|, j);
    SharedBy(t, j, k);
  }

  lemma ActiveSame(s: State, x: State, order: seq<string>, i: nat, j: string)
    requires Base(s, x, order, i) && j in s.jobs && s.jobs[j].IsActive()
    ensures j in x.jobs && x.jobs[j] == s.jobs[j]
  {
  }

  /** Two overflows onto the same host. */
  lemma TwiceUnsafe(s: State, bmh: string) returns (t: State)
    requires OnePerHost(s) && "" !in s.jobs && MayOverflowTwice(s) && Spare(s, bmh)
    ensures SchedulingPass(s, t) && !Exclusive(t)
  {
    hide OnePerHost, SchedulingPass, Base, MayOverflow, Spare, Exclusive, OnHost, Job.IsActive;
    if pool, rn :| MayOverflow(s, pool, rn, 2) {
      var order, last := PlannedPass(s, map[pool := Plan(rn, 2)], bmh);
      t := last;
      var a, b := SomeOf(OnHost(s, t, pool, bmh), 2);
      OnHostFacts(s, t, pool, bmh, a);
      OnHostFacts(s, t, pool, bmh, b);
      SharedBy(t, a, b);
    } else {
      var p, q, rn, rm :| p != q && MayOverflow(s, p, rn, 1) && MayOverflow(s, q, rm, 1);
      var order, last := PlannedPass(s, map[p := Plan(rn, 1), q := Plan(rm, 1)], bmh);
      t := last;
      var a, _ := SomeOf(OnHost(s, t, p, bmh), 1);
      var b, _ := SomeOf(OnHost(s, t, q, bmh), 1);
      OnHostFacts(s, t, p, bmh, a);
      OnHostFacts(s, t, q, bmh, b);
      SharedBy(t, a, b);
    }
  }
}
