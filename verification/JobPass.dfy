/** A scheduling pass starts as many jobs of a pool as it can, and the first ones of the queue. */
module JobPass {
  import opened JobState
  import opened JobInvariant

  /** The one Active runner of a pool. */
  ghost predicate OnlyRunner(s: State, pool: string, rn: string) {
    && rn in s.runners && ServesPool(s.runners[rn], pool)
    && forall r | r in s.runners && ServesPool(s.runners[r], pool) :: r == rn
  }

  function PendingIn(s: State, pool: string): set<string> {
    set k | k in s.jobs && s.jobs[k].phase == Pending && s.jobs[k].pool == pool
  }

  /** The jobs of the pool that were pending in s and are no longer in t. */
  function StartedIn(s: State, t: State, pool: string): set<string> {
    PendingIn(s, pool) - PendingIn(t, pool)
  }

  function Min(a: int, b: int): int {
    if a < b then a else b
  }

  /** How many more jobs the runner may run; as many as are asked for when it has no limit. */
  function SpareSlots(s: State, r: Runner, asked: nat): nat {
    if r.maxConcurrent <= 0 then asked
    else if |ActiveIn(s, r.pool)| >= r.maxConcurrent then 0
    else r.maxConcurrent - |ActiveIn(s, r.pool)|
  }

  /** min(asked, free hosts, spare slots). */
  function Startable(s: State, pool: string, r: Runner, asked: nat): nat {
    Min(asked, Min(|FreeIn(s, pool)|, SpareSlots(s, r, asked)))
  }

  // One job.

  predicate Starts(s: State, k: string, t: State) {
    k in s.jobs && k in t.jobs && t.jobs[k].phase != Pending
  }

  /** A job of the pool starts exactly when there is a free host and a spare slot. */
  lemma {:induction false} StartsIff(s: State, k: string, t: State, pool: string, rn: string)
    requires Inv(s) && k in PendingIn(s, pool) && ScheduleOne(s, k, t) && OnlyRunner(s, pool, rn)
    ensures Starts(s, k, t) <==> FreeIn(s, pool) != {} && !AtCapacity(s, s.runners[rn])
    ensures !Starts(s, k, t) ==> t == s
  {
    hide Assign, HostsDistinct, HoldersActive, BusyHostsOn, JobsSettled, ActiveJobsHold;
    assert t == s || t != s;
    if t != s {
      var r, h, ip := Assigned(s, k, t);
      AssignStarts(s, k, r, s.reservations[h].bmhRef, ip);
      assert r == rn;
    } else if FreeIn(s, pool) != {} && !AtCapacity(s, s.runners[rn]) {
      MustAssign(s, k, t, pool, rn);
    }
  }

  lemma AssignStarts(s: State, k: string, rn: string, bmh: string, ip: string)
    requires k in s.jobs && rn in s.runners
    ensures Starts(s, k, Assign(s, k, rn, bmh, ip))
  {
  }

  lemma MustAssign(s: State, k: string, t: State, pool: string, rn: string)
    requires Inv(s) && k in PendingIn(s, pool) && ScheduleOne(s, k, t) && OnlyRunner(s, pool, rn)
    requires FreeIn(s, pool) != {} && !AtCapacity(s, s.runners[rn])
    ensures t != s
  {
    hide HostsDistinct, HoldersActive, BusyHostsOn, JobsSettled, ActiveJobsHold, AtCapacity, HostAddress;
    assert ScheduleWith(s, k, rn, t);
    var h :| h in FreeIn(s, pool);
    assert Available(s, pool, s.runners[rn].allowOverflow, s.reservations[h].bmhRef);
    var bmh, ip :| Available(s, pool, s.runners[rn].allowOverflow, bmh)
        && t == if bmh == "" then s else Assign(s, k, rn, bmh, ip);
    assert bmh != "";
    assert t.jobs[k].phase == Provisioning && s.jobs[k].phase == Pending;
  }

  /** A start takes one free host, one slot and one pending job of its own pool, and nothing of any other pool. */
  lemma StartEffect(s: State, k: string, t: State, pool: string)
    requires Inv(s) && k in s.jobs && s.jobs[k].phase == Pending && ScheduleOne(s, k, t) && Starts(s, k, t)
    ensures t.runners == s.runners
    ensures s.jobs[k].pool == pool
            ==> |FreeIn(t, pool)| == |FreeIn(s, pool)| - 1 && ActiveIn(t, pool) == ActiveIn(s, pool) + {k}
    ensures s.jobs[k].pool != pool ==> FreeIn(t, pool) == FreeIn(s, pool) && ActiveIn(t, pool) == ActiveIn(s, pool)
    ensures PendingIn(t, pool) == PendingIn(s, pool) - {k}
  {
    var rn, h, ip := Assigned(s, k, t);
    assert k != "";
    AssignFree(s, k, rn, h, ip, pool);
    AssignJobs(s, k, rn, s.reservations[h].bmhRef, ip, pool);
  }

  lemma AssignFree(s: State, k: string, rn: string, h: string, ip: string, pool: string)
    requires ReservationsOk(s) && k in s.jobs && k != "" && rn in s.runners && h in FreeIn(s, s.jobs[k].pool)
    ensures var t := Assign(s, k, rn, s.reservations[h].bmhRef, ip);
            FreeIn(t, pool) == if pool == s.jobs[k].pool then FreeIn(s, pool) - {h} else FreeIn(s, pool)
  {
  }

  lemma AssignJobs(s: State, k: string, rn: string, bmh: string, ip: string, pool: string)
    requires k in s.jobs && s.jobs[k].phase == Pending && rn in s.runners
    ensures var t := Assign(s, k, rn, bmh, ip);
            && t.runners == s.runners && PendingIn(t, pool) == PendingIn(s, pool) - {k}
            && ActiveIn(t, pool) == if pool == s.jobs[k].pool then ActiveIn(s, pool) + {k} else ActiveIn(s, pool)
  {
  }

  // The rest of a pass, from its i-th job on.

  function JobsFrom(s: State, order: seq<string>, i: nat, pool: string): set<string>
    requires i <= |order|
  {
    set k | k in order[i..] && k in s.jobs && s.jobs[k].pool == pool
  }

  /** The state in the middle of a pass: jobs still to come are pending, and pools and runners are as at the start. */
  ghost predicate Middle(s: State, order: seq<string>, i: nat, t: State) {
    && Inv(t) && t.runners == s.runners && t.jobs.Keys == s.jobs.Keys && i <= |order|
    && (forall k | k in s.jobs :: t.jobs[k].pool == s.jobs[k].pool)
    && (forall k | k in s.jobs && k in order[i..] :: t.jobs[k].phase == Pending && t.jobs[k] == s.jobs[k])
  }

  lemma MiddleStep(s: State, order: seq<string>, states: seq<State>, i: nat)
    requires QueueOrder(s, order) && PassTrace(order, states) && i < |order| == |states| - 1
             && Middle(s, order, i, states[i])
    ensures Middle(s, order, i + 1, states[i + 1])
  {
    hide Inv, ScheduleOne, QueueOrder, PassTrace;
    var k := order[i];
    QueueStep(s, order, states, i);
    ScheduleOneKeeps(states[i], k, states[i + 1]);
    StepRunners(states[i], k, states[i + 1]);
  }

  /** The i-th job of the queue, the step taken for it, and the jobs behind it. */
  lemma QueueStep(s: State, order: seq<string>, states: seq<State>, i: nat)
    requires QueueOrder(s, order) && PassTrace(order, states) && i < |order|
    ensures |states| == |order| + 1 && order[i..] == [order[i]] + order[i + 1..] && order[i] !in order[i + 1..]
    ensures order[i] in s.jobs && s.jobs[order[i]].phase == Pending
    ensures order[i] in states[i].jobs && ScheduleOne(states[i], order[i], states[i + 1])
  {
    hide ScheduleOne, NotAfter;
    NotAgain(s, order, i);
    assert order[i] in PendingKeys(s);
  }

  lemma NotAgain(s: State, order: seq<string>, i: nat)
    requires QueueOrder(s, order) && i < |order|
    ensures order[i] !in order[i + 1..]
  {
  }

  lemma StepRunners(s: State, k: string, t: State)
    requires Inv(s) && k in s.jobs && s.jobs[k].phase == Pending && ScheduleOne(s, k, t)
    ensures t.runners == s.runners && t.jobs[k].pool == s.jobs[k].pool
  {
    hide ScheduleOne, HostsDistinct, ReservationsOk, JobsSettled, ActiveJobsHold, HoldersActive, BusyHostsOn;
    ScheduleOneKeeps(s, k, t);
    if t != s {
      var rn, h, ip := Assigned(s, k, t);
    }
  }

  /** A job whose turn is over keeps what it got. */
  lemma {:induction false} TurnOver(s: State, order: seq<string>, states: seq<State>, i: nat, k: string)
    requires QueueOrder(s, order) && PassTrace(order, states) && i <= |order| == |states| - 1
             && Middle(s, order, i, states[i])
    requires k in s.jobs && k !in order[i..]
    ensures states[|order|].jobs.Keys == s.jobs.Keys && states[|order|].jobs[k] == states[i].jobs[k]
    decreases |order| - i
  {
    hide Inv, QueueOrder, PassTrace, ScheduleOne;
    if i < |order| {
      QueueStep(s, order, states, i);
      MiddleStep(s, order, states, i);
      ScheduleOneKeeps(states[i], order[i], states[i + 1]);
      TurnOver(s, order, states, i + 1, k);
    }
  }

  /** The jobs of the pool from the i-th on that the pass starts. */
  function StartedFrom(s: State, order: seq<string>, i: nat, pool: string, t: State): set<string>
    requires i <= |order|
  {
    set k | k in JobsFrom(s, order, i, pool) && Starts(s, k, t)
  }

  /** From the i-th on, the pool's jobs before position m start and the others do not. */
  ghost predicate FirstStart(s: State, order: seq<string>, i: nat, pool: string, t: State, m: nat) {
    forall j | i <= j < |order| && order[j] in s.jobs && s.jobs[order[j]].pool == pool :: Starts(s, order[j], t)
      <==> j < m
  }

  lemma FromNext(order: seq<string>, i: nat, k: string)
    requires i < |order|
    ensures k in order[i..] <==> k == order[i] || k in order[i + 1..]
  {
    assert order[i..] == [order[i]] + order[i + 1..];
  }

  lemma OtherPoolNext(s: State, order: seq<string>, i: nat, pool: string, t: State)
    requires i < |order| && order[i] in s.jobs && s.jobs[order[i]].pool != pool
    ensures JobsFrom(s, order, i, pool) == JobsFrom(s, order, i + 1, pool)
    ensures StartedFrom(s, order, i, pool, t) == StartedFrom(s, order, i + 1, pool, t)
  {
    hide Starts;
    forall k: string
      ensures k in order[i..] <==> k == order[i] || k in order[i + 1..]
    {
      FromNext(order, i, k);
    }
  }

  lemma SamePoolNext(s: State, order: seq<string>, i: nat, pool: string)
    requires i < |order| && order[i] in s.jobs && order[i] !in order[i + 1..] && s.jobs[order[i]].pool == pool
    ensures JobsFrom(s, order, i, pool) == JobsFrom(s, order, i + 1, pool) + {order[i]}
    ensures order[i] !in JobsFrom(s, order, i + 1, pool)
  {
    forall k: string
      ensures k in order[i..] <==> k == order[i] || k in order[i + 1..]
    {
      FromNext(order, i, k);
    }
  }

  lemma StartedNext(s: State, order: seq<string>, i: nat, pool: string, t: State)
    requires i < |order| && order[i] !in JobsFrom(s, order, i + 1, pool)
    requires JobsFrom(s, order, i, pool) == JobsFrom(s, order, i + 1, pool) + {order[i]}
    ensures order[i] !in StartedFrom(s, order, i + 1, pool, t)
    ensures StartedFrom(s, order, i, pool, t)
         == StartedFrom(s, order, i + 1, pool, t) + (if Starts(s, order[i], t) then {order[i]} else {})
  {
    hide Starts, JobsFrom;
  }

  lemma JobsFromStep(s: State, order: seq<string>, i: nat, pool: string, t: State)
    requires i < |order| && order[i] in s.jobs && order[i] !in order[i + 1..]
    ensures s.jobs[order[i]].pool != pool ==>
              JobsFrom(s, order, i, pool) == JobsFrom(s, order, i + 1, pool)
              && StartedFrom(s, order, i, pool, t) == StartedFrom(s, order, i + 1, pool, t)
    ensures s.jobs[order[i]].pool == pool ==>
              && JobsFrom(s, order, i, pool) == JobsFrom(s, order, i + 1, pool) + {order[i]}
              && |JobsFrom(s, order, i, pool)| == |JobsFrom(s, order, i + 1, pool)| + 1
              && StartedFrom(s, order, i, pool, t)
                 == StartedFrom(s, order, i + 1, pool, t) + (if Starts(s, order[i], t) then {order[i]} else {})
              && |StartedFrom(s, order, i, pool, t)|
                 == |StartedFrom(s, order, i + 1, pool, t)| + (if Starts(s, order[i], t) then 1 else 0)
  {
    hide Starts, JobsFrom, StartedFrom;
    if s.jobs[order[i]].pool == pool {
      SamePoolNext(s, order, i, pool);
      StartedNext(s, order, i, pool, t);
    } else {
      OtherPoolNext(s, order, i, pool, t);
    }
  }

  /** Starting one job uses up one of what can be started; a job that cannot start leaves nothing startable. */
  lemma StartableStep(x: State, k: string, y: State, pool: string, rn: string, rest: nat)
    requires Inv(x) && k in PendingIn(x, pool) && ScheduleOne(x, k, y) && OnlyRunner(x, pool, rn)
    ensures y.runners == x.runners
    ensures Starts(x, k, y) ==>
            Startable(x, pool, x.runners[rn], rest + 1) == Startable(y, pool, x.runners[rn], rest) + 1
    ensures !Starts(x, k, y) ==>
            Startable(x, pool, x.runners[rn], rest + 1) == 0 && Startable(y, pool, x.runners[rn], rest) == 0
  {
    hide Inv, ScheduleOne, FreeIn, ActiveIn, Starts;
    StartsIff(x, k, y, pool, rn);
    PendingNotActive(x, k, pool);
    if Starts(x, k, y) {
      StartEffect(x, k, y, pool);
      assert |ActiveIn(y, pool)| == |ActiveIn(x, pool)| + 1;
    }
  }

  lemma PendingNotActive(x: State, k: string, pool: string)
    requires k in PendingIn(x, pool)
    ensures k !in ActiveIn(x, pool) && k in x.jobs && x.jobs[k].phase == Pending && x.jobs[k].pool == pool
  {
  }

  /** A job of another pool changes nothing that can be started. */
  lemma OtherPool(x: State, k: string, y: State, pool: string, rn: string, asked: nat)
    requires Inv(x) && k in x.jobs && x.jobs[k].phase == Pending && ScheduleOne(x, k, y) && x.jobs[k].pool != pool
             && rn in x.runners
    requires x.runners[rn].pool == pool
    ensures y.runners == x.runners
            && Startable(y, pool, x.runners[rn], asked) == Startable(x, pool, x.runners[rn], asked)
  {
    hide Inv, ScheduleOne, FreeIn, ActiveIn;
    StepRunners(x, k, y);
    if y != x {
      ChangeIsStart(x, k, y);
      StartEffect(x, k, y, pool);
    }
  }

  lemma ChangeIsStart(x: State, k: string, y: State)
    requires Inv(x) && k in x.jobs && x.jobs[k].phase == Pending && ScheduleOne(x, k, y) && y != x
    ensures Starts(x, k, y)
  {
    hide HostsDistinct, HoldersActive, BusyHostsOn, JobsSettled, ActiveJobsHold, ScheduleOne;
    var rn, h, ip := Assigned(x, k, y);
    AssignStarts(x, k, rn, x.reservations[h].bmhRef, ip);
  }

  /** Whether a job starts is settled by its own turn. */
  lemma StartSettled(s: State, order: seq<string>, states: seq<State>, i: nat)
    requires QueueOrder(s, order) && PassTrace(order, states) && i < |order| == |states| - 1
             && Middle(s, order, i, states[i])
    ensures order[i] in states[i].jobs
            && (Starts(s, order[i], states[|order|]) <==> Starts(states[i], order[i], states[i + 1]))
  {
    hide Inv, QueueOrder, PassTrace, ScheduleOne;
    QueueStep(s, order, states, i);
    MiddleStep(s, order, states, i);
    TurnOver(s, order, states, i + 1, order[i]);
  }

  lemma MiddleJob(s: State, order: seq<string>, i: nat, x: State, pool: string, rn: string)
    requires Middle(s, order, i, x) && i < |order| && order[i] in s.jobs && OnlyRunner(s, pool, rn)
    ensures Inv(x) && OnlyRunner(x, pool, rn) && x.runners == s.runners
    ensures order[i] in x.jobs && x.jobs[order[i]].phase == Pending && x.jobs[order[i]].pool == s.jobs[order[i]].pool
    ensures s.jobs[order[i]].pool == pool ==> order[i] in PendingIn(x, pool)
  {
    assert order[i] in order[i..];
  }

  lemma {:induction false} RestOfPass(s: State, order: seq<string>, states: seq<State>, i: nat, pool: string,
                                      rn: string) returns (m: nat)
    requires QueueOrder(s, order) && PassTrace(order, states) && i <= |order| == |states| - 1
    requires Middle(s, order, i, states[i]) && OnlyRunner(s, pool, rn)
    ensures |StartedFrom(s, order, i, pool, states[|order|])|
         == Startable(states[i], pool, s.runners[rn], |JobsFrom(s, order, i, pool)|)
    ensures i <= m && FirstStart(s, order, i, pool, states[|order|], m)
    decreases |order| - i
  {
    hide Inv, QueueOrder, PassTrace, ScheduleOne, Starts, Startable, Middle, PendingIn, FirstStart, JobsFrom,
         StartedFrom;
    if i == |order| {
      m := i;
      NothingLeft(s, order, states[i], pool, s.runners[rn]);
    } else {
      var k, t := order[i], states[|order|];
      QueueStep(s, order, states, i);
      MiddleStep(s, order, states, i);
      MiddleJob(s, order, i, states[i], pool, rn);
      StartSettled(s, order, states, i);
      JobsFromStep(s, order, i, pool, t);
      m := RestOfPass(s, order, states, i + 1, pool, rn);
      if s.jobs[k].pool != pool {
        OtherPool(states[i], k, states[i + 1], pool, rn, |JobsFrom(s, order, i, pool)|);
        FirstStartOther(s, order, i, pool, t, m);
      } else {
        StartableStep(states[i], k, states[i + 1], pool, rn, |JobsFrom(s, order, i + 1, pool)|);
        if !Starts(s, k, t) {
          m := i;
          NoneStart(s, order, i + 1, pool, t);
        }
        FirstStartSame(s, order, i, pool, t, m);
      }
    }
  }

  lemma NothingLeft(s: State, order: seq<string>, t: State, pool: string, r: Runner)
    ensures StartedFrom(s, order, |order|, pool, t) == {} && JobsFrom(s, order, |order|, pool) == {}
    ensures Startable(t, pool, r, 0) == 0
    ensures FirstStart(s, order, |order|, pool, t, |order|)
  {
  }

  lemma FirstStartOther(s: State, order: seq<string>, i: nat, pool: string, t: State, m: nat)
    requires i < |order| && order[i] in s.jobs && s.jobs[order[i]].pool != pool
             && FirstStart(s, order, i + 1, pool, t, m)
    ensures FirstStart(s, order, i, pool, t, m)
  {
  }

  /** No job of the pool from the i-th on starts. */
  lemma NoneStart(s: State, order: seq<string>, i: nat, pool: string, t: State)
    requires i <= |order| && |StartedFrom(s, order, i, pool, t)| == 0
    ensures FirstStart(s, order, i, pool, t, i) && forall m: nat | m <= i :: FirstStart(s, order, i, pool, t, m)
  {
    forall j | i <= j < |order| && order[j] in s.jobs && s.jobs[order[j]].pool == pool
      ensures !Starts(s, order[j], t)
    {
      assert order[j] in order[i..];
      assert order[j] !in StartedFrom(s, order, i, pool, t);
    }
  }

  lemma FirstStartSame(s: State, order: seq<string>, i: nat, pool: string, t: State, m: nat)
    requires i < |order| && FirstStart(s, order, i + 1, pool, t, m) && (Starts(s, order[i], t) <==> i < m)
    ensures FirstStart(s, order, i, pool, t, m)
  {
    hide Starts;
  }

  // The whole pass.

  lemma QueueHoldsPending(s: State, order: seq<string>, pool: string, t: State)
    requires QueueOrder(s, order) && t.jobs.Keys == s.jobs.Keys && forall k | k in s.jobs ::
             t.jobs[k].pool == s.jobs[k].pool
    ensures JobsFrom(s, order, 0, pool) == PendingIn(s, pool)
    ensures StartedFrom(s, order, 0, pool, t) == StartedIn(s, t, pool)
  {
    hide NotAfter;
    assert order[0..] == order;
    assert forall k :: k in order <==> k in PendingKeys(s);
  }

  /**
   * The pass starts exactly as many of the pool's jobs as there are jobs, free hosts and spare slots, and the
   * first in the queue.
   */
  lemma {:induction false} PassExact(s: State, t: State, pool: string, rn: string)
    requires Inv(s) && SchedulingPass(s, t) && OnlyRunner(s, pool, rn)
    ensures |StartedIn(s, t, pool)| == Startable(s, pool, s.runners[rn], |PendingIn(s, pool)|)
    ensures forall a, b | a in StartedIn(s, t, pool) && b in PendingIn(s, pool) * PendingIn(t, pool) ::
              a in s.jobs && b in s.jobs && NotAfter(s.jobs[a], s.jobs[b])
  {
    hide Inv, QueueOrder, PassTrace, ScheduleOne, NotAfter, Startable, PendingIn, StartedIn, JobsFrom, StartedFrom,
         FirstStart, OnlyRunner;
    var order, states := PassWitness(s, t);
    MiddleStart(s, order);
    var m := RestOfPass(s, order, states, 0, pool, rn);
    PassFrame(s, order, states);
    QueueHoldsPending(s, order, pool, t);
    forall a, b | a in StartedIn(s, t, pool) && b in PendingIn(s, pool) * PendingIn(t, pool)
      ensures a in s.jobs && b in s.jobs && NotAfter(s.jobs[a], s.jobs[b])
    {
      StartedBefore(s, order, t, pool, m, a, b);
    }
  }

  lemma PassWitness(s: State, t: State) returns (order: seq<string>, states: seq<State>)
    requires SchedulingPass(s, t)
    ensures QueueOrder(s, order) && PassTrace(order, states) && |states| == |order| + 1 && states[0] == s
            && states[|order|] == t
  {
    hide QueueOrder, ScheduleOne;
    order, states :| QueueOrder(s, order) && PassTrace(order, states) && states[0] == s && states[|order|] == t;
  }

  lemma MiddleStart(s: State, order: seq<string>)
    requires Inv(s) && QueueOrder(s, order)
    ensures Middle(s, order, 0, s)
  {
    hide Inv, NotAfter;
    assert order[0..] == order;
    assert forall k | k in order :: k in PendingKeys(s);
  }

  lemma {:induction false} MiddleAt(s: State, order: seq<string>, states: seq<State>, i: nat)
    requires Inv(s) && QueueOrder(s, order) && PassTrace(order, states) && |states| == |order| + 1 && states[0] == s
             && i <= |order|
    ensures Middle(s, order, i, states[i])
  {
    hide Inv, QueueOrder, PassTrace, Middle;
    if i == 0 {
      MiddleStart(s, order);
    } else {
      MiddleAt(s, order, states, i - 1);
      MiddleStep(s, order, states, i - 1);
    }
  }

  lemma PassFrame(s: State, order: seq<string>, states: seq<State>)
    requires Inv(s) && QueueOrder(s, order) && PassTrace(order, states) && |states| == |order| + 1 && states[0] == s
    ensures var t := states[|order|];
            t.runners == s.runners && t.jobs.Keys == s.jobs.Keys && forall k | k in s.jobs ::
              t.jobs[k].pool == s.jobs[k].pool
  {
    hide Inv, QueueOrder, PassTrace;
    MiddleAt(s, order, states, |order|);
  }

  lemma StartedBefore(s: State, order: seq<string>, t: State, pool: string, m: nat, a: string, b: string)
    requires QueueOrder(s, order) && FirstStart(s, order, 0, pool, t, m)
    requires t.jobs.Keys == s.jobs.Keys && forall k | k in s.jobs :: t.jobs[k].pool == s.jobs[k].pool
    requires a in StartedIn(s, t, pool) && b in PendingIn(s, pool) * PendingIn(t, pool)
    ensures a in s.jobs && b in s.jobs && NotAfter(s.jobs[a], s.jobs[b])
  {
    hide NotAfter;
    assert a in PendingKeys(s) && b in PendingKeys(s);
    var i :| 0 <= i < |order| && order[i] == a;
    var j :| 0 <= j < |order| && order[j] == b;
    assert i < m && j >= m;
  }
}
