/** When a whole scheduling pass is sure to leave at most one active job on every host, overflow or not. */
module JobOverflowPass {
  import opened JobState
  import opened JobInvariant
  import opened JobRuns
  import opened JobOverflow
  import opened JobOverflowTurns
  import opened JobOverflowSafe
  import opened JobOverflowUnsafe

  /**
   * A whole pass is sure to leave hosts exclusive exactly when the state before it is safe: no busy host is free for a
   * pool with a waiting job and a runner below capacity, none is unreserved if some pool may overflow, and there is no
   * unreserved host at all if pools may overflow twice.
   */
  lemma {:induction false} PassExclusiveIff(s: State)
    requires Exclusive(s) && ReservationsOk(s) && "" !in s.jobs
    ensures (forall t | SchedulingPass(s, t) :: Exclusive(t)) <==> PassSafe(s)
  {
    hide Exclusive, SchedulingPass, MayOverflow, MayOverflowTwice, Spare, Busy, OnePerHost, AtCapacity, ServesPool;
    assert OnePerHost(s) by { OnePerHostBy(s); }
    if PassSafe(s) {
      forall t | SchedulingPass(s, t)
        ensures Exclusive(t)
      {
        SafePass(s, t);
      }
    } else if k, rn, h :| FreeForPool(s, k, rn, h) && Busy(s, s.reservations[h].bmhRef) {
      FreeForPoolFacts(s, k, rn, h);
      var t := BusyFreeUnsafe(s, k, rn, h);
    } else if pool, rn, bmh :| MayOverflow(s, pool, rn, 1) && Spare(s, bmh) && Busy(s, bmh) {
      var t := BusySpareUnsafe(s, pool, rn, bmh);
    } else {
      var bmh :| Spare(s, bmh);
      var t := TwiceUnsafe(s, bmh);
    }
  }

  lemma OnePerHostBy(s: State)
    requires ReservationsOk(s)
    ensures OnePerHost(s)
  {
  }

  // Every state of every run, overflow runners included, meets what PassExclusiveIff asks for besides exclusivity.

  ghost predicate Named(s: State) {
    ReservationsOk(s) && "" !in s.jobs
  }

  lemma NamedBy(s: State, t: State)
    requires Named(s) && "" !in t.jobs
    requires forall h | h in t.reservations ::
             h in s.reservations && t.reservations[h].bmhRef == s.reservations[h].bmhRef
    requires forall b | b in s.hosts :: b in t.hosts && t.hosts[b].name == s.hosts[b].name
    ensures Named(t)
  {
    forall h | h in t.reservations
      ensures NamesHost(t, t.reservations[h].bmhRef)
    {
      var b :| b in s.hosts && s.hosts[b].name == s.reservations[h].bmhRef;
      assert b in t.hosts;
    }
  }

  lemma {:induction false} BaseTrace(s: State, order: seq<string>, states: seq<State>, i: nat)
    requires QueueOrder(s, order) && PassTrace(order, states) && states[0] == s && i <= |order| && "" !in s.jobs
    ensures Base(s, states[i], order, i)
  {
    hide QueueOrder, Base, ScheduleOne;
    if i == 0 {
      BaseStart(s, order);
    } else {
      BaseTrace(s, order, states, i - 1);
      AnyTurn(s, states[i - 1], order, i - 1, states[i]);
    }
  }

  lemma TickNamed(s: State, now: int, t: State)
    requires Named(s) && Tick(s, now, t)
    ensures Named(t)
  {
    hide ReservationsOk, QueueOrder, ScheduleOne, AfterPass;
    var mid :| SchedulingPass(s, mid) && t == AfterPass(mid, now);
    var order, states :| QueueOrder(s, order) && PassTrace(order, states) && states[0] == s && states[|order|] == mid;
    BaseTrace(s, order, states, |order|);
    AfterPassKeepsRest(mid, now);
    AfterPassJobs(mid, now);
    NamedBy(s, t);
  }

  lemma AgentNamed(s: State, call: AgentCall, ip: string, now: int, t: State)
    requires Named(s) && AgentStep(s, call, ip, now, t)
    ensures Named(t)
  {
    hide ReservationsOk, Answer;
    if t != s {
      var b :| HostHasIP(s, b, ip) && AgentOnHost(s, call, s.hosts[b].name, now, t);
      var k :| k in s.jobs && Finds(call, s.jobs[k], s.hosts[b].name) && t == Answer(call, s, k, now);
      AnswerNames(s, call, k, now);
      NamedBy(s, t);
    }
  }

  lemma AnswerNames(s: State, call: AgentCall, k: string, now: int)
    requires k in s.jobs
    ensures var t := Answer(call, s, k, now);
            && t.jobs.Keys == s.jobs.Keys && t.hosts == s.hosts && t.reservations.Keys == s.reservations.Keys
            && forall h | h in s.reservations :: t.reservations[h].bmhRef == s.reservations[h].bmhRef
  {
  }

  lemma ReservationNamed(s: State, ns: string, name: string, bmh: string, pool: string)
    requires Named(s)
    ensures Named(CreateReservation(s, ns, name, bmh, pool))
  {
    var t := CreateReservation(s, ns, name, bmh, pool);
    if t != s {
      forall h | h in t.reservations
        ensures t.reservations[h].bmhRef != "" && NamesHost(t, t.reservations[h].bmhRef)
      {
        if h in s.reservations && h != Key(ns, name) {
          assert NamesHost(s, s.reservations[h].bmhRef);
        }
      }
    }
  }

  lemma StepNamed(s: State, a: Action, t: State)
    requires Named(s) && Step(s, a, t)
    ensures Named(t)
  {
    hide Tick, AgentStep, ReservationsOk, CreateReservation;
    match a
    case DoTick(now) => TickNamed(s, now, t);
    case DoAgent(call, ip, now) => AgentNamed(s, call, ip, now, t);
    case DoCreateReservation(ns, name, bmh, pool) => ReservationNamed(s, ns, name, bmh, pool);
    case _ => NamedBy(s, t);
  }

  lemma {:induction false} RunNamed(actions: seq<Action>, states: seq<State>, n: nat)
    requires AnyRun(actions, states) && n <= |actions|
    ensures Named(states[n])
  {
    hide Step;
    if n > 0 {
      RunNamed(actions, states, n - 1);
      hide Named;
      StepNamed(states[n - 1], actions[n - 1], states[n]);
    }
  }

  lemma {:induction false} ReachableNamed(s: State)
    requires Reachable(s)
    ensures ReservationsOk(s) && "" !in s.jobs
  {
    hide Step;
    var actions, states :| AnyRun(actions, states) && states[|actions|] == s;
    RunNamed(actions, states, |actions|);
  }
}
