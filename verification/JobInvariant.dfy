/** What every handler and every scheduler tick keeps: jobs and hosts correspond one to one, and busy hosts are on. */
module JobInvariant {
  import opened JobState

  ghost predicate NoOverflow(s: State) {
    forall rn | rn in s.runners :: !s.runners[rn].allowOverflow
  }

  /** Every reservation names a host, and no two name the same. */
  ghost predicate ReservationsOk(s: State) {
    && (forall h | h in s.reservations :: s.reservations[h].bmhRef != "" && NamesHost(s, s.reservations[h].bmhRef))
    && (forall h, g | h in s.reservations && g in s.reservations
       && s.reservations[h].bmhRef == s.reservations[g].bmhRef :: h == g)
  }

  predicate NamesHost(s: State, bmh: string) {
    exists b | b in s.hosts :: s.hosts[b].name == bmh
  }

  /** Reservation h is held by job k. */
  predicate Holds(s: State, h: string, k: string) {
    && h in s.reservations && k in s.jobs
    && s.reservations[h].activeJob == k && s.jobs[k].bmhRef == s.reservations[h].bmhRef
  }

  ghost predicate ActiveJobsHold(s: State) {
    forall k | k in s.jobs && s.jobs[k].IsActive() :: exists h :: Holds(s, h, k)
  }

  ghost predicate HoldersActive(s: State) {
    forall h | h in s.reservations && s.reservations[h].activeJob != "" ::
      var k := s.reservations[h].activeJob; Holds(s, h, k) && s.jobs[k].IsActive()
  }

  ghost predicate JobsSettled(s: State) {
    forall k | k in s.jobs :: k != "" && s.jobs[k].phase != Scheduling
                              && (s.jobs[k].phase == Running
                                 ==> s.jobs[k].startedAt.Some? && s.jobs[k].lastHeartbeat.Some?)
  }

  ghost predicate BusyHostsOn(s: State) {
    forall k, b | k in s.jobs && s.jobs[k].IsActive() && b in s.hosts && s.hosts[b].name == s.jobs[k].bmhRef ::
      s.hosts[b].online
  }

  ghost predicate Inv(s: State) {
    && HostsDistinct(s) && NoOverflow(s) && ReservationsOk(s) && JobsSettled(s)
    && ActiveJobsHold(s) && HoldersActive(s) && BusyHostsOn(s)
  }

  // What the invariant says.

  /** Active jobs and busy reservations determine each other. */
  lemma {:induction false} MutuallyInverse(s: State, h: string, k: string)
    requires Inv(s) && h in s.reservations && k in s.jobs
    ensures s.reservations[h].activeJob == k <==> s.jobs[k].IsActive() && s.jobs[k].bmhRef == s.reservations[h].bmhRef
  {
    if s.jobs[k].IsActive() && s.jobs[k].bmhRef == s.reservations[h].bmhRef {
      var g :| Holds(s, g, k);
    }
  }

  /** No host carries two active jobs. */
  lemma {:induction false} NoSharedHost(s: State, a: string, b: string)
    requires Inv(s) && a in s.jobs && b in s.jobs && s.jobs[a].IsActive() && s.jobs[b].IsActive()
    ensures s.jobs[a].bmhRef == s.jobs[b].bmhRef ==> a == b
  {
    var g :| Holds(s, g, a);
    var h :| Holds(s, h, b);
  }

  /** The host of an active job exists and is on. */
  lemma {:induction false} ActiveJobOnline(s: State, k: string) returns (b: string)
    requires Inv(s) && k in s.jobs && s.jobs[k].IsActive()
    ensures b in s.hosts && s.hosts[b].name == s.jobs[k].bmhRef && s.hosts[b].online
  {
    var h :| Holds(s, h, k);
    assert NamesHost(s, s.reservations[h].bmhRef);
    b :| b in s.hosts && s.hosts[b].name == s.jobs[k].bmhRef;
  }

  // Scheduling.

  lemma AssignKeeps(s: State, k: string, rn: string, h: string, ip: string)
    requires Inv(s) && k in s.jobs && s.jobs[k].phase == Pending && rn in s.runners
    requires h in s.reservations && s.reservations[h].activeJob == ""
    ensures Inv(Assign(s, k, rn, s.reservations[h].bmhRef, ip))
  {
    hide Assign, HostsDistinct, ActiveJobsHold, HoldersActive, BusyHostsOn;
    AssignHolds(s, k, rn, h, ip);
    AssignHolders(s, k, rn, h, ip);
    AssignRest(s, k, rn, h, ip);
  }

  lemma AssignHolds(s: State, k: string, rn: string, h: string, ip: string)
    requires ReservationsOk(s) && ActiveJobsHold(s) && k in s.jobs && rn in s.runners && h in s.reservations
    requires s.reservations[h].activeJob == "" && JobsSettled(s)
    ensures ActiveJobsHold(Assign(s, k, rn, s.reservations[h].bmhRef, ip))
  {
    var t := Assign(s, k, rn, s.reservations[h].bmhRef, ip);
    forall j | j in t.jobs && t.jobs[j].IsActive()
      ensures exists g :: Holds(t, g, j)
    {
      if j == k {
        assert Holds(t, h, k);
      } else {
        var g :| Holds(s, g, j);
        assert Holds(t, g, j);
      }
    }
  }

  lemma AssignHolders(s: State, k: string, rn: string, h: string, ip: string)
    requires ReservationsOk(s) && HoldersActive(s) && k in s.jobs && s.jobs[k].phase == Pending
    requires rn in s.runners && h in s.reservations
    ensures HoldersActive(Assign(s, k, rn, s.reservations[h].bmhRef, ip))
  {
    var t := Assign(s, k, rn, s.reservations[h].bmhRef, ip);
    forall g | g in t.reservations && t.reservations[g].activeJob != ""
      ensures Holds(t, g, t.reservations[g].activeJob) && t.jobs[t.reservations[g].activeJob].IsActive()
    {
      assert g == h || t.reservations[g] == s.reservations[g];
    }
  }

  lemma AssignRest(s: State, k: string, rn: string, h: string, ip: string)
    requires HostsDistinct(s) && NoOverflow(s) && ReservationsOk(s) && JobsSettled(s) && BusyHostsOn(s)
    requires k in s.jobs && rn in s.runners && h in s.reservations
    ensures var t := Assign(s, k, rn, s.reservations[h].bmhRef, ip);
            HostsDistinct(t) && NoOverflow(t) && ReservationsOk(t) && JobsSettled(t) && BusyHostsOn(t)
  {
    hide ReservationsOk, BusyHostsOn;
    AssignReservations(s, k, rn, s.reservations[h].bmhRef, ip);
    AssignPowers(s, k, rn, s.reservations[h].bmhRef, ip);
  }

  lemma AssignPowers(s: State, k: string, rn: string, bmh: string, ip: string)
    requires BusyHostsOn(s) && k in s.jobs && rn in s.runners
    ensures BusyHostsOn(Assign(s, k, rn, bmh, ip))
  {
  }

  lemma AssignReservations(s: State, k: string, rn: string, bmh: string, ip: string)
    requires ReservationsOk(s) && k in s.jobs && rn in s.runners
    ensures ReservationsOk(Assign(s, k, rn, bmh, ip))
  {
    hide NamesHost;
    var t := Assign(s, k, rn, bmh, ip);
    forall g | g in t.reservations
      ensures t.reservations[g].bmhRef != "" && NamesHost(t, t.reservations[g].bmhRef)
    {
      HostsKeepNames(s, t, s.reservations[g].bmhRef);
    }
  }

  lemma HostsKeepNames(s: State, t: State, bmh: string)
    requires NamesHost(s, bmh) && SameHosts(s, t)
    ensures NamesHost(t, bmh)
  {
    var b :| b in s.hosts && s.hosts[b].name == bmh;
    assert b in t.hosts && t.hosts[b].name == bmh;
  }

  ghost predicate SameHosts(s: State, t: State) {
    t.hosts.Keys == s.hosts.Keys && forall b | b in s.hosts ::
      t.hosts[b].name == s.hosts[b].name && t.hosts[b].ip == s.hosts[b].ip
  }

  /** The reservations of t are reservations of s, of the same hosts. */
  ghost predicate SomeReservations(s: State, t: State) {
    forall h | h in t.reservations :: h in s.reservations && t.reservations[h].bmhRef == s.reservations[h].bmhRef
  }

  /** The active jobs of t are active in s and held as they were. */
  ghost predicate HoldsKept(s: State, t: State) {
    forall k | k in t.jobs && t.jobs[k].IsActive() ::
      k in s.jobs && s.jobs[k].IsActive() && forall h | Holds(s, h, k) :: Holds(t, h, k)
  }

  /** The invariant from its parts, for steps that add neither active jobs nor reservations. */
  lemma InvBy(s: State, t: State)
    requires Inv(s) && SameHosts(s, t) && SomeReservations(s, t) && HoldsKept(s, t)
    requires NoOverflow(t) && JobsSettled(t) && HoldersActive(t) && BusyHostsOn(t)
    ensures Inv(t)
  {
    hide NoOverflow, JobsSettled, HoldersActive, BusyHostsOn;
    forall k | k in t.jobs && t.jobs[k].IsActive()
      ensures exists g :: Holds(t, g, k)
    {
      var g :| Holds(s, g, k);
      assert Holds(t, g, k);
    }
    forall g | g in t.reservations
      ensures t.reservations[g].bmhRef != "" && NamesHost(t, t.reservations[g].bmhRef)
    {
      HostsKeepNames(s, t, s.reservations[g].bmhRef);
    }
  }

  lemma {:induction false} ScheduleOneKeeps(s: State, k: string, t: State)
    requires Inv(s) && k in s.jobs && s.jobs[k].phase == Pending && ScheduleOne(s, k, t)
    ensures Inv(t)
    ensures t.jobs.Keys == s.jobs.Keys && forall j | j in s.jobs && j != k :: t.jobs[j] == s.jobs[j]
  {
    hide ScheduleOne, HostsDistinct, ReservationsOk, JobsSettled, ActiveJobsHold, HoldersActive, BusyHostsOn;
    if t != s {
      var rn, h, ip := Assigned(s, k, t);
      AssignKeeps(s, k, rn, h, ip);
    }
  }

  /** Without overflow, a job that is scheduled gets the host of a free reservation of its pool. */
  lemma Assigned(s: State, k: string, t: State) returns (rn: string, h: string, ip: string)
    requires NoOverflow(s) && k in s.jobs && ScheduleOne(s, k, t) && t != s
    ensures rn in s.runners && ServesPool(s.runners[rn], s.jobs[k].pool) && !AtCapacity(s, s.runners[rn])
    ensures h in FreeIn(s, s.jobs[k].pool) && t == Assign(s, k, rn, s.reservations[h].bmhRef, ip)
  {
    hide Assign, AtCapacity, HostAddress;
    rn :| rn in s.runners && ServesPool(s.runners[rn], s.jobs[k].pool) && ScheduleWith(s, k, rn, t);
    var bmh, ip' :| Available(s, s.jobs[k].pool, s.runners[rn].allowOverflow, bmh)
        && t == if bmh == "" then s else Assign(s, k, rn, bmh, ip');
    ip := ip';
    h :| h in FreeIn(s, s.jobs[k].pool) && s.reservations[h].bmhRef == bmh;
  }

  /** Along the pass, the jobs still to come are untouched. */
  lemma {:induction false} TraceKeeps(order: seq<string>, states: seq<State>, n: nat)
    requires PassTrace(order, states) && QueueOrder(states[0], order) && Inv(states[0]) && n <= |order|
    ensures Inv(states[n]) && states[n].jobs.Keys == states[0].jobs.Keys
    ensures forall j | j in states[0].jobs && j !in order[..n] :: states[n].jobs[j] == states[0].jobs[j]
  {
    hide Inv, ScheduleOne, QueueOrder;
    if n > 0 {
      TraceKeeps(order, states, n - 1);
      var k := order[n - 1];
      TraceAt(states[0], order, n - 1);
      assert ScheduleOne(states[n - 1], k, states[n]);
      ScheduleOneKeeps(states[n - 1], k, states[n]);
      assert order[..n] == order[..n - 1] + [k];
    }
  }

  lemma TraceAt(s: State, order: seq<string>, i: nat)
    requires QueueOrder(s, order) && i < |order|
    ensures order[i] !in order[..i] && order[i] in s.jobs && order[i] in PendingKeys(s)
  {
    hide NotAfter;
    assert order[i] in order;
  }

  lemma PassKeeps(s: State, t: State)
    requires Inv(s) && SchedulingPass(s, t)
    ensures Inv(t)
  {
    hide Inv, QueueOrder, ScheduleOne;
    var order, states :| QueueOrder(s, order) && PassTrace(order, states) && states[0] == s && states[|order|] == t;
    TraceKeeps(order, states, |order|);
  }

  // Timeouts.

  lemma {:induction false} TimeoutsKeeps(s: State, c: Check, now: int)
    requires Inv(s)
    ensures Inv(Timeouts(s, c, now))
  {
    hide Timeouts, HostsDistinct, ReservationsOk;
    var t := Timeouts(s, c, now);
    TimeoutsJobs(s, c, now);
    TimeoutsReservations(s, c, now);
    InvBy(s, t);
  }

  lemma TimeoutsJobs(s: State, c: Check, now: int)
    requires JobsSettled(s) && BusyHostsOn(s) && NoOverflow(s)
    ensures var t := Timeouts(s, c, now);
            SameHosts(s, t) && JobsSettled(t) && BusyHostsOn(t) && HoldsKept(s, t) && NoOverflow(t)
              && SomeReservations(s, t)
  {
    hide HoldsKept;
    TimeoutsHolds(s, c, now);
  }

  lemma TimeoutsHolds(s: State, c: Check, now: int)
    ensures HoldsKept(s, Timeouts(s, c, now))
  {
  }

  lemma TimeoutsReservations(s: State, c: Check, now: int)
    requires HoldersActive(s) && ReservationsOk(s)
    ensures HoldersActive(Timeouts(s, c, now))
  {
  }

  // Power.

  lemma PowerKeeps(s: State, t: State)
    requires Inv(s) && t == s.(hosts := t.hosts) && SameHosts(s, t) && BusyHostsOn(t)
    ensures Inv(t)
  {
    InvBy(s, t);
  }

  /** The host of an active job is not the host of a free reservation. */
  lemma BusyIsNotFree(s: State, k: string, pool: string)
    requires Inv(s) && k in s.jobs && s.jobs[k].IsActive()
    ensures !FreeHostOf(s, pool, s.jobs[k].bmhRef)
  {
    var h :| Holds(s, h, k);
  }

  lemma {:induction false} PowerOffKeeps(s: State, now: int, rns: set<string>)
    requires Inv(s)
    ensures Inv(PowerOff(s, now, rns))
  {
    var t := PowerOff(s, now, rns);
    forall k, b | k in t.jobs && t.jobs[k].IsActive() && b in t.hosts && t.hosts[b].name == t.jobs[k].bmhRef
      ensures t.hosts[b].online
    {
      forall rn | rn in rns && rn in s.runners
        ensures !FreeHostOf(s, s.runners[rn].pool, s.hosts[b].name)
      {
        BusyIsNotFree(s, k, s.runners[rn].pool);
      }
    }
    PowerKeeps(s, t);
  }

  lemma PowerOnKeeps(s: State, now: int, rns: set<string>)
    requires Inv(s)
    ensures Inv(PowerOn(s, now, rns))
  {
    PowerKeeps(s, PowerOn(s, now, rns));
  }

  lemma AfterPassKeeps(s: State, now: int)
    requires Inv(s)
    ensures Inv(AfterPass(s, now))
  {
    hide Inv, Timeouts, PowerOff, PowerOn;
    var a := Timeouts(s, CheckProvisioning, now);
    var b := Timeouts(a, CheckRunning, now);
    var c := Timeouts(b, CheckHeartbeat, now);
    TimeoutsKeeps(s, CheckProvisioning, now);
    TimeoutsKeeps(a, CheckRunning, now);
    TimeoutsKeeps(b, CheckHeartbeat, now);
    PowerOffKeeps(c, now, c.runners.Keys);
    PowerOnKeeps(PowerOff(c, now, c.runners.Keys), now, PowerOff(c, now, c.runners.Keys).runners.Keys);
  }

  lemma TickKeeps(s: State, now: int, t: State)
    requires Inv(s) && Tick(s, now, t)
    ensures Inv(t)
  {
    hide Inv, SchedulingPass, AfterPass;
    var mid :| SchedulingPass(s, mid) && t == AfterPass(mid, now);
    PassKeeps(s, mid);
    AfterPassKeeps(mid, now);
  }

  // Handlers.

  lemma {:induction false} EndJobKeeps(s: State, k: string, j: Job)
    requires Inv(s) && k in s.jobs && j.IsTerminal()
    ensures Inv(EndJob(s, k, j))
  {
    hide EndJob, HostsDistinct, ReservationsOk;
    EndJobJobs(s, k, j);
    EndJobReservations(s, k, j);
    InvBy(s, EndJob(s, k, j));
  }

  lemma EndJobJobs(s: State, k: string, j: Job)
    requires JobsSettled(s) && BusyHostsOn(s) && NoOverflow(s) && k in s.jobs && j.IsTerminal()
    ensures var t := EndJob(s, k, j);
            SameHosts(s, t) && JobsSettled(t) && BusyHostsOn(t) && HoldsKept(s, t) && NoOverflow(t)
              && SomeReservations(s, t)
  {
  }

  lemma EndJobReservations(s: State, k: string, j: Job)
    requires HoldersActive(s) && ReservationsOk(s) && k in s.jobs
    ensures HoldersActive(EndJob(s, k, j))
  {
  }

  /** Changing an active job to a running one on the same host. */
  lemma SameHoldKeeps(s: State, k: string, j: Job)
    requires Inv(s) && k in s.jobs && s.jobs[k].IsActive() && j.bmhRef == s.jobs[k].bmhRef && j.phase == Running
    requires j.startedAt.Some? && j.lastHeartbeat.Some?
    ensures Inv(s.(jobs := s.jobs[k := j]))
  {
    hide HostsDistinct, ReservationsOk;
    InvBy(s, s.(jobs := s.jobs[k := j]));
  }

  lemma AnswerKeeps(s: State, call: AgentCall, k: string, now: int)
    requires Inv(s) && k in s.jobs && Finds(call, s.jobs[k], s.jobs[k].bmhRef)
    ensures Inv(Answer(call, s, k, now))
  {
    hide Inv, EndJob;
    FoundIsActive(s, call, k);
    var j := s.jobs[k];
    match call
    case Work =>
      if j.phase == Provisioning {
        SameHoldKeeps(s, k, j.(phase := Running, startedAt := Some(now), lastHeartbeat := Some(now)));
      }
    case Heartbeat => SameHoldKeeps(s, k, j.(lastHeartbeat := Some(now)));
    case Logs(n) => SameHoldKeeps(s, k, j.(logLines := j.logLines + n, lastHeartbeat := Some(now)));
    case Complete(code, message) =>
      EndJobKeeps(s, k, Ended(j, if code == 0 then Completed
        else Failed, now, AgentMessage(message)).(exitCode := Some(code)));
  }

  lemma FoundIsActive(s: State, call: AgentCall, k: string)
    requires Inv(s) && k in s.jobs && Finds(call, s.jobs[k], s.jobs[k].bmhRef)
    ensures s.jobs[k].IsActive() && (s.jobs[k].phase == Running
            ==> s.jobs[k].startedAt.Some? && s.jobs[k].lastHeartbeat.Some?)
  {
  }

  lemma {:induction false} AgentKeeps(s: State, call: AgentCall, ip: string, now: int, t: State)
    requires Inv(s) && AgentStep(s, call, ip, now, t)
    ensures Inv(t)
  {
    hide Inv, Answer;
    if t != s {
      var b :| HostHasIP(s, b, ip) && AgentOnHost(s, call, s.hosts[b].name, now, t);
      var k :| k in s.jobs && Finds(call, s.jobs[k], s.hosts[b].name) && t == Answer(call, s, k, now);
      AnswerKeeps(s, call, k, now);
    }
  }

  /** Adding a job that is not active, or removing one. */
  lemma IdleJobsKeep(s: State, t: State)
    requires Inv(s) && t == s.(jobs := t.jobs) && JobsSettled(t)
    requires forall k | k in t.jobs && t.jobs[k].IsActive() :: k in s.jobs && t.jobs[k] == s.jobs[k]
    requires forall k | k in s.jobs && s.jobs[k].IsActive() :: k in t.jobs && t.jobs[k] == s.jobs[k]
    ensures Inv(t)
  {
    InvBy(s, t);
  }

  /** Adding a free reservation of an unreserved host, or removing a free one. */
  lemma FreeReservationsKeep(s: State, t: State)
    requires Inv(s) && t == s.(reservations := t.reservations) && ReservationsOk(t)
    requires forall h | h in t.reservations && t.reservations[h].activeJob != "" ::
             h in s.reservations && t.reservations[h] == s.reservations[h]
    requires forall h | h in s.reservations && s.reservations[h].activeJob != "" ::
             h in t.reservations && t.reservations[h] == s.reservations[h]
    ensures Inv(t)
  {
    forall i | i in t.jobs && t.jobs[i].IsActive()
      ensures exists g :: Holds(t, g, i)
    {
      var g :| Holds(s, g, i);
      assert Holds(t, g, i);
    }
  }

  lemma {:induction false} CreateReservationKeeps(s: State, ns: string, name: string, bmh: string, pool: string)
    requires Inv(s)
    ensures Inv(CreateReservation(s, ns, name, bmh, pool))
  {
    var t := CreateReservation(s, ns, name, bmh, pool);
    if t != s {
      forall g | g in t.reservations
        ensures t.reservations[g].bmhRef != "" && NamesHost(t, t.reservations[g].bmhRef)
      {
        HostsKeepNames(s, t, t.reservations[g].bmhRef);
      }
      FreeReservationsKeep(s, t);
    }
  }

  lemma {:induction false} DeleteReservationKeeps(s: State, h: string)
    requires Inv(s)
    ensures Inv(DeleteReservation(s, h))
  {
    var t := DeleteReservation(s, h);
    if t != s {
      forall g | g in t.reservations
        ensures t.reservations[g].bmhRef != "" && NamesHost(t, t.reservations[g].bmhRef)
      {
        HostsKeepNames(s, t, t.reservations[g].bmhRef);
      }
      FreeReservationsKeep(s, t);
    }
  }

  lemma RunnersKeep(s: State, t: State)
    requires Inv(s) && t == s.(runners := t.runners) && NoOverflow(t)
    ensures Inv(t)
  {
    InvBy(s, t);
  }

  /** Every step keeps the invariant, as long as no runner that allows overflow is created. */
  lemma {:induction false} StepKeeps(s: State, a: Action, t: State)
    requires Inv(s) && Step(s, a, t) && (a.DoCreateRunner? ==> !a.runner.allowOverflow)
    ensures Inv(t)
  {
    hide Tick, AgentStep, HostsDistinct, ReservationsOk, ActiveJobsHold, HoldersActive, BusyHostsOn, EndJob;
    match a
    case DoTick(now) => TickKeeps(s, now, t);
    case DoCreateJob(_, _, _, _, _, _, _) => IdleJobsKeep(s, t);
    case DoDeleteJob(_) => IdleJobsKeep(s, t);
    case DoCancelJob(k, now) =>
      if t != s {
        EndJobKeeps(s, k, Ended(s.jobs[k], Cancelled, now, CancelledByUser));
      }
    case DoAgent(call, ip, now) => AgentKeeps(s, call, ip, now, t);
    case DoCreateReservation(ns, name, bmh, pool) => CreateReservationKeeps(s, ns, name, bmh, pool);
    case DoDeleteReservation(h) => DeleteReservationKeeps(s, h);
    case DoCreateRunner(_, _, _) => RunnersKeep(s, t);
    case DoDeleteRunner(_) => RunnersKeep(s, t);
  }

  /** Every state of every run satisfies the invariant. */
  lemma {:induction false} RunKeeps(actions: seq<Action>, states: seq<State>, n: nat)
    requires Run(actions, states) && n <= |actions|
    ensures Inv(states[n])
  {
    if n == 0 {
      assert Initial(states[0]);
    } else {
      RunKeeps(actions, states, n - 1);
      hide Inv, Step;
      StepKeeps(states[n - 1], actions[n - 1], states[n]);
    }
  }
}
