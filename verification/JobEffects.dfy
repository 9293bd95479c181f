/** What a tick, an agent call and a request do to each job, host and reservation, field by field. */
module JobEffects {
  import opened JobState
  import opened JobInvariant
  import opened JobPass
  import opened JobRuns

  // The scheduling pass.

  predicate Free(v: Reservation, pool: string) {
    v.pool == pool && v.phase == Active && v.activeJob == ""
  }

  /** The host as its new runner boots it: the runner's boot configuration, its image if it has one, switched on. */
  function Booted(b: Host, r: Runner): Host {
    Host(b.name, b.ip, r.bootConfigRef, if r.image == "" then b.image else r.image, true)
  }

  /** From s to t the job got an Active runner of its pool and, on a free reservation of the pool, a host. */
  ghost predicate Placed(s: State, t: State, k: string) {
    && k in s.jobs && k in t.jobs && s.jobs[k].phase == Pending && t.jobs[k].phase == Provisioning
    && t.jobs[k] == s.jobs[k].(phase := Provisioning, runnerRef := t.jobs[k].runnerRef, bmhRef := t.jobs[k].bmhRef,
                               hostIP := t.jobs[k].hostIP)
    && t.jobs[k].runnerRef in s.runners
    && var r, name := s.runners[t.jobs[k].runnerRef], t.jobs[k].bmhRef;
    && r.pool == s.jobs[k].pool && r.phase == RunnerActive
    && (exists h | h in s.reservations :: Free(s.reservations[h], r.pool) && s.reservations[h].bmhRef == name)
    && (exists b | b in s.hosts && b in t.hosts ::
          s.hosts[b].name == name && t.jobs[k].hostIP == s.hosts[b].ip && t.hosts[b] == Booted(s.hosts[b], r))
  }

  /** The job was placed by runner r on the host of that name. */
  ghost predicate PlacedOn(s: State, t: State, k: string, r: Runner, name: string) {
    Placed(s, t, k) && s.runners[t.jobs[k].runnerRef] == r && t.jobs[k].bmhRef == name
  }

  /** A reservation as it was, or free before and now held by a job placed on its host. */
  ghost predicate ReservationPassed(s: State, t: State, v: Reservation, w: Reservation) {
    w == v || (v.activeJob == "" && w == v.(activeJob := w.activeJob)
               && exists r :: PlacedOn(s, t, w.activeJob, r, v.bmhRef))
  }

  /** A host as it was, or booted for a job placed on it. */
  ghost predicate HostPassed(s: State, t: State, a: Host, b: Host) {
    b == a || exists k, r :: PlacedOn(s, t, k, r, a.name) && b == Booted(a, r)
  }

  ghost predicate Passed(s: State, t: State) {
    && t.runners == s.runners && t.jobs.Keys == s.jobs.Keys && t.hosts.Keys == s.hosts.Keys
    && t.reservations.Keys == s.reservations.Keys
    && (forall k | k in s.jobs :: t.jobs[k] == s.jobs[k] || Placed(s, t, k))
    && (forall h | h in s.reservations :: ReservationPassed(s, t, s.reservations[h], t.reservations[h]))
    && (forall b | b in s.hosts :: HostPassed(s, t, s.hosts[b], t.hosts[b]))
  }

  /** A pass places pending jobs, books and boots their hosts for them, and touches nothing else. */
  lemma {:induction false} PassEffect(s: State, t: State)
    requires Inv(s) && SchedulingPass(s, t)
    ensures Passed(s, t)
  {
    hide Inv, QueueOrder, ScheduleOne, Passed;
    var order, states :| QueueOrder(s, order) && PassTrace(order, states) && states[0] == s && states[|order|] == t;
    TraceEffect(order, states, |order|);
  }

  lemma {:induction false} TraceEffect(order: seq<string>, states: seq<State>, n: nat)
    requires PassTrace(order, states) && QueueOrder(states[0], order) && Inv(states[0]) && n <= |order|
    ensures Passed(states[0], states[n])
  {
    hide Inv, QueueOrder, ScheduleOne, Passed;
    PassedAlready(states[0]);
    if n > 0 {
      TraceEffect(order, states, n - 1);
      TurnIsPending(order, states, n - 1);
      TurnEffect(states[0], states[n - 1], order[n - 1], states[n]);
    }
  }

  lemma PassedAlready(s: State)
    ensures Passed(s, s)
  {
  }

  /** One more turn of the pass. */
  lemma TurnEffect(s: State, x: State, k: string, t: State)
    requires Inv(x) && Passed(s, x)
    requires k in x.jobs && k in s.jobs && x.jobs[k] == s.jobs[k] && x.jobs[k].phase == Pending
    requires ScheduleOne(x, k, t)
    ensures Passed(s, t)
  {
    hide *;
    if t != x {
      var rn, h, ip := AssignedAddress(x, k, t);
      AssignEffect(s, x, k, t, rn, h, ip);
    }
  }

  lemma AssignedAddress(s: State, k: string, t: State) returns (rn: string, h: string, ip: string)
    requires Inv(s) && k in s.jobs && ScheduleOne(s, k, t) && t != s
    ensures rn in s.runners && s.runners[rn].pool == s.jobs[k].pool && s.runners[rn].phase == RunnerActive
    ensures h in s.reservations && Free(s.reservations[h], s.jobs[k].pool)
    ensures t == Assign(s, k, rn, s.reservations[h].bmhRef, ip)
    ensures HostAddress(s, s.reservations[h].bmhRef, s.jobs[k].hostIP, ip)
  {
    hide Assign, AtCapacity, HostAddress, HostsDistinct, ReservationsOk, JobsSettled, ActiveJobsHold, HoldersActive,
         BusyHostsOn;
    rn :| rn in s.runners && ServesPool(s.runners[rn], s.jobs[k].pool) && ScheduleWith(s, k, rn, t);
    var bmh, i :| Available(s, s.jobs[k].pool, s.runners[rn].allowOverflow, bmh)
                  && HostAddress(s, bmh, s.jobs[k].hostIP, i) && t == if bmh == "" then s else Assign(s, k, rn, bmh, i);
    h :| h in FreeIn(s, s.jobs[k].pool) && s.reservations[h].bmhRef == bmh;
    ip := i;
  }

  lemma AssignEffect(s: State, x: State, k: string, t: State, rn: string, h: string, ip: string)
    requires Inv(x) && Passed(s, x)
    requires k in x.jobs && k in s.jobs && x.jobs[k] == s.jobs[k] && x.jobs[k].phase == Pending
    requires rn in x.runners && x.runners[rn].pool == x.jobs[k].pool && x.runners[rn].phase == RunnerActive
    requires h in x.reservations && Free(x.reservations[h], x.jobs[k].pool)
    requires t == Assign(x, k, rn, x.reservations[h].bmhRef, ip)
    requires HostAddress(x, x.reservations[h].bmhRef, x.jobs[k].hostIP, ip)
    ensures Passed(s, t)
  {
    hide Inv, PlacedOn, HostAddress, Placed;
    var bmh := x.reservations[h].bmhRef;
    forall j, r, name | PlacedOn(s, x, j, r, name)
      ensures name != bmh && j != k && PlacedOn(s, t, j, r, name)
    {
      NotGiven(s, x, h, j, r, name);
      StillPlaced(s, x, t, k, rn, bmh, ip, j, r, name);
    }
    forall j | Placed(s, x, j)
      ensures Placed(s, t, j)
    {
      PlacedSomewhere(s, x, j);
      PlacedSomewhere(s, t, j);
    }
    NewlyPlaced(s, x, t, k, rn, h, ip);
    PlacedSomewhere(s, t, k);
    ReservationsPassed(s, x, t, k, rn, h, ip);
    HostsPassed(s, x, t, k, rn, h, ip);
  }

  lemma PlacedSomewhere(s: State, t: State, k: string)
    ensures Placed(s, t, k) <==> exists r, name :: PlacedOn(s, t, k, r, name)
  {
    hide Booted;
    if Placed(s, t, k) {
      assert PlacedOn(s, t, k, s.runners[t.jobs[k].runnerRef], t.jobs[k].bmhRef);
    }
  }

  /** A free reservation is not that of a host already given to a job. */
  lemma NotGiven(s: State, x: State, h: string, j: string, r: Runner, name: string)
    requires Inv(x) && h in x.reservations && x.reservations[h].activeJob == "" && PlacedOn(s, x, j, r, name)
    ensures name != x.reservations[h].bmhRef && x.jobs[j].phase == Provisioning
  {
    hide HostsDistinct, ReservationsOk, ActiveJobsHold, HoldersActive, BusyHostsOn, Booted;
    MutuallyInverse(x, h, j);
  }

  lemma StillPlaced(s: State, x: State, t: State, k: string, rn: string, bmh: string, ip: string, j: string, r: Runner,
                    name: string)
    requires k in x.jobs && rn in x.runners && t == Assign(x, k, rn, bmh, ip)
    requires PlacedOn(s, x, j, r, name) && j != k && name != bmh
    ensures PlacedOn(s, t, j, r, name)
  {
    hide Booted;
    var b :| b in s.hosts && b in x.hosts && s.hosts[b].name == name && x.jobs[j].hostIP == s.hosts[b].ip
             && x.hosts[b] == Booted(s.hosts[b], r);
    BootedName(s.hosts[b], r);
    assert t.hosts[b] == x.hosts[b];
  }

  lemma BootedName(b: Host, r: Runner)
    ensures Booted(b, r).name == b.name
  {
  }

  /** Until now the host was as at the start. */
  lemma HostUntouched(s: State, x: State, h: string, b: string)
    requires Inv(x) && Passed(s, x) && h in x.reservations && x.reservations[h].activeJob == ""
    requires b in x.hosts && x.hosts[b].name == x.reservations[h].bmhRef
    ensures b in s.hosts && x.hosts[b] == s.hosts[b]
  {
    hide Inv, PlacedOn, Placed, Booted;
    assert HostPassed(s, x, s.hosts[b], x.hosts[b]);
    if x.hosts[b] != s.hosts[b] {
      var j, r :| PlacedOn(s, x, j, r, s.hosts[b].name) && x.hosts[b] == Booted(s.hosts[b], r);
      BootedName(s.hosts[b], r);
      NotGiven(s, x, h, j, r, s.hosts[b].name);
    }
  }

  /** The host of a reservation exists, and its address is the job's. */
  lemma HostOf(x: State, h: string, before: string, ip: string) returns (b: string)
    requires Inv(x) && h in x.reservations && HostAddress(x, x.reservations[h].bmhRef, before, ip)
    ensures b in x.hosts && x.hosts[b].name == x.reservations[h].bmhRef && x.hosts[b].ip == ip
  {
    hide HostsDistinct, JobsSettled, ActiveJobsHold, HoldersActive, BusyHostsOn, NoOverflow;
    assert NamesHost(x, x.reservations[h].bmhRef);
    b :| b in x.hosts && x.hosts[b].name == x.reservations[h].bmhRef && x.hosts[b].ip == ip;
  }

  lemma NewlyPlaced(s: State, x: State, t: State, k: string, rn: string, h: string, ip: string)
    requires Inv(x) && Passed(s, x)
    requires k in x.jobs && k in s.jobs && x.jobs[k] == s.jobs[k] && x.jobs[k].phase == Pending
    requires rn in x.runners && x.runners[rn].pool == x.jobs[k].pool && x.runners[rn].phase == RunnerActive
    requires h in x.reservations && Free(x.reservations[h], x.jobs[k].pool)
    requires t == Assign(x, k, rn, x.reservations[h].bmhRef, ip)
    requires HostAddress(x, x.reservations[h].bmhRef, x.jobs[k].hostIP, ip)
    ensures PlacedOn(s, t, k, x.runners[rn], x.reservations[h].bmhRef)
  {
    hide Inv, HostAddress, PlacedOn, Placed;
    var b := HostOf(x, h, x.jobs[k].hostIP, ip);
    HostUntouched(s, x, h, b);
    assert ReservationPassed(s, x, s.reservations[h], x.reservations[h]);
    assert x.reservations[h] == s.reservations[h] && b in t.hosts && s.runners == x.runners;
    JustPlaced(s, x, t, k, rn, h, ip, b);
  }

  lemma JustPlaced(s: State, x: State, t: State, k: string, rn: string, h: string, ip: string, b: string)
    requires k in x.jobs && k in s.jobs && x.jobs[k] == s.jobs[k] && x.jobs[k].phase == Pending
    requires s.runners == x.runners
    requires rn in x.runners && x.runners[rn].pool == x.jobs[k].pool && x.runners[rn].phase == RunnerActive
    requires h in x.reservations && Free(x.reservations[h], x.jobs[k].pool)
    requires h in s.reservations && s.reservations[h] == x.reservations[h]
    requires b in x.hosts && b in s.hosts && s.hosts[b] == x.hosts[b]
    requires x.hosts[b].name == x.reservations[h].bmhRef && x.hosts[b].ip == ip
    requires t == Assign(x, k, rn, x.reservations[h].bmhRef, ip)
    ensures PlacedOn(s, t, k, x.runners[rn], x.reservations[h].bmhRef)
  {
    assert t.hosts[b] == Booted(s.hosts[b], s.runners[rn]);
  }

  ghost predicate StaysPlaced(s: State, x: State, t: State) {
    forall j, r, name | PlacedOn(s, x, j, r, name) :: PlacedOn(s, t, j, r, name)
  }

  lemma ReservationsPassed(s: State, x: State, t: State, k: string, rn: string, h: string, ip: string)
    requires Inv(x) && Passed(s, x) && k in x.jobs && rn in x.runners
    requires h in x.reservations && x.reservations[h].activeJob == ""
    requires t == Assign(x, k, rn, x.reservations[h].bmhRef, ip) && StaysPlaced(s, x, t)
    requires PlacedOn(s, t, k, x.runners[rn], x.reservations[h].bmhRef)
    ensures t.reservations.Keys == s.reservations.Keys
    ensures forall g | g in s.reservations :: ReservationPassed(s, t, s.reservations[g], t.reservations[g])
  {
    hide PlacedOn, Inv;
    OneReservation(x, h);
    forall g | g in s.reservations
      ensures ReservationPassed(s, t, s.reservations[g], t.reservations[g])
    {
      assert ReservationPassed(s, x, s.reservations[g], x.reservations[g]);
      hide Passed;
      assert g != h ==> t.reservations[g] == x.reservations[g];
      assert g == h ==> t.reservations[g] == x.reservations[g].(activeJob := k);
    }
  }

  lemma OneReservation(x: State, h: string)
    requires Inv(x) && h in x.reservations
    ensures forall g | g in x.reservations && x.reservations[g].bmhRef == x.reservations[h].bmhRef :: g == h
  {
  }

  lemma HostsPassed(s: State, x: State, t: State, k: string, rn: string, h: string, ip: string)
    requires Inv(x) && Passed(s, x) && k in x.jobs && rn in x.runners
    requires h in x.reservations && x.reservations[h].activeJob == ""
    requires t == Assign(x, k, rn, x.reservations[h].bmhRef, ip) && StaysPlaced(s, x, t)
    requires PlacedOn(s, t, k, x.runners[rn], x.reservations[h].bmhRef)
    ensures t.hosts.Keys == s.hosts.Keys && forall b | b in s.hosts :: HostPassed(s, t, s.hosts[b], t.hosts[b])
  {
    hide PlacedOn, Placed, Inv;
    forall b | b in s.hosts
      ensures HostPassed(s, t, s.hosts[b], t.hosts[b])
    {
      assert HostPassed(s, x, s.hosts[b], x.hosts[b]);
      if x.hosts[b].name == x.reservations[h].bmhRef {
        HostUntouched(s, x, h, b);
        assert t.hosts[b] == Booted(s.hosts[b], x.runners[rn]);
      } else {
        assert t.hosts[b] == x.hosts[b];
      }
    }
  }

  /**
   * How many and which, in the fields of jobs, reservations and runner alone: min(waiting jobs, free reservations,
   * slots left), by priority and then by age.
   */
  lemma {:induction false} PassCounts(s: State, t: State, rn: string)
    requires Inv(s) && SchedulingPass(s, t) && rn in s.runners && s.runners[rn].phase == RunnerActive
    requires forall r | r in s.runners :: s.runners[r].pool == s.runners[rn].pool && s.runners[r].phase == RunnerActive
                                          ==> r == rn
    ensures var pool, limit := s.runners[rn].pool, s.runners[rn].maxConcurrent;
            var waiting := set k | k in s.jobs && s.jobs[k].pool == pool && s.jobs[k].phase == Pending;
            var going := set k | k in s.jobs && s.jobs[k].pool == pool
                                 && s.jobs[k].phase in {Scheduling, Provisioning, Running};
            var free := set h | h in s.reservations && Free(s.reservations[h], pool);
            var slots := if limit <= 0 then |waiting| else if |going| >= limit then 0 else limit - |going|;
            var started := set k | k in waiting && k in t.jobs && t.jobs[k].phase != Pending;
            && |started| == Min(|waiting|, Min(|free|, slots))
            && forall a, b | a in started && b in waiting - started ::
                 && a in s.jobs && b in s.jobs
                 && (s.jobs[a].priority > s.jobs[b].priority
                     || (s.jobs[a].priority == s.jobs[b].priority && s.jobs[a].created <= s.jobs[b].created))
  {
    hide Inv, SchedulingPass, Passed, PendingIn, StartedIn, ActiveIn, FreeIn, Free;
    var pool := s.runners[rn].pool;
    PassExact(s, t, pool, rn);
    PassEffect(s, t);
    PoolsStay(s, t);
    CountsAre(s, t, pool);
  }

  lemma PoolsStay(s: State, t: State)
    requires Passed(s, t)
    ensures t.jobs.Keys == s.jobs.Keys && forall k | k in s.jobs :: t.jobs[k].pool == s.jobs[k].pool
  {
    hide ReservationPassed, HostPassed, Booted;
  }

  lemma CountsAre(s: State, t: State, pool: string)
    requires t.jobs.Keys == s.jobs.Keys && forall k | k in s.jobs :: t.jobs[k].pool == s.jobs[k].pool
    ensures var waiting := set k | k in s.jobs && s.jobs[k].pool == pool && s.jobs[k].phase == Pending;
            var started := set k | k in waiting && k in t.jobs && t.jobs[k].phase != Pending;
            && PendingIn(s, pool) == waiting && StartedIn(s, t, pool) == started
            && PendingIn(s, pool) * PendingIn(t, pool) == waiting - started
    ensures ActiveIn(s, pool) == set k | k in s.jobs && s.jobs[k].pool == pool
                                         && s.jobs[k].phase in {Scheduling, Provisioning, Running}
    ensures FreeIn(s, pool) == set h | h in s.reservations && Free(s.reservations[h], pool)
  {
  }
}
