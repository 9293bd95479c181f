/** Runners that allow overflow: when a host still carries at most one active job, and how it comes to carry two. */
module JobOverflow {
  import opened JobState

  ghost predicate Exclusive(s: State) {
    forall a, b | a in s.jobs && b in s.jobs && s.jobs[a].IsActive() && s.jobs[b].IsActive()
      && s.jobs[a].bmhRef == s.jobs[b].bmhRef ::
      a == b
  }

  predicate Busy(s: State, bmh: string) {
    exists j | j in s.jobs :: s.jobs[j].IsActive() && s.jobs[j].bmhRef == bmh
  }

  /** A runner below its capacity serves the job's pool, and its host search may return the host. */
  predicate Offered(s: State, k: string, rn: string, bmh: string)
    requires k in s.jobs
  {
    && rn in s.runners && ServesPool(s.runners[rn], s.jobs[k].pool) && !AtCapacity(s, s.runners[rn])
    && bmh != "" && Available(s, s.jobs[k].pool, s.runners[rn].allowOverflow, bmh)
  }

  /**
   * A host is offered if it has an Active, free reservation of the pool, or, if the pool has no such reservation and
   * the runner allows overflow, if nobody has reserved it.
   */
  lemma {:induction false} OfferedExact(s: State, k: string, rn: string, bmh: string)
    requires k in s.jobs && rn in s.runners && bmh != ""
    ensures var pool, r := s.jobs[k].pool, s.runners[rn];
            var going := set j | j in s.jobs && s.jobs[j].pool == pool
                                 && s.jobs[j].phase in {Scheduling, Provisioning, Running};
            var free := set h | h in s.reservations && s.reservations[h].pool == pool
                                && s.reservations[h].phase == Active && s.reservations[h].activeJob == "";
            var known := exists b | b in s.hosts :: s.hosts[b].name == bmh;
            Offered(s, k, rn, bmh) <==>
            && r.pool == pool && r.phase == RunnerActive && (r.maxConcurrent <= 0 || |going| < r.maxConcurrent)
            && if free == {} then r.allowOverflow && known && forall h | h in s.reservations ::
              s.reservations[h].bmhRef != bmh
               else exists h | h in free :: h in s.reservations && s.reservations[h].bmhRef == bmh
  {
    var pool := s.jobs[k].pool;
    assert ActiveIn(s, pool) == set j | j in s.jobs && s.jobs[j].pool == pool
                                        && s.jobs[j].phase in {Scheduling, Provisioning, Running};
    assert FreeIn(s, pool) == set h | h in s.reservations && s.reservations[h].pool == pool
                                      && s.reservations[h].phase == Active && s.reservations[h].activeJob == "";
  }

  lemma AssignExclusive(s: State, k: string, rn: string, bmh: string, ip: string)
    requires Exclusive(s) && k in s.jobs && s.jobs[k].phase == Pending && rn in s.runners
    ensures Exclusive(Assign(s, k, rn, bmh, ip)) <==> !Busy(s, bmh)
  {
    var t := Assign(s, k, rn, bmh, ip);
    if Busy(s, bmh) {
      var j :| j in s.jobs && s.jobs[j].IsActive() && s.jobs[j].bmhRef == bmh;
      assert t.jobs[j] == s.jobs[j] && t.jobs[k].IsActive();
    }
  }

  /** A pending job's turn gives it an offered host, or changes nothing. */
  lemma TurnOffers(s: State, k: string, t: State) returns (rn: string, bmh: string, ip: string)
    requires k in s.jobs && ScheduleOne(s, k, t)
    ensures t == s || (Offered(s, k, rn, bmh) && t == Assign(s, k, rn, bmh, ip))
  {
    hide Available, AtCapacity, HostAddress, Assign;
    rn, bmh, ip := "", "", "";
    if t != s {
      rn :| rn in s.runners && ServesPool(s.runners[rn], s.jobs[k].pool) && ScheduleWith(s, k, rn, t);
      bmh, ip :| Available(s, s.jobs[k].pool, s.runners[rn].allowOverflow, bmh)
        && HostAddress(s, bmh, s.jobs[k].hostIP, ip)
                 && t == if bmh == "" then s else Assign(s, k, rn, bmh, ip);
    }
  }

  /** Every offered host may be the one the job gets. */
  lemma OfferTaken(s: State, k: string, rn: string, bmh: string) returns (ip: string)
    requires k in s.jobs && Offered(s, k, rn, bmh)
    ensures ScheduleOne(s, k, Assign(s, k, rn, bmh, ip))
  {
    hide Available, AtCapacity, Assign;
    ip := s.jobs[k].hostIP;
    if b :| b in s.hosts && s.hosts[b].name == bmh {
      ip := s.hosts[b].ip;
    }
    assert HostAddress(s, bmh, s.jobs[k].hostIP, ip);
    assert ScheduleWith(s, k, rn, Assign(s, k, rn, bmh, ip));
  }

  /** A pending job's turn is sure to leave hosts exclusive exactly when no host it may be offered is busy. */
  lemma {:induction false} ScheduleExclusiveIff(s: State, k: string)
    requires Exclusive(s) && k in s.jobs && s.jobs[k].phase == Pending
    ensures (forall t | ScheduleOne(s, k, t) :: Exclusive(t))
            <==> (forall rn, bmh | Offered(s, k, rn, bmh) :: !Busy(s, bmh))
  {
    hide ScheduleOne, Offered, Exclusive, Busy, Assign;
    if rn, bmh :| Offered(s, k, rn, bmh) && Busy(s, bmh) {
      assert rn in s.runners by { OfferRunner(s, k, rn, bmh); }
      var ip := OfferTaken(s, k, rn, bmh);
      AssignExclusive(s, k, rn, bmh, ip);
    } else {
      forall t | ScheduleOne(s, k, t)
        ensures Exclusive(t)
      {
        var rn, bmh, ip := TurnOffers(s, k, t);
        if t != s {
          OfferRunner(s, k, rn, bmh);
          AssignExclusive(s, k, rn, bmh, ip);
        }
      }
    }
  }

  lemma OfferRunner(s: State, k: string, rn: string, bmh: string)
    requires k in s.jobs && Offered(s, k, rn, bmh)
    ensures rn in s.runners
  {
  }

  /**
   * A reservation is accepted for the host of a job that overflowed onto it, and then any runner of the
   * reservation's pool, overflow allowed or not, may give the host to a second job.
   */
  lemma {:induction false} BusyHostReserved(s: State, j: string, ns: string, name: string, k: string, rn: string)
    returns (u: State)
    requires j in s.jobs && s.jobs[j].IsActive() && k in s.jobs && s.jobs[k].phase == Pending
    requires !ReservationRefused(s, ns, name, s.jobs[j].bmhRef, s.jobs[k].pool)
    requires rn in s.runners && ServesPool(s.runners[rn], s.jobs[k].pool) && !AtCapacity(s, s.runners[rn])
    ensures var t := CreateReservation(s, ns, name, s.jobs[j].bmhRef, s.jobs[k].pool);
            && k in t.jobs && ScheduleOne(t, k, u) && !Exclusive(u)
            && (exists ip :: u == Assign(t, k, rn, s.jobs[j].bmhRef, ip))
  {
    var bmh := s.jobs[j].bmhRef;
    var t := CreateReservation(s, ns, name, bmh, s.jobs[k].pool);
    hide ScheduleOne;
    assert Key(ns, name) in FreeIn(t, s.jobs[k].pool) && t.reservations[Key(ns, name)].bmhRef == bmh;
    assert ActiveIn(t, s.runners[rn].pool) == ActiveIn(s, s.runners[rn].pool);
    var ip := OfferTaken(t, k, rn, bmh);
    u := Assign(t, k, rn, bmh, ip);
    assert u.jobs[j] == s.jobs[j] && u.jobs[k].IsActive() && j != k;
  }

  // Runs.

  /** A run of the provider, overflow runners included. */
  ghost predicate AnyRun(actions: seq<Action>, states: seq<State>) {
    && |states| == |actions| + 1 && Initial(states[0])
    && forall i | 0 <= i < |actions| :: Step(states[i], actions[i], states[i + 1])
  }

  ghost predicate Reachable(s: State) {
    exists actions, states :: AnyRun(actions, states) && states[|actions|] == s
  }

  lemma ReachInitial(s: State)
    requires Initial(s)
    ensures Reachable(s)
  {
    var actions: seq<Action> := [];
    assert AnyRun(actions, [s]);
  }

  lemma ReachStep(s: State, a: Action, t: State)
    requires Reachable(s) && Step(s, a, t)
    ensures Reachable(t)
  {
    hide Step, Initial;
    var actions, states :| AnyRun(actions, states) && states[|actions|] == s;
    var longer, more := actions + [a], states + [t];
    forall i | 0 <= i < |longer|
      ensures Step(more[i], longer[i], more[i + 1])
    {
      assert i < |actions| ==> more[i] == states[i] && longer[i] == actions[i] && more[i + 1] == states[i + 1];
    }
    assert AnyRun(longer, more);
  }

  /** Runners stay, and reservations and hosts keep their names. */
  ghost predicate NamesKept(s: State, t: State) {
    && t.runners == s.runners && t.reservations.Keys == s.reservations.Keys && t.hosts.Keys == s.hosts.Keys
    && (forall b | b in s.hosts :: t.hosts[b].name == s.hosts[b].name)
    && forall h | h in s.reservations :: t.reservations[h].bmhRef == s.reservations[h].bmhRef
  }

  lemma TimeoutsNames(s: State, c: Check, now: int)
    ensures NamesKept(s, Timeouts(s, c, now))
  {
    hide Expire, ExpiredKeys;
  }

  lemma PowerNames(s: State, now: int, rns: set<string>)
    ensures NamesKept(s, PowerOff(s, now, rns)) && NamesKept(s, PowerOn(s, now, rns))
  {
    hide SwitchedOff, SwitchedOn;
  }

  lemma AfterPassKeepsRest(s: State, now: int)
    ensures NamesKept(s, AfterPass(s, now))
  {
    hide Timeouts, PowerOff, PowerOn;
    var a := Timeouts(s, CheckProvisioning, now);
    var b := Timeouts(a, CheckRunning, now);
    var c := Timeouts(b, CheckHeartbeat, now);
    var d := PowerOff(c, now, c.runners.Keys);
    TimeoutsNames(s, CheckProvisioning, now);
    TimeoutsNames(a, CheckRunning, now);
    TimeoutsNames(b, CheckHeartbeat, now);
    PowerNames(c, now, c.runners.Keys);
    PowerNames(d, now, d.runners.Keys);
  }
}
