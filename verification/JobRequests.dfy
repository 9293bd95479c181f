/** What agent calls, requests, timeouts and power management do, field by field. */
module JobRequests {
  import opened JobState
  import opened JobInvariant

  // Agents.

  /** The job k changed to j, and nothing else. */
  function WithJob(s: State, k: string, j: Job): State {
    State(s.jobs[k := j], s.reservations, s.runners, s.hosts)
  }

  /** The job k changed to j, no longer holding a reservation, and nothing else. */
  ghost predicate EndedAs(s: State, k: string, j: Job, t: State) {
    && t.jobs == s.jobs[k := j] && t.runners == s.runners && t.hosts == s.hosts
    && t.reservations.Keys == s.reservations.Keys
    && forall h | h in s.reservations ::
         t.reservations[h] == if s.reservations[h].activeJob == k then s.reservations[h].(activeJob := "")
                              else s.reservations[h]
  }

  /**
   * A call from the host of an active job: the first work request starts it, heartbeats and logs keep it going, and
   * its exit code decides how it ends; before it runs, only a work request counts.
   */
  lemma {:induction false} AgentExact(s: State, call: AgentCall, ip: string, now: int, t: State, b: string, k: string)
    requires Inv(s) && ip != "" && AgentStep(s, call, ip, now, t) && b in s.hosts && s.hosts[b].ip == ip
    requires k in s.jobs && s.jobs[k].bmhRef == s.hosts[b].name
    requires s.jobs[k].phase == Provisioning || s.jobs[k].phase == Running
    ensures var j := s.jobs[k];
            if j.phase == Provisioning then
              t == if call.Work?
                   then WithJob(s, k, j.(phase := Running, startedAt := Some(now), lastHeartbeat := Some(now))) else s
            else
              match call
              case Work => t == s
              case Heartbeat => t == WithJob(s, k, j.(lastHeartbeat := Some(now)))
              case Logs(n) => t == WithJob(s, k, j.(logLines := j.logLines + n, lastHeartbeat := Some(now)))
              case Complete(code, text) =>
                EndedAs(s, k, j.(phase := if code == 0 then Completed else Failed, completedAt := Some(now),
                                 exitCode := Some(code), reason := AgentMessage(text)), t)
  {
    hide Inv, Answer, EndedAs;
    OneHostByIP(s, b);
    if exists l | l in s.jobs :: Finds(call, s.jobs[l], s.hosts[b].name) {
      var c :| HostHasIP(s, c, ip) && AgentOnHost(s, call, s.hosts[c].name, now, t);
      assert c == b;
      var l :| l in s.jobs && Finds(call, s.jobs[l], s.hosts[b].name) && t == Answer(call, s, l, now);
      NoSharedHost(s, k, l);
      AnswerExact(s, call, k, now);
    } else {
      assert HostHasIP(s, b, ip);
    }
  }

  lemma OneHostByIP(s: State, b: string)
    requires Inv(s) && b in s.hosts && s.hosts[b].ip != ""
    ensures forall c | c in s.hosts && s.hosts[c].ip == s.hosts[b].ip :: c == b
  {
    hide ReservationsOk, JobsSettled, ActiveJobsHold, HoldersActive, BusyHostsOn, NoOverflow;
  }

  lemma AnswerExact(s: State, call: AgentCall, k: string, now: int)
    requires Inv(s) && k in s.jobs && s.jobs[k].IsActive()
    ensures var j, t := s.jobs[k], Answer(call, s, k, now);
            match call
            case Work =>
              t == if j.phase == Provisioning
                   then WithJob(s, k, j.(phase := Running, startedAt := Some(now), lastHeartbeat := Some(now))) else s
            case Heartbeat => t == WithJob(s, k, j.(lastHeartbeat := Some(now)))
            case Logs(n) => t == WithJob(s, k, j.(logLines := j.logLines + n, lastHeartbeat := Some(now)))
            case Complete(code, text) =>
              EndedAs(s, k, j.(phase := if code == 0 then Completed else Failed, completedAt := Some(now),
                               exitCode := Some(code), reason := AgentMessage(text)), t)
  {
    hide Inv, EndedAs, EndJob;
    if call.Complete? {
      var j := s.jobs[k];
      EndJobExact(s, k, j.(phase := if call.code == 0 then Completed else Failed, completedAt := Some(now),
                           exitCode := Some(call.code), reason := AgentMessage(call.message)));
    }
  }

  /** Ending a job frees exactly the reservation it holds, if any. */
  lemma EndJobExact(s: State, k: string, j: Job)
    requires Inv(s) && k in s.jobs
    ensures EndedAs(s, k, j, EndJob(s, k, j))
  {
    hide HostsDistinct, NoOverflow, ActiveJobsHold, BusyHostsOn;
    forall h | h in s.reservations
      ensures s.reservations[h].activeJob == k ==> s.reservations[h].bmhRef == s.jobs[k].bmhRef != ""
    {
      if s.reservations[h].activeJob == k {
        assert Holds(s, h, k);
      }
    }
  }

  /** Calls from unknown addresses, and from hosts whose jobs have ended or were never started, change nothing. */
  lemma {:induction false} AgentIgnored(s: State, call: AgentCall, ip: string, now: int, t: State)
    requires AgentStep(s, call, ip, now, t)
    requires forall b, k | b in s.hosts && s.hosts[b].ip == ip && k in s.jobs && s.jobs[k].bmhRef == s.hosts[b].name ::
               s.jobs[k].phase != Provisioning && s.jobs[k].phase != Running
    ensures t == s
  {
    hide Answer;
  }

  // Requests.

  /** Cancelling ends exactly the jobs that have not ended, and frees their reservation. */
  lemma {:induction false} CancelExact(s: State, k: string, now: int)
    requires Inv(s)
    ensures var t := CancelJob(s, k, now);
            if k in s.jobs && s.jobs[k].phase in {Pending, Scheduling, Provisioning, Running}
            then EndedAs(s, k, s.jobs[k].(phase := Cancelled, completedAt := Some(now), reason := CancelledByUser), t)
            else t == s
  {
    hide Inv, EndedAs, EndJob;
    if k in s.jobs {
      EndJobExact(s, k, s.jobs[k].(phase := Cancelled, completedAt := Some(now), reason := CancelledByUser));
    }
  }

  /** A job is created once, pending, under its namespace and name, if it is complete and its pool has a runner. */
  lemma {:induction false} CreateJobExact(s: State, ns: string, name: string, pool: string, script: string,
                                          priority: int, timeout: int, created: int)
    ensures var k := ns + "/" + name;
            var t := CreateJob(s, ns, name, pool, script, priority, timeout, created);
            var served := exists rn | rn in s.runners :: s.runners[rn].pool == pool;
            if name != "" && pool != "" && script != "" && k !in s.jobs && served then
              && t == WithJob(s, k, t.jobs[k]) && DeleteJob(t, k) == s
              && t.jobs[k].phase == Pending && t.jobs[k].pool == pool && t.jobs[k].priority == priority
              && t.jobs[k].timeout == timeout && t.jobs[k].created == created && t.jobs[k].bmhRef == ""
              && t.jobs[k].completedAt == None && t.jobs[k].startedAt == None
              && CreateJob(t, ns, name, pool, script, priority, timeout, created) == t
            else t == s
  {
    var k, t := ns + "/" + name, CreateJob(s, ns, name, pool, script, priority, timeout, created);
    if t != s {
      assert t.jobs - {k} == s.jobs;
    }
  }

  /** Exactly the jobs that are not under way can be deleted. */
  lemma {:induction false} DeleteJobExact(s: State, k: string)
    ensures var t := DeleteJob(s, k);
            if k in s.jobs && s.jobs[k].phase in {Pending, Completed, Failed, TimedOut, Cancelled}
            then k !in t.jobs && t == s.(jobs := t.jobs) && forall j | j in s.jobs && j != k ::
              j in t.jobs && t.jobs[j] == s.jobs[j]
            else t == s
  {
  }

  /** A known host is reserved once, for any pool, under a new key; the reservation starts free. */
  lemma {:induction false} CreateReservationExact(s: State, ns: string, name: string, bmh: string, pool: string)
    ensures var h, v := ns + "/" + name, Reservation(bmh, pool, Active, "");
            var t := CreateReservation(s, ns, name, bmh, pool);
            var known := exists b | b in s.hosts :: s.hosts[b].name == bmh;
            var reserved := exists g | g in s.reservations :: s.reservations[g].bmhRef == bmh;
            if name != "" && bmh != "" && pool != "" && h !in s.reservations && known && !reserved then
              t == s.(reservations := s.reservations[h := v]) && DeleteReservation(t, h) == s
            else t == s
  {
    var h, t := ns + "/" + name, CreateReservation(s, ns, name, bmh, pool);
    if t != s {
      assert t.reservations - {h} == s.reservations;
    }
  }

  /** Exactly the reservations no job holds can be deleted. */
  lemma {:induction false} DeleteReservationExact(s: State, h: string)
    ensures var t := DeleteReservation(s, h);
            if h in s.reservations && s.reservations[h].activeJob == ""
            then h !in t.reservations && t == s.(reservations := t.reservations)
                 && forall g | g in s.reservations && g != h ::
                      g in t.reservations && t.reservations[g] == s.reservations[g]
            else t == s
  {
  }

  /** A runner with a name, a pool and a known boot configuration is created once, and starts Active. */
  lemma {:induction false} CreateRunnerExact(s: State, rn: string, r: Runner, known: bool)
    ensures var t := CreateRunner(s, rn, r, known);
            if rn != "" && rn !in s.runners && r.pool != "" && r.bootConfigRef != "" && known
            then t == s.(runners := s.runners[rn := r.(phase := RunnerActive)])
                 && ((forall k | k in s.jobs :: s.jobs[k].runnerRef != rn) ==> DeleteRunner(t, rn) == s)
            else t == s
  {
    var t := CreateRunner(s, rn, r, known);
    if t != s {
      assert t.runners - {rn} == s.runners;
    }
  }

  /** Exactly the runners without jobs under way can be deleted. */
  lemma {:induction false} DeleteRunnerExact(s: State, rn: string)
    ensures var t := DeleteRunner(s, rn);
            var busy := exists k | k in s.jobs ::
                          s.jobs[k].runnerRef == rn && s.jobs[k].phase in {Scheduling, Provisioning, Running};
            if rn in s.runners && !busy
            then rn !in t.runners && t == s.(runners := t.runners) && forall r | r in s.runners && r != rn ::
              r in t.runners && t.runners[r] == s.runners[r]
            else t == s
  {
  }

  // The end of a tick.

  predicate Unfinished(j: Job) {
    j.phase in {Pending, Scheduling, Provisioning, Running}
  }

  /** A host that pool's reservations hold for no job. */
  ghost predicate FreeFor(t: State, pool: string, name: string) {
    exists h | h in t.reservations ::
      t.reservations[h].pool == pool && t.reservations[h].bmhRef == name && t.reservations[h].activeJob == ""
  }

  /** Nothing of the pool is left to do, and its last job ended at least that long ago. */
  ghost predicate QuietFor(t: State, pool: string, now: int, idle: int) {
    && (forall k | k in t.jobs && t.jobs[k].pool == pool :: !Unfinished(t.jobs[k]))
    && (exists k | k in t.jobs :: t.jobs[k].pool == pool && t.jobs[k].completedAt.Some?)
    && (forall k | k in t.jobs && t.jobs[k].pool == pool && t.jobs[k].completedAt.Some? ::
          now - t.jobs[k].completedAt.value >= idle)
  }

  ghost predicate OnDuty(t: State, now: int, name: string) {
    exists rn | rn in t.runners :: t.runners[rn].onDuty(now) && FreeFor(t, t.runners[rn].pool, name)
  }

  ghost predicate Reclaimed(t: State, now: int, name: string) {
    exists rn | rn in t.runners ::
      var r := t.runners[rn];
      && r.idleTimeout > 0 && !r.retain && !r.onDuty(now) && FreeFor(t, r.pool, name)
      && QuietFor(t, r.pool, now, r.idleTimeout)
  }

  /**
   * After a tick, a host is on exactly if a pool on duty has it free, or it was on after the pass and no pool that
   * has been quiet for its idle timeout has it free; all said of what the tick leaves. Nothing else of it changes.
   */
  lemma {:induction false} TickPower(s: State, now: int, mid: State, b: string)
    requires Inv(s) && SchedulingPass(s, mid) && b in mid.hosts
    ensures var t := AfterPass(mid, now);
            && b in t.hosts && t.runners == mid.runners
            && t.hosts[b] == mid.hosts[b].(online := t.hosts[b].online)
            && (t.hosts[b].online <==> OnDuty(t, now, mid.hosts[b].name)
                                       || (mid.hosts[b].online && !Reclaimed(t, now, mid.hosts[b].name)))
  {
    hide *;
    PassKeeps(s, mid);
    var t := AfterPass(mid, now);
    PowerIs(mid, now, b);
    SameReclaims(t, now, mid.hosts[b].name);
  }

  lemma PowerIs(mid: State, now: int, b: string)
    requires b in mid.hosts
    ensures var t := AfterPass(mid, now);
            var name := mid.hosts[b].name;
            && b in t.hosts && t.runners == mid.runners
            && t.hosts[b] == mid.hosts[b].(online := SwitchedOn(t, t.runners.Keys, now, name)
                                                     || (mid.hosts[b].online
                                                         && !SwitchedOff(t, t.runners.Keys, now, name)))
  {
    hide Timeouts, SwitchedOn, SwitchedOff, PowerOff, PowerOn;
    var x := Timeouts(mid, CheckProvisioning, now);
    var y := Timeouts(x, CheckRunning, now);
    var c := Timeouts(y, CheckHeartbeat, now);
    TimeoutsLeave(mid, CheckProvisioning, now);
    TimeoutsLeave(x, CheckRunning, now);
    TimeoutsLeave(y, CheckHeartbeat, now);
    var d := PowerOff(c, now, c.runners.Keys);
    PowerSwitches(c, now, b);
    PowerSwitches(d, now, b);
    SwitchesSame(c, PowerOn(d, now, d.runners.Keys), now, mid.hosts[b].name);
    SwitchesSame(d, PowerOn(d, now, d.runners.Keys), now, mid.hosts[b].name);
  }

  lemma TimeoutsLeave(s: State, c: Check, now: int)
    ensures Timeouts(s, c, now).hosts == s.hosts && Timeouts(s, c, now).runners == s.runners
  {
  }

  lemma PowerSwitches(c: State, now: int, b: string)
    requires b in c.hosts
    ensures var d, on, off, h := PowerOff(c, now, c.runners.Keys), PowerOn(c, now, c.runners.Keys),
                                 SwitchedOff(c, c.runners.Keys, now, c.hosts[b].name), c.hosts[b];
            && d == c.(hosts := d.hosts) && b in d.hosts && d.hosts[b] == h.(online := h.online && !off)
            && on == c.(hosts := on.hosts) && b in on.hosts
            && on.hosts[b] == h.(online := h.online || SwitchedOn(c, c.runners.Keys, now, h.name))
  {
    hide SwitchedOn, SwitchedOff;
  }

  lemma SwitchesSame(c: State, t: State, now: int, name: string)
    requires t == c.(hosts := t.hosts)
    ensures SwitchedOn(t, t.runners.Keys, now, name) == SwitchedOn(c, c.runners.Keys, now, name)
    ensures SwitchedOff(t, t.runners.Keys, now, name) == SwitchedOff(c, c.runners.Keys, now, name)
  {
    hide IdleLongEnough, HasWork;
    assert forall pool, idle :: IdleLongEnough(t, pool, now, idle) == IdleLongEnough(c, pool, now, idle) by {
      SameIdle(c, t, now);
    }
    assert forall pool :: HasWork(t, pool) == HasWork(c, pool) by {
      SameIdle(c, t, now);
    }
  }

  lemma SameIdle(c: State, t: State, now: int)
    requires t.jobs == c.jobs
    ensures forall pool, idle :: IdleLongEnough(t, pool, now, idle) == IdleLongEnough(c, pool, now, idle)
    ensures forall pool :: HasWork(t, pool) == HasWork(c, pool)
  {
  }

  lemma SameReclaims(t: State, now: int, name: string)
    ensures SwitchedOn(t, t.runners.Keys, now, name) == OnDuty(t, now, name)
    ensures SwitchedOff(t, t.runners.Keys, now, name) == Reclaimed(t, now, name)
  {
    hide IdleLongEnough, HasWork, QuietFor, FreeHostOf, FreeFor;
    forall rn | rn in t.runners
      ensures FreeHostOf(t, t.runners[rn].pool, name) == FreeFor(t, t.runners[rn].pool, name)
      ensures !HasWork(t, t.runners[rn].pool) && IdleLongEnough(t, t.runners[rn].pool, now, t.runners[rn].idleTimeout)
              <==> QuietFor(t, t.runners[rn].pool, now, t.runners[rn].idleTimeout)
    {
      SameFree(t, t.runners[rn].pool, name);
      SameQuiet(t, t.runners[rn].pool, now, t.runners[rn].idleTimeout);
    }
  }

  lemma SameFree(t: State, pool: string, name: string)
    ensures FreeHostOf(t, pool, name) == FreeFor(t, pool, name)
  {
  }

  lemma SameQuiet(t: State, pool: string, now: int, idle: int)
    ensures !HasWork(t, pool) && IdleLongEnough(t, pool, now, idle) <==> QuietFor(t, pool, now, idle)
  {
  }

  /** A reservation is free after a tick exactly if it was free after the pass or the tick ended its job. */
  lemma {:induction false} TickReleases(s: State, now: int, mid: State, h: string)
    requires Inv(s) && SchedulingPass(s, mid) && h in mid.reservations
    ensures var t, k := AfterPass(mid, now), mid.reservations[h].activeJob;
            && t.reservations.Keys == mid.reservations.Keys
            && t.reservations[h] == if k in mid.jobs && k in t.jobs && t.jobs[k] != mid.jobs[k]
                                    then mid.reservations[h].(activeJob := "") else mid.reservations[h]
  {
    hide *;
    PassKeeps(s, mid);
    ReleasesAfter(mid, now, h);
  }

  lemma ReleasesAfter(mid: State, now: int, h: string)
    requires Inv(mid) && h in mid.reservations
    ensures var t, k := AfterPass(mid, now), mid.reservations[h].activeJob;
            && t.reservations.Keys == mid.reservations.Keys
            && t.reservations[h] == if k in mid.jobs && k in t.jobs && t.jobs[k] != mid.jobs[k]
                                    then mid.reservations[h].(activeJob := "") else mid.reservations[h]
  {
    hide Timeouts, Inv, Overdue, Expire;
    var x := Timeouts(mid, CheckProvisioning, now);
    var y := Timeouts(x, CheckRunning, now);
    var z := Timeouts(y, CheckHeartbeat, now);
    TimeoutsKeeps(mid, CheckProvisioning, now);
    TimeoutsKeeps(x, CheckRunning, now);
    TimeoutReleases(mid, CheckProvisioning, now, h);
    TimeoutReleases(x, CheckRunning, now, h);
    TimeoutReleases(y, CheckHeartbeat, now, h);
    KeysSettled(mid);
    var k, t := mid.reservations[h].activeJob, AfterPass(mid, now);
    assert t.jobs == z.jobs && t.reservations == z.reservations;
    if k in mid.jobs {
      JobEndsOnce(mid, x, y, z, k, now);
    }
  }

  lemma JobEndsOnce(mid: State, x: State, y: State, z: State, k: string, now: int)
    requires k in mid.jobs && x == Timeouts(mid, CheckProvisioning, now) && y == Timeouts(x, CheckRunning, now)
    requires z == Timeouts(y, CheckHeartbeat, now)
    ensures k in x.jobs && k in y.jobs && k in z.jobs
    ensures x.jobs[k] != mid.jobs[k] ==> y.jobs[k] == x.jobs[k] && z.jobs[k] == y.jobs[k]
    ensures y.jobs[k] != x.jobs[k] ==> z.jobs[k] == y.jobs[k] && y.jobs[k] != mid.jobs[k]
    ensures z.jobs[k] != mid.jobs[k] <==> x.jobs[k] != mid.jobs[k] || y.jobs[k] != x.jobs[k] || z.jobs[k] != y.jobs[k]
  {
  }

  lemma KeysSettled(s: State)
    requires Inv(s)
    ensures "" !in s.jobs
  {
    hide HostsDistinct, ReservationsOk, ActiveJobsHold, HoldersActive, BusyHostsOn, NoOverflow;
  }

  lemma TimeoutReleases(s: State, c: Check, now: int, h: string)
    requires Inv(s) && h in s.reservations
    ensures var t, k := Timeouts(s, c, now), s.reservations[h].activeJob;
            && t.reservations.Keys == s.reservations.Keys && t.jobs.Keys == s.jobs.Keys
            && (k in s.jobs && t.jobs[k] != s.jobs[k] ==> t.jobs[k].IsTerminal())
            && (k in s.jobs && s.jobs[k].IsTerminal() ==> t.jobs[k] == s.jobs[k])
            && t.reservations[h] == if k in s.jobs && t.jobs[k] != s.jobs[k]
                                    then s.reservations[h].(activeJob := "") else s.reservations[h]
  {
    hide HostsDistinct, ActiveJobsHold, BusyHostsOn, NoOverflow, JobsSettled;
    var k := s.reservations[h].activeJob;
    if k != "" {
      assert Holds(s, h, k);
    }
  }
}
