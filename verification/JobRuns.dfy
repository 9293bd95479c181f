/** What holds over whole runs of the scheduler, its agents and its users. */
module JobRuns {
  import opened JobState
  import opened JobInvariant

  /** No host ever carries two active jobs. */
  lemma {:induction false} RunExclusive(actions: seq<Action>, states: seq<State>, n: nat, a: string, b: string)
    requires Run(actions, states) && n <= |actions| && a in states[n].jobs && b in states[n].jobs
    requires states[n].jobs[a].IsActive() && states[n].jobs[b].IsActive()
             && states[n].jobs[a].bmhRef == states[n].jobs[b].bmhRef
    ensures a == b
  {
    hide Inv, Step;
    RunKeeps(actions, states, n);
    NoSharedHost(states[n], a, b);
  }

  /** The host of a job is on from the tick that schedules the job until the job ends. */
  lemma {:induction false} RunOnline(actions: seq<Action>, states: seq<State>, n: nat, k: string) returns (b: string)
    requires Run(actions, states) && n <= |actions| && k in states[n].jobs && states[n].jobs[k].IsActive()
    ensures b in states[n].hosts && states[n].hosts[b].name == states[n].jobs[k].bmhRef && states[n].hosts[b].online
  {
    hide Inv, Step;
    RunKeeps(actions, states, n);
    b := ActiveJobOnline(states[n], k);
  }

  // Time limits.

  ghost predicate WithinLimits(j: Job, now: int) {
    && (j.phase == Provisioning ==> now - j.created <= PROVISIONING_TIMEOUT)
    && (j.phase == Running ==> j.startedAt.Some? && j.lastHeartbeat.Some?
                               && (j.timeout > 0 ==> now - j.startedAt.value <= j.timeout)
                               && now - j.lastHeartbeat.value <= HEARTBEAT_TIMEOUT)
  }

  function AllChecks(j: Job, now: int): Job {
    var a := if ProvisioningExpired(j, now) then Expire(CheckProvisioning, j, now) else j;
    var b := if RunExpired(a, now) then Expire(CheckRunning, a, now) else a;
    if HeartbeatExpired(b, now) then Expire(CheckHeartbeat, b, now) else b
  }

  lemma AfterPassJobs(s: State, now: int)
    ensures AfterPass(s, now).jobs.Keys == s.jobs.Keys
    ensures forall k | k in s.jobs :: AfterPass(s, now).jobs[k] == AllChecks(s.jobs[k], now)
  {
    hide Expire, SwitchedOff, SwitchedOn;
  }

  /** After a tick every job still going is within its limits, and a job the tick ended holds no reservation. */
  lemma {:induction false} TickTimes(s: State, now: int, t: State, k: string)
    requires Inv(s) && Tick(s, now, t) && k in t.jobs
    ensures WithinLimits(t.jobs[k], now)
    ensures t.jobs[k].IsTerminal() ==> forall h | h in t.reservations :: t.reservations[h].activeJob != k
  {
    hide SchedulingPass, AfterPass, HostsDistinct, ReservationsOk, ActiveJobsHold, BusyHostsOn, NoOverflow;
    TickKeeps(s, now, t);
    var mid :| SchedulingPass(s, mid) && t == AfterPass(mid, now);
    PassKeeps(s, mid);
    AfterPassJobs(mid, now);
    assert mid.jobs[k].phase == Running ==> mid.jobs[k].startedAt.Some? && mid.jobs[k].lastHeartbeat.Some?;
    assert k != "";
  }

  /** A job that is going when a tick starts survives it, untouched, exactly while its times are within the limits. */
  lemma {:induction false} GoingSurvivesIff(s: State, now: int, t: State, k: string)
    requires Inv(s) && Tick(s, now, t) && k in s.jobs
    requires s.jobs[k].phase == Provisioning || s.jobs[k].phase == Running
    ensures var j := s.jobs[k];
            && k in t.jobs
            && (j.phase == Provisioning ==> (t.jobs[k] == j <==> now - j.created <= 600))
            && (j.phase == Running ==>
                  && j.startedAt.Some? && j.lastHeartbeat.Some?
                  && (t.jobs[k] == j <==> (j.timeout > 0 ==> now - j.startedAt.value <= j.timeout)
                                          && now - j.lastHeartbeat.value <= 90))
  {
    hide SchedulingPass, AfterPass, Inv;
    var mid :| SchedulingPass(s, mid) && t == AfterPass(mid, now);
    PassJobs(s, mid, k);
    AfterPassJobs(mid, now);
    RunningHasTimes(s, k);
  }

  /** Otherwise the tick ends it, the run limit before the heartbeat, and changes nothing else of it. */
  lemma {:induction false} GoingEnds(s: State, now: int, t: State, k: string)
    requires Inv(s) && Tick(s, now, t) && k in s.jobs
    requires s.jobs[k].phase == Provisioning || s.jobs[k].phase == Running
    ensures var j := s.jobs[k];
            && k in t.jobs
            && (t.jobs[k] != j ==>
                  && t.jobs[k].completedAt == Some(now)
                  && t.jobs[k].(phase := j.phase, completedAt := j.completedAt, reason := j.reason) == j
                  && (j.phase == Provisioning ==>
                        t.jobs[k].phase == Failed && t.jobs[k].reason == ProvisioningTimeout)
                  && (j.phase == Running ==>
                        j.startedAt.Some?
                        && if j.timeout > 0 && now - j.startedAt.value > j.timeout
                        then t.jobs[k].phase == TimedOut && t.jobs[k].reason == RunTimeout(j.timeout)
                        else t.jobs[k].phase == Failed && t.jobs[k].reason == HeartbeatTimeout))
  {
    hide SchedulingPass, AfterPass, Inv;
    var mid :| SchedulingPass(s, mid) && t == AfterPass(mid, now);
    PassJobs(s, mid, k);
    AfterPassJobs(mid, now);
    RunningHasTimes(s, k);
  }

  lemma RunningHasTimes(s: State, k: string)
    requires Inv(s) && k in s.jobs
    ensures s.jobs[k].phase == Running ==> s.jobs[k].startedAt.Some? && s.jobs[k].lastHeartbeat.Some?
  {
    hide HostsDistinct, ReservationsOk, ActiveJobsHold, HoldersActive, BusyHostsOn, NoOverflow;
  }

  /**
   * The provisioning clock starts at creation: a pending job that a tick schedules is still provisioning after that
   * tick exactly when it had not waited longer than the limit, and else has failed.
   */
  lemma {:induction false} ScheduledSurvivesIff(s: State, now: int, mid: State, k: string)
    requires Inv(s) && SchedulingPass(s, mid) && k in s.jobs && s.jobs[k].phase == Pending
    requires k in mid.jobs && mid.jobs[k].phase != Pending
    ensures var t := AfterPass(mid, now);
            && Tick(s, now, t) && k in t.jobs
            && (t.jobs[k].phase == Provisioning <==> now - s.jobs[k].created <= PROVISIONING_TIMEOUT)
            && (t.jobs[k].phase == Provisioning
               || (t.jobs[k].phase == Failed && t.jobs[k].reason == ProvisioningTimeout))
  {
    hide SchedulingPass, AfterPass, Inv;
    PassJobs(s, mid, k);
    AfterPassJobs(mid, now);
  }

  /** So whatever the tick does with it, a job that has waited too long is not provisioning afterwards. */
  lemma {:induction false} OverdueJobsNeverStart(s: State, now: int, t: State, k: string)
    requires Inv(s) && Tick(s, now, t) && k in s.jobs && s.jobs[k].phase == Pending
             && now - s.jobs[k].created > PROVISIONING_TIMEOUT
    ensures k in t.jobs && (t.jobs[k] == s.jobs[k]
            || (t.jobs[k].phase == Failed && t.jobs[k].reason == ProvisioningTimeout))
  {
    hide SchedulingPass, AfterPass, Inv;
    var mid :| SchedulingPass(s, mid) && t == AfterPass(mid, now);
    PassJobs(s, mid, k);
    AfterPassJobs(mid, now);
  }

  /** What a pass does to one job: nothing, or it provisions a pending one. */
  ghost predicate PassedJob(a: Job, b: Job) {
    b == a || (a.phase == Pending
      && b == a.(phase := Provisioning, runnerRef := b.runnerRef, bmhRef := b.bmhRef, hostIP := b.hostIP))
  }

  lemma PassJobs(s: State, t: State, k: string)
    requires Inv(s) && SchedulingPass(s, t) && k in s.jobs
    ensures t.jobs.Keys == s.jobs.Keys && PassedJob(s.jobs[k], t.jobs[k])
  {
    hide Inv, QueueOrder, ScheduleOne;
    var order, states :| QueueOrder(s, order) && PassTrace(order, states) && states[0] == s && states[|order|] == t;
    TraceJobs(order, states, |order|, k);
  }

  lemma {:induction false} TraceJobs(order: seq<string>, states: seq<State>, n: nat, k: string)
    requires PassTrace(order, states) && QueueOrder(states[0], order) && Inv(states[0]) && n <= |order|
             && k in states[0].jobs
    ensures states[n].jobs.Keys == states[0].jobs.Keys && PassedJob(states[0].jobs[k], states[n].jobs[k])
  {
    hide Inv, QueueOrder, ScheduleOne, PassedJob;
    PassedSelf(states[0].jobs[k]);
    if n > 0 {
      TraceJobs(order, states, n - 1, k);
      TraceKeeps(order, states, n - 1);
      TurnIsPending(order, states, n - 1);
      OneJob(states[n - 1], order[n - 1], states[n], k);
    }
  }

  lemma PassedSelf(j: Job)
    ensures PassedJob(j, j)
  {
  }

  lemma TurnIsPending(order: seq<string>, states: seq<State>, i: nat)
    requires PassTrace(order, states) && QueueOrder(states[0], order) && Inv(states[0]) && i < |order|
    ensures Inv(states[i]) && order[i] in states[i].jobs && order[i] in states[0].jobs
    ensures states[i].jobs[order[i]] == states[0].jobs[order[i]] && states[i].jobs[order[i]].phase == Pending
    ensures ScheduleOne(states[i], order[i], states[i + 1])
  {
    hide Inv, ScheduleOne, NotAfter;
    assert order[i] in PendingKeys(states[0]);
    TraceKeeps(order, states, i);
    assert order[i] !in order[..i];
  }

  lemma OneJob(s: State, k: string, t: State, j: string)
    requires Inv(s) && k in s.jobs && s.jobs[k].phase == Pending && ScheduleOne(s, k, t) && j in s.jobs
    ensures t.jobs.Keys == s.jobs.Keys && PassedJob(s.jobs[j], t.jobs[j]) && (j != k ==> t.jobs[j] == s.jobs[j])
  {
    hide ScheduleOne, HostsDistinct, ReservationsOk, ActiveJobsHold, HoldersActive, BusyHostsOn;
    if t != s {
      var rn, h, ip := Assigned(s, k, t);
    }
  }

  // Phases only advance.

  function Rank(p: Phase): nat {
    match p
    case Pending => 0
    case Scheduling => 1
    case Provisioning => 2
    case Running => 3
    case _ => 4
  }

  /** The job has not gone back a phase, and is unchanged if it had ended. */
  predicate Advances(a: Job, b: Job) {
    Rank(a.phase) <= Rank(b.phase) && (a.IsTerminal() ==> b == a)
  }

  lemma {:induction false} StepAdvances(s: State, a: Action, t: State, k: string)
    requires Inv(s) && Step(s, a, t) && k in s.jobs && k in t.jobs
    ensures Advances(s.jobs[k], t.jobs[k])
  {
    hide Inv, Tick, AgentStep, Release;
    match a
    case DoTick(now) => TickAdvances(s, now, t, k);
    case DoAgent(call, ip, now) => AgentAdvances(s, call, ip, now, t, k);
    case _ =>
  }

  lemma TickAdvances(s: State, now: int, t: State, k: string)
    requires Inv(s) && Tick(s, now, t) && k in s.jobs
    ensures k in t.jobs && Advances(s.jobs[k], t.jobs[k])
  {
    hide SchedulingPass, AfterPass, Inv;
    var mid :| SchedulingPass(s, mid) && t == AfterPass(mid, now);
    PassJobs(s, mid, k);
    AfterPassJobs(mid, now);
  }

  lemma AgentAdvances(s: State, call: AgentCall, ip: string, now: int, t: State, k: string)
    requires AgentStep(s, call, ip, now, t) && k in s.jobs
    ensures k in t.jobs && Advances(s.jobs[k], t.jobs[k])
  {
    hide Answer;
    if t != s {
      var b :| HostHasIP(s, b, ip) && AgentOnHost(s, call, s.hosts[b].name, now, t);
      var j :| j in s.jobs && Finds(call, s.jobs[j], s.hosts[b].name) && t == Answer(call, s, j, now);
      AnswerAdvances(s, call, j, now, k);
    }
  }

  lemma AnswerAdvances(s: State, call: AgentCall, j: string, now: int, k: string)
    requires j in s.jobs && Finds(call, s.jobs[j], s.jobs[j].bmhRef) && k in s.jobs
    ensures k in Answer(call, s, j, now).jobs && Advances(s.jobs[k], Answer(call, s, j, now).jobs[k])
  {
    hide Release;
  }

  lemma RunStep(actions: seq<Action>, states: seq<State>, i: nat)
    requires Run(actions, states) && i < |actions|
    ensures |states| == |actions| + 1 && Step(states[i], actions[i], states[i + 1])
  {
    hide Step;
  }

  /** Between any two moments of a run through which a job exists, its phase has only advanced. */
  lemma {:induction false} RunAdvances(actions: seq<Action>, states: seq<State>, i: nat, j: nat, k: string)
    requires Run(actions, states) && i <= j <= |actions|
    requires forall n | i <= n <= j :: k in states[n].jobs
    ensures Advances(states[i].jobs[k], states[j].jobs[k])
    decreases j - i
  {
    hide Inv, Step, Run;
    if i < j {
      RunAdvances(actions, states, i, j - 1, k);
      RunKeeps(actions, states, j - 1);
      RunStep(actions, states, j - 1);
      StepAdvances(states[j - 1], actions[j - 1], states[j], k);
    }
  }

  // Agents find at most one job.

  /** Whatever order the maps are walked in, an agent call has the same effect. */
  lemma {:induction false} AgentDeterministic(s: State, call: AgentCall, ip: string, now: int, t: State, u: State)
    requires Inv(s) && ip != "" && AgentStep(s, call, ip, now, t) && AgentStep(s, call, ip, now, u)
    ensures t == u
  {
    hide Answer, ReservationsOk, JobsSettled, ActiveJobsHold, HoldersActive, BusyHostsOn, NoOverflow;
    if exists b :: HostHasIP(s, b, ip) {
      var b :| HostHasIP(s, b, ip) && AgentOnHost(s, call, s.hosts[b].name, now, t);
      var c :| HostHasIP(s, c, ip) && AgentOnHost(s, call, s.hosts[c].name, now, u);
      assert b == c;
      if exists k | k in s.jobs :: Finds(call, s.jobs[k], s.hosts[b].name) {
        var k :| k in s.jobs && Finds(call, s.jobs[k], s.hosts[b].name) && t == Answer(call, s, k, now);
        var l :| l in s.jobs && Finds(call, s.jobs[l], s.hosts[b].name) && u == Answer(call, s, l, now);
        OneCandidate(s, call, s.hosts[b].name, k, l);
      }
    }
  }

  lemma {:induction false} OneCandidate(s: State, call: AgentCall, bmh: string, k: string, l: string)
    requires Inv(s) && k in s.jobs && l in s.jobs && Finds(call, s.jobs[k], bmh) && Finds(call, s.jobs[l], bmh)
    ensures k == l
  {
    hide Inv;
    NoSharedHost(s, k, l);
  }
}
