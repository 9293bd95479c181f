/** Jobs, reservations, runners and hosts, and what each handler and each scheduler pass does to them. */
module JobState {
  datatype Option<+T> = None | Some(value: T)

  datatype Phase = Pending | Scheduling | Provisioning | Running | Completed | Failed | TimedOut | Cancelled

  datatype Reason = NoReason | ProvisioningTimeout | RunTimeout(limit: int) | HeartbeatTimeout | CancelledByUser
    | AgentMessage(text: string)

  // Times are whole seconds; a time the code stores as "" is None.
  datatype Job = Job(pool: string, priority: int, timeout: int, created: int,
                     phase: Phase, bmhRef: string, runnerRef: string, hostIP: string,
                     startedAt: Option<int>, completedAt: Option<int>, exitCode: Option<int>, reason: Reason,
                     logLines: nat, lastHeartbeat: Option<int>)
  {
    predicate IsActive() {
      phase == Scheduling || phase == Provisioning || phase == Running
    }

    predicate IsTerminal() {
      phase == Completed || phase == Failed || phase == TimedOut || phase == Cancelled
    }
  }

  datatype ReservationPhase = Active | Expired | Released

  // activeJob is the key of the job that holds the host, "" when none does.
  datatype Reservation = Reservation(bmhRef: string, pool: string, phase: ReservationPhase, activeJob: string)

  datatype RunnerPhase = RunnerActive | RunnerSuspended

  // onDuty is the work schedule as a function of the clock; a runner without a schedule is never on duty.
  datatype Runner = Runner(pool: string, bootConfigRef: string, image: string, idleTimeout: int, retain: bool,
                           allowOverflow: bool, maxConcurrent: int, onDuty: int -> bool, phase: RunnerPhase)

  datatype Host = Host(name: string, ip: string, bootConfigRef: string, image: string, online: bool)

  datatype State = State(jobs: map<string, Job>, reservations: map<string, Reservation>,
                         runners: map<string, Runner>, hosts: map<string, Host>)

  const PROVISIONING_TIMEOUT := 600
  const HEARTBEAT_TIMEOUT := 90

  function Key(ns: string, name: string): (k: string)
    ensures k != ""
  {
    ns + "/" + name
  }

  // Ending a job.

  /** Clears the job from the reservation of its host. */
  function Release(rs: map<string, Reservation>, bmh: string, k: string): map<string, Reservation> {
    if bmh == "" then rs
    else map h | h in rs :: if rs[h].bmhRef == bmh && rs[h].activeJob == k then rs[h].(activeJob := "") else rs[h]
  }

  function Ended(j: Job, phase: Phase, now: int, reason: Reason): Job {
    j.(phase := phase, completedAt := Some(now), reason := reason)
  }

  function EndJob(s: State, k: string, j: Job): State
    requires k in s.jobs
  {
    s.(jobs := s.jobs[k := j], reservations := Release(s.reservations, s.jobs[k].bmhRef, k))
  }

  // Scheduling one pending job.

  predicate ServesPool(r: Runner, pool: string) {
    r.pool == pool && r.phase == RunnerActive
  }

  function ActiveIn(s: State, pool: string): set<string> {
    set k | k in s.jobs && s.jobs[k].pool == pool && s.jobs[k].IsActive()
  }

  predicate AtCapacity(s: State, r: Runner) {
    r.maxConcurrent > 0 && |ActiveIn(s, r.pool)| >= r.maxConcurrent
  }

  /** The free reservations of a pool. */
  function FreeIn(s: State, pool: string): set<string> {
    set h | h in s.reservations && s.reservations[h].pool == pool && s.reservations[h].activeJob == ""
            && s.reservations[h].phase == Active
  }

  predicate Reserved(s: State, bmh: string) {
    exists h | h in s.reservations :: s.reservations[h].bmhRef == bmh
  }

  /** A host the search may return: of a free reservation, else, with overflow, an unreserved one. */
  predicate Available(s: State, pool: string, overflow: bool, bmh: string) {
    if FreeIn(s, pool) != {} then exists h | h in FreeIn(s, pool) :: s.reservations[h].bmhRef == bmh
    else overflow && exists b | b in s.hosts :: s.hosts[b].name == bmh && !Reserved(s, bmh)
  }

  function Configured(b: Host, r: Runner): Host {
    b.(bootConfigRef := r.bootConfigRef, image := if r.image != "" then r.image else b.image, online := true)
  }

  /** The host that gets the job is configured and switched on, its reservation is marked, the job provisions. */
  function Assign(s: State, k: string, rn: string, bmh: string, ip: string): State
    requires k in s.jobs && rn in s.runners
  {
    s.(jobs := s.jobs[k := s.jobs[k].(phase := Provisioning, runnerRef := rn, bmhRef := bmh, hostIP := ip)],
       reservations := map h | h in s.reservations ::
         if s.reservations[h].bmhRef == bmh then s.reservations[h].(activeJob := k) else s.reservations[h],
       hosts := map b | b in s.hosts ::
         if s.hosts[b].name == bmh then Configured(s.hosts[b], s.runners[rn]) else s.hosts[b])
  }

  predicate HostAddress(s: State, bmh: string, before: string, ip: string) {
    if exists b | b in s.hosts :: s.hosts[b].name == bmh then exists b | b in s.hosts ::
      s.hosts[b].name == bmh && s.hosts[b].ip == ip
    else ip == before
  }

  /** The loop body of schedulePendingJobs with runner rn: skip at capacity or without a host, else assign one. */
  ghost predicate ScheduleWith(s: State, k: string, rn: string, t: State)
    requires k in s.jobs && rn in s.runners
  {
    var r := s.runners[rn];
    if AtCapacity(s, r) then t == s
    else if !(exists bmh :: Available(s, s.jobs[k].pool, r.allowOverflow, bmh)) then t == s
    else exists bmh, ip ::
      Available(s, s.jobs[k].pool, r.allowOverflow, bmh) && HostAddress(s, bmh, s.jobs[k].hostIP, ip)
      && t == if bmh == "" then s else Assign(s, k, rn, bmh, ip)
  }

  /** The loop body for one job: any Active runner of its pool may be found, or none exists. */
  ghost predicate ScheduleOne(s: State, k: string, t: State)
    requires k in s.jobs
  {
    if exists rn | rn in s.runners :: ServesPool(s.runners[rn], s.jobs[k].pool)
    then exists rn | rn in s.runners :: ServesPool(s.runners[rn], s.jobs[k].pool) && ScheduleWith(s, k, rn, t)
    else t == s
  }

  // The pass over all pending jobs, in the order of the queue.

  function PendingKeys(s: State): set<string> {
    set k | k in s.jobs && s.jobs[k].phase == Pending
  }

  /** Higher priority first, then older first; equal jobs may come in either order. */
  predicate NotAfter(a: Job, b: Job) {
    a.priority > b.priority || (a.priority == b.priority && a.created <= b.created)
  }

  ghost predicate QueueOrder(s: State, order: seq<string>) {
    && (forall k :: k in order <==> k in PendingKeys(s))
    && (forall i, j | 0 <= i < j < |order| :: order[i] != order[j])
    && (forall i, j | 0 <= i < j < |order| ::
       order[i] in s.jobs && order[j] in s.jobs && NotAfter(s.jobs[order[i]], s.jobs[order[j]]))
  }

  ghost predicate PassTrace(order: seq<string>, states: seq<State>) {
    && |states| == |order| + 1
    && forall i | 0 <= i < |order| :: order[i] in states[i].jobs && ScheduleOne(states[i], order[i], states[i + 1])
  }

  ghost predicate SchedulingPass(s: State, t: State) {
    exists order, states :: QueueOrder(s, order) && PassTrace(order, states) && states[0] == s && states[|order|] == t
  }

  // The timeout checks.

  predicate ProvisioningExpired(j: Job, now: int) {
    j.phase == Provisioning && now - j.created > PROVISIONING_TIMEOUT
  }

  predicate RunExpired(j: Job, now: int) {
    j.phase == Running && j.timeout > 0 && j.startedAt.Some? && now - j.startedAt.value > j.timeout
  }

  predicate HeartbeatExpired(j: Job, now: int) {
    j.phase == Running && j.lastHeartbeat.Some? && now - j.lastHeartbeat.value > HEARTBEAT_TIMEOUT
  }

  datatype Check = CheckProvisioning | CheckRunning | CheckHeartbeat

  predicate Overdue(c: Check, j: Job, now: int) {
    match c
    case CheckProvisioning => ProvisioningExpired(j, now)
    case CheckRunning => RunExpired(j, now)
    case CheckHeartbeat => HeartbeatExpired(j, now)
  }

  function Expire(c: Check, j: Job, now: int): Job {
    match c
    case CheckProvisioning => Ended(j, Failed, now, ProvisioningTimeout)
    case CheckRunning => Ended(j, TimedOut, now, RunTimeout(j.timeout))
    case CheckHeartbeat => Ended(j, Failed, now, HeartbeatTimeout)
  }

  function ExpiredKeys(s: State, c: Check, now: int): set<string> {
    set k | k in s.jobs && Overdue(c, s.jobs[k], now)
  }

  /** All the jobs of ks ended by the check, and released from their hosts. */
  function ExpireAll(s: State, c: Check, now: int, ks: set<string>): State {
    s.(jobs := map k | k in s.jobs :: if k in ks then Expire(c, s.jobs[k], now) else s.jobs[k],
       reservations := map h | h in s.reservations ::
         var k := s.reservations[h].activeJob;
         if k in ks && k in s.jobs && s.jobs[k].bmhRef != "" && s.jobs[k].bmhRef == s.reservations[h].bmhRef
         then s.reservations[h].(activeJob := "") else s.reservations[h])
  }

  function Timeouts(s: State, c: Check, now: int): State {
    ExpireAll(s, c, now, ExpiredKeys(s, c, now))
  }

  // Power.

  predicate HasWork(s: State, pool: string) {
    exists k | k in s.jobs :: s.jobs[k].pool == pool && (s.jobs[k].phase == Pending || s.jobs[k].IsActive())
  }

  predicate CompletedIn(j: Job, pool: string) {
    j.pool == pool && j.IsTerminal() && j.completedAt.Some?
  }

  /** Some job of the pool has completed, and none since the idle timeout began. */
  predicate IdleLongEnough(s: State, pool: string, now: int, idle: int) {
    && (exists k | k in s.jobs :: CompletedIn(s.jobs[k], pool))
    && (forall k | k in s.jobs && CompletedIn(s.jobs[k], pool) :: now - s.jobs[k].completedAt.value >= idle)
  }

  predicate ReclaimsNow(s: State, r: Runner, now: int) {
    && r.idleTimeout > 0 && !r.retain && !r.onDuty(now)
    && !HasWork(s, r.pool) && IdleLongEnough(s, r.pool, now, r.idleTimeout)
  }

  predicate FreeHostOf(s: State, pool: string, name: string) {
    exists h | h in s.reservations ::
      s.reservations[h].pool == pool && s.reservations[h].activeJob == "" && s.reservations[h].bmhRef == name
  }

  predicate SwitchedOff(s: State, rns: set<string>, now: int, name: string) {
    exists rn | rn in rns && rn in s.runners ::
      ReclaimsNow(s, s.runners[rn], now) && FreeHostOf(s, s.runners[rn].pool, name)
  }

  predicate SwitchedOn(s: State, rns: set<string>, now: int, name: string) {
    exists rn | rn in rns && rn in s.runners :: s.runners[rn].onDuty(now) && FreeHostOf(s, s.runners[rn].pool, name)
  }

  /** Idle hosts of the runners in rns switched off. */
  function PowerOff(s: State, now: int, rns: set<string>): State {
    s.(hosts := map b | b in s.hosts ::
         if SwitchedOff(s, rns, now, s.hosts[b].name) then s.hosts[b].(online := false) else s.hosts[b])
  }

  /** Free hosts of the runners in rns that are on duty switched on. */
  function PowerOn(s: State, now: int, rns: set<string>): State {
    s.(hosts := map b | b in s.hosts ::
         if SwitchedOn(s, rns, now, s.hosts[b].name) then s.hosts[b].(online := true) else s.hosts[b])
  }

  function AfterPass(s: State, now: int): State {
    var a := Timeouts(s, CheckProvisioning, now);
    var b := Timeouts(a, CheckRunning, now);
    var c := Timeouts(b, CheckHeartbeat, now);
    var d := PowerOff(c, now, c.runners.Keys);
    PowerOn(d, now, d.runners.Keys)
  }

  ghost predicate Tick(s: State, now: int, t: State) {
    exists mid :: SchedulingPass(s, mid) && t == AfterPass(mid, now)
  }

  // The handlers.

  function NewJob(pool: string, priority: int, timeout: int, created: int): Job {
    Job(pool, priority, timeout, created, Pending, "", "", "", None, None, None, NoReason, 0, None)
  }

  predicate JobRefused(s: State, ns: string, name: string, pool: string, script: string) {
    name == "" || Key(ns, name) in s.jobs || pool == "" || script == ""
    || !(exists rn | rn in s.runners :: s.runners[rn].pool == pool)
  }

  function CreateJob(s: State, ns: string, name: string, pool: string, script: string, priority: int, timeout: int,
                     created: int): State
  {
    if JobRefused(s, ns, name, pool, script) then s
    else s.(jobs := s.jobs[Key(ns, name) := NewJob(pool, priority, timeout, created)])
  }

  function DeleteJob(s: State, k: string): State {
    if k !in s.jobs || s.jobs[k].IsActive() then s else s.(jobs := s.jobs - {k})
  }

  function CancelJob(s: State, k: string, now: int): State {
    if k !in s.jobs || s.jobs[k].IsTerminal() then s
    else EndJob(s, k, Ended(s.jobs[k], Cancelled, now, CancelledByUser))
  }

  predicate HostHasIP(s: State, b: string, ip: string) {
    b in s.hosts && s.hosts[b].ip == ip
  }

  // What an agent call does to the job it finds.
  datatype AgentCall = Work | Heartbeat | Logs(lines: nat) | Complete(code: int, message: string)

  predicate Finds(call: AgentCall, j: Job, bmh: string) {
    j.bmhRef == bmh && (j.phase == Running || (call.Work? && j.phase == Provisioning))
  }

  function Answer(call: AgentCall, s: State, k: string, now: int): State
    requires k in s.jobs
  {
    var j := s.jobs[k];
    match call
    case Work =>
      if j.phase == Provisioning
      then s.(jobs := s.jobs[k := j.(phase := Running, startedAt := Some(now), lastHeartbeat := Some(now))]) else s
    case Heartbeat => s.(jobs := s.jobs[k := j.(lastHeartbeat := Some(now))])
    case Logs(n) => s.(jobs := s.jobs[k := j.(logLines := j.logLines + n, lastHeartbeat := Some(now))])
    case Complete(code, message) =>
      EndJob(s, k, Ended(j, if code == 0 then Completed
        else Failed, now, AgentMessage(message)).(exitCode := Some(code)))
  }

  /** An agent call from an address: some host with it is found, then some job of that host; else nothing happens. */
  ghost predicate AgentStep(s: State, call: AgentCall, ip: string, now: int, t: State) {
    if !(exists b :: HostHasIP(s, b, ip)) then t == s
    else exists b | HostHasIP(s, b, ip) :: AgentOnHost(s, call, s.hosts[b].name, now, t)
  }

  ghost predicate AgentOnHost(s: State, call: AgentCall, bmh: string, now: int, t: State) {
    if !(exists k | k in s.jobs :: Finds(call, s.jobs[k], bmh)) then t == s
    else exists k | k in s.jobs :: Finds(call, s.jobs[k], bmh) && t == Answer(call, s, k, now)
  }

  predicate ReservationRefused(s: State, ns: string, name: string, bmh: string, pool: string) {
    name == "" || Key(ns, name) in s.reservations || bmh == "" || pool == ""
    || !(exists b | b in s.hosts :: s.hosts[b].name == bmh) || Reserved(s, bmh)
  }

  function CreateReservation(s: State, ns: string, name: string, bmh: string, pool: string): State {
    if ReservationRefused(s, ns, name, bmh, pool) then s
    else s.(reservations := s.reservations[Key(ns, name) := Reservation(bmh, pool, Active, "")])
  }

  function DeleteReservation(s: State, h: string): State {
    if h !in s.reservations || s.reservations[h].activeJob != "" then s else s.(reservations := s.reservations - {h})
  }

  function CreateRunner(s: State, rn: string, r: Runner, configKnown: bool): State {
    if rn == "" || rn in s.runners || r.pool == "" || r.bootConfigRef == "" || !configKnown then s
    else s.(runners := s.runners[rn := r.(phase := RunnerActive)])
  }

  predicate RunnerBusy(s: State, rn: string) {
    exists k | k in s.jobs :: s.jobs[k].runnerRef == rn && s.jobs[k].IsActive()
  }

  function DeleteRunner(s: State, rn: string): State {
    if rn !in s.runners || RunnerBusy(s, rn) then s else s.(runners := s.runners - {rn})
  }

  // Runs.

  datatype Action =
    | DoTick(now: int)
    | DoCreateJob(ns: string, name: string, pool: string, script: string, priority: int, timeout: int, created: int)
    | DoDeleteJob(key: string)
    | DoCancelJob(key: string, now: int)
    | DoAgent(call: AgentCall, ip: string, now: int)
    | DoCreateReservation(ns: string, name: string, bmh: string, pool: string)
    | DoDeleteReservation(key: string)
    | DoCreateRunner(name: string, runner: Runner, configKnown: bool)
    | DoDeleteRunner(name: string)

  ghost predicate Step(s: State, a: Action, t: State) {
    match a
    case DoTick(now) => Tick(s, now, t)
    case DoCreateJob(ns, name, pool, script, priority, timeout, created) =>
      t == CreateJob(s, ns, name, pool, script, priority, timeout, created)
    case DoDeleteJob(k) => t == DeleteJob(s, k)
    case DoCancelJob(k, now) => t == CancelJob(s, k, now)
    case DoAgent(call, ip, now) => AgentStep(s, call, ip, now, t)
    case DoCreateReservation(ns, name, bmh, pool) => t == CreateReservation(s, ns, name, bmh, pool)
    case DoDeleteReservation(h) => t == DeleteReservation(s, h)
    case DoCreateRunner(rn, r, known) => t == CreateRunner(s, rn, r, known)
    case DoDeleteRunner(rn) => t == DeleteRunner(s, rn)
  }

  /** A provider with hosts and nothing else. */
  ghost predicate Initial(s: State) {
    s.jobs == map[] && s.reservations == map[] && s.runners == map[] && HostsDistinct(s)
  }

  ghost predicate HostsDistinct(s: State) {
    forall b, c | b in s.hosts && c in s.hosts && b != c ::
      s.hosts[b].name != s.hosts[c].name && (s.hosts[b].ip == s.hosts[c].ip ==> s.hosts[b].ip == "")
  }

  /** A run in which no runner allowing overflow is created. */
  ghost predicate Run(actions: seq<Action>, states: seq<State>) {
    && |states| == |actions| + 1 && Initial(states[0])
    && forall i | 0 <= i < |actions| ::
         Step(states[i], actions[i], states[i + 1])
         && (actions[i].DoCreateRunner? ==> !actions[i].runner.allowOverflow)
  }
}
