/** The provider's maps and the handlers and scheduler passes that update them. */
module JobProvider {
  import opened JobState
  import opened JobInvariant

  // The queue.

  lemma NotAfterTotal(a: Job, b: Job)
    ensures NotAfter(a, b) || NotAfter(b, a)
  {
  }

  lemma NotAfterTransitive(a: Job, b: Job, c: Job)
    requires NotAfter(a, b) && NotAfter(b, c)
    ensures NotAfter(a, c)
  {
  }

  ghost predicate InOrder(jobs: map<string, Job>, keys: seq<string>) {
    && (forall i | 0 <= i < |keys| :: keys[i] in jobs)
    && (forall i, j | 0 <= i < j < |keys| ::
       keys[i] in jobs && keys[j] in jobs && NotAfter(jobs[keys[i]], jobs[keys[j]]))
  }

  ghost predicate Distinct(keys: seq<string>) {
    forall i, j | 0 <= i < j < |keys| :: keys[i] != keys[j]
  }

  /** Where a key goes in a sorted queue: before the first job that must come later. */
  method InsertInQueue(jobs: map<string, Job>, queue: seq<string>, k: string) returns (r: seq<string>)
    requires InOrder(jobs, queue) && Distinct(queue) && k in jobs && k !in queue
    ensures InOrder(jobs, r) && Distinct(r) && forall x :: x in r <==> x == k || x in queue
  {
    hide NotAfter;
    var i := 0;
    while i < |queue| && NotAfter(jobs[queue[i]], jobs[k])
      invariant 0 <= i <= |queue|
      invariant forall j | 0 <= j < i :: NotAfter(jobs[queue[j]], jobs[k])
    {
      i := i + 1;
    }
    r := queue[..i] + [k] + queue[i..];
    forall j | i <= j < |queue|
      ensures NotAfter(jobs[k], jobs[queue[j]])
    {
      NotAfterTotal(jobs[queue[i]], jobs[k]);
      if j > i {
        NotAfterTransitive(jobs[k], jobs[queue[i]], jobs[queue[j]]);
      }
    }
    InsertedInOrder(jobs, queue, k, i);
  }

  lemma QueueAt(jobs: map<string, Job>, queue: seq<string>, a: nat, b: nat)
    requires InOrder(jobs, queue) && Distinct(queue) && a < b < |queue|
    ensures queue[a] in jobs && queue[b] in jobs && queue[a] != queue[b] && NotAfter(jobs[queue[a]], jobs[queue[b]])
  {
    hide NotAfter;
  }

  lemma InQueue(jobs: map<string, Job>, queue: seq<string>, a: nat)
    requires InOrder(jobs, queue) && a < |queue|
    ensures queue[a] in jobs
  {
    hide NotAfter;
  }

  lemma IsQueue(jobs: map<string, Job>, r: seq<string>)
    requires forall a | 0 <= a < |r| :: r[a] in jobs
    requires forall a, b | 0 <= a < b < |r| ::
             r[a] in jobs && r[b] in jobs && r[a] != r[b] && NotAfter(jobs[r[a]], jobs[r[b]])
    ensures InOrder(jobs, r) && Distinct(r)
  {
    hide NotAfter;
  }

  lemma InsertedInOrder(jobs: map<string, Job>, queue: seq<string>, k: string, i: nat)
    requires InOrder(jobs, queue) && Distinct(queue) && k in jobs && k !in queue && i <= |queue|
    requires forall j | 0 <= j < i :: NotAfter(jobs[queue[j]], jobs[k])
    requires forall j | i <= j < |queue| :: NotAfter(jobs[k], jobs[queue[j]])
    ensures var r := queue[..i] + [k] + queue[i..];
            InOrder(jobs, r) && Distinct(r) && forall x :: x in r <==> x == k || x in queue
  {
    hide NotAfter, InOrder, Distinct;
    var r := queue[..i] + [k] + queue[i..];
    assert queue == queue[..i] + queue[i..];
    forall a, b | 0 <= a < b < |r|
      ensures r[a] in jobs && r[b] in jobs && r[a] != r[b] && NotAfter(jobs[r[a]], jobs[r[b]])
    {
      if a < i && i < b {
        QueueAt(jobs, queue, a, b - 1);
      } else if b < i {
        QueueAt(jobs, queue, a, b);
      } else if i < a {
        QueueAt(jobs, queue, a - 1, b - 1);
      } else {
        InQueue(jobs, queue, if a == i then b - 1 else a);
      }
    }
    forall a | 0 <= a < |r|
      ensures r[a] in jobs
    {
      if a != i {
        InQueue(jobs, queue, if a < i then a else a - 1);
      }
    }
    IsQueue(jobs, r);
  }

  class Provider {
    var jobs: map<string, Job>
    var reservations: map<string, Reservation>
    var runners: map<string, Runner>
    var hosts: map<string, Host>

    ghost function Now(): State
      reads this
    {
      State(jobs, reservations, runners, hosts)
    }

    constructor (hosts: map<string, Host>)
      requires HostsDistinct(State(map[], map[], map[], hosts))
      ensures Initial(Now()) && this.hosts == hosts
    {
      this.jobs, this.reservations, this.runners, this.hosts := map[], map[], map[], hosts;
    }

    // Scheduling.

    method PendingQueue() returns (order: seq<string>)
      ensures QueueOrder(Now(), order)
    {
      hide NotAfter;
      var todo := jobs.Keys;
      order := [];
      while todo != {}
        invariant todo <= jobs.Keys && InOrder(jobs, order) && Distinct(order)
        invariant forall k :: k in order <==> k in jobs && k !in todo && jobs[k].phase == Pending
        decreases |todo|
      {
        var k :| k in todo;
        todo := todo - {k};
        if jobs[k].phase == Pending {
          order := InsertInQueue(jobs, order, k);
        }
      }
    }

    method FindRunner(pool: string) returns (rn: Option<string>)
      ensures rn.Some? ==> rn.value in runners && ServesPool(runners[rn.value], pool)
      ensures rn.None? ==> !exists r | r in runners :: ServesPool(runners[r], pool)
    {
      var todo := runners.Keys;
      while todo != {}
        invariant todo <= runners.Keys && forall r | r in runners && r !in todo :: !ServesPool(runners[r], pool)
        decreases |todo|
      {
        var r :| r in todo;
        if ServesPool(runners[r], pool) {
          return Some(r);
        }
        todo := todo - {r};
      }
      return None;
    }

    method CountActive(pool: string) returns (n: nat)
      ensures n == |ActiveIn(Now(), pool)|
    {
      var todo := jobs.Keys;
      ghost var counted := {};
      n := 0;
      while todo != {}
        invariant todo <= jobs.Keys && n == |counted|
        invariant counted == set k | k in jobs && k !in todo && jobs[k].pool == pool && jobs[k].IsActive()
        decreases |todo|
      {
        var k :| k in todo;
        todo := todo - {k};
        if jobs[k].pool == pool && jobs[k].IsActive() {
          n := n + 1;
          counted := counted + {k};
        }
      }
      assert counted == ActiveIn(Now(), pool);
    }

    /** The name of some available host, or "" when there is none. */
    method FindAvailableHost(pool: string, allowOverflow: bool) returns (bmh: string)
      ensures Available(Now(), pool, allowOverflow, bmh)
              || (bmh == "" && !exists b :: Available(Now(), pool, allowOverflow, b))
    {
      var todo := reservations.Keys;
      var reserved: set<string> := {};
      while todo != {}
        invariant todo <= reservations.Keys
        invariant forall h | h in FreeIn(Now(), pool) :: h in todo
        invariant reserved == set h | h in reservations && h !in todo :: reservations[h].bmhRef
        decreases |todo|
      {
        var h :| h in todo;
        if reservations[h].pool == pool && reservations[h].activeJob == "" && reservations[h].phase == Active {
          assert h in FreeIn(Now(), pool);
          return reservations[h].bmhRef;
        }
        todo := todo - {h};
        reserved := reserved + {reservations[h].bmhRef};
      }
      assert FreeIn(Now(), pool) == {};
      assert forall b :: Reserved(Now(), b) <==> b in reserved;
      if allowOverflow {
        var left := hosts.Keys;
        while left != {}
          invariant left <= hosts.Keys && forall b | b in hosts && b !in left :: hosts[b].name in reserved
          decreases |left|
        {
          var b :| b in left;
          if hosts[b].name !in reserved {
            return hosts[b].name;
          }
          left := left - {b};
        }
      }
      return "";
    }

    method MarkReservation(bmh: string, k: string)
      requires ReservationsOk(Now())
      modifies this`reservations
      ensures reservations == map h | h in old(reservations) ::
                if old(reservations)[h].bmhRef
                  == bmh then old(reservations)[h].(activeJob := k) else old(reservations)[h]
    {
      var todo := reservations.Keys;
      while todo != {}
        invariant todo <= reservations.Keys && reservations == old(reservations)
        invariant forall h | h in reservations && h !in todo :: reservations[h].bmhRef != bmh
        decreases |todo|
      {
        var h :| h in todo;
        if reservations[h].bmhRef == bmh {
          reservations := reservations[h := reservations[h].(activeJob := k)];
          return;
        }
        todo := todo - {h};
      }
    }

    /**
     * Configures the host and switches it on; its address is the answer, or the given one when there is no such
     * host.
     */
    method PowerUp(bmh: string, r: Runner, before: string) returns (ip: string)
      requires HostsDistinct(Now())
      modifies this`hosts
      ensures HostAddress(old(Now()), bmh, before, ip)
      ensures hosts == map b | b in old(hosts) ::
              if old(hosts)[b].name == bmh then Configured(old(hosts)[b], r) else old(hosts)[b]
    {
      hide HostsDistinct, HostAddress, Configured;
      var todo := hosts.Keys;
      while todo != {}
        invariant todo <= hosts.Keys && hosts == old(hosts)
        invariant forall b | b in hosts && b !in todo :: hosts[b].name != bmh
        decreases |todo|
      {
        var b :| b in todo;
        if hosts[b].name == bmh {
          HostFound(Now(), b, bmh, r, before);
          ip := hosts[b].ip;
          hosts := hosts[b := Configured(hosts[b], r)];
          return;
        }
        todo := todo - {b};
      }
      HostMissing(Now(), bmh, r, before);
      ip := before;
    }

    method ScheduleJob(k: string)
      requires k in jobs && ReservationsOk(Now()) && HostsDistinct(Now())
      modifies this
      ensures k in old(jobs) && ScheduleOne(old(Now()), k, Now())
    {
      hide HostAddress, Available, AtCapacity, ScheduleOne, Assign, ReservationsOk, HostsDistinct;
      var found := FindRunner(jobs[k].pool);
      if found.None? {
        NoRunner(Now(), k);
        return;
      }
      var rn, r := found.value, runners[found.value];
      if r.maxConcurrent > 0 {
        var activeCount := CountActive(r.pool);
        if activeCount >= r.maxConcurrent {
          Full(Now(), k, rn);
          return;
        }
      }
      NotFull(Now(), r);
      var bmh := FindAvailableHost(jobs[k].pool, r.allowOverflow);
      if bmh == "" {
        NoHost(Now(), k, rn);
        return;
      }
      ghost var s := Now();
      ghost var ip := AssignHost(k, rn, bmh);
      AssignedOne(s, k, rn, bmh, ip, Now());
    }

    method AssignHost(k: string, rn: string, bmh: string) returns (ghost ip: string)
      requires k in jobs && rn in runners && ReservationsOk(Now()) && HostsDistinct(Now())
      modifies this
      ensures k in old(jobs) && rn in old(runners) && HostAddress(old(Now()), bmh, old(jobs)[k].hostIP, ip)
      ensures Now() == Assign(old(Now()), k, rn, bmh, ip)
    {
      hide HostAddress, ReservationsOk, HostsDistinct;
      ReservationsIgnoreJobs(Now(),
        Now().(jobs := jobs[k := jobs[k].(phase := Scheduling, runnerRef := rn, bmhRef := bmh)]));
      jobs := jobs[k := jobs[k].(phase := Scheduling, runnerRef := rn, bmhRef := bmh)];
      MarkReservation(bmh, k);
      SameHostFacts(old(Now()), Now(), bmh, jobs[k].hostIP);
      var address := PowerUp(bmh, runners[rn], jobs[k].hostIP);
      SameAddress(old(Now()), old(hosts), bmh, jobs[k].hostIP, address);
      jobs := jobs[k := jobs[k].(hostIP := address)];
      jobs := jobs[k := jobs[k].(phase := Provisioning)];
      ip := address;
    }

    method SchedulePendingJobs()
      requires Inv(Now())
      modifies this
      ensures SchedulingPass(old(Now()), Now()) && Inv(Now())
    {
      hide Inv, ScheduleOne, QueueOrder, PassTrace;
      var pending := PendingQueue();
      QueuePending(Now(), pending);
      ghost var states := [Now()];
      TraceNil(Now());
      assert pending[..0] == [];
      for i := 0 to |pending|
        invariant |states| == i + 1 && states[0] == old(Now()) && states[i] == Now() && Inv(Now())
        invariant PassTrace(pending[..i], states)
        invariant jobs.Keys == old(jobs).Keys
        invariant forall j | i <= j < |pending| :: pending[j] in jobs && jobs[pending[j]].phase == Pending
      {
        ghost var s := Now();
        InvGives(s);
        ScheduleJob(pending[i]);
        ScheduleOneKeeps(s, pending[i], Now());
        TraceSnoc(pending[..i], states, pending[i], Now());
        assert pending[..i] + [pending[i]] == pending[..i + 1];
        states := states + [Now()];
      }
      assert pending[..|pending|] == pending;
    }

    // Timeouts.

    method ReleaseJobHost(k: string)
      requires k in jobs && ReservationsOk(Now())
      modifies this`reservations
      ensures reservations == Release(old(reservations), jobs[k].bmhRef, k)
    {
      var bmh := jobs[k].bmhRef;
      if bmh == "" {
        return;
      }
      var todo := reservations.Keys;
      while todo != {}
        invariant todo <= reservations.Keys && reservations == old(reservations)
        invariant forall h | h in reservations && h !in todo ::
                  !(reservations[h].bmhRef == bmh && reservations[h].activeJob == k)
        decreases |todo|
      {
        var h :| h in todo;
        if reservations[h].bmhRef == bmh && reservations[h].activeJob == k {
          reservations := reservations[h := reservations[h].(activeJob := "")];
          return;
        }
        todo := todo - {h};
      }
    }

    method EndOverdue(c: Check, k: string, now: int)
      requires k in jobs && ReservationsOk(Now())
      modifies this`jobs, this`reservations
      ensures k in old(jobs) && Now() == EndJob(old(Now()), k, Expire(c, old(jobs)[k], now))
    {
      hide ReservationsOk, Release;
      ExpireKeepsHost(c, jobs[k], now);
      ReservationsIgnoreJobs(Now(), Now().(jobs := jobs[k := Expire(c, jobs[k], now)]));
      jobs := jobs[k := Expire(c, jobs[k], now)];
      ReleaseJobHost(k);
    }

    /** One of the three timeout checks, over all jobs in any order. */
    method CheckTimeouts(c: Check, now: int)
      requires ReservationsOk(Now())
      modifies this`jobs, this`reservations
      ensures Now() == Timeouts(old(Now()), c, now)
    {
      hide Overdue, Expire, ReservationsOk, ExpireAll, EndJob;
      ghost var s := Now();
      var todo := jobs.Keys;
      ghost var done := {};
      ExpireNone(s, c, now);
      while todo != {}
        invariant todo <= s.jobs.Keys && Now() == ExpireAll(s, c, now, done)
        invariant done == set k | k in s.jobs && k !in todo && Overdue(c, s.jobs[k], now)
        decreases |todo|
      {
        var k :| k in todo;
        todo := todo - {k};
        StillAsBefore(s, c, now, done, k);
        if Overdue(c, jobs[k], now) {
          ExpireOne(s, c, now, done, k);
          ReservationsStay(s, c, now, done);
          EndOverdue(c, k, now);
          done := done + {k};
        }
      }
      assert done == ExpiredKeys(s, c, now);
    }

    // Power.

    method FreeHostNames(pool: string) returns (names: set<string>)
      ensures forall n :: n in names <==> FreeHostOf(Now(), pool, n)
    {
      var todo := reservations.Keys;
      names := {};
      while todo != {}
        invariant todo <= reservations.Keys
        invariant names == set h | h in reservations && h !in todo && reservations[h].pool == pool
                  && reservations[h].activeJob == "" ::
                             reservations[h].bmhRef
        decreases |todo|
      {
        var h :| h in todo;
        todo := todo - {h};
        if reservations[h].pool == pool && reservations[h].activeJob == "" {
          names := names + {reservations[h].bmhRef};
        }
      }
    }

    method SwitchFreeHosts(pool: string, on: bool)
      modifies this`hosts
      ensures Now() == Switched(old(Now()), pool, on)
    {
      hide FreeHostOf;
      var names := FreeHostNames(pool);
      var left := hosts.Keys;
      while left != {}
        invariant left <= hosts.Keys && hosts.Keys == old(hosts).Keys
        invariant forall b | b in hosts :: hosts[b] == if b !in left && old(hosts)[b].name in names
                                                       then old(hosts)[b].(online := on) else old(hosts)[b]
        decreases |left|
      {
        var b :| b in left;
        left := left - {b};
        if hosts[b].name in names && hosts[b].online != on {
          hosts := hosts[b := hosts[b].(online := on)];
        }
      }
      assert hosts == Switched(old(Now()), pool, on).hosts;
    }

    /** Whether the pool has no work and has been idle long enough. */
    method PoolIdle(pool: string, now: int, idle: int) returns (yes: bool)
      ensures yes <==> !HasWork(Now(), pool) && IdleLongEnough(Now(), pool, now, idle)
    {
      hide HasWork, IdleLongEnough, WorkAmong, LatestAmong, CompletedIn;
      var hasWork, last, todo := false, None, jobs.Keys;
      ghost var seen := {};
      NoneAmong(jobs, pool);
      while todo != {}
        invariant todo <= jobs.Keys && seen == jobs.Keys - todo
        invariant hasWork == WorkAmong(jobs, pool, seen) && LatestAmong(jobs, pool, seen, last)
        decreases |todo|
      {
        var k :| k in todo;
        todo := todo - {k};
        OneMore(jobs, pool, seen, k, last);
        seen := seen + {k};
        if jobs[k].pool == pool {
          if jobs[k].phase == Pending || jobs[k].IsActive() {
            hasWork := true;
          } else if jobs[k].completedAt.Some? && (last.None? || jobs[k].completedAt.value > last.value) {
            last := jobs[k].completedAt;
          }
        }
      }
      assert seen == jobs.Keys;
      AllAmong(Now(), pool, now, idle, last);
      yes := !hasWork && last.Some? && now - last.value >= idle;
    }

    /** Switches the pool's free hosts off when the runner reclaims them now. */
    method Reclaim(r: Runner, now: int)
      modifies this`hosts
      ensures Now() == if ReclaimsNow(old(Now()), r, now) then Switched(old(Now()), r.pool, false) else old(Now())
    {
      hide HasWork, IdleLongEnough, Switched;
      if r.idleTimeout > 0 && !r.retain && !r.onDuty(now) {
        var idle := PoolIdle(r.pool, now, r.idleTimeout);
        if idle {
          SwitchFreeHosts(r.pool, false);
        }
      }
    }

    method CheckIdleRunners(now: int)
      modifies this`hosts
      ensures Now() == PowerOff(old(Now()), now, runners.Keys)
    {
      hide ReclaimsNow, Switched, PowerOff;
      ghost var s := Now();
      var todo := runners.Keys;
      ghost var done := {};
      PowerNone(s, now);
      while todo != {}
        invariant todo <= runners.Keys && done == runners.Keys - todo && Now() == PowerOff(s, now, done)
        decreases |todo|
      {
        var rn :| rn in todo;
        todo := todo - {rn};
        PowerOffOne(s, now, done, rn);
        Reclaim(runners[rn], now);
        done := done + {rn};
      }
      assert done == runners.Keys;
    }

    method EnsureScheduledHostsOnline(now: int)
      modifies this`hosts
      ensures Now() == PowerOn(old(Now()), now, runners.Keys)
    {
      hide Switched, PowerOn;
      ghost var s := Now();
      var todo := runners.Keys;
      ghost var done := {};
      PowerNone(s, now);
      while todo != {}
        invariant todo <= runners.Keys && done == runners.Keys - todo && Now() == PowerOn(s, now, done)
        decreases |todo|
      {
        var rn :| rn in todo;
        todo := todo - {rn};
        PowerOnOne(s, now, done, rn);
        if runners[rn].onDuty(now) {
          SwitchFreeHosts(runners[rn].pool, true);
        }
        done := done + {rn};
      }
      assert done == runners.Keys;
    }

    method SchedulerTick(now: int)
      requires Inv(Now())
      modifies this
      ensures Tick(old(Now()), now, Now()) && Inv(Now())
    {
      hide Inv, SchedulingPass, Timeouts, PowerOff, PowerOn;
      SchedulePendingJobs();
      ghost var mid := Now();
      InvGives(mid);
      CheckTimeouts(CheckProvisioning, now);
      TimeoutsKeeps(mid, CheckProvisioning, now);
      ghost var a := Now();
      InvGives(a);
      CheckTimeouts(CheckRunning, now);
      TimeoutsKeeps(a, CheckRunning, now);
      InvGives(Now());
      CheckTimeouts(CheckHeartbeat, now);
      CheckIdleRunners(now);
      EnsureScheduledHostsOnline(now);
      AfterPassKeeps(mid, now);
    }

    // Handlers; the answer says whether the request was accepted.

    method RunnerForPool(pool: string) returns (found: bool)
      ensures found <==> exists rn | rn in runners :: runners[rn].pool == pool
    {
      var todo := runners.Keys;
      while todo != {}
        invariant todo <= runners.Keys && forall r | r in runners && r !in todo :: runners[r].pool != pool
        decreases |todo|
      {
        var r :| r in todo;
        if runners[r].pool == pool {
          return true;
        }
        todo := todo - {r};
      }
      return false;
    }

    method HandleCreateJob(ns: string, name: string, pool: string, script: string, priority: int, timeout: int,
                           created: int)
      returns (ok: bool)
      modifies this`jobs
      ensures Now() == CreateJob(old(Now()), ns, name, pool, script, priority, timeout, created)
      ensures ok <==> !JobRefused(old(Now()), ns, name, pool, script)
    {
      if name == "" || Key(ns, name) in jobs || pool == "" || script == "" {
        return false;
      }
      var runnerFound := RunnerForPool(pool);
      if !runnerFound {
        return false;
      }
      jobs := jobs[Key(ns, name) := NewJob(pool, priority, timeout, created)];
      return true;
    }

    method HandleDeleteJob(k: string) returns (ok: bool)
      modifies this`jobs
      ensures Now() == DeleteJob(old(Now()), k)
      ensures ok <==> k in old(jobs) && k !in jobs
    {
      if k !in jobs || jobs[k].IsActive() {
        return false;
      }
      jobs := jobs - {k};
      return true;
    }

    method HandleCancelJob(k: string, now: int) returns (ok: bool)
      requires ReservationsOk(Now())
      modifies this`jobs, this`reservations
      ensures Now() == CancelJob(old(Now()), k, now)
      ensures ok <==> k in old(jobs) && !old(jobs)[k].IsTerminal()
    {
      hide ReservationsOk;
      if k !in jobs || jobs[k].IsTerminal() {
        return false;
      }
      ReservationsIgnoreJobs(Now(), Now().(jobs := jobs[k := Ended(jobs[k], Cancelled, now, CancelledByUser)]));
      jobs := jobs[k := Ended(jobs[k], Cancelled, now, CancelledByUser)];
      ReleaseJobHost(k);
      return true;
    }

    method FindHostByIP(ip: string) returns (b: Option<string>)
      ensures b.Some? ==> HostHasIP(Now(), b.value, ip)
      ensures b.None? ==> !exists c :: HostHasIP(Now(), c, ip)
    {
      var todo := hosts.Keys;
      while todo != {}
        invariant todo <= hosts.Keys && forall c | c in hosts && c !in todo :: hosts[c].ip != ip
        decreases |todo|
      {
        var c :| c in todo;
        if hosts[c].ip == ip {
          return Some(c);
        }
        todo := todo - {c};
      }
      return None;
    }

    method FindJobOn(call: AgentCall, bmh: string) returns (k: Option<string>)
      ensures k.Some? ==> k.value in jobs && Finds(call, jobs[k.value], bmh)
      ensures k.None? ==> !exists j | j in jobs :: Finds(call, jobs[j], bmh)
    {
      var todo := jobs.Keys;
      while todo != {}
        invariant todo <= jobs.Keys && forall j | j in jobs && j !in todo :: !Finds(call, jobs[j], bmh)
        decreases |todo|
      {
        var j :| j in todo;
        if Finds(call, jobs[j], bmh) {
          return Some(j);
        }
        todo := todo - {j};
      }
      return None;
    }

    /** The four agent calls share their search; each then changes the job it found. */
    method HandleAgent(call: AgentCall, ip: string, now: int) returns (found: Option<string>)
      requires ReservationsOk(Now())
      modifies this`jobs, this`reservations
      ensures AgentStep(old(Now()), call, ip, now, Now())
    {
      hide ReservationsOk, Finds, Answer;
      var b := FindHostByIP(ip);
      if b.None? {
        return None;
      }
      found := FindJobOn(call, hosts[b.value].name);
      if found.Some? {
        AnswerCall(call, found.value, now);
      }
      AgentStepBy(old(Now()), call, ip, now, Now(), b.value, found);
    }

    method AnswerCall(call: AgentCall, k: string, now: int)
      requires k in jobs && ReservationsOk(Now())
      modifies this`jobs, this`reservations
      ensures k in old(jobs) && Now() == Answer(call, old(Now()), k, now)
    {
      hide ReservationsOk;
      var j := jobs[k];
      match call
      case Work =>
        if j.phase == Provisioning {
          jobs := jobs[k := j.(phase := Running, startedAt := Some(now), lastHeartbeat := Some(now))];
        }
      case Heartbeat =>
        jobs := jobs[k := j.(lastHeartbeat := Some(now))];
      case Logs(n) =>
        jobs := jobs[k := j.(logLines := j.logLines + n, lastHeartbeat := Some(now))];
      case Complete(code, message) =>
        var done := Ended(j, if code == 0 then Completed
            else Failed, now, AgentMessage(message)).(exitCode := Some(code));
        ReservationsIgnoreJobs(Now(), Now().(jobs := jobs[k := done]));
        jobs := jobs[k := done];
        ReleaseJobHost(k);
    }

    method HostNamed(name: string) returns (found: bool)
      ensures found <==> exists b | b in hosts :: hosts[b].name == name
    {
      var todo := hosts.Keys;
      while todo != {}
        invariant todo <= hosts.Keys && forall b | b in hosts && b !in todo :: hosts[b].name != name
        decreases |todo|
      {
        var b :| b in todo;
        if hosts[b].name == name {
          return true;
        }
        todo := todo - {b};
      }
      return false;
    }

    method IsReserved(bmh: string) returns (yes: bool)
      ensures yes <==> Reserved(Now(), bmh)
    {
      var todo := reservations.Keys;
      while todo != {}
        invariant todo <= reservations.Keys && forall h | h in reservations && h !in todo ::
                  reservations[h].bmhRef != bmh
        decreases |todo|
      {
        var h :| h in todo;
        if reservations[h].bmhRef == bmh {
          return true;
        }
        todo := todo - {h};
      }
      return false;
    }

    method HandleCreateReservation(ns: string, name: string, bmh: string, pool: string) returns (ok: bool)
      modifies this`reservations
      ensures Now() == CreateReservation(old(Now()), ns, name, bmh, pool)
      ensures ok <==> !ReservationRefused(old(Now()), ns, name, bmh, pool)
    {
      if name == "" || Key(ns, name) in reservations || bmh == "" || pool == "" {
        return false;
      }
      var bmhFound := HostNamed(bmh);
      if !bmhFound {
        return false;
      }
      var taken := IsReserved(bmh);
      if taken {
        return false;
      }
      reservations := reservations[Key(ns, name) := Reservation(bmh, pool, Active, "")];
      return true;
    }

    method HandleDeleteReservation(h: string) returns (ok: bool)
      modifies this`reservations
      ensures Now() == DeleteReservation(old(Now()), h)
      ensures ok <==> h in old(reservations) && old(reservations)[h].activeJob == ""
    {
      if h !in reservations || reservations[h].activeJob != "" {
        return false;
      }
      reservations := reservations - {h};
      return true;
    }

    method HandleCreateRunner(rn: string, r: Runner, configKnown: bool) returns (ok: bool)
      modifies this`runners
      ensures Now() == CreateRunner(old(Now()), rn, r, configKnown)
      ensures ok ==> rn !in old(runners) && rn in runners
    {
      if rn == "" || rn in runners || r.pool == "" || r.bootConfigRef == "" || !configKnown {
        return false;
      }
      runners := runners[rn := r.(phase := RunnerActive)];
      return true;
    }

    method HandleDeleteRunner(rn: string) returns (ok: bool)
      modifies this`runners
      ensures Now() == DeleteRunner(old(Now()), rn)
      ensures ok <==> rn in old(runners) && !RunnerBusy(old(Now()), rn)
    {
      if rn !in runners {
        return false;
      }
      var activeCount, todo := 0, jobs.Keys;
      while todo != {}
        invariant todo <= jobs.Keys && activeCount >= 0
        invariant activeCount > 0 <==> exists k | k in jobs && k !in todo ::
                  jobs[k].runnerRef == rn && jobs[k].IsActive()
        decreases |todo|
      {
        var k :| k in todo;
        todo := todo - {k};
        if jobs[k].runnerRef == rn && jobs[k].IsActive() {
          activeCount := activeCount + 1;
        }
      }
      if activeCount > 0 {
        return false;
      }
      runners := runners - {rn};
      return true;
    }
  }

  // Facts the loops use.

  /** Some of the jobs ks of the pool is waiting or active. */
  predicate WorkAmong(jobs: map<string, Job>, pool: string, ks: set<string>) {
    exists k | k in ks && k in jobs :: jobs[k].pool == pool && (jobs[k].phase == Pending || jobs[k].IsActive())
  }

  /** The latest completion among the jobs ks of the pool. */
  predicate LatestAmong(jobs: map<string, Job>, pool: string, ks: set<string>, last: Option<int>) {
    && (last.Some? ==> exists k | k in ks && k in jobs :: CompletedIn(jobs[k], pool) && jobs[k].completedAt == last)
    && (forall k | k in ks && k in jobs && CompletedIn(jobs[k], pool) ::
          last.Some? && jobs[k].completedAt.value <= last.value)
  }

  lemma NoneAmong(jobs: map<string, Job>, pool: string)
    ensures !WorkAmong(jobs, pool, {}) && LatestAmong(jobs, pool, {}, None)
  {
  }

  lemma OneMore(jobs: map<string, Job>, pool: string, ks: set<string>, k: string, last: Option<int>)
    requires k in jobs && LatestAmong(jobs, pool, ks, last)
    ensures WorkAmong(jobs, pool, ks + {k})
            <==> WorkAmong(jobs, pool, ks) || (jobs[k].pool == pool && (jobs[k].phase == Pending || jobs[k].IsActive()))
    ensures var done := jobs[k].pool == pool && jobs[k].phase != Pending && !jobs[k].IsActive()
            && jobs[k].completedAt.Some?;
            LatestAmong(jobs, pool, ks + {k},
                        if done && (last.None? || jobs[k].completedAt.value > last.value) then jobs[k].completedAt
                          else last)
  {
    OneMoreWork(jobs, pool, ks, k);
    OneMoreDone(jobs, pool, ks, k, last);
  }

  lemma OneMoreWork(jobs: map<string, Job>, pool: string, ks: set<string>, k: string)
    requires k in jobs
    ensures WorkAmong(jobs, pool, ks + {k})
            <==> WorkAmong(jobs, pool, ks) || (jobs[k].pool == pool && (jobs[k].phase == Pending || jobs[k].IsActive()))
  {
    hide Job.IsActive;
  }

  lemma OneMoreDone(jobs: map<string, Job>, pool: string, ks: set<string>, k: string, last: Option<int>)
    requires k in jobs && LatestAmong(jobs, pool, ks, last)
    ensures var done := CompletedIn(jobs[k], pool);
            LatestAmong(jobs, pool, ks + {k},
                        if done && (last.None? || jobs[k].completedAt.value > last.value) then jobs[k].completedAt
                          else last)
  {
    hide Job.IsTerminal;
    var next := if CompletedIn(jobs[k], pool) && (last.None? || jobs[k].completedAt.value > last.value)
                then jobs[k].completedAt else last;
    if last.Some? {
      var j :| j in ks && j in jobs && CompletedIn(jobs[j], pool) && jobs[j].completedAt == last;
      assert j in ks + {k};
    }
    assert next == jobs[k].completedAt && CompletedIn(jobs[k], pool) ==> k in ks + {k};
  }

  lemma AllAmong(s: State, pool: string, now: int, idle: int, last: Option<int>)
    requires LatestAmong(s.jobs, pool, s.jobs.Keys, last)
    ensures HasWork(s, pool) == WorkAmong(s.jobs, pool, s.jobs.Keys)
    ensures IdleLongEnough(s, pool, now, idle) <==> last.Some? && now - last.value >= idle
  {
    hide Job.IsTerminal, Job.IsActive;
    if IdleLongEnough(s, pool, now, idle) {
      var k :| k in s.jobs && CompletedIn(s.jobs[k], pool);
      assert k in s.jobs.Keys;
    }
  }

  lemma HostFound(s: State, b: string, bmh: string, r: Runner, before: string)
    requires HostsDistinct(s) && b in s.hosts && s.hosts[b].name == bmh
    ensures HostAddress(s, bmh, before, s.hosts[b].ip)
    ensures s.hosts[b := Configured(s.hosts[b], r)]
         == map c | c in s.hosts :: if s.hosts[c].name == bmh then Configured(s.hosts[c], r) else s.hosts[c]
  {
    hide Configured;
  }

  lemma HostMissing(s: State, bmh: string, r: Runner, before: string)
    requires forall b | b in s.hosts :: s.hosts[b].name != bmh
    ensures HostAddress(s, bmh, before, before)
    ensures s.hosts == map c | c in s.hosts :: if s.hosts[c].name == bmh then Configured(s.hosts[c], r) else s.hosts[c]
  {
    hide Configured;
  }

  lemma InvGives(s: State)
    requires Inv(s)
    ensures ReservationsOk(s) && HostsDistinct(s)
  {
  }

  lemma Full(s: State, k: string, rn: string)
    requires k in s.jobs && rn in s.runners && ServesPool(s.runners[rn], s.jobs[k].pool)
    requires s.runners[rn].maxConcurrent > 0 && |ActiveIn(s, s.runners[rn].pool)| >= s.runners[rn].maxConcurrent
    ensures ScheduleOne(s, k, s)
  {
    assert ScheduleWith(s, k, rn, s);
  }

  lemma NotFull(s: State, r: Runner)
    requires r.maxConcurrent > 0 ==> |ActiveIn(s, r.pool)| < r.maxConcurrent
    ensures !AtCapacity(s, r)
  {
  }

  lemma NoHost(s: State, k: string, rn: string)
    requires k in s.jobs && rn in s.runners && ServesPool(s.runners[rn], s.jobs[k].pool)
             && !AtCapacity(s, s.runners[rn])
    requires Available(s, s.jobs[k].pool, s.runners[rn].allowOverflow, "")
             || !exists b :: Available(s, s.jobs[k].pool, s.runners[rn].allowOverflow, b)
    ensures ScheduleOne(s, k, s)
  {
    hide Available;
    if Available(s, s.jobs[k].pool, s.runners[rn].allowOverflow, "") {
      var ip := AnAddress(s, "", s.jobs[k].hostIP);
    }
    assert ScheduleWith(s, k, rn, s);
  }

  lemma AnAddress(s: State, bmh: string, before: string) returns (ip: string)
    ensures HostAddress(s, bmh, before, ip)
  {
    ip := before;
    if exists b | b in s.hosts :: s.hosts[b].name == bmh {
      var b :| b in s.hosts && s.hosts[b].name == bmh;
      ip := s.hosts[b].ip;
    }
  }

  lemma ExpireNone(s: State, c: Check, now: int)
    ensures ExpireAll(s, c, now, {}) == s
  {
  }

  lemma ExpireOne(s: State, c: Check, now: int, done: set<string>, k: string)
    requires k in s.jobs && k !in done
    ensures ExpireAll(s, c, now, done + {k})
         == var x := ExpireAll(s, c, now, done); EndJob(x, k, Expire(c, s.jobs[k], now))
  {
    hide Expire;
  }

  lemma ExpireKeepsHost(c: Check, j: Job, now: int)
    ensures Expire(c, j, now).bmhRef == j.bmhRef
  {
  }

  lemma ReservationsStay(s: State, c: Check, now: int, done: set<string>)
    requires ReservationsOk(s)
    ensures ReservationsOk(ExpireAll(s, c, now, done))
  {
    hide Expire;
    var t := ExpireAll(s, c, now, done);
    forall g | g in t.reservations
      ensures NamesHost(t, t.reservations[g].bmhRef)
    {
      HostsKeepNames(s, t, s.reservations[g].bmhRef);
    }
  }

  lemma ReservationsIgnoreJobs(s: State, t: State)
    requires ReservationsOk(s) && t.reservations == s.reservations && t.hosts == s.hosts
    ensures ReservationsOk(t)
  {
    forall g | g in t.reservations
      ensures NamesHost(t, t.reservations[g].bmhRef)
    {
      HostsKeepNames(s, t, s.reservations[g].bmhRef);
    }
  }

  lemma PowerNone(s: State, now: int)
    ensures PowerOff(s, now, {}) == s && PowerOn(s, now, {}) == s
  {
  }

  /** The free hosts of a pool switched on or off. */
  function Switched(s: State, pool: string, on: bool): State {
    s.(hosts := map b | b in s.hosts ::
      if FreeHostOf(s, pool, s.hosts[b].name) then s.hosts[b].(online := on) else s.hosts[b])
  }

  lemma PowerOffOne(s: State, now: int, rns: set<string>, rn: string)
    requires rn in s.runners
    ensures var x := PowerOff(s, now, rns);
            && x.runners == s.runners
            && PowerOff(s, now, rns + {rn})
               == if ReclaimsNow(x, s.runners[rn], now) then Switched(x, s.runners[rn].pool, false) else x
  {
    hide ReclaimsNow, FreeHostOf;
    var x, r := PowerOff(s, now, rns), s.runners[rn];
    SameReclaim(s, x, r, now);
    SameFree(s, x, r.pool);
  }

  lemma PowerOnOne(s: State, now: int, rns: set<string>, rn: string)
    requires rn in s.runners
    ensures var x := PowerOn(s, now, rns);
            && x.runners == s.runners
            && PowerOn(s, now, rns + {rn})
               == if s.runners[rn].onDuty(now) then Switched(x, s.runners[rn].pool, true) else x
  {
    hide FreeHostOf;
    SameFree(s, PowerOn(s, now, rns), s.runners[rn].pool);
  }

  lemma SameReclaim(s: State, t: State, r: Runner, now: int)
    requires t.jobs == s.jobs
    ensures ReclaimsNow(t, r, now) == ReclaimsNow(s, r, now)
  {
  }

  lemma SameFree(s: State, t: State, pool: string)
    requires t.reservations == s.reservations
    ensures forall n :: FreeHostOf(t, pool, n) == FreeHostOf(s, pool, n)
  {
  }

  lemma NoRunner(s: State, k: string)
    requires k in s.jobs && !exists r | r in s.runners :: ServesPool(s.runners[r], s.jobs[k].pool)
    ensures ScheduleOne(s, k, s)
  {
  }

  lemma AssignedOne(s: State, k: string, rn: string, bmh: string, ip: string, t: State)
    requires k in s.jobs && rn in s.runners && ServesPool(s.runners[rn], s.jobs[k].pool)
             && !AtCapacity(s, s.runners[rn])
    requires Available(s, s.jobs[k].pool, s.runners[rn].allowOverflow, bmh) && bmh != ""
    requires HostAddress(s, bmh, s.jobs[k].hostIP, ip) && t == Assign(s, k, rn, bmh, ip)
    ensures ScheduleOne(s, k, t)
  {
    hide Available, HostAddress, Assign, AtCapacity;
    assert ScheduleWith(s, k, rn, t);
  }

  lemma SameHostFacts(s: State, t: State, bmh: string, before: string)
    requires t.hosts == s.hosts
    ensures HostsDistinct(t) == HostsDistinct(s)
  {
  }

  lemma SameAddress(s: State, hosts: map<string, Host>, bmh: string, before: string, ip: string)
    requires s.hosts == hosts
    ensures forall t: State | t.hosts == hosts :: HostAddress(t, bmh, before, ip) == HostAddress(s, bmh, before, ip)
  {
  }

  lemma TraceNil(s: State)
    ensures PassTrace([], [s])
  {
  }

  lemma TraceSnoc(order: seq<string>, states: seq<State>, k: string, t: State)
    requires PassTrace(order, states) && |states| == |order| + 1 && k in states[|order|].jobs
             && ScheduleOne(states[|order|], k, t)
    ensures PassTrace(order + [k], states + [t])
  {
    hide ScheduleOne;
  }

  lemma QueuePending(s: State, order: seq<string>)
    requires QueueOrder(s, order)
    ensures forall j | 0 <= j < |order| :: order[j] in s.jobs && s.jobs[order[j]].phase == Pending
    ensures forall i, j | 0 <= i < j < |order| :: order[i] != order[j]
  {
    hide NotAfter;
    forall j | 0 <= j < |order|
      ensures order[j] in PendingKeys(s)
    {
      assert order[j] in order;
    }
  }

  lemma StillAsBefore(s: State, c: Check, now: int, done: set<string>, k: string)
    requires k in s.jobs && k !in done
    ensures ExpireAll(s, c, now, done).jobs.Keys == s.jobs.Keys && ExpireAll(s, c, now, done).jobs[k] == s.jobs[k]
  {
  }

  lemma AgentStepBy(s: State, call: AgentCall, ip: string, now: int, t: State, b: string, found: Option<string>)
    requires HostHasIP(s, b, ip)
    requires found.Some? ==>
             found.value in s.jobs && Finds(call, s.jobs[found.value], s.hosts[b].name)
             && t == Answer(call, s, found.value, now)
    requires found.None? ==> t == s && !exists j | j in s.jobs :: Finds(call, s.jobs[j], s.hosts[b].name)
    ensures AgentStep(s, call, ip, now, t)
  {
    hide Finds, Answer;
    assert AgentOnHost(s, call, s.hosts[b].name, now, t);
  }
}
