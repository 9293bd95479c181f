/** Concrete runs of a provider with one host: how that host comes to carry two jobs, and how an overdue job fails. */
module JobExamples {
  import opened JobState
  import opened JobInvariant
  import opened JobRuns
  import opened JobOverflow

  const POOL := "p"
  const OTHER_POOL := "q"
  const ADDRESS := "10.0.0.1"

  function RunnerOf(pool: string, allowOverflow: bool): Runner {
    Runner(pool, "cfg", "", 0, false, allowOverflow, 0, _ => false, RunnerActive)
  }

  function OneHost(): State {
    State(map[], map[], map[], map["n/h" := Host("h", ADDRESS, "", "", false)])
  }

  /** Two jobs waiting for a pool whose runner may overflow onto the one unreserved host. */
  function OverflowStart(): State {
    OneHost().(jobs := map["n/a" := NewJob(POOL, 0, 0, 0), "n/b" := NewJob(POOL, 0, 0, 1)],
               runners := map["r" := RunnerOf(POOL, true)])
  }

  lemma Keys()
    ensures Key("n", "a") == "n/a" && Key("n", "b") == "n/b" && Key("n", "x") == "n/x" && "n/a" != "n/b"
  {
    assert "n/a"[2] != "n/b"[2];
  }

  lemma OverflowStartReached()
    ensures Reachable(OverflowStart())
  {
    hide Reachable;
    Keys();
    var s := OneHost();
    ReachInitial(s);
    var r := s.(runners := map["r" := RunnerOf(POOL, true)]);
    ReachStep(s, DoCreateRunner("r", RunnerOf(POOL, true), true), r);
    var a := r.(jobs := map["n/a" := NewJob(POOL, 0, 0, 0)]);
    assert r.runners["r"].pool == POOL;
    ReachStep(r, DoCreateJob("n", "a", POOL, "x", 0, 0, 0), a);
    assert a.runners["r"].pool == POOL;
    assert a.jobs["n/b" := NewJob(POOL, 0, 0, 1)] == OverflowStart().jobs;
    ReachStep(a, DoCreateJob("n", "b", POOL, "x", 0, 0, 1), OverflowStart());
  }

  /** From a state that is reached, one pass of an overflow runner gives one host to two jobs. */
  lemma {:induction false} OverflowShares() returns (t: State)
    ensures Reachable(OverflowStart()) && Exclusive(OverflowStart()) && SchedulingPass(OverflowStart(), t)
            && !Exclusive(t)
  {
    hide ScheduleOne, SchedulingPass, Reachable;
    OverflowStartReached();
    var s := OverflowStart();
    Keys();
    OnlyHost(s, "n/a");
    var ip := OfferTaken(s, "n/a", "r", "h");
    var u := Assign(s, "n/a", "r", "h", ip);
    OnlyHost(u, "n/b");
    ip := OfferTaken(u, "n/b", "r", "h");
    t := Assign(u, "n/b", "r", "h", ip);
    OverflowQueue(["n/a", "n/b"], [s, u, t]);
    assert t.jobs["n/a"].bmhRef == t.jobs["n/b"].bmhRef && t.jobs["n/a"].IsActive() && t.jobs["n/b"].IsActive();
  }

  /** The one host, unreserved, is offered to every job of the overflow runner's pool. */
  lemma OnlyHost(s: State, k: string)
    requires k in s.jobs && s.jobs[k].pool == POOL && s.reservations == map[]
    requires "r" in s.runners && s.runners["r"] == RunnerOf(POOL, true) && "n/h" in s.hosts
             && s.hosts["n/h"].name == "h"
    ensures Offered(s, k, "r", "h")
  {
    assert FreeIn(s, POOL) == {};
    assert s.hosts["n/h"].name == "h" && !Reserved(s, "h");
  }

  lemma OverflowQueue(order: seq<string>, states: seq<State>)
    requires order == ["n/a", "n/b"] && |states| == 3 && states[0] == OverflowStart()
             && states[1].jobs.Keys == {"n/a", "n/b"}
    requires ScheduleOne(states[0], "n/a", states[1]) && ScheduleOne(states[1], "n/b", states[2])
    ensures SchedulingPass(OverflowStart(), states[2])
  {
    hide ScheduleOne;
    Keys();
    assert PendingKeys(states[0]) == {"n/a", "n/b"};
    assert QueueOrder(states[0], order);
    assert PassTrace(order, states);
    assert states[0] == OverflowStart() && states[|order|] == states[2];
  }

  /** With one pending job its turn is the whole pass. */
  lemma LonePass(s: State, k: string, t: State)
    requires PendingKeys(s) == {k} && ScheduleOne(s, k, t)
    ensures SchedulingPass(s, t)
  {
    hide ScheduleOne;
    assert QueueOrder(s, [k]);
    assert PassTrace([k], [s, t]);
    assert [s, t][0] == s && [s, t][|[k]|] == t;
  }

  function TwoRunners(): State {
    OneHost().(runners := map["r" := RunnerOf(POOL, true), "s" := RunnerOf(OTHER_POOL, false)])
  }

  lemma TwoRunnersReached()
    ensures Reachable(TwoRunners())
  {
    hide Reachable;
    assert "r"[0] != "s"[0];
    var s := OneHost();
    ReachInitial(s);
    var r := s.(runners := map["r" := RunnerOf(POOL, true)]);
    ReachStep(s, DoCreateRunner("r", RunnerOf(POOL, true), true), r);
    assert r.runners["s" := RunnerOf(OTHER_POOL, false)] == TwoRunners().runners;
    ReachStep(r, DoCreateRunner("s", RunnerOf(OTHER_POOL, false), true), TwoRunners());
  }

  /** Job a has overflowed onto the one host. */
  ghost predicate Overflowed(s: State) {
    && s.jobs.Keys == {"n/a"} && s.jobs["n/a"].phase == Provisioning && s.jobs["n/a"].bmhRef == "h"
       && s.jobs["n/a"].created == 0
    && s.reservations == map[] && s.runners == TwoRunners().runners && "n/h" in s.hosts && s.hosts["n/h"].name == "h"
  }

  lemma OverflowedReached() returns (t: State)
    ensures Reachable(t) && Overflowed(t)
  {
    hide Reachable, ScheduleOne, SchedulingPass, AfterPass, Expire;
    TwoRunnersReached();
    Keys();
    assert "r"[0] != "s"[0];
    var r := TwoRunners();
    var s := r.(jobs := map["n/a" := NewJob(POOL, 0, 0, 0)]);
    assert r.runners["r"].pool == POOL;
    ReachStep(r, DoCreateJob("n", "a", POOL, "x", 0, 0, 0), s);
    OnlyHost(s, "n/a");
    var ip := OfferTaken(s, "n/a", "r", "h");
    var u := Assign(s, "n/a", "r", "h", ip);
    assert PendingKeys(s) == {"n/a"};
    LonePass(s, "n/a", u);
    t := AfterPass(u, 0);
    AfterPassJobs(u, 0);
    AfterPassKeepsRest(u, 0);
    ReachStep(s, DoTick(0), t);
  }

  /** And job b waits in the other pool. */
  ghost predicate Waiting(s: State) {
    && s.jobs.Keys == {"n/a", "n/b"} && s.jobs["n/a"].phase == Provisioning && s.jobs["n/a"].bmhRef == "h"
    && s.jobs["n/a"].created == 0 && s.jobs["n/b"] == NewJob(OTHER_POOL, 0, 0, 0)
    && s.reservations == map[] && s.runners == TwoRunners().runners && "n/h" in s.hosts && s.hosts["n/h"].name == "h"
  }

  lemma WaitingReached() returns (t: State)
    ensures Reachable(t) && Waiting(t)
  {
    hide Reachable;
    Keys();
    assert "r"[0] != "s"[0];
    var s := OverflowedReached();
    t := s.(jobs := s.jobs["n/b" := NewJob(OTHER_POOL, 0, 0, 0)]);
    assert s.runners["s"].pool == OTHER_POOL;
    ReachStep(s, DoCreateJob("n", "b", OTHER_POOL, "x", 0, 0, 0), t);
  }

  /** The other pool's turn for job b, once the busy host is reserved for that pool. */
  lemma SecondTurn(v: State) returns (u: State)
    requires Waiting(v)
    ensures var s := CreateReservation(v, "n", "x", "h", OTHER_POOL);
            "n/b" in s.jobs && ScheduleOne(s, "n/b", u) && exists ip :: u == Assign(s, "n/b", "s", "h", ip)
  {
    hide ScheduleOne, FreeIn, Assign;
    Keys();
    assert "r"[0] != "s"[0];
    assert v.hosts["n/h"].name == "h" && !ReservationRefused(v, "n", "x", "h", OTHER_POOL);
    u := BusyHostReserved(v, "n/a", "n", "x", "n/b", "s");
  }

  lemma AfterSecondTurn(v: State, s: State, ip: string)
    requires Waiting(v) && s.jobs == v.jobs && s.runners == v.runners
    ensures var u := AfterPass(Assign(s, "n/b", "s", "h", ip), 0);
            "n/a" in u.jobs && "n/b" in u.jobs && u.jobs["n/a"].IsActive() && u.jobs["n/b"].IsActive()
            && u.jobs["n/a"].bmhRef == u.jobs["n/b"].bmhRef
  {
    hide AfterPass, Expire;
    assert "n/a"[2] != "n/b"[2];
    AfterPassJobs(Assign(s, "n/b", "s", "h", ip), 0);
  }

  /** The second way, from a state that is reached: the tick that gives the host to a second job is a plain runner's. */
  lemma {:induction false} ReservedHostShares() returns (s: State, u: State)
    ensures Reachable(s) && Exclusive(s) && PendingKeys(s) == {"n/b"} && s.jobs["n/b"].pool == OTHER_POOL
    ensures forall rn | rn in s.runners && s.runners[rn].pool == OTHER_POOL :: !s.runners[rn].allowOverflow
    ensures Tick(s, 0, u) && !Exclusive(u)
  {
    hide Reachable, ScheduleOne, SchedulingPass, AfterPass, Assign;
    var v := WaitingReached();
    s := CreateReservation(v, "n", "x", "h", OTHER_POOL);
    ReachStep(v, DoCreateReservation("n", "x", "h", OTHER_POOL), s);
    var w := SecondTurn(v);
    var ip :| w == Assign(s, "n/b", "s", "h", ip);
    assert POOL[0] != OTHER_POOL[0] && PendingKeys(s) == {"n/b"};
    LonePass(s, "n/b", w);
    u := AfterPass(w, 0);
    AfterSecondTurn(v, s, ip);
    assert "n/a"[2] != "n/b"[2];
  }

  // An overdue job.

  /** One reserved host, its pool's runner, and a job created at time 0. */
  function OneJob(): State {
    State(map["n/a" := NewJob(OTHER_POOL, 0, 0, 0)], map["n/x" := Reservation("h", OTHER_POOL, Active, "")],
          map["s" := RunnerOf(OTHER_POOL, false)], OneHost().hosts)
  }

  lemma OneJobReached()
    ensures Reachable(OneJob()) && Inv(OneJob())
  {
    hide Reachable, Inv;
    Keys();
    var s := OneHost();
    ReachInitial(s);
    RunKeeps([], [s], 0);
    var r := s.(runners := map["s" := RunnerOf(OTHER_POOL, false)]);
    ReachStep(s, DoCreateRunner("s", RunnerOf(OTHER_POOL, false), true), r);
    StepKeeps(s, DoCreateRunner("s", RunnerOf(OTHER_POOL, false), true), r);
    var t := r.(reservations := OneJob().reservations);
    assert r.hosts["n/h"].name == "h" && !ReservationRefused(r, "n", "x", "h", OTHER_POOL);
    ReachStep(r, DoCreateReservation("n", "x", "h", OTHER_POOL), t);
    StepKeeps(r, DoCreateReservation("n", "x", "h", OTHER_POOL), t);
    assert t.runners["s"].pool == OTHER_POOL;
    ReachStep(t, DoCreateJob("n", "a", OTHER_POOL, "x", 0, 0, 0), OneJob());
    StepKeeps(t, DoCreateJob("n", "a", OTHER_POOL, "x", 0, 0, 0), OneJob());
  }

  /** A tick more than the provisioning limit after the job's creation both schedules the job and fails it. */
  lemma {:induction false} OverdueJobFails() returns (mid: State)
    ensures Reachable(OneJob()) && SchedulingPass(OneJob(), mid) && "n/a" in mid.jobs
            && mid.jobs["n/a"].phase == Provisioning
    ensures var t := AfterPass(mid, PROVISIONING_TIMEOUT + 1);
            && Tick(OneJob(), PROVISIONING_TIMEOUT + 1, t)
            && "n/a" in t.jobs && t.jobs["n/a"].phase == Failed && t.jobs["n/a"].reason == ProvisioningTimeout
  {
    hide Reachable, Inv, ScheduleOne, SchedulingPass, AfterPass;
    OneJobReached();
    var s := OneJob();
    assert "n/x" in FreeIn(s, OTHER_POOL) && s.reservations["n/x"].bmhRef == "h";
    var ip := OfferTaken(s, "n/a", "s", "h");
    mid := Assign(s, "n/a", "s", "h", ip);
    assert PendingKeys(s) == {"n/a"};
    LonePass(s, "n/a", mid);
    ScheduledSurvivesIff(s, PROVISIONING_TIMEOUT + 1, mid, "n/a");
  }
}
