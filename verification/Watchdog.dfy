/** The watchdog: keepalive, probes, and restarts held back by a cooldown and a limit. */
module Watchdog {
  datatype Option<+T> = None | Some(value: T)

  datatype Config = Config(restartCooldown: int, maxRestarts: int, hasRuntime: bool) {
    function Cooldown(): int {
      if restartCooldown == 0 then 10 else restartCooldown
    }

    function MaxRestarts(): int {
      if maxRestarts == 0 then 5 else maxRestarts
    }
  }

  datatype Probe = Probe(periodSeconds: int, failureThreshold: int, successThreshold: int)

  datatype ProbeState = ProbeState(failures: int, successes: int, lastProbe: Option<int>)

  const FRESH_PROBE := ProbeState(0, 0, None)

  datatype Policy = Always | OnFailure | Never | OtherPolicy

  datatype Status = Running | Stopped | Restarting | Failed

  datatype ManagedUnit = ManagedUnit(
    policy: Policy, startOnBoot: bool, startup: Option<Probe>, liveness: Option<Probe>, readiness: Option<Probe>,
      legacyCheck: bool,
    restartCount: int, lastRestartAt: Option<int>, healthy: bool, ready: bool, startupComplete: bool, status: Status,
    startupState: ProbeState, livenessState: ProbeState, readinessState: ProbeState)

  // What one check of a unit finds outside: the clock at its several readings, the container and the probes.
  datatype Found = Found(now: int, keepaliveAt: int, keepaliveStamp: int, restartAt: int, restartStamp: int,
                         stopped: bool, startOk: bool, startupOk: bool, livenessOk: bool, readinessOk: bool,
                           legacyOk: bool)
  {
    /** The clock does not run backwards within the check. */
    predicate Clocked() {
      keepaliveAt <= keepaliveStamp <= restartAt <= restartStamp
    }
  }

  datatype Restart = Restart(at: int, byProbe: bool)

  /** A unit with the restarts it has had since registration. */
  datatype Watched = Watched(u: ManagedUnit, log: seq<Restart>)

  function Default(x: int, d: int): int {
    if x == 0 then d else x
  }

  function Registered(u: ManagedUnit): ManagedUnit {
    u.(healthy := true, status := Running, ready := true, startupComplete := if u.startup.None? then true
      else u.startupComplete)
  }

  predicate CoolEnough(c: Config, u: ManagedUnit, at: int) {
    u.lastRestartAt.None? || at - u.lastRestartAt.value >= c.Cooldown()
  }

  function Stamped(w: Watched, at: int, byProbe: bool, status: Status): Watched {
    Watched(w.u.(restartCount := w.u.restartCount + 1, lastRestartAt := Some(at), status := status),
      w.log + [Restart(at, byProbe)])
  }

  function Keepalive(c: Config, w: Watched, f: Found): Watched {
    if c.hasRuntime && f.stopped && w.u.status != Failed && CoolEnough(c, w.u, f.keepaliveAt) && f.startOk
    then Stamped(w, f.keepaliveStamp, false, Running) else w
  }

  function RestartUnit(c: Config, w: Watched, f: Found): Watched {
    if w.u.restartCount >= c.MaxRestarts() then w.(u := w.u.(status := Failed))
    else if !CoolEnough(c, w.u, f.restartAt) then w
    else Stamped(w, f.restartStamp, true, Restarting)
  }

  function HandleUnhealthy(c: Config, w: Watched, f: Found): Watched {
    match w.u.policy
    case Always => RestartUnit(c, w, f)
    case OnFailure => RestartUnit(c, w, f)
    case Never => w.(u := w.u.(status := Stopped))
    case OtherPolicy => w
  }

  predicate Due(p: Probe, s: ProbeState, now: int) {
    s.lastProbe.None? || now - s.lastProbe.value >= Default(p.periodSeconds, 10)
  }

  function Probed(s: ProbeState, ok: bool, now: int): ProbeState {
    if ok then ProbeState(0, s.successes + 1, Some(now)) else ProbeState(s.failures + 1, 0, Some(now))
  }

  function StartupPhase(c: Config, w: Watched, f: Found, p: Probe): Watched {
    if !Due(p, w.u.startupState, f.now) then w
    else
      var s := Probed(w.u.startupState, f.startupOk, f.now);
      var v := w.(u := w.u.(startupState := s));
      if f.startupOk then
        if s.successes >= Default(p.successThreshold, 1) then v.(u := v.u.(startupComplete := true)) else v
      else if s.failures >= Default(p.failureThreshold, 3) then
        var r := RestartUnit(c, v, f);
        r.(u := r.u.(startupState := FRESH_PROBE, startupComplete := false))
      else v
  }

  function LivenessPhase(c: Config, w: Watched, f: Found, p: Probe): Watched {
    if !Due(p, w.u.livenessState, f.now) then w
    else
      var s := Probed(w.u.livenessState, f.livenessOk, f.now);
      var v := w.(u := w.u.(livenessState := s));
      if f.livenessOk then
        if !v.u.healthy then v.(u := v.u.(healthy := true, status := Running)) else v
      else if s.failures >= Default(p.failureThreshold, 3) then
        var r := HandleUnhealthy(c, v.(u := v.u.(healthy := false)), f);
        r.(u := r.u.(livenessState := FRESH_PROBE))
      else v
  }

  function LegacyPhase(c: Config, w: Watched, f: Found): Watched {
    var v := w.(u := w.u.(healthy := f.legacyOk));
    if w.u.healthy && !f.legacyOk then HandleUnhealthy(c, v, f)
    else if !w.u.healthy && f.legacyOk then v.(u := v.u.(status := Running))
    else v
  }

  function ReadinessPhase(w: Watched, f: Found, p: Probe): Watched {
    if !Due(p, w.u.readinessState, f.now) then w
    else
      var s := Probed(w.u.readinessState, f.readinessOk, f.now);
      var v := w.(u := w.u.(readinessState := s));
      if f.readinessOk then
        if s.successes >= Default(p.successThreshold, 1) then v.(u := v.u.(ready := true)) else v
      else if s.failures >= Default(p.failureThreshold, 3) then v.(u := v.u.(ready := false))
      else v
  }

  function KeepalivePhase(c: Config, w: Watched, f: Found): Watched {
    if w.u.startOnBoot then Keepalive(c, w, f) else w
  }

  function HealthPhase(c: Config, w: Watched, f: Found): Watched {
    if w.u.liveness.Some? then LivenessPhase(c, w, f, w.u.liveness.value)
    else if w.u.legacyCheck then LegacyPhase(c, w, f) else w
  }

  function LastPhase(w: Watched, f: Found): Watched {
    if w.u.readiness.Some? then ReadinessPhase(w, f, w.u.readiness.value) else w
  }

  /** One round of the watchdog for one unit; health and readiness wait for the startup probe. */
  function Check(c: Config, w: Watched, f: Found): Watched {
    var k := KeepalivePhase(c, w, f);
    if !k.u.startupComplete && k.u.startup.Some? then StartupPhase(c, k, f, k.u.startup.value)
    else LastPhase(HealthPhase(c, k, f), f)
  }

  // Spacing and the limit.

  ghost predicate Spaced(log: seq<Restart>, cooldown: int) {
    forall i | 0 <= i < |log| - 1 :: log[i + 1].at - log[i].at >= cooldown
  }

  function ProbeRestarts(log: seq<Restart>): nat {
    if log == [] then 0 else ProbeRestarts(log[..|log| - 1]) + (if log[|log| - 1].byProbe then 1 else 0)
  }

  function Max(a: int, b: int): int {
    if a > b then a else b
  }

  /** Since registration with the given count: restarts are spaced, remembered, counted and within the limit. */
  ghost predicate Kept(c: Config, count: int, w: Watched) {
    && Spaced(w.log, c.Cooldown())
    && (w.log != [] ==> w.u.lastRestartAt == Some(w.log[|w.log| - 1].at))
    && w.u.restartCount == count + |w.log|
    && ProbeRestarts(w.log) <= |w.log|
    && ProbeRestarts(w.log) <= Max(0, c.MaxRestarts() - count)
  }

  lemma StampedKept(c: Config, count: int, w: Watched, at: int, stamp: int, byProbe: bool, status: Status)
    requires Kept(c, count, w) && CoolEnough(c, w.u, at) && at <= stamp
    requires byProbe ==> w.u.restartCount < c.MaxRestarts()
    ensures Kept(c, count, Stamped(w, stamp, byProbe, status))
  {
    var log := Stamped(w, stamp, byProbe, status).log;
    assert log[..|log| - 1] == w.log;
  }

  lemma RestartKept(c: Config, count: int, w: Watched, f: Found)
    requires Kept(c, count, w) && f.Clocked()
    ensures Kept(c, count, RestartUnit(c, w, f)) && Kept(c, count, HandleUnhealthy(c, w, f))
  {
    hide Stamped, Kept;
    SameKept(c, count, w, w.(u := w.u.(status := Failed)));
    SameKept(c, count, w, w.(u := w.u.(status := Stopped)));
    if w.u.restartCount < c.MaxRestarts() && CoolEnough(c, w.u, f.restartAt) {
      StampedKept(c, count, w, f.restartAt, f.restartStamp, true, Restarting);
    }
  }

  /** The same restarts so far. */
  predicate SameRestarts(w: Watched, v: Watched) {
    v.log == w.log && v.u.restartCount == w.u.restartCount && v.u.lastRestartAt == w.u.lastRestartAt
  }

  lemma SameKept(c: Config, count: int, w: Watched, v: Watched)
    requires Kept(c, count, w) && SameRestarts(w, v)
    ensures Kept(c, count, v)
  {
  }

  lemma {:induction false} CheckKept(c: Config, count: int, w: Watched, f: Found)
    requires Kept(c, count, w) && f.Clocked()
    ensures Kept(c, count, Check(c, w, f))
  {
    hide Kept, KeepalivePhase, StartupPhase, HealthPhase, LastPhase, Found.Clocked;
    var k := KeepalivePhase(c, w, f);
    KeepaliveKept(c, count, w, f);
    if !k.u.startupComplete && k.u.startup.Some? {
      StartupKept(c, count, k, f, k.u.startup.value);
    } else {
      var h := HealthPhase(c, k, f);
      HealthKept(c, count, k, f);
      LastSame(h, f);
      SameKept(c, count, h, LastPhase(h, f));
    }
  }

  lemma KeepaliveKept(c: Config, count: int, w: Watched, f: Found)
    requires Kept(c, count, w) && f.Clocked()
    ensures Kept(c, count, KeepalivePhase(c, w, f))
  {
    hide Kept, Stamped;
    if CoolEnough(c, w.u, f.keepaliveAt) {
      StampedKept(c, count, w, f.keepaliveAt, f.keepaliveStamp, false, Running);
    }
  }

  lemma LastSame(w: Watched, f: Found)
    ensures SameRestarts(w, LastPhase(w, f))
  {
    hide Probed, Due;
  }

  lemma StartupKept(c: Config, count: int, w: Watched, f: Found, p: Probe)
    requires Kept(c, count, w) && f.Clocked()
    ensures Kept(c, count, StartupPhase(c, w, f, p))
  {
    hide Kept, RestartUnit, Probed, Due, Found.Clocked;
    var v := w.(u := w.u.(startupState := Probed(w.u.startupState, f.startupOk, f.now)));
    SameKept(c, count, w, v);
    RestartKept(c, count, v, f);
    var r := RestartUnit(c, v, f);
    SameKept(c, count, r, r.(u := r.u.(startupState := FRESH_PROBE, startupComplete := false)));
    SameKept(c, count, v, v.(u := v.u.(startupComplete := true)));
  }

  lemma HealthKept(c: Config, count: int, w: Watched, f: Found)
    requires Kept(c, count, w) && f.Clocked()
    ensures Kept(c, count, HealthPhase(c, w, f))
  {
    hide Kept, LivenessPhase, LegacyPhase, Found.Clocked;
    if w.u.liveness.Some? {
      LivenessKept(c, count, w, f, w.u.liveness.value);
    } else {
      LegacyKept(c, count, w, f);
    }
  }

  lemma LivenessKept(c: Config, count: int, w: Watched, f: Found, p: Probe)
    requires Kept(c, count, w) && f.Clocked()
    ensures Kept(c, count, LivenessPhase(c, w, f, p))
  {
    hide Kept, HandleUnhealthy, Probed, Due, Found.Clocked;
    var v := w.(u := w.u.(livenessState := Probed(w.u.livenessState, f.livenessOk, f.now)));
    var sick := v.(u := v.u.(healthy := false));
    SameKept(c, count, w, v);
    SameKept(c, count, v, v.(u := v.u.(healthy := true, status := Running)));
    SameKept(c, count, v, sick);
    RestartKept(c, count, sick, f);
    var r := HandleUnhealthy(c, sick, f);
    SameKept(c, count, r, r.(u := r.u.(livenessState := FRESH_PROBE)));
  }

  lemma LegacyKept(c: Config, count: int, w: Watched, f: Found)
    requires Kept(c, count, w) && f.Clocked()
    ensures Kept(c, count, LegacyPhase(c, w, f))
  {
    hide Kept, HandleUnhealthy, Found.Clocked;
    var v := w.(u := w.u.(healthy := f.legacyOk));
    SameKept(c, count, w, v);
    SameKept(c, count, v, v.(u := v.u.(status := Running)));
    RestartKept(c, count, v, f);
  }

  /** The unit after a number of rounds since its registration. */
  function After(c: Config, u: ManagedUnit, rounds: seq<Found>): Watched {
    if rounds == [] then Watched(Registered(u), [])
    else Check(c, After(c, u, rounds[..|rounds| - 1]), rounds[|rounds| - 1])
  }

  /** Over every run: restarts at least a cooldown apart, and at most the limit of them by probes and health checks. */
  lemma {:induction false} RunKept(c: Config, u: ManagedUnit, rounds: seq<Found>)
    requires forall i | 0 <= i < |rounds| :: rounds[i].Clocked()
    ensures var w := After(c, u, rounds);
            && Spaced(w.log, c.Cooldown())
            && (w.log != [] ==> w.u.lastRestartAt == Some(w.log[|w.log| - 1].at))
            && w.u.restartCount == u.restartCount + |w.log|
            && ProbeRestarts(w.log) <= Max(0, c.MaxRestarts() - u.restartCount)
  {
    RunKeptAll(c, u, rounds);
  }

  lemma {:induction false} RunKeptAll(c: Config, u: ManagedUnit, rounds: seq<Found>)
    requires forall i | 0 <= i < |rounds| :: rounds[i].Clocked()
    ensures Kept(c, u.restartCount, After(c, u, rounds))
    decreases |rounds|
  {
    hide Check;
    if rounds != [] {
      RunKeptAll(c, u, rounds[..|rounds| - 1]);
      CheckKept(c, u.restartCount, After(c, u, rounds[..|rounds| - 1]), rounds[|rounds| - 1]);
    }
  }

  /** Once the limit is reached no probe restarts the unit again, whatever it finds; only keepalive still may. */
  lemma {:induction false} LimitIsFinal(c: Config, w: Watched, f: Found)
    requires w.u.restartCount >= c.MaxRestarts()
    ensures SameRestarts(KeepalivePhase(c, w, f), Check(c, w, f))
    ensures Check(c, w, f).u.restartCount >= c.MaxRestarts()
  {
    hide KeepalivePhase, StartupPhase, HealthPhase, LastPhase;
    var k := KeepalivePhase(c, w, f);
    KeepaliveCounts(c, w, f);
    if !k.u.startupComplete && k.u.startup.Some? {
      StartupAtLimit(c, k, f, k.u.startup.value);
    } else {
      HealthAtLimit(c, k, f);
      LastSame(HealthPhase(c, k, f), f);
    }
  }

  lemma KeepaliveCounts(c: Config, w: Watched, f: Found)
    ensures KeepalivePhase(c, w, f).u.restartCount >= w.u.restartCount
  {
  }

  lemma StartupAtLimit(c: Config, w: Watched, f: Found, p: Probe)
    requires w.u.restartCount >= c.MaxRestarts()
    ensures SameRestarts(w, StartupPhase(c, w, f, p))
  {
    hide Probed, Due, Stamped;
  }

  lemma HealthAtLimit(c: Config, w: Watched, f: Found)
    requires w.u.restartCount >= c.MaxRestarts()
    ensures SameRestarts(w, HealthPhase(c, w, f))
  {
    hide LivenessPhase, LegacyPhase;
    if w.u.liveness.Some? {
      LivenessAtLimit(c, w, f, w.u.liveness.value);
    } else {
      LegacyAtLimit(c, w, f);
    }
  }

  lemma LivenessAtLimit(c: Config, w: Watched, f: Found, p: Probe)
    requires w.u.restartCount >= c.MaxRestarts()
    ensures SameRestarts(w, LivenessPhase(c, w, f, p))
  {
    hide Probed, Due, Stamped;
  }

  lemma LegacyAtLimit(c: Config, w: Watched, f: Found)
    requires w.u.restartCount >= c.MaxRestarts()
    ensures SameRestarts(w, LegacyPhase(c, w, f))
  {
    hide Stamped;
  }

  // The manager.

  class Manager {
    const cfg: Config
    var units: map<string, ManagedUnit>
    ghost var log: map<string, seq<Restart>>

    constructor (cfg: Config)
      ensures this.cfg == cfg && units == map[] && log == map[]
    {
      this.cfg := cfg;
      units := map[];
      log := map[];
    }

    ghost predicate Valid()
      reads this
    {
      units.Keys == log.Keys
    }

    ghost function At(name: string): Watched
      reads this
      requires Valid() && name in units
    {
      Watched(units[name], log[name])
    }

    method Register(name: string, unit: ManagedUnit)
      requires Valid()
      modifies this
      ensures Valid() && units == old(units)[name := Registered(unit)] && log == old(log)[name := []]
      ensures var complete := unit.startup.None? || unit.startupComplete;
              units[name] == unit.(healthy := true, ready := true, status := Running, startupComplete := complete)
    {
      var u := unit.(healthy := true, status := Running);
      if u.startup.None? {
        u := u.(startupComplete := true);
      }
      u := u.(ready := true);
      units := units[name := u];
      log := log[name := []];
    }

    method Unregister(name: string)
      requires Valid()
      modifies this
      ensures Valid() && units == old(units) - {name} && log == old(log) - {name}
    {
      units := units - {name};
      log := log - {name};
    }

    /** One round over all units, in any order; found says what each check finds. */
    method CheckAll(found: string -> Found)
      requires Valid()
      modifies this
      ensures Valid() && units.Keys == old(units).Keys
      ensures forall n | n in old(units) :: n in units && At(n) == Check(cfg, old(At(n)), found(n))
    {
      hide Check;
      var todo := units.Keys;
      while todo != {}
        invariant Valid() && todo <= units.Keys && units.Keys == old(units).Keys
        invariant forall n | n in units :: At(n) == if n in todo then old(At(n)) else Check(cfg, old(At(n)), found(n))
        decreases |todo|
      {
        var n :| n in todo;
        todo := todo - {n};
        var u, restarts := CheckUnit(units[n], found(n), log[n]);
        assert Watched(u, restarts) == Check(cfg, old(At(n)), found(n));
        units := units[n := u];
        log := log[n := restarts];
      }
    }

    method CheckUnit(unit: ManagedUnit, f: Found, ghost before: seq<Restart>)
      returns (u: ManagedUnit, ghost restarts: seq<Restart>)
      ensures u == Check(cfg, Watched(unit, before), f).u && restarts == Check(cfg, Watched(unit, before), f).log
    {
      hide StartupPhase, LivenessPhase, LegacyPhase, ReadinessPhase, Keepalive;
      u, restarts := unit, before;
      if u.startOnBoot {
        u, restarts := DoKeepalive(u, f, restarts);
      }
      if !u.startupComplete && u.startup.Some? {
        u, restarts := RunStartup(u, f, u.startup.value, restarts);
        return;
      }
      if u.liveness.Some? {
        u, restarts := RunLiveness(u, f, u.liveness.value, restarts);
      } else if u.legacyCheck {
        u, restarts := RunLegacy(u, f, restarts);
      }
      if u.readiness.Some? {
        u := RunReadiness(u, f, u.readiness.value, restarts);
      }
    }

    method DoKeepalive(unit: ManagedUnit, f: Found, ghost before: seq<Restart>)
      returns (u: ManagedUnit, ghost restarts: seq<Restart>)
      ensures u == Keepalive(cfg, Watched(unit, before), f).u
              && restarts == Keepalive(cfg, Watched(unit, before), f).log
      ensures unit.status == Failed ==> u == unit && restarts == before
      ensures restarts == before || restarts == before + [Restart(f.keepaliveStamp, false)]
    {
      u, restarts := unit, before;
      if !cfg.hasRuntime {
        return;
      }
      if f.stopped && u.status != Failed {
        var cooldown := cfg.restartCooldown;
        if cooldown == 0 {
          cooldown := 10;
        }
        if u.lastRestartAt.Some? && f.keepaliveAt - u.lastRestartAt.value < cooldown {
          return;
        }
        if !f.startOk {
          return;
        }
        u := u.(restartCount := u.restartCount + 1);
        u := u.(lastRestartAt := Some(f.keepaliveStamp));
        u := u.(status := Running);
        restarts := restarts + [Restart(f.keepaliveStamp, false)];
      }
    }

    method DoRestart(unit: ManagedUnit, f: Found, ghost before: seq<Restart>)
      returns (u: ManagedUnit, ghost restarts: seq<Restart>)
      ensures u == RestartUnit(cfg, Watched(unit, before), f).u
              && restarts == RestartUnit(cfg, Watched(unit, before), f).log
      ensures unit.restartCount >= cfg.MaxRestarts() ==> u == unit.(status := Failed) && restarts == before
      ensures u.restartCount - unit.restartCount == |restarts| - |before| <= 1
    {
      u, restarts := unit, before;
      var maxRestarts := cfg.maxRestarts;
      if maxRestarts == 0 {
        maxRestarts := 5;
      }
      if u.restartCount >= maxRestarts {
        u := u.(status := Failed);
        return;
      }
      var cooldown := cfg.restartCooldown;
      if cooldown == 0 {
        cooldown := 10;
      }
      if u.lastRestartAt.Some? && f.restartAt - u.lastRestartAt.value < cooldown {
        return;
      }
      u := u.(status := Restarting);
      u := u.(restartCount := u.restartCount + 1);
      u := u.(lastRestartAt := Some(f.restartStamp));
      restarts := restarts + [Restart(f.restartStamp, true)];
    }

    method DoUnhealthy(unit: ManagedUnit, f: Found, ghost before: seq<Restart>)
      returns (u: ManagedUnit, ghost restarts: seq<Restart>)
      ensures u == HandleUnhealthy(cfg, Watched(unit, before), f).u
              && restarts == HandleUnhealthy(cfg, Watched(unit, before), f).log
      ensures !unit.policy.Always? && !unit.policy.OnFailure? ==> restarts == before
      ensures u.healthy == unit.healthy
      ensures unit.restartCount >= cfg.MaxRestarts() ==> restarts == before
    {
      u, restarts := unit, before;
      match u.policy
      case Always => u, restarts := DoRestart(u, f, restarts);
      case OnFailure => u, restarts := DoRestart(u, f, restarts);
      case Never => u := u.(status := Stopped);
      case OtherPolicy =>
    }

    method RunStartup(unit: ManagedUnit, f: Found, p: Probe, ghost before: seq<Restart>)
      returns (u: ManagedUnit, ghost restarts: seq<Restart>)
      ensures u == StartupPhase(cfg, Watched(unit, before), f, p).u
              && restarts == StartupPhase(cfg, Watched(unit, before), f, p).log
      ensures f.startupOk || unit.restartCount >= cfg.MaxRestarts() ==> restarts == before
      ensures u.startupComplete && !unit.startupComplete ==> f.startupOk
    {
      hide RestartUnit;
      u, restarts := unit, before;
      if !Due(p, u.startupState, f.now) {
        return;
      }
      u := u.(startupState := Probed(u.startupState, f.startupOk, f.now));
      if f.startupOk {
        if u.startupState.successes >= Default(p.successThreshold, 1) {
          u := u.(startupComplete := true);
        }
      } else if u.startupState.failures >= Default(p.failureThreshold, 3) {
        u, restarts := DoRestart(u, f, restarts);
        u := u.(startupState := FRESH_PROBE);
        u := u.(startupComplete := false);
      }
    }

    method RunLiveness(unit: ManagedUnit, f: Found, p: Probe, ghost before: seq<Restart>)
      returns (u: ManagedUnit, ghost restarts: seq<Restart>)
      ensures u == LivenessPhase(cfg, Watched(unit, before), f, p).u
              && restarts == LivenessPhase(cfg, Watched(unit, before), f, p).log
      ensures f.livenessOk || unit.restartCount >= cfg.MaxRestarts() ==> restarts == before
      ensures restarts != before ==> unit.livenessState.failures + 1 >= Default(p.failureThreshold, 3)
    {
      hide HandleUnhealthy;
      u, restarts := unit, before;
      if !Due(p, u.livenessState, f.now) {
        return;
      }
      u := u.(livenessState := Probed(u.livenessState, f.livenessOk, f.now));
      if f.livenessOk {
        if !u.healthy {
          u := u.(healthy := true);
          u := u.(status := Running);
        }
      } else if u.livenessState.failures >= Default(p.failureThreshold, 3) {
        u := u.(healthy := false);
        u, restarts := DoUnhealthy(u, f, restarts);
        u := u.(livenessState := FRESH_PROBE);
      }
    }

    method RunLegacy(unit: ManagedUnit, f: Found, ghost before: seq<Restart>)
      returns (u: ManagedUnit, ghost restarts: seq<Restart>)
      ensures u == LegacyPhase(cfg, Watched(unit, before), f).u
              && restarts == LegacyPhase(cfg, Watched(unit, before), f).log
      ensures u.healthy == f.legacyOk && (unit.healthy == f.legacyOk ==> u == unit && restarts == before)
      ensures unit.restartCount >= cfg.MaxRestarts() ==> restarts == before
    {
      hide HandleUnhealthy;
      u, restarts := unit, before;
      var wasHealthy := u.healthy;
      u := u.(healthy := f.legacyOk);
      if wasHealthy && !f.legacyOk {
        u, restarts := DoUnhealthy(u, f, restarts);
      } else if !wasHealthy && f.legacyOk {
        u := u.(status := Running);
      }
    }

    method RunReadiness(unit: ManagedUnit, f: Found, p: Probe, ghost before: seq<Restart>) returns (u: ManagedUnit)
      ensures Watched(u, before) == ReadinessPhase(Watched(unit, before), f, p)
      ensures u == unit.(ready := u.ready, readinessState := u.readinessState)
    {
      u := unit;
      if !Due(p, u.readinessState, f.now) {
        return;
      }
      u := u.(readinessState := Probed(u.readinessState, f.readinessOk, f.now));
      if f.readinessOk {
        if u.readinessState.successes >= Default(p.successThreshold, 1) && !u.ready {
          u := u.(ready := true);
        }
      } else if u.readinessState.failures >= Default(p.failureThreshold, 3) && u.ready {
        u := u.(ready := false);
      }
    }
  }
}
