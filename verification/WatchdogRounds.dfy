/** When exactly a watchdog round restarts a unit, and how often one whose liveness probe keeps failing is restarted. */
module WatchdogRounds {
  import opened Watchdog

  // What a round asks for, in the unit's fields and what was found.

  predicate Cooled(c: Config, last: Option<int>, at: int) {
    last.None? || at - last.value >= (if c.restartCooldown == 0 then 10 else c.restartCooldown)
  }

  predicate BelowLimit(c: Config, count: int) {
    count < (if c.maxRestarts == 0 then 5 else c.maxRestarts)
  }

  /** Keepalive finds a stopped container that it may and can start. */
  predicate KeepsAlive(c: Config, u: ManagedUnit, f: Found) {
    && u.startOnBoot && c.hasRuntime && f.stopped && f.startOk && u.status != Failed
    && Cooled(c, u.lastRestartAt, f.keepaliveAt)
  }

  predicate Timely(p: Probe, s: ProbeState, now: int) {
    s.lastProbe.None? || now - s.lastProbe.value >= (if p.periodSeconds == 0 then 10 else p.periodSeconds)
  }

  /** A probe is run, fails, and has then failed as often in a row as it takes. */
  predicate FailsOnce(p: Probe, s: ProbeState, ok: bool, now: int) {
    !ok && Timely(p, s, now) && s.failures + 1 >= (if p.failureThreshold == 0 then 3 else p.failureThreshold)
  }

  /** The liveness probe gives the unit up, or, without one, the old health check sees it turn bad. */
  predicate TurnsBad(u: ManagedUnit, f: Found) {
    if u.liveness.Some? then FailsOnce(u.liveness.value, u.livenessState, f.livenessOk, f.now)
    else u.legacyCheck && u.healthy && !f.legacyOk
  }

  predicate StartingUp(u: ManagedUnit) {
    !u.startupComplete && u.startup.Some?
  }

  /** A restart is asked for: by the startup probe, or, once that is over, by bad health under a policy for it. */
  predicate AsksRestart(u: ManagedUnit, f: Found) {
    if StartingUp(u) then FailsOnce(u.startup.value, u.startupState, f.startupOk, f.now)
    else (u.policy == Always || u.policy == OnFailure) && TurnsBad(u, f)
  }

  // What a round does.

  /**
   * The restarts of one round: keepalive's, and then one for a probe or health check if it is asked for, the limit is
   * not reached and the cooldown is over, both counting keepalive's restart in the same round.
   */
  ghost predicate RestartsAsAsked(c: Config, w: Watched, f: Found, out: Watched) {
    var kept := KeepsAlive(c, w.u, f);
    var count, last := if kept then w.u.restartCount + 1 else w.u.restartCount,
                       if kept then Some(f.keepaliveStamp) else w.u.lastRestartAt;
    var restarted := AsksRestart(w.u, f) && BelowLimit(c, count) && Cooled(c, last, f.restartAt);
    && out.log == w.log + (if kept then [Restart(f.keepaliveStamp, false)] else [])
                  + (if restarted then [Restart(f.restartStamp, true)] else [])
    && out.u.restartCount == (if restarted then count + 1 else count)
    && out.u.lastRestartAt == (if restarted then Some(f.restartStamp) else last)
  }

  /** A round restarts a unit exactly when something asks for it and limit and cooldown allow it. */
  lemma {:induction false} RoundRestarts(c: Config, w: Watched, f: Found)
    ensures RestartsAsAsked(c, w, f, Check(c, w, f))
  {
    hide StartupPhase, LivenessPhase, LegacyPhase, LastPhase, KeepalivePhase, FailsOnce, Cooled, BelowLimit,
         RestartsAsAsked;
    var k := KeepalivePhase(c, w, f);
    KeepaliveRestarts(c, w, f);
    if StartingUp(w.u) {
      StartupRestarts(c, k, f);
      RestartsInTurn(c, w, f, k, Check(c, w, f));
    } else {
      var h := HealthPhase(c, k, f);
      if w.u.liveness.Some? {
        LivenessRestarts(c, k, f);
      } else if w.u.legacyCheck {
        LegacyRestarts(c, k, f);
      } else {
        NoRestarts(k.log);
      }
      LastSame(h, f);
      RestartsInTurn(c, w, f, k, LastPhase(h, f));
    }
  }

  /** The restarts of the second part of a round, when the unit asks for one. */
  ghost predicate MayRestart(c: Config, k: Watched, f: Found, asked: bool, out: Watched) {
    if asked && BelowLimit(c, k.u.restartCount) && Cooled(c, k.u.lastRestartAt, f.restartAt)
    then out.log == k.log + [Restart(f.restartStamp, true)] && out.u.restartCount == k.u.restartCount + 1
         && out.u.lastRestartAt == Some(f.restartStamp)
    else SameRestarts(k, out)
  }

  /** Keepalive touches nothing a probe looks at but the restarts and the status. */
  lemma KeepaliveRestarts(c: Config, w: Watched, f: Found)
    ensures var k, kept := KeepalivePhase(c, w, f), KeepsAlive(c, w.u, f);
            && k.u == (if kept then w.u.(restartCount := w.u.restartCount + 1, lastRestartAt := Some(f.keepaliveStamp),
                                         status := Running) else w.u)
            && k.log == w.log + (if kept then [Restart(f.keepaliveStamp, false)] else [])
  {
    NoRestarts(w.log);
  }

  lemma NoRestarts(log: seq<Restart>)
    ensures log + [] == log
  {
  }

  lemma RestartsInTurn(c: Config, w: Watched, f: Found, k: Watched, out: Watched)
    requires var kept := KeepsAlive(c, w.u, f);
             && k.u.restartCount == (if kept then w.u.restartCount + 1 else w.u.restartCount)
             && k.u.lastRestartAt == (if kept then Some(f.keepaliveStamp) else w.u.lastRestartAt)
             && k.log == w.log + (if kept then [Restart(f.keepaliveStamp, false)] else [])
    requires MayRestart(c, k, f, AsksRestart(w.u, f), out)
    ensures RestartsAsAsked(c, w, f, out)
  {
    hide KeepsAlive, AsksRestart, Cooled, BelowLimit;
    NoRestarts(k.log);
  }

  lemma RestartUnitRestarts(c: Config, k: Watched, f: Found)
    ensures MayRestart(c, k, f, true, RestartUnit(c, k, f))
  {
  }

  lemma StartupRestarts(c: Config, k: Watched, f: Found)
    requires StartingUp(k.u)
    ensures MayRestart(c, k, f, FailsOnce(k.u.startup.value, k.u.startupState, f.startupOk, f.now),
              StartupPhase(c, k, f, k.u.startup.value))
  {
    hide RestartUnit, Cooled, BelowLimit;
    RestartUnitRestarts(c, k.(u := k.u.(startupState := Probed(k.u.startupState, f.startupOk, f.now))), f);
  }

  predicate PolicyRestarts(u: ManagedUnit) {
    u.policy == Always || u.policy == OnFailure
  }

  lemma UnhealthyRestarts(c: Config, k: Watched, f: Found)
    ensures MayRestart(c, k, f, PolicyRestarts(k.u), HandleUnhealthy(c, k, f))
  {
    hide RestartUnit, Cooled, BelowLimit;
    RestartUnitRestarts(c, k, f);
  }

  lemma LivenessRestarts(c: Config, k: Watched, f: Found)
    requires k.u.liveness.Some?
    ensures MayRestart(c, k, f, PolicyRestarts(k.u) && TurnsBad(k.u, f), LivenessPhase(c, k, f, k.u.liveness.value))
  {
    hide HandleUnhealthy, Cooled, BelowLimit;
    var s := Probed(k.u.livenessState, f.livenessOk, f.now);
    UnhealthyRestarts(c, k.(u := k.u.(livenessState := s, healthy := false)), f);
  }

  lemma LegacyRestarts(c: Config, k: Watched, f: Found)
    requires k.u.liveness.None? && k.u.legacyCheck
    ensures MayRestart(c, k, f, PolicyRestarts(k.u) && TurnsBad(k.u, f), LegacyPhase(c, k, f))
  {
    hide HandleUnhealthy, Cooled, BelowLimit;
    UnhealthyRestarts(c, k.(u := k.u.(healthy := f.legacyOk)), f);
  }

  // The other fields of the unit.

  /** A probe is run, succeeds, and has then succeeded as often in a row as it takes. */
  predicate PassesEnough(p: Probe, s: ProbeState, ok: bool, now: int) {
    ok && Timely(p, s, now) && s.successes + 1 >= (if p.successThreshold == 0 then 1 else p.successThreshold)
  }

  /** The liveness probe or the old health check finds the unit well. */
  predicate FoundWell(u: ManagedUnit, f: Found) {
    if u.liveness.Some? then f.livenessOk && Timely(u.liveness.value, u.livenessState, f.now)
    else u.legacyCheck && f.legacyOk
  }

  /** The failures and successes in a row after a probe that may be run; giving up starts over if it resets. */
  predicate Counts(p: Probe, s: ProbeState, ok: bool, now: int, resets: bool, out: ProbeState) {
    if !Timely(p, s, now) then out == s
    else if resets && FailsOnce(p, s, ok, now) then out == ProbeState(0, 0, None)
    else out == ProbeState(if ok then 0 else s.failures + 1, if ok then s.successes + 1 else 0, Some(now))
  }

  /** The status after a round. */
  function StatusAfter(c: Config, u: ManagedUnit, f: Found): Status {
    var kept := KeepsAlive(c, u, f);
    var count, last := if kept then u.restartCount + 1 else u.restartCount,
                       if kept then Some(f.keepaliveStamp) else u.lastRestartAt;
    var before := if kept then Running else u.status;
    if AsksRestart(u, f) then
      if !BelowLimit(c, count) then Failed else if Cooled(c, last, f.restartAt) then Restarting else before
    else if StartingUp(u) then before
    else if u.policy == Never && TurnsBad(u, f) then Stopped
    else if !u.healthy && FoundWell(u, f) then Running
    else before
  }

  /** What a round makes of the fields that do not count restarts. */
  ghost predicate FieldsAsFound(c: Config, u: ManagedUnit, f: Found, v: ManagedUnit) {
    var starting := StartingUp(u);
    && v == u.(restartCount := v.restartCount, lastRestartAt := v.lastRestartAt, healthy := v.healthy,
               ready := v.ready, startupComplete := v.startupComplete, status := v.status,
               startupState := v.startupState, livenessState := v.livenessState, readinessState := v.readinessState)
    && v.status == StatusAfter(c, u, f)
    && (v.healthy <==> if starting then u.healthy else !TurnsBad(u, f) && (u.healthy || FoundWell(u, f)))
    && (v.startupComplete <==>
        u.startupComplete || (starting && PassesEnough(u.startup.value, u.startupState, f.startupOk, f.now)))
    && (if starting then Counts(u.startup.value, u.startupState, f.startupOk, f.now, true, v.startupState)
        else v.startupState == u.startupState)
    && (if !starting && u.liveness.Some?
        then Counts(u.liveness.value, u.livenessState, f.livenessOk, f.now, true, v.livenessState)
        else v.livenessState == u.livenessState)
    && (if starting || u.readiness.None? then v.ready == u.ready && v.readinessState == u.readinessState
        else
          && Counts(u.readiness.value, u.readinessState, f.readinessOk, f.now, false, v.readinessState)
          && (v.ready <==>
              !FailsOnce(u.readiness.value, u.readinessState, f.readinessOk, f.now)
              && (u.ready || PassesEnough(u.readiness.value, u.readinessState, f.readinessOk, f.now))))
  }

  /** A round leaves every field as the findings say, whatever the order of its phases. */
  lemma {:induction false} RoundFields(c: Config, w: Watched, f: Found)
    ensures FieldsAsFound(c, w.u, f, Check(c, w, f).u)
  {
    hide Check, FieldsAsFound;
    if StartingUp(w.u) {
      RoundStarting(c, w, f);
    } else {
      RoundSteady(c, w, f);
    }
  }

  lemma RoundStarting(c: Config, w: Watched, f: Found)
    requires StartingUp(w.u)
    ensures FieldsAsFound(c, w.u, f, Check(c, w, f).u)
  {
    hide StartupPhase, HealthPhase, LastPhase, KeepalivePhase, Counts, PassesEnough, FailsOnce, TurnsBad, FoundWell,
         StatusAfter, HealthStatus, AskedStatus, KeepsAlive;
    var k := KeepalivePhase(c, w, f);
    KeepaliveRestarts(c, w, f);
    StatusInTurn(c, w, f);
    StartupFields(c, k, f);
  }

  lemma RoundSteady(c: Config, w: Watched, f: Found)
    requires !StartingUp(w.u)
    ensures FieldsAsFound(c, w.u, f, Check(c, w, f).u)
  {
    hide StartupPhase, HealthPhase, ReadinessPhase, KeepalivePhase, Counts, PassesEnough, FailsOnce, TurnsBad,
         FoundWell, StatusAfter, HealthStatus, AskedStatus, KeepsAlive;
    var k := KeepalivePhase(c, w, f);
    KeepaliveRestarts(c, w, f);
    SameNews(w.u, k.u, f);
    StatusInTurn(c, w, f);
    HealthFields(c, k, f);
    if w.u.readiness.Some? {
      ReadinessFields(HealthPhase(c, k, f), f);
    }
  }

  lemma HealthFields(c: Config, k: Watched, f: Found)
    ensures var v := HealthPhase(c, k, f).u;
            && v == k.u.(restartCount := v.restartCount, lastRestartAt := v.lastRestartAt,
                         status := HealthStatus(c, k.u, f), healthy := v.healthy, livenessState := v.livenessState)
            && (v.healthy <==> !TurnsBad(k.u, f) && (k.u.healthy || FoundWell(k.u, f)))
            && (if k.u.liveness.Some?
                then Counts(k.u.liveness.value, k.u.livenessState, f.livenessOk, f.now, true, v.livenessState)
                else v.livenessState == k.u.livenessState)
  {
    hide LivenessPhase, LegacyPhase, Counts, FailsOnce, AskedStatus;
    if k.u.liveness.Some? {
      LivenessFields(c, k, f);
    } else if k.u.legacyCheck {
      LegacyFields(c, k, f);
    }
  }

  lemma StatusInTurn(c: Config, w: Watched, f: Found)
    ensures var k := KeepalivePhase(c, w, f);
            StatusAfter(c, w.u, f)
            == if StartingUp(w.u)
               then if FailsOnce(w.u.startup.value, w.u.startupState, f.startupOk, f.now) then AskedStatus(c, k.u, f)
                    else k.u.status
               else HealthStatus(c, k.u, f)
  {
    hide KeepalivePhase, Cooled, BelowLimit, TurnsBad, FoundWell, FailsOnce;
    var k := KeepalivePhase(c, w, f);
    KeepaliveRestarts(c, w, f);
    SameNews(w.u, k.u, f);
  }

  /** Bad and good news exclude each other, and depend only on what keepalive does not touch. */
  lemma SameNews(u: ManagedUnit, v: ManagedUnit, f: Found)
    requires v == u.(restartCount := v.restartCount, lastRestartAt := v.lastRestartAt, status := v.status)
    ensures TurnsBad(v, f) == TurnsBad(u, f) && FoundWell(v, f) == FoundWell(u, f)
    ensures !TurnsBad(u, f) || !FoundWell(u, f)
    ensures u.liveness.None? && !u.legacyCheck ==> !TurnsBad(u, f) && !FoundWell(u, f)
  {
  }

  /** The status that asking for a restart leaves. */
  function AskedStatus(c: Config, u: ManagedUnit, f: Found): Status {
    if !BelowLimit(c, u.restartCount) then Failed
    else if Cooled(c, u.lastRestartAt, f.restartAt) then Restarting else u.status
  }

  lemma RestartUnitFields(c: Config, k: Watched, f: Found)
    ensures var v := RestartUnit(c, k, f).u;
            v == k.u.(restartCount := v.restartCount, lastRestartAt := v.lastRestartAt,
                      status := AskedStatus(c, k.u, f))
  {
  }

  lemma StartupFields(c: Config, k: Watched, f: Found)
    requires StartingUp(k.u)
    ensures var p, v := k.u.startup.value, StartupPhase(c, k, f, k.u.startup.value).u;
            && v == k.u.(restartCount := v.restartCount, lastRestartAt := v.lastRestartAt, status := v.status,
                         startupComplete := v.startupComplete, startupState := v.startupState)
            && v.status == (if FailsOnce(p, k.u.startupState, f.startupOk, f.now) then AskedStatus(c, k.u, f)
                            else k.u.status)
            && (v.startupComplete <==> PassesEnough(p, k.u.startupState, f.startupOk, f.now))
            && Counts(p, k.u.startupState, f.startupOk, f.now, true, v.startupState)
  {
    hide RestartUnit, Cooled, BelowLimit;
    RestartUnitFields(c, k.(u := k.u.(startupState := Probed(k.u.startupState, f.startupOk, f.now))), f);
  }

  lemma UnhealthyFields(c: Config, k: Watched, f: Found)
    ensures var v := HandleUnhealthy(c, k, f).u;
            v == k.u.(restartCount := v.restartCount, lastRestartAt := v.lastRestartAt,
                      status := if PolicyRestarts(k.u) then AskedStatus(c, k.u, f)
                                else if k.u.policy == Never then Stopped else k.u.status)
  {
    hide RestartUnit, Cooled, BelowLimit;
    RestartUnitFields(c, k, f);
  }

  /** The status after health was looked at. */
  function HealthStatus(c: Config, u: ManagedUnit, f: Found): Status {
    if TurnsBad(u, f) then
      if PolicyRestarts(u) then AskedStatus(c, u, f) else if u.policy == Never then Stopped else u.status
    else if !u.healthy && FoundWell(u, f) then Running
    else u.status
  }

  lemma LivenessFields(c: Config, k: Watched, f: Found)
    requires k.u.liveness.Some?
    ensures var v := LivenessPhase(c, k, f, k.u.liveness.value).u;
            && v == k.u.(restartCount := v.restartCount, lastRestartAt := v.lastRestartAt,
                         status := HealthStatus(c, k.u, f), healthy := v.healthy, livenessState := v.livenessState)
            && (v.healthy <==> !TurnsBad(k.u, f) && (k.u.healthy || FoundWell(k.u, f)))
            && Counts(k.u.liveness.value, k.u.livenessState, f.livenessOk, f.now, true, v.livenessState)
  {
    hide HandleUnhealthy, AskedStatus;
    var s := Probed(k.u.livenessState, f.livenessOk, f.now);
    var v := k.(u := k.u.(livenessState := s, healthy := false));
    UnhealthyFields(c, v, f);
    SameAskedStatus(c, k.u, v.u, f);
  }

  lemma SameAskedStatus(c: Config, u: ManagedUnit, v: ManagedUnit, f: Found)
    requires v.restartCount == u.restartCount && v.lastRestartAt == u.lastRestartAt && v.status == u.status
    ensures AskedStatus(c, v, f) == AskedStatus(c, u, f)
  {
  }

  lemma LegacyFields(c: Config, k: Watched, f: Found)
    requires k.u.liveness.None? && k.u.legacyCheck
    ensures var v := LegacyPhase(c, k, f).u;
            && v == k.u.(restartCount := v.restartCount, lastRestartAt := v.lastRestartAt,
                         status := HealthStatus(c, k.u, f), healthy := v.healthy)
            && (v.healthy <==> !TurnsBad(k.u, f) && (k.u.healthy || FoundWell(k.u, f)))
  {
    hide HandleUnhealthy, Cooled, BelowLimit, AskedStatus;
    var v := k.(u := k.u.(healthy := f.legacyOk));
    UnhealthyFields(c, v, f);
    SameAskedStatus(c, k.u, v.u, f);
  }

  lemma ReadinessFields(k: Watched, f: Found)
    requires k.u.readiness.Some?
    ensures var p, s, v := k.u.readiness.value, k.u.readinessState, ReadinessPhase(k, f, k.u.readiness.value).u;
            && v == k.u.(ready := v.ready, readinessState := v.readinessState)
            && Counts(p, s, f.readinessOk, f.now, false, v.readinessState)
            && (v.ready <==>
                !FailsOnce(p, s, f.readinessOk, f.now) && (k.u.ready || PassesEnough(p, s, f.readinessOk, f.now)))
  {
  }

  // A unit whose liveness probe never succeeds.

  /** The probe is due in every round, fails, and every cooldown is over by the next round. */
  ghost predicate KeepsFailing(c: Config, p: Probe, rounds: seq<Found>) {
    && (forall i | 0 <= i < |rounds| :: !rounds[i].livenessOk)
    && (forall i, j | 0 <= i < j < |rounds| ::
          && rounds[j].now - rounds[i].now >= (if p.periodSeconds == 0 then 10 else p.periodSeconds)
          && rounds[j].restartAt - rounds[i].restartStamp >= (if c.restartCooldown == 0 then 10 else c.restartCooldown))
  }

  function Least(a: nat, b: nat): nat {
    if a < b then a else b
  }

  /** A fresh unit that only its liveness probe watches. */
  predicate OnlyLiveness(u: ManagedUnit) {
    && u.liveness.Some? && u.startup.None? && !u.startOnBoot && PolicyRestarts(u)
    && u.restartCount == 0 && u.lastRestartAt.None? && u.livenessState == ProbeState(0, 0, None)
  }

  /** After n rounds with threshold th and limit m: restarted n / th times but no more than m, then given up. */
  ghost predicate Failing(p: Probe, th: int, m: nat, rounds: seq<Found>, w: Watched)
    requires th > 0
  {
    var n := |rounds|;
    && w.u.liveness == Some(p) && w.u.startupComplete && !w.u.startOnBoot && PolicyRestarts(w.u)
    && w.u.livenessState.failures == n % th
    && w.u.livenessState.lastProbe == (if n % th == 0 then None else Some(rounds[n - 1].now))
    && |w.log| == w.u.restartCount == Least(m, n / th)
    && (w.u.lastRestartAt.Some? ==> exists i | 0 <= i < n :: w.u.lastRestartAt == Some(rounds[i].restartStamp))
    && (w.u.status == Failed <==> n / th > m)
  }

  lemma DivStep(n: nat, th: int)
    requires th > 0
    ensures (n + 1) / th == (if n % th + 1 == th then n / th + 1 else n / th)
    ensures (n + 1) % th == (if n % th + 1 == th then 0 else n % th + 1)
  {
    var q, r := n / th, n % th;
    if r + 1 == th {
      Quotient(n + 1, th, q + 1, 0);
    } else {
      Quotient(n + 1, th, q, r + 1);
    }
  }

  lemma Quotient(n: nat, th: int, q: int, r: int)
    requires 0 <= r < th && n == q * th + r
    ensures n / th == q && n % th == r
  {
    var d := n / th - q;
    assert d * th == r - n % th;
    Multiple(d, th);
  }

  lemma Multiple(d: int, th: int)
    requires th > 0
    ensures d >= 1 ==> d * th >= th
    ensures d <= -1 ==> d * th <= -th
  {
  }

  /**
   * A unit whose liveness probe keeps failing is restarted at every threshold until the limit is reached, and is
   * marked failed at the next threshold after that.
   */
  lemma {:induction false} FailingUnit(c: Config, u: ManagedUnit, rounds: seq<Found>)
    requires OnlyLiveness(u) && KeepsFailing(c, u.liveness.value, rounds)
    requires c.maxRestarts >= 0 && u.liveness.value.failureThreshold >= 0
    ensures var th := if u.liveness.value.failureThreshold == 0 then 3 else u.liveness.value.failureThreshold;
            var m := if c.maxRestarts == 0 then 5 else c.maxRestarts;
            var w := After(c, u, rounds);
            && |w.log| == w.u.restartCount == Least(m, |rounds| / th)
            && (w.u.status == Failed <==> |rounds| / th > m)
            && Failing(u.liveness.value, th, m, rounds, w)
    decreases |rounds|
  {
    hide Check;
    var th := if u.liveness.value.failureThreshold == 0 then 3 else u.liveness.value.failureThreshold;
    var m := if c.maxRestarts == 0 then 5 else c.maxRestarts;
    if rounds != [] {
      var n := |rounds| - 1;
      FailingUnit(c, u, rounds[..n]);
      FailingStep(c, u.liveness.value, th, m, rounds, After(c, u, rounds[..n]));
    }
  }

  lemma FailingStep(c: Config, p: Probe, th: int, m: nat, rounds: seq<Found>, w: Watched)
    requires rounds != [] && th == (if p.failureThreshold == 0 then 3 else p.failureThreshold) > 0
    requires m == if c.maxRestarts == 0 then 5 else c.maxRestarts
    requires KeepsFailing(c, p, rounds) && Failing(p, th, m, rounds[..|rounds| - 1], w)
    ensures Failing(p, th, m, rounds, Check(c, w, rounds[|rounds| - 1]))
  {
    hide Check;
    var n, f := |rounds| - 1, rounds[|rounds| - 1];
    DivStep(n, th);
    RoundRestarts(c, w, f);
    RoundFields(c, w, f);
  }
}
