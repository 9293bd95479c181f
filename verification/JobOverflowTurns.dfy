/** Turns of a scheduling pass with overflow: the hosts they may take, and what they leave alone. */
module JobOverflowTurns {
  import opened JobState
  import opened JobInvariant
  import opened JobPass
  import opened JobOverflow

  /** A host that no reservation names. */
  predicate Spare(s: State, bmh: string) {
    bmh != "" && !Reserved(s, bmh) && exists b | b in s.hosts :: s.hosts[b].name == bmh
  }

  /**
   * The pool may place n jobs on unreserved hosts: so many wait beyond its free hosts, and the runner's
   * capacity lasts.
   */
  predicate MayOverflow(s: State, pool: string, rn: string, n: nat) {
    && rn in s.runners && ServesPool(s.runners[rn], pool) && s.runners[rn].allowOverflow
    && |PendingIn(s, pool)| >= |FreeIn(s, pool)| + n
    && (s.runners[rn].maxConcurrent > 0 ==>
          |ActiveIn(s, pool)| + |FreeIn(s, pool)| + n <= s.runners[rn].maxConcurrent)
  }

  /** Some waiting job's pool has a runner below capacity, and the reservation is one of the pool's free ones. */
  predicate FreeForPool(s: State, k: string, rn: string, h: string) {
    && k in PendingKeys(s) && rn in s.runners && ServesPool(s.runners[rn], s.jobs[k].pool)
    && !AtCapacity(s, s.runners[rn]) && h in FreeIn(s, s.jobs[k].pool)
  }

  /** Two pools, or one twice, may overflow in the pass. */
  ghost predicate MayOverflowTwice(s: State) {
    || (exists pool, rn :: MayOverflow(s, pool, rn, 2))
    || (exists p, q, rn, rm :: p != q && MayOverflow(s, p, rn, 1) && MayOverflow(s, q, rm, 1))
  }

  /** The condition on the state before the pass. */
  ghost predicate PassSafe(s: State) {
    && (forall k, rn, h | FreeForPool(s, k, rn, h) :: !Busy(s, s.reservations[h].bmhRef))
    && (forall pool, rn, bmh | MayOverflow(s, pool, rn, 1) && Spare(s, bmh) :: !Busy(s, bmh))
    && (MayOverflowTwice(s) ==> forall bmh :: !Spare(s, bmh))
  }

  // In the middle of a pass.

  /** After the first i turns: only jobs that had their turn have changed, and only by starting. */
  ghost predicate Base(s: State, x: State, order: seq<string>, i: nat) {
    && i <= |order| && x.runners == s.runners && x.jobs.Keys == s.jobs.Keys
    && (forall k | k in s.jobs :: x.jobs[k] == s.jobs[k] || Begun(s, x, order, i, k))
    && x.reservations.Keys == s.reservations.Keys
    && (forall h | h in s.reservations :: SameReservation(s.reservations[h], x.reservations[h]))
    && x.hosts.Keys == s.hosts.Keys && (forall b | b in s.hosts :: x.hosts[b].name == s.hosts[b].name)
  }

  ghost predicate Begun(s: State, x: State, order: seq<string>, i: nat, k: string)
    requires i <= |order| && k in s.jobs && k in x.jobs
  {
    k in order[..i] && s.jobs[k].phase == Pending && x.jobs[k].IsActive() && x.jobs[k].pool == s.jobs[k].pool
  }

  predicate SameReservation(a: Reservation, b: Reservation) {
    b.bmhRef == a.bmhRef && b.pool == a.pool && b.phase == a.phase && (b.activeJob == "" ==> a.activeJob == "")
  }

  lemma BaseStart(s: State, order: seq<string>)
    ensures Base(s, s, order, 0)
  {
  }

  /** The next job is still as it was. */
  lemma NextPending(s: State, x: State, order: seq<string>, i: nat)
    requires QueueOrder(s, order) && Base(s, x, order, i) && i < |order|
    ensures order[i] !in order[..i] && order[i] in s.jobs && order[i] in x.jobs
    ensures x.jobs[order[i]] == s.jobs[order[i]] && s.jobs[order[i]].phase == Pending
  {
    hide NotAfter;
    TraceAt(s, order, i);
  }

  /** Every reservation names a host, and no two the same. */
  ghost predicate OnePerHost(s: State) {
    && (forall h | h in s.reservations :: s.reservations[h].bmhRef != "")
    && forall h, g | h in s.reservations && g in s.reservations
      && s.reservations[h].bmhRef == s.reservations[g].bmhRef :: h == g
  }

  lemma SameSpare(s: State, x: State, order: seq<string>, i: nat, bmh: string)
    requires Base(s, x, order, i)
    ensures Spare(x, bmh) == Spare(s, bmh)
  {
  }

  lemma BaseOnePerHost(s: State, x: State, order: seq<string>, i: nat)
    requires Base(s, x, order, i) && OnePerHost(s)
    ensures OnePerHost(x)
  {
  }

  /** A turn that changes nothing. */
  lemma BaseSkip(s: State, x: State, order: seq<string>, i: nat)
    requires Base(s, x, order, i) && i < |order|
    ensures Base(s, x, order, i + 1)
  {
    assert forall k | k in order[..i] :: k in order[..i + 1];
  }

  /** A turn that assigns a host. */
  lemma BaseAssign(s: State, x: State, order: seq<string>, i: nat, rn: string, bmh: string, ip: string)
    requires QueueOrder(s, order) && Base(s, x, order, i) && i < |order| && order[i] in x.jobs && rn in x.runners
    requires "" !in s.jobs
    ensures Base(s, Assign(x, order[i], rn, bmh, ip), order, i + 1)
  {
    hide QueueOrder;
    NextPending(s, x, order, i);
    assert order[..i + 1] == order[..i] + [order[i]];
  }

  lemma AssignBusy(x: State, k: string, rn: string, bmh: string, ip: string, b: string)
    requires k in x.jobs && x.jobs[k].phase == Pending && rn in x.runners
    ensures Busy(Assign(x, k, rn, bmh, ip), b) <==> Busy(x, b) || b == bmh
  {
    var y := Assign(x, k, rn, bmh, ip);
    assert y.jobs[k].IsActive() && y.jobs[k].bmhRef == bmh;
    if Busy(x, b) {
      var j :| j in x.jobs && x.jobs[j].IsActive() && x.jobs[j].bmhRef == b;
      assert y.jobs[j] == x.jobs[j];
    }
  }

  lemma AssignActive(x: State, k: string, rn: string, bmh: string, ip: string, pool: string)
    requires k in x.jobs && x.jobs[k].phase == Pending && rn in x.runners
    ensures ActiveIn(Assign(x, k, rn, bmh, ip), pool)
         == ActiveIn(x, pool) + (if x.jobs[k].pool == pool then {k} else {})
    ensures k !in ActiveIn(x, pool)
  {
  }

  /** The free reservation of an assigned host is no longer free, all others are as before. */
  lemma AssignTakes(x: State, k: string, rn: string, h: string, ip: string, pool: string)
    requires k in x.jobs && k != "" && rn in x.runners && h in x.reservations && OnePerHost(x)
    ensures FreeIn(Assign(x, k, rn, x.reservations[h].bmhRef, ip), pool) == FreeIn(x, pool) - {h}
  {
  }

  lemma AssignSpare(x: State, k: string, rn: string, bmh: string, ip: string, pool: string)
    requires k in x.jobs && rn in x.runners && !Reserved(x, bmh)
    ensures FreeIn(Assign(x, k, rn, bmh, ip), pool) == FreeIn(x, pool)
  {
  }

  lemma BaseRunners(s: State, x: State, order: seq<string>, i: nat)
    requires Base(s, x, order, i)
    ensures x.runners == s.runners && x.jobs.Keys == s.jobs.Keys && x.reservations.Keys == s.reservations.Keys
    ensures forall h | h in s.reservations :: x.reservations[h].bmhRef == s.reservations[h].bmhRef
  {
  }

  lemma OfferFacts(x: State, k: string, rn: string, bmh: string)
    requires k in x.jobs && Offered(x, k, rn, bmh)
    ensures rn in x.runners && ServesPool(x.runners[rn], x.jobs[k].pool) && !AtCapacity(x, x.runners[rn]) && bmh != ""
  {
  }

  lemma OfferFree(x: State, k: string, rn: string, bmh: string) returns (h: string)
    requires k in x.jobs && Offered(x, k, rn, bmh) && FreeIn(x, x.jobs[k].pool) != {}
    ensures h in FreeIn(x, x.jobs[k].pool) && h in x.reservations && x.reservations[h].bmhRef == bmh
  {
    h :| h in FreeIn(x, x.jobs[k].pool) && x.reservations[h].bmhRef == bmh;
  }

  lemma OfferSpare(x: State, k: string, rn: string, bmh: string)
    requires k in x.jobs && Offered(x, k, rn, bmh) && FreeIn(x, x.jobs[k].pool) == {}
    ensures rn in x.runners && x.runners[rn].allowOverflow && Spare(x, bmh) && !Reserved(x, bmh)
  {
  }

  lemma AssignShape(x: State, k: string, rn: string, bmh: string, ip: string)
    requires k in x.jobs && rn in x.runners
    ensures var y := Assign(x, k, rn, bmh, ip);
            && y.reservations.Keys == x.reservations.Keys && k in y.jobs
            && forall g | g in x.reservations :: y.reservations[g].bmhRef == x.reservations[g].bmhRef
  {
  }

  lemma FreeInPool(x: State, h: string, pool: string, other: string)
    requires h in FreeIn(x, pool)
    ensures h in FreeIn(x, other) <==> other == pool
  {
  }
}
