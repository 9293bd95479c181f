/** Boot ordering: a depth-first walk of the dependencies, taking the units by priority. */
module BootOrder {
  datatype ContainerUnit = ContainerUnit(name: string, dependsOn: seq<string>, priority: int)

  // Registered units, each under its own name.
  type Units = m: map<string, ContainerUnit> | forall n | n in m :: m[n].name == n witness map[]

  // Dependencies.

  /** u depends directly on d, and d is registered. */
  predicate DependsOn(m: Units, u: string, d: string) {
    u in m && d in m[u].dependsOn && d in m
  }

  ghost predicate IsPath(m: Units, p: seq<string>) {
    p != [] && forall i | 0 <= i < |p| - 1 :: DependsOn(m, p[i], p[i + 1])
  }

  /** Following dependencies from a, possibly none, leads to b. */
  ghost predicate Reaches(m: Units, a: string, b: string) {
    exists p :: IsPath(m, p) && p[0] == a && p[|p| - 1] == b
  }

  lemma ReachesSelf(m: Units, a: string)
    ensures Reaches(m, a, a)
  {
    assert IsPath(m, [a]);
  }

  lemma ReachesStep(m: Units, a: string, b: string, c: string)
    requires Reaches(m, a, b) && DependsOn(m, b, c)
    ensures Reaches(m, a, c)
  {
    var p :| IsPath(m, p) && p[0] == a && p[|p| - 1] == b;
    assert IsPath(m, p + [c]);
    assert (p + [c])[|p + [c]| - 1] == c;
  }

  lemma ReachesTransitive(m: Units, a: string, b: string, c: string)
    requires Reaches(m, a, b) && Reaches(m, b, c)
    ensures Reaches(m, a, c)
  {
    var p :| IsPath(m, p) && p[0] == a && p[|p| - 1] == b;
    var q :| IsPath(m, q) && q[0] == b && q[|q| - 1] == c;
    var r := p + q[1..];
    forall i | 0 <= i < |r| - 1
      ensures DependsOn(m, r[i], r[i + 1])
    {
      if i >= |p| - 1 {
        assert r[i] == q[i - |p| + 1] && r[i + 1] == q[i - |p| + 2];
      }
    }
    assert IsPath(m, r) && r[0] == a && r[|r| - 1] == c;
  }

  // The walk.

  function Names(units: seq<ContainerUnit>): seq<string> {
    seq(|units|, i requires 0 <= i < |units| => units[i].name)
  }

  /** The dependency d of x is before x in the result, or d itself reaches x. */
  ghost predicate Ordered(m: Units, result: seq<string>, x: string, d: string) {
    Reaches(m, d, x) || exists i, j :: 0 <= i < j < |result| && result[i] == d && result[j] == x
  }

  ghost predicate AllOrdered(m: Units, result: seq<string>) {
    forall x, d | x in result && DependsOn(m, x, d) :: Ordered(m, result, x, d)
  }

  ghost predicate NoRepeats(s: seq<string>) {
    forall i, j | 0 <= i < j < |s| :: s[i] != s[j]
  }

  /** What the walk keeps: the result is visited, without repeats and in dependency order. */
  ghost predicate Walking(m: Units, visited: set<string>, result: seq<string>) {
    && visited <= m.Keys && (forall n | n in result :: n in visited) && NoRepeats(result) && AllOrdered(m, result)
  }

  /** Every unit being visited, that is visited but not yet in the result, reaches u. */
  ghost predicate OpenReach(m: Units, visited: set<string>, result: seq<string>, u: string) {
    forall g | g in visited && g !in result :: Reaches(m, g, u)
  }

  /** A visit of u that appended added. */
  ghost predicate Appended(m: Units, visited: set<string>, u: string, added: seq<string>, after: set<string>) {
    && after == visited + (set n | n in added)
    && (forall n | n in added :: n !in visited && Reaches(m, u, n))
  }

  /** In the middle of a visit of u: added is what its first i dependencies appended. */
  ghost predicate Inside(m: Units, before: set<string>, start: seq<string>, u: string, i: nat, added: seq<string>,
                         visited: set<string>, result: seq<string>)
  {
    && u in m && i <= |m[u].dependsOn| && u !in before
    && Walking(m, visited, result) && result == start + added
    && Appended(m, before + {u}, u, added, visited)
    && (forall j | 0 <= j < i && m[u].dependsOn[j] in m :: m[u].dependsOn[j] in visited)
  }

  lemma Enter(m: Units, visited: set<string>, result: seq<string>, u: string)
    requires Walking(m, visited, result) && u in m && u !in visited
    ensures Inside(m, visited, result, u, 0, [], visited + {u}, result)
  {
    hide AllOrdered;
    assert result == result + [];
  }

  /** Before each dependency is visited, every open unit reaches it. */
  lemma OpenReachDep(m: Units, before: set<string>, start: seq<string>, u: string, i: nat, added: seq<string>,
                     visited: set<string>, result: seq<string>)
    requires Inside(m, before, start, u, i, added, visited, result) && i < |m[u].dependsOn| && m[u].dependsOn[i] in m
    requires OpenReach(m, before, start, u)
    ensures OpenReach(m, visited, result, m[u].dependsOn[i])
  {
    hide Walking, Reaches;
    var d := m[u].dependsOn[i];
    forall g | g in visited && g !in result
      ensures Reaches(m, g, d)
    {
      if g == u {
        ReachesSelf(m, u);
      } else {
        assert g in before && g !in start;
      }
      ReachesStep(m, g, u, d);
    }
  }

  /** After dependency i is visited the visit goes on. */
  lemma DepDone(m: Units, before: set<string>, start: seq<string>, u: string, i: nat, added: seq<string>,
                visited: set<string>, result: seq<string>,
                more: seq<string>, visited': set<string>, result': seq<string>)
    requires Inside(m, before, start, u, i, added, visited, result) && i < |m[u].dependsOn| && m[u].dependsOn[i] in m
    requires Walking(m, visited', result') && result' == result + more && m[u].dependsOn[i] in visited'
    requires Appended(m, visited, m[u].dependsOn[i], more, visited')
    ensures Inside(m, before, start, u, i + 1, added + more, visited', result')
  {
    hide Walking, Reaches;
    var d := m[u].dependsOn[i];
    assert start + (added + more) == start + added + more;
    ReachesSelf(m, u);
    ReachesStep(m, u, u, d);
    forall n | n in added + more
      ensures n !in before + {u} && Reaches(m, u, n)
    {
      if n in more {
        ReachesTransitive(m, u, d, n);
      }
    }
  }

  lemma DepSkipped(m: Units, before: set<string>, start: seq<string>, u: string, i: nat, added: seq<string>,
                   visited: set<string>, result: seq<string>)
    requires Inside(m, before, start, u, i, added, visited, result) && i < |m[u].dependsOn| && m[u].dependsOn[i] !in m
    ensures Inside(m, before, start, u, i + 1, added, visited, result)
  {
    hide Walking, Appended;
  }

  /** Appending u after all its dependencies. */
  lemma Leave(m: Units, before: set<string>, start: seq<string>, u: string, added: seq<string>,
              visited: set<string>, result: seq<string>)
    requires u in m && Inside(m, before, start, u, |m[u].dependsOn|, added, visited, result)
             && OpenReach(m, before, start, u)
    requires forall n | n in start :: n in before
    ensures Walking(m, visited, result + [u]) && Appended(m, before, u, added + [u], visited)
    ensures result + [u] == start + (added + [u])
  {
    hide Reaches, AllOrdered;
    ReachesSelf(m, u);
    assert u !in result;
    LeaveOrdered(m, visited, result, u) by {
      hide Walking, Appended;
      forall d | DependsOn(m, u, d)
        ensures d in visited
      {
        var j :| 0 <= j < |m[u].dependsOn| && m[u].dependsOn[j] == d;
      }
    }
  }

  lemma LeaveOrdered(m: Units, visited: set<string>, result: seq<string>, u: string)
    requires u in m && AllOrdered(m, result) && forall d | DependsOn(m, u, d) :: d in visited
    requires forall g | g in visited && g !in result :: Reaches(m, g, u)
    ensures AllOrdered(m, result + [u])
  {
    hide Reaches;
    OrderedGrows(m, result, [u]);
    forall d | DependsOn(m, u, d)
      ensures Ordered(m, result + [u], u, d)
    {
      if d in result {
        var i :| 0 <= i < |result| && result[i] == d;
        assert (result + [u])[i] == d && (result + [u])[|result|] == u;
      }
    }
    forall x, d | x in result + [u] && DependsOn(m, x, d)
      ensures Ordered(m, result + [u], x, d)
    {
      hide Ordered;
      assert x in result || x == u;
    }
  }

  lemma OrderedGrows(m: Units, result: seq<string>, more: seq<string>)
    requires AllOrdered(m, result)
    ensures forall x, d | x in result && DependsOn(m, x, d) :: Ordered(m, result + more, x, d)
  {
    forall x, d | x in result && DependsOn(m, x, d)
      ensures Ordered(m, result + more, x, d)
    {
      if !Reaches(m, d, x) {
        var i, j :| 0 <= i < j < |result| && result[i] == d && result[j] == x;
        assert (result + more)[i] == d && (result + more)[j] == x;
      }
    }
  }

  // The dependencies of one unit come in the order in which it lists them.

  ghost predicate Before(names: seq<string>, d: string, e: string) {
    exists a, b :: 0 <= a < b < |names| && names[a] == d && names[b] == e
  }

  /** None of u's first i + 1 dependencies leads to e. */
  ghost predicate NotSooner(m: Units, u: string, i: nat, e: string)
    requires u in m && i < |m[u].dependsOn|
  {
    forall k | 0 <= k <= i && m[u].dependsOn[k] in m :: !Reaches(m, m[u].dependsOn[k], e)
  }

  /** u lists d, and later e, which is not among the given units, is not u, and to which nothing up to d leads. */
  ghost predicate Lists(m: Units, u: string, visited: set<string>, i: nat, j: nat) {
    && u in m && i < j < |m[u].dependsOn| && m[u].dependsOn[i] in m && m[u].dependsOn[j] in m
    && m[u].dependsOn[j] !in visited && m[u].dependsOn[j] != u && NotSooner(m, u, i, m[u].dependsOn[j])
  }

  /** Of two dependencies listed by u the first comes first, as far as the visit of u decides it. */
  ghost predicate Listed(m: Units, before: set<string>, u: string, names: seq<string>) {
    u in m && forall i: nat, j: nat | Lists(m, u, before, i, j) ::
                Before(names, m[u].dependsOn[i], m[u].dependsOn[j])
  }

  /** In the middle of a visit: what is new was led to, and the dependencies done are in the order listed. */
  ghost predicate ListedSoFar(m: Units, before: set<string>, u: string, i: nat, visited: set<string>,
                              names: seq<string>)
    requires u in m && i <= |m[u].dependsOn|
  {
    && (forall e | e in visited && e !in before && e != u ::
          exists k :: 0 <= k < i && m[u].dependsOn[k] in m && Reaches(m, m[u].dependsOn[k], e))
    && (forall a: nat, j: nat | a < i && Lists(m, u, before, a, j) ::
          m[u].dependsOn[a] in names
          && (m[u].dependsOn[j] in names ==> Before(names, m[u].dependsOn[a], m[u].dependsOn[j])))
  }

  lemma BeforeGrows(names: seq<string>, more: seq<string>, d: string, e: string)
    ensures Before(names, d, e) ==> Before(names + more, d, e)
    ensures d in names && e in more ==> Before(names + more, d, e)
  {
    if Before(names, d, e) {
      var a, b :| 0 <= a < b < |names| && names[a] == d && names[b] == e;
      assert (names + more)[a] == d && (names + more)[b] == e;
    }
    if d in names && e in more {
      var a :| 0 <= a < |names| && names[a] == d;
      var b :| 0 <= b < |more| && more[b] == e;
      assert (names + more)[a] == d && (names + more)[|names| + b] == e;
    }
  }

  lemma ListedStart(m: Units, before: set<string>, u: string, names: seq<string>)
    requires u in m
    ensures ListedSoFar(m, before, u, 0, before + {u}, names)
  {
  }

  lemma ListedSkip(m: Units, before: set<string>, u: string, i: nat, visited: set<string>, names: seq<string>)
    requires u in m && i < |m[u].dependsOn| && ListedSoFar(m, before, u, i, visited, names)
    requires m[u].dependsOn[i] !in m
    ensures ListedSoFar(m, before, u, i + 1, visited, names)
  {
    hide Reaches, NotSooner, Before;
  }

  lemma ListedNext(m: Units, before: set<string>, start: seq<string>, u: string, i: nat, added: seq<string>,
                   visited: set<string>, names: seq<string>, more: seq<string>, visited': set<string>,
                   names': seq<string>)
    requires u in m && i < |m[u].dependsOn| && m[u].dependsOn[i] in m && OpenReach(m, before, start, u)
    requires ListedSoFar(m, before, u, i, visited, names) && Appended(m, visited, m[u].dependsOn[i], more, visited')
    requires Inside(m, before, start, u, i + 1, added, visited', names') && names' == names + more
    ensures ListedSoFar(m, before, u, i + 1, visited', names')
  {
    hide Reaches, Before, Walking;
    var d := m[u].dependsOn[i];
    forall x | x in visited' && x !in before && x != u
      ensures exists k :: 0 <= k < i + 1 && m[u].dependsOn[k] in m && Reaches(m, m[u].dependsOn[k], x)
    {
      if x in visited {
        var k :| 0 <= k < i && m[u].dependsOn[k] in m && Reaches(m, m[u].dependsOn[k], x);
      } else {
        assert Reaches(m, d, x);
      }
    }
    forall a: nat, j: nat | a < i + 1 && Lists(m, u, before, a, j)
      ensures m[u].dependsOn[a] in names'
      ensures m[u].dependsOn[j] in names' ==> Before(names', m[u].dependsOn[a], m[u].dependsOn[j])
    {
      if a < i {
        BeforeGrows(names, more, m[u].dependsOn[a], m[u].dependsOn[j]);
      } else {
        NextListed(m, before, start, u, i, j, added, visited', names');
      }
    }
  }

  /** A dependency just visited is in the result, and a later one of the list is not. */
  lemma NextListed(m: Units, before: set<string>, start: seq<string>, u: string, i: nat, j: nat, added: seq<string>,
                   visited: set<string>, names: seq<string>)
    requires Lists(m, u, before, i, j) && OpenReach(m, before, start, u)
    requires Inside(m, before, start, u, i + 1, added, visited, names)
    requires forall x | x in visited && x !in before && x != u ::
               exists k :: 0 <= k < i + 1 && m[u].dependsOn[k] in m && Reaches(m, m[u].dependsOn[k], x)
    ensures m[u].dependsOn[i] in names && m[u].dependsOn[j] !in names
  {
    hide Reaches, NoRepeats, AllOrdered;
    var d, e := m[u].dependsOn[i], m[u].dependsOn[j];
    if d !in names {
      ReachesSelf(m, u);
      assert Reaches(m, d, u);
      ReachesStep(m, d, u, e);
    }
  }

  lemma ListedEnd(m: Units, before: set<string>, start: seq<string>, u: string, added: seq<string>,
                  visited: set<string>, names: seq<string>)
    requires u in m && Inside(m, before, start, u, |m[u].dependsOn|, added, visited, names)
    requires ListedSoFar(m, before, u, |m[u].dependsOn|, visited, names)
    ensures Listed(m, before, u, names + [u])
  {
    hide Reaches, Before, Walking, NotSooner;
    forall i: nat, j: nat | Lists(m, u, before, i, j)
      ensures Before(names + [u], m[u].dependsOn[i], m[u].dependsOn[j])
    {
      var e := m[u].dependsOn[j];
      assert e in visited;
      assert e in added && e in names;
      BeforeGrows(names, [u], m[u].dependsOn[i], e);
    }
  }

  class Walk {
    const units: Units
    var visited: set<string>
    var result: seq<ContainerUnit>

    constructor (m: Units)
      ensures units == m && visited == {} && result == [] && Valid()
    {
      units := m;
      visited := {};
      result := [];
    }

    /** Every unit visited so far is in the map under its name, and the result is in dependency order. */
    ghost predicate Valid()
      reads this
    {
      && (forall u | u in result :: u.name in units && units[u.name] == u)
      && Walking(units, visited, Names(result))
    }

    method Visit(u: ContainerUnit) returns (ghost added: seq<string>)
      requires Valid() && u.name in units && units[u.name] == u
      requires OpenReach(units, visited, Names(result), u.name)
      modifies this
      ensures Valid() && u.name in visited
      ensures Names(result) == old(Names(result)) + added && Appended(units, old(visited), u.name, added, visited)
      ensures u.name !in old(visited) ==> Listed(units, old(visited), u.name, Names(result))
      decreases |units.Keys - visited|
    {
      hide Walking, OpenReach, Inside, Appended, Names, Listed, ListedSoFar;
      ghost var before, start := visited, Names(result);
      added := [];
      if u.name in visited {
        NothingAppended(units, visited, u.name);
        assert start == start + [];
        return;
      }
      Enter(units, visited, start, u.name);
      visited := visited + {u.name};
      ListedStart(units, before, u.name, start);
      for i := 0 to |u.dependsOn|
        invariant forall x | x in result :: x.name in units && units[x.name] == x
        invariant Inside(units, before, start, u.name, i, added, visited, Names(result))
        invariant ListedSoFar(units, before, u.name, i, visited, Names(result))
      {
        InsideFacts(units, before, start, u.name, i, added, visited, Names(result));
        if u.dependsOn[i] in units {
          ghost var atDep, resultAtDep := visited, Names(result);
          OpenReachDep(units, before, start, u.name, i, added, visited, Names(result));
          ghost var more := Visit(units[u.dependsOn[i]]);
          DepDone(units, before, start, u.name, i, added, atDep, resultAtDep, more, visited, Names(result));
          added := added + more;
          ListedNext(units, before, start, u.name, i, added, atDep, resultAtDep, more, visited, Names(result));
        } else {
          DepSkipped(units, before, start, u.name, i, added, visited, Names(result));
          ListedSkip(units, before, u.name, i, visited, Names(result));
        }
      }
      WalkingFacts(units, before, start);
      Leave(units, before, start, u.name, added, visited, Names(result));
      ListedEnd(units, before, start, u.name, added, visited, Names(result));
      NamesSnoc(result, u);
      result := result + [u];
      added := added + [u.name];
      AppendedSelf(units, before, u.name, added, visited);
    }
  }

  lemma AppendedSelf(m: Units, before: set<string>, u: string, added: seq<string>, after: set<string>)
    requires Appended(m, before, u, added, after) && u in added
    ensures u in after
  {
  }

  lemma NothingAppended(m: Units, visited: set<string>, u: string)
    ensures Appended(m, visited, u, [], visited)
  {
  }

  /** The visit's bookkeeping, and that fewer units are left to visit. */
  lemma InsideFacts(m: Units, before: set<string>, start: seq<string>, u: string, i: nat, added: seq<string>,
                    visited: set<string>, result: seq<string>)
    requires Inside(m, before, start, u, i, added, visited, result)
    ensures Walking(m, visited, result) && |m.Keys - visited| < |m.Keys - before|
  {
    hide Reaches, AllOrdered;
    SmallerSet(m.Keys - visited, m.Keys - before, u);
  }

  lemma SmallerSet<T>(a: set<T>, b: set<T>, x: T)
    requires a <= b && x in b && x !in a
    ensures |a| < |b|
  {
    SubsetSize(a, b - {x});
  }

  lemma {:induction false} SubsetSize<T>(a: set<T>, b: set<T>)
    requires a <= b
    ensures |a| <= |b|
  {
    if a != {} {
      var x :| x in a;
      SubsetSize(a - {x}, b - {x});
    }
  }

  lemma WalkingFacts(m: Units, visited: set<string>, result: seq<string>)
    requires Walking(m, visited, result)
    ensures forall n | n in result :: n in visited
  {
  }

  lemma NamesSnoc(result: seq<ContainerUnit>, u: ContainerUnit)
    ensures Names(result + [u]) == Names(result) + [u.name]
  {
  }

  // The order by priority.

  ghost predicate ByPriority(units: seq<ContainerUnit>) {
    forall i, j | 0 <= i < j < |units| :: units[i].priority <= units[j].priority
  }

  method SortByPriority(units: seq<ContainerUnit>) returns (sorted: seq<ContainerUnit>)
    ensures ByPriority(sorted) && multiset(sorted) == multiset(units)
  {
    hide ByPriority;
    sorted := [];
    NothingSorted();
    for i := 0 to |units|
      invariant ByPriority(sorted) && multiset(sorted) == multiset(units[..i])
    {
      TakenUnit(units, i);
      sorted := InsertByPriority(sorted, units[i]);
    }
    assert units[..|units|] == units;
  }

  /** A unit goes behind the units of its own or a lower priority number. */
  method InsertByPriority(sorted: seq<ContainerUnit>, u: ContainerUnit) returns (r: seq<ContainerUnit>)
    requires ByPriority(sorted)
    ensures ByPriority(r) && multiset(r) == multiset(sorted) + multiset{u}
  {
    hide ByPriority;
    var k := |sorted|;
    while k > 0 && sorted[k - 1].priority > u.priority
      invariant 0 <= k <= |sorted| && forall j | k <= j < |sorted| :: sorted[j].priority > u.priority
    {
      k := k - 1;
    }
    InsertedByPriority(sorted, u, k);
    r := sorted[..k] + [u] + sorted[k..];
  }

  lemma NothingSorted()
    ensures ByPriority([])
  {
  }

  lemma TakenUnit(units: seq<ContainerUnit>, i: nat)
    requires i < |units|
    ensures multiset(units[..i + 1]) == multiset(units[..i]) + multiset{units[i]}
  {
    assert units[..i + 1] == units[..i] + [units[i]];
  }

  lemma InsertedByPriority(sorted: seq<ContainerUnit>, u: ContainerUnit, k: nat)
    requires ByPriority(sorted) && k <= |sorted|
    requires k > 0 ==> sorted[k - 1].priority <= u.priority
    requires forall j | k <= j < |sorted| :: sorted[j].priority > u.priority
    ensures var r := sorted[..k] + [u] + sorted[k..]; ByPriority(r) && multiset(r) == multiset(sorted) + multiset{u}
  {
    hide *;
    InsertedSorted(sorted, u, k);
    assert sorted == sorted[..k] + sorted[k..];
  }

  lemma InsertedSorted(sorted: seq<ContainerUnit>, u: ContainerUnit, k: nat)
    requires ByPriority(sorted) && k <= |sorted|
    requires k > 0 ==> sorted[k - 1].priority <= u.priority
    requires forall j | k <= j < |sorted| :: sorted[j].priority > u.priority
    ensures ByPriority(sorted[..k] + [u] + sorted[k..])
  {
    var r := sorted[..k] + [u] + sorted[k..];
    assert forall j | 0 <= j < |r| :: r[j] == if j < k then sorted[j] else if j == k then u else sorted[j - 1];
  }

  // What boot ordering promises.

  /** Some unit of priority at most b's leads, along dependencies, to a. */
  ghost predicate Led(m: Units, a: string, b: string) {
    a in m && b in m && exists w :: w in m && Reaches(m, w, a) && m[w].priority <= m[b].priority
  }

  /** A unit comes before another only on account of a unit whose priority is no later. */
  ghost predicate PriorityLed(m: Units, names: seq<string>) {
    forall i, j | 0 <= i < j < |names| :: Led(m, names[i], names[j])
  }

  /**
   * Each registered unit exactly once, dependencies first except around cycles, otherwise by priority and, among a
   * unit's own dependencies, as listed.
   */
  ghost predicate BootOrdered(m: Units, names: seq<string>) {
    && NoRepeats(names) && (forall n :: n in names <==> n in m) && AllOrdered(m, names) && PriorityLed(m, names)
    && forall u | u in m :: FairlyListed(m, names, u)
  }

  /** Without cycles every dependency comes before its dependents. */
  lemma {:induction false} AcyclicFullyOrdered(m: Units, names: seq<string>, u: string, d: string)
    returns (i: nat, j: nat)
    requires BootOrdered(m, names) && (forall a, b | DependsOn(m, a, b) :: !Reaches(m, b, a)) && DependsOn(m, u, d)
    ensures i < j < |names| && names[i] == d && names[j] == u
  {
    hide Reaches, Led;
    assert Ordered(m, names, u, d);
    i, j :| 0 <= i < j < |names| && names[i] == d && names[j] == u;
  }

  /** Among units that no other unit leads to, and in general up to leaders, lower priority numbers come first. */
  lemma {:induction false} IndependentByPriority(m: Units, names: seq<string>, i: nat, j: nat)
    requires BootOrdered(m, names) && i < j < |names| && (forall w | Reaches(m, w, names[i]) :: w == names[i])
    ensures names[i] in m && names[j] in m && m[names[i]].priority <= m[names[j]].priority
  {
    hide Reaches;
    assert Led(m, names[i], names[j]);
  }

  /**
   * Two dependencies of a unit start in the order in which it lists them, if neither the first nor one listed before it
   * leads to the second, and only units of a later priority than the unit itself do.
   */
  lemma {:induction false} StartAsListed(m: Units, names: seq<string>, u: string, i: nat, j: nat)
    returns (a: nat, b: nat)
    requires BootOrdered(m, names) && u in m && i < j < |m[u].dependsOn|
    requires m[u].dependsOn[i] in m && m[u].dependsOn[j] in m && m[u].dependsOn[j] != u
    requires forall k | 0 <= k <= i && m[u].dependsOn[k] in m :: !Reaches(m, m[u].dependsOn[k], m[u].dependsOn[j])
    requires forall w | w in m && w != u && Reaches(m, w, m[u].dependsOn[j]) :: m[w].priority > m[u].priority
    ensures a < b < |names| && names[a] == m[u].dependsOn[i] && names[b] == m[u].dependsOn[j]
  {
    hide Reaches, AllOrdered, PriorityLed;
    assert FairlyListed(m, names, u) && Lists(m, u, {}, i, j);
    a, b :| 0 <= a < b < |names| && names[a] == m[u].dependsOn[i] && names[b] == m[u].dependsOn[j];
  }

  /** Nothing that leads to e, other than u, has a priority as early as u's. */
  ghost predicate OnlyThrough(m: Units, u: string, e: string) {
    u in m && forall w | w in m && w != u && Reaches(m, w, e) :: m[w].priority > m[u].priority
  }

  /**
   * Where u lists d and later e, d comes before e, unless an earlier entry of the list, or d, leads to e, or another
   * unit of priority no later than u's does.
   */
  ghost predicate FairlyListed(m: Units, names: seq<string>, u: string) {
    u in m && forall i: nat, j: nat | Lists(m, u, {}, i, j) && OnlyThrough(m, u, m[u].dependsOn[j]) ::
                Before(names, m[u].dependsOn[i], m[u].dependsOn[j])
  }

  ghost predicate TakenFairly(m: Units, sorted: seq<string>, i: nat, names: seq<string>)
    requires i <= |sorted|
  {
    forall k | 0 <= k < i :: FairlyListed(m, names, sorted[k])
  }

  lemma FairlyGrows(m: Units, names: seq<string>, more: seq<string>, u: string)
    requires FairlyListed(m, names, u)
    ensures FairlyListed(m, names + more, u)
  {
    hide Before, NotSooner, OnlyThrough;
    forall i: nat, j: nat | Lists(m, u, {}, i, j) && OnlyThrough(m, u, m[u].dependsOn[j])
      ensures Before(names + more, m[u].dependsOn[i], m[u].dependsOn[j])
    {
      BeforeGrows(names, more, m[u].dependsOn[i], m[u].dependsOn[j]);
    }
  }

  /** After a unit was taken its dependencies are in order too. */
  lemma TakeFairly(m: Units, sorted: seq<string>, i: nat, visited: set<string>, names: seq<string>, more: seq<string>)
    requires SortedNames(m, sorted) && i < |sorted| && Taken(m, sorted, i, visited, names)
    requires TakenFairly(m, sorted, i, names)
    requires sorted[i] !in visited ==> Listed(m, visited, sorted[i], names + more)
    ensures TakenFairly(m, sorted, i + 1, names + more)
  {
    hide FairlyListed, Listed, Taken, SortedNames;
    forall k | 0 <= k < i + 1
      ensures FairlyListed(m, names + more, sorted[k])
    {
      if k < i {
        FairlyGrows(m, names, more, sorted[k]);
      } else if sorted[i] in sorted[..i] {
        FairlyGrows(m, names, more, sorted[i]);
      } else {
        NewFairly(m, sorted, i, visited, names, names + more);
      }
    }
  }

  lemma NewFairly(m: Units, sorted: seq<string>, i: nat, visited: set<string>, names: seq<string>, after: seq<string>)
    requires SortedNames(m, sorted) && i < |sorted| && Taken(m, sorted, i, visited, names) && sorted[i] !in sorted[..i]
    requires sorted[i] !in visited ==> Listed(m, visited, sorted[i], after)
    ensures FairlyListed(m, after, sorted[i])
  {
    hide Before, Reaches, PriorityLed, NotSooner;
    var u := sorted[i];
    forall a: nat, j: nat | Lists(m, u, {}, a, j) && OnlyThrough(m, u, m[u].dependsOn[j])
      ensures Before(after, m[u].dependsOn[a], m[u].dependsOn[j])
    {
      NotYet(m, sorted, i, visited, names, m[u].dependsOn[j]);
      assert Lists(m, u, visited, a, j);
    }
  }

  /** What is reached only through a unit is not visited before the unit is. */
  lemma NotYet(m: Units, sorted: seq<string>, i: nat, visited: set<string>, names: seq<string>, e: string)
    requires SortedNames(m, sorted) && i < |sorted| && Taken(m, sorted, i, visited, names) && sorted[i] !in sorted[..i]
    requires DependsOn(m, sorted[i], e)
    ensures OnlyThrough(m, sorted[i], e) ==> e !in visited && sorted[i] !in visited
  {
    hide Reaches, PriorityLed, DependsOn, SortedNames, OnlyThrough;
    var u := sorted[i];
    if u in visited {
      var x :| 0 <= x < i && Reaches(m, sorted[x], u);
      ReachesStep(m, sorted[x], u, e);
      TakenSooner(m, sorted, x, i, e);
    }
    if e in visited {
      var x :| 0 <= x < i && Reaches(m, sorted[x], e);
      TakenSooner(m, sorted, x, i, e);
    }
  }

  lemma TakenSooner(m: Units, sorted: seq<string>, x: nat, i: nat, e: string)
    requires SortedNames(m, sorted) && x < i < |sorted| && sorted[i] !in sorted[..i] && Reaches(m, sorted[x], e)
    ensures !OnlyThrough(m, sorted[i], e)
  {
    hide Reaches;
    assert sorted[..i][x] == sorted[x];
  }

  /** Between visits: everything visited is in the result, and each entry is led to by a unit already taken. */
  ghost predicate Taken(m: Units, sorted: seq<string>, i: nat, visited: set<string>, names: seq<string>) {
    && i <= |sorted|
    && (forall n :: n in visited <==> n in names)
    && (forall j | 0 <= j < i :: sorted[j] in visited)
    && (forall n | n in names :: exists j :: 0 <= j < i && Reaches(m, sorted[j], n))
    && PriorityLed(m, names)
  }

  ghost predicate SortedNames(m: Units, sorted: seq<string>) {
    && (forall n :: n in sorted <==> n in m)
    && forall i, j | 0 <= i < j < |sorted| ::
       sorted[i] in m && sorted[j] in m && m[sorted[i]].priority <= m[sorted[j]].priority
  }

  lemma TakeNext(m: Units, sorted: seq<string>, i: nat, visited: set<string>, names: seq<string>,
                 added: seq<string>, visited': set<string>)
    requires SortedNames(m, sorted) && i < |sorted| && Taken(m, sorted, i, visited, names)
    requires Appended(m, visited, sorted[i], added, visited') && sorted[i] in visited' && visited' <= m.Keys
    ensures Taken(m, sorted, i + 1, visited', names + added)
  {
    hide Reaches, SortedNames, PriorityLed, Appended;
    forall n | n in names + added
      ensures exists j :: 0 <= j < i + 1 && Reaches(m, sorted[j], n)
    {
      NextReached(m, sorted, i, visited, names, added, visited', n);
    }
    TakeNextLed(m, sorted, i, visited, names, added, visited');
    VisitedNext(m, sorted, i, visited, names, added, visited');
  }

  lemma VisitedNext(m: Units, sorted: seq<string>, i: nat, visited: set<string>, names: seq<string>,
                    added: seq<string>, visited': set<string>)
    requires i < |sorted| && Taken(m, sorted, i, visited, names) && Appended(m, visited, sorted[i], added, visited')
    ensures forall n :: n in visited' <==> n in names + added
    ensures forall j | 0 <= j < i :: sorted[j] in visited'
  {
    hide Reaches, PriorityLed;
  }

  lemma TakeNextLed(m: Units, sorted: seq<string>, i: nat, visited: set<string>, names: seq<string>,
                    added: seq<string>, visited': set<string>)
    requires SortedNames(m, sorted) && i < |sorted| && Taken(m, sorted, i, visited, names)
    requires Appended(m, visited, sorted[i], added, visited') && visited' <= m.Keys
    ensures PriorityLed(m, names + added)
  {
    hide Appended, Taken, Led, SortedNames;
    var all := names + added;
    forall a, b | 0 <= a < b < |all|
      ensures Led(m, all[a], all[b])
    {
      if b < |names| {
        OldLed(m, sorted, i, visited, names, a, b);
      } else {
        NextLed(m, sorted, i, visited, names, added, visited', all[a], all[b]);
      }
    }
  }

  lemma OldLed(m: Units, sorted: seq<string>, i: nat, visited: set<string>, names: seq<string>, a: nat, b: nat)
    requires Taken(m, sorted, i, visited, names) && a < b < |names|
    ensures Led(m, names[a], names[b])
  {
    hide Led;
  }

  lemma NextReached(m: Units, sorted: seq<string>, i: nat, visited: set<string>, names: seq<string>,
                    added: seq<string>, visited': set<string>, n: string)
    requires i < |sorted| && Taken(m, sorted, i, visited, names) && Appended(m, visited, sorted[i], added, visited')
    requires n in names || n in added
    ensures n in visited' && exists j :: 0 <= j < i + 1 && Reaches(m, sorted[j], n)
  {
    hide Reaches, PriorityLed;
    if n in names {
      var j :| 0 <= j < i && Reaches(m, sorted[j], n);
    }
  }

  /** Anything in the result is led to by a unit taken before the newly added one. */
  lemma NextLed(m: Units, sorted: seq<string>, i: nat, visited: set<string>, names: seq<string>,
                added: seq<string>, visited': set<string>, a: string, b: string)
    requires SortedNames(m, sorted) && i < |sorted| && Taken(m, sorted, i, visited, names)
    requires Appended(m, visited, sorted[i], added, visited') && visited' <= m.Keys
    requires (a in names || a in added) && b in added
    ensures Led(m, a, b)
  {
    hide Reaches, PriorityLed, SortedNames;
    NextReached(m, sorted, i, visited, names, added, visited', a);
    NextReached(m, sorted, i, visited, names, added, visited', b);
    var j :| 0 <= j < i + 1 && Reaches(m, sorted[j], a);
    NewIsLater(m, sorted, i, visited, b, j);
  }

  /** A unit not yet visited is not before the next one in priority. */
  lemma NewIsLater(m: Units, sorted: seq<string>, i: nat, visited: set<string>, n: string, j: nat)
    requires SortedNames(m, sorted) && j <= i < |sorted| && n in m && n !in visited
    requires forall k | 0 <= k < i :: sorted[k] in visited
    ensures sorted[j] in m && m[sorted[j]].priority <= m[n].priority
  {
    var k :| 0 <= k < |sorted| && sorted[k] == n;
  }

  lemma TakenAll(m: Units, sorted: seq<string>, visited: set<string>, names: seq<string>)
    requires SortedNames(m, sorted) && Taken(m, sorted, |sorted|, visited, names) && Walking(m, visited, names)
    requires TakenFairly(m, sorted, |sorted|, names)
    ensures BootOrdered(m, names)
  {
    hide Reaches, AllOrdered, PriorityLed, FairlyListed;
    forall n | n in m
      ensures n in names && FairlyListed(m, names, n)
    {
      assert n in sorted;
    }
  }

  lemma SortedUnits(m: Units, units: seq<ContainerUnit>, sorted: seq<ContainerUnit>)
    requires AreUnits(m, units) && ByPriority(sorted) && multiset(sorted) == multiset(units)
    ensures SortedNames(m, Names(sorted)) && forall j | 0 <= j < |sorted| ::
            sorted[j].name in m && m[sorted[j].name] == sorted[j]
  {
    hide Names;
    SameUnits(units, sorted);
    NamesLength(sorted);
    forall j | 0 <= j < |sorted|
      ensures sorted[j].name in m && m[sorted[j].name] == sorted[j] && Names(sorted)[j] == sorted[j].name
    {
      assert sorted[j] in units;
      NameAt(sorted, j);
    }
    forall n | n in m
      ensures n in Names(sorted)
    {
      assert m[n] in sorted;
      var j :| 0 <= j < |sorted| && sorted[j] == m[n];
      assert Names(sorted)[j] == n;
    }
  }

  lemma SameUnits(units: seq<ContainerUnit>, sorted: seq<ContainerUnit>)
    requires multiset(sorted) == multiset(units)
    ensures forall u: ContainerUnit :: u in sorted <==> u in units
  {
    forall u: ContainerUnit
      ensures u in sorted <==> u in units
    {
      assert u in multiset(sorted) <==> u in multiset(units);
    }
  }

  /** The list holds the registered units. */
  ghost predicate AreUnits(m: Units, units: seq<ContainerUnit>) {
    (forall u | u in units :: u.name in m && m[u.name] == u) && (forall n | n in m :: m[n] in units)
  }

  method TopoSort(units: seq<ContainerUnit>, m: Units) returns (result: seq<ContainerUnit>)
    requires AreUnits(m, units)
    ensures BootOrdered(m, Names(result)) && forall u | u in result :: u.name in m && m[u.name] == u
  {
    hide Walking, Taken, Names, Appended, AreUnits, BootOrdered, TakenFairly, Listed;
    var sorted := SortByPriority(units);
    SortedUnits(m, units, sorted);
    var walk := new Walk(m);
    StartTaken(m, Names(sorted));
    NamesEmpty();
    for i := 0 to |sorted|
      invariant fresh(walk) && walk.units == m && walk.Valid()
      invariant Taken(m, Names(sorted), i, walk.visited, Names(walk.result))
      invariant i <= |Names(sorted)| && TakenFairly(m, Names(sorted), i, Names(walk.result))
    {
      ghost var before, names := walk.visited, Names(walk.result);
      NameAt(sorted, i);
      NothingOpen(m, Names(sorted), i, before, names, sorted[i].name);
      ghost var added := walk.Visit(sorted[i]);
      VisitedKnown(m, walk.visited, Names(walk.result));
      TakeFairly(m, Names(sorted), i, before, names, added);
      TakeNext(m, Names(sorted), i, before, names, added, walk.visited);
    }
    NamesLength(sorted);
    TakenAll(m, Names(sorted), walk.visited, Names(walk.result));
    result := walk.result;
  }

  lemma NameAt(units: seq<ContainerUnit>, i: nat)
    requires i < |units|
    ensures |Names(units)| == |units| && Names(units)[i] == units[i].name
  {
  }

  lemma NamesLength(units: seq<ContainerUnit>)
    ensures |Names(units)| == |units|
  {
  }

  lemma NamesEmpty()
    ensures Names([]) == []
  {
  }

  lemma StartTaken(m: Units, sorted: seq<string>)
    ensures Taken(m, sorted, 0, {}, []) && TakenFairly(m, sorted, 0, [])
  {
  }

  lemma NothingOpen(m: Units, sorted: seq<string>, i: nat, visited: set<string>, names: seq<string>, u: string)
    requires Taken(m, sorted, i, visited, names)
    ensures OpenReach(m, visited, names, u)
  {
  }

  lemma VisitedKnown(m: Units, visited: set<string>, names: seq<string>)
    requires Walking(m, visited, names)
    ensures visited <= m.Keys
  {
  }

  /** All registered units, in any order, sorted for boot. */
  method BootSequence(m: Units) returns (result: seq<ContainerUnit>)
    ensures BootOrdered(m, Names(result)) && forall u | u in result :: u.name in m && m[u.name] == u
  {
    hide BootOrdered, Names;
    var units: seq<ContainerUnit>, todo := [], m.Keys;
    while todo != {}
      invariant todo <= m.Keys
      invariant forall u | u in units :: u.name in m && m[u.name] == u
      invariant forall n | n in m && n !in todo :: m[n] in units
      decreases |todo|
    {
      var n :| n in todo;
      todo := todo - {n};
      units := units + [m[n]];
    }
    result := TopoSort(units, m);
  }
}
