/**
 Kahn's algorithm, written twice in the source: over a stack at intake
 (src/domains/work-intake/unit-validation.ts) and over a queue in the store
 (src/domains/orchestration/sqlite-store.ts).
 */
module Kahn {
  import opened Text
  import opened Graph

  /** How many entries of a dependency list are not done yet, repeats counted. */
  ghost function Waiting(deps: seq<Str>, done: set<Str>): nat {
    if |deps| == 0 then 0
    else (if deps[0] in done then 0 else 1) + Waiting(deps[1..], done)
  }

  lemma {:induction false} WaitingAfter(deps: seq<Str>, done: set<Str>, c: Str)
    requires c !in done
    ensures Waiting(deps, done + {c}) == Waiting(deps, done) - multiset(deps)[c]
  {
    if |deps| > 0 {
      WaitingAfter(deps[1..], done, c);
      assert deps == [deps[0]] + deps[1..];
    }
  }

  lemma {:induction false} WaitingZero(deps: seq<Str>, done: set<Str>)
    ensures Waiting(deps, done) == 0 <==> forall d :: d in deps ==> d in done
  {
    if |deps| > 0 {
      WaitingZero(deps[1..], done);
      assert deps == [deps[0]] + deps[1..];
    }
  }

  lemma {:induction false} WaitingAll(deps: seq<Str>)
    ensures Waiting(deps, {}) == |deps|
  {
    if |deps| > 0 {
      WaitingAll(deps[1..]);
    }
  }

  function IdList(g: seq<Node>): (r: seq<Str>)
    ensures |r| == |g| && forall i :: 0 <= i < |g| ==> r[i] == g[i].id
    ensures forall x :: x in r <==> x in Ids(g)
  {
    seq(|g|, i requires 0 <= i < |g| => g[i].id)
  }

  function WithDegree(degree: map<Str, int>, positive: bool): set<Str> {
    set x | x in degree && (if positive then degree[x] > 0 else degree[x] == 0)
  }

  /** `dependents[d]` lists `u` as often as `u` lists `d`. */
  ghost predicate ListsDependents(g: seq<Node>, dependents: map<Str, seq<Str>>) {
    && dependents.Keys == Ids(g)
    && (forall d, k :: d in dependents && 0 <= k < |g| ==>
        multiset(dependents[d])[g[k].id] == multiset(g[k].dependsOn)[d])
    && (forall d, u :: d in dependents && u in dependents[d] ==> u in Ids(g))
  }

  /** The remaining degrees are exact, and `ready` holds the processable nodes that are not done. */
  ghost predicate Counts(g: seq<Node>, degree: map<Str, int>, ready: seq<Str>, done: seq<Str>) {
    && degree.Keys == Ids(g)
    && (forall k :: 0 <= k < |g| ==> degree[g[k].id] == Waiting(g[k].dependsOn, ToSet(done)))
    && NoDuplicates(done + ready)
    && (forall u :: u in degree ==> (u in done || u in ready <==> degree[u] == 0))
    && (forall u :: u in done || u in ready ==> u in degree)
  }

  ghost predicate Invariant(g: seq<Node>, degree: map<Str, int>, ready: seq<Str>, done: seq<Str>) {
    Counts(g, degree, ready, done) && Ordered(g, done)
  }

  /** The inner loop of both copies: one processed node lowers the degree of its dependents. */
  method Relax(children: seq<Str>, degree: map<Str, int>, ready: seq<Str>)
    returns (degree': map<Str, int>, ready': seq<Str>, ghost added: seq<Str>)
    requires forall u :: u in children ==> u in degree && multiset(children)[u] <= degree[u]
    ensures degree'.Keys == degree.Keys
    ensures forall u :: u in degree ==> degree'[u] == degree[u] - multiset(children)[u]
    ensures ready' == ready + added && NoDuplicates(added)
    ensures forall u :: u in added <==> u in children && degree'[u] == 0
  {
    degree', ready', added := degree, ready, [];
    for j := 0 to |children|
      invariant degree'.Keys == degree.Keys
      invariant forall u :: u in degree ==> degree'[u] == degree[u] - multiset(children[..j])[u]
      invariant ready' == ready + added && NoDuplicates(added)
      invariant forall u :: u in added <==> u in children[..j] && degree'[u] == 0
    {
      var child := children[j];
      PrefixCount(children, j);
      var d := degree'[child] - 1;
      degree' := degree'[child := d];
      if d == 0 {
        ready' := ready' + [child];
        added := added + [child];
      }
    }
    WholeSeq(children);
  }

  lemma PrefixCount(s: seq<Str>, j: nat)
    requires j < |s|
    ensures multiset(s[..j + 1]) == multiset(s[..j]) + multiset{s[j]}
    ensures multiset(s)[s[j]] >= multiset(s[..j])[s[j]] + 1
    ensures forall u :: u in s[..j + 1] <==> u in s[..j] || u == s[j]
  {
    assert s[..j + 1] == s[..j] + [s[j]];
    assert s == s[..j + 1] + s[j + 1..];
  }

  lemma Duplicated(g: seq<Node>, i: nat, k: nat)
    requires UniqueIds(g) && i < |g| && k < |g| && g[i].id == g[k].id
    ensures i == k
  {
  }

  lemma ProcessedKeepsOrder(g: seq<Node>, degree: map<Str, int>, ready: seq<Str>, done: seq<Str>, c: Str)
    requires WellFormed(g) && Invariant(g, degree, ready, done) && c in ready
    ensures c !in done && Ordered(g, done + [c])
  {
    var i :| 0 <= i < |ready| && ready[i] == c;
    assert (done + ready)[|done| + i] == c;
    forall j | 0 <= j < |done|
      ensures done[j] != c
    {
      assert (done + ready)[j] == done[j];
    }
    assert c in Ids(g);
    var k :| 0 <= k < |g| && g[k].id == c;
    assert degree[g[k].id] == 0;
    WaitingZero(g[k].dependsOn, ToSet(done));
    var order := done + [c];
    forall m, d | 0 <= m < |order| && Edge(g, order[m], d)
      ensures d in order[..m]
    {
      if m < |done| {
        assert order[..m] == done[..m];
        assert Edge(g, done[m], d);
      } else {
        var i' :| 0 <= i' < |g| && g[i'].id == c && d in g[i'].dependsOn;
        Duplicated(g, i', k);
        assert order[..m] == done;
      }
    }
  }

  lemma StepDegrees(g: seq<Node>, degree: map<Str, int>, done: seq<Str>, c: Str,
                    children: seq<Str>, degree': map<Str, int>)
    requires degree.Keys == Ids(g) == degree'.Keys && c !in done
    requires forall k :: 0 <= k < |g| ==> degree[g[k].id] == Waiting(g[k].dependsOn, ToSet(done))
    requires forall k :: 0 <= k < |g| ==> multiset(children)[g[k].id] == multiset(g[k].dependsOn)[c]
    requires forall u :: u in degree ==> degree'[u] == degree[u] - multiset(children)[u]
    ensures forall k :: 0 <= k < |g| ==> degree'[g[k].id] == Waiting(g[k].dependsOn, ToSet(done + [c]))
  {
    assert ToSet(done + [c]) == ToSet(done) + {c};
    forall k | 0 <= k < |g|
      ensures degree'[g[k].id] == Waiting(g[k].dependsOn, ToSet(done + [c]))
    {
      assert g[k].id in Ids(g);
      WaitingAfter(g[k].dependsOn, ToSet(done), c);
    }
  }

  /** Taking `c` out of `ready`, from either end, and relaxing its dependents keeps the counts. */
  lemma StepKeepsCounts(g: seq<Node>, degree: map<Str, int>, ready: seq<Str>, done: seq<Str>, c: Str,
                        rest: seq<Str>, children: seq<Str>, degree': map<Str, int>, added: seq<Str>)
    requires Counts(g, degree, ready, done) && c !in done
    requires ready == [c] + rest || ready == rest + [c]
    requires forall k :: 0 <= k < |g| ==> multiset(children)[g[k].id] == multiset(g[k].dependsOn)[c]
    requires forall u :: u in children ==> u in degree
    requires degree'.Keys == degree.Keys
    requires forall u :: u in degree ==> degree'[u] == degree[u] - multiset(children)[u]
    requires NoDuplicates(added)
    requires forall u :: u in added <==> u in children && degree'[u] == 0
    ensures Counts(g, degree', rest + added, done + [c])
  {
    StepDegrees(g, degree, done, c, children, degree');
    forall u | u in degree
      ensures u in done + [c] || u in rest + added <==> degree'[u] == 0
      ensures u in added ==> u !in done + [c] && u !in rest
    {
      ChildIsWaiting(g, degree, done, c, children, u);
      StepMembership(degree, ready, done, c, rest, children, degree', added, u);
    }
    assert c in ready && forall u :: u in rest ==> u in ready;
    TakenNoDuplicates(done, ready, c, rest);
    AppendNoDuplicates(done + [c], rest, added);
  }

  lemma StepMembership(degree: map<Str, int>, ready: seq<Str>, done: seq<Str>, c: Str, rest: seq<Str>,
                       children: seq<Str>, degree': map<Str, int>, added: seq<Str>, u: Str)
    requires u in degree && u in degree'
    requires u in done || u in ready <==> degree[u] == 0
    requires ready == [c] + rest || ready == rest + [c]
    requires degree[u] >= multiset(children)[u]
    requires degree'[u] == degree[u] - multiset(children)[u]
    requires u in added <==> u in children && degree'[u] == 0
    ensures u in done + [c] || u in rest + added <==> degree'[u] == 0
    ensures u in added ==> u !in done + [c] && u !in rest
  {
    assert u in ready <==> u == c || u in rest;
    assert u in children <==> multiset(children)[u] > 0;
  }

  lemma TakenNoDuplicates(done: seq<Str>, ready: seq<Str>, c: Str, rest: seq<Str>)
    requires NoDuplicates(done + ready)
    requires ready == [c] + rest || ready == rest + [c]
    ensures NoDuplicates(done + [c] + rest)
  {
    var s, t := done + ready, done + [c] + rest;
    if ready == rest + [c] {
      forall i, j | 0 <= i < j < |t|
        ensures t[i] != t[j]
      {
        var i' := if i < |done| then i else if i == |done| then |s| - 1 else i - 1;
        var j' := if j < |done| then j else if j == |done| then |s| - 1 else j - 1;
        assert t[i] == s[i'] && t[j] == s[j'];
      }
    } else {
      assert s == t;
    }
  }

  lemma AppendNoDuplicates(done: seq<Str>, rest: seq<Str>, added: seq<Str>)
    requires NoDuplicates(done + rest) && NoDuplicates(added)
    requires forall u :: u in added ==> u !in done && u !in rest
    ensures NoDuplicates(done + (rest + added))
  {
    var s, t := done + rest, done + (rest + added);
    assert t == s + added;
    forall i, j | 0 <= i < j < |t|
      ensures t[i] != t[j]
    {
      if i < |s| <= j {
        assert t[i] in s && t[j] in added;
        assert t[i] in done || t[i] in rest;
      } else if |s| <= i {
        assert t[i] == added[i - |s|] && t[j] == added[j - |s|];
      }
    }
  }

  /** A dependent of an unprocessed node has a positive degree. */
  lemma ChildIsWaiting(g: seq<Node>, degree: map<Str, int>, done: seq<Str>, c: Str, children: seq<Str>, u: Str)
    requires degree.Keys == Ids(g) && c !in done && u in Ids(g)
    requires forall k :: 0 <= k < |g| ==> degree[g[k].id] == Waiting(g[k].dependsOn, ToSet(done))
    requires forall k :: 0 <= k < |g| ==> multiset(children)[g[k].id] == multiset(g[k].dependsOn)[c]
    ensures degree[u] >= multiset(children)[u]
  {
    var k :| 0 <= k < |g| && g[k].id == u;
    WaitingAfter(g[k].dependsOn, ToSet(done), c);
    assert degree[g[k].id] == Waiting(g[k].dependsOn, ToSet(done));
  }

  lemma ExhaustedIsStuck(g: seq<Node>, degree: map<Str, int>, done: seq<Str>)
    requires Invariant(g, degree, [], done)
    ensures Stuck(g, ToSet(done))
  {
    forall u | u in Ids(g) && u !in ToSet(done)
      ensures exists d :: Edge(g, u, d) && d !in ToSet(done)
    {
      var k :| 0 <= k < |g| && g[k].id == u;
      WaitingZero(g[k].dependsOn, ToSet(done));
      assert degree[g[k].id] != 0;
      var d :| d in g[k].dependsOn && d !in ToSet(done);
      assert Edge(g, u, d);
    }
  }

  lemma DoneIsBounded(g: seq<Node>, degree: map<Str, int>, ready: seq<Str>, done: seq<Str>)
    requires UniqueIds(g) && Invariant(g, degree, ready, done)
    ensures |done| + |ready| <= |Ids(g)| == |g|
    ensures |done| == |g| <==> ToSet(done) == Ids(g)
  {
    Pigeonhole(done + ready, Ids(g));
    NoDuplicatesSize(IdList(g));
    assert ToSet(IdList(g)) == Ids(g);
    assert NoDuplicates(done) by {
      assert forall i :: 0 <= i < |done| ==> (done + ready)[i] == done[i];
    }
    NoDuplicatesSize(done);
    if |done| == |g| {
      SubsetOfSameSize(ToSet(done), Ids(g));
    }
  }

  lemma SubsetOfSameSize(a: set<Str>, b: set<Str>)
    requires a <= b && |a| == |b|
    ensures a == b
  {
    assert b == a + (b - a);
  }

  // ---- the intake copy

  /** How often the dependents table should list unit `k` under `d` so far. */
  ghost function Entered(g: seq<Node>, i: nat, j: nat, d: Str, k: nat): nat
    requires k < |g| && i <= |g|
    requires i < |g| ==> j <= |g[i].dependsOn|
  {
    if k < i then multiset(g[k].dependsOn)[d]
    else if k == i then multiset(g[i].dependsOn[..j])[d]
    else 0
  }

  /** The dependents table after the edges of units before `i`, and `j` edges of unit `i`. */
  ghost predicate EdgesEntered(g: seq<Node>, dependents: map<Str, seq<Str>>, i: nat, j: nat)
    requires i <= |g|
    requires i < |g| ==> j <= |g[i].dependsOn|
  {
    && dependents.Keys == Ids(g)
    && (forall d, k :: d in dependents && 0 <= k < |g| ==>
        multiset(dependents[d])[g[k].id] == Entered(g, i, j, d, k))
    && (forall d, u :: d in dependents && u in dependents[d] ==> u in Ids(g))
  }

  lemma EdgeCounted(g: seq<Node>, row: seq<Str>, i: nat, j: nat, d: Str, k: nat)
    requires UniqueIds(g) && i < |g| && k < |g| && j < |g[i].dependsOn|
    requires multiset(row)[g[k].id] == Entered(g, i, j, d, k)
    ensures multiset(if d == g[i].dependsOn[j] then row + [g[i].id] else row)[g[k].id] == Entered(g, i, j + 1, d, k)
  {
    var deps := g[i].dependsOn;
    assert deps[..j + 1] == deps[..j] + [deps[j]];
    assert k != i ==> g[k].id != g[i].id;
  }

  lemma EdgeEntered(g: seq<Node>, dependents: map<Str, seq<Str>>, i: nat, j: nat)
    requires UniqueIds(g) && i < |g| && j < |g[i].dependsOn|
    requires EdgesEntered(g, dependents, i, j) && g[i].dependsOn[j] in dependents
    ensures var d := g[i].dependsOn[j];
            EdgesEntered(g, dependents[d := dependents[d] + [g[i].id]], i, j + 1)
  {
    var d0 := g[i].dependsOn[j];
    var next := dependents[d0 := dependents[d0] + [g[i].id]];
    assert next.Keys == dependents.Keys;
    forall d, k | d in next && 0 <= k < |g|
      ensures multiset(next[d])[g[k].id] == Entered(g, i, j + 1, d, k)
    {
      EdgeCounted(g, dependents[d], i, j, d, k);
    }
    forall d, u | d in next && u in next[d]
      ensures u in Ids(g)
    {
      assert u in dependents[d] || u == g[i].id;
    }
  }

  lemma NextUnitEntered(g: seq<Node>, dependents: map<Str, seq<Str>>, i: nat)
    requires i < |g| && EdgesEntered(g, dependents, i, |g[i].dependsOn|)
    ensures EdgesEntered(g, dependents, i + 1, 0)
  {
    assert g[i].dependsOn[..|g[i].dependsOn|] == g[i].dependsOn;
    forall d, k | d in dependents && 0 <= k < |g|
      ensures Entered(g, i, |g[i].dependsOn|, d, k) == Entered(g, i + 1, 0, d, k)
    {
    }
  }

  lemma AllEntered(g: seq<Node>, dependents: map<Str, seq<Str>>)
    requires EdgesEntered(g, dependents, |g|, 0)
    ensures ListsDependents(g, dependents)
  {
    forall d, k | d in dependents && 0 <= k < |g|
      ensures multiset(dependents[d])[g[k].id] == multiset(g[k].dependsOn)[d]
    {
      assert Entered(g, |g|, 0, d, k) == multiset(g[k].dependsOn)[d];
    }
  }

  lemma NoneEntered(g: seq<Node>, dependents: map<Str, seq<Str>>)
    requires dependents.Keys == Ids(g) && forall d :: d in dependents ==> dependents[d] == []
    ensures EdgesEntered(g, dependents, 0, 0)
  {
  }

  ghost predicate DegreesEntered(g: seq<Node>, degree: map<Str, int>, i: nat, j: nat) {
    && degree.Keys == Ids(g)
    && forall k :: 0 <= k < |g| ==>
      degree[g[k].id] == if k < i then |g[k].dependsOn| else if k == i then j else 0
  }

  lemma DegreeEntered(g: seq<Node>, degree: map<Str, int>, i: nat, j: nat)
    requires UniqueIds(g) && i < |g| && DegreesEntered(g, degree, i, j)
    ensures g[i].id in degree
    ensures DegreesEntered(g, degree[g[i].id := degree[g[i].id] + 1], i, j + 1)
  {
    assert g[i].id in Ids(g);
    assert forall k :: 0 <= k < |g| && k != i ==> g[k].id != g[i].id;
  }

  lemma NextIds(g: seq<Node>, i: nat)
    requires i < |g|
    ensures Ids(g[..i + 1]) == Ids(g[..i]) + {g[i].id}
  {
    var a, b := g[..i + 1], g[..i];
    assert forall k :: 0 <= k < i ==> a[k] == b[k];
    forall x | x in Ids(b)
      ensures x in Ids(a)
    {
      var k :| 0 <= k < |b| && b[k].id == x;
      assert a[k].id == x;
    }
    assert a[i].id in Ids(a);
  }

  /** The first loop of the intake copy. */
  method EmptyTables(units: seq<Node>) returns (indegree: map<Str, int>, dependents: map<Str, seq<Str>>)
    ensures EdgesEntered(units, dependents, 0, 0)
    ensures DegreesEntered(units, indegree, 0, 0)
  {
    indegree, dependents := map[], map[];
    for i := 0 to |units|
      invariant indegree.Keys == dependents.Keys == Ids(units[..i])
      invariant forall d :: d in dependents ==> dependents[d] == [] && indegree[d] == 0
    {
      NextIds(units, i);
      indegree := indegree[units[i].id := 0];
      dependents := dependents[units[i].id := []];
    }
    WholeSeq(units);
    NoneEntered(units, dependents);
  }

  /** The edges of one unit. */
  method EnterUnit(units: seq<Node>, i: nat, degree: map<Str, int>, table: map<Str, seq<Str>>)
    returns (indegree: map<Str, int>, dependents: map<Str, seq<Str>>)
    requires UniqueIds(units) && i < |units|
    requires forall j :: 0 <= j < |units[i].dependsOn| ==> units[i].dependsOn[j] in Ids(units)
    requires EdgesEntered(units, table, i, 0) && DegreesEntered(units, degree, i, 0)
    ensures EdgesEntered(units, dependents, i + 1, 0) && DegreesEntered(units, indegree, i + 1, 0)
  {
    indegree, dependents := degree, table;
    var deps := units[i].dependsOn;
    for j := 0 to |deps|
      invariant EdgesEntered(units, dependents, i, j)
      invariant DegreesEntered(units, indegree, i, j)
    {
      DegreeEntered(units, indegree, i, j);
      indegree := indegree[units[i].id := indegree[units[i].id] + 1];
      EdgeEntered(units, dependents, i, j);
      dependents := dependents[deps[j] := dependents[deps[j]] + [units[i].id]];
    }
    NextUnitEntered(units, dependents, i);
  }

  lemma UnitEdgesKnown(g: seq<Node>, i: nat)
    requires Resolved(g) && i < |g|
    ensures forall j :: 0 <= j < |g[i].dependsOn| ==> g[i].dependsOn[j] in Ids(g)
  {
    forall j | 0 <= j < |g[i].dependsOn|
      ensures g[i].dependsOn[j] in Ids(g)
    {
      assert g[i].dependsOn[j] in g[i].dependsOn;
    }
  }

  /** The two tables the intake copy fills before it starts. */
  method IntakeTables(units: seq<Node>) returns (indegree: map<Str, int>, dependents: map<Str, seq<Str>>)
    requires WellFormed(units)
    ensures ListsDependents(units, dependents)
    ensures DegreesEntered(units, indegree, |units|, 0)
  {
    indegree, dependents := EmptyTables(units);
    for i := 0 to |units|
      invariant EdgesEntered(units, dependents, i, 0)
      invariant DegreesEntered(units, indegree, i, 0)
    {
      UnitEdgesKnown(units, i);
      indegree, dependents := EnterUnit(units, i, indegree, dependents);
    }
    AllEntered(units, dependents);
  }

  /** The processing loop of the intake copy: the ready nodes are a stack. */
  method ProcessStack(units: seq<Node>, degree: map<Str, int>, dependents: map<Str, seq<Str>>)
    returns (indegree: map<Str, int>, ordered: nat, ghost done: seq<Str>)
    requires WellFormed(units) && ListsDependents(units, dependents)
    requires DegreesEntered(units, degree, |units|, 0)
    ensures Invariant(units, indegree, [], done) && ordered == |done|
  {
    indegree, ordered, done := degree, 0, [];
    var ready := Keep(IdList(units), WithDegree(indegree, false));
    InitialInvariant(units, indegree, ready);
    while |ready| > 0
      invariant Invariant(units, indegree, ready, done) && ordered == |done|
      decreases |units| - |done|
    {
      var current := ready[|ready| - 1];
      var rest := ready[..|ready| - 1];
      AllButLast(ready);
      ordered := ordered + 1;
      DoneIsBounded(units, indegree, ready, done);
      StepReady(units, dependents, indegree, ready, done, current);
      var indegree', ready', added := Relax(dependents[current], indegree, rest);
      StepKeepsCounts(units, indegree, ready, done, current, rest, dependents[current], indegree', added);
      indegree, ready, done := indegree', ready', done + [current];
    }
  }

  /**
   The ids that cannot be ordered: exactly the units on, or transitively depending on, a
   dependency cycle, in ascending order.
   */
  method FindUnorderableUnits(units: seq<Node>) returns (result: seq<Str>)
    requires WellFormed(units)
    ensures Ascending(result)
    ensures forall u :: u in result <==> u in Ids(units) && ReachesCycle(units, u)
    ensures result == [] <==> exists order :: TopologicalOrder(units, order)
  {
    var degree, dependents := IntakeTables(units);
    var indegree, ordered, done := ProcessStack(units, degree, dependents);
    DoneIsBounded(units, indegree, [], done);
    ExhaustedIsStuck(units, indegree, done);
    AcyclicIffOrdered(units, done);
    ResidueIsUnorderable(units, indegree, done);
    if ordered == |units| {
      return [];
    }
    var left := Keep(IdList(units), WithDegree(indegree, true));
    KeepNoDuplicates(IdList(units), WithDegree(indegree, true));
    SortAscends(left);
    result := Sort(left);
    forall u
      ensures u in result <==> u in left
    {
      assert u in ToSet(result) <==> u in ToSet(left);
    }
  }

  lemma InitialInvariant(g: seq<Node>, degree: map<Str, int>, ready: seq<Str>)
    requires UniqueIds(g) && DegreesEntered(g, degree, |g|, 0)
    requires ready == Keep(IdList(g), WithDegree(degree, false))
    ensures Invariant(g, degree, ready, [])
  {
    KeepNoDuplicates(IdList(g), WithDegree(degree, false));
    assert [] + ready == ready;
    forall k | 0 <= k < |g|
      ensures degree[g[k].id] == Waiting(g[k].dependsOn, ToSet<Str>([]))
    {
      WaitingAll(g[k].dependsOn);
      assert ToSet<Str>([]) == {};
    }
  }

  lemma StepReady(g: seq<Node>, dependents: map<Str, seq<Str>>, degree: map<Str, int>, ready: seq<Str>,
                  done: seq<Str>, c: Str)
    requires WellFormed(g) && ListsDependents(g, dependents) && Invariant(g, degree, ready, done) && c in ready
    ensures c in dependents && c !in done && Ordered(g, done + [c])
    ensures forall u :: u in dependents[c] ==> u in degree && multiset(dependents[c])[u] <= degree[u]
  {
    ProcessedKeepsOrder(g, degree, ready, done, c);
    forall u | u in dependents[c]
      ensures u in degree && multiset(dependents[c])[u] <= degree[u]
    {
      ChildIsWaiting(g, degree, done, c, dependents[c], u);
    }
  }

  lemma ResidueIsUnorderable(g: seq<Node>, degree: map<Str, int>, done: seq<Str>)
    requires WellFormed(g) && Invariant(g, degree, [], done) && Stuck(g, ToSet(done))
    ensures forall u :: u in Ids(g) ==> (degree[u] > 0 <==> ReachesCycle(g, u))
    ensures forall u :: u in Ids(g) ==> (u in done <==> !ReachesCycle(g, u))
  {
    forall u | u in Ids(g)
      ensures degree[u] > 0 <==> ReachesCycle(g, u)
      ensures u in done <==> !ReachesCycle(g, u)
    {
      ResidueIsCyclic(g, done, u);
      var k :| 0 <= k < |g| && g[k].id == u;
      assert degree[g[k].id] >= 0;
    }
  }

  // ---- the store copy

  /** The first loop: every degree at once, and no dependents yet. */
  method StoreDegrees(nodes: seq<Node>) returns (inDegree: map<Str, int>, adj: map<Str, seq<Str>>)
    requires UniqueIds(nodes)
    ensures inDegree.Keys == adj.Keys == Ids(nodes) && (forall d :: d in adj ==> adj[d] == [])
    ensures forall k :: 0 <= k < |nodes| ==> inDegree[nodes[k].id] == |nodes[k].dependsOn|
  {
    inDegree, adj := map[], map[];
    for i := 0 to |nodes|
      invariant inDegree.Keys == adj.Keys == Ids(nodes[..i])
      invariant forall d :: d in adj ==> adj[d] == []
      invariant forall k :: 0 <= k < i ==> nodes[k].id in inDegree && inDegree[nodes[k].id] == |nodes[k].dependsOn|
    {
      NextIds(nodes, i);
      inDegree := inDegree[nodes[i].id := |nodes[i].dependsOn|];
      adj := adj[nodes[i].id := []];
    }
    WholeSeq(nodes);
  }

  method StoreTables(nodes: seq<Node>) returns (inDegree: map<Str, int>, adj: map<Str, seq<Str>>)
    requires WellFormed(nodes)
    ensures ListsDependents(nodes, adj)
    ensures DegreesEntered(nodes, inDegree, |nodes|, 0)
  {
    inDegree, adj := StoreDegrees(nodes);
    NoneEntered(nodes, adj);
    for i := 0 to |nodes|
      invariant EdgesEntered(nodes, adj, i, 0)
    {
      var deps := nodes[i].dependsOn;
      for j := 0 to |deps|
        invariant EdgesEntered(nodes, adj, i, j)
      {
        EdgeEntered(nodes, adj, i, j);
        adj := adj[deps[j] := adj[deps[j]] + [nodes[i].id]];
      }
      NextUnitEntered(nodes, adj, i);
    }
    AllEntered(nodes, adj);
  }

  /** The cycle check that ends `validateWork`: true exactly for graphs with a topological order. */
  method OrdersCompletely(nodes: seq<Node>) returns (ok: bool)
    requires WellFormed(nodes)
    ensures ok <==> Acyclic(nodes)
    ensures ok <==> exists order :: TopologicalOrder(nodes, order)
  {
    var inDegree, adj := StoreTables(nodes);
    var queue := Keep(IdList(nodes), WithDegree(inDegree, false));
    ghost var done: seq<Str> := [];
    InitialInvariant(nodes, inDegree, queue);
    var processed := 0;
    while |queue| > 0
      invariant Invariant(nodes, inDegree, queue, done) && processed == |done|
      decreases |nodes| - |done|
    {
      var id := queue[0];
      var rest := queue[1..];
      FirstAndRest(queue);
      processed := processed + 1;
      DoneIsBounded(nodes, inDegree, queue, done);
      StepReady(nodes, adj, inDegree, queue, done, id);
      var inDegree', queue', added := Relax(adj[id], inDegree, rest);
      StepKeepsCounts(nodes, inDegree, queue, done, id, rest, adj[id], inDegree', added);
      inDegree, queue, done := inDegree', queue', done + [id];
    }
    assert queue == [];
    DoneIsBounded(nodes, inDegree, queue, done);
    ExhaustedIsStuck(nodes, inDegree, done);
    AcyclicIffOrdered(nodes, done);
    ok := processed == |nodes|;
  }

  /** The two copies accept the same graphs. */
  method BothCopiesAgree(g: seq<Node>) returns (intake: bool, store: bool)
    requires WellFormed(g)
    ensures intake == store
  {
    var unorderable := FindUnorderableUnits(g);
    intake := unorderable == [];
    store := OrdersCompletely(g);
  }
}
