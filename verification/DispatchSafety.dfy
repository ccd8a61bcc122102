/**
 Dependency safety over whole runs, with any number of dispatch passes in flight at once, each
 working from the node list it read when it began (src/domains/orchestration/dispatch-service.ts).
 */
module DispatchSafety {
  import opened Text
  import opened Lifecycle
  import opened StoreModel
  import opened StoreInvariants
  import opened StoreRuns

  /** The node list of one work as a pass read it. */
  datatype Snapshot = Snapshot(workId: Str, nodes: map<Str, NodeRow>)

  function ReadNodes(db: Db, workId: Str): Snapshot {
    Snapshot(workId, map k | k in db.plan.nodes && k.workId == workId :: k.nodeId := db.plan.nodes[k])
  }

  predicate SnapshotPassed(s: Snapshot, n: Str) {
    n in s.nodes && s.nodes[n].state.Passed?
  }

  /** `n` is on the frontier the pass computes and was read as pending. */
  predicate Selectable(s: Snapshot, n: Str) {
    && n in s.nodes && s.nodes[n].state.Pending?
    && forall d :: d in s.nodes[n].dependsOn ==> SnapshotPassed(s, d)
  }

  datatype State = State(db: Db, passes: map<nat, Snapshot>)

  datatype Event =
    | Begin(pass: nat, workId: Str)
    | MakeReady(pass: nat, nodeId: Str)
    | StoreCall(call: Call)

  /**
   Outside of dispatch passes, nodes are moved to ready only if they have no dependencies, as
   the direct-task service does, and never to an end state by a bare transition. Every other
   call is allowed with any arguments, completions included.
   */
  ghost predicate Allowed(st: State, e: Event) {
    match e
    case Begin(_, _) => true
    case MakeReady(p, n) => p in st.passes && Selectable(st.passes[p], n)
    case StoreCall(TransitionCall(key, _, newState)) =>
      newState.InProgress? || (newState.Ready? && (key in st.db.plan.nodes ==> st.db.plan.nodes[key].dependsOn == []))
    case StoreCall(_) => true
  }

  ghost function Next(st: State, e: Event): State {
    match e
    case Begin(p, w) => st.(passes := st.passes[p := ReadNodes(st.db, w)])
    case MakeReady(p, n) =>
      if p in st.passes && n in st.passes[p].nodes then
        var s := st.passes[p];
        st.(db := TransitionNode(st.db, NodeKey(s.workId, n), s.nodes[n].version, Ready).db)
      else st
    case StoreCall(call) => st.(db := Apply(st.db, call).db)
  }

  ghost predicate IsHistory(states: seq<State>, events: seq<Event>) {
    && |states| == |events| + 1
    && forall i {:trigger events[i]} :: 0 <= i < |events| ==>
      Allowed(states[i], events[i]) && states[i + 1] == Next(states[i], events[i])
  }

  // ---- the invariant

  ghost predicate NodePassed(nodes: map<NodeKey, NodeRow>, k: NodeKey) {
    k in nodes && nodes[k].state.Passed?
  }

  ghost predicate DependenciesPassed(nodes: map<NodeKey, NodeRow>, k: NodeKey)
    requires k in nodes
  {
    forall d :: d in nodes[k].dependsOn ==> NodePassed(nodes, NodeKey(k.workId, d))
  }

  /** Every node past pending has all its dependencies passed. */
  ghost predicate Safe(nodes: map<NodeKey, NodeRow>) {
    forall k :: k in nodes && !nodes[k].state.Pending? ==> DependenciesPassed(nodes, k)
  }

  /** What a pass read is still true where it matters: dependency lists and passed nodes. */
  ghost predicate StillTrue(nodes: map<NodeKey, NodeRow>, s: Snapshot) {
    forall n :: n in s.nodes ==>
      && NodeKey(s.workId, n) in nodes
      && nodes[NodeKey(s.workId, n)].dependsOn == s.nodes[n].dependsOn
      && (s.nodes[n].state.Passed? ==> nodes[NodeKey(s.workId, n)].state.Passed?)
  }

  ghost predicate Inv(st: State) {
    && Valid(st.db)
    && Safe(st.db.plan.nodes)
    && forall p :: p in st.passes ==> StillTrue(st.db.plan.nodes, st.passes[p])
  }

  lemma PassedStays(nodes: map<NodeKey, NodeRow>, nodes': map<NodeKey, NodeRow>, k: NodeKey)
    requires KeepsTerminal(nodes, nodes') && NodePassed(nodes, k)
    ensures NodePassed(nodes', k)
  {
  }

  lemma StillTrueStays(nodes: map<NodeKey, NodeRow>, nodes': map<NodeKey, NodeRow>, s: Snapshot)
    requires NodesAdvance(nodes, nodes') && KeepsTerminal(nodes, nodes') && StillTrue(nodes, s)
    ensures StillTrue(nodes', s)
  {
  }

  /** A step that changes at most one node, whose dependencies have passed, keeps safety. */
  lemma SafeAfter(nodes: map<NodeKey, NodeRow>, nodes': map<NodeKey, NodeRow>, key: NodeKey)
    requires Safe(nodes) && NodesAdvance(nodes, nodes') && KeepsTerminal(nodes, nodes')
    requires forall k :: k in nodes' && !nodes'[k].state.Pending? && k != key ==> k in nodes && !nodes[k].state.Pending?
    requires key in nodes' && !nodes'[key].state.Pending? ==> key in nodes && DependenciesPassed(nodes, key)
    ensures Safe(nodes')
  {
    forall k | k in nodes' && !nodes'[k].state.Pending?
      ensures DependenciesPassed(nodes', k)
    {
      assert DependenciesPassed(nodes, k);
      forall d | d in nodes'[k].dependsOn
        ensures NodePassed(nodes', NodeKey(k.workId, d))
      {
        PassedStays(nodes, nodes', NodeKey(k.workId, d));
      }
    }
  }

  /** The node a call moves out of pending, if any, had no dependencies. */
  lemma CallLeavesPending(db: Db, call: Call, key: NodeKey)
    requires Valid(db)
    requires call.TransitionCall? ==> Allowed(State(db, map[]), StoreCall(call))
    requires key in Apply(db, call).db.plan.nodes && !Apply(db, call).db.plan.nodes[key].state.Pending?
    ensures key in db.plan.nodes
    ensures !db.plan.nodes[key].state.Pending?
      || (call.TransitionCall? && call.key == key && db.plan.nodes[key].dependsOn == [])
  {
    if IsImport(call) {
      ImportOnlyAddsPending(db, call);
    } else if !call.TransitionCall? && !call.CompleteCall? {
      RowCallNodes(db, call);
    }
  }

  lemma CallKeepsSafe(db: Db, call: Call)
    requires Valid(db) && Safe(db.plan.nodes)
    requires call.TransitionCall? ==> Allowed(State(db, map[]), StoreCall(call))
    ensures Safe(Apply(db, call).db.plan.nodes)
  {
    var nodes, nodes' := db.plan.nodes, Apply(db, call).db.plan.nodes;
    StepAdvances(db, call);
    forall k | k in nodes' && !nodes'[k].state.Pending?
      ensures DependenciesPassed(nodes', k)
    {
      CallLeavesPending(db, call, k);
      assert DependenciesPassed(nodes, k);
      forall d | d in nodes'[k].dependsOn
        ensures NodePassed(nodes', NodeKey(k.workId, d))
      {
        PassedStays(nodes, nodes', NodeKey(k.workId, d));
      }
    }
  }

  /** A stale read does no harm: the dependencies it saw passed are still passed. */
  lemma MakeReadyKeepsSafe(db: Db, s: Snapshot, n: Str)
    requires Valid(db) && Safe(db.plan.nodes) && StillTrue(db.plan.nodes, s) && Selectable(s, n)
    ensures Safe(TransitionNode(db, NodeKey(s.workId, n), s.nodes[n].version, Ready).db.plan.nodes)
  {
    var key := NodeKey(s.workId, n);
    var call := TransitionCall(key, s.nodes[n].version, Ready);
    StepAdvances(db, call);
    var nodes := db.plan.nodes;
    forall d | d in nodes[key].dependsOn
      ensures NodePassed(nodes, NodeKey(key.workId, d))
    {
      assert SnapshotPassed(s, d);
    }
    SafeAfter(nodes, Apply(db, call).db.plan.nodes, key);
  }

  lemma PassesStayTrue(st: State, db': Db)
    requires Inv(st) && Advances(st.db, db')
    ensures forall p :: p in st.passes ==> StillTrue(db'.plan.nodes, st.passes[p])
  {
    forall p | p in st.passes
      ensures StillTrue(db'.plan.nodes, st.passes[p])
    {
      StillTrueStays(st.db.plan.nodes, db'.plan.nodes, st.passes[p]);
    }
  }

  lemma CallKeepsInv(st: State, call: Call)
    requires Inv(st) && Safe(Apply(st.db, call).db.plan.nodes)
    ensures Inv(st.(db := Apply(st.db, call).db)) && Advances(st.db, Apply(st.db, call).db)
  {
    var db' := Apply(st.db, call).db;
    ApplyKeepsValid(st.db, call);
    StepAdvances(st.db, call);
    PassesStayTrue(st, db');
  }

  lemma MakeReadyKeepsInv(st: State, p: nat, n: Str)
    requires Inv(st) && p in st.passes && Selectable(st.passes[p], n)
    ensures Inv(Next(st, MakeReady(p, n))) && Advances(st.db, Next(st, MakeReady(p, n)).db)
  {
    var s := st.passes[p];
    MakeReadyKeepsSafe(st.db, s, n);
    CallKeepsInv(st, TransitionCall(NodeKey(s.workId, n), s.nodes[n].version, Ready));
  }

  lemma BeginKeepsInv(st: State, p: nat, w: Str)
    requires Inv(st)
    ensures Inv(Next(st, Begin(p, w))) && Advances(st.db, Next(st, Begin(p, w)).db)
  {
    AdvancesReflexive(st.db);
    ReadIsTrue(st.db, w);
  }

  lemma NextKeepsInv(st: State, e: Event)
    requires Inv(st) && Allowed(st, e)
    ensures Inv(Next(st, e)) && Advances(st.db, Next(st, e).db)
  {
    match e
    case Begin(p, w) => BeginKeepsInv(st, p, w);
    case MakeReady(p, n) => MakeReadyKeepsInv(st, p, n);
    case StoreCall(call) =>
      CallKeepsSafe(st.db, call);
      CallKeepsInv(st, call);
  }

  lemma OtherCallKeepsInv(st: State, call: Call)
    requires Inv(st) && !IsImport(call) && !IsLeaseCall(call) && !call.TransitionCall?
    ensures Inv(st.(db := ApplyOtherCall(st.db, call).db))
  {
    CallKeepsSafe(st.db, call);
    CallKeepsInv(st, call);
  }

  lemma ReadIsTrue(db: Db, w: Str)
    ensures StillTrue(db.plan.nodes, ReadNodes(db, w))
  {
  }

  lemma {:induction false} HistoryKeepsInv(states: seq<State>, events: seq<Event>, i: nat)
    requires IsHistory(states, events) && Inv(states[0]) && i < |states|
    ensures Inv(states[i])
  {
    if i > 0 {
      HistoryKeepsInv(states, events, i - 1);
      NextKeepsInv(states[i - 1], events[i - 1]);
    }
  }

  lemma {:induction false} HistoryAdvances(states: seq<State>, events: seq<Event>, i: nat, j: nat)
    requires IsHistory(states, events) && Inv(states[0]) && i <= j < |states|
    ensures Advances(states[i].db, states[j].db)
    decreases j - i
  {
    if i == j {
      AdvancesReflexive(states[i].db);
    } else {
      HistoryAdvances(states, events, i, j - 1);
      HistoryKeepsInv(states, events, j - 1);
      NextKeepsInv(states[j - 1], events[j - 1]);
      AdvancesTransitive(states[i].db, states[j - 1].db, states[j].db);
    }
  }

  // ---- transitive dependencies

  ghost predicate DependsOn(nodes: map<NodeKey, NodeRow>, k: NodeKey, d: NodeKey) {
    k in nodes && d.workId == k.workId && d.nodeId in nodes[k].dependsOn
  }

  /** A chain of dependencies from `p[0]` down to the last element. */
  ghost predicate Chain(nodes: map<NodeKey, NodeRow>, p: seq<NodeKey>) {
    |p| > 0 && forall i :: 0 <= i < |p| - 1 ==> DependsOn(nodes, p[i], p[i + 1])
  }

  lemma {:induction false} ChainPassed(nodes: map<NodeKey, NodeRow>, p: seq<NodeKey>, i: nat)
    requires Safe(nodes) && Chain(nodes, p) && 0 < i < |p|
    requires p[0] in nodes && !nodes[p[0]].state.Pending?
    ensures NodePassed(nodes, p[i])
  {
    if i > 1 {
      ChainPassed(nodes, p, i - 1);
    }
    assert DependsOn(nodes, p[i - 1], p[i - 1 + 1]);
    assert DependenciesPassed(nodes, p[i - 1]);
    assert p[i] == NodeKey(p[i - 1].workId, p[i].nodeId);
  }

  /**
   In every state of every history, a node that has left pending has all its transitive
   dependencies passed.
   */
  lemma TransitiveDependenciesPassed(states: seq<State>, events: seq<Event>, i: nat, p: seq<NodeKey>, m: nat)
    requires IsHistory(states, events) && Inv(states[0]) && i < |states|
    requires var nodes := states[i].db.plan.nodes;
      Chain(nodes, p) && 0 < m < |p| && p[0] in nodes && !nodes[p[0]].state.Pending?
    ensures NodePassed(states[i].db.plan.nodes, p[m])
  {
    HistoryKeepsInv(states, events, i);
    ChainPassed(states[i].db.plan.nodes, p, m);
  }

  lemma ChainStays(nodes: map<NodeKey, NodeRow>, nodes': map<NodeKey, NodeRow>, p: seq<NodeKey>)
    requires NodesAdvance(nodes, nodes') && Chain(nodes, p)
    ensures Chain(nodes', p)
  {
    forall i | 0 <= i < |p| - 1
      ensures DependsOn(nodes', p[i], p[i + 1])
    {
      assert DependsOn(nodes, p[i], p[i + 1]);
    }
  }

  /** Once a node has failed, everything downstream of it is pending and stays pending for ever. */
  lemma DownstreamOfFailureStaysPending(states: seq<State>, events: seq<Event>, i: nat, j: nat, p: seq<NodeKey>)
    requires IsHistory(states, events) && Inv(states[0]) && i <= j < |states|
    requires Chain(states[i].db.plan.nodes, p) && |p| > 1
    requires p[|p| - 1] in states[i].db.plan.nodes && states[i].db.plan.nodes[p[|p| - 1]].state.Failed?
    ensures p[0] in states[j].db.plan.nodes && states[j].db.plan.nodes[p[0]].state.Pending?
  {
    HistoryAdvances(states, events, i, j);
    HistoryKeepsInv(states, events, j);
    var nodes, nodes' := states[i].db.plan.nodes, states[j].db.plan.nodes;
    ChainStays(nodes, nodes', p);
    assert DependsOn(nodes', p[0], p[0 + 1]);
    if !nodes'[p[0]].state.Pending? {
      ChainPassed(nodes', p, |p| - 1);
    }
  }

  // ---- attempts

  lemma {:induction false} HistoryKeepsStarted(states: seq<State>, events: seq<Event>, i: nat)
    requires IsHistory(states, events) && Inv(states[0]) && AttemptsStarted(states[0].db) && i < |states|
    ensures AttemptsStarted(states[i].db)
  {
    if i > 0 {
      HistoryKeepsStarted(states, events, i - 1);
      HistoryKeepsInv(states, events, i - 1);
      NextKeepsStarted(states[i - 1], events[i - 1]);
    }
  }

  lemma NextKeepsStarted(st: State, e: Event)
    requires Inv(st) && AttemptsStarted(st.db)
    ensures AttemptsStarted(Next(st, e).db)
  {
    match e
    case Begin(_, _) =>
    case MakeReady(p, n) =>
      if p in st.passes && n in st.passes[p].nodes {
        var s := st.passes[p];
        StepKeepsStarted(st.db, TransitionCall(NodeKey(s.workId, n), s.nodes[n].version, Ready));
      }
    case StoreCall(call) => StepKeepsStarted(st.db, call);
  }

  /**
   No work is handed out early: in every state of every history, if an attempt exists then all
   the transitive dependencies of its node have passed.
   */
  lemma AttemptsOnlyAfterDependencies(states: seq<State>, events: seq<Event>, i: nat, a: Str, p: seq<NodeKey>, m: nat)
    requires IsHistory(states, events) && Inv(states[0]) && AttemptsStarted(states[0].db) && i < |states|
    requires a in states[i].db.runs.attempts && 0 < m < |p| && p[0] == states[i].db.runs.attempts[a].node
    requires Chain(states[i].db.plan.nodes, p)
    ensures NodePassed(states[i].db.plan.nodes, p[m])
  {
    HistoryKeepsStarted(states, events, i);
    TransitiveDependenciesPassed(states, events, i, p, m);
  }

  /** The empty store, with no pass in flight, is a state to start from. */
  lemma EmptyInv()
    ensures Inv(State(EmptyDb, map[])) && AttemptsStarted(EmptyDb)
  {
    EmptyValid();
  }

  /**
   In every history from the empty store, nodes past pending have their dependencies passed, and so
   have those of attempts.
   */
  lemma SafeFromEmpty(states: seq<State>, events: seq<Event>, i: nat)
    requires IsHistory(states, events) && states[0] == State(EmptyDb, map[]) && i < |states|
    ensures Safe(states[i].db.plan.nodes) && AttemptsStarted(states[i].db)
  {
    EmptyInv();
    HistoryKeepsInv(states, events, i);
    HistoryKeepsStarted(states, events, i);
  }
}
