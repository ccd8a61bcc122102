/** Tasks that the service accepts and that can never be claimed, and what becomes of the tasks posted after them. */
module ClaimFailures {
  import opened Text
  import opened Wrappers
  import opened Lifecycle
  import opened Identifiers
  import opened StoreModel
  import opened StoreInvariants
  import opened Idempotency
  import opened DirectIntake
  import opened DirectTaskService
  import opened ClaimLoop
  import opened ClaimStarvation

  /** The store refuses the derived job id of the node as too long. */
  predicate Unclaimable(key: NodeKey) {
    |DeriveJobId(DeriveAttemptId(key.workId, key.nodeId, 1))| > MAX_ID_LENGTH
  }

  // ---- from posts on

  const FRESH := NodeRow(Pending, 1, [])

  /** The node of the task that an accepted post creates. */
  function TaskOf(arrival: Arrival): NodeKey
    requires arrival.request.body.Some? && |arrival.request.body.value.units| == 1
  {
    NodeKey(WorkIdOf(arrival.generatedId), arrival.request.body.value.units[0].id)
  }

  /** The post was answered as a new task. */
  ghost predicate NewTask(service: Service, db: Db, arrival: Arrival) {
    var response := HandlePost(db, service, arrival.request, arrival.generatedId).posted.response;
    response.Accepted? && !response.acceptance.replayed
  }

  lemma ImportedInserts(db: Db, input: DirectTaskInput)
    requires ImportDirectTask(db, input).reply.Imported?
    ensures ImportDirectTask(db, input).db == InsertDirectTask(db, input) && input.work.workId !in db.plan.works
  {
  }

  lemma LoneInsert(db: Db, input: DirectTaskInput)
    requires |input.work.nodes| == 1 && input.work.nodes[0].graph.dependsOn == []
    ensures var db' := InsertDirectTask(db, input);
      var work := input.work;
      && db'.plan.nodes == db.plan.nodes[NodeKey(work.workId, work.nodes[0].graph.id) := FRESH]
      && db'.runs == db.runs && db'.plan.works.Keys == db.plan.works.Keys + {work.workId}
  {
    var work := input.work;
    assert GraphOf(work) == [work.nodes[0].graph];
    LoneFreshRows(work.workId, work.nodes[0].graph);
  }

  /** What the service sends to the store, if it sends anything. */
  lemma PreparedTask(service: Service, arrival: Arrival)
    requires DirectTaskService.Prepared(service, arrival.request, arrival.generatedId).1.Some?
    ensures arrival.request.body.Some? && |arrival.request.body.value.units| == 1
    ensures var work := DirectTaskService.Prepared(service, arrival.request, arrival.generatedId).1.value.work;
      && |work.nodes| == 1 && work.nodes[0].graph.dependsOn == []
      && NodeKey(work.workId, work.nodes[0].graph.id) == TaskOf(arrival)
  {
  }

  /** A post is answered as new only if the import says so. */
  lemma NewTaskImported(service: Service, db: Db, arrival: Arrival)
    requires NewTask(service, db, arrival)
    ensures var input := DirectTaskService.Prepared(service, arrival.request, arrival.generatedId).1;
      && input.Some? && ImportDirectTask(db, input.value).reply.Imported?
      && HandlePost(db, service, arrival.request, arrival.generatedId).db == ImportDirectTask(db, input.value).db
  {
  }

  /** The post inserted this task, under a work that was not there. */
  ghost predicate Inserts(db: Db, db': Db, key: NodeKey) {
    && db'.plan.nodes == db.plan.nodes[key := FRESH] && db'.runs == db.runs
    && key.workId !in db.plan.works && db'.plan.works.Keys == db.plan.works.Keys + {key.workId}
  }

  /** What a post answered as new has written. */
  lemma NewTaskInserted(service: Service, db: Db, arrival: Arrival)
    requires NewTask(service, db, arrival)
    ensures arrival.request.body.Some? && |arrival.request.body.value.units| == 1
    ensures Inserts(db, HandlePost(db, service, arrival.request, arrival.generatedId).db, TaskOf(arrival))
  {
    var input := DirectTaskService.Prepared(service, arrival.request, arrival.generatedId).1;
    NewTaskImported(service, db, arrival);
    PreparedTask(service, arrival);
    ImportedInserts(db, input.value);
    LoneInsert(db, input.value);
  }

  ghost function PostAll(service: Service, arrivals: seq<Arrival>): Db
    decreases |arrivals|
  {
    if |arrivals| == 0 then EmptyDb
    else
      var last := arrivals[|arrivals| - 1];
      HandlePost(PostAll(service, arrivals[..|arrivals| - 1]), service, last.request, last.generatedId).db
  }

  /** Every post of the sequence, from the empty store on, was answered as a new task. */
  ghost predicate AllNew(service: Service, arrivals: seq<Arrival>)
    decreases |arrivals|
  {
    |arrivals| > 0 ==>
      && AllNew(service, arrivals[..|arrivals| - 1])
      && NewTask(service, PostAll(service, arrivals[..|arrivals| - 1]), arrivals[|arrivals| - 1])
  }

  ghost predicate OneUnitEach(arrivals: seq<Arrival>) {
    forall i :: 0 <= i < |arrivals| ==> arrivals[i].request.body.Some? && |arrivals[i].request.body.value.units| == 1
  }

  function TasksOf(arrivals: seq<Arrival>): seq<NodeKey>
    requires OneUnitEach(arrivals)
  {
    seq(|arrivals|, i requires 0 <= i < |arrivals| => TaskOf(arrivals[i]))
  }

  /** All tasks are pending, none has an attempt, and no two share a work. */
  ghost predicate AllPending(db: Db, tasks: seq<NodeKey>) {
    && db.runs == EmptyDb.runs
    && (forall i :: 0 <= i < |tasks| ==>
          tasks[i] in db.plan.nodes && db.plan.nodes[tasks[i]] == FRESH && tasks[i].workId in db.plan.works)
    && (forall i, j :: 0 <= i < j < |tasks| ==> tasks[i].workId != tasks[j].workId)
  }

  lemma OneMorePending(db: Db, db': Db, tasks: seq<NodeKey>, key: NodeKey)
    requires AllPending(db, tasks) && Inserts(db, db', key)
    ensures AllPending(db', tasks + [key])
  {
  }

  lemma TasksOfSnoc(rest: seq<Arrival>, last: Arrival)
    requires OneUnitEach(rest) && last.request.body.Some? && |last.request.body.value.units| == 1
    ensures OneUnitEach(rest + [last]) && TasksOf(rest + [last]) == TasksOf(rest) + [TaskOf(last)]
  {
  }

  lemma {:induction false} PostedTasks(service: Service, arrivals: seq<Arrival>)
    requires AllNew(service, arrivals)
    ensures OneUnitEach(arrivals) && AllPending(PostAll(service, arrivals), TasksOf(arrivals))
    decreases |arrivals|
  {
    if |arrivals| > 0 {
      var rest, last := arrivals[..|arrivals| - 1], arrivals[|arrivals| - 1];
      PostedTasks(service, rest);
      NewTaskInserted(service, PostAll(service, rest), last);
      AllButLast(arrivals);
      TasksOfSnoc(rest, last);
      OneMorePending(PostAll(service, rest), PostAll(service, arrivals), TasksOf(rest), TaskOf(last));
    }
  }

  /**
   One task that cannot be claimed starves all later ones. Post any number of tasks, all of
   them accepted as new; if the first has a derived job id longer than 200, then after any
   history of invocations there is no attempt and no lease, and every later task is still
   pending.
   */
  lemma LaterTasksStarve(service: Service, arrivals: seq<Arrival>, history: seq<CutOff>)
    requires AllNew(service, arrivals) && OneUnitEach(arrivals) && |arrivals| > 0 && Unclaimable(TaskOf(arrivals[0]))
    ensures var db := AfterHistory(PostAll(service, arrivals), TasksOf(arrivals), history);
      && db.runs == EmptyDb.runs
      && forall i :: 0 < i < |arrivals| ==>
        TaskOf(arrivals[i]) in db.plan.nodes && db.plan.nodes[TaskOf(arrivals[i])] == FRESH
  {
    var tasks := TasksOf(arrivals);
    var db := PostAll(service, arrivals);
    var row := Listed(tasks[0], None);
    PostedTasks(service, arrivals);
    assert Shut(db, row, NoAttempt);
    forall order
      ensures First(db, tasks, order, row)
    {
      NoneOf(order, db, tasks[0]);
    }
    ShutForEver(db, tasks, row, NoAttempt, history);
    var db' := AfterHistory(db, tasks, history);
    assert db'.runs.attempts.Keys == {} && db'.runs.leases.Keys == {};
    forall i | 0 < i < |arrivals|
      ensures TaskOf(arrivals[i]) in db'.plan.nodes && db'.plan.nodes[TaskOf(arrivals[i])] == FRESH
    {
      assert tasks[i] == TaskOf(arrivals[i]) && tasks[i] != tasks[0];
    }
  }

  // ---- a concrete task

  /** A request for one unit whose id has the 200 code units that intake and store allow. */
  function LongRequest(): Request {
    Request([0x63], None, Some(Submission([0x6F, SLASH, 0x72], [0x62], SingleUnit, [LongUnit()])), false)
  }

  function LongUnit(): Unit {
    Unit(seq(MAX_ID_LENGTH, _ => 0x61), [0x69], [0x63], [[0x61]], [])
  }

  const SUBMISSION_ID: Str := [0x73]

  /** The service can write the manifest and the acceptance within the limits of the store. */
  predicate Writes(service: Service) {
    && ManifestOf(service, LongUnit()).Some? && IsNonEmptyString(ManifestOf(service, LongUnit()).value, MAX_JSON_LENGTH)
    && IsNonEmptyString(service.serialize(FreshAcceptance(LongRequest(), SUBMISSION_ID)), MAX_JSON_LENGTH)
  }

  lemma LongPosted(service: Service)
    requires Writes(service)
    ensures HandlePost(EmptyDb, service, LongRequest(), SUBMISSION_ID).posted
      == Posted(Accepted(FreshAcceptance(LongRequest(), SUBMISSION_ID)), Some(WorkIdOf(SUBMISSION_ID)))
  {
    NotBlank(LongRequest().callerId);
    NotBlank(SUBMISSION_ID);
    LongImportable(service);
    KeylessFollows(service, EmptyDb, map[], LongRequest(), SUBMISSION_ID);
    KeylessAccepted(map[], map[], None, LongRequest(), SUBMISSION_ID);
  }

  lemma LongImportable(service: Service)
    requires Writes(service)
    ensures Importable(service, LongRequest(), SUBMISSION_ID)
  {
  }

  /** The service accepts the post, and then no invocation ever creates an attempt for it. */
  lemma AcceptedButNeverClaimed(service: Service, history: seq<CutOff>)
    requires Writes(service)
    ensures HandlePost(EmptyDb, service, LongRequest(), SUBMISSION_ID).posted
      == Posted(Accepted(FreshAcceptance(LongRequest(), SUBMISSION_ID)), Some(WorkIdOf(SUBMISSION_ID)))
    ensures var db := HandlePost(EmptyDb, service, LongRequest(), SUBMISSION_ID).db;
      AfterHistory(db, [TaskOf(Arrival(LongRequest(), SUBMISSION_ID))], history).runs == EmptyDb.runs
  {
    var arrival := Arrival(LongRequest(), SUBMISSION_ID);
    LongPosted(service);
    var arrivals := [arrival];
    assert arrivals[..0] == [];
    assert AllNew(service, arrivals[..0]) && PostAll(service, arrivals[..0]) == EmptyDb;
    assert AllNew(service, arrivals);
    assert TasksOf(arrivals) == [TaskOf(arrival)];
    LaterTasksStarve(service, arrivals, history);
  }
}
