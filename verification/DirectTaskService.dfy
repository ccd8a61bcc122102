/**
 The durable form of direct intake: `handlePost` of src/composition/direct-task-service.ts over
 the store's direct-task import. It follows the same protocol as the in-memory boundary.
 */
module DirectTaskService {
  import opened Text
  import opened Wrappers
  import opened Idempotency
  import opened DirectIntake
  import opened StoreModel
  import opened StoreInvariants
  import OrchestrationStore
  import Graph

  /**
   What the service is composed with: how acceptances are written as text and read back, the
   manifest text of a unit within the limits below (none if the settings do not make a manifest
   of it, or it holds what looks like a credential), and the task name.
   */
  datatype Service = Service(
    serialize: Acceptance -> Str, parse: Str -> Acceptance, manifest: Unit -> Option<Str>, repo: Str)

  const MAX_MANIFEST_INTENT := 2048
  const MAX_MANIFEST_CHANGE_SPEC := 8192
  const MAX_MANIFEST_CRITERIA := 8
  const MAX_MANIFEST_CRITERION := 1024

  /** The limits of `parseTaskManifest` on what a unit contributes; intake allows more. */
  predicate FitsManifest(unit: Unit) {
    && IsNonEmptyString(unit.intent, MAX_MANIFEST_INTENT) && IsNonEmptyString(unit.changeSpec, MAX_MANIFEST_CHANGE_SPEC)
    && 1 <= |unit.criteria| <= MAX_MANIFEST_CRITERIA
    && forall c :: c in unit.criteria ==> IsNonEmptyString(c, MAX_MANIFEST_CRITERION)
  }

  /** The combined manifest of the settings and the unit. */
  function ManifestOf(service: Service, unit: Unit): Option<Str> {
    if FitsManifest(unit) then service.manifest(unit) else None
  }

  /** Reading back what was written gives the acceptance again. */
  ghost predicate RoundTrips(service: Service) {
    forall a :: service.parse(service.serialize(a)) == a
  }

  /** `work://` */
  const WORK_SCHEME: Str := [0x77, 0x6F, 0x72, 0x6B, 0x3A, 0x2F, 0x2F]

  function WorkIdOf(submissionId: Str): Str {
    WORK_SCHEME + submissionId
  }

  datatype Posted = Posted(response: Response, workId: Option<Str>)

  predicate SingleTask(s: Submission) {
    s.shape.SingleUnit? && |s.units| == 1
  }

  function InputOf(service: Service, a: Acceptance, manifest: Str): DirectTaskInput
    requires |a.submission.units| == 1
  {
    var unit := a.submission.units[0];
    DirectTaskInput(
      a.callerId,
      if a.key.Some? then Some(ScopeKey(a.callerId, ROUTE, a.key.value)) else None,
      a.payloadHash, a.submissionId, service.serialize(a), manifest,
      ApprovedWork(WorkIdOf(a.submissionId), DirectTask, service.repo + manifest,
                   [ApprovedNode(unit.intent + unit.changeSpec, Graph.Node(unit.id, []))]))
  }

  function PostedReply(service: Service, a: Acceptance, reply: Reply): Posted {
    match reply
    case Imported(workId, _) => Posted(Accepted(a), Some(workId))
    case Replayed(workId, _, text) => Posted(Accepted(service.parse(text).(replayed := true)), Some(workId))
    case Error(code) =>
      var mismatch := code.IDEMPOTENCY_KEY_PAYLOAD_MISMATCH?;
      Posted(Rejected(if mismatch then DirectIntake.IDEMPOTENCY_KEY_PAYLOAD_MISMATCH else MALFORMED_BODY), None)
    case _ => Posted(Rejected(MALFORMED_BODY), None)
  }

  /** The request judged with a store that remembers nothing. */
  function Judged(request: Request, generatedId: Str): Response {
    if request.key.Some? && !IsValidIdempotencyKey(request.key.value) then Rejected(INVALID_IDEMPOTENCY_KEY)
    else Accept(map[], None, request, generatedId).response
  }

  /** What the service asks of the store: nothing if it refuses the request itself. */
  function Prepared(service: Service, request: Request, generatedId: Str): (r: (Posted, Option<DirectTaskInput>))
    ensures r.1.Some? ==> r.0.response.Accepted?
  {
    var judged := Judged(request, generatedId);
    if request.hasUnits then (Posted(Rejected(AMBIGUOUS_SUBMISSION_SHAPE), None), None)
    else if !judged.Accepted? then (Posted(judged, None), None)
    else
      var a := judged.acceptance;
      if !SingleTask(a.submission) then (Posted(Rejected(AMBIGUOUS_SUBMISSION_SHAPE), None), None)
      else
        match ManifestOf(service, a.submission.units[0])
        case None => (Posted(Rejected(INVALID_FIELD_FORMAT), None), None)
        case Some(manifest) => (Posted(judged, None), Some(InputOf(service, a, manifest)))
  }

  datatype Post = Post(db: Db, posted: Posted)

  ghost function HandlePost(db: Db, service: Service, request: Request, generatedId: Str): Post {
    var (judged, input) := Prepared(service, request, generatedId);
    if input.None? then Post(db, judged)
    else
      var step := ImportDirectTask(db, input.value);
      Post(step.db, PostedReply(service, judged.response.acceptance, step.reply))
  }

  method PostTask(store: OrchestrationStore.OrchestrationStore, service: Service, request: Request, generatedId: Str)
    returns (posted: Posted)
    modifies store
    ensures store.View() == HandlePost(old(store.View()), service, request, generatedId).db
    ensures posted == HandlePost(old(store.View()), service, request, generatedId).posted
  {
    var (judged, input) := Prepared(service, request, generatedId);
    if input.None? {
      return judged;
    }
    var reply := store.ImportDirectTask(input.value);
    posted := PostedReply(service, judged.response.acceptance, reply);
  }

  // ---- the length limits of the store

  /** The limits that the store puts on a task beyond what intake validation demands. */
  predicate WithinLimits(input: DirectTaskInput) {
    && IsNonEmptyString(input.work.workId, MAX_ID_LENGTH)
    && (forall i :: 0 <= i < |input.work.nodes| ==> IsNonEmptyString(input.work.nodes[i].graph.id, MAX_ID_LENGTH))
    && IsNonEmptyString(input.callerId, MAX_OWNER_LENGTH)
    && IsNonEmptyString(input.submissionId, MAX_ID_LENGTH)
    && IsNonEmptyString(input.acceptance, MAX_JSON_LENGTH)
    && IsNonEmptyString(input.manifest, MAX_JSON_LENGTH)
    && (input.scopeKey.Some? ==> IsNonEmptyString(input.scopeKey.value, MAX_SCOPE_KEY_LENGTH))
  }

  /** The store's checks on a direct task of one node without edges come down to the length limits. */
  lemma ChecksAreLimits(input: DirectTaskInput)
    requires input.work.origin.DirectTask? && |input.work.nodes| == 1 && input.work.nodes[0].graph.dependsOn == []
    ensures CheckDirectTask(input).None? <==> WithinLimits(input)
  {
    LoneWorkChecks(input.work);
  }

  /** The service passes the request on, within the limits of the store. */
  predicate Importable(service: Service, request: Request, generatedId: Str)
    requires request.body.Some?
  {
    && !request.hasUnits && SingleTask(request.body.value)
    && ManifestOf(service, request.body.value.units[0]).Some?
    && WithinLimits(
         InputOf(service, FreshAcceptance(request, generatedId),
           ManifestOf(service, request.body.value.units[0]).value))
  }

  // ---- following the protocol

  /** The intake tables hold the acceptances of the book. */
  ghost predicate Recorded(service: Service, intake: IntakeTables, book: Book) {
    && (forall name :: ScopeOf(name) in intake.idempotency <==> name in book)
    && (forall name :: name in book ==> RecordedRow(service, intake, name, book[name]))
  }

  ghost predicate RecordedRow(service: Service, intake: IntakeTables, name: Name, a: Acceptance) {
    && ScopeOf(name) in intake.idempotency
    && intake.idempotency[ScopeOf(name)] == IdempotencyRow(name.callerId, PayloadHash(a.submission), a.submissionId)
    && a.submissionId in intake.submissions
    && intake.submissions[a.submissionId].acceptance == service.serialize(a)
    && intake.submissions[a.submissionId].workId == WorkIdOf(a.submissionId)
  }

  /** The id was not used before, neither for a submission nor in the name of a work. */
  predicate FreshId(db: Db, id: Str) {
    id !in db.intake.submissions && WorkIdOf(id) !in db.plan.works
  }

  /** The stored caller of a scope key is always the caller asking: the mismatch branch is never taken. */
  lemma CallerNeverMismatches(service: Service, db: Db, book: Book, request: Request)
    requires Recorded(service, db.intake, book) && request.key.Some?
    requires Bound(db, ScopeKey(request.callerId, ROUTE, request.key.value))
    ensures db.intake.idempotency[ScopeKey(request.callerId, ROUTE, request.key.value)].callerId == request.callerId
  {
    assert ScopeOf(NameOf(request)) in db.intake.idempotency;
    assert NameOf(request) in book;
  }

  /** The rows of other names do not change when a submission and a key are added. */
  lemma RowsKept(service: Service, intake: IntakeTables, intake': IntakeTables, name: Name, a: Acceptance)
    requires RecordedRow(service, intake, name, a)
    requires forall id :: id in intake.submissions ==>
      id in intake'.submissions && intake'.submissions[id] == intake.submissions[id]
    requires ScopeOf(name) in intake'.idempotency
    requires intake'.idempotency[ScopeOf(name)] == intake.idempotency[ScopeOf(name)]
    ensures RecordedRow(service, intake', name, a)
  {
  }

  function NewRow(a: Acceptance): IdempotencyRow {
    IdempotencyRow(a.callerId, a.payloadHash, a.submissionId)
  }

  lemma KeysAfterBinding(idempotency: map<Str, IdempotencyRow>, book: Book, name: Name, a: Acceptance)
    requires forall n :: ScopeOf(n) in idempotency <==> n in book
    ensures forall n :: ScopeOf(n) in idempotency[ScopeOf(name) := NewRow(a)] <==> n in book[name := a]
  {
    forall n | ScopeOf(n) == ScopeOf(name)
      ensures n == name
    {
      ScopeOfInjective(n, name);
    }
  }

  lemma OtherRowsKept(
    service: Service, intake: IntakeTables, book: Book, name: Name, a: Acceptance, row: SubmissionRow, other: Name)
    requires Recorded(service, intake, book) && other in book && other != name && a.submissionId !in intake.submissions
    ensures RecordedRow(
      service,
      IntakeTables(intake.submissions[a.submissionId := row], intake.idempotency[ScopeOf(name) := NewRow(a)]),
      other, book[other])
  {
    var intake' := IntakeTables(intake.submissions[a.submissionId := row],
      intake.idempotency[ScopeOf(name) := NewRow(a)]);
    assert ScopeOf(other) != ScopeOf(name) by {
      if ScopeOf(other) == ScopeOf(name) {
        ScopeOfInjective(other, name);
      }
    }
    RowsKept(service, intake, intake', other, book[other]);
  }

  lemma RecordedAfterBinding(
    service: Service, intake: IntakeTables, book: Book, name: Name, a: Acceptance, row: SubmissionRow)
    requires Recorded(service, intake, book) && name !in book
    requires a.callerId == name.callerId && a.payloadHash == PayloadHash(a.submission)
    requires row.acceptance == service.serialize(a) && row.workId == WorkIdOf(a.submissionId)
    requires a.submissionId !in intake.submissions
    ensures Recorded(
      service,
      IntakeTables(intake.submissions[a.submissionId := row], intake.idempotency[ScopeOf(name) := NewRow(a)]),
      book[name := a])
  {
    var intake' := IntakeTables(intake.submissions[a.submissionId := row],
      intake.idempotency[ScopeOf(name) := NewRow(a)]);
    KeysAfterBinding(intake.idempotency, book, name, a);
    var book' := book[name := a];
    forall other | other in book'
      ensures RecordedRow(service, intake', other, book'[other])
    {
      if other != name {
        OtherRowsKept(service, intake, book, name, a, row, other);
      }
    }
  }

  lemma RecordedWithoutKey(service: Service, intake: IntakeTables, book: Book, id: Str, row: SubmissionRow)
    requires Recorded(service, intake, book) && id !in intake.submissions
    ensures Recorded(service, IntakeTables(intake.submissions[id := row], intake.idempotency), book)
  {
    var intake' := IntakeTables(intake.submissions[id := row], intake.idempotency);
    forall other | other in book
      ensures RecordedRow(service, intake', other, book[other])
    {
      RowsKept(service, intake, intake', other, book[other]);
    }
  }

  /**
   The service answers as the protocol, records what the protocol records, and names the work after the
   submission.
   */
  ghost predicate Follows(service: Service, db: Db, book: Book, request: Request, id: Str) {
    var post, decision := HandlePost(db, service, request, id), Decide(book, None, request, id);
    && post.posted.response == decision.response
    && Recorded(service, post.db.intake, decision.book)
    && (post.posted.response.Accepted? ==>
          post.posted.workId == Some(WorkIdOf(post.posted.response.acceptance.submissionId)))
  }

  function PreparedInput(service: Service, request: Request, id: Str): DirectTaskInput
    requires request.body.Some? && Importable(service, request, id)
  {
    InputOf(service, FreshAcceptance(request, id), ManifestOf(service, request.body.value.units[0]).value)
  }

  function RowOf(input: DirectTaskInput): SubmissionRow {
    SubmissionRow(input.callerId, input.work.workId, input.payloadHash, input.acceptance, input.manifest)
  }

  lemma PassedOn(service: Service, db: Db, request: Request, id: Str)
    requires DirectIntake.WellFormed(request) && !Blank(id) && Importable(service, request, id)
    ensures var step := ImportDirectTask(db, PreparedInput(service, request, id));
      HandlePost(db, service, request, id)
        == Post(step.db, PostedReply(service, FreshAcceptance(request, id), step.reply))
    ensures CheckDirectTask(PreparedInput(service, request, id)).None?
  {
    var a := FreshAcceptance(request, id);
    assert Judged(request, id) == Accepted(a);
    ChecksAreLimits(PreparedInput(service, request, id));
  }

  lemma ReplayFollows(service: Service, db: Db, book: Book, request: Request, id: Str)
    requires RoundTrips(service) && Recorded(service, db.intake, book)
    requires Keyed(request) && !Blank(id) && Importable(service, request, id) && NameOf(request) in book
    ensures Follows(service, db, book, request, id)
  {
    var name := NameOf(request);
    PassedOn(service, db, request, id);
    assert PreparedInput(service, request, id).scopeKey == Some(ScopeOf(name));
    assert RecordedRow(service, db.intake, name, book[name]);
    PayloadHashIdentifies(book[name].submission, request.body.value);
  }

  lemma FreshImport(db: Db, input: DirectTaskInput)
    requires CheckDirectTask(input).None?
    requires input.work.workId !in db.plan.works && input.submissionId !in db.intake.submissions
    requires input.scopeKey.Some? ==> input.scopeKey.value !in db.intake.idempotency
    ensures ImportDirectTask(db, input).reply == Imported(input.work.workId, input.submissionId)
    ensures ImportDirectTask(db, input).db.intake.submissions
      == db.intake.submissions[input.submissionId := RowOf(input)]
    ensures ImportDirectTask(db, input).db.intake.idempotency ==
      if input.scopeKey.Some?
      then db.intake.idempotency[input.scopeKey.value :=
        IdempotencyRow(input.callerId, input.payloadHash, input.submissionId)]
      else db.intake.idempotency
  {
  }

  lemma BindingFollows(service: Service, db: Db, book: Book, request: Request, id: Str)
    requires Recorded(service, db.intake, book) && FreshId(db, id)
    requires Keyed(request) && !Blank(id) && Importable(service, request, id) && NameOf(request) !in book
    ensures Follows(service, db, book, request, id)
  {
    var name, input := NameOf(request), PreparedInput(service, request, id);
    PassedOn(service, db, request, id);
    assert input.scopeKey == Some(ScopeOf(name)) && ScopeOf(name) !in db.intake.idempotency;
    FreshImport(db, input);
    RecordedAfterBinding(service, db.intake, book, name, FreshAcceptance(request, id), RowOf(input));
  }

  lemma KeylessFollows(service: Service, db: Db, book: Book, request: Request, id: Str)
    requires Recorded(service, db.intake, book) && FreshId(db, id)
    requires DirectIntake.WellFormed(request) && request.key.None? && !Blank(id) && Importable(service, request, id)
    ensures Follows(service, db, book, request, id)
  {
    PassedOn(service, db, request, id);
    FreshImport(db, PreparedInput(service, request, id));
    RecordedWithoutKey(service, db.intake, book, id, RowOf(PreparedInput(service, request, id)));
  }

  /** The import of a request the service passes on decides as the protocol does. */
  lemma ImportFollowsProtocol(service: Service, db: Db, book: Book, request: Request, id: Str)
    requires RoundTrips(service) && Recorded(service, db.intake, book) && FreshId(db, id)
    requires DirectIntake.WellFormed(request) && !Blank(id) && Importable(service, request, id)
    ensures Follows(service, db, book, request, id)
  {
    if request.key.None? {
      KeylessFollows(service, db, book, request, id);
    } else if NameOf(request) in book {
      ReplayFollows(service, db, book, request, id);
    } else {
      BindingFollows(service, db, book, request, id);
    }
  }

  /** When the durable service answers as the protocol does. */
  predicate Agrees(service: Service, book: Book, request: Request, id: Str) {
    if request.hasUnits then false
    else if Blank(request.callerId) then request.key.Some? ==> IsValidIdempotencyKey(request.key.value)
    else if !DirectIntake.WellFormed(request) then true
    else if Blank(id) then !(request.key.Some? && NameOf(request) in book)
    else Importable(service, request, id)
  }

  /** An input that fails the store's checks is refused as malformed and leaves the database alone. */
  lemma RefusedImport(service: Service, db: Db, a: Acceptance, input: DirectTaskInput)
    requires CheckDirectTask(input).Some?
    ensures var step := ImportDirectTask(db, input);
      step.db == db && PostedReply(service, a, step.reply) == Posted(Rejected(MALFORMED_BODY), None)
  {
    ImportCheckCode(input);
  }

  /** A request that is not importable is refused and leaves the database alone. */
  lemma RefusedUnimportable(service: Service, db: Db, request: Request, id: Str)
    requires DirectIntake.WellFormed(request) && !Blank(id) && !Importable(service, request, id)
    ensures HandlePost(db, service, request, id).db == db
    ensures HandlePost(db, service, request, id).posted.response.Rejected?
    ensures HandlePost(db, service, request, id).posted.response.violation
      != DirectIntake.IDEMPOTENCY_KEY_PAYLOAD_MISMATCH
  {
    var a := FreshAcceptance(request, id);
    assert Judged(request, id) == Accepted(a);
    var (_, prepared) := Prepared(service, request, id);
    if prepared.Some? {
      ChecksAreLimits(prepared.value);
      RefusedImport(service, db, a, prepared.value);
    }
  }

  lemma {:induction false} NodeCheckCode(g: seq<Graph.Node>, seen: set<Str>)
    ensures CheckNodes(g, seen) != Some(ErrorCode.IDEMPOTENCY_KEY_PAYLOAD_MISMATCH)
    decreases |g|
  {
    if |g| > 0 {
      NodeCheckCode(g[1..], seen + {g[0].id});
    }
  }

  lemma ImportCheckCode(input: DirectTaskInput)
    ensures CheckDirectTask(input) != Some(ErrorCode.IDEMPOTENCY_KEY_PAYLOAD_MISMATCH)
  {
    NodeCheckCode(GraphOf(input.work), {});
  }

  /**
   The durable service answers one request exactly as the protocol without a record limit does
   if and only if the request meets `Agrees`, which a caller can tell beforehand. If it does
   not, the service refuses it and writes nothing.
   */
  lemma PostFollowsProtocol(service: Service, db: Db, book: Book, request: Request, id: Str)
    requires RoundTrips(service) && Recorded(service, db.intake, book) && FreshId(db, id)
    ensures var post, decision := HandlePost(db, service, request, id), Decide(book, None, request, id);
      && (post.posted.response == decision.response <==> Agrees(service, book, request, id))
      && (Agrees(service, book, request, id) ==> Recorded(service, post.db.intake, decision.book))
      && (!Agrees(service, book, request, id) ==> post.db == db)
  {
    if DirectIntake.WellFormed(request) && !Blank(id) {
      if Importable(service, request, id) {
        ImportFollowsProtocol(service, db, book, request, id);
      } else {
        RefusedUnimportable(service, db, request, id);
      }
    }
  }

  // ---- any run of posts and other store calls

  datatype Event = Posting(arrival: Arrival) | Other(call: Call)

  /** An authenticated request for one unit with a usable id and, if well-formed, within the limits of the store. */
  predicate Servable(service: Service, arrival: Arrival) {
    && !arrival.request.hasUnits && !Blank(arrival.request.callerId) && !Blank(arrival.generatedId)
    && (DirectIntake.WellFormed(arrival.request) ==> Importable(service, arrival.request, arrival.generatedId))
  }

  /** The posts that the service can serve, in order. */
  function ServableArrivals(service: Service, events: seq<Event>): seq<Arrival> {
    if |events| == 0 then []
    else
      NextArrivals(service, ServableArrivals(service, events[..|events| - 1]), events[|events| - 1])
  }

  function NextArrivals(service: Service, arrivals: seq<Arrival>, event: Event): seq<Arrival> {
    match event
    case Posting(arrival) => if Servable(service, arrival) then arrivals + [arrival] else arrivals
    case Other(_) => arrivals
  }

  /** The database after the events, and the responses to the posts that the service can serve. */
  datatype Lived = Lived(db: Db, served: seq<Response>)

  ghost function Live(service: Service, events: seq<Event>): Lived {
    if |events| == 0 then Lived(EmptyDb, [])
    else NextLived(service, Live(service, events[..|events| - 1]), events[|events| - 1])
  }

  ghost function NextLived(service: Service, before: Lived, event: Event): Lived {
    match event
    case Posting(arrival) =>
      var post := HandlePost(before.db, service, arrival.request, arrival.generatedId);
      Lived(post.db, if Servable(service, arrival) then before.served + [post.posted.response] else before.served)
    case Other(call) => Lived(Apply(before.db, call).db, before.served)
  }

  /** The responses given and the tables written are those of the in-memory boundary on these arrivals. */
  ghost predicate ServedAlike(service: Service, lived: Lived, arrivals: seq<Arrival>) {
    && lived.served == Serve(arrivals, None).1
    && Recorded(service, lived.db.intake, Play(arrivals, None).books[|arrivals|])
  }

  /** Servable posts come with fresh ids, and nothing but posts imports direct tasks. */
  ghost predicate Proper(service: Service, events: seq<Event>) {
    forall i :: 0 <= i < |events| ==> ProperEvent(service, Live(service, events[..i]).db, events[i])
  }

  ghost predicate ProperEvent(service: Service, db: Db, event: Event) {
    match event
    case Posting(arrival) => Servable(service, arrival) ==> FreshId(db, arrival.generatedId)
    case Other(call) => !call.ImportDirectTaskCall?
  }

  lemma OtherCallsKeepIntake(db: Db, call: Call)
    requires !call.ImportDirectTaskCall?
    ensures Apply(db, call).db.intake == db.intake
  {
  }

  /** A post that the service cannot serve is not accepted and writes nothing, whatever its id. */
  lemma UnservableWritesNothing(service: Service, db: Db, arrival: Arrival)
    requires !Servable(service, arrival)
    ensures var post := HandlePost(db, service, arrival.request, arrival.generatedId);
      post.db == db && !post.posted.response.Accepted?
  {
    if DirectIntake.WellFormed(arrival.request) && !Blank(arrival.generatedId) {
      RefusedUnimportable(service, db, arrival.request, arrival.generatedId);
    }
  }

  /**
   Over any run of any posts interleaved with any other store calls, the durable service gives
   to the posts it can serve the responses that the unbounded in-memory boundary gives to them,
   and its tables record what that boundary records. The other posts leave no trace.
   */
  lemma {:induction false} DurableServesAsInMemory(service: Service, events: seq<Event>)
    requires RoundTrips(service) && Proper(service, events)
    ensures ServedAlike(service, Live(service, events), ServableArrivals(service, events))
    decreases |events|
  {
    if |events| > 0 {
      var n := |events| - 1;
      var rest := events[..n];
      ProperPrefix(service, events);
      DurableServesAsInMemory(service, rest);
      assert ProperEvent(service, Live(service, events[..n]).db, events[n]);
      NextServed(service, Live(service, rest), ServableArrivals(service, rest), events[n]);
    }
  }

  /** One more event, of whichever kind, after what has been served so far. */
  lemma NextServed(service: Service, before: Lived, arrivals: seq<Arrival>, event: Event)
    requires RoundTrips(service) && ServedAlike(service, before, arrivals) && ProperEvent(service, before.db, event)
    ensures ServedAlike(service, NextLived(service, before, event), NextArrivals(service, arrivals, event))
  {
    match event
    case Posting(arrival) =>
      if Servable(service, arrival) {
        ServedPost(service, before, arrivals, arrival);
      } else {
        UnservableWritesNothing(service, before.db, arrival);
      }
    case Other(call) =>
      OtherCallsKeepIntake(before.db, call);
  }

  lemma ProperPrefix(service: Service, events: seq<Event>)
    requires |events| > 0 && Proper(service, events)
    ensures Proper(service, events[..|events| - 1])
  {
    var rest := events[..|events| - 1];
    forall i | 0 <= i < |rest|
      ensures ProperEvent(service, Live(service, rest[..i]).db, rest[i])
    {
      assert rest[..i] == events[..i] && rest[i] == events[i];
    }
  }

  lemma ServableFollows(service: Service, db: Db, book: Book, arrival: Arrival)
    requires RoundTrips(service) && Recorded(service, db.intake, book)
    requires Servable(service, arrival) && FreshId(db, arrival.generatedId)
    ensures var post := HandlePost(db, service, arrival.request, arrival.generatedId);
      var decision := Decide(book, None, arrival.request, arrival.generatedId);
      post.posted.response == decision.response && Recorded(service, post.db.intake, decision.book)
  {
    PostFollowsProtocol(service, db, book, arrival.request, arrival.generatedId);
  }

  /** One servable post after what has been served so far. */
  lemma ServedPost(service: Service, before: Lived, arrivals: seq<Arrival>, arrival: Arrival)
    requires RoundTrips(service) && Servable(service, arrival) && FreshId(before.db, arrival.generatedId)
    requires before.served == Serve(arrivals, None).1
    requires Recorded(service, before.db.intake, Play(arrivals, None).books[|arrivals|])
    ensures var post := HandlePost(before.db, service, arrival.request, arrival.generatedId);
      && before.served + [post.posted.response] == Serve(arrivals + [arrival], None).1
      && Recorded(service, post.db.intake, Play(arrivals + [arrival], None).books[|arrivals| + 1])
  {
    ServeFollowsProtocol(arrivals, None);
    ServeFollowsProtocol(arrivals + [arrival], None);
    PlaySnoc(arrivals, arrival, None);
    ServableFollows(service, before.db, Play(arrivals, None).books[|arrivals|], arrival);
  }
}
