/**
 Requests that the durable service and the in-memory boundary answer differently, one for each
 way in which they differ.
 */
module IntakeDifferences {
  import opened Text
  import opened Wrappers
  import opened Idempotency
  import opened DirectIntake
  import opened StoreModel
  import opened DirectTaskService

  const CALLER: Str := [0x63]
  const SUBMISSION_ID: Str := [0x73]

  function LongCaller(): Str {
    seq(MAX_OWNER_LENGTH + 1, _ => 0x61)
  }

  function OneUnit(): Submission {
    Submission([0x6F, SLASH, 0x72], [0x62], SingleUnit, [Unit([0x75], [0x69], [0x63], [[0x61]], [])])
  }

  function Keyless(callerId: Str, body: Submission, hasUnits: bool): Request {
    Request(callerId, None, Some(body), hasUnits)
  }

  /** The in-memory boundary accepts the request as a new submission. */
  ghost predicate AcceptedInMemory(request: Request)
    requires request.body.Some?
  {
    Serve([Arrival(request, SUBMISSION_ID)], None).1 == [Accepted(FreshAcceptance(request, SUBMISSION_ID))]
  }

  /** The durable service, over an empty store, refuses it with this violation. */
  ghost predicate RefusedDurably(service: Service, request: Request, violation: Violation) {
    HandlePost(EmptyDb, service, request, SUBMISSION_ID) == Post(EmptyDb, Posted(Rejected(violation), None))
  }

  lemma InMemoryAccepts(request: Request)
    requires request.key.None? && request.body.Some? && |request.callerId| > 0 && !IsSpace(request.callerId[0])
    ensures AcceptedInMemory(request)
    ensures Accept(map[], None, request, SUBMISSION_ID).response == Accepted(FreshAcceptance(request, SUBMISSION_ID))
  {
    NotBlank(request.callerId);
    NotBlank(SUBMISSION_ID);
    KeylessAccepted(map[], map[], None, request, SUBMISSION_ID);
    var arrivals := [Arrival(request, SUBMISSION_ID)];
    assert arrivals[..0] == [];
  }

  /** A flat graph of units: the durable service wants one unit. */
  lemma UnitsBodyDiffers(service: Service, units: seq<Unit>)
    ensures var request := Keyless(CALLER, Submission([0x6F, SLASH, 0x72], [0x62], HandAuthoredDag, units), true);
      AcceptedInMemory(request) && RefusedDurably(service, request, AMBIGUOUS_SUBMISSION_SHAPE)
  {
    InMemoryAccepts(Keyless(CALLER, Submission([0x6F, SLASH, 0x72], [0x62], HandAuthoredDag, units), true));
  }

  /** A caller id of 201 code units: the store takes 200. */
  lemma LongCallerDiffers(service: Service)
    requires ManifestOf(service, OneUnit().units[0]).Some?
    ensures var request := Keyless(LongCaller(), OneUnit(), false);
      AcceptedInMemory(request) && RefusedDurably(service, request, MALFORMED_BODY)
  {
    var request := Keyless(LongCaller(), OneUnit(), false);
    InMemoryAccepts(request);
    var (_, prepared) := Prepared(service, request, SUBMISSION_ID);
    ChecksAreLimits(prepared.value);
    RefusedImport(service, EmptyDb, FreshAcceptance(request, SUBMISSION_ID), prepared.value);
  }

  /** A criterion of 1025 code units: intake takes 4000, the manifest 1024. */
  function LongCriterion(): Submission {
    Submission([0x6F, SLASH, 0x72], [0x62], SingleUnit,
      [Unit([0x75], [0x69], [0x63], [seq(MAX_MANIFEST_CRITERION + 1, _ => 0x61)], [])])
  }

  lemma UnparsedManifestDiffers(service: Service)
    ensures var request := Keyless(CALLER, LongCriterion(), false);
      AcceptedInMemory(request) && RefusedDurably(service, request, INVALID_FIELD_FORMAT)
  {
    InMemoryAccepts(Keyless(CALLER, LongCriterion(), false));
    var unit := LongCriterion().units[0];
    assert unit.criteria[0] in unit.criteria && |unit.criteria[0]| == MAX_MANIFEST_CRITERION + 1;
    assert !FitsManifest(unit);
  }

  /** A blank caller with a malformed key: the two check in different order. */
  lemma CheckOrderDiffers(service: Service, body: Option<Submission>)
    ensures var request := Request([], Some([]), body, false);
      && Accept(map[], None, request, SUBMISSION_ID).response == Rejected(UNAUTHENTICATED)
      && RefusedDurably(service, request, INVALID_IDEMPOTENCY_KEY)
  {
  }

  /** A blank id drawn for a replay: the in-memory boundary draws none. */
  lemma BlankReplayDiffers(service: Service, db: Db, records: Records, book: Book, request: Request)
    requires Holds(records, book) && Keyed(request) && !request.hasUnits
    requires NameOf(request) in book && book[NameOf(request)].submission == request.body.value
    ensures Accept(records, None, request, []).response == Accepted(book[NameOf(request)].(replayed := true))
    ensures HandlePost(db, service, request, []) == Post(db, Posted(BlankSubmissionId, None))
  {
    BoundFollowsProtocol(records, book, None, request, []);
    assert Accept(map[], None, request, []).response == BlankSubmissionId;
  }
}
