/**
 The direct-task boundary (src/domains/work-intake/direct-intake.ts) over the in-memory
 idempotency store, and the protocol it implements over any sequence of requests.
 */
module DirectIntake {
  import opened Text
  import opened Wrappers
  import opened Idempotency

  const MAX_IDEMPOTENCY_KEY_LENGTH := 255
  /** `POST /tasks` */
  const ROUTE: Str := [0x50, 0x4F, 0x53, 0x54, 0x20, 0x2F, 0x74, 0x61, 0x73, 0x6B, 0x73]

  predicate IsValidIdempotencyKey(key: Str) {
    0 < |key| <= MAX_IDEMPOTENCY_KEY_LENGTH && forall i :: 0 <= i < |key| ==> 0x21 <= key[i] <= 0x7E
  }

  /** The code units that JavaScript's `trim` removes. */
  predicate IsSpace(c: CodeUnit) {
    || 0x09 <= c <= 0x0D || c == 0x20 || c == 0xA0 || c == 0x1680 || 0x2000 <= c <= 0x200A
    || c == 0x2028 || c == 0x2029 || c == 0x202F || c == 0x205F || c == 0x3000 || c == 0xFEFF
  }

  /** `s.trim().length === 0` */
  predicate Blank(s: Str) {
    forall i :: 0 <= i < |s| ==> IsSpace(s[i])
  }

  /**
   `body` is what validation makes of the request body: nothing if it finds violations.
   `hasUnits` tells whether the raw body is an object with a `units` property.
   */
  datatype Request = Request(callerId: Str, key: Option<Str>, body: Option<Submission>, hasUnits: bool)

  /** An accepted submission; every accepted unit carries the caller, submission id and key as provenance. */
  datatype Acceptance = Acceptance(
    submissionId: Str, callerId: Str, key: Option<Str>, submission: Submission, payloadHash: Digest<Str>,
    replayed: bool)

  datatype Violation =
    | UNAUTHENTICATED | INVALID_IDEMPOTENCY_KEY | INVALID_BODY | IDEMPOTENCY_KEY_PAYLOAD_MISMATCH
    | AMBIGUOUS_SUBMISSION_SHAPE | INVALID_FIELD_FORMAT | MALFORMED_BODY

  datatype Response =
    | Accepted(acceptance: Acceptance)
    | Rejected(violation: Violation)
    | BlankSubmissionId
    | CapacityExceeded

  function FreshAcceptance(request: Request, submissionId: Str): Acceptance
    requires request.body.Some?
  {
    Acceptance(submissionId, request.callerId, request.key, request.body.value, PayloadHash(request.body.value), false)
  }

  // ---- the in-memory store

  datatype Record = Record(payloadHash: Digest<Str>, result: Acceptance)

  type Records = map<Str, Record>

  predicate Full(size: nat, limit: Option<nat>) {
    limit.Some? && size >= limit.value
  }

  class InMemoryIdempotencyStore {
    var records: Records
    /** No limit stands for an infinite one. */
    const limit: Option<nat>

    constructor (limit: Option<nat>)
      ensures records == map[] && this.limit == limit
    {
      records := map[];
      this.limit := limit;
    }

    method Get(scopeKey: Str) returns (record: Option<Record>)
      ensures record == if scopeKey in records then Some(records[scopeKey]) else None
    {
      if scopeKey in records {
        return Some(records[scopeKey]);
      }
      return None;
    }

    method Put(scopeKey: Str, record: Record) returns (ok: bool)
      modifies this
      ensures ok <==> old(scopeKey in records || !Full(|records|, limit))
      ensures records == if ok then old(records)[scopeKey := record] else old(records)
    {
      ok := scopeKey in records || !Full(|records|, limit);
      if ok {
        records := records[scopeKey := record];
      }
    }
  }

  method AcceptDirectTasks(store: InMemoryIdempotencyStore, request: Request, generatedId: Str)
    returns (response: Response)
    modifies store
    ensures store.records == Accept(old(store.records), store.limit, request, generatedId).records
    ensures response == Accept(old(store.records), store.limit, request, generatedId).response
  {
    if Blank(request.callerId) {
      return Rejected(UNAUTHENTICATED);
    }
    if request.key.Some? && !IsValidIdempotencyKey(request.key.value) {
      return Rejected(INVALID_IDEMPOTENCY_KEY);
    }
    if request.body.None? {
      return Rejected(INVALID_BODY);
    }
    var payloadHash := PayloadHash(request.body.value);
    if request.key.Some? {
      var existing := store.Get(ScopeKey(request.callerId, ROUTE, request.key.value));
      if existing.Some? {
        if existing.value.payloadHash != payloadHash {
          return Rejected(IDEMPOTENCY_KEY_PAYLOAD_MISMATCH);
        }
        return Accepted(existing.value.result.(replayed := true));
      }
    }
    if Blank(generatedId) {
      return BlankSubmissionId;
    }
    var acceptance := Acceptance(generatedId, request.callerId, request.key, request.body.value, payloadHash, false);
    if request.key.Some? {
      var ok := store.Put(ScopeKey(request.callerId, ROUTE, request.key.value), Record(payloadHash, acceptance));
      if !ok {
        return CapacityExceeded;
      }
    }
    return Accepted(acceptance);
  }

  datatype Intake = Intake(records: Records, response: Response)

  /** What the boundary does to the records of its store. */
  function Accept(records: Records, limit: Option<nat>, request: Request, generatedId: Str): Intake {
    if Blank(request.callerId) then Intake(records, Rejected(UNAUTHENTICATED))
    else if request.key.Some? && !IsValidIdempotencyKey(request.key.value) then
      Intake(records, Rejected(INVALID_IDEMPOTENCY_KEY))
    else if request.body.None? then Intake(records, Rejected(INVALID_BODY))
    else AcceptValid(records, limit, request, generatedId)
  }

  function AcceptValid(records: Records, limit: Option<nat>, request: Request, generatedId: Str): Intake
    requires request.body.Some?
  {
    var hash := PayloadHash(request.body.value);
    if request.key.None? then
      if Blank(generatedId) then Intake(records, BlankSubmissionId)
      else Intake(records, Accepted(FreshAcceptance(request, generatedId)))
    else
      var scope := ScopeKey(request.callerId, ROUTE, request.key.value);
      if scope in records then
        if records[scope].payloadHash != hash then Intake(records, Rejected(IDEMPOTENCY_KEY_PAYLOAD_MISMATCH))
        else Intake(records, Accepted(records[scope].result.(replayed := true)))
      else if Blank(generatedId) then Intake(records, BlankSubmissionId)
      else if Full(|records|, limit) then Intake(records, CapacityExceeded)
      else
        var acceptance := FreshAcceptance(request, generatedId);
        Intake(records[scope := Record(hash, acceptance)], Accepted(acceptance))
  }

  // ---- the protocol, without hashes and storage keys

  /** A key as its caller knows it. */
  datatype Name = Name(callerId: Str, key: Str)

  type Book = map<Name, Acceptance>

  datatype Decision = Decision(book: Book, response: Response)

  predicate WellFormed(request: Request) {
    && !Blank(request.callerId)
    && (request.key.Some? ==> IsValidIdempotencyKey(request.key.value))
    && request.body.Some?
  }

  predicate Keyed(request: Request) {
    WellFormed(request) && request.key.Some?
  }

  function NameOf(request: Request): Name
    requires request.key.Some?
  {
    Name(request.callerId, request.key.value)
  }

  /** The first accepted submission of a name answers for it; submissions are compared as they are. */
  function Decide(book: Book, limit: Option<nat>, request: Request, generatedId: Str): Decision {
    if !WellFormed(request) then
      Decision(book, Rejected(
        if Blank(request.callerId) then UNAUTHENTICATED
        else if request.body.None? && (request.key.Some? ==> IsValidIdempotencyKey(request.key.value)) then INVALID_BODY
        else INVALID_IDEMPOTENCY_KEY))
    else if request.key.Some? && NameOf(request) in book then
      var first := book[NameOf(request)];
      Decision(book,
        if first.submission == request.body.value then Accepted(first.(replayed := true))
        else Rejected(IDEMPOTENCY_KEY_PAYLOAD_MISMATCH))
    else if Blank(generatedId) then Decision(book, BlankSubmissionId)
    else if request.key.Some? && Full(|book|, limit) then Decision(book, CapacityExceeded)
    else
      var acceptance := FreshAcceptance(request, generatedId);
      Decision(if request.key.Some? then book[NameOf(request) := acceptance] else book, Accepted(acceptance))
  }

  function ScopeOf(name: Name): Str {
    ScopeKey(name.callerId, ROUTE, name.key)
  }

  /** The records hold the acceptances of the book, each under its storage key with its hash. */
  ghost predicate Holds(records: Records, book: Book) {
    && |records| == |book|
    && (forall name :: ScopeOf(name) in records <==> name in book)
    && forall name :: name in book ==> records[ScopeOf(name)] == Record(PayloadHash(book[name].submission), book[name])
  }

  lemma ScopeOfInjective(a: Name, b: Name)
    requires ScopeOf(a) == ScopeOf(b)
    ensures a == b
  {
    ScopeKeyInjective(a.callerId, ROUTE, a.key, b.callerId, ROUTE, b.key);
  }

  lemma HoldsAfterBinding(records: Records, book: Book, name: Name, a: Acceptance)
    requires Holds(records, book) && name !in book
    ensures Holds(records[ScopeOf(name) := Record(PayloadHash(a.submission), a)], book[name := a])
  {
    forall other | ScopeOf(other) == ScopeOf(name)
      ensures other == name
    {
      ScopeOfInjective(other, name);
    }
  }

  lemma BoundFollowsProtocol(records: Records, book: Book, limit: Option<nat>, request: Request, generatedId: Str)
    requires Holds(records, book) && Keyed(request) && NameOf(request) in book
    ensures Accept(records, limit, request, generatedId)
      == Intake(records, Decide(book, limit, request, generatedId).response)
    ensures Decide(book, limit, request, generatedId).book == book
  {
    var name := NameOf(request);
    assert ScopeOf(name) in records;
    PayloadHashIdentifies(book[name].submission, request.body.value);
  }

  lemma UnboundFollowsProtocol(records: Records, book: Book, limit: Option<nat>, request: Request, generatedId: Str)
    requires Holds(records, book) && Keyed(request) && NameOf(request) !in book
    ensures Accept(records, limit, request, generatedId).response == Decide(book, limit, request, generatedId).response
    ensures Holds(Accept(records, limit, request, generatedId).records, Decide(book, limit, request, generatedId).book)
  {
    assert ScopeOf(NameOf(request)) !in records;
    HoldsAfterBinding(records, book, NameOf(request), FreshAcceptance(request, generatedId));
  }

  /** The in-memory boundary follows the protocol: its hashes and storage keys never confuse two requests. */
  lemma AcceptFollowsProtocol(records: Records, book: Book, limit: Option<nat>, request: Request, generatedId: Str)
    requires Holds(records, book)
    ensures Accept(records, limit, request, generatedId).response == Decide(book, limit, request, generatedId).response
    ensures Holds(Accept(records, limit, request, generatedId).records, Decide(book, limit, request, generatedId).book)
  {
    if Keyed(request) {
      if NameOf(request) in book {
        BoundFollowsProtocol(records, book, limit, request, generatedId);
      } else {
        UnboundFollowsProtocol(records, book, limit, request, generatedId);
      }
    }
  }

  // ---- any sequence of requests

  datatype Arrival = Arrival(request: Request, generatedId: Str)

  datatype Played = Played(books: seq<Book>, responses: seq<Response>)

  /** The books and responses of a sequence of requests, from an empty book. */
  function Play(arrivals: seq<Arrival>, limit: Option<nat>): (p: Played)
    ensures |p.books| == |arrivals| + 1 && |p.responses| == |arrivals|
  {
    if |arrivals| == 0 then Played([map[]], [])
    else
      var last := arrivals[|arrivals| - 1];
      var before := Play(arrivals[..|arrivals| - 1], limit);
      var d := Decide(before.books[|arrivals| - 1], limit, last.request, last.generatedId);
      Played(before.books + [d.book], before.responses + [d.response])
  }

  /** The responses and final records of the boundary itself on the same requests. */
  function Serve(arrivals: seq<Arrival>, limit: Option<nat>): (p: (Records, seq<Response>))
    ensures |p.1| == |arrivals|
  {
    if |arrivals| == 0 then (map[], [])
    else
      var last := arrivals[|arrivals| - 1];
      var before := Serve(arrivals[..|arrivals| - 1], limit);
      var next := Accept(before.0, limit, last.request, last.generatedId);
      (next.records, before.1 + [next.response])
  }

  /** Over any sequence of requests the boundary gives exactly the responses of the protocol. */
  lemma {:induction false} ServeFollowsProtocol(arrivals: seq<Arrival>, limit: Option<nat>)
    ensures Serve(arrivals, limit).1 == Play(arrivals, limit).responses
    ensures Holds(Serve(arrivals, limit).0, Play(arrivals, limit).books[|arrivals|])
  {
    if |arrivals| > 0 {
      var last := arrivals[|arrivals| - 1];
      var rest := arrivals[..|arrivals| - 1];
      ServeFollowsProtocol(rest, limit);
      AcceptFollowsProtocol(Serve(rest, limit).0, Play(rest, limit).books[|rest|], limit, last.request,
        last.generatedId);
    }
  }

  lemma {:induction false} PlayStep(arrivals: seq<Arrival>, limit: Option<nat>, i: nat)
    requires i < |arrivals|
    ensures var p := Play(arrivals, limit);
      Decision(p.books[i + 1], p.responses[i])
        == Decide(p.books[i], limit, arrivals[i].request, arrivals[i].generatedId)
    decreases |arrivals|
  {
    if i < |arrivals| - 1 {
      PlayStep(arrivals[..|arrivals| - 1], limit, i);
    }
  }

  lemma PlaySnoc(arrivals: seq<Arrival>, arrival: Arrival, limit: Option<nat>)
    ensures var p, q := Play(arrivals, limit), Play(arrivals + [arrival], limit);
      var d := Decide(p.books[|arrivals|], limit, arrival.request, arrival.generatedId);
      q.responses == p.responses + [d.response] && q.books[|arrivals| + 1] == d.book
  {
    var all := arrivals + [arrival];
    assert all[..|all| - 1] == arrivals;
  }

  lemma {:induction false} PlayBegins(arrivals: seq<Arrival>, limit: Option<nat>)
    ensures Play(arrivals, limit).books[0] == map[]
    decreases |arrivals|
  {
    if |arrivals| > 0 {
      PlayBegins(arrivals[..|arrivals| - 1], limit);
    }
  }

  /** A bound name keeps its first acceptance for ever. */
  lemma {:induction false} BoundForEver(arrivals: seq<Arrival>, limit: Option<nat>, name: Name, i: nat, j: nat)
    requires i <= j <= |arrivals| && name in Play(arrivals, limit).books[i]
    ensures name in Play(arrivals, limit).books[j]
    ensures Play(arrivals, limit).books[j][name] == Play(arrivals, limit).books[i][name]
    decreases j - i
  {
    if i < j {
      BoundForEver(arrivals, limit, name, i, j - 1);
      PlayStep(arrivals, limit, j - 1);
    }
  }

  /** The request at `i` was answered with a new acceptance under `name`. */
  predicate Binds(arrivals: seq<Arrival>, responses: seq<Response>, name: Name, i: nat) {
    && i < |arrivals| == |responses|
    && Keyed(arrivals[i].request) && NameOf(arrivals[i].request) == name
    && responses[i].Accepted? && !responses[i].acceptance.replayed
  }

  /** One request binds a name exactly when the name is new in the book after it. */
  lemma {:induction false} StepBinds(arrivals: seq<Arrival>, limit: Option<nat>, i: nat, name: Name)
    requires i < |arrivals|
    ensures var p := Play(arrivals, limit);
      && (Binds(arrivals, p.responses, name, i) <==> name in p.books[i + 1] && name !in p.books[i])
      && (name in p.books[i] ==> name in p.books[i + 1] && p.books[i + 1][name] == p.books[i][name])
      && (Binds(arrivals, p.responses, name, i) ==> p.responses[i] == Accepted(p.books[i + 1][name]))
  {
    PlayStep(arrivals, limit, i);
  }

  ghost predicate BoundBefore(arrivals: seq<Arrival>, responses: seq<Response>, name: Name, n: nat) {
    exists i :: 0 <= i < n && Binds(arrivals, responses, name, i)
  }

  ghost predicate BoundTo(arrivals: seq<Arrival>, responses: seq<Response>, name: Name, n: nat, a: Acceptance) {
    forall i :: 0 <= i < n && Binds(arrivals, responses, name, i) ==> responses[i] == Accepted(a)
  }

  /** The book at any time: each name with the acceptance of the one request that bound it. */
  lemma {:induction false} BookIsHistory(arrivals: seq<Arrival>, limit: Option<nat>, n: nat, name: Name)
    requires n <= |arrivals|
    ensures var p := Play(arrivals, limit);
      && (name in p.books[n] <==> BoundBefore(arrivals, p.responses, name, n))
      && (name in p.books[n] ==> BoundTo(arrivals, p.responses, name, n, p.books[n][name]))
    decreases n
  {
    if n == 0 {
      PlayBegins(arrivals, limit);
    } else {
      BookIsHistory(arrivals, limit, n - 1, name);
      StepBinds(arrivals, limit, n - 1, name);
      OneMore(arrivals, Play(arrivals, limit).responses, name, n - 1);
    }
  }

  lemma OneMore(arrivals: seq<Arrival>, responses: seq<Response>, name: Name, n: nat)
    ensures BoundBefore(arrivals, responses, name, n + 1) <==>
      BoundBefore(arrivals, responses, name, n) || Binds(arrivals, responses, name, n)
  {
  }

  /** The names bound by the first `n` requests. */
  ghost function NamesBound(arrivals: seq<Arrival>, responses: seq<Response>, n: nat): set<Name>
    requires n <= |arrivals|
  {
    set i | 0 <= i < n && arrivals[i].request.key.Some?
      && Binds(arrivals, responses, NameOf(arrivals[i].request), i) :: NameOf(arrivals[i].request)
  }

  lemma BookHasNames(arrivals: seq<Arrival>, limit: Option<nat>, n: nat)
    requires n <= |arrivals|
    ensures Play(arrivals, limit).books[n].Keys == NamesBound(arrivals, Play(arrivals, limit).responses, n)
  {
    var p := Play(arrivals, limit);
    forall name
      ensures name in p.books[n] <==> name in NamesBound(arrivals, p.responses, n)
    {
      BookIsHistory(arrivals, limit, n, name);
    }
  }

  /** Stored acceptances are originals. */
  lemma {:induction false} NeverReplayedInside(arrivals: seq<Arrival>, limit: Option<nat>, n: nat)
    requires n <= |arrivals|
    ensures forall name :: name in Play(arrivals, limit).books[n] ==> !Play(arrivals, limit).books[n][name].replayed
    decreases n
  {
    if n == 0 {
      PlayBegins(arrivals, limit);
    } else {
      NeverReplayedInside(arrivals, limit, n - 1);
      PlayStep(arrivals, limit, n - 1);
    }
  }

  /** A request under a name that is bound is answered from the first acceptance. */
  lemma AnswerWhenBound(arrivals: seq<Arrival>, limit: Option<nat>, j: nat, i: nat)
    requires i < j < |arrivals| && Keyed(arrivals[j].request)
    requires Binds(arrivals, Serve(arrivals, limit).1, NameOf(arrivals[j].request), i)
    ensures var rs := Serve(arrivals, limit).1;
      && !Binds(arrivals, rs, NameOf(arrivals[j].request), j)
      && rs[j] == if arrivals[i].request.body == arrivals[j].request.body
                  then Accepted(rs[i].acceptance.(replayed := true))
                  else Rejected(IDEMPOTENCY_KEY_PAYLOAD_MISMATCH)
  {
    var name := NameOf(arrivals[j].request);
    ServeFollowsProtocol(arrivals, limit);
    BookIsHistory(arrivals, limit, j, name);
    PlayStep(arrivals, limit, j);
    BindsOwn(arrivals, limit, name, i);
  }

  /** A request under a name that is not bound is refused for a full store or accepted. */
  lemma AnswerWhenNew(arrivals: seq<Arrival>, limit: Option<nat>, j: nat)
    requires j < |arrivals| && Keyed(arrivals[j].request)
    requires forall i :: 0 <= i < j ==> !Binds(arrivals, Serve(arrivals, limit).1, NameOf(arrivals[j].request), i)
    ensures var rs := Serve(arrivals, limit).1;
      rs[j] ==
        if Blank(arrivals[j].generatedId) then BlankSubmissionId
        else if limit.Some? && |NamesBound(arrivals, rs, j)| >= limit.value then CapacityExceeded
        else Accepted(FreshAcceptance(arrivals[j].request, arrivals[j].generatedId))
  {
    var books := Play(arrivals, limit).books;
    ServeFollowsProtocol(arrivals, limit);
    BookIsHistory(arrivals, limit, j, NameOf(arrivals[j].request));
    BookHasNames(arrivals, limit, j);
    assert |books[j]| == |books[j].Keys|;
    PlayStep(arrivals, limit, j);
  }

  /**
   Idempotency over whole histories, told by requests and responses alone. A name is bound at
   most once; after that every well-formed request under it is answered with the first response
   marked as replayed if its submission is the same, and refused otherwise. Before that it is
   accepted, unless as many names are bound as the store may hold.
   */
  lemma HistoryDecides(arrivals: seq<Arrival>, limit: Option<nat>, j: nat)
    requires j < |arrivals| && Keyed(arrivals[j].request)
    ensures var request, rs := arrivals[j].request, Serve(arrivals, limit).1;
      var name := NameOf(request);
      && (forall i :: 0 <= i < j && Binds(arrivals, rs, name, i) ==>
            && !Binds(arrivals, rs, name, j)
            && rs[j] == if arrivals[i].request.body == request.body
                        then Accepted(rs[i].acceptance.(replayed := true))
                        else Rejected(IDEMPOTENCY_KEY_PAYLOAD_MISMATCH))
      && ((forall i :: 0 <= i < j ==> !Binds(arrivals, rs, name, i)) ==>
            rs[j] ==
              if Blank(arrivals[j].generatedId) then BlankSubmissionId
              else if limit.Some? && |NamesBound(arrivals, rs, j)| >= limit.value then CapacityExceeded
              else Accepted(FreshAcceptance(request, arrivals[j].generatedId)))
  {
    var rs, name := Serve(arrivals, limit).1, NameOf(arrivals[j].request);
    forall i | 0 <= i < j && Binds(arrivals, rs, name, i)
      ensures !Binds(arrivals, rs, name, j)
      ensures rs[j] == if arrivals[i].request.body == arrivals[j].request.body
                       then Accepted(rs[i].acceptance.(replayed := true))
                       else Rejected(IDEMPOTENCY_KEY_PAYLOAD_MISMATCH)
    {
      AnswerWhenBound(arrivals, limit, j, i);
    }
    if forall i :: 0 <= i < j ==> !Binds(arrivals, rs, name, i) {
      AnswerWhenNew(arrivals, limit, j);
    }
  }

  /** Every other request is answered on its own: refused for its first fault, or accepted. */
  lemma OthersAnswered(arrivals: seq<Arrival>, limit: Option<nat>, j: nat)
    requires j < |arrivals| && !Keyed(arrivals[j].request)
    ensures var request, r := arrivals[j].request, Serve(arrivals, limit).1[j];
      if Blank(request.callerId) then r == Rejected(UNAUTHENTICATED)
      else if request.key.Some? && !IsValidIdempotencyKey(request.key.value) then r == Rejected(INVALID_IDEMPOTENCY_KEY)
      else if request.body.None? then r == Rejected(INVALID_BODY)
      else if Blank(arrivals[j].generatedId) then r == BlankSubmissionId
      else r == Accepted(FreshAcceptance(request, arrivals[j].generatedId))
  {
    ServeFollowsProtocol(arrivals, limit);
    PlayStep(arrivals, limit, j);
  }

  /** A binding response carries the request's own submission. */
  lemma BindsOwn(arrivals: seq<Arrival>, limit: Option<nat>, name: Name, i: nat)
    requires i < |arrivals| && Binds(arrivals, Play(arrivals, limit).responses, name, i)
    ensures Play(arrivals, limit).responses[i]
      == Accepted(FreshAcceptance(arrivals[i].request, arrivals[i].generatedId))
  {
    PlayStep(arrivals, limit, i);
  }

  /** Rejections, conflicts, replays and failures change nothing; a new binding adds one record. */
  lemma OnlyBindingChanges(records: Records, limit: Option<nat>, request: Request, generatedId: Str)
    ensures var after := Accept(records, limit, request, generatedId);
      if Keyed(request) && after.response.Accepted? && !after.response.acceptance.replayed
      then
        var scope := ScopeOf(NameOf(request));
        scope !in records && after.records
          == records[scope := Record(PayloadHash(request.body.value), after.response.acceptance)]
      else after.records == records
  {
  }

  lemma NotBlank(s: Str)
    requires |s| > 0 && !IsSpace(s[0])
    ensures !Blank(s)
  {
  }

  /** A well-formed request without a key is accepted on its own. */
  lemma KeylessAccepted(records: Records, book: Book, limit: Option<nat>, request: Request, id: Str)
    requires WellFormed(request) && request.key.None? && !Blank(id)
    ensures Decide(book, limit, request, id) == Decision(book, Accepted(FreshAcceptance(request, id)))
    ensures Accept(records, limit, request, id) == Intake(records, Accepted(FreshAcceptance(request, id)))
  {
  }
}
