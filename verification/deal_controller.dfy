/** The POST handler of `DealController` together with the advice that turns
    its exceptions into responses: validate, create, map the entity to the
    response body and answer 201; any exception becomes an error response. */
module DealController {
  import opened Wrappers
  import opened Deals
  import opened Http
  import opened Exceptions
  import opened Validation
  import DealService

  /** A response body: the created deal, or an error description. */
  datatype Body = DealBody(deal: DealResponse) | ErrorBody(error: ErrorResponse)

  /** What the client receives. */
  datatype Response = Response(status: HttpStatus, body: Body)

  /** One request's response and the store it leaves behind. */
  datatype Exchange = Exchange(response: Response, store: DealService.Store)

  /** An exception escaping the controller, as the advice answers it. */
  function Answer(ex: Exception): Response {
    var entity := Handle(ex);
    Response(entity.status, ErrorBody(entity.body))
  }

  /** `createDeal` on the POST route. `saveFault` is what the repository's
      `save` throws, if anything. */
  function CreateDeal(store: DealService.Store, request: DealRequest, saveFault: Option<Exception>): (x: Exchange)
    // A rejected request never reaches the service: 400 with the validator's message.
    ensures Validate(request).Fail? ==>
      && x.store == store
      && x.response.status == BadRequest
      && x.response.body == ErrorBody(ErrorResponse(400, "BAD_REQUEST", Some(Message(Validate(request).error))))
    // A well-formed request with a known id is a conflict.
    ensures Validate(request).Pass? && DealService.Stored(store, request.dealUniqueId) ==>
      && x.store == store
      && x.response.status == Conflict
      && x.response.body == ErrorBody(ErrorResponse(409, "CONFLICT", Some(DealService.DuplicateMessage(request.dealUniqueId))))
    // A well-formed new deal is stored and echoed back with 201.
    ensures Validate(request).Pass? && !DealService.Stored(store, request.dealUniqueId) && saveFault.None? ==>
      && x.response.status == Created
      && x.response.body.DealBody?
      && |x.store| == |store| + 1
      && x.store[..|store|] == store
      && RequestMatchesDeal(request, x.store[|store|])
      && ResponseMatchesDeal(x.response.body.deal, x.store[|store|])
    // A failing save is answered as the advice answers its exception.
    ensures Validate(request).Pass? && !DealService.Stored(store, request.dealUniqueId) && saveFault.Some? ==>
      x == Exchange(Answer(saveFault.value), store)
    // The store changes exactly when the answer is 201, and then by one record.
    ensures x.response.status == Created <==> x.store != store
    ensures x.response.status == Created ==> |x.store| == |store| + 1 && x.store[..|store|] == store
  {
    match Validate(request)
    case Fail(reason) => Exchange(Answer(Raise(reason)), store)
    case Pass =>
      var t := DealService.CreateDeal(store, request, saveFault);
      match t.result
      case Failure(ex) =>
        assert DealService.Stored(store, request.dealUniqueId) ==> Answer(ex).status == Conflict by {
          if DealService.Stored(store, request.dealUniqueId) {
            DealService.DuplicateIsConflict(store, request, saveFault);
          }
        }
        Exchange(Answer(ex), t.store)
      case Success(deal) => Exchange(Response(Created, DealBody(ToResponse(deal))), t.store)
  }

  /** Validation comes first: a malformed request is a bad request even when
      its id is already stored, never a conflict. */
  lemma ValidationBeforeDuplicateCheck(store: DealService.Store, request: DealRequest, saveFault: Option<Exception>)
    requires Validate(request).Fail?
    requires DealService.Stored(store, request.dealUniqueId)
    ensures CreateDeal(store, request, saveFault).response.status == BadRequest
    ensures CreateDeal(store, request, saveFault).store == store
  {
  }

  /** Posting the same well-formed deal twice: the first answer is 201, the
      second 409, and the store ends with exactly one record for the id. */
  lemma ResubmissionIsConflict(store: DealService.Store, request: DealRequest, second: DealRequest)
    requires Validate(request).Pass? && Validate(second).Pass?
    requires second.dealUniqueId == request.dealUniqueId
    requires !DealService.Stored(store, request.dealUniqueId)
    ensures CreateDeal(store, request, None).response.status == Created
    ensures CreateDeal(CreateDeal(store, request, None).store, second, None).response.status == Conflict
    ensures CreateDeal(CreateDeal(store, request, None).store, second, None).response.body.ErrorBody?
    ensures CreateDeal(CreateDeal(store, request, None).store, second, None).response.body.error.message
      == Some(DealService.DuplicateMessage(request.dealUniqueId))
    ensures Mentions(CreateDeal(CreateDeal(store, request, None).store, second, None).response.body.error.message,
                     DuplicateMarker)
    ensures DealService.CountWithId(CreateDeal(CreateDeal(store, request, None).store, second, None).store,
                                    request.dealUniqueId) == 1
  {
    var first := CreateDeal(store, request, None).store;
    assert first[|store|].dealUniqueId == request.dealUniqueId;
    assert DealService.Stored(first, request.dealUniqueId);
    DealService.CountPositiveIffStored(store, request.dealUniqueId);
    DealService.DuplicateIsConflict(first, second, None);
    assert first[..|first| - 1] == store;
  }

  /** One POST: the request and what the repository's `save` would throw. */
  datatype Submission = Submission(request: DealRequest, saveFault: Option<Exception>)

  /** The responses to a sequence of POSTs handled one after another, and the
      final store. */
  datatype Session = Session(responses: seq<Response>, store: DealService.Store)

  /** Handle the submissions in order, threading the store through. */
  function Replay(store: DealService.Store, submissions: seq<Submission>): (s: Session)
    ensures |s.responses| == |submissions|
    decreases |submissions|
  {
    if |submissions| == 0 then Session([], store)
    else
      var x := CreateDeal(store, submissions[0].request, submissions[0].saveFault);
      var rest := Replay(x.store, submissions[1..]);
      Session([x.response] + rest.responses, rest.store)
  }

  /** How many of the responses are 201. */
  function CreatedCount(responses: seq<Response>): nat {
    if |responses| == 0 then 0
    else (if responses[0].status == Created then 1 else 0) + CreatedCount(responses[1..])
  }

  /** The entities of the submissions answered 201, in submission order. */
  function Accepted(responses: seq<Response>, submissions: seq<Submission>): seq<Deal>
    requires |responses| == |submissions|
  {
    if |submissions| == 0 then []
    else (if responses[0].status == Created then [ToEntity(submissions[0].request)] else [])
         + Accepted(responses[1..], submissions[1..])
  }

  /** Over any sequence of POSTs, the final store is the initial one followed
      by the copies of the requests answered 201, in submission order. */
  lemma {:induction false} ReplayAppendsAccepted(store: DealService.Store, submissions: seq<Submission>)
    ensures Replay(store, submissions).store ==
      store + Accepted(Replay(store, submissions).responses, submissions)
    decreases |submissions|
  {
    if |submissions| > 0 {
      var x := CreateDeal(store, submissions[0].request, submissions[0].saveFault);
      ReplayAppendsAccepted(x.store, submissions[1..]);
      var s := Replay(store, submissions);
      assert s.responses[1..] == Replay(x.store, submissions[1..]).responses;
      if x.response.status == Created {
        assert x.store == store + [ToEntity(submissions[0].request)];
      }
    }
  }

  /** Over any sequence of POSTs, ids stay unique, the records already stored
      stay in place, and what follows them is exactly the copies of the
      requests answered 201, in order: one record per 201. */
  lemma {:induction false} ReplayKeepsStoreConsistent(store: DealService.Store, submissions: seq<Submission>)
    requires DealService.UniqueIds(store)
    ensures DealService.UniqueIds(Replay(store, submissions).store)
    ensures |Replay(store, submissions).store| == |store| + CreatedCount(Replay(store, submissions).responses)
    ensures Replay(store, submissions).store[..|store|] == store
    ensures Replay(store, submissions).store ==
      store + Accepted(Replay(store, submissions).responses, submissions)
    decreases |submissions|
  {
    if |submissions| > 0 {
      var x := CreateDeal(store, submissions[0].request, submissions[0].saveFault);
      if Validate(submissions[0].request).Pass? {
        DealService.CreatePreservesUniqueIds(store, submissions[0].request, submissions[0].saveFault);
      }
      ReplayKeepsStoreConsistent(x.store, submissions[1..]);
      var s := Replay(store, submissions);
      assert s.responses[1..] == Replay(x.store, submissions[1..]).responses;
      if x.response.status == Created {
        assert s.store[..|store|] == s.store[..|x.store|][..|store|];
      }
      ReplayAppendsAccepted(store, submissions);
    }
  }

  /** Every submission answered 201 contributes its entity to `Accepted`. */
  lemma {:induction false} AcceptedHoldsEachCreated(responses: seq<Response>, submissions: seq<Submission>, i: nat)
    requires |responses| == |submissions|
    requires i < |submissions| && responses[i].status == Created
    ensures ToEntity(submissions[i].request) in Accepted(responses, submissions)
    decreases |submissions|
  {
    if i > 0 {
      AcceptedHoldsEachCreated(responses[1..], submissions[1..], i - 1);
    }
  }

  /** After any sequence of POSTs, every id that was answered 201 is in the
      store. */
  lemma ReplayStoresCreatedIds(store: DealService.Store, submissions: seq<Submission>)
    ensures forall i :: 0 <= i < |submissions| && Replay(store, submissions).responses[i].status == Created ==>
      DealService.Stored(Replay(store, submissions).store, submissions[i].request.dealUniqueId)
  {
    var s := Replay(store, submissions);
    ReplayAppendsAccepted(store, submissions);
    forall i | 0 <= i < |submissions| && s.responses[i].status == Created
      ensures DealService.Stored(s.store, submissions[i].request.dealUniqueId)
    {
      AcceptedHoldsEachCreated(s.responses, submissions, i);
      var accepted := Accepted(s.responses, submissions);
      var k :| 0 <= k < |accepted| && accepted[k] == ToEntity(submissions[i].request);
      assert s.store[|store| + k] == accepted[k];
    }
  }
}
