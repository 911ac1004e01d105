/** The create path of `DealServiceImpl` over an abstract deal store: reject a
    request whose id is already stored, otherwise copy the request into a new
    entity and save it. */
module DealService {
  import opened Wrappers
  import opened Deals
  import opened Exceptions

  /** The repository's contents, in insertion order. */
  type Store = seq<Deal>

  /** Some stored deal carries `id`. */
  ghost predicate Stored(store: Store, id: Option<string>) {
    exists k :: 0 <= k < |store| && store[k].dealUniqueId == id
  }

  /** No two stored deals share an id. */
  ghost predicate UniqueIds(store: Store) {
    forall i, j :: 0 <= i < j < |store| ==> store[i].dealUniqueId != store[j].dealUniqueId
  }

  /** `existsByDealUniqueId`, as a scan of the store. */
  function ExistsByDealUniqueId(store: Store, id: Option<string>): (b: bool)
    ensures b <==> Stored(store, id)
  {
    if |store| == 0 then false
    else
      var rest := ExistsByDealUniqueId(store[1..], id);
      assert Stored(store[1..], id) ==> Stored(store, id) by {
        if k :| 0 <= k < |store[1..]| && store[1..][k].dealUniqueId == id {
          assert store[k + 1].dealUniqueId == id;
        }
      }
      assert Stored(store, id) && store[0].dealUniqueId != id ==> Stored(store[1..], id) by {
        if k :| 0 <= k < |store| && store[k].dealUniqueId == id && k != 0 {
          assert store[1..][k - 1].dealUniqueId == id;
        }
      }
      store[0].dealUniqueId == id || rest
  }

  /** How Java's string concatenation renders a possibly null id. */
  function IdText(id: Option<string>): string {
    match id
    case Some(s) => s
    case None => "null"
  }

  /** The text of the runtime exception thrown for a duplicate. */
  function DuplicateMessage(id: Option<string>): string {
    "Deal already exists with ID: " + IdText(id)
  }

  /** What `createDeal` returns or throws, and the store it leaves behind. */
  datatype Transition = Transition(result: Result<Deal, Exception>, store: Store)

  /** `createDeal`. `saveFault` is what the repository's `save` throws, if
      anything; a failed save leaves the store as it was. */
  function CreateDeal(store: Store, request: DealRequest, saveFault: Option<Exception>): (t: Transition)
    // A known id is refused with a duplicate message and nothing is saved.
    ensures Stored(store, request.dealUniqueId) ==>
      t.result == Failure(Runtime(Some(DuplicateMessage(request.dealUniqueId)))) && t.store == store
    // A new id is saved as a field-for-field copy, appended after the untouched records.
    ensures !Stored(store, request.dealUniqueId) && saveFault.None? ==>
      && t.result.Success?
      && RequestMatchesDeal(request, t.result.value)
      && t.store == store + [t.result.value]
    // A failing save propagates its exception unchanged.
    ensures !Stored(store, request.dealUniqueId) && saveFault.Some? ==>
      t.result == Failure(saveFault.value) && t.store == store
  {
    if ExistsByDealUniqueId(store, request.dealUniqueId) then
      Transition(Failure(Runtime(Some(DuplicateMessage(request.dealUniqueId)))), store)
    else
      var deal := ToEntity(request);
      match saveFault
      case Some(e) => Transition(Failure(e), store)
      case None => Transition(Success(deal), store + [deal])
  }

  /** Whatever the outcome, ids that were unique stay unique. */
  lemma CreatePreservesUniqueIds(store: Store, request: DealRequest, saveFault: Option<Exception>)
    requires UniqueIds(store)
    ensures UniqueIds(CreateDeal(store, request, saveFault).store)
  {
  }

  /** Only the id decides a duplicate: once an id is stored, every request with
      that id gets the same refusal, whatever its other fields and whatever the
      store would have done on save. */
  lemma DuplicateDecidedByIdAlone(store: Store, a: DealRequest, b: DealRequest,
                                  faultA: Option<Exception>, faultB: Option<Exception>)
    requires a.dealUniqueId == b.dealUniqueId
    requires Stored(store, a.dealUniqueId)
    ensures CreateDeal(store, a, faultA) == CreateDeal(store, b, faultB)
    ensures CreateDeal(store, a, faultA).store == store
  {
  }

  /** The duplicate refusal always classifies as a conflict, for any id,
      including a null one. */
  lemma DuplicateIsConflict(store: Store, request: DealRequest, saveFault: Option<Exception>)
    requires Stored(store, request.dealUniqueId)
    ensures CreateDeal(store, request, saveFault).result.Failure?
    ensures Handle(CreateDeal(store, request, saveFault).result.error).status == Http.Conflict
  {
    var text := IdText(request.dealUniqueId);
    assert DuplicateMessage(request.dealUniqueId) == "Deal " + DuplicateMarker + (" with ID: " + text);
    RuntimeDuplicateIsConflict("Deal ", " with ID: " + text);
  }

  /** The number of stored deals carrying `id`, counted from the newest. */
  function CountWithId(store: Store, id: Option<string>): nat {
    if |store| == 0 then 0
    else CountWithId(store[..|store| - 1], id) + (if store[|store| - 1].dealUniqueId == id then 1 else 0)
  }

  /** An id is counted exactly when it is stored. */
  lemma {:induction false} CountPositiveIffStored(store: Store, id: Option<string>)
    ensures CountWithId(store, id) > 0 <==> Stored(store, id)
    decreases |store|
  {
    if |store| > 0 {
      var init := store[..|store| - 1];
      CountPositiveIffStored(init, id);
      if Stored(init, id) {
        var k :| 0 <= k < |init| && init[k].dealUniqueId == id;
        assert store[k].dealUniqueId == id;
      }
      if k :| 0 <= k < |store| && store[k].dealUniqueId == id {
        if k < |init| {
          assert init[k].dealUniqueId == id;
        }
      }
    }
  }

  /** No id is counted twice. */
  ghost predicate CountsAtMostOne(store: Store) {
    forall id :: CountWithId(store, id) <= 1
  }

  /** With unique ids, every id is counted at most once. */
  lemma {:induction false} UniqueIdsCountAtMostOne(store: Store, id: Option<string>)
    requires UniqueIds(store)
    ensures CountWithId(store, id) <= 1
    decreases |store|
  {
    if |store| > 0 {
      var init := store[..|store| - 1];
      var last := store[|store| - 1];
      assert UniqueIds(init) by {
        forall i, j | 0 <= i < j < |init| ensures init[i].dealUniqueId != init[j].dealUniqueId {
          assert init[i] == store[i] && init[j] == store[j];
        }
      }
      UniqueIdsCountAtMostOne(init, id);
      if last.dealUniqueId == id {
        CountPositiveIffStored(init, id);
        forall k | 0 <= k < |init| ensures init[k].dealUniqueId != id {
          assert store[k] == init[k];
        }
      }
    }
  }

  /** If no id is counted twice, ids are unique. */
  lemma {:induction false} CountsAtMostOneGiveUniqueIds(store: Store)
    requires CountsAtMostOne(store)
    ensures UniqueIds(store)
    decreases |store|
  {
    if |store| > 0 {
      var init := store[..|store| - 1];
      var last := store[|store| - 1];
      forall id ensures CountWithId(init, id) <= 1 {
        assert CountWithId(store, id) <= 1;
      }
      CountsAtMostOneGiveUniqueIds(init);
      assert CountWithId(store, last.dealUniqueId) <= 1;
      forall i, j | 0 <= i < j < |store| ensures store[i].dealUniqueId != store[j].dealUniqueId {
        assert init[i] == store[i];
        if j < |init| {
          assert init[j] == store[j];
        } else {
          assert Stored(init, init[i].dealUniqueId);
          CountPositiveIffStored(init, init[i].dealUniqueId);
        }
      }
    }
  }

  /** Uniqueness of ids is the same as every id being counted at most once. */
  lemma UniqueIdsIffCountsAtMostOne(store: Store)
    ensures UniqueIds(store) <==> CountsAtMostOne(store)
  {
    if UniqueIds(store) {
      forall id ensures CountWithId(store, id) <= 1 {
        UniqueIdsCountAtMostOne(store, id);
      }
    }
    if CountsAtMostOne(store) {
      CountsAtMostOneGiveUniqueIds(store);
    }
  }
}
