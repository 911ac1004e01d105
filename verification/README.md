# FX deals: the create-deal path, modelled and proved in Dafny

The fx-deals service records foreign-exchange deals. A client POSTs a deal with
five fields: a caller-chosen `dealUniqueId`, `fromCurrency`, `toCurrency`,
`dealAmount` and `dealTimestamp`. The service accepts the deal or refuses it.
All of its decision logic sits on one path:

1. `DealValidator.validate` runs five fail-fast checks in a fixed order.
2. `DealServiceImpl.createDeal` refuses an id that is already stored.
   Otherwise it copies the request into a new entity and saves it.
3. `DealController.createDeal` chains the two steps and answers 201 with the saved fields.
4. `GlobalExceptionHandler` turns any exception thrown on the way into a status,
   an error code and a body message.

This project models that path as pure functions over immutable records and
proves what each step promises.

| file | module | models |
|---|---|---|
| `wrappers.dfy` | `Wrappers` | `Option` for nullable Java references, `Result` for return-or-throw, `Outcome` for pass-or-fail checks |
| `text.dfy` | `Text` | `String.contains`, proved equal to "the needle occurs at some position" |
| `deals.dfy` | `Deals` | `BigDecimal` as unscaled digits plus a scale; the request, entity and response records; the field copies |
| `http.dfy` | `Http` | the four status codes the endpoint can answer with |
| `validation.dfy` | `Validation` | `DealValidator.validate` |
| `exceptions.dfy` | `Exceptions` | the exception kinds and `GlobalExceptionHandler` |
| `deal_service.dfy` | `DealService` | the deal store as a sequence of entities, `existsByDealUniqueId`, `createDeal` |
| `deal_controller.dfy` | `DealController` | the POST pipeline, and a run of POSTs handled one after another |

Modelling choices:

- Every field of the records is an `Option`, because every Java getter may return `null`.
- The store is the sequence of saved deals in insertion order.
- `existsByDealUniqueId` holds when some stored record has the given id. The id
  is compared as an `Option`, so a null id matches a record with a null id.
  This mirrors the `IS NULL` query a derived repository method issues.
- The repository's `save` is an input, `saveFault`: what it throws, if anything.
  A failed save leaves the store as it was.
- The duplicate message is `"Deal already exists with ID: "` followed by the id.
  A null id is rendered as `null`, as Java string concatenation does.
- Exception dispatch follows Spring's "most specific handler wins" rule.
  `IllegalArgumentException` goes to `handleIllegalArgument`.
  `HttpMessageNotReadableException` goes to `handleJsonParseError`.
  Any other runtime exception goes to `handleRuntime`.
  Every checked exception goes to `handleGeneric`.
  The `Exception` datatype has one constructor per handler.
- The amount is exact. It counts as positive when its unscaled digits are above
  zero. `Deals.IsPositiveMeansValueAboveZero` shows this agrees with the
  number's real value for every scale.
- The timestamp is a value that is only tested for presence and copied unchanged.

## Model

| member | source | states |
|---|---|---|
| `Validation.Validate` | src/main/java/com/bloomberg/fxdeals/validation/DealValidator.java:6-22 | Accepts exactly when every rule holds. On rejection it names a rule the request breaks, and the request satisfies every rule checked before it (id, from, to, amount, timestamp), so the first failure in check order is reported |
| `Validation.ValidateAcceptsExactly` | src/main/java/com/bloomberg/fxdeals/validation/DealValidator.java:7-21 | Acceptance holds if and only if all five fields are present, the three strings are non-empty and the amount's exact value is above zero |
| `Validation.MissingIdRejectedFirst` | src/main/java/com/bloomberg/fxdeals/validation/DealValidator.java:7-9 | A null or empty id is rejected as a missing id with "dealUniqueId is required", whatever the other fields hold |
| `Validation.AmountReasonShared` | src/main/java/com/bloomberg/fxdeals/validation/DealValidator.java:16-18 | After the three text checks pass, a null amount and an amount whose value is zero or negative get the same reason and the message "dealAmount must be > 0" |
| `Validation.MissingTimestampReported` | src/main/java/com/bloomberg/fxdeals/validation/DealValidator.java:19-21 | The missing-timestamp reason is reported if and only if the timestamp is null and every other rule holds |
| `Validation.SmallestTestedAmountAccepted` | src/test/java/com/bloomberg/fxdeals/api/AssignmentApiTest.java:145-157 | A request with non-empty strings, a timestamp and the amount 0.01 is accepted |
| `Validation.BlankIdPassesIdCheck` | src/main/java/com/bloomberg/fxdeals/validation/DealValidator.java:7 | An id of three blanks is not rejected as missing, because only emptiness is tested |
| `Deals.IsPositiveMeansValueAboveZero` | src/main/java/com/bloomberg/fxdeals/validation/DealValidator.java:16 | The sign test on the unscaled digits holds if and only if the decimal's real value is above zero, for every scale |
| `Deals.ToEntity` | src/main/java/com/bloomberg/fxdeals/service/DealServiceImpl.java:28-33 | The new entity carries the request's id, both currencies, amount and timestamp, each unchanged |
| `Deals.ToResponse` | src/main/java/com/bloomberg/fxdeals/controller/DealController.java:34-39 | The response carries the entity's id, both currencies, amount and timestamp, each unchanged |
| `Text.Contains` | src/main/java/com/bloomberg/fxdeals/exception/GlobalExceptionHandler.java:26 | The substring scan returns true if and only if the needle occurs at some position of the text |
| `DealService.ExistsByDealUniqueId` | src/main/java/com/bloomberg/fxdeals/repository/DealRepository.java:9 | True if and only if some stored record carries the id |
| `DealService.CreateDeal` | src/main/java/com/bloomberg/fxdeals/service/DealServiceImpl.java:20-37 | A stored id is refused with a runtime exception carrying the duplicate message, and the store is unchanged. A new id is saved as a field-for-field copy of the request, appended after the untouched records. A failing save propagates its exception unchanged and saves nothing |
| `DealService.CreatePreservesUniqueIds` | src/main/java/com/bloomberg/fxdeals/service/DealServiceImpl.java:23-36 | If ids are unique in the store before the call, they are unique after it, whatever the outcome |
| `DealService.DuplicateDecidedByIdAlone` | src/main/java/com/bloomberg/fxdeals/service/DealServiceImpl.java:23-25 | Once an id is stored, two requests with that id get the same refusal and leave the store unchanged, whatever their other fields |
| `DealService.DuplicateIsConflict` | src/main/java/com/bloomberg/fxdeals/service/DealServiceImpl.java:23-25 | The exception thrown for a stored id, including a null one, is answered 409 by the exception handler |
| `DealService.CountPositiveIffStored` | src/test/java/com/bloomberg/fxdeals/integration/DealIntegrationTest.java:129-133 | The number of records with an id is positive if and only if some record carries it |
| `DealService.UniqueIdsCountAtMostOne` | src/test/java/com/bloomberg/fxdeals/integration/DealIntegrationTest.java:129-133 | With unique ids, at most one record carries any given id |
| `DealService.CountsAtMostOneGiveUniqueIds` | src/test/java/com/bloomberg/fxdeals/integration/DealIntegrationTest.java:250-258 | If no id is carried by two records, no two records share an id |
| `DealService.UniqueIdsIffCountsAtMostOne` | src/main/java/com/bloomberg/fxdeals/service/DealServiceImpl.java:23-36 | Pairwise-distinct ids hold if and only if every id is carried by at most one record |
| `Exceptions.Handle` | src/main/java/com/bloomberg/fxdeals/exception/GlobalExceptionHandler.java:13-71 | The body's status code always equals the response status, and the error code names it. 400 if and only if the exception is an illegal argument or an unreadable body. 409 if and only if it is a runtime exception whose non-null message contains "already exists". 500 otherwise. Illegal-argument and runtime bodies carry the exception's own message. Unreadable bodies carry the timestamp hint, else the number hint, else "Invalid request format". Any other exception gets the fixed text |
| `Exceptions.RuntimeDuplicateIsConflict` | src/main/java/com/bloomberg/fxdeals/exception/GlobalExceptionHandler.java:26-33 | A runtime message with "already exists" anywhere inside it is answered 409 |
| `Exceptions.NullRuntimeMessageIsServerError` | src/main/java/com/bloomberg/fxdeals/exception/GlobalExceptionHandler.java:36-41 | A runtime exception with a null message is answered 500 / INTERNAL_ERROR with a null message |
| `Exceptions.DatabaseErrorIsServerError` | src/test/java/com/bloomberg/fxdeals/controller/DealControllerTest.java:98-107 | A runtime "Database error" is answered 500 / INTERNAL_ERROR with its message passed on |
| `Exceptions.OtherMessageNeverExposed` | src/main/java/com/bloomberg/fxdeals/exception/GlobalExceptionHandler.java:63-71 | Any other exception gets the same answer whatever its message, so the message never reaches the client |
| `DealController.CreateDeal` | src/main/java/com/bloomberg/fxdeals/controller/DealController.java:24-42 | A rejected request gets 400 with the validator's message and leaves the store unchanged. A valid request with a stored id gets 409 with the body CONFLICT and the duplicate message "Deal already exists with ID: " followed by the id. A valid new request gets 201, the response echoes the five saved fields, and those equal the request's. A failing save gets the handler's answer. The store changes exactly when the answer is 201, and then only by appending one record |
| `DealController.ValidationBeforeDuplicateCheck` | src/main/java/com/bloomberg/fxdeals/controller/DealController.java:28-31 | An invalid request whose id is already stored gets 400, not 409, and the store is unchanged |
| `DealController.ResubmissionIsConflict` | src/test/java/com/bloomberg/fxdeals/integration/DealIntegrationTest.java:107-134 | Posting a valid new id twice gets 201 and then 409. The second body carries the duplicate message, which contains "already exists". The store ends with exactly one record for that id |
| `DealController.ReplayKeepsStoreConsistent` | src/test/java/com/bloomberg/fxdeals/integration/DealIntegrationTest.java:207-258 | Over any sequence of POSTs, unique ids stay unique and the original records stay in place. After them come exactly the copies of the requests answered 201, in order, so the store grows by the number of 201 answers |
| `DealController.ReplayAppendsAccepted` | src/test/java/com/bloomberg/fxdeals/integration/DealIntegrationTest.java:212-258 | Over any sequence of POSTs, the final store is the initial store followed by the field-for-field copies of the requests answered 201, in submission order; refused and failed requests add nothing |
| `DealController.ReplayStoresCreatedIds` | src/test/java/com/bloomberg/fxdeals/integration/DealIntegrationTest.java:250-252 | After any sequence of POSTs, the id of every request answered 201 is in the store |

## Left out

- `validate` never modifies the request. The model gets this for free: records are immutable values and `Validate` is a pure function.
- `Validation.AmountReasonShared` and the amount check use exact decimal sign. The Java code tests `doubleValue() <= 0`. A positive `BigDecimal` too small for a `double` rounds to 0.0, and the real code would reject it. Floating point is not modelled.
- Currency format and allow-list rules: the tests at `DealValidatorTest.java:124-238` expect them, but `validate` does not implement them.
- The timestamp window (30 days back, 1 day ahead): the tests at `DealValidatorTest.java:240-284` expect it, but `validate` does not implement it.
- `getAllDeals`: the controller's GET returns the constant text "Deals endpoint working!". `DealServiceImpl` does not implement `DealService.getAllDeals`. There is no list behaviour to model.
- The store is idealised: it keeps every field exactly as saved. Column precision is not modelled. A real database may truncate the timestamp; the repository's own test compares it only to the second (`DealIntegrationTest.java:201-203`).
- The store-assigned surrogate key and its identity generation are not modelled. Neither are JPA transactions.
- The check-then-act race between `existsByDealUniqueId` and `save` is a concurrency matter and is not modelled. No storage-level unique constraint appears in the repository's code, so none is assumed.
- `DealService.CreateDeal` takes the repository's `save` outcome as the input `saveFault`. Which exceptions a real database throws is outside the model.
- The logging aspects (`LoggingAspect`, `EnhancedLoggingAspect`, `Loggable`) only observe calls. They are not modelled.
- HTTP routing, JSON parsing and Spring's dispatch machinery are not modelled. Only the resulting status, code and message are. An unreadable body is modelled only as the `NotReadable` exception the parser raises.

## Where the code and its tests or documents disagree

The model follows the code in each case below.

- A blank id: `DealValidatorTest.java:53-58` expects an id of three spaces to be rejected. The code tests only `isEmpty()`, so the id passes (`Validation.BlankIdPassesIdCheck`).
- A null amount: `DealValidatorTest.java:93-98` expects the text "dealAmount is required". The code throws "dealAmount must be > 0".
- A zero or negative amount: `DealValidatorTest.java:100-114` expect the text "greater than 0". The code's message does not contain it.
- The record types: `dto/DealRequest.java` declares `dealId`, `amount` and a string `timestamp`. `dto/DealResponse.java` declares only `dealId` and `status`. `model/Deal.java` declares only `id` and `name`. None of them has the five getters and setters that the validator, service and controller call. The model uses the five-field record those callers assume.
- A uniqueness violation raised by the storage layer is not translated into the duplicate outcome. A save failure reaches `handleRuntime` unchanged. It is answered 409 only if its message happens to contain "already exists".
