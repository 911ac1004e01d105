/** The field validator of `DealValidator.validate`: five presence and range
    checks run in a fixed order, stopping at the first that fails. */
module Validation {
  import opened Wrappers
  import opened Deals
  import opened Exceptions

  /** One reason per check, in the order the checks run. */
  datatype ValidationError =
    | MissingDealId
    | MissingFromCurrency
    | MissingToCurrency
    | AmountNotPositive
    | MissingTimestamp

  /** The position of a check in the validator's sequence. */
  function Rank(e: ValidationError): nat {
    match e
    case MissingDealId => 0
    case MissingFromCurrency => 1
    case MissingToCurrency => 2
    case AmountNotPositive => 3
    case MissingTimestamp => 4
  }

  /** The text of the `IllegalArgumentException` each failed check throws. */
  function Message(e: ValidationError): string {
    match e
    case MissingDealId => "dealUniqueId is required"
    case MissingFromCurrency => "fromCurrency is required"
    case MissingToCurrency => "toCurrency is required"
    case AmountNotPositive => "dealAmount must be > 0"
    case MissingTimestamp => "dealTimestamp is required"
  }

  /** The exception the validator throws for a failed check. */
  function Raise(e: ValidationError): Exception {
    IllegalArgument(Some(Message(e)))
  }

  /** A text field passes when it is non-null and non-empty. Only emptiness is
      tested: a field made of blanks passes. */
  predicate Present(field: Option<string>) {
    field.Some? && |field.value| > 0
  }

  /** Whether the request satisfies the one rule whose violation `e` reports. */
  predicate Satisfies(request: DealRequest, e: ValidationError) {
    match e
    case MissingDealId => Present(request.dealUniqueId)
    case MissingFromCurrency => Present(request.fromCurrency)
    case MissingToCurrency => Present(request.toCurrency)
    case AmountNotPositive => request.dealAmount.Some? && request.dealAmount.value.IsPositive()
    case MissingTimestamp => request.dealTimestamp.Some?
  }

  /** `validate`: the request passes exactly when it satisfies every rule, and
      otherwise the reason is the earliest rule, in check order, that it breaks. */
  function Validate(request: DealRequest): (o: Outcome<ValidationError>)
    ensures o.Pass? <==> forall e :: Satisfies(request, e)
    ensures o.Fail? ==> !Satisfies(request, o.error)
    ensures o.Fail? ==> forall e :: Rank(e) < Rank(o.error) ==> Satisfies(request, e)
  {
    if !Present(request.dealUniqueId) then
      assert !Satisfies(request, MissingDealId);
      Fail(MissingDealId)
    else if !Present(request.fromCurrency) then
      assert !Satisfies(request, MissingFromCurrency);
      Fail(MissingFromCurrency)
    else if !Present(request.toCurrency) then
      assert !Satisfies(request, MissingToCurrency);
      Fail(MissingToCurrency)
    else if request.dealAmount.None? || !request.dealAmount.value.IsPositive() then
      assert !Satisfies(request, AmountNotPositive);
      Fail(AmountNotPositive)
    else if request.dealTimestamp.None? then
      assert !Satisfies(request, MissingTimestamp);
      Fail(MissingTimestamp)
    else
      Pass
  }

  /** Acceptance spelled out field by field: all five fields present, the three
      strings non-empty, and the amount's exact value above zero. */
  lemma ValidateAcceptsExactly(request: DealRequest)
    ensures Validate(request).Pass? <==>
      && request.dealUniqueId.Some? && request.dealUniqueId.value != ""
      && request.fromCurrency.Some? && request.fromCurrency.value != ""
      && request.toCurrency.Some? && request.toCurrency.value != ""
      && request.dealAmount.Some? && Value(request.dealAmount.value) > 0.0
      && request.dealTimestamp.Some?
  {
  }

  /** A missing and an empty id are both rejected, and before any other check. */
  lemma MissingIdRejectedFirst(request: DealRequest)
    requires request.dealUniqueId == None || request.dealUniqueId == Some("")
    ensures Validate(request) == Fail(MissingDealId)
    ensures Message(Validate(request).error) == "dealUniqueId is required"
  {
  }

  /** A null amount and a zero or negative amount meet the same check and the
      same message, provided the fields before it are well-formed. */
  lemma AmountReasonShared(request: DealRequest)
    requires Present(request.dealUniqueId) && Present(request.fromCurrency) && Present(request.toCurrency)
    requires request.dealAmount.None? || Value(request.dealAmount.value) <= 0.0
    ensures Validate(request) == Fail(AmountNotPositive)
    ensures Message(Validate(request).error) == "dealAmount must be > 0"
  {
  }

  /** A missing timestamp is the last check: it is reported only when
      everything else is well-formed. */
  lemma MissingTimestampReported(request: DealRequest)
    ensures Validate(request) == Fail(MissingTimestamp) <==>
      request.dealTimestamp.None? && forall e :: e != MissingTimestamp ==> Satisfies(request, e)
  {
  }

  /** A well-formed request with the smallest tested amount, 0.01, passes. */
  lemma SmallestTestedAmountAccepted(id: string, from: string, to: string, at: Timestamp)
    requires id != "" && from != "" && to != ""
    ensures Validate(DealRequest(Some(id), Some(from), Some(to), Some(Decimal(1, 2)), Some(at))).Pass?
  {
  }

  /** An id made only of blanks passes the id check, because only emptiness is
      tested. */
  lemma BlankIdPassesIdCheck(request: DealRequest)
    requires request.dealUniqueId == Some("   ")
    ensures Validate(request) != Fail(MissingDealId)
  {
  }
}
