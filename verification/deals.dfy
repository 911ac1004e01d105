/** The five-field deal record in its three roles: the incoming request, the
    persisted entity and the outgoing response. Every field may be absent,
    because the Java getters may return `null`. */
module Deals {
  import opened Wrappers

  /** Ten to the power `n`. */
  function Pow10(n: nat): (r: nat)
    ensures r >= 1
  {
    if n == 0 then 1 else 10 * Pow10(n - 1)
  }

  /** An exact decimal in the shape of Java's `BigDecimal`: the number
      `unscaled * 10^(-scale)`; a negative scale multiplies by a power of ten. */
  datatype Decimal = Decimal(unscaled: int, scale: int) {

    /** The exact sign test the validator needs: strictly above zero. */
    predicate IsPositive() {
      unscaled > 0
    }
  }

  /** The number a decimal denotes, as a real. */
  ghost function Value(d: Decimal): real {
    if d.scale >= 0 then d.unscaled as real / Pow10(d.scale) as real
    else (d.unscaled * Pow10(-d.scale)) as real
  }

  /** The sign test on the unscaled digits agrees with the number's value,
      whatever the scale. */
  lemma IsPositiveMeansValueAboveZero(d: Decimal)
    ensures d.IsPositive() <==> Value(d) > 0.0
  {
  }

  /** A point in time (Java's `LocalDateTime`). The model only asks whether it is
      present and copies it unchanged, so its representation is immaterial. */
  datatype Timestamp = Timestamp(instant: int)

  /** The create request as the validator, service and controller read it. */
  datatype DealRequest = DealRequest(
    dealUniqueId: Option<string>,
    fromCurrency: Option<string>,
    toCurrency: Option<string>,
    dealAmount: Option<Decimal>,
    dealTimestamp: Option<Timestamp>)

  /** The persisted deal entity. The store-assigned surrogate key is not modelled. */
  datatype Deal = Deal(
    dealUniqueId: Option<string>,
    fromCurrency: Option<string>,
    toCurrency: Option<string>,
    dealAmount: Option<Decimal>,
    dealTimestamp: Option<Timestamp>)

  /** The body of a successful create response. */
  datatype DealResponse = DealResponse(
    dealUniqueId: Option<string>,
    fromCurrency: Option<string>,
    toCurrency: Option<string>,
    dealAmount: Option<Decimal>,
    dealTimestamp: Option<Timestamp>)

  /** The request carries the same five values as the entity. */
  predicate RequestMatchesDeal(request: DealRequest, deal: Deal) {
    && request.dealUniqueId == deal.dealUniqueId
    && request.fromCurrency == deal.fromCurrency
    && request.toCurrency == deal.toCurrency
    && request.dealAmount == deal.dealAmount
    && request.dealTimestamp == deal.dealTimestamp
  }

  /** The response carries the same five values as the entity. */
  predicate ResponseMatchesDeal(response: DealResponse, deal: Deal) {
    && response.dealUniqueId == deal.dealUniqueId
    && response.fromCurrency == deal.fromCurrency
    && response.toCurrency == deal.toCurrency
    && response.dealAmount == deal.dealAmount
    && response.dealTimestamp == deal.dealTimestamp
  }

  /** The service's request-to-entity conversion: a fresh entity whose five
      setters are fed from the request's five getters. */
  function ToEntity(request: DealRequest): (deal: Deal)
    ensures RequestMatchesDeal(request, deal)
  {
    Deal(request.dealUniqueId, request.fromCurrency, request.toCurrency,
         request.dealAmount, request.dealTimestamp)
  }

  /** The controller's entity-to-response conversion. */
  function ToResponse(deal: Deal): (response: DealResponse)
    ensures ResponseMatchesDeal(response, deal)
  {
    DealResponse(deal.dealUniqueId, deal.fromCurrency, deal.toCurrency,
                 deal.dealAmount, deal.dealTimestamp)
  }
}
