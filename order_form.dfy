/**
 * The estimated cost of the order form, on already-parsed numbers: `parseFloat` of a
 * field is a `real`, or None where it yields NaN.
 */
module OrderForm {
  import opened Wrappers

  /** `parseFloat(text) || 0`: NaN and zero both become 0. */
  function OrZero(x: Option<real>): (r: real)
    ensures x.None? ==> r == 0.0
    ensures x.Some? ==> r == x.value
  {
    match x
    case None => 0.0
    case Some(v) => v
  }

  /**
   * `calculateEstimatedCost()`: quantity times the limit price for a LIMIT order and the
   * current market price otherwise, each unparsable number counting as 0.
   */
  function SummaryCost(orderType: string, quantity: Option<real>, limitPrice: Option<real>, currentPrice: Option<real>): real {
    OrZero(quantity) * (if orderType == "LIMIT" then OrZero(limitPrice) else OrZero(currentPrice))
  }

  /** The summary never shows NaN: an unreadable input makes the cost 0. */
  lemma SummaryCostZeroWhenUnreadable(orderType: string, quantity: Option<real>, limitPrice: Option<real>, currentPrice: Option<real>)
    ensures quantity.None? ==> SummaryCost(orderType, quantity, limitPrice, currentPrice) == 0.0
    ensures orderType == "LIMIT" && limitPrice.None? ==> SummaryCost(orderType, quantity, limitPrice, currentPrice) == 0.0
    ensures orderType != "LIMIT" && currentPrice.None? ==> SummaryCost(orderType, quantity, limitPrice, currentPrice) == 0.0
  {
  }

  /** Which price the summary multiplies by: the limit field only for a LIMIT order. */
  lemma SummaryPriceChoice(orderType: string, q: real, limitPrice: Option<real>, currentPrice: Option<real>)
    ensures orderType == "LIMIT" ==> SummaryCost(orderType, Some(q), limitPrice, currentPrice) == q * OrZero(limitPrice)
    ensures orderType != "LIMIT" ==> SummaryCost(orderType, Some(q), limitPrice, currentPrice) == q * OrZero(currentPrice)
    ensures orderType != "LIMIT" ==> forall p :: SummaryCost(orderType, Some(q), p, currentPrice) == SummaryCost(orderType, Some(q), limitPrice, currentPrice)
  {
  }

  /**
   * The cost in `showOrderConfirmation`: `parseFloat(quantity) * (parseFloat(price) ||
   * parseFloat(currentPrice))`, None standing for NaN. The entered price is used whenever it
   * is a nonzero number, whatever the order type.
   */
  function ModalCost(quantity: Option<real>, price: Option<real>, currentPrice: Option<real>): (r: Option<real>)
    ensures r.Some? <==> quantity.Some? && ((price.Some? && price.value != 0.0) || currentPrice.Some?)
  {
    var chosen := if price.Some? && price.value != 0.0 then price else currentPrice;
    if quantity.Some? && chosen.Some? then Some(quantity.value * chosen.value) else None
  }

  /**
   * The summary and the modal agree on a LIMIT order with a nonzero price and on a MARKET
   * order whose price field is empty or zero, provided the quantity is a number and both read
   * the same current price.
   */
  lemma SummaryAgreesWithModal(orderType: string, q: real, price: Option<real>, currentPrice: real)
    requires (orderType == "LIMIT" && price.Some? && price.value != 0.0) ||
             (orderType != "LIMIT" && (price.None? || price.value == 0.0))
    ensures ModalCost(Some(q), price, Some(currentPrice)) == Some(SummaryCost(orderType, Some(q), price, Some(currentPrice)))
  {
    if orderType == "LIMIT" {
      assert ModalCost(Some(q), price, Some(currentPrice)).value == q * price.value;
    } else {
      assert ModalCost(Some(q), price, Some(currentPrice)).value == q * currentPrice;
      assert SummaryCost(orderType, Some(q), price, Some(currentPrice)) == q * currentPrice;
    }
  }

  /** A MARKET order with a price left in the hidden price field: the modal multiplies by that price, the summary by the market price. */
  lemma ModalUsesStalePrice(q: real, p: real, currentPrice: real)
    requires q != 0.0 && p != 0.0 && p != currentPrice
    ensures ModalCost(Some(q), Some(p), Some(currentPrice)) == Some(q * p)
    ensures SummaryCost("MARKET", Some(q), Some(p), Some(currentPrice)) == q * currentPrice
    ensures ModalCost(Some(q), Some(p), Some(currentPrice)) != Some(SummaryCost("MARKET", Some(q), Some(p), Some(currentPrice)))
  {
    assert ModalCost(Some(q), Some(p), Some(currentPrice)).value == q * p;
    assert q * p != q * currentPrice;
  }
}
