/**
 * `OrderManager.place_order`: a fixed chain of checks, each raising ValueError on
 * failure, then the order-parameter dictionary and the single call that submits it.
 * The exchange is an input: what it answers to the symbol lookup and to the order.
 */
module Orders {
  import opened Wrappers
  import opened PyText
  import opened PyValues
  import opened Validators
  import opened Client

  /** The keyword arguments of `futures_create_order`. */
  type OrderParams = map<string, Value>

  /** A request `place_order` makes of the exchange. */
  datatype ExchangeCall =
    | ExchangeInfoRequest
    | CreateOrderRequest(params: OrderParams)

  /** The exchange's answers: to `futures_exchange_info()` and to `futures_create_order(...)`. */
  datatype Exchange = Exchange(exchangeInfo: Result<seq<SymbolInfo>, PyError>, createOrder: Result<Value, PyError>)

  /** The requests made, in order, and what `place_order` returned or raised. */
  datatype Placement = Placement(calls: seq<ExchangeCall>, outcome: Result<Value, PyError>)

  /** Python binds these names to `place_order`'s own parameters, so `**kwargs` can never hold them. */
  predicate KwargsAllowed(kwargs: OrderParams) {
    forall k :: k in kwargs ==> k !in ["self", "symbol", "side", "order_type", "quantity", "price"]
  }

  predicate IsLimit(orderType: string) {
    Upper(orderType) == "LIMIT"
  }

  /** The dictionary built once every check has passed, before `update(kwargs)`. */
  function BaseParams(symbol: string, side: string, orderType: string, quantity: Scaled, price: Scaled): (p: OrderParams)
    ensures "symbol" in p && "side" in p && "type" in p && "quantity" in p
    ensures ("price" in p <==> IsLimit(orderType)) && ("timeInForce" in p <==> IsLimit(orderType))
  {
    var params := map["symbol" := Str(symbol), "side" := Str(Upper(side)),
                      "type" := Str(Upper(orderType)), "quantity" := Float(quantity)];
    if IsLimit(orderType) then params["price" := Float(price)]["timeInForce" := Str("GTC")]
    else params
  }

  function Fail(calls: seq<ExchangeCall>, message: string): Placement {
    Placement(calls, Failure(ValueErr(message)))
  }

  /** `place_order(symbol, side, order_type, quantity, price, **kwargs)`. */
  function PlaceOrder(symbol: string, side: string, orderType: string, quantity: Scaled,
                      price: Option<Scaled>, kwargs: OrderParams, ex: Exchange): (r: Placement)
    requires KwargsAllowed(kwargs)
    ensures |r.calls| <= 2
    ensures r.calls != [] ==> r.calls[0] == ExchangeInfoRequest
  {
    if !ValidateSymbol(symbol) then Fail([], "Invalid symbol: " + symbol)
    else if !ValidateSide(side) then Fail([], "Invalid side: " + side)
    else if !ValidateOrderType(orderType) then Fail([], "Invalid order type: " + orderType)
    else
      var lookup := [ExchangeInfoRequest];
      match GetSymbolInfo(ex.exchangeInfo, symbol)
      case Failure(e) => Placement(lookup, Failure(e))
      case Success(info) =>
        match ValidateQuantity(quantity, Some(info))
        case Failure(e) => Placement(lookup, Failure(e))
        case Success(false) => Fail(lookup, "Invalid quantity: " + FloatRepr(quantity))
        case Success(true) =>
          if IsLimit(orderType) && price.None? then Fail(lookup, "Price is required for LIMIT orders")
          else
            var p := price.GetOr(0);
            match (if IsLimit(orderType) then ValidatePrice(p, orderType, Some(info)) else Success(true))
            case Failure(e) => Placement(lookup, Failure(e))
            case Success(false) => Fail(lookup, "Invalid price: " + FloatRepr(p))
            case Success(true) =>
              var params := BaseParams(symbol, side, orderType, quantity, p) + kwargs;
              Placement(lookup + [CreateOrderRequest(params)], ex.createOrder)
  }

  /** The order is submitted when this holds, stated on the meaning of each check. */
  predicate Accepted(symbol: string, side: string, orderType: string, quantity: Scaled, price: Option<Scaled>, ex: Exchange) {
    && ValidateSymbol(symbol)
    && (MatchesIgnoringCase(side, "BUY") || MatchesIgnoringCase(side, "SELL"))
    && (MatchesIgnoringCase(orderType, "MARKET") || MatchesIgnoringCase(orderType, "LIMIT"))
    && GetSymbolInfo(ex.exchangeInfo, symbol).Success?
    && quantity > 0 && AllFit(quantity, GetSymbolInfo(ex.exchangeInfo, symbol).value.filters, LOT_SIZE)
    && (IsLimit(orderType) ==>
          price.Some? && price.value > 0 && AllFit(price.value, GetSymbolInfo(ex.exchangeInfo, symbol).value.filters, PRICE_FILTER))
  }

  predicate Submitted(r: Placement) {
    exists i :: 0 <= i < |r.calls| && r.calls[i].CreateOrderRequest?
  }

  /** `futures_create_order` is called exactly when every check accepts, and then its answer is returned. */
  lemma PlaceOrderSubmitsIffAccepted(symbol: string, side: string, orderType: string, quantity: Scaled,
                                     price: Option<Scaled>, kwargs: OrderParams, ex: Exchange)
    requires KwargsAllowed(kwargs)
    ensures Submitted(PlaceOrder(symbol, side, orderType, quantity, price, kwargs, ex)) <==>
      Accepted(symbol, side, orderType, quantity, price, ex)
    ensures Submitted(PlaceOrder(symbol, side, orderType, quantity, price, kwargs, ex)) ==>
      PlaceOrder(symbol, side, orderType, quantity, price, kwargs, ex).outcome == ex.createOrder
    ensures !Submitted(PlaceOrder(symbol, side, orderType, quantity, price, kwargs, ex)) ==>
      PlaceOrder(symbol, side, orderType, quantity, price, kwargs, ex).outcome.Failure?
  {
    ValidateSideIgnoresCase(side);
    ValidateOrderTypeIgnoresCase(orderType);
    var r := PlaceOrder(symbol, side, orderType, quantity, price, kwargs, ex);
    var info := GetSymbolInfo(ex.exchangeInfo, symbol);
    if info.Success? {
      ValidateQuantityAccepts(quantity, Some(info.value));
      if IsLimit(orderType) && price.Some? {
        ValidatePriceAccepts(price.value, orderType, Some(info.value));
      }
    }
    if Submitted(r) {
      var i :| 0 <= i < |r.calls| && r.calls[i].CreateOrderRequest?;
      assert i == 1;
    }
    if Accepted(symbol, side, orderType, quantity, price, ex) {
      assert r.calls[1].CreateOrderRequest?;
    }
  }

  /** The symbol lookup happens only once symbol, side and type have all passed. */
  lemma PlaceOrderLooksUpAfterGuards(symbol: string, side: string, orderType: string, quantity: Scaled,
                                     price: Option<Scaled>, kwargs: OrderParams, ex: Exchange)
    requires KwargsAllowed(kwargs)
    ensures PlaceOrder(symbol, side, orderType, quantity, price, kwargs, ex).calls != [] <==>
      ValidateSymbol(symbol) && ValidateSide(side) && ValidateOrderType(orderType)
  {
  }

  /** The first failing guard decides the message, whatever the later inputs are. */
  lemma PlaceOrderGuardOrder(symbol: string, side: string, orderType: string, quantity: Scaled,
                             price: Option<Scaled>, kwargs: OrderParams, ex: Exchange)
    requires KwargsAllowed(kwargs)
    ensures var r := PlaceOrder(symbol, side, orderType, quantity, price, kwargs, ex);
      && (!ValidateSymbol(symbol) ==> r == Placement([], Failure(PyError(ValueError, "Invalid symbol: " + symbol))))
      && (ValidateSymbol(symbol) && !ValidateSide(side) ==> r.outcome == Failure(PyError(ValueError, "Invalid side: " + side)))
      && (ValidateSymbol(symbol) && ValidateSide(side) && !ValidateOrderType(orderType) ==>
            r.outcome == Failure(PyError(ValueError, "Invalid order type: " + orderType)))
      && (ValidateSymbol(symbol) && ValidateSide(side) && ValidateOrderType(orderType)
          && GetSymbolInfo(ex.exchangeInfo, symbol).Failure? ==>
            r.outcome == Failure(GetSymbolInfo(ex.exchangeInfo, symbol).error))
  {
  }

  /** Once the lookup succeeded, the quantity is checked before the price, each failure with its own message. */
  lemma PlaceOrderValueChecks(symbol: string, side: string, orderType: string, quantity: Scaled,
                              price: Option<Scaled>, kwargs: OrderParams, ex: Exchange, info: SymbolInfo)
    requires KwargsAllowed(kwargs)
    requires ValidateSymbol(symbol) && ValidateSide(side) && ValidateOrderType(orderType)
    requires GetSymbolInfo(ex.exchangeInfo, symbol) == Success(info)
    ensures var r := PlaceOrder(symbol, side, orderType, quantity, price, kwargs, ex);
      && (ValidateQuantity(quantity, Some(info)) == Success(false) ==>
            r.outcome == Failure(PyError(ValueError, "Invalid quantity: " + FloatRepr(quantity))))
      && (ValidateQuantity(quantity, Some(info)) == Success(true) && IsLimit(orderType) && price.Some?
          && ValidatePrice(price.value, orderType, Some(info)) == Success(false) ==>
            r.outcome == Failure(PyError(ValueError, "Invalid price: " + FloatRepr(price.value))))
  {
  }

  /** A LIMIT order without a price fails with this message before the price is ever checked. */
  lemma LimitWithoutPrice(symbol: string, side: string, orderType: string, quantity: Scaled,
                          kwargs: OrderParams, ex: Exchange)
    requires KwargsAllowed(kwargs) && IsLimit(orderType)
    requires ValidateSymbol(symbol) && ValidateSide(side)
    requires GetSymbolInfo(ex.exchangeInfo, symbol).Success?
    requires ValidateQuantity(quantity, Some(GetSymbolInfo(ex.exchangeInfo, symbol).value)) == Success(true)
    ensures PlaceOrder(symbol, side, orderType, quantity, None, kwargs, ex).outcome ==
      Failure(PyError(ValueError, "Price is required for LIMIT orders"))
  {
  }

  /**
   * Every failure is a check's ValueError or an exception raised further down, and each
   * exception the lookup, a validator or the exchange raises is the outcome unchanged:
   * none is turned into a return value.
   */
  lemma PlaceOrderNeverSwallows(symbol: string, side: string, orderType: string, quantity: Scaled,
                                price: Option<Scaled>, kwargs: OrderParams, ex: Exchange)
    requires KwargsAllowed(kwargs)
    ensures var r := PlaceOrder(symbol, side, orderType, quantity, price, kwargs, ex);
      r.outcome.Failure? ==>
        || r.outcome.error.kind == ValueError
        || r.outcome.error.kind == ZeroDivisionError
        || (ex.exchangeInfo.Failure? && r.outcome.error == ex.exchangeInfo.error)
        || r.outcome == ex.createOrder
    ensures var r := PlaceOrder(symbol, side, orderType, quantity, price, kwargs, ex);
      var info := GetSymbolInfo(ex.exchangeInfo, symbol);
      ValidateSymbol(symbol) && ValidateSide(side) && ValidateOrderType(orderType) ==>
        && (info.Failure? ==> r.outcome == Failure(info.error))
        && (info.Success? && ValidateQuantity(quantity, Some(info.value)).Failure? ==>
              r.outcome == Failure(ValidateQuantity(quantity, Some(info.value)).error))
        && (info.Success? && ValidateQuantity(quantity, Some(info.value)) == Success(true)
            && IsLimit(orderType) && price.Some? && ValidatePrice(price.value, orderType, Some(info.value)).Failure? ==>
              r.outcome == Failure(ValidatePrice(price.value, orderType, Some(info.value)).error))
        && (Submitted(r) ==> r.outcome == ex.createOrder)
  {
    PlaceOrderSubmitsIffAccepted(symbol, side, orderType, quantity, price, kwargs, ex);
  }

  /** What a submitted order carries. */
  lemma SubmittedParams(symbol: string, side: string, orderType: string, quantity: Scaled,
                        price: Option<Scaled>, kwargs: OrderParams, ex: Exchange, params: OrderParams)
    requires KwargsAllowed(kwargs)
    requires CreateOrderRequest(params) in PlaceOrder(symbol, side, orderType, quantity, price, kwargs, ex).calls
    ensures params["symbol"] == Str(symbol) && params["quantity"] == Float(quantity)
    ensures params["side"] == Str("BUY") || params["side"] == Str("SELL")
    ensures params["side"] == Str(Upper(side))
    ensures params["type"] == if "type" in kwargs then kwargs["type"] else Str(Upper(orderType))
    ensures IsLimit(orderType) ==> price.Some? && params["price"] == Float(price.value)
    ensures IsLimit(orderType) ==>
      params["timeInForce"] == if "timeInForce" in kwargs then kwargs["timeInForce"] else Str("GTC")
    ensures !IsLimit(orderType) ==> "price" !in params && ("timeInForce" in params <==> "timeInForce" in kwargs)
    ensures forall k :: k in kwargs ==> k in params && params[k] == kwargs[k]
    ensures params.Keys == BaseParams(symbol, side, orderType, quantity, price.GetOr(0)).Keys + kwargs.Keys
  {
    SubmittedAfterChecks(symbol, side, orderType, quantity, price, kwargs, ex, params);
    MergedParams(symbol, side, orderType, quantity, price.GetOr(0), kwargs);
  }

  /** The submitted dictionary is the base parameters updated by `kwargs`, built only after the checks passed. */
  lemma SubmittedAfterChecks(symbol: string, side: string, orderType: string, quantity: Scaled,
                             price: Option<Scaled>, kwargs: OrderParams, ex: Exchange, params: OrderParams)
    requires KwargsAllowed(kwargs)
    requires CreateOrderRequest(params) in PlaceOrder(symbol, side, orderType, quantity, price, kwargs, ex).calls
    ensures ValidateSide(side) && (IsLimit(orderType) ==> price.Some?)
    ensures params == BaseParams(symbol, side, orderType, quantity, price.GetOr(0)) + kwargs
  {
  }

  /** `params.update(kwargs)` on the base parameters of a checked side. */
  lemma MergedParams(symbol: string, side: string, orderType: string, quantity: Scaled, price: Scaled, kwargs: OrderParams)
    requires KwargsAllowed(kwargs) && ValidateSide(side)
    ensures var params := BaseParams(symbol, side, orderType, quantity, price) + kwargs;
      && params["symbol"] == Str(symbol) && params["quantity"] == Float(quantity)
      && (params["side"] == Str("BUY") || params["side"] == Str("SELL"))
      && params["side"] == Str(Upper(side))
      && params["type"] == (if "type" in kwargs then kwargs["type"] else Str(Upper(orderType)))
      && (IsLimit(orderType) ==> params["price"] == Float(price))
      && (IsLimit(orderType) ==>
            params["timeInForce"] == if "timeInForce" in kwargs then kwargs["timeInForce"] else Str("GTC"))
      && (!IsLimit(orderType) ==> "price" !in params && ("timeInForce" in params <==> "timeInForce" in kwargs))
      && (forall k :: k in kwargs ==> k in params && params[k] == kwargs[k])
      && params.Keys == BaseParams(symbol, side, orderType, quantity, price).Keys + kwargs.Keys
  {
  }
}
