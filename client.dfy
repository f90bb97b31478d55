/**
 * `BinanceFuturesClient`: the symbol lookup over the exchange's symbol list, and the
 * connectivity probe. The exchange itself is an input: what `futures_exchange_info()`
 * and `futures_ping()` returned or raised.
 */
module Client {
  import opened Wrappers
  import opened PyValues
  import opened Validators

  /** The index of the first entry whose symbol is exactly `symbol`, scanning from `from`. */
  function FindSymbol(symbols: seq<SymbolInfo>, symbol: string, from: nat): (r: Option<nat>)
    requires from <= |symbols|
    ensures r.Some? ==> from <= r.value < |symbols| && symbols[r.value].symbol == symbol
    ensures r.Some? ==> forall j :: from <= j < r.value ==> symbols[j].symbol != symbol
    ensures r.None? ==> forall j :: from <= j < |symbols| ==> symbols[j].symbol != symbol
    decreases |symbols| - from
  {
    if from == |symbols| then None
    else if symbols[from].symbol == symbol then Some(from)
    else FindSymbol(symbols, symbol, from + 1)
  }

  /**
   * `get_symbol_info(symbol)`: the first entry of `exchange_info['symbols']` with that
   * symbol, else ValueError; an exception from fetching the exchange info propagates.
   */
  function GetSymbolInfo(exchangeInfo: Result<seq<SymbolInfo>, PyError>, symbol: string): (r: Result<SymbolInfo, PyError>)
    ensures exchangeInfo.Failure? ==> r == Failure(exchangeInfo.error)
  {
    match exchangeInfo
    case Failure(e) => Failure(e)
    case Success(symbols) =>
      match FindSymbol(symbols, symbol, 0)
      case Some(i) => Success(symbols[i])
      case None => Failure(ValueErr("Symbol " + symbol + " not found"))
  }

  /** The lookup returns an entry of the list itself, the first with exactly that symbol. */
  lemma GetSymbolInfoFirstMatch(symbols: seq<SymbolInfo>, symbol: string)
    ensures GetSymbolInfo(Success(symbols), symbol).Success? <==> exists i :: 0 <= i < |symbols| && symbols[i].symbol == symbol
    ensures GetSymbolInfo(Success(symbols), symbol).Success? ==>
      exists i :: 0 <= i < |symbols| && symbols[i] == GetSymbolInfo(Success(symbols), symbol).value
        && symbols[i].symbol == symbol && forall j :: 0 <= j < i ==> symbols[j].symbol != symbol
  {
    var r := FindSymbol(symbols, symbol, 0);
    if r.Some? {
      assert symbols[r.value] == GetSymbolInfo(Success(symbols), symbol).value;
    }
  }

  /** With no matching entry the lookup raises ValueError("Symbol <symbol> not found"). */
  lemma GetSymbolInfoNotFound(symbols: seq<SymbolInfo>, symbol: string)
    requires forall i :: 0 <= i < |symbols| ==> symbols[i].symbol != symbol
    ensures GetSymbolInfo(Success(symbols), symbol) == Failure(PyError(ValueError, "Symbol " + symbol + " not found"))
  {
  }

  /** `test_connectivity()`: True when the ping returned, False when it raised; it never raises. */
  function TestConnectivity(ping: Result<(), PyError>): (connected: bool)
    ensures connected <==> ping.Success?
  {
    match ping
    case Success(_) => true
    case Failure(_) => false
  }
}
