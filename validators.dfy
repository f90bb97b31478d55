/**
 * `OrderValidator`: the accept/reject predicates for symbol, side, order type,
 * quantity and price, the last two checked against the exchange's LOT_SIZE and
 * PRICE_FILTER filters.
 */
module Validators {
  import opened Wrappers
  import opened PyText
  import opened PyValues

  // ---------------------------------------------------------------- exchange filters

  /** One entry of a symbol's `filters` list; the three numbers already read with `float`. */
  datatype Filter =
    | LotSize(minQty: Scaled, maxQty: Scaled, stepSize: Scaled)
    | PriceFilter(minPrice: Scaled, maxPrice: Scaled, tickSize: Scaled)
    /** Any entry whose `filterType` is neither "LOT_SIZE" nor "PRICE_FILTER"; those two are always read as the constructors above. */
    | OtherFilter(filterType: string)

  /** One entry of `exchange_info['symbols']`. */
  datatype SymbolInfo = SymbolInfo(symbol: string, filters: seq<Filter>)

  /** The `filterType` a check looks for. */
  datatype FilterType = LOT_SIZE | PRICE_FILTER

  /** The bounds and step of a filter: values lo, lo + step, lo + 2 step, ... up to hi. */
  datatype Grid = Grid(lo: Scaled, hi: Scaled, step: Scaled)

  /** The grid of `f` when its type is `t`. */
  function Selected(t: FilterType, f: Filter): (g: Option<Grid>)
    ensures g.Some? <==> (t == LOT_SIZE && f.LotSize?) || (t == PRICE_FILTER && f.PriceFilter?)
  {
    match f
    case LotSize(lo, hi, step) => if t == LOT_SIZE then Some(Grid(lo, hi, step)) else None
    case PriceFilter(lo, hi, step) => if t == PRICE_FILTER then Some(Grid(lo, hi, step)) else None
    case OtherFilter(_) => None
  }

  /**
   * Python's `a % b` on floats: the remainder takes the sign of `b`. On scaled values
   * the remainder is a whole number of units, so `remainder > 1e-10` is `remainder > 0`.
   */
  function PyMod(a: int, b: int): (r: int)
    requires b != 0
    ensures b > 0 ==> r == a % b && 0 <= r < b
    ensures b < 0 ==> b < r <= 0 && (r == 0 <==> a % b == 0) && (a - r) % b == 0
  {
    var e := a % b;
    if b < 0 && e != 0 then NegativeStep(a, b); e + b else e
  }

  /** The only multiple of a negative b in [0, -b) is 0. */
  lemma SmallMultiple(b: int, k: int, r: int)
    requires b < 0 && r == b * k && 0 <= r < -b
    ensures r == 0
  {
  }

  /** Moving the remainder down by a negative step keeps its difference from a a multiple of the step. */
  lemma NegativeStep(a: int, b: int)
    requires b < 0 && a % b != 0
    ensures (a - (a % b + b)) % b == 0
  {
    var y := a - (a % b + b);
    var q := a / b;
    assert a == b * q + a % b;
    assert y == b * (q - 1);
    var d := y / b;
    assert y == b * d + y % b;
    assert y % b == b * (q - 1 - d);
    SmallMultiple(b, q - 1 - d, y % b);
  }

  /** What an accepted value satisfies for one filter. */
  predicate FitsGrid(x: Scaled, g: Grid) {
    g.lo <= x <= g.hi && (g.step > 0 ==> (x - g.lo) % g.step == 0)
  }

  /**
   * The loop over `symbol_info['filters']`: every filter of type `t` checks the bounds and
   * the step; the first failure returns False, and a zero step raises ZeroDivisionError.
   */
  function CheckFilters(x: Scaled, fs: seq<Filter>, t: FilterType): (r: Result<bool, PyError>)
    ensures r.Failure? ==> r.error.kind == ZeroDivisionError
    decreases |fs|
  {
    if fs == [] then Success(true)
    else match Selected(t, fs[0])
      case None => CheckFilters(x, fs[1..], t)
      case Some(g) =>
        if x < g.lo then Success(false)
        else if x > g.hi then Success(false)
        else if g.step == 0 then Failure(PyError(ZeroDivisionError, "float modulo"))
        else if PyMod(x - g.lo, g.step) > 0 then Success(false)
        else CheckFilters(x, fs[1..], t)
  }

  /** Every filter of type `t` admits `x` and has a non-zero step. */
  predicate AllFit(x: Scaled, fs: seq<Filter>, t: FilterType) {
    forall i :: 0 <= i < |fs| && Selected(t, fs[i]).Some? ==>
      FitsGrid(x, Selected(t, fs[i]).value) && Selected(t, fs[i]).value.step != 0
  }

  /** The filter check passes exactly when every filter of the type admits the value. */
  lemma {:induction false} CheckFiltersAccepts(x: Scaled, fs: seq<Filter>, t: FilterType)
    ensures CheckFilters(x, fs, t) == Success(true) <==> AllFit(x, fs, t)
    decreases |fs|
  {
    if fs != [] {
      CheckFiltersAccepts(x, fs[1..], t);
      var g := Selected(t, fs[0]);
      if g.Some? && g.value.step != 0 && g.value.lo <= x <= g.value.hi {
        var m := PyMod(x - g.value.lo, g.value.step);
        assert g.value.step > 0 ==> (m == 0 <==> (x - g.value.lo) % g.value.step == 0);
      }
      assert forall i :: 1 <= i < |fs| ==> fs[i] == fs[1..][i - 1];
    }
  }

  predicate ZeroStepAdmits(x: Scaled, g: Grid) {
    g.step == 0 && g.lo <= x <= g.hi
  }

  /** ZeroDivisionError is raised only by a filter of the type whose step is zero and whose bounds admit the value. */
  lemma {:induction false} CheckFiltersRaises(x: Scaled, fs: seq<Filter>, t: FilterType)
    requires CheckFilters(x, fs, t).Failure?
    ensures exists i :: 0 <= i < |fs| && Selected(t, fs[i]).Some? && ZeroStepAdmits(x, Selected(t, fs[i]).value)
    decreases |fs|
  {
    var g := Selected(t, fs[0]);
    if g.Some? && g.value.lo <= x <= g.value.hi && g.value.step == 0 {
      assert ZeroStepAdmits(x, Selected(t, fs[0]).value);
    } else {
      CheckFiltersRaises(x, fs[1..], t);
      var i :| 0 <= i < |fs[1..]| && Selected(t, fs[1..][i]).Some? && ZeroStepAdmits(x, Selected(t, fs[1..][i]).value);
      assert fs[1..][i] == fs[i + 1];
    }
  }

  /** Filters of other types never change the outcome. */
  lemma {:induction false} CheckFiltersIgnoresOthers(x: Scaled, fs: seq<Filter>, f: Filter, t: FilterType)
    requires Selected(t, f).None?
    ensures CheckFilters(x, [f] + fs, t) == CheckFilters(x, fs, t)
  {
    assert ([f] + fs)[1..] == fs;
  }

  /** A filter of another type is skipped wherever it stands in the list. */
  lemma {:induction false} CheckFiltersSkipsOther(x: Scaled, a: seq<Filter>, f: Filter, b: seq<Filter>, t: FilterType)
    requires Selected(t, f).None?
    ensures CheckFilters(x, a + [f] + b, t) == CheckFilters(x, a + b, t)
    decreases |a|
  {
    if a == [] {
      assert a + [f] + b == [f] + b && a + b == b;
      CheckFiltersIgnoresOthers(x, b, f, t);
    } else {
      assert (a + [f] + b)[0] == a[0] && (a + b)[0] == a[0];
      assert (a + [f] + b)[1..] == a[1..] + [f] + b;
      assert (a + b)[1..] == a[1..] + b;
      CheckFiltersSkipsOther(x, a[1..], f, b, t);
    }
  }

  // ---------------------------------------------------------------- symbol

  predicate AllUpper(s: string) {
    forall i :: 0 <= i < |s| ==> IsAsciiUpper(s[i])
  }

  /**
   * `re.match(r'^[A-Z]{3,10}[A-Z]{3,10}$', symbol)`: two runs of 3 to 10 letters A-Z,
   * then the end of the text or a single newline that ends it.
   */
  predicate ValidateSymbol(symbol: string) {
    exists a: int, b: int :: 3 <= a <= 10 && 3 <= b <= 10 && SymbolMatch(symbol, a, b)
  }

  /** The pattern matches with the first run `a` letters long and the second `b`. */
  predicate SymbolMatch(symbol: string, a: nat, b: nat) {
    3 <= a <= 10 && 3 <= b <= 10 && a + b <= |symbol|
    && AllUpper(symbol[..a]) && AllUpper(symbol[a..a + b])
    && (a + b == |symbol| || (a + b + 1 == |symbol| && symbol[a + b] == '\n'))
  }

  /** The symbol without the one trailing newline `$` admits. */
  function SymbolBody(symbol: string): (body: string)
    ensures body == symbol || body + "\n" == symbol
  {
    if |symbol| > 0 && symbol[|symbol| - 1] == '\n' then symbol[..|symbol| - 1] else symbol
  }

  /** The pattern accepts exactly 6 to 20 letters A-Z, optionally followed by one newline. */
  lemma ValidateSymbolExactly(symbol: string)
    ensures ValidateSymbol(symbol) <==> 6 <= |SymbolBody(symbol)| <= 20 && AllUpper(SymbolBody(symbol))
  {
    var body := SymbolBody(symbol);
    if 6 <= |body| <= 20 && AllUpper(body) {
      var a := |body| / 2;
      var b := |body| - a;
      assert body == symbol[..a + b];
      assert symbol[..a] == body[..a];
      assert symbol[a..a + b] == body[a..];
      assert SymbolMatch(symbol, a, b);
    }
    if ValidateSymbol(symbol) {
      var a: int, b: int :| 3 <= a <= 10 && 3 <= b <= 10 && SymbolMatch(symbol, a, b);
      assert !IsAsciiUpper('\n');
      if a + b == |symbol| {
        assert IsAsciiUpper(symbol[|symbol| - 1]) by {
          assert symbol[|symbol| - 1] == symbol[a..a + b][b - 1];
        }
      }
      assert body == symbol[..a + b];
      forall i | 0 <= i < |body| ensures IsAsciiUpper(body[i]) {
        if i < a { assert body[i] == symbol[..a][i]; }
        else { assert body[i] == symbol[a..a + b][i - a]; }
      }
    }
  }

  // ---------------------------------------------------------------- side and type

  /** `side.upper() in ['BUY', 'SELL']`. */
  predicate ValidateSide(side: string) {
    Upper(side) == "BUY" || Upper(side) == "SELL"
  }

  /** `order_type.upper() in ['MARKET', 'LIMIT']`. */
  predicate ValidateOrderType(orderType: string) {
    Upper(orderType) == "MARKET" || Upper(orderType) == "LIMIT"
  }

  /** The side check ignores case: it accepts the spellings of BUY and SELL and nothing else. */
  lemma ValidateSideIgnoresCase(side: string)
    ensures ValidateSide(side) <==> MatchesIgnoringCase(side, "BUY") || MatchesIgnoringCase(side, "SELL")
  {
    UpperEqualsWord(side, "BUY");
    UpperEqualsWord(side, "SELL");
  }

  /** The type check ignores case: it accepts the spellings of MARKET and LIMIT and nothing else. */
  lemma ValidateOrderTypeIgnoresCase(orderType: string)
    ensures ValidateOrderType(orderType) <==> MatchesIgnoringCase(orderType, "MARKET") || MatchesIgnoringCase(orderType, "LIMIT")
  {
    UpperEqualsWord(orderType, "MARKET");
    UpperEqualsWord(orderType, "LIMIT");
  }

  // ---------------------------------------------------------------- quantity and price

  /** `validate_quantity(quantity, symbol_info)`; None stands for a missing `symbol_info`. */
  function ValidateQuantity(quantity: Scaled, info: Option<SymbolInfo>): (r: Result<bool, PyError>)
    ensures quantity <= 0 ==> r == Success(false)
    ensures info.None? ==> r == Success(quantity > 0)
    ensures r.Failure? ==> r.error.kind == ZeroDivisionError
  {
    if quantity <= 0 then Success(false)
    else match info
      case None => Success(true)
      case Some(si) => CheckFilters(quantity, si.filters, LOT_SIZE)
  }

  /** An accepted quantity is positive and lies on the grid of every LOT_SIZE filter. */
  lemma ValidateQuantityAccepts(quantity: Scaled, info: Option<SymbolInfo>)
    ensures ValidateQuantity(quantity, info) == Success(true) <==>
      quantity > 0 && (info.Some? ==> AllFit(quantity, info.value.filters, LOT_SIZE))
  {
    if info.Some? {
      CheckFiltersAccepts(quantity, info.value.filters, LOT_SIZE);
    }
  }

  /** `validate_price(price, order_type, symbol_info)`: only LIMIT orders are checked. */
  function ValidatePrice(price: Scaled, orderType: string, info: Option<SymbolInfo>): (r: Result<bool, PyError>)
    ensures Upper(orderType) != "LIMIT" ==> r == Success(true)
    ensures Upper(orderType) == "LIMIT" && price <= 0 ==> r == Success(false)
    ensures Upper(orderType) == "LIMIT" && info.None? ==> r == Success(price > 0)
    ensures r.Failure? ==> r.error.kind == ZeroDivisionError
  {
    if Upper(orderType) == "LIMIT" then
      if price <= 0 then Success(false)
      else match info
        case None => Success(true)
        case Some(si) => CheckFilters(price, si.filters, PRICE_FILTER)
    else Success(true)
  }

  /** An accepted LIMIT price is positive and lies on the tick grid of every PRICE_FILTER. */
  lemma ValidatePriceAccepts(price: Scaled, orderType: string, info: Option<SymbolInfo>)
    requires Upper(orderType) == "LIMIT"
    ensures ValidatePrice(price, orderType, info) == Success(true) <==>
      price > 0 && (info.Some? ==> AllFit(price, info.value.filters, PRICE_FILTER))
  {
    if info.Some? {
      CheckFiltersAccepts(price, info.value.filters, PRICE_FILTER);
    }
  }
}
