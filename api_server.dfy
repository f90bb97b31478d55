/**
 * The request-handling rules of the API server: the body validation and error mapping
 * of POST /api/place-order, and the log-line parser of GET /api/logs. The request body,
 * the order manager and the log file's lines are inputs.
 */
module ApiServer {
  import opened Wrappers
  import opened PyText
  import opened PyValues
  import opened Validators
  import opened Orders
  import opened Client

  // ---------------------------------------------------------------- place-order

  /** A JSON reply: HTTP status code, `status`, `message` and, on success, `order`. */
  datatype Response = Response(code: nat, status: string, message: string, order: Option<Value>)

  const REQUIRED_FIELDS: seq<string> := ["symbol", "side", "order_type", "quantity"]

  /** The first of `fields` that the body lacks. */
  function FirstMissing(fields: seq<string>, body: map<string, Value>): (r: Option<nat>)
    ensures r.Some? ==> r.value < |fields| && fields[r.value] !in body
    ensures r.Some? ==> forall j :: 0 <= j < r.value ==> fields[j] in body
    ensures r.None? ==> forall j :: 0 <= j < |fields| ==> fields[j] in body
  {
    if fields == [] then None
    else if fields[0] !in body then Some(0)
    else match FirstMissing(fields[1..], body)
      case None => None
      case Some(i) => Some(i + 1)
  }

  function ErrorReply(code: nat, message: string): Response {
    Response(code, "error", message, None)
  }

  /** The two `except` clauses: ValueError gives 400, any other exception 500, both with `str(e)`. */
  function FromException(e: PyError): (r: Response)
    ensures r.code == (if e.kind == ValueError then 400 else 500)
    ensures r.status == "error" && r.message == e.message && r.order.None?
  {
    ErrorReply(if e.kind == ValueError then 400 else 500, e.message)
  }

  /** `float(data['price']) if data.get('price') else None`. */
  function PriceArgument(body: map<string, Value>, parse: string -> Option<Scaled>): (r: Result<Option<Scaled>, PyError>)
    ensures r == Success(None) <==> !("price" in body && Truthy(body["price"]))
    ensures "price" in body && Truthy(body["price"]) ==>
      match PyFloat(body["price"], parse)
      case Success(x) => r == Success(Some(x))
      case Failure(e) => r == Failure(e)
  {
    if "price" in body && Truthy(body["price"]) then
      match PyFloat(body["price"], parse)
      case Success(x) => Success(Some(x))
      case Failure(e) => Failure(e)
    else Success(None)
  }

  /** The symbol check runs `re.match` on it, which refuses anything but text. */
  function NotText(v: Value): PyError {
    PyError(TypeError, "expected string or bytes-like object, got '" + TypeName(v) + "'")
  }

  /** The four required fields are all present. */
  predicate FieldsPresent(body: map<string, Value>) {
    "symbol" in body && "side" in body && "order_type" in body && "quantity" in body
  }

  lemma FirstMissingNone(body: map<string, Value>)
    ensures FirstMissing(REQUIRED_FIELDS, body).None? <==> FieldsPresent(body)
  {
    var m := FirstMissing(REQUIRED_FIELDS, body);
    if m.None? {
      assert REQUIRED_FIELDS[0] in body && REQUIRED_FIELDS[1] in body;
      assert REQUIRED_FIELDS[2] in body && REQUIRED_FIELDS[3] in body;
    }
  }

  /** `order_manager.place_order(symbol=…, side=…, order_type=…, quantity=…, price=…)`: what it returns or raises. */
  type OrderCall = (string, string, string, Scaled, Option<Scaled>) -> Result<Value, PyError>

  /** The server's order manager, placing orders on the exchange `ex` with no extra arguments. */
  function Manager(ex: Exchange): OrderCall {
    (symbol, side, orderType, quantity, price) => PlaceOrder(symbol, side, orderType, quantity, price, map[], ex).outcome
  }

  /**
   * `place_order()` behind POST /api/place-order, given the decoded JSON body, the order
   * manager (None when the client could not be initialised) and the float syntax.
   */
  function HandlePlaceOrder(body: map<string, Value>, manager: Option<OrderCall>, parse: string -> Option<Scaled>): (r: Response)
    ensures r.code == 200 || r.code == 400 || r.code == 500
    ensures r.code == 200 <==> r.status == "success"
    ensures r.order.Some? <==> r.code == 200
  {
    match FirstMissing(REQUIRED_FIELDS, body)
    case Some(i) => ErrorReply(400, "Missing required field: " + REQUIRED_FIELDS[i])
    case None =>
      FirstMissingNone(body);
      HandleFields(body["symbol"], body["side"], body["order_type"],
                   PyFloat(body["quantity"], parse), PriceArgument(body, parse), manager)
  }

  /**
   * The handler once the fields are read: the quantity and price conversions (already
   * attempted, in that order), the order-type and side checks, then the order manager.
   */
  function HandleFields(symbol: Value, side: Value, orderType: Value, quantity: Result<Scaled, PyError>,
                        price: Result<Option<Scaled>, PyError>, manager: Option<OrderCall>): (r: Response)
    ensures r.code == 200 || r.code == 400 || r.code == 500
    ensures r.code == 200 <==> r.status == "success"
    ensures r.order.Some? <==> r.code == 200
  {
    match quantity
    case Failure(e) => FromException(e)
    case Success(q) =>
      match price
      case Failure(e) => FromException(e)
      case Success(p) =>
        if !orderType.Str? then FromException(NoAttribute(orderType, "upper"))
        else if !ValidateOrderType(orderType.s) then ErrorReply(400, "Invalid order type. Must be MARKET or LIMIT")
        else if !side.Str? then FromException(NoAttribute(side, "upper"))
        else if !ValidateSide(side.s) then ErrorReply(400, "Invalid side. Must be BUY or SELL")
        else match manager
          case None => FromException(NoAttribute(NoneValue, "place_order"))
          case Some(placeOrder) =>
            if !symbol.Str? then FromException(NotText(symbol))
            else match placeOrder(symbol.s, side.s, orderType.s, q, p)
              case Success(order) => Response(200, "success", "Order placed successfully", Some(order))
              case Failure(e) => FromException(e)
  }

  /** The fields are checked in the order symbol, side, order_type, quantity; the first missing one is reported. */
  lemma MissingFieldReported(body: map<string, Value>, manager: Option<OrderCall>, parse: string -> Option<Scaled>, i: nat)
    requires i < |REQUIRED_FIELDS| && REQUIRED_FIELDS[i] !in body
    requires forall j :: 0 <= j < i ==> REQUIRED_FIELDS[j] in body
    ensures HandlePlaceOrder(body, manager, parse) == Response(400, "error", "Missing required field: " + REQUIRED_FIELDS[i], None)
  {
    assert FirstMissing(REQUIRED_FIELDS, body) == Some(i);
  }

  /** With every field present, a quantity `float` cannot read decides the reply before anything else. */
  lemma QuantityConvertedFirst(body: map<string, Value>, manager: Option<OrderCall>, parse: string -> Option<Scaled>)
    requires FieldsPresent(body) && PyFloat(body["quantity"], parse).Failure?
    ensures var e := PyFloat(body["quantity"], parse).error;
      HandlePlaceOrder(body, manager, parse) == Response(if e.kind == ValueError then 400 else 500, "error", e.message, None)
  {
    FirstMissingNone(body);
  }

  /**
   * Once the quantity is read, the price conversion decides next, then the order type
   * whatever the side, then the side; each failing check gives its own reply.
   */
  lemma ServerGuardOrder(symbol: Value, side: Value, orderType: Value, quantity: Result<Scaled, PyError>,
                         price: Result<Option<Scaled>, PyError>, manager: Option<OrderCall>)
    requires quantity.Success?
    ensures price.Failure? ==> HandleFields(symbol, side, orderType, quantity, price, manager) == FromException(price.error)
    ensures price.Success? && !orderType.Str? ==>
      HandleFields(symbol, side, orderType, quantity, price, manager) == FromException(NoAttribute(orderType, "upper"))
    ensures price.Success? && orderType.Str? && !ValidateOrderType(orderType.s) ==>
      HandleFields(symbol, side, orderType, quantity, price, manager) == Response(400, "error", "Invalid order type. Must be MARKET or LIMIT", None)
    ensures price.Success? && orderType.Str? && ValidateOrderType(orderType.s) && side.Str? && !ValidateSide(side.s) ==>
      HandleFields(symbol, side, orderType, quantity, price, manager) == Response(400, "error", "Invalid side. Must be BUY or SELL", None)
  {
    var r := HandleFields(symbol, side, orderType, quantity, price, manager);
    if price.Failure? {
      assert r == FromException(price.error);
    } else if !orderType.Str? {
      assert r == FromException(NoAttribute(orderType, "upper"));
    } else if !ValidateOrderType(orderType.s) {
      assert r == ErrorReply(400, "Invalid order type. Must be MARKET or LIMIT");
    } else if side.Str? && !ValidateSide(side.s) {
      assert r == ErrorReply(400, "Invalid side. Must be BUY or SELL");
    }
  }

  /** The server's own checks once the fields are read: both conversions, the order type, the side, a manager, a text symbol. */
  predicate ServerChecks(symbol: Value, side: Value, orderType: Value, quantity: Result<Scaled, PyError>,
                         price: Result<Option<Scaled>, PyError>, manager: Option<OrderCall>) {
    && quantity.Success? && price.Success?
    && orderType.Str? && ValidateOrderType(orderType.s)
    && side.Str? && ValidateSide(side.s)
    && manager.Some? && symbol.Str?
  }

  /**
   * The reply is 200 exactly when the server's checks pass and the manager returns; it then
   * carries what the manager returned. Otherwise the manager is never reached or raised.
   */
  lemma HandleFieldsSucceeds(symbol: Value, side: Value, orderType: Value, quantity: Result<Scaled, PyError>,
                             price: Result<Option<Scaled>, PyError>, manager: Option<OrderCall>)
    ensures var r := HandleFields(symbol, side, orderType, quantity, price, manager);
      r.code == 200 <==> (ServerChecks(symbol, side, orderType, quantity, price, manager) &&
                          manager.value(symbol.s, side.s, orderType.s, quantity.value, price.value).Success?)
    ensures var r := HandleFields(symbol, side, orderType, quantity, price, manager);
      r.code == 200 ==> r.order == Some(manager.value(symbol.s, side.s, orderType.s, quantity.value, price.value).value)
  {
  }

  /** The manager returns exactly when `OrderManager.place_order` accepts the order and the exchange answers it. */
  lemma ManagerSucceeds(ex: Exchange, symbol: string, side: string, orderType: string, quantity: Scaled, price: Option<Scaled>)
    ensures Manager(ex)(symbol, side, orderType, quantity, price).Success? <==>
      Accepted(symbol, side, orderType, quantity, price, ex) && ex.createOrder.Success?
    ensures Manager(ex)(symbol, side, orderType, quantity, price).Success? ==>
      Manager(ex)(symbol, side, orderType, quantity, price) == ex.createOrder
  {
    PlaceOrderSubmitsIffAccepted(symbol, side, orderType, quantity, price, map[], ex);
  }

  /** Everything the server and the order manager check, stated on the body. */
  predicate OrderGoesThrough(body: map<string, Value>, ex: Exchange, parse: string -> Option<Scaled>) {
    && FieldsPresent(body)
    && PyFloat(body["quantity"], parse).Success? && PriceArgument(body, parse).Success?
    && body["symbol"].Str? && body["side"].Str? && body["order_type"].Str?
    && Accepted(body["symbol"].s, body["side"].s, body["order_type"].s,
                PyFloat(body["quantity"], parse).value, PriceArgument(body, parse).value, ex)
  }

  /**
   * With the order manager in place, the reply is 200 exactly when every field is present,
   * every check passes and the exchange accepts the order; it then carries the exchange's
   * answer unchanged.
   */
  lemma PlaceOrderSucceeds(body: map<string, Value>, ex: Exchange, parse: string -> Option<Scaled>)
    ensures HandlePlaceOrder(body, Some(Manager(ex)), parse).code == 200 <==>
      OrderGoesThrough(body, ex, parse) && ex.createOrder.Success?
    ensures HandlePlaceOrder(body, Some(Manager(ex)), parse).code == 200 ==>
      HandlePlaceOrder(body, Some(Manager(ex)), parse).order == Some(ex.createOrder.value)
  {
    FirstMissingNone(body);
    if FieldsPresent(body) {
      var symbol, side, orderType := body["symbol"], body["side"], body["order_type"];
      var quantity, price := PyFloat(body["quantity"], parse), PriceArgument(body, parse);
      HandleFieldsSucceeds(symbol, side, orderType, quantity, price, Some(Manager(ex)));
      if quantity.Success? && price.Success? && symbol.Str? && side.Str? && orderType.Str? {
        ManagerSucceeds(ex, symbol.s, side.s, orderType.s, quantity.value, price.value);
        ValidateSideIgnoresCase(side.s);
        ValidateOrderTypeIgnoresCase(orderType.s);
      }
    }
  }

  /**
   * When the manager is reached and raises, its exception decides the reply through the
   * two `except` clauses: 400 for a ValueError, 500 for anything else, with `str(e)`.
   */
  lemma ManagerFailureReported(symbol: Value, side: Value, orderType: Value, quantity: Result<Scaled, PyError>,
                               price: Result<Option<Scaled>, PyError>, manager: Option<OrderCall>)
    requires ServerChecks(symbol, side, orderType, quantity, price, manager)
    requires manager.value(symbol.s, side.s, orderType.s, quantity.value, price.value).Failure?
    ensures HandleFields(symbol, side, orderType, quantity, price, manager) ==
      FromException(manager.value(symbol.s, side.s, orderType.s, quantity.value, price.value).error)
  {
  }

  /** The body's fields are present, convert, and pass the server's order-type and side checks. */
  predicate BodyPassesServer(body: map<string, Value>, parse: string -> Option<Scaled>) {
    && FieldsPresent(body)
    && PyFloat(body["quantity"], parse).Success? && PriceArgument(body, parse).Success?
    && body["order_type"].Str? && ValidateOrderType(body["order_type"].s)
    && body["side"].Str? && ValidateSide(body["side"].s)
  }

  /**
   * End to end: a body the server accepts, whose order `OrderManager.place_order` rejects or
   * the exchange refuses, gets the reply of that exception.
   */
  lemma PlaceOrderFailureReported(body: map<string, Value>, ex: Exchange, parse: string -> Option<Scaled>)
    requires BodyPassesServer(body, parse) && body["symbol"].Str?
    requires PlaceOrder(body["symbol"].s, body["side"].s, body["order_type"].s,
                        PyFloat(body["quantity"], parse).value, PriceArgument(body, parse).value, map[], ex).outcome.Failure?
    ensures HandlePlaceOrder(body, Some(Manager(ex)), parse) ==
      FromException(PlaceOrder(body["symbol"].s, body["side"].s, body["order_type"].s,
                               PyFloat(body["quantity"], parse).value, PriceArgument(body, parse).value, map[], ex).outcome.error)
  {
    FirstMissingNone(body);
    ManagerFailureReported(body["symbol"], body["side"], body["order_type"],
                           PyFloat(body["quantity"], parse), PriceArgument(body, parse), Some(Manager(ex)));
  }

  /** For instance, a quantity off the LOT_SIZE grid gives 400 "Invalid quantity: <quantity>". */
  lemma QuantityRejectedReported(body: map<string, Value>, ex: Exchange, parse: string -> Option<Scaled>, info: SymbolInfo)
    requires BodyPassesServer(body, parse) && body["symbol"].Str? && ValidateSymbol(body["symbol"].s)
    requires GetSymbolInfo(ex.exchangeInfo, body["symbol"].s) == Success(info)
    requires ValidateQuantity(PyFloat(body["quantity"], parse).value, Some(info)) == Success(false)
    ensures HandlePlaceOrder(body, Some(Manager(ex)), parse) ==
      Response(400, "error", "Invalid quantity: " + FloatRepr(PyFloat(body["quantity"], parse).value), None)
  {
    var symbol, side, orderType := body["symbol"].s, body["side"].s, body["order_type"].s;
    var q, p := PyFloat(body["quantity"], parse).value, PriceArgument(body, parse).value;
    PlaceOrderValueChecks(symbol, side, orderType, q, p, map[], ex, info);
    PlaceOrderFailureReported(body, ex, parse);
  }

  /** Without an order manager no order is ever placed: a request that passes the server's checks gets a 500. */
  lemma NoManagerNoOrder(body: map<string, Value>, parse: string -> Option<Scaled>)
    ensures HandlePlaceOrder(body, None, parse).code != 200
    ensures BodyPassesServer(body, parse) ==> HandlePlaceOrder(body, None, parse).code == 500
  {
    FirstMissingNone(body);
  }

  // ---------------------------------------------------------------- logs

  /** One parsed log line. */
  datatype LogEntry = LogEntry(timestamp: string, logger: string, level: string, message: string)

  const LOG_SEP: string := " - "

  /** `line.strip().split(' - ', 3)`, kept when it has four parts. */
  function ParseLogLine(line: string): Option<LogEntry> {
    var parts := SplitN(Strip(line), LOG_SEP, 3);
    if |parts| >= 4 then Some(LogEntry(parts[0], parts[1], parts[2], parts[3])) else None
  }

  /** The values `f` yields on `xs`, in order, skipping the elements where it yields None. */
  function Collect<A, B>(xs: seq<A>, f: A -> Option<B>): seq<B> {
    if xs == [] then []
    else
      var init := Collect(xs[..|xs| - 1], f);
      match f(xs[|xs| - 1])
      case Some(y) => init + [y]
      case None => init
  }

  /** The entries of `lines`, in order, one per line that parses. */
  function ParseLogLines(lines: seq<string>): seq<LogEntry> {
    Collect(lines, ParseLogLine)
  }

  /** The loop of `get_logs` that appends one entry per parsed line. */
  method ParseLogs(lines: seq<string>) returns (logs: seq<LogEntry>)
    ensures logs == ParseLogLines(lines)
  {
    logs := [];
    var i := 0;
    while i < |lines|
      invariant 0 <= i <= |lines|
      invariant logs == Collect(lines[..i], ParseLogLine)
    {
      assert lines[..i + 1][..i] == lines[..i];
      match ParseLogLine(lines[i]) {
        case Some(e) => logs := logs + [e];
        case None =>
      }
      i := i + 1;
    }
    assert lines[..|lines|] == lines;
  }

  /** `f.readlines()[-100:]`. */
  function LastLines(lines: seq<string>, n: nat): (tail: seq<string>)
    ensures |tail| == if |lines| <= n then |lines| else n
    ensures tail == lines[|lines| - |tail|..]
  {
    if |lines| <= n then lines else lines[|lines| - n..]
  }

  const LOG_TAIL: nat := 100

  /** What the file system shows `get_logs`: no `logs` directory, no `.log` file in it, or the lines of the newest one. */
  datatype LogSource = NoLogDirectory | NoLogFiles | LatestLog(lines: seq<string>)

  /** The reply of GET /api/logs: always `success`, with the parsed entries. */
  method GetLogs(source: LogSource) returns (logs: seq<LogEntry>)
    ensures source.LatestLog? ==> logs == ParseLogLines(LastLines(source.lines, LOG_TAIL))
    ensures !source.LatestLog? ==> logs == []
  {
    match source {
      case NoLogDirectory => logs := [];
      case NoLogFiles => logs := [];
      case LatestLog(lines) => logs := ParseLogs(LastLines(lines, LOG_TAIL));
    }
  }

  lemma DropLastOfAppend<T>(a: seq<T>, b: seq<T>)
    requires b != []
    ensures (a + b)[..|a + b| - 1] == a + b[..|b| - 1]
    ensures (a + b)[|a + b| - 1] == b[|b| - 1]
  {
  }

  lemma {:induction false} CollectAppend<A, B>(a: seq<A>, b: seq<A>, f: A -> Option<B>)
    ensures Collect(a + b, f) == Collect(a, f) + Collect(b, f)
    decreases |b|
  {
    if b == [] {
      assert a + b == a;
    } else {
      CollectAppend(a, b[..|b| - 1], f);
      DropLastOfAppend(a, b);
    }
  }

  lemma {:induction false} CollectFromElements<A, B>(xs: seq<A>, f: A -> Option<B>)
    ensures |Collect(xs, f)| <= |xs|
    ensures forall k :: 0 <= k < |Collect(xs, f)| ==> exists i :: 0 <= i < |xs| && f(xs[i]) == Some(Collect(xs, f)[k])
  {
    if xs != [] {
      var init := xs[..|xs| - 1];
      CollectFromElements(init, f);
      var out := Collect(xs, f);
      forall k | 0 <= k < |out|
        ensures exists i :: 0 <= i < |xs| && f(xs[i]) == Some(out[k])
      {
        if k < |Collect(init, f)| {
          var i :| 0 <= i < |init| && f(init[i]) == Some(Collect(init, f)[k]);
          assert xs[i] == init[i];
        } else {
          assert f(xs[|xs| - 1]) == Some(out[k]);
        }
      }
    }
  }

  /** Parsing distributes over concatenation: entries keep the order of their lines. */
  lemma ParseLogLinesAppend(a: seq<string>, b: seq<string>)
    ensures ParseLogLines(a + b) == ParseLogLines(a) + ParseLogLines(b)
  {
    CollectAppend(a, b, ParseLogLine);
  }

  /** There are never more entries than lines, and each comes from one of the lines. */
  lemma ParseLogLinesFromLines(lines: seq<string>)
    ensures |ParseLogLines(lines)| <= |lines|
    ensures forall k :: 0 <= k < |ParseLogLines(lines)| ==>
      exists i :: 0 <= i < |lines| && ParseLogLine(lines[i]) == Some(ParseLogLines(lines)[k])
  {
    CollectFromElements(lines, ParseLogLine);
  }

  /** GET /api/logs returns at most 100 entries, all parsed from the last 100 lines. */
  lemma GetLogsBounded(lines: seq<string>)
    ensures |ParseLogLines(LastLines(lines, LOG_TAIL))| <= LOG_TAIL
  {
    ParseLogLinesFromLines(LastLines(lines, LOG_TAIL));
  }

  function FormatLogLine(e: LogEntry): string {
    e.timestamp + LOG_SEP + e.logger + LOG_SEP + e.level + LOG_SEP + e.message
  }

  /** Joining the four fields with ' - ' gives back the stripped line: the message keeps any later ' - '. */
  lemma ParsedLineRejoins(line: string)
    requires ParseLogLine(line).Some?
    ensures FormatLogLine(ParseLogLine(line).value) == Strip(line)
  {
    var parts := SplitN(Strip(line), LOG_SEP, 3);
    JoinSplitN(Strip(line), LOG_SEP, 3);
    JoinFour(parts, LOG_SEP);
  }

  lemma JoinFour(parts: seq<string>, sep: string)
    requires |parts| == 4
    ensures Join(parts, sep) == parts[0] + sep + parts[1] + sep + parts[2] + sep + parts[3]
  {
    var t := parts[1..];
    var u := t[1..];
    assert Join(u[1..], sep) == parts[3];
    assert Join(u, sep) == parts[2] + sep + parts[3];
    assert Join(t, sep) == parts[1] + sep + (parts[2] + sep + parts[3]);
  }

  /** The timestamp, logger and level of a parsed line never hold ' - '. */
  lemma ParsedFieldsFree(line: string)
    requires ParseLogLine(line).Some?
    ensures var e := ParseLogLine(line).value;
      !Contains(e.timestamp, LOG_SEP) && !Contains(e.logger, LOG_SEP) && !Contains(e.level, LOG_SEP)
  {
    var parts := SplitN(Strip(line), LOG_SEP, 3);
    SplitNPiecesFree(Strip(line), LOG_SEP, 3);
    FirstThreeFree(parts, LOG_SEP);
  }

  lemma FirstThreeFree(parts: seq<string>, sep: string)
    requires |parts| >= 4 && PiecesFree(parts, sep, 3)
    ensures !Contains(parts[0], sep) && !Contains(parts[1], sep) && !Contains(parts[2], sep)
  {
    var t := parts[1..];
    assert PiecesFree(t, sep, 2) && t[0] == parts[1];
    var u := t[1..];
    assert PiecesFree(u, sep, 1) && |u| >= 2 && u[0] == parts[2];
  }

  /** A field that a ' - ' could not start inside, even with the separator after it. */
  predicate CleanField(f: string) {
    !Contains(f + " -", LOG_SEP)
  }

  /** A line of four fields joined by ' - ', with nothing to strip, parses back into exactly those fields. */
  lemma FormattedLineParses(e: LogEntry, line: string)
    requires CleanField(e.timestamp) && CleanField(e.logger) && CleanField(e.level)
    requires Strip(line) == FormatLogLine(e)
    ensures ParseLogLine(line) == Some(e)
  {
    assert LOG_SEP[..|LOG_SEP| - 1] == " -";
    SplitFour(e.timestamp, e.logger, e.level, e.message, LOG_SEP);
  }

  lemma SplitFour(a: string, b: string, c: string, d: string, sep: string)
    requires |sep| > 0
    requires !Contains(a + sep[..|sep| - 1], sep) && !Contains(b + sep[..|sep| - 1], sep)
    requires !Contains(c + sep[..|sep| - 1], sep)
    ensures SplitN(a + sep + b + sep + c + sep + d, sep, 3) == [a, b, c, d]
  {
    var c' := c + sep + d;
    var b' := b + sep + c';
    Reassociate(a, b, c, d, sep);
    SplitNAfterField(a, sep, b', 2);
    SplitNAfterField(b, sep, c', 1);
    SplitNAfterField(c, sep, d, 0);
    assert SplitN(d, sep, 0) == [d];
  }

  lemma Reassociate<T>(a: seq<T>, b: seq<T>, c: seq<T>, d: seq<T>, sep: seq<T>)
    ensures a + sep + b + sep + c + sep + d == a + sep + (b + sep + (c + sep + d))
  {
  }
}
