# Binance futures trading bot: a verified model of its order logic

This project models, in Dafny, the sequential core of a small trading bot for Binance
USDT-M futures. The exchange, the HTTP server, the file system and the browser are all
replaced by inputs. The model covers three parts.

- **Order validation and submission** (`bot/validators.py`, `bot/orders.py`, `bot/client.py`):
  - the `OrderValidator` predicates for symbol, side, order type, quantity and price, with
    the quantity and price checked against the exchange's `LOT_SIZE` and `PRICE_FILTER` filters;
  - the guard chain of `OrderManager.place_order`, the parameter dictionary it submits, and the
    single `futures_create_order` call it makes;
  - the symbol lookup in `BinanceFuturesClient.get_symbol_info` and the `test_connectivity` probe.
- **The API server's request rules** (`api_server.py`):
  - the body validation of `POST /api/place-order`, and how its exceptions become 400 or 500
    replies;
  - the log-line parser of `GET /api/logs`.
- **The web front end** (`trading-bot-frontend/script.js`):
  - the orders page as a class: the selected-order set, the select-all checkbox, the single and
    bulk cancel actions, the page slice, the pagination counters and buttons, and the statistics
    counters;
  - the two estimated-cost formulas of the order form.

Decimal quantities and prices are integers counted in units of 10^-8 (`PyValues.Scaled`), so
the validators' step and tick tests are exact divisibility. Python's float `%`, whose result
takes the sign of the divisor, is written out as `Validators.PyMod`. A zero step or tick raises
`ZeroDivisionError` in Python, and the model returns that error rather than excluding the case.

Every Python call that can raise returns a `Result` whose failure is a `PyError`: an exception
class and `str(e)`. The server maps that error to its reply. The exchange is a value
`Orders.Exchange`: what `futures_exchange_info()` and `futures_create_order()` answer. The
server's order manager is a function value `ApiServer.OrderCall`; `ApiServer.Manager(ex)` is
`OrderManager.place_order` running against the exchange `ex`. Python's float syntax for text
is a parameter `parse`.

Modules, one per concern:

- `Wrappers`: `Option` and `Result`.
- `DecimalText`: digit strings of natural numbers.
- `PyText`: `upper`, `strip`, `split(sep, maxsplit)` and the `repr` of a float.
- `PyValues`: JSON/Python values, exceptions, truthiness and `float()`.
- `Validators`, `Client`, `Orders`, `ApiServer`: the backend.
- `OrdersPage`: the orders page as a class.
- `OrderForm`: the two cost formulas.
- `PriceText`: the price label and how the page reads it back.

Three behaviours of the page's code are worth stating outright, since the model follows them.

- `loadOrders` never prunes `selectedOrders`: ids of orders that are no longer listed stay
  selected, and `OrdersPage.Page.LoadOrders` keeps the selection unchanged too.
- `Math.ceil(0 / 10)` gives 0 pages for an empty list, and so does `OrdersPage.TotalPages`.
- Only the prev/next handlers guard the page number. `goToPage` sets whatever page it is given
  and never re-renders the table, so `OrdersPage.Page.GoToPage` has no precondition and leaves
  the rows alone.

## Model

| member | source | states |
|---|---|---|
| Validators.ValidateSymbolExactly | bot/validators.py:10-16 | the symbol pattern accepts exactly the strings of 6 to 20 letters A-Z, optionally followed by one newline (Python's `$`); lowercase letters, digits and other lengths are refused |
| Validators.ValidateSideIgnoresCase | bot/validators.py:19-25 | the side check holds exactly for the case-insensitive spellings of BUY or SELL |
| Validators.ValidateOrderTypeIgnoresCase | bot/validators.py:28-34 | the type check holds exactly for the case-insensitive spellings of MARKET or LIMIT |
| PyText.UpperEqualsWord | bot/validators.py:22 | comparing `s.upper()` with an upper-case word is comparing letter by letter ignoring case, counting the dotless i and long s that upper-case to I and S |
| PyText.Upper | bot/validators.py:31 | `upper()` keeps the length and maps each character through its upper case |
| Validators.PyMod | bot/validators.py:59-60 | Python's `%` on floats: the remainder lies between 0 and the divisor, with the divisor's sign, differs from the value by a multiple of the divisor, and is zero exactly when the divisor divides the value |
| Validators.CheckFiltersAccepts | bot/validators.py:45-62 | the filter loop passes exactly when every filter of the checked type has its value within [min, max], on the step grid counted from min, and a nonzero step |
| Validators.CheckFiltersRaises | bot/validators.py:59 | the filter loop raises only when some filter of the type has a zero step and bounds that admit the value |
| Validators.CheckFiltersIgnoresOthers | bot/validators.py:46 | a filter of another `filterType` at the head of the list is skipped |
| Validators.CheckFiltersSkipsOther | bot/validators.py:45-46 | a filter of another `filterType` never changes the outcome, wherever it stands in the list |
| Validators.Selected | bot/validators.py:77 | a filter is consulted exactly when its type is the one looked for: LOT_SIZE for quantities, PRICE_FILTER for prices |
| Validators.ValidateQuantity | bot/validators.py:37-64 | a quantity of 0 or less is refused whatever the symbol info; with no symbol info the check is `quantity > 0`; the only possible exception is ZeroDivisionError |
| Validators.ValidateQuantityAccepts | bot/validators.py:39-64 | an accepted quantity is exactly a positive one that fits every LOT_SIZE filter (for finite decimal quantities, the only ones the model has) |
| Validators.ValidatePrice | bot/validators.py:67-95 | a non-LIMIT order's price is accepted unexamined; a LIMIT price of 0 or less is refused; with no symbol info a LIMIT price only needs to be positive |
| Validators.ValidatePriceAccepts | bot/validators.py:69-93 | an accepted LIMIT price is exactly a positive one within every PRICE_FILTER's bounds and on its tick grid (for finite decimal prices, the only ones the model has) |
| Client.FindSymbol | bot/client.py:50-53 | the linear search finds the first entry whose symbol equals the query exactly, or reports that none does |
| Client.GetSymbolInfo | bot/client.py:46-57 | an exception from fetching the exchange info propagates unchanged |
| Client.GetSymbolInfoFirstMatch | bot/client.py:50-53 | the lookup succeeds exactly when some entry has that symbol (case-sensitive), and it returns the first such entry of the list, unchanged |
| Client.GetSymbolInfoNotFound | bot/client.py:54 | with no matching entry the lookup raises ValueError("Symbol <symbol> not found") |
| Client.TestConnectivity | bot/client.py:59-67 | the probe is True exactly when the ping did not raise, and it never raises itself |
| Orders.BaseParams | bot/orders.py:51-67 | the dictionary always holds symbol, side, type and quantity, and holds price and timeInForce exactly for LIMIT orders |
| Orders.PlaceOrder | bot/orders.py:13-88 | `place_order` makes at most two exchange requests, and the first is always the symbol lookup |
| Orders.PlaceOrderSubmitsIffAccepted | bot/orders.py:35-78 | `futures_create_order` is called exactly when every check accepts (valid symbol, side and type, symbol found, quantity within LOT_SIZE, LIMIT price present and within PRICE_FILTER); its answer is then returned as it is; otherwise an exception is raised |
| Orders.PlaceOrderLooksUpAfterGuards | bot/orders.py:35-45 | the exchange is consulted exactly when the symbol, the side and the type have all passed |
| Orders.PlaceOrderGuardOrder | bot/orders.py:35-45 | the first failing guard among symbol, side, type and lookup decides the exception, whatever the later inputs; a failed lookup (a failed fetch or "Symbol X not found") is re-raised as it was |
| Orders.PlaceOrderValueChecks | bot/orders.py:47-64 | after the lookup the quantity is checked before the price: a refused quantity raises "Invalid quantity: …" and a refused LIMIT price "Invalid price: …" |
| Orders.LimitWithoutPrice | bot/orders.py:59-61 | a LIMIT order with no price raises "Price is required for LIMIT orders" before the price is validated |
| Orders.PlaceOrderNeverSwallows | bot/orders.py:35-88 | every failure is a check's ValueError, a ZeroDivisionError from a filter, or the exchange's own exception; the lookup's, the quantity validator's, the price validator's and the exchange's exceptions each become the outcome unchanged, so none is turned into a return value |
| Orders.SubmittedParams | bot/orders.py:51-73 | a submitted order carries the symbol unchanged, the side and type upper-cased, and the quantity as given; LIMIT orders carry the price and timeInForce GTC, MARKET orders neither unless a keyword argument supplies one; keyword arguments override same-named keys |
| Orders.SubmittedAfterChecks | bot/orders.py:66-73 | the submitted dictionary is the base parameters updated by the keyword arguments, and is only built once the side has passed and a LIMIT price is present |
| Orders.MergedParams | bot/orders.py:51-70 | merging keyword arguments last overrides same-named parameters and keeps every other base parameter |
| PyValues.PyFloat | api_server.py:118-119 | `float()` of a float, an int or a bool gives its value (ints taken as unbounded); of text it succeeds exactly when the text parses, giving the parsed value; ValueError comes only from text; None, lists and dicts raise TypeError |
| PyValues.NoAttribute | api_server.py:122 | calling `.upper()` on a non-text value raises AttributeError |
| ApiServer.FirstMissing | api_server.py:107-113 | it reports the first of the fields the body lacks, every earlier one being present, or that none is missing |
| ApiServer.FirstMissingNone | api_server.py:107-113 | no field is missing exactly when symbol, side, order_type and quantity are all present |
| ApiServer.MissingFieldReported | api_server.py:107-113 | when the i-th required field is the first one missing, the reply is 400 "Missing required field: <field>" |
| ApiServer.FromException | api_server.py:150-160 | a ValueError becomes a 400 reply and any other exception a 500 reply, each with `str(e)` as the message and no order |
| ApiServer.PriceArgument | api_server.py:119 | the price is None exactly when `price` is missing or falsy (0, "", null, false, empty list or dict); otherwise it is `float(price)`, or the exception that raised |
| ApiServer.HandlePlaceOrder | api_server.py:100-160 | every reply is 200, 400 or 500; it is 200 exactly when the status is "success", and only a 200 reply carries an order |
| ApiServer.HandleFields | api_server.py:115-160 | once the fields are read, the reply code and status agree and only success carries an order, whichever check fails |
| ApiServer.QuantityConvertedFirst | api_server.py:118 | with all fields present, a quantity `float()` cannot read decides the reply before the price, the type and the side are looked at |
| ApiServer.ServerGuardOrder | api_server.py:119-133 | once the quantity is read, a price `float()` failure decides the reply (400 or 500 with `str(e)`), then an invalid order type gives 400 "Invalid order type. Must be MARKET or LIMIT" whatever the side, then an invalid side gives 400 "Invalid side. Must be BUY or SELL" |
| ApiServer.HandleFieldsSucceeds | api_server.py:118-148 | the reply is 200 exactly when both conversions succeed, the type and side are valid text, a manager exists, the symbol is text and the manager returns; the reply then carries what the manager returned |
| ApiServer.ManagerFailureReported | api_server.py:135-160 | once the server's checks pass, an exception from the order manager gives 400 with `str(e)` for a ValueError and 500 with `str(e)` for any other |
| ApiServer.ManagerSucceeds | api_server.py:136-142 | the server's order manager returns exactly when `place_order` accepts the order and the exchange answers it, and what it returns is the exchange's answer |
| ApiServer.PlaceOrderSucceeds | api_server.py:100-148 | with the order manager in place, the reply is 200 exactly when every field is present, every server and order-manager check passes and the exchange accepts the order; the reply then carries the exchange's answer |
| ApiServer.PlaceOrderFailureReported | api_server.py:103-160 | end to end, a body the server accepts whose order `OrderManager.place_order` rejects or the exchange refuses gets the reply of that exception: 400 for a ValueError, 500 otherwise, with `str(e)` |
| ApiServer.QuantityRejectedReported | api_server.py:135-154 | end to end, a quantity the LOT_SIZE filters refuse gives 400 "Invalid quantity: <quantity>" |
| ApiServer.NoManagerNoOrder | api_server.py:135-160 | without an order manager no request gets a 200, and a body that passes the server's field, conversion, type and side checks gets a 500 |
| ApiServer.ParseLogs | api_server.py:433-442 | the append loop yields exactly the parsed entries of the lines, in order |
| ApiServer.LastLines | api_server.py:431 | `readlines()[-100:]` is the final min(n, 100) lines of the file |
| ApiServer.GetLogs | api_server.py:410-447 | a missing log directory or no `.log` file gives an empty list; otherwise the reply holds the parsed entries of the newest file's last 100 lines |
| ApiServer.ParseLogLinesAppend | api_server.py:433-442 | parsing distributes over concatenation, so entries keep the order of their lines |
| ApiServer.CollectAppend | api_server.py:434-442 | appending each kept result inside the loop over the lines gives the results of the first lines followed by those of the rest |
| ApiServer.ParseLogLinesFromLines | api_server.py:433-442 | there are never more entries than lines, and each entry is the parse of one of the lines |
| ApiServer.GetLogsBounded | api_server.py:431-442 | the reply never holds more than 100 entries |
| ApiServer.ParsedLineRejoins | api_server.py:435-441 | joining a parsed entry's four fields with ' - ' reproduces the stripped line, so the message keeps any later ' - ' |
| ApiServer.ParsedFieldsFree | api_server.py:435-440 | the timestamp, logger and level of a parsed line never contain ' - ' |
| ApiServer.FormattedLineParses | api_server.py:435-442 | a line of four fields joined by ' - ', whose first three fields could not hold a ' - ', parses back into exactly those fields |
| PyText.Strip | api_server.py:435 | `strip()` gives the input with only leading and trailing whitespace removed, and the result neither starts nor ends with whitespace |
| PyText.SplitN | api_server.py:435 | `split(sep, 3)` yields between one and four pieces |
| PyText.JoinSplitN | api_server.py:435 | rejoining the pieces of `split(sep, n)` with `sep` gives back the text |
| PyText.SplitNPiecesFree | api_server.py:435 | every piece but the last is free of `sep`, and so is the last when fewer than n cuts were made |
| PyText.IndexOfLeftmost | api_server.py:435 | the cut is made at the leftmost occurrence of the separator |
| PyText.SplitNAfterField | api_server.py:435 | a first field that holds no separator is split off as the first piece |
| OrdersPage.ClipIndex | trading-bot-frontend/script.js:924 | a `slice` index is clipped to [0, length], negative indices counting from the end |
| OrdersPage.PageSliceContents | trading-bot-frontend/script.js:921-924 | page p shows the orders at indices (p-1)·pageSize up to p·pageSize-1, clipped to the list, in order |
| OrdersPage.TotalPagesIsCeiling | trading-bot-frontend/script.js:960 | the page count is the least number of pages that holds every order |
| OrdersPage.FiftyOrdersFivePages | trading-bot-frontend/script.js:960 | fifty orders in pages of ten make five pages |
| OrdersPage.OrderOnItsPage | trading-bot-frontend/script.js:921-924 | every order appears on a page within the page count, as row k mod pageSize of page k div pageSize + 1 |
| OrdersPage.PagesInRangeNonEmpty | trading-bot-frontend/script.js:921-924 | a page shows at least one order exactly when it is within the page count |
| OrdersPage.CountStatusUnion | trading-bot-frontend/script.js:911 | counting two disjoint sets of statuses separately adds up to counting their union, as the pending count of OPEN or PARTIAL does |
| OrdersPage.CountStatusBounds | trading-bot-frontend/script.js:909-912 | a status count never exceeds the total, and equals it when every order has a counted status |
| OrdersPage.StatsPartition | trading-bot-frontend/script.js:908-918 | success, pending and failed never add up to more than the total, and add up to exactly the total when every status is FILLED, OPEN, PARTIAL or CANCELLED |
| OrdersPage.CancelButtonsArePending | trading-bot-frontend/script.js:948-952 | the rows carrying a cancel button are exactly the OPEN and PARTIAL rows, as many as the pending count of those rows |
| OrdersPage.RowIdsMembers | trading-bot-frontend/script.js:932 | an id belongs to the rendered rows' ids exactly when some rendered row carries it |
| OrdersPage.ApplySelectAll | trading-bot-frontend/script.js:779-786 | the `forEach` gives every rendered checkbox the select-all state, and adds every rendered id to the selection or deletes it; other ids are untouched |
| OrdersPage.SelectAllNeverBoth | trading-bot-frontend/script.js:1023-1028 | the derived select-all checkbox is never both checked and indeterminate, and checked implies some box is checked |
| OrdersPage.Page.constructor | trading-bot-frontend/script.js:749-851 | a fresh page starts with nothing selected, the orders loaded, page 1 and every box clear |
| OrdersPage.Page.LoadOrders | trading-bot-frontend/script.js:834-851 | reloading sets new statistics, renders page 1 with every checkbox clear and resets pagination, and leaves the selection and the select-all checkbox as they were |
| OrdersPage.Page.InitializePagination | trading-bot-frontend/script.js:959-967 | pagination restarts at page 1 of ceil(n/10) pages, with prev disabled and next disabled exactly when there is at most one page; nothing else changes |
| OrdersPage.Page.ShowSelection | trading-bot-frontend/script.js:1004-1015 | the displayed count equals the selection's size and cancel-selected is disabled exactly when the selection is empty; nothing else changes |
| OrdersPage.Page.UpdateSelectAllCheckbox | trading-bot-frontend/script.js:1018-1029 | select-all becomes checked exactly when there is a box and all are checked, and indeterminate exactly when some but not all are; nothing else changes |
| OrdersPage.Page.ToggleCheckbox | trading-bot-frontend/script.js:972-984 | a click flips one box, adds or removes exactly that row's id, and keeps the counters and select-all consistent |
| OrdersPage.Page.SelectAllChange | trading-bot-frontend/script.js:777-789 | after a select-all change every rendered box matches select-all, each rendered id ends up in the selection exactly when select-all is checked, and ids not on the page are untouched |
| OrdersPage.Page.CancelSelected | trading-bot-frontend/script.js:792-806 | nothing changes on an empty selection or a refused confirmation; otherwise the whole selection is cleared and the orders reloaded, and the select-all checkbox keeps its state |
| OrdersPage.Page.CancelSingleOrder | trading-bot-frontend/script.js:1119-1131 | once confirmed, only that order's id leaves the selection and the orders are reloaded, and the select-all checkbox keeps its state; a refused confirmation changes nothing |
| OrdersPage.Page.GoToPage | trading-bot-frontend/script.js:1038-1048 | `goToPage` changes only the counter and the two buttons: prev is disabled exactly on page 1 and next exactly on the last page; the rows are not rendered again |
| OrdersPage.Page.PrevPage | trading-bot-frontend/script.js:809-814 | prev moves one page back unless already on page 1, keeps the page within range and leaves the rows, selection and select-all checkbox as they were |
| OrdersPage.Page.NextPage | trading-bot-frontend/script.js:816-822 | next moves one page on unless already on the last page, never goes past the page count and leaves the rows, selection and select-all checkbox as they were |
| OrderForm.OrZero | trading-bot-frontend/script.js:362 | `parseFloat(x) \|\| 0` turns NaN into 0 and keeps any number |
| OrderForm.SummaryCostZeroWhenUnreadable | trading-bot-frontend/script.js:361-378 | the summary cost is 0, never NaN, when the quantity or the price it uses is unreadable |
| OrderForm.SummaryPriceChoice | trading-bot-frontend/script.js:366-372 | the summary multiplies by the limit field only for LIMIT orders and by the current price otherwise, where the limit field has no effect |
| OrderForm.ModalCost | trading-bot-frontend/script.js:409-410 | the modal cost is a number exactly when the quantity is, and either the entered price is a nonzero number or the current price is a number |
| OrderForm.SummaryAgreesWithModal | trading-bot-frontend/script.js:409-410 | summary and modal agree on a LIMIT order with a nonzero price, and on a MARKET order whose price field is empty or zero |
| OrderForm.ModalUsesStalePrice | trading-bot-frontend/script.js:409-410 | a MARKET order with a nonzero price left in the price field gets a modal cost at that price and a summary cost at the market price, and the two differ |
| PriceText.KeepNumeric | trading-bot-frontend/script.js:371 | the regular expression replacement keeps only digits, '.' and '-', and never lengthens the text |
| PriceText.KeepNumericAppend | trading-bot-frontend/script.js:371 | the replacement works character by character: on a concatenation it is the concatenation of the two replacements, so the kept characters stay in order |
| PriceText.KeepNumericOfNumeric | trading-bot-frontend/script.js:371 | text made only of digits, '.' and '-' is kept whole |
| PriceText.KeepNumericOfOthers | trading-bot-frontend/script.js:371 | text with no digit, '.' or '-' is removed entirely |
| PriceText.RemoveFirst | trading-bot-frontend/script.js:409 | `replace('$', '')` leaves text without a '$' unchanged |
| PriceText.RemoveFirstDropsFirst | trading-bot-frontend/script.js:409 | when the text holds a '$', `replace('$', '')` drops its first '$' and keeps every other character in order |
| PriceText.GroupedDigitsValue | trading-bot-frontend/script.js:393 | dropping the commas of a thousands-grouped number leaves digits that spell the number |
| PriceText.SummaryReadsLabel | trading-bot-frontend/script.js:370-371 | the summary reads every price label back as exactly the price shown |
| PriceText.ModalReadsLeadingGroup | trading-bot-frontend/script.js:409-410 | from 1,000 on, the modal reads only the digits before the first comma, a value different from the price shown |
| PriceText.BitcoinPriceMisread | trading-bot-frontend/script.js:409-410 | the label "$45,230.50" reads as 45 in the modal and as 45230.5 in the summary |
| PriceText.CorrectedModalMatchesSummary | trading-bot-frontend/script.js:409-410 | with the label read as the summary reads it, a MARKET order with no entered price costs the same in the modal and in the summary |
| PriceText.ModalCostMisquotes | trading-bot-frontend/script.js:409-410 | as written, the modal prices a MARKET order on "$45,230.50" at 45 per unit, unlike the corrected reading |

## Left out

- Flask routing, JSON decoding and the other routes. The request body is a map from names to
  values; a body that is not a JSON object, or a missing body, is not modelled.
- Logging calls throughout, and the server's `logger.error` before a 500 reply: they have no
  effect on results.
- The python-binance client: its constructor, `get_account_info`, `get_order_status`,
  `cancel_order` and the network. The exchange's answers are the input `Orders.Exchange`.
  `futures_ping` is the input of `Client.TestConnectivity`.
- A malformed `exchange_info`, such as one without a `symbols` key or an entry without a `symbol`
  key: the exchange is taken to answer in its documented shape.
- Python's float syntax for text (`float("1e-3")`, `"inf"`, underscores): it is the parameter
  `parse`.
- Floating point: quantities and prices are exact multiples of 10^-8. Rounding and the `1e-10`
  tolerance of the step and tick tests are not modelled; `remainder > 1e-10` becomes
  `remainder > 0`.
- PyValues.PyFloat: three behaviours of Python's `float()` on the server's path are not modelled.
  (a) An int beyond float range, such as a JSON `10**400`, raises OverflowError in Python, which
  the server's generic `except` turns into a 500 "int too large to convert to float"; the model
  converts it and goes on to validate. (b) The ValueError message quotes the text in single
  quotes; CPython uses `repr`, which switches to double quotes for text holding a single quote
  and escapes backslashes and control characters. (c) Non-finite values (`"nan"`, `"inf"` or a
  JSON `NaN`) do not exist in the model; in Python `validate_quantity` and `validate_price`
  accept NaN, because every comparison with it is false.
- Validators.ValidateQuantityAccepts: the "exactly" holds for finite decimal quantities only;
  a NaN quantity, which Python accepts, has no counterpart in the model.
- Validators.ValidatePriceAccepts: likewise for finite decimal prices only; a NaN LIMIT price,
  which Python accepts, has no counterpart in the model.
- PyText.FloatRepr: the `{quantity}` and `{price}` text in the "Invalid quantity/price"
  messages is the decimal `repr` of the scaled value. Its agreement with CPython's
  shortest-repr algorithm is not proved.
- PyText.Upper: characters whose upper case is several letters (such as 'ß' to "SS") are kept
  unchanged. Only the characters whose upper case is a single ASCII letter are mapped: the ASCII
  lower case, the dotless i and the long s.
- The interpreter's wording of TypeError and AttributeError messages varies between Python
  versions. The model uses one wording; the 500 status does not depend on it.
- `get_logs`' file system: `glob`, the choice of the newest file by modification time, and file
  reading are the input `ApiServer.LogSource`. An exception while reading (the 500 reply) is not
  modelled.
- `cli.py`: its guards restate `OrderValidator` and `place_order`, and the rest is console I/O.
- The front end's DOM, HTML templates, toasts, modals, tabs, settings, charts, order book, recent
  trades and the connection tests.
- `generateMockOrders` and every `Math.random` value: the orders loaded or reloaded are a
  parameter.
- The `setTimeout` delays before a cancel completes or the table events are attached: the model
  completes each action at once. `confirm()` is the parameter `confirmed`.
- `parseInt` of the page counter texts: the counters are the integer fields they display.
- OrdersPage.TotalPages: `pageSize > 0` is a precondition. The page always passes 10.
- OrderForm.SummaryCost and OrderForm.ModalCost: the inputs are numbers `parseFloat` already
  produced (None for NaN), as real numbers without rounding. `toFixed` and `toLocaleString`
  formatting are left out.
- PriceText.ParseFloat: only unsigned decimals are read. Leading whitespace, signs, exponents and
  `Infinity` are not modelled; the price labels contain none of them.
- PriceText.PriceLabel: only prices with exactly two decimals are modelled, as every price of
  the page has. `toLocaleString`'s rounding of longer fractions is left out.

## Findings

| source | as written | input that shows it | evidently intended | confidence | as-written member | corrected member |
|---|---|---|---|---|---|---|
| trading-bot-frontend/script.js:409-410 | the confirmation modal reads the current price with `.replace('$', '')` and then `parseFloat`; the label has thousands separators, so `parseFloat` stops at the first comma. The use-market-price button copies the same text into the price field (script.js:303-304). | the BTCUSDT label "$45,230.50": the modal reads 45, so a MARKET order of 1 BTC is quoted $45.00 | read the label as the order summary does, removing every character but digits, '.' and '-' (script.js:371), which gives 45230.5 | not executed | PriceText.ModalCostMisquotes | PriceText.CorrectedModalMatchesSummary |

`PriceText.ModalReadsLeadingGroup` describes the as-written reading in general: for any price from
1,000 on, the modal reads only the leading group of digits. `PriceText.SummaryReadsLabel` proves
that the corrected reading returns every label's price exactly. `OrderForm.ModalCost` takes the
current price as a number already read correctly, so the rest of the model uses the corrected
behaviour.
