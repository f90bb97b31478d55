/**
 * The orders page of the web front end: the rendered page slice, the pagination
 * counters and buttons, the statistics counters, and the set of selected order ids
 * with the select-all checkbox and the cancel actions that change it.
 */
module OrdersPage {

  /** What the page uses of an order: its id (as the `data-order-id` text) and its status. */
  datatype Order = Order(id: string, status: string)

  const PAGE_SIZE: nat := 10

  // ---------------------------------------------------------------- slices and pages

  /** A relative `slice` index clipped to `[0, n]`: negative values count from the end. */
  function ClipIndex(k: int, n: nat): (r: nat)
    ensures r <= n
    ensures 0 <= k ==> r == if k <= n then k else n
    ensures k < 0 ==> r == if n + k < 0 then 0 else n + k
  {
    if k < 0 then (if n + k < 0 then 0 else n + k) else if k <= n then k else n
  }

  /** `s.slice(start, end)`. */
  function Slice<T>(s: seq<T>, start: int, end: int): seq<T> {
    var a, b := ClipIndex(start, |s|), ClipIndex(end, |s|);
    if a < b then s[a..b] else []
  }

  /** The orders `renderOrdersTable(orders, page, pageSize)` shows. */
  function PageSlice(orders: seq<Order>, page: int, pageSize: int): seq<Order> {
    var start := (page - 1) * pageSize;
    Slice(orders, start, start + pageSize)
  }

  /** Page p shows the orders at indices (p-1)*pageSize up to p*pageSize - 1, clipped to the list. */
  lemma PageSliceContents(orders: seq<Order>, page: nat, pageSize: nat)
    requires page >= 1
    ensures var start := (page - 1) * pageSize;
      var shown := PageSlice(orders, page, pageSize);
      && |shown| == (if start >= |orders| then 0 else if start + pageSize <= |orders| then pageSize else |orders| - start)
      && forall i :: 0 <= i < |shown| ==> shown[i] == orders[start + i]
  {
    var start := (page - 1) * pageSize;
    assert start >= 0 by { MulNonNegative(page - 1, pageSize); }
  }

  lemma MulNonNegative(a: nat, b: nat)
    ensures a * b >= 0
  {
  }

  /** `Math.ceil(n / pageSize)`. */
  function TotalPages(n: nat, pageSize: nat): nat
    requires pageSize > 0
  {
    (n + pageSize - 1) / pageSize
  }

  /** The page count is the least number of pages of `pageSize` that hold `n` orders. */
  lemma TotalPagesIsCeiling(n: nat, pageSize: nat)
    requires pageSize > 0
    ensures var t := TotalPages(n, pageSize);
      n <= t * pageSize && (t == 0 || (t - 1) * pageSize < n)
  {
    var t := TotalPages(n, pageSize);
    var r := (n + pageSize - 1) % pageSize;
    assert n + pageSize - 1 == t * pageSize + r;
    if t > 0 {
      assert (t - 1) * pageSize == t * pageSize - pageSize;
    }
  }

  /** Fifty orders in pages of ten make five pages. */
  lemma FiftyOrdersFivePages()
    ensures TotalPages(50, PAGE_SIZE) == 5
  {
  }

  /** Every order is shown on exactly one page: order k is row k % pageSize of page k / pageSize + 1. */
  lemma OrderOnItsPage(orders: seq<Order>, pageSize: nat, k: nat)
    requires pageSize > 0 && k < |orders|
    ensures var page := k / pageSize + 1;
      && 1 <= page <= TotalPages(|orders|, pageSize)
      && k % pageSize < |PageSlice(orders, page, pageSize)|
      && PageSlice(orders, page, pageSize)[k % pageSize] == orders[k]
  {
    var page := k / pageSize + 1;
    var start := (page - 1) * pageSize;
    assert start + k % pageSize == k;
    PageSliceContents(orders, page, pageSize);
    TotalPagesIsCeiling(|orders|, pageSize);
    var t := TotalPages(|orders|, pageSize);
    if t < page {
      assert t * pageSize <= start by { MulMonotone(t, page - 1, pageSize); }
    }
  }

  lemma MulMonotone(a: nat, b: nat, c: nat)
    requires a <= b
    ensures a * c <= b * c
  {
  }

  /** Pages 1 to the page count are never empty, and pages after it always are. */
  lemma PagesInRangeNonEmpty(orders: seq<Order>, pageSize: nat, page: nat)
    requires pageSize > 0 && page >= 1
    ensures PageSlice(orders, page, pageSize) != [] <==> page <= TotalPages(|orders|, pageSize)
  {
    PageSliceContents(orders, page, pageSize);
    TotalPagesIsCeiling(|orders|, pageSize);
    var t := TotalPages(|orders|, pageSize);
    var start := (page - 1) * pageSize;
    if page <= t {
      MulMonotone(page - 1, t - 1, pageSize);
    } else {
      MulMonotone(t, page - 1, pageSize);
    }
  }

  // ---------------------------------------------------------------- rows and statistics

  /** The row of an OPEN or PARTIAL order carries a cancel button. */
  predicate HasCancelButton(o: Order) {
    o.status == "OPEN" || o.status == "PARTIAL"
  }

  /** `orders.filter(o => statuses has o.status).length`. */
  function CountStatus(orders: seq<Order>, statuses: set<string>): nat {
    if orders == [] then 0
    else CountStatus(orders[..|orders| - 1], statuses) + (if orders[|orders| - 1].status in statuses then 1 else 0)
  }

  /** The four counters of `updateOrderStats`. */
  datatype Stats = Stats(total: nat, success: nat, pending: nat, failed: nat)

  const FILLED: set<string> := {"FILLED"}
  const PENDING: set<string> := {"OPEN", "PARTIAL"}
  const CANCELLED: set<string> := {"CANCELLED"}

  function OrderStats(orders: seq<Order>): Stats {
    Stats(|orders|, CountStatus(orders, FILLED), CountStatus(orders, PENDING), CountStatus(orders, CANCELLED))
  }

  /** Counting two disjoint sets of statuses separately adds up to counting their union. */
  lemma {:induction false} CountStatusUnion(orders: seq<Order>, a: set<string>, b: set<string>)
    requires a !! b
    ensures CountStatus(orders, a) + CountStatus(orders, b) == CountStatus(orders, a + b)
  {
    if orders != [] {
      CountStatusUnion(orders[..|orders| - 1], a, b);
    }
  }

  /** The count is at most the number of orders, and all of them when every status is counted. */
  lemma {:induction false} CountStatusBounds(orders: seq<Order>, statuses: set<string>)
    ensures CountStatus(orders, statuses) <= |orders|
    ensures (forall i :: 0 <= i < |orders| ==> orders[i].status in statuses) ==> CountStatus(orders, statuses) == |orders|
  {
    if orders != [] {
      var init := orders[..|orders| - 1];
      CountStatusBounds(init, statuses);
      if forall i :: 0 <= i < |orders| ==> orders[i].status in statuses {
        assert forall i :: 0 <= i < |init| ==> init[i].status == orders[i].status;
      }
    }
  }

  /** The statuses the page's orders come with. */
  const STATUSES: set<string> := {"FILLED", "OPEN", "CANCELLED", "PARTIAL"}

  /** Success, pending and failed never add up to more than the total, and to exactly it when every status is one of the four. */
  lemma StatsPartition(orders: seq<Order>)
    ensures var s := OrderStats(orders);
      && s.success + s.pending + s.failed <= s.total
      && ((forall i :: 0 <= i < |orders| ==> orders[i].status in STATUSES) ==> s.success + s.pending + s.failed == s.total)
  {
    CountStatusUnion(orders, FILLED, PENDING);
    CountStatusUnion(orders, FILLED + PENDING, CANCELLED);
    assert FILLED + PENDING + CANCELLED == STATUSES;
    CountStatusBounds(orders, STATUSES);
  }

  /** The rows with a cancel button are exactly the pending orders of the page. */
  lemma {:induction false} CancelButtonsArePending(rows: seq<Order>)
    ensures CountStatus(rows, PENDING) == |set i | 0 <= i < |rows| && HasCancelButton(rows[i])|
  {
    if rows != [] {
      var init := rows[..|rows| - 1];
      var n := |rows| - 1;
      CancelButtonsArePending(init);
      var before := set i | 0 <= i < |init| && HasCancelButton(init[i]);
      var after := set i | 0 <= i < |rows| && HasCancelButton(rows[i]);
      assert before == set i | 0 <= i < n && HasCancelButton(rows[i]);
      if HasCancelButton(rows[n]) {
        assert after == before + {n};
      } else {
        assert after == before;
      }
    }
  }

  // ---------------------------------------------------------------- checkboxes

  /** `checkboxes.length > 0 && every checked`. */
  predicate AllChecked(boxes: seq<bool>) {
    |boxes| > 0 && forall i :: 0 <= i < |boxes| ==> boxes[i]
  }

  /** `some checked`. */
  predicate SomeChecked(boxes: seq<bool>) {
    exists i :: 0 <= i < |boxes| && boxes[i]
  }

  /** The ids of the rendered rows. */
  function RowIds(rows: seq<Order>): set<string> {
    if rows == [] then {} else RowIds(rows[..|rows| - 1]) + {rows[|rows| - 1].id}
  }

  /** An id is among the rows' ids exactly when some row carries it. */
  lemma {:induction false} RowIdsMembers(rows: seq<Order>, id: string)
    ensures id in RowIds(rows) <==> exists i :: 0 <= i < |rows| && rows[i].id == id
  {
    if rows != [] {
      var init := rows[..|rows| - 1];
      RowIdsMembers(init, id);
      if id in RowIds(init) {
        var i :| 0 <= i < |init| && init[i].id == id;
        assert rows[i].id == id;
      }
      if exists i :: 0 <= i < |rows| && rows[i].id == id {
        var i :| 0 <= i < |rows| && rows[i].id == id;
        if i < |init| {
          assert init[i].id == id;
        }
      }
    }
  }

  /** The `forEach` of the select-all handler: every rendered checkbox takes `checked`, and its id is added or deleted. */
  method ApplySelectAll(rows: seq<Order>, boxes: seq<bool>, selected: set<string>, checked: bool)
    returns (marks: seq<bool>, chosen: set<string>)
    requires |boxes| == |rows|
    ensures |marks| == |boxes| && forall k :: 0 <= k < |marks| ==> marks[k] == checked
    ensures chosen == if checked then selected + RowIds(rows) else selected - RowIds(rows)
  {
    marks, chosen := boxes, selected;
    var k := 0;
    while k < |marks|
      invariant 0 <= k <= |marks| && |marks| == |rows|
      invariant forall j :: 0 <= j < k ==> marks[j] == checked
      invariant chosen == if checked then selected + RowIds(rows[..k]) else selected - RowIds(rows[..k])
    {
      assert rows[..k + 1][..k] == rows[..k];
      marks := marks[k := checked];
      if checked {
        chosen := chosen + {rows[k].id};
      } else {
        chosen := chosen - {rows[k].id};
      }
      k := k + 1;
    }
    assert rows[..|rows|] == rows;
  }

  // ---------------------------------------------------------------- the page

  class Page {
    /** The orders last loaded, in display order. */
    var orders: seq<Order>
    /** The statistics counters. */
    var stats: Stats
    /** The rendered rows, and the checked state of each row's checkbox. */
    var rows: seq<Order>
    var boxes: seq<bool>
    /** `selectedOrders`. */
    var selected: set<string>
    /** The `selectedCount` text and the `cancelSelected` button. */
    var selectedCount: nat
    var cancelSelectedDisabled: bool
    /** The select-all checkbox. */
    var selectAllChecked: bool
    var selectAllIndeterminate: bool
    /** The `currentPage` and `totalPages` texts and the two pagination buttons. */
    var currentPage: nat
    var totalPages: nat
    var prevDisabled: bool
    var nextDisabled: bool

    /** What every handler leaves true of the page. */
    predicate Valid()
      reads this
    {
      && rows == PageSlice(orders, 1, PAGE_SIZE) && |boxes| == |rows|
      && stats == OrderStats(orders)
      && selectedCount == |selected| && (cancelSelectedDisabled <==> selected == {})
      && totalPages == TotalPages(|orders|, PAGE_SIZE)
      && 1 <= currentPage && (currentPage <= totalPages || currentPage == 1)
      && (prevDisabled <==> currentPage == 1)
      && (nextDisabled <==> currentPage >= totalPages)
    }

    /** The select-all state `updateSelectAllCheckbox` derives from the checkboxes. */
    predicate SelectAllDerived()
      reads this
    {
      && (selectAllChecked <==> AllChecked(boxes))
      && (selectAllIndeterminate <==> SomeChecked(boxes) && !AllChecked(boxes))
    }

    /** A fresh page: `selectedOrders` starts empty and `initializeOrdersPage()` ends with `loadOrders()`. */
    constructor (initial: seq<Order>)
      ensures Valid() && orders == initial && selected == {}
      ensures forall i :: 0 <= i < |boxes| ==> !boxes[i]
      ensures currentPage == 1 && !selectAllChecked && !selectAllIndeterminate
    {
      orders, stats, rows, boxes := [], OrderStats([]), [], [];
      selected, selectedCount, cancelSelectedDisabled := {}, 0, true;
      selectAllChecked, selectAllIndeterminate := false, false;
      currentPage, totalPages, prevDisabled, nextDisabled := 1, 0, true, true;
      new;
      LoadOrders(initial);
    }

    /**
     * `loadOrders()` with the list it generated: new statistics, the first page rendered with
     * every checkbox clear and the pagination reset to page 1. The selection and the
     * select-all checkbox are left as they were.
     */
    method LoadOrders(newOrders: seq<Order>)
      requires Valid()
      modifies this
      ensures Valid()
      ensures orders == newOrders && stats == OrderStats(newOrders)
      ensures |boxes| == |rows| && forall i :: 0 <= i < |boxes| ==> !boxes[i]
      ensures currentPage == 1 && totalPages == TotalPages(|newOrders|, PAGE_SIZE)
      ensures prevDisabled && (nextDisabled <==> totalPages <= 1)
      ensures selected == old(selected) && selectedCount == old(selectedCount)
      ensures cancelSelectedDisabled == old(cancelSelectedDisabled)
      ensures selectAllChecked == old(selectAllChecked) && selectAllIndeterminate == old(selectAllIndeterminate)
    {
      orders := newOrders;
      stats := OrderStats(newOrders);
      rows := PageSlice(newOrders, 1, PAGE_SIZE);
      boxes := seq(|rows|, _ => false);
      InitializePagination();
    }

    /** `initializePagination(orders)`. */
    method InitializePagination()
      modifies this
      ensures totalPages == TotalPages(|orders|, PAGE_SIZE) && currentPage == 1
      ensures prevDisabled && (nextDisabled <==> totalPages <= 1)
      ensures orders == old(orders) && stats == old(stats) && rows == old(rows) && boxes == old(boxes)
      ensures selected == old(selected)
      ensures selectedCount == old(selectedCount) && cancelSelectedDisabled == old(cancelSelectedDisabled)
      ensures selectAllChecked == old(selectAllChecked) && selectAllIndeterminate == old(selectAllIndeterminate)
    {
      totalPages := TotalPages(|orders|, PAGE_SIZE);
      currentPage := 1;
      prevDisabled := true;
      nextDisabled := totalPages <= 1;
    }

    /** `updateSelectedCount()` and `updateCancelSelectedButton()`. */
    method ShowSelection()
      modifies this
      ensures selectedCount == |selected| && (cancelSelectedDisabled <==> selected == {})
      ensures orders == old(orders) && stats == old(stats) && rows == old(rows) && boxes == old(boxes)
      ensures selected == old(selected)
      ensures selectAllChecked == old(selectAllChecked) && selectAllIndeterminate == old(selectAllIndeterminate)
      ensures currentPage == old(currentPage) && totalPages == old(totalPages)
      ensures prevDisabled == old(prevDisabled) && nextDisabled == old(nextDisabled)
    {
      selectedCount := |selected|;
      cancelSelectedDisabled := |selected| == 0;
    }

    /** `updateSelectAllCheckbox()`: one pass over the checkboxes for `every` and `some`. */
    method UpdateSelectAllCheckbox()
      modifies this
      ensures SelectAllDerived()
      ensures !(selectAllChecked && selectAllIndeterminate)
      ensures orders == old(orders) && stats == old(stats) && rows == old(rows) && boxes == old(boxes)
      ensures selected == old(selected)
      ensures selectedCount == old(selectedCount) && cancelSelectedDisabled == old(cancelSelectedDisabled)
      ensures currentPage == old(currentPage) && totalPages == old(totalPages)
      ensures prevDisabled == old(prevDisabled) && nextDisabled == old(nextDisabled)
    {
      var every, some := true, false;
      var k := 0;
      while k < |boxes|
        invariant 0 <= k <= |boxes|
        invariant every <==> forall j :: 0 <= j < k ==> boxes[j]
        invariant some <==> exists j :: 0 <= j < k && boxes[j]
      {
        every := every && boxes[k];
        some := some || boxes[k];
        k := k + 1;
      }
      selectAllChecked := |boxes| > 0 && every;
      selectAllIndeterminate := some && !selectAllChecked;
    }

    /** A click on row i's checkbox: its id joins or leaves the selection, and the counters follow. */
    method ToggleCheckbox(i: nat)
      requires Valid() && i < |boxes|
      modifies this
      ensures Valid() && SelectAllDerived()
      ensures boxes == old(boxes)[i := !old(boxes)[i]]
      ensures selected == if boxes[i] then old(selected) + {old(rows)[i].id} else old(selected) - {old(rows)[i].id}
      ensures orders == old(orders) && rows == old(rows) && currentPage == old(currentPage)
      ensures prevDisabled == old(prevDisabled) && nextDisabled == old(nextDisabled)
    {
      var id := rows[i].id;
      boxes := boxes[i := !boxes[i]];
      if boxes[i] {
        selected := selected + {id};
      } else {
        selected := selected - {id};
      }
      ShowSelection();
      UpdateSelectAllCheckbox();
    }

    /**
     * A click on the select-all checkbox: it flips and stops being indeterminate, then every
     * rendered checkbox takes its state and every rendered id joins or leaves the selection.
     */
    method SelectAllChange()
      requires Valid()
      modifies this
      ensures Valid()
      ensures selectAllChecked == !old(selectAllChecked) && !selectAllIndeterminate
      ensures |boxes| == |old(boxes)| && forall k :: 0 <= k < |boxes| ==> boxes[k] == selectAllChecked
      ensures selected == if selectAllChecked then old(selected) + RowIds(rows) else old(selected) - RowIds(rows)
      ensures orders == old(orders) && rows == old(rows) && currentPage == old(currentPage)
      ensures prevDisabled == old(prevDisabled) && nextDisabled == old(nextDisabled)
    {
      var checked := !selectAllChecked;
      var marks, chosen := ApplySelectAll(rows, boxes, selected, checked);
      selectAllChecked, selectAllIndeterminate, boxes, selected := checked, false, marks, chosen;
      ShowSelection();
    }

    /**
     * The cancel-selected button: nothing happens with an empty selection or when the
     * confirmation is refused; otherwise the selection is cleared and the orders reloaded.
     * Nothing touches the select-all checkbox, so it keeps its state over the fresh rows.
     */
    method CancelSelected(confirmed: bool, reloaded: seq<Order>)
      requires Valid()
      modifies this
      ensures Valid()
      ensures old(selected) == {} || !confirmed ==> unchanged(this)
      ensures old(selected) != {} && confirmed ==>
        && selected == {} && selectedCount == 0 && cancelSelectedDisabled
        && orders == reloaded && currentPage == 1 && forall k :: 0 <= k < |boxes| ==> !boxes[k]
      ensures selectAllChecked == old(selectAllChecked) && selectAllIndeterminate == old(selectAllIndeterminate)
    {
      if |selected| == 0 {
        return;
      }
      if confirmed {
        selected := {};
        ShowSelection();
        LoadOrders(reloaded);
      }
    }

    /**
     * `cancelSingleOrder(orderId)`, reached from the cancel button of an OPEN or PARTIAL row:
     * once confirmed, only that id leaves the selection and the orders are reloaded, the
     * select-all checkbox keeping its state.
     */
    method CancelSingleOrder(orderId: string, confirmed: bool, reloaded: seq<Order>)
      requires Valid()
      modifies this
      ensures Valid()
      ensures !confirmed ==> unchanged(this)
      ensures confirmed ==>
        && selected == old(selected) - {orderId}
        && orders == reloaded && currentPage == 1 && forall k :: 0 <= k < |boxes| ==> !boxes[k]
      ensures selectAllChecked == old(selectAllChecked) && selectAllIndeterminate == old(selectAllIndeterminate)
    {
      if confirmed {
        selected := selected - {orderId};
        ShowSelection();
        LoadOrders(reloaded);
      }
    }

    /** `goToPage(page)`: only the counter and the two buttons change; the table is not rendered again. */
    method GoToPage(page: nat)
      modifies this
      ensures currentPage == page && (prevDisabled <==> page == 1) && (nextDisabled <==> page == totalPages)
      ensures orders == old(orders) && stats == old(stats) && rows == old(rows) && boxes == old(boxes)
      ensures selected == old(selected)
      ensures selectedCount == old(selectedCount) && cancelSelectedDisabled == old(cancelSelectedDisabled)
      ensures selectAllChecked == old(selectAllChecked) && selectAllIndeterminate == old(selectAllIndeterminate)
      ensures totalPages == old(totalPages)
    {
      currentPage := page;
      prevDisabled := page == 1;
      nextDisabled := page == totalPages;
    }

    /** The previous-page button: one page back unless already on page 1. */
    method PrevPage()
      requires Valid()
      modifies this
      ensures Valid() && rows == old(rows) && boxes == old(boxes) && orders == old(orders) && selected == old(selected)
      ensures currentPage == if old(currentPage) > 1 then old(currentPage) - 1 else old(currentPage)
      ensures selectAllChecked == old(selectAllChecked) && selectAllIndeterminate == old(selectAllIndeterminate)
    {
      if currentPage > 1 {
        GoToPage(currentPage - 1);
      }
    }

    /** The next-page button: one page on unless already on the last page. */
    method NextPage()
      requires Valid()
      modifies this
      ensures Valid() && rows == old(rows) && boxes == old(boxes) && orders == old(orders) && selected == old(selected)
      ensures currentPage == if old(currentPage) < totalPages then old(currentPage) + 1 else old(currentPage)
      ensures currentPage <= totalPages || currentPage == 1
      ensures selectAllChecked == old(selectAllChecked) && selectAllIndeterminate == old(selectAllIndeterminate)
    {
      if currentPage < totalPages {
        GoToPage(currentPage + 1);
      }
    }
  }

  /** The select-all checkbox as derived is never both checked and indeterminate. */
  lemma SelectAllNeverBoth(boxes: seq<bool>)
    ensures !(AllChecked(boxes) && (SomeChecked(boxes) && !AllChecked(boxes)))
    ensures AllChecked(boxes) ==> SomeChecked(boxes)
  {
    if AllChecked(boxes) {
      assert boxes[0];
    }
  }
}
