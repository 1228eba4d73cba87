/**
 * The customer portal in the browser (public/js/customer/core.js,
 * orders.js and stock.js): the page's global state, the two carts (catalog
 * items by stock id, free-text requests by name), the summary bar, order
 * submission, the stock list and its paging, and how the vendor code is
 * found. Network replies are parameters; the DOM is reduced to the values
 * the page shows.
 */
module Portal {
  import opened Wrappers
  import opened Text
  import opened Seqs
  import opened Dict

  /** What the summary bar shows (orders.js:19-43). */
  datatype Summary = Summary(totalItems: int, countText: string, submitEnabled: bool, submitLabel: string)

  const PlaceOrderLabel := "Place Order →"
  const AddItemsLabel := "Add Items"

  /** The summary for a total count: submit is enabled exactly when something is in a cart. */
  function SummaryOf(total: int): (s: Summary)
    ensures s.totalItems == total
    ensures s.submitEnabled <==> total > 0
    ensures s.submitLabel == (if total > 0 then PlaceOrderLabel else AddItemsLabel)
    ensures StartsWith(s.countText, IntToString(total) + " item")
    ensures (s.countText == IntToString(total) + " item") <==> total == 1
    ensures total != 1 ==> s.countText == IntToString(total) + " items"
  {
    var text := IntToString(total) + " item" + (if total != 1 then "s" else "");
    assert StartsWith(text, IntToString(total) + " item") by {
      assert text[..|IntToString(total) + " item"|] == IntToString(total) + " item";
    }
    Summary(total, text, total > 0, if total > 0 then PlaceOrderLabel else AddItemsLabel)
  }

  /** The paging state of the stock list (core.js:10-16). */
  datatype Pager = Pager(page: int, limit: int, totalPages: int, loading: bool, search: string)

  /** One stock row as the portal lists it. */
  datatype ShownItem = ShownItem(id: int, itemName: string, quantity: int, hasOffer: bool, offerText: string)

  /** One line of the order request body. */
  datatype PayloadItem = CatalogItem(stockId: int, quantity: int) | ManualItem(itemName: string, quantity: int)

  datatype Payload = Payload(uniqueCode: string, customerId: string, items: seq<PayloadItem>, notes: string)

  /** The order endpoint's answer: success, an error reply, or a failed request. */
  datatype OrderResponse = Placed(orderNumber: string) | Rejected(error: string) | NetworkFailure

  /** A page of search results. */
  datatype SearchPage = SearchPage(stock: seq<ShownItem>, totalPages: int)

  /** The current-tenant endpoint: ok with its unique code ("" when absent), not ok, or a failed request. */
  datatype TenantReply = TenantOk(uniqueCode: string) | TenantNotOk | TenantThrew

  /** The customer saved in local storage by an earlier login. */
  datatype SavedCustomer = SavedCustomer(externalId: string, uniqueCode: string)

  /** The request items: one per catalog entry, then one per free-text entry, each with its count. */
  function PayloadItems(cart: Entries<int>, manualCart: Entries<string>): (items: seq<PayloadItem>)
    requires DistinctKeys(cart) && DistinctKeys(manualCart)
    ensures |items| == |cart| + |manualCart|
    ensures forall i :: 0 <= i < |cart| ==>
              items[i].CatalogItem? && items[i].stockId == cart[i].0 && items[i].quantity == Get(cart, cart[i].0)
    ensures forall j :: 0 <= j < |manualCart| ==>
              items[|cart| + j].ManualItem? && items[|cart| + j].itemName == manualCart[j].0
              && items[|cart| + j].quantity == Get(manualCart, manualCart[j].0)
  {
    var catalog := seq(|cart|, i requires 0 <= i < |cart| => CatalogItem(cart[i].0, cart[i].1));
    var manual := seq(|manualCart|, j requires 0 <= j < |manualCart| => ManualItem(manualCart[j].0, manualCart[j].1));
    forall i | 0 <= i < |cart| ensures Get(cart, cart[i].0) == cart[i].1 {
      GetPresent(cart, i);
    }
    forall j | 0 <= j < |manualCart| ensures Get(manualCart, manualCart[j].0) == manualCart[j].1 {
      GetPresent(manualCart, j);
    }
    catalog + manual
  }

  /** `Math.max(0, n)`. */
  function Max0(n: int): (m: int)
    ensures m >= 0 && m >= n && (m == 0 || m == n)
  {
    if n > 0 then n else 0
  }

  /** The count after adding `delta`: clamped at 0, and the key is dropped at 0 (orders.js:3-10, stock.js:232-238). */
  function Bump<K(==,!new)>(d: Entries<K>, k: K, delta: int): (r: Entries<K>)
    requires DistinctKeys(d) && AllPositive(d)
    ensures DistinctKeys(r) && AllPositive(r)
    ensures Get(r, k) == Max0(Get(d, k) + delta)
    ensures forall x :: x != k ==> Get(r, x) == Get(d, x) && (HasKey(r, x) <==> HasKey(d, x))
    ensures Total(r) == Total(d) - Get(d, k) + Max0(Get(d, k) + delta)
  {
    SetCount(d, k, Max0(Get(d, k) + delta))
  }

  /** The key set to the count `n`, or taken out when `n` is 0. */
  function SetCount<K(==,!new)>(d: Entries<K>, k: K, n: nat): (r: Entries<K>)
    requires DistinctKeys(d) && AllPositive(d)
    ensures DistinctKeys(r) && AllPositive(r)
    ensures Get(r, k) == n && (HasKey(r, k) <==> n > 0)
    ensures forall x :: x != k ==> Get(r, x) == Get(d, x) && (HasKey(r, x) <==> HasKey(d, x))
    ensures Total(r) == Total(d) - Get(d, k) + n
  {
    if n == 0 then
      TotalRemove(d, k);
      RemoveKeepsPositive(d, k);
      Remove(d, k)
    else
      TotalPut(d, k, n);
      PutKeepsPositive(d, k, n);
      Put(d, k, n)
  }

  /** A count that reaches zero takes its key out of the dictionary. */
  lemma BumpDropsKey<K(!new)>(d: Entries<K>, k: K, delta: int)
    requires DistinctKeys(d) && AllPositive(d)
    ensures HasKey(Bump(d, k, delta), k) <==> Get(d, k) + delta > 0
  {
  }

  lemma {:induction false} RemoveKeepsPositive<K(!new)>(d: Entries<K>, k: K)
    requires DistinctKeys(d) && AllPositive(d)
    ensures AllPositive(Remove(d, k))
    decreases |d|
  {
    if d != [] {
      assert AllPositive(d[1..]) by {
        forall i | 0 <= i < |d[1..]| ensures d[1..][i].1 > 0 { assert d[1..][i] == d[i + 1]; }
      }
      RemoveKeepsPositive(d[1..], k);
    }
  }

  lemma {:induction false} PutKeepsPositive<K(!new)>(d: Entries<K>, k: K, v: int)
    requires DistinctKeys(d) && AllPositive(d) && v > 0
    ensures AllPositive(Put(d, k, v))
    decreases |d|
  {
    if d != [] && d[0].0 != k {
      assert AllPositive(d[1..]) by {
        forall i | 0 <= i < |d[1..]| ensures d[1..][i].1 > 0 { assert d[1..][i] == d[i + 1]; }
      }
      PutKeepsPositive(d[1..], k, v);
    } else if d != [] {
      assert forall i :: 0 < i < |d| ==> Put(d, k, v)[i] == d[i];
    }
  }

  /** With positive counts only, submit is enabled exactly when a cart holds an entry. */
  lemma SubmitEnabledIffNonEmpty(cart: Entries<int>, manualCart: Entries<string>)
    requires AllPositive(cart) && AllPositive(manualCart)
    ensures SummaryOf(Total(cart) + Total(manualCart)).submitEnabled <==> cart != [] || manualCart != []
  {
    PositiveTotal(cart);
    PositiveTotal(manualCart);
  }

  /** How an item's stock is shown (stock.js:125-126). */
  datatype Level = OutOfStock | LowStock | InStock

  function LevelOf(quantity: int): (l: Level)
    ensures l == OutOfStock <==> quantity <= 0
    ensures l == LowStock <==> 0 < quantity <= 10
    ensures l == InStock <==> quantity > 10
  {
    if quantity <= 0 then OutOfStock else if quantity <= 10 then LowStock else InStock
  }

  predicate Available(i: ShownItem) { i.quantity > 0 }
  predicate Unavailable(i: ShownItem) { i.quantity <= 0 }

  /**
   * The flat search list (stock.js:174-191): available items first, then
   * the out-of-stock ones, each group in the order received; nothing is
   * lost or repeated.
   */
  function FlatList(items: seq<ShownItem>): (r: seq<ShownItem>)
    ensures multiset(r) == multiset(items)
    ensures |Keep(items, Available)| <= |r|
    ensures forall i :: 0 <= i < |Keep(items, Available)| ==> r[i].quantity > 0
    ensures forall i :: |Keep(items, Available)| <= i < |r| ==> r[i].quantity <= 0
    ensures r[..|Keep(items, Available)|] == Keep(items, Available)
  {
    var available := Keep(items, Available);
    var outOfStock := Keep(items, Unavailable);
    KeepPartition(items, Available, Unavailable);
    AvailableFirst(available, outOfStock);
    available + outOfStock
  }

  /** Available items followed by unavailable ones: the boundary is the length of the first group. */
  lemma AvailableFirst(available: seq<ShownItem>, outOfStock: seq<ShownItem>)
    requires forall x :: x in available ==> Available(x)
    requires forall x :: x in outOfStock ==> Unavailable(x)
    ensures var r := available + outOfStock;
            (forall i :: 0 <= i < |available| ==> r[i].quantity > 0)
            && (forall i :: |available| <= i < |r| ==> r[i].quantity <= 0)
            && r[..|available|] == available
  {
    var r := available + outOfStock;
    forall i | 0 <= i < |r|
      ensures i < |available| ==> r[i].quantity > 0
      ensures i >= |available| ==> r[i].quantity <= 0
    {
      if i < |available| {
        assert r[i] == available[i] && available[i] in available;
      } else {
        assert r[i] == outOfStock[i - |available|] && outOfStock[i - |available|] in outOfStock;
      }
    }
    assert r[..|available|] == available;
  }

  /** A path segment that `filter(p => p)` keeps. */
  predicate NonEmpty(p: string) {
    p != ""
  }

  /** The segments of a URL path, empty ones dropped (`pathname.split('/').filter(p => p)`). */
  function PathParts(pathname: string): (parts: seq<string>)
    ensures forall i :: 0 <= i < |parts| ==> parts[i] != "" && '/' !in parts[i]
    ensures forall p :: p in parts <==> p in Split(pathname, '/') && p != ""
  {
    var pieces := Split(pathname, '/');
    var parts := Keep(pieces, NonEmpty);
    assert forall p :: p in parts <==> p in pieces && NonEmpty(p);
    forall i | 0 <= i < |parts|
      ensures parts[i] != "" && '/' !in parts[i]
    {
      assert parts[i] in pieces && NonEmpty(parts[i]);
      var k :| 0 <= k < |pieces| && pieces[k] == parts[i];
      assert '/' !in pieces[k];
    }
    parts
  }

  /**
   * A path written as "/" followed by non-empty segments joined with '/'
   * gives back exactly those segments, in their order.
   */
  lemma PathPartsOfSegments(segments: seq<string>)
    requires |segments| >= 1
    requires forall k :: 0 <= k < |segments| ==> segments[k] != "" && '/' !in segments[k]
    ensures PathParts("/" + Join(segments, '/')) == segments
  {
    var path := "/" + Join(segments, '/');
    var pieces := [""] + segments;
    assert Join(pieces, '/') == path by {
      assert pieces[1..] == segments;
    }
    SplitJoin(pieces, '/');
    KeepConcat([""], segments, NonEmpty);
    KeepAll(segments, NonEmpty);
    assert Keep([""], NonEmpty) == [] by {
      assert [""][..0] == [];
    }
  }

  /**
   * The path fallback for the vendor code: the last segment; with the
   * admin rule, a last segment 'admin' gives the one before it ("" when
   * none). An empty path leaves the code as it was.
   */
  function PathCode(pathname: string, current: string, adminRule: bool): (code: string)
    ensures PathParts(pathname) == [] ==> code == current
    ensures PathParts(pathname) != [] && (!adminRule || Last(PathParts(pathname)) != "admin") ==>
              code == Last(PathParts(pathname)) && code != "" && '/' !in code
    ensures PathParts(pathname) != [] && adminRule && Last(PathParts(pathname)) == "admin" ==>
              code == (if |PathParts(pathname)| >= 2 then PathParts(pathname)[|PathParts(pathname)| - 2] else "")
  {
    var parts := PathParts(pathname);
    if parts == [] then current
    else
      var last := parts[|parts| - 1];
      if adminRule && last == "admin" then (if |parts| >= 2 then parts[|parts| - 2] else "")
      else last
  }

  function Last(parts: seq<string>): string
    requires parts != []
  {
    parts[|parts| - 1]
  }

  /** The browser page's global state. */
  class CustomerPortal {
    var uniqueCode: string
    var customerId: string
    var cart: Entries<int>
    var manualCart: Entries<string>
    var stockItems: seq<ShownItem>
    var pager: Pager
    var summary: Summary

    /** The carts are dictionaries with positive counts, and the bar shows their total. */
    predicate Valid()
      reads this
    {
      DistinctKeys(cart) && DistinctKeys(manualCart) && AllPositive(cart) && AllPositive(manualCart)
      && summary.totalItems == Total(cart) + Total(manualCart)
    }

    constructor ()
      ensures Valid()
      ensures uniqueCode == "" && customerId == "" && cart == [] && manualCart == [] && stockItems == []
      ensures pager == Pager(1, 20, 1, false, "")
    {
      uniqueCode := "";
      customerId := "";
      cart := [];
      manualCart := [];
      stockItems := [];
      pager := Pager(1, 20, 1, false, "");
      summary := SummaryOf(0);
    }

    /** `updateSummaryBar`. */
    method UpdateSummaryBar()
      requires DistinctKeys(cart) && DistinctKeys(manualCart) && AllPositive(cart) && AllPositive(manualCart)
      modifies this
      ensures Valid()
      ensures summary == SummaryOf(Total(cart) + Total(manualCart))
      ensures summary.submitEnabled <==> cart != [] || manualCart != []
      ensures cart == old(cart) && manualCart == old(manualCart) && stockItems == old(stockItems)
      ensures pager == old(pager) && uniqueCode == old(uniqueCode) && customerId == old(customerId)
    {
      SubmitEnabledIffNonEmpty(cart, manualCart);
      summary := SummaryOf(Total(cart) + Total(manualCart));
    }

    /** `updateQty`: `maxQty` is not consulted, so the count is not capped at the stock on hand. */
    method UpdateQty(stockId: int, delta: int, maxQty: int)
      requires Valid()
      modifies this
      ensures Valid()
      ensures cart == Bump(old(cart), stockId, delta)
      ensures Get(cart, stockId) == Max0(Get(old(cart), stockId) + delta)
      ensures summary.totalItems == old(summary.totalItems) - Get(old(cart), stockId) + Get(cart, stockId)
      ensures manualCart == old(manualCart) && stockItems == old(stockItems)
      ensures pager == old(pager) && uniqueCode == old(uniqueCode) && customerId == old(customerId)
    {
      var next := Bump(cart, stockId, delta);
      assert Total(next) == Total(cart) - Get(cart, stockId) + Get(next, stockId);
      cart := next;
      UpdateSummaryBar();
    }

    /** `addManualItem`: an empty name is ignored; otherwise one more of that request. */
    method AddManualItem(name: string)
      requires Valid()
      modifies this
      ensures Valid()
      ensures name == "" ==> unchanged(this)
      ensures name != "" ==> manualCart == Bump(old(manualCart), name, 1)
                             && Get(manualCart, name) == Get(old(manualCart), name) + 1
                             && summary.totalItems == old(summary.totalItems) + 1
      ensures cart == old(cart) && stockItems == old(stockItems)
      ensures pager == old(pager) && uniqueCode == old(uniqueCode) && customerId == old(customerId)
    {
      if name == "" {
        return;
      }
      manualCart := Bump(manualCart, name, 1);
      UpdateSummaryBar();
    }

    /** `updateManualQty`. */
    method UpdateManualQty(name: string, delta: int)
      requires Valid()
      modifies this
      ensures Valid()
      ensures manualCart == Bump(old(manualCart), name, delta)
      ensures summary.totalItems == old(summary.totalItems) - Get(old(manualCart), name) + Get(manualCart, name)
      ensures cart == old(cart) && stockItems == old(stockItems)
      ensures pager == old(pager) && uniqueCode == old(uniqueCode) && customerId == old(customerId)
    {
      manualCart := Bump(manualCart, name, delta);
      UpdateSummaryBar();
    }

    /**
     * `submitOrder`: nothing is sent when both carts are empty. Otherwise
     * the request carries every catalog entry, then every free-text entry;
     * on success both carts are emptied, otherwise they are kept. Either way
     * the submit button is enabled again at the end, even over empty carts.
     */
    method SubmitOrder(response: OrderResponse) returns (sent: Option<Payload>)
      requires Valid()
      modifies this
      ensures Valid()
      ensures old(cart) == [] && old(manualCart) == [] ==> sent.None? && unchanged(this)
      ensures old(cart) != [] || old(manualCart) != [] ==>
                sent == Some(Payload(old(uniqueCode), old(customerId), PayloadItems(old(cart), old(manualCart)), ""))
                && summary.submitEnabled && summary.submitLabel == PlaceOrderLabel
      ensures sent.Some? && response.Placed? ==> cart == [] && manualCart == [] && summary.totalItems == 0
      ensures sent.Some? && !response.Placed? ==>
                cart == old(cart) && manualCart == old(manualCart) && summary.totalItems == old(summary.totalItems)
      ensures stockItems == old(stockItems) && pager == old(pager)
      ensures uniqueCode == old(uniqueCode) && customerId == old(customerId)
    {
      if cart == [] && manualCart == [] {
        return None;
      }
      sent := Some(Payload(uniqueCode, customerId, PayloadItems(cart, manualCart), ""));
      if response.Placed? {
        cart := [];
        manualCart := [];
        UpdateSummaryBar();
      }
      summary := summary.(submitEnabled := true, submitLabel := PlaceOrderLabel);
    }

    /** The first half of `loadStock`: refused while a load is in progress, otherwise marks one as started. */
    method BeginLoad(page: int) returns (started: bool)
      modifies this
      ensures started <==> !old(pager.loading)
      ensures !started ==> unchanged(this)
      ensures started ==> pager == old(pager).(page := page, loading := true)
      ensures cart == old(cart) && manualCart == old(manualCart) && stockItems == old(stockItems)
      ensures summary == old(summary) && uniqueCode == old(uniqueCode) && customerId == old(customerId)
    {
      if pager.loading {
        return false;
      }
      pager := pager.(page := page, loading := true);
      started := true;
    }

    /**
     * The rest of `loadStock`: with a search, a page of results replaces the
     * list or, in append mode, is added after it; a failed request keeps the
     * list. Without a search only the manufacturer list is fetched, which
     * leaves the list alone. The loading flag is cleared in every case.
     */
    method FinishLoad(append: bool, response: Option<SearchPage>)
      modifies this
      ensures !pager.loading
      ensures old(pager.search) != "" && response.Some? ==>
                stockItems == (if append then old(stockItems) + response.value.stock else response.value.stock)
                && pager == old(pager).(totalPages := response.value.totalPages, loading := false)
      ensures old(pager.search) == "" || response.None? ==>
                stockItems == old(stockItems) && pager == old(pager).(loading := false)
      ensures cart == old(cart) && manualCart == old(manualCart)
      ensures summary == old(summary) && uniqueCode == old(uniqueCode) && customerId == old(customerId)
    {
      if pager.search != "" && response.Some? {
        pager := pager.(totalPages := response.value.totalPages);
        if append {
          stockItems := stockItems + response.value.stock;
        } else {
          stockItems := response.value.stock;
        }
      }
      pager := pager.(loading := false);
    }

    /** `filterItems`: the search text is the query with surrounding white space removed. */
    method SetSearch(query: string)
      modifies this
      ensures pager == old(pager).(search := Trim(query))
      ensures cart == old(cart) && manualCart == old(manualCart) && stockItems == old(stockItems)
      ensures summary == old(summary) && uniqueCode == old(uniqueCode) && customerId == old(customerId)
    {
      pager := pager.(search := Trim(query));
    }

    /** `renderLoadMore`: the button is shown while pages remain. */
    predicate ShowLoadMore()
      reads this
    {
      pager.page < pager.totalPages
    }

    /**
     * `fetchTenantInfo`: the tenant's code when the endpoint answers
     * (or "" when it has none); otherwise the path fallback, with the
     * 'admin' rule only for a not-ok reply.
     */
    method FetchTenantInfo(pathname: string, reply: TenantReply)
      modifies this
      ensures reply.TenantOk? ==> uniqueCode == reply.uniqueCode
      ensures reply.TenantNotOk? ==> uniqueCode == PathCode(pathname, old(uniqueCode), true)
      ensures reply.TenantThrew? ==> uniqueCode == PathCode(pathname, old(uniqueCode), false)
      ensures customerId == old(customerId) && cart == old(cart) && manualCart == old(manualCart)
      ensures stockItems == old(stockItems) && pager == old(pager) && summary == old(summary)
    {
      match reply
      case TenantOk(code) => uniqueCode := code;
      case TenantNotOk => uniqueCode := PathCode(pathname, uniqueCode, true);
      case TenantThrew => uniqueCode := PathCode(pathname, uniqueCode, false);
    }

    /** The load handler's session restore: the saved customer's id, and its vendor code when it has one. */
    method RestoreSession(saved: Option<SavedCustomer>)
      modifies this
      ensures saved.None? ==> unchanged(this)
      ensures saved.Some? ==> customerId == saved.value.externalId
      ensures saved.Some? ==> uniqueCode == (if saved.value.uniqueCode != "" then saved.value.uniqueCode else old(uniqueCode))
      ensures cart == old(cart) && manualCart == old(manualCart)
      ensures stockItems == old(stockItems) && pager == old(pager) && summary == old(summary)
    {
      if saved.Some? {
        customerId := saved.value.externalId;
        if saved.value.uniqueCode != "" {
          uniqueCode := saved.value.uniqueCode;
        }
      }
    }
  }

  /** The two fallbacks differ only on a path ending in 'admin'. */
  lemma FallbacksAgree(pathname: string, current: string)
    requires PathParts(pathname) == [] || Last(PathParts(pathname)) != "admin"
    ensures PathCode(pathname, current, true) == PathCode(pathname, current, false)
  {
  }
}
