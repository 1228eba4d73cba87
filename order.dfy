/**
 * Order placement (routes/customer.js, POST /order and POST /verify).
 *
 * The handler resolves the customer, prices every cart line against the
 * vendor's stock and active offers, numbers the order, and commits the
 * order, its items and the stock decrements in one transaction.
 * `PriceAll`, `ApplyDecrements` and `CommitSucceeds` are the reference
 * definitions the imperative methods are proved against.
 */
module Ordering {
  import opened Wrappers
  import opened Text
  import opened Schema
  import Bonus
  import OrderNumber

  /** One entry of the request's `items` array; each field is the text of the JSON value, "" when missing or falsy. */
  datatype CartLine = CartLine(stockRef: string, itemName: string, quantity: string)

  /** The request body; `items` is None when it is missing or not an array. */
  datatype OrderRequest = OrderRequest(uniqueCode: string, customerId: string, items: Option<seq<CartLine>>, notes: string)

  datatype Response =
    | Placed(orderNumber: string, orderId: int, totalAmount: int)
    | Verified(customerId: int, customer: Customer, companyName: Option<string>)
    | Failed(status: int, error: string)

  /** The handlers' error responses (routes/customer.js). */
  const CustomerNotFound := Failed(401, "Invalid Customer ID. Please check and try again.")
  const IdentityFailed := Failed(401, "Identity verification failed. Please check your Customer ID.")
  const EmptyCart := Failed(400, "Please add at least one item to your order")
  const ItemNotFound := Failed(404, "Item not found.")
  const TransactionFailed := Failed(500, "Transaction failed")

  /** What goes wrong inside the transaction, if anything: the new id is missing, or the n-th statement fails. */
  datatype TxFault = NoFault | OrderIdMissing | StatementFails(step: nat)

  // ---------- request fields ----------

  /** The vendor code: the tenant's when a tenant was resolved, else the body's. */
  function CodeToUse(tenant: Option<Tenant>, bodyCode: string): string {
    if tenant.Some? then tenant.value.admin.uniqueCode else bodyCode
  }

  /** `parseInt(quantity) || 1`: a missing, unparseable or zero quantity becomes 1; negatives pass. */
  function LineQuantity(raw: string): (q: int)
    ensures q != 0
    ensures ParseInt(raw).Some? && ParseInt(raw).value != 0 ==> q == ParseInt(raw).value
    ensures ParseInt(raw).None? || ParseInt(raw).value == 0 ==> q == 1
  {
    ParseIntOr(raw, 1)
  }

  /** `stockId ? parseInt(stockId) : null`, then falsy means a free-text line. */
  function CatalogRef(raw: string): (r: Option<int>)
    ensures r.Some? ==> r.value != 0 && ParseInt(raw) == r
    ensures r.None? ==> raw == "" || ParseInt(raw).None? || ParseInt(raw) == Some(0)
  {
    if raw == "" then None
    else match ParseInt(raw)
      case Some(v) => if v == 0 then None else Some(v)
      case None => None
  }

  // ---------- pricing one line ----------

  /** A free-text line: named "Custom Item" when no name was given; no price, no offer. */
  function ManualLine(itemName: string, qty: int): (l: OrderLine)
    ensures l.stockId.None? && l.quantity == qty
    ensures l.unitPrice == 0 && l.totalPrice == 0 && l.bonusQty == 0
    ensures !l.isOffer && l.appliedOffer.None? && !l.offerSkipped && l.missedOfferText.None?
    ensures l.itemName == if itemName == "" then "Custom Item" else itemName
  {
    OrderLine(None, if itemName == "" then "Custom Item" else itemName, qty, 0, 0, false, 0, None, false, None, 0, 0)
  }

  /**
   * A catalog line priced from its stock row and the stock row's active offer
   * (`offer` is that offer, or None when the LEFT JOIN found none).
   */
  function PriceCatalogLine(id: int, qty: int, s: StockItem, offer: Option<Offer>): (l: OrderLine)
    requires offer.Some? ==> offer.value.isActive
    ensures l.stockId == Some(id) && l.quantity == qty && l.itemName == s.itemName
    ensures l.totalPrice == l.unitPrice * qty
    ensures !(l.appliedOffer.Some? && l.offerSkipped)
    ensures l.bonusQty > 0 ==> l.appliedOffer.Some? && s.quantity >= qty + l.bonusQty
    ensures l.isOffer <==> l.appliedOffer.Some? && l.appliedOffer.value != ""
    ensures l.offerSkipped <==> l.missedOfferText.Some?
    ensures offer.None? ==> l.bonusQty == 0 && l.appliedOffer.None? && !l.offerSkipped && l.unitPrice == s.price
  {
    var bonus0 := if offer.Some? then Bonus.CalculateBonus(Some(offer.value.text), qty) else 0;
    var skipped := bonus0 > 0 && s.quantity < qty + bonus0;
    var bonus := if skipped then 0 else bonus0;
    var applied := if offer.Some? && !skipped then Some(offer.value.text) else None;
    var missed := if skipped then Some(offer.value.text) else None;
    var unitPrice := if offer.Some? && offer.value.price.Some? then offer.value.price.value else s.price;
    OrderLine(Some(id), s.itemName, qty, unitPrice, unitPrice * qty,
              applied.Some? && applied.value != "", bonus, applied, skipped, missed, s.distPrice, s.mrp)
  }

  /** The active offer joined to stock row `id` of the vendor, if any. */
  function ActiveOffer(offers: map<(int, int), Offer>, adminId: int, id: int): (o: Option<Offer>)
    ensures o.Some? ==> o.value.isActive
  {
    if (adminId, id) in offers && offers[(adminId, id)].isActive then Some(offers[(adminId, id)]) else None
  }

  /** One cart line priced; None when it names a stock row that is not the vendor's (the 404). */
  function PriceLine(stock: map<int, StockItem>, offers: map<(int, int), Offer>, adminId: int, c: CartLine): Option<OrderLine> {
    var qty := LineQuantity(c.quantity);
    match CatalogRef(c.stockRef)
    case None => Some(ManualLine(c.itemName, qty))
    case Some(id) =>
      if id in stock && stock[id].adminId == adminId then
        Some(PriceCatalogLine(id, qty, stock[id], ActiveOffer(offers, adminId, id)))
      else None
  }

  // ---------- pricing the cart ----------

  /** Every line priced against the stock as it was before the order; None if any line is unknown. */
  function PriceAll(stock: map<int, StockItem>, offers: map<(int, int), Offer>, adminId: int, cart: seq<CartLine>): Option<seq<OrderLine>>
    decreases |cart|
  {
    if cart == [] then Some([])
    else match PriceAll(stock, offers, adminId, cart[..|cart| - 1])
      case None => None
      case Some(ls) =>
        match PriceLine(stock, offers, adminId, cart[|cart| - 1])
        case None => None
        case Some(l) => Some(ls + [l])
  }

  /** Sum of the line totals. */
  function Sum(lines: seq<OrderLine>): int
    decreases |lines|
  {
    if lines == [] then 0 else Sum(lines[..|lines| - 1]) + lines[|lines| - 1].totalPrice
  }

  /** The cart is priced line by line: one order line per cart line, each the price of its own cart line. */
  lemma {:induction false} PriceAllPointwise(stock: map<int, StockItem>, offers: map<(int, int), Offer>, adminId: int, cart: seq<CartLine>)
    requires PriceAll(stock, offers, adminId, cart).Some?
    ensures var ls := PriceAll(stock, offers, adminId, cart).value;
            |ls| == |cart|
            && forall i :: 0 <= i < |cart| ==> PriceLine(stock, offers, adminId, cart[i]) == Some(ls[i])
    decreases |cart|
  {
    if cart != [] {
      var front, last := cart[..|cart| - 1], cart[|cart| - 1];
      PriceAllPointwise(stock, offers, adminId, front);
      PriceAllStep(stock, offers, adminId, cart);
      var fl := PriceAll(stock, offers, adminId, front).value;
      var l := PriceLine(stock, offers, adminId, last).value;
      PriceAllExtend(stock, offers, adminId, cart, |cart| - 1, fl, l);
      assert cart[..|cart|] == cart;
      PointwiseExtend(c => PriceLine(stock, offers, adminId, c), front, cart, fl, l);
    }
  }

  /** Lines priced one by one stay so when one more priced line is appended. */
  lemma PointwiseExtend(price: CartLine -> Option<OrderLine>, front: seq<CartLine>, cart: seq<CartLine>,
                        fl: seq<OrderLine>, l: OrderLine)
    requires cart != [] && front == cart[..|cart| - 1] && |fl| == |front|
    requires forall i :: 0 <= i < |front| ==> price(front[i]) == Some(fl[i])
    requires price(cart[|cart| - 1]) == Some(l)
    ensures forall i :: 0 <= i < |cart| ==> price(cart[i]) == Some((fl + [l])[i])
  {
    forall i | 0 <= i < |cart|
      ensures price(cart[i]) == Some((fl + [l])[i])
    {
      if i < |front| {
        assert cart[i] == front[i] && (fl + [l])[i] == fl[i];
      }
    }
  }

  /** The cart is rejected exactly when some line names a stock row that is not the vendor's. */
  lemma {:induction false} PriceAllFails(stock: map<int, StockItem>, offers: map<(int, int), Offer>, adminId: int, cart: seq<CartLine>)
    ensures PriceAll(stock, offers, adminId, cart).None? <==>
            exists i :: 0 <= i < |cart| && PriceLine(stock, offers, adminId, cart[i]).None?
    decreases |cart|
  {
    if cart != [] {
      var front := cart[..|cart| - 1];
      PriceAllFails(stock, offers, adminId, front);
      PriceAllStep(stock, offers, adminId, cart);
      BadLineSplit(c => PriceLine(stock, offers, adminId, c).None?, front, cart);
    }
  }

  /** The last line of a non-empty cart either fails on its own or the failure comes from the lines before it. */
  lemma PriceAllStep(stock: map<int, StockItem>, offers: map<(int, int), Offer>, adminId: int, cart: seq<CartLine>)
    requires cart != []
    ensures PriceAll(stock, offers, adminId, cart).None? <==>
            PriceAll(stock, offers, adminId, cart[..|cart| - 1]).None? || PriceLine(stock, offers, adminId, cart[|cart| - 1]).None?
  {
  }

  /** Some line of a non-empty cart is `bad` iff one before the last is, or the last one is. */
  lemma BadLineSplit(bad: CartLine -> bool, front: seq<CartLine>, cart: seq<CartLine>)
    requires cart != [] && front == cart[..|cart| - 1]
    ensures (exists i :: 0 <= i < |cart| && bad(cart[i])) <==>
            (exists i :: 0 <= i < |front| && bad(front[i])) || bad(cart[|cart| - 1])
  {
    forall i | 0 <= i < |front|
      ensures front[i] == cart[i]
    {
    }
  }

  /** Only a catalog line can be rejected, and only when its stock row is missing or another vendor's. */
  lemma UnknownLine(stock: map<int, StockItem>, offers: map<(int, int), Offer>, adminId: int, c: CartLine)
    ensures PriceLine(stock, offers, adminId, c).None? <==>
            CatalogRef(c.stockRef).Some?
            && !(CatalogRef(c.stockRef).value in stock && stock[CatalogRef(c.stockRef).value].adminId == adminId)
  {
  }

  /**
   * The offer rules hold on every priced line: an applied offer and a
   * skipped offer never come together, a bonus means the offer was applied
   * and the stock covers quantity plus bonus, and each line's total is its
   * unit price times its quantity.
   */
  lemma PricedLineRules(stock: map<int, StockItem>, offers: map<(int, int), Offer>, adminId: int, c: CartLine)
    requires PriceLine(stock, offers, adminId, c).Some?
    ensures var l := PriceLine(stock, offers, adminId, c).value;
            !(l.appliedOffer.Some? && l.offerSkipped)
            && (l.bonusQty > 0 ==>
                  (l.appliedOffer.Some? && l.stockId.Some? && l.stockId.value in stock
                   && stock[l.stockId.value].quantity >= l.quantity + l.bonusQty))
            && l.totalPrice == l.unitPrice * l.quantity
            && l.quantity == LineQuantity(c.quantity)
  {
  }

  /**
   * The unit price is the active offer's price whenever that price is not
   * NULL, even when the bonus was withheld; otherwise the stock price. The
   * driver hands a DECIMAL over as a string, so a stored 0 ("0.00") is
   * truthy and is charged as 0.
   */
  lemma UnitPriceRule(id: int, qty: int, s: StockItem, offer: Option<Offer>)
    requires offer.Some? ==> offer.value.isActive
    ensures var l := PriceCatalogLine(id, qty, s, offer);
            (offer.Some? && offer.value.price.Some? ==> l.unitPrice == offer.value.price.value)
            && (offer.None? || offer.value.price.None? ==> l.unitPrice == s.price)
  {
  }

  /**
   * The bonus is withheld (and the offer recorded as missed) exactly when the
   * offer would give a bonus that the stock on hand cannot cover together
   * with the quantity; a quantity above the stock alone is accepted.
   */
  lemma OfferSuppression(id: int, qty: int, s: StockItem, offer: Offer)
    requires offer.isActive
    ensures var l := PriceCatalogLine(id, qty, s, Some(offer));
            var b := Bonus.CalculateBonus(Some(offer.text), qty);
            (l.offerSkipped <==> b > 0 && s.quantity < qty + b)
            && (l.offerSkipped ==> l.bonusQty == 0 && l.missedOfferText == Some(offer.text) && l.appliedOffer.None?)
            && (!l.offerSkipped ==> l.bonusQty == b && l.appliedOffer == Some(offer.text))
  {
  }

  /** Free-text lines add nothing to the total: it is the sum over catalog lines only. */
  lemma {:induction false} ManualLinesAddNothing(lines: seq<OrderLine>, extra: OrderLine)
    requires extra.stockId.None? && extra.totalPrice == 0
    ensures Sum(lines + [extra]) == Sum(lines)
  {
    assert (lines + [extra])[..|lines|] == lines;
  }

  /** One cart line of the loop at routes/customer.js:258-326, against the stock as it was before the order. */
  method PriceOne(db: Database, adminId: int, c: CartLine) returns (line: Option<OrderLine>)
    ensures line == PriceLine(db.stock, db.offers, adminId, c)
  {
    var qty := LineQuantity(c.quantity);
    var ref := CatalogRef(c.stockRef);
    if ref.None? {
      line := Some(ManualLine(c.itemName, qty));
    } else if ref.value in db.stock && db.stock[ref.value].adminId == adminId {
      var s := db.stock[ref.value];
      var offer := ActiveOffer(db.offers, adminId, ref.value);
      line := Some(PriceCatalogLine(ref.value, qty, s, offer));
    } else {
      line := None;
    }
  }

  /** Pricing the cart one line at a time, stopping at the first unknown catalog line. */
  method PriceCart(db: Database, adminId: int, cart: seq<CartLine>) returns (lines: Option<seq<OrderLine>>, total: int)
    ensures lines == PriceAll(db.stock, db.offers, adminId, cart)
    ensures lines.Some? ==> total == Sum(lines.value)
  {
    var acc: seq<OrderLine> := [];
    total := 0;
    var i := 0;
    while i < |cart|
      invariant 0 <= i <= |cart|
      invariant PriceAll(db.stock, db.offers, adminId, cart[..i]) == Some(acc)
      invariant total == Sum(acc)
    {
      var line := PriceOne(db, adminId, cart[i]);
      if line.None? {
        assert PriceAll(db.stock, db.offers, adminId, cart).None? by {
          PriceAllStep(db.stock, db.offers, adminId, cart[..i + 1]);
          assert cart[..i + 1][..i] == cart[..i] && cart[..i + 1][i] == cart[i];
          NoneAfterPrefix(db.stock, db.offers, adminId, cart, i + 1);
        }
        return None, 0;
      }
      assert PriceAll(db.stock, db.offers, adminId, cart[..i + 1]) == Some(acc + [line.value]) by {
        PriceAllExtend(db.stock, db.offers, adminId, cart, i, acc, line.value);
      }
      assert Sum(acc + [line.value]) == Sum(acc) + line.value.totalPrice by {
        assert (acc + [line.value])[..|acc|] == acc;
      }
      acc := acc + [line.value];
      total := total + line.value.totalPrice;
      i := i + 1;
    }
    assert cart[..|cart|] == cart;
    return Some(acc), total;
  }

  /** A priced prefix and a priced next line give the priced longer prefix. */
  lemma PriceAllExtend(stock: map<int, StockItem>, offers: map<(int, int), Offer>, adminId: int,
                       cart: seq<CartLine>, i: nat, acc: seq<OrderLine>, line: OrderLine)
    requires i < |cart|
    requires PriceAll(stock, offers, adminId, cart[..i]) == Some(acc)
    requires PriceLine(stock, offers, adminId, cart[i]) == Some(line)
    ensures PriceAll(stock, offers, adminId, cart[..i + 1]) == Some(acc + [line])
  {
    assert cart[..i + 1][..i] == cart[..i];
  }

  /** Once a prefix of the cart is rejected, the whole cart is. */
  lemma {:induction false} NoneAfterPrefix(stock: map<int, StockItem>, offers: map<(int, int), Offer>, adminId: int, cart: seq<CartLine>, n: nat)
    requires n <= |cart|
    requires PriceAll(stock, offers, adminId, cart[..n]).None?
    ensures PriceAll(stock, offers, adminId, cart).None?
    decreases |cart| - n
  {
    if n < |cart| {
      assert cart[..n + 1][..n] == cart[..n];
      NoneAfterPrefix(stock, offers, adminId, cart, n + 1);
    } else {
      assert cart[..n] == cart;
    }
  }

  // ---------- stock decrements ----------

  /** How much the order takes from stock row `id`: quantity plus bonus over its lines. */
  function Demand(lines: seq<OrderLine>, id: int): int
    decreases |lines|
  {
    if lines == [] then 0
    else
      var l := lines[|lines| - 1];
      Demand(lines[..|lines| - 1], id) + (if l.stockId == Some(id) then l.quantity + l.bonusQty else 0)
  }

  function DecrementOne(stock: map<int, StockItem>, l: OrderLine): map<int, StockItem> {
    if l.stockId.Some? && l.stockId.value in stock then
      var s := stock[l.stockId.value];
      stock[l.stockId.value := s.(quantity := s.quantity - (l.quantity + l.bonusQty))]
    else stock
  }

  /** `UPDATE stock SET quantity = quantity - (quantity + bonus) WHERE id = stockId`, line after line. */
  function ApplyDecrements(stock: map<int, StockItem>, lines: seq<OrderLine>): map<int, StockItem>
    decreases |lines|
  {
    if lines == [] then stock
    else DecrementOne(ApplyDecrements(stock, lines[..|lines| - 1]), lines[|lines| - 1])
  }

  /**
   * After the decrements each stock row has lost exactly the order's demand
   * on it (and may be negative); no row appears or disappears and nothing
   * but the quantity changes.
   */
  lemma {:induction false} DecrementsTakeDemand(stock: map<int, StockItem>, lines: seq<OrderLine>)
    ensures ApplyDecrements(stock, lines).Keys == stock.Keys
    ensures forall id :: id in stock ==>
      ApplyDecrements(stock, lines)[id] == stock[id].(quantity := stock[id].quantity - Demand(lines, id))
    decreases |lines|
  {
    if lines != [] {
      DecrementsTakeDemand(stock, lines[..|lines| - 1]);
    }
  }

  // ---------- the transaction ----------

  predicate IsCatalog(l: OrderLine) { l.stockId.Some? }

  /** The number of statements run after BEGIN: the order insert, then per line an item insert and, for catalog lines, a stock update. */
  function StatementCount(lines: seq<OrderLine>): nat
    decreases |lines|
  {
    if lines == [] then 1
    else StatementCount(lines[..|lines| - 1]) + (if IsCatalog(lines[|lines| - 1]) then 2 else 1)
  }

  /** Statements only add up: a prefix of the lines runs fewer statements than the whole. */
  lemma {:induction false} StatementCountGrows(lines: seq<OrderLine>, i: nat)
    requires i < |lines|
    ensures StatementCount(lines[..i]) + (if IsCatalog(lines[i]) then 2 else 1) <= StatementCount(lines)
    decreases |lines|
  {
    var front := lines[..|lines| - 1];
    if i < |lines| - 1 {
      assert front[..i] == lines[..i];
      StatementCountGrows(front, i);
    } else {
      assert front == lines[..i];
    }
  }

  /** Whether the backend accepts an item row for this line (PostgreSQL refuses a null stock id). */
  predicate ItemAccepted(backend: Backend, l: OrderLine) {
    backend == NullableStockId || IsCatalog(l)
  }

  /** The transaction commits exactly when no statement fails and the new order id is returned. */
  predicate CommitSucceeds(backend: Backend, lines: seq<OrderLine>, fault: TxFault) {
    (forall i :: 0 <= i < |lines| ==> ItemAccepted(backend, lines[i]))
    && match fault
       case NoFault => true
       case OrderIdMissing => false
       case StatementFails(k) => k >= StatementCount(lines)
  }

  function ItemsOf(orderId: int, lines: seq<OrderLine>): (items: seq<OrderItem>)
    ensures |items| == |lines|
    ensures forall i :: 0 <= i < |lines| ==> items[i] == OrderItem(orderId, lines[i])
  {
    seq(|lines|, i requires 0 <= i < |lines| => OrderItem(orderId, lines[i]))
  }

  /** Decrements keep the constraints on the stock table: same rows, same vendors, same codes. */
  lemma DecrementsKeepConstraints(stock: map<int, StockItem>, offers: map<(int, int), Offer>, next: int, lines: seq<OrderLine>)
    requires IdsBelow(stock, next) && StockCodesUnique(stock) && OffersOwned(offers, stock)
    ensures var stock' := ApplyDecrements(stock, lines);
            IdsBelow(stock', next) && StockCodesUnique(stock') && OffersOwned(offers, stock')
  {
    DecrementsTakeDemand(stock, lines);
    var stock' := ApplyDecrements(stock, lines);
    assert forall id :: id in stock' ==>
      (id in stock && stock'[id].adminId == stock[id].adminId && stock'[id].itemCode == stock[id].itemCode);
  }

  /** One more line: one more item, one more decrement, and one or two more statements. */
  lemma InsertStep(orderId: int, stock0: map<int, StockItem>, lines: seq<OrderLine>, i: nat)
    requires i < |lines|
    ensures ItemsOf(orderId, lines[..i + 1]) == ItemsOf(orderId, lines[..i]) + [OrderItem(orderId, lines[i])]
    ensures ApplyDecrements(stock0, lines[..i + 1]) == DecrementOne(ApplyDecrements(stock0, lines[..i]), lines[i])
    ensures StatementCount(lines[..i + 1]) == StatementCount(lines[..i]) + (if IsCatalog(lines[i]) then 2 else 1)
  {
    assert lines[..i + 1][..i] == lines[..i];
  }

  /**
   * The statements after the order insert: for every line an item insert
   * and, for a catalog line, a stock decrement. `ok` is false as soon as one
   * of them fails; the caller then rolls back.
   */
  method InsertLines(backend: Backend, orderId: int, lines: seq<OrderLine>, fault: TxFault,
                     items0: seq<OrderItem>, stock0: map<int, StockItem>)
    returns (ok: bool, items: seq<OrderItem>, stock: map<int, StockItem>)
    requires fault.StatementFails? ==> fault.step >= 1
    ensures ok <==> (forall i :: 0 <= i < |lines| ==> ItemAccepted(backend, lines[i]))
                    && (fault.StatementFails? ==> fault.step >= StatementCount(lines))
    ensures ok ==> items == items0 + ItemsOf(orderId, lines) && stock == ApplyDecrements(stock0, lines)
  {
    var step := 1;
    items, stock := items0, stock0;
    var i := 0;
    while i < |lines|
      invariant 0 <= i <= |lines|
      invariant step == StatementCount(lines[..i])
      invariant fault.StatementFails? ==> fault.step >= step
      invariant forall j :: 0 <= j < i ==> ItemAccepted(backend, lines[j])
      invariant items == items0 + ItemsOf(orderId, lines[..i])
      invariant stock == ApplyDecrements(stock0, lines[..i])
    {
      var l := lines[i];
      InsertStep(orderId, stock0, lines, i);
      StatementCountGrows(lines, i);
      if !ItemAccepted(backend, l) || fault == StatementFails(step) {
        return false, items, stock;
      }
      items := items + [OrderItem(orderId, l)];
      step := step + 1;
      if l.stockId.Some? {
        if fault == StatementFails(step) {
          return false, items, stock;
        }
        stock := DecrementOne(stock, l);
        step := step + 1;
      }
      i := i + 1;
    }
    assert lines[..|lines|] == lines;
    return true, items, stock;
  }

  /**
   * BEGIN; insert the order as 'pending'; insert every item and decrement
   * the stock of every catalog line; COMMIT. Any failure rolls everything
   * back: either all of it is written or none of it.
   */
  method Commit(db: Database, backend: Backend, adminId: int, orderNumber: string, customerId: int,
                lines: seq<OrderLine>, total: int, notes: string, fault: TxFault)
    returns (orderId: Option<int>)
    requires db.Valid()
    modifies db
    ensures db.Valid()
    ensures orderId.Some? <==> CommitSucceeds(backend, lines, fault)
    ensures orderId.Some? ==>
      orderId.value == |old(db.orders)| + 1
      && db.orders == old(db.orders) + [Order(adminId, orderNumber, customerId, total, "pending", notes)]
      && db.orderItems == old(db.orderItems) + ItemsOf(orderId.value, lines)
      && db.stock == ApplyDecrements(old(db.stock), lines)
    ensures orderId.None? ==> unchanged(db)
    ensures db.admins == old(db.admins) && db.customers == old(db.customers) && db.offers == old(db.offers)
    ensures db.importLogs == old(db.importLogs)
    ensures db.nextAdminId == old(db.nextAdminId) && db.nextCustomerId == old(db.nextCustomerId)
    ensures db.nextStockId == old(db.nextStockId) && db.nextOfferId == old(db.nextOfferId)
  {
    if fault == StatementFails(0) || fault == OrderIdMissing {
      return None;
    }
    var orders := db.orders + [Order(adminId, orderNumber, customerId, total, "pending", notes)];
    var id := |orders|;
    var ok, items, stock := InsertLines(backend, id, lines, fault, db.orderItems, db.stock);
    if !ok {
      return None;
    }
    DecrementsKeepConstraints(db.stock, db.offers, db.nextStockId, lines);
    db.orders, db.orderItems, db.stock := orders, items, stock;
    return Some(id);
  }

  /** On PostgreSQL, whose order_items.stock_id is NOT NULL, an order with a free-text line never commits. */
  lemma PostgresRejectsFreeText(lines: seq<OrderLine>, fault: TxFault, i: int)
    requires 0 <= i < |lines| && lines[i].stockId.None?
    ensures !CommitSucceeds(Postgres, lines, fault)
  {
    assert !ItemAccepted(Postgres, lines[i]);
  }

  /**
   * With a nullable stock id column every order line is accepted, so a cart
   * that prices commits whenever no statement fails.
   */
  lemma NullableStockIdCommits(stock: map<int, StockItem>, offers: map<(int, int), Offer>, adminId: int, items: seq<CartLine>)
    ensures CartCommits(stock, offers, adminId, items, NullableStockId, NoFault)
            <==> PriceAll(stock, offers, adminId, items).Some?
  {
  }

  /**
   * A cart of one free-text line "Gauze": it prices, PostgreSQL as declared
   * rolls it back whatever happens, and with a nullable stock id it commits.
   */
  lemma FreeTextGauze(stock: map<int, StockItem>, offers: map<(int, int), Offer>, adminId: int, fault: TxFault)
    ensures PriceAll(stock, offers, adminId, [CartLine("", "Gauze", "")]).Some?
    ensures !CartCommits(stock, offers, adminId, [CartLine("", "Gauze", "")], Postgres, fault)
    ensures CartCommits(stock, offers, adminId, [CartLine("", "Gauze", "")], NullableStockId, NoFault)
  {
    var cart := [CartLine("", "Gauze", "")];
    assert cart[..|cart| - 1] == [];
    var priced := PriceAll(stock, offers, adminId, cart);
    assert priced.Some? && priced.value[0].stockId.None?;
    PostgresRejectsFreeText(priced.value, fault, 0);
  }

  function ExampleStock(): map<int, StockItem> {
    map[7 := StockItem(1, "P1", "Syrup", None, "Pcs", 12, 5000, 4000, 6000, true)]
  }

  function ExampleOffers(): map<(int, int), Offer> {
    map[(1, 7) := Offer(3, "5+1", 0, None, true)]
  }

  lemma ExampleRefs()
    ensures CatalogRef("7") == Some(7) && LineQuantity("10") == 10
  {
    assert DigitsValue("7") == 7 by { assert "7"[..0] == ""; }
    assert DigitsValue("10") == 10 by { assert "10"[..1] == "1"; assert "1"[..0] == ""; }
    ParseIntDigits("7");
    ParseIntDigits("10");
  }

  /** A hexadecimal stock id or quantity is read as JavaScript reads it: "0x7" is item 7, and "0x" falls back to 1. */
  lemma ExampleHexRefs()
    ensures CatalogRef("0x7") == Some(7) && LineQuantity("0x") == 1 && LineQuantity("-0x10") == -16
  {
    HexExamples();
  }

  lemma ExampleBonus()
    ensures Bonus.CalculateBonus(Some("5+1"), 10) == 2
  {
    var a := "5+1";
    assert Bonus.PatternAt(a, 0, 1, 1, 2, 3);
    assert a[0..1] == "5" && a[2..3] == "1";
    assert DigitsValue("5") == 5 by { assert "5"[..0] == ""; }
    assert DigitsValue("1") == 1 by { assert "1"[..0] == ""; }
    Bonus.BonusFromFirstPattern(a, 0, 1, 1, 2, 3, 10);
  }

  /** Ten of item 7 with 12 on hand and a "5+1" offer: price 50.00 each, bonus 2, offer applied. */
  lemma ExampleLinePriced()
    ensures PriceLine(ExampleStock(), ExampleOffers(), 1, CartLine("7", "", "10"))
            == Some(OrderLine(Some(7), "Syrup", 10, 5000, 50000, true, 2, Some("5+1"), false, None, 4000, 6000))
  {
    ExampleRefs();
    ExampleBonus();
    var s := ExampleStock()[7];
    var o := ActiveOffer(ExampleOffers(), 1, 7);
    assert o == Some(Offer(3, "5+1", 0, None, true));
    assert PriceCatalogLine(7, 10, s, o)
           == OrderLine(Some(7), "Syrup", 10, 5000, 50000, true, 2, Some("5+1"), false, None, 4000, 6000);
  }

  /**
   * Two lines for the same item are each priced against the stock before
   * the order: both earn the bonus of 2, and the stock ends at 12 - 24 = -12.
   */
  lemma DuplicateLinesExample()
    ensures PriceAll(ExampleStock(), ExampleOffers(), 1, [CartLine("7", "", "10"), CartLine("7", "", "10")]).Some?
    ensures var ls := PriceAll(ExampleStock(), ExampleOffers(), 1, [CartLine("7", "", "10"), CartLine("7", "", "10")]).value;
            |ls| == 2 && ls[0].bonusQty == 2 && ls[1].bonusQty == 2
            && 7 in ApplyDecrements(ExampleStock(), ls) && ApplyDecrements(ExampleStock(), ls)[7].quantity == -12
  {
    var l := OrderLine(Some(7), "Syrup", 10, 5000, 50000, true, 2, Some("5+1"), false, None, 4000, 6000);
    TwoLinesPriced();
    DecrementsTakeDemand(ExampleStock(), [l, l]);
    assert [l, l][..1] == [l] && [l][..0] == [];
    assert Demand([], 7) == 0;
    assert Demand([l], 7) == Demand([l][..0], 7) + 12;
    assert Demand([l, l], 7) == Demand([l, l][..1], 7) + 12;
  }

  /** The two equal lines of the example, each priced on its own. */
  lemma TwoLinesPriced()
    ensures PriceAll(ExampleStock(), ExampleOffers(), 1, [CartLine("7", "", "10"), CartLine("7", "", "10")])
         == Some([OrderLine(Some(7), "Syrup", 10, 5000, 50000, true, 2, Some("5+1"), false, None, 4000, 6000),
                  OrderLine(Some(7), "Syrup", 10, 5000, 50000, true, 2, Some("5+1"), false, None, 4000, 6000)])
  {
    ExampleLinePriced();
    var c := CartLine("7", "", "10");
    var l := OrderLine(Some(7), "Syrup", 10, 5000, 50000, true, 2, Some("5+1"), false, None, 4000, 6000);
    var cart := [c, c];
    assert cart[..|cart| - 1] == [c] && [c][..|[c]| - 1] == [];
    assert PriceAll(ExampleStock(), ExampleOffers(), 1, []) == Some([]);
    assert [] + [l] == [l] && [l] + [l] == [l, l];
    assert PriceAll(ExampleStock(), ExampleOffers(), 1, [c]) == Some([l]);
  }

  // ---------- the handlers ----------

  /** The customer lookup: matching vendor code and external id, customer and vendor both active. */
  predicate CustomerMatches(admins: map<int, Admin>, c: Customer, code: string, externalId: string) {
    c.adminId in admins && admins[c.adminId].uniqueCode == code && c.externalId == externalId
    && c.isActive && admins[c.adminId].isActive
  }

  /** Under the schema's unique keys at most one customer matches a code and an external id. */
  lemma MatchingCustomerUnique(db: Database, code: string, externalId: string, a: int, b: int)
    requires db.Valid()
    requires a in db.customers && CustomerMatches(db.admins, db.customers[a], code, externalId)
    requires b in db.customers && CustomerMatches(db.admins, db.customers[b], code, externalId)
    ensures a == b
  {
  }

  method FindCustomer(db: Database, code: string, externalId: string) returns (r: Option<int>)
    ensures r.Some? ==> r.value in db.customers && CustomerMatches(db.admins, db.customers[r.value], code, externalId)
    ensures r.None? ==> forall id :: id in db.customers ==> !CustomerMatches(db.admins, db.customers[id], code, externalId)
  {
    var admins := db.admins;
    r := FindRow(db.customers, (c: Customer) => CustomerMatches(admins, c, code, externalId));
  }

  /** The order numbers already used by a vendor. */
  function NumbersOf(orders: seq<Order>, adminId: int): (r: seq<string>)
    ensures forall o :: o in orders && o.adminId == adminId ==> o.orderNumber in r
    decreases |orders|
  {
    if orders == [] then []
    else
      var last := orders[|orders| - 1];
      var front := NumbersOf(orders[..|orders| - 1], adminId);
      assert forall o :: o in orders ==> o in orders[..|orders| - 1] || o == last;
      if last.adminId == adminId then front + [last.orderNumber] else front
  }

  /** POST /verify: the customer's details, or 401. */
  method VerifyCustomer(db: Database, tenant: Option<Tenant>, uniqueCode: string, customerId: string) returns (resp: Response)
    ensures resp.Verified? || resp == CustomerNotFound
    ensures resp.Verified? ==>
      resp.customerId in db.customers && resp.customer == db.customers[resp.customerId]
      && CustomerMatches(db.admins, resp.customer, CodeToUse(tenant, uniqueCode), customerId)
      && resp.companyName == db.admins[resp.customer.adminId].companyName
    ensures resp.Failed? <==>
      forall id :: id in db.customers ==> !CustomerMatches(db.admins, db.customers[id], CodeToUse(tenant, uniqueCode), customerId)
  {
    var code := CodeToUse(tenant, uniqueCode);
    var found := FindCustomer(db, code, customerId);
    if found.None? {
      return CustomerNotFound;
    }
    var c := db.customers[found.value];
    return Verified(found.value, c, db.admins[c.adminId].companyName);
  }

  /**
   * POST /order. Every failure leaves the database as it was: 401 and 400
   * are answered before anything is read, 404 before the transaction, and a
   * failure inside the transaction (500) is rolled back.
   */
  /** Customer `cid` exists and is the one the request identifies. */
  ghost predicate IsMatch(admins: map<int, Admin>, customers: map<int, Customer>, tenant: Option<Tenant>,
                          req: OrderRequest, cid: int) {
    cid in customers && CustomerMatches(admins, customers[cid], CodeToUse(tenant, req.uniqueCode), req.customerId)
  }

  method PlaceOrder(db: Database, backend: Backend, tenant: Option<Tenant>, req: OrderRequest, fault: TxFault)
    returns (resp: Response)
    requires db.Valid()
    modifies db
    ensures db.Valid()
    ensures resp.Failed? ==> unchanged(db)
    ensures !resp.Verified?
    ensures (forall id :: !IsMatch(old(db.admins), old(db.customers), tenant, req, id))
            <==> resp == IdentityFailed
    ensures resp == EmptyCart <==>
            (exists id :: IsMatch(old(db.admins), old(db.customers), tenant, req, id))
            && (req.items.None? || req.items.value == [])
    ensures forall cid :: IsMatch(old(db.admins), old(db.customers), tenant, req, cid) && req.items.Some? && req.items.value != [] ==>
            (resp == ItemNotFound <==>
             PriceAll(old(db.stock), old(db.offers), old(db.customers)[cid].adminId, req.items.value).None?)
    ensures forall cid :: IsMatch(old(db.admins), old(db.customers), tenant, req, cid) && req.items.Some? && req.items.value != [] ==>
            (resp.Placed? <==>
             CartCommits(old(db.stock), old(db.offers), old(db.customers)[cid].adminId, req.items.value, backend, fault))
    ensures resp.Placed? ==>
            exists cid :: IsMatch(old(db.admins), old(db.customers), tenant, req, cid) && req.items.Some?
                          && PlacedAs(old(db.admins), old(db.customers), old(db.stock), old(db.offers),
                                      old(db.orders), old(db.orderItems), cid, req.items.value, req.notes, backend, fault, resp,
                                      db.orders, db.orderItems, db.stock)
  {
    ghost var admins, customers := db.admins, db.customers;
    var code := CodeToUse(tenant, req.uniqueCode);
    var found := FindCustomer(db, code, req.customerId);
    if found.None? {
      assert forall id :: !IsMatch(admins, customers, tenant, req, id);
      return IdentityFailed;
    }
    var cid := found.value;
    assert IsMatch(admins, customers, tenant, req, cid);
    forall other | IsMatch(admins, customers, tenant, req, other)
      ensures other == cid
    {
      MatchingCustomerUnique(db, code, req.customerId, other, cid);
    }
    if req.items.None? || req.items.value == [] {
      return EmptyCart;
    }
    resp := Fulfil(db, backend, cid, req.items.value, req.notes, fault);
  }

  /** The cart prices against the vendor's catalog and its transaction commits. */
  predicate CartCommits(stock: map<int, StockItem>, offers: map<(int, int), Offer>, adminId: int, items: seq<CartLine>,
                        backend: Backend, fault: TxFault)
  {
    var priced := PriceAll(stock, offers, adminId, items);
    priced.Some? && CommitSucceeds(backend, priced.value, fault)
  }

  /**
   * The part of the order handler after the customer is known and the cart
   * is non-empty: number, price, and store the order in one transaction.
   */
  method Fulfil(db: Database, backend: Backend, cid: int, items: seq<CartLine>, notes: string, fault: TxFault)
    returns (resp: Response)
    requires db.Valid()
    requires cid in db.customers && db.customers[cid].adminId in db.admins
    modifies db
    ensures db.Valid()
    ensures resp.Failed? ==> unchanged(db)
    ensures resp.Failed? ==> resp == ItemNotFound || resp == TransactionFailed
    ensures !resp.Verified?
    ensures resp == ItemNotFound <==>
            PriceAll(old(db.stock), old(db.offers), old(db.customers)[cid].adminId, items).None?
    ensures resp.Placed? <==> CartCommits(old(db.stock), old(db.offers), old(db.customers)[cid].adminId, items, backend, fault)
    ensures resp.Placed? ==>
            PlacedAs(old(db.admins), old(db.customers), old(db.stock), old(db.offers), old(db.orders), old(db.orderItems),
                     cid, items, notes, backend, fault, resp, db.orders, db.orderItems, db.stock)
  {
    var adminId := db.customers[cid].adminId;
    var orderNumber := OrderNumber.NewOrderNumber(db.admins[adminId].companyName, NumbersOf(db.orders, adminId));
    var lines, total := PriceCart(db, adminId, items);
    if lines.None? {
      return ItemNotFound;
    }
    var orderId := Commit(db, backend, adminId, orderNumber, cid, lines.value, total, notes, fault);
    if orderId.None? {
      return TransactionFailed;
    }
    resp := Placed(orderNumber, orderId.value, total);
  }

  /**
   * What a placed order means: the order got the next number for the
   * vendor of customer `cid`, every line was priced against the stock as
   * it was before the order, the order was stored as 'pending' with the
   * priced total and the request's notes, one item row was stored per line,
   * and the stock lost exactly what the lines demanded.
   */
  ghost predicate PlacedAs(admins: map<int, Admin>, customers: map<int, Customer>, stock: map<int, StockItem>,
                           offers: map<(int, int), Offer>, orders: seq<Order>, orderItems: seq<OrderItem>,
                           cid: int, items: seq<CartLine>, notes: string, backend: Backend, fault: TxFault,
                           resp: Response, orders': seq<Order>, orderItems': seq<OrderItem>, stock': map<int, StockItem>)
    requires cid in customers
  {
    var c := customers[cid];
    c.adminId in admins
    && resp.Placed?
    && resp.orderNumber == OrderNumber.NewOrderNumber(admins[c.adminId].companyName, NumbersOf(orders, c.adminId))
    && PriceAll(stock, offers, c.adminId, items).Some?
    && var lines := PriceAll(stock, offers, c.adminId, items).value;
       CommitSucceeds(backend, lines, fault)
       && resp.totalAmount == Sum(lines)
       && resp.orderId == |orders| + 1
       && orders' == orders + [Order(c.adminId, resp.orderNumber, cid, resp.totalAmount, "pending", notes)]
       && orderItems' == orderItems + ItemsOf(resp.orderId, lines)
       && stock' == ApplyDecrements(stock, lines)
  }
}
