/**
 * The CSV synchronisation of routes/admin.js: the stock import (lines
 * 85-174) and the customer import (lines 329-392), as functions on the
 * tables they touch. A CSV record is the map from header to cell text that
 * csv-parser yields; a header that is absent and a cell that is empty are
 * both falsy.
 *
 * Each import first deactivates every row of the vendor, then upserts one
 * row per usable record, in file order. The functions here define the
 * tables after that sync; the handlers in VendorAdmin run the same steps
 * in a loop and are proved to end in exactly these tables.
 */
module CsvImport {
  import opened Wrappers
  import opened Text
  import opened Schema

  type CsvRow = map<string, string>

  /** `row[k1] || row[k2] || … || ''`: the first of the columns that is present and non-empty. */
  function FirstNonEmpty(row: CsvRow, keys: seq<string>): (v: string)
    ensures v == "" <==> forall i :: 0 <= i < |keys| && keys[i] in row ==> row[keys[i]] == ""
    ensures v != "" ==> exists i :: 0 <= i < |keys| && keys[i] in row && row[keys[i]] == v
    decreases |keys|
  {
    if keys == [] then ""
    else if keys[0] in row && row[keys[0]] != "" then row[keys[0]]
    else
      var v := FirstNonEmpty(row, keys[1..]);
      assert forall i :: 1 <= i < |keys| ==> keys[i] == keys[1..][i - 1];
      v
  }

  /** A non-empty column wins over every later one: the columns are tried in order. */
  lemma {:induction false} EarlierColumnWins(row: CsvRow, keys: seq<string>, i: int)
    requires 0 <= i < |keys| && keys[i] in row && row[keys[i]] != ""
    requires forall j :: 0 <= j < i && keys[j] in row ==> row[keys[j]] == ""
    ensures FirstNonEmpty(row, keys) == row[keys[i]]
    decreases i
  {
    if i > 0 {
      EarlierColumnWins(row, keys[1..], i - 1);
    }
  }

  // ---------- the stock file ----------

  const NameColumns := ["Product Name", "item_name", "product_name", "ProductName", "item_name", "ItemName", "name", "Name"]
  const CodeColumns := ["Item Code", "item_code", "ItemCode", "code", "Code"]
  const CategoryColumns := ["manufacturer", "Manufacturer", "category", "Category"]
  const UnitColumns := ["unit", "Unit"]
  const QuantityColumns := ["Qty", "quantity", "Quantity", "qty", "QTY"]
  const DistPriceColumns := ["PTR rate", "PTR Rate", "Dist Price", "Dist.Price", "dist_price", "DistPrice"]
  const MrpColumns := ["mrp", "MRP", "Max Retail Price"]
  const PriceColumns := ["price", "Price"]
  const OfferColumns := ["Exclusive Offer", "exclusive_offer", "offer"]

  /** One stock record, normalised. */
  datatype StockRow = StockRow(
    itemCode: string,
    itemName: string,
    category: string,
    unit: string,
    quantity: int,
    price: int,
    distPrice: int,
    mrp: int,
    offerText: string)

  /** The code given to a record without one: 'PRD-' and the record counter padded to 4 digits. */
  function GeneratedCode(counter: nat): (code: string)
    ensures |code| >= 8
    ensures code[..4] == "PRD-" && AllDigits(code[4..]) && DigitsValue(code[4..]) == counter
  {
    PaddedValue(counter, 4);
    "PRD-" + PadStart(NatToString(counter), 4, '0')
  }

  /** `parseFloat(cell || 0) || 0`, in hundredths. */
  function MoneyOr0(cell: string): int {
    match ParseMoney(cell)
    case Some(v) => v
    case None => 0
  }

  /**
   * The stock record numbered `counter` (1-based, counting every record);
   * None when it has no product name and is skipped.
   */
  function NormaliseStock(row: CsvRow, counter: nat): (r: Option<StockRow>)
    ensures r.None? <==> FirstNonEmpty(row, NameColumns) == ""
    ensures r.Some? ==> r.value.itemName != "" && r.value.itemCode != "" && r.value.unit != ""
  {
    var name := FirstNonEmpty(row, NameColumns);
    if name == "" then None
    else
      var rawCode := FirstNonEmpty(row, CodeColumns);
      var unit := FirstNonEmpty(row, UnitColumns);
      var distPrice := MoneyOr0(FirstNonEmpty(row, DistPriceColumns));
      var priceCell := FirstNonEmpty(row, PriceColumns);
      Some(StockRow(
        itemCode := if rawCode == "" then GeneratedCode(counter) else rawCode,
        itemName := name,
        category := FirstNonEmpty(row, CategoryColumns),
        unit := if unit == "" then "Pcs" else unit,
        quantity := ParseIntOr(FirstNonEmpty(row, QuantityColumns), 0),
        price := if priceCell == "" then distPrice else MoneyOr0(priceCell),
        distPrice := distPrice,
        mrp := MoneyOr0(FirstNonEmpty(row, MrpColumns)),
        offerText := FirstNonEmpty(row, OfferColumns)))
  }

  /**
   * Field fallbacks of a named record: the code is generated only when no
   * code column is set; the price falls back to the distributor price only
   * when no price column is set; an unparseable quantity becomes 0.
   */
  lemma StockFallbacks(row: CsvRow, counter: nat)
    requires FirstNonEmpty(row, NameColumns) != ""
    ensures var r := NormaliseStock(row, counter).value;
            (r.itemCode == GeneratedCode(counter) <== FirstNonEmpty(row, CodeColumns) == "")
            && (FirstNonEmpty(row, CodeColumns) != "" ==> r.itemCode == FirstNonEmpty(row, CodeColumns))
            && (FirstNonEmpty(row, PriceColumns) == "" ==> r.price == r.distPrice)
            && (ParseInt(FirstNonEmpty(row, QuantityColumns)).None? ==> r.quantity == 0)
            && (ParseInt(FirstNonEmpty(row, QuantityColumns)).Some? ==> r.quantity == ParseInt(FirstNonEmpty(row, QuantityColumns)).value)
  {
  }

  /** A quantity cell of "0x10" is read as hexadecimal: 16 units. */
  lemma HexQuantity(row: CsvRow, counter: nat)
    requires FirstNonEmpty(row, NameColumns) != ""
    requires FirstNonEmpty(row, QuantityColumns) == "0x10"
    ensures NormaliseStock(row, counter).value.quantity == 16
  {
    HexSixteen();
    StockFallbacks(row, counter);
  }

  /** A price cell of "0" is non-empty, so it is kept as 0 rather than replaced by the distributor price. */
  lemma ZeroPriceKept(row: CsvRow, counter: nat)
    requires FirstNonEmpty(row, NameColumns) != ""
    requires FirstNonEmpty(row, PriceColumns) == "0"
    ensures NormaliseStock(row, counter).value.price == 0
  {
    ParseMoneyDigits(0);
    assert NatToString(0) == "0";
  }

  /** The stock and offer tables and the counters the stock import works on. */
  datatype Catalog = Catalog(
    stock: map<int, StockItem>,
    offers: map<(int, int), Offer>,
    nextStockId: int,
    nextOfferId: int,
    offerCount: nat)

  /** The constraints of the two tables. */
  predicate CatalogOk(c: Catalog) {
    0 < c.nextStockId && 0 < c.nextOfferId && IdsBelow(c.stock, c.nextStockId)
    && StockCodesUnique(c.stock) && OffersOwned(c.offers, c.stock)
  }

  /** The vendor's row with a given item code, if any (the unique index (admin_id, item_code)). */
  function CodeOwner(stock: map<int, StockItem>, adminId: int, code: string): (r: Option<int>)
    requires StockCodesUnique(stock)
    ensures r.Some? ==> r.value in stock && stock[r.value].adminId == adminId && stock[r.value].itemCode == code
    ensures r.None? ==> forall id :: id in stock ==> stock[id].adminId != adminId || stock[id].itemCode != code
  {
    if exists id :: id in stock && stock[id].adminId == adminId && stock[id].itemCode == code then
      var id :| id in stock && stock[id].adminId == adminId && stock[id].itemCode == code;
      Some(id)
    else None
  }

  /** `UPDATE stock SET is_active = 0` and `UPDATE special_offers SET is_active = 0` for one vendor. */
  function DeactivateVendor(c: Catalog, adminId: int): (d: Catalog)
    requires CatalogOk(c)
    ensures CatalogOk(d)
    ensures d.stock.Keys == c.stock.Keys && d.offers.Keys == c.offers.Keys
    ensures forall id :: id in d.stock ==>
              d.stock[id].(isActive := c.stock[id].isActive) == c.stock[id]
              && (d.stock[id].isActive <==> c.stock[id].isActive && c.stock[id].adminId != adminId)
    ensures forall k :: k in d.offers ==>
              d.offers[k].(isActive := c.offers[k].isActive) == c.offers[k]
              && (d.offers[k].isActive <==> c.offers[k].isActive && k.0 != adminId)
    ensures d.nextStockId == c.nextStockId && d.nextOfferId == c.nextOfferId && d.offerCount == c.offerCount
  {
    c.(stock := map id | id in c.stock :: if c.stock[id].adminId == adminId then c.stock[id].(isActive := false) else c.stock[id],
       offers := map k | k in c.offers :: if k.0 == adminId then c.offers[k].(isActive := false) else c.offers[k])
  }

  function ItemOf(adminId: int, r: StockRow): StockItem {
    StockItem(adminId, r.itemCode, r.itemName, Some(r.category), r.unit, r.quantity, r.price, r.distPrice, r.mrp, true)
  }

  /**
   * `INSERT … ON CONFLICT(admin_id, item_code) DO UPDATE`: the row with the
   * same vendor and code is overwritten in place (keeping its id), or a new
   * row is added under the next id. Returns the row's id.
   */
  function UpsertStock(c: Catalog, item: StockItem): (res: (Catalog, int))
    requires CatalogOk(c)
    ensures CatalogOk(res.0)
    ensures res.1 in res.0.stock && res.0.stock[res.1] == item
    ensures res.0.stock.Keys == c.stock.Keys + {res.1}
    ensures forall id :: id in c.stock && id != res.1 ==> res.0.stock[id] == c.stock[id]
    ensures res.1 in c.stock <==> exists id :: id in c.stock && c.stock[id].adminId == item.adminId && c.stock[id].itemCode == item.itemCode
    ensures res.1 in c.stock ==> c.stock[res.1].adminId == item.adminId && c.stock[res.1].itemCode == item.itemCode
    ensures res.0.offers == c.offers && res.0.nextOfferId == c.nextOfferId && res.0.offerCount == c.offerCount
  {
    match CodeOwner(c.stock, item.adminId, item.itemCode)
    case Some(id) => (c.(stock := c.stock[id := item]), id)
    case None => (c.(stock := c.stock[c.nextStockId := item], nextStockId := c.nextStockId + 1), c.nextStockId)
  }

  /**
   * `INSERT INTO special_offers … ON CONFLICT(admin_id, stock_id) DO UPDATE
   * SET offer_text, is_active = 1`: an existing offer keeps its id, discount
   * and price; a new one has discount 0 and no price.
   */
  function UpsertImportedOffer(c: Catalog, adminId: int, id: int, text: string): (d: Catalog)
    requires CatalogOk(c) && id in c.stock && c.stock[id].adminId == adminId
    ensures CatalogOk(d)
    ensures (adminId, id) in d.offers && d.offers[(adminId, id)].isActive && d.offers[(adminId, id)].text == text
    ensures (adminId, id) in c.offers ==>
              d.offers[(adminId, id)] == c.offers[(adminId, id)].(text := text, isActive := true)
    ensures d.offers.Keys == c.offers.Keys + {(adminId, id)}
    ensures forall k :: k in c.offers && k != (adminId, id) ==> d.offers[k] == c.offers[k]
    ensures d.stock == c.stock && d.nextStockId == c.nextStockId && d.offerCount == c.offerCount + 1
  {
    var key := (adminId, id);
    var o := if key in c.offers then c.offers[key].(text := text, isActive := true)
             else Offer(c.nextOfferId, text, 0, None, true);
    c.(offers := c.offers[key := o],
       nextOfferId := if key in c.offers then c.nextOfferId else c.nextOfferId + 1,
       offerCount := c.offerCount + 1)
  }

  /** One loop iteration of the stock import, for the record numbered `counter`. */
  function StockStep(c: Catalog, adminId: int, row: CsvRow, counter: nat): (d: Catalog)
    requires CatalogOk(c)
    ensures CatalogOk(d)
  {
    match NormaliseStock(row, counter)
    case None => c
    case Some(r) => RecordStep(c, adminId, r)
  }

  /** The iteration for a record that has a product name: upsert its item, then its offer when it has one. */
  function RecordStep(c: Catalog, adminId: int, r: StockRow): (d: Catalog)
    requires CatalogOk(c)
    ensures CatalogOk(d)
  {
    var (c1, id) := UpsertStock(c, ItemOf(adminId, r));
    var text := Trim(r.offerText);
    if text == "" then c1 else UpsertImportedOffer(c1, adminId, id, text)
  }

  /** The tables after the loop has processed `rows` (record numbers 1..|rows|). */
  function ImportStockRows(c: Catalog, adminId: int, rows: seq<CsvRow>): (d: Catalog)
    requires CatalogOk(c)
    ensures CatalogOk(d)
    decreases |rows|
  {
    if rows == [] then c
    else StockStep(ImportStockRows(c, adminId, rows[..|rows| - 1]), adminId, rows[|rows| - 1], |rows|)
  }

  /** The loop step: processing one more row applies `StockStep` to the tables reached so far. */
  lemma ImportStockRowsNext(c: Catalog, adminId: int, rows: seq<CsvRow>, n: nat)
    requires CatalogOk(c) && n < |rows|
    ensures ImportStockRows(c, adminId, rows[..n + 1])
         == StockStep(ImportStockRows(c, adminId, rows[..n]), adminId, rows[n], n + 1)
  {
    assert rows[..n + 1][..n] == rows[..n];
  }

  /**
   * What one named record does: its row (found by code, or new) becomes the
   * record's item and nothing else in the stock table changes; the row's
   * offer is upserted exactly when the trimmed offer text is non-empty.
   */
  lemma StepFacts(p: Catalog, adminId: int, r: StockRow)
    requires CatalogOk(p)
    ensures var u := UpsertStock(p, ItemOf(adminId, r)).1;
            var d := RecordStep(p, adminId, r);
            d.stock == p.stock[u := ItemOf(adminId, r)]
            && (u in p.stock ==> p.stock[u].adminId == adminId && p.stock[u].itemCode == r.itemCode)
            && (Trim(r.offerText) == "" ==> d.offers == p.offers)
            && (Trim(r.offerText) != "" ==>
                  (adminId, u) in d.offers && d.offers[(adminId, u)].isActive
                  && d.offers == p.offers[(adminId, u) := d.offers[(adminId, u)]])
  {
    var item := ItemOf(adminId, r);
    var (c1, u) := UpsertStock(p, item);
    assert c1.stock == p.stock[u := item];
    var text := Trim(r.offerText);
    if text != "" {
      var d := UpsertImportedOffer(c1, adminId, u, text);
      assert d.offers == p.offers[(adminId, u) := d.offers[(adminId, u)]];
    }
  }

  /** Rows and offers of other vendors are never touched, and no row is removed. */
  lemma {:induction false} ImportLeavesOthers(c: Catalog, adminId: int, rows: seq<CsvRow>)
    requires CatalogOk(c)
    ensures var d := ImportStockRows(c, adminId, rows);
            c.stock.Keys <= d.stock.Keys
            && (forall id :: id in c.stock && c.stock[id].adminId != adminId ==> d.stock[id] == c.stock[id])
            && (forall id :: id in d.stock && id !in c.stock ==> d.stock[id].adminId == adminId)
            && (forall k :: k in c.offers && k.0 != adminId ==> k in d.offers && d.offers[k] == c.offers[k])
    decreases |rows|
  {
    if rows != [] {
      var front := rows[..|rows| - 1];
      ImportLeavesOthers(c, adminId, front);
      var p := ImportStockRows(c, adminId, front);
      match NormaliseStock(rows[|rows| - 1], |rows|)
      case None =>
      case Some(r) =>
        StepFacts(p, adminId, r);
    }
  }

  /** The item codes of the records that have a product name. */
  function RowCodes(rows: seq<CsvRow>): set<string>
    decreases |rows|
  {
    if rows == [] then {}
    else
      RowCodes(rows[..|rows| - 1])
      + match NormaliseStock(rows[|rows| - 1], |rows|)
        case Some(r) => {r.itemCode}
        case None => {}
  }

  /** The item codes of the named records whose trimmed offer text is non-empty. */
  function OfferCodes(rows: seq<CsvRow>): set<string>
    decreases |rows|
  {
    if rows == [] then {}
    else
      OfferCodes(rows[..|rows| - 1])
      + match NormaliseStock(rows[|rows| - 1], |rows|)
        case Some(r) => if Trim(r.offerText) != "" then {r.itemCode} else {}
        case None => {}
  }

  /** No stock row and no offer of the vendor is active. */
  predicate VendorInactive(c: Catalog, adminId: int) {
    (forall id :: id in c.stock && c.stock[id].adminId == adminId ==> !c.stock[id].isActive)
    && (forall k :: k in c.offers && k.0 == adminId ==> !c.offers[k].isActive)
  }

  /** The vendor's active rows are those whose code is in `codes`. */
  predicate ActiveExactly(stock: map<int, StockItem>, adminId: int, codes: set<string>) {
    forall id :: id in stock && stock[id].adminId == adminId ==> (stock[id].isActive <==> stock[id].itemCode in codes)
  }

  /** Every code in `codes` has an active row of the vendor. */
  predicate CodesStocked(stock: map<int, StockItem>, adminId: int, codes: set<string>)
    requires StockCodesUnique(stock)
  {
    forall code :: code in codes ==> CodeOwner(stock, adminId, code).Some? && stock[CodeOwner(stock, adminId, code).value].isActive
  }

  /**
   * Starting from a vendor with nothing active, after the records the
   * vendor's active rows are exactly those whose code some named record
   * carries, and every such code has an active row.
   */
  lemma {:induction false} ActiveStockIsFile(c: Catalog, adminId: int, rows: seq<CsvRow>)
    requires CatalogOk(c) && VendorInactive(c, adminId)
    ensures ActiveExactly(ImportStockRows(c, adminId, rows).stock, adminId, RowCodes(rows))
    ensures CodesStocked(ImportStockRows(c, adminId, rows).stock, adminId, RowCodes(rows))
    decreases |rows|
  {
    if rows != [] {
      var front, last := rows[..|rows| - 1], rows[|rows| - 1];
      ActiveStockIsFile(c, adminId, front);
      var p := ImportStockRows(c, adminId, front);
      var d := ImportStockRows(c, adminId, rows);
      assert d == StockStep(p, adminId, last, |rows|);
      match NormaliseStock(last, |rows|)
      case None =>
        assert RowCodes(rows) == RowCodes(front);
      case Some(r) =>
        StepFacts(p, adminId, r);
        StepKeepsActive(p.stock, d.stock, adminId, UpsertStock(p, ItemOf(adminId, r)).1, ItemOf(adminId, r), RowCodes(front));
        assert RowCodes(rows) == RowCodes(front) + {r.itemCode};
    }
  }

  /** Overwriting one row with an active item of code `item.itemCode` extends both properties by that code. */
  lemma StepKeepsActive(before: map<int, StockItem>, after: map<int, StockItem>, adminId: int, u: int,
                        item: StockItem, codes: set<string>)
    requires StockCodesUnique(before) && StockCodesUnique(after)
    requires after == before[u := item] && item.adminId == adminId && item.isActive
    requires u in before ==> before[u].adminId == adminId && before[u].itemCode == item.itemCode
    requires ActiveExactly(before, adminId, codes) && CodesStocked(before, adminId, codes)
    ensures ActiveExactly(after, adminId, codes + {item.itemCode})
    ensures CodesStocked(after, adminId, codes + {item.itemCode})
  {
    forall id | id in after && after[id].adminId == adminId && id != u
      ensures after[id].isActive <==> after[id].itemCode in codes + {item.itemCode}
    {
      assert after[id] == before[id];
      assert after[id].itemCode != item.itemCode by {
        assert after[u] == item;
      }
    }
    forall code | code in codes + {item.itemCode}
      ensures CodeOwner(after, adminId, code).Some? && after[CodeOwner(after, adminId, code).value].isActive
    {
      assert after[u] == item;
      if code != item.itemCode {
        var o := CodeOwner(before, adminId, code).value;
        assert o != u && after[o] == before[o];
        var o2 := CodeOwner(after, adminId, code).value;
        assert o2 == o;
      }
    }
  }

  /** The vendor's offers are active exactly on rows whose code is in `codes`. */
  predicate OffersExactly(offers: map<(int, int), Offer>, stock: map<int, StockItem>, adminId: int, codes: set<string>) {
    forall k :: k in offers && k.0 == adminId && k.1 in stock ==> (offers[k].isActive <==> stock[k.1].itemCode in codes)
  }

  /**
   * Starting from a vendor with nothing active, afterwards an offer of the
   * vendor is active exactly when its item's code carries offer text in some
   * named record.
   */
  lemma {:induction false} ActiveOffersAreFile(c: Catalog, adminId: int, rows: seq<CsvRow>)
    requires CatalogOk(c) && VendorInactive(c, adminId)
    ensures var d := ImportStockRows(c, adminId, rows);
            OffersExactly(d.offers, d.stock, adminId, OfferCodes(rows))
    decreases |rows|
  {
    if rows != [] {
      var front, last := rows[..|rows| - 1], rows[|rows| - 1];
      ActiveOffersAreFile(c, adminId, front);
      var p := ImportStockRows(c, adminId, front);
      var d := ImportStockRows(c, adminId, rows);
      assert d == StockStep(p, adminId, last, |rows|);
      match NormaliseStock(last, |rows|)
      case None =>
        assert OfferCodes(rows) == OfferCodes(front);
      case Some(r) =>
        StepFacts(p, adminId, r);
        var hasText := Trim(r.offerText) != "";
        OfferStepKeeps(p.stock, p.offers, d.stock, d.offers, adminId, UpsertStock(p, ItemOf(adminId, r)).1,
                       ItemOf(adminId, r), hasText, OfferCodes(front));
        assert OfferCodes(rows) == OfferCodes(front) + if hasText then {r.itemCode} else {};
    }
  }

  /** One record's effect on the offers keeps `OffersExactly`, adding its code when it carries offer text. */
  lemma OfferStepKeeps(pStock: map<int, StockItem>, pOffers: map<(int, int), Offer>,
                       dStock: map<int, StockItem>, dOffers: map<(int, int), Offer>,
                       adminId: int, u: int, item: StockItem, hasText: bool, codes: set<string>)
    requires StockCodesUnique(dStock) && OffersOwned(pOffers, pStock)
    requires dStock == pStock[u := item] && item.adminId == adminId
    requires u in pStock ==> pStock[u].adminId == adminId && pStock[u].itemCode == item.itemCode
    requires hasText ==> (adminId, u) in dOffers && dOffers[(adminId, u)].isActive
                         && dOffers == pOffers[(adminId, u) := dOffers[(adminId, u)]]
    requires !hasText ==> dOffers == pOffers
    requires OffersExactly(pOffers, pStock, adminId, codes)
    ensures OffersExactly(dOffers, dStock, adminId, codes + if hasText then {item.itemCode} else {})
  {
    var codes' := codes + if hasText then {item.itemCode} else {};
    forall k | k in dOffers && k.0 == adminId && k.1 in dStock
      ensures dOffers[k].isActive <==> dStock[k.1].itemCode in codes'
    {
      assert dStock[u] == item;
      if k.1 != u {
        assert k in pOffers && dOffers[k] == pOffers[k];
        assert dStock[k.1] == pStock[k.1];
        assert dStock[k.1].itemCode != item.itemCode;
      } else if !hasText {
        assert k in pOffers;
        assert pStock[u].itemCode == item.itemCode;
      }
    }
  }

  /**
   * The whole stock sync: after deactivating the vendor and processing the
   * records, the vendor's active rows are exactly the named records' codes,
   * each with an active row; its active offers are exactly on the codes
   * that carried offer text; other vendors' rows and offers are untouched.
   */
  lemma StockSyncOutcome(c: Catalog, adminId: int, rows: seq<CsvRow>)
    requires CatalogOk(c)
    ensures var d := ImportStockRows(DeactivateVendor(c, adminId), adminId, rows);
            ActiveExactly(d.stock, adminId, RowCodes(rows))
            && CodesStocked(d.stock, adminId, RowCodes(rows))
            && OffersExactly(d.offers, d.stock, adminId, OfferCodes(rows))
            && (forall id :: id in c.stock && c.stock[id].adminId != adminId ==> id in d.stock && d.stock[id] == c.stock[id])
            && (forall k :: k in c.offers && k.0 != adminId ==> k in d.offers && d.offers[k] == c.offers[k])
  {
    var c0 := DeactivateVendor(c, adminId);
    ActiveStockIsFile(c0, adminId, rows);
    ActiveOffersAreFile(c0, adminId, rows);
    ImportLeavesOthers(c0, adminId, rows);
  }

  // ---------- the customer file ----------

  const PhoneColumns := ["PhoneNumber", "phone", "mobile", "Phone", "Phone Number"]
  const CustomerIdColumns := ["CustomerID", "customer_id", "Customer ID", "id"]
  const CustomerNameColumns := ["Customer Name", "name", "Name", "CustomerName"]
  const AddressColumns := ["address", "Address", "Street Address", "addr", "Location"]
  const CityColumns := ["city", "City", "Town", "District"]
  const EmailColumns := ["email", "Email"]

  /** One customer record, normalised; `key` is the external id it is stored under. */
  datatype CustomerRow = CustomerRow(key: string, name: string, phone: string, email: string, address: string, city: string)

  const NamedPrefix := "Customer "
  const UnknownName := "Unknown"

  /** The customer's name: the name column, else 'Customer <id>', else 'Customer <phone>', else 'Unknown'. */
  function CustomerName(row: CsvRow): (n: string)
    ensures n != ""
    ensures FirstNonEmpty(row, CustomerNameColumns) != "" ==> n == FirstNonEmpty(row, CustomerNameColumns)
    ensures FirstNonEmpty(row, CustomerNameColumns) == "" && FirstNonEmpty(row, CustomerIdColumns) != "" ==>
              n == NamedPrefix + FirstNonEmpty(row, CustomerIdColumns)
    ensures (FirstNonEmpty(row, CustomerNameColumns) == "" && FirstNonEmpty(row, CustomerIdColumns) == ""
             && FirstNonEmpty(row, PhoneColumns) != "") ==> n == NamedPrefix + FirstNonEmpty(row, PhoneColumns)
    ensures (FirstNonEmpty(row, CustomerNameColumns) == "" && FirstNonEmpty(row, CustomerIdColumns) == ""
             && FirstNonEmpty(row, PhoneColumns) == "") ==> n == UnknownName
  {
    var name := FirstNonEmpty(row, CustomerNameColumns);
    var ext := FirstNonEmpty(row, CustomerIdColumns);
    var phone := FirstNonEmpty(row, PhoneColumns);
    if name != "" then name
    else if ext != "" then NamedPrefix + ext
    else if phone != "" then NamedPrefix + phone
    else UnknownName
  }

  /** The record keyed by its external id, else by its phone; None (skipped) when both are empty. */
  function NormaliseCustomer(row: CsvRow): (r: Option<CustomerRow>)
    ensures r.None? <==> FirstNonEmpty(row, CustomerIdColumns) == "" && FirstNonEmpty(row, PhoneColumns) == ""
    ensures r.Some? ==> r.value.key != "" && r.value.name != ""
    ensures r.Some? && FirstNonEmpty(row, CustomerIdColumns) != "" ==> r.value.key == FirstNonEmpty(row, CustomerIdColumns)
    ensures r.Some? && FirstNonEmpty(row, CustomerIdColumns) == "" ==> r.value.key == r.value.phone
  {
    var ext := FirstNonEmpty(row, CustomerIdColumns);
    var phone := FirstNonEmpty(row, PhoneColumns);
    var key := if ext != "" then ext else phone;
    if key == "" then None
    else Some(CustomerRow(key, CustomerName(row), phone, FirstNonEmpty(row, EmailColumns),
                          FirstNonEmpty(row, AddressColumns), FirstNonEmpty(row, CityColumns)))
  }

  /** The customers table and its id counter. */
  datatype Roster = Roster(customers: map<int, Customer>, nextCustomerId: int)

  predicate RosterOk(c: Roster) {
    0 < c.nextCustomerId && IdsBelow(c.customers, c.nextCustomerId) && CustomerKeysUnique(c.customers)
  }

  /** The vendor's customer with a given external id, if any (the unique index (admin_id, customer_id_external)). */
  function KeyOwner(customers: map<int, Customer>, adminId: int, key: string): (r: Option<int>)
    requires CustomerKeysUnique(customers)
    ensures r.Some? ==> r.value in customers && customers[r.value].adminId == adminId && customers[r.value].externalId == key
    ensures r.None? ==> forall id :: id in customers ==> customers[id].adminId != adminId || customers[id].externalId != key
  {
    if exists id :: id in customers && customers[id].adminId == adminId && customers[id].externalId == key then
      var id :| id in customers && customers[id].adminId == adminId && customers[id].externalId == key;
      Some(id)
    else None
  }

  /** `UPDATE customers SET is_active = 0 WHERE admin_id = …`. */
  function DeactivateCustomers(c: Roster, adminId: int): (d: Roster)
    requires RosterOk(c)
    ensures RosterOk(d)
    ensures d.customers.Keys == c.customers.Keys && d.nextCustomerId == c.nextCustomerId
    ensures forall id :: id in d.customers ==>
              d.customers[id].(isActive := c.customers[id].isActive) == c.customers[id]
              && (d.customers[id].isActive <==> c.customers[id].isActive && c.customers[id].adminId != adminId)
  {
    c.(customers := map id | id in c.customers ::
         if c.customers[id].adminId == adminId then c.customers[id].(isActive := false) else c.customers[id])
  }

  /**
   * `INSERT … ON CONFLICT(admin_id, customer_id_external) DO UPDATE`: an
   * existing customer keeps its id and its portal code; a new one gets
   * `code`.
   */
  function CustomerStep(c: Roster, adminId: int, row: CsvRow, code: string): (d: Roster)
    requires RosterOk(c)
    ensures RosterOk(d)
    ensures c.customers.Keys <= d.customers.Keys
    ensures forall id :: id in c.customers ==>
              d.customers[id].uniqueCode == c.customers[id].uniqueCode && d.customers[id].adminId == c.customers[id].adminId
    ensures forall id :: id in c.customers && c.customers[id].adminId != adminId ==> d.customers[id] == c.customers[id]
    ensures forall id :: id in d.customers && id !in c.customers ==> d.customers[id].adminId == adminId && d.customers[id].uniqueCode == code
  {
    match NormaliseCustomer(row)
    case None => c
    case Some(r) => KeptCustomerStep(c, adminId, r, code)
  }

  /** The iteration for a record that is kept: update the vendor's customer with its key, or add one. */
  function KeptCustomerStep(c: Roster, adminId: int, r: CustomerRow, code: string): (d: Roster)
    requires RosterOk(c)
    ensures RosterOk(d)
    ensures c.customers.Keys <= d.customers.Keys
    ensures forall id :: id in c.customers ==>
              d.customers[id].uniqueCode == c.customers[id].uniqueCode && d.customers[id].adminId == c.customers[id].adminId
    ensures forall id :: id in c.customers && c.customers[id].adminId != adminId ==> d.customers[id] == c.customers[id]
    ensures forall id :: id in d.customers && id !in c.customers ==> d.customers[id].adminId == adminId && d.customers[id].uniqueCode == code
  {
    match KeyOwner(c.customers, adminId, r.key)
    case Some(id) =>
      c.(customers := c.customers[id := c.customers[id].(name := r.name, phone := r.phone, email := r.email,
                                                            address := r.address, city := r.city, isActive := true)])
    case None =>
      c.(customers := c.customers[c.nextCustomerId := Customer(adminId, r.key, r.name, r.phone, r.email, r.address, r.city, code, true)],
         nextCustomerId := c.nextCustomerId + 1)
  }

  /** The customers table after the loop has processed `rows`, record `j` drawing the fresh code `codes[j]`. */
  function ImportCustomerRows(c: Roster, adminId: int, rows: seq<CsvRow>, codes: seq<string>): (d: Roster)
    requires RosterOk(c) && |codes| == |rows|
    ensures RosterOk(d)
    ensures c.customers.Keys <= d.customers.Keys
    ensures forall id :: id in c.customers ==>
              d.customers[id].uniqueCode == c.customers[id].uniqueCode && d.customers[id].adminId == c.customers[id].adminId
    ensures forall id :: id in c.customers && c.customers[id].adminId != adminId ==> d.customers[id] == c.customers[id]
    decreases |rows|
  {
    if rows == [] then c
    else
      var n := |rows| - 1;
      var p := ImportCustomerRows(c, adminId, rows[..n], codes[..n]);
      CustomerStep(p, adminId, rows[n], codes[n])
  }

  /** The loop step of the customer import: one more record applies `CustomerStep` with its drawn code. */
  lemma ImportCustomerRowsNext(c: Roster, adminId: int, rows: seq<CsvRow>, codes: seq<string>, n: nat)
    requires RosterOk(c) && |codes| == |rows| && n < |rows|
    ensures ImportCustomerRows(c, adminId, rows[..n + 1], codes[..n + 1])
         == CustomerStep(ImportCustomerRows(c, adminId, rows[..n], codes[..n]), adminId, rows[n], codes[n])
  {
    assert rows[..n + 1][..n] == rows[..n];
    assert codes[..n + 1][..n] == codes[..n];
  }

  /** Every customer the file adds belongs to the vendor and carries one of the codes drawn for the records. */
  lemma {:induction false} NewCustomersGetDrawnCodes(c: Roster, adminId: int, rows: seq<CsvRow>, codes: seq<string>)
    requires RosterOk(c) && |codes| == |rows|
    ensures var d := ImportCustomerRows(c, adminId, rows, codes);
            forall id :: id in d.customers && id !in c.customers ==> d.customers[id].adminId == adminId && d.customers[id].uniqueCode in codes
    decreases |rows|
  {
    if rows != [] {
      var n := |rows| - 1;
      NewCustomersGetDrawnCodes(c, adminId, rows[..n], codes[..n]);
      var p := ImportCustomerRows(c, adminId, rows[..n], codes[..n]);
      var d := ImportCustomerRows(c, adminId, rows, codes);
      assert d == CustomerStep(p, adminId, rows[n], codes[n]);
      forall id | id in d.customers && id !in c.customers
        ensures d.customers[id].adminId == adminId && d.customers[id].uniqueCode in codes
      {
        if id in p.customers {
          assert p.customers[id].uniqueCode in codes[..n];
          assert forall x :: x in codes[..n] ==> x in codes;
        }
      }
    }
  }

  /** What one kept record does: one customer, found by key or new, becomes active with the record's key. */
  lemma CustomerStepFacts(p: Roster, adminId: int, r: CustomerRow, code: string)
    requires RosterOk(p)
    ensures var u := if KeyOwner(p.customers, adminId, r.key).Some? then KeyOwner(p.customers, adminId, r.key).value else p.nextCustomerId;
            var d := KeptCustomerStep(p, adminId, r, code);
            u in d.customers && d.customers == p.customers[u := d.customers[u]]
            && d.customers[u].adminId == adminId && d.customers[u].externalId == r.key && d.customers[u].isActive
            && (u in p.customers ==> p.customers[u].adminId == adminId && p.customers[u].externalId == r.key)
  {
  }

  /** The external ids of the records that are not skipped. */
  function RowKeys(rows: seq<CsvRow>): set<string>
    decreases |rows|
  {
    if rows == [] then {}
    else
      RowKeys(rows[..|rows| - 1])
      + match NormaliseCustomer(rows[|rows| - 1])
        case Some(r) => {r.key}
        case None => {}
  }

  predicate CustomersInactive(c: Roster, adminId: int) {
    forall id :: id in c.customers && c.customers[id].adminId == adminId ==> !c.customers[id].isActive
  }

  /** The vendor's active customers are those whose external id is in `keys`. */
  predicate CustomersExactly(customers: map<int, Customer>, adminId: int, keys: set<string>) {
    forall id :: id in customers && customers[id].adminId == adminId ==> (customers[id].isActive <==> customers[id].externalId in keys)
  }

  /** Every key in `keys` has an active customer of the vendor. */
  predicate KeysServed(customers: map<int, Customer>, adminId: int, keys: set<string>)
    requires CustomerKeysUnique(customers)
  {
    forall key :: key in keys ==> KeyOwner(customers, adminId, key).Some? && customers[KeyOwner(customers, adminId, key).value].isActive
  }

  /**
   * Starting from a vendor with no active customer, afterwards the vendor's
   * active customers are exactly those whose external id is the key of a
   * kept record, and every such key has an active customer.
   */
  lemma {:induction false} ActiveCustomersAreFile(c: Roster, adminId: int, rows: seq<CsvRow>, codes: seq<string>)
    requires RosterOk(c) && CustomersInactive(c, adminId) && |codes| == |rows|
    ensures CustomersExactly(ImportCustomerRows(c, adminId, rows, codes).customers, adminId, RowKeys(rows))
    ensures KeysServed(ImportCustomerRows(c, adminId, rows, codes).customers, adminId, RowKeys(rows))
    decreases |rows|
  {
    if rows != [] {
      var n := |rows| - 1;
      ActiveCustomersAreFile(c, adminId, rows[..n], codes[..n]);
      var p := ImportCustomerRows(c, adminId, rows[..n], codes[..n]);
      var d := ImportCustomerRows(c, adminId, rows, codes);
      assert d == CustomerStep(p, adminId, rows[n], codes[n]);
      match NormaliseCustomer(rows[n])
      case None =>
        assert RowKeys(rows) == RowKeys(rows[..n]);
      case Some(r) =>
        CustomerStepFacts(p, adminId, r, codes[n]);
        var u := if KeyOwner(p.customers, adminId, r.key).Some? then KeyOwner(p.customers, adminId, r.key).value else p.nextCustomerId;
        CustomerStepKeeps(p.customers, d.customers, adminId, u, r.key, RowKeys(rows[..n]));
        assert RowKeys(rows) == RowKeys(rows[..n]) + {r.key};
    }
  }

  /** Making one customer active under `key` extends both properties by that key. */
  lemma CustomerStepKeeps(before: map<int, Customer>, after: map<int, Customer>, adminId: int, u: int,
                          key: string, keys: set<string>)
    requires CustomerKeysUnique(before) && CustomerKeysUnique(after)
    requires u in after && after == before[u := after[u]]
    requires after[u].adminId == adminId && after[u].externalId == key && after[u].isActive
    requires u in before ==> before[u].adminId == adminId && before[u].externalId == key
    requires CustomersExactly(before, adminId, keys) && KeysServed(before, adminId, keys)
    ensures CustomersExactly(after, adminId, keys + {key})
    ensures KeysServed(after, adminId, keys + {key})
  {
    forall id | id in after && after[id].adminId == adminId && id != u
      ensures after[id].isActive <==> after[id].externalId in keys + {key}
    {
      assert after[id] == before[id];
      assert after[id].externalId != key;
    }
    forall k | k in keys + {key}
      ensures KeyOwner(after, adminId, k).Some? && after[KeyOwner(after, adminId, k).value].isActive
    {
      if k != key {
        var o := KeyOwner(before, adminId, k).value;
        assert o != u && after[o] == before[o];
        var o2 := KeyOwner(after, adminId, k).value;
        assert o2 == o;
      }
    }
  }

  /**
   * The whole customer sync: afterwards the vendor's active customers are
   * exactly the kept records' keys, each with an active customer; no
   * customer loses its portal code; other vendors' customers are untouched.
   */
  lemma CustomerSyncOutcome(c: Roster, adminId: int, rows: seq<CsvRow>, codes: seq<string>)
    requires RosterOk(c) && |codes| == |rows|
    ensures var d := ImportCustomerRows(DeactivateCustomers(c, adminId), adminId, rows, codes);
            CustomersExactly(d.customers, adminId, RowKeys(rows))
            && KeysServed(d.customers, adminId, RowKeys(rows))
            && (forall id :: id in c.customers ==> id in d.customers && d.customers[id].uniqueCode == c.customers[id].uniqueCode)
            && (forall id :: id in c.customers && c.customers[id].adminId != adminId ==> d.customers[id] == c.customers[id])
  {
    ActiveCustomersAreFile(DeactivateCustomers(c, adminId), adminId, rows, codes);
  }
}
