/**
 * The vendor's table operations of routes/admin.js, as methods on the
 * database: the two CSV imports, manual stock and customer entry, stock
 * update and soft delete, offer creation and soft delete, and the order
 * status update. `adminId` is the authenticated vendor (`req.user.id`).
 */
module VendorAdmin {
  import opened Wrappers
  import opened Text
  import opened Schema
  import opened CsvImport

  /** An uploaded CSV file, already parsed into records. */
  datatype CsvFile = CsvFile(filename: string, rows: seq<CsvRow>)

  /**
   * The JSON reply: success, an import summary, an error with its status,
   * or an error the database raised (500, with the database's message).
   */
  datatype Reply = Done | Imported(records: nat, offers: nat) | Refused(status: int, error: string) | DbError

  /** The handlers' refusals (routes/admin.js). */
  const NoFile := Refused(400, "No CSV file uploaded")
  const DuplicateItemCode := Refused(400, "Item code already exists for your company")
  const StockNotFound := Refused(404, "Stock item not found")
  const DuplicateCustomerId := Refused(400, "Customer ID already exists for your company")

  /** The `import_type` of the two imports' log rows. */
  const StockImportType := "stock"
  const CustomerImportType := "customer"

  /** The stock fields of a request body; "" stands for a missing or falsy field, 0 for a missing number. */
  datatype StockForm = StockForm(itemCode: string, itemName: string, category: string, unit: string,
                                 quantity: int, price: int, distPrice: int, mrp: int)

  datatype CustomerForm = CustomerForm(externalId: string, name: string, phone: string, email: string,
                                       address: string, city: string)

  const DefaultUnit := "Pcs"
  const DefaultStatus := "pending"

  /** `value || fallback` on a text field: an empty value falls back. */
  function OrDefault(value: string, fallback: string): (r: string)
    ensures value != "" ==> r == value
    ensures value == "" ==> r == fallback
    ensures fallback != "" ==> r != ""
  {
    if value == "" then fallback else value
  }

  // ---------- CSV imports ----------

  /** The loop of the stock import: every record counted, each step applied in file order. */
  method SyncStock(start: Catalog, adminId: int, rows: seq<CsvRow>) returns (c: Catalog, recordsCount: nat)
    requires CatalogOk(start)
    ensures c == ImportStockRows(start, adminId, rows)
    ensures recordsCount == |rows|
  {
    c := start;
    recordsCount := 0;
    while recordsCount < |rows|
      invariant recordsCount <= |rows|
      invariant CatalogOk(c)
      invariant c == ImportStockRows(start, adminId, rows[..recordsCount])
    {
      ImportStockRowsNext(start, adminId, rows, recordsCount);
      c := StockStep(c, adminId, rows[recordsCount], recordsCount + 1);
      recordsCount := recordsCount + 1;
    }
    assert rows[..recordsCount] == rows;
  }

  /**
   * POST /stock/import: 400 without a file; otherwise, in one transaction,
   * deactivate the vendor's stock and offers, upsert every named record,
   * and log the import. A database error rolls everything back.
   */
  method ImportStock(db: Database, adminId: int, file: Option<CsvFile>, fault: bool) returns (reply: Reply)
    requires db.Valid()
    modifies db
    ensures db.Valid()
    ensures file.None? ==> reply == NoFile && unchanged(db)
    ensures file.Some? && fault ==> reply == DbError && unchanged(db)
    ensures file.Some? && !fault ==>
      var d := ImportStockRows(DeactivateVendor(Catalog(old(db.stock), old(db.offers), old(db.nextStockId), old(db.nextOfferId), 0), adminId),
                               adminId, file.value.rows);
      reply == Imported(|file.value.rows|, d.offerCount)
      && db.stock == d.stock && db.offers == d.offers
      && db.nextStockId == d.nextStockId && db.nextOfferId == d.nextOfferId
      && db.importLogs == old(db.importLogs) + [ImportLog(adminId, StockImportType, file.value.filename, |file.value.rows|, adminId)]
      && db.admins == old(db.admins) && db.customers == old(db.customers)
      && db.orders == old(db.orders) && db.orderItems == old(db.orderItems)
      && db.nextAdminId == old(db.nextAdminId) && db.nextCustomerId == old(db.nextCustomerId)
  {
    if file.None? {
      return NoFile;
    }
    var start := DeactivateVendor(Catalog(db.stock, db.offers, db.nextStockId, db.nextOfferId, 0), adminId);
    var c, recordsCount := SyncStock(start, adminId, file.value.rows);
    if fault {
      return DbError;
    }
    StoreCatalog(db, c, ImportLog(adminId, StockImportType, file.value.filename, recordsCount, adminId));
    reply := Imported(recordsCount, c.offerCount);
  }

  /** The commit of the stock import: the stock and offers tables become `c`, and the import is logged. */
  method StoreCatalog(db: Database, c: Catalog, log: ImportLog)
    requires db.Valid() && CatalogOk(c)
    modifies db
    ensures db.Valid()
    ensures db.stock == c.stock && db.offers == c.offers && db.nextStockId == c.nextStockId && db.nextOfferId == c.nextOfferId
    ensures db.importLogs == old(db.importLogs) + [log]
    ensures db.admins == old(db.admins) && db.customers == old(db.customers)
    ensures db.orders == old(db.orders) && db.orderItems == old(db.orderItems)
    ensures db.nextAdminId == old(db.nextAdminId) && db.nextCustomerId == old(db.nextCustomerId)
  {
    db.stock, db.offers, db.nextStockId, db.nextOfferId, db.importLogs :=
      c.stock, c.offers, c.nextStockId, c.nextOfferId, db.importLogs + [log];
  }

  /** The loop of the customer import; record `j` draws the fresh portal code `codes[j]`. */
  method SyncCustomers(start: Roster, adminId: int, rows: seq<CsvRow>, codes: seq<string>) returns (c: Roster, recordsCount: nat)
    requires RosterOk(start) && |codes| == |rows|
    ensures c == ImportCustomerRows(start, adminId, rows, codes)
    ensures recordsCount == |rows|
  {
    c := start;
    recordsCount := 0;
    while recordsCount < |rows|
      invariant recordsCount <= |rows|
      invariant RosterOk(c)
      invariant c == ImportCustomerRows(start, adminId, rows[..recordsCount], codes[..recordsCount])
    {
      ImportCustomerRowsNext(start, adminId, rows, codes, recordsCount);
      c := CustomerStep(c, adminId, rows[recordsCount], codes[recordsCount]);
      recordsCount := recordsCount + 1;
    }
    assert rows[..recordsCount] == rows && codes[..recordsCount] == codes;
  }

  /**
   * POST /customers/import: 400 without a file; otherwise, in one
   * transaction, deactivate the vendor's customers, upsert every record
   * that has an external id or a phone, and log the import. `codes` are the
   * fresh 8-character codes drawn for the records, one each.
   */
  method ImportCustomers(db: Database, adminId: int, file: Option<CsvFile>, codes: seq<string>, fault: bool) returns (reply: Reply)
    requires db.Valid()
    requires file.Some? ==> |codes| == |file.value.rows|
    modifies db
    ensures db.Valid()
    ensures file.None? ==> reply == NoFile && unchanged(db)
    ensures file.Some? && fault ==> reply == DbError && unchanged(db)
    ensures file.Some? && !fault ==>
      var d := ImportCustomerRows(DeactivateCustomers(Roster(old(db.customers), old(db.nextCustomerId)), adminId),
                                  adminId, file.value.rows, codes);
      reply == Imported(|file.value.rows|, 0)
      && db.customers == d.customers && db.nextCustomerId == d.nextCustomerId
      && db.importLogs == old(db.importLogs) + [ImportLog(adminId, CustomerImportType, file.value.filename, |file.value.rows|, adminId)]
      && db.admins == old(db.admins) && db.stock == old(db.stock) && db.offers == old(db.offers)
      && db.orders == old(db.orders) && db.orderItems == old(db.orderItems)
      && db.nextAdminId == old(db.nextAdminId) && db.nextStockId == old(db.nextStockId) && db.nextOfferId == old(db.nextOfferId)
  {
    if file.None? {
      return NoFile;
    }
    var start := DeactivateCustomers(Roster(db.customers, db.nextCustomerId), adminId);
    var c, recordsCount := SyncCustomers(start, adminId, file.value.rows, codes);
    if fault {
      return DbError;
    }
    db.customers, db.nextCustomerId := c.customers, c.nextCustomerId;
    db.importLogs := db.importLogs + [ImportLog(adminId, CustomerImportType, file.value.filename, recordsCount, adminId)];
    reply := Imported(recordsCount, 0);
  }

  // ---------- stock ----------

  /**
   * POST /stock: a new active row; 400 when the vendor already has a row
   * (active or not) with that code. `fault` is any other error the INSERT
   * raises (a value out of a column's range, a lost connection): 500.
   */
  method AddStock(db: Database, adminId: int, form: StockForm, fault: bool) returns (reply: Reply)
    requires db.Valid()
    modifies db
    ensures db.Valid()
    ensures reply == Done || reply == DuplicateItemCode || reply == DbError
    ensures reply == DbError <==> fault
    ensures reply.Refused? <==> !fault && exists id :: id in old(db.stock) && old(db.stock)[id].adminId == adminId && old(db.stock)[id].itemCode == form.itemCode
    ensures reply != Done ==> unchanged(db)
    ensures reply == Done ==>
      db.stock == old(db.stock)[old(db.nextStockId) := StockItem(adminId, form.itemCode, form.itemName, Some(form.category),
                                                                 OrDefault(form.unit, DefaultUnit), form.quantity, form.price, form.distPrice, form.mrp, true)]
      && db.nextStockId == old(db.nextStockId) + 1
    ensures db.admins == old(db.admins) && db.customers == old(db.customers) && db.offers == old(db.offers)
    ensures db.orders == old(db.orders) && db.orderItems == old(db.orderItems) && db.importLogs == old(db.importLogs)
    ensures db.nextAdminId == old(db.nextAdminId) && db.nextCustomerId == old(db.nextCustomerId) && db.nextOfferId == old(db.nextOfferId)
  {
    if fault {
      return DbError;
    }
    if CodeOwner(db.stock, adminId, form.itemCode).Some? {
      return DuplicateItemCode;
    }
    var item := StockItem(adminId, form.itemCode, form.itemName, Some(form.category), OrDefault(form.unit, DefaultUnit),
                          form.quantity, form.price, form.distPrice, form.mrp, true);
    db.stock := db.stock[db.nextStockId := item];
    db.nextStockId := db.nextStockId + 1;
    reply := Done;
  }

  /** The row belongs to the vendor (`WHERE id = $1 AND admin_id = $2`). */
  predicate OwnsStock(stock: map<int, StockItem>, adminId: int, id: int) {
    id in stock && stock[id].adminId == adminId
  }

  /**
   * PUT /stock/:id: 404 unless the row is the vendor's; otherwise the
   * editable fields are overwritten. The code, the vendor and the active
   * flag are kept, so a soft-deleted row stays deleted. `fault` is an
   * error of one of its statements (a non-numeric id, a value out of a
   * column's range, a lost connection): 500 and nothing changes.
   */
  method UpdateStock(db: Database, adminId: int, id: int, form: StockForm, fault: bool) returns (reply: Reply)
    requires db.Valid()
    modifies db
    ensures db.Valid()
    ensures reply == DbError <==> fault
    ensures !fault ==> (!OwnsStock(old(db.stock), adminId, id) <==> reply == StockNotFound)
    ensures reply != Done ==> unchanged(db)
    ensures reply == Done ==>
      var s := old(db.stock)[id];
      db.stock == old(db.stock)[id := s.(itemName := form.itemName, category := Some(form.category), unit := OrDefault(form.unit, DefaultUnit),
                                         quantity := form.quantity, price := form.price, distPrice := form.distPrice, mrp := form.mrp)]
    ensures reply == Done || reply == StockNotFound || reply == DbError
    ensures db.admins == old(db.admins) && db.customers == old(db.customers) && db.offers == old(db.offers)
    ensures db.orders == old(db.orders) && db.orderItems == old(db.orderItems) && db.importLogs == old(db.importLogs)
    ensures db.nextAdminId == old(db.nextAdminId) && db.nextCustomerId == old(db.nextCustomerId)
    ensures db.nextStockId == old(db.nextStockId) && db.nextOfferId == old(db.nextOfferId)
  {
    if fault {
      return DbError;
    }
    if !OwnsStock(db.stock, adminId, id) {
      return StockNotFound;
    }
    var s := db.stock[id];
    db.stock := db.stock[id := s.(itemName := form.itemName, category := Some(form.category), unit := OrDefault(form.unit, DefaultUnit),
                                  quantity := form.quantity, price := form.price, distPrice := form.distPrice, mrp := form.mrp)];
    reply := Done;
  }

  /**
   * DELETE /stock/:id: the vendor's row is deactivated (its offer is left as
   * it was); any other id is a no-op. A failing UPDATE (`fault`) is a 500.
   */
  method DeleteStock(db: Database, adminId: int, id: int, fault: bool) returns (reply: Reply)
    requires db.Valid()
    modifies db
    ensures db.Valid()
    ensures reply == (if fault then DbError else Done)
    ensures fault ==> unchanged(db)
    ensures !fault && OwnsStock(old(db.stock), adminId, id) ==> db.stock == old(db.stock)[id := old(db.stock)[id].(isActive := false)]
    ensures fault || !OwnsStock(old(db.stock), adminId, id) ==> db.stock == old(db.stock)
    ensures db.admins == old(db.admins) && db.customers == old(db.customers) && db.offers == old(db.offers)
    ensures db.orders == old(db.orders) && db.orderItems == old(db.orderItems) && db.importLogs == old(db.importLogs)
    ensures db.nextAdminId == old(db.nextAdminId) && db.nextCustomerId == old(db.nextCustomerId)
    ensures db.nextStockId == old(db.nextStockId) && db.nextOfferId == old(db.nextOfferId)
  {
    if fault {
      return DbError;
    }
    if OwnsStock(db.stock, adminId, id) {
      db.stock := db.stock[id := db.stock[id].(isActive := false)];
    }
    reply := Done;
  }

  /** A soft-deleted code stays taken: adding it again is refused, since the unique index ignores the flag. */
  lemma DeletedCodeStaysTaken(stock: map<int, StockItem>, adminId: int, id: int, form: StockForm)
    requires OwnsStock(stock, adminId, id) && form.itemCode == stock[id].itemCode
    ensures var after := stock[id := stock[id].(isActive := false)];
            exists x :: x in after && after[x].adminId == adminId && after[x].itemCode == form.itemCode
  {
    var after := stock[id := stock[id].(isActive := false)];
    assert after[id].adminId == adminId && after[id].itemCode == form.itemCode;
  }

  // ---------- offers ----------

  /** `offer_price || null`. */
  function OfferPrice(price: Option<int>): (p: Option<int>)
    ensures p.Some? ==> p.value != 0 && p == price
    ensures price.Some? && price.value != 0 ==> p == price
  {
    if price.Some? && price.value != 0 then price else None
  }

  /**
   * POST /offers as the route runs it: 404 unless the stock row is the
   * vendor's; otherwise the item's offer is deactivated (committed at once)
   * and a new offer row is INSERTed. Because (admin_id, stock_id) is a
   * unique index, the insert fails whenever the item already had an offer
   * row: the old offer is then left deactivated and no new one exists.
   * A missing text violates NOT NULL and fails too.
   */
  method CreateOfferAsWritten(db: Database, adminId: int, stockId: int, text: Option<string>, discount: int, price: Option<int>)
    returns (reply: Reply)
    requires db.Valid()
    modifies db
    ensures db.Valid()
    ensures !OwnsStock(old(db.stock), adminId, stockId) <==> reply == StockNotFound
    ensures reply.Refused? ==> unchanged(db)
    ensures OwnsStock(old(db.stock), adminId, stockId) && (adminId, stockId) in old(db.offers) ==>
      reply == DbError
      && db.offers == old(db.offers)[(adminId, stockId) := old(db.offers)[(adminId, stockId)].(isActive := false)]
    ensures OwnsStock(old(db.stock), adminId, stockId) && (adminId, stockId) !in old(db.offers) && text.None? ==>
      reply == DbError && db.offers == old(db.offers)
    ensures OwnsStock(old(db.stock), adminId, stockId) && (adminId, stockId) !in old(db.offers) && text.Some? ==>
      reply == Done
      && db.offers == old(db.offers)[(adminId, stockId) := Offer(old(db.nextOfferId), text.value, discount, OfferPrice(price), true)]
    ensures db.stock == old(db.stock) && db.admins == old(db.admins) && db.customers == old(db.customers)
    ensures db.orders == old(db.orders) && db.orderItems == old(db.orderItems) && db.importLogs == old(db.importLogs)
  {
    if !OwnsStock(db.stock, adminId, stockId) {
      return StockNotFound;
    }
    var key := (adminId, stockId);
    if key in db.offers {
      db.offers := db.offers[key := db.offers[key].(isActive := false)];
    }
    if key in db.offers || text.None? {
      return DbError;
    }
    db.offers := db.offers[key := Offer(db.nextOfferId, text.value, discount, OfferPrice(price), true)];
    db.nextOfferId := db.nextOfferId + 1;
    reply := Done;
  }

  /**
   * POST /offers as evidently intended: one upsert on (admin_id, stock_id),
   * so the item's offer is replaced by the new one, active, whether or not
   * the item had an offer before; nothing else changes.
   */
  method CreateOffer(db: Database, adminId: int, stockId: int, text: Option<string>, discount: int, price: Option<int>)
    returns (reply: Reply)
    requires db.Valid()
    modifies db
    ensures db.Valid()
    ensures !OwnsStock(old(db.stock), adminId, stockId) <==> reply == StockNotFound
    ensures OwnsStock(old(db.stock), adminId, stockId) && text.None? ==> reply == DbError
    ensures reply.Refused? || reply == DbError ==> unchanged(db)
    ensures OwnsStock(old(db.stock), adminId, stockId) && text.Some? ==>
      reply == Done
      && (adminId, stockId) in db.offers
      && db.offers[(adminId, stockId)].isActive && db.offers[(adminId, stockId)].text == text.value
      && db.offers[(adminId, stockId)].discountPercent == discount && db.offers[(adminId, stockId)].price == OfferPrice(price)
      && db.offers.Keys == old(db.offers).Keys + {(adminId, stockId)}
      && forall k :: k in old(db.offers) && k != (adminId, stockId) ==> db.offers[k] == old(db.offers)[k]
    ensures db.stock == old(db.stock) && db.admins == old(db.admins) && db.customers == old(db.customers)
    ensures db.orders == old(db.orders) && db.orderItems == old(db.orderItems) && db.importLogs == old(db.importLogs)
  {
    if !OwnsStock(db.stock, adminId, stockId) {
      return StockNotFound;
    }
    if text.None? {
      return DbError;
    }
    var key := (adminId, stockId);
    var id := if key in db.offers then db.offers[key].id else db.nextOfferId;
    db.offers := db.offers[key := Offer(id, text.value, discount, OfferPrice(price), true)];
    if id == db.nextOfferId {
      db.nextOfferId := db.nextOfferId + 1;
    }
    reply := Done;
  }

  /** A stock item has at most one offer row, hence at most one active offer. */
  lemma OneOfferPerItem(db: Database, k1: (int, int), k2: (int, int))
    requires db.Valid()
    requires k1 in db.offers && k2 in db.offers && k1.1 == k2.1
    ensures k1 == k2
  {
    assert db.stock[k1.1].adminId == k1.0 && db.stock[k2.1].adminId == k2.0;
  }

  /**
   * DELETE /offers/:id: the vendor's offer rows with that id are
   * deactivated; nothing else changes. A failing UPDATE (`fault`) is a 500.
   */
  method DeleteOffer(db: Database, adminId: int, offerId: int, fault: bool) returns (reply: Reply)
    requires db.Valid()
    modifies db
    ensures db.Valid()
    ensures reply == (if fault then DbError else Done)
    ensures fault ==> unchanged(db)
    ensures db.offers.Keys == old(db.offers).Keys
    ensures !fault ==> forall k :: k in db.offers ==>
              db.offers[k] == if k.0 == adminId && old(db.offers)[k].id == offerId
                              then old(db.offers)[k].(isActive := false) else old(db.offers)[k]
    ensures db.stock == old(db.stock) && db.admins == old(db.admins) && db.customers == old(db.customers)
    ensures db.orders == old(db.orders) && db.orderItems == old(db.orderItems) && db.importLogs == old(db.importLogs)
  {
    if fault {
      return DbError;
    }
    db.offers := map k | k in db.offers ::
      if k.0 == adminId && db.offers[k].id == offerId then db.offers[k].(isActive := false) else db.offers[k];
    reply := Done;
  }

  // ---------- customers and orders ----------

  /**
   * POST /customers: a new active customer; 400 when the vendor already has
   * that external id. `fault` is any other error of the INSERT: 500.
   */
  method AddCustomer(db: Database, adminId: int, form: CustomerForm, code: string, fault: bool) returns (reply: Reply)
    requires db.Valid()
    modifies db
    ensures db.Valid()
    ensures reply == Done || reply == DuplicateCustomerId || reply == DbError
    ensures reply == DbError <==> fault
    ensures reply.Refused? <==>
      !fault && exists id :: id in old(db.customers) && old(db.customers)[id].adminId == adminId && old(db.customers)[id].externalId == form.externalId
    ensures reply != Done ==> unchanged(db)
    ensures reply == Done ==>
      db.customers == old(db.customers)[old(db.nextCustomerId) :=
        Customer(adminId, form.externalId, form.name, form.phone, form.email, form.address, form.city, code, true)]
      && db.nextCustomerId == old(db.nextCustomerId) + 1
    ensures db.admins == old(db.admins) && db.stock == old(db.stock) && db.offers == old(db.offers)
    ensures db.orders == old(db.orders) && db.orderItems == old(db.orderItems) && db.importLogs == old(db.importLogs)
  {
    if fault {
      return DbError;
    }
    if KeyOwner(db.customers, adminId, form.externalId).Some? {
      return DuplicateCustomerId;
    }
    db.customers := db.customers[db.nextCustomerId :=
      Customer(adminId, form.externalId, form.name, form.phone, form.email, form.address, form.city, code, true)];
    db.nextCustomerId := db.nextCustomerId + 1;
    reply := Done;
  }

  /**
   * PUT /orders/:id/status: the vendor's order takes the new status; any
   * other id is a no-op. A failing UPDATE (`fault`) is a 500.
   */
  method UpdateOrderStatus(db: Database, adminId: int, orderId: int, status: string, fault: bool) returns (reply: Reply)
    requires db.Valid()
    modifies db
    ensures db.Valid()
    ensures reply == (if fault then DbError else Done)
    ensures fault ==> unchanged(db)
    ensures |db.orders| == |old(db.orders)|
    ensures !fault ==> forall i :: 0 <= i < |db.orders| ==>
              db.orders[i] == if i == orderId - 1 && old(db.orders)[i].adminId == adminId
                              then old(db.orders)[i].(status := OrDefault(status, DefaultStatus)) else old(db.orders)[i]
    ensures db.stock == old(db.stock) && db.admins == old(db.admins) && db.customers == old(db.customers)
    ensures db.offers == old(db.offers) && db.orderItems == old(db.orderItems) && db.importLogs == old(db.importLogs)
  {
    if fault {
      return DbError;
    }
    if 1 <= orderId <= |db.orders| && db.orders[orderId - 1].adminId == adminId {
      db.orders := db.orders[orderId - 1 := db.orders[orderId - 1].(status := OrDefault(status, DefaultStatus))];
    }
    reply := Done;
  }
}
