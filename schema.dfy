/**
 * The tables the routes work on (db.js:29-126), held in memory.
 *
 * Rows are values; the database is one object whose table fields the
 * handlers reassign. Rows keyed by a SERIAL id are maps from that id; the
 * offers table is keyed by its unique index (admin_id, stock_id); orders,
 * order items and import logs are append-only sequences whose ids are
 * their position plus one. Money is held in hundredths.
 */
module Schema {
  import opened Wrappers

  datatype Admin = Admin(
    username: string,
    passwordHash: string,
    name: string,
    companyName: Option<string>,
    uniqueCode: string,
    subdomain: Option<string>,
    role: string,
    isActive: bool,
    createdBy: Option<int>)

  datatype Customer = Customer(
    adminId: int,
    externalId: string,
    name: string,
    phone: string,
    email: string,
    address: string,
    city: string,
    uniqueCode: string,
    isActive: bool)

  datatype StockItem = StockItem(
    adminId: int,
    itemCode: string,
    itemName: string,
    category: Option<string>,
    unit: string,
    quantity: int,
    price: int,
    distPrice: int,
    mrp: int,
    isActive: bool)

  /** A special_offers row; its (admin_id, stock_id) is the key it is stored under. */
  datatype Offer = Offer(
    id: int,
    text: string,
    discountPercent: int,
    price: Option<int>,
    isActive: bool)

  datatype Order = Order(
    adminId: int,
    orderNumber: string,
    customerId: int,
    totalAmount: int,
    status: string,
    notes: string)

  /** One priced line of an order, as the order handler builds it. */
  datatype OrderLine = OrderLine(
    stockId: Option<int>,
    itemName: string,
    quantity: int,
    unitPrice: int,
    totalPrice: int,
    isOffer: bool,
    bonusQty: nat,
    appliedOffer: Option<string>,
    offerSkipped: bool,
    missedOfferText: Option<string>,
    distPrice: int,
    mrp: int)

  datatype OrderItem = OrderItem(orderId: int, line: OrderLine)

  datatype ImportLog = ImportLog(
    adminId: int,
    importType: string,
    filename: string,
    recordsCount: nat,
    importedBy: int)

  /** The vendor a request was resolved to by the tenant middleware (the whole admins row). */
  datatype Tenant = Tenant(id: int, admin: Admin)

  /**
   * The PostgreSQL schema the order handler runs on. `Postgres` is db.js as
   * written, where order_items.stock_id is NOT NULL; `NullableStockId` is the
   * same schema with only that column nullable, which is how
   * database/sqlite.js:177 declares it. Nothing else of the SQLite schema
   * (such as its globally unique order_number) is part of either variant.
   */
  datatype Backend = Postgres | NullableStockId

  predicate StockCodesUnique(stock: map<int, StockItem>) {
    forall a, b :: a in stock && b in stock && a != b ==>
      stock[a].adminId != stock[b].adminId || stock[a].itemCode != stock[b].itemCode
  }

  predicate CustomerKeysUnique(customers: map<int, Customer>) {
    forall a, b :: a in customers && b in customers && a != b ==>
      customers[a].adminId != customers[b].adminId || customers[a].externalId != customers[b].externalId
  }

  /** username, unique_code and (when set) subdomain are UNIQUE columns of admins. */
  predicate AdminKeysUnique(admins: map<int, Admin>) {
    forall a, b :: a in admins && b in admins && a != b ==>
      admins[a].username != admins[b].username && admins[a].uniqueCode != admins[b].uniqueCode
      && (admins[a].subdomain.None? || admins[a].subdomain != admins[b].subdomain)
  }

  /** Every offer belongs to a stock row of the same vendor. */
  predicate OffersOwned(offers: map<(int, int), Offer>, stock: map<int, StockItem>) {
    forall k :: k in offers ==> k.1 in stock && stock[k.1].adminId == k.0
  }

  predicate IdsBelow<V>(m: map<int, V>, next: int) {
    forall id :: id in m ==> 0 < id < next
  }

  class Database {
    var admins: map<int, Admin>
    var customers: map<int, Customer>
    var stock: map<int, StockItem>
    var offers: map<(int, int), Offer>
    var orders: seq<Order>
    var orderItems: seq<OrderItem>
    var importLogs: seq<ImportLog>
    var nextAdminId: int
    var nextCustomerId: int
    var nextStockId: int
    var nextOfferId: int

    /** The constraints the schema declares and the handlers rely on. */
    predicate Valid()
      reads this
    {
      0 < nextAdminId && 0 < nextCustomerId && 0 < nextStockId && 0 < nextOfferId
      && IdsBelow(admins, nextAdminId)
      && IdsBelow(customers, nextCustomerId)
      && IdsBelow(stock, nextStockId)
      && AdminKeysUnique(admins)
      && CustomerKeysUnique(customers)
      && StockCodesUnique(stock)
      && OffersOwned(offers, stock)
    }

    constructor ()
      ensures Valid()
      ensures admins == map[] && customers == map[] && stock == map[] && offers == map[]
      ensures orders == [] && orderItems == [] && importLogs == []
    {
      admins := map[];
      customers := map[];
      stock := map[];
      offers := map[];
      orders := [];
      orderItems := [];
      importLogs := [];
      nextAdminId := 1;
      nextCustomerId := 1;
      nextStockId := 1;
      nextOfferId := 1;
    }
  }

  lemma NonEmptyHasMember(s: set<int>)
    requires s != {}
    ensures exists x :: x in s
  {
    assert (forall x :: x !in s) ==> s == {};
  }

  /**
   * Searches a table for a row the predicate accepts. The first row the
   * database returns is unspecified, so any accepted row may come back.
   */
  method FindRow<V>(table: map<int, V>, accept: V -> bool) returns (r: Option<int>)
    ensures r.Some? ==> r.value in table && accept(table[r.value])
    ensures r.None? ==> forall id :: id in table ==> !accept(table[id])
  {
    var left := table.Keys;
    while left != {}
      invariant left <= table.Keys
      invariant forall id :: id in table && id !in left ==> !accept(table[id])
      decreases left
    {
      NonEmptyHasMember(left);
      var id :| id in left;
      if accept(table[id]) {
        return Some(id);
      }
      left := left - {id};
    }
    return None;
  }
}
