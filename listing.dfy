/**
 * The customer-facing catalogue listings of routes/customer.js: the
 * manufacturer menu (lines 64-98), the per-manufacturer view (lines
 * 101-142) and the paginated, searchable stock list (lines 145-207).
 *
 * The rows a query reads are a parameter, taken in the order the SQL's
 * ORDER BY returns them; the filters keep that order.
 */
module Listing {
  import opened Wrappers
  import opened Text
  import opened Seqs
  import opened Schema
  import opened Pagination

  const General := "General"
  const SpecialOffers := "Special Offers \U{2728}"

  /** A stock row LEFT JOINed to its active offer, as the listing queries select it. */
  datatype JoinedRow = JoinedRow(id: int, item: StockItem, offer: Option<Offer>)

  /** The vendor resolved from a portal code: an active admin with that unique code. */
  predicate IsVendor(a: Admin, code: string) {
    a.uniqueCode == code && a.isActive
  }

  method ResolveVendor(db: Database, code: string) returns (vendor: Option<int>)
    requires db.Valid()
    ensures vendor.Some? ==> vendor.value in db.admins && IsVendor(db.admins[vendor.value], code)
    ensures vendor.None? <==> forall id :: id in db.admins ==> !IsVendor(db.admins[id], code)
  {
    var isVendor := (a: Admin) => IsVendor(a, code);
    vendor := FindRow(db.admins, isVendor);
    if vendor.Some? {
      var v := vendor.value;
      assert v in db.admins && isVendor(db.admins[v]);
    }
  }

  /** The same code never resolves to two vendors. */
  lemma VendorUnique(db: Database, code: string, a: int, b: int)
    requires db.Valid()
    requires a in db.admins && IsVendor(db.admins[a], code)
    requires b in db.admins && IsVendor(db.admins[b], code)
    ensures a == b
  {
  }

  // ---------- the manufacturer menu ----------

  /** `CASE WHEN category IS NULL OR category = '' THEN 'General' ELSE category END`. */
  function ManufacturerName(s: StockItem): (n: string)
    ensures n == General <==> s.category.None? || s.category.value == "" || s.category.value == General
    ensures n != General ==> s.category == Some(n)
  {
    if s.category.None? || s.category.value == "" then General else s.category.value
  }

  /** The rows the menu and the per-manufacturer view draw on. */
  predicate InStock(adminId: int, s: StockItem) {
    s.adminId == adminId && s.isActive && s.quantity > 0
  }

  /** Whether the vendor has any active offer row. */
  ghost predicate HasOffers(offers: map<(int, int), Offer>, adminId: int) {
    exists k :: k in offers && k.0 == adminId && offers[k].isActive
  }

  predicate NotGeneral(n: string) { n != General }

  /**
   * The menu: 'General' first, then 'Special Offers ✨' when the vendor has
   * an active offer, then the other names in the order the query gave them.
   */
  function ManufacturerList(names: seq<string>, hasOffers: bool): (r: seq<string>)
    ensures |r| >= 1 && r[0] == General
    ensures hasOffers ==> |r| >= 2 && r[1] == SpecialOffers
    ensures var rest := r[if hasOffers then 2 else 1..];
            General !in rest && forall n :: n in rest <==> n in names && n != General
    ensures |r| <= |names| + 2
  {
    [General] + (if hasOffers then [SpecialOffers] else []) + Keep(names, NotGeneral)
  }

  /** `names` holds exactly the distinct manufacturer names of the vendor's in-stock rows. */
  ghost predicate NamesOfStock(names: seq<string>, stock: map<int, StockItem>, adminId: int) {
    forall n :: n in names <==> exists id :: id in stock && InStock(adminId, stock[id]) && ManufacturerName(stock[id]) == n
  }

  /**
   * Every in-stock item's manufacturer is on the menu, and every entry other
   * than the two fixed ones names at least one in-stock item.
   */
  lemma MenuCoversStock(names: seq<string>, stock: map<int, StockItem>, adminId: int, hasOffers: bool)
    requires NamesOfStock(names, stock, adminId)
    ensures forall id :: id in stock && InStock(adminId, stock[id]) ==> ManufacturerName(stock[id]) in ManufacturerList(names, hasOffers)
    ensures forall n :: n in ManufacturerList(names, hasOffers) && n != General && n != SpecialOffers ==>
              exists id :: id in stock && InStock(adminId, stock[id]) && ManufacturerName(stock[id]) == n
  {
    var r := ManufacturerList(names, hasOffers);
    var k := if hasOffers then 2 else 1;
    assert r == r[..k] + r[k..];
    forall id | id in stock && InStock(adminId, stock[id])
      ensures ManufacturerName(stock[id]) in r
    {
      var n := ManufacturerName(stock[id]);
      if n != General {
        assert n in names;
        assert n in r[k..];
      }
    }
  }

  // ---------- the per-manufacturer view ----------

  /** The WHERE clause of /stock-by-manufacturer for the query's `manufacturer` (default 'General'). */
  predicate InManufacturerView(adminId: int, manufacturerRaw: string, r: JoinedRow) {
    var m := if manufacturerRaw == "" then General else manufacturerRaw;
    InStock(adminId, r.item)
    && if m == SpecialOffers then r.offer.Some?
       else if m == General then r.item.category.None? || r.item.category == Some("")
       else r.item.category == Some(m)
  }

  /**
   * Outside the offers view, an in-stock item is shown under exactly the
   * menu name computed for it, provided its category is not literally
   * 'General'.
   */
  lemma ViewMatchesMenu(adminId: int, m: string, r: JoinedRow)
    requires m != "" && m != SpecialOffers
    requires InStock(adminId, r.item) && r.item.category != Some(General)
    ensures InManufacturerView(adminId, m, r) <==> m == ManufacturerName(r.item)
  {
  }

  /**
   * A stock row whose category is literally 'General' is listed under the
   * menu's 'General' entry but matched by no manufacturer view; only the
   * offers view can show it.
   */
  lemma LiteralGeneralHidden(adminId: int, m: string, r: JoinedRow)
    requires InStock(adminId, r.item) && r.item.category == Some(General)
    ensures ManufacturerName(r.item) == General
    ensures InManufacturerView(adminId, m, r) ==> m == SpecialOffers && r.offer.Some?
  {
  }

  /** The offers view shows exactly the in-stock items with an active offer. */
  lemma OffersView(adminId: int, r: JoinedRow)
    ensures InManufacturerView(adminId, SpecialOffers, r) <==> InStock(adminId, r.item) && r.offer.Some?
  {
  }

  // ---------- the paginated stock list ----------

  /**
   * PostgreSQL's `text LIKE pattern` with the default escape character:
   * `%` matches any run of characters, `_` exactly one, a backslash makes
   * the next character literal, and every other character matches itself.
   * A pattern ending in a lone backslash is an error in PostgreSQL; it
   * matches nothing here, and the search patterns below never end in one.
   */
  predicate Like(pattern: string, text: string)
    decreases |pattern|, |text|
  {
    if pattern == [] then text == []
    else if pattern[0] == '%' then Like(pattern[1..], text) || (text != [] && Like(pattern, text[1..]))
    else if pattern[0] == '\\' then
      |pattern| >= 2 && text != [] && text[0] == pattern[1] && Like(pattern[2..], text[1..])
    else text != [] && (pattern[0] == '_' || pattern[0] == text[0]) && Like(pattern[1..], text[1..])
  }

  /** The bound search pattern `%search%`, lowered; `LOWER` leaves `%` as it is. */
  function SearchPattern(search: string): string {
    "%" + ToLower(search) + "%"
  }

  /** `LOWER(x) LIKE LOWER('%search%')` on the name, the category (NULL as 'General') or the code. */
  predicate MatchesSearch(search: string, s: StockItem) {
    var p := SearchPattern(search);
    Like(p, ToLower(s.itemName)) || Like(p, ToLower(s.category.GetOr(General))) || Like(p, ToLower(s.itemCode))
  }

  /** A lone `%` matches every text. */
  lemma {:induction false} PercentMatchesAll(text: string)
    ensures Like("%", text)
    decreases |text|
  {
    if text != [] {
      PercentMatchesAll(text[1..]);
    }
  }

  /** A leading `%` may skip the first `i` characters of the text. */
  lemma {:induction false} PercentSkips(pattern: string, text: string, i: nat)
    requires pattern != [] && pattern[0] == '%' && i <= |text|
    requires Like(pattern[1..], text[i..])
    ensures Like(pattern, text)
    decreases i
  {
    if i > 0 {
      assert text[1..][i - 1..] == text[i..];
      PercentSkips(pattern, text[1..], i - 1);
    }
  }

  /** Without a backslash a text matches itself as a pattern, in front of any matching rest. */
  lemma {:induction false} SelfMatches(s: string, rest: string, u: string)
    requires '\\' !in s && Like(rest, u)
    ensures Like(s + rest, s + u)
    decreases |s|
  {
    if s != [] {
      assert s[0] in s && forall c :: c in s[1..] ==> c in s;
      SelfMatches(s[1..], rest, u);
      var p, t := s + rest, s + u;
      assert p[0] == t[0] == s[0] != '\\';
      assert p[1..] == s[1..] + rest && t[1..] == s[1..] + u;
      assert Like(p[1..], t[1..]);
      if s[0] == '%' {
        assert Like(p, t[1..]) by { assert t[1..][0..] == t[1..]; PercentSkips(p, t[1..], 0); }
      }
    } else {
      assert s + rest == rest && s + u == u;
    }
  }

  /**
   * Every text that contains the search matches `%search%`, provided the
   * search has no backslash; `_` and `%` in the search match themselves too.
   */
  lemma ContainedMatches(q: string, text: string, i: nat)
    requires '\\' !in q && OccursAt(text, q, i)
    ensures Like("%" + q + "%", text)
  {
    var rest := text[i + |q|..];
    PercentMatchesAll(rest);
    SelfMatches(q, "%", rest);
    assert text[i..] == q + rest;
    var p := "%" + q + "%";
    assert p[1..] == q + "%";
    PercentSkips(p, text, i);
  }

  /** `_` is a wildcard: the search "_" matches every non-empty text. */
  lemma {:induction false} UnderscoreMatchesNonEmpty(text: string)
    ensures Like("%_%", text) <==> text != []
    decreases |text|
  {
    if text != [] {
      PercentMatchesAll(text[1..]);
      assert "%_%"[1..] == "_%" && "_%"[1..] == "%";
      assert Like("_%", text);
    } else {
      assert "%_%"[1..] == "_%";
    }
  }

  /** Without a search only in-stock rows are listed; a search also lists rows with no stock. */
  predicate Listed(adminId: int, search: string, r: JoinedRow) {
    r.item.adminId == adminId && r.item.isActive
    && if search == "" then r.item.quantity > 0 else MatchesSearch(search, r.item)
  }

  datatype StockPage = StockPage(rows: seq<JoinedRow>, total: nat, page: int, limit: int, totalPages: int)

  /**
   * GET /stock: the portal code comes from the tenant, else the path; no
   * code or no active vendor is a 404; a negative limit or offset makes
   * the database reject the query (500).
   */
  function CustomerStock(vendor: Option<int>, code: string, rows: seq<JoinedRow>,
                         search: string, pageRaw: string, limitRaw: string): (r: Result<StockPage, int>)
    ensures code == "" || vendor.None? <==> r == Failure(404)
    ensures r.Success? ==>
      var w := WindowOf(pageRaw, limitRaw, 20);
      var listed := Keep(rows, (x: JoinedRow) => Listed(vendor.value, search, x));
      r.value.total == |listed| && r.value.page == w.page && r.value.limit == w.limit
      && r.value.totalPages == CeilDiv(|listed|, w.limit)
      && |r.value.rows| <= w.limit
      && 0 <= w.offset
      && (forall j :: 0 <= j < |r.value.rows| ==> w.offset + j < |listed| && r.value.rows[j] == listed[w.offset + j])
    ensures code != "" && vendor.Some? ==>
              var w := WindowOf(pageRaw, limitRaw, 20);
              (r == Failure(500) <==> w.offset < 0 || w.limit < 0)
    ensures r.Failure? ==> r.error == 404 || r.error == 500
  {
    if code == "" || vendor.None? then Failure(404)
    else
      PageOf(Keep(rows, (x: JoinedRow) => Listed(vendor.value, search, x)), WindowOf(pageRaw, limitRaw, 20))
  }

  /** The reply for the listed rows and a window: the page slice with the counts, or 500 when the database refuses the window. */
  function PageOf(listed: seq<JoinedRow>, w: Window): (r: Result<StockPage, int>)
    requires w.limit != 0
    ensures r.Failure? <==> w.offset < 0 || w.limit < 0
    ensures r.Failure? ==> r.error == 500
    ensures r.Success? ==>
      r.value.total == |listed| && r.value.page == w.page && r.value.limit == w.limit
      && r.value.totalPages == CeilDiv(|listed|, w.limit)
      && |r.value.rows| <= w.limit
      && 0 <= w.offset
      && (forall j :: 0 <= j < |r.value.rows| ==> w.offset + j < |listed| && r.value.rows[j] == listed[w.offset + j])
  {
    match Slice(listed, w.offset, w.limit)
    case None => Failure(500)
    case Some(page) => Success(StockPage(page, |listed|, w.page, w.limit, CeilDiv(|listed|, w.limit)))
  }

  /**
   * A search lists a vendor's active row whose name contains it, whatever
   * its stock, when the search has no backslash (a backslash escapes the
   * next pattern character).
   */
  lemma SearchFindsOutOfStock(adminId: int, search: string, r: JoinedRow)
    requires search != "" && '\\' !in search && r.item.adminId == adminId && r.item.isActive
    requires Includes(ToLower(r.item.itemName), ToLower(search))
    ensures Listed(adminId, search, r)
  {
    var q := ToLower(search);
    assert '\\' !in q by {
      forall k | 0 <= k < |q| ensures q[k] != '\\' { assert search[k] != '\\'; }
    }
    ContainedMatches(q, ToLower(r.item.itemName), IndexOf(ToLower(r.item.itemName), q).value);
  }

  /**
   * The search "_" is a wildcard, not a character: it lists every active
   * row of the vendor whose name is not empty, in stock or not, though no
   * name need contain an underscore.
   */
  lemma UnderscoreListsEveryNamedRow(adminId: int, r: JoinedRow)
    requires r.item.adminId == adminId && r.item.isActive && r.item.itemName != ""
    ensures Listed(adminId, "_", r)
  {
    assert SearchPattern("_") == "%_%";
    UnderscoreMatchesNonEmpty(ToLower(r.item.itemName));
  }

  /**
   * Every listed row can be reached: with the default page size, row `j`
   * of the listing is on page `j / 20 + 1`, which is within `totalPages`.
   */
  lemma ListedRowReachable(vendor: int, code: string, rows: seq<JoinedRow>, search: string, j: int)
    requires code != ""
    requires 0 <= j < |Keep(rows, (x: JoinedRow) => Listed(vendor, search, x))|
    ensures var listed := Keep(rows, (x: JoinedRow) => Listed(vendor, search, x));
            var r := CustomerStock(Some(vendor), code, rows, search, IntToString(j / 20 + 1), "");
            r.Success? && r.value.page <= r.value.totalPages
            && j % 20 < |r.value.rows| && r.value.rows[j % 20] == listed[j]
  {
    var listed := Keep(rows, (x: JoinedRow) => Listed(vendor, search, x));
    EveryRowOnItsPage(listed, 20, j);
    NatRoundTrip(j / 20 + 1);
    assert ParseInt("") == None;
  }
}
