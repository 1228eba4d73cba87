# Order-Management, modelled in Dafny

Order-Management is a multi-tenant ordering portal for medical distributors.
Each vendor is an admin with a company, a unique code and optionally a
subdomain. A vendor keeps a stock catalogue, special offers ("5+1") and a
customer roster, mostly loaded from CSV files. The vendor's customers sign
in on the customer portal with the vendor code and their external customer
id. They fill a catalogue cart and a free-text cart, and place orders. The
server prices each order, applies the buy-N-get-M bonus, numbers the order
`ORD-XXXX-NNNNNN` and commits it together with the stock decrements. A
super admin manages the vendor accounts.

The model covers:

- the order pipeline of `routes/customer.js`;
- the vendor table operations of `routes/admin.js`;
- the account guards of `routes/auth.js`;
- the two middlewares;
- the SQLite adapter;
- the browser-side state of the customer portal and the admin dashboard.

One module per component:

| module | file | models |
|---|---|---|
| `Schema` | schema.dfy | the tables of db.js as maps and sequences in one `Database` object, with its unique keys as an invariant |
| `Bonus` | bonus.dfy | `calculateBonus`: a scanner for the first `digits \s* + \s* digits` and the bonus arithmetic |
| `OrderNumber` | order_number.dfy | the company prefix, the largest existing suffix and the next order number |
| `Ordering` | order.dfy | `/verify` and `/order`: customer resolution, line classification, pricing, offer suppression, and the all-or-nothing commit |
| `Listing` | listing.dfy | vendor lookup, manufacturer menu, manufacturer view and the paginated customer stock search |
| `Pagination` | pagination.dfy | `parseInt(..) \|\| default` page and limit, the offset, and `Math.ceil(total / limit)` |
| `CsvImport` | csv_import.dfy | column fallbacks and deactivate-then-upsert synchronisation for stock, offers and customers |
| `VendorAdmin` | vendor_admin.dfy | the admin routes as methods on `Database` |
| `Accounts` | accounts.dfy | login, create/update/toggle/delete admin, current tenant |
| `Gate` | gate.dfy | `authenticateToken`, `requireAdmin`, `requireSuperAdmin` |
| `TenantMiddleware` | tenant.dfy | Host-header subdomain extraction and tenant lookup |
| `SqlWrapper` | sql_wrapper.dfy | the `$n` → `?` rewrite, SELECT dispatch, result mapping and the lazy handle |
| `Portal` | portal.dfy | the customer portal: carts, summary bar, order payload, stock list, search paging, tenant code |
| `AdminUi` | admin_ui.dfy | the dashboard: `escapeHtml`, pagination buttons, `apiFetch`/`logout`, portal links, company table and form |

`Wrappers`, `Text`, `Seqs` and `Dict` hold shared definitions:

- `Option`/`Result`;
- JavaScript string operations on ASCII: `parseInt` (leading spaces, a sign, then decimal digits, or hexadecimal digits after `0x`/`0X`), `trim`, `split`, `includes`, `toLowerCase`, `padStart`;
- order-preserving filters;
- a JavaScript object used as a dictionary, held as its entry list.

Modelling choices:

- Money is an integer number of hundredths.
- A failing database call is a `fault` parameter of the operation; it answers 500 with the database's message (`DbError`) and changes nothing.
- A transaction works on local copies that are written back only at COMMIT, so it applies all of its changes or none.
- bcrypt, jsonwebtoken and `fetch` replies are parameters.
- CSV files arrive as already-parsed rows (maps from header to cell).
- A JavaScript "falsy" string field is the empty string.
- A missing value is `None`.

The model follows what the code does, also where that differs from the
intended behaviour its names and messages suggest:

- A company name that has no letter or digit left after filtering gives the prefix `XXXX`. It does not give the default `MED` prefix, which is used only for a missing or empty name. See routes/customer.js:237-241.
- A CSV price cell `"0"` is a non-empty string. The price is therefore 0 and does not fall back to the distributor price (routes/admin.js:125).
- A stock row whose category is literally `General` is listed under no manufacturer view except "Special Offers" (routes/customer.js:115-125).
- The company edit form sends no subdomain, so an update clears the admin's subdomain (public/js/admin/companies.js:185, routes/auth.js:143).
- `apiFetch` sends `Bearer null` when no token is stored (public/js/admin/core.js:19).
- After a successful order the submit button is re-enabled as "Place Order →", even though both carts are empty (public/js/customer/orders.js:107-108).
- `filterAdminTable` throws when a company name is null (public/js/admin/companies.js:132). `FilterAdminTable` returns `None` in that case.
- On a `*.up.railway.app` host the portal link passes the vendor as `?v=`, which the tenant middleware does not read.

## Model

| member | source | states |
|---|---|---|
| Schema.Database.constructor | db.js:29-126 | a fresh database has empty tables and satisfies the key invariants |
| Bonus.MatchAt | routes/customer.js:10 | a match starting at i is a maximal digit run, optional spaces, '+', optional spaces and a digit run ending at a non-digit |
| Bonus.PatternFound | routes/customer.js:10 | any occurrence of the pattern at i is found by the scanner at i with the same group boundaries |
| Bonus.FindMatch | routes/customer.js:10 | the leftmost match at or after `from`, and no match before it; None exactly when there is no match at all |
| Bonus.CalculateBonus | routes/customer.js:8-19 | a positive bonus needs a non-empty offer text |
| Bonus.FirstPatternFound | routes/customer.js:10 | the first occurrence of the pattern is the one the regex picks |
| Bonus.BonusFromFirstPattern | routes/customer.js:8-19 | bonus = floor(qty / buy) * free when buy > 0 and qty ≥ buy, else 0, with buy and free read from the first match |
| Bonus.NoPatternNoBonus | routes/customer.js:9-18 | text without the pattern gives 0 whatever the quantity |
| Bonus.BonusNeedsQuantity | routes/customer.js:14-15 | a positive bonus implies 0 < buy ≤ qty |
| Bonus.BonusMonotone | routes/customer.js:14-15 | buying more never lowers the bonus |
| Bonus.ExampleFivePlusOne | routes/customer.js:8-19 | "5+1" gives 2 free for 12 and 0 for 4 |
| Bonus.ExampleSpaced | routes/customer.js:10 | "Buy 10 + 2 free" with 25 gives 4 |
| Bonus.ExampleNoOffer | routes/customer.js:9 | text without digits, or no offer, gives 0 |
| OrderNumber.KeepUpperAlnum | routes/customer.js:239 | keeps only A–Z0–9, and leaves a text made only of those unchanged |
| OrderNumber.CompanyPrefix | routes/customer.js:237-241 | exactly 4 characters in A–Z0–9: the first 4 kept characters of the uppercased name (or "MED"), padded with 'X' |
| OrderNumber.Suffixes | routes/customer.js:245 | one suffix value per existing order number |
| OrderNumber.MaxOf | routes/customer.js:245 | MAX: None for no rows, else a member that bounds every value |
| OrderNumber.NextSequence | routes/customer.js:250 | 1 when there is no maximum or it is 0, else maximum + 1 |
| OrderNumber.SuffixRoundTrip | routes/customer.js:245-251 | reading the suffix of a generated number gives back its sequence |
| OrderNumber.GeneratedShape | routes/customer.js:251 | a generated number is "ORD-" + prefix + "-" + at least 6 digits |
| OrderNumber.NegativeSuffix | routes/customer.js:245-251 | a negative sequence reads back as 0 or as itself |
| OrderNumber.AboveAllIsFresh | routes/customer.js:244-251 | a sequence above every existing suffix gives a number not yet used |
| OrderNumber.NewNumberIsFresh | routes/customer.js:237-251 | the generated order number is never one of the vendor's existing numbers |
| OrderNumber.FirstOrderExample | routes/customer.js:237-251 | "Ac-me" with no earlier orders gives ORD-ACME-000001 |
| OrderNumber.PrefixExamples | routes/customer.js:237-241 | a missing or empty name gives MEDX |
| OrderNumber.NothingUsablePrefix | routes/customer.js:237-241 | "&-!" has no usable character and gives XXXX |
| Ordering.LineQuantity | routes/customer.js:259 | `parseInt(q) \|\| 1`: the parsed value when it is non-zero (negatives and `0x` hexadecimal included), else 1 |
| Ordering.CatalogRef | routes/customer.js:260-262 | a line is a catalogue line exactly when its stock id parses (decimal, or hexadecimal after `0x`) to a non-zero integer |
| Ordering.ManualLine | routes/customer.js:262-278 | a free-text line: no stock id, price 0, no bonus or offer fields, name defaulting to "Custom Item" |
| Ordering.PriceCatalogLine | routes/customer.js:288-326 | total = unit × qty; offer applied and skipped are exclusive; a bonus is only given when stock covers qty + bonus; no offer means base price and no bonus |
| Ordering.ActiveOffer | routes/customer.js:281-286 | the joined offer is an active one |
| Ordering.UnitPriceRule | routes/customer.js:309-310 | the unit price is the active offer's price whenever it is not NULL (a stored 0 arrives as the truthy string "0.00" and is charged), even when its bonus was suppressed, else the base price |
| Ordering.OfferSuppression | routes/customer.js:296-307 | the offer is skipped exactly when bonus > 0 and stock < qty + bonus; then the bonus is 0 and the text is recorded as missed; otherwise the bonus is given and the offer applied |
| Ordering.PricedLineRules | routes/customer.js:259-326 | every priced line obeys the line rules and carries `parseInt(q) \|\| 1` as its quantity |
| Ordering.UnknownLine | routes/customer.js:281-288 | a line fails exactly when its stock id names no row of this vendor; the row's is_active is not checked |
| Ordering.PriceAllPointwise | routes/customer.js:258-330 | a priced cart has one line per cart entry, each priced on its own against the same stock |
| Ordering.PriceAllFails | routes/customer.js:327-329 | pricing fails exactly when some line's stock id is unknown |
| Ordering.NoneAfterPrefix | routes/customer.js:327-329 | once a prefix fails, the whole cart fails (the 404 returns at once) |
| Ordering.ManualLinesAddNothing | routes/customer.js:264-278 | a free-text line adds nothing to the order total |
| Ordering.PriceOne | routes/customer.js:258-326 | one pass of the loop body prices its line exactly as the reference pricing does: a free-text line, a catalogue line with its active offer, or the 404 for an unknown stock id |
| Ordering.PriceCart | routes/customer.js:254-330 | the loop's lines are the reference pricing and its total is their sum |
| Ordering.DecrementsTakeDemand | routes/customer.js:369-374 | after the loop every stock row is reduced by the qty + bonus of all lines naming it, possibly below zero |
| Ordering.StatementCountGrows | routes/customer.js:362-376 | the statements run for a prefix of the lines are fewer than for all of them |
| Ordering.ItemsOf | routes/customer.js:362-367 | one order item per line, in order, carrying the new order id |
| Ordering.DecrementsKeepConstraints | db.js:58-72 | decrementing stock keeps the ids, the unique item codes and the offer ownership |
| Ordering.InsertLines | routes/customer.js:362-376 | the item loop succeeds exactly when every row is accepted and no statement fails, and then appends the items and applies the decrements |
| Ordering.Commit | routes/customer.js:338-388 | on COMMIT: a new 'pending' order, its items and the decrements; on any error or a missing order id: nothing changes |
| Ordering.PostgresRejectsFreeText | db.js:102 | on PostgreSQL an order with a free-text line never commits |
| Ordering.NullableStockIdCommits | database/sqlite.js:177 | with order_items.stock_id nullable (the PostgreSQL schema with only that column changed) a cart commits without a fault exactly when it prices |
| Ordering.FreeTextGauze | routes/customer.js:262-278 | a cart of one free-text line "Gauze" prices; the NOT NULL schema never commits it; the nullable one commits it without a fault |
| Ordering.ExampleRefs | routes/customer.js:259-260 | "7" is catalogue id 7 and "10" is quantity 10 |
| Ordering.ExampleHexRefs | routes/customer.js:259-260 | "0x7" is catalogue id 7, a quantity "0x" falls back to 1 and "-0x10" is quantity −16 |
| Ordering.ExampleBonus | routes/customer.js:296 | "5+1" on 10 units gives a bonus of 2 |
| Ordering.ExampleLinePriced | routes/customer.js:281-326 | a line with an active priced "5+1" offer and stock to cover it is priced at the offer price with bonus 2 |
| Ordering.DuplicateLinesExample | routes/customer.js:281-286 | two lines for the same item both get the bonus against the stock as it was, and the stock ends negative |
| Ordering.MatchingCustomerUnique | db.js:57 | at most one active customer matches a vendor code and external id |
| Ordering.FindCustomer | routes/customer.js:218-223 | finds a customer matching code, external id and both active flags, or shows that none exists |
| Ordering.NumbersOf | routes/customer.js:244-248 | contains the number of every order of the vendor |
| Ordering.VerifyCustomer | routes/customer.js:22-42 | 401 exactly when no active customer of an active vendor matches; otherwise that customer and its company name |
| Ordering.Fulfil | routes/customer.js:233-394 | for a matched customer: 404 exactly when some line names a stock row that is not the vendor's; placed exactly when the cart prices and its transaction commits; a failed transaction changes nothing; a placed order is the committed reference result |
| Ordering.PlaceOrder | routes/customer.js:210-394 | 401 exactly when no customer matches, even for an empty cart; then 400 for missing/empty items; then 404 exactly when a stock id is unknown; placed exactly when the matched customer's cart prices and its transaction commits; errors change nothing; a placed order is the committed reference result |
| Listing.ResolveVendor | routes/customer.js:70-74 | finds the active admin with the code, or shows that none exists |
| Listing.VendorUnique | db.js:36 | at most one admin has a given unique code |
| Listing.ManufacturerName | routes/customer.js:77 | 'General' for a missing, empty or literal 'General' category, otherwise the category |
| Listing.ManufacturerList | routes/customer.js:88-96 | 'General' first, 'Special Offers ✨' second when the vendor has an active offer, then exactly the other names |
| Listing.MenuCoversStock | routes/customer.js:76-96 | every in-stock item's manufacturer is on the menu, and every other menu name has an in-stock item |
| Listing.ViewMatchesMenu | routes/customer.js:115-125 | a named manufacturer view shows exactly the in-stock items of that manufacturer |
| Listing.LiteralGeneralHidden | routes/customer.js:120-123 | an item whose category is literally 'General' appears only in the offers view |
| Listing.OffersView | routes/customer.js:118-119 | the offers view shows exactly the in-stock items with an active offer |
| Listing.CustomerStock | routes/customer.js:143-206 | 404 exactly without a code or vendor; with both, 500 exactly when the offset or the limit is negative (the database refuses a negative OFFSET or LIMIT); otherwise total, page, limit and totalPages of the filtered rows and the page slice of them |
| Listing.PageOf | routes/customer.js:180-203 | the reply is 500 exactly for a negative offset or limit; otherwise it holds the rows at offset, offset + 1, … of the listing, at most `limit` of them, with the count and `Math.ceil(total / limit)` |
| Listing.PercentMatchesAll | routes/customer.js:172-173 | the LIKE pattern `%` matches every text |
| Listing.PercentSkips | routes/customer.js:172-173 | a leading `%` may skip any prefix of the text |
| Listing.SelfMatches | routes/customer.js:172-173 | a backslash-free text matches itself as a LIKE pattern, `%` and `_` included |
| Listing.ContainedMatches | routes/customer.js:172-173 | a text containing a backslash-free search matches `%search%` |
| Listing.UnderscoreMatchesNonEmpty | routes/customer.js:172-173 | `%_%` matches exactly the non-empty texts: `_` is a one-character wildcard |
| Listing.SearchFindsOutOfStock | routes/customer.js:170-177 | a backslash-free search contained in the name lists the item even when it is out of stock |
| Listing.UnderscoreListsEveryNamedRow | routes/customer.js:170-177 | the search "_" lists every active row of the vendor with a non-empty name, whatever the name |
| Listing.ListedRowReachable | routes/customer.js:162-194 | every listed row is on page j / 20 + 1 at position j mod 20, within totalPages |
| Pagination.WindowOf | routes/admin.js:50-52 | page and limit are `parseInt \|\| default` (hexadecimal after `0x` included) and never 0; offset = (page − 1) × limit |
| Pagination.CeilDivBounds | routes/admin.js:78 | totalPages × limit covers the total, one page fewer does not, and it is 0 only for no rows |
| Pagination.Slice | routes/admin.js:75-76 | LIMIT/OFFSET: at most limit rows, the rows from the offset on, a full page when there are enough |
| Pagination.EveryRowOnItsPage | routes/admin.js:50-78 | every row is on page j / limit + 1, which is within totalPages |
| Pagination.WindowOfPage | routes/admin.js:50-52 | positive page and limit are read back as given |
| Pagination.CustomerDefaultExample | routes/customer.js:162-164 | page 3 with the default limit 20 is offset 40; 45 rows are 3 pages |
| Pagination.AdminDefaultExample | routes/admin.js:50-52 | no parameters give page 1, limit 10, offset 0 |
| CsvImport.FirstNonEmpty | routes/admin.js:107-108 | `a \|\| b \|\| …`: empty exactly when every present column is empty, else one of the cells |
| CsvImport.EarlierColumnWins | routes/admin.js:107-108 | the first non-empty column in priority order is the value |
| CsvImport.GeneratedCode | routes/admin.js:113 | "PRD-" + the row counter, padded to 4 digits |
| CsvImport.NormaliseStock | routes/admin.js:107-125 | a row is skipped exactly when it has no product name; otherwise name, code and unit are non-empty |
| CsvImport.StockFallbacks | routes/admin.js:112-125 | no code gives the generated code; no price gives the distributor price; the quantity is the `parseInt` value of the first non-empty quantity column, 0 when it does not parse |
| CsvImport.HexQuantity | routes/admin.js:118 | a quantity cell "0x10" is 16 units |
| CsvImport.ZeroPriceKept | routes/admin.js:125 | a price cell "0" gives price 0 |
| Text.ParseInt | routes/customer.js:259-260 | `parseInt` without a radix: after the spaces and sign, `0x`/`0X` switches to hexadecimal and needs a hex digit after it; otherwise the decimal reading; NaN exactly when no digit follows |
| Text.HexExamples | routes/customer.js:259-260 | `parseInt` reads `0x`: "0x7" is 7, "-0x10" is −16, "0x" is NaN, where the decimal reading of "0x7" stops at 0 |
| Text.HexSixteen | routes/admin.js:118 | "0x10" parses to 16 |
| Text.MoneyRounds | routes/admin.js:121-125 | a price with three fraction digits is stored rounded to hundredths, half up on the third digit: "12.345" is 12.35 and "9.999" is 10.00 |
| CsvImport.CodeOwner | routes/admin.js:127-130 | the row owning (admin, item code), or shows there is none |
| CsvImport.DeactivateVendor | routes/admin.js:99-100 | exactly the vendor's stock and offers become inactive; nothing else changes |
| CsvImport.UpsertStock | routes/admin.js:127-140 | ON CONFLICT (admin, code): the existing row is overwritten, otherwise a new row is added; other rows stay |
| CsvImport.UpsertImportedOffer | routes/admin.js:143-155 | the item's offer becomes active with the new text, created or overwritten; other offers stay |
| CsvImport.StockStep | routes/admin.js:105-156 | one row keeps the catalogue invariants |
| CsvImport.ImportStockRows | routes/admin.js:104-157 | the whole file keeps the catalogue invariants |
| CsvImport.StepFacts | routes/admin.js:127-155 | one row upserts its item and, with non-blank offer text, its offer, and nothing else |
| CsvImport.ImportLeavesOthers | routes/admin.js:99-157 | other vendors' stock and offers are untouched; new rows belong to the vendor |
| CsvImport.ActiveStockIsFile | routes/admin.js:104-157 | after an import into a deactivated vendor, its active stock codes are exactly the file's named rows, each stocked |
| CsvImport.StepKeepsActive | routes/admin.js:127-140 | upserting one row adds exactly its code to the active set |
| CsvImport.ActiveOffersAreFile | routes/admin.js:143-155 | the vendor's active offers are exactly those of the rows with non-blank offer text |
| CsvImport.OfferStepKeeps | routes/admin.js:143-155 | one row adds its code to the active offers exactly when its text is non-blank |
| CsvImport.StockSyncOutcome | routes/admin.js:99-157 | deactivate-then-import leaves active exactly the file's stock and offers, and other vendors untouched |
| CsvImport.CustomerName | routes/admin.js:351-358 | the name is never empty: the name column, else "Customer <id>", else "Customer <phone>", else "Unknown" |
| CsvImport.NormaliseCustomer | routes/admin.js:349-361 | a row is skipped exactly when id and phone are both empty; the key is the id, else the phone |
| CsvImport.KeyOwner | routes/admin.js:363-366 | the customer owning (admin, external id), or shows there is none |
| CsvImport.DeactivateCustomers | routes/admin.js:342 | exactly the vendor's customers become inactive |
| CsvImport.CustomerStep | routes/admin.js:347-374 | one row keeps the roster invariants and every existing unique code; other vendors are untouched |
| CsvImport.ImportCustomerRows | routes/admin.js:346-375 | the file keeps the invariants, the existing customers' codes and vendors, and other vendors' customers |
| CsvImport.NewCustomersGetDrawnCodes | routes/admin.js:348-374 | every customer the file adds belongs to the importing vendor and carries one of the codes drawn for the records |
| CsvImport.CustomerStepFacts | routes/admin.js:363-374 | one row upserts exactly its customer as active |
| CsvImport.ActiveCustomersAreFile | routes/admin.js:346-375 | after an import into a deactivated roster, the vendor's active keys are exactly the file's usable keys |
| CsvImport.CustomerStepKeeps | routes/admin.js:363-374 | upserting one customer adds exactly its key to the active set |
| CsvImport.CustomerSyncOutcome | routes/admin.js:342-375 | deactivate-then-import leaves active exactly the file's customers, keeps every portal code and other vendors |
| VendorAdmin.OrDefault | routes/admin.js:185 | `value \|\| fallback`: a non-empty value is kept, an empty one becomes the fallback (`'Pcs'` for the unit, `'pending'` for an order status at routes/admin.js:492) |
| VendorAdmin.SyncStock | routes/admin.js:104-157 | the row loop computes the reference import and counts every row, skipped ones included |
| VendorAdmin.StoreCatalog | routes/admin.js:158-163 | the commit: stock and offers become the synchronised catalogue, one import log is appended, every other table is kept, and the database invariants hold |
| VendorAdmin.ImportStock | routes/admin.js:85-174 | 400 without a file; rollback on error; otherwise the synchronised catalogue, the counts and one import log |
| VendorAdmin.SyncCustomers | routes/admin.js:346-375 | the row loop computes the reference import and counts every row |
| VendorAdmin.ImportCustomers | routes/admin.js:329-392 | 400 without a file; rollback on error; otherwise the synchronised roster and one import log |
| VendorAdmin.AddStock | routes/admin.js:177-194 | 500 exactly on a database fault; otherwise 400 exactly when the item code is taken for the vendor, else one new row with the defaults; nothing changes unless it succeeds |
| VendorAdmin.UpdateStock | routes/admin.js:197-214 | 500 exactly on a database fault; otherwise 404 exactly when the row is not the vendor's, else only the editable fields change; nothing changes unless it succeeds |
| VendorAdmin.DeleteStock | routes/admin.js:217-226 | 500 and no change on a database fault; otherwise success, with the vendor's row soft-deleted and any other id a no-op |
| VendorAdmin.DeletedCodeStaysTaken | routes/admin.js:217-226 | a soft-deleted item's code still blocks adding that code again |
| VendorAdmin.OfferPrice | routes/admin.js:275 | `offer_price \|\| null` |
| VendorAdmin.CreateOfferAsWritten | routes/admin.js:262-281 | 404 for another vendor's item; with an earlier offer row the INSERT fails after the old offer was deactivated |
| VendorAdmin.CreateOffer | routes/admin.js:262-281 | 404 for another vendor's item; otherwise the item has exactly one offer, active, with the given text and prices |
| VendorAdmin.OneOfferPerItem | db.js:86 | two offers on the same stock item are the same row |
| VendorAdmin.DeleteOffer | routes/admin.js:284-293 | 500 and no change on a database fault; otherwise success, deactivating exactly the vendor's offer with that id |
| VendorAdmin.AddCustomer | routes/admin.js:395-413 | 500 exactly on a database fault; otherwise 400 exactly when the external id is taken for the vendor, else one new customer; nothing changes unless it succeeds |
| VendorAdmin.UpdateOrderStatus | routes/admin.js:486-497 | 500 and no change on a database fault; otherwise success, and only the vendor's order with that id changes, and only its status |
| Accounts.SubdomainOr | routes/auth.js:76 | `subdomain \|\| null` |
| Accounts.Login | routes/auth.js:10-53 | 401 with one message for an unknown user or a wrong password; 403 for an inactive account only after the password matched; a session only for an active matching account |
| Accounts.CreateAdmin | routes/auth.js:61-85 | 400 without inserting for a taken username or clashing unique key; otherwise a new active 'admin' row created by the requester |
| Accounts.EditKeepsKeysUnique | routes/auth.js:142-149 | editing one admin keeps usernames, codes and subdomains unique when no other admin holds the new username or subdomain |
| Accounts.UpdateAdmin | routes/auth.js:133-152 | 404 for an unknown id, 400 for the super admin or a clash; otherwise only name, company, username and subdomain change |
| Accounts.Toggled | routes/auth.js:162-163 | flips is_active and nothing else |
| Accounts.ToggleTwice | routes/auth.js:162-163 | toggling twice restores the row |
| Accounts.ToggleAdmin | routes/auth.js:155-168 | 404 for an unknown id, 400 for the super admin; otherwise only that row's flag flips |
| Accounts.DeleteAdmin | routes/auth.js:171-183 | 400 for the super admin; an unknown id still succeeds; a referenced admin fails on its foreign keys |
| Accounts.CurrentTenant | routes/auth.js:233-241 | 404 exactly when no tenant was resolved, else the tenant's branding |
| Gate.BearerToken | middleware/auth.js:6 | the second space-separated part of the header; empty without a header or a space |
| Gate.TokenOf | middleware/auth.js:6-7 | bearer, else cookie, else query string; empty only when all three are |
| Gate.Authenticate | middleware/auth.js:9-32 | 401 without a token or for a vanished admin; 403 for a failed verification, a thrown error or an inactive admin; pass otherwise |
| Gate.Request.AuthenticateToken | middleware/auth.js:5-33 | the decision above; on pass the user is set and next runs once; on deny nothing changes |
| Gate.RequireSuperAdmin | middleware/auth.js:35-40 | passes exactly 'superadmin' |
| Gate.RequireAdmin | middleware/auth.js:42-47 | passes exactly 'admin' and 'superadmin' |
| Gate.SuperAdminIsAdmin | middleware/auth.js:35-47 | whoever passes the super admin check passes the admin check |
| Gate.HeaderWithoutSchemeExample | middleware/auth.js:6-7 | a header without a space yields no bearer token, so the cookie is used |
| Gate.BearerHeaderExample | middleware/auth.js:6-7 | "Bearer abc" yields the token abc, which is used before the cookie |
| TenantMiddleware.DomainOr | middleware/tenant.js:18 | `DOMAIN \|\| 'lynkread.com'` |
| TenantMiddleware.ExtractSubdomain | middleware/tenant.js:11-22 | localhost: the text before the first '.', only when there is one; otherwise the text before the first "." + domain, only when it occurs |
| TenantMiddleware.TenantRequest.Handle | middleware/tenant.js:7-37 | next runs exactly once; no host, an ineligible label or a lookup error leaves no tenant; an eligible label naming an active admin case-insensitively sets it |
| TenantMiddleware.ReservedNeverResolve | middleware/tenant.js:24 | no label, '', 'www' and 'admin' never resolve a tenant |
| TenantMiddleware.BareLocalhostExample | middleware/tenant.js:14-16 | 'localhost:3000' has no subdomain |
| TenantMiddleware.LocalVendorExample | middleware/tenant.js:14-16 | 'vendor1.localhost:3000' gives 'vendor1' |
| TenantMiddleware.DomainLabel | middleware/tenant.js:17-21 | under the main domain the label is the text before the first "." + domain |
| TenantMiddleware.DomainVendorExample | middleware/tenant.js:17-21 | 'medical1.lynkread.com' gives 'medical1' |
| TenantMiddleware.BareDomainExample | middleware/tenant.js:17-21 | 'lynkread.com' has no subdomain |
| SqlWrapper.Rewrite | database/sqlite.wrapper.js:51 | no `$digit` is left and the text does not grow |
| SqlWrapper.QuestionMarks | database/sqlite.wrapper.js:51 | each placeholder becomes exactly one '?', so `$2` used k times gives k '?' |
| SqlWrapper.RewriteIdentity | database/sqlite.wrapper.js:51 | the rewrite leaves a text unchanged exactly when it has no placeholder |
| SqlWrapper.RewriteExample | database/sqlite.wrapper.js:51 | "$2 $2" becomes "? ?" and "$10,$1" becomes "?,?" |
| SqlWrapper.PreparedRun | database/sqlite.wrapper.js:38-41 | lastInsertRowid becomes insertId and changes becomes rowsAffected |
| SqlWrapper.Query | database/sqlite.wrapper.js:49-60 | rows exactly for a SELECT of the rewritten text, else the run result of the rewritten text |
| SqlWrapper.LeadingSelect | database/sqlite.wrapper.js:53 | leading whitespace and case do not hide a SELECT |
| SqlWrapper.SelectExample | database/sqlite.wrapper.js:53 | "  select * from stock" is a SELECT |
| SqlWrapper.Connection.constructor | database/sqlite.wrapper.js:11 | no database is open at start |
| SqlWrapper.Connection.GetDb | database/sqlite.wrapper.js:13-20 | the first call opens the file in WAL mode with foreign keys; later calls return that handle; it is opened once |
| Portal.SummaryOf | public/js/customer/orders.js:19-43 | "N item" or "N items" with the plural exactly when N ≠ 1; submit enabled with "Place Order →" exactly when N > 0, else "Add Items" |
| Portal.PayloadItems | public/js/customer/orders.js:59-69 | one catalogue entry per cart key, then one free-text entry per manual key, with their quantities |
| Portal.Max0 | public/js/customer/orders.js:4 | `Math.max(0, n)` |
| Portal.Bump | public/js/customer/orders.js:3-10 | the key gets max(0, current + delta); other keys and the invariant "distinct keys, positive counts" are kept; the total moves accordingly |
| Portal.SetCount | public/js/customer/orders.js:6-10 | the key gets exactly the given count and is present exactly when the count is positive; other keys are kept and the total moves by the difference |
| Portal.BumpDropsKey | public/js/customer/orders.js:6-10 | the key stays exactly when current + delta > 0 |
| Portal.RemoveKeepsPositive | public/js/customer/orders.js:7 | deleting a key keeps every count positive |
| Portal.PutKeepsPositive | public/js/customer/orders.js:9 | storing a positive count keeps every count positive |
| Portal.SubmitEnabledIffNonEmpty | public/js/customer/orders.js:22-42 | submit is enabled exactly when some cart has an entry |
| Portal.LevelOf | public/js/customer/stock.js:125-126 | out of stock exactly when qty ≤ 0, low exactly when 0 < qty ≤ 10 |
| Portal.FlatList | public/js/customer/stock.js:174-191 | a permutation of the input: the available items in order, then the rest, all with qty ≤ 0 |
| Portal.PathParts | public/js/customer/core.js:55 | the parts are non-empty and '/'-free, and are exactly the non-empty pieces of the split |
| Portal.PathPartsOfSegments | public/js/customer/core.js:55 | "/" followed by non-empty segments joined by '/' gives back those segments in order |
| Portal.PathCode | public/js/customer/core.js:55-67 | an empty path keeps the code; else the last segment, or with the admin rule the one before a final 'admin' (or '') |
| Portal.FallbacksAgree | public/js/customer/core.js:55-67 | the two fallbacks differ only for a path ending in 'admin' |
| Portal.CustomerPortal.constructor | public/js/customer/core.js:1-16 | the initial state: empty code, id and carts; page 1, limit 20, one page, not loading |
| Portal.CustomerPortal.UpdateSummaryBar | public/js/customer/orders.js:19-43 | the summary is that of both carts' total, enabled exactly when a cart is non-empty |
| Portal.CustomerPortal.UpdateQty | public/js/customer/orders.js:2-17 | the cart gets max(0, current + delta), uncapped by maxQty, and the summary total follows |
| Portal.CustomerPortal.AddManualItem | public/js/customer/stock.js:223-229 | an empty name changes nothing; otherwise its count goes up by 1 |
| Portal.CustomerPortal.UpdateManualQty | public/js/customer/stock.js:231-241 | the manual count is clamped at 0 and removed at 0 |
| Portal.CustomerPortal.SubmitOrder | public/js/customer/orders.js:46-109 | nothing is sent for empty carts; otherwise the payload of both carts; success empties both carts, failure keeps them; the button ends enabled |
| Portal.CustomerPortal.BeginLoad | public/js/customer/stock.js:3-5 | returns at once while a load runs; otherwise marks loading and sets the page |
| Portal.CustomerPortal.FinishLoad | public/js/customer/stock.js:10-31 | a search result is appended or replaces the list; loading is always cleared |
| Portal.CustomerPortal.SetSearch | public/js/customer/stock.js:297-298 | the search text is the trimmed query |
| Portal.CustomerPortal.FetchTenantInfo | public/js/customer/core.js:46-69 | the tenant's code when the request succeeds, else the path fallback, with the admin rule only for a non-ok reply |
| Portal.CustomerPortal.RestoreSession | public/js/customer/core.js:23-28 | a saved session sets the customer id, and its non-empty code overrides the tenant code |
| AdminUi.ReplaceChar | public/js/admin/core.js:174 | no occurrence of the character is left when the replacement lacks it |
| AdminUi.ReplaceCharConcat | public/js/admin/core.js:174 | a global replace distributes over concatenation |
| AdminUi.EscapeHtml | public/js/admin/core.js:172-175 | '' for a missing or empty value, otherwise the one-pass escape, which leaves no '"' |
| AdminUi.TwoPassesAreOnePass | public/js/admin/core.js:174 | the two chained replaces equal one pass turning ' into \' and " into &quot; |
| AdminUi.EscapeLength | public/js/admin/core.js:174 | escaping never shortens, and lengthens when a quote is present |
| AdminUi.EscapeIdentity | public/js/admin/core.js:174 | escaping leaves a text unchanged exactly when it has no quote of either kind |
| AdminUi.PaginationView | public/js/admin/core.js:182-190 | "Page p of (totalPages or 1)"; previous disabled exactly when p ≤ 1, next exactly when p ≥ totalPages |
| AdminUi.NextDisabledIffNoMoreRows | public/js/admin/core.js:189 | with totalPages = ceil(total / limit), next is disabled exactly when page × limit ≥ total |
| AdminUi.PaginationControls.constructor | public/js/admin/core.js:178-180 | which of the three elements exist |
| AdminUi.PaginationControls.Update | public/js/admin/core.js:177-191 | each existing element gets its view value; missing ones are left alone |
| AdminUi.BearerValue | public/js/admin/core.js:19 | "Bearer " + token, "Bearer null" without one |
| AdminUi.RequestHeaders | public/js/admin/core.js:18-22 | Authorization always; JSON content type exactly for a non-empty string body; other caller headers kept |
| AdminUi.LogoutTarget | public/js/admin/core.js:32-41 | '/portal-customer' exactly from '/portal-admin', '/super-admin' otherwise |
| AdminUi.IsSuperAdmin | public/js/admin/core.js:48-50 | a current user with role 'superadmin', which also passes the admin check |
| AdminUi.DashboardSession.constructor | public/js/admin/core.js:3-7 | the stored token and user and the current page |
| AdminUi.DashboardSession.Logout | public/js/admin/core.js:31-46 | token and user removed and the page sent to the logout target |
| AdminUi.DashboardSession.ApiFetch | public/js/admin/core.js:17-29 | sends to /api + url with the request headers; 401 or 403 logs out and returns null, anything else is returned unchanged |
| AdminUi.LastTwoLabels | public/js/admin/companies.js:19-20 | the last two dot-labels of the host, or the host itself when it has fewer than three |
| AdminUi.GetPortalUrl | public/js/admin/companies.js:3-22 | localhost first: name.localhost:3000/portal; railway: host/portal?v=name; else name.domain/portal, with the name lowercased |
| AdminUi.LocalPortalLinkResolves | public/js/admin/companies.js:8-10 | a localhost link's host resolves, in the tenant middleware, to the lowercased username |
| AdminUi.DomainPortalLinkResolves | public/js/admin/companies.js:19-21 | a custom-domain link resolves to the lowercased username when that domain is the configured one |
| AdminUi.LabelThenDomain | middleware/tenant.js:17-21 | "label." + domain resolves to the label |
| AdminUi.LowerNameNamesAdmin | middleware/tenant.js:27 | the lowercased username names its admin exactly when the admin is active |
| AdminUi.FilterAdminTable | public/js/admin/companies.js:129-137 | throws (None) exactly on a null company name; otherwise keeps, in order, exactly the entries whose company, name or username contains the query case-insensitively |
| AdminUi.EmptyQueryKeepsAll | public/js/admin/companies.js:129-136 | an empty query keeps every entry |
| AdminUi.CompanyList.constructor | public/js/admin/companies.js:2 | the list starts empty |
| AdminUi.CompanyList.FetchAdminsData | public/js/admin/companies.js:65-75 | a reply replaces the list by its non-super-admin entries, in order; no reply keeps it |
| AdminUi.FormBody | public/js/admin/companies.js:185-186 | company, name and username always, the password only when non-empty, and no subdomain |
| AdminUi.SaveAdmin | public/js/admin/companies.js:169-206 | nothing is sent without company, name or username, or without a password when creating; otherwise PUT /auth/admins/id or POST /auth/create-admin with the form body |
| AdminUi.EditClearsSubdomain | public/js/admin/companies.js:185 | an edit sends no subdomain, which the update route stores as null |

## Left out

- Routes outside the core: GET /me, /admins, /admins/:id and /platform-stats (routes/auth.js); the templates, the stock, offer, customer and order listings, order details and the dashboard (routes/admin.js); the order history (routes/customer.js). Only the pagination arithmetic of the listings is modelled.
- SQL text, the PostgreSQL driver and the schema migrations. The tables are maps and sequences that keep only the unique keys the routes rely on.
- Concurrency. Each request runs alone, so the race between reading the largest order number and inserting a new one is not modelled.
- Floating point. Prices are integers in hundredths. `parseFloat` followed by a DECIMAL(p,2) column is a decimal reader that rounds to two fractional digits, half away from zero.
- bcrypt, jsonwebtoken, uuid, csv-parser, multer, fs and fetch are parameters: a password-match predicate, a token-verification function, the generated codes, parsed CSV rows and the HTTP replies.
- The DOM, toasts, modals, spinners and the manufacturer accordion. Only the state these helpers compute is modelled.
- localStorage and `window.location` are fields and parameters.
- The `loadStock()` refresh calls after an order and after a search are left out.
- The manufacturer-view branch of loading stock is left out. `FinishLoad` covers the search branch, and the other branch only clears the loading flag.
- `renderLoadMore` is the predicate `ShowLoadMore` (page < totalPages). It has no contract of its own.
- Enumeration order of JavaScript objects. Integer-like keys of `cart` enumerate in ascending order, but the model keeps insertion order.
- Case mapping covers ASCII only.
- `release()` is a no-op and is not modelled.
- The `prefix` element lookup of `updatePaginationUI` is left out. The element fallback is the `hasInfo`/`hasPrev`/`hasNext` flags.
- The redirect guard of the dashboard start-up is left out.
- Ordering.PlaceOrder: the "no valid items" 400 (routes/customer.js:332-335) is not modelled, because a non-empty cart always yields one line per item.
- Ordering.PlaceOrder: the order number's suffix is read as its leading digits. This is how PostgreSQL's CAST treats the all-digit suffixes this handler writes.
- Ordering.Fulfil: the 500 reply carries the driver's `err.message`, which the model replaces by the fixed text "Transaction failed". Failures before BEGIN are not modelled: the MAX(order_number) query (routes/customer.js:244-248), a per-line stock SELECT (routes/customer.js:281-286) and `pool.connect` (routes/customer.js:338) always succeed here; only statements inside the transaction fail.
- Ordering.NullableStockIdCommits: the nullable variant changes only order_items.stock_id. The SQLite schema's other differences, such as a globally unique orders.order_number (database/sqlite.js:160), are not modelled; the order handler runs on PostgreSQL.
- Listing.CustomerStock: the rows are a parameter taken in the order the query's ORDER BY returns them. Sorting by collation is not modelled, so which rows land on a given page is not determined by the model.
- Listing.CustomerStock: `total` is modelled as a number. On PostgreSQL, `COUNT(*)` is a bigint, which node-pg returns as a string (routes/customer.js:182-183), so the reply's `total` is a string there; `totalPages` is computed from it by JavaScript's numeric coercion and matches the model.
- Listing.Like: a pattern ending in a lone backslash, an error in PostgreSQL, matches nothing in the model. A search pattern `%search%` never ends that way: a search ending in a backslash escapes the final `%`, which the model follows.
- CsvImport.MoneyOr0: an exponent is not read. The reader stops at the `e`, so "1e3" is 1.00 where `parseFloat` gives 1000. Digits beyond a double's precision (about 17 significant digits) are kept exactly instead of being rounded as a double, and "Infinity" is not read.
- Ordering.CommitSucceeds: column widths are not modelled. Quantities are INTEGER (db.js:65, 104, 108), prices DECIMAL(10,2) (db.js:66-68, 80, 105) and totals DECIMAL(12,2) (db.js:92, 106), but the model's numbers are unbounded. A value out of range, such as a cart line of 3,000,000,000 units, makes PostgreSQL reject the INSERT or UPDATE and roll back with a 500. The model folds that into the `fault` parameter (`StatementFails`) instead of deriving it from the values. The same holds for VendorAdmin.AddStock, VendorAdmin.UpdateStock and the CSV imports, whose `fault` covers it.
- Ordering.Fulfil: ids are modelled as dense. A new order gets the id `|orders| + 1`, and `nextStockId` and `nextCustomerId` advance only when an insert succeeds. PostgreSQL's SERIAL sequences also use up a value on a failed or rolled-back insert: a failed order transaction, or the duplicate 400 of VendorAdmin.AddStock and VendorAdmin.AddCustomer. After such a failure the real id, which routes/customer.js:380 returns to the client, is larger than the model's.
- Portal.CustomerPortal.FinishLoad: a JSON error reply, such as the 404 for an unknown vendor code, is not modelled as such. public/js/customer/stock.js:16-21 then sets `totalPages` to undefined, and without `append` it also sets `stockItems` to undefined; with `append` the spread throws after `totalPages` was cleared. The model has no undefined value and treats such a reply like a failed request (`None`), which keeps both the list and the page count.
- Gate.Request.AuthenticateToken: thrown errors are a single fault flag. The JWT payload is an opaque claims value.
- Accounts.DeleteAdmin: a failure of the foreign-key check is reported as a database error, as the route's catch does. Which rows reference the admin is the predicate `Referenced`.

## Findings

| source | as written | input that shows it | evidently intended | confidence | as-written member | corrected member |
|---|---|---|---|---|---|---|
| db.js:102 | `order_items.stock_id` is NOT NULL on PostgreSQL, while the order handler inserts free-text lines with a null stock id (routes/customer.js:264-266, 364-367) | on PostgreSQL, an order whose cart holds one free-text line "Gauze" fails and is rolled back with a 500 | free-text lines are stored, as on SQLite where the column is nullable (database/sqlite.js:177) | not executed; high | Ordering.PostgresRejectsFreeText | Ordering.NullableStockIdCommits |
| routes/admin.js:271-274 | creating an offer deactivates the item's offers, then runs a plain INSERT | stock item 7 that already has an offer row, active or not: the INSERT violates the unique index on (admin_id, stock_id) (db.js:86). The old offer stays deactivated and the route answers 500 | the item's offer is replaced, so the item ends with exactly one active offer | not executed; high | VendorAdmin.CreateOfferAsWritten | VendorAdmin.CreateOffer |
