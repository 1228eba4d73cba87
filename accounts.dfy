/**
 * The account routes of routes/auth.js: login, and the super admin's
 * management of the admins table (create, update, toggle, delete), plus
 * the public current-tenant lookup. Password hashing and checking
 * (bcrypt) are an opaque `matches` relation and an already-hashed
 * string; the signed token is represented by the claims it carries.
 * A database error in a handler is the `fault` parameter: the handler
 * answers 500 and writes nothing.
 */
module Accounts {
  import opened Wrappers
  import opened Schema

  const SuperAdminRole := "superadmin"
  const AdminRole := "admin"
  const BadLogin := "Invalid username or password"
  const TakenKeys := "Username or Subdomain already taken"
  const AdminNotFound := Refused(404, "Admin not found")
  const SuperAdminLocked := Refused(400, "Cannot modify system super admin")
  const SuperAdminStaysActive := Refused(400, "Cannot deactivate super admin")
  const SuperAdminKept := Refused(400, "Cannot delete super admin")
  const Deactivated := Refused(403, "Account is deactivated")
  const DuplicateUsername := Refused(400, "Username already taken")

  /** What the session token is signed over and what login echoes back as `user`. */
  datatype Claims = Claims(id: int, username: string, role: string, name: string,
                           companyName: Option<string>, uniqueCode: string, subdomain: Option<string>)

  /** A JSON reply: a new session, success, an error with its status, or a 500. */
  datatype Reply = Session(claims: Claims) | Done | Refused(status: int, error: string) | DbError

  function ClaimsOf(id: int, a: Admin): Claims {
    Claims(id, a.username, a.role, a.name, a.companyName, a.uniqueCode, a.subdomain)
  }

  /** `subdomain || null`. */
  function SubdomainOr(raw: string): (s: Option<string>)
    ensures s.None? <==> raw == ""
    ensures s.Some? ==> s.value == raw
  {
    if raw == "" then None else Some(raw)
  }

  predicate UsernameTaken(admins: map<int, Admin>, username: string) {
    exists id :: id in admins && admins[id].username == username
  }

  /** A row would clash with this row on the unique unique_code or subdomain column (NULL clashes with nothing). */
  predicate ClashesWith(a: Admin, uniqueCode: string, subdomain: Option<string>) {
    a.uniqueCode == uniqueCode || (subdomain.Some? && a.subdomain == subdomain)
  }

  /**
   * POST /login: the same 401 for an unknown username and for a wrong
   * password; only after the password matches is a deactivated account
   * told 403; otherwise a session carrying the row's identity.
   */
  method Login(db: Database, username: string, password: string, matches: (string, string) -> bool, fault: bool)
    returns (reply: Reply)
    requires db.Valid()
    ensures fault ==> reply == DbError
    ensures !fault && !UsernameTaken(db.admins, username) ==> reply == Refused(401, BadLogin)
    ensures forall id :: !fault && id in db.admins && db.admins[id].username == username ==>
      (!matches(password, db.admins[id].passwordHash) ==> reply == Refused(401, BadLogin))
      && (matches(password, db.admins[id].passwordHash) && !db.admins[id].isActive ==> reply == Deactivated)
      && (matches(password, db.admins[id].passwordHash) && db.admins[id].isActive ==> reply == Session(ClaimsOf(id, db.admins[id])))
    ensures reply.Session? ==> reply.claims.id in db.admins && db.admins[reply.claims.id].isActive
                               && matches(password, db.admins[reply.claims.id].passwordHash)
  {
    if fault {
      return DbError;
    }
    var found := FindRow(db.admins, (a: Admin) => a.username == username);
    if found.None? {
      return Refused(401, BadLogin);
    }
    var id := found.value;
    var user := db.admins[id];
    assert forall other :: other in db.admins && db.admins[other].username == username ==> other == id;
    if !matches(password, user.passwordHash) {
      return Refused(401, BadLogin);
    }
    if !user.isActive {
      return Deactivated;
    }
    reply := Session(ClaimsOf(id, user));
  }

  /**
   * POST /create-admin: 400 without inserting when the username is taken;
   * a clash on the generated unique code or on the subdomain is the unique
   * index's error, also a 400 without inserting; otherwise a new active
   * 'admin' row created by the requester.
   */
  method CreateAdmin(db: Database, requesterId: int, username: string, hashed: string, name: string,
                     companyName: Option<string>, subdomain: string, uniqueCode: string, fault: bool)
    returns (reply: Reply)
    requires db.Valid()
    modifies db
    ensures db.Valid()
    ensures fault ==> reply == DbError && unchanged(db)
    ensures !fault && UsernameTaken(old(db.admins), username) ==> reply == DuplicateUsername && unchanged(db)
    ensures !fault && !UsernameTaken(old(db.admins), username) ==>
      ((exists id :: id in old(db.admins) && ClashesWith(old(db.admins)[id], uniqueCode, SubdomainOr(subdomain)))
        <==> reply == Refused(400, TakenKeys))
    ensures reply.Refused? ==> unchanged(db)
    ensures reply == Done ==>
      db.admins == old(db.admins)[old(db.nextAdminId) :=
        Admin(username, hashed, name, companyName, uniqueCode, SubdomainOr(subdomain), AdminRole, true, Some(requesterId))]
      && db.nextAdminId == old(db.nextAdminId) + 1
    ensures reply == Done || reply.Refused? || reply == DbError
    ensures db.customers == old(db.customers) && db.stock == old(db.stock) && db.offers == old(db.offers)
    ensures db.orders == old(db.orders) && db.orderItems == old(db.orderItems) && db.importLogs == old(db.importLogs)
  {
    if fault {
      return DbError;
    }
    var existing := FindRow(db.admins, (a: Admin) => a.username == username);
    if existing.Some? {
      var holder := existing.value;
      assert holder in db.admins && db.admins[holder].username == username;
      return DuplicateUsername;
    }
    var sub := SubdomainOr(subdomain);
    var clash := FindRow(db.admins, (a: Admin) => ClashesWith(a, uniqueCode, sub));
    if clash.Some? {
      var holder := clash.value;
      assert holder in db.admins && ClashesWith(db.admins[holder], uniqueCode, sub);
      return Refused(400, TakenKeys);
    }
    var row := Admin(username, hashed, name, companyName, uniqueCode, sub, AdminRole, true, Some(requesterId));
    var before := db.admins;
    db.admins := db.admins[db.nextAdminId := row];
    db.nextAdminId := db.nextAdminId + 1;
    assert AdminKeysUnique(db.admins) by {
      forall a, b | a in db.admins && b in db.admins && a != b
        ensures db.admins[a].username != db.admins[b].username && db.admins[a].uniqueCode != db.admins[b].uniqueCode
                && (db.admins[a].subdomain.None? || db.admins[a].subdomain != db.admins[b].subdomain)
      {
        if a !in before {
          assert !ClashesWith(before[b], uniqueCode, sub);
        } else if b !in before {
          assert !ClashesWith(before[a], uniqueCode, sub);
        }
      }
    }
    reply := Done;
  }

  /**
   * PUT /admins/:id: 404 for an unknown id, 400 for the super admin;
   * a username or subdomain already held by another row is the unique
   * index's 400; otherwise the four editable fields are overwritten.
   */
  method UpdateAdmin(db: Database, id: int, username: string, name: string, companyName: Option<string>,
                     subdomain: string, fault: bool)
    returns (reply: Reply)
    requires db.Valid()
    modifies db
    ensures db.Valid()
    ensures fault ==> reply == DbError
    ensures !fault ==>
      (id !in old(db.admins) <==> reply == AdminNotFound)
    ensures !fault && id in old(db.admins) ==>
      (old(db.admins)[id].role == SuperAdminRole <==> reply == SuperAdminLocked)
    ensures !fault && id in old(db.admins) && old(db.admins)[id].role != SuperAdminRole ==>
      ((exists o :: o in old(db.admins) && o != id
                    && (old(db.admins)[o].username == username || (subdomain != "" && old(db.admins)[o].subdomain == Some(subdomain))))
        <==> reply == Refused(400, TakenKeys))
    ensures reply != Done ==> unchanged(db)
    ensures reply == Done ==>
      db.admins == old(db.admins)[id := old(db.admins)[id].(name := name, companyName := companyName,
                                                            username := username, subdomain := SubdomainOr(subdomain))]
    ensures db.nextAdminId == old(db.nextAdminId)
    ensures db.customers == old(db.customers) && db.stock == old(db.stock) && db.offers == old(db.offers)
    ensures db.orders == old(db.orders) && db.orderItems == old(db.orderItems) && db.importLogs == old(db.importLogs)
  {
    if fault {
      return DbError;
    }
    if id !in db.admins {
      return AdminNotFound;
    }
    var admin := db.admins[id];
    if admin.role == SuperAdminRole {
      return SuperAdminLocked;
    }
    var sub := SubdomainOr(subdomain);
    var others := db.admins - {id};
    var clash := FindRow(others, (a: Admin) => a.username == username || (sub.Some? && a.subdomain == sub));
    if clash.Some? {
      var holder := clash.value;
      assert holder in db.admins && holder != id && others[holder] == db.admins[holder];
      return Refused(400, TakenKeys);
    }
    assert forall o :: o in db.admins && o != id ==> o in others && others[o] == db.admins[o];
    var row := admin.(name := name, companyName := companyName, username := username, subdomain := sub);
    EditKeepsKeysUnique(db.admins, id, row);
    db.admins := db.admins[id := row];
    reply := Done;
  }

  /** Editing one admin keeps the keys unique when no other admin holds its new username or subdomain. */
  lemma EditKeepsKeysUnique(admins: map<int, Admin>, id: int, row: Admin)
    requires AdminKeysUnique(admins) && id in admins && row.uniqueCode == admins[id].uniqueCode
    requires forall o :: o in admins && o != id ==>
               admins[o].username != row.username && (row.subdomain.None? || admins[o].subdomain != row.subdomain)
    ensures AdminKeysUnique(admins[id := row])
  {
    var after := admins[id := row];
    forall a, b | a in after && b in after && a != b
      ensures after[a].username != after[b].username && after[a].uniqueCode != after[b].uniqueCode
              && (after[a].subdomain.None? || after[a].subdomain != after[b].subdomain)
    {
      if a == id {
        assert after[b] == admins[b];
      } else if b == id {
        assert after[a] == admins[a];
      }
    }
  }

  /** The active flag flipped and every other field kept. */
  function Toggled(a: Admin): (b: Admin)
    ensures b.isActive == !a.isActive
    ensures b.(isActive := a.isActive) == a
  {
    a.(isActive := !a.isActive)
  }

  /** Toggling twice gives the row back. */
  lemma ToggleTwice(a: Admin)
    ensures Toggled(Toggled(a)) == a
  {
  }

  /** PUT /admins/:id/toggle: 404 for an unknown id, 400 for the super admin; otherwise only is_active flips. */
  method ToggleAdmin(db: Database, id: int, fault: bool) returns (reply: Reply)
    requires db.Valid()
    modifies db
    ensures db.Valid()
    ensures fault ==> reply == DbError
    ensures !fault ==> (id !in old(db.admins) <==> reply == AdminNotFound)
    ensures !fault && id in old(db.admins) ==>
      (old(db.admins)[id].role == SuperAdminRole <==> reply == SuperAdminStaysActive)
    ensures reply != Done ==> unchanged(db)
    ensures reply == Done ==> db.admins == old(db.admins)[id := Toggled(old(db.admins)[id])]
    ensures db.nextAdminId == old(db.nextAdminId)
    ensures db.customers == old(db.customers) && db.stock == old(db.stock) && db.offers == old(db.offers)
    ensures db.orders == old(db.orders) && db.orderItems == old(db.orderItems) && db.importLogs == old(db.importLogs)
  {
    if fault {
      return DbError;
    }
    if id !in db.admins {
      return AdminNotFound;
    }
    if db.admins[id].role == SuperAdminRole {
      return SuperAdminStaysActive;
    }
    db.admins := db.admins[id := Toggled(db.admins[id])];
    reply := Done;
  }

  /** Rows of other tables whose admin_id (or imported_by) refers to the admin: the foreign keys of db.js. */
  predicate Referenced(id: int, customers: map<int, Customer>, stock: map<int, StockItem>, offers: map<(int, int), Offer>,
                       orders: seq<Order>, importLogs: seq<ImportLog>)
  {
    (exists c :: c in customers && customers[c].adminId == id)
    || (exists s :: s in stock && stock[s].adminId == id)
    || (exists k :: k in offers && k.0 == id)
    || (exists i :: 0 <= i < |orders| && orders[i].adminId == id)
    || (exists i :: 0 <= i < |importLogs| && (importLogs[i].adminId == id || importLogs[i].importedBy == id))
  }

  /**
   * DELETE /admins/:id: 400 for the super admin; a row other tables still
   * refer to cannot be deleted (the foreign key raises a 500); an unknown
   * id is a success that deletes nothing.
   */
  method DeleteAdmin(db: Database, id: int, fault: bool) returns (reply: Reply)
    requires db.Valid()
    modifies db
    ensures db.Valid()
    ensures fault ==> reply == DbError
    ensures !fault && id in old(db.admins) && old(db.admins)[id].role == SuperAdminRole ==>
      reply == SuperAdminKept
    ensures !fault && id in old(db.admins) && old(db.admins)[id].role != SuperAdminRole ==>
      (Referenced(id, db.customers, db.stock, db.offers, db.orders, db.importLogs) <==> reply == DbError)
    ensures id !in old(db.admins) && !fault ==> reply == Done
    ensures reply != Done ==> unchanged(db)
    ensures reply == Done ==> db.admins == old(db.admins) - {id}
    ensures db.nextAdminId == old(db.nextAdminId)
    ensures db.customers == old(db.customers) && db.stock == old(db.stock) && db.offers == old(db.offers)
    ensures db.orders == old(db.orders) && db.orderItems == old(db.orderItems) && db.importLogs == old(db.importLogs)
  {
    if fault {
      return DbError;
    }
    if id in db.admins && db.admins[id].role == SuperAdminRole {
      return SuperAdminKept;
    }
    if id in db.admins && Referenced(id, db.customers, db.stock, db.offers, db.orders, db.importLogs) {
      return DbError;
    }
    db.admins := db.admins - {id};
    reply := Done;
  }

  /** The public branding of the resolved tenant. */
  datatype TenantInfo = TenantInfo(companyName: Option<string>, username: string, uniqueCode: string, id: int)

  /** GET /current-tenant: 404 when the request resolved no tenant. */
  function CurrentTenant(tenant: Option<Tenant>): (r: Result<TenantInfo, int>)
    ensures r.Failure? <==> tenant.None?
    ensures r.Failure? ==> r.error == 404
    ensures r.Success? ==> r.value.id == tenant.value.id && r.value.username == tenant.value.admin.username
                           && r.value.companyName == tenant.value.admin.companyName
                           && r.value.uniqueCode == tenant.value.admin.uniqueCode
  {
    match tenant
    case None => Failure(404)
    case Some(t) => Success(TenantInfo(t.admin.companyName, t.admin.username, t.admin.uniqueCode, t.id))
  }
}
