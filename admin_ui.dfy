/**
 * The admin dashboard in the browser (public/js/admin/core.js and
 * companies.js): HTML escaping, the pagination controls, the fetch
 * wrapper that attaches the session token and logs out on a refused
 * request, the super admin check, the portal link of a company, the
 * company table filter, the company list, and the company form.
 * Network replies are parameters; the DOM is reduced to the values the
 * page shows.
 */
module AdminUi {
  import opened Wrappers
  import opened Text
  import opened Seqs
  import opened Schema
  import opened Accounts
  import opened Gate
  import opened TenantMiddleware
  import opened Pagination

  // ---------- escapeHtml ----------

  /** Every `c` in `s` replaced by `rep` (`s.replace(/c/g, rep)` for a one-character pattern). */
  function ReplaceChar(s: string, c: char, rep: string): (r: string)
    ensures c !in rep ==> c !in r
    ensures c !in s ==> r == s
    decreases |s|
  {
    if s == [] then []
    else (if s[0] == c then rep else [s[0]]) + ReplaceChar(s[1..], c, rep)
  }

  lemma {:induction false} ReplaceCharConcat(a: string, b: string, c: char, rep: string)
    ensures ReplaceChar(a + b, c, rep) == ReplaceChar(a, c, rep) + ReplaceChar(b, c, rep)
    decreases |a|
  {
    if a == [] {
      assert a + b == b;
    } else {
      var ab := a + b;
      assert ab[0] == a[0] && ab[1..] == a[1..] + b;
      ReplaceCharConcat(a[1..], b, c, rep);
    }
  }

  /** The escape of one character: a quote gets a backslash, a double quote becomes an entity. */
  function EscapeChar(ch: char): string {
    if ch == '\'' then "\\'" else if ch == '"' then "&quot;" else [ch]
  }

  /** The reference escape: each character replaced by its escape, in one pass. */
  function Escape(s: string): string
    decreases |s|
  {
    if s == [] then [] else EscapeChar(s[0]) + Escape(s[1..])
  }

  /**
   * `escapeHtml`: "" for a missing or empty value; otherwise every `'`
   * becomes `\'` and then every `"` becomes `&quot;`.
   */
  function EscapeHtml(str: Option<string>): (r: string)
    ensures str.None? || str == Some("") ==> r == ""
    ensures str.Some? ==> r == Escape(str.value)
    ensures '"' !in r
  {
    if str.None? || str.value == "" then ""
    else
      var once := ReplaceChar(str.value, '\'', "\\'");
      TwoPassesAreOnePass(str.value);
      ReplaceChar(once, '"', "&quot;")
  }

  /** The second pass never sees a double quote produced by the first, so the two passes are one per-character escape. */
  lemma {:induction false} TwoPassesAreOnePass(s: string)
    ensures ReplaceChar(ReplaceChar(s, '\'', "\\'"), '"', "&quot;") == Escape(s)
    decreases |s|
  {
    if s != [] {
      var head := if s[0] == '\'' then "\\'" else [s[0]];
      assert ReplaceChar(s, '\'', "\\'") == head + ReplaceChar(s[1..], '\'', "\\'");
      ReplaceCharConcat(head, ReplaceChar(s[1..], '\'', "\\'"), '"', "&quot;");
      TwoPassesAreOnePass(s[1..]);
      assert ReplaceChar(head, '"', "&quot;") == EscapeChar(s[0]) by {
        if s[0] == '\'' {
          assert "\\'"[1..] == "'";
          assert "'"[1..] == "";
        } else {
          assert [s[0]][1..] == [];
        }
      }
    }
  }

  /** Escaping never shortens, and lengthens any text with a quote of either kind. */
  lemma {:induction false} EscapeLength(s: string)
    ensures |Escape(s)| >= |s|
    ensures '\'' in s || '"' in s ==> |Escape(s)| > |s|
    decreases |s|
  {
    if s != [] {
      EscapeLength(s[1..]);
      assert s == [s[0]] + s[1..];
    }
  }

  /** Escaping leaves a text alone exactly when it has no quote of either kind. */
  lemma {:induction false} EscapeIdentity(s: string)
    ensures Escape(s) == s <==> '\'' !in s && '"' !in s
    decreases |s|
  {
    EscapeLength(s);
    if s != [] && '\'' !in s && '"' !in s {
      assert s == [s[0]] + s[1..];
      EscapeIdentity(s[1..]);
    }
  }

  // ---------- updatePaginationUI ----------

  /** What the pagination controls show. */
  datatype PagerView = PagerView(info: string, prevDisabled: bool, nextDisabled: bool)

  /**
   * "Page p of n", where a zero page count reads as 1; Previous is
   * disabled on the first page and Next from the last page on (compared
   * with the page count as given).
   */
  function PaginationView(page: int, totalPages: int): (v: PagerView)
    ensures v.prevDisabled <==> page <= 1
    ensures v.nextDisabled <==> page >= totalPages
    ensures totalPages != 0 ==> v.info == "Page " + IntToString(page) + " of " + IntToString(totalPages)
    ensures totalPages == 0 ==> v.info == "Page " + IntToString(page) + " of 1"
  {
    var shown := if totalPages != 0 then totalPages else 1;
    PagerView("Page " + IntToString(page) + " of " + IntToString(shown), page <= 1, page >= totalPages)
  }

  /**
   * With the page count the listing routes report for `total` rows,
   * Next is disabled exactly when the following page would be empty.
   */
  lemma NextDisabledIffNoMoreRows(total: nat, limit: int, page: int)
    requires limit > 0 && page >= 1
    ensures PaginationView(page, CeilDiv(total, limit)).nextDisabled <==> page * limit >= total
  {
    var c := CeilDiv(total, limit);
    CeilDivBounds(total, limit);
    if page >= c {
      MulMonotone(c, page, limit);
    } else {
      MulMonotone(page, c - 1, limit);
      assert page * limit <= (c - 1) * limit;
    }
  }

  /** The three controls; the page may lack any of them. */
  class PaginationControls {
    const hasInfo: bool
    const hasPrev: bool
    const hasNext: bool
    var info: string
    var prevDisabled: bool
    var nextDisabled: bool

    constructor (hasInfo: bool, hasPrev: bool, hasNext: bool)
      ensures this.hasInfo == hasInfo && this.hasPrev == hasPrev && this.hasNext == hasNext
      ensures info == "" && !prevDisabled && !nextDisabled
    {
      this.hasInfo := hasInfo;
      this.hasPrev := hasPrev;
      this.hasNext := hasNext;
      info := "";
      prevDisabled := false;
      nextDisabled := false;
    }

    /** `updatePaginationUI`: each control that exists shows the view; a missing one is skipped. */
    method Update(page: int, totalPages: int)
      modifies this
      ensures info == (if hasInfo then PaginationView(page, totalPages).info else old(info))
      ensures prevDisabled == (if hasPrev then PaginationView(page, totalPages).prevDisabled else old(prevDisabled))
      ensures nextDisabled == (if hasNext then PaginationView(page, totalPages).nextDisabled else old(nextDisabled))
    {
      var view := PaginationView(page, totalPages);
      if hasInfo {
        info := view.info;
      }
      if hasPrev {
        prevDisabled := view.prevDisabled;
      }
      if hasNext {
        nextDisabled := view.nextDisabled;
      }
    }
  }

  // ---------- apiFetch, logout, isSuperAdmin ----------

  const ApiBase := "/api"

  /** A request body: none, a string (already JSON), or another kind of value. */
  datatype Body = NoBody | TextBody(text: string) | OtherBody

  datatype FetchOptions = FetchOptions(verb: string, headers: Option<map<string, string>>, body: Body)

  /** `Bearer ${getToken()}`: a missing token is written as "null". */
  function BearerValue(token: Option<string>): (v: string)
    ensures StartsWith(v, "Bearer ")
    ensures token.Some? ==> v == "Bearer " + token.value
    ensures token.None? ==> v == "Bearer null"
  {
    var v := "Bearer " + (if token.Some? then token.value else "null");
    assert v[..7] == "Bearer ";
    v
  }

  /**
   * The headers `apiFetch` sends: the caller's (or none), with the
   * Authorization header always set and a JSON content type added only
   * for a non-empty string body.
   */
  function RequestHeaders(options: FetchOptions, token: Option<string>): (h: map<string, string>)
    ensures "Authorization" in h && h["Authorization"] == BearerValue(token)
    ensures options.body.TextBody? && options.body.text != "" ==> "Content-Type" in h && h["Content-Type"] == "application/json"
    ensures forall k :: k in h && k != "Authorization" && !(k == "Content-Type" && options.body.TextBody? && options.body.text != "") ==>
              options.headers.Some? && k in options.headers.value && h[k] == options.headers.value[k]
    ensures options.headers.Some? ==> forall k :: k in options.headers.value ==> k in h
  {
    var base := options.headers.GetOr(map[]);
    var withAuth := base["Authorization" := BearerValue(token)];
    if options.body.TextBody? && options.body.text != "" then withAuth["Content-Type" := "application/json"] else withAuth
  }

  /** `logout`'s destination: the customer portal from the vendor dashboard, the super admin login otherwise. */
  function LogoutTarget(pathname: string): (url: string)
    ensures url == "/portal-customer" <==> pathname == "/portal-admin"
    ensures url != "/portal-customer" ==> url == "/super-admin"
  {
    assert StartsWith(pathname, "/super-admin") ==> pathname[1] == "/super-admin"[1];
    if StartsWith(pathname, "/super-admin") then "/super-admin"
    else if pathname == "/portal-admin" then "/portal-customer"
    else "/super-admin"
  }

  /** `currentUser && currentUser.role === 'superadmin'`: the same decision as the server's super admin gate. */
  function IsSuperAdmin(currentUser: Option<Claims>): (b: bool)
    ensures b <==> currentUser.Some? && RequireSuperAdmin(currentUser.value.role).Pass?
    ensures b ==> RequireAdmin(currentUser.value.role).Pass?
  {
    currentUser.Some? && currentUser.value.role == SuperAdminRole
  }

  /** The browser session of the dashboard: stored token and user, and where the window is sent. */
  class DashboardSession {
    const pathname: string
    var token: Option<string>
    var storedUser: Option<string>
    var location: string

    constructor (pathname: string, token: Option<string>, storedUser: Option<string>)
      ensures this.pathname == pathname && this.token == token && this.storedUser == storedUser
      ensures location == pathname
    {
      this.pathname := pathname;
      this.token := token;
      this.storedUser := storedUser;
      location := pathname;
    }

    /** `logout`: both stored values are removed and the window is sent to the login page for this dashboard. */
    method Logout()
      modifies this
      ensures token.None? && storedUser.None?
      ensures location == LogoutTarget(pathname)
    {
      token := None;
      storedUser := None;
      location := LogoutTarget(pathname);
    }

    /**
     * `apiFetch`: the request goes to the API base with the session's
     * headers; a 401 or 403 answer logs out and yields no response,
     * any other answer is returned as is and changes nothing.
     */
    method ApiFetch(url: string, options: FetchOptions, status: int)
      returns (sentUrl: string, sentHeaders: map<string, string>, response: Option<int>)
      modifies this
      ensures sentUrl == ApiBase + url
      ensures sentHeaders == RequestHeaders(options, old(token))
      ensures response.None? <==> status == 401 || status == 403
      ensures response.None? ==> token.None? && storedUser.None? && location == LogoutTarget(pathname)
      ensures response.Some? ==> response.value == status && token == old(token)
                                 && storedUser == old(storedUser) && location == old(location)
    {
      sentUrl := ApiBase + url;
      sentHeaders := RequestHeaders(options, token);
      if status == 401 || status == 403 {
        Logout();
        response := None;
      } else {
        response := Some(status);
      }
    }
  }

  // ---------- getPortalUrl ----------

  /** A link: protocol, host and path. */
  datatype Link = Link(protocol: string, host: string, path: string) {
    function Href(): string {
      protocol + "//" + host + path
    }
  }

  /** `s` ends with `t`. */
  predicate EndsWith(s: string, t: string) {
    |t| <= |s| && s[|s| - |t|..] == t
  }

  lemma {:induction false} JoinAt(parts: seq<string>, sep: char, k: int)
    requires 0 < k < |parts|
    ensures Join(parts, sep) == Join(parts[..k], sep) + [sep] + Join(parts[k..], sep)
    decreases k
  {
    if k > 1 {
      JoinAt(parts[1..], sep, k - 1);
      assert parts[1..][..k - 1] == parts[..k][1..];
      assert parts[1..][k - 1..] == parts[k..];
    }
  }

  /** `host.split('.').slice(-2).join('.')`: the last two labels, or the whole host when it has fewer. */
  function LastTwoLabels(host: string): (d: string)
    ensures EndsWith(host, d)
    ensures |Split(host, '.')| <= 2 ==> d == host
    ensures |Split(host, '.')| > 2 ==> d == Split(host, '.')[|Split(host, '.')| - 2] + "." + Split(host, '.')[|Split(host, '.')| - 1]
  {
    var parts := Split(host, '.');
    if |parts| <= 2 then host
    else
      var k := |parts| - 2;
      JoinAt(parts, '.', k);
      assert parts[k..][1..] == [parts[k + 1]];
      var d := Join(parts[k..], '.');
      assert d == parts[k] + "." + parts[k + 1];
      assert host == Join(parts[..k], '.') + "." + d;
      d
  }

  /**
   * `getPortalUrl`: on a localhost host, the company's own subdomain of
   * localhost:3000; on the shared railway domain, the same host with the
   * company as a query parameter; otherwise the company's subdomain of the
   * host's last two labels. The localhost rule is tried first.
   */
  function GetPortalUrl(protocol: string, host: string, username: string): (link: Link)
    ensures link.protocol == protocol
    ensures Includes(host, "localhost") ==> link.host == ToLower(username) + ".localhost:3000" && link.path == "/portal"
    ensures !Includes(host, "localhost") && Includes(host, "up.railway.app") ==>
              link.host == host && link.path == "/portal?v=" + ToLower(username)
    ensures !Includes(host, "localhost") && !Includes(host, "up.railway.app") ==>
              link.host == ToLower(username) + "." + LastTwoLabels(host) && link.path == "/portal"
  {
    if Includes(host, "localhost") then Link(protocol, ToLower(username) + ".localhost:3000", "/portal")
    else if Includes(host, "up.railway.app") then Link(protocol, host, "/portal?v=" + ToLower(username))
    else Link(protocol, ToLower(username) + "." + LastTwoLabels(host), "/portal")
  }

  lemma LowerKeepsDot(s: string)
    requires '.' !in s
    ensures '.' !in ToLower(s)
  {
    assert forall i :: 0 <= i < |s| ==> ToLower(s)[i] != '.';
  }

  lemma LowerIdempotent(s: string)
    ensures ToLower(ToLower(s)) == ToLower(s)
  {
  }

  /** A text starting with `w + "."`, where `w` has no '.', has `w` as its only dot-free prefix followed by '.'. */
  lemma LabelBeforeDot(h: string, w: string, v: string)
    requires '.' !in w && '.' !in v
    requires StartsWith(h, w + ".") && StartsWith(h, v + ".")
    ensures v == w
  {
    assert h[..|w| + 1] == w + "." && h[..|v| + 1] == v + ".";
    assert forall i :: 0 <= i < |w| ==> h[i] == w[i] && h[i] != '.';
    assert forall i :: 0 <= i < |v| ==> h[i] == v[i] && h[i] != '.';
    assert h[|w|] == '.' && h[|v|] == '.';
    assert |v| == |w|;
    assert v == h[..|v|] && w == h[..|w|];
  }

  /**
   * The portal link of a company is served to that company: on a
   * localhost dashboard, the tenant middleware reads back the lower-cased
   * username from the link's host.
   */
  lemma LocalPortalLinkResolves(protocol: string, host: string, username: string, domain: string)
    requires Includes(host, "localhost") && '.' !in username
    ensures ExtractSubdomain(GetPortalUrl(protocol, host, username).host, domain) == Some(ToLower(username))
  {
    var w := ToLower(username);
    var h := w + ".localhost:3000";
    assert h[|w| + 1..|w| + 10] == "localhost";
    IncludesAt(h, "localhost", |w| + 1);
    assert h[|w|] == '.';
    LowerKeepsDot(username);
    var r := ExtractSubdomain(h, domain);
    assert StartsWith(h, w + ".") by { assert h[..|w| + 1] == w + "."; }
    LabelBeforeDot(h, w, r.value);
  }

  /**
   * On a custom domain, with the server's main domain set to the
   * dashboard's last two labels, the tenant middleware reads back the
   * lower-cased username from the link's host.
   */
  lemma DomainPortalLinkResolves(protocol: string, host: string, username: string)
    requires !Includes(host, "localhost") && !Includes(host, "up.railway.app") && '.' !in username
    requires !Includes(ToLower(username) + "." + LastTwoLabels(host), "localhost")
    ensures ExtractSubdomain(GetPortalUrl(protocol, host, username).host, LastTwoLabels(host)) == Some(ToLower(username))
  {
    LowerKeepsDot(username);
    LabelThenDomain(ToLower(username), LastTwoLabels(host));
  }

  /** Under a main domain `d`, the host `w.d` names `w` when `w` has no '.'. */
  lemma LabelThenDomain(w: string, d: string)
    requires '.' !in w && !Includes(w + "." + d, "localhost")
    ensures ExtractSubdomain(w + "." + d, d) == Some(w)
  {
    var h := w + "." + d;
    assert h[|w|..|w| + |"." + d|] == "." + d;
    forall j | 0 <= j < |w|
      ensures !OccursAt(h, "." + d, j)
    {
      assert h[j] == w[j];
      HeadMismatch(h, "." + d, j);
    }
    assert h[..|w|] == w;
    DomainLabel(h, d, |w|);
  }

  /** The lookup by a lower-cased username finds that admin exactly when it is active. */
  lemma LowerNameNamesAdmin(a: Admin)
    ensures NamesTenant(a, ToLower(a.username)) <==> a.isActive
  {
    LowerIdempotent(a.username);
  }

  // ---------- the company table ----------

  /** A row of the admin list as the dashboard holds it. */
  datatype AdminEntry = AdminEntry(id: int, username: string, name: string, companyName: Option<string>,
                                   uniqueCode: string, role: string)

  /** The lower-cased query occurs in the company name, the name or the username, each lower-cased. */
  predicate MatchesQuery(a: AdminEntry, q: string) {
    a.companyName.Some? &&
    (Includes(ToLower(a.companyName.value), q) || Includes(ToLower(a.name), q) || Includes(ToLower(a.username), q))
  }

  /**
   * `filterAdminTable`: the entries matching the query, in order. A
   * missing company name makes the filter throw, which leaves the table
   * as it was (None).
   */
  function FilterAdminTable(admins: seq<AdminEntry>, query: string): (r: Option<seq<AdminEntry>>)
    ensures r.None? <==> exists i :: 0 <= i < |admins| && admins[i].companyName.None?
    ensures r.Some? ==> forall a :: a in r.value <==> a in admins && MatchesQuery(a, ToLower(query))
    ensures r.Some? ==> r.value == Keep(admins, (a: AdminEntry) => MatchesQuery(a, ToLower(query)))
  {
    if exists i :: 0 <= i < |admins| && admins[i].companyName.None? then None
    else Some(Keep(admins, (a: AdminEntry) => MatchesQuery(a, ToLower(query))))
  }

  /** An empty query keeps every company, in order. */
  lemma EmptyQueryKeepsAll(admins: seq<AdminEntry>)
    requires forall i :: 0 <= i < |admins| ==> admins[i].companyName.Some?
    ensures FilterAdminTable(admins, "") == Some(admins)
  {
    var p := (a: AdminEntry) => MatchesQuery(a, ToLower(""));
    forall i | 0 <= i < |admins| ensures p(admins[i]) {
      IncludesAt(ToLower(admins[i].companyName.value), "", 0);
    }
    KeepAll(admins, p);
  }

  predicate NotSuperAdmin(a: AdminEntry) { a.role != SuperAdminRole }

  /** The company list of the super admin dashboard. */
  class CompanyList {
    var adminsData: seq<AdminEntry>

    constructor ()
      ensures adminsData == []
    {
      adminsData := [];
    }

    /**
     * `fetchAdminsData`: the list answered by the server without its
     * super admins, in order; a refused or failed request keeps the list.
     */
    method FetchAdminsData(reply: Option<seq<AdminEntry>>)
      modifies this
      ensures reply.None? ==> adminsData == old(adminsData)
      ensures reply.Some? ==> adminsData == Keep(reply.value, NotSuperAdmin)
      ensures reply.Some? ==> forall a :: a in adminsData <==> a in reply.value && a.role != SuperAdminRole
    {
      if reply.Some? {
        adminsData := Keep(reply.value, NotSuperAdmin);
      }
    }
  }

  // ---------- saveAdmin ----------

  /** The company form: id ("" when creating), company name, name, username and password. */
  datatype AdminForm = AdminForm(id: string, companyName: string, name: string, username: string, password: string)

  /** The request `saveAdmin` sends: verb, path and the JSON body's fields in order. */
  datatype AdminRequest = AdminRequest(verb: string, url: string, body: seq<(string, string)>)

  /** The value of the first field named `key`. */
  function FieldOf(body: seq<(string, string)>, key: string): (v: Option<string>)
    ensures v.Some? ==> (key, v.value) in body
    ensures v.None? ==> forall i :: 0 <= i < |body| ==> body[i].0 != key
  {
    if body == [] then None else if body[0].0 == key then Some(body[0].1) else FieldOf(body[1..], key)
  }

  /** The JSON body of the company form: company name, name, username, then the password when one was typed. */
  function FormBody(f: AdminForm): (body: seq<(string, string)>)
    ensures FieldOf(body, "company_name") == Some(f.companyName)
    ensures FieldOf(body, "name") == Some(f.name)
    ensures FieldOf(body, "username") == Some(f.username)
    ensures FieldOf(body, "password") == (if f.password != "" then Some(f.password) else None)
    ensures FieldOf(body, "subdomain").None?
  {
    var tail := if f.password != "" then [("password", f.password)] else [];
    var third := [("username", f.username)] + tail;
    var second := [("name", f.name)] + third;
    FieldOfCons(("username", f.username), tail);
    FieldOfCons(("name", f.name), third);
    FieldOfCons(("company_name", f.companyName), second);
    [("company_name", f.companyName)] + second
  }

  /** A field looked up in a body that starts with `p`: `p`'s value when the key is `p`'s, else the lookup in the rest. */
  lemma FieldOfCons(p: (string, string), rest: seq<(string, string)>)
    ensures forall key :: FieldOf([p] + rest, key) == if p.0 == key then Some(p.1) else FieldOf(rest, key)
  {
    assert ([p] + rest)[1..] == rest;
  }

  /**
   * `saveAdmin`: nothing is sent unless company name, name and username
   * are filled, and a password too when creating. An edit is a PUT to the
   * admin's path, a creation a POST to create-admin; the password goes in
   * the body only when one was typed.
   */
  function SaveAdmin(f: AdminForm): (r: Option<AdminRequest>)
    ensures r.None? <==> f.companyName == "" || f.name == "" || f.username == "" || (f.id == "" && f.password == "")
    ensures r.Some? && f.id != "" ==> r.value.verb == "PUT" && r.value.url == "/auth/admins/" + f.id
    ensures r.Some? && f.id == "" ==> r.value.verb == "POST" && r.value.url == "/auth/create-admin"
    ensures r.Some? ==> r.value.body == FormBody(f)
    ensures r.Some? && f.id == "" ==> FieldOf(r.value.body, "password") == Some(f.password)
  {
    if f.companyName == "" || f.name == "" || f.username == "" || (f.id == "" && f.password == "") then None
    else if f.id != "" then Some(AdminRequest("PUT", "/auth/admins/" + f.id, FormBody(f)))
    else Some(AdminRequest("POST", "/auth/create-admin", FormBody(f)))
  }

  /**
   * The form has no subdomain field, so the update route, which stores
   * `subdomain || null`, clears the company's subdomain on every edit.
   */
  lemma EditClearsSubdomain(f: AdminForm)
    requires SaveAdmin(f).Some? && f.id != ""
    ensures SubdomainOr(FieldOf(SaveAdmin(f).value.body, "subdomain").GetOr("")).None?
  {
  }
}
