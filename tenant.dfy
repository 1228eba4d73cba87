/**
 * The tenant middleware of middleware/tenant.js: the vendor of a request
 * is named by the first label of its Host header, either on a localhost
 * development host or under the platform's main domain, and is the
 * active admin whose username equals that label up to case.
 */
module TenantMiddleware {
  import opened Wrappers
  import opened Text
  import opened Schema

  const DefaultDomain := "lynkread.com"

  /** `process.env.DOMAIN || 'lynkread.com'`. */
  function DomainOr(env: string): (d: string)
    ensures d != "" && (env != "" ==> d == env)
  {
    if env == "" then DefaultDomain else env
  }

  /**
   * The subdomain named by a Host header. A localhost host names the text
   * before its first '.', when it has one; any other host names the text
   * before the first "." + domain, when that occurs.
   */
  function ExtractSubdomain(host: string, domain: string): (r: Option<string>)
    ensures Includes(host, "localhost") ==> (r.Some? <==> '.' in host)
    ensures Includes(host, "localhost") && r.Some? ==> StartsWith(host, r.value + ".") && '.' !in r.value
    ensures !Includes(host, "localhost") ==> (r.Some? <==> Includes(host, "." + domain))
    ensures !Includes(host, "localhost") && r.Some? ==>
              OccursAt(host, "." + domain, |r.value|) && StartsWith(host, r.value)
              && forall j :: 0 <= j < |r.value| ==> !OccursAt(host, "." + domain, j)
  {
    if Includes(host, "localhost") then
      var parts := Split(host, '.');
      if |parts| > 1 then
        SplitHead(host, '.');
        CharIndexIsIndexOf(host, '.');
        var i := CharIndex(host, '.').value;
        assert host[..i + 1] == host[..i] + ".";
        Some(parts[0])
      else None
    else if Includes(host, "." + domain) then
      Some(Before(host, "." + domain))
    else None
  }

  /** `subdomain && subdomain !== 'www' && subdomain !== 'admin'`. */
  predicate Eligible(sub: Option<string>) {
    sub.Some? && sub.value != "" && sub.value != "www" && sub.value != "admin"
  }

  /** The lookup `LOWER(username) = LOWER($1) AND is_active = 1`. */
  predicate NamesTenant(a: Admin, sub: string) {
    ToLower(a.username) == ToLower(sub) && a.isActive
  }

  /** The request as the middleware sees it: its Host header, and the tenant it may set. */
  class TenantRequest {
    const host: Option<string>
    var tenant: Option<Tenant>
    var nextCalls: nat

    constructor (host: Option<string>)
      ensures this.host == host && tenant.None? && nextCalls == 0
    {
      this.host := host;
      tenant := None;
      nextCalls := 0;
    }

    /**
     * `tenantHandler`: sets the tenant when an eligible subdomain names an
     * active admin; a lookup error is swallowed; the next handler runs
     * exactly once whatever happens.
     */
    method Handle(db: Database, domainEnv: string, fault: bool)
      modifies this
      ensures nextCalls == old(nextCalls) + 1
      ensures host.None? ==> tenant == old(tenant)
      ensures host.Some? && !Eligible(ExtractSubdomain(host.value, DomainOr(domainEnv))) ==> tenant == old(tenant)
      ensures fault ==> tenant == old(tenant)
      ensures tenant != old(tenant) ==>
                host.Some? && Eligible(ExtractSubdomain(host.value, DomainOr(domainEnv)))
                && tenant.Some? && tenant.value.id in db.admins && tenant.value.admin == db.admins[tenant.value.id]
                && NamesTenant(tenant.value.admin, ExtractSubdomain(host.value, DomainOr(domainEnv)).value)
      ensures host.Some? && !fault && Eligible(ExtractSubdomain(host.value, DomainOr(domainEnv)))
              && (exists id :: id in db.admins && NamesTenant(db.admins[id], ExtractSubdomain(host.value, DomainOr(domainEnv)).value))
              ==> tenant.Some? && tenant.value.id in db.admins
                  && NamesTenant(tenant.value.admin, ExtractSubdomain(host.value, DomainOr(domainEnv)).value)
    {
      if host.Some? {
        var sub := ExtractSubdomain(host.value, DomainOr(domainEnv));
        if Eligible(sub) && !fault {
          var found := FindRow(db.admins, (a: Admin) => NamesTenant(a, sub.value));
          if found.Some? {
            tenant := Some(Tenant(found.value, db.admins[found.value]));
          }
        }
      }
      nextCalls := nextCalls + 1;
    }
  }

  /** The reserved labels and a missing label never name a tenant. */
  lemma ReservedNeverResolve(host: string, domain: string)
    requires ExtractSubdomain(host, domain) in {None, Some(""), Some("www"), Some("admin")}
    ensures !Eligible(ExtractSubdomain(host, domain))
  {
  }

  lemma BareLocalhostExample()
    ensures ExtractSubdomain("localhost:3000", DefaultDomain) == None
  {
    IncludesAt("localhost:3000", "localhost", 0);
    assert '.' !in "localhost:3000";
  }

  lemma LocalVendorExample()
    ensures ExtractSubdomain("vendor1.localhost:3000", DefaultDomain) == Some("vendor1")
  {
    var host := "vendor1.localhost:3000";
    IncludesAt(host, "localhost", 8);
    assert host[..7] == "vendor1";
    FirstCharAt(host, '.', 7);
    CharIndexIsIndexOf(host, '.');
    SplitHead(host, '.');
    assert Before(host, ".") == "vendor1";
  }

  /** Under the main domain the label is the text before the first "." + domain. */
  lemma DomainLabel(host: string, domain: string, i: int)
    requires !Includes(host, "localhost")
    requires OccursAt(host, "." + domain, i) && forall j :: 0 <= j < i ==> !OccursAt(host, "." + domain, j)
    ensures ExtractSubdomain(host, domain) == Some(host[..i])
  {
    FirstOccurrence(host, "." + domain, i);
  }

  lemma DomainVendorExample(host: string)
    requires host == "medical1.lynkread.com"
    ensures ExtractSubdomain(host, DefaultDomain) == Some("medical1")
  {
    assert host[..8] == "medical1";
    forall j | 0 <= j < 8
      ensures !OccursAt(host, ".lynkread.com", j)
    {
      assert host[j] == host[..8][j];
      HeadMismatch(host, ".lynkread.com", j);
    }
    assert host[8..21] == ".lynkread.com";
    MissingCharExcludes(host, "localhost", 8);
    DomainLabel(host, DefaultDomain, 8);
  }

  lemma BareDomainExample()
    ensures ExtractSubdomain("lynkread.com", DefaultDomain) == None
  {
    MissingCharExcludes("lynkread.com", "localhost", 8);
  }
}
