/**
 * Request gating of middleware/auth.js: `authenticateToken` finds the
 * session token, verifies it, checks that its admin still exists and is
 * active, and then stores the claims on the request and calls the next
 * handler; `requireAdmin` and `requireSuperAdmin` decide on the role.
 * Token verification (jsonwebtoken with the server's secret and expiry)
 * is an opaque `verify` that yields the claims or nothing.
 */
module Gate {
  import opened Wrappers
  import opened Text
  import opened Schema
  import opened Accounts

  /** Either the next handler runs, or the request is answered with an error. */
  datatype Outcome = Pass | Deny(status: int, error: string)

  const NoToken := "Access denied. Please login."
  const BadToken := "Invalid or expired token."
  const GoneAdmin := "Session expired. Please login again."
  const InactiveAdmin := "Your account has been deactivated."

  /** The second space-separated word of the Authorization header, or "" when there is none. */
  function BearerToken(authorization: Option<string>): (t: string)
    ensures authorization.None? ==> t == ""
    ensures authorization.Some? && ' ' !in authorization.value ==> t == ""
    ensures t != "" ==> ' ' !in t && authorization.Some? && Includes(authorization.value, [' '] + t)
  {
    match authorization
    case None => ""
    case Some(h) =>
      var parts := Split(h, ' ');
      if |parts| > 1 then
        SecondPartFollowsSpace(h, ' ');
        parts[1]
      else ""
  }

  /** The second part of a split sits right after the first separator. */
  lemma SecondPartFollowsSpace(s: string, sep: char)
    requires |Split(s, sep)| > 1
    ensures Includes(s, [sep] + Split(s, sep)[1])
  {
    var i := CharIndex(s, sep).value;
    var rest := Split(s[i + 1..], sep);
    assert Split(s, sep) == [s[..i]] + rest;
    JoinStartsWithHead(rest, sep);
    CharThenPrefix(s, i, rest[0]);
    IncludesAt(s, [sep] + rest[0], i);
  }

  /** Joined parts begin with the first part. */
  lemma {:induction false} JoinStartsWithHead(parts: seq<string>, sep: char)
    requires |parts| >= 1
    ensures StartsWith(Join(parts, sep), parts[0])
  {
    if |parts| > 1 {
      var tail := [sep] + Join(parts[1..], sep);
      assert Join(parts, sep) == parts[0] + tail;
      assert (parts[0] + tail)[..|parts[0]|] == parts[0];
    }
  }

  /** What follows position `i` begins with `t`, so `s[i]` then `t` occurs at `i`. */
  lemma CharThenPrefix(s: string, i: int, t: string)
    requires 0 <= i < |s| && StartsWith(s[i + 1..], t)
    ensures OccursAt(s, [s[i]] + t, i)
  {
    assert s[i..i + 1 + |t|] == [s[i]] + s[i + 1..][..|t|];
  }

  /** The bearer token, else the cookie, else the query parameter; "" stands for a missing one. */
  function TokenOf(authorization: Option<string>, cookie: string, query: string): (t: string)
    ensures BearerToken(authorization) != "" ==> t == BearerToken(authorization)
    ensures BearerToken(authorization) == "" && cookie != "" ==> t == cookie
    ensures BearerToken(authorization) == "" && cookie == "" ==> t == query
    ensures t == "" <==> BearerToken(authorization) == "" && cookie == "" && query == ""
  {
    var b := BearerToken(authorization);
    if b != "" then b else if cookie != "" then cookie else query
  }

  /**
   * The decision of `authenticateToken` for a token: 401 without one;
   * 403 when it does not verify or the lookup fails; 401 when its admin
   * is gone; 403 when its admin is deactivated; otherwise pass.
   */
  function Authenticate(token: string, verify: string -> Option<Claims>, admins: map<int, Admin>, fault: bool): (o: Outcome)
    ensures token == "" ==> o == Deny(401, NoToken)
    ensures o.Pass? <==> token != "" && !fault && verify(token).Some?
                         && verify(token).value.id in admins && admins[verify(token).value.id].isActive
    ensures token != "" && (fault || verify(token).None?) ==> o == Deny(403, BadToken)
    ensures o == Deny(401, GoneAdmin) <==> token != "" && !fault && verify(token).Some? && verify(token).value.id !in admins
    ensures o == Deny(403, InactiveAdmin) <==>
              token != "" && !fault && verify(token).Some? && verify(token).value.id in admins
              && !admins[verify(token).value.id].isActive
  {
    if token == "" then Deny(401, NoToken)
    else match verify(token)
      case None => Deny(403, BadToken)
      case Some(claims) =>
        if fault then Deny(403, BadToken)
        else if claims.id !in admins then Deny(401, GoneAdmin)
        else if !admins[claims.id].isActive then Deny(403, InactiveAdmin)
        else Pass
  }

  /** The parts of an incoming request that the middleware reads and writes. */
  class Request {
    const authorization: Option<string>
    const cookieToken: string
    const queryToken: string
    var user: Option<Claims>
    var nextCalls: nat

    constructor (authorization: Option<string>, cookieToken: string, queryToken: string)
      ensures this.authorization == authorization && this.cookieToken == cookieToken && this.queryToken == queryToken
      ensures user.None? && nextCalls == 0
    {
      this.authorization := authorization;
      this.cookieToken := cookieToken;
      this.queryToken := queryToken;
      user := None;
      nextCalls := 0;
    }

    /**
     * `authenticateToken`: on a pass the verified claims become the
     * request's user and the next handler is called once; on a denial
     * neither happens.
     */
    method AuthenticateToken(db: Database, verify: string -> Option<Claims>, fault: bool) returns (o: Outcome)
      modifies this
      ensures o == Authenticate(TokenOf(authorization, cookieToken, queryToken), verify, db.admins, fault)
      ensures o.Pass? ==> user == verify(TokenOf(authorization, cookieToken, queryToken)) && nextCalls == old(nextCalls) + 1
      ensures o.Deny? ==> user == old(user) && nextCalls == old(nextCalls)
    {
      var token := TokenOf(authorization, cookieToken, queryToken);
      if token == "" {
        return Deny(401, NoToken);
      }
      var decoded := verify(token);
      if decoded.None? || fault {
        return Deny(403, BadToken);
      }
      var id := decoded.value.id;
      if id !in db.admins {
        return Deny(401, GoneAdmin);
      }
      if !db.admins[id].isActive {
        return Deny(403, InactiveAdmin);
      }
      user := decoded;
      nextCalls := nextCalls + 1;
      o := Pass;
    }
  }

  /** `requireSuperAdmin`: only the 'superadmin' role passes. */
  function RequireSuperAdmin(role: string): (o: Outcome)
    ensures o.Pass? <==> role == SuperAdminRole
    ensures o.Deny? ==> o == Deny(403, "Super Admin access required.")
  {
    if role != SuperAdminRole then Deny(403, "Super Admin access required.") else Pass
  }

  /** `requireAdmin`: the 'admin' and 'superadmin' roles pass. */
  function RequireAdmin(role: string): (o: Outcome)
    ensures o.Pass? <==> role == AdminRole || role == SuperAdminRole
    ensures o.Deny? ==> o == Deny(403, "Admin access required.")
  {
    if role != AdminRole && role != SuperAdminRole then Deny(403, "Admin access required.") else Pass
  }

  /** Whoever passes the super admin gate passes the admin gate. */
  lemma SuperAdminIsAdmin(role: string)
    requires RequireSuperAdmin(role).Pass?
    ensures RequireAdmin(role).Pass?
  {
  }

  /** A header without a space yields no bearer token, so the cookie decides. */
  lemma HeaderWithoutSchemeExample()
    ensures TokenOf(Some("abc"), "c", "q") == "c"
  {
    assert ' ' !in "abc";
  }

  /** "Bearer abc" yields the token "abc", which wins over the cookie. */
  lemma BearerHeaderExample()
    ensures TokenOf(Some("Bearer abc"), "c", "q") == "abc"
  {
    var h := "Bearer abc";
    assert ' ' !in h[..6];
    FirstCharAt(h, ' ', 6);
    assert h[7..] == "abc";
    assert ' ' !in "abc";
    assert Split(h, ' ')[1] == "abc";
  }
}
