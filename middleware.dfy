/**
 * The tenant routing decision taken for every request: resolve the tenant
 * from the Host header and the configured root domain, then let the request
 * through, or rewrite it to the tenant's dashboard page or to its public menu
 * with a `subdomain` query parameter.
 */
module Middleware {
  import opened Basics
  import opened Strings
  import opened Utils

  /** One `name=value` pair of a URL query, in the order the query lists them. */
  datatype Param = Param(name: string, value: string)

  datatype Request = Request(host: Option<string>, pathname: string, query: seq<Param>)

  /** `NextResponse.next()` or `NextResponse.rewrite(url)`; the middleware never redirects. */
  datatype Decision = Next | Rewrite(pathname: string, query: seq<Param>)

  /** Used for a missing Host header and for an unset root domain. */
  const DefaultHost := "localhost:3000"

  // ----- URLSearchParams -----

  /** `searchParams.get(name)`: the value of the first pair with that name. */
  function GetParam(query: seq<Param>, name: string): Option<string> {
    if query == [] then None
    else if query[0].name == name then Some(query[0].value)
    else GetParam(query[1..], name)
  }

  /** `searchParams.getAll(name)`: every value given for that name, in order. */
  function Values(query: seq<Param>, name: string): seq<string> {
    if query == [] then []
    else (if query[0].name == name then [query[0].value] else []) + Values(query[1..], name)
  }

  /** The query with every pair of that name taken out. */
  function WithoutName(query: seq<Param>, name: string): seq<Param> {
    if query == [] then []
    else (if query[0].name == name then [] else [query[0]]) + WithoutName(query[1..], name)
  }

  /**
   * `searchParams.set(name, value)`: the first pair with that name gets the
   * value and the later ones are removed; without one, the pair is appended.
   */
  function SetParam(query: seq<Param>, name: string, value: string): seq<Param> {
    if query == [] then [Param(name, value)]
    else if query[0].name == name then [Param(name, value)] + WithoutName(query[1..], name)
    else [query[0]] + SetParam(query[1..], name, value)
  }

  lemma {:induction false} WithoutNameHasNone(query: seq<Param>, name: string)
    ensures Values(WithoutName(query, name), name) == []
    ensures GetParam(WithoutName(query, name), name) == None
  {
    if query != [] {
      WithoutNameHasNone(query[1..], name);
      var rest := WithoutName(query[1..], name);
      if query[0].name != name {
        assert WithoutName(query, name) == [query[0]] + rest;
        assert ([query[0]] + rest)[1..] == rest;
      } else {
        assert WithoutName(query, name) == rest;
      }
    }
  }

  lemma {:induction false} WithoutNameTwice(query: seq<Param>, name: string)
    ensures WithoutName(WithoutName(query, name), name) == WithoutName(query, name)
  {
    if query != [] {
      WithoutNameTwice(query[1..], name);
      var rest := WithoutName(query[1..], name);
      if query[0].name != name {
        assert ([query[0]] + rest)[1..] == rest;
      } else {
        assert WithoutName(query, name) == rest;
      }
    }
  }

  /** Taking out another name does not disturb the values of this one. */
  lemma {:induction false} WithoutOtherName(query: seq<Param>, name: string, other: string)
    requires name != other
    ensures Values(WithoutName(query, other), name) == Values(query, name)
  {
    if query != [] {
      WithoutOtherName(query[1..], name, other);
      var rest := WithoutName(query[1..], other);
      if query[0].name != other {
        assert ([query[0]] + rest)[1..] == rest;
      } else {
        assert WithoutName(query, other) == rest;
      }
    }
  }

  /** After `set`, `get` reads the value that was set. */
  lemma {:induction false} SetParamGet(query: seq<Param>, name: string, value: string)
    ensures GetParam(SetParam(query, name, value), name) == Some(value)
  {
    if query != [] && query[0].name != name {
      SetParamGet(query[1..], name, value);
      var rest := SetParam(query[1..], name, value);
      assert ([query[0]] + rest)[1..] == rest;
    }
  }

  /** After `set`, the name has exactly one value. */
  lemma {:induction false} SetParamSingle(query: seq<Param>, name: string, value: string)
    ensures Values(SetParam(query, name, value), name) == [value]
  {
    if query == [] {
    } else if query[0].name == name {
      var rest := WithoutName(query[1..], name);
      WithoutNameHasNone(query[1..], name);
      assert ([Param(name, value)] + rest)[1..] == rest;
    } else {
      SetParamSingle(query[1..], name, value);
      var rest := SetParam(query[1..], name, value);
      assert ([query[0]] + rest)[1..] == rest;
    }
  }

  /** After `set`, every other pair is still there, in the same order. */
  lemma {:induction false} SetParamKeepsOthers(query: seq<Param>, name: string, value: string)
    ensures WithoutName(SetParam(query, name, value), name) == WithoutName(query, name)
  {
    if query == [] {
    } else if query[0].name == name {
      var rest := WithoutName(query[1..], name);
      assert ([Param(name, value)] + rest)[1..] == rest;
      WithoutNameTwice(query[1..], name);
    } else {
      SetParamKeepsOthers(query[1..], name, value);
      var rest := SetParam(query[1..], name, value);
      assert ([query[0]] + rest)[1..] == rest;
    }
  }

  /** What the two `set` lemmas say about the values of any other name. */
  lemma SetParamOtherValues(query: seq<Param>, name: string, value: string, other: string)
    requires other != name
    ensures Values(SetParam(query, name, value), other) == Values(query, other)
  {
    SetParamKeepsOthers(query, name, value);
    WithoutOtherName(SetParam(query, name, value), other, name);
    WithoutOtherName(query, other, name);
  }

  // ----- the decision -----

  /** `request.headers.get('host') || 'localhost:3000'` */
  function HostOf(req: Request): string {
    if Truthy(req.host) then req.host.value else DefaultHost
  }

  /** `process.env.NEXT_PUBLIC_APP_DOMAIN || 'localhost:3000'` */
  function RootDomain(appDomain: Option<string>): string {
    if Truthy(appDomain) then appDomain.value else DefaultHost
  }

  function Tenant(req: Request, appDomain: Option<string>): Option<string> {
    ExtractSubdomain(HostOf(req), RootDomain(appDomain))
  }

  /** `middleware(request)`, with the root domain read from the environment passed in. */
  function Route(req: Request, appDomain: Option<string>): Decision {
    var subdomain := Tenant(req, appDomain);
    if !Truthy(subdomain) then Next
    else if StartsWith(req.pathname, "/api") then Next
    else if StartsWith(req.pathname, "/dashboard") then
      Rewrite(req.pathname, SetParam(req.query, "subdomain", subdomain.value))
    else Rewrite("/menu", SetParam(req.query, "subdomain", subdomain.value))
  }

  /** A rewrite always carries the tenant, as the only `subdomain` value, and keeps every other parameter. */
  predicate CarriesTenant(d: Decision, query: seq<Param>, tenant: string) {
    d.Rewrite?
    && GetParam(d.query, "subdomain") == Some(tenant)
    && Values(d.query, "subdomain") == [tenant]
    && WithoutName(d.query, "subdomain") == WithoutName(query, "subdomain")
  }

  lemma TenantQuery(query: seq<Param>, tenant: string)
    ensures var q := SetParam(query, "subdomain", tenant);
      && GetParam(q, "subdomain") == Some(tenant)
      && Values(q, "subdomain") == [tenant]
      && WithoutName(q, "subdomain") == WithoutName(query, "subdomain")
  {
    SetParamGet(query, "subdomain", tenant);
    SetParamSingle(query, "subdomain", tenant);
    SetParamKeepsOthers(query, "subdomain", tenant);
  }

  /**
   * The four outcomes: no tenant (absent or "") lets the request through; so
   * does an "/api" prefix, tested before "/dashboard"; a dashboard path keeps
   * its path; every other path is rewritten to "/menu".
   */
  lemma RouteCases(req: Request, appDomain: Option<string>)
    ensures var t := Tenant(req, appDomain);
      var d := Route(req, appDomain);
      && (!Truthy(t) ==> d == Next)
      && (Truthy(t) && StartsWith(req.pathname, "/api") ==> d == Next)
      && (Truthy(t) && !StartsWith(req.pathname, "/api") ==> CarriesTenant(d, req.query, t.value))
      && (Truthy(t) && !StartsWith(req.pathname, "/api") && StartsWith(req.pathname, "/dashboard")
          ==> d.pathname == req.pathname)
      && (Truthy(t) && !StartsWith(req.pathname, "/api") && !StartsWith(req.pathname, "/dashboard")
          ==> d.pathname == "/menu")
  {
    var t := Tenant(req, appDomain);
    if Truthy(t) {
      TenantQuery(req.query, t.value);
    }
  }

  /** "localhost:3000" names no tenant, whatever the root domain is. */
  lemma DefaultHostHasNoTenant(mainDomain: string)
    ensures ExtractSubdomain(DefaultHost, mainDomain) == None
  {
    assert DefaultHost == "localhost" + ":3000";
    BeforeFirstAppend("localhost", ':', ":3000");
  }

  /** Without a Host header (or with an empty one) every request goes through unchanged. */
  lemma MissingHostPassesThrough(req: Request, appDomain: Option<string>)
    requires !Truthy(req.host)
    ensures Route(req, appDomain) == Next
  {
    DefaultHostHasNoTenant(RootDomain(appDomain));
  }

  /**
   * End to end: a request for `<s>.<domain>` (any port) on a site whose root
   * domain is `<domain>` (any port) reaches the menu page of tenant `s`,
   * unless it is an API or dashboard path.
   */
  lemma TenantReachesMenu(s: string, domain: string, port: string, mainPort: string,
                          path: string, query: seq<Param>)
    requires ValidateSubdomain(s) && s != "www"
    requires domain != "" && ':' !in domain && !EndsWith(domain, ".localhost")
    requires s + "." + domain != "127.0.0.1"
    requires port == [] || port[0] == ':'
    requires mainPort == [] || mainPort[0] == ':'
    requires !StartsWith(path, "/api") && !StartsWith(path, "/dashboard")
    ensures Route(Request(Some(s + "." + domain + port), path, query), Some(domain + mainPort))
         == Rewrite("/menu", SetParam(query, "subdomain", s))
  {
    ExtractSubdomainRoundTrip(s, domain, port, mainPort);
    ValidateSubdomainMeans(s);
    var host := s + "." + domain + port;
    assert host[0] == s[0];
    assert (domain + mainPort)[0] == domain[0];
  }
}
