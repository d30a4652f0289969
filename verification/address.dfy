/**
 * Which tenant a request is for. A host equal to one of the main-site hosts
 * is the platform's own homepage; a host that contains one of them is a
 * subdomain tenant; anything else is a custom domain, tried exactly first
 * and then with `www.` removed or added.
 *
 * The blog table is a sequence of `Blog` rows; `Blog.objects.get` and
 * `get_object_or_404` become `Single`, which tells no match, one match and
 * several matches apart.
 */
module Address {
  import opened Wrappers
  import opened Text
  import opened Records

  /** What a lookup that expects one row finds. */
  datatype Lookup = NoMatch | OneMatch(blog: Blog) | ManyMatches

  function Single(rows: seq<Blog>): (r: Lookup)
    ensures r.NoMatch? <==> forall b :: b !in rows
    ensures r.OneMatch? ==> r.blog in rows && forall b :: b in rows ==> b == r.blog
    ensures r.ManyMatches? <==> |rows| > 1
    ensures |rows| == 1 ==> r == OneMatch(rows[0])
  {
    if |rows| == 0 then NoMatch
    else
      assert rows[0] in rows;
      if |rows| == 1 then OneMatch(rows[0]) else ManyMatches
  }

  /** `subdomain__iexact=sub`, plus `user__is_active=True` unless bypassed. */
  function SubdomainRows(blogs: seq<Blog>, sub: string, bypass: bool): (r: seq<Blog>)
    ensures forall b :: b in r <==> b in blogs && EqualsIgnoreCase(b.subdomain, sub) && (bypass || b.ownerActive)
    decreases |blogs|
  {
    if |blogs| == 0 then []
    else
      var b := blogs[0];
      (if EqualsIgnoreCase(b.subdomain, sub) && (bypass || b.ownerActive) then [b] else [])
        + SubdomainRows(blogs[1..], sub, bypass)
  }

  /** `domain=d, user__is_active=True`: the exact lookup. */
  function DomainRows(blogs: seq<Blog>, d: string): (r: seq<Blog>)
    ensures forall b :: b in r <==> b in blogs && b.domain == d && b.ownerActive
    decreases |blogs|
  {
    if |blogs| == 0 then []
    else (if blogs[0].domain == d && blogs[0].ownerActive then [blogs[0]] else [])
         + DomainRows(blogs[1..], d)
  }

  /** `domain__iexact=d, user__is_active=True`: the retry. */
  function DomainRowsIgnoreCase(blogs: seq<Blog>, d: string): (r: seq<Blog>)
    ensures forall b :: b in r <==> b in blogs && EqualsIgnoreCase(b.domain, d) && b.ownerActive
    decreases |blogs|
  {
    if |blogs| == 0 then []
    else (if EqualsIgnoreCase(blogs[0].domain, d) && blogs[0].ownerActive then [blogs[0]] else [])
         + DomainRowsIgnoreCase(blogs[1..], d)
  }

  /** How a request's host was resolved. */
  datatype Resolved =
    | Homepage           // `None`: the platform's landing page
    | NoDomain           // `False`: an empty custom domain
    | Tenant(blog: Blog)
    | TenantNotFound     // `get_object_or_404` raised Http404
    | TenantAmbiguous    // `get` raised MultipleObjectsReturned

  function FromLookup(l: Lookup): (r: Resolved)
    ensures r.Tenant? <==> l.OneMatch?
    ensures r.Tenant? ==> r.blog == l.blog
  {
    match l
    case NoMatch => TenantNotFound
    case OneMatch(b) => Tenant(b)
    case ManyMatches => TenantAmbiguous
  }

  const WwwPrefix := "www."

  /** The custom-domain retry target: every `www.` removed when there is
      one, `www.` put in front otherwise. */
  function WwwVariant(d: string): (r: string)
    ensures Contains(d, WwwPrefix) ==> r == ReplaceAll(d, WwwPrefix, "")
    ensures !Contains(d, WwwPrefix) ==> r == WwwPrefix + d
  {
    if Contains(d, WwwPrefix) then ReplaceAll(d, WwwPrefix, "") else WwwPrefix + d
  }

  /** The retry target is its own inverse on a host with no `www.` in it:
      adding the prefix and removing it again gives the host back. */
  lemma WwwVariantInvolution(d: string)
    requires !Contains(d, WwwPrefix)
    ensures WwwVariant(d) == WwwPrefix + d
    ensures WwwVariant(WwwVariant(d)) == d
  {
    assert OccursAt(WwwPrefix + d, WwwPrefix, 0);
    ReplaceLeading(WwwPrefix, d);
  }

  /** What the case-insensitive retry decides once the exact lookup found
      nothing: no row is not-found, one row is that tenant, several raise. */
  predicate RetryOutcome(blogs: seq<Blog>, d: string, r: Resolved) {
    var rows := DomainRowsIgnoreCase(blogs, WwwVariant(d));
    && (|rows| == 0 ==> r == TenantNotFound)
    && (|rows| == 1 ==> r == Tenant(rows[0]))
    && (|rows| > 1 ==> r == TenantAmbiguous)
  }

  /** `get_blog_with_domain`. */
  function BlogWithDomain(blogs: seq<Blog>, d: string): (r: Resolved)
    ensures d == "" <==> r == NoDomain
    ensures r != Homepage
    ensures r.Tenant? ==> r.blog in blogs && r.blog.ownerActive
    ensures r.Tenant? ==> r.blog.domain == d || EqualsIgnoreCase(r.blog.domain, WwwVariant(d))
    ensures d != "" && |DomainRows(blogs, d)| == 1 ==> r == Tenant(DomainRows(blogs, d)[0])
    ensures d != "" && |DomainRows(blogs, d)| > 1 ==> r == TenantAmbiguous
    ensures d != "" && |DomainRows(blogs, d)| == 0 ==> RetryOutcome(blogs, d, r)
  {
    if d == "" then NoDomain
    else
      match Single(DomainRows(blogs, d))
      case OneMatch(b) => assert b in DomainRows(blogs, d); Tenant(b)
      case ManyMatches => TenantAmbiguous
      case NoMatch =>
        var rows := DomainRowsIgnoreCase(blogs, WwwVariant(d));
        if |rows| == 1 then assert rows[0] in rows; Tenant(rows[0])
        else FromLookup(Single(rows))
  }

  /** What `resolve_address` reads from the request and the environment.
      `tld` is `tldextract.extract(host).subdomain`. */
  datatype Request = Request(
    host: string,
    mainSiteHosts: string,
    passportCookie: Option<string>,
    adminPassport: Option<string>)

  /** `request.COOKIES.get('admin_passport') == os.getenv('ADMIN_PASSPORT')`:
      two absent values compare equal. */
  predicate Bypass(req: Request) {
    req.passportCookie == req.adminPassport
  }

  /** `resolve_address`. */
  function ResolveAddress(blogs: seq<Blog>, req: Request, tld: string -> string): (r: Resolved)
    ensures req.host in Split(req.mainSiteHosts, ',') ==> r == Homepage
    ensures r == Homepage ==> req.host in Split(req.mainSiteHosts, ',')
    ensures r.Tenant? ==> r.blog in blogs
    ensures r.Tenant? && !Bypass(req) ==> r.blog.ownerActive
  {
    var sites := Split(req.mainSiteHosts, ',');
    if req.host in sites then Homepage
    else if exists i :: 0 <= i < |sites| && Contains(req.host, sites[i]) then
      var rows := SubdomainRows(blogs, tld(req.host), Bypass(req));
      if |rows| == 1 then assert rows[0] in rows; Tenant(rows[0])
      else FromLookup(Single(rows))
    else BlogWithDomain(blogs, req.host)
  }

  /** The route a host takes, in the order the view tests them. */
  datatype Route = HomeRoute | SubdomainRoute | CustomDomainRoute

  function RouteOf(host: string, sites: seq<string>): Route {
    if host in sites then HomeRoute
    else if exists i :: 0 <= i < |sites| && Contains(host, sites[i]) then SubdomainRoute
    else CustomDomainRoute
  }

  /** The resolution follows the route: equality with a main host first,
      containment next, the custom-domain lookup last. */
  lemma ResolveFollowsRoute(blogs: seq<Blog>, req: Request, tld: string -> string)
    ensures var route := RouteOf(req.host, Split(req.mainSiteHosts, ','));
      var r := ResolveAddress(blogs, req, tld);
      && (route == HomeRoute <==> r == Homepage)
      && (route == SubdomainRoute ==>
            r == FromLookup(Single(SubdomainRows(blogs, tld(req.host), Bypass(req)))))
      && (route == CustomDomainRoute ==> r == BlogWithDomain(blogs, req.host))
  {
  }

  /** A subdomain tenant is found whatever the case of the host, and only
      for an active owner unless the passport matches. */
  lemma SubdomainTenant(blogs: seq<Blog>, req: Request, tld: string -> string)
    requires RouteOf(req.host, Split(req.mainSiteHosts, ',')) == SubdomainRoute
    ensures ResolveAddress(blogs, req, tld).Tenant? ==>
      var b := ResolveAddress(blogs, req, tld).blog;
      EqualsIgnoreCase(b.subdomain, tld(req.host)) && (b.ownerActive || Bypass(req))
  {
    var rows := SubdomainRows(blogs, tld(req.host), Bypass(req));
    if |rows| == 1 {
      assert rows[0] in rows;
    }
  }

  /** With no passport configured and no cookie sent, the owner check is
      skipped: an inactive owner's blog is served. */
  lemma UnsetPassportBypasses(b: Blog, host: string, sites: string, tld: string -> string)
    requires !b.ownerActive
    requires RouteOf(host, Split(sites, ',')) == SubdomainRoute
    requires EqualsIgnoreCase(b.subdomain, tld(host))
    ensures ResolveAddress([b], Request(host, sites, None, None), tld) == Tenant(b)
  {
    assert SubdomainRows([b], tld(host), true) == [b] by {
      assert [b][1..] == [];
    }
  }

  /** The retry with `www.` added: a bare custom domain reaches the blog
      registered under its `www.` form, in any case. */
  lemma BareDomainFindsWww(blogs: seq<Blog>, d: string, b: Blog)
    requires d != "" && !Contains(d, WwwPrefix)
    requires |DomainRows(blogs, d)| == 0
    requires DomainRowsIgnoreCase(blogs, WwwPrefix + d) == [b]
    ensures BlogWithDomain(blogs, d) == Tenant(b)
  {
  }

  /** The retry with `www.` removed: `www.example.com` reaches the blog
      registered as `example.com`. */
  lemma WwwDomainFindsBare(blogs: seq<Blog>, d: string, b: Blog)
    requires d != "" && !Contains(d, WwwPrefix)
    requires |DomainRows(blogs, WwwPrefix + d)| == 0
    requires DomainRowsIgnoreCase(blogs, d) == [b]
    ensures BlogWithDomain(blogs, WwwPrefix + d) == Tenant(b)
  {
    ReplaceLeading(WwwPrefix, d);
    assert OccursAt(WwwPrefix + d, WwwPrefix, 0);
  }

  lemma ExampleHasNoWww()
    ensures !Contains("example.com", WwwPrefix)
  {
    assert 'w' !in "example.com";
    AbsentFirstChar("example.com", WwwPrefix);
  }

  /** The registered domains in the scenario: `www.example.com` requested,
      only `example.com` registered, resolves to that blog. */
  lemma WwwExampleScenario(b: Blog)
    requires b.domain == "example.com" && b.ownerActive
    ensures BlogWithDomain([b], "www.example.com") == Tenant(b)
  {
    var d := "example.com";
    assert "www.example.com" == WwwPrefix + d;
    ExampleHasNoWww();
    assert [b][1..] == [];
    assert b.domain != "www.example.com";
    assert DomainRows([b], WwwPrefix + d) == [];
    assert EqualsIgnoreCase(b.domain, d);
    assert DomainRowsIgnoreCase([b], d) == [b];
    WwwDomainFindsBare([b], d, b);
  }
}
