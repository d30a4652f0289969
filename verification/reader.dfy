/**
 * The reader-facing views of a tenant: the post page, with its path
 * clean-up, the order in which a path is tried (feed alias, slug, post
 * alias, listing path), and the token gate on drafts; and the listing,
 * filtered by tags and tools.
 */
module Reader {
  import opened Wrappers
  import opened Text
  import opened Records
  import opened Address

  /** Python's `s[1:-1]`: empty for a string of one character. */
  function Inner(s: string): (r: string)
    ensures |s| >= 2 ==> r == s[1..|s| - 1]
    ensures |s| < 2 ==> r == ""
  {
    if |s| >= 2 then s[1..|s| - 1] else ""
  }

  /** `slug.replace('\x00', '')`, then one `/` off each end when the path
      both starts and ends with one. An empty path raises `IndexError` at
      `slug[0]`. */
  function NormalisePath(path: string): (r: Option<string>)
    ensures r.None? <==> Without(path, '\0') == ""
    ensures r.Some? ==> '\0' !in r.value && |r.value| <= |path|
    ensures r.Some? ==>
      var s := Without(path, '\0');
      if s[0] == '/' && s[|s| - 1] == '/' then r.value == Inner(s) else r.value == s
  {
    var s := Without(path, '\0');
    if s == "" then None
    else if s[0] == '/' && s[|s| - 1] == '/' then
      assert forall c :: c in Inner(s) ==> c in s;
      Some(Inner(s))
    else Some(s)
  }

  /** A slug wrapped in one pair of slashes comes back as itself. */
  lemma NormaliseWrapped(slug: string)
    requires '\0' !in slug
    ensures NormalisePath("/" + slug + "/") == Some(slug)
  {
    var s := "/" + slug + "/";
    assert '\0' !in s;
    assert s[1..|s| - 1] == slug;
  }

  /** Only one pair of slashes is removed: `//a//` becomes `/a/`, so the
      clean-up is not idempotent; a lone `/` becomes the empty path. */
  lemma NormaliseOnePairOnly()
    ensures NormalisePath("//a//") == Some("/a/")
    ensures NormalisePath("/a/") == Some("a")
    ensures NormalisePath("/") == Some("")
  {
    assert '\0' !in "//a//" && Without("//a//", '\0') == "//a//";
    assert Inner("//a//") == "/a/";
    assert '\0' !in "/a/" && Without("/a/", '\0') == "/a/";
    assert Inner("/a/") == "a";
    assert '\0' !in "/" && Without("/", '\0') == "/";
  }

  /** A path with a slash at one end only keeps it. */
  lemma NormaliseOneSided(slug: string)
    requires '\0' !in slug && slug != "" && slug[|slug| - 1] != '/'
    ensures NormalisePath("/" + slug) == Some("/" + slug)
  {
    var s := "/" + slug;
    assert '\0' !in s;
    assert Without(s, '\0') == s;
    assert s[|s| - 1] == slug[|slug| - 1];
  }

  // ---------------------------------------------------------------- post page

  /** The response of the post view. */
  datatype PostPage =
    | PathCrash              // IndexError on an empty path
    | NoTenant               // `not_found`: no blog for the host
    | TenantMissing          // Http404 from the tenant lookup
    | TenantCrash            // MultipleObjectsReturned from the tenant lookup
    | Feed
    | ShowPost(post: Post)
    | RedirectToSlug(slug: string)
    | Listing
    | PageNotFound

  /** The first post whose slug matches the path, ignoring case. */
  function FirstBySlug(posts: seq<Post>, slug: string): (r: Option<Post>)
    ensures r.Some? ==> r.value in posts && EqualsIgnoreCase(r.value.slug, slug)
    ensures r.None? <==> forall i :: 0 <= i < |posts| ==> !EqualsIgnoreCase(posts[i].slug, slug)
    decreases |posts|
  {
    if |posts| == 0 then None
    else if EqualsIgnoreCase(posts[0].slug, slug) then Some(posts[0])
    else
      assert forall i :: 1 <= i < |posts| ==> posts[i] == posts[1..][i - 1];
      FirstBySlug(posts[1..], slug)
  }

  /** The first post whose alias matches the path, ignoring case. */
  function FirstByAlias(posts: seq<Post>, slug: string): (r: Option<Post>)
    ensures r.Some? ==> r.value in posts && EqualsIgnoreCase(r.value.alias, slug)
    ensures r.None? <==> forall i :: 0 <= i < |posts| ==> !EqualsIgnoreCase(posts[i].alias, slug)
    decreases |posts|
  {
    if |posts| == 0 then None
    else if EqualsIgnoreCase(posts[0].alias, slug) then Some(posts[0])
    else
      assert forall i :: 1 <= i < |posts| ==> posts[i] == posts[1..][i - 1];
      FirstByAlias(posts[1..], slug)
  }

  /** A draft is shown only to a request whose `token` matches the post's. */
  predicate Visible(p: Post, token: Option<string>) {
    p.publish || token == Some(p.token)
  }

  /** The post view, from the tenant lookup's result and the tenant's posts. */
  function PostView(resolved: Resolved, posts: seq<Post>, path: string, token: Option<string>): (r: PostPage)
    ensures r.ShowPost? ==> r.post in posts && Visible(r.post, token)
    ensures r.ShowPost? ==>
      NormalisePath(path).Some? && EqualsIgnoreCase(r.post.slug, NormalisePath(path).value)
    ensures r.RedirectToSlug? ==>
      && NormalisePath(path).Some?
      && FirstBySlug(posts, NormalisePath(path).value).None?
      && FirstByAlias(posts, NormalisePath(path).value).Some?
      && r.slug == FirstByAlias(posts, NormalisePath(path).value).value.slug
    ensures r.Listing? ==>
      && resolved.Tenant?
      && NormalisePath(path).Some?
      && (NormalisePath(path).value == resolved.blog.blogPath || NormalisePath(path).value == "blog")
      && FirstBySlug(posts, NormalisePath(path).value).None?
      && FirstByAlias(posts, NormalisePath(path).value).None?
    ensures r == PathCrash <==> NormalisePath(path).None?
    ensures r == NoTenant <==> NormalisePath(path).Some? && (resolved.Homepage? || resolved.NoDomain?)
    ensures r == TenantMissing <==> NormalisePath(path).Some? && resolved.TenantNotFound?
    ensures r == TenantCrash <==> NormalisePath(path).Some? && resolved.TenantAmbiguous?
    ensures r.ShowPost? || r.RedirectToSlug? || r.Listing? || r == PageNotFound ==> resolved.Tenant?
    ensures r.Feed? <==> resolved.Tenant? && NormalisePath(path) == Some(resolved.blog.rssAlias)
    ensures resolved.Tenant? && NormalisePath(path).Some? ==>
      var v := NormalisePath(path).value;
      v != resolved.blog.rssAlias && FirstBySlug(posts, v).None? && FirstByAlias(posts, v).None? ==>
        r == (if v == resolved.blog.blogPath || v == "blog" then Listing else PageNotFound)
  {
    match NormalisePath(path)
    case None => PathCrash
    case Some(slug) =>
      match resolved
      case Homepage => NoTenant
      case NoDomain => NoTenant
      case TenantNotFound => TenantMissing
      case TenantAmbiguous => TenantCrash
      case Tenant(blog) =>
        if slug == blog.rssAlias then Feed
        else match FirstBySlug(posts, slug)
          case Some(p) => if Visible(p, token) then ShowPost(p) else PageNotFound
          case None =>
            match FirstByAlias(posts, slug)
            case Some(p) => RedirectToSlug(p.slug)
            case None => if slug == blog.blogPath || slug == "blog" then Listing else PageNotFound
  }

  /** A published post is found by its slug in any case, unless the feed
      alias or an earlier post claims the path. */
  lemma PublishedPostShown(blog: Blog, posts: seq<Post>, p: Post, path: string, token: Option<string>)
    requires p.publish
    requires NormalisePath(path).Some? && NormalisePath(path).value != blog.rssAlias
    requires FirstBySlug(posts, NormalisePath(path).value) == Some(p)
    ensures PostView(Tenant(blog), posts, path, token) == ShowPost(p)
  {
  }

  /** A draft is hidden unless the token matches, and the alias and listing
      routes are not tried for it. */
  lemma DraftNeedsToken(blog: Blog, posts: seq<Post>, p: Post, path: string, token: Option<string>)
    requires !p.publish
    requires NormalisePath(path).Some? && NormalisePath(path).value != blog.rssAlias
    requires FirstBySlug(posts, NormalisePath(path).value) == Some(p)
    ensures PostView(Tenant(blog), posts, path, token) ==
      (if token == Some(p.token) then ShowPost(p) else PageNotFound)
  {
  }

  /** The alias route redirects whether or not the aliased post is published. */
  lemma AliasIgnoresPublication(blog: Blog, posts: seq<Post>, p: Post, path: string)
    requires NormalisePath(path).Some? && NormalisePath(path).value != blog.rssAlias
    requires FirstBySlug(posts, NormalisePath(path).value).None?
    requires FirstByAlias(posts, NormalisePath(path).value) == Some(p)
    ensures PostView(Tenant(blog), posts, path, None) == RedirectToSlug(p.slug)
  {
  }

  // ---------------------------------------------------------------- listing

  /** `[t.strip() for t in param.split(',')] if param else []`, empty
      entries dropped. */
  function FilterTerms(param: string): (r: seq<string>)
    ensures forall i :: 0 <= i < |r| ==> r[i] != "" && Strip(r[i]) == r[i]
    ensures param == "" ==> r == []
    ensures param != "" ==> r == Cleaned(Split(param, ','))
  {
    if param == "" then []
    else
      CleanedSpec(Split(param, ','));
      CommaList(param)
  }

  /** `publish=True, published_date__lte=now, is_page=False`. */
  predicate Listed(p: Post, now: int) {
    p.publish && p.publishedDate.Some? && p.publishedDate.value <= now && !p.isPage
  }

  /** Every requested tag and every requested tool is on the post. */
  predicate Matches(p: Post, tags: seq<string>, tools: seq<string>) {
    (forall t :: t in tags ==> t in p.tags) && (forall t :: t in tools ==> t in p.tools)
  }

  /** The listing: the listed posts in the order given (the query's
      `-published_date` order), narrowed to those that match. */
  function FilterPosts(posts: seq<Post>, now: int, tags: seq<string>, tools: seq<string>): (r: seq<Post>)
    ensures forall p :: p in r <==> p in posts && Listed(p, now) && Matches(p, tags, tools)
    ensures |r| <= |posts|
    decreases |posts|
  {
    if |posts| == 0 then []
    else
      assert forall p :: p in posts[1..] ==> p in posts;
      (if Listed(posts[0], now) && Matches(posts[0], tags, tools) then [posts[0]] else [])
        + FilterPosts(posts[1..], now, tags, tools)
  }

  /** The filter keeps the posts' order: filtering a concatenation is
      concatenating the filtered parts. */
  lemma {:induction false} FilterPreservesOrder(a: seq<Post>, b: seq<Post>, now: int,
                                                tags: seq<string>, tools: seq<string>)
    ensures FilterPosts(a + b, now, tags, tools) == FilterPosts(a, now, tags, tools) + FilterPosts(b, now, tags, tools)
    decreases |a|
  {
    if |a| == 0 {
      assert a + b == b;
    } else {
      assert (a + b)[0] == a[0];
      assert (a + b)[1..] == a[1..] + b;
      FilterPreservesOrder(a[1..], b, now, tags, tools);
    }
  }

  /** Without a query every listed post is shown. */
  lemma NoQueryShowsAll(posts: seq<Post>, now: int)
    ensures forall p :: p in FilterPosts(posts, now, FilterTerms(""), FilterTerms("")) <==>
      p in posts && Listed(p, now)
  {
  }

  /** Asking for one more tag can only narrow the listing. */
  lemma {:induction false} MoreTagsNarrow(posts: seq<Post>, now: int, tags: seq<string>,
                                         t: string, tools: seq<string>)
    ensures forall p :: p in FilterPosts(posts, now, tags + [t], tools) ==>
      p in FilterPosts(posts, now, tags, tools) && t in p.tags
  {
    forall p | p in FilterPosts(posts, now, tags + [t], tools)
      ensures p in FilterPosts(posts, now, tags, tools) && t in p.tags
    {
      assert t in tags + [t];
      forall x | x in tags ensures x in p.tags {
        assert x in tags + [t];
      }
    }
  }

  /** The listing view: terms parsed from the `q` and `tool` parameters. */
  function ListingView(posts: seq<Post>, now: int, q: string, tool: string): (r: seq<Post>)
    ensures forall p :: p in r <==>
      p in posts && Listed(p, now) && Matches(p, FilterTerms(q), FilterTerms(tool))
  {
    FilterPosts(posts, now, FilterTerms(q), FilterTerms(tool))
  }
}
