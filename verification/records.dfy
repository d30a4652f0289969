/**
 * The stored rows the views read and write, reduced to the columns the
 * modelled code reads or decides; the `last_modified` stamps it writes are
 * left out. Timestamps are integers (seconds, UTC); JSON-encoded
 * columns (`all_tags`, `all_tools`) are held decoded, as sequences of strings.
 */
module Records {
  import opened Wrappers

  /** A `Post` row. `pk` is `None` until the row is first saved. */
  datatype Post = Post(
    pk: Option<nat>,
    uid: string,
    title: string,
    slug: string,
    alias: string,
    className: string,
    canonicalUrl: string,
    metaDescription: string,
    metaImage: string,
    shortDescription: string,
    isPage: bool,
    makeDiscoverable: bool,
    lang: string,
    tags: seq<string>,
    tools: seq<string>,
    githubUrl: string,
    commentsEnabled: bool,
    mediaUrls: seq<string>,
    publishedDate: Option<int>,
    content: string,
    publish: bool,
    token: string,
    isTemplateDraft: bool
  )

  /** A `Blog` row (the tenant), with its owner's `is_active` flag folded in. */
  datatype Blog = Blog(
    pk: nat,
    title: string,
    subdomain: string,
    domain: string,
    ownerActive: bool,
    favicon: string,
    metaDescription: string,
    metaImage: string,
    content: string,
    postTemplate: string,
    rssAlias: string,
    blogPath: string
  )

  /** `Post(blog=blog)`: an unsaved post with empty columns. */
  const NewPost: Post := Post(
    None, "", "", "", "", "", "", "", "", "", false, true, "", [], [], "",
    true, [], None, "", false, "", false)
}
