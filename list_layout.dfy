/**
 * The tag-filtered, paginated post list page: heading, sidebar with the
 * "All Posts" entry and the sorted tags, one card per displayed post, and
 * the pagination control when there is more than one page. The current
 * path and the slug function are parameters.
 */
module ListLayout {
  import opened Wrappers
  import opened Text
  import opened Content
  import opened Pagination
  import opened TagSidebar

  /** The number of tag badges a list card shows at most. */
  const MAX_CARD_TAGS := 4

  /** The pagination state the caller may pass. */
  datatype PaginationProps = PaginationProps(totalPages: int, currentPage: int)

  /** The sidebar's "All Posts" entry. */
  datatype AllPostsEntry = AllPostsHeading | AllPostsLink(href: string)

  /** What the layout renders, reduced to what its logic decides. */
  datatype ListLayoutView = ListLayoutView(
    title: string,
    allPosts: AllPostsEntry,
    sidebar: seq<SidebarItem>,
    cards: seq<Card>,
    pagination: Option<seq<NavItem>>)

  /** `tags.slice(0, 4)`: the leading tags, at most four of them. */
  function CappedTags(tags: seq<string>): (shown: seq<string>)
    ensures |shown| == if |tags| < MAX_CARD_TAGS then |tags| else MAX_CARD_TAGS
    ensures shown <= tags
  {
    tags[..if |tags| < MAX_CARD_TAGS then |tags| else MAX_CARD_TAGS]
  }

  /** The card of a post in the list: links to `/{path}`, at most four tags. */
  function ListCard(post: Post): Card
  {
    PostCard(post, "/" + post.path, CappedTags(post.tags))
  }

  /** The posts to list: the override list when it is non-empty, otherwise all posts. */
  function DisplayPosts(initialDisplayPosts: seq<Post>, posts: seq<Post>): seq<Post>
  {
    if |initialDisplayPosts| > 0 then initialDisplayPosts else posts
  }

  /** A heading on the blog pages (paths starting with `/blog`), elsewhere a link to `/blog`. */
  function AllPostsEntryFor(pathname: string): AllPostsEntry
  {
    if StartsWith(pathname, "/blog") then AllPostsHeading else AllPostsLink("/blog")
  }

  /** `pagination && pagination.totalPages > 1 && <Pagination .../>`. */
  function PaginationBlock(pathname: string, pagination: Option<PaginationProps>): Option<seq<NavItem>>
  {
    match pagination
    case Some(p) =>
      if p.totalPages > 1 then Some(RenderPagination(pathname, p.totalPages, p.currentPage)) else None
    case None => None
  }

  /** The whole layout. `initialDisplayPosts` is `[]` when the caller leaves it out. */
  function ListLayoutWithTags(
    pathname: string,
    slug: string -> string,
    tagTable: seq<TagCount>,
    posts: seq<Post>,
    title: string,
    initialDisplayPosts: seq<Post>,
    pagination: Option<PaginationProps>): ListLayoutView
  {
    var displayPosts := DisplayPosts(initialDisplayPosts, posts);
    ListLayoutView(
      title,
      AllPostsEntryFor(pathname),
      Sidebar(pathname, slug, tagTable),
      seq(|displayPosts|, i requires 0 <= i < |displayPosts| => ListCard(displayPosts[i])),
      PaginationBlock(pathname, pagination))
  }

  /**
   * One card per listed post, in order; the listed posts are the override
   * list when it is non-empty and all posts otherwise. Each card shows the
   * post's first `min(4, |tags|)` tags, and its title and "Read more" both
   * link to `/{path}`. Its image is the post's first image (`undefined` for
   * a post without images), and its date, summary and accessible labels
   * are the post's.
   */
  lemma ListedCards(
    pathname: string, slug: string -> string, tagTable: seq<TagCount>, posts: seq<Post>,
    title: string, initialDisplayPosts: seq<Post>, pagination: Option<PaginationProps>)
    ensures var view := ListLayoutWithTags(pathname, slug, tagTable, posts, title, initialDisplayPosts, pagination);
      var shown := if |initialDisplayPosts| > 0 then initialDisplayPosts else posts;
      && |view.cards| == |shown|
      && forall i :: 0 <= i < |shown| ==>
        && view.cards[i].title == shown[i].title
        && view.cards[i].thumbnail == (if |shown[i].images| > 0 then Some(shown[i].images[0]) else None)
        && view.cards[i].thumbnailAlt == "Image for " + shown[i].title
        && view.cards[i].dateTime == shown[i].date
        && view.cards[i].summary == shown[i].summary
        && view.cards[i].readMoreLabel == "Read \"" + shown[i].title + "\""
        && view.cards[i].titleHref == "/" + shown[i].path
        && view.cards[i].readMoreHref == "/" + shown[i].path
        && view.cards[i].tags <= shown[i].tags
        && |view.cards[i].tags| == (if |shown[i].tags| < 4 then |shown[i].tags| else 4)
  {
  }

  /**
   * The pagination control appears exactly when pagination is supplied with
   * more than one page, and then shows "{currentPage} of {totalPages}".
   */
  lemma PaginationShownWhenSeveralPages(
    pathname: string, slug: string -> string, tagTable: seq<TagCount>, posts: seq<Post>,
    title: string, initialDisplayPosts: seq<Post>, pagination: Option<PaginationProps>)
    ensures var view := ListLayoutWithTags(pathname, slug, tagTable, posts, title, initialDisplayPosts, pagination);
      && (view.pagination.Some? <==> pagination.Some? && pagination.value.totalPages > 1)
      && (view.pagination.Some? ==>
            view.pagination.value[1] == PageStatus(
              IntToString(pagination.value.currentPage) + " of " + IntToString(pagination.value.totalPages)))
  {
  }

  /** "All Posts" is a heading exactly when the path starts with `/blog`, otherwise a link to `/blog`. */
  lemma AllPostsHeadingOnBlogPaths(
    pathname: string, slug: string -> string, tagTable: seq<TagCount>, posts: seq<Post>,
    title: string, initialDisplayPosts: seq<Post>, pagination: Option<PaginationProps>)
    ensures var view := ListLayoutWithTags(pathname, slug, tagTable, posts, title, initialDisplayPosts, pagination);
      && (view.allPosts.AllPostsHeading? <==> |pathname| >= 5 && pathname[..5] == "/blog")
      && (view.allPosts.AllPostsLink? ==> view.allPosts.href == "/blog")
  {
  }
}
