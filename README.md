# Blog listing views, modelled in Dafny

This project models the decision logic of the two listing views of a
Next.js blog: the home page (`app/Main.tsx`, component `Home`) and the
tag-filtered, paginated post list (`layouts/ListLayoutWithTags.tsx`,
components `ListLayoutWithTags` and `Pagination`). Both components are
pure rendering functions. Each is modelled as a Dafny function from its
inputs to a small view datatype that keeps only what the code decides:

- which cards are shown, with which tags and which link targets;
- which sidebar tags are links and which one is the active heading;
- whether "All Posts" is a heading or a link;
- whether "Previous" and "Next" are disabled buttons or links, and where the
  links lead;
- whether the placeholder, the pagination block and the "All Posts" trailer
  appear.

The current path, which the components read through `usePathname()`, is an
explicit `pathname` parameter. The slug function of `github-slugger` is an
explicit parameter `slug: string -> string`, so nothing is assumed about it.
The tag-count table (`app/tag-data.json`) is a parameter too: a sequence of
`TagCount(tag, count)` entries in the table's key order.

Modules, one file each:

- `Wrappers` (`wrappers.dfy`): `Option`, used for JavaScript `undefined`.
- `Text` (`text.dfy`): the JavaScript string operations the views use.
  - `String.prototype.split` with a non-empty separator, which gives the
    pieces between the leftmost non-overlapping occurrences.
  - Indexing the split result, where an index past the end is `undefined`.
  - `startsWith`.
  - The decimal text of an integer in a template string.
  - `Join` inverts `Split`, and `ParseInt` inverts `IntToString`.
- `Content` (`content.dfy`): the post record and the post card that both
  views render.
- `Pagination` (`pagination.dfy`): the `Pagination` component.
  - Its partner is `ParseListHref`, which reads list URLs by the routing
    convention. Page 1 is the bare `/{base}/`, and every other page `n` is
    `/{base}/page/{n}`.
- `TagSidebar` (`tag_sidebar.dfy`): the stable sort of the tag table by
  descending count, and the active-tag test.
- `ListLayout` (`list_layout.dfy`): the `ListLayoutWithTags` component.
- `Home` (`home.dfy`): the `Home` component.

Two choices of the code that the model keeps as they are:

- Tags with equal counts keep the table's key order, because
  `Array.prototype.sort` is stable. The code has no secondary key.
- The code does not check `1 <= currentPage <= totalPages`, so the
  pagination model is defined for all integers.
  - "Previous" is a link exactly when `currentPage - 1 > 0`.
  - "Next" is a link exactly when `currentPage + 1 <= totalPages`.
  - `PaginationBoundaries` shows that, inside that range, "Previous" is
    disabled exactly on page 1 and "Next" exactly on the last page.

Two consequences of the path handling that the model makes visible:

- The active-tag test compares the whole text after `/tags/` with the slug.
  On a later page of a tag listing, `/tags/{t}/page/{n}`, that text still
  ends in `/page/{n}`. So no tag is highlighted there, as long as slugs
  contain no `/` (`PagedTagPageHighlightsNothing`).
- The pagination base is the first path segment only. On any tag listing,
  `/tags/...`, the base is `tags`, so "Next" leads to `/tags/page/{n}`,
  which does not name the tag (`TagListingBaseIsTags`). "The base taken from
  the current path" in the pagination lemmas means this first segment, not
  the current listing.

## Model

| member | source | states |
|---|---|---|
| `Text.Split` | layouts/ListLayoutWithTags.tsx:28 | `s.split(sep)` has at least one piece; no piece contains `sep`; every piece but the last ends at the leftmost next `sep` (no `sep` starts inside it); joining the pieces with `sep` gives `s` back |
| `Text.Segment` | layouts/ListLayoutWithTags.tsx:104 | `s.split(sep)[k]` is `undefined` exactly when `k` is past the last piece; a defined piece never contains `sep` |
| `Text.SecondSlashSegment` | layouts/ListLayoutWithTags.tsx:28 | for a path starting with `/`, `split('/')[1]` is defined and is the longest `/`-free run after the leading `/` (it is followed by `/` or the end) |
| `Text.NoSeparatorNoSecondSegment` | layouts/ListLayoutWithTags.tsx:104 | `s.split(sep)[1]` is `undefined` exactly when `sep` does not occur in `s` |
| `Text.SecondSegmentAfterLeadingSeparator` | layouts/ListLayoutWithTags.tsx:104 | for `sep + x` with no `sep` in `x`, `split(sep)[1]` is `x` |
| `Text.ParseIntToString` | layouts/ListLayoutWithTags.tsx:42 | the decimal text interpolated for a page number reads back as that number, for every integer |
| `Pagination.BasePath` | layouts/ListLayoutWithTags.tsx:28 | the base never contains `/`; for a path starting with `/` it is the first path segment: the path is `/` + base, then `/` or the end |
| `Pagination.ParseListHref` | layouts/ListLayoutWithTags.tsx:42 | the routing convention as a reader: `/{base}/` is page 1 and `/{base}/page/{n}` is page n; a parsed base holds no `/` |
| `Pagination.PrevHrefNamesPreviousPage` | layouts/ListLayoutWithTags.tsx:29-47 | when "Previous" is enabled, its target reads back as page `currentPage - 1` under the same base, and it is the bare `/{base}/` exactly when that page is 1 |
| `Pagination.NextHrefNamesNextPage` | layouts/ListLayoutWithTags.tsx:56-60 | the "Next" target reads back as page `currentPage + 1` under the same base and is never the bare `/{base}/` |
| `Pagination.RenderPagination` | layouts/ListLayoutWithTags.tsx:26-64 | the nav has exactly three children: on each side exactly one of a disabled button or a link, with "Previous" a link iff `currentPage - 1 > 0` and "Next" a link iff `currentPage + 1 <= totalPages`, and the text "{currentPage} of {totalPages}" between |
| `Pagination.PaginationLinksLeadToNeighbours` | layouts/ListLayoutWithTags.tsx:40-60 | every link the control renders leads to the neighbouring page under the base taken from the current path |
| `Pagination.TagListingBaseIsTags` | layouts/ListLayoutWithTags.tsx:28 | on any path `/tags/...` the base is `tags`, so the "Next" target is `/tags/page/{currentPage + 1}` |
| `Pagination.PaginationBoundaries` | layouts/ListLayoutWithTags.tsx:29-30 | for `1 <= currentPage <= totalPages`, "Previous" is disabled iff on page 1 and "Next" iff on the last page |
| `TagSidebar.SortByCount` | layouts/ListLayoutWithTags.tsx:73-75 | the sorted tags are a permutation of the table with non-increasing counts, and the entries of each count keep their table order (stability) |
| `TagSidebar.StableOrderIsUnique` | layouts/ListLayoutWithTags.tsx:75 | these three properties determine the order completely: two non-increasing sequences with the same entries per count are equal |
| `TagSidebar.Sidebar` | layouts/ListLayoutWithTags.tsx:101-119 | one sidebar item per tag-table entry |
| `TagSidebar.SidebarItems` | layouts/ListLayoutWithTags.tsx:104-115 | item i shows the i-th sorted tag as "{tag} ({count})"; it is the active heading iff `pathname.split('/tags/')[1]` equals the tag's slug, and otherwise links to `/tags/{slug}` |
| `TagSidebar.NoActiveTagOffTagPages` | layouts/ListLayoutWithTags.tsx:104 | when the path contains no `/tags/`, every tag is a link |
| `TagSidebar.TagPageHighlightsItsTag` | layouts/ListLayoutWithTags.tsx:104-107 | on `/tags/{x}`, the headings are exactly the tags whose slug is `x` |
| `TagSidebar.PagedTagPageHighlightsNothing` | layouts/ListLayoutWithTags.tsx:104 | on `/tags/{x}/page/{n}`, no tag whose slug is free of `/` is the active heading |
| `ListLayout.CappedTags` | layouts/ListLayoutWithTags.tsx:154 | a card's badges are a prefix of the post's tags of length `min(4, tags.length)` |
| `ListLayout.ListedCards` | layouts/ListLayoutWithTags.tsx:125-172 | one card per listed post, in order; the listed posts are `initialDisplayPosts` if non-empty, else `posts`; title and "Read more" link to `/{path}`; at most the first four tags; the image is the post's first image (`undefined` without images), with alt text "Image for {title}"; the date, summary and "Read more" label come from the post |
| `ListLayout.PaginationShownWhenSeveralPages` | layouts/ListLayoutWithTags.tsx:174-176 | the pagination block appears iff `pagination` is given and `totalPages > 1`, and then shows "{currentPage} of {totalPages}" |
| `ListLayout.AllPostsHeadingOnBlogPaths` | layouts/ListLayoutWithTags.tsx:90-99 | "All Posts" is a heading iff the path starts with `/blog`, otherwise a link to `/blog` |
| `Home.HomeShowsRecentPosts` | app/Main.tsx:41-89 | the grid holds exactly `min(posts.length, 5)` cards, those of the first posts in order; each shows all its tags; title and "Read more" link to `/blog/{slug}`; the image is the post's first image (`undefined` without images), with alt text "Image for {title}"; the date, summary and "Read more" label come from the post |
| `Home.HomePlaceholderAndTrailer` | app/Main.tsx:40-103 | a placeholder with the text "No posts found." appears iff there are no posts; the "All Posts" link to `/blog` iff there are more than 5 posts; never both |

## Left out

- Markup, CSS classes, React `key` props and the static intro and heading
  texts: presentation only.
- `next/image` properties (quality, priority, size) and the newsletter form:
  library components whose code is not part of this model. A card keeps the
  image source and its alt text only.
- `formatDate` from pliny: a library call. The card keeps the raw date, which
  is also the `dateTime` attribute. The formatted text is not modelled.
- `Link` and `Tag` components: a link is its target, and a badge is its tag
  text.
- The implementation of `slug` (github-slugger): a foreign library, taken as
  an arbitrary function parameter.
- `usePathname()` and the `'use client'` runtime: replaced by the `pathname`
  parameter.
- The contents of `app/tag-data.json` and `siteMetadata`: external data. The
  tag table comes in as a parameter, already in `Object.keys` order. The rule
  that `Object.keys` lists integer-like keys first is not modelled.
- `line-clamp-2` summary truncation: done by CSS.
- Pagination.RenderPagination: page numbers are integers. JavaScript numbers
  that are fractional, `NaN` or beyond the safe-integer range are not
  modelled, and neither is their decimal text.
