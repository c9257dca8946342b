/**
 * The Previous / "n of m" / Next control of the paginated post list.
 * The current path, which the component reads from the router, is a
 * parameter here.
 */
module Pagination {
  import opened Wrappers
  import opened Text

  /** One child of the pagination `<nav>`. */
  datatype NavItem =
    | DisabledButton(caption: string, disabled: bool)
    | PageLink(href: string, caption: string, rel: string)
    | PageStatus(text: string)

  /** A list page as the blog's routes read it from a URL. */
  datatype ListRoute = ListRoute(base: string, page: int)

  /**
   * `pathname.split('/')[1]` as it lands in a template string: for a path
   * starting with '/', the first path segment; `undefined` when the path
   * holds no '/'.
   */
  function BasePath(pathname: string): (base: string)
    ensures '/' !in base
    ensures StartsWith(pathname, "/") ==>
      && |base| + 1 <= |pathname| && pathname[..|base| + 1] == "/" + base
      && (|base| + 1 == |pathname| || pathname[|base| + 1] == '/')
  {
    assert StartsWith(pathname, "/") ==> Segment(pathname, "/", 1).Some? by {
      if StartsWith(pathname, "/") { SecondSlashSegment(pathname); }
    }
    match Segment(pathname, "/", 1)
    case Some(b) => SlashFree(b); b
    case None => "undefined"
  }

  /** Whether "Previous" is a link. */
  predicate PrevEnabled(currentPage: int)
  {
    currentPage - 1 > 0
  }

  /** Whether "Next" is a link. */
  predicate NextEnabled(currentPage: int, totalPages: int)
  {
    currentPage + 1 <= totalPages
  }

  /** Target of "Previous": the bare list root when going back to page 1. */
  function PrevHref(base: string, currentPage: int): string
  {
    if currentPage - 1 == 1 then "/" + base + "/"
    else "/" + base + "/page/" + IntToString(currentPage - 1)
  }

  /** Target of "Next": always the explicit `/page/{n}` form. */
  function NextHref(base: string, currentPage: int): string
  {
    "/" + base + "/page/" + IntToString(currentPage + 1)
  }

  /**
   * How the routes read a list URL: `/{base}/` is page 1 and
   * `/{base}/page/{n}` is page n; anything else is not a list page.
   */
  function ParseListHref(href: string): (r: Option<ListRoute>)
    ensures r.Some? ==> StartsWith(href, "/") && '/' !in r.value.base
  {
    if !StartsWith(href, "/") then None
    else match FirstIndexFrom(href, "/", 1)
      case None => None
      case Some(i) =>
        var base := href[1..i];
        var tail := href[i + 1..];
        assert '/' !in base by {
          forall j | 0 <= j < |base| ensures base[j] != '/' {
            assert !OccursAt(href, "/", j + 1);
            assert href[j + 1..j + 2] == [base[j]];
          }
        }
        if tail == "" then Some(ListRoute(base, 1))
        else if StartsWith(tail, "page/") then
          match ParseInt(tail[5..])
          case Some(n) => Some(ListRoute(base, n))
          case None => None
        else None
  }

  /** In `/{base}/...` with a '/'-free base, the first '/' after the leading one ends the base. */
  lemma {:induction false} FirstSlashAfterBase(base: string, tail: string)
    requires '/' !in base
    ensures FirstIndexFrom("/" + base + "/" + tail, "/", 1) == Some(|base| + 1)
  {
    var href := "/" + base + "/" + tail;
    assert OccursAt(href, "/", |base| + 1) by {
      assert href[|base| + 1..|base| + 2] == "/";
    }
    forall j: nat | 1 <= j < |base| + 1
      ensures !OccursAt(href, "/", j)
    {
      assert href[j] == base[j - 1];
      assert href[j..j + 1] == [href[j]];
    }
  }

  /** Reading back a `/{base}/page/{n}` URL gives page n. */
  lemma {:induction false} ParsePageHref(base: string, n: int)
    requires '/' !in base
    ensures ParseListHref("/" + base + "/page/" + IntToString(n)) == Some(ListRoute(base, n))
  {
    var href := "/" + base + "/page/" + IntToString(n);
    assert href == "/" + base + "/" + ("page/" + IntToString(n));
    FirstSlashAfterBase(base, "page/" + IntToString(n));
    assert StartsWith(href, "/");
    assert href[1..|base| + 1] == base;
    var tail := href[|base| + 2..];
    assert tail == "page/" + IntToString(n);
    assert tail != "";
    assert StartsWith(tail, "page/");
    assert tail[5..] == IntToString(n);
    ParseIntToString(n);
  }

  /**
   * The "Previous" target names the page before the current one under the
   * same base, and it is the bare root exactly when that page is page 1.
   */
  lemma {:induction false} PrevHrefNamesPreviousPage(base: string, currentPage: int)
    requires '/' !in base
    requires PrevEnabled(currentPage)
    ensures ParseListHref(PrevHref(base, currentPage)) == Some(ListRoute(base, currentPage - 1))
    ensures PrevHref(base, currentPage) == "/" + base + "/" <==> currentPage - 1 == 1
  {
    if currentPage - 1 == 1 {
      FirstSlashAfterBase(base, "");
      assert "/" + base + "/" + "" == "/" + base + "/";
    } else {
      ParsePageHref(base, currentPage - 1);
      assert |PrevHref(base, currentPage)| > |"/" + base + "/"|;
    }
  }

  /** The "Next" target names the page after the current one and is never the bare root. */
  lemma {:induction false} NextHrefNamesNextPage(base: string, currentPage: int)
    requires '/' !in base
    ensures ParseListHref(NextHref(base, currentPage)) == Some(ListRoute(base, currentPage + 1))
    ensures NextHref(base, currentPage) != "/" + base + "/"
  {
    ParsePageHref(base, currentPage + 1);
    assert |NextHref(base, currentPage)| > |"/" + base + "/"|;
  }

  /**
   * The `<nav>` children: each side is exactly one of a disabled button or a
   * link, with the "{currentPage} of {totalPages}" text between them.
   */
  function RenderPagination(pathname: string, totalPages: int, currentPage: int): (nav: seq<NavItem>)
    ensures |nav| == 3
    ensures nav[0] == (if PrevEnabled(currentPage)
      then PageLink(PrevHref(BasePath(pathname), currentPage), "Previous", "prev")
      else DisabledButton("Previous", true))
    ensures nav[1] == PageStatus(IntToString(currentPage) + " of " + IntToString(totalPages))
    ensures nav[2] == (if NextEnabled(currentPage, totalPages)
      then PageLink(NextHref(BasePath(pathname), currentPage), "Next", "next")
      else DisabledButton("Next", true))
  {
    var base := BasePath(pathname);
    var prevPage := PrevEnabled(currentPage);
    var nextPage := NextEnabled(currentPage, totalPages);
    (if !prevPage then [DisabledButton("Previous", !prevPage)] else [])
    + (if prevPage then [PageLink(PrevHref(base, currentPage), "Previous", "prev")] else [])
    + [PageStatus(IntToString(currentPage) + " of " + IntToString(totalPages))]
    + (if !nextPage then [DisabledButton("Next", !nextPage)] else [])
    + (if nextPage then [PageLink(NextHref(base, currentPage), "Next", "next")] else [])
  }

  /**
   * Every link the control renders leads to the neighbouring page, under the
   * base taken from the current path.
   */
  lemma {:induction false} PaginationLinksLeadToNeighbours(pathname: string, totalPages: int, currentPage: int)
    ensures var nav := RenderPagination(pathname, totalPages, currentPage);
      && (nav[0].PageLink? ==>
            ParseListHref(nav[0].href) == Some(ListRoute(BasePath(pathname), currentPage - 1)))
      && (nav[2].PageLink? ==>
            ParseListHref(nav[2].href) == Some(ListRoute(BasePath(pathname), currentPage + 1)))
  {
    var base := BasePath(pathname);
    if PrevEnabled(currentPage) {
      PrevHrefNamesPreviousPage(base, currentPage);
    }
    NextHrefNamesNextPage(base, currentPage);
  }

  /**
   * For a page inside the range, "Previous" is disabled exactly on the
   * first page and "Next" exactly on the last.
   */
  lemma PaginationBoundaries(pathname: string, totalPages: int, currentPage: int)
    requires 1 <= currentPage <= totalPages
    ensures var nav := RenderPagination(pathname, totalPages, currentPage);
      && (nav[0].DisabledButton? <==> currentPage == 1)
      && (nav[2].DisabledButton? <==> currentPage == totalPages)
  {
  }

  /**
   * On a tag listing, `/tags/...`, the base is `tags` whatever follows, so
   * the "Next" target is `/tags/page/{n}` and does not name the tag.
   */
  lemma {:induction false} TagListingBaseIsTags(rest: string, currentPage: int)
    ensures BasePath("/tags/" + rest) == "tags"
    ensures NextHref(BasePath("/tags/" + rest), currentPage) == "/tags/page/" + IntToString(currentPage + 1)
  {
    var path := "/tags/" + rest;
    var t := path[1..];
    assert t == "tags/" + rest;
    assert OccursAt(path, "/", 0);
    assert FirstIndexFrom(path, "/", 0) == Some(0);
    assert OccursAt(t, "/", 4) by {
      assert t[4..5] == "/";
    }
    forall j: nat | j < 4
      ensures !OccursAt(t, "/", j)
    {
      assert t[j..j + 1] == [t[j]];
    }
    assert FirstIndexFrom(t, "/", 0) == Some(4);
    assert Split(path, "/") == [""] + Split(t, "/");
    assert Split(t, "/")[0] == t[..4] == "tags";
  }
}
