/**
 * The tag sidebar of the post list: the tag-count table sorted by
 * descending count (stably, so equal counts keep the table's key order),
 * each tag shown as a link to its tag page, or as a heading when the
 * current path is that tag page. The slug function of the content layer is
 * a parameter; nothing is assumed about it.
 */
module TagSidebar {
  import opened Wrappers
  import opened Text

  /** One entry of the tag-count table, in the table's key order. */
  datatype TagCount = TagCount(tag: string, count: int)

  /** One `<li>` of the sidebar. */
  datatype SidebarItem =
    | ActiveTagHeading(caption: string)
    | TagLink(href: string, caption: string, ariaLabel: string)

  /** Counts never increase along `s`. */
  predicate NonIncreasing(s: seq<TagCount>)
  {
    forall i, j :: 0 <= i < j < |s| ==> s[i].count >= s[j].count
  }

  /** The entries of `s` whose count is `c`, in their order in `s`. */
  function WithCount(s: seq<TagCount>, c: int): seq<TagCount>
  {
    if |s| == 0 then [] else (if s[0].count == c then [s[0]] else []) + WithCount(s[1..], c)
  }

  /**
   * Inserts `x` before the first entry whose count is not larger than its
   * own, so `x` stays ahead of the entries that followed it in the table.
   */
  function InsertByCount(x: TagCount, r: seq<TagCount>): (r': seq<TagCount>)
    ensures |r'| == |r| + 1
    ensures multiset(r') == multiset(r) + multiset{x}
  {
    if |r| == 0 || r[0].count <= x.count then [x] + r
    else
      assert r == [r[0]] + r[1..];
      [r[0]] + InsertByCount(x, r[1..])
  }

  lemma WithCountCons(x: TagCount, r: seq<TagCount>, c: int)
    ensures WithCount([x] + r, c) == (if x.count == c then [x] else []) + WithCount(r, c)
  {
  }

  lemma {:induction false} InsertByCountKeepsOrder(x: TagCount, r: seq<TagCount>)
    requires NonIncreasing(r)
    ensures NonIncreasing(InsertByCount(x, r))
  {
    if |r| == 0 || r[0].count <= x.count {
    } else {
      var rest := InsertByCount(x, r[1..]);
      InsertByCountKeepsOrder(x, r[1..]);
      var r' := [r[0]] + rest;
      forall j | 1 <= j < |r'|
        ensures r[0].count >= r'[j].count
      {
        assert r'[j] == rest[j - 1];
        assert rest[j - 1] in multiset(rest);
        assert rest[j - 1] in multiset(r[1..]) || rest[j - 1] == x;
        if rest[j - 1] != x {
          var k :| 0 <= k < |r[1..]| && r[1..][k] == rest[j - 1];
          assert r[k + 1] == rest[j - 1];
        }
      }
    }
  }

  lemma {:induction false} InsertByCountWithCount(x: TagCount, r: seq<TagCount>, c: int)
    requires NonIncreasing(r)
    ensures WithCount(InsertByCount(x, r), c) == (if x.count == c then [x] else []) + WithCount(r, c)
  {
    if |r| == 0 || r[0].count <= x.count {
      WithCountCons(x, r, c);
    } else {
      var rest := InsertByCount(x, r[1..]);
      InsertByCountWithCount(x, r[1..], c);
      WithCountCons(r[0], rest, c);
      WithCountCons(r[0], r[1..], c);
      assert r == [r[0]] + r[1..];
    }
  }

  /**
   * `Object.keys(tagCounts).sort((a, b) => tagCounts[b] - tagCounts[a])`:
   * a permutation of the table with non-increasing counts in which the
   * entries of each count keep their relative order (the sort is stable).
   */
  function SortByCount(s: seq<TagCount>): (r: seq<TagCount>)
    ensures |r| == |s|
    ensures multiset(r) == multiset(s)
    ensures NonIncreasing(r)
    ensures forall c :: WithCount(r, c) == WithCount(s, c)
  {
    if |s| == 0 then []
    else
      var rest := SortByCount(s[1..]);
      InsertByCountKeepsOrder(s[0], rest);
      assert s == [s[0]] + s[1..];
      assert forall c :: WithCount(InsertByCount(s[0], rest), c) == WithCount(s, c) by {
        forall c ensures WithCount(InsertByCount(s[0], rest), c) == WithCount(s, c) {
          InsertByCountWithCount(s[0], rest, c);
          WithCountCons(s[0], s[1..], c);
        }
      }
      InsertByCount(s[0], rest)
  }

  lemma {:induction false} WithCountMembers(s: seq<TagCount>, c: int)
    ensures forall x :: x in WithCount(s, c) ==> x in s && x.count == c
  {
    if |s| > 0 {
      WithCountMembers(s[1..], c);
    }
  }

  lemma HeadCountIsPresent(s: seq<TagCount>)
    requires |s| > 0
    ensures WithCount(s, s[0].count) != []
  {
  }

  /**
   * The stability contract of `SortByCount` fixes its result: two
   * non-increasing sequences with the same entries of each count are equal.
   */
  lemma {:induction false} StableOrderIsUnique(a: seq<TagCount>, b: seq<TagCount>)
    requires NonIncreasing(a) && NonIncreasing(b)
    requires forall c :: WithCount(a, c) == WithCount(b, c)
    ensures a == b
  {
    if |a| == 0 && |b| == 0 {
    } else if |a| == 0 {
      HeadCountIsPresent(b);
      assert false;
    } else if |b| == 0 {
      HeadCountIsPresent(a);
      assert false;
    } else {
      var ca, cb := a[0].count, b[0].count;
      WithCountMembers(a, cb);
      WithCountMembers(b, ca);
      assert WithCount(a, ca)[0] == a[0];
      assert WithCount(b, cb)[0] == b[0];
      assert WithCount(b, ca)[0] in b;
      assert WithCount(a, cb)[0] in a;
      assert ca == cb;
      assert a[0] == b[0];
      forall c
        ensures WithCount(a[1..], c) == WithCount(b[1..], c)
      {
        var p := if a[0].count == c then [a[0]] else [];
        assert WithCount(a, c) == p + WithCount(a[1..], c);
        assert WithCount(b, c) == p + WithCount(b[1..], c);
        assert (p + WithCount(a[1..], c))[|p|..] == WithCount(a[1..], c);
        assert (p + WithCount(b[1..], c))[|p|..] == WithCount(b[1..], c);
      }
      StableOrderIsUnique(a[1..], b[1..]);
      assert a == [a[0]] + a[1..];
      assert b == [b[0]] + b[1..];
    }
  }

  /** `pathname.split('/tags/')[1]`: the text the sidebar compares slugs with. */
  function ActiveTagSegment(pathname: string): Option<string>
  {
    Segment(pathname, "/tags/", 1)
  }

  /** `${t} (${tagCounts[t]})`. */
  function TagCaption(tc: TagCount): string
  {
    tc.tag + " (" + IntToString(tc.count) + ")"
  }

  /** The sidebar entry of one tag. */
  function RenderTag(pathname: string, slug: string -> string, tc: TagCount): SidebarItem
  {
    if ActiveTagSegment(pathname) == Some(slug(tc.tag)) then
      ActiveTagHeading(TagCaption(tc))
    else
      TagLink("/tags/" + slug(tc.tag), TagCaption(tc), "View posts tagged " + tc.tag)
  }

  /** The tag list of the sidebar, one item per table entry in sorted order. */
  function Sidebar(pathname: string, slug: string -> string, table: seq<TagCount>): (items: seq<SidebarItem>)
    ensures |items| == |table|
  {
    var sorted := SortByCount(table);
    seq(|sorted|, i requires 0 <= i < |sorted| => RenderTag(pathname, slug, sorted[i]))
  }

  /**
   * Item i of the sidebar shows the i-th tag in count order with its count;
   * it is a heading exactly when the text after `/tags/` in the path equals
   * the tag's slug, and otherwise a link to `/tags/{slug}`.
   */
  lemma SidebarItems(pathname: string, slug: string -> string, table: seq<TagCount>)
    ensures var items, sorted := Sidebar(pathname, slug, table), SortByCount(table);
      forall i :: 0 <= i < |items| ==>
        && items[i].caption == sorted[i].tag + " (" + IntToString(sorted[i].count) + ")"
        && (items[i].ActiveTagHeading? <==> ActiveTagSegment(pathname) == Some(slug(sorted[i].tag)))
        && (items[i].TagLink? ==> items[i].href == "/tags/" + slug(sorted[i].tag))
  {
  }

  /** Off the tag pages (no `/tags/` in the path) every tag is a link. */
  lemma NoActiveTagOffTagPages(pathname: string, slug: string -> string, table: seq<TagCount>)
    requires !Contains(pathname, "/tags/")
    ensures forall item :: item in Sidebar(pathname, slug, table) ==> item.TagLink?
  {
    NoSeparatorNoSecondSegment(pathname, "/tags/");
  }

  /** On `/tags/{x}`, the tags shown as headings are exactly those whose slug is `x`. */
  lemma TagPageHighlightsItsTag(x: string, slug: string -> string, table: seq<TagCount>)
    requires !Contains(x, "/tags/")
    ensures var items, sorted := Sidebar("/tags/" + x, slug, table), SortByCount(table);
      forall i :: 0 <= i < |items| ==> (items[i].ActiveTagHeading? <==> slug(sorted[i].tag) == x)
  {
    SecondSegmentAfterLeadingSeparator("/tags/", x);
  }

  /**
   * On a later page of a tag listing, `/tags/{x}/page/{n}`, the compared
   * text still carries `/page/{n}`, so no tag whose slug is free of '/' is
   * shown as the active heading.
   */
  lemma PagedTagPageHighlightsNothing(x: string, n: string, slug: string -> string, table: seq<TagCount>)
    requires !Contains(x + "/page/" + n, "/tags/")
    requires forall k :: 0 <= k < |table| ==> '/' !in slug(table[k].tag)
    ensures forall item :: item in Sidebar("/tags/" + x + "/page/" + n, slug, table) ==> item.TagLink?
  {
    var rest := x + "/page/" + n;
    assert "/tags/" + x + "/page/" + n == "/tags/" + rest;
    SecondSegmentAfterLeadingSeparator("/tags/", rest);
    assert rest[|x|] == '/';
    var sorted := SortByCount(table);
    forall i | 0 <= i < |sorted|
      ensures slug(sorted[i].tag) != rest
    {
      assert sorted[i] in multiset(table);
      var k :| 0 <= k < |table| && table[k] == sorted[i];
    }
  }
}
