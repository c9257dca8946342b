/**
 * The home page's post grid: at most `MAX_DISPLAY` cards of the most recent
 * posts, a placeholder when there are none, and a trailing "All Posts" link
 * when there are more posts than the grid shows. The intro text and the
 * newsletter form are static and not modelled.
 */
module Home {
  import opened Wrappers
  import opened Content

  /** How many posts the home page shows. */
  const MAX_DISPLAY := 5

  /** A child of the grid: the placeholder text or a post card. */
  datatype GridItem = NoPostsFound(text: string) | PostCardItem(card: Card)

  /** What the home page renders, reduced to what its logic decides. */
  datatype HomeView = HomeView(grid: seq<GridItem>, allPostsLink: Option<string>)

  /** The card of a post on the home page: links to `/blog/{slug}`, every tag shown. */
  function HomeCard(post: Post): Card
  {
    PostCard(post, "/blog/" + post.slug, post.tags)
  }

  /** `posts.slice(0, MAX_DISPLAY)`. */
  function Recent(posts: seq<Post>): seq<Post>
  {
    posts[..if |posts| < MAX_DISPLAY then |posts| else MAX_DISPLAY]
  }

  /** The home page for `posts`, most recent first. */
  function Home(posts: seq<Post>): HomeView
  {
    var recent := Recent(posts);
    HomeView(
      (if |posts| == 0 then [NoPostsFound("No posts found.")] else [])
        + seq(|recent|, i requires 0 <= i < |recent| => PostCardItem(HomeCard(recent[i]))),
      if |posts| > MAX_DISPLAY then Some("/blog") else None)
  }

  /** The cards among the grid items, in order. */
  function Cards(grid: seq<GridItem>): seq<Card>
  {
    if |grid| == 0 then []
    else (if grid[0].PostCardItem? then [grid[0].card] else []) + Cards(grid[1..])
  }

  /** How many placeholders are among the grid items. */
  function Placeholders(grid: seq<GridItem>): nat
  {
    if |grid| == 0 then 0 else (if grid[0].NoPostsFound? then 1 else 0) + Placeholders(grid[1..])
  }

  lemma {:induction false} CardsAppend(a: seq<GridItem>, b: seq<GridItem>)
    ensures Cards(a + b) == Cards(a) + Cards(b)
    ensures Placeholders(a + b) == Placeholders(a) + Placeholders(b)
  {
    if |a| > 0 {
      CardsAppend(a[1..], b);
      assert (a + b)[1..] == a[1..] + b;
    } else {
      assert a + b == b;
    }
  }

  lemma {:induction false} CardsOfCardItems(cs: seq<Card>)
    ensures var items := seq(|cs|, i requires 0 <= i < |cs| => PostCardItem(cs[i]));
      Cards(items) == cs && Placeholders(items) == 0
  {
    var items := seq(|cs|, i requires 0 <= i < |cs| => PostCardItem(cs[i]));
    if |cs| > 0 {
      CardsOfCardItems(cs[1..]);
      assert items[1..] == seq(|cs[1..]|, i requires 0 <= i < |cs[1..]| => PostCardItem(cs[1..][i]));
      assert cs == [cs[0]] + cs[1..];
    }
  }

  /**
   * The grid holds exactly `min(|posts|, 5)` cards, those of the first posts
   * in input order; each shows all of its post's tags and links both its
   * title and "Read more" to `/blog/{slug}`. Its image is the post's first
   * image (`undefined` for a post without images), and its date, summary
   * and accessible labels are the post's.
   */
  lemma {:induction false} HomeShowsRecentPosts(posts: seq<Post>)
    ensures var cards := Cards(Home(posts).grid);
      && |cards| == (if |posts| < 5 then |posts| else 5)
      && forall i :: 0 <= i < |cards| ==>
        && cards[i].title == posts[i].title
        && cards[i].thumbnail == (if |posts[i].images| > 0 then Some(posts[i].images[0]) else None)
        && cards[i].thumbnailAlt == "Image for " + posts[i].title
        && cards[i].dateTime == posts[i].date
        && cards[i].summary == posts[i].summary
        && cards[i].readMoreLabel == "Read \"" + posts[i].title + "\""
        && cards[i].tags == posts[i].tags
        && cards[i].titleHref == "/blog/" + posts[i].slug
        && cards[i].readMoreHref == "/blog/" + posts[i].slug
  {
    var recent := Recent(posts);
    var cs := seq(|recent|, i requires 0 <= i < |recent| => HomeCard(recent[i]));
    var head: seq<GridItem> := if |posts| == 0 then [NoPostsFound("No posts found.")] else [];
    var items := seq(|cs|, i requires 0 <= i < |cs| => PostCardItem(cs[i]));
    assert Home(posts).grid == head + items;
    CardsAppend(head, items);
    CardsOfCardItems(cs);
    assert Cards(head) == [] by {
      if |posts| == 0 { assert head[1..] == []; }
    }
  }

  /**
   * "No posts found." is shown exactly when there are no posts, the "All
   * Posts" link to `/blog` exactly when there are more than five, so never
   * both at once.
   */
  lemma {:induction false} HomePlaceholderAndTrailer(posts: seq<Post>)
    ensures Placeholders(Home(posts).grid) == (if |posts| == 0 then 1 else 0)
    ensures forall g :: g in Home(posts).grid && g.NoPostsFound? ==> g.text == "No posts found."
    ensures Home(posts).allPostsLink == (if |posts| > 5 then Some("/blog") else None)
    ensures !(Placeholders(Home(posts).grid) > 0 && Home(posts).allPostsLink.Some?)
  {
    var recent := Recent(posts);
    var cs := seq(|recent|, i requires 0 <= i < |recent| => HomeCard(recent[i]));
    var head: seq<GridItem> := if |posts| == 0 then [NoPostsFound("No posts found.")] else [];
    var items := seq(|cs|, i requires 0 <= i < |cs| => PostCardItem(cs[i]));
    assert Home(posts).grid == head + items;
    CardsAppend(head, items);
    CardsOfCardItems(cs);
    assert Placeholders(head) == (if |posts| == 0 then 1 else 0) by {
      if |posts| == 0 { assert head[1..] == []; }
    }
  }
}
