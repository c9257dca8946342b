/**
 * The post records both views read and the post card both views render.
 * Presentation (class names, image quality and size, the formatted date
 * text) is not part of the model; the card keeps what the markup derives
 * from the post.
 */
module Content {
  import opened Wrappers

  /** A post as the content layer supplies it, reduced to the fields the views read. */
  datatype Post = Post(
    path: string,
    slug: string,
    date: string,
    title: string,
    summary: string,
    tags: seq<string>,
    images: seq<string>)

  /** One rendered post card: thumbnail, date, title link, tag badges, summary, "Read more" link. */
  datatype Card = Card(
    thumbnail: Option<string>,
    thumbnailAlt: string,
    dateTime: string,
    title: string,
    titleHref: string,
    tags: seq<string>,
    summary: string,
    readMoreHref: string,
    readMoreLabel: string)

  /** `images[0]`: the first image, or `undefined` when the post has none. */
  function Thumbnail(images: seq<string>): (r: Option<string>)
    ensures r.Some? <==> |images| > 0
    ensures r.Some? ==> r.value == images[0]
  {
    if |images| > 0 then Some(images[0]) else None
  }

  /** The card of `post` whose title and "Read more" both link to `href` and which shows `tags`. */
  function PostCard(post: Post, href: string, tags: seq<string>): Card
  {
    Card(
      Thumbnail(post.images),
      "Image for " + post.title,
      post.date,
      post.title,
      href,
      tags,
      post.summary,
      href,
      "Read \"" + post.title + "\"")
  }
}
