/** The card the gallery renders for one record: a thumbnail and a title
    that both link to the record's primary destination. */
module VodCard {
  import opened Wrappers
  import opened Records

  /** Where the thumbnail image comes from. */
  datatype ThumbnailSource = Remote(url: string) | DefaultThumbnail

  /** The logical content of a card: the two links, the image, the title
      (shown in full in a tooltip) and the two overlay captions. */
  datatype Card = Card(
    thumbnailLink: string,
    image: ThumbnailSource,
    date: string,
    duration: string,
    title: string,
    titleLink: string)

  /** A record with any YouTube entry is primarily watched on YouTube,
      every other one through the manual player. */
  function PrimaryDestination(v: VodRecord): (d: Destination)
    ensures d == Youtube <==> v.youtubeCount > 0
    ensures d != Cdn
  {
    if v.youtubeCount > 0 then Youtube else Manual
  }

  /** The thumbnail: the record's URL when it is present and not the empty
      string (JavaScript truthiness), otherwise the bundled default image. */
  function Thumbnail(url: Option<string>): (t: ThumbnailSource)
    ensures t.DefaultThumbnail? <==> url == None || url == Some("")
    ensures t.Remote? ==> url == Some(t.url)
  {
    if url.Some? && url.value != "" then Remote(url.value) else DefaultThumbnail
  }

  /** The card for record `v`. */
  function CardOf(v: VodRecord): (c: Card)
    ensures c.thumbnailLink == c.titleLink
    ensures c.thumbnailLink == "/youtube/" + v.id <==> v.youtubeCount > 0
    ensures c.thumbnailLink == "/manual/" + v.id <==> v.youtubeCount == 0
    ensures c.image == Thumbnail(v.thumbnailUrl) && c.title == v.title
    ensures c.date == v.date && c.duration == v.duration
  {
    var link := Href(PrimaryDestination(v), v.id);
    Card(link, Thumbnail(v.thumbnailUrl), v.date, v.duration, v.title, link)
  }
}
