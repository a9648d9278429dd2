/** A VOD record as the remote API delivers it, reduced to the fields the
    gallery reads, and the navigation links built from a record's id. */
module Records {
  import opened Wrappers

  /** One video-on-demand record. `youtubeCount` is the length of the
      record's `youtube` array (only its emptiness is ever consulted);
      `createdAt` is the creation time in milliseconds since the epoch. */
  datatype VodRecord = VodRecord(
    id: string,
    title: string,
    thumbnailUrl: Option<string>,
    date: string,
    duration: string,
    youtubeCount: nat,
    createdAt: int)

  /** The three playback routes a record can link to. */
  datatype Destination = Youtube | Cdn | Manual

  /** The route prefix of each destination. */
  function RoutePrefix(d: Destination): (p: string)
    ensures |p| >= 2 && p[0] == '/' && p[|p| - 1] == '/'
  {
    match d
    case Youtube => "/youtube/"
    case Cdn => "/cdn/"
    case Manual => "/manual/"
  }

  /** The link to record `id` on destination `d`: `/youtube/{id}`,
      `/cdn/{id}` or `/manual/{id}`. */
  function Href(d: Destination, id: string): (h: string)
    ensures |h| == |RoutePrefix(d)| + |id|
    ensures h[..|RoutePrefix(d)|] == RoutePrefix(d) && h[|RoutePrefix(d)|..] == id
  {
    RoutePrefix(d) + id
  }

  /** Different (destination, id) pairs never produce the same link, so a
      link names exactly one record on exactly one destination. */
  lemma HrefInjective(d1: Destination, id1: string, d2: Destination, id2: string)
    ensures Href(d1, id1) == Href(d2, id2) <==> d1 == d2 && id1 == id2
  {
  }
}
