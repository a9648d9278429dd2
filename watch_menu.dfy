/** The "Watch on" menu of one card: the destinations it lists and its
    open/closed anchor state. */
module WatchMenu {
  import opened Wrappers
  import opened Records

  /** The CDN copy is offered for seven days after creation. */
  const CdnWindowMs: int := 7 * 24 * 60 * 60 * 1000

  /** The CDN entry is offered while the record is strictly younger than the
      window. `now` is the clock reading in milliseconds. */
  predicate CdnOffered(v: VodRecord, now: int)
    ensures CdnOffered(v, now) <==> now < v.createdAt + 604800000
  {
    now - v.createdAt < CdnWindowMs
  }

  /** A record six days old still offers the CDN copy; one exactly seven
      days old, or eight, no longer does. */
  lemma CdnWindowBoundary(v: VodRecord)
    ensures CdnWindowMs == 604800000
    ensures CdnOffered(v, v.createdAt + 6 * 24 * 60 * 60 * 1000)
    ensures !CdnOffered(v, v.createdAt + CdnWindowMs)
    ensures !CdnOffered(v, v.createdAt + 8 * 24 * 60 * 60 * 1000)
  {
  }

  /** The fixed position of each destination in the menu. */
  function Rank(d: Destination): nat
  {
    match d
    case Youtube => 0
    case Cdn => 1
    case Manual => 2
  }

  /** The destinations the menu lists, in order. */
  function Entries(v: VodRecord, now: int): (ds: seq<Destination>)
    ensures 1 <= |ds| <= 3
    ensures ds[|ds| - 1] == Manual
    ensures Youtube in ds <==> v.youtubeCount > 0
    ensures Cdn in ds <==> CdnOffered(v, now)
    ensures forall i, j :: 0 <= i < j < |ds| ==> Rank(ds[i]) < Rank(ds[j])
  {
    (if v.youtubeCount > 0 then [Youtube] else [])
    + (if CdnOffered(v, now) then [Cdn] else [])
    + [Manual]
  }

  /** One rendered menu entry: its caption and the link it follows. */
  datatype MenuItem = MenuItem(caption: string, href: string)

  function Label(d: Destination): string
  {
    match d
    case Youtube => "Youtube"
    case Cdn => "CDN"
    case Manual => "Manual"
  }

  /** The menu entries of record `v` at time `now`. */
  function Items(v: VodRecord, now: int): (items: seq<MenuItem>)
    ensures |items| == |Entries(v, now)|
    ensures forall i :: 0 <= i < |items| ==>
      items[i] == MenuItem(Label(Entries(v, now)[i]), Href(Entries(v, now)[i], v.id))
  {
    var ds := Entries(v, now);
    seq(|ds|, i requires 0 <= i < |ds| => MenuItem(Label(ds[i]), Href(ds[i], v.id)))
  }

  /** No two entries of a menu follow the same link, the last one is always
      the manual player, and the card's YouTube link is offered in the menu
      exactly when the record has YouTube entries. */
  lemma ItemsDistinct(v: VodRecord, now: int)
    ensures forall i, j :: 0 <= i < j < |Items(v, now)| ==> Items(v, now)[i].href != Items(v, now)[j].href
    ensures Items(v, now)[|Items(v, now)| - 1] == MenuItem("Manual", "/manual/" + v.id)
    ensures (exists i :: 0 <= i < |Items(v, now)| && Items(v, now)[i].href == "/youtube/" + v.id)
            <==> v.youtubeCount > 0
  {
  }

  /** The menu's state: the element it is anchored to, `None` when closed.
      `E` stands for the DOM element that was clicked. */
  class Menu<E> {
    var anchor: Option<E>

    predicate IsOpen()
      reads this
      ensures IsOpen() <==> anchor != None
    {
      anchor.Some?
    }

    constructor ()
      ensures anchor == None && !IsOpen()
    {
      anchor := None;
    }

    /** Clicking "Watch on" anchors the menu to the clicked element. */
    method HandleClick(currentTarget: E)
      modifies this
      ensures anchor == Some(currentTarget) && IsOpen()
    {
      anchor := Some(currentTarget);
    }

    /** A close request from the menu (clicking away) clears the anchor. */
    method HandleClose()
      modifies this
      ensures anchor == None && !IsOpen()
    {
      anchor := None;
    }
  }
}
