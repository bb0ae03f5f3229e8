/** The certification gallery controller: prev and next buttons ask the track
    to scroll horizontally by one item's width plus a fixed gap. */
module Gallery {
  import opened Common

  const Gap := 12
  const FallbackDistance := 300

  /** The track: the rendered width of its first `.cert-item`, if it has one. */
  datatype Track = Track(firstItemWidth: Option<nat>)

  /** A `.cert-gallery` container: its track if any, and which controls exist. */
  datatype Gallery = Gallery(track: Option<Track>, hasPrev: bool, hasNext: bool)

  datatype Control = Prev | Next

  /** The per-click distance, read afresh from the track on every click. */
  function ScrollDistance(track: Track): (d: nat)
    ensures d >= Gap
  {
    match track.firstItemWidth
    case Some(w) => w + Gap
    case None => FallbackDistance
  }

  /** The horizontal scroll requested by a click on control c, or None when no
      handler is attached (no track, or no such control). */
  function ClickDelta(g: Gallery, c: Control): (delta: Option<int>)
    ensures delta.Some? <==> g.track.Some? && (if c == Prev then g.hasPrev else g.hasNext)
  {
    match g.track
    case None => None
    case Some(track) =>
      match c
      case Prev => if g.hasPrev then Some(-(ScrollDistance(track) as int)) else None
      case Next => if g.hasNext then Some(ScrollDistance(track)) else None
  }

  /** With a first item of width w the distance is w + 12; with none it is 300. */
  lemma DistanceRule(w: nat)
    ensures ScrollDistance(Track(Some(w))) == w + 12
    ensures ScrollDistance(Track(None)) == 300
  {
  }

  /** Prev scrolls left and next scrolls right by the same distance, so one of
      each brings the track back to where it was. */
  lemma PrevUndoesNext(g: Gallery)
    requires g.track.Some? && g.hasPrev && g.hasNext
    ensures ClickDelta(g, Next) == Some(ScrollDistance(g.track.value))
    ensures ClickDelta(g, Prev) == Some(-(ScrollDistance(g.track.value) as int))
    ensures ClickDelta(g, Prev).value < 0 < ClickDelta(g, Next).value
    ensures ClickDelta(g, Prev).value + ClickDelta(g, Next).value == 0
  {
  }

  /** A gallery without a track is inert. */
  lemma NoTrackInert(g: Gallery, c: Control)
    requires g.track.None?
    ensures ClickDelta(g, c) == None
  {
  }
}
