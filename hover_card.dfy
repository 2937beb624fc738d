/**
  The hover card's placement arithmetic. Coordinates are reals; the viewport
  size and the anchor card's rectangle are parameters.
*/
module HoverCard {

  /** Space between the anchor card and the popup. */
  const Gap: real := 15.0
  /** Least distance the popup should keep from a screen edge. */
  const Margin: real := 20.0
  /** The popup's estimated height and width. */
  const EstHeight: real := 550.0
  const EstWidth: real := 450.0

  /** Where the popup goes relative to its anchor card. */
  datatype Position = Top | Bottom | Left | Right

  /**
    How the horizontal coordinate is read: the popup's centre (`center`),
    its right edge with the popup extending left (`left`), or its left edge
    with the popup extending right (`right`).
  */
  datatype ClampMode = Center | ExtendLeft | ExtendRight

  /** The anchor card's bounding rectangle as the browser reports it. */
  datatype AnchorRect = AnchorRect(top: real, bottom: real, left: real, right: real, width: real)

  /** The fixed-position coordinates given to the popup. */
  datatype Placement = Placement(top: real, left: real)

  /**
    `getSideTop`: start at the anchor's top, lift the popup if its bottom
    would pass the lower margin, then push it down if its top would pass the
    upper margin (which wins when the viewport is too short for both).
  */
  function SideTop(anchorTop: real, viewportHeight: real): (top: real)
    ensures top >= Margin
    ensures viewportHeight >= EstHeight + 2.0 * Margin ==> top + EstHeight <= viewportHeight - Margin
    ensures anchorTop >= Margin && anchorTop + EstHeight <= viewportHeight - Margin ==> top == anchorTop
    ensures top > anchorTop ==> top == Margin
    ensures viewportHeight < EstHeight + 2.0 * Margin ==> top == Margin
    ensures (top < anchorTop && viewportHeight - EstHeight - Margin >= Margin) ==>
      top + EstHeight == viewportHeight - Margin
  {
    var top := if anchorTop + EstHeight > viewportHeight - Margin then viewportHeight - EstHeight - Margin else anchorTop;
    if top < Margin then Margin else top
  }

  /**
    `getClampedLeft`: shift the horizontal coordinate so that the popup's
    overflowing edge comes back to the margin. In centre mode the left edge
    is checked first and wins.
  */
  function ClampedLeft(baseLeft: real, mode: ClampMode, viewportWidth: real): (left: real)
    ensures mode == Center && viewportWidth >= EstWidth + 2.0 * Margin ==>
      left - EstWidth / 2.0 >= Margin && left + EstWidth / 2.0 <= viewportWidth - Margin
    ensures (mode == Center && baseLeft - EstWidth / 2.0 >= Margin &&
             baseLeft + EstWidth / 2.0 <= viewportWidth - Margin) ==> left == baseLeft
    ensures mode == Center && baseLeft - EstWidth / 2.0 < Margin ==> left - EstWidth / 2.0 == Margin
    ensures (mode == Center && baseLeft - EstWidth / 2.0 >= Margin &&
             baseLeft + EstWidth / 2.0 > viewportWidth - Margin) ==>
      left + EstWidth / 2.0 == viewportWidth - Margin
    ensures mode == ExtendLeft ==> left - EstWidth >= Margin && left >= baseLeft
    ensures mode == ExtendLeft && baseLeft - EstWidth >= Margin ==> left == baseLeft
    ensures mode == ExtendLeft && baseLeft - EstWidth < Margin ==> left - EstWidth == Margin
    ensures mode == ExtendRight ==> left + EstWidth <= viewportWidth - Margin && left <= baseLeft
    ensures mode == ExtendRight && baseLeft + EstWidth <= viewportWidth - Margin ==> left == baseLeft
    ensures mode == ExtendRight && baseLeft + EstWidth > viewportWidth - Margin ==>
      left + EstWidth == viewportWidth - Margin
  {
    match mode
    case Center =>
      var leftEdge := baseLeft - EstWidth / 2.0;
      var rightEdge := baseLeft + EstWidth / 2.0;
      if leftEdge < Margin then baseLeft + (Margin - leftEdge)
      else if rightEdge > viewportWidth - Margin then baseLeft - (rightEdge - (viewportWidth - Margin))
      else baseLeft
    case ExtendLeft =>
      if baseLeft - EstWidth < Margin then Margin + EstWidth else baseLeft
    case ExtendRight =>
      if baseLeft + EstWidth > viewportWidth - Margin then viewportWidth - Margin - EstWidth else baseLeft
  }

  /**
    `getLayoutStyles`' position switch. Above and below, the popup is
    centred on the anchor and sits one gap away from it; beside the anchor,
    it is vertically clamped and starts one gap away from the anchor's side.
  */
  function LayoutStyles(position: Position, anchor: AnchorRect, viewportWidth: real, viewportHeight: real)
    : (p: Placement)
    ensures position == Top ==> p.top == anchor.top - Gap
    ensures position == Bottom ==> p.top == anchor.bottom + Gap
    ensures (position == Top || position == Bottom) && viewportWidth >= EstWidth + 2.0 * Margin ==>
      p.left - EstWidth / 2.0 >= Margin && p.left + EstWidth / 2.0 <= viewportWidth - Margin
    ensures ((position == Top || position == Bottom) &&
             anchor.left + anchor.width / 2.0 - EstWidth / 2.0 >= Margin &&
             anchor.left + anchor.width / 2.0 + EstWidth / 2.0 <= viewportWidth - Margin) ==>
      p.left == anchor.left + anchor.width / 2.0
    ensures (position == Left || position == Right) ==>
      p.top >= Margin && (viewportHeight >= EstHeight + 2.0 * Margin ==> p.top + EstHeight <= viewportHeight - Margin)
    ensures position == Left ==> p.left - EstWidth >= Margin && p.left >= anchor.left - Gap
    ensures position == Right ==> p.left + EstWidth <= viewportWidth - Margin && p.left <= anchor.right + Gap
    ensures (position == Top || position == Bottom) ==>
      p.left == ClampedLeft(anchor.left + anchor.width / 2.0, Center, viewportWidth)
    ensures position == Left ==>
      p == Placement(SideTop(anchor.top, viewportHeight), ClampedLeft(anchor.left - Gap, ExtendLeft, viewportWidth))
    ensures position == Right ==>
      p == Placement(SideTop(anchor.top, viewportHeight), ClampedLeft(anchor.right + Gap, ExtendRight, viewportWidth))
  {
    match position
    case Top => Placement(anchor.top - Gap, ClampedLeft(anchor.left + anchor.width / 2.0, Center, viewportWidth))
    case Bottom => Placement(anchor.bottom + Gap, ClampedLeft(anchor.left + anchor.width / 2.0, Center, viewportWidth))
    case Left => Placement(SideTop(anchor.top, viewportHeight), ClampedLeft(anchor.left - Gap, ExtendLeft, viewportWidth))
    case Right => Placement(SideTop(anchor.top, viewportHeight), ClampedLeft(anchor.right + Gap, ExtendRight, viewportWidth))
  }
}
