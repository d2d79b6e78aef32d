/** Page geometry used to place the detached dropdown and to decide scrolling
    (`_getElementPosition` and the test in `_onArrowMove`). Pixel values are reals. */
module Geometry {

  /** What `getBoundingClientRect()` reports, relative to the viewport. */
  datatype ClientRect = ClientRect(top: real, left: real, height: real)

  /** The window's scroll offsets and the document element's border widths. */
  datatype Viewport = Viewport(pageXOffset: real, pageYOffset: real, clientTop: real, clientLeft: real)

  /** A page-relative box, as returned by `_getElementPosition`. */
  datatype Position = Position(top: real, left: real, height: real)

  /** The rendered geometry the component reads from the DOM: the text box, the dropdown
      list and its `<li>` items in order (`li:nth-child(k + 1)` is `items[k]`). */
  datatype Layout = Layout(viewport: Viewport, searchBox: ClientRect, dropdown: ClientRect, items: seq<ClientRect>)

  /** Page position of an element: its viewport rectangle shifted by the page scroll
      offset, less the document border. */
  function ElementPosition(rect: ClientRect, view: Viewport): Position
  {
    Position(rect.top + view.pageYOffset - view.clientTop,
             rect.left + view.pageXOffset - view.clientLeft,
             rect.height)
  }

  /** The inverse reading: the viewport rectangle of an element at page position `p`. */
  function ClientRectAt(p: Position, view: Viewport): ClientRect
  {
    ClientRect(p.top - view.pageYOffset + view.clientTop,
               p.left - view.pageXOffset + view.clientLeft,
               p.height)
  }

  /** An item must be scrolled into view when it starts above the dropdown's top edge
      or ends below its bottom edge. */
  predicate ScrollNeeded(item: Position, dropdown: Position)
  {
    item.top < dropdown.top || item.top + item.height > dropdown.top + dropdown.height
  }

  /** Page position and viewport rectangle determine each other for a fixed viewport. */
  lemma PositionRoundTrip(rect: ClientRect, p: Position, view: Viewport)
    ensures ClientRectAt(ElementPosition(rect, view), view) == rect
    ensures ElementPosition(ClientRectAt(p, view), view) == p
  {
  }

  /** Scrolling the page by (dx, dy) moves every page position by exactly that much... */
  lemma ScrollShiftsPosition(rect: ClientRect, v: Viewport, dx: real, dy: real)
    ensures var p := ElementPosition(rect, v);
            var q := ElementPosition(rect, v.(pageXOffset := v.pageXOffset + dx, pageYOffset := v.pageYOffset + dy));
            q.top == p.top + dy && q.left == p.left + dx && q.height == p.height
  {
  }

  /** ...so the scroll decision never depends on the viewport it is computed in:
      it is the same as comparing the two viewport rectangles directly. */
  lemma ScrollDecisionIgnoresViewport(item: ClientRect, dropdown: ClientRect, v: Viewport)
    ensures ScrollNeeded(ElementPosition(item, v), ElementPosition(dropdown, v))
        <==> ScrollNeeded(Position(item.top, item.left, item.height), Position(dropdown.top, dropdown.left, dropdown.height))
  {
  }

  /** No scroll happens exactly when the item lies wholly within the dropdown's vertical span. */
  lemma NoScrollIffInside(item: Position, dropdown: Position)
    ensures !ScrollNeeded(item, dropdown)
        <==> dropdown.top <= item.top && item.top + item.height <= dropdown.top + dropdown.height
  {
  }

  /** An item taller than the dropdown is always scrolled. */
  lemma TallItemScrolls(item: Position, dropdown: Position)
    requires item.height > dropdown.height
    ensures ScrollNeeded(item, dropdown)
  {
  }
}
