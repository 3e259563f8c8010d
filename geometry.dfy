/** The document and viewport as the scheduler sees them, and the in-view test.
    All measurements are whole pixels (the source truncates them with `| 0`). */
module Geometry {

  type ElementId = nat

  /** One element as measured at the moment a pass runs: its offset from the top
      of the document, its height, whether it is hidden (`:hidden`) and its
      attributes (name to value; a missing name is an absent attribute). */
  datatype Element = Element(top: int, height: int, hidden: bool, attrs: map<string, string>)

  /** The elements attached to the document. An id that is not a key is detached;
      jQuery reports a detached element as hidden, since it has no layout box. */
  type Document = map<ElementId, Element>

  /** The window's scroll offset and height. */
  datatype Viewport = Viewport(scrollTop: int, height: int) {
    function Top(): int { scrollTop }
    function Bottom(): int { scrollTop + height }
  }

  /** The in-view test for one element with threshold `th`: the element is shown
      and its extent reaches into the viewport widened by `th` on both sides, both
      edges inclusive. */
  predicate InView(e: Element, th: int, vp: Viewport) {
    var et := e.top;
    var eb := e.top + e.height;
    !e.hidden && eb >= vp.Top() - th && et <= vp.Bottom() + th
  }

  /** Pixel row `y` lies within the element and within the viewport widened by `th`. */
  ghost predicate SharedRow(e: Element, th: int, vp: Viewport, y: int) {
    e.top <= y <= e.top + e.height && vp.Top() - th <= y <= vp.Bottom() + th
  }

  /** The test as an interval intersection: a shown element of non-negative height
      is in view exactly when some pixel row lies both within the element and
      within the widened viewport (which is non-empty). */
  lemma InViewIffOverlap(e: Element, th: int, vp: Viewport)
    requires !e.hidden && e.height >= 0 && vp.height + 2 * th >= 0
    ensures InView(e, th, vp) <==> exists y :: SharedRow(e, th, vp, y)
  {
    if InView(e, th, vp) {
      var y := if e.top >= vp.Top() - th then e.top else vp.Top() - th;
      assert SharedRow(e, th, vp, y);
    } else if exists y :: SharedRow(e, th, vp, y) {
      var y :| SharedRow(e, th, vp, y);
      assert InView(e, th, vp);
    }
  }

  /** A hidden element is never in view, whatever its geometry. */
  lemma HiddenNeverInView(e: Element, th: int, vp: Viewport)
    requires e.hidden
    ensures !InView(e, th, vp)
  {
  }

  /** Widening the threshold never takes an element out of view. */
  lemma InViewMonotoneInThreshold(e: Element, th: int, th': int, vp: Viewport)
    requires th <= th' && InView(e, th, vp)
    ensures InView(e, th', vp)
  {
  }

  /** Both edges are inclusive: an element whose bottom is exactly `th` above the
      viewport, or whose top is exactly `th` below it, is in view; one pixel
      further out it is not. */
  lemma InViewEdgesInclusive(e: Element, th: int, vp: Viewport)
    requires !e.hidden && e.height >= 0 && vp.height >= 0 && th >= 0
    ensures e.top + e.height == vp.Top() - th ==> InView(e, th, vp)
    ensures e.top + e.height == vp.Top() - th - 1 ==> !InView(e, th, vp)
    ensures e.top == vp.Bottom() + th ==> InView(e, th, vp)
    ensures e.top == vp.Bottom() + th + 1 ==> !InView(e, th, vp)
  {
  }

  /** An image 20px high at offset 560 with threshold 50 stays out of a viewport
      spanning 0..500, and comes into view once the window scrolls down by 10px. */
  lemma ThresholdScenario()
    ensures !InView(Element(560, 20, false, map[]), 50, Viewport(0, 500))
    ensures InView(Element(560, 20, false, map[]), 50, Viewport(10, 500))
  {
  }
}
