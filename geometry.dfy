/** The measured boxes and viewports the browser hands to the positioning code. */
module Geometry {

  /** A `DOMRect`: origin and (possibly negative) size, in viewport coordinates. */
  datatype Rect = Rect(x: real, y: real, width: real, height: real) {
    function Top(): real { if height >= 0.0 then y else y + height }
    function Bottom(): real { if height >= 0.0 then y + height else y }
    function Left(): real { if width >= 0.0 then x else x + width }
    function Right(): real { if width >= 0.0 then x + width else x }
  }

  /** `new DOMRect()`: all four values zero. */
  const EmptyRect: Rect := Rect(0.0, 0.0, 0.0, 0.0)

  /** `window.innerWidth`, `window.innerHeight`, `window.scrollX`, `window.scrollY`. */
  datatype Viewport = Viewport(innerWidth: real, innerHeight: real, scrollX: real, scrollY: real)

  /** A point (`Vec2`). */
  datatype Vec2 = Vec2(x: real, y: real)
}
