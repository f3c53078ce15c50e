/** Payloads shared by the whiteboard client and the relay. Coordinates and
    colours are opaque: they are only copied, never computed with. */
module Protocol {

  /** A pointer position on the sender's canvas (unnormalised pixels). */
  datatype Point = Point(x: int, y: int)

  /** The `draw-line` payload `{x0, y0, x1, y1, color}`. */
  datatype Segment = Segment(x0: int, y0: int, x1: int, y1: int, color: string)
  {
    function Start(): Point { Point(x0, y0) }
    function End(): Point { Point(x1, y1) }
  }
}
