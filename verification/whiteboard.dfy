/** The whiteboard client component: the join gate and the pointer handlers
    that turn a press-drag-release into a chain of `draw-line` messages.
    Painting on the canvas is not modelled; only what is sent to the relay is. */
module Whiteboard {
  import opened Protocol
  import JsText

  /** Messages the client sends to the relay. */
  datatype Outgoing =
    | JoinEvent(name: string)
    | DrawLineEvent(data: Segment)
    | ClearCanvasEvent

  /** `drawLine(x0, y0, x1, y1, color, emit)`, as far as the relay can see it:
      the segment is sent exactly once when `emit` holds, and not at all otherwise. */
  function DrawLine(x0: int, y0: int, x1: int, y1: int, color: string, emit: bool): (out: seq<Outgoing>)
    ensures emit ==> out == [DrawLineEvent(Segment(x0, y0, x1, y1, color))]
    ensures !emit ==> out == []
  {
    if emit then [DrawLineEvent(Segment(x0, y0, x1, y1, color))] else []
  }

  // ---------------------------------------------------------------------------
  // The pen: the part of the component state the pointer handlers use.

  datatype Pen = Pen(drawing: bool, prev: Point, color: string)

  /** Pointer input, mouse or touch alike. */
  datatype PointerEvent = Down(at: Point) | Move(at: Point) | Up

  /** The pen after one pointer event. */
  function After(pen: Pen, e: PointerEvent): (next: Pen) {
    match e
    case Down(p) => pen.(drawing := true, prev := p)
    case Move(p) => if pen.drawing then pen.(prev := p) else pen
    case Up => pen.(drawing := false)
  }

  /** What one pointer event sends. */
  function Emitted(pen: Pen, e: PointerEvent): (out: seq<Outgoing>) {
    match e
    case Move(p) =>
      if pen.drawing then DrawLine(pen.prev.x, pen.prev.y, p.x, p.y, pen.color, true) else []
    case _ => []
  }

  /** Everything a sequence of pointer events sends, in order. */
  function Output(pen: Pen, es: seq<PointerEvent>): (out: seq<Outgoing>)
    decreases |es|
  {
    if es == [] then [] else Emitted(pen, es[0]) + Output(After(pen, es[0]), es[1..])
  }

  /** The pen after a sequence of pointer events. */
  function Final(pen: Pen, es: seq<PointerEvent>): (last: Pen)
    decreases |es|
  {
    if es == [] then pen else Final(After(pen, es[0]), es[1..])
  }

  function Moves(ps: seq<Point>): (es: seq<PointerEvent>)
  {
    seq(|ps|, i requires 0 <= i < |ps| => Move(ps[i]))
  }

  /** The polyline from `p0` through the points `ps`, one segment per point,
      each starting where the previous one ended. */
  function Chain(p0: Point, ps: seq<Point>, color: string): (r: seq<Outgoing>)
    ensures |r| == |ps|
    ensures forall i :: 0 <= i < |r| ==>
      r[i] == DrawLineEvent(Segment((if i == 0 then p0 else ps[i - 1]).x, (if i == 0 then p0 else ps[i - 1]).y,
                                    ps[i].x, ps[i].y, color))
    decreases |ps|
  {
    if ps == [] then []
    else [DrawLineEvent(Segment(p0.x, p0.y, ps[0].x, ps[0].y, color))] + Chain(ps[0], ps[1..], color)
  }

  // ---------------------------------------------------------------------------
  // Lemmas about strokes

  lemma {:induction false} OutputAppend(pen: Pen, a: seq<PointerEvent>, b: seq<PointerEvent>)
    ensures Output(pen, a + b) == Output(pen, a) + Output(Final(pen, a), b)
    ensures Final(pen, a + b) == Final(Final(pen, a), b)
    decreases |a|
  {
    if a != [] {
      assert (a + b)[1..] == a[1..] + b;
      OutputAppend(After(pen, a[0]), a[1..], b);
    } else {
      assert a + b == b;
    }
  }

  lemma SingleStep(pen: Pen, e: PointerEvent)
    ensures Output(pen, [e]) == Emitted(pen, e)
    ensures Final(pen, [e]) == After(pen, e)
  {
    assert [e][1..] == [];
  }

  /** While the pen is down, moving through `ps` sends exactly the chain of
      segments from the pen's previous point through `ps`, and leaves the pen
      at the last point. */
  lemma {:induction false} DragSendsChain(pen: Pen, ps: seq<Point>)
    requires pen.drawing
    ensures Output(pen, Moves(ps)) == Chain(pen.prev, ps, pen.color)
    ensures Final(pen, Moves(ps)) == if ps == [] then pen else pen.(prev := ps[|ps| - 1])
    decreases |ps|
  {
    if ps != [] {
      assert Moves(ps)[1..] == Moves(ps[1..]);
      DragSendsChain(pen.(prev := ps[0]), ps[1..]);
    }
  }

  /** A whole stroke: press at `p0`, drag through `ps`, release. It sends the
      chain from `p0` through `ps` in the pen's colour and ends with the pen up. */
  lemma StrokeSendsChain(pen: Pen, p0: Point, ps: seq<Point>)
    ensures Output(pen, [Down(p0)] + Moves(ps) + [Up]) == Chain(p0, ps, pen.color)
    ensures Final(pen, [Down(p0)] + Moves(ps) + [Up]).drawing == false
  {
    var down := pen.(drawing := true, prev := p0);
    SingleStep(pen, Down(p0));
    OutputAppend(pen, [Down(p0)], Moves(ps));
    DragSendsChain(down, ps);
    var dragged := Final(down, Moves(ps));
    SingleStep(dragged, Up);
    OutputAppend(pen, [Down(p0)] + Moves(ps), [Up]);
  }

  /** Within a stroke each segment starts where the one before it ended. */
  lemma StrokeIsChained(pen: Pen, p0: Point, ps: seq<Point>, i: nat)
    requires i + 1 < |ps|
    ensures var out := Output(pen, [Down(p0)] + Moves(ps) + [Up]);
      |out| == |ps| &&
      out[i].DrawLineEvent? && out[i + 1].DrawLineEvent? &&
      out[i].data.End() == out[i + 1].data.Start()
  {
    StrokeSendsChain(pen, p0, ps);
    var c := Chain(p0, ps, pen.color);
    var from := if i == 0 then p0 else ps[i - 1];
    assert c[i] == DrawLineEvent(Segment(from.x, from.y, ps[i].x, ps[i].y, pen.color));
    assert c[i + 1] == DrawLineEvent(Segment(ps[i].x, ps[i].y, ps[i + 1].x, ps[i + 1].y, pen.color));
  }

  /** How many of the events `es` are moves that arrive while the pen is
      down, judged by the pen state the earlier events leave behind. */
  function PenDownMoves(pen: Pen, es: seq<PointerEvent>): (n: nat)
    decreases |es|
  {
    if es == [] then 0
    else
      var init := es[..|es| - 1];
      PenDownMoves(pen, init) + (if es[|es| - 1].Move? && Final(pen, init).drawing then 1 else 0)
  }

  /** Every move that arrives while the pen is down sends exactly one
      message, and nothing else sends any. */
  lemma {:induction false} OneMessagePerPenDownMove(pen: Pen, es: seq<PointerEvent>)
    ensures |Output(pen, es)| == PenDownMoves(pen, es)
    decreases |es|
  {
    if es != [] {
      var init, e := es[..|es| - 1], es[|es| - 1];
      assert es == init + [e];
      OneMessagePerPenDownMove(pen, init);
      OutputAppend(pen, init, [e]);
      SingleStep(Final(pen, init), e);
    }
  }

  /** Moving with the pen up sends nothing and leaves the pen as it was. */
  lemma {:induction false} IdleMovesAreSilent(pen: Pen, ps: seq<Point>)
    requires !pen.drawing
    ensures Output(pen, Moves(ps)) == []
    ensures Final(pen, Moves(ps)) == pen
    decreases |ps|
  {
    if ps != [] {
      assert Moves(ps)[1..] == Moves(ps[1..]);
      IdleMovesAreSilent(pen, ps[1..]);
    }
  }

  /** Pointer input only ever sends `draw-line`, always in the pen's colour. */
  lemma {:induction false} PointerSendsOnlyLines(pen: Pen, es: seq<PointerEvent>)
    ensures forall m :: m in Output(pen, es) ==> m.DrawLineEvent? && m.data.color == pen.color
    decreases |es|
  {
    if es != [] {
      PointerSendsOnlyLines(After(pen, es[0]), es[1..]);
    }
  }

  // ---------------------------------------------------------------------------
  // The component

  class Whiteboard {
    var isDrawing: bool
    /** `prevPosRef.current` */
    var prev: Point
    var color: string
    var username: string
    var joined: bool

    /** Only a non-blank name gets past the join screen, and the canvas (hence
        any stroke) exists only after joining. */
    ghost predicate Valid()
      reads this
    {
      (joined ==> JsText.Trim(username) != []) && (isDrawing ==> joined)
    }

    function PenState(): (pen: Pen)
      reads this
    {
      Pen(isDrawing, prev, color)
    }

    constructor ()
      ensures Valid()
      ensures !isDrawing && prev == Point(0, 0) && color == "#000000"
      ensures username == "" && !joined
    {
      isDrawing, prev, color := false, Point(0, 0), "#000000";
      username, joined := "", false;
    }

    /** The name field's `onChange`; the field is shown only before joining. */
    method SetUsername(name: string)
      requires Valid() && !joined
      modifies this`username
      ensures Valid() && username == name
    {
      username := name;
    }

    /** The colour picker's `onChange`. */
    method SetColor(c: string)
      requires Valid()
      modifies this`color
      ensures Valid() && color == c
    {
      color := c;
    }

    /** `handleJoin`: join, with the name as typed, only when it is not blank. */
    method HandleJoin() returns (out: seq<Outgoing>)
      requires Valid()
      modifies this`joined
      ensures Valid()
      ensures JsText.Trim(username) != [] ==> joined && out == [JoinEvent(username)]
      ensures JsText.Trim(username) == [] ==> joined == old(joined) && out == []
    {
      if JsText.Trim(username) != [] {
        out := [JoinEvent(username)];
        joined := true;
      } else {
        out := [];
      }
    }

    method HandleMouseDown(p: Point) returns (out: seq<Outgoing>)
      requires Valid() && joined
      modifies this`isDrawing, this`prev
      ensures Valid()
      ensures isDrawing && prev == p && out == []
      ensures PenState() == After(old(PenState()), Down(p)) && out == Emitted(old(PenState()), Down(p))
    {
      isDrawing := true;
      prev := p;
      out := [];
    }

    method HandleMouseMove(p: Point) returns (out: seq<Outgoing>)
      requires Valid() && joined
      modifies this`prev
      ensures Valid()
      ensures out != [] ==> JsText.Trim(username) != []
      ensures old(isDrawing) ==> prev == p && out == [DrawLineEvent(Segment(old(prev).x, old(prev).y, p.x, p.y, color))]
      ensures !old(isDrawing) ==> prev == old(prev) && out == []
      ensures PenState() == After(old(PenState()), Move(p)) && out == Emitted(old(PenState()), Move(p))
    {
      if !isDrawing {
        return [];
      }
      out := DrawLine(prev.x, prev.y, p.x, p.y, color, true);
      prev := p;
    }

    method HandleMouseUp() returns (out: seq<Outgoing>)
      requires Valid() && joined
      modifies this`isDrawing
      ensures Valid()
      ensures !isDrawing && out == []
      ensures PenState() == After(old(PenState()), Up) && out == Emitted(old(PenState()), Up)
    {
      isDrawing := false;
      out := [];
    }

    /** `clearCanvas`: the local canvas is wiped and one bare `clear-canvas` is sent. */
    method ClearCanvas() returns (out: seq<Outgoing>)
      requires Valid() && joined
      ensures |out| == 1 && out[0] == ClearCanvasEvent
      ensures out != [] ==> JsText.Trim(username) != []
    {
      out := [ClearCanvasEvent];
    }

    method HandleTouchStart(p: Point) returns (out: seq<Outgoing>)
      requires Valid() && joined
      modifies this`isDrawing, this`prev
      ensures Valid()
      ensures isDrawing && prev == p && out == []
      ensures PenState() == After(old(PenState()), Down(p)) && out == Emitted(old(PenState()), Down(p))
    {
      prev := p;
      isDrawing := true;
      out := [];
    }

    method HandleTouchMove(p: Point) returns (out: seq<Outgoing>)
      requires Valid() && joined
      modifies this`prev
      ensures Valid()
      ensures out != [] ==> JsText.Trim(username) != []
      ensures old(isDrawing) ==> prev == p && out == [DrawLineEvent(Segment(old(prev).x, old(prev).y, p.x, p.y, color))]
      ensures !old(isDrawing) ==> prev == old(prev) && out == []
      ensures PenState() == After(old(PenState()), Move(p)) && out == Emitted(old(PenState()), Move(p))
    {
      if !isDrawing {
        return [];
      }
      out := DrawLine(prev.x, prev.y, p.x, p.y, color, true);
      prev := p;
    }

    method HandleTouchEnd() returns (out: seq<Outgoing>)
      requires Valid() && joined
      modifies this`isDrawing
      ensures Valid()
      ensures !isDrawing && out == []
      ensures PenState() == After(old(PenState()), Up) && out == Emitted(old(PenState()), Up)
    {
      isDrawing := false;
      out := [];
    }
  }
}
