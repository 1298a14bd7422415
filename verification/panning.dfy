/** Click-and-drag panning. The skill tree (static/ts/skillTree.ts) adds each
    move's delta to the offset and advances the remembered mouse position; the
    hexagon field (static/ts/hexGrid.js and static/ts/hexGrid.ts, identical in
    both revisions) keeps the offset and mouse position captured at mousedown
    and sets the offset absolutely on every move. Both end a gesture on
    mouseup and on mouseleave. */
module Panning {

  datatype Point = Point(x: real, y: real)

  /** The difference of two cursor positions. */
  function Delta(from: Point, to: Point): Point
  {
    Point(to.x - from.x, to.y - from.y)
  }

  function Shift(p: Point, d: Point): Point
  {
    Point(p.x + d.x, p.y + d.y)
  }

  /** The skill tree's `isDragging`, `offsetX/Y` and `lastMouseX/Y`. */
  datatype TreePan = TreePan(isDragging: bool, offset: Point, lastMouse: Point)

  const TreePanInitial: TreePan := TreePan(false, Point(0.0, 0.0), Point(0.0, 0.0))

  /** mousedown: start a gesture at the client position. */
  function StartDragging(pan: TreePan, client: Point): (after: TreePan)
    ensures after.isDragging && after.offset == pan.offset
  {
    pan.(isDragging := true, lastMouse := client)
  }

  /** mousemove: while dragging, add the movement since the last event. */
  function Drag(pan: TreePan, client: Point): (after: TreePan)
    ensures !pan.isDragging ==> after == pan
    ensures pan.isDragging ==> after.isDragging && after.lastMouse == client
  {
    if !pan.isDragging then pan
    else
      var delta := Delta(pan.lastMouse, client);
      pan.(offset := Shift(pan.offset, delta), lastMouse := client)
  }

  /** mouseup and mouseleave. */
  function StopDragging(pan: TreePan): (after: TreePan)
    ensures !after.isDragging && after.offset == pan.offset
  {
    pan.(isDragging := false)
  }

  /** A run of mousemove events. */
  function DragAll(pan: TreePan, moves: seq<Point>): TreePan
    decreases |moves|
  {
    if moves == [] then pan else DragAll(Drag(pan, moves[0]), moves[1..])
  }

  /** While dragging, the increments telescope: after any run of moves the
      offset is the offset at the start plus the displacement from the
      remembered mouse position to the last move. */
  lemma {:induction false} DragTelescopes(pan: TreePan, moves: seq<Point>)
    requires pan.isDragging && moves != []
    ensures DragAll(pan, moves).isDragging
    ensures DragAll(pan, moves).lastMouse == moves[|moves| - 1]
    ensures DragAll(pan, moves).offset == Shift(pan.offset, Delta(pan.lastMouse, moves[|moves| - 1]))
    decreases |moves|
  {
    var next := Drag(pan, moves[0]);
    if |moves| > 1 {
      DragTelescopes(next, moves[1..]);
      assert moves[1..][|moves[1..]| - 1] == moves[|moves| - 1];
    }
  }

  /** Moves outside a gesture change nothing. */
  lemma {:induction false} DragIdle(pan: TreePan, moves: seq<Point>)
    requires !pan.isDragging
    ensures DragAll(pan, moves) == pan
    decreases |moves|
  {
    if moves != [] {
      DragIdle(pan, moves[1..]);
    }
  }

  /** The hexagon field's `isDragging`, `lastMouseX/Y`, `offsetX/Y` and
      `startX/Y`. */
  datatype HexPan = HexPan(isDragging: bool, lastMouse: Point, offset: Point, start: Point)

  const HexPanInitial: HexPan := HexPan(false, Point(0.0, 0.0), Point(0.0, 0.0), Point(0.0, 0.0))

  /** mousedown: remember the mouse position and the current offset. */
  function MouseDown(pan: HexPan, client: Point): (after: HexPan)
    ensures after.isDragging && after.start == pan.offset && after.offset == pan.offset
  {
    pan.(isDragging := true, lastMouse := client, start := pan.offset)
  }

  /** mousemove: while dragging, the offset is the captured offset plus the
      displacement from the captured mouse position. */
  function MouseMove(pan: HexPan, client: Point): (after: HexPan)
    ensures !pan.isDragging ==> after == pan
    ensures after.isDragging == pan.isDragging && after.start == pan.start && after.lastMouse == pan.lastMouse
  {
    if pan.isDragging then
      var delta := Delta(pan.lastMouse, client);
      pan.(offset := Shift(pan.start, delta))
    else pan
  }

  /** mouseup and mouseleave. */
  function MouseUp(pan: HexPan): (after: HexPan)
    ensures !after.isDragging && after.offset == pan.offset
    ensures MoveAll(after, [pan.lastMouse]) == after
  {
    pan.(isDragging := false)
  }

  function MoveAll(pan: HexPan, moves: seq<Point>): HexPan
    decreases |moves|
  {
    if moves == [] then pan else MoveAll(MouseMove(pan, moves[0]), moves[1..])
  }

  /** A move is absolute: only the last move of a gesture matters. */
  lemma {:induction false} HexMovesAbsolute(pan: HexPan, moves: seq<Point>)
    requires pan.isDragging && moves != []
    ensures MoveAll(pan, moves) == MouseMove(pan, moves[|moves| - 1])
    decreases |moves|
  {
    if |moves| > 1 {
      HexMovesAbsolute(MouseMove(pan, moves[0]), moves[1..]);
      assert moves[1..][|moves[1..]| - 1] == moves[|moves| - 1];
    }
  }

  /** Moves outside a gesture change nothing. */
  lemma {:induction false} HexMoveIdle(pan: HexPan, moves: seq<Point>)
    requires !pan.isDragging
    ensures MoveAll(pan, moves) == pan
    decreases |moves|
  {
    if moves != [] {
      HexMoveIdle(pan, moves[1..]);
    }
  }

  /** The two ways of panning agree: for a gesture that starts at the same
      offset and mouse position and moves along the same path, both end at
      the same offset. */
  lemma GesturesAgree(tree: TreePan, hex: HexPan, down: Point, moves: seq<Point>)
    requires tree.offset == hex.offset && moves != []
    ensures DragAll(StartDragging(tree, down), moves).offset ==
            MoveAll(MouseDown(hex, down), moves).offset
  {
    DragTelescopes(StartDragging(tree, down), moves);
    HexMovesAbsolute(MouseDown(hex, down), moves);
  }

  /** From the state both classes start in, a gesture ends at the press-to-release
      displacement in either scheme. */
  lemma InitialGesturesAgree(down: Point, moves: seq<Point>)
    requires moves != []
    ensures DragAll(StartDragging(TreePanInitial, down), moves).offset == Delta(down, moves[|moves| - 1])
    ensures MoveAll(MouseDown(HexPanInitial, down), moves).offset == Delta(down, moves[|moves| - 1])
  {
    GesturesAgree(TreePanInitial, HexPanInitial, down, moves);
    DragTelescopes(StartDragging(TreePanInitial, down), moves);
  }
}
