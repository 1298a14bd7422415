/** The hover highlight shared by both hexagon-field revisions
    (static/ts/hexGrid.js and static/ts/hexGrid.ts). The cursor position is
    taken as the already rounded axial cell (q, r); pixel centres are replaced
    by a screen position made of the column and a half-row index, which is
    what the column-parity shift decides. */
module HexField {
  import opened Common
  import HexRing
  import HexRect

  const Highlight: string := "#FF0000"

  /** The stored `hoveredHex`: `row` is r and `col` is q. */
  datatype Cell = Cell(row: int, col: int)

  /** What distinguishes one revision of the class from the other: the cell
      number `(q, r) -> n`, the parity test used when highlighting column q,
      the one used when restoring column col, and the restore colour of
      `(row, col)`. */
  datatype Revision = Revision(
    number: (int, int) -> int,
    hoverShift: int -> bool,
    restoreShift: int -> bool,
    restoreFill: (int, int) -> string)

  /** static/ts/hexGrid.js as written. */
  const RingRevision: Revision :=
    Revision(HexRing.HexNumber, HexRing.HoverShifted, HexRing.RedrawShifted, HexRing.RestoreFill)

  /** static/ts/hexGrid.ts as written. */
  const RectRevision: Revision :=
    Revision(HexRect.HexNumber, HexRect.OddColumn, HexRect.OddColumn, HexRect.RestoreFill)

  /** hexGrid.js with the redraw using the same parity test as the hover. */
  const CorrectedRingRevision: Revision :=
    Revision(HexRing.HexNumber, HexRing.HoverShifted, HexRing.HoverShifted, HexRing.RestoreFill)

  /** hexGrid.ts with the restore colour equal to the grid colour. */
  const CorrectedRectRevision: Revision :=
    Revision(HexRect.HexNumber, HexRect.OddColumn, HexRect.OddColumn, HexRect.CorrectedRestoreFill)

  /** Where a hexagon lands on screen: its column and its half-row, which is
      one lower when the column is drawn shifted. */
  datatype Pos = Pos(col: int, halfRow: int)

  function At(col: int, row: int, shifted: bool): Pos
  {
    Pos(col, 2 * row + if shifted then 1 else 0)
  }

  /** One `drawHexagon` followed by `displayHexNumber`. */
  datatype Paint = Paint(pos: Pos, fill: string, number: int)

  /** Drawing the newly hovered cell (q, r) in red with its number. */
  function HighlightPaint(rev: Revision, q: int, r: int): Paint
  {
    Paint(At(q, r, rev.hoverShift(q)), Highlight, rev.number(q, r))
  }

  /** `redrawHexagon(row, col)` on the previously hovered cell; it numbers the
      cell with `calculateHexNumber(col, row)`. */
  function RestorePaint(rev: Revision, c: Cell): Paint
  {
    Paint(At(c.col, c.row, rev.restoreShift(c.col)), rev.restoreFill(c.row, c.col), rev.number(c.col, c.row))
  }

  /** The new `hoveredHex` and the paints one hover event issues, in order. */
  datatype HoverStep = HoverStep(hovered: Option<Cell>, paints: seq<Paint>)

  /** The hover handler once the cursor has been rounded to cell (q, r). */
  function OnMouseHover(rev: Revision, hovered: Option<Cell>, q: int, r: int): (step: HoverStep)
    ensures step.hovered == Some(Cell(r, q))
    ensures hovered == Some(Cell(r, q)) <==> step.paints == []
    ensures step.paints != [] ==> step.paints[|step.paints| - 1] == HighlightPaint(rev, q, r)
    ensures |step.paints| == 2 <==> hovered.Some? && hovered != Some(Cell(r, q))
    ensures |step.paints| == 2 ==> step.paints[0] == RestorePaint(rev, hovered.value)
  {
    if hovered.Some? && hovered.value.row == r && hovered.value.col == q then
      HoverStep(hovered, [])
    else
      var restore := if hovered.Some? then [RestorePaint(rev, hovered.value)] else [];
      HoverStep(Some(Cell(r, q)), restore + [HighlightPaint(rev, q, r)])
  }

  /** A second hover over the same cell draws nothing. */
  lemma HoverTwiceIsNoOp(rev: Revision, hovered: Option<Cell>, q: int, r: int)
    ensures var first := OnMouseHover(rev, hovered, q, r);
            OnMouseHover(rev, first.hovered, q, r) == HoverStep(first.hovered, [])
  {
  }

  /** When the cursor leaves a cell, the redraw shows the same number the
      highlight showed, in every revision: the stored (row, col) is handed back
      to the numbering as (col, row). It is drawn at the same place exactly
      when the two parity tests agree on that column. */
  lemma RestoreMatchesHighlight(rev: Revision, hovered: Option<Cell>, q: int, r: int)
    ensures var c := OnMouseHover(rev, hovered, q, r).hovered.value;
            RestorePaint(rev, c).number == HighlightPaint(rev, q, r).number &&
            (RestorePaint(rev, c).pos == HighlightPaint(rev, q, r).pos <==> rev.restoreShift(q) == rev.hoverShift(q))
  {
  }

  /** In hexGrid.js the redraw lands elsewhere exactly for negative odd columns. */
  lemma RingRestoreMisplaced(q: int, r: int)
    ensures (RestorePaint(RingRevision, Cell(r, q)).pos != HighlightPaint(RingRevision, q, r).pos)
              <==> q < 0 && q % 2 == 1
  {
    HexRing.ShiftTestsAgree(q);
  }

  /** The screen: the last paint at each position. */
  function Apply(screen: map<Pos, Paint>, paints: seq<Paint>): (after: map<Pos, Paint>)
    ensures after.Keys == screen.Keys + (set i | 0 <= i < |paints| :: paints[i].pos)
    ensures |paints| > 0 ==> after[paints[|paints| - 1].pos] == paints[|paints| - 1]
    decreases |paints|
  {
    if paints == [] then screen
    else Apply(screen[paints[0].pos := paints[0]], paints[1..])
  }

  /** The intended screen invariant: the only red hexagon, if any, is the
      hovered cell's. */
  ghost predicate AtMostOneHighlight(rev: Revision, screen: map<Pos, Paint>, hovered: Option<Cell>)
  {
    forall p | p in screen && screen[p].fill == Highlight ::
      hovered.Some? && p == HighlightPaint(rev, hovered.value.col, hovered.value.row).pos
  }

  /** Painting with no red outside position `keep` adds no red elsewhere. */
  lemma {:induction false} ApplyNoNewRed(screen: map<Pos, Paint>, paints: seq<Paint>, keep: Pos, p: Pos)
    requires forall i | 0 <= i < |paints| :: paints[i].fill == Highlight ==> paints[i].pos == keep
    requires p != keep && p in Apply(screen, paints) && Apply(screen, paints)[p].fill == Highlight
    ensures p in screen && screen[p].fill == Highlight
    ensures forall i | 0 <= i < |paints| :: paints[i].pos != p
    decreases |paints|
  {
    if paints != [] {
      var next := screen[paints[0].pos := paints[0]];
      ApplyNoNewRed(next, paints[1..], keep, p);
      assert forall i | 1 <= i < |paints| :: paints[i] == paints[1..][i - 1];
    }
  }

  /** A hover keeps the invariant whenever the restore never paints red and
      the restore of the previous cell lands where its highlight was; the new
      cell is then the red one. */
  lemma {:induction false} HoverKeepsOneHighlight(rev: Revision, screen: map<Pos, Paint>, hovered: Option<Cell>, q: int, r: int)
    requires AtMostOneHighlight(rev, screen, hovered)
    requires forall row, col :: rev.restoreFill(row, col) != Highlight
    requires hovered.Some? ==> rev.restoreShift(hovered.value.col) == rev.hoverShift(hovered.value.col)
    ensures var step := OnMouseHover(rev, hovered, q, r);
            var after := Apply(screen, step.paints);
            AtMostOneHighlight(rev, after, step.hovered) &&
            (step.paints != [] ==> after[HighlightPaint(rev, q, r).pos].fill == Highlight)
  {
    var step := OnMouseHover(rev, hovered, q, r);
    var after := Apply(screen, step.paints);
    var keep := HighlightPaint(rev, q, r).pos;
    if step.paints != [] {
      forall p | p in after && after[p].fill == Highlight
        ensures p == keep
      {
        if p != keep {
          ApplyNoNewRed(screen, step.paints, keep, p);
          assert false;
        }
      }
    }
  }

  /** hexGrid.ts keeps at most one red hexagon on screen. */
  lemma RectKeepsOneHighlight(screen: map<Pos, Paint>, hovered: Option<Cell>, q: int, r: int)
    requires AtMostOneHighlight(RectRevision, screen, hovered)
    ensures var step := OnMouseHover(RectRevision, hovered, q, r);
            AtMostOneHighlight(RectRevision, Apply(screen, step.paints), step.hovered)
  {
    HoverKeepsOneHighlight(RectRevision, screen, hovered, q, r);
  }

  /** hexGrid.js with the corrected redraw keeps at most one red hexagon. */
  lemma CorrectedRingKeepsOneHighlight(screen: map<Pos, Paint>, hovered: Option<Cell>, q: int, r: int)
    requires AtMostOneHighlight(CorrectedRingRevision, screen, hovered)
    ensures var step := OnMouseHover(CorrectedRingRevision, hovered, q, r);
            AtMostOneHighlight(CorrectedRingRevision, Apply(screen, step.paints), step.hovered)
  {
    HoverKeepsOneHighlight(CorrectedRingRevision, screen, hovered, q, r);
  }

  /** hexGrid.js as written: hovering (q, r) = (-1, 0) and then the centre
      leaves the first cell red, because its redraw lands half a row higher. */
  lemma RingHoverLeavesStaleHighlight()
    ensures var first := OnMouseHover(RingRevision, None, -1, 0);
            var second := OnMouseHover(RingRevision, first.hovered, 0, 0);
            var screen := Apply(Apply(map[], first.paints), second.paints);
            Pos(-1, 1) in screen && screen[Pos(-1, 1)].fill == Highlight &&
            Pos(0, 0) in screen && screen[Pos(0, 0)].fill == Highlight &&
            !AtMostOneHighlight(RingRevision, screen, second.hovered)
  {
    var first := OnMouseHover(RingRevision, None, -1, 0);
    assert first.paints == [Paint(Pos(-1, 1), Highlight, 1)];
    var second := OnMouseHover(RingRevision, first.hovered, 0, 0);
    assert second.paints == [Paint(Pos(-1, 0), HexRing.Cyan, 1), Paint(Pos(0, 0), Highlight, 0)];
    var s1 := Apply(map[], first.paints);
    assert s1 == map[Pos(-1, 1) := Paint(Pos(-1, 1), Highlight, 1)];
    var s2 := Apply(s1, second.paints);
    var mid := s1[Pos(-1, 0) := second.paints[0]];
    assert second.paints[1..] == [second.paints[1]];
    assert s2 == Apply(mid, [second.paints[1]]);
    assert [second.paints[1]][1..] == [];
    assert s2 == Apply(mid[Pos(0, 0) := second.paints[1]], []);
  }

  /** With the corrected colour a cell the cursor leaves is repainted
      exactly as the grid drew it. */
  lemma CorrectedRectRestoresGrid(c: Cell)
    ensures RestorePaint(CorrectedRectRevision, c).fill == HexRect.DrawnCell(c.row, c.col).fill
    ensures RestorePaint(CorrectedRectRevision, c).pos ==
              At(c.col, c.row, HexRect.DrawnCell(c.row, c.col).shifted)
  {
  }

  /** As written, hexGrid.ts repaints a left cell in the opposite colour. */
  lemma RectRestoreDiffersFromGrid(c: Cell)
    ensures RestorePaint(RectRevision, c).fill != HexRect.DrawnCell(c.row, c.col).fill
  {
    HexRect.RestoreFillInvertsGrid(c.row, c.col);
  }
}
