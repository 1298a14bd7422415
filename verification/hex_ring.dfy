/** The ring-mode revision of the hexagon field (static/ts/hexGrid.js):
    the per-cell number computed from axial coordinates, the parity tests used
    when a hovered cell is highlighted and restored, and the number of cells the
    ring-mode drawing emits. */
module HexRing {
  import opened Common

  const Cyan: string := "#61dafb"
  const Dark: string := "#333"
  const CornerFill: string := "#2f0775"
  const InnerFill: string := "#730451"

  /** Hex distance from the centre: max(|q|, |r|, |s|) with s = -q - r. */
  function Ring(q: int, r: int): (ring: nat)
    ensures ring >= Abs(q) && ring >= Abs(r) && ring >= Abs(q + r)
    ensures ring == Abs(q) || ring == Abs(r) || ring == Abs(q + r)
  {
    var a := Abs(q);
    var b := Abs(r);
    var c := Abs(-q - r);
    if a >= b && a >= c then a else if b >= c then b else c
  }

  /** The hard-coded numbers of the six cells around the centre. */
  function RingOneTable(q: int, r: int): Option<int>
  {
    if q == 0 && r == -1 then Some(2)
    else if q == 1 && r == -1 then Some(3)
    else if q == 1 && r == 0 then Some(4)
    else if q == 0 && r == 1 then Some(5)
    else if q == -1 && r == 1 then Some(6)
    else if q == -1 && r == 0 then Some(1)
    else None
  }

  /** The first number used on a ring of radius `ring` >= 2. */
  function RingBase(ring: nat): (base: int)
    ensures ring >= 2 ==> base >= 8
  {
    3 * ring * (ring - 1) + 2
  }

  /** The offset added to `RingBase` for a cell outside ring 1, chosen by
      comparing x = q - r with y = 2r + q; it never exceeds 10 * ring. */
  function SpiralOffset(q: int, r: int): (offset: int)
    ensures 0 <= offset <= 10 * Ring(q, r)
  {
    var ring := Ring(q, r);
    var x := q - r;
    var y := r * 2 + q;
    if y > x then
      if y > -x then 5 * ring - r - q
      else 1 * ring - r
    else
      if y > -x then 3 * ring + r
      else if y < -x - ring then 7 * ring + r + q
      else 9 * ring + r + q
  }

  /** The number shown in cell (q, r): 0 at the centre, the fixed table on
      ring 1, and otherwise `RingBase` plus `SpiralOffset`. */
  function HexNumber(q: int, r: int): (n: int)
    ensures n == 0 <==> q == 0 && r == 0
    ensures Ring(q, r) == 1 ==> 1 <= n <= 6
    ensures Ring(q, r) >= 2 ==>
              RingBase(Ring(q, r)) <= n <= RingBase(Ring(q, r)) + 10 * Ring(q, r)
  {
    if q == 0 && r == 0 then 0
    else
      var ring := Ring(q, r);
      if ring == 1 && RingOneTable(q, r).Some? then RingOneTable(q, r).value
      else
        RingOneIsTable(q, r);
        RingBase(ring) + SpiralOffset(q, r)
  }

  /** The six cells of ring 1, in the order the table lists them. */
  const RingOneCells: seq<(int, int)> := [(0, -1), (1, -1), (1, 0), (0, 1), (-1, 1), (-1, 0)]

  /** Ring 1 is exactly the six table cells, so the table always applies there. */
  lemma RingOneIsTable(q: int, r: int)
    ensures Ring(q, r) == 1 <==> (q, r) in RingOneCells
    ensures Ring(q, r) == 1 <==> RingOneTable(q, r).Some?
  {
  }

  /** On ring 1 the numbering is a bijection onto {1, ..., 6}. */
  lemma RingOneBijection(q1: int, r1: int, q2: int, r2: int)
    ensures (set c | c in RingOneCells :: HexNumber(c.0, c.1)) == {1, 2, 3, 4, 5, 6}
    ensures (Ring(q1, r1) == 1 && Ring(q2, r2) == 1 && HexNumber(q1, r1) == HexNumber(q2, r2))
              ==> q1 == q2 && r1 == r2
  {
    RingOneNumbers();
    if Ring(q1, r1) == 1 && Ring(q2, r2) == 1 {
      RingOneIsTable(q1, r1);
      RingOneIsTable(q2, r2);
      RingOneTableInjective(q1, r1, q2, r2);
    }
  }

  /** No number appears twice in the table. */
  lemma RingOneTableInjective(q1: int, r1: int, q2: int, r2: int)
    requires RingOneTable(q1, r1).Some? && RingOneTable(q2, r2).Some?
    ensures RingOneTable(q1, r1) == RingOneTable(q2, r2) ==> q1 == q2 && r1 == r2
  {
  }

  /** The numbers of the six table cells, in table order. */
  lemma RingOneNumbers()
    ensures HexNumber(0, -1) == 2 && HexNumber(1, -1) == 3 && HexNumber(1, 0) == 4
    ensures HexNumber(0, 1) == 5 && HexNumber(-1, 1) == 6 && HexNumber(-1, 0) == 1
    ensures (set c | c in RingOneCells :: HexNumber(c.0, c.1)) == {1, 2, 3, 4, 5, 6}
  {
    RingOneIsTable(0, -1);
    RingOneIsTable(1, -1);
    RingOneIsTable(1, 0);
    RingOneIsTable(0, 1);
    RingOneIsTable(-1, 1);
    RingOneIsTable(-1, 0);
  }

  /** Although the source calls the number "unique", distinct cells share
      numbers, both within one ring and across neighbouring rings. */
  lemma NumberingNotInjective()
    ensures HexNumber(-1, -1) == 20 && HexNumber(-2, 0) == 20
    ensures HexNumber(0, 2) == 16 && HexNumber(1, 1) == 16
    ensures HexNumber(-3, 3) == 20
    ensures Ring(-1, -1) == 2 && Ring(-2, 0) == 2 && Ring(-3, 3) == 3
  {
  }

  /** Hover places a cell half a row lower when `q % 2 === 0` fails. */
  predicate HoverShifted(q: int)
  {
    JsRem(q, 2) != 0
  }

  /** Redraw places a cell half a row lower only when `col % 2 === 1`. */
  predicate RedrawShifted(col: int)
  {
    JsRem(col, 2) == 1
  }

  /** The two shift tests agree exactly on the columns that are not both
      negative and odd; for a negative odd column JavaScript gives `-1`, so
      the hover shifts the cell and the redraw does not. */
  lemma ShiftTestsAgree(col: int)
    ensures HoverShifted(col) == RedrawShifted(col) <==> col >= 0 || col % 2 == 0
  {
    JsRemTwo(col);
  }

  /** The colour a restored cell is repainted with. */
  function RestoreFill(row: int, col: int): (fill: string)
    ensures fill == Dark <==> (row + col) % 2 == 0
    ensures fill == Cyan <==> (row + col) % 2 == 1
  {
    JsRemTwo(row + col);
    if JsRem(row + col, 2) == 0 then Dark else Cyan
  }

  /** Fill colours emitted by the ring-mode grid drawing, in drawing order:
      the centre, then for every ring i and every one of its six corners the
      corner cell followed by i - 1 cells along the edge. */
  method DrawRingGrid(rings: nat) returns (fills: seq<string>)
    ensures |fills| == 1 + 3 * rings * (rings + 1)
    ensures fills[0] == Cyan
    ensures multiset(fills)[CornerFill] == 6 * rings
    ensures multiset(fills)[InnerFill] == 3 * rings * (rings - 1)
  {
    var hexNumber := 0;
    fills := [if JsRem(hexNumber, 2) == 0 then Cyan else Dark];
    var i := 1;
    while i <= rings
      invariant 1 <= i <= rings + 1
      invariant |fills| == 1 + 3 * (i - 1) * i
      invariant fills[0] == Cyan
      invariant multiset(fills)[CornerFill] == 6 * (i - 1)
      invariant multiset(fills)[InnerFill] == 3 * (i - 1) * (i - 2)
    {
      fills := DrawRing(fills, i);
      assert 1 + 3 * (i - 1) * i + 6 * i == 1 + 3 * i * (i + 1);
      assert 3 * (i - 1) * (i - 2) + 6 * (i - 1) == 3 * i * (i - 1);
      i := i + 1;
    }
  }

  /** The six sides of ring i, each a corner and i - 1 further cells. */
  method DrawRing(fills: seq<string>, i: nat) returns (out: seq<string>)
    requires i >= 1 && fills != []
    ensures |out| == |fills| + 6 * i && out[0] == fills[0]
    ensures multiset(out)[CornerFill] == multiset(fills)[CornerFill] + 6
    ensures multiset(out)[InnerFill] == multiset(fills)[InnerFill] + 6 * (i - 1)
  {
    out := fills;
    var j := 0;
    while j < 6
      invariant 0 <= j <= 6
      invariant |out| == |fills| + j * i && out[0] == fills[0]
      invariant multiset(out)[CornerFill] == multiset(fills)[CornerFill] + j
      invariant multiset(out)[InnerFill] == multiset(fills)[InnerFill] + j * (i - 1)
    {
      out := DrawSide(out, i);
      assert (j + 1) * i == j * i + i && (j + 1) * (i - 1) == j * (i - 1) + (i - 1);
      j := j + 1;
    }
  }

  /** One side: the corner cell, then the i - 1 cells towards the next corner. */
  method DrawSide(fills: seq<string>, i: nat) returns (out: seq<string>)
    requires i >= 1 && fills != []
    ensures |out| == |fills| + i && out[0] == fills[0]
    ensures multiset(out)[CornerFill] == multiset(fills)[CornerFill] + 1
    ensures multiset(out)[InnerFill] == multiset(fills)[InnerFill] + (i - 1)
  {
    out := fills + [CornerFill];
    var k := 1;
    while k < i
      invariant 1 <= k <= i
      invariant |out| == |fills| + k && out[0] == fills[0]
      invariant multiset(out)[CornerFill] == multiset(fills)[CornerFill] + 1
      invariant multiset(out)[InnerFill] == multiset(fills)[InnerFill] + (k - 1)
    {
      out := out + [InnerFill];
      k := k + 1;
    }
  }
}
