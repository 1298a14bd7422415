/** The recursive layout of the skill tree (`calculatePositions` in
    static/ts/skillTree.ts): every subtree gets a width, each parent is
    centred over the span of its children's subtrees, siblings are separated
    by a fixed gap, and the root is unlocked and the canvas widened to fit.
    The source writes x and y into the skill records as it goes; here those
    writes go to a coordinate map, since the child lists never change. */
module SkillLayout {
  import opened Common
  import opened SkillGraph

  const NodeWidth: real := 200.0
  const NodeHeight: real := 50.0
  const LevelHeight: real := 200.0
  const HorizontalSpacing: real := 60.0
  const InitialCanvasWidth: real := 1400.0

  /** A node's centre. */
  datatype XY = XY(x: real, y: real)

  type Coords = map<string, XY>

  /** The coordinates currently stored in the skill records. */
  function CoordsOf(skills: Skills): (pos: Coords)
    ensures pos.Keys == skills.Keys
  {
    map k | k in skills :: XY(skills[k].x, skills[k].y)
  }

  /** `reduce((a, b) => a + b, 0)`. */
  function Sum(ws: seq<real>): real
  {
    if ws == [] then 0.0 else ws[0] + Sum(ws[1..])
  }

  lemma {:induction false} SumNonNegative(ws: seq<real>)
    requires forall i | 0 <= i < |ws| :: ws[i] >= 0.0
    ensures Sum(ws) >= 0.0
  {
    if ws != [] {
      SumNonNegative(ws[1..]);
    }
  }

  /** The width a non-empty run of subtrees occupies side by side. */
  function Span(ws: seq<real>): real
    requires ws != []
  {
    Sum(ws) + (|ws| - 1) as real * HorizontalSpacing
  }

  lemma SpanCons(w: real, ws: seq<real>)
    requires ws != []
    ensures Span([w] + ws) == w + HorizontalSpacing + Span(ws)
    ensures Span([w]) == w
  {
    assert ([w] + ws)[1..] == ws;
    assert [w][1..] == [];
    assert Sum([w]) == w + Sum([]);
  }

  /** A parent's width given its children's subtree widths: their span,
      but never less than one node. */
  function TotalWidth(ws: seq<real>): (w: real)
    ensures w >= NodeWidth
  {
    MaxReal(NodeWidth, Sum(ws) + (|ws| - 1) as real * HorizontalSpacing)
  }

  /** The width the subtree below `s` occupies. */
  function SubtreeWidth(skills: Skills, rank: map<string, nat>, s: string): (w: real)
    requires Ranked(skills, rank) && s in skills
    ensures w >= NodeWidth
    decreases rank[s], 1, 0
  {
    var children := skills[s].children;
    if |children| > 0 then
      TotalWidth(ChildWidths(skills, rank, children, rank[s]))
    else NodeWidth
  }

  /** The subtree widths of `children`, in order. */
  function ChildWidths(skills: Skills, rank: map<string, nat>, children: seq<string>, bound: nat): (ws: seq<real>)
    requires Ranked(skills, rank) && ChildrenBelow(skills, rank, children, bound)
    ensures |ws| == |children|
    ensures forall i | 0 <= i < |ws| :: ws[i] >= NodeWidth
    decreases bound, 0, |children|
  {
    if children == [] then []
    else [SubtreeWidth(skills, rank, children[0])] + ChildWidths(skills, rank, children[1..], bound)
  }

  /** A leaf is exactly one node wide; a parent is as wide as its children's
      subtrees plus the gaps between them, which is never less than one node,
      so the `Math.max` with the node width never decides. */
  lemma WidthFormula(skills: Skills, rank: map<string, nat>, s: string)
    requires Ranked(skills, rank) && s in skills
    ensures |skills[s].children| == 0 ==> SubtreeWidth(skills, rank, s) == NodeWidth
    ensures |skills[s].children| > 0 ==>
              SubtreeWidth(skills, rank, s) == Span(ChildWidths(skills, rank, skills[s].children, rank[s]))
  {
    var ws := ChildWidths(skills, rank, skills[s].children, rank[s]);
    if ws != [] {
      SumNonNegative(ws[1..]);
    }
  }

  /** Left edge of the i-th child's span when the first starts at `startX`. */
  function ChildStart(startX: real, ws: seq<real>, i: nat): real
    requires i <= |ws|
    decreases i
  {
    if i == 0 then startX else ChildStart(startX + ws[0] + HorizontalSpacing, ws[1..], i - 1)
  }

  /** Starting one span later is starting the rest of the run one span and
      one gap further right. */
  lemma ChildStartCons(startX: real, w: real, ws: seq<real>, i: nat)
    requires i <= |ws|
    ensures ChildStart(startX, [w] + ws, i + 1) == ChildStart(startX + w + HorizontalSpacing, ws, i)
  {
    assert ([w] + ws)[1..] == ws;
  }

  /** Consecutive spans follow each other at the fixed gap, so sibling node
      boxes `x +- NodeWidth / 2` are at least that gap apart. */
  lemma {:induction false} SiblingsApart(startX: real, ws: seq<real>, i: nat)
    requires i + 1 < |ws|
    requires forall k | 0 <= k < |ws| :: ws[k] >= NodeWidth
    ensures ChildStart(startX, ws, i + 1) == ChildStart(startX, ws, i) + ws[i] + HorizontalSpacing
    ensures (ChildStart(startX, ws, i) + ws[i] / 2.0) + NodeWidth / 2.0 + HorizontalSpacing
              <= (ChildStart(startX, ws, i + 1) + ws[i + 1] / 2.0) - NodeWidth / 2.0
    decreases i
  {
    if i > 0 {
      SiblingsApart(startX + ws[0] + HorizontalSpacing, ws[1..], i - 1);
    }
  }

  /** Every child's span lies inside the span of the whole run. */
  lemma {:induction false} ChildSpanInside(startX: real, ws: seq<real>, i: nat)
    requires i < |ws|
    requires forall k | 0 <= k < |ws| :: ws[k] >= 0.0
    ensures startX <= ChildStart(startX, ws, i)
    ensures ChildStart(startX, ws, i) + ws[i] <= startX + Span(ws)
    decreases i
  {
    SumNonNegative(ws[1..]);
    if i > 0 {
      ChildSpanInside(startX + ws[0] + HorizontalSpacing, ws[1..], i - 1);
    }
  }

  /** The subtree's width and the coordinates after it has been laid out. */
  datatype Laid = Laid(width: real, pos: Coords)

  /** The children's widths and the coordinates after all of them have been
      laid out. */
  datatype LaidChildren = LaidChildren(widths: seq<real>, pos: Coords)

  /** The `forEach` that writes every child's x and y once more. */
  function Reposition(pos: Coords, children: seq<string>, widths: seq<real>, childX: real, y: real): (after: Coords)
    requires |widths| == |children|
    decreases |children|
  {
    if children == [] then pos
    else
      Reposition(pos[children[0] := XY(childX + widths[0] / 2.0, y)], children[1..], widths[1..],
                 childX + widths[0] + HorizontalSpacing, y)
  }

  /** Every coordinate outside `names` is carried over unchanged. */
  predicate Keeps(pos: Coords, out: Coords, names: seq<string>)
  {
    forall k | k in pos && k !in names :: k in out && out[k] == pos[k]
  }

  /** A name outside the changed ones keeps its coordinate. */
  lemma KeptOutside(pos: Coords, out: Coords, names: seq<string>, k: string)
    requires Keeps(pos, out, names) && k in pos && k !in names
    ensures k in out && out[k] == pos[k]
  {
  }

  /** The re-assignment writes every child and only the children. */
  lemma {:induction false} RepositionFrame(pos: Coords, children: seq<string>, widths: seq<real>, childX: real, y: real)
    requires |widths| == |children|
    ensures forall i | 0 <= i < |children| :: children[i] in Reposition(pos, children, widths, childX, y)
    ensures Keeps(pos, Reposition(pos, children, widths, childX, y), children)
    decreases |children|
  {
    if children != [] {
      var placed := pos[children[0] := XY(childX + widths[0] / 2.0, y)];
      RepositionFrame(placed, children[1..], widths[1..], childX + widths[0] + HorizontalSpacing, y);
      var after := Reposition(placed, children[1..], widths[1..], childX + widths[0] + HorizontalSpacing, y);
      forall i | 0 <= i < |children|
        ensures children[i] in after
      {
        if i > 0 {
          assert children[i] == children[1..][i - 1];
        }
      }
    }
  }

  lemma RepositionUnfold(pos: Coords, children: seq<string>, widths: seq<real>, childX: real, y: real)
    requires |widths| == |children| && children != []
    ensures Reposition(pos, children, widths, childX, y) ==
            Reposition(pos[children[0] := XY(childX + widths[0] / 2.0, y)], children[1..], widths[1..],
                       childX + widths[0] + HorizontalSpacing, y)
  {
  }

  /** `children[i]` is not listed again after position i. */
  predicate ListedLast(children: seq<string>, i: nat)
    requires i < |children|
  {
    forall j | i < j < |children| :: children[j] != children[i]
  }

  /** A child that is not listed again later ends up centred on its span. */
  lemma {:induction false} RepositionPlaces(pos: Coords, children: seq<string>, widths: seq<real>, childX: real, y: real, i: nat)
    requires |widths| == |children|
    requires i < |children| && ListedLast(children, i)
    ensures children[i] in Reposition(pos, children, widths, childX, y) &&
            Reposition(pos, children, widths, childX, y)[children[i]] == XY(ChildStart(childX, widths, i) + widths[i] / 2.0, y)
    decreases |children|
  {
    var placed := pos[children[0] := XY(childX + widths[0] / 2.0, y)];
    var nextX := childX + widths[0] + HorizontalSpacing;
    var after := Reposition(placed, children[1..], widths[1..], nextX, y);
    RepositionUnfold(pos, children, widths, childX, y);
    ListedLastTail(children, i);
    if i == 0 {
      RepositionFrame(placed, children[1..], widths[1..], nextX, y);
      KeptOutside(placed, after, children[1..], children[0]);
    } else {
      RepositionPlaces(placed, children[1..], widths[1..], nextX, y, i - 1);
      ChildStartTail(childX, widths, i);
    }
  }

  /** Dropping the first child keeps a later child listed last. */
  lemma ListedLastTail(children: seq<string>, i: nat)
    requires i < |children| && ListedLast(children, i)
    ensures i == 0 ==> children[0] !in children[1..]
    ensures i > 0 ==> children[1..][i - 1] == children[i] && ListedLast(children[1..], i - 1)
  {
    if i == 0 {
      assert forall j | 0 <= j < |children| - 1 :: children[1..][j] == children[j + 1];
    }
  }

  /** The i-th start, counted from the second span on. */
  lemma ChildStartTail(startX: real, ws: seq<real>, i: nat)
    requires 0 < i <= |ws|
    ensures ChildStart(startX, ws, i) == ChildStart(startX + ws[0] + HorizontalSpacing, ws[1..], i - 1)
  {
  }

  /** Every child, listed once or more, ends up inside [lo, hi] whenever all
      the span centres do. */
  lemma {:induction false} RepositionWithin(pos: Coords, children: seq<string>, widths: seq<real>, childX: real, y: real, lo: real, hi: real)
    requires |widths| == |children|
    requires forall k | 0 <= k < |children| :: lo <= ChildStart(childX, widths, k) + widths[k] / 2.0 <= hi
    ensures forall k | 0 <= k < |children| ::
              children[k] in Reposition(pos, children, widths, childX, y) &&
              var p := Reposition(pos, children, widths, childX, y)[children[k]];
              lo <= p.x <= hi && p.y == y
    decreases |children|
  {
    if children != [] {
      var nextX := childX + widths[0] + HorizontalSpacing;
      var placed := pos[children[0] := XY(childX + widths[0] / 2.0, y)];
      forall k | 0 <= k < |children| - 1
        ensures lo <= ChildStart(nextX, widths[1..], k) + widths[1..][k] / 2.0 <= hi
      {
        assert ChildStart(childX, widths, k + 1) == ChildStart(nextX, widths[1..], k);
      }
      RepositionWithin(placed, children[1..], widths[1..], nextX, y, lo, hi);
      RepositionUnfold(pos, children, widths, childX, y);
      RepositionFrame(placed, children[1..], widths[1..], nextX, y);
      var after := Reposition(placed, children[1..], widths[1..], nextX, y);
      forall k | 0 <= k < |children|
        ensures children[k] in after && lo <= after[children[k]].x <= hi && after[children[k]].y == y
      {
        if k > 0 {
          assert children[k] == children[1..][k - 1];
        } else if children[0] in children[1..] {
          var j :| 0 <= j < |children| - 1 && children[1..][j] == children[0];
        } else {
          assert lo <= ChildStart(childX, widths, 0) + widths[0] / 2.0 <= hi;
          KeptOutside(placed, after, children[1..], children[0]);
        }
      }
    }
  }

  /** Every child already sits at the centre of its span on row y. */
  predicate Centred(pos: Coords, children: seq<string>, widths: seq<real>, childX: real, y: real)
    requires |widths| == |children|
  {
    forall k | 0 <= k < |children| ::
      children[k] in pos && pos[children[k]] == XY(ChildStart(childX, widths, k) + widths[k] / 2.0, y)
  }

  lemma CentredTail(pos: Coords, children: seq<string>, widths: seq<real>, childX: real, y: real)
    requires |widths| == |children| && children != [] && Centred(pos, children, widths, childX, y)
    ensures children[0] in pos && pos[children[0]] == XY(childX + widths[0] / 2.0, y)
    ensures Centred(pos, children[1..], widths[1..], childX + widths[0] + HorizontalSpacing, y)
  {
    assert pos[children[0]] == XY(ChildStart(childX, widths, 0) + widths[0] / 2.0, y);
    forall k | 0 <= k < |children| - 1
      ensures children[1..][k] in pos &&
              pos[children[1..][k]] == XY(ChildStart(childX + widths[0] + HorizontalSpacing, widths[1..], k) + widths[1..][k] / 2.0, y)
    {
      assert children[1..][k] == children[k + 1];
      assert pos[children[k + 1]] == XY(ChildStart(childX, widths, k + 1) + widths[k + 1] / 2.0, y);
    }
  }

  /** When every child already sits centred on its span, the re-assignment
      changes nothing. */
  lemma {:induction false} RepositionUnchanged(pos: Coords, children: seq<string>, widths: seq<real>, childX: real, y: real)
    requires |widths| == |children| && Centred(pos, children, widths, childX, y)
    ensures Reposition(pos, children, widths, childX, y) == pos
    decreases |children|
  {
    if children != [] {
      CentredTail(pos, children, widths, childX, y);
      var placed := pos[children[0] := XY(childX + widths[0] / 2.0, y)];
      assert placed == pos;
      RepositionUnchanged(pos, children[1..], widths[1..], childX + widths[0] + HorizontalSpacing, y);
      RepositionUnfold(pos, children, widths, childX, y);
    }
  }

  function LayoutChildren(skills: Skills, rank: map<string, nat>, children: seq<string>, bound: nat, level: nat, startX: real, pos: Coords): (res: LaidChildren)
    requires Ranked(skills, rank) && ChildrenBelow(skills, rank, children, bound)
    ensures |res.widths| == |children|
    decreases bound, 0, |children|
  {
    if children == [] then LaidChildren([], pos)
    else
      var first := Layout(skills, rank, children[0], level, startX, pos);
      var rest := LayoutChildren(skills, rank, children[1..], bound, level, startX + first.width + HorizontalSpacing, first.pos);
      LaidChildren([first.width] + rest.widths, rest.pos)
  }

  /** The state just before the re-assignment loop: the children laid out
      and the parent centred over them (`childrenWidths` kept for the loop). */
  function Centre(skills: Skills, rank: map<string, nat>, s: string, level: nat, startX: real, pos: Coords): (res: LaidChildren)
    requires Ranked(skills, rank) && s in skills && |skills[s].children| > 0
    ensures |res.widths| == |skills[s].children|
    ensures s in res.pos && res.pos[s] == XY(startX + TotalWidth(res.widths) / 2.0, level as real * LevelHeight)
    decreases rank[s], 0, |skills[s].children| + 1
  {
    var children := skills[s].children;
    var kids := LayoutChildren(skills, rank, children, rank[s], level + 1, startX, pos);
    var totalWidth := TotalWidth(kids.widths);
    var centerX := startX + totalWidth / 2.0;
    LaidChildren(kids.widths, kids.pos[s := XY(centerX, level as real * LevelHeight)])
  }

  /** `calculatePositions(skill, level, startX)` without the root-only step:
      the subtree's width and the coordinates with its nodes placed. */
  function Layout(skills: Skills, rank: map<string, nat>, s: string, level: nat, startX: real, pos: Coords): (res: Laid)
    requires Ranked(skills, rank) && s in skills
    ensures res.width >= NodeWidth
    ensures s in res.pos && res.pos[s] == XY(startX + res.width / 2.0, level as real * LevelHeight)
    decreases rank[s], 1, 0
  {
    var children := skills[s].children;
    if |children| > 0 then
      var centred := Centre(skills, rank, s, level, startX, pos);
      var totalWidth := TotalWidth(centred.widths);
      NotAmongChildren(skills, rank, children, rank[s], s);
      RepositionFrame(centred.pos, children, centred.widths, startX, (level + 1) as real * LevelHeight);
      Laid(totalWidth, Reposition(centred.pos, children, centred.widths, startX, (level + 1) as real * LevelHeight))
    else
      Laid(NodeWidth, pos[s := XY(startX + NodeWidth / 2.0, level as real * LevelHeight)])
  }

  lemma LayoutChildrenUnfold(skills: Skills, rank: map<string, nat>, children: seq<string>, bound: nat, level: nat, startX: real, pos: Coords)
    requires Ranked(skills, rank) && ChildrenBelow(skills, rank, children, bound) && children != []
    ensures var first := Layout(skills, rank, children[0], level, startX, pos);
            var rest := LayoutChildren(skills, rank, children[1..], bound, level, startX + first.width + HorizontalSpacing, first.pos);
            LayoutChildren(skills, rank, children, bound, level, startX, pos) == LaidChildren([first.width] + rest.widths, rest.pos)
  {
  }

  lemma LayoutUnfold(skills: Skills, rank: map<string, nat>, s: string, level: nat, startX: real, pos: Coords)
    requires Ranked(skills, rank) && s in skills && |skills[s].children| > 0
    ensures var children := skills[s].children;
            var kids := LayoutChildren(skills, rank, children, rank[s], level + 1, startX, pos);
            var centred := Centre(skills, rank, s, level, startX, pos);
            centred.widths == kids.widths &&
            centred.pos == kids.pos[s := centred.pos[s]] &&
            Layout(skills, rank, s, level, startX, pos) ==
              Laid(TotalWidth(kids.widths), Reposition(centred.pos, children, kids.widths, startX, (level + 1) as real * LevelHeight))
  {
  }

  /** The width `Layout` returns is the subtree width. */
  lemma {:induction false} LayoutWidth(skills: Skills, rank: map<string, nat>, s: string, level: nat, startX: real, pos: Coords)
    requires Ranked(skills, rank) && s in skills
    ensures Layout(skills, rank, s, level, startX, pos).width == SubtreeWidth(skills, rank, s)
    decreases rank[s], 1, 0
  {
    var children := skills[s].children;
    if |children| > 0 {
      LayoutChildrenWidths(skills, rank, children, rank[s], level + 1, startX, pos);
      LayoutUnfold(skills, rank, s, level, startX, pos);
    }
  }

  /** The widths `LayoutChildren` returns are the children's subtree widths. */
  lemma {:induction false} LayoutChildrenWidths(skills: Skills, rank: map<string, nat>, children: seq<string>, bound: nat, level: nat, startX: real, pos: Coords)
    requires Ranked(skills, rank) && ChildrenBelow(skills, rank, children, bound)
    ensures LayoutChildren(skills, rank, children, bound, level, startX, pos).widths == ChildWidths(skills, rank, children, bound)
    decreases bound, 0, |children|
  {
    if children != [] {
      var first := Layout(skills, rank, children[0], level, startX, pos);
      LayoutWidth(skills, rank, children[0], level, startX, pos);
      LayoutChildrenWidths(skills, rank, children[1..], bound, level, startX + first.width + HorizontalSpacing, first.pos);
      LayoutChildrenUnfold(skills, rank, children, bound, level, startX, pos);
    }
  }

  /** Every child appears in the traversal of the children. */
  lemma {:induction false} ChildInPreOrderAll(skills: Skills, rank: map<string, nat>, children: seq<string>, bound: nat, i: nat)
    requires Ranked(skills, rank) && ChildrenBelow(skills, rank, children, bound) && i < |children|
    ensures children[i] in PreOrderAll(skills, rank, children, bound)
    decreases i
  {
    var head := PreOrder(skills, rank, children[0]);
    var tail := PreOrderAll(skills, rank, children[1..], bound);
    assert PreOrderAll(skills, rank, children, bound) == head + tail;
    if i == 0 {
      assert head[0] == children[0];
    } else {
      ChildInPreOrderAll(skills, rank, children[1..], bound, i - 1);
      assert children[1..][i - 1] == children[i];
    }
  }

  /** Laying out a subtree leaves every name outside it where it was. */
  lemma {:induction false} LayoutFrame(skills: Skills, rank: map<string, nat>, s: string, level: nat, startX: real, pos: Coords)
    requires Ranked(skills, rank) && s in skills
    ensures Keeps(pos, Layout(skills, rank, s, level, startX, pos).pos, PreOrder(skills, rank, s))
    decreases rank[s], 1, 0
  {
    var children := skills[s].children;
    var order := PreOrder(skills, rank, s);
    var below := PreOrderAll(skills, rank, children, rank[s]);
    assert order == [s] + below;
    if |children| > 0 {
      var kids := LayoutChildren(skills, rank, children, rank[s], level + 1, startX, pos);
      LayoutChildrenFrame(skills, rank, children, rank[s], level + 1, startX, pos);
      LayoutUnfold(skills, rank, s, level, startX, pos);
      var centred := Centre(skills, rank, s, level, startX, pos);
      var childY := (level + 1) as real * LevelHeight;
      RepositionFrame(centred.pos, children, kids.widths, startX, childY);
      var after := Reposition(centred.pos, children, kids.widths, startX, childY);
      forall k | k in pos && k !in order
        ensures k in after && after[k] == pos[k]
      {
        if k in children {
          var i :| 0 <= i < |children| && children[i] == k;
          ChildInPreOrderAll(skills, rank, children, rank[s], i);
        }
        KeptOutside(pos, kids.pos, below, k);
        KeptOutside(centred.pos, after, children, k);
      }
    }
  }

  lemma {:induction false} LayoutChildrenFrame(skills: Skills, rank: map<string, nat>, children: seq<string>, bound: nat, level: nat, startX: real, pos: Coords)
    requires Ranked(skills, rank) && ChildrenBelow(skills, rank, children, bound)
    ensures Keeps(pos, LayoutChildren(skills, rank, children, bound, level, startX, pos).pos, PreOrderAll(skills, rank, children, bound))
    decreases bound, 0, |children|
  {
    if children != [] {
      var first := Layout(skills, rank, children[0], level, startX, pos);
      var nextX := startX + first.width + HorizontalSpacing;
      LayoutFrame(skills, rank, children[0], level, startX, pos);
      LayoutChildrenFrame(skills, rank, children[1..], bound, level, nextX, first.pos);
      LayoutChildrenUnfold(skills, rank, children, bound, level, startX, pos);
      var rest := LayoutChildren(skills, rank, children[1..], bound, level, nextX, first.pos);
      var ownOrder := PreOrder(skills, rank, children[0]);
      var restOrder := PreOrderAll(skills, rank, children[1..], bound);
      assert PreOrderAll(skills, rank, children, bound) == ownOrder + restOrder;
      FrameCompose(pos, first.pos, rest.pos, ownOrder, restOrder);
    }
  }

  /** Two steps that each keep everything outside their own names keep
      everything outside both. */
  lemma FrameCompose(pos: Coords, mid: Coords, out: Coords, a: seq<string>, b: seq<string>)
    requires Keeps(pos, mid, a) && Keeps(mid, out, b)
    ensures Keeps(pos, out, a + b)
  {
    forall k | k in pos && k !in a + b
      ensures k in out && out[k] == pos[k]
    {
      assert k !in a && k !in b;
    }
  }

  /** Each child listed once among its siblings is centred on its span, one
      level below the parent. */
  lemma LayoutPlacesChildren(skills: Skills, rank: map<string, nat>, s: string, level: nat, startX: real, pos: Coords, i: nat)
    requires Ranked(skills, rank) && s in skills
    requires i < |skills[s].children| && ListedLast(skills[s].children, i)
    ensures var ws := ChildWidths(skills, rank, skills[s].children, rank[s]);
            var res := Layout(skills, rank, s, level, startX, pos);
            skills[s].children[i] in res.pos &&
            res.pos[skills[s].children[i]] == XY(ChildStart(startX, ws, i) + ws[i] / 2.0, (level + 1) as real * LevelHeight)
  {
    var children := skills[s].children;
    var childY := (level + 1) as real * LevelHeight;
    var ws := ChildWidths(skills, rank, children, rank[s]);
    LayoutIsReposition(skills, rank, s, level, startX, pos);
    RepositionPlaces(Centre(skills, rank, s, level, startX, pos).pos, children, ws, startX, childY, i);
  }

  /** A parent's layout is its children's layout with the parent centred,
      followed by the re-assignment over the children's widths. */
  lemma LayoutIsReposition(skills: Skills, rank: map<string, nat>, s: string, level: nat, startX: real, pos: Coords)
    requires Ranked(skills, rank) && s in skills && |skills[s].children| > 0
    ensures var children := skills[s].children;
            Layout(skills, rank, s, level, startX, pos).pos ==
            Reposition(Centre(skills, rank, s, level, startX, pos).pos, children,
                       ChildWidths(skills, rank, children, rank[s]), startX, (level + 1) as real * LevelHeight)
  {
    LayoutUnfold(skills, rank, s, level, startX, pos);
    LayoutChildrenWidths(skills, rank, skills[s].children, rank[s], level + 1, startX, pos);
  }

  /** Under a tree (no name reached twice) each child of the laid-out list
      ends up centred on its own span. */
  lemma {:induction false} LayoutChildrenPlaces(skills: Skills, rank: map<string, nat>, children: seq<string>, bound: nat, level: nat, startX: real, pos: Coords, i: nat)
    requires Ranked(skills, rank) && ChildrenBelow(skills, rank, children, bound)
    requires Distinct(PreOrderAll(skills, rank, children, bound))
    requires i < |children|
    ensures var res := LayoutChildren(skills, rank, children, bound, level, startX, pos);
            children[i] in res.pos &&
            res.pos[children[i]] == XY(ChildStart(startX, res.widths, i) + res.widths[i] / 2.0, level as real * LevelHeight)
    decreases |children|
  {
    if i == 0 {
      FirstChildPlaced(skills, rank, children, bound, level, startX, pos);
    } else {
      var first := Layout(skills, rank, children[0], level, startX, pos);
      var nextX := startX + first.width + HorizontalSpacing;
      var rest := LayoutChildren(skills, rank, children[1..], bound, level, nextX, first.pos);
      var res := LayoutChildren(skills, rank, children, bound, level, startX, pos);
      LayoutChildrenUnfold(skills, rank, children, bound, level, startX, pos);
      assert res.pos == rest.pos && res.widths == [first.width] + rest.widths;
      var head := PreOrder(skills, rank, children[0]);
      var tail := PreOrderAll(skills, rank, children[1..], bound);
      assert PreOrderAll(skills, rank, children, bound) == head + tail;
      DistinctSplit(head, tail);
      assert children[1..][i - 1] == children[i];
      LayoutChildrenPlaces(skills, rank, children[1..], bound, level, nextX, first.pos, i - 1);
      PlacedLater(rest.pos, res.pos, children[i], res.widths, rest.widths, first.width, startX, nextX, level as real * LevelHeight, i);
    }
  }

  /** The first child of the run: the later subtrees do not contain it, so
      they leave it where its own layout put it. */
  lemma FirstChildPlaced(skills: Skills, rank: map<string, nat>, children: seq<string>, bound: nat, level: nat, startX: real, pos: Coords)
    requires Ranked(skills, rank) && ChildrenBelow(skills, rank, children, bound) && children != []
    requires Distinct(PreOrderAll(skills, rank, children, bound))
    ensures var res := LayoutChildren(skills, rank, children, bound, level, startX, pos);
            children[0] in res.pos &&
            res.pos[children[0]] == XY(ChildStart(startX, res.widths, 0) + res.widths[0] / 2.0, level as real * LevelHeight)
  {
    var first := Layout(skills, rank, children[0], level, startX, pos);
    var nextX := startX + first.width + HorizontalSpacing;
    var rest := LayoutChildren(skills, rank, children[1..], bound, level, nextX, first.pos);
    var res := LayoutChildren(skills, rank, children, bound, level, startX, pos);
    LayoutChildrenUnfold(skills, rank, children, bound, level, startX, pos);
    var head := PreOrder(skills, rank, children[0]);
    var tail := PreOrderAll(skills, rank, children[1..], bound);
    assert PreOrderAll(skills, rank, children, bound) == head + tail;
    DistinctSplit(head, tail);
    assert children[0] !in tail by {
      assert head[0] == children[0];
    }
    LayoutChildrenFrame(skills, rank, children[1..], bound, level, nextX, first.pos);
    PlacedFirst(first.pos, rest.pos, res.pos, tail, children[0], res.widths, rest.widths, first.width, startX, level as real * LevelHeight);
  }

  /** The first child keeps the centre its own layout gave it. */
  lemma PlacedFirst(firstPos: Coords, restPos: Coords, resPos: Coords, tail: seq<string>, c: string,
                    resW: seq<real>, restW: seq<real>, w: real, startX: real, y: real)
    requires c in firstPos && firstPos[c] == XY(startX + w / 2.0, y)
    requires Keeps(firstPos, restPos, tail) && c !in tail
    requires resPos == restPos && resW == [w] + restW
    ensures c in resPos && resPos[c] == XY(ChildStart(startX, resW, 0) + resW[0] / 2.0, y)
  {
  }

  /** A later child keeps the centre the rest of the list gave it, which is
      its centre counted from the first child's start. */
  lemma PlacedLater(restPos: Coords, resPos: Coords, c: string, resW: seq<real>, restW: seq<real>,
                    w: real, startX: real, nextX: real, y: real, i: nat)
    requires 0 < i <= |restW| && resW == [w] + restW && resPos == restPos
    requires nextX == startX + w + HorizontalSpacing
    requires c in restPos && restPos[c] == XY(ChildStart(nextX, restW, i - 1) + restW[i - 1] / 2.0, y)
    ensures c in resPos && resPos[c] == XY(ChildStart(startX, resW, i) + resW[i] / 2.0, y)
  {
    ChildStartCons(startX, w, restW, i - 1);
  }

  /** In a tree the source's second pass over the children rewrites the
      values the recursive calls already stored: the final coordinates are
      those with the children laid out and the parent centred. */
  lemma ReassignIsNoOp(skills: Skills, rank: map<string, nat>, s: string, level: nat, startX: real, pos: Coords)
    requires Ranked(skills, rank) && s in skills && |skills[s].children| > 0
    requires Distinct(PreOrder(skills, rank, s))
    ensures Layout(skills, rank, s, level, startX, pos).pos == Centre(skills, rank, s, level, startX, pos).pos
  {
    var children := skills[s].children;
    var childY := (level + 1) as real * LevelHeight;
    var centred := Centre(skills, rank, s, level, startX, pos);
    LayoutUnfold(skills, rank, s, level, startX, pos);
    NotAmongChildren(skills, rank, children, rank[s], s);
    assert PreOrder(skills, rank, s) == [s] + PreOrderAll(skills, rank, children, rank[s]);
    DistinctSplit([s], PreOrderAll(skills, rank, children, rank[s]));
    forall k | 0 <= k < |children|
      ensures children[k] in centred.pos &&
              centred.pos[children[k]] == XY(ChildStart(startX, centred.widths, k) + centred.widths[k] / 2.0, childY)
    {
      LayoutChildrenPlaces(skills, rank, children, rank[s], level + 1, startX, pos, k);
    }
    assert Centred(centred.pos, children, centred.widths, startX, childY);
    RepositionUnchanged(centred.pos, children, centred.widths, startX, childY);
  }

  /** Every name in `names` has a coordinate with x in [lo, hi] and y >= ylo. */
  predicate Within(pos: Coords, names: seq<string>, lo: real, hi: real, ylo: real)
  {
    forall k | k in names :: k in pos && lo <= pos[k].x <= hi && pos[k].y >= ylo
  }

  /** The re-assignment step of `LayoutWithin`: if the parent and every node
      below it already lie in the box, and every child's span centre does,
      they still lie in it afterwards. */
  lemma RepositionKeepsWithin(kidsPos: Coords, s: string, c: XY, children: seq<string>, ws: seq<real>,
                              startX: real, childY: real, lo: real, hi: real, ylo: real, below: seq<string>)
    requires |ws| == |children|
    requires Within(kidsPos, below, lo, hi, ylo)
    requires forall k | 0 <= k < |children| :: lo <= ChildStart(startX, ws, k) + ws[k] / 2.0 <= hi
    requires childY >= ylo && lo <= c.x <= hi && c.y >= ylo
    ensures Within(Reposition(kidsPos[s := c], children, ws, startX, childY), [s] + below, lo, hi, ylo)
  {
    var placed := kidsPos[s := c];
    var after := Reposition(placed, children, ws, startX, childY);
    RepositionWithin(placed, children, ws, startX, childY, lo, hi);
    RepositionFrame(placed, children, ws, startX, childY);
    forall k | k in [s] + below
      ensures k in after && lo <= after[k].x <= hi && after[k].y >= ylo
    {
      if k in children {
        var i :| 0 <= i < |children| && children[i] == k;
      } else {
        KeptOutside(placed, after, children, k);
      }
    }
  }

  /** Every node of a laid-out subtree lies inside the subtree's span, at
      its level or below: its box `x +- NodeWidth / 2` fits in
      [startX, startX + width]. */
  lemma {:induction false} LayoutWithin(skills: Skills, rank: map<string, nat>, s: string, level: nat, startX: real, pos: Coords)
    requires Ranked(skills, rank) && s in skills
    ensures var res := Layout(skills, rank, s, level, startX, pos);
            Within(res.pos, PreOrder(skills, rank, s),
                   startX + NodeWidth / 2.0, startX + res.width - NodeWidth / 2.0, level as real * LevelHeight)
    decreases rank[s], 1, 0
  {
    var children := skills[s].children;
    assert PreOrder(skills, rank, s) == [s] + PreOrderAll(skills, rank, children, rank[s]);
    if |children| > 0 {
      LayoutChildrenWithin(skills, rank, children, rank[s], level + 1, startX, pos);
      ParentWithin(skills, rank, s, level, startX, pos);
    }
  }

  /** The parent step of `LayoutWithin`: once the children's run lies inside
      its span, the whole subtree lies inside the parent's. */
  lemma ParentWithin(skills: Skills, rank: map<string, nat>, s: string, level: nat, startX: real, pos: Coords)
    requires Ranked(skills, rank) && s in skills && |skills[s].children| > 0
    requires var kids := LayoutChildren(skills, rank, skills[s].children, rank[s], level + 1, startX, pos);
             Within(kids.pos, PreOrderAll(skills, rank, skills[s].children, rank[s]),
                    startX + NodeWidth / 2.0, startX + Span(kids.widths) - NodeWidth / 2.0, (level + 1) as real * LevelHeight)
    ensures var res := Layout(skills, rank, s, level, startX, pos);
            Within(res.pos, [s] + PreOrderAll(skills, rank, skills[s].children, rank[s]),
                   startX + NodeWidth / 2.0, startX + res.width - NodeWidth / 2.0, level as real * LevelHeight)
  {
    var children := skills[s].children;
    var kids := LayoutChildren(skills, rank, children, rank[s], level + 1, startX, pos);
    var centred := Centre(skills, rank, s, level, startX, pos);
    LayoutUnfold(skills, rank, s, level, startX, pos);
    LayoutChildrenWidths(skills, rank, children, rank[s], level + 1, startX, pos);
    SpanWithin(kids.pos, s, centred.pos[s], children, kids.widths, startX, level, PreOrderAll(skills, rank, children, rank[s]));
  }

  /** `ParentWithin` on plain coordinates: centring the parent over a run of
      children that lies inside its span, then re-placing the children, keeps
      everything inside the parent's span. */
  lemma SpanWithin(kidsPos: Coords, s: string, c: XY, children: seq<string>, ws: seq<real>, startX: real, level: nat, below: seq<string>)
    requires |ws| == |children| && children != []
    requires c == XY(startX + TotalWidth(ws) / 2.0, level as real * LevelHeight)
    requires forall i | 0 <= i < |ws| :: ws[i] >= NodeWidth
    requires Within(kidsPos, below, startX + NodeWidth / 2.0, startX + Span(ws) - NodeWidth / 2.0, (level + 1) as real * LevelHeight)
    ensures Within(Reposition(kidsPos[s := c], children, ws, startX, (level + 1) as real * LevelHeight), [s] + below,
                   startX + NodeWidth / 2.0, startX + TotalWidth(ws) - NodeWidth / 2.0, level as real * LevelHeight)
  {
    var lo := startX + NodeWidth / 2.0;
    var hi := startX + TotalWidth(ws) - NodeWidth / 2.0;
    assert TotalWidth(ws) >= Span(ws);
    forall k | 0 <= k < |children|
      ensures lo <= ChildStart(startX, ws, k) + ws[k] / 2.0 <= hi
    {
      ChildSpanInside(startX, ws, k);
    }
    WithinWiden(kidsPos, below, startX + NodeWidth / 2.0, startX + Span(ws) - NodeWidth / 2.0, (level + 1) as real * LevelHeight,
                lo, hi, level as real * LevelHeight);
    RepositionKeepsWithin(kidsPos, s, c, children, ws,
                          startX, (level + 1) as real * LevelHeight, lo, hi, level as real * LevelHeight, below);
  }

  /** A box can always be widened. */
  lemma WithinWiden(pos: Coords, names: seq<string>, lo: real, hi: real, ylo: real, lo': real, hi': real, ylo': real)
    requires Within(pos, names, lo, hi, ylo) && lo' <= lo && hi <= hi' && ylo' <= ylo
    ensures Within(pos, names, lo', hi', ylo')
  {
  }

  /** The nodes of a non-empty run of subtrees lie inside the run's span. */
  lemma {:induction false} LayoutChildrenWithin(skills: Skills, rank: map<string, nat>, children: seq<string>, bound: nat, level: nat, startX: real, pos: Coords)
    requires Ranked(skills, rank) && ChildrenBelow(skills, rank, children, bound) && children != []
    ensures var res := LayoutChildren(skills, rank, children, bound, level, startX, pos);
            Within(res.pos, PreOrderAll(skills, rank, children, bound),
                   startX + NodeWidth / 2.0, startX + Span(res.widths) - NodeWidth / 2.0, level as real * LevelHeight)
    decreases bound, 0, |children|
  {
    var first := Layout(skills, rank, children[0], level, startX, pos);
    var nextX := startX + first.width + HorizontalSpacing;
    var rest := LayoutChildren(skills, rank, children[1..], bound, level, nextX, first.pos);
    var res := LayoutChildren(skills, rank, children, bound, level, startX, pos);
    var y := level as real * LevelHeight;
    LayoutChildrenUnfold(skills, rank, children, bound, level, startX, pos);
    var head := PreOrder(skills, rank, children[0]);
    var tail := PreOrderAll(skills, rank, children[1..], bound);
    assert PreOrderAll(skills, rank, children, bound) == head + tail;
    LayoutWithin(skills, rank, children[0], level, startX, pos);
    LayoutChildrenFrame(skills, rank, children[1..], bound, level, nextX, first.pos);
    assert res.pos == rest.pos;
    var lo := startX + NodeWidth / 2.0;
    var hi1 := startX + first.width - NodeWidth / 2.0;
    if children[1..] == [] {
      assert res.widths == [first.width];
      SpanCons(first.width, [0.0]);
      WithinCompose(first.pos, rest.pos, head, tail, lo, startX + Span(res.widths) - NodeWidth / 2.0, hi1, lo, hi1, y);
    } else {
      LayoutChildrenWithin(skills, rank, children[1..], bound, level, nextX, first.pos);
      LayoutChildrenWidths(skills, rank, children[1..], bound, level, nextX, first.pos);
      SpanCons(first.width, rest.widths);
      SumNonNegative(rest.widths);
      assert Span(rest.widths) >= 0.0;
      WithinCompose(first.pos, rest.pos, head, tail, lo, startX + Span(res.widths) - NodeWidth / 2.0, hi1,
                    nextX + NodeWidth / 2.0, nextX + Span(rest.widths) - NodeWidth / 2.0, y);
    }
  }

  /** The bounds of the first subtree and of the rest of the list combine:
      the rest's layout keeps the first subtree's nodes it does not contain. */
  lemma WithinCompose(firstPos: Coords, restPos: Coords, head: seq<string>, tail: seq<string>,
                      lo: real, hi: real, hi1: real, lo2: real, hi2: real, ylo: real)
    requires hi1 <= hi && lo <= lo2 && hi2 <= hi
    requires Within(firstPos, head, lo, hi1, ylo) && Keeps(firstPos, restPos, tail)
    requires tail != [] ==> Within(restPos, tail, lo2, hi2, ylo)
    ensures Within(restPos, head + tail, lo, hi, ylo)
  {
    forall k | k in head + tail
      ensures k in restPos && lo <= restPos[k].x <= hi && restPos[k].y >= ylo
    {
      if k !in tail {
        KeptOutside(firstPos, restPos, tail, k);
      }
    }
  }
}
