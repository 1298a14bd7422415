/** The whole `calculatePositions()` call the skill tree's constructor makes
    (static/ts/skillTree.ts): lay out the tree from the root at level 0 and
    x = 0, write every computed centre back into its skill record, unlock the
    root and widen the canvas to the tree's width plus one node. */
module SkillPositions {
  import opened Common
  import opened SkillGraph
  import opened SkillLayout

  /** What the call leaves behind: the updated records, the canvas width and
      the root subtree's width (the value the call returns). */
  datatype Positioned = Positioned(skills: Skills, canvasWidth: real, width: real)

  /** The records with the centres in `pos` written into them. */
  function WriteBack(skills: Skills, pos: Coords): (out: Skills)
    ensures out.Keys == skills.Keys
  {
    map k | k in skills :: if k in pos then skills[k].(x := pos[k].x, y := pos[k].y) else skills[k]
  }

  /** The root step: mark the root unlocked. */
  function UnlockRoot(skills: Skills): (out: Skills)
    requires RootSkill in skills
    ensures out.Keys == skills.Keys
  {
    skills[RootSkill := skills[RootSkill].(unlocked := true)]
  }

  function CalculatePositions(skills: Skills, rank: map<string, nat>, canvasWidth: real): (res: Positioned)
    requires Ranked(skills, rank) && RootSkill in skills
    ensures res.skills.Keys == skills.Keys
    ensures res.canvasWidth >= canvasWidth
    ensures res.canvasWidth >= res.width + NodeWidth
    ensures res.canvasWidth == canvasWidth || res.canvasWidth == res.width + NodeWidth
    ensures res.width >= NodeWidth
  {
    var laid := Layout(skills, rank, RootSkill, 0, 0.0, CoordsOf(skills));
    Positioned(UnlockRoot(WriteBack(skills, laid.pos)), MaxReal(canvasWidth, laid.width + NodeWidth), laid.width)
  }

  /** Only the coordinates and the root's flag change: names, child lists,
      love and icons stay, and a skill ends up unlocked exactly when it was
      already or it is the root. */
  lemma PositionsKeepRecords(skills: Skills, rank: map<string, nat>, canvasWidth: real)
    requires Ranked(skills, rank) && RootSkill in skills
    ensures var res := CalculatePositions(skills, rank, canvasWidth);
            forall k | k in skills ::
              res.skills[k].name == skills[k].name &&
              res.skills[k].children == skills[k].children &&
              res.skills[k].love == skills[k].love &&
              res.skills[k].icon == skills[k].icon &&
              res.skills[k].unlocked == (skills[k].unlocked || k == RootSkill)
    ensures SameShape(skills, CalculatePositions(skills, rank, canvasWidth).skills)
    ensures Ranked(CalculatePositions(skills, rank, canvasWidth).skills, rank)
  {
    var res := CalculatePositions(skills, rank, canvasWidth);
    RankedSameShape(skills, res.skills, rank);
  }

  /** The returned width is the root's subtree width, and the root is drawn
      at the top, centred over it. */
  lemma PositionsRoot(skills: Skills, rank: map<string, nat>, canvasWidth: real)
    requires Ranked(skills, rank) && RootSkill in skills
    ensures var res := CalculatePositions(skills, rank, canvasWidth);
            res.width == SubtreeWidth(skills, rank, RootSkill) &&
            res.skills[RootSkill].x == res.width / 2.0 &&
            res.skills[RootSkill].y == 0.0
  {
    LayoutWidth(skills, rank, RootSkill, 0, 0.0, CoordsOf(skills));
  }

  /** Every node reachable from the root fits horizontally on the canvas with
      its whole box, at least half a node clear of the left edge and a node
      and a half clear of the right one; its centre is at or below the top
      edge. */
  lemma PositionsFitCanvas(skills: Skills, rank: map<string, nat>, canvasWidth: real)
    requires Ranked(skills, rank) && RootSkill in skills
    ensures var res := CalculatePositions(skills, rank, canvasWidth);
            forall k | k in PreOrder(skills, rank, RootSkill) ::
              k in res.skills &&
              NodeWidth / 2.0 <= res.skills[k].x <= res.width - NodeWidth / 2.0 &&
              res.skills[k].x + NodeWidth / 2.0 <= res.canvasWidth - NodeWidth &&
              res.skills[k].y >= 0.0
  {
    var pos := CoordsOf(skills);
    var laid := Layout(skills, rank, RootSkill, 0, 0.0, pos);
    LayoutWithin(skills, rank, RootSkill, 0, 0.0, pos);
    PreOrderInSkills(skills, rank, RootSkill);
    var res := CalculatePositions(skills, rank, canvasWidth);
    forall k | k in PreOrder(skills, rank, RootSkill)
      ensures k in res.skills && res.skills[k].x == laid.pos[k].x && res.skills[k].y == laid.pos[k].y
    {
    }
  }

  /** Skills the root does not reach keep the coordinates they had. */
  lemma PositionsOutsideTree(skills: Skills, rank: map<string, nat>, canvasWidth: real)
    requires Ranked(skills, rank) && RootSkill in skills
    ensures var res := CalculatePositions(skills, rank, canvasWidth);
            forall k | k in skills && k !in PreOrder(skills, rank, RootSkill) ::
              res.skills[k].x == skills[k].x && res.skills[k].y == skills[k].y
  {
    LayoutFrame(skills, rank, RootSkill, 0, 0.0, CoordsOf(skills));
  }

  /** A root with two leaf children "B" and "C". */
  const ExampleSkills: Skills := map[
    RootSkill := Skill(RootSkill, ["B", "C"], 10, "", 0.0, 0.0, false),
    "B" := Skill("B", [], 8, "", 0.0, 0.0, false),
    "C" := Skill("C", [], 6, "", 0.0, 0.0, false)]

  const ExampleRank: map<string, nat> := map[RootSkill := 1, "B" := 0, "C" := 0]

  lemma ExampleRanked()
    ensures Ranked(ExampleSkills, ExampleRank)
    ensures ExampleSkills[RootSkill].children == ["B", "C"]
  {
    assert "B" != RootSkill && "C" != RootSkill;
    assert ChildrenBelow(ExampleSkills, ExampleRank, ["C"], 1);
  }

  /** Both leaves are one node wide and the root spans them plus one gap. */
  lemma ExampleWidths()
    ensures Ranked(ExampleSkills, ExampleRank)
    ensures ChildWidths(ExampleSkills, ExampleRank, ["B", "C"], 1) == [200.0, 200.0]
    ensures SubtreeWidth(ExampleSkills, ExampleRank, RootSkill) == 460.0
  {
    ExampleRanked();
    var skills := ExampleSkills;
    var rank := ExampleRank;
    assert SubtreeWidth(skills, rank, "B") == 200.0 && SubtreeWidth(skills, rank, "C") == 200.0;
    assert ["B", "C"][1..] == ["C"] && ["C"][1..] == [];
    var ws := ChildWidths(skills, rank, ["B", "C"], 1);
    assert ws == [200.0, 200.0];
    assert Sum(ws) == 400.0 by {
      assert ws[1..] == [200.0];
      assert Sum([200.0]) == 200.0 + Sum([]);
    }
  }

  /** The leaves sit side by side one gap apart, the root is centred over
      both, and the 1400-wide canvas is already wide enough. */
  lemma ExamplePositions()
    ensures Ranked(ExampleSkills, ExampleRank)
    ensures var res := CalculatePositions(ExampleSkills, ExampleRank, InitialCanvasWidth);
            res.width == 460.0 && res.canvasWidth == 1400.0 &&
            res.skills["B"].x == 100.0 && res.skills["B"].y == 200.0 &&
            res.skills["C"].x == 360.0 && res.skills["C"].y == 200.0 &&
            res.skills[RootSkill].x == 230.0 && res.skills[RootSkill].y == 0.0 &&
            res.skills[RootSkill].unlocked && !res.skills["B"].unlocked
  {
    ExampleWidths();
    ExampleRanked();
    var skills := ExampleSkills;
    var rank := ExampleRank;
    var pos := CoordsOf(skills);
    var ws := [200.0, 200.0];
    assert "B" != RootSkill && "C" != RootSkill && "B" != "C";
    LayoutPlacesChildren(skills, rank, RootSkill, 0, 0.0, pos, 0);
    LayoutPlacesChildren(skills, rank, RootSkill, 0, 0.0, pos, 1);
    assert ChildStart(0.0, ws, 1) == 260.0;
    PositionsRoot(skills, rank, InitialCanvasWidth);
  }
}
