/** Unlocking skills by clicking them (static/ts/skillTree.ts): `canUnlock`,
    the depth-first `checkNodeClick` search from the root, and `handleClick`,
    which turns a client position into tree coordinates. The source unlocks
    the first node of the search that is under the cursor and may be
    unlocked, then stops; here the search is a pure function naming that node
    and the unlock is one record update. */
module SkillUnlock {
  import opened Common
  import opened SkillGraph
  import opened Panning
  import SkillLayout
  import SkillPositions

  /** Some unlocked skill lists `s` among its children. */
  predicate HasUnlockedParent(skills: Skills, s: string)
  {
    exists k | k in skills :: s in skills[k].children && skills[k].unlocked
  }

  /** What `canUnlock` decides: a locked skill may be unlocked when it is the
      root or one of its parents is unlocked. */
  predicate Unlockable(skills: Skills, s: string)
    requires s in skills
  {
    !skills[s].unlocked && (s == RootSkill || HasUnlockedParent(skills, s))
  }

  /** `canUnlock`: the early returns, then a scan over every key. */
  method CanUnlock(skills: Skills, s: string) returns (ok: bool)
    requires s in skills
    ensures ok == Unlockable(skills, s)
  {
    if skills[s].unlocked {
      return false;
    }
    if s == RootSkill {
      return true;
    }
    var keys := skills.Keys;
    while keys != {}
      invariant keys <= skills.Keys
      invariant forall k | k in skills && k !in keys :: !(s in skills[k].children && skills[k].unlocked)
      decreases keys
    {
      var key :| key in keys;
      if s in skills[key].children && skills[key].unlocked {
        return true;
      }
      keys := keys - {key};
    }
    return false;
  }

  /** The node's box, edges included. */
  predicate InBox(skill: Skill, x: real, y: real)
  {
    skill.x - SkillLayout.NodeWidth / 2.0 <= x <= skill.x + SkillLayout.NodeWidth / 2.0 &&
    skill.y - SkillLayout.NodeHeight / 2.0 <= y <= skill.y + SkillLayout.NodeHeight / 2.0
  }

  /** The test `checkNodeClick` applies to one node. */
  predicate Clickable(skills: Skills, s: string, x: real, y: real)
  {
    s in skills && InBox(skills[s], x, y) && Unlockable(skills, s)
  }

  /** Reference: the first name in `order` that passes the test. */
  function First(skills: Skills, order: seq<string>, x: real, y: real): (r: Option<string>)
    ensures r.Some? ==> r.value in order && Clickable(skills, r.value, x, y)
    ensures r.None? <==> forall i | 0 <= i < |order| :: !Clickable(skills, order[i], x, y)
    decreases |order|
  {
    if order == [] then None
    else if Clickable(skills, order[0], x, y) then Some(order[0])
    else First(skills, order[1..], x, y)
  }

  /** `First` picks the earliest passing name: any passing name with only
      failing names before it is the one chosen. */
  lemma {:induction false} FirstIsEarliest(skills: Skills, order: seq<string>, x: real, y: real, i: nat)
    requires i < |order| && Clickable(skills, order[i], x, y)
    requires forall j | 0 <= j < i :: !Clickable(skills, order[j], x, y)
    ensures First(skills, order, x, y) == Some(order[i])
    decreases i
  {
    if i > 0 {
      FirstIsEarliest(skills, order[1..], x, y, i - 1);
    }
  }

  lemma {:induction false} FirstAppend(skills: Skills, a: seq<string>, b: seq<string>, x: real, y: real)
    ensures First(skills, a + b, x, y) ==
            if First(skills, a, x, y).Some? then First(skills, a, x, y) else First(skills, b, x, y)
    decreases |a|
  {
    if a != [] {
      assert (a + b)[1..] == a[1..] + b;
      FirstAppend(skills, a[1..], b, x, y);
    } else {
      assert a + b == b;
    }
  }

  /** `checkNodeClick(skill, x, y)` without the write: the node it unlocks,
      if any. The node itself is checked first, then each child's subtree in
      order; a node under the cursor that may not be unlocked does not stop
      the search. */
  function FindClick(skills: Skills, rank: map<string, nat>, s: string, x: real, y: real): (r: Option<string>)
    requires Ranked(skills, rank) && s in skills
    ensures r.Some? ==> Clickable(skills, r.value, x, y)
    decreases rank[s], 1, 0
  {
    if Clickable(skills, s, x, y) then Some(s)
    else FindClickAll(skills, rank, skills[s].children, rank[s], x, y)
  }

  /** The `for ... of currentSkill.children` loop: the first child subtree
      whose search succeeds. */
  function FindClickAll(skills: Skills, rank: map<string, nat>, children: seq<string>, bound: nat, x: real, y: real): (r: Option<string>)
    requires Ranked(skills, rank) && ChildrenBelow(skills, rank, children, bound)
    ensures r.Some? ==> Clickable(skills, r.value, x, y)
    decreases bound, 0, |children|
  {
    if children == [] then None
    else
      var r := FindClick(skills, rank, children[0], x, y);
      if r.Some? then r else FindClickAll(skills, rank, children[1..], bound, x, y)
  }

  /** The tree search finds exactly what a scan of the pre-order finds. */
  lemma {:induction false} FindClickIsFirst(skills: Skills, rank: map<string, nat>, s: string, x: real, y: real)
    requires Ranked(skills, rank) && s in skills
    ensures FindClick(skills, rank, s, x, y) == First(skills, PreOrder(skills, rank, s), x, y)
    decreases rank[s], 1, 0
  {
    var below := PreOrderAll(skills, rank, skills[s].children, rank[s]);
    FindClickAllIsFirst(skills, rank, skills[s].children, rank[s], x, y);
    FirstAppend(skills, [s], below, x, y);
    assert [s][1..] == [];
  }

  lemma {:induction false} FindClickAllIsFirst(skills: Skills, rank: map<string, nat>, children: seq<string>, bound: nat, x: real, y: real)
    requires Ranked(skills, rank) && ChildrenBelow(skills, rank, children, bound)
    ensures FindClickAll(skills, rank, children, bound, x, y) == First(skills, PreOrderAll(skills, rank, children, bound), x, y)
    decreases bound, 0, |children|
  {
    if children != [] {
      FindClickIsFirst(skills, rank, children[0], x, y);
      FindClickAllIsFirst(skills, rank, children[1..], bound, x, y);
      FirstAppend(skills, PreOrder(skills, rank, children[0]), PreOrderAll(skills, rank, children[1..], bound), x, y);
    }
  }

  /** What one call leaves behind: the records and the returned flag. */
  datatype Clicked = Clicked(skills: Skills, hit: bool)

  /** `checkNodeClick(skill, x, y)`: unlock the node the search finds. */
  function CheckNodeClick(skills: Skills, rank: map<string, nat>, s: string, x: real, y: real): (res: Clicked)
    requires Ranked(skills, rank) && s in skills
  {
    match FindClick(skills, rank, s, x, y)
    case Some(t) => Clicked(skills[t := skills[t].(unlocked := true)], true)
    case None => Clicked(skills, false)
  }

  /** A click reports a hit exactly when some node of the subtree is under
      the cursor and may be unlocked; it then unlocks the first such node of
      the pre-order, leaves every other record as it was, and otherwise
      changes nothing. */
  lemma ClickUnlocksFirst(skills: Skills, rank: map<string, nat>, s: string, x: real, y: real)
    requires Ranked(skills, rank) && s in skills
    ensures var res := CheckNodeClick(skills, rank, s, x, y);
            var order := PreOrder(skills, rank, s);
            res.skills.Keys == skills.Keys &&
            (res.hit <==> exists i | 0 <= i < |order| :: Clickable(skills, order[i], x, y)) &&
            (!res.hit ==> res.skills == skills) &&
            (res.hit ==> exists t | t in order ::
               Clickable(skills, t, x, y) && First(skills, order, x, y) == Some(t) &&
               res.skills[t] == skills[t].(unlocked := true) &&
               forall k | k in skills && k != t :: res.skills[k] == skills[k])
  {
    FindClickIsFirst(skills, rank, s, x, y);
    var res := CheckNodeClick(skills, rank, s, x, y);
    var r := FindClick(skills, rank, s, x, y);
    if r.Some? {
      assert r.value in PreOrder(skills, rank, s);
    }
  }

  /** Clicking only ever unlocks and never changes a child list, so the rank
      witness stays valid. */
  lemma ClickKeepsShape(skills: Skills, rank: map<string, nat>, s: string, x: real, y: real)
    requires Ranked(skills, rank) && s in skills
    ensures var after := CheckNodeClick(skills, rank, s, x, y).skills;
            SameShape(skills, after) && Ranked(after, rank) &&
            forall k | k in skills && skills[k].unlocked :: after[k].unlocked
  {
    var after := CheckNodeClick(skills, rank, s, x, y).skills;
    assert SameShape(skills, after);
    RankedSameShape(skills, after, rank);
  }

  /** The intended invariant of the unlock rule: every unlocked skill is the
      root or has an unlocked parent. */
  predicate UnlockedConnected(skills: Skills)
  {
    forall k | k in skills && skills[k].unlocked :: k == RootSkill || HasUnlockedParent(skills, k)
  }

  /** A click keeps every unlocked skill connected to the root. */
  lemma ClickKeepsConnected(skills: Skills, rank: map<string, nat>, s: string, x: real, y: real)
    requires Ranked(skills, rank) && s in skills && UnlockedConnected(skills)
    ensures UnlockedConnected(CheckNodeClick(skills, rank, s, x, y).skills)
  {
    var after := CheckNodeClick(skills, rank, s, x, y).skills;
    var r := FindClick(skills, rank, s, x, y);
    forall k | k in after && after[k].unlocked && k != RootSkill
      ensures HasUnlockedParent(after, k)
    {
      assert HasUnlockedParent(skills, k) by {
        if r == Some(k) {
          assert Unlockable(skills, k);
        } else {
          assert skills[k].unlocked;
        }
      }
      var p :| p in skills && k in skills[p].children && skills[p].unlocked;
      assert p in after && k in after[p].children && after[p].unlocked;
    }
  }

  /** The layout establishes the invariant from any connected state: it only
      unlocks the root. */
  lemma PositionsKeepConnected(skills: Skills, rank: map<string, nat>, canvasWidth: real)
    requires Ranked(skills, rank) && RootSkill in skills && UnlockedConnected(skills)
    ensures UnlockedConnected(SkillPositions.CalculatePositions(skills, rank, canvasWidth).skills)
  {
    var after := SkillPositions.CalculatePositions(skills, rank, canvasWidth).skills;
    SkillPositions.PositionsKeepRecords(skills, rank, canvasWidth);
    forall k | k in after && after[k].unlocked && k != RootSkill
      ensures HasUnlockedParent(after, k)
    {
      assert HasUnlockedParent(skills, k);
      var p :| p in skills && k in skills[p].children && skills[p].unlocked;
      assert p in after && k in after[p].children && after[p].unlocked;
    }
  }

  /** `handleClick`: the client position less the canvas corner and the pan
      offset gives the tree coordinates the search starts from at the root. */
  function HandleClick(skills: Skills, rank: map<string, nat>, offset: Point, corner: Point, client: Point): (res: Clicked)
    requires Ranked(skills, rank) && RootSkill in skills
  {
    var p := Delta(Shift(corner, offset), client);
    CheckNodeClick(skills, rank, RootSkill, p.x, p.y)
  }

  /** A node is hit where it is drawn: the drawing translates the tree by the
      pan offset inside the canvas, so a click hits node t exactly when the
      client position lies in t's box shifted by the corner and the offset. */
  lemma ClickWhereDrawn(skills: Skills, t: string, offset: Point, corner: Point, client: Point)
    requires t in skills
    ensures var p := Delta(Shift(corner, offset), client);
            InBox(skills[t], p.x, p.y) <==>
            InBox(skills[t].(x := skills[t].x + corner.x + offset.x, y := skills[t].y + corner.y + offset.y), client.x, client.y)
  {
  }

  /** Panning moves the drawing and the click together: shifting the offset
      and the client position by the same amount changes no outcome. */
  lemma HandleClickPanInvariant(skills: Skills, rank: map<string, nat>, offset: Point, corner: Point, client: Point, d: Point)
    requires Ranked(skills, rank) && RootSkill in skills
    ensures HandleClick(skills, rank, Shift(offset, d), corner, Shift(client, d)) ==
            HandleClick(skills, rank, offset, corner, client)
  {
    assert Delta(Shift(corner, Shift(offset, d)), Shift(client, d)) == Delta(Shift(corner, offset), client);
  }
}
