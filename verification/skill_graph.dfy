/** The node map of the skill tree (static/ts/skillTree.ts): skills keyed by
    name, each listing its children by name. The source never checks that
    the children resolve or that the links are acyclic (a dangling or cyclic
    link makes it crash or recurse forever), so every traversal here requires
    a rank witness: each child exists and has a smaller rank than its parent. */
module SkillGraph {

  /** A skill: the authored fields plus the computed position and the unlock
      flag (an absent `unlocked` is `false`). */
  datatype Skill = Skill(
    name: string,
    children: seq<string>,
    love: int,
    icon: string,
    x: real,
    y: real,
    unlocked: bool)

  type Skills = map<string, Skill>

  /** The name the layout, drawing and click search start from. */
  const RootSkill: string := "Technology Skills"

  /** Every name in `children` resolves and ranks below `bound`. */
  predicate ChildrenBelow(skills: Skills, rank: map<string, nat>, children: seq<string>, bound: nat)
    decreases |children|
  {
    children == [] ||
    (children[0] in skills && children[0] in rank && rank[children[0]] < bound &&
     ChildrenBelow(skills, rank, children[1..], bound))
  }

  /** `rank` witnesses that the child links are well founded. */
  predicate Ranked(skills: Skills, rank: map<string, nat>)
  {
    forall k | k in skills :: k in rank && ChildrenBelow(skills, rank, skills[k].children, rank[k])
  }

  /** `ChildrenBelow` one child at a time. */
  lemma {:induction false} ChildrenBelowAt(skills: Skills, rank: map<string, nat>, children: seq<string>, bound: nat, i: nat)
    requires ChildrenBelow(skills, rank, children, bound) && i < |children|
    ensures children[i] in skills && children[i] in rank && rank[children[i]] < bound
    decreases i
  {
    if i > 0 {
      ChildrenBelowAt(skills, rank, children[1..], bound, i - 1);
    }
  }

  /** A name ranked at or above the bound is not among the children; in
      particular no skill is its own child. */
  lemma {:induction false} NotAmongChildren(skills: Skills, rank: map<string, nat>, children: seq<string>, bound: nat, x: string)
    requires ChildrenBelow(skills, rank, children, bound) && x in rank && rank[x] >= bound
    ensures x !in children
    decreases |children|
  {
    if children != [] {
      NotAmongChildren(skills, rank, children[1..], bound, x);
    }
  }

  /** Only membership in the map matters to `ChildrenBelow`. */
  lemma {:induction false} ChildrenBelowSameKeys(a: Skills, b: Skills, rank: map<string, nat>, children: seq<string>, bound: nat)
    requires a.Keys == b.Keys && ChildrenBelow(a, rank, children, bound)
    ensures ChildrenBelow(b, rank, children, bound)
    decreases |children|
  {
    if children != [] {
      ChildrenBelowSameKeys(a, b, rank, children[1..], bound);
    }
  }

  /** Same names and same child lists; other fields may differ. */
  predicate SameShape(a: Skills, b: Skills)
  {
    a.Keys == b.Keys && forall k | k in a :: b[k].children == a[k].children
  }

  lemma RankedSameShape(a: Skills, b: Skills, rank: map<string, nat>)
    requires Ranked(a, rank) && SameShape(a, b)
    ensures Ranked(b, rank)
  {
    forall k | k in b
      ensures k in rank && ChildrenBelow(b, rank, b[k].children, rank[k])
    {
      ChildrenBelowSameKeys(a, b, rank, a[k].children, rank[k]);
    }
  }

  /** The order the click search visits the subtree below `s`: the node,
      then each child's subtree in `children` order. */
  function PreOrder(skills: Skills, rank: map<string, nat>, s: string): (order: seq<string>)
    requires Ranked(skills, rank) && s in skills
    ensures |order| >= 1 && order[0] == s
    decreases rank[s], 1, 0
  {
    [s] + PreOrderAll(skills, rank, skills[s].children, rank[s])
  }

  /** The pre-orders of `children`, one after the other. */
  function PreOrderAll(skills: Skills, rank: map<string, nat>, children: seq<string>, bound: nat): (order: seq<string>)
    requires Ranked(skills, rank) && ChildrenBelow(skills, rank, children, bound)
    ensures children == [] <==> order == []
    decreases bound, 0, |children|
  {
    if children == [] then []
    else PreOrder(skills, rank, children[0]) + PreOrderAll(skills, rank, children[1..], bound)
  }

  /** Every name the traversal visits is a skill. */
  lemma {:induction false} PreOrderInSkills(skills: Skills, rank: map<string, nat>, s: string)
    requires Ranked(skills, rank) && s in skills
    ensures forall i | 0 <= i < |PreOrder(skills, rank, s)| :: PreOrder(skills, rank, s)[i] in skills
    decreases rank[s], 1, 0
  {
    PreOrderAllInSkills(skills, rank, skills[s].children, rank[s]);
  }

  lemma {:induction false} PreOrderAllInSkills(skills: Skills, rank: map<string, nat>, children: seq<string>, bound: nat)
    requires Ranked(skills, rank) && ChildrenBelow(skills, rank, children, bound)
    ensures forall i | 0 <= i < |PreOrderAll(skills, rank, children, bound)| :: PreOrderAll(skills, rank, children, bound)[i] in skills
    decreases bound, 0, |children|
  {
    if children != [] {
      PreOrderInSkills(skills, rank, children[0]);
      PreOrderAllInSkills(skills, rank, children[1..], bound);
    }
  }

  /** No name occurs twice. */
  predicate Distinct(xs: seq<string>)
  {
    forall i, j | 0 <= i < j < |xs| :: xs[i] != xs[j]
  }

  lemma DistinctSplit(a: seq<string>, b: seq<string>)
    requires Distinct(a + b)
    ensures Distinct(a) && Distinct(b)
    ensures forall x | x in a :: x !in b
  {
    assert forall i | 0 <= i < |a| :: (a + b)[i] == a[i];
    assert forall j | 0 <= j < |b| :: (a + b)[|a| + j] == b[j];
  }
}
