/** The two pieces of logic in the skill-tree printer
    (cmd/skilltree/main.go): the exchange sort that orders skills by
    descending love level before printing them, and the indentation of the
    printed tree. */
module LoveSort {

  /** The printer's skill record. */
  datatype Skill = Skill(name: string, children: seq<string>, love: int, icon: string)

  /** Ordered by non-increasing love. */
  predicate NonIncreasing(s: seq<Skill>)
  {
    forall i, j | 0 <= i < j < |s| :: s[i].love >= s[j].love
  }

  /** The double loop of `printSkillsSortedByLove`: for each position i,
      every later skill that loves more is swapped into position i. */
  method SortByLove(skills: seq<Skill>) returns (sorted: seq<Skill>)
    ensures multiset(sorted) == multiset(skills)
    ensures NonIncreasing(sorted)
    ensures NonIncreasing(skills) ==> sorted == skills
  {
    sorted := skills;
    var i := 0;
    while i < |sorted|
      invariant 0 <= i <= |sorted| == |skills|
      invariant multiset(sorted) == multiset(skills)
      invariant SortedBefore(sorted, i)
      invariant NonIncreasing(skills) ==> sorted == skills
    {
      sorted := PullMax(sorted, i);
      i := i + 1;
    }
  }

  /** The first i positions are in order and hold the i largest loves. */
  predicate SortedBefore(s: seq<Skill>, i: nat)
  {
    forall a, b | 0 <= a < b < |s| && a < i :: s[a].love >= s[b].love
  }

  /** The inner loop for position i: afterwards position i holds a largest
      love of the suffix, and nothing before it has moved. */
  method PullMax(s: seq<Skill>, i: nat) returns (out: seq<Skill>)
    requires i < |s| && SortedBefore(s, i)
    ensures multiset(out) == multiset(s) && |out| == |s|
    ensures SortedBefore(out, i + 1)
    ensures NonIncreasing(s) ==> out == s
  {
    out := s;
    var j := i + 1;
    while j < |out|
      invariant i + 1 <= j <= |out| == |s|
      invariant multiset(out) == multiset(s)
      invariant SortedBefore(out, i)
      invariant forall b | i < b < j :: out[i].love >= out[b].love
      invariant NonIncreasing(s) ==> out == s
    {
      if out[i].love < out[j].love {
        out := Swap(out, i, j);
      }
      j := j + 1;
    }
  }

  /** `skills[i], skills[j] = skills[j], skills[i]`. */
  function Swap(s: seq<Skill>, i: nat, j: nat): (t: seq<Skill>)
    requires i < j < |s|
    ensures |t| == |s| && multiset(t) == multiset(s)
    ensures t[i] == s[j] && t[j] == s[i]
    ensures forall k | 0 <= k < |s| && k != i && k != j :: t[k] == s[k]
  {
    s[i := s[j]][j := s[i]]
  }

  /** `strings.Repeat(s, n)`. */
  function Repeat(s: string, n: nat): string
    decreases n
  {
    if n == 0 then "" else s + Repeat(s, n - 1)
  }

  /** `getIndentation(depth)`: two spaces per level. Go's `strings.Repeat`
      panics on a negative count, so the depth is a natural number. */
  function Indentation(depth: nat): (indent: string)
    ensures |indent| == 2 * depth
    ensures forall i | 0 <= i < |indent| :: indent[i] == ' '
  {
    RepeatSpaces(depth);
    Repeat("  ", depth)
  }

  lemma {:induction false} RepeatSpaces(n: nat)
    ensures |Repeat("  ", n)| == 2 * n
    ensures forall i | 0 <= i < |Repeat("  ", n)| :: Repeat("  ", n)[i] == ' '
    decreases n
  {
    if n > 0 {
      RepeatSpaces(n - 1);
    }
  }

  /** One level deeper is the same indentation followed by two spaces. */
  lemma {:induction false} IndentationStep(depth: nat)
    ensures Indentation(depth + 1) == Indentation(depth) + "  "
    decreases depth
  {
    if depth > 0 {
      IndentationStep(depth - 1);
      assert Indentation(depth + 1) == "  " + Indentation(depth);
    }
  }
}
