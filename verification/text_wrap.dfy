/** The skill-name wrapping of the skill tree (`wrapText` in
    static/ts/skillTree.ts): the name is split on single spaces and packed
    greedily into lines, each word followed by one space. The canvas's
    `measureText` is a parameter, and the `fillText` calls become the list of
    lines the method returns. */
module TextWrap {
  import SkillLayout

  /** `drawNodes` wraps names to the node width less a gutter on each side,
      twenty pixels per line. */
  const Gutter: real := 20.0
  const LineHeight: real := 20.0
  const WrapWidth: real := SkillLayout.NodeWidth - Gutter * 2.0

  /** JavaScript's `text.split(" ")`: every single space separates two
      pieces, so adjacent, leading and trailing spaces give empty pieces, and
      the empty string gives one empty piece. */
  function Split(s: string): (words: seq<string>)
    ensures |words| >= 1
    ensures forall i | 0 <= i < |words| :: ' ' !in words[i]
    decreases |s|
  {
    if s == [] then [""]
    else
      var rest := Split(s[1..]);
      if s[0] == ' ' then [""] + rest
      else [[s[0]] + rest[0]] + rest[1..]
  }

  /** The pieces put back together with one space between neighbours. */
  function Join(words: seq<string>): string
    requires |words| >= 1
    decreases |words|
  {
    if |words| == 1 then words[0] else words[0] + " " + Join(words[1..])
  }

  /** Splitting loses nothing: joining the pieces gives the text back. */
  lemma {:induction false} JoinSplit(s: string)
    ensures Join(Split(s)) == s
    decreases |s|
  {
    if s != [] {
      var rest := Split(s[1..]);
      JoinSplit(s[1..]);
      assert s == [s[0]] + s[1..];
      if s[0] != ' ' {
        var words := Split(s);
        assert words[0] == [s[0]] + rest[0];
        if |rest| > 1 {
          assert words[1..] == rest[1..];
          assert Join(rest) == rest[0] + " " + Join(rest[1..]);
        }
      }
    }
  }

  /** And the other way round: pieces without spaces are split back out of
      their join. */
  lemma {:induction false} SplitJoin(words: seq<string>)
    requires |words| >= 1
    requires forall i | 0 <= i < |words| :: ' ' !in words[i]
    ensures Split(Join(words)) == words
    decreases |words|
  {
    if |words| == 1 {
      SplitNoSpace(words[0]);
    } else {
      SplitJoin(words[1..]);
      SplitWordThenRest(words[0], Join(words[1..]));
      assert [words[0]] + words[1..] == words;
    }
  }

  lemma {:induction false} SplitNoSpace(w: string)
    requires ' ' !in w
    ensures Split(w) == [w]
    decreases |w|
  {
    if w != [] {
      assert forall j | 0 <= j < |w[1..]| :: w[1..][j] == w[j + 1];
      SplitNoSpace(w[1..]);
      assert [w[0]] + w[1..] == w;
    }
  }

  /** A space-free word, a space and a text split as the word followed by
      the text's pieces. */
  lemma {:induction false} SplitWordThenRest(w: string, t: string)
    requires ' ' !in w
    ensures Split(w + " " + t) == [w] + Split(t)
    decreases |w|
  {
    if w == [] {
      assert w + " " + t == [' '] + t;
      assert (w + " " + t)[1..] == t;
    } else {
      assert forall j | 0 <= j < |w[1..]| :: w[1..][j] == w[j + 1];
      SplitWordThenRest(w[1..], t);
      assert (w + " " + t)[1..] == w[1..] + " " + t;
      assert [w[0]] + w[1..] == w;
    }
  }

  /** Each word followed by one space, as the loop builds lines. */
  function Spaced(words: seq<string>): string
    decreases |words|
  {
    if words == [] then "" else words[0] + " " + Spaced(words[1..])
  }

  function Flatten(groups: seq<seq<string>>): seq<string>
    decreases |groups|
  {
    if groups == [] then [] else groups[0] + Flatten(groups[1..])
  }

  function Concat(lines: seq<string>): string
    decreases |lines|
  {
    if lines == [] then "" else lines[0] + Concat(lines[1..])
  }

  /** One `fillText(line, x, y + lineCount * lineHeight)` call. */
  datatype TextLine = TextLine(text: string, x: real, y: real)

  /** The lines are `groups` of words, in order and covering every word once:
      each line is its group spaced out; a line holds a single word or fits
      in `maxWidth`; and every break was forced, because adding the next
      line's first word would have been too wide. */
  ghost predicate WrapsAs(words: seq<string>, lines: seq<string>, groups: seq<seq<string>>, measure: string -> real, maxWidth: real)
  {
    |groups| == |lines| && Flatten(groups) == words && GroupsFit(lines, groups, measure, maxWidth)
  }

  ghost predicate GroupsFit(lines: seq<string>, groups: seq<seq<string>>, measure: string -> real, maxWidth: real)
    requires |groups| == |lines|
  {
    (forall i | 0 <= i < |groups| :: LineFits(lines[i], groups[i], measure, maxWidth)) &&
    (forall i | 0 <= i < |groups| - 1 :: BreakForced(lines[i], groups[i + 1], measure, maxWidth))
  }

  /** A drawn line is its non-empty group spaced out, and every test line the
      loop measured while the group grew fitted: each prefix of two or more
      words. */
  ghost predicate LineFits(line: string, group: seq<string>, measure: string -> real, maxWidth: real)
  {
    group != [] && line == Spaced(group) && PrefixesFit(group, measure, maxWidth)
  }

  /** Every prefix of two or more words fits in `maxWidth`. */
  ghost predicate PrefixesFit(group: seq<string>, measure: string -> real, maxWidth: real)
  {
    forall j | 2 <= j <= |group| :: measure(Spaced(group[..j])) <= maxWidth
  }

  /** A drawn line of more than one word fits. */
  lemma LineFitsWhole(line: string, group: seq<string>, measure: string -> real, maxWidth: real)
    requires LineFits(line, group, measure, maxWidth)
    ensures |group| >= 2 ==> measure(line) <= maxWidth
  {
    assert group[..|group|] == group;
  }

  /** The next group's first word did not fit after `line`. */
  ghost predicate BreakForced(line: string, next: seq<string>, measure: string -> real, maxWidth: real)
  {
    next != [] && measure(line + next[0] + " ") > maxWidth
  }

  /** The loop's state after the words `done`: the finished lines, and the
      current `line` made of the words `current`. */
  ghost predicate Partial(done: seq<string>, lines: seq<string>, groups: seq<seq<string>>, current: seq<string>,
                          line: string, measure: string -> real, maxWidth: real)
  {
    line == Spaced(current) && Flatten(groups) + current == done &&
    (done != [] ==> current != []) && (done == [] ==> groups == []) &&
    PrefixesFit(current, measure, maxWidth) &&
    |groups| == |lines| && GroupsFit(lines, groups, measure, maxWidth) &&
    (groups != [] ==> BreakForced(lines[|lines| - 1], current, measure, maxWidth))
  }

  /** The `else` branch: the word joins the current line. */
  lemma StepExtend(done: seq<string>, lines: seq<string>, groups: seq<seq<string>>, current: seq<string>,
                   line: string, w: string, measure: string -> real, maxWidth: real)
    requires Partial(done, lines, groups, current, line, measure, maxWidth)
    requires done == [] || measure(line + w + " ") <= maxWidth
    ensures Partial(done + [w], lines, groups, current + [w], line + w + " ", measure, maxWidth)
  {
    SpacedSnoc(current, w);
    assert Flatten(groups) + (current + [w]) == done + [w];
    forall j | 2 <= j <= |current + [w]|
      ensures measure(Spaced((current + [w])[..j])) <= maxWidth
    {
      if j <= |current| {
        assert (current + [w])[..j] == current[..j];
      } else {
        assert (current + [w])[..j] == current + [w];
      }
    }
    if groups != [] {
      assert (current + [w])[0] == current[0];
    }
  }

  /** The break: the current line is drawn and a new one starts with the word. */
  lemma StepBreak(done: seq<string>, lines: seq<string>, groups: seq<seq<string>>, current: seq<string>,
                  line: string, w: string, measure: string -> real, maxWidth: real)
    requires Partial(done, lines, groups, current, line, measure, maxWidth)
    requires done != [] && measure(line + w + " ") > maxWidth
    ensures Partial(done + [w], lines + [line], groups + [current], [w], w + " ", measure, maxWidth)
  {
    FlattenSnoc(groups, current);
    assert Spaced([w]) == w + " " + Spaced([]);
    var lines' := lines + [line];
    var groups' := groups + [current];
    assert forall i | 0 <= i < |groups| :: groups'[i] == groups[i] && lines'[i] == lines[i];
  }

  /** After the loop the last line is drawn too. */
  lemma Finish(words: seq<string>, lines: seq<string>, groups: seq<seq<string>>, current: seq<string>,
               line: string, measure: string -> real, maxWidth: real)
    requires Partial(words, lines, groups, current, line, measure, maxWidth) && words != []
    ensures WrapsAs(words, lines + [line], groups + [current], measure, maxWidth)
  {
    FlattenSnoc(groups, current);
    var lines' := lines + [line];
    var groups' := groups + [current];
    assert forall i | 0 <= i < |groups| :: groups'[i] == groups[i] && lines'[i] == lines[i];
  }

  lemma {:induction false} FlattenSnoc(groups: seq<seq<string>>, g: seq<string>)
    ensures Flatten(groups + [g]) == Flatten(groups) + g
    decreases |groups|
  {
    if groups == [] {
      assert [g][1..] == [];
    } else {
      assert (groups + [g])[1..] == groups[1..] + [g];
      FlattenSnoc(groups[1..], g);
    }
  }

  lemma {:induction false} SpacedSnoc(words: seq<string>, w: string)
    ensures Spaced(words + [w]) == Spaced(words) + w + " "
    decreases |words|
  {
    if words == [] {
      assert [w][1..] == [];
    } else {
      assert (words + [w])[1..] == words[1..] + [w];
      SpacedSnoc(words[1..], w);
    }
  }

  /** `wrapText(text, x, y, maxWidth, lineHeight)`: the lines drawn, one
      line height apart, from the top at `y`. */
  method WrapText(text: string, measure: string -> real, x: real, y: real, maxWidth: real, lineHeight: real)
    returns (drawn: seq<TextLine>)
    ensures |drawn| >= 1
    ensures forall i | 0 <= i < |drawn| :: drawn[i].x == x && drawn[i].y == y + i as real * lineHeight
    ensures exists groups :: WrapsAs(Split(text), Texts(drawn), groups, measure, maxWidth)
  {
    var lines := BreakLines(Split(text), measure, maxWidth);
    drawn := Draw(lines, x, y, lineHeight);
    assert Texts(drawn) == lines;
  }

  /** The name label `drawNodes` writes inside a node centred at (x, y): the
      name wrapped to 160 pixels, the first line at the centre and each
      further line twenty pixels lower. */
  method DrawName(name: string, measure: string -> real, x: real, y: real) returns (drawn: seq<TextLine>)
    ensures |drawn| >= 1 && drawn[0].x == x && drawn[0].y == y
    ensures forall i | 0 <= i < |drawn| :: drawn[i].x == x && drawn[i].y == y + 20.0 * i as real
    ensures exists groups :: WrapsAs(Split(name), Texts(drawn), groups, measure, 160.0)
  {
    assert WrapWidth == 160.0;
    drawn := WrapText(name, measure, x, y, WrapWidth, LineHeight);
  }

  /** The loop of `wrapText`. The source keeps a `testLine` beside `line`;
      after every step the two are equal, so one variable stands for both. */
  method BreakLines(words: seq<string>, measure: string -> real, maxWidth: real) returns (lines: seq<string>)
    requires words != []
    ensures |lines| >= 1
    ensures exists groups :: WrapsAs(words, lines, groups, measure, maxWidth)
  {
    lines := [];
    var line := "";
    ghost var groups: seq<seq<string>> := [];
    ghost var current: seq<string> := [];
    var n := 0;
    while n < |words|
      invariant 0 <= n <= |words|
      invariant Partial(words[..n], lines, groups, current, line, measure, maxWidth)
    {
      var testLine := line + words[n] + " ";
      assert words[..n + 1] == words[..n] + [words[n]];
      if measure(testLine) > maxWidth && n > 0 {
        StepBreak(words[..n], lines, groups, current, line, words[n], measure, maxWidth);
        lines := lines + [line];
        groups := groups + [current];
        line := words[n] + " ";
        current := [words[n]];
      } else {
        StepExtend(words[..n], lines, groups, current, line, words[n], measure, maxWidth);
        line := testLine;
        current := current + [words[n]];
      }
      n := n + 1;
    }
    assert words[..n] == words;
    Finish(words, lines, groups, current, line, measure, maxWidth);
    lines := lines + [line];
  }

  /** The `fillText` calls for `lines`, one line height apart. */
  function Draw(lines: seq<string>, x: real, y: real, lineHeight: real): (drawn: seq<TextLine>)
    ensures |drawn| == |lines|
    ensures forall i | 0 <= i < |drawn| :: drawn[i] == TextLine(lines[i], x, y + i as real * lineHeight)
  {
    seq(|lines|, i requires 0 <= i < |lines| => TextLine(lines[i], x, y + i as real * lineHeight))
  }

  function Texts(drawn: seq<TextLine>): (lines: seq<string>)
    ensures |lines| == |drawn|
    ensures forall i | 0 <= i < |lines| :: lines[i] == drawn[i].text
  {
    seq(|drawn|, i requires 0 <= i < |drawn| => drawn[i].text)
  }

  lemma {:induction false} ConcatSpaced(lines: seq<string>, groups: seq<seq<string>>)
    requires |lines| == |groups|
    requires forall i | 0 <= i < |groups| :: lines[i] == Spaced(groups[i])
    ensures Concat(lines) == Spaced(Flatten(groups))
    decreases |groups|
  {
    if groups != [] {
      ConcatSpaced(lines[1..], groups[1..]);
      SpacedAppend(groups[0], Flatten(groups[1..]));
    }
  }

  lemma {:induction false} SpacedAppend(a: seq<string>, b: seq<string>)
    ensures Spaced(a + b) == Spaced(a) + Spaced(b)
    decreases |a|
  {
    if a != [] {
      assert (a + b)[1..] == a[1..] + b;
      SpacedAppend(a[1..], b);
    } else {
      assert a + b == b;
    }
  }

  /** A wrapping with no groups wraps no words, and one whose groups are all
      non-empty wraps at least the first group. */
  lemma FlattenEmpty(groups: seq<seq<string>>)
    requires forall i | 0 <= i < |groups| :: groups[i] != []
    ensures Flatten(groups) == [] <==> groups == []
  {
    if groups != [] {
      assert Flatten(groups) == groups[0] + Flatten(groups[1..]);
    }
  }

  /** Peeling off the first line of a wrapping leaves a wrapping of the
      remaining words. */
  lemma WrapsAsTail(words: seq<string>, lines: seq<string>, groups: seq<seq<string>>, measure: string -> real, maxWidth: real)
    requires WrapsAs(words, lines, groups, measure, maxWidth) && groups != []
    ensures |groups[0]| <= |words| && words[..|groups[0]|] == groups[0]
    ensures LineFits(lines[0], groups[0], measure, maxWidth)
    ensures WrapsAs(words[|groups[0]|..], lines[1..], groups[1..], measure, maxWidth)
  {
    assert Flatten(groups) == groups[0] + Flatten(groups[1..]);
    assert LineFits(lines[0], groups[0], measure, maxWidth);
    var ls := lines[1..];
    var gs := groups[1..];
    forall i | 0 <= i < |gs|
      ensures LineFits(ls[i], gs[i], measure, maxWidth)
    {
      assert LineFits(lines[i + 1], groups[i + 1], measure, maxWidth);
    }
    forall i | 0 <= i < |gs| - 1
      ensures BreakForced(ls[i], gs[i + 1], measure, maxWidth)
    {
      assert BreakForced(lines[i + 1], groups[i + 2], measure, maxWidth);
    }
  }

  /** The first line of one wrapping cannot be shorter than that of another:
      the word after it would then have been a fitting extension, yet the
      break before it was forced. */
  lemma FirstGroupNotShorter(words: seq<string>, lines1: seq<string>, groups1: seq<seq<string>>,
                             lines2: seq<string>, groups2: seq<seq<string>>, measure: string -> real, maxWidth: real)
    requires WrapsAs(words, lines1, groups1, measure, maxWidth) && groups1 != []
    requires WrapsAs(words, lines2, groups2, measure, maxWidth) && groups2 != []
    ensures |groups1[0]| >= |groups2[0]|
  {
    var a := groups1[0];
    var b := groups2[0];
    WrapsAsTail(words, lines1, groups1, measure, maxWidth);
    WrapsAsTail(words, lines2, groups2, measure, maxWidth);
    if |a| < |b| {
      var rest := groups1[1..];
      assert forall i | 0 <= i < |rest| :: rest[i] != [] by {
        forall i | 0 <= i < |rest| ensures rest[i] != [] {
          assert LineFits(lines1[i + 1], groups1[i + 1], measure, maxWidth);
        }
      }
      FlattenEmpty(rest);
      assert Flatten(rest) == words[|a|..];
      assert rest != [];
      assert Flatten(rest) == rest[0] + Flatten(rest[1..]);
      var next := rest[0][0];
      assert next == words[|a|] == b[|a|];
      assert BreakForced(lines1[0], groups1[1], measure, maxWidth);
      assert b[..|a| + 1] == a + [next];
      SpacedSnoc(a, next);
      assert false;
    }
  }

  /** The greedy wrapping is the only one: two wrappings of the same words
      under the same measure and width are the same lines. */
  lemma {:induction false} WrapUnique(words: seq<string>, lines1: seq<string>, groups1: seq<seq<string>>,
                                      lines2: seq<string>, groups2: seq<seq<string>>, measure: string -> real, maxWidth: real)
    requires WrapsAs(words, lines1, groups1, measure, maxWidth)
    requires WrapsAs(words, lines2, groups2, measure, maxWidth)
    ensures groups1 == groups2 && lines1 == lines2
    decreases |groups1|
  {
    WrapsNothing(words, lines1, groups1, measure, maxWidth);
    WrapsNothing(words, lines2, groups2, measure, maxWidth);
    if groups1 != [] {
      FirstGroupNotShorter(words, lines1, groups1, lines2, groups2, measure, maxWidth);
      FirstGroupNotShorter(words, lines2, groups2, lines1, groups1, measure, maxWidth);
      WrapsAsTail(words, lines1, groups1, measure, maxWidth);
      WrapsAsTail(words, lines2, groups2, measure, maxWidth);
      var k := |groups1[0]|;
      WrapUnique(words[k..], lines1[1..], groups1[1..], lines2[1..], groups2[1..], measure, maxWidth);
      SameHeadSameSeq(groups1, groups2);
      SameHeadSameSeq(lines1, lines2);
    }
  }

  /** Only the empty text has a wrapping without lines. */
  lemma WrapsNothing(words: seq<string>, lines: seq<string>, groups: seq<seq<string>>, measure: string -> real, maxWidth: real)
    requires WrapsAs(words, lines, groups, measure, maxWidth)
    ensures groups == [] <==> words == []
  {
    forall i | 0 <= i < |groups|
      ensures groups[i] != []
    {
      assert LineFits(lines[i], groups[i], measure, maxWidth);
    }
    FlattenEmpty(groups);
  }

  lemma SameHeadSameSeq<T>(a: seq<T>, b: seq<T>)
    requires a != [] && b != [] && a[0] == b[0] && a[1..] == b[1..]
    ensures a == b
  {
    assert a == [a[0]] + a[1..];
    assert b == [b[0]] + b[1..];
  }

  /** No word is lost, duplicated or reordered: the drawn lines read back,
      one after another, as the words each followed by a space. */
  lemma WrapKeepsWords(words: seq<string>, lines: seq<string>, groups: seq<seq<string>>, measure: string -> real, maxWidth: real)
    requires WrapsAs(words, lines, groups, measure, maxWidth)
    ensures Concat(lines) == Spaced(words)
  {
    ConcatSpaced(lines, groups);
  }
}
