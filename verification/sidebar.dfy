/** The class strings of the sidebar's navigation links
    (internal/components/sidebar.go): `conditionalClass` folds a variadic list
    of alternating class names and conditions into one class attribute, and
    `Sidebar` uses it to mark the active link. */
module Sidebar {

  /** One element of the variadic `...interface{}` list. */
  datatype Arg = Str(s: string) | Bool(b: bool) | Other

  /** The class string, or the run-time panic Go raises when the list ends
      in a class name with no condition after it. */
  datatype Outcome = Built(classes: string) | IndexOutOfRange

  /** The loop of `conditionalClass` from index 0 with the string built so
      far: a string at an even index reads the next element as its condition
      and appends `" " + name` when it is `true`; any other element at an
      even index is skipped together with its successor. */
  function AppendPairs(acc: string, args: seq<Arg>): Outcome
    decreases |args|
  {
    if args == [] then Built(acc)
    else if args[0].Str? then
      if |args| < 2 then IndexOutOfRange
      else AppendPairs(if args[1] == Bool(true) then acc + " " + args[0].s else acc, args[2..])
    else if |args| < 2 then Built(acc)
    else AppendPairs(acc, args[2..])
  }

  function ConditionalClass(baseClass: string, args: seq<Arg>): Outcome
  {
    AppendPairs(baseClass, args)
  }

  /** Reference: the names whose condition is `true`, in argument order. */
  function Selected(args: seq<Arg>): seq<string>
    decreases |args|
  {
    if |args| < 2 then []
    else (if args[0].Str? && args[1] == Bool(true) then [args[0].s] else []) + Selected(args[2..])
  }

  /** Each name preceded by a space. */
  function Tokens(names: seq<string>): string
    decreases |names|
  {
    if names == [] then "" else " " + names[0] + Tokens(names[1..])
  }

  /** The fold panics exactly when the list has odd length and ends in a
      string; otherwise it is the base class followed by every selected
      name, each after one space. */
  lemma {:induction false} AppendPairsSpec(acc: string, args: seq<Arg>)
    ensures AppendPairs(acc, args).IndexOutOfRange? <==> |args| % 2 == 1 && args[|args| - 1].Str?
    ensures AppendPairs(acc, args).Built? ==> AppendPairs(acc, args).classes == acc + Tokens(Selected(args))
    decreases |args|
  {
    if |args| >= 2 {
      var next := if args[0].Str? && args[1] == Bool(true) then acc + " " + args[0].s else acc;
      AppendPairsSpec(next, args[2..]);
      if |args| > 2 {
        assert args[2..][|args[2..]| - 1] == args[|args| - 1];
      }
      if args[0].Str? && args[1] == Bool(true) {
        assert Tokens([args[0].s] + Selected(args[2..])) == " " + args[0].s + Tokens(Selected(args[2..]));
      } else {
        assert [] + Selected(args[2..]) == Selected(args[2..]);
      }
    }
  }

  /** Total length of the names. */
  function Letters(names: seq<string>): nat
    decreases |names|
  {
    if names == [] then 0 else |names[0]| + Letters(names[1..])
  }

  /** Every selected name costs its own length plus one space. */
  lemma {:induction false} TokensLength(names: seq<string>)
    ensures |Tokens(names)| == |names| + Letters(names)
    decreases |names|
  {
    if names != [] {
      TokensLength(names[1..]);
    }
  }

  lemma ConditionalClassSpec(baseClass: string, args: seq<Arg>)
    ensures ConditionalClass(baseClass, args).IndexOutOfRange? <==> |args| % 2 == 1 && args[|args| - 1].Str?
    ensures ConditionalClass(baseClass, args).Built? ==>
              ConditionalClass(baseClass, args).classes == baseClass + Tokens(Selected(args))
    ensures ConditionalClass(baseClass, args).Built? && Selected(args) == [] ==>
              ConditionalClass(baseClass, args).classes == baseClass
    ensures ConditionalClass(baseClass, args).Built? ==>
              |ConditionalClass(baseClass, args).classes| == |baseClass| + |Selected(args)| + Letters(Selected(args))
  {
    AppendPairsSpec(baseClass, args);
    TokensLength(Selected(args));
  }

  /** The classes of a link. */
  const LinkBase: string := "block py-2 px-4 rounded transition-colors duration-200"
  const Active: string := "bg-secondary"
  const Inactive: string := "hover:bg-secondary"

  /** A navigation entry: where it points (`href` and `hx-get`), its text
      and its class attribute. */
  datatype Link = Link(href: string, text: string, classes: Outcome)

  /** The two condition pairs each link passes. */
  function LinkArgs(active: bool, inactive: bool): seq<Arg>
  {
    [Str(Active), Bool(active), Str(Inactive), Bool(inactive)]
  }

  /** The four links of `Sidebar(activeLink)`, in order. */
  function Links(activeLink: string): (links: seq<Link>)
    ensures |links| == 4
  {
    [ Link("/", " Home", ConditionalClass(LinkBase, LinkArgs(activeLink == "home" || activeLink == "",
                                                             activeLink != "home" && activeLink != ""))),
      Link("/dashboard", " Dashboard", ConditionalClass(LinkBase, LinkArgs(activeLink == "dashboard", activeLink != "dashboard"))),
      Link("/skills", " Skill Tree", ConditionalClass(LinkBase, LinkArgs(activeLink == "skills", activeLink != "skills"))),
      Link("/settings", " Settings", ConditionalClass(LinkBase, LinkArgs(activeLink == "settings", activeLink != "settings"))) ]
  }

  /** The class a link gets from a pair of complementary conditions: the
      base followed by exactly one of the two tokens. */
  lemma LinkClass(active: bool)
    ensures ConditionalClass(LinkBase, LinkArgs(active, !active)) ==
            Built(LinkBase + " " + (if active then Active else Inactive))
  {
    var args := LinkArgs(active, !active);
    AppendPairsSpec(LinkBase, args);
    var rest := [Str(Inactive), Bool(!active)];
    assert args[2..] == rest && rest[2..] == [];
    assert Selected(rest) == (if active then [] else [Inactive]);
    assert Selected(args) == [if active then Active else Inactive];
    assert Tokens([if active then Active else Inactive]) == " " + (if active then Active else Inactive) + Tokens([]);
  }

  /** Which page a link stands for: "" counts as home. */
  function Page(activeLink: string): string
  {
    if activeLink == "" then "home" else activeLink
  }

  const Pages: seq<string> := ["home", "dashboard", "skills", "settings"]

  /** Every link builds without a panic and carries exactly one of the two
      tokens; link k is highlighted exactly when the active page is the k-th
      page, so at most one link is highlighted, exactly one when the active
      link names a page, and "" highlights Home. */
  lemma SidebarHighlight(activeLink: string)
    ensures forall k | 0 <= k < 4 ::
              Links(activeLink)[k].classes ==
              Built(LinkBase + " " + (if Page(activeLink) == Pages[k] then Active else Inactive))
    ensures forall k, m | 0 <= k < m < 4 ::
              !(Links(activeLink)[k].classes == Links(activeLink)[m].classes == Built(LinkBase + " " + Active))
    ensures Page(activeLink) in Pages <==>
              exists k | 0 <= k < 4 :: Links(activeLink)[k].classes == Built(LinkBase + " " + Active)
  {
    LinkClass(true);
    LinkClass(false);
    var links := Links(activeLink);
    assert Inactive != Active;
    if Page(activeLink) in Pages {
      var k :| 0 <= k < 4 && Pages[k] == Page(activeLink);
      assert links[k].classes == Built(LinkBase + " " + Active);
    }
  }
}
