/** The parsed stylesheet and the statistics lib/parser.js draws from it
    (lines 164-192): the tree `css.parse` produces, the flattening of its
    top level one step through `media` nodes, and the selector and
    declaration lists of the flattened rules. */
module Stylesheet {

  /** A child of a rule: a `declaration` or a `comment` node. */
  datatype Decl = Declaration(property: string, value: string) | Comment(comment: string)

  /** A node of the tree: a `rule`, a `media` group, or any other at-rule
      or top-level comment (`import`, `keyframes`, `font-face`, `comment`, ...). */
  datatype Node =
    | Rule(selectors: seq<string>, declarations: seq<Decl>)
    | Media(media: string, rules: seq<Node>)
    | Other(kind: string)

  /** The `rule`-typed nodes of `nodes`, in order. */
  function RuleNodes(nodes: seq<Node>): (r: seq<Node>)
    ensures |r| <= |nodes|
    decreases |nodes|
  {
    if nodes == [] then []
    else
      var last := nodes[|nodes| - 1];
      RuleNodes(nodes[..|nodes| - 1]) + (if last.Rule? then [last] else [])
  }

  /** What one top-level node adds to the flattened rule list. */
  function Flattened(node: Node): seq<Node>
  {
    match node
    case Rule(_, _) => [node]
    case Media(_, children) => RuleNodes(children)
    case Other(_) => []
  }

  /** The flattened rule list: top-level rules, and the rule children of
      top-level media groups, in tree order. */
  function FlatRules(nodes: seq<Node>): seq<Node>
    decreases |nodes|
  {
    if nodes == [] then [] else FlatRules(nodes[..|nodes| - 1]) + Flattened(nodes[|nodes| - 1])
  }

  /** The number of top-level media groups. */
  function MediaCount(nodes: seq<Node>): (n: nat)
    ensures n <= |nodes|
    decreases |nodes|
  {
    if nodes == [] then 0
    else MediaCount(nodes[..|nodes| - 1]) + (if nodes[|nodes| - 1].Media? then 1 else 0)
  }

  /** The selectors of a node (a rule's own, none for the rest). */
  function SelectorsOf(node: Node): seq<string>
  {
    if node.Rule? then node.selectors else []
  }

  /** Every selector of `rules`, rule by rule, each rule's in declared order. */
  function Selectors(rules: seq<Node>): (r: seq<string>)
    decreases |rules|
  {
    if rules == [] then [] else Selectors(rules[..|rules| - 1]) + SelectorsOf(rules[|rules| - 1])
  }

  /** The `declaration`-typed entries of `decls`, in order. */
  function OnlyDeclarations(decls: seq<Decl>): (r: seq<Decl>)
    ensures |r| <= |decls|
    decreases |decls|
  {
    if decls == [] then []
    else
      var last := decls[|decls| - 1];
      OnlyDeclarations(decls[..|decls| - 1]) + (if last.Declaration? then [last] else [])
  }

  /** The declarations of a node (a rule's own declarations, none for the rest). */
  function DeclarationsOf(node: Node): seq<Decl>
  {
    if node.Rule? then OnlyDeclarations(node.declarations) else []
  }

  /** Every declaration of `rules`, rule by rule, comments skipped. */
  function Declarations(rules: seq<Node>): seq<Decl>
    decreases |rules|
  {
    if rules == [] then [] else Declarations(rules[..|rules| - 1]) + DeclarationsOf(rules[|rules| - 1])
  }

  /** The loop of lines 169-180: flatten the top level and count media groups. */
  method Flatten(nodes: seq<Node>) returns (rules: seq<Node>, mediaQueries: nat)
    ensures rules == FlatRules(nodes) && mediaQueries == MediaCount(nodes)
    ensures forall i :: 0 <= i < |rules| ==> rules[i].Rule?
  {
    rules, mediaQueries := [], 0;
    for i := 0 to |nodes|
      invariant rules == FlatRules(nodes[..i]) && mediaQueries == MediaCount(nodes[..i])
    {
      assert nodes[..i + 1][..i] == nodes[..i];
      match nodes[i]
      case Rule(_, _) =>
        rules := rules + [nodes[i]];
      case Media(_, children) =>
        mediaQueries := mediaQueries + 1;
        for j := 0 to |children|
          invariant rules == FlatRules(nodes[..i]) + RuleNodes(children[..j])
        {
          assert children[..j + 1][..j] == children[..j];
          if children[j].Rule? {
            rules := rules + [children[j]];
          }
        }
        assert children[..|children|] == children;
      case Other(_) =>
    }
    assert nodes[..|nodes|] == nodes;
    forall i | 0 <= i < |rules| ensures rules[i].Rule? {
      FlatRulesMembers(nodes, rules[i]);
    }
  }

  /** The loop of lines 183-192: gather selectors and declarations. */
  method Collect(rules: seq<Node>) returns (selectors: seq<string>, declarations: seq<Decl>)
    requires forall i :: 0 <= i < |rules| ==> rules[i].Rule?
    ensures selectors == Selectors(rules) && declarations == Declarations(rules)
  {
    selectors, declarations := [], [];
    for i := 0 to |rules|
      invariant selectors == Selectors(rules[..i]) && declarations == Declarations(rules[..i])
    {
      assert rules[..i + 1][..i] == rules[..i];
      var rule := rules[i];
      for j := 0 to |rule.selectors|
        invariant selectors == Selectors(rules[..i]) + rule.selectors[..j]
      {
        selectors := selectors + [rule.selectors[j]];
        assert rule.selectors[..j + 1] == rule.selectors[..j] + [rule.selectors[j]];
      }
      assert rule.selectors[..|rule.selectors|] == rule.selectors;
      for j := 0 to |rule.declarations|
        invariant declarations == Declarations(rules[..i]) + OnlyDeclarations(rule.declarations[..j])
      {
        assert rule.declarations[..j + 1][..j] == rule.declarations[..j];
        if rule.declarations[j].Declaration? {
          declarations := declarations + [rule.declarations[j]];
        }
      }
      assert rule.declarations[..|rule.declarations|] == rule.declarations;
    }
    assert rules[..|rules|] == rules;
  }

  /** The rule children of a node list are its rule-typed members. */
  lemma {:induction false} RuleNodesMembers(nodes: seq<Node>, x: Node)
    ensures x in RuleNodes(nodes) <==> x in nodes && x.Rule?
    decreases |nodes|
  {
    if nodes != [] {
      var init := nodes[..|nodes| - 1];
      RuleNodesMembers(init, x);
      assert nodes == init + [nodes[|nodes| - 1]];
    }
  }

  /** A node is flattened exactly when it is a rule that sits at the top
      level or directly inside a top-level media group; nothing deeper. */
  lemma {:induction false} FlatRulesMembers(nodes: seq<Node>, x: Node)
    ensures x in FlatRules(nodes) <==>
              x.Rule? && (x in nodes || exists m :: m in nodes && m.Media? && x in m.rules)
    decreases |nodes|
  {
    if nodes != [] {
      var init, last := nodes[..|nodes| - 1], nodes[|nodes| - 1];
      FlatRulesMembers(init, x);
      assert nodes == init + [last];
      if last.Media? {
        RuleNodesMembers(last.rules, x);
      }
    }
  }

  /** Flattening commutes with concatenation: tree order is kept. */
  lemma {:induction false} FlatRulesAppend(a: seq<Node>, b: seq<Node>)
    ensures FlatRules(a + b) == FlatRules(a) + FlatRules(b)
    decreases |b|
  {
    if b == [] {
      assert a + b == a;
      assert FlatRules(a) + FlatRules(b) == FlatRules(a);
    } else {
      var b', last := b[..|b| - 1], b[|b| - 1];
      FlatRulesAppend(a, b');
      assert (a + b)[..|a + b| - 1] == a + b[..|b| - 1];
      assert (FlatRules(a) + FlatRules(b')) + Flattened(last) == FlatRules(a) + (FlatRules(b') + Flattened(last));
    }
  }

  /** Total number of children over the top-level media groups. */
  function MediaChildCount(nodes: seq<Node>): nat
    decreases |nodes|
  {
    if nodes == [] then 0
    else
      var last := nodes[|nodes| - 1];
      MediaChildCount(nodes[..|nodes| - 1]) + (if last.Media? then |last.rules| else 0)
  }

  /** A media group whose children are all plain rules. */
  predicate PlainMedia(node: Node)
  {
    node.Media? ==> forall i :: 0 <= i < |node.rules| ==> node.rules[i].Rule?
  }

  /** With N top-level rules and media groups holding M plain rules in all,
      N + M rules are flattened. */
  lemma {:induction false} FlatRulesCount(nodes: seq<Node>)
    requires forall i :: 0 <= i < |nodes| ==> PlainMedia(nodes[i])
    ensures |FlatRules(nodes)| == |RuleNodes(nodes)| + MediaChildCount(nodes)
    decreases |nodes|
  {
    if nodes != [] {
      var init, last := nodes[..|nodes| - 1], nodes[|nodes| - 1];
      FlatRulesCount(init);
      if last.Media? {
        AllRulesKept(last.rules);
      }
    }
  }

  /** A list of rules keeps all its members. */
  lemma {:induction false} AllRulesKept(nodes: seq<Node>)
    requires forall i :: 0 <= i < |nodes| ==> nodes[i].Rule?
    ensures RuleNodes(nodes) == nodes
    decreases |nodes|
  {
    if nodes != [] {
      AllRulesKept(nodes[..|nodes| - 1]);
      assert nodes == nodes[..|nodes| - 1] + [nodes[|nodes| - 1]];
    }
  }

  /** A top level made only of comments and other at-rules flattens to
      nothing and has no media group. */
  lemma {:induction false} NoRulesWithoutRuleOrMedia(nodes: seq<Node>)
    requires forall i :: 0 <= i < |nodes| ==> nodes[i].Other?
    ensures FlatRules(nodes) == [] && MediaCount(nodes) == 0
    decreases |nodes|
  {
    if nodes != [] {
      NoRulesWithoutRuleOrMedia(nodes[..|nodes| - 1]);
    }
  }

  /** A selector is listed exactly when some flattened rule declares it. */
  lemma {:induction false} SelectorsMembers(rules: seq<Node>, s: string)
    ensures s in Selectors(rules) <==> exists r :: r in rules && r.Rule? && s in r.selectors
    decreases |rules|
  {
    if rules != [] {
      var init, last := rules[..|rules| - 1], rules[|rules| - 1];
      SelectorsMembers(init, s);
      assert rules == init + [last];
    }
  }

  /** Only real declarations are listed, and every declaration of every
      rule is. */
  lemma {:induction false} DeclarationsMembers(rules: seq<Node>, d: Decl)
    ensures d in Declarations(rules) <==>
              d.Declaration? && exists r :: r in rules && r.Rule? && d in r.declarations
    decreases |rules|
  {
    if rules != [] {
      var init, last := rules[..|rules| - 1], rules[|rules| - 1];
      DeclarationsMembers(init, d);
      assert rules == init + [last];
      if last.Rule? {
        OnlyDeclarationsMembers(last.declarations, d);
      }
    }
  }

  lemma {:induction false} OnlyDeclarationsMembers(decls: seq<Decl>, d: Decl)
    ensures d in OnlyDeclarations(decls) <==> d in decls && d.Declaration?
    decreases |decls|
  {
    if decls != [] {
      var init := decls[..|decls| - 1];
      OnlyDeclarationsMembers(init, d);
      assert decls == init + [decls[|decls| - 1]];
    }
  }

  /** `@media screen { .a { color: red; } }` followed by `.b { color: blue; }`:
      two rules, one media query, selectors ".a" then ".b". */
  lemma MediaThenRuleExample()
    ensures var a := Rule([".a"], [Declaration("color", "red")]);
            var b := Rule([".b"], [Declaration("color", "blue")]);
            var nodes := [Media("screen", [a]), b];
            FlatRules(nodes) == [a, b] && MediaCount(nodes) == 1 &&
            Selectors(FlatRules(nodes)) == [".a", ".b"] &&
            Declarations(FlatRules(nodes)) == [Declaration("color", "red"), Declaration("color", "blue")]
  {
    var a := Rule([".a"], [Declaration("color", "red")]);
    var b := Rule([".b"], [Declaration("color", "blue")]);
    var m := Media("screen", [a]);
    var nodes := [m, b];
    assert [a][..0] == [];
    assert RuleNodes([a]) == [a];
    assert [m][..0] == [];
    assert FlatRules([m]) == [a];
    assert nodes[..1] == [m];
    assert FlatRules(nodes) == [a, b];
    assert [a, b][..1] == [a];
    assert Selectors([a]) == [".a"];
    assert OnlyDeclarations(a.declarations) == a.declarations;
    assert OnlyDeclarations(b.declarations) == b.declarations;
    assert Declarations([a]) == a.declarations;
  }
}
