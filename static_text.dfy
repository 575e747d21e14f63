/**
 * Compile-time folding of static markup: because pushed text joins the
 * static part before it, a template whose elements carry only literal text
 * and literal attribute values compiles to a single write of its HTML.
 */
module StaticText {
  import opened Wrappers
  import opened Ast
  import opened Generate
  import opened Semantics

  predicate LiteralValue(v: Option<Expr>) {
    v.None? || v.value.Lit?
  }

  /** Elements, blocks and string literals only, every attribute value a literal. */
  predicate StaticNodes(ns: seq<Node>)
    decreases ns
  {
    forall i :: 0 <= i < |ns| ==> StaticNode(ns[i])
  }

  predicate StaticNode(n: Node)
    decreases n
  {
    match n
    case ElementNode(e) => StaticElement(e)
    case BlockNode(b) => StaticNodes(b.nodes)
    case ExprNode(e) => e.Lit?
    case IfNode(_) => false
    case MatchNode(_) => false
    case ForNode(_) => false
  }

  predicate StaticElement(e: Element)
    decreases e
  {
    (forall k :: 0 <= k < |e.attrList| ==> LiteralValue(ValueOf(e.attrList[k])))
      && (e.body.Some? ==> StaticNodes(e.body.value.nodes))
  }

  /** Every push is text. */
  predicate AllText(es: seq<Emit>) {
    forall i :: 0 <= i < |es| ==> es[i].PushedStr?
  }

  function Texts(es: seq<Emit>): string
    requires AllText(es)
  {
    if es == [] then "" else es[0].s + Texts(es[1..])
  }

  lemma AllTextConcat(a: seq<Emit>, b: seq<Emit>)
    requires AllText(a) && AllText(b)
    ensures AllText(a + b)
  {
    forall i | 0 <= i < |a + b| ensures (a + b)[i].PushedStr? {
      if i >= |a| {
        assert (a + b)[i] == b[i - |a|];
      }
    }
  }

  /** Text pushed after a static part joins it. */
  lemma {:induction false} ApplyText(t: string, es: seq<Emit>)
    requires AllText(es)
    ensures Apply([Static(t)], es) == [Static(t + Texts(es))]
    decreases |es|
  {
    if es != [] {
      var s := es[0].s;
      var rest := es[1..];
      assert AllText(rest) by {
        forall i | 0 <= i < |rest| ensures rest[i].PushedStr? {
          assert rest[i] == es[i + 1];
        }
      }
      assert es[0] == PushedStr(s);
      assert Apply([Static(t)], es) == Apply(Push([Static(t)], es[0]), rest);
      PushText(t, s);
      ApplyText(t + s, rest);
      assert t + s + Texts(rest) == t + Texts(es);
    } else {
      assert t + Texts(es) == t;
    }
  }

  lemma PushText(t: string, s: string)
    ensures Push([Static(t)], PushedStr(s)) == [Static(t + s)]
  {
    assert [Static(t)][..0] + [Static(t + s)] == [Static(t + s)];
  }

  lemma FoldText(es: seq<Emit>)
    requires AllText(es) && es != []
    ensures Apply([], es) == [Static(Texts(es))]
  {
    assert Push([], es[0]) == [Static(es[0].s)];
    ApplyText(es[0].s, es[1..]);
  }

  /** Text pushed where no static part ends the parts starts one new static part holding all of it. */
  lemma ApplyTextAfter(parts: seq<Part>, es: seq<Emit>)
    requires AllText(es) && es != []
    requires parts == [] || !parts[|parts| - 1].Static?
    ensures Apply(parts, es) == parts + [Static(Texts(es))]
  {
    var rest := es[1..];
    assert AllText(rest) by {
      forall i | 0 <= i < |rest| ensures rest[i].PushedStr? {
        assert rest[i] == es[i + 1];
      }
    }
    assert Push(parts, es[0]) == parts + [Static(es[0].s)];
    ApplyTextFrom(parts, es[0].s, rest);
  }

  lemma {:induction false} ApplyTextFrom(parts: seq<Part>, t: string, es: seq<Emit>)
    requires AllText(es)
    ensures Apply(parts + [Static(t)], es) == parts + [Static(t + Texts(es))]
    decreases |es|
  {
    if es != [] {
      var s := es[0].s;
      var rest := es[1..];
      assert AllText(rest) by {
        forall i | 0 <= i < |rest| ensures rest[i].PushedStr? {
          assert rest[i] == es[i + 1];
        }
      }
      assert es[0] == PushedStr(s);
      assert (parts + [Static(t)])[..|parts|] == parts;
      assert Push(parts + [Static(t)], es[0]) == parts + [Static(t + s)];
      ApplyTextFrom(parts, t + s, rest);
      assert t + s + Texts(rest) == t + Texts(es);
    } else {
      assert t + Texts(es) == t;
    }
  }

  lemma {:induction false} AttrsText(pairs: seq<(string, Option<Expr>)>)
    requires forall k :: 0 <= k < |pairs| ==> LiteralValue(pairs[k].1)
    ensures AllText(AttrEvents(pairs))
    decreases |pairs|
  {
    if pairs != [] {
      var p := pairs[|pairs| - 1];
      AttrsText(pairs[..|pairs| - 1]);
      assert LiteralValue(p.1);
      assert AllText(AttrPairEvents(p));
      AllTextConcat(AttrEvents(pairs[..|pairs| - 1]), AttrPairEvents(p));
    }
  }

  lemma {:induction false} NodesText(tags: string -> Option<bool>, ns: seq<Node>)
    requires ValidNodes(tags, ns) && StaticNodes(ns)
    ensures AllText(NodesEvents(tags, ns))
    decreases ns
  {
    if ns != [] {
      var init := ns[..|ns| - 1];
      assert ValidNodes(tags, init) && StaticNodes(init) by {
        forall i | 0 <= i < |init| ensures ValidNode(tags, init[i]) && StaticNode(init[i]) {
          assert init[i] == ns[i];
        }
      }
      assert ValidNode(tags, ns[|ns| - 1]) && StaticNode(ns[|ns| - 1]);
      NodesText(tags, init);
      NodeText(tags, ns[|ns| - 1]);
      AllTextConcat(NodesEvents(tags, init), NodeEvents(tags, ns[|ns| - 1]));
    }
  }

  lemma {:induction false} NodeText(tags: string -> Option<bool>, n: Node)
    requires ValidNode(tags, n) && StaticNode(n)
    ensures AllText(NodeEvents(tags, n))
    decreases n
  {
    match n
    case ElementNode(e) => ElementText(tags, e);
    case BlockNode(b) => NodesText(tags, b.nodes);
    case ExprNode(e) =>
  }

  lemma {:induction false} ElementText(tags: string -> Option<bool>, e: Element)
    requires ValidElement(tags, e) && StaticElement(e)
    ensures AllText(ElementEvents(tags, e))
    decreases e
  {
    var pairs := Pairs(e.attrList);
    assert AttributeEvents(e) == AttrEvents(pairs);
    AttrsText(pairs);
    var open := OpenTagEvents(tags, e);
    assert open == [PushedStr("<"), PushedStr(e.name.name)];
    AllTextConcat(open, AttrEvents(pairs));
    AllTextConcat(open + AttrEvents(pairs), [PushedStr(">")]);
    var head := open + AttrEvents(pairs) + [PushedStr(">")];
    match e.body {
      case None =>
        assert ElementEvents(tags, e) == head + [];
        assert head + [] == head;
      case Some(b) =>
        var close := [PushedStr("</"), PushedStr(e.name.name), PushedStr(">")];
        NodesText(tags, b.nodes);
        AllTextConcat(NodesEvents(tags, b.nodes), close);
        AllTextConcat(head, NodesEvents(tags, b.nodes) + close);
        assert ElementEvents(tags, e) == head + (NodesEvents(tags, b.nodes) + close);
    }
  }

  /**
   * A valid static block compiles to at most one statement, a write of the
   * whole HTML the block denotes (in any host and environment); when that
   * HTML is not empty, to exactly that one write.
   */
  lemma StaticFolds<Env>(h: Host<Env>, env: Env, tags: string -> Option<bool>, ns: seq<Node>)
    requires ValidNodes(tags, ns) && StaticNodes(ns)
    ensures CompileNodes(tags, ns) == [] || CompileNodes(tags, ns) == [WriteStr(RenderNodes(h, env, ns))]
    ensures RenderNodes(h, env, ns) != [] ==> CompileNodes(tags, ns) == [WriteStr(RenderNodes(h, env, ns))]
  {
    var es := NodesEvents(tags, ns);
    NodesText(tags, ns);
    CompileNodesCorrect(h, tags, env, ns);
    if es != [] {
      FoldText(es);
      assert CompileNodes(tags, ns) == FinishParts([Static(Texts(es))]);
      assert Exec(h, env, [WriteStr(Texts(es))]) == Texts(es);
    }
  }
}
