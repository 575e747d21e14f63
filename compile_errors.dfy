/**
 * Which generated code fails to compile: the `compile_error!`s a compiled
 * template carries, wherever they sit in its control flow. A template
 * compiles without one exactly when every element is valid.
 */
module CompileErrors {
  import opened Wrappers
  import opened Diagnostics
  import opened Ast
  import opened Generate
  import opened Semantics

  /** The diagnostics of every `compile_error!` in `stmts`, in order, branches and loop bodies included. */
  function ErrorsOf(stmts: seq<Stmt>): seq<Diagnostic>
    decreases stmts, 0
  {
    if stmts == [] then [] else ErrorsOf(stmts[..|stmts| - 1]) + StmtErrors(stmts[|stmts| - 1])
  }

  function StmtErrors(st: Stmt): seq<Diagnostic>
    decreases st
  {
    match st
    case WriteStr(_) => []
    case RenderExpr(_) => []
    case CompileErrors(err) => err.items
    case IfStmt(_, t, e) => ErrorsOf(t) + if e.ElseBlock? then ErrorsOf(e.stmts) else []
    case MatchStmt(_, arms) => ArmsErrors(arms)
    case ForStmt(_, _, body) => ErrorsOf(body)
  }

  function ArmsErrors(arms: seq<ArmStmt>): seq<Diagnostic>
    decreases arms
  {
    if arms == [] then [] else ArmErrors(arms[0]) + ArmsErrors(arms[1..])
  }

  function ArmErrors(a: ArmStmt): seq<Diagnostic>
    decreases a
  {
    ErrorsOf(a.body)
  }

  function EmitErrors(e: Emit): seq<Diagnostic> {
    match e
    case PushedStr(_) => []
    case PushedStmt(st) => StmtErrors(st)
  }

  function EmitsErrors(es: seq<Emit>): seq<Diagnostic> {
    if es == [] then [] else EmitErrors(es[0]) + EmitsErrors(es[1..])
  }

  lemma {:induction false} EmitsErrorsConcat(a: seq<Emit>, b: seq<Emit>)
    ensures EmitsErrors(a + b) == EmitsErrors(a) + EmitsErrors(b)
  {
    if a == [] {
      assert a + b == b;
    } else {
      assert (a + b)[1..] == a[1..] + b;
      EmitsErrorsConcat(a[1..], b);
    }
  }

  lemma ErrorsSnoc(stmts: seq<Stmt>, st: Stmt)
    ensures ErrorsOf(stmts + [st]) == ErrorsOf(stmts) + StmtErrors(st)
  {
    assert (stmts + [st])[..|stmts|] == stmts;
  }

  /** A push adds exactly its own errors; text never carries one. */
  lemma ErrorsPush(parts: seq<Part>, e: Emit)
    ensures ErrorsOf(FinishParts(Push(parts, e))) == ErrorsOf(FinishParts(parts)) + EmitErrors(e)
  {
    if e.PushedStr? && parts != [] && parts[|parts| - 1].Static? {
      var init := parts[..|parts| - 1];
      var t := parts[|parts| - 1].text;
      assert Push(parts, e) == init + [Static(t + e.s)];
      ErrorsAppend(init, Static(t + e.s));
      ErrorsLast(parts);
    } else if e.PushedStr? {
      assert Push(parts, e) == parts + [Static(e.s)];
      ErrorsAppend(parts, Static(e.s));
    } else {
      assert Push(parts, e) == parts + [Dynamic(e.stmt)];
      ErrorsAppend(parts, Dynamic(e.stmt));
    }
  }

  lemma ErrorsLast(parts: seq<Part>)
    requires parts != []
    ensures ErrorsOf(FinishParts(parts))
      == ErrorsOf(FinishParts(parts[..|parts| - 1])) + StmtErrors(StmtOf(parts[|parts| - 1]))
  {
    var init := FinishParts(parts[..|parts| - 1]);
    var st := StmtOf(parts[|parts| - 1]);
    assert FinishParts(parts) == init + [st];
    ErrorsSnoc(init, st);
  }

  lemma ErrorsAppend(parts: seq<Part>, p: Part)
    ensures ErrorsOf(FinishParts(parts + [p])) == ErrorsOf(FinishParts(parts)) + StmtErrors(StmtOf(p))
  {
    assert (parts + [p])[..|parts|] == parts;
    ErrorsLast(parts + [p]);
  }

  lemma {:induction false} ErrorsApply(parts: seq<Part>, es: seq<Emit>)
    ensures ErrorsOf(FinishParts(Apply(parts, es))) == ErrorsOf(FinishParts(parts)) + EmitsErrors(es)
    decreases |es|
  {
    if es != [] {
      assert Apply(parts, es) == Apply(Push(parts, es[0]), es[1..]);
      assert EmitsErrors(es) == EmitErrors(es[0]) + EmitsErrors(es[1..]);
      ErrorsPush(parts, es[0]);
      ErrorsApply(Push(parts, es[0]), es[1..]);
    }
  }

  lemma CompiledErrors(es: seq<Emit>)
    ensures ErrorsOf(FinishParts(Apply([], es))) == EmitsErrors(es)
  {
    ErrorsApply([], es);
  }

  lemma {:induction false} AttrsClean(pairs: seq<(string, Option<Expr>)>)
    ensures EmitsErrors(AttrEvents(pairs)) == []
    decreases |pairs|
  {
    if pairs != [] {
      var p := pairs[|pairs| - 1];
      AttrsClean(pairs[..|pairs| - 1]);
      EmitsErrorsConcat(AttrEvents(pairs[..|pairs| - 1]), AttrPairEvents(p));
      var tail := if p.1.Some? then [PushedStr("=\"")] + RenderedExprEvents(p.1.value) + [PushedStr("\"")] else [];
      EmitsErrorsConcat([PushedStr(" "), PushedStr(p.0)], tail);
      if p.1.Some? {
        EmitsErrorsConcat([PushedStr("=\"")] + RenderedExprEvents(p.1.value), [PushedStr("\"")]);
        EmitsErrorsConcat([PushedStr("=\"")], RenderedExprEvents(p.1.value));
      }
    }
  }

  lemma ValidNodesSnoc(tags: string -> Option<bool>, ns: seq<Node>)
    requires ns != []
    ensures ValidNodes(tags, ns) <==> ValidNodes(tags, ns[..|ns| - 1]) && ValidNode(tags, ns[|ns| - 1])
  {
    var init := ns[..|ns| - 1];
    if ValidNodes(tags, init) && ValidNode(tags, ns[|ns| - 1]) {
      forall i | 0 <= i < |ns| ensures ValidNode(tags, ns[i]) {
        if i < |init| {
          assert ns[i] == init[i];
        }
      }
    }
  }

  /**
   * A block compiles without a `compile_error!` exactly when it is valid:
   * every element names a known tag, used as void or not as the tag
   * demands, and repeats no attribute key.
   */
  lemma {:induction false} CompileNodesClean(tags: string -> Option<bool>, ns: seq<Node>)
    ensures ErrorsOf(CompileNodes(tags, ns)) == [] <==> ValidNodes(tags, ns)
    decreases ns, 2
  {
    CompiledErrors(NodesEvents(tags, ns));
    NodesClean(tags, ns);
  }

  lemma {:induction false} CompileNodeClean(tags: string -> Option<bool>, n: Node)
    ensures ErrorsOf(CompileNode(tags, n)) == [] <==> ValidNode(tags, n)
    decreases n, 2
  {
    CompiledErrors(NodeEvents(tags, n));
    NodeClean(tags, n);
  }

  lemma {:induction false} NodesClean(tags: string -> Option<bool>, ns: seq<Node>)
    ensures EmitsErrors(NodesEvents(tags, ns)) == [] <==> ValidNodes(tags, ns)
    decreases ns, 1
  {
    if ns != [] {
      var init := ns[..|ns| - 1];
      ValidNodesSnoc(tags, ns);
      NodesClean(tags, init);
      NodeClean(tags, ns[|ns| - 1]);
      EmitsErrorsConcat(NodesEvents(tags, init), NodeEvents(tags, ns[|ns| - 1]));
    }
  }

  lemma {:induction false} NodeClean(tags: string -> Option<bool>, n: Node)
    ensures EmitsErrors(NodeEvents(tags, n)) == [] <==> ValidNode(tags, n)
    decreases n, 1
  {
    match n
    case ElementNode(e) =>
      assert NodeEvents(tags, n) == ElementEvents(tags, e);
      ElementClean(tags, e);
    case BlockNode(b) =>
      assert NodeEvents(tags, n) == NodesEvents(tags, b.nodes);
      NodesClean(tags, b.nodes);
    case ExprNode(e) =>
      var ev := RenderedExprEvents(e);
      assert NodeEvents(tags, n) == ev && |ev| == 1 && ev[1..] == [];
      assert EmitErrors(ev[0]) == [];
    case IfNode(i) => IfClean(tags, i);
    case MatchNode(x) => MatchClean(tags, x);
    case ForNode(f) => CompileNodesClean(tags, f.body.nodes);
  }

  lemma {:induction false} IfClean(tags: string -> Option<bool>, i: If)
    ensures EmitsErrors(NodeEvents(tags, IfNode(i))) == [] <==> ValidNode(tags, IfNode(i))
    decreases i, 0
  {
    CompileNodesClean(tags, i.thenBranch.nodes);
    if i.elseBranch.Some? {
      CompileNodeClean(tags, i.elseBranch.value);
    }
  }

  lemma {:induction false} MatchClean(tags: string -> Option<bool>, x: Match)
    ensures EmitsErrors(NodeEvents(tags, MatchNode(x))) == [] <==> ValidNode(tags, MatchNode(x))
    decreases x, 0
  {
    forall k | 0 <= k < |x.arms| ensures CompileArms(tags, x.arms)[k] == CompileArm(tags, x.arms[k]) {
      CompileArmsAt(tags, x.arms, k);
    }
    ArmsClean(tags, x.arms, CompileArms(tags, x.arms));
  }

  lemma {:induction false} ElementClean(tags: string -> Option<bool>, e: Element)
    ensures EmitsErrors(ElementEvents(tags, e)) == [] <==> ValidElement(tags, e)
    decreases e, 1
  {
    var head := OpenTagEvents(tags, e) + AttributeEvents(e) + [PushedStr(">")];
    HeadClean(tags, e);
    match e.body {
      case None =>
        assert ElementEvents(tags, e) == head + [];
        assert head + [] == head;
      case Some(b) =>
        assert ElementEvents(tags, e) == head + BodyEvents(tags, e.name.name, b);
        EmitsErrorsConcat(head, BodyEvents(tags, e.name.name, b));
        BodyClean(tags, e.name.name, b);
    }
  }

  /** The opening tag is clean exactly when the tag is known and used rightly and no key repeats. */
  lemma HeadClean(tags: string -> Option<bool>, e: Element)
    ensures EmitsErrors(OpenTagEvents(tags, e) + AttributeEvents(e) + [PushedStr(">")]) == []
      <==> Validate(tags, e).Ok? && AttributesSpec(e.attrList).Ok?
  {
    var open := OpenTagEvents(tags, e);
    TextClean2(PushedStr("<"), PushedStr(e.name.name));
    EmitsErrorsConcat(ValidationEvents(tags, e), [PushedStr("<"), PushedStr(e.name.name)]);
    assert EmitsErrors(open) == EmitsErrors(ValidationEvents(tags, e));
    assert EmitsErrors(ValidationEvents(tags, e)) == [] <==> Validate(tags, e).Ok?;
    EmitsErrorsConcat(open, AttributeEvents(e));
    EmitsErrorsConcat(open + AttributeEvents(e), [PushedStr(">")]);
    assert EmitsErrors([PushedStr(">")]) == EmitErrors(PushedStr(">")) + EmitsErrors([]);
    match AttributesSpec(e.attrList) {
      case Ok(pairs) => AttrsClean(pairs);
      case Err(err) => assert err.items != [];
    }
  }

  lemma TextClean2(a: Emit, b: Emit)
    requires a.PushedStr? && b.PushedStr?
    ensures EmitsErrors([a, b]) == []
  {
    assert [a, b][1..] == [b];
    assert EmitsErrors([b]) == EmitErrors(b) + EmitsErrors([]);
  }

  lemma {:induction false} BodyClean(tags: string -> Option<bool>, name: string, b: Block)
    ensures EmitsErrors(BodyEvents(tags, name, b)) == [] <==> ValidNodes(tags, b.nodes)
    decreases b, 0
  {
    var close := [PushedStr("</"), PushedStr(name), PushedStr(">")];
    TextClean2(PushedStr(name), PushedStr(">"));
    assert close[1..] == [PushedStr(name), PushedStr(">")];
    assert EmitsErrors(close) == [];
    EmitsErrorsConcat(NodesEvents(tags, b.nodes), close);
    NodesClean(tags, b.nodes);
  }

  lemma {:induction false} ArmsClean(tags: string -> Option<bool>, arms: seq<Arm>, stmts: seq<ArmStmt>)
    requires |stmts| == |arms|
    requires forall k :: 0 <= k < |arms| ==> stmts[k] == CompileArm(tags, arms[k])
    ensures ArmsErrors(stmts) == [] <==> ValidArms(tags, arms)
    decreases arms
  {
    if arms != [] {
      ArmClean(tags, arms[0]);
      ArmsClean(tags, arms[1..], stmts[1..]);
      if ValidArm(tags, arms[0]) && ValidArms(tags, arms[1..]) {
        forall k | 0 <= k < |arms| ensures ValidArm(tags, arms[k]) {
          if k > 0 {
            assert arms[k] == arms[1..][k - 1];
          }
        }
      }
      if ValidArms(tags, arms) {
        forall k | 0 <= k < |arms[1..]| ensures ValidArm(tags, arms[1..][k]) {
          assert arms[1..][k] == arms[k + 1];
        }
      }
    }
  }

  lemma {:induction false} ArmClean(tags: string -> Option<bool>, a: Arm)
    ensures ArmErrors(CompileArm(tags, a)) == [] <==> ValidArm(tags, a)
    decreases a
  {
    CompileNodeClean(tags, a.body);
  }
}
