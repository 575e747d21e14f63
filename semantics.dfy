/**
 * What a generated render function writes. A host describes the parts of
 * the host language the template cannot see: the value of an expression, the
 * outcome of a condition (`if` or `if let`), pattern matching and the items
 * of a loop. `Exec` runs
 * generated statements against a host; `RenderNode` is the HTML a template
 * denotes, read off the tree directly. The main theorem says that compiling a
 * valid template and running it writes exactly that HTML.
 */
module Semantics {
  import opened Wrappers
  import opened Diagnostics
  import opened Ast
  import opened Generate
  import Escaping

  /** What an expression renders to: text, which is escaped, or `Raw` markup, which is not. */
  datatype Value = Text(s: string) | Raw(s: string)

  /** `Render` for text escapes it; for `Raw` it writes the markup unchanged. */
  function RenderValue(v: Value): (out: string)
    ensures v.Text? ==> Escaping.Unescape(out) == v.s
    ensures v.Text? ==> '<' !in out && '>' !in out && '"' !in out
    ensures v.Raw? ==> out == v.s
  {
    match v
    case Text(s) =>
      Escaping.UnescapeEscape(s);
      Escaping.EscapeNoMarkup(s);
      Escaping.Escape(s)
    case Raw(s) => s
  }

  /**
   * The host language as the template sees it, in an environment of type `Env`.
   * `test` is the outcome of a condition: `None` when it fails, otherwise the
   * environment the guarded code runs in, which for `if let` holds the names
   * the pattern binds and for a plain condition is the one it was given.
   */
  datatype Host<!Env> = Host(
    eval: (Env, Expr) -> Value,
    test: (Env, Expr) -> Option<Env>,
    bind: (Env, Pat, Expr) -> Option<Env>,
    items: (Env, Pat, Expr) -> seq<Env>)

  /** A string literal is text; anything else is up to the host. */
  function Eval<Env>(h: Host<Env>, env: Env, e: Expr): Value {
    if e.Lit? then Text(e.value) else h.eval(env, e)
  }

  // ---- running generated statements ----

  function Exec<Env>(h: Host<Env>, env: Env, stmts: seq<Stmt>): string
    decreases stmts, 0
  {
    if stmts == [] then ""
    else Exec(h, env, stmts[..|stmts| - 1]) + ExecStmt(h, env, stmts[|stmts| - 1])
  }

  function ExecStmt<Env>(h: Host<Env>, env: Env, st: Stmt): string
    decreases st
  {
    match st
    case WriteStr(text) => text
    case RenderExpr(e) => RenderValue(Eval(h, env, e))
    case CompileErrors(_) => ""
    case IfStmt(c, t, e) =>
      (match h.test(env, c)
       case Some(inner) => Exec(h, inner, t)
       case None => if e.ElseBlock? then Exec(h, env, e.stmts) else "")
    case MatchStmt(x, arms) => ExecArms(h, env, x, arms)
    case ForStmt(p, it, body) => ExecEach(h, h.items(env, p, it), body)
  }

  /** The first arm whose pattern matches and whose guard holds runs; when none does, nothing is written. */
  function ExecArms<Env>(h: Host<Env>, env: Env, x: Expr, arms: seq<ArmStmt>): string
    decreases arms
  {
    if arms == [] then ""
    else
      match ExecArm(h, env, x, arms[0])
      case Some(out) => out
      case None => ExecArms(h, env, x, arms[1..])
  }

  function ExecArm<Env>(h: Host<Env>, env: Env, x: Expr, a: ArmStmt): Option<string>
    decreases a
  {
    match h.bind(env, a.pat, x)
    case None => None
    case Some(inner) =>
      if a.guard.None? || h.test(inner, a.guard.value).Some? then Some(Exec(h, inner, a.body)) else None
  }

  /** The body once per item, in order. */
  function ExecEach<Env>(h: Host<Env>, envs: seq<Env>, body: seq<Stmt>): string
    decreases body, 1, |envs|
  {
    if envs == [] then "" else Exec(h, envs[0], body) + ExecEach(h, envs[1..], body)
  }

  // ---- the HTML a template denotes ----

  function RenderNodes<Env>(h: Host<Env>, env: Env, ns: seq<Node>): string
    decreases ns
  {
    if ns == [] then "" else RenderNodes(h, env, ns[..|ns| - 1]) + RenderNode(h, env, ns[|ns| - 1])
  }

  function RenderNode<Env>(h: Host<Env>, env: Env, n: Node): string
    decreases n
  {
    match n
    case ElementNode(e) => RenderElement(h, env, e)
    case BlockNode(b) => RenderNodes(h, env, b.nodes)
    case ExprNode(e) => RenderValue(Eval(h, env, e))
    case IfNode(i) =>
      (match h.test(env, i.cond)
       case Some(inner) => RenderNodes(h, inner, i.thenBranch.nodes)
       case None => if i.elseBranch.Some? then RenderNode(h, env, i.elseBranch.value) else "")
    case MatchNode(x) => RenderArms(h, env, x.scrutinee, x.arms)
    case ForNode(f) => RenderEach(h, h.items(env, f.pat, f.iter), f.body)
  }

  /** `<name attrs>`, then for an element with a body the body and `</name>`. */
  function RenderElement<Env>(h: Host<Env>, env: Env, e: Element): string
    decreases e
  {
    "<" + e.name.name + RenderAttrs(h, env, Pairs(e.attrList)) + ">"
      + if e.body.Some? then RenderNodes(h, env, e.body.value.nodes) + "</" + e.name.name + ">" else ""
  }

  function RenderAttrs<Env>(h: Host<Env>, env: Env, pairs: seq<(string, Option<Expr>)>): string
    decreases |pairs|
  {
    if pairs == [] then "" else RenderAttrs(h, env, pairs[..|pairs| - 1]) + RenderAttr(h, env, pairs[|pairs| - 1])
  }

  /** ` key` alone for an attribute without a value, otherwise ` key="value"`. */
  function RenderAttr<Env>(h: Host<Env>, env: Env, p: (string, Option<Expr>)): string {
    " " + p.0 + if p.1.Some? then "=\"" + RenderValue(Eval(h, env, p.1.value)) + "\"" else ""
  }

  function RenderArms<Env>(h: Host<Env>, env: Env, x: Expr, arms: seq<Arm>): string
    decreases arms
  {
    if arms == [] then ""
    else
      match RenderArm(h, env, x, arms[0])
      case Some(out) => out
      case None => RenderArms(h, env, x, arms[1..])
  }

  function RenderArm<Env>(h: Host<Env>, env: Env, x: Expr, a: Arm): Option<string>
    decreases a
  {
    match h.bind(env, a.pat, x)
    case None => None
    case Some(inner) =>
      if a.guard.None? || h.test(inner, a.guard.value).Some? then Some(RenderNode(h, inner, a.body)) else None
  }

  function RenderEach<Env>(h: Host<Env>, envs: seq<Env>, b: Block): string
    decreases b, |envs|
  {
    if envs == [] then "" else RenderNodes(h, envs[0], b.nodes) + RenderEach(h, envs[1..], b)
  }

  // ---- which templates compile without errors ----

  /** Every element names a known tag, used as void or not as the tag demands, and repeats no attribute key. */
  predicate ValidNodes(tags: string -> Option<bool>, ns: seq<Node>)
    decreases ns
  {
    forall i :: 0 <= i < |ns| ==> ValidNode(tags, ns[i])
  }

  predicate ValidNode(tags: string -> Option<bool>, n: Node)
    decreases n
  {
    match n
    case ElementNode(e) => ValidElement(tags, e)
    case BlockNode(b) => ValidNodes(tags, b.nodes)
    case ExprNode(_) => true
    case IfNode(i) =>
      ValidNodes(tags, i.thenBranch.nodes) && (i.elseBranch.Some? ==> ValidNode(tags, i.elseBranch.value))
    case MatchNode(x) => ValidArms(tags, x.arms)
    case ForNode(f) => ValidNodes(tags, f.body.nodes)
  }

  predicate ValidElement(tags: string -> Option<bool>, e: Element)
    decreases e
  {
    Validate(tags, e).Ok? && AttributesSpec(e.attrList).Ok?
      && (e.body.Some? ==> ValidNodes(tags, e.body.value.nodes))
  }

  predicate ValidArms(tags: string -> Option<bool>, arms: seq<Arm>)
    decreases arms
  {
    forall k :: 0 <= k < |arms| ==> ValidArm(tags, arms[k])
  }

  predicate ValidArm(tags: string -> Option<bool>, a: Arm)
    decreases a
  {
    ValidNode(tags, a.body)
  }

  // ---- what the pushes write ----

  function EmitOut<Env>(h: Host<Env>, env: Env, e: Emit): string {
    match e
    case PushedStr(s) => s
    case PushedStmt(st) => ExecStmt(h, env, st)
  }

  function EmitsOut<Env>(h: Host<Env>, env: Env, es: seq<Emit>): string {
    if es == [] then "" else EmitOut(h, env, es[0]) + EmitsOut(h, env, es[1..])
  }

  lemma {:induction false} EmitsOutConcat<Env>(h: Host<Env>, env: Env, a: seq<Emit>, b: seq<Emit>)
    ensures EmitsOut(h, env, a + b) == EmitsOut(h, env, a) + EmitsOut(h, env, b)
  {
    if a == [] {
      assert a + b == b;
    } else {
      assert (a + b)[1..] == a[1..] + b;
      EmitsOutConcat(h, env, a[1..], b);
    }
  }

  lemma ExecSnoc<Env>(h: Host<Env>, env: Env, stmts: seq<Stmt>, st: Stmt)
    ensures Exec(h, env, stmts + [st]) == Exec(h, env, stmts) + ExecStmt(h, env, st)
  {
    assert (stmts + [st])[..|stmts|] == stmts;
  }

  /** A push adds exactly its own output: joining text onto the last static part changes nothing written. */
  lemma ExecPush<Env>(h: Host<Env>, env: Env, parts: seq<Part>, e: Emit)
    ensures Exec(h, env, FinishParts(Push(parts, e))) == Exec(h, env, FinishParts(parts)) + EmitOut(h, env, e)
  {
    match e
    case PushedStr(s) =>
      if parts != [] && parts[|parts| - 1].Static? {
        ExecJoinStr(h, env, parts, s);
      } else {
        ExecNewStr(h, env, parts, s);
      }
    case PushedStmt(st) =>
      assert (parts + [Dynamic(st)])[..|parts|] == parts;
      ExecSnoc(h, env, FinishParts(parts), st);
  }

  lemma ExecJoinStr<Env>(h: Host<Env>, env: Env, parts: seq<Part>, s: string)
    requires parts != [] && parts[|parts| - 1].Static?
    ensures Exec(h, env, FinishParts(Push(parts, PushedStr(s)))) == Exec(h, env, FinishParts(parts)) + s
  {
    var init := parts[..|parts| - 1];
    var t := parts[|parts| - 1].text;
    assert (init + [Static(t + s)])[..|init|] == init;
    ExecSnoc(h, env, FinishParts(init), WriteStr(t + s));
    ExecSnoc(h, env, FinishParts(init), WriteStr(t));
  }

  lemma ExecNewStr<Env>(h: Host<Env>, env: Env, parts: seq<Part>, s: string)
    requires parts == [] || !parts[|parts| - 1].Static?
    ensures Exec(h, env, FinishParts(Push(parts, PushedStr(s)))) == Exec(h, env, FinishParts(parts)) + s
  {
    assert (parts + [Static(s)])[..|parts|] == parts;
    ExecSnoc(h, env, FinishParts(parts), WriteStr(s));
  }

  lemma {:induction false} ExecApply<Env>(h: Host<Env>, env: Env, parts: seq<Part>, es: seq<Emit>)
    ensures Exec(h, env, FinishParts(Apply(parts, es))) == Exec(h, env, FinishParts(parts)) + EmitsOut(h, env, es)
    decreases |es|
  {
    if es != [] {
      assert Apply(parts, es) == Apply(Push(parts, es[0]), es[1..]);
      assert EmitsOut(h, env, es) == EmitOut(h, env, es[0]) + EmitsOut(h, env, es[1..]);
      ExecPush(h, env, parts, es[0]);
      ExecApply(h, env, Push(parts, es[0]), es[1..]);
    }
  }

  /** What a fresh generator's statements write is what its pushes write. */
  lemma CompiledOut<Env>(h: Host<Env>, env: Env, es: seq<Emit>)
    ensures Exec(h, env, FinishParts(Apply([], es))) == EmitsOut(h, env, es)
  {
    ExecApply(h, env, [], es);
  }

  /** A literal escaped while compiling writes what the same text rendered at run time writes. */
  lemma RenderedExprOut<Env>(h: Host<Env>, env: Env, e: Expr)
    ensures EmitsOut(h, env, RenderedExprEvents(e)) == RenderValue(Eval(h, env, e))
  {
  }

  lemma {:induction false} AttrsOut<Env>(h: Host<Env>, env: Env, pairs: seq<(string, Option<Expr>)>)
    ensures EmitsOut(h, env, AttrEvents(pairs)) == RenderAttrs(h, env, pairs)
    decreases |pairs|
  {
    if pairs != [] {
      var p := pairs[|pairs| - 1];
      AttrsOut(h, env, pairs[..|pairs| - 1]);
      EmitsOutConcat(h, env, AttrEvents(pairs[..|pairs| - 1]), AttrPairEvents(p));
      AttrPairOut(h, env, p);
    }
  }

  /** One attribute's pushes write ` key`, then `="value"` when it has a value. */
  lemma AttrPairOut<Env>(h: Host<Env>, env: Env, p: (string, Option<Expr>))
    ensures EmitsOut(h, env, AttrPairEvents(p)) == RenderAttr(h, env, p)
  {
    var tail := if p.1.Some? then [PushedStr("=\"")] + RenderedExprEvents(p.1.value) + [PushedStr("\"")] else [];
    EmitsOutConcat(h, env, [PushedStr(" "), PushedStr(p.0)], tail);
    if p.1.Some? {
      EmitsOutConcat(h, env, [PushedStr("=\"")] + RenderedExprEvents(p.1.value), [PushedStr("\"")]);
      EmitsOutConcat(h, env, [PushedStr("=\"")], RenderedExprEvents(p.1.value));
      RenderedExprOut(h, env, p.1.value);
    }
  }

  // ---- compiling is correct ----

  /**
   * Compiling a valid block and running the statements in any environment
   * writes exactly the HTML the block denotes.
   */
  lemma {:induction false} CompileNodesCorrect<Env>(h: Host<Env>, tags: string -> Option<bool>, env: Env, ns: seq<Node>)
    requires ValidNodes(tags, ns)
    ensures Exec(h, env, CompileNodes(tags, ns)) == RenderNodes(h, env, ns)
    decreases ns, 2
  {
    CompiledOut(h, env, NodesEvents(tags, ns));
    NodesOut(h, tags, env, ns);
  }

  lemma {:induction false} CompileNodeCorrect<Env>(h: Host<Env>, tags: string -> Option<bool>, env: Env, n: Node)
    requires ValidNode(tags, n)
    ensures Exec(h, env, CompileNode(tags, n)) == RenderNode(h, env, n)
    decreases n, 2
  {
    CompiledOut(h, env, NodeEvents(tags, n));
    NodeOut(h, tags, env, n);
  }

  lemma {:induction false} NodesOut<Env>(h: Host<Env>, tags: string -> Option<bool>, env: Env, ns: seq<Node>)
    requires ValidNodes(tags, ns)
    ensures EmitsOut(h, env, NodesEvents(tags, ns)) == RenderNodes(h, env, ns)
    decreases ns, 1
  {
    if ns != [] {
      var init := ns[..|ns| - 1];
      assert ValidNodes(tags, init) by {
        forall i | 0 <= i < |init| ensures ValidNode(tags, init[i]) {
          assert init[i] == ns[i];
        }
      }
      assert ValidNode(tags, ns[|ns| - 1]);
      NodesOut(h, tags, env, init);
      NodeOut(h, tags, env, ns[|ns| - 1]);
      EmitsOutConcat(h, env, NodesEvents(tags, init), NodeEvents(tags, ns[|ns| - 1]));
    }
  }

  lemma {:induction false} NodeOut<Env>(h: Host<Env>, tags: string -> Option<bool>, env: Env, n: Node)
    requires ValidNode(tags, n)
    ensures EmitsOut(h, env, NodeEvents(tags, n)) == RenderNode(h, env, n)
    decreases n, 1
  {
    match n
    case ElementNode(e) => ElementOut(h, tags, env, e);
    case BlockNode(b) => NodesOut(h, tags, env, b.nodes);
    case ExprNode(e) => RenderedExprOut(h, env, e);
    case IfNode(i) => IfOut(h, tags, env, i);
    case MatchNode(x) =>
      forall k | 0 <= k < |x.arms| ensures CompileArms(tags, x.arms)[k] == CompileArm(tags, x.arms[k]) {
        CompileArmsAt(tags, x.arms, k);
      }
      ArmsOut(h, tags, env, x.scrutinee, x.arms, CompileArms(tags, x.arms));
    case ForNode(f) =>
      EachOut(h, tags, h.items(env, f.pat, f.iter), f.body);
  }

  /**
   * The generated `if` runs the then-branch's code in the environment the
   * condition gives (the bindings of an `if let`), otherwise the else-branch's
   * code in the environment it started with.
   */
  lemma {:induction false} IfOut<Env>(h: Host<Env>, tags: string -> Option<bool>, env: Env, i: If)
    requires ValidNode(tags, IfNode(i))
    ensures EmitsOut(h, env, NodeEvents(tags, IfNode(i))) == RenderNode(h, env, IfNode(i))
    decreases IfNode(i), 0
  {
    var els := if i.elseBranch.Some? then ElseBlock(CompileNode(tags, i.elseBranch.value)) else NoElse;
    var st := IfStmt(i.cond, CompileNodes(tags, i.thenBranch.nodes), els);
    assert NodeEvents(tags, IfNode(i)) == [PushedStmt(st)];
    assert EmitsOut(h, env, [PushedStmt(st)]) == ExecStmt(h, env, st);
    match h.test(env, i.cond) {
      case Some(inner) => CompileNodesCorrect(h, tags, inner, i.thenBranch.nodes);
      case None =>
        if i.elseBranch.Some? {
          CompileNodeCorrect(h, tags, env, i.elseBranch.value);
        }
    }
  }

  lemma {:induction false} ElementOut<Env>(h: Host<Env>, tags: string -> Option<bool>, env: Env, e: Element)
    requires ValidElement(tags, e)
    ensures EmitsOut(h, env, ElementEvents(tags, e)) == RenderElement(h, env, e)
    decreases e, 0
  {
    var head := OpenTagEvents(tags, e) + AttributeEvents(e) + [PushedStr(">")];
    HeadOut(h, tags, env, e);
    match e.body {
      case None =>
        assert ElementEvents(tags, e) == head + [];
        assert head + [] == head;
      case Some(b) =>
        var body := BodyEvents(tags, e.name.name, b);
        assert ElementEvents(tags, e) == head + body;
        EmitsOutConcat(h, env, head, body);
        BodyOut(h, tags, env, e.name.name, b);
    }
  }

  /** A valid element's pushes up to `>`: `<name`, then its attributes. */
  lemma HeadOut<Env>(h: Host<Env>, tags: string -> Option<bool>, env: Env, e: Element)
    requires Validate(tags, e).Ok? && AttributesSpec(e.attrList).Ok?
    ensures EmitsOut(h, env, OpenTagEvents(tags, e) + AttributeEvents(e) + [PushedStr(">")])
      == "<" + e.name.name + RenderAttrs(h, env, Pairs(e.attrList)) + ">"
  {
    var name := e.name.name;
    var open := OpenTagEvents(tags, e);
    assert open == [PushedStr("<"), PushedStr(name)];
    assert EmitsOut(h, env, [PushedStr(name)]) == name;
    assert EmitsOut(h, env, open) == "<" + name;
    assert EmitsOut(h, env, [PushedStr(">")]) == ">";
    var attrs := AttrEvents(Pairs(e.attrList));
    assert AttributeEvents(e) == attrs;
    AttrsOut(h, env, Pairs(e.attrList));
    EmitsOutConcat(h, env, open, attrs);
    EmitsOutConcat(h, env, open + attrs, [PushedStr(">")]);
  }

  lemma {:induction false} BodyOut<Env>(h: Host<Env>, tags: string -> Option<bool>, env: Env, name: string, b: Block)
    requires ValidNodes(tags, b.nodes)
    ensures EmitsOut(h, env, BodyEvents(tags, name, b)) == RenderNodes(h, env, b.nodes) + "</" + name + ">"
    decreases b, 0
  {
    var close := [PushedStr("</"), PushedStr(name), PushedStr(">")];
    NodesOut(h, tags, env, b.nodes);
    EmitsOutConcat(h, env, NodesEvents(tags, b.nodes), close);
    assert EmitsOut(h, env, [PushedStr(">")]) == ">";
    assert EmitsOut(h, env, [PushedStr(name), PushedStr(">")]) == name + ">";
    assert EmitsOut(h, env, close) == "</" + name + ">";
  }

  lemma {:induction false} ArmsOut<Env>(h: Host<Env>, tags: string -> Option<bool>, env: Env, x: Expr, arms: seq<Arm>, stmts: seq<ArmStmt>)
    requires ValidArms(tags, arms)
    requires |stmts| == |arms|
    requires forall k :: 0 <= k < |arms| ==> stmts[k] == CompileArm(tags, arms[k])
    ensures ExecArms(h, env, x, stmts) == RenderArms(h, env, x, arms)
    decreases arms
  {
    if arms != [] {
      assert ValidArm(tags, arms[0]);
      ArmOut(h, tags, env, x, arms[0]);
      assert ValidArms(tags, arms[1..]) by {
        forall k | 0 <= k < |arms[1..]| ensures ValidArm(tags, arms[1..][k]) {
          assert arms[1..][k] == arms[k + 1];
        }
      }
      ArmsOut(h, tags, env, x, arms[1..], stmts[1..]);
    }
  }

  lemma {:induction false} ArmOut<Env>(h: Host<Env>, tags: string -> Option<bool>, env: Env, x: Expr, a: Arm)
    requires ValidArm(tags, a)
    ensures ExecArm(h, env, x, CompileArm(tags, a)) == RenderArm(h, env, x, a)
    decreases a
  {
    match h.bind(env, a.pat, x)
    case None =>
    case Some(inner) =>
      CompileNodeCorrect(h, tags, inner, a.body);
  }

  lemma {:induction false} EachOut<Env>(h: Host<Env>, tags: string -> Option<bool>, envs: seq<Env>, b: Block)
    requires ValidNodes(tags, b.nodes)
    ensures ExecEach(h, envs, CompileNodes(tags, b.nodes)) == RenderEach(h, envs, b)
    decreases b, |envs|
  {
    if envs != [] {
      CompileNodesCorrect(h, tags, envs[0], b.nodes);
      EachOut(h, tags, envs[1..], b);
    }
  }

  lemma {:induction false} CompileArmsAt(tags: string -> Option<bool>, arms: seq<Arm>, k: nat)
    requires k < |arms|
    ensures CompileArms(tags, arms)[k] == CompileArm(tags, arms[k])
    decreases |arms|
  {
    if k < |arms| - 1 {
      CompileArmsAt(tags, arms[..|arms| - 1], k);
    }
  }
}
