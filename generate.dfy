/**
 * The code generator: a generator collects the parts of the render function
 * body, literal text coalescing into the static part before it, and the
 * generate methods walk the tree pushing text, render statements, compile
 * errors and control-flow statements whose blocks fresh generators produce.
 *
 * The specification is the list of pushes each node makes (`NodeEvents`) and
 * what pushing does to the parts (`Push`, `Apply`).
 */
module Generate {
  import opened Wrappers
  import opened Tokens
  import opened Diagnostics
  import opened Ast
  import Escaping
  import ProcEscape

  /** A statement of the generated render function. */
  datatype Stmt =
    | WriteStr(text: string)                  // `Display::fmt(text, f)?`: written as it is
    | RenderExpr(expr: Expr)                  // `Render::render_to(&expr, f)?`
    | CompileErrors(error: Error)             // the `compile_error!`s of an error
    | IfStmt(cond: Expr, thenBranch: seq<Stmt>, elseBranch: ElseStmt)
    | MatchStmt(scrutinee: Expr, arms: seq<ArmStmt>)
    | ForStmt(pat: Pat, iter: Expr, body: seq<Stmt>)

  /** The `else` of a generated `if`, when the template has one. */
  datatype ElseStmt = NoElse | ElseBlock(stmts: seq<Stmt>)

  datatype ArmStmt = ArmStmt(pat: Pat, guard: Option<Expr>, body: seq<Stmt>)

  /** `Part`: text known at compile time, or a statement. */
  datatype Part = Static(text: string) | Dynamic(stmt: Stmt)

  /** One push onto a generator: `push_str`, or `push_stmt`/`push_error`. */
  datatype Emit = PushedStr(s: string) | PushedStmt(stmt: Stmt)

  /** The parts after one push: text joins a static part at the end, anything else is appended. */
  function Push(parts: seq<Part>, e: Emit): seq<Part> {
    match e
    case PushedStr(s) =>
      if parts != [] && parts[|parts| - 1].Static? then
        parts[..|parts| - 1] + [Static(parts[|parts| - 1].text + s)]
      else parts + [Static(s)]
    case PushedStmt(st) => parts + [Dynamic(st)]
  }

  /** The parts after a series of pushes. */
  function Apply(parts: seq<Part>, es: seq<Emit>): seq<Part>
    decreases |es|
  {
    if es == [] then parts else Apply(Push(parts, es[0]), es[1..])
  }

  lemma {:induction false} ApplyConcat(parts: seq<Part>, a: seq<Emit>, b: seq<Emit>)
    ensures Apply(parts, a + b) == Apply(Apply(parts, a), b)
    decreases |a|
  {
    if a == [] {
      assert a + b == b;
    } else {
      assert (a + b)[0] == a[0];
      assert (a + b)[1..] == a[1..] + b;
      ApplyConcat(Push(parts, a[0]), a[1..], b);
    }
  }

  lemma ApplySnoc(parts: seq<Part>, es: seq<Emit>, e: Emit)
    ensures Apply(parts, es + [e]) == Push(Apply(parts, es), e)
  {
    ApplyConcat(parts, es, [e]);
  }

  /** No two neighbouring parts are both static. */
  predicate Coalesced(parts: seq<Part>) {
    forall i :: 0 <= i < |parts| - 1 ==> !(parts[i].Static? && parts[i + 1].Static?)
  }

  /** Pushing keeps the parts coalesced, and changes none but the last part. */
  lemma PushCoalesced(parts: seq<Part>, e: Emit)
    requires Coalesced(parts)
    ensures Coalesced(Push(parts, e))
    ensures |parts| <= |Push(parts, e)| <= |parts| + 1
    ensures parts != [] ==> Push(parts, e)[..|parts| - 1] == parts[..|parts| - 1]
  {
    var r := Push(parts, e);
    if e.PushedStr? && parts != [] && parts[|parts| - 1].Static? {
      forall i | 0 <= i < |r| - 1
        ensures !(r[i].Static? && r[i + 1].Static?)
      {
        assert r[i] == parts[i];
        if i + 1 < |r| - 1 {
          assert r[i + 1] == parts[i + 1];
        }
      }
    }
  }

  lemma {:induction false} ApplyCoalesced(parts: seq<Part>, es: seq<Emit>)
    requires Coalesced(parts)
    ensures Coalesced(Apply(parts, es))
    decreases |es|
  {
    if es != [] {
      PushCoalesced(parts, es[0]);
      ApplyCoalesced(Push(parts, es[0]), es[1..]);
    }
  }

  function StmtOf(p: Part): Stmt {
    match p
    case Static(text) => WriteStr(text)
    case Dynamic(st) => st
  }

  /** `Generator::finish`: one statement per part, in order. */
  function FinishParts(parts: seq<Part>): (stmts: seq<Stmt>)
    ensures |stmts| == |parts|
    decreases |parts|
  {
    if parts == [] then [] else FinishParts(parts[..|parts| - 1]) + [StmtOf(parts[|parts| - 1])]
  }

  lemma {:induction false} FinishPartsAt(parts: seq<Part>, i: nat)
    requires i < |parts|
    ensures FinishParts(parts)[i] == StmtOf(parts[i])
    decreases |parts|
  {
    if i < |parts| - 1 {
      FinishPartsAt(parts[..|parts| - 1], i);
    }
  }

  lemma {:induction false} FinishPartsConcat(a: seq<Part>, b: seq<Part>)
    ensures FinishParts(a + b) == FinishParts(a) + FinishParts(b)
    decreases |b|
  {
    if b == [] {
      assert a + b == a;
    } else {
      assert (a + b)[..|a + b| - 1] == a + b[..|b| - 1];
      FinishPartsConcat(a, b[..|b| - 1]);
    }
  }

  // ---- the pushes each construct makes ----

  /** `push_rendered_expr`: a string literal is escaped now and joins the text; anything else is rendered at run time. */
  function RenderedExprEvents(e: Expr): seq<Emit> {
    if e.Lit? then [PushedStr(Escaping.Escape(e.value))] else [PushedStmt(RenderExpr(e))]
  }

  /** ` key`, then `="value"` when the attribute has a value. */
  function AttrPairEvents(p: (string, Option<Expr>)): seq<Emit> {
    [PushedStr(" "), PushedStr(p.0)]
      + (if p.1.Some? then [PushedStr("=\"")] + RenderedExprEvents(p.1.value) + [PushedStr("\"")] else [])
  }

  function AttrEvents(pairs: seq<(string, Option<Expr>)>): seq<Emit>
    decreases |pairs|
  {
    if pairs == [] then [] else AttrEvents(pairs[..|pairs| - 1]) + AttrPairEvents(pairs[|pairs| - 1])
  }

  /** The validation error of an element, if it has one. */
  function ValidationEvents(tags: string -> Option<bool>, e: Element): seq<Emit> {
    match Validate(tags, e)
    case Ok(_) => []
    case Err(d) => [PushedStmt(CompileErrors(Single(d)))]
  }

  /** The attributes of an element, or the error about its repeated keys in their place. */
  function AttributeEvents(e: Element): seq<Emit> {
    match AttributesSpec(e.attrList)
    case Ok(pairs) => AttrEvents(pairs)
    case Err(err) => [PushedStmt(CompileErrors(err))]
  }

  function ElementEvents(tags: string -> Option<bool>, e: Element): seq<Emit>
    decreases e, 0
  {
    OpenTagEvents(tags, e) + AttributeEvents(e) + [PushedStr(">")]
      + match e.body
        case None => []
        case Some(b) => BodyEvents(tags, e.name.name, b)
  }

  /** The validation error, if any, then `<name`. */
  function OpenTagEvents(tags: string -> Option<bool>, e: Element): seq<Emit> {
    ValidationEvents(tags, e) + [PushedStr("<"), PushedStr(e.name.name)]
  }

  /** The nodes of a body, then the closing tag. */
  function BodyEvents(tags: string -> Option<bool>, name: string, b: Block): seq<Emit>
    decreases b, 0
  {
    NodesEvents(tags, b.nodes) + [PushedStr("</"), PushedStr(name), PushedStr(">")]
  }

  function NodesEvents(tags: string -> Option<bool>, ns: seq<Node>): seq<Emit>
    decreases ns, 0
  {
    if ns == [] then [] else NodesEvents(tags, ns[..|ns| - 1]) + NodeEvents(tags, ns[|ns| - 1])
  }

  function NodeEvents(tags: string -> Option<bool>, n: Node): seq<Emit>
    decreases n, 0
  {
    match n
    case ElementNode(e) => ElementEvents(tags, e)
    case BlockNode(b) => NodesEvents(tags, b.nodes)
    case ExprNode(e) => RenderedExprEvents(e)
    case IfNode(i) =>
      [PushedStmt(IfStmt(i.cond, CompileNodes(tags, i.thenBranch.nodes),
        if i.elseBranch.Some? then ElseBlock(CompileNode(tags, i.elseBranch.value)) else NoElse))]
    case MatchNode(x) => [PushedStmt(MatchStmt(x.scrutinee, CompileArms(tags, x.arms)))]
    case ForNode(f) => [PushedStmt(ForStmt(f.pat, f.iter, CompileNodes(tags, f.body.nodes)))]
  }

  /** The statements a fresh generator finishes with after generating `ns`. */
  function CompileNodes(tags: string -> Option<bool>, ns: seq<Node>): seq<Stmt>
    decreases ns, 1
  {
    FinishParts(Apply([], NodesEvents(tags, ns)))
  }

  function CompileNode(tags: string -> Option<bool>, n: Node): seq<Stmt>
    decreases n, 1
  {
    FinishParts(Apply([], NodeEvents(tags, n)))
  }

  function CompileArms(tags: string -> Option<bool>, arms: seq<Arm>): (r: seq<ArmStmt>)
    ensures |r| == |arms|
    decreases arms
  {
    if arms == [] then [] else CompileArms(tags, arms[..|arms| - 1]) + [CompileArm(tags, arms[|arms| - 1])]
  }

  function CompileArm(tags: string -> Option<bool>, a: Arm): ArmStmt
    decreases a, 2
  {
    ArmStmt(a.pat, a.guard, CompileNode(tags, a.body))
  }

  // ---- the generator ----

  /** `Generator`: the parts of the body being generated. */
  class Generator {
    var parts: seq<Part>

    constructor ()
      ensures parts == []
    {
      parts := [];
    }

    /** `push_str`: extends a static part at the end, or starts one. */
    method PushStr(s: string)
      modifies this
      ensures parts == Push(old(parts), PushedStr(s))
    {
      if parts != [] && parts[|parts| - 1].Static? {
        var last := parts[|parts| - 1];
        parts := parts[..|parts| - 1] + [Static(last.text + s)];
      } else {
        parts := parts + [Static(s)];
      }
    }

    /** `push_stmt`: appends the statement, leaving the parts before it alone. */
    method PushStmt(st: Stmt)
      modifies this
      ensures parts == old(parts) + [Dynamic(st)]
    {
      parts := parts + [Dynamic(st)];
    }

    /** `push_error`: appends the compile errors of `err` as a statement. */
    method PushError(err: Error)
      modifies this
      ensures parts == old(parts) + [Dynamic(CompileErrors(err))]
    {
      parts := parts + [Dynamic(CompileErrors(err))];
    }

    /** `push_rendered_expr`: a literal is escaped at compile time and pushed as text. */
    method PushRenderedExpr(e: Expr)
      modifies this
      ensures parts == Apply(old(parts), RenderedExprEvents(e))
    {
      if e.Lit? {
        var escaped := ProcEscape.EscapeHtml(e.value);
        PushStr(escaped);
      } else {
        PushStmt(RenderExpr(e));
      }
    }

    /** `finish`: each static part becomes a write of its text, each dynamic part its statement. */
    method Finish() returns (stmts: seq<Stmt>)
      ensures |stmts| == |parts|
      ensures forall i :: 0 <= i < |parts| ==>
        stmts[i] == (if parts[i].Static? then WriteStr(parts[i].text) else parts[i].stmt)
      ensures stmts == FinishParts(parts)
    {
      stmts := [];
      for i := 0 to |parts|
        invariant stmts == FinishParts(parts[..i])
      {
        match parts[i] {
          case Static(text) => stmts := stmts + [WriteStr(text)];
          case Dynamic(st) => stmts := stmts + [st];
        }
        assert parts[..i + 1][..i] == parts[..i];
      }
      assert parts[..|parts|] == parts;
      forall i | 0 <= i < |parts|
        ensures stmts[i] == (if parts[i].Static? then WriteStr(parts[i].text) else parts[i].stmt)
      {
        FinishPartsAt(parts, i);
      }
    }
  }

  // ---- the generate methods ----

  /** `Generate for Template`/`Block`: the nodes in order. */
  method GenerateNodes(tags: string -> Option<bool>, ns: seq<Node>, g: Generator)
    modifies g
    ensures g.parts == Apply(old(g.parts), NodesEvents(tags, ns))
    decreases ns, 0
  {
    for i := 0 to |ns|
      invariant g.parts == Apply(old(g.parts), NodesEvents(tags, ns[..i]))
    {
      ghost var before := g.parts;
      GenerateNode(tags, ns[i], g);
      assert ns[..i + 1][..i] == ns[..i];
      ApplyConcat(old(g.parts), NodesEvents(tags, ns[..i]), NodeEvents(tags, ns[i]));
    }
    assert ns[..|ns|] == ns;
  }

  /** `Generate for Node`. */
  method GenerateNode(tags: string -> Option<bool>, n: Node, g: Generator)
    modifies g
    ensures g.parts == Apply(old(g.parts), NodeEvents(tags, n))
    decreases n, 2
  {
    match n {
      case ElementNode(e) => GenerateElement(tags, e, g);
      case BlockNode(b) => GenerateNodes(tags, b.nodes, g);
      case ExprNode(e) => g.PushRenderedExpr(e);
      case IfNode(i) => GenerateIf(tags, i, g);
      case MatchNode(x) => GenerateMatch(tags, x, g);
      case ForNode(f) => GenerateFor(tags, f, g);
    }
  }

  /** `Generate::finish` on a block: a fresh generator, generated into and finished. */
  method FinishNodes(tags: string -> Option<bool>, ns: seq<Node>) returns (stmts: seq<Stmt>)
    ensures stmts == CompileNodes(tags, ns)
    decreases ns, 1
  {
    var g := new Generator();
    GenerateNodes(tags, ns, g);
    stmts := g.Finish();
  }

  /** `Generate::finish` on a node. */
  method FinishNode(tags: string -> Option<bool>, n: Node) returns (stmts: seq<Stmt>)
    ensures stmts == CompileNode(tags, n)
    decreases n, 3
  {
    var g := new Generator();
    GenerateNode(tags, n, g);
    stmts := g.Finish();
  }

  /** `Template::finish`, the body of the render function; the closure around it is not modelled. */
  method FinishTemplate(tags: string -> Option<bool>, t: Template) returns (stmts: seq<Stmt>)
    ensures stmts == CompileNodes(tags, t.nodes)
  {
    stmts := FinishNodes(tags, t.nodes);
  }

  /** One attribute of a valid list: ` key`, then `="value"` when it has a value. */
  method GenerateAttribute(attr: (string, Option<Expr>), g: Generator)
    modifies g
    ensures g.parts == Apply(old(g.parts), AttrPairEvents(attr))
  {
    ghost var start := g.parts;
    ghost var done: seq<Emit> := [];
    g.PushStr(" ");
    ApplySnoc(start, done, PushedStr(" "));
    done := done + [PushedStr(" ")];
    g.PushStr(attr.0);
    ApplySnoc(start, done, PushedStr(attr.0));
    done := done + [PushedStr(attr.0)];
    if attr.1.Some? {
      g.PushStr("=\"");
      ApplySnoc(start, done, PushedStr("=\""));
      done := done + [PushedStr("=\"")];
      g.PushRenderedExpr(attr.1.value);
      ApplyConcat(start, done, RenderedExprEvents(attr.1.value));
      done := done + RenderedExprEvents(attr.1.value);
      g.PushStr("\"");
      ApplySnoc(start, done, PushedStr("\""));
      done := done + [PushedStr("\"")];
    }
    assert done == AttrPairEvents(attr);
  }

  /** The attributes of an element, or the error about its repeated keys. */
  method GenerateAttributes(e: Element, g: Generator)
    modifies g
    ensures g.parts == Apply(old(g.parts), AttributeEvents(e))
  {
    var attributes := Attributes(e);
    match attributes {
      case Ok(pairs) =>
        assert pairs[..0] == [];
        for i := 0 to |pairs|
          invariant g.parts == Apply(old(g.parts), AttrEvents(pairs[..i]))
        {
          GenerateAttribute(pairs[i], g);
          assert pairs[..i + 1][..i] == pairs[..i];
          ApplyConcat(old(g.parts), AttrEvents(pairs[..i]), AttrPairEvents(pairs[i]));
        }
        assert pairs[..|pairs|] == pairs;
      case Err(err) =>
        g.PushError(err);
        assert Apply(old(g.parts), [PushedStmt(CompileErrors(err))]) == g.parts;
    }
  }

  /** The body of an element and its closing tag. */
  method GenerateBody(tags: string -> Option<bool>, name: string, b: Block, g: Generator)
    modifies g
    ensures g.parts == Apply(old(g.parts), BodyEvents(tags, name, b))
    decreases b, 1
  {
    ghost var start := g.parts;
    GenerateNodes(tags, b.nodes, g);
    ghost var done := NodesEvents(tags, b.nodes);
    g.PushStr("</");
    ApplySnoc(start, done, PushedStr("</"));
    done := done + [PushedStr("</")];
    g.PushStr(name);
    ApplySnoc(start, done, PushedStr(name));
    done := done + [PushedStr(name)];
    g.PushStr(">");
    ApplySnoc(start, done, PushedStr(">"));
    assert done + [PushedStr(">")] == BodyEvents(tags, name, b);
  }

  /** The validation error of an element, if any, then `<name`. */
  method GenerateOpenTag(tags: string -> Option<bool>, e: Element, g: Generator)
    modifies g
    ensures g.parts == Apply(old(g.parts), OpenTagEvents(tags, e))
  {
    ghost var start := g.parts;
    ghost var done: seq<Emit> := [];
    var validation := Validate(tags, e);
    match validation {
      case Err(d) =>
        g.PushError(Single(d));
        done := [PushedStmt(CompileErrors(Single(d)))];
      case Ok(_) =>
    }
    assert done == ValidationEvents(tags, e);
    g.PushStr("<");
    ApplySnoc(start, done, PushedStr("<"));
    done := done + [PushedStr("<")];
    g.PushStr(e.name.name);
    ApplySnoc(start, done, PushedStr(e.name.name));
    assert done + [PushedStr(e.name.name)] == OpenTagEvents(tags, e);
  }

  /**
   * `Generate for Element`: the validation error, `<name`, the attributes or
   * the error about repeated keys, `>`, then the body and the closing tag.
   */
  method GenerateElement(tags: string -> Option<bool>, e: Element, g: Generator)
    modifies g
    ensures g.parts == Apply(old(g.parts), ElementEvents(tags, e))
    decreases e, 1
  {
    ghost var start := g.parts;
    GenerateOpenTag(tags, e, g);
    ghost var done := OpenTagEvents(tags, e);
    GenerateAttributes(e, g);
    ApplyConcat(start, done, AttributeEvents(e));
    done := done + AttributeEvents(e);
    g.PushStr(">");
    ApplySnoc(start, done, PushedStr(">"));
    done := done + [PushedStr(">")];
    match e.body {
      case Some(b) =>
        GenerateBody(tags, e.name.name, b, g);
        ApplyConcat(start, done, BodyEvents(tags, e.name.name, b));
        assert done + BodyEvents(tags, e.name.name, b) == ElementEvents(tags, e);
      case None =>
        assert done == ElementEvents(tags, e);
    }
  }

  /** `Generate for If`: one statement; its blocks come from fresh generators. */
  method GenerateIf(tags: string -> Option<bool>, i: If, g: Generator)
    modifies g
    ensures g.parts == Apply(old(g.parts), NodeEvents(tags, IfNode(i)))
    decreases i
  {
    var thenBranch := FinishNodes(tags, i.thenBranch.nodes);
    var elseBranch := NoElse;
    if i.elseBranch.Some? {
      var stmts := FinishNode(tags, i.elseBranch.value);
      elseBranch := ElseBlock(stmts);
    }
    g.PushStmt(IfStmt(i.cond, thenBranch, elseBranch));
  }

  /** `Generate for Match`: one statement, the arms in their order, each body from a fresh generator. */
  method GenerateMatch(tags: string -> Option<bool>, x: Match, g: Generator)
    modifies g
    ensures g.parts == Apply(old(g.parts), NodeEvents(tags, MatchNode(x)))
    decreases x
  {
    var arms: seq<ArmStmt> := [];
    for k := 0 to |x.arms|
      invariant arms == CompileArms(tags, x.arms[..k])
      invariant g.parts == old(g.parts)
    {
      var a := x.arms[k];
      var body := FinishNode(tags, a.body);
      arms := arms + [ArmStmt(a.pat, a.guard, body)];
      assert x.arms[..k + 1][..k] == x.arms[..k];
    }
    assert x.arms[..|x.arms|] == x.arms;
    assert arms == CompileArms(tags, x.arms);
    g.PushStmt(MatchStmt(x.scrutinee, arms));
    assert NodeEvents(tags, MatchNode(x)) == [PushedStmt(MatchStmt(x.scrutinee, arms))];
  }

  /** `Generate for ForLoop`: one statement whose body comes from a fresh generator. */
  method GenerateFor(tags: string -> Option<bool>, f: ForLoop, g: Generator)
    modifies g
    ensures g.parts == Apply(old(g.parts), NodeEvents(tags, ForNode(f)))
    decreases f
  {
    var body := FinishNodes(tags, f.body.nodes);
    g.PushStmt(ForStmt(f.pat, f.iter, body));
  }
}
