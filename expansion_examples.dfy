/**
 * The examples of the library documentation that involve host expressions
 * and control structures: what the macro expands them to, and what the
 * expansion writes when run.
 */
module ExpansionExamples {
  import opened Wrappers
  import opened Ast
  import opened Generate
  import opened Semantics
  import opened StaticText
  import opened DocExamples
  import Escaping

  /** Text, one statement, text: three statements. */
  lemma TextStmtText(a: seq<Emit>, st: Stmt, b: seq<Emit>)
    requires AllText(a) && AllText(b) && a != [] && b != []
    ensures FinishParts(Apply([], a + [PushedStmt(st)] + b)) == [WriteStr(Texts(a)), st, WriteStr(Texts(b))]
  {
    ApplyConcat([], a + [PushedStmt(st)], b);
    ApplyConcat([], a, [PushedStmt(st)]);
    FoldText(a);
    var first := [Static(Texts(a))];
    var parts := first + [Dynamic(st)];
    assert Apply(first, [PushedStmt(st)]) == Apply(Push(first, PushedStmt(st)), []);
    assert Apply(first, [PushedStmt(st)]) == parts;
    ApplyTextAfter(parts, b);
    var all := parts + [Static(Texts(b))];
    assert Apply([], a + [PushedStmt(st)] + b) == all;
    assert all[..2] == parts && parts[..1] == first && first[..0] == [];
    assert FinishParts(first) == [WriteStr(Texts(a))];
    assert FinishParts(parts) == [WriteStr(Texts(a)), st];
  }

  /** An element without attributes pushes `<name>`, its body and `</name>`. */
  lemma BareEvents(tags: string -> Option<bool>, name: string, nodes: seq<Node>)
    requires tags(name) == Some(false)
    ensures NodeEvents(tags, El(name, [], nodes))
      == [PushedStr("<"), PushedStr(name), PushedStr(">")] + NodesEvents(tags, nodes)
        + [PushedStr("</"), PushedStr(name), PushedStr(">")]
  {
    var e := Element(Ident.Ident(name, 0), [], Some(Block(nodes)));
    NoAttributes();
    assert Validate(tags, e).Ok?;
    assert ValidationEvents(tags, e) == [];
    assert AttributeEvents(e) == [];
    assert OpenTagEvents(tags, e) == [PushedStr("<"), PushedStr(name)];
    assert ElementEvents(tags, e)
      == [PushedStr("<"), PushedStr(name)] + [] + [PushedStr(">")] + BodyEvents(tags, name, Block(nodes));
  }

  /** Three pushes of text. */
  lemma ThreeTexts(a: string, b: string, c: string)
    ensures AllText([PushedStr(a), PushedStr(b), PushedStr(c)])
    ensures Texts([PushedStr(a), PushedStr(b), PushedStr(c)]) == a + b + c
  {
    var es := [PushedStr(a), PushedStr(b), PushedStr(c)];
    assert es[1..] == [PushedStr(b), PushedStr(c)];
    assert es[1..][1..] == [PushedStr(c)];
    assert es[1..][1..][1..] == [];
    assert Texts(es[1..][1..]) == c;
    assert Texts(es[1..]) == b + c;
  }

  /** `name { (x) }`, `x` a host expression: written around one run-time render. */
  lemma ElementAroundExpr(tags: string -> Option<bool>, name: string, x: Expr)
    requires tags(name) == Some(false) && x.Host?
    ensures CompileNodes(tags, [El(name, [], [ExprNode(x)])])
      == [WriteStr("<" + name + ">"), RenderExpr(x), WriteStr("</" + name + ">")]
  {
    var open := [PushedStr("<"), PushedStr(name), PushedStr(">")];
    var close := [PushedStr("</"), PushedStr(name), PushedStr(">")];
    assert [El(name, [], [ExprNode(x)])][..0] == [] && [ExprNode(x)][..0] == [];
    assert NodesEvents(tags, [ExprNode(x)]) == [PushedStmt(RenderExpr(x))];
    BareEvents(tags, name, [ExprNode(x)]);
    assert NodesEvents(tags, [El(name, [], [ExprNode(x)])]) == open + [PushedStmt(RenderExpr(x))] + close;
    ThreeTexts("<", name, ">");
    ThreeTexts("</", name, ">");
    TextStmtText(open, RenderExpr(x), close);
  }

  /** A loop pushes one statement: the loop over its compiled body. */
  lemma ForEvents(tags: string -> Option<bool>, f: ForLoop)
    ensures CompileNodes(tags, [ForNode(f)]) == [ForStmt(f.pat, f.iter, CompileNodes(tags, f.body.nodes))]
  {
    var st := ForStmt(f.pat, f.iter, CompileNodes(tags, f.body.nodes));
    assert [ForNode(f)][..0] == [];
    assert NodesEvents(tags, [ForNode(f)]) == [PushedStmt(st)];
    assert Apply([], [PushedStmt(st)]) == [Dynamic(st)];
    assert [Dynamic(st)][..0] == [];
  }

  lemma SpanTags()
    ensures "<" + "span" + ">" == "<span>" && "</" + "span" + ">" == "</span>"
  {
  }

  /**
   * `for i in items { span { (i) } }` expands to a loop whose body writes
   * `<span>`, renders the item and writes `</span>`.
   */
  lemma ForLoopExpansion(tags: string -> Option<bool>, p: Pat, items: Expr, x: Expr)
    requires tags("span") == Some(false) && x.Host?
    ensures CompileNodes(tags, [ForNode(ForLoop(p, items, Block([El("span", [], [ExprNode(x)])])))])
      == [ForStmt(p, items, [WriteStr("<span>"), RenderExpr(x), WriteStr("</span>")])]
  {
    ForEvents(tags, ForLoop(p, items, Block([El("span", [], [ExprNode(x)])])));
    ElementAroundExpr(tags, "span", x);
    SpanTags();
  }

  /** The loop body once per item: three items whose text is plain write three spans. */
  lemma ForLoopRuns<Env>(h: Host<Env>, env: Env, p: Pat, items: Expr, x: Expr, s1: string, s2: string, s3: string)
    requires x.Host? && |h.items(env, p, items)| == 3
    requires h.eval(h.items(env, p, items)[0], x) == Text(s1)
    requires h.eval(h.items(env, p, items)[1], x) == Text(s2)
    requires h.eval(h.items(env, p, items)[2], x) == Text(s3)
    requires Plain(s1) && Plain(s2) && Plain(s3)
    ensures Exec(h, env, [ForStmt(p, items, [WriteStr("<span>"), RenderExpr(x), WriteStr("</span>")])])
      == "<span>" + s1 + "</span><span>" + s2 + "</span><span>" + s3 + "</span>"
  {
    var body := [WriteStr("<span>"), RenderExpr(x), WriteStr("</span>")];
    var envs := h.items(env, p, items);
    SpanRuns(h, envs[0], x, s1);
    SpanRuns(h, envs[1], x, s2);
    SpanRuns(h, envs[2], x, s3);
    assert ExecEach(h, envs[1..][1..][1..], body) == "";
    assert ExecEach(h, envs[1..][1..], body) == "<span>" + s3 + "</span>";
    assert ExecEach(h, envs[1..], body) == "<span>" + s2 + "</span>" + ("<span>" + s3 + "</span>");
    assert ExecEach(h, envs, body) == "<span>" + s1 + "</span>" + ("<span>" + s2 + "</span>" + ("<span>" + s3 + "</span>"));
    var st := ForStmt(p, items, body);
    assert [st][..0] == [];
    assert Exec(h, env, [st]) == ExecEach(h, envs, body);
    SpanConcat(s1, s2, s3);
  }

  lemma SpanConcat(s1: string, s2: string, s3: string)
    ensures "<span>" + s1 + "</span>" + ("<span>" + s2 + "</span>" + ("<span>" + s3 + "</span>"))
      == "<span>" + s1 + "</span><span>" + s2 + "</span><span>" + s3 + "</span>"
  {
    assert "</span>" + "<span>" == "</span><span>";
  }

  lemma SpanRuns<Env>(h: Host<Env>, env: Env, x: Expr, s: string)
    requires x.Host? && h.eval(env, x) == Text(s) && Plain(s)
    ensures Exec(h, env, [WriteStr("<span>"), RenderExpr(x), WriteStr("</span>")]) == "<span>" + s + "</span>"
  {
    var body := [WriteStr("<span>"), RenderExpr(x), WriteStr("</span>")];
    Escaping.EscapeSafe(s);
    assert ExecStmt(h, env, RenderExpr(x)) == s;
    assert body[..2] == [WriteStr("<span>"), RenderExpr(x)];
    assert body[..2][..1] == [WriteStr("<span>")];
    assert body[..2][..1][..0] == [];
    assert Exec(h, env, body[..2][..1]) == "<span>";
    assert Exec(h, env, body[..2]) == "<span>" + s;
  }

  /** Four pushes of text. */
  lemma FourTexts(a: string, b: string, c: string, d: string)
    ensures AllText([PushedStr(a), PushedStr(b), PushedStr(c), PushedStr(d)])
    ensures Texts([PushedStr(a), PushedStr(b), PushedStr(c), PushedStr(d)]) == a + b + c + d
  {
    var es := [PushedStr(a), PushedStr(b), PushedStr(c), PushedStr(d)];
    assert es[1..] == [PushedStr(b), PushedStr(c), PushedStr(d)];
    ThreeTexts(b, c, d);
  }

  /** `name { "t" (x) }`: the literal joins the opening tag, the expression is rendered at run time. */
  lemma TextThenExpr(tags: string -> Option<bool>, name: string, t: string, x: Expr)
    requires tags(name) == Some(false) && x.Host? && Plain(t)
    ensures CompileNodes(tags, [El(name, [], [Str(t), ExprNode(x)])])
      == [WriteStr("<" + name + ">" + t), RenderExpr(x), WriteStr("</" + name + ">")]
  {
    var open := [PushedStr("<"), PushedStr(name), PushedStr(">")];
    var close := [PushedStr("</"), PushedStr(name), PushedStr(">")];
    var body := [Str(t), ExprNode(x)];
    Escaping.EscapeSafe(t);
    assert body[..1] == [Str(t)] && [Str(t)][..0] == [];
    assert NodesEvents(tags, [Str(t)]) == [PushedStr(t)];
    assert NodesEvents(tags, body) == [PushedStr(t)] + [PushedStmt(RenderExpr(x))];
    BareEvents(tags, name, body);
    assert [El(name, [], body)][..0] == [];
    assert NodesEvents(tags, [El(name, [], body)])
      == (open + [PushedStr(t)]) + [PushedStmt(RenderExpr(x))] + close;
    assert open + [PushedStr(t)] == [PushedStr("<"), PushedStr(name), PushedStr(">"), PushedStr(t)];
    FourTexts("<", name, ">", t);
    ThreeTexts("</", name, ">");
    TextStmtText(open + [PushedStr(t)], RenderExpr(x), close);
  }

  lemma ParagraphTags()
    ensures "<" + "p" + ">" == "<p>" && "</" + "p" + ">" == "</p>"
  {
  }

  /**
   * `p { "Hello " (name) }` expands to a write of `<p>Hello `, a render of
   * `name` and a write of `</p>`.
   */
  lemma InsertExpression(tags: string -> Option<bool>, t: string, x: Expr)
    requires tags("p") == Some(false) && x.Host? && Plain(t)
    ensures CompileNodes(tags, [El("p", [], [Str(t), ExprNode(x)])])
      == [WriteStr("<p>" + t), RenderExpr(x), WriteStr("</p>")]
  {
    TextThenExpr(tags, "p", t, x);
    ParagraphTags();
  }

  /** `if c1 { … } else if c2 { … } else { … }`. */
  function ElseIfChain(c1: Expr, b1: Block, c2: Expr, b2: Block, b3: Block): Node {
    IfNode(If(c1, b1, Some(IfNode(If(c2, b2, Some(BlockNode(b3)))))))
  }

  /**
   * An else-if chain runs the block of the first condition that holds, in the
   * environment that condition gives (the bindings of an `if let`), else the
   * last block in the environment it started with.
   */
  lemma ElseIfRuns<Env>(h: Host<Env>, env: Env, tags: string -> Option<bool>,
                        c1: Expr, b1: Block, c2: Expr, b2: Block, b3: Block)
    requires ValidNodes(tags, b1.nodes) && ValidNodes(tags, b2.nodes) && ValidNodes(tags, b3.nodes)
    ensures h.test(env, c1).Some? ==>
      Exec(h, env, CompileNodes(tags, [ElseIfChain(c1, b1, c2, b2, b3)]))
        == RenderNodes(h, h.test(env, c1).value, b1.nodes)
    ensures h.test(env, c1).None? && h.test(env, c2).Some? ==>
      Exec(h, env, CompileNodes(tags, [ElseIfChain(c1, b1, c2, b2, b3)]))
        == RenderNodes(h, h.test(env, c2).value, b2.nodes)
    ensures h.test(env, c1).None? && h.test(env, c2).None? ==>
      Exec(h, env, CompileNodes(tags, [ElseIfChain(c1, b1, c2, b2, b3)])) == RenderNodes(h, env, b3.nodes)
  {
    var inner := IfNode(If(c2, b2, Some(BlockNode(b3))));
    var n := ElseIfChain(c1, b1, c2, b2, b3);
    assert ValidNode(tags, BlockNode(b3));
    assert ValidNode(tags, inner);
    assert ValidNode(tags, n);
    assert ValidNodes(tags, [n]);
    CompileNodesCorrect(h, tags, env, [n]);
    RenderSingle(h, env, n);
    assert h.test(env, c1).None? ==> RenderNode(h, env, n) == RenderNode(h, env, inner);
    assert h.test(env, c2).None? ==> RenderNode(h, env, inner) == RenderNode(h, env, BlockNode(b3));
  }

  /**
   * The else-if example: when neither `age < 18` nor `age == 18` holds, the
   * template writes `<p>Hi</p>`.
   */
  lemma ElseIfExample<Env>(h: Host<Env>, env: Env, tags: string -> Option<bool>,
                           c1: Expr, t1: string, c2: Expr, t2: string, t3: string)
    requires tags("p") == Some(false) && Plain(t3)
    requires h.test(env, c1).None? && h.test(env, c2).None?
    ensures Exec(h, env, CompileNodes(tags, [ElseIfChain(c1, Block([El("p", [], [Str(t1)])]),
        c2, Block([El("p", [], [Str(t2)])]), Block([El("p", [], [Str(t3)])]))]))
      == "<p>" + t3 + "</p>"
  {
    TextValid(tags, t1);
    TextValid(tags, t2);
    TextValid(tags, t3);
    BareValid(tags, "p", [Str(t1)]);
    BareValid(tags, "p", [Str(t2)]);
    BareValid(tags, "p", [Str(t3)]);
    ElseIfRuns(h, env, tags, c1, Block([El("p", [], [Str(t1)])]), c2, Block([El("p", [], [Str(t2)])]),
      Block([El("p", [], [Str(t3)])]));
    RenderSingle(h, env, El("p", [], [Str(t3)]));
    BareText(h, env, "p", t3);
    ParagraphTags();
  }

  /**
   * `(DOCTYPE) h1 { "t" }`: the doctype is `Raw` markup and is written
   * unescaped before the heading.
   */
  lemma DoctypeExample<Env>(h: Host<Env>, env: Env, tags: string -> Option<bool>, d: Expr, t: string)
    requires tags("h1") == Some(false) && d.Host? && Plain(t)
    requires h.eval(env, d) == Raw("<!DOCTYPE html>")
    ensures Exec(h, env, CompileNodes(tags, [ExprNode(d), El("h1", [], [Str(t)])]))
      == "<!DOCTYPE html><h1>" + t + "</h1>"
  {
    TextValid(tags, t);
    BareValid(tags, "h1", [Str(t)]);
    assert ValidNodes(tags, [ExprNode(d), El("h1", [], [Str(t)])]);
    CompileNodesCorrect(h, tags, env, [ExprNode(d), El("h1", [], [Str(t)])]);
    RenderPair(h, env, ExprNode(d), El("h1", [], [Str(t)]));
    BareText(h, env, "h1", t);
    DoctypeConcat(t);
  }

  lemma DoctypeConcat(t: string)
    ensures "<!DOCTYPE html>" + ("<" + "h1" + ">" + t + ("</" + "h1" + ">")) == "<!DOCTYPE html><h1>" + t + "</h1>"
  {
    assert "<" + "h1" + ">" == "<h1>" && "</" + "h1" + ">" == "</h1>";
    assert "<!DOCTYPE html>" + "<h1>" == "<!DOCTYPE html><h1>";
  }
}
