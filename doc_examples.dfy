/**
 * The examples of the library documentation, stated for any text without
 * characters HTML escaping changes, compiled and run.
 */
module DocExamples {
  import opened Wrappers
  import opened Tokens
  import opened Ast
  import opened Generate
  import opened Semantics
  import opened StaticText
  import Escaping

  function El(name: string, attrs: seq<Attribute>, nodes: seq<Node>): Node {
    ElementNode(Element(Ident.Ident(name, 0), attrs, Some(Block(nodes))))
  }

  function Void(name: string, attrs: seq<Attribute>): Node {
    ElementNode(Element(Ident.Ident(name, 0), attrs, None))
  }

  function Str(s: string): Node {
    ExprNode(Lit(s, 0))
  }

  function Attr(key: string, v: string): Attribute {
    KeyValue(Ident.Ident(key, 0), Some(Lit(v, 0)))
  }

  /** Text escaping leaves unchanged. */
  predicate Plain(s: string) {
    forall i :: 0 <= i < |s| ==> !Escaping.IsSpecial(s[i])
  }

  /** A host in which nothing is known: enough for templates without host expressions. */
  function NoHost(): Host<()> {
    Host.Host((env: (), e: Expr) => Text(""), (env: (), e: Expr) => None,
      (env: (), p: Pat, e: Expr) => None, (env: (), p: Pat, e: Expr) => [])
  }

  lemma RenderSingle<Env>(h: Host<Env>, env: Env, a: Node)
    ensures RenderNodes(h, env, [a]) == RenderNode(h, env, a)
  {
    assert [a][..0] == [];
  }

  lemma RenderPair<Env>(h: Host<Env>, env: Env, a: Node, b: Node)
    ensures RenderNodes(h, env, [a, b]) == RenderNode(h, env, a) + RenderNode(h, env, b)
  {
    assert [a, b][..1] == [a];
    RenderSingle(h, env, a);
  }

  lemma RenderTriple<Env>(h: Host<Env>, env: Env, a: Node, b: Node, c: Node)
    ensures RenderNodes(h, env, [a, b, c]) == RenderNode(h, env, a) + RenderNode(h, env, b) + RenderNode(h, env, c)
  {
    assert [a, b, c][..2] == [a, b];
    RenderPair(h, env, a, b);
  }

  lemma PlainText<Env>(h: Host<Env>, env: Env, t: string)
    requires Plain(t)
    ensures RenderNode(h, env, Str(t)) == t
  {
    Escaping.EscapeSafe(t);
  }

  lemma NoAttributes()
    ensures AttributesSpec([]).Ok? && Pairs([]) == []
  {
    AttributesOkIff([]);
  }

  /** An element without attributes renders as its tags around its body. */
  lemma RenderBare<Env>(h: Host<Env>, env: Env, name: string, nodes: seq<Node>)
    ensures RenderNode(h, env, El(name, [], nodes)) == "<" + name + ">" + RenderNodes(h, env, nodes) + "</" + name + ">"
    ensures RenderNode(h, env, Void(name, [])) == "<" + name + ">"
  {
    NoAttributes();
  }

  lemma BareValid(tags: string -> Option<bool>, name: string, nodes: seq<Node>)
    requires tags(name) == Some(false) && ValidNodes(tags, nodes) && StaticNodes(nodes)
    ensures ValidNode(tags, El(name, [], nodes)) && StaticNode(El(name, [], nodes))
  {
    NoAttributes();
  }

  lemma VoidValid(tags: string -> Option<bool>, name: string)
    requires tags(name) == Some(true)
    ensures ValidNode(tags, Void(name, [])) && StaticNode(Void(name, []))
  {
    NoAttributes();
  }

  lemma TextValid(tags: string -> Option<bool>, t: string)
    ensures ValidNode(tags, Str(t)) && StaticNode(Str(t))
    ensures ValidNodes(tags, [Str(t)]) && StaticNodes([Str(t)])
  {
  }

  lemma PairValid(tags: string -> Option<bool>, a: Node, b: Node)
    requires ValidNode(tags, a) && StaticNode(a) && ValidNode(tags, b) && StaticNode(b)
    ensures ValidNodes(tags, [a, b]) && StaticNodes([a, b])
  {
  }

  /** A valid static block whose HTML is `out`, not empty, compiles to one write of `out`. */
  lemma FoldsTo(tags: string -> Option<bool>, ns: seq<Node>, out: string)
    requires ValidNodes(tags, ns) && StaticNodes(ns)
    requires RenderNodes(NoHost(), (), ns) == out && out != []
    ensures CompileNodes(tags, ns) == [WriteStr(out)]
  {
    StaticFolds(NoHost(), (), tags, ns);
  }

  /** `h1 { "…" } p { "…" }` compiles to one write of `<h1>…</h1><p>…</p>`. */
  lemma HeadingAndParagraph(tags: string -> Option<bool>, t1: string, t2: string)
    requires tags("h1") == Some(false) && tags("p") == Some(false)
    requires Plain(t1) && Plain(t2)
    ensures CompileNodes(tags, [El("h1", [], [Str(t1)]), El("p", [], [Str(t2)])])
      == [WriteStr("<h1>" + t1 + "</h1><p>" + t2 + "</p>")]
  {
    var a := El("h1", [], [Str(t1)]);
    var b := El("p", [], [Str(t2)]);
    assert ValidNodes(tags, [a, b]) && StaticNodes([a, b]) by {
      TextValid(tags, t1);
      TextValid(tags, t2);
      BareValid(tags, "h1", [Str(t1)]);
      BareValid(tags, "p", [Str(t2)]);
      PairValid(tags, a, b);
    }
    HeadingAndParagraphHtml(NoHost(), (), t1, t2);
    FoldsTo(tags, [a, b], "<h1>" + t1 + "</h1><p>" + t2 + "</p>");
  }

  lemma HeadingAndParagraphHtml<Env>(h: Host<Env>, env: Env, t1: string, t2: string)
    requires Plain(t1) && Plain(t2)
    ensures RenderNodes(h, env, [El("h1", [], [Str(t1)]), El("p", [], [Str(t2)])])
      == "<h1>" + t1 + "</h1><p>" + t2 + "</p>"
  {
    HeadingAndParagraphParts(h, env, t1, t2);
    Regroup("<h1>", t1, "</h1>", "<p>", t2, "</p>");
  }

  lemma HeadingAndParagraphParts<Env>(h: Host<Env>, env: Env, t1: string, t2: string)
    requires Plain(t1) && Plain(t2)
    ensures RenderNodes(h, env, [El("h1", [], [Str(t1)]), El("p", [], [Str(t2)])])
      == "<h1>" + t1 + "</h1>" + ("<p>" + t2 + "</p>")
  {
    BareText(h, env, "h1", t1);
    BareText(h, env, "p", t2);
    RenderPair(h, env, El("h1", [], [Str(t1)]), El("p", [], [Str(t2)]));
    assert "<" + "h1" + ">" == "<h1>";
    assert "</" + "h1" + ">" == "</h1>";
    assert "<" + "p" + ">" == "<p>";
    assert "</" + "p" + ">" == "</p>";
  }

  lemma BareText<Env>(h: Host<Env>, env: Env, name: string, t: string)
    requires Plain(t)
    ensures RenderNode(h, env, El(name, [], [Str(t)])) == "<" + name + ">" + t + ("</" + name + ">")
  {
    PlainText(h, env, t);
    RenderSingle(h, env, Str(t));
    RenderBare(h, env, name, [Str(t)]);
  }

  lemma Regroup(s1: string, s2: string, s3: string, s4: string, s5: string, s6: string)
    ensures s1 + s2 + s3 + (s4 + s5 + s6) == s1 + s2 + (s3 + s4) + s5 + s6
  {
  }

  /** A void element is written as its opening tag alone: `p { "…" br ; "…" }` writes `<p>…<br>…</p>`. */
  lemma VoidElement(tags: string -> Option<bool>, t1: string, t2: string)
    requires tags("p") == Some(false) && tags("br") == Some(true)
    requires Plain(t1) && Plain(t2)
    ensures CompileNodes(tags, [El("p", [], [Str(t1), Void("br", []), Str(t2)])])
      == [WriteStr("<p>" + t1 + "<br>" + t2 + "</p>")]
  {
    var br := Void("br", []);
    var body := [Str(t1), br, Str(t2)];
    var p := El("p", [], body);
    assert ValidNodes(tags, [p]) && StaticNodes([p]) by {
      TextValid(tags, t1);
      TextValid(tags, t2);
      VoidValid(tags, "br");
      assert ValidNodes(tags, body) && StaticNodes(body);
      BareValid(tags, "p", body);
    }
    VoidElementHtml(NoHost(), (), t1, t2);
    FoldsTo(tags, [p], "<p>" + t1 + "<br>" + t2 + "</p>");
  }

  lemma VoidElementHtml<Env>(h: Host<Env>, env: Env, t1: string, t2: string)
    requires Plain(t1) && Plain(t2)
    ensures RenderNodes(h, env, [El("p", [], [Str(t1), Void("br", []), Str(t2)])]) == "<p>" + t1 + "<br>" + t2 + "</p>"
  {
    VoidBetweenHtml(h, env, "p", "br", t1, t2);
    VoidBetweenShape(t1, t2);
  }

  lemma VoidBetweenHtml<Env>(h: Host<Env>, env: Env, outer: string, inner: string, t1: string, t2: string)
    requires Plain(t1) && Plain(t2)
    ensures RenderNodes(h, env, [El(outer, [], [Str(t1), Void(inner, []), Str(t2)])])
      == "<" + outer + ">" + (t1 + ("<" + inner + ">") + t2) + ("</" + outer + ">")
  {
    var br := Void(inner, []);
    var body := [Str(t1), br, Str(t2)];
    PlainText(h, env, t1);
    PlainText(h, env, t2);
    RenderBare(h, env, inner, []);
    assert RenderNodes(h, env, []) == "";
    RenderTriple(h, env, Str(t1), br, Str(t2));
    RenderBare(h, env, outer, body);
    RenderSingle(h, env, El(outer, [], body));
  }

  lemma VoidBetweenShape(t1: string, t2: string)
    ensures "<" + "p" + ">" + (t1 + ("<" + "br" + ">") + t2) + ("</" + "p" + ">") == "<p>" + t1 + "<br>" + t2 + "</p>"
  {
    assert "<" + "p" + ">" == "<p>";
    assert "<" + "br" + ">" == "<br>";
    assert "</" + "p" + ">" == "</p>";
  }

  // ---- attributes ----

  lemma ElementHtml<Env>(h: Host<Env>, env: Env, name: string, attrs: seq<Attribute>, nodes: seq<Node>)
    ensures RenderNode(h, env, El(name, attrs, nodes))
      == "<" + name + RenderAttrs(h, env, Pairs(attrs)) + ">" + RenderNodes(h, env, nodes) + ("</" + name + ">")
    ensures RenderNode(h, env, Void(name, attrs)) == "<" + name + RenderAttrs(h, env, Pairs(attrs)) + ">"
  {
  }

  lemma LiteralAttr<Env>(h: Host<Env>, env: Env, key: string, v: string)
    requires Plain(v)
    ensures RenderAttr(h, env, (key, Some(Lit(v, 0)))) == " " + key + "=\"" + v + "\""
  {
    Escaping.EscapeSafe(v);
  }

  lemma AttrsSingle<Env>(h: Host<Env>, env: Env, p: (string, Option<Expr>))
    ensures RenderAttrs(h, env, [p]) == RenderAttr(h, env, p)
  {
    assert [p][..0] == [];
  }

  lemma AttrsPair<Env>(h: Host<Env>, env: Env, p: (string, Option<Expr>), q: (string, Option<Expr>))
    ensures RenderAttrs(h, env, [p, q]) == RenderAttr(h, env, p) + RenderAttr(h, env, q)
  {
    assert [p, q][..1] == [p];
    AttrsSingle(h, env, p);
  }

  /** A key without `_` that does not start with `r` is written as it is. */
  lemma PlainKey(name: string)
    requires forall i :: 0 <= i < |name| ==> name[i] != '_'
    requires name == [] || name[0] != 'r'
    ensures NormalizeKey(name) == name
  {
    if |name| >= 2 {
      assert name[..2][0] == name[0];
    }
    TrimRawOfPlain(name);
    DashesOfDashless(name);
  }

  lemma {:induction false} DashesConcat(a: string, b: string)
    ensures Dashes(a + b) == Dashes(a) + Dashes(b)
  {
    if a != [] {
      assert (a + b)[1..] == a[1..] + b;
      DashesConcat(a[1..], b);
    }
  }

  /** A key made of two dashless words around one `_` is written with a dash between them. */
  lemma DashedKey(s: string, a: string, b: string, t: string)
    requires s == a + "_" + b && t == a + "-" + b
    requires forall i :: 0 <= i < |a| ==> a[i] != '_'
    requires forall i :: 0 <= i < |b| ==> b[i] != '_'
    requires !(|s| >= 2 && s[..2] == "r#")
    ensures NormalizeKey(s) == t
  {
    TrimRawOfPlain(s);
    DashesOfDashless(a);
    DashesOfDashless(b);
    DashesConcat(a + "_", b);
    DashesConcat(a, "_");
    assert Dashes("_") == "-";
  }

  lemma DataCooldownSplit()
    ensures "data_cooldown" == "data" + "_" + "cooldown"
    ensures "data-cooldown" == "data" + "-" + "cooldown"
  {
  }

  lemma DataCooldownKey()
    ensures NormalizeKey("data_cooldown") == "data-cooldown"
  {
    DataCooldownSplit();
    assert "data_cooldown"[..2][0] == 'd';
    DashedKey("data_cooldown", "data", "cooldown", "data-cooldown");
  }

  lemma RawTypeKey()
    ensures NormalizeKey("r#type") == "type"
  {
    var s := "r#type";
    assert s[..2] == "r#" && s[2..] == "type";
    assert TrimRaw(s) == TrimRaw("type");
    PlainKey("type");
  }

  /** One attribute, key-value with a literal value. */
  lemma SingleAttr(key: string, v: string)
    ensures KeyList([Attr(key, v)]) == [NormalizeKey(key)]
    ensures Pairs([Attr(key, v)]) == [(NormalizeKey(key), Some(Lit(v, 0)))]
    ensures AttributesSpec([Attr(key, v)]).Ok?
  {
    AttributesOkIff([Attr(key, v)]);
  }

  lemma TwoAttrs(a: Attribute, b: Attribute)
    requires KeyOf(a).1 != KeyOf(b).1
    ensures KeyList([a, b]) == [KeyOf(a).1, KeyOf(b).1]
    ensures Pairs([a, b]) == [(KeyOf(a).1, ValueOf(a)), (KeyOf(b).1, ValueOf(b))]
    ensures AttributesSpec([a, b]).Ok?
  {
    AttributesOkIff([a, b]);
  }

  lemma ElementValid(tags: string -> Option<bool>, e: Element)
    requires tags(e.name.name) == Some(e.body.None?)
    requires AttributesSpec(e.attrList).Ok?
    requires forall k :: 0 <= k < |e.attrList| ==> LiteralValue(ValueOf(e.attrList[k]))
    requires e.body.Some? ==> ValidNodes(tags, e.body.value.nodes) && StaticNodes(e.body.value.nodes)
    ensures ValidNode(tags, ElementNode(e)) && StaticNode(ElementNode(e))
  {
  }

  /** A void element with one literal attribute: `name key: "v";` writes `<name key="v">`. */
  lemma VoidAttrHtml<Env>(h: Host<Env>, env: Env, name: string, key: string, v: string)
    requires Plain(v)
    ensures RenderNode(h, env, Void(name, [Attr(key, v)]))
      == "<" + name + (" " + NormalizeKey(key) + "=\"" + v + "\"") + ">"
  {
    SingleAttr(key, v);
    ElementHtml(h, env, name, [Attr(key, v)], []);
    LiteralAttr(h, env, NormalizeKey(key), v);
    AttrsSingle(h, env, (NormalizeKey(key), Some(Lit(v, 0))));
  }

  /** An element with two literal attributes of distinct keys around plain text. */
  lemma TwoAttrHtml<Env>(h: Host<Env>, env: Env, name: string, k1: string, v1: string, k2: string, v2: string, t: string)
    requires Plain(v1) && Plain(v2) && Plain(t)
    requires NormalizeKey(k1) != NormalizeKey(k2)
    ensures RenderNode(h, env, El(name, [Attr(k1, v1), Attr(k2, v2)], [Str(t)]))
      == "<" + name + (" " + NormalizeKey(k1) + "=\"" + v1 + "\"" + (" " + NormalizeKey(k2) + "=\"" + v2 + "\""))
        + ">" + t + ("</" + name + ">")
  {
    var attrs := [Attr(k1, v1), Attr(k2, v2)];
    TwoAttrs(attrs[0], attrs[1]);
    ElementHtml(h, env, name, attrs, [Str(t)]);
    LiteralAttr(h, env, NormalizeKey(k1), v1);
    LiteralAttr(h, env, NormalizeKey(k2), v2);
    AttrsPair(h, env, (NormalizeKey(k1), Some(Lit(v1, 0))), (NormalizeKey(k2), Some(Lit(v2, 0))));
    PlainText(h, env, t);
    RenderSingle(h, env, Str(t));
  }

  /** The attribute example over any names: the HTML in five fixed pieces around the four texts. */
  lemma VoidThenElementHtml<Env>(h: Host<Env>, env: Env, n1: string, k1: string, n2: string, k2: string, k3: string,
                                 v1: string, v2: string, v3: string, t: string)
    requires Plain(v1) && Plain(v2) && Plain(v3) && Plain(t)
    requires NormalizeKey(k2) != NormalizeKey(k3)
    ensures RenderNodes(h, env, [Void(n1, [Attr(k1, v1)]), El(n2, [Attr(k2, v2), Attr(k3, v3)], [Str(t)])])
      == ("<" + n1 + " " + NormalizeKey(k1) + "=\"") + v1
        + ("\">" + "<" + n2 + " " + NormalizeKey(k2) + "=\"") + v2
        + ("\" " + NormalizeKey(k3) + "=\"") + v3
        + "\">" + t + ("</" + n2 + ">")
  {
    VoidAttrHtml(h, env, n1, k1, v1);
    TwoAttrHtml(h, env, n2, k2, v2, k3, v3, t);
    RenderPair(h, env, Void(n1, [Attr(k1, v1)]), El(n2, [Attr(k2, v2), Attr(k3, v3)], [Str(t)]));
    VoidThenElementShape(n1, NormalizeKey(k1), n2, NormalizeKey(k2), NormalizeKey(k3), v1, v2, v3, t);
  }

  lemma VoidThenElementShape(n1: string, k1: string, n2: string, k2: string, k3: string,
                             v1: string, v2: string, v3: string, t: string)
    ensures ("<" + n1 + (" " + k1 + "=\"" + v1 + "\"") + ">")
        + ("<" + n2 + (" " + k2 + "=\"" + v2 + "\"" + (" " + k3 + "=\"" + v3 + "\"")) + ">" + t + ("</" + n2 + ">"))
      == ("<" + n1 + " " + k1 + "=\"") + v1
        + ("\">" + "<" + n2 + " " + k2 + "=\"") + v2
        + ("\" " + k3 + "=\"") + v3
        + "\">" + t + ("</" + n2 + ">")
  {
  }

  lemma AttributeExamplePieces()
    ensures "<" + "img" + " " + "src" + "=\"" == "<img src=\""
    ensures "\">" + "<" + "button" + " " + "data-cooldown" + "=\"" == "\"><button data-cooldown=\""
    ensures "\" " + "onclick" + "=\"" == "\" onclick=\""
    ensures "</" + "button" + ">" == "</button>"
  {
  }

  lemma AttributeExampleHtml<Env>(h: Host<Env>, env: Env, v1: string, v2: string, v3: string, t: string)
    requires Plain(v1) && Plain(v2) && Plain(v3) && Plain(t)
    ensures RenderNodes(h, env, [Void("img", [Attr("src", v1)]),
        El("button", [Attr("data_cooldown", v2), Attr("onclick", v3)], [Str(t)])])
      == "<img src=\"" + v1 + "\"><button data-cooldown=\"" + v2 + "\" onclick=\"" + v3 + "\">" + t + "</button>"
  {
    PlainKey("src");
    PlainKey("onclick");
    DataCooldownKey();
    VoidThenElementHtml(h, env, "img", "src", "button", "data_cooldown", "onclick", v1, v2, v3, t);
    AttributeExamplePieces();
  }

  /**
   * `img src: "…" ; button data_cooldown: "…" onclick: "…" { "…" }`: the
   * underscore of a key is written as a dash, and the whole compiles to one write.
   */
  lemma AttributeExample(tags: string -> Option<bool>, v1: string, v2: string, v3: string, t: string)
    requires tags("img") == Some(true) && tags("button") == Some(false)
    requires Plain(v1) && Plain(v2) && Plain(v3) && Plain(t)
    ensures CompileNodes(tags, [Void("img", [Attr("src", v1)]),
        El("button", [Attr("data_cooldown", v2), Attr("onclick", v3)], [Str(t)])])
      == [WriteStr("<img src=\"" + v1 + "\"><button data-cooldown=\"" + v2 + "\" onclick=\"" + v3 + "\">" + t + "</button>")]
  {
    var img := Void("img", [Attr("src", v1)]);
    var button := El("button", [Attr("data_cooldown", v2), Attr("onclick", v3)], [Str(t)]);
    AttributeExampleValid(tags, v1, v2, v3, t);
    AttributeExampleHtml(NoHost(), (), v1, v2, v3, t);
    FoldsTo(tags, [img, button], "<img src=\"" + v1 + "\"><button data-cooldown=\"" + v2 + "\" onclick=\"" + v3 + "\">" + t + "</button>");
  }

  lemma AttributeExampleValid(tags: string -> Option<bool>, v1: string, v2: string, v3: string, t: string)
    requires tags("img") == Some(true) && tags("button") == Some(false)
    ensures ValidNodes(tags, [Void("img", [Attr("src", v1)]), El("button", [Attr("data_cooldown", v2), Attr("onclick", v3)], [Str(t)])])
    ensures StaticNodes([Void("img", [Attr("src", v1)]), El("button", [Attr("data_cooldown", v2), Attr("onclick", v3)], [Str(t)])])
  {
    PlainKey("onclick");
    DataCooldownKey();
    VoidThenElementValid(tags, "img", "src", "button", "data_cooldown", "onclick", v1, v2, v3, t);
  }

  lemma VoidThenElementValid(tags: string -> Option<bool>, n1: string, k1: string, n2: string, k2: string, k3: string,
                             v1: string, v2: string, v3: string, t: string)
    requires tags(n1) == Some(true) && tags(n2) == Some(false)
    requires NormalizeKey(k2) != NormalizeKey(k3)
    ensures ValidNodes(tags, [Void(n1, [Attr(k1, v1)]), El(n2, [Attr(k2, v2), Attr(k3, v3)], [Str(t)])])
    ensures StaticNodes([Void(n1, [Attr(k1, v1)]), El(n2, [Attr(k2, v2), Attr(k3, v3)], [Str(t)])])
  {
    var a := Void(n1, [Attr(k1, v1)]);
    var b := El(n2, [Attr(k2, v2), Attr(k3, v3)], [Str(t)]);
    SingleAttr(k1, v1);
    ElementValid(tags, a.element);
    TwoAttrs(Attr(k2, v2), Attr(k3, v3));
    TextValid(tags, t);
    ElementValid(tags, b.element);
    PairValid(tags, a, b);
  }

  // ---- empty attributes ----

  /** An element with a literal attribute and then one without a value. */
  lemma ValueThenFlagHtml<Env>(h: Host<Env>, env: Env, name: string, k1: string, v: string, k2: string)
    requires Plain(v) && NormalizeKey(k1) != NormalizeKey(k2)
    ensures RenderNode(h, env, Void(name, [Attr(k1, v), KeyValue(Ident.Ident(k2, 0), None)]))
      == "<" + name + (" " + NormalizeKey(k1) + "=\"" + v + "\"" + (" " + NormalizeKey(k2))) + ">"
  {
    var attrs := [Attr(k1, v), KeyValue(Ident.Ident(k2, 0), None)];
    TwoAttrs(attrs[0], attrs[1]);
    ElementHtml(h, env, name, attrs, []);
    LiteralAttr(h, env, NormalizeKey(k1), v);
    AttrsPair(h, env, (NormalizeKey(k1), Some(Lit(v, 0))), (NormalizeKey(k2), None));
  }

  lemma CheckboxPieces(v: string)
    ensures "<" + "input" + (" " + "type" + "=\"" + v + "\"" + (" " + "checked")) + ">"
      == "<input type=\"" + v + "\" checked>"
  {
    assert "<" + "input" + " " + "type" + "=\"" == "<input type=\"";
    assert "\"" + (" " + "checked") + ">" == "\" checked>";
  }

  lemma ValueThenFlagValid(tags: string -> Option<bool>, name: string, k1: string, v: string, k2: string)
    requires tags(name) == Some(true) && NormalizeKey(k1) != NormalizeKey(k2)
    ensures ValidNodes(tags, [Void(name, [Attr(k1, v), KeyValue(Ident.Ident(k2, 0), None)])])
    ensures StaticNodes([Void(name, [Attr(k1, v), KeyValue(Ident.Ident(k2, 0), None)])])
  {
    var attrs := [Attr(k1, v), KeyValue(Ident.Ident(k2, 0), None)];
    TwoAttrs(attrs[0], attrs[1]);
    ElementValid(tags, Element(Ident.Ident(name, 0), attrs, None));
  }

  lemma CheckboxKeys()
    ensures NormalizeKey("r#type") == "type" && NormalizeKey("checked") == "checked"
    ensures NormalizeKey("r#type") != NormalizeKey("checked")
  {
    RawTypeKey();
    PlainKey("checked");
    assert "type"[0] != "checked"[0];
  }

  lemma CheckboxHtml<Env>(h: Host<Env>, env: Env, v: string)
    requires Plain(v)
    ensures RenderNodes(h, env, [Void("input", [Attr("r#type", v), KeyValue(Ident.Ident("checked", 0), None)])])
      == "<input type=\"" + v + "\" checked>"
  {
    CheckboxKeys();
    ValueThenFlagHtml(h, env, "input", "r#type", v, "checked");
    CheckboxPieces(v);
    RenderSingle(h, env, Void("input", [Attr("r#type", v), KeyValue(Ident.Ident("checked", 0), None)]));
  }

  /**
   * `input r#type: "…" checked ;`: the raw-identifier prefix is dropped from
   * the key and an attribute without a value is written as its key alone.
   */
  lemma EmptyAttribute(tags: string -> Option<bool>, v: string)
    requires tags("input") == Some(true) && Plain(v)
    ensures CompileNodes(tags, [Void("input", [Attr("r#type", v), KeyValue(Ident.Ident("checked", 0), None)])])
      == [WriteStr("<input type=\"" + v + "\" checked>")]
  {
    CheckboxKeys();
    ValueThenFlagValid(tags, "input", "r#type", v, "checked");
    CheckboxHtml(NoHost(), (), v);
    FoldsTo(tags, [Void("input", [Attr("r#type", v), KeyValue(Ident.Ident("checked", 0), None)])],
      "<input type=\"" + v + "\" checked>");
  }

  // ---- id and class shorthand ----

  /** Two elements with the same name, body and attribute pairs compile to the same statements. */
  lemma SamePairsSameCode(tags: string -> Option<bool>, e: Element, f: Element)
    requires e.name == f.name && e.body == f.body
    requires AttributesSpec(e.attrList).Ok? && AttributesSpec(f.attrList).Ok?
    requires Pairs(e.attrList) == Pairs(f.attrList)
    ensures CompileNodes(tags, [ElementNode(e)]) == CompileNodes(tags, [ElementNode(f)])
  {
    assert AttributeEvents(e) == AttributeEvents(f);
    assert ValidationEvents(tags, e) == ValidationEvents(tags, f);
    assert ElementEvents(tags, e) == ElementEvents(tags, f);
    assert [ElementNode(e)][..0] == [] && [ElementNode(f)][..0] == [];
    assert NodesEvents(tags, [ElementNode(e)]) == NodesEvents(tags, [ElementNode(f)]);
  }

  /**
   * `@e1 .e2` is the same as `id: e1 class: e2`: an element written either
   * way compiles to the same statements, whatever the expressions.
   */
  lemma IdClassShorthand(tags: string -> Option<bool>, name: Ident, e1: Expr, e2: Expr, body: Option<Block>)
    ensures CompileNodes(tags, [ElementNode(Element(name, [KeyValue(Ident.Ident("id", 0), Some(e1)),
        KeyValue(Ident.Ident("class", 0), Some(e2))], body))])
      == CompileNodes(tags, [ElementNode(Element(name, [Id(e1), Class(e2)], body))])
  {
    var long := [KeyValue(Ident.Ident("id", 0), Some(e1)), KeyValue(Ident.Ident("class", 0), Some(e2))];
    var short := [Id(e1), Class(e2)];
    IdClassKeys();
    TwoAttrs(long[0], long[1]);
    TwoAttrs(short[0], short[1]);
    SamePairsSameCode(tags, Element(name, long, body), Element(name, short, body));
  }

  lemma IdClassKeys()
    ensures NormalizeKey("id") == "id" && NormalizeKey("class") == "class" && "id" != "class"
  {
    PlainKey("id");
    PlainKey("class");
  }
}
