/**
 * A printer from syntax trees back to tokens, and the round trip: parsing
 * what the printer gives back yields the tree it was given, for every tree
 * the parser can produce.
 */
module Unparse {
  import opened Wrappers
  import opened Tokens
  import opened Ast
  import opened Parse

  /** An expression where the grammar takes it bare: a condition, a scrutinee, an iterator, a guard. */
  function BareTokens(e: Expr): seq<Token> {
    match e
    case Lit(v, sp) => [Token(LitStr(v), sp)]
    case Host(ts) => ts
  }

  /** An expression where the grammar wants a literal or parentheses: a node, an attribute value. */
  function ValueTokens(e: Expr): seq<Token> {
    match e
    case Lit(v, sp) => [Token(LitStr(v), sp)]
    case Host(ts) => [Token(Paren(ts), 0)]
  }

  function PrintAttribute(a: Attribute): seq<Token> {
    match a
    case Id(e) => [Token(At, 0)] + ValueTokens(e)
    case Class(e) => [Token(Dot, 0)] + ValueTokens(e)
    case KeyValue(k, None) => [Token(Kind.Ident(k.name), k.span)]
    case KeyValue(k, Some(v)) => [Token(Kind.Ident(k.name), k.span), Token(Colon, 0)] + ValueTokens(v)
  }

  function PrintAttributes(attrs: seq<Attribute>): seq<Token> {
    if attrs == [] then [] else PrintAttribute(attrs[0]) + PrintAttributes(attrs[1..])
  }

  function BlockToken(b: Block): Token
    decreases b, 0
  {
    Token(Brace(PrintNodes(b.nodes)), 0)
  }

  function PrintNodes(ns: seq<Node>): seq<Token>
    decreases ns
  {
    if ns == [] then [] else PrintNode(ns[0]) + PrintNodes(ns[1..])
  }

  function PrintNode(n: Node): seq<Token>
    decreases n
  {
    match n
    case ElementNode(e) => PrintElement(e)
    case BlockNode(b) => [BlockToken(b)]
    case ExprNode(e) => ValueTokens(e)
    case IfNode(i) => PrintIf(i)
    case MatchNode(x) => [Token(KwMatch, 0)] + BareTokens(x.scrutinee) + [Token(Brace(PrintArms(x.arms)), 0)]
    case ForNode(f) =>
      [Token(KwFor, 0)] + f.pat.tokens + [Token(KwIn, 0)] + BareTokens(f.iter) + [BlockToken(f.body)]
  }

  function PrintElement(e: Element): seq<Token>
    decreases e
  {
    [Token(Kind.Ident(e.name.name), e.name.span)] + PrintAttributes(e.attrList)
      + (match e.body case None => [Token(Semi, 0)] case Some(b) => [BlockToken(b)])
  }

  function PrintIf(i: If): seq<Token>
    decreases i
  {
    [Token(KwIf, 0)] + BareTokens(i.cond) + [BlockToken(i.thenBranch)]
      + match i.elseBranch
        case None => []
        case Some(IfNode(j)) => [Token(KwElse, 0)] + PrintIf(j)
        case Some(other) => [Token(KwElse, 0)] + PrintNode(other)
  }

  lemma PrintIfParts(i: If)
    ensures PrintIf(i) == [Token(KwIf, 0)] + BareTokens(i.cond) + [BlockToken(i.thenBranch)] + ElseTokens(i.elseBranch)
  {
  }

  function PrintArms(arms: seq<Arm>): seq<Token>
    decreases arms
  {
    if arms == [] then [] else PrintArm(arms[0]) + PrintArms(arms[1..])
  }

  /** An arm, always with its comma. */
  function PrintArm(a: Arm): seq<Token>
    decreases a
  {
    a.pat.tokens
      + (match a.guard case None => [] case Some(g) => [Token(KwIf, 0)] + BareTokens(g))
      + [Token(FatArrow, 0)] + PrintNode(a.body) + [Token(Comma, 0)]
  }

  // ---- the trees the parser produces ----

  predicate NoStop(stop: Stop, ts: seq<Token>) {
    forall i :: 0 <= i < |ts| ==> !Stops(stop, ts[i].kind)
  }

  /** An opaque run the parser keeps as it is: not empty, and not a lone literal. */
  predicate WfRun(ts: seq<Token>) {
    ts != [] && !(|ts| == 1 && ts[0].kind.LitStr?)
  }

  predicate WfBare(stop: Stop, e: Expr) {
    e.Host? ==> WfRun(e.tokens) && NoStop(stop, e.tokens)
  }

  predicate WfValue(e: Expr) {
    e.Host? ==> WfRun(e.tokens)
  }

  predicate WfPat(p: Pat) {
    p.tokens != [] && NoStop(BeforePatEnd, p.tokens)
  }

  predicate WfAttribute(a: Attribute) {
    match a
    case Id(e) => WfValue(e)
    case Class(e) => WfValue(e)
    case KeyValue(_, v) => v.Some? ==> WfValue(v.value)
  }

  predicate WfNodes(m: Mode, ns: seq<Node>)
    decreases ns
  {
    ns == [] || (WfNode(m, ns[0]) && WfNodes(m, ns[1..]))
  }

  predicate WfNode(m: Mode, n: Node)
    decreases n
  {
    match n
    case ElementNode(e) =>
      (forall i :: 0 <= i < |e.attrList| ==> WfAttribute(e.attrList[i]))
      && (e.body.Some? ==> WfNodes(m, e.body.value.nodes))
    case BlockNode(b) => WfNodes(m, b.nodes)
    case ExprNode(e) => WfValue(e)
    case IfNode(i) => WfIf(m, i)
    case MatchNode(x) => WfBare(BeforeBrace, x.scrutinee) && WfArms(m, x.arms)
    case ForNode(f) => WfPat(f.pat) && WfBare(BeforeBrace, f.iter) && WfNodes(m, f.body.nodes)
  }

  /** In `AsWritten` mode no `else` holds another `if`. */
  predicate WfIf(m: Mode, i: If)
    decreases i
  {
    WfBare(BeforeBrace, i.cond) && WfNodes(m, i.thenBranch.nodes)
    && match i.elseBranch
       case None => true
       case Some(BlockNode(b)) => WfNodes(m, b.nodes)
       case Some(IfNode(j)) => m == Intended && WfIf(m, j)
       case Some(_) => false
  }

  predicate WfArms(m: Mode, arms: seq<Arm>)
    decreases arms
  {
    arms == [] || (WfArm(m, arms[0]) && WfArms(m, arms[1..]))
  }

  predicate WfArm(m: Mode, a: Arm)
    decreases a
  {
    WfPat(a.pat) && (a.guard.Some? ==> WfBare(BeforeFatArrow, a.guard.value)) && WfNode(m, a.body)
  }

  /** What may follow a node: anything but an `else`, which would be read as part of an `if`. */
  predicate MayFollow(rest: seq<Token>) {
    rest == [] || !rest[0].kind.KwElse?
  }

  // ---- the round trip ----

  lemma ConsTail(t: Token, a: seq<Token>, b: seq<Token>)
    ensures ([t] + a + b)[0] == t
    ensures ([t] + a + b)[1..] == a + b
  {
  }

  lemma BareRoundTrip(stop: Stop, e: Expr, rest: seq<Token>)
    requires WfBare(stop, e)
    requires rest != [] && Stops(stop, rest[0].kind)
    ensures ParseExprUntil(stop, BareTokens(e) + rest) == Ok((e, rest))
  {
    TakeUntilExact(stop, BareTokens(e), rest);
  }

  lemma ValueRoundTrip(e: Expr, rest: seq<Token>)
    requires WfValue(e)
    ensures ParseAttributeValue(ValueTokens(e) + rest) == Ok((e, rest))
  {
    ConsTail(ValueTokens(e)[0], [], rest);
  }

  lemma PatRoundTrip(p: Pat, rest: seq<Token>)
    requires WfPat(p)
    requires rest != [] && Stops(BeforePatEnd, rest[0].kind)
    ensures ParsePat(p.tokens + rest) == Ok((p, rest))
  {
    TakeUntilExact(BeforePatEnd, p.tokens, rest);
  }

  lemma AttributeRoundTrip(a: Attribute, rest: seq<Token>)
    requires WfAttribute(a)
    requires rest == [] || !rest[0].kind.Colon?
    ensures ParseAttribute(PrintAttribute(a) + rest) == Ok((a, rest))
  {
    match a
    case Id(e) =>
      ConsTail(Token(At, 0), ValueTokens(e), rest);
      ValueRoundTrip(e, rest);
    case Class(e) =>
      ConsTail(Token(Dot, 0), ValueTokens(e), rest);
      ValueRoundTrip(e, rest);
    case KeyValue(k, None) =>
      ConsTail(Token(Kind.Ident(k.name), k.span), [], rest);
    case KeyValue(k, Some(v)) =>
      var t := Token(Kind.Ident(k.name), k.span);
      assert PrintAttribute(a) + rest == [t] + ([Token(Colon, 0)] + ValueTokens(v) + rest);
      ConsTail(t, [Token(Colon, 0)] + ValueTokens(v), rest);
      ConsTail(Token(Colon, 0), ValueTokens(v), rest);
      ValueRoundTrip(v, rest);
  }

  lemma AttributeStart(a: Attribute)
    ensures PrintAttribute(a) != [] && StartsAttribute(PrintAttribute(a)[0].kind)
  {
  }

  lemma {:induction false} AttributesRoundTrip(attrs: seq<Attribute>, rest: seq<Token>)
    requires forall i :: 0 <= i < |attrs| ==> WfAttribute(attrs[i])
    requires !Peek(rest, StartsAttribute)
    requires rest == [] || !rest[0].kind.Colon?
    ensures ParseAttributes(PrintAttributes(attrs) + rest) == Ok((attrs, rest))
    decreases |attrs|
  {
    if attrs == [] {
      assert PrintAttributes(attrs) + rest == rest;
    } else {
      AttributesRoundTrip(attrs[1..], rest);
      PrintAttributesCons(attrs, rest);
      AttributeThenMore(attrs[0], PrintAttributes(attrs[1..]) + rest, attrs[1..], rest);
    }
  }

  /** The printed attributes are the first one's tokens before the rest's. */
  lemma PrintAttributesCons(attrs: seq<Attribute>, rest: seq<Token>)
    requires attrs != []
    requires rest == [] || !rest[0].kind.Colon?
    ensures PrintAttributes(attrs) + rest == PrintAttribute(attrs[0]) + (PrintAttributes(attrs[1..]) + rest)
    ensures [attrs[0]] + attrs[1..] == attrs
    ensures PrintAttributes(attrs[1..]) + rest == [] || !(PrintAttributes(attrs[1..]) + rest)[0].kind.Colon?
  {
    NoColonAfter(attrs[1..], rest);
  }

  /** What follows an attribute starts another one or is `rest`: never a `:`. */
  lemma NoColonAfter(more: seq<Attribute>, rest: seq<Token>)
    requires rest == [] || !rest[0].kind.Colon?
    ensures PrintAttributes(more) + rest == [] || !(PrintAttributes(more) + rest)[0].kind.Colon?
  {
    if more != [] {
      var p := PrintAttribute(more[0]);
      AttributeStart(more[0]);
      assert PrintAttributes(more) + rest == p + (PrintAttributes(more[1..]) + rest);
      assert (p + (PrintAttributes(more[1..]) + rest))[0] == p[0];
    }
  }

  /** A printed attribute in front of tokens that parse as attributes parses as one more. */
  lemma AttributeThenMore(a: Attribute, tail: seq<Token>, more: seq<Attribute>, rest: seq<Token>)
    requires WfAttribute(a)
    requires tail == [] || !tail[0].kind.Colon?
    requires ParseAttributes(tail) == Ok((more, rest))
    ensures ParseAttributes(PrintAttribute(a) + tail) == Ok(([a] + more, rest))
  {
    var ts := PrintAttribute(a) + tail;
    AttributeRoundTrip(a, tail);
    AttributeStart(a);
    assert ts[0] == PrintAttribute(a)[0];
    ParseAttributesStep(ts, a, tail, more, rest);
  }

  lemma ParseAttributesStep(ts: seq<Token>, a: Attribute, tail: seq<Token>, more: seq<Attribute>, rest: seq<Token>)
    requires ts != [] && StartsAttribute(ts[0].kind)
    requires ParseAttribute(ts) == Ok((a, tail))
    requires ParseAttributes(tail) == Ok((more, rest))
    ensures ParseAttributes(ts) == Ok(([a] + more, rest))
  {
    assert Peek(ts, StartsAttribute);
  }

  /** A printed node starts with the token that selects its parser, never with `else`. */
  lemma PrintNodeStart(n: Node)
    ensures PrintNode(n) != []
    ensures !PrintNode(n)[0].kind.KwElse?
    ensures n.ElementNode? ==> PrintNode(n)[0].kind.Ident?
    ensures n.IfNode? ==> PrintNode(n)[0].kind.KwIf?
    ensures n.MatchNode? ==> PrintNode(n)[0].kind.KwMatch?
    ensures n.ForNode? ==> PrintNode(n)[0].kind.KwFor?
    ensures n.BlockNode? ==> PrintNode(n)[0].kind.Brace?
    ensures n.ExprNode? ==> PrintNode(n)[0].kind.LitStr? || PrintNode(n)[0].kind.Paren?
  {
  }

  lemma {:induction false} NodesRoundTrip(m: Mode, ns: seq<Node>)
    requires WfNodes(m, ns)
    ensures ParseNodes(m, PrintNodes(ns)) == Ok(ns)
    decreases ns
  {
    if ns != [] {
      PrintNodesCons(ns);
      NodeRoundTrip(m, ns[0], PrintNodes(ns[1..]));
      NodesRoundTrip(m, ns[1..]);
      ParseNodesStep(m, PrintNodes(ns), ns[0], PrintNodes(ns[1..]), ns[1..]);
    }
  }

  /** Printed nodes are the first one's tokens before the rest's, which may follow a node. */
  lemma PrintNodesCons(ns: seq<Node>)
    requires ns != []
    ensures PrintNodes(ns) == PrintNode(ns[0]) + PrintNodes(ns[1..]) != []
    ensures [ns[0]] + ns[1..] == ns
    ensures MayFollow(PrintNodes(ns[1..]))
  {
    var rest := PrintNodes(ns[1..]);
    PrintNodeStart(ns[0]);
    if ns[1..] != [] {
      PrintNodeStart(ns[1..][0]);
      assert rest[0] == PrintNode(ns[1..][0])[0];
    }
  }

  lemma ParseNodesStep(m: Mode, ts: seq<Token>, n: Node, rest: seq<Token>, more: seq<Node>)
    requires ts != []
    requires ParseNode(m, ts) == Ok((n, rest))
    requires ParseNodes(m, rest) == Ok(more)
    ensures ParseNodes(m, ts) == Ok([n] + more)
  {
  }

  lemma {:induction false} BlockRoundTrip(m: Mode, b: Block, rest: seq<Token>)
    requires WfNodes(m, b.nodes)
    ensures ParseBlock(m, [BlockToken(b)] + rest) == Ok((b, rest))
    decreases b, 0
  {
    NodesRoundTrip(m, b.nodes);
    ConsTail(BlockToken(b), [], rest);
  }

  lemma {:induction false} NodeRoundTrip(m: Mode, n: Node, rest: seq<Token>)
    requires WfNode(m, n)
    requires MayFollow(rest)
    ensures ParseNode(m, PrintNode(n) + rest) == Ok((n, rest))
    decreases n
  {
    PrintNodeStart(n);
    var ts := PrintNode(n) + rest;
    assert ts[0] == PrintNode(n)[0];
    match n
    case ElementNode(e) =>
      ElementRoundTrip(m, e, rest);
    case BlockNode(b) =>
      BlockRoundTrip(m, b, rest);
    case ExprNode(e) =>
      ConsTail(ValueTokens(e)[0], [], rest);
    case IfNode(i) =>
      IfRoundTrip(m, i, rest);
    case MatchNode(x) =>
      MatchRoundTrip(m, x, rest);
    case ForNode(f) =>
      ForRoundTrip(m, f, rest);
  }

  lemma {:induction false} ElementRoundTrip(m: Mode, e: Element, rest: seq<Token>)
    requires WfNode(m, ElementNode(e))
    ensures ParseElement(m, PrintElement(e) + rest) == Ok((e, rest))
    decreases e
  {
    var nameTok := Token(Kind.Ident(e.name.name), e.name.span);
    var close := match e.body case None => [Token(Semi, 0)] case Some(b) => [BlockToken(b)];
    var after := close + rest;
    var ts := PrintElement(e) + rest;
    Regroup3(nameTok, PrintAttributes(e.attrList), close, rest);
    ConsTail(nameTok, PrintAttributes(e.attrList), after);
    AttributesRoundTrip(e.attrList, after);
    match e.body
    case None =>
      ConsTail(Token(Semi, 0), [], rest);
    case Some(b) =>
      BlockRoundTrip(m, b, rest);
    ParseElementSteps(m, ts, e.attrList, after);
  }

  lemma Regroup3(t: Token, a: seq<Token>, c: seq<Token>, rest: seq<Token>)
    ensures [t] + a + c + rest == [t] + (a + (c + rest))
  {
  }

  lemma ParseElementSteps(m: Mode, ts: seq<Token>, attrs: seq<Attribute>, after: seq<Token>)
    requires ts != [] && ts[0].kind.Ident?
    requires ParseAttributes(ts[1..]) == Ok((attrs, after))
    ensures after != [] && after[0].kind.Semi? ==>
      ParseElement(m, ts) == Ok((Element(Ast.Ident(ts[0].kind.name, ts[0].span), attrs, None), after[1..]))
    ensures after != [] && after[0].kind.Brace? && ParseBlock(m, after).Ok? ==>
      ParseElement(m, ts) == Ok((Element(Ast.Ident(ts[0].kind.name, ts[0].span), attrs,
        Some(ParseBlock(m, after).value.0)), ParseBlock(m, after).value.1))
  {
    assert Peek(ts, (k: Kind) => k.Ident?);
  }

  function ElseTokens(e: Option<Node>): seq<Token> {
    match e
    case None => []
    case Some(IfNode(j)) => [Token(KwElse, 0)] + PrintIf(j)
    case Some(other) => [Token(KwElse, 0)] + PrintNode(other)
  }

  lemma {:induction false} IfRoundTrip(m: Mode, i: If, rest: seq<Token>)
    requires WfIf(m, i)
    requires MayFollow(rest)
    ensures ParseIf(m, PrintIf(i) + rest) == Ok((i, rest))
    decreases i, 1
  {
    var afterThen := ElseTokens(i.elseBranch) + rest;
    var afterCond := [BlockToken(i.thenBranch)] + afterThen;
    var ts := PrintIf(i) + rest;
    IfLayout(i, rest);
    BareRoundTrip(BeforeBrace, i.cond, afterCond);
    BlockRoundTrip(m, i.thenBranch, afterThen);
    ElseRoundTrip(m, i, rest);
    ParseIfSteps(m, ts, i.cond, afterCond, i.thenBranch, afterThen);
  }

  /** Where the parts of a printed `if` sit in the token stream. */
  lemma IfLayout(i: If, rest: seq<Token>)
    ensures PrintIf(i) + rest != [] && (PrintIf(i) + rest)[0] == Token(KwIf, 0)
    ensures (PrintIf(i) + rest)[1..]
      == BareTokens(i.cond) + ([BlockToken(i.thenBranch)] + (ElseTokens(i.elseBranch) + rest))
  {
    var afterCond := [BlockToken(i.thenBranch)] + (ElseTokens(i.elseBranch) + rest);
    PrintIfParts(i);
    Regroup(Token(KwIf, 0), BareTokens(i.cond), BlockToken(i.thenBranch), ElseTokens(i.elseBranch), rest);
    ConsTail(Token(KwIf, 0), BareTokens(i.cond), afterCond);
  }

  lemma Regroup(t: Token, a: seq<Token>, b: Token, c: seq<Token>, rest: seq<Token>)
    ensures [t] + a + [b] + c + rest == [t] + (a + ([b] + (c + rest)))
  {
  }

  lemma {:induction false} ElseRoundTrip(m: Mode, i: If, rest: seq<Token>)
    requires WfIf(m, i)
    requires MayFollow(rest)
    ensures ParseElse(m, ElseTokens(i.elseBranch) + rest) == Ok((i.elseBranch, rest))
    decreases i, 0
  {
    match i.elseBranch {
      case None =>
        assert ElseTokens(i.elseBranch) + rest == rest;
      case Some(IfNode(j)) =>
        assert ElseTokens(i.elseBranch) + rest == [Token(KwElse, 0)] + (PrintIf(j) + rest);
        ElseIfRoundTrip(j, rest);
      case Some(BlockNode(b)) =>
        assert ElseTokens(i.elseBranch) + rest == [Token(KwElse, 0)] + ([BlockToken(b)] + rest);
        ElseBlockRoundTrip(m, b, rest);
    }
  }

  lemma {:induction false} ElseIfRoundTrip(j: If, rest: seq<Token>)
    requires WfIf(Intended, j)
    requires MayFollow(rest)
    ensures ParseElse(Intended, [Token(KwElse, 0)] + (PrintIf(j) + rest)) == Ok((Some(IfNode(j)), rest))
    decreases j, 2
  {
    var ts := [Token(KwElse, 0)] + (PrintIf(j) + rest);
    IfRoundTrip(Intended, j, rest);
    assert ts[1..] == PrintIf(j) + rest;
    assert (PrintIf(j) + rest)[0] == PrintIf(j)[0];
  }

  lemma {:induction false} ElseBlockRoundTrip(m: Mode, b: Block, rest: seq<Token>)
    requires WfNodes(m, b.nodes)
    ensures ParseElse(m, [Token(KwElse, 0)] + ([BlockToken(b)] + rest)) == Ok((Some(BlockNode(b)), rest))
    decreases b, 1
  {
    var ts := [Token(KwElse, 0)] + ([BlockToken(b)] + rest);
    BlockRoundTrip(m, b, rest);
    assert ts[1..] == [BlockToken(b)] + rest;
  }

  lemma {:induction false} MatchRoundTrip(m: Mode, x: Match, rest: seq<Token>)
    requires WfNode(m, MatchNode(x))
    ensures ParseNode(m, PrintNode(MatchNode(x)) + rest) == Ok((MatchNode(x), rest))
    decreases x
  {
    var armsTok := Token(Brace(PrintArms(x.arms)), 0);
    var ts := PrintNode(MatchNode(x)) + rest;
    Regroup3(Token(KwMatch, 0), BareTokens(x.scrutinee), [armsTok], rest);
    ConsTail(Token(KwMatch, 0), BareTokens(x.scrutinee), [armsTok] + rest);
    BareRoundTrip(BeforeBrace, x.scrutinee, [armsTok] + rest);
    ArmsRoundTrip(m, x.arms);
    ParseMatchSteps(m, ts, x.scrutinee, [armsTok] + rest);
  }

  lemma ParseMatchSteps(m: Mode, ts: seq<Token>, scrutinee: Expr, afterScrutinee: seq<Token>)
    requires ts != [] && ts[0].kind.KwMatch?
    requires ParseExprUntil(BeforeBrace, ts[1..]) == Ok((scrutinee, afterScrutinee))
    requires afterScrutinee != [] && afterScrutinee[0].kind.Brace?
    requires ParseArms(m, afterScrutinee[0].kind.inner).Ok?
    ensures ParseMatch(m, ts)
      == Ok((Match(scrutinee, ParseArms(m, afterScrutinee[0].kind.inner).value), afterScrutinee[1..]))
  {
    assert Peek(ts, (k: Kind) => k.KwMatch?);
    assert Peek(afterScrutinee, (k: Kind) => k.Brace?);
  }

  lemma {:induction false} ArmsRoundTrip(m: Mode, arms: seq<Arm>)
    requires WfArms(m, arms)
    ensures ParseArms(m, PrintArms(arms)) == Ok(arms)
    decreases arms
  {
    if arms != [] {
      ArmRoundTrip(m, arms[0], PrintArms(arms[1..]));
      ArmsRoundTrip(m, arms[1..]);
      ParseArmsCons(m, arms);
    }
  }

  /** One arm's round trip and the rest's give the round trip of all the arms. */
  lemma ParseArmsCons(m: Mode, arms: seq<Arm>)
    requires arms != []
    requires ParseArm(m, PrintArm(arms[0]) + PrintArms(arms[1..])) == Ok((arms[0], PrintArms(arms[1..])))
    requires ParseArms(m, PrintArms(arms[1..])) == Ok(arms[1..])
    ensures ParseArms(m, PrintArms(arms)) == Ok(arms)
  {
    assert PrintArms(arms) == PrintArm(arms[0]) + PrintArms(arms[1..]);
    ParseArmsStep(m, PrintArms(arms), arms[0], PrintArms(arms[1..]), arms[1..]);
    assert [arms[0]] + arms[1..] == arms;
  }

  lemma ParseArmsStep(m: Mode, ts: seq<Token>, a: Arm, rest: seq<Token>, more: seq<Arm>)
    requires ParseArm(m, ts) == Ok((a, rest))
    requires ParseArms(m, rest) == Ok(more)
    ensures ParseArms(m, ts) == Ok([a] + more)
  {
  }

  function GuardTokens(guard: Option<Expr>): seq<Token> {
    match guard
    case None => []
    case Some(g) => [Token(KwIf, 0)] + BareTokens(g)
  }

  lemma GuardRoundTrip(guard: Option<Expr>, rest: seq<Token>)
    requires guard.Some? ==> WfBare(BeforeFatArrow, guard.value)
    requires rest != [] && rest[0].kind.FatArrow?
    ensures ParseGuard(GuardTokens(guard) + rest) == Ok((guard, rest))
  {
    match guard {
      case None =>
        assert GuardTokens(guard) + rest == rest;
      case Some(g) =>
        ConsTail(Token(KwIf, 0), BareTokens(g), rest);
        BareRoundTrip(BeforeFatArrow, g, rest);
    }
  }

  lemma PrintArmParts(a: Arm, rest: seq<Token>)
    ensures PrintArm(a) + rest
      == a.pat.tokens + (GuardTokens(a.guard) + ([Token(FatArrow, 0)] + (PrintNode(a.body) + ([Token(Comma, 0)] + rest))))
  {
  }

  lemma {:induction false} ArmRoundTrip(m: Mode, a: Arm, rest: seq<Token>)
    requires WfArm(m, a)
    ensures ParseArm(m, PrintArm(a) + rest) == Ok((a, rest))
    decreases a
  {
    var afterBody := [Token(Comma, 0)] + rest;
    var fromArrow := [Token(FatArrow, 0)] + (PrintNode(a.body) + afterBody);
    var fromGuard := GuardTokens(a.guard) + fromArrow;
    PrintArmParts(a, rest);
    PrintNodeStart(a.body);
    if a.guard.Some? {
      assert fromGuard[0].kind.KwIf?;
    }
    PatRoundTrip(a.pat, fromGuard);
    GuardRoundTrip(a.guard, fromArrow);
    ConsTail(Token(FatArrow, 0), PrintNode(a.body), afterBody);
    NodeRoundTrip(m, a.body, afterBody);
    assert ParseArmComma(a.body, afterBody) == Ok(rest);
  }

  lemma {:induction false} ForRoundTrip(m: Mode, f: ForLoop, rest: seq<Token>)
    requires WfNode(m, ForNode(f))
    ensures ParseNode(m, PrintNode(ForNode(f)) + rest) == Ok((ForNode(f), rest))
    decreases f
  {
    var afterIter := [BlockToken(f.body)] + rest;
    var fromIn := [Token(KwIn, 0)] + (BareTokens(f.iter) + afterIter);
    var ts := PrintNode(ForNode(f)) + rest;
    assert ts == [Token(KwFor, 0)] + (f.pat.tokens + fromIn);
    ConsTail(Token(KwFor, 0), f.pat.tokens, fromIn);
    PatRoundTrip(f.pat, fromIn);
    ConsTail(Token(KwIn, 0), BareTokens(f.iter), afterIter);
    BareRoundTrip(BeforeBrace, f.iter, afterIter);
    BlockRoundTrip(m, f.body, rest);
    assert ParseFor(m, ts) == Ok((f, rest));
  }

  // ---- `else if` ----

  /** After `else`, an `if` makes the source's parser ask for a second `else`. */
  lemma ElseIfBranchAsWritten(j: If, rest: seq<Token>)
    ensures ParseElse(AsWritten, [Token(KwElse, 0)] + (PrintIf(j) + rest))
      == Err(SyntaxError(Some(0), "expected `else`"))
  {
    var ts := [Token(KwElse, 0)] + (PrintIf(j) + rest);
    assert ts[0] == Token(KwElse, 0);
    assert ts[1..] == PrintIf(j) + rest;
    assert (PrintIf(j) + rest)[0] == Token(KwIf, 0);
  }

  /** `ParseIf` once its condition and then-block are known. */
  lemma ParseIfSteps(m: Mode, ts: seq<Token>, cond: Expr, afterCond: seq<Token>, thenBranch: Block, afterThen: seq<Token>)
    requires ts != [] && ts[0].kind.KwIf?
    requires ParseExprUntil(BeforeBrace, ts[1..]) == Ok((cond, afterCond))
    requires ParseBlock(m, afterCond) == Ok((thenBranch, afterThen))
    ensures ParseElse(m, afterThen).Err? ==> ParseIf(m, ts) == Err(ParseElse(m, afterThen).error)
    ensures ParseElse(m, afterThen).Ok? ==>
      ParseIf(m, ts) == Ok((If(cond, thenBranch, ParseElse(m, afterThen).value.0), ParseElse(m, afterThen).value.1))
  {
  }

  /**
   * As written, an `if` whose else-branch is another `if` is always rejected,
   * however well formed the chain; `IfRoundTrip` in `Intended` mode reads the
   * same tokens back as the chain.
   */
  lemma ElseIfRejectedAsWritten(i: If, rest: seq<Token>)
    requires i.elseBranch.Some? && i.elseBranch.value.IfNode?
    requires WfBare(BeforeBrace, i.cond) && WfNodes(AsWritten, i.thenBranch.nodes)
    ensures ParseIf(AsWritten, PrintIf(i) + rest) == Err(SyntaxError(Some(0), "expected `else`"))
  {
    var j := i.elseBranch.value.ifNode;
    var afterThen := [Token(KwElse, 0)] + (PrintIf(j) + rest);
    var afterCond := [BlockToken(i.thenBranch)] + afterThen;
    var ts := PrintIf(i) + rest;
    assert ElseTokens(i.elseBranch) == [Token(KwElse, 0)] + PrintIf(j);
    IfLayout(i, rest);
    assert ElseTokens(i.elseBranch) + rest == afterThen;
    BareRoundTrip(BeforeBrace, i.cond, afterCond);
    BlockRoundTrip(AsWritten, i.thenBranch, afterThen);
    ElseIfBranchAsWritten(j, rest);
    ParseIfSteps(AsWritten, ts, i.cond, afterCond, i.thenBranch, afterThen);
  }

  /** A tree that reads back as written also reads back the intended way. */
  lemma {:induction false} WfNodeModes(n: Node)
    requires WfNode(AsWritten, n)
    ensures WfNode(Intended, n)
    decreases n
  {
    match n
    case ElementNode(e) =>
      if e.body.Some? {
        WfNodesModes(e.body.value.nodes);
      }
    case BlockNode(b) => WfNodesModes(b.nodes);
    case ExprNode(_) =>
    case IfNode(i) => WfIfModes(i);
    case MatchNode(x) => WfArmsModes(x.arms);
    case ForNode(f) => WfNodesModes(f.body.nodes);
  }

  lemma {:induction false} WfNodesModes(ns: seq<Node>)
    requires WfNodes(AsWritten, ns)
    ensures WfNodes(Intended, ns)
    decreases ns
  {
    if ns != [] {
      WfNodeModes(ns[0]);
      WfNodesModes(ns[1..]);
    }
  }

  lemma {:induction false} WfIfModes(i: If)
    requires WfIf(AsWritten, i)
    ensures WfIf(Intended, i)
    decreases i
  {
    WfNodesModes(i.thenBranch.nodes);
    if i.elseBranch.Some? {
      WfNodesModes(i.elseBranch.value.block.nodes);
    }
  }

  lemma {:induction false} WfArmsModes(arms: seq<Arm>)
    requires WfArms(AsWritten, arms)
    ensures WfArms(Intended, arms)
    decreases arms
  {
    if arms != [] {
      assert WfArm(AsWritten, arms[0]);
      WfArmModes(arms[0]);
      WfArmsModes(arms[1..]);
    }
  }

  lemma {:induction false} WfArmModes(a: Arm)
    requires WfArm(AsWritten, a)
    ensures WfArm(Intended, a)
    decreases a
  {
    WfNodeModes(a.body);
  }

  /** Without `else if` the source and the corrected parser agree. */
  lemma ModesAgree(ns: seq<Node>)
    requires WfNodes(AsWritten, ns)
    ensures ParseNodes(AsWritten, PrintNodes(ns)) == Ok(ns)
    ensures ParseNodes(Intended, PrintNodes(ns)) == Ok(ns)
  {
    NodesRoundTrip(AsWritten, ns);
    WfNodesModes(ns);
    NodesRoundTrip(Intended, ns);
  }
}
