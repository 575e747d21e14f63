/**
 * The recursive-descent parser of templates: each parser takes the tokens
 * still to be read and gives back what it parsed with the tokens after it.
 *
 * The `Mode` says how `else if` is read. `AsWritten` is the source: having
 * consumed `else` and seen `if`, it asks for a second `else` and so always
 * fails. `Intended` parses the `if` that follows, as the documentation of the
 * macro shows. Everything else is the same in both modes.
 */
module Parse {
  import opened Wrappers
  import opened Tokens
  import opened Ast

  datatype Mode = AsWritten | Intended

  /** A parse failure: where (`None` at the end of the input) and what was expected. */
  datatype SyntaxError = SyntaxError(span: Option<Span>, message: string)

  type Parsed<T> = Result<(T, seq<Token>), SyntaxError>

  function SpanAt(ts: seq<Token>): Option<Span> {
    if ts == [] then None else Some(ts[0].span)
  }

  function Fail<T>(ts: seq<Token>, message: string): Parsed<T> {
    Err(SyntaxError(SpanAt(ts), message))
  }

  predicate Peek(ts: seq<Token>, p: Kind -> bool) {
    ts != [] && p(ts[0].kind)
  }

  /** The next token is a braced group. */
  predicate BracesNext(ts: seq<Token>) {
    ts != [] && ts[0].kind.Brace?
  }

  lemma SizeOfTail(ts: seq<Token>)
    requires ts != []
    ensures Size(ts[1..]) < Size(ts)
    ensures ts[0].kind.Paren? || ts[0].kind.Brace? ==> Size(ts[0].kind.inner) < Size(ts)
  {
  }

  /** A host expression made of the tokens `c`: a lone string literal is a literal expression. */
  function HostExpr(c: seq<Token>): (e: Expr)
    requires c != []
    ensures e.Lit? <==> |c| == 1 && c[0].kind.LitStr?
    ensures e.Lit? ==> e == Lit(c[0].kind.value, c[0].span)
    ensures e.Host? ==> e.tokens == c
  {
    if |c| == 1 && c[0].kind.LitStr? then Lit(c[0].kind.value, c[0].span) else Host(c)
  }

  /** The contents of a parenthesised group read as one expression. */
  function ParenExpr(c: seq<Token>, at: Span): Result<Expr, SyntaxError>
  {
    if c == [] then Err(SyntaxError(Some(at), "expected an expression")) else Ok(HostExpr(c))
  }

  /** An opaque expression that ends where `stop` says; it may not be empty. */
  function ParseExprUntil(stop: Stop, ts: seq<Token>): (r: Parsed<Expr>)
    ensures r.Ok? ==> Size(r.value.1) < Size(ts)
    ensures r.Ok? <==> TakeUntil(stop, ts).0 != []
  {
    var split := TakeUntil(stop, ts);
    if split.0 == [] then Fail(ts, "expected an expression")
    else Ok((HostExpr(split.0), split.1))
  }

  /** `Pat::parse_multi_with_leading_vert`: an opaque pattern ending before `if`, `=>` or `in`. */
  function ParsePat(ts: seq<Token>): (r: Parsed<Pat>)
    ensures r.Ok? ==> Size(r.value.1) < Size(ts)
    ensures r.Ok? ==> r.value.0.tokens + r.value.1 == ts && r.value.0.tokens != []
  {
    var split := TakeUntil(BeforePatEnd, ts);
    if split.0 == [] then Fail(ts, "expected a pattern")
    else Ok((Pat(split.0), split.1))
  }

  /** `parse_attribute_value`: a string literal, or a parenthesised expression. */
  function ParseAttributeValue(ts: seq<Token>): (r: Parsed<Expr>)
    ensures r.Ok? ==> Size(r.value.1) < Size(ts)
    ensures r.Ok? ==> ts[0].kind.LitStr? || ts[0].kind.Paren?
  {
    if ts == [] then Fail(ts, "expected parentheses")
    else
      SizeOfTail(ts);
      match ts[0].kind
      case LitStr(s) => Ok((Lit(s, ts[0].span), ts[1..]))
      case Paren(c) =>
        (match ParenExpr(c, ts[0].span)
         case Ok(e) => Ok((e, ts[1..]))
         case Err(err) => Err(err))
      case _ => Fail(ts, "expected parentheses")
  }

  /** `Attribute::parse`: `@value`, `.value`, `key` or `key: value`. */
  function ParseAttribute(ts: seq<Token>): (r: Parsed<Attribute>)
    ensures r.Ok? ==> Size(r.value.1) < Size(ts)
    ensures r.Ok? <==> ts != [] && match ts[0].kind
      case At => ParseAttributeValue(ts[1..]).Ok?
      case Dot => ParseAttributeValue(ts[1..]).Ok?
      case Ident(_) => !Peek(ts[1..], (k: Kind) => k.Colon?) || ParseAttributeValue(ts[2..]).Ok?
      case _ => false
  {
    if ts == [] then Fail(ts, "todo")
    else
      SizeOfTail(ts);
      match ts[0].kind
      case At =>
        (match ParseAttributeValue(ts[1..])
         case Ok((e, rest)) => Ok((Id(e), rest))
         case Err(err) => Err(err))
      case Dot =>
        (match ParseAttributeValue(ts[1..])
         case Ok((e, rest)) => Ok((Class(e), rest))
         case Err(err) => Err(err))
      case Ident(name) =>
        var key := Ast.Ident(name, ts[0].span);
        var after := ts[1..];
        if Peek(after, (k: Kind) => k.Colon?) then
          SizeOfTail(after);
          (match ParseAttributeValue(after[1..])
           case Ok((e, rest)) => Ok((KeyValue(key, Some(e)), rest))
           case Err(err) => Err(err))
        else Ok((KeyValue(key, None), after))
      case _ => Fail(ts, "todo")
  }

  predicate StartsAttribute(k: Kind) {
    k.Ident? || k.At? || k.Dot?
  }

  /** The attribute loop of `Element::parse`: attributes for as long as one can start. */
  function ParseAttributes(ts: seq<Token>): (r: Parsed<seq<Attribute>>)
    ensures r.Ok? ==> Size(r.value.1) <= Size(ts)
    ensures r.Ok? ==> !Peek(r.value.1, StartsAttribute)
    decreases Size(ts)
  {
    if !Peek(ts, StartsAttribute) then Ok(([], ts))
    else
      match ParseAttribute(ts)
      case Err(err) => Err(err)
      case Ok((a, rest)) =>
        match ParseAttributes(rest)
        case Err(err) => Err(err)
        case Ok((more, rest')) => Ok(([a] + more, rest'))
  }

  /** The nodes of a whole stream: a template, or the contents of a block. */
  function ParseNodes(m: Mode, ts: seq<Token>): (r: Result<seq<Node>, SyntaxError>)
    decreases Size(ts), 3
  {
    if ts == [] then Ok([])
    else
      match ParseNode(m, ts)
      case Err(err) => Err(err)
      case Ok((n, rest)) =>
        match ParseNodes(m, rest)
        case Err(err) => Err(err)
        case Ok(more) => Ok([n] + more)
  }

  /** `Node::parse`: the first token chooses the kind of node. */
  function ParseNode(m: Mode, ts: seq<Token>): (r: Parsed<Node>)
    ensures r.Ok? ==> Size(r.value.1) < Size(ts)
    decreases Size(ts), 2
  {
    if ts == [] then Fail(ts, "expected an identifier")  // what `Element::parse` says at the end
    else
      SizeOfTail(ts);
      match ts[0].kind
      case KwIf =>
        (match ParseIf(m, ts)
         case Ok((i, rest)) => Ok((IfNode(i), rest))
         case Err(err) => Err(err))
      case KwMatch =>
        (match ParseMatch(m, ts)
         case Ok((x, rest)) => Ok((MatchNode(x), rest))
         case Err(err) => Err(err))
      case KwFor =>
        (match ParseFor(m, ts)
         case Ok((f, rest)) => Ok((ForNode(f), rest))
         case Err(err) => Err(err))
      case Paren(c) =>
        (match ParenExpr(c, ts[0].span)
         case Ok(e) => Ok((ExprNode(e), ts[1..]))
         case Err(err) => Err(err))
      case Brace(_) =>
        (match ParseBlock(m, ts)
         case Ok((b, rest)) => Ok((BlockNode(b), rest))
         case Err(err) => Err(err))
      case LitStr(s) => Ok((ExprNode(Lit(s, ts[0].span)), ts[1..]))
      case _ =>
        (match ParseElement(m, ts)
         case Ok((e, rest)) => Ok((ElementNode(e), rest))
         case Err(err) => Err(err))
  }

  /** `Element::parse`: a name, attributes, then `;` or a braced body. */
  function ParseElement(m: Mode, ts: seq<Token>): (r: Parsed<Element>)
    ensures r.Ok? ==> Size(r.value.1) < Size(ts)
    decreases Size(ts), 0
  {
    if !Peek(ts, (k: Kind) => k.Ident?) then Fail(ts, "expected an identifier")
    else
      SizeOfTail(ts);
      var name := Ast.Ident(ts[0].kind.name, ts[0].span);
      match ParseAttributes(ts[1..])
      case Err(err) => Err(err)
      case Ok((attrs, rest)) =>
        if Peek(rest, (k: Kind) => k.Semi?) then
          SizeOfTail(rest);
          Ok((Element(name, attrs, None), rest[1..]))
        else if Peek(rest, (k: Kind) => k.Brace?) then
          match ParseBlock(m, rest)
          case Err(err) => Err(err)
          case Ok((body, rest')) => Ok((Element(name, attrs, Some(body)), rest'))
        else Fail(rest, "expected curly braces or SEMICOLON")
  }

  /** `Block::parse`: a braced group whose contents are all nodes. */
  function ParseBlock(m: Mode, ts: seq<Token>): (r: Parsed<Block>)
    ensures r.Ok? ==> Size(r.value.1) < Size(ts)
    decreases Size(ts), 0
  {
    if !Peek(ts, (k: Kind) => k.Brace?) then Fail(ts, "expected curly braces")
    else
      SizeOfTail(ts);
      match ParseNodes(m, ts[0].kind.inner)
      case Err(err) => Err(err)
      case Ok(nodes) => Ok((Block(nodes), ts[1..]))
  }

  /** `If::parse`: `if cond { .. }`, then what `ParseElse` reads. */
  function ParseIf(m: Mode, ts: seq<Token>): (r: Parsed<If>)
    ensures r.Ok? ==> Size(r.value.1) < Size(ts)
    decreases Size(ts), 1
  {
    if !Peek(ts, (k: Kind) => k.KwIf?) then Fail(ts, "expected `if`")
    else
      SizeOfTail(ts);
      match ParseExprUntil(BeforeBrace, ts[1..])
      case Err(err) => Err(err)
      case Ok((cond, rest)) =>
        match ParseBlock(m, rest)
        case Err(err) => Err(err)
        case Ok((thenBranch, rest')) =>
          match ParseElse(m, rest')
          case Err(err) => Err(err)
          case Ok((elseBranch, rest'')) => Ok((If(cond, thenBranch, elseBranch), rest''))
  }

  /**
   * The optional else-branch of an `if`: nothing unless `else` comes next;
   * after `else`, a block, or another `if` (see `Mode`).
   */
  function ParseElse(m: Mode, ts: seq<Token>): (r: Parsed<Option<Node>>)
    ensures r.Ok? ==> Size(r.value.1) <= Size(ts)
    ensures r.Ok? && r.value.0.Some? ==> Size(r.value.1) < Size(ts)
    decreases Size(ts), 0
  {
    if !Peek(ts, (k: Kind) => k.KwElse?) then Ok((None, ts))
    else
      SizeOfTail(ts);
      var afterElse := ts[1..];
      if Peek(afterElse, (k: Kind) => k.KwIf?) then
        match m
        case AsWritten => Fail(afterElse, "expected `else`")
        case Intended =>
          match ParseIf(m, afterElse)
          case Err(err) => Err(err)
          case Ok((elseIf, rest)) => Ok((Some(IfNode(elseIf)), rest))
      else
        match ParseBlock(m, afterElse)
        case Err(err) => Err(err)
        case Ok((elseBlock, rest)) => Ok((Some(BlockNode(elseBlock)), rest))
  }

  /** `Match::parse`: `match expr { arms }`. */
  function ParseMatch(m: Mode, ts: seq<Token>): (r: Parsed<Match>)
    ensures r.Ok? ==> Size(r.value.1) < Size(ts)
    decreases Size(ts), 0
  {
    if !Peek(ts, (k: Kind) => k.KwMatch?) then Fail(ts, "expected `match`")
    else
      SizeOfTail(ts);
      match ParseExprUntil(BeforeBrace, ts[1..])
      case Err(err) => Err(err)
      case Ok((scrutinee, rest)) =>
        if !Peek(rest, (k: Kind) => k.Brace?) then Fail(rest, "expected curly braces")
        else
          SizeOfTail(rest);
          match ParseArms(m, rest[0].kind.inner)
          case Err(err) => Err(err)
          case Ok(arms) => Ok((Match(scrutinee, arms), rest[1..]))
  }

  /** The arms of a match: arms until the braced contents are used up. */
  function ParseArms(m: Mode, ts: seq<Token>): (r: Result<seq<Arm>, SyntaxError>)
    decreases Size(ts), 1
  {
    if ts == [] then Ok([])
    else
      match ParseArm(m, ts)
      case Err(err) => Err(err)
      case Ok((arm, rest)) =>
        match ParseArms(m, rest)
        case Err(err) => Err(err)
        case Ok(more) => Ok([arm] + more)
  }

  /** The optional `if guard` of an arm. */
  function ParseGuard(ts: seq<Token>): (r: Parsed<Option<Expr>>)
    ensures r.Ok? ==> Size(r.value.1) <= Size(ts)
  {
    if !Peek(ts, (k: Kind) => k.KwIf?) then Ok((None, ts))
    else
      SizeOfTail(ts);
      match ParseExprUntil(BeforeFatArrow, ts[1..])
      case Err(err) => Err(err)
      case Ok((g, rest)) => Ok((Some(g), rest))
  }

  /**
   * The comma after an arm's node: taken when present; when absent, an error
   * unless the node ends in braces or nothing follows.
   */
  function ParseArmComma(body: Node, ts: seq<Token>): (r: Result<seq<Token>, SyntaxError>)
    ensures r.Ok? ==> Size(r.value) <= Size(ts)
    ensures r.Err? <==> ts != [] && !ts[0].kind.Comma? && !EndsWithEagerBrace(body)
    ensures r.Ok? && ts != [] && ts[0].kind.Comma? ==> r.value == ts[1..]
    ensures r.Ok? && (ts == [] || !ts[0].kind.Comma?) ==> r.value == ts
  {
    if Peek(ts, (k: Kind) => k.Comma?) then
      SizeOfTail(ts);
      Ok(ts[1..])
    else if EndsWithEagerBrace(body) || ts == [] then Ok(ts)
    else Err(SyntaxError(SpanAt(ts), "expected `,`"))
  }

  /** `Arm::parse`: `pat [if guard] => node`, then the comma. */
  function ParseArm(m: Mode, ts: seq<Token>): (r: Parsed<Arm>)
    ensures r.Ok? ==> Size(r.value.1) < Size(ts)
    decreases Size(ts), 0
  {
    match ParsePat(ts)
    case Err(err) => Err(err)
    case Ok((pat, rest)) =>
      match ParseGuard(rest)
      case Err(err) => Err(err)
      case Ok((guard, rest')) =>
        if !Peek(rest', (k: Kind) => k.FatArrow?) then Fail(rest', "expected `=>`")
        else
          SizeOfTail(rest');
          match ParseNode(m, rest'[1..])
          case Err(err) => Err(err)
          case Ok((body, rest'')) =>
            match ParseArmComma(body, rest'')
            case Err(err) => Err(err)
            case Ok(after) => Ok((Arm(pat, guard, body), after))
  }

  /** `ForLoop::parse`: `for pat in expr { .. }`. */
  function ParseFor(m: Mode, ts: seq<Token>): (r: Parsed<ForLoop>)
    ensures r.Ok? ==> Size(r.value.1) < Size(ts)
    decreases Size(ts), 0
  {
    if !Peek(ts, (k: Kind) => k.KwFor?) then Fail(ts, "expected `for`")
    else
      SizeOfTail(ts);
      match ParsePat(ts[1..])
      case Err(err) => Err(err)
      case Ok((pat, rest)) =>
        if !Peek(rest, (k: Kind) => k.KwIn?) then Fail(rest, "expected `in`")
        else
          SizeOfTail(rest);
          match ParseExprUntil(BeforeBrace, rest[1..])
          case Err(err) => Err(err)
          case Ok((iter, rest')) =>
            match ParseBlock(m, rest')
            case Err(err) => Err(err)
            case Ok((body, rest'')) => Ok((ForLoop(pat, iter, body), rest''))
  }

  // ---- what each parser demands, and how it rejects the rest ----

  /**
   * An element starts with a name; after its attributes comes `;` (no body)
   * or a braced body, and anything else is rejected with
   * `expected curly braces or SEMICOLON`.
   */
  lemma ElementSyntax(m: Mode, ts: seq<Token>)
    ensures (ts == [] || !ts[0].kind.Ident?) ==> ParseElement(m, ts) == Fail(ts, "expected an identifier")
    ensures ParseElement(m, ts).Ok? ==>
      ts[0].kind.Ident? && ParseElement(m, ts).value.0.name.name == ts[0].kind.name
    ensures ts != [] && ts[0].kind.Ident? && ParseAttributes(ts[1..]).Ok? ==>
      var rest := ParseAttributes(ts[1..]).value.1;
      ((rest == [] || !(rest[0].kind.Semi? || rest[0].kind.Brace?)) ==>
         ParseElement(m, ts) == Fail(rest, "expected curly braces or SEMICOLON"))
      && (ParseElement(m, ts).Ok? ==> (ParseElement(m, ts).value.0.body.None? <==> rest[0].kind.Semi?))
  {
  }

  /** A block is exactly one braced group; anything else is rejected with `expected curly braces`. */
  lemma BlockSyntax(m: Mode, ts: seq<Token>)
    ensures !BracesNext(ts) ==> ParseBlock(m, ts) == Fail(ts, "expected curly braces")
    ensures ParseBlock(m, ts).Ok? ==> BracesNext(ts) && ParseBlock(m, ts).value.1 == ts[1..]
  {
  }

  /** An `if` needs the keyword, then a non-empty condition, then a braced block. */
  lemma IfSyntax(m: Mode, ts: seq<Token>)
    ensures (ts == [] || !ts[0].kind.KwIf?) ==> ParseIf(m, ts) == Fail(ts, "expected `if`")
    ensures ParseIf(m, ts).Ok? ==>
      ts[0].kind.KwIf? && ParseExprUntil(BeforeBrace, ts[1..]).Ok?
      && BracesNext(ParseExprUntil(BeforeBrace, ts[1..]).value.1)
  {
    if ParseIf(m, ts).Ok? {
      BlockSyntax(m, ParseExprUntil(BeforeBrace, ts[1..]).value.1);
    }
  }

  /**
   * A `match` needs the keyword and a scrutinee followed by one braced group
   * of arms, which it consumes; without the group it is rejected with
   * `expected curly braces`.
   */
  lemma MatchSyntax(m: Mode, ts: seq<Token>)
    ensures (ts == [] || !ts[0].kind.KwMatch?) ==> ParseMatch(m, ts) == Fail(ts, "expected `match`")
    ensures ts != [] && ts[0].kind.KwMatch? && ParseExprUntil(BeforeBrace, ts[1..]).Ok? ==>
      var rest := ParseExprUntil(BeforeBrace, ts[1..]).value.1;
      (!BracesNext(rest) ==> ParseMatch(m, ts) == Fail(rest, "expected curly braces"))
      && (ParseMatch(m, ts).Ok? ==> ParseMatch(m, ts).value.1 == rest[1..])
  {
  }

  /**
   * A `for` needs the keyword, a pattern, then `in` (without it the loop is
   * rejected with the message naming `in`), then a non-empty expression and a
   * braced body.
   */
  lemma ForSyntax(m: Mode, ts: seq<Token>)
    ensures (ts == [] || !ts[0].kind.KwFor?) ==> ParseFor(m, ts) == Fail(ts, "expected `for`")
    ensures ParseFor(m, ts).Ok? ==> ts[0].kind.KwFor? && ParsePat(ts[1..]).Ok?
    ensures ts != [] && ts[0].kind.KwFor? && ParsePat(ts[1..]).Ok? ==>
      var rest := ParsePat(ts[1..]).value.1;
      ((rest == [] || !rest[0].kind.KwIn?) ==> ParseFor(m, ts) == Fail(rest, "expected `in`"))
      && (ParseFor(m, ts).Ok? ==>
            rest[0].kind.KwIn? && ParseExprUntil(BeforeBrace, rest[1..]).Ok?
            && BracesNext(ParseExprUntil(BeforeBrace, rest[1..]).value.1))
  {
    if ParseFor(m, ts).Ok? {
      var rest := ParsePat(ts[1..]).value.1;
      BlockSyntax(m, ParseExprUntil(BeforeBrace, rest[1..]).value.1);
    }
  }

  /** `nodes` put in front of the nodes of `r`, when `r` has any. */
  function Prepend(nodes: seq<Node>, r: Result<seq<Node>, SyntaxError>): Result<seq<Node>, SyntaxError> {
    match r
    case Ok(more) => Ok(nodes + more)
    case Err(err) => Err(err)
  }

  lemma PrependTwice(a: seq<Node>, b: seq<Node>, r: Result<seq<Node>, SyntaxError>)
    ensures Prepend(a, Prepend(b, r)) == Prepend(a + b, r)
    ensures Prepend([], r) == r
  {
    if r.Ok? {
      assert a + (b + r.value) == (a + b) + r.value;
      assert [] + r.value == r.value;
    }
  }

  /** `Template::parse`: nodes until the input is used up; the first failure ends the parse. */
  method ParseTemplate(m: Mode, ts: seq<Token>) returns (r: Result<Template, SyntaxError>)
    ensures r.Ok? <==> ParseNodes(m, ts).Ok?
    ensures r.Ok? ==> r.value == Template(ParseNodes(m, ts).value)
    ensures r.Err? ==> r.error == ParseNodes(m, ts).error
  {
    var nodes: seq<Node> := [];
    var input := ts;
    PrependTwice([], [], ParseNodes(m, ts));
    while input != []
      invariant ParseNodes(m, ts) == Prepend(nodes, ParseNodes(m, input))
      decreases Size(input)
    {
      match ParseNode(m, input)
      case Err(err) =>
        return Err(err);
      case Ok((n, rest)) =>
        assert ParseNodes(m, input) == Prepend([n], ParseNodes(m, rest));
        PrependTwice(nodes, [n], ParseNodes(m, rest));
        nodes := nodes + [n];
        input := rest;
    }
    return Ok(Template(nodes));
  }
}
