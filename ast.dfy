/**
 * The syntax tree of an `html!` template, element validation, attribute key
 * normalisation and the grouping of attributes by key.
 */
module Ast {
  import opened Wrappers
  import opened Tokens
  import opened Diagnostics
  import Text

  datatype Ident = Ident(name: string, span: Span)

  /**
   * A host-language expression. A lone string literal is known by its value;
   * anything else is an opaque run of tokens, spliced into the generated code.
   */
  datatype Expr = Lit(value: string, litSpan: Span) | Host(tokens: seq<Token>)

  /** A host-language pattern: an opaque run of tokens. */
  datatype Pat = Pat(tokens: seq<Token>)

  function ExprSpan(e: Expr): Span {
    match e
    case Lit(_, sp) => sp
    case Host(ts) => if ts == [] then 0 else ts[0].span
  }

  datatype Template = Template(nodes: seq<Node>)

  datatype Node =
    | ElementNode(element: Element)
    | BlockNode(block: Block)
    | ExprNode(expr: Expr)
    | IfNode(ifNode: If)
    | MatchNode(matchNode: Match)
    | ForNode(forLoop: ForLoop)

  datatype Element = Element(name: Ident, attrList: seq<Attribute>, body: Option<Block>)

  datatype Attribute =
    | Id(idExpr: Expr)
    | Class(classExpr: Expr)
    | KeyValue(key: Ident, value: Option<Expr>)

  datatype Block = Block(nodes: seq<Node>)

  datatype If = If(cond: Expr, thenBranch: Block, elseBranch: Option<Node>)

  datatype Match = Match(scrutinee: Expr, arms: seq<Arm>)

  datatype Arm = Arm(pat: Pat, guard: Option<Expr>, body: Node)

  datatype ForLoop = ForLoop(pat: Pat, iter: Expr, body: Block)

  /** Whether a node ends in a braced group, so that a match arm holding it needs no comma. */
  function EndsWithEagerBrace(n: Node): (b: bool)
    ensures b <==> !n.ExprNode?
  {
    match n
    case BlockNode(_) => true
    case ElementNode(_) => true
    case ForNode(_) => true
    case IfNode(_) => true
    case MatchNode(_) => true
    case ExprNode(_) => false
  }

  /**
   * `Element::validate` against the tag table `tags`, which says for a known
   * tag whether it is a void (self-closing) one and is `None` for an unknown tag.
   */
  function Validate(tags: string -> Option<bool>, e: Element): (r: Result<(), Diagnostic>)
    ensures r.Ok? <==> tags(e.name.name) == Some(e.body.None?)
    ensures r.Err? ==> r.error.Located? && r.error.span == e.name.span
    ensures r.Err? && tags(e.name.name).None? ==> r.error.kind == InvalidTag(e.name.name)
    ensures r.Err? && tags(e.name.name) == Some(true) ==> r.error.kind == SelfClosing(e.name.name)
    ensures r.Err? && tags(e.name.name) == Some(false) ==> r.error.kind == NotSelfClosing(e.name.name)
  {
    match tags(e.name.name)
    case Some(true) =>
      if e.body.Some? then Err(Located(e.name.span, SelfClosing(e.name.name))) else Ok(())
    case Some(false) =>
      if e.body.None? then Err(Located(e.name.span, NotSelfClosing(e.name.name))) else Ok(())
    case None => Err(Located(e.name.span, InvalidTag(e.name.name)))
  }

  /** `trim_start_matches("r#")`: every leading `r#` removed. */
  function TrimRaw(s: string): (t: string)
    ensures !(|t| >= 2 && t[..2] == "r#")
    decreases |s|
  {
    if |s| >= 2 && s[..2] == "r#" then TrimRaw(s[2..]) else s
  }

  /** Nothing but whole leading `r#` pairs is removed: `s` is such pairs followed by the result. */
  lemma {:induction false} TrimRawRemovesPairs(s: string)
    ensures |TrimRaw(s)| <= |s| && (|s| - |TrimRaw(s)|) % 2 == 0 && s[|s| - |TrimRaw(s)|..] == TrimRaw(s)
    ensures forall i :: 0 <= i < |s| - |TrimRaw(s)| ==> s[i] == (if i % 2 == 0 then 'r' else '#')
    decreases |s|
  {
    if |s| >= 2 && s[..2] == "r#" {
      var u := s[2..];
      var t := TrimRaw(u);
      assert TrimRaw(s) == t;
      TrimRawRemovesPairs(u);
      assert s[|s| - |t|..] == u[|u| - |t|..];
      forall i | 0 <= i < |s| - |t|
        ensures s[i] == (if i % 2 == 0 then 'r' else '#')
      {
        if i >= 2 {
          assert s[i] == u[i - 2];
        } else {
          assert s[i] == s[..2][i];
        }
      }
    }
  }

  /** `replace("_", "-")`. */
  function Dashes(s: string): (t: string)
    ensures |t| == |s|
    ensures forall i :: 0 <= i < |s| ==> t[i] == (if s[i] == '_' then '-' else s[i])
  {
    if s == [] then [] else [if s[0] == '_' then '-' else s[0]] + Dashes(s[1..])
  }

  /** The attribute name an identifier stands for. */
  function NormalizeKey(name: string): string {
    Dashes(TrimRaw(name))
  }

  /** A normalised key has no `_` and no leading `r#`. */
  lemma NormalizedShape(name: string)
    ensures forall i :: 0 <= i < |NormalizeKey(name)| ==> NormalizeKey(name)[i] != '_'
    ensures !(|NormalizeKey(name)| >= 2 && NormalizeKey(name)[..2] == "r#")
  {
  }

  lemma {:induction false} DashesOfDashless(s: string)
    requires forall i :: 0 <= i < |s| ==> s[i] != '_'
    ensures Dashes(s) == s
  {
  }

  lemma {:induction false} TrimRawOfPlain(s: string)
    requires !(|s| >= 2 && s[..2] == "r#")
    ensures TrimRaw(s) == s
  {
  }

  /** Normalising twice is normalising once. */
  lemma NormalizeIdempotent(name: string)
    ensures NormalizeKey(NormalizeKey(name)) == NormalizeKey(name)
  {
    NormalizedShape(name);
    var k := NormalizeKey(name);
    TrimRawOfPlain(k);
    DashesOfDashless(k);
  }

  /** `Attribute::key`: the span to blame and the attribute name. */
  function KeyOf(a: Attribute): (r: (Span, string))
    ensures a.Id? ==> r == (ExprSpan(a.idExpr), "id")
    ensures a.Class? ==> r == (ExprSpan(a.classExpr), "class")
    ensures a.KeyValue? ==> r == (a.key.span, NormalizeKey(a.key.name))
  {
    match a
    case Id(e) => (ExprSpan(e), "id")
    case Class(e) => (ExprSpan(e), "class")
    case KeyValue(k, _) => (k.span, NormalizeKey(k.name))
  }

  /** `Attribute::value`: `@` and `.` always carry a value, a key-value one only after `:`. */
  function ValueOf(a: Attribute): (r: Option<Expr>)
    ensures a.Id? ==> r == Some(a.idExpr)
    ensures a.Class? ==> r == Some(a.classExpr)
    ensures a.KeyValue? ==> r == a.value
  {
    match a
    case Id(e) => Some(e)
    case Class(e) => Some(e)
    case KeyValue(_, v) => v
  }

  /** The attribute names of `attrs`, in order. */
  function KeyList(attrs: seq<Attribute>): (ks: seq<string>)
    ensures |ks| == |attrs|
    ensures forall i :: 0 <= i < |attrs| ==> ks[i] == KeyOf(attrs[i]).1
  {
    seq(|attrs|, i requires 0 <= i < |attrs| => KeyOf(attrs[i]).1)
  }

  /** The spans of the attributes of `attrs` named `k`, in attribute order. */
  function SpansOf(attrs: seq<Attribute>, k: string): seq<Span>
    decreases |attrs|
  {
    if attrs == [] then []
    else
      var last := KeyOf(attrs[|attrs| - 1]);
      SpansOf(attrs[..|attrs| - 1], k) + (if last.1 == k then [last.0] else [])
  }

  /** `(key, value)` for each attribute, in order. */
  function Pairs(attrs: seq<Attribute>): (ps: seq<(string, Option<Expr>)>)
    ensures |ps| == |attrs|
    ensures forall i :: 0 <= i < |attrs| ==> ps[i] == (KeyOf(attrs[i]).1, ValueOf(attrs[i]))
  {
    seq(|attrs|, i requires 0 <= i < |attrs| => (KeyOf(attrs[i]).1, ValueOf(attrs[i])))
  }

  /** One duplicate diagnostic for each key of `ks` that names more than one attribute. */
  function DuplicateDiagnostics(attrs: seq<Attribute>, ks: seq<string>): seq<Diagnostic>
    decreases |ks|
  {
    if ks == [] then []
    else
      var k := ks[|ks| - 1];
      var spans := SpansOf(attrs, k);
      DuplicateDiagnostics(attrs, ks[..|ks| - 1])
        + (if |spans| > 1 then [AttributeSpecifiedMoreThenOnce(spans, k)] else [])
  }

  /**
   * `Element::attributes`: the `(key, value)` list when no two attributes
   * share a key, otherwise one diagnostic per repeated key. The diagnostics
   * come in the order in which the keys first occur.
   */
  function AttributesSpec(attrs: seq<Attribute>): Result<seq<(string, Option<Expr>)>, Error> {
    var diags := DuplicateDiagnostics(attrs, Text.Dedup(KeyList(attrs)));
    if diags != [] then Err(Error(diags)) else Ok(Pairs(attrs))
  }

  lemma KeyListPrefix(attrs: seq<Attribute>, i: nat)
    requires i <= |attrs|
    ensures KeyList(attrs[..i]) == KeyList(attrs)[..i]
  {
  }

  /** Extending the prefix `attrs[..i]` by one attribute extends its keys and its spans. */
  lemma KeyListSnoc(attrs: seq<Attribute>, i: nat)
    requires i < |attrs|
    ensures KeyList(attrs[..i + 1]) == KeyList(attrs[..i]) + [KeyOf(attrs[i]).1]
    ensures forall k ::
      SpansOf(attrs[..i + 1], k) == SpansOf(attrs[..i], k) + (if KeyOf(attrs[i]).1 == k then [KeyOf(attrs[i]).0] else [])
  {
    assert attrs[..i + 1][..i] == attrs[..i];
  }

  /** A key names at least one attribute exactly when it is among the keys. */
  lemma {:induction false} SpansOfNonEmpty(attrs: seq<Attribute>, k: string)
    ensures |SpansOf(attrs, k)| >= 1 <==> k in KeyList(attrs)
    decreases |attrs|
  {
    if attrs != [] {
      var init := attrs[..|attrs| - 1];
      SpansOfNonEmpty(init, k);
      KeyListPrefix(attrs, |attrs| - 1);
      assert KeyList(attrs) == KeyList(init) + [KeyOf(attrs[|attrs| - 1]).1];
    }
  }

  /** `k` sits at two positions of `ks`. */
  predicate Repeated(ks: seq<string>, k: string) {
    exists i, j :: 0 <= i < j < |ks| && ks[i] == k && ks[j] == k
  }

  lemma {:induction false} SpansOfTwoOnlyIf(attrs: seq<Attribute>, k: string)
    requires |SpansOf(attrs, k)| > 1
    ensures Repeated(KeyList(attrs), k)
    decreases |attrs|
  {
    var n := |attrs| - 1;
    var init := attrs[..n];
    KeyListPrefix(attrs, n);
    var kl := KeyList(attrs);
    if |SpansOf(init, k)| > 1 {
      SpansOfTwoOnlyIf(init, k);
      var i, j :| 0 <= i < j < |init| && KeyList(init)[i] == k && KeyList(init)[j] == k;
      assert kl[i] == k && kl[j] == k;
    } else {
      SpansOfNonEmpty(init, k);
      var i :| 0 <= i < |init| && KeyList(init)[i] == k;
      assert kl[i] == k && kl[n] == k;
    }
  }

  lemma {:induction false} SpansOfTwoIf(attrs: seq<Attribute>, k: string, i: nat, j: nat)
    requires i < j < |attrs| && KeyList(attrs)[i] == k && KeyList(attrs)[j] == k
    ensures |SpansOf(attrs, k)| > 1
    decreases |attrs|
  {
    var n := |attrs| - 1;
    var init := attrs[..n];
    KeyListPrefix(attrs, n);
    if j < n {
      SpansOfTwoIf(init, k, i, j);
    } else {
      assert KeyList(init)[i] == k;
      SpansOfNonEmpty(init, k);
    }
  }

  /** A key names more than one attribute exactly when two positions carry it. */
  lemma SpansOfTwo(attrs: seq<Attribute>, k: string)
    ensures |SpansOf(attrs, k)| > 1 <==> Repeated(KeyList(attrs), k)
  {
    if |SpansOf(attrs, k)| > 1 {
      SpansOfTwoOnlyIf(attrs, k);
    }
    if Repeated(KeyList(attrs), k) {
      var i, j :| 0 <= i < j < |attrs| && KeyList(attrs)[i] == k && KeyList(attrs)[j] == k;
      SpansOfTwoIf(attrs, k, i, j);
    }
  }

  /** What each duplicate diagnostic says, and that every repeated key of `ks` has one. */
  lemma {:induction false} DuplicateDiagnosticsMembers(attrs: seq<Attribute>, ks: seq<string>)
    ensures forall d :: d in DuplicateDiagnostics(attrs, ks) ==>
      d.AttributeSpecifiedMoreThenOnce? && d.key in ks
      && d.spans == SpansOf(attrs, d.key) && |d.spans| > 1
    ensures forall k :: k in ks && |SpansOf(attrs, k)| > 1 ==>
      AttributeSpecifiedMoreThenOnce(SpansOf(attrs, k), k) in DuplicateDiagnostics(attrs, ks)
    decreases |ks|
  {
    if ks != [] {
      var init := ks[..|ks| - 1];
      DuplicateDiagnosticsMembers(attrs, init);
      assert ks == init + [ks[|ks| - 1]];
    }
  }

  /** Distinct keys give diagnostics for distinct keys. */
  lemma {:induction false} DuplicateDiagnosticsDistinct(attrs: seq<Attribute>, ks: seq<string>)
    requires Text.NoDup(ks)
    ensures forall i, j :: 0 <= i < j < |DuplicateDiagnostics(attrs, ks)| ==>
      DuplicateDiagnostics(attrs, ks)[i].AttributeSpecifiedMoreThenOnce?
      && DuplicateDiagnostics(attrs, ks)[j].AttributeSpecifiedMoreThenOnce?
      && DuplicateDiagnostics(attrs, ks)[i].key != DuplicateDiagnostics(attrs, ks)[j].key
    decreases |ks|
  {
    if ks != [] {
      var init := ks[..|ks| - 1];
      var last := ks[|ks| - 1];
      assert Text.NoDup(init);
      DuplicateDiagnosticsDistinct(attrs, init);
      DuplicateDiagnosticsMembers(attrs, init);
      var before := DuplicateDiagnostics(attrs, init);
      var all := DuplicateDiagnostics(attrs, ks);
      forall i, j | 0 <= i < j < |all|
        ensures all[i].AttributeSpecifiedMoreThenOnce? && all[j].AttributeSpecifiedMoreThenOnce?
        ensures all[i].key != all[j].key
      {
        assert all[i] in all && all[j] in all;
        if j >= |before| {
          assert all[i] == before[i] && before[i] in before;
          assert last !in init;
        } else {
          assert all[i] == before[i] && all[j] == before[j];
        }
      }
    } else {
      assert DuplicateDiagnostics(attrs, ks) == [];
    }
  }

  /** Grouping succeeds exactly when no two attributes share a name. */
  lemma AttributesOkIff(attrs: seq<Attribute>)
    ensures AttributesSpec(attrs).Ok? <==> Text.NoDup(KeyList(attrs))
  {
    var kl := KeyList(attrs);
    var order := Text.Dedup(kl);
    Text.DedupElements(kl);
    DuplicateDiagnosticsMembers(attrs, order);
    if Text.NoDup(kl) {
      if DuplicateDiagnostics(attrs, order) != [] {
        var d := DuplicateDiagnostics(attrs, order)[0];
        SpansOfTwo(attrs, d.key);
        assert false;
      }
    } else {
      var i, j :| 0 <= i < j < |kl| && kl[i] == kl[j];
      SpansOfTwoIf(attrs, kl[i], i, j);
      assert kl[i] in order;
    }
  }

  /** On success: every attribute, in order, under its normalised name. */
  lemma AttributesOk(attrs: seq<Attribute>)
    requires AttributesSpec(attrs).Ok?
    ensures |AttributesSpec(attrs).value| == |attrs|
    ensures forall i :: 0 <= i < |attrs| ==>
      AttributesSpec(attrs).value[i] == (KeyOf(attrs[i]).1, ValueOf(attrs[i]))
  {
  }

  /**
   * On failure: each diagnostic reports a key given more than once with all
   * the spans of that key, each such key is reported, and none twice.
   */
  lemma AttributesErr(attrs: seq<Attribute>)
    requires AttributesSpec(attrs).Err?
    ensures forall d :: d in AttributesSpec(attrs).error.items ==>
      d.AttributeSpecifiedMoreThenOnce? && d.spans == SpansOf(attrs, d.key) && |d.spans| > 1
    ensures forall i, j :: 0 <= i < j < |attrs| && KeyOf(attrs[i]).1 == KeyOf(attrs[j]).1 ==>
      AttributeSpecifiedMoreThenOnce(SpansOf(attrs, KeyOf(attrs[i]).1), KeyOf(attrs[i]).1)
        in AttributesSpec(attrs).error.items
    ensures forall i, j :: 0 <= i < j < |AttributesSpec(attrs).error.items| ==>
      AttributesSpec(attrs).error.items[i].AttributeSpecifiedMoreThenOnce?
      && AttributesSpec(attrs).error.items[j].AttributeSpecifiedMoreThenOnce?
      && AttributesSpec(attrs).error.items[i].key != AttributesSpec(attrs).error.items[j].key
  {
    var kl := KeyList(attrs);
    var order := Text.Dedup(kl);
    Text.DedupElements(kl);
    Text.DedupNoDup(kl);
    DuplicateDiagnosticsMembers(attrs, order);
    DuplicateDiagnosticsDistinct(attrs, order);
    forall i, j | 0 <= i < j < |attrs| && KeyOf(attrs[i]).1 == KeyOf(attrs[j]).1
      ensures AttributeSpecifiedMoreThenOnce(SpansOf(attrs, KeyOf(attrs[i]).1), KeyOf(attrs[i]).1)
        in AttributesSpec(attrs).error.items
    {
      SpansOfTwoIf(attrs, kl[i], i, j);
      assert kl[i] in kl;
    }
  }

  /**
   * `Element::attributes` as the source computes it: a first pass maps each
   * key to the spans of its attributes, a second pass reports the keys with
   * more than one span.
   */
  method Attributes(e: Element) returns (r: Result<seq<(string, Option<Expr>)>, Error>)
    ensures r == AttributesSpec(e.attrList)
  {
    var attrs := e.attrList;
    var keyToSpans, order := GroupSpans(attrs);
    var error := ReportRepeated(attrs, keyToSpans, order);
    if error != [] {
      return Err(Error(error));
    }
    return Ok(Pairs(attrs));
  }

  /** The first pass: the spans of each key, and the keys in the order they first occur. */
  method GroupSpans(attrs: seq<Attribute>) returns (keyToSpans: map<string, seq<Span>>, order: seq<string>)
    ensures order == Text.Dedup(KeyList(attrs))
    ensures forall k :: k in order ==> k in keyToSpans && keyToSpans[k] == SpansOf(attrs, k)
  {
    keyToSpans := map[];
    order := [];
    for i := 0 to |attrs|
      invariant order == Text.Dedup(KeyList(attrs[..i]))
      invariant forall k :: k in keyToSpans ==> k in order
      invariant forall k :: k in order ==> k in keyToSpans
      invariant forall k :: k in keyToSpans ==> keyToSpans[k] == SpansOf(attrs[..i], k)
    {
      var entry := KeyOf(attrs[i]);
      var k := entry.1;
      KeyListSnoc(attrs, i);
      assert KeyList(attrs[..i + 1])[..i] == KeyList(attrs[..i]);
      Text.DedupElements(KeyList(attrs[..i]));
      if k in keyToSpans {
        keyToSpans := keyToSpans[k := keyToSpans[k] + [entry.0]];
      } else {
        SpansOfNonEmpty(attrs[..i], k);
        keyToSpans := keyToSpans[k := [entry.0]];
        order := order + [k];
      }
    }
    assert attrs[..|attrs|] == attrs;
  }

  /** The second pass: a diagnostic for each key, in `order`, that has more than one span. */
  method ReportRepeated(attrs: seq<Attribute>, keyToSpans: map<string, seq<Span>>, order: seq<string>)
    returns (error: seq<Diagnostic>)
    requires forall k :: k in order ==> k in keyToSpans && keyToSpans[k] == SpansOf(attrs, k)
    ensures error == DuplicateDiagnostics(attrs, order)
  {
    error := [];
    for j := 0 to |order|
      invariant error == DuplicateDiagnostics(attrs, order[..j])
    {
      var k := order[j];
      assert order[..j + 1][..j] == order[..j];
      if |keyToSpans[k]| > 1 {
        error := error + [AttributeSpecifiedMoreThenOnce(keyToSpans[k], k)];
      }
    }
    assert order[..|order|] == order;
  }
}
