/**
 * The input of the template compiler: a tree of tokens as the Rust tokenizer
 * hands it over, parenthesised and braced groups nesting their contents.
 */
module Tokens {

  /** Source position of a token; only compared for equality. */
  type Span = nat

  datatype Token = Token(kind: Kind, span: Span)

  datatype Kind =
    | Ident(name: string)          // a non-keyword identifier, raw ones spelled `r#...`
    | At | Dot | Colon | Semi | Comma | FatArrow
    | KwIf | KwElse | KwMatch | KwFor | KwIn
    | LitStr(value: string)         // a string literal, by its value
    | Paren(inner: seq<Token>)
    | Brace(inner: seq<Token>)
    | Other(text: string)           // any other punctuation, keyword or literal

  /** Number of tokens in `ts`, counting the contents of groups. */
  function Size(ts: seq<Token>): (n: nat)
    ensures n >= |ts|
    decreases ts
  {
    if ts == [] then 0 else TokenSize(ts[0]) + Size(ts[1..])
  }

  function TokenSize(t: Token): (n: nat)
    ensures n >= 1
    decreases t
  {
    match t.kind
    case Paren(inner) => 1 + Size(inner)
    case Brace(inner) => 1 + Size(inner)
    case _ => 1
  }

  lemma {:induction false} SizeConcat(a: seq<Token>, b: seq<Token>)
    ensures Size(a + b) == Size(a) + Size(b)
    decreases |a|
  {
    if a == [] {
      assert a + b == b;
    } else {
      assert (a + b)[0] == a[0];
      assert (a + b)[1..] == a[1..] + b;
      SizeConcat(a[1..], b);
    }
  }

  /** Where an opaque host expression or pattern ends. */
  datatype Stop =
    | BeforeBrace     // an expression parsed without an eager brace
    | BeforePatEnd    // a pattern: ends before `if`, `=>` or `in`
    | BeforeFatArrow  // a full expression in a match guard

  predicate Stops(s: Stop, k: Kind) {
    match s
    case BeforeBrace => k.Brace?
    case BeforePatEnd => k.KwIf? || k.FatArrow? || k.KwIn?
    case BeforeFatArrow => k.FatArrow?
  }

  /** The longest prefix of `ts` with no top-level token where `s` stops, and what follows it. */
  function TakeUntil(s: Stop, ts: seq<Token>): (r: (seq<Token>, seq<Token>))
    ensures r.0 + r.1 == ts
    ensures forall i :: 0 <= i < |r.0| ==> !Stops(s, r.0[i].kind)
    ensures r.1 == [] || Stops(s, r.1[0].kind)
    ensures Size(r.0) + Size(r.1) == Size(ts)
    decreases |ts|
  {
    if ts == [] || Stops(s, ts[0].kind) then ([], ts)
    else
      var r := TakeUntil(s, ts[1..]);
      assert ([ts[0]] + r.0)[1..] == r.0;
      ([ts[0]] + r.0, r.1)
  }

  /** A run that ends where `s` says is taken back whole, whatever follows the stop. */
  lemma {:induction false} TakeUntilExact(s: Stop, run: seq<Token>, rest: seq<Token>)
    requires forall i :: 0 <= i < |run| ==> !Stops(s, run[i].kind)
    requires rest == [] || Stops(s, rest[0].kind)
    ensures TakeUntil(s, run + rest) == (run, rest)
    decreases |run|
  {
    if run == [] {
      assert run + rest == rest;
    } else {
      assert (run + rest)[0] == run[0];
      assert (run + rest)[1..] == run[1..] + rest;
      TakeUntilExact(s, run[1..], rest);
      assert [run[0]] + run[1..] == run;
    }
  }
}
