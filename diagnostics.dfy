/**
 * Diagnostics of the template compiler: the kinds of error an element can
 * have, their messages, the compile errors they become, and the aggregate
 * that collects several of them.
 */
module Diagnostics {
  import opened Wrappers
  import opened Tokens

  datatype ErrorKind =
    | InvalidTag(tag: string)
    | SelfClosing(tag: string)
    | NotSelfClosing(tag: string)
    | InvalidAttributeName(name: string)

  const InvalidTagTail: string := "` is not a valid HTML tag"
  const SelfClosingTail: string := "` must be used like a self closing tag"
  const NotSelfClosingTail: string := "` cannot be used like a self closing tag"
  const InvalidAttributeTail: string := "` is not a valid attribute"

  /** The tag or attribute name a message is about. */
  function Subject(k: ErrorKind): string {
    match k
    case InvalidTag(t) => t
    case SelfClosing(t) => t
    case NotSelfClosing(t) => t
    case InvalidAttributeName(n) => n
  }

  function Tail(k: ErrorKind): string {
    match k
    case InvalidTag(_) => InvalidTagTail
    case SelfClosing(_) => SelfClosingTail
    case NotSelfClosing(_) => NotSelfClosingTail
    case InvalidAttributeName(_) => InvalidAttributeTail
  }

  /** `impl Display for ErrorKind`: the subject between backticks, then the complaint. */
  function Message(k: ErrorKind): string {
    "`" + Subject(k) + Tail(k)
  }

  predicate EndsWith(m: string, tail: string) {
    |tail| <= |m| && m[|m| - |tail|..] == tail
  }

  /** Reads a message back into the error it reports; `None` for any other text. */
  function ParseMessage(m: string): Option<ErrorKind> {
    if |m| == 0 || m[0] != '`' then None
    else if |m| >= 1 + |InvalidTagTail| && EndsWith(m, InvalidTagTail) then
      Some(InvalidTag(m[1..|m| - |InvalidTagTail|]))
    else if |m| >= 1 + |SelfClosingTail| && EndsWith(m, SelfClosingTail) then
      Some(SelfClosing(m[1..|m| - |SelfClosingTail|]))
    else if |m| >= 1 + |NotSelfClosingTail| && EndsWith(m, NotSelfClosingTail) then
      Some(NotSelfClosing(m[1..|m| - |NotSelfClosingTail|]))
    else if |m| >= 1 + |InvalidAttributeTail| && EndsWith(m, InvalidAttributeTail) then
      Some(InvalidAttributeName(m[1..|m| - |InvalidAttributeTail|]))
    else None
  }

  /** A message is a backtick, its subject, and its tail. */
  lemma {:induction false} Parts(subject: string, tail: string)
    ensures EndsWith("`" + subject + tail, tail)
    ensures ("`" + subject + tail)[0] == '`'
    ensures ("`" + subject + tail)[1..|"`" + subject + tail| - |tail|] == subject
  {
    var m := "`" + subject + tail;
    assert m[|m| - |tail|..] == tail;
    assert m[1..|m| - |tail|] == subject;
  }

  /** Two tails of the same text agree `j` places from the end. */
  lemma {:induction false} SharedTail(m: string, a: string, b: string, j: nat)
    requires EndsWith(m, a) && EndsWith(m, b)
    requires 1 <= j <= |a| && j <= |b|
    ensures a[|a| - j] == b[|b| - j]
  {
    assert m[|m| - j] == m[|m| - |a|..][|a| - j];
    assert m[|m| - j] == m[|m| - |b|..][|b| - j];
  }

  /** The letters that tell the four tails apart. */
  lemma TailLetters()
    ensures |InvalidTagTail| == 25 && |SelfClosingTail| == 38
    ensures |NotSelfClosingTail| == 40 && |InvalidAttributeTail| == 26
    ensures InvalidTagTail[17] == 'H' && SelfClosingTail[30] == 's'
    ensures NotSelfClosingTail[32] == 's' && InvalidAttributeTail[18] == 't'
    ensures SelfClosingTail[4] == 's' && NotSelfClosingTail[6] == 'o'
    ensures SelfClosingTail[37] == 'g' && NotSelfClosingTail[39] == 'g'
    ensures InvalidAttributeTail[25] == 'e'
  {
  }

  lemma InvalidTagRoundTrip(t: string)
    ensures ParseMessage(Message(InvalidTag(t))) == Some(InvalidTag(t))
  {
    Parts(t, InvalidTagTail);
  }

  lemma SelfClosingRoundTrip(t: string)
    ensures ParseMessage(Message(SelfClosing(t))) == Some(SelfClosing(t))
  {
    var m := Message(SelfClosing(t));
    Parts(t, SelfClosingTail);
    TailLetters();
    if EndsWith(m, InvalidTagTail) {
      SharedTail(m, InvalidTagTail, SelfClosingTail, 8);
      assert false;
    }
  }

  lemma NotSelfClosingRoundTrip(t: string)
    ensures ParseMessage(Message(NotSelfClosing(t))) == Some(NotSelfClosing(t))
  {
    var m := Message(NotSelfClosing(t));
    Parts(t, NotSelfClosingTail);
    TailLetters();
    if EndsWith(m, InvalidTagTail) {
      SharedTail(m, InvalidTagTail, NotSelfClosingTail, 8);
      assert false;
    }
    if EndsWith(m, SelfClosingTail) {
      SharedTail(m, SelfClosingTail, NotSelfClosingTail, 34);
      assert false;
    }
  }

  lemma InvalidAttributeRoundTrip(n: string)
    ensures ParseMessage(Message(InvalidAttributeName(n))) == Some(InvalidAttributeName(n))
  {
    Parts(n, InvalidAttributeTail);
    TailLetters();
  }

  /** Every message reads back as the error it was made from. */
  lemma MessageRoundTrip(k: ErrorKind)
    ensures ParseMessage(Message(k)) == Some(k)
  {
    match k
    case InvalidTag(t) => InvalidTagRoundTrip(t);
    case SelfClosing(t) => SelfClosingRoundTrip(t);
    case NotSelfClosing(t) => NotSelfClosingRoundTrip(t);
    case InvalidAttributeName(n) => InvalidAttributeRoundTrip(n);
  }

  /** Distinct errors never share a message. */
  lemma MessageInjective(k1: ErrorKind, k2: ErrorKind)
    requires Message(k1) == Message(k2)
    ensures k1 == k2
  {
    MessageRoundTrip(k1);
    MessageRoundTrip(k2);
  }

  /** One reported problem. */
  datatype Diagnostic =
    | Located(span: Span, kind: ErrorKind)
    | AttributeSpecifiedMoreThenOnce(spans: seq<Span>, key: string)

  /** The error aggregate: the diagnostics collected so far, in the order they were pushed. */
  datatype Error = Error(items: seq<Diagnostic>) {

    predicate IsEmpty() {
      items == []
    }

    /** Adds the diagnostics of `other` after those already held. */
    function Push(other: Error): (r: Error)
      ensures |r.items| == |items| + |other.items|
      ensures r.items[..|items|] == items
      ensures r.items[|items|..] == other.items
    {
      Error(items + other.items)
    }
  }

  function Empty(): (e: Error)
    ensures e.IsEmpty()
  {
    Error([])
  }

  function Single(d: Diagnostic): (e: Error)
    ensures !e.IsEmpty() && d in e.items
  {
    Error([d])
  }

  /** Pushing never loses a diagnostic, and an aggregate that has one stays non-empty. */
  lemma PushKeeps(e: Error, other: Error, d: Diagnostic)
    ensures d in e.items ==> d in e.Push(other).items
    ensures d in other.items ==> d in e.Push(other).items
    ensures e.Push(other).IsEmpty() <==> e.IsEmpty() && other.IsEmpty()
  {
    var r := e.Push(other);
    if d in e.items {
      var i :| 0 <= i < |e.items| && e.items[i] == d;
      assert r.items[i] == d;
    }
    if d in other.items {
      var i :| 0 <= i < |other.items| && other.items[i] == d;
      assert r.items[|e.items| + i] == d;
    }
  }

  /** What `compile_error!` reports: a message at a span. */
  datatype CompileError = CompileError(span: Span, message: string)

  /** `impl ToTokens for Error`: one `compile_error!` carrying the kind's message at the error's span. */
  function ToTokens(span: Span, kind: ErrorKind): (r: CompileError)
    ensures r.span == span
    ensures ParseMessage(r.message) == Some(kind)
  {
    MessageRoundTrip(kind);
    CompileError(span, Message(kind))
  }
}
