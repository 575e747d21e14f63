/**
 * The HTML escaping both halves of the system share: `&`, `<`, `>` and `"`
 * become the entities `&amp;`, `&lt;`, `&gt;` and `&quot;`; every other
 * character is kept. The compile-time escaper (ProcEscape.EscapeHtml) and the
 * run-time one (RuntimeEscape.Escape) are each proved to produce `Escape(s)`.
 */
module Escaping {

  /** The characters the escapers rewrite. */
  predicate IsSpecial(c: char) {
    c == '&' || c == '<' || c == '>' || c == '"'
  }

  /** Text of one input character after escaping. */
  function EscapeChar(c: char): string {
    match c
    case '&' => "&amp;"
    case '<' => "&lt;"
    case '>' => "&gt;"
    case '"' => "&quot;"
    case _ => [c]
  }

  /** `s` escaped character by character, left to right. */
  function Escape(s: string): string {
    if s == [] then "" else EscapeChar(s[0]) + Escape(s[1..])
  }

  /** Reverses the four substitutions; any other character is kept. */
  function Unescape(t: string): string
    decreases |t|
  {
    if t == [] then ""
    else if "&amp;" <= t then "&" + Unescape(t[5..])
    else if "&lt;" <= t then "<" + Unescape(t[4..])
    else if "&gt;" <= t then ">" + Unescape(t[4..])
    else if "&quot;" <= t then "\"" + Unescape(t[6..])
    else [t[0]] + Unescape(t[1..])
  }

  /** Escaping distributes over concatenation: it works one character at a time. */
  lemma {:induction false} EscapeConcat(a: string, b: string)
    ensures Escape(a + b) == Escape(a) + Escape(b)
  {
    if a == [] {
      assert a + b == b;
    } else {
      assert (a + b)[0] == a[0] && (a + b)[1..] == a[1..] + b;
      EscapeConcat(a[1..], b);
    }
  }

  /** The escape of one more character is the old escape followed by that character's text. */
  lemma EscapeSnoc(s: string, c: char)
    ensures Escape(s + [c]) == Escape(s) + EscapeChar(c)
  {
    EscapeConcat(s, [c]);
  }

  /** Escaping one more character of `s` adds that character's text. */
  lemma EscapePrefix(s: string, i: nat)
    requires i < |s|
    ensures Escape(s[..i + 1]) == Escape(s[..i]) + EscapeChar(s[i])
  {
    assert s[..i + 1] == s[..i] + [s[i]];
    EscapeSnoc(s[..i], s[i]);
  }

  /**
   * Order is kept: the text produced for the character at position i sits
   * between the escapes of everything before it and everything after it.
   */
  lemma {:induction false} EscapeAt(s: string, i: nat)
    requires i < |s|
    ensures Escape(s) == Escape(s[..i]) + EscapeChar(s[i]) + Escape(s[i + 1..])
  {
    var before, after := s[..i], s[i + 1..];
    var tail := [s[i]] + after;
    assert s == before + tail;
    EscapeConcat(before, tail);
    assert tail[0] == s[i] && tail[1..] == after;
    assert Escape(tail) == EscapeChar(s[i]) + Escape(after);
  }

  /** Text with none of `&<>"` is returned unchanged. */
  lemma {:induction false} EscapeSafe(s: string)
    requires forall i :: 0 <= i < |s| ==> !IsSpecial(s[i])
    ensures Escape(s) == s
  {
    if s != [] {
      EscapeSafe(s[1..]);
    }
  }

  /** The output never contains `<`, `>` or `"`. */
  lemma {:induction false} EscapeNoMarkup(s: string)
    ensures '<' !in Escape(s) && '>' !in Escape(s) && '"' !in Escape(s)
  {
    if s != [] {
      EscapeNoMarkup(s[1..]);
      var head := EscapeChar(s[0]);
      assert '<' !in head && '>' !in head && '"' !in head;
    }
  }

  /**
   * Escaping never shortens text, and keeps its length exactly when the text
   * has no character to escape.
   */
  lemma {:induction false} EscapeLength(s: string)
    ensures |Escape(s)| >= |s|
    ensures |Escape(s)| == |s| <==> forall i :: 0 <= i < |s| ==> !IsSpecial(s[i])
  {
    if s != [] {
      EscapeLength(s[1..]);
      if forall i :: 0 <= i < |s[1..]| ==> !IsSpecial(s[1..][i]) {
        if !IsSpecial(s[0]) {
          forall i | 0 <= i < |s| ensures !IsSpecial(s[i]) {
            if i > 0 { assert s[i] == s[1..][i - 1]; }
          }
        }
      } else {
        var i :| 0 <= i < |s[1..]| && IsSpecial(s[1..][i]);
        assert IsSpecial(s[i + 1]);
      }
    }
  }

  lemma UnescapeStep(c: char, rest: string)
    ensures Unescape(EscapeChar(c) + rest) == [c] + Unescape(rest)
  {
    var t := EscapeChar(c) + rest;
    if c == '&' {
      assert "&amp;" <= t && t[5..] == rest;
    } else if c == '<' {
      assert !("&amp;" <= t) by { assert t[1] == 'l'; }
      assert "&lt;" <= t && t[4..] == rest;
    } else if c == '>' {
      assert !("&amp;" <= t) by { assert t[1] == 'g'; }
      assert !("&lt;" <= t) by { assert t[1] == 'g'; }
      assert "&gt;" <= t && t[4..] == rest;
    } else if c == '"' {
      assert !("&amp;" <= t) by { assert t[1] == 'q'; }
      assert !("&lt;" <= t) by { assert t[1] == 'q'; }
      assert !("&gt;" <= t) by { assert t[1] == 'q'; }
      assert "&quot;" <= t && t[6..] == rest;
    } else {
      assert t[0] == c && t[1..] == rest;
    }
  }

  /** Unescape undoes Escape, so distinct texts never escape to the same output. */
  lemma {:induction false} UnescapeEscape(s: string)
    ensures Unescape(Escape(s)) == s
  {
    if s != [] {
      UnescapeStep(s[0], Escape(s[1..]));
      UnescapeEscape(s[1..]);
    }
  }

  lemma EscapeInjective(a: string, b: string)
    requires Escape(a) == Escape(b)
    ensures a == b
  {
    UnescapeEscape(a);
    UnescapeEscape(b);
  }

  /** The documented example: all four special characters in a row. */
  lemma EscapeAllFour()
    ensures Escape("&<>\"") == "&amp;&lt;&gt;&quot;"
  {
  }

  /**
   * Text without special characters between angle brackets, the shape of the
   * documented `render` example (`<this is escaped>` becomes
   * `&lt;this is escaped&gt;`).
   */
  lemma EscapeBracketed(inner: string)
    requires forall i :: 0 <= i < |inner| ==> !IsSpecial(inner[i])
    ensures Escape("<" + inner + ">") == "&lt;" + inner + "&gt;"
  {
    EscapeSafe(inner);
    EscapeConcat("<" + inner, ">");
    EscapeConcat("<", inner);
    EscapeSingle('<');
    EscapeSingle('>');
  }

  lemma EscapeSingle(c: char)
    ensures Escape([c]) == EscapeChar(c)
  {
    assert [c][1..] == [];
  }
}
