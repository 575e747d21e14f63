/**
 * The run-time escaper of the rendering library: writes the escaped text of a
 * string into a formatter, and the `Escaped` wrapper whose `Display` and
 * `Render` both delegate to it.
 */
module RuntimeEscape {
  import Escaping
  import ProcEscape
  import opened Fmt

  /** `escape(s, f)`: appends the escaped text of `s`; what `f` held before is left alone. */
  method Escape(s: string, f: Formatter)
    modifies f
    ensures f.out == old(f.out) + Escaping.Escape(s)
  {
    for i := 0 to |s|
      invariant f.out == old(f.out) + Escaping.Escape(s[..i])
    {
      WriteEscapedChar(s[i], f);
      Escaping.EscapePrefix(s, i);
    }
    assert s[..|s|] == s;
  }

  /** The loop body of `escape`: an entity for `&<>"`, the character itself otherwise. */
  method WriteEscapedChar(ch: char, f: Formatter)
    modifies f
    ensures f.out == old(f.out) + Escaping.EscapeChar(ch)
  {
    match ch {
      case '&' => f.WriteStr("&amp;");
      case '<' => f.WriteStr("&lt;");
      case '>' => f.WriteStr("&gt;");
      case '"' => f.WriteStr("&quot;");
      case _ => f.WriteChar(ch);
    }
  }

  /**
   * `Escaped(value)`, where `shown` is `value.to_string()`: the wrapped value
   * is known to this model only through its `Display` text.
   */
  datatype Escaped = Escaped(shown: string) {

    /** `impl Display for Escaped`. */
    method Fmt(f: Formatter)
      modifies f
      ensures f.out == old(f.out) + Escaping.Escape(shown)
    {
      Escape(shown, f);
    }

    /** `impl Render for Escaped`: the same text as `Fmt`. */
    method RenderTo(f: Formatter)
      modifies f
      ensures f.out == old(f.out) + Escaping.Escape(shown)
    {
      Escape(shown, f);
    }

    /** `to_string()`, through `Display` into a fresh buffer. */
    method ToString() returns (s: string)
      ensures s == Escaping.Escape(shown)
    {
      var f := new Formatter();
      Fmt(f);
      s := f.out;
    }
  }

  /** The documented example of `Escaped`. */
  method EscapedDocExample() returns (s: string)
    ensures s == "&amp;&lt;&gt;&quot;"
  {
    s := Escaped("&<>\"").ToString();
    Escaping.EscapeAllFour();
  }

  /**
   * The compile-time escaper and the run-time one write the same text for
   * every input: folding a string literal at compile time cannot change what
   * the page shows.
   */
  method EscapersAgree(s: string) returns (compiled: string, rendered: string)
    ensures compiled == rendered
    ensures Escaping.Unescape(rendered) == s
  {
    compiled := ProcEscape.EscapeHtml(s);
    var f := new Formatter();
    Escape(s, f);
    rendered := f.out;
    assert rendered == Escaping.Escape(s);
    Escaping.UnescapeEscape(s);
  }
}
