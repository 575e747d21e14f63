/** The compile-time escaper of the template compiler: builds the escaped `String`. */
module ProcEscape {
  import Escaping

  /** `escape_html`: walks the characters once, pushing each one's escaped text onto `buf`. */
  method EscapeHtml(s: string) returns (buf: string)
    ensures buf == Escaping.Escape(s)
  {
    buf := "";
    for i := 0 to |s|
      invariant buf == Escaping.Escape(s[..i])
    {
      var ch := s[i];
      match ch {
        case '&' => buf := buf + "&amp;";
        case '<' => buf := buf + "&lt;";
        case '>' => buf := buf + "&gt;";
        case '"' => buf := buf + "&quot;";
        case _ => buf := buf + [ch];
      }
      Escaping.EscapePrefix(s, i);
    }
    assert s[..|s|] == s;
  }
}
