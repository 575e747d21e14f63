/**
 * The text sink that Rust's `fmt::Formatter` (and `dyn fmt::Write`) stands for.
 * Writes only ever append; a write never fails in this model.
 */
module Fmt {

  class Formatter {
    /** Everything written so far. */
    var out: string

    constructor ()
      ensures out == []
    {
      out := [];
    }

    /** `f.write_str(s)` / `write!(f, "{s}")`. */
    method WriteStr(s: string)
      modifies this
      ensures out == old(out) + s
    {
      out := out + s;
    }

    /** `f.write_char(c)`. */
    method WriteChar(c: char)
      modifies this
      ensures out == old(out) + [c]
    {
      out := out + [c];
    }
  }
}
