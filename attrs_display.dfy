/**
 * How the attribute map of the builder crate is written into an opening
 * tag: one entry after another, in the order the map holds them.
 */
module AttrsDisplay {
  import opened Fmt

  /** ` key` for an empty value, otherwise ` key="…"` with the value encoded for a double-quoted attribute. */
  function EntryText(k: string, v: string, encode: string -> string): string {
    if v == "" then " " + k else " " + k + "=\"" + encode(v) + "\""
  }

  function AttrsText(e: seq<(string, string)>, encode: string -> string): string {
    if e == [] then "" else AttrsText(e[..|e| - 1], encode) + EntryText(e[|e| - 1].0, e[|e| - 1].1, encode)
  }

  /** The loop of `Display`: every entry in turn. */
  method WriteEntries(e: seq<(string, string)>, f: Formatter, encode: string -> string)
    modifies f
    ensures f.out == old(f.out) + AttrsText(e, encode)
  {
    for i := 0 to |e|
      invariant f.out == old(f.out) + AttrsText(e[..i], encode)
    {
      AttrsTextSnoc(e, i, encode);
      WriteEntry(f, e[i].0, e[i].1, encode);
      AppendAssoc(old(f.out), AttrsText(e[..i], encode), EntryText(e[i].0, e[i].1, encode));
    }
    assert e[..|e|] == e;
  }

  lemma AttrsTextSnoc(e: seq<(string, string)>, i: nat, encode: string -> string)
    requires i < |e|
    ensures AttrsText(e[..i + 1], encode) == AttrsText(e[..i], encode) + EntryText(e[i].0, e[i].1, encode)
  {
    assert e[..i + 1][..i] == e[..i];
  }

  lemma AppendAssoc(a: string, b: string, c: string)
    ensures a + b + c == a + (b + c)
  {
  }

  /** What `Display` writes for one entry. */
  method WriteEntry(f: Formatter, k: string, v: string, encode: string -> string)
    modifies f
    ensures f.out == old(f.out) + EntryText(k, v, encode)
  {
    if v == "" {
      f.WriteStr(" " + k);
    } else {
      var escaped := encode(v);
      f.WriteStr(" " + k + "=\"" + escaped + "\"");
    }
  }
}
