/**
 * The attribute map of the builder crate: checked attribute names, a map
 * kept sorted by name in which setting a name again replaces its value, and
 * how the map is written into an opening tag.
 */
module Attrs {
  import opened Wrappers
  import opened Fmt
  import opened AttrsDisplay

  /** Only lower-case ASCII letters and `-`. */
  predicate ValidAttrName(name: string) {
    forall i :: 0 <= i < |name| ==> ('a' <= name[i] <= 'z' || name[i] == '-')
  }

  datatype AttrName = AttrName(name: string)

  /** `AttrName::new`: panics on any other character, so callers must pass a valid name. */
  function AttrNameNew(name: string): (r: AttrName)
    requires ValidAttrName(name)
    ensures r.name == name && ValidAttrName(r.name)
  {
    AttrName(name)
  }

  /** The names the setters use are all valid, so no setter panics. */
  lemma SetterNamesValid()
    ensures ValidAttrName("lang") && ValidAttrName("class") && ValidAttrName("charset")
    ensures ValidAttrName("name") && ValidAttrName("content")
  {
  }

  // ---- the order of names ----

  /** The order `str` compares in: character by character, a proper prefix first. */
  predicate LexLess(a: string, b: string)
    decreases |a|
  {
    if a == [] then b != []
    else if b == [] then false
    else a[0] < b[0] || (a[0] == b[0] && LexLess(a[1..], b[1..]))
  }

  lemma {:induction false} LexIrreflexive(a: string)
    ensures !LexLess(a, a)
    decreases |a|
  {
    if a != [] {
      LexIrreflexive(a[1..]);
    }
  }

  lemma {:induction false} LexTransitive(a: string, b: string, c: string)
    requires LexLess(a, b) && LexLess(b, c)
    ensures LexLess(a, c)
    decreases |a|
  {
    if a != [] && a[0] == b[0] && b[0] == c[0] {
      LexTransitive(a[1..], b[1..], c[1..]);
    }
  }

  lemma {:induction false} LexTotal(a: string, b: string)
    requires a != b
    ensures LexLess(a, b) || LexLess(b, a)
    decreases |a|
  {
    if a != [] && b != [] && a[0] == b[0] {
      LexTotal(a[1..], b[1..]);
    }
  }

  lemma LexAsymmetric(a: string, b: string)
    requires LexLess(a, b)
    ensures !LexLess(b, a)
  {
    if LexLess(b, a) {
      LexTransitive(a, b, a);
      LexIrreflexive(a);
    }
  }

  // ---- the sorted map ----

  /** Names strictly ascending: the order a `BTreeMap` holds and visits its entries in. */
  predicate Sorted(e: seq<(string, string)>) {
    forall i, j :: 0 <= i < j < |e| ==> LexLess(e[i].0, e[j].0)
  }

  /** The value stored under `k`. */
  function Lookup(e: seq<(string, string)>, k: string): Option<string> {
    if e == [] then None else if e[0].0 == k then Some(e[0].1) else Lookup(e[1..], k)
  }

  /** `BTreeMap::insert`: the entry for `k` replaced, or added in its place in the order. */
  function InsertSorted(e: seq<(string, string)>, k: string, v: string): seq<(string, string)> {
    if e == [] then [(k, v)]
    else if e[0].0 == k then [(k, v)] + e[1..]
    else if LexLess(k, e[0].0) then [(k, v)] + e
    else [e[0]] + InsertSorted(e[1..], k, v)
  }

  /** After an insert, `k` holds `v` and every other name what it held before. */
  lemma {:induction false} InsertLookup(e: seq<(string, string)>, k: string, v: string, q: string)
    ensures Lookup(InsertSorted(e, k, v), q) == if q == k then Some(v) else Lookup(e, q)
  {
    if e != [] && e[0].0 != k && !LexLess(k, e[0].0) {
      InsertLookup(e[1..], k, v, q);
      assert ([e[0]] + InsertSorted(e[1..], k, v))[1..] == InsertSorted(e[1..], k, v);
    } else if e != [] && e[0].0 == k {
      assert ([(k, v)] + e[1..])[1..] == e[1..];
    } else if e != [] {
      assert ([(k, v)] + e)[1..] == e;
    }
  }

  /** The first name of an insert is the first name before it or `k`. */
  lemma InsertHead(e: seq<(string, string)>, k: string, v: string)
    ensures InsertSorted(e, k, v) != []
    ensures InsertSorted(e, k, v)[0].0 == k || (e != [] && InsertSorted(e, k, v)[0] == e[0])
  {
  }

  /** An insert keeps the names ascending. */
  lemma {:induction false} InsertSortedSorted(e: seq<(string, string)>, k: string, v: string)
    requires Sorted(e)
    ensures Sorted(InsertSorted(e, k, v))
  {
    if e == [] {
    } else if e[0].0 == k {
      var r := [(k, v)] + e[1..];
      forall i, j | 0 <= i < j < |r| ensures LexLess(r[i].0, r[j].0) {
        assert r[i].0 == e[i].0 && r[j].0 == e[j].0;
      }
    } else if LexLess(k, e[0].0) {
      var r := [(k, v)] + e;
      forall i, j | 0 <= i < j < |r| ensures LexLess(r[i].0, r[j].0) {
        if i == 0 && j > 1 {
          LexTransitive(k, e[0].0, e[j - 1].0);
        }
      }
    } else {
      LexTotal(k, e[0].0);
      InsertSortedSorted(e[1..], k, v);
      var tail := InsertSorted(e[1..], k, v);
      var r := [e[0]] + tail;
      InsertHead(e[1..], k, v);
      forall j | 0 <= j < |tail| ensures LexLess(e[0].0, tail[j].0) {
        if j > 0 {
          LexTransitive(e[0].0, tail[0].0, tail[j].0);
        }
      }
      forall i, j | 0 <= i < j < |r| ensures LexLess(r[i].0, r[j].0) {
        if i > 0 {
          assert r[i] == tail[i - 1] && r[j] == tail[j - 1];
        }
      }
    }
  }

  lemma {:induction false} LookupFound(e: seq<(string, string)>, k: string) returns (i: nat)
    requires Lookup(e, k).Some?
    ensures i < |e| && e[i].0 == k && e[i].1 == Lookup(e, k).value
  {
    if e[0].0 == k {
      i := 0;
    } else {
      var j := LookupFound(e[1..], k);
      i := j + 1;
    }
  }

  lemma {:induction false} LookupAt(e: seq<(string, string)>, i: nat)
    requires Sorted(e) && i < |e|
    ensures Lookup(e, e[i].0) == Some(e[i].1)
  {
    if i > 0 {
      LexIrreflexive(e[0].0);
      assert e[0].0 != e[i].0;
      LookupAt(e[1..], i - 1);
    }
  }

  /** Two sorted maps that store the same values under the same names are equal. */
  lemma {:induction false} SortedUnique(a: seq<(string, string)>, b: seq<(string, string)>)
    requires Sorted(a) && Sorted(b)
    requires forall q :: Lookup(a, q) == Lookup(b, q)
    ensures a == b
    decreases |a|
  {
    if a == [] {
      if b != [] {
        LookupAt(b, 0);
      }
    } else if b == [] {
      LookupAt(a, 0);
    } else {
      LookupAt(a, 0);
      LookupAt(b, 0);
      var j := LookupFound(b, a[0].0);
      var i := LookupFound(a, b[0].0);
      if i > 0 && j > 0 {
        LexAsymmetric(a[0].0, b[0].0);
      } else if j > 0 {
        LexIrreflexive(b[0].0);
      } else if i > 0 {
        LexIrreflexive(a[0].0);
      }
      assert a[0] == b[0];
      forall q ensures Lookup(a[1..], q) == Lookup(b[1..], q) {
        assert Lookup(a, q) == Lookup(b, q);
        if q == a[0].0 {
          NotInTail(a, q);
          NotInTail(b, q);
        }
      }
      SortedUnique(a[1..], b[1..]);
      assert a == [a[0]] + a[1..] && b == [b[0]] + b[1..];
    }
  }

  lemma NotInTail(e: seq<(string, string)>, q: string)
    requires Sorted(e) && e != [] && e[0].0 == q
    ensures Lookup(e[1..], q).None?
  {
    if Lookup(e[1..], q).Some? {
      var j := LookupFound(e[1..], q);
      assert LexLess(e[0].0, e[j + 1].0);
      LexIrreflexive(q);
    }
  }

  /** Setting two different names gives the same map in either order. */
  lemma InsertCommutes(e: seq<(string, string)>, k1: string, v1: string, k2: string, v2: string)
    requires Sorted(e) && k1 != k2
    ensures InsertSorted(InsertSorted(e, k1, v1), k2, v2) == InsertSorted(InsertSorted(e, k2, v2), k1, v1)
  {
    var a := InsertSorted(InsertSorted(e, k1, v1), k2, v2);
    var b := InsertSorted(InsertSorted(e, k2, v2), k1, v1);
    InsertSortedSorted(e, k1, v1);
    InsertSortedSorted(InsertSorted(e, k1, v1), k2, v2);
    InsertSortedSorted(e, k2, v2);
    InsertSortedSorted(InsertSorted(e, k2, v2), k1, v1);
    forall q ensures Lookup(a, q) == Lookup(b, q) {
      InsertLookup(InsertSorted(e, k1, v1), k2, v2, q);
      InsertLookup(e, k1, v1, q);
      InsertLookup(InsertSorted(e, k2, v2), k1, v1, q);
      InsertLookup(e, k2, v2, q);
    }
    SortedUnique(a, b);
  }

  /** Setting a name again replaces what the first set stored. */
  lemma InsertReplaces(e: seq<(string, string)>, k: string, v1: string, v2: string)
    requires Sorted(e)
    ensures InsertSorted(InsertSorted(e, k, v1), k, v2) == InsertSorted(e, k, v2)
  {
    var a := InsertSorted(InsertSorted(e, k, v1), k, v2);
    var b := InsertSorted(e, k, v2);
    InsertSortedSorted(e, k, v1);
    InsertSortedSorted(InsertSorted(e, k, v1), k, v2);
    InsertSortedSorted(e, k, v2);
    forall q ensures Lookup(a, q) == Lookup(b, q) {
      InsertLookup(InsertSorted(e, k, v1), k, v2, q);
      InsertLookup(e, k, v1, q);
      InsertLookup(e, k, v2, q);
    }
    SortedUnique(a, b);
  }

  /** Where the loop of `Attrs::insert` stops, the insert splices the new entry in. */
  lemma {:induction false} InsertSortedAt(e: seq<(string, string)>, k: string, v: string, i: nat)
    requires i <= |e|
    requires forall j :: 0 <= j < i ==> LexLess(e[j].0, k)
    requires i == |e| || !LexLess(e[i].0, k)
    ensures i < |e| && e[i].0 == k ==> InsertSorted(e, k, v) == e[..i] + [(k, v)] + e[i + 1..]
    ensures !(i < |e| && e[i].0 == k) ==> InsertSorted(e, k, v) == e[..i] + [(k, v)] + e[i..]
  {
    if i == 0 {
      if e != [] && e[0].0 != k {
        LexTotal(k, e[0].0);
      }
    } else {
      LexIrreflexive(k);
      assert e[0].0 != k;
      LexAsymmetric(e[0].0, k);
      InsertSortedAt(e[1..], k, v, i - 1);
      assert e[..i] == [e[0]] + e[1..][..i - 1];
    }
  }

  /** `Attrs`: the map of a builder element's attributes, as its entries in ascending name order. */
  class Attrs {
    var entries: seq<(string, string)>

    ghost predicate Valid()
      reads this
    {
      Sorted(entries)
    }

    /** `Attrs::new`: no attributes. */
    constructor ()
      ensures Valid() && entries == []
    {
      entries := [];
    }

    /** `BTreeMap::insert` on the entries. */
    method Insert(k: string, v: string)
      requires Valid()
      modifies this
      ensures Valid()
      ensures entries == InsertSorted(old(entries), k, v)
    {
      var i := 0;
      while i < |entries| && LexLess(entries[i].0, k)
        invariant i <= |entries|
        invariant forall j :: 0 <= j < i ==> LexLess(entries[j].0, k)
      {
        i := i + 1;
      }
      InsertSortedAt(entries, k, v, i);
      InsertSortedSorted(entries, k, v);
      if i < |entries| && entries[i].0 == k {
        entries := entries[..i] + [(k, v)] + entries[i + 1..];
      } else {
        entries := entries[..i] + [(k, v)] + entries[i..];
      }
    }

    method SetLang(lang: string)
      requires Valid()
      modifies this
      ensures Valid() && entries == InsertSorted(old(entries), "lang", lang)
    {
      Insert(AttrNameNew("lang").name, lang);
    }

    /** `set_class`: the class's inner text. */
    method SetClass(className: string)
      requires Valid()
      modifies this
      ensures Valid() && entries == InsertSorted(old(entries), "class", className)
    {
      Insert(AttrNameNew("class").name, className);
    }

    method SetCharset(charset: string)
      requires Valid()
      modifies this
      ensures Valid() && entries == InsertSorted(old(entries), "charset", charset)
    {
      Insert(AttrNameNew("charset").name, charset);
    }

    method SetName(name: string)
      requires Valid()
      modifies this
      ensures Valid() && entries == InsertSorted(old(entries), "name", name)
    {
      Insert(AttrNameNew("name").name, name);
    }

    method SetContent(content: string)
      requires Valid()
      modifies this
      ensures Valid() && entries == InsertSorted(old(entries), "content", content)
    {
      Insert(AttrNameNew("content").name, content);
    }

    /**
     * `impl Display for Attrs`: the entries in ascending name order;
     * `encode` stands for the double-quoted-attribute encoder of the
     * `html_escape` crate.
     */
    method Fmt(f: Formatter, encode: string -> string)
      requires Valid()
      modifies f
      ensures f.out == old(f.out) + AttrsText(entries, encode)
    {
      WriteEntries(entries, f, encode);
    }
  }

  /**
   * Setting `lang` and then `charset` writes `charset` first: the map
   * writes its entries in name order, not in the order they were set.
   */
  method SetterOrderExample(encode: string -> string) returns (s: string)
    ensures s == " charset=\"" + encode("utf-8") + "\" lang=\"" + encode("en") + "\""
  {
    var attrs := new Attrs();
    attrs.SetLang("en");
    attrs.SetCharset("utf-8");
    SetterOrderEntries();
    var f := new Formatter();
    attrs.Fmt(f, encode);
    s := f.out;
    SetterOrderText(encode);
  }

  lemma SetterOrderEntries()
    ensures InsertSorted(InsertSorted([], "lang", "en"), "charset", "utf-8") == [("charset", "utf-8"), ("lang", "en")]
  {
    assert "charset"[0] < "lang"[0];
    assert LexLess("charset", "lang");
  }

  lemma SetterOrderText(encode: string -> string)
    ensures AttrsText([("charset", "utf-8"), ("lang", "en")], encode)
      == " charset=\"" + encode("utf-8") + "\" lang=\"" + encode("en") + "\""
  {
    TwoEntriesText("charset", "utf-8", "lang", "en", encode);
    assert " " + "charset" + "=\"" == " charset=\"";
    assert "\"" + " " + "lang" + "=\"" == "\" lang=\"";
  }

  /** Two entries with values write as two ` key="…"` pieces in their order. */
  lemma TwoEntriesText(k1: string, v1: string, k2: string, v2: string, encode: string -> string)
    requires v1 != "" && v2 != ""
    ensures AttrsText([(k1, v1), (k2, v2)], encode)
      == (" " + k1 + "=\"") + encode(v1) + ("\"" + " " + k2 + "=\"") + encode(v2) + "\""
  {
    TwoEntries(k1, v1, k2, v2, encode);
    Regroup(" ", k1, "=\"", encode(v1), "\"", k2, encode(v2));
  }

  lemma Regroup(p: string, k1: string, q: string, x: string, r: string, k2: string, y: string)
    ensures (p + k1 + q + x + r) + (p + k2 + q + y + r) == (p + k1 + q) + x + (r + p + k2 + q) + y + r
  {
  }

  lemma TwoEntries(k1: string, v1: string, k2: string, v2: string, encode: string -> string)
    ensures AttrsText([(k1, v1), (k2, v2)], encode) == EntryText(k1, v1, encode) + EntryText(k2, v2, encode)
  {
    var e := [(k1, v1), (k2, v2)];
    assert e[..1] == [(k1, v1)];
    assert e[..1][..0] == [];
    assert AttrsText(e[..1], encode) == AttrsText([], encode) + EntryText(k1, v1, encode);
    assert e[|e| - 1] == (k2, v2);
    assert AttrsText(e, encode) == AttrsText(e[..1], encode) + EntryText(k2, v2, encode);
  }

  /** An attribute map with nothing set writes nothing. */
  method EmptyExample(encode: string -> string) returns (s: string)
    ensures s == ""
  {
    var attrs := new Attrs();
    var f := new Formatter();
    attrs.Fmt(f, encode);
    s := f.out;
  }
}
