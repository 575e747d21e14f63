/**
 * Sequence and string helpers shared by several components: removing repeated
 * values while keeping first occurrences, and joining/splitting on a separator.
 */
module Text {

  /** No value occurs twice. */
  predicate NoDup<T(==)>(s: seq<T>) {
    forall i, j :: 0 <= i < j < |s| ==> s[i] != s[j]
  }

  /** Index of the first occurrence of `x` in `s`. */
  function FirstIndex<T(==)>(s: seq<T>, x: T): (i: nat)
    requires x in s
    ensures i < |s| && s[i] == x && x !in s[..i]
  {
    if s[0] == x then 0 else 1 + FirstIndex(s[1..], x)
  }

  /**
   * `s` with every value after its first occurrence dropped: the values are
   * taken left to right and a value is kept only when it is not yet among
   * those kept.
   */
  function Dedup<T(==)>(s: seq<T>): seq<T>
    decreases |s|
  {
    if s == [] then []
    else
      var kept := Dedup(s[..|s| - 1]);
      if s[|s| - 1] in kept then kept else kept + [s[|s| - 1]]
  }

  lemma {:induction false} DedupElements<T>(s: seq<T>)
    ensures forall x :: x in Dedup(s) ==> x in s
    ensures forall x :: x in s ==> x in Dedup(s)
    decreases |s|
  {
    if s != [] {
      var init := s[..|s| - 1];
      DedupElements(init);
      assert s == init + [s[|s| - 1]];
    }
  }

  lemma {:induction false} DedupNoDup<T>(s: seq<T>)
    ensures NoDup(Dedup(s))
    decreases |s|
  {
    if s != [] {
      DedupNoDup(s[..|s| - 1]);
    }
  }

  /** A sequence without repetitions is left as it is. */
  lemma {:induction false} DedupOfNoDup<T>(s: seq<T>)
    requires NoDup(s)
    ensures Dedup(s) == s
    decreases |s|
  {
    if s != [] {
      var init := s[..|s| - 1];
      assert NoDup(init);
      DedupOfNoDup(init);
      assert s[|s| - 1] !in init;
      assert s == init + [s[|s| - 1]];
    }
  }

  lemma FirstIndexSnoc<T>(s: seq<T>, y: T, x: T)
    requires x in s
    ensures x in s + [y] && FirstIndex(s + [y], x) == FirstIndex(s, x)
  {
    var i := FirstIndex(s, x);
    assert (s + [y])[i] == x;
    assert (s + [y])[..i] == s[..i];
  }

  /**
   * The values kept appear in the order of their first occurrences in `s`:
   * together with DedupElements and DedupNoDup this pins Dedup(s) down.
   */
  lemma {:induction false} DedupFirstOccurrenceOrder<T>(s: seq<T>, i: nat, j: nat)
    requires i < j < |Dedup(s)|
    ensures Dedup(s)[i] in s && Dedup(s)[j] in s
    ensures FirstIndex(s, Dedup(s)[i]) < FirstIndex(s, Dedup(s)[j])
    decreases |s|
  {
    DedupElements(s);
    var init := s[..|s| - 1];
    var last := s[|s| - 1];
    var kept := Dedup(init);
    assert s == init + [last];
    DedupElements(init);
    if j < |kept| {
      DedupFirstOccurrenceOrder(init, i, j);
      assert kept[i] in kept && kept[j] in kept;
      FirstIndexSnoc(init, last, kept[i]);
      FirstIndexSnoc(init, last, kept[j]);
    } else {
      assert Dedup(s) == kept + [last] && last !in init;
      assert kept[i] in kept;
      FirstIndexSnoc(init, last, kept[i]);
    }
  }

  /** `xs` joined with `sep` between neighbours and at neither end. */
  function Join(xs: seq<string>, sep: char): string {
    if |xs| == 0 then ""
    else if |xs| == 1 then xs[0]
    else xs[0] + [sep] + Join(xs[1..], sep)
  }

  /** The pieces of `s` between occurrences of `sep`; `Split("", sep) == [""]`. */
  function Split(s: string, sep: char): (pieces: seq<string>)
    ensures |pieces| >= 1
  {
    if s == [] then [""]
    else if s[0] == sep then [""] + Split(s[1..], sep)
    else
      var r := Split(s[1..], sep);
      [[s[0]] + r[0]] + r[1..]
  }

  lemma {:induction false} SplitPiece(x: string, sep: char, rest: string)
    requires sep !in x
    ensures Split(x + [sep] + rest, sep) == [x] + Split(rest, sep)
  {
    if x != [] {
      assert (x + [sep] + rest)[1..] == x[1..] + [sep] + rest;
      SplitPiece(x[1..], sep, rest);
      assert [x[0]] + x[1..] == x;
    }
  }

  lemma {:induction false} SplitWhole(x: string, sep: char)
    requires sep !in x
    ensures Split(x, sep) == [x]
  {
    if x != [] {
      SplitWhole(x[1..], sep);
      assert [x[0]] + x[1..] == x;
    }
  }

  /** Splitting undoes joining when no piece contains the separator. */
  lemma {:induction false} SplitJoin(xs: seq<string>, sep: char)
    requires |xs| >= 1
    requires forall k :: 0 <= k < |xs| ==> sep !in xs[k]
    ensures Split(Join(xs, sep), sep) == xs
  {
    if |xs| == 1 {
      SplitWhole(xs[0], sep);
    } else {
      SplitJoin(xs[1..], sep);
      SplitPiece(xs[0], sep, Join(xs[1..], sep));
    }
  }

  lemma {:induction false} JoinSnoc(xs: seq<string>, y: string, sep: char)
    requires |xs| >= 1
    ensures Join(xs + [y], sep) == Join(xs, sep) + [sep] + y
  {
    if |xs| > 1 {
      assert (xs + [y])[1..] == xs[1..] + [y];
      JoinSnoc(xs[1..], y, sep);
    }
  }
}
