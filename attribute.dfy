/**
 * Attribute values of the builder crate: a class name and an id, neither of
 * which may hold whitespace, and a list of classes.
 */
module Attribute {
  import opened Wrappers
  import opened Text
  import opened Fmt

  /** `char::is_whitespace`: the characters Unicode gives the White_Space property. */
  predicate IsWhitespace(c: char) {
    ('\U{0009}' <= c <= '\U{000D}') || c == '\U{0020}' || c == '\U{0085}' || c == '\U{00A0}'
      || c == '\U{1680}' || ('\U{2000}' <= c <= '\U{200A}') || c == '\U{2028}' || c == '\U{2029}'
      || c == '\U{202F}' || c == '\U{205F}' || c == '\U{3000}'
  }

  predicate NoWhitespace(s: string) {
    forall i :: 0 <= i < |s| ==> !IsWhitespace(s[i])
  }

  datatype Class = Class(name: string)

  datatype InvalidClassName = InvalidClassName

  /** `Class::try_from`: refused when some character is whitespace, otherwise the value unchanged. */
  function ClassTryFrom(value: string): (r: Result<Class, InvalidClassName>)
    ensures r.Ok? <==> NoWhitespace(value)
    ensures r.Ok? ==> r.value.name == value
    ensures r.Err? ==> exists i :: 0 <= i < |value| && IsWhitespace(value[i])
  {
    if exists i :: 0 <= i < |value| && IsWhitespace(value[i]) then Err(InvalidClassName)
    else Ok(Class(value))
  }

  datatype Id = Id(name: string)

  datatype InvalidId = InvalidId

  /** `Id::try_new`: refused when some character is whitespace, otherwise the value unchanged. */
  function IdTryNew(id: string): (r: Result<Id, InvalidId>)
    ensures r.Ok? <==> NoWhitespace(id)
    ensures r.Ok? ==> r.value.name == id
  {
    if exists i :: 0 <= i < |id| && IsWhitespace(id[i]) then Err(InvalidId)
    else Ok(Id(id))
  }

  /** `Id::new`: `try_new` unwrapped, so the caller must pass a value without whitespace. */
  function IdNew(id: string): (r: Id)
    requires NoWhitespace(id)
    ensures r.name == id && IdTryNew(id) == Ok(r)
  {
    IdTryNew(id).value
  }

  /** `impl Display for Id`: the inner string. */
  function IdText(id: Id): (s: string)
    ensures IdTryNew(s).Ok? ==> IdTryNew(s).value == id
  {
    id.name
  }

  datatype ClassList = ClassList(classes: seq<Class>) {

    /** `ClassList::is_empty`: true exactly when the display writes nothing. */
    function IsEmpty(): (r: bool)
      ensures r <==> ClassesText(classes) == ""
    {
      classes == []
    }

    /** `impl Display for ClassList`: every class in order, each followed by one space. */
    method Fmt(f: Formatter)
      modifies f
      ensures f.out == old(f.out) + ClassesText(classes)
    {
      for i := 0 to |classes|
        invariant f.out == old(f.out) + ClassesText(classes[..i])
      {
        ClassesTextSnoc(classes[..i], classes[i]);
        assert classes[..i + 1] == classes[..i] + [classes[i]];
        f.WriteStr(classes[i].name);
        f.WriteStr(" ");
      }
      assert classes[..|classes|] == classes;
    }
  }

  /** `ClassList::from(&[Class])`: the classes as given. */
  function ClassListFrom(value: seq<Class>): (r: ClassList)
    ensures r.classes == value
  {
    ClassList(value)
  }

  /**
   * A list built from classes made by `Class::try_from` displays as text
   * that splits at its spaces into exactly those class names, in order.
   */
  lemma ClassListFromText(value: seq<Class>)
    requires forall i :: 0 <= i < |value| ==> NoWhitespace(value[i].name)
    ensures Split(ClassesText(ClassListFrom(value).classes), ' ') == Names(value) + [""]
  {
    ClassesTextSplit(value);
  }

  function ClassesText(cs: seq<Class>): string {
    if cs == [] then "" else cs[0].name + " " + ClassesText(cs[1..])
  }

  lemma {:induction false} ClassesTextSnoc(cs: seq<Class>, c: Class)
    ensures ClassesText(cs + [c]) == ClassesText(cs) + c.name + " "
  {
    if cs != [] {
      assert (cs + [c])[1..] == cs[1..] + [c];
      ClassesTextSnoc(cs[1..], c);
    }
  }

  function Names(cs: seq<Class>): (ns: seq<string>)
    ensures |ns| == |cs| && forall i :: 0 <= i < |cs| ==> ns[i] == cs[i].name
  {
    seq(|cs|, i requires 0 <= i < |cs| => cs[i].name)
  }

  /**
   * The displayed list splits at its spaces into the class names and one
   * empty piece after the trailing space, when every class was made by
   * `Class::try_from`.
   */
  lemma {:induction false} ClassesTextSplit(cs: seq<Class>)
    requires forall i :: 0 <= i < |cs| ==> NoWhitespace(cs[i].name)
    ensures Split(ClassesText(cs), ' ') == Names(cs) + [""]
  {
    if cs != [] {
      assert ' ' !in cs[0].name by {
        forall k | 0 <= k < |cs[0].name| ensures cs[0].name[k] != ' ' {
          assert !IsWhitespace(cs[0].name[k]);
        }
      }
      ClassesTextSplit(cs[1..]);
      assert ClassesText(cs) == cs[0].name + [' '] + ClassesText(cs[1..]);
      SplitPiece(cs[0].name, ' ', ClassesText(cs[1..]));
      assert Names(cs) == [cs[0].name] + Names(cs[1..]);
    }
  }
}
