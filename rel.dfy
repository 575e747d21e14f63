/**
 * The values of the `rel` attribute on links, anchors and forms: the three
 * value enumerations and their texts, the marker values that convert into
 * them, the lists built from tuples of values (later repeats dropped), and
 * how a list is displayed and written as an attribute.
 */
module Rel {
  import opened Wrappers
  import opened Text
  import opened Fmt


  datatype LinkRel =
    | Alternate
    | Author
    | Canonical
    | DnsPrefetch
    | Expect
    | Help
    | Icon
    | License
    | Manifest
    | Me
    | ModulePreload
    | Next
    | PingBack
    | Preconnect
    | Prefetch
    | Preload
    | Prerender
    | Prev
    | PrivacyPolicy
    | Search
    | StyleSheet
    | TermsOfService

  /** The text `LinkRel` displays as. */
  function LinkRelText(r: LinkRel): (s: string)
    ensures |s| > 0 && ',' !in s
  {
    match r
    case Alternate => "alternate"
    case Author => "author"
    case Canonical => "canonical"
    case DnsPrefetch => "dns-prefetch"
    case Expect => "expect"
    case Help => "help"
    case Icon => "icon"
    case License => "license"
    case Manifest => "manifest"
    case Me => "me"
    case ModulePreload => "modulepreload"
    case Next => "next"
    case PingBack => "pingback"
    case Preconnect => "preconnect"
    case Prefetch => "prefetch"
    case Preload => "preload"
    case Prerender => "prerender"
    case Prev => "prev"
    case PrivacyPolicy => "privacy-policy"
    case Search => "search"
    case StyleSheet => "stylesheet"
    case TermsOfService => "terms-of-service"
  }

  /** The `LinkRel` whose text is `s`, if there is one. */
  function ParseLinkRel(s: string): (r: Option<LinkRel>)
    ensures r.Some? ==> LinkRelText(r.value) == s
  {
    if s == "alternate" then Some(LinkRel.Alternate)
    else if s == "author" then Some(LinkRel.Author)
    else if s == "canonical" then Some(LinkRel.Canonical)
    else if s == "dns-prefetch" then Some(LinkRel.DnsPrefetch)
    else if s == "expect" then Some(LinkRel.Expect)
    else if s == "help" then Some(LinkRel.Help)
    else if s == "icon" then Some(LinkRel.Icon)
    else if s == "license" then Some(LinkRel.License)
    else if s == "manifest" then Some(LinkRel.Manifest)
    else if s == "me" then Some(LinkRel.Me)
    else if s == "modulepreload" then Some(LinkRel.ModulePreload)
    else if s == "next" then Some(LinkRel.Next)
    else if s == "pingback" then Some(LinkRel.PingBack)
    else if s == "preconnect" then Some(LinkRel.Preconnect)
    else if s == "prefetch" then Some(LinkRel.Prefetch)
    else if s == "preload" then Some(LinkRel.Preload)
    else if s == "prerender" then Some(LinkRel.Prerender)
    else if s == "prev" then Some(LinkRel.Prev)
    else if s == "privacy-policy" then Some(LinkRel.PrivacyPolicy)
    else if s == "search" then Some(LinkRel.Search)
    else if s == "stylesheet" then Some(LinkRel.StyleSheet)
    else if s == "terms-of-service" then Some(LinkRel.TermsOfService)
    else None
  }

  /** Reading the text of a `LinkRel` back gives the same value: no two variants display alike. */
  lemma ParseLinkRelText(r: LinkRel)
    ensures ParseLinkRel(LinkRelText(r)) == Some(r)
  {
  }

  datatype AnchorRel =
    | Alternate
    | Author
    | Bookmark
    | External
    | Help
    | License
    | Me
    | Next
    | NoFollow
    | NoOpener
    | NoReferrer
    | Opener
    | Prev
    | PrivacyPolicy
    | Search
    | Tag
    | TermsOfService

  /** The text `AnchorRel` displays as. */
  function AnchorRelText(r: AnchorRel): (s: string)
    ensures |s| > 0 && ',' !in s
  {
    match r
    case Alternate => "alternate"
    case Author => "author"
    case Bookmark => "bookmark"
    case External => "external"
    case Help => "help"
    case License => "license"
    case Me => "me"
    case Next => "next"
    case NoFollow => "nofollow"
    case NoOpener => "noopener"
    case NoReferrer => "noreferrer"
    case Opener => "opener"
    case Prev => "prev"
    case PrivacyPolicy => "privacy-policy"
    case Search => "search"
    case Tag => "tag"
    case TermsOfService => "terms-of-service"
  }

  /** The `AnchorRel` whose text is `s`, if there is one. */
  function ParseAnchorRel(s: string): (r: Option<AnchorRel>)
    ensures r.Some? ==> AnchorRelText(r.value) == s
  {
    if s == "alternate" then Some(AnchorRel.Alternate)
    else if s == "author" then Some(AnchorRel.Author)
    else if s == "bookmark" then Some(AnchorRel.Bookmark)
    else if s == "external" then Some(AnchorRel.External)
    else if s == "help" then Some(AnchorRel.Help)
    else if s == "license" then Some(AnchorRel.License)
    else if s == "me" then Some(AnchorRel.Me)
    else if s == "next" then Some(AnchorRel.Next)
    else if s == "nofollow" then Some(AnchorRel.NoFollow)
    else if s == "noopener" then Some(AnchorRel.NoOpener)
    else if s == "noreferrer" then Some(AnchorRel.NoReferrer)
    else if s == "opener" then Some(AnchorRel.Opener)
    else if s == "prev" then Some(AnchorRel.Prev)
    else if s == "privacy-policy" then Some(AnchorRel.PrivacyPolicy)
    else if s == "search" then Some(AnchorRel.Search)
    else if s == "tag" then Some(AnchorRel.Tag)
    else if s == "terms-of-service" then Some(AnchorRel.TermsOfService)
    else None
  }

  /** Reading the text of a `AnchorRel` back gives the same value: no two variants display alike. */
  lemma ParseAnchorRelText(r: AnchorRel)
    ensures ParseAnchorRel(AnchorRelText(r)) == Some(r)
  {
  }

  datatype FormRel =
    | External
    | Help
    | License
    | Next
    | NoFollow
    | NoOpener
    | NoReferrer
    | Opener
    | Prev
    | Search

  /** The text `FormRel` displays as. */
  function FormRelText(r: FormRel): (s: string)
    ensures |s| > 0 && ',' !in s
  {
    match r
    case External => "external"
    case Help => "help"
    case License => "license"
    case Next => "next"
    case NoFollow => "nofollow"
    case NoOpener => "noopener"
    case NoReferrer => "noreferrer"
    case Opener => "opener"
    case Prev => "prev"
    case Search => "search"
  }

  /** The `FormRel` whose text is `s`, if there is one. */
  function ParseFormRel(s: string): (r: Option<FormRel>)
    ensures r.Some? ==> FormRelText(r.value) == s
  {
    if s == "external" then Some(FormRel.External)
    else if s == "help" then Some(FormRel.Help)
    else if s == "license" then Some(FormRel.License)
    else if s == "next" then Some(FormRel.Next)
    else if s == "nofollow" then Some(FormRel.NoFollow)
    else if s == "noopener" then Some(FormRel.NoOpener)
    else if s == "noreferrer" then Some(FormRel.NoReferrer)
    else if s == "opener" then Some(FormRel.Opener)
    else if s == "prev" then Some(FormRel.Prev)
    else if s == "search" then Some(FormRel.Search)
    else None
  }

  /** Reading the text of a `FormRel` back gives the same value: no two variants display alike. */
  lemma ParseFormRelText(r: FormRel)
    ensures ParseFormRel(FormRelText(r)) == Some(r)
  {
  }

  /** The marker values; each converts into the enumerations of its row in the table. */
  datatype RelName =
    | Alternate
    | Author
    | Bookmark
    | Canonical
    | DnsPrefetch
    | Expect
    | External
    | Help
    | Icon
    | License
    | Manifest
    | Me
    | ModulePreload
    | Next
    | NoFollow
    | NoOpener
    | NoReferrer
    | Opener
    | PingBack
    | Preconnect
    | Prefetch
    | Preload
    | Prerender
    | Prev
    | PrivacyPolicy
    | Search
    | StyleSheet
    | Tag
    | TermsOfService

  /** `From<marker> for LinkRel`, where the table has it. */
  function IntoLinkRel(n: RelName): Option<LinkRel> {
    match n
    case Alternate => Some(LinkRel.Alternate)
    case Author => Some(LinkRel.Author)
    case Canonical => Some(LinkRel.Canonical)
    case DnsPrefetch => Some(LinkRel.DnsPrefetch)
    case Expect => Some(LinkRel.Expect)
    case Help => Some(LinkRel.Help)
    case Icon => Some(LinkRel.Icon)
    case License => Some(LinkRel.License)
    case Manifest => Some(LinkRel.Manifest)
    case Me => Some(LinkRel.Me)
    case ModulePreload => Some(LinkRel.ModulePreload)
    case Next => Some(LinkRel.Next)
    case PingBack => Some(LinkRel.PingBack)
    case Preconnect => Some(LinkRel.Preconnect)
    case Prefetch => Some(LinkRel.Prefetch)
    case Preload => Some(LinkRel.Preload)
    case Prerender => Some(LinkRel.Prerender)
    case Prev => Some(LinkRel.Prev)
    case PrivacyPolicy => Some(LinkRel.PrivacyPolicy)
    case Search => Some(LinkRel.Search)
    case StyleSheet => Some(LinkRel.StyleSheet)
    case TermsOfService => Some(LinkRel.TermsOfService)
    case _ => None
  }

  /** `From<marker> for AnchorRel`, where the table has it. */
  function IntoAnchorRel(n: RelName): Option<AnchorRel> {
    match n
    case Alternate => Some(AnchorRel.Alternate)
    case Author => Some(AnchorRel.Author)
    case Bookmark => Some(AnchorRel.Bookmark)
    case External => Some(AnchorRel.External)
    case Help => Some(AnchorRel.Help)
    case License => Some(AnchorRel.License)
    case Me => Some(AnchorRel.Me)
    case Next => Some(AnchorRel.Next)
    case NoFollow => Some(AnchorRel.NoFollow)
    case NoOpener => Some(AnchorRel.NoOpener)
    case NoReferrer => Some(AnchorRel.NoReferrer)
    case Opener => Some(AnchorRel.Opener)
    case Prev => Some(AnchorRel.Prev)
    case PrivacyPolicy => Some(AnchorRel.PrivacyPolicy)
    case Search => Some(AnchorRel.Search)
    case Tag => Some(AnchorRel.Tag)
    case TermsOfService => Some(AnchorRel.TermsOfService)
    case _ => None
  }

  /** `From<marker> for FormRel`, where the table has it. */
  function IntoFormRel(n: RelName): Option<FormRel> {
    match n
    case External => Some(FormRel.External)
    case Help => Some(FormRel.Help)
    case License => Some(FormRel.License)
    case Next => Some(FormRel.Next)
    case NoFollow => Some(FormRel.NoFollow)
    case NoOpener => Some(FormRel.NoOpener)
    case NoReferrer => Some(FormRel.NoReferrer)
    case Opener => Some(FormRel.Opener)
    case Prev => Some(FormRel.Prev)
    case Search => Some(FormRel.Search)
    case _ => None
  }

  /** A marker displays alike in every enumeration it converts into. */
  lemma LinkAnchorAgree(n: RelName)
    ensures IntoLinkRel(n).Some? && IntoAnchorRel(n).Some? ==>
      LinkRelText(IntoLinkRel(n).value) == AnchorRelText(IntoAnchorRel(n).value)
  {
  }

  lemma LinkFormAgree(n: RelName)
    ensures IntoLinkRel(n).Some? && IntoFormRel(n).Some? ==>
      LinkRelText(IntoLinkRel(n).value) == FormRelText(IntoFormRel(n).value)
  {
  }

  lemma AnchorFormAgree(n: RelName)
    ensures IntoAnchorRel(n).Some? && IntoFormRel(n).Some? ==>
      AnchorRelText(IntoAnchorRel(n).value) == FormRelText(IntoFormRel(n).value)
  {
  }

  /** Every marker converts into at least one of the three enumerations. */
  lemma IntoSomewhere(n: RelName)
    ensures IntoLinkRel(n).Some? || IntoAnchorRel(n).Some? || IntoFormRel(n).Some?
  {
  }

  // ---- lists ----

  /**
   * `From<(T0, …, Tn)>` for a rel list: the values are taken in tuple order
   * and each is added only when the list does not hold it yet.
   */
  method FromTuple<T(==)>(values: seq<T>) returns (data: seq<T>)
    ensures data == Dedup(values)
    ensures NoDup(data)
    ensures forall x :: x in values ==> x in data
    ensures forall x :: x in data ==> x in values
  {
    data := [];
    for i := 0 to |values|
      invariant data == Dedup(values[..i])
    {
      var value := values[i];
      assert values[..i + 1][..i] == values[..i];
      if value !in data {
        data := data + [value];
      }
    }
    assert values[..|values|] == values;
    DedupNoDup(values);
    DedupElements(values);
  }

  /** `From<()>` gives the empty list and `From<marker>` a list of one. */
  lemma FromSmallTuples<T>(x: T)
    ensures Dedup<T>([]) == [] && Dedup([x]) == [x]
  {
    assert [x][..0] == [];
  }

  /** The texts of a list's values, in order. */
  function Texts<T>(data: seq<T>, text: T -> string): (ts: seq<string>)
    ensures |ts| == |data| && forall i :: 0 <= i < |data| ==> ts[i] == text(data[i])
  {
    seq(|data|, i requires 0 <= i < |data| => text(data[i]))
  }

  /**
   * `impl Display for *RelList`: the values' texts in order, a comma before
   * every one but the first.
   */
  method Display<T>(data: seq<T>, text: T -> string, f: Formatter)
    modifies f
    ensures f.out == old(f.out) + Join(Texts(data, text), ',')
  {
    for i := 0 to |data|
      invariant f.out == old(f.out) + Join(Texts(data[..i], text), ',')
    {
      assert Texts(data[..i + 1], text) == Texts(data[..i], text) + [text(data[i])];
      if i != 0 {
        f.WriteStr(",");
        JoinSnoc(Texts(data[..i], text), text(data[i]), ',');
      } else {
        assert Texts(data[..1], text) == [text(data[0])];
      }
      f.WriteStr(text(data[i]));
    }
    assert data[..|data|] == data;
  }

  /** `render_attr`: nothing for an empty list, otherwise ` attr="…"` around the displayed list. */
  method RenderAttr<T>(data: seq<T>, text: T -> string, attr: string, target: Formatter)
    modifies target
    ensures target.out == old(target.out) + AttrText(data, text, attr)
  {
    if |data| == 0 {
      return;
    }
    target.WriteStr(" " + attr + "=\"");
    Display(data, text, target);
    target.WriteStr("\"");
  }

  function AttrText<T>(data: seq<T>, text: T -> string, attr: string): string {
    if data == [] then "" else " " + attr + "=\"" + Join(Texts(data, text), ',') + "\""
  }

  /**
   * A displayed list reads back, piece by piece, as the same list, when no
   * value's text holds a comma and the texts can be read back one by one.
   */
  lemma ListRoundTrip<T>(data: seq<T>, text: T -> string, parse: string -> Option<T>)
    requires |data| >= 1
    requires forall x :: ',' !in text(x) && parse(text(x)) == Some(x)
    ensures var pieces := Split(Join(Texts(data, text), ','), ',');
      |pieces| == |data| && forall i :: 0 <= i < |data| ==> parse(pieces[i]) == Some(data[i])
  {
    SplitJoin(Texts(data, text), ',');
  }

  lemma LinkRelListRoundTrip(data: seq<LinkRel>)
    requires |data| >= 1
    ensures var pieces := Split(Join(Texts(data, LinkRelText), ','), ',');
      |pieces| == |data| && forall i :: 0 <= i < |data| ==> ParseLinkRel(pieces[i]) == Some(data[i])
  {
    forall x: LinkRel ensures ',' !in LinkRelText(x) && ParseLinkRel(LinkRelText(x)) == Some(x) {
      ParseLinkRelText(x);
    }
    ListRoundTrip(data, LinkRelText, ParseLinkRel);
  }

  lemma AnchorRelListRoundTrip(data: seq<AnchorRel>)
    requires |data| >= 1
    ensures var pieces := Split(Join(Texts(data, AnchorRelText), ','), ',');
      |pieces| == |data| && forall i :: 0 <= i < |data| ==> ParseAnchorRel(pieces[i]) == Some(data[i])
  {
    forall x: AnchorRel ensures ',' !in AnchorRelText(x) && ParseAnchorRel(AnchorRelText(x)) == Some(x) {
      ParseAnchorRelText(x);
    }
    ListRoundTrip(data, AnchorRelText, ParseAnchorRel);
  }

  lemma FormRelListRoundTrip(data: seq<FormRel>)
    requires |data| >= 1
    ensures var pieces := Split(Join(Texts(data, FormRelText), ','), ',');
      |pieces| == |data| && forall i :: 0 <= i < |data| ==> ParseFormRel(pieces[i]) == Some(data[i])
  {
    forall x: FormRel ensures ',' !in FormRelText(x) && ParseFormRel(FormRelText(x)) == Some(x) {
      ParseFormRelText(x);
    }
    ListRoundTrip(data, FormRelText, ParseFormRel);
  }

  /** The attribute is written exactly when the list is not empty, and then holds the displayed list. */
  lemma AttrTextShape<T>(data: seq<T>, text: T -> string, attr: string)
    ensures AttrText(data, text, attr) == "" <==> data == []
    ensures data != [] ==> AttrText(data, text, attr)[..|attr| + 3] == " " + attr + "=\""
  {
    if data != [] {
      var s := " " + attr + "=\"";
      assert AttrText(data, text, attr) == s + (Join(Texts(data, text), ',') + "\"");
    }
  }

  /** The list `(DnsPrefetch, Me, DnsPrefetch)` on a link: the repeat is dropped. */
  lemma LinkRelExample()
    ensures AttrText(Dedup([LinkRel.DnsPrefetch, LinkRel.Me, LinkRel.DnsPrefetch]), LinkRelText, "rel")
      == " rel=\"dns-prefetch,me\""
  {
    var values := [LinkRel.DnsPrefetch, LinkRel.Me, LinkRel.DnsPrefetch];
    assert values[..2] == [LinkRel.DnsPrefetch, LinkRel.Me];
    assert values[..2][..1] == [LinkRel.DnsPrefetch];
    assert values[..2][..1][..0] == [];
    var data := [LinkRel.DnsPrefetch, LinkRel.Me];
    assert Dedup(values) == data;
    var ts := Texts(data, LinkRelText);
    assert ts == ["dns-prefetch", "me"];
    assert Join(ts, ',') == "dns-prefetch" + [','] + "me";
  }
}
