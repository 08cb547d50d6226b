/**
  The text block of the detail page: the description as HTML (the localised
  description with every line break turned into `<br />`), the English
  alternative titles joined by ", " and shown only when there is one, and a
  badge per tag coloured by the tag's group.
*/
module MangaAttributes {
  import opened Wrappers
  import Text
  import opened MangaTypes

  const NoDescription := "Tidak ada deskripsi."
  const LineBreak := "<br />"
  const AltTitleSeparator := ", "

  // ---------------------------------------------------------------------------
  // description

  /** The number of line feeds in `s`. */
  function NewlineCount(s: string): nat
  {
    if |s| == 0 then 0 else (if s[0] == '\n' then 1 else 0) + NewlineCount(s[1..])
  }

  /** `s.replace(/\n/g, "<br />")`: no line feed is left, and each one became six characters. */
  function ReplaceNewlines(s: string): (r: string)
    ensures '\n' !in r
    ensures |r| == |s| + 5 * NewlineCount(s)
  {
    if |s| == 0 then ""
    else if s[0] == '\n' then LineBreak + ReplaceNewlines(s[1..])
    else [s[0]] + ReplaceNewlines(s[1..])
  }

  /** Text without line feeds is left as it is. */
  lemma {:induction false} ReplaceWithoutNewlines(s: string)
    requires '\n' !in s
    ensures ReplaceNewlines(s) == s
  {
    if |s| > 0 {
      assert '\n' !in s[1..];
      ReplaceWithoutNewlines(s[1..]);
    }
  }

  /** The replacement works piece by piece: it distributes over concatenation. */
  lemma {:induction false} ReplaceConcat(a: string, b: string)
    ensures ReplaceNewlines(a + b) == ReplaceNewlines(a) + ReplaceNewlines(b)
  {
    if |a| == 0 {
      assert a + b == b;
    } else {
      assert (a + b)[0] == a[0];
      assert (a + b)[1..] == a[1..] + b;
      ReplaceConcat(a[1..], b);
    }
  }

  /** A line feed becomes exactly one `<br />`. */
  lemma NewlineIsBreak()
    ensures ReplaceNewlines("\n") == LineBreak
  {
    assert "\n"[1..] == "";
  }

  /**
    The description HTML: the English description, else the first one when it
    is non-empty, else "Tidak ada deskripsi.", with line breaks as `<br />`.
  */
  function DescriptionHtml(m: Manga): (r: string)
    ensures '\n' !in r
    ensures r != ""
    ensures '\n' !in Localized(m.attributes.description, NoDescription) ==>
      r == Localized(m.attributes.description, NoDescription)
    ensures |r| == |Localized(m.attributes.description, NoDescription)|
      + 5 * NewlineCount(Localized(m.attributes.description, NoDescription))
  {
    var text := Localized(m.attributes.description, NoDescription);
    assert |ReplaceNewlines(text)| >= |text| > 0;
    assert '\n' !in text ==> ReplaceNewlines(text) == text by {
      if '\n' !in text {
        ReplaceWithoutNewlines(text);
      }
    }
    ReplaceNewlines(text)
  }

  /** A manga without any description text shows the fallback sentence unchanged. */
  lemma NoDescriptionShown(m: Manga)
    requires !Truthy(Lookup(m.attributes.description, "en")) && !Truthy(FirstValue(m.attributes.description))
    ensures DescriptionHtml(m) == NoDescription
  {
    ReplaceWithoutNewlines(NoDescription);
  }

  // ---------------------------------------------------------------------------
  // alternative titles

  /** `altTitles.filter(alt => alt.en).map(alt => alt.en)`: the non-empty English alternative titles, in order. */
  function EnglishAltTitles(alts: seq<LocalizedString>): (r: seq<string>)
    ensures |r| <= |alts|
    ensures forall k :: 0 <= k < |r| ==> r[k] != ""
    ensures |r| == 0 <==> forall k :: 0 <= k < |alts| ==> !Truthy(Lookup(alts[k], "en"))
  {
    if |alts| == 0 then []
    else
      var rest := EnglishAltTitles(alts[1..]);
      assert forall k :: 1 <= k < |alts| ==> alts[k] == alts[1..][k - 1];
      var en := Lookup(alts[0], "en");
      if Truthy(en) then [en.value] + rest else rest
  }

  /** The filter keeps the order of the alternative titles. */
  lemma {:induction false} EnglishAltTitlesConcat(a: seq<LocalizedString>, b: seq<LocalizedString>)
    ensures EnglishAltTitles(a + b) == EnglishAltTitles(a) + EnglishAltTitles(b)
  {
    if |a| == 0 {
      assert a + b == b;
    } else {
      assert (a + b)[0] == a[0];
      assert (a + b)[1..] == a[1..] + b;
      EnglishAltTitlesConcat(a[1..], b);
    }
  }

  /** `.join(", ")` of the English alternative titles. */
  function AltTitlesEn(m: Manga): string
  {
    Text.Join(EnglishAltTitles(m.attributes.altTitles), AltTitleSeparator)
  }

  /**
    The alternative-title line is shown exactly when some alternative title
    has a non-empty English text, and one such title is shown as it is.
  */
  lemma AltTitlesShown(m: Manga)
    ensures AltTitlesEn(m) != "" <==> exists k :: 0 <= k < |m.attributes.altTitles| && Truthy(Lookup(m.attributes.altTitles[k], "en"))
    ensures |EnglishAltTitles(m.attributes.altTitles)| == 1 ==> AltTitlesEn(m) == EnglishAltTitles(m.attributes.altTitles)[0]
  {
    Text.JoinEmpty(EnglishAltTitles(m.attributes.altTitles), AltTitleSeparator);
  }

  // ---------------------------------------------------------------------------
  // tags

  /** The colour a tag badge takes. */
  datatype TagTone = Sky | Emerald | Amber | Gray

  /** The badge colour by group: genre, theme and format have their own, any other group the fallback. */
  function TagToneOf(group: string): (r: TagTone)
    ensures r == Sky <==> group == "genre"
    ensures r == Emerald <==> group == "theme"
    ensures r == Amber <==> group == "format"
    ensures r == Gray <==> group != "genre" && group != "theme" && group != "format"
  {
    if group == "genre" then Sky
    else if group == "theme" then Emerald
    else if group == "format" then Amber
    else Gray
  }

  /** The colour classes of each tone. */
  function ToneClasses(t: TagTone): string
  {
    match t
    case Sky => "bg-sky-600 hover:bg-sky-700 text-sky-100"
    case Emerald => "bg-emerald-600 hover:bg-emerald-700 text-emerald-100"
    case Amber => "bg-amber-600 hover:bg-amber-700 text-amber-100"
    case Gray => "bg-gray-600 hover:bg-gray-700 text-gray-200"
  }

  /**
    A tag's badge text, `name.en || name[firstKey]`: the English name when it
    is non-empty, otherwise the first name as it is (possibly empty), and
    nothing for a tag without names. There is no fixed fallback text.
  */
  function TagLabel(tag: Tag): (r: Option<string>)
    ensures Truthy(Lookup(tag.attributes.name, "en")) ==> r == Lookup(tag.attributes.name, "en")
    ensures !Truthy(Lookup(tag.attributes.name, "en")) ==> r == FirstValue(tag.attributes.name)
    ensures r.None? <==> |tag.attributes.name| == 0
  {
    var en := Lookup(tag.attributes.name, "en");
    if Truthy(en) then en else FirstValue(tag.attributes.name)
  }

  /**
    Where the badge text is non-empty it is what the localised-string chain
    gives for any fallback; where it is empty or missing, that chain would
    have used its fallback.
  */
  lemma TagLabelIsLocalized(tag: Tag, fallback: string)
    ensures Truthy(TagLabel(tag)) ==> Localized(tag.attributes.name, fallback) == TagLabel(tag).value
    ensures !Truthy(TagLabel(tag)) ==> Localized(tag.attributes.name, fallback) == fallback
  {
  }
}
