/**
  The display helpers shared by the pages: the main cover URL of a manga, the
  name of a related author, artist or group, and the title of a manga. Each
  looks at the first matching relationship only and falls back to a fixed
  text instead of failing.
*/
module Utils {
  import opened Wrappers
  import Text
  import opened MangaTypes

  const PlaceholderBase := "https://placehold.co/300x450/1F2937/E5E7EB?text="
  const LoadingCover := PlaceholderBase + "Memuat...&font=roboto"
  const NoCover := PlaceholderBase + "Tanpa+Sampul&font=roboto"
  const CoversBase := "https://uploads.mangadex.org/covers/"
  const DefaultCoverSize := ".512.jpg"
  const UnknownName := "Tidak diketahui"
  const UntitledTitle := "Tanpa Judul"

  /** `relationships.find(r => r.type === kind)`, as the index of the first match. */
  function FirstOfKind(rels: seq<Relationship>, kind: string): (r: Option<nat>)
    ensures r.Some? ==> r.value < |rels| && rels[r.value].kind == kind
    ensures r.Some? ==> forall j :: 0 <= j < r.value ==> rels[j].kind != kind
    ensures r.None? ==> forall j :: 0 <= j < |rels| ==> rels[j].kind != kind
  {
    if |rels| == 0 then None
    else if rels[0].kind == kind then Some(0)
    else
      match FirstOfKind(rels[1..], kind)
      case None => None
      case Some(i) => Some(i + 1)
  }

  /** Relationships added after the first match do not change which one is found. */
  lemma {:induction false} FirstOfKindPrefix(rels: seq<Relationship>, more: seq<Relationship>, kind: string)
    requires FirstOfKind(rels, kind).Some?
    ensures FirstOfKind(rels + more, kind) == FirstOfKind(rels, kind)
  {
    assert (rels + more)[0] == rels[0];
    if rels[0].kind != kind {
      assert (rels + more)[1..] == rels[1..] + more;
      FirstOfKindPrefix(rels[1..], more, kind);
    }
  }

  /** `rel?.attributes?.fileName` of the first `cover_art` relationship. */
  function CoverFileName(m: Manga): Option<string>
  {
    match FirstOfKind(m.relationships, "cover_art")
    case None => None
    case Some(i) =>
      match m.relationships[i].attributes
      case None => None
      case Some(a) => a.fileName
  }

  /**
    `getMainCoverUrl(mangaItem, size)`: the loading placeholder for no manga;
    the uploads URL of the first cover's file, with `size` appended, when that
    file name is non-empty; the "no cover" placeholder otherwise.
  */
  function MainCoverUrl(mangaItem: Option<Manga>, size: string): (r: string)
    ensures mangaItem.None? ==> r == LoadingCover
    ensures mangaItem.Some? && Truthy(CoverFileName(mangaItem.value)) ==>
      r == CoversBase + mangaItem.value.id + "/" + CoverFileName(mangaItem.value).value + size
    ensures mangaItem.Some? && !Truthy(CoverFileName(mangaItem.value)) ==> r == NoCover
  {
    match mangaItem
    case None => LoadingCover
    case Some(m) =>
      var fileName := CoverFileName(m);
      if Truthy(fileName) then CoversBase + m.id + "/" + fileName.value + size else NoCover
  }

  /**
    `getMainCoverUrl(mangaItem)` with its default size: a cover with a file
    name is the 512 px thumbnail of that file, and the other cases are those
    of any size.
  */
  lemma DefaultSizeCover(mangaItem: Option<Manga>)
    ensures mangaItem.Some? && Truthy(CoverFileName(mangaItem.value)) ==>
      var url := MainCoverUrl(mangaItem, DefaultCoverSize);
      && |url| >= |DefaultCoverSize|
      && url[|url| - |DefaultCoverSize|..] == ".512.jpg"
      && url[..|url| - |DefaultCoverSize|] == CoversBase + mangaItem.value.id + "/" + CoverFileName(mangaItem.value).value
    ensures !(mangaItem.Some? && Truthy(CoverFileName(mangaItem.value))) ==>
      MainCoverUrl(mangaItem, DefaultCoverSize) == MainCoverUrl(mangaItem, "")
  {
    if mangaItem.Some? && Truthy(CoverFileName(mangaItem.value)) {
      var head := CoversBase + mangaItem.value.id + "/" + CoverFileName(mangaItem.value).value;
      var url := MainCoverUrl(mangaItem, DefaultCoverSize);
      assert url == head + DefaultCoverSize;
    }
  }

  /**
    A manga always gets a URL that is not the loading placeholder, and it gets
    the "no cover" placeholder exactly when its first cover has no file name;
    otherwise the URL is on the uploads host.
  */
  lemma CoverUrlCases(m: Manga, size: string)
    ensures MainCoverUrl(Some(m), size) != LoadingCover
    ensures MainCoverUrl(Some(m), size) == NoCover <==> !Truthy(CoverFileName(m))
    ensures Truthy(CoverFileName(m)) ==> Text.StartsWith(MainCoverUrl(Some(m), size), CoversBase)
  {
    var r := MainCoverUrl(Some(m), size);
    if Truthy(CoverFileName(m)) {
      var rest := m.id + "/" + CoverFileName(m).value + size;
      assert r == CoversBase + rest;
      Text.PrefixOfConcat(CoversBase, rest);
      assert r[8] == CoversBase[8] == 'u';
      PlaceholderHost();
    } else {
      PlaceholderHost();
    }
  }

  /** The two placeholders are on the placeholder host and differ in their text. */
  lemma PlaceholderHost()
    ensures |NoCover| > 48 && |LoadingCover| > 48
    ensures NoCover[8] == 'p' && LoadingCover[8] == 'p'
    ensures NoCover[48] == 'T' && LoadingCover[48] == 'M'
  {
    assert NoCover[8] == PlaceholderBase[8] && LoadingCover[8] == PlaceholderBase[8];
  }

  /** With `size` empty, the URL is that of the original file. */
  lemma OriginalSize(m: Manga)
    requires Truthy(CoverFileName(m))
    ensures MainCoverUrl(Some(m), "") == CoversBase + m.id + "/" + CoverFileName(m).value
  {
    var s := CoversBase + m.id + "/" + CoverFileName(m).value;
    assert s + "" == s;
  }

  /** Only the first `cover_art` relationship counts: relationships after it never change the URL. */
  lemma FirstCoverOnly(m: Manga, more: seq<Relationship>, size: string)
    requires FirstOfKind(m.relationships, "cover_art").Some?
    ensures MainCoverUrl(Some(m.(relationships := m.relationships + more)), size) == MainCoverUrl(Some(m), size)
  {
    var i := FirstOfKind(m.relationships, "cover_art").value;
    FirstOfKindPrefix(m.relationships, more, "cover_art");
    assert (m.relationships + more)[i] == m.relationships[i];
  }

  /**
    `getRelationshipName(item, kind)`: the `name` of the first relationship of
    that kind when it is a string (possibly empty), otherwise "Tidak diketahui".
  */
  function RelationshipName(rels: seq<Relationship>, kind: string): (r: string)
  {
    match FirstOfKind(rels, kind)
    case None => UnknownName
    case Some(i) =>
      match rels[i].attributes
      case Some(RelAttributes(_, TextName(name))) => name
      case _ => UnknownName
  }

  /**
    The name comes from the first relationship of the kind and from nowhere
    else: a string name there is returned as it is, anything else gives the
    fixed text, and relationships after it are never looked at.
  */
  lemma RelationshipNameFirst(rels: seq<Relationship>, kind: string, more: seq<Relationship>)
    ensures FirstOfKind(rels, kind).None? ==> RelationshipName(rels, kind) == UnknownName
    ensures FirstOfKind(rels, kind).Some? ==>
      var rel := rels[FirstOfKind(rels, kind).value];
      && (rel.attributes.Some? && rel.attributes.value.name.TextName? ==> RelationshipName(rels, kind) == rel.attributes.value.name.text)
      && (!(rel.attributes.Some? && rel.attributes.value.name.TextName?) ==> RelationshipName(rels, kind) == UnknownName)
      && RelationshipName(rels + more, kind) == RelationshipName(rels, kind)
  {
    if FirstOfKind(rels, kind).Some? {
      var i := FirstOfKind(rels, kind).value;
      FirstOfKindPrefix(rels, more, kind);
      assert (rels + more)[i] == rels[i];
    }
  }

  /** `getMangaTitle(manga)`: the English title, else the first one, else "Tanpa Judul"; never empty. */
  function MangaTitle(m: Manga): (r: string)
    ensures r != ""
    ensures Truthy(Lookup(m.attributes.title, "en")) ==> r == Lookup(m.attributes.title, "en").value
    ensures !Truthy(Lookup(m.attributes.title, "en")) && Truthy(FirstValue(m.attributes.title)) ==> r == m.attributes.title[0].1
    ensures !Truthy(Lookup(m.attributes.title, "en")) && !Truthy(FirstValue(m.attributes.title)) ==> r == UntitledTitle
  {
    Localized(m.attributes.title, UntitledTitle)
  }
}
