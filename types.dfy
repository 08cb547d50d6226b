/**
  The MangaDex records the client reads: manga, chapters, tags, relationships,
  the list/entity/page-server envelopes and their `errors` array, together with
  the two fallbacks every view uses on them — the localised-string chain
  `ls.en || ls[firstKey] || default` and `errors?.[0]?.detail || default`.

  A JSON object keyed by language (a `LocalizedString`) is an ordered list of
  `(key, text)` pairs, because the "first key" the views fall back to is the
  first key in insertion order.
*/
module MangaTypes {
  import opened Wrappers

  type LocalizedString = seq<(string, string)>

  /** `ls[key]`: the text under `key`, `None` for `undefined`. */
  function Lookup(ls: LocalizedString, key: string): (r: Option<string>)
    ensures r.None? <==> forall i :: 0 <= i < |ls| ==> ls[i].0 != key
    ensures r.Some? ==> exists i :: 0 <= i < |ls| && ls[i] == (key, r.value)
  {
    if |ls| == 0 then None
    else if ls[0].0 == key then Some(ls[0].1)
    else
      var r := Lookup(ls[1..], key);
      assert forall i :: 0 < i < |ls| ==> ls[i] == ls[1..][i - 1];
      r
  }

  /** `ls[Object.keys(ls)[0]]`: the text under the first key, `None` for an empty object. */
  function FirstValue(ls: LocalizedString): (r: Option<string>)
    ensures r.None? <==> |ls| == 0
  {
    if |ls| == 0 then None else Some(ls[0].1)
  }

  /** JavaScript truthiness of a string that may be `undefined`/`null`. */
  predicate Truthy(s: Option<string>)
  {
    s.Some? && s.value != ""
  }

  /**
    `ls.en || ls[Object.keys(ls)[0]] || fallback`. The result is the English
    text when there is one, else the first text when it is non-empty, else the
    fallback; so it is never empty when the fallback is not.
  */
  function Localized(ls: LocalizedString, fallback: string): (r: string)
    ensures Truthy(Lookup(ls, "en")) ==> r == Lookup(ls, "en").value
    ensures !Truthy(Lookup(ls, "en")) && Truthy(FirstValue(ls)) ==> r == ls[0].1
    ensures !Truthy(Lookup(ls, "en")) && !Truthy(FirstValue(ls)) ==> r == fallback
    ensures fallback != "" ==> r != ""
  {
    var en := Lookup(ls, "en");
    if Truthy(en) then en.value
    else if Truthy(FirstValue(ls)) then ls[0].1
    else fallback
  }

  // ---------------------------------------------------------------------------
  // entities

  /** The `name` attribute of an expanded relationship: absent, a string, or some other JSON value. */
  datatype NameField = NoName | TextName(text: string) | OtherName

  /**
    The attributes of an expanded relationship that the client reads: a cover's
    `fileName` (`None` when the key is absent) and an author's, artist's or
    group's `name`.
  */
  datatype RelAttributes = RelAttributes(fileName: Option<string>, name: NameField)

  /** `MangaRelationship`: `attributes` is present only when the relation was included. */
  datatype Relationship = Relationship(id: string, kind: string, attributes: Option<RelAttributes>)

  datatype TagAttributes = TagAttributes(name: LocalizedString, group: string)

  datatype Tag = Tag(id: string, attributes: TagAttributes)

  datatype MangaAttributes = MangaAttributes(
    title: LocalizedString,
    altTitles: seq<LocalizedString>,
    description: LocalizedString,
    status: string,
    year: Option<int>,
    contentRating: string,
    tags: seq<Tag>)

  datatype Manga = Manga(id: string, attributes: MangaAttributes, relationships: seq<Relationship>)

  datatype ChapterAttributes = ChapterAttributes(
    volume: Option<string>,
    chapter: Option<string>,
    title: Option<string>,
    translatedLanguage: string,
    publishAt: string,
    pages: int)

  datatype Chapter = Chapter(id: string, attributes: ChapterAttributes, relationships: seq<Relationship>)

  // ---------------------------------------------------------------------------
  // envelopes

  /** `MangaDexError`. */
  datatype ApiError = ApiError(id: string, status: int, title: string, detail: string)

  /** `MangaDexListResponse<T>`; `errors` is optional. */
  datatype ListResponse<T> = ListResponse(
    result: string,
    data: seq<T>,
    limit: int,
    offset: int,
    total: int,
    errors: Option<seq<ApiError>>)

  /** `MangaDexEntityResponse<T>`. */
  datatype EntityResponse<T> = EntityResponse(result: string, data: T, errors: Option<seq<ApiError>>)

  datatype AtHomeChapter = AtHomeChapter(hash: string, data: seq<string>, dataSaver: seq<string>)

  /** The page-server (`at-home/server`) response. */
  datatype AtHomeResponse = AtHomeResponse(
    result: string,
    baseUrl: string,
    chapter: AtHomeChapter,
    errors: Option<seq<ApiError>>)

  /**
    `response?.errors?.[0]?.detail || fallback`, given the `errors` field of the
    response (`None` also when there is no response at all). The message is
    never blank when the fallback is not, so the error box always shows.
  */
  function FirstErrorDetail(errors: Option<seq<ApiError>>, fallback: string): (r: string)
    ensures errors.Some? && |errors.value| > 0 && errors.value[0].detail != "" ==> r == errors.value[0].detail
    ensures !(errors.Some? && |errors.value| > 0 && errors.value[0].detail != "") ==> r == fallback
    ensures fallback != "" ==> r != ""
  {
    if errors.Some? && |errors.value| > 0 && errors.value[0].detail != "" then errors.value[0].detail
    else fallback
  }
}
