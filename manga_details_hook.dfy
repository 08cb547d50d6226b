/**
  The detail page's loader: for a manga id it clears its state and starts
  loading, fetches the manga, and only when that succeeds fetches its chapter
  feed. A failed manga fetch sets an error; a failed chapter fetch only leaves
  the chapter list empty. Loading ends on every path. Without an id nothing is
  fetched and the state is cleared.
*/
module MangaDetailsHook {
  import opened Wrappers
  import Text
  import opened MangaTypes
  import Api

  const NotFoundMessage := "Manga tidak ditemukan atau gagal dimuat."

  /** The feed options of the chapter fetch: 50 chapters, newest volume and chapter first, English and Indonesian, with groups. */
  const ChapterOptions := Api.FeedOptions(
    Some(50), None, Some(["en", "id"]), Some([("volume", "desc"), ("chapter", "desc")]), Some(["scanlation_group"]), None)

  /** An entity response that arrived and says `result: "ok"`. */
  predicate EntityOk<T>(outcome: Api.Fetched<EntityResponse<T>>)
  {
    outcome.Ok? && outcome.body.result == "ok"
  }

  /** A list response that arrived and says `result: "ok"`. */
  predicate ListOk<T>(outcome: Api.Fetched<ListResponse<T>>)
  {
    outcome.Ok? && outcome.body.result == "ok"
  }

  /** The `errors` of a response, `None` when there is no response. */
  function ErrorsOf<T>(outcome: Api.Fetched<EntityResponse<T>>): Option<seq<ApiError>>
  {
    if outcome.Ok? then outcome.body.errors else None
  }

  lemma ChapterLanguageParts()
    ensures Api.EachPart("translatedLanguage[]=", ["en", "id"], false) == ["translatedLanguage[]=en", "translatedLanguage[]=id"]
  {
    var r := Api.EachPart("translatedLanguage[]=", ["en", "id"], false);
    assert r[0] == "translatedLanguage[]=" + "en" == "translatedLanguage[]=en";
    assert r[1] == "translatedLanguage[]=" + "id" == "translatedLanguage[]=id";
  }

  lemma ChapterParts()
    ensures Api.FeedQueryParts(ChapterOptions)
         == ["limit=50", "offset=0", "order[volume]=desc", "order[chapter]=desc",
             "translatedLanguage[]=en", "translatedLanguage[]=id", "includes[]=scanlation_group"]
  {
    Api.DefaultFeedLimitParts();
    Api.DefaultFeedOrderParts();
    Api.DefaultFeedArrayParts();
    ChapterLanguageParts();
    assert Api.EachPart("contentRating[]=", [], false) == [];
  }

  /**
    The chapter request of the loader: the feed of the manga with 50
    chapters from the start, volume then chapter descending, languages `en`
    and `id`, and scanlation groups included.
  */
  lemma ChapterRequestUrl(id: string)
    ensures Api.FeedUrl(id, ChapterOptions)
         == "/api/md-proxy/manga/" + id + "/feed?"
          + Text.Join(["limit=50", "offset=0", "order[volume]=desc", "order[chapter]=desc",
                       "translatedLanguage[]=en", "translatedLanguage[]=id", "includes[]=scanlation_group"], "&")
  {
    var parts := ["limit=50", "offset=0", "order[volume]=desc", "order[chapter]=desc",
                  "translatedLanguage[]=en", "translatedLanguage[]=id", "includes[]=scanlation_group"];
    ChapterParts();
    Api.NonEmptyPartsKeep(parts);
    Text.JoinEmpty(parts, "&");
    Api.FeedUrlShape(id, Text.Join(parts, "&"));
  }

  /** The state `useMangaDetails` returns. */
  class MangaDetailsHook {
    var manga: Option<Manga>
    var chapters: seq<Chapter>
    var loading: bool
    var error: Option<string>

    /** An error comes with no manga and no chapters, and chapters only come with their manga. */
    predicate Valid()
      reads this
    {
      (error.Some? ==> manga.None? && chapters == []) && (|chapters| > 0 ==> manga.Some?)
    }

    /** The initial state: loading, nothing loaded, no error. */
    constructor()
      ensures Valid()
      ensures manga.None? && chapters == [] && loading && error.None?
    {
      manga := None;
      chapters := [];
      loading := true;
      error := None;
    }

    /** The first statements of a load: loading starts and everything else is cleared. */
    method Reset()
      modifies this
      ensures Valid()
      ensures loading && error.None? && manga.None? && chapters == []
    {
      loading := true;
      error := None;
      manga := None;
      chapters := [];
    }

    /**
      The effect for `mangaId`, with the outcomes of the two requests as
      inputs. With an id: the state is cleared, the manga is requested, and
      only an `ok` manga leads to the chapter request; an `ok` feed gives the
      chapters and anything else no chapters and no error; a manga that is not
      `ok` gives the first error detail or the default message and no chapter
      request. Without an id: nothing is requested and the state is cleared.
      Loading has ended afterwards in every case.
    */
    method RunEffect(mangaId: Option<string>, details: Api.Fetched<EntityResponse<Manga>>, feed: Api.Fetched<ListResponse<Chapter>>)
      returns (detailsRequest: Option<string>, chaptersRequest: Option<string>)
      requires Valid()
      modifies this
      ensures Valid()
      ensures !loading
      ensures !Truthy(mangaId) ==>
        detailsRequest.None? && chaptersRequest.None? && manga.None? && chapters == [] && error.None?
      ensures Truthy(mangaId) ==> detailsRequest == Api.GetMangaDetails(mangaId.value, details).request
      ensures Truthy(mangaId) && EntityOk(details) ==>
        && manga == Some(details.body.data) && error.None?
        && chaptersRequest == Some(Api.FeedUrl(mangaId.value, ChapterOptions))
        && (ListOk(feed) ==> chapters == feed.body.data)
        && (!ListOk(feed) ==> chapters == [])
      ensures Truthy(mangaId) && !EntityOk(details) ==>
        && manga.None? && chapters == [] && chaptersRequest.None?
        && error == Some(FirstErrorDetail(ErrorsOf(details), NotFoundMessage))
      ensures error.Some? ==> error.value != ""
    {
      chaptersRequest := None;
      if Truthy(mangaId) {
        var id := mangaId.value;
        Reset();
        var call := Api.GetMangaDetails(id, details);
        detailsRequest := call.request;
        var response := call.result;
        if response.Some? && response.value.result == "ok" {
          manga := Some(response.value.data);
          var feedResponse;
          chaptersRequest, feedResponse := Api.GetMangaChapters(id, ChapterOptions, feed);
          if feedResponse.Some? && feedResponse.value.result == "ok" {
            chapters := feedResponse.value.data;
          } else {
            chapters := [];
          }
        } else {
          var errors := if response.Some? then response.value.errors else None;
          error := Some(FirstErrorDetail(errors, NotFoundMessage));
        }
        loading := false;
      } else {
        detailsRequest := None;
        loading := false;
        manga := None;
        chapters := [];
        error := None;
      }
    }
  }
}
