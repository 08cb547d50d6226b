/**
  The home page's own manga card. It shows what the grid card shows, but its
  cover check is on the file name's truthiness rather than on the key's
  presence, so an empty file name gives the placeholder here.
*/
module HomePage {
  import opened Wrappers
  import opened MangaTypes
  import Utils
  import MangaCard

  /**
    `getCoverUrl` of the home page: the placeholder when there is no
    `cover_art` relationship, no attributes, or a missing or empty
    `fileName`; otherwise the 256 px uploads URL of that file, which is the
    shared cover helper's URL at that size.
  */
  function CoverUrl(m: Manga): (r: string)
    ensures !Truthy(Utils.CoverFileName(m)) ==> r == MangaCard.NoCover
    ensures Truthy(Utils.CoverFileName(m)) ==>
      r == Utils.CoversBase + m.id + "/" + Utils.CoverFileName(m).value + MangaCard.CoverSize
      && r == Utils.MainCoverUrl(Some(m), MangaCard.CoverSize)
  {
    var fileName := Utils.CoverFileName(m);
    if Truthy(fileName) then Utils.CoversBase + m.id + "/" + fileName.value + MangaCard.CoverSize
    else MangaCard.NoCover
  }

  /**
    The two card variants pick the same cover except for one case: a first
    cover whose `fileName` is the empty string, where the grid card builds an
    uploads URL and the home card shows the placeholder.
  */
  lemma CoverVariants(m: Manga)
    ensures CoverUrl(m) != MangaCard.CoverUrl(m) <==> Utils.CoverFileName(m) == Some("")
  {
    MangaCard.CoverCases(m);
    MangaCard.HostLetters();
    if Utils.CoverFileName(m) == Some("") {
      assert !MangaCard.Unoptimized(MangaCard.CoverUrl(m));
      assert MangaCard.Unoptimized(CoverUrl(m));
    }
  }
}
