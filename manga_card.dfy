/**
  What a manga card in the list grid shows: a cover at 256 px, the localised
  title (the `en || first || "Tanpa Judul"` chain, which is `Utils.MangaTitle`), the year or "N/A", at most three genre names, and a link to the
  manga's page. The cover falls back to a placeholder when the first cover
  relationship has no `fileName` key at all; an empty file name still makes
  an uploads URL.
*/
module MangaCard {
  import opened Wrappers
  import Text
  import opened MangaTypes
  import Utils

  const PlaceholderHost := "https://placehold.co"
  const CardPlaceholderBase := PlaceholderHost + "/256x362/1F2937/E5E7EB?text="
  const NoCover := CardPlaceholderBase + "Tanpa+Sampul"
  const CoverSize := ".256.jpg"
  const NoYear := "N/A"
  const NoGenreLabel := "Tanpa Genre"
  const MaxGenres := 3

  /**
    `getCoverUrl`: the placeholder when there is no `cover_art` relationship,
    it has no attributes, or they have no `fileName` key; otherwise the
    256 px uploads URL of that file, whatever the file name is.
  */
  function CoverUrl(m: Manga): (r: string)
    ensures Utils.CoverFileName(m).None? ==> r == NoCover
    ensures Utils.CoverFileName(m).Some? ==>
      r == Utils.CoversBase + m.id + "/" + Utils.CoverFileName(m).value + CoverSize
  {
    match Utils.CoverFileName(m)
    case None => NoCover
    case Some(fileName) => Utils.CoversBase + m.id + "/" + fileName + CoverSize
  }

  /** `coverUrl.startsWith("https://placehold.co")`: the image is not optimised. */
  predicate Unoptimized(url: string)
  {
    Text.StartsWith(url, PlaceholderHost)
  }

  /** The host letters that tell the placeholder from the uploads URL. */
  lemma HostLetters()
    ensures |NoCover| > 8 && NoCover[8] == 'p' && |Utils.CoversBase| > 8 && Utils.CoversBase[8] == 'u'
    ensures Text.StartsWith(NoCover, PlaceholderHost)
  {
    assert NoCover == PlaceholderHost + ("/256x362/1F2937/E5E7EB?text=" + "Tanpa+Sampul");
    Text.PrefixOfConcat(PlaceholderHost, "/256x362/1F2937/E5E7EB?text=" + "Tanpa+Sampul");
    assert NoCover[8] == PlaceholderHost[8];
  }

  /**
    The image is left unoptimised exactly when the card shows the placeholder,
    that is when the first cover has no file name key; with a file name the
    URL is the one the shared cover helper builds at 256 px, except that an
    empty file name still gives an uploads URL here.
  */
  lemma CoverCases(m: Manga)
    ensures Unoptimized(CoverUrl(m)) <==> Utils.CoverFileName(m).None?
    ensures Truthy(Utils.CoverFileName(m)) ==> CoverUrl(m) == Utils.MainCoverUrl(Some(m), CoverSize)
    ensures Utils.CoverFileName(m) == Some("") ==> CoverUrl(m) == Utils.CoversBase + m.id + "/" + CoverSize
  {
    HostLetters();
    var fileName := Utils.CoverFileName(m);
    if fileName.Some? {
      var r := CoverUrl(m);
      var rest := m.id + "/" + fileName.value + CoverSize;
      assert r == Utils.CoversBase + rest;
      assert r[8] == Utils.CoversBase[8];
      Text.DiffersAt(r, PlaceholderHost, 8);
      if fileName.value == "" {
        assert m.id + "/" + "" == m.id + "/";
      }
    }
  }

  /** The card's link: `/manga/<id>`. */
  function Href(m: Manga): (r: string)
    ensures Text.StartsWith(r, "/manga/") && r[|"/manga/"|..] == m.id
  {
    Text.PrefixOfConcat("/manga/", m.id);
    "/manga/" + m.id
  }

  /**
    `year || "N/A"`: the year's digits, or "N/A" for a missing year and for 0;
    the digits of a safe integer read back as the year.
  */
  function YearLabel(year: Option<int>): (r: string)
    ensures r == NoYear <==> year.None? || year.value == 0
    ensures year.Some? && year.value != 0 && Text.IsSafeInteger(year.value) ==> Text.ParseInt(r) == year
  {
    if year.None? || year.value == 0 then NoYear
    else
      var s := Text.IntToDecimal(year.value);
      assert s[0] == '-' || Text.IsDigit(s[0]);
      assert Text.IsSafeInteger(year.value) ==> Text.ParseInt(s) == year by {
        if Text.IsSafeInteger(year.value) {
          Text.ParseIntOfDecimal(year.value);
        }
      }
      s
  }

  /** `tags.filter(t => t.attributes.group === "genre")`. */
  function GenreTags(tags: seq<Tag>): (r: seq<Tag>)
    ensures |r| <= |tags|
    ensures forall k :: 0 <= k < |r| ==> r[k].attributes.group == "genre" && r[k] in tags
    ensures forall k :: 0 <= k < |tags| && tags[k].attributes.group == "genre" ==> tags[k] in r
  {
    if |tags| == 0 then []
    else
      var rest := GenreTags(tags[1..]);
      assert forall k :: 1 <= k < |tags| ==> tags[k] == tags[1..][k - 1];
      if tags[0].attributes.group == "genre" then [tags[0]] + rest else rest
  }

  /** The filter keeps the order of the tags: it distributes over concatenation. */
  lemma {:induction false} GenreTagsConcat(a: seq<Tag>, b: seq<Tag>)
    ensures GenreTags(a + b) == GenreTags(a) + GenreTags(b)
  {
    if |a| == 0 {
      assert a + b == b;
    } else {
      assert (a + b)[0] == a[0];
      assert (a + b)[1..] == a[1..] + b;
      GenreTagsConcat(a[1..], b);
    }
  }

  /** `.map(t => t.attributes.name.en).slice(0, 3)`: the English names of the first three genre tags. */
  function Genres(tags: seq<Tag>): (r: seq<Option<string>>)
  {
    var g := GenreTags(tags);
    var n := if |g| < MaxGenres then |g| else MaxGenres;
    seq(n, k requires 0 <= k < n => Lookup(g[k].attributes.name, "en"))
  }

  /**
    The genres are at most three, and they are the English names of the
    genre tags in the order of the tags: the k-th is the name of the k-th
    genre tag, and there are three unless fewer tags are genres.
  */
  lemma GenresSelect(tags: seq<Tag>)
    ensures |Genres(tags)| <= MaxGenres
    ensures |Genres(tags)| == MaxGenres || |Genres(tags)| == |GenreTags(tags)|
    ensures forall k :: 0 <= k < |Genres(tags)| ==>
      Genres(tags)[k] == Lookup(GenreTags(tags)[k].attributes.name, "en")
  {
  }

  /**
    Tags after the third genre tag never show: once three tags are genres,
    adding tags behind them leaves the genres as they are; before that,
    added tags only add genres at the end.
  */
  lemma GenresPrefix(tags: seq<Tag>, more: seq<Tag>)
    ensures |GenreTags(tags)| >= MaxGenres ==> Genres(tags + more) == Genres(tags)
    ensures Genres(tags) <= Genres(tags + more)
  {
    GenreTagsConcat(tags, more);
  }

  /** What the genre row renders: "Tanpa Genre" alone when there are none, else one badge per genre (an absent name renders empty). */
  function Badges(genres: seq<Option<string>>): (r: seq<string>)
    ensures |genres| == 0 ==> r == [NoGenreLabel]
    ensures |genres| > 0 ==> |r| == |genres|
    ensures |genres| > 0 ==> forall k :: 0 <= k < |genres| ==> r[k] == (if genres[k].Some? then genres[k].value else "")
  {
    if |genres| == 0 then [NoGenreLabel]
    else seq(|genres|, k requires 0 <= k < |genres| => if genres[k].Some? then genres[k].value else "")
  }

  /**
    The genre row of a card: the "Tanpa Genre" placeholder alone when no
    tag is a genre, otherwise one badge per shown genre, at most three. The
    row reads exactly `["Tanpa Genre"]` when there is no genre tag, or when
    the only genre tag is itself named "Tanpa Genre" in English.
  */
  lemma GenreBadges(tags: seq<Tag>)
    ensures |Badges(Genres(tags))| <= MaxGenres
    ensures |GenreTags(tags)| == 0 ==> Badges(Genres(tags)) == [NoGenreLabel]
    ensures |GenreTags(tags)| > 0 ==>
      |Badges(Genres(tags))| == (if |GenreTags(tags)| < MaxGenres then |GenreTags(tags)| else MaxGenres)
    ensures |GenreTags(tags)| > 0 ==> forall k :: 0 <= k < |Badges(Genres(tags))| ==>
      Badges(Genres(tags))[k] == Lookup(GenreTags(tags)[k].attributes.name, "en").GetOr("")
    ensures Badges(Genres(tags)) == [NoGenreLabel] <==>
      |GenreTags(tags)| == 0
      || (|GenreTags(tags)| == 1 && Lookup(GenreTags(tags)[0].attributes.name, "en") == Some(NoGenreLabel))
  {
    GenresSelect(tags);
  }
}
