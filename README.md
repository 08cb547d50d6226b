# mangadex-web in Dafny

A model of the deterministic core of the `manga_web` client, a Next.js
browser front end for the MangaDex REST API. The client talks to the API
through a same-origin relay under `/api/md-proxy`. The model covers:

- **Request building** (`Api`). The four request wrappers build ordered
  lists of `key=value` parts and join them with `&`. They refuse an empty
  identifier before any request and turn every failure into `null`. The
  network is an input, `Fetched<T> = Ok(body) | HttpError(status) | Thrown`.
  A wrapper's observable behaviour is the URL it requested (if any) and what
  it returned.
- **The manga list page** (`MangaListPage`).
  - Filters are parsed from the address's query pairs and serialised back to
    them. The two round-trip.
  - Paging uses 24 items per page.
  - The sort order depends on whether a filter is set.
  - A class `MangaListController` holds the page's state and has methods for
    each transition: start and complete a load, search, change page, and sync
    the address.
- **The pager** (`Pagination`). A window of at most five page numbers, the
  first/last buttons and ellipses, and the previous/next guards.
- **The detail-page loader** (`MangaDetailsHook`). A class whose effect
  resets its state and then makes two dependent fetches.
- **The display helpers**:
  - `Utils`: the cover URL, relationship names and titles.
  - `MangaCard` and `HomePage`: the two card variants.
  - `MangaAttributes`: description HTML, alternative titles and tag badges.
  - `MangaChapterList`: chapter labels and links.
- **The JavaScript built-ins these rely on**:
  - `Text`: `join`, `split`, `${n}`, `parseInt`, `Number`.
  - `UrlEncoding`: `encodeURIComponent` and form encoding, as UTF-8 percent
    encoding.
  - `SearchParams`: `URLSearchParams` as a list of pairs.
  - `StringOrder`: `Array.prototype.sort` on strings.

JSON objects keyed by language are ordered lists of `(key, text)` pairs. The
"first key" the views fall back to is the first key in insertion order.

## Model

| member | source | states |
|---|---|---|
| MangaTypes.Lookup | manga_web/src/lib/utils.ts:46 | `ls[key]` is absent exactly when no pair has that key, and otherwise is the text of a pair with that key |
| MangaTypes.Localized | manga_web/src/lib/utils.ts:46 | `en \|\| first \|\| fallback`: the English text if non-empty, else the first text if non-empty, else the fallback; never empty when the fallback is not |
| MangaTypes.FirstErrorDetail | manga_web/src/app/manga/page.tsx:81 | `errors?.[0]?.detail \|\| fallback`: the first error's detail when there is one and it is non-empty, otherwise the fallback; never blank when the fallback is not, so the error message the list page and the detail loader set always shows |
| Api.PushEach | manga_web/src/lib/api.ts:48-53 | the `forEach` loop appends `prefix + value` for every value, in order, to the parts so far |
| Api.PushOrder | manga_web/src/lib/api.ts:45-47 | the loop over the order entries appends one `order[key]=value` per entry, in order |
| Api.PushListHead | manga_web/src/lib/api.ts:42-53 | the first statements push limit, offset, the order entries, the includes and the languages |
| Api.PushListTail | manga_web/src/lib/api.ts:60-65 | the last statements push each status, then each content rating |
| Api.BuildListQuery | manga_web/src/lib/api.ts:42-67 | the imperative builder yields the joined, filtered list of parts of the specification |
| Api.FetchMangaList | manga_web/src/lib/api.ts:27-91 | requests the list URL; returns the body of any 2xx response unchecked, and `null` for a non-2xx status or a thrown error |
| Api.NonEmptyPartsKeep | manga_web/src/lib/api.ts:67 | `filter(Boolean)` leaves a list without empty parts unchanged |
| Api.ListPartsSelect | manga_web/src/lib/api.ts:42-65 | parts with a prefix outside the head are found only among the title, year, status and rating parts, in that order |
| Api.ListQueryNeverEmpty | manga_web/src/lib/api.ts:42-69 | the list query is never empty and starts with `limit=`, so the URL is always `/api/md-proxy/manga?` plus the query |
| Api.DefaultListQuery | manga_web/src/lib/api.ts:30-53 | with no options the query is `limit=20&offset=0&order[relevance]=desc&includes[]=cover_art&availableTranslatedLanguage[]=en` |
| Api.DefaultListParts | manga_web/src/lib/api.ts:30-53 | with no options exactly those five parts are pushed, in that order |
| Api.ListTitlePart | manga_web/src/lib/api.ts:54-56 | one encoded `title=` part exactly when the title is truthy, none otherwise |
| Api.ListYearPart | manga_web/src/lib/api.ts:57-59 | one unencoded `year=` part exactly when `year` is given, so an empty-string year is sent as `year=` |
| Api.ListStatusParts | manga_web/src/lib/api.ts:60-62 | the `status[]=` parts are one encoded part per status, in the given order and number |
| Api.ListContentRatingParts | manga_web/src/lib/api.ts:63-65 | the `contentRating[]=` parts are one encoded part per rating, in the given order and number |
| Api.Collapse | manga_web/src/lib/api.ts:72-90 | the try/catch yields a value exactly for a 2xx outcome, and that value is the response body |
| Api.DetailsUrl | manga_web/src/lib/api.ts:100-103 | the details URL is `/api/md-proxy/manga/<id>?includes[]=cover_art&includes[]=author&includes[]=artist` |
| Api.GetMangaDetails | manga_web/src/lib/api.ts:93-125 | nothing is requested exactly when the id is empty; otherwise that URL is requested, and the result is the body exactly for a 2xx outcome |
| Api.BuildFeedQuery | manga_web/src/lib/api.ts:153-169 | the imperative feed builder yields the joined, filtered feed parts, with no value encoded |
| Api.GetMangaChapters | manga_web/src/lib/api.ts:136-193 | nothing is requested exactly when the id is empty; otherwise the feed URL is requested, and the result is the body exactly for a 2xx outcome |
| Api.DefaultFeedParts | manga_web/src/lib/api.ts:144-167 | with no options the feed parts are `limit=50`, `offset=0`, `order[volume]=desc`, `order[chapter]=desc`, `translatedLanguage[]=en`, `includes[]=scanlation_group` |
| Api.DefaultFeedUrl | manga_web/src/lib/api.ts:144-171 | with no options the feed URL is `/api/md-proxy/manga/<id>/feed?` followed by those parts joined with `&` |
| Api.FeedUrlShape | manga_web/src/lib/api.ts:170-171 | a non-empty feed query is attached to `manga/<id>/feed` behind `?` |
| Api.FeedLanguageParts | manga_web/src/lib/api.ts:159-161 | the feed sends one unencoded `translatedLanguage[]=` part per language, in order |
| Api.GetChapterPagesData | manga_web/src/lib/api.ts:195-229 | nothing is requested for an empty id; otherwise `/api/md-proxy/at-home/server/<id>` is requested, and the result is the body exactly for a 2xx body whose `result` is `"ok"` |
| Text.JoinEmpty | manga_web/src/lib/api.ts:67-69 | a join of non-empty parts is empty exactly when there are no parts, so `?` is dropped only for no parts |
| Text.SplitJoin | manga_web/src/app/manga/page.tsx:107 | splitting a join at a separator no part contains gives the parts back |
| Text.ParseIntOfDecimal | manga_web/src/app/manga/page.tsx:23-24 | `parseInt(String(n), 10)` reads back `n` for every safe integer `n` (at most 2^53 - 1 in magnitude) |
| Text.ParseNumberOfDecimal | manga_web/src/app/manga/page.tsx:58 | `Number(String(n))` reads back `n` for every safe integer `n` |
| Text.ParseInt | manga_web/src/app/manga/page.tsx:23-24 | `parseInt` is NaN exactly when no digit follows the optional whitespace and sign |
| Text.ParseNumber | manga_web/src/app/manga/page.tsx:58 | `Number` of a blank string is 0 |
| UrlEncoding.EncodeAvoidsDelimiters | manga_web/src/lib/api.ts:46-64 | an encoded value never contains `&` or `=` |
| UrlEncoding.EncodeUnreserved | manga_web/src/lib/api.ts:46-64 | a value made only of unreserved characters is sent unchanged |
| UrlEncoding.EncodeInjective | manga_web/src/lib/api.ts:46-64 | different values always encode differently |
| SearchParams.Get | manga_web/src/app/manga/page.tsx:21 | `get(name)` is absent exactly when `has(name)` is false, and is otherwise the first value under that name |
| SearchParams.GetAllConcat | manga_web/src/app/manga/page.tsx:26-27 | `getAll` keeps order across concatenated parameter lists |
| SearchParams.GetAllEmpty | manga_web/src/app/manga/page.tsx:26-27 | `getAll(name)` is empty exactly when `has(name)` is false |
| SearchParams.Set | manga_web/src/app/manga/page.tsx:33-37 | after `set(name, v)` the name holds exactly `[v]`, and every other name keeps its values |
| SearchParams.EncodePairInjective | manga_web/src/app/manga/page.tsx:38 | two pairs that serialise alike are equal |
| SearchParams.SplitSerialized | manga_web/src/app/manga/page.tsx:107 | splitting the serialised query at `&` gives one piece per pair, none holding `&` |
| SearchParams.ShouldReplaceIffNotRearranged | manga_web/src/app/manga/page.tsx:107-108 | the sorted-and-joined forms of two queries differ exactly when their pairs are not rearrangements of each other |
| StringOrder.Sort | manga_web/src/app/manga/page.tsx:107 | `sort()` returns a sorted rearrangement of its input |
| StringOrder.SortEqual | manga_web/src/app/manga/page.tsx:107 | two lists sort alike exactly when they are rearrangements of each other |
| MangaListPage.ParseFilters | manga_web/src/app/manga/page.tsx:19-29 | the title is `get('q')`; the year is what `parseInt` reads from `get('year')`, unset for NaN or no `year`; `status` and `contentRating` are set exactly when present, to their non-empty `getAll` lists |
| MangaListPage.InitialPage | manga_web/src/app/manga/page.tsx:58 | `Number(page) \|\| 1`: the number `Number` reads from `page` when it is non-zero, negative ones included; 1 for no `page`, zero or NaN; never 0 |
| MangaListPage.BuildQueryString | manga_web/src/app/manga/page.tsx:31-39 | the imperative builder serialises exactly the pairs `q`, `year`, each status, each rating, then `page` |
| MangaListPage.ReadTitle | manga_web/src/app/manga/page.tsx:21-33 | the built pairs carry `q` exactly for a truthy title, with that title |
| MangaListPage.ReadYear | manga_web/src/app/manga/page.tsx:22-34 | the built pairs carry `year` exactly for a truthy year, as its decimal digits |
| MangaListPage.ReadLists | manga_web/src/app/manga/page.tsx:26-36 | `getAll` of the built pairs gives back the status and rating lists, in order |
| MangaListPage.ReadPage | manga_web/src/app/manga/page.tsx:37 | the built pairs carry `page` exactly when the page is above 1 |
| MangaListPage.RoundTrip | manga_web/src/app/manga/page.tsx:19-58 | parsing the built pairs gives back the filters (empty ones dropped) and the page (1 for pages up to 1), for a safe-integer year and page |
| MangaListPage.QueryOfCanonical | manga_web/src/app/manga/page.tsx:31-39 | dropping empty filters does not change the built pairs, and dropping them twice is dropping them once |
| MangaListPage.SortOrderOfFilters | manga_web/src/app/manga/page.tsx:73 | the order is `relevance desc` exactly when some filter is set (non-empty title or lists, non-zero year), otherwise `followedCount desc` |
| MangaListPage.ListRequest | manga_web/src/app/manga/page.tsx:65-75 | the request asks for 24 items at offset `(page-1)*24` for every page, negative ones included; for page 1 or more the offset is non-negative and gives the page back; the order is relevance iff a filter is set (followedCount otherwise), the includes are `["cover_art"]`, the languages `["en", "id"]`, and the title, statuses and ratings are the filters' own |
| MangaListPage.RequestCarriesFilters | manga_web/src/app/manga/page.tsx:68-75 | the sent query carries the statuses and ratings in order, and a title part exactly for a truthy title |
| MangaListPage.TotalPagesBounds | manga_web/src/app/manga/page.tsx:127 | `ceil(total/24)` pages hold the total with less than one page to spare, and are 0 only for no manga |
| MangaListPage.MangaListController.constructor | manga_web/src/app/manga/page.tsx:49-58 | the initial state: filters and page read from the address, loading, an empty list, no error |
| MangaListPage.MangaListController.BeginLoad | manga_web/src/app/manga/page.tsx:60-75 | loading starts, the error is cleared, and the request for the current filters and page is made |
| MangaListPage.MangaListController.CompleteLoad | manga_web/src/app/manga/page.tsx:77-94 | an `ok` response sets the list and total; anything else sets the first error detail or the default message and clears list and total; an error set is never blank; loading ends on every path |
| MangaListPage.MangaListController.HandleSearch | manga_web/src/app/manga/page.tsx:114-118 | a search sets the filters and resets the page to 1, and changes nothing else |
| MangaListPage.MangaListController.HandlePageChange | manga_web/src/app/manga/page.tsx:120-125 | the page changes (and the window scrolls) only for a different page, and the filters stay |
| MangaListPage.MangaListController.SyncUrl | manga_web/src/app/manga/page.tsx:103-111 | the address is replaced exactly when the built pairs are not a rearrangement of the current ones, and afterwards they agree |
| MangaListPage.UrlTarget | manga_web/src/app/manga/page.tsx:104-110 | replace exactly when the normalised queries differ, with the path and the new query |
| MangaListPage.OwnAddressIsStable | manga_web/src/app/manga/page.tsx:103-110 | opening the page from an address it wrote itself never replaces that address, for a safe-integer year and page |
| Pagination.Window | manga_web/src/components/ui/Pagination.tsx:31-38 | the start and end the component computes by reassignment equal a closed form |
| Pagination.WindowBounds | manga_web/src/components/ui/Pagination.tsx:32-39 | with at least one page the window lies within the pages, holds `min(5, total)` numbers, and holds the current page when that is a page |
| Pagination.Render | manga_web/src/components/ui/Pagination.tsx:14-91 | nothing is rendered exactly when there is at most one page; otherwise the buttons pushed by the loop form the layout, with the first-page and last-page buttons disabled exactly while loading |
| Pagination.NumberedButtons | manga_web/src/components/ui/Pagination.tsx:41-56 | the numbered buttons are consecutive ascending pages within range, a button is disabled exactly while loading or when current, and the current page has a button |
| Pagination.EdgesAndEllipses | manga_web/src/components/ui/Pagination.tsx:68-82 | the first button shows iff the window starts after 1, the leading ellipsis iff after 2; the last button iff it ends before the last page, the trailing ellipsis iff two before; the visible numbers run from 1 to the last page; the first-page and last-page buttons are disabled exactly while loading, exactly when their handlers do nothing, and never ask for the current page |
| Pagination.HandlersMatchButtons | manga_web/src/components/ui/Pagination.tsx:18-28 | "previous" matches its handler exactly when the current page is at least 1, and "next" exactly when it is at most the last page (or while loading); "next" moves one page within range, "previous" one page back to at least 1, past the last page only from beyond it |
| Pagination.OutOfRangeButtons | manga_web/src/components/ui/Pagination.tsx:24-28 | for the component's props `currentPage` 99 and `totalPages` 5, "next" is enabled but inert and "previous" asks for page 98; for `currentPage` -3, "previous" is enabled but inert |
| Pagination.GuardedLayoutOf | manga_web/src/components/ui/Pagination.tsx:60-90 | with `<= 1` and `>= totalPages` as the disabling tests, each of "previous" and "next" is disabled exactly when its handler does nothing, for every current page, and the pager is unchanged for a current page within range |
| Pagination.EnabledButtonChangesPage | manga_web/src/components/ui/Pagination.tsx:45-46 | an enabled numbered button asks for a page other than the current one |
| Utils.FirstOfKind | manga_web/src/lib/utils.ts:12-14 | `find` gives the first relationship of the kind, or none when no relationship has it |
| Utils.MainCoverUrl | manga_web/src/lib/utils.ts:10-21 | the loading placeholder for no manga; the uploads URL with the size for a non-empty first-cover file name; the "no cover" placeholder otherwise |
| Utils.CoverUrlCases | manga_web/src/lib/utils.ts:11-20 | a manga never gets the loading placeholder, gets the "no cover" one exactly without a non-empty file name, and otherwise an uploads URL |
| Utils.DefaultSizeCover | manga_web/src/lib/utils.ts:10-20 | with the default size a cover with a file name is its `.512.jpg` thumbnail, and the placeholders are unchanged |
| Utils.OriginalSize | manga_web/src/lib/utils.ts:7-18 | an empty size gives the original file's URL |
| Utils.FirstCoverOnly | manga_web/src/lib/utils.ts:12-19 | relationships after the first cover never change the URL |
| Utils.RelationshipNameFirst | manga_web/src/lib/utils.ts:29-38 | the name is that of the first relationship of the kind when it is a string, otherwise "Tidak diketahui"; later relationships never matter |
| Utils.MangaTitle | manga_web/src/lib/utils.ts:45-47 | the title is the English one, else the first one, else "Tanpa Judul", and is never empty; the grid and home cards show the same title |
| MangaDetailsHook.MangaDetailsHook.constructor | manga_web/src/hooks/useManga.ts:16-19 | the initial state is loading, with no manga, no chapters and no error |
| MangaDetailsHook.MangaDetailsHook.Reset | manga_web/src/hooks/useManga.ts:24-27 | before any fetch, loading is on and error, manga and chapters are cleared |
| MangaDetailsHook.MangaDetailsHook.RunEffect | manga_web/src/hooks/useManga.ts:21-62 | without an id nothing is fetched and all is cleared. Otherwise the chapters are fetched only after an `ok` manga; a failed chapter fetch leaves the manga, no chapters and no error; a failed manga fetch gives the error text, never blank, and no chapter fetch. Loading ends on every path |
| MangaDetailsHook.ChapterRequestUrl | manga_web/src/hooks/useManga.ts:33-38 | the chapter request is the feed of the manga with limit 50, offset 0, volume then chapter descending, languages `en` and `id`, and scanlation groups |
| MangaCard.CoverUrl | manga_web/src/components/manga/MangaCard.tsx:9-18 | the placeholder exactly when the first cover, its attributes or its `fileName` key is missing; otherwise the 256 px uploads URL, even for an empty file name |
| MangaCard.CoverCases | manga_web/src/components/manga/MangaCard.tsx:9-43 | the image is unoptimised exactly for the placeholder; with a non-empty file name the URL is the shared helper's at 256 px |
| MangaCard.Href | manga_web/src/components/manga/MangaCard.tsx:33 | the card links to `/manga/` followed by the id, and the id can be read back |
| MangaCard.YearLabel | manga_web/src/components/manga/MangaCard.tsx:24 | "N/A" exactly for a missing year or 0; otherwise digits that read back as the year when it is a safe integer; the home card uses the same label |
| MangaCard.GenreTags | manga_web/src/components/manga/MangaCard.tsx:25-26 | the filter keeps exactly the tags of group "genre" |
| MangaCard.GenreTagsConcat | manga_web/src/components/manga/MangaCard.tsx:25-26 | the filter keeps the tags' order |
| MangaCard.GenresSelect | manga_web/src/components/manga/MangaCard.tsx:25-28 | at most three genres, the English names of the first genre tags in order; the home card selects them the same way |
| MangaCard.GenresPrefix | manga_web/src/components/manga/MangaCard.tsx:25-28 | tags after the third genre tag never show, and more tags only add genres at the end |
| MangaCard.Badges | manga_web/src/components/manga/MangaCard.tsx:56-67 | "Tanpa Genre" alone for no genres, otherwise one badge per genre |
| MangaCard.GenreBadges | manga_web/src/components/manga/MangaCard.tsx:25-67 | for a manga's tags the row holds at most three badges; the placeholder alone when no tag is a genre, otherwise one badge per shown genre, the English name or empty; the row reads `["Tanpa Genre"]` exactly when no tag is a genre or the only genre tag is itself named "Tanpa Genre" |
| HomePage.CoverUrl | manga_web/src/app/page.tsx:42-53 | the placeholder for a missing or empty file name; otherwise the shared helper's URL at 256 px |
| HomePage.CoverVariants | manga_web/src/app/page.tsx:47 | the home and grid cards pick different covers exactly when the first cover's file name is the empty string |
| MangaAttributes.ReplaceNewlines | manga_web/src/components/manga/detail/MangaAttributes.tsx:18 | no line feed is left, and each one grew by five characters |
| MangaAttributes.ReplaceWithoutNewlines | manga_web/src/components/manga/detail/MangaAttributes.tsx:18 | text without line feeds is unchanged |
| MangaAttributes.ReplaceConcat | manga_web/src/components/manga/detail/MangaAttributes.tsx:18 | the replacement works piece by piece over concatenations |
| MangaAttributes.NewlineIsBreak | manga_web/src/components/manga/detail/MangaAttributes.tsx:18 | a line feed becomes `<br />` |
| MangaAttributes.DescriptionHtml | manga_web/src/components/manga/detail/MangaAttributes.tsx:14-18 | the description HTML is non-empty, has no line feed, and equals the localised description when that has none |
| MangaAttributes.NoDescriptionShown | manga_web/src/components/manga/detail/MangaAttributes.tsx:14-18 | without any description text, "Tidak ada deskripsi." is shown |
| MangaAttributes.EnglishAltTitles | manga_web/src/components/manga/detail/MangaAttributes.tsx:21-23 | the non-empty English alternative titles; none exactly when no entry has one |
| MangaAttributes.EnglishAltTitlesConcat | manga_web/src/components/manga/detail/MangaAttributes.tsx:21-23 | the selection keeps the entries' order |
| MangaAttributes.AltTitlesShown | manga_web/src/components/manga/detail/MangaAttributes.tsx:21-33 | the alternative-title line shows exactly when some entry has a non-empty English title |
| MangaAttributes.TagToneOf | manga_web/src/components/manga/detail/MangaAttributes.tsx:41-46 | genre, theme and format each get their own colour, and any other group the fallback |
| MangaAttributes.TagLabel | manga_web/src/components/manga/detail/MangaAttributes.tsx:48 | the English name if non-empty, else the first name as it is; nothing only for a tag without names |
| MangaAttributes.TagLabelIsLocalized | manga_web/src/components/manga/detail/MangaAttributes.tsx:48 | a non-empty badge text is what the localised-string chain gives |
| MangaChapterList.LabelStart | manga_web/src/components/manga/detail/MangaChapterList.tsx:30-31 | the label starts with "Vol. " exactly for a non-empty volume, otherwise with "Ch. " |
| MangaChapterList.LabelParts | manga_web/src/components/manga/detail/MangaChapterList.tsx:30-32 | "Ch. N/A" for a missing chapter number; the label ends with ": <title>" for a non-empty title; with neither volume nor title it is the chapter part |
| MangaChapterList.UpperAscii | manga_web/src/components/manga/detail/MangaChapterList.tsx:35 | the language keeps its length, and each lower-case ASCII letter is raised |
| MangaChapterList.UpperAsciiIdempotent | manga_web/src/components/manga/detail/MangaChapterList.tsx:35 | raising twice is raising once, and text without lower-case letters is unchanged |
| MangaChapterList.ChapterList | manga_web/src/components/manga/detail/MangaChapterList.tsx:14-27 | only the empty-list message exactly for no chapters; otherwise one entry per chapter, in order |
| MangaChapterList.LinksIdentifyChapters | manga_web/src/components/manga/detail/MangaChapterList.tsx:22-26 | each entry links to `/read/<id>` of its chapter, and two entries share a link exactly when their chapters share an id |
| MangaChapterList.GroupShown | manga_web/src/components/manga/detail/MangaChapterList.tsx:37 | "Tidak diketahui" without a scanlation group; otherwise the first group decides |

## Left out

- Actual HTTP is not modelled, nor the `/api/md-proxy` relay. The relay's `app/api/md-proxy/[...slug]/route.ts` is not part of this model. Each request's outcome is an input.
- `console.*` logging is left out.
- The error strings built on a non-2xx response are thrown away by the wrappers' own catch, so they are not observable.
- The `app/manga/service.tsx` fetch wrapper is left out, because it is plain I/O.
- The home page's own load effect (`app/page.tsx:116-143`, a hard-coded fetch) is left out, because it is plain I/O.
- The home page's render conditions are left out: spinner, error box, empty message and grid.
- The list page's render branches are left out (`app/manga/page.tsx:129-196`).
- React scheduling is not modelled: `useState`, `useEffect` and `useCallback`. The controller's methods are the bodies of the handlers and effects, called one at a time.
- `router.replace` is modelled only as the URL it would be given.
- `window.scrollTo` is modelled only as a boolean.
- Image `onError` swaps are left out.
- JSX and CSS are left out, except the tag colour choice.
- The `catch` branches of `loadManga` (`app/manga/page.tsx:87-91`) and of `useMangaDetails` (`hooks/useManga.ts:48-50`) are not modelled. Every wrapper they call catches its own errors, so nothing in their `try` blocks throws.
- MangaListPage.MangaListController.CompleteLoad: requires a load to be in progress. Responses completing out of order are concurrency, and the code has no guard against them.
- MangaListPage.MangaListController.SyncUrl: states "in sync" as equal multisets of pairs rather than through the normalised strings. `SearchParams.ShouldReplaceIffNotRearranged` proves the two equivalent.
- `MangaSearch.tsx` hands `onSearch` a string, while `handleSearch` declares a filter object. The model follows the declared filter type.
- The address's parameters are taken at the decoded level. Percent-decoding of `URLSearchParams` is not modelled.
- `Number(s)` is modelled for integer decimal syntax only. On other text the model differs from JavaScript rather than excluding it: `ParseNumber` reads "2.0", "1e1" and "0x2" as NaN, so `InitialPage` gives 1 where the page starts at 2, 10 and 2. Fractions such as "5.5" (a fractional current page), `Infinity` and decimals of 1e21 or more are likewise read as NaN or not modelled.
- `parseInt` and `Number` read digits as exact integers. JavaScript rounds values beyond 2^53 - 1 to the nearest double, and `String()` writes exponent form from 1e21, so `parseInt(String(1e21))` is 1.
- Text.ParseIntOfDecimal: stated for safe integers only, because of that rounding and the exponent form.
- Text.ParseNumberOfDecimal: stated for safe integers only, for the same reason.
- MangaListPage.RoundTrip: stated for a safe-integer year and page only. A larger year read from the address may be rewritten on the next address sync; one that is exactly a double, such as 9007199254740994, is kept.
- MangaListPage.OwnAddressIsStable: stated for a safe-integer year and page only, as RoundTrip is.
- MangaCard.YearLabel: the read-back of the digits is stated for safe-integer years only.
- `toUpperCase` is modelled for ASCII letters only. Unicode case mapping is not modelled.
- `Array.prototype.sort` compares UTF-16 code units; the model compares code points. They differ only between astral characters and characters from U+E000 up.
- `encodeURIComponent`'s error on lone surrogates cannot arise: Dafny characters are Unicode scalar values.
- Locale date formatting (`toLocaleDateString`) in the chapter list is left out.
- JSON objects with duplicate keys are not modelled, nor the engine's ordering of integer-like keys ahead of other keys.
- A relationship's `fileName` is always a string or absent. A `name` is a string, absent, or some other JSON value.
- The reader page (`app/read/[chapterid]/page.tsx`) is left out.
- Purely presentational files are left out: `MangaGrid`, `MangaDetailLayout`, `ErrorMessage`, `LoadingBar`, `MangaCoverInfo`, `next.config.ts`.

## Findings

| source | as written | input that shows it | evidently intended | confidence | as-written member | corrected member |
|---|---|---|---|---|---|---|
| manga_web/src/components/ui/Pagination.tsx:62-86 | "previous" is disabled for `currentPage === 1` and "next" for `currentPage === totalPages`, while their handlers test `> 1` and `< totalPages`; the current page comes from the address unchecked (`app/manga/page.tsx:58`) | `?page=5.5` with 109 to 120 manga: `Number` gives 5.5, the load at offset 108 returns items, so the pager renders; `5.5 === 5` is false, so "next" is enabled, and `5.5 < 5` is false, so it does nothing. Fractional pages are outside the model's integer `Number`; `OutOfRangeButtons` shows the same mismatch on the component's props (`currentPage` 99 or -3 with 5 pages). An integer address out of range shows no pager, because the page renders it only for a successful, non-empty load (`app/manga/page.tsx:166-174`); no address reaches the "previous" half | disable each button by its handler's own test (`<= 1`, `>= totalPages`) | medium, not executed | Pagination.OutOfRangeButtons | Pagination.GuardedLayoutOf |
