/**
  The client-side API wrappers: each builds a path and query under the proxy
  prefix `/api/md-proxy`, hands it to `fetch`, and turns every failure (a
  non-2xx status, a rejected fetch, a body that is not JSON) into `null`.

  The network is an input here: `Fetched` is what `fetch` plus
  `response.json()` would deliver for the request the wrapper builds. The
  wrappers refuse an empty identifier before any request is made; `request`
  in their results is `None` exactly then.
*/
module Api {
  import opened Wrappers
  import Text
  import UrlEncoding
  import opened MangaTypes

  const BaseUrl := "/api/md-proxy"

  /**
    The outcome of one request: a parsed 2xx body, a response whose status is
    outside 200-299 (`HttpError`, built only for such statuses; the wrappers
    only log it), or a thrown error.
  */
  datatype Fetched<T> = Ok(body: T) | HttpError(status: int) | Thrown

  /** A wrapper's observable behaviour: the URL it requested, if any, and what it returned (`None` for `null`). */
  datatype Call<T> = Call(request: Option<string>, result: Option<T>)

  // ---------------------------------------------------------------------------
  // query parts

  /** A value as it goes into a query part: URI-encoded, or as it is. */
  function PartValue(value: string, encode: bool): string
  {
    if encode then UrlEncoding.EncodeURIComponent(value) else value
  }

  /** `prefix + value` for each value, in order (one `forEach` over an array option). */
  function EachPart(prefix: string, values: seq<string>, encode: bool): (r: seq<string>)
    ensures |r| == |values|
  {
    seq(|values|, i requires 0 <= i < |values| => prefix + PartValue(values[i], encode))
  }

  /** `order[key]=value` for each entry of the `order` object, in order. */
  function OrderParts(order: seq<(string, string)>, encode: bool): (r: seq<string>)
    ensures |r| == |order|
  {
    seq(|order|, i requires 0 <= i < |order| => "order[" + order[i].0 + "]=" + PartValue(order[i].1, encode))
  }

  /** `parts.filter(Boolean)`: the empty parts dropped. */
  function NonEmptyParts(parts: seq<string>): (r: seq<string>)
    ensures forall i :: 0 <= i < |r| ==> r[i] != ""
  {
    if |parts| == 0 then []
    else if parts[0] == "" then NonEmptyParts(parts[1..])
    else [parts[0]] + NonEmptyParts(parts[1..])
  }

  /** `filter(Boolean)` keeps a list whose parts are all non-empty as it is. */
  lemma {:induction false} NonEmptyPartsKeep(parts: seq<string>)
    requires forall i :: 0 <= i < |parts| ==> parts[i] != ""
    ensures NonEmptyParts(parts) == parts
  {
    if |parts| > 0 {
      NonEmptyPartsKeep(parts[1..]);
      assert [parts[0]] + parts[1..] == parts;
    }
  }

  /** `` `${path}${query ? `?${query}` : ''}` ``. */
  function WithQuery(path: string, query: string): string
  {
    path + (if query != "" then "?" + query else "")
  }

  /** The parts of `parts` that start with `prefix`, in order. */
  function PartsWithPrefix(parts: seq<string>, prefix: string): (r: seq<string>)
    ensures |r| <= |parts|
  {
    if |parts| == 0 then []
    else (if Text.StartsWith(parts[0], prefix) then [parts[0]] else []) + PartsWithPrefix(parts[1..], prefix)
  }

  lemma {:induction false} PartsWithPrefixConcat(a: seq<string>, b: seq<string>, prefix: string)
    ensures PartsWithPrefix(a + b, prefix) == PartsWithPrefix(a, prefix) + PartsWithPrefix(b, prefix)
  {
    if |a| == 0 {
      assert a + b == b;
    } else {
      var head := if Text.StartsWith(a[0], prefix) then [a[0]] else [];
      calc {
        PartsWithPrefix(a + b, prefix);
        { assert (a + b)[0] == a[0]; assert (a + b)[1..] == a[1..] + b; }
        head + PartsWithPrefix(a[1..] + b, prefix);
        { PartsWithPrefixConcat(a[1..], b, prefix); }
        head + (PartsWithPrefix(a[1..], prefix) + PartsWithPrefix(b, prefix));
        (head + PartsWithPrefix(a[1..], prefix)) + PartsWithPrefix(b, prefix);
        PartsWithPrefix(a, prefix) + PartsWithPrefix(b, prefix);
      }
    }
  }

  /** No part is selected when every part begins with a character other than the prefix's first. */
  lemma {:induction false} PartsWithPrefixNone(parts: seq<string>, prefix: string)
    requires |prefix| > 0
    requires forall i :: 0 <= i < |parts| ==> |parts[i]| > 0 && parts[i][0] != prefix[0]
    ensures PartsWithPrefix(parts, prefix) == []
  {
    if |parts| > 0 {
      Text.DiffersAt(parts[0], prefix, 0);
      PartsWithPrefixNone(parts[1..], prefix);
    }
  }

  /** Every part is selected when every part begins with the prefix. */
  lemma {:induction false} PartsWithPrefixAll(parts: seq<string>, prefix: string)
    requires forall i :: 0 <= i < |parts| ==> Text.StartsWith(parts[i], prefix)
    ensures PartsWithPrefix(parts, prefix) == parts
  {
    if |parts| > 0 {
      PartsWithPrefixAll(parts[1..], prefix);
      assert [parts[0]] + parts[1..] == parts;
    }
  }

  lemma EachPartStartsWith(prefix: string, values: seq<string>, encode: bool)
    ensures forall i :: 0 <= i < |values| ==> Text.StartsWith(EachPart(prefix, values, encode)[i], prefix)
  {
    forall i | 0 <= i < |values| ensures Text.StartsWith(EachPart(prefix, values, encode)[i], prefix) {
      Text.PrefixOfConcat(prefix, PartValue(values[i], encode));
    }
  }

  /** The parts one `forEach` emits are exactly the ones with its prefix. */
  lemma EachPartSelected(prefix: string, values: seq<string>, encode: bool)
    ensures PartsWithPrefix(EachPart(prefix, values, encode), prefix) == EachPart(prefix, values, encode)
  {
    EachPartStartsWith(prefix, values, encode);
    PartsWithPrefixAll(EachPart(prefix, values, encode), prefix);
  }

  /** A `forEach` whose prefix starts differently emits nothing with `prefix`. */
  lemma EachPartOther(own: string, values: seq<string>, encode: bool, prefix: string)
    requires |own| > 0 && |prefix| > 0 && own[0] != prefix[0]
    ensures PartsWithPrefix(EachPart(own, values, encode), prefix) == []
  {
    var parts := EachPart(own, values, encode);
    forall i | 0 <= i < |parts| ensures |parts[i]| > 0 && parts[i][0] != prefix[0] {
      assert parts[i] == own + PartValue(values[i], encode);
    }
    PartsWithPrefixNone(parts, prefix);
  }

  lemma OrderPartsOther(order: seq<(string, string)>, encode: bool, prefix: string)
    requires |prefix| > 0 && prefix[0] != 'o'
    ensures PartsWithPrefix(OrderParts(order, encode), prefix) == []
  {
    var parts := OrderParts(order, encode);
    forall i | 0 <= i < |parts| ensures |parts[i]| > 0 && parts[i][0] != prefix[0] {
      assert parts[i] == "order[" + order[i].0 + "]=" + PartValue(order[i].1, encode);
    }
    PartsWithPrefixNone(parts, prefix);
  }

  lemma SingleOther(part: string, prefix: string)
    requires |part| > 0 && |prefix| > 0 && part[0] != prefix[0]
    ensures PartsWithPrefix([part], prefix) == []
  {
    PartsWithPrefixNone([part], prefix);
  }

  lemma SingleSelected(prefix: string, rest: string)
    ensures PartsWithPrefix([prefix + rest], prefix) == [prefix + rest]
  {
    Text.PrefixOfConcat(prefix, rest);
  }

  /**
    The builder loop behind each `forEach`: appends `prefix + value` for every
    value, in order.
  */
  method PushEach(parts: seq<string>, prefix: string, values: seq<string>, encode: bool) returns (r: seq<string>)
    ensures r == parts + EachPart(prefix, values, encode)
  {
    r := parts;
    var i := 0;
    while i < |values|
      invariant 0 <= i <= |values|
      invariant r == parts + EachPart(prefix, values[..i], encode)
    {
      assert EachPart(prefix, values[..i + 1], encode)
          == EachPart(prefix, values[..i], encode) + [prefix + PartValue(values[i], encode)];
      r := r + [prefix + PartValue(values[i], encode)];
      i := i + 1;
    }
    assert values[..i] == values;
  }

  /** The loop over `Object.entries(order)`: appends `order[key]=value` per entry, in order. */
  method PushOrder(parts: seq<string>, order: seq<(string, string)>, encode: bool) returns (r: seq<string>)
    ensures r == parts + OrderParts(order, encode)
  {
    r := parts;
    var i := 0;
    while i < |order|
      invariant 0 <= i <= |order|
      invariant r == parts + OrderParts(order[..i], encode)
    {
      var part := "order[" + order[i].0 + "]=" + PartValue(order[i].1, encode);
      assert OrderParts(order[..i + 1], encode) == OrderParts(order[..i], encode) + [part];
      r := r + [part];
      i := i + 1;
    }
    assert order[..i] == order;
  }

  // ---------------------------------------------------------------------------
  // fetchMangaList

  /** `year` may be given as a number or a string; either is written with `${year}`, not encoded. */
  datatype YearValue = YearNumber(n: int) | YearText(text: string)

  function YearString(y: YearValue): string
  {
    match y
    case YearNumber(n) => Text.IntToDecimal(n)
    case YearText(t) => t
  }

  /** `FetchMangaListOptions`; `None` is an option left out. */
  datatype ListOptions = ListOptions(
    limit: Option<int>,
    offset: Option<int>,
    order: Option<seq<(string, string)>>,
    includes: Option<seq<string>>,
    availableTranslatedLanguage: Option<seq<string>>,
    title: Option<string>,
    year: Option<YearValue>,
    status: Option<seq<string>>,
    contentRating: Option<seq<string>>)

  const NoListOptions := ListOptions(None, None, None, None, None, None, None, None, None)

  /** The option values after `fetchMangaList`'s defaults. */
  function ListLimit(o: ListOptions): int { o.limit.GetOr(20) }
  function ListOffset(o: ListOptions): int { o.offset.GetOr(0) }
  function ListOrder(o: ListOptions): seq<(string, string)> { o.order.GetOr([("relevance", "desc")]) }
  function ListIncludes(o: ListOptions): seq<string> { o.includes.GetOr(["cover_art"]) }
  function ListLanguages(o: ListOptions): seq<string> { o.availableTranslatedLanguage.GetOr(["en"]) }
  function ListStatus(o: ListOptions): seq<string> { o.status.GetOr([]) }
  function ListRatings(o: ListOptions): seq<string> { o.contentRating.GetOr([]) }

  function LimitParts(limit: int, offset: int): seq<string>
  {
    ["limit=" + Text.IntToDecimal(limit), "offset=" + Text.IntToDecimal(offset)]
  }

  /** The `title=` part, pushed only for a truthy title. */
  function TitleParts(o: ListOptions): seq<string>
  {
    if Truthy(o.title) then ["title=" + UrlEncoding.EncodeURIComponent(o.title.value)] else []
  }

  /** The `year=` part, pushed whenever `year` is not `undefined`. */
  function YearParts(o: ListOptions): seq<string>
  {
    if o.year.Some? then ["year=" + YearString(o.year.value)] else []
  }

  /**
    The parts `fetchMangaList` pushes, after its defaults (limit 20, offset 0,
    order `relevance: desc`, includes `cover_art`, language `en`, no status,
    no content rating): limit, offset, the order entries, includes, languages,
    title when it is truthy, year when it is given, then each status and each
    content rating. Order values, every array value and the title are
    URI-encoded; the year is not.
  */
  function ListQueryParts(o: ListOptions): seq<string>
  {
    ListHeadParts(o) + TitleParts(o) + YearParts(o) + ListTailParts(o)
  }

  /** The parts pushed before the title: limit, offset, order entries, includes, languages. */
  function ListHeadParts(o: ListOptions): seq<string>
  {
    LimitParts(ListLimit(o), ListOffset(o))
    + OrderParts(ListOrder(o), true)
    + EachPart("includes[]=", ListIncludes(o), true)
    + EachPart("availableTranslatedLanguage[]=", ListLanguages(o), true)
  }

  /** The parts pushed after the year: each status, then each content rating. */
  function ListTailParts(o: ListOptions): seq<string>
  {
    EachPart("status[]=", ListStatus(o), true) + EachPart("contentRating[]=", ListRatings(o), true)
  }

  /** `queryParts.filter(Boolean).join("&")`. */
  function ListQuery(o: ListOptions): string
  {
    Text.Join(NonEmptyParts(ListQueryParts(o)), "&")
  }

  function ListUrl(o: ListOptions): string
  {
    WithQuery(BaseUrl + "/manga", ListQuery(o))
  }

  /** The imperative query builder of `fetchMangaList`, step by step. */
  method BuildListQuery(o: ListOptions) returns (query: string)
    ensures query == ListQuery(o)
  {
    var parts := PushListHead(o);
    if Truthy(o.title) {
      parts := parts + ["title=" + UrlEncoding.EncodeURIComponent(o.title.value)];
    } else {
      assert parts + TitleParts(o) == parts;
    }
    if o.year.Some? {
      parts := parts + ["year=" + YearString(o.year.value)];
    } else {
      assert parts + YearParts(o) == parts;
    }
    parts := PushListTail(parts, o);
    query := Text.Join(NonEmptyParts(parts), "&");
  }

  /** The last statements of the builder: each status, then each content rating. */
  method PushListTail(parts: seq<string>, o: ListOptions) returns (r: seq<string>)
    ensures r == parts + ListTailParts(o)
  {
    r := PushEach(parts, "status[]=", ListStatus(o), true);
    r := PushEach(r, "contentRating[]=", ListRatings(o), true);
  }

  /** The first statements of the builder: limit, offset, order entries, includes, languages. */
  method PushListHead(o: ListOptions) returns (parts: seq<string>)
    ensures parts == ListHeadParts(o)
  {
    parts := [];
    parts := parts + ["limit=" + Text.IntToDecimal(ListLimit(o))];
    parts := parts + ["offset=" + Text.IntToDecimal(ListOffset(o))];
    assert parts == LimitParts(ListLimit(o), ListOffset(o));
    parts := PushOrder(parts, ListOrder(o), true);
    parts := PushEach(parts, "includes[]=", ListIncludes(o), true);
    parts := PushEach(parts, "availableTranslatedLanguage[]=", ListLanguages(o), true);
  }

  /**
    `fetchMangaList`: requests `ListUrl(o)` and returns the body of any 2xx
    response unchecked (its `result` may be `"error"`); every failure is `null`.
  */
  method FetchMangaList(o: ListOptions, outcome: Fetched<ListResponse<Manga>>) returns (url: string, result: Option<ListResponse<Manga>>)
    ensures url == ListUrl(o)
    ensures result.Some? <==> outcome.Ok?
    ensures outcome.Ok? ==> result == Some(outcome.body)
  {
    var query := BuildListQuery(o);
    url := WithQuery(BaseUrl + "/manga", query);
    match outcome {
      case Ok(body) => result := Some(body);
      case HttpError(_) => result := None;
      case Thrown => result := None;
    }
  }

  // ---------------------------------------------------------------------------
  // what the list query says

  lemma EachPartNonEmpty(prefix: string, values: seq<string>, encode: bool)
    requires prefix != ""
    ensures forall i :: 0 <= i < |values| ==> EachPart(prefix, values, encode)[i] != ""
  {
  }

  lemma OrderPartsNonEmpty(order: seq<(string, string)>, encode: bool)
    ensures forall i :: 0 <= i < |order| ==> OrderParts(order, encode)[i] != ""
  {
  }

  lemma EachPartOne(prefix: string, value: string, encode: bool)
    ensures EachPart(prefix, [value], encode) == [prefix + PartValue(value, encode)]
  {
    assert EachPart(prefix, [value], encode)[0] == prefix + PartValue(value, encode);
  }

  /** The pieces of a concatenation whose pieces have no empty part have no empty part. */
  lemma ConcatNonEmpty(a: seq<string>, b: seq<string>)
    requires forall i :: 0 <= i < |a| ==> a[i] != ""
    requires forall i :: 0 <= i < |b| ==> b[i] != ""
    ensures forall i :: 0 <= i < |a + b| ==> (a + b)[i] != ""
  {
  }

  lemma ListPartsNonEmpty(o: ListOptions)
    ensures forall i :: 0 <= i < |ListQueryParts(o)| ==> ListQueryParts(o)[i] != ""
  {
    var a := LimitParts(ListLimit(o), ListOffset(o));
    var b := OrderParts(ListOrder(o), true);
    var c := EachPart("includes[]=", ListIncludes(o), true);
    var d := EachPart("availableTranslatedLanguage[]=", ListLanguages(o), true);
    OrderPartsNonEmpty(ListOrder(o), true);
    EachPartNonEmpty("includes[]=", ListIncludes(o), true);
    EachPartNonEmpty("availableTranslatedLanguage[]=", ListLanguages(o), true);
    EachPartNonEmpty("status[]=", ListStatus(o), true);
    EachPartNonEmpty("contentRating[]=", ListRatings(o), true);
    ConcatNonEmpty(a, b);
    ConcatNonEmpty(a + b, c);
    ConcatNonEmpty(a + b + c, d);
    ConcatNonEmpty(EachPart("status[]=", ListStatus(o), true), EachPart("contentRating[]=", ListRatings(o), true));
    ConcatNonEmpty(ListHeadParts(o), TitleParts(o));
    ConcatNonEmpty(ListHeadParts(o) + TitleParts(o), YearParts(o));
    ConcatNonEmpty(ListHeadParts(o) + TitleParts(o) + YearParts(o), ListTailParts(o));
  }

  /** The list query is never empty, so the URL always carries `?`; it starts with the limit. */
  lemma ListQueryNeverEmpty(o: ListOptions)
    ensures ListQuery(o) != ""
    ensures Text.StartsWith(ListQuery(o), "limit=")
    ensures ListUrl(o) == BaseUrl + "/manga?" + ListQuery(o)
  {
    var parts := ListQueryParts(o);
    ListPartsNonEmpty(o);
    NonEmptyPartsKeep(parts);
    var digits := Text.IntToDecimal(ListLimit(o));
    assert ListHeadParts(o)[0] == "limit=" + digits;
    assert parts[0] == "limit=" + digits;
    assert |parts| >= 2;
    var rest := Text.Join(parts[1..], "&");
    assert ListQuery(o) == "limit=" + digits + "&" + rest;
    assert ListQuery(o) == "limit=" + (digits + "&" + rest);
    Text.PrefixOfConcat("limit=", digits + "&" + rest);
  }

  lemma DecimalTwenty()
    ensures Text.IntToDecimal(20) == "20"
  {
    assert Text.NatToDecimal(2) == "2";
    assert Text.NatToDecimal(20) == Text.NatToDecimal(2) + [Text.DigitChar(0)];
  }

  lemma DefaultLimitParts()
    ensures LimitParts(20, 0) == ["limit=20", "offset=0"]
  {
    DecimalTwenty();
    assert Text.IntToDecimal(0) == "0";
    assert "limit=" + "20" == "limit=20";
    assert "offset=" + "0" == "offset=0";
  }

  lemma DefaultOrderPart()
    ensures OrderParts([("relevance", "desc")], true) == ["order[relevance]=desc"]
  {
    UrlEncoding.EncodeUnreserved("desc", UrlEncoding.Component);
    assert OrderParts([("relevance", "desc")], true)[0] == "order[" + "relevance" + "]=" + "desc";
    assert "order[" + "relevance" + "]=" + "desc" == "order[relevance]=desc";
  }

  /** A single value made only of unreserved characters becomes one part, unencoded. */
  lemma UnreservedPart(prefix: string, value: string)
    requires forall i :: 0 <= i < |value| ==> UrlEncoding.IsUnreserved(value[i], UrlEncoding.Component)
    ensures EachPart(prefix, [value], true) == [prefix + value]
  {
    UrlEncoding.EncodeUnreserved(value, UrlEncoding.Component);
    EachPartOne(prefix, value, true);
  }

  lemma DefaultListParts()
    ensures ListQueryParts(NoListOptions)
         == ["limit=20", "offset=0", "order[relevance]=desc", "includes[]=cover_art", "availableTranslatedLanguage[]=en"]
  {
    var o := NoListOptions;
    DefaultLimitParts();
    DefaultOrderPart();
    UnreservedPart("includes[]=", "cover_art");
    assert "includes[]=" + "cover_art" == "includes[]=cover_art";
    UnreservedPart("availableTranslatedLanguage[]=", "en");
    assert "availableTranslatedLanguage[]=" + "en" == "availableTranslatedLanguage[]=en";
    assert ListHeadParts(o) == ["limit=20", "offset=0"] + ["order[relevance]=desc"] + ["includes[]=cover_art"] + ["availableTranslatedLanguage[]=en"];
    assert ListTailParts(o) == [];
  }

  /**
    With no options, the query is `limit=20`, `offset=0`,
    `order[relevance]=desc`, `includes[]=cover_art` and
    `availableTranslatedLanguage[]=en`, joined with `&`.
  */
  lemma DefaultListQuery()
    ensures ListQuery(NoListOptions)
         == Text.Join(["limit=20", "offset=0", "order[relevance]=desc", "includes[]=cover_art", "availableTranslatedLanguage[]=en"], "&")
  {
    DefaultListParts();
    NonEmptyPartsKeep(["limit=20", "offset=0", "order[relevance]=desc", "includes[]=cover_art", "availableTranslatedLanguage[]=en"]);
  }

  lemma LimitPartsSelect(limit: int, offset: int, prefix: string)
    requires |prefix| > 0 && prefix[0] != 'l' && prefix[0] != 'o'
    ensures PartsWithPrefix(LimitParts(limit, offset), prefix) == []
  {
    var a := LimitParts(limit, offset);
    assert a[0][0] == 'l' && a[1][0] == 'o';
    PartsWithPrefixNone(a, prefix);
  }

  /** No part pushed before the title starts with `t`, `y`, `s` or `c`. */
  lemma ListHeadSelect(o: ListOptions, prefix: string)
    requires |prefix| > 0 && prefix[0] != 'l' && prefix[0] != 'o' && prefix[0] != 'i' && prefix[0] != 'a'
    ensures PartsWithPrefix(ListHeadParts(o), prefix) == []
  {
    var a := LimitParts(ListLimit(o), ListOffset(o));
    var b := OrderParts(ListOrder(o), true);
    var c := EachPart("includes[]=", ListIncludes(o), true);
    var d := EachPart("availableTranslatedLanguage[]=", ListLanguages(o), true);
    LimitPartsSelect(ListLimit(o), ListOffset(o), prefix);
    OrderPartsOther(ListOrder(o), true, prefix);
    EachPartOther("includes[]=", ListIncludes(o), true, prefix);
    EachPartOther("availableTranslatedLanguage[]=", ListLanguages(o), true, prefix);
    PartsWithPrefixConcat(a + b + c, d, prefix);
    PartsWithPrefixConcat(a + b, c, prefix);
    PartsWithPrefixConcat(a, b, prefix);
  }

  /** Selection over five pieces, the first of which has nothing selected. */
  lemma SelectPieces(h: seq<string>, t: seq<string>, y: seq<string>, g: seq<string>, c: seq<string>, prefix: string)
    requires PartsWithPrefix(h, prefix) == []
    ensures PartsWithPrefix(h + t + y + (g + c), prefix)
         == PartsWithPrefix(t, prefix) + PartsWithPrefix(y, prefix) + PartsWithPrefix(g, prefix) + PartsWithPrefix(c, prefix)
  {
    calc {
      PartsWithPrefix(h + t + y + (g + c), prefix);
      { PartsWithPrefixConcat(h + t + y, g + c, prefix); }
      PartsWithPrefix(h + t + y, prefix) + PartsWithPrefix(g + c, prefix);
      { PartsWithPrefixConcat(g, c, prefix); }
      PartsWithPrefix(h + t + y, prefix) + (PartsWithPrefix(g, prefix) + PartsWithPrefix(c, prefix));
      { PartsWithPrefixConcat(h + t, y, prefix); }
      PartsWithPrefix(h + t, prefix) + PartsWithPrefix(y, prefix) + (PartsWithPrefix(g, prefix) + PartsWithPrefix(c, prefix));
      { PartsWithPrefixConcat(h, t, prefix); }
      PartsWithPrefix(t, prefix) + PartsWithPrefix(y, prefix) + (PartsWithPrefix(g, prefix) + PartsWithPrefix(c, prefix));
    }
  }

  /**
    Selecting the parts with a prefix that starts with none of `l`, `o`, `i`,
    `a` only ever finds them among the title, year, status and
    content-rating parts.
  */
  lemma ListPartsSelect(o: ListOptions, prefix: string)
    requires |prefix| > 0 && prefix[0] != 'l' && prefix[0] != 'o' && prefix[0] != 'i' && prefix[0] != 'a'
    ensures PartsWithPrefix(ListQueryParts(o), prefix)
         == PartsWithPrefix(TitleParts(o), prefix)
          + PartsWithPrefix(YearParts(o), prefix)
          + PartsWithPrefix(EachPart("status[]=", ListStatus(o), true), prefix)
          + PartsWithPrefix(EachPart("contentRating[]=", ListRatings(o), true), prefix)
  {
    ListHeadSelect(o, prefix);
    SelectPieces(ListHeadParts(o), TitleParts(o), YearParts(o),
                 EachPart("status[]=", ListStatus(o), true), EachPart("contentRating[]=", ListRatings(o), true), prefix);
  }

  lemma TitlePartsSelect(o: ListOptions, prefix: string)
    requires |prefix| > 0 && prefix[0] != 't'
    ensures PartsWithPrefix(TitleParts(o), prefix) == []
  {
    if Truthy(o.title) { SingleOther("title=" + UrlEncoding.EncodeURIComponent(o.title.value), prefix); }
  }

  lemma YearPartsSelect(o: ListOptions, prefix: string)
    requires |prefix| > 0 && prefix[0] != 'y'
    ensures PartsWithPrefix(YearParts(o), prefix) == []
  {
    if o.year.Some? { SingleOther("year=" + YearString(o.year.value), prefix); }
  }

  /** A `title=` part is sent exactly when the title is truthy, once, encoded. */
  lemma ListTitlePart(o: ListOptions)
    ensures PartsWithPrefix(ListQueryParts(o), "title=")
         == (if Truthy(o.title) then ["title=" + UrlEncoding.EncodeURIComponent(o.title.value)] else [])
  {
    var p := "title=";
    ListPartsSelect(o, p);
    if Truthy(o.title) { SingleSelected(p, UrlEncoding.EncodeURIComponent(o.title.value)); }
    YearPartsSelect(o, p);
    EachPartOther("status[]=", ListStatus(o), true, p);
    EachPartOther("contentRating[]=", ListRatings(o), true, p);
  }

  /**
    A `year=` part is sent exactly when `year` is given at all, with its value
    as written; so an empty-string year is still sent, as `year=`.
  */
  lemma ListYearPart(o: ListOptions)
    ensures PartsWithPrefix(ListQueryParts(o), "year=")
         == (if o.year.Some? then ["year=" + YearString(o.year.value)] else [])
    ensures o.year == Some(YearText("")) ==> PartsWithPrefix(ListQueryParts(o), "year=") == ["year="]
  {
    var p := "year=";
    ListPartsSelect(o, p);
    TitlePartsSelect(o, p);
    if o.year.Some? { SingleSelected(p, YearString(o.year.value)); }
    EachPartOther("status[]=", ListStatus(o), true, p);
    EachPartOther("contentRating[]=", ListRatings(o), true, p);
    if o.year == Some(YearText("")) {
      assert "year=" + YearString(o.year.value) == "year=";
    }
  }

  /** One encoded `status[]=` part per status, in the given order and number. */
  lemma ListStatusParts(o: ListOptions)
    ensures PartsWithPrefix(ListQueryParts(o), "status[]=") == EachPart("status[]=", o.status.GetOr([]), true)
  {
    var p := "status[]=";
    ListPartsSelect(o, p);
    TitlePartsSelect(o, p);
    YearPartsSelect(o, p);
    EachPartSelected(p, ListStatus(o), true);
    EachPartOther("contentRating[]=", ListRatings(o), true, p);
  }

  /** One encoded `contentRating[]=` part per rating, in the given order and number. */
  lemma ListContentRatingParts(o: ListOptions)
    ensures PartsWithPrefix(ListQueryParts(o), "contentRating[]=") == EachPart("contentRating[]=", o.contentRating.GetOr([]), true)
  {
    var p := "contentRating[]=";
    ListPartsSelect(o, p);
    TitlePartsSelect(o, p);
    YearPartsSelect(o, p);
    EachPartOther("status[]=", ListStatus(o), true, p);
    EachPartSelected(p, ListRatings(o), true);
  }

  // ---------------------------------------------------------------------------
  // getMangaDetails

  const DetailsIncludes: seq<string> := ["cover_art", "author", "artist"]

  /** `includesParams.map(inc => `includes[]=${inc}`).join("&")`. */
  function DetailsQuery(): string
  {
    Text.Join(EachPart("includes[]=", DetailsIncludes, false), "&")
  }

  lemma DetailsQueryParts()
    ensures EachPart("includes[]=", DetailsIncludes, false)
         == ["includes[]=cover_art", "includes[]=author", "includes[]=artist"]
  {
    var r := EachPart("includes[]=", DetailsIncludes, false);
    assert r[0] == "includes[]=" + "cover_art" == "includes[]=cover_art";
    assert r[1] == "includes[]=" + "author" == "includes[]=author";
    assert r[2] == "includes[]=" + "artist" == "includes[]=artist";
  }

  lemma DetailsUrl(id: string)
    ensures WithQuery(BaseUrl + "/manga/" + id, DetailsQuery())
         == "/api/md-proxy/manga/" + id + "?" + Text.Join(["includes[]=cover_art", "includes[]=author", "includes[]=artist"], "&")
  {
    DetailsQueryParts();
    var q := Text.Join(["includes[]=cover_art", "includes[]=author", "includes[]=artist"], "&");
    Text.JoinEmpty(["includes[]=cover_art", "includes[]=author", "includes[]=artist"], "&");
    assert BaseUrl + "/manga/" == "/api/md-proxy/manga/";
  }

  /**
    `getMangaDetails(id)`: nothing is requested for an empty id; otherwise
    `/api/md-proxy/manga/<id>` with the includes `cover_art`, `author` and
    `artist` is requested, and any 2xx body is returned.
  */
  function GetMangaDetails(id: string, outcome: Fetched<EntityResponse<Manga>>): (r: Call<EntityResponse<Manga>>)
    ensures r.request.None? <==> id == ""
    ensures r.request.Some? ==>
      r.request.value == "/api/md-proxy/manga/" + id + "?"
        + Text.Join(["includes[]=cover_art", "includes[]=author", "includes[]=artist"], "&")
    ensures r.result.Some? <==> id != "" && outcome.Ok?
    ensures r.result.Some? ==> r.result.value == outcome.body
  {
    if id == "" then Call(None, None)
    else
      DetailsUrl(id);
      Call(Some(WithQuery(BaseUrl + "/manga/" + id, DetailsQuery())), Collapse(outcome))
  }

  /** The `try/catch`: a 2xx body comes through, anything else is `null`. */
  function Collapse<T>(outcome: Fetched<T>): (r: Option<T>)
    ensures r.Some? <==> outcome.Ok?
    ensures r.Some? ==> r.value == outcome.body
  {
    if outcome.Ok? then Some(outcome.body) else None
  }

  // ---------------------------------------------------------------------------
  // getMangaChapters

  /** `FetchMangaFeedOptions`. */
  datatype FeedOptions = FeedOptions(
    limit: Option<int>,
    offset: Option<int>,
    translatedLanguage: Option<seq<string>>,
    order: Option<seq<(string, string)>>,
    includes: Option<seq<string>>,
    contentRating: Option<seq<string>>)

  const NoFeedOptions := FeedOptions(None, None, None, None, None, None)

  /**
    The parts `getMangaChapters` pushes after its defaults (limit 50, offset 0,
    language `en`, order volume then chapter descending, includes
    `scanlation_group`, no content rating). No value is URI-encoded.
  */
  function FeedQueryParts(o: FeedOptions): seq<string>
  {
    ["limit=" + Text.IntToDecimal(o.limit.GetOr(50)), "offset=" + Text.IntToDecimal(o.offset.GetOr(0))]
    + OrderParts(o.order.GetOr([("volume", "desc"), ("chapter", "desc")]), false)
    + EachPart("translatedLanguage[]=", o.translatedLanguage.GetOr(["en"]), false)
    + EachPart("includes[]=", o.includes.GetOr(["scanlation_group"]), false)
    + EachPart("contentRating[]=", o.contentRating.GetOr([]), false)
  }

  function FeedUrl(id: string, o: FeedOptions): string
  {
    WithQuery(BaseUrl + "/manga/" + id + "/feed", Text.Join(NonEmptyParts(FeedQueryParts(o)), "&"))
  }

  /** The imperative query builder of `getMangaChapters`. */
  method BuildFeedQuery(o: FeedOptions) returns (query: string)
    ensures query == Text.Join(NonEmptyParts(FeedQueryParts(o)), "&")
  {
    var parts: seq<string> := [];
    parts := parts + ["limit=" + Text.IntToDecimal(o.limit.GetOr(50))];
    parts := parts + ["offset=" + Text.IntToDecimal(o.offset.GetOr(0))];
    parts := PushOrder(parts, o.order.GetOr([("volume", "desc"), ("chapter", "desc")]), false);
    parts := PushEach(parts, "translatedLanguage[]=", o.translatedLanguage.GetOr(["en"]), false);
    parts := PushEach(parts, "includes[]=", o.includes.GetOr(["scanlation_group"]), false);
    parts := PushEach(parts, "contentRating[]=", o.contentRating.GetOr([]), false);
    assert parts == FeedQueryParts(o);
    query := Text.Join(NonEmptyParts(parts), "&");
  }

  /**
    `getMangaChapters(mangaId, options)`: nothing is requested for an empty
    id; otherwise the feed URL is requested and any 2xx body is returned.
  */
  method GetMangaChapters(mangaId: string, o: FeedOptions, outcome: Fetched<ListResponse<Chapter>>)
    returns (request: Option<string>, result: Option<ListResponse<Chapter>>)
    ensures request.None? <==> mangaId == ""
    ensures request.Some? ==> request.value == FeedUrl(mangaId, o)
    ensures result.Some? <==> mangaId != "" && outcome.Ok?
    ensures result.Some? ==> result.value == outcome.body
  {
    if mangaId == "" {
      return None, None;
    }
    var query := BuildFeedQuery(o);
    request := Some(WithQuery(BaseUrl + "/manga/" + mangaId + "/feed", query));
    result := Collapse(outcome);
  }

  lemma DecimalFifty()
    ensures Text.IntToDecimal(50) == "50"
  {
    assert Text.NatToDecimal(5) == "5";
    assert Text.NatToDecimal(50) == Text.NatToDecimal(5) + [Text.DigitChar(0)];
  }

  lemma DefaultFeedLimitParts()
    ensures ["limit=" + Text.IntToDecimal(50), "offset=" + Text.IntToDecimal(0)] == ["limit=50", "offset=0"]
  {
    DecimalFifty();
    assert Text.IntToDecimal(0) == "0";
    assert "limit=" + "50" == "limit=50";
    assert "offset=" + "0" == "offset=0";
  }

  lemma DefaultFeedOrderParts()
    ensures OrderParts([("volume", "desc"), ("chapter", "desc")], false) == ["order[volume]=desc", "order[chapter]=desc"]
  {
    var r := OrderParts([("volume", "desc"), ("chapter", "desc")], false);
    assert r[0] == "order[" + "volume" + "]=" + "desc" == "order[volume]=desc";
    assert r[1] == "order[" + "chapter" + "]=" + "desc" == "order[chapter]=desc";
  }

  lemma DefaultFeedArrayParts()
    ensures EachPart("translatedLanguage[]=", ["en"], false) == ["translatedLanguage[]=en"]
    ensures EachPart("includes[]=", ["scanlation_group"], false) == ["includes[]=scanlation_group"]
  {
    EachPartOne("translatedLanguage[]=", "en", false);
    assert "translatedLanguage[]=" + "en" == "translatedLanguage[]=en";
    EachPartOne("includes[]=", "scanlation_group", false);
    assert "includes[]=" + "scanlation_group" == "includes[]=scanlation_group";
  }

  lemma DefaultFeedParts()
    ensures FeedQueryParts(NoFeedOptions)
         == ["limit=50", "offset=0", "order[volume]=desc", "order[chapter]=desc", "translatedLanguage[]=en", "includes[]=scanlation_group"]
  {
    DefaultFeedLimitParts();
    DefaultFeedOrderParts();
    DefaultFeedArrayParts();
    assert EachPart("contentRating[]=", [], false) == [];
  }

  /**
    With no options, the feed of `id` is requested at `manga/<id>/feed` with
    `limit=50`, `offset=0`, `order[volume]=desc`, `order[chapter]=desc`,
    `translatedLanguage[]=en` and `includes[]=scanlation_group`, joined with `&`.
  */
  lemma DefaultFeedUrl(id: string)
    ensures FeedUrl(id, NoFeedOptions)
         == "/api/md-proxy/manga/" + id + "/feed?"
          + Text.Join(["limit=50", "offset=0", "order[volume]=desc", "order[chapter]=desc", "translatedLanguage[]=en", "includes[]=scanlation_group"], "&")
  {
    var parts := ["limit=50", "offset=0", "order[volume]=desc", "order[chapter]=desc", "translatedLanguage[]=en", "includes[]=scanlation_group"];
    DefaultFeedParts();
    NonEmptyPartsKeep(parts);
    Text.JoinEmpty(parts, "&");
    FeedUrlShape(id, Text.Join(parts, "&"));
  }

  lemma FeedUrlShape(id: string, query: string)
    requires query != ""
    ensures WithQuery(BaseUrl + "/manga/" + id + "/feed", query) == "/api/md-proxy/manga/" + id + "/feed?" + query
  {
    assert BaseUrl + "/manga/" == "/api/md-proxy/manga/";
    assert "/feed" + "?" == "/feed?";
    calc {
      WithQuery(BaseUrl + "/manga/" + id + "/feed", query);
      BaseUrl + "/manga/" + id + "/feed" + ("?" + query);
      "/api/md-proxy/manga/" + id + ("/feed" + "?") + query;
      "/api/md-proxy/manga/" + id + "/feed?" + query;
    }
  }

  /** The feed sends each language as it is, one part per language, in order. */
  lemma FeedLanguageParts(o: FeedOptions)
    ensures PartsWithPrefix(FeedQueryParts(o), "translatedLanguage[]=")
         == EachPart("translatedLanguage[]=", o.translatedLanguage.GetOr(["en"]), false)
    ensures forall i :: 0 <= i < |o.translatedLanguage.GetOr(["en"])| ==>
      EachPart("translatedLanguage[]=", o.translatedLanguage.GetOr(["en"]), false)[i]
        == "translatedLanguage[]=" + o.translatedLanguage.GetOr(["en"])[i]
  {
    var p := "translatedLanguage[]=";
    var a := ["limit=" + Text.IntToDecimal(o.limit.GetOr(50)), "offset=" + Text.IntToDecimal(o.offset.GetOr(0))];
    var b := OrderParts(o.order.GetOr([("volume", "desc"), ("chapter", "desc")]), false);
    var c := EachPart(p, o.translatedLanguage.GetOr(["en"]), false);
    var d := EachPart("includes[]=", o.includes.GetOr(["scanlation_group"]), false);
    var e := EachPart("contentRating[]=", o.contentRating.GetOr([]), false);
    assert FeedQueryParts(o) == a + b + c + d + e;
    PartsWithPrefixNone(a, p);
    OrderPartsOther(o.order.GetOr([("volume", "desc"), ("chapter", "desc")]), false, p);
    EachPartSelected(p, o.translatedLanguage.GetOr(["en"]), false);
    EachPartOther("includes[]=", o.includes.GetOr(["scanlation_group"]), false, p);
    EachPartOther("contentRating[]=", o.contentRating.GetOr([]), false, p);
    PartsWithPrefixConcat(a + b + c + d, e, p);
    PartsWithPrefixConcat(a + b + c, d, p);
    PartsWithPrefixConcat(a + b, c, p);
    PartsWithPrefixConcat(a, b, p);
  }

  // ---------------------------------------------------------------------------
  // getChapterPagesData

  /**
    `getChapterPagesData(chapterId)`: nothing is requested for an empty id;
    otherwise `/api/md-proxy/at-home/server/<id>` is requested, and a 2xx body
    comes through only when its `result` is `"ok"` — the one wrapper that
    checks it.
  */
  function GetChapterPagesData(chapterId: string, outcome: Fetched<AtHomeResponse>): (r: Call<AtHomeResponse>)
    ensures r.request.None? <==> chapterId == ""
    ensures r.request.Some? ==> r.request.value == "/api/md-proxy/at-home/server/" + chapterId
    ensures r.result.Some? <==> chapterId != "" && outcome.Ok? && outcome.body.result == "ok"
    ensures r.result.Some? ==> r.result.value == outcome.body
  {
    if chapterId == "" then Call(None, None)
    else
      var url := BaseUrl + "/at-home/server/" + chapterId;
      match outcome
      case Ok(body) => Call(Some(url), if body.result != "ok" then None else Some(body))
      case HttpError(_) => Call(Some(url), None)
      case Thrown => Call(Some(url), None)
  }
}
