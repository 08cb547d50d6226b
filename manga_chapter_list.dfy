/**
  The chapter list of the detail page: a fixed message when there are no
  chapters, otherwise one entry per chapter, in order, linking to the reader
  and showing "Vol. v Ch. c: title", the language in capitals and the
  scanlation group's name.
*/
module MangaChapterList {
  import opened Wrappers
  import Text
  import opened MangaTypes
  import Utils

  const EmptyMessage := "Belum ada chapter yang tersedia."
  const ReadBase := "/read/"
  const NoChapterNumber := "N/A"

  // ---------------------------------------------------------------------------
  // the label

  /** `volume && "Vol. <volume> "`: nothing for a missing or empty volume. */
  function VolumePart(volume: Option<string>): string
  {
    if Truthy(volume) then "Vol. " + volume.value + " " else ""
  }

  /** `"Ch. " + (chapter || "N/A")`. */
  function NumberPart(chapter: Option<string>): string
  {
    "Ch. " + (if Truthy(chapter) then chapter.value else NoChapterNumber)
  }

  /** `title && ": <title>"`: nothing for a missing or empty title. */
  function TitlePart(title: Option<string>): string
  {
    if Truthy(title) then ": " + title.value else ""
  }

  /** The text of a chapter's link. */
  function ChapterLabel(a: ChapterAttributes): (r: string)
  {
    VolumePart(a.volume) + NumberPart(a.chapter) + TitlePart(a.title)
  }

  /** The label begins with "Vol. " exactly when the volume is non-empty, and otherwise with "Ch. ". */
  lemma LabelStart(a: ChapterAttributes)
    ensures Text.StartsWith(ChapterLabel(a), "Vol. ") <==> Truthy(a.volume)
    ensures !Truthy(a.volume) ==> Text.StartsWith(ChapterLabel(a), "Ch. ")
  {
    var r := ChapterLabel(a);
    var v, n, t := VolumePart(a.volume), NumberPart(a.chapter), TitlePart(a.title);
    if Truthy(a.volume) {
      assert r == "Vol. " + ((a.volume.value + " ") + n + t);
      Text.PrefixOfConcat("Vol. ", (a.volume.value + " ") + n + t);
    } else {
      var digits := if Truthy(a.chapter) then a.chapter.value else NoChapterNumber;
      assert r == "Ch. " + (digits + t);
      Text.PrefixOfConcat("Ch. ", digits + t);
      Text.DiffersAt(r, "Vol. ", 0);
    }
  }

  /**
    The chapter part reads "Ch. N/A" when the chapter number is missing or
    empty; the label ends with ": <title>" when the title is non-empty; and
    with neither volume nor title it is the chapter part alone.
  */
  lemma LabelParts(a: ChapterAttributes)
    ensures !Truthy(a.chapter) ==> NumberPart(a.chapter) == "Ch. N/A"
    ensures Truthy(a.title) ==> ChapterLabel(a)[|ChapterLabel(a)| - |a.title.value| - 2..] == ": " + a.title.value
    ensures !Truthy(a.volume) && !Truthy(a.title) ==> ChapterLabel(a) == NumberPart(a.chapter)
  {
    var v, n, t := VolumePart(a.volume), NumberPart(a.chapter), TitlePart(a.title);
    if Truthy(a.title) {
      assert ChapterLabel(a) == (v + n) + (": " + a.title.value);
    } else {
      assert v + n + t == v + n;
    }
  }

  // ---------------------------------------------------------------------------
  // the language

  /** `c.toUpperCase()` for one character, on the ASCII letters. */
  function UpperChar(c: char): (r: char)
    ensures !('a' <= r <= 'z')
    ensures !('a' <= c <= 'z') ==> r == c
  {
    if 'a' <= c <= 'z' then (c as int - 32) as char else c
  }

  /** `s.toUpperCase()`, for ASCII letters: same length, each lower-case letter raised. */
  function UpperAscii(s: string): (r: string)
    ensures |r| == |s|
    ensures forall i :: 0 <= i < |s| ==> r[i] == UpperChar(s[i])
  {
    seq(|s|, i requires 0 <= i < |s| => UpperChar(s[i]))
  }

  /** Raising twice is raising once, and text without lower-case ASCII letters is left as it is. */
  lemma UpperAsciiIdempotent(s: string)
    ensures UpperAscii(UpperAscii(s)) == UpperAscii(s)
    ensures (forall i :: 0 <= i < |s| ==> !('a' <= s[i] <= 'z')) ==> UpperAscii(s) == s
  {
  }

  // ---------------------------------------------------------------------------
  // the list

  /** One link of the list. */
  datatype Entry = Entry(href: string, text: string, language: string, group: string)

  /** What the list renders. */
  datatype ChapterListView = NoChapters(message: string) | Entries(entries: seq<Entry>)

  /** The reader address of a chapter. */
  function ReadHref(chapterId: string): (r: string)
    ensures Text.StartsWith(r, ReadBase) && r[|ReadBase|..] == chapterId
  {
    Text.PrefixOfConcat(ReadBase, chapterId);
    ReadBase + chapterId
  }

  /** The entry of one chapter. */
  function EntryOf(c: Chapter): Entry
  {
    Entry(
      ReadHref(c.id),
      ChapterLabel(c.attributes),
      UpperAscii(c.attributes.translatedLanguage),
      Utils.RelationshipName(c.relationships, "scanlation_group"))
  }

  /**
    The component: only the message for no chapters; otherwise one entry
    per chapter, in the order of the chapters.
  */
  function ChapterList(chapters: seq<Chapter>): (r: ChapterListView)
    ensures r.NoChapters? <==> |chapters| == 0
    ensures r.NoChapters? ==> r.message == EmptyMessage
    ensures r.Entries? ==>
      && |r.entries| == |chapters|
      && (forall k :: 0 <= k < |chapters| ==> r.entries[k] == EntryOf(chapters[k]))
  {
    if |chapters| == 0 then NoChapters(EmptyMessage)
    else Entries(seq(|chapters|, k requires 0 <= k < |chapters| => EntryOf(chapters[k])))
  }

  /**
    Every entry links to the reader page of its own chapter: the chapter id
    can be read back from the link, so chapters with different ids never
    share a link.
  */
  lemma LinksIdentifyChapters(chapters: seq<Chapter>, i: int, j: int)
    requires 0 <= i < |chapters| && 0 <= j < |chapters|
    ensures ChapterList(chapters).entries[i].href[|ReadBase|..] == chapters[i].id
    ensures ChapterList(chapters).entries[i].href == ChapterList(chapters).entries[j].href <==> chapters[i].id == chapters[j].id
  {
  }

  /**
    The group shown is "Tidak diketahui" when the chapter has no scanlation
    group; otherwise it comes from the first group, and groups listed after it
    never change it.
  */
  lemma GroupShown(c: Chapter, more: seq<Relationship>)
    ensures Utils.FirstOfKind(c.relationships, "scanlation_group").None? ==> EntryOf(c).group == Utils.UnknownName
    ensures Utils.FirstOfKind(c.relationships, "scanlation_group").Some? ==>
      EntryOf(c.(relationships := c.relationships + more)).group == EntryOf(c).group
  {
    Utils.RelationshipNameFirst(c.relationships, "scanlation_group", more);
  }
}
