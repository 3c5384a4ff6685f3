/**
 * `get_chapters` (fm4-7tage-download.py, lines 86-132): the broadcast's items,
 * sorted by start and, for equal starts, longest first, become chapters; items
 * that are not a "BroadcastItem" are skipped but still use up an id number.
 */
module Chapters {
  import opened Wrappers
  import opened Sorting
  import opened Records
  import opened Html

  function DigitChar(d: nat): char
    requires d < 10
  {
    ('0' as int + d) as char
  }

  /** Decimal notation without leading zeros, as an f-string prints an int. */
  function NatToString(n: nat): (r: string)
    ensures |r| >= 1 && (|r| == 1 <==> n < 10)
  {
    if n < 10 then [DigitChar(n)] else NatToString(n / 10) + [DigitChar(n % 10)]
  }

  /** Different numbers print differently. */
  lemma {:induction false} NatToStringInjective(a: nat, b: nat)
    requires NatToString(a) == NatToString(b)
    ensures a == b
  {
    if a >= 10 {
      var sa, sb := NatToString(a), NatToString(b);
      assert b >= 10;
      assert sa[..|sa| - 1] == NatToString(a / 10);
      assert sb[..|sb| - 1] == NatToString(b / 10);
      NatToStringInjective(a / 10, b / 10);
      assert DigitChar(a % 10) == sa[|sa| - 1] == sb[|sb| - 1] == DigitChar(b % 10);
    } else {
      assert b < 10;
    }
  }

  /** `f'chp{item_num+1}'`. */
  function ChapterId(n: nat): string
  {
    "chp" + NatToString(n)
  }

  lemma ChapterIdInjective(a: nat, b: nat)
    requires a != b
    ensures ChapterId(a) != ChapterId(b)
  {
    if ChapterId(a) == ChapterId(b) {
      assert ChapterId(a)[3..] == NatToString(a);
      assert ChapterId(b)[3..] == NatToString(b);
      NatToStringInjective(a, b);
    }
  }

  /** `key=lambda x: (x['start'], 1/x['end'])` on items. */
  function ItemOrderKey(it: Item): SortKey
  {
    SortKey(it.start, -it.end)
  }

  /** A value Python's `filter(None, ...)` and `if title:` treat as true: present and non-empty. */
  predicate Filled(s: Option<string>)
  {
    s.Some? && s.value != ""
  }

  /**
   * The non-empty ones of the stripped interpreter and title, joined with ": ";
   * `or` falls back to the stripped description when that is empty.
   */
  function TitleFrom(interpreter: Option<string>, title: Option<string>, description: Option<string>): Option<string>
  {
    var joined :=
      if Filled(interpreter) && Filled(title) then interpreter.value + ": " + title.value
      else if Filled(interpreter) then interpreter.value
      else if Filled(title) then title.value
      else "";
    if joined != "" then Some(joined) else description
  }

  /** The chapter built from the item numbered n (counted from 1 over the sorted items). */
  function ChapterOf(it: Item, n: nat, b: Broadcast): Chapter
  {
    ChapterTitled(it, n, b, TitleFrom(StrippedText(it.interpreter), StrippedText(it.title), StrippedText(it.description)))
  }

  /** The chapter of the item numbered n whose joined title text is `title`. */
  function ChapterTitled(it: Item, n: nat, b: Broadcast, title: Option<string>): Chapter
  {
    var title' :=
      if it.itemType == "W" then Some("* WERBUNG *")
      else if it.itemType == "J" then Some("* JINGLE *")
      else if Filled(title) then title
      else None;
    Chapter(
      ChapterId(n),
      Max(0, it.start - b.start),
      Min(it.end, b.end) - b.start,
      title',
      it.itemType == "W" || it.itemType == "J" || !Filled(title'),
      it.images,
      it.itemType)
  }

  predicate IsBroadcastItem(it: Item)
  {
    it.entity == "BroadcastItem"
  }

  /**
   * The elements of s that `keep` accepts, each passed to `make` with its
   * position plus one: `enumerate` numbers every element, kept or not.
   */
  function KeptNumbered<T, U>(s: seq<T>, keep: T -> bool, make: (T, nat) -> U): seq<U>
  {
    if s == [] then []
    else
      var n := |s|;
      KeptNumbered(s[..n - 1], keep, make) + (if keep(s[n - 1]) then [make(s[n - 1], n)] else [])
  }

  /** The positions of the elements `keep` accepts, in order. */
  function KeptPositions<T>(s: seq<T>, keep: T -> bool): (ps: seq<nat>)
    ensures forall k :: 0 <= k < |ps| ==> ps[k] < |s| && keep(s[ps[k]])
    ensures forall k, l :: 0 <= k < l < |ps| ==> ps[k] < ps[l]
  {
    if s == [] then []
    else
      var n := |s|;
      KeptPositions(s[..n - 1], keep) + (if keep(s[n - 1]) then [n - 1] else [])
  }

  /** Element k of KeptNumbered is made from the element at KeptPositions[k]; one per accepted element. */
  lemma {:induction false} KeptNumberedSources<T, U>(s: seq<T>, keep: T -> bool, make: (T, nat) -> U)
    ensures |KeptNumbered(s, keep, make)| == |KeptPositions(s, keep)| == CountWhere(s, keep)
    ensures forall k :: 0 <= k < |KeptNumbered(s, keep, make)| ==>
      KeptNumbered(s, keep, make)[k] == make(s[KeptPositions(s, keep)[k]], KeptPositions(s, keep)[k] + 1)
  {
    if s != [] {
      var n := |s|;
      var front := s[..n - 1];
      KeptNumberedSources(front, keep, make);
      CountSplit(front, s[n - 1], keep);
      assert s == front + [s[n - 1]];
      var cs, ps := KeptNumbered(s, keep, make), KeptPositions(s, keep);
      var cs', ps' := KeptNumbered(front, keep, make), KeptPositions(front, keep);
      forall k | 0 <= k < |cs| ensures cs[k] == make(s[ps[k]], ps[k] + 1) {
        if k < |cs'| {
          assert cs[k] == cs'[k] && ps[k] == ps'[k] && s[ps[k]] == front[ps'[k]];
        }
      }
    }
  }

  lemma {:induction false} CountSplit<T>(s: seq<T>, x: T, p: T -> bool)
    ensures CountWhere(s + [x], p) == CountWhere(s, p) + (if p(x) then 1 else 0)
  {
    if s != [] {
      assert (s + [x])[1..] == s[1..] + [x];
      CountSplit(s[1..], x, p);
    } else {
      assert ([x])[1..] == [];
    }
  }

  /** Chapters of the (already sorted) items, numbering every item, skipping other entities. */
  function Extracted(items: seq<Item>, b: Broadcast): seq<Chapter>
  {
    KeptNumbered(items, IsBroadcastItem, (it: Item, n: nat) => ChapterOf(it, n, b))
  }

  /** The positions of the BroadcastItems among the items. */
  function ItemPositions(items: seq<Item>): seq<nat>
  {
    KeptPositions(items, IsBroadcastItem)
  }

  /** Chapter k is built from the item at position ItemPositions(items)[k], numbered one higher; one per BroadcastItem. */
  lemma ExtractedSources(items: seq<Item>, b: Broadcast)
    ensures |Extracted(items, b)| == |ItemPositions(items)| == CountWhere(items, IsBroadcastItem)
    ensures forall k :: 0 <= k < |Extracted(items, b)| ==>
      Extracted(items, b)[k] == ChapterOf(items[ItemPositions(items)[k]], ItemPositions(items)[k] + 1, b)
  {
    KeptNumberedSources(items, IsBroadcastItem, (it: Item, n: nat) => ChapterOf(it, n, b));
  }

  /** Chapter k keeps the rules and takes its id and times from item ItemPositions(items)[k]. */
  lemma ExtractedBuilt(items: seq<Item>, b: Broadcast)
    ensures |Extracted(items, b)| == |ItemPositions(items)|
    ensures forall k :: 0 <= k < |Extracted(items, b)| ==>
      BuiltFrom(Extracted(items, b)[k], items[ItemPositions(items)[k]], ItemPositions(items)[k] + 1, b)
  {
    ExtractedSources(items, b);
    var cs, ps := Extracted(items, b), ItemPositions(items);
    forall k | 0 <= k < |cs| ensures BuiltFrom(cs[k], items[ps[k]], ps[k] + 1, b) {
      ChapterOfFields(items[ps[k]], ps[k] + 1, b);
    }
  }

  /** The type rules for titles and the hidden flag, and the clamping of times. */
  ghost predicate ChapterRules(c: Chapter, b: Broadcast)
  {
    && 0 <= c.start
    && c.end <= b.end - b.start
    && (c.chapterType == "W" ==> c.title == Some("* WERBUNG *") && c.hidden)
    && (c.chapterType == "J" ==> c.title == Some("* JINGLE *") && c.hidden)
    && (c.title.None? ==> c.hidden)
    && (c.title.Some? ==> c.title.value != "")
    && (c.hidden <==> c.chapterType == "W" || c.chapterType == "J" || c.title.None?)
  }

  /** Chapter c keeps the rules and has the id of number n and the clamped times of item it. */
  ghost predicate BuiltFrom(c: Chapter, it: Item, n: nat, b: Broadcast)
  {
    && ChapterRules(c, b)
    && c.id == ChapterId(n)
    && c.start == Max(0, it.start - b.start)
    && c.end == Min(it.end, b.end) - b.start
  }

  /** Every extracted chapter keeps the type rules for its title and hidden flag, and the clamping. */
  lemma ExtractedRules(items: seq<Item>, b: Broadcast)
    ensures forall k :: 0 <= k < |Extracted(items, b)| ==> ChapterRules(Extracted(items, b)[k], b)
  {
    ExtractedBuilt(items, b);
    var cs, ps := Extracted(items, b), ItemPositions(items);
    forall k | 0 <= k < |cs| ensures ChapterRules(cs[k], b) {
      assert BuiltFrom(cs[k], items[ps[k]], ps[k] + 1, b);
    }
  }

  /** Extracted chapters have distinct ids. */
  lemma ExtractedIdsDistinct(items: seq<Item>, b: Broadcast)
    ensures forall k, l :: 0 <= k < l < |Extracted(items, b)| ==>
      Extracted(items, b)[k].id != Extracted(items, b)[l].id
  {
    ExtractedBuilt(items, b);
    var cs, ps := Extracted(items, b), ItemPositions(items);
    forall k, l | 0 <= k < l < |cs| ensures cs[k].id != cs[l].id {
      assert ps[k] < ps[l];
      ChapterIdInjective(ps[k] + 1, ps[l] + 1);
      assert BuiltFrom(cs[k], items[ps[k]], ps[k] + 1, b) && BuiltFrom(cs[l], items[ps[l]], ps[l] + 1, b);
    }
  }

  /**
   * Over sorted items, chapter starts never fall, and of two chapters with the same
   * positive start the longer comes first (at start 0 the clamping can hide the order).
   */
  lemma ExtractedOrder(items: seq<Item>, b: Broadcast)
    requires SortedBy(items, ItemOrderKey)
    ensures forall k, l :: 0 <= k < l < |Extracted(items, b)| ==>
      Extracted(items, b)[k].start <= Extracted(items, b)[l].start
    ensures forall k, l :: 0 <= k < l < |Extracted(items, b)| && 0 < Extracted(items, b)[k].start == Extracted(items, b)[l].start ==>
      Extracted(items, b)[k].end >= Extracted(items, b)[l].end
  {
    ExtractedBuilt(items, b);
    var cs, ps := Extracted(items, b), ItemPositions(items);
    forall k, l | 0 <= k < l < |cs|
      ensures cs[k].start <= cs[l].start
      ensures 0 < cs[k].start == cs[l].start ==> cs[k].end >= cs[l].end
    {
      assert BuiltFrom(cs[k], items[ps[k]], ps[k] + 1, b) && BuiltFrom(cs[l], items[ps[l]], ps[l] + 1, b);
      assert KeyLessEq(ItemOrderKey(items[ps[k]]), ItemOrderKey(items[ps[l]]));
    }
  }

  /** The chapter of an item keeps the rules, and its id and times come from the number and the item. */
  lemma ChapterOfFields(it: Item, n: nat, b: Broadcast)
    ensures BuiltFrom(ChapterOf(it, n, b), it, n, b)
  {
  }

  /** What `get_chapters` guarantees, stated on the broadcast's unsorted items. */
  lemma ChaptersOfBroadcast(b: Broadcast)
    ensures |Extracted(SortBy(b.items, ItemOrderKey), b)| == CountWhere(b.items, IsBroadcastItem)
    ensures forall k :: 0 <= k < |Extracted(SortBy(b.items, ItemOrderKey), b)| ==>
      ChapterRules(Extracted(SortBy(b.items, ItemOrderKey), b)[k], b)
    ensures forall k, l :: 0 <= k < l < |Extracted(SortBy(b.items, ItemOrderKey), b)| ==>
      Extracted(SortBy(b.items, ItemOrderKey), b)[k].id != Extracted(SortBy(b.items, ItemOrderKey), b)[l].id
    ensures forall k, l :: 0 <= k < l < |Extracted(SortBy(b.items, ItemOrderKey), b)| ==>
      Extracted(SortBy(b.items, ItemOrderKey), b)[k].start <= Extracted(SortBy(b.items, ItemOrderKey), b)[l].start
    ensures forall k, l ::
      (0 <= k < l < |Extracted(SortBy(b.items, ItemOrderKey), b)|
       && 0 < Extracted(SortBy(b.items, ItemOrderKey), b)[k].start == Extracted(SortBy(b.items, ItemOrderKey), b)[l].start) ==>
      Extracted(SortBy(b.items, ItemOrderKey), b)[k].end >= Extracted(SortBy(b.items, ItemOrderKey), b)[l].end
  {
    var items := SortBy(b.items, ItemOrderKey);
    SortByIsSortedPermutation(b.items, ItemOrderKey);
    SortByKeepsCount(b.items, ItemOrderKey, IsBroadcastItem);
    ExtractedSources(items, b);
    ExtractedRules(items, b);
    ExtractedIdsDistinct(items, b);
    ExtractedOrder(items, b);
  }

  /** `strip_html` of the interpreter, title and description of an item (lines 112-113). */
  method StripItemTexts(item: Item) returns (interpreter: Option<string>, title: Option<string>, description: Option<string>)
    ensures interpreter == StrippedText(item.interpreter)
    ensures title == StrippedText(item.title)
    ensures description == StrippedText(item.description)
  {
    interpreter := StripHtml(item.interpreter);
    title := StripHtml(item.title);
    description := StripHtml(item.description);
  }

  /** The body of the loop for one BroadcastItem numbered n, given its joined title text (lines 98-128). */
  method MakeChapter(item: Item, n: nat, b: Broadcast, text: Option<string>) returns (chapter: Chapter)
    ensures chapter == ChapterTitled(item, n, b, text)
  {
    var chapterTitle := text;
    if !Filled(chapterTitle) {
      chapterTitle := None;
    }
    var hidden := false;
    if item.itemType == "W" {
      chapterTitle := Some("* WERBUNG *");
      hidden := true;
    } else if item.itemType == "J" {
      chapterTitle := Some("* JINGLE *");
      hidden := true;
    }
    if !Filled(chapterTitle) {
      hidden := true;
    }
    chapter := Chapter(
      ChapterId(n),
      Max(0, item.start - b.start),
      Min(item.end, b.end) - b.start,
      chapterTitle, hidden, item.images, item.itemType);
  }

  /** `get_chapters`, with its loop. */
  method GetChapters(b: Broadcast) returns (chapters: seq<Chapter>)
    ensures chapters == Extracted(SortBy(b.items, ItemOrderKey), b)
    ensures |chapters| == CountWhere(b.items, IsBroadcastItem)
    ensures forall k :: 0 <= k < |chapters| ==> ChapterRules(chapters[k], b)
    ensures forall k, l :: 0 <= k < l < |chapters| ==> chapters[k].id != chapters[l].id
    ensures forall k, l :: 0 <= k < l < |chapters| ==> chapters[k].start <= chapters[l].start
    ensures forall k, l :: 0 <= k < l < |chapters| && 0 < chapters[k].start == chapters[l].start ==> chapters[k].end >= chapters[l].end
  {
    var items := SortBy(b.items, ItemOrderKey);
    chapters := [];
    var i := 0;
    while i < |items|
      invariant 0 <= i <= |items|
      invariant chapters == Extracted(items[..i], b)
    {
      assert items[..i + 1][..i] == items[..i];
      var item := items[i];
      if item.entity != "BroadcastItem" {
        i := i + 1;
        continue;
      }
      var interpreter, title, description := StripItemTexts(item);
      var chapter := MakeChapter(item, i + 1, b, TitleFrom(interpreter, title, description));
      chapters := chapters + [chapter];
      i := i + 1;
    }
    assert items[..i] == items;
    ChaptersOfBroadcast(b);
  }
}
