/**
 * The chapter part of `set_id3_tags` (fm4-7tage-download.py, lines 407 and
 * 457-487): the CHAP frames, sorted by start with the longest chapter first,
 * with starts made unique by bumping each to at least one millisecond past the
 * previous one, ends clamped to the audio duration; and the CTOC frame listing
 * the visible chapters in the order they were passed in. Chapter images and the
 * other ID3 text frames are outside the model.
 */
module Id3Chapters {
  import opened Wrappers
  import opened Sorting
  import opened Records

  /** A CHAP frame: element id, start and end time in ms, and its TIT2 sub-frame if any. */
  datatype ChapFrame = ChapFrame(elementId: string, startTime: int, endTime: int, title: Option<string>)

  /** The TIT2 sub-frame is added only for a title that is present and not empty (line 462). */
  function SubTitle(title: Option<string>): (r: Option<string>)
    ensures r.Some? <==> title.Some? && title.value != []
    ensures r.Some? ==> r == title
  {
    if title.Some? && title.value != [] then title else None
  }

  /**
   * The CHAP frames of the chapters `cs`, already sorted, when the previous
   * chapter's start time was `previous`.
   */
  function FramesFrom(cs: seq<Chapter>, previous: int, duration: int): (r: seq<ChapFrame>)
    requires previous >= -1
    ensures |r| == |cs|
  {
    if cs == [] then []
    else
      var c := cs[0];
      var chapterStart := Max(c.start, previous + 1);
      [ChapFrame(c.id, Max(0, chapterStart), Min(c.end, duration), SubTitle(c.title))]
        + FramesFrom(cs[1..], chapterStart, duration)
  }

  /** The CHAP frames of `set_id3_tags`: sorted by (start, longest first), no previous start yet. */
  function Frames(chapters: seq<Chapter>, keepmarks: seq<Keepmark>): seq<ChapFrame>
  {
    FramesFrom(SortBy(chapters, ChapterOrderKey), -1, TotalDuration(keepmarks))
  }

  /** The CTOC child ids: the ids of the visible chapters, in the order given. */
  function TocChildren(chapters: seq<Chapter>): (r: seq<string>)
    ensures |r| <= |chapters|
    ensures forall x :: x in r <==> exists c :: c in chapters && !c.hidden && c.id == x
  {
    if chapters == [] then []
    else
      var front := TocChildren(chapters[..|chapters| - 1]);
      var c := chapters[|chapters| - 1];
      assert chapters == chapters[..|chapters| - 1] + [c];
      if c.hidden then front else front + [c.id]
  }

  /** `sum(end-start for start, end in keepmarks)`: the length of the cut audio (line 407). */
  method BroadcastDuration(keepmarks: seq<Keepmark>) returns (duration: int)
    ensures duration == TotalDuration(keepmarks)
  {
    duration := 0;
    var j := 0;
    while j < |keepmarks|
      invariant 0 <= j <= |keepmarks|
      invariant duration == TotalDuration(keepmarks[..j])
    {
      assert keepmarks[..j + 1][..j] == keepmarks[..j];
      duration := duration + (keepmarks[j].end - keepmarks[j].start);
      j := j + 1;
    }
    assert keepmarks[..j] == keepmarks;
  }

  /** The loop at lines 459-480 over the chapters already sorted, starting with a previous start of -1. */
  method SortedChapterFrames(sorted: seq<Chapter>, duration: int) returns (frames: seq<ChapFrame>)
    ensures frames == FramesFrom(sorted, -1, duration)
  {
    frames := [];
    var previousStart := -1;
    var i := 0;
    ghost var all := FramesFrom(sorted, -1, duration);
    assert sorted[0..] == sorted;
    while i < |sorted|
      invariant 0 <= i <= |sorted| && previousStart >= -1
      invariant frames + FramesFrom(sorted[i..], previousStart, duration) == all
    {
      var c := sorted[i];
      assert sorted[i..][0] == c && sorted[i..][1..] == sorted[i + 1..];
      var chapterStart := Max(c.start, previousStart + 1);
      var frame := ChapFrame(c.id, Max(0, chapterStart), Min(c.end, duration), SubTitle(c.title));
      ghost var rest := FramesFrom(sorted[i + 1..], chapterStart, duration);
      assert FramesFrom(sorted[i..], previousStart, duration) == [frame] + rest;
      assert (frames + [frame]) + rest == frames + ([frame] + rest);
      frames := frames + [frame];
      previousStart := chapterStart;
      i := i + 1;
    }
  }

  /** The CHAP frames and the CTOC child list `set_id3_tags` writes for the chapters and keepmarks. */
  method ChapterFrames(chapters: seq<Chapter>, keepmarks: seq<Keepmark>) returns (frames: seq<ChapFrame>, toc: seq<string>)
    ensures frames == Frames(chapters, keepmarks)
    ensures toc == TocChildren(chapters)
    ensures |frames| == |chapters|
    ensures forall k, l :: 0 <= k < l < |frames| ==> frames[k].startTime < frames[l].startTime
    ensures forall k :: 0 <= k < |frames| ==> 0 <= frames[k].startTime && frames[k].endTime <= TotalDuration(keepmarks)
  {
    var duration := BroadcastDuration(keepmarks);
    var sorted := SortBy(chapters, ChapterOrderKey);
    SortByIsSortedPermutation(chapters, ChapterOrderKey);
    frames := SortedChapterFrames(sorted, duration);
    FramesProperties(sorted, -1, duration);
    toc := TocChildren(chapters);
  }

  /**
   * Frame k belongs to chapter k: same id, end clamped to the duration, title
   * sub-frame; its start is at least the chapter's and past the previous start,
   * and the starts rise strictly, as ID3 requires of CHAP frames.
   */
  lemma {:induction false} FramesProperties(cs: seq<Chapter>, previous: int, duration: int)
    requires previous >= -1
    ensures var r := FramesFrom(cs, previous, duration);
      && (forall k :: 0 <= k < |r| ==>
        && r[k].elementId == cs[k].id
        && r[k].endTime == Min(cs[k].end, duration)
        && r[k].title == SubTitle(cs[k].title)
        && r[k].startTime >= cs[k].start
        && r[k].startTime > previous)
      && (forall k, l :: 0 <= k < l < |r| ==> r[k].startTime < r[l].startTime)
  {
    if cs != [] {
      var chapterStart := Max(cs[0].start, previous + 1);
      FramesProperties(cs[1..], chapterStart, duration);
      var r := FramesFrom(cs, previous, duration);
      var t := FramesFrom(cs[1..], chapterStart, duration);
      assert r == [ChapFrame(cs[0].id, Max(0, chapterStart), Min(cs[0].end, duration), SubTitle(cs[0].title))] + t;
      assert forall k :: 0 < k < |r| ==> r[k] == t[k - 1] && cs[k] == cs[1..][k - 1];
    }
  }

  /** Chapters whose starts already rise strictly, after the previous start, keep their start times. */
  lemma {:induction false} DistinctStartsKept(cs: seq<Chapter>, previous: int, duration: int)
    requires previous >= -1
    requires |cs| > 0 ==> cs[0].start > previous
    requires forall k :: 0 < k < |cs| ==> cs[k - 1].start < cs[k].start
    ensures forall k :: 0 <= k < |cs| ==> FramesFrom(cs, previous, duration)[k].startTime == cs[k].start
  {
    if cs != [] {
      var r := FramesFrom(cs, previous, duration);
      var t := FramesFrom(cs[1..], cs[0].start, duration);
      assert r == [ChapFrame(cs[0].id, cs[0].start, Min(cs[0].end, duration), SubTitle(cs[0].title))] + t;
      DistinctStartsKept(cs[1..], cs[0].start, duration);
      assert forall k :: 0 < k < |cs| ==> r[k] == t[k - 1];
    }
  }

  /** Two chapters starting together: the longer one keeps the start, the shorter one moves 1 ms on. */
  lemma EqualStartsBumped()
    ensures
      var short := Chapter("chp1", 0, 50, None, false, None, "M");
      var long := Chapter("chp2", 0, 100, Some("Show"), false, None, "B");
      Frames([short, long], [Keepmark(0, 80)])
        == [ChapFrame("chp2", 0, 80, Some("Show")), ChapFrame("chp1", 1, 50, None)]
  {
    var short := Chapter("chp1", 0, 50, None, false, None, "M");
    var long := Chapter("chp2", 0, 100, Some("Show"), false, None, "B");
    assert [short, long][1..] == [long] && [long][1..] == [];
    assert SortBy([long], ChapterOrderKey) == [long];
    assert Insert(short, [long], ChapterOrderKey) == [long] + Insert(short, [], ChapterOrderKey);
    assert SortBy([short, long], ChapterOrderKey) == [long, short];
    assert TotalDuration([Keepmark(0, 80)]) == 80;
    assert [long, short][1..] == [short] && [short][1..] == [];
    assert FramesFrom([short], 0, 80) == [ChapFrame("chp1", 1, 50, None)];
  }

  /** The CTOC list keeps the order in which the chapters were given: it splits over concatenation. */
  lemma {:induction false} TocChildrenConcat(a: seq<Chapter>, b: seq<Chapter>)
    ensures TocChildren(a + b) == TocChildren(a) + TocChildren(b)
    decreases |b|
  {
    if b == [] {
      assert a + b == a;
    } else {
      var b' := b[..|b| - 1];
      assert (a + b)[..|a + b| - 1] == a + b';
      TocChildrenConcat(a, b');
    }
  }

  /** A visible chapter given before another visible one comes first in the CTOC, whatever their starts. */
  lemma TocFollowsInputOrder()
    ensures
      var late := Chapter("chp1", 5000, 6000, None, false, None, "M");
      var early := Chapter("chp2", 0, 1000, None, false, None, "M");
      TocChildren([late, early]) == ["chp1", "chp2"]
        && Frames([late, early], [Keepmark(0, 10000)])[0].elementId == "chp2"
  {
    var late := Chapter("chp1", 5000, 6000, None, false, None, "M");
    var early := Chapter("chp2", 0, 1000, None, false, None, "M");
    assert [late, early][..1] == [late];
    assert [late][..0] == [];
    assert [late, early][1..] == [early] && [early][1..] == [];
    assert SortBy([early], ChapterOrderKey) == [early];
    assert Insert(late, [early], ChapterOrderKey) == [early] + Insert(late, [], ChapterOrderKey);
    assert SortBy([late, early], ChapterOrderKey) == [early, late];
  }
}
