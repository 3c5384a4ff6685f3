/**
 * `align_chapters_to_keepmarks` (fm4-7tage-download.py, lines 212-277): after
 * the cut, each chapter's start and end are moved onto the shortened timeline by
 * subtracting the total length of the gaps before the keepmark they fall in;
 * chapters with no part inside a keepmark are dropped.
 */
module Alignment {
  import opened Wrappers
  import opened Sorting
  import opened Records

  /** Total length of all gaps before keepmark i: its start minus the time kept before it. */
  function GapBefore(ks: seq<Keepmark>, i: nat): int
    requires i < |ks|
  {
    ks[i].start - TotalDuration(ks[..i])
  }

  /** The `gaps` loop (lines 224-230). */
  method CumulativeGaps(ks: seq<Keepmark>) returns (gaps: seq<int>)
    ensures |gaps| == |ks|
    ensures forall i :: 0 <= i < |ks| ==> gaps[i] == ks[i].start - TotalDuration(ks[..i])
  {
    gaps := [];
    var gap := 0;
    var previousEnd := 0;
    var i := 0;
    while i < |ks|
      invariant 0 <= i <= |ks|
      invariant |gaps| == i
      invariant forall j :: 0 <= j < i ==> gaps[j] == GapBefore(ks, j)
      invariant gap == (if i == 0 then 0 else GapBefore(ks, i - 1))
      invariant previousEnd == (if i == 0 then 0 else ks[i - 1].end)
    {
      assert ks[..i + 1][..i] == ks[..i];
      if i > 0 {
        assert ks[..i][..i - 1] == ks[..i - 1];
      }
      gap := gap + ks[i].start - previousEnd;
      previousEnd := ks[i].end;
      gaps := gaps + [gap];
      i := i + 1;
    }
  }

  /** Outcome of one scan over the keepmarks: the chapter is skipped, a time is found, or neither. */
  datatype Scan = Skipped | Found(time: int) | NotFound

  /** The forward scan (lines 240-250) from keepmark j on: the new start. */
  function ForwardScan(c: Chapter, ks: seq<Keepmark>, j: nat): Scan
    requires j <= |ks|
    decreases |ks| - j
  {
    if j == |ks| then NotFound
    else if c.end < ks[j].start then Skipped
    else if c.start <= ks[j].end then Found(Max(c.start, ks[j].start) - GapBefore(ks, j))
    else ForwardScan(c, ks, j + 1)
  }

  /** The backward scan (lines 256-266) over keepmarks j-1 down to 0: the new end. */
  function BackwardScan(c: Chapter, ks: seq<Keepmark>, j: nat): Scan
    requires j <= |ks|
  {
    if j == 0 then NotFound
    else if c.start > ks[j - 1].end then Skipped
    else if c.end >= ks[j - 1].start then Found(Min(c.end, ks[j - 1].end) - GapBefore(ks, j - 1))
    else BackwardScan(c, ks, j - 1)
  }

  /** One chapter against the sorted keepmarks: its re-timed copy, or None when it is dropped. */
  function AlignOne(c: Chapter, ks: seq<Keepmark>): Option<Chapter>
  {
    var forward := ForwardScan(c, ks, 0);
    if forward.Skipped? then None
    else
      var backward := BackwardScan(c, ks, |ks|);
      if backward.Skipped? then None
      else if forward.Found? && backward.Found? && forward.time < backward.time then
        Some(c.(start := forward.time, end := Min(backward.time, TotalDuration(ks))))
      else None
  }

  /** The surviving chapters of the sorted list, in order. */
  function AlignedSorted(cs: seq<Chapter>, ks: seq<Keepmark>): seq<Chapter>
  {
    if cs == [] then []
    else
      AlignedSorted(cs[..|cs| - 1], ks) + (match AlignOne(cs[|cs| - 1], ks) case Some(a) => [a] case None => [])
  }

  /** `align_chapters_to_keepmarks(chapters, keepmarks)`: both lists are sorted by start first. */
  function Aligned(chapters: seq<Chapter>, keepmarks: seq<Keepmark>): seq<Chapter>
  {
    AlignedSorted(SortBy(chapters, ChapterStartKey), SortBy(keepmarks, KeepmarkKey))
  }

  /** a is b with, at most, other start and end times. */
  predicate Retimed(a: Chapter, b: Chapter)
  {
    a == b.(start := a.start, end := a.end)
  }

  /** a is a re-timed copy of one of the chapters. */
  ghost predicate RetimedFrom(a: Chapter, chapters: seq<Chapter>)
  {
    exists c :: c in chapters && Retimed(a, c)
  }

  /** Positions in cs of the chapters that survive. */
  ghost function SurvivorPositions(cs: seq<Chapter>, ks: seq<Keepmark>): (ps: seq<nat>)
    ensures forall i :: 0 <= i < |ps| ==> ps[i] < |cs|
    ensures forall i, j :: 0 <= i < j < |ps| ==> ps[i] < ps[j]
  {
    if cs == [] then []
    else SurvivorPositions(cs[..|cs| - 1], ks) + (if AlignOne(cs[|cs| - 1], ks).Some? then [|cs| - 1] else [])
  }

  /**
   * Every output chapter is a re-timed copy of an input chapter, the copies keep
   * the input order, and every end is at most the total kept duration.
   */
  lemma {:induction false} AlignedSortedSources(cs: seq<Chapter>, ks: seq<Keepmark>)
    ensures |AlignedSorted(cs, ks)| == |SurvivorPositions(cs, ks)| <= |cs|
    ensures forall i :: 0 <= i < |AlignedSorted(cs, ks)| ==>
      Retimed(AlignedSorted(cs, ks)[i], cs[SurvivorPositions(cs, ks)[i]])
    ensures forall i :: 0 <= i < |AlignedSorted(cs, ks)| ==> AlignedSorted(cs, ks)[i].end <= TotalDuration(ks)
  {
    if cs != [] {
      AlignedSortedSources(cs[..|cs| - 1], ks);
    }
  }

  /** A found start lies between the time kept before the keepmark and the total kept time. */
  lemma {:induction false} ForwardScanBounds(c: Chapter, ks: seq<Keepmark>, j: nat)
    requires j <= |ks| && WellFormed(ks)
    ensures ForwardScan(c, ks, j).Found? ==> 0 <= ForwardScan(c, ks, j).time <= TotalDuration(ks)
    decreases |ks| - j
  {
    if j < |ks| && !(c.end < ks[j].start) {
      if c.start <= ks[j].end {
        TotalDurationPrefix(ks, j);
        TotalDurationPrefix(ks, j + 1);
        assert ks[..j + 1][..j] == ks[..j];
      } else {
        ForwardScanBounds(c, ks, j + 1);
      }
    }
  }

  /** A found end is at most the total kept time. */
  lemma {:induction false} BackwardScanBounds(c: Chapter, ks: seq<Keepmark>, j: nat)
    requires j <= |ks| && WellFormed(ks)
    ensures BackwardScan(c, ks, j).Found? ==> BackwardScan(c, ks, j).time <= TotalDuration(ks)
  {
    if j > 0 && !(c.start > ks[j - 1].end) {
      if c.end >= ks[j - 1].start {
        TotalDurationPrefix(ks, j);
        assert ks[..j][..j - 1] == ks[..j - 1];
      } else {
        BackwardScanBounds(c, ks, j - 1);
      }
    }
  }

  /** Over well-formed keepmarks every surviving chapter has `0 <= start < end <= total kept duration`. */
  lemma AlignOneBounds(c: Chapter, ks: seq<Keepmark>)
    requires WellFormed(ks)
    ensures AlignOne(c, ks).Some? ==>
      0 <= AlignOne(c, ks).value.start < AlignOne(c, ks).value.end <= TotalDuration(ks)
  {
    ForwardScanBounds(c, ks, 0);
    BackwardScanBounds(c, ks, |ks|);
  }

  /** No keepmark ends after a later one starts; touching keepmarks, as `get_keepmarks` emits, are allowed. */
  ghost predicate NonOverlapping(ks: seq<Keepmark>)
  {
    forall a, b :: 0 <= a < b < |ks| ==> ks[a].end <= ks[b].start
  }

  /** When keepmark j ends where keepmark i starts, every keepmark between them is empty. */
  lemma {:induction false} TouchingPrefix(ks: seq<Keepmark>, j: nat, i: nat)
    requires j < i < |ks| && WellFormed(ks) && NonOverlapping(ks)
    requires ks[j].end == ks[i].start
    ensures TotalDuration(ks[..i]) == TotalDuration(ks[..j + 1])
    decreases i - j
  {
    if i > j + 1 {
      assert ks[j].end <= ks[i - 1].start <= ks[i - 1].end <= ks[i].start;
      TouchingPrefix(ks, j, i - 1);
      assert ks[..i][..i - 1] == ks[..i - 1];
    }
  }

  /** Keepmarks j and i that touch have the same gap before them. */
  lemma GapsAcrossTouch(ks: seq<Keepmark>, j: nat, i: nat)
    requires j < i < |ks| && WellFormed(ks) && NonOverlapping(ks)
    requires ks[j].end == ks[i].start
    ensures GapBefore(ks, j) == GapBefore(ks, i)
  {
    TouchingPrefix(ks, j, i);
    assert ks[..j + 1][..j] == ks[..j];
    assert TotalDuration(ks[..j + 1]) == TotalDuration(ks[..j]) + Length(ks[j]);
  }

  /** The forward scan from keepmark j finds the start of a chapter lying inside keepmark i. */
  lemma {:induction false} ForwardScanFinds(c: Chapter, ks: seq<Keepmark>, j: nat, i: nat)
    requires j <= i < |ks| && WellFormed(ks) && NonOverlapping(ks)
    requires ks[i].start <= c.start < c.end <= ks[i].end
    ensures ForwardScan(c, ks, j) == Found(c.start - GapBefore(ks, i))
    decreases i - j
  {
    if j < i {
      assert ks[j].start <= ks[j].end <= ks[i].start;
      if c.start <= ks[j].end {
        assert ForwardScan(c, ks, j) == Found(c.start - GapBefore(ks, j));
        GapsAcrossTouch(ks, j, i);
      } else {
        assert ForwardScan(c, ks, j) == ForwardScan(c, ks, j + 1);
        ForwardScanFinds(c, ks, j + 1, i);
      }
    }
  }

  /** The backward scan below keepmark j finds the end of a chapter lying inside keepmark i. */
  lemma {:induction false} BackwardScanFinds(c: Chapter, ks: seq<Keepmark>, j: nat, i: nat)
    requires i < j <= |ks| && WellFormed(ks) && NonOverlapping(ks)
    requires ks[i].start <= c.start < c.end <= ks[i].end
    ensures BackwardScan(c, ks, j) == Found(c.end - GapBefore(ks, i))
    decreases j
  {
    if j > i + 1 {
      assert ks[i].end <= ks[j - 1].start <= ks[j - 1].end;
      if c.end >= ks[j - 1].start {
        assert BackwardScan(c, ks, j) == Found(c.end - GapBefore(ks, j - 1));
        GapsAcrossTouch(ks, i, j - 1);
      } else {
        assert BackwardScan(c, ks, j) == BackwardScan(c, ks, j - 1);
        BackwardScanFinds(c, ks, j - 1, i);
      }
    }
  }

  /** A chapter inside keepmark i moves left by exactly the gaps before keepmark i. */
  lemma ChapterInsideKeepmark(c: Chapter, ks: seq<Keepmark>, i: nat)
    requires i < |ks| && WellFormed(ks) && NonOverlapping(ks)
    requires ks[i].start <= c.start < c.end <= ks[i].end
    ensures AlignOne(c, ks) == Some(c.(start := c.start - GapBefore(ks, i), end := c.end - GapBefore(ks, i)))
  {
    ForwardScanFinds(c, ks, 0, i);
    BackwardScanFinds(c, ks, |ks|, i);
    TotalDurationPrefix(ks, i + 1);
    assert ks[..i + 1][..i] == ks[..i];
  }

  lemma {:induction false} TotalDurationConcat(a: seq<Keepmark>, b: seq<Keepmark>)
    ensures TotalDuration(a + b) == TotalDuration(a) + TotalDuration(b)
  {
    if b != [] {
      assert (a + b)[..|a + b| - 1] == a + b[..|b| - 1];
      TotalDurationConcat(a, b[..|b| - 1]);
    } else {
      assert a + b == a;
    }
  }

  lemma {:induction false} TotalDurationInsert(x: Keepmark, s: seq<Keepmark>)
    ensures TotalDuration(Insert(x, s, KeepmarkKey)) == Length(x) + TotalDuration(s)
  {
    TotalDurationConcat([x], s);
    assert TotalDuration([x]) == Length(x) by {
      assert [x][..0] == [];
    }
    if s != [] && !KeyLessEq(KeepmarkKey(x), KeepmarkKey(s[0])) {
      TotalDurationInsert(x, s[1..]);
      TotalDurationConcat([s[0]], Insert(x, s[1..], KeepmarkKey));
      TotalDurationConcat([s[0]], s[1..]);
      assert TotalDuration([s[0]]) == Length(s[0]) by {
        assert [s[0]][..0] == [];
      }
      assert s == [s[0]] + s[1..];
    }
  }

  /** Sorting the keepmarks does not change the total kept duration. */
  lemma {:induction false} TotalDurationSorted(ks: seq<Keepmark>)
    ensures TotalDuration(SortBy(ks, KeepmarkKey)) == TotalDuration(ks)
  {
    if ks != [] {
      TotalDurationSorted(ks[1..]);
      TotalDurationInsert(ks[0], SortBy(ks[1..], KeepmarkKey));
      TotalDurationConcat([ks[0]], ks[1..]);
      assert TotalDuration([ks[0]]) == Length(ks[0]) by {
        assert [ks[0]][..0] == [];
      }
      assert ks == [ks[0]] + ks[1..];
    }
  }

  /** What `align_chapters_to_keepmarks` guarantees, for all inputs and for well-formed keepmarks. */
  lemma AlignedProperties(chapters: seq<Chapter>, keepmarks: seq<Keepmark>)
    ensures |Aligned(chapters, keepmarks)| <= |chapters|
    ensures forall i :: 0 <= i < |Aligned(chapters, keepmarks)| ==> Aligned(chapters, keepmarks)[i].end <= TotalDuration(keepmarks)
    ensures forall i :: 0 <= i < |Aligned(chapters, keepmarks)| ==> RetimedFrom(Aligned(chapters, keepmarks)[i], chapters)
    ensures WellFormed(keepmarks) ==> forall i :: 0 <= i < |Aligned(chapters, keepmarks)| ==>
      0 <= Aligned(chapters, keepmarks)[i].start < Aligned(chapters, keepmarks)[i].end
  {
    var cs, ks := SortBy(chapters, ChapterStartKey), SortBy(keepmarks, KeepmarkKey);
    SortByIsSortedPermutation(chapters, ChapterStartKey);
    SortByIsSortedPermutation(keepmarks, KeepmarkKey);
    TotalDurationSorted(keepmarks);
    AlignedSortedSources(cs, ks);
    var out, ps := AlignedSorted(cs, ks), SurvivorPositions(cs, ks);
    assert out == Aligned(chapters, keepmarks);
    forall i | 0 <= i < |out| ensures RetimedFrom(out[i], chapters) {
      assert cs[ps[i]] in multiset(chapters);
    }
    if WellFormed(keepmarks) {
      assert WellFormed(ks) by {
        forall i | 0 <= i < |ks| ensures ks[i].start <= ks[i].end {
          assert ks[i] in multiset(keepmarks);
        }
      }
      forall i | 0 <= i < |out| ensures 0 <= out[i].start < out[i].end {
        AlignedSortedMember(cs, ks, i);
      }
    }
  }

  /** Output chapter i is AlignOne of its source chapter. */
  lemma {:induction false} AlignedSortedMember(cs: seq<Chapter>, ks: seq<Keepmark>, i: nat)
    requires WellFormed(ks)
    requires i < |AlignedSorted(cs, ks)|
    ensures 0 <= AlignedSorted(cs, ks)[i].start < AlignedSorted(cs, ks)[i].end
  {
    var n := |cs|;
    var front := AlignedSorted(cs[..n - 1], ks);
    AlignOneBounds(cs[n - 1], ks);
    if i < |front| {
      AlignedSortedMember(cs[..n - 1], ks, i);
      assert AlignedSorted(cs, ks)[i] == front[i];
    }
  }

  /** Output chapters keep the order of their original starts. */
  lemma AlignedKeepsOrder(chapters: seq<Chapter>, keepmarks: seq<Keepmark>)
    ensures forall i, j :: 0 <= i < j < |SurvivorPositions(SortBy(chapters, ChapterStartKey), SortBy(keepmarks, KeepmarkKey))| ==>
      SortBy(chapters, ChapterStartKey)[SurvivorPositions(SortBy(chapters, ChapterStartKey), SortBy(keepmarks, KeepmarkKey))[i]].start
      <= SortBy(chapters, ChapterStartKey)[SurvivorPositions(SortBy(chapters, ChapterStartKey), SortBy(keepmarks, KeepmarkKey))[j]].start
  {
    var cs := SortBy(chapters, ChapterStartKey);
    var ps := SurvivorPositions(cs, SortBy(keepmarks, KeepmarkKey));
    SortByIsSortedPermutation(chapters, ChapterStartKey);
    forall i, j | 0 <= i < j < |ps| ensures cs[ps[i]].start <= cs[ps[j]].start {
      assert KeyLessEq(ChapterStartKey(cs[ps[i]]), ChapterStartKey(cs[ps[j]]));
    }
  }

  /**
   * The body of the chapter loop (lines 236-275) for one chapter: the forward
   * scan for the start, the backward scan for the end, and the final test.
   */
  method AlignChapter(chapter: Chapter, ks: seq<Keepmark>, gaps: seq<int>, duration: int) returns (result: Option<Chapter>)
    requires |gaps| == |ks| && forall i :: 0 <= i < |ks| ==> gaps[i] == ks[i].start - TotalDuration(ks[..i])
    requires duration == TotalDuration(ks)
    ensures result == AlignOne(chapter, ks)
  {
    var start: Option<int> := None;
    var end: Option<int> := None;
    var skipChapter := false;
    var j := 0;
    while j < |ks|
      invariant 0 <= j <= |ks|
      invariant ForwardScan(chapter, ks, j) == ForwardScan(chapter, ks, 0)
      invariant !skipChapter && start.None?
    {
      if chapter.end < ks[j].start {
        skipChapter := true;
        break;
      }
      if chapter.start <= ks[j].end {
        start := Some(Max(chapter.start, ks[j].start) - gaps[j]);
        break;
      }
      j := j + 1;
    }
    if skipChapter {
      return None;
    }
    assert start.Some? <==> ForwardScan(chapter, ks, 0).Found?;
    assert start.Some? ==> start.value == ForwardScan(chapter, ks, 0).time;
    j := |ks|;
    while j > 0
      invariant 0 <= j <= |ks|
      invariant BackwardScan(chapter, ks, j) == BackwardScan(chapter, ks, |ks|)
      invariant !skipChapter && end.None?
    {
      if chapter.start > ks[j - 1].end {
        skipChapter := true;
        break;
      }
      if chapter.end >= ks[j - 1].start {
        end := Some(Min(chapter.end, ks[j - 1].end) - gaps[j - 1]);
        break;
      }
      j := j - 1;
    }
    if skipChapter {
      return None;
    }
    assert end.Some? <==> BackwardScan(chapter, ks, |ks|).Found?;
    assert end.Some? ==> end.value == BackwardScan(chapter, ks, |ks|).time;
    if start.Some? && end.Some? && start.value < end.value {
      result := Some(chapter.(start := start.value, end := Min(end.value, duration)));
    } else {
      result := None;
    }
  }

  /** `align_chapters_to_keepmarks`, with its loops. */
  method AlignChaptersToKeepmarks(chapters: seq<Chapter>, keepmarks: seq<Keepmark>) returns (aligned: seq<Chapter>)
    ensures aligned == Aligned(chapters, keepmarks)
    ensures |aligned| <= |chapters|
    ensures forall i :: 0 <= i < |aligned| ==> aligned[i].end <= TotalDuration(keepmarks)
    ensures forall i :: 0 <= i < |aligned| ==> RetimedFrom(aligned[i], chapters)
    ensures WellFormed(keepmarks) ==> forall i :: 0 <= i < |aligned| ==> 0 <= aligned[i].start < aligned[i].end
  {
    var cs := SortBy(chapters, ChapterStartKey);
    var ks := SortBy(keepmarks, KeepmarkKey);
    var duration := TotalDuration(ks);
    var gaps := CumulativeGaps(ks);
    aligned := [];
    var n := 0;
    while n < |cs|
      invariant 0 <= n <= |cs|
      invariant aligned == AlignedSorted(cs[..n], ks)
    {
      assert cs[..n + 1][..n] == cs[..n];
      var result := AlignChapter(cs[n], ks, gaps, duration);
      if result.Some? {
        aligned := aligned + [result.value];
      }
      n := n + 1;
    }
    assert cs[..n] == cs;
    AlignedProperties(chapters, keepmarks);
  }

  /** Keepmarks `[0,1000]` and `[3000,4000]` move the chapter `[500,3500]` to `[500,1500]`. */
  lemma RealignExample()
    ensures Aligned([Chapter("chp1", 500, 3500, Some("Interview"), false, None, "B")],
                    [Keepmark(0, 1000), Keepmark(3000, 4000)])
      == [Chapter("chp1", 500, 1500, Some("Interview"), false, None, "B")]
  {
    var c := Chapter("chp1", 500, 3500, Some("Interview"), false, None, "B");
    var ks := [Keepmark(0, 1000), Keepmark(3000, 4000)];
    assert SortBy([c], ChapterStartKey) == [c];
    assert SortBy(ks, KeepmarkKey) == ks;
    assert ks[..0] == [] && ks[..1] == [Keepmark(0, 1000)] && ks[..2][..1] == ks[..1] && ks[..2] == ks;
    assert TotalDuration(ks[..1]) == 1000;
    assert TotalDuration(ks) == 2000;
    assert ForwardScan(c, ks, 0) == Found(500);
    assert BackwardScan(c, ks, 2) == Found(1500);
    assert AlignOne(c, ks) == Some(c.(start := 500, end := 1500));
    assert [c][..0] == [];
  }
}
