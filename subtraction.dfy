/**
 * Cutting chapters of unwanted types out of the keepmarks:
 * `remove_chapters_from_keepmark` (fm4-7tage-download.py, lines 159-191) and
 * `remove_chaptertypes_from_keepmarks` (lines 194-209), plus the chapter filter
 * of `main` (line 560).
 */
module Subtraction {
  import opened Wrappers
  import opened Sorting
  import opened Records

  /**
   * `remove_chapters_from_keepmark(k, cs)`, as written. The loop over `cs` is
   * recursion on the remaining suffix. Both recursive calls of the source pass
   * `chapters[chapter_num:]`, the suffix that still starts with the current
   * chapter; that chapter then ends at the new keepmark's start and is skipped
   * (or stops the scan), which the second component of `decreases` accounts for.
   * The chapter that reaches past the keepmark's end from inside it `break`s out
   * of the loop, so the keepmark is returned whole.
   */
  function RemoveChaptersFromKeepmark(k: Keepmark, cs: seq<Chapter>): (r: seq<Keepmark>)
    ensures |r| >= 1 && r[|r| - 1].end == k.end
    ensures forall i :: 0 <= i < |r| ==> k.start <= r[i].start && r[i].end <= k.end
    decreases |cs|, if cs != [] && cs[0].end <= k.start then 0 else 1
  {
    if cs == [] then [k]
    else
      var c := cs[0];
      if c.start > k.end then [k]
      else if c.end <= k.start then RemoveChaptersFromKeepmark(k, cs[1..])
      else if c.start >= k.start && c.end >= k.end then [k]
      else if c.start < k.start then RemoveChaptersFromKeepmark(Keepmark(c.end, k.end), cs)
      else
        // Here k.start <= c.start and k.start < c.end < k.end: the chapter lies inside.
        [Keepmark(k.start, c.start)] + RemoveChaptersFromKeepmark(Keepmark(Min(c.end, k.end), k.end), cs)
  }

  /** Point p of the original timeline lies in the half-open range of chapter c. */
  predicate Covers(c: Chapter, p: int)
  {
    c.start <= p < c.end
  }

  /** Point p lies in one of the keepmarks. */
  ghost predicate Kept(ks: seq<Keepmark>, p: int)
  {
    exists i :: 0 <= i < |ks| && ks[i].start <= p < ks[i].end
  }

  /** A keepmark no chapter reaches into is returned unchanged. */
  lemma {:induction false} UntouchedKeepmark(k: Keepmark, cs: seq<Chapter>)
    requires forall j :: 0 <= j < |cs| ==> !(cs[j].end > k.start && cs[j].start <= k.end)
    ensures RemoveChaptersFromKeepmark(k, cs) == [k]
    decreases |cs|
  {
    if cs != [] && cs[0].start <= k.end {
      UntouchedKeepmark(k, cs[1..]);
    }
  }

  /** Nothing is cut that no chapter covers: uncovered points of k stay kept. */
  lemma {:induction false} UncoveredPointsKept(k: Keepmark, cs: seq<Chapter>, p: int)
    requires k.start <= p < k.end
    requires forall j :: 0 <= j < |cs| ==> !Covers(cs[j], p)
    ensures Kept(RemoveChaptersFromKeepmark(k, cs), p)
    decreases |cs|, if cs != [] && cs[0].end <= k.start then 0 else 1
  {
    var r := RemoveChaptersFromKeepmark(k, cs);
    if cs == [] {
      assert r[0] == k;
    } else {
      var c := cs[0];
      assert !Covers(c, p);
      if c.start > k.end {
        assert r[0] == k;
      } else if c.end <= k.start {
        UncoveredPointsKept(k, cs[1..], p);
      } else if c.start >= k.start && c.end >= k.end {
        assert r[0] == k;
      } else if c.start < k.start {
        UncoveredPointsKept(Keepmark(c.end, k.end), cs, p);
      } else {
        var left := Keepmark(k.start, c.start);
        var right := Keepmark(Min(c.end, k.end), k.end);
        var rest := RemoveChaptersFromKeepmark(right, cs);
        assert r == [left] + rest;
        if p < c.start {
          assert r[0] == left;
        } else {
          UncoveredPointsKept(right, cs, p);
          var i :| 0 <= i < |rest| && rest[i].start <= p < rest[i].end;
          assert r[i + 1] == rest[i];
        }
      }
    }
  }

  /**
   * Chapter c starts inside k and reaches k's end or beyond: the case the
   * `break` of line 178 leaves whole.
   */
  predicate Overhangs(k: Keepmark, c: Chapter)
  {
    k.start <= c.start < k.end <= c.end
  }

  /** A point outside k is in none of the pieces of k. */
  lemma OutsideNotKept(k: Keepmark, cs: seq<Chapter>, p: int)
    requires p < k.start || k.end <= p
    ensures !Kept(RemoveChaptersFromKeepmark(k, cs), p)
  {
  }

  /** A piece missing p in front of pieces missing p. */
  lemma NotKeptCons(left: Keepmark, rest: seq<Keepmark>, p: int)
    requires !(left.start <= p < left.end) && !Kept(rest, p)
    ensures !Kept([left] + rest, p)
  {
    var r := [left] + rest;
    forall i | 0 <= i < |r| ensures !(r[i].start <= p < r[i].end) {
      if i > 0 {
        assert r[i] == rest[i - 1];
      }
    }
  }

  /** Shrinking a keepmark from the left to start at or after k's start adds no overhang. */
  lemma NoOverhangShrunk(k: Keepmark, s: int, cs: seq<Chapter>)
    requires k.start <= s
    requires forall j :: 0 <= j < |cs| ==> !Overhangs(k, cs[j])
    ensures forall j :: 0 <= j < |cs| ==> !Overhangs(Keepmark(s, k.end), cs[j])
  {
  }

  /**
   * Every point a chapter covers is cut out of k, for chapters in start order
   * (as `get_chapters` emits them) when none of them overhangs k's end.
   */
  lemma {:induction false} CoveredPointsCut(k: Keepmark, cs: seq<Chapter>, p: int)
    requires SortedBy(cs, ChapterStartKey)
    requires forall j :: 0 <= j < |cs| ==> !Overhangs(k, cs[j])
    requires exists j :: 0 <= j < |cs| && Covers(cs[j], p)
    ensures !Kept(RemoveChaptersFromKeepmark(k, cs), p)
    decreases |cs|, if cs != [] && cs[0].end <= k.start then 0 else 1
  {
    var j :| 0 <= j < |cs| && Covers(cs[j], p);
    var c := cs[0];
    assert c.start <= p by {
      if j > 0 {
        assert KeyLessEq(ChapterStartKey(cs[0]), ChapterStartKey(cs[j]));
      }
    }
    if c.start > k.end {
      OutsideNotKept(k, cs, p);
    } else if c.end <= k.start {
      if j == 0 {
        OutsideNotKept(k, cs, p);
      } else {
        assert SortedBy(cs[1..], ChapterStartKey);
        assert cs[1..][j - 1] == cs[j];
        CoveredPointsCut(k, cs[1..], p);
        assert RemoveChaptersFromKeepmark(k, cs) == RemoveChaptersFromKeepmark(k, cs[1..]);
      }
    } else if c.start >= k.start && c.end >= k.end {
      assert !Overhangs(k, c);
      OutsideNotKept(k, cs, p);
    } else if c.start < k.start {
      NoOverhangShrunk(k, c.end, cs);
      CoveredPointsCut(Keepmark(c.end, k.end), cs, p);
      assert RemoveChaptersFromKeepmark(k, cs) == RemoveChaptersFromKeepmark(Keepmark(c.end, k.end), cs);
    } else {
      var right := Keepmark(c.end, k.end);
      NoOverhangShrunk(k, c.end, cs);
      CoveredPointsCut(right, cs, p);
      assert RemoveChaptersFromKeepmark(k, cs) == [Keepmark(k.start, c.start)] + RemoveChaptersFromKeepmark(right, cs);
      NotKeptCons(Keepmark(k.start, c.start), RemoveChaptersFromKeepmark(right, cs), p);
    }
  }

  /** With no inverted chapter, the pieces come in order and do not overlap. */
  lemma {:induction false} PiecesInOrder(k: Keepmark, cs: seq<Chapter>)
    requires forall j :: 0 <= j < |cs| ==> cs[j].start <= cs[j].end
    ensures forall i, j :: 0 <= i < j < |RemoveChaptersFromKeepmark(k, cs)| ==>
      RemoveChaptersFromKeepmark(k, cs)[i].end <= RemoveChaptersFromKeepmark(k, cs)[j].start
    decreases |cs|, if cs != [] && cs[0].end <= k.start then 0 else 1
  {
    if cs != [] {
      var c := cs[0];
      if c.start > k.end {
      } else if c.end <= k.start {
        PiecesInOrder(k, cs[1..]);
      } else if c.start >= k.start && c.end >= k.end {
      } else if c.start < k.start {
        PiecesInOrder(Keepmark(c.end, k.end), cs);
      } else {
        var right := Keepmark(Min(c.end, k.end), k.end);
        PiecesInOrder(right, cs);
      }
    }
  }

  /** A chapter inside the keepmark splits it in two. */
  lemma SplitExample()
    ensures RemoveChaptersFromKeepmark(Keepmark(0, 3000), [Chapter("chp1", 1000, 2000, None, true, None, "W")])
      == [Keepmark(0, 1000), Keepmark(2000, 3000)]
  {
  }

  /** A chapter starting exactly at the keepmark's start leaves an empty left piece. */
  lemma DegenerateLeftExample()
    ensures RemoveChaptersFromKeepmark(Keepmark(0, 3000), [Chapter("chp1", 0, 1000, None, true, None, "W")])
      == [Keepmark(0, 0), Keepmark(1000, 3000)]
  {
  }

  /** A chapter covering the keepmark from before it leaves the inverted range `[chapter end, keepmark end]`. */
  lemma CoveringFromBeforeExample()
    ensures RemoveChaptersFromKeepmark(Keepmark(1000, 2000), [Chapter("chp1", 500, 2500, None, true, None, "W")])
      == [Keepmark(2500, 2000)]
  {
  }

  /** A chapter starting inside the keepmark and running past its end leaves the keepmark whole. */
  lemma OverhangingChapterExample()
    ensures RemoveChaptersFromKeepmark(Keepmark(1000, 2000), [Chapter("chp1", 1500, 2500, None, true, None, "W")])
      == [Keepmark(1000, 2000)]
  {
  }

  /** `[chapter for chapter in chapters if chapter['type'] in chapter_types]`. */
  function ChaptersOfTypes(cs: seq<Chapter>, types: seq<string>): (r: seq<Chapter>)
    ensures |r| <= |cs|
    ensures forall c :: c in r <==> c in cs && c.chapterType in types
  {
    if cs == [] then []
    else ChaptersOfTypes(cs[..|cs| - 1], types) + (if cs[|cs| - 1].chapterType in types then [cs[|cs| - 1]] else [])
  }

  /** `[c for c in chapters if c['type'] not in CUT_CHAPTER_TYPES]`. */
  function ChaptersNotOfTypes(cs: seq<Chapter>, types: seq<string>): (r: seq<Chapter>)
    ensures |r| <= |cs|
    ensures forall c :: c in r <==> c in cs && c.chapterType !in types
  {
    if cs == [] then []
    else ChaptersNotOfTypes(cs[..|cs| - 1], types) + (if cs[|cs| - 1].chapterType !in types then [cs[|cs| - 1]] else [])
  }

  /** The type filter of line 200 splits over concatenation, so it keeps order and multiplicity. */
  lemma {:induction false} ChaptersOfTypesConcat(a: seq<Chapter>, b: seq<Chapter>, types: seq<string>)
    ensures ChaptersOfTypes(a + b, types) == ChaptersOfTypes(a, types) + ChaptersOfTypes(b, types)
  {
    if b != [] {
      var n := |b|;
      assert (a + b)[..|a + b| - 1] == a + b[..n - 1];
      assert (a + b)[|a + b| - 1] == b[n - 1];
      ChaptersOfTypesConcat(a, b[..n - 1], types);
    } else {
      assert a + b == a;
    }
  }

  /** A single chapter passes the filter of line 200 exactly when its type is listed. */
  lemma ChaptersOfTypesSingle(c: Chapter, types: seq<string>)
    ensures ChaptersOfTypes([c], types) == if c.chapterType in types then [c] else []
  {
    assert [c][..0] == [];
  }

  /** The filter of line 560 splits over concatenation, so it keeps order and multiplicity. */
  lemma {:induction false} ChaptersNotOfTypesConcat(a: seq<Chapter>, b: seq<Chapter>, types: seq<string>)
    ensures ChaptersNotOfTypes(a + b, types) == ChaptersNotOfTypes(a, types) + ChaptersNotOfTypes(b, types)
  {
    if b != [] {
      var n := |b|;
      assert (a + b)[..|a + b| - 1] == a + b[..n - 1];
      assert (a + b)[|a + b| - 1] == b[n - 1];
      ChaptersNotOfTypesConcat(a, b[..n - 1], types);
    } else {
      assert a + b == a;
    }
  }

  /** A single chapter passes the filter of line 560 exactly when its type is not listed. */
  lemma ChaptersNotOfTypesSingle(c: Chapter, types: seq<string>)
    ensures ChaptersNotOfTypes([c], types) == if c.chapterType !in types then [c] else []
  {
    assert [c][..0] == [];
  }

  /** The filter of line 200 keeps an upper bound on the starts. */
  lemma ChaptersOfTypesStartsBelow(cs: seq<Chapter>, types: seq<string>, hi: int)
    requires forall i :: 0 <= i < |cs| ==> cs[i].start <= hi
    ensures forall i :: 0 <= i < |ChaptersOfTypes(cs, types)| ==> ChaptersOfTypes(cs, types)[i].start <= hi
  {
    var r := ChaptersOfTypes(cs, types);
    forall i | 0 <= i < |r| ensures r[i].start <= hi {
      assert r[i] in cs;
      var j :| 0 <= j < |cs| && cs[j] == r[i];
    }
  }

  /** Chapters in start order stay in start order after the filter of line 200. */
  lemma {:induction false} ChaptersOfTypesSorted(cs: seq<Chapter>, types: seq<string>)
    requires SortedBy(cs, ChapterStartKey)
    ensures SortedBy(ChaptersOfTypes(cs, types), ChapterStartKey)
  {
    if cs != [] {
      var n := |cs|;
      var front := cs[..n - 1];
      assert SortedBy(front, ChapterStartKey);
      ChaptersOfTypesSorted(front, types);
      var f := ChaptersOfTypes(front, types);
      forall i | 0 <= i < |front| ensures front[i].start <= cs[n - 1].start {
        assert KeyLessEq(ChapterStartKey(cs[i]), ChapterStartKey(cs[n - 1]));
      }
      ChaptersOfTypesStartsBelow(front, types, cs[n - 1].start);
      var r := f + (if cs[n - 1].chapterType in types then [cs[n - 1]] else []);
      assert ChaptersOfTypes(cs, types) == r;
      forall i, j | 0 <= i < j < |r| ensures KeyLessEq(ChapterStartKey(r[i]), ChapterStartKey(r[j])) {
        assert r[i] == f[i];
        if j < |f| {
          assert r[j] == f[j];
        }
      }
    }
  }

  /** Every keepmark with the chapters subtracted, concatenated in order. */
  function SubtractAll(ks: seq<Keepmark>, cs: seq<Chapter>): seq<Keepmark>
  {
    if ks == [] then [] else SubtractAll(ks[..|ks| - 1], cs) + RemoveChaptersFromKeepmark(ks[|ks| - 1], cs)
  }

  /** `remove_chaptertypes_from_keepmarks(keepmarks, chapters, chapter_types)`. */
  function RemovedTypes(ks: seq<Keepmark>, cs: seq<Chapter>, types: seq<string>): seq<Keepmark>
  {
    var unwanted := ChaptersOfTypes(cs, types);
    if unwanted == [] then ks else SubtractAll(ks, unwanted)
  }

  lemma {:induction false} SubtractAllGrows(ks: seq<Keepmark>, cs: seq<Chapter>)
    ensures |SubtractAll(ks, cs)| >= |ks|
  {
    if ks != [] {
      SubtractAllGrows(ks[..|ks| - 1], cs);
    }
  }

  /** Uncovered points of any keepmark stay kept after subtracting from every keepmark. */
  lemma {:induction false} SubtractAllKeepsUncovered(ks: seq<Keepmark>, cs: seq<Chapter>, p: int)
    requires Kept(ks, p)
    requires forall j :: 0 <= j < |cs| ==> !Covers(cs[j], p)
    ensures Kept(SubtractAll(ks, cs), p)
  {
    var n := |ks|;
    var front := SubtractAll(ks[..n - 1], cs);
    var last := RemoveChaptersFromKeepmark(ks[n - 1], cs);
    assert SubtractAll(ks, cs) == front + last;
    if ks[n - 1].start <= p < ks[n - 1].end {
      UncoveredPointsKept(ks[n - 1], cs, p);
      var i :| 0 <= i < |last| && last[i].start <= p < last[i].end;
      assert (front + last)[|front| + i] == last[i];
    } else {
      var i :| 0 <= i < n && ks[i].start <= p < ks[i].end;
      assert ks[..n - 1][i] == ks[i];
      SubtractAllKeepsUncovered(ks[..n - 1], cs, p);
      var j :| 0 <= j < |front| && front[j].start <= p < front[j].end;
      assert (front + last)[j] == front[j];
    }
  }

  /** Pieces missing p followed by pieces missing p. */
  lemma NotKeptConcat(a: seq<Keepmark>, b: seq<Keepmark>, p: int)
    requires !Kept(a, p) && !Kept(b, p)
    ensures !Kept(a + b, p)
  {
    var r := a + b;
    forall i | 0 <= i < |r| ensures !(r[i].start <= p < r[i].end) {
      if i < |a| {
        assert r[i] == a[i];
      } else {
        assert r[i] == b[i - |a|];
      }
    }
  }

  /** A point some chapter covers is in no piece, when no chapter overhangs any keepmark's end. */
  lemma {:induction false} SubtractAllCutsCovered(ks: seq<Keepmark>, cs: seq<Chapter>, p: int)
    requires SortedBy(cs, ChapterStartKey)
    requires forall i, j :: 0 <= i < |ks| && 0 <= j < |cs| ==> !Overhangs(ks[i], cs[j])
    requires exists j :: 0 <= j < |cs| && Covers(cs[j], p)
    ensures !Kept(SubtractAll(ks, cs), p)
  {
    if ks != [] {
      var n := |ks|;
      assert forall i :: 0 <= i < n - 1 ==> ks[..n - 1][i] == ks[i];
      SubtractAllCutsCovered(ks[..n - 1], cs, p);
      CoveredPointsCut(ks[n - 1], cs, p);
      NotKeptConcat(SubtractAll(ks[..n - 1], cs), RemoveChaptersFromKeepmark(ks[n - 1], cs), p);
    }
  }

  /**
   * `remove_chaptertypes_from_keepmarks` cuts the time of every chapter of a
   * listed type out of the keepmarks, for chapters in start order, unless such a
   * chapter overhangs a keepmark's end (the `break` of line 178).
   */
  lemma RemovedTypesCutsCovered(ks: seq<Keepmark>, cs: seq<Chapter>, types: seq<string>, p: int)
    requires SortedBy(cs, ChapterStartKey)
    requires forall i, c :: 0 <= i < |ks| && c in cs && c.chapterType in types ==> !Overhangs(ks[i], c)
    requires exists c :: c in cs && c.chapterType in types && Covers(c, p)
    ensures !Kept(RemovedTypes(ks, cs, types), p)
  {
    var unwanted := ChaptersOfTypes(cs, types);
    var c :| c in cs && c.chapterType in types && Covers(c, p);
    assert c in unwanted;
    var j :| 0 <= j < |unwanted| && unwanted[j] == c;
    ChaptersOfTypesSorted(cs, types);
    assert forall j :: 0 <= j < |unwanted| ==> unwanted[j] in unwanted;
    SubtractAllCutsCovered(ks, unwanted, p);
  }

  /** Keepmark piece lies inside one of the keepmarks ks. */
  ghost predicate InsideSome(piece: Keepmark, ks: seq<Keepmark>)
  {
    exists j :: 0 <= j < |ks| && ks[j].start <= piece.start && piece.end <= ks[j].end
  }

  /** Every piece lies inside one of the input keepmarks. */
  lemma {:induction false} SubtractAllInside(ks: seq<Keepmark>, cs: seq<Chapter>)
    ensures forall i :: 0 <= i < |SubtractAll(ks, cs)| ==> InsideSome(SubtractAll(ks, cs)[i], ks)
  {
    if ks != [] {
      var n := |ks|;
      var front := SubtractAll(ks[..n - 1], cs);
      var last := RemoveChaptersFromKeepmark(ks[n - 1], cs);
      var all: seq<Keepmark> := front + last;
      assert SubtractAll(ks, cs) == all;
      SubtractAllInside(ks[..n - 1], cs);
      forall i | 0 <= i < |all|
        ensures InsideSome(all[i], ks)
      {
        if i < |front| {
          assert InsideSome(front[i], ks[..n - 1]);
          var j :| 0 <= j < n - 1 && ks[..n - 1][j].start <= front[i].start && front[i].end <= ks[..n - 1][j].end;
          assert ks[..n - 1][j] == ks[j];
          assert all[i] == front[i];
        } else {
          assert all[i] == last[i - |front|];
          assert ks[n - 1].start <= all[i].start && all[i].end <= ks[n - 1].end;
        }
      }
    }
  }

  /** RemovedTypesCutsCovered for every point at once. */
  lemma CutsCoveredWhenOrdered(ks: seq<Keepmark>, cs: seq<Chapter>, types: seq<string>)
    ensures SortedBy(cs, ChapterStartKey)
      && (forall i, c :: 0 <= i < |ks| && c in cs && c.chapterType in types ==> !Overhangs(ks[i], c))
      ==> forall p :: (exists c :: c in cs && c.chapterType in types && Covers(c, p)) ==> !Kept(RemovedTypes(ks, cs, types), p)
  {
    if SortedBy(cs, ChapterStartKey) && (forall i, c :: 0 <= i < |ks| && c in cs && c.chapterType in types ==> !Overhangs(ks[i], c)) {
      forall p | exists c :: c in cs && c.chapterType in types && Covers(c, p)
        ensures !Kept(RemovedTypes(ks, cs, types), p)
      {
        RemovedTypesCutsCovered(ks, cs, types, p);
      }
    }
  }

  /** `remove_chaptertypes_from_keepmarks`, with its `extend` loop. */
  method RemoveChapterTypesFromKeepmarks(keepmarks: seq<Keepmark>, chapters: seq<Chapter>, chapterTypes: seq<string>)
    returns (r: seq<Keepmark>)
    ensures r == RemovedTypes(keepmarks, chapters, chapterTypes)
    ensures (forall c :: c in chapters ==> c.chapterType !in chapterTypes) ==> r == keepmarks
    ensures (exists c :: c in chapters && c.chapterType in chapterTypes) ==> r == SubtractAll(keepmarks, ChaptersOfTypes(chapters, chapterTypes))
    ensures |r| >= |keepmarks|
    ensures forall i :: 0 <= i < |r| ==> InsideSome(r[i], keepmarks)
    ensures forall p :: Kept(keepmarks, p) && (forall c :: c in chapters && c.chapterType in chapterTypes ==> !Covers(c, p)) ==> Kept(r, p)
    ensures SortedBy(chapters, ChapterStartKey)
      && (forall i, c :: 0 <= i < |keepmarks| && c in chapters && c.chapterType in chapterTypes ==> !Overhangs(keepmarks[i], c))
      ==> forall p :: (exists c :: c in chapters && c.chapterType in chapterTypes && Covers(c, p)) ==> !Kept(r, p)
  {
    CutsCoveredWhenOrdered(keepmarks, chapters, chapterTypes);
    var unwanted := ChaptersOfTypes(chapters, chapterTypes);
    if unwanted == [] {
      assert forall i :: 0 <= i < |keepmarks| ==> keepmarks[i].start <= keepmarks[i].start && keepmarks[i].end <= keepmarks[i].end;
      return keepmarks;
    }
    r := [];
    var i := 0;
    while i < |keepmarks|
      invariant 0 <= i <= |keepmarks|
      invariant r == SubtractAll(keepmarks[..i], unwanted)
    {
      assert keepmarks[..i + 1][..i] == keepmarks[..i];
      r := r + RemoveChaptersFromKeepmark(keepmarks[i], unwanted);
      i := i + 1;
    }
    assert keepmarks[..i] == keepmarks;
    SubtractAllGrows(keepmarks, unwanted);
    SubtractAllInside(keepmarks, unwanted);
    forall p | Kept(keepmarks, p) && (forall c :: c in chapters && c.chapterType in chapterTypes ==> !Covers(c, p))
      ensures Kept(r, p)
    {
      assert forall j :: 0 <= j < |unwanted| ==> unwanted[j] in unwanted;
      SubtractAllKeepsUncovered(keepmarks, unwanted, p);
    }
  }
}
