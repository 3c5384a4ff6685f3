/**
 * `get_keepmarks` (fm4-7tage-download.py, lines 135-156): the broadcast's marks,
 * sorted by timestamp, are scanned with a pending start and a pending end; an
 * "in" mark overwrites the start (clamped to the broadcast start), an "out" mark
 * overwrites the end (clamped to the broadcast end), and as soon as both are set
 * they are emitted relative to the broadcast start and both are reset.
 */
module Keepmarks {
  import opened Wrappers
  import opened Sorting
  import opened Records

  function MarkKey(m: Mark): SortKey
  {
    SortKey(m.timestamp, 0)
  }

  predicate IsIn(m: Mark)
  {
    m.kind == "in"
  }

  predicate IsOut(m: Mark)
  {
    m.kind == "out"
  }

  /** The keepmarks emitted by the scan over marks, given the pending start and end. */
  function Pairing(marks: seq<Mark>, start: Option<int>, end: Option<int>, bStart: int, bEnd: int): seq<Keepmark>
  {
    if marks == [] then []
    else
      var m := marks[0];
      var start' := if IsIn(m) then Some(Max(m.timestamp, bStart)) else start;
      var end' := if !IsIn(m) && IsOut(m) then Some(Min(m.timestamp, bEnd)) else end;
      if start'.Some? && end'.Some? then
        [Keepmark(start'.value - bStart, end'.value - bStart)] + Pairing(marks[1..], None, None, bStart, bEnd)
      else Pairing(marks[1..], start', end', bStart, bEnd)
  }

  /** Every keepmark starts at or after x, when every later start does and the pending one does. */
  lemma {:induction false} PairingStartsAfter(marks: seq<Mark>, start: Option<int>, end: Option<int>, bStart: int, bEnd: int, x: int)
    requires forall i :: 0 <= i < |marks| ==> Max(marks[i].timestamp, bStart) >= x
    requires start.Some? ==> start.value >= x
    ensures forall k :: 0 <= k < |Pairing(marks, start, end, bStart, bEnd)| ==>
      Pairing(marks, start, end, bStart, bEnd)[k].start + bStart >= x
  {
    if marks != [] {
      var m := marks[0];
      var start' := if IsIn(m) then Some(Max(m.timestamp, bStart)) else start;
      var end' := if !IsIn(m) && IsOut(m) then Some(Min(m.timestamp, bEnd)) else end;
      if start'.Some? && end'.Some? {
        PairingStartsAfter(marks[1..], None, None, bStart, bEnd, x);
      } else {
        PairingStartsAfter(marks[1..], start', end', bStart, bEnd, x);
      }
    }
  }

  /** Keepmarks do not overlap and come in order: a later one starts after every earlier start and end. */
  ghost predicate Chained(ks: seq<Keepmark>)
  {
    forall i, j :: 0 <= i < j < |ks| ==> ks[i].end <= ks[j].start && ks[i].start <= ks[j].start
  }

  /** Every keepmark lies inside the broadcast: `0 <= start` and `end <= duration`. */
  ghost predicate InsideBroadcast(ks: seq<Keepmark>, bStart: int, bEnd: int)
  {
    forall i :: 0 <= i < |ks| ==> 0 <= ks[i].start && ks[i].end <= bEnd - bStart
  }

  /** Pending times inside the broadcast give keepmarks inside the broadcast. */
  lemma {:induction false} PairingInside(marks: seq<Mark>, start: Option<int>, end: Option<int>, bStart: int, bEnd: int)
    requires start.Some? ==> start.value >= bStart
    requires end.Some? ==> end.value <= bEnd
    ensures InsideBroadcast(Pairing(marks, start, end, bStart, bEnd), bStart, bEnd)
  {
    if marks != [] {
      var m := marks[0];
      var start' := if IsIn(m) then Some(Max(m.timestamp, bStart)) else start;
      var end' := if !IsIn(m) && IsOut(m) then Some(Min(m.timestamp, bEnd)) else end;
      if start'.Some? && end'.Some? {
        PairingInside(marks[1..], None, None, bStart, bEnd);
        var r := Pairing(marks, start, end, bStart, bEnd);
        var rest := Pairing(marks[1..], None, None, bStart, bEnd);
        assert r == [Keepmark(start'.value - bStart, end'.value - bStart)] + rest;
        assert forall i :: 0 < i < |r| ==> r[i] == rest[i - 1];
      } else {
        PairingInside(marks[1..], start', end', bStart, bEnd);
      }
    }
  }

  /** Over marks sorted by time, each keepmark starts and ends before any later one starts. */
  lemma {:induction false} PairingChained(marks: seq<Mark>, start: Option<int>, end: Option<int>, bStart: int, bEnd: int)
    requires SortedBy(marks, MarkKey)
    requires marks != [] && start.Some? ==> start.value <= Max(marks[0].timestamp, bStart)
    requires marks != [] && end.Some? ==> end.value <= marks[0].timestamp
    ensures Chained(Pairing(marks, start, end, bStart, bEnd))
  {
    if marks != [] {
      var m := marks[0];
      var start' := if IsIn(m) then Some(Max(m.timestamp, bStart)) else start;
      var end' := if !IsIn(m) && IsOut(m) then Some(Min(m.timestamp, bEnd)) else end;
      assert SortedBy(marks[1..], MarkKey);
      if start'.Some? && end'.Some? {
        var k := Keepmark(start'.value - bStart, end'.value - bStart);
        var rest := Pairing(marks[1..], None, None, bStart, bEnd);
        PairingChained(marks[1..], None, None, bStart, bEnd);
        forall i | 0 <= i < |marks[1..]| ensures Max(marks[1..][i].timestamp, bStart) >= Max(m.timestamp, bStart) {
          assert KeyLessEq(MarkKey(marks[0]), MarkKey(marks[i + 1]));
        }
        PairingStartsAfter(marks[1..], None, None, bStart, bEnd, Max(m.timestamp, bStart));
        var r := Pairing(marks, start, end, bStart, bEnd);
        assert r == [k] + rest;
        assert k.start + bStart <= Max(m.timestamp, bStart) && k.end + bStart <= Max(m.timestamp, bStart);
        forall i, j | 0 <= i < j < |r| ensures r[i].end <= r[j].start && r[i].start <= r[j].start {
          if i == 0 {
            assert r[j] == rest[j - 1];
          } else {
            assert r[i] == rest[i - 1] && r[j] == rest[j - 1];
          }
        }
      } else {
        if |marks| > 1 {
          assert KeyLessEq(MarkKey(marks[0]), MarkKey(marks[1]));
        }
        PairingChained(marks[1..], start', end', bStart, bEnd);
      }
    }
  }

  /** Each keepmark uses up at least one "in" and one "out" mark. */
  lemma {:induction false} PairingCount(marks: seq<Mark>, start: Option<int>, end: Option<int>, bStart: int, bEnd: int)
    ensures |Pairing(marks, start, end, bStart, bEnd)| + (if start.Some? then 0 else 1) <= CountWhere(marks, IsIn) + 1
    ensures |Pairing(marks, start, end, bStart, bEnd)| + (if end.Some? then 0 else 1) <= CountWhere(marks, IsOut) + 1
  {
    if marks != [] {
      var m := marks[0];
      var start' := if IsIn(m) then Some(Max(m.timestamp, bStart)) else start;
      var end' := if !IsIn(m) && IsOut(m) then Some(Min(m.timestamp, bEnd)) else end;
      if start'.Some? && end'.Some? {
        PairingCount(marks[1..], None, None, bStart, bEnd);
      } else {
        PairingCount(marks[1..], start', end', bStart, bEnd);
      }
    }
  }

  /**
   * With nothing pending, or one time pending, the scan emits a keepmark as soon
   * as the marks still hold what is missing: an "in" mark and an "out" mark.
   */
  lemma {:induction false} PairingNonEmpty(marks: seq<Mark>, start: Option<int>, end: Option<int>, bStart: int, bEnd: int)
    requires !(start.Some? && end.Some?)
    requires start.Some? || exists i :: 0 <= i < |marks| && IsIn(marks[i])
    requires end.Some? || exists i :: 0 <= i < |marks| && IsOut(marks[i])
    ensures |Pairing(marks, start, end, bStart, bEnd)| > 0
  {
    var m := marks[0];
    var start' := if IsIn(m) then Some(Max(m.timestamp, bStart)) else start;
    var end' := if !IsIn(m) && IsOut(m) then Some(Min(m.timestamp, bEnd)) else end;
    if !(start'.Some? && end'.Some?) {
      if start'.None? {
        var i :| 0 <= i < |marks| && IsIn(marks[i]);
        assert marks[1..][i - 1] == marks[i];
      }
      if end'.None? {
        var i :| 0 <= i < |marks| && IsOut(marks[i]);
        assert marks[1..][i - 1] == marks[i];
      }
      PairingNonEmpty(marks[1..], start', end', bStart, bEnd);
    }
  }

  /** A broadcast with an "in" mark and an "out" mark has at least one keepmark. */
  lemma KeepmarksNonEmpty(b: Broadcast)
    requires exists i :: 0 <= i < |b.marks| && IsIn(b.marks[i])
    requires exists i :: 0 <= i < |b.marks| && IsOut(b.marks[i])
    ensures |Pairing(SortBy(b.marks, MarkKey), None, None, b.start, b.end)| > 0
  {
    var marks := SortBy(b.marks, MarkKey);
    SortByIsSortedPermutation(b.marks, MarkKey);
    var i :| 0 <= i < |b.marks| && IsIn(b.marks[i]);
    var o :| 0 <= o < |b.marks| && IsOut(b.marks[o]);
    assert b.marks[i] in multiset(marks) && b.marks[o] in multiset(marks);
    var i' :| 0 <= i' < |marks| && marks[i'] == b.marks[i];
    var o' :| 0 <= o' < |marks| && marks[o'] == b.marks[o];
    PairingNonEmpty(marks, None, None, b.start, b.end);
  }

  /** What `get_keepmarks` promises of the pairing of the sorted marks. */
  lemma KeepmarksProperties(b: Broadcast)
    ensures InsideBroadcast(Pairing(SortBy(b.marks, MarkKey), None, None, b.start, b.end), b.start, b.end)
    ensures Chained(Pairing(SortBy(b.marks, MarkKey), None, None, b.start, b.end))
    ensures |Pairing(SortBy(b.marks, MarkKey), None, None, b.start, b.end)| <= CountWhere(b.marks, IsIn)
    ensures |Pairing(SortBy(b.marks, MarkKey), None, None, b.start, b.end)| <= CountWhere(b.marks, IsOut)
    ensures b.marks == [] ==> Pairing(SortBy(b.marks, MarkKey), None, None, b.start, b.end) == []
    ensures (exists i :: 0 <= i < |b.marks| && IsIn(b.marks[i])) && (exists i :: 0 <= i < |b.marks| && IsOut(b.marks[i]))
      ==> |Pairing(SortBy(b.marks, MarkKey), None, None, b.start, b.end)| > 0
  {
    var marks := SortBy(b.marks, MarkKey);
    SortByIsSortedPermutation(b.marks, MarkKey);
    PairingChained(marks, None, None, b.start, b.end);
    PairingInside(marks, None, None, b.start, b.end);
    PairingCount(marks, None, None, b.start, b.end);
    SortByKeepsCount(b.marks, MarkKey, IsIn);
    SortByKeepsCount(b.marks, MarkKey, IsOut);
    if (exists i :: 0 <= i < |b.marks| && IsIn(b.marks[i])) && (exists i :: 0 <= i < |b.marks| && IsOut(b.marks[i])) {
      KeepmarksNonEmpty(b);
    }
  }

  /** `get_keepmarks`, with its loop. */
  method GetKeepmarks(b: Broadcast) returns (keepmarks: seq<Keepmark>)
    ensures keepmarks == Pairing(SortBy(b.marks, MarkKey), None, None, b.start, b.end)
    ensures InsideBroadcast(keepmarks, b.start, b.end)
    ensures Chained(keepmarks)
    ensures |keepmarks| <= CountWhere(b.marks, IsIn) && |keepmarks| <= CountWhere(b.marks, IsOut)
    ensures b.marks == [] ==> keepmarks == []
    ensures (exists i :: 0 <= i < |b.marks| && IsIn(b.marks[i])) && (exists i :: 0 <= i < |b.marks| && IsOut(b.marks[i]))
      ==> |keepmarks| > 0
  {
    var marks := SortBy(b.marks, MarkKey);
    keepmarks := [];
    var start: Option<int> := None;
    var end: Option<int> := None;
    var i := 0;
    while i < |marks|
      invariant 0 <= i <= |marks|
      invariant keepmarks + Pairing(marks[i..], start, end, b.start, b.end) == Pairing(marks, None, None, b.start, b.end)
      invariant !(start.Some? && end.Some?)
    {
      var mark := marks[i];
      ghost var pending := Pairing(marks[i..], start, end, b.start, b.end);
      assert marks[i..][1..] == marks[i + 1..];
      if mark.kind == "in" {
        start := Some(Max(mark.timestamp, b.start));
      } else if mark.kind == "out" {
        end := Some(Min(mark.timestamp, b.end));
      }
      assert pending == if start.Some? && end.Some?
        then [Keepmark(start.value - b.start, end.value - b.start)] + Pairing(marks[i + 1..], None, None, b.start, b.end)
        else Pairing(marks[i + 1..], start, end, b.start, b.end);
      if start.Some? && end.Some? {
        keepmarks := keepmarks + [Keepmark(start.value - b.start, end.value - b.start)];
        start := None;
        end := None;
      }
      i := i + 1;
    }
    assert marks[i..] == [];
    KeepmarksProperties(b);
  }

  /** An "out" mark before an "in" mark yields an inverted keepmark. */
  lemma OutBeforeInInverts()
    ensures Pairing([Mark("out", 1000), Mark("in", 2000)], None, None, 0, 5000) == [Keepmark(2000, 1000)]
  {
  }
}
