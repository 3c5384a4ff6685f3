/**
 * The packet loop of `cut_audio` (fm4-7tage-download.py, lines 322-340): a
 * cursor walks the keepmarks sorted by start while the packets are read in
 * order; a packet inside the current keepmark is copied, one past its end moves
 * the cursor on (and is itself dropped), and the loop ends when the keepmarks
 * run out. Demuxing, muxing and the conversion of a packet's time base to
 * milliseconds are outside the model: a packet is its dts flag and its time.
 */
module Cutting {
  import opened Wrappers
  import opened Sorting
  import opened Records

  /** A demuxed packet: whether it has a dts (flushing packets do not) and its time in ms. */
  datatype Packet = Packet(hasDts: bool, timestamp: int)

  /** `next(keepmarks_iter)` at line 323 raises StopIteration on an empty keepmark list. */
  datatype CutError = NoKeepmarks

  /** The time t lies in one of the keepmarks from position `from` on. */
  ghost predicate InKeepmarkFrom(ks: seq<Keepmark>, from: nat, t: int)
  {
    exists j :: from <= j < |ks| && ks[j].start <= t < ks[j].end
  }

  /** Positions of the copied packets, scanning from packet i with the cursor on keepmark `cursor`. */
  function Selected(packets: seq<Packet>, ks: seq<Keepmark>, cursor: nat, i: nat): seq<nat>
    requires cursor < |ks| && i <= |packets|
    decreases |packets| - i
  {
    if i == |packets| then []
    else
      var p := packets[i];
      if !p.hasDts then Selected(packets, ks, cursor, i + 1)
      else if p.timestamp < ks[cursor].start then Selected(packets, ks, cursor, i + 1)
      else if p.timestamp >= ks[cursor].end then
        if cursor + 1 == |ks| then [] else Selected(packets, ks, cursor + 1, i + 1)
      else [i] + Selected(packets, ks, cursor, i + 1)
  }

  /** Every position in r is a packet from i on, with a dts and a time in a keepmark from `cursor` on; r rises. */
  ghost predicate SelectionSound(packets: seq<Packet>, ks: seq<Keepmark>, cursor: nat, i: nat, r: seq<nat>)
  {
    && (forall k :: 0 <= k < |r| ==> i <= r[k] < |packets|)
    && (forall k :: 0 <= k < |r| ==> packets[r[k]].hasDts && InKeepmarkFrom(ks, cursor, packets[r[k]].timestamp))
    && (forall k, l :: 0 <= k < l < |r| ==> r[k] < r[l])
  }

  /**
   * Every copied position is a later packet with a dts whose time lies in a
   * keepmark at or after the cursor, and the positions rise.
   */
  lemma {:induction false} SelectedProperties(packets: seq<Packet>, ks: seq<Keepmark>, cursor: nat, i: nat)
    requires cursor < |ks| && i <= |packets|
    ensures SelectionSound(packets, ks, cursor, i, Selected(packets, ks, cursor, i))
    decreases |packets| - i
  {
    if i < |packets| {
      var p := packets[i];
      var r := Selected(packets, ks, cursor, i);
      if !p.hasDts || p.timestamp < ks[cursor].start {
        SelectedProperties(packets, ks, cursor, i + 1);
        assert r == Selected(packets, ks, cursor, i + 1);
      } else if p.timestamp >= ks[cursor].end {
        if cursor + 1 < |ks| {
          SelectedProperties(packets, ks, cursor + 1, i + 1);
          assert r == Selected(packets, ks, cursor + 1, i + 1);
          forall k | 0 <= k < |r| ensures InKeepmarkFrom(ks, cursor, packets[r[k]].timestamp) {
            assert InKeepmarkFrom(ks, cursor + 1, packets[r[k]].timestamp);
            var j :| cursor + 1 <= j < |ks| && ks[j].start <= packets[r[k]].timestamp < ks[j].end;
          }
        }
      } else {
        SelectedProperties(packets, ks, cursor, i + 1);
        var t := Selected(packets, ks, cursor, i + 1);
        assert r == [i] + t;
        assert forall k :: 0 < k < |r| ==> r[k] == t[k - 1];
        assert InKeepmarkFrom(ks, cursor, p.timestamp);
      }
    }
  }

  /** The packets `cut_audio` copies, or the error of an empty keepmark list. */
  function CutIndices(packets: seq<Packet>, keepmarks: seq<Keepmark>): Result<seq<nat>, CutError>
  {
    var ks := SortBy(keepmarks, KeepmarkKey);
    if ks == [] then Err(NoKeepmarks) else Ok(Selected(packets, ks, 0, 0))
  }

  /** The packet loop (lines 325-340) over keepmarks already sorted, with the cursor on the first. */
  method SelectPackets(packets: seq<Packet>, ks: seq<Keepmark>) returns (copied: seq<nat>)
    requires |ks| > 0
    ensures copied == Selected(packets, ks, 0, 0)
  {
    var cursor := 0;
    var start, end := ks[0].start, ks[0].end;
    copied := [];
    var i := 0;
    while i < |packets|
      invariant 0 <= i <= |packets| && cursor < |ks|
      invariant start == ks[cursor].start && end == ks[cursor].end
      invariant copied + Selected(packets, ks, cursor, i) == Selected(packets, ks, 0, 0)
    {
      var packet := packets[i];
      if !packet.hasDts {
        i := i + 1;
        continue;
      }
      var timestamp := packet.timestamp;
      if timestamp < start {
        i := i + 1;
        continue;
      } else if timestamp >= end {
        if cursor + 1 == |ks| {
          assert Selected(packets, ks, cursor, i) == [];
          break;
        }
        cursor := cursor + 1;
        start, end := ks[cursor].start, ks[cursor].end;
      } else {
        ghost var rest := Selected(packets, ks, cursor, i + 1);
        assert Selected(packets, ks, cursor, i) == [i] + rest;
        assert (copied + [i]) + rest == copied + ([i] + rest);
        copied := copied + [i];
      }
      i := i + 1;
    }
  }

  /** `cut_audio`'s choice of packets; the result lists the positions of the muxed packets. */
  method CutAudio(packets: seq<Packet>, keepmarks: seq<Keepmark>) returns (r: Result<seq<nat>, CutError>)
    ensures r == CutIndices(packets, keepmarks)
    ensures r.Err? <==> keepmarks == []
    ensures r.Ok? ==> forall k, l :: 0 <= k < l < |r.value| ==> r.value[k] < r.value[l]
    ensures r.Ok? ==> forall k :: 0 <= k < |r.value| ==>
      r.value[k] < |packets| && packets[r.value[k]].hasDts && InKeepmarkFrom(SortBy(keepmarks, KeepmarkKey), 0, packets[r.value[k]].timestamp)
    ensures r.Ok? ==>
      var ks := SortBy(keepmarks, KeepmarkKey);
      && ks != []
      && (forall x :: 0 <= x < FirstAdvance(packets, ks[0], 0) ==>
            (x in r.value <==> packets[x].hasDts && ks[0].start <= packets[x].timestamp < ks[0].end))
      && (FirstAdvance(packets, ks[0], 0) < |packets| ==> FirstAdvance(packets, ks[0], 0) !in r.value)
  {
    var ks := SortBy(keepmarks, KeepmarkKey);
    SortByIsSortedPermutation(keepmarks, KeepmarkKey);
    if |ks| == 0 {
      return Err(NoKeepmarks);
    }
    var copied := SelectPackets(packets, ks);
    SelectedProperties(packets, ks, 0, 0);
    forall x | 0 <= x < FirstAdvance(packets, ks[0], 0)
      ensures x in copied <==> packets[x].hasDts && ks[0].start <= packets[x].timestamp < ks[0].end
    {
      CurrentKeepmark(packets, ks, 0, 0, x);
    }
    if FirstAdvance(packets, ks[0], 0) < |packets| {
      AdvancingPacketDropped(packets, ks, 0, 0);
    }
    r := Ok(copied);
  }

  /** Packets without a dts are never copied. */
  lemma PacketsWithoutDtsSkipped(packets: seq<Packet>, keepmarks: seq<Keepmark>, x: nat)
    requires CutIndices(packets, keepmarks).Ok?
    requires x < |packets| && !packets[x].hasDts
    ensures x !in CutIndices(packets, keepmarks).value
  {
    SelectedProperties(packets, SortBy(keepmarks, KeepmarkKey), 0, 0);
  }

  /**
   * With one keepmark, packet x is copied exactly when it has a dts, its time is
   * inside the keepmark, and no earlier packet with a dts reached both the keepmark's
   * start and its end (the start test comes first, so this holds for an inverted keepmark too).
   */
  lemma {:induction false} SingleKeepmark(packets: seq<Packet>, k: Keepmark, i: nat, x: nat)
    requires i <= |packets|
    ensures x in Selected(packets, [k], 0, i) <==>
      && i <= x < |packets|
      && packets[x].hasDts && k.start <= packets[x].timestamp < k.end
      && forall y :: i <= y < x ==> !(packets[y].hasDts && k.start <= packets[y].timestamp && k.end <= packets[y].timestamp)
    decreases |packets| - i
  {
    if i < |packets| {
      SingleKeepmark(packets, k, i + 1, x);
      var p := packets[i];
      if p.hasDts && k.start <= p.timestamp && k.end <= p.timestamp {
        assert Selected(packets, [k], 0, i) == [];
      }
    }
  }

  /** Packet p moves the cursor past keepmark k: it has a dts and its time is at or past both ends. */
  predicate Advances(p: Packet, k: Keepmark)
  {
    p.hasDts && k.start <= p.timestamp && k.end <= p.timestamp
  }

  /** The first packet from i on that moves the cursor past k, or `|packets|` when none does. */
  function FirstAdvance(packets: seq<Packet>, k: Keepmark, i: nat): (a: nat)
    requires i <= |packets|
    ensures i <= a <= |packets|
    ensures a < |packets| ==> Advances(packets[a], k)
    ensures forall y :: i <= y < a ==> !Advances(packets[y], k)
    decreases |packets| - i
  {
    if i == |packets| || Advances(packets[i], k) then i else FirstAdvance(packets, k, i + 1)
  }

  /** What the scan copies after the first packet that moves the cursor past keepmark `cursor`. */
  function AfterAdvance(packets: seq<Packet>, ks: seq<Keepmark>, cursor: nat, i: nat): seq<nat>
    requires cursor < |ks| && i <= |packets|
  {
    var a := FirstAdvance(packets, ks[cursor], i);
    if a < |packets| && cursor + 1 < |ks| then Selected(packets, ks, cursor + 1, a + 1) else []
  }

  /**
   * The scan with the cursor on keepmark `cursor` is the scan against that keepmark
   * alone, up to the first packet that moves the cursor on, followed by the scan from
   * the next keepmark after that packet; the advancing packet itself is not copied,
   * and nothing follows when the cursor was on the last keepmark.
   */
  lemma {:induction false} SelectedSplit(packets: seq<Packet>, ks: seq<Keepmark>, cursor: nat, i: nat)
    requires cursor < |ks| && i <= |packets|
    ensures Selected(packets, ks, cursor, i) == Selected(packets, [ks[cursor]], 0, i) + AfterAdvance(packets, ks, cursor, i)
    decreases |packets| - i
  {
    if i < |packets| {
      if Advances(packets[i], ks[cursor]) {
        SplitAtAdvance(packets, ks, cursor, i);
      } else {
        SelectedSplit(packets, ks, cursor, i + 1);
        SplitBeforeAdvance(packets, ks, cursor, i);
      }
    }
  }

  /** The split at the advancing packet itself. */
  lemma SplitAtAdvance(packets: seq<Packet>, ks: seq<Keepmark>, cursor: nat, i: nat)
    requires cursor < |ks| && i < |packets| && Advances(packets[i], ks[cursor])
    ensures Selected(packets, ks, cursor, i) == Selected(packets, [ks[cursor]], 0, i) + AfterAdvance(packets, ks, cursor, i)
  {
    var k := ks[cursor];
    var tail := if cursor + 1 < |ks| then Selected(packets, ks, cursor + 1, i + 1) else [];
    assert Selected(packets, ks, cursor, i) == tail;
    assert Selected(packets, [k], 0, i) == [];
    assert AfterAdvance(packets, ks, cursor, i) == tail;
    assert [] + tail == tail;
  }

  /** One packet before the advancing one extends both sides of the split alike. */
  lemma SplitBeforeAdvance(packets: seq<Packet>, ks: seq<Keepmark>, cursor: nat, i: nat)
    requires cursor < |ks| && i < |packets| && !Advances(packets[i], ks[cursor])
    requires Selected(packets, ks, cursor, i + 1) ==
      Selected(packets, [ks[cursor]], 0, i + 1) + AfterAdvance(packets, ks, cursor, i + 1)
    ensures Selected(packets, ks, cursor, i) == Selected(packets, [ks[cursor]], 0, i) + AfterAdvance(packets, ks, cursor, i)
  {
    var p := packets[i];
    var k := ks[cursor];
    var rest := Selected(packets, [k], 0, i + 1);
    var tail := AfterAdvance(packets, ks, cursor, i + 1);
    assert FirstAdvance(packets, k, i) == FirstAdvance(packets, k, i + 1);
    assert AfterAdvance(packets, ks, cursor, i) == tail;
    if p.hasDts && k.start <= p.timestamp {
      assert Selected(packets, ks, cursor, i) == [i] + (rest + tail);
      assert Selected(packets, [k], 0, i) == [i] + rest;
      assert [i] + (rest + tail) == ([i] + rest) + tail;
    } else {
      assert Selected(packets, ks, cursor, i) == rest + tail;
      assert Selected(packets, [k], 0, i) == rest;
    }
  }

  /**
   * Before the cursor moves on, a packet is copied exactly when it has a dts and its
   * time lies inside the current keepmark.
   */
  lemma CurrentKeepmark(packets: seq<Packet>, ks: seq<Keepmark>, cursor: nat, i: nat, x: nat)
    requires cursor < |ks| && i <= |packets|
    requires i <= x < FirstAdvance(packets, ks[cursor], i)
    ensures x in Selected(packets, ks, cursor, i) <==>
      packets[x].hasDts && ks[cursor].start <= packets[x].timestamp < ks[cursor].end
  {
    var a := FirstAdvance(packets, ks[cursor], i);
    SelectedSplit(packets, ks, cursor, i);
    SingleKeepmark(packets, ks[cursor], i, x);
    if a < |packets| && cursor + 1 < |ks| {
      SelectedProperties(packets, ks, cursor + 1, a + 1);
    }
  }

  /**
   * The first packet at or past the current keepmark's end moves the cursor on and is
   * not copied, even when it lies in the next keepmark; the scan then goes on from the
   * next keepmark with the following packet.
   */
  lemma AdvancingPacketDropped(packets: seq<Packet>, ks: seq<Keepmark>, cursor: nat, i: nat)
    requires cursor < |ks| && i <= |packets|
    requires FirstAdvance(packets, ks[cursor], i) < |packets|
    ensures FirstAdvance(packets, ks[cursor], i) !in Selected(packets, ks, cursor, i)
    ensures cursor + 1 < |ks| ==>
      Selected(packets, ks, cursor, i) ==
      Selected(packets, [ks[cursor]], 0, i) + Selected(packets, ks, cursor + 1, FirstAdvance(packets, ks[cursor], i) + 1)
  {
    var a := FirstAdvance(packets, ks[cursor], i);
    SelectedSplit(packets, ks, cursor, i);
    SingleKeepmark(packets, ks[cursor], i, a);
    if cursor + 1 < |ks| {
      SelectedProperties(packets, ks, cursor + 1, a + 1);
    }
  }

  /** Once a packet has moved the cursor past the last keepmark, nothing from it on is copied. */
  lemma StopsAfterLastKeepmark(packets: seq<Packet>, ks: seq<Keepmark>, i: nat, x: nat)
    requires 0 < |ks| && i <= |packets|
    requires FirstAdvance(packets, ks[|ks| - 1], i) <= x
    ensures x !in Selected(packets, ks, |ks| - 1, i)
  {
    var a := FirstAdvance(packets, ks[|ks| - 1], i);
    SelectedSplit(packets, ks, |ks| - 1, i);
    SingleKeepmark(packets, ks[|ks| - 1], i, x);
    if x > a {
      assert i <= a < x;
    }
  }

  /** A packet that moves the cursor on is dropped even when it lies in the next keepmark. */
  lemma AdvancingPacketExample()
    ensures CutIndices([Packet(true, 0), Packet(true, 1000), Packet(true, 1500), Packet(false, 1600)],
                       [Keepmark(0, 1000), Keepmark(1000, 2000)]) == Ok([0, 2])
  {
    var ks := [Keepmark(0, 1000), Keepmark(1000, 2000)];
    SortBySortedIsIdentity(ks, KeepmarkKey);
    var ps := [Packet(true, 0), Packet(true, 1000), Packet(true, 1500), Packet(false, 1600)];
    assert Selected(ps, ks, 1, 4) == [];
    assert Selected(ps, ks, 1, 3) == [];
    assert Selected(ps, ks, 1, 2) == [2];
    assert Selected(ps, ks, 0, 1) == [2];
    assert Selected(ps, ks, 0, 0) == [0, 2];
    assert CutIndices(ps, ks) == Ok(Selected(ps, ks, 0, 0));
  }

  /** A packet back inside the last keepmark is dropped once that keepmark has ended. */
  lemma StopExample()
    ensures CutIndices([Packet(true, 100), Packet(true, 900), Packet(true, 100)], [Keepmark(0, 500)]) == Ok([0])
  {
    SortBySortedIsIdentity([Keepmark(0, 500)], KeepmarkKey);
    var ps := [Packet(true, 100), Packet(true, 900), Packet(true, 100)];
    assert Selected(ps, [Keepmark(0, 500)], 0, 1) == [];
    assert Selected(ps, [Keepmark(0, 500)], 0, 0) == [0];
    assert CutIndices(ps, [Keepmark(0, 500)]) == Ok(Selected(ps, [Keepmark(0, 500)], 0, 0));
  }
}
