/**
 * The per-broadcast part of `main` (fm4-7tage-download.py, lines 546-588):
 * chapters, then the keepmarks (the whole broadcast when keepmarks are ignored),
 * then the unwanted chapter types cut from both, then the chapters re-timed and
 * the audio cut unless the keepmarks are exactly the whole broadcast, and last
 * the CHAP and CTOC frames. Argument parsing, the file-exists check, the download
 * itself and the file writes are outside the model; the downloaded audio is a
 * parameter, `None` when the download failed.
 */
module Pipeline {
  import opened Wrappers
  import opened Sorting
  import opened Records
  import opened Chapters
  import opened Keepmarks
  import opened Subtraction
  import opened Alignment
  import opened Cutting
  import opened Id3Chapters

  /** The audio written: the whole download, or the positions of the packets kept by `cut_audio`. */
  datatype Audio = WholeBroadcast | CutPackets(indices: seq<nat>)

  /** What is saved for one broadcast: the audio and what `set_id3_tags` receives and writes. */
  datatype Saved = Saved(audio: Audio, chapters: seq<Chapter>, keepmarks: seq<Keepmark>, frames: seq<ChapFrame>, toc: seq<string>)

  /**
   * One broadcast's outcome: skipped after a failed download (the `continue` of line 575,
   * after which the run goes on), failed in `cut_audio` on an empty keepmark list (the
   * StopIteration of `next()` at line 323, which `main` does not catch, so the whole run
   * ends there), or saved.
   */
  datatype Outcome = NotDownloaded | Failed(error: CutError) | Written(saved: Saved)

  /** `[[0, end - start]]`: the single keepmark spanning the whole broadcast. */
  function WholeKeepmark(b: Broadcast): seq<Keepmark>
  {
    [Keepmark(0, b.end - b.start)]
  }

  /** The keepmarks of lines 550-553: the whole broadcast, or those `get_keepmarks` pairs. */
  function MarkedKeepmarks(b: Broadcast, ignoreKeepmarks: bool): seq<Keepmark>
  {
    if ignoreKeepmarks then WholeKeepmark(b) else Pairing(SortBy(b.marks, MarkKey), None, None, b.start, b.end)
  }

  /** The keepmarks after lines 550-561. */
  function PlannedKeepmarks(b: Broadcast, ignoreKeepmarks: bool, cutTypes: seq<string>): seq<Keepmark>
  {
    var marked := MarkedKeepmarks(b, ignoreKeepmarks);
    if cutTypes != [] then RemovedTypes(marked, Extracted(SortBy(b.items, ItemOrderKey), b), cutTypes) else marked
  }

  /** The chapters after lines 547-566. */
  function PlannedChapters(b: Broadcast, ignoreKeepmarks: bool, cutTypes: seq<string>): seq<Chapter>
  {
    var extracted := Extracted(SortBy(b.items, ItemOrderKey), b);
    var wanted := if cutTypes != [] then ChaptersNotOfTypes(extracted, cutTypes) else extracted;
    var keepmarks := PlannedKeepmarks(b, ignoreKeepmarks, cutTypes);
    if keepmarks == WholeKeepmark(b) then wanted else Aligned(wanted, keepmarks)
  }

  /** The outcome of processing broadcast b with the given options and downloaded packets. */
  function Processed(b: Broadcast, ignoreKeepmarks: bool, cutTypes: seq<string>, download: Option<seq<Packet>>): Outcome
  {
    var keepmarks := PlannedKeepmarks(b, ignoreKeepmarks, cutTypes);
    var chapters := PlannedChapters(b, ignoreKeepmarks, cutTypes);
    var frames, toc := Frames(chapters, keepmarks), TocChildren(chapters);
    if download.None? then NotDownloaded
    else if keepmarks == WholeKeepmark(b) then Written(Saved(WholeBroadcast, chapters, keepmarks, frames, toc))
    else match CutIndices(download.value, keepmarks)
      case Err(e) => Failed(e)
      case Ok(indices) => Written(Saved(CutPackets(indices), chapters, keepmarks, frames, toc))
  }

  /** Lines 555-560: with cut types given, the unwanted chapters leave the keepmarks and the chapter list. */
  method CutChapterTypes(chapters: seq<Chapter>, keepmarks: seq<Keepmark>, cutTypes: seq<string>)
    returns (wanted: seq<Chapter>, kept: seq<Keepmark>)
    ensures wanted == if cutTypes != [] then ChaptersNotOfTypes(chapters, cutTypes) else chapters
    ensures kept == if cutTypes != [] then RemovedTypes(keepmarks, chapters, cutTypes) else keepmarks
    ensures forall c :: c in wanted ==> c.chapterType !in cutTypes
  {
    wanted, kept := chapters, keepmarks;
    if cutTypes != [] {
      kept := RemoveChapterTypesFromKeepmarks(keepmarks, chapters, cutTypes);
      wanted := ChaptersNotOfTypes(chapters, cutTypes);
    }
  }

  /** Lines 550-553: keepmarks are the whole broadcast when ignored, else read from the marks. */
  method ReadKeepmarks(b: Broadcast, ignoreKeepmarks: bool) returns (marked: seq<Keepmark>)
    ensures marked == MarkedKeepmarks(b, ignoreKeepmarks)
    ensures !ignoreKeepmarks ==> InsideBroadcast(marked, b.start, b.end) && Chained(marked)
    ensures ignoreKeepmarks ==> TotalDuration(marked) == b.end - b.start
  {
    if ignoreKeepmarks {
      marked := [Keepmark(0, b.end - b.start)];
    } else {
      marked := GetKeepmarks(b);
    }
  }

  /** Lines 546-564: the chapters and keepmarks of a broadcast, before the download. */
  method PlanBroadcast(b: Broadcast, ignoreKeepmarks: bool, cutTypes: seq<string>)
    returns (chapters: seq<Chapter>, keepmarks: seq<Keepmark>)
    ensures chapters == PlannedChapters(b, ignoreKeepmarks, cutTypes)
    ensures keepmarks == PlannedKeepmarks(b, ignoreKeepmarks, cutTypes)
  {
    var extracted := GetChapters(b);
    var marked := ReadKeepmarks(b, ignoreKeepmarks);
    chapters, keepmarks := CutChapterTypes(extracted, marked, cutTypes);
    if keepmarks != WholeKeepmark(b) {
      chapters := AlignChaptersToKeepmarks(chapters, keepmarks);
    }
  }

  /** The body of the broadcast loop in `main`, from `get_chapters` to `set_id3_tags`. */
  method ProcessBroadcast(b: Broadcast, ignoreKeepmarks: bool, cutTypes: seq<string>, download: Option<seq<Packet>>)
    returns (outcome: Outcome)
    ensures outcome == Processed(b, ignoreKeepmarks, cutTypes, download)
  {
    var chapters, keepmarks := PlanBroadcast(b, ignoreKeepmarks, cutTypes);
    if download.None? {
      return NotDownloaded;
    }
    var audio := WholeBroadcast;
    if keepmarks != WholeKeepmark(b) {
      var cut := CutAudio(download.value, keepmarks);
      if cut.Err? {
        return Failed(cut.error);
      }
      audio := CutPackets(cut.value);
    }
    var frames, toc := ChapterFrames(chapters, keepmarks);
    outcome := Written(Saved(audio, chapters, keepmarks, frames, toc));
  }

  /**
   * A broadcast is skipped exactly when its download failed, and fails exactly
   * when it was downloaded but no keepmark is left.
   */
  lemma OutcomeCases(b: Broadcast, ignoreKeepmarks: bool, cutTypes: seq<string>, download: Option<seq<Packet>>)
    ensures Processed(b, ignoreKeepmarks, cutTypes, download).NotDownloaded? <==> download.None?
    ensures Processed(b, ignoreKeepmarks, cutTypes, download).Failed? <==>
      download.Some? && PlannedKeepmarks(b, ignoreKeepmarks, cutTypes) == []
  {
    var keepmarks := PlannedKeepmarks(b, ignoreKeepmarks, cutTypes);
    SortByIsSortedPermutation(keepmarks, KeepmarkKey);
  }

  /**
   * What is saved has one CHAP frame per chapter, with strictly rising starts
   * from 0 on and ends within the kept audio.
   */
  lemma SavedFrames(b: Broadcast, ignoreKeepmarks: bool, cutTypes: seq<string>, download: Option<seq<Packet>>)
    requires Processed(b, ignoreKeepmarks, cutTypes, download).Written?
    ensures var saved := Processed(b, ignoreKeepmarks, cutTypes, download).saved;
      && |saved.frames| == |saved.chapters|
      && (forall k, l :: 0 <= k < l < |saved.frames| ==> saved.frames[k].startTime < saved.frames[l].startTime)
      && (forall k :: 0 <= k < |saved.frames| ==> 0 <= saved.frames[k].startTime && saved.frames[k].endTime <= TotalDuration(saved.keepmarks))
  {
    var saved := Processed(b, ignoreKeepmarks, cutTypes, download).saved;
    assert saved.frames == Frames(saved.chapters, saved.keepmarks);
    SortByIsSortedPermutation(saved.chapters, ChapterOrderKey);
    FramesProperties(SortBy(saved.chapters, ChapterOrderKey), -1, TotalDuration(saved.keepmarks));
  }

  /** When the audio is cut, only downloaded packets with a dts that lie in a keepmark are kept. */
  lemma CutPacketsKept(b: Broadcast, ignoreKeepmarks: bool, cutTypes: seq<string>, download: Option<seq<Packet>>)
    requires Processed(b, ignoreKeepmarks, cutTypes, download).Written?
    requires Processed(b, ignoreKeepmarks, cutTypes, download).saved.audio.CutPackets?
    ensures var indices := Processed(b, ignoreKeepmarks, cutTypes, download).saved.audio.indices;
      forall k :: 0 <= k < |indices| ==>
        && indices[k] < |download.value|
        && download.value[indices[k]].hasDts
        && InKeepmarkFrom(SortBy(PlannedKeepmarks(b, ignoreKeepmarks, cutTypes), KeepmarkKey), 0, download.value[indices[k]].timestamp)
  {
    var ks := SortBy(PlannedKeepmarks(b, ignoreKeepmarks, cutTypes), KeepmarkKey);
    if ks != [] {
      SelectedProperties(download.value, ks, 0, 0);
    }
  }

  /** No chapter of a type to cut reaches the ID3 tags. */
  lemma NoUnwantedChapterSurvives(b: Broadcast, ignoreKeepmarks: bool, cutTypes: seq<string>)
    ensures forall c :: c in PlannedChapters(b, ignoreKeepmarks, cutTypes) ==> c.chapterType !in cutTypes
  {
    var extracted := Extracted(SortBy(b.items, ItemOrderKey), b);
    var wanted := if cutTypes != [] then ChaptersNotOfTypes(extracted, cutTypes) else extracted;
    var keepmarks := PlannedKeepmarks(b, ignoreKeepmarks, cutTypes);
    assert forall c :: c in wanted ==> c.chapterType !in cutTypes;
    if keepmarks != WholeKeepmark(b) {
      var aligned := Aligned(wanted, keepmarks);
      AlignedProperties(wanted, keepmarks);
      forall c | c in aligned ensures c.chapterType !in cutTypes {
        var i :| 0 <= i < |aligned| && aligned[i] == c;
        assert RetimedFrom(aligned[i], wanted);
      }
    }
  }

  /**
   * With cut types given, no point of an unwanted chapter stays in the planned
   * keepmarks, unless such a chapter starts inside a keepmark and runs past its
   * end (which the `break` of line 178 leaves whole).
   */
  lemma UnwantedTimeCut(b: Broadcast, ignoreKeepmarks: bool, cutTypes: seq<string>, p: int)
    requires cutTypes != []
    requires forall i, c ::
      (0 <= i < |MarkedKeepmarks(b, ignoreKeepmarks)| && c in Extracted(SortBy(b.items, ItemOrderKey), b) && c.chapterType in cutTypes) ==>
      !Overhangs(MarkedKeepmarks(b, ignoreKeepmarks)[i], c)
    requires exists c :: c in Extracted(SortBy(b.items, ItemOrderKey), b) && c.chapterType in cutTypes && Covers(c, p)
    ensures !Kept(PlannedKeepmarks(b, ignoreKeepmarks, cutTypes), p)
  {
    var extracted := Extracted(SortBy(b.items, ItemOrderKey), b);
    ChaptersOfBroadcast(b);
    assert SortedBy(extracted, ChapterStartKey);
    RemovedTypesCutsCovered(MarkedKeepmarks(b, ignoreKeepmarks), extracted, cutTypes, p);
  }

  /**
   * Ignoring keepmarks and cutting nothing leaves the whole broadcast: the audio
   * is not cut and the chapters keep the times `get_chapters` gave them.
   */
  lemma NothingToCut(b: Broadcast, packets: seq<Packet>)
    ensures Processed(b, true, [], Some(packets))
      == Written(Saved(WholeBroadcast, Extracted(SortBy(b.items, ItemOrderKey), b), WholeKeepmark(b),
                       Frames(Extracted(SortBy(b.items, ItemOrderKey), b), WholeKeepmark(b)),
                       TocChildren(Extracted(SortBy(b.items, ItemOrderKey), b))))
  {
  }

  /**
   * A broadcast without marks, when keepmarks are not ignored, has no keepmarks:
   * every chapter is dropped by the alignment and `cut_audio` fails on the
   * empty list, whereas a broadcast without marks could be expected to be kept whole.
   */
  lemma NoMarksFails(b: Broadcast, cutTypes: seq<string>, packets: seq<Packet>)
    requires b.marks == []
    ensures PlannedKeepmarks(b, false, cutTypes) == []
    ensures PlannedChapters(b, false, cutTypes) == []
    ensures Processed(b, false, cutTypes, Some(packets)) == Failed(NoKeepmarks)
  {
    var extracted := Extracted(SortBy(b.items, ItemOrderKey), b);
    if cutTypes != [] {
      var unwanted := ChaptersOfTypes(extracted, cutTypes);
      if unwanted != [] {
        assert SubtractAll([], unwanted) == [];
      }
    }
    var wanted := if cutTypes != [] then ChaptersNotOfTypes(extracted, cutTypes) else extracted;
    AlignedProperties(wanted, []);
    EmptyKeepmarksDropAll(SortBy(wanted, ChapterStartKey));
  }

  /** With no keepmarks, no chapter survives the alignment. */
  lemma {:induction false} EmptyKeepmarksDropAll(cs: seq<Chapter>)
    ensures AlignedSorted(cs, []) == []
  {
    if cs != [] {
      EmptyKeepmarksDropAll(cs[..|cs| - 1]);
    }
  }
}
