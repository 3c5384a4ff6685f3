# FM4 7-Tage downloader: the cutting and re-timing core, in Dafny

This project models the part of `fm4-7tage-download.py` that decides what audio to keep and what the chapter marks become. It builds chapters from a broadcast's items and keepmarks (time ranges to keep) from its in/out marks. It cuts the chapters of unwanted types out of the keepmarks. It re-times the surviving chapters onto the shortened timeline. It selects the audio packets that lie in a keepmark. It writes the ID3 CHAP frames and the CTOC child list. It also models `strip_html`, which cleans chapter titles, and the per-broadcast part of `main` that chains these steps together.

Each loop of the source is a Dafny `method` with a `while` loop. Its `ensures` ties the result to a Dafny function that states what the loop computes. The properties are proved about those functions as lemmas. The source's recursive `remove_chapters_from_keepmark` is a recursive function.

The model follows the code as written even where it departs from what the source's own comments and docstrings say. Lemmas show those departures on concrete inputs:
- A chapter that starts inside a keepmark and runs past its end leaves the keepmark whole. The comment at line 175 says "ditch keepmark", but the `break` at line 178 replaced the commented-out `#return []` at line 177.
- A chapter covering a keepmark from before its start leaves the inverted range `[chapter end, keepmark end]`.
- A chapter starting exactly at a keepmark's start leaves the empty piece `[start, start]`.
- An "out" mark before an "in" mark gives an inverted keepmark.
- A broadcast without marks yields no keepmarks. The docstring at line 138 says "return empty list and keep all audio", but unless keepmarks are ignored, alignment then drops every chapter and `cut_audio` fails on the empty list.

Modules:
- `Wrappers`: Option and Result.
- `Sorting`: Python's stable `sorted` by an integer pair.
- `Records`: the broadcast, item, mark, chapter and keepmark records.
- `Html`: `strip_html`.
- `Chapters`: `get_chapters`.
- `Keepmarks`: `get_keepmarks`.
- `Subtraction`: `remove_chapters_from_keepmark` and `remove_chaptertypes_from_keepmarks`.
- `Alignment`: `align_chapters_to_keepmarks`.
- `Cutting`: the packet loop of `cut_audio`.
- `Id3Chapters`: the CHAP/CTOC part of `set_id3_tags`.
- `Pipeline`: one iteration of `main`'s broadcast loop.

Times are integer milliseconds. A sort key `(start, 1/end)` is modelled as `(start, -end)`, which orders the same way for positive ends.

## Model

| member | source | states |
|---|---|---|
| Sorting.SortByIsSortedPermutation | fm4-7tage-download.py:94 | `sorted` returns its input reordered by the key: ordered, the same multiset, the same length |
| Sorting.SortBySortedIsIdentity | fm4-7tage-download.py:94 | sorting an already ordered list changes nothing |
| Sorting.InsertWithKey | fm4-7tage-download.py:94 | after inserting x, the elements with any one key are x (if it has that key) followed by those of the list, in their order |
| Sorting.SortByStable | fm4-7tage-download.py:94 | stability: for every key value, the elements with that key come out of the sort in their input order |
| Sorting.InsertMultiset | fm4-7tage-download.py:94 | inserting adds exactly the inserted element and lengthens the list by one |
| Sorting.InsertBounded | fm4-7tage-download.py:94 | a key below the inserted element and below every listed one stays below every element after the insertion |
| Sorting.InsertKeepsOrder | fm4-7tage-download.py:94 | inserting into an ordered list keeps it ordered and adds exactly that element |
| Sorting.CountInsert | fm4-7tage-download.py:94-96 | inserting an element raises the count of matching elements by one exactly when it matches |
| Sorting.SortByKeepsCount | fm4-7tage-download.py:94-96 | sorting keeps the number of elements of every kind, e.g. of BroadcastItems |
| Records.TotalDurationPrefix | fm4-7tage-download.py:221 | over keepmarks with start <= end, the duration of a prefix lies between 0 and the total |
| Html.FilterTags | fm4-7tage-download.py:359-370 | the character loop, started outside any tag and quote, returns what the tag and quote filter keeps |
| Html.StripHtml | fm4-7tage-download.py:345-375 | `None` stays `None`; text gives text with no angle bracket, no run of two whitespace characters and no whitespace at either end, whose non-whitespace characters are exactly those the tag loop kept, in their order |
| Html.StrippedTextIsClean | fm4-7tage-download.py:359-375 | every stripped text is clean in the sense above |
| Html.StripHtmlIdempotent | fm4-7tage-download.py:345-375 | stripping a stripped text changes nothing |
| Html.TagFilterDropsBrackets | fm4-7tage-download.py:359-370 | the tag/quote loop drops every `<` and `>` when not in a quote |
| Html.TagFilterKeepsOrder | fm4-7tage-download.py:362-370 | the kept characters appear in the input's order |
| Html.TagFilterPlainText | fm4-7tage-download.py:362-370 | text without angle brackets passes the loop unchanged |
| Html.MarkLineBreaksPlainText | fm4-7tage-download.py:354 | the `<br/?>` rewrite leaves text without `<` unchanged |
| Html.ParagraphBreaksPlainText | fm4-7tage-download.py:357 | the `</p><p>` rewrite leaves text without `<` unchanged |
| Html.SpaceRun | fm4-7tage-download.py:357 | the greedy `\s*` match: a whitespace run followed by a non-space or the end |
| Html.NonSpaceConcat | fm4-7tage-download.py:373-375 | dropping whitespace splits over concatenation |
| Html.NonSpaceOfSpaces | fm4-7tage-download.py:373-375 | a whitespace-only text has no non-whitespace character |
| Html.CollapseSpaces | fm4-7tage-download.py:373 | after collapsing, no two whitespace characters are adjacent; the first character's kind is kept; only input characters or spaces appear; every non-whitespace character is kept, in order, and none is added |
| Html.CollapseSpacesSingle | fm4-7tage-download.py:373 | text with no double whitespace is unchanged |
| Html.TrailingSpaceRun | fm4-7tage-download.py:375 | the whitespace run at the end of a text, followed (from the right) by a non-space or the start |
| Html.Trim | fm4-7tage-download.py:375 | `strip()` returns a contiguous slice of the text with only whitespace before and after it and none at its own ends; it keeps every non-whitespace character in order, keeps a text free of double whitespace free of it, and is the identity on text without edge whitespace |
| Html.TrimBounds | fm4-7tage-download.py:375 | for a text that is not all whitespace, the slice between the two whitespace runs has only whitespace outside it and all the text's non-whitespace characters |
| Html.TrimShape | fm4-7tage-download.py:375 | that slice is non-empty, has no edge whitespace, holds only the text's characters, keeps the absence of double whitespace, and is the whole text when the text has no edge whitespace |
| Html.TrimAllSpace | fm4-7tage-download.py:375 | a text that is all whitespace strips to the empty slice at its end |
| Chapters.NatToString | fm4-7tage-download.py:99 | the decimal rendering of the item number is non-empty and has one digit exactly below 10 |
| Chapters.NatToStringInjective | fm4-7tage-download.py:99 | different numbers render differently |
| Chapters.ChapterIdInjective | fm4-7tage-download.py:99 | different item numbers give different `chp<n>` ids |
| Chapters.KeptPositions | fm4-7tage-download.py:94-96 | the positions of the kept elements are in range, rising, and point at kept elements |
| Chapters.KeptNumberedSources | fm4-7tage-download.py:94-96 | `enumerate` then a filter: one result per kept element, result k made from the element at kept position k with that position plus one as its number |
| Chapters.CountSplit | fm4-7tage-download.py:94-96 | appending one element raises the count of matching elements by one exactly when it matches |
| Chapters.ExtractedSources | fm4-7tage-download.py:94-130 | there is one chapter per BroadcastItem, built from that item and numbered by its position in the sorted list plus one, so skipped items leave gaps in the numbering |
| Chapters.ChapterOfFields | fm4-7tage-download.py:98-128 | the chapter of an item starts at or after 0 and ends by the broadcast's length; W and J chapters get their fixed titles and are hidden; a title is never empty; a chapter is hidden exactly when it is W, J or untitled; its id is `chp<n>` and its times are the item's, clamped and made relative to the broadcast |
| Chapters.ExtractedBuilt | fm4-7tage-download.py:94-130 | chapter k has the fields the previous row states for the item at BroadcastItem position k |
| Chapters.ExtractedRules | fm4-7tage-download.py:98-128 | every extracted chapter keeps the title, hidden-flag and clamping rules |
| Chapters.ExtractedIdsDistinct | fm4-7tage-download.py:99 | extracted chapters have distinct ids |
| Chapters.ExtractedOrder | fm4-7tage-download.py:94-101 | over sorted items, starts never fall, and equal positive starts put the longer chapter first |
| Chapters.StripItemTexts | fm4-7tage-download.py:112-113 | the interpreter, title and description are each passed through `strip_html` |
| Chapters.MakeChapter | fm4-7tage-download.py:98-128 | the loop body builds the chapter of the item from its joined title text, with the W/J overrides and the hidden rule |
| Chapters.ChaptersOfBroadcast | fm4-7tage-download.py:86-132 | the same guarantees, stated on the broadcast's unsorted items: one chapter per BroadcastItem, the rules, distinct ids, starts never falling, and equal positive starts putting the longer chapter first |
| Chapters.GetChapters | fm4-7tage-download.py:86-132 | the loop returns the extracted chapters, with the guarantees above, including the longer-first order of equal positive starts |
| Keepmarks.PairingStartsAfter | fm4-7tage-download.py:145-154 | no keepmark starts before the mark that opened it, clamped to the broadcast start |
| Keepmarks.PairingChained | fm4-7tage-download.py:145-156 | over sorted marks, each keepmark ends before any later one starts |
| Keepmarks.PairingInside | fm4-7tage-download.py:147-152 | every keepmark lies within the broadcast, in times relative to its start |
| Keepmarks.PairingCount | fm4-7tage-download.py:145-154 | each keepmark uses up at least one "in" mark and one "out" mark |
| Keepmarks.GetKeepmarks | fm4-7tage-download.py:135-156 | the loop returns the pairing of the sorted marks: inside the broadcast, chained, no more keepmarks than "in" or "out" marks, none for a broadcast without marks, and at least one when the marks hold an "in" mark and an "out" mark |
| Keepmarks.PairingNonEmpty | fm4-7tage-download.py:145-154 | with at most one time pending, the scan emits a keepmark whenever the remaining marks supply what is missing |
| Keepmarks.KeepmarksNonEmpty | fm4-7tage-download.py:135-156 | a broadcast with an "in" mark and an "out" mark has at least one keepmark |
| Keepmarks.KeepmarksProperties | fm4-7tage-download.py:135-156 | the keepmarks of the sorted marks lie within the broadcast, follow one another, number no more than the "in" marks and than the "out" marks, are none without marks and at least one with an "in" and an "out" mark |
| Keepmarks.OutBeforeInInverts | fm4-7tage-download.py:146-152 | an "out" mark at 1000 followed by an "in" mark at 2000 gives the keepmark [2000, 1000] |
| Subtraction.RemoveChaptersFromKeepmark | fm4-7tage-download.py:159-191 | the result has at least one piece, the last piece ends at the keepmark's end, and every piece bound lies within the keepmark |
| Subtraction.UntouchedKeepmark | fm4-7tage-download.py:165-191 | a keepmark no chapter reaches into is returned as it is |
| Subtraction.UncoveredPointsKept | fm4-7tage-download.py:159-191 | a point of the keepmark that no chapter covers is still in some piece |
| Subtraction.CoveredPointsCut | fm4-7tage-download.py:159-191 | for chapters in start order, none starting inside the keepmark and reaching its end, a point some chapter covers is in no piece |
| Subtraction.PiecesInOrder | fm4-7tage-download.py:184-188 | when no chapter is inverted, the pieces come in order and do not overlap |
| Subtraction.SplitExample | fm4-7tage-download.py:184-188 | [0,3000] minus [1000,2000] is [0,1000], [2000,3000] |
| Subtraction.DegenerateLeftExample | fm4-7tage-download.py:184-188 | [0,3000] minus [0,1000] keeps the empty piece [0,0] before [1000,3000] |
| Subtraction.CoveringFromBeforeExample | fm4-7tage-download.py:180-182 | [1000,2000] minus [500,2500] is the inverted [2500,2000], not nothing |
| Subtraction.OverhangingChapterExample | fm4-7tage-download.py:175-178 | [1000,2000] minus [1500,2500] is [1000,2000] unchanged, because of the `break` |
| Subtraction.ChaptersOfTypes | fm4-7tage-download.py:200 | the unwanted chapters are exactly the chapters whose type is listed |
| Subtraction.ChaptersNotOfTypes | fm4-7tage-download.py:560 | the kept chapters are exactly the chapters whose type is not listed |
| Subtraction.ChaptersOfTypesConcat | fm4-7tage-download.py:200 | the filter splits over concatenation, so it keeps input order and multiplicity |
| Subtraction.ChaptersOfTypesSingle | fm4-7tage-download.py:200 | one chapter passes exactly when its type is listed |
| Subtraction.ChaptersNotOfTypesConcat | fm4-7tage-download.py:560 | the filter splits over concatenation, so it keeps input order and multiplicity |
| Subtraction.ChaptersNotOfTypesSingle | fm4-7tage-download.py:560 | one chapter passes exactly when its type is not listed |
| Subtraction.ChaptersOfTypesSorted | fm4-7tage-download.py:200 | chapters in start order stay in start order after the filter, as the scan of lines 165-169 needs |
| Subtraction.SubtractAllGrows | fm4-7tage-download.py:205-207 | subtracting from every keepmark never gives fewer keepmarks |
| Subtraction.SubtractAllKeepsUncovered | fm4-7tage-download.py:205-209 | a kept point that no unwanted chapter covers stays kept |
| Subtraction.SubtractAllInside | fm4-7tage-download.py:205-209 | every new keepmark lies inside one of the old ones |
| Subtraction.SubtractAllCutsCovered | fm4-7tage-download.py:205-209 | for chapters in start order, none overhanging a keepmark's end, a point some chapter covers is in no new keepmark |
| Subtraction.RemovedTypesCutsCovered | fm4-7tage-download.py:194-209 | for chapters in start order, a point covered by a chapter of a listed type is in no resulting keepmark, unless such a chapter overhangs a keepmark's end |
| Subtraction.RemoveChapterTypesFromKeepmarks | fm4-7tage-download.py:194-209 | with no unwanted chapter the keepmarks come back unchanged; otherwise the result is each keepmark minus the unwanted chapters, in order, with no fewer keepmarks, each inside an old one, every uncovered kept point still kept, and, for chapters in start order with no unwanted chapter overhanging a keepmark's end, every point of an unwanted chapter cut out |
| Alignment.CumulativeGaps | fm4-7tage-download.py:224-230 | gap i is the time removed before keepmark i: its start minus the length of all keepmarks before it |
| Alignment.SurvivorPositions | fm4-7tage-download.py:235-275 | the positions of the chapters that survive alignment are in range and rising |
| Alignment.AlignedSortedSources | fm4-7tage-download.py:272-275 | each output chapter is a surviving input chapter with only its times changed, in input order, and ends by the total kept duration |
| Alignment.ForwardScanBounds | fm4-7tage-download.py:240-250 | over keepmarks with start <= end, a start found by the forward scan lies between 0 and the total kept duration |
| Alignment.BackwardScanBounds | fm4-7tage-download.py:256-266 | an end found by the backward scan is at most the total kept duration |
| Alignment.AlignOneBounds | fm4-7tage-download.py:271-274 | a chapter that survives has 0 <= start < end <= total kept duration |
| Alignment.TouchingPrefix | fm4-7tage-download.py:224-230 | over non-overlapping keepmarks, when keepmark j ends where keepmark i starts, the keepmarks between them add no kept time |
| Alignment.GapsAcrossTouch | fm4-7tage-download.py:224-230 | two such touching keepmarks have the same cumulative gap before them |
| Alignment.ForwardScanFinds | fm4-7tage-download.py:240-250 | over non-overlapping keepmarks, touching ones included, the forward scan gives a chapter inside keepmark i the start shifted by gap i |
| Alignment.BackwardScanFinds | fm4-7tage-download.py:256-266 | over the same keepmarks, the backward scan gives that chapter the end shifted by gap i |
| Alignment.ChapterInsideKeepmark | fm4-7tage-download.py:235-275 | over well-formed keepmarks none of which ends after a later one starts (touching keepmarks, as `get_keepmarks` emits from chained marks, included), a chapter lying inside keepmark i moves left by exactly the time removed before keepmark i |
| Alignment.TotalDurationConcat | fm4-7tage-download.py:221 | the kept duration of two lists is the sum of their durations |
| Alignment.TotalDurationInsert | fm4-7tage-download.py:219-221 | inserting a keepmark adds its length to the duration |
| Alignment.TotalDurationSorted | fm4-7tage-download.py:219-221 | sorting the keepmarks keeps the total duration |
| Alignment.AlignedProperties | fm4-7tage-download.py:212-277 | no more chapters come out than go in; each is a re-timed input chapter ending by the total kept duration; over keepmarks with start <= end each has 0 <= start < end |
| Alignment.AlignedSortedMember | fm4-7tage-download.py:271-275 | over keepmarks with start <= end, every output chapter has 0 <= start < end |
| Alignment.AlignedKeepsOrder | fm4-7tage-download.py:218 | output chapters keep the order of their original starts |
| Alignment.AlignChapter | fm4-7tage-download.py:236-275 | the two scans and the final test re-time one chapter as AlignOne does, or drop it |
| Alignment.AlignChaptersToKeepmarks | fm4-7tage-download.py:212-277 | the loops return the aligned chapters, with the guarantees of AlignedProperties |
| Alignment.RealignExample | fm4-7tage-download.py:212-277 | keepmarks [0,1000], [3000,4000] move the chapter [500,3500] to [500,1500] |
| Cutting.SelectedProperties | fm4-7tage-download.py:325-340 | every copied position is a packet with a dts whose time lies in a keepmark at or after the cursor, and positions rise |
| Cutting.SelectPackets | fm4-7tage-download.py:325-340 | the packet loop over sorted keepmarks returns the positions Selected lists, from the first keepmark and the first packet |
| Cutting.CutAudio | fm4-7tage-download.py:322-340 | the packet loop returns the copied positions; it fails exactly on an empty keepmark list; positions rise, and each is a packet with a dts inside a keepmark; before the first advancing packet a packet is copied exactly when it has a dts and lies in the first keepmark, and that advancing packet is not copied |
| Cutting.PacketsWithoutDtsSkipped | fm4-7tage-download.py:326-328 | a packet without a dts is never copied |
| Cutting.SingleKeepmark | fm4-7tage-download.py:332-340 | with one keepmark, a packet is copied exactly when it has a dts, lies in the keepmark, and no earlier dts packet reached the keepmark's end |
| Cutting.FirstAdvance | fm4-7tage-download.py:332-336 | the first packet from a position on that has a dts and a time at or past both ends of the keepmark, or the end of the packets |
| Cutting.SelectedSplit | fm4-7tage-download.py:325-340 | the scan on keepmark c is the scan against keepmark c alone, up to the first advancing packet, followed by the scan from keepmark c + 1 after that packet, or by nothing on the last keepmark |
| Cutting.SplitAtAdvance | fm4-7tage-download.py:334-338 | the split holds at the advancing packet itself |
| Cutting.SplitBeforeAdvance | fm4-7tage-download.py:326-340 | a packet before the advancing one extends both sides of the split alike |
| Cutting.CurrentKeepmark | fm4-7tage-download.py:332-340 | before the cursor moves on, a packet is copied exactly when it has a dts and lies in the current keepmark |
| Cutting.AdvancingPacketDropped | fm4-7tage-download.py:334-336 | the packet that moves the cursor to the next keepmark is not copied, even when it lies in that keepmark, and the scan goes on from the next keepmark with the following packet |
| Cutting.StopsAfterLastKeepmark | fm4-7tage-download.py:335-338 | once a packet has moved the cursor past the last keepmark, nothing from it on is copied, even a packet back inside that keepmark |
| Cutting.AdvancingPacketExample | fm4-7tage-download.py:334-336 | over [0,1000], [1000,2000], the packet at 1000 moves the cursor on and is dropped, so packets 0 and 2 are copied |
| Cutting.StopExample | fm4-7tage-download.py:335-338 | over [0,500], a packet at 100 after one at 900 is dropped |
| Id3Chapters.SubTitle | fm4-7tage-download.py:461-463 | a TIT2 sub-frame exists exactly for a present, non-empty title, and carries that title |
| Id3Chapters.FramesFrom | fm4-7tage-download.py:459-480 | one CHAP frame per chapter |
| Id3Chapters.FramesProperties | fm4-7tage-download.py:473-480 | frame k has chapter k's id and title sub-frame and its end clamped to the duration; its start is at least the chapter's start and past the previous start; starts rise strictly |
| Id3Chapters.DistinctStartsKept | fm4-7tage-download.py:473-480 | chapters whose starts already rise strictly keep their start times |
| Id3Chapters.EqualStartsBumped | fm4-7tage-download.py:457-480 | of two chapters starting at 0, the longer one keeps 0, the shorter one gets 1, and ends are clamped to the duration |
| Id3Chapters.TocChildren | fm4-7tage-download.py:482-487 | the CTOC children are exactly the ids of the visible chapters, never more than there are chapters |
| Id3Chapters.TocChildrenConcat | fm4-7tage-download.py:485 | the CTOC list follows the given order: it splits over concatenation |
| Id3Chapters.TocFollowsInputOrder | fm4-7tage-download.py:482-487 | the CTOC order is the order given, while the CHAP frames are sorted by start |
| Id3Chapters.BroadcastDuration | fm4-7tage-download.py:407 | the loop sums the keepmark lengths into the total kept duration |
| Id3Chapters.SortedChapterFrames | fm4-7tage-download.py:457-480 | the CHAP loop over the sorted chapters returns FramesFrom of them from a previous start of -1, which is Frames |
| Id3Chapters.ChapterFrames | fm4-7tage-download.py:457-487 | one frame per chapter, with strictly rising starts from 0 on and ends by the kept duration, plus the CTOC children |
| Pipeline.ReadKeepmarks | fm4-7tage-download.py:550-553 | the keepmarks are the whole broadcast when ignored, else those paired from the marks, which then are chained and inside the broadcast |
| Pipeline.CutChapterTypes | fm4-7tage-download.py:555-560 | with cut types given, the keepmarks are RemovedTypes of the chapters and the chapter list keeps only wanted types, none of which has a cut type; without cut types, both stay |
| Pipeline.PlanBroadcast | fm4-7tage-download.py:546-564 | the chapters and keepmarks after extraction, the optional type cut and the alignment are PlannedChapters and PlannedKeepmarks |
| Pipeline.ProcessBroadcast | fm4-7tage-download.py:546-588 | one iteration of the broadcast loop yields Processed: not downloaded, failed with an uncaught StopIteration, or written |
| Pipeline.OutcomeCases | fm4-7tage-download.py:572-581 | a broadcast is skipped exactly when the download failed, and fails exactly when no keepmark is left |
| Pipeline.SavedFrames | fm4-7tage-download.py:580-588 | what is saved has one CHAP frame per chapter, starts rising strictly from 0, ends within the kept audio |
| Pipeline.CutPacketsKept | fm4-7tage-download.py:579-581 | cut audio holds only downloaded packets with a dts that lie in a keepmark |
| Pipeline.NoUnwantedChapterSurvives | fm4-7tage-download.py:555-564 | no chapter of a type to cut reaches the ID3 tags |
| Pipeline.UnwantedTimeCut | fm4-7tage-download.py:555-560 | with cut types given, no point of an unwanted chapter stays in the planned keepmarks, unless such a chapter overhangs a keepmark's end |
| Pipeline.NothingToCut | fm4-7tage-download.py:549-581 | ignoring keepmarks and cutting nothing saves the whole audio and the chapters as extracted |
| Pipeline.NoMarksFails | fm4-7tage-download.py:549-581 | without marks, and with keepmarks not ignored, there are no keepmarks, no chapters, and the cut fails |
| Pipeline.EmptyKeepmarksDropAll | fm4-7tage-download.py:235-277 | no chapter survives alignment to an empty keepmark list |

## Left out

- `get_all_broadcasts`, `download_audio` and `get_image`: network access. The downloaded audio is a parameter of `Pipeline.ProcessBroadcast`; `None` stands for a failed or empty download. Chapter and cover images are not fetched.
- `create_filename`, the file-exists check, the temporary file, the rename and the ID3 save: file I/O and naming, not core logic.
- The ID3 text frames other than CHAP/CTOC, the broadcast description, and the date formatting in `set_id3_tags`: metadata copied from the broadcast record through a third-party library.
- Argument parsing, the `--newest` option, the PyAV-missing fallback, the SIGINT handler and the `.strip().upper()` normalisation of `--cut`: command-line handling. Cut types reach the model as already-normalised strings.
- Cutting.CutAudio: demuxing, muxing and the time-base arithmetic of line 330 (`int(pts * time_base * 1000)` over fractions) are left out. A packet is its dts flag and its time in milliseconds, and the result is the list of positions to mux.
- Sorting.SortBy: the key `(start, 1/end)` is modelled as `(start, -end)`. The `ZeroDivisionError` for an end of 0 is not modelled. Both keys order two positive ends alike, and two negative ends alike; they differ only between a negative and a positive end at the same start: with ends -1 and 1, `1/end` puts -1 first and `-end` puts 1 first.
- Html.StripHtml: `\s` and `strip()` use Python's whitespace set, written out character by character. `re.IGNORECASE` is modelled as ASCII case folding of `br` and `p` only, which is all those patterns contain.
- Subtraction.RemoveChapterTypesFromKeepmarks: does not state that the result's total duration is the input's minus the overlap with the unwanted chapters. The code as written does not keep that law: a chapter overhanging a keepmark's end leaves it whole, and one covering it from before leaves an inverted range, as the example lemmas show.
- Subtraction.RemovedTypesCutsCovered: states the cut only when no unwanted chapter starts inside a keepmark and reaches its end, because the `break` at line 178 leaves such a keepmark whole, with the chapter's time in it (Subtraction.OverhangingChapterExample). It also needs the chapters in start order, which `get_chapters` provides (Chapters.ChaptersOfBroadcast) and the filter keeps (Subtraction.ChaptersOfTypesSorted). An inverted piece keeps no point, so it does not break the law.
- Alignment.AlignChaptersToKeepmarks: the sum of the re-timed chapter lengths is not bounded by the kept duration, because chapters may still overlap each other. Only each chapter's bounds are stated.
- Keepmarks.GetKeepmarks: does not state that every keepmark has start < end, because the code as written can emit an inverted or empty keepmark (see Keepmarks.OutBeforeInInverts).
- Pipeline.ProcessBroadcast: `Failed(NoKeepmarks)` is the StopIteration raised by `next()` at line 323. `main` does not catch it, so in the source it ends the whole run, not just this broadcast. The model stops at the one broadcast; the loop over the other broadcasts is not modelled. A failed download, by contrast, hits the `continue` at line 575 and the run goes on to the next broadcast.
