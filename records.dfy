/**
 * The values the downloader works on: the broadcast record read from the
 * broadcaster's JSON, its items and marks, and the chapters and keepmarks
 * derived from them. All times are integer milliseconds.
 */
module Records {
  import opened Wrappers
  import opened Sorting

  /** A reference to an image entry of the JSON; its contents are not interpreted. */
  type ImageRef = string

  /** An "in" or "out" marker of the broadcast (`marks` in the JSON); other kinds are ignored. */
  datatype Mark = Mark(kind: string, timestamp: int)

  /** An entry of the broadcast's `items` list; optional JSON fields are options. */
  datatype Item = Item(
    entity: string,
    start: int,
    end: int,
    itemType: string,
    title: Option<string>,
    interpreter: Option<string>,
    description: Option<string>,
    images: Option<seq<ImageRef>>)

  /** The part of a broadcast record the core reads: epoch start and end, items and marks. */
  datatype Broadcast = Broadcast(start: int, end: int, items: seq<Item>, marks: seq<Mark>)

  /**
   * A chapter: times relative to the broadcast start, an id `chp<n>`, an optional
   * title, a hidden flag, the item's images and its type code (W, J, N, M, ...).
   */
  datatype Chapter = Chapter(
    id: string,
    start: int,
    end: int,
    title: Option<string>,
    hidden: bool,
    images: Option<seq<ImageRef>>,
    chapterType: string)

  /** A range `[start, end]` of the original timeline to keep (a two-element list in the source). */
  datatype Keepmark = Keepmark(start: int, end: int)

  function Max(a: int, b: int): int
  {
    if a >= b then a else b
  }

  function Min(a: int, b: int): int
  {
    if a <= b then a else b
  }

  function Length(k: Keepmark): int
  {
    k.end - k.start
  }

  /** `sum(end - start for start, end in keepmarks)`, accumulated left to right. */
  function TotalDuration(ks: seq<Keepmark>): int
  {
    if ks == [] then 0 else TotalDuration(ks[..|ks| - 1]) + Length(ks[|ks| - 1])
  }

  /** Sort key of `sorted(..., key=lambda x: x['start'])` for chapters. */
  function ChapterStartKey(c: Chapter): SortKey
  {
    SortKey(c.start, 0)
  }

  /**
   * Sort key of `key=lambda x: (x['start'], 1/x['end'])`: for positive ends a
   * larger end has a smaller reciprocal, so the second component is `-end`.
   */
  function ChapterOrderKey(c: Chapter): SortKey
  {
    SortKey(c.start, -c.end)
  }

  /** Sort key of `sorted(keepmarks, key=lambda x: x[0])`. */
  function KeepmarkKey(k: Keepmark): SortKey
  {
    SortKey(k.start, 0)
  }

  /** No keepmark is inverted. */
  ghost predicate WellFormed(ks: seq<Keepmark>)
  {
    forall i :: 0 <= i < |ks| ==> ks[i].start <= ks[i].end
  }

  /** Over well-formed keepmarks the total duration never shrinks as keepmarks are added. */
  lemma {:induction false} TotalDurationPrefix(ks: seq<Keepmark>, n: nat)
    requires n <= |ks| && WellFormed(ks)
    ensures 0 <= TotalDuration(ks[..n]) <= TotalDuration(ks)
  {
    if n < |ks| {
      assert ks[..|ks| - 1][..n] == ks[..n];
      TotalDurationPrefix(ks[..|ks| - 1], n);
    } else {
      assert ks[..n] == ks;
      if ks != [] {
        TotalDurationPrefix(ks[..|ks| - 1], |ks| - 1);
        assert ks[..|ks| - 1][..|ks| - 1] == ks[..|ks| - 1];
      }
    }
  }
}
