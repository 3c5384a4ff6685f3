/**
 * `strip_html` (fm4-7tage-download.py, lines 345-375): two regular-expression
 * rewrites that put a " | " separator after line breaks and between paragraphs,
 * a character loop with a `tag` and a `quote` flag that drops everything inside
 * tags, collapsing of whitespace runs and trimming.
 */
module Html {
  import opened Wrappers

  /** Python's whitespace (`str.isspace`, and `\s` in a `str` pattern). */
  predicate IsSpace(c: char)
  {
    || c == ' '
    || ('\t' <= c <= '\r')
    || ('\U{1C}' <= c <= '\U{1F}')
    || c == '\U{85}' || c == '\U{A0}' || c == '\U{1680}'
    || ('\U{2000}' <= c <= '\U{200A}')
    || c == '\U{2028}' || c == '\U{2029}' || c == '\U{202F}' || c == '\U{205F}' || c == '\U{3000}'
  }

  /** No two adjacent whitespace characters. */
  predicate NoDoubleSpace(s: string)
  {
    forall i :: 0 <= i < |s| - 1 ==> !(IsSpace(s[i]) && IsSpace(s[i + 1]))
  }

  /** Neither the first nor the last character is whitespace. */
  predicate NoEdgeSpace(s: string)
  {
    s == [] || (!IsSpace(s[0]) && !IsSpace(s[|s| - 1]))
  }

  /** What `strip_html` promises of a text it returns. */
  predicate CleanText(s: string)
  {
    '<' !in s && '>' !in s && NoDoubleSpace(s) && NoEdgeSpace(s)
  }

  /** Length of the whitespace run at the front of s (a greedy `\s*`). */
  function SpaceRun(s: string): (n: nat)
    ensures n <= |s|
    ensures forall i :: 0 <= i < n ==> IsSpace(s[i])
    ensures n < |s| ==> !IsSpace(s[n])
  {
    if s != [] && IsSpace(s[0]) then 1 + SpaceRun(s[1..]) else 0
  }

  /** Length of the whitespace run at the back of s. */
  function TrailingSpaceRun(s: string): (n: nat)
    ensures n <= |s|
    ensures forall i :: |s| - n <= i < |s| ==> IsSpace(s[i])
    ensures n < |s| ==> !IsSpace(s[|s| - 1 - n])
  {
    if s != [] && IsSpace(s[|s| - 1]) then 1 + TrailingSpaceRun(s[..|s| - 1]) else 0
  }

  function AsciiUpper(c: char): char
  {
    if 'a' <= c <= 'z' then (c as int - 32) as char else c
  }

  /** s starts with pattern (given in lower case), ignoring ASCII case, as `re.IGNORECASE`. */
  predicate StartsWithNoCase(s: string, pattern: string)
  {
    |pattern| <= |s| && forall i :: 0 <= i < |pattern| ==> s[i] == pattern[i] || s[i] == AsciiUpper(pattern[i])
  }

  /** Length of a `<br/?>` match at the front of s, or 0 when there is none. */
  function BreakTagLength(s: string): nat
  {
    if StartsWithNoCase(s, "<br>") then 4
    else if StartsWithNoCase(s, "<br/>") then 5
    else 0
  }

  /** `re.sub(r'(<br/?>)', r'\1 | ', text, flags=re.IGNORECASE)`, scanning left to right. */
  function MarkLineBreaks(s: string): string
    decreases |s|
  {
    if s == [] then []
    else if BreakTagLength(s) > 0 then
      s[..BreakTagLength(s)] + " | " + MarkLineBreaks(s[BreakTagLength(s)..])
    else [s[0]] + MarkLineBreaks(s[1..])
  }

  /**
   * A match of `\s*(</p>)\s*(<p>)\s*` at the front of s, as the lengths of its
   * three whitespace runs. Each `\s*` is greedy and no tag begins with
   * whitespace, so backtracking never finds a shorter run that matches.
   */
  function ParagraphMatch(s: string): Option<(nat, nat, nat)>
  {
    var w1 := SpaceRun(s);
    if !StartsWithNoCase(s[w1..], "</p>") then None
    else
      var w2 := SpaceRun(s[w1 + 4..]);
      if !StartsWithNoCase(s[w1 + 4 + w2..], "<p>") then None
      else Some((w1, w2, SpaceRun(s[w1 + 7 + w2..])))
  }

  /** `re.sub(r'\s*(</p>)\s*(<p>)\s*', r'\1 | \2 ', text, flags=re.IGNORECASE)`. */
  function ParagraphBreaks(s: string): string
    decreases |s|
  {
    if s == [] then []
    else match ParagraphMatch(s)
      case Some((w1, w2, w3)) =>
        s[w1..w1 + 4] + " | " + s[w1 + 4 + w2..w1 + 7 + w2] + " " + ParagraphBreaks(s[w1 + 7 + w2 + w3..])
      case None => [s[0]] + ParagraphBreaks(s[1..])
  }

  /**
   * The character loop: `tag` is set by `<` and cleared by `>` unless inside a
   * quote; a quote character toggles `quote` only inside a tag; other characters
   * are kept only outside tags.
   */
  function TagFilter(s: string, tag: bool, quote: bool): string
  {
    if s == [] then []
    else
      var c := s[0];
      if c == '<' && !quote then TagFilter(s[1..], true, quote)
      else if c == '>' && !quote then TagFilter(s[1..], false, quote)
      else if (c == '"' || c == '\'') && tag then TagFilter(s[1..], tag, !quote)
      else if !tag then [c] + TagFilter(s[1..], tag, quote)
      else TagFilter(s[1..], tag, quote)
  }

  /** The non-whitespace characters of s, in order. */
  function NonSpace(s: string): string
  {
    if s == [] then [] else (if IsSpace(s[0]) then [] else [s[0]]) + NonSpace(s[1..])
  }

  /** NonSpace splits over concatenation. */
  lemma {:induction false} NonSpaceConcat(a: string, b: string)
    ensures NonSpace(a + b) == NonSpace(a) + NonSpace(b)
  {
    if a != [] {
      assert (a + b)[0] == a[0] && (a + b)[1..] == a[1..] + b;
      NonSpaceConcat(a[1..], b);
    } else {
      assert a + b == b;
    }
  }

  /** Whitespace-only text has no non-whitespace character. */
  lemma {:induction false} NonSpaceOfSpaces(s: string)
    requires forall i :: 0 <= i < |s| ==> IsSpace(s[i])
    ensures NonSpace(s) == []
  {
    if s != [] {
      NonSpaceOfSpaces(s[1..]);
    }
  }

  /** `re.sub(r'\s\s+', ' ', out)`: every run of two or more whitespace characters becomes one space. */
  function CollapseSpaces(s: string): (r: string)
    ensures NoDoubleSpace(r)
    ensures |s| > 0 ==> |r| > 0 && (IsSpace(r[0]) <==> IsSpace(s[0]))
    ensures forall c :: c in r ==> c == ' ' || c in s
    ensures NonSpace(r) == NonSpace(s)
    decreases |s|
  {
    if s == [] then []
    else if |s| >= 2 && IsSpace(s[0]) && IsSpace(s[1]) then
      var n := SpaceRun(s);
      var rest := CollapseSpaces(s[n..]);
      NonSpaceOfSpaces(s[..n]);
      NonSpaceConcat(s[..n], s[n..]);
      assert s == s[..n] + s[n..];
      NonSpaceConcat(" ", rest);
      " " + rest
    else
      var rest := CollapseSpaces(s[1..]);
      NonSpaceConcat([s[0]], rest);
      NonSpaceConcat([s[0]], s[1..]);
      assert s == [s[0]] + s[1..];
      [s[0]] + rest
  }

  /** r is the slice s[a..b], and everything of s outside that slice is whitespace. */
  predicate StripsTo(s: string, r: string, a: nat, b: nat)
  {
    && a <= b <= |s| && r == s[a..b]
    && (forall i :: 0 <= i < a ==> IsSpace(s[i]))
    && (forall i :: b <= i < |s| ==> IsSpace(s[i]))
  }

  /** The leading and the trailing whitespace runs of a text that is not all whitespace frame what it keeps. */
  lemma TrimBounds(s: string, a: nat, b: nat)
    requires a == SpaceRun(s) < |s| && b == |s| - TrailingSpaceRun(s)
    ensures StripsTo(s, s[a..b], a, b)
    ensures NonSpace(s[a..b]) == NonSpace(s)
  {
    assert !IsSpace(s[a]);
    var front, middle, back := s[..a], s[a..b], s[b..];
    assert forall i :: 0 <= i < |front| ==> front[i] == s[i];
    NonSpaceOfSpaces(front);
    assert forall i :: 0 <= i < |back| ==> back[i] == s[b + i];
    NonSpaceOfSpaces(back);
    NonSpaceFramed(front, middle, back);
    ThreeSlices(s, a, b);
  }

  /** The slice between the whitespace runs has no edge whitespace and keeps what s already had. */
  lemma TrimShape(s: string, a: nat, b: nat)
    requires a == SpaceRun(s) < |s| && b == |s| - TrailingSpaceRun(s)
    ensures a < b
    ensures NoEdgeSpace(s[a..b])
    ensures forall c :: c in s[a..b] ==> c in s
    ensures NoDoubleSpace(s) ==> NoDoubleSpace(s[a..b])
    ensures NoEdgeSpace(s) ==> a == 0 && b == |s|
  {
    var n := TrailingSpaceRun(s);
    assert n < |s| ==> !IsSpace(s[|s| - 1 - n]);
    TrimEdges(s, a, b);
    SliceMembers(s, a, b);
    if NoDoubleSpace(s) {
      SliceNoDoubleSpace(s, a, b);
    }
    if NoEdgeSpace(s) {
      CleanEdgesNoRuns(s);
    }
  }

  /** A non-whitespace character at a, and only whitespace from b on, put a before b. */
  lemma TrimEdges(s: string, a: nat, b: nat)
    requires a < |s| && !IsSpace(s[a]) && b <= |s|
    requires forall i :: b <= i < |s| ==> IsSpace(s[i])
    requires 0 < b ==> !IsSpace(s[b - 1])
    ensures a < b
    ensures NoEdgeSpace(s[a..b])
  {
    EdgeSlice(s, a, b);
  }

  /** A slice from a non-whitespace character to one has no edge whitespace. */
  lemma EdgeSlice(s: string, a: nat, b: nat)
    requires a < b <= |s| && !IsSpace(s[a]) && !IsSpace(s[b - 1])
    ensures NoEdgeSpace(s[a..b])
  {
    assert s[a..b][0] == s[a] && s[a..b][b - a - 1] == s[b - 1];
  }

  /** A text without edge whitespace has no leading or trailing run to strip. */
  lemma CleanEdgesNoRuns(s: string)
    requires s != [] && NoEdgeSpace(s)
    ensures SpaceRun(s) == 0 && TrailingSpaceRun(s) == 0
  {
  }

  /** Every character of a slice is a character of the text. */
  lemma SliceMembers(s: string, a: nat, b: nat)
    requires a <= b <= |s|
    ensures forall c :: c in s[a..b] ==> c in s
  {
    forall c | c in s[a..b] ensures c in s {
      var k :| 0 <= k < b - a && s[a..b][k] == c;
      assert s[a + k] == c;
    }
  }

  /** A slice of a text without double whitespace has none either. */
  lemma SliceNoDoubleSpace(s: string, a: nat, b: nat)
    requires a <= b <= |s| && NoDoubleSpace(s)
    ensures NoDoubleSpace(s[a..b])
  {
    forall i | 0 <= i < b - a - 1 ensures !(IsSpace(s[a..b][i]) && IsSpace(s[a..b][i + 1])) {
      assert s[a..b][i] == s[a + i] && s[a..b][i + 1] == s[a + i + 1];
    }
  }

  /** A text that is all whitespace strips to the empty slice at its end. */
  lemma TrimAllSpace(s: string)
    requires SpaceRun(s) == |s|
    ensures StripsTo(s, [], |s|, |s|)
    ensures NonSpace(s) == []
  {
    NonSpaceOfSpaces(s);
    assert s[|s|..|s|] == [];
  }

  /** A text is its three slices at a and b, put back together. */
  lemma ThreeSlices(s: string, a: nat, b: nat)
    requires a <= b <= |s|
    ensures s == s[..a] + s[a..b] + s[b..]
  {
    assert s[a..] == s[a..b] + s[b..];
  }

  /** Whitespace-only text around a middle part adds no non-whitespace character. */
  lemma NonSpaceFramed(front: string, middle: string, back: string)
    requires NonSpace(front) == [] && NonSpace(back) == []
    ensures NonSpace(front + middle + back) == NonSpace(middle)
  {
    NonSpaceConcat(front, middle);
    NonSpaceConcat(front + middle, back);
    assert [] + NonSpace(middle) + [] == NonSpace(middle);
  }

  /** `str.strip()`: the slice of s between its leading and its trailing whitespace. */
  function Trim(s: string): (r: string)
    ensures NoEdgeSpace(r)
    ensures exists a, b :: StripsTo(s, r, a, b)
    ensures forall c :: c in r ==> c in s
    ensures NonSpace(r) == NonSpace(s)
    ensures NoDoubleSpace(s) ==> NoDoubleSpace(r)
    ensures NoEdgeSpace(s) ==> r == s
  {
    var a := SpaceRun(s);
    if a == |s| then
      TrimAllSpace(s);
      []
    else
      var b := |s| - TrailingSpaceRun(s);
      TrimShape(s, a, b);
      TrimBounds(s, a, b);
      s[a..b]
  }

  /** `strip_html(text)`: None stays None. */
  function StrippedText(text: Option<string>): Option<string>
  {
    match text
    case None => None
    case Some(t) => Some(Trim(CollapseSpaces(TagFilter(ParagraphBreaks(MarkLineBreaks(t)), false, false))))
  }

  /** The character loop of lines 359-370, from outside any tag and quote. */
  method FilterTags(t: string) returns (out: string)
    ensures out == TagFilter(t, false, false)
  {
    var tag, quote := false, false;
    out := "";
    var i := 0;
    while i < |t|
      invariant 0 <= i <= |t|
      invariant out + TagFilter(t[i..], tag, quote) == TagFilter(t, false, false)
    {
      var c := t[i];
      assert t[i..][0] == c && t[i..][1..] == t[i + 1..];
      if c == '<' && !quote {
        tag := true;
      } else if c == '>' && !quote {
        tag := false;
      } else if (c == '"' || c == '\'') && tag {
        quote := !quote;
      } else if !tag {
        ghost var rest := TagFilter(t[i + 1..], tag, quote);
        assert (out + [c]) + rest == out + ([c] + rest);
        out := out + [c];
      }
      i := i + 1;
    }
  }

  /** `strip_html`, with the character loop written as the source's loop. */
  method StripHtml(text: Option<string>) returns (r: Option<string>)
    ensures r == StrippedText(text)
    ensures r.Some? <==> text.Some?
    ensures r.Some? ==> CleanText(r.value)
    ensures r.Some? ==> NonSpace(r.value) == NonSpace(TagFilter(ParagraphBreaks(MarkLineBreaks(text.value)), false, false))
  {
    if text.None? {
      return None;
    }
    var out := FilterTags(ParagraphBreaks(MarkLineBreaks(text.value)));
    r := Some(Trim(CollapseSpaces(out)));
    StrippedTextIsClean(text.value);
  }

  /** Outside a quote that is not inside a tag, no angle bracket survives the loop. */
  lemma {:induction false} TagFilterDropsBrackets(s: string, tag: bool, quote: bool)
    requires quote ==> tag
    ensures '<' !in TagFilter(s, tag, quote) && '>' !in TagFilter(s, tag, quote)
  {
    if s != [] {
      var c := s[0];
      if c == '<' && !quote {
        TagFilterDropsBrackets(s[1..], true, quote);
      } else if c == '>' && !quote {
        TagFilterDropsBrackets(s[1..], false, quote);
      } else if (c == '"' || c == '\'') && tag {
        TagFilterDropsBrackets(s[1..], tag, !quote);
      } else {
        TagFilterDropsBrackets(s[1..], tag, quote);
      }
    }
  }

  /** The result of `strip_html` has no angle bracket, no double or edge whitespace. */
  lemma StrippedTextIsClean(t: string)
    ensures StrippedText(Some(t)).Some? && CleanText(StrippedText(Some(t)).value)
  {
    var f := TagFilter(ParagraphBreaks(MarkLineBreaks(t)), false, false);
    TagFilterDropsBrackets(ParagraphBreaks(MarkLineBreaks(t)), false, false);
    assert '<' !in CollapseSpaces(f) && '>' !in CollapseSpaces(f);
  }

  /** a is obtained from b by deleting characters. */
  predicate IsSubsequence(a: string, b: string)
    decreases |b|
  {
    a == [] || (b != [] && ((a[0] == b[0] && IsSubsequence(a[1..], b[1..])) || IsSubsequence(a, b[1..])))
  }

  /** The characters the loop keeps appear in the order of the input. */
  lemma {:induction false} TagFilterKeepsOrder(s: string, tag: bool, quote: bool)
    ensures IsSubsequence(TagFilter(s, tag, quote), s)
  {
    if s != [] {
      var c := s[0];
      if c == '<' && !quote {
        TagFilterKeepsOrder(s[1..], true, quote);
      } else if c == '>' && !quote {
        TagFilterKeepsOrder(s[1..], false, quote);
      } else if (c == '"' || c == '\'') && tag {
        TagFilterKeepsOrder(s[1..], tag, !quote);
      } else if !tag {
        TagFilterKeepsOrder(s[1..], tag, quote);
        assert ([c] + TagFilter(s[1..], tag, quote))[1..] == TagFilter(s[1..], tag, quote);
      } else {
        TagFilterKeepsOrder(s[1..], tag, quote);
      }
    }
  }

  /** Text without angle brackets passes the character loop unchanged. */
  lemma {:induction false} TagFilterPlainText(s: string)
    requires '<' !in s && '>' !in s
    ensures TagFilter(s, false, false) == s
  {
    if s != [] {
      assert s[1..] == s[1..] && '<' !in s[1..] && '>' !in s[1..] by {
        assert forall c :: c in s[1..] ==> c in s;
      }
      TagFilterPlainText(s[1..]);
      assert s == [s[0]] + s[1..];
    }
  }

  lemma {:induction false} MarkLineBreaksPlainText(s: string)
    requires '<' !in s
    ensures MarkLineBreaks(s) == s
  {
    if s != [] {
      assert s[0] != '<';
      assert '<' !in s[1..] by {
        assert forall c :: c in s[1..] ==> c in s;
      }
      MarkLineBreaksPlainText(s[1..]);
      assert s == [s[0]] + s[1..];
    }
  }

  lemma {:induction false} ParagraphBreaksPlainText(s: string)
    requires '<' !in s
    ensures ParagraphBreaks(s) == s
  {
    if s != [] {
      var w1 := SpaceRun(s);
      assert !StartsWithNoCase(s[w1..], "</p>") by {
        if w1 < |s| {
          assert s[w1..][0] == s[w1] && s[w1] in s;
        }
      }
      assert ParagraphMatch(s).None?;
      assert ParagraphBreaks(s) == [s[0]] + ParagraphBreaks(s[1..]);
      assert '<' !in s[1..] by {
        assert forall c :: c in s[1..] ==> c in s;
      }
      ParagraphBreaksPlainText(s[1..]);
      assert s == [s[0]] + s[1..];
    }
  }

  lemma {:induction false} CollapseSpacesSingle(s: string)
    requires NoDoubleSpace(s)
    ensures CollapseSpaces(s) == s
    decreases |s|
  {
    if s != [] {
      assert NoDoubleSpace(s[1..]);
      CollapseSpacesSingle(s[1..]);
      assert s == [s[0]] + s[1..];
    }
  }

  /** Stripping a stripped text changes nothing. */
  lemma StripHtmlIdempotent(t: string)
    ensures StrippedText(StrippedText(Some(t))) == StrippedText(Some(t))
  {
    StrippedTextIsClean(t);
    var u := StrippedText(Some(t)).value;
    MarkLineBreaksPlainText(u);
    ParagraphBreaksPlainText(u);
    TagFilterPlainText(u);
    CollapseSpacesSingle(u);
  }
}
