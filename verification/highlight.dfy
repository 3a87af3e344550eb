/**
 Search highlighting (blockdb/tui/presenter/highlight.go): a case-folded literal search whose matches
 are wrapped in numbered regions.
*/
module Highlighting {
  import opened Bytes
  import opened Numerals
  import opened Sequences

  /** Code points. */
  type Chars = seq<int>

  /** `term` occurs at position i, up to folding. */
  predicate MatchAt(text: Chars, term: Chars, fold: int -> int, i: nat) {
    && i + |term| <= |text|
    && forall k :: 0 <= k < |term| ==> fold(text[i + k]) == fold(term[k])
  }

  /** Where the term occurs, overlaps included. */
  function Starts(text: Chars, term: Chars, fold: int -> int): set<nat> {
    set i: nat | i <= |text| && MatchAt(text, term, fold, i)
  }

  lemma StartsAt(text: Chars, term: Chars, fold: int -> int, i: nat)
    ensures i in Starts(text, term, fold) <==> MatchAt(text, term, fold, i)
  {
  }

  function Trim(s: Chars, space: int -> bool): Chars {
    if s != [] && space(s[0]) then Trim(s[1..], space)
    else if s != [] && space(s[|s| - 1]) then Trim(s[..|s| - 1], space)
    else s
  }

  /** t is the slice of s from a to b, with no space at either end and only space around it. */
  ghost predicate IsCore(t: Chars, s: Chars, a: nat, b: nat, space: int -> bool) {
    && a <= b <= |s| && t == s[a..b] && (t != [] ==> !space(t[0]) && !space(t[|t| - 1]))
    && (forall i :: 0 <= i < a ==> space(s[i])) && (forall i :: b <= i < |s| ==> space(s[i]))
  }

  lemma {:induction false} TrimTrims(s: Chars, space: int -> bool) returns (a: nat, b: nat)
    ensures IsCore(Trim(s, space), s, a, b, space)
  {
    if s != [] && space(s[0]) {
      a, b := TrimTrims(s[1..], space);
      a, b := a + 1, b + 1;
      forall i | 0 <= i < a ensures space(s[i]) {
        assert i > 0 ==> s[1..][i - 1] == s[i];
      }
      forall i | b <= i < |s| ensures space(s[i]) {
        assert s[1..][i - 1] == s[i];
      }
    } else if s != [] && space(s[|s| - 1]) {
      var front := s[..|s| - 1];
      a, b := TrimTrims(front, space);
      forall i | b <= i < |s| ensures space(s[i]) {
        assert i < |front| ==> front[i] == s[i];
      }
    } else {
      a, b := 0, |s|;
    }
  }

  /* ---------- leftmost hits ---------- */

  ghost predicate Free(starts: set<nat>, from: nat, to: nat) {
    forall p :: from <= p < to ==> p !in starts
  }

  /** Matches in order and disjoint, all ending by position `at`, with no match beginning outside them. */
  ghost predicate Leftmost(starts: set<nat>, hits: seq<nat>, width: nat, at: nat) {
    if hits == [] then Free(starts, 0, at)
    else
      var last := hits[|hits| - 1];
      && last in starts && last + width <= at
      && Leftmost(starts, hits[..|hits| - 1], width, last)
      && Free(starts, last + width, at)
  }

  /** The left-to-right scan from position `at` to the end of the text. */
  function Scan(starts: set<nat>, width: nat, at: nat, length: nat): seq<nat>
    requires width > 0
    decreases length - at
  {
    if at >= length then []
    else if at in starts then [at] + Scan(starts, width, at + width, length)
    else Scan(starts, width, at + 1, length)
  }

  lemma {:induction false} ScanSkips(starts: set<nat>, width: nat, from: nat, to: nat, length: nat)
    requires width > 0 && from <= to <= length && Free(starts, from, to)
    ensures Scan(starts, width, from, length) == Scan(starts, width, to, length)
    decreases length - from
  {
    if from < to {
      ScanSkips(starts, width, from + 1, to, length);
    }
  }

  lemma AnotherHit(starts: set<nat>, hits: seq<nat>, width: nat, at: nat)
    requires Leftmost(starts, hits, width, at) && at in starts
    ensures Leftmost(starts, hits + [at], width, at + width)
  {
    assert (hits + [at])[..|hits|] == hits;
  }

  lemma {:induction false} LeftmostIsScanned(starts: set<nat>, hits: seq<nat>, width: nat, at: nat, length: nat)
    requires width > 0 && at <= length && Leftmost(starts, hits, width, at)
    ensures Scan(starts, width, 0, length) == hits + Scan(starts, width, at, length)
  {
    if hits == [] {
      ScanSkips(starts, width, 0, at, length);
    } else {
      var front, last := hits[..|hits| - 1], hits[|hits| - 1];
      LeftmostIsScanned(starts, front, width, last, length);
      ScanSkips(starts, width, last + width, at, length);
      assert front + ([last] + Scan(starts, width, at, length)) == hits + Scan(starts, width, at, length);
    }
  }

  lemma {:induction false} ScanContinues(starts: set<nat>, hits: seq<nat>, width: nat, at: nat, length: nat)
    requires width > 0 && at <= length && Leftmost(starts, hits, width, at)
    requires forall p :: p in starts ==> p + width <= length
    ensures Leftmost(starts, hits + Scan(starts, width, at, length), width, length)
    decreases length - at
  {
    if at == length {
      assert hits + [] == hits;
    } else if at in starts {
      AnotherHit(starts, hits, width, at);
      ScanContinues(starts, hits + [at], width, at + width, length);
      assert hits + [at] + Scan(starts, width, at + width, length) == hits + ([at] + Scan(starts, width, at + width, length));
    } else {
      ScanContinues(starts, hits, width, at + 1, length);
    }
  }

  /** The leftmost hits of a text are exactly the outcome of the scan, so there is only one list of them. */
  lemma LeftmostIsScan(starts: set<nat>, hits: seq<nat>, width: nat, length: nat)
    requires width > 0 && forall p :: p in starts ==> p + width <= length
    ensures Leftmost(starts, hits, width, length) <==> hits == Scan(starts, width, 0, length)
  {
    if Leftmost(starts, hits, width, length) {
      LeftmostIsScanned(starts, hits, width, length, length);
    }
    ScanContinues(starts, [], width, 0, length);
    assert [] + Scan(starts, width, 0, length) == Scan(starts, width, 0, length);
  }

  /** Every occurrence of the term is a hit or overlaps one. */
  lemma {:induction false} NothingMissed(starts: set<nat>, hits: seq<nat>, width: nat, at: nat, p: nat)
    requires Leftmost(starts, hits, width, at) && p in starts && p < at
    ensures exists h :: h in hits && h <= p < h + width
  {
    var last := hits[|hits| - 1];
    if p < last {
      NothingMissed(starts, hits[..|hits| - 1], width, last, p);
      var h :| h in hits[..|hits| - 1] && h <= p < h + width;
      assert h in hits;
    } else {
      assert last in hits;
    }
  }

  /* ---------- regions ---------- */

  function End(hits: seq<nat>, width: nat): nat {
    if hits == [] then 0 else hits[|hits| - 1] + width
  }

  /** In order, disjoint, and ending by position `at`. */
  predicate Fits(hits: seq<nat>, width: nat, at: nat) {
    End(hits, width) <= at && (hits != [] ==> Fits(hits[..|hits| - 1], width, hits[|hits| - 1]))
  }

  /** The text up to the end of the last hit, with something put before and behind each. */
  function Decorated(text: Chars, hits: seq<nat>, width: nat, before: nat -> Chars, behind: Chars): Chars
    requires Fits(hits, width, |text|)
  {
    if hits == [] then []
    else
      var n := |hits| - 1;
      FitsFurther(hits[..n], width, hits[n], |text|);
      Decorated(text, hits[..n], width, before, behind)
      + text[End(hits[..n], width)..hits[n]] + before(n) + text[hits[n]..hits[n] + width] + behind
  }

  lemma FitsFurther(hits: seq<nat>, width: nat, at: nat, to: nat)
    requires Fits(hits, width, at) && at <= to
    ensures Fits(hits, width, to)
  {
  }

  lemma {:induction false} LeftmostFits(starts: set<nat>, hits: seq<nat>, width: nat, at: nat)
    requires Leftmost(starts, hits, width, at)
    ensures Fits(hits, width, at)
  {
    if hits != [] {
      LeftmostFits(starts, hits[..|hits| - 1], width, hits[|hits| - 1]);
    }
  }

  lemma DecoratedSnoc(text: Chars, hits: seq<nat>, at: nat, width: nat, before: nat -> Chars, behind: Chars)
    requires Fits(hits, width, at) && at + width <= |text|
    ensures Fits(hits, width, |text|) && Fits(hits + [at], width, |text|)
    ensures Decorated(text, hits + [at], width, before, behind)
      == Decorated(text, hits, width, before, behind)
         + text[End(hits, width)..at] + before(|hits|) + text[at..at + width] + behind
  {
    assert (hits + [at])[..|hits|] == hits;
    FitsFurther(hits, width, at, |text|);
  }

  /** One more hit, at the current position. */
  lemma HitStep(text: Chars, starts: set<nat>, hits: seq<nat>, at: nat, width: nat, before: nat -> Chars, behind: Chars)
    requires Leftmost(starts, hits, width, at) && at in starts && at + width <= |text|
    ensures Fits(hits, width, |text|) && Fits(hits + [at], width, |text|)
    ensures Leftmost(starts, hits + [at], width, at + width) && End(hits + [at], width) == at + width
    ensures Decorated(text, hits + [at], width, before, behind)
      == Decorated(text, hits, width, before, behind)
         + text[End(hits, width)..at] + before(|hits|) + text[at..at + width] + behind
  {
    AnotherHit(starts, hits, width, at);
    LeftmostFits(starts, hits, width, at);
    DecoratedSnoc(text, hits, at, width, before, behind);
  }

  lemma MissStep(starts: set<nat>, hits: seq<nat>, width: nat, at: nat)
    requires Leftmost(starts, hits, width, at) && at !in starts
    ensures Leftmost(starts, hits, width, at + 1) && End(hits, width) <= at
  {
  }

  /** Drops what stands before and behind each hit from a decorated text, last hit first. */
  function Stripped(deco: Chars, hits: seq<nat>, width: nat, before: nat -> Chars, behind: Chars): Chars
    decreases |hits|
  {
    if hits == [] then deco
    else
      var n := |hits| - 1;
      var hitEnd := |deco| - |behind|;
      var gapEnd := hitEnd - width - |before(n)|;
      var gapStart := gapEnd - (hits[n] - End(hits[..n], width));
      if 0 <= gapStart <= gapEnd then
        Stripped(deco[..gapStart], hits[..n], width, before, behind) + deco[gapStart..gapEnd] + deco[hitEnd - width..hitEnd]
      else deco
  }

  lemma Pieces(d: Chars, gap: Chars, open: Chars, hit: Chars, close: Chars)
    ensures var deco := d + gap + open + hit + close;
      && deco[..|d|] == d && deco[|d|..|d| + |gap|] == gap
      && deco[|deco| - |close| - |hit|..|deco| - |close|] == hit
  {
  }

  lemma Joined(text: Chars, a: nat, b: nat, c: nat)
    requires a <= b <= c <= |text|
    ensures text[..a] + text[a..b] + text[b..c] == text[..c]
  {
  }

  lemma StripOne(hits: seq<nat>, width: nat, before: nat -> Chars, behind: Chars, d: Chars, gap: Chars, hit: Chars)
    requires hits != [] && |gap| == hits[|hits| - 1] - End(hits[..|hits| - 1], width) && |hit| == width
    ensures Stripped(d + gap + before(|hits| - 1) + hit + behind, hits, width, before, behind)
         == Stripped(d, hits[..|hits| - 1], width, before, behind) + gap + hit
  {
    Pieces(d, gap, before(|hits| - 1), hit, behind);
  }

  lemma StripLast(text: Chars, hits: seq<nat>, width: nat, before: nat -> Chars, behind: Chars, front: seq<nat>, hit: nat, stripped: Chars)
    requires hits != [] && front == hits[..|hits| - 1] && hit == hits[|hits| - 1]
    requires Fits(hits, width, |text|) && Fits(front, width, |text|)
    requires stripped == Stripped(Decorated(text, front, width, before, behind), front, width, before, behind)
    ensures End(front, width) <= hit <= |text| - width
    ensures Stripped(Decorated(text, hits, width, before, behind), hits, width, before, behind)
         == stripped + text[End(front, width)..hit] + text[hit..hit + width]
  {
    var d, gap := Decorated(text, front, width, before, behind), text[End(front, width)..hit];
    assert Decorated(text, hits, width, before, behind) == d + gap + before(|hits| - 1) + text[hit..hit + width] + behind;
    StripOne(hits, width, before, behind, d, gap, text[hit..hit + width]);
  }

  lemma {:induction false} StrippedIsText(text: Chars, hits: seq<nat>, width: nat, before: nat -> Chars, behind: Chars)
    requires Fits(hits, width, |text|)
    ensures Stripped(Decorated(text, hits, width, before, behind), hits, width, before, behind) == text[..End(hits, width)]
  {
    if hits != [] {
      var front, hit := hits[..|hits| - 1], hits[|hits| - 1];
      FitsFurther(front, width, hit, |text|);
      StrippedIsText(text, front, width, before, behind);
      assert End(front, width) <= |text|;
      StripLast(text, hits, width, before, behind, front, hit, text[..End(front, width)]);
      Joined(text, End(front, width), hit, hit + width);
    }
  }

  /** The same for a whole text, whose last `rest` characters lie behind the last hit. */
  function Undecorated(final: Chars, hits: seq<nat>, width: nat, rest: int): Chars {
    if 0 <= rest <= |final| then Stripped(final[..|final| - rest], hits, width, Open, Close()) + final[|final| - rest..]
    else final
  }

  /** Dropping the inserted wrappers gives the text back. */
  lemma UndecoratedIsText(text: Chars, hits: seq<nat>, width: nat, final: Chars)
    requires Fits(hits, width, |text|)
    requires final == Decorated(text, hits, width, Open, Close()) + text[End(hits, width)..]
    ensures Undecorated(final, hits, width, |text| - End(hits, width)) == text
  {
    var deco, tail := Decorated(text, hits, width, Open, Close()), text[End(hits, width)..];
    StrippedIsText(text, hits, width, Open, Close());
    assert final[..|final| - |tail|] == deco && final[|final| - |tail|..] == tail;
    assert text[..End(hits, width)] + tail == text;
  }

  function Open(region: nat): Chars {
    Ascii("[\"") + Format(region, 10) + Ascii("\"]")
  }

  function Close(): Chars { Ascii("[\"\"]") }

  /** The ids of n regions. */
  function Decimals(n: nat): seq<Text> {
    seq(n, i requires 0 <= i < n => Format(i, 10))
  }

  lemma DecimalsSnoc(n: nat)
    ensures Decimals(n + 1) == Decimals(n) + [Format(n, 10)]
  {
  }

  lemma RegionIDsDistinct(n: nat, i: nat, j: nat)
    requires i < n && j < n && Decimals(n)[i] == Decimals(n)[j]
    ensures i == j
  {
    FormatInjective(i, j, 10);
  }

  /** The text before `at` is dealt with: its hits are wrapped and numbered, up to the end of the last. */
  ghost predicate Wrapped(text: Chars, starts: set<nat>, width: nat, at: nat, hits: seq<nat>, from: int, final: Chars, ids: seq<Text>) {
    && Leftmost(starts, hits, width, at) && Fits(hits, width, |text|)
    && from == End(hits, width) && from <= at <= |text|
    && final == Decorated(text, hits, width, Open, Close()) && ids == Decimals(|hits|)
  }

  lemma WrapNext(text: Chars, starts: set<nat>, width: nat, at: nat, hits: seq<nat>, from: int, final: Chars, ids: seq<Text>)
    requires Wrapped(text, starts, width, at, hits, from, final, ids) && at in starts && at + width <= |text|
    ensures 0 <= from <= at
    ensures Wrapped(text, starts, width, at + width, hits + [at], at + width,
                    final + text[from..at] + Open(|hits|) + text[at..at + width] + Close(), ids + [Format(|hits|, 10)])
  {
    HitStep(text, starts, hits, at, width, Open, Close());
    DecimalsSnoc(|hits|);
  }

  lemma SkipNext(text: Chars, starts: set<nat>, width: nat, at: nat, hits: seq<nat>, from: int, final: Chars, ids: seq<Text>)
    requires Wrapped(text, starts, width, at, hits, from, final, ids) && at !in starts && at < |text|
    ensures Wrapped(text, starts, width, at + 1, hits, from, final, ids)
  {
    MissStep(starts, hits, width, at);
  }

  /** By how much k wrappers shift what follows them: eight characters and the id each. */
  function Shift(k: nat): nat {
    if k == 0 then 0 else Shift(k - 1) + 8 + |Format(k - 1, 10)|
  }

  /** ["id"]hit[""] */
  function Frame(id: Text, hit: Chars): Chars {
    [91, 34] + id + [34, 93] + hit + [91, 34, 34, 93]
  }

  lemma FrameIs(k: nat, hit: Chars)
    ensures Open(k) + hit + Close() == Frame(Format(k, 10), hit) && |Open(k)| + |Close()| == 8 + |Format(k, 10)|
  {
    assert Ascii("[\"") == [91, 34] && Ascii("\"]") == [34, 93] && Ascii("[\"\"]") == [91, 34, 34, 93];
  }

  /** Region k is framed where its hit ends up. */
  ghost predicate FramedAt(deco: Chars, text: Chars, hit: nat, width: nat, k: nat) {
    && hit + width <= |text|
    && var p, frame := hit + Shift(k), Frame(Format(k, 10), text[hit..hit + width]);
       p + |frame| <= |deco| && deco[p..p + |frame|] == frame
  }

  lemma FiveParts(d: Chars, gap: Chars, open: Chars, hit: Chars, close: Chars, frame: Chars)
    requires open + hit + close == frame
    ensures d + gap + open + hit + close == d + (gap + frame)
  {
    assert d + gap + open + hit + close == d + gap + (open + hit + close);
  }

  lemma ThreeParts(d: Chars, gap: Chars, frame: Chars, p: nat)
    requires p == |d| + |gap|
    ensures var deco := d + (gap + frame); |deco| == p + |frame| && deco[p..p + |frame|] == frame
  {
  }

  lemma FrameLength(id: Text, hit: Chars)
    ensures |Frame(id, hit)| == 8 + |id| + |hit|
  {
  }

  /** One more hit in its frame. */
  lemma FrameStep(d: Chars, text: Chars, end: nat, hit: nat, width: nat, k: nat, frame: Chars)
    requires |d| == end + Shift(k) && end <= hit && hit + width <= |text|
    requires frame == Frame(Format(k, 10), text[hit..hit + width])
    ensures var deco := d + (text[end..hit] + frame);
      |deco| == hit + width + Shift(k + 1) && FramedAt(deco, text, hit, width, k)
  {
    ThreeParts(d, text[end..hit], frame, hit + Shift(k));
    FrameLength(Format(k, 10), text[hit..hit + width]);
  }

  lemma FrameKept(d: Chars, more: Chars, text: Chars, hit: nat, width: nat, k: nat)
    requires FramedAt(d, text, hit, width, k)
    ensures FramedAt(d + more, text, hit, width, k)
  {
    var p, frame := hit + Shift(k), Frame(Format(k, 10), text[hit..hit + width]);
    assert (d + more)[p..p + |frame|] == d[p..p + |frame|];
  }

  ghost predicate AllFramed(deco: Chars, text: Chars, hits: seq<nat>, width: nat) {
    forall k :: 0 <= k < |hits| ==> FramedAt(deco, text, hits[k], width, k)
  }

  lemma AllKept(d: Chars, more: Chars, text: Chars, hits: seq<nat>, width: nat)
    requires AllFramed(d, text, hits, width)
    ensures AllFramed(d + more, text, hits, width)
  {
    forall k | 0 <= k < |hits| ensures FramedAt(d + more, text, hits[k], width, k) {
      FrameKept(d, more, text, hits[k], width, k);
    }
  }

  lemma AllFramedSnoc(deco: Chars, text: Chars, hits: seq<nat>, width: nat)
    requires hits != [] && AllFramed(deco, text, hits[..|hits| - 1], width)
    requires FramedAt(deco, text, hits[|hits| - 1], width, |hits| - 1)
    ensures AllFramed(deco, text, hits, width)
  {
    forall k | 0 <= k < |hits| ensures FramedAt(deco, text, hits[k], width, k) {
      assert k < |hits| - 1 ==> hits[..|hits| - 1][k] == hits[k];
    }
  }

  lemma DecoratedLast(text: Chars, hits: seq<nat>, width: nat, front: seq<nat>, hit: nat, frame: Chars)
    requires hits != [] && front == hits[..|hits| - 1] && hit == hits[|hits| - 1]
    requires Fits(hits, width, |text|) && Fits(front, width, |text|)
    requires hit + width <= |text| && frame == Frame(Format(|front|, 10), text[hit..hit + width])
    ensures End(front, width) <= hit
    ensures Decorated(text, hits, width, Open, Close())
         == Decorated(text, front, width, Open, Close()) + (text[End(front, width)..hit] + frame)
  {
    var d, gap, shown := Decorated(text, front, width, Open, Close()), text[End(front, width)..hit], text[hit..hit + width];
    assert Decorated(text, hits, width, Open, Close()) == d + gap + Open(|front|) + shown + Close();
    FrameIs(|front|, shown);
    FiveParts(d, gap, Open(|front|), shown, Close(), frame);
  }

  lemma {:induction false} DecoratedFrames(text: Chars, hits: seq<nat>, width: nat)
    requires Fits(hits, width, |text|)
    ensures |Decorated(text, hits, width, Open, Close())| == End(hits, width) + Shift(|hits|)
    ensures AllFramed(Decorated(text, hits, width, Open, Close()), text, hits, width)
  {
    if hits != [] {
      var front, hit := hits[..|hits| - 1], hits[|hits| - 1];
      FitsFurther(front, width, hit, |text|);
      DecoratedFrames(text, front, width);
      var frame := Frame(Format(|front|, 10), text[hit..hit + width]);
      DecoratedLast(text, hits, width, front, hit, frame);
      AddFrame(Decorated(text, front, width, Open, Close()), text, hits, width, End(front, width), frame);
    }
  }

  lemma AddFrame(d: Chars, text: Chars, hits: seq<nat>, width: nat, end: nat, frame: Chars)
    requires hits != [] && |d| == end + Shift(|hits| - 1) && end <= hits[|hits| - 1] && hits[|hits| - 1] + width <= |text|
    requires AllFramed(d, text, hits[..|hits| - 1], width)
    requires frame == Frame(Format(|hits| - 1, 10), text[hits[|hits| - 1]..hits[|hits| - 1] + width])
    ensures var deco := d + (text[end..hits[|hits| - 1]] + frame);
      |deco| == hits[|hits| - 1] + width + Shift(|hits|) && AllFramed(deco, text, hits, width)
  {
    var hit := hits[|hits| - 1];
    var more := text[end..hit] + frame;
    FrameStep(d, text, end, hit, width, |hits| - 1, frame);
    AllKept(d, more, text, hits[..|hits| - 1], width);
    AllFramedSnoc(d + more, text, hits, width);
  }

  /** The result: everything between the hits is the text's, every hit k stands in its frame ["k"] ..
      [""], whose id is the k-th region's, and dropping the frames restores the text. */
  ghost predicate Highlighted(text: Chars, hits: seq<nat>, width: nat, final: Chars, ids: seq<Text>) {
    && Fits(hits, width, |text|)
    && final == Decorated(text, hits, width, Open, Close()) + text[End(hits, width)..]
    && |ids| == |hits| && (forall k :: 0 <= k < |ids| ==> ids[k] == Format(k, 10))
    && AllFramed(final, text, hits, width)
    && Undecorated(final, hits, width, |text| - End(hits, width)) == text
  }

  lemma ResultIsHighlighted(text: Chars, hits: seq<nat>, width: nat, final: Chars)
    requires Fits(hits, width, |text|)
    requires final == Decorated(text, hits, width, Open, Close()) + text[End(hits, width)..]
    ensures Highlighted(text, hits, width, final, Decimals(|hits|))
  {
    DecoratedFrames(text, hits, width);
    AllKept(Decorated(text, hits, width, Open, Close()), text[End(hits, width)..], text, hits, width);
    UndecoratedIsText(text, hits, width, final);
  }

  class Highlight {
    const term: Chars          // trimmed; an empty one is the nil pattern
    const fold: int -> int

    constructor (searchTerm: Chars, space: int -> bool, fold: int -> int)
      ensures term == Trim(searchTerm, space) && this.fold == fold
      ensures exists a, b :: IsCore(term, searchTerm, a, b, space)
    {
      ghost var a, b := TrimTrims(searchTerm, space);
      this.term, this.fold := Trim(searchTerm, space), fold;
    }

    /** Where the leftmost matches begin; the nil pattern has none. */
    ghost function Hits(text: Chars): seq<nat> {
      if term == [] then [] else Scan(Starts(text, term, fold), |term|, 0, |text|)
    }

    lemma HitsAreLeftmost(text: Chars)
      requires term != []
      ensures Leftmost(Starts(text, term, fold), Hits(text), |term|, |text|)
      ensures Fits(Hits(text), |term|, |text|)
    {
      LeftmostIsScan(Starts(text, term, fold), Hits(text), |term|, |text|);
      LeftmostFits(Starts(text, term, fold), Hits(text), |term|, |text|);
    }

    method Text(text: Chars) returns (final: Chars, regionIDs: seq<Bytes.Text>)
      ensures Highlighted(text, Hits(text), |term|, final, regionIDs)
      ensures term == [] ==> final == text && regionIDs == []
    {
      if term == [] {
        ResultIsHighlighted(text, [], 0, text);
        return text, [];
      }
      ghost var hits;
      final, regionIDs, hits := ReplaceMatches(text);
      HitsAreLeftmost(text);
      LeftmostIsScan(Starts(text, term, fold), hits, |term|, |text|);
      ResultIsHighlighted(text, hits, |term|, final);
    }

    /** ReplaceAllStringFunc with the closure that numbers the regions. */
    method ReplaceMatches(text: Chars) returns (final: Chars, regionIDs: seq<Bytes.Text>, ghost hits: seq<nat>)
      requires term != []
      ensures Leftmost(Starts(text, term, fold), hits, |term|, |text|)
      ensures Fits(hits, |term|, |text|)
      ensures final == Decorated(text, hits, |term|, Open, Close()) + text[End(hits, |term|)..]
      ensures regionIDs == Decimals(|hits|)
    {
      hits, final, regionIDs := [], [], [];
      ghost var starts := Starts(text, term, fold);
      var at, from, region := 0, 0, 0;
      while at < |text|
        invariant region == |hits| && at <= |text|
        invariant Wrapped(text, starts, |term|, at, hits, from, final, regionIDs) == true
        decreases |text| - at
      {
        StartsAt(text, term, fold, at);
        if MatchAt(text, term, fold, at) {
          WrapNext(text, starts, |term|, at, hits, from, final, regionIDs);
          regionIDs := regionIDs + [Format(region, 10)];
          final := final + text[from..at] + Open(region) + text[at..at + |term|] + Close();
          hits := hits + [at];
          region := region + 1;
          at := at + |term|;
          from := at;
        } else {
          SkipNext(text, starts, |term|, at, hits, from, final, regionIDs);
          at := at + 1;
        }
      }
      final := final + text[from..];
    }
  }
}
