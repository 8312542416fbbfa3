/** The three transcript analysers of the `analyze` command: long pauses
    between segments, retakes (segments that begin with the same words) and
    garbage segments (too short, empty or hallucinated). */
module Analyzer {

  import opened Base
  import opened Text
  import opened Transcript

  // ---------------------------------------------------------------------
  // Silence gaps
  // ---------------------------------------------------------------------

  /** A pause between segment `beforeSeg` and segment `afterSeg`. */
  datatype Gap = Gap(start: int, end: int, duration: int,
                     beforeSeg: nat, afterSeg: nat,
                     beforeText: string, afterText: string)

  /** The pause in front of segment `i` is longer than `minGap`. */
  predicate IsGapBefore(segs: seq<Segment>, minGap: int, i: int) {
    0 < i < |segs| && segs[i].start - segs[i - 1].end > minGap
  }

  /** The record reported for a gap in front of segment `i`. */
  predicate DescribesGap(g: Gap, segs: seq<Segment>, i: int)
    requires 0 < i < |segs|
  {
    && g.beforeSeg == i - 1 && g.afterSeg == i
    && g.start == segs[i - 1].end && g.end == segs[i].start
    && g.duration == g.end - g.start
    && g.beforeText == Take(Strip(segs[i - 1].text), 50)
    && g.afterText == Take(Strip(segs[i].text), 50)
  }

  /** Some gap of `gaps` lies in front of segment `i`. */
  predicate ListsGap(gaps: seq<Gap>, i: int) {
    exists k :: 0 <= k < |gaps| && gaps[k].afterSeg == i
  }

  /** The record of the gap in front of segment `i`. */
  function MakeGap(segs: seq<Segment>, i: nat): (g: Gap)
    requires 0 < i < |segs|
    ensures DescribesGap(g, segs, i)
  {
    Gap(segs[i - 1].end, segs[i].start, segs[i].start - segs[i - 1].end,
        i - 1, i, Take(Strip(segs[i - 1].text), 50), Take(Strip(segs[i].text), 50))
  }

  /** The gaps in front of segments `i`, `i + 1`, ... */
  function GapsFrom(segs: seq<Segment>, minGap: int, i: nat): (gaps: seq<Gap>)
    requires i >= 1
    ensures forall k :: 0 <= k < |gaps| ==>
      && i <= gaps[k].afterSeg < |segs|
      && IsGapBefore(segs, minGap, gaps[k].afterSeg)
      && DescribesGap(gaps[k], segs, gaps[k].afterSeg)
    ensures forall k, k' :: 0 <= k < k' < |gaps| ==> gaps[k].afterSeg < gaps[k'].afterSeg
    decreases |segs| - i
  {
    if i >= |segs| then []
    else if segs[i].start - segs[i - 1].end > minGap then [MakeGap(segs, i)] + GapsFrom(segs, minGap, i + 1)
    else GapsFrom(segs, minGap, i + 1)
  }

  /** One step of `GapsFrom`. */
  lemma GapsFromUnfold(segs: seq<Segment>, minGap: int, i: nat)
    requires 1 <= i < |segs|
    ensures GapsFrom(segs, minGap, i)
         == (if IsGapBefore(segs, minGap, i) then [MakeGap(segs, i)] else []) + GapsFrom(segs, minGap, i + 1)
  {
  }

  /** A listed gap stays listed behind more records. */
  lemma ListsGapAfter(head: seq<Gap>, rest: seq<Gap>, j: int)
    requires ListsGap(rest, j)
    ensures ListsGap(head + rest, j)
  {
    var k :| 0 <= k < |rest| && rest[k].afterSeg == j;
    assert (head + rest)[|head| + k] == rest[k];
  }

  /** Every long pause from segment `i` on is listed. */
  lemma {:induction false} GapsFromComplete(segs: seq<Segment>, minGap: int, i: nat, j: int)
    requires i >= 1 && i <= j && IsGapBefore(segs, minGap, j)
    ensures ListsGap(GapsFrom(segs, minGap, i), j)
    decreases |segs| - i
  {
    GapsFromUnfold(segs, minGap, i);
    var rest := GapsFrom(segs, minGap, i + 1);
    if j == i {
      var g := MakeGap(segs, i);
      assert ([g] + rest)[0] == g;
    } else {
      GapsFromComplete(segs, minGap, i + 1, j);
      ListsGapAfter(if IsGapBefore(segs, minGap, i) then [MakeGap(segs, i)] else [], rest, j);
    }
  }

  /** `find_silence_gaps`: one gap for each pair of consecutive segments
      whose pause is strictly longer than `minGap`, in segment order. */
  function FindSilenceGaps(segs: seq<Segment>, minGap: int): (gaps: seq<Gap>)
    ensures forall k :: 0 <= k < |gaps| ==>
      && IsGapBefore(segs, minGap, gaps[k].afterSeg)
      && DescribesGap(gaps[k], segs, gaps[k].afterSeg)
    ensures forall i {:trigger ListsGap(gaps, i)} ::
      IsGapBefore(segs, minGap, i) ==> ListsGap(gaps, i)
    ensures forall k, k' :: 0 <= k < k' < |gaps| ==> gaps[k].afterSeg < gaps[k'].afterSeg
  {
    var gaps := GapsFrom(segs, minGap, 1);
    assert forall i {:trigger ListsGap(gaps, i)} ::
      IsGapBefore(segs, minGap, i) ==> ListsGap(gaps, i)
    by {
      forall i | IsGapBefore(segs, minGap, i) ensures ListsGap(gaps, i) {
        GapsFromComplete(segs, minGap, 1, i);
      }
    }
    gaps
  }

  // ---------------------------------------------------------------------
  // Retakes
  // ---------------------------------------------------------------------

  /** Two segments that begin with the same `minChars` characters. */
  datatype Dupe = Dupe(firstSeg: nat, firstStart: int, firstEnd: int, firstText: string,
                       secondSeg: nat, secondStart: int, secondEnd: int, secondText: string)

  /** Segments `i < j` are a retake pair: both stripped texts are longer than
      `minChars` and agree on their first `minChars` characters. */
  predicate IsRetakePair(segs: seq<Segment>, minChars: nat, i: int, j: int) {
    && 0 <= i < j < |segs|
    && |Strip(segs[i].text)| > minChars
    && |Strip(segs[j].text)| > minChars
    && Strip(segs[i].text)[..minChars] == Strip(segs[j].text)[..minChars]
  }

  /** The record reported for the pair `(i, j)`. */
  predicate DescribesDupe(d: Dupe, segs: seq<Segment>, i: int, j: int)
    requires 0 <= i < j < |segs|
  {
    && d.firstSeg == i && d.secondSeg == j
    && d.firstStart == segs[i].start && d.firstEnd == segs[i].end
    && d.secondStart == segs[j].start && d.secondEnd == segs[j].end
    && d.firstText == Take(Strip(segs[i].text), 60)
    && d.secondText == Take(Strip(segs[j].text), 60)
  }

  /** `(i, j)` comes strictly before `(i', j')` in the nested loop order. */
  predicate PairBefore(i: int, j: int, i': int, j': int) {
    i < i' || (i == i' && j < j')
  }

  function MakeDupe(segs: seq<Segment>, i: nat, j: nat): Dupe
    requires i < j < |segs|
  {
    Dupe(i, segs[i].start, segs[i].end, Take(Strip(segs[i].text), 60),
         j, segs[j].start, segs[j].end, Take(Strip(segs[j].text), 60))
  }

  /** Some record of `dupes` is the pair `(a, b)`. */
  predicate ListsPair(dupes: seq<Dupe>, a: int, b: int) {
    exists k :: 0 <= k < |dupes| && dupes[k].firstSeg == a && dupes[k].secondSeg == b
  }

  /** Every record of `dupes` describes a retake pair at or after
      `(i, j)`. */
  ghost predicate DupesValid(segs: seq<Segment>, minChars: nat, i: nat, j: nat, dupes: seq<Dupe>) {
    forall k :: 0 <= k < |dupes| ==>
      && IsRetakePair(segs, minChars, dupes[k].firstSeg, dupes[k].secondSeg)
      && DescribesDupe(dupes[k], segs, dupes[k].firstSeg, dupes[k].secondSeg)
      && !PairBefore(dupes[k].firstSeg, dupes[k].secondSeg, i, j)
  }

  /** Every retake pair at or after `(i, j)` has a record in `dupes`. */
  ghost predicate DupesComplete(segs: seq<Segment>, minChars: nat, i: nat, j: nat, dupes: seq<Dupe>) {
    forall a, b {:trigger ListsPair(dupes, a, b)} ::
      IsRetakePair(segs, minChars, a, b) && !PairBefore(a, b, i, j) ==> ListsPair(dupes, a, b)
  }

  /** The records are in loop order. */
  predicate DupesOrdered(dupes: seq<Dupe>) {
    forall k, k' :: 0 <= k < k' < |dupes| ==>
      PairBefore(dupes[k].firstSeg, dupes[k].secondSeg, dupes[k'].firstSeg, dupes[k'].secondSeg)
  }

  /** What `DupesFrom` promises about the records `dupes` it gives from
      the pair `(i, j)` on. */
  ghost predicate DupesFromSpec(segs: seq<Segment>, minChars: nat, i: nat, j: nat, dupes: seq<Dupe>) {
    DupesValid(segs, minChars, i, j, dupes) && DupesComplete(segs, minChars, i, j, dupes) && DupesOrdered(dupes)
  }

  /** The pairs the nested loops visit from `(i, j)` on. */
  function DupesFrom(segs: seq<Segment>, minChars: nat, i: nat, j: nat): (dupes: seq<Dupe>)
    requires i < j
    ensures DupesFromSpec(segs, minChars, i, j, dupes)
    decreases |segs| - i, |segs| - j
  {
    if i >= |segs| then []
    else if j >= |segs| then
      var rest := DupesFrom(segs, minChars, i + 1, i + 2);
      DupesNextRow(segs, minChars, i, j, rest);
      rest
    else
      var rest := DupesFrom(segs, minChars, i, j + 1);
      if IsRetakePair(segs, minChars, i, j) then
        var d := MakeDupe(segs, i, j);
        DupesCons(segs, minChars, i, j, d, rest);
        [d] + rest
      else
        DupesSkip(segs, minChars, i, j, rest);
        rest
  }

  /** Past the last `j`, the loops continue with the next row. */
  lemma DupesNextRow(segs: seq<Segment>, minChars: nat, i: nat, j: nat, rest: seq<Dupe>)
    requires i < j && j >= |segs|
    requires DupesFromSpec(segs, minChars, i + 1, i + 2, rest)
    ensures DupesFromSpec(segs, minChars, i, j, rest)
  {
  }

  /** A listed pair stays listed behind one more record. */
  lemma ListsPairAfter(d: Dupe, rest: seq<Dupe>, a: int, b: int)
    requires ListsPair(rest, a, b)
    ensures ListsPair([d] + rest, a, b)
  {
    var k :| 0 <= k < |rest| && rest[k].firstSeg == a && rest[k].secondSeg == b;
    assert ([d] + rest)[k + 1] == rest[k];
  }

  /** A retake pair's record in front of the later ones. */
  lemma DupesCons(segs: seq<Segment>, minChars: nat, i: nat, j: nat, d: Dupe, rest: seq<Dupe>)
    requires i < j < |segs| && IsRetakePair(segs, minChars, i, j) && d == MakeDupe(segs, i, j)
    requires DupesFromSpec(segs, minChars, i, j + 1, rest)
    ensures DupesFromSpec(segs, minChars, i, j, [d] + rest)
  {
    DupesConsValid(segs, minChars, i, j, d, rest);
    DupesConsOrdered(i, j, d, rest, segs, minChars);
    DupesConsComplete(segs, minChars, i, j, d, rest);
  }

  lemma DupesConsValid(segs: seq<Segment>, minChars: nat, i: nat, j: nat, d: Dupe, rest: seq<Dupe>)
    requires i < j < |segs| && IsRetakePair(segs, minChars, i, j) && d == MakeDupe(segs, i, j)
    requires DupesValid(segs, minChars, i, j + 1, rest)
    ensures DupesValid(segs, minChars, i, j, [d] + rest)
  {
    var r := [d] + rest;
    assert forall k :: 0 < k < |r| ==> r[k] == rest[k - 1];
    assert DescribesDupe(d, segs, i, j);
  }

  lemma DupesConsOrdered(i: nat, j: nat, d: Dupe, rest: seq<Dupe>, segs: seq<Segment>, minChars: nat)
    requires d.firstSeg == i && d.secondSeg == j
    requires DupesValid(segs, minChars, i, j + 1, rest) && DupesOrdered(rest)
    ensures DupesOrdered([d] + rest)
  {
    var r := [d] + rest;
    assert forall k :: 0 < k < |r| ==> r[k] == rest[k - 1];
  }

  lemma DupesConsComplete(segs: seq<Segment>, minChars: nat, i: nat, j: nat, d: Dupe, rest: seq<Dupe>)
    requires d.firstSeg == i && d.secondSeg == j
    requires DupesComplete(segs, minChars, i, j + 1, rest)
    ensures DupesComplete(segs, minChars, i, j, [d] + rest)
  {
    var r := [d] + rest;
    forall a, b | IsRetakePair(segs, minChars, a, b) && !PairBefore(a, b, i, j)
      ensures ListsPair(r, a, b)
    {
      if a == i && b == j {
        assert r[0].firstSeg == a && r[0].secondSeg == b;
      } else {
        ListsPairAfter(d, rest, a, b);
      }
    }
  }

  /** A pair that is not a retake adds nothing. */
  lemma DupesSkip(segs: seq<Segment>, minChars: nat, i: nat, j: nat, rest: seq<Dupe>)
    requires i < j < |segs| && !IsRetakePair(segs, minChars, i, j)
    requires DupesFromSpec(segs, minChars, i, j + 1, rest)
    ensures DupesFromSpec(segs, minChars, i, j, rest)
  {
  }

  /** `find_duplicates`: every retake pair `(i, j)` exactly once, in the
      order of the nested loops (by `i`, then by `j`). */
  function FindDuplicates(segs: seq<Segment>, minChars: nat): (dupes: seq<Dupe>)
    ensures forall k :: 0 <= k < |dupes| ==>
      && IsRetakePair(segs, minChars, dupes[k].firstSeg, dupes[k].secondSeg)
      && DescribesDupe(dupes[k], segs, dupes[k].firstSeg, dupes[k].secondSeg)
    ensures forall a, b {:trigger ListsPair(dupes, a, b)} ::
      IsRetakePair(segs, minChars, a, b) ==> ListsPair(dupes, a, b)
    ensures forall k, k' :: 0 <= k < k' < |dupes| ==>
      PairBefore(dupes[k].firstSeg, dupes[k].secondSeg, dupes[k'].firstSeg, dupes[k'].secondSeg)
  {
    DupesFrom(segs, minChars, 0, 1)
  }

  // ---------------------------------------------------------------------
  // Garbage
  // ---------------------------------------------------------------------

  /** Why a segment is garbage. `TooShort` carries the duration. */
  datatype GarbageReason = TooShort(duration: int) | EmptyText | Hallucination

  /** A garbage segment as reported. */
  datatype Garbage = Garbage(seg: nat, start: int, end: int, duration: int,
                             text: string, reason: GarbageReason)

  /** Fragments that Whisper produces when it hallucinates; this list is the
      one the analyser uses and starts with U+FFFD. */
  const AnalyzeMarkers: seq<string> :=
    ["\U{FFFD}", "ème", "oken", "émissions", "ièrement", "\U{05D1}\U{05EA}", "стр"]

  /** Shorter than 0.3 s. */
  const MinSegmentDuration: int := 30

  /** The reason, if any, to report a segment: a short duration first, then
      a stripped text under two characters, then a hallucination marker. */
  function GarbageReasonOf(seg: Segment, markers: seq<string>): (r: Option<GarbageReason>)
    ensures var t := Strip(seg.text); var dur := seg.end - seg.start;
      && (r.Some? <==> dur < MinSegmentDuration || |t| < 2 || ContainsAny(t, markers))
      && (dur < MinSegmentDuration <==> r == Some(TooShort(dur)))
      && (r == Some(EmptyText) <==> dur >= MinSegmentDuration && |t| < 2)
      && (r == Some(Hallucination) <==>
            dur >= MinSegmentDuration && |t| >= 2 && ContainsAny(t, markers))
  {
    var t := Strip(seg.text);
    var dur := seg.end - seg.start;
    if dur < MinSegmentDuration then Some(TooShort(dur))
    else if |t| < 2 then Some(EmptyText)
    else if ContainsAny(t, markers) then Some(Hallucination)
    else None
  }

  predicate IsGarbage(segs: seq<Segment>, i: int) {
    0 <= i < |segs| && GarbageReasonOf(segs[i], AnalyzeMarkers).Some?
  }

  /** The record reported for garbage segment `i`. */
  predicate DescribesGarbage(g: Garbage, segs: seq<Segment>, i: int)
    requires IsGarbage(segs, i)
  {
    && g.seg == i && g.start == segs[i].start && g.end == segs[i].end
    && g.duration == segs[i].end - segs[i].start
    && g.text == Take(Strip(segs[i].text), 60)
    && Some(g.reason) == GarbageReasonOf(segs[i], AnalyzeMarkers)
  }

  /** Some record of `garbage` is about segment `i`. */
  predicate ListsSeg(garbage: seq<Garbage>, i: int) {
    exists k :: 0 <= k < |garbage| && garbage[k].seg == i
  }

  /** What `GarbageFrom` promises about the records `garbage` it gives
      from segment `i` on. */
  ghost predicate GarbageFromSpec(segs: seq<Segment>, i: nat, garbage: seq<Garbage>) {
    && (forall k :: 0 <= k < |garbage| ==>
          && i <= garbage[k].seg
          && IsGarbage(segs, garbage[k].seg)
          && DescribesGarbage(garbage[k], segs, garbage[k].seg))
    && (forall j {:trigger ListsSeg(garbage, j)} ::
          i <= j && IsGarbage(segs, j) ==> ListsSeg(garbage, j))
    && (forall k, k' :: 0 <= k < k' < |garbage| ==> garbage[k].seg < garbage[k'].seg)
  }

  function GarbageFrom(segs: seq<Segment>, i: nat): (garbage: seq<Garbage>)
    ensures GarbageFromSpec(segs, i, garbage)
    decreases |segs| - i
  {
    if i >= |segs| then []
    else
      var rest := GarbageFrom(segs, i + 1);
      var s := segs[i];
      if IsGarbage(segs, i) then
        var g := Garbage(i, s.start, s.end, s.end - s.start, Take(Strip(s.text), 60),
                         GarbageReasonOf(s, AnalyzeMarkers).value);
        GarbageCons(segs, i, g, rest);
        [g] + rest
      else
        GarbageSkip(segs, i, rest);
        rest
  }

  /** A garbage segment's record in front of the later ones. */
  lemma GarbageCons(segs: seq<Segment>, i: nat, g: Garbage, rest: seq<Garbage>)
    requires IsGarbage(segs, i) && DescribesGarbage(g, segs, i)
    requires GarbageFromSpec(segs, i + 1, rest)
    ensures GarbageFromSpec(segs, i, [g] + rest)
  {
    var r := [g] + rest;
    forall j | i <= j && IsGarbage(segs, j)
      ensures ListsSeg(r, j)
    {
      if j == i {
        assert r[0].seg == j;
      } else {
        assert ListsSeg(rest, j);
        var k :| 0 <= k < |rest| && rest[k].seg == j;
        assert r[k + 1] == rest[k];
      }
    }
  }

  /** A segment that is not garbage adds nothing. */
  lemma GarbageSkip(segs: seq<Segment>, i: nat, rest: seq<Garbage>)
    requires !IsGarbage(segs, i)
    requires GarbageFromSpec(segs, i + 1, rest)
    ensures GarbageFromSpec(segs, i, rest)
  {
    forall j | i <= j && IsGarbage(segs, j)
      ensures ListsSeg(rest, j)
    {
      assert j != i;
    }
  }

  /** `find_garbage_segments`: exactly the garbage segments, each once, in
      segment order, with the first reason that applies. */
  function FindGarbage(segs: seq<Segment>): (garbage: seq<Garbage>)
    ensures forall k :: 0 <= k < |garbage| ==>
      && IsGarbage(segs, garbage[k].seg)
      && DescribesGarbage(garbage[k], segs, garbage[k].seg)
    ensures forall j {:trigger ListsSeg(garbage, j)} ::
      IsGarbage(segs, j) ==> ListsSeg(garbage, j)
    ensures forall k, k' :: 0 <= k < k' < |garbage| ==> garbage[k].seg < garbage[k'].seg
  {
    GarbageFrom(segs, 0)
  }

  /** A segment under 0.3 s is reported as too short whatever its text. */
  lemma ShortSegmentIsTooShort(segs: seq<Segment>, i: nat)
    requires i < |segs| && segs[i].end - segs[i].start < MinSegmentDuration
    ensures exists k :: (
      && 0 <= k < |FindGarbage(segs)| && FindGarbage(segs)[k].seg == i
      && FindGarbage(segs)[k].reason == TooShort(segs[i].end - segs[i].start))
  {
    var garbage := FindGarbage(segs);
    assert IsGarbage(segs, i);
    assert ListsSeg(garbage, i);
    var k :| 0 <= k < |garbage| && garbage[k].seg == i;
  }

  /** Two identical 20-character lines recorded twice form one retake pair. */
  lemma RetakeExample()
    ensures var line := "오늘은 터미널에서 설치를 진행합니다";
      FindDuplicates([Segment(0, 300, line), Segment(400, 700, line)], 15)
        == [MakeDupe([Segment(0, 300, line), Segment(400, 700, line)], 0, 1)]
  {
    var line := "오늘은 터미널에서 설치를 진행합니다";
    var segs := [Segment(0, 300, line), Segment(400, 700, line)];
    StripUnchangedLine(line);
    assert IsRetakePair(segs, 15, 0, 1);
  }

  lemma StripUnchangedLine(s: string)
    requires s == "오늘은 터미널에서 설치를 진행합니다"
    ensures Strip(s) == s
  {
  }
}
