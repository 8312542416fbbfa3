/** `cmd_tts_prepare`: the transcript segments moved onto the edited
    timeline, stripped of garbage and passed through text corrections,
    ready to be spoken. Times are in centiseconds. */
module TtsPrepare {

  import opened Base
  import opened Text
  import opened Transcript
  import opened Analyzer
  import opened EditPlan
  import opened Timeline

  /** A segment on the edited timeline. */
  datatype Mapped = Mapped(start: int, end: int, duration: int, text: string)

  /** One segment moved onto the edited timeline: kept only when both ends
      survive the cut and the end still lies after the start. */
  function MapOne(seg: Segment, plan: seq<Entry>): Option<Mapped> {
    match (OriginalToEdited(seg.start, plan), OriginalToEdited(seg.end, plan))
    case (Some(s), Some(e)) => if e > s then Some(Mapped(s, e, e - s, Strip(seg.text))) else None
    case _ => None
  }

  /** The mapping loop: the segments that survive, in transcript order. */
  function MapSegments(segs: seq<Segment>, plan: seq<Entry>): (mapped: seq<Mapped>)
    ensures |mapped| <= |segs|
    ensures forall m :: m in mapped <==> exists i :: 0 <= i < |segs| && MapOne(segs[i], plan) == Some(m)
    ensures forall m :: m in mapped ==> 0 < m.duration == m.end - m.start && Strip(m.text) == m.text
  {
    if segs == [] then []
    else
      var rest := MapSegments(segs[1..], plan);
      assert forall i :: 0 < i < |segs| ==> segs[i] == segs[1..][i - 1];
      match MapOne(segs[0], plan)
      case Some(m) =>
        StripIdempotent(segs[0].text);
        [m] + rest
      case None => rest
  }

  /** On an ordered plan, what is cut in front of an instant only grows as
      the instant moves later. */
  lemma {:induction false} RemovedBeforeMonotone(t1: int, t2: int, plan: seq<Entry>)
    requires Ordered(plan) && t1 <= t2
    ensures RemovedBefore(t1, plan) <= RemovedBefore(t2, plan)
  {
    if plan != [] {
      OrderedTail(plan);
      RemovedBeforeMonotone(t1, t2, plan[1..]);
    }
  }

  /** A surviving segment lands at its original times less what was cut in
      front of each end, and it is never longer than it was. A segment
      whose ends lie outside every REMOVE span survives unless the cut
      between its ends swallows all of it. */
  lemma MapOneSpec(seg: Segment, plan: seq<Entry>)
    requires Ordered(plan) && seg.start <= seg.end
    ensures var r := MapOne(seg, plan);
      r.Some? ==>
        && r.value.start == seg.start - RemovedBefore(seg.start, plan)
        && r.value.end == seg.end - RemovedBefore(seg.end, plan)
        && r.value.duration <= seg.end - seg.start
    ensures !InRemove(seg.start, plan) && !InRemove(seg.end, plan) ==>
      (MapOne(seg, plan).Some? <==>
        seg.end - RemovedBefore(seg.end, plan) > seg.start - RemovedBefore(seg.start, plan))
  {
    OriginalToEditedSpec(seg.start, plan);
    OriginalToEditedSpec(seg.end, plan);
    RemovedBeforeMonotone(seg.start, seg.end, plan);
  }

  /** Edited starts never decrease along the sequence. */
  predicate StartsInOrder(ms: seq<Mapped>) {
    forall k, k' :: 0 <= k < k' < |ms| ==> ms[k].start <= ms[k'].start
  }

  lemma StartsInOrderCons(m: Mapped, rest: seq<Mapped>)
    requires StartsInOrder(rest) && forall x :: x in rest ==> m.start <= x.start
    ensures StartsInOrder([m] + rest)
  {
    var ms := [m] + rest;
    forall k, k' | 0 <= k < k' < |ms| ensures ms[k].start <= ms[k'].start {
      assert ms[k'] == rest[k' - 1];
      if k == 0 {
        assert rest[k' - 1] in rest;
      } else {
        assert ms[k] == rest[k - 1];
      }
    }
  }

  /** With a time-ordered transcript and an ordered plan, the mapped
      segments come out in order of their edited start. */
  lemma {:induction false} MappedInOrder(segs: seq<Segment>, plan: seq<Entry>)
    requires Sorted(segs) && Ordered(plan)
    ensures StartsInOrder(MapSegments(segs, plan))
  {
    if segs != [] {
      var tail := segs[1..];
      assert Sorted(tail) by {
        assert forall i :: 0 <= i < |tail| ==> tail[i] == segs[i + 1];
      }
      MappedInOrder(tail, plan);
      var rest := MapSegments(tail, plan);
      match MapOne(segs[0], plan)
      case Some(m) =>
        HeadMapsFirst(segs, plan, m);
        StartsInOrderCons(m, rest);
      case None =>
        assert MapSegments(segs, plan) == rest;
    }
  }

  /** The first segment, when it survives, lands no later than any later
      surviving segment. */
  lemma HeadMapsFirst(segs: seq<Segment>, plan: seq<Entry>, m: Mapped)
    requires Sorted(segs) && Ordered(plan) && segs != [] && MapOne(segs[0], plan) == Some(m)
    ensures forall x :: x in MapSegments(segs[1..], plan) ==> m.start <= x.start
  {
    var tail := segs[1..];
    forall x | x in MapSegments(tail, plan) ensures m.start <= x.start {
      var i :| 0 <= i < |tail| && MapOne(tail[i], plan) == Some(x);
      assert tail[i] == segs[i + 1];
      WalkMonotone(segs[0].start, tail[i].start, plan, 0);
    }
  }

  /** The markers of a hallucinated line, as this step lists them: the
      list starts with U+2047 where the analyser's starts with U+FFFD. */
  const PrepareMarkers: seq<string> :=
    ["\U{2047}", "ème", "oken", "émissions", "ièrement", "\U{05D1}\U{05EA}", "стр"]

  /** Dropped as garbage: under 0.3 s, text under two characters, or a marker. */
  predicate PrepareDrops(m: Mapped) {
    || m.duration < MinSegmentDuration
    || |m.text| < 2
    || ContainsAny(m.text, PrepareMarkers)
  }

  /** The garbage filter: the surviving segments in order and the number
      dropped. */
  function FilterGarbage(mapped: seq<Mapped>): (r: (seq<Mapped>, nat))
    ensures |r.0| + r.1 == |mapped|
    ensures forall m :: m in r.0 <==> m in mapped && !PrepareDrops(m)
    ensures Sublist(r.0, mapped)
    ensures StartsInOrder(mapped) ==> StartsInOrder(r.0)
  {
    if mapped == [] then ([], 0)
    else
      var (kept, dropped) := FilterGarbage(mapped[1..]);
      assert forall m :: m in mapped <==> m == mapped[0] || m in mapped[1..];
      FilterCons(mapped, kept);
      if PrepareDrops(mapped[0]) then (kept, dropped + 1) else ([mapped[0]] + kept, dropped)
  }

  /** What the filter keeps from the rest of the list stays a sublist in
      order, with or without the first segment in front. */
  lemma FilterCons(mapped: seq<Mapped>, kept: seq<Mapped>)
    requires mapped != []
    requires forall m :: m in kept ==> m in mapped[1..]
    requires Sublist(kept, mapped[1..])
    requires StartsInOrder(mapped[1..]) ==> StartsInOrder(kept)
    ensures Sublist(kept, mapped) && Sublist([mapped[0]] + kept, mapped)
    ensures StartsInOrder(mapped) ==> StartsInOrder(kept) && StartsInOrder([mapped[0]] + kept)
  {
    SublistWeaken(kept, mapped[0], mapped[1..]);
    assert [mapped[0]] + mapped[1..] == mapped;
    assert ([mapped[0]] + kept)[1..] == kept;
    if StartsInOrder(mapped) {
      assert StartsInOrder(mapped[1..]) by {
        assert forall k :: 0 <= k < |mapped[1..]| ==> mapped[1..][k] == mapped[k + 1];
      }
      forall x | x in kept ensures mapped[0].start <= x.start {
        var k :| 0 <= k < |mapped[1..]| && mapped[1..][k] == x;
        assert mapped[k + 1] == x;
      }
      StartsInOrderCons(mapped[0], kept);
    }
  }

  /** On already-stripped text the filter applies the analyser's three
      rules, in the same precedence, with its own marker list. */
  lemma PrepareDropsIsGarbageRule(m: Mapped)
    requires Strip(m.text) == m.text && m.duration == m.end - m.start
    ensures PrepareDrops(m) <==> GarbageReasonOf(Segment(m.start, m.end, m.text), PrepareMarkers).Some?
  {
  }

  /** The two marker lists differ: a line carrying U+FFFD is reported as
      hallucinated by the analyser yet survives this filter. */
  lemma ReplacementCharSurvives()
    ensures var m := Mapped(0, 100, 100, "ab\U{FFFD}");
      && !PrepareDrops(m)
      && GarbageReasonOf(Segment(0, 100, m.text), AnalyzeMarkers) == Some(Hallucination)
  {
    var t := "ab\U{FFFD}";
    assert OccursAt(t, AnalyzeMarkers[0], 2);
    assert Strip(t) == t by {
      StripUnchanged(t);
    }
    forall k | 0 <= k < |PrepareMarkers| ensures !Contains(t, PrepareMarkers[k]) {
      if k == 0 {
        forall i | 0 <= i <= |t| - 1 ensures !OccursAt(t, PrepareMarkers[0], i) {
          assert t[i] != '\U{2047}';
        }
      } else {
        assert |PrepareMarkers[k]| >= 2;
        forall i | 0 <= i <= |t| - |PrepareMarkers[k]| ensures !OccursAt(t, PrepareMarkers[k], i) {
          assert t[i + 1] != PrepareMarkers[k][1] || t[i] != PrepareMarkers[k][0];
        }
      }
    }
  }

  /** One segment's text through every correction in turn: each pattern
      that occurs in the current text is replaced everywhere and counted. */
  function CorrectText(text: string, corrections: seq<(string, string)>): (r: (string, nat))
    ensures r.1 <= |corrections|
    ensures r.1 == 0 <==> forall k :: 0 <= k < |corrections| ==> !Contains(text, corrections[k].0)
    ensures r.1 == 0 ==> r.0 == text
    decreases |corrections|
  {
    if corrections == [] then (text, 0)
    else
      var (wrong, correct) := corrections[0];
      if Contains(text, wrong) then
        var (t, n) := CorrectText(ReplaceAll(text, wrong, correct), corrections[1..]);
        (t, n + 1)
      else
        assert wrong != [] by { assert OccursAt(text, [], 0); }
        ReplaceAllAbsent(text, wrong, correct);
        var (t, n) := CorrectText(text, corrections[1..]);
        assert forall k :: 0 < k < |corrections| ==> corrections[k] == corrections[1..][k - 1];
        (t, n)
  }

  /** Corrections that map each pattern to itself change no text. */
  lemma {:induction false} SelfCorrectionsChangeNothing(text: string, corrections: seq<(string, string)>)
    requires forall k :: 0 <= k < |corrections| ==> corrections[k].0 == corrections[k].1
    ensures CorrectText(text, corrections).0 == text
  {
    if corrections != [] {
      var (wrong, correct) := corrections[0];
      ReplaceAllSelf(text, wrong);
      SelfCorrectionsChangeNothing(text, corrections[1..]);
    }
  }

  /** The correction loop over the surviving segments: times are untouched,
      each text goes through `CorrectText`, and the counts add up. */
  function ApplyCorrections(segs: seq<Mapped>, corrections: seq<(string, string)>): (r: (seq<Mapped>, nat))
    ensures |r.0| == |segs|
    ensures forall k :: 0 <= k < |segs| ==>
      && r.0[k].start == segs[k].start && r.0[k].end == segs[k].end
      && r.0[k].duration == segs[k].duration
      && r.0[k].text == CorrectText(segs[k].text, corrections).0
    ensures r.1 == 0 <==> forall k, j :: 0 <= k < |segs| && 0 <= j < |corrections| ==>
      !Contains(segs[k].text, corrections[j].0)
  {
    if segs == [] then ([], 0)
    else
      var s := segs[0];
      var (t, n) := CorrectText(s.text, corrections);
      var (rest, m) := ApplyCorrections(segs[1..], corrections);
      var r := [Mapped(s.start, s.end, s.duration, t)] + rest;
      assert forall k :: 0 < k < |segs| ==> segs[k] == segs[1..][k - 1] && r[k] == rest[k - 1];
      (r, n + m)
  }

  /** The result of the step: the segments to speak, the number of garbage
      segments dropped and the number of corrections applied. A missing
      corrections file is an empty list of corrections. */
  datatype Prepared = Prepared(segments: seq<Mapped>, garbageCount: nat, fixCount: nat)

  function PrepareSegments(segs: seq<Segment>, plan: seq<Entry>, corrections: seq<(string, string)>): (r: Prepared)
    ensures |r.segments| + r.garbageCount == |MapSegments(segs, plan)|
    ensures forall k :: 0 <= k < |r.segments| ==>
      && 0 < r.segments[k].duration == r.segments[k].end - r.segments[k].start
      && MinSegmentDuration <= r.segments[k].duration
      && exists i :: 0 <= i < |segs| && MapOne(segs[i], plan).Some?
           && MapOne(segs[i], plan).value.start == r.segments[k].start
           && MapOne(segs[i], plan).value.end == r.segments[k].end
    ensures corrections == [] ==> r.fixCount == 0
    ensures Sorted(segs) && Ordered(plan) ==> StartsInOrder(r.segments)
  {
    var mapped := MapSegments(segs, plan);
    var (filtered, garbage) := FilterGarbage(mapped);
    var (fixed, fixes) := ApplyCorrections(filtered, corrections);
    assert forall k :: 0 <= k < |filtered| ==> filtered[k] in filtered;
    assert Sorted(segs) && Ordered(plan) ==> StartsInOrder(fixed) by {
      if Sorted(segs) && Ordered(plan) { MappedInOrder(segs, plan); }
    }
    Prepared(fixed, garbage, fixes)
  }
}
