/** The timeline assembly of `cmd_tts_generate`: each line's decoded speech
    is written onto a silent canvas at the line's start, cut short so that
    it never runs into the next line or off the end of the canvas. Times
    are sample indices at 44.1 kHz, and a start of `t` centiseconds is
    taken as sample `441 * t`. Sample values are abstract integers, 0 being
    silence. */
module Assembler {

  import opened Base
  import opened Transcript
  import opened EditPlan
  import opened Timeline
  import opened TtsPrepare

  /** 44100 samples a second. */
  const SamplesPerCs: nat := 441

  type Sample = int

  // ---------------------------------------------------------------------
  // numpy slicing
  // ---------------------------------------------------------------------

  /** The length of Python's `xs[:stop]` for a list of length `n`: a
      negative stop counts back from the end. */
  function PrefixLength(n: nat, stop: int): (k: nat)
    ensures k <= n
  {
    if stop >= 0 then Min(stop, n) else Max(0, n + stop)
  }

  function Prefix(xs: seq<Sample>, stop: int): seq<Sample> {
    xs[..PrefixLength(|xs|, stop)]
  }

  /** numpy's `canvas[a:b] = v` for non-negative bounds: the slice is
      clipped to the canvas, and `v` must either have the slice's length or
      have length 1 (and is then repeated); anything else raises. */
  function SliceAssign(canvas: seq<Sample>, a: nat, b: nat, v: seq<Sample>): (r: Result<seq<Sample>, string>)
    ensures var lo := Min(a, |canvas|); var hi := Max(lo, Min(b, |canvas|));
      && (r.Err? <==> |v| != hi - lo && |v| != 1)
      && (r.Ok? ==>
            && |r.value| == |canvas|
            && (forall p :: 0 <= p < |canvas| && !(lo <= p < hi) ==> r.value[p] == canvas[p])
            && (|v| == hi - lo ==> forall p :: lo <= p < hi ==> r.value[p] == v[p - lo]))
  {
    var lo := Min(a, |canvas|);
    var hi := Max(lo, Min(b, |canvas|));
    if |v| == hi - lo then Ok(canvas[..lo] + v + canvas[hi..])
    else if |v| == 1 then Ok(canvas[..lo] + seq(hi - lo, _ => v[0]) + canvas[hi..])
    else Err("could not broadcast input array")
  }

  // ---------------------------------------------------------------------
  // One clip
  // ---------------------------------------------------------------------

  /** One clip placed as the source writes it: cut to the space before
      `maxEnd`, then to the canvas end, then slice-assigned at `start`. */
  function PlaceAsWritten(canvas: seq<Sample>, start: nat, maxEnd: int, pcm: seq<Sample>): Result<seq<Sample>, string> {
    var available := maxEnd - start;
    var cut := if |pcm| > available then Prefix(pcm, available) else pcm;
    var endSample := Min(start + |cut|, |canvas|);
    var actualLen := endSample - start;
    SliceAssign(canvas, start, endSample, Prefix(cut, actualLen))
  }

  /** How many samples a clip of `len` samples at `start` may write: none
      from the canvas end on, else as many as fit before both the next
      line's start `maxEnd` and the canvas end. */
  function WriteLen(total: nat, start: nat, maxEnd: int, len: nat): nat {
    if start >= total then 0 else Max(0, Min(len, Min(maxEnd - start, total - start)))
  }

  /** One clip placed with the evidently intended behaviour: a clip that
      starts at or past the canvas end writes nothing. It replaces exactly
      the first `WriteLen` samples from `start` with the clip's own, and
      leaves every other sample as it was. */
  function PlaceOne(canvas: seq<Sample>, start: nat, maxEnd: int, pcm: seq<Sample>): (c: seq<Sample>)
    requires start < |canvas| ==> start <= maxEnd
    ensures |c| == |canvas|
    ensures forall p :: 0 <= p < |c| ==>
      c[p] == if start <= p < start + WriteLen(|canvas|, start, maxEnd, |pcm|) then pcm[p - start] else canvas[p]
  {
    if start >= |canvas| then canvas
    else
      var available := maxEnd - start;
      var cut := if |pcm| > available then pcm[..available] else pcm;
      var endSample := Min(start + |cut|, |canvas|);
      canvas[..start] + cut[..endSample - start] + canvas[endSample..]
  }

  /** Wherever the clip starts inside the canvas (or exactly at its end),
      the source's placement succeeds and agrees with `PlaceOne`. */
  lemma AsWrittenAgrees(canvas: seq<Sample>, start: nat, maxEnd: int, pcm: seq<Sample>)
    requires start <= |canvas| && start <= maxEnd
    ensures PlaceAsWritten(canvas, start, maxEnd, pcm) == Ok(PlaceOne(canvas, start, maxEnd, pcm))
  {
    var r := PlaceAsWritten(canvas, start, maxEnd, pcm);
    var c := PlaceOne(canvas, start, maxEnd, pcm);
    assert r.Ok?;
    assert r.value == c by {
      assert |r.value| == |c|;
      forall p | 0 <= p < |c| ensures r.value[p] == c[p] {
      }
    }
  }

  /** The last clip starting `d > 0` samples past the canvas end makes the
      source raise exactly when it has at least `2 * d + 2` samples: the
      two negative slice stops leave that many minus `2 * d` samples to
      broadcast into an empty slice. */
  lemma AsWrittenPastEnd(canvas: seq<Sample>, start: nat, pcm: seq<Sample>)
    requires start > |canvas|
    ensures PlaceAsWritten(canvas, start, |canvas|, pcm).Err?
      <==> |pcm| >= 2 * (start - |canvas|) + 2
  {
  }

  /** A line that is not the last, starting `d > 0` samples past the
      canvas end with its successor no earlier, fails the same way: the
      clip is first cut to the space before the next line, and the source
      raises exactly when that leaves at least `d + 2` samples. */
  lemma AsWrittenPastEndInner(canvas: seq<Sample>, start: nat, maxEnd: int, pcm: seq<Sample>)
    requires start > |canvas| && maxEnd >= start
    ensures PlaceAsWritten(canvas, start, maxEnd, pcm).Err?
      <==> Min(|pcm|, maxEnd - start) >= (start - |canvas|) + 2
  {
  }

  /** A 1 s canvas and a line starting at 1.01 s with 1000 samples of
      speech: the source raises instead of skipping the clip, whether the
      line is the last or the next one starts at 2 s. */
  lemma PastEndExample()
    ensures PlaceAsWritten(seq(44100, _ => 0), 101 * SamplesPerCs, 44100, seq(1000, _ => 1)).Err?
    ensures PlaceAsWritten(seq(44100, _ => 0), 101 * SamplesPerCs, 200 * SamplesPerCs, seq(1000, _ => 1)).Err?
    ensures PlaceOne(seq(44100, _ => 0), 101 * SamplesPerCs, 44100, seq(1000, _ => 1)) == seq(44100, _ => 0)
  {
    AsWrittenPastEnd(seq(44100, _ => 0), 101 * SamplesPerCs, seq(1000, _ => 1));
    AsWrittenPastEndInner(seq(44100, _ => 0), 101 * SamplesPerCs, 200 * SamplesPerCs, seq(1000, _ => 1));
  }

  // ---------------------------------------------------------------------
  // The whole timeline
  // ---------------------------------------------------------------------

  /** Line `i`'s start as a sample index, 441 samples a centisecond. The
      source truncates a floating-point product instead, which can land
      one sample lower; the order of the starts is the same either way. */
  function StartSample(segs: seq<Mapped>, i: nat): int
    requires i < |segs|
  {
    segs[i].start * SamplesPerCs
  }

  /** Where line `i`'s clip must stop: the next line's start, or the
      canvas end after the last line. */
  function MaxEnd(segs: seq<Mapped>, total: nat, i: nat): int
    requires i < |segs|
  {
    if i + 1 < |segs| then StartSample(segs, i + 1) else total
  }

  /** The lines start at or after 0 and in order: what the mapped
      transcript guarantees (see `MappedInOrder`). */
  predicate StartsForward(segs: seq<Mapped>) {
    (forall i :: 0 <= i < |segs| ==> 0 <= segs[i].start) && StartsInOrder(segs)
  }

  /** The prepared lines of a time-ordered transcript, moved along an
      ordered plan that starts at or after 0 (as the generated plan does,
      see `GeneratedPlanOrdered`), meet what the assembly asks of them. */
  lemma PreparedStartsForward(segs: seq<Segment>, plan: seq<Entry>, corrections: seq<(string, string)>)
    requires Sorted(segs) && Ordered(plan) && (plan != [] ==> plan[0].start >= 0)
    ensures StartsForward(PrepareSegments(segs, plan, corrections).segments)
  {
    var r := PrepareSegments(segs, plan, corrections).segments;
    forall k | 0 <= k < |r| ensures 0 <= r[k].start {
      var i :| 0 <= i < |segs| && MapOne(segs[i], plan).Some? && MapOne(segs[i], plan).value.start == r[k].start;
      MappedStartNonNegative(segs[i], plan);
    }
  }

  /** A segment starting at or after 0 lands at or after 0. */
  lemma MappedStartNonNegative(seg: Segment, plan: seq<Entry>)
    requires Ordered(plan) && (plan != [] ==> plan[0].start >= 0) && 0 <= seg.start
    requires MapOne(seg, plan).Some?
    ensures MapOne(seg, plan).value.start >= 0
  {
    WalkBounds(seg.start, plan);
  }

  /** The number of samples clip `i` writes; a clip that is missing or
      could not be decoded writes none. */
  function Window(segs: seq<Mapped>, clips: seq<Option<seq<Sample>>>, total: nat, i: nat): nat
    requires |clips| == |segs| && StartsForward(segs) && i < |segs|
  {
    if clips[i].None? then 0
    else WriteLen(total, StartSample(segs, i), MaxEnd(segs, total, i), |clips[i].value|)
  }

  /** Sample `p` is written by clip `i`. */
  predicate InWindow(segs: seq<Mapped>, clips: seq<Option<seq<Sample>>>, total: nat, i: nat, p: int)
    requires |clips| == |segs| && StartsForward(segs) && i < |segs|
  {
    StartSample(segs, i) <= p < StartSample(segs, i) + Window(segs, clips, total, i)
  }

  /** The clips that exist and decode. */
  function CountPlaced(clips: seq<Option<seq<Sample>>>): nat {
    if clips == [] then 0 else CountPlaced(clips[..|clips| - 1]) + (if Last(clips).Some? then 1 else 0)
  }

  /** A clip never writes more than it has, never at or past the next
      line's start, and never at or past the canvas end; so the windows of
      two different clips never overlap. */
  lemma WindowBounds(segs: seq<Mapped>, clips: seq<Option<seq<Sample>>>, total: nat, i: nat, j: nat)
    requires |clips| == |segs| && StartsForward(segs) && i < j < |segs|
    ensures clips[i].Some? ==> Window(segs, clips, total, i) <= |clips[i].value|
    ensures StartSample(segs, i) + Window(segs, clips, total, i) <= StartSample(segs, i + 1)
    ensures Window(segs, clips, total, i) > 0 ==> StartSample(segs, i) + Window(segs, clips, total, i) <= total
    ensures StartSample(segs, i) + Window(segs, clips, total, i) <= StartSample(segs, j)
  {
    assert segs[i].start <= segs[i + 1].start <= segs[j].start;
  }

  /** The assembly loop. The canvas has `total` samples; every sample in
      clip `i`'s window holds that clip's sample, and every sample outside
      all windows (those of skipped clips included) stays silent. */
  method Assemble(segs: seq<Mapped>, clips: seq<Option<seq<Sample>>>, total: nat)
    returns (canvas: seq<Sample>, placed: nat)
    requires |clips| == |segs| && StartsForward(segs)
    ensures |canvas| == total
    ensures placed == CountPlaced(clips)
    ensures forall i, p :: 0 <= i < |segs| && InWindow(segs, clips, total, i, p) ==>
      0 <= p < total && canvas[p] == clips[i].value[p - StartSample(segs, i)]
    ensures forall p :: 0 <= p < total && (forall i :: 0 <= i < |segs| ==> !InWindow(segs, clips, total, i, p)) ==>
      canvas[p] == 0
  {
    canvas := seq(total, _ => 0);
    placed := 0;
    var i := 0;
    while i < |segs|
      invariant 0 <= i <= |segs|
      invariant |canvas| == total
      invariant placed == CountPlaced(clips[..i])
      invariant Painted(segs, clips, total, i, canvas)
    {
      assert clips[..i + 1][..i] == clips[..i];
      ghost var before := canvas;
      match clips[i] {
        case None =>
        case Some(pcm) =>
          var startSample := segs[i].start * SamplesPerCs;
          var maxEnd := if i + 1 < |segs| then segs[i + 1].start * SamplesPerCs else total;
          canvas := PlaceOne(canvas, startSample, maxEnd, pcm);
          placed := placed + 1;
      }
      PaintStep(segs, clips, total, i, before, canvas);
      i := i + 1;
    }
    assert clips[..|segs|] == clips;
  }

  /** The canvas after the first `i` clips: each of their windows holds
      its clip's samples and every sample outside all of them is silent. */
  ghost predicate Painted(segs: seq<Mapped>, clips: seq<Option<seq<Sample>>>, total: nat, i: nat, canvas: seq<Sample>)
    requires |clips| == |segs| && StartsForward(segs) && i <= |segs|
  {
    && |canvas| == total
    && (forall j, p :: 0 <= j < i && InWindow(segs, clips, total, j, p) ==>
          0 <= p < total && canvas[p] == clips[j].value[p - StartSample(segs, j)])
    && (forall p :: 0 <= p < total && (forall j :: 0 <= j < i ==> !InWindow(segs, clips, total, j, p)) ==>
          canvas[p] == 0)
  }

  /** Placing clip `i` (or skipping it) paints its window and nothing
      else, so the earlier windows keep their samples. */
  lemma PaintStep(segs: seq<Mapped>, clips: seq<Option<seq<Sample>>>, total: nat, i: nat, canvas: seq<Sample>, canvas': seq<Sample>)
    requires |clips| == |segs| && StartsForward(segs) && i < |segs|
    requires Painted(segs, clips, total, i, canvas)
    requires canvas' == if clips[i].None? then canvas
      else PlaceOne(canvas, StartSample(segs, i), MaxEnd(segs, total, i), clips[i].value)
    ensures Painted(segs, clips, total, i + 1, canvas')
  {
    PaintChanges(segs, clips, total, i, canvas, canvas');
    forall j | 0 <= j < i ensures StartSample(segs, j) + Window(segs, clips, total, j) <= StartSample(segs, i) {
      WindowBounds(segs, clips, total, j, i);
    }
  }

  /** Clip `i` writes its own samples into its window and leaves the
      rest of the canvas alone. */
  lemma PaintChanges(segs: seq<Mapped>, clips: seq<Option<seq<Sample>>>, total: nat, i: nat, canvas: seq<Sample>, canvas': seq<Sample>)
    requires |clips| == |segs| && StartsForward(segs) && i < |segs| && |canvas| == total
    requires canvas' == if clips[i].None? then canvas
      else PlaceOne(canvas, StartSample(segs, i), MaxEnd(segs, total, i), clips[i].value)
    ensures |canvas'| == total
    ensures forall p :: InWindow(segs, clips, total, i, p) ==>
      0 <= p < total && canvas'[p] == clips[i].value[p - StartSample(segs, i)]
    ensures forall p :: 0 <= p < total && !InWindow(segs, clips, total, i, p) ==> canvas'[p] == canvas[p]
  {
    if clips[i].Some? && i + 1 < |segs| {
      WindowBounds(segs, clips, total, i, i + 1);
    }
  }
}
