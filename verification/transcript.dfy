/** Whisper transcript segments, with times in centiseconds. */
module Transcript {

  /** One transcribed segment: `[start, end]` in centiseconds and its text. */
  datatype Segment = Segment(start: int, end: int, text: string)

  /** Every segment is well-formed and starts are strictly increasing: the
      shape the planner is meant to be given. */
  predicate Sorted(segs: seq<Segment>) {
    && (forall i :: 0 <= i < |segs| ==> 0 <= segs[i].start <= segs[i].end)
    && (forall i, j :: 0 <= i < j < |segs| ==> segs[i].start < segs[j].start)
  }

  /** Sorted, and no segment runs past the start of the next one. */
  predicate NonOverlapping(segs: seq<Segment>) {
    && Sorted(segs)
    && (forall i :: 0 < i < |segs| ==> segs[i - 1].end <= segs[i].start)
  }

  /** The source's `segments[-1]["end"] if segments else 0`. */
  function TotalDuration(segs: seq<Segment>): int {
    if segs == [] then 0 else segs[|segs| - 1].end
  }

  /** In a non-overlapping transcript every segment ends by the last end. */
  lemma {:induction false} EndsWithinTotal(segs: seq<Segment>, i: nat)
    requires NonOverlapping(segs) && i < |segs|
    ensures 0 <= segs[i].start <= segs[i].end <= TotalDuration(segs)
    decreases |segs| - i
  {
    if i + 1 < |segs| {
      EndsWithinTotal(segs, i + 1);
    }
  }
}
