/** `original_to_edited`: where an instant of the original recording lands
    in the edited one, or nowhere when it was cut. Times are in
    centiseconds, so the source's rounding to 0.01 s is the identity. */
module Timeline {

  import opened Base
  import opened EditPlan

  /** Entries run forwards and each starts no earlier than the previous one
      ends. Every plan `generate_edit_plan` builds from candidates inside
      the timeline has this shape (see `GeneratedPlanOrdered`). */
  predicate Ordered(plan: seq<Entry>) {
    && (forall k :: 0 <= k < |plan| ==> plan[k].start <= plan[k].end)
    && (forall k :: 0 < k < |plan| ==> plan[k - 1].end <= plan[k].start)
  }

  /** The walk over the plan with `removed` centiseconds cut so far: stop
      before an entry that starts after `t`, give up inside a REMOVE, count
      a REMOVE that ends by `t`, and stop inside (or at the end of) a KEEP. */
  function Walk(t: int, plan: seq<Entry>, removed: int): Option<int> {
    if plan == [] then Some(t - removed)
    else
      var e := plan[0];
      if t < e.start then Some(t - removed)
      else if e.action == Remove then
        if t < e.end then None else Walk(t, plan[1..], removed + (e.end - e.start))
      else if t <= e.end then Some(t - removed)
      else Walk(t, plan[1..], removed)
  }

  function OriginalToEdited(t: int, plan: seq<Entry>): Option<int> {
    Walk(t, plan, 0)
  }

  /** `t` lies in the span `[start, end)` of some REMOVE entry. */
  predicate InRemove(t: int, plan: seq<Entry>) {
    exists k :: 0 <= k < |plan| && plan[k].action == Remove && plan[k].start <= t < plan[k].end
  }

  /** The total length of the REMOVE entries that end at or before `t`: the
      reference definition of what is cut in front of `t`. */
  function RemovedBefore(t: int, plan: seq<Entry>): int {
    if plan == [] then 0
    else
      var here := if plan[0].action == Remove && plan[0].end <= t then plan[0].end - plan[0].start else 0;
      here + RemovedBefore(t, plan[1..])
  }

  lemma OrderedTail(plan: seq<Entry>)
    requires plan != [] && Ordered(plan)
    ensures Ordered(plan[1..])
    ensures |plan| > 1 ==> plan[0].end <= plan[1..][0].start
  {
    assert forall k :: 0 <= k < |plan[1..]| ==> plan[1..][k] == plan[k + 1];
  }

  /** Nothing is cut before the first entry starts. */
  lemma {:induction false} NothingRemovedBefore(t: int, plan: seq<Entry>)
    requires Ordered(plan) && plan != [] && t <= plan[0].start
    ensures RemovedBefore(t, plan) == 0
  {
    if |plan| > 1 {
      OrderedTail(plan);
      NothingRemovedBefore(t, plan[1..]);
    }
  }

  /** Whatever the walk returns is `t` less the accumulated removal and
      the length of every REMOVE ending at or before `t`. */
  lemma {:induction false} WalkMeasures(t: int, plan: seq<Entry>, removed: int)
    requires Ordered(plan) && Walk(t, plan, removed).Some?
    ensures Walk(t, plan, removed).value == t - removed - RemovedBefore(t, plan)
  {
    if plan != [] {
      var e := plan[0];
      if t < e.start {
        NothingRemovedBefore(t, plan);
      } else if e.action == Remove {
        OrderedTail(plan);
        WalkMeasures(t, plan[1..], removed + (e.end - e.start));
      } else if t <= e.end {
        if |plan| > 1 {
          OrderedTail(plan);
          NothingRemovedBefore(t, plan[1..]);
        }
      } else {
        OrderedTail(plan);
        WalkMeasures(t, plan[1..], removed);
      }
    }
  }

  /** The walk gives up only inside the span of some REMOVE. */
  lemma {:induction false} WalkNoneInRemove(t: int, plan: seq<Entry>, removed: int)
    requires Walk(t, plan, removed).None?
    ensures InRemove(t, plan)
  {
    var e := plan[0];
    if e.action == Remove && e.start <= t < e.end {
      assert plan[0].action == Remove && plan[0].start <= t < plan[0].end;
    } else {
      var rest := if e.action == Remove then removed + (e.end - e.start) else removed;
      WalkNoneInRemove(t, plan[1..], rest);
      var k :| 0 <= k < |plan[1..]| && plan[1..][k].action == Remove && plan[1..][k].start <= t < plan[1..][k].end;
      assert plan[k + 1] == plan[1..][k];
    }
  }

  /** The walk gives up on every instant strictly inside a REMOVE. */
  lemma {:induction false} WalkNoneStrictlyInside(t: int, plan: seq<Entry>, removed: int, k: nat)
    requires Ordered(plan) && k < |plan|
    requires plan[k].action == Remove && plan[k].start < t < plan[k].end
    ensures Walk(t, plan, removed).None?
  {
    if k > 0 {
      var e := plan[0];
      assert e.end <= plan[k].start by {
        assert forall j :: 0 < j <= k ==> plan[0].end <= plan[j].start by {
          forall j | 0 < j <= k ensures plan[0].end <= plan[j].start {
            OrderedPrefix(plan, j);
          }
        }
      }
      OrderedTail(plan);
      assert plan[1..][k - 1] == plan[k];
      WalkNoneStrictlyInside(t, plan[1..], if e.action == Remove then removed + (e.end - e.start) else removed, k - 1);
    }
  }

  /** In an ordered plan the first entry ends before any later one starts. */
  lemma {:induction false} OrderedPrefix(plan: seq<Entry>, j: nat)
    requires Ordered(plan) && 0 < j < |plan|
    ensures plan[0].end <= plan[j].start
  {
    if j > 1 {
      OrderedPrefix(plan, j - 1);
    }
  }

  /** Once `t` has reached the first entry, the walk's answer is at least
      that entry's start less the accumulated removal. */
  lemma {:induction false} WalkAtLeast(t: int, plan: seq<Entry>, removed: int)
    requires Ordered(plan) && plan != [] && plan[0].start <= t
    requires Walk(t, plan, removed).Some?
    ensures Walk(t, plan, removed).value >= plan[0].start - removed
  {
    var e := plan[0];
    var removed' := if e.action == Remove then removed + (e.end - e.start) else removed;
    if |plan| > 1 && (e.action == Remove || t > e.end) {
      OrderedTail(plan);
      if plan[1].start <= t {
        WalkAtLeast(t, plan[1..], removed');
      }
    }
  }

  /** The walk never moves an instant backwards past another: for `t1 <= t2`
      with both kept, the edited times are ordered the same way. */
  lemma {:induction false} WalkMonotone(t1: int, t2: int, plan: seq<Entry>, removed: int)
    requires Ordered(plan) && t1 <= t2
    requires Walk(t1, plan, removed).Some? && Walk(t2, plan, removed).Some?
    ensures Walk(t1, plan, removed).value <= Walk(t2, plan, removed).value
  {
    if plan != [] {
      var e := plan[0];
      if t1 < e.start {
        if e.start <= t2 {
          WalkAtLeast(t2, plan, removed);
        }
      } else if e.action == Remove {
        OrderedTail(plan);
        WalkMonotone(t1, t2, plan[1..], removed + (e.end - e.start));
      } else if t1 <= e.end {
        if t2 > e.end && |plan| > 1 {
          OrderedTail(plan);
          if plan[1].start <= t2 {
            WalkAtLeast(t2, plan[1..], removed);
          }
        }
      } else {
        OrderedTail(plan);
        WalkMonotone(t1, t2, plan[1..], removed);
      }
    }
  }

  /** The walk only ever subtracts: its answer is at most `t` less the
      accumulated removal. */
  lemma {:induction false} WalkAtMost(t: int, plan: seq<Entry>, removed: int)
    requires Ordered(plan) && Walk(t, plan, removed).Some?
    ensures Walk(t, plan, removed).value <= t - removed
  {
    if plan != [] {
      var e := plan[0];
      if t >= e.start && (e.action == Remove || t > e.end) {
        OrderedTail(plan);
        WalkAtMost(t, plan[1..], if e.action == Remove then removed + (e.end - e.start) else removed);
      }
    }
  }

  /** With the plan starting at or after 0, a kept instant `t >= 0` maps
      into `[0, t]`. */
  lemma WalkBounds(t: int, plan: seq<Entry>)
    requires Ordered(plan) && (plan != [] ==> plan[0].start >= 0) && 0 <= t
    requires OriginalToEdited(t, plan).Some?
    ensures 0 <= OriginalToEdited(t, plan).value <= t
  {
    WalkAtMost(t, plan, 0);
    if plan != [] && plan[0].start <= t {
      WalkAtLeast(t, plan, 0);
    }
  }

  /** The mapping against its reference: on an ordered plan, an instant
      strictly inside a REMOVE has no edited time, an instant outside every
      REMOVE span maps to itself less what was cut before it, the answer is
      None only inside a REMOVE span, and every answer is that difference. */
  lemma OriginalToEditedSpec(t: int, plan: seq<Entry>)
    requires Ordered(plan)
    ensures (exists k :: 0 <= k < |plan| && plan[k].action == Remove && plan[k].start < t < plan[k].end)
      ==> OriginalToEdited(t, plan) == None
    ensures !InRemove(t, plan) ==> OriginalToEdited(t, plan) == Some(t - RemovedBefore(t, plan))
    ensures OriginalToEdited(t, plan).None? ==> InRemove(t, plan)
    ensures OriginalToEdited(t, plan).Some? ==> OriginalToEdited(t, plan).value == t - RemovedBefore(t, plan)
  {
    if k :| 0 <= k < |plan| && plan[k].action == Remove && plan[k].start < t < plan[k].end {
      WalkNoneStrictlyInside(t, plan, 0, k);
    }
    if OriginalToEdited(t, plan).None? {
      WalkNoneInRemove(t, plan, 0);
    } else {
      WalkMeasures(t, plan, 0);
    }
  }

  /** A plan built from candidates inside the timeline is ordered and starts
      at or after 0, so the statements above apply to it. */
  lemma GeneratedPlanOrdered(segs: seq<Transcript.Segment>, gaps: seq<Analyzer.Gap>, dupes: seq<Analyzer.Dupe>,
                             garbage: seq<Analyzer.Garbage>, threshold: int)
    requires var cands := Candidates(gaps, dupes, garbage, threshold);
      WellFormed(cands) && Within(cands, 0, Transcript.TotalDuration(segs))
    ensures var plan := GenerateEditPlan(segs, gaps, dupes, garbage, threshold);
      Ordered(plan) && (plan != [] ==> plan[0].start >= 0)
  {
    PlanCoversTimeline(segs, gaps, dupes, garbage, threshold, 0);
    var plan := GenerateEditPlan(segs, gaps, dupes, garbage, threshold);
    assert forall k :: 0 <= k < |plan| ==> plan[k] in plan;
  }

  /** The worked example: KEEP 0-10 s, REMOVE 10-15 s, KEEP 15-30 s maps
      5 s to 5 s, 10 s (the KEEP's end) to 10 s, 12 s to nothing and 20 s
      to 15 s. */
  lemma MappingExample()
    ensures var plan := [Entry(Keep, 0, 1000, []), Entry(Remove, 1000, 1500, []), Entry(Keep, 1500, 3000, [])];
      && OriginalToEdited(500, plan) == Some(500)
      && OriginalToEdited(1000, plan) == Some(1000)
      && OriginalToEdited(1200, plan) == None
      && OriginalToEdited(2000, plan) == Some(1500)
  {
    var plan := [Entry(Keep, 0, 1000, []), Entry(Remove, 1000, 1500, []), Entry(Keep, 1500, 3000, [])];
    assert plan[1..] == [Entry(Remove, 1000, 1500, []), Entry(Keep, 1500, 3000, [])];
    assert plan[1..][1..] == [Entry(Keep, 1500, 3000, [])];
  }
}
