/** `generate_edit_plan`: the candidate removals (long pauses, first takes
    of retakes, garbage), two merge passes over them, and the KEEP/REMOVE
    plan that covers the timeline. Times are in centiseconds. */
module EditPlan {

  import opened Base
  import opened Text
  import opened Transcript
  import opened Analyzer

  /** Why a range is removed; the source joins these as text with " + ". */
  datatype Note = SilenceNote(duration: int) | RetakeNote(seg: nat) | GarbageNote(reason: GarbageReason)

  /** A candidate or merged removal range. */
  datatype Range = Range(start: int, end: int, notes: seq<Note>)

  datatype Action = Keep | Remove

  /** One plan entry. KEEP entries carry no notes. */
  datatype Entry = Entry(action: Action, start: int, end: int, notes: seq<Note>)

  /** 10 s: pauses at least this long are removed. */
  const DefaultSilenceThreshold: int := 1000
  /** 1 s: the first pass merges a range starting within this of the previous end. */
  const MergeSlack: int := 100
  /** 2 s: the second pass joins ranges separated by less than this. */
  const BridgeLimit: int := 200
  /** 0.5 s: a KEEP entry must be longer than this. */
  const MinKeep: int := 50
  /** Retake groups are keyed on this many characters of the first text. */
  const RetakeKeyLength: nat := 15

  // ---------------------------------------------------------------------
  // Candidates
  // ---------------------------------------------------------------------

  function SilenceRange(g: Gap): Range {
    Range(g.start, g.end, [SilenceNote(g.duration)])
  }

  /** The pauses of at least `threshold`, in order. */
  function SilenceRanges(gaps: seq<Gap>, threshold: int): (rs: seq<Range>)
    ensures forall r :: r in rs <==> exists g :: g in gaps && g.duration >= threshold && r == SilenceRange(g)
  {
    if gaps == [] then []
    else
      var rest := SilenceRanges(gaps[1..], threshold);
      assert forall g :: g in gaps <==> g == gaps[0] || g in gaps[1..];
      if gaps[0].duration >= threshold then [SilenceRange(gaps[0])] + rest else rest
  }

  function GarbageRange(g: Garbage): Range {
    Range(g.start, g.end, [GarbageNote(g.reason)])
  }

  /** Every garbage segment, in order. */
  function GarbageRanges(garbage: seq<Garbage>): (rs: seq<Range>)
    ensures |rs| == |garbage|
    ensures forall k :: 0 <= k < |rs| ==> rs[k] == GarbageRange(garbage[k])
  {
    if garbage == [] then [] else [GarbageRange(garbage[0])] + GarbageRanges(garbage[1..])
  }

  /** The key of a retake pair's group: the first 15 characters of the
      first text, whatever the `min_chars` the pairs were found with. */
  function RetakeKey(d: Dupe): string {
    Take(d.firstText, RetakeKeyLength)
  }

  /** The group keys in order of first appearance, each once (the source's
      insertion-ordered dict). */
  function GroupKeys(dupes: seq<Dupe>, seen: seq<string>): (keys: seq<string>)
    requires NoDuplicates(seen)
    ensures NoDuplicates(keys)
    ensures |seen| <= |keys| && keys[..|seen|] == seen
    ensures forall key :: key in keys <==> key in seen || exists d :: d in dupes && RetakeKey(d) == key
  {
    if dupes == [] then seen
    else
      var key := RetakeKey(dupes[0]);
      var seen' := if key in seen then seen else seen + [key];
      var keys := GroupKeys(dupes[1..], seen');
      assert forall d :: d in dupes <==> d == dupes[0] || d in dupes[1..];
      assert keys[..|seen|] == keys[..|seen'|][..|seen|];
      keys
  }

  predicate NoDuplicates<T(==)>(s: seq<T>) {
    forall i, j :: 0 <= i < j < |s| ==> s[i] != s[j]
  }

  /** The pairs of one group, in order. */
  function GroupOf(dupes: seq<Dupe>, key: string): (group: seq<Dupe>)
    ensures forall d :: d in group <==> d in dupes && RetakeKey(d) == key
  {
    if dupes == [] then []
    else
      var rest := GroupOf(dupes[1..], key);
      assert forall d :: d in dupes <==> d == dupes[0] || d in dupes[1..];
      if RetakeKey(dupes[0]) == key then [dupes[0]] + rest else rest
  }

  function FirstTake(d: Dupe): Range {
    Range(d.firstStart, d.firstEnd, [RetakeNote(d.firstSeg)])
  }

  function SecondTake(d: Dupe): Range {
    Range(d.secondStart, d.secondEnd, [RetakeNote(d.secondSeg)])
  }

  /** The distinct segments of a group, first and second of each pair in
      turn, each once (the source's set of `(seg, start, end)` triples). */
  function Members(group: seq<Dupe>, acc: seq<Range>): (ms: seq<Range>)
    requires NoDuplicates(acc)
    ensures NoDuplicates(ms)
    ensures forall r :: r in ms <==>
      r in acc || exists d :: d in group && (r == FirstTake(d) || r == SecondTake(d))
  {
    if group == [] then acc
    else
      var d := group[0];
      var acc1 := if FirstTake(d) in acc then acc else acc + [FirstTake(d)];
      var acc2 := if SecondTake(d) in acc1 then acc1 else acc1 + [SecondTake(d)];
      assert forall d' :: d' in group <==> d' == d || d' in group[1..];
      Members(group[1..], acc2)
  }

  // ---------------------------------------------------------------------
  // Stable sort by start
  // ---------------------------------------------------------------------

  predicate SortedByStart(s: seq<Range>) {
    forall i, j :: 0 <= i < j < |s| ==> s[i].start <= s[j].start
  }

  /** Insert `x` before the first element that starts no earlier. */
  function InsertByStart(x: Range, s: seq<Range>): (r: seq<Range>)
    requires SortedByStart(s)
    ensures SortedByStart(r)
    ensures multiset(r) == multiset(s) + multiset{x}
  {
    if s == [] || x.start <= s[0].start then
      InsertFront(x, s);
      [x] + s
    else
      var tail := InsertByStart(x, s[1..]);
      InsertLater(x, s, tail);
      [s[0]] + tail
  }

  /** `x` goes in front of a list whose first element starts no earlier. */
  lemma InsertFront(x: Range, s: seq<Range>)
    requires SortedByStart(s) && (s == [] || x.start <= s[0].start)
    ensures SortedByStart([x] + s)
  {
    var r := [x] + s;
    forall i, j | 0 <= i < j < |r| ensures r[i].start <= r[j].start {
      if i > 0 { assert r[i] == s[i - 1] && r[j] == s[j - 1]; } else { assert r[j] == s[j - 1]; }
    }
  }

  /** `x` goes after the first element, into the rest. */
  lemma InsertLater(x: Range, s: seq<Range>, tail: seq<Range>)
    requires SortedByStart(s) && s != [] && x.start > s[0].start
    requires SortedByStart(tail) && multiset(tail) == multiset(s[1..]) + multiset{x}
    ensures SortedByStart([s[0]] + tail)
    ensures multiset([s[0]] + tail) == multiset(s) + multiset{x}
  {
    assert s == [s[0]] + s[1..];
    forall y | y in tail ensures y.start >= s[0].start {
      assert y in multiset(tail);
      assert y == x || y in multiset(s[1..]);
    }
    var r := [s[0]] + tail;
    forall i, j | 0 <= i < j < |r| ensures r[i].start <= r[j].start {
      assert r[j] == tail[j - 1] && r[j] in tail;
      if i > 0 { assert r[i] == tail[i - 1]; }
    }
  }

  /** Python's `list.sort(key=lambda x: x["start"])`: an insertion sort,
      which keeps elements with equal starts in their input order. */
  function SortByStart(s: seq<Range>): (r: seq<Range>)
    ensures SortedByStart(r)
    ensures multiset(r) == multiset(s)
  {
    if s == [] then []
    else
      assert s == [s[0]] + s[1..];
      InsertByStart(s[0], SortByStart(s[1..]))
  }

  /** The ranges of `s` that start at `v`, in their order in `s`. */
  function StartingAt(s: seq<Range>, v: int): seq<Range> {
    if s == [] then [] else (if s[0].start == v then [s[0]] else []) + StartingAt(s[1..], v)
  }

  /** Inserting `x` puts it in front of every range with the same start. */
  lemma {:induction false} InsertStable(x: Range, s: seq<Range>, v: int)
    requires SortedByStart(s)
    ensures StartingAt(InsertByStart(x, s), v) == (if x.start == v then [x] else []) + StartingAt(s, v)
  {
    if s == [] || x.start <= s[0].start {
      assert ([x] + s)[1..] == s;
    } else {
      assert SortedByStart(s[1..]) by {
        assert forall i :: 0 <= i < |s[1..]| ==> s[1..][i] == s[i + 1];
      }
      InsertStable(x, s[1..], v);
      assert ([s[0]] + InsertByStart(x, s[1..]))[1..] == InsertByStart(x, s[1..]);
    }
  }

  /** The sort is stable: ranges with equal starts keep their input
      order. */
  lemma {:induction false} SortStable(s: seq<Range>, v: int)
    ensures StartingAt(SortByStart(s), v) == StartingAt(s, v)
  {
    if s != [] {
      SortStable(s[1..], v);
      InsertStable(s[0], SortByStart(s[1..]), v);
    }
  }

  /** Python's `sorted(members, key=start)[:-1]`: every member but the one
      that starts last. */
  function DropLatest(ms: seq<Range>): (rs: seq<Range>)
    ensures ms == [] ==> rs == []
    ensures forall r :: r in rs ==> r in ms
    ensures ms != [] ==> exists kept :: (
      && kept in ms
      && multiset(rs) + multiset{kept} == multiset(ms)
      && forall r :: r in rs ==> r.start <= kept.start)
  {
    var sorted := SortByStart(ms);
    if sorted == [] then []
    else
      DropLast(sorted, ms);
      sorted[..|sorted| - 1]
  }

  /** Dropping the last of a sorted permutation of `ms` leaves members of
      `ms`, all starting no later than the one dropped. */
  lemma DropLast(sorted: seq<Range>, ms: seq<Range>)
    requires sorted != [] && SortedByStart(sorted) && multiset(sorted) == multiset(ms)
    ensures var kept := sorted[|sorted| - 1]; var rs := sorted[..|sorted| - 1];
      && kept in ms
      && multiset(rs) + multiset{kept} == multiset(ms)
      && (forall r :: r in rs ==> r.start <= kept.start)
      && (forall r :: r in rs ==> r in ms)
  {
    var kept := sorted[|sorted| - 1];
    var rs := sorted[..|sorted| - 1];
    assert sorted == rs + [kept];
    assert kept in multiset(ms);
    forall r | r in rs ensures r in ms {
      assert r in multiset(rs);
      assert r in multiset(ms);
    }
  }

  /** Every range of `rs` is a take of some pair in `dupes`. */
  ghost predicate TakesOf(rs: seq<Range>, dupes: seq<Dupe>) {
    forall r :: r in rs ==> exists d :: d in dupes && (r == FirstTake(d) || r == SecondTake(d))
  }

  /** The removals of one retake group. */
  function RetakeRemovals(group: seq<Dupe>): (rs: seq<Range>)
    ensures TakesOf(rs, group)
  {
    DropLatest(Members(group, []))
  }

  function RetakeRangesFor(dupes: seq<Dupe>, keys: seq<string>): (rs: seq<Range>)
    ensures TakesOf(rs, dupes)
  {
    if keys == [] then []
    else
      var group := GroupOf(dupes, keys[0]);
      var here := RetakeRemovals(group);
      var rest := RetakeRangesFor(dupes, keys[1..]);
      TakesOfJoin(here, rest, group, dupes);
      here + rest
  }

  /** A group's takes followed by more takes of the whole list. */
  lemma TakesOfJoin(here: seq<Range>, rest: seq<Range>, group: seq<Dupe>, dupes: seq<Dupe>)
    requires TakesOf(here, group) && TakesOf(rest, dupes)
    requires forall d :: d in group ==> d in dupes
    ensures TakesOf(here + rest, dupes)
  {
    forall r | r in here + rest ensures exists d :: d in dupes && (r == FirstTake(d) || r == SecondTake(d)) {
      if r in here {
        var d :| d in group && (r == FirstTake(d) || r == SecondTake(d));
        assert d in dupes;
      }
    }
  }

  /** All but the latest take of every retake group. */
  function RetakeRanges(dupes: seq<Dupe>): (rs: seq<Range>)
    ensures TakesOf(rs, dupes)
  {
    RetakeRangesFor(dupes, GroupKeys(dupes, []))
  }

  /** Every removal candidate: pauses, then retakes, then garbage. */
  function Candidates(gaps: seq<Gap>, dupes: seq<Dupe>, garbage: seq<Garbage>, threshold: int): seq<Range> {
    SilenceRanges(gaps, threshold) + RetakeRanges(dupes) + GarbageRanges(garbage)
  }

  // ---------------------------------------------------------------------
  // The two merge passes
  // ---------------------------------------------------------------------

  /** Each range starts at least `d` after the previous one ends. */
  predicate Spaced(s: seq<Range>, d: int) {
    forall k :: 0 < k < |s| ==> s[k - 1].end + d <= s[k].start
  }

  predicate WellFormed(s: seq<Range>) {
    forall x :: x in s ==> x.start <= x.end
  }

  /** Every range lies within `[lo, hi]`. */
  predicate Within(s: seq<Range>, lo: int, hi: int) {
    forall x :: x in s ==> lo <= x.start && x.end <= hi
  }

  predicate Inside(x: Range, y: Range) {
    y.start <= x.start && x.end <= y.end
  }

  /** Every range of `a` lies inside some range of `b`. */
  predicate Dominates(a: seq<Range>, b: seq<Range>) {
    forall x :: x in a ==> exists y :: y in b && Inside(x, y)
  }

  /** One step of the first pass: a range starting no later than 1 s after
      the previous merged range's end is absorbed into it, extending it (and
      adding its notes) only when it ends later; otherwise it opens a new
      merged range. */
  function MergeOne(acc: seq<Range>, r: Range): (acc': seq<Range>)
    requires Spaced(acc, MergeSlack + 1)
    ensures Spaced(acc', MergeSlack + 1) && acc' != []
  {
    if acc != [] && r.start <= Last(acc).end + MergeSlack then
      var last := Last(acc);
      if r.end > last.end then acc[..|acc| - 1] + [Range(last.start, r.end, last.notes + r.notes)] else acc
    else acc + [r]
  }

  /** The first pass over `rest`, continuing from the merged ranges `acc`. */
  function MergeClose(acc: seq<Range>, rest: seq<Range>): (merged: seq<Range>)
    requires Spaced(acc, MergeSlack + 1)
    ensures Spaced(merged, MergeSlack + 1)
    decreases |rest|
  {
    if rest == [] then acc else MergeClose(MergeOne(acc, rest[0]), rest[1..])
  }

  /** One step of the second pass: a range starting less than 2 s after
      the previous one's end is joined to it, and the joined range ends
      where this one ends. */
  function BridgeOne(acc: seq<Range>, r: Range): (acc': seq<Range>)
    requires Spaced(acc, BridgeLimit)
    ensures Spaced(acc', BridgeLimit) && acc' != []
  {
    if acc != [] && r.start - Last(acc).end < BridgeLimit then
      var last := Last(acc);
      acc[..|acc| - 1] + [Range(last.start, r.end, last.notes + r.notes)]
    else acc + [r]
  }

  /** The second pass over `rest`, continuing from `acc`. */
  function BridgeGaps(acc: seq<Range>, rest: seq<Range>): (finals: seq<Range>)
    requires Spaced(acc, BridgeLimit)
    ensures Spaced(finals, BridgeLimit)
    decreases |rest|
  {
    if rest == [] then acc else BridgeGaps(BridgeOne(acc, rest[0]), rest[1..])
  }

  // ---------------------------------------------------------------------
  // The plan
  // ---------------------------------------------------------------------

  /** Each entry starts where the previous one ends. */
  predicate Contiguous(plan: seq<Entry>) {
    forall k :: 0 < k < |plan| ==> plan[k - 1].end == plan[k].start
  }

  /** KEEP and REMOVE alternate: no two REMOVEs (or KEEPs) are adjacent. */
  predicate Alternating(plan: seq<Entry>) {
    forall k :: 0 < k < |plan| ==> plan[k - 1].action != plan[k].action
  }

  /** Every KEEP lasts more than 0.5 s and has no notes; one between two
      REMOVEs lasts at least 2 s. */
  predicate KeepsLong(plan: seq<Entry>) {
    && (forall k :: 0 <= k < |plan| && plan[k].action == Keep ==>
          plan[k].end - plan[k].start > MinKeep && plan[k].notes == [])
    && (forall k :: 0 < k < |plan| - 1 && plan[k].action == Keep ==>
          plan[k].end - plan[k].start >= BridgeLimit)
  }

  predicate Shaped(plan: seq<Entry>) {
    Contiguous(plan) && Alternating(plan) && KeepsLong(plan)
  }

  function AsRemove(r: Range): Entry {
    Entry(Remove, r.start, r.end, r.notes)
  }

  /** The plan loop from position `pos`: a KEEP up to each removal that
      starts more than 0.5 s after `pos`, the removal itself, and a final
      KEEP up to `total` when more than 0.5 s is left. */
  function BuildFrom(removes: seq<Range>, pos: int, total: int): (plan: seq<Entry>)
    requires Spaced(removes, BridgeLimit)
    ensures Shaped(plan)
    ensures plan == [] <==> removes == [] && total - MinKeep <= pos
    ensures plan != [] ==>
      || (plan[0].action == Keep && plan[0].start == pos)
      || (plan[0].action == Remove && removes != [] && plan[0].start == removes[0].start <= pos + MinKeep)
    ensures plan != [] && plan[0].action == Keep && |plan| > 1 ==>
      removes != [] && plan[0].end == removes[0].start
    ensures plan != [] ==>
      || (Last(plan).action == Keep && Last(plan).end == total)
      || (Last(plan).action == Remove && total - MinKeep <= Last(plan).end)
    decreases |removes|
  {
    if removes == [] then
      if pos < total - MinKeep then [Entry(Keep, pos, total, [])] else []
    else
      var r := removes[0];
      var head := Head(r, pos);
      var tail := BuildFrom(removes[1..], r.end, total);
      BuildShape(head, tail, r, pos);
      head + tail
  }

  /** The entries the plan loop emits for removal `r` from position
      `pos`: a KEEP up to it when it starts more than 0.5 s later, then the
      REMOVE. */
  function Head(r: Range, pos: int): seq<Entry> {
    (if r.start > pos + MinKeep then [Entry(Keep, pos, r.start, [])] else []) + [AsRemove(r)]
  }

  /** One turn of the plan loop. */
  lemma BuildFromUnfold(removes: seq<Range>, pos: int, total: int)
    requires Spaced(removes, BridgeLimit) && removes != []
    ensures Spaced(removes[1..], BridgeLimit)
    ensures BuildFrom(removes, pos, total) == Head(removes[0], pos) + BuildFrom(removes[1..], removes[0].end, total)
  {
  }

  /** Gluing a KEEP-then-REMOVE head onto the plan built after it keeps
      the plan's shape. */
  lemma BuildShape(head: seq<Entry>, tail: seq<Entry>, r: Range, pos: int)
    requires head == Head(r, pos)
    requires Shaped(tail)
    requires tail != [] ==> tail[0].action == Keep && tail[0].start == r.end
    requires tail != [] && |tail| > 1 ==> tail[0].end - tail[0].start >= BridgeLimit
    ensures Shaped(head + tail)
  {
    HeadLinks(head, tail, r, pos);
    HeadKeepsLong(head, tail, r, pos);
  }

  /** The glued plan is contiguous and alternates. */
  lemma HeadLinks(head: seq<Entry>, tail: seq<Entry>, r: Range, pos: int)
    requires head == Head(r, pos)
    requires Contiguous(tail) && Alternating(tail)
    requires tail != [] ==> tail[0].action == Keep && tail[0].start == r.end
    ensures Contiguous(head + tail) && Alternating(head + tail)
  {
    var plan := head + tail;
    forall k | 0 < k < |plan| ensures plan[k - 1].end == plan[k].start && plan[k - 1].action != plan[k].action {
      if k >= |head| + 1 {
        assert plan[k - 1] == tail[k - 1 - |head|] && plan[k] == tail[k - |head|];
      } else if k == |head| {
        assert plan[k] == tail[0];
      }
    }
  }

  /** The glued plan's KEEPs are long enough. */
  lemma HeadKeepsLong(head: seq<Entry>, tail: seq<Entry>, r: Range, pos: int)
    requires head == Head(r, pos)
    requires KeepsLong(tail)
    requires tail != [] ==> tail[0].action == Keep
    requires tail != [] && |tail| > 1 ==> tail[0].end - tail[0].start >= BridgeLimit
    ensures KeepsLong(head + tail)
  {
    var plan := head + tail;
    forall k | 0 < k < |plan| - 1 && plan[k].action == Keep ensures plan[k].end - plan[k].start >= BridgeLimit {
      assert k >= |head|;
      assert plan[k] == tail[k - |head|];
    }
    forall k | 0 <= k < |plan| && plan[k].action == Keep
      ensures plan[k].end - plan[k].start > MinKeep && plan[k].notes == []
    {
      if k >= |head| {
        assert plan[k] == tail[k - |head|];
      }
    }
  }


  /** The final removals of `generate_edit_plan`, before the plan is built. */
  function FinalRemoves(cands: seq<Range>): (finals: seq<Range>)
    ensures Spaced(finals, BridgeLimit)
    ensures cands == [] ==> finals == []
  {
    var sorted := SortByStart(cands);
    assert cands == [] ==> sorted == [] by {
      if cands == [] { assert |sorted| == |multiset(sorted)| == 0; }
    }
    BridgeGaps([], MergeClose([], sorted))
  }

  /** `generate_edit_plan`. The timeline ends at the last segment's end. */
  function GenerateEditPlan(segs: seq<Segment>, gaps: seq<Gap>, dupes: seq<Dupe>,
                            garbage: seq<Garbage>, threshold: int): (plan: seq<Entry>)
    ensures Shaped(plan)
    ensures plan != [] ==>
      plan[0].start == 0 || (plan[0].action == Remove && plan[0].start <= MinKeep)
    ensures plan == [] ==> TotalDuration(segs) <= MinKeep
    ensures plan != [] ==>
      || Last(plan).end == TotalDuration(segs)
      || (Last(plan).action == Remove && TotalDuration(segs) - MinKeep <= Last(plan).end)
    ensures Candidates(gaps, dupes, garbage, threshold) == [] ==>
      plan == if TotalDuration(segs) > MinKeep then [Entry(Keep, 0, TotalDuration(segs), [])] else []
  {
    BuildFrom(FinalRemoves(Candidates(gaps, dupes, garbage, threshold)), 0, TotalDuration(segs))
  }

  // ---------------------------------------------------------------------
  // What the passes keep
  // ---------------------------------------------------------------------

  lemma DominatesTrans(a: seq<Range>, b: seq<Range>, c: seq<Range>)
    requires Dominates(a, b) && Dominates(b, c)
    ensures Dominates(a, c)
  {
    forall x | x in a ensures exists z :: z in c && Inside(x, z) {
      var y :| y in b && Inside(x, y);
      var z :| z in c && Inside(y, z);
    }
  }

  lemma DominatesSelf(a: seq<Range>)
    ensures Dominates(a, a)
  {
    forall x | x in a ensures exists y :: y in a && Inside(x, y) {
      assert Inside(x, x);
    }
  }

  /** Replacing the last range by one that contains it loses nothing. */
  lemma GrowLast(acc: seq<Range>, bigger: Range)
    requires acc != [] && Inside(Last(acc), bigger)
    ensures Dominates(acc, acc[..|acc| - 1] + [bigger])
  {
    var acc' := acc[..|acc| - 1] + [bigger];
    forall x | x in acc ensures exists y :: y in acc' && Inside(x, y) {
      var i :| 0 <= i < |acc| && acc[i] == x;
      if i < |acc| - 1 {
        assert acc'[i] == x && Inside(x, x);
      } else {
        assert acc'[i] == bigger && x == Last(acc);
      }
    }
  }

  /** Appending keeps every earlier range. */
  /** Spacing survives dropping the first range, and the first range ends
      well before the second starts. */
  lemma SpacedTail(s: seq<Range>, d: int)
    requires s != [] && Spaced(s, d)
    ensures Spaced(s[1..], d)
    ensures |s| > 1 ==> s[0].end + d <= s[1..][0].start
  {
    forall k | 0 < k < |s[1..]| ensures s[1..][k - 1].end + d <= s[1..][k].start {
      assert s[1..][k - 1] == s[k] && s[1..][k] == s[k + 1];
    }
  }

  /** A sequence is dominated once its head and its tail are. */
  lemma DominatesCons(a: seq<Range>, b: seq<Range>, y: Range)
    requires a != [] && y in b && Inside(a[0], y) && Dominates(a[1..], b)
    ensures Dominates(a, b)
  {
    forall x | x in a ensures exists z :: z in b && Inside(x, z) {
      if x != a[0] {
        assert x in a[1..];
      }
    }
  }

  lemma Append(acc: seq<Range>, r: Range)
    ensures Dominates(acc, acc + [r])
  {
    forall x | x in acc ensures exists y :: y in acc + [r] && Inside(x, y) {
      assert x in acc + [r] && Inside(x, x);
    }
  }

  /** One first-pass step keeps what was merged and takes in `r`: the
      last merged range then contains `r` and starts no later than it. */
  lemma MergeOneCovers(acc: seq<Range>, r: Range)
    requires Spaced(acc, MergeSlack + 1)
    requires WellFormed(acc) && r.start <= r.end
    requires acc != [] ==> Last(acc).start <= r.start
    ensures var acc' := MergeOne(acc, r);
      && WellFormed(acc') && Dominates(acc, acc')
      && Inside(r, Last(acc')) && Last(acc').start <= r.start
  {
    if acc != [] && r.start <= Last(acc).end + MergeSlack {
      MergeAbsorbs(acc, r);
    } else {
      MergeOpens(acc, r);
    }
  }

  /** A range close enough to the last merged one is absorbed into it. */
  lemma MergeAbsorbs(acc: seq<Range>, r: Range)
    requires Spaced(acc, MergeSlack + 1)
    requires WellFormed(acc) && r.start <= r.end
    requires acc != [] && Last(acc).start <= r.start && r.start <= Last(acc).end + MergeSlack
    ensures var acc' := MergeOne(acc, r);
      && WellFormed(acc') && Dominates(acc, acc')
      && Inside(r, Last(acc')) && Last(acc').start <= r.start
  {
    if r.end > Last(acc).end {
      MergeExtends(acc, r);
    } else {
      MergeKeeps(acc, r);
    }
  }

  /** An absorbed range that ends no later leaves the merged list as it is. */
  lemma MergeKeeps(acc: seq<Range>, r: Range)
    requires Spaced(acc, MergeSlack + 1)
    requires acc != [] && Last(acc).start <= r.start && r.start <= Last(acc).end + MergeSlack
    requires r.end <= Last(acc).end
    ensures MergeOne(acc, r) == acc && Dominates(acc, acc) && Inside(r, Last(acc))
  {
    DominatesSelf(acc);
  }

  /** An absorbed range that ends later stretches the last merged range. */
  lemma MergeExtends(acc: seq<Range>, r: Range)
    requires Spaced(acc, MergeSlack + 1)
    requires WellFormed(acc) && r.start <= r.end
    requires acc != [] && Last(acc).start <= r.start && r.start <= Last(acc).end + MergeSlack
    requires r.end > Last(acc).end
    ensures var acc' := MergeOne(acc, r);
      && WellFormed(acc') && Dominates(acc, acc')
      && Inside(r, Last(acc')) && Last(acc').start <= r.start
  {
    var last := Last(acc);
    var bigger := Range(last.start, r.end, last.notes + r.notes);
    assert MergeOne(acc, r) == acc[..|acc| - 1] + [bigger];
    ExtendLast(acc, bigger);
  }

  /** A range too far from the last merged one opens a new merged range. */
  lemma MergeOpens(acc: seq<Range>, r: Range)
    requires Spaced(acc, MergeSlack + 1)
    requires WellFormed(acc) && r.start <= r.end
    requires acc == [] || r.start > Last(acc).end + MergeSlack
    ensures var acc' := MergeOne(acc, r);
      && WellFormed(acc') && Dominates(acc, acc')
      && Inside(r, Last(acc')) && Last(acc').start <= r.start
  {
    assert MergeOne(acc, r) == acc + [r];
    assert Last(acc + [r]) == r;
    assert forall x :: x in acc + [r] ==> x in acc || x == r;
    Append(acc, r);
  }

  /** Replacing the last range by a well-formed one containing it keeps the
      list well-formed and loses nothing. */
  lemma ExtendLast(acc: seq<Range>, bigger: Range)
    requires acc != [] && WellFormed(acc) && Inside(Last(acc), bigger) && bigger.start <= bigger.end
    ensures var acc' := acc[..|acc| - 1] + [bigger];
      WellFormed(acc') && Dominates(acc, acc') && Last(acc') == bigger
  {
    var acc' := acc[..|acc| - 1] + [bigger];
    GrowLast(acc, bigger);
    forall x | x in acc' ensures x.start <= x.end {
      if x != bigger {
        assert x in acc[..|acc| - 1];
        assert x in acc;
      }
    }
  }

  /** Given ranges sorted by start, every input range and every range
      merged so far lies inside some range of the first pass's output. */
  lemma {:induction false} MergeCloseCovers(acc: seq<Range>, rest: seq<Range>)
    requires Spaced(acc, MergeSlack + 1)
    requires WellFormed(acc) && WellFormed(rest) && SortedByStart(rest)
    requires acc != [] && rest != [] ==> Last(acc).start <= rest[0].start
    ensures WellFormed(MergeClose(acc, rest))
    ensures Dominates(acc, MergeClose(acc, rest)) && Dominates(rest, MergeClose(acc, rest))
    decreases |rest|
  {
    var merged := MergeClose(acc, rest);
    if rest == [] {
      DominatesSelf(acc);
    } else {
      var r := rest[0];
      var acc' := MergeOne(acc, r);
      MergeOneCovers(acc, r);
      SortedTail(rest);
      MergeCloseCovers(acc', rest[1..]);
      assert merged == MergeClose(acc', rest[1..]);
      CoversStep(acc, acc', rest, merged);
    }
  }

  /** The tail of a sorted, well-formed list is too, and starts no
      earlier than the head. */
  lemma SortedTail(rest: seq<Range>)
    requires rest != [] && WellFormed(rest) && SortedByStart(rest)
    ensures WellFormed(rest[1..]) && SortedByStart(rest[1..])
    ensures rest[1..] != [] ==> rest[0].start <= rest[1..][0].start
  {
    assert forall x :: x in rest[1..] ==> x in rest;
    forall i, j | 0 <= i < j < |rest[1..]| ensures rest[1..][i].start <= rest[1..][j].start {
      assert rest[1..][i] == rest[i + 1] && rest[1..][j] == rest[j + 1];
    }
  }

  /** The head of `rest` went into the last range of `acc'`, so what
      dominates `acc'` and the tail of `rest` dominates `acc` and `rest`. */
  lemma CoversStep(acc: seq<Range>, acc': seq<Range>, rest: seq<Range>, merged: seq<Range>)
    requires rest != [] && acc' != []
    requires Dominates(acc, acc') && Inside(rest[0], Last(acc'))
    requires Dominates(acc', merged) && Dominates(rest[1..], merged)
    ensures Dominates(acc, merged) && Dominates(rest, merged)
  {
    DominatesTrans(acc, acc', merged);
    assert Last(acc') in acc';
    var y :| y in merged && Inside(Last(acc'), y);
    DominatesCons(rest, merged, y);
  }

  /** The first pass keeps every range within bounds that its inputs keep. */
  lemma {:induction false} MergeCloseWithin(acc: seq<Range>, rest: seq<Range>, lo: int, hi: int)
    requires Spaced(acc, MergeSlack + 1)
    requires Within(acc, lo, hi) && Within(rest, lo, hi)
    ensures Within(MergeClose(acc, rest), lo, hi)
    decreases |rest|
  {
    if rest != [] {
      var acc' := MergeOne(acc, rest[0]);
      assert forall x :: x in rest[1..] ==> x in rest;
      assert forall x :: x in acc' ==>
        x in acc || x == rest[0] || (acc != [] && x.start == Last(acc).start && x.end == rest[0].end)
      by {
        if acc != [] && rest[0].start <= Last(acc).end + MergeSlack && rest[0].end > Last(acc).end {
          assert forall x :: x in acc[..|acc| - 1] ==> x in acc;
        }
      }
      MergeCloseWithin(acc', rest[1..], lo, hi);
    }
  }

  /** One second-pass step keeps what was joined and takes in `r`, which
      starts after the last joined range ends. */
  lemma BridgeOneCovers(acc: seq<Range>, r: Range)
    requires Spaced(acc, BridgeLimit)
    requires WellFormed(acc) && r.start <= r.end
    requires acc != [] ==> Last(acc).end < r.start
    ensures var acc' := BridgeOne(acc, r);
      && WellFormed(acc') && Dominates(acc, acc')
      && Inside(r, Last(acc')) && Last(acc').end == r.end
  {
    if acc != [] && r.start - Last(acc).end < BridgeLimit {
      ExtendLast(acc, Range(Last(acc).start, r.end, Last(acc).notes + r.notes));
    } else {
      Append(acc, r);
    }
  }

  /** Given the first pass's output, every range of it and every range
      joined so far lies inside some range of the second pass's output. */
  lemma {:induction false} BridgeGapsCovers(acc: seq<Range>, rest: seq<Range>)
    requires Spaced(acc, BridgeLimit) && Spaced(rest, MergeSlack + 1)
    requires WellFormed(acc) && WellFormed(rest)
    requires acc != [] && rest != [] ==> Last(acc).end < rest[0].start
    ensures WellFormed(BridgeGaps(acc, rest))
    ensures Dominates(acc, BridgeGaps(acc, rest)) && Dominates(rest, BridgeGaps(acc, rest))
    decreases |rest|
  {
    var finals := BridgeGaps(acc, rest);
    if rest == [] {
      DominatesSelf(acc);
    } else {
      var r := rest[0];
      var tail := rest[1..];
      var acc' := BridgeOne(acc, r);
      assert finals == BridgeGaps(acc', tail);
      BridgeOneCovers(acc, r);
      assert WellFormed(tail) by {
        assert forall x :: x in tail ==> x in rest;
      }
      SpacedTail(rest, MergeSlack + 1);
      assert tail != [] ==> Last(acc').end < tail[0].start;
      BridgeGapsCovers(acc', tail);
      DominatesTrans(acc, acc', finals);
      assert Last(acc') in acc';
      var y :| y in finals && Inside(Last(acc'), y);
      DominatesCons(rest, finals, y);
    }
  }

  /** The second pass keeps every range within bounds that its inputs keep. */
  lemma {:induction false} BridgeGapsWithin(acc: seq<Range>, rest: seq<Range>, lo: int, hi: int)
    requires Spaced(acc, BridgeLimit)
    requires Within(acc, lo, hi) && Within(rest, lo, hi)
    ensures Within(BridgeGaps(acc, rest), lo, hi)
    decreases |rest|
  {
    if rest != [] {
      var acc' := BridgeOne(acc, rest[0]);
      assert forall x :: x in rest[1..] ==> x in rest;
      assert forall x :: x in acc' ==>
        x in acc || x == rest[0] || (acc != [] && x.start == Last(acc).start && x.end == rest[0].end)
      by {
        if acc != [] && rest[0].start - Last(acc).end < BridgeLimit {
          assert forall x :: x in acc[..|acc| - 1] ==> x in acc;
        }
      }
      BridgeGapsWithin(acc', rest[1..], lo, hi);
    }
  }

  /** Every removal becomes a REMOVE entry of the plan, unchanged. */
  lemma {:induction false} BuildFromRemoves(removes: seq<Range>, pos: int, total: int)
    requires Spaced(removes, BridgeLimit)
    ensures forall r :: r in removes ==> AsRemove(r) in BuildFrom(removes, pos, total)
    decreases |removes|
  {
    if removes != [] {
      var r := removes[0];
      BuildFromRemoves(removes[1..], r.end, total);
      assert forall x :: x in removes ==> x == r || x in removes[1..];
    }
  }

  /** Every REMOVE entry of the plan is one of the removals. */
  lemma {:induction false} BuildFromOnlyRemoves(removes: seq<Range>, pos: int, total: int)
    requires Spaced(removes, BridgeLimit)
    ensures forall e :: e in BuildFrom(removes, pos, total) && e.action == Remove ==>
      exists r :: r in removes && e == AsRemove(r)
    decreases |removes|
  {
    if removes != [] {
      var r := removes[0];
      BuildFromOnlyRemoves(removes[1..], r.end, total);
      BuildFromUnfold(removes, pos, total);
      var tail := BuildFrom(removes[1..], r.end, total);
      forall e | e in Head(r, pos) + tail && e.action == Remove
        ensures exists x :: x in removes && e == AsRemove(x)
      {
        if e in tail {
          var x :| x in removes[1..] && e == AsRemove(x);
          assert x in removes;
        } else {
          assert e in Head(r, pos);
          assert r in removes;
        }
      }
    }
  }

  /** With removals inside `[0, total]` and a start position at or after 0,
      every entry runs forwards within `[0, total]`. */
  lemma {:induction false} BuildFromWithin(removes: seq<Range>, pos: int, total: int)
    requires Spaced(removes, BridgeLimit)
    requires WellFormed(removes) && Within(removes, 0, total) && 0 <= pos
    ensures forall e :: e in BuildFrom(removes, pos, total) ==> 0 <= e.start <= e.end <= total
    decreases |removes|
  {
    if removes != [] {
      var r := removes[0];
      assert r in removes;
      assert forall x :: x in removes[1..] ==> x in removes;
      BuildFromWithin(removes[1..], r.end, total);
      BuildFromUnfold(removes, pos, total);
      var tail := BuildFrom(removes[1..], r.end, total);
      HeadWithin(r, pos, total);
      forall e | e in Head(r, pos) + tail ensures 0 <= e.start <= e.end <= total {
        assert e in Head(r, pos) || e in tail;
      }
    }
  }

  /** The entries for one removal stay within the timeline. */
  lemma HeadWithin(r: Range, pos: int, total: int)
    requires 0 <= pos && 0 <= r.start <= r.end <= total
    ensures forall e :: e in Head(r, pos) ==> 0 <= e.start <= e.end <= total
  {
  }

  /** A contiguous plan covers every instant from its first start to its
      last end. */
  lemma {:induction false} ContiguousCovers(plan: seq<Entry>, t: int)
    requires Contiguous(plan) && plan != [] && plan[0].start <= t < Last(plan).end
    ensures exists k :: 0 <= k < |plan| && plan[k].start <= t < plan[k].end
  {
    if t >= plan[0].end {
      assert |plan| > 1;
      ContiguousCovers(plan[1..], t);
      var k :| 0 <= k < |plan[1..]| && plan[1..][k].start <= t < plan[1..][k].end;
      assert plan[k + 1] == plan[1..][k];
    }
  }

  /** The final removals contain every well-formed candidate and stay
      within any bounds the candidates keep. */
  lemma FinalRemovesCover(cands: seq<Range>, lo: int, hi: int)
    requires WellFormed(cands)
    ensures WellFormed(FinalRemoves(cands)) && Dominates(cands, FinalRemoves(cands))
    ensures Within(cands, lo, hi) ==> Within(FinalRemoves(cands), lo, hi)
  {
    var sorted := SortByStart(cands);
    assert forall x :: x in sorted <==> x in cands by {
      forall x ensures x in sorted <==> x in cands {
        assert x in sorted <==> x in multiset(sorted);
        assert x in cands <==> x in multiset(cands);
      }
    }
    MergeCloseCovers([], sorted);
    var merged := MergeClose([], sorted);
    BridgeGapsCovers([], merged);
    DominatesTrans(sorted, merged, FinalRemoves(cands));
    if Within(cands, lo, hi) {
      MergeCloseWithin([], sorted, lo, hi);
      BridgeGapsWithin([], merged, lo, hi);
    }
  }

  /** Every well-formed candidate lies inside some REMOVE entry. */
  lemma PlanRemovesCandidates(segs: seq<Segment>, gaps: seq<Gap>, dupes: seq<Dupe>,
                              garbage: seq<Garbage>, threshold: int)
    requires WellFormed(Candidates(gaps, dupes, garbage, threshold))
    ensures var plan := GenerateEditPlan(segs, gaps, dupes, garbage, threshold);
      forall c :: c in Candidates(gaps, dupes, garbage, threshold) ==>
        exists e :: e in plan && e.action == Remove && e.start <= c.start && c.end <= e.end
  {
    var cands := Candidates(gaps, dupes, garbage, threshold);
    var finals := FinalRemoves(cands);
    var plan := GenerateEditPlan(segs, gaps, dupes, garbage, threshold);
    FinalRemovesCover(cands, 0, 0);
    BuildFromRemoves(finals, 0, TotalDuration(segs));
    forall c | c in cands
      ensures exists e :: e in plan && e.action == Remove && e.start <= c.start && c.end <= e.end
    {
      var f :| f in finals && Inside(c, f);
      assert AsRemove(f) in plan;
    }
  }

  /** With every candidate inside `[0, total]`, the plan runs forwards
      within the timeline and misses at most 0.5 s at either end: every
      instant from 0.5 s to 0.5 s before the end is in some entry. */
  lemma PlanCoversTimeline(segs: seq<Segment>, gaps: seq<Gap>, dupes: seq<Dupe>,
                           garbage: seq<Garbage>, threshold: int, t: int)
    requires var cands := Candidates(gaps, dupes, garbage, threshold);
      WellFormed(cands) && Within(cands, 0, TotalDuration(segs))
    ensures var plan := GenerateEditPlan(segs, gaps, dupes, garbage, threshold);
      && (forall e :: e in plan ==> 0 <= e.start <= e.end <= TotalDuration(segs))
      && (plan != [] ==> plan[0].start <= MinKeep && TotalDuration(segs) - MinKeep <= Last(plan).end)
      && (MinKeep <= t < TotalDuration(segs) - MinKeep ==>
            exists k :: 0 <= k < |plan| && plan[k].start <= t < plan[k].end)
  {
    var cands := Candidates(gaps, dupes, garbage, threshold);
    var total := TotalDuration(segs);
    var finals := FinalRemoves(cands);
    var plan := GenerateEditPlan(segs, gaps, dupes, garbage, threshold);
    FinalRemovesCover(cands, 0, total);
    BuildFromWithin(finals, 0, total);
    if plan != [] {
      assert Last(plan) in plan;
      if MinKeep <= t < total - MinKeep {
        ContiguousCovers(plan, t);
      }
    }
  }

  /** The analysis of a non-overlapping transcript hands the planner
      forward-running candidates that lie within the timeline, so the
      statements above apply to the whole analyze-then-plan pipeline. */
  lemma AnalysisCandidatesFit(segs: seq<Segment>, minGap: int, minChars: nat, threshold: int)
    requires NonOverlapping(segs)
    ensures var cands := Candidates(FindSilenceGaps(segs, minGap), FindDuplicates(segs, minChars),
                                    FindGarbage(segs), threshold);
      WellFormed(cands) && Within(cands, 0, TotalDuration(segs))
  {
    var a := SilenceRanges(FindSilenceGaps(segs, minGap), threshold);
    var b := RetakeRanges(FindDuplicates(segs, minChars));
    var c := GarbageRanges(FindGarbage(segs));
    SilenceRangesFit(segs, FindSilenceGaps(segs, minGap), threshold);
    RetakeRangesFit(segs, FindDuplicates(segs, minChars));
    GarbageRangesFit(segs);
    assert forall x :: x in a + b + c ==> x in a || x in b || x in c;
  }

  /** Each pause runs from one segment's end to the next one's start. */
  lemma SilenceRangesFit(segs: seq<Segment>, gaps: seq<Gap>, threshold: int)
    requires NonOverlapping(segs)
    requires forall k :: 0 <= k < |gaps| ==> 0 < gaps[k].afterSeg < |segs| && DescribesGap(gaps[k], segs, gaps[k].afterSeg)
    ensures forall x :: x in SilenceRanges(gaps, threshold) ==> 0 <= x.start <= x.end <= TotalDuration(segs)
  {
    forall x | x in SilenceRanges(gaps, threshold) ensures 0 <= x.start <= x.end <= TotalDuration(segs) {
      var g :| g in gaps && g.duration >= threshold && x == SilenceRange(g);
      var k :| 0 <= k < |gaps| && gaps[k] == g;
      EndsWithinTotal(segs, g.afterSeg - 1);
      EndsWithinTotal(segs, g.afterSeg);
    }
  }

  /** Each retake removal is one of the transcript's segments. */
  lemma RetakeRangesFit(segs: seq<Segment>, dupes: seq<Dupe>)
    requires NonOverlapping(segs)
    requires forall k :: 0 <= k < |dupes| ==>
      0 <= dupes[k].firstSeg < dupes[k].secondSeg < |segs| && DescribesDupe(dupes[k], segs, dupes[k].firstSeg, dupes[k].secondSeg)
    ensures forall x :: x in RetakeRanges(dupes) ==> 0 <= x.start <= x.end <= TotalDuration(segs)
  {
    forall x | x in RetakeRanges(dupes) ensures 0 <= x.start <= x.end <= TotalDuration(segs) {
      var d :| d in dupes && (x == FirstTake(d) || x == SecondTake(d));
      var k :| 0 <= k < |dupes| && dupes[k] == d;
      DupeFits(segs, d);
    }
  }

  /** Both takes of a retake record lie within the timeline. */
  lemma DupeFits(segs: seq<Segment>, d: Dupe)
    requires NonOverlapping(segs)
    requires 0 <= d.firstSeg < d.secondSeg < |segs| && DescribesDupe(d, segs, d.firstSeg, d.secondSeg)
    ensures 0 <= d.firstStart <= d.firstEnd <= TotalDuration(segs)
    ensures 0 <= d.secondStart <= d.secondEnd <= TotalDuration(segs)
  {
    EndsWithinTotal(segs, d.firstSeg);
    EndsWithinTotal(segs, d.secondSeg);
  }

  /** Each garbage removal is one of the transcript's segments. */
  lemma GarbageRangesFit(segs: seq<Segment>)
    requires NonOverlapping(segs)
    ensures forall x :: x in GarbageRanges(FindGarbage(segs)) ==>
      0 <= x.start <= x.end <= TotalDuration(segs)
  {
    var garbage := FindGarbage(segs);
    var rs := GarbageRanges(garbage);
    forall x | x in rs ensures 0 <= x.start <= x.end <= TotalDuration(segs) {
      var k :| 0 <= k < |rs| && rs[k] == x;
      EndsWithinTotal(segs, garbage[k].seg);
    }
  }

  /** The merge example of the design: removals at 2-4 s and 4.5-6 s in a
      10 s recording become one REMOVE between two KEEPs. */
  lemma MergeExample()
    ensures var segs := [Segment(0, 1000, "")];
      var gaps := [Gap(200, 400, 200, 0, 1, "", ""), Gap(450, 600, 150, 1, 2, "", "")];
      GenerateEditPlan(segs, gaps, [], [], 100) ==
        [ Entry(Keep, 0, 200, []),
          Entry(Remove, 200, 600, [SilenceNote(200), SilenceNote(150)]),
          Entry(Keep, 600, 1000, []) ]
  {
    var gaps := [Gap(200, 400, 200, 0, 1, "", ""), Gap(450, 600, 150, 1, 2, "", "")];
    var segs := [Segment(0, 1000, "")];
    var ab := Range(200, 600, [SilenceNote(200), SilenceNote(150)]);
    MergeExampleCandidates(gaps);
    MergeExampleFinals();
    assert TotalDuration(segs) == 1000;
    MergeExampleBuild(ab);
  }

  lemma MergeExampleBuild(ab: Range)
    requires ab == Range(200, 600, [SilenceNote(200), SilenceNote(150)])
    ensures BuildFrom([ab], 0, 1000) ==
        [ Entry(Keep, 0, 200, []),
          Entry(Remove, 200, 600, [SilenceNote(200), SilenceNote(150)]),
          Entry(Keep, 600, 1000, []) ]
  {
    assert BuildFrom([ab][1..], 600, 1000) == [Entry(Keep, 600, 1000, [])];
  }

  /** The example's two pauses are both candidates, in order. */
  lemma MergeExampleCandidates(gaps: seq<Gap>)
    requires gaps == [Gap(200, 400, 200, 0, 1, "", ""), Gap(450, 600, 150, 1, 2, "", "")]
    ensures Candidates(gaps, [], [], 100) == [Range(200, 400, [SilenceNote(200)]), Range(450, 600, [SilenceNote(150)])]
  {
    assert SilenceRanges(gaps[1..], 100) == [Range(450, 600, [SilenceNote(150)])];
  }

  /** The example's two candidates merge into one removal. */
  lemma MergeExampleFinals()
    ensures FinalRemoves([Range(200, 400, [SilenceNote(200)]), Range(450, 600, [SilenceNote(150)])])
         == [Range(200, 600, [SilenceNote(200), SilenceNote(150)])]
  {
    var a := Range(200, 400, [SilenceNote(200)]);
    var b := Range(450, 600, [SilenceNote(150)]);
    var ab := Range(200, 600, [SilenceNote(200), SilenceNote(150)]);
    SortTwo(a, b);
    MergeExampleClose(a, b, ab);
    assert BridgeGaps([], [ab]) == [ab];
  }

  /** Two ranges already in start order stay as they are. */
  lemma SortTwo(a: Range, b: Range)
    requires a.start <= b.start
    ensures SortByStart([a, b]) == [a, b]
  {
    assert [a, b][1..] == [b] && [b][1..] == [];
    assert SortByStart([b]) == [b];
  }

  lemma MergeExampleClose(a: Range, b: Range, ab: Range)
    requires a == Range(200, 400, [SilenceNote(200)]) && b == Range(450, 600, [SilenceNote(150)])
    requires ab == Range(200, 600, [SilenceNote(200), SilenceNote(150)])
    ensures MergeClose([], [a, b]) == [ab]
  {
    assert MergeOne([], a) == [a];
    assert Last([a]) == a && [a][..0] == [];
    assert a.notes + b.notes == ab.notes;
    assert MergeOne([a], b) == [ab];
    assert [a, b][1..] == [b] && [b][1..] == [];
    assert MergeClose([ab], []) == [ab];
    assert MergeClose([a], [b]) == [ab];
  }

  /** A removal starting within 0.5 s of the beginning is not preceded by
      a KEEP, so the plan starts with a REMOVE and leaves the sliver before
      it outside every entry. */
  lemma LeadingSliverExample()
    ensures var segs := [Segment(0, 1000, "")];
      var garbage := [Garbage(0, 30, 100, 70, "", EmptyText)];
      GenerateEditPlan(segs, [], [], garbage, 1000) ==
        [ Entry(Remove, 30, 100, [GarbageNote(EmptyText)]),
          Entry(Keep, 100, 1000, []) ]
  {
    var garbage := [Garbage(0, 30, 100, 70, "", EmptyText)];
    var r := Range(30, 100, [GarbageNote(EmptyText)]);
    SliverCandidates(garbage, r);
    SingleFinal(r);
    assert TotalDuration([Segment(0, 1000, "")]) == 1000;
    SliverBuild(r);
  }

  /** The example's only candidate is its garbage line. */
  lemma SliverCandidates(garbage: seq<Garbage>, r: Range)
    requires garbage == [Garbage(0, 30, 100, 70, "", EmptyText)] && r == Range(30, 100, [GarbageNote(EmptyText)])
    ensures Candidates([], [], garbage, 1000) == [r]
  {
    assert GarbageRanges(garbage[1..]) == [];
  }

  /** A removal 0.3 s in gets no KEEP before it. */
  lemma SliverBuild(r: Range)
    requires r == Range(30, 100, [GarbageNote(EmptyText)])
    ensures BuildFrom([r], 0, 1000) == [Entry(Remove, 30, 100, [GarbageNote(EmptyText)]), Entry(Keep, 100, 1000, [])]
  {
    assert BuildFrom([r][1..], 100, 1000) == [Entry(Keep, 100, 1000, [])];
  }

  /** A single candidate is the single final removal. */
  lemma SingleFinal(r: Range)
    ensures FinalRemoves([r]) == [r]
  {
    SortOne(r);
    assert MergeClose([], [r]) == [r] by {
      assert [] + [r] == [r];
      assert MergeOne([], r) == [r];
      assert [r][1..] == [];
    }
    assert BridgeGaps([], [r]) == [r] by {
      assert [] + [r] == [r];
      assert BridgeOne([], r) == [r];
      assert [r][1..] == [];
    }
  }

  lemma SortOne(r: Range)
    ensures SortByStart([r]) == [r]
  {
    assert [r][1..] == [];
    assert SortByStart([]) == [];
    assert InsertByStart(r, []) == [r];
  }
}