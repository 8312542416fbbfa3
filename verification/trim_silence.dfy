/** `cmd_trim_silence`: the list of stretches of a narrated video to keep
    when every pause after a line is capped. Times are in centiseconds. */
module TrimSilence {

  import opened Base
  import opened SilenceCap
  import opened TtsPrepare

  /** How the cap after each line is chosen. */
  datatype Mode = Dynamic(caps: Caps) | Fixed(cap: int)

  /** A stretch `[start, end]` of the original video to keep. */
  datatype Span = Span(start: int, end: int)

  /** The spoken length of each line: the measured length of its audio file
      when one exists, else the duration stored with the segment. */
  function SpokenDurations(segs: seq<Mapped>, measured: seq<Option<int>>): (durs: seq<int>)
    requires |measured| == |segs|
    ensures |durs| == |segs|
    ensures forall i :: 0 <= i < |segs| ==>
      (measured[i].Some? ==> durs[i] == measured[i].value) && (measured[i].None? ==> durs[i] == segs[i].duration)
  {
    seq(|segs|, i requires 0 <= i < |segs| => measured[i].GetOr(segs[i].duration))
  }

  /** Where line `i`'s speech ends. */
  function SpeechEnd(segs: seq<Mapped>, durs: seq<int>, i: nat): int
    requires |durs| == |segs| && i < |segs|
  {
    segs[i].start + durs[i]
  }

  /** How line `text` is classified: by its ending in dynamic mode; in
      fixed mode every line gets the fixed cap (its reason is never
      recorded). */
  function LineClass(text: string, mode: Mode): Classification {
    match mode
    case Dynamic(byEnding) => ClassifyEnding(text, byEnding)
    case Fixed(c) => Classification(c, Other)
  }

  /** The classification of every line, in line order. */
  function Classes(segs: seq<Mapped>, mode: Mode): (cs: seq<Classification>)
    ensures |cs| == |segs|
  {
    if segs == [] then [] else Classes(segs[..|segs| - 1], mode) + [LineClass(Last(segs).text, mode)]
  }

  /** Entry `i` of the classification is line `i`'s own. */
  lemma {:induction false} ClassesAt(segs: seq<Mapped>, mode: Mode, i: nat)
    requires i < |segs|
    ensures Classes(segs, mode)[i] == LineClass(segs[i].text, mode)
  {
    if i < |segs| - 1 {
      var init := segs[..|segs| - 1];
      ClassesAt(init, mode, i);
      assert init[i] == segs[i];
    }
  }

  /** The cap after every line, in line order. */
  function CapsOf(cs: seq<Classification>): (caps: seq<int>)
    ensures |caps| == |cs|
    ensures forall i :: 0 <= i < |cs| ==> caps[i] == cs[i].cap
  {
    seq(|cs|, i requires 0 <= i < |cs| => cs[i].cap)
  }

  /** The pause after line `i` is cut: there is a next line and the silence
      before it is longer than the cap. */
  predicate CutAfter(segs: seq<Mapped>, durs: seq<int>, caps: seq<int>, i: nat)
    requires |durs| == |segs| == |caps|
  {
    i + 1 < |segs| && segs[i + 1].start - SpeechEnd(segs, durs, i) > caps[i]
  }

  /** The lines before `i` whose pause is cut, in order. */
  function CutsBefore(segs: seq<Mapped>, durs: seq<int>, caps: seq<int>, i: nat): (idx: seq<nat>)
    requires |durs| == |segs| == |caps| && i <= |segs|
    ensures forall k :: 0 <= k < |idx| ==> idx[k] < i && CutAfter(segs, durs, caps, idx[k])
  {
    if i == 0 then []
    else CutsBefore(segs, durs, caps, i - 1) + (if CutAfter(segs, durs, caps, i - 1) then [i - 1] else [])
  }

  /** The cut list holds every cut line before `i`, in increasing order. */
  lemma {:induction false} CutsBeforeSpec(segs: seq<Mapped>, durs: seq<int>, caps: seq<int>, i: nat)
    requires |durs| == |segs| == |caps| && i <= |segs|
    ensures var idx := CutsBefore(segs, durs, caps, i);
      && (forall j :: 0 <= j < i && CutAfter(segs, durs, caps, j) ==> j in idx)
      && (forall k, k' :: 0 <= k < k' < |idx| ==> idx[k] < idx[k'])
  {
    if i > 0 {
      CutsBeforeSpec(segs, durs, caps, i - 1);
    }
  }

  /** Cut lines always have a next line. */
  predicate CutsValid(segs: seq<Mapped>, idx: seq<nat>) {
    forall j :: 0 <= j < |idx| ==> idx[j] + 1 < |segs|
  }

  /** Where the keep after the cuts `idx` starts: 0 before any cut, else
      the start of the line after the last cut. */
  function StartAfter(segs: seq<Mapped>, idx: seq<nat>): int
    requires CutsValid(segs, idx)
  {
    if idx == [] then 0 else segs[Last(idx) + 1].start
  }

  /** The keeps closed by the cuts `idx`: each runs from where the previous
      cut resumed to the capped end of the cut line's speech. */
  function ClosedKeeps(segs: seq<Mapped>, durs: seq<int>, caps: seq<int>, idx: seq<nat>): (keeps: seq<Span>)
    requires |durs| == |segs| == |caps| && CutsValid(segs, idx)
    ensures |keeps| == |idx|
  {
    if idx == [] then []
    else
      var init := idx[..|idx| - 1];
      ClosedKeeps(segs, durs, caps, init)
        + [Span(StartAfter(segs, init), SpeechEnd(segs, durs, Last(idx)) + caps[Last(idx)])]
  }

  /** The silence removed at a cut after line `i`: the pause less the cap. */
  function RemovedAt(segs: seq<Mapped>, durs: seq<int>, caps: seq<int>, i: nat): int
    requires |durs| == |segs| == |caps| && i + 1 < |segs|
  {
    segs[i + 1].start - (SpeechEnd(segs, durs, i) + caps[i])
  }

  function RemovedTotal(segs: seq<Mapped>, durs: seq<int>, caps: seq<int>, idx: seq<nat>): int
    requires |durs| == |segs| == |caps| && CutsValid(segs, idx)
  {
    if idx == [] then 0
    else RemovedTotal(segs, durs, caps, idx[..|idx| - 1]) + RemovedAt(segs, durs, caps, Last(idx))
  }

  /** The reasons recorded in the statistics for lines before `i`: one per
      line that has a next line, and only in dynamic mode. */
  function ReasonsBefore(cs: seq<Classification>, dynamic: bool, i: nat): multiset<Reason>
    requires i <= |cs|
  {
    if i == 0 || !dynamic then multiset{}
    else
      ReasonsBefore(cs, dynamic, i - 1)
      + (if i < |cs| then multiset{cs[i - 1].reason} else multiset{})
  }

  function SumLengths(spans: seq<Span>): int {
    if spans == [] then 0 else SumLengths(spans[..|spans| - 1]) + (Last(spans).end - Last(spans).start)
  }

  /** The keeps closed so far measure where the open keep starts less the
      silence removed: the removed pauses are exactly the holes between them. */
  lemma {:induction false} ClosedKeepsLength(segs: seq<Mapped>, durs: seq<int>, caps: seq<int>, idx: seq<nat>)
    requires |durs| == |segs| == |caps| && CutsValid(segs, idx)
    ensures SumLengths(ClosedKeeps(segs, durs, caps, idx)) == StartAfter(segs, idx) - RemovedTotal(segs, durs, caps, idx)
  {
    if idx != [] {
      var init := idx[..|idx| - 1];
      ClosedKeepsLength(segs, durs, caps, init);
      var keeps := ClosedKeeps(segs, durs, caps, idx);
      assert keeps[..|keeps| - 1] == ClosedKeeps(segs, durs, caps, init);
    }
  }

  /** Keep `k` of the closed keeps, read off the cut list directly. */
  lemma {:induction false} ClosedKeepsAt(segs: seq<Mapped>, durs: seq<int>, caps: seq<int>, idx: seq<nat>, k: nat)
    requires |durs| == |segs| == |caps| && CutsValid(segs, idx) && k < |idx|
    ensures ClosedKeeps(segs, durs, caps, idx)[k] ==
      Span(if k == 0 then 0 else segs[idx[k - 1] + 1].start, SpeechEnd(segs, durs, idx[k]) + caps[idx[k]])
  {
    var init := idx[..|idx| - 1];
    if k < |idx| - 1 {
      ClosedKeepsAt(segs, durs, caps, init, k);
    } else if k > 0 {
      assert Last(init) == idx[k - 1];
    }
  }

  /** One more cut closes one more keep, moves the resume point to the line
      after it, and adds its removed silence. */
  lemma AppendCut(segs: seq<Mapped>, durs: seq<int>, caps: seq<int>, idx: seq<nat>, i: nat)
    requires |durs| == |segs| == |caps| && CutsValid(segs, idx) && i + 1 < |segs|
    ensures CutsValid(segs, idx + [i])
    ensures ClosedKeeps(segs, durs, caps, idx + [i]) ==
      ClosedKeeps(segs, durs, caps, idx) + [Span(StartAfter(segs, idx), SpeechEnd(segs, durs, i) + caps[i])]
    ensures StartAfter(segs, idx + [i]) == segs[i + 1].start
    ensures RemovedTotal(segs, durs, caps, idx + [i]) ==
      RemovedTotal(segs, durs, caps, idx) + RemovedAt(segs, durs, caps, i)
  {
    assert (idx + [i])[..|idx|] == idx;
  }

  /** One line further, the cut list grows by that line exactly when its
      pause is cut. */
  lemma CutsStep(segs: seq<Mapped>, durs: seq<int>, caps: seq<int>, i: nat)
    requires |durs| == |segs| == |caps| && i < |segs|
    ensures CutsBefore(segs, durs, caps, i + 1)
      == CutsBefore(segs, durs, caps, i) + (if CutAfter(segs, durs, caps, i) then [i] else [])
  {
  }

  /** One line further, the statistics grow by that line's reason exactly
      in dynamic mode when another line follows. */
  lemma ReasonsStep(cs: seq<Classification>, dynamic: bool, i: nat)
    requires i < |cs|
    ensures ReasonsBefore(cs, dynamic, i + 1)
      == ReasonsBefore(cs, dynamic, i) + (if dynamic && i + 1 < |cs| then multiset{cs[i].reason} else multiset{})
  {
  }

  /** The result of the keep-list loop. */
  datatype Trim = Trim(keeps: seq<Span>, totalRemoved: int, cuts: nat, stats: multiset<Reason>)

  /** The keep-list loop of `cmd_trim_silence`. The classifier is pure, so
      the loop reads each line's classification from `classes`, which holds
      exactly what it would compute for that line. */
  method BuildKeeps(segs: seq<Mapped>, durs: seq<int>, mode: Mode, classes: seq<Classification>, videoDur: int)
    returns (r: Trim)
    requires |durs| == |segs| == |classes|
    requires mode.Fixed? ==> forall i :: 0 <= i < |classes| ==> classes[i].cap == mode.cap
    ensures segs == [] ==> r.keeps == [] && r.cuts == 0 && r.totalRemoved == 0
    ensures var caps := CapsOf(classes); var idx := CutsBefore(segs, durs, caps, |segs|);
      segs != [] ==>
        && r.cuts == |idx| && |r.keeps| == r.cuts + 1
        && r.keeps == ClosedKeeps(segs, durs, caps, idx) + [Span(StartAfter(segs, idx), videoDur)]
        && r.totalRemoved == RemovedTotal(segs, durs, caps, idx)
        && SumLengths(r.keeps) == videoDur - r.totalRemoved
    ensures r.stats == ReasonsBefore(classes, mode.Dynamic?, |segs|)
  {
    var acc := KeepAcc(0, [], 0, 0, multiset{});
    var i := 0;
    ghost var idx: seq<nat> := [];
    while i < |segs|
      invariant 0 <= i <= |segs|
      invariant LoopState(segs, durs, CapsOf(classes), videoDur, i, idx, acc)
      invariant acc.stats == ReasonsBefore(classes, mode.Dynamic?, i)
    {
      acc, idx := KeepStep(segs, durs, mode, classes, videoDur, i, idx, acc);
      i := i + 1;
    }
    LoopDone(segs, durs, CapsOf(classes), videoDur, idx, acc);
    r := Trim(acc.keeps, acc.totalRemoved, acc.cuts, acc.stats);
  }

  /** The variables of the keep-list loop: where the open keep starts, the
      keeps closed so far, the silence removed, the number of cuts and the
      reason statistics. */
  datatype KeepAcc = KeepAcc(keepStart: int, keeps: seq<Span>, totalRemoved: int, cuts: nat, stats: multiset<Reason>)

  /** One pass of the loop body, for line `i`: in dynamic mode the line's
      class gives the cap and its reason is counted (not after the last
      line); a pause longer than the cap closes the open keep at the capped
      end of the speech and opens the next one at the next line; the last
      line closes the open keep at the end of the video. */
  method KeepStep(segs: seq<Mapped>, durs: seq<int>, mode: Mode, classes: seq<Classification>, videoDur: int,
                  i: nat, ghost idx: seq<nat>, acc: KeepAcc)
    returns (acc': KeepAcc, ghost idx': seq<nat>)
    requires |durs| == |segs| == |classes| && i < |segs|
    requires mode.Fixed? ==> forall j :: 0 <= j < |classes| ==> classes[j].cap == mode.cap
    requires LoopState(segs, durs, CapsOf(classes), videoDur, i, idx, acc)
    requires acc.stats == ReasonsBefore(classes, mode.Dynamic?, i)
    ensures LoopState(segs, durs, CapsOf(classes), videoDur, i + 1, idx', acc')
    ensures acc'.stats == ReasonsBefore(classes, mode.Dynamic?, i + 1)
  {
    ghost var caps := CapsOf(classes);
    ReasonsStep(classes, mode.Dynamic?, i);
    var ttsEnd := segs[i].start + durs[i];
    if i + 1 < |segs| {
      var nextStart := segs[i + 1].start;
      var gap := nextStart - ttsEnd;
      var cap;
      var stats := acc.stats;
      match mode {
        case Dynamic(_) =>
          var c := classes[i];
          cap := c.cap;
          stats := stats + multiset{c.reason};
        case Fixed(c) =>
          cap := c;
      }
      assert cap == caps[i];
      if gap > cap {
        var segEnd := Min(ttsEnd + cap, nextStart);
        CutStep(segs, durs, caps, videoDur, i, idx, acc, stats);
        acc' := KeepAcc(nextStart, acc.keeps + [Span(acc.keepStart, segEnd)],
                        acc.totalRemoved + (nextStart - segEnd), acc.cuts + 1, stats);
        idx' := idx + [i];
      } else {
        PassStep(segs, durs, caps, videoDur, i, idx, acc, stats);
        acc' := acc.(stats := stats);
        idx' := idx;
      }
    } else {
      LastStep(segs, durs, caps, videoDur, i, idx, acc);
      acc' := acc.(keeps := acc.keeps + [Span(acc.keepStart, videoDur)]);
      idx' := idx;
    }
  }

  /** The state of the keep-list loop before line `i`: the cuts so far,
      where the open keep starts, the silence removed and the keeps closed
      (with the last keep added once every line is done). */
  ghost predicate LoopState(segs: seq<Mapped>, durs: seq<int>, caps: seq<int>, videoDur: int, i: nat, idx: seq<nat>, acc: KeepAcc)
  {
    && |durs| == |segs| == |caps| && i <= |segs|
    && idx == CutsBefore(segs, durs, caps, i) && CutsValid(segs, idx)
    && acc.cuts == |idx|
    && acc.keepStart == StartAfter(segs, idx)
    && acc.totalRemoved == RemovedTotal(segs, durs, caps, idx)
    && (i < |segs| || i == 0 ==> acc.keeps == ClosedKeeps(segs, durs, caps, idx))
    && (i == |segs| > 0 ==> acc.keeps == ClosedKeeps(segs, durs, caps, idx) + [Span(acc.keepStart, videoDur)])
  }

  /** A cut after line `i` closes a keep at the capped end of its speech. */
  lemma CutStep(segs: seq<Mapped>, durs: seq<int>, caps: seq<int>, videoDur: int, i: nat, idx: seq<nat>, acc: KeepAcc,
                stats: multiset<Reason>)
    requires LoopState(segs, durs, caps, videoDur, i, idx, acc)
    requires i + 1 < |segs| && CutAfter(segs, durs, caps, i)
    ensures var segEnd := Min(SpeechEnd(segs, durs, i) + caps[i], segs[i + 1].start);
      LoopState(segs, durs, caps, videoDur, i + 1, idx + [i],
        KeepAcc(segs[i + 1].start, acc.keeps + [Span(acc.keepStart, segEnd)],
                acc.totalRemoved + (segs[i + 1].start - segEnd), acc.cuts + 1, stats))
  {
    CutsStep(segs, durs, caps, i);
    AppendCut(segs, durs, caps, idx, i);
  }

  /** A pause within its cap changes nothing. */
  lemma PassStep(segs: seq<Mapped>, durs: seq<int>, caps: seq<int>, videoDur: int, i: nat, idx: seq<nat>, acc: KeepAcc,
                 stats: multiset<Reason>)
    requires LoopState(segs, durs, caps, videoDur, i, idx, acc)
    requires i + 1 < |segs| && !CutAfter(segs, durs, caps, i)
    ensures LoopState(segs, durs, caps, videoDur, i + 1, idx, acc.(stats := stats))
  {
    CutsStep(segs, durs, caps, i);
  }

  /** The last line closes the open keep at the end of the video. */
  lemma LastStep(segs: seq<Mapped>, durs: seq<int>, caps: seq<int>, videoDur: int, i: nat, idx: seq<nat>, acc: KeepAcc)
    requires LoopState(segs, durs, caps, videoDur, i, idx, acc)
    requires i + 1 == |segs|
    ensures LoopState(segs, durs, caps, videoDur, i + 1, idx, acc.(keeps := acc.keeps + [Span(acc.keepStart, videoDur)]))
  {
    CutsStep(segs, durs, caps, i);
  }

  /** What the loop state says once every line is done. */
  lemma LoopDone(segs: seq<Mapped>, durs: seq<int>, caps: seq<int>, videoDur: int, idx: seq<nat>, acc: KeepAcc)
    requires LoopState(segs, durs, caps, videoDur, |segs|, idx, acc)
    ensures segs == [] ==> acc.keeps == [] && acc.cuts == 0 && acc.totalRemoved == 0
    ensures segs != [] ==>
      && acc.cuts == |CutsBefore(segs, durs, caps, |segs|)| && |acc.keeps| == acc.cuts + 1
      && acc.keeps == ClosedKeeps(segs, durs, caps, idx) + [Span(StartAfter(segs, idx), videoDur)]
      && acc.totalRemoved == RemovedTotal(segs, durs, caps, idx)
      && SumLengths(acc.keeps) == videoDur - acc.totalRemoved
  {
    if segs != [] {
      KeepsLength(segs, durs, caps, idx, videoDur);
    }
  }

  /** With the open keep closed at the end of the video, the keeps measure
      the video less the silence removed. */
  lemma KeepsLength(segs: seq<Mapped>, durs: seq<int>, caps: seq<int>, idx: seq<nat>, videoDur: int)
    requires |durs| == |segs| == |caps| && CutsValid(segs, idx)
    ensures var keeps := ClosedKeeps(segs, durs, caps, idx) + [Span(StartAfter(segs, idx), videoDur)];
      SumLengths(keeps) == videoDur - RemovedTotal(segs, durs, caps, idx)
  {
    var closed := ClosedKeeps(segs, durs, caps, idx);
    var keeps := closed + [Span(StartAfter(segs, idx), videoDur)];
    ClosedKeepsLength(segs, durs, caps, idx);
    assert keeps[..|keeps| - 1] == closed;
  }

  /** The keep list against the cuts: every keep but the last ends the cap
      after a cut line's speech, the next one resumes at the following line,
      the first starts at 0 and the last ends at the end of the video. */
  lemma BuildKeepsShape(segs: seq<Mapped>, durs: seq<int>, caps: seq<int>, videoDur: int, keeps: seq<Span>)
    requires |durs| == |segs| == |caps| && segs != []
    requires var idx := CutsBefore(segs, durs, caps, |segs|);
      keeps == ClosedKeeps(segs, durs, caps, idx) + [Span(StartAfter(segs, idx), videoDur)]
    ensures var idx := CutsBefore(segs, durs, caps, |segs|);
      && keeps[0].start == 0 && Last(keeps).end == videoDur
      && (forall k :: 0 <= k < |idx| ==>
            && keeps[k].end == SpeechEnd(segs, durs, idx[k]) + caps[idx[k]]
            && keeps[k + 1].start == segs[idx[k] + 1].start
            && keeps[k].end < keeps[k + 1].start)
  {
    var idx := CutsBefore(segs, durs, caps, |segs|);
    var closed := ClosedKeeps(segs, durs, caps, idx);
    if idx != [] {
      ClosedKeepsAt(segs, durs, caps, idx, 0);
    }
    forall k | 0 <= k < |idx|
      ensures keeps[k].end == SpeechEnd(segs, durs, idx[k]) + caps[idx[k]]
      ensures keeps[k + 1].start == segs[idx[k] + 1].start
      ensures keeps[k].end < keeps[k + 1].start
    {
      assert CutAfter(segs, durs, caps, idx[k]);
      ClosedKeepsAt(segs, durs, caps, idx, k);
      assert keeps[k] == closed[k];
      if k + 1 < |idx| {
        ClosedKeepsAt(segs, durs, caps, idx, k + 1);
        assert keeps[k + 1] == closed[k + 1];
      }
    }
  }

  /** `cmd_trim_silence`'s keep list for a mode: every line classified,
      then the keep-list loop. In fixed mode every cap is the fixed one. */
  method TrimKeeps(segs: seq<Mapped>, durs: seq<int>, mode: Mode, videoDur: int) returns (r: Trim)
    requires |durs| == |segs|
    ensures var caps := CapsOf(Classes(segs, mode)); var idx := CutsBefore(segs, durs, caps, |segs|);
      && (segs == [] ==> r.keeps == [] && r.cuts == 0 && r.totalRemoved == 0)
      && (segs != [] ==>
            && r.cuts == |idx|
            && r.keeps == ClosedKeeps(segs, durs, caps, idx) + [Span(StartAfter(segs, idx), videoDur)]
            && r.totalRemoved == RemovedTotal(segs, durs, caps, idx)
            && SumLengths(r.keeps) == videoDur - r.totalRemoved)
    ensures mode.Fixed? ==> r.stats == multiset{}
    ensures mode.Dynamic? ==> r.stats == ReasonsBefore(Classes(segs, mode), true, |segs|)
  {
    var classes := Classes(segs, mode);
    forall i | 0 <= i < |classes| && mode.Fixed?
      ensures classes[i].cap == mode.cap
    {
      ClassesAt(segs, mode, i);
    }
    r := BuildKeeps(segs, durs, mode, classes, videoDur);
  }

  /** Every cut keeps exactly the cap of silence and removes a positive
      amount. */
  lemma CutRemovesPositive(segs: seq<Mapped>, durs: seq<int>, caps: seq<int>, i: nat)
    requires |durs| == |segs| == |caps| && CutAfter(segs, durs, caps, i)
    ensures RemovedAt(segs, durs, caps, i) > 0
    ensures segs[i + 1].start - RemovedAt(segs, durs, caps, i) == SpeechEnd(segs, durs, i) + caps[i]
  {
  }

  /** The total removed is positive exactly when there is a cut. */
  lemma {:induction false} RemovedTotalPositive(segs: seq<Mapped>, durs: seq<int>, caps: seq<int>, idx: seq<nat>)
    requires |durs| == |segs| == |caps|
    requires CutsValid(segs, idx) && forall j :: 0 <= j < |idx| ==> CutAfter(segs, durs, caps, idx[j])
    ensures idx == [] <==> RemovedTotal(segs, durs, caps, idx) == 0
    ensures RemovedTotal(segs, durs, caps, idx) >= |idx|
    decreases |idx|
  {
    if idx != [] {
      RemovedTotalPositive(segs, durs, caps, idx[..|idx| - 1]);
    }
  }

  /** In dynamic mode the statistics hold one reason for every line that
      has a next line, each the reason of such a line. */
  lemma {:induction false} ReasonsCount(cs: seq<Classification>, i: nat)
    requires i <= |cs|
    ensures |ReasonsBefore(cs, true, i)| == if i == |cs| && i > 0 then i - 1 else i
    ensures forall r :: r in ReasonsBefore(cs, true, i) ==> exists j :: 0 <= j < i && j + 1 < |cs| && cs[j].reason == r
  {
    if i > 0 {
      ReasonsCount(cs, i - 1);
    }
  }

  /** In fixed mode with a cap of 0.5 s, two lines two seconds apart with
      one second of speech lose 0.5 s: one cut, two keeps. */
  method FixedExample() returns (r: Trim)
    ensures r.cuts == 1 && r.keeps == [Span(0, 150), Span(200, 500)] && r.totalRemoved == 50
  {
    var segs := [Mapped(0, 100, 100, "가"), Mapped(200, 300, 100, "나")];
    var durs := [100, 100];
    var mode := Fixed(50);
    r := TrimKeeps(segs, durs, mode, 500);
    FixedCaps(segs, mode);
    FixedCuts(segs, durs, CapsOf(Classes(segs, mode)));
  }

  /** Both lines of the example get the fixed cap. */
  lemma FixedCaps(segs: seq<Mapped>, mode: Mode)
    requires segs == [Mapped(0, 100, 100, "가"), Mapped(200, 300, 100, "나")] && mode == Fixed(50)
    ensures CapsOf(Classes(segs, mode)) == [50, 50]
  {
    ClassesAt(segs, mode, 0);
    ClassesAt(segs, mode, 1);
  }

  /** The example's one cut is after the first line. */
  lemma FixedCuts(segs: seq<Mapped>, durs: seq<int>, caps: seq<int>)
    requires segs == [Mapped(0, 100, 100, "가"), Mapped(200, 300, 100, "나")]
    requires durs == [100, 100] && caps == [50, 50]
    ensures CutsBefore(segs, durs, caps, 2) == [0] && CutsValid(segs, [0])
    ensures ClosedKeeps(segs, durs, caps, [0]) == [Span(0, 150)]
    ensures StartAfter(segs, [0]) == 200 && RemovedTotal(segs, durs, caps, [0]) == 50
  {
    CutsStep(segs, durs, caps, 0);
    CutsStep(segs, durs, caps, 1);
    AppendCut(segs, durs, caps, [], 0);
  }
}
