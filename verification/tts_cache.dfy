/** The per-line speech request of `cmd_tts_generate`: reuse a cached clip,
    else ask the speech service up to three times. The service is replaced
    by the replies it gives to each attempt, and sleeping by the list of
    waits, in seconds. */
module TtsCache {

  import opened Base

  /** What one request attempt yields: an HTTP status, or an exception. */
  datatype Reply = Status(code: int) | Raised

  /** How one line ends: whether its clip was obtained, whether it counts as
      an error, the waits in order, and the number of requests sent. */
  datatype Outcome = Outcome(ok: bool, failed: bool, waits: seq<nat>, requests: nat)

  const Retries: nat := 3

  const HttpOk: int := 200

  const TooManyRequests: int := 429

  function Pow2(n: nat): (p: nat)
    ensures p >= 1
  {
    if n == 0 then 1 else 2 * Pow2(n - 1)
  }

  /** The wait after a rate-limited attempt `a`: `2 ** a * 5` seconds. */
  function RateLimitWait(a: nat): nat {
    5 * Pow2(a)
  }

  /** The wait after an attempt that raised. */
  const ErrorWait: nat := 2

  predicate IsOk(r: Reply) {
    r == Status(HttpOk)
  }

  /** The attempt loop from attempt `a` on: a 200 stores the clip and
      stops; a 429 waits and retries; any other status or an exception
      retries, and counts as an error only on the last attempt. */
  function Attempts(replies: seq<Reply>, a: nat): (o: Outcome)
    requires |replies| == Retries && a <= Retries
    ensures o.ok <==> exists k :: a <= k < Retries && IsOk(replies[k])
    ensures o.failed <==>
      && a < Retries
      && (forall k :: a <= k < Retries ==> !IsOk(replies[k]))
      && replies[Retries - 1] != Status(TooManyRequests)
    ensures !(o.ok && o.failed)
    ensures o.requests <= Retries - a
    decreases Retries - a
  {
    if a == Retries then Outcome(false, false, [], 0)
    else
      var rest := Attempts(replies, a + 1);
      match replies[a]
      case Status(code) =>
        if code == HttpOk then Outcome(true, false, [], 1)
        else if code == TooManyRequests then Outcome(rest.ok, rest.failed, [RateLimitWait(a)] + rest.waits, rest.requests + 1)
        else Outcome(rest.ok, rest.failed || a == Retries - 1, rest.waits, rest.requests + 1)
      case Raised =>
        Outcome(rest.ok, rest.failed || a == Retries - 1, [ErrorWait] + rest.waits, rest.requests + 1)
  }

  /** One line: a non-empty cached clip is reused unless `force` is set;
      otherwise the attempt loop runs. */
  function FetchLine(cached: bool, force: bool, replies: seq<Reply>): (o: Outcome)
    requires |replies| == Retries
    ensures cached && !force ==> o == Outcome(true, false, [], 0)
    ensures o.ok <==> (cached && !force) || exists k :: 0 <= k < Retries && IsOk(replies[k])
    ensures !(o.ok && o.failed)
  {
    if cached && !force then Outcome(true, false, [], 0) else Attempts(replies, 0)
  }

  /** The requests stop at the first success: one request per attempt up to
      and including the first 200. */
  lemma {:induction false} RequestsUpToFirstOk(replies: seq<Reply>, a: nat, k: nat)
    requires |replies| == Retries && a <= k < Retries
    requires IsOk(replies[k]) && forall j :: a <= j < k ==> !IsOk(replies[j])
    ensures Attempts(replies, a).requests == k - a + 1
    decreases k - a
  {
    if a < k {
      RequestsUpToFirstOk(replies, a + 1, k);
    }
  }

  /** With no success every attempt is made. */
  lemma {:induction false} AllAttemptsWithoutOk(replies: seq<Reply>, a: nat)
    requires |replies| == Retries && a <= Retries
    requires forall j :: a <= j < Retries ==> !IsOk(replies[j])
    ensures Attempts(replies, a).requests == Retries - a
    decreases Retries - a
  {
    if a < Retries {
      AllAttemptsWithoutOk(replies, a + 1);
    }
  }

  /** A line rate-limited on every attempt waits 5, 10 and 20 seconds and
      ends neither obtained nor counted as an error. */
  lemma AlwaysRateLimited()
    ensures var o := FetchLine(false, false, [Status(429), Status(429), Status(429)]);
      !o.ok && !o.failed && o.waits == [5, 10, 20] && o.requests == 3
  {
  }

  /** A line that fails once, then succeeds, sends two requests and counts
      no error. */
  lemma RetryThenOk()
    ensures var o := FetchLine(false, false, [Status(500), Status(200), Status(500)]);
      o.ok && !o.failed && o.waits == [] && o.requests == 2
  {
  }

  /** The positions of the lines that were obtained. */
  ghost function OkLines(lines: seq<Outcome>): set<nat> {
    set k: nat | k < |lines| && lines[k].ok
  }

  /** The positions of the lines counted as errors. */
  ghost function FailedLines(lines: seq<Outcome>): set<nat> {
    set k: nat | k < |lines| && lines[k].failed
  }

  /** The tallies over all lines: `success` is the number of lines
      obtained and `errors` the number of lines that failed. */
  function Tally(lines: seq<Outcome>): (r: (nat, nat))
    ensures r.0 == |OkLines(lines)| && r.1 == |FailedLines(lines)|
    ensures r.0 <= |lines| && r.1 <= |lines|
  {
    if lines == [] then (0, 0)
    else
      var prev := Tally(lines[..|lines| - 1]);
      TallyStep(lines);
      (prev.0 + (if Last(lines).ok then 1 else 0), prev.1 + (if Last(lines).failed then 1 else 0))
  }

  /** The last line adds itself to the obtained (or failed) positions of
      the lines before it, and nothing else. */
  lemma TallyStep(lines: seq<Outcome>)
    requires lines != []
    ensures var init := lines[..|lines| - 1]; var n := |lines| - 1;
      && OkLines(lines) == OkLines(init) + (if lines[n].ok then {n} else {})
      && FailedLines(lines) == FailedLines(init) + (if lines[n].failed then {n} else {})
      && n !in OkLines(init) && n !in FailedLines(init)
  {
    var init := lines[..|lines| - 1];
    assert forall k :: 0 <= k < |init| ==> init[k] == lines[k];
  }

  /** Over lines fetched by `FetchLine`, no line counts twice: the two
      tallies together never exceed the number of lines, and they fall
      short exactly by the lines that were neither obtained nor failed. */
  lemma {:induction false} TallyBound(lines: seq<Outcome>)
    requires forall k :: 0 <= k < |lines| ==> !(lines[k].ok && lines[k].failed)
    ensures Tally(lines).0 + Tally(lines).1 <= |lines|
    ensures Tally(lines).0 + Tally(lines).1 == |lines| <==> forall k :: 0 <= k < |lines| ==> lines[k].ok || lines[k].failed
  {
    if lines != [] {
      var init := lines[..|lines| - 1];
      assert forall k :: 0 <= k < |init| ==> init[k] == lines[k];
      TallyBound(init);
    }
  }
}
