/**
 The claim lease client (src/central_claims.rs): after a claim is acquired a background
 loop renews it every third of the lease, counts consecutive failures, warns once the lease
 must have lapsed, and leaves when the stop flag is set. Times are in seconds.
 */
module CentralClaims {
  import opened Basics

  const DEFAULT_LEASE_SECONDS: nat := 15 * 60
  const LAPSE_COUNT: nat := 3

  /** A completed HTTP exchange, or a transport failure. `parsed` says whether a 200 body was
      a readable lease. */
  datatype Reply = Answer(status: nat, parsed: bool) | TransportError

  /** Anything but a readable 200 counts as "do not proceed". */
  predicate Granted(r: Reply) {
    r.Answer? && r.status == 200 && r.parsed
  }

  /** What the environment does to one turn of the loop: how long the sleep really takes, how
      long until the request starts and until it is answered, and the answer. */
  datatype Turn = Turn(slept: nat, delay: nat, took: nat, reply: Reply)

  /** One renewal request: when it started, when it was answered, and whether it succeeded. */
  datatype Request = Request(start: int, done: int, ok: bool)

  /** What the loop did: its requests, the count reported with each failed one, and the
      positions of the requests that raised the lapse warning. */
  datatype Trace = Trace(requests: seq<Request>, reports: map<nat, nat>, warnings: set<nat>)

  /** How many requests in a row, ending at position `i`, have failed. */
  function FailingRun(requests: seq<Request>, i: nat): (n: nat)
    requires i < |requests|
    ensures n <= i + 1
  {
    if requests[i].ok then 0 else if i == 0 then 1 else 1 + FailingRun(requests, i - 1)
  }

  /** The latest acknowledged renewal before request `i`, or the acquisition at `acquired`. */
  function LastAck(requests: seq<Request>, acquired: int, i: nat): int
    requires i < |requests|
  {
    var n := FailingRun(requests, i);
    if n == i + 1 then acquired else requests[i - n].done
  }

  /** When request `i - 1` was answered, or when the claim was acquired. */
  function AnsweredBefore(requests: seq<Request>, acquired: int, i: nat): int
    requires i <= |requests|
  {
    if i == 0 then acquired else requests[i - 1].done
  }

  ghost predicate SpacedAt(requests: seq<Request>, acquired: int, every: nat, i: nat)
    requires i < |requests|
  {
    AnsweredBefore(requests, acquired, i) + every <= requests[i].start <= requests[i].done
  }

  /** Requests start no sooner than one renewal interval after the previous one was answered. */
  ghost predicate Spaced(requests: seq<Request>, acquired: int, every: nat) {
    forall i :: 0 <= i < |requests| ==> SpacedAt(requests, acquired, every, i)
  }

  /** A failed request is reported with the length of the failing run it ends, and warns of a
      lapse exactly when that length is three; a successful one does neither. */
  ghost predicate ReportedAt(t: Trace, i: nat)
    requires i < |t.requests|
  {
    && (i in t.reports <==> !t.requests[i].ok)
    && (i in t.reports ==> t.reports[i] == FailingRun(t.requests, i))
    && (i in t.warnings <==> FailingRun(t.requests, i) == LAPSE_COUNT)
  }

  ghost predicate Reported(t: Trace) {
    && (forall i :: 0 <= i < |t.requests| ==> ReportedAt(t, i))
    && (forall i :: i in t.reports || i in t.warnings ==> i < |t.requests|)
  }

  /** At most the last request started once the flag was set. */
  ghost predicate StopsPromptly(requests: seq<Request>, stopAt: Option<int>) {
    stopAt.Some? ==> forall i :: 0 <= i < |requests| - 1 ==> requests[i].start < stopAt.value
  }

  predicate Stopped(stopAt: Option<int>, now: int) {
    stopAt.Some? && stopAt.value <= now
  }

  /** One more request, answered at `r.done`, with the failure count after it. */
  function Extended(t: Trace, r: Request, count: nat): Trace {
    var k := |t.requests|;
    Trace(t.requests + [r],
          if r.ok then t.reports else t.reports[k := count],
          if !r.ok && count == LAPSE_COUNT then t.warnings + {k} else t.warnings)
  }

  /** What holds before each turn: `now` is the time, `count` the failures in a row. */
  ghost predicate Running(t: Trace, turns: seq<Turn>, acquired: int, every: nat, stopAt: Option<int>, now: int, count: nat) {
    && Spaced(t.requests, acquired, every) && Reported(t) && StopsPromptly(t.requests, stopAt)
    && now == AnsweredBefore(t.requests, acquired, |t.requests|)
    && count == CountAfter(t.requests)
    && |t.requests| <= |turns|
    && (forall i :: 0 <= i < |t.requests| ==> FromTurn(t.requests[i], turns[i], stopAt))
    && forall i :: 0 <= i < |t.requests| ==> OnTime(t.requests, turns, acquired, i)
  }

  /** Request `i` starts right after the turn's sleep and delay, counted from the answer before it. */
  predicate OnTime(requests: seq<Request>, turns: seq<Turn>, acquired: int, i: nat)
    requires i < |requests| <= |turns|
  {
    requests[i].start == AnsweredBefore(requests, acquired, i) + turns[i].slept + turns[i].delay
  }

  /** The request carries the turn's answer, and the flag was still clear when it was checked
      for the last time, `delay` seconds before the request started. */
  predicate FromTurn(r: Request, turn: Turn, stopAt: Option<int>) {
    (r.ok <==> turn.reply == Answer(200, true)) && r.done == r.start + turn.took && !Stopped(stopAt, r.start - turn.delay)
  }

  function CountAfter(requests: seq<Request>): nat {
    if requests == [] then 0 else FailingRun(requests, |requests| - 1)
  }

  /** The renewal loop over any sequence of turns, the flag being set at `stopAt`. The turns
      beyond the point where the loop leaves are not used; it leaves only once the flag is set. */
  method RenewalLoop(turns: seq<Turn>, acquired: int, every: nat, stopAt: Option<int>) returns (t: Trace)
    requires forall i :: 0 <= i < |turns| ==> turns[i].slept >= every
    ensures Spaced(t.requests, acquired, every)
    ensures Reported(t)
    ensures StopsPromptly(t.requests, stopAt)
    ensures |t.requests| <= |turns|
    ensures forall i :: 0 <= i < |t.requests| ==> FromTurn(t.requests[i], turns[i], stopAt)
    ensures forall i :: 0 <= i < |t.requests| ==> OnTime(t.requests, turns, acquired, i)
    ensures var n := |t.requests|;
            n < |turns| ==> Stopped(stopAt, AnsweredBefore(t.requests, acquired, n) + turns[n].slept)
  {
    t := Trace([], map[], {});
    var consecutiveFailures, now, k := 0, acquired, 0;
    while k < |turns| && !Stopped(stopAt, now)
      invariant |t.requests| == k
      invariant Running(t, turns, acquired, every, stopAt, now, consecutiveFailures)
    {
      var turn := turns[k];
      if Stopped(stopAt, now + turn.slept) {
        break;
      }
      var start := now + turn.slept + turn.delay;
      var request := Request(start, start + turn.took, Granted(turn.reply));
      RunningNext(t, turns, acquired, every, stopAt, now, consecutiveFailures, request);
      now := request.done;
      if request.ok {
        consecutiveFailures := 0;
        t := t.(requests := t.requests + [request]);
      } else {
        consecutiveFailures := consecutiveFailures + 1;
        t := t.(requests := t.requests + [request], reports := t.reports[k := consecutiveFailures]);
        if consecutiveFailures == LAPSE_COUNT {
          t := t.(warnings := t.warnings + {k});
        }
      }
      k := k + 1;
    }
  }

  lemma {:induction false} RunningNext(
    t: Trace, turns: seq<Turn>, acquired: int, every: nat, stopAt: Option<int>, now: int, count: nat, r: Request)
    requires Running(t, turns, acquired, every, stopAt, now, count)
    requires |t.requests| < |turns| && FromTurn(r, turns[|t.requests|], stopAt)
    requires now + every <= r.start <= r.done && !Stopped(stopAt, now)
    requires var turn := turns[|t.requests|]; r.start == now + turn.slept + turn.delay
    ensures var next := if r.ok then 0 else count + 1;
            Running(Extended(t, r, next), turns, acquired, every, stopAt, r.done, next)
  {
    var k := |t.requests|;
    var next := if r.ok then 0 else count + 1;
    var t' := Extended(t, r, next);
    var requests := t'.requests;
    RunsAppend(t.requests, r);
    assert forall i :: 0 <= i < k ==> requests[i] == t.requests[i];
    forall i | 0 <= i < |requests|
      ensures SpacedAt(requests, acquired, every, i) && ReportedAt(t', i) && OnTime(requests, turns, acquired, i)
    {
      if i < k {
        assert SpacedAt(t.requests, acquired, every, i) && ReportedAt(t, i) && OnTime(t.requests, turns, acquired, i);
      }
    }
    EarlierStarts(t.requests, acquired, every, now);
  }

  /** Every request so far started before the loop's present moment. */
  lemma {:induction false} EarlierStarts(requests: seq<Request>, acquired: int, every: nat, now: int)
    requires Spaced(requests, acquired, every) && now == AnsweredBefore(requests, acquired, |requests|)
    ensures forall i :: 0 <= i < |requests| ==> requests[i].start <= now
  {
    if requests != [] {
      var n := |requests| - 1;
      var before := requests[..n];
      assert SpacedAt(requests, acquired, every, n);
      forall i | 0 <= i < n
        ensures SpacedAt(before, acquired, every, i)
      {
        assert SpacedAt(requests, acquired, every, i);
      }
      EarlierStarts(before, acquired, every, AnsweredBefore(before, acquired, n));
    }
  }

  lemma {:induction false} RunsAppend(requests: seq<Request>, r: Request)
    ensures forall i :: 0 <= i < |requests| ==> FailingRun(requests + [r], i) == FailingRun(requests, i)
    ensures FailingRun(requests + [r], |requests|)
            == if r.ok then 0 else 1 + (if requests == [] then 0 else FailingRun(requests, |requests| - 1))
  {
    forall i | 0 <= i < |requests|
      ensures FailingRun(requests + [r], i) == FailingRun(requests, i)
    {
      RunUnchanged(requests, r, i);
    }
  }

  lemma {:induction false} RunUnchanged(requests: seq<Request>, r: Request, i: nat)
    requires i < |requests|
    ensures FailingRun(requests + [r], i) == FailingRun(requests, i)
    decreases i
  {
    if i > 0 {
      RunUnchanged(requests, r, i - 1);
    }
  }

  // ----- What that means

  /** The requests from `from` to `to` are a maximal stretch of failures. */
  ghost predicate MaximalFailingRun(requests: seq<Request>, from: nat, to: nat) {
    && from <= to < |requests|
    && (forall i :: from <= i <= to ==> !requests[i].ok)
    && (from > 0 ==> requests[from - 1].ok)
    && (to + 1 < |requests| ==> requests[to + 1].ok)
  }

  lemma {:induction false} RunCounts(requests: seq<Request>, from: nat, to: nat, i: nat)
    requires MaximalFailingRun(requests, from, to) && from <= i <= to
    ensures FailingRun(requests, i) == i - from + 1
    decreases i
  {
    if i > from {
      RunCounts(requests, from, to, i - 1);
    }
  }

  /** Within a maximal failing run the reports count 1, 2, 3, ...; the warning fires exactly
      once if the run reaches three failures, and not at all otherwise. */
  lemma WarningOncePerRun(t: Trace, from: nat, to: nat)
    requires Reported(t) && MaximalFailingRun(t.requests, from, to)
    ensures forall i :: from <= i <= to ==> i in t.reports && t.reports[i] == i - from + 1
    ensures forall i :: from <= i <= to ==> (i in t.warnings <==> i == from + 2)
  {
    forall i | from <= i <= to
      ensures i in t.reports && t.reports[i] == i - from + 1
      ensures i in t.warnings <==> i == from + LAPSE_COUNT - 1
    {
      RunCounts(t.requests, from, to, i);
      assert ReportedAt(t, i);
    }
  }

  /** A warning always belongs to such a run. */
  lemma WarningsOnlyInRuns(t: Trace, i: nat)
    requires Reported(t) && i in t.warnings
    ensures i >= 2 && !t.requests[i].ok && !t.requests[i - 1].ok && !t.requests[i - 2].ok
  {
    assert ReportedAt(t, i);
    RunFacts(t.requests, i);
  }

  lemma {:induction false} RunFacts(requests: seq<Request>, i: nat)
    requires i < |requests|
    ensures forall j :: i - FailingRun(requests, i) < j <= i ==> !requests[j].ok
    decreases i
  {
    if !requests[i].ok && i > 0 {
      RunFacts(requests, i - 1);
    }
  }

  lemma {:induction false} FailuresTakeTime(requests: seq<Request>, acquired: int, every: nat, i: nat)
    requires Spaced(requests, acquired, every) && i < |requests|
    ensures requests[i].done >= LastAck(requests, acquired, i) + FailingRun(requests, i) * every
    decreases i
  {
    assert SpacedAt(requests, acquired, every, i);
    if i > 0 && !requests[i].ok {
      FailuresTakeTime(requests, acquired, every, i - 1);
    }
  }

  /** The lapse warning is never early: when it fires, at least a full default lease has gone
      by since the last acknowledged renewal. */
  lemma WarningNeverEarly(t: Trace, acquired: int, i: nat)
    requires Spaced(t.requests, acquired, DEFAULT_LEASE_SECONDS / 3) && Reported(t) && i in t.warnings
    ensures t.requests[i].done >= LastAck(t.requests, acquired, i) + 900
  {
    assert ReportedAt(t, i);
    FailuresTakeTime(t.requests, acquired, DEFAULT_LEASE_SECONDS / 3, i);
  }
}
