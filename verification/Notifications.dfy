/**
 Terminal-failure deduplication (src/notifications.rs): failures and resolutions are events
 in an append-only log; whether to announce a failure is decided by scanning the log
 backwards, or from a per-process cache when the log cannot be read.
 */
module Notifications {
  import opened Basics

  type Key = (string, string)

  datatype Failure = Failure(
    profile: string, workId: string, runId: string, failureClass: string,
    stage: Option<string>, attempts: Option<nat>, summary: Option<string>)

  function KeyOf(f: Failure): Key {
    (f.profile, f.workId)
  }

  datatype Kind = TerminalFailure | TerminalFailureResolved | OtherEvent

  /** `details` is None when the payload is not JSON; `stamp` is None when unparsable. */
  datatype Event = Event(kind: Kind, stamp: Option<int>, details: Option<Failure>)

  /** A failure with the stamp of the event (or cache entry) that recorded it. */
  datatype Noted = Noted(failure: Failure, stamp: Option<int>)

  predicate IsTerminal(e: Event, k: Key) {
    !e.kind.OtherEvent? && e.details.Some? && KeyOf(e.details.value) == k
  }

  /** The latest unresolved failure of one work item, scanning from the end. */
  function Scan(log: seq<Event>, k: Key): Option<Noted> {
    if log == [] then None
    else
      var e := Last(log);
      if !IsTerminal(e, k) then Scan(log[..|log| - 1], k)
      else if e.kind.TerminalFailureResolved? then None
      else Some(Noted(e.details.value, e.stamp))
  }

  /** The fields that decide whether a failure is news. */
  predicate SameFailure(a: Failure, b: Failure) {
    a.failureClass == b.failureClass && a.stage == b.stage && a.attempts == b.attempts && a.summary == b.summary
  }

  predicate MoreThanWindowApart(earlier: Option<int>, later: Option<int>, window: int) {
    earlier.Some? && later.Some? ==> later.value - earlier.value > window
  }

  predicate ShouldEmit(prior: Option<Noted>, f: Failure, now: Option<int>, window: int) {
    prior.None? || !SameFailure(prior.value.failure, f) || MoreThanWindowApart(prior.value.stamp, now, window)
  }

  function FailureEvent(f: Failure, at: Option<int>): Event {
    Event(TerminalFailure, at, Some(f))
  }

  /** A resolution's payload has no run, attempts or summary; they read back as defaults. */
  function ResolvedEvent(f: Failure, at: Option<int>): Event {
    Event(TerminalFailureResolved, at, Some(Failure(f.profile, f.workId, "unknown", f.failureClass, f.stage, None, None)))
  }

  /** The shared event log and this process's fallback cache. */
  class Notifier {
    var log: seq<Event>
    var cache: map<Key, Option<Noted>>
    const window: int

    constructor (log: seq<Event>, window: int)
      ensures this.log == log && cache == map[] && this.window == window
    {
      this.log := log;
      this.cache := map[];
      this.window := window;
    }

    method LatestUnresolved(k: Key, readable: bool) returns (r: Option<Noted>)
      modifies this`cache
      ensures r == Known(log, old(cache), k, readable)
      ensures cache == CacheAfterRead(log, old(cache), k, readable)
    {
      if !readable {
        return if k in cache then cache[k] else None;
      }
      r := None;
      var i := |log|;
      assert log[..i] == log;
      while i > 0
        invariant 0 <= i <= |log|
        invariant Scan(log, k) == Scan(log[..i], k)
      {
        assert Last(log[..i]) == log[i - 1] && log[..i][..i - 1] == log[..i - 1];
        i := i - 1;
        if IsTerminal(log[i], k) {
          if log[i].kind.TerminalFailure? {
            r := Some(Noted(log[i].details.value, log[i].stamp));
          }
          cache := cache[k := r];
          return;
        }
      }
      cache := cache[k := r];
    }

    /** `notify_terminal_failure`: `at` is when it was called, `writtenAt` stamps the event and
        `cachedAt` the cache entry; `writes` says whether the append succeeds. */
    method NotifyFailure(f: Failure, readable: bool, writes: bool, at: int, writtenAt: int, cachedAt: int)
      returns (sent: bool)
      modifies this
      ensures sent == ShouldEmit(Known(old(log), old(cache), KeyOf(f), readable), f, Some(at), window)
      ensures State(log, cache)
              == Apply(State(old(log), old(cache)), Report(f, readable, writes, at, writtenAt, cachedAt), window)
      ensures log == old(log) + (if sent && writes then [Event(TerminalFailure, Some(writtenAt), Some(f))] else [])
      ensures var key := (f.profile, f.workId);
              sent ==> key in cache && cache[key] == Some(Noted(f, Some(cachedAt)))
    {
      var prior := LatestUnresolved(KeyOf(f), readable);
      if !ShouldEmit(prior, f, Some(at), window) {
        return false;
      }
      if writes {
        log := log + [FailureEvent(f, Some(writtenAt))];
      }
      cache := cache[KeyOf(f) := Some(Noted(f, Some(cachedAt)))];
      return true;
    }

    /** `notify_terminal_failure_resolved`. */
    method NotifyResolved(k: Key, readable: bool, writes: bool, writtenAt: int) returns (sent: bool)
      modifies this
      ensures sent == Known(old(log), old(cache), k, readable).Some?
      ensures State(log, cache) == Apply(State(old(log), old(cache)), Resolve(k, readable, writes, writtenAt), window)
      ensures sent ==> k in cache && cache[k] == None
      ensures var prior := Known(old(log), old(cache), k, readable);
              log == old(log)
                     + (if prior.None? || !writes then []
                        else [Event(TerminalFailureResolved, Some(writtenAt),
                                    Some(Failure(k.0, k.1, "unknown", prior.value.failure.failureClass,
                                                 prior.value.failure.stage, None, None)))])
    {
      var prior := LatestUnresolved(k, readable);
      if prior.None? {
        return false;
      }
      if writes {
        log := log + [ResolvedEvent(prior.value.failure.(profile := k.0, workId := k.1), Some(writtenAt))];
      }
      cache := cache[k := None];
      return true;
    }
  }

  function Known(log: seq<Event>, cache: map<Key, Option<Noted>>, k: Key, readable: bool): Option<Noted> {
    if readable then Scan(log, k) else if k in cache then cache[k] else None
  }

  function CacheAfterRead(log: seq<Event>, cache: map<Key, Option<Noted>>, k: Key, readable: bool): map<Key, Option<Noted>> {
    if readable then cache[k := Scan(log, k)] else cache
  }

  // ----- Runs

  /** A report or a resolution through this code, or an event somebody else appends. */
  datatype Op =
    | Report(failure: Failure, readable: bool, writes: bool, at: int, writtenAt: int, cachedAt: int)
    | Resolve(key: Key, readable: bool, writes: bool, writtenAt: int)
    | Foreign(event: Event)

  datatype State = State(log: seq<Event>, cache: map<Key, Option<Noted>>)

  /** The effect of one operation on the log and the cache. */
  function Apply(s: State, op: Op, window: int): State {
    match op
    case Foreign(e) => s.(log := s.log + [e])
    case Report(f, readable, writes, at, writtenAt, cachedAt) =>
      var k := KeyOf(f);
      var read := CacheAfterRead(s.log, s.cache, k, readable);
      if !ShouldEmit(Known(s.log, s.cache, k, readable), f, Some(at), window) then s.(cache := read)
      else State(
             if writes then s.log + [FailureEvent(f, Some(writtenAt))] else s.log,
             read[k := Some(Noted(f, Some(cachedAt)))])
    case Resolve(k, readable, writes, writtenAt) =>
      var prior := Known(s.log, s.cache, k, readable);
      var read := CacheAfterRead(s.log, s.cache, k, readable);
      if prior.None? then s.(cache := read)
      else State(
             if writes then s.log + [ResolvedEvent(prior.value.failure.(profile := k.0, workId := k.1), Some(writtenAt))] else s.log,
             read[k := None])
  }

  function After(s: State, ops: seq<Op>, window: int): State {
    if ops == [] then s else Apply(After(s, ops[..|ops| - 1], window), Last(ops), window)
  }

  // ----- No repeated announcements

  /** Entry `j` of the log is justified by what precedes it: a failure is news compared with
      the open failure before it, and a resolution closes an open failure. */
  ghost predicate Justified(log: seq<Event>, j: nat, window: int)
    requires j < |log|
  {
    var e := log[j];
    e.details.Some? ==>
      var open := Scan(log[..j], KeyOf(e.details.value));
      && (e.kind.TerminalFailure? ==> ShouldEmit(open, e.details.value, e.stamp, window))
      && (e.kind.TerminalFailureResolved? ==> open.Some?)
  }

  /** Every entry from position `from` on is justified. */
  ghost predicate JustifiedFrom(log: seq<Event>, from: nat, window: int) {
    forall j :: from <= j < |log| ==> Justified(log, j, window)
  }

  /** Readable log, clock not running backwards within a report, and nobody else writing
      terminal events. */
  predicate Orderly(op: Op) {
    match op
    case Report(_, readable, _, at, writtenAt, _) => readable && at <= writtenAt
    case Resolve(_, readable, _, _) => readable
    case Foreign(e) => e.kind.OtherEvent?
  }

  lemma JustifiedAppend(log: seq<Event>, e: Event, from: nat, window: int)
    requires JustifiedFrom(log, from, window)
    requires Justified(log + [e], |log|, window)
    ensures JustifiedFrom(log + [e], from, window)
  {
    var log' := log + [e];
    forall j | from <= j < |log|
      ensures Justified(log', j, window)
    {
      assert Justified(log, j, window);
      assert log'[..j] == log[..j];
    }
  }

  lemma StepJustified(s: State, op: Op, from: nat, window: int)
    requires JustifiedFrom(s.log, from, window) && Orderly(op)
    ensures s.log <= Apply(s, op, window).log
    ensures JustifiedFrom(Apply(s, op, window).log, from, window)
  {
    var t := Apply(s, op, window);
    if t.log != s.log {
      var e := Last(t.log);
      assert t.log == s.log + [e] && t.log[..|s.log|] == s.log;
      JustifiedAppend(s.log, e, from, window);
    }
  }

  /** Whatever the log held before, every entry that an orderly run adds is justified. */
  lemma {:induction false} RunJustified(s: State, ops: seq<Op>, window: int)
    requires forall i :: 0 <= i < |ops| ==> Orderly(ops[i])
    ensures s.log <= After(s, ops, window).log
    ensures JustifiedFrom(After(s, ops, window).log, |s.log|, window)
  {
    if ops != [] {
      RunJustified(s, ops[..|ops| - 1], window);
      StepJustified(After(s, ops[..|ops| - 1], window), Last(ops), |s.log|, window);
    }
  }

  /** No terminal event of this work item lies strictly between the two positions. */
  ghost predicate QuietBetween(log: seq<Event>, k: Key, i: nat, j: nat) {
    forall m :: i < m < j && m < |log| ==> !IsTerminal(log[m], k)
  }

  lemma {:induction false} ScanFinds(log: seq<Event>, k: Key, i: nat, j: nat)
    requires i < j <= |log| && IsTerminal(log[i], k) && QuietBetween(log, k, i, j)
    ensures Scan(log[..j], k) == if log[i].kind.TerminalFailure? then Some(Noted(log[i].details.value, log[i].stamp)) else None
    decreases j
  {
    assert Last(log[..j]) == log[j - 1] && log[..j][..j - 1] == log[..j - 1];
    if j > i + 1 {
      ScanFinds(log, k, i, j - 1);
    }
  }

  lemma {:induction false} ScanSource(log: seq<Event>, k: Key, j: nat) returns (i: nat)
    requires j <= |log| && Scan(log[..j], k).Some?
    ensures i < j && IsTerminal(log[i], k) && log[i].kind.TerminalFailure? && QuietBetween(log, k, i, j)
    decreases j
  {
    assert Last(log[..j]) == log[j - 1] && log[..j][..j - 1] == log[..j - 1];
    if IsTerminal(log[j - 1], k) {
      i := j - 1;
    } else {
      i := ScanSource(log, k, j - 1);
    }
  }

  // ----- The same, said of single events and their fields

  /** The event records a failure or a resolution of this work item. */
  predicate Speaks(e: Event, profile: string, workId: string) {
    && e.kind in {TerminalFailure, TerminalFailureResolved}
    && e.details.Some? && e.details.value.profile == profile && e.details.value.workId == workId
  }

  /** Event `i` is the last one before position `n` that speaks of the work item. */
  ghost predicate LastWord(log: seq<Event>, profile: string, workId: string, i: nat, n: nat) {
    && i < n <= |log| && Speaks(log[i], profile, workId)
    && forall m :: i < m < n ==> !Speaks(log[m], profile, workId)
  }

  /** The two failures differ in a field that makes news. */
  predicate Differ(a: Failure, b: Failure) {
    || a.failureClass != b.failureClass || a.stage != b.stage
    || a.attempts != b.attempts || a.summary != b.summary
  }

  lemma LastWordFinds(log: seq<Event>, profile: string, workId: string, i: nat, n: nat)
    requires LastWord(log, profile, workId, i, n)
    ensures Scan(log[..n], (profile, workId))
            == if log[i].kind == TerminalFailure then Some(Noted(log[i].details.value, log[i].stamp)) else None
  {
    ScanFinds(log, (profile, workId), i, n);
  }

  /** With a failure of the work item open since event `i`, a report is sent exactly if it differs
      in class, stage, attempts or summary, the old stamp cannot be read, or more than the window
      has passed. */
  lemma SentIff(log: seq<Event>, cache: map<Key, Option<Noted>>, f: Failure, at: int, window: int, i: nat)
    requires LastWord(log, f.profile, f.workId, i, |log|) && log[i].kind == TerminalFailure
    ensures var prior := log[i];
            ShouldEmit(Known(log, cache, KeyOf(f), true), f, Some(at), window)
            <==> Differ(prior.details.value, f) || prior.stamp.None? || at - prior.stamp.value > window
  {
    LastWordFinds(log, f.profile, f.workId, i, |log|);
    assert log[..|log|] == log;
  }

  /** With nothing open, because it was resolved or never failed, it is sent. */
  lemma SentWhenNothingOpen(log: seq<Event>, cache: map<Key, Option<Noted>>, f: Failure, at: int, window: int)
    requires forall i: nat :: LastWord(log, f.profile, f.workId, i, |log|) ==> log[i].kind == TerminalFailureResolved
    ensures Known(log, cache, KeyOf(f), true) == None
    ensures ShouldEmit(Known(log, cache, KeyOf(f), true), f, Some(at), window)
  {
    assert log[..|log|] == log;
    if Scan(log, KeyOf(f)).Some? {
      var i := ScanSource(log, KeyOf(f), |log|);
      assert LastWord(log, f.profile, f.workId, i, |log|);
    }
  }

  /** Over every orderly run from any log: a failure recorded by the run and the one before it of
      the same work item, old or new, differ in class, stage, attempts or summary, or their
      stamps, if both can be read, lie more than the window apart. */
  lemma NoRepeatedFailure(s: State, ops: seq<Op>, window: int, i: nat, j: nat, a: Failure, b: Failure)
    requires forall n :: 0 <= n < |ops| ==> Orderly(ops[n])
    requires var log := After(s, ops, window).log;
             && |s.log| <= j < |log| && LastWord(log, b.profile, b.workId, i, j)
             && log[i].kind == TerminalFailure && log[i].details == Some(a)
             && log[j].kind == TerminalFailure && log[j].details == Some(b)
    ensures var log := After(s, ops, window).log;
            || Differ(a, b)
            || log[i].stamp.None? || log[j].stamp.None?
            || log[j].stamp.value - log[i].stamp.value > window
  {
    RunJustified(s, ops, window);
    var log := After(s, ops, window).log;
    LastWordFinds(log, b.profile, b.workId, i, j);
    assert Justified(log, j, window);
  }

  /** Every resolution that the run records directly follows a failure of the same work item, so
      none is ever recorded twice in a row or without something to resolve. */
  lemma ResolutionClosesFailure(s: State, ops: seq<Op>, window: int, j: nat) returns (i: nat)
    requires forall n :: 0 <= n < |ops| ==> Orderly(ops[n])
    requires var log := After(s, ops, window).log;
             |s.log| <= j < |log| && log[j].kind == TerminalFailureResolved && log[j].details.Some?
    ensures var log := After(s, ops, window).log;
            LastWord(log, log[j].details.value.profile, log[j].details.value.workId, i, j)
            && log[i].kind == TerminalFailure
  {
    RunJustified(s, ops, window);
    var log := After(s, ops, window).log;
    assert Justified(log, j, window);
    i := ScanSource(log, KeyOf(log[j].details.value), j);
  }

  // ----- The fallback cache

  /** Equal in every field but the write-time stamp. */
  predicate Agrees(cached: Option<Noted>, scanned: Option<Noted>) {
    match (cached, scanned)
    case (None, None) => true
    case (Some(a), Some(b)) => a.failure == b.failure
    case _ => false
  }

  ghost predicate CacheAgrees(s: State) {
    forall k :: k in s.cache ==> Agrees(s.cache[k], Scan(s.log, k))
  }

  /** This process's writes succeed, and others write terminal events only for work items
      this process has not read or written yet. The log may be unreadable at any moment. */
  predicate OnlyWriter(s: State, op: Op) {
    match op
    case Report(_, _, writes, _, _, _) => writes
    case Resolve(_, _, writes, _) => writes
    case Foreign(e) => e.kind.OtherEvent? || e.details.None? || KeyOf(e.details.value) !in s.cache
  }

  ghost predicate OnlyWriterRun(s: State, ops: seq<Op>, window: int) {
    forall i :: 0 <= i < |ops| ==> OnlyWriter(After(s, ops[..i], window), ops[i])
  }

  lemma ScanAppend(log: seq<Event>, e: Event, k: Key)
    ensures Scan(log + [e], k) ==
            if !IsTerminal(e, k) then Scan(log, k)
            else if e.kind.TerminalFailureResolved? then None
            else Some(Noted(e.details.value, e.stamp))
  {
    assert Last(log + [e]) == e && (log + [e])[..|log|] == log;
  }

  lemma StepCacheAgrees(s: State, op: Op, window: int)
    requires CacheAgrees(s) && OnlyWriter(s, op)
    ensures CacheAgrees(Apply(s, op, window))
  {
    var t := Apply(s, op, window);
    forall k | k in t.cache
      ensures Agrees(t.cache[k], Scan(t.log, k))
    {
      if t.log != s.log {
        assert t.log == s.log + [Last(t.log)];
        ScanAppend(s.log, Last(t.log), k);
      }
    }
  }

  /** Once this process has read or written a key, its cached record equals the latest
      unresolved failure of the log in every compared field, whether or not the log could be
      read along the way. */
  lemma {:induction false} FallbackAgreesWithLog(s: State, ops: seq<Op>, window: int)
    requires CacheAgrees(s) && OnlyWriterRun(s, ops, window)
    ensures CacheAgrees(After(s, ops, window))
  {
    if ops != [] {
      var before := ops[..|ops| - 1];
      forall i | 0 <= i < |before|
        ensures OnlyWriter(After(s, before[..i], window), before[i])
      {
        assert before[..i] == ops[..i] && OnlyWriter(After(s, ops[..i], window), ops[i]);
      }
      FallbackAgreesWithLog(s, before, window);
      assert OnlyWriter(After(s, ops[..|before|], window), ops[|before|]);
      StepCacheAgrees(After(s, before, window), Last(ops), window);
    }
  }

  /** So with an unreadable log a failure is still suppressed as a repeat only if it repeats
      the log's open failure, and a new one is never lost. */
  lemma FallbackDecides(s: State, k: Key, f: Failure, now: int, window: int)
    requires CacheAgrees(s) && k in s.cache && KeyOf(f) == k
    ensures var cached, scanned := Known(s.log, s.cache, k, false), Known(s.log, s.cache, k, true);
            && (cached.None? <==> scanned.None?)
            && (!ShouldEmit(cached, f, Some(now), window) ==> scanned.Some? && SameFailure(scanned.value.failure, f))
            && (scanned.Some? && !SameFailure(scanned.value.failure, f) ==> ShouldEmit(cached, f, Some(now), window))
  {
    assert Agrees(s.cache[k], Scan(s.log, k));
  }
}
