/**
 The controller event log (src/events.rs): closing runs that were started but never
 finished, and selecting the newest N events without disturbing their order.
 */
module Events {
  import opened Basics

  datatype Kind = DispatchStarted | DispatchFinished | DuplicateGuardTriggered | ReviewBudgetExhausted | OtherKind

  datatype Event = Event(
    timestamp: int, kind: Kind, profile: Option<string>, workId: Option<string>, runId: Option<string>, details: string)

  /** A started run: its id and the work item its start recorded. */
  type Started = (string, Option<string>)

  predicate IsStart(e: Event, profile: string) {
    e.runId.Some? && e.profile == Some(profile) && e.kind.DispatchStarted?
  }

  predicate IsEnd(e: Event, profile: string) {
    && e.runId.Some? && e.profile == Some(profile)
    && (e.kind.DispatchFinished? || e.kind.DuplicateGuardTriggered? || e.kind.ReviewBudgetExhausted?)
  }

  function Starts(events: seq<Event>, profile: string): seq<Started> {
    if events == [] then []
    else
      var e := Last(events);
      Starts(events[..|events| - 1], profile) + (if IsStart(e, profile) then [(e.runId.value, e.workId)] else [])
  }

  predicate Ended(events: seq<Event>, profile: string, run: string) {
    exists i :: 0 <= i < |events| && IsEnd(events[i], profile) && events[i].runId == Some(run)
  }

  function Without(starts: seq<Started>, ended: string -> bool): (r: seq<Started>)
    ensures forall s :: s in r <==> s in starts && !ended(s.0)
  {
    if starts == [] then []
    else Without(starts[..|starts| - 1], ended) + (if ended(Last(starts).0) then [] else [Last(starts)])
  }

  /** The runs of a profile with a start and no terminal event, in order of their starts. */
  function Orphans(events: seq<Event>, profile: string): seq<Started> {
    Without(Starts(events, profile), (run: string) => Ended(events, profile, run))
  }

  method OrphanedDispatchRuns(events: seq<Event>, profile: string) returns (orphans: seq<Started>)
    ensures orphans == Orphans(events, profile)
  {
    var started: seq<Started> := [];
    var finished: set<string> := {};
    for i := 0 to |events|
      invariant started == Starts(events[..i], profile)
      invariant forall run :: run in finished <==> Ended(events[..i], profile, run)
    {
      var e := events[i];
      EndedNext(events, profile, i);
      assert events[..i + 1][..i] == events[..i] && Last(events[..i + 1]) == e;
      if e.runId.Some? && e.profile == Some(profile) {
        match e.kind
        case DispatchStarted => started := started + [(e.runId.value, e.workId)];
        case DispatchFinished | DuplicateGuardTriggered | ReviewBudgetExhausted => finished := finished + {e.runId.value};
        case OtherKind =>
      }
    }
    assert events[..|events|] == events;
    orphans := [];
    for i := 0 to |started|
      invariant orphans == Without(started[..i], (run: string) => Ended(events, profile, run))
    {
      assert started[..i + 1][..i] == started[..i] && Last(started[..i + 1]) == started[i];
      if started[i].0 !in finished {
        orphans := orphans + [started[i]];
      }
    }
    assert started[..|started|] == started;
  }

  lemma EndedNext(events: seq<Event>, profile: string, i: nat)
    requires i < |events|
    ensures forall run :: Ended(events[..i + 1], profile, run)
                          <==> Ended(events[..i], profile, run) || (IsEnd(events[i], profile) && events[i].runId == Some(run))
  {
    var a, b := events[..i], events[..i + 1];
    assert b[i] == events[i] && forall j :: 0 <= j < i ==> b[j] == a[j];
    forall run
      ensures Ended(b, profile, run) <==> Ended(a, profile, run) || (IsEnd(events[i], profile) && events[i].runId == Some(run))
    {
      if Ended(a, profile, run) {
        var j :| 0 <= j < |a| && IsEnd(a[j], profile) && a[j].runId == Some(run);
        assert b[j] == a[j];
      }
    }
  }

  /** An orphan is a run that some event of the profile starts and none of its events ends. */
  lemma OrphanIff(events: seq<Event>, profile: string, run: string, work: Option<string>)
    ensures (run, work) in Orphans(events, profile)
            <==> && (exists i :: 0 <= i < |events| && Is(events[i], profile, run) && events[i].kind == DispatchStarted
                                 && events[i].workId == work)
                 && !(exists i :: 0 <= i < |events| && Is(events[i], profile, run)
                                  && events[i].kind in {DispatchFinished, DuplicateGuardTriggered, ReviewBudgetExhausted})
  {
    StartedIff(events, profile, run, work);
    assert Ended(events, profile, run)
           <==> exists i :: 0 <= i < |events| && Is(events[i], profile, run)
                            && events[i].kind in {DispatchFinished, DuplicateGuardTriggered, ReviewBudgetExhausted};
  }

  predicate Is(e: Event, profile: string, run: string) {
    e.runId == Some(run) && e.profile == Some(profile)
  }

  lemma {:induction false} StartedIff(events: seq<Event>, profile: string, run: string, work: Option<string>)
    ensures (run, work) in Starts(events, profile)
            <==> exists i :: 0 <= i < |events| && Is(events[i], profile, run) && events[i].kind == DispatchStarted
                             && events[i].workId == work
  {
    if events != [] {
      var before := events[..|events| - 1];
      StartedIff(before, profile, run, work);
      assert forall i :: 0 <= i < |before| ==> events[i] == before[i];
    }
  }

  /** Event `i` starts a run of the profile that no event in the log ends. */
  ghost predicate StartsOrphan(events: seq<Event>, profile: string, i: nat) {
    && i < |events| && events[i].runId.Some? && events[i].profile == Some(profile) && events[i].kind == DispatchStarted
    && !Ended(events, profile, events[i].runId.value)
  }

  /** `xs` lists what the events `at` started, in order. */
  ghost predicate ListsStarts(events: seq<Event>, xs: seq<Started>, at: seq<nat>) {
    && |xs| == |at| && Increasing(at)
    && forall j :: 0 <= j < |at| ==>
                     at[j] < |events| && events[at[j]].runId.Some? && xs[j] == (events[at[j]].runId.value, events[at[j]].workId)
  }

  lemma WithoutConcat(a: seq<Started>, b: seq<Started>, ended: string -> bool)
    requires |b| <= 1
    ensures Without(a + b, ended) == Without(a, ended) + Without(b, ended)
  {
    if b == [] {
      assert a + b == a;
    } else {
      assert (a + b)[..|a|] == a && Last(a + b) == b[0];
    }
  }

  /** The orphans among the first `n` events. */
  function OrphansOf(events: seq<Event>, profile: string, n: nat): seq<Started>
    requires n <= |events|
  {
    Without(Starts(events[..n], profile), (run: string) => Ended(events, profile, run))
  }

  lemma OrphansNext(events: seq<Event>, profile: string, n: nat)
    requires n < |events|
    ensures OrphansOf(events, profile, n + 1)
            == OrphansOf(events, profile, n)
               + (if StartsOrphan(events, profile, n) then [(events[n].runId.value, events[n].workId)] else [])
  {
    var ended := (run: string) => Ended(events, profile, run);
    var e := events[n];
    assert events[..n + 1][..n] == events[..n] && Last(events[..n + 1]) == e;
    var more := if IsStart(e, profile) then [(e.runId.value, e.workId)] else [];
    WithoutConcat(Starts(events[..n], profile), more, ended);
    assert more != [] ==> more[..0] == [];
  }

  ghost predicate ExactlyOrphans(events: seq<Event>, profile: string, at: seq<nat>, n: nat) {
    forall i :: i in at <==> 0 <= i < n && StartsOrphan(events, profile, i)
  }

  lemma ExactlyNext(events: seq<Event>, profile: string, at: seq<nat>, n: nat)
    requires ExactlyOrphans(events, profile, at, n)
    ensures ExactlyOrphans(events, profile, if StartsOrphan(events, profile, n) then at + [n] else at, n + 1)
  {
  }

  lemma ListsNext(events: seq<Event>, xs: seq<Started>, at: seq<nat>, n: nat)
    requires ListsStarts(events, xs, at) && n < |events| && events[n].runId.Some?
    requires forall j :: 0 <= j < |at| ==> at[j] < n
    ensures ListsStarts(events, xs + [(events[n].runId.value, events[n].workId)], at + [n])
  {
  }

  lemma {:induction false} ListedNext(
    events: seq<Event>, profile: string, n: nat, xs: seq<Started>, more: seq<Started>, at: seq<nat>) returns (at': seq<nat>)
    requires n < |events| && ListsStarts(events, xs, at) && ExactlyOrphans(events, profile, at, n)
    requires more == xs + (if StartsOrphan(events, profile, n) then [(events[n].runId.value, events[n].workId)] else [])
    ensures ListsStarts(events, more, at') && ExactlyOrphans(events, profile, at', n + 1)
  {
    ExactlyNext(events, profile, at, n);
    at' := at;
    if StartsOrphan(events, profile, n) {
      assert forall j :: 0 <= j < |at| ==> at[j] in at;
      ListsNext(events, xs, at, n);
      at' := at + [n];
    } else {
      assert more == xs;
    }
  }

  lemma {:induction false} OrphansBelow(events: seq<Event>, profile: string, n: nat, xs: seq<Started>) returns (at: seq<nat>)
    requires n <= |events| && xs == OrphansOf(events, profile, n)
    ensures ListsStarts(events, xs, at) && ExactlyOrphans(events, profile, at, n)
    decreases n
  {
    if n == 0 {
      at := [];
    } else {
      var before := OrphansOf(events, profile, n - 1);
      at := OrphansBelow(events, profile, n - 1, before);
      OrphansNext(events, profile, n - 1);
      at := ListedNext(events, profile, n - 1, before, xs, at);
    }
  }

  /** The orphans are listed once for each event that started one, in the order of those events. */
  lemma OrphansAre(events: seq<Event>, profile: string) returns (at: seq<nat>)
    ensures ListsStarts(events, Orphans(events, profile), at) && ExactlyOrphans(events, profile, at, |events|)
  {
    at := OrphansBelow(events, profile, |events|, OrphansOf(events, profile, |events|));
    assert events[..|events|] == events;
  }

  // ----- Reconciliation

  function Closing(profile: string, s: Started, now: int): Event {
    Event(now, DispatchFinished, Some(profile), s.1, Some(s.0), "abandoned (process restarted)")
  }

  /** The terminal events for the first `n` orphans. */
  function Closings(profile: string, orphans: seq<Started>, clock: nat -> int, n: nat): (r: seq<Event>)
    requires n <= |orphans|
    ensures |r| == n
    ensures forall i :: 0 <= i < n ==> r[i] == Closing(profile, orphans[i], clock(i))
  {
    seq(n, i requires 0 <= i < n => Closing(profile, orphans[i], clock(i)))
  }

  class EventLog {
    var events: seq<Event>

    constructor (events: seq<Event>)
      ensures this.events == events
    {
      this.events := events;
    }

    /** Close every orphaned run of a profile. An append may fail, which ends the pass with
        the orphans before it closed. */
    method Reconcile(profile: string, clock: nat -> int, writes: nat -> bool) returns (r: Result<nat>)
      modifies this
      ensures r.Ok? <==> forall n :: 0 <= n < |Orphans(old(events), profile)| ==> writes(n)
      ensures r.Ok? ==>
                && r.value == |Orphans(old(events), profile)|
                && events == old(events) + Closings(profile, Orphans(old(events), profile), clock, r.value)
                && (forall i :: 0 <= i < r.value ==>
                                  var o := Orphans(old(events), profile)[i];
                                  events[|old(events)| + i]
                                  == Event(clock(i), DispatchFinished, Some(profile), o.1, Some(o.0), "abandoned (process restarted)"))
      ensures r.Err? ==>
                exists n :: 0 <= n < |Orphans(old(events), profile)| && !writes(n)
                            && events == old(events) + Closings(profile, Orphans(old(events), profile), clock, n)
    {
      var orphans := OrphanedDispatchRuns(events, profile);
      for i := 0 to |orphans|
        invariant events == old(events) + Closings(profile, orphans, clock, i)
        invariant forall n :: 0 <= n < i ==> writes(n)
      {
        if !writes(i) {
          return Err("writing controller event");
        }
        events := events + [Closing(profile, orphans[i], clock(i))];
      }
      return Ok(|orphans|);
    }
  }

  lemma {:induction false} StartsAppend(events: seq<Event>, more: seq<Event>, profile: string)
    requires forall i :: 0 <= i < |more| ==> !IsStart(more[i], profile)
    ensures Starts(events + more, profile) == Starts(events, profile)
  {
    if more == [] {
      assert events + more == events;
    } else {
      var n := |more| - 1;
      assert (events + more)[..|events| + n] == events + more[..n] && Last(events + more) == more[n];
      StartsAppend(events, more[..n], profile);
    }
  }

  lemma EndedAppend(events: seq<Event>, more: seq<Event>, profile: string, run: string)
    ensures Ended(events + more, profile, run) <==> Ended(events, profile, run) || Ended(more, profile, run)
  {
    var all := events + more;
    if Ended(events, profile, run) {
      var i :| 0 <= i < |events| && IsEnd(events[i], profile) && events[i].runId == Some(run);
      assert all[i] == events[i];
    }
    if Ended(more, profile, run) {
      var i :| 0 <= i < |more| && IsEnd(more[i], profile) && more[i].runId == Some(run);
      assert all[|events| + i] == more[i];
    }
    if Ended(all, profile, run) {
      var i :| 0 <= i < |all| && IsEnd(all[i], profile) && all[i].runId == Some(run);
      if i >= |events| {
        assert all[i] == more[i - |events|];
      }
    }
  }

  lemma {:induction false} WithoutSame(starts: seq<Started>, p: string -> bool, q: string -> bool)
    requires forall run :: p(run) == q(run)
    ensures Without(starts, p) == Without(starts, q)
  {
    if starts != [] {
      WithoutSame(starts[..|starts| - 1], p, q);
    }
  }

  /** After a complete pass no run of the profile is orphaned, so repeating it adds nothing. */
  lemma ReconcileLeavesNoOrphan(events: seq<Event>, profile: string, clock: nat -> int)
    ensures var orphans := Orphans(events, profile);
            Orphans(events + Closings(profile, orphans, clock, |orphans|), profile) == []
  {
    var orphans := Orphans(events, profile);
    var more := Closings(profile, orphans, clock, |orphans|);
    StartsAppend(events, more, profile);
    forall s | s in Starts(events, profile)
      ensures Ended(events + more, profile, s.0)
    {
      EndedAppend(events, more, profile, s.0);
      if !Ended(events, profile, s.0) {
        assert s in orphans;
        var i :| 0 <= i < |orphans| && orphans[i] == s;
        assert IsEnd(more[i], profile) && more[i].runId == Some(s.0);
      }
    }
    WithoutNone(Starts(events, profile), (run: string) => Ended(events + more, profile, run));
  }

  lemma {:induction false} WithoutNone(starts: seq<Started>, ended: string -> bool)
    requires forall s :: s in starts ==> ended(s.0)
    ensures Without(starts, ended) == []
  {
    if starts != [] {
      WithoutNone(starts[..|starts| - 1], ended);
    }
  }

  /** It leaves every other profile's orphans exactly as they were. */
  lemma ReconcileKeepsOtherProfiles(events: seq<Event>, profile: string, clock: nat -> int, n: nat, other: string)
    requires n <= |Orphans(events, profile)| && other != profile
    ensures Orphans(events + Closings(profile, Orphans(events, profile), clock, n), other) == Orphans(events, other)
  {
    var more := Closings(profile, Orphans(events, profile), clock, n);
    StartsAppend(events, more, other);
    forall run
      ensures Ended(events + more, other, run) == Ended(events, other, run)
    {
      EndedAppend(events, more, other, run);
    }
    WithoutSame(
      Starts(events, other),
      (run: string) => Ended(events + more, other, run), (run: string) => Ended(events, other, run));
  }

  // ----- The newest N

  /** Older by timestamp, ties by position. */
  predicate Before(events: seq<Event>, i: nat, j: nat)
    requires i < |events| && j < |events|
  {
    events[i].timestamp < events[j].timestamp || (events[i].timestamp == events[j].timestamp && i < j)
  }

  predicate Indices(events: seq<Event>, xs: seq<nat>) {
    forall i :: 0 <= i < |xs| ==> xs[i] < |events|
  }

  ghost predicate Ordered(events: seq<Event>, xs: seq<nat>)
    requires Indices(events, xs)
  {
    forall i, j :: 0 <= i < j < |xs| ==> Before(events, xs[i], xs[j])
  }

  /** Stable insertion: a later position goes behind equal timestamps. */
  function Insert(events: seq<Event>, xs: seq<nat>, k: nat): (r: seq<nat>)
    requires Indices(events, xs) && k < |events|
    ensures |r| == |xs| + 1 && Indices(events, r)
    ensures forall x :: x in r <==> x in xs || x == k
  {
    if xs == [] then [k]
    else if Before(events, k, xs[0]) then [k] + xs
    else
      assert xs == [xs[0]] + xs[1..];
      [xs[0]] + Insert(events, xs[1..], k)
  }

  function ByTimestamp(events: seq<Event>, n: nat): (r: seq<nat>)
    requires n <= |events|
    ensures |r| == n && Indices(events, r)
    ensures forall x :: x in r <==> 0 <= x < n
  {
    if n == 0 then [] else Insert(events, ByTimestamp(events, n - 1), n - 1)
  }

  lemma {:induction false} InsertOrdered(events: seq<Event>, xs: seq<nat>, k: nat)
    requires Indices(events, xs) && k < |events| && k !in xs && Ordered(events, xs)
    ensures Ordered(events, Insert(events, xs, k))
  {
    if xs != [] && !Before(events, k, xs[0]) {
      var rest := Insert(events, xs[1..], k);
      InsertOrdered(events, xs[1..], k);
      forall j | 0 <= j < |rest|
        ensures Before(events, xs[0], rest[j])
      {
        assert rest[j] in rest;
      }
    }
  }

  lemma {:induction false} ByTimestampOrdered(events: seq<Event>, n: nat)
    requires n <= |events|
    ensures Ordered(events, ByTimestamp(events, n))
  {
    if n > 0 {
      ByTimestampOrdered(events, n - 1);
      InsertOrdered(events, ByTimestamp(events, n - 1), n - 1);
    }
  }

  /** `at` picks the newest `limit` events: in stream order, as many as there are up to the
      limit, each at or above every dropped one by timestamp and position. */
  ghost predicate Newest(events: seq<Event>, limit: nat, at: seq<nat>) {
    && Indices(events, at) && Increasing(at)
    && |at| == (if limit < |events| then limit else |events|)
    && forall i, j :: 0 <= i < |events| && 0 <= j < |events| && i in at && j !in at ==>
                        || events[j].timestamp < events[i].timestamp
                        || (events[j].timestamp == events[i].timestamp && j < i)
  }

  ghost predicate Distinct(xs: seq<nat>) {
    forall i, j :: 0 <= i < j < |xs| ==> xs[i] != xs[j]
  }

  /** Two duplicate-free lists of the same elements have the same length. */
  lemma {:induction false} SameLength(xs: seq<nat>, ys: seq<nat>)
    requires Distinct(xs) && Distinct(ys) && forall x :: x in xs <==> x in ys
    ensures |xs| == |ys|
  {
    assert ys == [] || ys[0] in xs;
    if xs != [] {
      assert xs[0] in ys;
      var k :| 0 <= k < |ys| && ys[k] == xs[0];
      var rest := ys[..k] + ys[k + 1..];
      forall x
        ensures x in xs[1..] <==> x in rest
      {
        assert x in xs <==> x == xs[0] || x in xs[1..];
        assert x in ys <==> x in ys[..k] || x == ys[k] || x in ys[k + 1..];
      }
      SameLength(xs[1..], rest);
    }
  }

  /** The newest events in stream order. */
  ghost predicate IsNewest(events: seq<Event>, limit: nat, kept: seq<Event>) {
    exists at :: Newest(events, limit, at) && kept == Pick(events, at)
  }

  /** Flag the listed positions. */
  method Flags(n: nat, order: seq<nat>) returns (keep: array<bool>)
    requires forall i :: 0 <= i < |order| ==> order[i] < n
    ensures keep.Length == n && forall i :: 0 <= i < n ==> (keep[i] <==> i in order)
  {
    keep := new bool[n](_ => false);
    for k := 0 to |order|
      invariant forall i :: 0 <= i < n ==> (keep[i] <==> i in order[..k])
    {
      keep[order[k]] := true;
      assert order[..k + 1] == order[..k] + [order[k]];
    }
    assert order[..|order|] == order;
  }

  /** The flagged events in stream order. */
  method Flagged(events: seq<Event>, keep: array<bool>) returns (kept: seq<Event>, ghost at: seq<nat>)
    requires keep.Length == |events|
    ensures Indices(events, at) && Increasing(at) && kept == Pick(events, at)
    ensures forall i :: i in at <==> 0 <= i < |events| && keep[i]
  {
    kept, at := [], [];
    for index := 0 to |events|
      invariant Indices(events, at) && Increasing(at) && kept == Pick(events, at)
      invariant forall i :: i in at <==> 0 <= i < index && keep[i]
      invariant forall i :: 0 <= i < |at| ==> at[i] < index
    {
      if keep[index] {
        kept := kept + [events[index]];
        at := at + [index];
      }
    }
  }

  method SelectNewest(events: seq<Event>, limit: nat) returns (kept: seq<Event>)
    ensures IsNewest(events, limit, kept)
  {
    var order := ByTimestamp(events, |events|);
    ByTimestampOrdered(events, |events|);
    var drop := if limit < |events| then |events| - limit else 0;
    ghost var all := order;
    order := order[drop..];
    assert forall i :: 0 <= i < |order| ==> order[i] == all[drop + i];
    var keep := Flags(|events|, order);
    ghost var at;
    kept, at := Flagged(events, keep);
    NewestByOrder(events, limit, all, drop, at);
  }

  lemma NewestByOrder(events: seq<Event>, limit: nat, all: seq<nat>, drop: nat, at: seq<nat>)
    requires |all| == |events| && Indices(events, all) && Ordered(events, all)
    requires forall x :: x in all <==> 0 <= x < |events|
    requires drop == if limit < |events| then |events| - limit else 0
    requires Indices(events, at) && Increasing(at) && forall x :: x in at <==> x in all[drop..]
    ensures Newest(events, limit, at)
  {
    SameLength(at, all[drop..]);
    forall i, j | 0 <= i < |events| && 0 <= j < |events| && i in at && j !in at
      ensures events[j].timestamp < events[i].timestamp || (events[j].timestamp == events[i].timestamp && j < i)
    {
      var m :| drop <= m < |all| && all[m] == i;
      assert all == all[..drop] + all[drop..] && j in all;
      assert j in all[..drop];
      var n :| 0 <= n < drop && all[n] == j;
      assert Before(events, all[n], all[m]);
    }
  }
}
