/**
 The durable availability state: an append-only list of records read through
 overlapping selectors (src/availability.rs). Timestamps are integers, with the
 missing and the unparsable expiry kept apart because the code treats them
 differently from an expiry that has passed.
 */
module Availability {
  import opened Basics

  datatype Status = Available | Unavailable

  datatype Reason =
    | RateLimited | QuotaExhausted | AuthenticationError | ContextLimitExceeded
    | BackendOutage | ManualDisable | UnknownReason

  datatype Source = BackendError | Manual | Imported | Reprobe

  datatype Expiry = Never | At(instant: int) | Unparsable(text: string)

  /** The exact scope of a record, and also the shape of a query. */
  datatype ScopeKey = ScopeKey(
    backend: string, instance: Option<string>, model: Option<string>, pool: Option<string>)

  datatype Record = Record(
    key: ScopeKey, status: Status, reason: Reason, observedAt: int,
    until: Expiry, source: Source, summary: Option<string>)

  const CEILING_SECONDS: int := 2 * 60 * 60

  // ----- Backend aliases, folded when the file is loaded

  function CanonicalBackend(name: string): string {
    if name == "cloud-coder" then "openhands" else name
  }

  function FoldRecord(r: Record): Record {
    r.(key := r.key.(backend := CanonicalBackend(r.key.backend)))
  }

  function Folded(s: seq<Record>): (r: seq<Record>)
    ensures |r| == |s|
    ensures forall i :: 0 <= i < |s| ==> r[i] == FoldRecord(s[i])
  {
    seq(|s|, i requires 0 <= i < |s| => FoldRecord(s[i]))
  }

  // ----- Selectors

  /** `ExactSel` is the lookup of `clear_quota_failure`; the other two drive eligibility. */
  datatype Selector =
    | PoolSel(pool: string)
    | ScopeSel(backend: string, instance: Option<string>, model: Option<string>)
    | ExactSel(key: ScopeKey)

  predicate Selects(sel: Selector, k: ScopeKey) {
    match sel
    case PoolSel(pool) => k.pool == Some(pool)
    case ScopeSel(backend, instance, model) =>
      && k.backend == backend
      && k.model == model
      && (k.instance.None? || (instance.Some? && k.instance == instance))
    case ExactSel(key) => k == key
  }

  /** Position of the last record in file order that the selector picks. */
  function Latest(s: seq<Record>, sel: Selector): (r: Option<nat>)
    ensures r.Some? ==>
              && r.value < |s|
              && Selects(sel, s[r.value].key)
              && forall j :: r.value < j < |s| ==> !Selects(sel, s[j].key)
    ensures r.None? ==> forall j :: 0 <= j < |s| ==> !Selects(sel, s[j].key)
  {
    if s == [] then None
    else if Selects(sel, Last(s).key) then Some(|s| - 1)
    else Latest(s[..|s| - 1], sel)
  }

  predicate IsActive(r: Record, now: int) {
    r.status.Unavailable? && (r.until.At? ==> r.until.instant > now)
  }

  // ----- Eligibility

  datatype BlockScope = BackendWide | ModelSpecific | QuotaPool

  datatype Decision = Eligible | Blocked(reason: Reason, until: Expiry, scope: BlockScope)

  datatype Blocker = NoBlocker | BlockedAt(index: nat, scope: BlockScope)

  function LatestInPool(s: seq<Record>, q: ScopeKey): Option<nat> {
    if q.pool.Some? then Latest(s, PoolSel(q.pool.value)) else None
  }

  function LatestWide(s: seq<Record>, q: ScopeKey): Option<nat> {
    Latest(s, ScopeSel(q.backend, q.instance, None))
  }

  function LatestForModel(s: seq<Record>, q: ScopeKey): Option<nat> {
    if q.model.Some? then Latest(s, ScopeSel(q.backend, q.instance, q.model)) else None
  }

  /** `at` names a record that explicitly says `available`. */
  predicate IsClear(s: seq<Record>, at: Option<nat>) {
    at.Some? && at.value < |s| && s[at.value].status.Available?
  }

  /** Which of the latest records blocks at `now`: pool first, then backend-wide, then the
      model, a model block older than a broader clear being ignored. */
  function Precedence(s: seq<Record>, pool: Option<nat>, wide: Option<nat>, model: Option<nat>, now: int): (b: Blocker)
    requires forall o :: o in {pool, wide, model} && o.Some? ==> o.value < |s|
    ensures b.BlockedAt? ==> b.index < |s| && IsActive(s[b.index], now)
  {
    if pool.Some? && IsActive(s[pool.value], now) then BlockedAt(pool.value, QuotaPool)
    else if wide.Some? && IsActive(s[wide.value], now) then BlockedAt(wide.value, BackendWide)
    else if model.Some? && IsActive(s[model.value], now)
            && (IsClear(s, pool) ==> model.value > pool.value)
            && (IsClear(s, wide) ==> model.value > wide.value)
    then BlockedAt(model.value, ModelSpecific)
    else NoBlocker
  }

  function FindBlocker(s: seq<Record>, q: ScopeKey, now: int): (b: Blocker)
    ensures b.BlockedAt? ==> b.index < |s| && IsActive(s[b.index], now)
  {
    Precedence(s, LatestInPool(s, q), LatestWide(s, q), LatestForModel(s, q), now)
  }

  function Decide(s: seq<Record>, q: ScopeKey, now: int): Decision {
    match FindBlocker(s, q, now)
    case NoBlocker => Eligible
    case BlockedAt(i, scope) => Blocked(s[i].reason, s[i].until, scope)
  }

  // ----- What a decision means, said of single records and their fields

  /** Records of scope `k` concern the query on this level. A record that names an instance
      concerns only queries of that instance. */
  predicate Concerns(q: ScopeKey, k: ScopeKey, level: BlockScope) {
    match level
    case QuotaPool => q.pool.Some? && k.pool == q.pool
    case BackendWide => k.backend == q.backend && k.model.None? && (k.instance.None? || k.instance == q.instance)
    case ModelSpecific =>
      && q.model.Some? && k.backend == q.backend && k.model == q.model
      && (k.instance.None? || k.instance == q.instance)
  }

  /** The record says unavailable, and its end, if it has a readable one, is yet to come. */
  predicate Blocking(r: Record, now: int) {
    && r.status == Unavailable
    && match r.until
       case Never => true
       case Unparsable(_) => true
       case At(end) => now < end
  }

  /** Record `i` speaks for the query on the given level: the last one that concerns it there. */
  ghost predicate SpeaksFor(s: seq<Record>, q: ScopeKey, i: nat, level: BlockScope) {
    i < |s| && Concerns(q, s[i].key, level) && forall j :: i < j < |s| ==> !Concerns(q, s[j].key, level)
  }

  function Rank(level: BlockScope): nat {
    match level
    case QuotaPool => 0
    case BackendWide => 1
    case ModelSpecific => 2
  }

  /** Record `i` blocks the query: it is blocking and speaks for the query, nothing that speaks on
      a broader level is blocking, and a model's record is not older than a broader clear. */
  ghost predicate Blocks(s: seq<Record>, q: ScopeKey, now: int, i: nat, level: BlockScope) {
    && SpeaksFor(s, q, i, level) && Blocking(s[i], now)
    && forall j: nat, broader :: j < |s| && SpeaksFor(s, q, j, broader) && Rank(broader) < Rank(level) ==>
                              && !Blocking(s[j], now)
                              && (level.ModelSpecific? && s[j].status.Available? ==> j < i)
  }

  function SpeakerOf(s: seq<Record>, q: ScopeKey, level: BlockScope): Option<nat> {
    match level
    case QuotaPool => LatestInPool(s, q)
    case BackendWide => LatestWide(s, q)
    case ModelSpecific => LatestForModel(s, q)
  }

  lemma SpeakersAreLatest(s: seq<Record>, q: ScopeKey, i: nat, level: BlockScope)
    ensures SpeaksFor(s, q, i, level) <==> SpeakerOf(s, q, level) == Some(i)
  {
  }

  /** The speaker on a broader level does not stand in the way of record `i`. */
  predicate Yields(s: seq<Record>, speaker: Option<nat>, i: nat, level: BlockScope, now: int) {
    speaker.Some? && speaker.value < |s| ==>
      && !Blocking(s[speaker.value], now)
      && (level.ModelSpecific? && s[speaker.value].status.Available? ==> speaker.value < i)
  }

  lemma BlocksBySpeakers(s: seq<Record>, q: ScopeKey, now: int, i: nat, level: BlockScope)
    ensures Blocks(s, q, now, i, level)
            <==> && SpeakerOf(s, q, level) == Some(i) && Blocking(s[i], now)
                 && (level != QuotaPool ==> Yields(s, SpeakerOf(s, q, QuotaPool), i, level, now))
                 && (level == ModelSpecific ==> Yields(s, SpeakerOf(s, q, BackendWide), i, level, now))
  {
    forall j: nat, l
      ensures SpeaksFor(s, q, j, l) <==> SpeakerOf(s, q, l) == Some(j)
    {
      SpeakersAreLatest(s, q, j, l);
    }
  }

  /** The decision procedure finds exactly the blocking record, and at most one record blocks. */
  lemma {:induction false} BlockerIff(s: seq<Record>, q: ScopeKey, now: int, i: nat, level: BlockScope)
    ensures FindBlocker(s, q, now) == BlockedAt(i, level) <==> Blocks(s, q, now, i, level)
  {
    BlocksBySpeakers(s, q, now, i, level);
  }

  /** A query is eligible iff no record of the file blocks it, and a block quotes the reason and
      the end of the record that blocks. */
  lemma {:induction false} EligibleIff(s: seq<Record>, q: ScopeKey, now: int)
    ensures Decide(s, q, now) == Eligible <==> forall i: nat, level :: !Blocks(s, q, now, i, level)
    ensures forall i: nat, level :: Blocks(s, q, now, i, level) ==>
                                      Decide(s, q, now) == Blocked(s[i].reason, s[i].until, level)
  {
    forall i: nat, level
      ensures FindBlocker(s, q, now) == BlockedAt(i, level) <==> Blocks(s, q, now, i, level)
    {
      BlockerIff(s, q, now, i, level);
    }
  }

  /** On a file of one record: blocked iff the record is blocking and concerns the query. */
  lemma {:induction false} SingleBlockIff(r: Record, q: ScopeKey, now: int)
    ensures var k := r.key;
            Decide([r], q, now) != Eligible
            <==> && r.status == Unavailable && (r.until.At? ==> r.until.instant > now)
                 && (|| (q.pool.Some? && k.pool == q.pool)
                     || (&& k.backend == q.backend && (k.instance.None? || k.instance == q.instance)
                         && (k.model.None? || k.model == q.model)))
  {
    assert Last([r]) == r && [r][..0] == [];
    assert forall sel :: Latest([], sel) == None;
  }

  /** An alias and the name it stands for are one backend once the file is loaded. */
  lemma AliasIsFolded(name: string)
    ensures CanonicalBackend("cloud-coder") == "openhands"
    ensures name != "cloud-coder" ==> CanonicalBackend(name) == name
  {
  }

  // ----- Retention

  predicate Expired(r: Record, now: int) {
    r.status.Unavailable? && r.until.At? && r.until.instant <= now
  }

  /** Expired is an unavailable record that is no longer blocking, no more and no less. */
  lemma ExpiredIff(r: Record, now: int)
    ensures Expired(r, now) <==> r.status == Unavailable && !Blocking(r, now)
  {
  }

  /** A later record has exactly the same scope. */
  predicate Superseded(s: seq<Record>, i: nat)
    requires i < |s|
  {
    exists j | i < j < |s| :: s[j].key == s[i].key
  }

  predicate Keep(s: seq<Record>, i: nat, now: int)
    requires i < |s|
  {
    Expired(s[i], now) ==> !Superseded(s, i)
  }

  /** The positions below `n` that survive retention, in file order. */
  function KeptBelow(s: seq<Record>, now: int, n: nat): (at: seq<nat>)
    requires n <= |s|
    ensures Increasing(at)
    ensures forall i :: 0 <= i < |at| ==> at[i] < n && Keep(s, at[i], now)
    ensures forall j :: 0 <= j < n && Keep(s, j, now) ==> j in at
  {
    if n == 0 then []
    else KeptBelow(s, now, n - 1) + (if Keep(s, n - 1, now) then [n - 1] else [])
  }

  function Retained(s: seq<Record>, now: int): seq<Record> {
    Pick(s, KeptBelow(s, now, |s|))
  }

  // ----- The write path

  /** What a caller of `update_state` does with the loaded state: append a record it
      built, record the recovery of a quota failure, or only compact. */
  datatype Command =
    | Append(record: Record)
    | ClearQuota(identity: ScopeKey, at: int)
    | Compact

  function NewRecords(loaded: seq<Record>, c: Command): seq<Record> {
    match c
    case Append(r) => [r]
    case Compact => []
    case ClearQuota(identity, at) =>
      match Latest(loaded, ExactSel(identity))
      case None => []
      case Some(i) =>
        var prior := loaded[i];
        if prior.status.Unavailable? && prior.reason.QuotaExhausted?
           && (prior.source.BackendError? || prior.source.Reprobe?)
        then [Record(prior.key, Available, UnknownReason, at, Never, BackendError, None)]
        else []
  }

  /** A successful run ends a quota streak: only if the last record of exactly its scope is a quota
      block seen on the backend (or its correction), one record says available again. */
  lemma QuotaClearIff(loaded: seq<Record>, identity: ScopeKey, at: int, i: nat)
    requires i < |loaded| && loaded[i].key == identity && forall j :: i < j < |loaded| ==> loaded[j].key != identity
    ensures var r := loaded[i];
            var streak := r.status == Unavailable && r.reason == QuotaExhausted && r.source in {BackendError, Reprobe};
            NewRecords(loaded, ClearQuota(identity, at))
            == if streak then [Record(identity, Available, UnknownReason, at, Never, BackendError, None)] else []
  {
    assert Selects(ExactSel(identity), loaded[i].key);
    assert Latest(loaded, ExactSel(identity)) == Some(i);
  }

  lemma QuotaClearOfNothing(loaded: seq<Record>, identity: ScopeKey, at: int)
    requires forall j :: 0 <= j < |loaded| ==> loaded[j].key != identity
    ensures NewRecords(loaded, ClearQuota(identity, at)) == []
  {
    assert Latest(loaded, ExactSel(identity)) == None;
  }

  /** One locked read-modify-write at wall-clock time `clock`. */
  function Written(file: seq<Record>, c: Command, clock: int): seq<Record> {
    Retained(Folded(file) + NewRecords(Folded(file), c), clock)
  }

  datatype Write = Write(command: Command, clock: int)

  function FileAfter(start: seq<Record>, ws: seq<Write>): seq<Record> {
    if ws == [] then start
    else Written(FileAfter(start, ws[..|ws| - 1]), Last(ws).command, Last(ws).clock)
  }

  /** The same commands on a log that is never rewritten. */
  function HistoryAfter(start: seq<Record>, ws: seq<Write>): seq<Record> {
    if ws == [] then start
    else
      var h := HistoryAfter(start, ws[..|ws| - 1]);
      h + NewRecords(Folded(h), Last(ws).command)
  }
}
