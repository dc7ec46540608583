/**
 The operator's `gah availability clear`: one appended `available` record, and exactly
 which queries it can change.
 */
module AvailabilityClear {
  import opened Basics
  import opened Availability

  function ClearRecord(scope: ScopeKey, now: int): Record {
    Record(
      scope.(backend := CanonicalBackend(scope.backend)),
      Available, UnknownReason, now, Never, Manual, None)
  }

  /** Records of this scope concern the query on some level. */
  predicate Consults(q: ScopeKey, k: ScopeKey) {
    Concerns(q, k, QuotaPool) || Concerns(q, k, BackendWide) || Concerns(q, k, ModelSpecific)
  }

  lemma LatestAppended(s: seq<Record>, r: Record, sel: Selector)
    ensures Latest(s + [r], sel) == if Selects(sel, r.key) then Some(|s|) else Latest(s, sel)
  {
    var t := s + [r];
    assert Last(t) == r && t[..|t| - 1] == s;
  }

  /** Where the three levels of the query look after `r` is appended. */
  lemma LevelsAppended(s: seq<Record>, r: Record, q: ScopeKey)
    ensures var t := s + [r];
            && LatestInPool(t, q) == (if q.pool.Some? && Selects(PoolSel(q.pool.value), r.key) then Some(|s|) else LatestInPool(s, q))
            && LatestWide(t, q) == (if Selects(ScopeSel(q.backend, q.instance, None), r.key) then Some(|s|) else LatestWide(s, q))
            && LatestForModel(t, q) == (if q.model.Some? && Selects(ScopeSel(q.backend, q.instance, q.model), r.key) then Some(|s|)
                                        else LatestForModel(s, q))
  {
    if q.pool.Some? {
      LatestAppended(s, r, PoolSel(q.pool.value));
    }
    LatestAppended(s, r, ScopeSel(q.backend, q.instance, None));
    LatestAppended(s, r, ScopeSel(q.backend, q.instance, q.model));
  }

  /** A record of another backend, model or instance, and not of the query's pool, changes no
      decision, wherever it stands at the end of a file. */
  lemma UnconsultedChangesNothing(s: seq<Record>, r: Record, q: ScopeKey, now: int)
    requires !Consults(q, r.key)
    ensures Decide(s + [r], q, now) == Decide(s, q, now)
  {
    LevelsAppended(s, r, q);
    PrecedenceAppended(s, r, LatestInPool(s, q), LatestWide(s, q), LatestForModel(s, q), now);
  }

  lemma PrecedenceAppended(s: seq<Record>, r: Record, pool: Option<nat>, wide: Option<nat>, model: Option<nat>, now: int)
    requires (pool.Some? ==> pool.value < |s|) && (wide.Some? ==> wide.value < |s|) && (model.Some? ==> model.value < |s|)
    ensures Precedence(s + [r], pool, wide, model, now) == Precedence(s, pool, wide, model, now)
  {
  }

  /** In particular a record of another instance and another pool never matters. */
  lemma OtherInstanceChangesNothing(s: seq<Record>, r: Record, q: ScopeKey, now: int)
    requires r.key.instance.Some? && r.key.instance != q.instance && (q.pool.None? || r.key.pool != q.pool)
    ensures Decide(s + [r], q, now) == Decide(s, q, now)
  {
    UnconsultedChangesNothing(s, r, q, now);
  }

  /** A block of `k` without end. */
  function Disabled(k: ScopeKey): Record {
    Record(k, Unavailable, ManualDisable, 0, Never, Manual, None)
  }

  lemma ConsultedBlocks(q: ScopeKey, k: ScopeKey, now: int)
    requires Consults(q, k)
    ensures Decide([Disabled(k)], q, now) != Eligible
  {
    LevelsAppended([], Disabled(k), q);
    assert [] + [Disabled(k)] == [Disabled(k)];
  }

  lemma ConsultedClears(q: ScopeKey, r: Record, now: int)
    requires r.status.Available?
    ensures Decide([Disabled(r.key)] + [r], q, now) == Eligible
  {
    var off := Disabled(r.key);
    LevelsAppended([], off, q);
    assert [] + [off] == [off];
    LevelsAppended([off], r, q);
  }

  /** A clear leaves a query's decision alone on every file and at every time exactly when
      none of the levels that the query is answered on picks the cleared scope. */
  lemma ClearLeavesQueryAloneIff(scope: ScopeKey, at: int, q: ScopeKey)
    ensures (forall s, now :: Decide(s + [ClearRecord(scope, at)], q, now) == Decide(s, q, now))
            <==> !Consults(q, scope.(backend := CanonicalBackend(scope.backend)))
  {
    var r := ClearRecord(scope, at);
    if Consults(q, r.key) {
      ConsultedBlocks(q, r.key, 0);
      ConsultedClears(q, r, 0);
    } else {
      forall s, now
        ensures Decide(s + [r], q, now) == Decide(s, q, now)
      {
        UnconsultedChangesNothing(s, r, q, now);
      }
    }
  }

  const CODEX_OFF := Disabled(ScopeKey("codex", None, None, None))
  const POOL_CLEAR := ClearRecord(ScopeKey("codex", None, None, Some("team")), 1)

  /** Clearing one pool of a backend also lifts the operator's disable of the whole backend,
      for queries that name no pool. */
  lemma PoolClearLiftsBackendDisable(model: Option<string>, now: int)
    ensures var q := ScopeKey("codex", None, model, None);
            Decide([CODEX_OFF], q, now) != Eligible && Decide([CODEX_OFF] + [POOL_CLEAR], q, now) == Eligible
  {
    var q := ScopeKey("codex", None, model, None);
    LevelsAppended([], CODEX_OFF, q);
    assert [] + [CODEX_OFF] == [CODEX_OFF];
    LevelsAppended([CODEX_OFF], POOL_CLEAR, q);
  }

  /** Right after a backend-wide clear, only an active pool block can stop that backend. */
  lemma {:induction false} ClearOpensBackend(s: seq<Record>, backend: string, at: int, q: ScopeKey, now: int)
    requires q.backend == CanonicalBackend(backend)
    ensures var t := s + [ClearRecord(ScopeKey(backend, None, None, None), at)];
            Decide(t, q, now) == Eligible
            <==> (LatestInPool(s, q).Some? ==> !IsActive(s[LatestInPool(s, q).value], now))
  {
    var r := ClearRecord(ScopeKey(backend, None, None, None), at);
    LevelsAppended(s, r, q);
  }
}
