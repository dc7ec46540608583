/**
 Compaction is invisible. A compacted file is an order-preserving selection of the
 full history that still holds the last record of every exact scope; because every
 selector is a function of the scope, no selector can tell the two apart.
 */
module AvailabilityRetention {
  import opened Basics
  import opened Availability

  /** `c` is `h` restricted to the positions `at`, and every omitted position is superseded. */
  ghost predicate Embeds(c: seq<Record>, h: seq<Record>, at: seq<nat>) {
    && |at| == |c|
    && Increasing(at)
    && (forall i :: 0 <= i < |c| ==> at[i] < |h| && h[at[i]] == c[i])
    && (forall j :: 0 <= j < |h| ==> j in at || Superseded(h, j))
  }

  ghost predicate Refines(c: seq<Record>, h: seq<Record>) {
    exists at :: Embeds(c, h, at)
  }

  // ----- Building the relation

  lemma EmbedsSelf(h: seq<Record>)
    ensures Refines(h, h)
  {
    var at := seq(|h|, i => i);
    forall j | 0 <= j < |h|
      ensures j in at
    {
      assert at[j] == j;
    }
    assert Embeds(h, h, at);
  }

  lemma {:induction false} EmbedsTransitive(a: seq<Record>, b: seq<Record>, c: seq<Record>, f: seq<nat>, g: seq<nat>)
    requires Embeds(a, b, f) && Embeds(b, c, g)
    ensures Embeds(a, c, Pick(g, f))
  {
    var fg := Pick(g, f);
    forall j | 0 <= j < |c| && !Superseded(c, j)
      ensures j in fg
    {
      var i :| 0 <= i < |g| && g[i] == j;
      forall k | i < k < |b|
        ensures b[k].key != b[i].key
      {
        assert g[k] > j && c[g[k]] == b[k];
      }
      assert !Superseded(b, i) && i in f;
      var m :| 0 <= m < |f| && f[m] == i;
      assert fg[m] == j;
    }
  }

  lemma {:induction false} EmbedsAppend(c: seq<Record>, h: seq<Record>, at: seq<nat>, r: Record)
    requires Embeds(c, h, at)
    ensures Embeds(c + [r], h + [r], at + [|h|])
  {
    var h', at' := h + [r], at + [|h|];
    forall j | 0 <= j < |h'|
      ensures j in at' || Superseded(h', j)
    {
      if j == |h| {
        assert at'[|at|] == j;
      } else if j in at {
        var i :| 0 <= i < |at| && at[i] == j;
        assert at'[i] == j;
      } else {
        var k :| j < k < |h| && h[k].key == h[j].key;
        assert h'[k].key == h'[j].key;
      }
    }
  }

  lemma {:induction false} RefinesAppend(c: seq<Record>, h: seq<Record>, rs: seq<Record>)
    requires Refines(c, h)
    ensures Refines(c + rs, h + rs)
  {
    if rs == [] {
      assert c + rs == c && h + rs == h;
    } else {
      var n := |rs| - 1;
      RefinesAppend(c, h, rs[..n]);
      var at :| Embeds(c + rs[..n], h + rs[..n], at);
      EmbedsAppend(c + rs[..n], h + rs[..n], at, rs[n]);
      assert (c + rs[..n]) + [rs[n]] == c + rs;
      assert (h + rs[..n]) + [rs[n]] == h + rs;
    }
  }

  lemma RefinesTransitive(a: seq<Record>, b: seq<Record>, c: seq<Record>)
    requires Refines(a, b) && Refines(b, c)
    ensures Refines(a, c)
  {
    var f :| Embeds(a, b, f);
    var g :| Embeds(b, c, g);
    EmbedsTransitive(a, b, c, f, g);
  }

  /** Retention compares scopes before aliases are folded; folding afterwards can only
      identify more scopes, so what it dropped is still superseded. */
  lemma {:induction false} RetentionEmbeds(s: seq<Record>, now: int)
    ensures Embeds(Folded(Retained(s, now)), Folded(s), KeptBelow(s, now, |s|))
  {
    var h := Folded(s);
    forall j | 0 <= j < |h| && j !in KeptBelow(s, now, |s|)
      ensures Superseded(h, j)
    {
      var k :| j < k < |s| && s[k].key == s[j].key;
      assert h[k].key == h[j].key;
    }
  }

  /** Retention, one record further. */
  lemma {:induction false} KeptNext(records: seq<Record>, now: int, n: nat)
    requires n < |records|
    ensures Pick(records, KeptBelow(records, now, n + 1))
            == Pick(records, KeptBelow(records, now, n)) + (if Keep(records, n, now) then [records[n]] else [])
  {
  }

  lemma FoldedIdempotent(s: seq<Record>)
    ensures Folded(Folded(s)) == Folded(s)
  {
  }

  // ----- Reading through the relation

  lemma {:induction false} LatestThroughEmbedding(c: seq<Record>, h: seq<Record>, at: seq<nat>, sel: Selector)
    requires Embeds(c, h, at)
    ensures Latest(c, sel).None? <==> Latest(h, sel).None?
    ensures Latest(c, sel).Some? ==> Latest(h, sel) == Some(at[Latest(c, sel).value])
  {
    var inH := Latest(h, sel);
    if inH.Some? {
      var j := inH.value;
      assert !Superseded(h, j);
      var i :| 0 <= i < |at| && at[i] == j;
      assert Selects(sel, c[i].key);
      forall k | i < k < |c|
        ensures !Selects(sel, c[k].key)
      {
        assert at[k] > j && h[at[k]] == c[k];
      }
    } else {
      forall i | 0 <= i < |c|
        ensures !Selects(sel, c[i].key)
      {
        assert h[at[i]] == c[i];
      }
    }
  }

  /** A lookup in the compacted list and the same lookup in the history. */
  ghost predicate Corresponds(c: seq<Record>, at: seq<nat>, inC: Option<nat>, inH: Option<nat>) {
    match inC
    case None => inH == None
    case Some(i) => i < |c| && |at| == |c| && inH == Some(at[i])
  }

  lemma PrecedenceThroughEmbedding(
    c: seq<Record>, h: seq<Record>, at: seq<nat>, now: int,
    pool: Option<nat>, wide: Option<nat>, model: Option<nat>,
    pool': Option<nat>, wide': Option<nat>, model': Option<nat>)
    requires Embeds(c, h, at)
    requires Corresponds(c, at, pool, pool') && Corresponds(c, at, wide, wide') && Corresponds(c, at, model, model')
    ensures match Precedence(c, pool, wide, model, now)
            case NoBlocker => Precedence(h, pool', wide', model', now) == NoBlocker
            case BlockedAt(i, scope) => Precedence(h, pool', wide', model', now) == BlockedAt(at[i], scope)
  {
  }

  lemma {:induction false} BlockerThroughEmbedding(c: seq<Record>, h: seq<Record>, at: seq<nat>, q: ScopeKey, now: int)
    requires Embeds(c, h, at)
    ensures match FindBlocker(c, q, now)
            case NoBlocker => FindBlocker(h, q, now) == NoBlocker
            case BlockedAt(i, scope) => FindBlocker(h, q, now) == BlockedAt(at[i], scope)
  {
    if q.pool.Some? {
      LatestThroughEmbedding(c, h, at, PoolSel(q.pool.value));
    }
    LatestThroughEmbedding(c, h, at, ScopeSel(q.backend, q.instance, None));
    LatestThroughEmbedding(c, h, at, ScopeSel(q.backend, q.instance, q.model));
    PrecedenceThroughEmbedding(
      c, h, at, now,
      LatestInPool(c, q), LatestWide(c, q), LatestForModel(c, q),
      LatestInPool(h, q), LatestWide(h, q), LatestForModel(h, q));
  }

  lemma {:induction false} SameDecisions(c: seq<Record>, h: seq<Record>, q: ScopeKey, now: int)
    requires Refines(c, h)
    ensures Decide(c, q, now) == Decide(h, q, now)
  {
    var at :| Embeds(c, h, at);
    BlockerThroughEmbedding(c, h, at, q, now);
  }

  lemma {:induction false} SameNewRecords(c: seq<Record>, h: seq<Record>, cmd: Command)
    requires Refines(c, h)
    ensures NewRecords(c, cmd) == NewRecords(h, cmd)
  {
    var at :| Embeds(c, h, at);
    if cmd.ClearQuota? {
      LatestThroughEmbedding(c, h, at, ExactSel(cmd.identity));
    }
  }

  // ----- Whole runs

  lemma FoldedConcat(a: seq<Record>, b: seq<Record>)
    ensures Folded(a + b) == Folded(a) + Folded(b)
  {
  }

  /** One write keeps the file a compaction of the history. */
  lemma {:induction false} WriteKeepsRefinement(file: seq<Record>, h: seq<Record>, cmd: Command, clock: int)
    requires Refines(Folded(file), Folded(h))
    ensures Refines(Folded(Written(file, cmd, clock)), Folded(h + NewRecords(Folded(h), cmd)))
  {
    var added := NewRecords(Folded(h), cmd);
    SameNewRecords(Folded(file), Folded(h), cmd);
    var s := Folded(file) + added;
    RetentionEmbeds(s, clock);
    FoldedConcat(Folded(file), added);
    FoldedIdempotent(file);
    FoldedConcat(h, added);
    RefinesAppend(Folded(file), Folded(h), Folded(added));
    RefinesTransitive(Folded(Retained(s, clock)), Folded(s), Folded(h + added));
  }

  lemma {:induction false} RunKeepsRefinement(start: seq<Record>, ws: seq<Write>)
    ensures Refines(Folded(FileAfter(start, ws)), Folded(HistoryAfter(start, ws)))
  {
    if ws == [] {
      EmbedsSelf(Folded(start));
    } else {
      var before := ws[..|ws| - 1];
      RunKeepsRefinement(start, before);
      WriteKeepsRefinement(FileAfter(start, before), HistoryAfter(start, before), Last(ws).command, Last(ws).clock);
    }
  }

  /** Main theorem: over every run of writes, at any clock values, every query is answered
      at every instant exactly as the never-compacted history would answer it. */
  lemma CompactionInvisible(start: seq<Record>, ws: seq<Write>, q: ScopeKey, now: int)
    ensures Decide(Folded(FileAfter(start, ws)), q, now) == Decide(Folded(HistoryAfter(start, ws)), q, now)
  {
    RunKeepsRefinement(start, ws);
    SameDecisions(Folded(FileAfter(start, ws)), Folded(HistoryAfter(start, ws)), q, now);
  }
}
