/**
 The reprobe pass: every listed scope whose block is a `backend_error` with an end
 more than the ceiling ahead gets a capped record under the listed scope.
 */
module AvailabilityReprobe {
  import opened Basics
  import opened Text
  import opened Availability
  import opened AvailabilityRetention
  import opened AvailabilityListing

  predicate NeedsCap(row: ScopeStatus, now: int) {
    && row.decision.Blocked?
    && row.source == Some(BackendError)
    && row.decision.until.At?
    && row.decision.until.instant > now + CEILING_SECONDS
  }

  /** The quoted end of the old record; instants are written as numbers. */
  function StampText(until: Expiry): string {
    match until
    case Never => "none (never expires)"
    case Unparsable(text) => text
    case At(instant) => if instant < 0 then "-" + Decimal(-instant) else Decimal(instant)
  }

  function CapNote(row: ScopeStatus): string
    requires row.decision.Blocked?
  {
    "issue #765: auto-corrected stale unavailable_until (was " + StampText(row.decision.until)
    + "); original observation: " + (if row.summary.Some? then row.summary.value else "unknown")
  }

  function Cap(row: ScopeStatus, now: int): Record
    requires row.decision.Blocked?
  {
    Record(row.key, Unavailable, row.decision.reason, now, At(now + CEILING_SECONDS), Reprobe, Some(CapNote(row)))
  }

  function CapOf(row: ScopeStatus, now: int): seq<Record> {
    if NeedsCap(row, now) then [Cap(row, now)] else []
  }

  /** What one pass appends, in listing order. */
  function Caps(rows: seq<ScopeStatus>, now: int): (caps: seq<Record>)
    ensures |caps| <= |rows|
  {
    if rows == [] then [] else Caps(rows[..|rows| - 1], now) + CapOf(Last(rows), now)
  }

  function AfterPass(s: seq<Record>, now: int): seq<Record> {
    s + Caps(Listing(s, now), now)
  }

  // ----- What a pass is meant to remove

  predicate StaleBlock(s: seq<Record>, b: Blocker, now: int) {
    && b.BlockedAt?
    && b.index < |s|
    && s[b.index].source.BackendError?
    && s[b.index].until.At?
    && s[b.index].until.instant > now + CEILING_SECONDS
  }

  /** `q` is blocked at `now` by a backend error that ends more than the ceiling ahead. */
  predicate Stale(s: seq<Record>, q: ScopeKey, now: int) {
    StaleBlock(s, FindBlocker(s, q, now), now)
  }

  /** One of the appended records is picked by `sel`. */
  ghost predicate Hit(caps: seq<Record>, sel: Selector) {
    exists i :: 0 <= i < |caps| && Selects(sel, caps[i].key)
  }

  /** One of the appended records answers for `q` at the level `scope` or at a broader one. */
  ghost predicate Reached(caps: seq<Record>, q: ScopeKey, scope: BlockScope) {
    || (q.pool.Some? && Hit(caps, PoolSel(q.pool.value)))
    || (!scope.QuotaPool? && Hit(caps, ScopeSel(q.backend, q.instance, None)))
    || (scope.ModelSpecific? && Hit(caps, ScopeSel(q.backend, q.instance, q.model)))
  }

  ghost predicate AreCaps(caps: seq<Record>, now: int) {
    forall i :: 0 <= i < |caps| ==>
                  && caps[i].status.Unavailable?
                  && caps[i].source.Reprobe?
                  && caps[i].until == At(now + CEILING_SECONDS)
  }

  /** The row's quoted source is the blocking record's own. */
  lemma {:induction false} RowQuotesBlocker(s: seq<Record>, k: ScopeKey, now: int)
    ensures NeedsCap(Row(s, k, now), now) <==> Stale(s, k, now)
  {
  }

  lemma {:induction false} CapsAreCaps(rows: seq<ScopeStatus>, now: int)
    ensures AreCaps(Caps(rows, now), now)
  {
    if rows != [] {
      CapsAreCaps(rows[..|rows| - 1], now);
    }
  }

  lemma {:induction false} CapComesFromRow(rows: seq<ScopeStatus>, now: int, i: nat) returns (j: nat)
    requires i < |Caps(rows, now)|
    ensures j < |rows| && NeedsCap(rows[j], now) && rows[j].key == Caps(rows, now)[i].key
  {
    var before := Caps(rows[..|rows| - 1], now);
    if i < |before| {
      j := CapComesFromRow(rows[..|rows| - 1], now, i);
    } else {
      j := |rows| - 1;
    }
  }

  lemma {:induction false} RowGetsCap(rows: seq<ScopeStatus>, now: int, j: nat) returns (i: nat)
    requires j < |rows| && NeedsCap(rows[j], now)
    ensures i < |Caps(rows, now)| && rows[j].key == Caps(rows, now)[i].key
  {
    var before := rows[..|rows| - 1];
    if j < |before| {
      i := RowGetsCap(before, now, j);
    } else {
      i := |Caps(before, now)|;
    }
  }

  /** Every correction carries its scope's reason on, ends two hours ahead, and quotes the end and
      the summary of the record that it corrects. */
  lemma CapQuotes(s: seq<Record>, k: ScopeKey, now: int, i: nat, level: BlockScope, end: int)
    requires Blocks(s, k, now, i, level) && s[i].until == At(end) && end >= 0
    ensures var row := Row(s, k, now);
            var observed := if s[i].summary.Some? then s[i].summary.value else "unknown";
            row.decision.Blocked? && Cap(row, now)
            == Record(k, Unavailable, s[i].reason, now, At(now + 7_200), Reprobe,
                      Some("issue #765: auto-corrected stale unavailable_until (was " + Decimal(end)
                           + "); original observation: " + observed))
  {
    RowQuotes(s, k, now, i, level);
  }

  /** A pass appends one capped record for each listed stale scope and for no other. */
  lemma {:induction false} CapsContents(s: seq<Record>, ks: seq<ScopeKey>, now: int)
    ensures var caps := Caps(Rows(s, ks, now), now);
            && AreCaps(caps, now)
            && (forall i :: 0 <= i < |caps| ==> caps[i].key in ks && Stale(s, caps[i].key, now))
            && (forall k :: k in ks && Stale(s, k, now) ==> exists i :: 0 <= i < |caps| && caps[i].key == k)
  {
    var rows := Rows(s, ks, now);
    var caps := Caps(rows, now);
    CapsAreCaps(rows, now);
    forall i | 0 <= i < |caps|
      ensures caps[i].key in ks && Stale(s, caps[i].key, now)
    {
      var j := CapComesFromRow(rows, now, i);
      RowQuotesBlocker(s, ks[j], now);
    }
    forall k | k in ks && Stale(s, k, now)
      ensures exists i :: 0 <= i < |caps| && caps[i].key == k
    {
      var j :| 0 <= j < |ks| && ks[j] == k;
      RowQuotesBlocker(s, ks[j], now);
      assert rows[j] == Row(s, k, now);
      var i := RowGetsCap(rows, now, j);
      assert caps[i].key == k;
    }
  }

  lemma {:induction false} LatestWithCaps(s: seq<Record>, caps: seq<Record>, sel: Selector)
    ensures Hit(caps, sel) ==> Latest(s + caps, sel).Some? && Latest(s + caps, sel).value >= |s|
    ensures !Hit(caps, sel) ==> Latest(s + caps, sel) == Latest(s, sel)
  {
    var t := s + caps;
    if i :| 0 <= i < |caps| && Selects(sel, caps[i].key) {
      assert t[|s| + i] == caps[i];
    } else {
      assert forall j :: |s| <= j < |t| ==> t[j] == caps[j - |s|];
      assert forall j :: 0 <= j < |s| ==> t[j] == s[j];
    }
  }

  /** Where a lookup lands once `caps` are appended to `s`. */
  ghost predicate Moved(s: seq<Record>, caps: seq<Record>, before: Option<nat>, after: Option<nat>, hit: bool) {
    && (before.Some? ==> before.value < |s|)
    && (if hit then after.Some? && |s| <= after.value < |s| + |caps| else after == before)
  }

  lemma PrecedenceWithCaps(
      s: seq<Record>, caps: seq<Record>, now: int,
      pool: Option<nat>, wide: Option<nat>, model: Option<nat>,
      pool': Option<nat>, wide': Option<nat>, model': Option<nat>,
      hitPool: bool, hitWide: bool, hitModel: bool)
    requires AreCaps(caps, now)
    requires Moved(s, caps, pool, pool', hitPool)
    requires Moved(s, caps, wide, wide', hitWide)
    requires Moved(s, caps, model, model', hitModel)
    ensures var b := Precedence(s, pool, wide, model, now);
            StaleBlock(s + caps, Precedence(s + caps, pool', wide', model', now), now)
            <==> && StaleBlock(s, b, now)
                 && !hitPool
                 && (!b.scope.QuotaPool? ==> !hitWide)
                 && (b.scope.ModelSpecific? ==> !hitModel)
  {
    var t := s + caps;
    assert forall j :: |s| <= j < |t| ==> t[j] == caps[j - |s|];
    assert forall j :: 0 <= j < |s| ==> t[j] == s[j];
  }

  /** Exactly which queries stay stale once capped records are appended: those stale before
      whose blocking level none of them reaches. Holds for every history. */
  lemma {:induction false} StaleWithCaps(s: seq<Record>, caps: seq<Record>, q: ScopeKey, now: int)
    requires AreCaps(caps, now)
    ensures Stale(s + caps, q, now)
            <==> Stale(s, q, now) && !Reached(caps, q, FindBlocker(s, q, now).scope)
  {
    var t := s + caps;
    var wide := ScopeSel(q.backend, q.instance, None);
    var model := ScopeSel(q.backend, q.instance, q.model);
    if q.pool.Some? {
      LatestWithCaps(s, caps, PoolSel(q.pool.value));
    }
    LatestWithCaps(s, caps, wide);
    LatestWithCaps(s, caps, model);
    PrecedenceWithCaps(
      s, caps, now,
      LatestInPool(s, q), LatestWide(s, q), LatestForModel(s, q),
      LatestInPool(t, q), LatestWide(t, q), LatestForModel(t, q),
      q.pool.Some? && Hit(caps, PoolSel(q.pool.value)), Hit(caps, wide), q.model.Some? && Hit(caps, model));
  }

  /** Before the pass: the selector picks a scope of the file that is itself stale. */
  ghost predicate HasStaleScope(s: seq<Record>, sel: Selector, now: int) {
    exists i :: 0 <= i < |s| && Selects(sel, s[i].key) && Stale(s, s[i].key, now)
  }

  /** A stale scope of the file answers for `q` at the level `scope` or at a broader one. */
  ghost predicate Relieved(s: seq<Record>, q: ScopeKey, scope: BlockScope, now: int) {
    || (q.pool.Some? && HasStaleScope(s, PoolSel(q.pool.value), now))
    || (!scope.QuotaPool? && HasStaleScope(s, ScopeSel(q.backend, q.instance, None), now))
    || (scope.ModelSpecific? && HasStaleScope(s, ScopeSel(q.backend, q.instance, q.model), now))
  }

  lemma HitIff(s: seq<Record>, sel: Selector, now: int)
    ensures Hit(Caps(Listing(s, now), now), sel) <==> HasStaleScope(s, sel, now)
  {
    var caps := Caps(Listing(s, now), now);
    ScopesSorted(s);
    CapsContents(s, Scopes(s), now);
    if i :| 0 <= i < |caps| && Selects(sel, caps[i].key) {
      assert caps[i].key in Scopes(s) && Stale(s, caps[i].key, now);
      var j :| 0 <= j < |s| && s[j].key == caps[i].key;
      assert Selects(sel, s[j].key) && Stale(s, s[j].key, now);
    }
    if j :| 0 <= j < |s| && Selects(sel, s[j].key) && Stale(s, s[j].key, now) {
      assert s[j].key in Scopes(s);
      var i :| 0 <= i < |caps| && caps[i].key == s[j].key;
    }
  }

  /** The same for the pass itself, said of the file before it: a query stays stale exactly
      when it was stale and no stale scope of the file answers for it at its blocking level
      or a broader one. */
  lemma StaleAfterPass(s: seq<Record>, q: ScopeKey, now: int)
    ensures Stale(AfterPass(s, now), q, now)
            <==> Stale(s, q, now) && !Relieved(s, q, FindBlocker(s, q, now).scope, now)
  {
    CapsContents(s, Scopes(s), now);
    StaleWithCaps(s, Caps(Listing(s, now), now), q, now);
    if q.pool.Some? {
      HitIff(s, PoolSel(q.pool.value), now);
    }
    HitIff(s, ScopeSel(q.backend, q.instance, None), now);
    HitIff(s, ScopeSel(q.backend, q.instance, q.model), now);
  }

  // ----- Histories without pool or instance labels

  ghost predicate Unlabelled(s: seq<Record>) {
    forall i :: 0 <= i < |s| ==> s[i].key.pool.None? && s[i].key.instance.None?
  }

  lemma {:induction false} LatestIgnoresInstance(s: seq<Record>, q: ScopeKey, model: Option<string>)
    requires Unlabelled(s)
    ensures Latest(s, ScopeSel(q.backend, q.instance, model)) == Latest(s, ScopeSel(q.backend, None, model))
  {
    var a, b := ScopeSel(q.backend, q.instance, model), ScopeSel(q.backend, None, model);
    assert forall i :: 0 <= i < |s| ==> (Selects(a, s[i].key) <==> Selects(b, s[i].key));
  }

  /** Without labels, a stale query's blocking record has a listed scope that is itself stale. */
  lemma StaleAtItsOwnScope(s: seq<Record>, q: ScopeKey, now: int)
    requires Unlabelled(s) && Stale(s, q, now)
    ensures Stale(s, s[FindBlocker(s, q, now).index].key, now)
  {
    var k := s[FindBlocker(s, q, now).index].key;
    LatestIgnoresInstance(s, q, None);
    LatestIgnoresInstance(s, q, q.model);
    LatestIgnoresInstance(s, k, None);
    LatestIgnoresInstance(s, k, k.model);
  }

  lemma NoQueryStaleAfterPass(s: seq<Record>, q: ScopeKey, now: int)
    requires Unlabelled(s)
    ensures !Stale(AfterPass(s, now), q, now)
  {
    StaleAfterPass(s, q, now);
    if Stale(s, q, now) {
      StaleAtItsOwnScope(s, q, now);
      assert Relieved(s, q, FindBlocker(s, q, now).scope, now);
    }
  }

  /** One pass leaves no query stale at that instant, and repeating it appends nothing. */
  lemma OnePassSuffices(s: seq<Record>, now: int)
    requires Unlabelled(s)
    ensures forall q :: !Stale(AfterPass(s, now), q, now)
    ensures AfterPass(AfterPass(s, now), now) == AfterPass(s, now)
    ensures var t := AfterPass(s, now);
            forall q, i: nat, level :: Blocks(t, q, now, i, level) && t[i].source == BackendError && t[i].until.At? ==>
                                         t[i].until.instant <= now + 7_200
  {
    forall q
      ensures !Stale(AfterPass(s, now), q, now)
    {
      NoQueryStaleAfterPass(s, q, now);
    }
    var t := AfterPass(s, now);
    forall q, i: nat, level | Blocks(t, q, now, i, level) && t[i].source == BackendError && t[i].until.At?
      ensures t[i].until.instant <= now + 7_200
    {
      BlockerIff(t, q, now, i, level);
      assert !Stale(t, q, now);
    }
    CapsContents(t, Scopes(t), now);
    var again := Caps(Listing(t, now), now);
    assert again == [] || Stale(t, again[0].key, now);
  }

  // ----- A pass on the compacted file

  predicate Canonical(k: ScopeKey) {
    CanonicalBackend(k.backend) == k.backend
  }

  ghost predicate CanonicalRows(rows: seq<ScopeStatus>) {
    forall i :: 0 <= i < |rows| ==> Canonical(rows[i].key)
  }

  /** Listed scopes come from loaded records, so writing one back needs no further folding. */
  lemma ListedScopesAreFolded(h: seq<Record>, now: int)
    ensures CanonicalRows(Listing(Folded(h), now))
  {
    var s := Folded(h);
    ScopesSorted(s);
    forall i | 0 <= i < |Scopes(s)|
      ensures Canonical(Scopes(s)[i])
    {
      assert Scopes(s)[i] in Scopes(s);
      var j :| 0 <= j < |s| && s[j].key == Scopes(s)[i];
      assert s[j] == FoldRecord(h[j]);
    }
  }

  function CorrectedBy(file: seq<Record>, row: ScopeStatus, now: int, clock: int): seq<Record> {
    if NeedsCap(row, now) then Written(file, Append(Cap(row, now)), clock) else file
  }

  /** The corrections for `rows`, each its own write that compacts at its own clock reading. */
  function Corrected(file: seq<Record>, rows: seq<ScopeStatus>, now: int, clock: nat -> int): seq<Record> {
    if rows == [] then file
    else
      var n := |rows| - 1;
      CorrectedBy(Corrected(file, rows[..n], now, clock), rows[n], now, clock(n))
  }

  /** What a pass at `now` makes of the file. */
  function PassOnFile(file: seq<Record>, now: int, clock: nat -> int): seq<Record> {
    Corrected(file, Listing(Folded(file), now), now, clock)
  }

  lemma CapRefines(file: seq<Record>, h: seq<Record>, cap: Record, clock: int)
    requires Refines(Folded(file), h) && Folded(h) == h && Canonical(cap.key)
    ensures Refines(Folded(Written(file, Append(cap), clock)), h + [cap]) && Folded(h + [cap]) == h + [cap]
  {
    WriteKeepsRefinement(file, h, Append(cap), clock);
    FoldedConcat(h, [cap]);
    assert Folded([cap]) == [cap];
  }

  /** Compacting between the corrections is invisible too. */
  lemma {:induction false} CorrectedRefines(
    file: seq<Record>, h: seq<Record>, rows: seq<ScopeStatus>, now: int, clock: nat -> int)
    requires Refines(Folded(file), h) && Folded(h) == h && CanonicalRows(rows)
    ensures var t := h + Caps(rows, now);
            Refines(Folded(Corrected(file, rows, now, clock)), t) && Folded(t) == t
  {
    if rows == [] {
      assert h + [] == h;
    } else {
      var n := |rows| - 1;
      CorrectedRefines(file, h, rows[..n], now, clock);
      Associative(h, Caps(rows[..n], now), CapOf(rows[n], now));
      if NeedsCap(rows[n], now) {
        CapRefines(Corrected(file, rows[..n], now, clock), h + Caps(rows[..n], now), Cap(rows[n], now), clock(n));
      } else {
        assert h + Caps(rows[..n], now) + [] == h + Caps(rows[..n], now);
      }
    }
  }

  /** A pass on the compacted file is a pass on the history: it sees the same rows and appends
      the same corrections. */
  lemma PassRefines(file: seq<Record>, h: seq<Record>, now: int, clock: nat -> int)
    requires Refines(Folded(file), h) && Folded(h) == h
    ensures Listing(Folded(file), now) == Listing(h, now)
    ensures Refines(Folded(PassOnFile(file, now, clock)), AfterPass(h, now))
    ensures Folded(AfterPass(h, now)) == AfterPass(h, now)
  {
    ListingInvisible(Folded(file), h, now);
    ListedScopesAreFolded(h, now);
    CorrectedRefines(file, h, Listing(h, now), now, clock);
  }

  /** Staleness is a property of the history, whatever retention has dropped. */
  lemma StaleInvisible(c: seq<Record>, h: seq<Record>, q: ScopeKey, now: int)
    requires Refines(c, h)
    ensures Stale(c, q, now) <==> Stale(h, q, now)
  {
    var at :| Embeds(c, h, at);
    BlockerThroughEmbedding(c, h, at, q, now);
  }

  // ----- With labels, a pass can fail to settle for ever

  /** A pass: the instant it judges by, and the clock readings of its writes. */
  datatype Pass = Pass(now: int, clock: nat -> int)

  function FilePasses(file: seq<Record>, passes: seq<Pass>): seq<Record> {
    if passes == [] then file
    else PassOnFile(FilePasses(file, passes[..|passes| - 1]), Last(passes).now, Last(passes).clock)
  }

  function Passes(h: seq<Record>, passes: seq<Pass>): seq<Record> {
    if passes == [] then h else AfterPass(Passes(h, passes[..|passes| - 1]), Last(passes).now)
  }

  const BLOCK_END := 1_000_000

  const STALE_IN_POOL := Record(
    ScopeKey("codex", None, None, Some("team")), Unavailable, RateLimited, 0, At(BLOCK_END), BackendError, None)

  const POOL_DISABLED := Record(
    ScopeKey("vibe", None, None, Some("team")), Unavailable, ManualDisable, 0, Never, Manual, None)

  const MODEL_SCOPE := ScopeKey("codex", None, Some("fast"), None)

  /** The stale backend-wide record's own row shows the pool block, so only the model's row is capped. */
  ghost predicate Hidden(s: seq<Record>) {
    && |s| >= 3
    && s[0] == STALE_IN_POOL
    && s[1] == POOL_DISABLED
    && forall i :: 2 <= i < |s| ==> s[i].key == MODEL_SCOPE
  }

  lemma {:induction false} HiddenLookups(s: seq<Record>)
    requires Hidden(s)
    ensures Latest(s, PoolSel("team")) == Some(1)
    ensures Latest(s, ScopeSel("codex", None, None)) == Some(0)
  {
    var pool, wide := PoolSel("team"), ScopeSel("codex", None, None);
    assert forall i :: 2 <= i < |s| ==> !Selects(pool, s[i].key) && !Selects(wide, s[i].key);
    assert Selects(pool, s[1].key) && Selects(wide, s[0].key);
    assert !Selects(wide, s[1].key);
  }

  /** The block still ends more than the ceiling ahead. */
  predicate FarFromEnd(now: int) {
    now + CEILING_SECONDS < BLOCK_END
  }

  lemma {:induction false} HiddenStale(s: seq<Record>, i: nat, now: int)
    requires Hidden(s) && i < |s| && FarFromEnd(now)
    ensures Stale(s, s[i].key, now) <==> s[i].key == MODEL_SCOPE
  {
    HiddenLookups(s);
  }

  lemma HiddenPass(s: seq<Record>, now: int)
    requires Hidden(s) && FarFromEnd(now)
    ensures Hidden(AfterPass(s, now)) && |AfterPass(s, now)| > |s|
    ensures Stale(AfterPass(s, now), MODEL_SCOPE, now)
  {
    ScopesSorted(s);
    CapsContents(s, Scopes(s), now);
    HiddenStale(s, 2, now);
    assert s[2].key in Scopes(s);
    var caps := Caps(Listing(s, now), now);
    forall i | 0 <= i < |caps|
      ensures caps[i].key == MODEL_SCOPE
    {
      var j :| 0 <= j < |s| && s[j].key == caps[i].key;
      HiddenStale(s, j, now);
    }
    HiddenStale(AfterPass(s, now), 2, now);
  }

  const MODEL_CAPPED := Record(MODEL_SCOPE, Unavailable, RateLimited, 0, At(CEILING_SECONDS), Reprobe, None)

  const STARVED: seq<Record> := [STALE_IN_POOL, POOL_DISABLED, MODEL_CAPPED]

  ghost predicate HiddenBehind(file: seq<Record>, h: seq<Record>) {
    Hidden(h) && Folded(h) == h && Refines(Folded(file), h)
  }

  lemma FoldedCanonical(s: seq<Record>)
    requires forall i :: 0 <= i < |s| ==> Canonical(s[i].key)
    ensures Folded(s) == s
  {
  }

  lemma {:induction false} StarvedIsHidden()
    ensures HiddenBehind(STARVED, STARVED)
  {
    assert Hidden(STARVED);
    assert Canonical(STARVED[0].key) && Canonical(STARVED[1].key) && Canonical(STARVED[2].key);
    FoldedCanonical(STARVED);
    EmbedsSelf(STARVED);
  }

  lemma HiddenPassOnFile(file: seq<Record>, h: seq<Record>, pass: Pass)
    requires HiddenBehind(file, h) && FarFromEnd(pass.now)
    ensures HiddenBehind(PassOnFile(file, pass.now, pass.clock), AfterPass(h, pass.now))
    ensures |AfterPass(h, pass.now)| > |h|
  {
    HiddenPass(h, pass.now);
    PassRefines(file, h, pass.now, pass.clock);
  }

  lemma {:induction false} PassesStayHidden(passes: seq<Pass>)
    requires forall i :: 0 <= i < |passes| ==> FarFromEnd(passes[i].now)
    ensures HiddenBehind(FilePasses(STARVED, passes), Passes(STARVED, passes))
    ensures |Passes(STARVED, passes)| >= |STARVED| + |passes|
  {
    if passes == [] {
      StarvedIsHidden();
    } else {
      var before := passes[..|passes| - 1];
      PassesStayHidden(before);
      HiddenPassOnFile(FilePasses(STARVED, before), Passes(STARVED, before), Last(passes));
    }
  }

  /** After any passes over this file, at any instants until the block itself comes within the
      ceiling of its end, and whatever each write's compaction dropped, the model's query is
      still stale and the next pass again has a correction to append. So the restriction of
      `OnePassSuffices` to unlabelled histories cannot be dropped. */
  lemma {:induction false} LabelsCanStarvePasses(passes: seq<Pass>, now: int)
    requires FarFromEnd(now) && forall i :: 0 <= i < |passes| ==> FarFromEnd(passes[i].now)
    ensures var file := FilePasses(STARVED, passes);
            Stale(Folded(file), MODEL_SCOPE, now) && Caps(Listing(Folded(file), now), now) != []
  {
    var file, h := FilePasses(STARVED, passes), Passes(STARVED, passes);
    PassesStayHidden(passes);
    HiddenStale(h, 2, now);
    StaleInvisible(Folded(file), h, MODEL_SCOPE, now);
    PassRefines(file, h, now, (i: nat) => 0);
    ScopesSorted(h);
    CapsContents(h, Scopes(h), now);
    assert h[2].key in Scopes(h);
  }

  /** The file itself need not grow: the write of the next correction keeps an earlier one
      only while that has not expired by the write's clock. */
  lemma {:induction false} CorrectionSurvivesIff(s: seq<Record>, cap: Record, clock: int, i: nat)
    requires Hidden(s) && cap.key == MODEL_SCOPE && i < |s|
    ensures var t := s + [cap];
            i in KeptBelow(t, clock, |t|) <==> i < 2 || !Expired(s[i], clock)
  {
    var t := s + [cap];
    assert t[i] == s[i] && t[|s|] == cap;
    if i >= 2 {
      assert t[|s|].key == t[i].key;
    } else {
      assert forall j :: i < j < |t| ==> t[j].key != t[i].key;
    }
    assert Keep(t, i, clock) <==> i < 2 || !Expired(s[i], clock);
  }
}
