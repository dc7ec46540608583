/**
 The scope listing of `gah availability` and the reprobe pass that is driven by it.
 */
module AvailabilityListing {
  import opened Basics
  import opened Availability
  import opened AvailabilityRetention

  // ----- The derived order on scope keys

  /** Three-way comparison of strings by scalar value. */
  function CompareText(a: string, b: string): int {
    if a == [] && b == [] then 0
    else if a == [] then -1
    else if b == [] then 1
    else if a[0] < b[0] then -1
    else if b[0] < a[0] then 1
    else CompareText(a[1..], b[1..])
  }

  function CompareOption(a: Option<string>, b: Option<string>): int {
    match (a, b)
    case (None, None) => 0
    case (None, Some(_)) => -1
    case (Some(_), None) => 1
    case (Some(x), Some(y)) => CompareText(x, y)
  }

  function CompareKey(a: ScopeKey, b: ScopeKey): int {
    var byBackend := CompareText(a.backend, b.backend);
    var byInstance := CompareOption(a.instance, b.instance);
    var byModel := CompareOption(a.model, b.model);
    if byBackend != 0 then byBackend
    else if byInstance != 0 then byInstance
    else if byModel != 0 then byModel
    else CompareOption(a.pool, b.pool)
  }

  lemma CompareTextLaws(a: string, b: string, c: string)
    ensures CompareText(a, b) == 0 <==> a == b
    ensures CompareText(a, b) == -CompareText(b, a)
    ensures CompareText(a, b) <= 0 && CompareText(b, c) <= 0 ==> CompareText(a, c) <= 0
    ensures CompareText(a, b) in {-1, 0, 1}
    decreases |a| + |b| + |c|
  {
    if a != [] && b != [] {
      if c != [] {
        CompareTextLaws(a[1..], b[1..], c[1..]);
      } else {
        CompareTextLaws(a[1..], b[1..], c);
      }
      assert a == [a[0]] + a[1..] && b == [b[0]] + b[1..];
    }
  }

  lemma CompareOptionLaws(a: Option<string>, b: Option<string>, c: Option<string>)
    ensures CompareOption(a, b) == 0 <==> a == b
    ensures CompareOption(a, b) == -CompareOption(b, a)
    ensures CompareOption(a, b) <= 0 && CompareOption(b, c) <= 0 ==> CompareOption(a, c) <= 0
  {
    var text := (o: Option<string>) => if o.Some? then o.value else [];
    CompareTextLaws(text(a), text(b), text(c));
  }

  lemma CompareKeyLaws(a: ScopeKey, b: ScopeKey, c: ScopeKey)
    ensures CompareKey(a, b) == 0 <==> a == b
    ensures CompareKey(a, b) == -CompareKey(b, a)
    ensures CompareKey(a, b) <= 0 && CompareKey(b, c) <= 0 ==> CompareKey(a, c) <= 0
  {
    CompareTextLaws(a.backend, b.backend, c.backend);
    CompareTextLaws(b.backend, c.backend, a.backend);
    CompareTextLaws(a.backend, c.backend, b.backend);
    CompareOptionLaws(a.instance, b.instance, c.instance);
    CompareOptionLaws(b.instance, c.instance, a.instance);
    CompareOptionLaws(a.instance, c.instance, b.instance);
    CompareOptionLaws(a.model, b.model, c.model);
    CompareOptionLaws(b.model, c.model, a.model);
    CompareOptionLaws(a.model, c.model, b.model);
    CompareOptionLaws(a.pool, b.pool, c.pool);
  }

  // ----- Distinct scopes, sorted

  // ----- The same order, said of single characters and fields

  /** `a` and `b` agree on their first `k` characters and then `a` ends or has the smaller one. */
  predicate LessAt(a: string, b: string, k: nat) {
    && k <= |a| && k < |b| && a[..k] == b[..k]
    && (k == |a| || a[k] < b[k])
  }

  ghost predicate TextLess(a: string, b: string) {
    exists k: nat :: LessAt(a, b, k)
  }

  lemma {:induction false} SmallerText(a: string, b: string) returns (k: nat)
    requires CompareText(a, b) < 0
    ensures LessAt(a, b, k)
  {
    if a == [] || a[0] < b[0] {
      k := 0;
    } else {
      k := SmallerText(a[1..], b[1..]);
      k := k + 1;
      assert a[..k] == [a[0]] + a[1..][..k - 1] && b[..k] == [b[0]] + b[1..][..k - 1];
    }
  }

  lemma {:induction false} TextIsSmaller(a: string, b: string, k: nat)
    requires LessAt(a, b, k)
    ensures CompareText(a, b) < 0
    decreases k
  {
    if k > 0 {
      assert a[0] == a[..k][0] == b[..k][0] == b[0];
      assert a[1..][..k - 1] == a[..k][1..] && b[1..][..k - 1] == b[..k][1..];
      TextIsSmaller(a[1..], b[1..], k - 1);
    }
  }

  lemma CompareTextIff(a: string, b: string)
    ensures CompareText(a, b) < 0 <==> TextLess(a, b)
  {
    if CompareText(a, b) < 0 {
      var k := SmallerText(a, b);
    } else if k: nat :| LessAt(a, b, k) {
      TextIsSmaller(a, b, k);
    }
  }

  ghost predicate OptionLess(a: Option<string>, b: Option<string>) {
    b.Some? && (a.None? || TextLess(a.value, b.value))
  }

  /** By backend, then instance, then model, then pool, a missing one first. */
  ghost predicate KeyLess(a: ScopeKey, b: ScopeKey) {
    || TextLess(a.backend, b.backend)
    || (a.backend == b.backend && OptionLess(a.instance, b.instance))
    || (a.backend == b.backend && a.instance == b.instance && OptionLess(a.model, b.model))
    || (a.backend == b.backend && a.instance == b.instance && a.model == b.model && OptionLess(a.pool, b.pool))
  }

  lemma CompareOptionIff(a: Option<string>, b: Option<string>)
    ensures CompareOption(a, b) < 0 <==> OptionLess(a, b)
    ensures CompareOption(a, b) == 0 <==> a == b
  {
    CompareOptionLaws(a, b, a);
    if a.Some? && b.Some? {
      CompareTextIff(a.value, b.value);
    }
  }

  lemma CompareKeyIff(a: ScopeKey, b: ScopeKey)
    ensures CompareKey(a, b) < 0 <==> KeyLess(a, b)
  {
    CompareTextLaws(a.backend, b.backend, a.backend);
    CompareTextIff(a.backend, b.backend);
    CompareTextIff(a.backend, a.backend);
    CompareOptionIff(a.instance, b.instance);
    CompareOptionIff(a.model, b.model);
    CompareOptionIff(a.pool, b.pool);
  }

  ghost predicate Sorted(xs: seq<ScopeKey>) {
    forall i, j :: 0 <= i < j < |xs| ==> CompareKey(xs[i], xs[j]) < 0
  }

  function Insert(k: ScopeKey, xs: seq<ScopeKey>): seq<ScopeKey> {
    if xs == [] || CompareKey(k, xs[0]) <= 0 then [k] + xs else [xs[0]] + Insert(k, xs[1..])
  }

  function SortKeys(xs: seq<ScopeKey>): seq<ScopeKey> {
    if xs == [] then [] else Insert(Last(xs), SortKeys(xs[..|xs| - 1]))
  }

  /** Scopes in order of first appearance. */
  function Seen(s: seq<Record>): (ks: seq<ScopeKey>)
    ensures forall k :: k in ks <==> exists i :: 0 <= i < |s| && s[i].key == k
    ensures forall i, j :: 0 <= i < j < |ks| ==> ks[i] != ks[j]
  {
    if s == [] then []
    else
      var before := Seen(s[..|s| - 1]);
      if Last(s).key in before then before else before + [Last(s).key]
  }

  function Scopes(s: seq<Record>): seq<ScopeKey> {
    SortKeys(Seen(s))
  }

  lemma {:induction false} InsertSorted(k: ScopeKey, xs: seq<ScopeKey>)
    requires Sorted(xs) && k !in xs
    ensures Sorted(Insert(k, xs))
    ensures forall x :: x in Insert(k, xs) <==> x == k || x in xs
  {
    if xs == [] {
    } else if CompareKey(k, xs[0]) <= 0 {
      forall j | 0 <= j < |xs|
        ensures CompareKey(k, xs[j]) < 0
      {
        CompareKeyLaws(k, xs[0], xs[j]);
        CompareKeyLaws(k, xs[j], k);
      }
    } else {
      InsertSorted(k, xs[1..]);
      var rest := Insert(k, xs[1..]);
      CompareKeyLaws(k, xs[0], k);
      forall j | 0 <= j < |rest|
        ensures CompareKey(xs[0], rest[j]) < 0
      {
        assert rest[j] in rest;
      }
      assert xs == [xs[0]] + xs[1..];
    }
  }

  lemma {:induction false} SortKeysSorted(xs: seq<ScopeKey>)
    requires forall i, j :: 0 <= i < j < |xs| ==> xs[i] != xs[j]
    ensures Sorted(SortKeys(xs))
    ensures forall x :: x in SortKeys(xs) <==> x in xs
  {
    if xs != [] {
      var before := xs[..|xs| - 1];
      SortKeysSorted(before);
      InsertSorted(Last(xs), SortKeys(before));
      assert xs == before + [Last(xs)];
    }
  }

  lemma ScopesSorted(s: seq<Record>)
    ensures Sorted(Scopes(s))
    ensures forall k :: k in Scopes(s) <==> exists i :: 0 <= i < |s| && s[i].key == k
  {
    SortKeysSorted(Seen(s));
  }

  /** A strictly sorted list is determined by its elements. */
  lemma {:induction false} SortedUnique(xs: seq<ScopeKey>, ys: seq<ScopeKey>)
    requires Sorted(xs) && Sorted(ys)
    requires forall k :: k in xs <==> k in ys
    ensures xs == ys
  {
    assert ys == [] || ys[0] in xs;
    if xs != [] {
      assert xs[0] in ys;
      var j :| 0 <= j < |ys| && ys[j] == xs[0];
      var i :| 0 <= i < |xs| && xs[i] == ys[0];
      CompareKeyLaws(xs[0], ys[0], xs[0]);
      assert xs[0] == ys[0];
      CompareKeyLaws(xs[0], xs[0], xs[0]);
      assert xs[0] !in xs[1..] && ys[0] !in ys[1..];
      forall k
        ensures k in xs[1..] <==> k in ys[1..]
      {
        assert k in xs <==> k == xs[0] || k in xs[1..];
        assert k in ys <==> k == ys[0] || k in ys[1..];
      }
      SortedUnique(xs[1..], ys[1..]);
    }
  }

  // ----- Rows

  datatype ScopeStatus = ScopeStatus(
    key: ScopeKey, decision: Decision,
    source: Option<Source>, summary: Option<string>, observedAt: Option<int>)

  /** The record a row quotes: looked up again from the decision's scope. */
  function Informative(s: seq<Record>, k: ScopeKey, d: Decision): Option<nat> {
    if d.Blocked? && d.scope.BackendWide? then LatestWide(s, k)
    else if d.Blocked? && d.scope.QuotaPool? then LatestInPool(s, k)
    else Latest(s, ScopeSel(k.backend, k.instance, k.model))
  }

  function Row(s: seq<Record>, k: ScopeKey, now: int): ScopeStatus {
    var d := Decide(s, k, now);
    match Informative(s, k, d)
    case None => ScopeStatus(k, d, None, None, None)
    case Some(i) => ScopeStatus(k, d, Some(s[i].source), s[i].summary, Some(s[i].observedAt))
  }

  /** A blocked row quotes the record that blocks; an eligible one quotes the record that speaks
      for its own scope. */
  lemma {:induction false} RowQuotes(s: seq<Record>, k: ScopeKey, now: int, i: nat, level: BlockScope)
    ensures Blocks(s, k, now, i, level) ==>
              Row(s, k, now) == ScopeStatus(
                                  k, Blocked(s[i].reason, s[i].until, level),
                                  Some(s[i].source), s[i].summary, Some(s[i].observedAt))
    ensures var own := if k.model.None? then BackendWide else ModelSpecific;
            Decide(s, k, now) == Eligible && SpeaksFor(s, k, i, own) ==>
              Row(s, k, now) == ScopeStatus(k, Eligible, Some(s[i].source), s[i].summary, Some(s[i].observedAt))
  {
    BlockerIff(s, k, now, i, level);
    SpeakersAreLatest(s, k, i, level);
    SpeakersAreLatest(s, k, i, if k.model.None? then BackendWide else ModelSpecific);
  }

  function Rows(s: seq<Record>, ks: seq<ScopeKey>, now: int): seq<ScopeStatus> {
    seq(|ks|, i requires 0 <= i < |ks| => Row(s, ks[i], now))
  }

  function Listing(s: seq<Record>, now: int): seq<ScopeStatus> {
    Rows(s, Scopes(s), now)
  }

  lemma InformativeThroughEmbedding(c: seq<Record>, h: seq<Record>, at: seq<nat>, k: ScopeKey, d: Decision)
    requires Embeds(c, h, at)
    ensures match Informative(c, k, d)
            case None => Informative(h, k, d) == None
            case Some(i) => i < |c| && Informative(h, k, d) == Some(at[i])
  {
    if d.Blocked? && d.scope.BackendWide? {
      LatestThroughEmbedding(c, h, at, ScopeSel(k.backend, k.instance, None));
    } else if d.Blocked? && d.scope.QuotaPool? {
      if k.pool.Some? {
        LatestThroughEmbedding(c, h, at, PoolSel(k.pool.value));
      }
    } else {
      LatestThroughEmbedding(c, h, at, ScopeSel(k.backend, k.instance, k.model));
    }
  }

  lemma RowThroughEmbedding(c: seq<Record>, h: seq<Record>, at: seq<nat>, k: ScopeKey, now: int)
    requires Embeds(c, h, at)
    ensures Row(c, k, now) == Row(h, k, now)
  {
    SameDecisions(c, h, k, now);
    InformativeThroughEmbedding(c, h, at, k, Decide(c, k, now));
  }

  /** Compaction changes no row of the listing, not even the quoted record, and no row's place. */
  lemma ListingInvisible(c: seq<Record>, h: seq<Record>, now: int)
    requires Refines(c, h)
    ensures Listing(c, now) == Listing(h, now)
  {
    var at :| Embeds(c, h, at);
    ScopesSorted(c);
    ScopesSorted(h);
    forall k
      ensures k in Scopes(c) <==> k in Scopes(h)
    {
      LatestThroughEmbedding(c, h, at, ExactSel(k));
    }
    SortedUnique(Scopes(c), Scopes(h));
    forall k
      ensures Row(c, k, now) == Row(h, k, now)
    {
      RowThroughEmbedding(c, h, at, k, now);
    }
  }
}
