/**
 The state file as an object: every write folds aliases, appends, compacts in place;
 every read answers from the compacted list. The ghost `history` is the log that was
 never rewritten, and each method is specified against it.
 */
module AvailabilityStore {
  import opened Basics
  import opened Availability
  import opened AvailabilityRetention
  import opened AvailabilityListing
  import opened AvailabilityReprobe
  import opened AvailabilityClear

  const LEGACY_VERSION: nat := 1
  const CURRENT_VERSION: nat := 2

  class Store {
    var version: nat
    var records: seq<Record>
    ghost var history: seq<Record>

    /** The file is some compaction of the history, up to alias folding. */
    ghost predicate Valid()
      reads this
    {
      Refines(Folded(records), Folded(history))
    }

    /** Versions outside the supported range are neither read nor overwritten. */
    predicate Readable()
      reads this
    {
      LEGACY_VERSION <= version <= CURRENT_VERSION
    }

    constructor (version: nat, records: seq<Record>)
      ensures this.version == version && this.records == records && history == records
      ensures Valid()
    {
      this.version := version;
      this.records := records;
      this.history := records;
      EmbedsSelf(Folded(records));
    }

    method ApplyRetention(now: int) returns (dropped: nat)
      modifies this`records
      ensures records == Retained(old(records), now)
      ensures dropped == |old(records)| - |records|
    {
      var last := LastPositions(records);
      var kept := RetainBy(records, last, now);
      dropped := |records| - |kept|;
      records := kept;
    }

    /** One locked read-modify-write. */
    method Update(c: Command, clock: int) returns (r: Result<nat>)
      requires Valid()
      modifies this
      ensures Valid()
      ensures r.Ok? <==> 1 <= old(version) <= 2
      ensures r.Err? ==> version == old(version) && records == old(records) && history == old(history)
      ensures r.Ok? ==>
                && version == 2
                && records == Written(old(records), c, clock)
                && history == old(history) + NewRecords(Folded(old(history)), c)
                && r.value == |old(records)| + |NewRecords(Folded(old(history)), c)| - |records|
    {
      if !Readable() {
        return Err("unsupported schema version");
      }
      WriteKeepsRefinement(records, history, c, clock);
      SameNewRecords(Folded(records), Folded(history), c);
      var loaded := Folded(records);
      history := history + NewRecords(Folded(history), c);
      version := CURRENT_VERSION;
      records := loaded + NewRecords(loaded, c);
      var dropped := ApplyRetention(clock);
      return Ok(dropped);
    }

    /** The answer is the one the never-compacted history gives. */
    method AvailabilityFor(q: ScopeKey, now: int) returns (r: Result<Decision>)
      requires Valid()
      ensures r.Ok? <==> 1 <= version <= 2
      ensures r.Ok? ==> r.value == Decide(Folded(history), q, now)
    {
      if !Readable() {
        return Err("unsupported schema version");
      }
      SameDecisions(Folded(records), Folded(history), q, now);
      return Ok(Decide(Folded(records), q, now));
    }

    method ListScopes(now: int) returns (r: Result<seq<ScopeStatus>>)
      requires Valid()
      ensures r.Ok? <==> 1 <= version <= 2
      ensures r.Ok? ==> r.value == Listing(Folded(history), now) == Listing(Folded(records), now) && CanonicalRows(r.value)
    {
      if !Readable() {
        return Err("unsupported schema version");
      }
      var loaded := Folded(records);
      var seen := DistinctScopes(loaded);
      var out := BuildRows(loaded, SortKeys(seen), now);
      ListingInvisible(loaded, Folded(history), now);
      ListedScopesAreFolded(history, now);
      return Ok(out);
    }

    /** Correct one listed row if it is stale; its scope is already in canonical form. */
    method CorrectRow(row: ScopeStatus, now: int, clock: int) returns (added: nat)
      requires Valid() && Readable() && Canonical(row.key)
      modifies this
      ensures Valid() && Readable()
      ensures Folded(history) == Folded(old(history)) + CapOf(row, now)
      ensures |history| == |old(history)| + added && added == |CapOf(row, now)|
      ensures records == CorrectedBy(old(records), row, now, clock)
    {
      if !NeedsCap(row, now) {
        assert Folded(history) + [] == Folded(history);
        return 0;
      }
      var cap := Cap(row, now);
      FoldedConcat(history, [cap]);
      assert Folded([cap]) == [cap];
      var written := Update(Append(cap), clock);
      return 1;
    }

    /** One correction pass. The listing is read once; every append is its own locked write
        that compacts at whatever the wall clock says then. */
    method ReprobeStale(now: int, clock: nat -> int) returns (r: Result<nat>)
      requires Valid()
      modifies this
      ensures Valid()
      ensures r.Ok? <==> 1 <= old(version) <= 2
      ensures r.Err? ==> history == old(history)
      ensures r.Ok? ==>
                && Folded(history) == AfterPass(Folded(old(history)), now)
                && records == PassOnFile(old(records), now, clock)
                && r.value == |history| - |old(history)|
    {
      var listed := ListScopes(now);
      if listed.Err? {
        return Err(listed.message);
      }
      var rows := listed.value;
      var corrected := 0;
      ghost var start := Folded(history);
      CapsNone(start, rows, now);
      for i := 0 to |rows|
        invariant Valid() && Readable()
        invariant Folded(history) == start + Caps(rows[..i], now)
        invariant records == Corrected(old(records), rows[..i], now, clock)
        invariant |history| == |start| + corrected
      {
        CapsNext(start, rows, i, now);
        CorrectedNext(old(records), rows, i, now, clock);
        var added := CorrectRow(rows[i], now, clock(i));
        corrected := corrected + added;
      }
      assert rows[..|rows|] == rows;
      return Ok(corrected);
    }

    /** `gah availability clear`. */
    method Clear(scope: ScopeKey, now: int, clock: int) returns (r: Result<nat>)
      requires Valid()
      modifies this
      ensures Valid()
      ensures r.Ok? <==> 1 <= old(version) <= 2 && !(scope.instance.Some? && scope.pool.Some?)
      ensures r.Err? ==> records == old(records) && history == old(history)
      ensures r.Ok? ==> history == old(history) + [ClearRecord(scope, now)]
    {
      if scope.instance.Some? && scope.pool.Some? {
        return Err("--backend-instance and --quota-pool select different scopes; choose one");
      }
      r := Update(Append(ClearRecord(scope, now)), clock);
    }
  }

  method DistinctScopes(loaded: seq<Record>) returns (seen: seq<ScopeKey>)
    ensures seen == Seen(loaded)
  {
    seen := [];
    for i := 0 to |loaded|
      invariant seen == Seen(loaded[..i])
    {
      assert loaded[..i + 1][..i] == loaded[..i] && Last(loaded[..i + 1]) == loaded[i];
      if loaded[i].key !in seen {
        seen := seen + [loaded[i].key];
      }
    }
    assert loaded[..|loaded|] == loaded;
  }

  method BuildRows(loaded: seq<Record>, seen: seq<ScopeKey>, now: int) returns (out: seq<ScopeStatus>)
    ensures out == Rows(loaded, seen, now)
  {
    out := [];
    for i := 0 to |seen|
      invariant |out| == i && forall j :: 0 <= j < i ==> out[j] == Row(loaded, seen[j], now)
    {
      out := out + [Row(loaded, seen[i], now)];
    }
  }

  lemma CapsNone(start: seq<Record>, rows: seq<ScopeStatus>, now: int)
    ensures start == start + Caps(rows[..0], now)
  {
  }

  /** What the pass appends after one more row. */
  lemma CapsNext(start: seq<Record>, rows: seq<ScopeStatus>, i: nat, now: int)
    requires i < |rows|
    ensures start + Caps(rows[..i + 1], now) == (start + Caps(rows[..i], now)) + CapOf(rows[i], now)
  {
    assert rows[..i + 1][..i] == rows[..i] && Last(rows[..i + 1]) == rows[i];
    Associative(start, Caps(rows[..i], now), CapOf(rows[i], now));
  }

  lemma CorrectedNext(file: seq<Record>, rows: seq<ScopeStatus>, i: nat, now: int, clock: nat -> int)
    requires i < |rows|
    ensures Corrected(file, rows[..i + 1], now, clock)
            == CorrectedBy(Corrected(file, rows[..i], now, clock), rows[i], now, clock(i))
  {
    assert rows[..i + 1][..i] == rows[..i];
  }

  /** The positions that hold the last record of their scope. */
  method LastPositions(records: seq<Record>) returns (last: set<nat>)
    ensures forall i :: i in last <==> 0 <= i < |records| && !Superseded(records, i)
  {
    var latest: map<ScopeKey, nat> := map[];
    for index := 0 to |records|
      invariant LatestBelow(records, latest, index)
    {
      latest := latest[records[index].key := index];
    }
    last := latest.Values;
    LatestAreLast(records, latest);
  }

  /** `latest` maps every scope seen below `n` to its last position below `n`. */
  ghost predicate LatestBelow(records: seq<Record>, latest: map<ScopeKey, nat>, n: nat)
    requires n <= |records|
  {
    && (forall k :: k in latest ==> latest[k] < n && records[latest[k]].key == k)
    && (forall i :: 0 <= i < n ==> records[i].key in latest && i <= latest[records[i].key])
  }

  lemma LatestAreLast(records: seq<Record>, latest: map<ScopeKey, nat>)
    requires LatestBelow(records, latest, |records|)
    ensures forall i :: i in latest.Values <==> 0 <= i < |records| && !Superseded(records, i)
  {
    forall i: nat
      ensures i in latest.Values <==> i < |records| && !Superseded(records, i)
    {
      if i < |records| {
        var k := records[i].key;
        assert latest[k] in latest.Values;
        if latest[k] != i {
          assert records[latest[k]].key == records[i].key;
        }
      }
    }
  }

  method RetainBy(records: seq<Record>, last: set<nat>, now: int) returns (kept: seq<Record>)
    requires forall i :: i in last <==> 0 <= i < |records| && !Superseded(records, i)
    ensures kept == Retained(records, now) && |kept| <= |records|
  {
    kept := [];
    for index := 0 to |records|
      invariant |kept| <= index
      invariant kept == Pick(records, KeptBelow(records, now, index))
    {
      KeptNext(records, now, index);
      if !Expired(records[index], now) || index in last {
        kept := kept + [records[index]];
      }
    }
  }

  // ----- Eligibility over time

  /** With no new record a block can only end: eligible once means eligible from then on. */
  lemma EligibilityIsPermanent(s: seq<Record>, q: ScopeKey, t: int, later: int)
    requires t <= later
    requires Decide(s, q, t) == Eligible
    ensures Decide(s, q, later) == Eligible
  {
    assert FindBlocker(s, q, t) == NoBlocker;
  }

  // ----- What retention drops, and what it bounds

  /** After retention every expired block is the last word of its own scope, so at most one
      expired record per scope remains and running it again changes nothing. */
  lemma RetentionBounds(s: seq<Record>, now: int)
    ensures var r := Retained(s, now);
            && (forall i :: 0 <= i < |r| && Expired(r[i], now) ==> !Superseded(r, i))
            && Retained(r, now) == r
  {
    var at := KeptBelow(s, now, |s|);
    var r := Retained(s, now);
    forall i | 0 <= i < |r|
      ensures Keep(r, i, now)
    {
      assert Keep(s, at[i], now);
    }
    AllKept(r, now, |r|);
  }

  lemma {:induction false} AllKept(r: seq<Record>, now: int, n: nat)
    requires n <= |r|
    requires forall i :: 0 <= i < |r| ==> Keep(r, i, now)
    ensures |KeptBelow(r, now, n)| == n
    ensures forall i :: 0 <= i < n ==> KeptBelow(r, now, n)[i] == i
  {
    if n > 0 {
      AllKept(r, now, n - 1);
    }
  }
}
