/**
 Cause transitions: `record_unavailable_for_identity` says whether a failure has a new cause,
 by comparing it with the last record of its scope that a reprobe did not write. Unlike
 eligibility, this answer depends on records that retention may drop.
 */
module AvailabilityCauses {
  import opened Basics
  import opened Availability
  import opened AvailabilityRetention
  import opened AvailabilityClear

  const CONFIDENCE_MARK := "; confidence="

  /** The provider evidence: the summary up to the confidence note. */
  function Evidence(summary: string): string {
    if summary == [] || CONFIDENCE_MARK <= summary then []
    else [summary[0]] + Evidence(summary[1..])
  }

  function EvidenceOf(r: Record): Option<string> {
    if r.summary.Some? then Some(Evidence(r.summary.value)) else None
  }

  predicate SameCause(left: Record, right: Record) {
    && left.reason == right.reason
    && (right.reason.QuotaExhausted? ==> EvidenceOf(left) == EvidenceOf(right))
  }

  /** The last record of exactly this scope that a reprobe did not write. */
  function PriorObservation(s: seq<Record>, k: ScopeKey): (r: Option<nat>)
    ensures r.Some? ==>
              && r.value < |s|
              && s[r.value].key == k && !s[r.value].source.Reprobe?
              && forall j :: r.value < j < |s| ==> s[j].key != k || s[j].source.Reprobe?
    ensures r.None? ==> forall j :: 0 <= j < |s| ==> s[j].key != k || s[j].source.Reprobe?
  {
    if s == [] then None
    else if Last(s).key == k && !Last(s).source.Reprobe? then Some(|s| - 1)
    else PriorObservation(s[..|s| - 1], k)
  }

  /** `record_unavailable_for_identity`'s answer: is this failure a new cause? */
  predicate IsTransition(s: seq<Record>, failure: Record) {
    var p := PriorObservation(s, failure.key);
    p.None? || s[p.value].status.Available? || !SameCause(s[p.value], failure)
  }

  predicate Observes(r: Record, k: ScopeKey) {
    r.key == k && !r.source.Reprobe?
  }

  /** The evidence is the part of the summary before the first confidence note. */
  lemma {:induction false} EvidenceIs(summary: string)
    ensures var e := Evidence(summary);
            && e <= summary
            && (e == summary || "; confidence=" <= summary[|e|..])
            && (forall i :: 0 <= i < |e| ==> !("; confidence=" <= summary[i..]))
  {
    if summary != [] && !(CONFIDENCE_MARK <= summary) {
      var rest := summary[1..];
      EvidenceIs(rest);
      var e := Evidence(rest);
      assert summary[|e| + 1..] == rest[|e|..];
      forall i | 0 <= i <= |e|
        ensures !(CONFIDENCE_MARK <= summary[i..])
      {
        assert i > 0 ==> summary[i..] == rest[i - 1..];
        assert i == 0 ==> summary[i..] == summary;
      }
    }
  }

  /** With an observation of the scope on record, a failure is a transition iff that observation
      says available, gives another reason, or, for an exhausted quota, other evidence. */
  lemma TransitionIff(s: seq<Record>, f: Record, i: nat)
    requires i < |s| && s[i].key == f.key && s[i].source != Reprobe
    requires forall j :: i < j < |s| && s[j].key == f.key ==> s[j].source == Reprobe
    ensures IsTransition(s, f)
            <==> || s[i].status == Available
                 || s[i].reason != f.reason
                 || (f.reason == QuotaExhausted && s[i].summary.Some? != f.summary.Some?)
                 || (&& f.reason == QuotaExhausted && s[i].summary.Some?
                     && Evidence(s[i].summary.value) != Evidence(f.summary.value))
  {
    var p := PriorObservation(s, f.key);
    assert p == Some(i);
  }

  lemma FirstFailureIsTransition(s: seq<Record>, f: Record)
    requires forall j :: 0 <= j < |s| && s[j].key == f.key ==> s[j].source == Reprobe
    ensures IsTransition(s, f)
  {
  }

  /** An explicit clear is a recovery: the next failure of the scope is a transition. */
  lemma ClearIsRecovery(s: seq<Record>, scope: ScopeKey, at: int, f: Record)
    requires f.key == scope.(backend := CanonicalBackend(scope.backend))
    ensures IsTransition(s + [ClearRecord(scope, at)], f)
  {
    TransitionIff(s + [ClearRecord(scope, at)], f, |s|);
  }

  // ----- A selection of a history

  /** `c` is `h` restricted to the positions in `kept`, in order, and only blocks are left out. */
  ghost predicate Selection(c: seq<Record>, h: seq<Record>, at: seq<nat>, kept: iset<nat>) {
    && |at| == |c| && Increasing(at)
    && (forall i :: 0 <= i < |c| ==> at[i] < |h| && h[at[i]] == c[i])
    && (forall j :: 0 <= j < |h| ==> (j in at <==> j in kept))
    && (forall j :: 0 <= j < |h| && j !in kept ==> h[j].status.Unavailable?)
  }

  /** Record `i` is the last observation of the scope among the kept records. */
  ghost predicate LastKept(h: seq<Record>, kept: iset<nat>, k: ScopeKey, i: nat) {
    && i < |h| && Observes(h[i], k) && i in kept
    && forall j :: i < j < |h| && Observes(h[j], k) ==> j !in kept
  }

  /** The last observation is kept, or the last kept one is a block with the same cause. */
  ghost predicate CauseKept(h: seq<Record>, kept: iset<nat>, k: ScopeKey) {
    var p := PriorObservation(h, k);
    p.Some? && p.value !in kept ==>
      exists i: nat :: LastKept(h, kept, k, i) && h[i].status.Unavailable? && SameCause(h[i], h[p.value])
  }

  /** The last observation in the selection is the last kept one, or there is none. */
  lemma {:induction false} PriorInSelection(c: seq<Record>, h: seq<Record>, at: seq<nat>, kept: iset<nat>, k: ScopeKey)
    requires Selection(c, h, at, kept)
    ensures match PriorObservation(c, k)
            case Some(p) => exists i: nat :: LastKept(h, kept, k, i) && c[p] == h[i]
            case None => forall i: nat :: !LastKept(h, kept, k, i)
  {
    var p := PriorObservation(c, k);
    if p.Some? {
      var i := at[p.value];
      forall j | i < j < |h| && j in kept
        ensures !Observes(h[j], k)
      {
        var m :| 0 <= m < |at| && at[m] == j;
        assert m > p.value && c[m] == h[j];
      }
      assert LastKept(h, kept, k, i) && c[p.value] == h[i];
    } else {
      forall j | 0 <= j < |h| && j in kept
        ensures !Observes(h[j], k)
      {
        var m :| 0 <= m < |at| && at[m] == j;
        assert c[m] == h[j];
      }
    }
  }

  lemma OneLastKept(h: seq<Record>, kept: iset<nat>, k: ScopeKey, i: nat, j: nat)
    requires LastKept(h, kept, k, i) && LastKept(h, kept, k, j)
    ensures i == j
  {
  }

  lemma {:induction false} SameAnswer(c: seq<Record>, h: seq<Record>, at: seq<nat>, kept: iset<nat>, f: Record)
    requires Selection(c, h, at, kept) && CauseKept(h, kept, f.key)
    ensures IsTransition(c, f) == IsTransition(h, f)
  {
    var k := f.key;
    var p, p' := PriorObservation(h, k), PriorObservation(c, k);
    PriorInSelection(c, h, at, kept, k);
    if p.Some? {
      assert p.value in kept ==> LastKept(h, kept, k, p.value);
      var i: nat :| LastKept(h, kept, k, i)
                    && (i == p.value || (h[i].status.Unavailable? && SameCause(h[i], h[p.value])));
      var j: nat :| LastKept(h, kept, k, j) && c[p'.value] == h[j];
      OneLastKept(h, kept, k, i, j);
    }
  }

  lemma {:induction false} OtherAnswer(c: seq<Record>, h: seq<Record>, at: seq<nat>, kept: iset<nat>, k: ScopeKey)
    requires Selection(c, h, at, kept) && !CauseKept(h, kept, k)
    ensures var f := h[PriorObservation(h, k).value];
            f.key == k && !IsTransition(h, f) && IsTransition(c, f)
  {
    var f, p' := h[PriorObservation(h, k).value], PriorObservation(c, k);
    PriorInSelection(c, h, at, kept, k);
    if p'.Some? {
      var i: nat :| LastKept(h, kept, k, i) && c[p'.value] == h[i];
      assert h[i].status.Available? || !SameCause(h[i], f);
    }
  }

  ghost predicate SameAnswers(c: seq<Record>, h: seq<Record>, k: ScopeKey) {
    forall f: Record :: f.key == k ==> IsTransition(c, f) == IsTransition(h, f)
  }

  lemma AnswersIff(c: seq<Record>, h: seq<Record>, at: seq<nat>, kept: iset<nat>, k: ScopeKey)
    requires Selection(c, h, at, kept)
    ensures SameAnswers(c, h, k) <==> CauseKept(h, kept, k)
  {
    if CauseKept(h, kept, k) {
      forall f: Record | f.key == k
        ensures IsTransition(c, f) == IsTransition(h, f)
      {
        SameAnswer(c, h, at, kept, f);
      }
    } else {
      OtherAnswer(c, h, at, kept, k);
    }
  }

  // ----- One retention

  /** The positions that are unexpired or last of their exact scope. */
  ghost function KeptBy(s: seq<Record>, now: int): iset<nat> {
    iset i: nat | i < |s| && Keep(s, i, now)
  }

  /** One retention preserves the transition answer for every failure of a scope exactly when
      the cause on record is kept. */
  lemma TransitionSurvivesRetention(s: seq<Record>, now: int, k: ScopeKey)
    ensures SameAnswers(Retained(s, now), s, k) <==> CauseKept(s, KeptBy(s, now), k)
  {
    AnswersIff(Retained(s, now), s, KeptBelow(s, now, |s|), KeptBy(s, now), k);
  }

  // ----- Whole runs

  /** What the next write would retain from, had nothing been dropped before. */
  ghost function Gathered(start: seq<Record>, ws: seq<Write>): seq<Record>
    requires ws != []
  {
    var h := Folded(HistoryAfter(start, ws[..|ws| - 1]));
    h + NewRecords(h, Last(ws).command)
  }

  /** Record `i` of the history is still in the file: at no write since it was added was it
      both expired by that write's clock and followed by a record of its scope. */
  ghost predicate Survives(start: seq<Record>, ws: seq<Write>, i: nat) {
    ws != [] ==>
      && (i < |HistoryAfter(start, ws[..|ws| - 1])| ==> Survives(start, ws[..|ws| - 1], i))
      && (i < |Gathered(start, ws)| ==> Keep(Gathered(start, ws), i, Last(ws).clock))
  }

  ghost function Survivors(start: seq<Record>, ws: seq<Write>): iset<nat> {
    iset i: nat | i < |HistoryAfter(start, ws)| && Survives(start, ws, i)
  }

  lemma SupersededThroughEmbedding(c: seq<Record>, h: seq<Record>, at: seq<nat>, i: nat)
    requires Embeds(c, h, at) && i < |c|
    ensures Superseded(c, i) <==> Superseded(h, at[i])
  {
    if Superseded(c, i) {
      var j :| i < j < |c| && c[j].key == c[i].key;
      assert h[at[j]].key == h[at[i]].key;
    }
    if Superseded(h, at[i]) {
      var last := LastOfScope(h, at[i]);
      var j :| 0 <= j < |at| && at[j] == last;
      assert c[j].key == c[i].key;
    }
  }

  lemma {:induction false} LastOfScope(h: seq<Record>, i: nat) returns (last: nat)
    requires i < |h| && Superseded(h, i)
    ensures i < last < |h| && h[last].key == h[i].key && !Superseded(h, last)
    decreases |h| - i
  {
    last :| i < last < |h| && h[last].key == h[i].key;
    if Superseded(h, last) {
      last := LastOfScope(h, last);
    }
  }

  /** The append of at most one record, on the file and on the history. */
  lemma AppendEmbeds(c: seq<Record>, h: seq<Record>, at: seq<nat>, rs: seq<Record>) returns (at': seq<nat>)
    requires Embeds(c, h, at) && |rs| <= 1
    ensures Embeds(c + rs, h + rs, at')
    ensures at' == if rs == [] then at else at + [|h|]
  {
    if rs == [] {
      at' := at;
      assert c + rs == c && h + rs == h;
    } else {
      at' := at + [|h|];
      EmbedsAppend(c, h, at, rs[0]);
      assert rs == [rs[0]];
    }
  }

  lemma InAppended(at: seq<nat>, n: nat, rs: seq<Record>, at': seq<nat>, i: nat)
    requires |rs| <= 1 && at' == if rs == [] then at else at + [n]
    requires forall j :: 0 <= j < |at| ==> at[j] < n
    requires i < n + |rs|
    ensures i in at' <==> i >= n || i in at
  {
    assert rs != [] ==> at'[|at|] == n;
  }

  lemma InPicked(l: seq<Record>, g: seq<Record>, at: seq<nat>, clock: int, i: nat)
    requires Embeds(l, g, at) && i < |g|
    ensures i in Pick(at, KeptBelow(l, clock, |l|)) <==> i in at && Keep(g, i, clock)
  {
    var kept := KeptBelow(l, clock, |l|);
    var picked := Pick(at, kept);
    if i in picked {
      var m :| 0 <= m < |picked| && picked[m] == i;
      SupersededThroughEmbedding(l, g, at, kept[m]);
      assert at[kept[m]] == i;
    }
    if i in at && Keep(g, i, clock) {
      var j :| 0 <= j < |at| && at[j] == i;
      SupersededThroughEmbedding(l, g, at, j);
      assert Keep(l, j, clock);
      var m :| 0 <= m < |kept| && kept[m] == j;
      assert picked[m] == i;
    }
  }

  /** The file embeds in the history at exactly the surviving positions. */
  ghost predicate HoldsSurvivors(start: seq<Record>, ws: seq<Write>, at: seq<nat>) {
    && Embeds(Folded(FileAfter(start, ws)), Folded(HistoryAfter(start, ws)), at)
    && forall i :: 0 <= i < |HistoryAfter(start, ws)| ==> (i in at <==> Survives(start, ws, i))
  }

  /** One write: retention keeps, of the file, what it would keep of the history. */
  lemma WriteEmbeds(file: seq<Record>, h: seq<Record>, at: seq<nat>, rs: seq<Record>, clock: int) returns (at': seq<nat>)
    requires Embeds(Folded(file), Folded(h), at) && |rs| <= 1
    ensures Embeds(Folded(Retained(Folded(file) + rs, clock)), Folded(h + rs), at')
    ensures forall i :: 0 <= i < |h| + |rs| ==> (i in at' <==> (i < |h| ==> i in at) && Keep(Folded(h) + rs, i, clock))
  {
    var l, g := Folded(file) + rs, Folded(h) + rs;
    var more := AppendEmbeds(Folded(file), Folded(h), at, rs);
    var folded := AppendEmbeds(Folded(file), Folded(h), at, Folded(rs));
    FoldedConcat(Folded(file), rs);
    FoldedIdempotent(file);
    FoldedConcat(h, rs);
    at' := Pick(more, KeptBelow(l, clock, |l|));
    RetentionEmbeds(l, clock);
    EmbedsTransitive(Folded(Retained(l, clock)), Folded(l), Folded(h + rs), KeptBelow(l, clock, |l|), more);
    forall i | 0 <= i < |h| + |rs|
      ensures i in at' <==> (i < |h| ==> i in at) && Keep(g, i, clock)
    {
      InAppended(at, |h|, rs, more, i);
      InPicked(l, g, more, clock, i);
    }
  }

  lemma {:induction false} RunHoldsSurvivors(start: seq<Record>, ws: seq<Write>) returns (at: seq<nat>)
    ensures HoldsSurvivors(start, ws, at)
  {
    if ws == [] {
      at := seq(|start|, i => i);
      forall j | 0 <= j < |start|
        ensures j in at
      {
        assert at[j] == j;
      }
    } else {
      var before, w := ws[..|ws| - 1], Last(ws);
      var file, h := FileAfter(start, before), HistoryAfter(start, before);
      var prior := RunHoldsSurvivors(start, before);
      assert Refines(Folded(file), Folded(h));
      SameNewRecords(Folded(file), Folded(h), w.command);
      at := WriteEmbeds(file, h, prior, NewRecords(Folded(h), w.command), w.clock);
      SurvivesNext(start, ws, prior, at);
    }
  }

  lemma {:induction false} SurvivesNext(start: seq<Record>, ws: seq<Write>, before: seq<nat>, at: seq<nat>)
    requires ws != []
    requires var h := HistoryAfter(start, ws[..|ws| - 1]);
             forall i :: 0 <= i < |h| ==> (i in before <==> Survives(start, ws[..|ws| - 1], i))
    requires var h := HistoryAfter(start, ws[..|ws| - 1]);
             forall i :: 0 <= i < |Gathered(start, ws)| ==>
                           (i in at <==> (i < |h| ==> i in before) && Keep(Gathered(start, ws), i, Last(ws).clock))
    ensures forall i :: 0 <= i < |HistoryAfter(start, ws)| ==> (i in at <==> Survives(start, ws, i))
  {
  }

  lemma {:induction false} DroppedWasABlock(start: seq<Record>, ws: seq<Write>, i: nat)
    requires i < |HistoryAfter(start, ws)| && !Survives(start, ws, i)
    ensures Folded(HistoryAfter(start, ws))[i].status.Unavailable?
  {
    var h := HistoryAfter(start, ws[..|ws| - 1]);
    if i < |h| && !Survives(start, ws[..|ws| - 1], i) {
      DroppedWasABlock(start, ws[..|ws| - 1], i);
      assert HistoryAfter(start, ws)[i] == h[i];
    } else {
      assert Expired(Gathered(start, ws)[i], Last(ws).clock);
      assert Gathered(start, ws)[i].status == HistoryAfter(start, ws)[i].status;
    }
  }

  /** Over every run of writes, at any clock values: the file tells a new cause from an ongoing
      one as the never-compacted history does, for every failure of a scope, exactly when the
      cause on record has survived. */
  lemma TransitionSurvivesRun(start: seq<Record>, ws: seq<Write>, k: ScopeKey)
    ensures SameAnswers(Folded(FileAfter(start, ws)), Folded(HistoryAfter(start, ws)), k)
            <==> CauseKept(Folded(HistoryAfter(start, ws)), Survivors(start, ws), k)
  {
    var at := RunHoldsSurvivors(start, ws);
    forall i | 0 <= i < |HistoryAfter(start, ws)| && !Survives(start, ws, i)
      ensures Folded(HistoryAfter(start, ws))[i].status.Unavailable?
    {
      DroppedWasABlock(start, ws, i);
    }
    AnswersIff(Folded(FileAfter(start, ws)), Folded(HistoryAfter(start, ws)), at, Survivors(start, ws), k);
  }

  /** It does not always survive: a capped, long-expired failure is dropped once the reprobe
      record supersedes it, and the same ongoing cause is then announced as new. */
  lemma RetentionCanForgetACause()
    ensures exists s, now, f :: !IsTransition(s, f) && IsTransition(Retained(s, now), f)
  {
    var k := ScopeKey("codex", Some("main"), Some("fast"), None);
    var failure := Record(k, Unavailable, QuotaExhausted, 0, At(10_800), BackendError, Some("budget"));
    var cap := Record(k, Unavailable, QuotaExhausted, 0, At(7_200), Reprobe, Some("capped"));
    var s := [failure, cap];
    assert PriorObservation(s[..1], k) == Some(0);
    assert PriorObservation(s, k) == Some(0);
    assert s[1].key == s[0].key;
    assert KeptBelow(s, 14_400, 1) == [];
    assert Retained(s, 14_400) == [cap];
    assert PriorObservation([cap][..0], k) == None;
    assert IsTransition([cap], failure) && !IsTransition(s, failure);
  }
}
