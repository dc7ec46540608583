/**
 What `enforce` promises: protected sections survive, both budgets are respected, no more
 is stubbed than needed, and running it on its own output changes nothing.
 */
module ContextEnforce {
  import opened Basics
  import opened Text
  import opened Context
  import opened ContextRoundTrip

  // ----- Counting unprotected sections

  lemma {:induction false} UnprotectedMonotone(ss: seq<Section>, i: nat, j: nat)
    requires i < j <= |ss|
    ensures UnprotectedBelow(ss, i) + (if ss[i].protected then 0 else 1) <= UnprotectedBelow(ss, j)
    decreases j
  {
    if i < j - 1 {
      UnprotectedMonotone(ss, i, j - 1);
    }
  }

  /** No two unprotected sections have the same number of others below them. */
  lemma NextIsUnique(ss: seq<Section>, at: nat, i: nat)
    requires at < |ss| && i < |ss| && i != at && !ss[at].protected && !ss[i].protected
    ensures UnprotectedBelow(ss, i) != UnprotectedBelow(ss, at)
  {
    if i < at {
      UnprotectedMonotone(ss, i, at);
    } else {
      UnprotectedMonotone(ss, at, i);
    }
  }

  /** Stubbing one more section overwrites exactly the next unprotected one. */
  lemma {:induction false} StubNext(ss: seq<Section>, at: nat)
    requires at < |ss| && !ss[at].protected
    ensures var k := UnprotectedBelow(ss, at);
            StubFirst(ss, k + 1) == StubFirst(ss, k)[at := Stub(ss[at])]
  {
    var k := UnprotectedBelow(ss, at);
    var a, b := StubFirst(ss, k + 1), StubFirst(ss, k)[at := Stub(ss[at])];
    forall i {:trigger a[i]} | 0 <= i < |a|
      ensures a[i] == b[i]
    {
      if i != at && !ss[i].protected {
        NextIsUnique(ss, at, i);
      }
    }
  }

  lemma StubNone(ss: seq<Section>)
    ensures StubFirst(ss, 0) == ss
  {
  }

  lemma StubEvery(ss: seq<Section>)
    ensures StubFirst(ss, Unprotected(ss)) == StubAll(ss)
  {
    forall i | 0 <= i < |ss| && !ss[i].protected
      ensures UnprotectedBelow(ss, i) < Unprotected(ss)
    {
      UnprotectedMonotone(ss, i, |ss|);
    }
  }

  // ----- The code

  method Enforce(prompt: string, cfg: Config) returns (r: Result<Build>)
    ensures r == Enforced(prompt, cfg)
  {
    var before := EstimateTokens(prompt);
    if !cfg.enabled || (before <= cfg.soft && before <= cfg.hard) {
      return Ok(Build(prompt, before, before, false, NamesOf(Split(prompt))));
    }
    var sections := SplitSections(prompt);
    sections := StubHistories(sections);
    ghost var ss := sections;
    var after := RenderSections(sections);
    ghost var n;
    sections, after, n := StubUntilFits(sections, after, cfg.soft);
    StubCountIs(ss, cfg.soft, n);
    assert sections == Compacted(prompt, cfg.soft);
    var afterTokens := EstimateTokens(after);
    if afterTokens > cfg.hard {
      return Err("context_limit_exceeded");
    }
    return Ok(Build(after, before, afterTokens, true, NamesOf(Split(after))));
  }

  /** Phase one: for each kind of history in turn, overwrite the unprotected sections of that kind. */
  method StubHistories(original: seq<Section>) returns (sections: seq<Section>)
    ensures sections == PhaseOne(original)
  {
    sections := original;
    for n := 0 to |HISTORY_MARKERS|
      invariant sections == StubbedBy(original, n)
    {
      for i := 0 to |sections|
        invariant |sections| == |original|
        invariant forall j :: 0 <= j < |original| ==>
                                sections[j] == StubBy(original[j], if j < i then n + 1 else n)
      {
        StubByNext(original[i], n);
        if Contains(sections[i].name, HISTORY_MARKERS[n]) && !sections[i].protected {
          sections := sections[i := sections[i].(body := HistoryStub(sections[i].name))];
        }
      }
    }
    StubbedByAll(original);
  }

  /** Positions of the unprotected sections, in order. */
  ghost predicate AreRemovable(ss: seq<Section>, at: seq<nat>, n: nat)
    requires n <= |ss|
  {
    && |at| == UnprotectedBelow(ss, n)
    && forall j :: 0 <= j < |at| ==>
                     at[j] < n && !ss[at[j]].protected && UnprotectedBelow(ss, at[j]) == j
  }

  method Removable(ss: seq<Section>) returns (at: seq<nat>)
    ensures AreRemovable(ss, at, |ss|) && |at| == Unprotected(ss)
  {
    at := [];
    for i := 0 to |ss|
      invariant AreRemovable(ss, at, i)
    {
      if !ss[i].protected {
        at := at + [i];
      }
    }
  }

  ghost predicate AllOver(ss: seq<Section>, soft: nat, n: nat) {
    forall j :: 0 <= j < n ==> TokensWith(ss, j) > soft
  }

  lemma AllOverNext(ss: seq<Section>, soft: nat, n: nat)
    requires AllOver(ss, soft, n) && TokensWith(ss, n) > soft
    ensures AllOver(ss, soft, n + 1)
  {
  }

  /** `n` is the length of the shortest prefix that reaches the soft limit, or everything. */
  ghost predicate IsShortest(ss: seq<Section>, soft: nat, n: nat) {
    && n <= Unprotected(ss)
    && AllOver(ss, soft, n)
    && (n < Unprotected(ss) ==> TokensWith(ss, n) <= soft)
  }

  /** Phase two: overwrite unprotected bodies in order until the soft limit is met. */
  method StubUntilFits(ss: seq<Section>, rendered: string, soft: nat)
    returns (sections: seq<Section>, after: string, ghost n: nat)
    requires rendered == Render(ss)
    ensures IsShortest(ss, soft, n)
    ensures sections == StubFirst(ss, n) && after == Render(sections)
  {
    sections, after := ss, rendered;
    StubNone(ss);
    var removable := Removable(ss);
    var i := 0;
    while i < |removable| && EstimateTokens(after) > soft
      invariant i <= |removable|
      invariant sections == StubFirst(ss, i) && after == Render(sections)
      invariant AllOver(ss, soft, i)
    {
      AllOverNext(ss, soft, i);
      sections := StubOne(ss, sections, removable, i);
      after := RenderSections(sections);
      i := i + 1;
    }
    n := i;
  }

  method StubOne(ghost ss: seq<Section>, sections: seq<Section>, removable: seq<nat>, n: nat) returns (r: seq<Section>)
    requires AreRemovable(ss, removable, |ss|) && n < |removable|
    requires sections == StubFirst(ss, n)
    ensures r == StubFirst(ss, n + 1)
  {
    var index := removable[n];
    StubNext(ss, index);
    r := sections[index := sections[index].(body := BARE_STUB)];
  }

  lemma StubCountIs(ss: seq<Section>, soft: nat, n: nat)
    requires IsShortest(ss, soft, n)
    ensures StubCount(ss, soft, 0) == n
  {
    var m := StubCount(ss, soft, 0);
    assert TokensWith(ss, m) <= soft || m == Unprotected(ss);
  }

  // ----- Phase one, marker by marker

  function StubBy(s: Section, n: nat): Section
    requires n <= |HISTORY_MARKERS|
  {
    if !s.protected && Marked(s.name, HISTORY_MARKERS[..n]) then s.(body := HistoryStub(s.name)) else s
  }

  function StubbedBy(ss: seq<Section>, n: nat): (r: seq<Section>)
    requires n <= |HISTORY_MARKERS|
    ensures |r| == |ss|
    ensures forall i :: 0 <= i < |ss| ==> r[i] == StubBy(ss[i], n)
  {
    seq(|ss|, i requires 0 <= i < |ss| => StubBy(ss[i], n))
  }

  lemma StubByNext(s: Section, n: nat)
    requires n < |HISTORY_MARKERS|
    ensures Marked(s.name, HISTORY_MARKERS[..n + 1])
            <==> Marked(s.name, HISTORY_MARKERS[..n]) || Contains(s.name, HISTORY_MARKERS[n])
  {
    var a, b := HISTORY_MARKERS[..n], HISTORY_MARKERS[..n + 1];
    assert b[n] == HISTORY_MARKERS[n];
    assert forall i :: 0 <= i < n ==> a[i] == b[i];
  }

  lemma StubbedByAll(ss: seq<Section>)
    ensures StubbedBy(ss, |HISTORY_MARKERS|) == PhaseOne(ss)
  {
    assert HISTORY_MARKERS[..|HISTORY_MARKERS|] == HISTORY_MARKERS;
  }

  // ----- Well-formed sections stay well formed

  ghost predicate WellFormed(ss: seq<Section>) {
    Shape(ss) && NoPreambleHeading(ss) && AllClean(ss)
  }

  /** Split and render undo each other on well-formed sections. */
  lemma WellFormedRoundTrip(ss: seq<Section>)
    requires WellFormed(ss)
    ensures Split(Render(ss)) == ss
  {
    Resplit(ss);
    CleanRelined(ss);
  }

  ghost predicate GoodBody(body: string) {
    BodyOk(body) && Clean(body)
  }

  /** Same names and protection; only unprotected bodies may differ, and only for good ones. */
  ghost predicate Reduces(ss: seq<Section>, rr: seq<Section>) {
    && |rr| == |ss|
    && forall i :: 0 <= i < |ss| ==>
                     && rr[i].name == ss[i].name && rr[i].protected == ss[i].protected
                     && (rr[i].body == ss[i].body || (!ss[i].protected && GoodBody(rr[i].body)))
  }

  lemma ReducesShape(ss: seq<Section>, rr: seq<Section>)
    requires Shape(ss) && Reduces(ss, rr)
    ensures Shape(rr) && (NoPreambleHeading(rr) <==> NoPreambleHeading(ss))
  {
    forall i | 0 <= i < |rr|
      ensures BodyOk(rr[i].body)
    {
      assert BodyOk(ss[i].body);
    }
    forall i | 1 <= i < |rr|
      ensures HeadingOk(rr[i]) && rr[i].name == ss[i].name
    {
      assert HeadingOk(ss[i]);
    }
  }

  lemma ReducesWellFormed(ss: seq<Section>, rr: seq<Section>)
    requires WellFormed(ss) && Reduces(ss, rr)
    ensures WellFormed(rr)
  {
    ReducesShape(ss, rr);
    forall i | 0 <= i < |rr|
      ensures Clean(rr[i].body)
    {
      assert Clean(ss[i].body);
    }
  }

  lemma ReducesTransitive(a: seq<Section>, b: seq<Section>, c: seq<Section>)
    requires Reduces(a, b) && Reduces(b, c)
    ensures Reduces(a, c)
  {
  }

  lemma StubLine(t: string)
    requires OneLine(t) && t != [] && t[0] == '(' && !EndsWithCr(t)
    ensures GoodBody(t + "\n")
  {
    assert [t][1..] == [] && Join([t]) == t + "\n" + [];
    assert t + "\n" + [] == t + "\n";
    PartialBody([t]);
    CleanJoin([t]);
  }

  lemma StubsAreGood(name: string)
    requires OneLine(name)
    ensures GoodBody(BARE_STUB) && GoodBody(HistoryStub(name))
  {
    var middle := "relevant " + name + " ";
    assert OneLine(STUB_HEAD) && OneLine(STUB_TAIL) && OneLine("relevant ") && OneLine(" ");
    assert Last(STUB_TAIL) == ')' && STUB_HEAD[0] == '(';
    var bare := STUB_HEAD + STUB_TAIL;
    assert bare[0] == '(' && Last(bare) == ')';
    StubLine(bare);
    var long := STUB_HEAD + middle + STUB_TAIL;
    assert long[0] == '(' && Last(long) == ')';
    StubLine(long);
  }

  lemma NamesAreOneLine(ss: seq<Section>, i: nat)
    requires Shape(ss) && i < |ss|
    ensures OneLine(ss[i].name)
  {
    assert OneLine(PREAMBLE);
    assert i > 0 ==> HeadingOk(ss[i]);
  }

  lemma PhaseOneReduces(ss: seq<Section>)
    requires Shape(ss)
    ensures Reduces(ss, PhaseOne(ss))
  {
    forall i | 0 <= i < |ss|
      ensures GoodBody(HistoryStub(ss[i].name))
    {
      NamesAreOneLine(ss, i);
      StubsAreGood(ss[i].name);
    }
  }

  lemma StubFirstReduces(ss: seq<Section>, k: nat)
    ensures Reduces(ss, StubFirst(ss, k))
  {
    StubsAreGood([]);
  }

  // ----- Theorems

  /** Same section names in the same order, and every protected body unchanged. */
  ghost predicate Preserves(ss: seq<Section>, rr: seq<Section>) {
    && |rr| == |ss|
    && forall i :: 0 <= i < |ss| ==>
                     && rr[i].name == ss[i].name
                     && rr[i].protected == ss[i].protected
                     && (ss[i].protected ==> rr[i] == ss[i])
  }

  lemma CompactedReduces(prompt: string, soft: nat)
    ensures Shape(Split(prompt)) && Reduces(Split(prompt), Compacted(prompt, soft))
    ensures Shape(Compacted(prompt, soft))
    ensures NoPreambleHeading(Compacted(prompt, soft)) <==> NoPreambleHeading(Split(prompt))
  {
    var ss := Split(prompt);
    SplitHasShape(prompt);
    var s1 := PhaseOne(ss);
    PhaseOneReduces(ss);
    StubFirstReduces(s1, StubCount(s1, soft, 0));
    ReducesTransitive(ss, s1, Compacted(prompt, soft));
    ReducesShape(ss, Compacted(prompt, soft));
  }

  /** A compacted prompt splits into exactly the sections the reduction left. */
  lemma CompactedSplitsBack(prompt: string, soft: nat)
    requires Faithful(prompt)
    ensures Split(Render(Compacted(prompt, soft))) == Compacted(prompt, soft)
    ensures Preserves(Split(prompt), Compacted(prompt, soft))
  {
    SplitHasShape(prompt);
    CompactedReduces(prompt, soft);
    ReducesWellFormed(Split(prompt), Compacted(prompt, soft));
    WellFormedRoundTrip(Compacted(prompt, soft));
  }

  lemma ReducedPreservesIff(ss: seq<Section>, rr: seq<Section>)
    requires Shape(ss) && Reduces(ss, rr)
    ensures Preserves(ss, Split(Render(rr))) <==> NoPreambleHeading(ss) && ProtectedClean(ss)
  {
    ReducesShape(ss, rr);
    if NoPreambleHeading(ss) {
      Resplit(rr);
      RelinedPreservesIff(ss, rr);
    } else if |Split(Render(rr))| == |rr| {
      RoundTripNeedsNames(rr);
    }
  }

  lemma RelinedPreservesIff(ss: seq<Section>, rr: seq<Section>)
    requires Reduces(ss, rr)
    ensures Preserves(ss, Relined(rr)) <==> ProtectedClean(ss)
  {
    var tt := Relined(rr);
    forall i | 0 <= i < |ss|
      ensures tt[i].name == ss[i].name && tt[i].protected == ss[i].protected
      ensures ss[i].protected ==> (tt[i] == ss[i] <==> Clean(ss[i].body))
    {
      assert tt[i] == Reline(rr[i]);
    }
  }

  /** Main theorem, for every prompt and all limits: what is delivered re-splits into the same
      sections in the same order with every protected body untouched, exactly when nothing had
      to be compacted, or no heading is named `Preamble` and no line of a protected body still
      ends in a carriage return. */
  lemma EnforceKeepsProtectedIff(prompt: string, cfg: Config)
    requires Enforced(prompt, cfg).Ok?
    ensures Preserves(Split(prompt), Split(Enforced(prompt, cfg).value.prompt))
            <==> || !cfg.enabled || Fits(prompt, cfg)
                 || (NoPreambleHeading(Split(prompt)) && ProtectedClean(Split(prompt)))
  {
    if cfg.enabled && !Fits(prompt, cfg) {
      CompactedReduces(prompt, cfg.soft);
      ReducedPreservesIff(Split(prompt), Compacted(prompt, cfg.soft));
    }
  }

  /** The delivered list of section names is then the prompt's own. */
  lemma EnforceKeepsNames(prompt: string, cfg: Config)
    requires Enforced(prompt, cfg).Ok?
    requires Preserves(Split(prompt), Split(Enforced(prompt, cfg).value.prompt))
    ensures Enforced(prompt, cfg).value.sectionNames == NamesOf(Split(prompt))
  {
    SameNames(Split(prompt), Split(Enforced(prompt, cfg).value.prompt));
  }

  const TWO_RETURNS := "\r\r\n"
  const ONE_RETURN := Section(PREAMBLE, "\r\n", true)

  lemma TwoReturnsSplit()
    ensures Split(TWO_RETURNS) == [ONE_RETURN] && !Clean(ONE_RETURN.body)
    ensures ByteLen(TWO_RETURNS) == 3
  {
    var p, q := TWO_RETURNS, "\r\n";
    assert p[..2] == "\r\r" && p[3..] == [] && q[..1] == "\r" && q[2..] == [];
    assert StripCr("\r\r") == "\r" && StripCr("\r") == "";
    assert Lines(p) == ["\r"];
    assert !IsHeading("\r") && ["\r"][1..] == [] && [] + "\r" + "\n" == q;
    assert SplitLines([], ONE_RETURN) == [ONE_RETURN];
    assert Lines(q) == [""] && Join([""]) == "\n";
    assert p[1..] == q && ByteLen(q[1..]) == 1 && ByteLen(q) == 2;
  }

  lemma TwoReturnsCompacted()
    ensures Render(Compacted(TWO_RETURNS, 0)) == "\r\n" && ByteLen("\r\n") == 2
  {
    TwoReturnsSplit();
    var ss := [ONE_RETURN];
    assert PhaseOne(ss) == ss && UnprotectedBelow(ss, 0) == 0 && Unprotected(ss) == 0;
    StubNone(ss);
    RenderTail(ss);
    assert Render(ss[1..]) == [];
    assert ByteLen("\r\n"[1..]) == 1;
  }

  /** A prompt that fails it: one line of two carriage returns loses the one that is left. */
  lemma CarriageReturnIsLost(cfg: Config)
    requires cfg.enabled && cfg.soft == 0 && cfg.hard >= 1
    ensures var r := Enforced(TWO_RETURNS, cfg);
            r.Ok? && !Preserves(Split(TWO_RETURNS), Split(r.value.prompt))
  {
    TwoReturnsSplit();
    TwoReturnsCompacted();
    EnforceKeepsProtectedIff(TWO_RETURNS, cfg);
  }

  lemma {:induction false} ByteLenConcat(a: string, b: string)
    ensures ByteLen(a + b) == ByteLen(a) + ByteLen(b)
  {
    if a == [] {
      assert a + b == b;
    } else {
      ByteLenConcat(a[1..], b);
      assert (a + b)[1..] == a[1..] + b && (a + b)[0] == a[0];
    }
  }

  lemma HeadingAlone(l: string)
    requires OneLine(l) && IsHeading(l) && StripCr(l) == l
    ensures Split(l + "\n") == [Section(PREAMBLE, [], true), HeadingSection(l)]
    ensures ByteLen(l + "\n") > 0
  {
    assert l + "\n" == l + "\n" + [];
    LinesCons(l, []);
    assert Lines(l + "\n") == [l] && [l][1..] == [];
    assert SplitLines([], HeadingSection(l)) == [HeadingSection(l)];
    ByteLenConcat(l, "\n");
  }

  lemma PreambleHeading()
    ensures OneLine(HEADING + PREAMBLE) && StripCr(HEADING + PREAMBLE) == HEADING + PREAMBLE
    ensures IsHeading(HEADING + PREAMBLE) && HeadingSection(HEADING + PREAMBLE).name == PREAMBLE
  {
    assert (HEADING + PREAMBLE)[3..] == PREAMBLE;
    assert TrimStart(PREAMBLE) == PREAMBLE && TrimEnd(PREAMBLE) == PREAMBLE;
  }

  /** Another: a heading named like the text before the first heading is not printed again. */
  lemma PreambleHeadingIsLost(cfg: Config, prompt: string)
    requires prompt == HEADING + PREAMBLE + "\n"
    requires cfg.enabled && cfg.soft == 0 && cfg.hard >= EstimateTokens(Render(Compacted(prompt, 0)))
    ensures var r := Enforced(prompt, cfg);
            r.Ok? && !Preserves(Split(prompt), Split(r.value.prompt))
  {
    PreambleHeading();
    HeadingAlone(HEADING + PREAMBLE);
    assert Split(prompt)[1].name == PREAMBLE;
    EnforceKeepsProtectedIff(prompt, cfg);
  }

  lemma {:induction false} SameNames(ss: seq<Section>, rr: seq<Section>)
    requires |rr| == |ss| && forall i :: 0 <= i < |ss| ==> rr[i].name == ss[i].name
    ensures NamesOf(rr) == NamesOf(ss)
  {
    if ss != [] {
      SameNames(ss[1..], rr[1..]);
    }
  }

  lemma StubAllOfPhaseOne(ss: seq<Section>)
    ensures StubAll(PhaseOne(ss)) == StubAll(ss)
  {
  }

  lemma OverAfterStubbing(ss: seq<Section>, soft: nat, hard: nat)
    requires soft <= hard
    ensures TokensWith(ss, StubCount(ss, soft, 0)) > hard
            <==> AllOver(ss, soft, Unprotected(ss)) && TokensWith(ss, Unprotected(ss)) > hard
  {
    var n := StubCount(ss, soft, 0);
    assert AllOver(ss, soft, n);
  }

  /** With soft <= hard, a prompt is refused exactly when it is over the soft limit, stubbing
      fewer than all unprotected sections never brings it down to that limit, and the fully
      stubbed prompt is over the hard limit. */
  lemma RefusalInTokens(prompt: string, cfg: Config)
    requires cfg.soft <= cfg.hard
    ensures var ss := PhaseOne(Split(prompt));
            Enforced(prompt, cfg).Err? <==>
            && cfg.enabled && EstimateTokens(prompt) > cfg.soft
            && AllOver(ss, cfg.soft, Unprotected(ss))
            && EstimateTokens(Render(StubAll(Split(prompt)))) > cfg.hard
  {
    var ss := PhaseOne(Split(prompt));
    StubEvery(ss);
    StubAllOfPhaseOne(Split(prompt));
    OverAfterStubbing(ss, cfg.soft, cfg.hard);
  }
}
