/**
 Running `enforce` on its own output: exactly when the second run delivers the same text.
 A heading named `Preamble` is not printed, so in the output its body has merged into the
 section before it; the analysis works on the merged list, which prints the same.
 */
module ContextIdempotence {
  import opened Basics
  import opened Text
  import opened Context
  import opened ContextRoundTrip
  import opened ContextEnforce

  // ----- Stubs only get longer

  lemma HistoryStubIsLonger(name: string)
    ensures ByteLen(HistoryStub(name)) >= ByteLen(BARE_STUB)
  {
    var middle := "relevant " + name + " ";
    ByteLenConcat(STUB_HEAD, middle);
    ByteLenConcat(STUB_HEAD + middle, STUB_TAIL);
    ByteLenConcat(STUB_HEAD + middle + STUB_TAIL, "\n");
    ByteLenConcat(STUB_HEAD, STUB_TAIL);
    ByteLenConcat(STUB_HEAD + STUB_TAIL, "\n");
  }

  ghost predicate NoShorter(ss: seq<Section>, rr: seq<Section>) {
    && |rr| == |ss|
    && forall i :: 0 <= i < |ss| ==> rr[i].name == ss[i].name && ByteLen(rr[i].body) >= ByteLen(ss[i].body)
  }

  lemma RenderOneNoShorter(s: Section, r: Section)
    requires r.name == s.name && ByteLen(r.body) >= ByteLen(s.body)
    ensures ByteLen(RenderOne(r)) >= ByteLen(RenderOne(s))
  {
    ByteLenConcat(HEADING + s.name + "\n", s.body);
    ByteLenConcat(HEADING + s.name + "\n", r.body);
  }

  lemma {:induction false} RenderNoShorter(ss: seq<Section>, rr: seq<Section>)
    requires NoShorter(ss, rr)
    ensures ByteLen(Render(rr)) >= ByteLen(Render(ss))
  {
    if ss != [] {
      RenderTail(ss);
      RenderTail(rr);
      RenderOneNoShorter(ss[0], rr[0]);
      RenderNoShorter(ss[1..], rr[1..]);
      ByteLenConcat(RenderOne(ss[0]), Render(ss[1..]));
      ByteLenConcat(RenderOne(rr[0]), Render(rr[1..]));
    }
  }

  /** Once every unprotected section is a bare stub, any further reduction renders no shorter. */
  lemma StubbedIsShortest(ss: seq<Section>, k: nat)
    ensures ByteLen(Render(StubFirst(PhaseOne(StubAll(ss)), k))) >= ByteLen(Render(StubAll(ss)))
  {
    var all := StubAll(ss);
    var rr := StubFirst(PhaseOne(all), k);
    forall i | 0 <= i < |ss|
      ensures rr[i].name == all[i].name && ByteLen(rr[i].body) >= ByteLen(all[i].body)
    {
      HistoryStubIsLonger(ss[i].name);
    }
    RenderNoShorter(all, rr);
  }

  lemma StubAllTwice(ss: seq<Section>)
    ensures StubAll(PhaseOne(StubAll(ss))) == StubAll(ss)
  {
  }

  /** If the fully stubbed sections are still over the soft limit, compacting them again ends
      in the same place. */
  lemma CompactingStubs(ss: seq<Section>, soft: nat)
    requires EstimateTokens(Render(StubAll(ss))) > soft
    ensures var s1 := PhaseOne(StubAll(ss));
            StubFirst(s1, StubCount(s1, soft, 0)) == StubAll(ss)
  {
    var s1 := PhaseOne(StubAll(ss));
    forall k: nat
      ensures TokensWith(s1, k) > soft
    {
      StubbedIsShortest(ss, k);
    }
    assert StubCount(s1, soft, 0) == Unprotected(s1);
    StubEvery(s1);
    StubAllTwice(ss);
  }

  // A rendered list of sections determines their bodies

  /** A heading line that starts inside a text shows up among its lines. */
  lemma HeadingInside(b: string, s: Section, more: string)
    requires Terminated(b) && HeadingOk(s)
    ensures exists i :: 0 <= i < |Lines(b + (HEADING + s.name + "\n" + more))|
                        && IsHeading(Lines(b + (HEADING + s.name + "\n" + more))[i])
  {
    var h := HEADING + s.name;
    HeadingReadsBack(s);
    LinesCons(h, more);
    LinesAppend(b, h + "\n" + more);
    var all := Lines(b) + ([h] + Lines(more));
    assert all[|Lines(b)|] == h;
  }

  /** A terminated text that is a prefix of `l`, a newline and more reaches past that newline. */
  lemma PastTheLine(l: string, more: string, d: string)
    requires OneLine(l) && d != [] && Terminated(d) && d <= l + "\n" + more
    ensures |d| > |l| && d == l + "\n" + d[|l| + 1..]
  {
    var t := l + "\n" + more;
    assert d[|d| - 1] == t[|d| - 1] == '\n';
    assert forall i :: 0 <= i < |l| ==> t[i] == l[i];
  }

  /** Between a body and the heading after it there is no other place to cut. */
  lemma BodyEndsAtHeading(b: string, b': string, s: Section, more: string, rest: string)
    requires BodyOk(b) && BodyOk(b') && HeadingOk(s)
    requires b + (HEADING + s.name + "\n" + more) == b' + rest
    ensures |b'| <= |b|
  {
    if |b| < |b'| {
      var l := HEADING + s.name;
      var t, d := l + "\n" + more, b'[|b|..];
      var all := b + t;
      assert b == all[..|b|] && b' == all[..|b'|] && d == all[|b|..|b'|] && t == all[|b|..];
      assert b' == b + d && d == t[..|d|];
      HeadingReadsBack(s);
      PastTheLine(l, more, d);
      HeadingInside(b, s, d[|l| + 1..]);
    }
  }

  ghost predicate SamePlace(s: Section, r: Section) {
    r.name == s.name && BodyOk(s.body) && BodyOk(r.body)
  }

  ghost predicate PrintedHeading(s: Section, r: Section) {
    s.name != PREAMBLE && HeadingOk(s) && HeadingOk(r)
  }

  /** Same names, good bodies, and from the second section on a heading that is printed. */
  ghost predicate Comparable(ss: seq<Section>, rr: seq<Section>) {
    && |ss| == |rr|
    && (forall i {:trigger SamePlace(ss[i], rr[i])} :: 0 <= i < |ss| ==> SamePlace(ss[i], rr[i]))
    && (forall i {:trigger PrintedHeading(ss[i], rr[i])} :: 1 <= i < |ss| ==> PrintedHeading(ss[i], rr[i]))
  }

  lemma SameFirstBody(ss: seq<Section>, rr: seq<Section>)
    requires ss != [] && Comparable(ss, rr) && Render(ss) == Render(rr)
    ensures ss[0].body == rr[0].body && Render(ss[1..]) == Render(rr[1..])
  {
    assert SamePlace(ss[0], rr[0]);
    var head := if ss[0].name == PREAMBLE then [] else HEADING + ss[0].name + "\n";
    var b, b', t, t' := ss[0].body, rr[0].body, Render(ss[1..]), Render(rr[1..]);
    RenderTail(ss);
    RenderTail(rr);
    assert RenderOne(ss[0]) == head + b && RenderOne(rr[0]) == head + b';
    Associative(head, b, t);
    Associative(head, b', t');
    assert b + t == (head + (b + t))[|head|..] == (head + (b' + t'))[|head|..] == b' + t';
    if |ss| > 1 {
      var x, y := ss[1], rr[1];
      assert SamePlace(x, y) && PrintedHeading(x, y);
      RenderTail(ss[1..]);
      RenderTail(rr[1..]);
      Associative(HEADING + x.name + "\n", x.body, Render(ss[1..][1..]));
      Associative(HEADING + y.name + "\n", y.body, Render(rr[1..][1..]));
      BodyEndsAtHeading(b, b', x, x.body + Render(ss[1..][1..]), t');
      BodyEndsAtHeading(b', b, y, y.body + Render(rr[1..][1..]), t);
    }
    assert |b| == |b'|;
    assert b == (b + t)[..|b|] == (b' + t')[..|b'|] == b';
    assert t == (b + t)[|b|..] == (b' + t')[|b'|..] == t';
  }

  /** What `RenderDeterminesBodies` asks of two lists. */
  ghost predicate PrintAlike(ss: seq<Section>, rr: seq<Section>) {
    Comparable(ss, rr) && Render(ss) == Render(rr)
  }

  lemma {:induction false} HeadOff(ss: seq<Section>, rr: seq<Section>, tail: seq<Section>, tail': seq<Section>)
    requires ss != [] && PrintAlike(ss, rr) && tail == ss[1..] && tail' == rr[1..]
    ensures ss[0].body == rr[0].body && PrintAlike(tail, tail')
  {
    SameFirstBody(ss, rr);
    forall i | 0 <= i < |tail|
      ensures SamePlace(tail[i], tail'[i]) && PrintedHeading(tail[i], tail'[i])
    {
      assert SamePlace(ss[i + 1], rr[i + 1]) && PrintedHeading(ss[i + 1], rr[i + 1]);
    }
  }

  lemma {:induction false} RenderDeterminesBodies(ss: seq<Section>, rr: seq<Section>, i: nat)
    requires PrintAlike(ss, rr) && i < |ss|
    ensures ss[i].body == rr[i].body
    decreases i
  {
    var tail, tail' := ss[1..], rr[1..];
    HeadOff(ss, rr, tail, tail');
    if i > 0 {
      RenderDeterminesBodies(tail, tail', i - 1);
    }
  }

  /** Some number of stubbed sections, all of them at most, brings the prompt down to the soft limit. */
  ghost predicate ReachesSoft(prompt: string, soft: nat) {
    exists k :: 0 <= k <= Unprotected(PhaseOne(Split(prompt))) && TokensWith(PhaseOne(Split(prompt)), k) <= soft
  }

  lemma ShortestFitsIff(ss: seq<Section>, soft: nat, k: nat)
    requires k <= Unprotected(ss) && TokensWith(ss, k) <= soft
    ensures TokensWith(ss, StubCount(ss, soft, 0)) <= soft
  {
    var n := StubCount(ss, soft, 0);
    assert n <= k;
  }

  lemma FitsIff(prompt: string, soft: nat)
    ensures EstimateTokens(Render(Compacted(prompt, soft))) <= soft <==> ReachesSoft(prompt, soft)
  {
    var s1 := PhaseOne(Split(prompt));
    assert TokensWith(s1, StubCount(s1, soft, 0)) == EstimateTokens(Render(Compacted(prompt, soft)));
    if k :| 0 <= k <= Unprotected(s1) && TokensWith(s1, k) <= soft {
      ShortestFitsIff(s1, soft, k);
    }
  }

  // ----- Compacting a printed list again

  /** If the result is over the soft limit, every unprotected section has been stubbed. */
  lemma OverSoftStubsAll(prompt: string, soft: nat)
    requires EstimateTokens(Render(Compacted(prompt, soft))) > soft
    ensures Compacted(prompt, soft) == StubAll(Split(prompt))
  {
    var s1 := PhaseOne(Split(prompt));
    assert TokensWith(s1, StubCount(s1, soft, 0)) > soft;
    StubEvery(s1);
    StubAllOfPhaseOne(Split(prompt));
  }

  predicate TidyOne(s: Section) {
    if s.protected then Clean(s.body) else s.body == BARE_STUB
  }

  /** Protected bodies are clean and all others are bare stubs. */
  ghost predicate Tidy(ss: seq<Section>) {
    forall i :: 0 <= i < |ss| ==> TidyOne(ss[i])
  }

  lemma TidyCompactsToItself(mm: seq<Section>, soft: nat)
    requires Shape(mm) && NoPreambleHeading(mm) && Tidy(mm) && EstimateTokens(Render(mm)) > soft
    ensures Compacted(Render(mm), soft) == mm
  {
    forall i | 0 <= i < |mm|
      ensures Clean(mm[i].body) && Stub(mm[i]) == mm[i]
    {
      assert TidyOne(mm[i]);
      StubsAreGood([]);
    }
    WellFormedRoundTrip(mm);
    assert StubAll(mm) == mm;
    CompactingStubs(mm, soft);
  }

  lemma UntidyCompactsToAnother(mm: seq<Section>, soft: nat, i: nat)
    requires Shape(mm) && NoPreambleHeading(mm) && EstimateTokens(Render(mm)) > soft
    requires i < |mm| && !TidyOne(mm[i])
    ensures Render(Compacted(Render(mm), soft)) != Render(mm)
  {
    var out := Render(mm);
    var again := Compacted(out, soft);
    if Render(again) == out {
      Resplit(mm);
      CompactedReduces(out, soft);
      OverSoftStubsAll(out, soft);
      assert Split(out) == Relined(mm) && Relined(mm)[i] == Reline(mm[i]) && again[i] == Stub(Reline(mm[i]));
      AgainComparable(mm, Split(out), again);
      RenderDeterminesBodies(mm, again, i);
    }
  }

  lemma AgainComparable(cc: seq<Section>, dd: seq<Section>, again: seq<Section>)
    requires Shape(cc) && NoPreambleHeading(cc) && dd == Relined(cc) && Reduces(dd, again) && Shape(again)
    ensures Comparable(cc, again)
  {
    forall i | 0 <= i < |cc|
      ensures SamePlace(cc[i], again[i])
    {
      assert dd[i] == Reline(cc[i]);
    }
    forall i | 1 <= i < |cc|
      ensures PrintedHeading(cc[i], again[i])
    {
    }
  }

  lemma AgainIff(mm: seq<Section>, soft: nat)
    requires Shape(mm) && NoPreambleHeading(mm) && EstimateTokens(Render(mm)) > soft
    ensures Render(Compacted(Render(mm), soft)) == Render(mm) <==> Tidy(mm)
  {
    if Tidy(mm) {
      TidyCompactsToItself(mm, soft);
    } else {
      var i :| 0 <= i < |mm| && !TidyOne(mm[i]);
      UntidyCompactsToAnother(mm, soft, i);
    }
  }

  // ----- Merging what is not printed as a heading

  function Extended(s: Section, more: string): Section {
    s.(body := s.body + more)
  }

  /** `cur` and the sections after it, each `Preamble` heading merged into what precedes it. */
  function MergeFrom(cur: Section, rest: seq<Section>): (r: seq<Section>)
    ensures r != []
    decreases |rest|
  {
    if rest == [] then [cur]
    else if rest[0].name == PREAMBLE then MergeFrom(Extended(cur, rest[0].body), rest[1..])
    else [cur] + MergeFrom(rest[0], rest[1..])
  }

  lemma {:induction false} MergePrintsAlike(cur: Section, rest: seq<Section>)
    ensures Render(MergeFrom(cur, rest)) == RenderOne(cur) + Render(rest)
    decreases |rest|
  {
    if rest == [] {
      RenderTail([cur]);
    } else {
      var first, tail := rest[0], rest[1..];
      RenderTail(rest);
      if first.name == PREAMBLE {
        MergePrintsAlike(Extended(cur, first.body), tail);
        if cur.name != PREAMBLE {
          Associative(HEADING + cur.name + "\n", cur.body, first.body);
        }
        Associative(RenderOne(cur), first.body, Render(tail));
      } else {
        MergePrintsAlike(first, tail);
        var merged := MergeFrom(first, tail);
        RenderTail([cur] + merged);
        assert ([cur] + merged)[1..] == merged;
      }
    }
  }

  lemma BodyOkAppend(a: string, b: string)
    requires BodyOk(a) && BodyOk(b)
    ensures BodyOk(a + b)
  {
    LinesAppend(a, b);
    assert b != [] ==> Last(a + b) == Last(b);
    assert b == [] ==> a + b == a;
  }

  ghost predicate MergedShape(cur: Section, r: seq<Section>) {
    BeginsAs(cur, r) && NoPreambleHeading(r)
  }

  lemma {:induction false} MergeShape(cur: Section, rest: seq<Section>)
    requires BodyOk(cur.body) && Headed(rest)
    ensures MergedShape(cur, MergeFrom(cur, rest))
    decreases |rest|
  {
    if rest != [] {
      var first, tail := rest[0], rest[1..];
      assert BodyOk(first.body) && HeadingOk(first);
      HeadedTail(rest);
      if first.name == PREAMBLE {
        BodyOkAppend(cur.body, first.body);
        MergeShape(Extended(cur, first.body), tail);
      } else {
        MergeShape(first, tail);
        MergedCons(cur, first, MergeFrom(first, tail));
      }
    }
  }

  lemma HeadedTail(rest: seq<Section>)
    requires rest != [] && Headed(rest)
    ensures Headed(rest[1..])
  {
  }

  lemma MergedCons(cur: Section, first: Section, r: seq<Section>)
    requires BodyOk(cur.body) && HeadingOk(first) && first.name != PREAMBLE && MergedShape(first, r)
    ensures MergedShape(cur, [cur] + r)
  {
    BeginsCons(cur, first, r);
    forall i | 1 <= i < |[cur] + r|
      ensures ([cur] + r)[i].name != PREAMBLE
    {
      assert ([cur] + r)[i] == r[i - 1];
    }
  }

  // ----- When the merged list is tidy

  lemma CleanAppend(a: string, b: string)
    requires Terminated(a) && Clean(b)
    ensures Clean(a + b) <==> Clean(a)
  {
    LinesAppend(a, b);
    JoinConcat(Lines(a), Lines(b));
    var j := Join(Lines(a));
    assert Join(Lines(a + b)) == j + b;
    if j + b == a + b {
      assert |j| == |a| && j == (j + b)[..|j|] == (a + b)[..|a|] == a;
    }
  }

  /** What stubbing everything leaves after the first section. */
  ghost predicate Stubbed(rest: seq<Section>) {
    forall i :: 0 <= i < |rest| ==>
                  && (!rest[i].protected ==> rest[i].body == BARE_STUB)
                  && (rest[i].name == PREAMBLE ==> !rest[i].protected)
  }

  /** Protected sections are clean, and every `Preamble` heading merges into a protected section;
      `into` says whether the section before is one. */
  predicate Settles(into: bool, rest: seq<Section>)
    decreases |rest|
  {
    if rest == [] then true
    else if rest[0].name == PREAMBLE then into && Settles(into, rest[1..])
    else TidyOne(rest[0]) && Settles(rest[0].protected, rest[1..])
  }

  lemma TidyCons(cur: Section, r: seq<Section>)
    ensures Tidy([cur] + r) <==> TidyOne(cur) && Tidy(r)
  {
    var all := [cur] + r;
    assert all[0] == cur && forall i :: 0 <= i < |r| ==> all[i + 1] == r[i];
    assert forall i :: 1 <= i < |all| ==> all[i] == r[i - 1];
  }

  lemma TidyExtended(cur: Section, more: string)
    requires Terminated(cur.body) && more == BARE_STUB && (!cur.protected ==> |cur.body| >= |BARE_STUB|)
    ensures TidyOne(Extended(cur, more)) <==> cur.protected && TidyOne(cur)
  {
    StubsAreGood([]);
    CleanAppend(cur.body, more);
  }

  lemma {:induction false} MergeTidyIff(cur: Section, rest: seq<Section>)
    requires BodyOk(cur.body) && Headed(rest) && Stubbed(rest) && (!cur.protected ==> |cur.body| >= |BARE_STUB|)
    ensures Tidy(MergeFrom(cur, rest)) <==> TidyOne(cur) && Settles(cur.protected, rest)
    decreases |rest|
  {
    if rest == [] {
      TidyCons(cur, []);
      assert [cur] + [] == [cur];
    } else {
      var first, tail := rest[0], rest[1..];
      assert BodyOk(first.body);
      HeadedTail(rest);
      assert Stubbed(tail);
      if first.name == PREAMBLE {
        BodyOkAppend(cur.body, first.body);
        TidyExtended(cur, first.body);
        MergeTidyIff(Extended(cur, first.body), tail);
      } else {
        MergeTidyIff(first, tail);
        TidyCons(cur, MergeFrom(first, tail));
      }
    }
  }

  /** Every heading named `Preamble` comes right after a protected section or another such one. */
  ghost predicate PreambleAfterProtected(ss: seq<Section>) {
    forall i :: 1 <= i < |ss| && ss[i].name == PREAMBLE ==> ss[i - 1].protected || ss[i - 1].name == PREAMBLE
  }

  ghost predicate Follows(into: bool, rest: seq<Section>) {
    (rest != [] && rest[0].name == PREAMBLE ==> into) && PreambleAfterProtected(rest)
  }

  lemma FollowsCons(into: bool, rest: seq<Section>)
    requires rest != []
    ensures Follows(into, rest)
            <==> if rest[0].name == PREAMBLE then into && Follows(true, rest[1..]) else Follows(rest[0].protected, rest[1..])
  {
    var tail := rest[1..];
    assert forall i :: 0 <= i < |tail| ==> tail[i] == rest[i + 1];
    assert forall i :: 1 <= i < |rest| ==> rest[i] == tail[i - 1];
  }

  lemma {:induction false} SettlesIff(into: bool, rest: seq<Section>)
    requires Stubbed(rest)
    ensures Settles(into, rest) <==> Follows(into, rest) && ProtectedClean(rest)
    decreases |rest|
  {
    if rest != [] {
      var first, tail := rest[0], rest[1..];
      assert Stubbed(tail);
      assert rest == [first] + tail;
      FollowsCons(into, rest);
      ProtectedCleanCons(first, tail);
      SettlesIff(if first.name == PREAMBLE then true else first.protected, tail);
    }
  }

  // ----- `Preamble` is not a protected name

  lemma {:induction false} NotContained(s: string, m: string)
    requires m != [] && (|m| > |s| || m[0] !in s)
    ensures !Contains(s, m)
  {
    if s != [] {
      NotContained(s[1..], m);
    }
  }

  predicate Foreign(m: string) {
    m != [] && (|m| > |PREAMBLE| || m[0] !in PREAMBLE)
  }

  lemma MarkersAreForeign()
    ensures forall i :: 0 <= i < |PROTECTED_MARKERS| ==> Foreign(PROTECTED_MARKERS[i])
  {
    assert forall i :: 0 <= i < |TASK_MARKERS| ==> Foreign(TASK_MARKERS[i]);
    assert forall i :: 0 <= i < |ATTEMPT_MARKERS| ==> Foreign(ATTEMPT_MARKERS[i]);
    assert forall i :: 0 <= i < |REPAIR_MARKERS| ==> Foreign(REPAIR_MARKERS[i]);
    assert forall i :: 0 <= i < |CHANGE_MARKERS| ==> Foreign(CHANGE_MARKERS[i]);
  }

  lemma PreambleIsUnprotected()
    ensures !Marked(PREAMBLE, PROTECTED_MARKERS)
  {
    MarkersAreForeign();
    forall i | 0 <= i < |PROTECTED_MARKERS|
      ensures !Contains(PREAMBLE, PROTECTED_MARKERS[i])
    {
      NotContained(PREAMBLE, PROTECTED_MARKERS[i]);
    }
  }

  // ----- The theorem

  lemma StubbedShape(ss: seq<Section>)
    requires Shape(ss)
    ensures Shape(StubAll(ss)) && Stubbed(StubAll(ss)[1..])
  {
    var cc := StubAll(ss);
    StubEvery(ss);
    StubFirstReduces(ss, Unprotected(ss));
    ReducesShape(ss, cc);
    PreambleIsUnprotected();
    forall i | 0 <= i < |cc[1..]|
      ensures !cc[1..][i].protected ==> cc[1..][i].body == BARE_STUB
      ensures cc[1..][i].name == PREAMBLE ==> !cc[1..][i].protected
    {
      assert cc[1..][i] == cc[i + 1] && HeadingOk(cc[i + 1]);
    }
  }

  lemma StubAllKeepsConditions(ss: seq<Section>)
    ensures ProtectedClean(StubAll(ss)) <==> ProtectedClean(ss)
    ensures PreambleAfterProtected(StubAll(ss)) <==> PreambleAfterProtected(ss)
  {
    var cc := StubAll(ss);
    assert forall i :: 0 <= i < |ss| ==> cc[i].name == ss[i].name && cc[i].protected == ss[i].protected;
    assert forall i :: 0 <= i < |ss| && ss[i].protected ==> cc[i].body == ss[i].body;
  }

  lemma StubbedAgainIff(ss: seq<Section>, soft: nat)
    requires Shape(ss) && EstimateTokens(Render(StubAll(ss))) > soft
    ensures var out := Render(StubAll(ss));
            Render(Compacted(out, soft)) == out <==> ProtectedClean(ss) && PreambleAfterProtected(ss)
  {
    var cc := StubAll(ss);
    StubbedShape(ss);
    var first, rest := cc[0], cc[1..];
    assert cc == [first] + rest;
    var mm := MergeFrom(first, rest);
    assert Headed(rest);
    RenderTail(cc);
    MergePrintsAlike(first, rest);
    MergeShape(first, rest);
    BeginsShaped(first, mm);
    AgainIff(mm, soft);
    MergeTidyIff(first, rest);
    SettlesIff(true, rest);
    ProtectedCleanCons(first, rest);
    FollowsWhole(first, rest);
    StubAllKeepsConditions(ss);
  }

  lemma FollowsWhole(first: Section, rest: seq<Section>)
    requires first.protected
    ensures PreambleAfterProtected([first] + rest) <==> Follows(true, rest)
  {
    var all := [first] + rest;
    assert all[0] == first && forall i :: 0 <= i < |rest| ==> all[i + 1] == rest[i];
    assert forall i :: 1 <= i < |all| ==> all[i] == rest[i - 1];
  }

  /** For every prompt and all limits: running `enforce` on its own successful output delivers
      that output again, exactly when it had nothing to do, the soft limit can be reached, or
      every protected body is clean and every heading named `Preamble` follows a protected
      section, directly or after other such headings. */
  lemma EnforceIdempotentIff(prompt: string, cfg: Config)
    requires Enforced(prompt, cfg).Ok?
    ensures var out := Enforced(prompt, cfg).value.prompt;
            Enforced(out, cfg).Ok? && Enforced(out, cfg).value.prompt == out
            <==> || !cfg.enabled || Fits(prompt, cfg) || ReachesSoft(prompt, cfg.soft)
                 || (ProtectedClean(Split(prompt)) && PreambleAfterProtected(Split(prompt)))
  {
    if cfg.enabled && !Fits(prompt, cfg) {
      FitsIff(prompt, cfg.soft);
      if !ReachesSoft(prompt, cfg.soft) {
        SplitHasShape(prompt);
        OverSoftStubsAll(prompt, cfg.soft);
        StubbedAgainIff(Split(prompt), cfg.soft);
      }
    }
  }

  /** A prompt on which the second run delivers another text. */
  lemma SecondRunDiffers(cfg: Config)
    requires cfg.enabled && cfg.soft == 0 && cfg.hard >= 1
    ensures Enforced(TWO_RETURNS, cfg).Ok?
    ensures var out := Enforced(TWO_RETURNS, cfg).value.prompt;
            !(Enforced(out, cfg).Ok? && Enforced(out, cfg).value.prompt == out)
  {
    TwoReturnsSplit();
    TwoReturnsCompacted();
    FitsIff(TWO_RETURNS, 0);
    EnforceIdempotentIff(TWO_RETURNS, cfg);
  }
}
