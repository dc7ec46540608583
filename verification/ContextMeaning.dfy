/**
 What the text functions and limits of prompt compaction mean, said in bytes, lines and
 characters rather than through the functions that compute them.
 */
module ContextMeaning {
  import opened Basics
  import opened Text
  import Utf8
  import opened Context
  import opened ContextRoundTrip
  import opened ContextEnforce

  // ----- Sizes

  function Bytes(s: string): nat {
    |Utf8.Encode(s)|
  }

  lemma {:induction false} ByteLenIs(s: string)
    ensures ByteLen(s) == Bytes(s)
  {
    if s != [] {
      ByteLenIs(s[1..]);
    }
  }

  /** The estimate is the least number of tokens of four bytes that hold the text. */
  lemma EstimateIff(s: string, n: nat)
    ensures EstimateTokens(s) <= n <==> Bytes(s) <= 4 * n
  {
    ByteLenIs(s);
  }

  /** A prompt is delivered unchanged, and reported as such, iff compaction is off or its bytes
      are within both limits. */
  lemma UnchangedIff(prompt: string, cfg: Config)
    ensures var r := Enforced(prompt, cfg);
            r.Ok? && !r.value.compacted
            <==> !cfg.enabled || (Bytes(prompt) <= 4 * cfg.soft && Bytes(prompt) <= 4 * cfg.hard)
    ensures var r := Enforced(prompt, cfg);
            r.Ok? && !r.value.compacted ==> r.value.prompt == prompt
  {
    EstimateIff(prompt, cfg.soft);
    EstimateIff(prompt, cfg.hard);
  }

  /** The reported sizes are those of the prompt as given and as delivered. */
  lemma ReportedSizes(prompt: string, cfg: Config)
    requires Enforced(prompt, cfg).Ok?
    ensures var b := Enforced(prompt, cfg).value;
            && Bytes(prompt) <= 4 * b.before < Bytes(prompt) + 4
            && Bytes(b.prompt) <= 4 * b.after < Bytes(b.prompt) + 4
  {
    ByteLenIs(prompt);
    ByteLenIs(Enforced(prompt, cfg).value.prompt);
  }

  /** When enabled, at most four bytes are delivered for each token of the hard limit. */
  lemma WithinHardLimit(prompt: string, cfg: Config)
    requires cfg.enabled && Enforced(prompt, cfg).Ok?
    ensures Bytes(Enforced(prompt, cfg).value.prompt) <= 4 * cfg.hard
  {
    EstimateIff(Enforced(prompt, cfg).value.prompt, cfg.hard);
  }

  /** The prompt with the first `k` unprotected sections stubbed, history kinds being stubbed anyway. */
  function Reduced(prompt: string, k: nat): string {
    Render(StubFirst(PhaseOne(Split(prompt)), k))
  }

  /** With soft <= hard, a prompt is refused exactly when it is over the soft limit, stubbing
      fewer than all unprotected sections never brings it down to that limit, and the fully
      stubbed prompt is over the hard limit, all in bytes. */
  lemma RefusalIff(prompt: string, cfg: Config)
    requires cfg.soft <= cfg.hard
    ensures Enforced(prompt, cfg).Err? <==>
            && cfg.enabled && Bytes(prompt) > 4 * cfg.soft
            && (forall k: nat :: k < Unprotected(Split(prompt)) ==> Bytes(Reduced(prompt, k)) > 4 * cfg.soft)
            && Bytes(Render(StubAll(Split(prompt)))) > 4 * cfg.hard
  {
    var ss := PhaseOne(Split(prompt));
    RefusalInTokens(prompt, cfg);
    EstimateIff(prompt, cfg.soft);
    EstimateIff(Render(StubAll(Split(prompt))), cfg.hard);
    SameCounts(Split(prompt), |ss|);
    forall k: nat
      ensures TokensWith(ss, k) > cfg.soft <==> Bytes(Reduced(prompt, k)) > 4 * cfg.soft
    {
      EstimateIff(Reduced(prompt, k), cfg.soft);
    }
  }

  lemma {:induction false} SameCounts(ss: seq<Section>, n: nat)
    requires n <= |ss|
    ensures UnprotectedBelow(PhaseOne(ss), n) == UnprotectedBelow(ss, n)
  {
    if n > 0 {
      SameCounts(ss, n - 1);
    }
  }

  /** What a compacted prompt holds, section by section: protected bodies as they were; of the
      unprotected sections the first `n` a bare stub, and each later one a stub with its name if
      it is a kind of history, else its own body. */
  lemma CompactedBodies(prompt: string, soft: nat, i: nat)
    requires i < |Split(prompt)|
    ensures var ss, cc := Split(prompt), Compacted(prompt, soft);
            var n := StubCount(PhaseOne(ss), soft, 0);
            && |cc| == |ss| && cc[i].name == ss[i].name && cc[i].protected == ss[i].protected
            && cc[i].body == (if ss[i].protected then ss[i].body
                              else if UnprotectedBelow(ss, i) < n then "(compacted; retrieve on demand)\n"
                              else if IsHistory(ss[i].name) then "(compacted; retrieve relevant " + ss[i].name + " on demand)\n"
                              else ss[i].body)
  {
    var ss := Split(prompt);
    SameCounts(ss, i);
    HistoryNames(ss[i].name);
    StubTexts(ss[i].name);
  }

  lemma StubTexts(name: string)
    ensures BARE_STUB == "(compacted; retrieve on demand)\n"
    ensures HistoryStub(name) == "(compacted; retrieve relevant " + name + " on demand)\n"
  {
  }

  // ----- Names

  /** `m` occurs somewhere in `s`. */
  predicate Occurs(s: string, m: string) {
    exists i :: 0 <= i <= |s| && m <= s[i..]
  }

  lemma {:induction false} ContainsIff(s: string, m: string)
    ensures Contains(s, m) <==> Occurs(s, m)
  {
    assert s[0..] == s;
    if s != [] {
      var t := s[1..];
      ContainsIff(t, m);
      if i :| 0 <= i <= |t| && m <= t[i..] {
        assert t[i..] == s[i + 1..];
      }
      if i :| 0 <= i <= |s| && m <= s[i..] {
        assert i > 0 ==> s[i..] == t[i - 1..];
      }
    }
  }

  predicate IsHistory(name: string) {
    || Occurs(name, "Manager Memory") || Occurs(name, "Git History") || Occurs(name, "Repository Map")
    || Occurs(name, "Context") || Occurs(name, "History")
  }

  lemma HistoryNames(name: string)
    ensures Marked(name, HISTORY_MARKERS) <==> IsHistory(name)
  {
    forall i | 0 <= i < |HISTORY_MARKERS|
      ensures Contains(name, HISTORY_MARKERS[i]) <==> Occurs(name, HISTORY_MARKERS[i])
    {
      ContainsIff(name, HISTORY_MARKERS[i]);
    }
    assert HISTORY_MARKERS[0] == "Manager Memory" && HISTORY_MARKERS[1] == "Git History";
    assert HISTORY_MARKERS[2] == "Repository Map" && HISTORY_MARKERS[3] == "Context" && HISTORY_MARKERS[4] == "History";
  }

  predicate IsProtectedName(name: string) {
    || Occurs(name, "Review Pack") || Occurs(name, "Focus") || Occurs(name, "Live Task Pack") || Occurs(name, "Safety")
    || Occurs(name, "Project Rules") || Occurs(name, "Deferred Context") || Occurs(name, "Acceptance Criteria")
    || Occurs(name, "Verification Commands") || Occurs(name, "Prior attempts") || Occurs(name, "Previous attempt")
    || Occurs(name, "Previous backend") || Occurs(name, "Review Format Repair") || Occurs(name, "Repair Findings")
    || Occurs(name, "Source Issue Contract") || Occurs(name, "Source Issue Lookup") || Occurs(name, "Diff")
    || Occurs(name, "Warning") || Occurs(name, "Current Git") || Occurs(name, "Unresolved")
  }

  lemma MarkedConcat(name: string, a: seq<string>, b: seq<string>)
    ensures Marked(name, a + b) <==> Marked(name, a) || Marked(name, b)
  {
    var c := a + b;
    assert forall i :: 0 <= i < |a| ==> c[i] == a[i];
    assert forall i :: 0 <= i < |b| ==> c[|a| + i] == b[i];
    assert forall i :: |a| <= i < |c| ==> c[i] == b[i - |a|];
  }

  lemma MarkedNone(name: string)
    ensures !Marked(name, [])
  {
  }

  lemma MarkedCons(name: string, m: string, ms: seq<string>)
    ensures Marked(name, [m] + ms) <==> Occurs(name, m) || Marked(name, ms)
  {
    MarkedConcat(name, [m], ms);
    ContainsIff(name, m);
    assert Marked(name, [m]) <==> Contains(name, [m][0]);
  }

  lemma TaskNames(name: string)
    ensures Marked(name, TASK_MARKERS)
            <==> || Occurs(name, "Review Pack") || Occurs(name, "Focus") || Occurs(name, "Live Task Pack")
                 || Occurs(name, "Safety") || Occurs(name, "Project Rules") || Occurs(name, "Deferred Context")
  {
    MarkedSix(name, "Review Pack", "Focus", "Live Task Pack", "Safety", "Project Rules", "Deferred Context");
  }

  lemma MarkedSix(name: string, a: string, b: string, c: string, d: string, e: string, f: string)
    ensures Marked(name, [a, b, c, d, e, f])
            <==> Occurs(name, a) || Occurs(name, b) || Occurs(name, c) || Occurs(name, d) || Occurs(name, e) || Occurs(name, f)
  {
    assert [a, b, c, d, e, f] == [a, b] + [c, d, e, f];
    MarkedConcat(name, [a, b], [c, d, e, f]);
    MarkedTwo(name, a, b);
    MarkedFour(name, c, d, e, f);
  }

  lemma MarkedFour(name: string, a: string, b: string, c: string, d: string)
    ensures Marked(name, [a, b, c, d]) <==> Occurs(name, a) || Occurs(name, b) || Occurs(name, c) || Occurs(name, d)
  {
    assert [a, b, c, d] == [a, b] + [c, d];
    MarkedConcat(name, [a, b], [c, d]);
    MarkedTwo(name, a, b);
    MarkedTwo(name, c, d);
  }

  lemma MarkedTwo(name: string, a: string, b: string)
    ensures Marked(name, [a, b]) <==> Occurs(name, a) || Occurs(name, b)
  {
    MarkedNone(name);
    MarkedCons(name, b, []);
    assert [b] + [] == [b] && [a] + [b] == [a, b];
    MarkedCons(name, a, [b]);
  }

  lemma AttemptNames(name: string)
    ensures Marked(name, ATTEMPT_MARKERS)
            <==> || Occurs(name, "Acceptance Criteria") || Occurs(name, "Verification Commands")
                 || Occurs(name, "Prior attempts") || Occurs(name, "Previous attempt") || Occurs(name, "Previous backend")
  {
    MarkedFour(name, "Verification Commands", "Prior attempts", "Previous attempt", "Previous backend");
    MarkedCons(name, "Acceptance Criteria", ["Verification Commands", "Prior attempts", "Previous attempt", "Previous backend"]);
    assert ATTEMPT_MARKERS
           == ["Acceptance Criteria"] + ["Verification Commands", "Prior attempts", "Previous attempt", "Previous backend"];
  }

  /** A section is protected iff its heading names one of the kinds that must survive. */
  lemma ProtectedNames(name: string)
    ensures Marked(name, PROTECTED_MARKERS) <==> IsProtectedName(name)
  {
    TaskNames(name);
    AttemptNames(name);
    MarkedFour(name, "Review Format Repair", "Repair Findings", "Source Issue Contract", "Source Issue Lookup");
    MarkedFour(name, "Diff", "Warning", "Current Git", "Unresolved");
    MarkedConcat(name, TASK_MARKERS, ATTEMPT_MARKERS);
    MarkedConcat(name, TASK_MARKERS + ATTEMPT_MARKERS, REPAIR_MARKERS);
    MarkedConcat(name, TASK_MARKERS + ATTEMPT_MARKERS + REPAIR_MARKERS, CHANGE_MARKERS);
  }

  /** Whitespace is the Unicode property White_Space. */
  lemma WhitespaceIs(c: char)
    ensures IsWhitespace(c)
            <==> var n := c as int;
                 9 <= n <= 13 || 0x2000 <= n <= 0x200A
                 || n in {0x20, 0x85, 0xA0, 0x1680, 0x2028, 0x2029, 0x202F, 0x205F, 0x3000}
  {
  }

  /** Trimming cuts off whitespace at both ends and nothing else. */
  lemma {:induction false} TrimIs(s: string) returns (a: nat, b: nat)
    ensures a <= b <= |s| && Trim(s) == s[a..b]
    ensures forall i :: 0 <= i < a || b <= i < |s| ==> IsWhitespace(s[i])
    ensures a < b ==> !IsWhitespace(s[a]) && !IsWhitespace(s[b - 1])
  {
    a := StartIs(s);
    var t := TrimStart(s);
    b := EndIs(t);
    assert Trim(s) == t[..b] && t[..b] == s[a..a + b];
    assert forall i :: 0 <= i < |t| ==> t[i] == s[a + i];
    forall i | a + b <= i < |s|
      ensures IsWhitespace(s[i])
    {
      assert t[i - a] == s[i];
    }
    b := a + b;
  }

  lemma {:induction false} StartIs(s: string) returns (a: nat)
    ensures a <= |s| && TrimStart(s) == s[a..]
    ensures (forall i :: 0 <= i < a ==> IsWhitespace(s[i])) && (a < |s| ==> !IsWhitespace(s[a]))
  {
    a := 0;
    if s != [] && IsWhitespace(s[0]) {
      a := StartIs(s[1..]);
      assert s[1..][a..] == s[a + 1..];
      assert forall i :: 1 <= i < |s| ==> s[i] == s[1..][i - 1];
      a := a + 1;
    }
  }

  lemma {:induction false} EndIs(s: string) returns (b: nat)
    ensures b <= |s| && TrimEnd(s) == s[..b]
    ensures (forall i :: b <= i < |s| ==> IsWhitespace(s[i])) && (b > 0 ==> !IsWhitespace(s[b - 1]))
  {
    b := |s|;
    if s != [] && IsWhitespace(Last(s)) {
      b := EndIs(s[..|s| - 1]);
      assert s[..|s| - 1][..b] == s[..b];
    }
  }

  /** The reported names are those of the headings, in order. */
  lemma {:induction false} NamesAre(ss: seq<Section>)
    requires forall i :: 0 <= i < |ss| ==> ss[i].name != PREAMBLE
    ensures |NamesOf(ss)| == |ss| && forall i :: 0 <= i < |ss| ==> NamesOf(ss)[i] == ss[i].name
  {
    if ss != [] {
      NamesAre(ss[1..]);
      assert forall i :: 1 <= i < |ss| ==> ss[i] == ss[1..][i - 1];
    }
  }

  // ----- Lines

  /** `str::lines`: a line ends at a newline, ... */
  lemma {:induction false} LineEndsAtNewline(l: string, rest: string)
    requires OneLine(l) && !EndsWithCr(l)
    ensures Lines(l + "\n" + rest) == [l] + Lines(rest)
  {
    LinesCons(l, rest);
  }

  /** ... or at a carriage return and a newline, ... */
  lemma {:induction false} LineEndsAtCrLf(l: string, text: string, rest: string)
    requires OneLine(l) && text == l + ['\r'] + "\n" + rest
    ensures Lines(text) == [l] + Lines(rest)
  {
    var line := l + ['\r'];
    LinesCons(line, rest);
    assert Last(line) == '\r' && line[..|l|] == l;
  }

  /** ... or at the end of the text. */
  lemma {:induction false} LineEndsAtEnd(l: string)
    requires OneLine(l)
    ensures Lines(l) == if l == [] then [] else [l]
  {
    assert forall i :: 0 <= i < |l| ==> l[i] != '\n';
    assert LineEnd(l) == |l|;
  }

  /** A heading line as it is printed. */
  function Printed(l: string): string {
    if IsHeading(l) then "## " + Trim(l[3..]) else l
  }

  function AllPrinted(ls: seq<string>): seq<string> {
    if ls == [] then [] else [Printed(ls[0])] + AllPrinted(ls[1..])
  }

  ghost predicate NoPreambleLine(ls: seq<string>) {
    forall i :: 0 <= i < |ls| && IsHeading(ls[i]) ==> Trim(ls[i][3..]) != PREAMBLE
  }

  lemma {:induction false} PrintedLines(ls: seq<string>, cur: Section)
    requires NoPreambleLine(ls)
    ensures Render(SplitLines(ls, cur)) == RenderOne(cur) + Join(AllPrinted(ls))
    decreases |ls|
  {
    if ls == [] {
      RenderTail([cur]);
    } else {
      var l, rest := ls[0], ls[1..];
      assert NoPreambleLine(rest);
      if IsHeading(l) {
        var h := HeadingSection(l);
        PrintedLines(rest, h);
        RenderTail([cur] + SplitLines(rest, h));
        assert ([cur] + SplitLines(rest, h))[1..] == SplitLines(rest, h);
        assert RenderOne(h) == Printed(l) + "\n";
        Associative(Printed(l), "\n", Join(AllPrinted(rest)));
      } else {
        PrintedLines(rest, cur.(body := cur.body + l + "\n"));
        BodyGrows(cur, l + "\n");
        Associative(RenderOne(cur), l + "\n", Join(AllPrinted(rest)));
        assert cur.body + l + "\n" == cur.body + (l + "\n");
      }
    }
  }

  lemma BodyGrows(s: Section, more: string)
    ensures RenderOne(s.(body := s.body + more)) == RenderOne(s) + more
  {
    if s.name != PREAMBLE {
      Associative(HEADING + s.name + "\n", s.body, more);
    }
  }

  /** Splitting loses nothing: printed again, a prompt has the same lines in the same order, each
      ended by a newline and heading names trimmed. */
  lemma PrintedAgain(prompt: string)
    requires NoPreambleLine(Lines(prompt))
    ensures Render(Split(prompt)) == Join(AllPrinted(Lines(prompt)))
  {
    PrintedLines(Lines(prompt), Section(PREAMBLE, [], true));
    assert [] + Join(AllPrinted(Lines(prompt))) == Join(AllPrinted(Lines(prompt)));
  }
}
