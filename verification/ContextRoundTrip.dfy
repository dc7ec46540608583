/**
 Splitting and rendering undo each other: exactly when no heading is called `Preamble`
 and no body line still ends in a carriage return.
 */
module ContextRoundTrip {
  import opened Basics
  import opened Text
  import opened Context

  // ----- Lines

  predicate Terminated(s: string) {
    s == [] || Last(s) == '\n'
  }

  ghost predicate OneLine(s: string) {
    '\n' !in s
  }

  lemma {:induction false} LineEndOf(l: string, rest: string)
    requires OneLine(l)
    ensures LineEnd(l + "\n" + rest) == |l|
  {
    var s := l + "\n" + rest;
    var k := LineEnd(s);
    assert s[|l|] == '\n' && |l| < |s|;
    assert forall i :: 0 <= i < |l| ==> s[i] == l[i] && l[i] in l;
  }

  lemma {:induction false} LinesCons(l: string, rest: string)
    requires OneLine(l)
    ensures Lines(l + "\n" + rest) == [StripCr(l)] + Lines(rest)
  {
    var s := l + "\n" + rest;
    LineEndOf(l, rest);
    assert s[..|l|] == l && s[|l| + 1..] == rest;
  }

  lemma {:induction false} LinesAppend(a: string, b: string)
    requires Terminated(a)
    ensures Lines(a + b) == Lines(a) + Lines(b)
    decreases |a|
  {
    if a == [] {
      assert a + b == b;
    } else {
      var k := LineEnd(a);
      assert a[..|a|] == a && Last(a) in a;
      assert k < |a|;
      var l, rest := a[..k], a[k + 1..];
      assert Terminated(rest);
      assert a == l + "\n" + rest;
      LinesAppend(rest, b);
      LinesCons(l, rest);
      LinesCons(l, rest + b);
      Associative(l + "\n", rest, b);
      Associative([StripCr(l)], Lines(rest), Lines(b));
    }
  }

  ghost predicate OneLiners(ls: seq<string>) {
    forall i :: 0 <= i < |ls| ==> OneLine(ls[i])
  }

  lemma {:induction false} LinesAreOneLiners(s: string)
    ensures OneLiners(Lines(s))
    decreases |s|
  {
    if s != [] {
      var k := LineEnd(s);
      assert s[..|s|] == s;
      if k < |s| {
        LinesAreOneLiners(s[k + 1..]);
      }
    }
  }

  function StripAll(ls: seq<string>): (r: seq<string>)
    ensures |r| == |ls|
    ensures forall i :: 0 <= i < |ls| ==> r[i] == StripCr(ls[i])
  {
    seq(|ls|, i requires 0 <= i < |ls| => StripCr(ls[i]))
  }

  lemma {:induction false} JoinConcat(a: seq<string>, b: seq<string>)
    ensures Join(a + b) == Join(a) + Join(b)
  {
    if a == [] {
      assert a + b == b;
    } else {
      JoinConcat(a[1..], b);
      assert (a + b)[1..] == a[1..] + b && (a + b)[0] == a[0];
      Associative(a[0] + "\n", Join(a[1..]), Join(b));
    }
  }

  lemma JoinSnoc(a: seq<string>, l: string)
    ensures Join(a + [l]) == Join(a) + l + "\n"
  {
    JoinConcat(a, [l]);
    assert [l][1..] == [] && Join([l]) == l + "\n" + [];
    assert l + "\n" + [] == l + "\n";
    Associative(Join(a), l, "\n");
  }

  lemma {:induction false} LinesOfJoin(ls: seq<string>)
    requires OneLiners(ls)
    ensures Lines(Join(ls)) == StripAll(ls)
    ensures Terminated(Join(ls))
  {
    if ls != [] {
      LinesOfJoin(ls[1..]);
      LinesCons(ls[0], Join(ls[1..]));
      assert Join(ls) == ls[0] + "\n" + Join(ls[1..]);
    }
  }

  // ----- Clean bodies

  /** Re-reading and re-joining the body's lines gives the body back. */
  predicate Clean(body: string) {
    body == Join(Lines(body))
  }

  ghost predicate NoCr(ls: seq<string>) {
    forall i :: 0 <= i < |ls| ==> !EndsWithCr(ls[i])
  }

  lemma {:induction false} JoinLength(ls: seq<string>)
    ensures |Join(StripAll(ls))| <= |Join(ls)|
    ensures |Join(StripAll(ls))| == |Join(ls)| ==> NoCr(ls)
  {
    if ls != [] {
      JoinLength(ls[1..]);
      assert StripAll(ls)[1..] == StripAll(ls[1..]);
    }
  }

  lemma CleanJoin(ls: seq<string>)
    requires OneLiners(ls)
    ensures Clean(Join(ls)) <==> NoCr(ls)
  {
    LinesOfJoin(ls);
    JoinLength(ls);
    if NoCr(ls) {
      assert StripAll(ls) == ls;
    }
  }

  // ----- Re-splitting rendered sections

  ghost predicate NoHeadings(ls: seq<string>) {
    forall i :: 0 <= i < |ls| ==> !IsHeading(ls[i])
  }

  ghost predicate BodyOk(body: string) {
    Terminated(body) && NoHeadings(Lines(body))
  }

  ghost predicate HeadingOk(s: Section) {
    && OneLine(s.name) && Trim(s.name) == s.name
    && s.protected == Marked(s.name, PROTECTED_MARKERS)
  }

  lemma {:induction false} SplitBody(ls: seq<string>, rest: seq<string>, cur: Section)
    requires NoHeadings(ls)
    ensures SplitLines(ls + rest, cur) == SplitLines(rest, cur.(body := cur.body + Join(ls)))
  {
    if ls == [] {
      assert ls + rest == rest;
      assert cur.body + Join(ls) == cur.body;
    } else {
      var next := cur.(body := cur.body + ls[0] + "\n");
      assert (ls + rest)[1..] == ls[1..] + rest && (ls + rest)[0] == ls[0];
      SplitBody(ls[1..], rest, next);
      Associative(cur.body, ls[0], "\n");
      Associative(cur.body, ls[0] + "\n", Join(ls[1..]));
    }
  }

  function Relined(ss: seq<Section>): (r: seq<Section>)
    ensures |r| == |ss|
    ensures forall i :: 0 <= i < |ss| ==> r[i] == Reline(ss[i])
  {
    seq(|ss|, i requires 0 <= i < |ss| => Reline(ss[i]))
  }

  lemma RelinedCons(ss: seq<Section>)
    requires ss != []
    ensures Relined(ss) == [Reline(ss[0])] + Relined(ss[1..])
  {
  }

  function Reline(s: Section): Section {
    s.(body := Join(Lines(s.body)))
  }

  // ----- Trimming

  lemma {:induction false} TrimStartFacts(s: string)
    ensures var t := TrimStart(s);
            && |t| <= |s| && t == s[|s| - |t|..]
            && (t == [] || !IsWhitespace(t[0]))
            && (forall m: Marker :: Contains(t, m) <==> Contains(s, m))
  {
    if s != [] && IsWhitespace(s[0]) {
      TrimStartFacts(s[1..]);
      assert forall m: Marker :: m <= s ==> m[0] == s[0];
    }
  }

  lemma {:induction false} ContainsSnoc(s: string, c: char, m: Marker)
    requires IsWhitespace(c)
    ensures Contains(s + [c], m) <==> Contains(s, m)
  {
    var t := s + [c];
    if m <= t {
      assert m[|m| - 1] == t[|m| - 1] && t[|s|] == c;
      assert m == t[..|m|] && m <= s;
    }
    if s != [] {
      assert t[1..] == s[1..] + [c];
      ContainsSnoc(s[1..], c, m);
    } else {
      assert t[1..] == [];
    }
  }

  lemma {:induction false} TrimEndFacts(s: string)
    ensures var t := TrimEnd(s);
            && t <= s
            && (t == [] || !IsWhitespace(Last(t)))
            && (forall m: Marker :: Contains(t, m) <==> Contains(s, m))
  {
    if s != [] && IsWhitespace(Last(s)) {
      var r := s[..|s| - 1];
      TrimEndFacts(r);
      assert s == r + [Last(s)];
      forall m: Marker
        ensures Contains(r, m) <==> Contains(s, m)
      {
        ContainsSnoc(r, Last(s), m);
      }
    }
  }

  /** A trimmed name is trimmed for good and carries the same protection. */
  lemma TrimFacts(s: string)
    ensures Trim(Trim(s)) == Trim(s)
    ensures Marked(Trim(s), PROTECTED_MARKERS) <==> Marked(s, PROTECTED_MARKERS)
    ensures OneLine(s) ==> OneLine(Trim(s))
    ensures !EndsWithCr(Trim(s))
  {
    TrimStartFacts(s);
    TrimEndFacts(TrimStart(s));
    var t := Trim(s);
    assert t != [] ==> t[0] == TrimStart(s)[0];
    assert TrimStart(t) == t && TrimEnd(t) == t;
    forall i | 0 <= i < |PROTECTED_MARKERS|
      ensures Contains(t, PROTECTED_MARKERS[i]) <==> Contains(s, PROTECTED_MARKERS[i])
    {
      var m: Marker := PROTECTED_MARKERS[i];
      assert Contains(TrimStart(s), m) <==> Contains(s, m);
    }
  }

  lemma HeadingLine(l: string)
    requires IsHeading(l) && OneLine(l)
    ensures HeadingOk(HeadingSection(l))
  {
    TrimFacts(l[3..]);
    assert OneLine(l[3..]);
  }

  // ----- Rendered sections split back

  lemma RenderTail(ss: seq<Section>)
    requires ss != []
    ensures Render(ss) == RenderOne(ss[0]) + Render(ss[1..])
  {
    assert Texts(ss)[1..] == Texts(ss[1..]);
  }

  /** The line a heading prints is the line it reads back. */
  lemma HeadingReadsBack(s: Section)
    requires HeadingOk(s)
    ensures OneLine(HEADING + s.name) && StripCr(HEADING + s.name) == HEADING + s.name
    ensures IsHeading(HEADING + s.name)
    ensures HeadingSection(HEADING + s.name) == s.(body := [])
  {
    var l := HEADING + s.name;
    TrimFacts(s.name);
    assert l[3..] == s.name;
    assert s.name != [] ==> Last(l) == Last(s.name);
  }

  lemma LinesOfHeadingSection(s: Section, rest: string)
    requires HeadingOk(s) && s.name != PREAMBLE && BodyOk(s.body)
    ensures Lines(RenderOne(s) + rest) == [HEADING + s.name] + (Lines(s.body) + Lines(rest))
  {
    var l := HEADING + s.name;
    HeadingReadsBack(s);
    Associative(l + "\n", s.body, rest);
    LinesCons(l, s.body + rest);
    LinesAppend(s.body, rest);
  }

  lemma SplitHeadingSection(s: Section, rest: seq<string>, cur: Section)
    requires HeadingOk(s) && BodyOk(s.body)
    ensures SplitLines([HEADING + s.name] + (Lines(s.body) + rest), cur)
            == [cur] + SplitLines(rest, Reline(s))
  {
    var ls := [HEADING + s.name] + (Lines(s.body) + rest);
    HeadingReadsBack(s);
    assert ls[1..] == Lines(s.body) + rest;
    SplitBody(Lines(s.body), rest, s.(body := []));
    assert [] + Join(Lines(s.body)) == Join(Lines(s.body));
  }

  lemma {:induction false} ResplitTail(ss: seq<Section>, cur: Section)
    requires forall i :: 0 <= i < |ss| ==> HeadingOk(ss[i]) && ss[i].name != PREAMBLE && BodyOk(ss[i].body)
    ensures SplitLines(Lines(Render(ss)), cur) == [cur] + Relined(ss)
  {
    if ss != [] {
      var s, rest := ss[0], ss[1..];
      RenderTail(ss);
      LinesOfHeadingSection(s, Render(rest));
      SplitHeadingSection(s, Lines(Render(rest)), cur);
      ResplitTail(rest, Reline(s));
      RelinedCons(ss);
    }
  }

  /** Sections as `Split` produces them, apart from a heading called `Preamble`. */
  ghost predicate Shape(ss: seq<Section>) {
    && ss != [] && ss[0].name == PREAMBLE && ss[0].protected
    && (forall i :: 0 <= i < |ss| ==> BodyOk(ss[i].body))
    && (forall i :: 1 <= i < |ss| ==> HeadingOk(ss[i]))
  }

  ghost predicate NoPreambleHeading(ss: seq<Section>) {
    forall i :: 1 <= i < |ss| ==> ss[i].name != PREAMBLE
  }

  lemma Resplit(ss: seq<Section>)
    requires Shape(ss) && NoPreambleHeading(ss)
    ensures Split(Render(ss)) == Relined(ss)
  {
    var s, rest := ss[0], ss[1..];
    RenderTail(ss);
    LinesAppend(s.body, Render(rest));
    SplitBody(Lines(s.body), Lines(Render(rest)), Section(PREAMBLE, [], true));
    assert [] + Join(Lines(s.body)) == Join(Lines(s.body));
    ResplitTail(rest, Reline(s));
    RelinedCons(ss);
  }

  // ----- What `Split` produces

  /** One line of the prompt does not stand in the way of a round trip. */
  predicate LineOk(l: string) {
    if IsHeading(l) then Trim(l[3..]) != PREAMBLE else !EndsWithCr(l)
  }

  /** The domain of the round trip, checkable line by line. */
  ghost predicate Faithful(prompt: string) {
    forall i :: 0 <= i < |Lines(prompt)| ==> LineOk(Lines(prompt)[i])
  }

  ghost predicate AllClean(ss: seq<Section>) {
    forall i :: 0 <= i < |ss| ==> Clean(ss[i].body)
  }

  ghost predicate Partial(ls: seq<string>, ps: seq<string>, cur: Section) {
    OneLiners(ls) && OneLiners(ps) && NoHeadings(ps) && cur.body == Join(ps)
  }

  lemma PartialBody(ps: seq<string>)
    requires OneLiners(ps) && NoHeadings(ps)
    ensures BodyOk(Join(ps))
  {
    LinesOfJoin(ps);
    forall i | 0 <= i < |ps|
      ensures !IsHeading(StripCr(ps[i]))
    {
      assert IsHeading(StripCr(ps[i])) ==> IsHeading(ps[i]);
    }
  }

  lemma PartialNext(ls: seq<string>, ps: seq<string>, cur: Section)
    requires Partial(ls, ps, cur) && ls != []
    ensures IsHeading(ls[0]) ==> Partial(ls[1..], [], HeadingSection(ls[0])) && HeadingOk(HeadingSection(ls[0]))
    ensures !IsHeading(ls[0]) ==> Partial(ls[1..], ps + [ls[0]], cur.(body := cur.body + ls[0] + "\n"))
  {
    if IsHeading(ls[0]) {
      HeadingLine(ls[0]);
    } else {
      JoinSnoc(ps, ls[0]);
    }
  }

  /** Every section may stand after a heading. */
  ghost predicate Headed(rest: seq<Section>) {
    forall i :: 0 <= i < |rest| ==> BodyOk(rest[i].body) && HeadingOk(rest[i])
  }

  /** A section that began as `cur`, and headed ones after it. */
  ghost predicate BeginsAs(cur: Section, r: seq<Section>) {
    r != [] && r[0].name == cur.name && r[0].protected == cur.protected && BodyOk(r[0].body) && Headed(r[1..])
  }

  lemma BeginsCons(cur: Section, h: Section, r: seq<Section>)
    requires BodyOk(cur.body) && HeadingOk(h) && BeginsAs(h, r)
    ensures BeginsAs(cur, [cur] + r)
  {
    assert ([cur] + r)[1..] == r;
    forall i | 0 <= i < |r|
      ensures BodyOk(r[i].body) && HeadingOk(r[i])
    {
      assert i > 0 ==> r[i] == r[1..][i - 1];
    }
  }

  lemma {:induction false} SplitShape(ls: seq<string>, ps: seq<string>, cur: Section)
    requires Partial(ls, ps, cur)
    ensures BeginsAs(cur, SplitLines(ls, cur))
    decreases |ls|
  {
    if ls == [] {
      PartialBody(ps);
    } else {
      PartialNext(ls, ps, cur);
      if IsHeading(ls[0]) {
        PartialBody(ps);
        var h := HeadingSection(ls[0]);
        SplitShape(ls[1..], [], h);
        BeginsCons(cur, h, SplitLines(ls[1..], h));
      } else {
        SplitShape(ls[1..], ps + [ls[0]], cur.(body := cur.body + ls[0] + "\n"));
      }
    }
  }

  lemma BeginsShaped(cur: Section, r: seq<Section>)
    requires BeginsAs(cur, r) && cur.name == PREAMBLE && cur.protected
    ensures Shape(r)
  {
    forall i | 1 <= i < |r|
      ensures BodyOk(r[i].body) && HeadingOk(r[i])
    {
      assert r[i] == r[1..][i - 1];
    }
  }

  lemma {:induction false} SplitFaithful(ls: seq<string>, ps: seq<string>, cur: Section)
    requires Partial(ls, ps, cur)
    ensures AllClean(SplitLines(ls, cur)) && NoPreambleHeading(SplitLines(ls, cur))
            <==> NoCr(ps) && forall i :: 0 <= i < |ls| ==> LineOk(ls[i])
    decreases |ls|
  {
    if ls == [] {
      CleanJoin(ps);
      assert SplitLines(ls, cur)[0] == cur;
    } else {
      PartialNext(ls, ps, cur);
      var tail := ls[1..];
      assert (forall i :: 0 <= i < |ls| ==> LineOk(ls[i])) <==>
             LineOk(ls[0]) && forall i :: 0 <= i < |tail| ==> LineOk(tail[i]) by {
        assert forall i :: 0 < i < |ls| ==> ls[i] == tail[i - 1];
      }
      if IsHeading(ls[0]) {
        CleanJoin(ps);
        var h := HeadingSection(ls[0]);
        SplitFaithful(tail, [], h);
        SplitShape(tail, [], h);
        SplitAtHeading(cur, SplitLines(tail, h));
      } else {
        SplitFaithful(tail, ps + [ls[0]], cur.(body := cur.body + ls[0] + "\n"));
        NoCrSnoc(ps, ls[0]);
      }
    }
  }

  /** No line of a protected body still ends in a carriage return. */
  ghost predicate ProtectedClean(ss: seq<Section>) {
    forall i :: 0 <= i < |ss| && ss[i].protected ==> Clean(ss[i].body)
  }

  /** The same, line by line: in a protected section no line that is not a heading ends in a
      carriage return; `protected` says how the section of the first line is. */
  predicate ProtectedLinesClean(ls: seq<string>, protected: bool) {
    if ls == [] then true
    else if IsHeading(ls[0]) then ProtectedLinesClean(ls[1..], HeadingSection(ls[0]).protected)
    else (protected ==> !EndsWithCr(ls[0])) && ProtectedLinesClean(ls[1..], protected)
  }

  lemma ProtectedCleanCons(s: Section, r: seq<Section>)
    ensures ProtectedClean([s] + r) <==> (s.protected ==> Clean(s.body)) && ProtectedClean(r)
  {
    var all := [s] + r;
    assert all[0] == s && forall i :: 0 <= i < |r| ==> all[i + 1] == r[i];
    assert forall i :: 1 <= i < |all| ==> all[i] == r[i - 1];
  }

  lemma NoCrSnoc(ps: seq<string>, l: string)
    ensures NoCr(ps + [l]) <==> NoCr(ps) && !EndsWithCr(l)
  {
    assert (ps + [l])[|ps|] == l;
    assert forall i :: 0 <= i < |ps| ==> (ps + [l])[i] == ps[i];
  }

  lemma {:induction false} SplitProtected(ls: seq<string>, ps: seq<string>, cur: Section)
    requires Partial(ls, ps, cur)
    ensures ProtectedClean(SplitLines(ls, cur))
            <==> (cur.protected ==> NoCr(ps)) && ProtectedLinesClean(ls, cur.protected)
    decreases |ls|
  {
    CleanJoin(ps);
    if ls == [] {
      ProtectedCleanCons(cur, []);
      assert [cur] + [] == [cur];
    } else {
      PartialNext(ls, ps, cur);
      if IsHeading(ls[0]) {
        var h := HeadingSection(ls[0]);
        SplitProtected(ls[1..], [], h);
        ProtectedCleanCons(cur, SplitLines(ls[1..], h));
      } else {
        NoCrSnoc(ps, ls[0]);
        SplitProtected(ls[1..], ps + [ls[0]], cur.(body := cur.body + ls[0] + "\n"));
      }
    }
  }

  /** A prompt's protected bodies are clean exactly when its lines say so. */
  lemma ProtectedCleanIff(prompt: string)
    ensures ProtectedClean(Split(prompt)) <==> ProtectedLinesClean(Lines(prompt), true)
  {
    LinesAreOneLiners(prompt);
    SplitProtected(Lines(prompt), [], Section(PREAMBLE, [], true));
  }

  lemma SplitAtHeading(cur: Section, rest: seq<Section>)
    requires rest != []
    ensures AllClean([cur] + rest) <==> Clean(cur.body) && AllClean(rest)
    ensures NoPreambleHeading([cur] + rest) <==> rest[0].name != PREAMBLE && NoPreambleHeading(rest)
  {
    var all := [cur] + rest;
    assert all[0] == cur && all[1] == rest[0];
    assert forall i :: 0 <= i < |rest| ==> rest[i] == all[i + 1];
    assert forall i :: 1 <= i < |all| ==> all[i] == rest[i - 1];
  }

  lemma SplitHasShape(prompt: string)
    ensures Shape(Split(prompt))
    ensures AllClean(Split(prompt)) && NoPreambleHeading(Split(prompt)) <==> Faithful(prompt)
  {
    LinesAreOneLiners(prompt);
    SplitShape(Lines(prompt), [], Section(PREAMBLE, [], true));
    BeginsShaped(Section(PREAMBLE, [], true), Split(prompt));
    SplitFaithful(Lines(prompt), [], Section(PREAMBLE, [], true));
  }

  // ----- The exact round trip

  function Headings(ls: seq<string>): nat {
    if ls == [] then 0 else (if IsHeading(ls[0]) then 1 else 0) + Headings(ls[1..])
  }

  function Named(ss: seq<Section>): nat {
    if ss == [] then 0 else (if ss[0].name == PREAMBLE then 0 else 1) + Named(ss[1..])
  }

  lemma {:induction false} SplitCount(ls: seq<string>, cur: Section)
    ensures |SplitLines(ls, cur)| == 1 + Headings(ls)
  {
    if ls != [] {
      if IsHeading(ls[0]) {
        SplitCount(ls[1..], HeadingSection(ls[0]));
      } else {
        SplitCount(ls[1..], cur.(body := cur.body + ls[0] + "\n"));
      }
    }
  }

  lemma {:induction false} HeadingsAppend(a: seq<string>, b: seq<string>)
    requires NoHeadings(a)
    ensures Headings(a + b) == Headings(b)
  {
    if a == [] {
      assert a + b == b;
    } else {
      HeadingsAppend(a[1..], b);
      assert (a + b)[1..] == a[1..] + b && (a + b)[0] == a[0];
    }
  }

  lemma {:induction false} RenderedHeadings(ss: seq<Section>)
    requires forall i :: 0 <= i < |ss| ==> BodyOk(ss[i].body) && (ss[i].name == PREAMBLE || HeadingOk(ss[i]))
    ensures Headings(Lines(Render(ss))) == Named(ss)
  {
    if ss != [] {
      var s, rest := ss[0], ss[1..];
      RenderTail(ss);
      RenderedHeadings(rest);
      HeadingsAppend(Lines(s.body), Lines(Render(rest)));
      if s.name == PREAMBLE {
        LinesAppend(s.body, Render(rest));
      } else {
        LinesOfHeadingSection(s, Render(rest));
        HeadingReadsBack(s);
        var ls := [HEADING + s.name] + (Lines(s.body) + Lines(Render(rest)));
        assert ls[1..] == Lines(s.body) + Lines(Render(rest));
      }
    }
  }

  lemma {:induction false} NamedAll(ss: seq<Section>)
    ensures Named(ss) <= |ss|
    ensures Named(ss) == |ss| ==> forall i :: 0 <= i < |ss| ==> ss[i].name != PREAMBLE
  {
    if ss != [] {
      NamedAll(ss[1..]);
    }
  }

  /** A second section called `Preamble` prints no heading, so the sections do not come back. */
  lemma RoundTripNeedsNames(ss: seq<Section>)
    requires Shape(ss) && |Split(Render(ss))| == |ss|
    ensures NoPreambleHeading(ss)
  {
    SplitCount(Lines(Render(ss)), Section(PREAMBLE, [], true));
    RenderedHeadings(ss);
    assert Named(ss) == Named(ss[1..]);
    NamedAll(ss[1..]);
  }

  lemma RoundTripNeedsCleanBodies(ss: seq<Section>)
    requires Relined(ss) == ss
    ensures AllClean(ss)
  {
    forall i | 0 <= i < |ss|
      ensures Clean(ss[i].body)
    {
      assert Reline(ss[i]) == ss[i];
    }
  }

  lemma CleanRelined(ss: seq<Section>)
    requires AllClean(ss)
    ensures Relined(ss) == ss
  {
  }

  /** Rendering and splitting again gives a prompt's sections back exactly when no heading is
      `Preamble` and no body line still ends in a carriage return. */
  lemma RoundTripIff(prompt: string)
    ensures Split(Render(Split(prompt))) == Split(prompt) <==> Faithful(prompt)
  {
    SplitHasShape(prompt);
    var ss := Split(prompt);
    if Faithful(prompt) {
      Resplit(ss);
      CleanRelined(ss);
    } else if Split(Render(ss)) == ss {
      RoundTripNeedsNames(ss);
      Resplit(ss);
      RoundTripNeedsCleanBodies(ss);
    }
  }

  /** In particular every prompt without carriage returns and without that heading. */
  lemma PlainPromptsAreFaithful(prompt: string)
    requires '\r' !in prompt
    requires forall i :: 0 <= i < |Lines(prompt)| && IsHeading(Lines(prompt)[i]) ==>
                           Trim(Lines(prompt)[i][3..]) != PREAMBLE
    ensures Faithful(prompt)
  {
    LinesWithoutCr(prompt);
  }

  lemma {:induction false} LinesWithoutCr(s: string)
    requires '\r' !in s
    ensures NoCr(Lines(s))
    decreases |s|
  {
    if s != [] {
      var k := LineEnd(s);
      if k < |s| {
        LinesWithoutCr(s[k + 1..]);
      }
    }
  }
}
