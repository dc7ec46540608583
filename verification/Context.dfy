/**
 Prompt compaction (src/context.rs): a splitter and a printer over text, and a two-phase
 reduction that stubs unprotected sections until the prompt fits.
 */
module Context {
  import opened Basics
  import opened Text

  // ----- Text

  function Utf8Width(c: char): nat {
    if c < '\U{80}' then 1 else if c < '\U{800}' then 2 else if c < '\U{10000}' then 3 else 4
  }

  function ByteLen(s: string): nat {
    if s == [] then 0 else Utf8Width(s[0]) + ByteLen(s[1..])
  }

  /** Four UTF-8 bytes per token, rounded up. */
  function EstimateTokens(s: string): nat {
    (ByteLen(s) + 3) / 4
  }

  predicate Contains(s: string, m: string) {
    m <= s || (s != [] && Contains(s[1..], m))
  }

  /** Position of the first newline, or the length. */
  function LineEnd(s: string): (k: nat)
    ensures k <= |s|
    ensures '\n' !in s[..k]
    ensures k < |s| ==> s[k] == '\n'
  {
    if s == [] || s[0] == '\n' then 0
    else
      var k := 1 + LineEnd(s[1..]);
      assert s[..k] == [s[0]] + s[1..][..k - 1];
      k
  }

  predicate EndsWithCr(s: string) {
    s != [] && Last(s) == '\r'
  }

  function StripCr(s: string): string {
    if EndsWithCr(s) then s[..|s| - 1] else s
  }

  /** `str::lines`: a carriage return is dropped only in front of a newline. */
  function Lines(s: string): seq<string> {
    if s == [] then []
    else
      var k := LineEnd(s);
      if k == |s| then [s] else [StripCr(s[..k])] + Lines(s[k + 1..])
  }

  /** Every line followed by a newline. */
  function Join(ls: seq<string>): string {
    if ls == [] then [] else ls[0] + "\n" + Join(ls[1..])
  }

  // ----- Sections

  type Marker = m: string | m != [] && !IsWhitespace(m[0]) && !IsWhitespace(m[|m| - 1]) witness "x"

  const PREAMBLE := "Preamble"
  const HEADING := "## "

  const TASK_MARKERS: seq<Marker> := [
    "Review Pack", "Focus", "Live Task Pack", "Safety", "Project Rules", "Deferred Context"]
  const ATTEMPT_MARKERS: seq<Marker> := [
    "Acceptance Criteria", "Verification Commands", "Prior attempts", "Previous attempt",
    "Previous backend"]
  const REPAIR_MARKERS: seq<Marker> := [
    "Review Format Repair", "Repair Findings", "Source Issue Contract", "Source Issue Lookup"]
  const CHANGE_MARKERS: seq<Marker> := ["Diff", "Warning", "Current Git", "Unresolved"]

  const PROTECTED_MARKERS: seq<Marker> :=
    TASK_MARKERS + ATTEMPT_MARKERS + REPAIR_MARKERS + CHANGE_MARKERS

  const HISTORY_MARKERS: seq<string> := [
    "Manager Memory", "Git History", "Repository Map", "Context", "History"]

  datatype Section = Section(name: string, body: string, protected: bool)

  predicate Marked(name: string, markers: seq<string>) {
    exists i | 0 <= i < |markers| :: Contains(name, markers[i])
  }

  predicate IsHeading(line: string) {
    HEADING <= line
  }

  function HeadingSection(line: string): Section
    requires IsHeading(line)
  {
    Section(Trim(line[3..]), [], Marked(line[3..], PROTECTED_MARKERS))
  }

  function SplitLines(ls: seq<string>, current: Section): seq<Section> {
    if ls == [] then [current]
    else if IsHeading(ls[0]) then [current] + SplitLines(ls[1..], HeadingSection(ls[0]))
    else SplitLines(ls[1..], current.(body := current.body + ls[0] + "\n"))
  }

  function Split(prompt: string): seq<Section> {
    SplitLines(Lines(prompt), Section(PREAMBLE, [], true))
  }

  function RenderOne(s: Section): string {
    if s.name == PREAMBLE then s.body else HEADING + s.name + "\n" + s.body
  }

  function Texts(ss: seq<Section>): (r: seq<string>)
    ensures |r| == |ss|
    ensures forall i {:trigger r[i]} :: 0 <= i < |ss| ==> r[i] == RenderOne(ss[i])
  {
    seq(|ss|, i requires 0 <= i < |ss| => RenderOne(ss[i]))
  }

  function Render(ss: seq<Section>): string {
    Flatten(Texts(ss))
  }

  method SplitSections(prompt: string) returns (sections: seq<Section>)
    ensures sections == Split(prompt)
  {
    sections := [];
    var current := Section(PREAMBLE, [], true);
    var ls := Lines(prompt);
    for i := 0 to |ls|
      invariant sections + SplitLines(ls[i..], current) == Split(prompt)
    {
      assert ls[i..][1..] == ls[i + 1..];
      if IsHeading(ls[i]) {
        sections := sections + [current];
        current := HeadingSection(ls[i]);
      } else {
        current := current.(body := current.body + ls[i] + "\n");
      }
    }
    sections := sections + [current];
  }

  method RenderSections(sections: seq<Section>) returns (out: string)
    ensures out == Render(sections)
  {
    out := [];
    ghost var texts := Texts(sections);
    for i := 0 to |sections|
      invariant out == Flatten(texts[..i])
    {
      var section := sections[i];
      FlattenSnoc(texts[..i], texts[i]);
      assert texts[..i + 1] == texts[..i] + [texts[i]];
      if section.name == PREAMBLE {
        out := out + section.body;
      } else {
        out := out + (HEADING + section.name + "\n" + section.body);
      }
    }
    assert texts[..|sections|] == texts;
  }

  // ----- Reduction

  const STUB_HEAD := "(compacted; retrieve "
  const STUB_TAIL := "on demand)"
  const BARE_STUB := STUB_HEAD + STUB_TAIL + "\n"

  function HistoryStub(name: string): string {
    STUB_HEAD + ("relevant " + name + " ") + STUB_TAIL + "\n"
  }

  /** Phase one: unprotected history-like sections point at how to retrieve them. */
  function StubHistory(s: Section): Section {
    if !s.protected && Marked(s.name, HISTORY_MARKERS) then s.(body := HistoryStub(s.name)) else s
  }

  function PhaseOne(ss: seq<Section>): (r: seq<Section>)
    ensures |r| == |ss|
    ensures forall i :: 0 <= i < |ss| ==> r[i] == StubHistory(ss[i])
  {
    seq(|ss|, i requires 0 <= i < |ss| => StubHistory(ss[i]))
  }

  /** How many of the first `n` sections are unprotected. */
  function UnprotectedBelow(ss: seq<Section>, n: nat): nat
    requires n <= |ss|
  {
    if n == 0 then 0 else UnprotectedBelow(ss, n - 1) + (if ss[n - 1].protected then 0 else 1)
  }

  function Unprotected(ss: seq<Section>): nat {
    UnprotectedBelow(ss, |ss|)
  }

  function Stub(s: Section): Section {
    if s.protected then s else s.(body := BARE_STUB)
  }

  /** The first `k` unprotected sections reduced to the bare stub. */
  function StubFirst(ss: seq<Section>, k: nat): (r: seq<Section>)
    ensures |r| == |ss|
    ensures forall i {:trigger r[i]} :: 0 <= i < |ss| ==> r[i] == if UnprotectedBelow(ss, i) < k then Stub(ss[i]) else ss[i]
  {
    seq(|ss|, i requires 0 <= i < |ss| => if UnprotectedBelow(ss, i) < k then Stub(ss[i]) else ss[i])
  }

  function StubAll(ss: seq<Section>): (r: seq<Section>)
    ensures |r| == |ss|
    ensures forall i :: 0 <= i < |ss| ==> r[i] == Stub(ss[i])
  {
    seq(|ss|, i requires 0 <= i < |ss| => Stub(ss[i]))
  }

  function TokensWith(ss: seq<Section>, k: nat): nat {
    EstimateTokens(Render(StubFirst(ss, k)))
  }

  /** Phase two stubs the shortest prefix of unprotected sections that reaches the soft
      limit, or all of them. */
  function StubCount(ss: seq<Section>, soft: nat, k: nat): (n: nat)
    requires k <= Unprotected(ss)
    ensures k <= n <= Unprotected(ss)
    ensures forall j :: k <= j < n ==> TokensWith(ss, j) > soft
    ensures n < Unprotected(ss) ==> TokensWith(ss, n) <= soft
    decreases Unprotected(ss) - k
  {
    if k == Unprotected(ss) || TokensWith(ss, k) <= soft then k else StubCount(ss, soft, k + 1)
  }

  datatype Config = Config(enabled: bool, soft: nat, hard: nat)

  datatype Build = Build(
    prompt: string, before: nat, after: nat, compacted: bool, sectionNames: seq<string>)

  function NamesOf(ss: seq<Section>): seq<string> {
    if ss == [] then []
    else (if ss[0].name == PREAMBLE then [] else [ss[0].name]) + NamesOf(ss[1..])
  }

  predicate Fits(prompt: string, cfg: Config) {
    EstimateTokens(prompt) <= cfg.soft && EstimateTokens(prompt) <= cfg.hard
  }

  function Compacted(prompt: string, soft: nat): seq<Section> {
    var ss := PhaseOne(Split(prompt));
    StubFirst(ss, StubCount(ss, soft, 0))
  }

  function Enforced(prompt: string, cfg: Config): Result<Build> {
    var before := EstimateTokens(prompt);
    if !cfg.enabled || Fits(prompt, cfg) then
      Ok(Build(prompt, before, before, false, NamesOf(Split(prompt))))
    else
      var out := Render(Compacted(prompt, cfg.soft));
      var after := EstimateTokens(out);
      if after > cfg.hard then Err("context_limit_exceeded")
      else Ok(Build(out, before, after, true, NamesOf(Split(out))))
  }
}
