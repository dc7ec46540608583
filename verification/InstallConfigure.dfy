/**
 The settings editor of the memory-hook installer (scripts/install-memory-hooks.py): find
 this installer's own handlers in a tool's settings and refresh them in place, or append
 one where none is found. Command splitting, path resolution and the interpreter-name test
 are parameters.
 */
module InstallConfigure {
  import opened Basics

  datatype Json =
    | Null
    | Bool(b: bool)
    | Num(n: int)
    | Str(s: string)
    | List(items: seq<Json>)
    | Obj(fields: map<string, Json>)

  datatype Tool = Claude | Codex | Hermes

  datatype Phase = Recall | Capture | Flush

  /** `shlex.split` on a handler's command: words, an error the code skips over, or one that
      it does not catch. */
  datatype Words = Words(words: seq<string>) | Unsplittable | Raises

  datatype Shell = Shell(
    split: Json -> Words, join: seq<string> -> string,
    resolve: string -> string, isPython: string -> bool,
    python: string, script: string)

  function ToolName(tool: Tool): string {
    match tool case Claude => "claude" case Codex => "codex" case Hermes => "hermes"
  }

  function PhaseName(phase: Phase): string {
    match phase case Recall => "recall" case Capture => "capture" case Flush => "flush"
  }

  function Phases(tool: Tool): seq<(string, Phase)> {
    match tool
    case Hermes => [("on_session_start", Recall), ("on_session_end", Flush)]
    case Codex => [("SessionStart", Recall), ("Stop", Capture)]
    case Claude => [("SessionStart", Recall), ("Stop", Capture), ("SessionEnd", Flush)]
  }

  function Suffix(tool: Tool, phase: Phase): seq<string> {
    ["--tool", ToolName(tool), "--phase", PhaseName(phase)]
  }

  function CommandWords(sh: Shell, tool: Tool, phase: Phase): seq<string> {
    [sh.python, sh.script] + Suffix(tool, phase)
  }

  function Command(sh: Shell, tool: Tool, phase: Phase): Json {
    Str(sh.join(CommandWords(sh, tool, phase)))
  }

  /** Joined commands split back into their words. */
  ghost predicate ShellOk(sh: Shell) {
    forall ws :: sh.split(Str(sh.join(ws))) == Words(ws)
  }

  function Get(fields: map<string, Json>, key: string, default: Json): Json {
    if key in fields then fields[key] else default
  }

  // ----- Handlers

  /** A handler of this installer: its script for this tool and phase, run directly or by Python. */
  predicate OwnWords(sh: Shell, tool: Tool, phase: Phase, ws: seq<string>) {
    && (|ws| == 5 || (|ws| == 6 && (ws[0] == sh.python || sh.isPython(ws[0]))))
    && ws[|ws| - 4..] == Suffix(tool, phase)
    && sh.resolve(ws[|ws| - 5]) == sh.resolve(sh.script)
  }

  function SplitCommand(sh: Shell, h: Json): Words
    requires h.Obj?
  {
    sh.split(Get(h.fields, "command", Str("")))
  }

  predicate IsOwn(sh: Shell, tool: Tool, phase: Phase, h: Json)
    requires h.Obj?
  {
    var ws := SplitCommand(sh, h);
    ws.Words? && OwnWords(sh, tool, phase, ws.words)
  }

  function Refreshed(sh: Shell, tool: Tool, phase: Phase, h: Json): (r: Json)
    requires h.Obj?
    ensures r.Obj?
  {
    var fields := h.fields["command" := Command(sh, tool, phase)];
    Obj(if phase.Flush? then fields["timeout" := Num(60)] else fields)
  }

  /** One handler after the pass. */
  function FixHandler(sh: Shell, tool: Tool, phase: Phase, h: Json): (r: Json)
    requires h.Obj?
    ensures r.Obj?
  {
    if IsOwn(sh, tool, phase, h) then Refreshed(sh, tool, phase, h) else h
  }

  predicate AllObjects(hs: seq<Json>) {
    forall i :: 0 <= i < |hs| ==> hs[i].Obj?
  }

  predicate AnyRaises(sh: Shell, hs: seq<Json>)
    requires AllObjects(hs)
  {
    exists i :: 0 <= i < |hs| && SplitCommand(sh, hs[i]).Raises?
  }

  predicate AnyOwn(sh: Shell, tool: Tool, phase: Phase, hs: seq<Json>)
    requires AllObjects(hs)
  {
    exists i :: 0 <= i < |hs| && IsOwn(sh, tool, phase, hs[i])
  }

  function FixHandlers(sh: Shell, tool: Tool, phase: Phase, hs: seq<Json>): (r: seq<Json>)
    requires AllObjects(hs)
    ensures |r| == |hs| && AllObjects(r)
    ensures forall i :: 0 <= i < |hs| ==> r[i] == FixHandler(sh, tool, phase, hs[i])
  {
    seq(|hs|, i requires 0 <= i < |hs| => FixHandler(sh, tool, phase, hs[i]))
  }

  // ----- Groups of handlers

  /** The handlers a group holds: the group itself for Hermes, its `hooks` list otherwise. */
  function HandlersOf(tool: Tool, group: Json): Option<seq<Json>> {
    if !group.Obj? then None
    else if tool.Hermes? then Some([group])
    else
      var hs := Get(group.fields, "hooks", Null);
      if hs.List? && AllObjects(hs.items) then Some(hs.items) else None
  }

  function WithHandlers(tool: Tool, group: Json, hs: seq<Json>): Json
    requires HandlersOf(tool, group).Some? && (tool.Hermes? ==> |hs| == 1)
  {
    if tool.Hermes? then hs[0] else Obj(group.fields["hooks" := List(hs)])
  }

  predicate GroupOk(sh: Shell, tool: Tool, group: Json) {
    HandlersOf(tool, group).Some? && !AnyRaises(sh, HandlersOf(tool, group).value)
  }

  predicate GroupOwn(sh: Shell, tool: Tool, phase: Phase, group: Json)
    requires HandlersOf(tool, group).Some?
  {
    AnyOwn(sh, tool, phase, HandlersOf(tool, group).value)
  }

  function FixGroup(sh: Shell, tool: Tool, phase: Phase, group: Json): Json
    requires HandlersOf(tool, group).Some?
  {
    WithHandlers(tool, group, FixHandlers(sh, tool, phase, HandlersOf(tool, group).value))
  }

  predicate EntriesOk(sh: Shell, tool: Tool, entries: seq<Json>) {
    forall i :: 0 <= i < |entries| ==> GroupOk(sh, tool, entries[i])
  }

  predicate EntriesOwn(sh: Shell, tool: Tool, phase: Phase, entries: seq<Json>)
    requires EntriesOk(sh, tool, entries)
  {
    exists i :: 0 <= i < |entries| && GroupOwn(sh, tool, phase, entries[i])
  }

  function FixEntries(sh: Shell, tool: Tool, phase: Phase, entries: seq<Json>): (r: seq<Json>)
    requires EntriesOk(sh, tool, entries)
    ensures |r| == |entries|
    ensures forall i :: 0 <= i < |entries| ==> r[i] == FixGroup(sh, tool, phase, entries[i])
  {
    seq(|entries|, i requires 0 <= i < |entries| => FixGroup(sh, tool, phase, entries[i]))
  }

  /** What is appended when no handler of ours was found. */
  function NewGroup(sh: Shell, tool: Tool, event: string, phase: Phase): Json {
    var handler := map["command" := Command(sh, tool, phase), "timeout" := Num(if phase.Flush? then 60 else 15)];
    if tool.Hermes? then Obj(handler)
    else
      var group := map["hooks" := List([Obj(handler["type" := Str("command")])])];
      Obj(if tool.Claude? && event == "SessionStart"
          then group["matcher" := Str("startup|resume|clear|compact")] else group)
  }

  /** One event's entries after the pass. */
  function ConfiguredEntries(sh: Shell, tool: Tool, event: string, phase: Phase, entries: seq<Json>): seq<Json>
    requires EntriesOk(sh, tool, entries)
  {
    FixEntries(sh, tool, phase, entries)
    + (if EntriesOwn(sh, tool, phase, entries) then [] else [NewGroup(sh, tool, event, phase)])
  }

  // ----- The code, loop by loop

  method FixHandlersLoop(sh: Shell, tool: Tool, phase: Phase, hs: seq<Json>) returns (r: Result<seq<Json>>, found: bool)
    requires AllObjects(hs)
    ensures r.Err? <==> AnyRaises(sh, hs)
    ensures r.Ok? ==> r.value == FixHandlers(sh, tool, phase, hs) && found == AnyOwn(sh, tool, phase, hs)
  {
    var out: seq<Json> := [];
    found := false;
    for i := 0 to |hs|
      invariant |out| == i && forall j :: 0 <= j < i ==> out[j] == FixHandler(sh, tool, phase, hs[j])
      invariant forall j :: 0 <= j < i ==> !SplitCommand(sh, hs[j]).Raises?
      invariant found <==> exists j :: 0 <= j < i && IsOwn(sh, tool, phase, hs[j])
    {
      var parts := SplitCommand(sh, hs[i]);
      if parts.Raises? {
        return Err("unsupported command value"), found;
      }
      if parts.Words? && OwnWords(sh, tool, phase, parts.words) {
        out := out + [Refreshed(sh, tool, phase, hs[i])];
        found := true;
      } else {
        out := out + [hs[i]];
      }
    }
    r := Ok(out);
  }

  /** What the group loop has established about the first `n` entries. */
  ghost predicate FixedBelow(sh: Shell, tool: Tool, phase: Phase, entries: seq<Json>, out: seq<Json>, found: bool, n: nat) {
    && n <= |entries| && |out| == n
    && (forall j :: 0 <= j < n ==> GroupOk(sh, tool, entries[j]) && out[j] == FixGroup(sh, tool, phase, entries[j]))
    && (found <==> exists j :: 0 <= j < n && GroupOwn(sh, tool, phase, entries[j]))
  }

  lemma FixedNext(sh: Shell, tool: Tool, phase: Phase, entries: seq<Json>, out: seq<Json>, found: bool, n: nat)
    requires FixedBelow(sh, tool, phase, entries, out, found, n) && n < |entries| && GroupOk(sh, tool, entries[n])
    ensures FixedBelow(
              sh, tool, phase, entries, out + [FixGroup(sh, tool, phase, entries[n])],
              found || GroupOwn(sh, tool, phase, entries[n]), n + 1)
  {
  }

  method ConfigureEvent(sh: Shell, tool: Tool, event: string, phase: Phase, entries: seq<Json>) returns (r: Result<seq<Json>>)
    ensures r.Err? <==> !EntriesOk(sh, tool, entries)
    ensures r.Ok? ==> r.value == ConfiguredEntries(sh, tool, event, phase, entries)
  {
    var out: seq<Json> := [];
    var found := false;
    for i := 0 to |entries|
      invariant FixedBelow(sh, tool, phase, entries, out, found, i)
    {
      var handlers := HandlersOf(tool, entries[i]);
      if handlers.None? {
        assert !GroupOk(sh, tool, entries[i]);
        return Err("contains an invalid handler list");
      }
      var fixed, own := FixHandlersLoop(sh, tool, phase, handlers.value);
      if fixed.Err? {
        assert !GroupOk(sh, tool, entries[i]);
        return Err(fixed.message);
      }
      FixedNext(sh, tool, phase, entries, out, found, i);
      out := out + [WithHandlers(tool, entries[i], fixed.value)];
      found := found || own;
    }
    if !found {
      out := out + [NewGroup(sh, tool, event, phase)];
    }
    r := Ok(out);
  }

  // ----- The whole settings file

  /** The entries under one event; a missing event counts as an empty list. */
  function EntriesAt(hooks: map<string, Json>, event: string): Json {
    Get(hooks, event, List([]))
  }

  predicate EventOk(sh: Shell, tool: Tool, hooks: map<string, Json>, event: string) {
    EntriesAt(hooks, event).List? && EntriesOk(sh, tool, EntriesAt(hooks, event).items)
  }

  function ConfiguredEvent(sh: Shell, tool: Tool, hooks: map<string, Json>, event: string, phase: Phase): Json
    requires EventOk(sh, tool, hooks, event)
  {
    List(ConfiguredEntries(sh, tool, event, phase, EntriesAt(hooks, event).items))
  }

  predicate AllEventsOk(sh: Shell, tool: Tool, hooks: map<string, Json>) {
    forall i :: 0 <= i < |Phases(tool)| ==> EventOk(sh, tool, hooks, Phases(tool)[i].0)
  }

  /** The settings have the shape the editor accepts. */
  predicate SettingsOk(sh: Shell, tool: Tool, data: Json) {
    && data.Obj?
    && Get(data.fields, "hooks", Obj(map[])).Obj?
    && AllEventsOk(sh, tool, HooksOf(data))
  }

  function HooksOf(data: Json): map<string, Json>
    requires data.Obj? && Get(data.fields, "hooks", Obj(map[])).Obj?
  {
    Get(data.fields, "hooks", Obj(map[])).fields
  }

  method Configure(sh: Shell, tool: Tool, data: Json) returns (r: Result<Json>)
    ensures r.Err? <==> !SettingsOk(sh, tool, data)
    ensures r.Ok? ==> Configured(sh, tool, data, r.value)
  {
    if !data.Obj? {
      return Err("settings must contain a mapping");
    }
    var holder := Get(data.fields, "hooks", Obj(map[]));
    if !holder.Obj? {
      return Err("hooks must contain a mapping");
    }
    var hooks := ConfigureHooks(sh, tool, holder.fields);
    if hooks.Err? {
      return Err(hooks.message);
    }
    r := Ok(Obj(data.fields["hooks" := Obj(hooks.value)]));
  }

  method ConfigureHooks(sh: Shell, tool: Tool, before: map<string, Json>) returns (r: Result<map<string, Json>>)
    ensures r.Err? <==> !AllEventsOk(sh, tool, before)
    ensures r.Ok? ==> HooksAfter(sh, tool, before, r.value, |Phases(tool)|)
  {
    var hooks := before;
    var phases := Phases(tool);
    for i := 0 to |phases|
      invariant HooksAfter(sh, tool, before, hooks, i)
    {
      var (event, phase) := phases[i];
      NotReachedYet(sh, tool, before, hooks, i);
      var entries := EntriesAt(hooks, event);
      if !entries.List? {
        assert !EventOk(sh, tool, before, phases[i].0);
        return Err("event hooks must contain a list");
      }
      var fixed := ConfigureEvent(sh, tool, event, phase, entries.items);
      if fixed.Err? {
        assert !EventOk(sh, tool, before, phases[i].0);
        return Err(fixed.message);
      }
      HooksNext(sh, tool, before, hooks, i);
      hooks := hooks[event := List(fixed.value)];
    }
    r := Ok(hooks);
  }

  lemma NotReachedYet(sh: Shell, tool: Tool, before: map<string, Json>, hooks: map<string, Json>, i: nat)
    requires i < |Phases(tool)| && HooksAfter(sh, tool, before, hooks, i)
    ensures EntriesAt(hooks, Phases(tool)[i].0) == EntriesAt(before, Phases(tool)[i].0)
  {
    PhasesDistinct(tool);
    assert SameAt(before, hooks, Phases(tool)[i].0);
  }

  lemma HooksNext(sh: Shell, tool: Tool, before: map<string, Json>, hooks: map<string, Json>, i: nat)
    requires i < |Phases(tool)| && HooksAfter(sh, tool, before, hooks, i)
    requires EventOk(sh, tool, before, Phases(tool)[i].0)
    ensures var (event, phase) := Phases(tool)[i];
            HooksAfter(sh, tool, before, hooks[event := ConfiguredEvent(sh, tool, before, event, phase)], i + 1)
  {
    var (event, phase) := Phases(tool)[i];
    var hooks' := hooks[event := ConfiguredEvent(sh, tool, before, event, phase)];
    PhasesDistinct(tool);
    forall key | forall j :: 0 <= j < i + 1 ==> Phases(tool)[j].0 != key
      ensures SameAt(before, hooks', key)
    {
      assert key != event && SameAt(before, hooks, key);
    }
  }

  lemma PhasesDistinct(tool: Tool)
    ensures forall i, j :: 0 <= i < j < |Phases(tool)| ==> Phases(tool)[i].0 != Phases(tool)[j].0
  {
    assert "on_session_start"[11] != "on_session_end"[11];
    assert |"SessionStart"| == 12 && |"Stop"| == 4 && |"SessionEnd"| == 10;
  }

  predicate SameAt(before: map<string, Json>, after: map<string, Json>, key: string) {
    (key in after <==> key in before) && (key in before ==> after[key] == before[key])
  }

  /** The first `n` events are configured and everything else is as it was. */
  ghost predicate HooksAfter(sh: Shell, tool: Tool, before: map<string, Json>, after: map<string, Json>, n: nat) {
    var phases := Phases(tool);
    && n <= |phases|
    && (forall i :: 0 <= i < n ==>
                      && EventOk(sh, tool, before, phases[i].0)
                      && phases[i].0 in after
                      && after[phases[i].0] == ConfiguredEvent(sh, tool, before, phases[i].0, phases[i].1))
    && (forall key :: (forall i :: 0 <= i < n ==> phases[i].0 != key) ==> SameAt(before, after, key))
  }

  /** `after` is `before` with exactly the tool's events configured. */
  ghost predicate Configured(sh: Shell, tool: Tool, before: Json, after: Json) {
    && SettingsOk(sh, tool, before)
    && after.Obj? && "hooks" in after.fields && after.fields["hooks"].Obj?
    && (forall key :: key != "hooks" ==> SameAt(before.fields, after.fields, key))
    && HooksAfter(sh, tool, HooksOf(before), after.fields["hooks"].fields, |Phases(tool)|)
  }

  // ----- Idempotence

  lemma CommandIsOwn(sh: Shell, tool: Tool, phase: Phase)
    requires ShellOk(sh)
    ensures sh.split(Command(sh, tool, phase)) == Words(CommandWords(sh, tool, phase))
    ensures OwnWords(sh, tool, phase, CommandWords(sh, tool, phase))
  {
    assert CommandWords(sh, tool, phase)[2..] == Suffix(tool, phase);
  }

  lemma HandlerSettles(sh: Shell, tool: Tool, phase: Phase, h: Json)
    requires ShellOk(sh) && h.Obj?
    ensures var r := FixHandler(sh, tool, phase, h);
            && FixHandler(sh, tool, phase, r) == r
            && (IsOwn(sh, tool, phase, r) <==> IsOwn(sh, tool, phase, h))
            && (SplitCommand(sh, r).Raises? ==> SplitCommand(sh, h).Raises?)
  {
    CommandIsOwn(sh, tool, phase);
    if IsOwn(sh, tool, phase, h) {
      var r := Refreshed(sh, tool, phase, h);
      assert Get(r.fields, "command", Str("")) == Command(sh, tool, phase);
      assert Refreshed(sh, tool, phase, r).fields == r.fields;
    }
  }

  lemma HandlersSettle(sh: Shell, tool: Tool, phase: Phase, hs: seq<Json>)
    requires ShellOk(sh) && AllObjects(hs)
    ensures var r := FixHandlers(sh, tool, phase, hs);
            && FixHandlers(sh, tool, phase, r) == r
            && (AnyOwn(sh, tool, phase, r) <==> AnyOwn(sh, tool, phase, hs))
            && (AnyRaises(sh, r) ==> AnyRaises(sh, hs))
  {
    var r := FixHandlers(sh, tool, phase, hs);
    forall i | 0 <= i < |hs|
      ensures FixHandler(sh, tool, phase, r[i]) == r[i]
      ensures IsOwn(sh, tool, phase, r[i]) <==> IsOwn(sh, tool, phase, hs[i])
      ensures SplitCommand(sh, r[i]).Raises? ==> SplitCommand(sh, hs[i]).Raises?
    {
      HandlerSettles(sh, tool, phase, hs[i]);
    }
  }

  lemma GroupSettles(sh: Shell, tool: Tool, phase: Phase, group: Json)
    requires ShellOk(sh) && GroupOk(sh, tool, group)
    ensures var r := FixGroup(sh, tool, phase, group);
            && GroupOk(sh, tool, r)
            && FixGroup(sh, tool, phase, r) == r
            && (GroupOwn(sh, tool, phase, r) <==> GroupOwn(sh, tool, phase, group))
  {
    var hs := HandlersOf(tool, group).value;
    var fixed := FixHandlers(sh, tool, phase, hs);
    HandlersSettle(sh, tool, phase, hs);
    var r := FixGroup(sh, tool, phase, group);
    if tool.Hermes? {
      assert fixed == [fixed[0]];
    } else {
      assert r.fields["hooks" := List(fixed)] == r.fields;
    }
    assert HandlersOf(tool, r) == Some(fixed);
  }

  lemma NewGroupSettles(sh: Shell, tool: Tool, event: string, phase: Phase)
    requires ShellOk(sh)
    ensures var g := NewGroup(sh, tool, event, phase);
            && GroupOk(sh, tool, g) && GroupOwn(sh, tool, phase, g)
            && FixGroup(sh, tool, phase, g) == g
  {
    var g := NewGroup(sh, tool, event, phase);
    CommandIsOwn(sh, tool, phase);
    var hs := HandlersOf(tool, g).value;
    assert |hs| == 1 && Get(hs[0].fields, "command", Str("")) == Command(sh, tool, phase);
    assert IsOwn(sh, tool, phase, hs[0]) && !SplitCommand(sh, hs[0]).Raises?;
    assert Refreshed(sh, tool, phase, hs[0]).fields == hs[0].fields;
    assert FixHandlers(sh, tool, phase, hs) == hs;
    if !tool.Hermes? {
      assert g.fields["hooks" := List(hs)] == g.fields;
    }
  }

  lemma EntriesSettle(sh: Shell, tool: Tool, event: string, phase: Phase, entries: seq<Json>)
    requires ShellOk(sh) && EntriesOk(sh, tool, entries)
    ensures var r := ConfiguredEntries(sh, tool, event, phase, entries);
            EntriesOk(sh, tool, r) && ConfiguredEntries(sh, tool, event, phase, r) == r
  {
    var fixed := FixEntries(sh, tool, phase, entries);
    var r := ConfiguredEntries(sh, tool, event, phase, entries);
    NewGroupSettles(sh, tool, event, phase);
    forall i | 0 <= i < |r|
      ensures GroupOk(sh, tool, r[i]) && FixGroup(sh, tool, phase, r[i]) == r[i]
      ensures i < |entries| ==> (GroupOwn(sh, tool, phase, r[i]) <==> GroupOwn(sh, tool, phase, entries[i]))
      ensures i >= |entries| ==> GroupOwn(sh, tool, phase, r[i])
    {
      if i < |entries| {
        GroupSettles(sh, tool, phase, entries[i]);
      }
    }
    assert EntriesOwn(sh, tool, phase, r) by {
      if EntriesOwn(sh, tool, phase, entries) {
        var i :| 0 <= i < |entries| && GroupOwn(sh, tool, phase, entries[i]);
        assert GroupOwn(sh, tool, phase, r[i]);
      } else {
        assert GroupOwn(sh, tool, phase, r[|entries|]);
      }
    }
    assert FixEntries(sh, tool, phase, r) == r;
  }

  /** Configured settings are accepted again. */
  lemma ConfiguredIsOk(sh: Shell, tool: Tool, before: Json, after: Json)
    requires ShellOk(sh) && Configured(sh, tool, before, after)
    ensures SettingsOk(sh, tool, after)
  {
    var hooks, phases := HooksOf(before), Phases(tool);
    forall i | 0 <= i < |phases|
      ensures EventOk(sh, tool, HooksOf(after), phases[i].0)
    {
      assert EventOk(sh, tool, hooks, phases[i].0);
      EntriesSettle(sh, tool, phases[i].0, phases[i].1, EntriesAt(hooks, phases[i].0).items);
    }
  }

  /** Configuring configured settings changes nothing. */
  lemma ConfigureIdempotent(sh: Shell, tool: Tool, before: Json, after: Json, again: Json)
    requires ShellOk(sh) && Configured(sh, tool, before, after) && Configured(sh, tool, after, again)
    ensures again == after
  {
    var h0, h1, h2 := HooksOf(before), after.fields["hooks"].fields, again.fields["hooks"].fields;
    var phases := Phases(tool);
    forall key
      ensures SameAt(h1, h2, key)
    {
      if i :| 0 <= i < |phases| && phases[i].0 == key {
        assert EventOk(sh, tool, h0, phases[i].0) && EventOk(sh, tool, h1, phases[i].0);
        EntriesSettle(sh, tool, phases[i].0, phases[i].1, EntriesAt(h0, phases[i].0).items);
      }
    }
    SameEverywhere(h1, h2);
    forall key
      ensures SameAt(after.fields, again.fields, key)
    {
    }
    SameEverywhere(after.fields, again.fields);
  }

  lemma SameEverywhere(a: map<string, Json>, b: map<string, Json>)
    requires forall key :: SameAt(a, b, key)
    ensures a == b
  {
    forall key
      ensures key in a <==> key in b
      ensures key in a ==> a[key] == b[key]
    {
      assert SameAt(a, b, key);
    }
  }

  // ----- Other people's handlers

  /** Every existing group keeps its place; handlers that are not this installer's are
      untouched, its own differ at most in command and timeout; at most one group is added. */
  ghost predicate OnlyOwnRefreshed(sh: Shell, tool: Tool, phase: Phase, before: seq<Json>, after: seq<Json>) {
    && |before| <= |after| <= |before| + 1
    && forall i :: 0 <= i < |before| ==>
                     && HandlersOf(tool, before[i]).Some? && HandlersOf(tool, after[i]).Some?
                     && GroupKept(sh, tool, phase, before[i], after[i])
  }

  ghost predicate GroupKept(sh: Shell, tool: Tool, phase: Phase, g: Json, r: Json)
    requires HandlersOf(tool, g).Some? && HandlersOf(tool, r).Some?
  {
    var hs, rs := HandlersOf(tool, g).value, HandlersOf(tool, r).value;
    && |rs| == |hs|
    && (!tool.Hermes? ==> forall key :: key != "hooks" ==> SameAt(g.fields, r.fields, key))
    && forall i :: 0 <= i < |hs| ==> HandlerKept(sh, tool, phase, hs[i], rs[i])
  }

  ghost predicate HandlerKept(sh: Shell, tool: Tool, phase: Phase, h: Json, r: Json) {
    && h.Obj? && r.Obj?
    && (!IsOwn(sh, tool, phase, h) ==> r == h)
    && (IsOwn(sh, tool, phase, h) ==>
          && "command" in r.fields && r.fields["command"] == Str(sh.join([sh.python, sh.script] + Suffix(tool, phase)))
          && (phase.Flush? ==> "timeout" in r.fields && r.fields["timeout"] == Num(60)))
    && (forall key :: key !in {"command", "timeout"} ==> SameAt(h.fields, r.fields, key))
    && (!phase.Flush? ==> SameAt(h.fields, r.fields, "timeout"))
  }

  lemma EntriesKept(sh: Shell, tool: Tool, event: string, phase: Phase, entries: seq<Json>)
    requires EntriesOk(sh, tool, entries)
    ensures OnlyOwnRefreshed(sh, tool, phase, entries, ConfiguredEntries(sh, tool, event, phase, entries))
  {
    var r := ConfiguredEntries(sh, tool, event, phase, entries);
    forall i | 0 <= i < |entries|
      ensures HandlersOf(tool, entries[i]).Some? && HandlersOf(tool, r[i]).Some?
      ensures GroupKept(sh, tool, phase, entries[i], r[i])
    {
      assert GroupOk(sh, tool, entries[i]) && r[i] == FixGroup(sh, tool, phase, entries[i]);
      GroupIsKept(sh, tool, phase, entries[i]);
    }
  }

  lemma GroupIsKept(sh: Shell, tool: Tool, phase: Phase, group: Json)
    requires HandlersOf(tool, group).Some?
    ensures HandlersOf(tool, FixGroup(sh, tool, phase, group)).Some?
    ensures GroupKept(sh, tool, phase, group, FixGroup(sh, tool, phase, group))
  {
    var hs := HandlersOf(tool, group).value;
    var fixed := FixHandlers(sh, tool, phase, hs);
    if tool.Hermes? {
      assert fixed == [fixed[0]];
    }
    assert HandlersOf(tool, FixGroup(sh, tool, phase, group)) == Some(fixed);
    forall i | 0 <= i < |hs|
      ensures HandlerKept(sh, tool, phase, hs[i], fixed[i])
    {
      HandlerIsKept(sh, tool, phase, hs[i]);
    }
  }

  lemma HandlerIsKept(sh: Shell, tool: Tool, phase: Phase, h: Json)
    requires h.Obj?
    ensures HandlerKept(sh, tool, phase, h, FixHandler(sh, tool, phase, h))
  {
  }

  /** Configuring leaves every handler that is not its own unchanged and in place. */
  lemma ForeignHandlersKept(sh: Shell, tool: Tool, before: Json, after: Json, i: nat)
    requires Configured(sh, tool, before, after) && i < |Phases(tool)|
    ensures var (event, phase) := Phases(tool)[i];
            && event in after.fields["hooks"].fields && after.fields["hooks"].fields[event].List?
            && EntriesAt(HooksOf(before), event).List?
            && OnlyOwnRefreshed(sh, tool, phase, EntriesAt(HooksOf(before), event).items, after.fields["hooks"].fields[event].items)
  {
    var (event, phase) := Phases(tool)[i];
    assert EventOk(sh, tool, HooksOf(before), Phases(tool)[i].0);
    EntriesKept(sh, tool, event, phase, EntriesAt(HooksOf(before), event).items);
  }

  // ----- What is written, letter by letter

  /** A command is this installer's own iff it is its script with the tool and phase, run directly
      or by Python. */
  lemma OwnWordsIff(sh: Shell, tool: Tool, phase: Phase, ws: seq<string>)
    ensures OwnWords(sh, tool, phase, ws)
            <==> exists path ::
                   && sh.resolve(path) == sh.resolve(sh.script)
                   && (|| ws == [path] + Suffix(tool, phase)
                       || exists py :: (py == sh.python || sh.isPython(py)) && ws == [py, path] + Suffix(tool, phase))
  {
    var tail := Suffix(tool, phase);
    if OwnWords(sh, tool, phase, ws) {
      var path := ws[|ws| - 5];
      assert |ws| == 5 ==> ws == [path] + ws[1..];
      assert |ws| == 6 ==> ws == [ws[0], path] + ws[2..];
    }
    if path :| sh.resolve(path) == sh.resolve(sh.script)
               && (ws == [path] + tail
                   || exists py :: (py == sh.python || sh.isPython(py)) && ws == [py, path] + tail) {
      if ws == [path] + tail {
        assert ws[1..] == tail;
      } else {
        var py :| (py == sh.python || sh.isPython(py)) && ws == [py, path] + tail;
        assert ws[2..] == tail;
      }
    }
  }

  /** Settings are refused exactly if they are not an object, their hooks are not one, or an event
      that the tool uses does not hold a list of well-formed groups. */
  lemma SettingsOkIff(sh: Shell, tool: Tool, data: Json)
    ensures SettingsOk(sh, tool, data)
            <==> && data.Obj?
                 && ("hooks" in data.fields ==> data.fields["hooks"].Obj?)
                 && forall i :: 0 <= i < |Phases(tool)| && "hooks" in data.fields
                                && Phases(tool)[i].0 in data.fields["hooks"].fields ==>
                                  var entries := data.fields["hooks"].fields[Phases(tool)[i].0];
                                  entries.List? && forall j :: 0 <= j < |entries.items| ==> WellFormed(sh, tool, entries.items[j])
  {
    forall g
      ensures GroupOk(sh, tool, g) <==> WellFormed(sh, tool, g)
    {
      GroupOkIff(sh, tool, g);
    }
  }

  /** The command a handler has, if any, is either split or skipped over. */
  ghost predicate Splits(sh: Shell, h: Json) {
    h.Obj? && sh.split(if "command" in h.fields then h.fields["command"] else Str("")) != Raises
  }

  /** For Hermes a handler; otherwise an object with a list of handlers. */
  ghost predicate WellFormed(sh: Shell, tool: Tool, g: Json) {
    && g.Obj?
    && (tool == Hermes ==> Splits(sh, g))
    && (tool != Hermes ==>
          && "hooks" in g.fields && g.fields["hooks"].List?
          && forall i :: 0 <= i < |g.fields["hooks"].items| ==> Splits(sh, g.fields["hooks"].items[i]))
  }

  lemma GroupOkIff(sh: Shell, tool: Tool, g: Json)
    ensures GroupOk(sh, tool, g) <==> WellFormed(sh, tool, g)
  {
    var hs := HandlersOf(tool, g);
    if hs.Some? {
      assert tool.Hermes? ==> hs.value[0] == g;
      assert AnyRaises(sh, hs.value) <==> !forall i :: 0 <= i < |hs.value| ==> Splits(sh, hs.value[i]);
    }
  }

  function Handler(sh: Shell, tool: string, phase: string, timeout: int): map<string, Json> {
    map["command" := Str(sh.join([sh.python, sh.script, "--tool", tool, "--phase", phase])), "timeout" := Num(timeout)]
  }

  function Group(handler: map<string, Json>): map<string, Json> {
    map["hooks" := List([Obj(handler["type" := Str("command")])])]
  }

  /** The hooks of a tool that had no settings. */
  function FreshHooks(sh: Shell, tool: Tool): map<string, Json> {
    match tool
    case Claude => map[
      "SessionStart" := List([Obj(Group(Handler(sh, "claude", "recall", 15))
                                    ["matcher" := Str("startup|resume|clear|compact")])]),
      "Stop" := List([Obj(Group(Handler(sh, "claude", "capture", 15)))]),
      "SessionEnd" := List([Obj(Group(Handler(sh, "claude", "flush", 60)))])]
    case Codex => map[
      "SessionStart" := List([Obj(Group(Handler(sh, "codex", "recall", 15)))]),
      "Stop" := List([Obj(Group(Handler(sh, "codex", "capture", 15)))])]
    case Hermes => map[
      "on_session_start" := List([Obj(Handler(sh, "hermes", "recall", 15))]),
      "on_session_end" := List([Obj(Handler(sh, "hermes", "flush", 60))])]
  }

  lemma FreshEvent(sh: Shell, tool: Tool, i: nat)
    requires i < |Phases(tool)|
    ensures var (event, phase) := Phases(tool)[i];
            event in FreshHooks(sh, tool) && FreshHooks(sh, tool)[event] == List([NewGroup(sh, tool, event, phase)])
  {
    var (event, phase) := Phases(tool)[i];
    assert CommandWords(sh, tool, phase)
           == [sh.python, sh.script, "--tool", ToolName(tool), "--phase", PhaseName(phase)];
  }

  /** Settings that have no hooks get exactly these. */
  lemma FreshSettings(sh: Shell, tool: Tool, before: Json, after: Json)
    requires Configured(sh, tool, before, after) && "hooks" !in before.fields
    ensures after.fields["hooks"] == Obj(FreshHooks(sh, tool))
  {
    var hooks, wanted := after.fields["hooks"].fields, FreshHooks(sh, tool);
    assert HooksOf(before) == map[];
    forall key
      ensures SameAt(wanted, hooks, key)
    {
      if i :| 0 <= i < |Phases(tool)| && Phases(tool)[i].0 == key {
        FreshEvent(sh, tool, i);
        assert hooks[key] == ConfiguredEvent(sh, tool, map[], key, Phases(tool)[i].1);
      } else {
        assert SameAt(map[], hooks, key);
        NoOtherKeys(sh, tool, key);
      }
    }
    SameEverywhere(wanted, hooks);
  }

  lemma NoOtherKeys(sh: Shell, tool: Tool, key: string)
    requires forall i :: 0 <= i < |Phases(tool)| ==> Phases(tool)[i].0 != key
    ensures key !in FreshHooks(sh, tool)
  {
    var ps := Phases(tool);
    assert ps[0].0 != key && ps[1].0 != key;
    assert tool.Claude? ==> ps[2].0 != key;
  }
}
