/**
 The manager log (src/manager_log.rs): newline-terminated records appended by processes
 that may die after any prefix of a write, and the reader that skips what it cannot parse.
 Of the record format only what `Sound` states is used.
 */
module ManagerLog {
  import opened Basics

  type Byte = b: int | 0 <= b < 256

  const NEWLINE: Byte := 10

  datatype Phase = Research | Implement | Repair | Supervise | Verify | Merge

  /** The fields of an event that the reader's summary uses; `other` stands for the rest. */
  datatype Event = Event(
    workId: string, ts: string, phase: Phase, attempt: Option<nat>, managerRounds: Option<nat>,
    tokens: Option<nat>, elapsedSeconds: Option<nat>, outcome: Option<string>, other: string)

  /** How events are checked, written to and parsed from a line; parsing includes the check. */
  datatype Codec = Codec(valid: Event -> bool, encode: Event -> seq<Byte>, decode: seq<Byte> -> Option<Event>)

  /** Encodings of valid events have no newline and parse back, and no strict prefix of one parses. */
  ghost predicate Sound(c: Codec) {
    && (forall e: Event :: c.valid(e) ==> NEWLINE !in c.encode(e) && c.decode(c.encode(e) + [NEWLINE]) == Some(e))
    && (forall e: Event, n: nat :: c.valid(e) && n < |c.encode(e)| ==> c.decode(c.encode(e)[..n] + [NEWLINE]) == None)
  }

  // ----- Appending

  predicate Open(file: seq<Byte>) {
    file != [] && Last(file) != NEWLINE
  }

  /** The bytes one append writes: a newline first if the last line was left open. An event
      that is not valid is refused before anything is written. */
  function Payload(c: Codec, file: seq<Byte>, e: Event): seq<Byte> {
    if !c.valid(e) then [] else (if Open(file) then [NEWLINE] else []) + (c.encode(e) + [NEWLINE])
  }

  /** One append of which `written` bytes reached the file before the process died; all of
      them if it did not. */
  datatype Attempt = Attempt(event: Event, written: nat)

  function Min(a: nat, b: nat): nat {
    if a < b then a else b
  }

  function Appended(c: Codec, file: seq<Byte>, a: Attempt): seq<Byte> {
    var p := Payload(c, file, a.event);
    file + p[..Min(a.written, |p|)]
  }

  /** The file after these appends onto whatever `start` holds. */
  function FileAfter(c: Codec, start: seq<Byte>, attempts: seq<Attempt>): seq<Byte> {
    if attempts == [] then start
    else Appended(c, FileAfter(c, start, attempts[..|attempts| - 1]), Last(attempts))
  }

  // ----- Loading

  datatype Loaded = Loaded(events: seq<Event>, skipped: nat)

  function LineEnd(s: seq<Byte>): (k: nat)
    ensures k <= |s|
    ensures NEWLINE !in s[..k]
    ensures k < |s| ==> s[k] == NEWLINE
  {
    if s == [] || s[0] == NEWLINE then 0
    else
      var k := 1 + LineEnd(s[1..]);
      assert s[..k] == [s[0]] + s[1..][..k - 1];
      k
  }

  function LoadLine(c: Codec, line: seq<Byte>, rest: Loaded): Loaded {
    match c.decode(line)
    case Some(e) => rest.(events := [e] + rest.events)
    case None => rest.(skipped := rest.skipped + 1)
  }

  function Load(c: Codec, file: seq<Byte>): Loaded {
    if file == [] then Loaded([], 0)
    else
      var k := LineEnd(file);
      if k == |file| then Loaded([], 1)
      else LoadLine(c, file[..k + 1], Load(c, file[k + 1..]))
  }

  function Wanted(want: Event -> bool, events: seq<Event>): seq<Event> {
    if events == [] then [] else Wanted(want, events[..|events| - 1]) + (if want(Last(events)) then [Last(events)] else [])
  }

  lemma WantedSnoc(want: Event -> bool, events: seq<Event>, e: Event)
    ensures Wanted(want, events + [e]) == Wanted(want, events) + (if want(e) then [e] else [])
  {
    assert (events + [e])[..|events|] == events;
  }

  /** Loading takes one line after the other. */
  lemma LoadStep(c: Codec, file: seq<Byte>, line: seq<Byte>)
    requires file != [] && line == file[..Min(LineEnd(file) + 1, |file|)]
    ensures var rest := Load(c, file[|line|..]);
            Load(c, file) == if LineEnd(file) == |line| then rest.(skipped := rest.skipped + 1) else LoadLine(c, line, rest)
  {
    assert LineEnd(file) == |line| ==> file[|line|..] == [];
  }

  /** `load`, with the work-item filter as `want`. */
  method LoadFile(c: Codec, file: seq<Byte>, want: Event -> bool) returns (events: seq<Event>, skipped: nat)
    ensures events == Wanted(want, Load(c, file).events)
    ensures skipped == Load(c, file).skipped
  {
    events, skipped := [], 0;
    var rest := file;
    ghost var seen: seq<Event> := [];
    while rest != []
      invariant seen + Load(c, rest).events == Load(c, file).events
      invariant skipped + Load(c, rest).skipped == Load(c, file).skipped
      invariant events == Wanted(want, seen)
      decreases |rest|
    {
      var k := LineEnd(rest);
      var line := rest[..Min(k + 1, |rest|)];
      var event := c.decode(line);
      LoadStep(c, rest, line);
      rest := rest[|line|..];
      if event.Some? && k < |line| {
        var e := event.value;
        WantedSnoc(want, seen, e);
        Associative(seen, [e], Load(c, rest).events);
        seen := seen + [e];
        if want(e) {
          events := events + [e];
        }
      } else {
        skipped := skipped + 1;
      }
    }
    assert seen + [] == seen;
  }

  // ----- What a run of appends leaves to be loaded

  /** How the file ends: at a line boundary, in a fragment, or in a whole record whose
      newline is still missing. */
  datatype Tail = Closed | Torn | Whole(event: Event)

  datatype Expected = Expected(events: seq<Event>, torn: nat, tail: Tail)

  /** How many bytes of the encoding and its newline this append got out. */
  function Progress(x: Expected, a: Attempt): int {
    a.written - (if x.tail.Closed? then 0 else 1)
  }

  /** The first byte of an append onto an open line closes that line. */
  function CloseLine(x: Expected): Expected {
    match x.tail
    case Closed => x
    case Torn => Expected(x.events, x.torn + 1, Closed)
    case Whole(e) => Expected(x.events + [e], x.torn, Closed)
  }

  function Expect(c: Codec, x: Expected, a: Attempt): Expected {
    var n, got := |c.encode(a.event)|, Progress(x, a);
    if a.written == 0 || !c.valid(a.event) then x
    else
      var y := CloseLine(x);
      if got == 0 then y
      else if got < n then y.(tail := Torn)
      else if got == n then y.(tail := Whole(a.event))
      else y.(events := y.events + [a.event])
  }

  /** Where the file's last line begins. */
  function TailStart(file: seq<Byte>): (k: nat)
    ensures k <= |file| && !Open(file[..k]) && NEWLINE !in file[k..]
  {
    if !Open(file) then |file|
    else
      var k := TailStart(file[..|file| - 1]);
      assert file[..k] == file[..|file| - 1][..k] && file[k..] == file[..|file| - 1][k..] + [Last(file)];
      k
  }

  function TailOf(c: Codec, fragment: seq<Byte>): Tail {
    if fragment == [] then Closed
    else
      match c.decode(fragment + [NEWLINE])
      case Some(e) => Whole(e)
      case None => Torn
  }

  /** What a file, however it came about, has to be loaded. */
  function ExpectedOf(c: Codec, file: seq<Byte>): Expected {
    var k := TailStart(file);
    var was := Load(c, file[..k]);
    Expected(was.events, was.skipped, TailOf(c, file[k..]))
  }

  function ExpectAll(c: Codec, start: seq<Byte>, attempts: seq<Attempt>): Expected {
    if attempts == [] then ExpectedOf(c, start)
    else Expect(c, ExpectAll(c, start, attempts[..|attempts| - 1]), Last(attempts))
  }

  /** The unterminated bytes at the end of the file are one line so far, of that kind. */
  ghost predicate FragmentOf(c: Codec, fragment: seq<Byte>, tail: Tail) {
    NEWLINE !in fragment && tail == TailOf(c, fragment)
  }

  /** The file is a terminated part that loads as expected, then one open fragment. */
  ghost predicate FileFits(c: Codec, body: seq<Byte>, fragment: seq<Byte>, x: Expected) {
    && !Open(body)
    && Load(c, body) == Loaded(x.events, x.torn)
    && FragmentOf(c, fragment, x.tail)
  }

  lemma {:induction false} LineEndOf(l: seq<Byte>, rest: seq<Byte>)
    requires NEWLINE !in l
    ensures LineEnd(l + [NEWLINE] + rest) == |l|
  {
    var s := l + [NEWLINE] + rest;
    assert s[|l|] == NEWLINE;
    assert forall i :: 0 <= i < |l| ==> s[i] == l[i] && l[i] in l;
  }

  lemma {:induction false} LoadFirst(c: Codec, l: seq<Byte>, rest: seq<Byte>)
    requires NEWLINE !in l
    ensures Load(c, l + [NEWLINE] + rest) == LoadLine(c, l + [NEWLINE], Load(c, rest))
  {
    var s := l + [NEWLINE] + rest;
    LineEndOf(l, rest);
    assert s[..|l| + 1] == l + [NEWLINE] && s[|l| + 1..] == rest;
  }

  /** One more line at the end. */
  function AddLine(c: Codec, was: Loaded, line: seq<Byte>): Loaded {
    match c.decode(line)
    case Some(e) => was.(events := was.events + [e])
    case None => was.(skipped := was.skipped + 1)
  }

  lemma AddAfterFirst(c: Codec, first: seq<Byte>, mid: Loaded, line: seq<Byte>)
    ensures LoadLine(c, first, AddLine(c, mid, line)) == AddLine(c, LoadLine(c, first, mid), line)
  {
    if c.decode(first).Some? && c.decode(line).Some? {
      Associative([c.decode(first).value], mid.events, [c.decode(line).value]);
    }
  }

  lemma {:induction false} LoadAppendLine(c: Codec, body: seq<Byte>, l: seq<Byte>)
    requires !Open(body) && NEWLINE !in l
    ensures Load(c, body + (l + [NEWLINE])) == AddLine(c, Load(c, body), l + [NEWLINE])
    decreases |body|
  {
    if body == [] {
      LoadFirst(c, l, []);
      assert l + [NEWLINE] + [] == body + (l + [NEWLINE]);
    } else {
      var k := LineEnd(body);
      assert body[..|body|] == body && Last(body) in body && k < |body|;
      var first, rest := body[..k], body[k + 1..];
      assert body == first + [NEWLINE] + rest;
      LoadAppendLine(c, rest, l);
      LoadFirst(c, first, rest);
      LoadFirst(c, first, rest + (l + [NEWLINE]));
      Associative(first + [NEWLINE], rest, l + [NEWLINE]);
      AddAfterFirst(c, first + [NEWLINE], Load(c, rest), l + [NEWLINE]);
    }
  }

  lemma {:induction false} LoadOpenEnd(c: Codec, body: seq<Byte>, fragment: seq<Byte>)
    requires !Open(body) && NEWLINE !in fragment && fragment != []
    ensures Load(c, body + fragment) == Load(c, body).(skipped := Load(c, body).skipped + 1)
    decreases |body|
  {
    if body == [] {
      assert body + fragment == fragment;
      assert forall i :: 0 <= i < |fragment| ==> fragment[i] in fragment;
      assert LineEnd(fragment) == |fragment|;
    } else {
      var k := LineEnd(body);
      assert body[..|body|] == body && Last(body) in body && k < |body|;
      var first, rest := body[..k], body[k + 1..];
      assert body == first + [NEWLINE] + rest;
      LoadOpenEnd(c, rest, fragment);
      LoadFirst(c, first, rest);
      LoadFirst(c, first, rest + fragment);
      Associative(first + [NEWLINE], rest, fragment);
    }
  }

  // ----- One append

  /** Writing the leading newline turns the open fragment into one ordinary line. */
  lemma CloseFits(c: Codec, body: seq<Byte>, fragment: seq<Byte>, x: Expected)
    requires FileFits(c, body, fragment, x) && fragment != []
    ensures FileFits(c, body + (fragment + [NEWLINE]), [], CloseLine(x))
  {
    LoadAppendLine(c, body, fragment);
    assert Last(body + (fragment + [NEWLINE])) == NEWLINE;
  }

  /** Writing part of a record onto a closed file. */
  lemma ExtendFits(c: Codec, body: seq<Byte>, y: Expected, e: Event, got: nat) returns (body': seq<Byte>, fragment: seq<Byte>)
    requires Sound(c) && c.valid(e) && FileFits(c, body, [], y)
    requires got <= |c.encode(e)| + 1
    ensures body + (c.encode(e) + [NEWLINE])[..got] == body' + fragment
    ensures FileFits(c, body', fragment,
              if got == 0 then y
              else if got < |c.encode(e)| then y.(tail := Torn)
              else if got == |c.encode(e)| then y.(tail := Whole(e))
              else y.(events := y.events + [e]))
  {
    var code := c.encode(e);
    assert NEWLINE !in code;
    if got <= |code| {
      body', fragment := body, code[..got];
      assert (code + [NEWLINE])[..got] == code[..got];
      assert code[..|code|] == code;
    } else {
      body', fragment := body + (code + [NEWLINE]), [];
      assert (code + [NEWLINE])[..got] == code + [NEWLINE];
      LoadAppendLine(c, body, code);
      assert Last(body') == NEWLINE && body' + [] == body';
    }
  }

  lemma {:induction false} AppendToOpen(c: Codec, body: seq<Byte>, fragment: seq<Byte>, x: Expected, a: Attempt)
    returns (body': seq<Byte>, fragment': seq<Byte>)
    requires Sound(c) && FileFits(c, body, fragment, x) && fragment != [] && c.valid(a.event) && a.written > 0
    ensures Appended(c, body + fragment, a) == body' + fragment'
    ensures FileFits(c, body', fragment', Expect(c, x, a))
  {
    var file, line := body + fragment, c.encode(a.event) + [NEWLINE];
    OpenIff(c, body, fragment, x);
    CloseFits(c, body, fragment, x);
    var closed := body + (fragment + [NEWLINE]);
    var got := Min(a.written - 1, |line|);
    body', fragment' := ExtendFits(c, closed, CloseLine(x), a.event, got);
    assert Payload(c, file, a.event)[..got + 1] == [NEWLINE] + line[..got];
    Associative(body, fragment, [NEWLINE]);
    Associative(file, [NEWLINE], line[..got]);
  }

  lemma {:induction false} AppendFits(c: Codec, body: seq<Byte>, fragment: seq<Byte>, x: Expected, a: Attempt)
    returns (body': seq<Byte>, fragment': seq<Byte>)
    requires Sound(c) && FileFits(c, body, fragment, x)
    ensures Appended(c, body + fragment, a) == body' + fragment'
    ensures FileFits(c, body', fragment', Expect(c, x, a))
  {
    var file, line := body + fragment, c.encode(a.event) + [NEWLINE];
    if a.written == 0 || !c.valid(a.event) {
      body', fragment' := body, fragment;
      assert Appended(c, file, a) == file + [];
    } else if fragment == [] {
      OpenIff(c, body, fragment, x);
      assert file == body;
      assert Payload(c, file, a.event) == line;
      body', fragment' := ExtendFits(c, body, x, a.event, Min(a.written, |line|));
    } else {
      body', fragment' := AppendToOpen(c, body, fragment, x, a);
    }
  }

  lemma OpenIff(c: Codec, body: seq<Byte>, fragment: seq<Byte>, x: Expected)
    requires FileFits(c, body, fragment, x)
    ensures Open(body + fragment) <==> fragment != []
    ensures fragment == [] <==> x.tail.Closed?
  {
    if fragment == [] {
      assert body + fragment == body;
    } else {
      assert Last(body + fragment) == Last(fragment) && Last(fragment) in fragment;
    }
  }

  lemma {:induction false} RunFits(c: Codec, start: seq<Byte>, attempts: seq<Attempt>)
    returns (body: seq<Byte>, fragment: seq<Byte>)
    requires Sound(c)
    ensures FileAfter(c, start, attempts) == body + fragment
    ensures FileFits(c, body, fragment, ExpectAll(c, start, attempts))
  {
    if attempts == [] {
      var k := TailStart(start);
      body, fragment := start[..k], start[k..];
    } else {
      var before := attempts[..|attempts| - 1];
      body, fragment := RunFits(c, start, before);
      body, fragment := AppendFits(c, body, fragment, ExpectAll(c, start, before), Last(attempts));
    }
  }

  /** After any run of appends onto any file, each dying after any number of bytes, loading
      gives exactly the expected events, and skips exactly what was skipped before, the torn
      fragments and an open last line. */
  lemma LoadAfterCrashes(c: Codec, start: seq<Byte>, attempts: seq<Attempt>)
    requires Sound(c)
    ensures var x := ExpectAll(c, start, attempts);
            Load(c, FileAfter(c, start, attempts)) == Loaded(x.events, x.torn + if x.tail.Closed? then 0 else 1)
  {
    var body, fragment := RunFits(c, start, attempts);
    var x := ExpectAll(c, start, attempts);
    OpenIff(c, body, fragment, x);
    if fragment == [] {
      assert body + fragment == body;
    } else {
      LoadOpenEnd(c, body, fragment);
    }
  }

  // ----- Which events those are

  /** The bytes that the append at `i` set out to write. */
  function PayloadAt(c: Codec, start: seq<Byte>, attempts: seq<Attempt>, i: nat): seq<Byte>
    requires i < |attempts|
  {
    Payload(c, FileAfter(c, start, attempts[..i]), attempts[i].event)
  }

  /** The append at `i` wrote everything, or everything but the final newline. */
  predicate WroteRecord(c: Codec, start: seq<Byte>, attempts: seq<Attempt>, i: nat)
    requires i < |attempts|
  {
    c.valid(attempts[i].event) && 0 < attempts[i].written && |PayloadAt(c, start, attempts, i)| <= attempts[i].written + 1
  }

  predicate Completed(c: Codec, start: seq<Byte>, attempts: seq<Attempt>, i: nat)
    requires i < |attempts|
  {
    c.valid(attempts[i].event) && |PayloadAt(c, start, attempts, i)| <= attempts[i].written
  }

  function EventsAt(attempts: seq<Attempt>, at: seq<nat>): (r: seq<Event>)
    requires forall i :: 0 <= i < |at| ==> at[i] < |attempts|
    ensures |r| == |at|
    ensures forall i :: 0 <= i < |at| ==> r[i] == attempts[at[i]].event
  {
    seq(|at|, i requires 0 <= i < |at| => attempts[at[i]].event)
  }

  /** Some append got at least its first byte out. */
  ghost predicate WroteAny(c: Codec, attempts: seq<Attempt>) {
    exists i :: 0 <= i < |attempts| && attempts[i].written > 0 && c.valid(attempts[i].event)
  }

  /** The start file's own events. Its open last line, if it has one, counts once the first
      byte of a later append has closed it. */
  ghost function Inherited(c: Codec, start: seq<Byte>, attempts: seq<Attempt>): seq<Event> {
    Load(c, if Open(start) && WroteAny(c, attempts) then start + [NEWLINE] else start).events
  }

  /** The appends `at` are in order and each wrote its whole record, and every completed
      append is among them. */
  ghost predicate Chosen(c: Codec, start: seq<Byte>, attempts: seq<Attempt>, at: seq<nat>) {
    && Increasing(at)
    && (forall i :: 0 <= i < |at| ==> at[i] < |attempts| && WroteRecord(c, start, attempts, at[i]))
    && (forall i :: 0 <= i < |attempts| && Completed(c, start, attempts, i) ==> i in at)
  }

  /** Closing the file would give the start's events and those of the appends `at`. If the
      last line is a whole record without its newline, it is the last of these. */
  ghost predicate Accounts(c: Codec, start: seq<Byte>, attempts: seq<Attempt>, at: seq<nat>) {
    var x := ExpectAll(c, start, attempts);
    && Chosen(c, start, attempts, at)
    && CloseLine(x).events == CloseLine(ExpectedOf(c, start)).events + EventsAt(attempts, at)
    && if WroteAny(c, attempts) then x.tail.Whole? ==> at != [] && !Completed(c, start, attempts, Last(at))
       else x == ExpectedOf(c, start) && at == []
  }

  lemma PrefixFacts(c: Codec, start: seq<Byte>, before: seq<Attempt>, a: Attempt, i: nat)
    requires i < |before|
    ensures WroteRecord(c, start, before + [a], i) <==> WroteRecord(c, start, before, i)
    ensures Completed(c, start, before + [a], i) <==> Completed(c, start, before, i)
  {
    assert (before + [a])[..i] == before[..i];
  }

  /** How long the payload is that an append sets out to write. */
  lemma PayloadSize(c: Codec, start: seq<Byte>, before: seq<Attempt>, a: Attempt)
    requires Sound(c) && c.valid(a.event)
    ensures |PayloadAt(c, start, before + [a], |before|)|
            == |c.encode(a.event)| + 1 + (if ExpectAll(c, start, before).tail.Closed? then 0 else 1)
  {
    assert (before + [a])[..|before|] == before;
    var body, fragment := RunFits(c, start, before);
    OpenIff(c, body, fragment, ExpectAll(c, start, before));
  }

  lemma ChosenSame(c: Codec, start: seq<Byte>, before: seq<Attempt>, a: Attempt, at: seq<nat>)
    requires Chosen(c, start, before, at) && !Completed(c, start, before + [a], |before|)
    ensures Chosen(c, start, before + [a], at)
  {
    forall i | 0 <= i < |at|
      ensures WroteRecord(c, start, before + [a], at[i])
    {
      PrefixFacts(c, start, before, a, at[i]);
    }
    forall i | 0 <= i < |before| && Completed(c, start, before + [a], i)
      ensures i in at
    {
      PrefixFacts(c, start, before, a, i);
    }
  }

  lemma ChosenMore(c: Codec, start: seq<Byte>, before: seq<Attempt>, a: Attempt, at: seq<nat>)
    requires Chosen(c, start, before, at) && WroteRecord(c, start, before + [a], |before|)
    ensures Chosen(c, start, before + [a], at + [|before|])
  {
    var more := at + [|before|];
    assert Last(more) == |before|;
    forall i | 0 <= i < |more|
      ensures WroteRecord(c, start, before + [a], more[i])
    {
      if i < |at| {
        PrefixFacts(c, start, before, a, at[i]);
      }
    }
    forall i | 0 <= i <= |before| && Completed(c, start, before + [a], i)
      ensures i in more
    {
      if i < |before| {
        PrefixFacts(c, start, before, a, i);
        assert i in at;
      }
    }
  }

  lemma SameEvents(before: seq<Attempt>, a: Attempt, at: seq<nat>)
    requires forall i :: 0 <= i < |at| ==> at[i] < |before|
    ensures EventsAt(before + [a], at) == EventsAt(before, at)
    ensures EventsAt(before + [a], at + [|before|]) == EventsAt(before, at) + [a.event]
  {
  }

  lemma ClosedAfterIdle(c: Codec, x: Expected, a: Attempt)
    requires a.written == 0 || !c.valid(a.event) || Progress(x, a) < |c.encode(a.event)| || Progress(x, a) == 0
    ensures CloseLine(Expect(c, x, a)).events == CloseLine(x).events
    ensures Expect(c, x, a) == x || !Expect(c, x, a).tail.Whole?
  {
  }

  /** An append that got nothing out, or not even its whole record. */
  lemma {:induction false} AccountsIdle(c: Codec, start: seq<Byte>, before: seq<Attempt>, a: Attempt, at: seq<nat>)
    requires Accounts(c, start, before, at) && !Completed(c, start, before + [a], |before|)
    requires a.written == 0 || !c.valid(a.event) || Progress(ExpectAll(c, start, before), a) < |c.encode(a.event)|
             || Progress(ExpectAll(c, start, before), a) == 0
    ensures Accounts(c, start, before + [a], at)
  {
    assert (before + [a])[..|before|] == before && Last(before + [a]) == a;
    ClosedAfterIdle(c, ExpectAll(c, start, before), a);
    ChosenSame(c, start, before, a, at);
    SameEvents(before, a, at);
    WroteAnyNext(c, before, a);
    if at != [] {
      PrefixFacts(c, start, before, a, Last(at));
    }
  }

  lemma WroteAnyNext(c: Codec, before: seq<Attempt>, a: Attempt)
    ensures WroteAny(c, before + [a]) <==> WroteAny(c, before) || (a.written > 0 && c.valid(a.event))
  {
    var all := before + [a];
    assert all[|before|] == a && forall i :: 0 <= i < |before| ==> all[i] == before[i];
  }

  lemma ClosedAfterWrite(c: Codec, x: Expected, a: Attempt)
    requires c.valid(a.event) && a.written > 0 && Progress(x, a) > 0 && Progress(x, a) >= |c.encode(a.event)|
    ensures CloseLine(Expect(c, x, a)).events == CloseLine(x).events + [a.event]
    ensures Expect(c, x, a).tail.Whole? ==> Progress(x, a) == |c.encode(a.event)|
  {
  }

  /** An append that got its whole record out, with or without the newline. */
  lemma {:induction false} AccountsWrite(c: Codec, start: seq<Byte>, before: seq<Attempt>, a: Attempt, at: seq<nat>)
    requires Accounts(c, start, before, at) && c.valid(a.event) && WroteRecord(c, start, before + [a], |before|)
    requires var got := Progress(ExpectAll(c, start, before), a);
             got > 0 && got >= |c.encode(a.event)|
             && (Completed(c, start, before + [a], |before|) <==> got > |c.encode(a.event)|)
    ensures Accounts(c, start, before + [a], at + [|before|])
  {
    assert (before + [a])[..|before|] == before && Last(before + [a]) == a;
    ClosedAfterWrite(c, ExpectAll(c, start, before), a);
    ChosenMore(c, start, before, a, at);
    SameEvents(before, a, at);
    WroteAnyNext(c, before, a);
    Associative(CloseLine(ExpectedOf(c, start)).events, EventsAt(before, at), [a.event]);
    assert Last(at + [|before|]) == |before|;
  }

  lemma AccountsStep(c: Codec, start: seq<Byte>, before: seq<Attempt>, a: Attempt, at: seq<nat>) returns (at': seq<nat>)
    requires Sound(c) && Accounts(c, start, before, at)
    ensures Accounts(c, start, before + [a], at')
  {
    var size, got := |c.encode(a.event)|, Progress(ExpectAll(c, start, before), a);
    if c.valid(a.event) {
      PayloadSize(c, start, before, a);
    }
    if a.written == 0 || !c.valid(a.event) || got < size || got == 0 {
      at' := at;
      AccountsIdle(c, start, before, a, at);
    } else {
      at' := at + [|before|];
      AccountsWrite(c, start, before, a, at);
    }
  }

  lemma {:induction false} RunAccounts(c: Codec, start: seq<Byte>, attempts: seq<Attempt>) returns (at: seq<nat>)
    requires Sound(c)
    ensures Accounts(c, start, attempts, at)
  {
    if attempts == [] {
      at := [];
      assert CloseLine(ExpectedOf(c, start)).events + [] == CloseLine(ExpectedOf(c, start)).events;
    } else {
      var before := attempts[..|attempts| - 1];
      at := RunAccounts(c, start, before);
      at := AccountsStep(c, start, before, Last(attempts), at);
      assert before + [Last(attempts)] == attempts;
    }
  }

  /** Once a later append has closed the start file's last line, it loads as if it had been
      closed from the beginning. */
  lemma InheritedEvents(c: Codec, start: seq<Byte>)
    requires Sound(c)
    ensures Load(c, start).events == ExpectedOf(c, start).events
    ensures Load(c, if Open(start) then start + [NEWLINE] else start).events == CloseLine(ExpectedOf(c, start)).events
  {
    LoadAfterCrashes(c, start, []);
    var k := TailStart(start);
    var body, fragment := start[..k], start[k..];
    assert start == body + fragment;
    OpenIff(c, body, fragment, ExpectedOf(c, start));
    if fragment != [] {
      CloseFits(c, body, fragment, ExpectedOf(c, start));
      Associative(body, fragment, [NEWLINE]);
    }
  }

  lemma StaysIn(at: seq<nat>, i: nat)
    requires i in at && i != Last(at)
    ensures i in at[..|at| - 1]
  {
    var k :| 0 <= k < |at| && at[k] == i;
    assert at[..|at| - 1][k] == i;
  }

  /** Dropping the last of the chosen, which did not complete. */
  lemma ChosenFewer(c: Codec, start: seq<Byte>, attempts: seq<Attempt>, at: seq<nat>)
    requires Chosen(c, start, attempts, at) && at != [] && !Completed(c, start, attempts, Last(at))
    ensures Chosen(c, start, attempts, at[..|at| - 1])
  {
    forall i | 0 <= i < |attempts| && Completed(c, start, attempts, i)
      ensures i in at[..|at| - 1]
    {
      StaysIn(at, i);
    }
  }

  lemma EventsFewer(attempts: seq<Attempt>, at: seq<nat>)
    requires at != [] && forall i :: 0 <= i < |at| ==> at[i] < |attempts|
    ensures EventsAt(attempts, at) == EventsAt(attempts, at[..|at| - 1]) + [attempts[Last(at)].event]
  {
  }

  /** The events that load before the open line is closed. */
  lemma OpenLineWaits(c: Codec, start: seq<Byte>, attempts: seq<Attempt>, at: seq<nat>) returns (at': seq<nat>)
    requires Accounts(c, start, attempts, at) && WroteAny(c, attempts)
    ensures Chosen(c, start, attempts, at')
    ensures ExpectAll(c, start, attempts).events == CloseLine(ExpectedOf(c, start)).events + EventsAt(attempts, at')
  {
    var x, first := ExpectAll(c, start, attempts), CloseLine(ExpectedOf(c, start)).events;
    at' := at;
    if x.tail.Whole? {
      ChosenFewer(c, start, attempts, at);
      EventsFewer(attempts, at);
      at' := at[..|at| - 1];
      LastOff(first, EventsAt(attempts, at'), attempts[Last(at)].event, x.events, x.tail.event);
    }
  }

  /** Main theorem: whatever the file held and whatever died, loading gives the start's own
      events followed by one for each completed append, in order; any other event loaded was
      written whole by one append, never stitched together. */
  lemma CompletedAppendsAreLoaded(c: Codec, start: seq<Byte>, attempts: seq<Attempt>) returns (at: seq<nat>)
    requires Sound(c)
    ensures Chosen(c, start, attempts, at)
    ensures Load(c, FileAfter(c, start, attempts)).events == Inherited(c, start, attempts) + EventsAt(attempts, at)
  {
    at := RunAccounts(c, start, attempts);
    LoadAfterCrashes(c, start, attempts);
    InheritedEvents(c, start);
    if WroteAny(c, attempts) {
      at := OpenLineWaits(c, start, attempts, at);
    } else {
      assert Inherited(c, start, attempts) + [] == Inherited(c, start, attempts);
    }
  }

  lemma LastOff(a: seq<Event>, b: seq<Event>, e: Event, x: seq<Event>, f: Event)
    requires x + [f] == a + (b + [e])
    ensures x == a + b
  {
    Associative(a, b, [e]);
    assert (x + [f])[..|x|] == x && ((a + b) + [e])[..|a + b|] == a + b;
  }

  // ----- Summaries

  const MAX_U64: nat := 0xFFFF_FFFF_FFFF_FFFF

  datatype Item = Item(
    workId: string, events: nat, attempts: nat, managerRounds: nat, tokens: nat, elapsedSeconds: nat,
    firstTs: string, lastTs: string, lastOutcome: Option<string>, lastPhase: Phase)

  function Or(o: Option<nat>): nat {
    if o.Some? then o.value else 0
  }

  type Alias = (string, string) -> bool

  /** Position of the first item whose work id is an alias, or the number of items. */
  function FirstAlias(ids: seq<string>, alias: Alias, id: string): (k: nat)
    ensures k <= |ids|
    ensures k < |ids| ==> alias(ids[k], id)
    ensures forall j :: 0 <= j < k ==> !alias(ids[j], id)
  {
    if ids == [] || alias(ids[0], id) then 0 else 1 + FirstAlias(ids[1..], alias, id)
  }

  /** The work ids under which the first `n` events are grouped, in order of first appearance. */
  function Groups(events: seq<Event>, alias: Alias, n: nat): seq<string>
    requires n <= |events|
  {
    if n == 0 then []
    else
      var ids := Groups(events, alias, n - 1);
      var id := events[n - 1].workId;
      if FirstAlias(ids, alias, id) < |ids| then ids else ids + [id]
  }

  /** The group an event joins: decided by the groups that existed before it. */
  function GroupOf(events: seq<Event>, alias: Alias, i: nat): (g: nat)
    requires i < |events|
  {
    FirstAlias(Groups(events, alias, i), alias, events[i].workId)
  }

  /** The sum of `f` over the first `n` events that belong to group `g`. */
  function GroupSum(events: seq<Event>, alias: Alias, f: Event -> nat, g: nat, n: nat): nat
    requires n <= |events|
  {
    if n == 0 then 0
    else GroupSum(events, alias, f, g, n - 1) + (if GroupOf(events, alias, n - 1) == g then f(events[n - 1]) else 0)
  }

  function Count(): Event -> nat {
    (e: Event) => 1
  }

  function Tokens(): Event -> nat {
    (e: Event) => Or(e.tokens)
  }

  function Elapsed(): Event -> nat {
    (e: Event) => Or(e.elapsedSeconds)
  }

  function Attempts(): Event -> nat {
    (e: Event) => Or(e.attempt)
  }

  function Rounds(): Event -> nat {
    (e: Event) => Or(e.managerRounds)
  }

  /** The largest `f` among the first `n` events of group `g`, or 0. */
  function GroupMax(events: seq<Event>, alias: Alias, f: Event -> nat, g: nat, n: nat): nat
    requires n <= |events|
  {
    if n == 0 then 0
    else
      var m := GroupMax(events, alias, f, g, n - 1);
      if GroupOf(events, alias, n - 1) == g then Max(m, f(events[n - 1])) else m
  }

  /** The last of the first `n` events that belongs to group `g`. */
  function LastIn(events: seq<Event>, alias: Alias, g: nat, n: nat): (r: Option<nat>)
    requires n <= |events|
    ensures r.Some? ==> r.value < n && GroupOf(events, alias, r.value) == g
  {
    if n == 0 then None
    else if GroupOf(events, alias, n - 1) == g then Some(n - 1)
    else LastIn(events, alias, g, n - 1)
  }

  /** The first of the first `n` events that belongs to group `g`. */
  function FirstIn(events: seq<Event>, alias: Alias, g: nat, n: nat): (r: Option<nat>)
    requires n <= |events|
    ensures r.Some? ==> r.value < n && GroupOf(events, alias, r.value) == g
    ensures r.Some? <==> LastIn(events, alias, g, n).Some?
  {
    if n == 0 then None
    else
      var r := FirstIn(events, alias, g, n - 1);
      if r.Some? then r else if GroupOf(events, alias, n - 1) == g then Some(n - 1) else None
  }

  /** The latest outcome that the group's first `n` events report. */
  function LastOutcome(events: seq<Event>, alias: Alias, g: nat, n: nat): Option<string>
    requires n <= |events|
  {
    if n == 0 then None
    else if GroupOf(events, alias, n - 1) == g && events[n - 1].outcome.Some? then events[n - 1].outcome
    else LastOutcome(events, alias, g, n - 1)
  }

  /** What an item says about the first `n` events of its group. */
  ghost predicate Tells(item: Item, events: seq<Event>, alias: Alias, g: nat, n: nat)
    requires n <= |events|
  {
    && item.events == GroupSum(events, alias, Count(), g, n)
    && item.tokens == GroupSum(events, alias, Tokens(), g, n)
    && item.elapsedSeconds == GroupSum(events, alias, Elapsed(), g, n)
    && item.attempts == GroupMax(events, alias, Attempts(), g, n)
    && item.managerRounds == GroupMax(events, alias, Rounds(), g, n)
    && item.lastOutcome == LastOutcome(events, alias, g, n)
    && (LastIn(events, alias, g, n).Some? ==>
          && item.firstTs == events[FirstIn(events, alias, g, n).value].ts
          && item.lastTs == events[LastIn(events, alias, g, n).value].ts
          && item.lastPhase == events[LastIn(events, alias, g, n).value].phase)
  }

  /** Event `i` belongs to group `g` and none of the first `n` after it does. */
  ghost predicate IsLast(events: seq<Event>, alias: Alias, g: nat, n: nat, i: nat)
    requires n <= |events|
  {
    && i < n && GroupOf(events, alias, i) == g
    && forall j :: i < j < n ==> GroupOf(events, alias, j) != g
  }

  ghost predicate IsFirst(events: seq<Event>, alias: Alias, g: nat, n: nat, i: nat)
    requires n <= |events|
  {
    && i < n && GroupOf(events, alias, i) == g
    && forall j :: 0 <= j < i ==> GroupOf(events, alias, j) != g
  }

  lemma {:induction false} LastInIs(events: seq<Event>, alias: Alias, g: nat, n: nat, i: nat)
    requires n <= |events| && IsLast(events, alias, g, n, i)
    ensures LastIn(events, alias, g, n) == Some(i)
    decreases n
  {
    if i < n - 1 {
      LastInIs(events, alias, g, n - 1, i);
    }
  }

  lemma {:induction false} NoneBefore(events: seq<Event>, alias: Alias, g: nat, n: nat)
    requires n <= |events| && forall j :: 0 <= j < n ==> GroupOf(events, alias, j) != g
    ensures FirstIn(events, alias, g, n).None?
  {
    if n > 0 {
      NoneBefore(events, alias, g, n - 1);
    }
  }

  lemma {:induction false} FirstInIs(events: seq<Event>, alias: Alias, g: nat, n: nat, i: nat)
    requires n <= |events| && IsFirst(events, alias, g, n, i)
    ensures FirstIn(events, alias, g, n) == Some(i)
    decreases n
  {
    if i < n - 1 {
      FirstInIs(events, alias, g, n - 1, i);
    } else {
      NoneBefore(events, alias, g, n - 1);
    }
  }

  lemma {:induction false} LastOutcomeIs(events: seq<Event>, alias: Alias, g: nat, n: nat, i: nat)
    requires n <= |events| && i < n && GroupOf(events, alias, i) == g && events[i].outcome.Some?
    requires forall j :: i < j < n && GroupOf(events, alias, j) == g ==> events[j].outcome.None?
    ensures LastOutcome(events, alias, g, n) == events[i].outcome
    decreases n
  {
    if i < n - 1 {
      LastOutcomeIs(events, alias, g, n - 1, i);
    }
  }

  lemma {:induction false} MaxBounds(events: seq<Event>, alias: Alias, f: Event -> nat, g: nat, n: nat, i: nat)
    requires n <= |events| && i < n && GroupOf(events, alias, i) == g
    ensures f(events[i]) <= GroupMax(events, alias, f, g, n)
    decreases n
  {
    if i < n - 1 {
      MaxBounds(events, alias, f, g, n - 1, i);
    }
  }

  lemma {:induction false} MaxIsReached(events: seq<Event>, alias: Alias, f: Event -> nat, g: nat, n: nat)
    requires n <= |events| && GroupMax(events, alias, f, g, n) > 0
    ensures exists i :: 0 <= i < n && GroupOf(events, alias, i) == g && f(events[i]) == GroupMax(events, alias, f, g, n)
  {
    var m := GroupMax(events, alias, f, g, n - 1);
    if GroupMax(events, alias, f, g, n) == m {
      MaxIsReached(events, alias, f, g, n - 1);
    }
  }

  /** The quantities, field by field; a missing one counts as zero. */
  lemma QuantitiesAre(e: Event)
    ensures Count()(e) == 1
    ensures Tokens()(e) == match e.tokens case Some(v) => v case None => 0
    ensures Elapsed()(e) == match e.elapsedSeconds case Some(v) => v case None => 0
    ensures Attempts()(e) == match e.attempt case Some(v) => v case None => 0
    ensures Rounds()(e) == match e.managerRounds case Some(v) => v case None => 0
  {
  }

  /** What an item says about an event of its group: it quotes the first and the last one and the
      last reported outcome, and its attempts and rounds are at least the event's. */
  lemma ItemQuotes(item: Item, events: seq<Event>, alias: Alias, g: nat, n: nat, i: nat)
    requires n <= |events| && Tells(item, events, alias, g, n) && i < n && GroupOf(events, alias, i) == g
    ensures IsFirst(events, alias, g, n, i) ==> item.firstTs == events[i].ts
    ensures IsLast(events, alias, g, n, i) ==> item.lastTs == events[i].ts && item.lastPhase == events[i].phase
    ensures events[i].outcome.Some?
            && (forall j :: i < j < n && GroupOf(events, alias, j) == g ==> events[j].outcome.None?) ==>
              item.lastOutcome == events[i].outcome
    ensures Or(events[i].attempt) <= item.attempts && Or(events[i].managerRounds) <= item.managerRounds
  {
    MaxBounds(events, alias, Attempts(), g, n, i);
    MaxBounds(events, alias, Rounds(), g, n, i);
    if IsLast(events, alias, g, n, i) {
      LastInIs(events, alias, g, n, i);
    }
    if IsFirst(events, alias, g, n, i) {
      FirstInIs(events, alias, g, n, i);
    }
    if events[i].outcome.Some? && forall j :: i < j < n && GroupOf(events, alias, j) == g ==> events[j].outcome.None? {
      LastOutcomeIs(events, alias, g, n, i);
    }
  }

  /** The maxima are those of some event of the group, or zero. */
  lemma ItemMaxima(item: Item, events: seq<Event>, alias: Alias, g: nat, n: nat)
    requires n <= |events| && Tells(item, events, alias, g, n)
    ensures item.attempts == 0
            || exists i :: 0 <= i < n && GroupOf(events, alias, i) == g && Or(events[i].attempt) == item.attempts
    ensures item.managerRounds == 0
            || exists i :: 0 <= i < n && GroupOf(events, alias, i) == g && Or(events[i].managerRounds) == item.managerRounds
  {
    if item.attempts > 0 {
      MaxIsReached(events, alias, Attempts(), g, n);
    }
    if item.managerRounds > 0 {
      MaxIsReached(events, alias, Rounds(), g, n);
    }
  }

  /** An event joins the first group whose work id is an alias of its own; if there is none it
      starts a group under its own work id. */
  lemma GroupIs(events: seq<Event>, alias: Alias, i: nat)
    requires i < |events|
    ensures var before, g := Groups(events, alias, i), GroupOf(events, alias, i);
            && (forall j :: 0 <= j < g ==> j < |before| && !alias(before[j], events[i].workId))
            && (if g < |before| then alias(before[g], events[i].workId) && Groups(events, alias, i + 1) == before
                else g == |before| && Groups(events, alias, i + 1) == before + [events[i].workId])
  {
  }

  ghost predicate ItemFits(item: Item, events: seq<Event>, alias: Alias, g: nat, n: nat)
    requires n <= |events|
  {
    && g < |Groups(events, alias, n)|
    && item.workId == Groups(events, alias, n)[g]
    && Tells(item, events, alias, g, n)
    && item.tokens <= MAX_U64 && item.elapsedSeconds <= MAX_U64
  }

  ghost predicate ItemsFit(items: seq<Item>, events: seq<Event>, alias: Alias, n: nat)
    requires n <= |events|
  {
    && |items| == |Groups(events, alias, n)|
    && forall g :: 0 <= g < |items| ==> ItemFits(items[g], events, alias, g, n)
  }

  /** Some group's total does not fit in 64 bits. */
  ghost predicate Overflows(events: seq<Event>, alias: Alias) {
    exists g :: 0 <= g < |Groups(events, alias, |events|)| && TooBig(events, alias, g, |events|)
  }

  predicate TooBig(events: seq<Event>, alias: Alias, g: nat, n: nat)
    requires n <= |events|
  {
    GroupSum(events, alias, Tokens(), g, n) > MAX_U64 || GroupSum(events, alias, Elapsed(), g, n) > MAX_U64
  }

  lemma {:induction false} GroupsGrow(events: seq<Event>, alias: Alias, m: nat, n: nat)
    requires m <= n <= |events|
    ensures Groups(events, alias, m) <= Groups(events, alias, n)
    decreases n
  {
    if m < n {
      GroupsGrow(events, alias, m, n - 1);
    }
  }

  lemma {:induction false} SumsGrow(events: seq<Event>, alias: Alias, f: Event -> nat, g: nat, m: nat, n: nat)
    requires m <= n <= |events|
    ensures GroupSum(events, alias, f, g, m) <= GroupSum(events, alias, f, g, n)
    decreases n
  {
    if m < n {
      SumsGrow(events, alias, f, g, m, n - 1);
    }
  }

  /** A group that does not exist yet has no members. */
  lemma {:induction false} NoMembersYet(events: seq<Event>, alias: Alias, e: Event, n: nat, m: nat)
    requires m <= n <= |events|
    ensures Tells(NewItem(e), events, alias, |Groups(events, alias, n)|, m)
    ensures LastIn(events, alias, |Groups(events, alias, n)|, m).None?
    decreases m
  {
    if m > 0 {
      NoMembersYet(events, alias, e, n, m - 1);
      GroupsGrow(events, alias, m, n);
      assert GroupOf(events, alias, m - 1) < |Groups(events, alias, m)|;
    }
  }

  function WorkIds(items: seq<Item>): (ids: seq<string>)
    ensures |ids| == |items|
    ensures forall i :: 0 <= i < |items| ==> ids[i] == items[i].workId
  {
    seq(|items|, i requires 0 <= i < |items| => items[i].workId)
  }

  function NewItem(e: Event): Item {
    Item(e.workId, 0, 0, 0, 0, 0, e.ts, e.ts, None, e.phase)
  }

  lemma ItemsFitIds(items: seq<Item>, events: seq<Event>, alias: Alias, n: nat)
    requires n <= |events| && ItemsFit(items, events, alias, n)
    ensures WorkIds(items) == Groups(events, alias, n)
  {
    forall g | 0 <= g < |items|
      ensures items[g].workId == Groups(events, alias, n)[g]
    {
      assert ItemFits(items[g], events, alias, g, n);
    }
  }

  lemma {:induction false} ItemFitsNext(item: Item, events: seq<Event>, alias: Alias, g: nat, n: nat)
    requires n < |events| && ItemFits(item, events, alias, g, n) && GroupOf(events, alias, n) != g
    ensures ItemFits(item, events, alias, g, n + 1)
  {
    GroupsGrow(events, alias, n, n + 1);
  }

  /** A running total that is already too big stays so. */
  predicate NeedsMoreBits(events: seq<Event>, alias: Alias, g: nat) {
    || GroupSum(events, alias, Tokens(), g, |events|) >= 0x1_0000_0000_0000_0000
    || GroupSum(events, alias, Elapsed(), g, |events|) >= 0x1_0000_0000_0000_0000
  }

  /** A summary overflows iff the tokens or the seconds of some group need more than 64 bits. */
  lemma OverflowIff(events: seq<Event>, alias: Alias)
    ensures Overflows(events, alias)
            <==> exists g :: 0 <= g < |Groups(events, alias, |events|)| && NeedsMoreBits(events, alias, g)
  {
    forall g: nat
      ensures TooBig(events, alias, g, |events|) <==> NeedsMoreBits(events, alias, g)
    {
    }
  }

  lemma {:induction false} OverflowStays(events: seq<Event>, alias: Alias, g: nat, n: nat)
    requires n <= |events| && g < |Groups(events, alias, n)| && TooBig(events, alias, g, n)
    ensures Overflows(events, alias)
  {
    GroupsGrow(events, alias, n, |events|);
    SumsGrow(events, alias, Tokens(), g, n, |events|);
    SumsGrow(events, alias, Elapsed(), g, n, |events|);
    assert TooBig(events, alias, g, |events|);
  }

  lemma NoOverflow(items: seq<Item>, events: seq<Event>, alias: Alias)
    requires ItemsFit(items, events, alias, |events|)
    ensures !Overflows(events, alias)
  {
    forall g | 0 <= g < |items|
      ensures !TooBig(events, alias, g, |events|)
    {
      assert ItemFits(items[g], events, alias, g, |events|);
    }
  }

  /** Add one event to its group's item. */
  method AddEvent(item: Item, events: seq<Event>, ghost alias: Alias, ghost g: nat, n: nat) returns (r: Result<Item>)
    requires n < |events| && Tells(item, events, alias, g, n) && GroupOf(events, alias, n) == g
    requires LastIn(events, alias, g, n).None? ==> item.firstTs == events[n].ts
    ensures r.Err? <==> TooBig(events, alias, g, n + 1)
    ensures r.Ok? ==> r.value.workId == item.workId && Tells(r.value, events, alias, g, n + 1)
  {
    var e, i := events[n], item;
    i := i.(events := i.events + 1);
    i := i.(attempts := Max(i.attempts, Or(e.attempt)));
    i := i.(managerRounds := Max(i.managerRounds, Or(e.managerRounds)));
    if i.tokens + Or(e.tokens) > MAX_U64 {
      return Err("tokens sum overflow");
    }
    i := i.(tokens := i.tokens + Or(e.tokens));
    if i.elapsedSeconds + Or(e.elapsedSeconds) > MAX_U64 {
      return Err("elapsed_seconds sum overflow");
    }
    i := i.(elapsedSeconds := i.elapsedSeconds + Or(e.elapsedSeconds));
    i := i.(lastTs := e.ts, lastPhase := e.phase);
    if e.outcome.Some? {
      i := i.(lastOutcome := e.outcome);
    }
    return Ok(i);
  }

  /** Ready to take event `n`: the item of its group exists and tells about what came before. */
  ghost predicate Placed(before: seq<Item>, items: seq<Item>, events: seq<Event>, alias: Alias, n: nat, index: nat)
    requires n < |events|
  {
    && index == GroupOf(events, alias, n) && index < |items| == |Groups(events, alias, n + 1)|
    && items[index].workId == Groups(events, alias, n + 1)[index]
    && Tells(items[index], events, alias, index, n)
    && (LastIn(events, alias, index, n).None? ==> items[index].firstTs == events[n].ts)
    && forall g :: 0 <= g < |items| && g != index ==> g < |before| && items[g] == before[g]
  }

  /** Find the event's item, or start one. */
  method Place(before: seq<Item>, events: seq<Event>, alias: Alias, n: nat) returns (items: seq<Item>, index: nat)
    requires n < |events| && ItemsFit(before, events, alias, n)
    ensures Placed(before, items, events, alias, n, index)
  {
    items := before;
    ItemsFitIds(items, events, alias, n);
    GroupsGrow(events, alias, n, n + 1);
    index := FirstAlias(WorkIds(items), alias, events[n].workId);
    if index == |items| {
      NoMembersYet(events, alias, events[n], n, n);
      items := items + [NewItem(events[n])];
    } else {
      assert ItemFits(items[index], events, alias, index, n);
      MemberExists(events, alias, index, n);
    }
  }

  /** Take event `n` into the items. */
  method TakeEvent(before: seq<Item>, events: seq<Event>, alias: Alias, n: nat) returns (r: Result<seq<Item>>)
    requires n < |events| && ItemsFit(before, events, alias, n)
    ensures r.Err? ==> Overflows(events, alias)
    ensures r.Ok? ==> ItemsFit(r.value, events, alias, n + 1)
  {
    var items, index := Place(before, events, alias, n);
    var i := AddEvent(items[index], events, alias, index, n);
    if i.Err? {
      OverflowStays(events, alias, index, n + 1);
      return Err(i.message);
    }
    ItemStored(before, items, events, alias, n, index, i.value);
    return Ok(items[index := i.value]);
  }

  method Summarize(events: seq<Event>, alias: Alias) returns (r: Result<seq<Item>>)
    ensures r.Err? <==> Overflows(events, alias)
    ensures r.Ok? ==> ItemsFit(r.value, events, alias, |events|)
  {
    var items: seq<Item> := [];
    for n := 0 to |events|
      invariant ItemsFit(items, events, alias, n)
    {
      var taken := TakeEvent(items, events, alias, n);
      if taken.Err? {
        return taken;
      }
      items := taken.value;
    }
    NoOverflow(items, events, alias);
    return Ok(items);
  }

  lemma {:induction false} ItemStored(
    before: seq<Item>, placed: seq<Item>, events: seq<Event>, alias: Alias, n: nat, index: nat, item: Item)
    requires n < |events| && ItemsFit(before, events, alias, n) && Placed(before, placed, events, alias, n, index)
    requires ItemFits(item, events, alias, index, n + 1)
    ensures ItemsFit(placed[index := item], events, alias, n + 1)
  {
    ItemsFitNext(before, placed[index := item], events, alias, n);
  }

  lemma {:induction false} ItemsFitNext(before: seq<Item>, items: seq<Item>, events: seq<Event>, alias: Alias, n: nat)
    requires n < |events| && ItemsFit(before, events, alias, n)
    requires |items| == |Groups(events, alias, n + 1)|
    requires var index := GroupOf(events, alias, n);
             && index < |items|
             && ItemFits(items[index], events, alias, index, n + 1)
             && forall g :: 0 <= g < |items| && g != index ==> g < |before| && items[g] == before[g]
    ensures ItemsFit(items, events, alias, n + 1)
  {
    forall g | 0 <= g < |items|
      ensures ItemFits(items[g], events, alias, g, n + 1)
    {
      if g != GroupOf(events, alias, n) {
        assert ItemFits(before[g], events, alias, g, n);
        ItemFitsNext(before[g], events, alias, g, n);
      }
    }
  }

  lemma {:induction false} MemberExists(events: seq<Event>, alias: Alias, g: nat, n: nat)
    requires n <= |events| && g < |Groups(events, alias, n)|
    ensures LastIn(events, alias, g, n).Some?
    decreases n
  {
    if g < |Groups(events, alias, n - 1)| {
      MemberExists(events, alias, g, n - 1);
    }
  }

  // ----- Conservation

  function Total(events: seq<Event>, f: Event -> nat, n: nat): nat
    requires n <= |events|
  {
    if n == 0 then 0 else Total(events, f, n - 1) + f(events[n - 1])
  }

  /** The sum of `f` over the first `k` groups. */
  function OverGroups(events: seq<Event>, alias: Alias, f: Event -> nat, k: nat, n: nat): nat
    requires n <= |events|
  {
    if k == 0 then 0 else OverGroups(events, alias, f, k - 1, n) + GroupSum(events, alias, f, k - 1, n)
  }

  lemma {:induction false} OneGroupEach(events: seq<Event>, alias: Alias, f: Event -> nat, k: nat, n: nat)
    requires 0 < n <= |events|
    ensures OverGroups(events, alias, f, k, n) == OverGroups(events, alias, f, k, n - 1)
                                                  + (if GroupOf(events, alias, n - 1) < k then f(events[n - 1]) else 0)
    decreases k
  {
    if k > 0 {
      OneGroupEach(events, alias, f, k - 1, n);
    }
  }

  lemma {:induction false} NoGroupsNoSum(events: seq<Event>, alias: Alias, f: Event -> nat, k: nat)
    ensures OverGroups(events, alias, f, k, 0) == 0
  {
    if k > 0 {
      NoGroupsNoSum(events, alias, f, k - 1);
    }
  }

  /** Grouping neither loses nor doubles anything, whatever the alias relation is. */
  lemma {:induction false} GroupsConserve(events: seq<Event>, alias: Alias, f: Event -> nat, k: nat, n: nat)
    requires n <= |events| && k >= |Groups(events, alias, n)|
    ensures OverGroups(events, alias, f, k, n) == Total(events, f, n)
    decreases n
  {
    if n == 0 {
      NoGroupsNoSum(events, alias, f, k);
    } else {
      GroupsGrow(events, alias, n - 1, n);
      assert GroupOf(events, alias, n - 1) < |Groups(events, alias, n)|;
      OneGroupEach(events, alias, f, k, n);
      GroupsConserve(events, alias, f, k, n - 1);
    }
  }

  function SumItems(items: seq<Item>, f: Item -> nat, k: nat): nat
    requires k <= |items|
  {
    if k == 0 then 0 else SumItems(items, f, k - 1) + f(items[k - 1])
  }

  lemma {:induction false} ItemsAddUp(items: seq<Item>, events: seq<Event>, alias: Alias, k: nat)
    requires ItemsFit(items, events, alias, |events|) && k <= |items|
    ensures SumItems(items, (i: Item) => i.events, k) == OverGroups(events, alias, Count(), k, |events|)
    ensures SumItems(items, (i: Item) => i.tokens, k) == OverGroups(events, alias, Tokens(), k, |events|)
    ensures SumItems(items, (i: Item) => i.elapsedSeconds, k) == OverGroups(events, alias, Elapsed(), k, |events|)
  {
    if k > 0 {
      ItemsAddUp(items, events, alias, k - 1);
      assert ItemFits(items[k - 1], events, alias, k - 1, |events|);
    }
  }

  /** A summary's items account for every event, every token and every second exactly once. */
  lemma SummaryConserves(items: seq<Item>, events: seq<Event>, alias: Alias)
    requires ItemsFit(items, events, alias, |events|)
    ensures SumItems(items, (i: Item) => i.events, |items|) == Total(events, Count(), |events|)
    ensures SumItems(items, (i: Item) => i.tokens, |items|) == Total(events, Tokens(), |events|)
    ensures SumItems(items, (i: Item) => i.elapsedSeconds, |items|) == Total(events, Elapsed(), |events|)
  {
    ItemsAddUp(items, events, alias, |items|);
    GroupsConserve(events, alias, Count(), |items|, |events|);
    GroupsConserve(events, alias, Tokens(), |items|, |events|);
    GroupsConserve(events, alias, Elapsed(), |items|, |events|);
  }
}
