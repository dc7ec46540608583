/**
 What the generated-artifact guard denies, said of git's records and of paths rather than
 through the functions that compute it.
 */
module ArtifactGuard {
  import opened Basics
  import opened Text
  import opened GeneratedArtifacts

  // ----- Which path is judged, and by which pattern

  /** The name under which a record's file is tracked from now on, with forward slashes. */
  function TrackedPath(e: Entry): string {
    match e
    case Addition(_, path) => Replace(path, '\\', "/")
    case Rename(_, _, destination) => Replace(destination, '\\', "/")
  }

  ghost predicate Hits(pattern: string, path: string) {
    Glob(Normalized(pattern), path, false)
  }

  /** `pattern` is the first of the list that matches the path. */
  ghost predicate FirstHit(patterns: seq<string>, path: string, pattern: string) {
    exists i :: 0 <= i < |patterns| && patterns[i] == pattern && Hits(pattern, path)
                && forall j :: 0 <= j < i ==> !Hits(patterns[j], path)
  }

  ghost predicate AnyHit(patterns: seq<string>, path: string) {
    exists i :: 0 <= i < |patterns| && Hits(patterns[i], path)
  }

  /** The denied entries stand for the records `at`, in order: their tracked path, and the first
      pattern that matches it. A record is left out exactly if no pattern matches. */
  ghost predicate Denies(denied: seq<DeniedArtifact>, es: seq<Entry>, patterns: seq<string>, at: seq<nat>) {
    && |denied| == |at| && Increasing(at)
    && (forall j :: 0 <= j < |at| ==>
                      && at[j] < |es| && denied[j].path == TrackedPath(es[at[j]])
                      && FirstHit(patterns, denied[j].path, denied[j].pattern))
    && (forall i :: 0 <= i < |es| ==> (i in at <==> AnyHit(patterns, TrackedPath(es[i]))))
  }

  lemma {:induction false} VerdictMeans(patterns: seq<string>, e: Entry)
    ensures var v := Verdict(patterns, e);
            if AnyHit(patterns, TrackedPath(e))
            then |v| == 1 && v[0].path == TrackedPath(e) && FirstHit(patterns, v[0].path, v[0].pattern)
            else v == []
  {
    FirstMatchMeans(patterns, TrackedPath(e));
    if FirstMatch(patterns, TrackedPath(e)).Some? {
      var p := FirstMatch(patterns, TrackedPath(e)).value;
      assert FirstHit(patterns, TrackedPath(e), p);
    }
  }

  lemma {:induction false} VerdictsSnoc(patterns: seq<string>, es: seq<Entry>, e: Entry)
    ensures Verdicts(patterns, es + [e]) == Verdicts(patterns, es) + Verdict(patterns, e)
  {
    if es == [] {
      assert es + [e] == [e] && [e][1..] == [];
    } else {
      VerdictsSnoc(patterns, es[1..], e);
      assert (es + [e])[1..] == es[1..] + [e];
      Associative(Verdict(patterns, es[0]), Verdicts(patterns, es[1..]), Verdict(patterns, e));
    }
  }

  lemma DeniesOneMore(
    denied: seq<DeniedArtifact>, d: DeniedArtifact, es: seq<Entry>, patterns: seq<string>, at: seq<nat>, e: Entry)
    requires Denies(denied, es, patterns, at)
    requires d.path == TrackedPath(e) && FirstHit(patterns, d.path, d.pattern)
    ensures Denies(denied + [d], es + [e], patterns, at + [|es|])
  {
    var all, at' := es + [e], at + [|es|];
    assert all[|es|] == e && forall i :: 0 <= i < |es| ==> all[i] == es[i];
    assert AnyHit(patterns, TrackedPath(e));
    assert at'[|at|] == |es|;
    forall i | 0 <= i < |all|
      ensures i in at' <==> AnyHit(patterns, TrackedPath(all[i]))
    {
      assert i in at' <==> i in at || i == |es|;
    }
  }

  lemma DeniesNoMore(denied: seq<DeniedArtifact>, es: seq<Entry>, patterns: seq<string>, at: seq<nat>, e: Entry)
    requires Denies(denied, es, patterns, at) && !AnyHit(patterns, TrackedPath(e))
    ensures Denies(denied, es + [e], patterns, at)
  {
    var all := es + [e];
    assert all[|es|] == e && forall i :: 0 <= i < |es| ==> all[i] == es[i];
  }

  lemma DeniesNext(denied: seq<DeniedArtifact>, es: seq<Entry>, patterns: seq<string>, at: seq<nat>, e: Entry)
    returns (at': seq<nat>)
    requires Denies(denied, es, patterns, at)
    ensures Denies(denied + Verdict(patterns, e), es + [e], patterns, at')
  {
    var v := Verdict(patterns, e);
    VerdictMeans(patterns, e);
    if AnyHit(patterns, TrackedPath(e)) {
      at' := at + [|es|];
      assert v == [v[0]];
      DeniesOneMore(denied, v[0], es, patterns, at, e);
    } else {
      at' := at;
      assert denied + v == denied;
      DeniesNoMore(denied, es, patterns, at, e);
    }
  }

  lemma {:induction false} VerdictsMean(patterns: seq<string>, es: seq<Entry>) returns (at: seq<nat>)
    ensures Denies(Verdicts(patterns, es), es, patterns, at)
  {
    if es == [] {
      at := [];
    } else {
      var before, e := es[..|es| - 1], Last(es);
      at := VerdictsMean(patterns, before);
      VerdictsSnoc(patterns, before, e);
      assert es == before + [e];
      at := DeniesNext(Verdicts(patterns, before), before, patterns, at, e);
    }
  }

  /** On git's output for any records and any valid patterns, the guard denies exactly the records
      whose tracked path, the destination of a rename, matches a pattern. */
  lemma GuardDeniesExactly(es: seq<Entry>, patterns: seq<string>) returns (at: seq<nat>)
    requires forall i :: 0 <= i < |es| ==> GoodEntry(es[i])
    requires patterns != [] && forall i :: 0 <= i < |patterns| ==> Normalized(patterns[i]) != []
    ensures Denied(EncodeFields(AllFields(es)), patterns).Ok?
    ensures Denies(Denied(EncodeFields(AllFields(es)), patterns).value, es, patterns, at)
  {
    GuardSeesEveryRecord(es, patterns);
    at := VerdictsMean(patterns, es);
  }

  ghost predicate AnyBlank(patterns: seq<string>) {
    exists i :: 0 <= i < |patterns| && Trim(patterns[i]) == []
  }

  lemma BlankIff(patterns: seq<string>)
    ensures AnyBlank(patterns) <==> !ValidPatterns(patterns)
  {
    forall i | 0 <= i < |patterns|
      ensures Normalized(patterns[i]) == [] <==> Trim(patterns[i]) == []
    {
      SlashesAt(Trim(patterns[i]));
    }
  }

  /** Without patterns the guard is off; otherwise it fails exactly on a blank pattern or when the
      fields of the output are not those of a list of whole records. */
  lemma GuardFailsIff(output: string, patterns: seq<string>)
    ensures patterns == [] ==> Denied(output, patterns) == Ok([])
    ensures Denied(output, patterns).Err?
            <==> patterns != [] && (AnyBlank(patterns) || !HoldsRecords(SplitFields(output)))
  {
    BlankIff(patterns);
    ReadsIff(SplitFields(output));
  }

  /** The fields of these records, where exactly the renames have a status that starts with R. */
  ghost predicate WholeRecords(es: seq<Entry>, fs: seq<string>) {
    AllFields(es) == fs && forall i :: 0 <= i < |es| ==> (es[i].Rename? <==> "R" <= es[i].status)
  }

  ghost predicate HoldsRecords(fs: seq<string>) {
    exists es :: WholeRecords(es, fs)
  }

  lemma {:induction false} ReadsIff(fs: seq<string>)
    ensures ReadEntries(fs).Ok? <==> HoldsRecords(fs)
  {
    if ReadEntries(fs).Ok? {
      ReadingIsExact(fs);
      ReadStatuses(fs);
      assert WholeRecords(ReadEntries(fs).value, fs);
    } else if es :| WholeRecords(es, fs) {
      WholeRecordsRead(es, fs);
    }
  }

  lemma {:induction false} ReadStatuses(fs: seq<string>)
    requires ReadEntries(fs).Ok?
    ensures var es := ReadEntries(fs).value;
            forall i :: 0 <= i < |es| ==> (es[i].Rename? <==> "R" <= es[i].status)
    decreases |fs|
  {
    if fs != [] {
      var e, used := FirstRecord(fs);
      ReadStatuses(fs[used..]);
      assert Fields(e)[0] == fs[0];
      var rest := ReadEntries(fs[used..]).value;
      assert ReadEntries(fs).value[0] == e;
      assert forall i :: 1 <= i <= |rest| ==> ([e] + rest)[i] == rest[i - 1];
    }
  }

  lemma {:induction false} WholeRecordsRead(es: seq<Entry>, fs: seq<string>)
    requires WholeRecords(es, fs)
    ensures ReadEntries(fs).Ok?
    decreases |es|
  {
    if es != [] {
      var here, rest := Fields(es[0]), AllFields(es[1..]);
      assert fs == here + rest && fs[|here|..] == rest && fs[0] == es[0].status;
      assert WholeRecords(es[1..], rest);
      WholeRecordsRead(es[1..], rest);
    }
  }

  /** Only backslashes change, each into one slash. */
  lemma {:induction false} SlashesAt(s: string)
    ensures var r := Replace(s, '\\', "/");
            |r| == |s| && forall i :: 0 <= i < |s| ==> r[i] == if s[i] == '\\' then '/' else s[i]
  {
    if s != [] {
      SlashesAt(s[1..]);
    }
  }

  /** A pattern is read without the whitespace around it and with forward slashes. */
  lemma NormalizedIs(pattern: string)
    ensures var t, n := Trim(pattern), Normalized(pattern);
            |n| == |t| && forall i :: 0 <= i < |t| ==> n[i] == if t[i] == '\\' then '/' else t[i]
  {
    SlashesAt(Trim(pattern));
  }

  // ----- Pattern shapes

  predicate Plain(p: string) {
    '*' !in p && '?' !in p
  }

  lemma {:induction false} PlainGlob(p: string, s: string)
    requires Plain(p)
    ensures Glob(p, s, true) <==> s == p
  {
    if p != [] {
      assert p[0] in p;
      assert Plain(p[1..]);
      if s != [] {
        PlainGlob(p[1..], s[1..]);
        assert s == [s[0]] + s[1..] && p == [p[0]] + p[1..];
      }
    }
  }

  /** A pattern without wildcards accepts itself and nothing else. */
  lemma PlainPattern(p: string, s: string)
    requires Plain(p) && '\n' !in s
    ensures Accepts(Compiled(p), s) <==> s == p
  {
    CompilerExact(p, s);
    NewlineFree(p, s);
    PlainGlob(p, s);
  }

  /** A question mark stands for one character that is not a slash. */
  lemma QuestionMark(s: string)
    ensures Accepts(Compiled("?"), s) <==> |s| == 1 && s[0] != '/'
  {
    CompilerExact("?", s);
    assert "?"[1..] == [] && "?"[0] == '?';
    assert s != [] ==> (Glob([], s[1..], false) <==> |s| == 1);
  }

  predicate EndsWith(s: string, suffix: string) {
    |suffix| <= |s| && s[|s| - |suffix|..] == suffix
  }

  lemma InLastSegment(suffix: string, p: string, s: string)
    requires p == "*" + suffix && Plain(suffix) && (suffix == [] || suffix[0] != '*')
    ensures Glob(p, s, true) <==> EndsWith(s, suffix) && '/' !in s[..|s| - |suffix|]
  {
    assert p[0] == '*' && p[1..] == suffix;
    assert !("**" <= p) by {
      assert |p| > 1 ==> p[1] == suffix[0];
    }
    forall k | 0 <= k <= |s|
      ensures Glob(suffix, s[k..], true) <==> s[k..] == suffix
    {
      PlainGlob(suffix, s[k..]);
    }
    if EndsWith(s, suffix) && '/' !in s[..|s| - |suffix|] {
      var k := |s| - |suffix|;
      assert Glob(p[1..], s[k..], true);
    }
    if Glob(p, s, true) {
      var k :| 0 <= k <= |s| && '/' !in s[..k] && Glob(p[1..], s[k..], true);
      assert s[k..] == suffix && k == |s| - |suffix|;
    }
  }

  lemma {:induction false} LastSlash(s: string) returns (k: nat)
    ensures k <= |s| && (k == 0 || s[k - 1] == '/') && '/' !in s[k..]
  {
    k := |s|;
    if s != [] && Last(s) != '/' {
      k := LastSlash(s[..|s| - 1]);
      assert s[k..] == s[..|s| - 1][k..] + [Last(s)];
    }
  }

  lemma SuffixIsFound(suffix: string, p: string, s: string)
    requires Plain(suffix) && '/' !in suffix && "**/" <= p && p[3..] == "*" + suffix && EndsWith(s, suffix)
    ensures Glob(p, s, true)
  {
    var n := |s| - |suffix|;
    var k := LastSlash(s[..n]);
    var t := s[k..];
    assert t[..|t| - |suffix|] == s[..n][k..] && t[|t| - |suffix|..] == s[n..];
    assert suffix != [] ==> suffix[0] in suffix;
    InLastSegment(suffix, p[3..], t);
    if k == 0 {
      assert t == s;
    } else {
      assert s[k - 1] == s[..n][k - 1] && s[k - 1 + 1..] == t && Crossable(s[..k - 1], true);
    }
  }

  lemma FoundIsSuffix(suffix: string, p: string, s: string)
    requires Plain(suffix) && "**/" <= p && p[3..] == "*" + suffix && Glob(p, s, true)
    ensures EndsWith(s, suffix)
  {
    assert suffix != [] ==> suffix[0] in suffix;
    if Glob(p[3..], s, true) {
      InLastSegment(suffix, p[3..], s);
    } else {
      var k :| 0 <= k < |s| && s[k] == '/' && Crossable(s[..k], true) && Glob(p[3..], s[k + 1..], true);
      var t := s[k + 1..];
      InLastSegment(suffix, p[3..], t);
      assert t[|t| - |suffix|..] == s[|s| - |suffix|..];
    }
  }

  /** The default shape for a file suffix accepts a path iff the path ends in the suffix. */
  lemma SuffixPattern(suffix: string, p: string, s: string)
    requires Plain(suffix) && '/' !in suffix && '\n' !in s && p == "**/" + ("*" + suffix)
    ensures Accepts(Compiled(p), s) <==> EndsWith(s, suffix)
  {
    CompilerExact(p, s);
    NewlineFree(p, s);
    assert "**/" <= p && p[3..] == "*" + suffix;
    if EndsWith(s, suffix) {
      SuffixIsFound(suffix, p, s);
    }
    if Glob(p, s, true) {
      FoundIsSuffix(suffix, p, s);
    }
  }
}
