/**
 The generated-artifact guard (src/generated_artifacts.rs): a glob language compiled to
 regular expressions, and a reader of NUL-separated `git diff --name-status -z` records.
 The expression is kept as a syntax tree with its own meaning.
 */
module GeneratedArtifacts {
  import opened Basics
  import opened Text

  // ----- Regular expressions

  /** `Dot` is `.`, which does not match a newline; `NotSlash` is `[^/]`, which does. */
  datatype Regex =
    | Lit(c: char)
    | Dot
    | NotSlash
    | Star(body: Regex)
    | Opt(body: Regex)
    | Cat(first: Regex, second: Regex)

  predicate Matches(r: Regex, s: string)
    decreases r, |s|
  {
    match r
    case Lit(c) => s == [c]
    case Dot => |s| == 1 && s[0] != '\n'
    case NotSlash => |s| == 1 && s[0] != '/'
    case Star(body) =>
      s == [] || exists k | 1 <= k <= |s| :: Matches(body, s[..k]) && Matches(r, s[k..])
    case Opt(body) => s == [] || Matches(body, s)
    case Cat(first, second) =>
      exists k | 0 <= k <= |s| :: Matches(first, s[..k]) && Matches(second, s[k..])
  }

  /** An anchored expression `^...$`: the pieces match the whole text in order. */
  predicate Accepts(rs: seq<Regex>, s: string) {
    if rs == [] then s == []
    else exists k | 0 <= k <= |s| :: Matches(rs[0], s[..k]) && Accepts(rs[1..], s[k..])
  }

  // ----- Globs, independently of regular expressions

  /** What `**` may run over. With `anyChar` false it stops at newlines, as `.` does. */
  predicate Crossable(t: string, anyChar: bool) {
    anyChar || '\n' !in t
  }

  predicate Glob(p: string, s: string, anyChar: bool)
    decreases |p|
  {
    if p == [] then s == []
    else if "**/" <= p then
      // no directory at all, or everything up to and including some slash
      Glob(p[3..], s, anyChar)
      || exists k | 0 <= k < |s| :: s[k] == '/' && Crossable(s[..k], anyChar) && Glob(p[3..], s[k + 1..], anyChar)
    else if "**" <= p then
      exists k | 0 <= k <= |s| :: Crossable(s[..k], anyChar) && Glob(p[2..], s[k..], anyChar)
    else if p[0] == '*' then
      exists k | 0 <= k <= |s| :: '/' !in s[..k] && Glob(p[1..], s[k..], anyChar)
    else if p[0] == '?' then s != [] && s[0] != '/' && Glob(p[1..], s[1..], anyChar)
    else s != [] && s[0] == p[0] && Glob(p[1..], s[1..], anyChar)
  }

  // ----- The compiler

  const ANY_DIRS := Opt(Cat(Star(Dot), Lit('/')))
  const ANYTHING := Star(Dot)
  const IN_SEGMENT := Star(NotSlash)

  function Normalized(pattern: string): string {
    Replace(Trim(pattern), '\\', "/")
  }

  /** One token of the pattern: the expression it emits and how much it consumes. */
  function Token(p: string): (t: (Regex, nat))
    requires p != []
    ensures 1 <= t.1 <= |p|
  {
    if p[0] == '*' && |p| > 1 && p[1] == '*' then
      if |p| > 2 && p[2] == '/' then (ANY_DIRS, 3) else (ANYTHING, 2)
    else if p[0] == '*' then (IN_SEGMENT, 1)
    else if p[0] == '?' then (NotSlash, 1)
    else (Lit(p[0]), 1)
  }

  function Compiled(p: string): seq<Regex> {
    if p == [] then [] else [Token(p).0] + Compiled(p[Token(p).1..])
  }

  method GlobRegex(pattern: string) returns (r: Result<seq<Regex>>)
    ensures r == if Normalized(pattern) == [] then Err("pattern is empty") else Ok(Compiled(Normalized(pattern)))
  {
    var chars := Normalized(pattern);
    if chars == [] {
      return Err("pattern is empty");
    }
    var expression: seq<Regex> := [];
    var index := 0;
    while index < |chars|
      invariant index <= |chars|
      invariant expression + Compiled(chars[index..]) == Compiled(chars)
    {
      CompiledFrom(chars, index, expression);
      if chars[index] == '*' && index + 1 < |chars| && chars[index + 1] == '*' {
        index := index + 2;
        if index < |chars| && chars[index] == '/' {
          expression := expression + [ANY_DIRS];
          index := index + 1;
        } else {
          expression := expression + [ANYTHING];
        }
      } else if chars[index] == '*' {
        expression := expression + [IN_SEGMENT];
        index := index + 1;
      } else if chars[index] == '?' {
        expression := expression + [NotSlash];
        index := index + 1;
      } else {
        expression := expression + [Lit(chars[index])];
        index := index + 1;
      }
    }
    assert chars[index..] == [] && expression + [] == expression;
    return Ok(expression);
  }

  lemma CompiledFrom(chars: string, index: nat, before: seq<Regex>)
    requires index < |chars|
    ensures var (piece, used) := Token(chars[index..]);
            && index + used <= |chars|
            && before + Compiled(chars[index..]) == (before + [piece]) + Compiled(chars[index + used..])
  {
    var (piece, used) := Token(chars[index..]);
    assert chars[index..][used..] == chars[index + used..];
    Associative(before, [piece], Compiled(chars[index + used..]));
  }

  // ----- What each emitted piece means

  lemma {:induction false} AnythingMeans(s: string)
    ensures Matches(ANYTHING, s) <==> '\n' !in s
    decreases |s|
  {
    if s != [] {
      AnythingMeans(s[1..]);
      assert s == s[..1] + s[1..];
      if Matches(ANYTHING, s) {
        var k :| 1 <= k <= |s| && Matches(Dot, s[..k]) && Matches(ANYTHING, s[k..]);
        assert k == 1;
      }
      if '\n' !in s {
        assert Matches(Dot, s[..1]) && Matches(ANYTHING, s[1..]);
      }
    }
  }

  lemma {:induction false} InSegmentMeans(s: string)
    ensures Matches(IN_SEGMENT, s) <==> '/' !in s
    decreases |s|
  {
    if s != [] {
      InSegmentMeans(s[1..]);
      assert s == s[..1] + s[1..];
      if Matches(IN_SEGMENT, s) {
        var k :| 1 <= k <= |s| && Matches(NotSlash, s[..k]) && Matches(IN_SEGMENT, s[k..]);
        assert k == 1;
      }
      if '/' !in s {
        assert Matches(NotSlash, s[..1]) && Matches(IN_SEGMENT, s[1..]);
      }
    }
  }

  lemma {:induction false} AnyDirsMeans(s: string)
    ensures Matches(ANY_DIRS, s) <==> s == [] || (Last(s) == '/' && '\n' !in s[..|s| - 1])
  {
    var dirs := Cat(Star(Dot), Lit('/'));
    if s != [] {
      var n := |s| - 1;
      AnythingMeans(s[..n]);
      if Matches(dirs, s) {
        var k :| 0 <= k <= |s| && Matches(ANYTHING, s[..k]) && Matches(Lit('/'), s[k..]);
        assert k == n;
        assert s[k..][0] == Last(s);
      }
      if Last(s) == '/' && '\n' !in s[..n] {
        assert s[n..] == ['/'];
        assert Matches(ANYTHING, s[..n]) && Matches(Lit('/'), s[n..]);
      }
    }
  }

  // ----- The compiler preserves meaning

  /** The first piece takes some prefix and the rest takes what is left. */
  ghost predicate SplitAt(r: Regex, rest: seq<Regex>, s: string, k: nat)
    requires k <= |s|
  {
    Matches(r, s[..k]) && Accepts(rest, s[k..])
  }

  lemma {:induction false} AcceptsCons(r: Regex, rest: seq<Regex>, s: string)
    ensures Accepts([r] + rest, s) <==> exists k :: 0 <= k <= |s| && SplitAt(r, rest, s, k)
  {
    assert ([r] + rest)[1..] == rest;
    if Accepts([r] + rest, s) {
      var k :| 0 <= k <= |s| && Matches(r, s[..k]) && Accepts(rest, s[k..]);
      assert SplitAt(r, rest, s, k);
    }
    if k :| 0 <= k <= |s| && SplitAt(r, rest, s, k) {
      assert Matches(r, s[..k]) && Accepts(rest, s[k..]);
    }
  }

  lemma {:induction false} AnyDirsSplit(s: string, k: nat)
    requires k <= |s|
    ensures Matches(ANY_DIRS, s[..k]) <==> k == 0 || (s[k - 1] == '/' && '\n' !in s[..k - 1])
  {
    AnyDirsMeans(s[..k]);
    if k > 0 {
      assert s[..k][..k - 1] == s[..k - 1];
    }
  }

  lemma {:induction false} AnyDirsForward(p: string, s: string)
    requires "**/" <= p
    requires forall k :: 0 <= k <= |s| ==> (Accepts(Compiled(p[3..]), s[k..]) <==> Glob(p[3..], s[k..], false))
    requires Accepts(Compiled(p), s)
    ensures Glob(p, s, false)
  {
    var rest := Compiled(p[3..]);
    AcceptsCons(ANY_DIRS, rest, s);
    assert s[0..] == s;
    var k :| 0 <= k <= |s| && SplitAt(ANY_DIRS, rest, s, k);
    AnyDirsSplit(s, k);
    if k > 0 {
      var j := k - 1;
      assert s[j] == '/' && Crossable(s[..j], false) && Glob(p[3..], s[j + 1..], false);
    }
  }

  lemma {:induction false} AnyDirsBackward(p: string, s: string)
    requires "**/" <= p
    requires forall k :: 0 <= k <= |s| ==> (Accepts(Compiled(p[3..]), s[k..]) <==> Glob(p[3..], s[k..], false))
    requires Glob(p, s, false)
    ensures Accepts(Compiled(p), s)
  {
    var rest := Compiled(p[3..]);
    assert Token(p) == (ANY_DIRS, 3) && Compiled(p) == [ANY_DIRS] + rest;
    AcceptsCons(ANY_DIRS, rest, s);
    assert s[0..] == s;
    if Glob(p[3..], s, false) {
      AnyDirsSplit(s, 0);
      assert SplitAt(ANY_DIRS, rest, s, 0);
    } else {
      var j :| 0 <= j < |s| && s[j] == '/' && Crossable(s[..j], false) && Glob(p[3..], s[j + 1..], false);
      AnyDirsSplit(s, j + 1);
      assert SplitAt(ANY_DIRS, rest, s, j + 1);
    }
  }

  lemma {:induction false} AnythingStep(p: string, s: string)
    requires "**" <= p && !("**/" <= p)
    requires forall k :: 0 <= k <= |s| ==> (Accepts(Compiled(p[2..]), s[k..]) <==> Glob(p[2..], s[k..], false))
    ensures Accepts(Compiled(p), s) <==> Glob(p, s, false)
  {
    var rest := Compiled(p[2..]);
    AcceptsCons(ANYTHING, rest, s);
    forall k | 0 <= k <= |s|
      ensures SplitAt(ANYTHING, rest, s, k) <==> Crossable(s[..k], false) && Glob(p[2..], s[k..], false)
    {
      AnythingMeans(s[..k]);
    }
  }

  lemma {:induction false} InSegmentStep(p: string, s: string)
    requires p != [] && p[0] == '*' && !("**" <= p)
    requires forall k :: 0 <= k <= |s| ==> (Accepts(Compiled(p[1..]), s[k..]) <==> Glob(p[1..], s[k..], false))
    ensures Accepts(Compiled(p), s) <==> Glob(p, s, false)
  {
    var rest := Compiled(p[1..]);
    AcceptsCons(IN_SEGMENT, rest, s);
    forall k | 0 <= k <= |s|
      ensures SplitAt(IN_SEGMENT, rest, s, k) <==> '/' !in s[..k] && Glob(p[1..], s[k..], false)
    {
      InSegmentMeans(s[..k]);
    }
  }

  lemma {:induction false} OneCharStep(p: string, s: string)
    requires p != [] && p[0] != '*'
    requires forall k :: 0 <= k <= |s| ==> (Accepts(Compiled(p[1..]), s[k..]) <==> Glob(p[1..], s[k..], false))
    ensures Accepts(Compiled(p), s) <==> Glob(p, s, false)
  {
    var r, rest := Token(p).0, Compiled(p[1..]);
    AcceptsCons(r, rest, s);
    forall k | 0 <= k <= |s|
      ensures SplitAt(r, rest, s, k) ==> k == 1
    {
    }
    if s != [] {
      assert SplitAt(r, rest, s, 1) <==> Matches(r, s[..1]) && Glob(p[1..], s[1..], false);
    }
  }

  /** For every pattern and every path, newlines included, the emitted expression accepts
      exactly what the glob means when `**` does not cross newlines. */
  lemma {:induction false} CompilerExact(p: string, s: string)
    ensures Accepts(Compiled(p), s) <==> Glob(p, s, false)
    decreases |p|
  {
    if p != [] {
      var used := Token(p).1;
      forall k | 0 <= k <= |s|
        ensures Accepts(Compiled(p[used..]), s[k..]) <==> Glob(p[used..], s[k..], false)
      {
        CompilerExact(p[used..], s[k..]);
      }
      if "**/" <= p {
        if Glob(p, s, false) {
          AnyDirsBackward(p, s);
        }
        if Accepts(Compiled(p), s) {
          AnyDirsForward(p, s);
        }
      } else if "**" <= p {
        AnythingStep(p, s);
      } else if p[0] == '*' {
        InSegmentStep(p, s);
      } else {
        OneCharStep(p, s);
      }
    }
  }

  lemma {:induction false} NewlineFree(p: string, s: string)
    requires '\n' !in s
    ensures Glob(p, s, false) <==> Glob(p, s, true)
    decreases |p|
  {
    if p != [] {
      var used := Token(p).1;
      forall k | 0 <= k <= |s|
        ensures Crossable(s[..k], false)
        ensures Glob(p[used..], s[k..], false) <==> Glob(p[used..], s[k..], true)
      {
        NewlineFree(p[used..], s[k..]);
      }
      assert s[0..] == s;
    }
  }

  /** The compiled patterns agree with the plain glob meaning on a path for all patterns
      exactly when the path has no newline: a newline hides a path from `**`. */
  lemma CompilerPreservesMeaningIff(s: string)
    ensures (forall p :: Accepts(Compiled(p), s) <==> Glob(p, s, true)) <==> '\n' !in s
  {
    if '\n' !in s {
      forall p
        ensures Accepts(Compiled(p), s) <==> Glob(p, s, true)
      {
        CompilerExact(p, s);
        NewlineFree(p, s);
      }
    } else {
      CompilerExact("**", s);
      EverythingGlob(s, true);
      EverythingGlob(s, false);
    }
  }

  // ----- Directory patterns

  predicate PlainSegment(seg: string) {
    forall i :: 0 <= i < |seg| ==> seg[i] !in {'*', '?', '/', '\\'}
  }

  function SlashIn(s: string): (k: nat)
    ensures k <= |s|
    ensures forall i :: 0 <= i < k ==> s[i] != '/'
    ensures k < |s| ==> s[k] == '/'
  {
    if s == [] || s[0] == '/' then 0 else 1 + SlashIn(s[1..])
  }

  /** The path cut at every slash. */
  function Components(s: string): (cs: seq<string>)
    ensures cs != []
  {
    var k := SlashIn(s);
    if k == |s| then [s] else [s[..k]] + Components(s[k + 1..])
  }

  ghost predicate HasDirectory(s: string, seg: string) {
    exists i :: 0 <= i < |Components(s)| - 1 && Components(s)[i] == seg
  }

  lemma {:induction false} HasDirectoryStep(s: string, seg: string)
    ensures var k := SlashIn(s);
            HasDirectory(s, seg) <==> k < |s| && (s[..k] == seg || HasDirectory(s[k + 1..], seg))
  {
    var k := SlashIn(s);
    if k < |s| {
      var rest, all := Components(s[k + 1..]), Components(s);
      assert all == [s[..k]] + rest;
      if i :| 0 <= i < |rest| - 1 && rest[i] == seg {
        assert all[i + 1] == seg;
      }
      if i :| 0 <= i < |all| - 1 && all[i] == seg {
        assert i > 0 ==> rest[i - 1] == seg;
      }
      assert all[0] == s[..k];
    }
  }

  lemma LeadingSlash(s: string, seg: string)
    requires PlainSegment(seg) && seg + "/" <= s
    ensures SlashIn(s) == |seg| && s[..|seg|] == seg
  {
    var w, n := seg + "/", SlashIn(s);
    assert s[|seg|] == w[|seg|] == '/';
    assert forall i :: 0 <= i < |seg| ==> s[i] == w[i] == seg[i];
  }

  lemma FirstComponent(s: string, n: nat)
    requires n < |s| && s[n] == '/'
    ensures s[..n] + "/" <= s
  {
    assert s[..n + 1] == s[..n] + [s[n]];
  }

  lemma LeadingSegment(s: string, seg: string)
    requires PlainSegment(seg)
    ensures seg + "/" <= s <==> SlashIn(s) < |s| && s[..SlashIn(s)] == seg
  {
    var n := SlashIn(s);
    if seg + "/" <= s {
      LeadingSlash(s, seg);
    }
    if n < |s| && s[..n] == seg {
      FirstComponent(s, n);
    }
  }

  /** `seg/` right after some slash, or at the start, makes it a directory of the path. */
  lemma {:induction false} SegmentIsDirectory(s: string, seg: string, k: nat)
    requires PlainSegment(seg) && k <= |s| && (k == 0 || s[k - 1] == '/') && seg + "/" <= s[k..]
    ensures HasDirectory(s, seg)
    decreases |s|
  {
    var n := SlashIn(s);
    HasDirectoryStep(s, seg);
    if k == 0 {
      assert s[0..] == s;
      LeadingSegment(s, seg);
    } else {
      assert s[n + 1..][k - n - 1..] == s[k..];
      SegmentIsDirectory(s[n + 1..], seg, k - n - 1);
    }
  }

  lemma {:induction false} DirectoryIsSegment(s: string, seg: string) returns (k: nat)
    requires PlainSegment(seg) && HasDirectory(s, seg)
    ensures k <= |s| && (k == 0 || s[k - 1] == '/') && seg + "/" <= s[k..]
    decreases |s|
  {
    var n := SlashIn(s);
    HasDirectoryStep(s, seg);
    if s[..n] == seg {
      LeadingSegment(s, seg);
      assert s[0..] == s;
      k := 0;
    } else {
      var j := DirectoryIsSegment(s[n + 1..], seg);
      k := n + 1 + j;
      assert s[n + 1..][j..] == s[k..];
    }
  }

  lemma {:induction false} LiteralRun(seg: string, p: string, s: string, anyChar: bool)
    requires PlainSegment(seg)
    ensures Glob(seg + p, s, anyChar) <==> seg <= s && Glob(p, s[|seg|..], anyChar)
    decreases |seg|
  {
    if seg == [] {
      assert seg + p == p && s[0..] == s;
    } else {
      assert (seg + p)[1..] == seg[1..] + p && (seg + p)[0] == seg[0];
      if s != [] && s[0] == seg[0] {
        LiteralRun(seg[1..], p, s[1..], anyChar);
        assert seg == [seg[0]] + seg[1..] && s == [s[0]] + s[1..];
        assert seg <= s <==> seg[1..] <= s[1..];
        assert seg <= s ==> s[|seg|..] == s[1..][|seg| - 1..];
      }
    }
  }

  lemma EverythingGlob(s: string, anyChar: bool)
    ensures Glob("**", s, anyChar) <==> Crossable(s, anyChar)
  {
    assert "**"[2..] == [] && s[|s|..] == [] && s[..|s|] == s;
    assert Glob([], s[|s|..], anyChar);
    assert forall k :: 0 <= k < |s| ==> !Glob([], s[k..], anyChar);
  }

  lemma SlashThenEverything(p: string, s: string, anyChar: bool)
    requires p == "/**"
    ensures Glob(p, s, anyChar) <==> s != [] && s[0] == '/' && Crossable(s[1..], anyChar)
  {
    assert p[0] == '/' && p[1..] == "**";
    if s != [] {
      EverythingGlob(s[1..], anyChar);
    }
  }

  lemma DirectoryTail(seg: string, s: string, anyChar: bool)
    requires PlainSegment(seg)
    ensures Glob(seg + "/**", s, anyChar) <==> seg + "/" <= s && Crossable(s[|seg| + 1..], anyChar)
  {
    LiteralRun(seg, "/**", s, anyChar);
    if seg <= s {
      var t := s[|seg|..];
      SlashThenEverything("/**", t, anyChar);
      assert s == seg + t;
      if t != [] && t[0] == '/' {
        assert s[..|seg| + 1] == seg + "/" && s[|seg| + 1..] == t[1..];
      }
    }
  }

  lemma NoNewlineInParts(s: string, k: nat)
    requires k < |s| && s[k] == '/' && '\n' !in s[..k] && '\n' !in s[k + 1..]
    ensures '\n' !in s
  {
    forall i | 0 <= i < |s|
      ensures s[i] != '\n'
    {
      assert i < k ==> s[..k][i] == s[i];
      assert i > k ==> s[k + 1..][i - k - 1] == s[i];
    }
  }

  /** Nothing in such a pattern matches a newline. */
  lemma TailHasNoNewline(seg: string, s: string)
    requires PlainSegment(seg) && '\n' !in seg && Glob(seg + "/**", s, false)
    ensures '\n' !in s
  {
    DirectoryTail(seg, s, false);
    assert s[|seg|] == (seg + "/")[|seg|] == '/' && s[..|seg|] == (seg + "/")[..|seg|] == seg;
    NoNewlineInParts(s, |seg|);
  }

  lemma DirectoryHasNoNewline(seg: string, p: string, s: string)
    requires PlainSegment(seg) && '\n' !in seg
    requires "**/" <= p && p[3..] == seg + "/**" && Glob(p, s, false)
    ensures '\n' !in s
  {
    if Glob(p[3..], s, false) {
      TailHasNoNewline(seg, s);
    } else {
      var k :| 0 <= k < |s| && s[k] == '/' && Crossable(s[..k], false) && Glob(p[3..], s[k + 1..], false);
      TailHasNoNewline(seg, s[k + 1..]);
      NoNewlineInParts(s, k);
    }
  }

  lemma PlainDirectoryGlob(seg: string, s: string)
    requires PlainSegment(seg)
    ensures Glob("**/" + seg + "/**", s, true) <==> HasDirectory(s, seg)
  {
    var p := "**/" + seg + "/**";
    assert "**/" <= p && p[3..] == seg + "/**" && s[0..] == s;
    if HasDirectory(s, seg) {
      var k := DirectoryIsSegment(s, seg);
      DirectoryTail(seg, s[k..], true);
      assert k > 0 ==> s[k - 1] == '/' && Glob(p[3..], s[k - 1 + 1..], true) && Crossable(s[..k - 1], true);
    }
    if Glob(p[3..], s, true) {
      DirectoryTail(seg, s, true);
      SegmentIsDirectory(s, seg, 0);
    } else if k :| 0 <= k < |s| && s[k] == '/' && Glob(p[3..], s[k + 1..], true) {
      DirectoryTail(seg, s[k + 1..], true);
      SegmentIsDirectory(s, seg, k + 1);
    }
  }

  // The pattern for a directory name accepts a path exactly when the path is free of newlines
  // and some component other than the last is that name.
  lemma DirectoryPattern(seg: string, s: string)
    requires PlainSegment(seg) && ('\n' !in seg || '\n' !in s)
    ensures Accepts(Compiled("**/" + seg + "/**"), s) <==> '\n' !in s && HasDirectory(s, seg)
  {
    var p := "**/" + seg + "/**";
    CompilerExact(p, s);
    if '\n' !in s {
      NewlineFree(p, s);
      PlainDirectoryGlob(seg, s);
    } else if Glob(p, s, false) {
      assert "**/" <= p && p[3..] == seg + "/**";
      DirectoryHasNoNewline(seg, p, s);
    }
  }

  lemma {:induction false} ReplaceNothing(s: string, c: char, replacement: string)
    requires c !in s
    ensures Replace(s, c, replacement) == s
  {
    if s != [] {
      ReplaceNothing(s[1..], c, replacement);
    }
  }

  /** Such a pattern is compiled as it is written. */
  lemma DirectoryPatternNormalized(seg: string)
    requires PlainSegment(seg)
    ensures var p := "**/" + seg + "/**"; Normalized(p) == p
  {
    var p := "**/" + seg + "/**";
    assert p[0] == '*' && Last(p) == '*';
    assert TrimStart(p) == p && TrimEnd(p) == p;
    assert '\\' !in "**/" && '\\' !in "/**" && '\\' !in seg;
    ReplaceNothing(p, '\\', "/");
  }

  // ----- Reading the index difference

  /** One `--name-status -z` record: a status and a path, or a status and two paths. */
  datatype Entry =
    | Addition(status: string, path: string)
    | Rename(status: string, source: string, destination: string)

  function NewPath(e: Entry): string {
    if e.Addition? then e.path else e.destination
  }

  predicate IsRename(status: string) {
    status != [] && status[0] == 'R'
  }

  function Fields(e: Entry): seq<string> {
    if e.Addition? then [e.status, e.path] else [e.status, e.source, e.destination]
  }

  predicate GoodField(f: string) {
    f != [] && '\0' !in f
  }

  /** What git writes: non-empty NUL-free fields, renames marked with an `R` status. */
  predicate GoodEntry(e: Entry) {
    && GoodField(e.status) && GoodField(NewPath(e))
    && (e.Rename? ==> GoodField(e.source))
    && (e.Rename? <==> IsRename(e.status))
  }

  function EncodeFields(fs: seq<string>): string {
    if fs == [] then [] else fs[0] + "\0" + EncodeFields(fs[1..])
  }

  function AllFields(es: seq<Entry>): seq<string> {
    if es == [] then [] else Fields(es[0]) + AllFields(es[1..])
  }

  function NulIn(s: string): (k: nat)
    ensures k <= |s|
    ensures forall i :: 0 <= i < k ==> s[i] != '\0'
    ensures k < |s| ==> s[k] == '\0'
  {
    if s == [] || s[0] == '\0' then 0 else 1 + NulIn(s[1..])
  }

  /** Split at NUL bytes and drop empty fields. */
  function SplitFields(s: string): seq<string> {
    var k := NulIn(s);
    (if k == 0 then [] else [s[..k]]) + (if k == |s| then [] else SplitFields(s[k + 1..]))
  }

  /** The records in order, or nothing if the fields run out inside one. */
  function ReadEntries(fs: seq<string>): Result<seq<Entry>> {
    if fs == [] then Ok([])
    else if IsRename(fs[0]) then
      if |fs| < 3 then Err("malformed git rename record while checking generated artifacts")
      else
        match ReadEntries(fs[3..])
        case Err(m) => Err(m)
        case Ok(es) => Ok([Rename(fs[0], fs[1], fs[2])] + es)
    else
      if |fs| < 2 then Err("malformed git add record while checking generated artifacts")
      else
        match ReadEntries(fs[2..])
        case Err(m) => Err(m)
        case Ok(es) => Ok([Addition(fs[0], fs[1])] + es)
  }

  datatype DeniedArtifact = DeniedArtifact(path: string, pattern: string)

  /** The first pattern whose expression accepts the path. */
  function FirstMatch(patterns: seq<string>, path: string): Option<string> {
    if patterns == [] then None
    else if Accepts(Compiled(Normalized(patterns[0])), path) then Some(patterns[0])
    else FirstMatch(patterns[1..], path)
  }

  function Verdict(patterns: seq<string>, e: Entry): seq<DeniedArtifact> {
    var path := Replace(NewPath(e), '\\', "/");
    match FirstMatch(patterns, path)
    case None => []
    case Some(p) => [DeniedArtifact(path, p)]
  }

  function Verdicts(patterns: seq<string>, es: seq<Entry>): seq<DeniedArtifact> {
    if es == [] then [] else Verdict(patterns, es[0]) + Verdicts(patterns, es[1..])
  }

  predicate ValidPatterns(patterns: seq<string>) {
    forall i :: 0 <= i < |patterns| ==> Normalized(patterns[i]) != []
  }

  /** The guard's whole answer for one `git diff` output. */
  function Denied(output: string, patterns: seq<string>): Result<seq<DeniedArtifact>> {
    if patterns == [] then Ok([])
    else if !ValidPatterns(patterns) then Err("invalid generated-artifact deny pattern")
    else
      match ReadEntries(SplitFields(output))
      case Err(m) => Err(m)
      case Ok(es) => Ok(Verdicts(patterns, es))
  }

  method DeniedIndexAdditions(output: string, patterns: seq<string>) returns (r: Result<seq<DeniedArtifact>>)
    ensures r == Denied(output, patterns)
  {
    if patterns == [] {
      return Ok([]);
    }
    var compiled: seq<(string, seq<Regex>)> := [];
    for i := 0 to |patterns|
      invariant CompiledPairs(compiled, patterns[..i])
    {
      var regex := GlobRegex(patterns[i]);
      if regex.Err? {
        assert Normalized(patterns[i]) == [];
        return Err("invalid generated-artifact deny pattern");
      }
      assert patterns[..i + 1] == patterns[..i] + [patterns[i]];
      compiled := compiled + [(patterns[i], regex.value)];
    }
    assert patterns[..|patterns|] == patterns;
    assert ValidPatterns(patterns);
    r := ReadDenied(SplitFields(output), patterns, compiled);
    if r.Ok? {
      var es := ReadEntries(SplitFields(output)).value;
      assert [] + Verdicts(patterns, es) == Verdicts(patterns, es);
    }
  }

  ghost predicate CompiledPairs(compiled: seq<(string, seq<Regex>)>, patterns: seq<string>) {
    && |compiled| == |patterns|
    && forall i :: 0 <= i < |patterns| ==>
                     && Normalized(patterns[i]) != []
                     && compiled[i] == (patterns[i], Compiled(Normalized(patterns[i])))
  }

  /** What the loop still has to produce, given what it has collected. */
  ghost function Pending(patterns: seq<string>, fs: seq<string>, denied: seq<DeniedArtifact>): Result<seq<DeniedArtifact>> {
    match ReadEntries(fs)
    case Err(m) => Err(m)
    case Ok(es) => Ok(denied + Verdicts(patterns, es))
  }

  method ReadDenied(fields: seq<string>, ghost patterns: seq<string>, compiled: seq<(string, seq<Regex>)>)
    returns (r: Result<seq<DeniedArtifact>>)
    requires CompiledPairs(compiled, patterns)
    ensures r == Pending(patterns, fields, [])
  {
    var index := 0;
    var denied: seq<DeniedArtifact> := [];
    while index < |fields|
      invariant index <= |fields|
      invariant Pending(patterns, fields, []) == Pending(patterns, fields[index..], denied)
    {
      var status := fields[index];
      ghost var here := fields[index..];
      index := index + 1;
      var path;
      if IsRename(status) {
        index := index + 1;
        if index >= |fields| {
          return Err("malformed git rename record while checking generated artifacts");
        }
        path := fields[index];
        index := index + 1;
        PendingStep(patterns, here, 3, Rename(here[0], here[1], here[2]), denied);
      } else {
        if index >= |fields| {
          return Err("malformed git add record while checking generated artifacts");
        }
        path := fields[index];
        index := index + 1;
        PendingStep(patterns, here, 2, Addition(here[0], here[1]), denied);
      }
      path := Replace(path, '\\', "/");
      var hit := FindFirst(compiled, patterns, path);
      if hit.Some? {
        denied := denied + [DeniedArtifact(path, hit.value)];
      } else {
        assert denied + [] == denied;
      }
    }
    assert fields[index..] == [] && denied + [] == denied;
    return Ok(denied);
  }

  lemma PendingStep(patterns: seq<string>, fs: seq<string>, used: nat, e: Entry, denied: seq<DeniedArtifact>)
    requires |fs| >= used
    requires (used == 3 && IsRename(fs[0]) && e == Rename(fs[0], fs[1], fs[2]))
             || (used == 2 && !IsRename(fs[0]) && e == Addition(fs[0], fs[1]))
    ensures Pending(patterns, fs, denied) == Pending(patterns, fs[used..], denied + Verdict(patterns, e))
  {
    var tail := ReadEntries(fs[used..]);
    if tail.Ok? {
      var es := [e] + tail.value;
      assert ReadEntries(fs) == Ok(es) && es[1..] == tail.value;
      Associative(denied, Verdict(patterns, e), Verdicts(patterns, tail.value));
    }
  }

  method FindFirst(compiled: seq<(string, seq<Regex>)>, ghost patterns: seq<string>, path: string)
    returns (hit: Option<string>)
    requires CompiledPairs(compiled, patterns)
    ensures hit == FirstMatch(patterns, path)
  {
    for i := 0 to |compiled|
      invariant FirstMatch(patterns, path) == FirstMatch(patterns[i..], path)
    {
      assert patterns[i..][1..] == patterns[i + 1..];
      if Accepts(compiled[i].1, path) {
        return Some(compiled[i].0);
      }
    }
    return None;
  }

  // ----- Every record git writes is read back

  lemma {:induction false} FirstField(f: string, rest: string)
    requires GoodField(f)
    ensures SplitFields(f + "\0" + rest) == [f] + SplitFields(rest)
  {
    var s := f + "\0" + rest;
    assert forall i :: 0 <= i < |f| ==> s[i] == f[i] && f[i] in f;
    assert s[|f|] == '\0' && NulIn(s) == |f|;
    assert s[..|f|] == f && s[|f| + 1..] == rest;
  }

  lemma {:induction false} FieldsRoundTrip(fs: seq<string>)
    requires forall i :: 0 <= i < |fs| ==> GoodField(fs[i])
    ensures SplitFields(EncodeFields(fs)) == fs
  {
    if fs != [] {
      FirstField(fs[0], EncodeFields(fs[1..]));
      FieldsRoundTrip(fs[1..]);
    }
  }

  lemma {:induction false} EntriesRoundTrip(es: seq<Entry>)
    requires forall i :: 0 <= i < |es| ==> GoodEntry(es[i])
    ensures ReadEntries(AllFields(es)) == Ok(es)
    ensures forall i :: 0 <= i < |AllFields(es)| ==> GoodField(AllFields(es)[i])
  {
    if es != [] {
      EntriesRoundTrip(es[1..]);
      var here, rest := Fields(es[0]), AllFields(es[1..]);
      assert GoodEntry(es[0]);
      assert (here + rest)[|here|..] == rest;
      assert es == [es[0]] + es[1..];
    }
  }

  /** Reading succeeds only on a concatenation of whole records, so nothing is skipped,
      merged or read out of step. */
  lemma {:induction false} ReadingIsExact(fs: seq<string>)
    requires ReadEntries(fs).Ok?
    ensures AllFields(ReadEntries(fs).value) == fs
    decreases |fs|
  {
    if fs != [] {
      var e, used := FirstRecord(fs);
      var rest := ReadEntries(fs[used..]).value;
      ReadingIsExact(fs[used..]);
      AllFieldsCons(e, rest);
      assert fs == fs[..used] + fs[used..];
    }
  }

  lemma FirstRecord(fs: seq<string>) returns (e: Entry, used: nat)
    requires fs != [] && ReadEntries(fs).Ok?
    ensures 0 < used <= |fs| && Fields(e) == fs[..used]
    ensures ReadEntries(fs[used..]).Ok? && ReadEntries(fs).value == [e] + ReadEntries(fs[used..]).value
  {
    if IsRename(fs[0]) {
      e, used := Rename(fs[0], fs[1], fs[2]), 3;
    } else {
      e, used := Addition(fs[0], fs[1]), 2;
    }
  }

  lemma AllFieldsCons(e: Entry, es: seq<Entry>)
    ensures AllFields([e] + es) == Fields(e) + AllFields(es)
  {
    assert ([e] + es)[1..] == es;
  }

  /** For every list of records git can write, the guard judges exactly their new paths, in order. */
  lemma GuardSeesEveryRecord(es: seq<Entry>, patterns: seq<string>)
    requires forall i :: 0 <= i < |es| ==> GoodEntry(es[i])
    requires patterns != [] && ValidPatterns(patterns)
    ensures Denied(EncodeFields(AllFields(es)), patterns) == Ok(Verdicts(patterns, es))
  {
    EntriesRoundTrip(es);
    FieldsRoundTrip(AllFields(es));
  }

  /** A path is denied under the first pattern whose glob it matches, and under no other. */
  lemma {:induction false} FirstMatchMeans(patterns: seq<string>, path: string)
    ensures match FirstMatch(patterns, path)
            case None => forall i :: 0 <= i < |patterns| ==> !Glob(Normalized(patterns[i]), path, false)
            case Some(p) =>
              exists i :: 0 <= i < |patterns| && patterns[i] == p && Glob(Normalized(p), path, false)
                          && forall j :: 0 <= j < i ==> !Glob(Normalized(patterns[j]), path, false)
  {
    if patterns != [] {
      CompilerExact(Normalized(patterns[0]), path);
      FirstMatchMeans(patterns[1..], path);
      if !Glob(Normalized(patterns[0]), path, false) {
        var rest := patterns[1..];
        assert forall j :: 0 < j < |patterns| ==> patterns[j] == rest[j - 1];
        if FirstMatch(rest, path).Some? {
          var p := FirstMatch(rest, path).value;
          var i :| 0 <= i < |rest| && rest[i] == p && Glob(Normalized(p), path, false)
                   && forall j :: 0 <= j < i ==> !Glob(Normalized(rest[j]), path, false);
          assert patterns[i + 1] == p;
        }
      }
    }
  }
}
