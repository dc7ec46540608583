/**
 The commit and rollback of the memory-hook installer (scripts/install-memory-hooks.py):
 a list of file replacements applied one by one while other programs may edit any file,
 and undone newest first when one of them cannot be made. Other programs act in rounds,
 one before each step of the installer, so every moment is named by a number of rounds.
 */
module InstallCommit {
  import opened Basics

  type Path = string
  type Bytes = seq<int>

  datatype File = File(content: Bytes, mode: nat)

  /** A planned replacement: what the file held when it was planned, and what it will hold. */
  datatype Change = Change(path: Path, before: Option<Bytes>, after: Bytes, mode: nat)

  datatype Written = Written(path: Path, before: Option<Bytes>, after: Bytes, mode: nat)

  /** What other programs did to some files: new contents, or None for a removal. */
  type Edits = map<Path, Option<File>>

  /** What a run is given: the planned changes, the other programs' edits in each round, and
      the disk at the start. */
  datatype Plan = Plan(changes: seq<Change>, env: nat -> Edits, initial: map<Path, File>)

  function Lookup(files: map<Path, File>, p: Path): Option<File> {
    if p in files then Some(files[p]) else None
  }

  function Content(file: Option<File>): Option<Bytes> {
    if file.Some? then Some(file.value.content) else None
  }

  function Read(files: map<Path, File>, p: Path): Option<Bytes> {
    Content(Lookup(files, p))
  }

  function Edited(files: map<Path, File>, edits: Edits): (r: map<Path, File>)
    ensures forall p :: Lookup(r, p) == if p in edits then edits[p] else Lookup(files, p)
  {
    map p | p in files.Keys + edits.Keys && (p in edits ==> edits[p].Some?) ::
      if p in edits then edits[p].value else files[p]
  }

  /** The file after `n` rounds of other programs' edits, had the installer never run. */
  function Theirs(plan: Plan, n: nat, p: Path): Option<File> {
    if n == 0 then Lookup(plan.initial, p)
    else if p in plan.env(n - 1) then plan.env(n - 1)[p]
    else Theirs(plan, n - 1, p)
  }

  /** Planned changes name distinct files, and those that would change nothing were dropped. */
  ghost predicate Planned(changes: seq<Change>) {
    && (forall i, j :: 0 <= i < j < |changes| ==> changes[i].path != changes[j].path)
    && (forall i :: 0 <= i < |changes| ==> changes[i].before != Some(changes[i].after))
  }

  ghost predicate Targets(changes: seq<Change>, n: nat, p: Path)
    requires n <= |changes|
  {
    exists i :: 0 <= i < n && changes[i].path == p
  }

  // ----- What the others did to one path

  /** Someone else edited `p` in one of the rounds `lo`, ..., `hi - 1`. */
  ghost predicate EditedIn(env: nat -> Edits, p: Path, lo: nat, hi: nat) {
    exists k :: lo <= k < hi && p in env(k)
  }

  /** In round `k` someone else wrote exactly the content planned by `c` to its path. */
  predicate LeftBy(c: Change, env: nat -> Edits, k: nat) {
    c.path in env(k) && env(k)[c.path].Some? && env(k)[c.path].value.content == c.after
  }

  lemma {:induction false} NotEdited(plan: Plan, p: Path, lo: nat, hi: nat)
    requires lo <= hi && !EditedIn(plan.env, p, lo, hi)
    ensures Theirs(plan, lo, p) == Theirs(plan, hi, p)
    decreases hi
  {
    if lo < hi {
      assert p !in plan.env(hi - 1);
      NotEdited(plan, p, lo, hi - 1);
    }
  }

  lemma {:induction false} LastEdit(plan: Plan, p: Path, lo: nat, hi: nat) returns (k: nat)
    requires EditedIn(plan.env, p, lo, hi)
    ensures lo <= k < hi && p in plan.env(k) && !EditedIn(plan.env, p, k + 1, hi)
    ensures plan.env(k)[p] == Theirs(plan, hi, p)
    decreases hi
  {
    k := hi - 1;
    if p !in plan.env(hi - 1) {
      k := LastEdit(plan, p, lo, hi - 1);
    }
  }

  // ----- The account of a run, file by file

  /** Change `i`, made after round `i`, is on disk unless someone else has edited its path since. */
  ghost predicate Standing(plan: Plan, files: map<Path, File>, i: nat, rounds: nat)
    requires i < |plan.changes|
  {
    var c := plan.changes[i];
    Lookup(files, c.path)
    == if EditedIn(plan.env, c.path, i + 1, rounds) then Theirs(plan, rounds, c.path)
       else Some(File(c.after, c.mode))
  }

  /** Someone else's last edit of the path of change `i` came after the change was made and no
      later than round `undo`, and left exactly the content that the change had put there. */
  ghost predicate LookAlike(plan: Plan, i: nat, undo: nat, rounds: nat)
    requires i < |plan.changes|
  {
    exists k :: && i < k <= undo && k < rounds && LeftBy(plan.changes[i], plan.env, k)
                && !EditedIn(plan.env, plan.changes[i].path, k + 1, rounds)
  }

  /** Change `i` of a run that failed at change `failed` was undone after round
      `2 * failed - i`: its file is what the others made it, except that a look-alike has been
      replaced by what was there just before the change. */
  ghost predicate Reverted(plan: Plan, files: map<Path, File>, i: nat, failed: nat, rounds: nat)
    requires i < |plan.changes| && i <= failed
  {
    var p := plan.changes[i].path;
    Lookup(files, p) == Theirs(plan, if LookAlike(plan, i, 2 * failed - i, rounds) then i + 1 else rounds, p)
  }

  ghost predicate Untouched(plan: Plan, files: map<Path, File>, p: Path, rounds: nat) {
    Lookup(files, p) == Theirs(plan, rounds, p)
  }

  /** The first `standing` changes are made, those from there up to `reached` undone again, and
      every file not reached is what the others made it. */
  ghost predicate Account(plan: Plan, files: map<Path, File>, standing: nat, reached: nat, rounds: nat) {
    && Planned(plan.changes) && standing <= reached <= |plan.changes|
    && (forall i :: 0 <= i < standing ==> Standing(plan, files, i, rounds))
    && (forall i :: standing <= i < reached ==> Reverted(plan, files, i, reached, rounds))
    && (forall p :: !Targets(plan.changes, reached, p) ==> Untouched(plan, files, p, rounds))
  }

  /** What the installer wrote down about change `i` is what it found when it made it. */
  ghost predicate Noted(plan: Plan, w: Written, i: nat)
    requires i < |plan.changes|
  {
    && w.path == plan.changes[i].path && w.before == plan.changes[i].before && w.after == plan.changes[i].after
    && Theirs(plan, i + 1, w.path) == if w.before.Some? then Some(File(w.before.value, w.mode)) else None
  }

  ghost predicate AllNoted(plan: Plan, written: seq<Written>) {
    |written| <= |plan.changes| && forall i :: 0 <= i < |written| ==> Noted(plan, written[i], i)
  }

  // ----- A round of edits by others

  lemma StandingEdited(plan: Plan, files: map<Path, File>, i: nat, rounds: nat)
    requires i < |plan.changes| && i < rounds && Standing(plan, files, i, rounds)
    ensures Standing(plan, Edited(files, plan.env(rounds)), i, rounds + 1)
  {
    EditedNext(plan.env, plan.changes[i].path, i + 1, rounds);
  }

  lemma LookAlikeNext(plan: Plan, i: nat, undo: nat, rounds: nat)
    requires i < |plan.changes| && undo < rounds
    ensures LookAlike(plan, i, undo, rounds + 1)
            <==> LookAlike(plan, i, undo, rounds) && plan.changes[i].path !in plan.env(rounds)
  {
    var p := plan.changes[i].path;
    forall lo: nat | lo <= rounds
      ensures EditedIn(plan.env, p, lo, rounds + 1) <==> EditedIn(plan.env, p, lo, rounds) || p in plan.env(rounds)
    {
      EditedNext(plan.env, p, lo, rounds);
    }
  }

  lemma EditedNext(env: nat -> Edits, p: Path, lo: nat, hi: nat)
    requires lo <= hi
    ensures EditedIn(env, p, lo, hi + 1) <==> EditedIn(env, p, lo, hi) || p in env(hi)
  {
  }

  lemma RevertedEdited(plan: Plan, files: map<Path, File>, i: nat, failed: nat, rounds: nat)
    requires i < |plan.changes| && i <= failed && 2 * failed - i < rounds && Reverted(plan, files, i, failed, rounds)
    ensures Reverted(plan, Edited(files, plan.env(rounds)), i, failed, rounds + 1)
  {
    LookAlikeNext(plan, i, 2 * failed - i, rounds);
  }

  lemma EditsKeep(plan: Plan, files: map<Path, File>, standing: nat, reached: nat, rounds: nat)
    requires Account(plan, files, standing, reached, rounds)
    requires standing <= rounds && (standing == reached || 2 * reached - standing < rounds)
    ensures Account(plan, Edited(files, plan.env(rounds)), standing, reached, rounds + 1)
  {
    var files', later := Edited(files, plan.env(rounds)), rounds + 1;
    forall i | 0 <= i < standing
      ensures Standing(plan, files', i, later)
    {
      StandingEdited(plan, files, i, rounds);
    }
    forall i | standing <= i < reached
      ensures Reverted(plan, files', i, reached, later)
    {
      RevertedEdited(plan, files, i, reached, rounds);
    }
  }

  // ----- One replacement

  function AfterWrite(files: map<Path, File>, c: Change): map<Path, File> {
    files[c.path := File(c.after, c.mode)]
  }

  lemma StandingElsewhere(plan: Plan, files: map<Path, File>, files': map<Path, File>, i: nat, rounds: nat)
    requires i < |plan.changes| && Standing(plan, files, i, rounds)
    requires Lookup(files', plan.changes[i].path) == Lookup(files, plan.changes[i].path)
    ensures Standing(plan, files', i, rounds)
  {
  }

  /** The checked replacement of the next file, and what is noted about it. */
  lemma WriteKeeps(plan: Plan, files: map<Path, File>, n: nat, written: seq<Written>)
    requires Account(plan, files, n, n, n + 1) && n < |plan.changes| && AllNoted(plan, written) && |written| == n
    requires Read(files, plan.changes[n].path) == plan.changes[n].before
    ensures var c := plan.changes[n];
            var mode := if c.before.Some? then files[c.path].mode else c.mode;
            && Account(plan, AfterWrite(files, c), n + 1, n + 1, n + 1)
            && AllNoted(plan, written + [Written(c.path, c.before, c.after, mode)])
  {
    var c := plan.changes[n];
    var files', rounds := AfterWrite(files, c), n + 1;
    assert !Targets(plan.changes, n, c.path);
    assert !EditedIn(plan.env, c.path, n + 1, n + 1);
    forall i | 0 <= i < n
      ensures Standing(plan, files', i, rounds)
    {
      StandingElsewhere(plan, files, files', i, rounds);
    }
    forall p | !Targets(plan.changes, n + 1, p)
      ensures Lookup(files', p) == Theirs(plan, n + 1, p)
    {
      assert p != c.path && !Targets(plan.changes, n, p);
    }
  }

  // ----- One undo

  /** Undo a replacement if it still reads as this run left it. */
  function Undone(files: map<Path, File>, w: Written): map<Path, File> {
    if Read(files, w.path) != Some(w.after) then files
    else if w.before.None? then files - {w.path}
    else files[w.path := File(w.before.value, w.mode)]
  }

  /** If someone else has edited the path, their last edit decides: it is a look-alike iff the
      file reads as the run left it. */
  lemma ReadsAsLeftIff(plan: Plan, i: nat, rounds: nat)
    requires i < |plan.changes| && i < rounds && EditedIn(plan.env, plan.changes[i].path, i + 1, rounds)
    ensures LookAlike(plan, i, rounds - 1, rounds)
            <==> Content(Theirs(plan, rounds, plan.changes[i].path)) == Some(plan.changes[i].after)
  {
    var c := plan.changes[i];
    var k := LastEdit(plan, c.path, i + 1, rounds);
    assert LeftBy(c, plan.env, k) <==> Content(Theirs(plan, rounds, c.path)) == Some(c.after);
    forall j | i < j < rounds && LeftBy(c, plan.env, j) && !EditedIn(plan.env, c.path, j + 1, rounds)
      ensures LeftBy(c, plan.env, k)
    {
      OneLastEdit(plan.env, c.path, j, k, rounds);
    }
  }

  lemma OneLastEdit(env: nat -> Edits, p: Path, j: nat, k: nat, hi: nat)
    requires j < hi && k < hi && p in env(j) && p in env(k)
    requires !EditedIn(env, p, j + 1, hi) && !EditedIn(env, p, k + 1, hi)
    ensures j == k
  {
  }

  lemma UndoOne(plan: Plan, files: map<Path, File>, w: Written, i: nat, failed: nat)
    requires i < |plan.changes| && i < failed && Noted(plan, w, i)
    requires Standing(plan, files, i, 2 * failed - i + 1)
    ensures Reverted(plan, Undone(files, w), i, failed, 2 * failed - i + 1)
  {
    var rounds := 2 * failed - i + 1;
    if EditedIn(plan.env, w.path, i + 1, rounds) {
      ReadsAsLeftIff(plan, i, rounds);
    } else {
      NotEdited(plan, w.path, i + 1, rounds);
      assert !LookAlike(plan, i, 2 * failed - i, rounds);
    }
  }

  lemma UndoKeeps(plan: Plan, files: map<Path, File>, standing: nat, failed: nat, w: Written)
    requires 0 < standing <= failed && Account(plan, files, standing, failed, 2 * failed - standing + 2)
    requires Noted(plan, w, standing - 1)
    ensures Account(plan, Undone(files, w), standing - 1, failed, 2 * failed - standing + 2)
  {
    var n, rounds := standing - 1, 2 * failed - standing + 2;
    var files' := Undone(files, w);
    UndoOne(plan, files, w, n, failed);
    forall i | 0 <= i < n
      ensures Standing(plan, files', i, rounds)
    {
      StandingElsewhere(plan, files, files', i, rounds);
    }
    forall i | n <= i < failed
      ensures Reverted(plan, files', i, failed, rounds)
    {
      assert i == n || Reverted(plan, files, i, failed, rounds);
    }
  }

  /** One step of the rollback: a round of the others' edits, then the newest standing change. */
  lemma RollbackKeeps(plan: Plan, files: map<Path, File>, standing: nat, failed: nat, w: Written)
    requires 0 < standing <= failed && Account(plan, files, standing, failed, 2 * failed - standing + 1)
    requires Noted(plan, w, standing - 1)
    ensures var rounds := 2 * failed - standing + 1;
            Account(plan, Undone(Edited(files, plan.env(rounds)), w), standing - 1, failed, rounds + 1)
  {
    var rounds := 2 * failed - standing + 1;
    EditsKeep(plan, files, standing, failed, rounds);
    UndoKeeps(plan, Edited(files, plan.env(rounds)), standing, failed, w);
  }

  // ----- Outcomes

  /** Change `i` is checked after round `i`: it goes through iff the file then reads as planned
      and the replacement raises no error. */
  predicate Replaceable(plan: Plan, fails: nat -> bool, i: nat)
    requires i < |plan.changes|
  {
    Content(Theirs(plan, i + 1, plan.changes[i].path)) == plan.changes[i].before && !fails(i)
  }

  ghost predicate AllReplaceable(plan: Plan, fails: nat -> bool, n: nat) {
    n <= |plan.changes| && forall i :: 0 <= i < n ==> Replaceable(plan, fails, i)
  }

  /** The run stops at change `n`: all before it go through and it does not, or there is none. */
  ghost predicate StopsAt(plan: Plan, fails: nat -> bool, n: nat) {
    AllReplaceable(plan, fails, n) && (n < |plan.changes| ==> !Replaceable(plan, fails, n))
  }

  /** A file the run has not reached is what the others made it, so the check made on it
      decides whether the run goes on. */
  lemma CheckTells(plan: Plan, files: map<Path, File>, fails: nat -> bool, n: nat)
    requires Account(plan, files, n, n, n + 1) && n < |plan.changes| && AllReplaceable(plan, fails, n)
    ensures var c := plan.changes[n];
            if Read(files, c.path) != c.before || fails(n) then StopsAt(plan, fails, n)
            else AllReplaceable(plan, fails, n + 1)
  {
    var p := plan.changes[n].path;
    assert !Targets(plan.changes, n, p);
    assert Lookup(files, p) == Theirs(plan, n + 1, p);
  }

  class Disk {
    var files: map<Path, File>

    constructor (files: map<Path, File>)
      ensures this.files == files
    {
      this.files := files;
    }

    /** The write loop and, if it fails, the rollback. Before each step other programs apply
        the next round of `env`; `fails` says which replacements raise an error. The run ends at
        change `stop`; a failed one differs from what the others alone would have made of the
        disk exactly at the files that are lost. */
    method Install(changes: seq<Change>, env: nat -> Edits, fails: nat -> bool) returns (ok: bool, ghost stop: nat)
      requires Planned(changes)
      modifies this
      ensures var plan := Plan(changes, env, old(files));
              && StopsAt(plan, fails, stop)
              && (ok <==> stop == |changes|)
              && (ok ==> Account(plan, files, stop, stop, stop))
              && (!ok ==> Account(plan, files, 0, stop, 2 * stop + 1))
              && (!ok ==> forall p :: Lookup(files, p) != Theirs(plan, 2 * stop + 1, p) <==> Lost(plan, stop, p))
    {
      ghost var plan := Plan(changes, env, files);
      var written: seq<Written> := [];
      var i, failed := 0, false;
      while i < |changes| && !failed
        invariant |written| == i <= |changes| && AllNoted(plan, written)
        invariant Account(plan, files, i, i, if failed then i + 1 else i)
        invariant AllReplaceable(plan, fails, i)
        invariant failed ==> i < |changes| && StopsAt(plan, fails, i)
        decreases |changes| - i, !failed
      {
        EditsKeep(plan, files, i, i, i);
        files := Edited(files, env(i));
        var c := changes[i];
        CheckTells(plan, files, fails, i);
        if Read(files, c.path) != c.before || fails(i) {
          failed := true;
        } else {
          var previousMode := if c.before.Some? then files[c.path].mode else c.mode;
          WriteKeeps(plan, files, i, written);
          files := files[c.path := File(c.after, c.mode)];
          written := written + [Written(c.path, c.before, c.after, previousMode)];
          i := i + 1;
        }
      }
      ok, stop := !failed, i;
      if failed {
        Rollback(written, env, i + 1, plan);
        forall p
          ensures Lookup(files, p) != Theirs(plan, 2 * stop + 1, p) <==> Lost(plan, stop, p)
        {
          RollbackMissesIff(plan, fails, files, stop, p);
        }
      }
    }

    /** Undo newest first, one more round of `env` before each step. */
    method Rollback(written: seq<Written>, env: nat -> Edits, start: nat, ghost plan: Plan)
      requires plan.env == env && AllNoted(plan, written) && start == |written| + 1
      requires Account(plan, files, |written|, |written|, start)
      modifies this
      ensures Account(plan, files, 0, |written|, 2 * |written| + 1)
    {
      var left, rounds := |written|, start;
      while left > 0
        invariant 0 <= left <= |written| && rounds == 2 * |written| - left + 1
        invariant Account(plan, files, left, |written|, rounds)
      {
        RollbackKeeps(plan, files, left, |written|, written[left - 1]);
        files := Edited(files, env(rounds));
        rounds := rounds + 1;
        left := left - 1;
        Undo(written[left]);
      }
    }

    method Undo(w: Written)
      modifies this
      ensures files == Undone(old(files), w)
    {
      if Read(files, w.path) == Some(w.after) {
        if w.before.None? {
          files := files - {w.path};
        } else {
          files := files[w.path := File(w.before.value, w.mode)];
        }
      }
    }
  }

  // ----- What an account means

  /** Someone else's file at `p` was taken for the run's own and undone with it. */
  ghost predicate Lost(plan: Plan, failed: nat, p: Path)
    requires failed <= |plan.changes|
  {
    exists i :: 0 <= i < failed && plan.changes[i].path == p && LookAlike(plan, i, 2 * failed - i, 2 * failed + 1)
  }

  /** After a failed run the disk is not what the others alone would have made it at exactly
      the targets where their last edit left the run's own content between the write and its
      undo. There it holds what was there just before the write. */
  lemma RollbackMissesIff(plan: Plan, fails: nat -> bool, files: map<Path, File>, failed: nat, p: Path)
    requires StopsAt(plan, fails, failed) && Account(plan, files, 0, failed, 2 * failed + 1)
    ensures Lookup(files, p) != Theirs(plan, 2 * failed + 1, p)
            <==> Lost(plan, failed, p)
  {
    if Targets(plan.changes, failed, p) {
      var i :| 0 <= i < failed && plan.changes[i].path == p;
      assert Reverted(plan, files, i, failed, 2 * failed + 1);
      if LookAlike(plan, i, 2 * failed - i, 2 * failed + 1) {
        LookAlikeDiffers(plan, fails, i, 2 * failed - i, 2 * failed + 1);
      }
    }
  }

  lemma LookAlikeDiffers(plan: Plan, fails: nat -> bool, i: nat, undo: nat, rounds: nat)
    requires Planned(plan.changes) && i < |plan.changes| && Replaceable(plan, fails, i) && LookAlike(plan, i, undo, rounds)
    ensures Theirs(plan, i + 1, plan.changes[i].path) != Theirs(plan, rounds, plan.changes[i].path)
  {
    var c := plan.changes[i];
    var k :| && i < k <= undo && k < rounds && LeftBy(c, plan.env, k) && !EditedIn(plan.env, c.path, k + 1, rounds);
    NotEdited(plan, c.path, k + 1, rounds);
    assert Theirs(plan, k + 1, c.path) == plan.env(k)[c.path];
  }

  /** In rounds where nobody else acts nothing changes. */
  lemma {:induction false} NobodyElse(plan: Plan, n: nat, p: Path)
    requires forall k: nat :: plan.env(k) == map[]
    ensures Theirs(plan, n, p) == Lookup(plan.initial, p)
  {
    if n > 0 {
      NobodyElse(plan, n - 1, p);
    }
  }

  lemma SameLookups(a: map<Path, File>, b: map<Path, File>)
    requires forall p :: Lookup(a, p) == Lookup(b, p)
    ensures a == b
  {
    forall p
      ensures p in a <==> p in b
      ensures p in a ==> a[p] == b[p]
    {
      assert Lookup(a, p) == Lookup(b, p);
    }
  }

  /** Atomicity when nobody interferes: all files are replaced, or every file is as it was. */
  method InstallAlone(disk: Disk, changes: seq<Change>, fails: nat -> bool) returns (ok: bool)
    requires Planned(changes)
    modifies disk
    ensures ok <==> forall i :: 0 <= i < |changes| ==>
                                  Read(old(disk.files), changes[i].path) == changes[i].before && !fails(i)
    ensures !ok ==> disk.files == old(disk.files)
    ensures ok ==> forall i :: 0 <= i < |changes| ==>
                                 Lookup(disk.files, changes[i].path) == Some(File(changes[i].after, changes[i].mode))
  {
    var nobody: nat -> Edits := (k: nat) => map[];
    ghost var plan := Plan(changes, nobody, disk.files);
    ghost var stop;
    ok, stop := disk.Install(changes, nobody, fails);
    forall i | 0 <= i < |changes|
      ensures Replaceable(plan, fails, i) <==> Read(plan.initial, changes[i].path) == changes[i].before && !fails(i)
    {
      NobodyElse(plan, i + 1, changes[i].path);
    }
    if ok {
      forall i | 0 <= i < |changes|
        ensures Lookup(disk.files, changes[i].path) == Some(File(changes[i].after, changes[i].mode))
      {
        assert Standing(plan, disk.files, i, stop);
      }
    } else {
      forall p
        ensures Lookup(disk.files, p) == Lookup(plan.initial, p)
      {
        NobodyElse(plan, 2 * stop + 1, p);
        RollbackMissesIff(plan, fails, disk.files, stop, p);
      }
      SameLookups(disk.files, plan.initial);
    }
  }

  // ----- A run whose rollback takes someone else's file

  const OLD := File([1], 0)
  const NEW := File([2], 0)
  const HOOKS := Change("hooks", Some([1]), [2], 0)
  const SCRIPT := Change("script", None, [3], 0)

  /** While the installer checks its second file, another program writes `NEW` to the first. */
  function Neighbour(k: nat): Edits {
    if k == 1 then map["hooks" := Some(NEW)] else map[]
  }

  /** The second replacement fails, and the rollback puts the old content back over the
      neighbour's file, because it reads like the installer's own. */
  method LookAlikeIsLost() returns (left: Option<File>)
    ensures left == Some(OLD)
    ensures Theirs(Plan([HOOKS, SCRIPT], Neighbour, map["hooks" := OLD]), 3, "hooks") == Some(NEW)
  {
    ghost var plan := Plan([HOOKS, SCRIPT], Neighbour, map["hooks" := OLD]);
    var disk := new Disk(map["hooks" := OLD]);
    var fails := (i: nat) => i == 1;
    ghost var stop;
    var ok;
    assert Theirs(plan, 1, "hooks") == Some(OLD);
    assert Replaceable(plan, fails, 0) && !Replaceable(plan, fails, 1);
    ok, stop := disk.Install([HOOKS, SCRIPT], Neighbour, fails);
    assert stop == 1;
    assert Theirs(plan, 2, "hooks") == Some(NEW);
    assert LeftBy(HOOKS, Neighbour, 1) && !EditedIn(Neighbour, "hooks", 2, 3);
    assert LookAlike(plan, 0, 2, 3);
    assert Reverted(plan, disk.files, 0, 1, 3);
    left := if "hooks" in disk.files then Some(disk.files["hooks"]) else None;
  }
}
