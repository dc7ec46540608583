/**
 What the slot protocol guarantees over whole runs: in every interleaving of acquire,
 drop, prune, I/O errors and crashes.
 */
module BuildCacheTheorems {
  import opened Basics
  import opened BuildCache

  lemma {:induction false} RunInv(ss: seq<State>, es: seq<Event>, n: nat)
    requires Run(ss, es) && n < |ss|
    ensures Inv(ss[n])
  {
    if n == 0 {
      InitInv(ss[0]);
    } else {
      RunInv(ss, es, n - 1);
      assert StepAt(ss, es, n - 1);
      StepInv(ss[n - 1], es[n - 1].pid, es[n - 1].action);
    }
  }

  // ----- Exclusive ownership

  /** A guard's slot path names the very inode it has locked, and no one else owns the slot. */
  lemma GuardOwnsItsPath(ss: seq<State>, es: seq<Event>, n: nat, p: Pid, slot: nat)
    requires Run(ss, es) && n < |ss| && IsGuard(ss[n].Pc(p), slot)
    ensures slot in ss[n].dirs && slot in ss[n].lockAt
    ensures ss[n].lockAt[slot] == ss[n].Pc(p).inode
    ensures ss[n].Pc(p).inode in ss[n].holder && ss[n].holder[ss[n].Pc(p).inode] == p
    ensures forall q: Pid :: q != p ==> !IsGuard(ss[n].Pc(q), slot)
  {
    RunInv(ss, es, n);
    assert Coherent(ss[n], p, ss[n].Pc(p));
    forall q: Pid | q != p
      ensures !IsGuard(ss[n].Pc(q), slot)
    {
      NotBothGuards(ss[n], p, q, slot);
    }
  }

  lemma NotBothGuards(s: State, p: Pid, q: Pid, slot: nat)
    requires Coherent(s, p, s.Pc(p)) && Coherent(s, q, s.Pc(q)) && p != q && IsGuard(s.Pc(p), slot)
    ensures !IsGuard(s.Pc(q), slot)
  {
  }

  /** No step of a prune, of another guard's drop or of anyone else takes a live target away. */
  lemma OthersKeepLiveTargets(ss: seq<State>, es: seq<Event>, n: nat, p: Pid, slot: nat)
    requires Run(ss, es) && n < |es| && es[n].pid != p
    requires IsGuard(ss[n].Pc(p), slot)
    ensures ss[n + 1].Pc(p) == ss[n].Pc(p)
    ensures slot in ss[n + 1].dirs && slot in ss[n + 1].lockAt
    ensures ss[n + 1].lockAt[slot] == ss[n].Pc(p).inode
  {
    StepOfRun(ss, es, n);
    GuardOwnsItsPath(ss, es, n + 1, p, slot);
  }

  lemma StepOfRun(ss: seq<State>, es: seq<Event>, n: nat)
    requires Run(ss, es) && n < |es|
    ensures Inv(ss[n]) && Inv(ss[n + 1]) && Footprint(ss[n], ss[n + 1], es[n].pid)
  {
    RunInv(ss, es, n);
    assert StepAt(ss, es, n);
    StepInv(ss[n], es[n].pid, es[n].action);
  }

  // ----- Capacity

  predicate Searching(pc: PC) {
    pc.AcquireSlot? || pc.AcquireDir? || pc.AcquireOpen? || pc.AcquireFull?
  }

  function SlotsTried(pc: PC): nat {
    if pc.AcquireSlot? || pc.AcquireDir? || pc.AcquireOpen? then pc.slot else SLOT_COUNT
  }

  /** While an actor is inside its critical section, a lock held by another is a live guard's. */
  lemma HeldElsewhereIsLive(s: State, p: Pid, n: Name, i: Inode)
    requires Inv(s) && s.lifecycle == Some(p)
    requires n in s.lockAt && s.lockAt[n] == i && i in s.holder && s.holder[i] != p
    ensures IsGuard(s.Pc(s.holder[i]), n)
  {
    var g := s.holder[i];
    assert Coherent(s, g, s.Pc(g));
  }

  lemma SearchStep(s: State, p: Pid, a: Action)
    requires Inv(s) && Enabled(s, p, a)
    ensures SearchMove(s, p, Do(s, p, a).Pc(p))
  {
    assert Coherent(s, p, s.Pc(p));
  }

  /** How a searching actor can have come to `after`: by starting, by moving on within a
      slot, or by finding the slot's lock held by someone else. */
  ghost predicate SearchMove(s: State, p: Pid, after: PC) {
    var before := s.Pc(p);
    Searching(after) ==>
      || SlotsTried(after) == 0
      || (Searching(before) && SlotsTried(before) == SlotsTried(after))
      || (&& before.AcquireOpen? && SlotsTried(after) == before.slot + 1
          && before.inode in s.holder && s.holder[before.inode] != p)
  }

  lemma SearchMoveOfRun(ss: seq<State>, es: seq<Event>, n: nat, p: Pid)
    requires Run(ss, es) && n < |es|
    ensures Inv(ss[n]) && SearchMove(ss[n], p, ss[n + 1].Pc(p))
  {
    StepOfRun(ss, es, n);
    assert StepAt(ss, es, n);
    if es[n].pid == p {
      SearchStep(ss[n], p, es[n].action);
    }
  }

  /** Slot `j` is being probed by `p` and its lock belongs to the live guard `g`. */
  ghost predicate FoundOwned(s: State, p: Pid, j: nat, g: Pid) {
    g != p && s.Pc(p).AcquireOpen? && s.Pc(p).slot == j && IsGuard(s.Pc(g), j)
  }

  lemma PassedOverNow(s: State, p: Pid, after: PC, j: nat) returns (g: Pid)
    requires Inv(s) && SearchMove(s, p, after) && Searching(after) && j < SlotsTried(after)
    requires !(Searching(s.Pc(p)) && j < SlotsTried(s.Pc(p)))
    ensures FoundOwned(s, p, j, g)
  {
    assert Coherent(s, p, s.Pc(p));
    g := s.holder[s.Pc(p).inode];
    HeldElsewhereIsLive(s, p, j, s.Pc(p).inode);
  }

  /** Either the search was already past slot `j`, or it has just found it owned. */
  lemma PassedOverStep(ss: seq<State>, es: seq<Event>, n: nat, p: Pid, j: nat) returns (g: Pid)
    requires Run(ss, es) && n < |es|
    requires Searching(ss[n + 1].Pc(p)) && j < SlotsTried(ss[n + 1].Pc(p))
    ensures (Searching(ss[n].Pc(p)) && j < SlotsTried(ss[n].Pc(p))) || FoundOwned(ss[n], p, j, g)
  {
    g := 0;
    SearchMoveOfRun(ss, es, n, p);
    if !(Searching(ss[n].Pc(p)) && j < SlotsTried(ss[n].Pc(p))) {
      g := PassedOverNow(ss[n], p, ss[n + 1].Pc(p), j);
    }
  }

  /** A search that has moved past slot `j` met a live guard there, earlier in this same search. */
  lemma {:induction false} PassedOverSlotWasOwned(ss: seq<State>, es: seq<Event>, n: nat, p: Pid, j: nat)
    returns (m: nat, g: Pid)
    requires Run(ss, es) && n < |ss|
    requires Searching(ss[n].Pc(p)) && j < SlotsTried(ss[n].Pc(p))
    ensures m < n && FoundOwned(ss[m], p, j, g)
    ensures forall t :: m <= t <= n ==> Searching(ss[t].Pc(p))
    decreases n
  {
    assert n > 0;
    g := PassedOverStep(ss, es, n - 1, p, j);
    m := n - 1;
    if Searching(ss[m].Pc(p)) && j < SlotsTried(ss[m].Pc(p)) {
      m, g := PassedOverSlotWasOwned(ss, es, m, p, j);
    }
  }

  /** An acquire that fails for lack of slots found a live guard in every one of them. */
  lemma FullOnlyIfEverySlotOwned(ss: seq<State>, es: seq<Event>, n: nat, p: Pid)
    requires Run(ss, es) && n < |ss| && ss[n].Pc(p).AcquireFull?
    ensures forall j :: 0 <= j < 64 ==> OwnedWhenProbed(ss, n, p, j)
  {
    forall j | 0 <= j < 64
      ensures OwnedWhenProbed(ss, n, p, j)
    {
      var m, g := PassedOverSlotWasOwned(ss, es, n, p, j);
    }
  }

  /** Earlier in this same search, slot `j` was probed and found to belong to a live guard. */
  ghost predicate OwnedWhenProbed(ss: seq<State>, n: nat, p: Pid, j: nat)
    requires n < |ss|
  {
    exists m: nat, g: Pid ::
      && m < n && FoundOwned(ss[m], p, j, g)
      && forall t :: m <= t <= n ==> Searching(ss[t].Pc(p))
  }

  /** An acquire takes the lowest slot that it finds free. */
  lemma TakesFirstFreeSlot(ss: seq<State>, es: seq<Event>, n: nat, p: Pid)
    requires Run(ss, es) && n < |es| && es[n] == Event(p, TryLock)
    requires ss[n].Pc(p).AcquireOpen? && ss[n].Pc(p).inode !in ss[n].holder
    ensures ss[n + 1].Pc(p) == AcquireWon(ss[n].Pc(p).slot, ss[n].Pc(p).inode)
    ensures forall j :: 0 <= j < ss[n].Pc(p).slot ==> OwnedWhenProbed(ss, n, p, j)
  {
    assert StepAt(ss, es, n);
    forall j | 0 <= j < ss[n].Pc(p).slot
      ensures OwnedWhenProbed(ss, n, p, j)
    {
      var m, g := PassedOverSlotWasOwned(ss, es, n, p, j);
    }
  }

  /** Nothing is taken for granted: a process can die at any point, every call that can fail may
      fail, and whoever finds the lifecycle lock free can take it. */
  lemma AnythingCanFail(s: State, p: Pid)
    ensures Enabled(s, p, Crash)
    ensures var pc := s.Pc(p);
            && (pc.AcquireWait? || pc.AcquireSlot? || pc.AcquireDir? || pc.AcquireOpen? ==> Enabled(s, p, Abort))
            && (pc.PruneWait? || pc.PruneScan? || pc.PruneLocked? || pc.PruneUnlinked? ==> Enabled(s, p, Abort))
            && (pc.DropWait? ==> Enabled(s, p, Abort))
            && (pc.DropRemove? || pc.DropUnlinked? ==> Enabled(s, p, RemoveFails))
            && (pc.PruneOpen? ==> Enabled(s, p, ProbeFails))
            && (pc.Idle? ==> Enabled(s, p, StartAcquire) && Enabled(s, p, StartPrune(true)) && Enabled(s, p, StartPrune(false)))
            && (pc.Live? ==> Enabled(s, p, StartDrop))
            && ((pc.AcquireWait? || pc.DropWait? || pc.PruneWait?) && s.lifecycle == None ==> Enabled(s, p, TakeLifecycle))
  {
  }

  /** Leaving the critical section frees the lifecycle lock; a won acquire leaves a live guard of
      its slot, everything else is over. The files stay as they are. */
  lemma ReleaseEnds(ss: seq<State>, es: seq<Event>, n: nat, p: Pid)
    requires Run(ss, es) && n < |es| && es[n] == Event(p, Release)
    ensures var s, t := ss[n], ss[n + 1];
            && t.lifecycle == None && t.dirs == s.dirs && t.lockAt == s.lockAt && t.holder == s.holder
            && t.Pc(p) == match s.Pc(p)
                          case AcquireWon(slot, inode) => Live(slot, inode)
                          case _ => Idle
  {
    assert StepAt(ss, es, n);
  }

  /** An I/O error or the death of a process frees every lock it holds and leaves the files to
      whoever comes next; a removal that fails leaves even the locks to the unlock after it. */
  lemma FailuresKeepFiles(ss: seq<State>, es: seq<Event>, n: nat, p: Pid)
    requires Run(ss, es) && n < |es| && es[n].pid == p && es[n].action in {Abort, Crash, RemoveFails, ProbeFails}
    ensures var s, t := ss[n], ss[n + 1];
            && t.dirs == s.dirs && t.lockAt == s.lockAt
            && (es[n].action in {Abort, Crash} ==>
                  && t.Pc(p) == Idle && t.lifecycle != Some(p)
                  && forall i :: i in t.holder <==> i in s.holder && s.holder[i] != p)
            && (es[n].action in {RemoveFails, ProbeFails} ==> t.holder == s.holder && t.lifecycle == s.lifecycle)
            && (es[n].action == RemoveFails ==>
                  && (s.Pc(p).DropRemove? || s.Pc(p).DropUnlinked?)
                  && t.Pc(p) == DropUnlock(s.Pc(p).slot, s.Pc(p).inode))
  {
    assert StepAt(ss, es, n);
  }

  // ----- Drop

  /** `p` is dropping its guard of `slot`, and once it has come to the unlock the directory is gone. */
  ghost predicate Dropping(s: State, p: Pid, slot: nat, inode: Inode) {
    var pc := s.Pc(p);
    || pc == DropWait(slot, inode) || pc == DropRemove(slot, inode) || pc == DropUnlinked(slot, inode)
    || (pc == DropUnlock(slot, inode) && slot !in s.dirs)
  }

  /** The steps of a drop that meets no error. */
  predicate DropStep(a: Action) {
    a.TakeLifecycle? || a.Unlink? || a.RemoveDir?
  }

  lemma DroppingStep(s: State, p: Pid, a: Action, slot: nat, inode: Inode)
    requires Enabled(s, p, a) && Dropping(s, p, slot, inode) && DropStep(a)
    ensures Dropping(Do(s, p, a), p, slot, inode)
  {
  }

  lemma OthersKeepDropping(s: State, t: State, p: Pid, q: Pid, slot: nat, inode: Inode)
    requires Inv(s) && Footprint(s, t, q) && p != q && Dropping(s, p, slot, inode)
    ensures Dropping(t, p, slot, inode)
  {
    assert t.Pc(p) == s.Pc(p);
    if s.Pc(p).DropUnlock? {
      assert Coherent(s, p, s.Pc(p)) && Coherent(s, q, s.Pc(q));
      assert t.dirs == s.dirs;
    }
  }

  lemma DroppingNext(ss: seq<State>, es: seq<Event>, n: nat, p: Pid, slot: nat, inode: Inode)
    requires Run(ss, es) && n < |es| && Dropping(ss[n], p, slot, inode) && (es[n].pid == p ==> DropStep(es[n].action))
    ensures Dropping(ss[n + 1], p, slot, inode)
  {
    assert StepAt(ss, es, n);
    if es[n].pid == p {
      DroppingStep(ss[n], p, es[n].action, slot, inode);
    } else {
      StepOfRun(ss, es, n);
      OthersKeepDropping(ss[n], ss[n + 1], p, es[n].pid, slot, inode);
    }
  }

  lemma {:induction false} DroppingSince(
    ss: seq<State>, es: seq<Event>, m: nat, n: nat, p: Pid, slot: nat, inode: Inode)
    requires Run(ss, es) && m < n <= |es| && es[m] == Event(p, StartDrop) && ss[m].Pc(p) == Live(slot, inode)
    requires forall t :: m < t < n && es[t].pid == p ==> DropStep(es[t].action)
    ensures Dropping(ss[n], p, slot, inode)
    decreases n
  {
    if n == m + 1 {
      assert StepAt(ss, es, m);
    } else {
      DroppingSince(ss, es, m, n - 1, p, slot, inode);
      DroppingNext(ss, es, n - 1, p, slot, inode);
    }
  }

  /** A drop that meets no error, from its start to its unlock and whatever the others do in
      between, leaves neither the directory nor the lock path of its slot, and its lock is free. */
  lemma FullDrop(ss: seq<State>, es: seq<Event>, m: nat, n: nat, p: Pid, slot: nat, inode: Inode)
    requires Run(ss, es) && m < n < |es| && es[m] == Event(p, StartDrop) && ss[m].Pc(p) == Live(slot, inode)
    requires forall t :: m < t < n && es[t].pid == p ==> DropStep(es[t].action)
    requires es[n] == Event(p, Unlock)
    ensures slot !in ss[n + 1].dirs && slot !in ss[n + 1].lockAt && inode !in ss[n + 1].holder
    ensures ss[n + 1].Pc(p) == DropDone
  {
    DroppingSince(ss, es, m, n, p, slot, inode);
    StepOfRun(ss, es, n);
    assert StepAt(ss, es, n);
  }

  // ----- Prune

  /** A prune pass accounts for every listed directory exactly once. */
  ghost predicate Tally(dirs: set<Name>, sc: Scan) {
    && (forall n :: n in sc.listed <==> n in sc.todo || n in sc.free || n in sc.busy || n in sc.unprobed)
    && (forall n :: n in sc.todo ==> n !in sc.free && n !in sc.busy && n !in sc.unprobed)
    && (forall n :: n in sc.free ==> n !in sc.busy && n !in sc.unprobed)
    && (forall n :: n in sc.busy ==> n !in sc.unprobed)
    && (forall n :: n in dirs <==> n in sc.listed && (sc.dry || n !in sc.free))
    && sc.removed == |sc.free|
  }

  ghost predicate ScanOk(s: State, pc: PC) {
    && (ScanOf(pc).Some? ==> Tally(s.dirs, ScanOf(pc).value))
    && (pc.PruneOpen? || pc.PruneLocked? || pc.PruneUnlinked? ==> pc.name in pc.scan.todo)
    && (pc.PruneUnlinked? ==> !pc.scan.dry)
  }

  lemma TallyProbed(dirs: set<Name>, sc: Scan, n: Name)
    requires Tally(dirs, sc) && n in sc.todo
    ensures Tally(if sc.dry then dirs else dirs - {n}, Probed(sc, n))
  {
    assert n !in sc.free;
  }

  lemma TallyBusy(dirs: set<Name>, sc: Scan, n: Name)
    requires Tally(dirs, sc) && n in sc.todo
    ensures Tally(dirs, sc.(todo := sc.todo - {n}, busy := sc.busy + {n}))
  {
  }

  lemma TallyUnprobed(dirs: set<Name>, sc: Scan, n: Name)
    requires Tally(dirs, sc) && n in sc.todo
    ensures Tally(dirs, sc.(todo := sc.todo - {n}, unprobed := sc.unprobed + {n}))
  {
  }

  lemma TallyStart(dirs: set<Name>, dry: bool)
    ensures Tally(dirs, Scan(dry, dirs, dirs, {}, {}, {}, 0))
  {
  }

  /** Steps that keep a pass's bookkeeping and the directories as they are. */
  lemma ScanUnmoved(s: State, p: Pid, a: Action)
    requires Enabled(s, p, a) && ScanOk(s, s.Pc(p))
    requires a.OpenEntry? || (a.Unlink? && s.Pc(p).PruneLocked?)
    ensures ScanOk(Do(s, p, a), Do(s, p, a).Pc(p))
  {
  }

  lemma ScanProbe(s: State, p: Pid)
    requires s.Pc(p).PruneOpen? && ScanOk(s, s.Pc(p))
    ensures ScanOk(Do(s, p, TryLock), Do(s, p, TryLock).Pc(p))
  {
    var pc := s.Pc(p);
    if pc.inode in s.holder {
      TallyBusy(s.dirs, pc.scan, pc.name);
    }
  }

  lemma ScanRemove(s: State, p: Pid)
    requires s.Pc(p).PruneUnlinked? && ScanOk(s, s.Pc(p))
    ensures ScanOk(Do(s, p, RemoveDir), Do(s, p, RemoveDir).Pc(p))
  {
    TallyProbed(s.dirs, s.Pc(p).scan, s.Pc(p).name);
  }

  lemma ScanSkip(s: State, p: Pid)
    requires s.Pc(p).PruneLocked? && s.Pc(p).scan.dry && ScanOk(s, s.Pc(p))
    ensures ScanOk(Do(s, p, SkipDry), Do(s, p, SkipDry).Pc(p))
  {
    TallyProbed(s.dirs, s.Pc(p).scan, s.Pc(p).name);
  }

  lemma ScanStep(s: State, p: Pid, a: Action)
    requires Enabled(s, p, a) && ScanOk(s, s.Pc(p))
    ensures ScanOk(Do(s, p, a), Do(s, p, a).Pc(p))
  {
    var pc := s.Pc(p);
    if a.OpenEntry? || (a.Unlink? && pc.PruneLocked?) {
      ScanUnmoved(s, p, a);
    } else if a.TryLock? && pc.PruneOpen? {
      ScanProbe(s, p);
    } else if a.RemoveDir? && pc.PruneUnlinked? {
      ScanRemove(s, p);
    } else if a.ProbeFails? {
      TallyUnprobed(s.dirs, pc.scan, pc.name);
    } else if a.SkipDry? {
      ScanSkip(s, p);
    } else if a.TakeLifecycle? && pc.PruneWait? {
      TallyStart(s.dirs, pc.dry);
    } else {
      NoScanAfter(s, p, a);
    }
  }

  lemma NoScanAfter(s: State, p: Pid, a: Action)
    requires Enabled(s, p, a)
    requires !(a.OpenEntry? || a.SkipDry? || a.ProbeFails? || (ScanOf(s.Pc(p)).Some? && (a.Unlink? || a.TryLock? || a.RemoveDir?)))
    requires !(a.TakeLifecycle? && s.Pc(p).PruneWait?)
    ensures ScanOf(Do(s, p, a).Pc(p)).None?
  {
  }

  /** A pass holds the lifecycle lock, so nobody else's step changes a directory. */
  lemma OthersKeepScan(s: State, t: State, p: Pid, q: Pid)
    requires Inv(s) && Footprint(s, t, q) && p != q && ScanOk(s, s.Pc(p))
    ensures ScanOk(t, t.Pc(p))
  {
    assert t.Pc(p) == s.Pc(p);
    if ScanOf(s.Pc(p)).Some? {
      assert Coherent(s, p, s.Pc(p)) && Coherent(s, q, s.Pc(q));
      assert t.dirs == s.dirs;
    }
  }

  lemma ScanKept(ss: seq<State>, es: seq<Event>, n: nat, p: Pid)
    requires Run(ss, es) && n < |es| && ScanOk(ss[n], ss[n].Pc(p))
    ensures ScanOk(ss[n + 1], ss[n + 1].Pc(p))
  {
    StepOfRun(ss, es, n);
    if es[n].pid == p {
      assert StepAt(ss, es, n);
      ScanStep(ss[n], p, es[n].action);
    } else {
      OthersKeepScan(ss[n], ss[n + 1], p, es[n].pid);
    }
  }

  lemma {:induction false} ScanOfRun(ss: seq<State>, es: seq<Event>, n: nat, p: Pid)
    requires Run(ss, es) && n < |ss|
    ensures ScanOk(ss[n], ss[n].Pc(p))
  {
    if n > 0 {
      ScanOfRun(ss, es, n - 1, p);
      ScanKept(ss, es, n - 1, p);
    }
  }

  /** How a pass can have come to count `name` as busy. */
  ghost predicate BusyMove(s: State, p: Pid, after: PC, name: Name) {
    var before := s.Pc(p);
    ScanOf(after).Some? && name in ScanOf(after).value.busy ==>
      || (ScanOf(before).Some? && name in ScanOf(before).value.busy)
      || (before.PruneOpen? && before.name == name && before.inode in s.holder && s.holder[before.inode] != p)
  }

  lemma BusyStep(s: State, p: Pid, a: Action, name: Name)
    requires Inv(s) && Enabled(s, p, a)
    ensures BusyMove(s, p, Do(s, p, a).Pc(p), name)
  {
    assert Coherent(s, p, s.Pc(p));
  }

  lemma BusyMoveOfRun(ss: seq<State>, es: seq<Event>, n: nat, p: Pid, name: Name)
    requires Run(ss, es) && n < |es|
    ensures Inv(ss[n]) && BusyMove(ss[n], p, ss[n + 1].Pc(p), name)
  {
    StepOfRun(ss, es, n);
    assert StepAt(ss, es, n);
    if es[n].pid == p {
      BusyStep(ss[n], p, es[n].action, name);
    }
  }

  ghost predicate IsBusy(pc: PC, name: Name) {
    ScanOf(pc).Some? && name in ScanOf(pc).value.busy
  }

  /** Directory `name` is being probed by `p` and its lock belongs to the live guard `g`. */
  ghost predicate ProbedOwned(s: State, p: Pid, name: Name, g: Pid) {
    g != p && s.Pc(p).PruneOpen? && s.Pc(p).name == name && IsGuard(s.Pc(g), name)
  }

  lemma BusyNow(s: State, p: Pid, after: PC, name: Name) returns (g: Pid)
    requires Inv(s) && BusyMove(s, p, after, name) && IsBusy(after, name) && !IsBusy(s.Pc(p), name)
    ensures ProbedOwned(s, p, name, g)
  {
    assert Coherent(s, p, s.Pc(p));
    g := s.holder[s.Pc(p).inode];
    HeldElsewhereIsLive(s, p, name, s.Pc(p).inode);
  }

  /** Either the pass already counted it as busy, or it has just found it owned. */
  lemma BusySince(ss: seq<State>, es: seq<Event>, n: nat, p: Pid, name: Name) returns (g: Pid)
    requires Run(ss, es) && n < |es| && IsBusy(ss[n + 1].Pc(p), name)
    ensures IsBusy(ss[n].Pc(p), name) || ProbedOwned(ss[n], p, name, g)
  {
    g := 0;
    BusyMoveOfRun(ss, es, n, p, name);
    if !IsBusy(ss[n].Pc(p), name) {
      g := BusyNow(ss[n], p, ss[n + 1].Pc(p), name);
    }
  }

  /** A directory that a pass counts as busy had a live owner when this same pass probed it. */
  lemma {:induction false} BusyWasOwned(ss: seq<State>, es: seq<Event>, n: nat, p: Pid, name: Name)
    returns (m: nat, g: Pid)
    requires Run(ss, es) && n < |ss| && IsBusy(ss[n].Pc(p), name)
    ensures m < n && ProbedOwned(ss[m], p, name, g)
    ensures forall t :: m <= t <= n ==> ScanOf(ss[t].Pc(p)).Some?
    decreases n
  {
    assert n > 0;
    g := BusySince(ss, es, n - 1, p, name);
    m := n - 1;
    if IsBusy(ss[m].Pc(p), name) {
      m, g := BusyWasOwned(ss, es, m, p, name);
    }
  }

  /** Where a pass's listing comes from. */
  ghost predicate ListedMove(s: State, p: Pid, after: PC) {
    var before := s.Pc(p);
    ScanOf(after).Some? ==>
      || (ScanOf(before).Some? && ScanOf(before).value.listed == ScanOf(after).value.listed)
      || (before.PruneWait? && ScanOf(after).value.listed == s.dirs)
  }

  /** A pass keeps to what it was asked: a dry run or a real one. */
  ghost predicate DryMove(before: PC, a: Action, after: PC) {
    && (ScanOf(after).Some? ==>
          || before == PruneWait(ScanOf(after).value.dry)
          || (ScanOf(before).Some? && ScanOf(before).value.dry == ScanOf(after).value.dry))
    && (after.PruneWait? ==> before == after || a == StartPrune(after.dry))
  }

  lemma DryStep(s: State, p: Pid, a: Action)
    requires Enabled(s, p, a)
    ensures DryMove(s.Pc(p), a, Do(s, p, a).Pc(p))
  {
  }

  ghost predicate AskedFor(pc: PC, dry: bool) {
    pc == PruneWait(dry) || (ScanOf(pc).Some? && ScanOf(pc).value.dry == dry)
  }

  /** Whatever pass is under way was started with that same choice. */
  lemma {:induction false} DryAsAsked(ss: seq<State>, es: seq<Event>, n: nat, p: Pid, dry: bool) returns (m: nat)
    requires Run(ss, es) && n < |ss| && AskedFor(ss[n].Pc(p), dry)
    ensures m < n && es[m] == Event(p, StartPrune(dry)) && forall t :: m < t <= n ==> AskedFor(ss[t].Pc(p), dry)
    decreases n
  {
    assert n > 0;
    m := n - 1;
    assert StepAt(ss, es, m);
    if es[m].pid == p {
      DryStep(ss[m], p, es[m].action);
    } else {
      StepOfRun(ss, es, m);
    }
    if AskedFor(ss[m].Pc(p), dry) {
      m := DryAsAsked(ss, es, m, p, dry);
    }
  }

  lemma ListedStep(s: State, p: Pid, a: Action)
    requires Enabled(s, p, a)
    ensures ListedMove(s, p, Do(s, p, a).Pc(p))
  {
  }

  lemma ListedMoveOfRun(ss: seq<State>, es: seq<Event>, n: nat, p: Pid)
    requires Run(ss, es) && n < |es|
    ensures ListedMove(ss[n], p, ss[n + 1].Pc(p))
  {
    StepOfRun(ss, es, n);
    assert StepAt(ss, es, n);
    if es[n].pid == p {
      ListedStep(ss[n], p, es[n].action);
    }
  }

  /** The listing is the directories that existed when the pass took the lifecycle lock. */
  lemma {:induction false} ListedAtStart(ss: seq<State>, es: seq<Event>, n: nat, p: Pid) returns (m: nat)
    requires Run(ss, es) && n < |ss| && ScanOf(ss[n].Pc(p)).Some?
    ensures m < n && ss[m].Pc(p).PruneWait? && ss[m].dirs == ScanOf(ss[n].Pc(p)).value.listed
    ensures forall t :: m < t <= n ==> ScanOf(ss[t].Pc(p)).Some?
    decreases n
  {
    assert n > 0;
    ListedMoveOfRun(ss, es, n - 1, p);
    if ss[n - 1].Pc(p).PruneWait? {
      m := n - 1;
    } else {
      m := ListedAtStart(ss, es, n - 1, p);
    }
  }

  /** Earlier in this same pass, `name` was probed and found to belong to a live guard. */
  ghost predicate OwnedWhenPruned(ss: seq<State>, n: nat, p: Pid, name: Name)
    requires n < |ss|
  {
    exists m: nat, g: Pid ::
      && m < n && ProbedOwned(ss[m], p, name, g)
      && forall t :: m <= t <= n ==> ScanOf(ss[t].Pc(p)).Some?
  }

  /** Earlier in this same pass, the try-lock on `name` failed with an error of its own. */
  ghost predicate ProbeFailedAt(ss: seq<State>, es: seq<Event>, n: nat, p: Pid, name: Name)
    requires n < |ss|
  {
    exists m: nat ::
      && m < n && m < |es| && es[m] == Event(p, ProbeFails) && ss[m].Pc(p).PruneOpen? && ss[m].Pc(p).name == name
      && forall t :: m <= t <= n ==> ScanOf(ss[t].Pc(p)).Some?
  }

  ghost predicate IsUnprobed(pc: PC, name: Name) {
    ScanOf(pc).Some? && name in ScanOf(pc).value.unprobed
  }

  lemma UnprobedStep(s: State, p: Pid, a: Action, name: Name)
    requires Enabled(s, p, a) && IsUnprobed(Do(s, p, a).Pc(p), name)
    ensures IsUnprobed(s.Pc(p), name) || (a.ProbeFails? && s.Pc(p).PruneOpen? && s.Pc(p).name == name)
  {
  }

  lemma UnprobedSince(ss: seq<State>, es: seq<Event>, n: nat, p: Pid, name: Name)
    requires Run(ss, es) && n < |es| && IsUnprobed(ss[n + 1].Pc(p), name)
    ensures IsUnprobed(ss[n].Pc(p), name)
            || (es[n] == Event(p, ProbeFails) && ss[n].Pc(p).PruneOpen? && ss[n].Pc(p).name == name)
  {
    StepOfRun(ss, es, n);
    assert StepAt(ss, es, n);
    if es[n].pid == p {
      UnprobedStep(ss[n], p, es[n].action, name);
    }
  }

  lemma {:induction false} UnprobedFailed(ss: seq<State>, es: seq<Event>, n: nat, p: Pid, name: Name) returns (m: nat)
    requires Run(ss, es) && n < |ss| && IsUnprobed(ss[n].Pc(p), name)
    ensures m < n && es[m] == Event(p, ProbeFails) && ss[m].Pc(p).PruneOpen? && ss[m].Pc(p).name == name
    ensures forall t :: m <= t <= n ==> ScanOf(ss[t].Pc(p)).Some?
    decreases n
  {
    assert n > 0;
    m := n - 1;
    UnprobedSince(ss, es, m, p, name);
    if IsUnprobed(ss[m].Pc(p), name) {
      m := UnprobedFailed(ss, es, m, p, name);
    }
  }

  /** A prune pass that reaches the end of its listing leaves only directories that had a live
      owner when probed or whose try-lock failed, and reports exactly how many it removed. A
      dry run removes none and reports how many had no owner. */
  lemma FullPrune(ss: seq<State>, es: seq<Event>, n: nat, p: Pid)
    requires Run(ss, es) && n < |ss|
    requires ss[n].Pc(p).PruneScan? && ss[n].Pc(p).scan.todo == {}
    ensures var sc := ss[n].Pc(p).scan;
            && (!sc.dry ==> ss[n].dirs <= sc.listed && sc.removed == |sc.listed - ss[n].dirs|)
            && (!sc.dry ==> forall d :: d in ss[n].dirs ==> d in sc.unprobed || OwnedWhenPruned(ss, n, p, d))
            && (sc.dry ==> ss[n].dirs == sc.listed && sc.removed == |sc.listed - sc.busy - sc.unprobed|)
            && (forall d :: d in sc.busy ==> OwnedWhenPruned(ss, n, p, d))
            && (forall d :: d in sc.unprobed ==> ProbeFailedAt(ss, es, n, p, d))
  {
    var sc := ss[n].Pc(p).scan;
    ScanOfRun(ss, es, n, p);
    assert sc.listed - sc.busy - sc.unprobed == sc.free;
    assert !sc.dry ==> sc.listed - ss[n].dirs == sc.free;
    forall d | d in sc.busy
      ensures OwnedWhenPruned(ss, n, p, d)
    {
      var m, g := BusyWasOwned(ss, es, n, p, d);
    }
    forall d | d in sc.unprobed
      ensures ProbeFailedAt(ss, es, n, p, d)
    {
      var m := UnprobedFailed(ss, es, n, p, d);
    }
  }

  // ----- Progress

  /** Steps the code takes by itself: no I/O error and no crash. */
  predicate Productive(a: Action) {
    !(a.Abort? || a.Crash? || a.RemoveFails? || a.ProbeFails?)
  }

  ghost predicate CanStep(s: State, p: Pid) {
    exists a :: Productive(a) && Enabled(s, p, a)
  }

  /** The holder of the lifecycle lock always has a step of its own to take. */
  lemma HolderNeverBlocked(ss: seq<State>, es: seq<Event>, n: nat, p: Pid)
    requires Run(ss, es) && n < |ss| && ss[n].lifecycle == Some(p)
    ensures CanStep(ss[n], p)
  {
    var s := ss[n];
    RunInv(ss, es, n);
    ScanOfRun(ss, es, n, p);
    var pc := s.Pc(p);
    assert Coherent(s, p, pc);
    var a: Action;
    match pc {
      case AcquireSlot(k) => a := if k < SLOT_COUNT then MakeDir else GiveUp;
      case AcquireDir(_) => a := OpenLock;
      case AcquireOpen(_, _) => a := TryLock;
      case PruneOpen(_, _, _) => a := TryLock;
      case DropRemove(_, _) => a := Unlink;
      case PruneLocked(sc, _, _) => a := if sc.dry then SkipDry else Unlink;
      case DropUnlinked(_, _) => a := RemoveDir;
      case PruneUnlinked(_, _, _) => a := RemoveDir;
      case DropUnlock(_, _) => a := Unlock;
      case PruneScan(sc) =>
        if sc.todo == {} {
          a := Release;
        } else {
          var d :| d in sc.todo;
          a := OpenEntry(d);
        }
      case _ => a := Release;
    }
    assert Enabled(s, p, a);
  }

  /** No reachable state is deadlocked: whenever some actor is in the middle of something,
      some actor can take a step. */
  lemma NoDeadlock(ss: seq<State>, es: seq<Event>, n: nat, p: Pid)
    requires Run(ss, es) && n < |ss|
    requires !ss[n].Pc(p).Idle? && !ss[n].Pc(p).Live?
    ensures exists q: Pid :: CanStep(ss[n], q)
  {
    var s := ss[n];
    RunInv(ss, es, n);
    if s.lifecycle.Some? {
      HolderNeverBlocked(ss, es, n, s.lifecycle.value);
    } else {
      assert Coherent(s, p, s.Pc(p));
      assert Enabled(s, p, TakeLifecycle);
      assert CanStep(s, p);
    }
  }

  /** How many own steps can remain before the lifecycle lock is released. */
  function Remaining(pc: PC): int {
    match pc
    case AcquireSlot(k) => 3 * (SLOT_COUNT - k) + 2
    case AcquireDir(k) => 3 * (SLOT_COUNT - k) + 1
    case AcquireOpen(k, _) => 3 * (SLOT_COUNT - k)
    case DropRemove(_, _) => 4
    case DropUnlinked(_, _) => 3
    case DropUnlock(_, _) => 2
    case PruneScan(sc) => 4 * |sc.todo| + 1
    case PruneOpen(sc, _, _) => 4 * |sc.todo|
    case PruneLocked(sc, _, _) => 4 * |sc.todo| - 1
    case PruneUnlinked(sc, _, _) => 4 * |sc.todo| - 2
    case _ => 1
  }

  lemma FewerLeft(todo: set<Name>, n: Name)
    requires n in todo
    ensures |todo - {n}| == |todo| - 1
  {
  }

  lemma CriticalPruneStep(s: State, p: Pid, a: Action)
    requires Enabled(s, p, a) && ScanOf(s.Pc(p)).Some?
    requires s.Pc(p).PruneScan? || s.Pc(p).name in s.Pc(p).scan.todo
    ensures Remaining(s.Pc(p)) > 0
    ensures var after := Do(s, p, a).Pc(p);
            InCritical(after) ==> Remaining(after) < Remaining(s.Pc(p))
  {
    if !s.Pc(p).PruneScan? {
      FewerLeft(s.Pc(p).scan.todo, s.Pc(p).name);
    }
  }

  lemma CriticalStep(s: State, p: Pid, a: Action)
    requires Enabled(s, p, a) && Coherent(s, p, s.Pc(p)) && ScanOk(s, s.Pc(p)) && InCritical(s.Pc(p))
    ensures Remaining(s.Pc(p)) > 0
    ensures var after := Do(s, p, a).Pc(p);
            InCritical(after) ==> Remaining(after) < Remaining(s.Pc(p))
  {
    if ScanOf(s.Pc(p)).Some? {
      CriticalPruneStep(s, p, a);
    }
  }

  /** Every step of the lock holder brings its release nearer, and nobody else's step delays
      it: each critical section is over after finitely many of its own steps. */
  lemma CriticalSectionEnds(ss: seq<State>, es: seq<Event>, n: nat, p: Pid)
    requires Run(ss, es) && n < |es| && ss[n].lifecycle == Some(p)
    ensures Remaining(ss[n].Pc(p)) > 0
    ensures es[n].pid != p ==> ss[n + 1].lifecycle == Some(p) && ss[n + 1].Pc(p) == ss[n].Pc(p)
    ensures es[n].pid == p && ss[n + 1].lifecycle == Some(p) ==>
              Remaining(ss[n + 1].Pc(p)) < Remaining(ss[n].Pc(p))
  {
    StepOfRun(ss, es, n);
    assert StepAt(ss, es, n);
    ScanOfRun(ss, es, n, p);
    var s := ss[n];
    assert Coherent(s, p, s.Pc(p)) && Coherent(ss[n + 1], p, ss[n + 1].Pc(p));
    if es[n].pid == p {
      CriticalStep(s, p, es[n].action);
    } else {
      assert Enabled(s, p, Crash);
      CriticalStep(s, p, Crash);
    }
  }
}
