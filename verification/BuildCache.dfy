/**
 Cargo target slots (src/build_cache.rs) as a state machine. Every actor is one dispatch
 session or one prune run. A slot directory holds a lock file; the file's inode can be
 unlinked while an actor still has it open, so paths and inodes are kept apart. Locks
 are advisory: the lifecycle lock blocks, the lock on an inode is only ever tried.
 */
module BuildCache {
  import opened Basics

  const SLOT_COUNT: nat := 64

  type Pid = nat
  type Inode = nat
  /** Directory names under the target root; the names below SLOT_COUNT are the slots. */
  type Name = nat

  /** The bookkeeping of one prune pass. `free` and `busy` record what each probe found, and
      `unprobed` the entries that were passed over because the try-lock itself failed. */
  datatype Scan = Scan(
    dry: bool, listed: set<Name>, todo: set<Name>, free: set<Name>, busy: set<Name>, unprobed: set<Name>, removed: nat)

  datatype PC =
    | Idle
    | AcquireWait
    | AcquireSlot(slot: nat)
    | AcquireDir(slot: nat)
    | AcquireOpen(slot: nat, inode: Inode)
    | AcquireWon(slot: nat, inode: Inode)
    | AcquireFull
    | Live(slot: nat, inode: Inode)
    | DropWait(slot: nat, inode: Inode)
    | DropRemove(slot: nat, inode: Inode)
    | DropUnlinked(slot: nat, inode: Inode)
    | DropUnlock(slot: nat, inode: Inode)
    | DropDone
    | PruneWait(dry: bool)
    | PruneScan(scan: Scan)
    | PruneOpen(scan: Scan, name: Name, inode: Inode)
    | PruneLocked(scan: Scan, name: Name, inode: Inode)
    | PruneUnlinked(scan: Scan, name: Name, inode: Inode)

  datatype State = State(
    dirs: set<Name>, lockAt: map<Name, Inode>, next: Inode,
    holder: map<Inode, Pid>, lifecycle: Option<Pid>, pcs: map<Pid, PC>)
  {
    function Pc(p: Pid): PC {
      if p in pcs then pcs[p] else Idle
    }

    function Goto(p: Pid, pc: PC): State {
      this.(pcs := pcs[p := pc])
    }
  }

  datatype Action =
    | StartAcquire | StartDrop | StartPrune(dry: bool)
    | TakeLifecycle | Release
    | MakeDir | GiveUp
    | OpenLock | OpenEntry(name: Name)
    | TryLock | ProbeFails
    | Unlink | RemoveDir | RemoveFails | Unlock
    | SkipDry
    | Abort
    | Crash

  // ----- Reading a program counter

  predicate InCritical(pc: PC) {
    !(pc.Idle? || pc.AcquireWait? || pc.Live? || pc.DropWait? || pc.PruneWait?)
  }

  /** The inode whose lock this actor holds. */
  function Holds(pc: PC): Option<Inode> {
    match pc
    case AcquireWon(_, i) => Some(i)
    case Live(_, i) => Some(i)
    case DropWait(_, i) => Some(i)
    case DropRemove(_, i) => Some(i)
    case DropUnlinked(_, i) => Some(i)
    case DropUnlock(_, i) => Some(i)
    case PruneLocked(_, _, i) => Some(i)
    case PruneUnlinked(_, _, i) => Some(i)
    case _ => None
  }

  /** The directory whose lock path must still lead to the inode this actor has open. */
  function Bound(pc: PC): Option<(Name, Inode)> {
    match pc
    case AcquireOpen(k, i) => Some((k, i))
    case AcquireWon(k, i) => Some((k, i))
    case Live(k, i) => Some((k, i))
    case DropWait(k, i) => Some((k, i))
    case DropRemove(k, i) => Some((k, i))
    case PruneOpen(_, n, i) => Some((n, i))
    case PruneLocked(_, n, i) => Some((n, i))
    case _ => None
  }

  /** A session owns this slot: from winning its lock until its own drop starts to remove it. */
  predicate IsGuard(pc: PC, slot: nat) {
    (pc.AcquireWon? || pc.Live? || pc.DropWait? || pc.DropRemove?) && pc.slot == slot
  }

  function ScanOf(pc: PC): Option<Scan> {
    match pc
    case PruneScan(sc) => Some(sc)
    case PruneOpen(sc, _, _) => Some(sc)
    case PruneLocked(sc, _, _) => Some(sc)
    case PruneUnlinked(sc, _, _) => Some(sc)
    case _ => None
  }

  // ----- Steps

  function InodeFor(s: State, n: Name): Inode {
    if n in s.lockAt then s.lockAt[n] else s.next
  }

  /** Open the lock file with create: a missing file becomes a new inode. */
  function Opened(s: State, n: Name): State {
    if n in s.lockAt then s else s.(lockAt := s.lockAt[n := s.next], next := s.next + 1)
  }

  /** Everything this actor holds is closed by the kernel and it is gone. */
  function Closed(s: State, p: Pid): State {
    s.(holder := map i | i in s.holder && s.holder[i] != p :: s.holder[i],
       lifecycle := if s.lifecycle == Some(p) then None else s.lifecycle,
       pcs := s.pcs[p := Idle])
  }

  predicate Enabled(s: State, p: Pid, a: Action) {
    var pc := s.Pc(p);
    match a
    case StartAcquire => pc.Idle?
    case StartDrop => pc.Live?
    case StartPrune(_) => pc.Idle?
    case TakeLifecycle => (pc.AcquireWait? || pc.DropWait? || pc.PruneWait?) && s.lifecycle.None?
    case Release =>
      pc.AcquireWon? || pc.AcquireFull? || pc.DropDone? || (pc.PruneScan? && pc.scan.todo == {})
    case MakeDir => pc.AcquireSlot? && pc.slot < SLOT_COUNT
    case GiveUp => pc.AcquireSlot? && pc.slot >= SLOT_COUNT
    case OpenLock => pc.AcquireDir? && pc.slot in s.dirs
    case OpenEntry(n) => pc.PruneScan? && n in pc.scan.todo && n in s.dirs
    case TryLock => pc.AcquireOpen? || pc.PruneOpen?
    case ProbeFails => pc.PruneOpen?
    case Unlink => pc.DropRemove? || (pc.PruneLocked? && !pc.scan.dry)
    case RemoveDir => pc.DropUnlinked? || pc.PruneUnlinked?
    case RemoveFails => pc.DropRemove? || pc.DropUnlinked?
    case Unlock => pc.DropUnlock?
    case SkipDry => pc.PruneLocked? && pc.scan.dry
    case Abort =>
      // An I/O error: acquire and prune return it, except that prune passes over an entry
      // whose try-lock fails; a drop that cannot take the lifecycle lock gives up. Either way
      // the open files are closed.
      pc.AcquireWait? || pc.AcquireSlot? || pc.AcquireDir? || pc.AcquireOpen? || pc.DropWait?
      || pc.PruneWait? || pc.PruneScan? || pc.PruneLocked? || pc.PruneUnlinked?
    case Crash => true
  }

  function Do(s: State, p: Pid, a: Action): State
    requires Enabled(s, p, a)
  {
    var pc := s.Pc(p);
    match a
    case StartAcquire => s.Goto(p, AcquireWait)
    case StartDrop => s.Goto(p, DropWait(pc.slot, pc.inode))
    case StartPrune(dry) => s.Goto(p, PruneWait(dry))
    case TakeLifecycle =>
      s.(lifecycle := Some(p)).Goto(
        p,
        match pc
        case DropWait(k, i) => DropRemove(k, i)
        case PruneWait(dry) => PruneScan(Scan(dry, s.dirs, s.dirs, {}, {}, {}, 0))
        case _ => AcquireSlot(0))
    case Release =>
      s.(lifecycle := None).Goto(p, if pc.AcquireWon? then Live(pc.slot, pc.inode) else Idle)
    case MakeDir => s.(dirs := s.dirs + {pc.slot}).Goto(p, AcquireDir(pc.slot))
    case GiveUp => s.Goto(p, AcquireFull)
    case OpenLock => Opened(s, pc.slot).Goto(p, AcquireOpen(pc.slot, InodeFor(s, pc.slot)))
    case OpenEntry(n) => Opened(s, n).Goto(p, PruneOpen(pc.scan, n, InodeFor(s, n)))
    case TryLock =>
      var locked := s.(holder := s.holder[pc.inode := p]);
      if pc.AcquireOpen? then
        if pc.inode in s.holder then s.Goto(p, AcquireSlot(pc.slot + 1))
        else locked.Goto(p, AcquireWon(pc.slot, pc.inode))
      else
        if pc.inode in s.holder then
          s.Goto(p, PruneScan(pc.scan.(todo := pc.scan.todo - {pc.name}, busy := pc.scan.busy + {pc.name})))
        else locked.Goto(p, PruneLocked(pc.scan, pc.name, pc.inode))
    case ProbeFails =>
      s.Goto(p, PruneScan(pc.scan.(todo := pc.scan.todo - {pc.name}, unprobed := pc.scan.unprobed + {pc.name})))
    case Unlink =>
      if pc.DropRemove? then s.(lockAt := s.lockAt - {pc.slot}).Goto(p, DropUnlinked(pc.slot, pc.inode))
      else s.(lockAt := s.lockAt - {pc.name}).Goto(p, PruneUnlinked(pc.scan, pc.name, pc.inode))
    case RemoveDir =>
      if pc.DropUnlinked? then s.(dirs := s.dirs - {pc.slot}).Goto(p, DropUnlock(pc.slot, pc.inode))
      else
        s.(dirs := s.dirs - {pc.name}, holder := s.holder - {pc.inode})
         .Goto(p, PruneScan(Probed(pc.scan, pc.name)))
    case RemoveFails => s.Goto(p, DropUnlock(pc.slot, pc.inode))
    case Unlock => s.(holder := s.holder - {pc.inode}).Goto(p, DropDone)
    case SkipDry => s.(holder := s.holder - {pc.inode}).Goto(p, PruneScan(Probed(pc.scan, pc.name)))
    case Abort => Closed(s, p)
    case Crash => Closed(s, p)
  }

  /** The pass has dealt with an entry that had no live owner. */
  function Probed(sc: Scan, n: Name): Scan {
    sc.(todo := sc.todo - {n}, free := sc.free + {n}, removed := sc.removed + 1)
  }

  // ----- Runs

  /** Any directories and lock files may be left over from earlier crashes. */
  ghost predicate Init(s: State) {
    && s.holder == map[] && s.lifecycle == None
    && (forall p :: s.Pc(p) == Idle)
    && Files(s)
  }

  datatype Event = Event(pid: Pid, action: Action)

  ghost predicate StepAt(ss: seq<State>, es: seq<Event>, i: nat)
    requires i < |es| && |ss| == |es| + 1
  {
    && Enabled(ss[i], es[i].pid, es[i].action)
    && ss[i + 1] == Do(ss[i], es[i].pid, es[i].action)
  }

  ghost predicate Run(ss: seq<State>, es: seq<Event>) {
    && |ss| == |es| + 1
    && Init(ss[0])
    && forall i :: 0 <= i < |es| ==> StepAt(ss, es, i)
  }

  // ----- The invariant

  /** Lock files live in directories and no two paths share an inode. */
  ghost predicate Files(s: State) {
    && (forall n :: n in s.lockAt ==> n in s.dirs && s.lockAt[n] < s.next)
    && (forall m, n :: m in s.lockAt && n in s.lockAt && m != n ==> s.lockAt[m] != s.lockAt[n])
    && (forall i :: i in s.holder ==> i < s.next)
  }

  /** Every held lock is held by an actor that knows it. */
  ghost predicate Holders(s: State) {
    forall i :: i in s.holder ==> Holds(s.Pc(s.holder[i])) == Some(i)
  }

  /** What the counter of actor `p` promises about the shared state. */
  ghost predicate Coherent(s: State, p: Pid, pc: PC) {
    && (InCritical(pc) <==> s.lifecycle == Some(p))
    && (Holds(pc).Some? ==> Holds(pc).value in s.holder && s.holder[Holds(pc).value] == p)
    && (Bound(pc).Some? ==> Bound(pc).value.0 in s.lockAt && s.lockAt[Bound(pc).value.0] == Bound(pc).value.1)
    && (pc.AcquireSlot? ==> pc.slot <= SLOT_COUNT)
    && (pc.AcquireDir? ==> pc.slot < SLOT_COUNT && pc.slot in s.dirs)
    && (pc.AcquireOpen? || pc.AcquireWon? || pc.Live? || pc.DropWait? || pc.DropRemove? || pc.DropUnlinked? ==>
          pc.slot < SLOT_COUNT)
    && (pc.DropUnlinked? ==> pc.slot !in s.lockAt)
    && (pc.PruneUnlinked? ==> pc.name !in s.lockAt)
  }

  ghost predicate Inv(s: State) {
    && Files(s)
    && Holders(s)
    && forall p: Pid :: Coherent(s, p, s.Pc(p))
  }

  lemma InitInv(s: State)
    requires Init(s)
    ensures Inv(s)
  {
  }

  // ----- Every step keeps it

  /** What another actor's step must leave alone for `q`. */
  ghost predicate Undisturbed(s: State, t: State, q: Pid) {
    var pc := s.Pc(q);
    && t.Pc(q) == pc
    && (s.lifecycle == Some(q) <==> t.lifecycle == Some(q))
    && (Holds(pc).Some? ==> Holds(pc).value in t.holder && t.holder[Holds(pc).value] == q)
    && (Bound(pc).Some? ==> Bound(pc).value.0 in t.lockAt && t.lockAt[Bound(pc).value.0] == Bound(pc).value.1)
    && (InCritical(pc) ==> t.dirs == s.dirs && t.lockAt == s.lockAt)
  }

  lemma UndisturbedCoherent(s: State, t: State, q: Pid)
    requires Coherent(s, q, s.Pc(q)) && Undisturbed(s, t, q)
    ensures Coherent(t, q, t.Pc(q))
  {
  }

  /** The most a step of `p` can do to the shared state. */
  ghost predicate Footprint(s: State, t: State, p: Pid) {
    && t.pcs == s.pcs[p := t.Pc(p)]
    && (t.lifecycle == s.lifecycle
        || (s.lifecycle in {None, Some(p)} && t.lifecycle in {None, Some(p)}))
    && (forall i :: i in s.holder && s.holder[i] != p ==> i in t.holder && t.holder[i] == s.holder[i])
    && (!InCritical(s.Pc(p)) ==> t.dirs == s.dirs && t.lockAt == s.lockAt)
    && (forall n :: n in s.lockAt && !(Holds(s.Pc(p)) == Some(s.lockAt[n])) ==> n in t.lockAt && t.lockAt[n] == s.lockAt[n])
  }

  lemma FootprintUndisturbed(s: State, t: State, p: Pid, q: Pid)
    requires Inv(s) && Footprint(s, t, p) && p != q
    ensures Undisturbed(s, t, q)
  {
    assert Coherent(s, p, s.Pc(p)) && Coherent(s, q, s.Pc(q));
  }

  /** The part of the invariant that a step of `p` needs and restores. */
  ghost predicate Settled(s: State, p: Pid) {
    Files(s) && Holders(s) && Coherent(s, p, s.Pc(p))
  }

  lemma Assemble(s: State, t: State, p: Pid)
    requires Inv(s) && Footprint(s, t, p) && Settled(t, p)
    ensures Inv(t)
  {
    forall q: Pid
      ensures Coherent(t, q, t.Pc(q))
    {
      if q != p {
        FootprintUndisturbed(s, t, p, q);
        UndisturbedCoherent(s, t, q);
      }
    }
  }

  lemma StayKeeps(s: State, p: Pid, a: Action)
    requires a.StartAcquire? || a.StartPrune? || a.GiveUp?
    requires Settled(s, p) && Enabled(s, p, a)
    ensures Settled(Do(s, p, a), p) && Footprint(s, Do(s, p, a), p)
  {
  }

  lemma StayHoldingKeeps(s: State, p: Pid, a: Action)
    requires a.StartDrop? || a.RemoveFails?
    requires Settled(s, p) && Enabled(s, p, a)
    ensures Settled(Do(s, p, a), p) && Footprint(s, Do(s, p, a), p)
  {
  }

  lemma TakeLifecycleKeeps(s: State, p: Pid, a: Action)
    requires a.TakeLifecycle?
    requires Settled(s, p) && Enabled(s, p, a)
    ensures Settled(Do(s, p, a), p) && Footprint(s, Do(s, p, a), p)
  {
  }

  lemma ReleaseKeeps(s: State, p: Pid, a: Action)
    requires a.Release?
    requires Settled(s, p) && Enabled(s, p, a)
    ensures Settled(Do(s, p, a), p) && Footprint(s, Do(s, p, a), p)
  {
  }

  lemma MakeDirKeeps(s: State, p: Pid, a: Action)
    requires a.MakeDir?
    requires Settled(s, p) && Enabled(s, p, a)
    ensures Settled(Do(s, p, a), p) && Footprint(s, Do(s, p, a), p)
  {
  }

  lemma OpenLockKeeps(s: State, p: Pid, a: Action)
    requires a.OpenLock?
    requires Settled(s, p) && Enabled(s, p, a)
    ensures Settled(Do(s, p, a), p) && Footprint(s, Do(s, p, a), p)
  {
    OpenedFiles(s, s.Pc(p).slot);
  }

  lemma OpenedFiles(s: State, n: Name)
    requires Files(s) && Holders(s) && n in s.dirs
    ensures var t := Opened(s, n);
            && Files(t) && Holders(t) && n in t.lockAt && t.lockAt[n] == InodeFor(s, n)
            && (forall m :: m in s.lockAt ==> m in t.lockAt && t.lockAt[m] == s.lockAt[m])
  {
  }

  lemma OpenOldEntryKeeps(s: State, p: Pid, a: Action)
    requires a.OpenEntry? && a.name in s.lockAt
    requires Settled(s, p) && Enabled(s, p, a)
    ensures Settled(Do(s, p, a), p) && Footprint(s, Do(s, p, a), p)
  {
  }

  lemma OpenNewEntryKeeps(s: State, p: Pid, a: Action)
    requires a.OpenEntry? && a.name !in s.lockAt
    requires Settled(s, p) && Enabled(s, p, a)
    ensures Settled(Do(s, p, a), p) && Footprint(s, Do(s, p, a), p)
  {
    OpenedFiles(s, a.name);
  }

  lemma ClaimSlotKeeps(s: State, p: Pid, a: Action)
    requires a.TryLock? && s.Pc(p).AcquireOpen?
    requires Settled(s, p) && Enabled(s, p, a)
    ensures Settled(Do(s, p, a), p) && Footprint(s, Do(s, p, a), p)
  {
  }

  lemma ProbeBusyKeeps(s: State, p: Pid, a: Action)
    requires a.TryLock? && s.Pc(p).PruneOpen? && s.Pc(p).inode in s.holder
    requires Settled(s, p) && Enabled(s, p, a)
    ensures Settled(Do(s, p, a), p) && Footprint(s, Do(s, p, a), p)
  {
  }

  lemma ProbeFailsKeeps(s: State, p: Pid, a: Action)
    requires a.ProbeFails?
    requires Settled(s, p) && Enabled(s, p, a)
    ensures Settled(Do(s, p, a), p) && Footprint(s, Do(s, p, a), p)
  {
  }

  lemma ProbeFreeKeeps(s: State, p: Pid, a: Action)
    requires a.TryLock? && s.Pc(p).PruneOpen? && s.Pc(p).inode !in s.holder
    requires Settled(s, p) && Enabled(s, p, a)
    ensures Settled(Do(s, p, a), p) && Footprint(s, Do(s, p, a), p)
  {
  }

  lemma DropUnlinkKeeps(s: State, p: Pid, a: Action)
    requires a.Unlink? && s.Pc(p).DropRemove?
    requires Settled(s, p) && Enabled(s, p, a)
    ensures Settled(Do(s, p, a), p) && Footprint(s, Do(s, p, a), p)
  {
  }

  lemma PruneUnlinkKeeps(s: State, p: Pid, a: Action)
    requires a.Unlink? && s.Pc(p).PruneLocked?
    requires Settled(s, p) && Enabled(s, p, a)
    ensures Settled(Do(s, p, a), p) && Footprint(s, Do(s, p, a), p)
  {
  }

  lemma RemoveDirKeeps(s: State, p: Pid, a: Action)
    requires a.RemoveDir?
    requires Settled(s, p) && Enabled(s, p, a)
    ensures Settled(Do(s, p, a), p) && Footprint(s, Do(s, p, a), p)
  {
  }

  lemma UnlockKeeps(s: State, p: Pid, a: Action)
    requires a.Unlock? || a.SkipDry?
    requires Settled(s, p) && Enabled(s, p, a)
    ensures Settled(Do(s, p, a), p) && Footprint(s, Do(s, p, a), p)
  {
  }

  lemma CloseKeeps(s: State, p: Pid, a: Action)
    requires a.Abort? || a.Crash?
    requires Settled(s, p) && Enabled(s, p, a)
    ensures Settled(Do(s, p, a), p) && Footprint(s, Do(s, p, a), p)
  {
  }

  /** Every step of every actor, crashes and I/O errors included, keeps the invariant. */
  lemma StepInv(s: State, p: Pid, a: Action)
    requires Inv(s) && Enabled(s, p, a)
    ensures Inv(Do(s, p, a)) && Footprint(s, Do(s, p, a), p)
  {
    assert Settled(s, p);
    match a {
      case TakeLifecycle => TakeLifecycleKeeps(s, p, a);
      case Release => ReleaseKeeps(s, p, a);
      case MakeDir => MakeDirKeeps(s, p, a);
      case OpenLock => OpenLockKeeps(s, p, a);
      case OpenEntry(n) =>
        if n in s.lockAt {
          OpenOldEntryKeeps(s, p, a);
        } else {
          OpenNewEntryKeeps(s, p, a);
        }
      case TryLock =>
        if s.Pc(p).AcquireOpen? {
          ClaimSlotKeeps(s, p, a);
        } else if s.Pc(p).inode in s.holder {
          ProbeBusyKeeps(s, p, a);
        } else {
          ProbeFreeKeeps(s, p, a);
        }
      case Unlink =>
        if s.Pc(p).DropRemove? {
          DropUnlinkKeeps(s, p, a);
        } else {
          PruneUnlinkKeeps(s, p, a);
        }
      case ProbeFails => ProbeFailsKeeps(s, p, a);
      case RemoveDir => RemoveDirKeeps(s, p, a);
      case Unlock | SkipDry => UnlockKeeps(s, p, a);
      case Abort | Crash => CloseKeeps(s, p, a);
      case StartDrop | RemoveFails => StayHoldingKeeps(s, p, a);
      case _ => StayKeeps(s, p, a);
    }
    Assemble(s, Do(s, p, a), p);
  }
}
