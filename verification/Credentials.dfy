/**
 Named credentials (src/credentials.rs) under concurrency: a save prepares its file before
 it takes the lock, a sign-in reads a credential and writes its outcome back much later,
 and each late write is accepted only if the revision it read is still the stored one.
 */
module Credentials {
  import opened Basics

  type Id = string
  type Revision = string
  type Actor = nat

  /** Something derived from a login, with the secret it was derived from. */
  datatype Derived = Derived(text: string, secret: string)

  datatype Stored = Stored(
    secret: string, revision: Revision, session: Option<Derived>, loginRejected: Option<Derived>)

  /** A prepared temporary file on its way to a credential's path. */
  datatype Staged = Staged(id: Id, file: Stored)

  /** What a sign-in read before it went off to the network. */
  datatype Attempt = Attempt(id: Id, revision: Revision, secret: string)

  /** `issued` holds every revision that was ever used. */
  datatype State = State(
    files: map<Id, Stored>, staged: map<Actor, Staged>, attempts: map<Actor, Attempt>, issued: set<Revision>)

  datatype Step =
    | Prepare(actor: Actor, id: Id, secret: string, revision: Revision)
    | Persist(actor: Actor)
    | Abandon(actor: Actor)
    | Remove(id: Id)
    | Read(actor: Actor, id: Id)
    | CacheSession(actor: Actor, session: string)
    | RejectLogin(actor: Actor, reason: string)

  /** A save draws a fresh random revision; the other steps have nothing to ask of anyone. */
  predicate Possible(s: State, step: Step) {
    match step
    case Prepare(a, _, _, revision) => a !in s.staged && revision !in s.issued
    case Persist(a) => a in s.staged
    case Abandon(a) => a in s.staged
    case CacheSession(a, _) => a in s.attempts
    case RejectLogin(a, _) => a in s.attempts
    case _ => true
  }

  /** `update_revision_at`'s test: the credential exists and is still the one that was read. */
  predicate Current(s: State, at: Attempt) {
    at.id in s.files && s.files[at.id].revision == at.revision
  }

  function Do(s: State, step: Step): State
    requires Possible(s, step)
  {
    match step
    case Prepare(a, id, secret, revision) =>
      s.(staged := s.staged[a := Staged(id, Stored(secret, revision, None, None))],
         issued := s.issued + {revision})
    case Persist(a) =>
      s.(files := s.files[s.staged[a].id := s.staged[a].file], staged := s.staged - {a})
    case Abandon(a) => s.(staged := s.staged - {a})
    case Remove(id) => s.(files := s.files - {id})
    case Read(a, id) =>
      if id in s.files
      then s.(attempts := s.attempts[a := Attempt(id, s.files[id].revision, s.files[id].secret)])
      else s
    case CacheSession(a, session) =>
      var at := s.attempts[a];
      if Current(s, at)
      then s.(files := s.files[at.id := s.files[at.id].(session := Some(Derived(session, at.secret)))])
      else s
    case RejectLogin(a, reason) =>
      var at := s.attempts[a];
      if Current(s, at)
      then s.(files := s.files[at.id := s.files[at.id].(session := None, loginRejected := Some(Derived(reason, at.secret)))])
      else s
  }

  ghost predicate Run(ss: seq<State>, steps: seq<Step>) {
    && |ss| == |steps| + 1
    && Init(ss[0])
    && forall i :: 0 <= i < |steps| ==> StepAt(ss, steps, i)
  }

  ghost predicate StepAt(ss: seq<State>, steps: seq<Step>, i: nat)
    requires i < |steps| && |ss| == |steps| + 1
  {
    Possible(ss[i], steps[i]) && ss[i + 1] == Do(ss[i], steps[i])
  }

  /** Existing credentials may share revisions: records older than the field all have "". */
  ghost predicate Init(s: State) {
    && s.staged == map[] && s.attempts == map[]
    && (forall id :: id in s.files ==> s.files[id].revision in s.issued && Genuine(s.files[id]))
  }

  /** Whatever is stored beside the secret was derived from that very secret. */
  predicate Genuine(f: Stored) {
    && (f.session.Some? ==> f.session.value.secret == f.secret)
    && (f.loginRejected.Some? ==> f.loginRejected.value.secret == f.secret)
  }

  /** An actor's pending write can only ever land on the secret it was derived from. */
  ghost predicate AttemptsMatch(s: State) {
    forall a :: a in s.attempts && Current(s, s.attempts[a]) ==> s.files[s.attempts[a].id].secret == s.attempts[a].secret
  }

  ghost predicate AllIssued(s: State) {
    && (forall id :: id in s.files ==> s.files[id].revision in s.issued)
    && (forall a :: a in s.attempts ==> s.attempts[a].revision in s.issued)
    && (forall a :: a in s.staged ==> s.staged[a].file.revision in s.issued)
  }

  /** A prepared revision has not been seen by anyone yet. */
  ghost predicate Unseen(s: State, a: Actor)
    requires a in s.staged
  {
    var file := s.staged[a].file;
    && file.session.None? && file.loginRejected.None?
    && (forall id :: id in s.files ==> s.files[id].revision != file.revision)
    && (forall b :: b in s.attempts ==> s.attempts[b].revision != file.revision)
    && (forall b :: b in s.staged && b != a ==> s.staged[b].file.revision != file.revision)
  }

  ghost predicate StagedUnseen(s: State) {
    forall a :: a in s.staged ==> Unseen(s, a)
  }

  ghost predicate Inv(s: State) {
    && AllIssued(s) && StagedUnseen(s) && AttemptsMatch(s)
    && forall id :: id in s.files ==> Genuine(s.files[id])
  }

  lemma StepKeepsIssued(s: State, step: Step)
    requires AllIssued(s) && Possible(s, step)
    ensures AllIssued(Do(s, step))
  {
  }

  lemma StepKeepsUnseen(s: State, step: Step, a: Actor)
    requires AllIssued(s) && StagedUnseen(s) && Possible(s, step) && a in Do(s, step).staged
    ensures Unseen(Do(s, step), a)
  {
    if step.Persist? {
      assert Unseen(s, step.actor);
    }
  }

  lemma StepKeepsMatches(s: State, step: Step)
    requires StagedUnseen(s) && AttemptsMatch(s) && Possible(s, step)
    ensures AttemptsMatch(Do(s, step))
  {
  }

  lemma StepKeepsGenuine(s: State, step: Step, id: Id)
    requires Inv(s) && Possible(s, step) && id in Do(s, step).files
    ensures Genuine(Do(s, step).files[id])
  {
    // The only file a step can touch in place is the current one of an attempt.
    if step.CacheSession? || step.RejectLogin? {
      var at := s.attempts[step.actor];
      assert Current(s, at) ==> s.files[at.id].secret == at.secret;
    }
  }

  lemma StepInv(s: State, step: Step)
    requires Inv(s) && Possible(s, step)
    ensures Inv(Do(s, step))
  {
    StepKeepsIssued(s, step);
    StepKeepsMatches(s, step);
    forall a | a in Do(s, step).staged
      ensures Unseen(Do(s, step), a)
    {
      StepKeepsUnseen(s, step, a);
    }
    forall id | id in Do(s, step).files
      ensures Genuine(Do(s, step).files[id])
    {
      StepKeepsGenuine(s, step, id);
    }
  }

  lemma {:induction false} RunInv(ss: seq<State>, steps: seq<Step>, n: nat)
    requires Run(ss, steps) && n < |ss|
    ensures Inv(ss[n])
  {
    if n > 0 {
      RunInv(ss, steps, n - 1);
      assert StepAt(ss, steps, n - 1);
      StepInv(ss[n - 1], steps[n - 1]);
    }
  }

  /** In every interleaving, a stored session or login rejection was produced from the secret
      that is stored now. */
  lemma StoredOutcomesAreGenuine(ss: seq<State>, steps: seq<Step>, n: nat, id: Id)
    requires Run(ss, steps) && n < |ss| && id in ss[n].files
    ensures Genuine(ss[n].files[id])
  {
    RunInv(ss, steps, n);
  }

  /** Rotation replaces the secret and drops the session and the rejection with it. */
  lemma RotationDropsOutcomes(ss: seq<State>, steps: seq<Step>, n: nat)
    requires Run(ss, steps) && n < |steps| && steps[n].Persist? && steps[n].actor in ss[n].staged
    ensures var staged := ss[n].staged[steps[n].actor];
            && staged.id in ss[n + 1].files
            && ss[n + 1].files[staged.id].secret == staged.file.secret
            && ss[n + 1].files[staged.id].session.None?
            && ss[n + 1].files[staged.id].loginRejected.None?
            && (staged.id in ss[n].files ==> ss[n + 1].files[staged.id].revision != ss[n].files[staged.id].revision)
  {
    RunInv(ss, steps, n);
    assert StepAt(ss, steps, n);
  }

  /** The revision is neither stored under `id` nor on its way there. */
  ghost predicate Retired(s: State, id: Id, r: Revision) {
    && r in s.issued
    && (id in s.files ==> s.files[id].revision != r)
    && (forall a :: a in s.staged && s.staged[a].id == id ==> s.staged[a].file.revision != r)
  }

  lemma StepKeepsRetired(s: State, step: Step, id: Id, r: Revision)
    requires Inv(s) && Possible(s, step) && Retired(s, id, r)
    ensures Retired(Do(s, step), id, r)
  {
  }

  /** Once rotated or removed, a revision never comes back: from then on every late session or
      rejection derived from it is refused. */
  lemma {:induction false} RetiredForEver(ss: seq<State>, steps: seq<Step>, m: nat, n: nat, id: Id, r: Revision)
    requires Run(ss, steps) && m <= n < |ss| && Retired(ss[m], id, r)
    ensures Retired(ss[n], id, r)
    ensures forall a :: a in ss[n].attempts && ss[n].attempts[a].id == id && ss[n].attempts[a].revision == r ==>
                          !Current(ss[n], ss[n].attempts[a])
    decreases n
  {
    if n > m {
      RetiredForEver(ss, steps, m, n - 1, id, r);
      RunInv(ss, steps, n - 1);
      assert StepAt(ss, steps, n - 1);
      StepKeepsRetired(ss[n - 1], steps[n - 1], id, r);
    }
  }

  /** A removal or a rotation retires the revision it replaced. */
  lemma ReplacementRetires(ss: seq<State>, steps: seq<Step>, n: nat, id: Id)
    requires Run(ss, steps) && n < |steps| && id in ss[n].files
    requires steps[n] == Remove(id) || (&& steps[n].Persist? && steps[n].actor in ss[n].staged
                                        && ss[n].staged[steps[n].actor].id == id)
    ensures Retired(ss[n + 1], id, ss[n].files[id].revision)
  {
    RunInv(ss, steps, n);
    assert StepAt(ss, steps, n);
  }

  // ----- What a late write achieves

  /** A session that was derived from the revision still stored is stored beside the secret, and
      nothing else changes. */
  lemma CurrentSessionLands(ss: seq<State>, steps: seq<Step>, n: nat, a: Actor, session: string)
    requires Run(ss, steps) && n < |steps| && steps[n] == CacheSession(a, session)
    ensures a in ss[n].attempts
    ensures var at, s, t := ss[n].attempts[a], ss[n], ss[n + 1];
            && (at.id in s.files && s.files[at.id].revision == at.revision ==>
                  t.files == s.files[at.id := s.files[at.id].(session := Some(Derived(session, s.files[at.id].secret)))])
            && (!(at.id in s.files && s.files[at.id].revision == at.revision) ==> t.files == s.files)
  {
    RunInv(ss, steps, n);
    assert StepAt(ss, steps, n);
  }

  /** A refused login of the revision still stored is remembered and drops the session. */
  lemma CurrentRejectionLands(ss: seq<State>, steps: seq<Step>, n: nat, a: Actor, reason: string)
    requires Run(ss, steps) && n < |steps| && steps[n] == RejectLogin(a, reason)
    ensures a in ss[n].attempts
    ensures var at, s, t := ss[n].attempts[a], ss[n], ss[n + 1];
            && (at.id in s.files && s.files[at.id].revision == at.revision ==>
                  t.files == s.files[at.id := s.files[at.id].(
                               session := None, loginRejected := Some(Derived(reason, s.files[at.id].secret)))])
            && (!(at.id in s.files && s.files[at.id].revision == at.revision) ==> t.files == s.files)
  {
    RunInv(ss, steps, n);
    assert StepAt(ss, steps, n);
  }

  /** A sign-in takes away the revision and the secret that are stored when it reads; removing a
      credential leaves none, and preparing or abandoning a save changes no stored one. */
  lemma OtherStepsAre(ss: seq<State>, steps: seq<Step>, n: nat)
    requires Run(ss, steps) && n < |steps|
    ensures var s, t := ss[n], ss[n + 1];
            match steps[n]
            case Read(a, id) =>
              t.files == s.files
              && (id in s.files ==> a in t.attempts && t.attempts[a] == Attempt(id, s.files[id].revision, s.files[id].secret))
            case Remove(id) => t.files == s.files - {id} && t.attempts == s.attempts
            case Prepare(_, _, _, _) => t.files == s.files && t.attempts == s.attempts
            case Abandon(_) => t.files == s.files && t.attempts == s.attempts
            case _ => t.attempts == s.attempts
  {
    assert StepAt(ss, steps, n);
  }
}
