/** The control process: any number of threads that share the coordinator lock, the Xray child that
    may exit at any moment, and a control process that may be killed and started again
    (control/src/ezopenpn/profiles/coordinator.py). Statements here are about every run. */
module ProfileSystem {
  import opened Wrappers
  import opened ProfileStore
  import opened ProfileProtocol
  import opened ProfileInvariants
  import opened ProfileSafety
  import opened ProfileUserIds

  type ThreadId = nat

  datatype Thread = Idle | Waiting(op: Op) | Running(op: Op, pc: Pc)

  datatype System = System(
    db: Rows,
    users: Users,
    threads: map<ThreadId, Thread>,
    holder: Option<ThreadId>)

  /** `Call`: a method of the coordinator is called. `Acquire`: its thread gets the lock. `Work`: it
      executes one statement. `Release`: it leaves the lock, returning or raising. `Exit`: the Xray
      child exits by itself. `Crash`: the control process is killed and started again. */
  datatype Label =
    | Call(t: ThreadId, op: Op)
    | Acquire(t: ThreadId)
    | Work(t: ThreadId, act: Act)
    | Release(t: ThreadId)
    | Exit
    | Crash

  function ThreadOf(s: System, t: ThreadId): Thread {
    if t in s.threads then s.threads[t] else Idle
  }

  function CoreOf(s: System, t: ThreadId): Core
    requires ThreadOf(s, t).Running?
  {
    Core(s.db, s.users, s.threads[t].op, s.threads[t].pc)
  }

  // The lock guards nothing by itself: a running thread works whether or not it holds it.
  function Next(s: System, l: Label): Option<System> {
    match l
    case Call(t, op) =>
      if ThreadOf(s, t).Idle? then Some(s.(threads := s.threads[t := Waiting(op)])) else None
    case Acquire(t) =>
      if ThreadOf(s, t).Waiting? && s.holder.None? then
        var op := s.threads[t].op;
        Some(s.(threads := s.threads[t := Running(op, Start(op))], holder := Some(t)))
      else None
    case Work(t, act) =>
      if ThreadOf(s, t).Running? && Step(CoreOf(s, t), act).Some? then
        var c := Step(CoreOf(s, t), act).value;
        Some(s.(db := c.db, users := c.users, threads := s.threads[t := Running(c.op, c.pc)]))
      else None
    case Release(t) =>
      if ThreadOf(s, t).Running? && s.threads[t].pc.Finish? then
        Some(s.(threads := s.threads[t := Idle], holder := None))
      else None
    case Exit => Some(s.(users := map[]))
    case Crash => Some(s.(threads := map[], holder := None))
  }

  datatype Run = Run(states: seq<System>, labels: seq<Label>)

  // A run starts with stored rows in their usual shape and arbitrary runtime contents.
  ghost predicate IsRun(run: Run) {
    && |run.states| == |run.labels| + 1
    && WellKept(run.states[0].db)
    && run.states[0].threads == map[] && run.states[0].holder.None?
    && forall i :: 0 <= i < |run.labels| ==> Moves(run, i)
  }

  ghost predicate Moves(run: Run, i: int)
    requires |run.states| == |run.labels| + 1
    requires 0 <= i < |run.labels|
  {
    Next(run.states[i], run.labels[i]) == Some(run.states[i + 1])
  }

  // Mutual exclusion, and the protocol invariant of the thread inside.
  ghost predicate Sound(s: System) {
    && WellKept(s.db)
    && (forall t: ThreadId :: ThreadOf(s, t).Running? <==> s.holder == Some(t))
    && (s.holder.Some? ==> Inv(CoreOf(s, s.holder.value)))
  }

  lemma WorkKeepsSound(s: System, t: ThreadId, act: Act)
    requires Sound(s) && Next(s, Work(t, act)).Some?
    ensures Sound(Next(s, Work(t, act)).value)
  {
    StepKeepsInv(CoreOf(s, t), act);
  }

  lemma EntryKeepsSound(s: System, t: ThreadId)
    requires Sound(s) && Next(s, Acquire(t)).Some?
    ensures Sound(Next(s, Acquire(t)).value)
  {
  }

  lemma NextKeepsSound(s: System, l: Label)
    requires Sound(s) && Next(s, l).Some?
    ensures Sound(Next(s, l).value)
  {
    var s' := Next(s, l).value;
    match l {
      case Call(t, op) =>
      case Acquire(t) => EntryKeepsSound(s, t);
      case Work(t, act) => WorkKeepsSound(s, t, act);
      case Release(t) =>
      case Exit => if s.holder.Some? { ChildExitKeepsInv(CoreOf(s, s.holder.value)); }
      case Crash =>
    }
  }

  lemma {:induction false} EveryStateSound(run: Run, i: nat)
    requires IsRun(run) && i < |run.states|
    ensures Sound(run.states[i])
  {
    if i > 0 {
      EveryStateSound(run, i - 1);
      assert Moves(run, i - 1);
      NextKeepsSound(run.states[i - 1], run.labels[i - 1]);
    }
  }

  /** At most one thread is inside the coordinator, and it is the lock holder. */
  lemma MutualExclusion(run: Run, i: nat, t: ThreadId, u: ThreadId)
    requires IsRun(run) && i < |run.states|
    requires ThreadOf(run.states[i], t).Running? && ThreadOf(run.states[i], u).Running?
    ensures t == u && run.states[i].holder == Some(t)
  {
    EveryStateSound(run, i);
  }

  // ---- revoked access stays revoked ----

  // A disable or a delete returns to its caller.
  predicate ReturnsFromRevocation(s: System, l: Label) {
    && l.Release? && ThreadOf(s, l.t).Running?
    && s.threads[l.t].pc == Finish(true)
    && (s.threads[l.t].op.Disable? || s.threads[l.t].op.Delete?)
  }

  // An operation that may give the id access again enters the coordinator: an enable of the profile
  // that has it, or a create that drew it and will not find it taken.
  ghost predicate Readmits(s: System, l: Label, rid: RuntimeId) {
    && l.Acquire? && ThreadOf(s, l.t).Waiting?
    && var op := s.threads[l.t].op;
       || (op.Enable? && Concerns(s.db, op, rid))
       || (op.Create? && op.material.rid == rid && InsertPending(s.db, op.material).Success?)
  }

  // The id is in neither store, and nobody inside the coordinator provisions it.
  ghost predicate Out(s: System, rid: RuntimeId) {
    && rid !in s.users && !ActiveId(s.db, rid)
    && (s.holder.Some? && ThreadOf(s, s.holder.value).Running? ==>
          Barred(CoreOf(s, s.holder.value), rid))
  }

  lemma NextKeepsOut(s: System, l: Label, rid: RuntimeId)
    requires Sound(s) && Out(s, rid) && Next(s, l).Some?
    requires !Readmits(s, l, rid)
    ensures Out(Next(s, l).value, rid)
  {
    match l {
      case Work(t, act) => BarredStep(CoreOf(s, t), act, rid);
      case Acquire(t) => EntersBarred(s, t, rid);
      case _ =>
    }
  }

  lemma EntersBarred(s: System, t: ThreadId, rid: RuntimeId)
    requires Out(s, rid) && Next(s, Acquire(t)).Some? && !Readmits(s, Acquire(t), rid)
    ensures Barred(CoreOf(Next(s, Acquire(t)).value, t), rid)
  {
  }

  lemma {:induction false} OutUntilReadmitted(run: Run, i: nat, j: nat, rid: RuntimeId)
    requires IsRun(run) && i <= j < |run.states|
    requires Out(run.states[i], rid)
    requires forall k :: i <= k < j ==> !Readmits(run.states[k], run.labels[k], rid)
    ensures Out(run.states[j], rid)
  {
    if i < j {
      OutUntilReadmitted(run, i, j - 1, rid);
      EveryStateSound(run, j - 1);
      assert Moves(run, j - 1);
      NextKeepsOut(run.states[j - 1], run.labels[j - 1], rid);
    }
  }

  /** Once a disable or delete has returned normally, every runtime id that belongs to no ACTIVE
      profile is absent from the runtime, and stays absent whatever other threads, failing calls,
      child exits and crashes do, until an enable of its profile enters the coordinator, or a create
      that drew the same id and does not find it taken. */
  lemma RevokedStaysOut(run: Run, i: nat, j: nat, rid: RuntimeId)
    requires IsRun(run) && i < j < |run.states|
    requires ReturnsFromRevocation(run.states[i], run.labels[i])
    requires !ActiveId(run.states[i].db, rid)
    requires forall k :: i < k < j ==> !Readmits(run.states[k], run.labels[k], rid)
    ensures rid !in run.states[j].users && !ActiveId(run.states[j].db, rid)
  {
    EveryStateSound(run, i);
    assert Moves(run, i);
    OutUntilReadmitted(run, i + 1, j, rid);
  }

  /** In particular the profile that was disabled: its own runtime id is out. */
  lemma DisabledStaysOut(run: Run, i: nat, j: nat, p: ProfileId, rid: RuntimeId)
    requires IsRun(run) && i < j < |run.states|
    requires ReturnsFromRevocation(run.states[i], run.labels[i])
    requires run.states[i].threads[run.labels[i].t].op == Disable(p)
    requires p in run.states[i].db ==> run.states[i].db[p].rid == rid
    requires forall k :: i < k < j ==> !Readmits(run.states[k], run.labels[k], rid)
    ensures p in run.states[i].db && run.states[i].db[p].state.Disabled?
    ensures rid !in run.states[j].users
  {
    EveryStateSound(run, i);
    assert Moves(run, i);
    RevokedStaysOut(run, i, j, rid);
  }

  // The profile is stored under the id from state `i` to state `j`.
  ghost predicate KeepsId(run: Run, i: nat, j: nat, p: ProfileId, rid: RuntimeId)
    requires j < |run.states|
  {
    forall k :: i <= k <= j ==> Owns(run.states[k].db, p, rid)
  }

  lemma StoredIdIsTaken(s: System, l: Label, p: ProfileId, rid: RuntimeId)
    requires WellKept(s.db) && Owns(s.db, p, rid) && Readmits(s, l, rid)
    ensures s.threads[l.t].op == Enable(p)
  {
  }

  /** While the disabled profile is stored, only an enable of it can let its id in again: a create that
      draws the same id fails. */
  lemma StoredStaysOut(run: Run, i: nat, j: nat, p: ProfileId, rid: RuntimeId)
    requires IsRun(run) && i < j < |run.states| && KeepsId(run, i, j, p, rid)
    requires ReturnsFromRevocation(run.states[i], run.labels[i])
    requires run.states[i].threads[run.labels[i].t].op == Disable(p)
    requires forall k :: i < k < j && run.labels[k].Acquire? ==>
               ThreadOf(run.states[k], run.labels[k].t) != Waiting(Enable(p))
    ensures rid !in run.states[j].users
  {
    forall k | i < k < j ensures !Readmits(run.states[k], run.labels[k], rid) {
      EveryStateSound(run, k);
      assert Owns(run.states[k].db, p, rid);
      if Readmits(run.states[k], run.labels[k], rid) { StoredIdIsTaken(run.states[k], run.labels[k], p, rid); }
    }
    assert Owns(run.states[i].db, p, rid);
    DisabledStaysOut(run, i, j, p, rid);
  }

  // ---- who is to blame for a user without an ACTIVE profile ----

  // An operation on the id's profile comes to raise without having healed the runtime, or dies with
  // the control process.
  ghost predicate Aborts(s: System, l: Label, s': System, rid: RuntimeId) {
    || (l.Work? && ThreadOf(s, l.t).Running? && ThreadOf(s', l.t).Running?
        && s'.threads[l.t].pc == Finish(false) && s.threads[l.t].pc != ReconcileDone(true)
        && Concerns(s.db, s.threads[l.t].op, rid))
    || (l.Crash? && Busy(s, rid))
  }

  // An operation on the id's profile is at work.
  ghost predicate Busy(s: System, rid: RuntimeId) {
    && s.holder.Some? && ThreadOf(s, s.holder.value).Running?
    && s.threads[s.holder.value].pc != Finish(false)
    && Concerns(s.db, s.threads[s.holder.value].op, rid)
  }

  // A reconciliation succeeds, or a disable or delete returns.
  predicate Cleans(s: System, l: Label) {
    || ReturnsFromRevocation(s, l)
    || (l.Work? && ThreadOf(s, l.t).Running? && s.threads[l.t].pc == ReconcileDone(true))
  }

  ghost predicate AbortsAt(run: Run, k: int, rid: RuntimeId)
    requires |run.states| == |run.labels| + 1 && 0 <= k < |run.labels|
  {
    Aborts(run.states[k], run.labels[k], run.states[k + 1], rid)
  }

  ghost predicate CleansAt(run: Run, k: int)
    requires |run.states| == |run.labels| + 1 && 0 <= k < |run.labels|
  {
    Cleans(run.states[k], run.labels[k])
  }

  // Since the last cleaning, an operation on the id's profile was aborted, or the id was in the
  // runtime from the start.
  ghost predicate Blamed(run: Run, i: nat, rid: RuntimeId)
    requires |run.states| == |run.labels| + 1 && i < |run.states|
  {
    || (rid in run.states[0].users && NoCleaning(run, 0, i))
    || exists k {:trigger AbortsAt(run, k, rid)} :: 0 <= k < i && AbortsAt(run, k, rid) && NoCleaning(run, k + 1, i)
  }

  ghost predicate NoCleaning(run: Run, from: int, to: int)
    requires |run.states| == |run.labels| + 1 && 0 <= from && to < |run.states|
  {
    forall k {:trigger CleansAt(run, k)} :: from <= k < to ==> !CleansAt(run, k)
  }

  lemma StillBlamed(run: Run, i: nat, rid: RuntimeId)
    requires |run.states| == |run.labels| + 1 && i < |run.labels|
    requires Blamed(run, i, rid) && !CleansAt(run, i)
    ensures Blamed(run, i + 1, rid)
  {
    if rid in run.states[0].users && NoCleaning(run, 0, i) {
      assert NoCleaning(run, 0, i + 1);
    } else {
      var k :| 0 <= k < i && AbortsAt(run, k, rid) && NoCleaning(run, k + 1, i);
      assert NoCleaning(run, k + 1, i + 1);
    }
  }

  // The step with which an operation comes to raise changes neither store.
  lemma RaisingIsQuiet(c: Core, a: Act)
    requires Inv(c) && Step(c, a).Some? && Step(c, a).value.pc == Finish(false)
    ensures Step(c, a).value.db == c.db && Step(c, a).value.users == c.users && Step(c, a).value.op == c.op
  {
    StepKeepsOp(c, a);
    if ReconcileStep(c, a).Some? {
      ReconcileRaisesQuietly(c, a);
    } else if ProvisionStep(c, c.op.Subject(), a).Some? {
      ProvisionRaisesQuietly(c, a);
    } else if DisableStep(c, c.op.Subject(), a).Some? {
      DisableRaisesQuietly(c, a);
    }
  }

  lemma ReconcileRaisesQuietly(c: Core, a: Act)
    requires ReconcileStep(c, a).Some? && ReconcileStep(c, a).value.pc == Finish(false)
    ensures ReconcileStep(c, a).value.db == c.db && ReconcileStep(c, a).value.users == c.users
  {
  }

  lemma ProvisionRaisesQuietly(c: Core, a: Act)
    requires Inv(c) && !c.op.Reconcile? && ProvisionStep(c, c.op.Subject(), a).Some?
    requires ProvisionStep(c, c.op.Subject(), a).value.pc == Finish(false)
    ensures var c' := ProvisionStep(c, c.op.Subject(), a).value;
            c'.db == c.db && c'.users == c.users
  {
  }

  lemma DisableRaisesQuietly(c: Core, a: Act)
    requires !c.op.Reconcile? && DisableStep(c, c.op.Subject(), a).Some?
    requires DisableStep(c, c.op.Subject(), a).value.pc == Finish(false) && !c.pc.Readd?
    ensures var c' := DisableStep(c, c.op.Subject(), a).value;
            c'.db == c.db && c'.users == c.users
  {
  }

  // What one step does to a user that has no ACTIVE profile.
  lemma WorkUserComesFrom(s: System, t: ThreadId, act: Act, rid: RuntimeId)
    requires Sound(s) && Next(s, Work(t, act)).Some? && rid in Next(s, Work(t, act)).value.users
    ensures var s', l := Next(s, Work(t, act)).value, Work(t, act);
            || ActiveId(s'.db, rid) || Busy(s', rid) || Aborts(s, l, s', rid)
            || (rid in s.users && !ActiveId(s.db, rid) && !Busy(s, rid) && !Cleans(s, l))
  {
    var c := CoreOf(s, t);
    var c' := Step(c, act).value;
    if Stray(c', rid) {
      StrayStep(c, act, rid);
    } else if c'.pc == Finish(false) {
      RaisingIsQuiet(c, act);
    }
  }

  // What one label does to it.
  lemma UserComesFrom(s: System, l: Label, rid: RuntimeId)
    requires Sound(s) && Next(s, l).Some? && rid in Next(s, l).value.users
    ensures var s' := Next(s, l).value;
            || ActiveId(s'.db, rid) || Busy(s', rid) || Aborts(s, l, s', rid)
            || (rid in s.users && !ActiveId(s.db, rid) && !Busy(s, rid) && !Cleans(s, l))
  {
    match l {
      case Work(t, act) => WorkUserComesFrom(s, t, act, rid);
      case Release(t) =>
        if Busy(s, rid) && !ReturnsFromRevocation(s, l) {
          var p := s.threads[t].op.Subject();
          assert s.db[p].rid == rid && s.db[p].state.Active?;
        }
      case _ =>
    }
  }

  lemma {:induction false} EveryUserAccounted(run: Run, i: nat, rid: RuntimeId)
    requires IsRun(run) && i < |run.states|
    requires rid in run.states[i].users
    ensures || ActiveId(run.states[i].db, rid) || Busy(run.states[i], rid) || Blamed(run, i, rid)
  {
    if i == 0 {
      assert NoCleaning(run, 0, 0);
    } else {
      var k := i - 1;
      EveryStateSound(run, k);
      assert Moves(run, k);
      UserComesFrom(run.states[k], run.labels[k], rid);
      if AbortsAt(run, k, rid) {
        assert NoCleaning(run, k + 1, i);
      } else if rid in run.states[k].users && !ActiveId(run.states[k].db, rid)
                && !Busy(run.states[k], rid) && !CleansAt(run, k)
      {
        EveryUserAccounted(run, k, rid);
        StillBlamed(run, k, rid);
      }
    }
  }

  /** Whenever the lock is free, a runtime user without an ACTIVE profile is the trace of an
      operation on its profile that raised without healing the runtime, or was killed, after the last
      successful reconciliation, disable or delete (or was there before the first). */
  lemma StrayUsersAreBlamed(run: Run, i: nat, rid: RuntimeId)
    requires IsRun(run) && i < |run.states| && run.states[i].holder.None?
    requires rid in run.states[i].users && !ActiveId(run.states[i].db, rid)
    ensures Blamed(run, i, rid)
  {
    EveryUserAccounted(run, i, rid);
  }

  // ---- agreement while nothing goes wrong ----

  predicate GoesWrong(s: System, l: Label) {
    || l.Exit? || l.Crash?
    || (l.Release? && ThreadOf(s, l.t).Running? && s.threads[l.t].pc == Finish(false))
  }

  ghost predicate OnTrack(s: System) {
    if s.holder.None? then Agreement(s.db, s.users)
    else ThreadOf(s, s.holder.value).Running? && OnCourse(CoreOf(s, s.holder.value))
  }

  lemma NextKeepsOnTrack(s: System, l: Label)
    requires Sound(s) && OnTrack(s) && Next(s, l).Some? && !GoesWrong(s, l)
    ensures OnTrack(Next(s, l).value)
  {
    match l {
      case Work(t, act) => StepOnCourse(CoreOf(s, t), act);
      case _ =>
    }
  }

  /** From agreement, as long as no operation raises, no child exits and no crash happens, the users
      in the runtime are exactly the ACTIVE profiles, each with its own user id, whenever the lock is
      free. */
  lemma {:induction false} AgreementHolds(run: Run, i: nat)
    requires IsRun(run) && i < |run.states|
    requires Agreement(run.states[0].db, run.states[0].users)
    requires forall k :: 0 <= k < i ==> !GoesWrong(run.states[k], run.labels[k])
    ensures OnTrack(run.states[i])
    ensures run.states[i].holder.None? ==> Agreement(run.states[i].db, run.states[i].users)
  {
    if i > 0 {
      AgreementHolds(run, i - 1);
      EveryStateSound(run, i - 1);
      assert Moves(run, i - 1);
      NextKeepsOnTrack(run.states[i - 1], run.labels[i - 1]);
    }
  }

  // ---- user ids ----

  ghost predicate AllCorrect(s: System) {
    && Right(s.db, s.users)
    && (s.holder.Some? && ThreadOf(s, s.holder.value).Running? ==> Correct(CoreOf(s, s.holder.value)))
  }

  lemma NextKeepsCorrect(s: System, l: Label)
    requires Sound(s) && AllCorrect(s) && Next(s, l).Some?
    ensures AllCorrect(Next(s, l).value)
  {
    match l {
      case Work(t, act) => StepIsCorrect(CoreOf(s, t), act);
      case _ =>
    }
  }

  /** Whatever fails, a runtime user with the id of an ACTIVE profile carries that profile's own user
      id, if it was so at the start. */
  lemma {:induction false} UserIdsStayRight(run: Run, i: nat)
    requires IsRun(run) && i < |run.states| && Right(run.states[0].db, run.states[0].users)
    ensures AllCorrect(run.states[i])
    ensures Right(run.states[i].db, run.states[i].users)
  {
    if i > 0 {
      UserIdsStayRight(run, i - 1);
      EveryStateSound(run, i - 1);
      assert Moves(run, i - 1);
      NextKeepsCorrect(run.states[i - 1], run.labels[i - 1]);
    }
  }

  // ---- recovery ----

  ghost predicate Reconciling(s: System, t: ThreadId) {
    ThreadOf(s, t).Running? && InReconcile(s.threads[t].pc)
  }

  ghost predicate ReconcilingAt(run: Run, j: int, t: ThreadId)
    requires 0 <= j < |run.states|
  {
    Reconciling(run.states[j], t)
  }

  // The thread reconciles from state `k`, at the first statement, to state `i`.
  ghost predicate Reconciles(run: Run, k: nat, i: nat, t: ThreadId)
    requires k <= i < |run.states|
  {
    && Reconciling(run.states[k], t) && run.states[k].threads[t].pc == ReconcileList
    && Reconciling(run.states[i], t)
    && forall j {:trigger ReconcilingAt(run, j, t)} :: k <= j <= i ==> ReconcilingAt(run, j, t)
  }

  ghost predicate AllActive(db: Rows, users: Users) {
    forall r :: ActiveId(db, r) ==> r in users
  }

  lemma NextKeepsCovered(s: System, l: Label, t: ThreadId)
    requires Sound(s) && Next(s, l).Some? && !l.Exit? && Reconciling(s, t) && Reconciling(Next(s, l).value, t)
    requires Covered(CoreOf(s, t))
    ensures Covered(CoreOf(Next(s, l).value, t))
  {
    if l.Work? { StepCovered(CoreOf(s, t), l.act); }
  }

  lemma {:induction false} StaysCovered(run: Run, k: nat, i: nat, t: ThreadId)
    requires IsRun(run) && k <= i < |run.states|
    requires Reconciles(run, k, i, t)
    requires forall j :: k <= j < i ==> !run.labels[j].Exit?
    ensures Covered(CoreOf(run.states[i], t))
  {
    if k < i {
      var j := i - 1;
      assert ReconcilingAt(run, j, t);
      StaysCovered(run, k, j, t);
      EveryStateSound(run, j);
      assert Moves(run, j);
      NextKeepsCovered(run.states[j], run.labels[j], t);
    }
  }

  /** A successful reconciliation leaves only ids of ACTIVE profiles in the runtime, whatever
      happened before: stale users, raised operations, a control process killed after any step. If
      no child exited while it ran, it leaves all of them. */
  lemma ReconcileRestores(run: Run, k: nat, i: nat, t: ThreadId)
    requires IsRun(run) && k <= i < |run.labels| && run.labels[i].Work? && run.labels[i].t == t
    requires Reconciles(run, k, i, t) && run.states[i].threads[t].pc == ReconcileDone(true)
    ensures OnlyActive(run.states[i + 1].db, run.states[i + 1].users)
    ensures (forall j :: k <= j < i ==> !run.labels[j].Exit?) ==>
              AllActive(run.states[i + 1].db, run.states[i + 1].users)
  {
    EveryStateSound(run, i);
    assert Moves(run, i);
    if forall j :: k <= j < i ==> !run.labels[j].Exit? {
      StaysCovered(run, k, i, t);
    }
  }

  /** If the user ids were right at the start, a successful reconciliation without a child exit leaves
      exactly the ACTIVE profiles in the runtime, each with its own user id. */
  lemma ReconcileAgrees(run: Run, k: nat, i: nat, t: ThreadId)
    requires IsRun(run) && k <= i < |run.labels| && run.labels[i].Work? && run.labels[i].t == t
    requires Right(run.states[0].db, run.states[0].users)
    requires Reconciles(run, k, i, t) && run.states[i].threads[t].pc == ReconcileDone(true)
    requires forall j :: k <= j < i ==> !run.labels[j].Exit?
    ensures Agreement(run.states[i + 1].db, run.states[i + 1].users)
  {
    ReconcileRestores(run, k, i, t);
    UserIdsStayRight(run, i + 1);
  }

  // ---- row histories ----

  // The step with which create or enable of the profile commits ACTIVE.
  predicate CommitsActive(s: System, l: Label, p: ProfileId) {
    && l.Work? && ThreadOf(s, l.t).Running?
    && (s.threads[l.t].op.Create? || s.threads[l.t].op.Enable?)
    && s.threads[l.t].op.Subject() == p
    && s.threads[l.t].pc.ProvisionCommit?
  }

  // How one label changes one profile's row.
  ghost predicate RowMoves(s: System, l: Label, s': System, p: ProfileId) {
    && (p in s'.db && p !in s.db ==> s'.db[p].state.Pending?)
    && (p in s.db && p in s'.db ==>
          || s'.db[p].state == s.db[p].state
          || Legal(s.db[p].state, s'.db[p].state))
    && (p in s'.db && s'.db[p].state.Active? && !(p in s.db && s.db[p].state.Active?) ==>
          CommitsActive(s, l, p))
  }

  lemma NextRowMoves(s: System, l: Label, p: ProfileId)
    requires Sound(s) && Next(s, l).Some?
    ensures RowMoves(s, l, Next(s, l).value, p)
  {
    if l.Work? {
      StepLegalRows(CoreOf(s, l.t), l.act);
    }
  }

  /** In every reachable state `disabledAt` marks exactly the DISABLED rows, error codes stay in
      ERROR and DISABLED, and runtime ids are unique. */
  lemma RowsStayWellKept(run: Run, i: nat)
    requires IsRun(run) && i < |run.states|
    ensures WellKept(run.states[i].db)
  {
    EveryStateSound(run, i);
  }

  /** Every row's history is a path of the transition table that starts in PENDING, and only a commit
      of create or enable makes a row ACTIVE. */
  lemma RowHistory(run: Run, i: nat, p: ProfileId)
    requires IsRun(run) && i < |run.labels|
    ensures RowMoves(run.states[i], run.labels[i], run.states[i + 1], p)
  {
    var s, l := run.states[i], run.labels[i];
    assert Sound(s) by { EveryStateSound(run, i); }
    assert Next(s, l) == Some(run.states[i + 1]) by { assert Moves(run, i); }
    NextRowMoves(s, l, p);
  }

  /** No operation ever asks the repository for a transition it refuses: what a running thread is about
      to request is the row's own state or a legal successor. */
  lemma RequestsStayLegal(run: Run, i: nat, t: ThreadId)
    requires IsRun(run) && i < |run.states| && ThreadOf(run.states[i], t).Running?
    requires Requested(CoreOf(run.states[i], t)).Some?
    ensures var c := CoreOf(run.states[i], t);
            && !c.op.Reconcile? && c.op.Subject() in c.db
            && (c.db[c.op.Subject()].state == Requested(c).value
                || Legal(c.db[c.op.Subject()].state, Requested(c).value))
  {
    EveryStateSound(run, i);
    RequestsAreLegal(CoreOf(run.states[i], t));
  }

  /** Once a profile is not ACTIVE (from the commit of DISABLED on, through every later step of the
      disable itself) it stays so until an enable or create of it commits: authentication and
      subscription reads deny it all that time. */
  lemma {:induction false} DeniedUntilCommitted(run: Run, i: nat, j: nat, p: ProfileId)
    requires IsRun(run) && i <= j < |run.states|
    requires !(p in run.states[i].db && run.states[i].db[p].state.Active?)
    requires forall k :: i <= k < j ==> !CommitsActive(run.states[k], run.labels[k], p)
    ensures !(p in run.states[j].db && run.states[j].db[p].state.Active?)
  {
    if i < j {
      DeniedUntilCommitted(run, i, j - 1, p);
      RowHistory(run, j - 1, p);
    }
  }

  // The add of this very operation returned normally before, and nothing happened to it since.
  ghost predicate AddedBefore(run: Run, i: nat, t: ThreadId, op: Op, rid: RuntimeId)
    requires |run.states| == |run.labels| + 1 && i < |run.states|
  {
    exists k ::
      && 0 <= k < i && run.labels[k] == Work(t, External(Done))
      && ThreadOf(run.states[k], t).Running? && run.states[k].threads[t].op == op
      && run.states[k].threads[t].pc.ProvisionAdd? && run.states[k].threads[t].pc.rid == rid
      && forall j :: k < j <= i ==> ThreadOf(run.states[j], t) == Running(op, ProvisionCommit(rid))
  }

  lemma ReachesCommit(c: Core, a: Act, rid: RuntimeId)
    requires Step(c, a).Some? && Step(c, a).value.pc == ProvisionCommit(rid)
    ensures a == External(Done) && c.pc.ProvisionAdd? && c.pc.rid == rid
  {
  }

  lemma {:induction false} CommitFollowsAdd(run: Run, i: nat, t: ThreadId, op: Op, rid: RuntimeId)
    requires IsRun(run) && i < |run.states|
    requires ThreadOf(run.states[i], t) == Running(op, ProvisionCommit(rid))
    ensures AddedBefore(run, i, t, op, rid)
  {
    var k := i - 1;
    EveryStateSound(run, k);
    assert Moves(run, k);
    if run.labels[k].Work? && run.labels[k].t == t {
      StepKeepsInv(CoreOf(run.states[k], t), run.labels[k].act);
      ReachesCommit(CoreOf(run.states[k], t), run.labels[k].act, rid);
    } else {
      CommitFollowsAdd(run, k, t, op, rid);
    }
  }

  /** No step makes a profile ACTIVE unless, earlier in the same operation, adding that profile's
      runtime id to Xray returned normally. */
  lemma NoActiveWithoutAdd(run: Run, i: nat, p: ProfileId)
    requires IsRun(run) && i < |run.labels|
    requires p in run.states[i + 1].db && run.states[i + 1].db[p].state.Active?
    requires !(p in run.states[i].db && run.states[i].db[p].state.Active?)
    ensures CommitsActive(run.states[i], run.labels[i], p)
    ensures var thread := run.states[i].threads[run.labels[i].t];
            && AddedBefore(run, i, run.labels[i].t, thread.op, thread.pc.rid)
            && thread.pc.rid == run.states[i + 1].db[p].rid
  {
    EveryStateSound(run, i);
    assert Moves(run, i);
    RowHistory(run, i, p);
    var t := run.labels[i].t;
    CommitFollowsAdd(run, i, t, run.states[i].threads[t].op, run.states[i].threads[t].pc.rid);
    StepLegalRows(CoreOf(run.states[i], t), run.labels[i].act);
  }
}
