/** The coordinator as it executes (control/src/ezopenpn/profiles/coordinator.py). Every public method
    runs under the lock; its journal shows that what it did is a run of the protocol from the
    operation's first statement to its last, so the statements about protocol runs hold for it. */
module ProfileCoordinators {
  import opened Wrappers
  import opened ProfileStore
  import opened ProfileProtocol
  import opened ProfileInvariants
  import opened ProfileSafety
  import opened ProfileUserIds
  import opened ProfileRepositories
  import opened ProfileReconcilers

  datatype Raised =
    | InvalidName
    | StoreFailed
    | ProfileNotFound
    | ProfileConflict
    | TransitionRefused
    | ProvisioningFailed
    | RevocationFailed
    | EnableFailed
    | DeleteFailed

  function AsRaised(denial: Denial): Raised {
    if denial.Unavailable? then StoreFailed
    else if denial.reason.NotFound? then ProfileNotFound
    else if denial.reason.Conflict? then ProfileConflict
    else TransitionRefused
  }

  // ---- where each statement leads ----

  predicate Reads(pc: Pc) {
    pc.CreateGet? || pc.EnableGet? || pc.DisableGet? || pc.DisableResult? || pc.MarkGet?
  }

  ghost function AfterGet(op: Op, pc: Pc, got: Result<Row, Denial>): Pc
    requires Reads(pc)
  {
    if pc.CreateGet? then
      if got.Success? then ProvisionAdd(got.value.rid, got.value.uid) else Finish(false)
    else if pc.EnableGet? then
      if got.Failure? then Finish(false)
      else if got.value.state.Error? then EnableReset
      else AfterDecision(got.value)
    else if pc.MarkGet? then
      if got.Success? then MarkSet(pc.code, got.value.state) else ReconcileList
    else if got.Failure? then AfterRaise(op, got.error == Refused(NotFound))
    else if pc.DisableGet? then
      if got.value.state.Pending? then DisableFromPending else DisableCommit
    else if op.Delete? then DeleteRow(pc.rid)
    else Finish(true)
  }

  ghost function AfterChange(op: Op, pc: Pc, changed: Result<Row, Denial>): Pc {
    if pc.EnableReset? then
      if changed.Success? then AfterDecision(changed.value) else Finish(false)
    else if pc.ProvisionCommit? then
      if changed.Success? then ProvisionLinks(pc.rid) else ProvisionUndo(pc.rid)
    else if pc.MarkSet? then ReconcileList
    else if changed.Failure? then AfterRaise(op, changed.error == Refused(NotFound))
    else if pc.DisableFromPending? then DisableCommit
    else Kick(changed.value.rid)
  }

  // What a state-changing transaction did, as far as the protocol is concerned.
  ghost predicate Transacted(before: Rows, p: ProfileId, target: ProfileState, code: Option<string>, now: int,
                             changed: Result<Row, Denial>, after: Rows)
  {
    && (changed.Success? ==>
          && SetState(before, p, target, code, now) == Success(after)
          && p in after && changed.value == after[p])
    && (changed.Failure? ==> after == before)
    && (changed.Failure? && changed.error.Refused? ==>
          SetState(before, p, target, code, now) == Failure(changed.error.reason))
  }

  // No other row has changed, and this one has kept its ids.
  ghost predicate TouchesOnly(before: Rows, after: Rows, p: ProfileId) {
    && after.Keys == before.Keys
    && (forall q :: q in before && q != p ==> after[q] == before[q])
    && (p in before ==> after[p].rid == before[p].rid && after[p].uid == before[p].uid)
  }

  // What a change of state did to the rows.
  ghost predicate Changed(before: Rows, p: ProfileId, target: ProfileState, code: Option<string>,
                          changed: Result<Row, Denial>, after: Rows)
  {
    && (changed.Success? ==>
          && p in before && TouchesOnly(before, after, p) && changed.value == after[p]
          && after[p].state == target && after[p].error == if target.Error? then code else None)
    && (changed.Failure? ==> after == before)
    && (changed.Failure? && changed.error.Refused? ==>
          && (p in before ==> before[p].state != target && !Legal(before[p].state, target))
          && (changed.error.reason.NotFound? <==> p !in before))
  }

  // The row became DISABLED between the two times.
  ghost predicate Stamped(row: Row, earliest: int, latest: int) {
    row.disabledAt.Some? && earliest <= row.disabledAt.value <= latest
  }

  // The row shows why the operation failed.
  ghost predicate Marked(rows: Rows, p: ProfileId, code: string) {
    p in rows && rows[p].error == Some(code) && (rows[p].state.Error? || rows[p].state.Disabled?)
  }

  // The client accepts the profile, and its material decrypts.
  predicate Servable(row: Row) {
    WellFormed(row.rid) && row.uid.Some?
  }

  ghost predicate AllServable(rows: Rows) {
    forall q :: q in rows && rows[q].state.Active? ==> Servable(rows[q])
  }

  /** What a disable or delete needs beside a database and clients that do not fail. */
  ghost predicate Revocable(rows: Rows, p: ProfileId) {
    && p in rows && WellFormed(rows[p].rid)
    && forall q :: q in rows && q != p && rows[q].state.Active? ==> Servable(rows[q])
  }

  // The answer of disable and delete while the database works.
  function Revoked(stored: bool, served: bool): Result<(), Raised> {
    if !stored then Failure(ProfileNotFound) else if served then Success(()) else Failure(RevocationFailed)
  }

  lemma RevocableAfter(before: Rows, after: Rows, p: ProfileId)
    requires TouchesOnly(before, after, p) && p in before && after[p].state.Disabled?
    ensures Revocable(before, p) <==> WellFormed(after[p].rid) && AllServable(after)
  {
  }

  predicate Readable(record: (RuntimeId, Option<UserId>)) {
    WellFormed(record.0) && record.1.Some?
  }

  lemma ReadableExact(db: Rows, order: seq<ProfileId>)
    requires ToSet(order) == db.Keys
    ensures (forall e :: e in ActiveRecords(db, order) ==> Readable(e)) <==> AllServable(db)
  {
    var records := ActiveRecords(db, order);
    ActiveRecordsExact(db, order);
    if forall e :: e in records ==> Readable(e) {
      forall q | q in db && db[q].state.Active? ensures Servable(db[q]) {
        assert q in ToSet(order);
        assert (db[q].rid, db[q].uid) in records;
      }
    } else {
      var e :| e in records && !Readable(e);
      assert IsActiveRecord(db, e);
    }
  }

  // The calls that re-add the records whose material decrypts.
  function Readditions(records: seq<(RuntimeId, Option<UserId>)>): seq<Call> {
    if records == [] then []
    else
      var before, last := Readditions(records[..|records| - 1]), records[|records| - 1];
      if last.1.Some? then before + [AddCall(last.0, last.1.value)] else before
  }

  // The phases of a revocation, each attempted whatever became of the others.
  function Phases(rid: RuntimeId): seq<Call> {
    [KickCall(rid), RemoveCall(rid), RestartCall, ReadyCall]
  }

  lemma ReadditionsGrow(records: seq<(RuntimeId, Option<UserId>)>, record: (RuntimeId, Option<UserId>))
    ensures Readditions(records + [record]) == Readditions(records) + Readditions([record])
  {
    assert (records + [record])[..|records|] == records;
    ReadditionsOfOne(record);
  }

  lemma ReadditionsOfOne(record: (RuntimeId, Option<UserId>))
    ensures Readditions([record]) == if record.1.Some? then [AddCall(record.0, record.1.value)] else []
  {
    var none: seq<(RuntimeId, Option<UserId>)> := [];
    assert [record][..0] == none;
  }

  ghost predicate CutOffCallsIn(rows: Rows, rid: RuntimeId, before: seq<Call>, after: seq<Call>, order: seq<ProfileId>) {
    ToSet(order) == rows.Keys && after == before + Phases(rid) + Readditions(ActiveRecords(rows, order))
  }

  // The calls of a revocation: its phases, then every ACTIVE profile in the order of some listing.
  ghost predicate CutOffCalls(rows: Rows, rid: RuntimeId, before: seq<Call>, after: seq<Call>) {
    exists order :: CutOffCallsIn(rows, rid, before, after, order)
  }

  lemma RemovedAlike(before: Rows, after: Rows, p: ProfileId)
    requires TouchesOnly(before, after, p)
    ensures after - {p} == before - {p}
  {
  }

  lemma InsertableExact(rows: Rows, m: Material)
    ensures InsertPending(rows, m) ==
              if m.id !in rows && (forall q :: q in rows ==> rows[q].rid != m.rid)
              then Success(rows[m.id := Row(Pending, m.rid, m.uid, None, None)]) else Failure(Conflict)
  {
  }

  lemma InsertFollows(c: Core, m: Material, stored: bool)
    requires c.op == ProfileProtocol.Create(m) && c.pc == CreateInsert && (stored ==> InsertPending(c.db, m).Success?)
    ensures Step(c, Store(stored, 0)) ==
              Some(if stored then Core(InsertPending(c.db, m).value, c.users, c.op, CreateGet) else c.(pc := Finish(false)))
  {
  }

  lemma AdmitFollows(c: Core, p: ProfileId, target: ProfileState, now: int, changed: Result<Row, Denial>, after: Rows)
    requires !c.op.Reconcile? && c.op.Subject() == p
    requires (c.pc.EnableReset? && target.Pending?) || (c.pc.ProvisionCommit? && target.Active?)
    requires Transacted(c.db, p, target, None, now, changed, after)
    ensures Step(c, Store(Decided(changed), now)) ==
              Some(Core(after, c.users, c.op, AfterChange(c.op, c.pc, changed)))
  {
  }

  lemma WithdrawFollows(c: Core, p: ProfileId, target: ProfileState, now: int, changed: Result<Row, Denial>, after: Rows)
    requires !c.op.Reconcile? && c.op.Subject() == p
    requires (c.pc.DisableFromPending? && target.Error?) || (c.pc.DisableCommit? && target.Disabled?)
    requires Transacted(c.db, p, target, None, now, changed, after)
    ensures Step(c, Store(Decided(changed), now)) ==
              Some(Core(after, c.users, c.op, AfterChange(c.op, c.pc, changed)))
  {
  }

  lemma MarkFollows(c: Core, p: ProfileId, now: int, changed: Result<Row, Denial>, after: Rows)
    requires !c.op.Reconcile? && c.op.Subject() == p
    requires c.pc.MarkSet? && !c.pc.seen.Disabled?
    requires Transacted(c.db, p, Error, Some(c.pc.code), now, changed, after)
    ensures Step(c, Store(Decided(changed), now)) ==
              Some(Core(after, c.users, c.op, AfterChange(c.op, c.pc, changed)))
  {
  }

  lemma FetchFollows(c: Core, p: ProfileId, got: Result<Row, Denial>)
    requires !c.op.Reconcile? && c.op.Subject() == p && Reads(c.pc)
    requires got.Success? ==> p in c.db && got.value == c.db[p]
    requires got.Failure? && got.error.Refused? ==> p !in c.db && got.error.reason.NotFound?
    ensures Step(c, Store(Decided(got), 0)) == Some(c.(pc := AfterGet(c.op, c.pc, got)))
  {
  }

  lemma RecordFollows(c: Core, p: ProfileId, code: string, recorded: Result<(), Denial>, after: Rows)
    requires !c.op.Reconcile? && c.op.Subject() == p
    requires c.pc == MarkSet(code, Disabled) || (c.pc.RecordIncomplete? && code == RUNTIME_REVOKE_INCOMPLETE)
    requires recorded.Success? ==> SetRuntimeError(c.db, p, code) == Success(after)
    requires recorded.Failure? ==> after == c.db
    requires recorded.Failure? && recorded.error.Refused? ==> p !in c.db
    ensures Step(c, Store(Decided(recorded), 0)) ==
              Some(Core(after, c.users, c.op,
                        if recorded.Success? || c.pc.MarkSet? then ReconcileList
                        else AfterRaise(c.op, recorded.error.Refused?)))
  {
  }

  lemma ListFollows(c: Core, rid: RuntimeId, incomplete: bool, order: Option<seq<ProfileId>>)
    requires !c.op.Reconcile? && c.pc == ListActive(rid, incomplete)
    requires order.Some? ==> ToSet(order.value) == c.db.Keys
    ensures order.None? ==> Step(c, Store(false, 0)) == Some(c.(pc := AfterRaise(c.op, false)))
    ensures order.Some? ==>
              Step(c, Listing(order.value))
                == Some(c.(pc := AfterReadd(rid, incomplete, ActiveRecords(c.db, order.value))))
  {
  }

  ghost function AfterErase(rid: RuntimeId, deleted: Result<(), Denial>): Pc {
    if deleted.Success? then Checkpoint(rid)
    else if deleted.error.Refused? then Finish(false)
    else MarkGet(PROFILE_MATERIAL_INVALID)
  }

  lemma EraseFollows(c: Core, p: ProfileId, rid: RuntimeId, deleted: Result<(), Denial>, after: Rows)
    requires c.op == ProfileProtocol.Delete(p) && c.pc == DeleteRow(rid)
    requires deleted.Success? ==> DeleteLocal(c.db, p) == Success(after)
    requires deleted.Failure? ==> after == c.db
    requires deleted.Failure? && deleted.error.Refused? ==> p !in c.db
    ensures Step(c, Store(Decided(deleted), 0)) == Some(Core(after, c.users, c.op, AfterErase(rid, deleted)))
  {
  }

  // The exceptions of disable that delete passes on unchanged.
  predicate Reraised(e: Raised) {
    e.RevocationFailed? || e.ProfileNotFound?
  }

  class ProfileCoordinator {
    const repository: ProfileRepository
    const runtime: Runtime
    const journal: Journal
    const reconciler: RuntimeReconciler
    var ready: bool

    constructor (repository: ProfileRepository, runtime: Runtime)
      requires repository.Valid()
      ensures Valid() && this.repository == repository && this.runtime == runtime
    {
      this.repository, this.runtime := repository, runtime;
      var j := new Journal();
      journal := j;
      reconciler := new RuntimeReconciler(repository, runtime, j);
      ready := false;
    }

    ghost predicate Valid()
      reads this, repository
    {
      && repository.Valid()
      && reconciler.repository == repository && reconciler.runtime == runtime
      && reconciler.journal == journal
    }

    // The code and the protocol are at the same point.
    ghost predicate At(op: Op, pc: Pc)
      reads this, repository, runtime, journal
    {
      && journal.Faithful()
      && journal.core == Core(repository.rows, runtime.users, op, pc)
    }

    // The operation ran as a run of the protocol from its first statement to its last.
    ghost predicate Executed(op: Op, rows: Rows, users: Users, returned: bool)
      reads this, repository, runtime, journal
    {
      && journal.first == Core(rows, users, op, Start(op))
      && At(op, Finish(returned))
    }

    // ---- single statements ----

    method Begin(ghost op: Op)
      requires repository.Valid()
      modifies journal
      ensures At(op, Start(op))
      ensures journal.first == Core(repository.rows, runtime.users, op, Start(op))
    {
      journal.Begin(repository.rows, runtime.users, op);
    }

    // Other threads wait for the lock; only the child may move.
    method Interfere(ghost op: Op, ghost pc: Pc)
      requires At(op, pc)
      modifies runtime`users, runtime`exits, journal`core, journal`path
      ensures At(op, pc)
      ensures runtime.exits >= old(runtime.exits)
      ensures runtime.exits == old(runtime.exits) ==> runtime.users == old(runtime.users)
    {
      var exited := runtime.Drift();
      if exited { journal.AdvanceExit(); }
    }

    // Reads the profile's row.
    method Fetch(op: Op, p: ProfileId, ghost pc: Pc) returns (got: Result<Row, Denial>)
      requires repository.Valid() && At(op, pc) && Reads(pc) && !op.Reconcile? && op.Subject() == p
      modifies runtime`users, runtime`exits, repository.database`failures, journal`core, journal`path
      ensures At(op, AfterGet(op, pc, got))
      ensures repository.database.failures == old(repository.database.failures) + if Decided(got) then 0 else 1
      ensures got.Success? ==> p in repository.rows && got.value == repository.rows[p]
      ensures got.Failure? && got.error.Refused? ==> got.error.reason.NotFound? && p !in repository.rows
      ensures runtime.exits >= old(runtime.exits)
      ensures runtime.exits == old(runtime.exits) ==> runtime.users == old(runtime.users)
    {
      Interfere(op, pc);
      got := repository.Get(p);
      FetchFollows(journal.core, p, got);
      journal.Follow(Store(Decided(got), 0), Core(repository.rows, runtime.users, op, AfterGet(op, pc, got)));
    }

    // A state change in the store, of which the protocol has yet to be told.
    method Transact(op: Op, p: ProfileId, target: ProfileState, code: Option<string>, ghost pc: Pc)
      returns (changed: Result<Row, Denial>, now: int)
      requires repository.Valid() && At(op, pc)
      modifies repository`rows, repository.database, runtime`users, runtime`exits, journal`core, journal`path
      ensures repository.Valid() && journal.Faithful()
      ensures journal.core == Core(journal.core.db, runtime.users, op, pc)
      ensures Transacted(journal.core.db, p, target, code, now, changed, repository.rows)
      ensures Changed(old(repository.rows), p, target, code, changed, repository.rows)
      ensures repository.database.clock >= old(repository.database.clock)
      ensures changed.Success? && target.Disabled? ==>
                Stamped(changed.value, old(repository.database.clock), repository.database.clock)
      ensures repository.database.failures == old(repository.database.failures) + if Decided(changed) then 0 else 1
    {
      Interfere(op, pc);
      changed, now := repository.SetState(p, target, code);
    }

    // The state changes of create and enable.
    method Admit(op: Op, p: ProfileId, target: ProfileState, ghost pc: Pc)
      returns (changed: Result<Row, Denial>)
      requires repository.Valid() && At(op, pc) && !op.Reconcile? && op.Subject() == p
      requires (pc.EnableReset? && target.Pending?) || (pc.ProvisionCommit? && target.Active?)
      modifies repository`rows, repository.database, runtime`users, runtime`exits, journal`core, journal`path
      ensures repository.Valid()
      ensures At(op, AfterChange(op, pc, changed))
      ensures Changed(old(repository.rows), p, target, None, changed, repository.rows)
      ensures repository.database.failures == old(repository.database.failures) + if Decided(changed) then 0 else 1
    {
      var now;
      changed, now := Transact(op, p, target, None, pc);
      AdmitFollows(journal.core, p, target, now, changed, repository.rows);
      journal.Follow(Store(Decided(changed), now),
                     Core(repository.rows, runtime.users, op, AfterChange(op, pc, changed)));
    }

    // The state changes of disable.
    method Withdraw(op: Op, p: ProfileId, target: ProfileState, ghost pc: Pc)
      returns (changed: Result<Row, Denial>)
      requires repository.Valid() && At(op, pc) && !op.Reconcile? && op.Subject() == p
      requires (pc.DisableFromPending? && target.Error?) || (pc.DisableCommit? && target.Disabled?)
      modifies repository`rows, repository.database, runtime`users, runtime`exits, journal`core, journal`path
      ensures repository.Valid()
      ensures At(op, AfterChange(op, pc, changed))
      ensures Changed(old(repository.rows), p, target, None, changed, repository.rows)
      ensures repository.database.clock >= old(repository.database.clock)
      ensures changed.Success? && target.Disabled? ==>
                Stamped(changed.value, old(repository.database.clock), repository.database.clock)
      ensures repository.database.failures == old(repository.database.failures) + if Decided(changed) then 0 else 1
    {
      var now;
      changed, now := Transact(op, p, target, None, pc);
      WithdrawFollows(journal.core, p, target, now, changed, repository.rows);
      journal.Follow(Store(Decided(changed), now),
                     Core(repository.rows, runtime.users, op, AfterChange(op, pc, changed)));
    }

    // The state change of `_mark_error`.
    method MarkState(op: Op, p: ProfileId, target: ProfileState, code: string, ghost pc: Pc)
      returns (changed: Result<Row, Denial>)
      requires repository.Valid() && At(op, pc) && !op.Reconcile? && op.Subject() == p
      requires pc.MarkSet? && !pc.seen.Disabled? && target.Error? && code == pc.code
      modifies repository`rows, repository.database, runtime`users, runtime`exits, journal`core, journal`path
      ensures repository.Valid()
      ensures At(op, AfterChange(op, pc, changed))
      ensures Changed(old(repository.rows), p, target, Some(code), changed, repository.rows)
      ensures repository.database.failures == old(repository.database.failures) + if Decided(changed) then 0 else 1
    {
      var now;
      changed, now := Transact(op, p, target, Some(code), pc);
      MarkFollows(journal.core, p, now, changed, repository.rows);
      journal.Follow(Store(Decided(changed), now),
                     Core(repository.rows, runtime.users, op, AfterChange(op, pc, changed)));
    }

    // Stores an error code beside the DISABLED state.
    method Record(op: Op, p: ProfileId, code: string, ghost pc: Pc) returns (recorded: Result<(), Denial>)
      requires repository.Valid() && At(op, pc) && !op.Reconcile? && op.Subject() == p
      requires pc == MarkSet(code, Disabled) || (pc.RecordIncomplete? && code == RUNTIME_REVOKE_INCOMPLETE)
      requires p in repository.rows ==> repository.rows[p].state.Disabled?
      modifies repository`rows, repository.database`failures, runtime`users, runtime`exits, journal`core, journal`path
      ensures repository.Valid()
      ensures repository.database.failures == old(repository.database.failures) + if Decided(recorded) then 0 else 1
      ensures TouchesOnly(old(repository.rows), repository.rows, p)
      ensures recorded.Success? ==> Marked(repository.rows, p, code)
      ensures recorded.Failure? && recorded.error.Refused? ==> p !in repository.rows
      ensures At(op, if recorded.Success? || pc.MarkSet? then ReconcileList
                     else AfterRaise(op, recorded.error.Refused?))
    {
      Interfere(op, pc);
      recorded := repository.SetRuntimeError(p, code);
      RecordFollows(journal.core, p, code, recorded, repository.rows);
      journal.Follow(Store(Decided(recorded), 0),
                     Core(repository.rows, runtime.users, op,
                          if recorded.Success? || pc.MarkSet? then ReconcileList
                          else AfterRaise(op, recorded.error.Refused?)));
    }

    // Adds one user.
    method Add(op: Op, rid: RuntimeId, uid: UserId, ghost pc: Pc) returns (added: bool)
      requires At(op, pc) && !op.Reconcile?
      requires pc == ProvisionAdd(rid, Some(uid)) || (pc.Readd? && pc.todo != [] && pc.todo[0] == (rid, Some(uid)))
      modifies runtime, journal`core, journal`path
      ensures At(op, if pc.Readd? then AfterReadd(pc.rid, pc.incomplete || !added, pc.todo[1..])
                     else if added then ProvisionCommit(rid) else ProvisionUndo(rid))
      ensures runtime.faults >= old(runtime.faults) && runtime.calls == old(runtime.calls) + [AddCall(rid, uid)]
      ensures added <==> WellFormed(rid) && runtime.faults == old(runtime.faults)
    {
      Interfere(op, pc);
      var outcome := runtime.AddUser(rid, uid);
      journal.Advance(Did(External(outcome)));
      return outcome.Done?;
    }

    // The user id of the record cannot be decrypted.
    method Undecryptable(op: Op, ghost pc: Pc)
      requires At(op, pc) && !op.Reconcile?
      requires (pc.ProvisionAdd? && pc.uid.None?) || (pc.Readd? && pc.todo != [] && pc.todo[0].1.None?)
      modifies journal`core, journal`path
      ensures At(op, if pc.Readd? then AfterReadd(pc.rid, true, pc.todo[1..]) else ProvisionUndo(pc.rid))
    {
      journal.Advance(Did(Local(false)));
    }

    // Removes one user; every exception is suppressed or remembered.
    method Drop(op: Op, rid: RuntimeId, ghost pc: Pc) returns (removed: bool)
      requires At(op, pc) && !op.Reconcile?
      requires pc == ProvisionUndo(rid) || (pc.Remove? && pc.rid == rid)
      modifies runtime, journal`core, journal`path
      ensures At(op, if pc.Remove? then Restart(rid, pc.incomplete || !removed) else MarkGet(XRAY_ADD_FAILED))
      ensures runtime.faults >= old(runtime.faults) && runtime.calls == old(runtime.calls) + [RemoveCall(rid)]
      ensures removed <==> WellFormed(rid) && runtime.faults == old(runtime.faults)
    {
      Interfere(op, pc);
      var outcome := runtime.RemoveUser(rid);
      journal.Advance(Did(External(outcome)));
      return outcome.Done?;
    }

    method RestartChild(op: Op, rid: RuntimeId, ghost incomplete: bool) returns (restarted: bool)
      requires At(op, Restart(rid, incomplete)) && !op.Reconcile?
      modifies runtime, journal`core, journal`path
      ensures At(op, Ready(rid, incomplete || !restarted))
      ensures runtime.faults >= old(runtime.faults) && runtime.calls == old(runtime.calls) + [RestartCall]
      ensures restarted <==> runtime.faults == old(runtime.faults)
    {
      Interfere(op, Restart(rid, incomplete));
      var outcome := runtime.Restart();
      journal.Advance(Did(External(outcome)));
      return outcome.Done?;
    }

    method KickUser(op: Op, rid: RuntimeId) returns (kicked: bool)
      requires At(op, Kick(rid)) && !op.Reconcile?
      modifies runtime, journal`core, journal`path
      ensures At(op, Remove(rid, !kicked))
      ensures runtime.faults >= old(runtime.faults) && runtime.calls == old(runtime.calls) + [KickCall(rid)]
      ensures kicked <==> WellFormed(rid) && runtime.faults == old(runtime.faults)
    {
      Interfere(op, Kick(rid));
      var outcome := runtime.Kick(rid);
      journal.Advance(Did(External(outcome)));
      return outcome.Done?;
    }

    // Waits until Xray answers again.
    method Await(op: Op, rid: RuntimeId, ghost incomplete: bool) returns (answers: bool)
      requires At(op, Ready(rid, incomplete)) && !op.Reconcile?
      modifies runtime, journal`core, journal`path
      ensures At(op, ListActive(rid, incomplete || !answers))
      ensures runtime.faults >= old(runtime.faults) && runtime.calls == old(runtime.calls) + [ReadyCall]
      ensures answers <==> runtime.faults == old(runtime.faults)
    {
      Interfere(op, Ready(rid, incomplete));
      var outcome := runtime.WaitReady();
      journal.Advance(Did(External(outcome)));
      return outcome.Done?;
    }

    method ListRecords(op: Op, rid: RuntimeId, ghost incomplete: bool)
      returns (todo: Option<seq<(RuntimeId, Option<UserId>)>>, ghost order: seq<ProfileId>)
      requires repository.Valid() && At(op, ListActive(rid, incomplete)) && !op.Reconcile?
      modifies runtime`users, runtime`exits, repository.database`failures, journal`core, journal`path
      ensures repository.database.failures == old(repository.database.failures) + if todo.Some? then 0 else 1
      ensures todo.Some? ==> ToSet(order) == repository.rows.Keys && todo.value == ActiveRecords(repository.rows, order)
      ensures At(op, if todo.None? then AfterRaise(op, false) else AfterReadd(rid, incomplete, todo.value))
    {
      Interfere(op, ListActive(rid, incomplete));
      var listed := repository.List();
      ListFollows(journal.core, rid, incomplete, listed);
      if listed.None? {
        journal.Follow(Store(false, 0), Core(repository.rows, runtime.users, op, AfterRaise(op, false)));
        return None, [];
      }
      var records := ActiveRecords(repository.rows, listed.value);
      journal.Follow(Listing(listed.value), Core(repository.rows, runtime.users, op, AfterReadd(rid, incomplete, records)));
      return Some(records), listed.value;
    }

    // ---- error paths ----

    method MarkError(op: Op, p: ProfileId, code: string)
      requires repository.Valid() && At(op, MarkGet(code)) && !op.Reconcile? && op.Subject() == p
      modifies repository`rows, repository.database, runtime`users, runtime`exits, journal`core, journal`path
      ensures repository.Valid() && At(op, ReconcileList)
      ensures repository.database.failures >= old(repository.database.failures)
      ensures TouchesOnly(old(repository.rows), repository.rows, p)
      ensures repository.database.failures == old(repository.database.failures) && p in repository.rows ==>
                Marked(repository.rows, p, code)
    {
      var got := Fetch(op, p, MarkGet(code));
      if got.Failure? { return; }
      if got.value.state.Disabled? {
        var _ := Record(op, p, code, MarkSet(code, Disabled));
      } else {
        var _ := MarkState(op, p, Error, code, MarkSet(code, got.value.state));
      }
    }

    // `reconcile` inside an operation: the health snapshot follows the result.
    method Heal(op: Op)
      requires Valid() && At(op, ReconcileList)
      modifies runtime, repository.database`failures, journal`core, journal`path, this`ready
      ensures Valid() && At(op, Finish(op.Reconcile?))
      ensures repository.database.failures >= old(repository.database.failures)
      ensures runtime.faults >= old(runtime.faults)
    {
      journal.Invariant();
      var result := reconciler.Run();
      journal.Invariant();
      Publish(op, result);
    }

    // Stores the outcome of a reconciliation as the health snapshot.
    method Publish(op: Op, result: ReconcileResult)
      requires At(op, ReconcileDone(!result.failed))
      modifies journal`core, journal`path, this`ready
      ensures At(op, Finish(op.Reconcile?)) && ready == !result.failed
    {
      ready := !result.failed;
      journal.Advance(Did(Local(true)));
    }

    method Fail(op: Op, p: ProfileId, code: string)
      requires Valid() && At(op, MarkGet(code)) && !op.Reconcile? && op.Subject() == p
      modifies repository`rows, repository.database, runtime, journal`core, journal`path, this`ready
      ensures Valid() && At(op, Finish(false))
      ensures repository.database.failures >= old(repository.database.failures)
      ensures runtime.faults >= old(runtime.faults)
      ensures TouchesOnly(old(repository.rows), repository.rows, p)
      ensures repository.database.failures == old(repository.database.failures) && p in repository.rows ==>
                Marked(repository.rows, p, code)
    {
      MarkError(op, p, code);
      Heal(op);
    }

    // ---- create and enable ----

    // Adds the user, commits ACTIVE and builds the links; `linkable` says whether the latter succeeds.
    method Provision(op: Op, p: ProfileId, row: Row, linkable: bool) returns (active: bool)
      requires Valid() && (op.Create? || op.Enable?) && op.Subject() == p
      requires At(op, ProvisionAdd(row.rid, row.uid))
      requires p in repository.rows && repository.rows[p] == row && (row.state.Pending? || row.state.Disabled?)
      modifies repository`rows, repository.database, runtime, journal`core, journal`path, this`ready
      ensures Valid() && At(op, Finish(active))
      ensures repository.database.failures >= old(repository.database.failures)
      ensures runtime.faults >= old(runtime.faults)
      ensures TouchesOnly(old(repository.rows), repository.rows, p)
      ensures active <==>
                && Servable(row) && linkable && runtime.faults == old(runtime.faults)
                && repository.database.failures == old(repository.database.failures)
      ensures active ==> repository.rows[p].state.Active?
      ensures !active && repository.database.failures == old(repository.database.failures) ==>
                Marked(repository.rows, p, XRAY_ADD_FAILED)
    {
      active := AddAndCommit(op, p, row, linkable);
      if !active { Undo(op, p, row.rid); }
    }

    method Undo(op: Op, p: ProfileId, rid: RuntimeId)
      requires Valid() && At(op, ProvisionUndo(rid)) && !op.Reconcile? && op.Subject() == p
      modifies repository`rows, repository.database, runtime, journal`core, journal`path, this`ready
      ensures Valid() && At(op, Finish(false))
      ensures repository.database.failures >= old(repository.database.failures)
      ensures runtime.faults >= old(runtime.faults)
      ensures TouchesOnly(old(repository.rows), repository.rows, p)
      ensures repository.database.failures == old(repository.database.failures) && p in repository.rows ==>
                Marked(repository.rows, p, XRAY_ADD_FAILED)
    {
      var _ := Drop(op, rid, ProvisionUndo(rid));
      Fail(op, p, XRAY_ADD_FAILED);
    }

    method AddAndCommit(op: Op, p: ProfileId, row: Row, linkable: bool) returns (active: bool)
      requires repository.Valid() && (op.Create? || op.Enable?) && op.Subject() == p
      requires At(op, ProvisionAdd(row.rid, row.uid))
      requires p in repository.rows && repository.rows[p] == row && (row.state.Pending? || row.state.Disabled?)
      modifies repository`rows, repository.database, runtime, journal`core, journal`path
      ensures repository.Valid() && At(op, if active then Finish(true) else ProvisionUndo(row.rid))
      ensures repository.database.failures >= old(repository.database.failures)
      ensures runtime.faults >= old(runtime.faults)
      ensures TouchesOnly(old(repository.rows), repository.rows, p)
      ensures active <==>
                && Servable(row) && linkable && runtime.faults == old(runtime.faults)
                && repository.database.failures == old(repository.database.failures)
      ensures active ==> repository.rows[p].state.Active?
    {
      if row.uid.None? {
        Undecryptable(op, ProvisionAdd(row.rid, row.uid));
        return false;
      }
      var added := Add(op, row.rid, row.uid.value, ProvisionAdd(row.rid, row.uid));
      if !added { return false; }
      active := CommitAndLink(op, p, row.rid, linkable);
    }

    method CommitAndLink(op: Op, p: ProfileId, rid: RuntimeId, linkable: bool) returns (active: bool)
      requires repository.Valid() && (op.Create? || op.Enable?) && op.Subject() == p && At(op, ProvisionCommit(rid))
      requires p in repository.rows && (repository.rows[p].state.Pending? || repository.rows[p].state.Disabled?)
      modifies repository`rows, repository.database, runtime`users, runtime`exits, journal`core, journal`path
      ensures repository.Valid() && At(op, if active then Finish(true) else ProvisionUndo(rid))
      ensures repository.database.failures >= old(repository.database.failures)
      ensures TouchesOnly(old(repository.rows), repository.rows, p)
      ensures active <==> linkable && repository.database.failures == old(repository.database.failures)
      ensures active ==> repository.rows[p].state.Active?
    {
      var committed := Admit(op, p, Active, ProvisionCommit(rid));
      if committed.Failure? { return false; }
      Link(op, rid, linkable);
      return linkable;
    }

    method Link(op: Op, ghost rid: RuntimeId, linkable: bool)
      requires At(op, ProvisionLinks(rid)) && !op.Reconcile?
      modifies journal`core, journal`path
      ensures At(op, if linkable then Finish(true) else ProvisionUndo(rid))
    {
      journal.Advance(Did(Local(linkable)));
    }

    // Neither the id nor the runtime id nor one of the secrets is taken.
    ghost predicate Insertable(m: Material, token: string, hysteria: string)
      reads repository
    {
      && m.id !in repository.rows
      && (forall q :: q in repository.rows ==> repository.rows[q].rid != m.rid)
      && repository.Unused(token, hysteria)
    }

    // The first transaction of create; an invalid name raises before it.
    method Insert(m: Material, nameIsValid: bool, token: string, hysteria: string)
      returns (inserted: Result<(), Raised>)
      requires repository.Valid() && UrlToken(token) && UrlToken(hysteria)
      requires At(ProfileProtocol.Create(m), CreateInsert)
      modifies repository, repository.database`failures, runtime`users, runtime`exits, journal`core, journal`path
      ensures repository.Valid()
      ensures At(ProfileProtocol.Create(m), if inserted.Success? then CreateGet else Finish(false))
      ensures repository.database.failures >= old(repository.database.failures)
      ensures inserted.Success? <==>
                && nameIsValid && old(Insertable(m, token, hysteria))
                && repository.database.failures == old(repository.database.failures)
      ensures inserted.Success? ==>
                repository.rows == old(repository.rows)[m.id := Row(Pending, m.rid, m.uid, None, None)]
      ensures inserted.Failure? ==> repository.rows == old(repository.rows)
      ensures inserted.Failure? && repository.database.failures == old(repository.database.failures) ==>
                inserted.error == if nameIsValid then ProfileConflict else InvalidName
    {
      if !nameIsValid {
        journal.Advance(Did(Store(false, 0)));
        return Failure(InvalidName);
      }
      var stored := StorePending(m, token, hysteria);
      return if stored.Success? then Success(()) else Failure(AsRaised(stored.error));
    }

    method StorePending(m: Material, token: string, hysteria: string) returns (stored: Result<(), Denial>)
      requires repository.Valid() && UrlToken(token) && UrlToken(hysteria)
      requires At(ProfileProtocol.Create(m), CreateInsert)
      modifies repository, repository.database`failures, runtime`users, runtime`exits, journal`core, journal`path
      ensures repository.Valid()
      ensures At(ProfileProtocol.Create(m), if stored.Success? then CreateGet else Finish(false))
      ensures repository.database.failures == old(repository.database.failures) + if Decided(stored) then 0 else 1
      ensures stored.Success? ==>
                && old(Insertable(m, token, hysteria))
                && repository.rows == old(repository.rows)[m.id := Row(Pending, m.rid, m.uid, None, None)]
      ensures stored.Failure? ==> repository.rows == old(repository.rows)
      ensures stored.Failure? && stored.error.Refused? ==>
                stored.error.reason.Conflict? && !old(Insertable(m, token, hysteria))
    {
      Interfere(ProfileProtocol.Create(m), CreateInsert);
      InsertableExact(repository.rows, m);
      stored := repository.InsertPending(m, token, hysteria);
      InsertFollows(journal.core, m, stored.Success?);
      journal.Follow(Store(stored.Success?, 0),
                     Core(repository.rows, runtime.users, ProfileProtocol.Create(m),
                          if stored.Success? then CreateGet else Finish(false)));
    }

    /** Creates a profile. It returns normally exactly when the name is valid, the ids and secrets are not
        taken, the material decrypts, the client accepts the id, the links can be built, and neither the
        database nor a client fails; the profile is then stored ACTIVE under the id and runtime id it
        was given. Otherwise the exception says why, and a stored profile shows it. */
    method Create(m: Material, nameIsValid: bool, token: string, hysteria: string, linkable: bool)
      returns (r: Result<(), Raised>)
      requires Valid() && UrlToken(token) && UrlToken(hysteria)
      modifies repository, repository.database, runtime, journal, this`ready
      ensures Valid()
      ensures Executed(ProfileProtocol.Create(m), old(repository.rows), old(runtime.users), r.Success?)
      ensures r.Success? ==>
                && repository.database.failures == old(repository.database.failures) && m.id in repository.rows
                && repository.rows[m.id].state.Active? && repository.rows[m.id].rid == m.rid
      ensures repository.database.failures == old(repository.database.failures) ==>
                r == if !nameIsValid then Failure(InvalidName)
                     else if !old(Insertable(m, token, hysteria)) then Failure(ProfileConflict)
                     else if WellFormed(m.rid) && m.uid.Some? && linkable && runtime.faults == old(runtime.faults)
                       then Success(())
                     else Failure(ProvisioningFailed)
      ensures repository.database.failures == old(repository.database.failures) && r == Failure(ProvisioningFailed) ==>
                Marked(repository.rows, m.id, XRAY_ADD_FAILED)
    {
      Begin(ProfileProtocol.Create(m));
      r := CreateStored(m, nameIsValid, token, hysteria, linkable);
    }

    method CreateStored(m: Material, nameIsValid: bool, token: string, hysteria: string, linkable: bool)
      returns (r: Result<(), Raised>)
      requires Valid() && UrlToken(token) && UrlToken(hysteria) && At(ProfileProtocol.Create(m), CreateInsert)
      modifies repository, repository.database, runtime, journal`core, journal`path, this`ready
      ensures Valid() && At(ProfileProtocol.Create(m), Finish(r.Success?))
      ensures r.Success? ==>
                && repository.database.failures == old(repository.database.failures) && m.id in repository.rows
                && repository.rows[m.id].state.Active? && repository.rows[m.id].rid == m.rid
      ensures repository.database.failures == old(repository.database.failures) ==>
                r == if !nameIsValid then Failure(InvalidName)
                     else if !old(Insertable(m, token, hysteria)) then Failure(ProfileConflict)
                     else if WellFormed(m.rid) && m.uid.Some? && linkable && runtime.faults == old(runtime.faults)
                       then Success(())
                     else Failure(ProvisioningFailed)
      ensures repository.database.failures == old(repository.database.failures) && r == Failure(ProvisioningFailed) ==>
                Marked(repository.rows, m.id, XRAY_ADD_FAILED)
    {
      var op := ProfileProtocol.Create(m);
      var inserted := Insert(m, nameIsValid, token, hysteria);
      if inserted.Failure? { return inserted; }
      var got := Fetch(op, m.id, CreateGet);
      if got.Failure? { return Failure(AsRaised(got.error)); }
      var active := Provision(op, m.id, got.value, linkable);
      return if active then Success(()) else Failure(ProvisioningFailed);
    }

    /** Enables a profile. It returns normally exactly when the profile is stored and not ACTIVE, its
        material decrypts, the client accepts its id, the links can be built, and neither the database
        nor a client fails; it is then ACTIVE. An ACTIVE profile raises before any effect. */
    method Enable(p: ProfileId, linkable: bool) returns (r: Result<(), Raised>)
      requires Valid()
      modifies repository`rows, repository.database, runtime, journal, this`ready
      ensures Valid()
      ensures Executed(ProfileProtocol.Enable(p), old(repository.rows), old(runtime.users), r.Success?)
      ensures TouchesOnly(old(repository.rows), repository.rows, p)
      ensures r.Success? ==>
                && repository.database.failures == old(repository.database.failures)
                && p in repository.rows && repository.rows[p].state.Active?
      ensures repository.database.failures == old(repository.database.failures) ==>
                r == if p !in old(repository.rows) then Failure(ProfileNotFound)
                     else if old(repository.rows)[p].state.Active? then Failure(TransitionRefused)
                     else if old(Servable(repository.rows[p])) && linkable && runtime.faults == old(runtime.faults)
                       then Success(())
                     else Failure(EnableFailed)
      ensures repository.database.failures == old(repository.database.failures) && r == Failure(EnableFailed) ==>
                Marked(repository.rows, p, XRAY_ADD_FAILED)
      ensures p in old(repository.rows) && old(repository.rows)[p].state.Active? ==>
                && r.Failure? && repository.rows == old(repository.rows)
                && (runtime.exits == old(runtime.exits) ==> runtime.users == old(runtime.users))
    {
      Begin(ProfileProtocol.Enable(p));
      r := EnableFound(p, linkable);
    }

    method EnableFound(p: ProfileId, linkable: bool) returns (r: Result<(), Raised>)
      requires Valid() && At(ProfileProtocol.Enable(p), EnableGet)
      modifies repository`rows, repository.database, runtime, journal`core, journal`path, this`ready
      ensures Valid() && At(ProfileProtocol.Enable(p), Finish(r.Success?))
      ensures TouchesOnly(old(repository.rows), repository.rows, p)
      ensures r.Success? ==>
                && repository.database.failures == old(repository.database.failures)
                && p in repository.rows && repository.rows[p].state.Active?
      ensures repository.database.failures == old(repository.database.failures) ==>
                r == if p !in old(repository.rows) then Failure(ProfileNotFound)
                     else if old(repository.rows)[p].state.Active? then Failure(TransitionRefused)
                     else if old(Servable(repository.rows[p])) && linkable && runtime.faults == old(runtime.faults)
                       then Success(())
                     else Failure(EnableFailed)
      ensures repository.database.failures == old(repository.database.failures) && r == Failure(EnableFailed) ==>
                Marked(repository.rows, p, XRAY_ADD_FAILED)
      ensures p in old(repository.rows) && old(repository.rows)[p].state.Active? ==>
                && r.Failure? && repository.rows == old(repository.rows)
                && (runtime.exits == old(runtime.exits) ==> runtime.users == old(runtime.users))
    {
      var got := Fetch(ProfileProtocol.Enable(p), p, EnableGet);
      if got.Failure? { return Failure(AsRaised(got.error)); }
      r := EnableStored(p, got.value, linkable);
    }

    method EnableStored(p: ProfileId, row: Row, linkable: bool) returns (r: Result<(), Raised>)
      requires Valid() && p in repository.rows && repository.rows[p] == row
      requires At(ProfileProtocol.Enable(p), if row.state.Error? then EnableReset else AfterDecision(row))
      modifies repository`rows, repository.database, runtime, journal`core, journal`path, this`ready
      ensures Valid() && At(ProfileProtocol.Enable(p), Finish(r.Success?))
      ensures repository.database.failures >= old(repository.database.failures)
      ensures TouchesOnly(old(repository.rows), repository.rows, p)
      ensures r.Success? ==> repository.database.failures == old(repository.database.failures) && repository.rows[p].state.Active?
      ensures repository.database.failures == old(repository.database.failures) ==>
                r == if row.state.Active? then Failure(TransitionRefused)
                     else if Servable(row) && linkable && runtime.faults == old(runtime.faults) then Success(())
                     else Failure(EnableFailed)
      ensures repository.database.failures == old(repository.database.failures) && r == Failure(EnableFailed) ==>
                Marked(repository.rows, p, XRAY_ADD_FAILED)
      ensures row.state.Active? ==>
                && r.Failure? && repository.rows == old(repository.rows)
                && runtime.users == old(runtime.users) && runtime.exits == old(runtime.exits)
    {
      var op := ProfileProtocol.Enable(p);
      var current := LeaveError(op, p, row);
      if current.Failure? { return Failure(current.error); }
      if !current.value.state.Pending? && !current.value.state.Disabled? {
        return Failure(TransitionRefused);
      }
      var active := Provision(op, p, current.value, linkable);
      return if active then Success(()) else Failure(EnableFailed);
    }

    // An ERROR profile becomes a PENDING one first.
    method LeaveError(op: Op, p: ProfileId, row: Row) returns (current: Result<Row, Raised>)
      requires repository.Valid() && op == ProfileProtocol.Enable(p) && p in repository.rows && repository.rows[p] == row
      requires At(op, if row.state.Error? then EnableReset else AfterDecision(row))
      modifies repository`rows, repository.database, runtime`users, runtime`exits, journal`core, journal`path
      ensures repository.Valid() && At(op, if current.Success? then AfterDecision(current.value) else Finish(false))
      ensures repository.database.failures == old(repository.database.failures) + if current.Success? then 0 else 1
      ensures TouchesOnly(old(repository.rows), repository.rows, p)
      ensures current.Success? ==>
                && current.value == repository.rows[p]
                && current.value.state == if row.state.Error? then Pending else row.state
      ensures current.Failure? ==> current.error == StoreFailed
      ensures !row.state.Error? ==>
                && repository.rows == old(repository.rows)
                && runtime.users == old(runtime.users) && runtime.exits == old(runtime.exits)
    {
      if row.state.Error? {
        var reset := Admit(op, p, Pending, EnableReset);
        return if reset.Success? then Success(reset.value) else Failure(AsRaised(reset.error));
      }
      return Success(row);
    }

    // ---- disable and delete ----

    // DISABLED is committed before any call into the runtime.
    method CommitDisabled(op: Op, p: ProfileId) returns (r: Result<RuntimeId, Raised>)
      requires repository.Valid() && !op.Reconcile? && op.Subject() == p
      requires At(op, DisableCommit) && p in repository.rows && !repository.rows[p].state.Pending?
      modifies repository`rows, repository.database, runtime`users, runtime`exits, journal`core, journal`path
      ensures repository.Valid()
      ensures At(op, if r.Success? then Kick(r.value) else AfterRaise(op, Reraised(r.error)))
      ensures TouchesOnly(old(repository.rows), repository.rows, p)
      ensures r.Success? ==>
                && repository.rows[p].state.Disabled? && r.value == repository.rows[p].rid
                && Stamped(repository.rows[p], old(repository.database.clock), repository.database.clock)
      ensures r.Failure? ==> r.error == StoreFailed
      ensures repository.database.failures == old(repository.database.failures) + if r.Success? then 0 else 1
    {
      var disabled := Withdraw(op, p, Disabled, DisableCommit);
      return if disabled.Success? then Success(disabled.value.rid) else Failure(AsRaised(disabled.error));
    }

    method PrepareDisabled(op: Op, p: ProfileId) returns (r: Result<RuntimeId, Raised>)
      requires repository.Valid() && !op.Reconcile? && op.Subject() == p
      requires At(op, DisableGet)
      modifies repository`rows, repository.database, runtime`users, runtime`exits, journal`core, journal`path
      ensures repository.Valid()
      ensures At(op, if r.Success? then Kick(r.value) else AfterRaise(op, Reraised(r.error)))
      ensures TouchesOnly(old(repository.rows), repository.rows, p)
      ensures repository.database.failures >= old(repository.database.failures)
      ensures r.Success? <==>
                p in old(repository.rows) && repository.database.failures == old(repository.database.failures)
      ensures r.Success? ==>
                && repository.rows[p].state.Disabled? && r.value == repository.rows[p].rid
                && Stamped(repository.rows[p], old(repository.database.clock), repository.database.clock)
      ensures r.Failure? ==> r.error in {ProfileNotFound, StoreFailed}
      ensures r.Failure? && repository.database.failures == old(repository.database.failures) ==>
                r.error == ProfileNotFound
    {
      var got := Fetch(op, p, DisableGet);
      if got.Failure? { return Failure(AsRaised(got.error)); }
      var left := LeavePending(op, p, got.value.state);
      if left.Failure? { return Failure(left.error); }
      r := CommitDisabled(op, p);
    }

    // A PENDING profile becomes an ERROR one first.
    method LeavePending(op: Op, p: ProfileId, state: ProfileState) returns (r: Result<(), Raised>)
      requires repository.Valid() && !op.Reconcile? && op.Subject() == p
      requires p in repository.rows && repository.rows[p].state == state
      requires At(op, if state.Pending? then DisableFromPending else DisableCommit)
      modifies repository`rows, repository.database, runtime`users, runtime`exits, journal`core, journal`path
      ensures repository.Valid()
      ensures At(op, if r.Success? then DisableCommit else AfterRaise(op, Reraised(r.error)))
      ensures TouchesOnly(old(repository.rows), repository.rows, p)
      ensures r.Success? ==> !repository.rows[p].state.Pending?
      ensures r.Failure? ==> r.error == StoreFailed
      ensures repository.database.failures == old(repository.database.failures) + if r.Success? then 0 else 1
      ensures repository.database.clock >= old(repository.database.clock)
    {
      if state.Pending? {
        var failed := Withdraw(op, p, Error, DisableFromPending);
        if failed.Failure? { return Failure(AsRaised(failed.error)); }
      }
      return Success(());
    }

    /** Every phase is attempted, in order; any exception is only remembered. */
    method Revoke(op: Op, rid: RuntimeId) returns (incomplete: bool)
      requires At(op, Kick(rid)) && !op.Reconcile?
      modifies runtime, journal`core, journal`path
      ensures At(op, ListActive(rid, incomplete))
      ensures runtime.faults >= old(runtime.faults) && runtime.calls == old(runtime.calls) + Phases(rid)
      ensures incomplete <==> !(WellFormed(rid) && runtime.faults == old(runtime.faults))
    {
      var kicked := KickUser(op, rid);
      var removed := Drop(op, rid, Remove(rid, !kicked));
      var restarted := RestartChild(op, rid, !kicked || !removed);
      var answers := Await(op, rid, !kicked || !removed || !restarted);
      return !kicked || !removed || !restarted || !answers;
    }

    // One record of the loop.
    method ReaddOne(op: Op, rid: RuntimeId, incomplete: bool, todo: seq<(RuntimeId, Option<UserId>)>)
      returns (after: bool)
      requires todo != [] && At(op, Readd(rid, incomplete, todo)) && !op.Reconcile?
      modifies runtime, journal`core, journal`path
      ensures At(op, AfterReadd(rid, after, todo[1..]))
      ensures runtime.faults >= old(runtime.faults)
      ensures after <==> incomplete || !Readable(todo[0]) || runtime.faults > old(runtime.faults)
      ensures runtime.calls == old(runtime.calls) + Readditions([todo[0]])
    {
      var record := todo[0];
      ReadditionsOfOne(record);
      if record.1.None? {
        Undecryptable(op, Readd(rid, incomplete, todo));
        return true;
      }
      var added := Add(op, record.0, record.1.value, Readd(rid, incomplete, todo));
      return incomplete || !added;
    }

    /** Re-adds every active user; r.value says whether anything was left incomplete. */
    method ReaddActive(op: Op, rid: RuntimeId, before: bool) returns (r: Result<bool, Raised>, ghost order: seq<ProfileId>)
      requires repository.Valid() && At(op, ListActive(rid, before)) && !op.Reconcile?
      modifies runtime, repository.database`failures, journal`core, journal`path
      ensures At(op, if r.Failure? then AfterRaise(op, false) else AfterReadd(rid, r.value, []))
      ensures r.Failure? ==> r.error == StoreFailed
      ensures runtime.faults >= old(runtime.faults)
      ensures repository.database.failures == old(repository.database.failures) + if r.Success? then 0 else 1
      ensures r.Success? ==>
                (r.value <==> before || !AllServable(repository.rows) || runtime.faults > old(runtime.faults))
      ensures r.Success? ==>
                && ToSet(order) == repository.rows.Keys
                && runtime.calls == old(runtime.calls) + Readditions(ActiveRecords(repository.rows, order))
    {
      var listed;
      listed, order := ListRecords(op, rid, before);
      if listed.None? { return Failure(StoreFailed), order; }
      var incomplete := ReaddAll(op, rid, before, listed.value);
      ReadableExact(repository.rows, order);
      return Success(incomplete), order;
    }

    method ReaddAll(op: Op, rid: RuntimeId, before: bool, todo: seq<(RuntimeId, Option<UserId>)>)
      returns (incomplete: bool)
      requires At(op, AfterReadd(rid, before, todo)) && !op.Reconcile?
      modifies runtime, journal`core, journal`path
      ensures At(op, AfterReadd(rid, incomplete, []))
      ensures runtime.faults >= old(runtime.faults)
      ensures incomplete <==> before || (exists e :: e in todo && !Readable(e)) || runtime.faults > old(runtime.faults)
      ensures runtime.calls == old(runtime.calls) + Readditions(todo)
    {
      incomplete := before;
      var i := 0;
      while i < |todo|
        invariant 0 <= i <= |todo| && At(op, AfterReadd(rid, incomplete, todo[i..]))
        invariant runtime.faults >= old(runtime.faults)
        invariant incomplete <==>
                    before || (exists e :: e in todo[..i] && !Readable(e)) || runtime.faults > old(runtime.faults)
        invariant runtime.calls == old(runtime.calls) + Readditions(todo[..i])
      {
        assert todo[i..][1..] == todo[i + 1..];
        assert todo[..i + 1] == todo[..i] + [todo[i]];
        ReadditionsGrow(todo[..i], todo[i]);
        incomplete := ReaddOne(op, rid, incomplete, todo[i..]);
        i := i + 1;
      }
      assert todo[..|todo|] == todo;
    }

    // Raises when the revocation is incomplete, after another attempt to reconcile.
    method Report(op: Op, p: ProfileId, rid: RuntimeId, incomplete: bool) returns (r: Result<(), Raised>)
      requires Valid() && (op == ProfileProtocol.Disable(p) || op == ProfileProtocol.Delete(p))
      requires At(op, AfterReadd(rid, incomplete, []))
      requires p in repository.rows && repository.rows[p].state.Disabled?
      modifies repository`rows, repository.database`failures, runtime, journal`core, journal`path, this`ready
      ensures Valid()
      ensures r.Success? ==> At(op, if op.Delete? then DeleteRow(rid) else Finish(true))
      ensures r.Failure? ==> At(op, AfterRaise(op, Reraised(r.error)))
      ensures repository.database.failures >= old(repository.database.failures)
      ensures runtime.faults >= old(runtime.faults)
      ensures TouchesOnly(old(repository.rows), repository.rows, p)
      ensures r.Success? <==> !incomplete && repository.database.failures == old(repository.database.failures)
      ensures r.Success? ==>
                && repository.rows == old(repository.rows) && runtime.faults == old(runtime.faults)
                && runtime.calls == old(runtime.calls)
      ensures incomplete && repository.database.failures == old(repository.database.failures) ==>
                r == Failure(RevocationFailed)
      ensures r == Failure(RevocationFailed) ==> Marked(repository.rows, p, RUNTIME_REVOKE_INCOMPLETE)
    {
      if incomplete {
        var error := ReportIncomplete(op, p, rid);
        return Failure(error);
      }
      var got := Fetch(op, p, DisableResult(rid));
      if got.Failure? {
        return Failure(if got.error.Refused? then ProfileNotFound else StoreFailed);
      }
      return Success(());
    }

    method ReportIncomplete(op: Op, p: ProfileId, rid: RuntimeId) returns (error: Raised)
      requires Valid() && (op == ProfileProtocol.Disable(p) || op == ProfileProtocol.Delete(p))
      requires At(op, RecordIncomplete(rid))
      requires p in repository.rows && repository.rows[p].state.Disabled?
      modifies repository`rows, repository.database`failures, runtime, journal`core, journal`path, this`ready
      ensures Valid() && At(op, AfterRaise(op, Reraised(error)))
      ensures repository.database.failures >= old(repository.database.failures)
      ensures runtime.faults >= old(runtime.faults)
      ensures TouchesOnly(old(repository.rows), repository.rows, p)
      ensures repository.database.failures == old(repository.database.failures) ==> error == RevocationFailed
      ensures error == RevocationFailed ==> Marked(repository.rows, p, RUNTIME_REVOKE_INCOMPLETE)
    {
      var recorded := Record(op, p, RUNTIME_REVOKE_INCOMPLETE, RecordIncomplete(rid));
      if recorded.Failure? { return if recorded.error.Refused? then ProfileNotFound else StoreFailed; }
      Heal(op);
      return RevocationFailed;
    }

    // The body of disable, also executed inside delete on the same thread.
    method CutOff(op: Op, p: ProfileId) returns (r: Result<RuntimeId, Raised>)
      requires Valid() && (op == ProfileProtocol.Disable(p) || op == ProfileProtocol.Delete(p))
      requires At(op, DisableGet)
      modifies repository`rows, repository.database, runtime, journal`core, journal`path, this`ready
      ensures Valid()
      ensures r.Success? ==> At(op, if op.Delete? then DeleteRow(r.value) else Finish(true))
      ensures r.Failure? ==> At(op, AfterRaise(op, Reraised(r.error)))
      ensures repository.database.failures >= old(repository.database.failures)
      ensures runtime.faults >= old(runtime.faults)
      ensures TouchesOnly(old(repository.rows), repository.rows, p)
      ensures r.Success? <==>
                && old(Revocable(repository.rows, p)) && runtime.faults == old(runtime.faults)
                && repository.database.failures == old(repository.database.failures)
      ensures r.Success? ==>
                && repository.rows[p].state.Disabled?
                && Stamped(repository.rows[p], old(repository.database.clock), repository.database.clock)
                && CutOffCalls(repository.rows, repository.rows[p].rid, old(runtime.calls), runtime.calls)
      ensures r.Failure? && repository.database.failures == old(repository.database.failures) ==>
                r.error == if p in old(repository.rows) then RevocationFailed else ProfileNotFound
      ensures r == Failure(RevocationFailed) ==> Marked(repository.rows, p, RUNTIME_REVOKE_INCOMPLETE)
    {
      var prepared := PrepareDisabled(op, p);
      if prepared.Failure? { return Failure(prepared.error); }
      RevocableAfter(old(repository.rows), repository.rows, p);
      r := CutOffRuntime(op, p, prepared.value);
    }

    // What disable does once DISABLED is committed.
    method CutOffRuntime(op: Op, p: ProfileId, rid: RuntimeId) returns (r: Result<RuntimeId, Raised>)
      requires Valid() && (op == ProfileProtocol.Disable(p) || op == ProfileProtocol.Delete(p))
      requires At(op, Kick(rid))
      requires p in repository.rows && repository.rows[p].state.Disabled? && repository.rows[p].rid == rid
      modifies repository`rows, repository.database`failures, runtime, journal`core, journal`path, this`ready
      ensures Valid()
      ensures r.Success? ==> At(op, if op.Delete? then DeleteRow(rid) else Finish(true)) && r.value == rid
      ensures r.Failure? ==> At(op, AfterRaise(op, Reraised(r.error)))
      ensures repository.database.failures >= old(repository.database.failures)
      ensures runtime.faults >= old(runtime.faults)
      ensures TouchesOnly(old(repository.rows), repository.rows, p)
      ensures r.Success? <==>
                && WellFormed(rid) && old(AllServable(repository.rows)) && runtime.faults == old(runtime.faults)
                && repository.database.failures == old(repository.database.failures)
      ensures r.Success? ==>
                repository.rows == old(repository.rows) && CutOffCalls(repository.rows, rid, old(runtime.calls), runtime.calls)
      ensures r.Failure? && repository.database.failures == old(repository.database.failures) ==>
                r.error == RevocationFailed
      ensures r == Failure(RevocationFailed) ==> Marked(repository.rows, p, RUNTIME_REVOKE_INCOMPLETE)
    {
      var incomplete := Revoke(op, rid);
      ghost var order;
      var readded;
      readded, order := ReaddActive(op, rid, incomplete);
      if readded.Failure? { return Failure(readded.error); }
      assert CutOffCalls(repository.rows, rid, old(runtime.calls), runtime.calls) by {
        assert CutOffCallsIn(repository.rows, rid, old(runtime.calls), runtime.calls, order);
      }
      var reported := Report(op, p, rid, readded.value);
      return if reported.Success? then Success(rid) else Failure(reported.error);
    }

    /** Disables a profile. It returns normally exactly when the profile is stored, the clients accept its
        id, every other ACTIVE profile can be re-added, and neither the database nor a client fails. It
        is then stored DISABLED as of a moment within the call, every phase of the revocation was called,
        and the runtime holds only ids of ACTIVE profiles, so not this one's. If only a client fails, the
        revocation is reported as incomplete and the row shows it. */
    method Disable(p: ProfileId) returns (r: Result<(), Raised>)
      requires Valid()
      modifies repository`rows, repository.database, runtime, journal, this`ready
      ensures Valid()
      ensures Executed(ProfileProtocol.Disable(p), old(repository.rows), old(runtime.users), r.Success?)
      ensures TouchesOnly(old(repository.rows), repository.rows, p)
      ensures r.Success? ==> repository.database.failures == old(repository.database.failures)
      ensures repository.database.failures == old(repository.database.failures) ==>
                r == Revoked(p in old(repository.rows),
                             old(Revocable(repository.rows, p)) && runtime.faults == old(runtime.faults))
      ensures r.Success? ==>
                && repository.rows[p].state.Disabled?
                && Stamped(repository.rows[p], old(repository.database.clock), repository.database.clock)
                && CutOffCalls(repository.rows, repository.rows[p].rid, old(runtime.calls), runtime.calls)
                && OnlyActive(repository.rows, runtime.users)
                && repository.rows[p].rid !in runtime.users
      ensures r == Failure(RevocationFailed) ==> Marked(repository.rows, p, RUNTIME_REVOKE_INCOMPLETE)
    {
      Begin(ProfileProtocol.Disable(p));
      r := DisableStored(p);
    }

    method DisableStored(p: ProfileId) returns (r: Result<(), Raised>)
      requires Valid() && At(ProfileProtocol.Disable(p), DisableGet)
      modifies repository`rows, repository.database, runtime, journal`core, journal`path, this`ready
      ensures Valid() && At(ProfileProtocol.Disable(p), Finish(r.Success?))
      ensures TouchesOnly(old(repository.rows), repository.rows, p)
      ensures r.Success? ==> repository.database.failures == old(repository.database.failures)
      ensures repository.database.failures == old(repository.database.failures) ==>
                r == Revoked(p in old(repository.rows),
                             old(Revocable(repository.rows, p)) && runtime.faults == old(runtime.faults))
      ensures r.Success? ==>
                && repository.rows[p].state.Disabled?
                && Stamped(repository.rows[p], old(repository.database.clock), repository.database.clock)
                && CutOffCalls(repository.rows, repository.rows[p].rid, old(runtime.calls), runtime.calls)
                && OnlyActive(repository.rows, runtime.users)
                && repository.rows[p].rid !in runtime.users
      ensures r == Failure(RevocationFailed) ==> Marked(repository.rows, p, RUNTIME_REVOKE_INCOMPLETE)
    {
      var done := CutOff(ProfileProtocol.Disable(p), p);
      if done.Failure? { return Failure(done.error); }
      DisabledIsOut(p);
      return Success(());
    }

    // What the protocol's invariant says at the end of a disable and of a delete.
    lemma DisabledIsOut(p: ProfileId)
      requires At(ProfileProtocol.Disable(p), Finish(true))
      ensures p in repository.rows && repository.rows[p].state.Disabled?
      ensures OnlyActive(repository.rows, runtime.users) && repository.rows[p].rid !in runtime.users
    {
      journal.Invariant();
    }

    lemma DeletedIsOut(p: ProfileId)
      requires At(ProfileProtocol.Delete(p), Finish(true))
      ensures OnlyActive(repository.rows, runtime.users)
    {
      journal.Invariant();
    }

    /** Deletes a profile. It returns normally exactly when it could have been disabled and neither the
        database nor a client fails. Its row and lookup rows are then gone, no other row has changed, and
        the runtime holds only ids of ACTIVE profiles. */
    method Delete(p: ProfileId) returns (r: Result<(), Raised>)
      requires Valid()
      modifies repository, repository.database, runtime, journal, this`ready
      ensures Valid()
      ensures Executed(ProfileProtocol.Delete(p), old(repository.rows), old(runtime.users), r.Success?)
      ensures r.Success? ==> repository.database.failures == old(repository.database.failures)
      ensures repository.database.failures == old(repository.database.failures) ==>
                r == Revoked(p in old(repository.rows),
                             old(Revocable(repository.rows, p)) && runtime.faults == old(runtime.faults))
      ensures r.Success? ==>
                repository.rows == old(repository.rows) - {p} && OnlyActive(repository.rows, runtime.users)
      ensures r == Failure(RevocationFailed) ==> Marked(repository.rows, p, RUNTIME_REVOKE_INCOMPLETE)
    {
      Begin(ProfileProtocol.Delete(p));
      r := DeleteStored(p);
    }

    method DeleteStored(p: ProfileId) returns (r: Result<(), Raised>)
      requires Valid() && At(ProfileProtocol.Delete(p), DisableGet)
      modifies repository, repository.database, runtime, journal`core, journal`path, this`ready
      ensures Valid() && At(ProfileProtocol.Delete(p), Finish(r.Success?))
      ensures r.Success? ==> repository.database.failures == old(repository.database.failures)
      ensures repository.database.failures == old(repository.database.failures) ==>
                r == Revoked(p in old(repository.rows),
                             old(Revocable(repository.rows, p)) && runtime.faults == old(runtime.faults))
      ensures r.Success? ==>
                repository.rows == old(repository.rows) - {p} && OnlyActive(repository.rows, runtime.users)
      ensures r == Failure(RevocationFailed) ==> Marked(repository.rows, p, RUNTIME_REVOKE_INCOMPLETE)
    {
      var op := ProfileProtocol.Delete(p);
      var cut := CutOff(op, p);
      RemovedAlike(old(repository.rows), repository.rows, p);
      r := Conclude(op, p, cut);
    }

    // What delete does with the outcome of disable.
    method Conclude(op: Op, p: ProfileId, cut: Result<RuntimeId, Raised>) returns (r: Result<(), Raised>)
      requires Valid() && op == ProfileProtocol.Delete(p)
      requires cut.Success? ==> At(op, DeleteRow(cut.value)) && p in repository.rows
      requires cut.Failure? ==> At(op, AfterRaise(op, Reraised(cut.error)))
      modifies repository, repository.database, runtime, journal`core, journal`path, this`ready
      ensures Valid() && At(op, Finish(r.Success?))
      ensures repository.database.failures >= old(repository.database.failures)
      ensures runtime.faults >= old(runtime.faults)
      ensures r.Success? ==>
                && cut.Success? && repository.database.failures == old(repository.database.failures)
                && runtime.faults == old(runtime.faults)
                && repository.rows == old(repository.rows) - {p} && OnlyActive(repository.rows, runtime.users)
      ensures cut.Success? && repository.database.failures == old(repository.database.failures) ==> r == Success(())
      ensures cut.Failure? ==> r == Failure(if Reraised(cut.error) then cut.error else DeleteFailed)
      ensures cut.Success? && r.Failure? ==> r.error == DeleteFailed
      ensures cut.Failure? && Reraised(cut.error) ==> repository.rows == old(repository.rows)
    {
      if cut.Failure? {
        var error := FailDelete(op, p, cut.error);
        return Failure(error);
      }
      r := Erase(op, p, cut.value);
    }

    // A failed revocation and a missing profile are passed on; anything else is marked and healed.
    method FailDelete(op: Op, p: ProfileId, raised: Raised) returns (error: Raised)
      requires Valid() && op == ProfileProtocol.Delete(p) && At(op, AfterRaise(op, Reraised(raised)))
      modifies repository`rows, repository.database, runtime, journal`core, journal`path, this`ready
      ensures Valid() && At(op, Finish(false))
      ensures repository.database.failures >= old(repository.database.failures)
      ensures runtime.faults >= old(runtime.faults)
      ensures error == if Reraised(raised) then raised else DeleteFailed
      ensures Reraised(raised) ==> repository.rows == old(repository.rows)
    {
      if Reraised(raised) { return raised; }
      Fail(op, p, PROFILE_MATERIAL_INVALID);
      return DeleteFailed;
    }

    // Deletes the rows, then truncates the write-ahead log.
    method Erase(op: Op, p: ProfileId, rid: RuntimeId) returns (r: Result<(), Raised>)
      requires Valid() && op == ProfileProtocol.Delete(p) && At(op, DeleteRow(rid)) && p in repository.rows
      modifies repository, repository.database, runtime, journal`core, journal`path, this`ready
      ensures Valid() && At(op, Finish(r.Success?))
      ensures repository.database.failures >= old(repository.database.failures)
      ensures runtime.faults >= old(runtime.faults)
      ensures r == Success(()) || r == Failure(DeleteFailed)
      ensures r.Success? <==> repository.database.failures == old(repository.database.failures)
      ensures r.Success? ==>
                && repository.rows == old(repository.rows) - {p} && OnlyActive(repository.rows, runtime.users)
                && runtime.faults == old(runtime.faults)
    {
      var deleted := EraseRow(op, p, rid);
      if deleted.Failure? {
        if deleted.error.Refused? { return Failure(ProfileNotFound); }
        Fail(op, p, PROFILE_MATERIAL_INVALID);
        return Failure(DeleteFailed);
      }
      var completed := Truncate(op, rid);
      if !completed {
        Fail(op, p, PROFILE_MATERIAL_INVALID);
        return Failure(DeleteFailed);
      }
      DeletedIsOut(p);
      return Success(());
    }

    method EraseRow(op: Op, p: ProfileId, rid: RuntimeId) returns (deleted: Result<(), Denial>)
      requires repository.Valid() && op == ProfileProtocol.Delete(p) && At(op, DeleteRow(rid))
      modifies repository, repository.database`failures, runtime`users, runtime`exits, journal`core, journal`path
      ensures repository.Valid()
      ensures At(op, AfterErase(rid, deleted))
      ensures repository.database.failures == old(repository.database.failures) + if Decided(deleted) then 0 else 1
      ensures repository.rows == if deleted.Success? then old(repository.rows) - {p} else old(repository.rows)
      ensures deleted.Failure? && deleted.error.Refused? ==> p !in repository.rows
    {
      Interfere(op, DeleteRow(rid));
      deleted := repository.DeleteLocal(p);
      EraseFollows(journal.core, p, rid, deleted, repository.rows);
      journal.Follow(Store(Decided(deleted), 0),
                     Core(repository.rows, runtime.users, op, AfterErase(rid, deleted)));
    }

    method Truncate(op: Op, rid: RuntimeId) returns (completed: bool)
      requires op.Delete? && At(op, Checkpoint(rid))
      modifies runtime`users, runtime`exits, repository.database`failures, journal`core, journal`path
      ensures repository.database.failures == old(repository.database.failures) + if completed then 0 else 1
      ensures At(op, if completed then Finish(true) else MarkGet(PROFILE_MATERIAL_INVALID))
    {
      Interfere(op, Checkpoint(rid));
      completed := repository.CheckpointWal();
      journal.Advance(Did(Store(completed, 0)));
    }

    /** Reconciles, and stores the outcome as the health snapshot. */
    method Reconcile() returns (result: ReconcileResult)
      requires Valid()
      modifies runtime, repository.database`failures, journal, this`ready
      ensures Valid()
      ensures Executed(ProfileProtocol.Reconcile, old(repository.rows), old(runtime.users), true)
      ensures ready == !result.failed
      ensures !result.failed && runtime.exits == old(runtime.exits) ==>
                && runtime.users.Keys == ActiveIds(repository.rows)
                && (result.restarted || old(Right(repository.rows, runtime.users)) ==>
                      Agreement(repository.rows, runtime.users))
      ensures repository.database.failures == old(repository.database.failures)
              && runtime.exits == old(runtime.exits) && runtime.faults == old(runtime.faults) ==>
                (!result.failed <==>
                  && Decryptable(repository.rows)
                  && Accepted(ActiveIds(repository.rows), old(runtime.users.Keys)))
    {
      Begin(ProfileProtocol.Reconcile);
      result := reconciler.Run();
      journal.Invariant();
      Publish(ProfileProtocol.Reconcile, result);
    }
  }
}
