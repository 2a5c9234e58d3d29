/** The runtime clients, and the reconciler as it executes
    (control/src/ezopenpn/profiles/reconcile.py). */
module ProfileReconcilers {
  import opened Wrappers
  import opened Ordering
  import opened ProfileStore
  import opened ProfileProtocol
  import opened ProfileInvariants
  import opened ProfileSafety
  import opened ProfileUserIds
  import opened ProfileRepositories

  /** The calls made on the clients, in order. */
  datatype Call =
    | KickCall(rid: RuntimeId)
    | AddCall(rid: RuntimeId, uid: UserId)
    | RemoveCall(rid: RuntimeId)
    | ListCall
    | RestartCall
    | ReadyCall

  /** Xray, the process supervisor and Hysteria behind their clients. `exits` counts the child exits
      nobody asked for, `faults` the calls that raised for reasons of their own. */
  class Runtime {
    var users: Users
    var exits: nat
    var faults: nat
    ghost var calls: seq<Call>

    constructor (users: Users)
      ensures this.users == users && exits == 0 && faults == 0 && calls == []
    {
      this.users, exits, faults, calls := users, 0, 0, [];
    }

    // A moment at which the child may exit by itself.
    method Drift() returns (exited: bool)
      modifies this`users, this`exits
      ensures exited ==> users == map[] && exits == old(exits) + 1
      ensures !exited ==> users == old(users) && exits == old(exits)
    {
      exited := *;
      if exited { users, exits := map[], exits + 1; }
    }

    method Answer(ghost call: Call) returns (outcome: Outcome)
      modifies this`faults, this`calls
      ensures faults == old(faults) + if outcome.Done? then 0 else 1
      ensures calls == old(calls) + [call]
    {
      outcome := *;
      if !outcome.Done? { faults := faults + 1; }
      calls := calls + [call];
    }

    // A call for one id, which the client checks first.
    method AnswerFor(rid: RuntimeId, ghost call: Call) returns (outcome: Outcome)
      modifies this`faults, this`calls
      ensures Admissible(rid, outcome) && faults >= old(faults)
      ensures outcome.Done? <==> WellFormed(rid) && faults == old(faults)
      ensures calls == old(calls) + [call]
    {
      if WellFormed(rid) {
        outcome := Answer(call);
      } else {
        outcome := RaisedBeforeEffect;
        calls := calls + [call];
      }
    }

    method Kick(rid: RuntimeId) returns (outcome: Outcome)
      modifies this`faults, this`calls
      ensures faults >= old(faults) && calls == old(calls) + [KickCall(rid)]
      ensures outcome.Done? <==> WellFormed(rid) && faults == old(faults)
    {
      outcome := AnswerFor(rid, KickCall(rid));
    }

    method AddUser(rid: RuntimeId, uid: UserId) returns (outcome: Outcome)
      modifies this`users, this`faults, this`calls
      ensures Admissible(rid, outcome) && users == AfterAdd(old(users), rid, uid, outcome)
      ensures faults >= old(faults) && calls == old(calls) + [AddCall(rid, uid)]
      ensures outcome.Done? <==> WellFormed(rid) && faults == old(faults)
    {
      outcome := AnswerFor(rid, AddCall(rid, uid));
      users := AfterAdd(users, rid, uid, outcome);
    }

    method RemoveUser(rid: RuntimeId) returns (outcome: Outcome)
      modifies this`users, this`faults, this`calls
      ensures Admissible(rid, outcome) && users == AfterRemove(old(users), rid, outcome)
      ensures faults >= old(faults) && calls == old(calls) + [RemoveCall(rid)]
      ensures outcome.Done? <==> WellFormed(rid) && faults == old(faults)
    {
      outcome := AnswerFor(rid, RemoveCall(rid));
      users := AfterRemove(users, rid, outcome);
    }

    method ListUsers() returns (listed: Option<set<RuntimeId>>)
      modifies this`faults, this`calls
      ensures listed.Some? ==> listed.value == users.Keys
      ensures faults == old(faults) + if listed.Some? then 0 else 1
      ensures calls == old(calls) + [ListCall]
    {
      var outcome := Answer(ListCall);
      listed := if outcome.Done? then Some(users.Keys) else None;
    }

    method Restart() returns (outcome: Outcome)
      modifies this`users, this`faults, this`calls
      ensures users == AfterRestart(old(users), outcome)
      ensures faults == old(faults) + if outcome.Done? then 0 else 1
      ensures calls == old(calls) + [RestartCall]
    {
      outcome := Answer(RestartCall);
      users := AfterRestart(users, outcome);
    }

    method WaitReady() returns (outcome: Outcome)
      modifies this`faults, this`calls
      ensures faults == old(faults) + if outcome.Done? then 0 else 1
      ensures calls == old(calls) + [ReadyCall]
    {
      outcome := Answer(ReadyCall);
    }
  }

  datatype Move = Did(act: Act) | Exited

  function Apply(c: Core, m: Move): Option<Core> {
    match m
    case Did(act) => Step(c, act)
    case Exited => Some(ChildExit(c))
  }

  /** The protocol states code has gone through, and the moves between them. */
  datatype Path = Path(cores: seq<Core>, moves: seq<Move>)

  ghost predicate Leads(path: Path, i: int)
    requires |path.cores| == |path.moves| + 1 && 0 <= i < |path.moves|
  {
    Apply(path.cores[i], path.moves[i]) == Some(path.cores[i + 1])
  }

  // A run of the protocol from the first statement of an operation.
  ghost predicate IsPath(path: Path) {
    && |path.cores| == |path.moves| + 1
    && WellKept(path.cores[0].db) && path.cores[0].pc == Start(path.cores[0].op)
    && forall i {:trigger Leads(path, i)} :: 0 <= i < |path.moves| ==> Leads(path, i)
  }

  /** The invariant holds at every state of every path. */
  lemma {:induction false} PathKeepsInv(path: Path, i: nat)
    requires IsPath(path) && i < |path.cores|
    ensures Inv(path.cores[i]) && path.cores[i].op == path.cores[0].op
  {
    if i > 0 {
      PathKeepsInv(path, i - 1);
      assert Leads(path, i - 1);
      match path.moves[i - 1] {
        case Did(act) => StepKeepsInv(path.cores[i - 1], act);
        case Exited => ChildExitKeepsInv(path.cores[i - 1]);
      }
    }
  }

  lemma OneMore(path: Path, m: Move, c: Core)
    requires IsPath(path) && Apply(path.cores[|path.moves|], m) == Some(c)
    ensures IsPath(Path(path.cores + [c], path.moves + [m]))
  {
    var path' := Path(path.cores + [c], path.moves + [m]);
    forall i | 0 <= i < |path'.moves| ensures Leads(path', i) {
      if i < |path.moves| { assert Leads(path, i); }
    }
  }

  // What a move keeps beside the invariant.
  lemma KeepsAlong(c: Core, m: Move)
    requires Inv(c) && Apply(c, m).Some?
    ensures Apply(c, m).value.op == c.op
    ensures m.Did? && InReconcile(c.pc) && Covered(c) ==> Covered(Apply(c, m).value)
    ensures Correct(c) ==> Correct(Apply(c, m).value)
  {
    match m {
      case Did(act) =>
        StepKeepsOp(c, act);
        if InReconcile(c.pc) && Covered(c) { StepCovered(c, act); }
        if Correct(c) { StepIsCorrect(c, act); }
      case Exited =>
        EmptyIsCorrect(ChildExit(c));
    }
  }

  /** The bridge between executed code and the protocol: the path the code has taken, and the protocol
      state it has reached. */
  class Journal {
    ghost var first: Core
    ghost var core: Core
    ghost var path: Path

    constructor ()
    {
      first := Core(map[], map[], Reconcile, ReconcileList);
      core := Core(map[], map[], Reconcile, ReconcileList);
      path := Path([], []);
    }

    ghost predicate Faithful()
      reads this
    {
      IsPath(path) && path.cores[0] == first && path.cores[|path.moves|] == core
    }

    // The protocol invariant holds wherever the code has got to.
    lemma Invariant()
      requires Faithful()
      ensures Inv(core) && core.op == first.op
    {
      PathKeepsInv(path, |path.moves|);
    }

    ghost method Begin(rows: Rows, users: Users, op: Op)
      requires WellKept(rows)
      modifies this
      ensures Faithful()
      ensures first == core == Core(rows, users, op, Start(op))
    {
      first := Core(rows, users, op, Start(op));
      core := first;
      path := Path([core], []);
    }

    ghost method Advance(m: Move)
      requires Faithful() && Apply(core, m).Some?
      modifies this`core, this`path
      ensures Faithful() && core == Apply(old(core), m).value && core.op == old(core.op)
      ensures m.Did? && InReconcile(old(core.pc)) && Covered(old(core)) ==> Covered(core)
      ensures Correct(old(core)) ==> Correct(core)
    {
      Invariant();
      KeepsAlong(core, m);
      var c := Apply(core, m).value;
      OneMore(path, m, c);
      path := Path(path.cores + [c], path.moves + [m]);
      core := c;
    }

    // One statement, whose next state is known.
    ghost method Follow(act: Act, next: Core)
      requires Faithful() && Step(core, act) == Some(next)
      modifies this`core, this`path
      ensures Faithful() && core == next
    {
      OneMore(path, Did(act), next);
      path := Path(path.cores + [next], path.moves + [Did(act)]);
      core := next;
    }

    // A child exit of its own accord.
    ghost method AdvanceExit()
      requires Faithful()
      modifies this`core, this`path
      ensures Faithful() && core == ChildExit(old(core)) && Correct(core)
    {
      EmptyIsCorrect(ChildExit(core));
      Advance(Exited);
    }
  }

  datatype ReconcileResult = ReconcileResult(
    added: seq<RuntimeId>,
    removed: seq<RuntimeId>,
    restarted: bool,
    failed: bool)

  // Both differences are sorted without duplicates, and a restart happened iff something was removed.
  ghost predicate WellFormedResult(result: ReconcileResult) {
    && StrictlySorted(result.added) && StrictlySorted(result.removed)
    && (result.restarted <==> result.removed != [])
  }

  // The result reports desired minus current, and current minus desired.
  ghost predicate Differences(result: ReconcileResult, desired: set<RuntimeId>, current: set<RuntimeId>) {
    ToSet(result.added) == desired - current && ToSet(result.removed) == current - desired
  }

  const FAILED_RESULT := ReconcileResult([], [], false, true)

  // Every active profile's material can be decrypted.
  ghost predicate Decryptable(db: Rows) {
    forall p :: p in db && db[p].state.Active? ==> db[p].uid.Some?
  }

  ghost function ActiveIds(db: Rows): set<RuntimeId> {
    set p | p in db && db[p].state.Active? :: db[p].rid
  }

  lemma ActiveIdsExact(db: Rows, rid: RuntimeId)
    ensures rid in ActiveIds(db) <==> ActiveId(db, rid)
  {
  }

  lemma SameIds(db: Rows, ids: set<RuntimeId>)
    requires forall r :: r in ids ==> ActiveId(db, r)
    requires forall r :: ActiveId(db, r) ==> r in ids
    ensures ids == ActiveIds(db)
  {
    forall r | r in ids ensures r in ActiveIds(db) { ActiveIdsExact(db, r); }
    forall r | r in ActiveIds(db) ensures r in ids { ActiveIdsExact(db, r); }
  }

  lemma DesiredIds(db: Rows, desired: Users)
    requires DesiredFits(db, desired)
    ensures desired.Keys == ActiveIds(db)
  {
    forall r | r in desired.Keys ensures ActiveId(db, r) { assert ActiveUser(db, r, desired[r]); }
    SameIds(db, desired.Keys);
  }

  ghost predicate AllWellFormed(ids: seq<RuntimeId>) {
    forall i :: 0 <= i < |ids| ==> WellFormed(ids[i])
  }

  // The client accepts every id a reconciliation of these sets calls it with: the extra ones, and then
  // all active ones after a restart, or the missing ones without.
  ghost predicate Accepted(active: set<RuntimeId>, current: set<RuntimeId>) {
    && (forall r :: r in current && r !in active ==> WellFormed(r))
    && (forall r :: r in active && (r !in current || !(current <= active)) ==> WellFormed(r))
  }

  lemma AllWellFormedExact(ids: seq<RuntimeId>)
    ensures AllWellFormed(ids) <==> forall r :: r in ToSet(ids) ==> WellFormed(r)
  {
    if AllWellFormed(ids) {
      forall r | r in ToSet(ids) ensures WellFormed(r) {
        var i :| 0 <= i < |ids| && ids[i] == r;
      }
    } else {
      var i :| 0 <= i < |ids| && !WellFormed(ids[i]);
      assert ids[i] in ToSet(ids);
    }
  }

  // The ids a plan is about to call with are those of the two sets.
  lemma AcceptedPlan(plan: Plan, current: set<RuntimeId>)
    requires ToSet(plan.active) == plan.desired.Keys
    requires ToSet(plan.extra) == current - plan.desired.Keys
    requires ToSet(plan.missing) == plan.desired.Keys - current
    ensures Accepted(plan.desired.Keys, current) <==>
              AllWellFormed(plan.extra) && AllWellFormed(if plan.extra != [] then plan.active else plan.missing)
  {
    AllWellFormedExact(plan.extra);
    AllWellFormedExact(plan.active);
    AllWellFormedExact(plan.missing);
    SomeMember(plan.extra);
    assert plan.extra == [] ==> ToSet(plan.extra) == {};
    assert forall r :: r in current ==> r in plan.desired.Keys || r in ToSet(plan.extra);
    assert current <= plan.desired.Keys ==> ToSet(plan.extra) == {};
  }

  // ---- the calls of a reconciliation ----

  function Removals(ids: seq<RuntimeId>): (calls: seq<Call>)
    ensures |calls| == |ids|
  {
    seq(|ids|, i requires 0 <= i < |ids| => RemoveCall(ids[i]))
  }

  function Additions(ids: seq<RuntimeId>, desired: Users): (calls: seq<Call>)
    requires forall r :: r in ids ==> r in desired
    ensures |calls| == |ids|
  {
    seq(|ids|, i requires 0 <= i < |ids| => AddCall(ids[i], desired[ids[i]]))
  }

  // The calls that change the runtime.
  function Carried(plan: Plan): seq<Call>
    requires forall r :: r in plan.active || r in plan.missing ==> r in plan.desired
  {
    if plan.extra == [] then Additions(plan.missing, plan.desired)
    else Removals(plan.extra) + [RestartCall, ReadyCall] + Additions(plan.active, plan.desired)
  }

  /** The calls of a successful reconciliation: the extra ids are removed, and after a restart and a wait
      every ACTIVE user is added; without extra ids, the missing ones are. */
  ghost predicate Calls(db: Rows, result: ReconcileResult, desired: Users, active: seq<RuntimeId>, before: seq<Call>,
                        after: seq<Call>)
  {
    && DesiredFits(db, desired) && ToSet(active) == desired.Keys
    && (forall r :: r in active || r in result.added ==> r in desired)
    && after == before + [ListCall] + Carried(Plan(desired, active, result.removed, result.added))
  }

  class RuntimeReconciler {
    const repository: ProfileRepository
    const runtime: Runtime
    const journal: Journal

    constructor (repository: ProfileRepository, runtime: Runtime, journal: Journal)
      ensures this.repository == repository && this.runtime == runtime && this.journal == journal
    {
      this.repository, this.runtime, this.journal := repository, runtime, journal;
    }

    // The code and the protocol are at the same point.
    ghost predicate Synced()
      reads this, repository, runtime, journal
    {
      && journal.Faithful()
      && journal.core.db == repository.rows && journal.core.users == runtime.users
    }

    method Interfere()
      requires Synced()
      modifies runtime`users, runtime`exits, journal`core, journal`path
      ensures Synced() && journal.core.pc == old(journal.core.pc) && journal.core.op == old(journal.core.op)
      ensures runtime.exits >= old(runtime.exits)
      ensures runtime.exits == old(runtime.exits) ==>
                runtime.users == old(runtime.users) && journal.core == old(journal.core)
      ensures old(Correct(journal.core)) ==> Correct(journal.core)
    {
      var exited := runtime.Drift();
      if exited { journal.AdvanceExit(); }
    }

    // One removal.
    method RemoveOne(plan: Plan, left: seq<RuntimeId>) returns (done: bool)
      requires Synced() && left != [] && journal.core.pc == ReconcileRemove(plan, left)
      modifies runtime, journal`core, journal`path
      ensures Synced() && journal.core.pc == if done then Removing(plan, left[1..]) else ReconcileDone(false)
      ensures runtime.exits >= old(runtime.exits) && runtime.faults >= old(runtime.faults)
      ensures done <==> WellFormed(left[0]) && runtime.faults == old(runtime.faults)
      ensures runtime.calls == old(runtime.calls) + [RemoveCall(left[0])]
    {
      Interfere();
      var outcome := runtime.RemoveUser(left[0]);
      RemoveFollows(journal.core, plan, left, outcome);
      journal.Advance(Did(External(outcome)));
      return outcome.Done?;
    }

    // The removals, one call per extra id; stops at the first that raises.
    method RemoveExtra(plan: Plan) returns (completed: bool)
      requires Synced() && plan.extra != [] && journal.core.pc == ReconcileRemove(plan, plan.extra)
      modifies runtime, journal`core, journal`path
      ensures Synced()
      ensures runtime.exits >= old(runtime.exits) && runtime.faults >= old(runtime.faults)
      ensures journal.core.pc == if completed then ReconcileRestart(plan) else ReconcileDone(false)
      ensures completed <==> AllWellFormed(plan.extra) && runtime.faults == old(runtime.faults)
      ensures completed ==> runtime.calls == old(runtime.calls) + Removals(plan.extra)
    {
      ghost var calls, removals := runtime.calls, Removals(plan.extra);
      var i := 0;
      while i < |plan.extra|
        invariant 0 <= i <= |plan.extra|
        invariant Synced() && journal.core.pc == Removing(plan, plan.extra[i..])
        invariant runtime.exits >= old(runtime.exits) && runtime.faults == old(runtime.faults)
        invariant forall k :: 0 <= k < i ==> WellFormed(plan.extra[k])
        invariant runtime.calls == calls + removals[..i]
      {
        assert plan.extra[i..][1..] == plan.extra[i + 1..];
        var done := RemoveOne(plan, plan.extra[i..]);
        if !done { return false; }
        i := i + 1;
      }
      return true;
    }

    // One addition.
    method AddOne(plan: Plan, left: seq<RuntimeId>) returns (done: bool)
      requires Synced() && left != [] && left[0] in plan.desired && journal.core.pc == ReconcileAdd(plan, left)
      modifies runtime, journal`core, journal`path
      ensures Synced() && journal.core.pc == if done then Adding(plan, left[1..]) else ReconcileDone(false)
      ensures runtime.exits >= old(runtime.exits) && runtime.faults >= old(runtime.faults)
      ensures runtime.exits == old(runtime.exits) && old(Covered(journal.core)) ==> Covered(journal.core)
      ensures old(Correct(journal.core)) ==> Correct(journal.core)
      ensures done <==> WellFormed(left[0]) && runtime.faults == old(runtime.faults)
      ensures runtime.calls == old(runtime.calls) + [AddCall(left[0], plan.desired[left[0]])]
    {
      Interfere();
      var outcome := runtime.AddUser(left[0], plan.desired[left[0]]);
      AddFollows(journal.core, plan, left, outcome);
      journal.Advance(Did(External(outcome)));
      return outcome.Done?;
    }

    // The additions after a restart, or of what was missing.
    method AddAll(plan: Plan, ids: seq<RuntimeId>) returns (completed: bool)
      requires Synced() && journal.core.pc == Adding(plan, ids)
      requires forall r :: r in ids ==> r in plan.desired
      modifies runtime, journal`core, journal`path
      ensures Synced() && journal.core.pc == ReconcileDone(completed)
      ensures runtime.exits >= old(runtime.exits) && runtime.faults >= old(runtime.faults)
      ensures runtime.exits == old(runtime.exits) && old(Covered(journal.core)) ==> Covered(journal.core)
      ensures old(Correct(journal.core)) ==> Correct(journal.core)
      ensures completed <==> AllWellFormed(ids) && runtime.faults == old(runtime.faults)
      ensures completed ==> runtime.calls == old(runtime.calls) + Additions(ids, plan.desired)
    {
      var i := 0;
      while i < |ids|
        invariant 0 <= i <= |ids|
        invariant Synced() && journal.core.pc == Adding(plan, ids[i..])
        invariant runtime.exits >= old(runtime.exits) && runtime.faults == old(runtime.faults)
        invariant runtime.calls == old(runtime.calls) + Additions(ids, plan.desired)[..i]
        invariant runtime.exits == old(runtime.exits) && old(Covered(journal.core)) ==> Covered(journal.core)
        invariant old(Correct(journal.core)) ==> Correct(journal.core)
        invariant forall k :: 0 <= k < i ==> WellFormed(ids[k])
      {
        assert ids[i..][1..] == ids[i + 1..];
        var done := AddOne(plan, ids[i..]);
        if !done { return false; }
        i := i + 1;
      }
      return true;
    }

    // The ACTIVE records and their users.
    method Desire() returns (desired: Option<Users>, active: seq<RuntimeId>)
      requires Synced() && repository.Valid() && journal.core.pc == ReconcileList
      modifies runtime`users, runtime`exits, repository.database`failures, journal`core, journal`path
      ensures Synced()
      ensures journal.core.pc == if desired.Some? then ReconcileUsers(desired.value, active) else ReconcileDone(false)
      ensures desired.Some? ==> DesiredFits(repository.rows, desired.value) && ToSet(active) == desired.value.Keys
      ensures repository.database.failures >= old(repository.database.failures)
      ensures desired.Some? <==>
                Decryptable(repository.rows) && repository.database.failures == old(repository.database.failures)
      ensures runtime.exits >= old(runtime.exits)
      ensures runtime.exits == old(runtime.exits) ==> runtime.users == old(runtime.users)
      ensures old(Correct(journal.core)) ==> Correct(journal.core)
    {
      Interfere();
      active := [];
      var order := repository.List();
      if order.None? {
        journal.Advance(Did(Store(false, 0)));
        return None, active;
      }
      var records := ActiveRecords(repository.rows, order.value);
      Decrypts(repository.rows, order.value);
      ListedDesired(repository.rows, order.value);
      journal.Advance(Did(Listing(order.value)));
      return DesiredUsers(records), Ids(records);
    }

    /** Brings the runtime to the ACTIVE profiles. Whatever the runtime held, a result without an error
        and without a child exit meanwhile means the ids now agree, the result lists the two
        differences sorted and without duplicates, and a restart happened iff something was removed.
        After a restart, or if they were right before, the user ids are each profile's own too.
        Material that cannot be decrypted leaves the runtime untouched. Without a child exit, the result
        is without error exactly when the database and the clients did not fail, all active material
        decrypts and the client accepts every id it is given; the calls are then those it lists. */
    method Run() returns (result: ReconcileResult)
      requires Synced() && repository.Valid() && journal.core.pc == ReconcileList
      modifies runtime, repository.database`failures, journal`core, journal`path
      ensures Synced() && journal.core.pc == ReconcileDone(!result.failed)
      ensures runtime.exits >= old(runtime.exits) && runtime.faults >= old(runtime.faults)
      ensures repository.database.failures >= old(repository.database.failures)
      ensures !result.failed ==> WellFormedResult(result)
      ensures !result.failed && runtime.exits == old(runtime.exits) ==>
                && runtime.users.Keys == ActiveIds(repository.rows)
                && Differences(result, ActiveIds(repository.rows), old(runtime.users.Keys))
                && (result.restarted || old(Right(repository.rows, runtime.users)) ==>
                      Agreement(repository.rows, runtime.users))
      ensures !Decryptable(repository.rows) ==> result.failed
      ensures !Decryptable(repository.rows) && runtime.exits == old(runtime.exits) ==>
                runtime.users == old(runtime.users)
      ensures !result.failed ==>
                && repository.database.failures == old(repository.database.failures)
                && runtime.faults == old(runtime.faults)
                && exists desired, active :: Calls(repository.rows, result, desired, active, old(runtime.calls), runtime.calls)
      ensures repository.database.failures == old(repository.database.failures)
              && runtime.exits == old(runtime.exits) && runtime.faults == old(runtime.faults) ==>
                (!result.failed <==>
                  && Decryptable(repository.rows)
                  && Accepted(ActiveIds(repository.rows), old(runtime.users.Keys)))
    {
      var desired, active := Desire();
      if desired.None? { return FAILED_RESULT; }
      result := Converge(desired.value, active);
    }

    // What the runtime holds, compared with what it should.
    method Survey(desired: Users, active: seq<RuntimeId>) returns (plan: Option<Plan>)
      requires Synced() && journal.core.pc == ReconcileUsers(desired, active)
      modifies runtime`users, runtime`exits, runtime`faults, runtime`calls, journal`core, journal`path
      ensures Synced() && journal.core.pc == if plan.Some? then Removing(plan.value, plan.value.extra) else ReconcileDone(false)
      ensures runtime.exits >= old(runtime.exits) && runtime.faults >= old(runtime.faults)
      ensures old(Correct(journal.core)) ==> Correct(journal.core)
      ensures plan.None? <==> runtime.faults > old(runtime.faults)
      ensures runtime.calls == old(runtime.calls) + [ListCall]
      ensures plan.Some? ==>
                && plan.value.desired == desired && plan.value.active == active
                && StrictlySorted(plan.value.extra) && StrictlySorted(plan.value.missing)
                && ToSet(plan.value.extra) == runtime.users.Keys - desired.Keys
                && ToSet(plan.value.missing) == desired.Keys - runtime.users.Keys
                && Covered(journal.core)
      ensures runtime.exits == old(runtime.exits) ==> runtime.users == old(runtime.users)
    {
      Interfere();
      var current := runtime.ListUsers();
      if current.None? {
        journal.Advance(Did(External(RaisedBeforeEffect)));
        return None;
      }
      var compared := Compare(desired, active, current.value);
      return Some(compared);
    }

    // The two differences.
    method Compare(desired: Users, active: seq<RuntimeId>, current: set<RuntimeId>) returns (plan: Plan)
      requires Synced() && journal.core.pc == ReconcileUsers(desired, active) && current == runtime.users.Keys
      modifies journal`core, journal`path
      ensures Synced() && journal.core.pc == Removing(plan, plan.extra) && Covered(journal.core)
      ensures old(Correct(journal.core)) ==> Correct(journal.core)
      ensures plan.desired == desired && plan.active == active
      ensures StrictlySorted(plan.extra) && StrictlySorted(plan.missing)
      ensures ToSet(plan.extra) == current - desired.Keys && ToSet(plan.missing) == desired.Keys - current
    {
      var missing := Sorted(desired.Keys - current);
      var extra := Sorted(current - desired.Keys);
      plan := Plan(desired, active, extra, missing);
      ListedFollows(journal.core, plan);
      journal.Advance(Did(Listed(extra, missing)));
    }

    // The part of `run` after the desired users are known.
    method Converge(desired: Users, active: seq<RuntimeId>) returns (result: ReconcileResult)
      requires Synced() && journal.core.pc == ReconcileUsers(desired, active)
      requires DesiredFits(repository.rows, desired) && ToSet(active) == desired.Keys
      modifies runtime, journal`core, journal`path
      ensures Synced() && journal.core.pc == ReconcileDone(!result.failed)
      ensures runtime.exits >= old(runtime.exits) && runtime.faults >= old(runtime.faults)
      ensures !result.failed ==> WellFormedResult(result)
      ensures !result.failed && runtime.exits == old(runtime.exits) ==>
                && runtime.users.Keys == ActiveIds(repository.rows)
                && Differences(result, ActiveIds(repository.rows), old(runtime.users.Keys))
                && (result.restarted || old(Correct(journal.core)) ==> Agreement(repository.rows, runtime.users))
      ensures !result.failed ==>
                && runtime.faults == old(runtime.faults)
                && Calls(repository.rows, result, desired, active, old(runtime.calls), runtime.calls)
      ensures runtime.exits == old(runtime.exits) && runtime.faults == old(runtime.faults) ==>
                (!result.failed <==> Accepted(ActiveIds(repository.rows), old(runtime.users.Keys)))
    {
      var surveyed := Survey(desired, active);
      if surveyed.None? { return FAILED_RESULT; }
      var plan := surveyed.value;
      DesiredIds(repository.rows, desired);
      AcceptedPlan(plan, runtime.users.Keys);
      PlannedIds(plan);
      var completed := Carry(plan);
      return if completed then ReconcileResult(plan.missing, plan.extra, plan.extra != [], false) else FAILED_RESULT;
    }

    // The calls that change the runtime.
    method Carry(plan: Plan) returns (completed: bool)
      requires Synced() && journal.core.pc == Removing(plan, plan.extra)
      requires plan.extra == [] ==> Covered(journal.core)
      requires ToSet(plan.active) == plan.desired.Keys && ToSet(plan.missing) <= plan.desired.Keys
      requires forall r :: r in plan.active || r in plan.missing ==> r in plan.desired
      modifies runtime, journal`core, journal`path
      ensures Synced() && journal.core.pc == ReconcileDone(completed)
      ensures runtime.exits >= old(runtime.exits) && runtime.faults >= old(runtime.faults)
      ensures completed && runtime.exits == old(runtime.exits) ==>
                && runtime.users.Keys == ActiveIds(repository.rows)
                && (plan.extra != [] || old(Correct(journal.core)) ==> Agreement(repository.rows, runtime.users))
      ensures completed <==>
                && AllWellFormed(plan.extra)
                && AllWellFormed(if plan.extra != [] then plan.active else plan.missing)
                && runtime.faults == old(runtime.faults)
      ensures completed ==> runtime.calls == old(runtime.calls) + Carried(plan)
    {
      if plan.extra != [] {
        completed := Rebuild(plan);
      } else {
        completed := AddAll(plan, plan.missing);
      }
      if completed && runtime.exits == old(runtime.exits) { Settled(); }
    }

    // Removes what is too much, and adds every ACTIVE user to a child without users.
    method Rebuild(plan: Plan) returns (completed: bool)
      requires Synced() && plan.extra != [] && journal.core.pc == ReconcileRemove(plan, plan.extra)
      requires forall r :: r in plan.active || r in plan.missing ==> r in plan.desired
      modifies runtime, journal`core, journal`path
      ensures Synced() && journal.core.pc == ReconcileDone(completed)
      ensures runtime.exits >= old(runtime.exits) && runtime.faults >= old(runtime.faults)
      ensures completed && runtime.exits == old(runtime.exits) ==> Covered(journal.core)
      ensures completed ==> Correct(journal.core)
      ensures completed <==>
                AllWellFormed(plan.extra) && AllWellFormed(plan.active) && runtime.faults == old(runtime.faults)
      ensures completed ==> runtime.calls == old(runtime.calls) + Carried(plan)
    {
      ghost var calls := runtime.calls;
      completed := RemoveExtra(plan);
      if !completed { return; }
      completed := Repopulate(plan);
      if completed {
        assert runtime.calls == calls + Removals(plan.extra) + ([RestartCall, ReadyCall] + Additions(plan.active, plan.desired));
      }
    }

    method Repopulate(plan: Plan) returns (completed: bool)
      requires Synced() && journal.core.pc == ReconcileRestart(plan) && forall r :: r in plan.active ==> r in plan.desired
      modifies runtime, journal`core, journal`path
      ensures Synced() && journal.core.pc == ReconcileDone(completed)
      ensures runtime.exits >= old(runtime.exits) && runtime.faults >= old(runtime.faults)
      ensures completed && runtime.exits == old(runtime.exits) ==> Covered(journal.core)
      ensures completed ==> Correct(journal.core)
      ensures completed <==> AllWellFormed(plan.active) && runtime.faults == old(runtime.faults)
      ensures completed ==>
                runtime.calls == old(runtime.calls) + ([RestartCall, ReadyCall] + Additions(plan.active, plan.desired))
    {
      completed := RestartAndWait(plan);
      if completed { completed := AddAll(plan, plan.active); }
    }

    method RestartAndWait(plan: Plan) returns (completed: bool)
      requires Synced() && journal.core.pc == ReconcileRestart(plan)
      modifies runtime, journal`core, journal`path
      ensures Synced()
      ensures runtime.exits >= old(runtime.exits) && runtime.faults >= old(runtime.faults)
      ensures journal.core.pc == if completed then Adding(plan, plan.active) else ReconcileDone(false)
      ensures completed ==> Covered(journal.core) && Correct(journal.core)
      ensures completed <==> runtime.faults == old(runtime.faults)
      ensures completed ==> runtime.calls == old(runtime.calls) + [RestartCall, ReadyCall]
    {
      completed := RestartChild(plan);
      if completed { completed := Wait(plan); }
    }

    // The restarted child has no users.
    method RestartChild(plan: Plan) returns (completed: bool)
      requires Synced() && journal.core.pc == ReconcileRestart(plan)
      modifies runtime, journal`core, journal`path
      ensures Synced() && journal.core.pc == if completed then ReconcileReady(plan) else ReconcileDone(false)
      ensures runtime.exits >= old(runtime.exits) && runtime.faults >= old(runtime.faults)
      ensures completed ==> Correct(journal.core)
      ensures completed <==> runtime.faults == old(runtime.faults)
      ensures runtime.calls == old(runtime.calls) + [RestartCall]
    {
      Interfere();
      var outcome := runtime.Restart();
      journal.Advance(Did(External(outcome)));
      if outcome.Done? { EmptyIsCorrect(journal.core); }
      return outcome.Done?;
    }

    method Wait(plan: Plan) returns (completed: bool)
      requires Synced() && journal.core.pc == ReconcileReady(plan)
      modifies runtime, journal`core, journal`path
      ensures Synced() && journal.core.pc == if completed then Adding(plan, plan.active) else ReconcileDone(false)
      ensures runtime.exits >= old(runtime.exits) && runtime.faults >= old(runtime.faults)
      ensures completed ==> Covered(journal.core)
      ensures old(Correct(journal.core)) ==> Correct(journal.core)
      ensures completed <==> runtime.faults == old(runtime.faults)
      ensures runtime.calls == old(runtime.calls) + [ReadyCall]
    {
      Interfere();
      var outcome := runtime.WaitReady();
      journal.Advance(Did(External(outcome)));
      return outcome.Done?;
    }

    lemma Settled()
      requires Synced() && journal.core.pc == ReconcileDone(true) && Covered(journal.core)
      ensures runtime.users.Keys == ActiveIds(repository.rows)
      ensures Correct(journal.core) ==> Agreement(repository.rows, runtime.users)
    {
      journal.Invariant();
      SameIds(repository.rows, runtime.users.Keys);
    }
  }

  lemma PlannedIds(plan: Plan)
    requires ToSet(plan.active) == plan.desired.Keys && ToSet(plan.missing) <= plan.desired.Keys
    ensures forall r :: r in plan.active || r in plan.missing ==> r in plan.desired
  {
    assert forall r :: r in plan.active ==> r in ToSet(plan.active);
    assert forall r :: r in plan.missing ==> r in ToSet(plan.missing);
  }

  lemma ListedFollows(c: Core, plan: Plan)
    requires c.pc == ReconcileUsers(plan.desired, plan.active)
    requires ToSet(plan.extra) == c.users.Keys - plan.desired.Keys
    requires ToSet(plan.missing) == plan.desired.Keys - c.users.Keys
    ensures Step(c, Listed(plan.extra, plan.missing)) == Some(c.(pc := Removing(plan, plan.extra)))
  {
  }

  // The protocol's answers to the two calls for one id.
  lemma RemoveFollows(c: Core, plan: Plan, left: seq<RuntimeId>, outcome: Outcome)
    requires c.pc == ReconcileRemove(plan, left) && left != [] && Admissible(left[0], outcome)
    ensures Step(c, External(outcome)) ==
              Some(Core(c.db, AfterRemove(c.users, left[0], outcome), c.op,
                        if outcome.Done? then Removing(plan, left[1..]) else ReconcileDone(false)))
  {
  }

  lemma AddFollows(c: Core, plan: Plan, left: seq<RuntimeId>, outcome: Outcome)
    requires c.pc == ReconcileAdd(plan, left) && left != [] && left[0] in plan.desired
    requires Admissible(left[0], outcome)
    ensures Step(c, External(outcome)) ==
              Some(Core(c.db, AfterAdd(c.users, left[0], plan.desired[left[0]], outcome), c.op,
                        if outcome.Done? then Adding(plan, left[1..]) else ReconcileDone(false)))
  {
  }

  /** An extra id the client refuses makes success impossible: it is in no accepted situation. */
  lemma MalformedExtraNeverAccepted(active: set<RuntimeId>, current: set<RuntimeId>, rid: RuntimeId)
    requires rid in current && rid !in active && !WellFormed(rid)
    ensures !Accepted(active, current)
  {
  }

  lemma MalformedExtraExample()
    ensures !WellFormed("bad") && !Accepted({}, {"bad"})
  {
    MalformedExtraNeverAccepted({}, {"bad"}, "bad");
  }

  lemma Decrypts(db: Rows, order: seq<ProfileId>)
    requires ToSet(order) == db.Keys
    ensures DesiredUsers(ActiveRecords(db, order)).Some? <==> Decryptable(db)
  {
    var records := ActiveRecords(db, order);
    ActiveRecordsExact(db, order);
    DesiredUsersExact(records);
    if forall e :: e in records ==> e.1.Some? {
      forall p | p in db && db[p].state.Active? ensures db[p].uid.Some? {
        assert p in ToSet(order);
        assert (db[p].rid, db[p].uid) in records;
      }
    } else {
      var e :| e in records && e.1.None?;
      assert IsActiveRecord(db, e);
    }
  }
}
