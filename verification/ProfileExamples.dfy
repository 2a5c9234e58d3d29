/** A run that shows why the promise about a revoked id ends where an enable enters the lock, and not
    where it is called (control/src/ezopenpn/profiles/coordinator.py). */
module ProfileExamples {
  import opened Wrappers
  import opened ProfileStore
  import opened ProfileProtocol
  import opened ProfileInvariants
  import opened ProfileSystem

  // One profile, with id 0.
  function Rows(state: ProfileState, rid: RuntimeId, uid: UserId): ProfileStore.Rows {
    map[0 := Row(state, rid, Some(uid), None, if state.Disabled? then Some(0) else None)]
  }

  // Thread 0 disables the profile, thread 1 enables it.
  function Situation(state: ProfileState, rid: RuntimeId, uid: UserId, users: Users, disabling: Thread,
                     enabling: Thread, holder: Option<ThreadId>): System
  {
    System(Rows(state, rid, uid), users, map[0 := disabling, 1 := enabling], holder)
  }

  function Then(run: Run, l: Label, s: System): Run {
    Run(run.states + [s], run.labels + [l])
  }

  ghost predicate EndsIn(run: Run, s: System) {
    IsRun(run) && run.states[|run.labels|] == s
  }

  lemma ThenIsRun(run: Run, l: Label, s: System, s': System)
    requires EndsIn(run, s) && Next(s, l) == Some(s')
    ensures EndsIn(Then(run, l, s'), s')
  {
    var run' := Then(run, l, s');
    forall i | 0 <= i < |run'.labels| ensures Moves(run', i) {
      if i < |run.labels| { assert Moves(run, i); }
    }
  }

  // The statements of the disable, from the second transaction on.
  lemma Commits(rid: RuntimeId, uid: UserId, users: Users)
    ensures Step(Core(Rows(Active, rid, uid), users, Disable(0), DisableGet), Store(true, 0))
              == Some(Core(Rows(Active, rid, uid), users, Disable(0), DisableCommit))
    ensures Step(Core(Rows(Active, rid, uid), users, Disable(0), DisableCommit), Store(true, 0))
              == Some(Core(Rows(Disabled, rid, uid), users, Disable(0), Kick(rid)))
  {
    assert SetState(Rows(Active, rid, uid), 0, Disabled, None, 0).value == Rows(Disabled, rid, uid);
  }

  lemma Cuts(rid: RuntimeId, uid: UserId)
    requires WellFormed(rid)
    ensures Step(Core(Rows(Disabled, rid, uid), map[rid := uid], Disable(0), Kick(rid)), External(Done))
              == Some(Core(Rows(Disabled, rid, uid), map[rid := uid], Disable(0), Remove(rid, false)))
    ensures Step(Core(Rows(Disabled, rid, uid), map[rid := uid], Disable(0), Remove(rid, false)), External(Done))
              == Some(Core(Rows(Disabled, rid, uid), map[], Disable(0), Restart(rid, false)))
  {
    assert map[rid := uid] - {rid} == map[];
  }

  lemma Restarts(rid: RuntimeId, uid: UserId)
    ensures Step(Core(Rows(Disabled, rid, uid), map[], Disable(0), Restart(rid, false)), External(Done))
              == Some(Core(Rows(Disabled, rid, uid), map[], Disable(0), Ready(rid, false)))
    ensures Step(Core(Rows(Disabled, rid, uid), map[], Disable(0), Ready(rid, false)), External(Done))
              == Some(Core(Rows(Disabled, rid, uid), map[], Disable(0), ListActive(rid, false)))
  {
  }

  lemma Lists(rid: RuntimeId, uid: UserId)
    ensures Step(Core(Rows(Disabled, rid, uid), map[], Disable(0), ListActive(rid, false)), Listing([0]))
              == Some(Core(Rows(Disabled, rid, uid), map[], Disable(0), DisableResult(rid)))
    ensures Step(Core(Rows(Disabled, rid, uid), map[], Disable(0), DisableResult(rid)), Store(true, 0))
              == Some(Core(Rows(Disabled, rid, uid), map[], Disable(0), Finish(true)))
  {
    var db := Rows(Disabled, rid, uid);
    assert ToSet([0]) == db.Keys;
    assert ActiveRecords(db, [0]) == [] + ActiveRecords(db, [0][1..]);
  }

  // The first statements of the enable.
  lemma Adds(rid: RuntimeId, uid: UserId)
    requires WellFormed(rid)
    ensures Step(Core(Rows(Disabled, rid, uid), map[], Enable(0), EnableGet), Store(true, 0))
              == Some(Core(Rows(Disabled, rid, uid), map[], Enable(0), ProvisionAdd(rid, Some(uid))))
    ensures Step(Core(Rows(Disabled, rid, uid), map[], Enable(0), ProvisionAdd(rid, Some(uid))), External(Done))
              == Some(Core(Rows(Disabled, rid, uid), map[rid := uid], Enable(0), ProvisionCommit(rid)))
  {
  }

  // One statement of either thread.
  lemma DisablingWorks(state: ProfileState, state': ProfileState, rid: RuntimeId, uid: UserId, users: Users,
                       users': Users, pc: Pc, pc': Pc, a: Act)
    requires Step(Core(Rows(state, rid, uid), users, Disable(0), pc), a)
               == Some(Core(Rows(state', rid, uid), users', Disable(0), pc'))
    ensures Next(Situation(state, rid, uid, users, Running(Disable(0), pc), Waiting(Enable(0)), Some(0)), Work(0, a))
              == Some(Situation(state', rid, uid, users', Running(Disable(0), pc'), Waiting(Enable(0)), Some(0)))
  {
    var s := Situation(state, rid, uid, users, Running(Disable(0), pc), Waiting(Enable(0)), Some(0));
    assert s.threads[0 := Running(Disable(0), pc')] == map[0 := Running(Disable(0), pc'), 1 := Waiting(Enable(0))];
  }

  lemma EnablingWorks(rid: RuntimeId, uid: UserId, users: Users, users': Users, pc: Pc, pc': Pc, a: Act)
    requires Step(Core(Rows(Disabled, rid, uid), users, Enable(0), pc), a)
               == Some(Core(Rows(Disabled, rid, uid), users', Enable(0), pc'))
    ensures Next(Situation(Disabled, rid, uid, users, Idle, Running(Enable(0), pc), Some(1)), Work(1, a))
              == Some(Situation(Disabled, rid, uid, users', Idle, Running(Enable(0), pc'), Some(1)))
  {
    var s := Situation(Disabled, rid, uid, users, Idle, Running(Enable(0), pc), Some(1));
    assert s.threads[1 := Running(Enable(0), pc')] == map[0 := Idle, 1 := Running(Enable(0), pc')];
  }

  // Both calls are made before the disable starts.
  lemma Calls(rid: RuntimeId, uid: UserId) returns (run: Run)
    ensures |run.labels| == 3
    ensures EndsIn(run, Situation(Active, rid, uid, map[rid := uid], Running(Disable(0), DisableGet),
                                  Waiting(Enable(0)), Some(0)))
  {
    var db, users := Rows(Active, rid, uid), map[rid := uid];
    var s := System(db, users, map[], None);
    run := Run([s], []);
    var s1 := System(db, users, map[0 := Waiting(Disable(0))], None);
    ThenIsRun(run, Call(0, Disable(0)), s, s1);
    run := Then(run, Call(0, Disable(0)), s1);
    var s2 := Situation(Active, rid, uid, users, Waiting(Disable(0)), Waiting(Enable(0)), None);
    assert s1.threads[1 := Waiting(Enable(0))] == s2.threads;
    ThenIsRun(run, Call(1, Enable(0)), s1, s2);
    run := Then(run, Call(1, Enable(0)), s2);
    var s3 := Situation(Active, rid, uid, users, Running(Disable(0), DisableGet), Waiting(Enable(0)), Some(0));
    assert s2.threads[0 := Running(Disable(0), DisableGet)] == s3.threads;
    ThenIsRun(run, Acquire(0), s2, s3);
    run := Then(run, Acquire(0), s3);
  }

  // Thread 0 executes one statement of the disable.
  lemma Disabling(run: Run, state: ProfileState, state': ProfileState, rid: RuntimeId, uid: UserId, users: Users,
                  users': Users, pc: Pc, pc': Pc, a: Act) returns (run': Run)
    requires EndsIn(run, Situation(state, rid, uid, users, Running(Disable(0), pc), Waiting(Enable(0)), Some(0)))
    requires Step(Core(Rows(state, rid, uid), users, Disable(0), pc), a)
               == Some(Core(Rows(state', rid, uid), users', Disable(0), pc'))
    ensures |run'.labels| == |run.labels| + 1
    ensures EndsIn(run', Situation(state', rid, uid, users', Running(Disable(0), pc'), Waiting(Enable(0)), Some(0)))
  {
    var s := Situation(state, rid, uid, users, Running(Disable(0), pc), Waiting(Enable(0)), Some(0));
    var s' := Situation(state', rid, uid, users', Running(Disable(0), pc'), Waiting(Enable(0)), Some(0));
    DisablingWorks(state, state', rid, uid, users, users', pc, pc', a);
    ThenIsRun(run, Work(0, a), s, s');
    run' := Then(run, Work(0, a), s');
  }

  lemma Disables(rid: RuntimeId, uid: UserId) returns (run: Run)
    requires WellFormed(rid)
    ensures |run.labels| == 11
    ensures EndsIn(run, Situation(Disabled, rid, uid, map[], Running(Disable(0), Finish(true)), Waiting(Enable(0)), Some(0)))
  {
    var users := map[rid := uid];
    run := Calls(rid, uid);
    Commits(rid, uid, users);
    run := Disabling(run, Active, Active, rid, uid, users, users, DisableGet, DisableCommit, Store(true, 0));
    run := Disabling(run, Active, Disabled, rid, uid, users, users, DisableCommit, Kick(rid), Store(true, 0));
    Cuts(rid, uid);
    run := Disabling(run, Disabled, Disabled, rid, uid, users, users, Kick(rid), Remove(rid, false), External(Done));
    run := Disabling(run, Disabled, Disabled, rid, uid, users, map[], Remove(rid, false), Restart(rid, false), External(Done));
    run := Restarted(run, rid, uid);
  }

  lemma Restarted(before: Run, rid: RuntimeId, uid: UserId) returns (run: Run)
    requires EndsIn(before, Situation(Disabled, rid, uid, map[], Running(Disable(0), Restart(rid, false)), Waiting(Enable(0)), Some(0)))
    ensures |run.labels| == |before.labels| + 4
    ensures EndsIn(run, Situation(Disabled, rid, uid, map[], Running(Disable(0), Finish(true)), Waiting(Enable(0)), Some(0)))
  {
    Restarts(rid, uid);
    run := Disabling(before, Disabled, Disabled, rid, uid, map[], map[], Restart(rid, false), Ready(rid, false), External(Done));
    run := Disabling(run, Disabled, Disabled, rid, uid, map[], map[], Ready(rid, false), ListActive(rid, false), External(Done));
    Lists(rid, uid);
    run := Disabling(run, Disabled, Disabled, rid, uid, map[], map[], ListActive(rid, false), DisableResult(rid), Listing([0]));
    run := Disabling(run, Disabled, Disabled, rid, uid, map[], map[], DisableResult(rid), Finish(true), Store(true, 0));
  }

  // The profile was disabled by label 11, nothing is called after it, and its id is in the runtime.
  ghost predicate ReadmittedWithoutCall(run: Run, rid: RuntimeId) {
    && IsRun(run) && |run.labels| == 15
    && ReturnsFromRevocation(run.states[11], run.labels[11])
    && run.states[11].threads[run.labels[11].t].op == Disable(0) && Owns(run.states[11].db, 0, rid)
    && (forall k :: 11 < k < 15 ==> !run.labels[k].Call?)
    && rid in run.states[15].users
  }

  /** An enable that was called before the disable returned, and waited for the lock, lets the id in
      again right after. */
  lemma WaitingEnableReadmits(rid: RuntimeId, uid: UserId) returns (run: Run)
    requires WellFormed(rid)
    ensures ReadmittedWithoutCall(run, rid)
  {
    var before := Disables(rid, uid);
    var s11 := Situation(Disabled, rid, uid, map[], Running(Disable(0), Finish(true)), Waiting(Enable(0)), Some(0));
    var s12 := Situation(Disabled, rid, uid, map[], Idle, Waiting(Enable(0)), None);
    assert s11.threads[0 := Idle] == s12.threads;
    ThenIsRun(before, Release(0), s11, s12);
    var s13 := Situation(Disabled, rid, uid, map[], Idle, Running(Enable(0), EnableGet), Some(1));
    assert s12.threads[1 := Running(Enable(0), EnableGet)] == s13.threads;
    var run12 := Then(before, Release(0), s12);
    ThenIsRun(run12, Acquire(1), s12, s13);
    var run13 := Then(run12, Acquire(1), s13);
    Adds(rid, uid);
    var s14 := Situation(Disabled, rid, uid, map[], Idle, Running(Enable(0), ProvisionAdd(rid, Some(uid))), Some(1));
    EnablingWorks(rid, uid, map[], map[], EnableGet, ProvisionAdd(rid, Some(uid)), Store(true, 0));
    ThenIsRun(run13, Work(1, Store(true, 0)), s13, s14);
    var run14 := Then(run13, Work(1, Store(true, 0)), s14);
    var s15 := Situation(Disabled, rid, uid, map[rid := uid], Idle, Running(Enable(0), ProvisionCommit(rid)), Some(1));
    EnablingWorks(rid, uid, map[], map[rid := uid], ProvisionAdd(rid, Some(uid)), ProvisionCommit(rid), External(Done));
    ThenIsRun(run14, Work(1, External(Done)), s14, s15);
    run := Then(run14, Work(1, External(Done)), s15);
  }
}
