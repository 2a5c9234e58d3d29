/** What every step of the profile control protocol keeps. */
module ProfileInvariants {
  import opened Wrappers
  import opened ProfileStore
  import opened ProfileProtocol

  ghost predicate Owns(db: Rows, p: ProfileId, rid: RuntimeId) {
    p in db && db[p].rid == rid
  }

  ghost predicate OnlyActive(db: Rows, users: Users) {
    forall r :: r in users ==> ActiveId(db, r)
  }

  ghost predicate IsActiveRecord(db: Rows, e: (RuntimeId, Option<UserId>)) {
    exists p :: p in db && db[p].state.Active? && db[p].rid == e.0 && db[p].uid == e.1
  }

  ghost predicate DesiredFits(db: Rows, desired: Users) {
    && (forall r :: r in desired ==> ActiveUser(db, r, desired[r]))
    && (forall r :: ActiveId(db, r) ==> r in desired)
  }

  ghost predicate PlanFits(db: Rows, plan: Plan) {
    && DesiredFits(db, plan.desired)
    && ToSet(plan.active) == plan.desired.Keys
    && ToSet(plan.missing) <= plan.desired.Keys
    && ToSet(plan.extra) !! plan.desired.Keys
  }

  // Which statements an operation can be at.
  predicate Fits(op: Op, pc: Pc) {
    && (pc.CreateInsert? || pc.CreateGet? ==> op.Create?)
    && (pc.EnableGet? || pc.EnableReset? ==> op.Enable?)
    && (pc.ProvisionAdd? || pc.ProvisionCommit? || pc.ProvisionLinks? || pc.ProvisionUndo? ==>
          op.Create? || op.Enable?)
    && (pc.DeleteRow? || pc.Checkpoint? ==> op.Delete?)
    && (pc.MarkGet? || pc.MarkSet? ==> op.Create? || op.Enable? || op.Delete?)
    && (CutsOff(pc) || pc.DisableGet? || pc.DisableFromPending? || pc.DisableCommit? ==>
          op.Disable? || op.Delete?)
  }

  // The statements of disable after it has committed DISABLED.
  predicate CutsOff(pc: Pc) {
    || pc.Kick? || pc.Remove? || pc.Restart? || pc.Ready? || pc.ListActive? || pc.Readd?
    || pc.RecordIncomplete? || pc.DisableResult?
  }


  // A created profile keeps the runtime id of its material.
  ghost predicate Named(c: Core, p: ProfileId) {
    p in c.db && (c.op.Create? ==> c.db[p].rid == c.op.material.rid)
  }

  ghost predicate ProvisionFacts(c: Core, p: ProfileId) {
    && (c.pc.CreateGet? ==> Named(c, p) && c.db[p].state.Pending?)
    && (c.pc.EnableReset? ==> p in c.db && c.db[p].state.Error?)
    && (c.pc.ProvisionAdd? || c.pc.ProvisionCommit? ==>
          && Owns(c.db, p, c.pc.rid) && Named(c, p)
          && (c.db[p].state.Pending? || (c.op.Enable? && c.db[p].state.Disabled?)))
    && (c.pc.ProvisionAdd? ==> c.db[p].uid == c.pc.uid)
    && (c.pc.ProvisionLinks? ==> Owns(c.db, p, c.pc.rid) && Named(c, p) && c.db[p].state.Active?)
    && (c.pc.ProvisionUndo? ==> Owns(c.db, p, c.pc.rid) && Named(c, p))
    && (c.pc.MarkGet? ==> c.op.Delete? || Named(c, p))
    && (c.pc.MarkSet? ==> Named(c, p) && c.db[p].state == c.pc.seen)
  }

  ghost predicate Cut(c: Core, p: ProfileId, rid: RuntimeId) {
    Owns(c.db, p, rid) && c.db[p].state.Disabled?
  }

  ghost predicate DisableFacts(c: Core, p: ProfileId) {
    && (c.pc.DisableFromPending? ==> p in c.db && c.db[p].state.Pending?)
    && (c.pc.DisableCommit? ==> p in c.db && !c.db[p].state.Pending?)
    && (CutsOff(c.pc) || c.pc.DeleteRow? ==> Cut(c, p, c.pc.rid))
    && (c.pc.Ready? || c.pc.ListActive? ==> c.pc.incomplete || c.users == map[])
    && (c.pc.Readd? ==>
          && c.pc.todo != []
          && (forall e :: e in c.pc.todo ==> IsActiveRecord(c.db, e))
          && (c.pc.incomplete || OnlyActive(c.db, c.users)))
    && (c.pc.DisableResult? || c.pc.DeleteRow? ==> OnlyActive(c.db, c.users))
    && (c.pc.Checkpoint? ==> p !in c.db && OnlyActive(c.db, c.users))
  }

  ghost predicate ReconcileFacts(c: Core) {
    && (c.pc.ReconcileUsers? ==>
          DesiredFits(c.db, c.pc.desired) && ToSet(c.pc.active) == c.pc.desired.Keys)
    && (c.pc.ReconcileRemove? || c.pc.ReconcileRestart? || c.pc.ReconcileReady? || c.pc.ReconcileAdd? ==>
          PlanFits(c.db, c.pc.plan))
    && (c.pc.ReconcileRemove? || c.pc.ReconcileRestart? || c.pc.ReconcileReady? ==>
          c.pc.plan.extra != [])
    && (c.pc.ReconcileRemove? ==>
          c.pc.left != [] && c.users.Keys <= c.pc.plan.desired.Keys + ToSet(c.pc.left))
    && (c.pc.ReconcileRestart? ==> c.users.Keys <= c.pc.plan.desired.Keys)
    && (c.pc.ReconcileReady? ==> c.users == map[])
    && (c.pc.ReconcileAdd? ==>
          && c.pc.left != [] && ToSet(c.pc.left) <= c.pc.plan.desired.Keys
          && c.users.Keys <= c.pc.plan.desired.Keys)
    && (c.pc == ReconcileDone(true) ==> OnlyActive(c.db, c.users))
  }

  // What a caller that gets a normal return can rely on.
  ghost predicate FinishFacts(c: Core) {
    c.pc == Finish(true) ==>
      match c.op
      case Create(m) => Named(c, m.id) && c.db[m.id].state.Active?
      case Enable(p) => p in c.db && c.db[p].state.Active?
      case Disable(p) => p in c.db && c.db[p].state.Disabled? && OnlyActive(c.db, c.users)
      case Delete(p) => p !in c.db && OnlyActive(c.db, c.users)
      case Reconcile => true
  }

  ghost predicate Inv(c: Core) {
    && WellKept(c.db)
    && Fits(c.op, c.pc)
    && (c.op.Reconcile? || (ProvisionFacts(c, c.op.Subject()) && DisableFacts(c, c.op.Subject())))
    && (c.op.Reconcile? ==> c.pc != Finish(false))
    && ReconcileFacts(c)
    && FinishFacts(c)
  }

  // ---- listings ----

  lemma {:induction false} ActiveRecordsExact(db: Rows, order: seq<ProfileId>)
    ensures forall e :: e in ActiveRecords(db, order) ==> IsActiveRecord(db, e)
    ensures forall p :: p in order && p in db && db[p].state.Active? ==>
              (db[p].rid, db[p].uid) in ActiveRecords(db, order)
  {
    if order != [] {
      ActiveRecordsExact(db, order[1..]);
      var rest := ActiveRecords(db, order[1..]);
      forall e | e in ActiveRecords(db, order) ensures IsActiveRecord(db, e) {
        if e !in rest {
          assert db[order[0]].rid == e.0;
        }
      }
    }
  }

  lemma {:induction false} DesiredUsersExact(records: seq<(RuntimeId, Option<UserId>)>)
    ensures DesiredUsers(records).Some? <==> forall e :: e in records ==> e.1.Some?
    ensures DesiredUsers(records).Some? ==>
              var d := DesiredUsers(records).value;
              && (forall r :: r in d ==> (r, Some(d[r])) in records)
              && (forall e :: e in records ==> e.0 in d)
  {
    if records != [] {
      DesiredUsersExact(records[1..]);
      assert records == [records[0]] + records[1..];
    }
  }

  lemma ListedDesired(db: Rows, order: seq<ProfileId>)
    requires ToSet(order) == db.Keys
    ensures var records := ActiveRecords(db, order);
            DesiredUsers(records).Some? ==>
              && DesiredFits(db, DesiredUsers(records).value)
              && ToSet(Ids(records)) == DesiredUsers(records).value.Keys
  {
    var records := ActiveRecords(db, order);
    ActiveRecordsExact(db, order);
    DesiredUsersExact(records);
    if DesiredUsers(records).Some? {
      var d := DesiredUsers(records).value;
      forall r | r in d ensures ActiveUser(db, r, d[r]) {
        assert IsActiveRecord(db, (r, Some(d[r])));
      }
      forall r | ActiveId(db, r) ensures r in d {
        var p :| p in db && db[p].state.Active? && db[p].rid == r;
        assert p in ToSet(order);
        assert (db[p].rid, db[p].uid) in records;
      }
      forall r | r in d.Keys ensures r in ToSet(Ids(records)) {
        var i :| 0 <= i < |records| && records[i] == (r, Some(d[r]));
        assert Ids(records)[i] == r;
      }
      forall r | r in ToSet(Ids(records)) ensures r in d.Keys {
        var i :| 0 <= i < |records| && Ids(records)[i] == r;
        assert records[i] in records;
      }
    }
  }

  // ---- every step keeps the invariant ----

  lemma SetStateKeepsRows(rows: Rows, p: ProfileId, target: ProfileState, code: Option<string>, now: int)
    requires WellKept(rows) && SetState(rows, p, target, code, now).Success?
    ensures WellKept(SetState(rows, p, target, code, now).value)
  {
    var rows' := SetState(rows, p, target, code, now).value;
    forall q, r | q in rows' && r in rows' && rows'[q].rid == rows'[r].rid ensures q == r {
      assert rows'[q].rid == rows[q].rid && rows'[r].rid == rows[r].rid;
    }
  }

  // The repository writes of create and enable.
  lemma InsertKeepsInv(c: Core, a: Act)
    requires Inv(c) && c.pc.CreateInsert?
    requires ProvisionStep(c, c.op.Subject(), a).Some?
    ensures Inv(ProvisionStep(c, c.op.Subject(), a).value)
  {
  }

  lemma ResetKeepsInv(c: Core, a: Act)
    requires Inv(c) && !c.op.Reconcile? && c.pc.EnableReset? && a.Store?
    requires ProvisionStep(c, c.op.Subject(), a).Some?
    ensures Inv(ProvisionStep(c, c.op.Subject(), a).value)
  {
    SetStateKeepsRows(c.db, c.op.Subject(), Pending, None, a.now);
  }

  lemma CommitKeepsInv(c: Core, a: Act)
    requires Inv(c) && !c.op.Reconcile? && c.pc.ProvisionCommit? && a.Store?
    requires ProvisionStep(c, c.op.Subject(), a).Some?
    ensures Inv(ProvisionStep(c, c.op.Subject(), a).value)
  {
    SetStateKeepsRows(c.db, c.op.Subject(), Active, None, a.now);
  }

  // Their runtime calls.
  lemma AddKeepsInv(c: Core, a: Act)
    requires Inv(c) && !c.op.Reconcile? && c.pc.ProvisionAdd?
    requires ProvisionStep(c, c.op.Subject(), a).Some?
    ensures Inv(ProvisionStep(c, c.op.Subject(), a).value)
  {
  }

  lemma UndoKeepsInv(c: Core, a: Act)
    requires Inv(c) && !c.op.Reconcile? && c.pc.ProvisionUndo?
    requires ProvisionStep(c, c.op.Subject(), a).Some?
    ensures Inv(ProvisionStep(c, c.op.Subject(), a).value)
  {
  }

  // Their reads and the building of the links.
  lemma CreateGetKeepsInv(c: Core, a: Act)
    requires Inv(c) && !c.op.Reconcile? && c.pc.CreateGet?
    requires ProvisionStep(c, c.op.Subject(), a).Some?
    ensures Inv(ProvisionStep(c, c.op.Subject(), a).value)
  {
  }

  lemma EnableGetKeepsInv(c: Core, a: Act)
    requires Inv(c) && !c.op.Reconcile? && c.pc.EnableGet?
    requires ProvisionStep(c, c.op.Subject(), a).Some?
    ensures Inv(ProvisionStep(c, c.op.Subject(), a).value)
  {
  }

  lemma LinksKeepInv(c: Core, a: Act)
    requires Inv(c) && !c.op.Reconcile? && c.pc.ProvisionLinks?
    requires ProvisionStep(c, c.op.Subject(), a).Some?
    ensures Inv(ProvisionStep(c, c.op.Subject(), a).value)
  {
  }

  lemma ProvisionKeepsInv(c: Core, a: Act)
    requires Inv(c) && !c.op.Reconcile?
    requires ProvisionStep(c, c.op.Subject(), a).Some?
    ensures Inv(ProvisionStep(c, c.op.Subject(), a).value)
  {
    if c.pc.CreateInsert? {
      InsertKeepsInv(c, a);
    } else if c.pc.EnableReset? {
      ResetKeepsInv(c, a);
    } else if c.pc.ProvisionCommit? {
      CommitKeepsInv(c, a);
    } else if c.pc.ProvisionAdd? {
      AddKeepsInv(c, a);
    } else if c.pc.ProvisionUndo? {
      UndoKeepsInv(c, a);
    } else if c.pc.CreateGet? {
      CreateGetKeepsInv(c, a);
    } else if c.pc.EnableGet? {
      EnableGetKeepsInv(c, a);
    } else {
      LinksKeepInv(c, a);
    }
  }

  lemma MarkGetKeepsInv(c: Core, a: Act)
    requires Inv(c) && !c.op.Reconcile? && c.pc.MarkGet?
    requires MarkStep(c, c.op.Subject(), a).Some?
    ensures Inv(MarkStep(c, c.op.Subject(), a).value)
  {
  }

  lemma MarkSetKeepsInv(c: Core, a: Act)
    requires Inv(c) && !c.op.Reconcile? && c.pc.MarkSet?
    requires MarkStep(c, c.op.Subject(), a).Some?
    ensures Inv(MarkStep(c, c.op.Subject(), a).value)
  {
  }

  lemma DeleteKeepsInv(c: Core, a: Act)
    requires Inv(c) && !c.op.Reconcile?
    requires DeleteStep(c, c.op.Subject(), a).Some?
    ensures Inv(DeleteStep(c, c.op.Subject(), a).value)
  {
    var p := c.op.Subject();
    var c' := DeleteStep(c, p, a).value;
    if c.pc.DeleteRow? && c'.pc.Checkpoint? {
      forall r | r in c'.users ensures ActiveId(c'.db, r) {
        var q :| q in c.db && c.db[q].state.Active? && c.db[q].rid == r;
        assert q in c'.db && c'.db[q] == c.db[q];
      }
    }
  }

  lemma NextReaddKeepsInv(c: Core, rid: RuntimeId, incomplete: bool,
                          todo: seq<(RuntimeId, Option<UserId>)>)
    requires WellKept(c.db) && (c.op.Disable? || c.op.Delete?)
    requires Cut(c, c.op.Subject(), rid)
    requires forall e :: e in todo ==> IsActiveRecord(c.db, e)
    requires !incomplete ==> OnlyActive(c.db, c.users)
    ensures Inv(NextReadd(c, rid, incomplete, todo))
  {
  }

  // Re-adding the active users after a restart.
  lemma ListKeepsInv(c: Core, a: Act)
    requires Inv(c) && !c.op.Reconcile? && c.pc.ListActive?
    requires DisableStep(c, c.op.Subject(), a).Some?
    ensures Inv(DisableStep(c, c.op.Subject(), a).value)
  {
    if a.Listing? {
      var records := ActiveRecords(c.db, a.order);
      ActiveRecordsExact(c.db, a.order);
      NextReaddKeepsInv(c, c.pc.rid, c.pc.incomplete, records);
    }
  }

  lemma ReaddKeepsInv(c: Core, a: Act)
    requires Inv(c) && !c.op.Reconcile? && c.pc.Readd?
    requires DisableStep(c, c.op.Subject(), a).Some?
    ensures Inv(DisableStep(c, c.op.Subject(), a).value)
  {
    var e, rest := c.pc.todo[0], c.pc.todo[1..];
    assert IsActiveRecord(c.db, e) && ActiveId(c.db, e.0);
    assert forall x :: x in rest ==> x in c.pc.todo;
    if a.External? {
      var c' := c.(users := AfterAdd(c.users, e.0, e.1.value, a.outcome));
      NextReaddKeepsInv(c', c.pc.rid, c.pc.incomplete || !a.outcome.Done?, rest);
    } else {
      NextReaddKeepsInv(c, c.pc.rid, true, rest);
    }
  }

  lemma SetRuntimeErrorKeepsRows(rows: Rows, p: ProfileId, code: string)
    requires WellKept(rows) && p in rows && rows[p].state.Disabled?
    ensures WellKept(SetRuntimeError(rows, p, code).value)
  {
    SetStateKeepsRows(rows, p, Disabled, None, 0);
  }

  // The transactions of disable that change the state.
  lemma FromPendingKeepsInv(c: Core, a: Act)
    requires Inv(c) && !c.op.Reconcile? && c.pc.DisableFromPending? && a.Store?
    requires DisableStep(c, c.op.Subject(), a).Some?
    ensures Inv(DisableStep(c, c.op.Subject(), a).value)
  {
    SetStateKeepsRows(c.db, c.op.Subject(), Error, None, a.now);
  }

  lemma CutOffKeepsInv(c: Core, a: Act)
    requires Inv(c) && !c.op.Reconcile? && c.pc.DisableCommit? && a.Store?
    requires DisableStep(c, c.op.Subject(), a).Some?
    ensures Inv(DisableStep(c, c.op.Subject(), a).value)
  {
    SetStateKeepsRows(c.db, c.op.Subject(), Disabled, None, a.now);
  }

  lemma RecordKeepsInv(c: Core, a: Act)
    requires Inv(c) && !c.op.Reconcile? && a.Store? && c.pc.RecordIncomplete?
    requires DisableStep(c, c.op.Subject(), a).Some?
    ensures Inv(DisableStep(c, c.op.Subject(), a).value)
  {
    SetRuntimeErrorKeepsRows(c.db, c.op.Subject(), RUNTIME_REVOKE_INCOMPLETE);
  }

  // Its calls into the runtime.
  lemma KickKeepsInv(c: Core, a: Act)
    requires Inv(c) && !c.op.Reconcile? && c.pc.Kick?
    requires DisableStep(c, c.op.Subject(), a).Some?
    ensures Inv(DisableStep(c, c.op.Subject(), a).value)
  {
  }

  lemma RemoveKeepsInv(c: Core, a: Act)
    requires Inv(c) && !c.op.Reconcile? && c.pc.Remove?
    requires DisableStep(c, c.op.Subject(), a).Some?
    ensures Inv(DisableStep(c, c.op.Subject(), a).value)
  {
  }

  lemma RestartKeepsInv(c: Core, a: Act)
    requires Inv(c) && !c.op.Reconcile? && (c.pc.Restart? || c.pc.Ready?)
    requires DisableStep(c, c.op.Subject(), a).Some?
    ensures Inv(DisableStep(c, c.op.Subject(), a).value)
  {
  }

  lemma RaiseKeepsInv(c: Core, reraised: bool)
    requires WellKept(c.db) && (c.op.Disable? || c.op.Delete?)
    ensures Inv(RaiseFromDisable(c, reraised))
  {
  }

  lemma DecideKeepsInv(c: Core)
    requires WellKept(c.db) && (c.op.Disable? || c.op.Delete?) && c.op.Subject() in c.db
    ensures Inv(c.(pc := if c.db[c.op.Subject()].state.Pending? then DisableFromPending else DisableCommit))
  {
  }

  // Its reads.
  lemma DisableGetKeepsInv(c: Core, a: Act)
    requires Inv(c) && !c.op.Reconcile? && c.pc.DisableGet?
    requires DisableStep(c, c.op.Subject(), a).Some?
    ensures Inv(DisableStep(c, c.op.Subject(), a).value)
  {
    if !a.committed {
      RaiseKeepsInv(c, false);
    } else if c.op.Subject() !in c.db {
      RaiseKeepsInv(c, true);
    } else {
      DecideKeepsInv(c);
    }
  }

  lemma DisableResultKeepsInv(c: Core, a: Act)
    requires Inv(c) && !c.op.Reconcile? && c.pc.DisableResult?
    requires DisableStep(c, c.op.Subject(), a).Some?
    ensures Inv(DisableStep(c, c.op.Subject(), a).value)
  {
  }

  lemma RevokeKeepsInv(c: Core, a: Act)
    requires Inv(c) && !c.op.Reconcile? && (c.pc.Kick? || c.pc.Remove? || c.pc.Restart? || c.pc.Ready?)
    requires DisableStep(c, c.op.Subject(), a).Some?
    ensures Inv(DisableStep(c, c.op.Subject(), a).value)
  {
    if c.pc.Kick? { KickKeepsInv(c, a); } else if c.pc.Remove? { RemoveKeepsInv(c, a); } else { RestartKeepsInv(c, a); }
  }

  lemma DisableKeepsInv(c: Core, a: Act)
    requires Inv(c) && !c.op.Reconcile?
    requires DisableStep(c, c.op.Subject(), a).Some?
    ensures Inv(DisableStep(c, c.op.Subject(), a).value)
  {
    if c.pc.ListActive? {
      ListKeepsInv(c, a);
    } else if c.pc.Readd? {
      ReaddKeepsInv(c, a);
    } else if c.pc.Kick? || c.pc.Remove? || c.pc.Restart? || c.pc.Ready? {
      RevokeKeepsInv(c, a);
    } else if c.pc.DisableFromPending? {
      FromPendingKeepsInv(c, a);
    } else if c.pc.DisableCommit? {
      CutOffKeepsInv(c, a);
    } else if c.pc.RecordIncomplete? {
      RecordKeepsInv(c, a);
    } else if c.pc.DisableGet? {
      DisableGetKeepsInv(c, a);
    } else {
      DisableResultKeepsInv(c, a);
    }
  }

  lemma NextAddKeepsInv(c: Core, plan: Plan, left: seq<RuntimeId>)
    requires WellKept(c.db) && PlanFits(c.db, plan)
    requires ToSet(left) <= plan.desired.Keys && c.users.Keys <= plan.desired.Keys
    ensures Inv(NextAdd(c, plan, left))
  {
    forall r | r in c.users ensures ActiveId(c.db, r) {
      assert ActiveUser(c.db, r, plan.desired[r]);
    }
  }

  lemma NextRemoveKeepsInv(c: Core, plan: Plan, left: seq<RuntimeId>)
    requires WellKept(c.db) && PlanFits(c.db, plan)
    requires left != [] ==> plan.extra != []
    requires c.users.Keys <= plan.desired.Keys + ToSet(left)
    ensures Inv(NextRemove(c, plan, left))
  {
    if left == [] && plan.extra == [] {
      NextAddKeepsInv(c, plan, plan.missing);
    }
  }

  // The phase of a reconciliation that changes the runtime.
  lemma RemoveExtraKeepsInv(c: Core, a: Act)
    requires Inv(c) && c.pc.ReconcileRemove?
    requires ReconcileStep(c, a).Some?
    ensures Inv(ReconcileStep(c, a).value)
  {
    var plan, left := c.pc.plan, c.pc.left;
    if a.outcome.Done? {
      assert left == [left[0]] + left[1..];
      NextRemoveKeepsInv(c.(users := c.users - {left[0]}), plan, left[1..]);
    }
  }

  lemma RestartedKeepsInv(c: Core, a: Act)
    requires Inv(c) && c.pc.ReconcileReady?
    requires ReconcileStep(c, a).Some?
    ensures Inv(ReconcileStep(c, a).value)
  {
    NextAddKeepsInv(c, c.pc.plan, c.pc.plan.active);
  }

  lemma AddedKeepsInv(c: Core, plan: Plan, left: seq<RuntimeId>)
    requires WellKept(c.db) && PlanFits(c.db, plan) && left != []
    requires ToSet(left) <= plan.desired.Keys && c.users.Keys <= plan.desired.Keys
    requires left[0] in plan.desired
    ensures Inv(NextAdd(c.(users := c.users[left[0] := plan.desired[left[0]]]), plan, left[1..]))
  {
    assert ToSet(left[1..]) <= ToSet(left);
    NextAddKeepsInv(c.(users := c.users[left[0] := plan.desired[left[0]]]), plan, left[1..]);
  }

  lemma AddMissingKeepsInv(c: Core, a: Act)
    requires Inv(c) && c.pc.ReconcileAdd? && a.External? && a.outcome.Done?
    requires ReconcileStep(c, a).Some?
    ensures Inv(ReconcileStep(c, a).value)
  {
    assert c.pc.left[0] in ToSet(c.pc.left);
    AddedKeepsInv(c, c.pc.plan, c.pc.left);
  }

  // A reconciliation that raises.
  lemma AddFailsKeepsInv(c: Core, a: Act)
    requires Inv(c) && c.pc.ReconcileAdd? && !(a.External? && a.outcome.Done?)
    requires ReconcileStep(c, a).Some?
    ensures Inv(ReconcileStep(c, a).value)
  {
  }

  // The phase that reads both stores.
  lemma SurveyKeepsInv(c: Core, a: Act)
    requires Inv(c)
    requires c.pc.ReconcileList? || c.pc.ReconcileUsers?
    requires ReconcileStep(c, a).Some?
    ensures Inv(ReconcileStep(c, a).value)
  {
    if a.Listing? {
      ListedDesired(c.db, a.order);
    } else if a.Listed? {
      assert c.users.Keys <= c.pc.desired.Keys + ToSet(a.extra);
      NextRemoveKeepsInv(c, Plan(c.pc.desired, c.pc.active, a.extra, a.missing), a.extra);
    }
  }

  lemma ReconcileKeepsInv(c: Core, a: Act)
    requires Inv(c)
    requires ReconcileStep(c, a).Some?
    ensures Inv(ReconcileStep(c, a).value)
  {
    if c.pc.ReconcileList? || c.pc.ReconcileUsers? {
      SurveyKeepsInv(c, a);
    } else if c.pc.ReconcileRemove? {
      RemoveExtraKeepsInv(c, a);
    } else if c.pc.ReconcileReady? {
      RestartedKeepsInv(c, a);
    } else if c.pc.ReconcileAdd? {
      if a.External? && a.outcome.Done? { AddMissingKeepsInv(c, a); } else { AddFailsKeepsInv(c, a); }
    }
  }

  lemma EraseKeepsInv(c: Core, a: Act)
    requires Inv(c) && !c.op.Reconcile?
    requires c.pc.MarkGet? || c.pc.MarkSet? || c.pc.DeleteRow? || c.pc.Checkpoint?
    requires Step(c, a).Some?
    ensures Inv(Step(c, a).value)
  {
    if c.pc.MarkGet? {
      MarkGetKeepsInv(c, a);
    } else if c.pc.MarkSet? {
      MarkSetKeepsInv(c, a);
    } else {
      DeleteKeepsInv(c, a);
    }
  }

  lemma OperationKeepsInv(c: Core, a: Act)
    requires Inv(c) && Step(c, a).Some? && ReconcileStep(c, a).None?
    ensures Inv(Step(c, a).value)
  {
    if c.pc.MarkGet? || c.pc.MarkSet? || c.pc.DeleteRow? || c.pc.Checkpoint? {
      EraseKeepsInv(c, a);
    } else if ProvisionStep(c, c.op.Subject(), a).Some? {
      ProvisionKeepsInv(c, a);
    } else {
      DisableKeepsInv(c, a);
    }
  }

  lemma StepKeepsOp(c: Core, a: Act)
    requires Step(c, a).Some?
    ensures Step(c, a).value.op == c.op
  {
  }

  lemma StepKeepsInv(c: Core, a: Act)
    requires Inv(c) && Step(c, a).Some?
    ensures Inv(Step(c, a).value)
    ensures Step(c, a).value.op == c.op
  {
    StepKeepsOp(c, a);
    if ReconcileStep(c, a).Some? { ReconcileKeepsInv(c, a); } else { OperationKeepsInv(c, a); }
  }

  lemma ChildExitKeepsInv(c: Core)
    requires Inv(c)
    ensures Inv(ChildExit(c))
  {
  }
}
