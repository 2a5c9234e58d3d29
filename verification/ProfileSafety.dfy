/** Properties of single protocol steps on which the statements about whole runs rest. */
module ProfileSafety {
  import opened Wrappers
  import opened ProfileStore
  import opened ProfileProtocol
  import opened ProfileInvariants

  // The runtime id an operation works on.
  ghost predicate Concerns(db: Rows, op: Op, rid: RuntimeId) {
    match op
    case Create(m) => m.rid == rid
    case Enable(p) => Owns(db, p, rid)
    case Disable(p) => Owns(db, p, rid)
    case Delete(p) => Owns(db, p, rid)
    case Reconcile => false
  }

  // ---- an id that was cut off ----

  // The create has failed, or is about to: the id or the runtime id it drew is taken.
  predicate Futile(c: Core)
    requires c.op.Create?
  {
    c.pc == Finish(false) || (c.pc.CreateInsert? && InsertPending(c.db, c.op.material).Failure?)
  }

  // The running operation may give the id access.
  ghost predicate Provisions(c: Core, rid: RuntimeId) {
    || (c.op.Enable? && Concerns(c.db, c.op, rid))
    || (c.op.Create? && c.op.material.rid == rid && !Futile(c))
  }

  // The id is out of both stores, and the running operation is not one that provisions it.
  ghost predicate Barred(c: Core, rid: RuntimeId) {
    rid !in c.users && !ActiveId(c.db, rid) && !Provisions(c, rid)
  }

  lemma ActiveCarries(db: Rows, db': Rows, rid: RuntimeId)
    requires forall p :: p in db' && db'[p].state.Active? && db'[p].rid == rid ==>
               p in db && db[p].state.Active? && db[p].rid == rid
    ensures ActiveId(db', rid) ==> ActiveId(db, rid)
  {
  }

  lemma BarredInsert(c: Core, a: Act, rid: RuntimeId)
    requires Inv(c) && Barred(c, rid) && c.pc.CreateInsert?
    requires ProvisionStep(c, c.op.Subject(), a).Some?
    ensures Barred(ProvisionStep(c, c.op.Subject(), a).value, rid)
  {
    ActiveCarries(c.db, ProvisionStep(c, c.op.Subject(), a).value.db, rid);
  }

  lemma BarredAdmit(c: Core, a: Act, rid: RuntimeId)
    requires Inv(c) && Barred(c, rid) && !c.op.Reconcile? && (c.pc.EnableReset? || c.pc.ProvisionCommit?)
    requires ProvisionStep(c, c.op.Subject(), a).Some?
    ensures Barred(ProvisionStep(c, c.op.Subject(), a).value, rid)
  {
    ActiveCarries(c.db, ProvisionStep(c, c.op.Subject(), a).value.db, rid);
  }

  lemma BarredProvision(c: Core, a: Act, rid: RuntimeId)
    requires Inv(c) && Barred(c, rid) && !c.op.Reconcile?
    requires !c.pc.CreateInsert? && !c.pc.EnableReset? && !c.pc.ProvisionCommit?
    requires ProvisionStep(c, c.op.Subject(), a).Some?
    ensures Barred(ProvisionStep(c, c.op.Subject(), a).value, rid)
  {
  }

  lemma BarredReadd(c: Core, a: Act, rid: RuntimeId)
    requires Inv(c) && Barred(c, rid) && !c.op.Reconcile? && c.pc.Readd?
    requires DisableStep(c, c.op.Subject(), a).Some?
    ensures Barred(DisableStep(c, c.op.Subject(), a).value, rid)
  {
    assert IsActiveRecord(c.db, c.pc.todo[0]);
    assert ActiveId(c.db, c.pc.todo[0].0);
  }

  lemma BarredWithdraw(c: Core, a: Act, rid: RuntimeId)
    requires Inv(c) && Barred(c, rid) && !c.op.Reconcile?
    requires c.pc.DisableFromPending? || c.pc.DisableCommit? || c.pc.RecordIncomplete?
    requires DisableStep(c, c.op.Subject(), a).Some?
    ensures Barred(DisableStep(c, c.op.Subject(), a).value, rid)
  {
    ActiveCarries(c.db, DisableStep(c, c.op.Subject(), a).value.db, rid);
  }

  lemma BarredDisable(c: Core, a: Act, rid: RuntimeId)
    requires Inv(c) && Barred(c, rid) && !c.op.Reconcile?
    requires !c.pc.Readd? && !c.pc.DisableFromPending? && !c.pc.DisableCommit? && !c.pc.RecordIncomplete?
    requires DisableStep(c, c.op.Subject(), a).Some?
    ensures Barred(DisableStep(c, c.op.Subject(), a).value, rid)
  {
  }

  lemma BarredSurvey(c: Core, a: Act, rid: RuntimeId)
    requires Inv(c) && Barred(c, rid) && (c.pc.ReconcileList? || c.pc.ReconcileUsers?)
    requires ReconcileStep(c, a).Some?
    ensures Barred(ReconcileStep(c, a).value, rid)
  {
  }

  lemma BarredRemoval(c: Core, a: Act, rid: RuntimeId)
    requires Inv(c) && Barred(c, rid) && !c.pc.ReconcileList? && !c.pc.ReconcileUsers? && !c.pc.ReconcileAdd?
    requires ReconcileStep(c, a).Some?
    ensures Barred(ReconcileStep(c, a).value, rid)
  {
  }

  lemma BarredReconcile(c: Core, a: Act, rid: RuntimeId)
    requires Inv(c) && Barred(c, rid) && !c.pc.ReconcileAdd?
    requires ReconcileStep(c, a).Some?
    ensures Barred(ReconcileStep(c, a).value, rid)
  {
    if c.pc.ReconcileList? || c.pc.ReconcileUsers? { BarredSurvey(c, a, rid); } else { BarredRemoval(c, a, rid); }
  }

  lemma BarredAddMissing(c: Core, a: Act, rid: RuntimeId)
    requires Inv(c) && Barred(c, rid) && c.pc.ReconcileAdd?
    requires ReconcileStep(c, a).Some?
    ensures Barred(ReconcileStep(c, a).value, rid)
  {
    var r := c.pc.left[0];
    assert r in ToSet(c.pc.left);
    assert ActiveUser(c.db, r, c.pc.plan.desired[r]);
    assert ActiveId(c.db, r);
  }

  lemma BarredErase(c: Core, a: Act, rid: RuntimeId)
    requires Inv(c) && Barred(c, rid) && !c.op.Reconcile?
    requires MarkStep(c, c.op.Subject(), a).Some? || DeleteStep(c, c.op.Subject(), a).Some?
    ensures MarkStep(c, c.op.Subject(), a).Some? ==> Barred(MarkStep(c, c.op.Subject(), a).value, rid)
    ensures DeleteStep(c, c.op.Subject(), a).Some? ==> Barred(DeleteStep(c, c.op.Subject(), a).value, rid)
  {
    if MarkStep(c, c.op.Subject(), a).Some? {
      ActiveCarries(c.db, MarkStep(c, c.op.Subject(), a).value.db, rid);
    } else {
      ActiveCarries(c.db, DeleteStep(c, c.op.Subject(), a).value.db, rid);
    }
  }

  lemma BarredOperation(c: Core, a: Act, rid: RuntimeId)
    requires Inv(c) && Barred(c, rid) && Step(c, a).Some? && ReconcileStep(c, a).None?
    ensures Barred(Step(c, a).value, rid)
  {
    var p := c.op.Subject();
    if c.pc.CreateInsert? {
      BarredInsert(c, a, rid);
    } else if c.pc.EnableReset? || c.pc.ProvisionCommit? {
      BarredAdmit(c, a, rid);
    } else if ProvisionStep(c, p, a).Some? {
      BarredProvision(c, a, rid);
    } else if c.pc.Readd? {
      BarredReadd(c, a, rid);
    } else if c.pc.DisableFromPending? || c.pc.DisableCommit? || c.pc.RecordIncomplete? {
      BarredWithdraw(c, a, rid);
    } else if DisableStep(c, p, a).Some? {
      BarredDisable(c, a, rid);
    } else {
      BarredErase(c, a, rid);
    }
  }

  lemma BarredStep(c: Core, a: Act, rid: RuntimeId)
    requires Inv(c) && Barred(c, rid) && Step(c, a).Some?
    ensures Barred(Step(c, a).value, rid)
  {
    if ReconcileStep(c, a).None? {
      BarredOperation(c, a, rid);
    } else if c.pc.ReconcileAdd? {
      BarredAddMissing(c, a, rid);
    } else {
      BarredReconcile(c, a, rid);
    }
  }

  // ---- users without an active profile ----

  // A runtime user that neither belongs to an ACTIVE profile nor is being worked on.
  ghost predicate Stray(c: Core, rid: RuntimeId) {
    rid in c.users && !ActiveId(c.db, rid) && !Concerns(c.db, c.op, rid)
  }

  // Rows other than the operation's own are untouched by every step.
  ghost predicate OnlySubject(c: Core, c': Core) {
    && c'.op == c.op
    && (forall q :: q in c.db && (c.op.Reconcile? || q != c.op.Subject()) ==>
          q in c'.db && c'.db[q] == c.db[q])
    && (forall q :: q in c'.db && (c.op.Reconcile? || q != c.op.Subject()) ==> q in c.db)
  }

  lemma ProvisionTouchesOnlySubject(c: Core, a: Act)
    requires !c.op.Reconcile? && ProvisionStep(c, c.op.Subject(), a).Some?
    ensures OnlySubject(c, ProvisionStep(c, c.op.Subject(), a).value)
  {
  }

  lemma DisableTouchesOnlySubject(c: Core, a: Act)
    requires !c.op.Reconcile? && DisableStep(c, c.op.Subject(), a).Some?
    ensures OnlySubject(c, DisableStep(c, c.op.Subject(), a).value)
  {
  }

  // No step touches another profile's row.
  lemma StepTouchesOnlySubject(c: Core, a: Act)
    requires Step(c, a).Some?
    ensures OnlySubject(c, Step(c, a).value)
  {
    if ReconcileStep(c, a).None? {
      if ProvisionStep(c, c.op.Subject(), a).Some? {
        ProvisionTouchesOnlySubject(c, a);
      } else if DisableStep(c, c.op.Subject(), a).Some? {
        DisableTouchesOnlySubject(c, a);
      }
    }
  }

  lemma StrayRows(c: Core, c': Core, rid: RuntimeId)
    requires Inv(c) && OnlySubject(c, c') && !c.op.Reconcile?
    requires c.op.Subject() in c.db && c.op.Subject() in c'.db
    requires c'.db[c.op.Subject()].rid == c.db[c.op.Subject()].rid
    requires c.op.Create? ==> c.db[c.op.Subject()].rid == c.op.material.rid
    requires c'.users == c.users
    ensures Stray(c', rid) ==> Stray(c, rid)
  {
    if !Concerns(c.db, c.op, rid) {
      ActiveCarries(c'.db, c.db, rid);
    }
  }

  lemma StrayAdmit(c: Core, a: Act, rid: RuntimeId)
    requires Inv(c) && Step(c, a).Some?
    requires c.pc.EnableReset? || c.pc.ProvisionCommit?
    ensures Stray(Step(c, a).value, rid) ==> Stray(c, rid)
  {
    StepTouchesOnlySubject(c, a);
    StrayRows(c, Step(c, a).value, rid);
  }

  lemma StrayWithdraw(c: Core, a: Act, rid: RuntimeId)
    requires Inv(c) && Step(c, a).Some?
    requires c.pc.DisableFromPending? || c.pc.DisableCommit?
    ensures Stray(Step(c, a).value, rid) ==> Stray(c, rid)
  {
    StepTouchesOnlySubject(c, a);
    StrayRows(c, Step(c, a).value, rid);
  }

  lemma StrayErrors(c: Core, a: Act, rid: RuntimeId)
    requires Inv(c) && Step(c, a).Some?
    requires c.pc.RecordIncomplete? || c.pc.MarkSet?
    ensures Stray(Step(c, a).value, rid) ==> Stray(c, rid)
  {
    StepTouchesOnlySubject(c, a);
    StrayRows(c, Step(c, a).value, rid);
  }

  lemma StrayInsertDelete(c: Core, a: Act, rid: RuntimeId)
    requires Inv(c) && Step(c, a).Some?
    requires c.pc.CreateInsert? || c.pc.DeleteRow?
    ensures Stray(Step(c, a).value, rid) ==> Stray(c, rid)
  {
    StepTouchesOnlySubject(c, a);
    var c' := Step(c, a).value;
    if c.pc.CreateInsert? {
      ActiveCarries(c'.db, c.db, rid);
    }
  }

  lemma StrayReadd(c: Core, a: Act, rid: RuntimeId)
    requires Inv(c) && Step(c, a).Some? && c.pc.Readd?
    ensures Stray(Step(c, a).value, rid) ==> Stray(c, rid)
  {
    assert IsActiveRecord(c.db, c.pc.todo[0]);
    assert ActiveId(c.db, c.pc.todo[0].0);
  }

  lemma StrayAddMissing(c: Core, a: Act, rid: RuntimeId)
    requires Inv(c) && Step(c, a).Some? && c.pc.ReconcileAdd?
    ensures Stray(Step(c, a).value, rid) ==> Stray(c, rid)
  {
    var r := c.pc.left[0];
    assert r in ToSet(c.pc.left);
    assert ActiveUser(c.db, r, c.pc.plan.desired[r]);
    assert ActiveId(c.db, r);
  }

  // Every other step leaves the rows alone and adds at most the user being provisioned.
  lemma QuietStep(c: Core, a: Act)
    requires Step(c, a).Some?
    requires !c.pc.EnableReset? && !c.pc.ProvisionCommit? && !c.pc.DisableFromPending?
    requires !c.pc.DisableCommit? && !c.pc.RecordIncomplete? && !c.pc.MarkSet?
    requires !c.pc.CreateInsert? && !c.pc.DeleteRow? && !c.pc.Readd? && !c.pc.ReconcileAdd?
    ensures var c' := Step(c, a).value;
            && c'.db == c.db && c'.op == c.op
            && forall r :: r in c'.users && r !in c.users ==> c.pc.ProvisionAdd? && c.pc.rid == r
  {
  }

  // No step makes a stray user.
  lemma StrayStep(c: Core, a: Act, rid: RuntimeId)
    requires Inv(c) && Step(c, a).Some? && Stray(Step(c, a).value, rid)
    ensures Stray(c, rid)
  {
    match c.pc {
      case EnableReset => StrayAdmit(c, a, rid);
      case ProvisionCommit(_) => StrayAdmit(c, a, rid);
      case DisableFromPending => StrayWithdraw(c, a, rid);
      case DisableCommit => StrayWithdraw(c, a, rid);
      case RecordIncomplete(_) => StrayErrors(c, a, rid);
      case MarkSet(_, _) => StrayErrors(c, a, rid);
      case CreateInsert => StrayInsertDelete(c, a, rid);
      case DeleteRow(_) => StrayInsertDelete(c, a, rid);
      case Readd(_, _, _) => StrayReadd(c, a, rid);
      case ReconcileAdd(_, _) => StrayAddMissing(c, a, rid);
      case _ => QuietStep(c, a);
    }
  }

  // ---- exact agreement when nothing raises ----

  ghost predicate Agreement(db: Rows, users: Users) {
    && (forall r :: r in users ==> ActiveUser(db, r, users[r]))
    && (forall r :: ActiveId(db, r) ==> r in users)
  }

  // Agreement once the operation's own user is left out.
  ghost predicate AgreementBut(db: Rows, users: Users, rid: RuntimeId) {
    && (forall r :: r in users && r != rid ==> ActiveUser(db, r, users[r]))
    && (forall r :: ActiveId(db, r) && r != rid ==> r in users)
  }

  // Every user is right, and each missing one is still to be added.
  ghost predicate Rebuilding(db: Rows, users: Users, todo: seq<(RuntimeId, Option<UserId>)>) {
    && (forall r :: r in users ==> ActiveUser(db, r, users[r]))
    && (forall r :: ActiveId(db, r) ==> r in users || exists e :: e in todo && e.0 == r)
  }

  // Statements at which an operation has not yet touched the runtime, or has put it right again.
  predicate Settled(pc: Pc) {
    || pc.CreateInsert? || pc.CreateGet? || pc.EnableGet? || pc.EnableReset? || pc.ProvisionAdd?
    || pc.ProvisionLinks? || pc.DisableGet? || pc.DisableFromPending? || pc.DisableCommit?
    || pc.DisableResult? || pc.DeleteRow? || pc.Checkpoint? || pc == Finish(true)
  }

  predicate InReconcile(pc: Pc) {
    || pc.ReconcileList? || pc.ReconcileUsers? || pc.ReconcileRemove? || pc.ReconcileRestart?
    || pc.ReconcileReady? || pc.ReconcileAdd? || pc.ReconcileDone?
  }

  // How the two stores relate at each statement of an operation that can still return normally.
  ghost predicate OnCourse(c: Core) {
    && (Settled(c.pc) ==> Agreement(c.db, c.users))
    && (c.pc.ProvisionCommit? ==>
          && !c.op.Reconcile? && AgreementBut(c.db, c.users, c.pc.rid)
          && c.pc.rid in c.users && c.op.Subject() in c.db
          && c.db[c.op.Subject()].uid == Some(c.users[c.pc.rid]))
    && (c.pc.Readd? && !c.pc.incomplete ==> Rebuilding(c.db, c.users, c.pc.todo))
    && (c.op.Reconcile? && InReconcile(c.pc) ==>
          && (c.pc.ReconcileList? || c.pc.ReconcileUsers? || c.pc.ReconcileDone?)
          && Agreement(c.db, c.users))
  }

  lemma SameActiveAgreement(db: Rows, db': Rows, users: Users)
    requires Agreement(db, users)
    requires forall p :: p in db && db[p].state.Active? ==> p in db' && db'[p] == db[p]
    requires forall p :: p in db' && db'[p].state.Active? ==> p in db && db[p] == db'[p]
    ensures Agreement(db', users)
  {
    forall r | r in users ensures ActiveUser(db', r, users[r]) {
      var p :| p in db && db[p].state.Active? && db[p].rid == r && db[p].uid == Some(users[r]);
      assert p in db';
    }
    forall r | ActiveId(db', r) ensures r in users {
      var p :| p in db' && db'[p].state.Active? && db'[p].rid == r;
      assert ActiveId(db, r);
    }
  }

  // The row writes of create and enable before the user is added.
  lemma AdmitOnCourse(c: Core, a: Act)
    requires Inv(c) && OnCourse(c) && !c.op.Reconcile?
    requires ProvisionStep(c, c.op.Subject(), a).Some?
    requires c.pc.CreateInsert? || c.pc.EnableReset?
    ensures OnCourse(ProvisionStep(c, c.op.Subject(), a).value)
  {
    SameActiveAgreement(c.db, ProvisionStep(c, c.op.Subject(), a).value.db, c.users);
  }

  lemma ProvisionOnCourse(c: Core, a: Act)
    requires Inv(c) && OnCourse(c) && !c.op.Reconcile?
    requires ProvisionStep(c, c.op.Subject(), a).Some?
    requires !c.pc.ProvisionCommit? && !c.pc.CreateInsert? && !c.pc.EnableReset?
    ensures OnCourse(ProvisionStep(c, c.op.Subject(), a).value)
  {
    var c' := ProvisionStep(c, c.op.Subject(), a).value;
    if c.pc.ProvisionAdd? && c'.pc.ProvisionCommit? {
      assert c'.users == c.users[c.pc.rid := c.pc.uid.value];
    }
  }

  // Committing ACTIVE makes the added user right.
  lemma CommitOnCourse(c: Core, a: Act)
    requires Inv(c) && OnCourse(c) && !c.op.Reconcile? && c.pc.ProvisionCommit?
    requires ProvisionStep(c, c.op.Subject(), a).Some?
    ensures OnCourse(ProvisionStep(c, c.op.Subject(), a).value)
  {
    var p := c.op.Subject();
    var c' := ProvisionStep(c, p, a).value;
    if c'.pc.ProvisionLinks? {
      forall r | r in c'.users ensures ActiveUser(c'.db, r, c'.users[r]) {
        if r != c.pc.rid {
          var q :| q in c.db && c.db[q].state.Active? && c.db[q].rid == r && c.db[q].uid == Some(c.users[r]);
          assert q in c'.db && c'.db[q].rid == r;
        } else {
          assert c'.db[p].state.Active? && c'.db[p].rid == r;
        }
      }
      forall r | ActiveId(c'.db, r) ensures r in c'.users {
        var q :| q in c'.db && c'.db[q].state.Active? && c'.db[q].rid == r;
        assert q == p || ActiveId(c.db, r);
      }
    }
  }

  lemma NextReaddOnCourse(c: Core, rid: RuntimeId, incomplete: bool,
                          todo: seq<(RuntimeId, Option<UserId>)>)
    requires !incomplete ==> Rebuilding(c.db, c.users, todo)
    ensures OnCourse(NextReadd(c, rid, incomplete, todo))
  {
  }

  lemma ListOnCourse(c: Core, a: Act)
    requires Inv(c) && OnCourse(c) && !c.op.Reconcile? && c.pc.ListActive?
    requires DisableStep(c, c.op.Subject(), a).Some?
    ensures OnCourse(DisableStep(c, c.op.Subject(), a).value)
  {
    if a.Listing? {
      var records := ActiveRecords(c.db, a.order);
      ActiveRecordsExact(c.db, a.order);
      if !c.pc.incomplete {
        forall r | ActiveId(c.db, r) ensures exists e :: e in records && e.0 == r {
          var p :| p in c.db && c.db[p].state.Active? && c.db[p].rid == r;
          assert p in ToSet(a.order);
          assert (c.db[p].rid, c.db[p].uid) in records;
        }
      }
      NextReaddOnCourse(c, c.pc.rid, c.pc.incomplete, records);
    }
  }

  lemma ReaddOnCourse(c: Core, a: Act)
    requires Inv(c) && OnCourse(c) && !c.op.Reconcile? && c.pc.Readd?
    requires DisableStep(c, c.op.Subject(), a).Some?
    ensures OnCourse(DisableStep(c, c.op.Subject(), a).value)
  {
    if a.External? {
      var e, rest := c.pc.todo[0], c.pc.todo[1..];
      var c' := c.(users := AfterAdd(c.users, e.0, e.1.value, a.outcome));
      if !c.pc.incomplete && a.outcome.Done? {
        assert IsActiveRecord(c.db, e);
        assert ActiveUser(c.db, e.0, e.1.value);
        assert forall x :: x in c.pc.todo ==> x == e || x in rest;
        assert Rebuilding(c'.db, c'.users, rest);
      }
      NextReaddOnCourse(c', c.pc.rid, c.pc.incomplete || !a.outcome.Done?, rest);
    }
  }

  lemma CutOffOnCourse(c: Core, a: Act)
    requires Inv(c) && OnCourse(c) && c.pc.DisableFromPending?
    requires DisableStep(c, c.op.Subject(), a).Some?
    ensures OnCourse(DisableStep(c, c.op.Subject(), a).value)
  {
    SameActiveAgreement(c.db, DisableStep(c, c.op.Subject(), a).value.db, c.users);
  }

  // The calls that cut the profile off leave nothing to agree about until the re-adding starts.
  lemma RevokeOnCourse(c: Core, a: Act)
    requires !c.op.Reconcile? && (c.pc.Kick? || c.pc.Remove? || c.pc.Restart? || c.pc.Ready?)
    requires DisableStep(c, c.op.Subject(), a).Some?
    ensures OnCourse(DisableStep(c, c.op.Subject(), a).value)
  {
  }

  lemma DisableOnCourse(c: Core, a: Act)
    requires OnCourse(c) && !c.op.Reconcile?
    requires !c.pc.DisableFromPending? && !c.pc.ListActive? && !c.pc.Readd?
    requires !c.pc.Kick? && !c.pc.Remove? && !c.pc.Restart? && !c.pc.Ready?
    requires DisableStep(c, c.op.Subject(), a).Some?
    ensures OnCourse(DisableStep(c, c.op.Subject(), a).value)
  {
  }

  lemma DeleteOnCourse(c: Core, a: Act)
    requires Inv(c) && OnCourse(c) && !c.op.Reconcile?
    requires DeleteStep(c, c.op.Subject(), a).Some?
    ensures OnCourse(DeleteStep(c, c.op.Subject(), a).value)
  {
    if c.pc.DeleteRow? {
      SameActiveAgreement(c.db, DeleteStep(c, c.op.Subject(), a).value.db, c.users);
    }
  }

  // With both stores in agreement a reconciliation finds nothing to do.
  lemma SurveyOnCourse(c: Core, a: Act)
    requires Inv(c) && OnCourse(c)
    requires c.pc.ReconcileUsers? && a.Listed? && c.op.Reconcile?
    requires ReconcileStep(c, a).Some?
    ensures ReconcileStep(c, a).value == c.(pc := ReconcileDone(true))
  {
    var d := c.pc.desired;
    forall r | r in c.users ensures r in d {
      assert ActiveUser(c.db, r, c.users[r]) && ActiveId(c.db, r);
    }
    forall r | r in d ensures r in c.users {
      assert ActiveUser(c.db, r, d[r]) && ActiveId(c.db, r);
    }
    assert ToSet(a.extra) == {} && ToSet(a.missing) == {};
    SomeMember(a.extra);
    SomeMember(a.missing);
  }

  lemma ReconcileOnCourse(c: Core, a: Act)
    requires OnCourse(c) && c.op.Reconcile? && !(c.pc.ReconcileUsers? && a.Listed?)
    requires ReconcileStep(c, a).Some?
    ensures OnCourse(ReconcileStep(c, a).value)
  {
  }

  // An operation that reconciles after an error no longer returns normally.
  lemma HealingSurveyOnCourse(c: Core, a: Act)
    requires !c.op.Reconcile? && ReconcileStep(c, a).Some?
    requires c.pc.ReconcileList? || c.pc.ReconcileUsers? || c.pc.ReconcileDone?
    ensures OnCourse(ReconcileStep(c, a).value)
  {
  }

  lemma HealingOnCourse(c: Core, a: Act)
    requires !c.op.Reconcile? && ReconcileStep(c, a).Some?
    requires !c.pc.ReconcileList? && !c.pc.ReconcileUsers? && !c.pc.ReconcileDone?
    ensures OnCourse(ReconcileStep(c, a).value)
  {
  }

  lemma SomeMember(xs: seq<RuntimeId>)
    ensures xs == [] || exists x :: x in ToSet(xs)
  {
    if xs != [] { assert xs[0] in ToSet(xs); }
  }

  lemma OperationOnCourse(c: Core, a: Act)
    requires Inv(c) && OnCourse(c) && Step(c, a).Some? && ReconcileStep(c, a).None?
    ensures OnCourse(Step(c, a).value)
  {
    var p := c.op.Subject();
    if ProvisionStep(c, p, a).Some? {
      if c.pc.ProvisionCommit? {
        CommitOnCourse(c, a);
      } else if c.pc.CreateInsert? || c.pc.EnableReset? {
        AdmitOnCourse(c, a);
      } else {
        ProvisionOnCourse(c, a);
      }
    } else if DeleteStep(c, p, a).Some? {
      DeleteOnCourse(c, a);
    } else if c.pc.ListActive? {
      ListOnCourse(c, a);
    } else if c.pc.Readd? {
      ReaddOnCourse(c, a);
    } else if c.pc.DisableFromPending? {
      CutOffOnCourse(c, a);
    } else if c.pc.Kick? || c.pc.Remove? || c.pc.Restart? || c.pc.Ready? {
      RevokeOnCourse(c, a);
    } else if DisableStep(c, p, a).Some? {
      DisableOnCourse(c, a);
    }
  }

  lemma StepOnCourse(c: Core, a: Act)
    requires Inv(c) && OnCourse(c) && Step(c, a).Some?
    ensures OnCourse(Step(c, a).value)
  {
    if ReconcileStep(c, a).None? {
      OperationOnCourse(c, a);
    } else if !c.op.Reconcile? {
      if c.pc.ReconcileList? || c.pc.ReconcileUsers? || c.pc.ReconcileDone? {
        HealingSurveyOnCourse(c, a);
      } else {
        HealingOnCourse(c, a);
      }
    } else if c.pc.ReconcileUsers? && a.Listed? {
      SurveyOnCourse(c, a);
    } else {
      ReconcileOnCourse(c, a);
    }
  }

  // ---- a reconciliation that nothing disturbs ----

  // Every desired id is present or still to be added.
  ghost predicate Covered(c: Core) {
    match c.pc
    case ReconcileAdd(plan, left) => plan.desired.Keys <= c.users.Keys + ToSet(left)
    case ReconcileDone(success) => success ==> forall r :: ActiveId(c.db, r) ==> r in c.users
    case _ => true
  }

  lemma NextAddCovered(c: Core, plan: Plan, left: seq<RuntimeId>)
    requires PlanFits(c.db, plan)
    requires plan.desired.Keys <= c.users.Keys + ToSet(left)
    ensures Covered(NextAdd(c, plan, left))
  {
  }

  lemma AddCovered(c: Core, a: Act)
    requires Inv(c) && Covered(c) && c.pc.ReconcileAdd? && ReconcileStep(c, a).Some?
    ensures Covered(ReconcileStep(c, a).value)
  {
    var plan, left := c.pc.plan, c.pc.left;
    if a.outcome.Done? {
      assert left == [left[0]] + left[1..];
      NextAddCovered(c.(users := c.users[left[0] := plan.desired[left[0]]]), plan, left[1..]);
    }
  }

  lemma SurveyCovered(c: Core, a: Act)
    requires Inv(c) && (c.pc.ReconcileUsers? || c.pc.ReconcileList?) && ReconcileStep(c, a).Some?
    ensures Covered(ReconcileStep(c, a).value)
  {
    if a.Listed? {
      assert c.pc.desired.Keys <= c.users.Keys + ToSet(a.missing);
      NextAddCovered(c, Plan(c.pc.desired, c.pc.active, a.extra, a.missing), a.missing);
    }
  }

  lemma RestartCovered(c: Core, a: Act)
    requires Inv(c) && (c.pc.ReconcileRemove? || c.pc.ReconcileRestart? || c.pc.ReconcileReady?)
    requires ReconcileStep(c, a).Some?
    ensures Covered(ReconcileStep(c, a).value)
  {
    if c.pc.ReconcileReady? { NextAddCovered(c, c.pc.plan, c.pc.plan.active); }
  }

  lemma StepCovered(c: Core, a: Act)
    requires Inv(c) && Covered(c) && InReconcile(c.pc) && Step(c, a).Some?
    ensures Covered(Step(c, a).value)
  {
    if c.pc.ReconcileAdd? {
      AddCovered(c, a);
    } else if c.pc.ReconcileUsers? || c.pc.ReconcileList? {
      SurveyCovered(c, a);
    } else if !c.pc.ReconcileDone? {
      RestartCovered(c, a);
    }
  }

  // ---- state changes ----

  // The transition an operation is about to ask the repository for.
  function Requested(c: Core): Option<ProfileState> {
    match c.pc
    case EnableReset => Some(Pending)
    case ProvisionCommit(_) => Some(Active)
    case DisableFromPending => Some(Error)
    case DisableCommit => Some(Disabled)
    case MarkSet(_, seen) => if seen.Disabled? then None else Some(Error)
    case _ => None
  }

  // The coordinator never asks for a transition the repository refuses.
  lemma RequestsAreLegal(c: Core)
    requires Inv(c) && Requested(c).Some?
    ensures !c.op.Reconcile? && c.op.Subject() in c.db
    ensures var before := c.db[c.op.Subject()].state;
            before == Requested(c).value || Legal(before, Requested(c).value)
  {
  }

  // One step moves at most one row, along the transition table; rows are born PENDING, and only the
  // commit of create or enable makes one ACTIVE.
  ghost predicate LegalRows(c: Core, c': Core) {
    && (forall p :: p in c.db && p in c'.db && c'.db[p].state != c.db[p].state ==>
          && Legal(c.db[p].state, c'.db[p].state)
          && (c'.db[p].state.Active? ==>
                (c.op.Create? || c.op.Enable?) && c.op.Subject() == p && c.pc.ProvisionCommit?))
    && (forall p :: p in c'.db && p !in c.db ==> c'.db[p].state.Pending?)
    && (forall p :: p in c.db && p in c'.db ==>
          c'.db[p].rid == c.db[p].rid && c'.db[p].uid == c.db[p].uid)
  }

  lemma SetStateLegalRows(c: Core, target: ProfileState, code: Option<string>, now: int, pc: Pc)
    requires !c.op.Reconcile? && SetState(c.db, c.op.Subject(), target, code, now).Success?
    requires target.Active? ==> (c.op.Create? || c.op.Enable?) && c.pc.ProvisionCommit?
    ensures LegalRows(c, c.(db := SetState(c.db, c.op.Subject(), target, code, now).value, pc := pc))
  {
  }

  lemma WriteLegalRows(c: Core, a: Act)
    requires Inv(c) && Step(c, a).Some? && a.Store?
    requires c.pc.EnableReset? || c.pc.ProvisionCommit? || c.pc.DisableFromPending? || c.pc.DisableCommit?
    ensures LegalRows(c, Step(c, a).value)
  {
    var c' := Step(c, a).value;
    if c'.db != c.db { SetStateLegalRows(c, Requested(c).value, None, a.now, c'.pc); }
  }

  lemma MarkLegalRows(c: Core, a: Act)
    requires Inv(c) && Step(c, a).Some? && c.pc.MarkSet?
    ensures LegalRows(c, Step(c, a).value)
  {
    var c' := Step(c, a).value;
    if c'.db != c.db && !c.pc.seen.Disabled? { SetStateLegalRows(c, Error, Some(c.pc.code), a.now, c'.pc); }
  }

  lemma InsertLegalRows(c: Core, a: Act)
    requires Step(c, a).Some? && c.pc.CreateInsert?
    ensures LegalRows(c, Step(c, a).value)
  {
  }

  lemma DeleteLegalRows(c: Core, a: Act)
    requires Step(c, a).Some? && c.pc.DeleteRow?
    ensures LegalRows(c, Step(c, a).value)
  {
  }

  lemma RecordLegalRows(c: Core, a: Act)
    requires Step(c, a).Some? && c.pc.RecordIncomplete?
    ensures LegalRows(c, Step(c, a).value)
  {
  }

  lemma AddLegalRows(c: Core, a: Act)
    requires Step(c, a).Some?
    requires c.pc.Readd? || c.pc.ReconcileAdd?
    ensures LegalRows(c, Step(c, a).value)
  {
    assert Step(c, a).value.db == c.db;
  }

  lemma StepLegalRows(c: Core, a: Act)
    requires Inv(c) && Step(c, a).Some?
    ensures LegalRows(c, Step(c, a).value)
  {
    if c.pc.EnableReset? || c.pc.ProvisionCommit? || c.pc.DisableFromPending? || c.pc.DisableCommit? {
      WriteLegalRows(c, a);
    } else if c.pc.MarkSet? {
      MarkLegalRows(c, a);
    } else if c.pc.CreateInsert? {
      InsertLegalRows(c, a);
    } else if c.pc.DeleteRow? {
      DeleteLegalRows(c, a);
    } else if c.pc.RecordIncomplete? {
      RecordLegalRows(c, a);
    } else if c.pc.Readd? || c.pc.ReconcileAdd? {
      AddLegalRows(c, a);
    } else {
      QuietStep(c, a);
    }
  }
}
