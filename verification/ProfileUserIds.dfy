/** A runtime user with the id of an ACTIVE profile carries that profile's own user id, whatever fails
    (control/src/ezopenpn/profiles/coordinator.py, control/src/ezopenpn/profiles/reconcile.py). */
module ProfileUserIds {
  import opened Wrappers
  import opened ProfileStore
  import opened ProfileProtocol
  import opened ProfileInvariants
  import opened ProfileSafety

  ghost predicate Right(db: Rows, users: Users) {
    forall r :: r in users && ActiveId(db, r) ==> ActiveUser(db, r, users[r])
  }

  // About to commit ACTIVE, the user that was added is the profile's own.
  ghost predicate Correct(c: Core) {
    && Right(c.db, c.users)
    && (c.pc.ProvisionCommit? && !c.op.Reconcile? && c.pc.rid in c.users ==>
          c.op.Subject() in c.db && c.db[c.op.Subject()].uid == Some(c.users[c.pc.rid]))
  }

  // ---- both stores, one change at a time ----

  lemma FewerUsersRight(db: Rows, users: Users, fewer: Users)
    requires Right(db, users)
    requires forall r :: r in fewer ==> r in users && fewer[r] == users[r]
    ensures Right(db, fewer)
  {
  }

  lemma OneMoreUserRight(db: Rows, users: Users, rid: RuntimeId, uid: UserId)
    requires Right(db, users) && (ActiveId(db, rid) ==> ActiveUser(db, rid, uid))
    ensures Right(db, users[rid := uid])
  {
  }

  // Rows may leave ACTIVE, come and go; those that stay ACTIVE keep their ids.
  ghost predicate NoNewActive(db: Rows, db': Rows) {
    forall p :: p in db' && db'[p].state.Active? ==>
      p in db && db[p].state.Active? && db[p].rid == db'[p].rid && db[p].uid == db'[p].uid
  }

  lemma NoNewActiveRight(db: Rows, db': Rows, users: Users)
    requires WellKept(db) && Right(db, users) && NoNewActive(db, db')
    ensures Right(db', users)
  {
    forall r | r in users && ActiveId(db', r) ensures ActiveUser(db', r, users[r]) {
      var p :| p in db' && db'[p].state.Active? && db'[p].rid == r;
      assert ActiveId(db, r);
      var q :| q in db && db[q].state.Active? && db[q].rid == r && db[q].uid == Some(users[r]);
      assert p == q;
    }
  }

  lemma OneMoreActiveRight(db: Rows, db': Rows, users: Users, p: ProfileId)
    requires WellKept(db) && Right(db, users) && p in db && p in db'
    requires forall q :: q in db' && q != p ==> q in db && db'[q] == db[q]
    requires db'[p].rid == db[p].rid && (db[p].rid in users ==> db'[p].uid == Some(users[db[p].rid]))
    ensures Right(db', users)
  {
    forall r | r in users && ActiveId(db', r) ensures ActiveUser(db', r, users[r]) {
      var q :| q in db' && db'[q].state.Active? && db'[q].rid == r;
      if q != p {
        assert ActiveId(db, r);
        var s :| s in db && db[s].state.Active? && db[s].rid == r && db[s].uid == Some(users[r]);
        assert s == q;
      }
    }
  }

  // ---- every step ----

  lemma RowsStayRight(c: Core, a: Act)
    requires Inv(c) && Correct(c) && Step(c, a).Some?
    requires c.pc.CreateInsert? || c.pc.EnableReset? || c.pc.DisableFromPending? || c.pc.DisableCommit?
             || c.pc.RecordIncomplete? || c.pc.DeleteRow? || c.pc.MarkSet?
    ensures Correct(Step(c, a).value)
  {
    var c' := Step(c, a).value;
    WritesMakeNoActive(c, a);
    NoNewActiveRight(c.db, c'.db, c.users);
  }

  lemma WritesMakeNoActive(c: Core, a: Act)
    requires Inv(c) && Step(c, a).Some?
    requires c.pc.CreateInsert? || c.pc.EnableReset? || c.pc.DisableFromPending? || c.pc.DisableCommit?
             || c.pc.RecordIncomplete? || c.pc.DeleteRow? || c.pc.MarkSet?
    ensures var c' := Step(c, a).value;
            NoNewActive(c.db, c'.db) && c'.users == c.users && !c'.pc.ProvisionCommit?
  {
    WritesKeepUsers(c, a);
    StepLegalRows(c, a);
    LegalMakesNoActive(c, Step(c, a).value);
  }

  lemma WritesKeepUsers(c: Core, a: Act)
    requires Step(c, a).Some?
    requires c.pc.CreateInsert? || c.pc.EnableReset? || c.pc.DisableFromPending? || c.pc.DisableCommit?
             || c.pc.RecordIncomplete? || c.pc.DeleteRow? || c.pc.MarkSet?
    ensures Step(c, a).value.users == c.users && !Step(c, a).value.pc.ProvisionCommit?
  {
  }

  lemma LegalMakesNoActive(c: Core, c': Core)
    requires LegalRows(c, c') && !c.pc.ProvisionCommit?
    ensures NoNewActive(c.db, c'.db)
  {
  }

  lemma CommitIsCorrect(c: Core, a: Act)
    requires Inv(c) && Correct(c) && Step(c, a).Some? && c.pc.ProvisionCommit?
    ensures Correct(Step(c, a).value)
  {
    if Step(c, a).value.pc.ProvisionLinks? {
      OneMoreActiveRight(c.db, Step(c, a).value.db, c.users, c.op.Subject());
    }
  }

  lemma AddIsCorrect(c: Core, a: Act)
    requires Inv(c) && Correct(c) && Step(c, a).Some? && c.pc.ProvisionAdd?
    ensures Correct(Step(c, a).value)
  {
    if c.pc.uid.Some? && !a.outcome.RaisedBeforeEffect? {
      NotActiveYet(c);
      OneMoreUserRight(c.db, c.users, c.pc.rid, c.pc.uid.value);
    }
  }

  // Only its own profile has the runtime id that is being provisioned.
  lemma NotActiveYet(c: Core)
    requires Inv(c) && c.pc.ProvisionAdd?
    ensures !ActiveId(c.db, c.pc.rid)
  {
    var p := c.op.Subject();
    assert p in c.db && c.db[p].rid == c.pc.rid && !c.db[p].state.Active?;
  }

  lemma RemovalIsCorrect(c: Core, a: Act)
    requires Inv(c) && Correct(c) && Step(c, a).Some?
    requires c.pc.ProvisionUndo? || c.pc.Remove? || c.pc.Restart? || c.pc.ReconcileRestart?
    ensures Correct(Step(c, a).value)
  {
    FewerUsersRight(c.db, c.users, Step(c, a).value.users);
  }

  // What the calls for one id do.
  lemma RemoveExtraEffect(c: Core, a: Act)
    requires Step(c, a).Some? && c.pc.ReconcileRemove?
    ensures var c' := Step(c, a).value;
            && a.External? && c.pc.left != []
            && c'.db == c.db && c'.users == AfterRemove(c.users, c.pc.left[0], a.outcome) && !c'.pc.ProvisionCommit?
  {
  }

  lemma ReaddEffect(c: Core, a: Act)
    requires Step(c, a).Some? && c.pc.Readd?
    ensures var c' := Step(c, a).value;
            && c.pc.todo != [] && c'.db == c.db && !c'.pc.ProvisionCommit?
            && var e := c.pc.todo[0];
               c'.users == c.users || (e.1.Some? && c'.users == c.users[e.0 := e.1.value])
  {
  }

  lemma AddMissingEffect(c: Core, a: Act)
    requires Step(c, a).Some? && c.pc.ReconcileAdd?
    ensures var c' := Step(c, a).value;
            && a.External? && c.pc.left != [] && c.pc.left[0] in c.pc.plan.desired
            && c'.db == c.db && !c'.pc.ProvisionCommit?
            && c'.users == AfterAdd(c.users, c.pc.left[0], c.pc.plan.desired[c.pc.left[0]], a.outcome)
  {
  }

  lemma ReconcileRemovalIsCorrect(c: Core, a: Act)
    requires Correct(c) && Step(c, a).Some? && c.pc.ReconcileRemove?
    ensures Correct(Step(c, a).value)
  {
    RemoveExtraEffect(c, a);
    FewerUsersRight(c.db, c.users, AfterRemove(c.users, c.pc.left[0], a.outcome));
  }

  lemma ReaddIsCorrect(c: Core, a: Act)
    requires Inv(c) && Correct(c) && Step(c, a).Some? && c.pc.Readd?
    ensures Correct(Step(c, a).value)
  {
    ReaddEffect(c, a);
    var e := c.pc.todo[0];
    if e.1.Some? {
      FirstIsActive(c);
      OneMoreUserRight(c.db, c.users, e.0, e.1.value);
    }
  }

  lemma FirstIsActive(c: Core)
    requires Inv(c) && c.pc.Readd? && c.pc.todo[0].1.Some?
    ensures ActiveUser(c.db, c.pc.todo[0].0, c.pc.todo[0].1.value)
  {
    assert IsActiveRecord(c.db, c.pc.todo[0]);
  }

  lemma AddMissingIsCorrect(c: Core, a: Act)
    requires Inv(c) && Correct(c) && Step(c, a).Some? && c.pc.ReconcileAdd?
    ensures Correct(Step(c, a).value)
  {
    AddMissingEffect(c, a);
    DesiredIsRight(c, c.pc.left[0]);
    OneMoreUserRight(c.db, c.users, c.pc.left[0], c.pc.plan.desired[c.pc.left[0]]);
  }

  lemma DesiredIsRight(c: Core, rid: RuntimeId)
    requires Inv(c) && c.pc.ReconcileAdd? && rid in c.pc.plan.desired
    ensures ActiveUser(c.db, rid, c.pc.plan.desired[rid])
  {
  }

  // The other steps change neither store.
  lemma SameStores(c: Core, a: Act)
    requires Step(c, a).Some?
    requires !c.pc.CreateInsert? && !c.pc.EnableReset? && !c.pc.DisableFromPending? && !c.pc.DisableCommit?
    requires !c.pc.RecordIncomplete? && !c.pc.DeleteRow? && !c.pc.MarkSet? && !c.pc.ProvisionCommit?
    requires !c.pc.ProvisionAdd? && !c.pc.ProvisionUndo? && !c.pc.Remove? && !c.pc.Restart? && !c.pc.Readd?
    requires !c.pc.ReconcileRemove? && !c.pc.ReconcileRestart? && !c.pc.ReconcileAdd?
    ensures var c' := Step(c, a).value;
            c'.db == c.db && c'.users == c.users && !c'.pc.ProvisionCommit?
  {
  }

  /** Every step under every outcome keeps the user ids behind ACTIVE profiles right. */
  lemma StepIsCorrect(c: Core, a: Act)
    requires Inv(c) && Correct(c) && Step(c, a).Some?
    ensures Correct(Step(c, a).value)
  {
    match c.pc {
      case CreateInsert => RowsStayRight(c, a);
      case EnableReset => RowsStayRight(c, a);
      case DisableFromPending => RowsStayRight(c, a);
      case DisableCommit => RowsStayRight(c, a);
      case RecordIncomplete(_) => RowsStayRight(c, a);
      case DeleteRow(_) => RowsStayRight(c, a);
      case MarkSet(_, _) => RowsStayRight(c, a);
      case ProvisionCommit(_) => CommitIsCorrect(c, a);
      case ProvisionAdd(_, _) => AddIsCorrect(c, a);
      case ProvisionUndo(_) => RemovalIsCorrect(c, a);
      case Remove(_, _) => RemovalIsCorrect(c, a);
      case Restart(_, _) => RemovalIsCorrect(c, a);
      case ReconcileRestart(_) => RemovalIsCorrect(c, a);
      case ReconcileRemove(_, _) => ReconcileRemovalIsCorrect(c, a);
      case Readd(_, _, _) => ReaddIsCorrect(c, a);
      case ReconcileAdd(_, _) => AddMissingIsCorrect(c, a);
      case _ => SameStores(c, a);
    }
  }

  // A restarted child has no users, so none is wrong.
  lemma EmptyIsCorrect(c: Core)
    requires c.users == map[]
    ensures Correct(c)
  {
  }
}
