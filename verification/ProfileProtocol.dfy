/** The profile control protocol as a state machine, one step per repository transaction, per call
    into the runtime and per local computation that can raise
    (control/src/ezopenpn/profiles/coordinator.py, control/src/ezopenpn/profiles/reconcile.py).
    A `Core` is what the thread that holds the coordinator lock sees: the stored rows, the users
    inside the Xray process, the operation it runs and the next statement of that operation. */
module ProfileProtocol {
  import opened Wrappers
  import opened ProfileStore

  const XRAY_ADD_FAILED := "xray_add_failed"
  const RUNTIME_REVOKE_INCOMPLETE := "runtime_revoke_incomplete"
  const PROFILE_MATERIAL_INVALID := "profile_material_invalid"

  type Users = map<RuntimeId, UserId>

  /** A remote call returns normally, or raises after or before it took effect. */
  datatype Outcome = Done | RaisedAfterEffect | RaisedBeforeEffect

  datatype Op =
    | Create(material: Material)
    | Enable(id: ProfileId)
    | Disable(id: ProfileId)
    | Delete(id: ProfileId)
    | Reconcile
  {
    function Subject(): ProfileId
      requires !Reconcile?
    {
      if Create? then material.id else id
    }
  }

  /** What one reconciliation has computed: the desired users, the active ids in listing order, and
      the two differences. */
  datatype Plan = Plan(
    desired: Users,
    active: seq<RuntimeId>,
    extra: seq<RuntimeId>,
    missing: seq<RuntimeId>)

  datatype Pc =
    | CreateInsert
    | CreateGet
    | EnableGet
    | EnableReset
    | ProvisionAdd(rid: RuntimeId, uid: Option<UserId>)
    | ProvisionCommit(rid: RuntimeId)
    | ProvisionLinks(rid: RuntimeId)
    | ProvisionUndo(rid: RuntimeId)
    | DisableGet
    | DisableFromPending
    | DisableCommit
    | Kick(rid: RuntimeId)
    | Remove(rid: RuntimeId, incomplete: bool)
    | Restart(rid: RuntimeId, incomplete: bool)
    | Ready(rid: RuntimeId, incomplete: bool)
    | ListActive(rid: RuntimeId, incomplete: bool)
    | Readd(rid: RuntimeId, incomplete: bool, todo: seq<(RuntimeId, Option<UserId>)>)
    | RecordIncomplete(rid: RuntimeId)
    | DisableResult(rid: RuntimeId)
    | DeleteRow(rid: RuntimeId)
    | Checkpoint(rid: RuntimeId)
    | MarkGet(code: string)
    | MarkSet(code: string, seen: ProfileState)
    | ReconcileList
    | ReconcileUsers(desired: Users, active: seq<RuntimeId>)
    | ReconcileRemove(plan: Plan, left: seq<RuntimeId>)
    | ReconcileRestart(plan: Plan)
    | ReconcileReady(plan: Plan)
    | ReconcileAdd(plan: Plan, left: seq<RuntimeId>)
    | ReconcileDone(success: bool)
    | Finish(returned: bool)

  datatype Core = Core(db: Rows, users: Users, op: Op, pc: Pc)

  /** What the environment answers to the statement that is next. */
  datatype Act =
    | Store(committed: bool, now: int)
    | Listing(order: seq<ProfileId>)
    | Listed(extra: seq<RuntimeId>, missing: seq<RuntimeId>)
    | External(outcome: Outcome)
    | Local(completed: bool)

  // Runtime identifiers the Xray client accepts: "p_" and 26 characters of a-z, 2-7.
  predicate WellFormed(rid: RuntimeId) {
    && |rid| == 28
    && rid[..2] == "p_"
    && forall i | 2 <= i < 28 :: 'a' <= rid[i] <= 'z' || '2' <= rid[i] <= '7'
  }

  /** Exactly what `_runtime_id` can draw: the prefix and 26 letters of the base32 alphabet. */
  lemma WellFormedExactly(rid: RuntimeId)
    ensures WellFormed(rid) <==>
              && "p_" <= rid && |rid| == 28
              && forall c :: c in rid[2..] ==> c in "abcdefghijklmnopqrstuvwxyz234567"
  {
    assert forall c :: c in "abcdefghijklmnopqrstuvwxyz234567" <==> 'a' <= c <= 'z' || '2' <= c <= '7';
    if |rid| == 28 {
      var rest := rid[2..];
      assert forall i :: 2 <= i < 28 ==> rid[i] == rest[i - 2] && rest[i - 2] in rest;
    }
  }

  // The client checks the identifier before it calls, so a malformed one never has an effect.
  predicate Admissible(rid: RuntimeId, outcome: Outcome) {
    WellFormed(rid) || outcome == RaisedBeforeEffect
  }

  function AfterAdd(users: Users, rid: RuntimeId, uid: UserId, outcome: Outcome): Users {
    if outcome.RaisedBeforeEffect? then users else users[rid := uid]
  }

  function AfterRemove(users: Users, rid: RuntimeId, outcome: Outcome): Users {
    if outcome.RaisedBeforeEffect? then users else users - {rid}
  }

  function AfterRestart(users: Users, outcome: Outcome): Users {
    if outcome.RaisedBeforeEffect? then users else map[]
  }

  function ToSet<T>(xs: seq<T>): set<T> {
    set x | x in xs
  }

  // The active records of a listing, in its order.
  function ActiveRecords(db: Rows, order: seq<ProfileId>): seq<(RuntimeId, Option<UserId>)> {
    if order == [] then []
    else
      (if order[0] in db && db[order[0]].state.Active?
       then [(db[order[0]].rid, db[order[0]].uid)] else [])
      + ActiveRecords(db, order[1..])
  }

  // `desired` of one reconciliation; None when some material is unavailable.
  function DesiredUsers(records: seq<(RuntimeId, Option<UserId>)>): Option<Users> {
    if records == [] then Some(map[])
    else
      var rest := DesiredUsers(records[1..]);
      if records[0].1.None? || rest.None? then None
      else Some(map[records[0].0 := records[0].1.value] + rest.value)
  }

  function Ids(records: seq<(RuntimeId, Option<UserId>)>): seq<RuntimeId> {
    seq(|records|, i requires 0 <= i < |records| => records[i].0)
  }

  function Start(op: Op): Pc {
    match op
    case Create(_) => CreateInsert
    case Enable(_) => EnableGet
    case Disable(_) => DisableGet
    case Delete(_) => DisableGet
    case Reconcile => ReconcileList
  }

  // An exception of disable inside delete that is neither a failed revocation nor a missing
  // profile takes delete's own error path.
  function AfterRaise(op: Op, reraised: bool): Pc {
    if op.Delete? && !reraised then MarkGet(PROFILE_MATERIAL_INVALID) else Finish(false)
  }

  function RaiseFromDisable(c: Core, reraised: bool): Core {
    c.(pc := AfterRaise(c.op, reraised))
  }

  function AfterDecision(row: Row): Pc {
    if row.state.Pending? || row.state.Disabled? then ProvisionAdd(row.rid, row.uid) else Finish(false)
  }

  function DecideEnable(c: Core, p: ProfileId): Core {
    c.(pc := if p in c.db then AfterDecision(c.db[p]) else Finish(false))
  }

  function ProvisionStep(c: Core, p: ProfileId, a: Act): Option<Core> {
    if c.pc.CreateInsert? && a.Store? then
      if !a.committed || !c.op.Create? then Some(c.(pc := Finish(false)))
      else
        var inserted := InsertPending(c.db, c.op.material);
        Some(if inserted.Success? then c.(db := inserted.value, pc := CreateGet)
             else c.(pc := Finish(false)))
    else if c.pc.CreateGet? && a.Store? then
      Some(c.(pc := if a.committed && p in c.db
                    then ProvisionAdd(c.db[p].rid, c.db[p].uid) else Finish(false)))
    else if c.pc.EnableGet? && a.Store? then
      Some(if !a.committed || p !in c.db then c.(pc := Finish(false))
           else if c.db[p].state.Error? then c.(pc := EnableReset)
           else DecideEnable(c, p))
    else if c.pc.EnableReset? && a.Store? then
      var reset := SetState(c.db, p, Pending, None, a.now);
      Some(if a.committed && reset.Success? then DecideEnable(c.(db := reset.value), p)
           else c.(pc := Finish(false)))
    else if c.pc.ProvisionAdd? && c.pc.uid.Some? && a.External? && Admissible(c.pc.rid, a.outcome) then
      Some(c.(users := AfterAdd(c.users, c.pc.rid, c.pc.uid.value, a.outcome),
              pc := if a.outcome.Done? then ProvisionCommit(c.pc.rid) else ProvisionUndo(c.pc.rid)))
    else if c.pc.ProvisionAdd? && c.pc.uid.None? && a == Local(false) then
      Some(c.(pc := ProvisionUndo(c.pc.rid)))
    else if c.pc.ProvisionCommit? && a.Store? then
      var active := SetState(c.db, p, Active, None, a.now);
      Some(if a.committed && active.Success? then c.(db := active.value, pc := ProvisionLinks(c.pc.rid))
           else c.(pc := ProvisionUndo(c.pc.rid)))
    else if c.pc.ProvisionLinks? && a.Local? then
      Some(c.(pc := if a.completed then Finish(true) else ProvisionUndo(c.pc.rid)))
    else if c.pc.ProvisionUndo? && a.External? && Admissible(c.pc.rid, a.outcome) then
      Some(c.(users := AfterRemove(c.users, c.pc.rid, a.outcome), pc := MarkGet(XRAY_ADD_FAILED)))
    else None
  }

  // The statement after a re-add.
  function AfterReadd(rid: RuntimeId, incomplete: bool, todo: seq<(RuntimeId, Option<UserId>)>): Pc {
    if todo != [] then Readd(rid, incomplete, todo)
    else if incomplete then RecordIncomplete(rid)
    else DisableResult(rid)
  }

  function NextReadd(c: Core, rid: RuntimeId, incomplete: bool,
                     todo: seq<(RuntimeId, Option<UserId>)>): Core
  {
    c.(pc := AfterReadd(rid, incomplete, todo))
  }

  function DisableStep(c: Core, p: ProfileId, a: Act): Option<Core> {
    if c.pc.DisableGet? && a.Store? then
      Some(if !a.committed then RaiseFromDisable(c, false)
           else if p !in c.db then RaiseFromDisable(c, true)
           else c.(pc := if c.db[p].state.Pending? then DisableFromPending else DisableCommit))
    else if c.pc.DisableFromPending? && a.Store? then
      var failed := SetState(c.db, p, Error, None, a.now);
      Some(if !a.committed then RaiseFromDisable(c, false)
           else if failed.Failure? then RaiseFromDisable(c, failed.error.NotFound?)
           else c.(db := failed.value, pc := DisableCommit))
    else if c.pc.DisableCommit? && a.Store? then
      var disabled := SetState(c.db, p, Disabled, None, a.now);
      Some(if !a.committed then RaiseFromDisable(c, false)
           else if disabled.Failure? then RaiseFromDisable(c, disabled.error.NotFound?)
           else c.(db := disabled.value, pc := Kick(disabled.value[p].rid)))
    else if c.pc.Kick? && a.External? then
      Some(c.(pc := Remove(c.pc.rid, !a.outcome.Done?)))
    else if c.pc.Remove? && a.External? && Admissible(c.pc.rid, a.outcome) then
      Some(c.(users := AfterRemove(c.users, c.pc.rid, a.outcome),
              pc := Restart(c.pc.rid, c.pc.incomplete || !a.outcome.Done?)))
    else if c.pc.Restart? && a.External? then
      Some(c.(users := AfterRestart(c.users, a.outcome),
              pc := Ready(c.pc.rid, c.pc.incomplete || !a.outcome.Done?)))
    else if c.pc.Ready? && a.External? then
      Some(c.(pc := ListActive(c.pc.rid, c.pc.incomplete || !a.outcome.Done?)))
    else if c.pc.ListActive? && a.Listing? && ToSet(a.order) == c.db.Keys then
      Some(NextReadd(c, c.pc.rid, c.pc.incomplete, ActiveRecords(c.db, a.order)))
    else if c.pc.ListActive? && a.Store? && !a.committed then
      Some(RaiseFromDisable(c, false))
    else if c.pc.Readd? && c.pc.todo != [] then
      ReaddStep(c, c.pc.rid, c.pc.incomplete, c.pc.todo[0], c.pc.todo[1..], a)
    else if c.pc.RecordIncomplete? && a.Store? then
      var recorded := SetRuntimeError(c.db, p, RUNTIME_REVOKE_INCOMPLETE);
      Some(if !a.committed then RaiseFromDisable(c, false)
           else if recorded.Failure? then RaiseFromDisable(c, true)
           else c.(db := recorded.value, pc := ReconcileList))
    else if c.pc.DisableResult? && a.Store? then
      Some(if !a.committed then RaiseFromDisable(c, false)
           else if p !in c.db then RaiseFromDisable(c, true)
           else c.(pc := if c.op.Delete? then DeleteRow(c.pc.rid) else Finish(true)))
    else None
  }

  function ReaddStep(c: Core, rid: RuntimeId, incomplete: bool, record: (RuntimeId, Option<UserId>),
                     rest: seq<(RuntimeId, Option<UserId>)>, a: Act): Option<Core>
  {
    if record.1.None? && a == Local(false) then
      Some(NextReadd(c, rid, true, rest))
    else if record.1.Some? && a.External? && Admissible(record.0, a.outcome) then
      Some(NextReadd(c.(users := AfterAdd(c.users, record.0, record.1.value, a.outcome)),
                     rid, incomplete || !a.outcome.Done?, rest))
    else None
  }

  function DeleteStep(c: Core, p: ProfileId, a: Act): Option<Core> {
    if c.pc.DeleteRow? && a.Store? then
      var deleted := DeleteLocal(c.db, p);
      Some(if !a.committed then c.(pc := MarkGet(PROFILE_MATERIAL_INVALID))
           else if deleted.Failure? then c.(pc := Finish(false))
           else c.(db := deleted.value, pc := Checkpoint(c.pc.rid)))
    else if c.pc.Checkpoint? && a.Store? then
      Some(c.(pc := if a.committed then Finish(true) else MarkGet(PROFILE_MATERIAL_INVALID)))
    else None
  }

  // `_mark_error`: every exception is suppressed and reconciliation follows.
  function MarkStep(c: Core, p: ProfileId, a: Act): Option<Core> {
    if c.pc.MarkGet? && a.Store? then
      Some(c.(pc := if a.committed && p in c.db then MarkSet(c.pc.code, c.db[p].state)
                    else ReconcileList))
    else if c.pc.MarkSet? && a.Store? then
      var marked := if c.pc.seen.Disabled? then SetRuntimeError(c.db, p, c.pc.code)
                    else SetState(c.db, p, Error, Some(c.pc.code), a.now);
      Some(if a.committed && marked.Success? then c.(db := marked.value, pc := ReconcileList)
           else c.(pc := ReconcileList))
    else None
  }

  // The statement after an addition, and after a removal.
  function Adding(plan: Plan, left: seq<RuntimeId>): Pc {
    if left != [] then ReconcileAdd(plan, left) else ReconcileDone(true)
  }

  function Removing(plan: Plan, left: seq<RuntimeId>): Pc {
    if left != [] then ReconcileRemove(plan, left)
    else if plan.extra != [] then ReconcileRestart(plan)
    else Adding(plan, plan.missing)
  }

  function NextRemove(c: Core, plan: Plan, left: seq<RuntimeId>): Core {
    c.(pc := Removing(plan, left))
  }

  function NextAdd(c: Core, plan: Plan, left: seq<RuntimeId>): Core {
    c.(pc := Adding(plan, left))
  }

  function ReconcileStep(c: Core, a: Act): Option<Core> {
    if c.pc.ReconcileList? && a.Store? && !a.committed then
      Some(c.(pc := ReconcileDone(false)))
    else if c.pc.ReconcileList? && a.Listing? && ToSet(a.order) == c.db.Keys then
      var records := ActiveRecords(c.db, a.order);
      var desired := DesiredUsers(records);
      Some(c.(pc := if desired.None? then ReconcileDone(false)
                    else ReconcileUsers(desired.value, Ids(records))))
    else if c.pc.ReconcileUsers? && a.External? && !a.outcome.Done? then
      Some(c.(pc := ReconcileDone(false)))
    else if && c.pc.ReconcileUsers? && a.Listed?
            && ToSet(a.extra) == c.users.Keys - c.pc.desired.Keys
            && ToSet(a.missing) == c.pc.desired.Keys - c.users.Keys then
      Some(NextRemove(c, Plan(c.pc.desired, c.pc.active, a.extra, a.missing), a.extra))
    else if && c.pc.ReconcileRemove? && a.External? && c.pc.left != []
            && Admissible(c.pc.left[0], a.outcome) then
      var c' := c.(users := AfterRemove(c.users, c.pc.left[0], a.outcome));
      Some(if a.outcome.Done? then NextRemove(c', c.pc.plan, c.pc.left[1..])
           else c'.(pc := ReconcileDone(false)))
    else if c.pc.ReconcileRestart? && a.External? then
      Some(c.(users := AfterRestart(c.users, a.outcome),
              pc := if a.outcome.Done? then ReconcileReady(c.pc.plan) else ReconcileDone(false)))
    else if c.pc.ReconcileReady? && a.External? then
      Some(if a.outcome.Done? then NextAdd(c, c.pc.plan, c.pc.plan.active)
           else c.(pc := ReconcileDone(false)))
    else if && c.pc.ReconcileAdd? && a.External? && c.pc.left != []
            && c.pc.left[0] in c.pc.plan.desired && Admissible(c.pc.left[0], a.outcome) then
      var c' := c.(users := AfterAdd(c.users, c.pc.left[0], c.pc.plan.desired[c.pc.left[0]], a.outcome));
      Some(if a.outcome.Done? then NextAdd(c', c.pc.plan, c.pc.left[1..])
           else c'.(pc := ReconcileDone(false)))
    else if c.pc.ReconcileDone? && a.Local? then
      // The health snapshot is stored; an operation that reconciled after an error then raises.
      Some(c.(pc := Finish(c.op.Reconcile?)))
    else None
  }

  function Step(c: Core, a: Act): Option<Core> {
    if c.pc.ReconcileList? || c.pc.ReconcileUsers? || c.pc.ReconcileRemove? || c.pc.ReconcileRestart?
       || c.pc.ReconcileReady? || c.pc.ReconcileAdd? || c.pc.ReconcileDone?
    then ReconcileStep(c, a)
    else if c.op.Reconcile? then None
    else if c.pc.CreateInsert? || c.pc.CreateGet? || c.pc.EnableGet? || c.pc.EnableReset?
            || c.pc.ProvisionAdd? || c.pc.ProvisionCommit? || c.pc.ProvisionLinks? || c.pc.ProvisionUndo?
    then ProvisionStep(c, c.op.Subject(), a)
    else if c.pc.MarkGet? || c.pc.MarkSet? then MarkStep(c, c.op.Subject(), a)
    else if c.pc.DeleteRow? || c.pc.Checkpoint? then DeleteStep(c, c.op.Subject(), a)
    else DisableStep(c, c.op.Subject(), a)
  }

  // The Xray child exits on its own and loses its users.
  function ChildExit(c: Core): Core {
    c.(users := map[])
  }
}
