/** Profile rows and the transactions that change them
    (control/src/ezopenpn/profiles/repository.py). */
module ProfileStore {
  import opened Wrappers

  type ProfileId = nat
  type RuntimeId = string
  type UserId = nat

  datatype ProfileState = Pending | Active | Disabled | Error

  /** `uid` is the value `_user_id` decrypts; None when the profile material is unavailable. */
  datatype Row = Row(
    state: ProfileState,
    rid: RuntimeId,
    uid: Option<UserId>,
    error: Option<string>,
    disabledAt: Option<int>)

  type Rows = map<ProfileId, Row>

  datatype Material = Material(id: ProfileId, rid: RuntimeId, uid: Option<UserId>)

  datatype StoreError = NotFound | Conflict | InvalidTransition

  predicate Legal(before: ProfileState, after: ProfileState) {
    match before
    case Pending => after.Active? || after.Error?
    case Error => after.Pending? || after.Disabled?
    case Active => after.Disabled? || after.Error?
    case Disabled => after.Active? || after.Error?
  }

  /** The transition table. */
  lemma LegalTransitions(before: ProfileState, after: ProfileState)
    ensures Legal(before, after) <==>
              (before, after) in {(Pending, Active), (Pending, Error), (Error, Pending), (Error, Disabled),
                                  (Active, Disabled), (Active, Error), (Disabled, Active), (Disabled, Error)}
  {
  }

  function InsertPending(rows: Rows, m: Material): Result<Rows, StoreError> {
    if m.id in rows || (exists p | p in rows :: rows[p].rid == m.rid) then
      Failure(Conflict)
    else
      Success(rows[m.id := Row(Pending, m.rid, m.uid, None, None)])
  }

  function SetState(rows: Rows, p: ProfileId, target: ProfileState, code: Option<string>, now: int)
    : Result<Rows, StoreError>
  {
    if p !in rows then
      Failure(NotFound)
    else if rows[p].state != target && !Legal(rows[p].state, target) then
      Failure(InvalidTransition)
    else
      Success(rows[p := rows[p].(
        state := target,
        error := if target.Error? then code else None,
        disabledAt := if target.Disabled? then Some(now) else None)])
  }

  function SetRuntimeError(rows: Rows, p: ProfileId, code: string): Result<Rows, StoreError> {
    if p !in rows then Failure(NotFound) else Success(rows[p := rows[p].(error := Some(code))])
  }

  function DeleteLocal(rows: Rows, p: ProfileId): Result<Rows, StoreError> {
    if p !in rows then Failure(NotFound) else Success(rows - {p})
  }

  /** The shape every transaction keeps: runtime ids are unique, `disabledAt` is set exactly in
      DISABLED, and an error code is stored only in ERROR or DISABLED. */
  ghost predicate WellKept(rows: Rows) {
    && (forall p, q :: p in rows && q in rows && rows[p].rid == rows[q].rid ==> p == q)
    && (forall p :: p in rows ==>
          && (rows[p].disabledAt.Some? <==> rows[p].state.Disabled?)
          && (rows[p].error.Some? ==> rows[p].state.Error? || rows[p].state.Disabled?))
  }

  ghost predicate ActiveId(rows: Rows, rid: RuntimeId) {
    exists p :: p in rows && rows[p].state.Active? && rows[p].rid == rid
  }

  ghost predicate ActiveUser(rows: Rows, rid: RuntimeId, uid: UserId) {
    exists p :: p in rows && rows[p].state.Active? && rows[p].rid == rid && rows[p].uid == Some(uid)
  }
}
