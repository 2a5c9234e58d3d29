/** Panel sessions (control/src/ezopenpn/security/sessions.py) and the password reset that ends them
    (control/src/ezopenpn/security/admin.py). Times are integers. A session's token digest is unique
    and doubles as its id. */
module AdminSessions {
  import opened Arithmetic
  import opened Wrappers

  type Digest = nat

  type AdminId = nat

  datatype Admin = Admin(id: AdminId, version: nat)

  datatype Session = Session(
    admin: AdminId,
    version: nat,
    createdAt: int,
    lastSeenAt: int,
    idleExpiresAt: int,
    absoluteExpiresAt: int,
    revokedAt: Option<int>)

  type Sessions = map<Digest, Session>

  datatype Panel = Panel(admin: Option<Admin>, sessions: Sessions)

  datatype Policy = Policy(idle: int, absolute: int)

  function Revoked(s: Session, now: int): Session {
    if s.revokedAt.None? then s.(revokedAt := Some(now)) else s
  }

  function Grant(policy: Policy, admin: Admin, now: int): Session {
    var absolute := now + policy.absolute;
    Session(admin.id, admin.version, now, now, Min(now + policy.idle, absolute), absolute, None)
  }

  predicate Usable(s: Session, admin: Option<Admin>, now: int) {
    && admin.Some? && admin.value.id == s.admin && admin.value.version == s.version
    && s.revokedAt.None? && now < s.idleExpiresAt && now < s.absoluteExpiresAt
  }

  function Touched(policy: Policy, s: Session, now: int): Session {
    s.(lastSeenAt := now, idleExpiresAt := Min(now + policy.idle, s.absoluteExpiresAt))
  }

  /** One transaction of the two services. `Reset` carries whether the new password is acceptable. */
  datatype Event =
    | Create(digest: Digest, admin: AdminId, now: int)
    | Authenticate(digest: Digest, now: int)
    | Revoke(digest: Digest, now: int)
    | Reset(acceptable: bool, now: int)

  // Whether the transaction does what it is asked for.
  predicate Succeeds(panel: Panel, e: Event) {
    match e
    case Create(d, admin, now) =>
      panel.admin.Some? && panel.admin.value.id == admin && d !in panel.sessions
    case Authenticate(d, now) =>
      d in panel.sessions && Usable(panel.sessions[d], panel.admin, now)
    case Revoke(d, now) => d in panel.sessions && panel.sessions[d].revokedAt.None?
    case Reset(acceptable, now) => panel.admin.Some? && acceptable
  }

  function After(policy: Policy, panel: Panel, e: Event): Panel {
    match e
    case Create(d, admin, now) =>
      if Succeeds(panel, e) then
        panel.(sessions := panel.sessions[d := Grant(policy, panel.admin.value, now)])
      else panel
    case Authenticate(d, now) =>
      if d !in panel.sessions then panel
      else panel.(sessions := panel.sessions[d :=
             if Succeeds(panel, e) then Touched(policy, panel.sessions[d], now)
             else Revoked(panel.sessions[d], now)])
    case Revoke(d, now) =>
      if d in panel.sessions then
        panel.(sessions := panel.sessions[d := Revoked(panel.sessions[d], now)])
      else panel
    case Reset(acceptable, now) =>
      if Succeeds(panel, e) then
        Panel(Some(panel.admin.value.(version := panel.admin.value.version + 1)),
              RevokeAll(panel.sessions, panel.admin.value.id, now))
      else panel
  }

  function RevokeAll(sessions: Sessions, admin: AdminId, now: int): Sessions {
    map d | d in sessions :: if sessions[d].admin == admin then Revoked(sessions[d], now) else sessions[d]
  }

  predicate TokenText(raw: string) {
    1 <= |raw| <= 128 && forall c | c in raw :: c < 128 as char
  }

  // What `_token` issues: the base64url text of 32 bytes without padding.
  predicate IssuedText(raw: string) {
    |raw| == 43 && forall c | c in raw :: 'A' <= c <= 'Z' || 'a' <= c <= 'z' || '0' <= c <= '9' || c == '-' || c == '_'
  }

  /** The text range of `authenticate` shuts out no token that was issued. */
  lemma IssuedIsTokenText(raw: string)
    requires IssuedText(raw)
    ensures TokenText(raw)
  {
  }

  // The row of a session that is granted.
  ghost predicate Fresh(policy: Policy, admin: Admin, s: Session, now: int) {
    && s.admin == admin.id && s.version == admin.version && s.revokedAt.None?
    && s.createdAt == s.lastSeenAt == now
    && s.absoluteExpiresAt == now + policy.absolute
    && s.idleExpiresAt == if policy.idle <= policy.absolute then now + policy.idle else now + policy.absolute
  }

  // The row can still be used at that time.
  ghost predicate Alive(admin: Option<Admin>, s: Session, now: int) {
    && s.revokedAt.None? && now < s.idleExpiresAt && now < s.absoluteExpiresAt
    && admin == Some(Admin(s.admin, s.version))
  }

  /** The two services over one database. */
  class SessionService {
    const policy: Policy
    const digest: string -> Digest
    var admin: Option<Admin>
    var sessions: Sessions

    constructor (policy: Policy, digest: string -> Digest, admin: Admin)
      requires 0 < policy.idle <= policy.absolute
      ensures this.policy == policy && this.digest == digest
      ensures State() == Panel(Some(admin), map[])
    {
      this.policy, this.digest, this.admin, sessions := policy, digest, Some(admin), map[];
    }

    function State(): Panel
      reads this
    {
      Panel(admin, sessions)
    }

    /** Creates a session for the administrator, unless there is none of that id or the digest is taken. */
    method Create(raw: string, id: AdminId, now: int) returns (created: bool)
      requires IssuedText(raw)
      modifies this`sessions
      ensures var e := Event.Create(digest(raw), id, now);
              created == Succeeds(old(State()), e) && State() == After(policy, old(State()), e)
      ensures created <==> admin.Some? && admin.value.id == id && digest(raw) !in old(sessions)
      ensures created ==>
                && digest(raw) in sessions && sessions == old(sessions)[digest(raw) := sessions[digest(raw)]]
                && Fresh(policy, admin.value, sessions[digest(raw)], now)
      ensures !created ==> sessions == old(sessions)
    {
      var d := digest(raw);
      if admin.None? || admin.value.id != id { return false; }
      if d in sessions { return false; }
      sessions := sessions[d := Grant(policy, admin.value, now)];
      return true;
    }

    /** Accepts a token exactly when its session is alive, and then counts the idle time anew; a session
        that is refused is revoked. A token outside the accepted text range is refused without a look at
        the database. */
    method Authenticate(raw: string, now: int) returns (accepted: bool)
      modifies this`sessions
      ensures var e := Event.Authenticate(digest(raw), now);
              if TokenText(raw) then
                accepted == Succeeds(old(State()), e) && State() == After(policy, old(State()), e)
              else
                !accepted && State() == old(State())
      ensures accepted <==>
                TokenText(raw) && digest(raw) in old(sessions) && Alive(admin, old(sessions)[digest(raw)], now)
      ensures TokenText(raw) && digest(raw) in old(sessions) ==>
                var before := old(sessions)[digest(raw)];
                sessions == old(sessions)[digest(raw) :=
                  if accepted then
                    before.(lastSeenAt := now,
                            idleExpiresAt := if now + policy.idle <= before.absoluteExpiresAt then now + policy.idle
                                             else before.absoluteExpiresAt)
                  else if before.revokedAt.Some? then before else before.(revokedAt := Some(now))]
      ensures digest(raw) !in old(sessions) ==> sessions == old(sessions)
    {
      if !TokenText(raw) { return false; }
      var d := digest(raw);
      if d !in sessions { return false; }
      var stored := sessions[d];
      if admin.None? || admin.value.id != stored.admin {
        sessions := sessions[d := Revoked(stored, now)];
        return false;
      }
      var expired := stored.revokedAt.Some? || stored.idleExpiresAt <= now
                     || stored.absoluteExpiresAt <= now || stored.version != admin.value.version;
      if expired {
        sessions := sessions[d := Revoked(stored, now)];
        return false;
      }
      sessions := sessions[d := Touched(policy, stored, now)];
      return true;
    }

    method Revoke(d: Digest, now: int)
      modifies this`sessions
      ensures State() == After(policy, old(State()), Event.Revoke(d, now))
      ensures sessions.Keys == old(sessions).Keys
      ensures forall k :: k in sessions && k != d ==> sessions[k] == old(sessions)[k]
      ensures d in sessions ==>
                sessions[d] == old(sessions)[d].(revokedAt := if old(sessions)[d].revokedAt.Some?
                                                              then old(sessions)[d].revokedAt else Some(now))
    {
      if d in sessions && sessions[d].revokedAt.None? {
        sessions := sessions[d := sessions[d].(revokedAt := Some(now))];
      }
    }

    /** Raises the version and revokes every session of the administrator that is not revoked yet. */
    method ResetPassword(acceptable: bool, now: int) returns (reset: bool)
      modifies this`admin, this`sessions
      ensures reset <==> old(admin).Some? && acceptable
      ensures !reset ==> admin == old(admin) && sessions == old(sessions)
      ensures reset ==> admin == Some(Admin(old(admin).value.id, old(admin).value.version + 1))
      ensures reset ==> sessions.Keys == old(sessions).Keys
      ensures reset ==>
                forall k :: k in sessions ==>
                  sessions[k] == if old(sessions)[k].admin == old(admin).value.id && old(sessions)[k].revokedAt.None?
                                 then old(sessions)[k].(revokedAt := Some(now)) else old(sessions)[k]
      ensures var e := Event.Reset(acceptable, now);
              reset == Succeeds(old(State()), e) && State() == After(policy, old(State()), e)
    {
      if admin.None? || !acceptable { return false; }
      admin := Some(admin.value.(version := admin.value.version + 1));
      sessions := RevokeAll(sessions, admin.value.id, now);
      return true;
    }
  }

  // ---- what a history of transactions means for one session ----

  ghost function PanelAt(policy: Policy, first: Panel, events: seq<Event>, i: nat): Panel
    requires i <= |events|
  {
    if i == 0 then first
    else After(policy, PanelAt(policy, first, events, i - 1), events[i - 1])
  }

  datatype History = History(policy: Policy, first: Panel, events: seq<Event>)

  ghost function At(h: History, i: nat): Panel
    requires i <= |h.events|
  {
    PanelAt(h.policy, h.first, h.events, i)
  }

  // The event that ends session `d`: a revocation, a password reset, or a refused attempt.
  ghost predicate Ends(h: History, d: Digest, i: int)
    requires 0 <= i < |h.events|
  {
    var e := h.events[i];
    || (e.Revoke? && e.digest == d)
    || (e.Reset? && e.acceptable && At(h, i).admin.Some?)
    || (e.Authenticate? && e.digest == d && !Succeeds(At(h, i), e))
  }

  ghost predicate Opens(h: History, d: Digest, i: int)
    requires 0 <= i < |h.events|
  {
    h.events[i].Create? && h.events[i].digest == d && Succeeds(At(h, i), h.events[i])
  }

  // When session `d`, created by event `c`, last showed itself successfully before event `i`.
  ghost function LastSuccess(h: History, d: Digest, c: nat, i: nat): int
    requires c < i <= |h.events|
  {
    if i == c + 1 then h.events[c].now
    else
      var e := h.events[i - 1];
      if e.Authenticate? && e.digest == d && Succeeds(At(h, i - 1), e) then e.now
      else LastSuccess(h, d, c, i - 1)
  }

  ghost predicate Ended(h: History, d: Digest, c: nat, i: nat)
    requires i <= |h.events|
  {
    exists m :: c < m < i && Ends(h, d, m)
  }

  // What the stored row of session `d` says about its history.
  ghost predicate Summarizes(h: History, d: Digest, c: nat, i: nat)
    requires c < i <= |h.events|
  {
    var panel := At(h, i);
    && panel.admin.Some? && d in panel.sessions
    && var s := panel.sessions[d];
       && panel.admin.value.id == s.admin
       && s.absoluteExpiresAt == h.events[c].now + h.policy.absolute
       && (s.revokedAt.Some? <==> Ended(h, d, c, i))
       && (s.revokedAt.None? ==>
             && s.version == panel.admin.value.version
             && s.idleExpiresAt == Min(LastSuccess(h, d, c, i) + h.policy.idle, s.absoluteExpiresAt))
  }

  // One event, for a session that is there already.
  lemma EventKeepsSummary(h: History, d: Digest, c: nat, i: nat)
    requires c < i < |h.events| && Summarizes(h, d, c, i)
    ensures Summarizes(h, d, c, i + 1)
  {
    var e := h.events[i];
    assert Ended(h, d, c, i + 1) <==> Ended(h, d, c, i) || Ends(h, d, i);
    match e {
      case Create(_, _, _) =>
      case Authenticate(_, _) =>
      case Revoke(_, _) =>
      case Reset(_, _) =>
    }
  }

  lemma {:induction false} RowSummarizesHistory(h: History, d: Digest, c: nat, i: nat)
    requires c < i <= |h.events| && Opens(h, d, c)
    ensures Summarizes(h, d, c, i)
  {
    if i > c + 1 {
      RowSummarizesHistory(h, d, c, i - 1);
      EventKeepsSummary(h, d, c, i - 1);
    }
  }

  /** A session is accepted if and only if since its creation it was not revoked, the password was not
      reset and no attempt was refused, and both the absolute lifetime and the idle time since the last
      success have not run out. */
  lemma AcceptedExactly(h: History, d: Digest, c: nat, i: nat)
    requires c < i < |h.events| && Opens(h, d, c)
    requires h.events[i].Authenticate? && h.events[i].digest == d
    ensures Succeeds(At(h, i), h.events[i]) <==>
              && (forall m :: c < m < i ==> !Ends(h, d, m))
              && h.events[i].now < h.events[c].now + h.policy.absolute
              && h.events[i].now < LastSuccess(h, d, c, i) + h.policy.idle
  {
    RowSummarizesHistory(h, d, c, i);
  }

  /** A refusal is final, whatever the clock says later. */
  lemma RefusedForGood(h: History, d: Digest, c: nat, i: nat, j: nat)
    requires c < i < j < |h.events| && Opens(h, d, c)
    requires h.events[i].Authenticate? && h.events[i].digest == d
    requires h.events[j].Authenticate? && h.events[j].digest == d
    requires !Succeeds(At(h, i), h.events[i])
    ensures !Succeeds(At(h, j), h.events[j])
  {
    AcceptedExactly(h, d, c, j);
    assert Ends(h, d, i);
  }
}
