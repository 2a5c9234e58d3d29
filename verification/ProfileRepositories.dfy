/** The repository as an object whose transactions change rows in place, with the digest lookup table
    (control/src/ezopenpn/profiles/repository.py, control/src/ezopenpn/profiles/service.py). */
module ProfileRepositories {
  import opened Wrappers
  import opened ProfileStore
  import opened ProfileProtocol
  import ProfileInvariants

  type Digest = nat

  datatype LookupKind = Subscription | HysteriaAuth

  datatype Lookup = Lookup(profile: ProfileId, kind: LookupKind)

  /** The subscription token and the Hysteria secret a profile was created with. */
  datatype Secrets = Secrets(token: string, hysteria: string)

  const HYSTERIA_LOOKUP_PREFIX := "ezopenpn/hysteria-auth/v1:"

  // Unavailable is any failure of the store itself.
  datatype Denial = Unavailable | Refused(reason: StoreError)

  // Whether the transaction got as far as deciding.
  predicate Decided<T>(r: Result<T, Denial>) {
    r.Success? || r.error.Refused?
  }

  /** The database behind the repository, and the clock: `failures` counts the transactions that raised
      for reasons of their own. */
  class Database {
    var failures: nat
    var clock: int

    constructor () {
      failures, clock := 0, 0;
    }

    // Whether a transaction raises is not this program's choice.
    method Fails() returns (fails: bool)
      modifies this`failures
      ensures failures == old(failures) + if fails then 1 else 0
    {
      fails := *;
      if fails { failures := failures + 1; }
    }

    method Now() returns (now: int)
      modifies this`clock
      ensures now == clock >= old(clock)
    {
      var passed: int := *;
      if passed > 0 { clock := clock + passed; }
      now := clock;
    }
  }

  ghost predicate Injective(digest: string -> Digest) {
    forall a, b :: digest(a) == digest(b) ==> a == b
  }

  predicate Ascii(s: string) {
    forall c | c in s :: c < 128 as char
  }

  // What base64url text of 32 bytes looks like, as far as lookups are concerned.
  predicate UrlToken(s: string) {
    |s| == 43 && Ascii(s)
  }

  /** The cipher's lookup digest, and the prefix that separates Hysteria values from tokens. */
  datatype Hashing = Hashing(digest: string -> Digest, prefix: string)

  function SubscriptionDigest(h: Hashing, s: Secrets): Digest {
    h.digest(s.token)
  }

  function HysteriaDigest(h: Hashing, s: Secrets): Digest {
    h.digest(h.prefix + s.hysteria)
  }

  ghost predicate HasLookups(h: Hashing, own: map<ProfileId, Secrets>, lookups: map<Digest, Lookup>,
                             p: ProfileId)
    requires p in own
  {
    && UrlToken(own[p].token) && UrlToken(own[p].hysteria)
    && SubscriptionDigest(h, own[p]) in lookups
    && lookups[SubscriptionDigest(h, own[p])] == Lookup(p, Subscription)
    && HysteriaDigest(h, own[p]) in lookups
    && lookups[HysteriaDigest(h, own[p])] == Lookup(p, HysteriaAuth)
  }

  ghost predicate Belongs(h: Hashing, own: map<ProfileId, Secrets>, lookups: map<Digest, Lookup>,
                          d: Digest)
    requires d in lookups
  {
    && lookups[d].profile in own
    && d == if lookups[d].kind.Subscription? then SubscriptionDigest(h, own[lookups[d].profile])
            else HysteriaDigest(h, own[lookups[d].profile])
  }

  // Each profile has exactly the two lookup rows of its own secrets, and there are no others.
  ghost predicate LookupsFit(h: Hashing, own: map<ProfileId, Secrets>, lookups: map<Digest, Lookup>) {
    && (forall p {:trigger HasLookups(h, own, lookups, p)} :: p in own ==> HasLookups(h, own, lookups, p))
    && (forall d {:trigger Belongs(h, own, lookups, d)} :: d in lookups ==> Belongs(h, own, lookups, d))
  }

  function Inserted(h: Hashing, lookups: map<Digest, Lookup>, p: ProfileId, s: Secrets)
    : map<Digest, Lookup>
  {
    lookups[SubscriptionDigest(h, s) := Lookup(p, Subscription)]
           [HysteriaDigest(h, s) := Lookup(p, HysteriaAuth)]
  }

  function Without(lookups: map<Digest, Lookup>, p: ProfileId): map<Digest, Lookup> {
    map d | d in lookups && lookups[d].profile != p :: lookups[d]
  }

  lemma InsertKeepsLookups(h: Hashing, own: map<ProfileId, Secrets>,
                           lookups: map<Digest, Lookup>, p: ProfileId, s: Secrets)
    requires LookupsFit(h, own, lookups) && p !in own
    requires UrlToken(s.token) && UrlToken(s.hysteria)
    requires SubscriptionDigest(h, s) !in lookups && HysteriaDigest(h, s) !in lookups
    requires SubscriptionDigest(h, s) != HysteriaDigest(h, s)
    ensures LookupsFit(h, own[p := s], Inserted(h, lookups, p, s))
  {
    var own', lookups' := own[p := s], Inserted(h, lookups, p, s);
    forall q | q in own' ensures HasLookups(h, own', lookups', q) {
      if q != p { assert HasLookups(h, own, lookups, q); }
    }
    forall d | d in lookups' ensures Belongs(h, own', lookups', d) {
      if d in lookups { assert Belongs(h, own, lookups, d); }
    }
  }

  lemma DeleteKeepsLookups(h: Hashing, own: map<ProfileId, Secrets>,
                           lookups: map<Digest, Lookup>, p: ProfileId)
    requires LookupsFit(h, own, lookups)
    ensures LookupsFit(h, own - {p}, Without(lookups, p))
  {
    var own', lookups' := own - {p}, Without(lookups, p);
    forall q | q in own' ensures HasLookups(h, own', lookups', q) {
      assert HasLookups(h, own, lookups, q);
    }
    forall d | d in lookups' ensures Belongs(h, own', lookups', d) {
      assert Belongs(h, own, lookups, d);
    }
  }

  lemma PrefixCancels(prefix: string, a: string, b: string)
    ensures prefix + a == prefix + b ==> a == b
  {
    assert (prefix + a)[|prefix|..] == a;
    assert (prefix + b)[|prefix|..] == b;
  }

  // The state of the repository is sound.
  ghost predicate Fits(h: Hashing, rows: Rows, own: map<ProfileId, Secrets>,
                       lookups: map<Digest, Lookup>)
  {
    && Injective(h.digest)
    && WellKept(rows)
    && own.Keys == rows.Keys
    && LookupsFit(h, own, lookups)
  }

  lemma SetStateKeepsFit(h: Hashing, rows: Rows, own: map<ProfileId, Secrets>,
                         lookups: map<Digest, Lookup>, p: ProfileId, target: ProfileState,
                         code: Option<string>, now: int)
    requires Fits(h, rows, own, lookups)
    requires ProfileStore.SetState(rows, p, target, code, now).Success?
    ensures Fits(h, ProfileStore.SetState(rows, p, target, code, now).value, own, lookups)
  {
    ProfileInvariants.SetStateKeepsRows(rows, p, target, code, now);
  }

  lemma SetRuntimeErrorKeepsFit(h: Hashing, rows: Rows, own: map<ProfileId, Secrets>,
                                lookups: map<Digest, Lookup>, p: ProfileId, code: string)
    requires Fits(h, rows, own, lookups) && p in rows && rows[p].state.Disabled?
    ensures Fits(h, ProfileStore.SetRuntimeError(rows, p, code).value, own, lookups)
  {
    ProfileInvariants.SetRuntimeErrorKeepsRows(rows, p, code);
  }

  lemma InsertKeepsRows(rows: Rows, m: Material)
    requires WellKept(rows) && ProfileStore.InsertPending(rows, m).Success?
    ensures m.id !in rows && WellKept(ProfileStore.InsertPending(rows, m).value)
  {
  }

  lemma InsertKeepsFit(h: Hashing, rows: Rows, own: map<ProfileId, Secrets>,
                       lookups: map<Digest, Lookup>, m: Material, s: Secrets)
    requires Fits(h, rows, own, lookups) && ProfileStore.InsertPending(rows, m).Success?
    requires UrlToken(s.token) && UrlToken(s.hysteria)
    requires SubscriptionDigest(h, s) !in lookups && HysteriaDigest(h, s) !in lookups
    requires SubscriptionDigest(h, s) != HysteriaDigest(h, s)
    ensures Fits(h, ProfileStore.InsertPending(rows, m).value, own[m.id := s], Inserted(h, lookups, m.id, s))
  {
    InsertKeepsRows(rows, m);
    InsertKeepsLookups(h, own, lookups, m.id, s);
  }

  lemma DeleteKeepsRows(rows: Rows, p: ProfileId)
    requires WellKept(rows)
    ensures WellKept(rows - {p})
  {
  }

  lemma DeleteKeepsFit(h: Hashing, rows: Rows, own: map<ProfileId, Secrets>,
                       lookups: map<Digest, Lookup>, p: ProfileId)
    requires Fits(h, rows, own, lookups)
    ensures Fits(h, rows - {p}, own - {p}, Without(lookups, p))
  {
    DeleteKeepsRows(rows, p);
    DeleteKeepsLookups(h, own, lookups, p);
  }

  // A linear scan over the profiles and the digest lookup agree.
  lemma SubscriptionLookupExact(h: Hashing, own: map<ProfileId, Secrets>, lookups: map<Digest, Lookup>,
                                token: string, p: ProfileId)
    requires Injective(h.digest) && LookupsFit(h, own, lookups)
    ensures p in own && own[p].token == token <==>
              && h.digest(token) in lookups
              && lookups[h.digest(token)] == Lookup(p, Subscription)
  {
    var d := h.digest(token);
    assert d in lookups ==> Belongs(h, own, lookups, d);
    assert p in own ==> HasLookups(h, own, lookups, p);
  }

  lemma HysteriaLookupExact(h: Hashing, own: map<ProfileId, Secrets>, lookups: map<Digest, Lookup>,
                            presented: string, p: ProfileId)
    requires Injective(h.digest) && LookupsFit(h, own, lookups)
    ensures p in own && own[p].hysteria == presented <==>
              && h.digest(h.prefix + presented) in lookups
              && lookups[h.digest(h.prefix + presented)] == Lookup(p, HysteriaAuth)
  {
    var d := h.digest(h.prefix + presented);
    assert d in lookups ==> Belongs(h, own, lookups, d);
    if p in own {
      assert HasLookups(h, own, lookups, p);
      PrefixCancels(h.prefix, presented, own[p].hysteria);
    }
  }

  lemma OwnSecrets(h: Hashing, own: map<ProfileId, Secrets>, lookups: map<Digest, Lookup>)
    requires LookupsFit(h, own, lookups)
    ensures forall p :: p in own ==> UrlToken(own[p].token) && UrlToken(own[p].hysteria)
  {
    forall p | p in own ensures UrlToken(own[p].token) && UrlToken(own[p].hysteria) {
      assert HasLookups(h, own, lookups, p);
    }
  }

  lemma SubscriptionsExact(h: Hashing, own: map<ProfileId, Secrets>, lookups: map<Digest, Lookup>, token: string)
    requires Injective(h.digest) && LookupsFit(h, own, lookups)
    ensures forall p :: p in own && own[p].token == token <==>
              h.digest(token) in lookups && lookups[h.digest(token)] == Lookup(p, Subscription)
  {
    forall p ensures p in own && own[p].token == token <==>
                       h.digest(token) in lookups && lookups[h.digest(token)] == Lookup(p, Subscription)
    {
      SubscriptionLookupExact(h, own, lookups, token, p);
    }
  }

  lemma HysteriasExact(h: Hashing, own: map<ProfileId, Secrets>, lookups: map<Digest, Lookup>, presented: string)
    requires Injective(h.digest) && LookupsFit(h, own, lookups)
    ensures forall p :: p in own && own[p].hysteria == presented <==>
              && h.digest(h.prefix + presented) in lookups
              && lookups[h.digest(h.prefix + presented)] == Lookup(p, HysteriaAuth)
  {
    forall p ensures p in own && own[p].hysteria == presented <==>
                       && h.digest(h.prefix + presented) in lookups
                       && lookups[h.digest(h.prefix + presented)] == Lookup(p, HysteriaAuth)
    {
      HysteriaLookupExact(h, own, lookups, presented, p);
    }
  }

  // Neither digest is taken exactly when neither secret is: a token is shorter than a prefixed secret.
  lemma UnusedExact(h: Hashing, own: map<ProfileId, Secrets>, lookups: map<Digest, Lookup>, token: string,
                    hysteria: string)
    requires Injective(h.digest) && LookupsFit(h, own, lookups) && h.prefix != ""
    requires UrlToken(token) && UrlToken(hysteria)
    ensures (&& h.digest(token) !in lookups && h.digest(h.prefix + hysteria) !in lookups
             && h.digest(token) != h.digest(h.prefix + hysteria))
            <==> forall p :: p in own ==> own[p].token != token && own[p].hysteria != hysteria
  {
    assert |h.prefix + hysteria| > 43;
    forall p ensures p in own && own[p].token == token ==> h.digest(token) in lookups {
      SubscriptionLookupExact(h, own, lookups, token, p);
    }
    forall p ensures p in own && own[p].hysteria == hysteria ==> h.digest(h.prefix + hysteria) in lookups {
      HysteriaLookupExact(h, own, lookups, hysteria, p);
    }
    if h.digest(token) in lookups { TakenToken(h, own, lookups, token); }
    if h.digest(h.prefix + hysteria) in lookups { TakenSecret(h, own, lookups, hysteria); }
  }

  lemma TakenToken(h: Hashing, own: map<ProfileId, Secrets>, lookups: map<Digest, Lookup>, token: string)
    requires Injective(h.digest) && LookupsFit(h, own, lookups) && h.prefix != ""
    requires UrlToken(token) && h.digest(token) in lookups
    ensures exists p :: p in own && own[p].token == token
  {
    var found := lookups[h.digest(token)];
    assert Belongs(h, own, lookups, h.digest(token));
    assert HasLookups(h, own, lookups, found.profile);
    assert |h.prefix + own[found.profile].hysteria| > 43;
  }

  lemma TakenSecret(h: Hashing, own: map<ProfileId, Secrets>, lookups: map<Digest, Lookup>, hysteria: string)
    requires Injective(h.digest) && LookupsFit(h, own, lookups) && h.prefix != ""
    requires UrlToken(hysteria) && h.digest(h.prefix + hysteria) in lookups
    ensures exists p :: p in own && own[p].hysteria == hysteria
  {
    var found := lookups[h.digest(h.prefix + hysteria)];
    assert Belongs(h, own, lookups, h.digest(h.prefix + hysteria));
    assert HasLookups(h, own, lookups, found.profile);
    PrefixCancels(h.prefix, hysteria, own[found.profile].hysteria);
    assert |h.prefix + hysteria| > 43;
  }

  class ProfileRepository {
    var rows: Rows
    var lookups: map<Digest, Lookup>
    ghost var own: map<ProfileId, Secrets>
    const h: Hashing
    const database: Database

    constructor (digest: string -> Digest)
      requires Injective(digest)
      ensures Valid() && rows == map[] && h == Hashing(digest, HYSTERIA_LOOKUP_PREFIX) && fresh(database)
    {
      database := new Database();
      h := Hashing(digest, HYSTERIA_LOOKUP_PREFIX);
      rows, lookups, own := map[], map[], map[];
    }

    ghost predicate Valid()
      reads this
    {
      Fits(h, rows, own, lookups) && h.prefix == HYSTERIA_LOOKUP_PREFIX
    }

    // No stored profile has one of the two secrets.
    ghost predicate Unused(token: string, hysteria: string)
      reads this
    {
      forall p :: p in own ==> own[p].token != token && own[p].hysteria != hysteria
    }

    /** A token finds a profile iff it is that profile's own. */
    function FindBySubscriptionToken(token: string): (found: Option<ProfileId>)
      requires Valid()
      reads this
      ensures forall p :: found == Some(p) <==> p in rows && own[p].token == token
    {
      OwnSecrets(h, own, lookups);
      if !(1 <= |token| <= 128) || !Ascii(token) then None
      else
        var d := h.digest(token);
        SubscriptionsExact(h, own, lookups, token);
        if d in lookups && lookups[d].kind.Subscription? then Some(lookups[d].profile) else None
    }

    /** A secret finds a profile iff it is that profile's own. */
    function FindByHysteriaSecret(presented: string): (found: Option<ProfileId>)
      requires Valid()
      reads this
      ensures forall p :: found == Some(p) <==> p in rows && own[p].hysteria == presented
    {
      OwnSecrets(h, own, lookups);
      if !(1 <= |presented| <= 512) || !Ascii(presented) then None
      else
        var d := h.digest(h.prefix + presented);
        HysteriasExact(h, own, lookups, presented);
        if d in lookups && lookups[d].kind.HysteriaAuth? then
          Some(lookups[d].profile)
        else None
    }

    /** The decision of the Hysteria authentication route: access exactly for the secret of an ACTIVE
        profile, answered with that profile's runtime id. */
    function AuthorizeHysteria(presented: string): (granted: Option<RuntimeId>)
      requires Valid()
      reads this
      ensures granted.Some? <==>
                exists p :: p in rows && own[p].hysteria == presented && rows[p].state.Active?
      ensures forall p :: p in rows && own[p].hysteria == presented && granted.Some? ==>
                granted.value == rows[p].rid
    {
      var found := FindByHysteriaSecret(presented);
      assert forall p :: p in rows && own[p].hysteria == presented ==> found == Some(p);
      if found.Some? && rows[found.value].state.Active? then Some(rows[found.value].rid) else None
    }

    /** The state check of a subscription read. */
    function SubscriptionProfile(token: string): (granted: Option<ProfileId>)
      requires Valid()
      reads this
      ensures forall p :: granted == Some(p) <==>
                p in rows && own[p].token == token && rows[p].state.Active?
    {
      var found := FindBySubscriptionToken(token);
      if found.Some? && rows[found.value].state.Active? then found else None
    }

    /** Inserts the profile row and both lookup rows, or nothing: a conflict is an id, a runtime id or a
        secret that is taken. */
    method InsertPending(m: Material, token: string, hysteria: string)
      returns (r: Result<(), Denial>)
      requires Valid() && UrlToken(token) && UrlToken(hysteria)
      modifies this, database`failures
      ensures Valid()
      ensures database.failures == old(database.failures) + if Decided(r) then 0 else 1
      ensures r.Success? ==>
                && m.id !in old(rows) && old(Unused(token, hysteria))
                && ProfileStore.InsertPending(old(rows), m) == Success(rows)
                && own == old(own)[m.id := Secrets(token, hysteria)]
                && lookups == Inserted(h, old(lookups), m.id, Secrets(token, hysteria))
      ensures r.Failure? ==> unchanged(this)
      ensures r.Failure? && r.error.Refused? ==>
                r.error.reason.Conflict? && (ProfileStore.InsertPending(rows, m).Failure? || !Unused(token, hysteria))
    {
      UnusedExact(h, own, lookups, token, hysteria);
      var fails := database.Fails();
      if fails { return Failure(Unavailable); }
      var inserted := ProfileStore.InsertPending(rows, m);
      var sub, auth := h.digest(token), h.digest(h.prefix + hysteria);
      if inserted.Failure? || sub in lookups || auth in lookups || sub == auth {
        return Failure(Refused(Conflict));
      }
      InsertKeepsFit(h, rows, own, lookups, m, Secrets(token, hysteria));
      rows := inserted.value;
      lookups := lookups[sub := Lookup(m.id, Subscription)][auth := Lookup(m.id, HysteriaAuth)];
      own := own[m.id := Secrets(token, hysteria)];
      assert Fits(h, rows, own, lookups);
      return Success(());
    }

    method Get(p: ProfileId) returns (r: Result<Row, Denial>)
      requires Valid()
      modifies database`failures
      ensures database.failures == old(database.failures) + if Decided(r) then 0 else 1
      ensures r.Success? ==> p in rows && r.value == rows[p]
      ensures r.Failure? && r.error.Refused? ==> p !in rows && r.error.reason.NotFound?
    {
      var fails := database.Fails();
      if fails { return Failure(Unavailable); }
      if p !in rows { return Failure(Refused(NotFound)); }
      return Success(rows[p]);
    }

    // Some listing of all profiles.
    method List() returns (r: Option<seq<ProfileId>>)
      requires Valid()
      modifies database`failures
      ensures database.failures == old(database.failures) + if r.Some? then 0 else 1
      ensures r.Some? ==> ToSet(r.value) == rows.Keys
    {
      var fails := database.Fails();
      if fails { return None; }
      var listed: seq<ProfileId> := [];
      var rest := rows.Keys;
      while rest != {}
        invariant rest <= rows.Keys
        invariant forall p :: p in listed <==> p in rows.Keys && p !in rest
        decreases rest
      {
        var p :| p in rest;
        listed := listed + [p];
        rest := rest - {p};
      }
      return Some(listed);
    }

    /** Moves one profile to a state, at the time the clock then shows, or changes nothing. */
    method SetState(p: ProfileId, target: ProfileState, code: Option<string>)
      returns (r: Result<Row, Denial>, now: int)
      requires Valid()
      modifies this`rows, database
      ensures Valid()
      ensures now == database.clock >= old(database.clock)
      ensures database.failures == old(database.failures) + if Decided(r) then 0 else 1
      ensures r.Success? ==>
                && p in old(rows) && rows == old(rows)[p := r.value]
                && r.value == Row(target, old(rows)[p].rid, old(rows)[p].uid,
                                  if target.Error? then code else None, if target.Disabled? then Some(now) else None)
                && ProfileStore.SetState(old(rows), p, target, code, now) == Success(rows)
      ensures r.Failure? ==> rows == old(rows)
      ensures r.Failure? && r.error.Refused? ==>
                && ProfileStore.SetState(rows, p, target, code, now) == Failure(r.error.reason)
                && (p in rows ==> rows[p].state != target && !Legal(rows[p].state, target))
                && (r.error.reason.NotFound? <==> p !in rows)
    {
      now := database.Now();
      var fails := database.Fails();
      if fails { return Failure(Unavailable), now; }
      var changed := ProfileStore.SetState(rows, p, target, code, now);
      if changed.Failure? { return Failure(Refused(changed.error)), now; }
      SetStateKeepsFit(h, rows, own, lookups, p, target, code, now);
      rows := changed.value;
      assert Fits(h, rows, own, lookups);
      return Success(rows[p]), now;
    }

    // Accepts any state; only in DISABLED does a code belong beside the state.
    method SetRuntimeError(p: ProfileId, code: string) returns (r: Result<(), Denial>)
      requires Valid()
      modifies this`rows, database`failures
      ensures database.failures == old(database.failures) + if Decided(r) then 0 else 1
      ensures (p in old(rows) ==> old(rows)[p].state.Disabled?) ==> Valid()
      ensures r.Success? ==> ProfileStore.SetRuntimeError(old(rows), p, code) == Success(rows)
      ensures r.Failure? ==> rows == old(rows)
      ensures r.Failure? && r.error.Refused? ==> p !in rows
    {
      var fails := database.Fails();
      if fails { return Failure(Unavailable); }
      var changed := ProfileStore.SetRuntimeError(rows, p, code);
      if changed.Failure? { return Failure(Refused(changed.error)); }
      if rows[p].state.Disabled? { SetRuntimeErrorKeepsFit(h, rows, own, lookups, p, code); }
      ghost var fits := rows[p].state.Disabled?;
      rows := changed.value;
      assert fits ==> Fits(h, rows, own, lookups);
      return Success(());
    }

    /** Deletes the row and both of its lookup rows, or nothing. */
    method DeleteLocal(p: ProfileId) returns (r: Result<(), Denial>)
      requires Valid()
      modifies this, database`failures
      ensures Valid()
      ensures database.failures == old(database.failures) + if Decided(r) then 0 else 1
      ensures r.Success? ==>
                && ProfileStore.DeleteLocal(old(rows), p) == Success(rows)
                && own == old(own) - {p}
                && lookups == Without(old(lookups), p)
      ensures r.Failure? ==> unchanged(this)
      ensures r.Failure? && r.error.Refused? ==> p !in rows
    {
      var fails := database.Fails();
      if fails { return Failure(Unavailable); }
      if p !in rows { return Failure(Refused(NotFound)); }
      DeleteKeepsFit(h, rows, own, lookups, p);
      rows := rows - {p};
      own := own - {p};
      lookups := Without(lookups, p);
      assert Fits(h, rows, own, lookups);
      return Success(());
    }

    method CheckpointWal() returns (completed: bool)
      modifies database`failures
      ensures database.failures == old(database.failures) + if completed then 0 else 1
    {
      var fails := database.Fails();
      completed := !fails;
    }
  }

  /** The two kinds never answer for each other: the prefixed value behind a Hysteria digest, presented
      as a subscription token, finds nothing. */
  lemma KindsAreSeparate(repository: ProfileRepository, p: ProfileId)
    requires repository.Valid() && p in repository.own
    ensures repository.FindBySubscriptionToken(repository.h.prefix + repository.own[p].hysteria) == None
  {
    assert HasLookups(repository.h, repository.own, repository.lookups, p);
  }
}
