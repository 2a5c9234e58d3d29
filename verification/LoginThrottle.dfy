/** The login throttle and the admission order of the login route
    (control/src/ezopenpn/security/throttle.py, control/src/ezopenpn/web/routes/auth.py). Times are
    integer microseconds. */
module LoginThrottle {
  import opened Arithmetic
  import opened Wrappers

  const SECOND := 1_000_000
  const DECAY_WINDOW := 900 * SECOND
  const MAX_DELAY_SECONDS := 30

  datatype Scope = Ip | Login

  /** A stored identity; the digest of a normalised name is as good as the name. */
  datatype Key = Key(scope: Scope, name: string)

  datatype Row = Row(count: nat, windowStartedAt: int, lastFailedAt: int, blockedUntil: int)

  type Rows = map<Key, Row>

  function PowerOfTwo(n: nat): nat {
    if n == 0 then 1 else 2 * PowerOfTwo(n - 1)
  }

  function DelaySeconds(count: nat): nat
    requires count >= 1
  {
    Min(MAX_DELAY_SECONDS, PowerOfTwo(count - 1))
  }

  function Delay(count: nat): nat
    requires count >= 1
  {
    DelaySeconds(count) * SECOND
  }

  // The row of one key after a failure.
  function Failed(stored: Option<Row>, now: int): Row {
    if stored.None? || now - stored.value.lastFailedAt > DECAY_WINDOW then
      Row(1, now, now, now + Delay(1))
    else
      var count := stored.value.count + 1;
      Row(count, stored.value.windowStartedAt, now, now + Delay(count))
  }

  function FailKey(rows: Rows, k: Key, now: int): Rows {
    rows[k := Failed(ValueAt(rows, k), now)]
  }

  predicate Blocked(rows: Rows, k: Key, now: int) {
    k in rows && rows[k].blockedUntil > now
  }

  function Remaining(rows: Rows, k: Key, now: int): nat {
    if Blocked(rows, k, now) then rows[k].blockedUntil - now else 0
  }

  // The two identities of an attempt: the address first.
  predicate TwoKeys(keys: seq<Key>) {
    |keys| == 2 && keys[0].scope == Ip && keys[1].scope == Login
  }

  function Registered(rows: Rows, keys: seq<Key>, now: int): Rows
    requires TwoKeys(keys)
  {
    FailKey(FailKey(rows, keys[0], now), keys[1], now)
  }

  // The longer of the two remaining blocks.
  function Waiting(rows: Rows, keys: seq<Key>, now: int): nat
    requires TwoKeys(keys)
  {
    Max(Remaining(rows, keys[0], now), Remaining(rows, keys[1], now))
  }

  function Cleared(rows: Rows, keys: seq<Key>): Rows {
    map k | k in rows && k !in keys :: rows[k]
  }

  // ---- a row as a function of the failures since the last clear ----

  // How many of the latest failures follow each other within the decay window.
  function Streak(failures: seq<int>): (count: nat)
    requires failures != []
    ensures 1 <= count <= |failures|
  {
    var last := |failures| - 1;
    if last == 0 || failures[last] - failures[last - 1] > DECAY_WINDOW then 1
    else 1 + Streak(failures[..last])
  }

  /** The streak is the longest suffix without a gap beyond the decay window. */
  lemma {:induction false} StreakIsLongest(failures: seq<int>)
    requires failures != []
    ensures var from := |failures| - Streak(failures);
            && (forall i :: from < i < |failures| ==> failures[i] - failures[i - 1] <= DECAY_WINDOW)
            && (from > 0 ==> failures[from] - failures[from - 1] > DECAY_WINDOW)
  {
    var last := |failures| - 1;
    if Streak(failures) > 1 {
      var before := failures[..last];
      StreakIsLongest(before);
      forall i | |failures| - Streak(failures) < i < |failures|
        ensures failures[i] - failures[i - 1] <= DECAY_WINDOW
      {
        if i < last { assert before[i] - before[i - 1] <= DECAY_WINDOW; }
      }
    }
  }

  function RowOf(failures: seq<int>): Row
    requires failures != []
  {
    var count, last := Streak(failures), failures[|failures| - 1];
    Row(count, failures[|failures| - count], last, last + Delay(count))
  }

  lemma FailedExtends(failures: seq<int>, now: int)
    ensures RowOf(failures + [now]) == Failed(if failures == [] then None else Some(RowOf(failures)), now)
  {
    var all := failures + [now];
    assert all[..|failures|] == failures;
  }

  ghost predicate Records(rows: Rows, failures: map<Key, seq<int>>) {
    && rows.Keys == failures.Keys
    && forall k :: k in rows ==> failures[k] != [] && rows[k] == RowOf(failures[k])
  }

  function Noted(failures: map<Key, seq<int>>, k: Key, now: int): map<Key, seq<int>> {
    failures[k := (if k in failures then failures[k] else []) + [now]]
  }

  lemma FailedKeepsRecords(rows: Rows, failures: map<Key, seq<int>>, k: Key, now: int)
    requires Records(rows, failures)
    ensures Records(FailKey(rows, k, now), Noted(failures, k, now))
  {
    FailedExtends(if k in failures then failures[k] else [], now);
  }

  class LoginThrottleService {
    const normalizeIp: string -> string
    const normalizeLogin: string -> string
    var rows: Rows
    // The failures of each key since it was last cleared.
    ghost var failures: map<Key, seq<int>>

    constructor (normalizeIp: string -> string, normalizeLogin: string -> string)
      ensures Valid() && rows == map[]
      ensures this.normalizeIp == normalizeIp && this.normalizeLogin == normalizeLogin
    {
      this.normalizeIp, this.normalizeLogin := normalizeIp, normalizeLogin;
      rows, failures := map[], map[];
    }

    ghost predicate Valid()
      reads this
    {
      Records(rows, failures)
    }

    function Identities(ip: string, login: string): (keys: seq<Key>)
      ensures TwoKeys(keys)
    {
      [Key(Ip, normalizeIp(ip)), Key(Login, normalizeLogin(login))]
    }

    // One turn of the loop over the two identities.
    method FailOne(k: Key, now: int) returns (seconds: nat)
      requires Valid()
      modifies this
      ensures Valid() && rows == FailKey(old(rows), k, now) && failures == Noted(old(failures), k, now)
      ensures k in rows && rows[k].count >= 1 && seconds == DelaySeconds(rows[k].count)
    {
      FailedKeepsRecords(rows, failures, k, now);
      failures := Noted(failures, k, now);
      rows := FailKey(rows, k, now);
      seconds := DelaySeconds(rows[k].count);
    }

    /** Both keys count the failure, every other key is untouched, and the answer is how long the two
        keys are blocked from now on. */
    method RegisterFailure(ip: string, login: string, now: int) returns (delay: nat)
      requires Valid()
      modifies this
      ensures Valid() && rows == Registered(old(rows), Identities(ip, login), now)
      ensures failures == Noted(Noted(old(failures), Identities(ip, login)[0], now), Identities(ip, login)[1], now)
      ensures delay == Waiting(rows, Identities(ip, login), now)
    {
      var keys := Identities(ip, login);
      var longest, i := 0, 0;
      while i < 2
        invariant 0 <= i <= 2 && Valid()
        invariant i == 0 ==> rows == old(rows) && failures == old(failures) && longest == 0
        invariant i == 1 ==>
                    && rows == FailKey(old(rows), keys[0], now) && failures == Noted(old(failures), keys[0], now)
                    && longest == DelaySeconds(rows[keys[0]].count)
        invariant i == 2 ==>
                    && rows == Registered(old(rows), keys, now)
                    && failures == Noted(Noted(old(failures), keys[0], now), keys[1], now)
                    && longest == Max(DelaySeconds(rows[keys[0]].count), DelaySeconds(rows[keys[1]].count))
      {
        var seconds := FailOne(keys[i], now);
        longest := Max(longest, seconds);
        i := i + 1;
      }
      delay := longest * SECOND;
    }

    /** Nothing exactly when neither key is blocked beyond `now`; otherwise what remains of the block of
        one of them, and no less than what remains of the other's. */
    method RetryAfter(ip: string, login: string, now: int) returns (waiting: nat)
      ensures waiting == 0 <==> forall k :: k in Identities(ip, login) ==> !Blocked(rows, k, now)
      ensures waiting > 0 ==>
                exists k :: k in Identities(ip, login) && Blocked(rows, k, now) && rows[k].blockedUntil == now + waiting
      ensures forall k :: k in Identities(ip, login) && Blocked(rows, k, now) ==> rows[k].blockedUntil <= now + waiting
      ensures waiting == Waiting(rows, Identities(ip, login), now)
    {
      var keys := Identities(ip, login);
      waiting := 0;
      for i := 0 to |keys|
        invariant waiting == 0 <==> forall k :: k in keys[..i] ==> !Blocked(rows, k, now)
        invariant waiting > 0 ==>
                    exists k :: k in keys[..i] && Blocked(rows, k, now) && rows[k].blockedUntil == now + waiting
        invariant forall k :: k in keys[..i] && Blocked(rows, k, now) ==> rows[k].blockedUntil <= now + waiting
      {
        assert keys[..i + 1] == keys[..i] + [keys[i]];
        if Blocked(rows, keys[i], now) { waiting := Max(waiting, rows[keys[i]].blockedUntil - now); }
      }
      assert keys[..|keys|] == keys;
      assert Remaining(rows, keys[0], now) <= waiting && Remaining(rows, keys[1], now) <= waiting;
    }

    method Clear(ip: string, login: string)
      requires Valid()
      modifies this
      ensures Valid() && rows == Cleared(old(rows), Identities(ip, login))
      ensures failures == map k | k in old(failures) && k !in Identities(ip, login) :: old(failures)[k]
    {
      var keys := Identities(ip, login);
      rows := Cleared(rows, keys);
      failures := map k | k in failures && k !in keys :: failures[k];
    }
  }

  // ---- the login route ----

  datatype Attempt = Attempt(keys: seq<Key>, now: int, verified: bool)

  /** Throttled is answered with 429, Rejected with 401; Granted opens a session. */
  datatype Outcome = Throttled(retryAfter: nat) | Rejected(retryAfter: nat) | Granted

  // The wait is checked before the password is, at the same `now` the failure is registered with.
  function Decide(rows: Rows, a: Attempt): Outcome
    requires TwoKeys(a.keys)
  {
    if Waiting(rows, a.keys, a.now) > 0 then Throttled(Waiting(rows, a.keys, a.now))
    else if !a.verified then Rejected(Waiting(Registered(rows, a.keys, a.now), a.keys, a.now))
    else Granted
  }

  function Apply(rows: Rows, a: Attempt): Rows
    requires TwoKeys(a.keys)
  {
    match Decide(rows, a)
    case Throttled(_) => rows
    case Rejected(_) => Registered(rows, a.keys, a.now)
    case Granted => Cleared(rows, a.keys)
  }

  // The key has one failure more, at `now`, or its first in a quarter of an hour, and is blocked from then.
  ghost predicate CountsFailure(before: Rows, after: Rows, k: Key, now: int) {
    && k in after && after[k].lastFailedAt == now && after[k].blockedUntil > now
    && after[k].count == if k in before && now <= before[k].lastFailedAt + 900_000_000 then before[k].count + 1 else 1
  }

  // Nothing is stored for the two keys, and everything else as before.
  ghost predicate Forgets(before: Rows, after: Rows, keys: seq<Key>) {
    forall k :: ValueAt(after, k) == if k in keys then None else ValueAt(before, k)
  }

  lemma RegisteredCounts(rows: Rows, keys: seq<Key>, now: int)
    requires TwoKeys(keys)
    ensures forall k :: k in keys ==> CountsFailure(rows, Registered(rows, keys, now), k, now)
    ensures forall k :: k !in keys ==> ValueAt(Registered(rows, keys, now), k) == ValueAt(rows, k)
    ensures Waiting(Registered(rows, keys, now), keys, now) > 0
  {
    forall k | k in keys ensures CountsFailure(rows, Registered(rows, keys, now), k, now) {
      assert k == keys[0] || k == keys[1];
      DelayIsPositive(Failed(ValueAt(rows, k), now).count);
    }
    assert CountsFailure(rows, Registered(rows, keys, now), keys[0], now);
  }

  lemma DelayIsPositive(count: nat)
    requires count >= 1
    ensures Delay(count) > 0
  {
    PowersArePositive(count - 1);
  }

  lemma {:induction false} PowersArePositive(n: nat)
    ensures PowerOfTwo(n) >= 1
  {
    if n > 0 { PowersArePositive(n - 1); }
  }

  class LoginRoute {
    const throttle: LoginThrottleService

    constructor (throttle: LoginThrottleService)
      ensures this.throttle == throttle
    {
      this.throttle := throttle;
    }

    /** Nothing runs between the check and the registration, so one login is one step. `verified` is
        what `verify_credentials` answers when it is asked. A login is throttled, with nothing stored,
        exactly when one of its keys is blocked; otherwise a right password is granted and both keys are
        forgotten, and a wrong one is rejected and counts for both. */
    method Login(ip: string, login: string, now: int, verified: bool) returns (outcome: Outcome)
      requires throttle.Valid()
      modifies throttle
      ensures throttle.Valid()
      ensures var a := Attempt(throttle.Identities(ip, login), now, verified);
              outcome == Decide(old(throttle.rows), a) && throttle.rows == Apply(old(throttle.rows), a)
      ensures outcome.Throttled? <==>
                exists k :: k in throttle.Identities(ip, login) && Blocked(old(throttle.rows), k, now)
      ensures outcome.Throttled? ==> outcome.retryAfter > 0 && throttle.rows == old(throttle.rows)
      ensures outcome.Granted? <==> !outcome.Throttled? && verified
      ensures outcome.Granted? ==> Forgets(old(throttle.rows), throttle.rows, throttle.Identities(ip, login))
      ensures outcome.Rejected? ==>
                && outcome.retryAfter > 0
                && (forall k :: k in throttle.Identities(ip, login) ==>
                      CountsFailure(old(throttle.rows), throttle.rows, k, now))
                && (forall k :: k !in throttle.Identities(ip, login) ==>
                      ValueAt(throttle.rows, k) == ValueAt(old(throttle.rows), k))
    {
      RegisteredCounts(throttle.rows, throttle.Identities(ip, login), now);
      var waiting := throttle.RetryAfter(ip, login, now);
      if waiting > 0 { return Throttled(waiting); }
      if !verified {
        var delay := throttle.RegisterFailure(ip, login, now);
        return Rejected(delay);
      }
      throttle.Clear(ip, login);
      return Granted;
    }
  }

  // ---- how far apart failures are ----

  // Logins in the order the server handles them, under a clock that does not go back.
  ghost predicate IsHistory(attempts: seq<Attempt>) {
    && (forall i :: 0 <= i < |attempts| ==> TwoKeys(attempts[i].keys))
    && (forall i, j :: 0 <= i <= j < |attempts| ==> attempts[i].now <= attempts[j].now)
  }

  // The stored rows before attempt `i`, from an empty table on.
  ghost function RowsAt(attempts: seq<Attempt>, i: nat): Rows
    requires IsHistory(attempts) && i <= |attempts|
  {
    if i == 0 then map[] else Apply(RowsAt(attempts, i - 1), attempts[i - 1])
  }

  ghost predicate FailsFor(attempts: seq<Attempt>, k: Key, i: int)
    requires IsHistory(attempts) && 0 <= i < |attempts|
  {
    k in attempts[i].keys && Decide(RowsAt(attempts, i), attempts[i]).Rejected?
  }

  ghost predicate ClearsFor(attempts: seq<Attempt>, k: Key, i: int)
    requires IsHistory(attempts) && 0 <= i < |attempts|
  {
    k in attempts[i].keys && Decide(RowsAt(attempts, i), attempts[i]).Granted?
  }

  // The admitted failures of a key among the attempts from `i` up to `j`.
  ghost function FailuresOf(attempts: seq<Attempt>, k: Key, i: nat, j: nat): nat
    requires IsHistory(attempts) && i <= j <= |attempts|
  {
    if i == j then 0
    else FailuresOf(attempts, k, i, j - 1) + if FailsFor(attempts, k, j - 1) then 1 else 0
  }

  // By how many seconds a streak of `count` falls short of 30 for each gap.
  function Deficit(count: nat): int
    requires count >= 1
  {
    if count == 1 then 0 else Deficit(count - 1) + MAX_DELAY_SECONDS - DelaySeconds(count - 1)
  }

  lemma {:induction false} LongStreakWaits(count: nat)
    requires count >= 6
    ensures DelaySeconds(count) == 30
  {
    assert PowerOfTwo(5) == 32 by { assert PowerOfTwo(3) == 8; }
    if count > 6 { LongStreakWaits(count - 1); }
  }

  // 29 + 28 + 26 + 22 + 14 seconds are missing before the delay reaches its maximum.
  lemma {:induction false} DeficitIsBounded(count: nat)
    requires count >= 1
    ensures 0 <= Deficit(count) <= 119
    ensures count >= 6 ==> Deficit(count) == 119
  {
    if count > 6 {
      LongStreakWaits(count - 1);
      DeficitIsBounded(count - 1);
    } else {
      assert PowerOfTwo(2) == 4 && PowerOfTwo(3) == 8 && PowerOfTwo(4) == 16;
      assert Deficit(2) == 29;
      assert Deficit(3) == 57;
      assert Deficit(4) == 83;
      assert Deficit(5) == 105;
      assert Deficit(6) == 119;
    }
  }

  // What a row has to do with the failures counted since attempt `i`.
  ghost predicate Spaced(row: Row, since: int, n: nat, now: int) {
    && row.count >= 1 && row.lastFailedAt <= now
    && row.blockedUntil == row.lastFailedAt + Delay(row.count)
    && row.lastFailedAt - since >= (30 * (n - 1) - Deficit(row.count)) * SECOND
  }

  lemma FailureKeepsSpaced(row: Row, since: int, n: nat, now: int)
    requires Spaced(row, since, n, now) && row.blockedUntil <= now
    ensures Spaced(Failed(Some(row), now), since, n + 1, now)
  {
    DeficitIsBounded(row.count);
  }

  lemma FailureStartsSpaced(stored: Option<Row>, now: int)
    ensures Spaced(Failed(stored, now), now, 1, now)
  {
    DeficitIsBounded(Failed(stored, now).count);
  }

  // A login touches a key only by failing or being granted for it.
  lemma ApplyOthers(rows: Rows, a: Attempt, k: Key)
    requires TwoKeys(a.keys)
    ensures Decide(rows, a).Throttled? || k !in a.keys ==> ValueAt(Apply(rows, a), k) == ValueAt(rows, k)
    ensures Decide(rows, a).Rejected? && k in a.keys ==>
              ValueAt(Apply(rows, a), k) == Some(Failed(ValueAt(rows, k), a.now)) && Remaining(rows, k, a.now) == 0
  {
  }

  lemma {:induction false} StaysSpaced(attempts: seq<Attempt>, k: Key, i: nat, j: nat)
    requires IsHistory(attempts) && i < j <= |attempts|
    requires FailsFor(attempts, k, i)
    requires forall m :: i < m < j ==> !ClearsFor(attempts, k, m)
    ensures var rows := RowsAt(attempts, j);
            k in rows && Spaced(rows[k], attempts[i].now, FailuresOf(attempts, k, i, j), attempts[j - 1].now)
  {
    var rows, a := RowsAt(attempts, j - 1), attempts[j - 1];
    ApplyOthers(rows, a, k);
    if i < j - 1 {
      StaysSpaced(attempts, k, i, j - 1);
      assert attempts[j - 2].now <= a.now;
      assert !ClearsFor(attempts, k, j - 1);
      if FailsFor(attempts, k, j - 1) {
        FailureKeepsSpaced(rows[k], attempts[i].now, FailuresOf(attempts, k, i, j - 1), a.now);
      }
    } else {
      FailureStartsSpaced(ValueAt(rows, k), a.now);
      assert FailuresOf(attempts, k, i, i) == 0;
    }
  }

  /** Between two clears, n consecutive admitted failures of one key, be it the address or the login,
      span at least 30(n - 1) - 119 seconds, whatever the other keys do and however often the counter
      decays. */
  lemma FailuresAreSpaced(attempts: seq<Attempt>, k: Key, i: nat, j: nat)
    requires IsHistory(attempts) && i <= j < |attempts|
    requires FailsFor(attempts, k, i) && FailsFor(attempts, k, j)
    requires forall m :: i < m < j ==> !ClearsFor(attempts, k, m)
    ensures var n := FailuresOf(attempts, k, i, j + 1);
            attempts[j].now - attempts[i].now >= (30 * (n - 1) - 119) * SECOND
  {
    assert !ClearsFor(attempts, k, j);
    StaysSpaced(attempts, k, i, j + 1);
    ApplyOthers(RowsAt(attempts, j), attempts[j], k);
    DeficitIsBounded(RowsAt(attempts, j + 1)[k].count);
  }

  /** A key's block never ends earlier than it did, until the key is cleared. */
  lemma BlockNeverShrinks(row: Row, now: int)
    requires row.count >= 1 && row.blockedUntil == row.lastFailedAt + Delay(row.count)
    requires row.lastFailedAt <= now
    ensures Failed(Some(row), now).blockedUntil >= row.blockedUntil
  {
    DelaysGrow(row.count);
  }

  lemma {:induction false} DelaysGrow(count: nat)
    requires count >= 1
    ensures DelaySeconds(count) <= DelaySeconds(count + 1) <= 30
  {
    if count > 1 { DelaysGrow(count - 1); }
  }

  // ---- the bound is attained ----

  // The earliest moment of failure number `i + 1` of a key.
  function Moment(i: nat): int {
    if i == 0 then 0 else Moment(i - 1) + Delay(i)
  }

  lemma {:induction false} MomentsAndDeficits(i: nat)
    ensures Moment(i) == (30 * i - Deficit(i + 1)) * SECOND
  {
    if i > 0 { MomentsAndDeficits(i - 1); }
  }

  lemma {:induction false} MomentsGrow(i: nat, j: nat)
    requires i <= j
    ensures Moment(i) <= Moment(j)
  {
    if i < j { MomentsGrow(i, j - 1); }
  }

  // Wrong passwords for one login from one address, each at the first moment it is admitted.
  function Fastest(keys: seq<Key>, n: nat): (attempts: seq<Attempt>)
    requires TwoKeys(keys)
    ensures |attempts| == n && forall i :: 0 <= i < n ==> attempts[i] == Attempt(keys, Moment(i), false)
  {
    seq(n, i requires 0 <= i < n => Attempt(keys, Moment(i), false))
  }

  lemma FastestIsHistory(keys: seq<Key>, n: nat)
    requires TwoKeys(keys)
    ensures IsHistory(Fastest(keys, n))
  {
    forall i, j | 0 <= i <= j < n ensures Moment(i) <= Moment(j) { MomentsGrow(i, j); }
  }

  // The row of either key before failure number `i + 1`.
  function FastestRow(i: nat): Option<Row> {
    if i == 0 then None else Some(Row(i, 0, Moment(i - 1), Moment(i)))
  }

  predicate FastestRows(rows: Rows, keys: seq<Key>, i: nat)
    requires TwoKeys(keys)
  {
    ValueAt(rows, keys[0]) == FastestRow(i) && ValueAt(rows, keys[1]) == FastestRow(i)
  }

  lemma FastestRowFails(i: nat)
    ensures Some(Failed(FastestRow(i), Moment(i))) == FastestRow(i + 1)
  {
    if i > 0 { DelaysGrow(i); }
  }

  lemma FastestFails(rows: Rows, keys: seq<Key>, i: nat)
    requires TwoKeys(keys) && FastestRows(rows, keys, i)
    ensures Decide(rows, Attempt(keys, Moment(i), false)).Rejected?
    ensures FastestRows(Apply(rows, Attempt(keys, Moment(i), false)), keys, i + 1)
  {
    var a := Attempt(keys, Moment(i), false);
    assert Remaining(rows, keys[0], a.now) == 0 && Remaining(rows, keys[1], a.now) == 0;
    ApplyOthers(rows, a, keys[0]);
    ApplyOthers(rows, a, keys[1]);
    FastestRowFails(i);
  }

  lemma {:induction false} FastestReaches(keys: seq<Key>, n: nat, i: nat)
    requires TwoKeys(keys) && i <= n && IsHistory(Fastest(keys, n))
    ensures FastestRows(RowsAt(Fastest(keys, n), i), keys, i)
  {
    if i > 0 {
      FastestReaches(keys, n, i - 1);
      FastestFails(RowsAt(Fastest(keys, n), i - 1), keys, i - 1);
    }
  }

  lemma {:induction false} FastestCounts(keys: seq<Key>, n: nat, k: Key, i: nat)
    requires TwoKeys(keys) && k in keys && i <= n && IsHistory(Fastest(keys, n))
    ensures FailuresOf(Fastest(keys, n), k, 0, i) == i
  {
    if i > 0 {
      FastestCounts(keys, n, k, i - 1);
      FastestReaches(keys, n, i - 1);
      FastestFails(RowsAt(Fastest(keys, n), i - 1), keys, i - 1);
      assert FailsFor(Fastest(keys, n), k, i - 1);
    }
  }

  /** The bound is sharp: from six failures on there are logins for which it is met exactly. */
  lemma BoundIsAttained(keys: seq<Key>, n: nat, k: Key)
    requires TwoKeys(keys) && k in keys && n >= 6
    ensures IsHistory(Fastest(keys, n)) && FailuresOf(Fastest(keys, n), k, 0, n) == n
    ensures Fastest(keys, n)[n - 1].now - Fastest(keys, n)[0].now == (30 * (n - 1) - 119) * SECOND
  {
    FastestIsHistory(keys, n);
    FastestCounts(keys, n, k, n);
    MomentsAndDeficits(n - 1);
    DeficitIsBounded(n);
  }
}
