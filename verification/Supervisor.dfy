/** The supervisor of the Xray process (runtime/internal/supervisor/process.go): a loop that owns one
    child, answers restart and shutdown requests, and restarts a failing child until it fails too
    often. */
module Supervisor {
  import opened Wrappers

  datatype Fault = AlreadyRunning | ChildStart | ChildStop | ChildUnstable | RepeatedFailures | RestartCanceled

  datatype Signal = Interrupt | Terminate

  /** A restart request whose context is already done when it is received is canceled. */
  datatype Request = RestartRequest(canceled: bool) | ShutdownRequest(signal: Signal)

  datatype Cause = First | Requested | AfterFailure(at: int)

  datatype Timer = StopTimer | KillTimer | StableTimer

  /** What one `Run` does and is told, statement by statement. `Received`: the exit of the current child
      is received. `Expired`: a timer is received instead. `Cancelled`: the context of the run is done.
      `Replied`: the request accepted at entry `to` gets `outcome` on its channel. */
  datatype Entry =
    | Started(cause: Cause)
    | StartFailed(cause: Cause)
    | Signalled(signal: Signal)
    | Killed
    | Received
    | Expired(timer: Timer)
    | Cancelled
    | Health(value: bool)
    | Accepted(request: Request)
    | Replied(to: nat, outcome: Option<Fault>)
    | Failed(at: int)

  // What the supervisor is told; the rest is its own doing.
  predicate Told(e: Entry) {
    e.Started? || e.StartFailed? || e.Received? || e.Expired? || e.Cancelled? || e.Accepted?
  }

  datatype Pending = Pending(at: nat, request: Request)

  // How far the latest attempt to stop the child has gone.
  datatype Stopping = NotAsked | Asked | Overdue | Forced | Stuck

  // An exit nobody asked for, until another child is started.
  datatype Lapse = NoLapse | Uncounted | Counted(at: int)

  /** What the entries so far amount to. `alive`: a child was started and its exit not received.
      `healthy`: what `Healthy` answers. `unstarted`: the latest start failed. `open`: the accepted
      request that has no reply yet. `tried`: a child was started since the latest request was accepted.
      `quitting`: the run was cancelled or asked to shut down. `failed` and `restarted`: the times of the
      failures, and of those after which a child was started again. `heard`: what it was told, and
      `latest` the last of it. */
  datatype View = View(
    alive: bool,
    healthy: bool,
    unstarted: bool,
    stopping: Stopping,
    open: Option<Pending>,
    tried: bool,
    lapse: Lapse,
    quitting: bool,
    failed: seq<int>,
    restarted: seq<int>,
    heard: seq<Entry>,
    latest: Option<Entry>)

  const BLANK := View(false, false, false, NotAsked, None, false, NoLapse, false, [], [], [], None)

  function Next(v: View, e: Entry, i: nat): View {
    Changed(if Told(e) then v.(heard := v.heard + [e], latest := Some(e)) else v, e, i)
  }

  function Changed(v: View, e: Entry, i: nat): View {
    match e
    case Started(cause) =>
      v.(alive := true, unstarted := false, stopping := NotAsked, tried := true, lapse := NoLapse,
         restarted := if cause.AfterFailure? then v.restarted + [cause.at] else v.restarted)
    case StartFailed(_) => v.(unstarted := true)
    case Signalled(_) => v.(stopping := Asked)
    case Killed => v.(stopping := Forced)
    case Received => v.(alive := false, lapse := if v.stopping.NotAsked? then Uncounted else v.lapse)
    case Expired(timer) =>
      v.(stopping := if timer.StopTimer? then Overdue else if timer.KillTimer? then Stuck else v.stopping)
    case Cancelled => v.(quitting := true)
    case Health(value) => v.(healthy := value)
    case Accepted(request) =>
      v.(open := Some(Pending(i, request)), tried := false, quitting := v.quitting || request.ShutdownRequest?)
    case Replied(_, _) => v.(open := None)
    case Failed(at) => v.(failed := v.failed + [at], lapse := Counted(at))
  }

  // A restart request that is to be carried out is open.
  predicate Restarting(v: View) {
    v.open.Some? && v.open.value.request == RestartRequest(false)
  }

  // Between two rounds of the loop.
  predicate Idle(v: View) {
    v.alive && v.healthy && v.open.None? && v.stopping.NotAsked? && !v.quitting
  }

  // Within the stability window of a requested start.
  predicate InWindow(v: View) {
    && Restarting(v) && v.tried && v.alive && !v.healthy && !v.quitting && v.stopping.NotAsked?
    && v.latest.Some? && v.latest.value.Started?
  }

  // The child is to be stopped, and with which signal.
  predicate StopDue(v: View) {
    if v.open.None? then v.quitting
    else v.open.value.request.ShutdownRequest? || (Restarting(v) && !v.tried)
  }

  function StopSignal(v: View): Signal {
    if v.open.Some? && v.open.value.request.ShutdownRequest? then v.open.value.request.signal else Terminate
  }

  predicate MayStart(v: View, cause: Cause) {
    && !v.alive && !v.healthy && !v.quitting && !v.unstarted
    && match cause
       case First => v.latest.None? && v.lapse.NoLapse?
       case Requested => Restarting(v) && !v.tried && v.lapse.NoLapse?
       case AfterFailure(at) => v.open.None? && v.lapse == Counted(at)
  }

  // The answer that is due to the open request, if one is.
  function Due(v: View): Option<Option<Fault>> {
    if v.open.None? || v.latest.None? then None
    else
      var told := v.latest.value;
      match v.open.value.request
      case ShutdownRequest(_) =>
        if told == Expired(KillTimer) then Some(Some(ChildStop)) else if told.Received? then Some(None) else None
      case RestartRequest(canceled) =>
        if canceled then Some(Some(RestartCanceled))
        else if !v.tried then
          if told == Expired(KillTimer) then Some(Some(ChildStop))
          else if told.StartFailed? then Some(Some(ChildStart)) else None
        else if told == Expired(StableTimer) && v.healthy then Some(None)
        else if told.Received? && !v.healthy then Some(Some(ChildUnstable))
        else if told.Cancelled? then Some(Some(RestartCanceled))
        else None
  }

  // The health may become true.
  predicate MayBeHealthy(v: View) {
    && v.alive && !v.quitting && v.stopping.NotAsked? && v.latest.Some?
    && (v.latest == Some(Expired(StableTimer)) || (v.open.None? && v.latest.value.Started?))
  }

  // What cannot be put off: health after an exit, a kill after the stop timer, the reply to a canceled
  // request, and the first two steps of stopping a healthy child.
  predicate Urgent(v: View, e: Entry) {
    && (v.healthy && !v.alive ==> e == Health(false))
    && (v.stopping.Overdue? && v.alive ==> e.Killed?)
    && (v.open.Some? && v.open.value.request == RestartRequest(true) ==> e.Replied?)
    && (StopDue(v) && v.alive && v.stopping.NotAsked? ==>
          if v.healthy then e == Health(false) else e.Signalled? || (v.open.None? && e == Health(false)))
  }

  // What the supervisor may do or be told next.
  predicate Allowed(v: View, e: Entry) {
    && Urgent(v, e)
    && match e
       case Started(cause) => MayStart(v, cause)
       case StartFailed(cause) => MayStart(v, cause)
       case Signalled(signal) =>
         v.alive && !v.healthy && v.stopping.NotAsked? && StopDue(v) && signal == StopSignal(v)
       case Killed => v.alive && v.stopping.Overdue?
       case Received => v.alive && (v.stopping.Asked? || v.stopping.Forced? || Idle(v) || InWindow(v))
       case Expired(timer) =>
         (match timer
          case StopTimer => v.alive && v.stopping.Asked?
          case KillTimer => v.alive && v.stopping.Forced?
          case StableTimer => InWindow(v))
       case Cancelled => Idle(v) || InWindow(v)
       case Health(value) => if value then MayBeHealthy(v) else v.healthy && v.alive ==> StopDue(v)
       case Accepted(_) => Idle(v)
       case Replied(to, outcome) => v.open.Some? && v.open.value.at == to && Due(v) == Some(outcome)
       case Failed(_) => v.lapse.Uncounted? && !v.healthy && v.open.None?
  }

  /** The entries of one run, and the view before the first and after each of them. */
  datatype Log = Log(entries: seq<Entry>, views: seq<View>)

  ghost predicate Follows(log: Log, i: int)
    requires 0 <= i < |log.entries| && |log.views| == |log.entries| + 1
  {
    Allowed(log.views[i], log.entries[i]) && log.views[i + 1] == Next(log.views[i], log.entries[i], i)
  }

  ghost predicate IsLog(log: Log) {
    && |log.views| == |log.entries| + 1 && log.views[0] == BLANK
    && forall i {:trigger Follows(log, i)} :: 0 <= i < |log.entries| ==> Follows(log, i)
  }

  function Append(log: Log, e: Entry): Log
    requires log.views != []
  {
    Log(log.entries + [e], log.views + [Next(log.views[|log.views| - 1], e, |log.entries|)])
  }

  lemma AppendFollows(log: Log, e: Entry)
    requires IsLog(log) && Allowed(log.views[|log.entries|], e)
    ensures IsLog(Append(log, e))
  {
    var log' := Append(log, e);
    forall i | 0 <= i < |log'.entries| ensures Follows(log', i) {
      if i < |log.entries| { assert Follows(log, i); }
    }
  }

  // ---- what every log satisfies ----

  lemma Moved(log: Log, i: nat)
    requires IsLog(log) && i < |log.entries|
    ensures log.views[i + 1] == Next(log.views[i], log.entries[i], i)
  {
    assert Follows(log, i);
  }

  lemma {:induction false} DeadAfter(log: Log, i: nat, n: nat)
    requires IsLog(log) && i < n <= |log.entries| && log.entries[i].Started? && !log.views[n].alive
    ensures exists k :: i < k < n && log.entries[k].Received?
  {
    Moved(log, n - 1);
    if !log.entries[n - 1].Received? { DeadAfter(log, i, n - 1); }
  }

  /** A child is started only after the exit of every earlier one was received. */
  lemma OneChildAtATime(log: Log, i: nat, j: nat)
    requires IsLog(log) && i < j < |log.entries| && log.entries[i].Started? && log.entries[j].Started?
    ensures exists k :: i < k < j && log.entries[k].Received?
  {
    assert Follows(log, j);
    DeadAfter(log, i, j);
  }

  /** `Healthy` is true only while a child is alive, except for the moment between the receipt of its
      exit and the very next statement, which stores false. */
  lemma HealthIsTruthful(log: Log, n: nat)
    requires IsLog(log) && n <= |log.entries| && log.views[n].healthy && !log.views[n].alive
    ensures n > 0 && log.entries[n - 1].Received?
    ensures n < |log.entries| ==> log.entries[n] == Health(false)
  {
    if n > 0 { assert Follows(log, n - 1); }
    if n < |log.entries| { assert Follows(log, n); }
  }

  /** That moment exists: the child exits, and until the next statement `Healthy` still answers true. */
  lemma HealthyForAMoment()
    ensures var log := Append(Append(Append(Log([], [BLANK]), Started(First)), Health(true)), Received);
            && IsLog(log)
            && log.entries == [Started(First), Health(true), Received]
            && log.views[3].healthy && !log.views[3].alive
  {
    var started := Append(Log([], [BLANK]), Started(First));
    AppendFollows(Log([], [BLANK]), Started(First));
    AppendFollows(started, Health(true));
    AppendFollows(Append(started, Health(true)), Received);
  }

  lemma {:induction false} OpenIsLatest(log: Log, n: nat)
    requires IsLog(log) && n <= |log.entries| && log.views[n].open.Some?
    ensures var p := log.views[n].open.value;
            && p.at < n && log.entries[p.at] == Accepted(p.request)
            && (forall j :: p.at < j < n ==> !log.entries[j].Replied?)
  {
    if n > 0 {
      Moved(log, n - 1);
      if !log.entries[n - 1].Accepted? { OpenIsLatest(log, n - 1); }
    }
  }

  /** No request gets two replies, and only accepted requests get one. */
  lemma RepliedAtMostOnce(log: Log, j: nat, k: nat)
    requires IsLog(log) && j <= k < |log.entries|
    requires log.entries[j].Replied? && log.entries[k].Replied? && log.entries[j].to == log.entries[k].to
    ensures j == k && log.entries[j].to < j && log.entries[log.entries[j].to].Accepted?
  {
    assert Follows(log, j) && Follows(log, k);
    OpenIsLatest(log, j);
    OpenIsLatest(log, k);
  }

  /** Every accepted request but the one still open has got its reply. */
  lemma {:induction false} RepliedOrOpen(log: Log, i: nat, n: nat)
    requires IsLog(log) && i < n <= |log.entries| && log.entries[i].Accepted?
    ensures || log.views[n].open == Some(Pending(i, log.entries[i].request))
            || exists j :: i < j < n && log.entries[j].Replied? && log.entries[j].to == i
  {
    assert Follows(log, n - 1);
    if i < n - 1 { RepliedOrOpen(log, i, n - 1); }
  }

  lemma {:induction false} TriedMeansStarted(log: Log, n: nat)
    requires IsLog(log) && n <= |log.entries| && log.views[n].tried && log.views[n].alive
    ensures exists k :: 0 <= k < n && LiveSince(log, k, n)
  {
    if n > 0 {
      Moved(log, n - 1);
      if log.entries[n - 1].Started? {
        assert LiveSince(log, n - 1, n);
      } else {
        TriedMeansStarted(log, n - 1);
        var k :| 0 <= k < n - 1 && LiveSince(log, k, n - 1);
        assert LiveSince(log, k, n);
      }
    }
  }

  // A child started at `k`; until `n` its exit was not received and no further request accepted.
  ghost predicate LiveSince(log: Log, k: int, n: int)
    requires 0 <= k < n <= |log.entries|
  {
    && log.entries[k].Started?
    && forall m :: k < m < n ==> !log.entries[m].Received? && !log.entries[m].Accepted?
  }

  /** A canceled restart request is refused at once, and nothing else happens. */
  lemma CanceledIsRefused(log: Log, i: nat)
    requires IsLog(log) && i + 1 < |log.entries| && log.entries[i] == Accepted(RestartRequest(true))
    ensures log.entries[i + 1] == Replied(i, Some(RestartCanceled))
  {
    assert Follows(log, i) && Follows(log, i + 1);
  }

  /** A live restart request stops the child: the next two entries take its health away and signal it. */
  lemma LiveIsCarriedOut(log: Log, i: nat)
    requires IsLog(log) && i + 1 < |log.entries| && log.entries[i] == Accepted(RestartRequest(false))
    ensures log.entries[i + 1] == Health(false)
    ensures i + 2 < |log.entries| ==> log.entries[i + 2] == Signalled(Terminate)
  {
    assert Follows(log, i) && Follows(log, i + 1);
    if i + 2 < |log.entries| { assert Follows(log, i + 2); }
  }

  /** A live restart request is answered ErrRestartCanceled only after a child was started for it and the
      run was cancelled while that child was alive. */
  lemma LiveIsCanceledLate(log: Log, j: nat)
    requires IsLog(log) && j < |log.entries| && log.entries[j].Replied?
    requires log.entries[j].outcome == Some(RestartCanceled)
    requires log.entries[j].to < j && log.entries[log.entries[j].to] == Accepted(RestartRequest(false))
    ensures log.views[j].quitting
    ensures exists k :: log.entries[j].to < k < j && LiveSince(log, k, j)
  {
    assert Follows(log, j);
    OpenIsLatest(log, j);
    CancelledMeansQuitting(log, j);
    TriedMeansStarted(log, j);
    var k :| 0 <= k < j && LiveSince(log, k, j);
    var to := log.entries[j].to;
    assert log.entries[to].Accepted? && log.entries[k].Started?;
  }

  // While Cancelled is the last thing it was told, the run is ending and the child alive.
  lemma {:induction false} CancelledMeansQuitting(log: Log, n: nat)
    requires IsLog(log) && n <= |log.entries| && log.views[n].latest == Some(Cancelled)
    ensures log.views[n].quitting && log.views[n].alive
  {
    assert n > 0;
    assert Follows(log, n - 1);
    if log.entries[n - 1] != Cancelled { CancelledMeansQuitting(log, n - 1); }
  }

  /** A restart answered without an error has started a child after it was accepted, and that child's
      exit was not received before the answer. */
  lemma RestartMeansStarted(log: Log, j: nat)
    requires IsLog(log) && j < |log.entries| && log.entries[j].Replied? && log.entries[j].outcome.None?
    requires log.entries[j].to < j && log.entries[log.entries[j].to] == Accepted(RestartRequest(false))
    ensures exists k :: log.entries[j].to < k < j && LiveSince(log, k, j)
  {
    assert Follows(log, j);
    OpenIsLatest(log, j);
    TriedMeansStarted(log, j);
    var k :| 0 <= k < j && LiveSince(log, k, j);
    var to := log.entries[j].to;
    assert log.entries[to].Accepted? && log.entries[k].Started?;
  }

  // What the supervisor was told last says whether the child is alive.
  lemma {:induction false} LatestTells(log: Log, n: nat)
    requires IsLog(log) && n <= |log.entries| && log.views[n].latest.Some?
    ensures var v := log.views[n];
            match v.latest.value
            case Received => !v.alive
            case StartFailed(_) => !v.alive && v.unstarted
            case _ => v.alive
  {
    assert n > 0;
    assert Follows(log, n - 1);
    if !Told(log.entries[n - 1]) { LatestTells(log, n - 1); }
  }

  /** What each answer means when it is given: to a shutdown request, whether the child is gone; to a live
      restart request, what became of the old child and the new one. */
  lemma AnswerMeans(log: Log, j: nat, request: Request)
    requires IsLog(log) && j < |log.entries| && log.entries[j].Replied?
    requires log.entries[j].to < j && log.entries[log.entries[j].to] == Accepted(request)
    ensures var v, outcome := log.views[j], log.entries[j].outcome;
            if request.ShutdownRequest? then outcome == if v.alive then Some(ChildStop) else None
            else if request.canceled then outcome == Some(RestartCanceled)
            else if outcome.None? then v.alive && v.healthy && v.tried
            else match outcome.value
                 case ChildStop => v.alive && !v.tried
                 case ChildStart => !v.alive && v.unstarted && !v.tried
                 case ChildUnstable => !v.alive && v.tried
                 case RestartCanceled => v.alive && v.tried
                 case _ => false
  {
    assert Follows(log, j);
    OpenIsLatest(log, j);
    LatestTells(log, j);
  }

  // The child exits although nobody asked it to.
  ghost predicate Lapses(log: Log, i: nat)
    requires |log.views| == |log.entries| + 1 && i < |log.entries|
  {
    log.entries[i].Received? && log.views[i].stopping.NotAsked?
  }

  lemma {:induction false} UncountedOrFailed(log: Log, i: nat, n: nat)
    requires IsLog(log) && i < n <= |log.entries| && Lapses(log, i)
    ensures log.views[n].lapse.Uncounted? || exists j :: i < j < n && log.entries[j].Failed?
  {
    assert Follows(log, n - 1);
    if i < n - 1 { UncountedOrFailed(log, i, n - 1); }
  }

  /** An exit nobody asked for is counted as a failure before any child is started again. */
  lemma ExitIsCounted(log: Log, i: nat, k: nat)
    requires IsLog(log) && i < k < |log.entries| && Lapses(log, i) && log.entries[k].Started?
    ensures exists j :: i < j < k && log.entries[j].Failed?
  {
    UncountedOrFailed(log, i, k);
    assert Follows(log, k);
  }

  // ---- the failure window ----

  // The times after `cutoff`, in order.
  function After(times: seq<int>, cutoff: int): seq<int> {
    if times == [] then []
    else
      var rest := After(times[..|times| - 1], cutoff);
      var last := times[|times| - 1];
      if last > cutoff then rest + [last] else rest
  }

  // The times in the half-open interval from `low` (exclusive) to `high`.
  function Between(times: seq<int>, low: int, high: int): seq<int> {
    if times == [] then []
    else
      var rest := Between(times[..|times| - 1], low, high);
      var last := times[|times| - 1];
      if low < last <= high then rest + [last] else rest
  }

  // The failures that count at the time of the latest one.
  function Recent(failures: seq<int>, window: int): seq<int> {
    if failures == [] then [] else After(failures, failures[|failures| - 1] - window)
  }

  lemma AfterOneMore(times: seq<int>, last: int, cutoff: int)
    ensures After(times + [last], cutoff) == if last > cutoff then After(times, cutoff) + [last] else After(times, cutoff)
  {
    assert (times + [last])[..|times|] == times;
  }

  lemma {:induction false} AfterTwice(times: seq<int>, earlier: int, later: int)
    requires earlier <= later
    ensures After(After(times, earlier), later) == After(times, later)
  {
    if times != [] {
      var before, last := times[..|times| - 1], times[|times| - 1];
      AfterTwice(before, earlier, later);
      if last > earlier { AfterOneMore(After(before, earlier), last, later); }
    }
  }

  // Pruning what the previous failure kept is pruning the whole history.
  lemma {:induction false} RecentGrows(failures: seq<int>, now: int, window: int)
    requires window > 0 && (failures != [] ==> failures[|failures| - 1] <= now)
    ensures Recent(failures + [now], window) == After(Recent(failures, window), now - window) + [now]
  {
    RecentIs(failures + [now], window, now);
    AfterOneMore(failures, now, now - window);
    if failures != [] { RecentTwice(failures, window, now); }
  }

  lemma {:induction false} RecentIs(failures: seq<int>, window: int, last: int)
    requires failures != [] && failures[|failures| - 1] == last
    ensures Recent(failures, window) == After(failures, last - window)
  {
  }

  lemma {:induction false} RecentTwice(failures: seq<int>, window: int, now: int)
    requires failures != [] && failures[|failures| - 1] <= now
    ensures After(Recent(failures, window), now - window) == After(failures, now - window)
  {
    AfterTwice(failures, failures[|failures| - 1] - window, now - window);
  }

  ghost predicate WithinBudgetAt(failures: seq<int>, window: int, most: nat, m: int)
    requires 1 <= m <= |failures|
  {
    |Recent(failures[..m], window)| <= most
  }

  // At no failure were there more than `most` within the window.
  ghost predicate WithinBudget(failures: seq<int>, window: int, most: nat) {
    forall m {:trigger WithinBudgetAt(failures, window, most, m)} ::
      1 <= m <= |failures| ==> WithinBudgetAt(failures, window, most, m)
  }

  lemma {:induction false} FewerBetween(times: seq<int>, cutoff: int, low: int, high: int)
    requires cutoff <= low
    ensures |Between(times, low, high)| <= |After(times, cutoff)|
  {
    if times != [] { FewerBetween(times[..|times| - 1], cutoff, low, high); }
  }

  lemma LatestDecides(failures: seq<int>, now: int, window: int, most: nat)
    requires WithinBudget(failures, window, most)
    ensures WithinBudget(failures + [now], window, most) <==> |Recent(failures + [now], window)| <= most
  {
    var all := failures + [now];
    assert all[..|all|] == all;
    assert WithinBudgetAt(all, window, most, |all|) <==> |Recent(all, window)| <= most;
    forall m | 1 <= m <= |failures| ensures WithinBudgetAt(all, window, most, m) {
      assert all[..m] == failures[..m];
      assert WithinBudgetAt(failures, window, most, m);
    }
  }

  // What pruning and appending make of the times held since the previous failure.
  lemma PrunedIsRecent(held: seq<int>, failures: seq<int>, now: int, window: int, most: nat)
    requires window > 0 && held == Recent(failures, window) && WithinBudget(failures, window, most)
    requires failures != [] ==> failures[|failures| - 1] <= now
    ensures After(held, now - window) + [now] == Recent(failures + [now], window)
    ensures WithinBudget(failures + [now], window, most) <==> |After(held, now - window) + [now]| <= most
  {
    RecentGrows(failures, now, window);
    LatestDecides(failures, now, window, most);
  }

  /** If the count never exceeded the limit at a failure, no interval of the window's length, wherever
      it starts, contains more failures than the limit. */
  lemma {:induction false} NoBusyInterval(failures: seq<int>, window: int, most: nat, low: int)
    requires WithinBudget(failures, window, most)
    ensures |Between(failures, low, low + window)| <= most
  {
    if failures != [] {
      var before, last := failures[..|failures| - 1], failures[|failures| - 1];
      if low < last <= low + window {
        FewerBetween(failures, last - window, low, low + window);
        assert failures[..|failures|] == failures;
        assert WithinBudgetAt(failures, window, most, |failures|);
      } else {
        forall m | 1 <= m <= |before| ensures WithinBudgetAt(before, window, most, m) {
          assert before[..m] == failures[..m];
          assert WithinBudgetAt(failures, window, most, m);
        }
        NoBusyInterval(before, window, most, low);
      }
    }
  }

  datatype Ending = StillRunning | Returned(fault: Option<Fault>)

  datatype Trial = Stable | Exited | RunCancelled

  datatype Event = RunDone | Requests(request: Request) | ChildExited

  class ProcessManager {
    const maxFailures: nat
    const window: int
    var healthy: bool
    var running: bool
    var clock: int
    ghost var log: Log
    ghost var view: View
    // What the world has told this run.
    ghost var heard: seq<Entry>

    constructor (maxFailures: nat, window: int)
      requires window > 0
      ensures Valid() && this.maxFailures == maxFailures && this.window == window && !running
    {
      this.maxFailures, this.window := maxFailures, window;
      healthy, running, clock := false, false, 0;
      log, view, heard := Log([], [BLANK]), BLANK, [];
    }

    constructor Default()
      ensures Valid() && maxFailures == 5 && window == 60_000 && !running
    {
      maxFailures, window := 5, 60_000;
      healthy, running, clock := false, false, 0;
      log, view, heard := Log([], [BLANK]), BLANK, [];
    }

    ghost predicate Valid()
      reads this
    {
      window > 0 && (!running ==> !healthy)
    }

    // The log is one the theorems above speak of, has led to the current view, and has what the run was
    // told and no more.
    ghost predicate Tracked()
      reads this`log, this`view, this`healthy, this`heard
    {
      && IsLog(log) && log.views[|log.entries|] == view
      && healthy == view.healthy && heard == view.heard
    }

    // Between two rounds of the loop.
    ghost predicate Steady()
      reads this
    {
      && Tracked() && Budgeted() && Idle(view)
      && !view.unstarted && view.lapse.NoLapse? && view.restarted == view.failed
    }

    // ---- the world ----

    // What the run is told becomes an entry.
    ghost method Hear(e: Entry)
      requires Tracked() && Told(e) && Allowed(view, e)
      modifies this`log, this`view, this`heard
      ensures Tracked() && heard == old(heard) + [e] && log == Append(old(log), e)
      ensures view == Next(old(view), e, |old(log).entries|)
    {
      AppendFollows(log, e);
      log, view, heard := Append(log, e), Next(view, e, |log.entries|), heard + [e];
    }

    // The select of the loop.
    method Select() returns (event: Event)
      requires Tracked() && Idle(view)
      modifies this`log, this`view, this`heard
      ensures Tracked() && heard == old(heard) + [Hearing(event)] && log == Append(old(log), Hearing(event))
      ensures view == Next(old(view), Hearing(event), |old(log).entries|)
    {
      event := *;
      Hear(Hearing(event));
    }

    static function Hearing(event: Event): Entry {
      match event
      case RunDone => Cancelled
      case Requests(request) => Accepted(request)
      case ChildExited => Received
    }

    // The select of the stability window.
    method Observe() returns (trial: Trial)
      requires Tracked() && InWindow(view)
      modifies this`log, this`view, this`heard
      ensures Tracked() && log == Append(old(log), Verdict(trial))
      ensures view == Next(old(view), Verdict(trial), |old(log).entries|)
    {
      trial := *;
      Hear(Verdict(trial));
    }

    static function Verdict(trial: Trial): Entry {
      match trial
      case Stable => Expired(StableTimer)
      case Exited => Received
      case RunCancelled => Cancelled
    }

    // Whether the exit arrives before the timer.
    method ExitArrives(ghost timer: Timer) returns (arrives: bool)
      requires Tracked() && Allowed(view, Received) && Allowed(view, Expired(timer))
      modifies this`log, this`view, this`heard
      ensures Tracked()
      ensures view == Next(old(view), if arrives then Received else Expired(timer), |old(log).entries|)
    {
      arrives := *;
      Hear(if arrives then Received else Expired(timer));
    }

    method StartChild(ghost cause: Cause) returns (started: bool)
      requires Tracked() && Allowed(view, Started(cause)) && Allowed(view, StartFailed(cause))
      modifies this`log, this`view, this`heard
      ensures Tracked()
      ensures view == Next(old(view), if started then Started(cause) else StartFailed(cause), |old(log).entries|)
    {
      started := *;
      Hear(if started then Started(cause) else StartFailed(cause));
    }

    // The monotonic clock.
    method Now() returns (now: int)
      modifies this`clock
      ensures now == clock && clock >= old(clock)
    {
      var passed: int := *;
      if passed > 0 { clock := clock + passed; }
      now := clock;
    }

    // ---- single statements ----

    ghost method Note(e: Entry)
      requires Tracked() && Allowed(view, e) && !e.Health? && !Told(e)
      modifies this`log, this`view
      ensures Tracked() && log == Append(old(log), e)
      ensures view == Next(old(view), e, |old(log).entries|)
    {
      AppendFollows(log, e);
      log, view := Append(log, e), Next(view, e, |log.entries|);
    }

    method Store(value: bool)
      requires Tracked() && Allowed(view, Health(value))
      modifies this`healthy, this`log, this`view
      ensures Tracked() && log == Append(old(log), Health(value))
      ensures view == old(view).(healthy := value)
    {
      healthy := value;
      AppendFollows(log, Health(value));
      log, view := Append(log, Health(value)), Next(view, Health(value), |log.entries|);
    }

    // Signals the child, waits, kills it, waits again. Only a child whose exit never arrives is a fault.
    method StopChild(signal: Signal) returns (fault: Option<Fault>)
      requires Tracked() && view.alive && view.stopping.NotAsked? && StopDue(view) && signal == StopSignal(view)
      requires view.open.None? || view.healthy
      modifies this`healthy, this`log, this`view, this`heard
      ensures Tracked() && fault == if view.alive then Some(ChildStop) else None
      ensures view == old(view).(healthy := false, alive := view.alive, stopping := view.stopping,
                                 heard := view.heard, latest := view.latest)
      ensures view.latest == Some(if view.alive then Expired(KillTimer) else Received)
      ensures if view.alive then view.stopping.Stuck? else !view.stopping.NotAsked?
      ensures |heard| >= |old(heard)|
    {
      Store(false);
      Note(Signalled(signal));
      var inTime := ExitArrives(StopTimer);
      if inTime { return None; }
      fault := KillChild();
    }

    method KillChild() returns (fault: Option<Fault>)
      requires Tracked() && view.alive && !view.healthy && view.stopping.Overdue?
      requires view.open.Some? ==> view.open.value.request != RestartRequest(true)
      modifies this`healthy, this`log, this`view, this`heard
      ensures Tracked() && fault == if view.alive then Some(ChildStop) else None
      ensures view == old(view).(alive := view.alive, stopping := view.stopping,
                                 heard := view.heard, latest := view.latest)
      ensures view.latest == Some(if view.alive then Expired(KillTimer) else Received)
      ensures if view.alive then view.stopping.Stuck? else !view.stopping.NotAsked?
      ensures |heard| >= |old(heard)|
    {
      Note(Killed);
      var inTime := ExitArrives(KillTimer);
      return if inTime then None else Some(ChildStop);
    }

    /** Keeps the times after the cutoff, in order, at the front of the array. */
    method Compact(failures: array<int>, count: nat, cutoff: int) returns (kept: nat)
      requires count <= failures.Length
      modifies failures
      ensures kept <= count && failures[..kept] == After(old(failures[..count]), cutoff)
    {
      kept := 0;
      for i := 0 to count
        invariant kept <= i
        invariant failures[..kept] == After(old(failures[..i]), cutoff)
        invariant failures[i..count] == old(failures[i..count])
      {
        assert failures[i] == failures[i..count][0] == old(failures[i]);
        assert old(failures[..i + 1]) == old(failures[..i]) + [old(failures[i])];
        if failures[i] > cutoff {
          failures[kept] := failures[i];
          kept := kept + 1;
        }
      }
    }

    // What the failure array holds between failures.
    ghost predicate Holds(failures: array<int>, count: nat)
      reads this`view, this`clock, failures
    {
      && window > 0
      && failures.Length == maxFailures + 1 && count <= failures.Length
      && failures[..count] == Recent(view.failed, window)
      && (view.failed != [] ==> view.failed[|view.failed| - 1] <= clock)
    }

    ghost predicate Budgeted()
      reads this`view
    {
      WithinBudget(view.failed, window, maxFailures)
    }

    // What holds when the loop is left: why it returns what it returns.
    ghost predicate Ended(fault: Option<Fault>)
      reads this
    {
      && Tracked() && view.open.None? && !view.lapse.Uncounted? && !view.healthy
      && fault in {None, Some(ChildStop), Some(ChildStart), Some(RepeatedFailures)}
      && (view.alive <==> fault == Some(ChildStop))
      && (view.alive ==> view.stopping.Stuck?)
      && (fault.None? ==> view.quitting && view.latest == Some(Received) && !view.stopping.NotAsked?)
      && (view.unstarted <==> fault == Some(ChildStart))
      && (fault == Some(RepeatedFailures) <==> !Budgeted())
      && WithinBudget(view.restarted, window, maxFailures)
    }

    // Prunes the times that have left the window and appends the new one.
    method Prune(failures: array<int>, count: nat, now: int, ghost held: seq<int>) returns (kept: nat)
      requires count < failures.Length && held == failures[..count]
      modifies failures
      ensures kept == |After(held, now - window)| + 1 <= count + 1
      ensures failures[..kept] == After(held, now - window) + [now]
    {
      kept := Compact(failures, count, now - window);
      ghost var pruned := failures[..kept];
      failures[kept] := now;
      assert failures[..kept] == pruned;
      kept := kept + 1;
    }

    /** Notes a failure: afterwards the array holds exactly the failures of the window, within its
        length, and the limit is exceeded exactly when the whole history says so. */
    method RecordFailure(failures: array<int>, count: nat) returns (kept: nat, exceeded: bool)
      requires Holds(failures, count) && count <= maxFailures && Budgeted()
      modifies failures, this`clock
      ensures clock >= old(clock) && kept <= failures.Length
      ensures failures[..kept] == Recent(view.failed + [clock], window)
      ensures exceeded == (kept > maxFailures)
      ensures exceeded <==> !WithinBudget(view.failed + [clock], window, maxFailures)
    {
      ghost var held := failures[..count];
      ghost var failed := view.failed;
      var now := Now();
      kept := Prune(failures, count, now, held);
      PrunedIsRecent(held, failed, now, window, maxFailures);
      exceeded := kept > maxFailures;
    }

    // The exit of the child was received and health is false: start another, unless it failed too often.
    method Recover(failures: array<int>, count: nat) returns (ending: Ending, kept: nat)
      requires Tracked() && Holds(failures, count) && count <= maxFailures && Budgeted()
      requires !view.alive && !view.healthy && !view.unstarted && !view.quitting && view.lapse.Uncounted?
      requires view.open.None? && view.restarted == view.failed && view.stopping.NotAsked?
      modifies failures, this`clock, this`healthy, this`log, this`view, this`heard
      ensures Holds(failures, kept)
      ensures ending.StillRunning? ==> Steady() && kept <= maxFailures
      ensures ending.Returned? ==> Ended(ending.fault)
      ensures |heard| >= |old(heard)|
    {
      var exceeded;
      kept, exceeded := RecordFailure(failures, count);
      Note(Failed(clock));
      if exceeded { return Returned(Some(RepeatedFailures)), kept; }
      ending := StartAgain();
    }

    // Starts a child after a failure that is within the limit.
    method StartAgain() returns (ending: Ending)
      requires Tracked() && Budgeted() && !view.alive && !view.healthy && !view.unstarted && view.open.None?
      requires !view.quitting && view.lapse == Counted(clock) && view.stopping.NotAsked?
      requires view.failed == view.restarted + [clock] && WithinBudget(view.restarted, window, maxFailures)
      modifies this`healthy, this`log, this`view, this`heard
      ensures view.failed == old(view.failed)
      ensures ending.StillRunning? ==> Steady()
      ensures ending.Returned? ==> Ended(ending.fault)
      ensures |heard| >= |old(heard)|
    {
      var started := StartChild(AfterFailure(clock));
      if !started { return Returned(Some(ChildStart)); }
      Store(true);
      return StillRunning;
    }

    // A round of the loop has just received a request or an exit.
    ghost predicate Roused(event: Event)
      reads this
    {
      && Tracked() && Budgeted()
      && view.latest == Some(Hearing(event)) && view.stopping.NotAsked? && view.healthy
      && view.alive == !event.ChildExited?
      && view.quitting == (event.RunDone? || (event.Requests? && event.request.ShutdownRequest?))
      && (if event.Requests? then view.open.Some? && view.open.value.request == event.request && !view.tried
          else view.open.None?)
      && !view.unstarted && view.restarted == view.failed
      && view.lapse == if event.ChildExited? then Uncounted else NoLapse
    }

    method HandleCancelled() returns (ending: Ending)
      requires Roused(RunDone)
      modifies this`healthy, this`log, this`view, this`heard
      ensures ending.Returned? && Ended(ending.fault)
      ensures view.failed == old(view.failed) && |heard| >= |old(heard)|
    {
      var fault := StopChild(Terminate);
      return Returned(fault);
    }

    method HandleShutdown(signal: Signal) returns (ending: Ending)
      requires Roused(Requests(ShutdownRequest(signal)))
      modifies this`healthy, this`log, this`view, this`heard
      ensures ending == Returned(if view.alive then Some(ChildStop) else None) && Ended(ending.fault)
      ensures view.failed == old(view.failed) && |heard| >= |old(heard)|
    {
      ghost var to := view.open.value.at;
      var fault := StopChild(signal);
      Note(Replied(to, fault));
      return Returned(fault);
    }

    /** A canceled request gets its refusal and leaves everything as it was; a live one is carried out. */
    method HandleRestart(canceled: bool, failures: array<int>, count: nat) returns (ending: Ending, kept: nat)
      requires Roused(Requests(RestartRequest(canceled))) && Holds(failures, count) && count <= maxFailures
      modifies failures, this`clock, this`healthy, this`log, this`view, this`heard
      ensures Holds(failures, kept)
      ensures canceled ==>
                && ending.StillRunning? && view == old(view).(open := None)
                && log == Append(old(log), Replied(old(view).open.value.at, Some(RestartCanceled)))
      ensures ending.StillRunning? ==> Steady() && kept <= maxFailures
      ensures ending.Returned? ==> Ended(ending.fault)
      ensures |heard| >= |old(heard)|
    {
      ghost var to := view.open.value.at;
      kept := count;
      if canceled {
        Note(Replied(to, Some(RestartCanceled)));
        return StillRunning, kept;
      }
      ending, kept := Replace(to, failures, count);
    }

    // Stops the child and starts another one.
    method Replace(ghost to: nat, failures: array<int>, count: nat) returns (ending: Ending, kept: nat)
      requires Roused(Requests(RestartRequest(false))) && Holds(failures, count) && count <= maxFailures
      requires view.open.value.at == to
      modifies failures, this`clock, this`healthy, this`log, this`view, this`heard
      ensures Holds(failures, kept)
      ensures ending.StillRunning? ==> Steady() && kept <= maxFailures
      ensures ending.Returned? ==> Ended(ending.fault)
      ensures |heard| >= |old(heard)|
    {
      kept := count;
      var fault := StopChild(Terminate);
      if fault.Some? {
        Note(Replied(to, fault));
        return Returned(fault), kept;
      }
      var started := StartChild(Requested);
      if !started {
        Note(Replied(to, Some(ChildStart)));
        return Returned(Some(ChildStart)), kept;
      }
      ending, kept := Try(to, failures, count);
    }

    // The stability window after a requested start.
    method Try(ghost to: nat, failures: array<int>, count: nat) returns (ending: Ending, kept: nat)
      requires Tracked() && Holds(failures, count) && count <= maxFailures && Budgeted()
      requires InWindow(view) && view.stopping.NotAsked? && view.lapse.NoLapse?
      requires !view.unstarted && view.restarted == view.failed && view.open.value.at == to
      modifies failures, this`clock, this`healthy, this`log, this`view, this`heard
      ensures Holds(failures, kept)
      ensures ending.StillRunning? ==> Steady() && kept <= maxFailures
      ensures ending.Returned? ==> Ended(ending.fault)
      ensures |heard| >= |old(heard)|
    {
      kept := count;
      var trial := Observe();
      match trial {
        case Stable => Confirm(to); return StillRunning, kept;
        case Exited => ending, kept := Unstable(to, failures, count);
        case RunCancelled => ending := Abandon(to);
      }
    }

    // The child stayed up.
    method Confirm(ghost to: nat)
      requires Tracked() && Restarting(view) && view.open.value.at == to && view.tried && view.alive
      requires !view.healthy && !view.quitting && view.stopping.NotAsked? && view.latest == Some(Expired(StableTimer))
      modifies this`healthy, this`log, this`view
      ensures Tracked() && view == old(view).(healthy := true, open := None)
    {
      Store(true);
      Note(Replied(to, None));
    }

    // The run is cancelled within the stability window.
    method Abandon(ghost to: nat) returns (ending: Ending)
      requires Tracked() && Budgeted() && view.restarted == view.failed && !view.unstarted
      requires Restarting(view) && view.open.value.at == to && view.tried && view.alive && !view.healthy
      requires view.quitting && view.latest == Some(Cancelled) && view.stopping.NotAsked? && view.lapse.NoLapse?
      modifies this`healthy, this`log, this`view, this`heard
      ensures view.failed == old(view.failed) && ending.Returned? && Ended(ending.fault)
      ensures |heard| >= |old(heard)|
    {
      Note(Replied(to, Some(RestartCanceled)));
      var fault := StopChild(Terminate);
      return Returned(fault);
    }

    // The child exited within the stability window.
    method Unstable(ghost to: nat, failures: array<int>, count: nat) returns (ending: Ending, kept: nat)
      requires Tracked() && Holds(failures, count) && count <= maxFailures && Budgeted()
      requires Restarting(view) && view.open.value.at == to && view.tried && !view.alive && !view.healthy
      requires view.latest == Some(Received) && view.lapse.Uncounted? && view.stopping.NotAsked?
      requires !view.quitting && !view.unstarted && view.restarted == view.failed
      modifies failures, this`clock, this`healthy, this`log, this`view, this`heard
      ensures Holds(failures, kept)
      ensures ending.StillRunning? ==> Steady() && kept <= maxFailures
      ensures ending.Returned? ==> Ended(ending.fault)
      ensures |heard| >= |old(heard)|
    {
      Store(false);
      Note(Replied(to, Some(ChildUnstable)));
      ending, kept := Recover(failures, count);
    }

    method HandleExit(failures: array<int>, count: nat) returns (ending: Ending, kept: nat)
      requires Roused(ChildExited) && Holds(failures, count) && count <= maxFailures
      modifies failures, this`clock, this`healthy, this`log, this`view, this`heard
      ensures Holds(failures, kept)
      ensures ending.StillRunning? ==> Steady() && kept <= maxFailures
      ensures ending.Returned? ==> Ended(ending.fault)
      ensures |heard| >= |old(heard)|
    {
      Store(false);
      ending, kept := Recover(failures, count);
    }

    /** One `Run`, observed for any number of rounds of its loop: `StillRunning` when it has not
        returned by then. Every statement about logs holds for its log, which has exactly what the run
        was told. It ends with ErrRepeatedFailures exactly when the limit was exceeded, leaves a live
        child exactly when it ends with ErrChildStop, and ends without an error only when it was
        cancelled or asked to shut down and the child's exit was received. */
    method Run(rounds: nat) returns (ending: Ending)
      requires Valid()
      modifies this
      ensures Valid()
      ensures old(running) ==> ending == Returned(Some(AlreadyRunning)) && unchanged(this)
      ensures !old(running) && ending.StillRunning? ==> running && Steady() && |heard| > rounds
      ensures !old(running) && ending.Returned? ==> !running && !healthy && Ended(ending.fault)
    {
      if running { return Returned(Some(AlreadyRunning)); }
      running := true;
      healthy := false;
      log, view, heard := Log([], [BLANK]), BLANK, [];
      var started := StartChild(First);
      if !started {
        running := false;
        return Returned(Some(ChildStart));
      }
      Store(true);
      ending := Loop(rounds);
      if ending.Returned? {
        Leave();
        running := false;
      }
    }

    // The deferred store.
    method Leave()
      requires Tracked() && view.open.None? && !view.healthy && (view.alive ==> view.stopping.Stuck?)
      modifies this`healthy, this`log, this`view
      ensures Tracked() && !healthy && view == old(view).(healthy := false)
    {
      Store(false);
    }

    // One round of the loop is one thing the run is told.
    method Round(failures: array<int>, count: nat) returns (ending: Ending, kept: nat)
      requires Steady() && Holds(failures, count) && count <= maxFailures
      modifies failures, this`clock, this`healthy, this`log, this`view, this`heard
      ensures Holds(failures, kept) && |heard| > |old(heard)|
      ensures ending.StillRunning? ==> Steady() && kept <= maxFailures
      ensures ending.Returned? ==> Ended(ending.fault)
    {
      var event := Select();
      ending, kept := Handle(event, failures, count);
    }

    method Handle(event: Event, failures: array<int>, count: nat) returns (ending: Ending, kept: nat)
      requires Roused(event) && Holds(failures, count) && count <= maxFailures
      modifies failures, this`clock, this`healthy, this`log, this`view, this`heard
      ensures Holds(failures, kept) && |heard| >= |old(heard)|
      ensures ending.StillRunning? ==> Steady() && kept <= maxFailures
      ensures ending.Returned? ==> Ended(ending.fault)
    {
      kept := count;
      match event {
        case RunDone => ending := HandleCancelled();
        case Requests(request) => ending, kept := HandleRequest(request, failures, count);
        case ChildExited => ending, kept := HandleExit(failures, count);
      }
    }

    method HandleRequest(request: Request, failures: array<int>, count: nat) returns (ending: Ending, kept: nat)
      requires Roused(Requests(request)) && Holds(failures, count) && count <= maxFailures
      modifies failures, this`clock, this`healthy, this`log, this`view, this`heard
      ensures Holds(failures, kept) && |heard| >= |old(heard)|
      ensures ending.StillRunning? ==> Steady() && kept <= maxFailures
      ensures ending.Returned? ==> Ended(ending.fault)
    {
      kept := count;
      match request {
        case ShutdownRequest(signal) => ending := HandleShutdown(signal);
        case RestartRequest(canceled) => ending, kept := HandleRestart(canceled, failures, count);
      }
    }

    method Loop(rounds: nat) returns (ending: Ending)
      requires Steady() && window > 0 && view.failed == []
      modifies this`clock, this`healthy, this`log, this`view, this`heard
      ensures ending.StillRunning? ==> Steady() && |heard| >= |old(heard)| + rounds
      ensures ending.Returned? ==> Ended(ending.fault)
    {
      var failures := new int[maxFailures + 1];
      var count: nat := 0;
      ending := StillRunning;
      for round := 0 to rounds
        invariant fresh(failures) && Holds(failures, count) && count <= maxFailures
        invariant ending.StillRunning? && Steady() && |heard| >= |old(heard)| + round
      {
        ending, count := Round(failures, count);
        if ending.Returned? { return; }
      }
    }
  }

  /** When no round is in progress, every request accepted so far has exactly one reply. */
  lemma EveryRequestAnsweredOnce(manager: ProcessManager, fault: Option<Fault>, i: nat)
    requires manager.Steady() || manager.Ended(fault)
    requires i < |manager.log.entries| && manager.log.entries[i].Accepted?
    ensures exists j :: ReplyTo(manager.log, i, j) && forall k :: ReplyTo(manager.log, i, k) ==> k == j
  {
    var log := manager.log;
    RepliedOrOpen(log, i, |log.entries|);
    var j :| i < j < |log.entries| && log.entries[j].Replied? && log.entries[j].to == i;
    assert ReplyTo(log, i, j);
    forall k | ReplyTo(log, i, k) ensures k == j {
      RepliedAtMostOnce(log, if j <= k then j else k, if j <= k then k else j);
    }
  }

  ghost predicate ReplyTo(log: Log, i: int, j: int) {
    0 <= j < |log.entries| && log.entries[j].Replied? && log.entries[j].to == i
  }

  /** In every log a run leaves behind, failure-triggered restarts stay within the limit: any interval
      of the window's length, wherever it starts, holds at most `maxFailures` of them. */
  lemma RestartsAreSpaced(manager: ProcessManager, fault: Option<Fault>, low: int)
    requires manager.Steady() || manager.Ended(fault)
    ensures |Between(manager.view.restarted, low, low + manager.window)| <= manager.maxFailures
  {
    NoBusyInterval(manager.view.restarted, manager.window, manager.maxFailures, low);
  }
}
