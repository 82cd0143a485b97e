/** One replica's session supervisor: which sessions have a socket, timers, workers and retry counters.

    Each handler of the session manager is one step.  The pure functions say what a step does;
    class SessionManager keeps the same state in fields and is proved to perform those steps. */
module Supervisor {
  type Sid = string

  const MAX_RETRIES := 10
  const MAX_RETRY_DELAY_MS := 300_000
  const MIN_RECONNECT_DELAY_MS := 3000
  const NEVER_PAIRED_428_DELAYS_MS: seq<nat> := [30_000, 120_000, 300_000, 900_000]
  const NEVER_PAIRED_428_MAX_ATTEMPTS := |NEVER_PAIRED_428_DELAYS_MS| + 1

  const LOGGED_OUT := 401
  const CONNECTION_CLOSED := 428
  const RESTART_REQUIRED := 515

  /** The two flags of a session's metadata that keep reconciliation away. */
  datatype Row = Row(connectionFailed: bool, authStateError: bool)

  /** How an `initializeSocket` call ends: before touching the maps, after clearing old state, or with a socket. */
  datatype Outcome = NotOwner | Threw | Opened

  datatype State = State(
    heartbeats: set<Sid>,
    watchdogs: set<Sid>,
    workers: set<Sid>,
    active: set<Sid>,
    pending: map<Sid, int>,           // reconnect timers with their delay in ms
    retries: map<Sid, nat>,
    closed428: map<Sid, nat>,
    rows: map<Sid, Row>)

  /** A `close` event: status code, whether the session ever paired, and the random draw for the jitter. */
  datatype Closing = Closing(code: int, neverPaired: bool, random: real)

  datatype Action =
    | Start(sid: Sid, outcome: Outcome)            // creation, orchestration job; restore when the process starts
    | Connected(sid: Sid)
    | Closed(sid: Sid, closing: Closing)
    | Fire(sid: Sid, outcome: Outcome)             // reconnect timer
    | ForceTerminate(sid: Sid)                     // heartbeat, watchdog, fencing check, shutdown
    | AuthFailure(sid: Sid)
    | Destroy(sid: Sid)                            // destroy command, taken by the session's control worker
    | Restart(sid: Sid, outcome: Outcome)          // restart command, likewise
    | Reconcile(sid: Sid, seen: Row, owned: bool, outcome: Outcome)
    | Rewrite(sid: Sid, copy: Row)                 // a session's whole metadata written back from an earlier SELECT

  predicate Drawn(a: Action) {
    a.Closed? ==> 0.0 <= a.closing.random < 1.0
  }

  function Count(m: map<Sid, nat>, sid: Sid): nat {
    if sid in m then m[sid] else 0
  }

  // ----- backoff delays

  /** Math.round: half up. */
  function Round(x: real): int {
    (x + 0.5).Floor
  }

  function FlooredDelay(n: nat): int {
    var base := if n * n * 1000 < MAX_RETRY_DELAY_MS then n * n * 1000 else MAX_RETRY_DELAY_MS;
    if base < MIN_RECONNECT_DELAY_MS then MIN_RECONNECT_DELAY_MS else base
  }

  function ReconnectDelay(n: nat, random: real): int {
    Round(FlooredDelay(n) as real * (0.8 + random * 0.4))
  }

  // ----- steps

  function Stopped(s: State, sid: Sid): State {
    s.(heartbeats := s.heartbeats - {sid}, watchdogs := s.watchdogs - {sid}, workers := s.workers - {sid})
  }

  function RemovedActive(s: State, sid: Sid): State {
    if sid in s.active then Stopped(s, sid).(active := s.active - {sid}) else s
  }

  function Terminated(s: State, sid: Sid): State {
    Stopped(s, sid).(active := s.active - {sid}, pending := s.pending - {sid})
  }

  function Reset(s: State, sid: Sid): State {
    s.(retries := s.retries - {sid}, closed428 := s.closed428 - {sid})
  }

  function Destroyed(s: State, sid: Sid): State {
    Terminated(Reset(s, sid), sid)
  }

  function Initialized(s: State, sid: Sid, outcome: Outcome): State {
    if outcome.NotOwner? then s
    else
      var t := RemovedActive(s.(pending := s.pending - {sid}), sid);
      if outcome.Threw? then t
      else t.(active := t.active + {sid}, heartbeats := t.heartbeats + {sid},
              watchdogs := t.watchdogs + {sid}, workers := t.workers + {sid})
  }

  function Flag(s: State, sid: Sid, row: Row): State {
    if sid in s.rows then s.(rows := s.rows[sid := row]) else s
  }

  function RowOf(s: State, sid: Sid): Row {
    if sid in s.rows then s.rows[sid] else Row(false, false)
  }

  /** terminateSessionDueToMaxRetries */
  function GivenUp(s: State, sid: Sid): State {
    Terminated(Reset(Flag(s, sid, RowOf(s, sid).(connectionFailed := true)), sid), sid)
  }

  /** What a close event asks for. */
  datatype Verdict =
    | Terminal
    | GiveUp(counter: map<Sid, nat>, slow: bool)
    | Retry(counter: map<Sid, nat>, slow: bool, delay: int)

  function Judge(s: State, sid: Sid, c: Closing): Verdict {
    if c.code == LOGGED_OUT then Terminal
    else if c.neverPaired && c.code == CONNECTION_CLOSED then
      var n := Count(s.closed428, sid) + 1;
      var counter := s.closed428[sid := n];
      if n >= NEVER_PAIRED_428_MAX_ATTEMPTS then GiveUp(counter, true)
      else Retry(counter, true, NEVER_PAIRED_428_DELAYS_MS[n - 1])
    else if c.code == RESTART_REQUIRED then Retry(s.retries, false, 0)
    else
      var n := Count(s.retries, sid) + 1;
      var counter := s.retries[sid := n];
      if n > MAX_RETRIES then GiveUp(counter, false)
      else Retry(counter, false, ReconnectDelay(n, c.random))
  }

  function Counted(s: State, counter: map<Sid, nat>, slow: bool): State {
    if slow then s.(closed428 := counter) else s.(retries := counter)
  }

  /** A reconnect already pending is kept. */
  function Scheduled(s: State, sid: Sid, delay: int): State {
    if sid in s.pending then s else s.(pending := s.pending[sid := delay])
  }

  function OnClose(s: State, sid: Sid, c: Closing): State {
    if sid !in s.active then s            // listeners are removed with the socket
    else match Judge(s, sid, c)
      case Terminal => RemovedActive(Reset(s, sid).(pending := s.pending - {sid}), sid)
      case GiveUp(counter, slow) => GivenUp(Counted(s, counter, slow), sid)
      case Retry(counter, slow, delay) => Scheduled(Counted(s, counter, slow), sid, delay)
  }

  function OnTimer(s: State, sid: Sid, outcome: Outcome): State {
    if sid !in s.pending then s
    else Initialized(s.(pending := s.pending - {sid}, active := s.active - {sid}), sid, outcome)
  }

  function OnRestart(s: State, sid: Sid, outcome: Outcome): State {
    if sid !in s.workers then s           // the control queue has no consumer
    else
      var t := Flag(Reset(s, sid), sid, RowOf(s, sid).(connectionFailed := false));
      Initialized(Terminated(t, sid), sid, outcome)
  }

  function OnReconcile(s: State, sid: Sid, seen: Row, owned: bool, outcome: Outcome): State {
    if seen.authStateError || seen.connectionFailed || owned then s
    else Initialized(s, sid, outcome)
  }

  function Step(s: State, a: Action): State {
    match a
    case Start(sid, o) => Initialized(s, sid, o)
    case Connected(sid) => if sid in s.active then Reset(s, sid).(pending := s.pending - {sid}) else s
    case Closed(sid, c) => OnClose(s, sid, c)
    case Fire(sid, o) => OnTimer(s, sid, o)
    case ForceTerminate(sid) => Terminated(s, sid)
    case AuthFailure(sid) => Terminated(Flag(s, sid, RowOf(s, sid).(authStateError := true)), sid)
    case Destroy(sid) => if sid in s.workers then Destroyed(s, sid) else s
    case Restart(sid, o) => OnRestart(s, sid, o)
    case Reconcile(sid, seen, owned, o) => OnReconcile(s, sid, seen, owned, o)
    case Rewrite(sid, copy) => Flag(s, sid, copy)
  }

  function Steps(s: State, acts: seq<Action>): State
    decreases |acts|
  {
    if acts == [] then s else Steps(Step(s, acts[0]), acts[1..])
  }

  // ----- the invariant

  /** A socket or a pending reconnect has its heartbeat and watchdog; heartbeats, watchdogs and workers
      run for the same sessions; the counters stay below their limits. */
  ghost predicate Inv(s: State) {
    && s.heartbeats == s.watchdogs == s.workers
    && s.active + s.pending.Keys <= s.heartbeats
    && (forall sid | sid in s.retries :: s.retries[sid] <= MAX_RETRIES)
    && (forall sid | sid in s.closed428 :: s.closed428[sid] < NEVER_PAIRED_428_MAX_ATTEMPTS)
  }

  lemma InitializedKeeps(s: State, sid: Sid, o: Outcome)
    requires Inv(s)
    ensures Inv(Initialized(s, sid, o))
  {
  }

  lemma CloseKeeps(s: State, sid: Sid, c: Closing)
    requires Inv(s)
    ensures Inv(OnClose(s, sid, c))
  {
    if sid in s.active {
      match Judge(s, sid, c)
      case Terminal => TerminalKeeps(s, sid);
      case GiveUp(counter, slow) => GiveUpKeeps(s, sid, c);
      case Retry(_, _, _) => RetryKeeps(s, sid, c);
    }
  }

  lemma TerminalKeeps(s: State, sid: Sid)
    requires Inv(s)
    ensures Inv(RemovedActive(Reset(s, sid).(pending := s.pending - {sid}), sid))
  {
  }

  lemma GiveUpKeeps(s: State, sid: Sid, c: Closing)
    requires Inv(s) && Judge(s, sid, c).GiveUp?
    ensures var v := Judge(s, sid, c); Inv(GivenUp(Counted(s, v.counter, v.slow), sid))
  {
    var v := Judge(s, sid, c);
    var t := Counted(s, v.counter, v.slow);
    assert Reset(t, sid).retries == Reset(s, sid).retries;
    assert Reset(t, sid).closed428 == Reset(s, sid).closed428;
    ResetKeeps(s, sid);
  }

  lemma RetryKeeps(s: State, sid: Sid, c: Closing)
    requires Inv(s) && sid in s.active && Judge(s, sid, c).Retry?
    ensures var v := Judge(s, sid, c); Inv(Scheduled(Counted(s, v.counter, v.slow), sid, v.delay))
  {
    var v := Judge(s, sid, c);
    var t := Counted(s, v.counter, v.slow);
    assert Inv(t);
  }

  lemma ResetKeeps(s: State, sid: Sid)
    requires Inv(s)
    ensures Inv(Reset(s, sid)) && Inv(Terminated(Reset(s, sid), sid))
  {
  }

  lemma StepKeeps(s: State, a: Action)
    requires Inv(s)
    ensures Inv(Step(s, a))
  {
    match a
    case Closed(sid, c) => CloseKeeps(s, sid, c);
    case Start(sid, o) => InitializedKeeps(s, sid, o);
    case Fire(sid, o) =>
      InitializedKeeps(s.(pending := s.pending - {sid}, active := s.active - {sid}), sid, o);
    case Restart(sid, o) =>
      var t := Terminated(Flag(Reset(s, sid), sid, RowOf(s, sid).(connectionFailed := false)), sid);
      InitializedKeeps(t, sid, o);
    case Reconcile(sid, _, _, o) => InitializedKeeps(s, sid, o);
    case _ =>
  }

  /** From a freshly started replica the invariant holds after every sequence of steps. */
  lemma {:induction false} AlwaysSupervised(s: State, acts: seq<Action>)
    requires Inv(s)
    ensures Inv(Steps(s, acts))
    decreases |acts|
  {
    if acts != [] {
      StepKeeps(s, acts[0]);
      AlwaysSupervised(Step(s, acts[0]), acts[1..]);
    }
  }

  /** While every running heartbeat keeps its lease, a reconciliation visit leaves alone each session that has
      a socket or a pending reconnect timer, in every state a run of steps can lead to. */
  lemma BackoffIsRespected(start: State, acts: seq<Action>, sid: Sid, seen: Row, owned: bool, o: Outcome)
    requires Inv(start)
    requires sid in Steps(start, acts).heartbeats ==> owned
    requires sid in Steps(start, acts).pending.Keys + Steps(start, acts).active
    ensures OnReconcile(Steps(start, acts), sid, seen, owned, o) == Steps(start, acts)
  {
    AlwaysSupervised(start, acts);
  }

  // ----- termination is final

  ghost predicate Down(s: State, sid: Sid) {
    sid !in s.active + s.pending.Keys + s.heartbeats + s.watchdogs + s.workers
  }

  /** Giving up leaves nothing of the session behind but the flag that keeps reconciliation away. */
  lemma GivingUpIsClean(s: State, sid: Sid, c: Closing)
    requires sid in s.active && sid in s.rows && Judge(s, sid, c).GiveUp?
    ensures Down(OnClose(s, sid, c), sid)
    ensures RowOf(OnClose(s, sid, c), sid).connectionFailed
    ensures Count(OnClose(s, sid, c).retries, sid) == Count(OnClose(s, sid, c).closed428, sid) == 0
  {
  }

  /** A logout leaves nothing running either, and no counter. */
  lemma LogoutIsClean(s: State, sid: Sid, c: Closing)
    requires Inv(s) && sid in s.active && c.code == LOGGED_OUT
    ensures Down(OnClose(s, sid, c), sid)
    ensures Count(OnClose(s, sid, c).retries, sid) == Count(OnClose(s, sid, c).closed428, sid) == 0
  {
  }

  /** Two states agree on everything about one session. */
  ghost predicate Same(s: State, t: State, sid: Sid) {
    && (sid in s.active <==> sid in t.active) && (sid in s.pending <==> sid in t.pending)
    && (sid in s.heartbeats <==> sid in t.heartbeats) && (sid in s.watchdogs <==> sid in t.watchdogs)
    && (sid in s.workers <==> sid in t.workers)
    && (sid in s.rows <==> sid in t.rows) && (sid in s.rows ==> s.rows[sid] == t.rows[sid])
  }

  lemma OtherInitialized(s: State, other: Sid, o: Outcome, sid: Sid)
    requires other != sid
    ensures Same(s, Initialized(s, other, o), sid)
  {
  }

  lemma OtherTerminated(s: State, other: Sid, row: Row, sid: Sid)
    requires other != sid
    ensures Same(s, Terminated(s, other), sid)
    ensures Same(s, Terminated(Reset(s, other), other), sid)
    ensures Same(s, Terminated(Flag(s, other, row), other), sid)
  {
  }

  lemma OtherRestarted(s: State, other: Sid, row: Row, sid: Sid)
    requires other != sid
    ensures Same(s, Terminated(Flag(Reset(s, other), other, row), other), sid)
  {
    OtherTerminated(Reset(s, other), other, row, sid);
  }

  lemma OtherGivenUp(s: State, other: Sid, sid: Sid)
    requires other != sid
    ensures Same(s, GivenUp(s, other), sid)
  {
    OtherTerminated(Flag(s, other, RowOf(s, other).(connectionFailed := true)), other, RowOf(s, other), sid);
  }

  lemma OtherClose(s: State, other: Sid, c: Closing, sid: Sid)
    requires other != sid
    ensures Same(s, OnClose(s, other, c), sid)
  {
    if other in s.active {
      match Judge(s, other, c)
      case Terminal => OtherRemoved(Reset(s, other).(pending := s.pending - {other}), other, sid);
      case GiveUp(counter, slow) => OtherGivenUp(Counted(s, counter, slow), other, sid);
      case Retry(counter, slow, delay) => OtherScheduled(Counted(s, counter, slow), other, delay, sid);
    }
  }

  lemma OtherRemoved(s: State, other: Sid, sid: Sid)
    requires other != sid
    ensures Same(s, RemovedActive(s, other), sid)
  {
  }

  lemma OtherScheduled(s: State, other: Sid, delay: int, sid: Sid)
    requires other != sid
    ensures Same(s, Scheduled(s, other, delay), sid)
  {
  }

  /** A step for one session leaves every other session alone. */
  lemma OtherStep(s: State, a: Action, sid: Sid)
    requires a.sid != sid
    ensures Same(s, Step(s, a), sid)
  {
    match a
    case Start(x, o) => OtherInitialized(s, x, o, sid);
    case Connected(x) =>
    case Closed(x, c) => OtherClose(s, x, c, sid);
    case Fire(x, o) => OtherInitialized(s.(pending := s.pending - {x}, active := s.active - {x}), x, o, sid);
    case ForceTerminate(x) => OtherTerminated(s, x, RowOf(s, x), sid);
    case AuthFailure(x) => OtherTerminated(s, x, RowOf(s, x).(authStateError := true), sid);
    case Destroy(x) => OtherTerminated(s, x, RowOf(s, x), sid);
    case Restart(x, o) =>
      OtherRestarted(s, x, RowOf(s, x).(connectionFailed := false), sid);
      OtherInitialized(Terminated(Flag(Reset(s, x), x, RowOf(s, x).(connectionFailed := false)), x), x, o, sid);
    case Reconcile(x, _, _, o) => OtherInitialized(s, x, o, sid);
    case Rewrite(_, _) =>
  }

  /** The only steps that bring a session back on which nothing runs: a start that gets as far as a socket, and a
      reconciliation visit to a free key with a row read before either flag was set. */
  predicate Revives(a: Action, sid: Sid) {
    && a.sid == sid
    && match a
       case Start(_, outcome) => outcome.Opened?
       case Reconcile(_, seen, owned, outcome) =>
         outcome.Opened? && !owned && !seen.connectionFailed && !seen.authStateError
       case _ => false
  }

  /** A rewrite with a copy taken before the session was flagged. */
  predicate Unflags(a: Action, sid: Sid) {
    a.Rewrite? && a.sid == sid && !a.copy.connectionFailed
  }

  lemma DownIff(s: State, a: Action, sid: Sid)
    requires Down(s, sid)
    ensures Down(Step(s, a), sid) <==> !Revives(a, sid)
    ensures !Revives(a, sid) && RowOf(s, sid).connectionFailed ==>
              (RowOf(Step(s, a), sid).connectionFailed <==> !Unflags(a, sid))
  {
    if a.sid != sid {
      OtherStep(s, a, sid);
    } else {
      assert sid !in s.active && sid !in s.pending && sid !in s.workers;
    }
  }

  ghost predicate DownThroughout(s: State, acts: seq<Action>, sid: Sid)
    decreases |acts|
  {
    Down(s, sid) && (acts == [] || DownThroughout(Step(s, acts[0]), acts[1..], sid))
  }

  /** A session given up, logged out or otherwise down stays down through a run exactly if no step of it revives it. */
  lemma {:induction false} StaysDownIff(s: State, acts: seq<Action>, sid: Sid)
    requires Down(s, sid)
    ensures DownThroughout(s, acts, sid) <==> forall a | a in acts :: !Revives(a, sid)
    decreases |acts|
  {
    if acts != [] {
      DownIff(s, acts[0], sid);
      assert forall a :: a in acts <==> a == acts[0] || a in acts[1..];
      if !Revives(acts[0], sid) { StaysDownIff(Step(s, acts[0]), acts[1..], sid); }
    }
  }

  ghost predicate FlaggedThroughout(s: State, acts: seq<Action>, sid: Sid)
    decreases |acts|
  {
    RowOf(s, sid).connectionFailed && (acts == [] || FlaggedThroughout(Step(s, acts[0]), acts[1..], sid))
  }

  /** While a session given up is down, the flag stays exactly if no rewrite puts back a copy taken before it was set.
      */
  lemma {:induction false} StaysFlaggedIff(s: State, acts: seq<Action>, sid: Sid)
    requires DownThroughout(s, acts, sid) && RowOf(s, sid).connectionFailed
    ensures FlaggedThroughout(s, acts, sid) <==> forall a | a in acts :: !Unflags(a, sid)
    decreases |acts|
  {
    if acts != [] {
      DownIff(s, acts[0], sid);
      assert forall a :: a in acts <==> a == acts[0] || a in acts[1..];
      if !Unflags(acts[0], sid) { StaysFlaggedIff(Step(s, acts[0]), acts[1..], sid); }
    }
  }

  /** As long as the flag is there, a visit with the session's current row changes nothing; once a rewrite has taken it
      away, with no other error noted, the next visit to a free key brings the session back. */
  lemma VisitRevivesIff(s: State, sid: Sid, owned: bool)
    requires sid in s.rows && Down(s, sid)
    ensures Down(OnReconcile(s, sid, RowOf(s, sid), owned, Opened), sid) <==>
              owned || RowOf(s, sid).connectionFailed || RowOf(s, sid).authStateError
  {
  }

  /** A reconciliation pass reads all rows first; a visit with a row read before the flag was set revives the
      session. */
  lemma StaleVisitRevives(s: State, sid: Sid, c: Closing)
    requires sid in s.active && sid in s.rows && Judge(s, sid, c).GiveUp?
    requires s.rows[sid] == Row(false, false)
    ensures sid in OnReconcile(OnClose(s, sid, c), sid, s.rows[sid], false, Opened).active
  {
  }

  // ----- reconnecting

  /** A reconnect timer that gets as far as a socket replaces the old one and leaves one set of helpers. */
  lemma ReconnectHandsOver(s: State, sid: Sid)
    requires Inv(s) && sid in s.pending
    ensures var t := OnTimer(s, sid, Opened);
            && t == s.(pending := s.pending - {sid}, active := s.active + {sid})
            && sid in t.heartbeats * t.watchdogs * t.workers
  {
    assert sid in s.heartbeats;
  }

  /** A reconnect that fails strands the session: heartbeat, watchdog and worker go on without socket or timer,
      and while the heartbeat keeps the lease no reconciliation visit helps. */
  lemma FailedReconnectStrands(s: State, sid: Sid, failure: Outcome)
    requires Inv(s) && sid in s.pending && !failure.Opened?
    ensures var t := OnTimer(s, sid, failure);
            && sid !in t.active + t.pending.Keys
            && sid in t.heartbeats * t.watchdogs * t.workers
            && forall seen, o :: OnReconcile(t, sid, seen, true, o) == t
  {
    assert sid in s.heartbeats;
  }
}
