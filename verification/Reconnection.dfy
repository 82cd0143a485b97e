/** How often and how long a supervisor waits between two resets of its retry counters. */
module Reconnection {
  import opened Supervisor

  datatype Alarm = Nothing | Timer(slow: bool, counted: bool, delay: int)

  /** The reconnect timer a step sets, if any; a timer already pending is kept and none is set. */
  function ScheduledBy(s: State, a: Action): Alarm {
    if a.Closed? && a.sid in s.active && a.sid !in s.pending then
      match Judge(s, a.sid, a.closing)
      case Retry(_, slow, delay) => Timer(slow, a.closing.code != RESTART_REQUIRED, delay)
      case _ => Nothing
    else Nothing
  }

  /** Timers of one kind set for `sid` along a run: how many, and how long together. */
  function Timers(s: State, acts: seq<Action>, sid: Sid, slow: bool): nat
    decreases |acts|
  {
    if acts == [] then 0
    else (if Hit(s, acts[0], sid, slow) then 1 else 0) + Timers(Step(s, acts[0]), acts[1..], sid, slow)
  }

  function Waited(s: State, acts: seq<Action>, sid: Sid, slow: bool): int
    decreases |acts|
  {
    if acts == [] then 0
    else
      var delay := if Hit(s, acts[0], sid, slow) then ScheduledBy(s, acts[0]).delay else 0;
      delay + Waited(Step(s, acts[0]), acts[1..], sid, slow)
  }

  predicate Hit(s: State, a: Action, sid: Sid, slow: bool) {
    a.sid == sid && ScheduledBy(s, a).Timer? && ScheduledBy(s, a).slow == slow && ScheduledBy(s, a).counted
  }

  /** No step of the run clears either counter of the session. */
  ghost predicate NoReset(s: State, acts: seq<Action>, sid: Sid)
    decreases |acts|
  {
    acts == [] ||
    (&& Count(s.retries, sid) <= Count(Step(s, acts[0]).retries, sid)
     && Count(s.closed428, sid) <= Count(Step(s, acts[0]).closed428, sid)
     && NoReset(Step(s, acts[0]), acts[1..], sid))
  }

  /** The reading above is what the step does to the timers. */
  lemma ScheduledIsPending(s: State, a: Action)
    requires a.Closed? && a.sid in s.active && a.sid !in s.pending
    ensures ScheduledBy(s, a).Timer? ==> Step(s, a).pending == s.pending[a.sid := ScheduledBy(s, a).delay]
    ensures ScheduledBy(s, a).Nothing? ==> Step(s, a).pending == s.pending
  {
  }

  /** Timers may have gone from `s` to `t`, but none was set. */
  ghost predicate NoneSet(s: State, t: State) {
    forall sid | sid in t.pending :: sid in s.pending && t.pending[sid] == s.pending[sid]
  }

  lemma InitializingSetsNone(s: State, sid: Sid, o: Outcome)
    ensures NoneSet(s, Initialized(s, sid, o))
  {
  }

  lemma RestartSetsNone(s: State, sid: Sid, o: Outcome)
    ensures NoneSet(s, OnRestart(s, sid, o))
  {
    if sid in s.workers {
      var t := Flag(Reset(s, sid), sid, RowOf(s, sid).(connectionFailed := false));
      assert t.pending == s.pending;
      InitializingSetsNone(Terminated(t, sid), sid, o);
    }
  }

  lemma OthersSetNone(s: State, a: Action)
    requires !a.Closed?
    ensures NoneSet(s, Step(s, a))
  {
    match a
    case Start(sid, o) => InitializingSetsNone(s, sid, o);
    case Fire(sid, o) =>
      InitializingSetsNone(s.(pending := s.pending - {sid}, active := s.active - {sid}), sid, o);
    case Restart(sid, o) => RestartSetsNone(s, sid, o);
    case Reconcile(sid, _, _, o) => InitializingSetsNone(s, sid, o);
    case _ =>
  }

  lemma EndingSetsNone(s: State, sid: Sid, c: Closing)
    requires !Judge(s, sid, c).Retry?
    ensures NoneSet(s, OnClose(s, sid, c))
  {
  }

  /** No step sets a timer but those counted: whatever is newly pending is the timer read off the step. */
  lemma EveryTimerIsCounted(s: State, a: Action, sid: Sid)
    requires sid in Step(s, a).pending && (sid !in s.pending || Step(s, a).pending[sid] != s.pending[sid])
    ensures a.sid == sid && ScheduledBy(s, a).Timer? && ScheduledBy(s, a).delay == Step(s, a).pending[sid]
  {
    if !a.Closed? {
      OthersSetNone(s, a);
    } else if !Judge(s, a.sid, a.closing).Retry? {
      EndingSetsNone(s, a.sid, a.closing);
    }
  }

  // ----- resets

  /** The steps that may clear the counters. */
  predicate Resets(s: State, a: Action) {
    || a.Connected? || a.Destroy? || a.Restart?
    || (a.Closed? && !Judge(s, a.sid, a.closing).Retry?)
  }

  /** Neither counter of the session is lower in `t`. */
  predicate Upheld(s: State, t: State, sid: Sid) {
    Count(t.retries, sid) >= Count(s.retries, sid) && Count(t.closed428, sid) >= Count(s.closed428, sid)
  }

  predicate Cleared(t: State, sid: Sid) {
    Count(t.retries, sid) == Count(t.closed428, sid) == 0
  }

  lemma RetryUpholds(s: State, own: Sid, c: Closing, sid: Sid)
    requires own in s.active && Judge(s, own, c).Retry?
    ensures Upheld(s, OnClose(s, own, c), sid)
  {
  }

  lemma EndingClears(s: State, own: Sid, c: Closing, sid: Sid)
    requires own in s.active && !Judge(s, own, c).Retry?
    ensures if own == sid then Cleared(OnClose(s, own, c), sid) else Upheld(s, OnClose(s, own, c), sid)
  {
  }

  lemma InitializingUpholds(s: State, own: Sid, o: Outcome)
    ensures Initialized(s, own, o).retries == s.retries && Initialized(s, own, o).closed428 == s.closed428
  {
  }

  /** A counter goes down only when its session connects, is destroyed, restarted, logged out or given up ... */
  lemma ResetsOnly(s: State, a: Action, sid: Sid)
    requires a.sid != sid || !Resets(s, a)
    ensures Upheld(s, Step(s, a), sid)
  {
    match a
    case Closed(own, c) =>
      if own in s.active {
        if Judge(s, own, c).Retry? { RetryUpholds(s, own, c, sid); } else { EndingClears(s, own, c, sid); }
      }
    case Restart(own, o) =>
      var t := Flag(Reset(s, own), own, RowOf(s, own).(connectionFailed := false));
      InitializingUpholds(Terminated(t, own), own, o);
    case Fire(own, o) => InitializingUpholds(s.(pending := s.pending - {own}, active := s.active - {own}), own, o);
    case _ =>
  }

  /** ... and each of these clears both counters of a running session. */
  lemma ResetsClear(s: State, a: Action)
    requires Inv(s) && a.sid in s.active && Resets(s, a)
    ensures Cleared(Step(s, a), a.sid)
  {
    match a
    case Closed(own, c) => EndingClears(s, own, c, own);
    case Restart(own, o) =>
      var t := Flag(Reset(s, own), own, RowOf(s, own).(connectionFailed := false));
      InitializingUpholds(Terminated(t, own), own, o);
    case _ =>
  }

  // ----- bounds

  /** Longest delay of the n-th ordinary reconnect: the floored square plus 20 per cent. */
  function Longest(n: nat): int {
    FlooredDelay(n) * 6 / 5
  }

  /** What the remaining attempts can still cost once `n` have been counted. */
  function Budget(n: nat, slow: bool): int
    decreases Limit(slow) - n
  {
    if n >= Limit(slow) then 0
    else (if slow then NEVER_PAIRED_428_DELAYS_MS[n] else Longest(n + 1)) + Budget(n + 1, slow)
  }

  function Limit(slow: bool): nat {
    if slow then |NEVER_PAIRED_428_DELAYS_MS| else MAX_RETRIES
  }

  /** The delay stays within 20 per cent of max(3 s, n^2 s); the five-minute cap never binds for a counted attempt. */
  lemma DelayRange(n: nat, random: real)
    requires 1 <= n <= MAX_RETRIES && 0.0 <= random < 1.0
    ensures FlooredDelay(n) == (if n == 1 then 3000 else n * n * 1000) < MAX_RETRY_DELAY_MS
    ensures FlooredDelay(n) * 4 / 5 <= ReconnectDelay(n, random) <= Longest(n)
  {
    Squares(n);
    Floored(n, if n == 1 then 3 else n * n, random);
  }

  lemma Floored(n: nat, seconds: nat, random: real)
    requires FlooredDelay(n) == seconds * 1000 && 0.0 <= random < 1.0
    ensures seconds * 800 <= ReconnectDelay(n, random) <= seconds * 1200
  {
    var delay := Round((seconds * 1000) as real * (0.8 + random * 0.4));
    assert ReconnectDelay(n, random) == delay;
    Jittered(seconds, random);
  }

  lemma Squares(n: nat)
    requires 1 <= n <= MAX_RETRIES
    ensures 1 <= n * n <= 100 && (n >= 2 ==> n * n >= 4)
  {
    assert n == 1 || n == 2 || n == 3 || n == 4 || n == 5 || n == 6 || n == 7 || n == 8 || n == 9 || n == 10;
  }

  lemma Jittered(seconds: nat, random: real)
    requires 0.0 <= random < 1.0
    ensures seconds * 800 <= Round((seconds * 1000) as real * (0.8 + random * 0.4)) <= seconds * 1200
  {
    RoundScaled(seconds, 0.8 + random * 0.4);
  }

  /** Rounding cannot leave the range: its ends are whole. */
  lemma RoundScaled(seconds: nat, x: real)
    requires 0.8 <= x <= 1.2
    ensures seconds * 800 <= Round((seconds * 1000) as real * x) <= seconds * 1200
  {
    ScaledBetween(seconds, x);
    RoundBetween((seconds * 1000) as real * x, seconds * 800, seconds * 1200);
  }

  lemma RoundBetween(x: real, low: int, high: int)
    requires low as real <= x <= high as real
    ensures low <= Round(x) <= high
  {
  }

  lemma ScaledBetween(seconds: nat, x: real)
    requires 0.8 <= x <= 1.2
    ensures (seconds * 800) as real <= (seconds * 1000) as real * x <= (seconds * 1200) as real
  {
    var f := (seconds * 1000) as real;
    NonNegative(f, x - 0.8);
    NonNegative(f, 1.2 - x);
    assert f * (x - 0.8) == f * x - f * 0.8 && f * (1.2 - x) == f * 1.2 - f * x;
  }

  lemma NonNegative(a: real, b: real)
    requires a >= 0.0 && b >= 0.0
    ensures a * b >= 0.0
  {
  }

  lemma HitCounts(s: State, a: Action, sid: Sid, slow: bool)
    requires Inv(s) && Drawn(a) && Hit(s, a, sid, slow)
    ensures var n := Count(if slow then s.closed428 else s.retries, sid);
            var t := Step(s, a);
            && n < Limit(slow)
            && Count(if slow then t.closed428 else t.retries, sid) == n + 1
            && ScheduledBy(s, a).delay <= Budget(n, slow) - Budget(n + 1, slow)
  {
    if !slow {
      DelayRange(Count(s.retries, sid) + 1, a.closing.random);
    }
  }

  /** Between two resets the timers of either kind cost no more than the attempts left allow. */
  lemma {:induction false} WithinBudget(s: State, acts: seq<Action>, sid: Sid, slow: bool)
    requires Inv(s) && NoReset(s, acts, sid) && forall a | a in acts :: Drawn(a)
    ensures var n := Count(if slow then s.closed428 else s.retries, sid);
            && Timers(s, acts, sid, slow) + n <= Limit(slow)
            && Waited(s, acts, sid, slow) <= Budget(n, slow)
    decreases |acts|
  {
    var n := Count(if slow then s.closed428 else s.retries, sid);
    if acts == [] {
      BudgetMonotone(n, n, slow);
    } else {
      var t := Step(s, acts[0]);
      StepKeeps(s, acts[0]);
      WithinBudget(t, acts[1..], sid, slow);
      assert Drawn(acts[0]);
      if Hit(s, acts[0], sid, slow) { HitCounts(s, acts[0], sid, slow); }
      BudgetMonotone(n, Count(if slow then t.closed428 else t.retries, sid), slow);
    }
  }

  lemma {:induction false} BudgetNatural(n: nat, slow: bool)
    ensures 0 <= Budget(n, slow)
    decreases Limit(slow) - n
  {
    if n < Limit(slow) {
      BudgetNatural(n + 1, slow);
    }
  }

  lemma {:induction false} BudgetMonotone(m: nat, n: nat, slow: bool)
    requires m <= n
    ensures 0 <= Budget(n, slow) <= Budget(m, slow)
    decreases n - m
  {
    BudgetNatural(n, slow);
    if m < n {
      BudgetMonotone(m + 1, n, slow);
    }
  }

  lemma Totals()
    ensures Budget(0, true) == 1_350_000 && Budget(0, false) == 464_400
  {
    assert Budget(10, false) == 0 && Budget(4, true) == 0;
    assert Budget(9, false) == 120_000 && Budget(8, false) == 217_200;
    assert Budget(7, false) == 294_000 && Budget(6, false) == 352_800;
    assert Budget(5, false) == 396_000 && Budget(4, false) == 426_000;
    assert Budget(3, false) == 445_200 && Budget(2, false) == 456_000;
    assert Budget(1, false) == 460_800;
    assert Budget(2, true) == 1_200_000;
  }

  /** After a reset: at most 4 never-paired reconnects and 10 ordinary ones, 1350 s and 464.4 s in all. */
  lemma BoundedReconnection(s: State, acts: seq<Action>, sid: Sid)
    requires Inv(s) && NoReset(s, acts, sid) && forall a | a in acts :: Drawn(a)
    requires Count(s.retries, sid) == Count(s.closed428, sid) == 0
    ensures Timers(s, acts, sid, true) <= 4 && Waited(s, acts, sid, true) <= 1_350_000
    ensures Timers(s, acts, sid, false) <= 10 && Waited(s, acts, sid, false) <= 464_400
  {
    WithinBudget(s, acts, sid, true);
    WithinBudget(s, acts, sid, false);
    Totals();
  }
}
