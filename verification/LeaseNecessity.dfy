/** The margins are exact: drop any one of the assumptions and some run opens two sockets. */
module LeaseNecessity {
  import opened Lease
  import opened LeaseSafety

  ghost predicate Safe(p: Params, n: nat) {
    forall run: seq<State> | Run(p, n, run) :: forall k | 0 <= k < |run| :: Exclusive(run[k])
  }

  /** Actions as the program times and triggers them.  The runs of module Lease allow more: heartbeats at any time, and
      terminations of a replica on which nothing runs.  Here a heartbeat reaches Redis no sooner than its 3 s timer
      sends it, and a termination has a socket, a timer or a worker it comes from (workers run while the timers do). */
  ghost predicate Ordinary(s: State, a: Action) {
    match a
    case Beat(i) => i < |s.replicas| && s.replicas[i].renewal.On? && s.now >= s.replicas[i].renewal.beat
    case Terminate(i) => i < |s.replicas| && (s.replicas[i].socket || s.replicas[i].renewal.On?)
    case _ => true
  }

  ghost predicate OrdinarySteps(p: Params, s: State, t: State) {
    exists a: Action :: Enabled(p, s, a) && Ordinary(s, a) && Apply(p, s, a) == t
  }

  ghost predicate OrdinaryRun(p: Params, n: nat, run: seq<State>) {
    Run(p, n, run) && forall k | 0 <= k < |run| - 1 :: OrdinarySteps(p, run[k], run[k + 1])
  }

  ghost predicate SafeInPractice(p: Params, n: nat) {
    forall run: seq<State> | OrdinaryRun(p, n, run) :: forall k | 0 <= k < |run| :: Exclusive(run[k])
  }

  ghost predicate Reach(p: Params, n: nat, s: State) {
    exists run: seq<State> :: OrdinaryRun(p, n, run) && run[|run| - 1] == s
  }

  /** Replicas 0 and 1 as given, everybody else untouched. */
  function Two(n: nat, now: int, key: Key, a: Replica, b: Replica): State
    requires n >= 2
  {
    State(now, key, seq(n, i => if i == 0 then a else if i == 1 then b else FRESH))
  }

  lemma Start(p: Params, n: nat)
    requires n >= 2
    ensures Reach(p, n, Two(n, 0, Free, FRESH, FRESH))
  {
    assert Two(n, 0, Free, FRESH, FRESH) == Init(n);
    assert OrdinaryRun(p, n, [Init(n)]);
  }

  lemma Move(p: Params, n: nat, s: State, a: Action, t: State)
    requires Reach(p, n, s) && Enabled(p, s, a) && Ordinary(s, a)
    requires t.now == Apply(p, s, a).now && t.key == Apply(p, s, a).key
    requires t.replicas == Apply(p, s, a).replicas
    ensures Reach(p, n, t)
  {
    var run :| OrdinaryRun(p, n, run) && run[|run| - 1] == s;
    assert Steps(p, s, t) && OrdinarySteps(p, s, t);
    var longer := run + [t];
    forall k | 0 <= k < |longer| - 1
      ensures Steps(p, longer[k], longer[k + 1]) && OrdinarySteps(p, longer[k], longer[k + 1])
    {
      if k < |run| - 1 { assert Steps(p, run[k], run[k + 1]) && OrdinarySteps(p, run[k], run[k + 1]); }
    }
    assert OrdinaryRun(p, n, longer);
  }

  lemma NotSafe(p: Params, n: nat, s: State)
    requires Reach(p, n, s) && !Exclusive(s)
    ensures !SafeInPractice(p, n)
  {
    var run :| OrdinaryRun(p, n, run) && run[|run| - 1] == s;
    assert !Exclusive(run[|run| - 1]);
  }

  // ----- building blocks: an undisturbed initialization of replica 0, and of replica 1

  function Opened(at: int, lease: int): Replica {
    Replica(Idle, true, On(at, at + WATCHDOG_PERIOD_MS, at + HEARTBEAT_MS), multiset{}, false, false, lease)
  }

  function Confirmed(lease: int): Replica {
    FRESH.(phase := Opening, lease := lease)
  }

  lemma FirstConfirms(p: Params, n: nat)
    requires n >= 2
    ensures Reach(p, n, Two(n, FENCING_MS, Held(0, LEASE_MS), Confirmed(LEASE_MS), FRESH))
  {
    Start(p, n);
    var key := Held(0, LEASE_MS);
    var a1 := FRESH.(phase := Looked(0, false));
    var a2 := FRESH.(phase := Fencing(0), lease := LEASE_MS);
    Move(p, n, Two(n, 0, Free, FRESH, FRESH), Look(0), Two(n, 0, Free, a1, FRESH));
    Move(p, n, Two(n, 0, Free, a1, FRESH), Acquire(0), Two(n, 0, key, a2, FRESH));
    Move(p, n, Two(n, 0, key, a2, FRESH), Tick(FENCING_MS), Two(n, FENCING_MS, key, a2, FRESH));
    Move(p, n, Two(n, FENCING_MS, key, a2, FRESH), Recheck(0),
         Two(n, FENCING_MS, key, Confirmed(LEASE_MS), FRESH));
  }

  lemma FirstOpens(p: Params, n: nat)
    requires n >= 2
    ensures Reach(p, n, Two(n, FENCING_MS, Held(0, LEASE_MS), Opened(FENCING_MS, LEASE_MS), FRESH))
  {
    FirstConfirms(p, n);
    Move(p, n, Two(n, FENCING_MS, Held(0, LEASE_MS), Confirmed(LEASE_MS), FRESH), Open(0),
         Two(n, FENCING_MS, Held(0, LEASE_MS), Opened(FENCING_MS, LEASE_MS), FRESH));
  }

  /** Replica 1 takes a missing key ... */
  lemma SecondAcquires(p: Params, n: nat, now: int, key: Key, a: Replica)
    requires n >= 2
    requires Reach(p, n, Two(n, now, key, a, FRESH)) && !Live(Two(n, now, key, a, FRESH))
    ensures Reach(p, n, Two(n, now, Held(1, now + LEASE_MS), a,
                            FRESH.(phase := Fencing(now), lease := now + LEASE_MS)))
  {
    var b := FRESH.(phase := Looked(now, false));
    Move(p, n, Two(n, now, key, a, FRESH), Look(1), Two(n, now, key, a, b));
    Move(p, n, Two(n, now, key, a, b), Acquire(1),
         Two(n, now, Held(1, now + LEASE_MS), a, FRESH.(phase := Fencing(now), lease := now + LEASE_MS)));
  }

  /** ... and opens its socket, if replica 0 may live that long. */
  lemma SecondOpens(p: Params, n: nat, now: int, key: Key, a: Replica)
    requires n >= 2
    requires Reach(p, n, Two(n, now, key, a, FRESH)) && !Live(Two(n, now, key, a, FRESH))
    requires MayPass(p, Two(n, now, Held(1, now + LEASE_MS), a, FRESH), a, 0, now + FENCING_MS)
    ensures Reach(p, n, Two(n, now + FENCING_MS, Held(1, now + LEASE_MS), a,
                            Opened(now + FENCING_MS, now + LEASE_MS)))
  {
    SecondAcquires(p, n, now, key, a);
    var later := now + FENCING_MS;
    var held := Held(1, now + LEASE_MS);
    var b := FRESH.(phase := Fencing(now), lease := now + LEASE_MS);
    var c := Confirmed(now + LEASE_MS);
    assert MayPass(p, Two(n, now, held, a, b), a, 0, later);
    Move(p, n, Two(n, now, held, a, b), Tick(FENCING_MS), Two(n, later, held, a, b));
    Move(p, n, Two(n, later, held, a, b), Recheck(1), Two(n, later, held, a, c));
    Move(p, n, Two(n, later, held, a, c), Open(1), Two(n, later, held, a, Opened(later, now + LEASE_MS)));
  }

  // ----- one run for each assumption

  /** The initial lease runs out while replica 0 is still loading its auth state. */
  lemma NeedsCovered(p: Params, n: nat)
    requires n >= 2 && !p.covered
    ensures !SafeInPractice(p, n)
  {
    FirstConfirms(p, n);
    var key, a := Held(0, LEASE_MS), Confirmed(LEASE_MS);
    Move(p, n, Two(n, FENCING_MS, key, a, FRESH), Tick(LEASE_MS - FENCING_MS), Two(n, LEASE_MS, key, a, FRESH));
    SecondOpens(p, n, LEASE_MS, key, a);
    var b := Opened(LEASE_MS + FENCING_MS, LEASE_MS + LEASE_MS);
    var s := Two(n, LEASE_MS + FENCING_MS, Held(1, LEASE_MS + LEASE_MS), a, b);
    var t := s.(replicas := Two(n, 0, Free, Opened(LEASE_MS + FENCING_MS, LEASE_MS), b).replicas);
    Move(p, n, s, Open(0), t);
    assert t.replicas[0].socket && t.replicas[1].socket;
    NotSafe(p, n, t);
  }

  /** Replica 0 has lost its socket to a reconnect, its timers and workers go on. */
  function Reconnecting(phase: Phase, lease: int): Replica {
    Opened(FENCING_MS, LEASE_MS).(phase := phase, socket := false, lease := lease)
  }

  lemma FirstReconnects(p: Params, n: nat)
    requires n >= 2
    ensures Reach(p, n, Two(n, FENCING_MS, Held(0, LEASE_MS), Reconnecting(Looked(FENCING_MS, true), LEASE_MS), FRESH))
  {
    FirstOpens(p, n);
    var key := Held(0, LEASE_MS);
    Move(p, n, Two(n, FENCING_MS, key, Opened(FENCING_MS, LEASE_MS), FRESH), Drop(0),
         Two(n, FENCING_MS, key, Reconnecting(Idle, LEASE_MS), FRESH));
    Move(p, n, Two(n, FENCING_MS, key, Reconnecting(Idle, LEASE_MS), FRESH), Look(0),
         Two(n, FENCING_MS, key, Reconnecting(Looked(FENCING_MS, true), LEASE_MS), FRESH));
  }

  /** ... and is past its second GET again at 3000. */
  lemma FirstReconfirms(p: Params, n: nat)
    requires n >= 2
    ensures Reach(p, n, Two(n, 3000, Held(0, 11500), Reconnecting(Opening, 11500), FRESH))
  {
    FirstReconnects(p, n);
    var looked := Reconnecting(Looked(FENCING_MS, true), LEASE_MS);
    var key, a := Held(0, 11500), Reconnecting(Fencing(FENCING_MS), 11500);
    Move(p, n, Two(n, FENCING_MS, Held(0, LEASE_MS), looked, FRESH), Acquire(0), Two(n, FENCING_MS, key, a, FRESH));
    Move(p, n, Two(n, FENCING_MS, key, a, FRESH), Tick(FENCING_MS), Two(n, 3000, key, a, FRESH));
    Move(p, n, Two(n, 3000, key, a, FRESH), Recheck(0), Two(n, 3000, key, Reconnecting(Opening, 11500), FRESH));
  }

  /** A destroy or restart command that lands after the second GET of a reconnect gives the key away, yet the socket is
      still created. */
  lemma NeedsUndisturbed(p: Params, n: nat)
    requires n >= 2 && !p.undisturbed
    ensures !SafeInPractice(p, n)
  {
    FirstReconfirms(p, n);
    var key, a := Held(0, 11500), Reconnecting(Opening, 11500);
    var b, c := Confirmed(11500).(releasing := true), Confirmed(11500);
    Move(p, n, Two(n, 3000, key, a, FRESH), Terminate(0), Two(n, 3000, key, b, FRESH));
    Move(p, n, Two(n, 3000, key, b, FRESH), Release(0), Two(n, 3000, Free, c, FRESH));
    SecondOpens(p, n, 3000, Free, c);
    OpensLate(p, n, 4500, 3000 + LEASE_MS, 11500);
  }

  lemma OpensLate(p: Params, n: nat, now: int, until: int, lease: int)
    requires n >= 2
    requires Reach(p, n, Two(n, now, Held(1, until), Confirmed(lease), Opened(now, until)))
    ensures !SafeInPractice(p, n)
  {
    var t := Two(n, now, Held(1, until), Opened(now, lease), Opened(now, until));
    Move(p, n, Two(n, now, Held(1, until), Confirmed(lease), Opened(now, until)), Open(0), t);
    assert t.replicas[0].socket && t.replicas[1].socket;
    NotSafe(p, n, t);
  }

  /** Replica 0's own record while its watchdog ticks on after its only heartbeat. */
  function Watching(stamp: int, due: int, lease: int): Replica {
    Replica(Idle, true, On(stamp, due, 7500), multiset{}, false, true, lease)
  }

  lemma {:induction false} TicksOn(p: Params, n: nat, k: nat, lease: int)
    requires n >= 2 && k <= 4
    requires Reach(p, n, Two(n, 7500, Held(0, lease), Watching(7500, 7500, lease), FRESH))
    ensures Reach(p, n, Two(n, 7500 + 2000 * k, Held(0, lease), Watching(7500, 9500 + 2000 * k, lease), FRESH))
  {
    var key := Held(0, lease);
    if k == 0 {
      Move(p, n, Two(n, 7500, key, Watching(7500, 7500, lease), FRESH), Watchdog(0),
           Two(n, 7500, key, Watching(7500, 9500, lease), FRESH));
    } else {
      TicksOn(p, n, k - 1, lease);
      TicksOnce(p, n, 7500 + 2000 * k, lease);
    }
  }

  lemma TicksOnce(p: Params, n: nat, now: int, lease: int)
    requires n >= 2 && now <= 7500 + WATCHDOG_LIMIT_MS
    requires Reach(p, n, Two(n, now - 2000, Held(0, lease), Watching(7500, now, lease), FRESH))
    ensures Reach(p, n, Two(n, now, Held(0, lease), Watching(7500, now + 2000, lease), FRESH))
  {
    var key, w := Held(0, lease), Watching(7500, now, lease);
    Move(p, n, Two(n, now - 2000, key, w, FRESH), Tick(2000), Two(n, now, key, w, FRESH));
    Move(p, n, Two(n, now, key, w, FRESH), Watchdog(0), Two(n, now, key, Watching(7500, now + 2000, lease), FRESH));
  }

  /** Replica 0 from its opening at 1500 to 5500: two watchdog ticks, no heartbeat answered. */
  function Waiting(due: int): Replica {
    Opened(FENCING_MS, LEASE_MS).(renewal := On(FENCING_MS, due, FENCING_MS + HEARTBEAT_MS))
  }

  lemma WaitsForBeat(p: Params, n: nat)
    requires n >= 2
    ensures Reach(p, n, Two(n, 5500, Held(0, LEASE_MS), Waiting(7500), FRESH))
  {
    FirstOpens(p, n);
    var key := Held(0, LEASE_MS);
    assert Opened(FENCING_MS, LEASE_MS) == Waiting(3500);
    Move(p, n, Two(n, FENCING_MS, key, Waiting(3500), FRESH), Tick(2000), Two(n, 3500, key, Waiting(3500), FRESH));
    Move(p, n, Two(n, 3500, key, Waiting(3500), FRESH), Watchdog(0), Two(n, 3500, key, Waiting(5500), FRESH));
    Move(p, n, Two(n, 3500, key, Waiting(5500), FRESH), Tick(2000), Two(n, 5500, key, Waiting(5500), FRESH));
    Move(p, n, Two(n, 5500, key, Waiting(5500), FRESH), Watchdog(0), Two(n, 5500, key, Waiting(7500), FRESH));
  }

  function Beating(l: int): Replica {
    Waiting(7500).(renewal := On(FENCING_MS, 7500, 7500), replies := multiset{Reply(7500 - l, true)},
                   beaten := true, lease := 17500 - l)
  }

  /** The heartbeat sent at 4500 is executed at 7500 - l. */
  lemma BeatArrives(p: Params, n: nat, l: int)
    requires n >= 2 && 0 <= l <= FENCING_MS
    ensures Reach(p, n, Two(n, 7500 - l, Held(0, 17500 - l), Beating(l), FRESH))
  {
    WaitsForBeat(p, n);
    var first, a, reply := Held(0, LEASE_MS), Waiting(7500), Reply(7500 - l, true);
    assert multiset{} + multiset{reply} == multiset{reply};
    Move(p, n, Two(n, 5500, first, a, FRESH), Tick(2000 - l), Two(n, 7500 - l, first, a, FRESH));
    Move(p, n, Two(n, 7500 - l, first, a, FRESH), Beat(0), Two(n, 7500 - l, Held(0, 17500 - l), Beating(l), FRESH));
  }

  /** ... and its reply handled at 7500; the next heartbeat is lost. */
  lemma BeatsOnce(p: Params, n: nat, l: int)
    requires n >= 2 && 0 <= l <= p.latency && l <= FENCING_MS
    ensures Reach(p, n, Two(n, 7500, Held(0, 17500 - l), Watching(7500, 7500, 17500 - l), FRESH))
  {
    BeatArrives(p, n, l);
    var key, b, reply := Held(0, 17500 - l), Beating(l), Reply(7500 - l, true);
    Move(p, n, Two(n, 7500 - l, key, b, FRESH), Tick(l), Two(n, 7500, key, b, FRESH));
    assert multiset{reply} - multiset{reply} == multiset{};
    Move(p, n, Two(n, 7500, key, b, FRESH), Handle(0, reply),
         Two(n, 7500, key, Watching(7500, 7500, 17500 - l), FRESH));
  }

  /** A slow reply and a late watchdog tick together outlive the rival's fencing pause. */
  lemma NeedsLatency(p: Params, n: nat)
    requires n >= 2 && p.latency + p.slack >= FENCING_MS
    ensures !SafeInPractice(p, n)
  {
    var l := if p.latency < FENCING_MS then p.latency else FENCING_MS;
    var lease := 17500 - l;
    var key, w := Held(0, lease), Watching(7500, 17500, lease);
    BeatsOnce(p, n, l);
    TicksOn(p, n, 4, lease);
    Move(p, n, Two(n, 15500, key, w, FRESH), Tick(2000 - l), Two(n, lease, key, w, FRESH));
    SecondOpens(p, n, lease, key, w);
    var b := Opened(lease + FENCING_MS, lease + LEASE_MS);
    var t := Two(n, lease + FENCING_MS, Held(1, lease + LEASE_MS), w, b);
    assert t.replicas[0].socket && t.replicas[1].socket;
    NotSafe(p, n, t);
  }

  /** With a gap as long as the pause, SET XX overwrites a rival that has already opened its socket: a termination gives
      the key of a reconnecting replica away before the SET, and replica 1 opens in the meantime. */
  lemma NeedsGap(p: Params, n: nat)
    requires n >= 2 && p.gap >= FENCING_MS
    ensures !SafeInPractice(p, n)
  {
    FirstReconnects(p, n);
    var key, looked := Held(0, LEASE_MS), Reconnecting(Looked(FENCING_MS, true), LEASE_MS);
    var a := FRESH.(phase := Looked(FENCING_MS, true), lease := LEASE_MS);
    var b := a.(releasing := true);
    Move(p, n, Two(n, FENCING_MS, key, looked, FRESH), Terminate(0), Two(n, FENCING_MS, key, b, FRESH));
    Move(p, n, Two(n, FENCING_MS, key, b, FRESH), Release(0), Two(n, FENCING_MS, Free, a, FRESH));
    SecondOpens(p, n, FENCING_MS, Free, a);
    GapOverwrites(p, n, a);
  }

  lemma GapOverwrites(p: Params, n: nat, a: Replica)
    requires n >= 2 && a == FRESH.(phase := Looked(FENCING_MS, true), lease := LEASE_MS)
    requires Reach(p, n, Two(n, 3000, Held(1, 11500), a, Opened(3000, 11500)))
    ensures !SafeInPractice(p, n)
  {
    var b := Opened(3000, 11500);
    var key := Held(0, 13000);
    var a1 := a.(phase := Fencing(3000), lease := 13000);
    Move(p, n, Two(n, 3000, Held(1, 11500), a, b), Acquire(0), Two(n, 3000, key, a1, b));
    OverwriterOpens(p, n, a1, b);
  }

  lemma OverwriterOpens(p: Params, n: nat, a1: Replica, b: Replica)
    requires n >= 2 && b == Opened(3000, 11500)
    requires a1 == FRESH.(phase := Fencing(3000), lease := 13000)
    requires Reach(p, n, Two(n, 3000, Held(0, 13000), a1, b))
    ensures !SafeInPractice(p, n)
  {
    var key := Held(0, 13000);
    Move(p, n, Two(n, 3000, key, a1, b), Tick(1500), Two(n, 4500, key, a1, b));
    Move(p, n, Two(n, 4500, key, a1, b), Recheck(0), Two(n, 4500, key, Confirmed(13000), b));
    var t := Two(n, 4500, key, Opened(4500, 13000), b);
    Move(p, n, Two(n, 4500, key, Confirmed(13000), b), Open(0), t);
    assert t.replicas[0].socket && t.replicas[1].socket;
    NotSafe(p, n, t);
  }

  /** Exactly which environments keep two or more replicas apart, in all runs of the model and in those the program's
      own timers and callers can produce. */
  lemma ExactMargins(p: Params, n: nat)
    requires n >= 2
    ensures Safe(p, n) <==> Sound(p)
    ensures SafeInPractice(p, n) <==> Sound(p)
  {
    if Sound(p) {
      forall run: seq<State> | Run(p, n, run)
        ensures forall k | 0 <= k < |run| :: Exclusive(run[k])
      {
        MutualExclusion(p, n, run);
      }
    } else if !p.covered {
      NeedsCovered(p, n);
    } else if !p.undisturbed {
      NeedsUndisturbed(p, n);
    } else if p.gap >= FENCING_MS {
      NeedsGap(p, n);
    } else {
      NeedsLatency(p, n);
    }
  }
}
