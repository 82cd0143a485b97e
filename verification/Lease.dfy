/** The Redis lease that decides which replica may run a session's WhatsApp socket.

    Many replicas compete for one key.  A timed transition system: a global clock in
    milliseconds, the key with its expiry, and one record per replica.  Every action is one
    command executed by Redis or one callback of a replica; the clock moves only in `Tick`. */
module Lease {
  const LEASE_MS := 10000            // SET ... EX 10, EXPIRE 10
  const FENCING_MS := 1500           // pause between SET and the second GET
  const HEARTBEAT_MS := 3000
  const WATCHDOG_PERIOD_MS := 2000
  const WATCHDOG_LIMIT_MS := 8000

  /** What the environment is assumed to keep.
      gap      - most time between the first GET and the SET of one initialization
      latency  - most time between Redis executing a heartbeat and its reply being handled
      slack    - most time a due watchdog tick waits before it runs
      covered  - a lease does not lapse between a replica's second GET and its first heartbeat
      undisturbed - no termination lands between the second GET and the socket's creation */
  datatype Params = Params(gap: nat, latency: nat, slack: nat, covered: bool, undisturbed: bool)

  datatype Key = Free | Held(owner: nat, expiry: int)

  /** Where a replica stands in `initializeSocket`; `Down` is a crashed process. */
  datatype Phase =
    | Idle
    | Looked(at: int, mine: bool)
    | Fencing(since: int)
    | Opening
    | Down

  /** Heartbeat and watchdog timers: last successful renewal, next watchdog tick, when the next heartbeat is sent. */
  datatype Renewal = Off | On(stamp: int, due: int, beat: int)

  /** A heartbeat script Redis has executed and whose answer is still on its way. */
  datatype Reply = Reply(at: int, ok: bool)

  /** `beaten`: a heartbeat has succeeded since the socket was opened.
      `lease`: the expiry Redis last granted to this replica (history only). */
  datatype Replica = Replica(
    phase: Phase,
    socket: bool,
    renewal: Renewal,
    replies: multiset<Reply>,
    releasing: bool,
    beaten: bool,
    lease: int)

  datatype State = State(now: int, key: Key, replicas: seq<Replica>)

  datatype Action =
    | Tick(ms: int)
    | Look(i: nat)                 // first GET
    | Acquire(i: nat)              // SET NX or SET XX
    | Recheck(i: nat)              // second GET, after the fencing pause
    | Abandon(i: nat)              // an error ends the initialization
    | Open(i: nat)                 // makeWASocket and startLockRenewal
    | Beat(i: nat)                 // Redis executes a heartbeat script
    | Handle(i: nat, reply: Reply) // a heartbeat reply is processed
    | Watchdog(i: nat)
    | Terminate(i: nat)            // forceTerminateSocket or destroySession
    | Release(i: nat)              // Redis executes the release script
    | Drop(i: nat)                 // reconnect timer ends the old socket, timers go on
    | Remove(i: nat)               // terminal close: removeActiveSession
    | Crash(i: nat)

  predicate Live(s: State) {
    s.key.Held? && s.now < s.key.expiry
  }

  predicate Owns(s: State, i: nat) {
    Live(s) && s.key.owner == i
  }

  const FRESH := Replica(Idle, false, Off, multiset{}, false, false, 0)

  function Init(n: nat): State {
    State(0, Free, seq(n, _ => FRESH))
  }

  // ----- when an action may happen

  /** The clock may not pass a deadline the environment is assumed to keep. */
  ghost predicate MayPass(p: Params, s: State, r: Replica, i: nat, t: int) {
    && (r.phase.Looked? ==> t <= r.phase.at + p.gap)
    && (forall a | a in r.replies :: t <= a.at + p.latency)
    && (r.renewal.On? ==> t <= r.renewal.due + p.slack)
    && (p.covered && Owns(s, i) && (r.phase.Opening? || (r.socket && !r.beaten)) ==> t < s.key.expiry)
  }

  predicate MayTerminate(p: Params, r: Replica) {
    !r.phase.Down? && (p.undisturbed ==> !r.phase.Opening?)
  }

  predicate Overdue(now: int, w: Renewal) {
    w.On? && now - w.stamp > WATCHDOG_LIMIT_MS
  }

  ghost predicate Enabled(p: Params, s: State, a: Action) {
    if a.Tick? then
      a.ms >= 0 && forall i | 0 <= i < |s.replicas| :: MayPass(p, s, s.replicas[i], i, s.now + a.ms)
    else
      a.i < |s.replicas| &&
      var r := s.replicas[a.i];
      match a
      case Look(_) => r.phase.Idle?
      case Acquire(_) => r.phase.Looked?
      // Commands of one replica run in order, so a release sent earlier is executed first.
      case Recheck(_) => r.phase.Fencing? && s.now >= r.phase.since + FENCING_MS && !r.releasing
      case Abandon(_) =>
        r.phase.Looked? || r.phase.Opening? || (r.phase.Fencing? && s.now >= r.phase.since + FENCING_MS)
      case Open(_) => r.phase.Opening?
      case Beat(_) => !r.phase.Down?
      case Handle(_, reply) => reply in r.replies && (!reply.ok ==> MayTerminate(p, r))
      case Watchdog(_) =>
        r.renewal.On? && s.now >= r.renewal.due && (Overdue(s.now, r.renewal) ==> MayTerminate(p, r))
      case Terminate(_) => MayTerminate(p, r)
      case Release(_) => r.releasing
      case Drop(_) => r.socket
      case Remove(_) => r.socket
      case Crash(_) => true
  }

  // ----- what an action does

  function Terminated(r: Replica): Replica {
    r.(socket := false, renewal := Off, releasing := true)
  }

  function Put(s: State, i: nat, r: Replica): State
    requires i < |s.replicas|
  {
    s.(replicas := s.replicas[i := r])
  }

  function Acquired(s: State, i: nat): State
    requires i < |s.replicas| && s.replicas[i].phase.Looked?
  {
    var r := s.replicas[i];
    // SET XX succeeds on any existing key, SET NX only on a missing one.
    if r.phase.mine == Live(s) then
      var until := s.now + LEASE_MS;
      Put(s, i, r.(phase := Fencing(s.now), lease := until)).(key := Held(i, until))
    else
      Put(s, i, r.(phase := Idle))
  }

  function Rechecked(s: State, i: nat): State
    requires i < |s.replicas|
  {
    var r := s.replicas[i];
    if Owns(s, i) then
      Put(s, i, r.(phase := Opening, socket := false, renewal := if r.socket then Off else r.renewal))
    else
      Put(s, i, r.(phase := Idle))
  }

  /** The timer that sent this heartbeat sends the next one a period later. */
  function Sent(w: Renewal): Renewal {
    if w.On? then w.(beat := w.beat + HEARTBEAT_MS) else w
  }

  function Beaten(s: State, i: nat): State
    requires i < |s.replicas|
  {
    var r := s.replicas[i].(renewal := Sent(s.replicas[i].renewal));
    if Owns(s, i) then
      var until := s.now + LEASE_MS;
      Put(s, i, r.(replies := r.replies + multiset{Reply(s.now, true)}, beaten := true, lease := until))
      .(key := Held(i, until))
    else
      Put(s, i, r.(replies := r.replies + multiset{Reply(s.now, false)}))
  }

  function Handled(now: int, r: Replica, reply: Reply): Replica {
    var q := r.(replies := r.replies - multiset{reply});
    if !reply.ok then Terminated(q)
    else if q.renewal.On? then q.(renewal := q.renewal.(stamp := now))
    else q
  }

  function Watched(now: int, r: Replica): Replica
    requires r.renewal.On?
  {
    if Overdue(now, r.renewal) then Terminated(r)
    else r.(renewal := r.renewal.(due := now + WATCHDOG_PERIOD_MS))
  }

  ghost function Apply(p: Params, s: State, a: Action): State
    requires Enabled(p, s, a)
  {
    match a
    case Tick(ms) => s.(now := s.now + ms)
    case Look(i) =>
      if Live(s) && s.key.owner != i then s
      else Put(s, i, s.replicas[i].(phase := Looked(s.now, Live(s))))
    case Acquire(i) => Acquired(s, i)
    case Recheck(i) => Rechecked(s, i)
    case Abandon(i) => Put(s, i, s.replicas[i].(phase := Idle))
    case Open(i) =>
      Put(s, i, s.replicas[i].(phase := Idle, socket := true, beaten := false,
                               renewal := On(s.now, s.now + WATCHDOG_PERIOD_MS, s.now + HEARTBEAT_MS)))
    case Beat(i) => Beaten(s, i)
    case Handle(i, reply) => Put(s, i, Handled(s.now, s.replicas[i], reply))
    case Watchdog(i) => Put(s, i, Watched(s.now, s.replicas[i]))
    case Terminate(i) => Put(s, i, Terminated(s.replicas[i]))
    case Release(i) =>
      var t := Put(s, i, s.replicas[i].(releasing := false));
      if Owns(s, i) then t.(key := Free) else t
    case Drop(i) => Put(s, i, s.replicas[i].(socket := false))
    case Remove(i) => Put(s, i, s.replicas[i].(socket := false, renewal := Off))
    case Crash(i) => Put(s, i, FRESH.(phase := Down, lease := s.replicas[i].lease))
  }

  // ----- runs

  /** `states` is a run: it starts with `n` idle replicas and each state follows by an enabled action. */
  ghost predicate Run(p: Params, n: nat, states: seq<State>) {
    && |states| > 0
    && states[0] == Init(n)
    && forall k | 0 <= k < |states| - 1 :: Steps(p, states[k], states[k + 1])
  }

  ghost predicate Steps(p: Params, s: State, t: State) {
    exists a: Action :: Enabled(p, s, a) && Apply(p, s, a) == t
  }

  ghost predicate Exclusive(s: State) {
    forall i, j | 0 <= i < j < |s.replicas| :: !(s.replicas[i].socket && s.replicas[j].socket)
  }
}
