/** The session manager as the object it is: maps of timers, workers and sockets mutated by handlers.
    Every method is proved to perform the step of module Supervisor that bears its meaning, and to leave
    nothing running that its maps do not hold. */
module SessionManagers {
  import opened Registries
  import opened Supervisor

  class SessionManager {
    var lockRenewals: Registry              // heartbeat intervals
    var watchdogIntervals: Registry
    var dynamicWorkers: Registry
    var activeSessions: Registry            // sockets
    var pendingReconnects: Registry         // reconnect timers
    var delays: map<Sid, int>               // the delay each of them was set with
    var sessionRetryCounts: map<Sid, nat>
    var neverPaired428Counts: map<Sid, nat>
    var sessionRows: map<Sid, Row>          // table sessions, the two metadata flags
    var nextHandle: Handle

    ghost function Now(): State
      reads this
    {
      State(lockRenewals.held.Keys, watchdogIntervals.held.Keys, dynamicWorkers.held.Keys, activeSessions.held.Keys,
            delays, sessionRetryCounts, neverPaired428Counts, sessionRows)
    }

    /** What runs is exactly what the maps hold, and handles are never used twice. */
    ghost predicate Valid()
      reads this
    {
      && Exact(lockRenewals) && Below(lockRenewals, nextHandle)
      && Exact(watchdogIntervals) && Below(watchdogIntervals, nextHandle)
      && Exact(dynamicWorkers) && Below(dynamicWorkers, nextHandle)
      && Exact(activeSessions) && Below(activeSessions, nextHandle)
      && Exact(pendingReconnects) && Below(pendingReconnects, nextHandle)
      && delays.Keys == pendingReconnects.held.Keys
    }

    constructor (rows: map<Sid, Row>)
      ensures Valid() && Now() == State({}, {}, {}, {}, map[], map[], map[], rows) && Inv(Now())
    {
      lockRenewals, watchdogIntervals, dynamicWorkers := EMPTY, EMPTY, EMPTY;
      activeSessions, pendingReconnects, delays := EMPTY, EMPTY, map[];
      sessionRetryCounts, neverPaired428Counts := map[], map[];
      sessionRows, nextHandle := rows, 0;
    }

    /** setInterval, setTimeout, new Worker, makeWASocket: each starts something of its own. */
    method Launch(r: Registry, sid: Sid) returns (s: Registry)
      requires Exact(r) && Below(r, nextHandle)
      modifies this`nextHandle
      ensures nextHandle > old(nextHandle) && s == Launched(r, sid, old(nextHandle)) && Below(s, nextHandle)
      ensures s.held.Keys == r.held.Keys + {sid}
      ensures Exact(s) <==> sid !in r.held
    {
      LeaksIff(r, sid, nextHandle);
      s := Launched(r, sid, nextHandle);
      nextHandle := nextHandle + 1;
    }

    /** clearInterval, clearTimeout, close, end. */
    method Stop(r: Registry, sid: Sid) returns (s: Registry)
      requires Exact(r) && Below(r, nextHandle)
      ensures s == Halted(r, sid) && Exact(s) && Below(s, nextHandle) && s.held.Keys == r.held.Keys - {sid}
    {
      StopExact(r, sid);
      s := Halted(r, sid);
    }

    method ClearLockRenewal(sid: Sid)
      requires Valid()
      modifies this`lockRenewals, this`watchdogIntervals
      ensures Valid()
      ensures lockRenewals.held.Keys == old(lockRenewals.held.Keys) - {sid}
      ensures watchdogIntervals.held.Keys == old(watchdogIntervals.held.Keys) - {sid}
    {
      if sid in lockRenewals.held { lockRenewals := Stop(lockRenewals, sid); }
      if sid in watchdogIntervals.held { watchdogIntervals := Stop(watchdogIntervals, sid); }
    }

    method StartLockRenewal(sid: Sid)
      requires Valid()
      modifies this`lockRenewals, this`watchdogIntervals, this`nextHandle
      ensures Valid()
      ensures lockRenewals.held.Keys == old(lockRenewals.held.Keys) + {sid}
      ensures watchdogIntervals.held.Keys == old(watchdogIntervals.held.Keys) + {sid}
    {
      ClearLockRenewal(sid);
      lockRenewals := Launch(lockRenewals, sid);
      watchdogIntervals := Launch(watchdogIntervals, sid);
    }

    method StopDynamicWorkers(sid: Sid)
      requires Valid()
      modifies this`dynamicWorkers
      ensures Valid() && dynamicWorkers.held.Keys == old(dynamicWorkers.held.Keys) - {sid}
    {
      if sid in dynamicWorkers.held { dynamicWorkers := Stop(dynamicWorkers, sid); }
    }

    method StartDynamicWorkers(sid: Sid)
      requires Valid()
      modifies this`dynamicWorkers, this`nextHandle
      ensures Valid() && dynamicWorkers.held.Keys == old(dynamicWorkers.held.Keys) + {sid}
    {
      StopDynamicWorkers(sid);
      dynamicWorkers := Launch(dynamicWorkers, sid);
    }

    /** clearTimeout and delete; also what is left of a timer that has fired. */
    method ClearReconnect(sid: Sid)
      requires Valid()
      modifies this`pendingReconnects, this`delays
      ensures Valid() && delays == old(delays) - {sid}
    {
      if sid in pendingReconnects.held {
        pendingReconnects := Stop(pendingReconnects, sid);
        delays := delays - {sid};
      }
    }

    method EndSocket(sid: Sid)
      requires Valid()
      modifies this`activeSessions
      ensures Valid() && activeSessions.held.Keys == old(activeSessions.held.Keys) - {sid}
    {
      if sid in activeSessions.held { activeSessions := Stop(activeSessions, sid); }
    }

    method ClearCounts(sid: Sid)
      modifies this`sessionRetryCounts, this`neverPaired428Counts
      ensures Now() == Reset(old(Now()), sid)
    {
      sessionRetryCounts := sessionRetryCounts - {sid};
      neverPaired428Counts := neverPaired428Counts - {sid};
    }

    /** The two calls that always go together. */
    method StopHelpers(sid: Sid)
      requires Valid()
      modifies this`lockRenewals, this`watchdogIntervals, this`dynamicWorkers
      ensures Valid() && Now() == Stopped(old(Now()), sid)
    {
      ClearLockRenewal(sid);
      StopDynamicWorkers(sid);
    }

    method StartHelpers(sid: Sid)
      requires Valid()
      modifies this`lockRenewals, this`watchdogIntervals, this`dynamicWorkers, this`nextHandle
      ensures Valid()
      ensures Now() == old(Now()).(heartbeats := old(Now()).heartbeats + {sid},
                                   watchdogs := old(Now()).watchdogs + {sid}, workers := old(Now()).workers + {sid})
    {
      StartLockRenewal(sid);
      StartDynamicWorkers(sid);
    }

    method RemoveActiveSession(sid: Sid)
      requires Valid()
      modifies this
      ensures Valid() && Now() == RemovedActive(old(Now()), sid)
    {
      if sid in activeSessions.held {
        StopHelpers(sid);
        EndSocket(sid);
      }
    }

    method ForceTerminateSocket(sid: Sid)
      requires Valid()
      modifies this
      ensures Valid() && Now() == Terminated(old(Now()), sid)
    {
      ClearReconnect(sid);
      StopHelpers(sid);
      EndSocket(sid);
    }

    method InitializeSocket(sid: Sid, outcome: Outcome)
      requires Valid()
      modifies this
      ensures Valid() && Now() == Initialized(old(Now()), sid, outcome)
    {
      if outcome.NotOwner? { return; }
      ClearOld(sid);
      if outcome.Threw? { return; }
      MakeSocket(sid);
    }

    method ClearOld(sid: Sid)
      requires Valid()
      modifies this
      ensures Valid() && sid !in activeSessions.held
      ensures Now() == RemovedActive(old(Now()).(pending := old(Now()).pending - {sid}), sid)
    {
      ClearReconnect(sid);
      if sid in activeSessions.held { RemoveActiveSession(sid); }
    }

    method MakeSocket(sid: Sid)
      requires Valid() && sid !in activeSessions.held
      modifies this
      ensures Valid()
      ensures Now() == old(Now()).(active := old(Now()).active + {sid}, heartbeats := old(Now()).heartbeats + {sid},
                                   watchdogs := old(Now()).watchdogs + {sid}, workers := old(Now()).workers + {sid})
    {
      OpenSocket(sid);
      StartHelpers(sid);
    }

    method OpenSocket(sid: Sid)
      requires Valid() && sid !in activeSessions.held
      modifies this`activeSessions, this`nextHandle
      ensures Valid() && activeSessions.held.Keys == old(activeSessions.held.Keys) + {sid}
    {
      activeSessions := Launch(activeSessions, sid);
    }

    method UpdateFlags(sid: Sid, row: Row)
      modifies this`sessionRows
      ensures Now() == Flag(old(Now()), sid, row)
    {
      if sid in sessionRows { sessionRows := sessionRows[sid := row]; }
    }

    method TerminateSessionDueToMaxRetries(sid: Sid)
      requires Valid()
      modifies this
      ensures Valid() && Now() == GivenUp(old(Now()), sid)
    {
      ClearReconnect(sid);
      if sid in sessionRows { UpdateFlags(sid, sessionRows[sid].(connectionFailed := true)); }
      ClearCounts(sid);
      ghost var t := Reset(Flag(old(Now()), sid, RowOf(old(Now()), sid).(connectionFailed := true)), sid);
      assert Now() == t.(pending := t.pending - {sid});
      ForceTerminateSocket(sid);
      assert t.pending - {sid} - {sid} == t.pending - {sid};
    }

    method TerminateSessionDueToAuthFailure(sid: Sid)
      requires Valid()
      modifies this
      ensures Valid() && Now() == Step(old(Now()), AuthFailure(sid))
    {
      if sid in sessionRows { UpdateFlags(sid, sessionRows[sid].(authStateError := true)); }
      ForceTerminateSocket(sid);
    }

    method ConnectionOpen(sid: Sid)
      requires Valid()
      modifies this
      ensures Valid() && Now() == Step(old(Now()), Connected(sid))
    {
      if sid !in activeSessions.held { return; }
      ClearCounts(sid);
      ClearReconnect(sid);
    }

    method ScheduleReconnect(sid: Sid, delay: int)
      requires Valid()
      modifies this`pendingReconnects, this`delays, this`nextHandle
      ensures Valid() && Now() == Scheduled(old(Now()), sid, delay)
    {
      if sid in pendingReconnects.held { return; }
      pendingReconnects := Launch(pendingReconnects, sid);
      delays := delays[sid := delay];
    }

    method NeverPairedClose(sid: Sid, c: Closing)
      requires Valid() && sid in activeSessions.held && c.neverPaired && c.code == CONNECTION_CLOSED
      modifies this
      ensures Valid() && Now() == OnClose(old(Now()), sid, c)
    {
      var count := (if sid in neverPaired428Counts then neverPaired428Counts[sid] else 0) + 1;
      neverPaired428Counts := neverPaired428Counts[sid := count];
      assert Now() == Counted(old(Now()), neverPaired428Counts, true);
      if count >= NEVER_PAIRED_428_MAX_ATTEMPTS {
        assert Judge(old(Now()), sid, c) == GiveUp(neverPaired428Counts, true);
        TerminateSessionDueToMaxRetries(sid);
      } else {
        assert Judge(old(Now()), sid, c) == Retry(neverPaired428Counts, true, NEVER_PAIRED_428_DELAYS_MS[count - 1]);
        ScheduleReconnect(sid, NEVER_PAIRED_428_DELAYS_MS[count - 1]);
      }
    }

    method OrdinaryClose(sid: Sid, c: Closing)
      requires Valid() && sid in activeSessions.held
      requires c.code != LOGGED_OUT && !(c.neverPaired && c.code == CONNECTION_CLOSED)
      modifies this
      ensures Valid() && Now() == OnClose(old(Now()), sid, c)
    {
      var isRestartRequired := c.code == RESTART_REQUIRED;
      var retryCount := if sid in sessionRetryCounts then sessionRetryCounts[sid] else 0;
      if !isRestartRequired {
        retryCount := retryCount + 1;
        sessionRetryCounts := sessionRetryCounts[sid := retryCount];
      }
      assert Now() == Counted(old(Now()), sessionRetryCounts, false);
      if !isRestartRequired && retryCount > MAX_RETRIES {
        assert Judge(old(Now()), sid, c) == GiveUp(sessionRetryCounts, false);
        TerminateSessionDueToMaxRetries(sid);
      } else {
        assert Judge(old(Now()), sid, c) == Retry(sessionRetryCounts, false,
            if isRestartRequired then 0 else ReconnectDelay(retryCount, c.random));
        ScheduleReconnect(sid, if isRestartRequired then 0 else ReconnectDelay(retryCount, c.random));
      }
    }

    method ConnectionClose(sid: Sid, c: Closing)
      requires Valid()
      modifies this
      ensures Valid() && Now() == OnClose(old(Now()), sid, c)
    {
      if sid !in activeSessions.held { return; }
      if c.code == LOGGED_OUT {
        ClearCounts(sid);
        ClearReconnect(sid);
        RemoveActiveSession(sid);
      } else if c.neverPaired && c.code == CONNECTION_CLOSED {
        NeverPairedClose(sid, c);
      } else {
        OrdinaryClose(sid, c);
      }
    }

    method ReconnectTimer(sid: Sid, outcome: Outcome)
      requires Valid()
      modifies this
      ensures Valid() && Now() == OnTimer(old(Now()), sid, outcome)
    {
      if sid !in pendingReconnects.held { return; }
      ClearReconnect(sid);
      // The old socket ends here; heartbeat and watchdog go on in case initialization hangs.
      EndSocket(sid);
      InitializeSocket(sid, outcome);
    }

    method DestroySession(sid: Sid)
      requires Valid()
      modifies this
      ensures Valid() && Now() == Destroyed(old(Now()), sid)
    {
      ClearReconnect(sid);
      ClearCounts(sid);
      EndSocket(sid);
      StopHelpers(sid);
    }

    /** The control worker takes a destroy command, if the session has one. */
    method DestroyCommand(sid: Sid)
      requires Valid()
      modifies this
      ensures Valid() && Now() == Step(old(Now()), Destroy(sid))
    {
      if sid in dynamicWorkers.held { DestroySession(sid); }
    }

    /** The same for a restart command. */
    method RestartCommand(sid: Sid, outcome: Outcome)
      requires Valid()
      modifies this
      ensures Valid() && Now() == OnRestart(old(Now()), sid, outcome)
    {
      if sid !in dynamicWorkers.held { return; }
      ClearCounts(sid);
      if sid in sessionRows { UpdateFlags(sid, sessionRows[sid].(connectionFailed := false)); }
      ForceTerminateSocket(sid);
      InitializeSocket(sid, outcome);
    }

    /** One session's part of a reconciliation pass. */
    method Visit(sid: Sid, seen: Row, owned: bool, outcome: Outcome)
      requires Valid()
      modifies this
      ensures Valid() && Now() == OnReconcile(old(Now()), sid, seen, owned, outcome)
    {
      if seen.authStateError || seen.connectionFailed { return; }
      if !owned { InitializeSocket(sid, outcome); }
    }

    /** One pass over the rows read at its start; `owners` answers the GET of each visit. */
    method RunReconciliation(rows: seq<(Sid, Row)>, owners: seq<bool>, outcomes: seq<Outcome>)
      requires Valid() && |rows| == |owners| == |outcomes|
      modifies this
      ensures Valid() && Now() == Steps(old(Now()), Visits(rows, owners, outcomes))
      ensures Inv(old(Now())) ==> Inv(Now())
    {
      ghost var start := Now();
      ghost var visits := Visits(rows, owners, outcomes);
      var k := 0;
      while k < |rows|
        invariant 0 <= k <= |rows|
        invariant Valid() && Steps(Now(), visits[k..]) == Steps(start, visits)
      {
        assert visits[k..][0] == Reconcile(rows[k].0, rows[k].1, owners[k], outcomes[k]);
        assert visits[k..][1..] == visits[k + 1..];
        Visit(rows[k].0, rows[k].1, owners[k], outcomes[k]);
        k := k + 1;
      }
      if Inv(start) { AlwaysSupervised(start, visits); }
    }

    method Perform(a: Action)
      requires Valid()
      modifies this
      ensures Valid() && Now() == Step(old(Now()), a)
    {
      match a
      case Start(sid, outcome) => InitializeSocket(sid, outcome);
      case Connected(sid) => ConnectionOpen(sid);
      case Closed(sid, c) => ConnectionClose(sid, c);
      case Fire(sid, outcome) => ReconnectTimer(sid, outcome);
      case ForceTerminate(sid) => ForceTerminateSocket(sid);
      case AuthFailure(sid) => TerminateSessionDueToAuthFailure(sid);
      case Destroy(sid) => DestroyCommand(sid);
      case Restart(sid, outcome) => RestartCommand(sid, outcome);
      case Reconcile(sid, seen, owned, outcome) => Visit(sid, seen, owned, outcome);
      case Rewrite(sid, copy) => UpdateFlags(sid, copy);
    }

    /** Any events in any order: the object goes where the steps go, and after every one of them the heartbeats,
        watchdogs, workers, sockets and reconnect timers that run are exactly those in its maps, one a session. */
    method Run(acts: seq<Action>)
      requires Valid()
      modifies this
      ensures Valid() && Now() == Steps(old(Now()), acts)
      ensures Inv(old(Now())) ==> Inv(Now())
    {
      ghost var start := Now();
      for k := 0 to |acts|
        invariant Valid() && Steps(Now(), acts[k..]) == Steps(start, acts)
      {
        assert acts[k..][1..] == acts[k + 1..];
        Perform(acts[k]);
      }
      if Inv(start) { AlwaysSupervised(start, acts); }
    }
  }

  function Visits(rows: seq<(Sid, Row)>, owners: seq<bool>, outcomes: seq<Outcome>): (v: seq<Action>)
    requires |rows| == |owners| == |outcomes|
    ensures |v| == |rows|
  {
    seq(|rows|, k requires 0 <= k < |rows| => Reconcile(rows[k].0, rows[k].1, owners[k], outcomes[k]))
  }
}
