/** What each step of the supervisor does to a session that runs: when it ends, what a close schedules, what becomes of
    the counters and the flags. */
module SupervisorEffects {
  import opened Reconnection
  import opened Supervisor

  /** The closes that end a session: logged out, the fifth 428 before pairing, the eleventh other failure. */
  predicate ClosesForGood(s: State, sid: Sid, c: Closing) {
    || c.code == 401
    || (if c.neverPaired && c.code == 428 then Count(s.closed428, sid) >= 4
        else c.code != 515 && Count(s.retries, sid) >= 10)
  }

  /** The steps after which nothing of a running session is left. */
  predicate Ends(s: State, a: Action, sid: Sid) {
    && a.sid == sid
    && match a
       case Start(_, outcome) => outcome.Threw? && sid in s.active
       case Connected(_) => false
       case Closed(_, c) => sid in s.active && ClosesForGood(s, sid, c)
       case Fire(_, _) => false
       case ForceTerminate(_) => true
       case AuthFailure(_) => true
       case Destroy(_) => sid in s.workers
       case Restart(_, outcome) => sid in s.workers && !outcome.Opened?
       case Reconcile(_, seen, owned, outcome) =>
         !seen.authStateError && !seen.connectionFailed && !owned && outcome.Threw? && sid in s.active
       case Rewrite(_, _) => false
  }

  lemma CloseEndsIff(s: State, sid: Sid, c: Closing)
    requires Inv(s) && sid in s.active
    ensures Down(OnClose(s, sid, c), sid) <==> ClosesForGood(s, sid, c)
  {
  }

  lemma InitializingEndsIff(s: State, sid: Sid, outcome: Outcome)
    requires Inv(s) && sid in s.heartbeats
    ensures Down(Initialized(s, sid, outcome), sid) <==> outcome.Threw? && sid in s.active
  {
  }

  lemma RestartEndsIff(s: State, sid: Sid, outcome: Outcome)
    requires Inv(s) && sid in s.workers
    ensures Down(OnRestart(s, sid, outcome), sid) <==> !outcome.Opened?
  {
  }

  lemma TimerNeverEnds(s: State, sid: Sid, outcome: Outcome)
    requires Inv(s) && sid in s.heartbeats
    ensures !Down(OnTimer(s, sid, outcome), sid)
  {
  }

  /** A session of which something runs is down after a step exactly if the step ends it. */
  lemma EndsIff(s: State, a: Action, sid: Sid)
    requires Inv(s) && !Down(s, sid)
    ensures Down(Step(s, a), sid) <==> Ends(s, a, sid)
  {
    assert sid in s.heartbeats;
    if a.sid != sid {
      OtherStep(s, a, sid);
    } else {
      match a
      case Start(_, outcome) => InitializingEndsIff(s, sid, outcome);
      case Closed(_, c) => if sid in s.active { CloseEndsIff(s, sid, c); }
      case Fire(_, outcome) => TimerNeverEnds(s, sid, outcome);
      case Restart(_, outcome) => RestartEndsIff(s, sid, outcome);
      case Reconcile(_, _, _, outcome) => InitializingEndsIff(s, sid, outcome);
      case _ =>
    }
  }

  // ----- what a close schedules

  /** The timer of a close that does not end the session: by the table before pairing, at once when WhatsApp asks for a
      restart, else within 20 per cent of the square of the attempt, and of 3 s for the first. */
  predicate Schedules(s: State, sid: Sid, c: Closing, delay: int) {
    if c.neverPaired && c.code == 428 then
      delay == match Count(s.closed428, sid) case 0 => 30000 case 1 => 120000 case 2 => 300000 case _ => 900000
    else if c.code == 515 then delay == 0
    else
      var n := Count(s.retries, sid) + 1;
      if n == 1 then 2400 <= delay <= 3600 else n * n * 800 <= delay <= n * n * 1200
  }

  lemma OrdinaryDelay(n: nat, random: real)
    requires 1 <= n <= MAX_RETRIES && 0.0 <= random < 1.0
    ensures if n == 1 then 2400 <= ReconnectDelay(n, random) <= 3600
            else n * n * 800 <= ReconnectDelay(n, random) <= n * n * 1200
  {
    Squares(n);
    Floored(n, if n == 1 then 3 else n * n, random);
  }

  /** The jitter is spread over the whole range: the delay is 80 to 120 per cent as drawn, to half a millisecond. */
  lemma JitterIs(n: nat, random: real)
    requires 1 <= n <= MAX_RETRIES && 0.0 <= random < 1.0
    ensures var exact := (if n == 1 then 3000.0 else (n * n * 1000) as real) * (0.8 + random * 0.4);
            exact - 0.5 <= ReconnectDelay(n, random) as real <= exact + 0.5
  {
    Squares(n);
    var f := FlooredDelay(n);
    assert f as real == if n == 1 then 3000.0 else (n * n * 1000) as real;
    RoundsNear(f as real * (0.8 + random * 0.4));
  }

  lemma RoundsNear(x: real)
    ensures x - 0.5 <= Round(x) as real <= x + 0.5
  {
  }

  lemma CloseSchedules(s: State, sid: Sid, c: Closing)
    requires Inv(s) && sid in s.active && sid !in s.pending && 0.0 <= c.random < 1.0 && !ClosesForGood(s, sid, c)
    ensures var t := OnClose(s, sid, c);
            && sid in t.pending && Schedules(s, sid, c, t.pending[sid])
            && t.active == s.active && t.heartbeats == s.heartbeats && t.rows == s.rows
  {
    GoesOn(s, sid, c);
    if !(c.neverPaired && c.code == 428) && c.code != 515 {
      OrdinaryDelay(Count(s.retries, sid) + 1, c.random);
    }
  }

  lemma GoesOn(s: State, sid: Sid, c: Closing)
    requires sid in s.active && !ClosesForGood(s, sid, c)
    ensures Judge(s, sid, c).Retry?
    ensures var v := Judge(s, sid, c); OnClose(s, sid, c) == Scheduled(Counted(s, v.counter, v.slow), sid, v.delay)
  {
  }

  /** It counts one attempt of its kind, none for a requested restart, and a timer already there is kept. */
  lemma CloseCounts(s: State, sid: Sid, c: Closing)
    requires Inv(s) && sid in s.active && !ClosesForGood(s, sid, c)
    ensures var t := OnClose(s, sid, c);
            && Count(t.closed428, sid) == Count(s.closed428, sid) + (if c.neverPaired && c.code == 428 then 1 else 0)
            && Count(t.retries, sid) == Count(s.retries, sid)
                 + (if (c.neverPaired && c.code == 428) || c.code == 515 then 0 else 1)
            && (sid in s.pending ==> t.pending == s.pending)
  {
    GoesOn(s, sid, c);
    var v := Judge(s, sid, c);
    assert OnClose(s, sid, c).retries == Counted(s, v.counter, v.slow).retries;
    assert OnClose(s, sid, c).closed428 == Counted(s, v.counter, v.slow).closed428;
  }

  // ----- flags and counters

  /** The flags of a session after a step. */
  lemma FlagsAfter(s: State, a: Action, sid: Sid)
    requires sid in s.rows
    ensures var row, now := s.rows[sid], RowOf(Step(s, a), sid);
            && sid in Step(s, a).rows
            && now.connectionFailed ==
                 (if a.sid != sid then row.connectionFailed
                  else match a
                    case Closed(_, c) =>
                      row.connectionFailed || (sid in s.active && c.code != 401 && ClosesForGood(s, sid, c))
                    case Restart(_, _) => row.connectionFailed && sid !in s.workers
                    case Rewrite(_, copy) => copy.connectionFailed
                    case _ => row.connectionFailed)
            && now.authStateError ==
                 (if a.sid != sid then row.authStateError
                  else match a
                    case AuthFailure(_) => true
                    case Rewrite(_, copy) => copy.authStateError
                    case _ => row.authStateError)
  {
    if a.sid != sid {
      OtherStep(s, a, sid);
    } else if a.Closed? {
      FlagsAfterClose(s, sid, a.closing);
    }
  }

  lemma FlagsAfterClose(s: State, sid: Sid, c: Closing)
    requires sid in s.rows
    ensures OnClose(s, sid, c).rows.Keys == s.rows.Keys
    ensures OnClose(s, sid, c).rows[sid] ==
              s.rows[sid].(connectionFailed :=
                s.rows[sid].connectionFailed || (sid in s.active && c.code != 401 && ClosesForGood(s, sid, c)))
  {
    if sid in s.active && !ClosesForGood(s, sid, c) { GoesOn(s, sid, c); }
  }

  /** A destroy leaves nothing running and no counter, and the row as it was. */
  lemma DestroyIsClean(s: State, sid: Sid)
    ensures var t := Destroyed(s, sid);
            && Down(t, sid) && t.rows == s.rows
            && Count(t.retries, sid) == Count(t.closed428, sid) == 0
  {
  }

  /** A forced termination leaves nothing running, and counters and row as they were. */
  lemma TerminationIsClean(s: State, sid: Sid)
    ensures var t := Step(s, ForceTerminate(sid));
            Down(t, sid) && t.rows == s.rows && t.retries == s.retries && t.closed428 == s.closed428
  {
  }

  /** An initialization that gets as far as a socket: socket and helpers run, no timer is left, the rest is untouched.
      */
  lemma OpeningRuns(s: State, sid: Sid)
    ensures var t := Initialized(s, sid, Opened);
            && sid in t.active * t.heartbeats * t.watchdogs * t.workers && sid !in t.pending
            && t.retries == s.retries && t.closed428 == s.closed428 && t.rows == s.rows
  {
  }

  /** A connection that opens settles the session: no timer, no counter, everything else goes on. */
  lemma ConnectingSettles(s: State, sid: Sid)
    requires sid in s.active
    ensures var t := Step(s, Connected(sid));
            && t == s.(pending := t.pending, retries := t.retries, closed428 := t.closed428)
            && sid !in t.pending && Count(t.retries, sid) == Count(t.closed428, sid) == 0
  {
  }

  /** A restart command that gets as far as a socket starts over: running, not flagged, nothing counted. */
  lemma RestartStartsOver(s: State, sid: Sid)
    requires sid in s.workers
    ensures var t := Step(s, Restart(sid, Opened));
            && sid in t.active * t.heartbeats * t.watchdogs * t.workers && sid !in t.pending
            && Count(t.retries, sid) == Count(t.closed428, sid) == 0 && !RowOf(t, sid).connectionFailed
  {
  }

  /** The steps that change nothing: events of a socket that is not there, timers not set, commands without a worker to
      take them, visits that a flag or an owner turns away, initializations by others than the owner. */
  lemma NothingToDo(s: State, a: Action)
    requires match a
             case Start(_, outcome) => outcome.NotOwner?
             case Connected(sid) => sid !in s.active
             case Closed(sid, _) => sid !in s.active
             case Fire(sid, _) => sid !in s.pending
             case Destroy(sid) => sid !in s.workers
             case Restart(sid, _) => sid !in s.workers
             case Reconcile(_, seen, owned, outcome) =>
               seen.authStateError || seen.connectionFailed || owned || outcome.NotOwner?
             case _ => false
    ensures Step(s, a) == s
  {
  }
}
