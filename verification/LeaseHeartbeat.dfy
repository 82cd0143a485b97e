/** What a replica does when its heartbeat finds the lease lost, and everything else that opens or ends a socket. */
module LeaseHeartbeat {
  import opened Lease

  /** Whatever the replica was doing: after a negative reply it has no socket and no timers, and a release is on its
      way. */
  lemma NegativeReplyEnds(p: Params, s: State, i: nat, at: int)
    requires Enabled(p, s, Handle(i, Reply(at, false)))
    ensures var r := Apply(p, s, Handle(i, Reply(at, false))).replicas[i];
            !r.socket && r.renewal.Off? && r.releasing
  {
  }

  /** A heartbeat that Redis executes without the key leaves such a reply behind. */
  lemma LostBeatReplies(p: Params, s: State, i: nat)
    requires Enabled(p, s, Beat(i)) && !Owns(s, i)
    ensures Reply(s.now, false) in Apply(p, s, Beat(i)).replicas[i].replies
    ensures Apply(p, s, Beat(i)).key == s.key
  {
  }

  /** As long as the socket is there the reply has not been handled, and it is not overdue. */
  lemma StillToHandle(p: Params, s: State, a: Action, i: nat, x: int)
    requires Enabled(p, s, a) && i < |s.replicas|
    requires Reply(x, false) in s.replicas[i].replies && s.now <= x + p.latency
    requires Apply(p, s, a).replicas[i].socket
    ensures Reply(x, false) in Apply(p, s, a).replicas[i].replies && Apply(p, s, a).now <= x + p.latency
  {
    if a.Tick? {
      assert MayPass(p, s, s.replicas[i], i, s.now + a.ms);
    }
  }

  ghost predicate SocketFrom(run: seq<State>, i: nat, k: nat, m: nat) {
    forall x | k <= x <= m < |run| :: i < |run[x].replicas| && run[x].replicas[i].socket
  }

  ghost predicate Pending(p: Params, s: State, i: nat, x: int) {
    i < |s.replicas| && Reply(x, false) in s.replicas[i].replies && s.now <= x + p.latency
  }

  ghost predicate StaysPending(p: Params, run: seq<State>, i: nat, x: int) {
    forall j | 0 <= j < |run| - 1 && Pending(p, run[j], i, x) && i < |run[j + 1].replicas|
               && run[j + 1].replicas[i].socket :: Pending(p, run[j + 1], i, x)
  }

  lemma RunStaysPending(p: Params, n: nat, run: seq<State>, i: nat, x: int)
    requires Run(p, n, run)
    ensures StaysPending(p, run, i, x)
  {
    forall j | 0 <= j < |run| - 1 && Pending(p, run[j], i, x) && i < |run[j + 1].replicas|
               && run[j + 1].replicas[i].socket
      ensures Pending(p, run[j + 1], i, x)
    {
      assert Steps(p, run[j], run[j + 1]);
      var a :| Enabled(p, run[j], a) && Apply(p, run[j], a) == run[j + 1];
      StillToHandle(p, run[j], a, i, x);
    }
  }

  lemma {:induction false} PendingOn(p: Params, run: seq<State>, i: nat, x: int, k: nat, m: nat)
    requires StaysPending(p, run, i, x) && k <= m < |run| && SocketFrom(run, i, k, m) && Pending(p, run[k], i, x)
    ensures Pending(p, run[m], i, x)
  {
    if k < m {
      PendingOn(p, run, i, x, k, m - 1);
      assert run[m - 1 + 1] == run[m];
    }
  }

  /** In every run: a socket whose heartbeat Redis executed without the key is gone once the reply is handled, which
      is no later than the reply's latency after that. */
  lemma LostLeaseEndsSocket(p: Params, n: nat, run: seq<State>, i: nat, k: nat, m: nat)
    requires Run(p, n, run) && k < m < |run| && SocketFrom(run, i, k, m)
    requires Enabled(p, run[k], Beat(i)) && Apply(p, run[k], Beat(i)) == run[k + 1] && !Owns(run[k], i)
    ensures run[m].now <= run[k].now + p.latency
    ensures Reply(run[k].now, false) in run[m].replicas[i].replies
  {
    LostBeatReplies(p, run[k], i);
    RunStaysPending(p, n, run, i, run[k].now);
    PendingOn(p, run, i, run[k].now, k + 1, m);
  }

  // ----- all that opens or ends a socket

  /** The actions of replica i that end a socket it has. */
  predicate EndsSocket(s: State, a: Action, i: nat)
    requires i < |s.replicas|
  {
    var r := s.replicas[i];
    match a
    case Recheck(j) => j == i && Owns(s, i)             // the old socket of a reinitialization
    case Handle(j, reply) => j == i && !reply.ok
    case Watchdog(j) => j == i && r.renewal.On? && s.now - r.renewal.stamp > 8000
    case Terminate(j) => j == i
    case Drop(j) => j == i
    case Remove(j) => j == i
    case Crash(j) => j == i
    case _ => false
  }

  lemma SocketEndsIff(p: Params, s: State, a: Action, i: nat)
    requires Enabled(p, s, a) && i < |s.replicas| && s.replicas[i].socket
    ensures !Apply(p, s, a).replicas[i].socket <==> EndsSocket(s, a, i)
  {
  }

  lemma SocketOpensIff(p: Params, s: State, a: Action, i: nat)
    requires Enabled(p, s, a) && i < |s.replicas| && !s.replicas[i].socket
    ensures Apply(p, s, a).replicas[i].socket <==> a == Open(i)
  {
  }

  /** With the socket the timers end, except in a reconnect; and the key is given back by every ending but a
      reconnect, a terminal close and a crash. */
  lemma EndingsClean(p: Params, s: State, a: Action, i: nat)
    requires Enabled(p, s, a) && i < |s.replicas| && s.replicas[i].socket && EndsSocket(s, a, i)
    ensures var r := Apply(p, s, a).replicas[i];
            && (!a.Drop? ==> r.renewal.Off?)
            && (a.Drop? ==> r.renewal == s.replicas[i].renewal)
            && (a.Handle? || a.Watchdog? || a.Terminate? ==> r.releasing)
            && (a.Crash? ==> r.phase.Down?)
  {
  }

  /** How the timers of an open socket go on: stamped by good replies, ticking every 2 s, beating every 3 s. */
  lemma TimersGoOn(p: Params, s: State, a: Action)
    requires Enabled(p, s, a) && !a.Tick?
    ensures var r, t := s.replicas[a.i], Apply(p, s, a).replicas[a.i];
            && (a.Open? ==> t.renewal == On(s.now, s.now + 2000, s.now + 3000))
            && (a.Handle? && a.reply.ok ==> t == r.(replies := t.replies, renewal := t.renewal))
            && (a.Handle? && a.reply.ok && r.renewal.On? ==> t.renewal == On(s.now, r.renewal.due, r.renewal.beat))
            && (a.Watchdog? && s.now - r.renewal.stamp <= 8000 ==>
                  t == r.(renewal := On(r.renewal.stamp, s.now + 2000, r.renewal.beat)))
            && (a.Beat? && r.renewal.On? ==> t.renewal == On(r.renewal.stamp, r.renewal.due, r.renewal.beat + 3000))
  {
  }

  /** Where each command of an initialization leads. */
  lemma InitializationSteps(p: Params, s: State, a: Action)
    requires Enabled(p, s, a) && !a.Tick?
    ensures var r, t := s.replicas[a.i], Apply(p, s, a).replicas[a.i];
            && (a.Look? ==> t.phase == if Live(s) && s.key.owner != a.i then Idle else Looked(s.now, Owns(s, a.i)))
            && (a.Acquire? ==> t.phase == if r.phase.mine == Live(s) then Fencing(s.now) else Idle)
            && (a.Recheck? ==> t.phase == if Owns(s, a.i) then Opening else Idle)
            && (a.Open? ==> t.phase.Idle? && t.socket)
            && (a.Abandon? ==> t.phase.Idle?)
    ensures forall j | 0 <= j < |s.replicas| && j != a.i :: Apply(p, s, a).replicas[j] == s.replicas[j]
    ensures |Apply(p, s, a).replicas| == |s.replicas| && Apply(p, s, a).now == s.now
  {
  }

  /** The key changes hands only by a SET of whoever saw it free or its own, and goes only by its owner's release. */
  lemma KeyMoves(p: Params, s: State, a: Action)
    requires Enabled(p, s, a)
    ensures var t := Apply(p, s, a);
            t.key != s.key ==>
              || (a.Acquire? && t.key == Held(a.i, s.now + 10000))
              || (a.Beat? && Owns(s, a.i) && t.key == Held(a.i, s.now + 10000))
              || (a.Release? && Owns(s, a.i) && t.key == Free)
    ensures a.Release? && Owns(s, a.i) ==> Apply(p, s, a).key == Free
    ensures a.Beat? && Owns(s, a.i) ==>
              Apply(p, s, a).key == Held(a.i, s.now + 10000)
              && Reply(s.now, true) in Apply(p, s, a).replicas[a.i].replies
    ensures a.Acquire? && s.replicas[a.i].phase.mine == Live(s) ==> Apply(p, s, a).key == Held(a.i, s.now + 10000)
  {
  }
}
