/** Mutual exclusion of the session lease: at most one replica has a socket, in every run. */
module LeaseSafety {
  import opened Lease

  /** The margins the protocol's constants leave. */
  predicate Sound(p: Params) {
    p.gap < FENCING_MS && p.latency + p.slack < FENCING_MS && p.covered && p.undisturbed
  }

  /** Past its second GET: the socket is open or about to be. */
  predicate Committed(r: Replica) {
    r.socket || r.phase.Opening?
  }

  // ----- the invariant, one replica at a time and then in pairs

  ghost predicate OnTime(p: Params, now: int, r: Replica) {
    && (r.phase.Looked? ==> r.phase.at <= now <= r.phase.at + p.gap)
    && (r.phase.Fencing? ==> r.phase.since <= now)
    && (forall a | a in r.replies :: a.at <= now <= a.at + p.latency)
    && (r.renewal.On? ==>
          && r.renewal.stamp <= now <= r.renewal.due + p.slack
          && r.renewal.due <= r.renewal.stamp + WATCHDOG_LIMIT_MS + WATCHDOG_PERIOD_MS)
    && r.lease <= now + LEASE_MS
  }

  /** A socket that has had a heartbeat was stamped within `latency` of its last lease. */
  ghost predicate Stamped(p: Params, r: Replica) {
    r.socket && r.beaten && r.renewal.On? ==>
      && r.renewal.stamp + LEASE_MS <= r.lease + p.latency
      && forall a | a in r.replies && a.ok :: a.at + LEASE_MS <= r.lease
  }

  ghost predicate Solo(p: Params, s: State, i: nat)
    requires i < |s.replicas|
  {
    var r := s.replicas[i];
    && OnTime(p, s.now, r)
    && Stamped(p, r)
    && (r.socket ==> r.renewal.On?)
    && (r.phase.Opening? ==> Owns(s, i) && !r.socket)
    && (r.socket && !r.beaten ==> Owns(s, i))
    && (r.socket && !Owns(s, i) ==> r.lease <= s.now)
    && (r.releasing ==> !Committed(r))
    && (s.key.Held? && s.key.owner == i ==> s.key.expiry == r.lease)
  }

  ghost predicate Pair(s: State, i: nat, j: nat)
    requires i < |s.replicas| && j < |s.replicas|
  {
    var q, r := s.replicas[i], s.replicas[j];
    && !(Committed(q) && Committed(r))
    && (q.phase.Looked? && q.phase.mine ==>
          && !Committed(r)
          && (Owns(s, j) ==> r.phase.Down? || (r.phase.Fencing? && r.phase.since >= q.phase.at)))
    && (q.phase.Fencing? && Owns(s, i) && r.socket ==> r.lease <= q.phase.since)
    && (Owns(s, i) && !q.phase.Fencing? && !q.phase.Down? ==> !Committed(r))
  }

  ghost predicate Inv(p: Params, s: State) {
    && (s.key.Held? ==> s.key.owner < |s.replicas|)
    && (forall i | 0 <= i < |s.replicas| :: Solo(p, s, i))
    && (forall i, j | 0 <= i < |s.replicas| && 0 <= j < |s.replicas| && i != j :: Pair(s, i, j))
  }

  /** A socket dies before the fencing pause of any later owner ends. */
  lemma DeadInTime(p: Params, s: State, i: nat)
    requires Sound(p) && i < |s.replicas| && Solo(p, s, i)
    requires s.replicas[i].socket && s.replicas[i].beaten
    ensures s.now < s.replicas[i].lease + FENCING_MS
  {
  }

  /** When a fencing replica that still owns the key comes to the end of its pause, nobody else is committed
      and nobody is about to overwrite it. */
  lemma FencingDone(p: Params, s: State, i: nat, j: nat)
    requires Sound(p) && Inv(p, s)
    requires i < |s.replicas| && j < |s.replicas| && i != j
    requires s.replicas[i].phase.Fencing? && Owns(s, i)
    requires s.now >= s.replicas[i].phase.since + FENCING_MS
    ensures !Committed(s.replicas[j])
    ensures !(s.replicas[j].phase.Looked? && s.replicas[j].phase.mine)
  {
    assert Solo(p, s, j) && Pair(s, i, j) && Pair(s, j, i);
    if s.replicas[j].socket && s.replicas[j].beaten {
      DeadInTime(p, s, j);
    }
  }

  // ----- every action keeps the invariant

  /** A change of one replica's own record that gives it no new claim on the key. */
  predicate Gentle(s: State, k: nat, r: Replica)
    requires k < |s.replicas|
  {
    var was := s.replicas[k];
    && r.lease == was.lease
    && (Committed(r) ==> Committed(was))
    && (was.phase.Down? ==> r.phase.Down?)
    && (r.phase.Looked? && r.phase.mine ==>
          r.phase == was.phase || (was.phase.Idle? && Owns(s, k) && r.phase.at == s.now))
    && (r.phase.Fencing? ==> r.phase == was.phase)
    && (was.phase.Fencing? && Owns(s, k) ==>
          r.phase == was.phase || r.phase.Down? || s.now >= was.phase.since + FENCING_MS)
  }

  lemma Gently(p: Params, s: State, k: nat, r: Replica)
    requires Sound(p) && Inv(p, s) && k < |s.replicas| && Gentle(s, k, r)
    requires Solo(p, Put(s, k, r), k)
    ensures Inv(p, Put(s, k, r))
  {
    var t := Put(s, k, r);
    forall i | 0 <= i < |t.replicas|
      ensures Solo(p, t, i)
    {
      assert Solo(p, s, i);
    }
    forall i, j | 0 <= i < |t.replicas| && 0 <= j < |t.replicas| && i != j
      ensures Pair(t, i, j)
    {
      assert Pair(s, i, j) && Pair(s, j, i) && Solo(p, s, k);
      if s.replicas[k].phase.Fencing? && Owns(s, k) && s.now >= s.replicas[k].phase.since + FENCING_MS {
        FencingDone(p, s, k, if i == k then j else i);
      }
    }
  }

  lemma KeepsTick(p: Params, s: State, a: Action)
    requires Sound(p) && Inv(p, s) && Enabled(p, s, a) && a.Tick?
    ensures Inv(p, Apply(p, s, a))
  {
    var t := Apply(p, s, a);
    forall i | 0 <= i < |t.replicas|
      ensures Solo(p, t, i)
    {
      assert Solo(p, s, i) && MayPass(p, s, s.replicas[i], i, t.now);
    }
    forall i, j | 0 <= i < |t.replicas| && 0 <= j < |t.replicas| && i != j
      ensures Pair(t, i, j)
    {
      assert Pair(s, i, j) && Solo(p, s, j);
    }
  }

  lemma KeepsAcquire(p: Params, s: State, k: nat)
    requires Sound(p) && Inv(p, s) && k < |s.replicas|
    requires s.replicas[k].phase.Looked? && s.replicas[k].phase.mine == Live(s)
    ensures Inv(p, Acquired(s, k))
  {
    var t := Acquired(s, k);
    forall i | 0 <= i < |t.replicas|
      ensures Solo(p, t, i)
    {
      assert Solo(p, s, i) && (i != k ==> Pair(s, k, i));
    }
    forall i, j | 0 <= i < |t.replicas| && 0 <= j < |t.replicas| && i != j
      ensures Pair(t, i, j)
    {
      assert Pair(s, i, j) && Solo(p, s, i) && Solo(p, s, j) && (i != k ==> Pair(s, k, i));
    }
  }

  lemma KeepsRecheck(p: Params, s: State, k: nat)
    requires Sound(p) && Inv(p, s) && Enabled(p, s, Recheck(k)) && Owns(s, k)
    ensures Inv(p, Rechecked(s, k))
  {
    var t := Rechecked(s, k);
    assert Solo(p, s, k);
    forall i | 0 <= i < |t.replicas|
      ensures Solo(p, t, i)
    {
      assert Solo(p, s, i);
    }
    forall i, j | 0 <= i < |t.replicas| && 0 <= j < |t.replicas| && i != j
      ensures Pair(t, i, j)
    {
      assert Pair(s, i, j);
      FencingDone(p, s, k, if i == k then j else i);
    }
  }

  lemma KeepsBeat(p: Params, s: State, k: nat)
    requires Sound(p) && Inv(p, s) && Enabled(p, s, Beat(k)) && Owns(s, k)
    ensures Inv(p, Beaten(s, k))
  {
    var t := Beaten(s, k);
    forall i | 0 <= i < |t.replicas|
      ensures Solo(p, t, i)
    {
      assert Solo(p, s, i) && Solo(p, s, k);
      if i == k { assert OnTime(p, t.now, t.replicas[k]); }
    }
    forall i, j | 0 <= i < |t.replicas| && 0 <= j < |t.replicas| && i != j
      ensures Pair(t, i, j)
    {
      assert Pair(s, i, j) && Solo(p, s, k);
    }
  }

  lemma KeepsRelease(p: Params, s: State, k: nat)
    requires Sound(p) && Inv(p, s) && Enabled(p, s, Release(k))
    ensures Inv(p, Apply(p, s, Release(k)))
  {
    var t := Apply(p, s, Release(k));
    assert Solo(p, s, k);
    forall i | 0 <= i < |t.replicas|
      ensures Solo(p, t, i)
    {
      assert Solo(p, s, i);
    }
    forall i, j | 0 <= i < |t.replicas| && 0 <= j < |t.replicas| && i != j
      ensures Pair(t, i, j)
    {
      assert Pair(s, i, j);
    }
  }

  lemma KeepsHandle(p: Params, s: State, k: nat, reply: Reply)
    requires Sound(p) && Inv(p, s) && Enabled(p, s, Handle(k, reply))
    ensures Inv(p, Apply(p, s, Handle(k, reply)))
  {
    var r := Handled(s.now, s.replicas[k], reply);
    assert Solo(p, s, k);
    assert forall x | x in r.replies :: x in s.replicas[k].replies;
    assert OnTime(p, s.now, r);
    assert Stamped(p, r);
    Gently(p, s, k, r);
  }

  /** Actions that touch only the replica's own record. */
  lemma KeepsOwn(p: Params, s: State, a: Action)
    requires Sound(p) && Inv(p, s) && Enabled(p, s, a)
    requires a.Abandon? || a.Drop? || a.Remove? || a.Crash?
    ensures Inv(p, Apply(p, s, a))
  {
    assert Solo(p, s, a.i);
    Gently(p, s, a.i, Apply(p, s, a).replicas[a.i]);
  }

  lemma KeepsEnding(p: Params, s: State, a: Action)
    requires Sound(p) && Inv(p, s) && Enabled(p, s, a) && (a.Watchdog? || a.Terminate?)
    ensures Inv(p, Apply(p, s, a))
  {
    assert Solo(p, s, a.i);
    Gently(p, s, a.i, Apply(p, s, a).replicas[a.i]);
  }

  lemma KeepsEntry(p: Params, s: State, a: Action)
    requires Sound(p) && Inv(p, s) && Enabled(p, s, a) && (a.Look? || a.Open?)
    ensures Inv(p, Apply(p, s, a))
  {
    assert Solo(p, s, a.i);
    if Apply(p, s, a) != s {
      Gently(p, s, a.i, Apply(p, s, a).replicas[a.i]);
    }
  }

  /** Commands that may find the key changed. */
  lemma KeepsMissed(p: Params, s: State, a: Action)
    requires Sound(p) && Inv(p, s) && Enabled(p, s, a)
    requires a.Recheck? || a.Beat? ==> !Owns(s, a.i)
    requires a.Acquire? ==> s.replicas[a.i].phase.mine != Live(s)
    requires a.Acquire? || a.Recheck? || a.Beat?
    ensures Inv(p, Apply(p, s, a))
  {
    assert Solo(p, s, a.i);
    Gently(p, s, a.i, Apply(p, s, a).replicas[a.i]);
  }

  lemma Keeps(p: Params, s: State, a: Action)
    requires Sound(p) && Inv(p, s) && Enabled(p, s, a)
    ensures Inv(p, Apply(p, s, a))
  {
    match a
    case Tick(_) => KeepsTick(p, s, a);
    case Acquire(k) =>
      if s.replicas[k].phase.mine == Live(s) { KeepsAcquire(p, s, k); } else { KeepsMissed(p, s, a); }
    case Recheck(k) =>
      if Owns(s, k) { KeepsRecheck(p, s, k); } else { KeepsMissed(p, s, a); }
    case Beat(k) =>
      if Owns(s, k) { KeepsBeat(p, s, k); } else { KeepsMissed(p, s, a); }
    case Release(k) => KeepsRelease(p, s, k);
    case Handle(k, reply) => KeepsHandle(p, s, k, reply);
    case Look(_) => KeepsEntry(p, s, a);
    case Open(_) => KeepsEntry(p, s, a);
    case Watchdog(_) => KeepsEnding(p, s, a);
    case Terminate(_) => KeepsEnding(p, s, a);
    case _ => KeepsOwn(p, s, a);
  }

  // ----- runs

  lemma {:induction false} Always(p: Params, n: nat, run: seq<State>, k: nat)
    requires Sound(p) && Run(p, n, run) && k < |run|
    ensures Inv(p, run[k])
  {
    if k > 0 {
      Always(p, n, run, k - 1);
      assert Steps(p, run[k - 1], run[k - 1 + 1]);
      var a :| Enabled(p, run[k - 1], a) && Apply(p, run[k - 1], a) == run[k];
      Keeps(p, run[k - 1], a);
    }
  }

  /** In every state of every run of any number of replicas at most one socket is open. */
  lemma MutualExclusion(p: Params, n: nat, run: seq<State>)
    requires Sound(p) && Run(p, n, run)
    ensures forall k | 0 <= k < |run| :: Exclusive(run[k])
  {
    forall k | 0 <= k < |run|
      ensures Exclusive(run[k])
    {
      Always(p, n, run, k);
      var s := run[k];
      forall i, j | 0 <= i < j < |s.replicas|
        ensures !(s.replicas[i].socket && s.replicas[j].socket)
      {
        assert Pair(s, i, j);
      }
    }
  }
}
