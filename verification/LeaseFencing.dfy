/** The race between a first GET and the SET that follows it, and what the fencing pause does about it. */
module LeaseFencing {
  import opened Lease

  /** A replica that saw itself as the owner and has yet to SET can overwrite only a rival that is still waiting. */
  ghost predicate RivalWaits(s: State, i: nat, j: nat)
    requires i < |s.replicas| && j < |s.replicas|
  {
    var q, r := s.replicas[i].phase, s.replicas[j].phase;
    q.Looked? && q.mine && Owns(s, j) ==> r.Down? || (r.Fencing? && q.at <= r.since)
  }

  ghost predicate Waiting(p: Params, s: State) {
    && (forall i | 0 <= i < |s.replicas| && s.replicas[i].phase.Looked? ::
          s.replicas[i].phase.at <= s.now <= s.replicas[i].phase.at + p.gap)
    && (forall i, j | 0 <= i < |s.replicas| && 0 <= j < |s.replicas| && i != j :: RivalWaits(s, i, j))
  }

  lemma KeepsWaiting(p: Params, s: State, a: Action)
    requires p.gap < FENCING_MS && Waiting(p, s) && Enabled(p, s, a)
    ensures Waiting(p, Apply(p, s, a))
  {
    var t := Apply(p, s, a);
    if a.Tick? {
      forall i | 0 <= i < |t.replicas| && t.replicas[i].phase.Looked?
        ensures t.replicas[i].phase.at <= t.now <= t.replicas[i].phase.at + p.gap
      {
        assert MayPass(p, s, s.replicas[i], i, t.now);
      }
    }
    forall i, j | 0 <= i < |t.replicas| && 0 <= j < |t.replicas| && i != j
      ensures RivalWaits(t, i, j)
    {
      KeepsRival(p, s, a, i, j);
    }
  }

  lemma KeepsRival(p: Params, s: State, a: Action, i: nat, j: nat)
    requires p.gap < FENCING_MS && Waiting(p, s) && Enabled(p, s, a)
    requires i < |s.replicas| && j < |s.replicas| && i != j
    ensures RivalWaits(Apply(p, s, a), i, j)
  {
    assert RivalWaits(s, i, j);
    if a.Tick? {
      assert s.replicas == Apply(p, s, a).replicas;
    }
  }

  lemma {:induction false} AlwaysWaiting(p: Params, n: nat, run: seq<State>, k: nat)
    requires p.gap < FENCING_MS && Run(p, n, run) && k < |run|
    ensures Waiting(p, run[k])
  {
    if k > 0 {
      AlwaysWaiting(p, n, run, k - 1);
      assert Steps(p, run[k - 1], run[k - 1 + 1]);
      var a :| Enabled(p, run[k - 1], a) && Apply(p, run[k - 1], a) == run[k];
      KeepsWaiting(p, run[k - 1], a);
    }
  }

  function At(s: State, r: nat): Phase {
    if r < |s.replicas| then s.replicas[r].phase else Down
  }

  /** Replica `r` spends states k..m of the run in one and the same fencing pause. */
  ghost predicate StaysFencing(run: seq<State>, r: nat, k: nat, m: nat)
    requires k <= m < |run|
  {
    At(run[k], r).Fencing? && forall x | k <= x <= m :: At(run[x], r) == At(run[k], r)
  }

  lemma LeavesOut(p: Params, s: State, t: State, r: nat)
    requires Steps(p, s, t) && At(s, r).Fencing? && !Owns(s, r)
    ensures !At(t, r).Opening?
    ensures At(t, r).Fencing? ==> !Owns(t, r)
  {
    var a :| Enabled(p, s, a) && Apply(p, s, a) == t;
    if a != Recheck(r) { NeverOpens(p, s, a, r); }
  }

  /** Who waits without the key does not open next, and if it waits on it is still without the key. */
  ghost predicate OutStaysOut(run: seq<State>, r: nat) {
    forall k | 0 <= k < |run| - 1 && At(run[k], r).Fencing? && !Owns(run[k], r) ::
      !At(run[k + 1], r).Opening? && (At(run[k + 1], r).Fencing? ==> !Owns(run[k + 1], r))
  }

  lemma RunStaysOut(p: Params, n: nat, run: seq<State>, r: nat)
    requires Run(p, n, run)
    ensures OutStaysOut(run, r)
  {
    forall k | 0 <= k < |run| - 1 && At(run[k], r).Fencing? && !Owns(run[k], r)
      ensures !At(run[k + 1], r).Opening? && (At(run[k + 1], r).Fencing? ==> !Owns(run[k + 1], r))
    {
      assert Steps(p, run[k], run[k + 1]);
      LeavesOut(p, run[k], run[k + 1], r);
    }
  }

  lemma {:induction false} StaysOut(run: seq<State>, r: nat, k: nat, m: nat)
    requires OutStaysOut(run, r) && k <= m < |run| && StaysFencing(run, r, k, m) && !Owns(run[k], r)
    ensures !Owns(run[m], r)
  {
    if k < m {
      StaysOut(run, r, k, m - 1);
      assert At(run[m - 1 + 1], r).Fencing?;
    }
  }

  /** A waiting replica that does not hold the key never passes its second GET in that pause. */
  lemma FencedOut(p: Params, n: nat, run: seq<State>, r: nat, k: nat, m: nat)
    requires Run(p, n, run) && k <= m < |run| - 1 && StaysFencing(run, r, k, m)
    requires !Owns(run[k], r)
    ensures !At(run[m + 1], r).Opening?
  {
    RunStaysOut(p, n, run, r);
    StaysOut(run, r, k, m);
  }

  /** The rival whose key is overwritten between our first GET and our SET is still waiting, and its second GET fails.
      */
  lemma OverwrittenRivalAborts(p: Params, n: nat, run: seq<State>, k: nat, i: nat, r: nat, m: nat)
    requires p.gap < FENCING_MS && Run(p, n, run) && k < m < |run| - 1
    requires i != r && Owns(run[k], r) && r < |run[k].replicas|
    requires Enabled(p, run[k], Acquire(i)) && Apply(p, run[k], Acquire(i)) == run[k + 1] && Owns(run[k + 1], i)
    ensures At(run[k], r).Fencing? || At(run[k], r).Down?
    ensures StaysFencing(run, r, k + 1, m) ==> !At(run[m + 1], r).Opening?
  {
    AlwaysWaiting(p, n, run, k);
    assert RivalWaits(run[k], i, r);
    if StaysFencing(run, r, k + 1, m) {
      FencedOut(p, n, run, r, k + 1, m);
    }
  }

  lemma PasserOwns(p: Params, s: State, t: State, i: nat)
    requires Steps(p, s, t) && At(s, i).Fencing? && At(t, i).Opening?
    ensures Owns(s, i)
  {
    var a :| Enabled(p, s, a) && Apply(p, s, a) == t;
    if a != Recheck(i) { NeverOpens(p, s, a, i); }
  }

  /** Nothing but the second GET leads into the opening phase. */
  lemma NeverOpens(p: Params, s: State, a: Action, i: nat)
    requires Enabled(p, s, a) && a != Recheck(i) && !At(s, i).Opening?
    ensures !At(Apply(p, s, a), i).Opening?
  {
  }

  /** Whoever passes its second GET owns the key at that instant, and every replica then waiting fails its own. */
  lemma PasserIsAlone(p: Params, n: nat, run: seq<State>, k: nat, i: nat, r: nat, m: nat)
    requires Run(p, n, run) && k <= m < |run| - 1 && i != r
    requires At(run[k], i).Fencing? && At(run[k + 1], i).Opening?
    ensures Owns(run[k], i)
    ensures StaysFencing(run, r, k, m) ==> !At(run[m + 1], r).Opening?
  {
    assert Steps(p, run[k], run[k + 1]);
    PasserOwns(p, run[k], run[k + 1], i);
    if StaysFencing(run, r, k, m) {
      FencedOut(p, n, run, r, k, m);
    }
  }
}
