/** The sliding-window limiter: one sorted set per bucket whose members are the instants of its requests. */
module RateLimiter {
  import opened Options

  /** A request at time `now` (ms).  `purged`: Redis has already dropped the key, as it may once it has expired. */
  datatype Request = Request(now: nat, purged: bool)

  /** The sorted set (member and score are the same instant) and the key's expiry. */
  datatype Bucket = Bucket(members: set<nat>, expiry: Option<int>)

  datatype Config = Config(windowMs: int, max: int)

  const EMPTY := Bucket({}, None)

  /** What the client is told. */
  datatype Reply = Admitted(remaining: int) | Rejected(retryAfterSeconds: int)

  function Max(a: int, b: int): int {
    if a < b then b else a
  }

  /** Math.ceil(x / 1000) */
  function CeilSeconds(ms: int): int {
    -((-ms) / 1000)
  }

  ghost predicate Oldest(s: set<nat>, m: nat) {
    m in s && forall x | x in s :: m <= x
  }

  lemma {:induction false} OldestExists(s: set<nat>) returns (m: nat)
    requires s != {}
    ensures Oldest(s, m)
    decreases |s|
  {
    var a :| a in s;
    var rest := s - {a};
    m := a;
    if rest != {} {
      var other := OldestExists(rest);
      m := if other < a then other else a;
    }
    forall x | x in s
      ensures m <= x
    {
      assert x == a || x in rest;
    }
  }

  lemma CeilCovers(ms: int)
    ensures 1000 * (CeilSeconds(ms) - 1) < ms <= 1000 * CeilSeconds(ms)
  {
  }

  class Limiter {
    const config: Config
    var members: set<nat>
    var expiry: Option<int>

    ghost function Now(): Bucket
      reads this
    {
      Bucket(members, expiry)
    }

    constructor (config: Config)
      ensures this.config == config && Now() == EMPTY
    {
      this.config := config;
      members, expiry := {}, None;
    }

    /** ZRANGE 0 0: when the oldest recorded instant leaves the window. */
    method Refusal(now: int) returns (reply: Reply)
      requires members != {}
      ensures reply.Rejected? && reply.retryAfterSeconds >= 1
      ensures exists m: nat ::
                && Oldest(members, m)
                && m + config.windowMs - now <= 1000 * reply.retryAfterSeconds
                && (reply.retryAfterSeconds > 1 ==>
                      1000 * (reply.retryAfterSeconds - 1) < m + config.windowMs - now)
    {
      ghost var m := OldestExists(members);
      var oldest :| oldest in members && forall x | x in members :: oldest <= x;
      assert Oldest(members, oldest);
      CeilCovers(oldest + config.windowMs - now);
      reply := Rejected(Max(1, CeilSeconds(oldest + config.windowMs - now)));
    }

    /** MULTI: trim, add, count, re-expire; then decide. */
    method Handle(r: Request) returns (reply: Reply)
      modifies this`members, this`expiry
      ensures Now() == Recorded(old(Now()), config.windowMs, r)
      ensures reply.Admitted? <==> |members| <= config.max
      ensures reply.Admitted? ==> reply.remaining == config.max - |members|
      ensures reply.Rejected? && config.windowMs > 0 ==>
                1 <= reply.retryAfterSeconds
                && exists m: nat ::
                     && Oldest(members, m)
                     && m <= r.now + 1000 * reply.retryAfterSeconds - config.windowMs
                     && (reply.retryAfterSeconds > 1 ==>
                           r.now + 1000 * (reply.retryAfterSeconds - 1) - config.windowMs < m)
    {
      if r.purged { members := {}; }
      members := set x | x in members && !(x <= r.now - config.windowMs);
      members := members + {r.now};
      var count := |members|;
      expiry := Some(r.now + config.windowMs);
      if count > config.max {
        reply := Refusal(r.now);
      } else {
        reply := Admitted(Max(0, config.max - count));
      }
    }
  }

  // ----- what is recorded

  function Recorded(b: Bucket, window: int, r: Request): Bucket {
    var kept := if r.purged then {} else b.members;
    Bucket((set x | x in kept && !(x <= r.now - window)) + {r.now}, Some(r.now + window))
  }

  function After(window: int, requests: seq<Request>): Bucket {
    if requests == [] then EMPTY
    else Recorded(After(window, requests[..|requests| - 1]), window, requests[|requests| - 1])
  }

  /** The clock does not go back, and Redis drops a key only when it has expired. */
  predicate Timely(window: int, requests: seq<Request>) {
    requests == [] ||
    var front, r := requests[..|requests| - 1], requests[|requests| - 1];
    && Timely(window, front)
    && (front != [] ==> front[|front| - 1].now <= r.now)
    && (r.purged ==> After(window, front).expiry.Some? && After(window, front).expiry.value <= r.now)
  }

  predicate Admits(window: int, max: int, requests: seq<Request>, k: nat)
    requires k < |requests|
  {
    |After(window, requests[..k + 1]).members| <= max
  }

  /** The distinct instants of all requests in (now - window, now], rejected ones included. */
  function Recent(requests: seq<Request>, window: int, now: nat): set<nat> {
    set r | r in requests && now - window < r.now <= now :: r.now
  }

  lemma {:induction false} InOrder(window: int, requests: seq<Request>, i: nat, j: nat)
    requires Timely(window, requests) && i <= j < |requests|
    ensures requests[i].now <= requests[j].now
    decreases |requests|
  {
    var front := requests[..|requests| - 1];
    if j < |front| {
      InOrder(window, front, i, j);
    } else if i < j {
      InOrder(window, front, i, j - 1);
    }
  }

  /** Trimming the old window and adding the new instant gives the new window, and so does starting afresh after
      expiry. */
  lemma WindowMoves(window: int, front: seq<Request>, r: Request, before: nat)
    requires window > 0 && before <= r.now
    requires forall q | q in front :: q.now <= before
    ensures Recent(front + [r], window, r.now) ==
              (set x | x in Recent(front, window, before) && !(x <= r.now - window)) + {r.now}
    ensures before + window <= r.now ==> Recent(front + [r], window, r.now) == {r.now}
  {
    var all := Recent(front + [r], window, r.now);
    forall x
      ensures x in all <==> x == r.now || (x in Recent(front, window, before) && !(x <= r.now - window))
    {
      if x in all {
        var q :| q in front + [r] && r.now - window < q.now <= r.now && q.now == x;
        assert q == r || q in front;
      }
      if x == r.now { assert r in front + [r]; }
      if x in Recent(front, window, before) {
        var q :| q in front && before - window < q.now <= before && q.now == x;
        assert q in front + [r];
      }
    }
  }

  /** The sorted set is exactly the window, whether or not expiry removed it in between. */
  lemma {:induction false} SetIsWindow(window: int, requests: seq<Request>)
    requires window > 0 && requests != [] && Timely(window, requests)
    ensures var now := requests[|requests| - 1].now;
            After(window, requests) == Bucket(Recent(requests, window, now), Some(now + window))
  {
    var front, r := requests[..|requests| - 1], requests[|requests| - 1];
    assert requests == front + [r];
    var b := After(window, requests);
    if front != [] {
      SetIsWindow(window, front);
      var before := front[|front| - 1].now;
      forall q | q in front
        ensures q.now <= before
      {
        var i :| 0 <= i < |front| && front[i] == q;
        InOrder(window, front, i, |front| - 1);
      }
      WindowMoves(window, front, r, before);
      assert After(window, front).members == Recent(front, window, before);
    } else {
      assert requests == [r];
      WindowMoves(window, [], r, 0);
      assert Recent([], window, 0) == {};
    }
  }

  /** The same requests without any purge. */
  function NeverPurged(requests: seq<Request>): (s: seq<Request>)
    ensures |s| == |requests|
    ensures forall i | 0 <= i < |s| :: s[i] == requests[i].(purged := false)
  {
    seq(|requests|, i requires 0 <= i < |requests| => requests[i].(purged := false))
  }

  lemma {:induction false} NeverPurgedTimely(window: int, requests: seq<Request>)
    requires Timely(window, requests)
    ensures Timely(window, NeverPurged(requests))
  {
    if requests != [] {
      var front := requests[..|requests| - 1];
      NeverPurgedTimely(window, front);
      assert NeverPurged(requests)[..|requests| - 1] == NeverPurged(front);
    }
  }

  lemma SameRecent(q: seq<Request>, window: int, now: nat)
    ensures Recent(NeverPurged(q), window, now) == Recent(q, window, now)
  {
    var p := NeverPurged(q);
    forall x
      ensures x in Recent(q, window, now) <==> x in Recent(p, window, now)
    {
      if x in Recent(q, window, now) {
        var i :| 0 <= i < |q| && q[i].now == x && now - window < x <= now;
        assert p[i] in p && p[i].now == x;
      }
      if x in Recent(p, window, now) {
        var i :| 0 <= i < |p| && p[i].now == x && now - window < x <= now;
        assert q[i] in q && q[i].now == x;
      }
    }
  }

  /** Key expiry never changes a decision. */
  lemma ExpiryIsInvisible(window: int, max: int, requests: seq<Request>, k: nat)
    requires window > 0 && Timely(window, requests) && k < |requests|
    ensures Admits(window, max, requests, k) <==> Admits(window, max, NeverPurged(requests), k)
  {
    TimelyPrefix(window, requests, k + 1);
    PurgesPrefix(requests, k + 1);
    SameAfter(window, requests[..k + 1]);
  }

  lemma PurgesPrefix(requests: seq<Request>, n: nat)
    requires n <= |requests|
    ensures NeverPurged(requests)[..n] == NeverPurged(requests[..n])
  {
  }

  lemma SameAfter(window: int, q: seq<Request>)
    requires window > 0 && Timely(window, q) && q != []
    ensures After(window, NeverPurged(q)) == After(window, q)
  {
    var p := NeverPurged(q);
    assert p[|q| - 1].now == q[|q| - 1].now;
    NeverPurgedTimely(window, q);
    SetIsWindow(window, q);
    SetIsWindow(window, p);
    SameRecent(q, window, q[|q| - 1].now);
  }

  lemma {:induction false} TimelyPrefix(window: int, requests: seq<Request>, n: nat)
    requires Timely(window, requests) && n <= |requests|
    ensures Timely(window, requests[..n])
    decreases |requests|
  {
    if n < |requests| {
      TimelyPrefix(window, requests[..|requests| - 1], n);
      assert requests[..|requests| - 1][..n] == requests[..n];
    } else {
      assert requests[..n] == requests;
    }
  }

  // ----- the guarantee

  /** Distinct instants at which a request was admitted, in the half-open interval (from, from + window]. */
  function AdmittedIn(window: int, max: int, requests: seq<Request>, from: int): set<nat> {
    set k | 0 <= k < |requests| && Counts(window, max, requests, from, k) :: requests[k].now
  }

  lemma SubsetSize(a: set<nat>, b: set<nat>)
    requires a <= b
    ensures |a| <= |b|
  {
    assert b == a + (b - a);
  }

  predicate Counts(window: int, max: int, requests: seq<Request>, from: int, k: nat)
    requires k < |requests|
  {
    Admits(window, max, requests, k) && from < requests[k].now <= from + window
  }

  lemma {:induction false} LastIndex(p: nat -> bool, i: nat, n: nat) returns (k: nat)
    requires i < n && p(i)
    ensures k < n && p(k) && forall j: nat | k < j < n :: !p(j)
  {
    k := n - 1;
    if !p(n - 1) {
      k := LastIndex(p, i, n - 1);
    }
  }

  /** The last admitted request of an interval. */
  lemma LastAdmitted(window: int, max: int, requests: seq<Request>, from: int, i: nat) returns (k: nat)
    requires i < |requests| && Counts(window, max, requests, from, i)
    ensures k < |requests| && Counts(window, max, requests, from, k)
    ensures forall j | k < j < |requests| :: !Counts(window, max, requests, from, j)
  {
    var p := (j: nat) => j < |requests| && Counts(window, max, requests, from, j);
    k := LastIndex(p, i, |requests|);
    forall j | k < j < |requests|
      ensures !Counts(window, max, requests, from, j)
    {
      assert !p(j);
    }
  }

  /** When request k was admitted, every instant counted up to it was still in the set. */
  lemma CountedAreRecent(window: int, max: int, requests: seq<Request>, from: int, k: nat)
    requires window > 0 && Timely(window, requests) && k < |requests| && Counts(window, max, requests, from, k)
    requires forall j | k < j < |requests| :: !Counts(window, max, requests, from, j)
    ensures AdmittedIn(window, max, requests, from) <= Recent(requests[..k + 1], window, requests[k].now)
  {
    forall y | y in AdmittedIn(window, max, requests, from)
      ensures y in Recent(requests[..k + 1], window, requests[k].now)
    {
      var i :| 0 <= i < |requests| && Counts(window, max, requests, from, i) && requests[i].now == y;
      assert i <= k;
      InOrder(window, requests, i, k);
      assert requests[..k + 1][i] in requests[..k + 1];
    }
  }

  /** Every window-long interval holds at most `max` distinct admitted instants. */
  lemma WindowCapacity(window: int, max: int, requests: seq<Request>, from: int)
    requires window > 0 && Timely(window, requests)
    ensures |AdmittedIn(window, max, requests, from)| <= Max(0, max)
  {
    if first :| 0 <= first < |requests| && Counts(window, max, requests, from, first) {
      var k := LastAdmitted(window, max, requests, from, first);
      var q := requests[..k + 1];
      TimelyPrefix(window, requests, k + 1);
      SetIsWindow(window, q);
      CountedAreRecent(window, max, requests, from, k);
      SubsetSize(AdmittedIn(window, max, requests, from), Recent(q, window, requests[k].now));
    } else {
      assert AdmittedIn(window, max, requests, from) == {};
    }
  }

  // ----- requests instead of instants

  function Min(a: int, b: int): int {
    if a < b then a else b
  }

  /** Requests at one instant. */
  function CountAt(requests: seq<Request>, x: nat): nat {
    if requests == [] then 0
    else CountAt(requests[..|requests| - 1], x) + (if requests[|requests| - 1].now == x then 1 else 0)
  }

  ghost predicate PerInstant(requests: seq<Request>, b: nat) {
    forall x: nat :: CountAt(requests, x) <= b
  }

  /** Requests admitted in (from, from + window]. */
  function AdmittedRequests(window: int, max: int, requests: seq<Request>, from: int): nat {
    if requests == [] then 0
    else
      var front, last := requests[..|requests| - 1], requests[|requests| - 1];
      AdmittedRequests(window, max, front, from)
      + if |After(window, requests).members| <= max && from < last.now <= from + window then 1 else 0
  }

  function InstantsIn(requests: seq<Request>, s: set<nat>): nat {
    if requests == [] then 0
    else InstantsIn(requests[..|requests| - 1], s) + (if requests[|requests| - 1].now in s then 1 else 0)
  }

  lemma LastCounts(window: int, max: int, requests: seq<Request>, from: int)
    requires requests != []
    ensures var front := requests[..|requests| - 1];
            AdmittedIn(window, max, front, from) <= AdmittedIn(window, max, requests, from)
    ensures Counts(window, max, requests, from, |requests| - 1) ==>
              requests[|requests| - 1].now in AdmittedIn(window, max, requests, from)
  {
    var front := requests[..|requests| - 1];
    forall x | x in AdmittedIn(window, max, front, from)
      ensures x in AdmittedIn(window, max, requests, from)
    {
      var k :| 0 <= k < |front| && Counts(window, max, front, from, k) && front[k].now == x;
      assert front[..k + 1] == requests[..k + 1];
      assert Counts(window, max, requests, from, k);
    }
  }

  lemma {:induction false} AdmittedAtInstants(window: int, max: int, requests: seq<Request>, from: int, s: set<nat>)
    requires AdmittedIn(window, max, requests, from) <= s
    ensures AdmittedRequests(window, max, requests, from) <= InstantsIn(requests, s)
  {
    if requests != [] {
      LastCounts(window, max, requests, from);
      assert requests[..|requests|] == requests;
      AdmittedAtInstants(window, max, requests[..|requests| - 1], from, s);
    }
  }

  lemma {:induction false} InstantsSplit(requests: seq<Request>, s: set<nat>, x: nat)
    requires x in s
    ensures InstantsIn(requests, s) == InstantsIn(requests, s - {x}) + CountAt(requests, x)
  {
    if requests != [] {
      InstantsSplit(requests[..|requests| - 1], s, x);
    }
  }

  lemma {:induction false} NoInstants(requests: seq<Request>)
    ensures InstantsIn(requests, {}) == 0
  {
    if requests != [] {
      NoInstants(requests[..|requests| - 1]);
    }
  }

  lemma {:induction false} InstantsBound(requests: seq<Request>, s: set<nat>, b: nat)
    requires PerInstant(requests, b)
    ensures InstantsIn(requests, s) <= b * |s|
    decreases |s|
  {
    if s == {} {
      NoInstants(requests);
    } else {
      var x :| x in s;
      InstantsSplit(requests, s, x);
      InstantsBound(requests, s - {x}, b);
      assert |s| == |s - {x}| + 1;
      assert b * |s| == b * |s - {x}| + b;
    }
  }

  lemma {:induction false} RangeSize(s: set<nat>, from: int, width: nat)
    requires forall x | x in s :: from < x <= from + width
    ensures |s| <= width
    decreases width
  {
    if width == 0 {
      assert s == {};
    } else if x: nat :| x in s && x == from + width {
      RangeSize(s - {x}, from, width - 1);
    } else {
      RangeSize(s, from, width - 1);
    }
  }

  /** With at most `b` requests at one instant, every window-long interval admits at most b times the lesser of `max`
      and the window's milliseconds. */
  lemma RequestCapacity(window: int, max: int, requests: seq<Request>, from: int, b: nat)
    requires window > 0 && Timely(window, requests) && PerInstant(requests, b)
    ensures AdmittedRequests(window, max, requests, from) <= b * Min(window, Max(0, max))
  {
    var s := AdmittedIn(window, max, requests, from);
    WindowCapacity(window, max, requests, from);
    RangeSize(s, from, window);
    AdmittedAtInstants(window, max, requests, from, s);
    InstantsBound(requests, s, b);
    Scales(b, |s|, Min(window, Max(0, max)));
  }

  lemma Scales(b: nat, m: nat, n: nat)
    requires m <= n
    ensures b * m <= b * n
  {
  }

  /** `b` requests at each of the instants 1..m, then `j` at the next. */
  function Stairs(b: nat, m: nat, j: nat): seq<Request>
    decreases m, j
  {
    if j > 0 then Stairs(b, m, j - 1) + [Request(m + 1, false)]
    else if m > 0 then Stairs(b, m - 1, b)
    else []
  }

  predicate Rising(q: seq<Request>) {
    && (forall i | 0 <= i < |q| :: !q[i].purged)
    && (forall i | 0 < i < |q| :: q[i - 1].now <= q[i].now)
  }

  lemma {:induction false} RisingIsTimely(window: int, q: seq<Request>)
    requires Rising(q)
    ensures Timely(window, q)
  {
    if q != [] {
      RisingIsTimely(window, q[..|q| - 1]);
    }
  }

  lemma {:induction false} StairsRange(b: nat, m: nat, j: nat)
    ensures forall i | 0 <= i < |Stairs(b, m, j)| :: 1 <= Stairs(b, m, j)[i].now <= (if j > 0 then m + 1 else m)
    decreases m, j
  {
    if j > 0 {
      StairsRange(b, m, j - 1);
    } else if m > 0 {
      StairsRange(b, m - 1, b);
    }
  }

  lemma {:induction false} StairsRise(b: nat, m: nat, j: nat)
    ensures Rising(Stairs(b, m, j))
    decreases m, j
  {
    if j > 0 {
      StairsRise(b, m, j - 1);
      StairsRange(b, m, j - 1);
    } else if m > 0 {
      StairsRise(b, m - 1, b);
    }
  }

  lemma {:induction false} StairsPerInstant(b: nat, m: nat, j: nat, x: nat)
    requires j <= b
    ensures CountAt(Stairs(b, m, j), x) == if 1 <= x <= m then b else if x == m + 1 then j else 0
    decreases m, j
  {
    if j > 0 {
      StairsPerInstant(b, m, j - 1, x);
      assert Stairs(b, m, j)[..|Stairs(b, m, j)| - 1] == Stairs(b, m, j - 1);
    } else if m > 0 {
      StairsPerInstant(b, m - 1, b, x);
    }
  }

  /** On the stairs no more instants are in the set than steps have been climbed. */
  lemma StairsFit(b: nat, m: nat, j: nat, window: int)
    requires window > 0 && j > 0
    ensures |After(window, Stairs(b, m, j)).members| <= m + 1
  {
    var q := Stairs(b, m, j);
    StairsRise(b, m, j);
    RisingIsTimely(window, q);
    StairsRange(b, m, j);
    SetIsWindow(window, q);
    RangeSize(After(window, q).members, 0, m + 1);
  }

  lemma {:induction false} StairsAdmitted(b: nat, m: nat, j: nat, window: int, max: int)
    requires window > 0 && (if j > 0 then m + 1 else m) <= Min(window, max)
    ensures AdmittedRequests(window, max, Stairs(b, m, j), 0) == b * m + j
    decreases m, j
  {
    if j > 0 {
      StairsAdmitted(b, m, j - 1, window, max);
      StairsFit(b, m, j, window);
      assert Stairs(b, m, j)[..|Stairs(b, m, j)| - 1] == Stairs(b, m, j - 1);
    } else if m > 0 {
      StairsAdmitted(b, m - 1, b, window, max);
      assert b * m == b * (m - 1) + b;
    }
  }

  /** That bound is met. */
  lemma RequestCapacityIsMet(window: int, max: int, b: nat)
    requires window > 0 && max >= 1
    ensures exists requests :: Timely(window, requests) && PerInstant(requests, b)
                               && AdmittedRequests(window, max, requests, 0) == b * Min(window, max)
  {
    var m := Min(window, max);
    var q := Stairs(b, m, 0);
    StairsRise(b, m, 0);
    RisingIsTimely(window, q);
    StairsAdmitted(b, m, 0, window, max);
    forall x: nat
      ensures CountAt(q, x) <= b
    {
      StairsPerInstant(b, m, 0, x);
    }
  }

  /** The plain bound `max` on requests, over all histories with at most `b` requests at one instant. */
  ghost predicate BoundsRequests(window: int, max: int, b: nat) {
    forall requests, from | Timely(window, requests) && PerInstant(requests, b) ::
      AdmittedRequests(window, max, requests, from) <= Max(0, max)
  }

  /** It holds exactly if requests do not share instants -- or nothing is ever admitted, or the window is so short that
      its milliseconds cannot hold enough of them. */
  lemma BoundsRequestsIff(window: int, max: int, b: nat)
    requires window > 0
    ensures BoundsRequests(window, max, b) <==> max < 1 || b * Min(window, max) <= max
    ensures window >= max ==> (BoundsRequests(window, max, b) <==> max < 1 || b <= 1)
  {
    if max < 1 || b * Min(window, max) <= max {
      forall requests, from | Timely(window, requests) && PerInstant(requests, b)
        ensures AdmittedRequests(window, max, requests, from) <= Max(0, max)
      {
        RequestCapacity(window, max, requests, from, b);
      }
    } else {
      RequestCapacityIsMet(window, max, b);
    }
    if max >= 1 { Multiple(b, max); }
  }

  lemma Multiple(b: nat, m: nat)
    requires m >= 1
    ensures b * m <= m <==> b <= 1
  {
    if b >= 2 { assert b * m >= 2 * m; }
  }

  /** Why instants and not requests: any number of requests in one millisecond are all admitted. */
  lemma BurstIsAdmitted(window: int, max: int, now: nat, n: nat, k: nat)
    requires window > 0 && max >= 1 && k < n
    ensures Admits(window, max, seq(n, _ => Request(now, false)), k)
  {
    var requests := seq(n, _ => Request(now, false));
    var q := requests[..k + 1];
    RisingIsTimely(window, q);
    SetIsWindow(window, q);
    SubsetSize(Recent(q, window, now), {now});
  }

  /** After the reported delay the oldest entry has left the window. */
  lemma OldestIsGone(window: int, requests: seq<Request>, later: Request, seconds: int, oldest: nat)
    requires window > 0 && requests != [] && Timely(window, requests + [later])
    requires oldest <= requests[|requests| - 1].now + 1000 * seconds - window
    requires later.now >= requests[|requests| - 1].now + 1000 * seconds
    ensures oldest !in After(window, requests + [later]).members
  {
    SetIsWindow(window, requests + [later]);
  }
}
