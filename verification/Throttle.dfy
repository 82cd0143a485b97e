/** Pacing of outbound sends: a counter with a one-minute life, and a minimum gap between sends. */
module Throttle {
  import opened Options

  const COUNTER_LIFE_MS := 60_000
  const SHORTEST_LIFE_MS := 59_501       // TTL rounds to whole seconds, and a TTL of 0 deletes the key
  const STAMP_LIFE_MS := 3_600_000

  /** A Redis key: value and, once EXPIRE has run, the time it goes away. */
  datatype Counter = Counter(value: nat, expiry: Option<int>)

  predicate Live(c: Option<Counter>, now: int) {
    c.Some? && (c.value.expiry.None? || now < c.value.expiry.value)
  }

  /** What GET reads, with a missing key taken as 0. */
  function Count(c: Option<Counter>, now: int): nat {
    if Live(c, now) then c.value.value else 0
  }

  /** TTL of a key in seconds: -2 without a key, -1 without an expiry, else rounded to the nearest second. */
  function Ttl(c: Option<Counter>, now: int): int {
    if !Live(c, now) then -2
    else if c.value.expiry.None? then -1
    else (c.value.expiry.value - now + 500) / 1000
  }

  // ----- the record of passes

  /** One life of the counter: when its first send was counted, and when each send in it was. */
  datatype Life = Life(start: int, passes: seq<int>)

  function Passes(lives: seq<Life>): seq<int> {
    if lives == [] then [] else Passes(lives[..|lives| - 1]) + lives[|lives| - 1].passes
  }

  ghost function InSpan(passes: seq<int>, from: int, ms: int): nat {
    if passes == [] then 0
    else InSpan(passes[..|passes| - 1], from, ms) + (if from <= passes[|passes| - 1] < from + ms then 1 else 0)
  }

  ghost predicate Within(life: Life, limit: nat) {
    && 0 < |life.passes| <= limit && life.passes[0] == life.start
    && forall k | 0 <= k < |life.passes| :: life.start <= life.passes[k]
  }

  ghost predicate Follows(earlier: Life, later: Life) {
    && earlier.start + SHORTEST_LIFE_MS <= later.start
    && forall k | 0 <= k < |earlier.passes| :: earlier.passes[k] <= later.start
  }

  /** Every life holds at most `limit` passes, the first at its start, and lives follow one another at least 59 501 ms
      apart. */
  ghost predicate Lives(lives: seq<Life>, limit: nat) {
    lives == [] ||
    (&& Within(lives[|lives| - 1], limit)
     && (|lives| > 1 ==> Follows(lives[|lives| - 2], lives[|lives| - 1]))
     && Lives(lives[..|lives| - 1], limit))
  }

  lemma {:induction false} SpanAdds(a: seq<int>, b: seq<int>, from: int, ms: int)
    ensures InSpan(a + b, from, ms) == InSpan(a, from, ms) + InSpan(b, from, ms)
  {
    if b == [] {
      assert a + b == a;
    } else {
      assert (a + b)[..|a + b| - 1] == a + b[..|b| - 1];
      SpanAdds(a, b[..|b| - 1], from, ms);
    }
  }

  lemma {:induction false} SpanIsPart(passes: seq<int>, from: int, ms: int)
    ensures InSpan(passes, from, ms) <= |passes|
    ensures passes != [] && !(from <= passes[0] < from + ms) ==> InSpan(passes, from, ms) < |passes|
  {
    if passes != [] {
      SpanIsPart(passes[..|passes| - 1], from, ms);
    }
  }

  lemma {:induction false} NothingInSpan(passes: seq<int>, from: int, ms: int)
    requires forall k | 0 <= k < |passes| :: passes[k] < from || from + ms <= passes[k]
    ensures InSpan(passes, from, ms) == 0
  {
    if passes != [] {
      NothingInSpan(passes[..|passes| - 1], from, ms);
    }
  }

  /** Lives whose successor began before the span leave nothing in it. */
  lemma {:induction false} EarlierLives(lives: seq<Life>, limit: nat, next: Life, from: int, ms: int)
    requires Lives(lives, limit) && next.start < from
    requires lives != [] ==> Follows(lives[|lives| - 1], next)
    ensures InSpan(Passes(lives), from, ms) == 0
  {
    if lives != [] {
      EarlierLives(lives[..|lives| - 1], limit, lives[|lives| - 1], from, ms);
      SpanAdds(Passes(lives[..|lives| - 1]), lives[|lives| - 1].passes, from, ms);
      NothingInSpan(lives[|lives| - 1].passes, from, ms);
    }
  }

  /** Any span of 59 501 ms holds fewer than twice the limit: no span covers two whole lives. */
  lemma {:induction false} SpanCapacity(lives: seq<Life>, limit: nat, from: int)
    requires Lives(lives, limit) && limit >= 1
    ensures InSpan(Passes(lives), from, SHORTEST_LIFE_MS) <= 2 * limit - 1
  {
    if lives != [] {
      var before, life := lives[..|lives| - 1], lives[|lives| - 1];
      SpanAdds(Passes(before), life.passes, from, SHORTEST_LIFE_MS);
      SpanIsPart(life.passes, from, SHORTEST_LIFE_MS);
      if life.start >= from + SHORTEST_LIFE_MS {
        SpanCapacity(before, limit, from);
        StartsLate(life, limit, from, SHORTEST_LIFE_MS);
      } else if before != [] {
        LastOf(before, limit, life, from);
      }
    }
  }

  lemma EverySpan(lives: seq<Life>, limit: nat)
    requires Lives(lives, limit) && limit >= 1
    ensures forall from :: InSpan(Passes(lives), from, SHORTEST_LIFE_MS) <= 2 * limit - 1
  {
    forall from
      ensures InSpan(Passes(lives), from, SHORTEST_LIFE_MS) <= 2 * limit - 1
    {
      SpanCapacity(lives, limit, from);
    }
  }

  lemma StartsLate(life: Life, limit: nat, from: int, ms: int)
    requires Within(life, limit) && life.start >= from + ms
    ensures InSpan(life.passes, from, ms) == 0
  {
    NothingInSpan(life.passes, from, ms);
  }

  /** A life whose successor begins before the end of the span began before the span. */
  lemma LastOf(lives: seq<Life>, limit: nat, next: Life, from: int)
    requires Lives(lives, limit) && lives != [] && Follows(lives[|lives| - 1], next)
    requires next.start < from + SHORTEST_LIFE_MS
    ensures InSpan(Passes(lives), from, SHORTEST_LIFE_MS) < limit
  {
    var before, life := lives[..|lives| - 1], lives[|lives| - 1];
    SpanAdds(Passes(before), life.passes, from, SHORTEST_LIFE_MS);
    SpanIsPart(life.passes, from, SHORTEST_LIFE_MS);
    EarlierLives(before, limit, life, from, SHORTEST_LIFE_MS);
  }

  function AddPass(lives: seq<Life>, at: int): seq<Life>
    requires lives != []
  {
    lives[..|lives| - 1] + [Life(lives[|lives| - 1].start, lives[|lives| - 1].passes + [at])]
  }

  /** One more pass in the running life ... */
  lemma LifeGoesOn(lives: seq<Life>, limit: nat, at: int)
    requires Lives(lives, limit) && lives != [] && lives[|lives| - 1].start <= at && |lives[|lives| - 1].passes| < limit
    ensures Lives(AddPass(lives, at), limit) && Passes(AddPass(lives, at)) == Passes(lives) + [at]
  {
    var more := AddPass(lives, at);
    assert more[..|more| - 1] == lives[..|lives| - 1];
    assert |lives| > 1 ==> more[|more| - 2] == lives[|lives| - 2];
  }

  /** ... or the first of a new one. */
  lemma LifeBegins(lives: seq<Life>, limit: nat, at: int)
    requires Lives(lives, limit) && limit >= 1
    requires lives != [] ==> Follows(lives[|lives| - 1], Life(at, [at]))
    ensures Lives(lives + [Life(at, [at])], limit) && Passes(lives + [Life(at, [at])]) == Passes(lives) + [at]
  {
    var more := lives + [Life(at, [at])];
    assert more[..|more| - 1] == lives;
  }

  // ----- the counter loop, one Redis command or sleep at a time

  /** What the worker does next: GET, INCR, EXPIRE, TTL, DEL, or wake up. */
  datatype Phase = Reading | Counting | Expiring | Asking | Clearing | Sleeping(until: int)

  /** `lives` is history: what has been counted so far. */
  datatype State = State(now: int, counter: Option<Counter>, phase: Phase, lives: seq<Life>)

  datatype Action = Tick(ms: nat) | Do

  /** INCR; a live counter has a life in the history. */
  function Counted(s: State): State {
    if Live(s.counter, s.now) && s.lives != [] then
      s.(counter := Some(s.counter.value.(value := s.counter.value.value + 1)),
         lives := AddPass(s.lives, s.now), phase := Reading)
    else
      s.(counter := Some(Counter(1, None)), lives := s.lives + [Life(s.now, [s.now])], phase := Expiring)
  }

  function Done(limit: int, s: State): State {
    match s.phase
    case Reading => s.(phase := if Count(s.counter, s.now) < limit then Counting else Asking)
    case Counting => Counted(s)
    case Expiring =>
      s.(counter := if s.counter.Some? then Some(s.counter.value.(expiry := Some(s.now + COUNTER_LIFE_MS))) else None,
         phase := Reading)
    case Asking =>
      var ttl := Ttl(s.counter, s.now);
      s.(phase := if ttl <= 0 then Clearing else Sleeping(s.now + ttl * 1000))
    case Clearing => s.(counter := None, phase := Reading)
    case Sleeping(until) => if s.now >= until then s.(phase := Reading) else s
  }

  function Step(limit: int, s: State, a: Action): State {
    match a
    case Tick(ms) => s.(now := s.now + ms)
    case Do => Done(limit, s)
  }

  function Steps(limit: int, s: State, actions: seq<Action>): State {
    if actions == [] then s
    else Step(limit, Steps(limit, s, actions[..|actions| - 1]), actions[|actions| - 1])
  }

  const START := State(0, None, Reading, [])

  ghost predicate Leads(limit: int, s: State, t: State) {
    exists actions :: Steps(limit, s, actions) == t
  }

  lemma LeadsOn(limit: int, s: State, t: State, a: Action)
    requires Leads(limit, s, t)
    ensures Leads(limit, s, Step(limit, t, a))
  {
    var actions :| Steps(limit, s, actions) == t;
    assert (actions + [a])[..|actions|] == actions;
    assert Steps(limit, s, actions + [a]) == Step(limit, t, a);
  }

  lemma {:induction false} StepsJoin(limit: int, s: State, a: seq<Action>, b: seq<Action>)
    ensures Steps(limit, s, a + b) == Steps(limit, Steps(limit, s, a), b)
  {
    if b == [] {
      assert a + b == a;
    } else {
      assert (a + b)[..|a + b| - 1] == a + b[..|b| - 1];
      StepsJoin(limit, s, a, b[..|b| - 1]);
    }
  }

  lemma LeadsFar(limit: int, s: State, t: State, u: State)
    requires Leads(limit, s, t) && Leads(limit, t, u)
    ensures Leads(limit, s, u)
  {
    var a :| Steps(limit, s, a) == t;
    var b :| Steps(limit, t, b) == u;
    StepsJoin(limit, s, a, b);
  }

  lemma LeadsStart(limit: int, s: State)
    ensures Leads(limit, s, s)
  {
    assert Steps(limit, s, []) == s;
  }

  // ----- what every step keeps

  /** The counter counts the passes of the last life, and a life that has ended lasted at least 59 501 ms. */
  ghost predicate Current(s: State, life: Life) {
    && life.start <= s.now
    && (forall k | 0 <= k < |life.passes| :: life.passes[k] <= s.now)
    && (s.counter.None? ==> life.start + SHORTEST_LIFE_MS <= s.now)
    && (s.counter.Some? ==>
          && s.counter.value.value == |life.passes|
          && (s.counter.value.expiry.None? <==> s.phase.Expiring?)
          && (s.counter.value.expiry.Some? ==> life.start + COUNTER_LIFE_MS <= s.counter.value.expiry.value))
  }

  ghost predicate Inv(limit: int, s: State) {
    && limit >= 1
    && Lives(s.lives, limit)
    && (s.lives != [] ==> Current(s, s.lives[|s.lives| - 1]))
    && (s.lives == [] ==> s.counter.None?)
    && (s.phase.Expiring? ==> s.counter.Some?)
    && (s.phase.Counting? && Live(s.counter, s.now) ==> s.counter.value.value < limit)
    && (s.phase.Clearing? ==> Ttl(s.counter, s.now) <= 0)
  }

  lemma CountKeeps(limit: int, s: State)
    requires Inv(limit, s) && s.phase.Counting?
    ensures Inv(limit, Counted(s)) && Passes(Counted(s).lives) == Passes(s.lives) + [s.now]
  {
    if Live(s.counter, s.now) {
      LifeGoesOn(s.lives, limit, s.now);
    } else {
      BeginKeeps(limit, s);
    }
  }

  lemma BeginKeeps(limit: int, s: State)
    requires Inv(limit, s) && s.phase.Counting? && !Live(s.counter, s.now)
    ensures Inv(limit, Counted(s)) && Passes(Counted(s).lives) == Passes(s.lives) + [s.now]
  {
    var life := Life(s.now, [s.now]);
    LifeBegins(s.lives, limit, s.now);
    assert Counted(s).lives[|s.lives|] == life;
  }

  lemma StepKeeps(limit: int, s: State, a: Action)
    requires Inv(limit, s)
    ensures Inv(limit, Step(limit, s, a))
  {
    if a.Do? && s.phase.Counting? { CountKeeps(limit, s); }
  }

  lemma {:induction false} AlwaysInv(limit: int, s: State, actions: seq<Action>)
    requires Inv(limit, s)
    ensures Inv(limit, Steps(limit, s, actions))
  {
    if actions != [] {
      AlwaysInv(limit, s, actions[..|actions| - 1]);
      StepKeeps(limit, Steps(limit, s, actions[..|actions| - 1]), actions[|actions| - 1]);
    }
  }

  lemma LeadsKeeps(limit: int, s: State, t: State)
    requires Inv(limit, s) && Leads(limit, s, t)
    ensures Inv(limit, t)
  {
    var actions :| Steps(limit, s, actions) == t;
    AlwaysInv(limit, s, actions);
  }

  /** In every run of the loop any 59 501 ms hold fewer passes than twice the limit. */
  lemma RunCapacity(limit: int, actions: seq<Action>, from: int)
    requires limit >= 1
    ensures InSpan(Passes(Steps(limit, START, actions).lives), from, SHORTEST_LIFE_MS) <= 2 * limit - 1
  {
    AlwaysInv(limit, START, actions);
    SpanCapacity(Steps(limit, START, actions).lives, limit, from);
  }

  // ----- the bound is met

  /** A first pass at 0 and `m` further ones at 59 501. */
  function Burst(m: nat): seq<int> {
    [0] + seq(m, _ => SHORTEST_LIFE_MS)
  }

  lemma {:induction false} BurstInSpan(m: nat)
    ensures InSpan(Burst(m), 1, SHORTEST_LIFE_MS) == m
  {
    if m == 0 {
      assert Burst(0) == [0] && [0][..0] == [];
    } else {
      BurstInSpan(m - 1);
      assert Burst(m)[..m] == Burst(m - 1);
    }
  }

  /** One more send while the counter lives and is below the limit. */
  lemma SendsOne(limit: int, s: State) returns (t: State)
    requires limit >= 1 && Leads(limit, START, s) && s.phase.Reading? && Live(s.counter, s.now) && s.lives != []
    requires s.counter.value.value < limit
    ensures Leads(limit, START, t) && t.phase.Reading? && t.now == s.now && t.lives != []
    ensures t.counter == Some(s.counter.value.(value := s.counter.value.value + 1))
    ensures Passes(t.lives) == Passes(s.lives) + [s.now]
  {
    StartsSound(limit);
    LeadsOn(limit, START, s, Do);
    LeadsKeeps(limit, START, s.(phase := Counting));
    CountKeeps(limit, s.(phase := Counting));
    LeadsOn(limit, START, s.(phase := Counting), Do);
    t := Counted(s);
  }

  /** ... and several at one instant. */
  lemma {:induction false} SendsMany(limit: int, s: State, m: nat) returns (t: State)
    requires limit >= 1 && Leads(limit, START, s) && s.phase.Reading? && Live(s.counter, s.now) && s.lives != []
    requires s.counter.value.value + m <= limit
    ensures Leads(limit, START, t) && t.phase.Reading? && t.now == s.now && t.lives != []
    ensures t.counter == Some(s.counter.value.(value := s.counter.value.value + m))
    ensures Passes(t.lives) == Passes(s.lives) + seq(m, _ => s.now)
    decreases m
  {
    if m == 0 {
      t := s;
    } else {
      var u := SendsOne(limit, s);
      t := SendsMany(limit, u, m - 1);
      assert [s.now] + seq(m - 1, _ => s.now) == seq(m, _ => s.now);
    }
  }

  lemma StartsSound(limit: int)
    requires limit >= 1
    ensures Inv(limit, START)
  {
  }

  /** The first send of a life. */
  lemma SendsFirst(limit: int, s: State) returns (t: State)
    requires limit >= 1 && Leads(limit, START, s) && s.phase.Reading? && s.counter.None?
    ensures Leads(limit, START, t) && t.phase.Reading? && t.now == s.now
    ensures t.counter == Some(Counter(1, Some(s.now + COUNTER_LIFE_MS)))
    ensures t.lives == s.lives + [Life(s.now, [s.now])] && Passes(t.lives) == Passes(s.lives) + [s.now]
  {
    LeadsOn(limit, START, s, Do);
    LeadsOn(limit, START, s.(phase := Counting), Do);
    var u := Counted(s.(phase := Counting));
    LeadsOn(limit, START, u, Do);
    t := Done(limit, u);
    assert t.lives[..|s.lives|] == s.lives;
  }

  /** A full counter whose TTL reads 0 is deleted. */
  lemma Clears(limit: int, s: State) returns (t: State)
    requires Leads(limit, START, s) && s.phase.Reading? && Live(s.counter, s.now)
    requires s.counter.value.value >= limit && Ttl(s.counter, s.now) == 0
    ensures Leads(limit, START, t) && t == s.(counter := None)
  {
    LeadsOn(limit, START, s, Do);
    LeadsOn(limit, START, s.(phase := Asking), Do);
    LeadsOn(limit, START, s.(phase := Clearing), Do);
    t := s.(counter := None);
  }

  lemma FullLife(limit: int) returns (t: State)
    requires limit >= 1
    ensures Leads(limit, START, t) && t.phase.Reading? && t.now == SHORTEST_LIFE_MS
    ensures t.counter == Some(Counter(limit, Some(COUNTER_LIFE_MS)))
    ensures Passes(t.lives) == [0] + seq(limit - 1, _ => SHORTEST_LIFE_MS)
  {
    LeadsStart(limit, START);
    var a := SendsFirst(limit, START);
    LeadsOn(limit, START, a, Tick(SHORTEST_LIFE_MS));
    t := SendsMany(limit, a.(now := SHORTEST_LIFE_MS), limit - 1);
  }

  lemma NextLife(limit: int, s: State) returns (t: State)
    requires limit >= 1 && Leads(limit, START, s) && s.phase.Reading? && s.counter.None?
    ensures Leads(limit, START, t) && Passes(t.lives) == Passes(s.lives) + [s.now] + seq(limit - 1, _ => s.now)
  {
    var a := SendsFirst(limit, s);
    t := SendsMany(limit, a, limit - 1);
  }

  lemma BurstJoins(limit: nat)
    requires limit >= 1
    ensures [0] + seq(limit - 1, _ => SHORTEST_LIFE_MS) + [SHORTEST_LIFE_MS] + seq(limit - 1, _ => SHORTEST_LIFE_MS)
         == Burst(2 * limit - 1)
  {
  }

  /** For every limit some run of the loop meets the bound: the first pass of a life at its start, all others at its
      last moment, and a whole next life's worth at once. */
  lemma SpanIsTight(limit: int)
    requires limit >= 1
    ensures exists actions ::
              InSpan(Passes(Steps(limit, START, actions).lives), 1, SHORTEST_LIFE_MS) == 2 * limit - 1
  {
    var a := FullLife(limit);
    var b := Clears(limit, a);
    var c := NextLife(limit, b);
    BurstJoins(limit);
    BurstInSpan(2 * limit - 1);
    var actions :| Steps(limit, START, actions) == c;
  }

  /** One millisecond earlier the TTL still reads 1, and the key stays. */
  lemma FirstDeletable(start: int, now: int)
    requires start <= now < start + COUNTER_LIFE_MS
    ensures Ttl(Some(Counter(1, Some(start + COUNTER_LIFE_MS))), now) <= 0 <==> now >= start + SHORTEST_LIFE_MS
  {
  }

  /** The loop sleeps until the counter's life is over, give or take half a second of rounding. */
  lemma SleepsOutTheLife(limit: int, s: State)
    requires s.phase.Asking? && Live(s.counter, s.now) && s.counter.value.expiry.Some?
    ensures var t := Done(limit, s);
            && (t.phase.Sleeping? || t.phase.Clearing?)
            && (t.phase.Sleeping? ==>
                  s.counter.value.expiry.value - 500 < t.phase.until <= s.counter.value.expiry.value + 500)
            && (t.phase.Clearing? ==> s.counter.value.expiry.value - 500 < s.now)
  {
  }

  // ----- a limit that lets nothing pass

  lemma {:induction false} NothingPasses(limit: int, actions: seq<Action>)
    requires limit <= 0
    ensures var s := Steps(limit, START, actions); s.lives == [] && !s.phase.Counting? && !s.phase.Expiring?
  {
    if actions != [] {
      NothingPasses(limit, actions[..|actions| - 1]);
    }
  }

  /** With a positive limit, and only then, some run of the loop records a pass; with any other the loop goes on
      forever, however many rounds it makes. */
  lemma PassesIff(limit: int)
    ensures (exists actions :: Steps(limit, START, actions).lives != []) <==> limit >= 1
  {
    if limit >= 1 {
      LeadsStart(limit, START);
      var t := SendsFirst(limit, START);
      var actions :| Steps(limit, START, actions) == t;
      assert Steps(limit, START, actions).lives != [];
    } else {
      forall actions
        ensures Steps(limit, START, actions).lives == []
      {
        NothingPasses(limit, actions);
      }
    }
  }

  // ----- the gap between stamps

  /** The last stamp and when its SET was executed; the key lives an hour from then. */
  datatype Stamp = Stamp(at: int, setAt: int)

  /** One pass through paceWhatsAppGap: the key is read at `readAt` and the new stamp taken at `at`. */
  predicate Paced(last: Option<Stamp>, readAt: int, gap: int, at: int) {
    var lastAt := if last.Some? && readAt < last.value.setAt + STAMP_LIFE_MS then last.value.at else 0;
    readAt <= at && (readAt - lastAt < gap ==> at >= lastAt + gap)
  }

  /** minDelay + floor(random * (maxDelay - minDelay + 1)) with maxDelay raised to minDelay */
  function Gap(min: nat, max: nat, random: real): int {
    var top := if max < min then min else max;
    min + (random * (top - min + 1) as real).Floor
  }

  lemma GapRange(min: nat, max: nat, random: real)
    requires 0.0 <= random < 1.0
    ensures min <= Gap(min, max, random) <= if max < min then min else max
  {
    Scaled(random, (if max < min then min else max) - min + 1);
  }

  lemma Scaled(random: real, width: nat)
    requires 0.0 <= random < 1.0 && width >= 1
    ensures 0 <= (random * width as real).Floor < width
  {
    var w := width as real;
    assert random * w >= 0.0 && (1.0 - random) * w > 0.0;
    assert random * w < w by { assert (1.0 - random) * w == w - random * w; }
    FloorBelow(random * w, width);
  }

  lemma FloorBelow(x: real, n: int)
    requires 0.0 <= x < n as real
    ensures 0 <= x.Floor < n
  {
  }

  /** Every whole number of milliseconds between the bounds can be drawn. */
  lemma GapReaches(min: nat, max: nat, gap: int)
    requires min <= gap <= if max < min then min else max
    ensures exists random :: 0.0 <= random < 1.0 && Gap(min, max, random) == gap
  {
    var width := (if max < min then min else max) - min + 1;
    var w, d := width as real, (gap - min) as real;
    var random := d / w;
    Quotient(d, w);
    assert random * w == d;
    assert Gap(min, max, random) == gap;
  }

  lemma Quotient(d: real, w: real)
    requires 0.0 <= d < w
    ensures 0.0 <= d / w < 1.0 && d / w * w == d
  {
  }

  /** A stamp old enough, or gone, is not waited for: the new one may be taken at once. */
  lemma NoNeedlessWait(last: Option<Stamp>, readAt: int, gap: int)
    requires last.None? || readAt >= last.value.setAt + STAMP_LIFE_MS || readAt >= last.value.at + gap
    requires readAt >= gap
    ensures Paced(last, readAt, gap, readAt)
  {
  }

  /** Consecutive stamps are never closer than the minimum exactly if the minimum does not exceed the key's life. */
  lemma GapIsKeptIff(min: nat)
    ensures (forall last: Stamp, readAt, gap, at |
               last.at <= last.setAt <= readAt && gap >= min && Paced(Some(last), readAt, gap, at) ::
               at >= last.at + min)
            <==> min <= STAMP_LIFE_MS
  {
    if min > STAMP_LIFE_MS {
      var last := Stamp(min, min);
      var at := min + STAMP_LIFE_MS;
      assert Paced(Some(last), at, min, at);
    }
  }

  // ----- the worker

  class OutboundThrottle {
    var now: int
    var counter: Option<Counter>
    var last: Option<Stamp>
    ghost var lives: seq<Life>

    /** The loop with the worker about to do `phase`. */
    ghost function At(phase: Phase): State
      reads this
    {
      State(now, counter, phase, lives)
    }

    ghost predicate Valid(limit: int)
      reads this
    {
      Inv(limit, At(Reading)) && (last.Some? ==> last.value.at <= last.value.setAt <= now)
    }

    constructor ()
      ensures At(Reading) == START
      ensures forall limit: int | limit >= 1 :: Valid(limit)
    {
      now, counter, last, lives := 0, None, None, [];
    }

    method Pass()
      modifies this`now
      ensures now >= old(now)
    {
      var ms: nat :| ms >= 0;
      now := now + ms;
    }

    /** Time goes by before the next command is executed. */
    method Elapse(ghost limit: int, ghost phase: Phase)
      modifies this`now
      ensures now >= old(now) && Leads(limit, old(At(phase)), At(phase))
    {
      Pass();
      LeadsStart(limit, old(At(phase)));
      LeadsOn(limit, old(At(phase)), old(At(phase)), Tick(now - old(now)));
    }

    /** INCR, and EXPIRE when the key is new. */
    method CountSend(limit: int) returns (at: int)
      requires Inv(limit, At(Counting))
      modifies this`now, this`counter, this`lives
      ensures Leads(limit, old(At(Counting)), At(Reading)) && old(now) <= at <= now
      ensures Inv(limit, At(Reading)) && Passes(lives) == Passes(old(lives)) + [at]
    {
      Elapse(limit, Counting);
      LeadsKeeps(limit, old(At(Counting)), At(Counting));
      at := now;
      ghost var before := At(Counting);
      CountKeeps(limit, before);
      LeadsOn(limit, old(At(Counting)), before, Do);
      if Live(counter, now) {
        counter := Some(Counter(counter.value.value + 1, counter.value.expiry));
        lives := AddPass(lives, now);
        assert At(Reading) == Counted(before);
      } else {
        counter, lives := Some(Counter(1, None)), lives + [Life(now, [now])];
        assert At(Expiring) == Counted(before);
        Expire(limit, old(At(Counting)));
      }
    }

    method Expire(limit: int, ghost start: State)
      requires counter.Some? && Leads(limit, start, At(Expiring)) && Inv(limit, At(Expiring))
      modifies this`now, this`counter
      ensures Leads(limit, start, At(Reading)) && Inv(limit, At(Reading)) && now >= old(now)
    {
      Elapse(limit, Expiring);
      LeadsFar(limit, start, old(At(Expiring)), At(Expiring));
      LeadsKeeps(limit, old(At(Expiring)), At(Expiring));
      ghost var before := At(Expiring);
      LeadsOn(limit, start, before, Do);
      StepKeeps(limit, before, Do);
      counter := Some(Counter(counter.value.value, Some(now + COUNTER_LIFE_MS)));
      assert At(Reading) == Step(limit, before, Do);
    }

    /** The cap is reached: clear a counter about to go, or sleep out its TTL. */
    method WaitOut(limit: int)
      requires Inv(limit, At(Asking)) && Live(counter, now)
      modifies this`now, this`counter
      ensures Leads(limit, old(At(Asking)), At(Reading)) && now >= old(now) && Remaining() < old(Remaining())
    {
      Elapse(limit, Asking);
      ghost var start := old(At(Asking));
      LeadsOn(limit, start, At(Asking), Do);
      var ttl := Ttl(counter, now);
      if ttl <= 0 {
        DeleteCounter(limit, start);
      } else {
        Sleep(limit, start, ttl * 1000);
      }
    }

    /** DEL */
    method DeleteCounter(limit: int, ghost start: State)
      requires Leads(limit, start, At(Clearing))
      modifies this`now, this`counter
      ensures Leads(limit, start, At(Reading)) && now >= old(now) && counter.None?
    {
      Elapse(limit, Clearing);
      LeadsFar(limit, start, old(At(Clearing)), At(Clearing));
      LeadsOn(limit, start, At(Clearing), Do);
      counter := None;
    }

    method Sleep(limit: int, ghost start: State, ms: nat)
      requires Leads(limit, start, At(Sleeping(now + ms)))
      modifies this`now
      ensures Leads(limit, start, At(Reading)) && now >= old(now) + ms
    {
      ghost var phase := Sleeping(now + ms);
      LeadsOn(limit, start, At(phase), Tick(ms));
      now := now + ms;
      label Woken:
      Elapse(limit, phase);
      LeadsFar(limit, start, old@Woken(At(phase)), At(phase));
      LeadsOn(limit, start, At(phase), Do);
    }

    /** The per-minute cap: wait until a send may be counted, and count it.  It is a run of the loop, and it ends. */
    method WaitForSlot(limit: int) returns (at: int)
      requires Inv(limit, At(Reading))
      modifies this`now, this`counter, this`lives
      ensures Leads(limit, old(At(Reading)), At(Reading)) && old(now) <= at <= now
      ensures Inv(limit, At(Reading)) && Passes(lives) == Passes(old(lives)) + [at]
    {
      ghost var start := At(Reading);
      LeadsStart(limit, start);
      while true
        invariant Leads(limit, start, At(Reading)) && now >= old(now) && lives == old(lives)
        decreases Remaining()
      {
        label Top:
        Elapse(limit, Reading);
        LeadsFar(limit, start, old@Top(At(Reading)), At(Reading));
        LeadsOn(limit, start, At(Reading), Do);
        if Count(counter, now) < limit {
          LeadsKeeps(limit, start, At(Counting));
          at := Finish(limit, start);
          return;
        }
        LeadsKeeps(limit, start, At(Asking));
        Round(limit, start);
      }
    }

    method Finish(limit: int, ghost start: State) returns (at: int)
      requires Leads(limit, start, At(Counting)) && Inv(limit, At(Counting))
      modifies this`now, this`counter, this`lives
      ensures Leads(limit, start, At(Reading)) && old(now) <= at <= now
      ensures Inv(limit, At(Reading)) && Passes(lives) == Passes(old(lives)) + [at]
    {
      at := CountSend(limit);
      LeadsFar(limit, start, old(At(Counting)), At(Reading));
    }

    method Round(limit: int, ghost start: State)
      requires Leads(limit, start, At(Asking)) && Inv(limit, At(Asking)) && Live(counter, now)
      modifies this`now, this`counter
      ensures Leads(limit, start, At(Reading)) && now >= old(now) && Remaining() < old(Remaining())
    {
      WaitOut(limit);
      LeadsFar(limit, start, old(At(Asking)), At(Reading));
    }

    /** What is left of the counter's life, as the loop sees it. */
    ghost function Remaining(): nat
      reads this
    {
      if !Live(counter, now) then 0
      else if counter.value.expiry.None? then 1
      else counter.value.expiry.value - now
    }

    /** Minimum gap since the previous send. */
    method PaceGap(gap: int) returns (stamp: int)
      modifies this`now, this`last
      ensures now >= old(now) && last == Some(Stamp(stamp, now))
      ensures exists readAt :: old(now) <= readAt <= stamp <= now && Paced(old(last), readAt, gap, stamp)
    {
      Pass();
      ghost var readAt := now;
      var lastAt := if last.Some? && now < last.value.setAt + STAMP_LIFE_MS then last.value.at else 0;
      var elapsed := now - lastAt;
      if elapsed < gap {
        now := now + (gap - elapsed);
        Pass();
      }
      stamp := now;
      Pass();
      last := Some(Stamp(stamp, now));
      assert Paced(old(last), readAt, gap, stamp);
    }

    /** throttleOutboundSend: cap, then gap. */
    method ThrottleOutboundSend(limit: int, min: nat, max: nat, random: real) returns (at: int, stamp: int)
      requires Valid(limit) && 0.0 <= random < 1.0
      modifies this
      ensures Valid(limit) && Passes(lives) == Passes(old(lives)) + [at] && old(now) <= at <= stamp <= now
      ensures Leads(limit, old(At(Reading)), At(Reading))
      ensures last == Some(Stamp(stamp, now))
      ensures old(last).Some? && min <= STAMP_LIFE_MS ==> stamp >= old(last).value.at + min
      ensures forall from :: InSpan(Passes(lives), from, SHORTEST_LIFE_MS) <= 2 * limit - 1
    {
      at := WaitForSlot(limit);
      ghost var counted := At(Reading);
      GapRange(min, max, random);
      stamp := PaceGap(Gap(min, max, random));
      assert At(Reading) == Step(limit, counted, Tick(now - counted.now));
      StepKeeps(limit, counted, Tick(now - counted.now));
      LeadsOn(limit, old(At(Reading)), counted, Tick(now - counted.now));
      EverySpan(lives, limit);
    }
  }
}
