/** Accounting of the initial history sync: chunks expected, chunks processed, and the counters kept in the database. */
module SyncProgress {
  import opened ChatCreation
  import opened Jids
  import opened MessageStore
  import opened Options

  type ChunkKey = string

  /** A message of a chunk: empty strings stand for missing fields; `resolved` is what resolveLidJid answered for its
      JID and `chat` what ensureChatExists answered. */
  datatype SyncMessage = SyncMessage(
    remoteJid: Jid, id: string, resolved: Jid, chat: Option<ChatId>, reaction: bool, fromMe: bool, body: string)

  /** What the loop of processHistorySync stores for a message, if anything. */
  function ToStore(s: Session, m: SyncMessage): Option<Entry> {
    if m.remoteJid == "" || m.id == "" || Excluded(NormalizeJid(m.resolved)) || m.chat.None? || m.reaction then None
    else Some(Entry((s, m.id), Row(m.chat.value, m.fromMe, m.body)))
  }

  function Storables(s: Session, messages: seq<SyncMessage>): seq<Entry> {
    if messages == [] then []
    else
      var rest, entry := Storables(s, messages[..|messages| - 1]), ToStore(s, messages[|messages| - 1]);
      if entry.Some? then rest + [entry.value] else rest
  }

  function SkippedIn(s: Session, messages: seq<SyncMessage>): set<nat> {
    set i | 0 <= i < |messages| && ToStore(s, messages[i]).None?
  }

  /** What is stored, in the messages' own fields: the entries stand for strictly increasing positions, those of the
      messages with JID and id, a chat, no reaction and no excluded JID; each carries its message's id, chat, sender
      flag and content. */
  lemma {:induction false} StorablesAre(s: Session, messages: seq<SyncMessage>) returns (kept: seq<nat>)
    ensures |kept| == |Storables(s, messages)|
    ensures forall a, b | 0 <= a < b < |kept| :: kept[a] < kept[b]
    ensures forall i: nat :: i in kept <==>
              && i < |messages|
              && messages[i].remoteJid != "" && messages[i].id != "" && messages[i].chat.Some? && !messages[i].reaction
              && !EndsWith(NormalizeJid(messages[i].resolved), "@broadcast")
              && !EndsWith(NormalizeJid(messages[i].resolved), "@newsletter")
              && NormalizeJid(messages[i].resolved) != "status"
    ensures forall k | 0 <= k < |kept| ::
              && kept[k] < |messages| && messages[kept[k]].chat.Some?
              && var m := messages[kept[k]];
                 Storables(s, messages)[k] == Entry((s, m.id), Row(m.chat.value, m.fromMe, m.body))
  {
    kept := Positions(s, messages);
    PositionsRise(s, messages);
    PositionsStore(s, messages, 0);
    forall i: nat
      ensures i in kept <==>
                && i < |messages|
                && messages[i].remoteJid != "" && messages[i].id != "" && messages[i].chat.Some?
                && !messages[i].reaction
                && !EndsWith(NormalizeJid(messages[i].resolved), "@broadcast")
                && !EndsWith(NormalizeJid(messages[i].resolved), "@newsletter")
                && NormalizeJid(messages[i].resolved) != "status"
    {
      if i < |messages| { ToStoreIs(s, messages[i]); }
      if i < |messages| && ToStore(s, messages[i]).Some? { PositionsAll(s, messages, i); }
      if k :| 0 <= k < |kept| && kept[k] == i { PositionsStore(s, messages, k); }
    }
    forall k | 0 <= k < |kept|
      ensures kept[k] < |messages| && messages[kept[k]].chat.Some?
      ensures var m := messages[kept[k]];
              Storables(s, messages)[k] == Entry((s, m.id), Row(m.chat.value, m.fromMe, m.body))
    {
      PositionsStore(s, messages, k);
      ToStoreIs(s, messages[kept[k]]);
    }
  }

  lemma ToStoreIs(s: Session, m: SyncMessage)
    ensures ToStore(s, m).Some? <==>
              && m.remoteJid != "" && m.id != "" && m.chat.Some? && !m.reaction
              && !EndsWith(NormalizeJid(m.resolved), "@broadcast")
              && !EndsWith(NormalizeJid(m.resolved), "@newsletter")
              && NormalizeJid(m.resolved) != "status"
    ensures ToStore(s, m).Some? ==>
              m.chat.Some? && ToStore(s, m).value == Entry((s, m.id), Row(m.chat.value, m.fromMe, m.body))
  {
  }

  /** The positions of the messages that are stored. */
  ghost function Positions(s: Session, messages: seq<SyncMessage>): seq<nat> {
    if messages == [] then []
    else
      Positions(s, messages[..|messages| - 1])
      + if ToStore(s, messages[|messages| - 1]).Some? then [|messages| - 1] else []
  }

  lemma {:induction false} PositionsRise(s: Session, messages: seq<SyncMessage>)
    ensures forall k | 0 <= k < |Positions(s, messages)| :: Positions(s, messages)[k] < |messages|
    ensures forall a, b | 0 <= a < b < |Positions(s, messages)| :: Positions(s, messages)[a] < Positions(s, messages)[b]
  {
    if messages != [] {
      PositionsRise(s, messages[..|messages| - 1]);
    }
  }

  lemma {:induction false} PositionsStore(s: Session, messages: seq<SyncMessage>, k: nat)
    ensures |Positions(s, messages)| == |Storables(s, messages)|
    ensures k < |Positions(s, messages)| ==>
              && Positions(s, messages)[k] < |messages|
              && ToStore(s, messages[Positions(s, messages)[k]]) == Some(Storables(s, messages)[k])
  {
    if messages != [] {
      PositionsStore(s, messages[..|messages| - 1], k);
    }
  }

  lemma {:induction false} PositionsAll(s: Session, messages: seq<SyncMessage>, i: nat)
    requires i < |messages| && ToStore(s, messages[i]).Some?
    ensures i in Positions(s, messages)
  {
    if i < |messages| - 1 {
      PositionsAll(s, messages[..|messages| - 1], i);
    }
  }

  /** The loop body up to the insert. */
  method Fate(s: Session, m: SyncMessage) returns (entry: Option<Entry>)
    ensures entry == ToStore(s, m)
  {
    if m.remoteJid == "" || m.id == "" { return None; }
    var jid := NormalizeJid(m.resolved);
    if EndsWith(jid, "@broadcast") || EndsWith(jid, "@newsletter") || jid == "status" { return None; }
    if m.chat.None? { return None; }
    if m.reaction { return None; }
    entry := Some(Entry((s, m.id), Row(m.chat.value, m.fromMe, m.body)));
  }

  lemma OneMoreMessage(s: Session, messages: seq<SyncMessage>, i: nat)
    requires i < |messages|
    ensures |SkippedIn(s, messages[..i + 1])| ==
              |SkippedIn(s, messages[..i])| + if ToStore(s, messages[i]).None? then 1 else 0
    ensures Storables(s, messages[..i + 1]) ==
              Storables(s, messages[..i])
              + if ToStore(s, messages[i]).Some? then [ToStore(s, messages[i]).value] else []
  {
    assert messages[..i + 1][..i] == messages[..i];
    assert forall k | 0 <= k < i :: messages[..i + 1][k] == messages[..i][k] == messages[k];
    assert SkippedIn(s, messages[..i + 1]) ==
             SkippedIn(s, messages[..i]) + if ToStore(s, messages[i]).None? then {i} else {};
  }

  /** Sort out what to insert, in order, and count the rest. */
  method Classify(s: Session, messages: seq<SyncMessage>)
    returns (toInsert: seq<Entry>, skipped: nat, ghost kept: seq<nat>)
    ensures toInsert == Storables(s, messages)
    ensures skipped == |SkippedIn(s, messages)| == |messages| - |toInsert|
    ensures |kept| == |toInsert| && forall a, b | 0 <= a < b < |kept| :: kept[a] < kept[b]
    ensures forall i: nat :: i in kept <==>
              && i < |messages|
              && messages[i].remoteJid != "" && messages[i].id != "" && messages[i].chat.Some? && !messages[i].reaction
              && !EndsWith(NormalizeJid(messages[i].resolved), "@broadcast")
              && !EndsWith(NormalizeJid(messages[i].resolved), "@newsletter")
              && NormalizeJid(messages[i].resolved) != "status"
    ensures forall k | 0 <= k < |kept| ::
              && kept[k] < |messages| && messages[kept[k]].chat.Some?
              && var m := messages[kept[k]];
                 toInsert[k] == Entry((s, m.id), Row(m.chat.value, m.fromMe, m.body))
  {
    toInsert, skipped := [], 0;
    for i := 0 to |messages|
      invariant toInsert == Storables(s, messages[..i])
      invariant skipped == |SkippedIn(s, messages[..i])|
      invariant |toInsert| + skipped == i
    {
      OneMoreMessage(s, messages, i);
      var entry := Fate(s, messages[i]);
      if entry.None? {
        skipped := skipped + 1;
      } else {
        toInsert := toInsert + [entry.value];
      }
    }
    assert messages[..|messages|] == messages;
    kept := StorablesAre(s, messages);
  }

  /** The value recorded for a chunk is its message count, whatever the database does with the batches. */
  method ProcessChunk(service: MessageService, s: Session, messages: seq<SyncMessage>, fails: set<nat>)
    returns (delta: int)
    modifies service
    ensures delta == |messages|
    ensures service.Now() == Imported(old(service.Now()), Storables(s, messages), 0, fails)
  {
    var toInsert, skipped, _ := Classify(s, messages);
    var inserted, duplicates, errors := service.BulkInsert(toInsert, fails);
    delta := inserted + duplicates + errors + skipped;
  }

  // ----- Redis hashes and database counters

  /** A pair of sums read from the two hashes and not yet written to the database. */
  datatype Report = Report(processed: nat, total: nat)

  datatype State = State(
    totals: map<ChunkKey, nat>,
    processed: map<ChunkKey, nat>,
    reports: multiset<Report>,
    copies: multiset<Report>,
    dbProcessed: nat,
    dbTotal: nat)

  /** HVALS and reduce. */
  ghost function Sum(m: map<ChunkKey, nat>): nat {
    if m == map[] then 0 else var k :| k in m; m[k] + Sum(m - {k})
  }

  lemma {:induction false} SumSplits(m: map<ChunkKey, nat>, k: ChunkKey)
    requires k in m
    ensures Sum(m) == m[k] + Sum(m - {k})
    decreases |m|
  {
    var j :| j in m && Sum(m) == m[j] + Sum(m - {j});
    if j != k {
      SumSplits(m - {j}, k);
      SumSplits(m - {k}, j);
      assert m - {j} - {k} == m - {k} - {j};
    }
  }

  /** A hash that agrees with another wherever it is defined sums to no more. */
  lemma {:induction false} SumOfPart(part: map<ChunkKey, nat>, whole: map<ChunkKey, nat>)
    requires forall k | k in part :: k in whole && part[k] == whole[k]
    ensures Sum(part) <= Sum(whole)
    decreases |part|
  {
    if k :| k in part {
      SumSplits(part, k);
      SumSplits(whole, k);
      SumOfPart(part - {k}, whole - {k});
    }
  }

  datatype Action =
    | Begin(key: ChunkKey, count: nat)     // HSET total, HVALS twice
    | Finish(key: ChunkKey, delta: nat)    // HSET processed, HVALS twice
    | Complete(key: ChunkKey, delta: nat)  // the same for the last chunk: everything counts as processed
    | Expire                               // two minutes without progress: HVALS twice, then a last report
    | Write(report: Report)                // jsonb merge with GREATEST
    | Cleanup                              // DEL of both hashes
    | Zero                                 // sync-retry writes 0 into both counters
    | Copy                                 // SELECT of a session's whole metadata, to be written back later
    | PutBack(copy: Report)                // the UPDATE with that copy

  function Larger(a: nat, b: nat): nat {
    if a < b then b else a
  }

  /** Everything is done as far as anybody knows, or the sync has failed. */
  ghost function Verdict(s: State): Report {
    var processed, total := Larger(s.dbProcessed, Sum(s.processed)), Larger(s.dbTotal, Sum(s.totals));
    if processed >= total then Report(total, total) else Report(0, 0)
  }

  function Counters(s: State): Report {
    Report(s.dbProcessed, s.dbTotal)
  }

  ghost function Apply(s: State, a: Action): State {
    match a
    case Begin(k, n) =>
      var t := s.totals[k := n];
      s.(totals := t, reports := s.reports + multiset{Report(Sum(s.processed), Sum(t))})
    case Finish(k, n) =>
      var p := s.processed[k := n];
      s.(processed := p, reports := s.reports + multiset{Report(Sum(p), Sum(s.totals))})
    case Complete(k, n) =>
      s.(processed := s.processed[k := n], reports := s.reports + multiset{Report(Sum(s.totals), Sum(s.totals))})
    case Expire => s.(reports := s.reports + multiset{Verdict(s)})
    case Write(r) =>
      if r in s.reports then
        s.(reports := s.reports - multiset{r},
           dbProcessed := Larger(s.dbProcessed, r.processed),
           dbTotal := Larger(s.dbTotal, r.total))
      else s
    case Cleanup => s.(totals := map[], processed := map[])
    case Zero => s.(dbProcessed := 0, dbTotal := 0)
    case Copy => s.(copies := s.copies + multiset{Counters(s)})
    case PutBack(c) =>
      if c in s.copies then
        s.(copies := s.copies - multiset{c}, dbProcessed := c.processed, dbTotal := c.total)
      else s
  }

  ghost function After(s: State, acts: seq<Action>): State {
    if acts == [] then s else Apply(After(s, acts[..|acts| - 1]), acts[|acts| - 1])
  }

  // ----- the chunks of the current stretch, read off the actions alone

  /** The chunks begun since the last cleanup, with their message counts. */
  function BegunSince(begun: map<ChunkKey, nat>, acts: seq<Action>): map<ChunkKey, nat> {
    if acts == [] then begun
    else
      var before := BegunSince(begun, acts[..|acts| - 1]);
      match acts[|acts| - 1]
      case Begin(k, n) => before[k := n]
      case Cleanup => map[]
      case _ => before
  }

  /** The chunks finished since the last cleanup, with what was recorded for them. */
  function FinishedSince(finished: map<ChunkKey, nat>, acts: seq<Action>): map<ChunkKey, nat> {
    if acts == [] then finished
    else
      var before := FinishedSince(finished, acts[..|acts| - 1]);
      match acts[|acts| - 1]
      case Finish(k, n) => before[k := n]
      case Complete(k, n) => before[k := n]
      case Cleanup => map[]
      case _ => before
  }

  lemma {:induction false} HashesAre(s: State, acts: seq<Action>)
    ensures After(s, acts).totals == BegunSince(s.totals, acts)
    ensures After(s, acts).processed == FinishedSince(s.processed, acts)
  {
    if acts != [] {
      HashesAre(s, acts[..|acts| - 1]);
    }
  }

  /** A chunk is finished with its own message count, in the stretch between cleanups in which it was begun; and if it
      is begun again after that, it is the same chunk. */
  predicate Orderly(begun: map<ChunkKey, nat>, finished: map<ChunkKey, nat>, acts: seq<Action>) {
    acts == [] ||
    var front, a := acts[..|acts| - 1], acts[|acts| - 1];
    var b, f := BegunSince(begun, front), FinishedSince(finished, front);
    && Orderly(begun, finished, front)
    && match a
       case Begin(k, n) => k in f ==> n == f[k]
       case Finish(k, n) => k in b && n == b[k]
       case Complete(k, n) => k in b && n == b[k]
       case _ => true
  }

  /** Each recorded chunk has a total, and the same. */
  ghost predicate Matched(s: State) {
    forall k | k in s.processed :: k in s.totals && s.totals[k] == s.processed[k]
  }

  ghost predicate AlwaysMatched(s: State, acts: seq<Action>) {
    Matched(After(s, acts)) && (acts == [] || AlwaysMatched(s, acts[..|acts| - 1]))
  }

  lemma MatchedStep(s: State, a: Action)
    requires Matched(s)
    ensures Matched(Apply(s, a)) <==>
              match a
              case Begin(k, n) => k in s.processed ==> n == s.processed[k]
              case Finish(k, n) => k in s.totals && n == s.totals[k]
              case Complete(k, n) => k in s.totals && n == s.totals[k]
              case _ => true
  {
    match a
    case Begin(k, n) =>
      assert k in s.processed ==> (k in Apply(s, a).processed && Apply(s, a).totals[k] == n);
    case Finish(k, n) => assert k in Apply(s, a).processed && Apply(s, a).processed[k] == n;
    case Complete(k, n) => assert k in Apply(s, a).processed && Apply(s, a).processed[k] == n;
    case _ =>
  }

  /** From any state in which the hashes match -- after a cleanup, say -- and through any number of further cleanups:
      they match at every moment exactly if the work is orderly. */
  lemma {:induction false} MatchedIffOrderly(s: State, acts: seq<Action>)
    requires Matched(s)
    ensures AlwaysMatched(s, acts) <==> Orderly(s.totals, s.processed, acts)
  {
    if acts != [] {
      var front, a := acts[..|acts| - 1], acts[|acts| - 1];
      MatchedIffOrderly(s, front);
      if AlwaysMatched(s, front) {
        HashesAre(s, front);
        MatchedAtEnd(s, front);
        MatchedStep(After(s, front), a);
      }
    }
  }

  lemma MatchedAtEnd(s: State, acts: seq<Action>)
    requires AlwaysMatched(s, acts)
    ensures Matched(After(s, acts))
  {
  }

  // ----- what is reported

  /** A chunk begun or finished sends off the sums of both hashes as they are then. */
  lemma SumsAreReported(s: State, a: Action)
    requires a.Begin? || a.Finish?
    ensures var t := Apply(s, a); Report(Sum(t.processed), Sum(t.totals)) in t.reports
    ensures a.Begin? ==> Apply(s, a).totals == s.totals[a.key := a.count] && Apply(s, a).processed == s.processed
    ensures a.Finish? ==> Apply(s, a).processed == s.processed[a.key := a.delta] && Apply(s, a).totals == s.totals
  {
  }

  /** After two minutes without progress: if nothing known is missing, everything is reported as processed; else the
      sync has failed and the report changes nothing. */
  lemma ExpiryReports(s: State)
    ensures var total := if s.dbTotal > Sum(s.totals) then s.dbTotal else Sum(s.totals);
            var done := s.dbProcessed >= total || Sum(s.processed) >= total;
            Apply(s, Expire) == s.(reports := s.reports
                                              + multiset{if done then Report(total, total) else Report(0, 0)})
  {
  }

  /** A cleanup empties both hashes and nothing else. */
  lemma CleanupEmpties(s: State)
    ensures Apply(s, Cleanup) == s.(totals := map[], processed := map[])
  {
  }

  /** A report that is written raises each counter to its value, if that is higher. */
  lemma WriteReaches(s: State, r: Report)
    requires r in s.reports
    ensures var t := Apply(s, Write(r));
            && t.dbProcessed == (if r.processed > s.dbProcessed then r.processed else s.dbProcessed)
            && t.dbTotal == (if r.total > s.dbTotal then r.total else s.dbTotal)
  {
  }

  /** When the last of the begun chunks is finished, the report on its way shows everything processed. */
  lemma LastChunkReportsAll(s: State, k: ChunkKey, n: nat)
    requires Matched(Apply(s, Finish(k, n))) && s.processed.Keys + {k} == s.totals.Keys
    ensures Report(Sum(s.totals), Sum(s.totals)) in Apply(s, Finish(k, n)).reports
  {
    var t := Apply(s, Finish(k, n));
    SumsAreReported(s, Finish(k, n));
    assert t.processed.Keys == t.totals.Keys;
    assert t.processed == t.totals;
  }

  /** The last chunk of a sync reports everything processed whatever is still missing. */
  lemma CompletionReportsAll(s: State, k: ChunkKey, n: nat)
    ensures Report(Sum(s.totals), Sum(s.totals)) in Apply(s, Complete(k, n)).reports
    ensures Apply(s, Complete(k, n)).processed == s.processed[k := n]
  {
  }

  // ----- nothing is ahead

  /** No report on its way, no copy waiting to be put back and no counter in the database shows more processed than
      expected. */
  ghost predicate Honest(s: State) {
    && (forall r | r in s.reports :: r.processed <= r.total)
    && (forall c | c in s.copies :: c.processed <= c.total)
    && s.dbProcessed <= s.dbTotal
  }

  lemma MatchedSums(s: State)
    requires Matched(s)
    ensures Sum(s.processed) <= Sum(s.totals)
  {
    SumOfPart(s.processed, s.totals);
  }

  lemma BeginHonest(s: State, k: ChunkKey, n: nat)
    requires Honest(s) && Matched(s) && Matched(Apply(s, Begin(k, n)))
    ensures Honest(Apply(s, Begin(k, n)))
  {
    MatchedSums(Apply(s, Begin(k, n)));
  }

  lemma FinishHonest(s: State, k: ChunkKey, n: nat)
    requires Honest(s) && Matched(Apply(s, Finish(k, n)))
    ensures Honest(Apply(s, Finish(k, n)))
  {
    MatchedSums(Apply(s, Finish(k, n)));
  }

  lemma WriteHonest(s: State, r: Report)
    requires Honest(s)
    ensures Honest(Apply(s, Write(r)))
  {
    assert forall x | x in Apply(s, Write(r)).reports :: x in s.reports;
  }

  lemma PutBackHonest(s: State, c: Report)
    requires Honest(s)
    ensures Honest(Apply(s, PutBack(c)))
  {
    assert forall x | x in Apply(s, PutBack(c)).copies :: x in s.copies;
  }

  lemma StaysHonest(s: State, a: Action)
    requires Honest(s) && Matched(s) && Matched(Apply(s, a))
    ensures Honest(Apply(s, a))
  {
    match a
    case Begin(k, n) => BeginHonest(s, k, n);
    case Finish(k, n) => FinishHonest(s, k, n);
    case Write(r) => WriteHonest(s, r);
    case PutBack(c) => PutBackHonest(s, c);
    case _ =>
  }

  lemma {:induction false} AlwaysHonest(s: State, acts: seq<Action>)
    requires Honest(s) && AlwaysMatched(s, acts)
    ensures Honest(After(s, acts))
  {
    if acts != [] {
      var front := acts[..|acts| - 1];
      AlwaysHonest(s, front);
      MatchedAtEnd(s, front);
      StaysHonest(After(s, front), acts[|acts| - 1]);
    }
  }

  /** From any honest state with matching hashes, through any number of syncs, cleanups and retries: orderly work never
      shows more processed than expected, in Redis, in a report or in the database; and what is expected is the chunks
      begun since the last cleanup, each counted once. */
  lemma NeverAhead(s: State, acts: seq<Action>)
    requires Honest(s) && Matched(s) && Orderly(s.totals, s.processed, acts)
    ensures var t := After(s, acts);
            && Sum(t.processed) <= Sum(t.totals)
            && t.totals == BegunSince(s.totals, acts)
            && t.processed == FinishedSince(s.processed, acts)
            && Matched(t) && Honest(t)
  {
    MatchedIffOrderly(s, acts);
    MatchedAtEnd(s, acts);
    AlwaysHonest(s, acts);
    MatchedSums(After(s, acts));
    HashesAre(s, acts);
  }

  // ----- the database counters

  ghost predicate NotBelow(s: State, t: State) {
    s.dbProcessed <= t.dbProcessed && s.dbTotal <= t.dbTotal
  }

  /** No step of the run takes either counter down. */
  ghost predicate Rising(s: State, acts: seq<Action>) {
    acts == [] ||
    var front := acts[..|acts| - 1];
    Rising(s, front) && NotBelow(After(s, front), After(s, acts))
  }

  /** A step that cannot lose progress: a retry with nothing to zero, a copy put back that nothing has overtaken, or any
      other step at all. */
  predicate LosesNothing(s: State, a: Action) {
    match a
    case Zero => s.dbProcessed == s.dbTotal == 0
    case PutBack(c) => c in s.copies ==> s.dbProcessed <= c.processed && s.dbTotal <= c.total
    case _ => true
  }

  ghost predicate NeverLoses(s: State, acts: seq<Action>) {
    acts == [] ||
    var front := acts[..|acts| - 1];
    NeverLoses(s, front) && LosesNothing(After(s, front), acts[|acts| - 1])
  }

  lemma StepRises(s: State, a: Action)
    ensures NotBelow(s, Apply(s, a)) <==> LosesNothing(s, a)
  {
  }

  /** The counters go back exactly when sync-retry zeroes one that is not 0, or a rewrite of the metadata puts back a
      copy that a report has overtaken; cleanups and late or repeated reports never take them down. */
  lemma {:induction false} RisingIff(s: State, acts: seq<Action>)
    ensures Rising(s, acts) <==> NeverLoses(s, acts)
  {
    if acts != [] {
      var front := acts[..|acts| - 1];
      RisingIff(s, front);
      StepRises(After(s, front), acts[|acts| - 1]);
    }
  }

  /** Over a run without such a step they are monotone. */
  lemma {:induction false} DatabaseMonotone(s: State, acts: seq<Action>)
    requires NeverLoses(s, acts)
    ensures NotBelow(s, After(s, acts))
  {
    if acts != [] {
      var front := acts[..|acts| - 1];
      DatabaseMonotone(s, front);
      StepRises(After(s, front), acts[|acts| - 1]);
    }
  }

  /** What a transaction around the two statements would bring: a rewrite with nothing in between keeps the counters. */
  lemma RewriteAtOnceIsIdle(s: State)
    ensures Apply(Apply(s, Copy), PutBack(Counters(s))) == s
  {
    assert s.copies + multiset{Counters(s)} - multiset{Counters(s)} == s.copies;
  }

  /** What happens without one: a report written in between that raises a counter is lost. */
  lemma OvertakenRewriteLoses(s: State, r: Report)
    requires r in s.reports && (r.processed > s.dbProcessed || r.total > s.dbTotal)
    ensures var raised := Apply(Apply(s, Copy), Write(r));
            var t := Apply(raised, PutBack(Counters(s)));
            Counters(t) == Counters(s) && !NotBelow(raised, t)
  {
    assert Counters(s) in Apply(s, Copy).copies;
  }

  /** A retried chunk moves neither sum, in whatever stretch. */
  lemma RetryIsIdle(s: State, acts: seq<Action>, k: ChunkKey)
    requires Matched(s) && Orderly(s.totals, s.processed, acts) && k in BegunSince(s.totals, acts)
    ensures var t := After(s, acts);
            && Apply(t, Begin(k, BegunSince(s.totals, acts)[k])).totals == t.totals
            && (k in t.processed ==> Apply(t, Finish(k, BegunSince(s.totals, acts)[k])).processed == t.processed)
  {
    MatchedIffOrderly(s, acts);
    MatchedAtEnd(s, acts);
    HashesAre(s, acts);
  }

  /** A chunk begun before a cleanup and finished after it is ahead of an empty total. */
  lemma CleanupOvertakes(s: State, k: ChunkKey)
    requires k in s.totals && s.totals[k] > 0
    ensures var t := After(s, [Cleanup, Finish(k, s.totals[k])]);
            Sum(t.processed) == s.totals[k] > Sum(t.totals)
  {
    var p: map<ChunkKey, nat> := map[k := s.totals[k]];
    SumSplits(p, k);
    assert p - {k} == map[];
    var acts := [Cleanup, Finish(k, s.totals[k])];
    assert acts[..1] == [Cleanup] && [Cleanup][..0] == [];
    assert After(s, [Cleanup]) == Apply(After(s, []), Cleanup);
    assert After(s, acts).processed == p;
  }
}
