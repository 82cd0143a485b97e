/** The unread count of a chat over every history of events. */
module Unread {
  import opened MessageStore

  datatype Event =
    | Live(entry: Entry)                          // delivery or redelivery of a message
    | History(list: seq<Entry>, fails: set<nat>)
    | Read(chat: ChatId)
    | Write(chat: ChatId, count: int)             // upsertChat or updateChat sets the count, or the chat is created
    | Remove(chat: ChatId)                        // the chat's row goes, with its messages
    | Merge(from: ChatId, into: ChatId)           // the LID chat's messages and count go to the phone chat

  function Removed(st: Store, c: ChatId): Store {
    Store(map k | k in st.messages && st.messages[k].chatId != c :: st.messages[k], st.chats - {c})
  }

  predicate Joins(st: Store, from: ChatId, into: ChatId) {
    from in st.chats && into in st.chats && from != into
  }

  function Merged(st: Store, from: ChatId, into: ChatId): Store {
    if Joins(st, from, into) then
      Store(map k | k in st.messages ::
              if st.messages[k].chatId == from then st.messages[k].(chatId := into) else st.messages[k],
            st.chats[into := st.chats[into] + st.chats[from]] - {from})
    else st
  }

  function Apply(st: Store, e: Event): Store {
    match e
    case Live(entry) => Upserted(st, entry)
    case History(list, fails) => Imported(st, list, 0, fails)
    case Read(chat) => MarkedRead(st, chat)
    case Write(chat, count) => st.(chats := st.chats[chat := count])
    case Remove(chat) => Removed(st, chat)
    case Merge(from, into) => Merged(st, from, into)
  }

  function After(st: Store, events: seq<Event>): Store {
    if events == [] then st else Apply(After(st, events[..|events| - 1]), events[|events| - 1])
  }

  // ----- the reference: counting events

  /** The event brings a message for the first time, and live. */
  predicate IsFirst(before: Store, e: Event) {
    e.Live? && e.entry.row.chatId in before.chats && e.entry.key !in before.messages
  }

  /** After the event the count of the chat no longer depends on what came before: it was marked as read, answered,
      written over, removed or merged away. */
  predicate Settles(before: Store, e: Event, c: ChatId) {
    match e
    case Live(entry) => IsFirst(before, e) && entry.row.chatId == c && entry.row.fromMe
    case History(_, _) => false
    case Read(chat) => chat == c
    case Write(chat, _) => chat == c
    case Remove(chat) => chat == c
    case Merge(from, into) => from == c && Joins(before, from, into)
  }

  predicate FirstLive(st: Store, events: seq<Event>, k: nat)
    requires k < |events|
  {
    IsFirst(After(st, events[..k]), events[k])
  }

  predicate Clears(st: Store, events: seq<Event>, k: nat, c: ChatId)
    requires k < |events|
  {
    Settles(After(st, events[..k]), events[k], c)
  }

  predicate Waiting(st: Store, events: seq<Event>, k: nat, c: ChatId)
    requires k < |events|
  {
    && FirstLive(st, events, k) && events[k].entry.row.chatId == c && !events[k].entry.row.fromMe
    && forall j | k < j < |events| :: !Clears(st, events, j, c)
  }

  /** The inbound messages first inserted live since the count was last settled. */
  function WaitingKeys(st: Store, events: seq<Event>, c: ChatId): set<Key> {
    set k | 0 <= k < |events| && Waiting(st, events, k, c) :: events[k].entry.key
  }

  /** What the count was settled at -- the initial one, the last one written, or nothing -- and the counts of the chats
      merged in since. */
  function Base(st: Store, events: seq<Event>, c: ChatId): int {
    if events == [] then
      if c in st.chats then st.chats[c] else 0
    else
      var front, e := events[..|events| - 1], events[|events| - 1];
      var before := After(st, front);
      if Settles(before, e, c) then
        if e.Write? then e.count else 0
      else if e.Merge? && e.into == c && Joins(before, e.from, c) then
        Base(st, front, c) + before.chats[e.from]
      else Base(st, front, c)
  }

  // ----- the proof

  lemma {:induction false} ImportKeeps(st: Store, list: seq<Entry>, i: nat, fails: set<nat>)
    ensures Imported(st, list, i, fails).chats == st.chats
    ensures forall k | k in st.messages :: k in Imported(st, list, i, fails).messages
                                           && Imported(st, list, i, fails).messages[k] == st.messages[k]
    decreases |list| - i
  {
    if i < |list| {
      var batch := BatchAt(list, i);
      InsertAllKeys(st.messages, batch);
      ImportKeeps(if Breaks(st, batch, i, fails) then st else st.(messages := InsertAll(st.messages, batch)),
                  list, i + BATCH_SIZE, fails);
    }
  }

  lemma PrefixAgrees(st: Store, events: seq<Event>, e: Event, k: nat, c: ChatId)
    requires k < |events|
    ensures FirstLive(st, events + [e], k) <==> FirstLive(st, events, k)
    ensures Clears(st, events + [e], k, c) <==> Clears(st, events, k, c)
  {
    assert (events + [e])[..k] == events[..k];
  }

  /** One more event: a settling one empties the set, a new inbound message joins it, anything else leaves it. */
  lemma WaitingGrows(st: Store, events: seq<Event>, e: Event, c: ChatId)
    ensures var more, before := events + [e], After(st, events);
            WaitingKeys(st, more, c) ==
              if Settles(before, e, c) then {}
              else if IsFirst(before, e) && e.entry.row.chatId == c then WaitingKeys(st, events, c) + {e.entry.key}
              else WaitingKeys(st, events, c)
  {
    var more, n := events + [e], |events|;
    assert more[..n] == events && more[n] == e;
    forall k | 0 <= k < n
      ensures Waiting(st, more, k, c) <==> Waiting(st, events, k, c) && !Clears(st, more, n, c)
    {
      PrefixAgrees(st, events, e, k, c);
      forall j | k < j < n
        ensures Clears(st, more, j, c) <==> Clears(st, events, j, c)
      {
        PrefixAgrees(st, events, e, j, c);
      }
    }
    assert forall k | 0 <= k < n :: more[k] == events[k];
    var w, v := WaitingKeys(st, events, c), WaitingKeys(st, more, c);
    if !Clears(st, more, n, c) {
      forall x | x in w
        ensures x in v
      {
        var k :| 0 <= k < n && Waiting(st, events, k, c) && events[k].entry.key == x;
        assert Waiting(st, more, k, c) && more[k].entry.key == x;
      }
      if Waiting(st, more, n, c) { assert more[n].entry.key in v; }
    }
  }

  /** A message stays where it is until its chat is settled. */
  lemma StaysFiled(st: Store, e: Event, c: ChatId, x: Key)
    requires x in st.messages && st.messages[x].chatId == c && !Settles(st, e, c)
    ensures x in Apply(st, e).messages && Apply(st, e).messages[x].chatId == c
  {
    if e.History? { ImportKeeps(st, e.list, 0, e.fails); }
  }

  lemma {:induction false} WaitingFiled(st: Store, events: seq<Event>, c: ChatId)
    ensures forall x | x in WaitingKeys(st, events, c) ::
              x in After(st, events).messages && After(st, events).messages[x].chatId == c
  {
    if events != [] {
      var front, e := events[..|events| - 1], events[|events| - 1];
      assert events == front + [e];
      WaitingFiled(st, front, c);
      WaitingGrows(st, front, e, c);
      forall x | x in WaitingKeys(st, events, c)
        ensures x in After(st, events).messages && After(st, events).messages[x].chatId == c
      {
        if x in WaitingKeys(st, front, c) { StaysFiled(After(st, front), e, c, x); }
      }
    }
  }

  /** What one event does to the unread count of one chat. */
  lemma CountMoves(st: Store, e: Event, c: ChatId)
    requires c in Apply(st, e).chats
    ensures if Settles(st, e, c) then Apply(st, e).chats[c] == if e.Write? then e.count else 0
            else
              && c in st.chats
              && Apply(st, e).chats[c] == st.chats[c] +
                   if IsFirst(st, e) && e.entry.row.chatId == c then 1
                   else if e.Merge? && e.into == c && Joins(st, e.from, c) then st.chats[e.from]
                   else 0
  {
    if e.History? { ImportKeeps(st, e.list, 0, e.fails); }
  }

  /** Whatever is written, removed or merged in between: the unread count of every chat is what it was last settled at,
      with the counts of the chats merged into it since, and the number of distinct inbound messages first inserted live
      since then; redeliveries and history imports do not count. */
  lemma {:induction false} UnreadIsExact(st: Store, events: seq<Event>, c: ChatId)
    requires c in After(st, events).chats
    ensures After(st, events).chats[c] == Base(st, events, c) + |WaitingKeys(st, events, c)|
  {
    if events == [] {
      assert WaitingKeys(st, events, c) == {};
    } else {
      var front, e := events[..|events| - 1], events[|events| - 1];
      assert events == front + [e];
      WaitingGrows(st, front, e, c);
      WaitingFiled(st, front, c);
      CountMoves(After(st, front), e, c);
      if !Settles(After(st, front), e, c) {
        UnreadIsExact(st, front, c);
      }
    }
  }

  /** Live messages, imports and marks as read alone. */
  predicate Plain(events: seq<Event>) {
    forall k | 0 <= k < |events| :: events[k].Live? || events[k].History? || events[k].Read?
  }

  /** With those alone and nothing unread at the start, the count is the number of distinct inbound messages first
      inserted live since the last outbound live insert or mark-as-read. */
  lemma UnreadIsWaiting(st: Store, events: seq<Event>, c: ChatId)
    requires Plain(events) && c in st.chats && st.chats[c] == 0
    ensures c in After(st, events).chats && After(st, events).chats[c] == |WaitingKeys(st, events, c)|
  {
    PlainBase(st, events, c);
    UnreadIsExact(st, events, c);
  }

  lemma {:induction false} PlainBase(st: Store, events: seq<Event>, c: ChatId)
    requires Plain(events) && c in st.chats && st.chats[c] == 0
    ensures c in After(st, events).chats && Base(st, events, c) == 0
  {
    if events != [] {
      var front, e := events[..|events| - 1], events[|events| - 1];
      PlainBase(st, front, c);
      if e.History? { ImportKeeps(After(st, front), e.list, 0, e.fails); }
    }
  }

  /** Right after a merge the count is the sum over both chats: what each was settled at and what was waiting in each,
      no message counted twice. */
  lemma MergeAddsUp(st: Store, events: seq<Event>, from: ChatId, into: ChatId)
    requires Joins(After(st, events), from, into)
    ensures var r := After(st, events + [Merge(from, into)]);
            && from !in r.chats && into in r.chats
            && r.chats[into] == Base(st, events, from) + Base(st, events, into)
                                + |WaitingKeys(st, events, from) + WaitingKeys(st, events, into)|
  {
    assert (events + [Merge(from, into)])[..|events|] == events;
    UnreadIsExact(st, events, from);
    UnreadIsExact(st, events, into);
    WaitingFiled(st, events, from);
    WaitingFiled(st, events, into);
    assert WaitingKeys(st, events, from) !! WaitingKeys(st, events, into);
  }
}
