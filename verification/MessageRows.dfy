/** What is stored of each message, over every history of events. */
module MessageRows {
  import opened MessageStore
  import opened Unread

  // ----- one event

  /** A row that was there and still is: an upsert of its key rewrites the body, a merge of its chat moves it, and
      nothing else touches it. */
  function Carried(before: Store, e: Event, k: Key, r: Row): Row {
    match e
    case Live(entry) => if entry.key == k then Row(r.chatId, r.fromMe, entry.row.body) else r
    case Merge(from, into) =>
      if from in before.chats && into in before.chats && from != into && r.chatId == from
      then Row(into, r.fromMe, r.body) else r
    case _ => r
  }

  lemma RowMoves(st: Store, e: Event, k: Key)
    requires k in st.messages && k in Apply(st, e).messages
    ensures Apply(st, e).messages[k] == Carried(st, e, k, st.messages[k])
  {
    if e.History? { ImportKeeps(st, e.list, 0, e.fails); }
  }

  /** A message goes only with its chat. */
  lemma GoesIff(st: Store, e: Event, k: Key)
    requires k in st.messages
    ensures k !in Apply(st, e).messages <==> e.Remove? && e.chat == st.messages[k].chatId
  {
    if e.History? { ImportKeeps(st, e.list, 0, e.fails); }
  }

  lemma {:induction false} InsertAllFrom(m: Messages, list: seq<Entry>, k: Key)
    requires k in InsertAll(m, list) && k !in m
    ensures Entry(k, InsertAll(m, list)[k]) in list
  {
    var front, e := list[..|list| - 1], list[|list| - 1];
    if k in InsertAll(m, front) {
      InsertAllFrom(m, front, k);
    } else {
      assert list[|list| - 1] == Entry(k, InsertAll(m, list)[k]);
    }
  }

  lemma {:induction false} ImportedFrom(st: Store, list: seq<Entry>, i: nat, fails: set<nat>, k: Key)
    requires k in Imported(st, list, i, fails).messages && k !in st.messages
    ensures Entry(k, Imported(st, list, i, fails).messages[k]) in list
    decreases |list| - i
  {
    if i < |list| {
      var batch := BatchAt(list, i);
      var next := if Breaks(st, batch, i, fails) then st else st.(messages := InsertAll(st.messages, batch));
      if k in next.messages {
        InsertAllFrom(st.messages, batch, k);
        ImportKeeps(next, list, i + BATCH_SIZE, fails);
      } else {
        ImportedFrom(next, list, i + BATCH_SIZE, fails, k);
      }
    }
  }

  /** A new message is stored as it came: live if its chat is there, or from a history import. */
  lemma NewRows(st: Store, e: Event, k: Key)
    requires k !in st.messages
    ensures k in Apply(st, e).messages ==>
              match e
              case Live(entry) => entry == Entry(k, Apply(st, e).messages[k]) && entry.row.chatId in st.chats
              case History(list, _) => Entry(k, Apply(st, e).messages[k]) in list
              case _ => false
    ensures e.Live? && e.entry.key == k && e.entry.row.chatId in st.chats ==> k in Apply(st, e).messages
  {
    if e.History? && k in Apply(st, e).messages { ImportedFrom(st, e.list, 0, e.fails, k); }
  }

  // ----- every history

  /** What the events tell of a message: the row it was there with, or came with last, carried through all events
      since. */
  ghost predicate Told(st: Store, events: seq<Event>, k: Key, row: Row) {
    if events == [] then k in st.messages && row == st.messages[k]
    else
      var front, e := events[..|events| - 1], events[|events| - 1];
      if k in After(st, front).messages then
        exists r :: Told(st, front, k, r) && row == Carried(After(st, front), e, k, r)
      else match e
        case Live(entry) => entry == Entry(k, row)
        case History(list, _) => Entry(k, row) in list
        case _ => false
  }

  lemma {:induction false} RowsAreTold(st: Store, events: seq<Event>, k: Key)
    requires k in After(st, events).messages
    ensures Told(st, events, k, After(st, events).messages[k])
  {
    if events != [] {
      var front, e := events[..|events| - 1], events[|events| - 1];
      var before := After(st, front);
      if k in before.messages {
        RowsAreTold(st, front, k);
        RowMoves(before, e, k);
      } else {
        NewRows(before, e, k);
      }
    }
  }

  /** The message is there after each of the events from the j-th on. */
  ghost predicate ThereSince(st: Store, events: seq<Event>, k: Key, j: nat) {
    |events| <= j ||
    (k in After(st, events).messages && ThereSince(st, events[..|events| - 1], k, j))
  }

  /** The body is that of the last live upsert since the message was last inserted -- or, if that upsert inserted it,
      the body it came with. */
  lemma {:induction false} BodyIsLast(st: Store, events: seq<Event>, k: Key, j: nat)
    requires j < |events| && events[j].Live? && events[j].entry.key == k && ThereSince(st, events, k, j)
    requires forall i | j < i < |events| :: !(events[i].Live? && events[i].entry.key == k)
    ensures k in After(st, events).messages && After(st, events).messages[k].body == events[j].entry.row.body
  {
    var front, e := events[..|events| - 1], events[|events| - 1];
    if j < |events| - 1 {
      BodyIsLast(st, front, k, j);
      RowMoves(After(st, front), e, k);
    } else if k in After(st, front).messages {
      RowMoves(After(st, front), e, k);
    } else {
      NewRows(After(st, front), e, k);
    }
  }

  /** Without a live upsert the body stays the one it came with, and in any case the sender flag does. */
  lemma {:induction false} SenderStays(st: Store, events: seq<Event>, k: Key)
    requires k in st.messages && ThereSince(st, events, k, 0)
    ensures k in After(st, events).messages && After(st, events).messages[k].fromMe == st.messages[k].fromMe
    ensures (forall i | 0 <= i < |events| :: !(events[i].Live? && events[i].entry.key == k)) ==>
              After(st, events).messages[k].body == st.messages[k].body
  {
    if events != [] {
      var front := events[..|events| - 1];
      SenderStays(st, front, k);
      RowMoves(After(st, front), events[|events| - 1], k);
    }
  }

  // ----- references

  ghost predicate Filed(st: Store) {
    forall k | k in st.messages :: st.messages[k].chatId in st.chats
  }

  lemma {:induction false} ImportStaysFiled(st: Store, list: seq<Entry>, i: nat, fails: set<nat>)
    requires Filed(st)
    ensures Filed(Imported(st, list, i, fails))
    decreases |list| - i
  {
    if i < |list| {
      var batch := BatchAt(list, i);
      if Breaks(st, batch, i, fails) {
        ImportStaysFiled(st, list, i + BATCH_SIZE, fails);
      } else {
        var next := st.(messages := InsertAll(st.messages, batch));
        InsertAllKeys(st.messages, batch);
        forall k | k in next.messages
          ensures next.messages[k].chatId in st.chats
        {
          if k !in st.messages { InsertAllFrom(st.messages, batch, k); }
        }
        ImportStaysFiled(next, list, i + BATCH_SIZE, fails);
      }
    }
  }

  /** Every message is in a chat that exists, after any history: a batch with a new row that has none is not imported.
      */
  lemma {:induction false} AlwaysFiled(st: Store, events: seq<Event>)
    requires Filed(st)
    ensures Filed(After(st, events))
  {
    if events != [] {
      var front, e := events[..|events| - 1], events[|events| - 1];
      AlwaysFiled(st, front);
      if e.History? { ImportStaysFiled(After(st, front), e.list, 0, e.fails); }
    }
  }

  // ----- the count, one event at a time

  /** What each event does to the unread count of one chat. */
  lemma CountAfter(st: Store, e: Event, c: ChatId)
    requires c in st.chats
    ensures var r := Apply(st, e);
            match e
            case Live(entry) =>
              c in r.chats && r.chats[c] ==
                if entry.row.chatId != c || entry.key in st.messages then st.chats[c]
                else if entry.row.fromMe then 0
                else st.chats[c] + 1
            case History(_, _) => c in r.chats && r.chats[c] == st.chats[c]
            case Read(chat) => c in r.chats && r.chats[c] == if chat == c then 0 else st.chats[c]
            case Write(chat, count) => c in r.chats && r.chats[c] == if chat == c then count else st.chats[c]
            case Remove(chat) => if chat == c then c !in r.chats else c in r.chats && r.chats[c] == st.chats[c]
            case Merge(from, into) =>
              if from == into || from !in st.chats || into !in st.chats then c in r.chats && r.chats[c] == st.chats[c]
              else if from == c then c !in r.chats
              else c in r.chats && r.chats[c] == st.chats[c] + if into == c then st.chats[from] else 0
  {
    if e.History? { ImportKeeps(st, e.list, 0, e.fails); }
  }
}
