/** Live and bulk insertion of messages, and the trigger that keeps each chat's unread count. */
module MessageStore {
  type Session = nat
  type ChatId = nat
  type Key = (Session, string)      // unique: session and WhatsApp message id

  /** `body` stands for the columns an upsert may rewrite. */
  datatype Row = Row(chatId: ChatId, fromMe: bool, body: string)

  datatype Entry = Entry(key: Key, row: Row)

  type Messages = map<Key, Row>

  /** `chats` holds the unread counts. */
  datatype Store = Store(messages: Messages, chats: map<ChatId, int>)

  const BATCH_SIZE := 100

  // ----- single statements

  /** The trigger on_new_message. */
  function Notified(chats: map<ChatId, int>, row: Row): map<ChatId, int> {
    if row.chatId in chats then chats[row.chatId := if row.fromMe then 0 else chats[row.chatId] + 1] else chats
  }

  /** INSERT ... ON CONFLICT DO UPDATE: the trigger fires for a new row only; a new row needs its chat. */
  function Upserted(st: Store, e: Entry): Store {
    if e.key in st.messages then
      st.(messages := st.messages[e.key := st.messages[e.key].(body := e.row.body)])
    else if e.row.chatId !in st.chats then st
    else Store(st.messages[e.key := e.row], Notified(st.chats, e.row))
  }

  /** INSERT ... ON CONFLICT DO NOTHING, row after row. */
  function InsertAll(m: Messages, list: seq<Entry>): Messages {
    if list == [] then m
    else
      var r := InsertAll(m, list[..|list| - 1]);
      var e := list[|list| - 1];
      if e.key in r then r else r[e.key := e.row]
  }

  function Keys(list: seq<Entry>): set<Key> {
    set e | e in list :: e.key
  }

  /** A batch breaks if the database fails or a row it would insert has no chat. */
  predicate Breaks(st: Store, batch: seq<Entry>, i: nat, fails: set<nat>) {
    i in fails || exists e | e in batch :: e.key !in st.messages && e.row.chatId !in st.chats
  }

  function BatchAt(list: seq<Entry>, i: nat): seq<Entry> {
    if i >= |list| then [] else if i + BATCH_SIZE < |list| then list[i..i + BATCH_SIZE] else list[i..]
  }

  /** The history import of the entries from `i` on; failed batches leave no trace. */
  function Imported(st: Store, list: seq<Entry>, i: nat, fails: set<nat>): Store
    decreases |list| - i
  {
    if i >= |list| then st
    else
      var batch := BatchAt(list, i);
      var next := if Breaks(st, batch, i, fails) then st else st.(messages := InsertAll(st.messages, batch));
      Imported(next, list, i + BATCH_SIZE, fails)
  }

  function MarkedRead(st: Store, c: ChatId): Store {
    if c in st.chats then st.(chats := st.chats[c := 0]) else st
  }

  class MessageService {
    var messages: Messages
    var chats: map<ChatId, int>

    ghost function Now(): Store
      reads this
    {
      Store(messages, chats)
    }

    method OnNewMessage(row: Row)
      modifies this`chats
      ensures chats == Notified(old(chats), row)
    {
      if row.chatId in chats {
        chats := chats[row.chatId := if row.fromMe then 0 else chats[row.chatId] + 1];
      }
    }

    method UpsertMessage(e: Entry) returns (stored: bool)
      modifies this
      ensures Now() == Upserted(old(Now()), e)
      ensures stored <==> e.key in messages
      ensures e.key in old(messages) ==>
                messages == old(messages)[e.key := old(messages[e.key]).(body := e.row.body)] && chats == old(chats)
      ensures e.key !in old(messages) && e.row.chatId in old(chats) ==> messages == old(messages)[e.key := e.row]
      ensures e.key !in old(messages) && e.row.chatId !in old(chats) ==> Now() == old(Now())
    {
      if e.key in messages {
        messages := messages[e.key := messages[e.key].(body := e.row.body)];
        return true;
      }
      if e.row.chatId !in chats { return false; }
      messages := messages[e.key := e.row];
      OnNewMessage(e.row);
      stored := true;
    }

    method MarkChatAsRead(c: ChatId)
      modifies this`chats
      ensures Now() == MarkedRead(old(Now()), c)
    {
      if c in chats { chats := chats[c := 0]; }
    }

    /** One transaction with the trigger switched off: all of the batch or nothing. */
    method InsertBatch(batch: seq<Entry>) returns (inserted: nat)
      modifies this`messages
      ensures messages == InsertAll(old(messages), batch)
      ensures inserted == |messages| - |old(messages)|
    {
      inserted := 0;
      for i := 0 to |batch|
        invariant messages == InsertAll(old(messages), batch[..i])
        invariant inserted == |messages| - |old(messages)|
      {
        assert batch[..i + 1][..i] == batch[..i];
        if batch[i].key !in messages {
          messages := messages[batch[i].key := batch[i].row];
          inserted := inserted + 1;
        }
      }
      assert batch[..|batch|] == batch;
    }

    method BulkInsert(list: seq<Entry>, fails: set<nat>) returns (inserted: nat, duplicates: int, errors: nat)
      modifies this`messages
      ensures Now() == Imported(old(Now()), list, 0, fails)
      ensures inserted + duplicates + errors == |list| && duplicates >= 0
      ensures inserted == |messages| - |old(messages)|
      ensures errors == Lost(old(Now()), list, 0, fails)
    {
      inserted, errors := 0, 0;
      var i: nat := 0;
      while i < |list|
        invariant inserted + errors <= if i < |list| then i else |list|
        invariant inserted == |messages| - |old(messages)|
        invariant Imported(Now(), list, i, fails) == Imported(old(Now()), list, 0, fails)
        invariant errors + Lost(Now(), list, i, fails) == Lost(old(Now()), list, 0, fails)
        decreases |list| - i
      {
        var batch := BatchAt(list, i);
        if Breaks(Store(messages, chats), batch, i, fails) {
          errors := errors + |batch|;
        } else {
          InsertAllSize(messages, batch);
          var n := InsertBatch(batch);
          inserted := inserted + n;
        }
        i := i + BATCH_SIZE;
      }
      duplicates := |list| - inserted - errors;
    }
  }

  /** Rows in the batches that broke. */
  function Lost(st: Store, list: seq<Entry>, i: nat, fails: set<nat>): nat
    decreases |list| - i
  {
    if i >= |list| then 0
    else
      var batch := BatchAt(list, i);
      if Breaks(st, batch, i, fails) then |batch| + Lost(st, list, i + BATCH_SIZE, fails)
      else Lost(st.(messages := InsertAll(st.messages, batch)), list, i + BATCH_SIZE, fails)
  }

  // ----- batches and the whole list

  lemma {:induction false} InsertAllKeys(m: Messages, list: seq<Entry>)
    ensures InsertAll(m, list).Keys == m.Keys + Keys(list)
    ensures forall k | k in m :: InsertAll(m, list)[k] == m[k]
  {
    if list != [] {
      var front, e := list[..|list| - 1], list[|list| - 1];
      InsertAllKeys(m, front);
      assert list == front + [e];
      assert Keys(list) == Keys(front) + {e.key};
    }
  }

  lemma {:induction false} InsertAllSize(m: Messages, list: seq<Entry>)
    ensures |m| <= |InsertAll(m, list)| <= |m| + |list|
  {
    if list != [] {
      InsertAllSize(m, list[..|list| - 1]);
    }
  }

  lemma {:induction false} InsertAllSplits(m: Messages, a: seq<Entry>, b: seq<Entry>)
    ensures InsertAll(m, a + b) == InsertAll(InsertAll(m, a), b)
  {
    if b == [] {
      assert a + b == a;
    } else {
      assert (a + b)[..|a + b| - 1] == a + b[..|b| - 1];
      InsertAllSplits(m, a, b[..|b| - 1]);
    }
  }

  /** Of several entries with one new key the first is kept. */
  lemma {:induction false} FirstWins(m: Messages, list: seq<Entry>, i: nat)
    requires i < |list| && list[i].key !in m && forall j | 0 <= j < i :: list[j].key != list[i].key
    ensures list[i].key in InsertAll(m, list) && InsertAll(m, list)[list[i].key] == list[i].row
    decreases |list|
  {
    var front := list[..|list| - 1];
    if i < |front| {
      FirstWins(m, front, i);
    } else {
      InsertAllKeys(m, front);
    }
  }

  /** The entries of the batches that did not fail, in order. */
  function Survivors(list: seq<Entry>, i: nat, fails: set<nat>): seq<Entry>
    decreases |list| - i
  {
    if i >= |list| then []
    else (if i in fails then [] else BatchAt(list, i)) + Survivors(list, i + BATCH_SIZE, fails)
  }

  lemma {:induction false} SurvivesIf(list: seq<Entry>, from: nat, fails: set<nat>, i: nat)
    requires from % BATCH_SIZE == 0 && from <= i < |list| && i - i % BATCH_SIZE !in fails
    ensures list[i] in Survivors(list, from, fails)
    decreases |list| - from
  {
    if i < from + BATCH_SIZE {
      SameBatch(from, i);
      assert BatchAt(list, from)[i - from] == list[i];
    } else {
      SurvivesIf(list, from + BATCH_SIZE, fails, i);
    }
  }

  lemma BatchPosition(list: seq<Entry>, from: nat, e: Entry) returns (i: nat)
    requires e in BatchAt(list, from)
    ensures from <= i < |list| && i < from + BATCH_SIZE && list[i] == e
  {
    var j :| 0 <= j < |BatchAt(list, from)| && BatchAt(list, from)[j] == e;
    i := from + j;
  }

  lemma {:induction false} SurvivorFrom(list: seq<Entry>, from: nat, fails: set<nat>, e: Entry) returns (i: nat)
    requires from % BATCH_SIZE == 0 && e in Survivors(list, from, fails)
    ensures from <= i < |list| && list[i] == e && i - i % BATCH_SIZE !in fails
    decreases |list| - from
  {
    if from !in fails && e in BatchAt(list, from) {
      i := BatchPosition(list, from, e);
      SameBatch(from, i);
    } else {
      i := SurvivorFrom(list, from + BATCH_SIZE, fails, e);
    }
  }

  /** The entries that survive are those at positions whose batch -- the one of entry i begins at i - i % 100 -- did not
      fail. */
  lemma SurvivorsAre(list: seq<Entry>, fails: set<nat>, e: Entry)
    ensures e in Survivors(list, 0, fails) <==>
              exists i :: 0 <= i < |list| && list[i] == e && i - i % 100 !in fails
  {
    if e in Survivors(list, 0, fails) {
      var i := SurvivorFrom(list, 0, fails, e);
      assert list[i] == e && i - i % 100 !in fails;
    }
    if i :| 0 <= i < |list| && list[i] == e && i - i % 100 !in fails {
      SurvivesIf(list, 0, fails, i);
    }
  }

  lemma SameBatch(from: nat, i: nat)
    requires from % BATCH_SIZE == 0 && from <= i
    ensures i < from + BATCH_SIZE ==> i - i % BATCH_SIZE == from
  {
  }

  lemma {:induction false} ImportIsOnePass(st: Store, list: seq<Entry>, i: nat, fails: set<nat>)
    requires forall e | e in list :: e.row.chatId in st.chats
    ensures Imported(st, list, i, fails) == st.(messages := InsertAll(st.messages, Survivors(list, i, fails)))
    ensures Lost(st, list, i, fails) + |Survivors(list, i, fails)| == if i < |list| then |list| - i else 0
    decreases |list| - i
  {
    if i < |list| {
      var batch, rest := BatchAt(list, i), Survivors(list, i + BATCH_SIZE, fails);
      if i in fails {
        ImportIsOnePass(st, list, i + BATCH_SIZE, fails);
        assert [] + rest == rest;
      } else {
        ImportIsOnePass(st.(messages := InsertAll(st.messages, batch)), list, i + BATCH_SIZE, fails);
        InsertAllSplits(st.messages, batch, rest);
      }
    }
  }

  lemma {:induction false} NoneFail(list: seq<Entry>, i: nat)
    requires i <= |list|
    ensures Survivors(list, i, {}) == list[i..]
    decreases |list| - i
  {
    if i + BATCH_SIZE < |list| {
      NoneFail(list, i + BATCH_SIZE);
      assert BatchAt(list, i) + list[i + BATCH_SIZE..] == list[i..];
    }
  }

  /** Batching does not show: where every chat exists the import is one insert-if-absent pass over the entries of the
      batches that did not fail -- over the whole list without failures -- and the rows added are the distinct keys
      that were not there. */
  lemma BatchedEqualsOneShot(st: Store, list: seq<Entry>, fails: set<nat>)
    requires forall e | e in list :: e.row.chatId in st.chats
    ensures Imported(st, list, 0, fails) == st.(messages := InsertAll(st.messages, Survivors(list, 0, fails)))
    ensures fails == {} ==> Survivors(list, 0, fails) == list && Lost(st, list, 0, fails) == 0
    ensures |Imported(st, list, 0, fails).messages| - |st.messages|
         == |Keys(Survivors(list, 0, fails)) - st.messages.Keys|
  {
    ImportIsOnePass(st, list, 0, fails);
    NoneFail(list, 0);
    Added(st.messages, Survivors(list, 0, fails));
  }

  lemma Added(m: Messages, list: seq<Entry>)
    ensures |InsertAll(m, list)| - |m| == |Keys(list) - m.Keys|
  {
    InsertAllKeys(m, list);
    var r := InsertAll(m, list);
    assert r.Keys == m.Keys + (Keys(list) - m.Keys);
    assert |r.Keys| == |m.Keys| + |Keys(list) - m.Keys|;
  }
}
