/** What one merge keeps and what it changes, in terms of chats, contacts and messages under their JIDs. */
module ChatMerge {
  import opened Jids
  import opened ChatTables
  import opened Options

  /** What a chat list shows of a chat, apart from the preview text. */
  datatype Summary = Summary(unread: int, lastAt: Option<int>)

  function SummaryOf(c: Chat): Summary {
    Summary(c.unread, c.lastAt)
  }

  predicate Listed(chats: map<Id, Chat>, s: Session, jid: Jid, id: Id) {
    id in chats && chats[id].session == s && chats[id].waChatId == jid
  }

  ghost function JidsOf(chats: map<Id, Chat>, s: Session): set<Jid> {
    set id | id in chats && chats[id].session == s :: chats[id].waChatId
  }

  ghost function RowAt(chats: map<Id, Chat>, s: Session, j: Jid): (id: Id)
    requires j in JidsOf(chats, s)
    ensures Listed(chats, s, j, id)
  {
    var id :| id in chats && chats[id].session == s && chats[id].waChatId == j;
    id
  }

  /** The chats of one session by JID. */
  ghost function View(chats: map<Id, Chat>, s: Session): map<Jid, Summary> {
    map j | j in JidsOf(chats, s) :: SummaryOf(chats[RowAt(chats, s, j)])
  }

  ghost predicate IsView(chats: map<Id, Chat>, s: Session, v: map<Jid, Summary>) {
    && (forall id | id in chats && chats[id].session == s ::
          chats[id].waChatId in v && v[chats[id].waChatId] == SummaryOf(chats[id]))
    && (forall j | j in v :: exists id :: Listed(chats, s, j, id))
  }

  lemma ViewIs(sessions: map<Session, Org>, chats: map<Id, Chat>, s: Session)
    requires ValidChats(sessions, chats)
    ensures IsView(chats, s, View(chats, s))
  {
    forall j | j in View(chats, s)
      ensures exists id :: Listed(chats, s, j, id)
    {
      assert Listed(chats, s, j, RowAt(chats, s, j));
    }
  }

  lemma ViewUnique(chats: map<Id, Chat>, s: Session, v: map<Jid, Summary>, w: map<Jid, Summary>)
    requires IsView(chats, s, v) && IsView(chats, s, w)
    ensures v == w
  {
    forall j | j in v || j in w
      ensures j in v && j in w && v[j] == w[j]
    {
      var id :| Listed(chats, s, j, id);
    }
  }

  /** The JID a message is filed under. */
  function JidOf(st: Store, m: Id): Jid
    requires m in st.messages && st.messages[m].chatId in st.chats
  {
    st.chats[st.messages[m].chatId].waChatId
  }

  function Max(a: Option<int>, b: Option<int>): Option<int> {
    if a.None? then b
    else if b.None? then a
    else if a.value < b.value then b else a
  }

  function Plus(a: Summary, b: Summary): Summary {
    Summary(a.unread + b.unread, Max(a.lastAt, b.lastAt))
  }

  /** The merge as seen in the chat list. */
  function MergeView(v: map<Jid, Summary>, lid: Jid, phone: Jid): map<Jid, Summary> {
    if lid !in v then v
    else (v - {lid})[phone := if phone in v then Plus(v[phone], v[lid]) else v[lid]]
  }

  // ----- the statements of the transaction

  /** The conflict DELETE matches nothing: a message key is unique in its session, so it occurs in one chat only. */
  lemma NothingConflicts(sessions: map<Session, Org>, st: Store, org: Org, from: Id, into: Id)
    requires ValidStore(sessions, st) && from in st.chats && into in st.chats && from != into
    requires st.chats[from].session == st.chats[into].session
    ensures DeleteConflicting(st.messages, org, from, into) == st.messages
  {
  }

  /** What becomes of two chats of one session: every message survives, and the deleted row takes only its audit log
      along. */
  lemma JoinKeeps(sessions: map<Session, Org>, st: Store, org: Org, from: Id, into: Id)
    requires ValidStore(sessions, st) && from in st.chats && into in st.chats && from != into
    requires st.chats[from].session == st.chats[into].session && st.chats[from].org == org
    ensures var r := JoinChats(st, org, from, into);
            && r.chats == st.chats[into := JoinChat(st.chats[into], st.chats[from])] - {from}
            && r.messages == MoveMessages(st.messages, org, from, into)
            && r.readEvents == (map e | e in st.readEvents && st.readEvents[e] != from :: st.readEvents[e])
  {
    NothingConflicts(sessions, st, org, from, into);
    var moved := MoveMessages(st.messages, org, from, into);
    assert forall m | m in moved :: moved[m].chatId != from;
    assert JoinChats(st, org, from, into).messages == moved;
  }

  lemma JoinKeepsMessages(sessions: map<Session, Org>, st: Store, org: Org, from: Id, into: Id, chats: map<Id, Chat>)
    requires ValidStore(sessions, st) && from in st.chats && into in st.chats && from != into
    requires st.chats[from].session == st.chats[into].session && st.chats[from].org == st.chats[into].org == org
    requires chats == st.chats[into := JoinChat(st.chats[into], st.chats[from])] - {from}
    ensures ValidChats(sessions, chats)
    ensures ValidMessages(chats, MoveMessages(st.messages, org, from, into))
  {
    assert forall c | c in chats :: c in st.chats && chats[c].session == st.chats[c].session
                                    && chats[c].org == st.chats[c].org && chats[c].waChatId == st.chats[c].waChatId;
    MovedStayUnique(st.messages, org, from, into);
    var moved := MoveMessages(st.messages, org, from, into);
    forall m | m in moved
      ensures moved[m].chatId in chats
      ensures moved[m].session == chats[moved[m].chatId].session && moved[m].org == chats[moved[m].chatId].org
    {
      assert m in st.messages && st.messages[m].chatId in st.chats;
    }
  }

  lemma MovedStayUnique(messages: map<Id, Message>, org: Org, from: Id, into: Id)
    requires forall a, b | a in messages && b in messages && messages[a].session == messages[b].session &&
               messages[a].waMessageId == messages[b].waMessageId :: a == b
    ensures var moved := MoveMessages(messages, org, from, into);
            forall a, b | a in moved && b in moved && moved[a].session == moved[b].session &&
              moved[a].waMessageId == moved[b].waMessageId :: a == b
  {
    var moved := MoveMessages(messages, org, from, into);
    assert forall m | m in moved :: moved[m].session == messages[m].session
                                    && moved[m].waMessageId == messages[m].waMessageId;
  }

  // ----- one merge

  lemma ContactsKeepValid(sessions: map<Session, Org>, contacts: Contacts, s: Session, lid: Jid, phone: Jid)
    requires ValidContacts(sessions, contacts) && s in sessions
    ensures ValidContacts(sessions, MergeContacts(contacts, sessions[s], s, lid, phone))
  {
    var r := MergeContacts(contacts, sessions[s], s, lid, phone);
    assert forall c | c in r :: c in contacts && r[c].session == contacts[c].session && r[c].org == contacts[c].org;
    forall a, b | a in r && b in r && r[a].session == r[b].session && r[a].waId == r[b].waId
      ensures a == b
    {
      assert FindContact(contacts, sessions[s], s, phone).None? ==>
          !IsContact(contacts, a, sessions[s], s, phone) && !IsContact(contacts, b, sessions[s], s, phone);
    }
  }

  lemma ChatsKeepValid(sessions: map<Session, Org>, st: Store, s: Session, lid: Jid, phone: Jid)
    requires ValidStore(sessions, st) && lid != phone && s in sessions
    ensures ValidStore(sessions, MergeChats(st, sessions[s], s, lid, phone))
  {
    var org := sessions[s];
    var from, into := FindChat(st.chats, org, s, lid), FindChat(st.chats, org, s, phone);
    if from.Some? && into.Some? {
      var chats := st.chats[into.value := JoinChat(st.chats[into.value], st.chats[from.value])] - {from.value};
      JoinKeeps(sessions, st, org, from.value, into.value);
      JoinKeepsMessages(sessions, st, org, from.value, into.value, chats);
    } else if from.Some? {
      var r := MergeChats(st, org, s, lid, phone);
      forall c | c in st.chats && st.chats[c].session == s
        ensures st.chats[c].waChatId != phone
      {
        assert !IsChat(st.chats, c, org, s, phone);
      }
    }
  }

  /** All unique keys and references survive a merge. */
  lemma MergeKeepsValid(db: Db, s: Session, lid: Jid, phone: Jid)
    requires Valid(db) && lid != phone
    ensures Valid(Merge(db, s, lid, phone))
  {
    if s in db.sessions {
      ContactsKeepValid(db.sessions, db.contacts, s, lid, phone);
      ChatsKeepValid(db.sessions, db.store, s, lid, phone);
    }
  }

  lemma RowsFollow(sessions: map<Session, Org>, st: Store, s: Session, lid: Jid, phone: Jid, m: Id)
    requires ValidStore(sessions, st) && lid != phone && s in sessions && m in st.messages
    ensures var r := MergeChats(st, sessions[s], s, lid, phone);
            && m in r.messages && r.messages[m].chatId in r.chats
            && r.messages[m] == st.messages[m].(chatId := r.messages[m].chatId)
            && JidOf(r, m) == (if st.messages[m].session == s && JidOf(st, m) == lid then phone else JidOf(st, m))
  {
    var org := sessions[s];
    var from, into := FindChat(st.chats, org, s, lid), FindChat(st.chats, org, s, phone);
    if from.Some? && into.Some? { JoinKeeps(sessions, st, org, from.value, into.value); }
    assert st.messages[m].session == s && JidOf(st, m) == lid ==> IsChat(st.chats, st.messages[m].chatId, org, s, lid);
  }

  lemma NoNewRows(sessions: map<Session, Org>, st: Store, s: Session, lid: Jid, phone: Jid)
    requires ValidStore(sessions, st) && lid != phone && s in sessions
    ensures MergeChats(st, sessions[s], s, lid, phone).messages.Keys == st.messages.Keys
  {
    var org := sessions[s];
    var from, into := FindChat(st.chats, org, s, lid), FindChat(st.chats, org, s, phone);
    if from.Some? && into.Some? { JoinKeeps(sessions, st, org, from.value, into.value); }
  }

  /** No message is lost or altered; those filed under the LID move to the phone JID, all others stay. */
  lemma MessagesFollow(db: Db, s: Session, lid: Jid, phone: Jid)
    requires Valid(db) && lid != phone && s in db.sessions
    ensures var r, st := Merge(db, s, lid, phone).store, db.store;
            && r.messages.Keys == st.messages.Keys
            && forall m | m in st.messages ::
                 && r.messages[m].chatId in r.chats
                 && r.messages[m] == st.messages[m].(chatId := r.messages[m].chatId)
                 && JidOf(r, m) == (if st.messages[m].session == s && JidOf(st, m) == lid then phone else JidOf(st, m))
  {
    NoNewRows(db.sessions, db.store, s, lid, phone);
    forall m | m in db.store.messages
      ensures var r, st := Merge(db, s, lid, phone).store, db.store;
              && r.messages[m].chatId in r.chats
              && r.messages[m] == st.messages[m].(chatId := r.messages[m].chatId)
              && JidOf(r, m) == (if st.messages[m].session == s && JidOf(st, m) == lid then phone else JidOf(st, m))
    {
      RowsFollow(db.sessions, db.store, s, lid, phone, m);
    }
  }

  // ----- the chat list

  lemma ListJoins(chats: map<Id, Chat>, r: map<Id, Chat>, s: Session, from: Id, into: Id, v: map<Jid, Summary>)
    requires IsView(chats, s, v) && from != into
    requires from in chats && into in chats && chats[from].session == chats[into].session == s
    requires forall a | a in chats && chats[a].session == s ::
               chats[a].waChatId in {chats[from].waChatId, chats[into].waChatId} ==> a in {from, into}
    requires chats[from].waChatId != chats[into].waChatId
    requires r == chats[into := JoinChat(chats[into], chats[from])] - {from}
    ensures IsView(r, s, MergeView(v, chats[from].waChatId, chats[into].waChatId))
  {
    var w := MergeView(v, chats[from].waChatId, chats[into].waChatId);
    forall j | j in w
      ensures exists id :: Listed(r, s, j, id)
    {
      if j == chats[into].waChatId {
        assert Listed(r, s, j, into);
      } else {
        var id :| Listed(chats, s, j, id);
        assert Listed(r, s, j, id);
      }
    }
  }

  lemma ListRenames(chats: map<Id, Chat>, r: map<Id, Chat>, s: Session, from: Id, phone: Jid, v: map<Jid, Summary>)
    requires IsView(chats, s, v) && from in chats && chats[from].session == s
    requires forall a | a in chats && chats[a].session == s :: chats[a].waChatId == chats[from].waChatId ==> a == from
    requires phone !in v && phone != chats[from].waChatId
    requires r == chats[from := chats[from].(waChatId := phone)]
    ensures IsView(r, s, MergeView(v, chats[from].waChatId, phone))
  {
    var w := MergeView(v, chats[from].waChatId, phone);
    forall j | j in w
      ensures exists id :: Listed(r, s, j, id)
    {
      if j == phone {
        assert Listed(r, s, j, from);
      } else {
        var id :| Listed(chats, s, j, id);
        assert Listed(r, s, j, id);
      }
    }
  }

  lemma FoundInList(sessions: map<Session, Org>, chats: map<Id, Chat>, s: Session, jid: Jid, v: map<Jid, Summary>)
    requires ValidChats(sessions, chats) && s in sessions && IsView(chats, s, v)
    ensures FindChat(chats, sessions[s], s, jid).Some? <==> jid in v
  {
    if jid in v {
      var id :| Listed(chats, s, jid, id);
      assert IsChat(chats, id, sessions[s], s, jid);
    }
  }

  /** The chat list afterwards: the phone chat carries the sum of the unread counts and the later of the two times. */
  lemma ListMerges(db: Db, s: Session, lid: Jid, phone: Jid)
    requires Valid(db) && lid != phone && s in db.sessions
    ensures View(Merge(db, s, lid, phone).store.chats, s) == MergeView(View(db.store.chats, s), lid, phone)
  {
    var org, chats := db.sessions[s], db.store.chats;
    var v, r := View(chats, s), MergeChats(db.store, org, s, lid, phone).chats;
    ChatsKeepValid(db.sessions, db.store, s, lid, phone);
    ViewIs(db.sessions, chats, s);
    ViewIs(db.sessions, r, s);
    FoundInList(db.sessions, chats, s, lid, v);
    FoundInList(db.sessions, chats, s, phone, v);
    var from, into := FindChat(chats, org, s, lid), FindChat(chats, org, s, phone);
    if from.Some? && into.Some? {
      JoinKeeps(db.sessions, db.store, org, from.value, into.value);
      ListJoins(chats, r, s, from.value, into.value, v);
    } else if from.Some? {
      ListRenames(chats, r, s, from.value, phone, v);
    }
    ViewUnique(r, s, View(r, s), MergeView(v, lid, phone));
  }

  // ----- what is left behind

  ghost predicate NoChat(st: Store, s: Session, jid: Jid) {
    forall id | id in st.chats && st.chats[id].session == s :: st.chats[id].waChatId != jid
  }

  ghost predicate NoContact(contacts: Contacts, s: Session, jid: Jid) {
    forall id | id in contacts && contacts[id].session == s :: contacts[id].waId != jid
  }

  ghost predicate Gone(db: Db, s: Session, jid: Jid) {
    NoChat(db.store, s, jid) && NoContact(db.contacts, s, jid)
  }

  lemma ContactIsGone(sessions: map<Session, Org>, contacts: Contacts, s: Session, lid: Jid, phone: Jid)
    requires ValidContacts(sessions, contacts) && lid != phone && s in sessions
    ensures var r := MergeContacts(contacts, sessions[s], s, lid, phone);
            && NoContact(r, s, lid)
            && (forall j | NoContact(contacts, s, j) && j != phone :: NoContact(r, s, j))
            && (forall id | id in contacts && contacts[id].session != s :: id in r && r[id] == contacts[id])
  {
    var here := FindContact(contacts, sessions[s], s, lid);
    forall id | id in contacts && contacts[id].session == s && contacts[id].waId == lid
      ensures here == Some(id)
    {
      assert IsContact(contacts, id, sessions[s], s, lid);
    }
  }

  lemma ChatIsGone(sessions: map<Session, Org>, st: Store, s: Session, lid: Jid, phone: Jid)
    requires ValidStore(sessions, st) && lid != phone && s in sessions
    ensures var r := MergeChats(st, sessions[s], s, lid, phone);
            && NoChat(r, s, lid)
            && (forall j | NoChat(st, s, j) && j != phone :: NoChat(r, s, j))
            && (forall id | id in st.chats && st.chats[id].session != s :: id in r.chats && r.chats[id] == st.chats[id])
  {
    var org := sessions[s];
    var from, into := FindChat(st.chats, org, s, lid), FindChat(st.chats, org, s, phone);
    forall id | id in st.chats && st.chats[id].session == s && st.chats[id].waChatId == lid
      ensures from == Some(id)
    {
      assert IsChat(st.chats, id, org, s, lid);
    }
    if from.Some? && into.Some? { JoinKeeps(sessions, st, org, from.value, into.value); }
  }

  /** Nothing of the session is left under the LID, no other JID reappears, and no other session is touched. */
  lemma LidIsGone(db: Db, s: Session, lid: Jid, phone: Jid)
    requires Valid(db) && lid != phone && s in db.sessions
    ensures var r := Merge(db, s, lid, phone);
            && Gone(r, s, lid)
            && (forall j | Gone(db, s, j) && j != phone :: Gone(r, s, j))
            && (forall id | id in db.store.chats && db.store.chats[id].session != s ::
                  id in r.store.chats && r.store.chats[id] == db.store.chats[id])
            && (forall id | id in db.contacts && db.contacts[id].session != s ::
                  id in r.contacts && r.contacts[id] == db.contacts[id])
  {
    ContactIsGone(db.sessions, db.contacts, s, lid, phone);
    ChatIsGone(db.sessions, db.store, s, lid, phone);
  }

  /** With nothing under the LID a merge changes nothing at all. */
  lemma MergeAbsent(db: Db, s: Session, lid: Jid, phone: Jid)
    requires Gone(db, s, lid)
    ensures Merge(db, s, lid, phone) == db
  {
    if s in db.sessions {
      var org := db.sessions[s];
      assert FindChat(db.store.chats, org, s, lid).None? && FindContact(db.contacts, org, s, lid).None?;
    }
  }

  /** The phone contact keeps each field it has and takes from the LID contact each field it lacks. */
  lemma ContactFieldsKept(db: Db, s: Session, lid: Jid, phone: Jid, l: Id, p: Id)
    requires Valid(db) && lid != phone && s in db.sessions
    requires IsContact(db.contacts, p, db.sessions[s], s, phone) && IsContact(db.contacts, l, db.sessions[s], s, lid)
    ensures var r := Merge(db, s, lid, phone).contacts;
            && p in r && l !in r && r[p].waId == phone
            && Kept(r[p].pushName, db.contacts[p].pushName, db.contacts[l].pushName)
            && Kept(r[p].displayName, db.contacts[p].displayName, db.contacts[l].displayName)
            && Kept(r[p].avatarUrl, db.contacts[p].avatarUrl, db.contacts[l].avatarUrl)
  {
    var org := db.sessions[s];
    assert FindContact(db.contacts, org, s, lid) == Some(l) && FindContact(db.contacts, org, s, phone) == Some(p);
  }

  predicate Kept(now: Option<string>, own: Option<string>, lids: Option<string>) {
    && (Present(own) ==> now == own)
    && (!Present(own) && Present(lids) ==> now == lids)
    && (!Present(own) && !Present(lids) ==> !Present(now))
  }

  // ----- messages that arrive while the transaction runs

  /** The same statements with messages inserted by others after the UPDATE that moves and before the DELETE. */
  ghost function JoinChatsDuring(st: Store, org: Org, from: Id, into: Id, arrivals: map<Id, Message>): Store
    requires from in st.chats && into in st.chats
  {
    var joined := JoinChat(st.chats[into], st.chats[from]);
    var moved := MoveMessages(DeleteConflicting(st.messages, org, from, into), org, from, into);
    DeleteChat(Store(st.chats[into := joined], moved + arrivals, st.readEvents), from)
  }

  /** The messages that were there all survive; of those that arrive in between exactly the ones filed under the LID
      chat are lost with its row. */
  lemma ArrivalIsLostIff(
    sessions: map<Session, Org>, st: Store, org: Org, from: Id, into: Id, arrivals: map<Id, Message>, m: Id)
    requires ValidStore(sessions, st) && from in st.chats && into in st.chats && from != into
    requires st.chats[from].session == st.chats[into].session && st.chats[from].org == org
    requires arrivals.Keys !! st.messages.Keys
    ensures var r := JoinChatsDuring(st, org, from, into, arrivals);
            && (m in st.messages ==> m in r.messages)
            && (m in arrivals ==> (m !in r.messages <==> arrivals[m].chatId == from))
  {
    NothingConflicts(sessions, st, org, from, into);
    assert m in st.messages ==> MoveMessages(st.messages, org, from, into)[m].chatId != from;
  }

  // ----- why the save guard is needed

  /** Merging a JID with itself deletes its chat with every message in it. */
  lemma SelfMergeDestroys(db: Db, s: Session, jid: Jid, m: Id)
    requires Valid(db) && s in db.sessions && m in db.store.messages
    requires db.store.messages[m].session == s && JidOf(db.store, m) == jid
    ensures m !in Merge(db, s, jid, jid).store.messages
  {
    var org, chats := db.sessions[s], db.store.chats;
    var home := db.store.messages[m].chatId;
    assert IsChat(chats, home, org, s, jid);
    assert FindChat(chats, org, s, jid) == Some(home);
    assert Conflicting(db.store.messages, org, m, home, home);
  }

  lemma EmptySelfMerge(db: Db, s: Session, jid: Jid)
    requires Valid(db) && s in db.sessions
    requires forall m | m in db.store.messages && db.store.messages[m].session == s :: JidOf(db.store, m) != jid
    ensures Merge(db, s, jid, jid).store.messages.Keys == db.store.messages.Keys
  {
    var org, st := db.sessions[s], db.store;
    var home := FindChat(st.chats, org, s, jid);
    if home.Some? {
      assert forall m | m in st.messages :: st.messages[m].chatId != home.value;
      assert DeleteConflicting(st.messages, org, home.value, home.value) == st.messages;
      assert MoveMessages(st.messages, org, home.value, home.value) == st.messages;
    }
  }

  /** A merge loses no message exactly if the JIDs differ or nothing is filed under them. */
  lemma LosesNothingIff(db: Db, s: Session, lid: Jid, phone: Jid)
    requires Valid(db) && s in db.sessions
    ensures Merge(db, s, lid, phone).store.messages.Keys == db.store.messages.Keys <==>
              lid != phone ||
              forall m | m in db.store.messages && db.store.messages[m].session == s :: JidOf(db.store, m) != lid
  {
    if lid != phone {
      MessagesFollow(db, s, lid, phone);
    } else if m :| m in db.store.messages && db.store.messages[m].session == s && JidOf(db.store, m) == lid {
      SelfMergeDestroys(db, s, lid, m);
    } else {
      EmptySelfMerge(db, s, lid);
    }
  }
}
