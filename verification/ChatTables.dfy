/** The tables behind a merge of a LID identity into its phone identity, and the merge itself,
    statement by statement. */
module ChatTables {
  import opened Jids
  import opened Options

  type Id = nat
  type Session = nat
  type Org = nat

  datatype Contact = Contact(
    org: Org, session: Session, waId: Jid,
    pushName: Option<string>, displayName: Option<string>, avatarUrl: Option<string>)

  datatype Chat = Chat(
    org: Org, session: Session, waChatId: Jid,
    unread: int, lastAt: Option<int>, preview: Option<string>)

  datatype Message = Message(org: Org, session: Session, chatId: Id, waMessageId: string)

  type Contacts = map<Id, Contact>

  /** Chats and the rows that refer to them; `readEvents` is the read audit log, event id to chat id. */
  datatype Store = Store(chats: map<Id, Chat>, messages: map<Id, Message>, readEvents: map<Id, Id>)

  datatype Db = Db(sessions: map<Session, Org>, contacts: Contacts, store: Store)

  // ----- schema: unique keys, foreign keys, rows agreeing on session and organization

  ghost predicate ValidContacts(sessions: map<Session, Org>, contacts: Contacts) {
    && (forall a, b | a in contacts && b in contacts && contacts[a].session == contacts[b].session &&
          contacts[a].waId == contacts[b].waId :: a == b)
    && (forall c | c in contacts :: contacts[c].session in sessions && contacts[c].org == sessions[contacts[c].session])
  }

  ghost predicate ValidChats(sessions: map<Session, Org>, chats: map<Id, Chat>) {
    && (forall a, b | a in chats && b in chats && chats[a].session == chats[b].session &&
          chats[a].waChatId == chats[b].waChatId :: a == b)
    && (forall c | c in chats :: chats[c].session in sessions && chats[c].org == sessions[chats[c].session])
  }

  ghost predicate ValidMessages(chats: map<Id, Chat>, messages: map<Id, Message>) {
    && (forall a, b | a in messages && b in messages && messages[a].session == messages[b].session &&
          messages[a].waMessageId == messages[b].waMessageId :: a == b)
    && (forall m | m in messages ::
          && messages[m].chatId in chats
          && messages[m].session == chats[messages[m].chatId].session
          && messages[m].org == chats[messages[m].chatId].org)
  }

  ghost predicate ValidStore(sessions: map<Session, Org>, st: Store) {
    && ValidChats(sessions, st.chats)
    && ValidMessages(st.chats, st.messages)
    && forall e | e in st.readEvents :: st.readEvents[e] in st.chats
  }

  ghost predicate Valid(db: Db) {
    ValidContacts(db.sessions, db.contacts) && ValidStore(db.sessions, db.store)
  }

  // ----- SELECT by unique key

  predicate IsContact(contacts: Contacts, id: Id, org: Org, s: Session, jid: Jid) {
    id in contacts && contacts[id].org == org && contacts[id].session == s && contacts[id].waId == jid
  }

  predicate IsChat(chats: map<Id, Chat>, id: Id, org: Org, s: Session, jid: Jid) {
    id in chats && chats[id].org == org && chats[id].session == s && chats[id].waChatId == jid
  }

  ghost function FindContact(contacts: Contacts, org: Org, s: Session, jid: Jid): (r: Option<Id>)
    ensures r.Some? ==> IsContact(contacts, r.value, org, s, jid)
    ensures r.None? ==> forall id :: !IsContact(contacts, id, org, s, jid)
  {
    if id :| IsContact(contacts, id, org, s, jid) then Some(id) else None
  }

  ghost function FindChat(chats: map<Id, Chat>, org: Org, s: Session, jid: Jid): (r: Option<Id>)
    ensures r.Some? ==> IsChat(chats, r.value, org, s, jid)
    ensures r.None? ==> forall id :: !IsChat(chats, id, org, s, jid)
  {
    if id :| IsChat(chats, id, org, s, jid) then Some(id) else None
  }

  // ----- the merge of two rows

  /** A JavaScript string that counts as present. */
  predicate Present(x: Option<string>) {
    x.Some? && x.value != ""
  }

  function Fill(x: Option<string>, y: Option<string>): Option<string> {
    if !Present(x) && Present(y) then y else x
  }

  function FillContact(phone: Contact, lid: Contact): Contact {
    phone.(pushName := Fill(phone.pushName, lid.pushName),
           displayName := Fill(phone.displayName, lid.displayName),
           avatarUrl := Fill(phone.avatarUrl, lid.avatarUrl))
  }

  predicate Later(lid: Option<int>, phone: Option<int>) {
    lid.Some? && (phone.None? || lid.value > phone.value)
  }

  function JoinChat(phone: Chat, lid: Chat): Chat {
    phone.(unread := phone.unread + lid.unread,
           lastAt := if Later(lid.lastAt, phone.lastAt) then lid.lastAt else phone.lastAt,
           preview := if Later(lid.lastAt, phone.lastAt) then lid.preview else phone.preview)
  }

  // ----- statements of the transaction

  /** A message of one chat whose key also occurs in the other. */
  ghost predicate Conflicting(messages: map<Id, Message>, org: Org, m: Id, from: Id, into: Id)
    requires m in messages
  {
    && messages[m].org == org && messages[m].chatId == from
    && exists k :: k in messages && messages[k].org == org && messages[k].chatId == into
                   && messages[k].waMessageId == messages[m].waMessageId
  }

  ghost function DeleteConflicting(messages: map<Id, Message>, org: Org, from: Id, into: Id): map<Id, Message> {
    map m | m in messages && !Conflicting(messages, org, m, from, into) :: messages[m]
  }

  function Moved(m: Message, org: Org, from: Id, into: Id): Message {
    if m.org == org && m.chatId == from then m.(chatId := into) else m
  }

  function MoveMessages(messages: map<Id, Message>, org: Org, from: Id, into: Id): map<Id, Message> {
    map m | m in messages :: Moved(messages[m], org, from, into)
  }

  /** DELETE of a chat row, with its ON DELETE CASCADE references. */
  function DeleteChat(st: Store, id: Id): Store {
    Store(st.chats - {id},
          map m | m in st.messages && st.messages[m].chatId != id :: st.messages[m],
          map e | e in st.readEvents && st.readEvents[e] != id :: st.readEvents[e])
  }

  ghost function MergeContacts(contacts: Contacts, org: Org, s: Session, lid: Jid, phone: Jid): Contacts {
    var from, into := FindContact(contacts, org, s, lid), FindContact(contacts, org, s, phone);
    if from.None? then contacts
    else if into.None? then contacts[from.value := contacts[from.value].(waId := phone)]
    else contacts[into.value := FillContact(contacts[into.value], contacts[from.value])] - {from.value}
  }

  ghost function JoinChats(st: Store, org: Org, from: Id, into: Id): Store
    requires from in st.chats && into in st.chats
  {
    var joined := JoinChat(st.chats[into], st.chats[from]);
    var moved := MoveMessages(DeleteConflicting(st.messages, org, from, into), org, from, into);
    DeleteChat(Store(st.chats[into := joined], moved, st.readEvents), from)
  }

  ghost function MergeChats(st: Store, org: Org, s: Session, lid: Jid, phone: Jid): Store {
    var from, into := FindChat(st.chats, org, s, lid), FindChat(st.chats, org, s, phone);
    if from.None? then st
    else if into.None? then st.(chats := st.chats[from.value := st.chats[from.value].(waChatId := phone)])
    else JoinChats(st, org, from.value, into.value)
  }

  /** mergeLidChatAndContact on canonical JIDs. */
  ghost function Merge(db: Db, s: Session, lid: Jid, phone: Jid): Db {
    if s !in db.sessions then db
    else
      var org := db.sessions[s];
      Db(db.sessions, MergeContacts(db.contacts, org, s, lid, phone), MergeChats(db.store, org, s, lid, phone))
  }

  // ----- the same, as it runs

  class Database {
    var sessions: map<Session, Org>
    var contacts: map<Id, Contact>
    var chats: map<Id, Chat>
    var messages: map<Id, Message>
    var readEvents: map<Id, Id>

    ghost function Now(): Db
      reads this
    {
      Db(sessions, contacts, Rows())
    }

    ghost function Rows(): Store
      reads this
    {
      Store(chats, messages, readEvents)
    }

    method SelectContact(org: Org, s: Session, jid: Jid) returns (r: Option<Id>)
      requires ValidContacts(sessions, contacts)
      ensures r == FindContact(contacts, org, s, jid)
    {
      if id :| id in contacts && contacts[id].org == org && contacts[id].session == s && contacts[id].waId == jid {
        assert IsContact(contacts, id, org, s, jid);
        return Some(id);
      }
      assert forall id :: !IsContact(contacts, id, org, s, jid);
      return None;
    }

    method SelectChat(org: Org, s: Session, jid: Jid) returns (r: Option<Id>)
      requires ValidChats(sessions, chats)
      ensures r == FindChat(chats, org, s, jid)
    {
      if id :| id in chats && chats[id].org == org && chats[id].session == s && chats[id].waChatId == jid {
        assert IsChat(chats, id, org, s, jid);
        return Some(id);
      }
      assert forall id :: !IsChat(chats, id, org, s, jid);
      return None;
    }

    method MergeContactRows(org: Org, s: Session, lid: Jid, phone: Jid)
      requires ValidContacts(sessions, contacts)
      modifies this`contacts
      ensures contacts == MergeContacts(old(contacts), org, s, lid, phone)
    {
      var lidContact := SelectContact(org, s, lid);
      var phoneContact := SelectContact(org, s, phone);
      if lidContact.None? { return; }
      var from := lidContact.value;
      if phoneContact.Some? {
        var into := phoneContact.value;
        var l, p := contacts[from], contacts[into];
        if !Present(p.pushName) && Present(l.pushName) { p := p.(pushName := l.pushName); }
        if !Present(p.displayName) && Present(l.displayName) { p := p.(displayName := l.displayName); }
        if !Present(p.avatarUrl) && Present(l.avatarUrl) { p := p.(avatarUrl := l.avatarUrl); }
        contacts := contacts[into := p];
        contacts := contacts - {from};
      } else {
        contacts := contacts[from := contacts[from].(waId := phone)];
      }
    }

    method DeleteConflictingMessages(org: Org, from: Id, into: Id)
      modifies this`messages
      ensures messages == DeleteConflicting(old(messages), org, from, into)
    {
      var keys := set k | k in messages && messages[k].org == org && messages[k].chatId == into
                        :: messages[k].waMessageId;
      messages := map m | m in messages &&
        !(messages[m].org == org && messages[m].chatId == from && messages[m].waMessageId in keys) :: messages[m];
    }

    method DeleteChatRow(id: Id)
      modifies this`chats, this`messages, this`readEvents
      ensures Rows() == DeleteChat(old(Rows()), id)
    {
      chats := chats - {id};
      messages := map m | m in messages && messages[m].chatId != id :: messages[m];
      readEvents := map e | e in readEvents && readEvents[e] != id :: readEvents[e];
    }

    method MergeChatRows(org: Org, s: Session, lid: Jid, phone: Jid)
      requires ValidChats(sessions, chats)
      modifies this`chats, this`messages, this`readEvents
      ensures Rows() == MergeChats(old(Rows()), org, s, lid, phone)
    {
      var lidChat := SelectChat(org, s, lid);
      var phoneChat := SelectChat(org, s, phone);
      if lidChat.None? { return; }
      var from := lidChat.value;
      if phoneChat.Some? {
        var into := phoneChat.value;
        var l, p := chats[from], chats[into];
        DeleteConflictingMessages(org, from, into);
        messages := map m | m in messages :: Moved(messages[m], org, from, into);
        var newUnread := p.unread + l.unread;
        var newLast := if l.lastAt.Some? && (p.lastAt.None? || l.lastAt.value > p.lastAt.value)
                       then l.lastAt else p.lastAt;
        var newPreview := if l.lastAt.Some? && (p.lastAt.None? || l.lastAt.value > p.lastAt.value)
                          then l.preview else p.preview;
        chats := chats[into := p.(unread := newUnread, lastAt := newLast, preview := newPreview)];
        DeleteChatRow(from);
      } else {
        chats := chats[from := chats[from].(waChatId := phone)];
      }
    }

    method MergeLidChatAndContact(s: Session, lidJid: Jid, phoneJid: Jid)
      requires Valid(Now())
      modifies this
      ensures Now() == Merge(old(Now()), s, NormalizeJid(Trim(lidJid)), NormalizeJid(Trim(phoneJid)))
    {
      var lid := NormalizeJid(Trim(lidJid));
      var phone := NormalizeJid(Trim(phoneJid));
      if s !in sessions { return; }
      MergeContactRows(sessions[s], s, lid, phone);
      MergeChatRows(sessions[s], s, lid, phone);
    }
  }
}
