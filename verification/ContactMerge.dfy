/** What one merge and a whole fold of merges do to each contact and each chat row. */
module ContactMerge {
  import opened ChatMerge
  import opened ChatTables
  import opened Jids
  import opened MergeOrder
  import opened Options

  /** The row is of this session and under this JID. */
  predicate Under(c: Contact, s: Session, jid: Jid) {
    c.session == s && c.waId == jid
  }

  ghost predicate Has(contacts: Contacts, s: Session, jid: Jid) {
    exists c :: c in contacts && Under(contacts[c], s, jid)
  }

  /** Each field present in `was` is present in `now`. */
  predicate KeepsFields(was: Contact, now: Contact) {
    && (was.pushName.Some? && was.pushName.value != "" ==> now.pushName.Some? && now.pushName.value != "")
    && (was.displayName.Some? && was.displayName.value != "" ==> now.displayName.Some? && now.displayName.value != "")
    && (was.avatarUrl.Some? && was.avatarUrl.value != "" ==> now.avatarUrl.Some? && now.avatarUrl.value != "")
  }

  lemma Found(sessions: map<Session, Org>, contacts: Contacts, s: Session, jid: Jid)
    requires ValidContacts(sessions, contacts) && s in sessions
    ensures var r := FindContact(contacts, sessions[s], s, jid);
            && (r.Some? <==> Has(contacts, s, jid))
            && forall c | c in contacts :: Under(contacts[c], s, jid) <==> r == Some(c)
  {
    forall c | c in contacts && Under(contacts[c], s, jid)
      ensures FindContact(contacts, sessions[s], s, jid) == Some(c)
    {
      assert IsContact(contacts, c, sessions[s], s, jid);
    }
  }

  /** Row by row: the LID row is renamed and otherwise untouched if the phone has none, and goes exactly if it has
      one; the phone row stays what it is but for fields it lacked; no other row of any session changes, and none is
      added. */
  lemma ContactRowsAfter(db: Db, s: Session, lid: Jid, phone: Jid, c: Id)
    requires Valid(db) && lid != phone && s in db.sessions
    ensures var was, now := db.contacts, Merge(db, s, lid, phone).contacts;
            && (c in now ==> c in was)
            && (c in was && !Under(was[c], s, lid) && !Under(was[c], s, phone) ==> c in now && now[c] == was[c])
            && (c in was && Under(was[c], s, lid) ==>
                  && (c in now <==> !Has(was, s, phone))
                  && (c in now ==> now[c] == was[c].(waId := phone)))
            && (c in was && Under(was[c], s, phone) ==>
                  && c in now && Under(now[c], s, phone) && now[c].org == was[c].org
                  && (Present(was[c].pushName) ==> now[c].pushName == was[c].pushName)
                  && (Present(was[c].displayName) ==> now[c].displayName == was[c].displayName)
                  && (Present(was[c].avatarUrl) ==> now[c].avatarUrl == was[c].avatarUrl)
                  && (!Has(was, s, lid) ==> now[c] == was[c]))
  {
    Found(db.sessions, db.contacts, s, lid);
    Found(db.sessions, db.contacts, s, phone);
  }

  /** The row ids afterwards are the old ones, less the LID row exactly when both JIDs had one. */
  lemma ContactIdsAfter(db: Db, s: Session, lid: Jid, phone: Jid)
    requires Valid(db) && lid != phone && s in db.sessions
    ensures var was, now := db.contacts, Merge(db, s, lid, phone).contacts;
            now.Keys == if Has(was, s, lid) && Has(was, s, phone)
                        then set c | c in was && !Under(was[c], s, lid) else was.Keys
  {
    forall c
      ensures var was, now := db.contacts, Merge(db, s, lid, phone).contacts;
              c in now.Keys <==> c in was && !(Has(was, s, lid) && Has(was, s, phone) && Under(was[c], s, lid))
    {
      ContactRowsAfter(db, s, lid, phone, c);
    }
  }

  /** Where the fields of `c` are found: a row under the JID its own goes to, with every field it had. */
  ghost predicate Survives(was: Contact, now: Contacts, m: Mapping, s: Session) {
    exists d :: d in now && now[d].session == was.session && now[d].org == was.org
                && now[d].waId == (if was.session == s then Target(m, was.waId) else was.waId)
                && KeepsFields(was, now[d])
  }

  /** Nobody is forgotten: whoever had a contact under either JID has one under the phone JID, with every field present
      in any of the rows. */
  lemma ContactSurvives(db: Db, s: Session, lid: Jid, phone: Jid, c: Id)
    requires Valid(db) && lid != phone && s in db.sessions && c in db.contacts
    ensures Survives(db.contacts[c], Merge(db, s, lid, phone).contacts, map[lid := phone], s)
  {
    var was, now := db.contacts, Merge(db, s, lid, phone).contacts;
    ContactRowsAfter(db, s, lid, phone, c);
    if Under(was[c], s, lid) && Has(was, s, phone) {
      var p :| p in was && Under(was[p], s, phone);
      ContactRowsAfter(db, s, lid, phone, p);
      assert IsContact(was, c, db.sessions[s], s, lid) && IsContact(was, p, db.sessions[s], s, phone);
      ContactFieldsKept(db, s, lid, phone, c, p);
      assert p in now && KeepsFields(was[c], now[p]);
    } else {
      assert c in now && KeepsFields(was[c], now[c]);
    }
  }

  /** The same after a whole fold, in any order: every contact of every session survives under the JID its own is mapped
      to. */
  lemma {:induction false} FoldKeepsContacts(db: Db, s: Session, order: seq<Pair>, c: Id)
    requires Valid(db) && s in db.sessions && Consistent(order) && c in db.contacts
    ensures Survives(db.contacts[c], Fold(db, s, order).contacts, MapOf(order), s)
  {
    var was := db.contacts[c];
    if order == [] {
      assert KeepsFields(was, was);
    } else {
      var front, last := order[..|order| - 1], order[|order| - 1];
      MapGrows(order);
      FoldKeepsValid(db, s, front);
      FoldKeepsContacts(db, s, front, c);
      var mid := Fold(db, s, front);
      var d :| d in mid.contacts && mid.contacts[d].session == was.session && mid.contacts[d].org == was.org
               && mid.contacts[d].waId == (if was.session == s then Target(MapOf(front), was.waId) else was.waId)
               && KeepsFields(was, mid.contacts[d]);
      ContactSurvives(mid, s, last.lid, last.phone, d);
      TargetsCompose(MapOf(front), last.lid, last.phone, was.waId);
    }
  }

  /** A fold adds no row, and leaves alone every contact of another session and every one whose JID is in no pair. */
  lemma {:induction false} FoldLeavesContacts(db: Db, s: Session, order: seq<Pair>, c: Id)
    requires Valid(db) && s in db.sessions && Consistent(order)
    ensures c in Fold(db, s, order).contacts ==> c in db.contacts
    ensures c in db.contacts && (forall a | a in order ::
              !Under(db.contacts[c], s, a.lid) && !Under(db.contacts[c], s, a.phone)) ==>
              c in Fold(db, s, order).contacts && Fold(db, s, order).contacts[c] == db.contacts[c]
  {
    if order != [] {
      var front, last := order[..|order| - 1], order[|order| - 1];
      assert order == front + [last];
      assert last in order;
      MapGrows(order);
      FoldKeepsValid(db, s, front);
      FoldLeavesContacts(db, s, front, c);
      ContactRowsAfter(Fold(db, s, front), s, last.lid, last.phone, c);
    }
  }

  // ----- chat rows

  /** What the conflict DELETE is for: afterwards no message of the one chat has the key of one in the other, so the
      rows can be moved; and no other message is deleted, whatever the tables hold. */
  lemma ConflictsAreGone(messages: map<Id, Message>, org: Org, from: Id, into: Id)
    requires from != into
    ensures var r := DeleteConflicting(messages, org, from, into);
            && (forall a, b | a in r && b in r && r[a].org == r[b].org == org && r[a].chatId == from
                              && r[b].chatId == into :: r[a].waMessageId != r[b].waMessageId)
            && (forall m | m in r :: m in messages && r[m] == messages[m])
            && (forall m | m in messages && m !in r ::
                  && messages[m].org == org && messages[m].chatId == from
                  && exists k :: k in messages && messages[k].org == org && messages[k].chatId == into
                                 && messages[k].waMessageId == messages[m].waMessageId)
  {
  }

  predicate FiledUnder(c: Chat, s: Session, jid: Jid) {
    c.session == s && c.waChatId == jid
  }

  /** Two chats become one: the counts add up, time and preview are those of the LID chat exactly if it is the later. */
  lemma ChatsJoin(db: Db, s: Session, lid: Jid, phone: Jid, l: Id, p: Id)
    requires Valid(db) && lid != phone && s in db.sessions
    requires l in db.store.chats && FiledUnder(db.store.chats[l], s, lid)
    requires p in db.store.chats && FiledUnder(db.store.chats[p], s, phone)
    ensures var was, now := db.store.chats, Merge(db, s, lid, phone).store.chats;
            var later := was[l].lastAt.Some? && (was[p].lastAt.None? || was[l].lastAt.value > was[p].lastAt.value);
            && now.Keys == was.Keys - {l}
            && now[p] == Chat(was[p].org, s, phone, was[p].unread + was[l].unread,
                              if later then was[l].lastAt else was[p].lastAt,
                              if later then was[l].preview else was[p].preview)
            && (forall c | c in now && c != p :: now[c] == was[c])
    ensures Merge(db, s, lid, phone).store.readEvents ==
              map e | e in db.store.readEvents && db.store.readEvents[e] != l :: db.store.readEvents[e]
  {
    var org := db.sessions[s];
    assert IsChat(db.store.chats, l, org, s, lid) && IsChat(db.store.chats, p, org, s, phone);
    assert FindChat(db.store.chats, org, s, lid) == Some(l) && FindChat(db.store.chats, org, s, phone) == Some(p);
    JoinKeeps(db.sessions, db.store, org, l, p);
  }

  /** A LID chat without a phone chat keeps its row and everything in it but the JID; every other row stays. */
  lemma ChatIsRenamed(db: Db, s: Session, lid: Jid, phone: Jid, l: Id)
    requires Valid(db) && lid != phone && s in db.sessions
    requires l in db.store.chats && FiledUnder(db.store.chats[l], s, lid)
    requires forall c | c in db.store.chats :: !FiledUnder(db.store.chats[c], s, phone)
    ensures Merge(db, s, lid, phone).store ==
              db.store.(chats := db.store.chats[l := db.store.chats[l].(waChatId := phone)])
  {
    var org := db.sessions[s];
    assert IsChat(db.store.chats, l, org, s, lid);
    assert FindChat(db.store.chats, org, s, lid) == Some(l);
    assert FindChat(db.store.chats, org, s, phone).None?;
  }
}
