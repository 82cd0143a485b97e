/** Delivery and read receipts over the messages table. */
module Receipts {
  import opened Options

  type Id = nat
  type Session = nat

  datatype Status = Pending | Sent | Delivered | Read | Failed

  datatype Message = Message(
    session: Session, chatId: nat, waMessageId: string, fromMe: bool, createdAt: int, status: Status)

  type Table = map<Id, Message>

  datatype Receipt = Receipt(session: Session, waMessageId: string, status: Status)

  /** Baileys' numeric status; an unknown number counts as sent. */
  function StatusOf(code: int): Status {
    match code
    case 0 => Failed
    case 1 => Pending
    case 3 => Delivered
    case 4 => Read
    case 5 => Read
    case _ => Sent
  }

  /** The numbers climb with the statuses: 0 stands apart, 1 to 4 are pending to read, 5 (played) counts as read. */
  lemma StatusOfClimbs(code: int)
    ensures StatusOf(code) == Failed <==> code == 0
    ensures 1 <= code <= 4 ==> Rank(StatusOf(code)) == code - 1
    ensures StatusOf(5) == Read
    ensures code < 0 || code > 5 ==> StatusOf(code) == Sent
  {
  }

  ghost predicate Valid(t: Table) {
    forall a, b | a in t && b in t && t[a].session == t[b].session && t[a].waMessageId == t[b].waMessageId :: a == b
  }

  predicate Refers(t: Table, r: Receipt, id: Id) {
    id in t && t[id].session == r.session && t[id].waMessageId == r.waMessageId
  }

  ghost function Find(t: Table, r: Receipt): (ref: Option<Id>)
    ensures ref.Some? ==> Refers(t, r, ref.value)
    ensures ref.None? ==> forall id :: !Refers(t, r, id)
  {
    if id :| Refers(t, r, id) then Some(id) else None
  }

  /** The WHERE clause of the update, given the message the receipt names. */
  predicate Selected(t: Table, ref: Id, status: Status, id: Id)
    requires ref in t && id in t
  {
    if status == Read || status == Delivered then
      && t[id].chatId == t[ref].chatId && t[id].fromMe && t[id].createdAt <= t[ref].createdAt
      && (if status == Read then t[id].status != Read else t[id].status in {Pending, Sent})
    else
      && id == ref
      && (if status == Failed then t[id].status != Failed else t[id].status == Pending)
  }

  function Update(t: Table, ref: Id, status: Status): Table
    requires ref in t
  {
    map id | id in t :: if Selected(t, ref, status, id) then t[id].(status := status) else t[id]
  }

  /** processMessageReceiptUpdate */
  ghost function Processed(t: Table, r: Receipt): Table {
    var ref := Find(t, r);
    if ref.None? then t else Update(t, ref.value, r.status)
  }

  ghost function Fold(t: Table, rs: seq<Receipt>): Table {
    if rs == [] then t else Processed(Fold(t, rs[..|rs| - 1]), rs[|rs| - 1])
  }

  class MessageTable {
    var messages: Table

    method ProcessMessageReceiptUpdate(r: Receipt)
      requires Valid(messages)
      modifies this
      ensures messages == Processed(old(messages), r) && Valid(messages)
    {
      if ref :| ref in messages && messages[ref].session == r.session && messages[ref].waMessageId == r.waMessageId {
        assert Refers(messages, r, ref);
        messages := Update(messages, ref, r.status);
      } else {
        assert forall id :: !Refers(messages, r, id);
      }
    }

    /** A batch of status events, in the order received. */
    method MessagesUpdate(s: Session, updates: seq<(string, int)>)
      requires Valid(messages)
      modifies this
      ensures Valid(messages)
      ensures messages == Fold(old(messages), Named(s, updates))
    {
      ghost var rs := Named(s, updates);
      for i := 0 to |updates|
        invariant Valid(messages)
        invariant messages == Fold(old(messages), rs[..i])
      {
        assert rs[..i + 1][..i] == rs[..i];
        ProcessMessageReceiptUpdate(Receipt(s, updates[i].0, StatusOf(updates[i].1)));
      }
      assert rs[..|updates|] == rs;
    }
  }

  function Named(s: Session, updates: seq<(string, int)>): (rs: seq<Receipt>)
    ensures |rs| == |updates|
    ensures forall i | 0 <= i < |rs| :: rs[i] == Receipt(s, updates[i].0, StatusOf(updates[i].1))
  {
    seq(|updates|, i requires 0 <= i < |updates| => Receipt(s, updates[i].0, StatusOf(updates[i].1)))
  }

  // ----- a receipt as a pointwise maximum

  function Rank(s: Status): nat {
    match s case Pending => 0 case Sent => 1 case Delivered => 2 case Read => 3 case Failed => 4
  }

  ghost predicate Clean(t: Table) {
    forall id | id in t :: t[id].status != Failed
  }

  /** The messages a receipt speaks about: a delivery or read receipt covers every earlier outbound message of the
      chat. */
  ghost predicate Covers(t: Table, r: Receipt, id: Id)
    requires id in t
  {
    exists ref :: Refers(t, r, ref) && Reaches(t, ref, r.status, id)
  }

  predicate Reaches(t: Table, ref: Id, status: Status, id: Id)
    requires ref in t && id in t
  {
    if status == Read || status == Delivered
    then t[id].chatId == t[ref].chatId && t[id].fromMe && t[id].createdAt <= t[ref].createdAt
    else id == ref
  }

  /** Two tables that differ in statuses only. */
  ghost predicate SameRows(t: Table, u: Table) {
    t.Keys == u.Keys && forall id | id in t :: u[id] == t[id].(status := u[id].status)
  }

  lemma SameCovers(t: Table, u: Table, r: Receipt, id: Id)
    requires SameRows(t, u) && id in t
    ensures Covers(t, r, id) <==> Covers(u, r, id)
  {
    if Covers(t, r, id) {
      var ref :| Refers(t, r, ref) && Reaches(t, ref, r.status, id);
      assert Refers(u, r, ref) && Reaches(u, ref, r.status, id);
    }
    if Covers(u, r, id) {
      var ref :| Refers(u, r, ref) && Reaches(u, ref, r.status, id);
      assert Refers(t, r, ref) && Reaches(t, ref, r.status, id);
    }
  }

  /** What a receipt makes of the status of a message it covers. */
  function Raised(s: Status, r: Status): Status {
    match r
    case Pending => s
    case Sent => if s == Pending then Sent else s
    case Delivered => if s in {Pending, Sent} then Delivered else s
    case Read => Read
    case Failed => Failed
  }

  lemma CoversByFind(t: Table, r: Receipt, id: Id)
    requires Valid(t) && id in t
    ensures Covers(t, r, id) <==> Find(t, r).Some? && Reaches(t, Find(t, r).value, r.status, id)
  {
  }

  lemma Selects(t: Table, ref: Id, status: Status, id: Id)
    requires ref in t && id in t
    ensures Update(t, ref, status)[id] ==
              if Reaches(t, ref, status, id) then t[id].(status := Raised(t[id].status, status)) else t[id]
  {
  }

  /** One receipt, message by message. */
  lemma StatusAfter(t: Table, r: Receipt, id: Id)
    requires Valid(t) && id in t
    ensures id in Processed(t, r)
    ensures Processed(t, r)[id] == if Covers(t, r, id) then t[id].(status := Raised(t[id].status, r.status)) else t[id]
  {
    CoversByFind(t, r, id);
    if Find(t, r).Some? { Selects(t, Find(t, r).value, r.status, id); }
  }

  lemma RowsStay(t: Table, r: Receipt)
    requires Valid(t)
    ensures SameRows(t, Processed(t, r)) && Valid(Processed(t, r))
  {
    var u := Processed(t, r);
    forall id | id in t
      ensures u[id] == t[id].(status := u[id].status)
    {
      StatusAfter(t, r, id);
    }
  }

  /** Exactly which messages a receipt changes, and to what: a read or delivery receipt the outbound messages of the
      named message's chat up to its time that stand lower -- a failed one counts as lower than read only -- any other
      the named message alone. */
  lemma TouchesIff(t: Table, r: Receipt, id: Id)
    requires Valid(t) && id in t
    ensures Processed(t, r).Keys == t.Keys
    ensures Processed(t, r)[id] == t[id] || Processed(t, r)[id] == t[id].(status := r.status)
    ensures Processed(t, r)[id] != t[id] <==> exists ref ::
              && ref in t && t[ref].session == r.session && t[ref].waMessageId == r.waMessageId
              && match r.status
                 case Read =>
                   t[id].fromMe && t[id].chatId == t[ref].chatId && t[id].createdAt <= t[ref].createdAt
                   && t[id].status != Read
                 case Delivered =>
                   t[id].fromMe && t[id].chatId == t[ref].chatId && t[id].createdAt <= t[ref].createdAt
                   && (t[id].status == Pending || t[id].status == Sent)
                 case Failed => id == ref && t[id].status != Failed
                 case Sent => id == ref && t[id].status == Pending
                 case Pending => false
  {
    StatusAfter(t, r, id);
    CoversByFind(t, r, id);
    forall ref | ref in t && t[ref].session == r.session && t[ref].waMessageId == r.waMessageId
      ensures Find(t, r) == Some(ref)
    {
      assert Refers(t, r, ref);
    }
    if Processed(t, r)[id] != t[id] {
      var ref := Find(t, r).value;
      assert Refers(t, r, ref) && Reaches(t, ref, r.status, id);
    }
  }

  /** A receipt that reports no failure, on a table without failed messages, is a pointwise maximum. */
  lemma PointwiseMax(t: Table, r: Receipt)
    requires Valid(t) && Clean(t) && r.status != Failed
    ensures var u := Processed(t, r);
            && Valid(u) && Clean(u) && SameRows(t, u)
            && forall id | id in t ::
                 Rank(u[id].status) ==
                   if Covers(t, r, id) && Rank(r.status) > Rank(t[id].status) then Rank(r.status)
                   else Rank(t[id].status)
  {
    RowsStay(t, r);
    forall id | id in t
      ensures var s := Processed(t, r)[id].status;
              s != Failed && Rank(s) == if Covers(t, r, id) && Rank(r.status) > Rank(t[id].status) then Rank(r.status)
                                        else Rank(t[id].status)
    {
      StatusAfter(t, r, id);
    }
  }

  // ----- what a sequence of receipts comes to

  /** A message reaches a level if it had it or some receipt that covers it grants it. */
  ghost predicate Granted(t: Table, rs: seq<Receipt>, id: Id, k: int)
    requires id in t
  {
    Rank(t[id].status) >= k || exists r :: r in rs && Covers(t, r, id) && Rank(r.status) >= k
  }

  ghost predicate Reported(t: Table, rs: seq<Receipt>, status: Status, id: Id)
    requires id in t
  {
    exists r :: r in rs && r.status == status && Covers(t, r, id)
  }

  /** No message is both named by a failure receipt and covered by a read receipt. */
  ghost predicate Compatible(t: Table, rs: seq<Receipt>) {
    forall id | id in t :: !(Reported(t, rs, Failed, id) && Reported(t, rs, Read, id))
  }

  /** The status of a message after compatible receipts, in terms of which receipts there are. */
  ghost predicate Settles(t: Table, rs: seq<Receipt>, id: Id, status: Status)
    requires id in t
  {
    if Reported(t, rs, Failed, id) then status == Failed
    else if t[id].status == Failed then status == if Reported(t, rs, Read, id) then Read else Failed
    else status != Failed && forall k :: Rank(status) >= k <==> Granted(t, rs, id, k)
  }

  lemma OneMore(t: Table, front: seq<Receipt>, r: Receipt, id: Id)
    requires id in t
    ensures forall s :: Reported(t, front + [r], s, id) <==>
                          Reported(t, front, s, id) || (r.status == s && Covers(t, r, id))
    ensures forall k :: Granted(t, front + [r], id, k) <==>
                          Granted(t, front, id, k) || (Covers(t, r, id) && Rank(r.status) >= k)
  {
    var rs := front + [r];
    assert forall q :: q in rs <==> q in front || q == r;
  }

  lemma SettlesOn(t: Table, front: seq<Receipt>, r: Receipt, id: Id, s: Status)
    requires id in t && Settles(t, front, id, s)
    requires !(Reported(t, front + [r], Failed, id) && Reported(t, front + [r], Read, id))
    ensures Settles(t, front + [r], id, if Covers(t, r, id) then Raised(s, r.status) else s)
  {
    OneMore(t, front, r, id);
  }

  lemma {:induction false} FoldSettles(t: Table, rs: seq<Receipt>)
    requires Valid(t) && Compatible(t, rs)
    ensures Valid(Fold(t, rs)) && SameRows(t, Fold(t, rs))
    ensures forall id | id in t :: Settles(t, rs, id, Fold(t, rs)[id].status)
  {
    if rs != [] {
      var front, r := rs[..|rs| - 1], rs[|rs| - 1];
      assert rs == front + [r];
      forall id | id in t
        ensures Reported(t, front, Failed, id) ==> Reported(t, rs, Failed, id)
        ensures Reported(t, front, Read, id) ==> Reported(t, rs, Read, id)
      {
        OneMore(t, front, r, id);
      }
      FoldSettles(t, front);
      var f := Fold(t, front);
      RowsStay(f, r);
      forall id | id in t
        ensures Settles(t, rs, id, Fold(t, rs)[id].status)
      {
        StatusAfter(f, r, id);
        SameCovers(t, f, r, id);
        SettlesOn(t, front, r, id, f[id].status);
      }
    }
  }

  lemma NoFailures(t: Table, rs: seq<Receipt>)
    requires forall r | r in rs :: r.status != Failed
    ensures Compatible(t, rs)
  {
  }

  /** Without failures the levels reached are those held or granted. */
  lemma FoldReaches(t: Table, rs: seq<Receipt>)
    requires Valid(t) && Clean(t) && forall r | r in rs :: r.status != Failed
    ensures var u := Fold(t, rs);
            && Valid(u) && Clean(u) && SameRows(t, u)
            && forall id, k | id in t :: Rank(u[id].status) >= k <==> Granted(t, rs, id, k)
  {
    NoFailures(t, rs);
    FoldSettles(t, rs);
    forall id | id in t
      ensures Fold(t, rs)[id].status != Failed
      ensures forall k :: Rank(Fold(t, rs)[id].status) >= k <==> Granted(t, rs, id, k)
    {
      assert Settles(t, rs, id, Fold(t, rs)[id].status);
      assert !Reported(t, rs, Failed, id);
    }
  }

  // ----- order and repetition

  /** The same receipts in any order and any number. */
  ghost predicate SameReceipts(rs: seq<Receipt>, qs: seq<Receipt>) {
    forall r :: r in rs <==> r in qs
  }

  /** Every such order and repetition leaves the table that `rs` leaves. */
  ghost predicate OrderFree(t: Table, rs: seq<Receipt>) {
    forall qs | SameReceipts(rs, qs) :: Fold(t, qs) == Fold(t, rs)
  }

  lemma OneStatus(t: Table, rs: seq<Receipt>, id: Id, a: Status, b: Status)
    requires id in t && Settles(t, rs, id, a) && Settles(t, rs, id, b)
    ensures a == b
  {
    if !Reported(t, rs, Failed, id) && t[id].status != Failed {
      assert Granted(t, rs, id, Rank(a)) && Granted(t, rs, id, Rank(b));
    }
  }

  lemma SameSettles(t: Table, rs: seq<Receipt>, qs: seq<Receipt>, id: Id, s: Status)
    requires id in t && SameReceipts(rs, qs) && Settles(t, qs, id, s)
    ensures Settles(t, rs, id, s)
  {
    assert forall x :: Reported(t, rs, x, id) <==> Reported(t, qs, x, id);
    assert forall k :: Granted(t, rs, id, k) <==> Granted(t, qs, id, k);
  }

  lemma Agree(t: Table, rs: seq<Receipt>, qs: seq<Receipt>)
    requires Valid(t) && Compatible(t, rs) && SameReceipts(rs, qs)
    ensures Fold(t, qs) == Fold(t, rs)
  {
    forall id | id in t
      ensures !(Reported(t, qs, Failed, id) && Reported(t, qs, Read, id))
    {
    }
    FoldSettles(t, rs);
    FoldSettles(t, qs);
    var u, v := Fold(t, rs), Fold(t, qs);
    forall id | id in t
      ensures u[id] == v[id]
    {
      SameSettles(t, rs, qs, id, v[id].status);
      OneStatus(t, rs, id, u[id].status, v[id].status);
    }
  }

  lemma {:induction false} FoldRows(t: Table, rs: seq<Receipt>)
    requires Valid(t)
    ensures Valid(Fold(t, rs)) && SameRows(t, Fold(t, rs))
  {
    if rs != [] {
      FoldRows(t, rs[..|rs| - 1]);
      RowsStay(Fold(t, rs[..|rs| - 1]), rs[|rs| - 1]);
    }
  }

  /** A read or a failure receipt that comes last has the last word on each message it covers. */
  lemma LastWord(t: Table, rs: seq<Receipt>, r: Receipt, id: Id)
    requires Valid(t) && id in t && Covers(t, r, id) && r.status in {Read, Failed}
    ensures id in Fold(t, rs + [r]) && Fold(t, rs + [r])[id].status == r.status
  {
    FoldRows(t, rs);
    assert (rs + [r])[..|rs|] == rs;
    SameCovers(t, Fold(t, rs), r, id);
    StatusAfter(Fold(t, rs), r, id);
  }

  /** Every order and every repetition of a set of receipts leaves the same table exactly if no message is both named
      by a failure receipt and covered by a read receipt. */
  lemma Confluence(t: Table, rs: seq<Receipt>)
    requires Valid(t)
    ensures OrderFree(t, rs) <==> Compatible(t, rs)
  {
    if Compatible(t, rs) {
      CompatibleAgree(t, rs);
    } else {
      var id :| id in t && Reported(t, rs, Failed, id) && Reported(t, rs, Read, id);
      Disagree(t, rs, id);
    }
  }

  lemma CompatibleAgree(t: Table, rs: seq<Receipt>)
    requires Valid(t) && Compatible(t, rs)
    ensures OrderFree(t, rs)
  {
    forall qs | SameReceipts(rs, qs)
      ensures Fold(t, qs) == Fold(t, rs)
    {
      Agree(t, rs, qs);
    }
  }

  lemma Disagree(t: Table, rs: seq<Receipt>, id: Id)
    requires Valid(t) && id in t && Reported(t, rs, Failed, id) && Reported(t, rs, Read, id)
    ensures !OrderFree(t, rs)
  {
    var a :| a in rs && a.status == Failed && Covers(t, a, id);
    var b :| b in rs && b.status == Read && Covers(t, b, id);
    LastWord(t, rs, a, id);
    LastWord(t, rs, b, id);
    Repeats(rs, a);
    Repeats(rs, b);
  }

  lemma Repeats(rs: seq<Receipt>, a: Receipt)
    requires a in rs
    ensures SameReceipts(rs, rs + [a])
  {
  }

  /** A failure receipt and any other commute on every table exactly if the other one is not a read receipt that covers
      the failed message. */
  lemma FailureCommutesIff(t: Table, a: Receipt, b: Receipt)
    requires Valid(t) && a.status == Failed
    ensures Fold(t, [a, b]) == Fold(t, [b, a]) <==>
              !(b.status == Read && exists id :: id in t && Covers(t, a, id) && Covers(t, b, id))
  {
    if id :| b.status == Read && id in t && Covers(t, a, id) && Covers(t, b, id) {
      LastWord(t, [a], b, id);
      LastWord(t, [b], a, id);
      assert [a] + [b] == [a, b] && [b] + [a] == [b, a];
    } else {
      forall id | id in t
        ensures !(Reported(t, [a, b], Failed, id) && Reported(t, [a, b], Read, id))
      {
      }
      Agree(t, [a, b], [b, a]);
    }
  }

  // ----- levels

  /** No status ever goes down. */
  lemma NeverDown(t: Table, rs: seq<Receipt>, id: Id)
    requires Valid(t) && Clean(t) && id in t && forall r | r in rs :: r.status != Failed
    ensures id in Fold(t, rs) && Rank(Fold(t, rs)[id].status) >= Rank(t[id].status)
  {
    FoldReaches(t, rs);
    assert Granted(t, rs, id, Rank(t[id].status));
  }

  /** In every chat, whatever precedes an outbound message of level k has level k as well. */
  ghost predicate DownwardClosed(t: Table, k: int) {
    forall a, b | a in t && b in t && t[a].fromMe && t[b].fromMe && t[a].chatId == t[b].chatId &&
      t[a].createdAt <= t[b].createdAt && Rank(t[b].status) >= k :: Rank(t[a].status) >= k
  }

  /** The read messages of a chat, and those at least delivered, stay an initial stretch of its outbound messages. */
  lemma {:induction false} StaysClosed(t: Table, rs: seq<Receipt>, k: int)
    requires Valid(t) && Clean(t) && k in {Rank(Delivered), Rank(Read)} && DownwardClosed(t, k)
    requires forall r | r in rs :: r.status != Failed
    ensures DownwardClosed(Fold(t, rs), k)
  {
    FoldReaches(t, rs);
    var u := Fold(t, rs);
    forall a, b | a in u && b in u && u[a].fromMe && u[b].fromMe && u[a].chatId == u[b].chatId &&
      u[a].createdAt <= u[b].createdAt && Rank(u[b].status) >= k
      ensures Rank(u[a].status) >= k
    {
      GrantedBefore(t, rs, k, a, b);
    }
  }

  lemma GrantedBefore(t: Table, rs: seq<Receipt>, k: int, a: Id, b: Id)
    requires k in {Rank(Delivered), Rank(Read)} && DownwardClosed(t, k)
    requires a in t && b in t && t[a].fromMe && t[b].fromMe && t[a].chatId == t[b].chatId
    requires t[a].createdAt <= t[b].createdAt && Granted(t, rs, b, k) && Clean(t)
    requires forall r | r in rs :: r.status != Failed
    ensures Granted(t, rs, a, k)
  {
    if Rank(t[b].status) < k {
      var r :| r in rs && Covers(t, r, b) && Rank(r.status) >= k;
      var ref :| Refers(t, r, ref) && Reaches(t, ref, r.status, b);
      assert Reaches(t, ref, r.status, a);
      assert Covers(t, r, a);
    }
  }
}
