/** Folding the merge over a whole table of LID mappings: the order of the merges does not matter. */
module MergeOrder {
  import opened Jids
  import opened ChatTables
  import opened Options
  import opened ChatMerge

  type Mapping = map<Jid, Jid>

  /** Where a JID ends up. */
  function Target(m: Mapping, j: Jid): Jid {
    if j in m then m[j] else j
  }

  // ----- the result stated at once

  /** The JIDs of a chat list that end up at `p`. */
  ghost function Fiber(m: Mapping, v: map<Jid, Summary>, p: Jid): set<Jid> {
    set j | j in v && Target(m, j) == p
  }

  ghost function Total(v: map<Jid, Summary>, s: set<Jid>): int
    requires s <= v.Keys
  {
    if s == {} then 0 else var j :| j in s; v[j].unread + Total(v, s - {j})
  }

  ghost function Latest(v: map<Jid, Summary>, s: set<Jid>): Option<int>
    requires s <= v.Keys
  {
    if s == {} then None else var j :| j in s; Max(v[j].lastAt, Latest(v, s - {j}))
  }

  ghost function Gathered(m: Mapping, v: map<Jid, Summary>): map<Jid, Summary> {
    map p | p in (set j | j in v :: Target(m, j)) :: SumOf(v, Fiber(m, v, p))
  }

  ghost function SumOf(v: map<Jid, Summary>, s: set<Jid>): Summary
    requires s <= v.Keys
  {
    Summary(Total(v, s), Latest(v, s))
  }

  lemma {:induction false} TotalAdds(v: map<Jid, Summary>, s: set<Jid>, j: Jid)
    requires s <= v.Keys && j in s
    ensures Total(v, s) == v[j].unread + Total(v, s - {j})
    decreases s
  {
    var k :| k in s && Total(v, s) == v[k].unread + Total(v, s - {k});
    if k != j {
      TotalAdds(v, s - {k}, j);
      TotalAdds(v, s - {j}, k);
      assert s - {k} - {j} == s - {j} - {k};
    }
  }

  lemma MaxLaws(a: Option<int>, b: Option<int>, c: Option<int>)
    ensures Max(a, Max(b, c)) == Max(b, Max(a, c)) && Max(a, b) == Max(b, a) && Max(a, None) == a
  {
  }

  lemma {:induction false} LatestAdds(v: map<Jid, Summary>, s: set<Jid>, j: Jid)
    requires s <= v.Keys && j in s
    ensures Latest(v, s) == Max(v[j].lastAt, Latest(v, s - {j}))
    decreases s
  {
    var k :| k in s && Latest(v, s) == Max(v[k].lastAt, Latest(v, s - {k}));
    if k != j {
      LatestAdds(v, s - {k}, j);
      LatestAdds(v, s - {j}, k);
      assert s - {k} - {j} == s - {j} - {k};
      MaxLaws(v[k].lastAt, v[j].lastAt, Latest(v, s - {k} - {j}));
    }
  }

  // ----- one more merge

  /** No JID is both mapped and mapped to. */
  ghost predicate Flat(m: Mapping) {
    m.Keys !! m.Values
  }

  lemma InGathered(m: Mapping, v: map<Jid, Summary>, q: Jid)
    ensures q in Gathered(m, v) <==> Fiber(m, v, q) != {}
  {
    if q in Gathered(m, v) {
      var j :| j in v && Target(m, j) == q;
      assert j in Fiber(m, v, q);
    } else {
      assert forall j | j in v :: Target(m, j) in Gathered(m, v);
    }
  }

  lemma SumOfOneMore(v: map<Jid, Summary>, s: set<Jid>, l: Jid)
    requires s <= v.Keys && l in v && l !in s
    ensures SumOf(v, s + {l}) == if s == {} then v[l] else Plus(SumOf(v, s), v[l])
  {
    assert s + {l} - {l} == s;
    TotalAdds(v, s + {l}, l);
    LatestAdds(v, s + {l}, l);
    MaxLaws(v[l].lastAt, Latest(v, s), None);
    MaxLaws(v[l].lastAt, None, None);
  }

  /** How one more mapping regroups the JIDs. */
  lemma Regrouped(m: Mapping, v: map<Jid, Summary>, l: Jid, p: Jid)
    requires Flat(m[l := p]) && l !in m
    ensures l != p && Fiber(m, v, l) == v.Keys * {l} && Fiber(m[l := p], v, l) == {}
    ensures Fiber(m[l := p], v, p) == Fiber(m, v, p) + v.Keys * {l}
    ensures forall q | q != l && q != p :: Fiber(m[l := p], v, q) == Fiber(m, v, q)
  {
    var n := m[l := p];
    assert l in n.Keys && n[l] in n.Values;
    forall j | j in v && j != l
      ensures Target(n, j) == Target(m, j) != l
    {
      if j in m { assert n[j] in n.Values; }
    }
  }

  lemma GatherMore(m: Mapping, v: map<Jid, Summary>, l: Jid, p: Jid)
    requires Flat(m[l := p]) && (l in m ==> m[l] == p)
    ensures MergeView(Gathered(m, v), l, p) == Gathered(m[l := p], v)
  {
    var n := m[l := p];
    InGathered(m, v, l);
    if l in m {
      assert n == m && m[l] in m.Values;
      forall j | j in v
        ensures Target(m, j) != l
      {
        if j in m { assert m[j] in m.Values; }
      }
      assert Fiber(m, v, l) == {};
    } else {
      Regrouped(m, v, l, p);
      InGathered(m, v, p);
      if l in v {
        assert Fiber(m, v, l) == {l} && {} + {l} == {l};
        SumOfOneMore(v, {}, l);
        SumOfOneMore(v, Fiber(m, v, p), l);
        assert v.Keys * {l} == {l};
        assert Gathered(m, v)[l] == v[l];
      } else {
        assert v.Keys * {l} == {};
        assert Fiber(n, v, p) == Fiber(m, v, p);
      }
      SameEverywhere(m, v, l, p);
    }
  }

  lemma SameEverywhere(m: Mapping, v: map<Jid, Summary>, l: Jid, p: Jid)
    requires l != p && Fiber(m[l := p], v, l) == {}
    requires forall q | q != l && q != p :: Fiber(m[l := p], v, q) == Fiber(m, v, q)
    requires l in v ==> Fiber(m, v, l) == {l} && Gathered(m, v).Keys >= {l} && Gathered(m, v)[l] == v[l]
    requires l in v ==> Fiber(m[l := p], v, p) == Fiber(m, v, p) + {l}
    requires l in v ==> SumOf(v, Fiber(m, v, p) + {l}) ==
                          if Fiber(m, v, p) == {} then v[l] else Plus(SumOf(v, Fiber(m, v, p)), v[l])
    requires l !in v ==> Fiber(m, v, l) == {} && Fiber(m[l := p], v, p) == Fiber(m, v, p)
    ensures MergeView(Gathered(m, v), l, p) == Gathered(m[l := p], v)
  {
    var n := m[l := p];
    var a, b := MergeView(Gathered(m, v), l, p), Gathered(n, v);
    InGathered(m, v, l);
    InGathered(m, v, p);
    forall q
      ensures q in a <==> q in b
      ensures q in a ==> a[q] == b[q]
    {
      InGathered(m, v, q);
      InGathered(n, v, q);
    }
  }

  lemma GatherNone(v: map<Jid, Summary>)
    ensures Gathered(map[], v) == v
  {
    forall j | j in v
      ensures j in Gathered(map[], v) && Gathered(map[], v)[j] == v[j]
    {
      InGathered(map[], v, j);
      assert Fiber(map[], v, j) == {j} && {} + {j} == {j};
      SumOfOneMore(v, {}, j);
    }
  }

  // ----- folding

  datatype Pair = Pair(lid: Jid, phone: Jid)

  ghost function Fold(db: Db, s: Session, order: seq<Pair>): Db {
    if order == [] then db
    else Merge(Fold(db, s, order[..|order| - 1]), s, order[|order| - 1].lid, order[|order| - 1].phone)
  }

  function MapOf(order: seq<Pair>): Mapping {
    if order == [] then map[]
    else MapOf(order[..|order| - 1])[order[|order| - 1].lid := order[|order| - 1].phone]
  }

  /** The pairs belong to one table of mappings: one phone for each LID, and no phone is itself a LID. */
  ghost predicate Consistent(order: seq<Pair>) {
    && (forall a, b | a in order && b in order && a.lid == b.lid :: a.phone == b.phone)
    && (forall a, b | a in order && b in order :: a.lid != b.phone)
  }

  lemma {:induction false} MapOfPairs(order: seq<Pair>)
    requires Consistent(order)
    ensures forall a | a in order :: a.lid in MapOf(order) && MapOf(order)[a.lid] == a.phone
    ensures forall l | l in MapOf(order) :: Pair(l, MapOf(order)[l]) in order
    ensures Flat(MapOf(order))
  {
    if order != [] {
      var front, last := order[..|order| - 1], order[|order| - 1];
      assert order == front + [last];
      assert forall a :: a in order <==> a in front || a == last;
      MapOfPairs(front);
    }
  }

  lemma MapGrows(order: seq<Pair>)
    requires Consistent(order) && order != []
    ensures var front, last := order[..|order| - 1], order[|order| - 1];
            && Consistent(front) && last in order && last.lid != last.phone
            && MapOf(order) == MapOf(front)[last.lid := last.phone] && Flat(MapOf(order))
            && (last.lid in MapOf(front) ==> MapOf(front)[last.lid] == last.phone)
  {
    var front, last := order[..|order| - 1], order[|order| - 1];
    assert order == front + [last];
    MapOfPairs(order);
    MapOfPairs(front);
  }

  lemma SameMap(a: seq<Pair>, b: seq<Pair>)
    requires Consistent(a) && Consistent(b) && forall x :: x in a <==> x in b
    ensures MapOf(a) == MapOf(b)
  {
    MapOfPairs(a);
    MapOfPairs(b);
  }

  lemma {:induction false} FoldKeepsValid(db: Db, s: Session, order: seq<Pair>)
    requires Valid(db) && s in db.sessions && Consistent(order)
    ensures Valid(Fold(db, s, order)) && Fold(db, s, order).sessions == db.sessions
  {
    if order != [] {
      var front, last := order[..|order| - 1], order[|order| - 1];
      MapGrows(order);
      FoldKeepsValid(db, s, front);
      MergeKeepsValid(Fold(db, s, front), s, last.lid, last.phone);
    }
  }

  /** After any fold the chat list is the original one gathered along the mappings. */
  lemma {:induction false} FoldGathers(db: Db, s: Session, order: seq<Pair>)
    requires Valid(db) && s in db.sessions && Consistent(order)
    ensures View(Fold(db, s, order).store.chats, s) == Gathered(MapOf(order), View(db.store.chats, s))
  {
    if order == [] {
      GatherNone(View(db.store.chats, s));
    } else {
      var front, last := order[..|order| - 1], order[|order| - 1];
      MapGrows(order);
      FoldKeepsValid(db, s, front);
      FoldGathers(db, s, front);
      ListMerges(Fold(db, s, front), s, last.lid, last.phone);
      GatherMore(MapOf(front), View(db.store.chats, s), last.lid, last.phone);
    }
  }

  /** Every message of `st` is still in `r`, filed under the JID its own is mapped to. */
  ghost predicate Follows(st: Store, r: Store, s: Session, m: Mapping) {
    && r.messages.Keys == st.messages.Keys
    && forall x | x in st.messages && st.messages[x].chatId in st.chats ::
         && r.messages[x].chatId in r.chats
         && r.messages[x] == st.messages[x].(chatId := r.messages[x].chatId)
         && JidOf(r, x) == if st.messages[x].session == s then Target(m, JidOf(st, x)) else JidOf(st, x)
  }

  lemma FollowsOn(st: Store, d: Store, r: Store, s: Session, m: Mapping, l: Jid, p: Jid)
    requires Follows(st, d, s, m) && Follows(d, r, s, map[l := p])
    requires Flat(m[l := p]) && (l in m ==> m[l] == p)
    ensures Follows(st, r, s, m[l := p])
  {
    var n := m[l := p];
    forall x | x in st.messages && st.messages[x].chatId in st.chats
      ensures r.messages[x].chatId in r.chats
      ensures r.messages[x] == st.messages[x].(chatId := r.messages[x].chatId)
      ensures JidOf(r, x) == if st.messages[x].session == s then Target(n, JidOf(st, x)) else JidOf(st, x)
    {
      TargetsCompose(m, l, p, JidOf(st, x));
    }
  }

  lemma TargetsCompose(m: Mapping, l: Jid, p: Jid, j: Jid)
    requires Flat(m[l := p]) && (l in m ==> m[l] == p)
    ensures Target(m[l := p], j) == Target(map[l := p], Target(m, j))
  {
    var n := m[l := p];
    assert l in n.Keys && n[l] in n.Values;
    if j in m { assert n[j] in n.Values; }
  }

  lemma FollowsOnce(db: Db, s: Session, lid: Jid, phone: Jid)
    requires Valid(db) && lid != phone && s in db.sessions
    ensures Follows(db.store, Merge(db, s, lid, phone).store, s, map[lid := phone])
  {
    MessagesFollow(db, s, lid, phone);
  }

  lemma {:induction false} FoldFollows(db: Db, s: Session, order: seq<Pair>)
    requires Valid(db) && s in db.sessions && Consistent(order)
    ensures Follows(db.store, Fold(db, s, order).store, s, MapOf(order))
  {
    if order != [] {
      var front, last := order[..|order| - 1], order[|order| - 1];
      MapGrows(order);
      FoldKeepsValid(db, s, front);
      FoldFollows(db, s, front);
      var d := Fold(db, s, front);
      FollowsOnce(d, s, last.lid, last.phone);
      FollowsOn(db.store, d.store, Fold(db, s, order).store, s, MapOf(front), last.lid, last.phone);
    }
  }

  lemma {:induction false} FoldRemoves(db: Db, s: Session, order: seq<Pair>)
    requires Valid(db) && s in db.sessions && Consistent(order)
    ensures forall a | a in order :: Gone(Fold(db, s, order), s, a.lid)
  {
    if order != [] {
      var front, last := order[..|order| - 1], order[|order| - 1];
      assert order == front + [last];
      MapGrows(order);
      FoldKeepsValid(db, s, front);
      FoldRemoves(db, s, front);
      LidIsGone(Fold(db, s, front), s, last.lid, last.phone);
    }
  }

  /** Two orders of the same mappings, repeats or not, leave the same chat list and file every message under the same
      JID: the one its own is mapped to. */
  lemma OrderIndependence(db: Db, s: Session, a: seq<Pair>, b: seq<Pair>)
    requires Valid(db) && s in db.sessions && Consistent(a) && Consistent(b)
    requires forall x :: x in a <==> x in b
    ensures View(Fold(db, s, a).store.chats, s) == View(Fold(db, s, b).store.chats, s)
              == Gathered(MapOf(a), View(db.store.chats, s))
    ensures Follows(db.store, Fold(db, s, a).store, s, MapOf(a))
    ensures Follows(db.store, Fold(db, s, b).store, s, MapOf(a))
  {
    FoldGathers(db, s, a);
    FoldGathers(db, s, b);
    FoldFollows(db, s, a);
    FoldFollows(db, s, b);
    SameMap(a, b);
  }

  /** Folding the same mappings again changes nothing in any table. */
  lemma {:induction false} SecondFoldIsIdle(db: Db, s: Session, order: seq<Pair>, again: seq<Pair>)
    requires Valid(db) && s in db.sessions && Consistent(order)
    requires forall x | x in again :: x in order
    ensures Fold(Fold(db, s, order), s, again) == Fold(db, s, order)
  {
    if again != [] {
      FoldRemoves(db, s, order);
      SecondFoldIsIdle(db, s, order, again[..|again| - 1]);
      MergeAbsent(Fold(db, s, order), s, again[|again| - 1].lid, again[|again| - 1].phone);
    }
  }
}
