/** Signal-key storage: a write-through cache with negative entries in front of the session_keys table. */
module KeyCache {
  import opened Options

  type KeyType = string
  type KeyId = string
  type Key = (KeyType, KeyId)
  type Value = string

  /** An encrypted row either opens to the value that was sealed or fails to decrypt. */
  datatype Blob = Sealed(value: Value) | Garbled

  /** A cached value, or the marker that the table has nothing to offer. */
  datatype Slot = Hit(value: Value) | Null

  type Cache = map<KeyType, map<KeyId, Slot>>
  type Table = map<Key, Blob>

  /** One entry of the data handed to `set`; None deletes. */
  datatype Change = Change(key: Key, value: Option<Value>)

  const BATCH_SIZE := 100

  // ----- the plain map the store stands for

  /** The decodable content of the table. */
  function Plain(table: Table): map<Key, Value> {
    map k | k in table && table[k].Sealed? :: table[k].value
  }

  function Answer(plain: map<Key, Value>, t: KeyType, ids: seq<KeyId>): map<KeyId, Value> {
    map id | id in ids && (t, id) in plain :: plain[(t, id)]
  }

  /** All changes at once: a key named in `data` takes the value given there, every other key keeps its own. */
  ghost predicate Updated(was: map<Key, Value>, data: seq<Change>, now: map<Key, Value>) {
    && (forall c | c in data && c.value.Some? :: c.key in now && now[c.key] == c.value.value)
    && (forall c | c in data && c.value.None? :: c.key !in now)
    && (forall k | Untouched(data, k) :: (k in now <==> k in was) && (k in was ==> now[k] == was[k]))
  }

  ghost predicate Untouched(data: seq<Change>, k: Key) {
    forall c | c in data :: c.key != k
  }

  /** The properties of a JavaScript object have distinct names. */
  ghost predicate Distinct(data: seq<Change>) {
    forall i, j | 0 <= i < j < |data| :: data[i].key != data[j].key
  }

  /** The same of the rows themselves. */
  ghost predicate Rewritten(was: Table, data: seq<Change>, now: Table) {
    && (forall c | c in data && c.value.Some? :: c.key in now && now[c.key] == Sealed(c.value.value))
    && (forall c | c in data && c.value.None? :: c.key !in now)
    && (forall k | Untouched(data, k) :: (k in now <==> k in was) && (k in was ==> now[k] == was[k]))
  }

  lemma RewrittenUpdates(was: Table, data: seq<Change>, now: Table)
    requires Rewritten(was, data, now)
    ensures Updated(Plain(was), data, Plain(now))
  {
  }

  // ----- cache operations

  function GetCache(cache: Cache, t: KeyType, id: KeyId): Option<Slot> {
    if t in cache && id in cache[t] then Some(cache[t][id]) else None
  }

  function SetCache(cache: Cache, t: KeyType, id: KeyId, slot: Slot): (r: Cache)
    ensures forall u, x :: GetCache(r, u, x) == if (u, x) == (t, id) then Some(slot) else GetCache(cache, u, x)
  {
    cache[t := (if t in cache then cache[t] else map[])[id := slot]]
  }

  function DeleteCache(cache: Cache, t: KeyType, id: KeyId): (r: Cache)
    ensures forall u, x :: GetCache(r, u, x) == if (u, x) == (t, id) then None else GetCache(cache, u, x)
  {
    if t in cache then cache[t := cache[t] - {id}] else cache
  }

  /** A cached value is the stored one, and a cached null means no decodable row. */
  ghost predicate Coherent(cache: Cache, table: Table) {
    forall t, id :: GetCache(cache, t, id).Some? ==> Agrees(GetCache(cache, t, id).value, table, (t, id))
  }

  predicate Agrees(slot: Slot, table: Table, k: Key) {
    match slot
    case Hit(v) => k in table && table[k] == Sealed(v)
    case Null => k in table ==> table[k].Garbled?
  }

  ghost predicate Cached(cache: Cache, t: KeyType, id: KeyId) {
    GetCache(cache, t, id).Some?
  }

  /** What is left of the collected entries once null markers are dropped. */
  function Values(result: map<KeyId, Slot>, ids: seq<KeyId>): map<KeyId, Value> {
    map id | id in ids && id in result && result[id].Hit? :: result[id].value
  }

  /** Entries that were all cached agree with the plain map as far as they go. */
  lemma Partial(cache: Cache, table: Table, t: KeyType, ids: seq<KeyId>, result: map<KeyId, Slot>, missing: seq<KeyId>)
    requires Coherent(cache, table)
    requires forall id | id in result :: id in ids && GetCache(cache, t, id) == Some(result[id])
    requires forall id | id in missing :: GetCache(cache, t, id) == None
    requires forall id | id in ids :: id in result || id in missing
    ensures Values(result, ids) == map id | id in ids && GetCache(cache, t, id).Some?
                                            && (t, id) in Plain(table) :: Plain(table)[(t, id)]
    ensures missing == [] ==> Values(result, ids) == Answer(Plain(table), t, ids)
  {
    forall id | id in result
      ensures Agrees(result[id], table, (t, id))
    {
    }
  }

  /** Once every entry agrees with the table and none with a decodable row is left out, they are the answer. */
  lemma Complete(table: Table, t: KeyType, ids: seq<KeyId>, result: map<KeyId, Slot>)
    requires forall id | id in result :: Agrees(result[id], table, (t, id))
    requires forall id | id in ids && (t, id) in table && table[(t, id)].Sealed? :: id in result
    ensures Values(result, ids) == Answer(Plain(table), t, ids)
  {
  }

  /** Rows after the deletes (`mid`) and the upserts. */
  lemma Settled(was: Table, data: seq<Change>, mid: Table, now: Table,
                deletes: map<KeyType, set<KeyId>>, upserts: seq<(Key, Blob)>)
    requires Distinct(data)
    requires forall t, id :: (t in deletes && id in deletes[t]) <==> Change((t, id), None) in data
    requires forall u :: u in upserts <==> u.1.Sealed? && Change(u.0, Some(u.1.value)) in data
    requires mid == map k | k in was && !(k.0 in deletes && k.1 in deletes[k.0]) :: was[k]
    requires forall u | u in upserts :: u.0 in now && now[u.0] == u.1
    requires forall k | (forall u | u in upserts :: u.0 != k) ::
               (k in now <==> k in mid) && (k in now ==> now[k] == mid[k])
    ensures Rewritten(was, data, now)
  {
    forall c | c in data && c.value.Some?
      ensures c.key in now && now[c.key] == Sealed(c.value.value)
    {
      assert (c.key, Sealed(c.value.value)) in upserts;
    }
    forall c | c in data && c.value.None?
      ensures c.key !in now
    {
      assert c == Change((c.key.0, c.key.1), None);
      assert c.key !in mid;
      forall u | u in upserts
        ensures u.0 != c.key
      {
        assert Change(u.0, Some(u.1.value)) in data;
      }
    }
    forall k | Untouched(data, k)
      ensures (k in now <==> k in was) && (k in was ==> now[k] == was[k])
    {
      assert k == (k.0, k.1);
      assert Change(k, None) !in data;
      forall u | u in upserts
        ensures u.0 != k
      {
        assert Change(u.0, Some(u.1.value)) in data;
      }
    }
  }

  lemma StaysCoherent(was: Cache, cache: Cache, before: Table, data: seq<Change>, table: Table)
    requires Coherent(was, before) && Rewritten(before, data, table)
    requires forall t, id | Untouched(data, (t, id)) :: GetCache(cache, t, id) == GetCache(was, t, id)
    requires forall c | c in data :: GetCache(cache, c.key.0, c.key.1) ==
                                     if c.value.Some? then Some(Hit(c.value.value)) else None
    ensures Coherent(cache, table)
  {
    forall t, id | GetCache(cache, t, id).Some?
      ensures Agrees(GetCache(cache, t, id).value, table, (t, id))
    {
      if Untouched(data, (t, id)) {
        assert Agrees(GetCache(was, t, id).value, before, (t, id));
      } else {
        var c :| c in data && c.key == (t, id);
      }
    }
  }

  class KeyStore {
    var keysCache: Cache
    var table: Table

    constructor (rows: Table)
      ensures table == rows && Coherent(keysCache, table)
    {
      keysCache, table := map[], rows;
    }

    /** Split the ids asked for into cached entries and ids still to be looked up. */
    method Lookup(t: KeyType, ids: seq<KeyId>) returns (result: map<KeyId, Slot>, missing: seq<KeyId>)
      ensures forall id | id in result :: id in ids && GetCache(keysCache, t, id) == Some(result[id])
      ensures forall id | id in missing :: id in ids && GetCache(keysCache, t, id) == None
      ensures forall id | id in ids :: id in result || id in missing
    {
      result, missing := map[], [];
      for i := 0 to |ids|
        invariant forall id | id in result :: id in ids && GetCache(keysCache, t, id) == Some(result[id])
        invariant forall id | id in missing :: id in ids && GetCache(keysCache, t, id) == None
        invariant forall id | id in ids[..i] :: id in result || id in missing
      {
        var cached := GetCache(keysCache, t, ids[i]);
        if cached.Some? {
          result := result[ids[i] := cached.value];
        } else {
          missing := missing + [ids[i]];
        }
        assert ids[..i + 1] == ids[..i] + [ids[i]];
      }
      assert ids[..|ids|] == ids;
    }

    /** Read the rows of the missing ids: decodable ones go to the result and the cache. */
    method ReadRows(t: KeyType, missing: seq<KeyId>, result0: map<KeyId, Slot>) returns (result: map<KeyId, Slot>)
      requires Coherent(keysCache, table)
      modifies this`keysCache
      ensures Coherent(keysCache, table)
      ensures forall id | id in result :: (id in result0 && result[id] == result0[id]) ||
                                          (id in missing && (t, id) in table && table[(t, id)].Sealed?
                                           && result[id] == Hit(table[(t, id)].value))
      ensures forall id | id in result0 && id !in missing :: id in result
      ensures forall id | id in missing && (t, id) in table && table[(t, id)].Sealed? ::
                id in result && result[id] == Hit(table[(t, id)].value)
      ensures forall u, id | old(Cached(keysCache, u, id)) :: Cached(keysCache, u, id)
      ensures forall id | id in result && id !in result0 :: Cached(keysCache, t, id)
    {
      result := result0;
      var rows := set id | id in missing && (t, id) in table;
      ghost var all := rows;
      while rows != {}
        invariant rows <= all
        invariant Coherent(keysCache, table)
        invariant forall id | id in result :: (id in result0 && result[id] == result0[id]) ||
                                              (id in missing && (t, id) in table && table[(t, id)].Sealed?
                                               && result[id] == Hit(table[(t, id)].value))
        invariant forall id | id in result0 && id !in missing :: id in result
        invariant forall id | id in all - rows && table[(t, id)].Sealed? ::
                    id in result && result[id] == Hit(table[(t, id)].value)
        invariant forall u, id | old(Cached(keysCache, u, id)) :: Cached(keysCache, u, id)
        invariant forall id | id in result && id !in result0 :: Cached(keysCache, t, id)
        decreases |rows|
      {
        var id :| id in rows;
        rows := rows - {id};
        if table[(t, id)].Sealed? {
          var value := table[(t, id)].value;
          result := result[id := Hit(value)];
          keysCache := SetCache(keysCache, t, id, Hit(value));
        }
      }
    }

    /** Remember that the ids without a decodable row have none. */
    method MarkMissing(t: KeyType, missing: seq<KeyId>, result: map<KeyId, Slot>)
      requires Coherent(keysCache, table)
      requires forall id | id in missing && id !in result :: (t, id) in table ==> table[(t, id)].Garbled?
      modifies this`keysCache
      ensures Coherent(keysCache, table)
      ensures forall u, id | old(Cached(keysCache, u, id)) :: Cached(keysCache, u, id)
      ensures forall id | id in missing && id !in result :: Cached(keysCache, t, id)
    {
      for i := 0 to |missing|
        invariant Coherent(keysCache, table)
        invariant forall u, id | old(Cached(keysCache, u, id)) :: Cached(keysCache, u, id)
        invariant forall k | 0 <= k < i && missing[k] !in result :: Cached(keysCache, t, missing[k])
      {
        if missing[i] !in result {
          keysCache := SetCache(keysCache, t, missing[i], Null);
        }
      }
    }

    /** The answer is the plain map's, and no id asked for needs the table again; if the query fails the answer is the
        part of it that was cached. */
    method Get(t: KeyType, ids: seq<KeyId>, queryFails: bool) returns (r: map<KeyId, Value>)
      requires Coherent(keysCache, table)
      modifies this`keysCache
      ensures Coherent(keysCache, table)
      ensures !queryFails ==> r == Answer(Plain(table), t, ids) && forall id | id in ids :: Cached(keysCache, t, id)
      ensures !queryFails ==> forall id :: id in r <==> id in ids && (t, id) in table && table[(t, id)].Sealed?
      ensures forall id | id in r :: (t, id) in table && table[(t, id)] == Sealed(r[id])
      ensures queryFails ==> r == map id | id in ids && old(GetCache(keysCache, t, id)).Some?
                                           && (t, id) in Plain(table) :: Plain(table)[(t, id)]
    {
      var result, missing := Lookup(t, ids);
      if missing != [] && !queryFails {
        result := ReadRows(t, missing, result);
        MarkMissing(t, missing, result);
      }
      if queryFails || missing == [] {
        Partial(keysCache, table, t, ids, result, missing);
      } else {
        Complete(table, t, ids, result);
      }
      r := Values(result, ids);
    }

    /** First half of `set`: update the cache and sort the changes into deletes and upserts. */
    method Collect(data: seq<Change>) returns (deletes: map<KeyType, set<KeyId>>, upserts: seq<(Key, Blob)>)
      requires Distinct(data)
      modifies this`keysCache
      ensures forall t, id :: (t in deletes && id in deletes[t]) <==> Change((t, id), None) in data
      ensures forall u :: u in upserts <==> u.1.Sealed? && Change(u.0, Some(u.1.value)) in data
      ensures forall i, j | 0 <= i < j < |upserts| :: upserts[i].0 != upserts[j].0
      ensures forall t, id | Untouched(data, (t, id)) :: GetCache(keysCache, t, id) == old(GetCache(keysCache, t, id))
      ensures forall c | c in data :: GetCache(keysCache, c.key.0, c.key.1) ==
                                      if c.value.Some? then Some(Hit(c.value.value)) else None
    {
      deletes, upserts := map[], [];
      for i := 0 to |data|
        invariant forall t, id :: (t in deletes && id in deletes[t]) <==> Change((t, id), None) in data[..i]
        invariant forall u :: u in upserts <==> u.1.Sealed? && Change(u.0, Some(u.1.value)) in data[..i]
        invariant forall a, b | 0 <= a < b < |upserts| :: upserts[a].0 != upserts[b].0
        invariant forall t, id | Untouched(data[..i], (t, id)) ::
                    GetCache(keysCache, t, id) == old(GetCache(keysCache, t, id))
        invariant forall c | c in data[..i] :: GetCache(keysCache, c.key.0, c.key.1) ==
                                               if c.value.Some? then Some(Hit(c.value.value)) else None
      {
        var c := data[i];
        var (t, id) := c.key;
        assert data[..i + 1] == data[..i] + [c];
        assert forall d | d in data[..i] :: d.key != c.key;
        if c.value.None? {
          keysCache := DeleteCache(keysCache, t, id);
          deletes := deletes[t := (if t in deletes then deletes[t] else {}) + {id}];
        } else {
          keysCache := SetCache(keysCache, t, id, Hit(c.value.value));
          upserts := upserts + [(c.key, Sealed(c.value.value))];
        }
      }
      assert data[..|data|] == data;
    }

    /** DELETE per key type. */
    method DeleteAll(deletes: map<KeyType, set<KeyId>>)
      modifies this`table
      ensures table == map k | k in old(table) && !(k.0 in deletes && k.1 in deletes[k.0]) :: old(table)[k]
    {
      var types := deletes.Keys;
      while types != {}
        invariant types <= deletes.Keys
        invariant table == map k | k in old(table) && !(k.0 in deletes.Keys - types && k.1 in deletes[k.0]) ::
                             old(table)[k]
        decreases |types|
      {
        var t :| t in types;
        types := types - {t};
        table := map k | k in table && !(k.0 == t && k.1 in deletes[t]) :: table[k];
      }
    }

    /** INSERT ... ON CONFLICT DO UPDATE in batches. */
    method UpsertAll(upserts: seq<(Key, Blob)>)
      requires forall i, j | 0 <= i < j < |upserts| :: upserts[i].0 != upserts[j].0
      modifies this`table
      ensures forall u | u in upserts :: u.0 in table && table[u.0] == u.1
      ensures forall k | (forall u | u in upserts :: u.0 != k) ::
                (k in table <==> k in old(table)) && (k in table ==> table[k] == old(table)[k])
    {
      var i := 0;
      while i < |upserts|
        invariant 0 <= i
        invariant var n := if i < |upserts| then i else |upserts|;
                  && (forall j | 0 <= j < n :: upserts[j].0 in table && table[upserts[j].0] == upserts[j].1)
                  && (forall k | (forall j | 0 <= j < n :: upserts[j].0 != k) ::
                        (k in table <==> k in old(table)) && (k in table ==> table[k] == old(table)[k]))
      {
        var end := if i + BATCH_SIZE < |upserts| then i + BATCH_SIZE else |upserts|;
        UpsertBatch(upserts, i, end);
        i := i + BATCH_SIZE;
      }
    }

    /** One statement: the rows of one batch, each replacing a row with the same key. */
    method UpsertBatch(upserts: seq<(Key, Blob)>, from: nat, end: nat)
      requires from <= end <= |upserts|
      requires forall i, j | 0 <= i < j < |upserts| :: upserts[i].0 != upserts[j].0
      modifies this`table
      ensures forall j | from <= j < end :: upserts[j].0 in table && table[upserts[j].0] == upserts[j].1
      ensures forall k | (forall j | from <= j < end :: upserts[j].0 != k) ::
                (k in table <==> k in old(table)) && (k in table ==> table[k] == old(table)[k])
    {
      for i := from to end
        invariant forall j | from <= j < i :: upserts[j].0 in table && table[upserts[j].0] == upserts[j].1
        invariant forall k | (forall j | from <= j < i :: upserts[j].0 != k) ::
                    (k in table <==> k in old(table)) && (k in table ==> table[k] == old(table)[k])
      {
        table := table[upserts[i].0 := upserts[i].1];
      }
    }

    /** Deletes by type, then upserts in batches, come to one simultaneous update of the plain map; what was written
        can be read from the cache at once. */
    method Set(data: seq<Change>)
      requires Distinct(data) && Coherent(keysCache, table)
      modifies this
      ensures Coherent(keysCache, table)
      ensures Updated(old(Plain(table)), data, Plain(table))
      ensures forall c | c in data ::
                if c.value.Some? then c.key in table && table[c.key] == Sealed(c.value.value) else c.key !in table
      ensures forall k | (forall c | c in data :: c.key != k) ::
                (k in table <==> k in old(table)) && (k in table ==> table[k] == old(table)[k])
      ensures forall c | c in data && c.value.Some? ::
                GetCache(keysCache, c.key.0, c.key.1) == Some(Hit(c.value.value))
    {
      var deletes, upserts := Collect(data);
      DeleteAll(deletes);
      ghost var mid := table;
      UpsertAll(upserts);
      Settled(old(table), data, mid, table, deletes, upserts);
      RewrittenUpdates(old(table), data, table);
      StaysCoherent(old(keysCache), keysCache, old(table), data, table);
    }
  }

  // ----- any sequence of calls

  datatype Call = GetCall(t: KeyType, ids: seq<KeyId>) | SetCall(data: seq<Change>)

  /** The reference: a plain map that is read and updated directly. */
  function Overwrite(plain: map<Key, Value>, data: seq<Change>): map<Key, Value> {
    if data == [] then plain
    else
      var c := data[|data| - 1];
      var rest := Overwrite(plain, data[..|data| - 1]);
      if c.value.Some? then rest[c.key := c.value.value] else rest - {c.key}
  }

  function Answers(plain: map<Key, Value>, calls: seq<Call>): seq<map<KeyId, Value>>
    decreases |calls|
  {
    if calls == [] then []
    else match calls[0]
      case GetCall(t, ids) => [Answer(plain, t, ids)] + Answers(plain, calls[1..])
      case SetCall(data) => Answers(Overwrite(plain, data), calls[1..])
  }

  lemma {:induction false} OverwriteUpdates(plain: map<Key, Value>, data: seq<Change>)
    requires Distinct(data)
    ensures Updated(plain, data, Overwrite(plain, data))
  {
    if data != [] {
      var front, c := data[..|data| - 1], data[|data| - 1];
      assert data == front + [c];
      OverwriteUpdates(plain, front);
      UpdatesOne(plain, front, c, Overwrite(plain, front));
    }
  }

  lemma UpdatesOne(was: map<Key, Value>, front: seq<Change>, c: Change, mid: map<Key, Value>)
    requires Updated(was, front, mid) && Untouched(front, c.key)
    ensures Updated(was, front + [c], if c.value.Some? then mid[c.key := c.value.value] else mid - {c.key})
  {
    var data := front + [c];
    forall k | Untouched(data, k)
      ensures Untouched(front, k) && k != c.key
    {
      assert c in data && forall d | d in front :: d in data;
    }
  }

  lemma UpdatedOneWay(plain: map<Key, Value>, data: seq<Change>, a: map<Key, Value>, b: map<Key, Value>)
    requires Updated(plain, data, a) && Updated(plain, data, b)
    ensures a == b
  {
    forall k
      ensures (k in a <==> k in b) && (k in a ==> a[k] == b[k])
    {
      if !Untouched(data, k) {
        var c :| c in data && c.key == k;
      }
    }
  }

  /** With these answers given and `plain` left, the remaining calls complete the answers of the reference. */
  ghost predicate OnTrack(
    all: seq<map<KeyId, Value>>, answers: seq<map<KeyId, Value>>, plain: map<Key, Value>, rest: seq<Call>)
  {
    answers + Answers(plain, rest) == all
  }

  lemma StaysOnTrack(
    all: seq<map<KeyId, Value>>, answers: seq<map<KeyId, Value>>, plain: map<Key, Value>, rest: seq<Call>)
    requires rest != [] && OnTrack(all, answers, plain, rest)
    ensures rest[0].GetCall? ==> OnTrack(all, answers + [Answer(plain, rest[0].t, rest[0].ids)], plain, rest[1..])
    ensures rest[0].SetCall? ==> OnTrack(all, answers, Overwrite(plain, rest[0].data), rest[1..])
  {
  }

  /** One call, answered as the plain map answers it. */
  method Serve(store: KeyStore, c: Call) returns (answer: seq<map<KeyId, Value>>)
    requires Coherent(store.keysCache, store.table)
    requires c.SetCall? ==> Distinct(c.data)
    modifies store
    ensures Coherent(store.keysCache, store.table)
    ensures c.GetCall? ==>
              answer == [Answer(Plain(old(store.table)), c.t, c.ids)] && Plain(store.table) == Plain(old(store.table))
    ensures c.SetCall? ==> answer == [] && Plain(store.table) == Overwrite(Plain(old(store.table)), c.data)
  {
    match c
    case GetCall(t, ids) =>
      var r := store.Get(t, ids, false);
      answer := [r];
    case SetCall(data) =>
      ghost var plain := Plain(store.table);
      store.Set(data);
      answer := [];
      OverwriteUpdates(plain, data);
      UpdatedOneWay(plain, data, Plain(store.table), Overwrite(plain, data));
  }

  /** A fresh store over any table answers every sequence of calls as the plain map does. */
  method Replay(rows: Table, calls: seq<Call>) returns (answers: seq<map<KeyId, Value>>)
    requires forall c | c in calls && c.SetCall? :: Distinct(c.data)
    ensures answers == Answers(Plain(rows), calls)
  {
    var store := new KeyStore(rows);
    answers := [];
    ghost var all := Answers(Plain(rows), calls);
    var i := 0;
    assert calls[0..] == calls;
    while i < |calls|
      invariant 0 <= i <= |calls|
      invariant Coherent(store.keysCache, store.table)
      invariant OnTrack(all, answers, Plain(store.table), calls[i..])
    {
      var c := calls[i];
      assert c in calls && calls[i..][0] == c && calls[i..][1..] == calls[i + 1..];
      StaysOnTrack(all, answers, Plain(store.table), calls[i..]);
      var answer := Serve(store, c);
      answers := answers + answer;
      i := i + 1;
    }
  }
}
