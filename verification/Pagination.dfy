/** Keyset pagination of a chat's messages on (created_at desc, id desc). */
module Pagination {
  import opened Options

  /** Position of a row in the order: creation time in microseconds, then id. */
  datatype Pos = Pos(at: int, id: nat)

  /** `shown`: not a reaction and not deleted. */
  datatype Row = Row(at: int, shown: bool)

  /** One chat's rows by id. */
  type Table = map<nat, Row>

  datatype Page = Page(rows: seq<Pos>, next: Option<Pos>, hasMore: bool)

  predicate Less(a: Pos, b: Pos) {
    a.at < b.at || (a.at == b.at && a.id < b.id)
  }

  /** Date.toISOString keeps milliseconds. */
  function Truncate(at: int): int {
    at - at % 1000
  }

  function Eligible(t: Table): set<Pos> {
    set id | id in t && t[id].shown :: Pos(t[id].at, id)
  }

  /** WHERE (created_at, id) < cursor */
  function Below(s: set<Pos>, cursor: Option<Pos>): set<Pos> {
    if cursor.None? then s else set p | p in s && Less(p, cursor.value)
  }

  ghost predicate IsGreatest(s: set<Pos>, m: Pos) {
    m in s && forall p | p in s && p != m :: Less(p, m)
  }

  ghost function Greatest(s: set<Pos>): (m: Pos)
    requires s != {}
    ensures IsGreatest(s, m)
  {
    GreatestExists(s);
    var m :| IsGreatest(s, m);
    m
  }

  lemma {:induction false} GreatestExists(s: set<Pos>)
    requires s != {}
    ensures exists m :: IsGreatest(s, m)
    decreases |s|
  {
    var q :| q in s;
    var rest := s - {q};
    if rest == {} {
      assert forall p | p in s && p != q :: p in rest;
      assert IsGreatest(s, q);
    } else {
      GreatestExists(rest);
      var m :| IsGreatest(rest, m);
      GreatestOfTwo(s, q, m);
    }
  }

  lemma GreatestOfTwo(s: set<Pos>, q: Pos, m: Pos)
    requires q in s && IsGreatest(s - {q}, m)
    ensures IsGreatest(s, if Less(m, q) then q else m)
  {
    var top := if Less(m, q) then q else m;
    forall p | p in s && p != top
      ensures Less(p, top)
    {
      assert p == q || p in s - {q};
    }
  }

  /** ORDER BY created_at DESC, id DESC LIMIT n */
  ghost function Top(s: set<Pos>, n: nat): seq<Pos>
    decreases n
  {
    if n == 0 || s == {} then [] else [Greatest(s)] + Top(s - {Greatest(s)}, n - 1)
  }

  function Cap(asked: nat): nat {
    if asked < 100 then asked else 100
  }

  /** getMessages */
  ghost function GetMessages(t: Table, cursor: Option<Pos>, asked: nat): Page {
    var limit := Cap(asked);
    var rows := Top(Below(Eligible(t), cursor), limit + 1);
    var hasMore := |rows| > limit;
    var shown := if hasMore then rows[..limit] else rows;
    var next := if hasMore && |shown| > 0
                then Some(Pos(Truncate(shown[|shown| - 1].at), shown[|shown| - 1].id)) else None;
    Page(shown, next, hasMore)
  }

  // ----- how rows are written

  /** What happens to the rows of a chat.  Times come from JavaScript dates, which count milliseconds. */
  datatype Change =
    | Upsert(id: nat, millis: int, visible: bool)   // a known row keeps its time
    | Import(batch: seq<(nat, int)>)                // insert if absent
    | Hide(id: nat)                                 // deleted_at is set
    | Remove(id: nat)

  const MICROS := 1000

  function InsertedIfAbsent(t: Table, batch: seq<(nat, int)>): Table {
    if batch == [] then t
    else
      var r, (id, millis) := InsertedIfAbsent(t, batch[..|batch| - 1]), batch[|batch| - 1];
      if id in r then r else r[id := Row(millis * MICROS, true)]
  }

  function Apply(t: Table, c: Change): Table {
    match c
    case Upsert(id, millis, visible) =>
      t[id := Row(if id in t then t[id].at else millis * MICROS, visible)]
    case Import(batch) => InsertedIfAbsent(t, batch)
    case Hide(id) => if id in t then t[id := t[id].(shown := false)] else t
    case Remove(id) => t - {id}
  }

  function After(history: seq<Change>): Table {
    if history == [] then map[] else Apply(After(history[..|history| - 1]), history[|history| - 1])
  }

  /** What one change does to one row. */
  lemma RowAfter(t: Table, c: Change, id: nat)
    ensures match c
            case Upsert(k, millis, visible) =>
              if k != id then SameRow(t, Apply(t, c), id)
              else id in Apply(t, c)
                   && Apply(t, c)[id] == Row(if id in t then t[id].at else millis * 1000, visible)
            case Import(_) => id in t ==> SameRow(t, Apply(t, c), id)
            case Hide(k) =>
              if k != id then SameRow(t, Apply(t, c), id)
              else id in t ==> id in Apply(t, c) && Apply(t, c)[id] == Row(t[id].at, false)
            case Remove(k) => if k != id then SameRow(t, Apply(t, c), id) else id !in Apply(t, c)
  {
    if c.Import? && id in t { ImportKeepsRows(t, c.batch, id); }
  }

  predicate SameRow(t: Table, u: Table, id: nat) {
    (id in t <==> id in u) && (id in t ==> u[id] == t[id])
  }

  lemma {:induction false} ImportKeepsRows(t: Table, batch: seq<(nat, int)>, id: nat)
    requires id in t
    ensures SameRow(t, InsertedIfAbsent(t, batch), id)
  {
    if batch != [] {
      ImportKeepsRows(t, batch[..|batch| - 1], id);
    }
  }

  /** An imported row is visible and has the time it came with. */
  lemma {:induction false} ImportedRow(t: Table, batch: seq<(nat, int)>, id: nat)
    requires id !in t
    ensures id in InsertedIfAbsent(t, batch) ==>
              exists i :: 0 <= i < |batch| && batch[i].0 == id
                          && InsertedIfAbsent(t, batch)[id] == Row(batch[i].1 * 1000, true)
  {
    if batch != [] {
      var front, last := batch[..|batch| - 1], |batch| - 1;
      ImportedRow(t, front, id);
      if id in InsertedIfAbsent(t, front) {
        var i :| 0 <= i < |front| && front[i].0 == id
                 && InsertedIfAbsent(t, front)[id] == Row(front[i].1 * 1000, true);
        assert batch[i] == front[i];
      } else if batch[last].0 == id {
        assert InsertedIfAbsent(t, batch)[id] == Row(batch[last].1 * 1000, true);
      }
    }
  }

  /** A table the program has written. */
  ghost predicate Written(t: Table) {
    exists history :: After(history) == t
  }

  lemma {:induction false} ImportIsWhole(t: Table, batch: seq<(nat, int)>)
    requires Milliseconds(t)
    ensures Milliseconds(InsertedIfAbsent(t, batch))
  {
    if batch != [] {
      ImportIsWhole(t, batch[..|batch| - 1]);
    }
  }

  lemma {:induction false} HistoryIsWhole(history: seq<Change>)
    ensures Milliseconds(After(history))
  {
    if history != [] {
      HistoryIsWhole(history[..|history| - 1]);
      var c := history[|history| - 1];
      if c.Import? { ImportIsWhole(After(history[..|history| - 1]), c.batch); }
    }
  }

  /** Both ways of inserting keep every creation time a whole number of milliseconds. */
  lemma WrittenIsWhole(t: Table)
    requires Written(t)
    ensures Milliseconds(t)
  {
    var history :| After(history) == t;
    HistoryIsWhole(history);
  }

  ghost predicate Milliseconds(t: Table) {
    forall id | id in t :: t[id].at % MICROS == 0
  }

  // ----- one page

  ghost predicate Descending(q: seq<Pos>) {
    forall i, j | 0 <= i < j < |q| :: Less(q[j], q[i])
  }

  lemma {:induction false} TopIs(s: set<Pos>, n: nat)
    ensures |Top(s, n)| == if n < |s| then n else |s|
    ensures Descending(Top(s, n))
    ensures forall p | p in Top(s, n) :: p in s
    ensures forall p, q | p in s && p !in Top(s, n) && q in Top(s, n) :: Less(p, q)
    decreases n
  {
    if n > 0 && s != {} {
      var m, rest := Greatest(s), Top(s - {Greatest(s)}, n - 1);
      TopIs(s - {m}, n - 1);
      forall i, j | 0 <= i < j < |Top(s, n)|
        ensures Less(Top(s, n)[j], Top(s, n)[i])
      {
        assert rest[j - 1] in rest;
      }
    }
  }

  lemma {:induction false} TopPrefix(s: set<Pos>, n: nat)
    ensures n < |s| ==> |Top(s, n + 1)| == n + 1 && Top(s, n + 1)[..n] == Top(s, n)
    decreases n
  {
    TopIs(s, n + 1);
    if n > 0 && s != {} {
      var m := Greatest(s);
      TopPrefix(s - {m}, n - 1);
      if n < |s| {
        assert Top(s, n + 1)[..n] == [m] + Top(s - {m}, n)[..n - 1];
      }
    }
  }

  /** A page holds the greatest rows below the cursor, as many as asked for; hasMore tells exactly whether one is left
      out. */
  lemma PageIs(t: Table, cursor: Option<Pos>, asked: nat)
    requires asked >= 1
    ensures var page, s := GetMessages(t, cursor, asked), Below(Eligible(t), cursor);
            && page.rows == Top(s, Cap(asked))
            && Descending(page.rows)
            && (forall p | p in page.rows :: p in s)
            && (forall p, q | p in s && p !in page.rows && q in page.rows :: Less(p, q))
            && (page.hasMore <==> exists p :: p in s && p !in page.rows)
            && (page.next.Some? <==> page.hasMore)
            && (page.hasMore ==> |page.rows| == Cap(asked))
  {
    var s, n := Below(Eligible(t), cursor), Cap(asked);
    TopIs(s, n + 1);
    TopIs(s, n);
    TopPrefix(s, n);
    var page := GetMessages(t, cursor, asked);
    if page.hasMore {
      assert page.rows == Top(s, n);
      var p := Top(s, n + 1)[n];
      assert p in s && p !in page.rows;
    } else {
      AllOf(s, n);
      AllOf(s, n + 1);
    }
  }

  /** The same in terms of the rows: a page shows visible rows beyond the cursor, newest first and by descending id at
      one instant, leaves out only older ones, and is cut off at what was asked for and at 100. */
  lemma PageShows(t: Table, cursor: Option<Pos>, asked: nat)
    requires asked >= 1
    ensures var page := GetMessages(t, cursor, asked);
            && (forall p | p in page.rows :: p.id in t && t[p.id].shown && t[p.id].at == p.at)
            && (forall p | p in page.rows && cursor.Some? ::
                  p.at < cursor.value.at || (p.at == cursor.value.at && p.id < cursor.value.id))
            && (forall i, j | 0 <= i < j < |page.rows| ::
                  page.rows[i].at > page.rows[j].at
                  || (page.rows[i].at == page.rows[j].at && page.rows[i].id > page.rows[j].id))
            && |page.rows| <= asked && |page.rows| <= 100
            && (page.hasMore ==> |page.rows| == asked || |page.rows| == 100)
  {
    PageIs(t, cursor, asked);
  }

  /** A visible row beyond the cursor that is not on the page is older than all on it, and then there is more. */
  lemma PageLeavesOut(t: Table, cursor: Option<Pos>, asked: nat, id: nat)
    requires asked >= 1 && id in t && t[id].shown && Pos(t[id].at, id) !in GetMessages(t, cursor, asked).rows
    requires cursor.Some? ==>
               t[id].at < cursor.value.at || (t[id].at == cursor.value.at && id < cursor.value.id)
    ensures var page := GetMessages(t, cursor, asked);
            && page.hasMore && page.rows != []
            && forall q | q in page.rows :: t[id].at < q.at || (t[id].at == q.at && id < q.id)
  {
    PageIs(t, cursor, asked);
    assert Pos(t[id].at, id) in Below(Eligible(t), cursor);
  }

  /** The next page starts below the last row shown, to the millisecond. */
  lemma NextIsLastRow(t: Table, cursor: Option<Pos>, asked: nat)
    requires asked >= 1
    ensures var page := GetMessages(t, cursor, asked);
            && (page.next.Some? <==> page.hasMore)
            && (page.hasMore ==>
                  && page.rows != []
                  && page.next.value.id == page.rows[|page.rows| - 1].id
                  && page.next.value.at % 1000 == 0
                  && page.next.value.at <= page.rows[|page.rows| - 1].at < page.next.value.at + 1000)
  {
    PageIs(t, cursor, asked);
  }

  /** With room for all, all are there, in one order. */
  lemma {:induction false} AllOf(s: set<Pos>, n: nat)
    requires |s| <= n
    ensures Top(s, n) == Top(s, |s|)
    ensures forall p | p in s :: p in Top(s, n)
    decreases n
  {
    if s != {} {
      AllOf(s - {Greatest(s)}, n - 1);
    }
  }

  // ----- following the cursor

  /** The rows a client collects when page k is read from `tables[k]` and the last table is the last page's. */
  ghost function Walk(tables: seq<Table>, cursor: Option<Pos>, asked: nat): seq<Pos> {
    if tables == [] then []
    else
      var page := GetMessages(tables[0], cursor, asked);
      page.rows + (if page.next.Some? then Walk(tables[1..], page.next, asked) else [])
  }

  ghost predicate Finished(tables: seq<Table>, cursor: Option<Pos>, asked: nat) {
    tables != [] &&
    var page := GetMessages(tables[0], cursor, asked);
    if page.next.Some? then Finished(tables[1..], page.next, asked) else |tables| == 1
  }

  /** A row is in the table from the first page to the last. */
  ghost predicate Throughout(tables: seq<Table>, p: Pos) {
    forall t | t in tables :: p in Eligible(t)
  }

  /** The cursor a page of whole milliseconds hands out is the position of its last row. */
  lemma CursorIsLast(t: Table, cursor: Option<Pos>, asked: nat)
    requires asked >= 1 && Milliseconds(t) && GetMessages(t, cursor, asked).next.Some?
    ensures var page := GetMessages(t, cursor, asked);
            page.rows != [] && page.next == Some(page.rows[|page.rows| - 1])
  {
    PageIs(t, cursor, asked);
    var page := GetMessages(t, cursor, asked);
    var last := page.rows[|page.rows| - 1];
    assert last in page.rows;
    var id :| id in t && t[id].shown && Pos(t[id].at, id) == last;
  }

  lemma {:induction false} WalkIs(tables: seq<Table>, cursor: Option<Pos>, asked: nat)
    requires asked >= 1 && forall t | t in tables :: Milliseconds(t)
    ensures Descending(Walk(tables, cursor, asked))
    ensures forall p | p in Walk(tables, cursor, asked) ::
              (cursor.None? || Less(p, cursor.value)) && exists t :: t in tables && p in Eligible(t)
    ensures Finished(tables, cursor, asked) ==>
              forall p | Throughout(tables, p) && (cursor.None? || Less(p, cursor.value)) ::
                p in Walk(tables, cursor, asked)
  {
    if tables != [] {
      var page := GetMessages(tables[0], cursor, asked);
      PageIs(tables[0], cursor, asked);
      assert tables[0] in tables;
      if page.next.Some? {
        CursorIsLast(tables[0], cursor, asked);
        WalkIs(tables[1..], page.next, asked);
        Joins(page.rows, Walk(tables[1..], page.next, asked));
      }
      forall p | Finished(tables, cursor, asked) && Throughout(tables, p) && (cursor.None? || Less(p, cursor.value))
        ensures p in Walk(tables, cursor, asked)
      {
        assert p in Below(Eligible(tables[0]), cursor);
        if p !in page.rows {
          assert page.hasMore && Less(p, page.rows[|page.rows| - 1]);
          assert Throughout(tables[1..], p);
        }
      }
      forall p | p in Walk(tables, cursor, asked)
        ensures (cursor.None? || Less(p, cursor.value)) && exists t :: t in tables && p in Eligible(t)
      {
        if p in page.rows {
          assert p in Eligible(tables[0]);
        } else {
          var t :| t in tables[1..] && p in Eligible(t);
          assert page.rows[|page.rows| - 1] in Below(Eligible(tables[0]), cursor);
        }
      }
    }
  }

  /** A page followed by rows below its last is in order. */
  lemma Joins(a: seq<Pos>, b: seq<Pos>)
    requires a != [] && Descending(a) && Descending(b)
    requires forall p | p in b :: Less(p, a[|a| - 1])
    ensures Descending(a + b)
  {
    forall i, j | 0 <= i < j < |a + b|
      ensures Less((a + b)[j], (a + b)[i])
    {
      if i < |a| <= j {
        assert b[j - |a|] in b;
      }
    }
  }

  /** Following nextCursor to its end yields every row that was there throughout exactly once, in strictly descending
      order, whatever else is inserted or deleted between pages. */
  lemma PagingIsExact(tables: seq<Table>, asked: nat, p: Pos)
    requires asked >= 1 && Finished(tables, None, asked) && forall t | t in tables :: Written(t)
    ensures Descending(Walk(tables, None, asked))
    ensures Throughout(tables, p) ==> p in Walk(tables, None, asked)
    ensures forall i, j | 0 <= i < j < |Walk(tables, None, asked)| ::
              Walk(tables, None, asked)[i] != Walk(tables, None, asked)[j]
    ensures forall q | q in Walk(tables, None, asked) :: exists t :: t in tables && q in Eligible(t)
  {
    forall t | t in tables
      ensures Milliseconds(t)
    {
      WrittenIsWhole(t);
    }
    WalkIs(tables, None, asked);
  }

  // ----- a table that does not change

  function Repeat(t: Table, n: nat): (r: seq<Table>)
    ensures |r| == n && forall x | x in r :: x == t
  {
    seq(n, _ => t)
  }

  /** Each further page starts with fewer rows below its cursor. */
  lemma CursorAdvances(t: Table, cursor: Option<Pos>, asked: nat)
    requires asked >= 1 && Milliseconds(t) && GetMessages(t, cursor, asked).next.Some?
    ensures |Below(Eligible(t), GetMessages(t, cursor, asked).next)| < |Below(Eligible(t), cursor)|
  {
    PageIs(t, cursor, asked);
    CursorIsLast(t, cursor, asked);
    var page := GetMessages(t, cursor, asked);
    var last := page.rows[|page.rows| - 1];
    var a, b := Below(Eligible(t), page.next), Below(Eligible(t), cursor);
    assert last in b && last !in a;
    assert a <= b - {last};
    Smaller(a, b - {last});
  }

  lemma {:induction false} Smaller(a: set<Pos>, b: set<Pos>)
    requires a <= b
    ensures |a| <= |b|
  {
    assert b == a + (b - a);
  }

  lemma {:induction false} WalkEnds(t: Table, cursor: Option<Pos>, asked: nat) returns (n: nat)
    requires asked >= 1 && Milliseconds(t)
    ensures n >= 1 && Finished(Repeat(t, n), cursor, asked)
    decreases |Below(Eligible(t), cursor)|
  {
    var page := GetMessages(t, cursor, asked);
    n := 1;
    if page.next.Some? {
      CursorAdvances(t, cursor, asked);
      var m := WalkEnds(t, page.next, asked);
      n := m + 1;
      assert Repeat(t, n)[1..] == Repeat(t, m);
    }
  }

  lemma {:induction false} SameOrder(a: seq<Pos>, b: seq<Pos>)
    requires Descending(a) && Descending(b) && forall p :: p in a <==> p in b
    ensures a == b
  {
    assert b != [] ==> b[0] in a;
    if a != [] {
      assert a[0] in b && b[0] in a;
      assert a[0] == b[0];
      assert a == [a[0]] + a[1..] && b == [b[0]] + b[1..];
      forall p
        ensures p in a[1..] <==> p in b[1..]
      {
        if p in a[1..] {
          var i :| 1 <= i < |a| && a[i] == p;
          assert Less(p, a[0]) && p in a && p in b;
        }
        if p in b[1..] {
          var i :| 1 <= i < |b| && b[i] == p;
          assert Less(p, b[0]) && p in b && p in a;
        }
      }
      SameOrder(a[1..], b[1..]);
    }
  }

  /** On a static table the pages come to an end and concatenate to the whole sorted list. */
  lemma StaticPaging(t: Table, asked: nat)
    requires asked >= 1 && Written(t)
    ensures exists n: nat :: n >= 1 && Finished(Repeat(t, n), None, asked)
                        && Walk(Repeat(t, n), None, asked) == Top(Eligible(t), |Eligible(t)|)
  {
    WrittenIsWhole(t);
    var n := WalkEnds(t, None, asked);
    var w, s := Walk(Repeat(t, n), None, asked), Eligible(t);
    WalkIs(Repeat(t, n), None, asked);
    TopIs(s, |s|);
    AllOf(s, |s|);
    forall p
      ensures p in w <==> p in Top(s, |s|)
    {
      if p in s { assert Throughout(Repeat(t, n), p); }
    }
    SameOrder(w, Top(s, |s|));
  }

  // ----- where milliseconds matter

  /** The cursor of a row selects the rows below it exactly if the row's time is a whole number of milliseconds. */
  lemma CursorIsExactIff(last: Pos)
    ensures (forall p :: Less(p, last) <==> Less(p, Pos(Truncate(last.at), last.id))) <==> last.at % 1000 == 0
  {
    if last.at % 1000 != 0 {
      var p := Pos(Truncate(last.at), last.id);
      assert Less(p, last) && !Less(p, p);
    }
  }

  /** Why times must come from dates: were two rows ever given one time inside a millisecond -- no insert of the program
      does that -- a client paging by one would never see the second. */
  lemma MicrosecondsWouldLoseRows(at: int, n: nat)
    requires at % 1000 != 0 && n >= 1
    ensures var t: Table := map[3 := Row(at, true), 5 := Row(at, true)];
            Pos(at, 3) in Eligible(t) && Pos(at, 3) !in Walk(Repeat(t, n), None, 1)
  {
    var t: Table := map[3 := Row(at, true), 5 := Row(at, true)];
    var a, b := Pos(at, 3), Pos(at, 5);
    assert Eligible(t) == {a, b} by {
      assert t[3].shown && t[5].shown;
    }
    PageIs(t, None, 1);
    TopIs({a, b}, 1);
    assert Greatest({a, b}) == b by { assert Less(a, b); }
    var page := GetMessages(t, None, 1);
    assert page.rows == [b];
    assert a in Below(Eligible(t), None) && a !in page.rows;
    assert page.next == Some(Pos(Truncate(at), 5));
    assert Below(Eligible(t), page.next) == {};
    if n > 1 {
      TopIs({}, 2);
      assert Repeat(t, n)[1..][0] == t;
    }
  }
}
