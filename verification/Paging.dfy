/** Keyset paging: the operator, resident and fact lists. Row ids and instants are numbers
    in their order; a cursor token carries the last row's instant and id. */
module Paging {
  import opened Options

  datatype Priority = High | Medium | Low | NoPriority

  /** `shown` is the outcome of the request's filters. */
  datatype Row = Row(id: nat, priority: Priority, urgent: bool, updatedAt: int, shown: bool)

  datatype Listing = Operator | Resident | FactList

  datatype Token = Absent | Empty | Garbled | Good(at: int, id: nat)

  function Rank(p: Priority): int {
    match p
    case High => 3
    case Medium => 2
    case Low => 1
    case NoPriority => 0
  }

  function UrgentRank(urgent: bool): int {
    if urgent then 1 else 0
  }

  // ---------------------------------------------------------------- the order

  /** What the list is ordered by, greatest first. */
  function Key(listing: Listing, r: Row): seq<int> {
    if listing == Operator then [Rank(r.priority), UrgentRank(r.urgent), r.updatedAt, r.id] else [r.updatedAt, r.id]
  }

  predicate LexLess(a: seq<int>, b: seq<int>) {
    |a| > 0 && |b| > 0 && (a[0] < b[0] || (a[0] == b[0] && LexLess(a[1..], b[1..])))
  }

  /** Row `a` is listed after row `b`. */
  predicate Below(listing: Listing, a: Row, b: Row) {
    LexLess(Key(listing, a), Key(listing, b))
  }

  lemma {:induction false} LexTransitive(a: seq<int>, b: seq<int>, c: seq<int>)
    requires LexLess(a, b) && LexLess(b, c)
    ensures LexLess(a, c)
    decreases |a|
  {
    if a[0] == b[0] == c[0] {
      LexTransitive(a[1..], b[1..], c[1..]);
    }
  }

  lemma {:induction false} LexTotal(a: seq<int>, b: seq<int>)
    requires |a| == |b|
    ensures a == b || LexLess(a, b) || LexLess(b, a)
    ensures !(LexLess(a, b) && LexLess(b, a)) && !LexLess(a, a)
    decreases |a|
  {
    if a != [] {
      LexTotal(a[1..], b[1..]);
      LexTotal(a[1..], a[1..]);
      if a[0] == b[0] && a[1..] == b[1..] {
        assert a == [a[0]] + a[1..] && b == [b[0]] + b[1..];
      }
    }
  }

  lemma BelowTotal(listing: Listing, a: Row, b: Row)
    requires a.id != b.id
    ensures Below(listing, a, b) <==> !Below(listing, b, a)
  {
    var ka, kb := Key(listing, a), Key(listing, b);
    LexTotal(ka, kb);
    assert ka[|ka| - 1] != kb[|kb| - 1];
  }

  // ---------------------------------------------------------------- the queries

  /** The condition the operator list adds for a cursor. */
  predicate OperatorWhere(r: Row, priority: int, urgent: int, at: int, id: nat) {
    || Rank(r.priority) < priority
    || (Rank(r.priority) == priority && UrgentRank(r.urgent) < urgent)
    || (Rank(r.priority) == priority && UrgentRank(r.urgent) == urgent
        && (r.updatedAt < at || (r.updatedAt == at && r.id < id)))
  }

  /** The condition of the two-key lists. */
  predicate TwoKeyWhere(r: Row, at: int, id: nat) {
    r.updatedAt < at || (r.updatedAt == at && r.id < id)
  }

  function RowById(table: seq<Row>, id: nat): (r: Option<Row>)
    ensures r.Some? ==> r.value in table && r.value.id == id
    ensures r.None? ==> forall i | 0 <= i < |table| :: table[i].id != id
  {
    if table == [] then None else if table[0].id == id then Some(table[0]) else RowById(table[1..], id)
  }

  /** Where a page starts: after the row the cursor names, with the priority and urgency
      that row has now. */
  datatype Start = FromTop | AfterRow(row: Row) | Invalid

  function StartOf(table: seq<Row>, listing: Listing, token: Token): Start {
    match token
    case Absent => FromTop
    case Empty => if listing == Operator then Invalid else FromTop
    case Garbled => Invalid
    case Good(at, id) =>
      if listing == Operator then
        match RowById(table, id)
        case None => Invalid
        case Some(row) => AfterRow(row.(updatedAt := at))
      else AfterRow(Row(id, NoPriority, false, at, true))
  }

  predicate Selected(listing: Listing, start: Start, r: Row) {
    && r.shown
    && match start
       case FromTop => true
       case Invalid => false
       case AfterRow(c) =>
         if listing == Operator then OperatorWhere(r, Rank(c.priority), UrgentRank(c.urgent), c.updatedAt, c.id)
         else TwoKeyWhere(r, c.updatedAt, c.id)
  }

  function Select(listing: Listing, start: Start, rows: seq<Row>): (r: seq<Row>)
    ensures |r| <= |rows|
    ensures forall x {:trigger x in r} :: x in r ==> x in rows && Selected(listing, start, x)
  {
    if rows == [] then []
    else if Selected(listing, start, rows[0]) then [rows[0]] + Select(listing, start, rows[1..])
    else Select(listing, start, rows[1..])
  }

  function Insert(listing: Listing, x: Row, rows: seq<Row>): (r: seq<Row>)
    ensures |r| == |rows| + 1
    ensures multiset(r) == multiset(rows) + multiset{x}
  {
    if rows == [] || Below(listing, rows[0], x) then [x] + rows
    else
      assert rows == [rows[0]] + rows[1..];
      [rows[0]] + Insert(listing, x, rows[1..])
  }

  /** The list's order, greatest first. */
  function Sort(listing: Listing, rows: seq<Row>): (r: seq<Row>)
    ensures |r| == |rows|
    ensures multiset(r) == multiset(rows)
  {
    if rows == [] then []
    else
      assert rows == [rows[0]] + rows[1..];
      Insert(listing, rows[0], Sort(listing, rows[1..]))
  }

  datatype Page = Page(rows: seq<Row>, next: Token) | Refused

  function Min(a: nat, b: nat): nat {
    if a < b then a else b
  }

  /** One row more than the limit is fetched, to see whether there is a next page. */
  function Cut(ordered: seq<Row>, offset: nat, limit: nat): Page
    requires limit >= 1
  {
    var rest := ordered[Min(offset, |ordered|)..];
    var fetched := rest[..Min(limit + 1, |rest|)];
    var page := fetched[..Min(limit, |fetched|)];
    Page(page, if |fetched| > limit then Good(page[|page| - 1].updatedAt, page[|page| - 1].id) else Absent)
  }

  /** One request. Only the fact list takes an offset. */
  function ListPage(table: seq<Row>, listing: Listing, token: Token, offset: nat, limit: nat): Page
    requires limit >= 1
  {
    var start := StartOf(table, listing, token);
    if start.Invalid? then Refused
    else Cut(Sort(listing, Select(listing, start, table)), offset, limit)
  }

  /** A client that follows the cursors, asking at most `fuel` times. */
  datatype Walk = Walk(rows: seq<Row>, ended: bool)

  function Follow(pages: Token -> Page, token: Token, fuel: nat): Walk
    decreases fuel
  {
    if fuel == 0 then Walk([], false)
    else
      match pages(token)
      case Refused => Walk([], false)
      case Page(rows, next) =>
        if next.Absent? then Walk(rows, true)
        else
          var w := Follow(pages, next, fuel - 1);
          Walk(rows + w.rows, w.ended)
  }

  /** The list as a client sees it: a page for every token. */
  function PagesOf(table: seq<Row>, listing: Listing, offset: nat, limit: nat): Token -> Page
    requires limit >= 1
  {
    token => ListPage(table, listing, token, offset, limit)
  }

  // ---------------------------------------------------------------- conditions and order agree

  lemma WhereIsBelow(listing: Listing, r: Row, c: Row)
    ensures Selected(listing, AfterRow(c), r) <==> r.shown && Below(listing, r, c)
  {
    var two, two' := [r.updatedAt, r.id], [c.updatedAt, c.id];
    LexCons(r.id, [], c.id, []);
    LexCons(r.updatedAt, [r.id], c.updatedAt, [c.id]);
    LexCons(UrgentRank(r.urgent), two, UrgentRank(c.urgent), two');
    LexCons(Rank(r.priority), [UrgentRank(r.urgent)] + two, Rank(c.priority), [UrgentRank(c.urgent)] + two');
    assert two == [r.updatedAt] + [r.id] && two' == [c.updatedAt] + [c.id];
    assert [r.id] == [r.id] + [] && [c.id] == [c.id] + [];
    if listing == Operator {
      assert Key(listing, r) == [Rank(r.priority)] + ([UrgentRank(r.urgent)] + two);
      assert Key(listing, c) == [Rank(c.priority)] + ([UrgentRank(c.urgent)] + two');
    }
  }

  lemma LexCons(x: int, a: seq<int>, y: int, b: seq<int>)
    ensures LexLess([x] + a, [y] + b) <==> x < y || (x == y && LexLess(a, b))
  {
    assert ([x] + a)[1..] == a && ([y] + b)[1..] == b;
  }

  ghost predicate DistinctIds(rows: seq<Row>) {
    forall i, j | 0 <= i < j < |rows| :: rows[i].id != rows[j].id
  }

  ghost predicate Descending(listing: Listing, rows: seq<Row>) {
    forall i, j | 0 <= i < j < |rows| :: Below(listing, rows[j], rows[i])
  }

  predicate Apart(rows: seq<Row>, x: Row) {
    forall i | 0 <= i < |rows| :: rows[i].id != x.id
  }

  lemma ConsDescends(listing: Listing, x: Row, rows: seq<Row>)
    requires Descending(listing, rows) && forall i | 0 <= i < |rows| :: Below(listing, rows[i], x)
    ensures Descending(listing, [x] + rows)
  {
    var r := [x] + rows;
    forall i, j | 0 <= i < j < |r| ensures Below(listing, r[j], r[i]) {
      assert r[j] == rows[j - 1] && (i > 0 ==> r[i] == rows[i - 1]);
    }
  }

  /** A row above the first of a descending list is above all of it. */
  lemma AboveAll(listing: Listing, x: Row, rows: seq<Row>)
    requires Descending(listing, rows) && rows != [] && Below(listing, rows[0], x)
    ensures forall i | 0 <= i < |rows| :: Below(listing, rows[i], x)
  {
    forall i | 0 < i < |rows| ensures Below(listing, rows[i], x) {
      assert Below(listing, rows[i], rows[0]);
      LexTransitive(Key(listing, rows[i]), Key(listing, rows[0]), Key(listing, x));
    }
  }

  lemma {:induction false} InsertDescends(listing: Listing, x: Row, rows: seq<Row>)
    requires Descending(listing, rows) && Apart(rows, x)
    ensures Descending(listing, Insert(listing, x, rows))
    ensures forall i | 0 <= i < |rows| + 1 :: Insert(listing, x, rows)[i] == x || Insert(listing, x, rows)[i] in rows
  {
    if rows == [] {
    } else if Below(listing, rows[0], x) {
      AboveAll(listing, x, rows);
      ConsDescends(listing, x, rows);
    } else {
      var tail := Insert(listing, x, rows[1..]);
      BelowTotal(listing, rows[0], x);
      InsertDescends(listing, x, rows[1..]);
      forall i | 0 <= i < |tail| ensures Below(listing, tail[i], rows[0]) {
        assert tail[i] == x || tail[i] in rows[1..];
      }
      ConsDescends(listing, rows[0], tail);
    }
  }

  lemma SameIds(a: seq<Row>, b: seq<Row>, x: Row)
    requires multiset(a) == multiset(b) && Apart(a, x)
    ensures Apart(b, x)
  {
    forall i | 0 <= i < |b| ensures b[i].id != x.id {
      assert b[i] in multiset(b);
      assert b[i] in a;
    }
  }

  lemma {:induction false} SortDescends(listing: Listing, rows: seq<Row>)
    requires DistinctIds(rows)
    ensures Descending(listing, Sort(listing, rows))
  {
    if rows != [] {
      SortDescends(listing, rows[1..]);
      assert Apart(rows[1..], rows[0]);
      SameIds(rows[1..], Sort(listing, rows[1..]), rows[0]);
      InsertDescends(listing, rows[0], Sort(listing, rows[1..]));
    }
  }

  // ---------------------------------------------------------------- selecting commutes with sorting

  lemma SelectCons(listing: Listing, start: Start, x: Row, rows: seq<Row>)
    ensures Select(listing, start, [x] + rows) ==
            if Selected(listing, start, x) then [x] + Select(listing, start, rows) else Select(listing, start, rows)
  {
    assert ([x] + rows)[1..] == rows;
  }

  lemma {:induction false} SelectInsert(listing: Listing, start: Start, x: Row, rows: seq<Row>)
    requires Descending(listing, rows) && Apart(rows, x)
    ensures Select(listing, start, Insert(listing, x, rows)) ==
            if Selected(listing, start, x) then Insert(listing, x, Select(listing, start, rows)) else Select(listing, start, rows)
  {
    if rows == [] {
    } else if Below(listing, rows[0], x) {
      SelectCons(listing, start, x, rows);
      SelectKeepsBelow(listing, start, x, rows);
    } else {
      var y, rest := rows[0], rows[1..];
      SelectInsert(listing, start, x, rest);
      SelectCons(listing, start, y, Insert(listing, x, rest));
      InsertCons(listing, x, y, Select(listing, start, rest));
    }
  }

  lemma InsertCons(listing: Listing, x: Row, y: Row, rows: seq<Row>)
    requires !Below(listing, y, x)
    ensures Insert(listing, x, [y] + rows) == [y] + Insert(listing, x, rows)
  {
    assert ([y] + rows)[1..] == rows;
  }

  /** A row above all of a list is put first in any selection of it. */
  lemma SelectKeepsBelow(listing: Listing, start: Start, x: Row, rows: seq<Row>)
    requires Descending(listing, rows) && rows != [] && Below(listing, rows[0], x)
    ensures Insert(listing, x, Select(listing, start, rows)) == [x] + Select(listing, start, rows)
  {
    AboveAll(listing, x, rows);
    var s := Select(listing, start, rows);
    if s != [] {
      assert s[0] in s;
    }
  }

  lemma {:induction false} SelectSort(listing: Listing, start: Start, rows: seq<Row>)
    requires DistinctIds(rows)
    ensures Sort(listing, Select(listing, start, rows)) == Select(listing, start, Sort(listing, rows))
  {
    if rows != [] {
      var rest := Sort(listing, rows[1..]);
      SelectSort(listing, start, rows[1..]);
      SortDescends(listing, rows[1..]);
      assert Apart(rows[1..], rows[0]);
      SameIds(rows[1..], rest, rows[0]);
      SelectInsert(listing, start, rows[0], rest);
      var s := Select(listing, start, rows[1..]);
      assert ([rows[0]] + s)[1..] == s;
    }
  }

  // ---------------------------------------------------------------- following the cursors

  lemma {:induction false} SelectAll(listing: Listing, start: Start, rows: seq<Row>)
    requires forall i | 0 <= i < |rows| :: Selected(listing, start, rows[i])
    ensures Select(listing, start, rows) == rows
  {
    if rows != [] {
      SelectAll(listing, start, rows[1..]);
    }
  }

  lemma {:induction false} SelectNone(listing: Listing, start: Start, rows: seq<Row>)
    requires forall i | 0 <= i < |rows| :: !Selected(listing, start, rows[i])
    ensures Select(listing, start, rows) == []
  {
    if rows != [] {
      SelectNone(listing, start, rows[1..]);
    }
  }

  lemma {:induction false} SelectConcat(listing: Listing, start: Start, a: seq<Row>, b: seq<Row>)
    ensures Select(listing, start, a + b) == Select(listing, start, a) + Select(listing, start, b)
  {
    if a == [] {
      assert a + b == b;
    } else {
      assert (a + b)[1..] == a[1..] + b;
      SelectConcat(listing, start, a[1..], b);
    }
  }

  /** Every shown row of the table, in order. */
  function Full(table: seq<Row>, listing: Listing): seq<Row> {
    Sort(listing, Select(listing, FromTop, table))
  }

  lemma {:induction false} SelectTwice(listing: Listing, start: Start, rows: seq<Row>)
    requires !start.Invalid?
    ensures Select(listing, start, Select(listing, FromTop, rows)) == Select(listing, start, rows)
  {
    if rows != [] {
      SelectTwice(listing, start, rows[1..]);
      var s := Select(listing, FromTop, rows[1..]);
      assert ([rows[0]] + s)[1..] == s;
    }
  }

  lemma {:induction false} SelectDistinct(listing: Listing, start: Start, rows: seq<Row>)
    requires DistinctIds(rows)
    ensures DistinctIds(Select(listing, start, rows))
  {
    if rows != [] {
      SelectDistinct(listing, start, rows[1..]);
      var s := Select(listing, start, rows[1..]);
      forall i | 0 <= i < |s| ensures s[i].id != rows[0].id {
        assert s[i] in s;
      }
    }
  }

  lemma FullDescends(table: seq<Row>, listing: Listing)
    requires DistinctIds(table)
    ensures Descending(listing, Full(table, listing))
  {
    SelectDistinct(listing, FromTop, table);
    SortDescends(listing, Select(listing, FromTop, table));
  }

  lemma FullIsShown(table: seq<Row>, listing: Listing, k: nat)
    requires k < |Full(table, listing)|
    ensures Full(table, listing)[k].shown && Full(table, listing)[k] in table
  {
    var s := Select(listing, FromTop, table);
    assert Full(table, listing)[k] in multiset(Full(table, listing));
    assert Full(table, listing)[k] in s;
  }

  /** What follows a row of an ordered list is what the cursor condition selects. */
  lemma RestIsSelected(listing: Listing, rows: seq<Row>, k: nat)
    requires Descending(listing, rows) && k < |rows| && forall i | 0 <= i < |rows| :: rows[i].shown
    ensures Select(listing, AfterRow(rows[k]), rows) == rows[k + 1..]
  {
    var start := AfterRow(rows[k]);
    assert rows == rows[..k + 1] + rows[k + 1..];
    SelectConcat(listing, start, rows[..k + 1], rows[k + 1..]);
    var before, rest := rows[..k + 1], rows[k + 1..];
    forall i | 0 <= i < |before| ensures !Selected(listing, start, before[i]) {
      WhereIsBelow(listing, rows[i], rows[k]);
      LexTotal(Key(listing, rows[i]), Key(listing, rows[k]));
      assert i < k ==> Below(listing, rows[k], rows[i]);
    }
    SelectNone(listing, start, before);
    forall i | 0 <= i < |rest| ensures Selected(listing, start, rest[i]) {
      WhereIsBelow(listing, rows[k + 1 + i], rows[k]);
      assert Below(listing, rows[k + 1 + i], rows[k]);
    }
    SelectAll(listing, start, rest);
  }

  /** A listing's condition looks at the named row's key alone. */
  lemma SameStart(listing: Listing, c: Row, c': Row, rows: seq<Row>)
    requires Key(listing, c) == Key(listing, c')
    ensures Select(listing, AfterRow(c), rows) == Select(listing, AfterRow(c'), rows)
  {
    if rows != [] {
      WhereIsBelow(listing, rows[0], c);
      WhereIsBelow(listing, rows[0], c');
      SameStart(listing, c, c', rows[1..]);
    }
  }

  /** The token of the k-th row of the full list; none for the top. */
  function TokenAt(rows: seq<Row>, k: nat): Token
    requires k <= |rows|
  {
    if k == 0 then Absent else Good(rows[k - 1].updatedAt, rows[k - 1].id)
  }

  lemma {:induction false} RowByIdIs(table: seq<Row>, r: Row)
    requires DistinctIds(table) && r in table
    ensures RowById(table, r.id) == Some(r)
  {
    var i :| 0 <= i < |table| && table[i] == r;
    if i > 0 {
      assert table[1..][i - 1] == r;
      RowByIdIs(table[1..], r);
    }
  }

  /** The rows a page chooses from are the rest of the full list. */
  lemma OrderedIsRest(table: seq<Row>, listing: Listing, k: nat)
    requires DistinctIds(table) && k <= |Full(table, listing)|
    ensures var start := StartOf(table, listing, TokenAt(Full(table, listing), k));
            !start.Invalid? && Sort(listing, Select(listing, start, table)) == Full(table, listing)[k..]
  {
    var full := Full(table, listing);
    var start := StartOf(table, listing, TokenAt(full, k));
    if k > 0 {
      var c := full[k - 1];
      FullIsShown(table, listing, k - 1);
      RowByIdIs(table, c);
      StartIsAfter(table, listing, full, k, start);
      SelectionIsRest(table, listing, start);
    }
  }

  /** A selection of the table, sorted, is the same selection of the full list. */
  lemma SelectionIsRest(table: seq<Row>, listing: Listing, start: Start)
    requires DistinctIds(table) && !start.Invalid?
    ensures Sort(listing, Select(listing, start, table)) == Select(listing, start, Full(table, listing))
  {
    SelectSort(listing, start, table);
    SelectSort(listing, FromTop, table);
    SelectTwice(listing, start, Sort(listing, table));
  }

  lemma StartIsAfter(table: seq<Row>, listing: Listing, full: seq<Row>, k: nat, start: Start)
    requires DistinctIds(table) && full == Full(table, listing) && 0 < k <= |full|
    requires start.AfterRow? && Key(listing, start.row) == Key(listing, full[k - 1])
    ensures Select(listing, start, full) == full[k..]
  {
    FullDescends(table, listing);
    forall i | 0 <= i < |full| ensures full[i].shown {
      FullIsShown(table, listing, i);
    }
    SameStart(listing, start.row, full[k - 1], full);
    RestIsSelected(listing, full, k - 1);
  }

  /** Each page is cut from the rest of the full list. */
  ghost predicate CutFrom(pages: Token -> Page, full: seq<Row>, offset: nat, limit: nat)
    requires limit >= 1
  {
    forall k: nat {:trigger TokenAt(full, k)} | k <= |full| :: pages(TokenAt(full, k)) == Cut(full[k..], offset, limit)
  }

  lemma PagesAreCut(table: seq<Row>, listing: Listing, offset: nat, limit: nat)
    requires DistinctIds(table) && limit >= 1
    ensures CutFrom(PagesOf(table, listing, offset, limit), Full(table, listing), offset, limit)
    ensures |Full(table, listing)| <= |table|
  {
    var full := Full(table, listing);
    forall k: nat | k <= |full|
      ensures PagesOf(table, listing, offset, limit)(TokenAt(full, k)) == Cut(full[k..], offset, limit)
    {
      OrderedIsRest(table, listing, k);
    }
  }

  lemma CutAt(full: seq<Row>, k: nat, limit: nat)
    requires limit >= 1 && k <= |full|
    ensures Cut(full[k..], 0, limit) ==
            Page(full[k..Min(k + limit, |full|)], if k + limit < |full| then TokenAt(full, k + limit) else Absent)
  {
    var rest := full[k..];
    assert rest[0..] == rest;
    var fetched := rest[..Min(limit + 1, |rest|)];
    assert fetched[..Min(limit, |fetched|)] == full[k..Min(k + limit, |full|)];
  }

  lemma FollowStep(pages: Token -> Page, token: Token, fuel: nat, page: Page)
    requires fuel > 0 && pages(token) == page && page.Page?
    ensures Follow(pages, token, fuel) ==
            if page.next.Absent? then Walk(page.rows, true)
            else
              var w := Follow(pages, page.next, fuel - 1);
              Walk(page.rows + w.rows, w.ended)
  {
  }

  lemma {:induction false} FollowFrom(pages: Token -> Page, full: seq<Row>, k: nat, limit: nat, fuel: nat)
    requires limit >= 1 && CutFrom(pages, full, 0, limit) && k <= |full| && fuel > |full| - k
    ensures Follow(pages, TokenAt(full, k), fuel) == Walk(full[k..], true)
    decreases fuel
  {
    CutAt(full, k, limit);
    if k + limit < |full| {
      var page := Page(full[k..k + limit], TokenAt(full, k + limit));
      FollowStep(pages, TokenAt(full, k), fuel, page);
      FollowFrom(pages, full, k + limit, limit, fuel - 1);
      assert full[k..k + limit] + full[k + limit..] == full[k..];
    } else {
      FollowStep(pages, TokenAt(full, k), fuel, Page(full[k..], Absent));
    }
  }

  /** Over an unchanged table following the cursors ends, and the pages together are the
      shown rows in order, each once. */
  lemma PagingIsComplete(table: seq<Row>, listing: Listing, limit: nat, fuel: nat)
    requires DistinctIds(table) && limit >= 1 && fuel > |table|
    ensures var w := Follow(PagesOf(table, listing, 0, limit), Absent, fuel);
            && w.ended
            && Descending(listing, w.rows)
            && multiset(w.rows) == multiset(Select(listing, FromTop, table))
  {
    PagesAreCut(table, listing, 0, limit);
    var full := Full(table, listing);
    FollowFrom(PagesOf(table, listing, 0, limit), full, 0, limit, fuel);
    FullDescends(table, listing);
    assert full[0..] == full;
  }

  // ---------------------------------------------------------------- what comes first, and what is refused

  /** Priority `a` comes before priority `b`. */
  predicate Higher(a: Priority, b: Priority) {
    (a == High && b != High) || (a == Medium && (b == Low || b == NoPriority)) || (a == Low && b == NoPriority)
  }

  /** Of two rows the later one comes first in the resident and fact lists, by its id if they
      are of one instant. In the operator list the one of higher priority does, then the urgent
      one, and only then the later one. */
  lemma ListedFirst(listing: Listing, a: Row, b: Row)
    ensures var later := b.updatedAt < a.updatedAt || (b.updatedAt == a.updatedAt && b.id < a.id);
            Below(listing, b, a)
            <==> if listing == Operator then
                   || Higher(a.priority, b.priority)
                   || (a.priority == b.priority && a.urgent && !b.urgent)
                   || (a.priority == b.priority && a.urgent == b.urgent && later)
                 else later
  {
    var two, two' := [b.updatedAt, b.id], [a.updatedAt, a.id];
    LexCons(b.id, [], a.id, []);
    LexCons(b.updatedAt, [b.id], a.updatedAt, [a.id]);
    LexCons(UrgentRank(b.urgent), two, UrgentRank(a.urgent), two');
    LexCons(Rank(b.priority), [UrgentRank(b.urgent)] + two, Rank(a.priority), [UrgentRank(a.urgent)] + two');
    assert two == [b.updatedAt] + [b.id] && two' == [a.updatedAt] + [a.id];
    assert [b.id] == [b.id] + [] && [a.id] == [a.id] + [];
    if listing == Operator {
      assert Key(listing, b) == [Rank(b.priority)] + ([UrgentRank(b.urgent)] + two);
      assert Key(listing, a) == [Rank(a.priority)] + ([UrgentRank(a.urgent)] + two');
    }
  }

  /** A page is refused exactly for a garbled cursor and, in the operator list, for an empty
      one or one whose row is gone; elsewhere an empty cursor starts from the top. */
  lemma RefusedIff(table: seq<Row>, listing: Listing, token: Token, offset: nat, limit: nat)
    requires limit >= 1
    ensures ListPage(table, listing, token, offset, limit).Refused?
            <==> || token.Garbled?
                 || (listing == Operator && token.Empty?)
                 || (listing == Operator && token.Good? && forall i | 0 <= i < |table| :: table[i].id != token.id)
    ensures listing != Operator ==>
              ListPage(table, listing, Empty, offset, limit) == ListPage(table, listing, Absent, offset, limit)
  {
  }

  // ---------------------------------------------------------------- the offset

  /** The page from the top skips the first row, and every later page starts after it. */
  lemma {:induction false} OffsetLosesFirst(pages: Token -> Page, full: seq<Row>, k: nat, offset: nat, limit: nat, fuel: nat)
    requires limit >= 1 && offset >= 1 && CutFrom(pages, full, offset, limit) && k < |full|
    ensures |Follow(pages, TokenAt(full, k), fuel).rows| < |full| - k
    decreases fuel
  {
    if fuel > 0 {
      var rest := full[k..];
      var from := Min(offset, |rest|);
      var page := Cut(rest, offset, limit);
      assert pages(TokenAt(full, k)) == page;
      if page.next != Absent {
        var next := k + from + limit;
        assert page.rows[limit - 1] == full[next - 1];
        OffsetLosesFirst(pages, full, next, offset, limit, fuel - 1);
      }
    }
  }

  /** Following cursors with a fixed offset is complete exactly when the offset is 0 or
      there is nothing to list. */
  lemma CompleteIffNoOffset(table: seq<Row>, listing: Listing, offset: nat, limit: nat, fuel: nat)
    requires DistinctIds(table) && limit >= 1 && fuel > |table|
    ensures Follow(PagesOf(table, listing, offset, limit), Absent, fuel).rows == Full(table, listing)
            <==> offset == 0 || Full(table, listing) == []
  {
    var full, pages := Full(table, listing), PagesOf(table, listing, offset, limit);
    PagesAreCut(table, listing, offset, limit);
    assert TokenAt(full, 0) == Absent && full[0..] == full;
    if offset == 0 {
      FollowFrom(pages, full, 0, limit, fuel);
    } else if full != [] {
      OffsetLosesFirst(pages, full, 0, offset, limit, fuel);
    }
  }
}
