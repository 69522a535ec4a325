/**
 Listing documents page by page (api/database.go, api/documents.go): each page starts below the last row of the page
 before, in descending order of creation time and id, while the table may change between requests. Identifiers are
 numbers, ordered as PostgreSQL orders uuids.
 */
module Pagination {
  import opened Options

  type Owner = string

  datatype Cursor = Cursor(createdAt: int, id: nat)

  /** The columns of a document that never change. */
  datatype Row = Row(id: nat, owner: Owner, filename: string, createdAt: int)
  {
    function Key(): Cursor { Cursor(createdAt, id) }
  }

  type Table = set<Row>

  /** Whether the search pattern fits a file name. */
  type Pattern = string -> bool

  predicate Below(a: Cursor, b: Cursor) {
    a.createdAt < b.createdAt || (a.createdAt == b.createdAt && a.id < b.id)
  }

  /** Identifiers are the primary key. */
  ghost predicate Keyed(table: Table) {
    forall r, s | r in table && s in table && r.id == s.id :: r == s
  }

  predicate Selected(r: Row, owner: Owner, fits: Pattern, cursor: Option<Cursor>) {
    r.owner == owner && fits(r.filename) && (cursor.Some? ==> Below(r.Key(), cursor.value))
  }

  function Selection(table: Table, owner: Owner, fits: Pattern, cursor: Option<Cursor>): Table {
    set r | r in table && Selected(r, owner, fits, cursor)
  }

  /** Strictly descending keys. */
  ghost predicate Descending(rows: seq<Row>) {
    forall i, j | 0 <= i < j < |rows| :: Below(rows[j].Key(), rows[i].Key())
  }

  /** The rows are the first of the selection, in order; they are all of it unless the limit is reached. */
  ghost predicate FirstOf(rows: seq<Row>, selection: Table, limit: nat) {
    && Descending(rows) && |rows| <= limit
    && (forall i | 0 <= i < |rows| :: rows[i] in selection)
    && (forall r | r in selection && r !in rows ::
          |rows| == limit && forall i | 0 <= i < |rows| :: Below(r.Key(), rows[i].Key()))
  }

  /** The topmost row of a set. */
  method Topmost(rows: Table) returns (top: Row)
    requires rows != {} && Keyed(rows)
    ensures top in rows && forall r | r in rows && r != top :: Below(r.Key(), top.Key())
  {
    top :| top in rows;
    var left := rows - {top};
    while left != {}
      invariant top in rows && left <= rows && top !in left
      invariant forall r | r in rows && r !in left && r != top :: Below(r.Key(), top.Key())
      decreases left
    {
      var r :| r in left;
      left := left - {r};
      if Below(top.Key(), r.Key()) {
        top := r;
      }
    }
  }

  /** One row is listed before another: it was created later, or at the same time with a larger identifier. */
  ghost predicate Newer(r: Row, other: Cursor) {
    if r.createdAt == other.createdAt then r.id > other.id else r.createdAt > other.createdAt
  }

  /** A page as its reader sees it: the owner's rows that fit, older than the cursor, newest first; what is missing is
      older than all of a full page. */
  ghost predicate IsPage(rows: seq<Row>, table: Table, owner: Owner, fits: Pattern, limit: nat,
                         cursor: Option<Cursor>) {
    && |rows| <= limit
    && (forall i | 0 <= i < |rows| :: rows[i] in table && rows[i].owner == owner && fits(rows[i].filename))
    && (forall i | 0 <= i < |rows| :: cursor.Some? ==> rows[i].Key() != cursor.value && !Newer(rows[i], cursor.value))
    && (forall i, j | 0 <= i < j < |rows| :: Newer(rows[i], rows[j].Key()))
    && (forall r | r in table && r.owner == owner && fits(r.filename) && r !in rows ::
          || (cursor.Some? && (Newer(r, cursor.value) || r.Key() == cursor.value))
          || (|rows| == limit && forall i | 0 <= i < |rows| :: Newer(rows[i], r.Key())))
  }

  lemma FirstOfIsPage(rows: seq<Row>, table: Table, owner: Owner, fits: Pattern, limit: nat, cursor: Option<Cursor>)
    requires FirstOf(rows, Selection(table, owner, fits, cursor), limit)
    ensures IsPage(rows, table, owner, fits, limit, cursor)
  {
    forall i, j | 0 <= i < j < |rows| ensures Newer(rows[i], rows[j].Key()) {
      assert Below(rows[j].Key(), rows[i].Key());
    }
    forall r | r in table && r.owner == owner && fits(r.filename) && r !in rows
      ensures || (cursor.Some? && (Newer(r, cursor.value) || r.Key() == cursor.value))
              || (|rows| == limit && forall i | 0 <= i < |rows| :: Newer(rows[i], r.Key()))
    {
      if r in Selection(table, owner, fits, cursor) {
        forall i | 0 <= i < |rows| ensures Newer(rows[i], r.Key()) { assert Below(r.Key(), rows[i].Key()); }
      }
    }
  }

  /** The page query. */
  method ListOwnedPage(table: Table, owner: Owner, fits: Pattern, limit: nat, cursor: Option<Cursor>)
    returns (rows: seq<Row>)
    requires Keyed(table)
    ensures FirstOf(rows, Selection(table, owner, fits, cursor), limit)
  {
    var left := Selection(table, owner, fits, cursor);
    ghost var selection := left;
    rows := [];
    while |rows| < limit && left != {}
      invariant left <= selection <= table && |rows| <= limit && Descending(rows)
      invariant forall i | 0 <= i < |rows| :: rows[i] in selection && rows[i] !in left
      invariant forall r | r in selection && r !in rows :: r in left
      invariant forall r, i | r in left && 0 <= i < |rows| :: Below(r.Key(), rows[i].Key())
      decreases left
    {
      var top := Topmost(left);
      rows, left := rows + [top], left - {top};
    }
  }

  /** The page size asked for; anything that is not a positive number means 50, and more than 100 means 100. */
  function PageLimit(requested: Option<int>): (limit: nat)
    ensures 1 <= limit <= 100
    ensures requested.Some? && 1 <= requested.value <= 100 ==> limit == requested.value
    ensures requested.Some? && requested.value > 100 ==> limit == 100
    ensures requested.None? || requested.value <= 0 ==> limit == 50
  {
    if requested.Some? && requested.value > 0 then (if requested.value > 100 then 100 else requested.value) else 50
  }

  /** One page. There is a next cursor exactly when rows are left over, and it is the key of the last item. */
  method List(table: Table, owner: Owner, fits: Pattern, limit: nat, cursor: Option<Cursor>)
    returns (items: seq<Row>, next: Option<Cursor>)
    requires Keyed(table) && limit >= 1
    ensures FirstOf(items, Selection(table, owner, fits, cursor), limit)
    ensures IsPage(items, table, owner, fits, limit, cursor)
    ensures next.None? <==> forall r | r in Selection(table, owner, fits, cursor) :: r in items
    ensures next.Some? ==> |items| == limit && next.value == items[|items| - 1].Key()
  {
    var rows := ListOwnedPage(table, owner, fits, limit + 1, cursor);
    var hasMore := |rows| > limit;
    items := if hasMore then rows[..limit] else rows;
    next := None;
    if hasMore && |items| > 0 {
      next := Some(items[|items| - 1].Key());
      assert rows[limit] !in items by {
        forall i | 0 <= i < |items| ensures items[i] != rows[limit] { assert Below(rows[limit].Key(), rows[i].Key()); }
      }
    }
    FirstOfIsPage(items, table, owner, fits, limit, cursor);
  }

  // ----- Walks

  /** Row r is selected for the walk and is in the first n tables. */
  ghost predicate Throughout(r: Row, tables: seq<Table>, n: nat, owner: Owner, fits: Pattern)
    requires n <= |tables|
  {
    Selected(r, owner, fits, None) && forall i | 0 <= i < n :: r in tables[i]
  }

  /** After n pages: listed in order down to the cursor, with every row above it that was there throughout. */
  ghost predicate WalkedTo(listed: seq<Row>, cursor: Option<Cursor>, tables: seq<Table>, n: nat, owner: Owner,
                           fits: Pattern) {
    && n <= |tables| && Descending(listed)
    && (cursor.None? ==> listed == [])
    && (cursor.Some? ==> listed != [] && cursor.value == listed[|listed| - 1].Key())
    && (forall r | Throughout(r, tables, n, owner, fits) && r !in listed ::
          cursor.Some? ==> Below(r.Key(), cursor.value))
  }

  lemma NextPage(listed: seq<Row>, cursor: Option<Cursor>, tables: seq<Table>, n: nat, owner: Owner, fits: Pattern,
                 items: seq<Row>, next: Option<Cursor>, limit: nat)
    requires WalkedTo(listed, cursor, tables, n, owner, fits) && n < |tables| && limit >= 1
    requires FirstOf(items, Selection(tables[n], owner, fits, cursor), limit)
    requires next.None? <==> forall r | r in Selection(tables[n], owner, fits, cursor) :: r in items
    requires next.Some? ==> |items| == limit && next.value == items[|items| - 1].Key()
    ensures Descending(listed + items)
    ensures next.Some? ==> WalkedTo(listed + items, next, tables, n + 1, owner, fits)
    ensures next.None? ==> forall r | Throughout(r, tables, n + 1, owner, fits) :: r in listed + items
    ensures next.Some? ==> Selection(tables[n], owner, fits, next) != {}
  {
    AppendDescending(listed, items, cursor);
    if next.Some? {
      var r :| r in Selection(tables[n], owner, fits, cursor) && r !in items;
      assert r in Selection(tables[n], owner, fits, next);
    }
    forall r | Throughout(r, tables, n + 1, owner, fits) && r !in listed + items
      ensures next.Some? && Below(r.Key(), next.value)
    {
      assert Throughout(r, tables, n, owner, fits);
      assert r in tables[n] && r !in listed && r !in items;
      assert Selected(r, owner, fits, cursor);
    }
  }

  lemma AppendDescending(listed: seq<Row>, items: seq<Row>, cursor: Option<Cursor>)
    requires Descending(listed) && Descending(items)
    requires cursor.None? ==> listed == []
    requires cursor.Some? ==> listed != [] && cursor.value == listed[|listed| - 1].Key()
    requires cursor.Some? ==> forall i | 0 <= i < |items| :: Below(items[i].Key(), cursor.value)
    ensures Descending(listed + items)
  {
    var all := listed + items;
    forall i, j | 0 <= i < j < |all| ensures Below(all[j].Key(), all[i].Key()) {
      if i < |listed| <= j {
        assert i < |listed| - 1 ==> Below(listed[|listed| - 1].Key(), listed[i].Key());
        assert Below(items[j - |listed|].Key(), cursor.value);
      }
    }
  }

  ghost predicate Seen(r: Row, tables: seq<Table>) {
    exists i :: 0 <= i < |tables| && r in tables[i]
  }

  lemma {:induction false} DistinctRows(listed: seq<Row>, table: Table)
    requires Descending(listed) && forall k | 0 <= k < |listed| :: listed[k] in table
    ensures |listed| <= |table|
    decreases |listed|
  {
    if listed != [] {
      var last := listed[|listed| - 1];
      var rest := listed[..|listed| - 1];
      forall k | 0 <= k < |rest| ensures rest[k] in table - {last} { assert Below(last.Key(), listed[k].Key()); }
      DistinctRows(rest, table - {last});
    }
  }

  /** On a table that does not change, a walk that has not finished has listed a row for every page, with another one
      still to come. */
  lemma UnfinishedMeansMore(listed: seq<Row>, cursor: Option<Cursor>, table: Table, owner: Owner, fits: Pattern)
    requires Descending(listed) && listed != []
    requires forall k | 0 <= k < |listed| :: listed[k] in Selection(table, owner, fits, None)
    requires cursor.Some? && cursor.value == listed[|listed| - 1].Key()
    requires Selection(table, owner, fits, cursor) != {}
    ensures |listed| < |Selection(table, owner, fits, None)|
  {
    var left :| left in Selection(table, owner, fits, cursor);
    var more := listed + [left];
    forall i, j | 0 <= i < j < |more| ensures Below(more[j].Key(), more[i].Key()) {
      if j == |listed| && i < |listed| - 1 { assert Below(listed[|listed| - 1].Key(), listed[i].Key()); }
    }
    DistinctRows(more, Selection(table, owner, fits, None));
  }

  ghost predicate Fixed(tables: seq<Table>, table: Table) {
    forall i | 0 <= i < |tables| :: tables[i] == table
  }

  /** What a walk has listed after n requests, none of which was the last. */
  ghost predicate Unfinished(listed: seq<Row>, cursor: Option<Cursor>, tables: seq<Table>, n: nat, owner: Owner,
                             fits: Pattern) {
    && WalkedTo(listed, cursor, tables, n, owner, fits) && |listed| >= n
    && ListedFrom(listed, tables, owner, fits)
    && (n > 0 ==> cursor.Some? && Selection(tables[n - 1], owner, fits, cursor) != {})
  }

  ghost predicate ListedFrom(listed: seq<Row>, tables: seq<Table>, owner: Owner, fits: Pattern) {
    forall k | 0 <= k < |listed| :: Selected(listed[k], owner, fits, None) && Seen(listed[k], tables)
  }

  lemma PageListed(listed: seq<Row>, items: seq<Row>, tables: seq<Table>, n: nat, owner: Owner, fits: Pattern,
                   cursor: Option<Cursor>)
    requires ListedFrom(listed, tables, owner, fits) && n < |tables|
    requires forall k | 0 <= k < |items| :: items[k] in Selection(tables[n], owner, fits, cursor)
    ensures ListedFrom(listed + items, tables, owner, fits)
  {
    forall k | 0 <= k < |items| ensures Selected(items[k], owner, fits, None) && Seen(items[k], tables) {
      assert items[k] in tables[n];
    }
  }

  /** What is there throughout the whole walk is there throughout its first requests. */
  lemma SeenByAll(listed: seq<Row>, tables: seq<Table>, n: nat, owner: Owner, fits: Pattern)
    requires n <= |tables| && forall r | Throughout(r, tables, n, owner, fits) :: r in listed
    ensures forall r | Throughout(r, tables, |tables|, owner, fits) :: r in listed
  {
    forall r | Throughout(r, tables, |tables|, owner, fits) ensures r in listed {
      assert Throughout(r, tables, n, owner, fits);
    }
  }

  /** A fixed table has more rows than an unfinished walk has made requests. */
  lemma NotEnoughRequests(listed: seq<Row>, cursor: Option<Cursor>, tables: seq<Table>, table: Table, owner: Owner,
                          fits: Pattern)
    requires Fixed(tables, table) && |tables| > 0 && Unfinished(listed, cursor, tables, |tables|, owner, fits)
    ensures |Selection(table, owner, fits, None)| > |tables|
  {
    assert tables[|tables| - 1] == table;
    forall k | 0 <= k < |listed| ensures listed[k] in Selection(table, owner, fits, None) {
      assert Seen(listed[k], tables);
    }
    UnfinishedMeansMore(listed, cursor, table, owner, fits);
  }

  /** Enough requests for every table that does not change. */
  ghost predicate EnoughRequests(tables: seq<Table>, owner: Owner, fits: Pattern) {
    |tables| > 0 && exists table :: Fixed(tables, table) && |tables| >= |Selection(table, owner, fits, None)|
  }

  lemma UnfinishedNeedsMore(listed: seq<Row>, cursor: Option<Cursor>, tables: seq<Table>, owner: Owner, fits: Pattern)
    requires Unfinished(listed, cursor, tables, |tables|, owner, fits)
    ensures !EnoughRequests(tables, owner, fits)
  {
    if EnoughRequests(tables, owner, fits) {
      var table :| Fixed(tables, table) && |tables| >= |Selection(table, owner, fits, None)|;
      NotEnoughRequests(listed, cursor, tables, table, owner, fits);
    }
  }

  /** One request of a walk. */
  method WalkOn(tables: seq<Table>, limit: nat, owner: Owner, fits: Pattern, n: nat, after: nat, before: seq<Row>,
                cursor: Option<Cursor>)
    returns (listed: seq<Row>, next: Option<Cursor>)
    requires after == n + 1 <= |tables| && Keyed(tables[n]) && limit >= 1
    requires Unfinished(before, cursor, tables, n, owner, fits)
    ensures next.Some? ==> Unfinished(listed, next, tables, after, owner, fits)
    ensures next.None? ==> Descending(listed) && ListedFrom(listed, tables, owner, fits)
                           && forall r | Throughout(r, tables, |tables|, owner, fits) :: r in listed
  {
    var items;
    items, next := List(tables[n], owner, fits, limit, cursor);
    NextPage(before, cursor, tables, n, owner, fits, items, next, limit);
    PageListed(before, items, tables, n, owner, fits, cursor);
    listed := before + items;
    if next.None? { SeenByAll(listed, tables, after, owner, fits); }
  }

  /** A client that follows the cursor. Request i finds tables[i] and asks for limits[i] rows. Nothing is listed twice,
      and a finished walk has listed every fitting row that was there throughout, in order. On a table that does not
      change, as many requests as there are fitting rows are enough, and one is always enough for none. */
  method Walk(tables: seq<Table>, limits: seq<nat>, owner: Owner, fits: Pattern)
    returns (listed: seq<Row>, finished: bool)
    requires |limits| == |tables| && forall i | 0 <= i < |tables| :: Keyed(tables[i]) && limits[i] >= 1
    ensures Descending(listed) && ListedFrom(listed, tables, owner, fits)
    ensures forall k | 0 <= k < |listed| :: listed[k].owner == owner && fits(listed[k].filename)
    ensures forall i, j | 0 <= i < j < |listed| :: Newer(listed[i], listed[j].Key())
    ensures finished ==> forall r | Throughout(r, tables, |tables|, owner, fits) :: r in listed
    ensures finished ==>
              forall r: Row | r.owner == owner && fits(r.filename)
                  && (forall i | 0 <= i < |tables| :: r in tables[i]) ::
                r in listed
    ensures EnoughRequests(tables, owner, fits) ==> finished
  {
    listed, finished := [], false;
    var cursor, pages := None, 0;
    while pages < |tables|
      invariant Unfinished(listed, cursor, tables, pages, owner, fits)
    {
      var after := pages + 1;
      listed, cursor := WalkOn(tables, limits[pages], owner, fits, pages, after, listed, cursor);
      if cursor.None? {
        return listed, true;
      }
      pages := after;
    }
    UnfinishedNeedsMore(listed, cursor, tables, owner, fits);
  }

  /** An identifier keeps its row from one table to another, so no document is listed twice. */
  lemma NoneTwice(listed: seq<Row>, tables: seq<Table>, i: nat, j: nat)
    requires Descending(listed) && i < j < |listed|
    requires forall k | 0 <= k < |listed| :: Seen(listed[k], tables)
    requires forall r, s | Seen(r, tables) && Seen(s, tables) && r.id == s.id :: r == s
    ensures listed[i].id != listed[j].id
  {
    assert Below(listed[j].Key(), listed[i].Key());
  }
}
