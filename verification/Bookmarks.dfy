/** Two-way paging of bookmarked posts, twenty rows at a time. */
module Bookmarks {
  import opened Order
  import opened Paging

  const SIZE: nat := 20

  /** A page of rows with the cursors to either side. What the caller sees of the rows are the
      visible ones. */
  datatype BookmarkPage = BookmarkPage(rows: seq<Row>, newer: Cursor, older: Cursor)

  function First(rows: seq<Row>): (c: Cursor) { if rows == [] then None else Some(rows[0].pos) }

  function Last(rows: seq<Row>): (c: Cursor) { if rows == [] then None else Some(rows[|rows| - 1].pos) }

  /** How many rows are strictly newer than a position. */
  function Above(table: seq<Row>, p: Pos): (m: nat)
    ensures m <= |table|
  {
    if table == [] || !Less(p, table[0].pos) then 0 else 1 + Above(table[1..], p)
  }

  /** The store's query: 21 rows past the cursor, going to older rows from the newest, or to
      newer rows from the cursor. */
  function OlderRows(table: seq<Row>, c: Cursor): (rows: seq<Row>)
    ensures |rows| <= 21
  {
    var k := Skip(table, c);
    table[k..Min(k + SIZE + 1, |table|)]
  }

  function NewerRows(table: seq<Row>, p: Pos): (rows: seq<Row>)
    ensures |rows| <= 21
  {
    var m := Above(table, p);
    Reversed(table[if m > SIZE + 1 then m - SIZE - 1 else 0..m])
  }

  function Reversed(s: seq<Row>): (r: seq<Row>) {
    seq(|s|, i requires 0 <= i < |s| => s[|s| - 1 - i])
  }

  predicate Stored(table: seq<Row>, id: string) { exists i | 0 <= i < |table| :: table[i].pos.id == id }

  /** `list_bookmarked_posts_page`; none when a newer page is asked for without a cursor. */
  method ListPage(table: seq<Row>, c: Cursor, before: bool) returns (p: Option<BookmarkPage>, items: seq<Row>)
    requires Newest(table)
    ensures before && c.None? ==> p.None?
    ensures before && c.Some? ==> p == Some(NewerPage(table, c.value))
    ensures !before ==> p == Some(OlderPage(table, c))
    ensures p.Some? ==> |p.value.rows| <= 20 && items == Visible(p.value.rows)
  {
    if before && c.None? { return None, []; }
    var rows := if before then NewerRows(table, c.value) else OlderRows(table, c);
    var hasMore := |rows| > SIZE;
    if hasMore { rows := rows[..SIZE]; }
    if before {
      NewerPageIs(table, c.value, rows, hasMore);
      rows := Reversed(rows);
      var kept := Stored(table, c.value.id);
      p := Some(BookmarkPage(rows, if hasMore then First(rows) else None, if kept then Last(rows) else None));
    } else {
      OlderPageIs(table, c, rows, hasMore);
      p := Some(BookmarkPage(rows, if c.Some? then First(rows) else None, if hasMore then Last(rows) else None));
    }
    items := Shown(rows);
  }

  method Shown(rows: seq<Row>) returns (items: seq<Row>)
    ensures items == Visible(rows)
  {
    items := [];
    for i := 0 to |rows|
      invariant items == Visible(rows[..i])
    {
      assert rows[..i + 1][..i] == rows[..i];
      if !rows[i].hidden {
        items := items + [rows[i]];
      }
    }
    assert rows[..|rows|] == rows;
  }

  // ------------------------------------------------------------------ the pages as table ranges

  function OlderPage(table: seq<Row>, c: Cursor): (p: BookmarkPage) {
    var k := Skip(table, c);
    var rows := table[k..Min(k + SIZE, |table|)];
    BookmarkPage(rows, if c.Some? then First(rows) else None, if k + SIZE < |table| then Last(rows) else None)
  }

  function NewerPage(table: seq<Row>, p: Pos): (r: BookmarkPage) {
    var m := Above(table, p);
    var rows := table[if m > SIZE then m - SIZE else 0..m];
    BookmarkPage(rows, if m > SIZE then First(rows) else None, if Stored(table, p.id) then Last(rows) else None)
  }

  lemma OlderPageIs(table: seq<Row>, c: Cursor, rows: seq<Row>, more: bool)
    requires more <==> |OlderRows(table, c)| > SIZE
    requires rows == if more then OlderRows(table, c)[..SIZE] else OlderRows(table, c)
    ensures rows == OlderPage(table, c).rows && (more <==> Skip(table, c) + SIZE < |table|)
  {
  }

  lemma NewerPageIs(table: seq<Row>, p: Pos, rows: seq<Row>, more: bool)
    requires more <==> |NewerRows(table, p)| > SIZE
    requires rows == if more then NewerRows(table, p)[..SIZE] else NewerRows(table, p)
    ensures Reversed(rows) == NewerPage(table, p).rows && (more <==> Above(table, p) > SIZE)
  {
  }

  // ------------------------------------------------------------------ lossless in both directions

  lemma {:induction false} AboveIs(table: seq<Row>, p: Pos, m: nat)
    requires m <= |table| && (forall i | 0 <= i < m :: Less(p, table[i].pos))
    requires m < |table| ==> !Less(p, table[m].pos)
    ensures Above(table, p) == m
  {
    if m > 0 {
      assert Less(p, table[0].pos);
      AboveIs(table[1..], p, m - 1);
    }
  }

  lemma AboveAt(table: seq<Row>, k: nat)
    requires Newest(table) && k < |table|
    ensures Above(table, table[k].pos) == k
  {
    NotBoth(table[k].pos, table[k].pos);
    forall i | 0 <= i < k
      ensures Less(table[k].pos, table[i].pos)
    {
    }
    AboveIs(table, table[k].pos, k);
  }

  /** The older walk: every page is the range of rows from its cursor to its older cursor, so
      each row is on exactly one page and the walk moves on. */
  lemma OlderPageOk(table: seq<Row>, c: Cursor)
    requires Newest(table)
    ensures Between(table, c, Page(OlderPage(table, c).rows, OlderPage(table, c).older))
    ensures PageOk(table, c, Page(Visible(OlderPage(table, c).rows), OlderPage(table, c).older))
  {
    var k := Skip(table, c);
    if k + SIZE < |table| {
      BetweenRows(table, c, k + SIZE);
      var rows := table[k..k + SIZE];
      assert rows[SIZE - 1] == table[k + SIZE - 1];
    }
  }

  /** A reader who goes on to older pages sees every row once and in order. */
  method WalkOlder(table: seq<Row>) returns (all: seq<Row>)
    requires Newest(table)
    ensures all == table
  {
    all := [];
    var c: Cursor, more := None, true;
    while more
      invariant more ==> all == table[..Skip(table, c)]
      invariant !more ==> all == table
      decreases more, |table| - Skip(table, c)
    {
      OlderPageOk(table, c);
      var p, _ := ListPage(table, c, false);
      all := all + p.value.rows;
      c, more := p.value.older, p.value.older.Some?;
    }
  }

  lemma NewerCursor(table: seq<Row>, c: Pos)
    ensures var k, page := Skip(table, Some(c)), OlderPage(table, Some(c));
            page.newer == (if k < |table| then Some(table[k].pos) else None) && (page.rows != [] <==> k < |table|)
  {
  }

  lemma NewerFrom(table: seq<Row>, k: nat)
    requires Newest(table) && k < |table|
    ensures var back := NewerPage(table, table[k].pos);
            && back.rows == table[if k > SIZE then k - SIZE else 0..k]
            && back.older == if k > 0 then Some(table[k - 1].pos) else None
  {
    AboveAt(table, k);
    assert Stored(table, table[k].pos.id);
  }

  lemma OlderFrom(table: seq<Row>, k: nat)
    requires Newest(table) && 0 < k <= |table|
    ensures var page := OlderPage(table, Some(table[k - 1].pos));
            && page.rows == table[k..Min(k + SIZE, |table|)] && page.newer == First(page.rows)
            && page.older == if k + SIZE < |table| then Last(page.rows) else None
  {
    SkipAt(table, k - 1);
  }

  /** Where the newer cursor of a page and the older cursor found there lead. */
  function ThereAndBack(table: seq<Row>, page: BookmarkPage): (back: Option<BookmarkPage>) {
    if page.newer.None? then None
    else
      var newer := NewerPage(table, page.newer.value);
      if newer.older.None? then None else Some(OlderPage(table, newer.older))
  }

  predicate ComesBack(table: seq<Row>, page: BookmarkPage) { ThereAndBack(table, page) == Some(page) }

  /** Going to the newer page and back to the older one returns the page one came from, with its
      rows and both its cursors, exactly when it has rows and some row is newer than it. */
  lemma ThereAndBackIff(table: seq<Row>, c: Pos)
    requires Newest(table)
    ensures var page := OlderPage(table, Some(c));
            ComesBack(table, page) <==> page.rows != [] && Skip(table, Some(c)) > 0
  {
    var k, page := Skip(table, Some(c)), OlderPage(table, Some(c));
    NewerCursor(table, c);
    assert page.rows == table[k..Min(k + SIZE, |table|)];
    if k < |table| {
      NewerFrom(table, k);
      if k > 0 {
        OlderFrom(table, k);
      }
    }
  }

  /** The same for a page reached by going newer: whenever it offers a newer cursor, going there and
      back returns to its rows, so pressing "newer" any number of times can be undone. The page is
      the same, cursors included, exactly when the id one came from is stored and some row is not
      newer than its position, or neither. */
  lemma NewerComesBack(table: seq<Row>, c: Pos)
    requires Newest(table) && NewerPage(table, c).newer.Some?
    ensures var page := NewerPage(table, c);
            var back := ThereAndBack(table, page);
            && back.Some? && back.value.rows == page.rows && back.value.newer == page.newer
            && (ComesBack(table, page) <==>
                ((exists i | 0 <= i < |table| :: table[i].pos.id == c.id) <==> Above(table, c) < |table|))
  {
    var k := Above(table, c) - SIZE;
    assert NewerPage(table, c).newer == Some(table[k].pos);
    NewerFrom(table, k);
    OlderFrom(table, k);
  }

  /** The only row, asked for past a position that is newer than it: nothing leads back. */
  lemma NoWayBackExample()
    ensures var table, c := [Row(Pos(1, "a"), false)], Pos(2, "b");
            Newest(table) && OlderPage(table, Some(c)).newer.Some? && !ComesBack(table, OlderPage(table, Some(c)))
  {
    var table, c := [Row(Pos(1, "a"), false)], Pos(2, "b");
    ThereAndBackIff(table, c);
  }

  /** The newer page lies directly above the page one came from: no row is left out between. */
  lemma NewerIsAdjacent(table: seq<Row>, c: Pos)
    requires Newest(table) && OlderPage(table, Some(c)).newer.Some?
    ensures var k := Skip(table, Some(c));
            NewerPage(table, OlderPage(table, Some(c)).newer.value).rows
            == table[if k > SIZE then k - SIZE else 0..k]
  {
    NewerCursor(table, c);
    NewerFrom(table, Skip(table, Some(c)));
  }
}
