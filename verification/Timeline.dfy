/** The newest-first timeline: filtered pages of the projection, and the read-past positions of
    a reconcile that end a page early. */
module Timeline {
  import opened Order
  import opened Paging

  /** `take_visible_rows`: adds visible rows of one store page until `limit` is reached. `done`
      says whether the filtered page ends here, and `next` where to go on. */
  method TakeVisible(table: seq<Row>, start: nat, c: Cursor, page: Page, had: seq<Row>, limit: nat)
    returns (items: seq<Row>, done: bool, next: Cursor)
    requires Newest(table) && start <= Skip(table, c) && |had| < limit && Between(table, c, page)
    requires had == Visible(table[start..Skip(table, c)])
    ensures Skip(table, c) <= End(table, next) && items == Visible(table[start..End(table, next)])
    ensures next.Some? ==> Past(next.value, c) && End(table, next) > Skip(table, c)
    ensures !done ==> next.Some? && next == page.next && |items| < limit
    ensures |items| <= limit
    ensures done && next.Some? ==> |items| == limit && End(table, next) <= Skip(table, c) + |page.items|
    ensures next.None? ==> page.next.None?
    // No cursor is left at the last row of a store page that was the last.
    ensures next.Some? && End(table, next) == |table| ==> page.next.Some?
  {
    var k := Skip(table, c);
    items := had;
    for i := 0 to |page.items|
      invariant items == Visible(table[start..k + i]) && |items| < limit
    {
      var row := page.items[i];
      assert row == table[k + i];
      VisibleOne(table, start, k + i);
      if !row.hidden {
        items := items + [row];
        if |items| >= limit {
          var exhausted := i + 1 == |page.items| && page.next.None?;
          SkipAt(table, k + i);
          SkipSplits(table, c, k + i);
          return items, true, if exhausted then None else Some(row.pos);
        }
      }
    }
    return items, page.next.None?, page.next;
  }

  /** `filtered_timeline_page`. */
  method FilteredPage(table: seq<Row>, c: Cursor, limit: nat) returns (p: Page)
    requires Newest(table)
    ensures limit == 0 ==> p == Page([], c)
    ensures limit > 0 ==> PageOk(table, c, p) && |p.items| <= limit
    ensures limit > 0 && p.next.Some? ==> Skip(table, p.next) > Skip(table, c)
    ensures limit > 0 ==> WithinReach(table, c, limit, if limit > 20 then limit else 20, p)
    ensures limit > 0 ==> EndsWhole(table, c, if limit > 20 then limit else 20, p)
  {
    if limit == 0 { return Page([], c); }
    p := ReadPages(table, c, limit, PageSize(limit));
  }

  /** A cursor is given at the last row of the table only where a store page ended there. */
  predicate EndsWhole(table: seq<Row>, c: Cursor, size: nat, p: Page) {
    p.next.Some? && Skip(table, p.next) == |table| ==>
      |table| - Skip(table, c) in {size, 2 * size, 3 * size, 4 * size}
  }

  method ReadPages(table: seq<Row>, c: Cursor, limit: nat, size: nat) returns (p: Page)
    requires Newest(table) && 0 < limit && 0 < size
    ensures PageOk(table, c, p) && |p.items| <= limit
    ensures p.next.Some? ==> Skip(table, p.next) > Skip(table, c)
    ensures WithinReach(table, c, limit, size, p) && EndsWhole(table, c, size, p)
  {
    var current, items := c, [];
    var start := Skip(table, c);
    assert table[start..start] == [];
    for i := 0 to SKIP_PAGES
      invariant Skip(table, current) >= start && |items| < limit
      invariant items == Visible(table[start..Skip(table, current)])
      invariant i == 0 ==> current == c
      invariant i > 0 ==> current.Some? && Past(current.value, c) && Skip(table, current) > start
      invariant Skip(table, current) == start + i * size
    {
      OneMorePage(i, size);
      var page := ReadStore(table, current, size);
      var more, done, next := TakeVisible(table, start, current, page, items, limit);
      if next.Some? {
        FurtherPast(next.value, current, c);
      }
      items := more;
      if done { return Page(items, next); }
      current := next;
    }
    p := Page(items, current);
  }

  function Retained(items: seq<Row>, edge: Pos): (r: seq<Row>) {
    if items == [] then []
    else Retained(items[..|items| - 1], edge)
         + (if Less(items[|items| - 1].pos, edge) then [] else [items[|items| - 1]])
  }

  /** `continue_past_unavailable` for the newest-first order: an exhausted page whose reconcile
      stopped at `readPast` ends there instead. */
  method ContinuePast(p: Page, readPast: Cursor) returns (r: Page)
    ensures r == if p.next.Some? || readPast.None? then p else Page(Retained(p.items, readPast.value), readPast)
  {
    if p.next.Some? { return p; }
    if readPast.None? { return p; }
    var edge := readPast.value;
    var items: seq<Row> := [];
    for i := 0 to |p.items|
      invariant items == Retained(p.items[..i], edge)
    {
      assert p.items[..i + 1][..i] == p.items[..i];
      if !Less(p.items[i].pos, edge) {
        items := items + [p.items[i]];
      }
    }
    assert p.items[..|p.items|] == p.items;
    r := Page(items, readPast);
  }

  lemma RetainedSnoc(v: seq<Row>, x: Row, edge: Pos)
    ensures Retained(v + [x], edge) == Retained(v, edge) + if Less(x.pos, edge) then [] else [x]
  {
  }

  /** Cutting at the edge keeps exactly the visible rows before row `m`, where the edge lies. */
  lemma {:induction false} RetainedRange(table: seq<Row>, k: nat, e: nat, edge: Pos, m: nat)
    requires k <= m <= |table| && k <= e <= |table|
    requires forall i | k <= i < e :: Less(table[i].pos, edge) <==> i >= m
    ensures Retained(Visible(table[k..e]), edge) == Visible(table[k..Min(e, m)])
    decreases e
  {
    if e == k {
      assert table[k..e] == [];
    } else {
      RetainedRange(table, k, e - 1, edge, m);
      VisibleOne(table, k, e - 1);
      RetainedSnoc(Visible(table[k..e - 1]), table[e - 1], edge);
      assert Visible(table[k..e - 1]) + [] == Visible(table[k..e - 1]);
    }
  }

  /** A cut page is a proper page of the walk exactly when the read-past position lies strictly
      past the cursor of the request. */
  lemma CutPageIff(table: seq<Row>, c: Cursor, p: Page, edge: Pos)
    requires Newest(table) && PageOk(table, c, p) && p.next.None?
    ensures PageOk(table, c, Page(Retained(p.items, edge), Some(edge))) <==> Past(edge, c)
  {
    if Past(edge, c) {
      SkipMonotone(table, c, edge);
      forall i | 0 <= i < |table|
        ensures Less(table[i].pos, edge) <==> i >= Skip(table, Some(edge))
      {
        SkipSplits(table, Some(edge), i);
      }
      RetainedRange(table, Skip(table, c), |table|, edge, Skip(table, Some(edge)));
    }
  }

  /** Otherwise the cut page is empty and its cursor has not moved on: the next request asks the same
      again, or begins with rows that an earlier page has returned. */
  lemma CutPageStalls(table: seq<Row>, c: Pos, p: Page, edge: Pos, next: Page)
    requires Newest(table) && PageOk(table, Some(c), p) && p.next.None? && !Past(edge, Some(c))
    requires PageOk(table, Some(edge), next)
    ensures var k, e := Skip(table, Some(edge)), Skip(table, Some(c));
            && Retained(p.items, edge) == [] && k <= e
            && (End(table, next.next) >= e ==> Visible(table[k..e]) <= next.items)
  {
    var k, e := Skip(table, Some(edge)), Skip(table, Some(c));
    NotPastBack(table, c, edge);
    forall i | e <= i < |table|
      ensures Less(table[i].pos, edge)
    {
      SkipSplits(table, Some(edge), i);
    }
    RetainedRange(table, e, |table|, edge, e);
    assert table[e..e] == [];
    if End(table, next.next) >= e {
      VisibleRange(table, k, e, End(table, next.next));
    }
  }

  lemma NotPastBack(table: seq<Row>, c: Pos, edge: Pos)
    requires Newest(table) && !Past(edge, Some(c))
    ensures Skip(table, Some(edge)) <= Skip(table, Some(c))
  {
    PosOrder();
    if edge != c {
      SkipMonotone(table, Some(edge), c);
    }
  }

  /** `list_timeline_scoped` on a fixed projection, whatever position the reconcile reports. */
  method ListTimeline(table: seq<Row>, c: Cursor, limit: nat, readPast: Cursor) returns (p: Page)
    requires Newest(table) && limit > 0 && (readPast.Some? ==> Past(readPast.value, c))
    ensures PageOk(table, c, p)
    ensures readPast.None? && p.next.Some? ==> Skip(table, p.next) > Skip(table, c)
  {
    var page := FilteredPage(table, c, limit);
    if page.next.None? && readPast.Some? {
      CutPageIff(table, c, page, readPast.value);
    }
    p := ContinuePast(page, readPast);
  }

  /** A reader who follows the cursors to the end, while the first requests meet the given
      read-past positions, sees every visible row once and in order. */
  method WalkTimeline(table: seq<Row>, limit: nat, reports: seq<Cursor>) returns (all: seq<Row>)
    requires Newest(table) && limit > 0
    ensures all == Visible(table) && Newest(all)
  {
    all := [];
    var c: Cursor, n, more := None, 0, true;
    assert table[0..0] == [] && table[0..|table|] == table;
    while more
      invariant n <= |reports| && (more ==> all == Visible(table[0..Skip(table, c)]))
      invariant !more ==> all == Visible(table)
      decreases more, |reports| - n, |table| - Skip(table, c)
    {
      var report: Cursor := None;
      if n < |reports| {
        if reports[n].Some? && Past(reports[n].value, c) {
          report := reports[n];
        }
        n := n + 1;
      }
      var p := ListTimeline(table, c, limit, report);
      VisibleRange(table, 0, Skip(table, c), End(table, p.next));
      all := all + p.items;
      c, more := p.next, p.next.Some?;
    }
    VisibleNewest(table);
  }
}
