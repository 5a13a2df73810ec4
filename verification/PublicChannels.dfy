/** The list of a topic's public channels: pages of rows that are neither deleted nor made by a
    hidden author. */
module PublicChannels {
  import opened Order
  import opened Paging

  datatype Channel = Channel(pos: Pos, deleted: bool, creator: string)

  /** The rows of the list as a table, hidden where the list passes over them. */
  function Table(channels: seq<Channel>, authors: set<string>): (t: seq<Row>)
    ensures |t| == |channels|
    ensures forall i | 0 <= i < |t| ::
              t[i] == Row(channels[i].pos, channels[i].deleted || channels[i].creator in authors)
  {
    seq(|channels|, i requires 0 <= i < |channels| =>
      Row(channels[i].pos, channels[i].deleted || channels[i].creator in authors))
  }

  /** `visible_public_channels` on a fixed table. */
  method VisibleChannels(table: seq<Row>, c: Cursor, limit: nat) returns (p: Page)
    requires Newest(table)
    ensures limit == 0 ==> p == Page([], c)
    ensures limit > 0 ==> PageOk(table, c, p) && |p.items| <= limit
    ensures limit > 0 && p.next.Some? ==> Skip(table, p.next) > Skip(table, c)
    ensures limit > 0 ==> WithinReach(table, c, limit, if limit > 20 then limit else 20, p)
  {
    if limit == 0 { return Page([], c); }
    p := ReadPages(table, c, limit, PageSize(limit));
  }

  method ReadPages(table: seq<Row>, c: Cursor, limit: nat, size: nat) returns (p: Page)
    requires Newest(table) && 0 < limit && 0 < size
    ensures PageOk(table, c, p) && |p.items| <= limit
    ensures p.next.Some? ==> Skip(table, p.next) > Skip(table, c)
    ensures WithinReach(table, c, limit, size, p)
  {
    var current, items := c, [];
    var start := Skip(table, c);
    assert table[start..start] == [];
    for i := 0 to SKIP_PAGES
      invariant Skip(table, current) >= start && |items| < limit
      invariant items == Visible(table[start..Skip(table, current)])
      invariant i == 0 ==> current == c
      invariant i > 0 ==> current.Some? && Past(current.value, c) && Skip(table, current) > start
      invariant Skip(table, current) == start + i * size
    {
      OneMorePage(i, size);
      var page := ReadStore(table, current, size);
      var full;
      items, full := TakeRows(table, start, current, page, items, limit);
      if full {
        FurtherPast(items[|items| - 1].pos, current, c);
        return Page(items, Some(items[|items| - 1].pos));
      }
      if page.next.Some? {
        FurtherPast(page.next.value, current, c);
      }
      current := page.next;
      if current.None? { break; }
    }
    p := Page(items, current);
  }

  /** Adds the rows of one store page until `limit` is reached. */
  method TakeRows(table: seq<Row>, start: nat, c: Cursor, page: Page, had: seq<Row>, limit: nat)
    returns (items: seq<Row>, full: bool)
    requires Newest(table) && start <= Skip(table, c) && |had| < limit && Between(table, c, page)
    requires had == Visible(table[start..Skip(table, c)])
    ensures |items| <= limit && (full <==> |items| == limit)
    ensures !full ==> items == Visible(table[start..End(table, page.next)])
    ensures full ==>
              var next := Some(items[|items| - 1].pos);
              && Past(next.value, c) && Skip(table, c) < Skip(table, next) <= Skip(table, c) + |page.items|
              && items == Visible(table[start..Skip(table, next)])
  {
    var k := Skip(table, c);
    items := had;
    for i := 0 to |page.items|
      invariant items == Visible(table[start..k + i]) && |items| < limit
    {
      var row := page.items[i];
      assert row == table[k + i];
      VisibleOne(table, start, k + i);
      if !row.hidden {
        items := items + [row];
        if |items| == limit {
          SkipAt(table, k + i);
          SkipSplits(table, c, k + i);
          return items, true;
        }
      }
    }
    return items, false;
  }

  /** Following the cursors ends, with exactly the rows that are shown, once each and in order. */
  method WalkChannels(channels: seq<Channel>, authors: set<string>, limit: nat) returns (all: seq<Row>)
    requires limit > 0 && Newest(Table(channels, authors))
    ensures all == Visible(Table(channels, authors)) && Newest(all)
  {
    var table := Table(channels, authors);
    all := [];
    var c: Cursor, more := None, true;
    assert table[0..0] == [] && table[0..|table|] == table;
    while more
      invariant more ==> all == Visible(table[0..Skip(table, c)])
      invariant !more ==> all == Visible(table)
      decreases more, |table| - Skip(table, c)
    {
      var p := VisibleChannels(table, c, limit);
      VisibleRange(table, 0, Skip(table, c), End(table, p.next));
      all := all + p.items;
      c, more := p.next, p.next.Some?;
    }
    VisibleNewest(table);
  }
}
