/** Pages over a table in newest-first order: rows past a cursor, some of them hidden, and the
    walk that follows the returned cursors. */
module Paging {
  import opened Order

  datatype Row = Row(pos: Pos, hidden: bool)

  type Cursor = Option<Pos>

  /** Strictly newest first; positions are distinct. */
  predicate Newest(table: seq<Row>) {
    forall i, j {:trigger Less(table[j].pos, table[i].pos)} | 0 <= i < j < |table| ::
      Less(table[j].pos, table[i].pos)
  }

  /** Whether a row lies past the cursor, on the older side. */
  predicate Past(p: Pos, c: Cursor) { c.Some? ==> Less(p, c.value) }

  /** How many rows the cursor has passed; all rows from there on lie past it. */
  function Skip(table: seq<Row>, c: Cursor): (k: nat)
    ensures k <= |table|
  {
    if table == [] || Past(table[0].pos, c) then 0 else 1 + Skip(table[1..], c)
  }

  lemma {:induction false} SkipIs(table: seq<Row>, c: Cursor, k: nat)
    requires k <= |table| && (forall i | 0 <= i < k :: !Past(table[i].pos, c))
    requires k < |table| ==> Past(table[k].pos, c)
    ensures Skip(table, c) == k
  {
    if k > 0 {
      assert !Past(table[0].pos, c);
      SkipIs(table[1..], c, k - 1);
    }
  }

  lemma {:induction false} SkipMeans(table: seq<Row>, c: Cursor)
    ensures forall i | 0 <= i < Skip(table, c) :: !Past(table[i].pos, c)
    ensures Skip(table, c) < |table| ==> Past(table[Skip(table, c)].pos, c)
  {
    if table != [] && !Past(table[0].pos, c) {
      SkipMeans(table[1..], c);
    }
  }

  lemma SkipSplits(table: seq<Row>, c: Cursor, i: nat)
    requires Newest(table) && i < |table|
    ensures Past(table[i].pos, c) <==> i >= Skip(table, c)
  {
    var k := Skip(table, c);
    SkipMeans(table, c);
    if k < i && c.Some? {
      assert Less(table[i].pos, table[k].pos);
      LessTransitive(table[i].pos, table[k].pos, c.value);
    }
  }

  /** The cursor of a row has passed exactly the rows up to it. */
  lemma SkipAt(table: seq<Row>, k: nat)
    requires Newest(table) && k < |table|
    ensures Skip(table, Some(table[k].pos)) == k + 1
  {
    var c := Some(table[k].pos);
    forall i | 0 <= i < k + 1
      ensures !Past(table[i].pos, c)
    {
      assert i < k ==> Less(table[k].pos, table[i].pos);
      NotBoth(table[i].pos, table[k].pos);
    }
    if k + 1 < |table| {
      assert Less(table[k + 1].pos, table[k].pos);
    }
    SkipIs(table, c, k + 1);
  }

  /** A cursor further on has passed at least as many rows. */
  lemma SkipMonotone(table: seq<Row>, c: Cursor, p: Pos)
    requires Newest(table) && Past(p, c)
    ensures Skip(table, c) <= Skip(table, Some(p))
  {
    var k := Skip(table, Some(p));
    if k < |table| && c.Some? {
      SkipMeans(table, Some(p));
      LessTransitive(table[k].pos, p, c.value);
      SkipSplits(table, c, k);
    } else if c.None? {
      assert table != [] ==> Past(table[0].pos, c);
    }
  }

  lemma FurtherPast(p: Pos, c: Cursor, d: Cursor)
    requires Past(p, c) && (c == d || (c.Some? && Past(c.value, d)))
    ensures Past(p, d)
  {
    if c != d && d.Some? {
      LessTransitive(p, c.value, d.value);
    }
  }

  function Visible(s: seq<Row>): (r: seq<Row>) {
    if s == [] then []
    else Visible(s[..|s| - 1]) + (if s[|s| - 1].hidden then [] else [s[|s| - 1]])
  }

  lemma {:induction false} VisibleAppend(s: seq<Row>, t: seq<Row>)
    ensures Visible(s + t) == Visible(s) + Visible(t)
  {
    if t == [] {
      assert s + t == s;
    } else {
      VisibleAppend(s, t[..|t| - 1]);
      assert (s + t)[..|s + t| - 1] == s + t[..|t| - 1];
    }
  }

  lemma VisibleRange(table: seq<Row>, i: nat, j: nat, k: nat)
    requires i <= j <= k <= |table|
    ensures Visible(table[i..j]) + Visible(table[j..k]) == Visible(table[i..k])
  {
    VisibleAppend(table[i..j], table[j..k]);
    assert table[i..j] + table[j..k] == table[i..k];
  }

  lemma VisibleOne(table: seq<Row>, i: nat, j: nat)
    requires i <= j < |table|
    ensures Visible(table[i..j + 1]) == Visible(table[i..j]) + if table[j].hidden then [] else [table[j]]
  {
    assert table[i..j + 1][..j - i] == table[i..j];
  }

  // ------------------------------------------------------------------ the store's page

  /** How many store pages a request reads at most while it passes over hidden rows. */
  const SKIP_PAGES: nat := 4

  function PageSize(limit: nat): (n: nat) { if limit > 20 then limit else 20 }

  datatype Page = Page(items: seq<Row>, next: Cursor)

  /** Up to `n` rows past the cursor; a cursor only when the page is full. */
  function StorePage(table: seq<Row>, c: Cursor, n: nat): (p: Page) {
    var k := Skip(table, c);
    var rows := table[k..Min(k + n, |table|)];
    Page(rows, if |rows| == n && n > 0 then Some(rows[n - 1].pos) else None)
  }

  /** The end of a page, as a row index. */
  function End(table: seq<Row>, next: Cursor): (k: nat)
    ensures k <= |table|
  {
    if next.None? then |table| else Skip(table, next)
  }

  /** The rows between a cursor and the next one, which lies strictly further on. */
  predicate Between(table: seq<Row>, c: Cursor, p: Page) {
    var k, e := Skip(table, c), End(table, p.next);
    && k <= e && p.items == table[k..e]
    && (p.next.Some? ==> Past(p.next.value, c) && k < e)
  }

  lemma BetweenRows(table: seq<Row>, c: Cursor, e: nat)
    requires Newest(table) && Skip(table, c) < e <= |table|
    ensures Between(table, c, Page(table[Skip(table, c)..e], Some(table[e - 1].pos)))
  {
    SkipAt(table, e - 1);
    SkipSplits(table, c, e - 1);
  }

  lemma StorePageEnd(table: seq<Row>, c: Cursor, n: nat)
    requires Newest(table) && n > 0
    ensures Between(table, c, StorePage(table, c, n))
  {
    var k := Skip(table, c);
    if k + n <= |table| {
      BetweenRows(table, c, k + n);
      var rows := table[k..k + n];
      assert rows[n - 1] == table[k + n - 1];
    }
  }

  /** The rows on one more full store page. */
  lemma OneMorePage(i: nat, size: nat)
    ensures (i + 1) * size == i * size + size
    ensures i < 4 ==> (i + 1) * size <= 4 * size && (i + 1) * size in {size, 2 * size, 3 * size, 4 * size}
  {
  }

  /** A request passes at most four store pages. It stops short of `limit` with a
      cursor only after all of them, and without a cursor only before their end. */
  predicate WithinReach(table: seq<Row>, c: Cursor, limit: nat, size: nat, p: Page) {
    var reach, passed := 4 * size, End(table, p.next) - Skip(table, c);
    && (p.next.Some? ==> passed <= reach && (|p.items| == limit || passed == reach))
    && (p.next.None? ==> passed < reach)
  }

  /** The store's query for one page. */
  method ReadStore(table: seq<Row>, c: Cursor, n: nat) returns (p: Page)
    requires Newest(table) && n > 0
    ensures Between(table, c, p) && |p.items| <= n
    ensures p.next.Some? ==> End(table, p.next) == Skip(table, c) + n
    ensures p.next.None? ==> |table| < Skip(table, c) + n
  {
    StorePageEnd(table, c, n);
    p := StorePage(table, c, n);
  }

  // ------------------------------------------------------------------ pages of a walk

  /** A page returns exactly the visible rows between its cursor and its next cursor, and its
      next cursor lies strictly past its cursor. */
  predicate PageOk(table: seq<Row>, c: Cursor, p: Page) {
    var k, e := Skip(table, c), End(table, p.next);
    k <= e && p.items == Visible(table[k..e]) && (p.next.Some? ==> Past(p.next.value, c))
  }

  /** The cursor a walk has reached. */
  function Reached(pages: seq<Page>): (c: Cursor) {
    if pages == [] then None else pages[|pages| - 1].next
  }

  /** Pages that follow one another from the start of the table. */
  predicate IsWalk(table: seq<Row>, pages: seq<Page>) {
    pages != [] ==>
      var init := pages[..|pages| - 1];
      && IsWalk(table, init) && (init != [] ==> Reached(init).Some?)
      && PageOk(table, Reached(init), pages[|pages| - 1])
  }

  function Together(pages: seq<Page>): (r: seq<Row>) {
    if pages == [] then [] else Together(pages[..|pages| - 1]) + pages[|pages| - 1].items
  }

  /** The pages of a walk are the visible rows up to its last cursor, in order and once each;
      when the last page has no cursor they are all of them. */
  lemma {:induction false} WalkIsExact(table: seq<Row>, pages: seq<Page>)
    requires Newest(table) && pages != [] && IsWalk(table, pages)
    ensures Together(pages) == Visible(table[0..End(table, Reached(pages))])
    ensures Reached(pages).None? ==> Together(pages) == Visible(table)
  {
    var init, last := pages[..|pages| - 1], pages[|pages| - 1];
    var k, e := Skip(table, Reached(init)), End(table, last.next);
    assert table[0..|table|] == table;
    if init == [] {
      assert k == 0;
    } else {
      WalkIsExact(table, init);
      VisibleRange(table, 0, k, e);
    }
  }

  lemma {:induction false} VisibleMembers(s: seq<Row>, x: Row)
    ensures x in Visible(s) <==> x in s && !x.hidden
  {
    if s != [] {
      VisibleMembers(s[..|s| - 1], x);
      assert s == s[..|s| - 1] + [s[|s| - 1]];
    }
  }

  lemma NewestInit(s: seq<Row>)
    requires Newest(s) && s != []
    ensures Newest(s[..|s| - 1])
    ensures forall x | x in s[..|s| - 1] :: Less(s[|s| - 1].pos, x.pos)
  {
  }

  /** What a walk returns is again newest first, so no row comes twice. */
  lemma {:induction false} VisibleNewest(s: seq<Row>)
    requires Newest(s)
    ensures Newest(Visible(s))
  {
    if s != [] {
      var t, x := s[..|s| - 1], s[|s| - 1];
      NewestInit(s);
      VisibleNewest(t);
      var v := Visible(t);
      forall y | y in v
        ensures Less(x.pos, y.pos)
      {
        VisibleMembers(t, y);
      }
      var w := v + [x];
      forall i, j | 0 <= i < j < |w|
        ensures Less(w[j].pos, w[i].pos)
      {
        if j == |v| {
          assert v[i] in v;
        } else {
          assert Less(v[j].pos, v[i].pos);
        }
      }
    }
  }
}
