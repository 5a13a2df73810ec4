/** One page of a time index, merged from several readers.

    `merged_index_page` asks every reader for the entries after a cursor, oldest first, and
    merges the answers in time order. A reader that times out or fails has no answer. */
module IndexMerge {
  import opened Order

  datatype Entry = Entry(pos: Pos, author: Option<string>)

  /** What `query_time_index_asc` returns. `resume` is set when the walk ran out of queries
      before it had collected `limit` entries. */
  datatype Page = Page(entries: seq<Entry>, resume: Option<Pos>)

  /** An entry and the number of the reader that returned it first. */
  datatype Hit = Hit(entry: Entry, slot: nat)

  datatype Merged = Merged(entries: seq<Hit>, more: bool, answered: bool)

  predicate Ordered(es: seq<Entry>) {
    forall i, j | 0 <= i < j < |es| :: Less(es[i].pos, es[j].pos)
  }

  predicate Offers(page: Page, k: Pos) {
    exists i | 0 <= i < |page.entries| :: page.entries[i].pos == k
  }

  predicate Offered(replies: seq<Option<Page>>, k: Pos) {
    exists r | 0 <= r < |replies| :: replies[r].Some? && Offers(replies[r].value, k)
  }

  predicate Returns(m: Merged, k: Pos) {
    exists i | 0 <= i < |m.entries| :: m.entries[i].entry.pos == k
  }

  /** A page that reached the limit: what lies behind its last entry has not been read. */
  predicate Full(page: Page, limit: nat) {
    |page.entries| >= limit && page.entries != []
  }

  /** `k` is not behind the last entry of any full page. */
  predicate WithinBound(replies: seq<Option<Page>>, limit: nat, k: Pos) {
    forall r | 0 <= r < |replies| && replies[r].Some? && Full(replies[r].value, limit) ::
      var last := replies[r].value.entries[|replies[r].value.entries| - 1].pos;
      !Less(last, k)
  }

  predicate InOrder(m: Merged) {
    forall i, j | 0 <= i < j < |m.entries| :: Less(m.entries[i].entry.pos, m.entries[j].entry.pos)
  }

  /** The entry came from the reader named, and no reader before it returned that position. */
  predicate FirstReaderWins(replies: seq<Option<Page>>, h: Hit) {
    && h.slot < |replies| && replies[h.slot].Some?
    && h.entry in replies[h.slot].value.entries
    && forall r | 0 <= r < h.slot && replies[r].Some? :: !Offers(replies[r].value, h.entry.pos)
  }

  /** What the merge of `replies` is, without the loop that computes it. */
  ghost predicate MergeOf(replies: seq<Option<Page>>, limit: nat, notAfter: int, m: Merged) {
    && InOrder(m)
    && |m.entries| <= limit
    && (forall i | 0 <= i < |m.entries| ::
          && FirstReaderWins(replies, m.entries[i])
          && m.entries[i].entry.pos.at <= notAfter
          && WithinBound(replies, limit, m.entries[i].entry.pos))
    && (forall k | Offered(replies, k) && k.at <= notAfter && WithinBound(replies, limit, k) ::
          Returns(m, k)
          || (|m.entries| == limit
              && forall i | 0 <= i < |m.entries| :: Less(m.entries[i].entry.pos, k)))
    && (m.more <==> (exists r | 0 <= r < |replies| ::
                       replies[r].Some? && replies[r].value.resume.Some?)
                    || exists k :: Offered(replies, k) && !Returns(m, k))
    && (m.answered <==> exists r | 0 <= r < |replies| :: replies[r].Some?)
  }

  /** The merge map after some readers: its ascending keys and the entry kept for each. */
  ghost predicate Collected(done: seq<Option<Page>>, keys: seq<Pos>, table: map<Pos, Hit>) {
    && Ascending(keys)
    && (forall k :: k in keys <==> k in table)
    && (forall k :: k in table <==> Offered(done, k))
    && forall k | k in table :: table[k].entry.pos == k && FirstReaderWins(done, table[k])
  }

  method MergedIndexPage(replies: seq<Option<Page>>, limit: nat, notAfter: int)
    returns (m: Merged)
    requires forall r | 0 <= r < |replies| && replies[r].Some? :: Ordered(replies[r].value.entries)
    ensures MergeOf(replies, limit, notAfter, m)
  {
    var keys, table, bound, more, answered := Collect(replies, limit);
    assert forall k | k in keys :: k in table;
    var entries, stopped := TakeKeys(keys, table, bound, limit, notAfter);
    m := Merged(entries, more || stopped, answered);
    MergeComplete(replies, limit, notAfter, keys, table, |entries|, m);
  }

  /** The last loop: keys in order, up to the first that is too new, beyond the bound or one
      too many. */
  method TakeKeys(keys: seq<Pos>, table: map<Pos, Hit>, bound: Option<Pos>, limit: nat, notAfter: int)
    returns (entries: seq<Hit>, stopped: bool)
    requires forall k | k in keys :: k in table
    ensures |entries| <= |keys| && |entries| <= limit && (stopped <==> |entries| < |keys|)
    ensures forall j | 0 <= j < |entries| ::
              && keys[j] in table && entries[j] == table[keys[j]]
              && keys[j].at <= notAfter && (bound.None? || !Less(bound.value, keys[j]))
    ensures stopped ==> (keys[|entries|].at > notAfter || |entries| == limit
                         || (bound.Some? && Less(bound.value, keys[|entries|])))
  {
    entries, stopped := [], false;
    while |entries| < |keys| && !stopped
      invariant |entries| <= |keys| && |entries| <= limit
      invariant forall j | 0 <= j < |entries| ::
                  && keys[j] in table && entries[j] == table[keys[j]]
                  && keys[j].at <= notAfter && (bound.None? || !Less(bound.value, keys[j]))
      invariant stopped ==> |entries| < |keys| &&
                            (keys[|entries|].at > notAfter || |entries| == limit
                             || (bound.Some? && Less(bound.value, keys[|entries|])))
      decreases |keys| - |entries|, !stopped
    {
      var key := keys[|entries|];
      if key.at > notAfter || (bound.Some? && Less(bound.value, key)) || |entries| == limit {
        stopped := true;
      } else {
        assert key in keys;
        entries := entries + [table[key]];
      }
    }
  }

  /** The first loop: every answer goes into the merge map, and full pages lower the bound. */
  method Collect(replies: seq<Option<Page>>, limit: nat)
    returns (keys: seq<Pos>, table: map<Pos, Hit>, bound: Option<Pos>, more: bool, answered: bool)
    requires forall r | 0 <= r < |replies| && replies[r].Some? :: Ordered(replies[r].value.entries)
    ensures Collected(replies, keys, table)
    ensures BoundOf(replies, limit, bound)
    ensures more <==> exists r | 0 <= r < |replies| :: replies[r].Some? && replies[r].value.resume.Some?
    ensures answered <==> exists r | 0 <= r < |replies| :: replies[r].Some?
  {
    keys, table, bound, more, answered := [], map[], None, false, false;
    for slot := 0 to |replies|
      invariant Collected(replies[..slot], keys, table)
      invariant BoundOf(replies[..slot], limit, bound)
      invariant more <==> AnyCutShort(replies[..slot])
      invariant answered <==> AnyAnswer(replies[..slot])
    {
      assert replies[..slot + 1] == replies[..slot] + [replies[slot]];
      keys, table, bound, more, answered :=
        AddAnswer(replies[..slot], replies[slot], slot, limit, keys, table, bound, more, answered);
    }
    assert replies[..|replies|] == replies;
  }

  /** One answer, or none, after those collected so far. */
  method AddAnswer(ghost before: seq<Option<Page>>, reply: Option<Page>, slot: nat, limit: nat, keys0: seq<Pos>,
                   table0: map<Pos, Hit>, bound0: Option<Pos>, more0: bool, answered0: bool)
    returns (keys: seq<Pos>, table: map<Pos, Hit>, bound: Option<Pos>, more: bool, answered: bool)
    requires slot == |before| && (reply.Some? ==> Ordered(reply.value.entries))
    requires Collected(before, keys0, table0) && BoundOf(before, limit, bound0)
    requires (more0 <==> AnyCutShort(before)) && (answered0 <==> AnyAnswer(before))
    ensures Collected(before + [reply], keys, table) && BoundOf(before + [reply], limit, bound)
    ensures (more <==> AnyCutShort(before + [reply])) && (answered <==> AnyAnswer(before + [reply]))
  {
    keys, table, bound, more, answered := keys0, table0, bound0, more0, answered0;
    BoundStep(before, reply, limit, bound);
    AnySnoc(before, reply);
    match reply
    case None =>
      NoAnswer(before, keys, table);
    case Some(page) =>
      answered := true;
      if |page.entries| >= limit && |page.entries| > 0 {
        var last := page.entries[|page.entries| - 1].pos;
        if bound.None? || Less(last, bound.value) {
          bound := Some(last);
        }
      }
      more := more || page.resume.Some?;
      keys, table := AddPage(before, page, slot, keys, table);
  }

  predicate AnyCutShort(replies: seq<Option<Page>>) {
    exists r | 0 <= r < |replies| :: replies[r].Some? && replies[r].value.resume.Some?
  }

  predicate AnyAnswer(replies: seq<Option<Page>>) { exists r | 0 <= r < |replies| :: replies[r].Some? }

  lemma AnySnoc(done: seq<Option<Page>>, next: Option<Page>)
    ensures AnyCutShort(done + [next]) <==> AnyCutShort(done) || (next.Some? && next.value.resume.Some?)
    ensures AnyAnswer(done + [next]) <==> AnyAnswer(done) || next.Some?
  {
    var all := done + [next];
    assert all[|done|] == next && forall r | 0 <= r < |done| :: all[r] == done[r];
  }

  function Lowered(bound: Option<Pos>, reply: Option<Page>, limit: nat): (r: Option<Pos>) {
    if reply.None? || !Full(reply.value, limit) then bound
    else
      var last := reply.value.entries[|reply.value.entries| - 1].pos;
      if bound.None? || Less(last, bound.value) then Some(last) else bound
  }

  lemma BoundStep(done: seq<Option<Page>>, next: Option<Page>, limit: nat, bound: Option<Pos>)
    requires BoundOf(done, limit, bound)
    ensures BoundOf(done + [next], limit, Lowered(bound, next, limit))
  {
    PosOrder();
    forall k { WithinBoundSnoc(done, next, limit, k); }
  }

  lemma NoAnswer(done: seq<Option<Page>>, keys: seq<Pos>, table: map<Pos, Hit>)
    requires Collected(done, keys, table)
    ensures Collected(done + [None], keys, table)
  {
    forall k { OfferedSnoc(done, None, k); }
  }

  /** `bound` is the smallest last entry of a full page. */
  ghost predicate BoundOf(done: seq<Option<Page>>, limit: nat, bound: Option<Pos>) {
    forall k :: WithinBound(done, limit, k) <==> bound.None? || !Less(bound.value, k)
  }

  lemma WithinBoundSnoc(done: seq<Option<Page>>, next: Option<Page>, limit: nat, k: Pos)
    ensures WithinBound(done + [next], limit, k) <==>
            WithinBound(done, limit, k)
            && (next.Some? && Full(next.value, limit) ==>
                  !Less(next.value.entries[|next.value.entries| - 1].pos, k))
  {
    var all := done + [next];
    assert all[|done|] == next;
    assert forall r | 0 <= r < |done| :: all[r] == done[r];
  }

  lemma OfferedSnoc(done: seq<Option<Page>>, next: Option<Page>, k: Pos)
    ensures Offered(done + [next], k) <==> Offered(done, k) || (next.Some? && Offers(next.value, k))
  {
    var all := done + [next];
    if Offered(done, k) {
      var r :| 0 <= r < |done| && done[r].Some? && Offers(done[r].value, k);
      assert all[r] == done[r];
    }
    if next.Some? && Offers(next.value, k) {
      assert all[|done|] == next;
    }
  }

  /** The inner loop: the entries of one page go into the map unless the key is taken. */
  method AddPage(ghost done: seq<Option<Page>>, page: Page, slot: nat,
                 keys0: seq<Pos>, table0: map<Pos, Hit>)
    returns (keys: seq<Pos>, table: map<Pos, Hit>)
    requires slot == |done| && Ordered(page.entries)
    requires Collected(done, keys0, table0)
    ensures Collected(done + [Some(page)], keys, table)
  {
    keys, table := keys0, table0;
    assert EntriesOf(done, page, 0, keys, table) by {
      assert forall r | 0 <= r < slot :: (done + [Some(page)])[r] == done[r];
    }
    for i := 0 to |page.entries|
      invariant EntriesOf(done, page, i, keys, table)
    {
      var entry := page.entries[i];
      if entry.pos !in table {
        EntryIsAdded(done, page, i, keys, table);
        keys := Insert(keys, entry.pos);
        table := table[entry.pos := Hit(entry, slot)];
      }
    }
    forall k ensures k in table <==> Offered(done + [Some(page)], k) {
      OfferedSnoc(done, Some(page), k);
    }
  }

  /** The merge map when the first `n` entries of the next page have been entered. */
  ghost predicate EntriesOf(done: seq<Option<Page>>, page: Page, n: nat, keys: seq<Pos>, table: map<Pos, Hit>)
    requires n <= |page.entries|
  {
    && Ascending(keys)
    && (forall k :: k in keys <==> k in table)
    && (forall k :: k in table <==> Offered(done, k) || Taken(page, n, k))
    && forall k | k in table :: table[k].entry.pos == k && FirstReaderWins(done + [Some(page)], table[k])
  }

  lemma EntryIsAdded(done: seq<Option<Page>>, page: Page, n: nat, keys: seq<Pos>, table: map<Pos, Hit>)
    requires n < |page.entries| && EntriesOf(done, page, n, keys, table) && page.entries[n].pos !in table
    ensures var entry := page.entries[n];
            EntriesOf(done, page, n + 1, Insert(keys, entry.pos), table[entry.pos := Hit(entry, |done|)])
  {
    InsertKeepsOrder(keys, page.entries[n].pos);
    NewEntry(done, page, page.entries[n]);
  }

  lemma NewEntry(done: seq<Option<Page>>, page: Page, entry: Entry)
    requires entry in page.entries && !Offered(done, entry.pos)
    ensures FirstReaderWins(done + [Some(page)], Hit(entry, |done|))
  {
    assert (done + [Some(page)])[|done|] == Some(page);
    assert forall r | 0 <= r < |done| :: (done + [Some(page)])[r] == done[r];
  }

  ghost predicate Taken(page: Page, n: nat, k: Pos)
    requires n <= |page.entries|
  {
    exists i | 0 <= i < n :: page.entries[i].pos == k
  }

  /** The entries kept by the last loop, the keys before the first refused one, are the merge. */
  lemma MergeComplete(replies: seq<Option<Page>>, limit: nat, notAfter: int,
                      keys: seq<Pos>, table: map<Pos, Hit>, n: nat, m: Merged)
    requires Collected(replies, keys, table)
    requires n == |m.entries| <= |keys| && n <= limit
    requires forall j | 0 <= j < n ::
               && m.entries[j] == table[keys[j]]
               && keys[j].at <= notAfter && WithinBound(replies, limit, keys[j])
    requires n < |keys| ==> keys[n].at > notAfter || !WithinBound(replies, limit, keys[n]) || n == limit
    requires m.more <==> n < |keys| || exists r | 0 <= r < |replies| ::
                                         replies[r].Some? && replies[r].value.resume.Some?
    requires m.answered <==> exists r | 0 <= r < |replies| :: replies[r].Some?
    ensures MergeOf(replies, limit, notAfter, m)
  {
    forall j | 0 <= j < n
      ensures m.entries[j].entry.pos == keys[j] && FirstReaderWins(replies, m.entries[j])
    {
      assert keys[j] in keys;
    }
    KeysReturned(keys, m, n);
    forall k | Offered(replies, k) && k.at <= notAfter && WithinBound(replies, limit, k) && !Returns(m, k)
      ensures n == limit && forall i | 0 <= i < n :: Less(m.entries[i].entry.pos, k)
    {
      assert k in keys;
      var j :| n <= j < |keys| && keys[j] == k;
      assert j > n ==> Less(keys[n], keys[j]);
      BoundDown(replies, limit, keys[n], k);
    }
    MoreIsLeft(replies, keys, table, m, n);
  }

  /** A position before one within the bound is within the bound. */
  lemma BoundDown(replies: seq<Option<Page>>, limit: nat, a: Pos, k: Pos)
    requires WithinBound(replies, limit, k) && (a == k || Less(a, k))
    ensures WithinBound(replies, limit, a)
  {
    forall r | 0 <= r < |replies| && replies[r].Some? && Full(replies[r].value, limit)
      ensures !Less(replies[r].value.entries[|replies[r].value.entries| - 1].pos, a)
    {
      var last := replies[r].value.entries[|replies[r].value.entries| - 1].pos;
      if a != k && Less(last, a) {
        LessTransitive(last, a, k);
      }
    }
  }

  /** The first `n` keys, and no others, are returned. */
  lemma KeysReturned(keys: seq<Pos>, m: Merged, n: nat)
    requires Ascending(keys) && n == |m.entries| <= |keys|
    requires forall j | 0 <= j < n :: m.entries[j].entry.pos == keys[j]
    ensures forall j | 0 <= j < |keys| :: Returns(m, keys[j]) <==> j < n
  {
    forall j | 0 <= j < |keys|
      ensures Returns(m, keys[j]) <==> j < n
    {
      if j < n {
        assert m.entries[j].entry.pos == keys[j];
      }
      forall i | 0 <= i < n
        ensures m.entries[i].entry.pos == keys[j] ==> i == j
      {
        NotBoth(keys[i], keys[j]);
      }
    }
  }

  lemma MoreIsLeft(replies: seq<Option<Page>>, keys: seq<Pos>, table: map<Pos, Hit>, m: Merged, n: nat)
    requires Collected(replies, keys, table) && n <= |keys|
    requires forall j | 0 <= j < |keys| :: Returns(m, keys[j]) <==> j < n
    ensures n < |keys| <==> exists k :: Offered(replies, k) && !Returns(m, k)
  {
    if n < |keys| {
      assert keys[n] in keys;
      assert Offered(replies, keys[n]) && !Returns(m, keys[n]);
    }
    if k :| Offered(replies, k) && !Returns(m, k) {
      assert k in keys;
    }
  }

  // ---------------------------------------------------------------- the readers' side

  predicate After(after: Option<Pos>, k: Pos) {
    after.None? || Less(after.value, k)
  }

  /** The part of a reader's index that lies after the cursor. */
  function Rest(index: seq<Entry>, after: Option<Pos>): (r: seq<Entry>) {
    if index == [] || After(after, index[0].pos) then index else Rest(index[1..], after)
  }

  lemma {:induction false} RestExact(index: seq<Entry>, after: Option<Pos>)
    requires Ordered(index)
    ensures Ordered(Rest(index, after))
    ensures forall e :: e in Rest(index, after) <==> e in index && After(after, e.pos)
  {
    PosOrder();
    if index != [] && !After(after, index[0].pos) {
      RestExact(index[1..], after);
      assert index == [index[0]] + index[1..];
    }
  }

  /** Ids as an index key can carry them. */
  predicate ProperId(id: string) { id != [] && '/' !in id }

  /** The contract of `query_time_index_asc`. The page is the beginning of what the reader
      holds after the cursor. It stops before `limit` only at the end of the index or, with
      `resume` set, when the query budget of the walk is spent; then everything before
      `resume`, the beginning of a second, has been read and the rest lies after it. */
  ghost predicate Answers(index: seq<Entry>, after: Option<Pos>, limit: nat, page: Page) {
    var rest := Rest(index, after);
    && Ordered(index) && (forall e | e in index :: ProperId(e.pos.id))
    && page.entries <= rest && |page.entries| <= limit
    && (page.resume.None? && |page.entries| < limit ==> page.entries == rest)
    && (page.resume.Some? ==>
          && |page.entries| < limit && page.resume.value.id == "" && After(after, page.resume.value)
          && (forall i | 0 <= i < |page.entries| :: Less(page.entries[i].pos, page.resume.value))
          && (forall i | |page.entries| <= i < |rest| :: Less(page.resume.value, rest[i].pos)))
  }

  ghost predicate Conform(indexes: seq<seq<Entry>>, replies: seq<Option<Page>>,
                          after: Option<Pos>, limit: nat) {
    && |indexes| == |replies|
    && forall r | 0 <= r < |replies| && replies[r].Some? ::
         Answers(indexes[r], after, limit, replies[r].value)
  }

  /** Some answering reader holds `k` after the cursor. */
  ghost predicate Held(indexes: seq<seq<Entry>>, replies: seq<Option<Page>>,
                       after: Option<Pos>, k: Pos)
    requires |indexes| == |replies|
  {
    exists r, e | 0 <= r < |replies| && replies[r].Some? && e in indexes[r] ::
      e.pos == k && After(after, k)
  }

  /** The page is an initial segment of the union of what the answering readers hold: a cursor
      moved to any of its entries leaves no held key behind. */
  ghost predicate NoGap(indexes: seq<seq<Entry>>, replies: seq<Option<Page>>,
                        after: Option<Pos>, m: Merged)
    requires |indexes| == |replies|
  {
    forall k, i | Held(indexes, replies, after, k) && 0 <= i < |m.entries|
                  && Less(k, m.entries[i].entry.pos) :: Returns(m, k)
  }

  ghost predicate AllReturned(indexes: seq<seq<Entry>>, replies: seq<Option<Page>>,
                              after: Option<Pos>, m: Merged)
    requires |indexes| == |replies|
  {
    forall k | Held(indexes, replies, after, k) :: Returns(m, k)
  }

  /** What one reader holds after the cursor is on the page up to its last entry. */
  ghost predicate ReaderNoGap(index: seq<Entry>, after: Option<Pos>, m: Merged) {
    forall e, i | e in index && After(after, e.pos) && 0 <= i < |m.entries| && Less(e.pos, m.entries[i].entry.pos) ::
      Returns(m, e.pos)
  }

  ghost predicate ReaderReturned(index: seq<Entry>, after: Option<Pos>, m: Merged) {
    forall e | e in index && After(after, e.pos) :: Returns(m, e.pos)
  }

  /** No unread key of reader `r` fits between the point where it gave up and `k`: every position
      there that a key can have is on some page. */
  ghost predicate NoRoomFor(replies: seq<Option<Page>>, r: nat, k: Pos)
    requires r < |replies|
  {
    replies[r].Some? && replies[r].value.resume.Some? ==>
      forall p: Pos | ProperId(p.id) && Less(replies[r].value.resume.value, p) && Less(p, k) :: Offered(replies, p)
  }

  /** The same for every reader. */
  ghost predicate NoRoomBefore(replies: seq<Option<Page>>, k: Pos) {
    forall r | 0 <= r < |replies| :: NoRoomFor(replies, r, k)
  }

  predicate NoneFull(replies: seq<Option<Page>>, limit: nat) {
    forall r | 0 <= r < |replies| && replies[r].Some? :: !Full(replies[r].value, limit)
  }

  /** A key that a reader holds is on its page, or the page is full and ends before the key, or the
      reader gave up before the key. */
  lemma HeldKey(index: seq<Entry>, after: Option<Pos>, limit: nat, page: Page, e: Entry)
    requires Answers(index, after, limit, page) && e in index && After(after, e.pos)
    ensures || Offers(page, e.pos)
            || (page.resume.None? && |page.entries| == limit
                && forall i | 0 <= i < |page.entries| :: Less(page.entries[i].pos, e.pos))
            || (page.resume.Some? && Less(page.resume.value, e.pos))
  {
    RestExact(index, after);
    var rest := Rest(index, after);
    var i :| 0 <= i < |rest| && rest[i] == e;
    if i < |page.entries| {
      assert page.entries[i] == rest[i];
    } else {
      assert forall j | 0 <= j < |page.entries| :: page.entries[j] == rest[j];
    }
  }

  /** What a reader holds before a returned entry is offered, if no unread key of that reader fits
      before the entry. The other readers do not matter. */
  lemma HeldBeforeIsOffered(indexes: seq<seq<Entry>>, replies: seq<Option<Page>>, after: Option<Pos>, limit: nat,
                            r: nat, e: Entry, k: Pos)
    requires Conform(indexes, replies, after, limit) && r < |replies| && replies[r].Some?
    requires e in indexes[r] && After(after, e.pos) && ProperId(e.pos.id)
    requires 1 <= limit && Less(e.pos, k) && WithinBound(replies, limit, k) && NoRoomFor(replies, r, k)
    ensures Offered(replies, e.pos)
  {
    var page := replies[r].value;
    HeldKey(indexes[r], after, limit, page, e);
    if Full(page, limit) && Less(page.entries[|page.entries| - 1].pos, e.pos) {
      LessTransitive(page.entries[|page.entries| - 1].pos, e.pos, k);
    }
  }

  lemma ReaderGapFree(indexes: seq<seq<Entry>>, replies: seq<Option<Page>>, after: Option<Pos>, limit: nat,
                      notAfter: int, m: Merged, r: nat)
    requires Conform(indexes, replies, after, limit) && MergeOf(replies, limit, notAfter, m)
    requires r < |replies| && replies[r].Some?
    requires forall i | 0 <= i < |m.entries| :: NoRoomFor(replies, r, m.entries[i].entry.pos)
    ensures ReaderNoGap(indexes[r], after, m)
  {
    forall e, i | e in indexes[r] && After(after, e.pos) && 0 <= i < |m.entries|
                  && Less(e.pos, m.entries[i].entry.pos)
      ensures Returns(m, e.pos)
    {
      var k := m.entries[i].entry.pos;
      assert Answers(indexes[r], after, limit, replies[r].value);
      HeldBeforeIsOffered(indexes, replies, after, limit, r, e, k);
      BoundDown(replies, limit, e.pos, k);
      NotBoth(e.pos, k);
    }
  }

  /** The page is an initial segment when no unread key fits between a `resume` and an entry; in
      particular when no entry lies beyond a `resume`, or no reader was cut short. */
  lemma PageIsInitialSegment(indexes: seq<seq<Entry>>, replies: seq<Option<Page>>,
                             after: Option<Pos>, limit: nat, notAfter: int, m: Merged)
    requires Conform(indexes, replies, after, limit) && MergeOf(replies, limit, notAfter, m)
    requires forall i | 0 <= i < |m.entries| :: NoRoomBefore(replies, m.entries[i].entry.pos)
    ensures NoGap(indexes, replies, after, m)
  {
    forall r | 0 <= r < |replies| && replies[r].Some?
      ensures ReaderNoGap(indexes[r], after, m)
    {
      ReaderGapFree(indexes, replies, after, limit, notAfter, m, r);
    }
  }

  /** Readers' indexes that fit the same answers but have `extra` as the first unread entry
      of reader `r`. */
  lemma OtherIndexes(indexes: seq<seq<Entry>>, replies: seq<Option<Page>>, after: Option<Pos>,
                     limit: nat, r: nat, extra: Entry) returns (others: seq<seq<Entry>>)
    requires Conform(indexes, replies, after, limit) && r < |replies| && replies[r].Some?
    requires After(after, extra.pos) && ProperId(extra.pos.id)
    requires var page := replies[r].value;
             if page.resume.Some? then Less(page.resume.value, extra.pos)
             else Full(page, limit) && Less(page.entries[|page.entries| - 1].pos, extra.pos)
    ensures Conform(others, replies, after, limit) && Held(others, replies, after, extra.pos)
    ensures extra in others[r]
  {
    var page := replies[r].value;
    var index := page.entries + [extra];
    LongerIndex(indexes[r], after, limit, page, extra);
    others := indexes[r := index];
    assert index[|page.entries|] == extra && extra in others[r];
  }

  /** What a page shows with one entry more is an index that fits the page. */
  lemma LongerIndex(known: seq<Entry>, after: Option<Pos>, limit: nat, page: Page, extra: Entry)
    requires Answers(known, after, limit, page) && After(after, extra.pos) && ProperId(extra.pos.id)
    requires if page.resume.Some? then Less(page.resume.value, extra.pos)
             else Full(page, limit) && Less(page.entries[|page.entries| - 1].pos, extra.pos)
    ensures Answers(page.entries + [extra], after, limit, page)
  {
    RestExact(known, after);
    var index := page.entries + [extra];
    assert forall i | 0 <= i < |page.entries| ::
        page.entries[i] == Rest(known, after)[i] && page.entries[i] in Rest(known, after);
    forall i | 0 <= i < |page.entries|
      ensures Less(page.entries[i].pos, extra.pos)
    {
      if page.resume.Some? {
        LessTransitive(page.entries[i].pos, page.resume.value, extra.pos);
      } else if i < |page.entries| - 1 {
        LessTransitive(page.entries[i].pos, page.entries[|page.entries| - 1].pos, extra.pos);
      }
    }
    assert Ordered(index);
    assert After(after, index[0].pos);
    assert Rest(index, after) == index;
  }

  // What the page returns, said of the answers alone.

  /** The positions offered that are due and within the bound. */
  function Eligible(replies: seq<Option<Page>>, limit: nat, notAfter: int): (s: set<Pos>) {
    set r, i | 0 <= r < |replies| && replies[r].Some? && 0 <= i < |replies[r].value.entries|
               && replies[r].value.entries[i].pos.at <= notAfter
               && WithinBound(replies, limit, replies[r].value.entries[i].pos) ::
      replies[r].value.entries[i].pos
  }

  lemma EligibleIff(replies: seq<Option<Page>>, limit: nat, notAfter: int, k: Pos)
    ensures k in Eligible(replies, limit, notAfter) <==>
            Offered(replies, k) && k.at <= notAfter && WithinBound(replies, limit, k)
  {
    if Offered(replies, k) {
      var r :| 0 <= r < |replies| && replies[r].Some? && Offers(replies[r].value, k);
      var i :| 0 <= i < |replies[r].value.entries| && replies[r].value.entries[i].pos == k;
    }
    if k in Eligible(replies, limit, notAfter) {
      var r, i :| 0 <= r < |replies| && replies[r].Some? && 0 <= i < |replies[r].value.entries|
                  && replies[r].value.entries[i].pos == k;
      assert Offers(replies[r].value, k);
    }
  }

  function Before(s: set<Pos>, k: Pos): (r: set<Pos>) { set p | p in s && Less(p, k) }

  /** Eligible, with fewer than `limit` eligible positions before it. */
  predicate Picked(replies: seq<Option<Page>>, limit: nat, notAfter: int, k: Pos) {
    k in Eligible(replies, limit, notAfter) && |Before(Eligible(replies, limit, notAfter), k)| < limit
  }

  function FirstOf(m: Merged, n: nat): (s: set<Pos>)
    requires n <= |m.entries|
  {
    set i | 0 <= i < n :: m.entries[i].entry.pos
  }

  lemma OneMoreFirst(m: Merged, n: nat)
    requires InOrder(m) && 0 < n <= |m.entries|
    ensures m.entries[n - 1].entry.pos !in FirstOf(m, n - 1)
    ensures FirstOf(m, n) == FirstOf(m, n - 1) + {m.entries[n - 1].entry.pos}
  {
    var last := m.entries[n - 1].entry.pos;
    forall i | 0 <= i < n - 1
      ensures m.entries[i].entry.pos != last
    {
      NotBoth(m.entries[i].entry.pos, last);
    }
    forall p
      ensures p in FirstOf(m, n) <==> p in FirstOf(m, n - 1) || p == last
    {
      if p in FirstOf(m, n) {
        var i :| 0 <= i < n && m.entries[i].entry.pos == p;
      }
    }
  }

  lemma {:induction false} FirstOfSize(m: Merged, n: nat)
    requires InOrder(m) && n <= |m.entries|
    ensures |FirstOf(m, n)| == n
  {
    if n > 0 {
      FirstOfSize(m, n - 1);
      OneMoreFirst(m, n);
    }
  }

  /** An eligible position before a returned one is returned before it. */
  lemma EligibleBefore(replies: seq<Option<Page>>, limit: nat, notAfter: int, m: Merged, n: nat, p: Pos)
    requires MergeOf(replies, limit, notAfter, m) && n < |m.entries|
    requires p in Eligible(replies, limit, notAfter) && Less(p, m.entries[n].entry.pos)
    ensures p in FirstOf(m, n)
  {
    EligibleIff(replies, limit, notAfter, p);
    NotBoth(p, m.entries[n].entry.pos);
    assert Returns(m, p);
    var j :| 0 <= j < |m.entries| && m.entries[j].entry.pos == p;
    NotBoth(m.entries[n].entry.pos, m.entries[j].entry.pos);
  }

  lemma ReturnedIsPicked(replies: seq<Option<Page>>, limit: nat, notAfter: int, m: Merged, n: nat)
    requires MergeOf(replies, limit, notAfter, m) && n < |m.entries|
    ensures Picked(replies, limit, notAfter, m.entries[n].entry.pos)
  {
    var eligible, k := Eligible(replies, limit, notAfter), m.entries[n].entry.pos;
    EligibleIff(replies, limit, notAfter, k);
    HitIsOffered(replies, m.entries[n]);
    forall p | p in Before(eligible, k)
      ensures p in FirstOf(m, n)
    {
      EligibleBefore(replies, limit, notAfter, m, n, p);
    }
    FirstOfSize(m, n);
    SubsetSize(Before(eligible, k), FirstOf(m, n));
  }

  /** The page returns exactly the first `limit` eligible positions. */
  lemma ReturnsIffPicked(replies: seq<Option<Page>>, limit: nat, notAfter: int, m: Merged, k: Pos)
    requires MergeOf(replies, limit, notAfter, m)
    ensures Returns(m, k) <==> Picked(replies, limit, notAfter, k)
  {
    var eligible := Eligible(replies, limit, notAfter);
    if Returns(m, k) {
      var n :| 0 <= n < |m.entries| && m.entries[n].entry.pos == k;
      ReturnedIsPicked(replies, limit, notAfter, m, n);
    } else if k in eligible {
      EligibleIff(replies, limit, notAfter, k);
      forall i | 0 <= i < |m.entries|
        ensures m.entries[i].entry.pos in Before(eligible, k)
      {
        ReturnedIsPicked(replies, limit, notAfter, m, i);
      }
      FirstOfSize(m, |m.entries|);
      SubsetSize(FirstOf(m, |m.entries|), Before(eligible, k));
    }
  }

  lemma HitIsOffered(replies: seq<Option<Page>>, h: Hit)
    requires FirstReaderWins(replies, h)
    ensures Offered(replies, h.entry.pos)
  {
    var i :| 0 <= i < |replies[h.slot].value.entries| && replies[h.slot].value.entries[i] == h.entry;
    assert Offers(replies[h.slot].value, h.entry.pos);
  }

  /** The positions the page returns. */
  function PickedOf(replies: seq<Option<Page>>, limit: nat, notAfter: int): (s: set<Pos>) {
    set k | k in Eligible(replies, limit, notAfter) && Picked(replies, limit, notAfter, k)
  }

  lemma PickedCount(replies: seq<Option<Page>>, limit: nat, notAfter: int, m: Merged)
    requires MergeOf(replies, limit, notAfter, m)
    ensures |PickedOf(replies, limit, notAfter)| == |m.entries|
  {
    forall k
      ensures k in PickedOf(replies, limit, notAfter) <==> k in FirstOf(m, |m.entries|)
    {
      ReturnsIffPicked(replies, limit, notAfter, m, k);
    }
    assert PickedOf(replies, limit, notAfter) == FirstOf(m, |m.entries|);
    FirstOfSize(m, |m.entries|);
  }

  /** No position among the first `limit` eligible ones leaves room for a key that a reader gave
      up before reading. */
  ghost predicate NoOverrun(replies: seq<Option<Page>>, limit: nat, notAfter: int) {
    forall k | Picked(replies, limit, notAfter, k) :: NoRoomBefore(replies, k)
  }

  /** The same for one reader. */
  ghost predicate NoOverrunBy(replies: seq<Option<Page>>, r: nat, limit: nat, notAfter: int)
    requires r < |replies|
  {
    forall k | Picked(replies, limit, notAfter, k) :: NoRoomFor(replies, r, k)
  }

  /** Exactly when the cursor may follow the page as far as one reader goes, judged from the answers
      alone: no unread key of that reader fits between its `resume` and one of the first `limit`
      eligible positions. Whether other readers were cut short makes no difference. */
  lemma ReaderNoGapIff(indexes: seq<seq<Entry>>, replies: seq<Option<Page>>, after: Option<Pos>, limit: nat,
                       notAfter: int, m: Merged, r: nat)
    requires Conform(indexes, replies, after, limit) && MergeOf(replies, limit, notAfter, m)
    requires r < |replies| && replies[r].Some?
    ensures NoOverrunBy(replies, r, limit, notAfter) <==>
            forall others | Conform(others, replies, after, limit) :: ReaderNoGap(others[r], after, m)
  {
    if NoOverrunBy(replies, r, limit, notAfter) {
      forall i | 0 <= i < |m.entries| ensures NoRoomFor(replies, r, m.entries[i].entry.pos) {
        ReturnedIsPicked(replies, limit, notAfter, m, i);
      }
      forall others | Conform(others, replies, after, limit) ensures ReaderNoGap(others[r], after, m) {
        ReaderGapFree(others, replies, after, limit, notAfter, m, r);
      }
    } else {
      var k :| Picked(replies, limit, notAfter, k) && !NoRoomFor(replies, r, k);
      ReturnsIffPicked(replies, limit, notAfter, m, k);
      var i :| 0 <= i < |m.entries| && m.entries[i].entry.pos == k;
      var others := OverrunSkips(indexes, replies, after, limit, m, i, r);
    }
  }

  lemma OverrunSkips(indexes: seq<seq<Entry>>, replies: seq<Option<Page>>, after: Option<Pos>, limit: nat,
                     m: Merged, i: nat, r: nat) returns (others: seq<seq<Entry>>)
    requires Conform(indexes, replies, after, limit) && i < |m.entries| && r < |replies|
    requires forall j | 0 <= j < |m.entries| :: FirstReaderWins(replies, m.entries[j])
    requires !NoRoomFor(replies, r, m.entries[i].entry.pos)
    ensures Conform(others, replies, after, limit) && !ReaderNoGap(others[r], after, m)
  {
    var unread: Pos :| ProperId(unread.id) && Less(replies[r].value.resume.value, unread)
                       && Less(unread, m.entries[i].entry.pos) && !Offered(replies, unread);
    if after.Some? {
      LessTransitive(after.value, replies[r].value.resume.value, unread);
    }
    others := OtherIndexes(indexes, replies, after, limit, r, Entry(unread, None));
    assert !Returns(m, unread) by {
      forall j | 0 <= j < |m.entries| ensures m.entries[j].entry.pos != unread {
        HitIsOffered(replies, m.entries[j]);
      }
    }
  }

  lemma NoGapByReader(indexes: seq<seq<Entry>>, replies: seq<Option<Page>>, after: Option<Pos>, m: Merged)
    requires |indexes| == |replies|
    ensures NoGap(indexes, replies, after, m) <==>
            forall r | 0 <= r < |replies| && replies[r].Some? :: ReaderNoGap(indexes[r], after, m)
  {
    if NoGap(indexes, replies, after, m) {
      forall r, e, i | 0 <= r < |replies| && replies[r].Some? && e in indexes[r] && After(after, e.pos)
                       && 0 <= i < |m.entries| && Less(e.pos, m.entries[i].entry.pos)
        ensures Returns(m, e.pos)
      {
        assert Held(indexes, replies, after, e.pos);
      }
    }
  }

  /** Exactly when the cursor may follow the page, judged from the answers alone: the page is
      an initial segment of every set of indexes that fits the answers if and only if no unread
      key fits between the `resume` of a reader that was cut short and one of the first `limit`
      eligible positions. `merged_index_page` does not look at `resume` when it bounds the page. */
  lemma InitialSegmentIffNoOverrun(indexes: seq<seq<Entry>>, replies: seq<Option<Page>>,
                                   after: Option<Pos>, limit: nat, notAfter: int, m: Merged)
    requires Conform(indexes, replies, after, limit) && MergeOf(replies, limit, notAfter, m)
    ensures NoOverrun(replies, limit, notAfter) <==>
            forall others | Conform(others, replies, after, limit) :: NoGap(others, replies, after, m)
  {
    forall others | Conform(others, replies, after, limit) {
      NoGapByReader(others, replies, after, m);
    }
    forall r | 0 <= r < |replies| && replies[r].Some? {
      ReaderNoGapIff(indexes, replies, after, limit, notAfter, m, r);
    }
    if NoOverrun(replies, limit, notAfter) {
      assert forall r | 0 <= r < |replies| :: NoOverrunBy(replies, r, limit, notAfter);
    } else {
      var k, r :| Picked(replies, limit, notAfter, k) && 0 <= r < |replies| && !NoRoomFor(replies, r, k);
      assert !NoOverrunBy(replies, r, limit, notAfter);
      var others :| Conform(others, replies, after, limit) && !ReaderNoGap(others[r], after, m);
      assert !NoGap(others, replies, after, m);
    }
  }

  /** One reader has been read to the end by a page that reports nothing left, for every index that
      fits its answer, if and only if its own answer did not fill the page: a full page whose entries
      all fit the budget leaves `more` unset although its reader may hold further entries. */
  lemma ReaderReadIff(indexes: seq<seq<Entry>>, replies: seq<Option<Page>>, after: Option<Pos>, limit: nat,
                      notAfter: int, m: Merged, r: nat)
    requires Conform(indexes, replies, after, limit) && MergeOf(replies, limit, notAfter, m)
    requires 1 <= limit && !m.more && r < |replies| && replies[r].Some?
    ensures !Full(replies[r].value, limit) <==>
            forall others | Conform(others, replies, after, limit) :: ReaderReturned(others[r], after, m)
  {
    var page := replies[r].value;
    if !Full(page, limit) {
      forall others, e: Entry | Conform(others, replies, after, limit) && e in others[r] && After(after, e.pos)
        ensures Returns(m, e.pos)
      {
        HeldKey(others[r], after, limit, page, e);
        assert Offered(replies, e.pos);
      }
    } else {
      var others, unread := FullMayHoldMore(indexes, replies, after, limit, r);
      assert !Returns(m, unread.pos) by {
        forall i | 0 <= i < |m.entries| ensures m.entries[i].entry.pos != unread.pos {
          assert WithinBound(replies, limit, m.entries[i].entry.pos);
        }
      }
    }
  }

  /** Behind a full page there may be another entry. */
  lemma FullMayHoldMore(indexes: seq<seq<Entry>>, replies: seq<Option<Page>>, after: Option<Pos>, limit: nat, r: nat)
    returns (others: seq<seq<Entry>>, unread: Entry)
    requires Conform(indexes, replies, after, limit) && r < |replies| && replies[r].Some? && 1 <= limit
    requires Full(replies[r].value, limit)
    ensures Conform(others, replies, after, limit) && unread in others[r] && After(after, unread.pos)
    ensures !WithinBound(replies, limit, unread.pos)
  {
    var last := replies[r].value.entries[|replies[r].value.entries| - 1];
    unread := Entry(Pos(last.pos.at + 1, "a"), None);
    RestExact(indexes[r], after);
    assert last == Rest(indexes[r], after)[|replies[r].value.entries| - 1] && last in Rest(indexes[r], after);
    if after.Some? {
      LessTransitive(after.value, last.pos, unread.pos);
    }
    others := OtherIndexes(indexes, replies, after, limit, r, unread);
  }

  lemma ReturnedByReader(indexes: seq<seq<Entry>>, replies: seq<Option<Page>>, after: Option<Pos>, m: Merged)
    requires |indexes| == |replies|
    ensures AllReturned(indexes, replies, after, m) <==>
            forall r | 0 <= r < |replies| && replies[r].Some? :: ReaderReturned(indexes[r], after, m)
  {
    if AllReturned(indexes, replies, after, m) {
      forall r, e | 0 <= r < |replies| && replies[r].Some? && e in indexes[r] && After(after, e.pos)
        ensures Returns(m, e.pos)
      {
        assert Held(indexes, replies, after, e.pos);
      }
    }
  }

  /** `more == false` is meant as "read to the end". It is, for every set of indexes that fits
      the answers, if and only if no answer filled its page. */
  lemma ReadToEndIffNoFullPage(indexes: seq<seq<Entry>>, replies: seq<Option<Page>>,
                               after: Option<Pos>, limit: nat, notAfter: int, m: Merged)
    requires Conform(indexes, replies, after, limit) && MergeOf(replies, limit, notAfter, m)
    requires 1 <= limit && !m.more
    ensures NoneFull(replies, limit) <==>
            forall others | Conform(others, replies, after, limit) :: AllReturned(others, replies, after, m)
  {
    forall others | Conform(others, replies, after, limit) {
      ReturnedByReader(others, replies, after, m);
    }
    forall r | 0 <= r < |replies| && replies[r].Some? {
      ReaderReadIff(indexes, replies, after, limit, notAfter, m, r);
    }
  }

  /** Some answer offers a position that is due. */
  ghost predicate DueOffered(replies: seq<Option<Page>>, notAfter: int) {
    exists k :: Offered(replies, k) && k.at <= notAfter
  }

  lemma OrderedAnswers(indexes: seq<seq<Entry>>, replies: seq<Option<Page>>, after: Option<Pos>, limit: nat)
    requires Conform(indexes, replies, after, limit)
    ensures forall r | 0 <= r < |replies| && replies[r].Some? :: Ordered(replies[r].value.entries)
  {
    forall r | 0 <= r < |replies| && replies[r].Some?
      ensures Ordered(replies[r].value.entries)
    {
      RestExact(indexes[r], after);
      assert forall i | 0 <= i < |replies[r].value.entries| ::
          replies[r].value.entries[i] == Rest(indexes[r], after)[i];
    }
  }

  /** An answer offers nothing at or behind the cursor it was asked to start from. */
  lemma OfferedIsAfter(indexes: seq<seq<Entry>>, replies: seq<Option<Page>>, after: Option<Pos>, limit: nat, k: Pos)
    requires Conform(indexes, replies, after, limit) && Offered(replies, k)
    ensures After(after, k)
  {
    var r :| 0 <= r < |replies| && replies[r].Some? && Offers(replies[r].value, k);
    var i :| 0 <= i < |replies[r].value.entries| && replies[r].value.entries[i].pos == k;
    RestExact(indexes[r], after);
    assert replies[r].value.entries[i] == Rest(indexes[r], after)[i];
  }

  /** With room for one entry the page is not empty once a due position is offered. */
  lemma DueIsReturned(replies: seq<Option<Page>>, limit: nat, notAfter: int, m: Merged)
    requires forall r | 0 <= r < |replies| && replies[r].Some? :: Ordered(replies[r].value.entries)
    requires MergeOf(replies, limit, notAfter, m) && 1 <= limit && DueOffered(replies, notAfter)
    ensures m.entries != []
  {
    var k :| Offered(replies, k) && k.at <= notAfter;
    var r :| 0 <= r < |replies| && replies[r].Some? && Offers(replies[r].value, k);
    var first := LeastFirst(replies, |replies|, r);
    var k0 := replies[first].value.entries[0].pos;
    assert !Less(k, k0) by {
      PosOrder();
      var i :| 0 <= i < |replies[r].value.entries| && replies[r].value.entries[i].pos == k;
      assert i == 0 || Less(replies[r].value.entries[0].pos, replies[r].value.entries[i].pos);
    }
    assert k0.at <= k.at;
    assert Offers(replies[first].value, k0) && Offered(replies, k0);
    forall q | 0 <= q < |replies| && replies[q].Some? && Full(replies[q].value, limit)
      ensures !Less(replies[q].value.entries[|replies[q].value.entries| - 1].pos, k0)
    {
      var es := replies[q].value.entries;
      PosOrder();
      assert !Less(es[0].pos, k0);
      assert |es| == 1 || Less(es[0].pos, es[|es| - 1].pos);
    }
    assert WithinBound(replies, limit, k0);
  }

  /** No reader gave up before a due position. */
  predicate NoneCutShortWhenDue(replies: seq<Option<Page>>, notAfter: int) {
    forall r | 0 <= r < |replies| && replies[r].Some? && replies[r].value.resume.Some? ::
      replies[r].value.resume.value.at > notAfter
  }

  /** Whatever the indexes behind the answers, a held key that is due means a page with entries. */
  ghost predicate Progresses(replies: seq<Option<Page>>, after: Option<Pos>, limit: nat, notAfter: int, m: Merged) {
    forall others, k | Conform(others, replies, after, limit) && Held(others, replies, after, k) && k.at <= notAfter ::
      m.entries != []
  }

  lemma HeldIsOffered(indexes: seq<seq<Entry>>, replies: seq<Option<Page>>, after: Option<Pos>, limit: nat,
                      notAfter: int, k: Pos)
    requires Conform(indexes, replies, after, limit) && 1 <= limit && NoneCutShortWhenDue(replies, notAfter)
    requires Held(indexes, replies, after, k) && k.at <= notAfter
    ensures DueOffered(replies, notAfter)
  {
    var r, e :| 0 <= r < |replies| && replies[r].Some? && e in indexes[r] && e.pos == k && After(after, k);
    var page := replies[r].value;
    HeldKey(indexes[r], after, limit, page, e);
    if Offers(page, k) {
      assert Offered(replies, k);
    } else {
      var k0 := page.entries[0].pos;
      assert Offers(page, k0) && Offered(replies, k0) && k0.at <= notAfter;
    }
  }

  lemma NonEmptyIffDueOffered(replies: seq<Option<Page>>, limit: nat, notAfter: int, m: Merged)
    requires forall r | 0 <= r < |replies| && replies[r].Some? :: Ordered(replies[r].value.entries)
    requires MergeOf(replies, limit, notAfter, m) && 1 <= limit
    ensures m.entries != [] <==> DueOffered(replies, notAfter)
  {
    if DueOffered(replies, notAfter) {
      DueIsReturned(replies, limit, notAfter, m);
    }
    if m.entries != [] {
      HitIsOffered(replies, m.entries[0]);
    }
  }

  /** A reader that gave up before a due position may hold one that nobody offers. */
  lemma CutShortMayHold(indexes: seq<seq<Entry>>, replies: seq<Option<Page>>, after: Option<Pos>, limit: nat,
                        notAfter: int) returns (others: seq<seq<Entry>>, unread: Pos)
    requires Conform(indexes, replies, after, limit) && !NoneCutShortWhenDue(replies, notAfter)
    ensures Conform(others, replies, after, limit) && Held(others, replies, after, unread)
    ensures unread.at <= notAfter
  {
    var r :| 0 <= r < |replies| && replies[r].Some? && replies[r].value.resume.Some?
             && replies[r].value.resume.value.at <= notAfter;
    var resume := replies[r].value.resume.value;
    unread := Pos(resume.at, "a");
    if after.Some? {
      LessTransitive(after.value, resume, unread);
    }
    others := OtherIndexes(indexes, replies, after, limit, r, Entry(unread, None));
  }

  /** The page makes progress, for every set of indexes that fits the answers, if and only if some
      answer offers a due position or no reader gave up before one. */
  lemma ProgressIff(indexes: seq<seq<Entry>>, replies: seq<Option<Page>>,
                    after: Option<Pos>, limit: nat, notAfter: int, m: Merged)
    requires Conform(indexes, replies, after, limit) && MergeOf(replies, limit, notAfter, m) && 1 <= limit
    ensures Progresses(replies, after, limit, notAfter, m) <==>
            DueOffered(replies, notAfter) || NoneCutShortWhenDue(replies, notAfter)
  {
    OrderedAnswers(indexes, replies, after, limit);
    NonEmptyIffDueOffered(replies, limit, notAfter, m);
    if NoneCutShortWhenDue(replies, notAfter) {
      forall others, k | Conform(others, replies, after, limit) && Held(others, replies, after, k) && k.at <= notAfter
        ensures DueOffered(replies, notAfter)
      {
        HeldIsOffered(others, replies, after, limit, notAfter, k);
      }
    } else {
      var others, unread := CutShortMayHold(indexes, replies, after, limit, notAfter);
    }
  }

  /** One reader that gave up at second 6 without an entry: the page is empty although it holds a
      key of that second. */
  lemma StallExample(m: Merged)
    requires MergeOf([Some(Page([], Some(Pos(6, ""))))], 32, 100, m)
    ensures var replies := [Some(Page([], Some(Pos(6, ""))))];
            var indexes := [[Entry(Pos(6, "a"), None)]];
            && Conform(indexes, replies, None, 32) && Held(indexes, replies, None, Pos(6, "a"))
            && m.entries == []
  {
    var replies := [Some(Page([], Some(Pos(6, ""))))];
    var indexes := [[Entry(Pos(6, "a"), None)]];
    assert Answers(indexes[0], None, 32, replies[0].value);
    assert indexes[0][0] in indexes[0];
    NonEmptyIffDueOffered(replies, 32, 100, m);
    assert forall k :: !Offered(replies, k);
  }

  /** The answer, among the first `n`, whose page begins earliest. */
  lemma {:induction false} LeastFirst(replies: seq<Option<Page>>, n: nat, some: nat) returns (r: nat)
    requires some < n <= |replies| && replies[some].Some? && replies[some].value.entries != []
    ensures r < n && replies[r].Some? && replies[r].value.entries != []
    ensures forall q | 0 <= q < n && replies[q].Some? && replies[q].value.entries != [] ::
              !Less(replies[q].value.entries[0].pos, replies[r].value.entries[0].pos)
  {
    PosOrder();
    r := some;
    var q := 0;
    while q < n
      invariant q <= n && r < n && replies[r].Some? && replies[r].value.entries != []
      invariant forall p | 0 <= p < q && replies[p].Some? && replies[p].value.entries != [] ::
                  !Less(replies[p].value.entries[0].pos, replies[r].value.entries[0].pos)
    {
      if replies[q].Some? && replies[q].value.entries != []
         && Less(replies[q].value.entries[0].pos, replies[r].value.entries[0].pos) {
        r := q;
      }
      q := q + 1;
    }
  }

  /** A concrete answer set on which the cursor would skip: the first reader gives up at
      second 6 with its entry of that second unread, the second returns its entry of
      second 9. */
  function CutShortReplies(): (r: seq<Option<Page>>) {
    [Some(Page([], Some(Pos(6, "")))), Some(Page([Entry(Pos(9, "b"), None)], None))]
  }

  function CutShortIndexes(): (r: seq<seq<Entry>>) {
    [[Entry(Pos(6, "a"), None)], [Entry(Pos(9, "b"), None)]]
  }

  lemma SkipConforms()
    ensures Conform(CutShortIndexes(), CutShortReplies(), None, 32)
  {
  }

  lemma OnlyLateOffered(h: Hit)
    requires FirstReaderWins(CutShortReplies(), h)
    ensures h.entry.pos == Pos(9, "b")
  {
    var replies := CutShortReplies();
    assert replies[0].value.entries == [] && replies[1].value.entries == [Entry(Pos(9, "b"), None)];
  }

  lemma LateOffered()
    ensures Offered(CutShortReplies(), Pos(9, "b")) && WithinBound(CutShortReplies(), 32, Pos(9, "b"))
  {
    var replies := CutShortReplies();
    assert replies[1].value.entries[0].pos == Pos(9, "b");
    assert Offers(replies[1].value, Pos(9, "b"));
  }

  lemma SkipReturns(m: Merged)
    requires MergeOf(CutShortReplies(), 32, 100, m)
    ensures Returns(m, Pos(9, "b")) && !Returns(m, Pos(6, "a"))
  {
    forall i | 0 <= i < |m.entries| ensures m.entries[i].entry.pos == Pos(9, "b") {
      OnlyLateOffered(m.entries[i]);
    }
    LateOffered();
    NotBoth(Pos(9, "b"), Pos(9, "b"));
    assert |m.entries| == 32 ==> !Less(m.entries[0].entry.pos, Pos(9, "b"));
  }

  /** On the same answers the page passes an unread key of the first reader and none of the second,
      whose entry it returns. */
  lemma CutShortElsewhere(m: Merged)
    requires MergeOf(CutShortReplies(), 32, 100, m)
    ensures !NoOverrunBy(CutShortReplies(), 0, 32, 100) && NoOverrunBy(CutShortReplies(), 1, 32, 100)
  {
    SkipReturns(m);
    ReturnsIffPicked(CutShortReplies(), 32, 100, m, Pos(9, "b"));
    assert ProperId("a") && Less(Pos(6, ""), Pos(6, "a")) && Less(Pos(6, "a"), Pos(9, "b"));
    assert !Offered(CutShortReplies(), Pos(6, "a"));
  }

  method SkipExample() returns (m: Merged)
    ensures MergeOf(CutShortReplies(), 32, 100, m)
    ensures Conform(CutShortIndexes(), CutShortReplies(), None, 32)
    ensures !NoGap(CutShortIndexes(), CutShortReplies(), None, m)
  {
    SkipConforms();
    m := MergedIndexPage(CutShortReplies(), 32, 100);
    SkipReturns(m);
    assert Entry(Pos(6, "a"), None) in CutShortIndexes()[0];
    assert Held(CutShortIndexes(), CutShortReplies(), None, Pos(6, "a"));
    assert Less(Pos(6, "a"), Pos(9, "b"));
  }
}
