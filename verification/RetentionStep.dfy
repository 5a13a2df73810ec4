/** One step of public topic retention: due retries, three time indexes per day, key scans,
    and the mark that a past day has been read to its end. */
module RetentionStep {
  import opened IndexMerge
  import opened Order
  import opened RetentionBooks

  // ------------------------------------------------------------------ what the readers answer

  /** What becomes of a listed key: reflected, waiting for its post, reflected with its content
      put on the retry schedule, or not readable this time. */
  datatype Scanned = Reflected | Pending | Retried(target: Target) | Unreadable

  /** What the readers of one step answer: index pages per place, cursor and limit, key listings
      per day and kind, and what reading a listed key comes to. */
  datatype Readers = Readers(read: (Place, Option<Pos>, nat) -> seq<Option<Page>>,
                             scan: (nat, Scan) -> Option<seq<string>>,
                             scanned: (nat, Scan, string) -> Scanned)

  /** One question to the readers of an index. */
  datatype Ask = Ask(place: Place, after: Option<Pos>, limit: nat)

  function AnswersTo(env: Readers, a: Ask): (replies: seq<Option<Page>>) { env.read(a.place, a.after, a.limit) }

  /** No answer filled its page. */
  predicate NoneFullIn(env: Readers, asked: seq<Ask>) {
    forall i {:trigger AnswersTo(env, asked[i])} | 0 <= i < |asked| ::
      NoneFull(AnswersTo(env, asked[i]), asked[i].limit)
  }

  /** Somebody answered, and the page reports nothing left. */
  ghost predicate PageRead(env: Readers, a: Ask, notAfter: int) {
    exists m :: MergeOf(AnswersTo(env, a), a.limit, notAfter, m) && m.answered && !m.more
  }

  /** The first positions the answers offer, up to the limit, have been taken in. */
  ghost predicate TakenIn(env: Readers, a: Ask, notAfter: int, b: Books) {
    forall k | Picked(AnswersTo(env, a), a.limit, notAfter, k) :: Settled(b, IndexTarget(a.place.index, k.id))
  }

  ghost predicate AllTakenIn(env: Readers, asked: seq<Ask>, notAfter: int, b: Books) {
    forall i {:trigger TakenIn(env, asked[i], notAfter, b)} | 0 <= i < |asked| :: TakenIn(env, asked[i], notAfter, b)
  }

  /** All that the first positions of the answers name has been taken in. */
  ghost predicate NamedTakenIn(env: Readers, asked: seq<Ask>, notAfter: int, b: Books) {
    forall i, k, t | 0 <= i < |asked| && Picked(AnswersTo(env, asked[i]), asked[i].limit, notAfter, k)
                     && Names(asked[i].place.index, k.id, t) ::
      Settled(b, Some(t))
  }

  lemma TakenInNames(env: Readers, asked: seq<Ask>, notAfter: int, b: Books)
    requires AllTakenIn(env, asked, notAfter, b)
    ensures NamedTakenIn(env, asked, notAfter, b)
  {
    forall i, k, t | 0 <= i < |asked| && Picked(AnswersTo(env, asked[i]), asked[i].limit, notAfter, k)
                     && Names(asked[i].place.index, k.id, t)
      ensures Settled(b, Some(t))
    {
      assert TakenIn(env, asked[i], notAfter, b);
      IndexTargetIff(asked[i].place.index, k.id, t);
    }
  }

  lemma KeepsTakenIn(env: Readers, asked: seq<Ask>, notAfter: int, b: Books, c: Books)
    requires Keeps(b, c)
    ensures AllTakenIn(env, asked, notAfter, b) ==> AllTakenIn(env, asked, notAfter, c)
  {
    forall i | 0 <= i < |asked| && TakenIn(env, asked[i], notAfter, b)
      ensures TakenIn(env, asked[i], notAfter, c)
    {
    }
  }

  lemma MoreTakenIn(env: Readers, asked: seq<Ask>, more: seq<Ask>, notAfter: int, b: Books)
    requires AllTakenIn(env, asked, notAfter, b) && AllTakenIn(env, more, notAfter, b)
    ensures AllTakenIn(env, asked + more, notAfter, b)
  {
  }

  lemma PageIsTakenIn(env: Readers, a: Ask, notAfter: int, b: Books, m: Merged)
    requires MergeOf(AnswersTo(env, a), a.limit, notAfter, m) && PageSettled(b, a.place.index, m.entries)
    ensures TakenIn(env, a, notAfter, b)
  {
    forall k | Picked(AnswersTo(env, a), a.limit, notAfter, k)
      ensures Settled(b, IndexTarget(a.place.index, k.id))
    {
      ReturnsIffPicked(AnswersTo(env, a), a.limit, notAfter, m, k);
    }
  }

  /** Some answer offers a position that points at `t`. */
  ghost predicate PointedAt(env: Readers, asked: seq<Ask>, t: Target) {
    exists i, k | 0 <= i < |asked| && Offered(AnswersTo(env, asked[i]), k) ::
      IndexTarget(asked[i].place.index, k.id) == Some(t)
  }

  /** Some listed key of the day puts `t` on the schedule. */
  ghost predicate ScannedFor(env: Readers, bucket: nat, scans: seq<Scan>, t: Target) {
    exists scan, v | scan in scans && env.scan(bucket, scan).Some? && v in env.scan(bucket, scan).value ::
      env.scanned(bucket, scan, v) == Retried(t)
  }

  /** The day has readers, whatever the page asked for. */
  ghost predicate HasReaders(env: Readers, bucket: nat) {
    forall limit: nat :: env.read(Place(Timeline, bucket), None, limit) != []
  }

  /** The readers keep the contract of their indexes, and the steady ones answer and do not give up
      where the page would pass a key they have not read. Of the others nothing is asked. */
  ghost predicate ReadersKeepContract(steady: Place -> seq<seq<Entry>>, env: Readers,
                                      indexes: Place -> seq<seq<Entry>>, notAfter: int) {
    forall a :: ContractKept(steady, env, indexes, notAfter, a)
  }

  ghost predicate ContractKept(steady: Place -> seq<seq<Entry>>, env: Readers,
                               indexes: Place -> seq<seq<Entry>>, notAfter: int, a: Ask) {
    && Conform(indexes(a.place), AnswersTo(env, a), a.after, a.limit)
    && SteadyAnswer(steady(a.place), indexes(a.place), AnswersTo(env, a), a.limit, notAfter)
  }

  /** Reader `r` answered, and holds what it is known to hold and perhaps more. */
  ghost predicate StillHolds(known: seq<Entry>, indexes: seq<seq<Entry>>, replies: seq<Option<Page>>, r: nat)
    requires |indexes| == |replies|
  {
    r < |replies| && replies[r].Some? && forall e | e in known :: e in indexes[r]
  }

  /** A reader that holds `known` answered, and no page passes what it has not read. */
  ghost predicate AnswersFor(known: seq<Entry>, indexes: seq<seq<Entry>>, replies: seq<Option<Page>>,
                             limit: nat, notAfter: int)
    requires |indexes| == |replies|
  {
    exists r: nat :: StillHolds(known, indexes, replies, r) && NoOverrunBy(replies, r, limit, notAfter)
  }

  /** A reader that holds `known` answered, and its answer was not full. */
  ghost predicate ShortFor(known: seq<Entry>, indexes: seq<seq<Entry>>, replies: seq<Option<Page>>, limit: nat)
    requires |indexes| == |replies|
  {
    exists r: nat :: StillHolds(known, indexes, replies, r) && !Full(replies[r].value, limit)
  }

  /** The steady readers are among those asked, and no page passes what they have not read. */
  ghost predicate SteadyAnswer(steady: seq<seq<Entry>>, indexes: seq<seq<Entry>>, replies: seq<Option<Page>>,
                               limit: nat, notAfter: int)
    requires |indexes| == |replies|
  {
    forall s | 0 <= s < |steady| :: AnswersFor(steady[s], indexes, replies, limit, notAfter)
  }

  /** The steady readers are among those asked, and none of their own answers was full. */
  ghost predicate SteadyShort(steady: seq<seq<Entry>>, indexes: seq<seq<Entry>>, replies: seq<Option<Page>>,
                              limit: nat) {
    |indexes| == |replies| && forall s | 0 <= s < |steady| :: ShortFor(steady[s], indexes, replies, limit)
  }

  ghost predicate ShortAt(steady: Place -> seq<seq<Entry>>, env: Readers, indexes: Place -> seq<seq<Entry>>, a: Ask) {
    SteadyShort(steady(a.place), indexes(a.place), AnswersTo(env, a), a.limit)
  }

  /** No steady reader filled its page with an answer. */
  ghost predicate ShortIn(steady: Place -> seq<seq<Entry>>, env: Readers, indexes: Place -> seq<seq<Entry>>,
                          asked: seq<Ask>) {
    forall i {:trigger ShortAt(steady, env, indexes, asked[i])} | 0 <= i < |asked| ::
      ShortAt(steady, env, indexes, asked[i])
  }

  /** In particular when nobody did. */
  lemma NoneFullIsShort(steady: Place -> seq<seq<Entry>>, env: Readers, indexes: Place -> seq<seq<Entry>>,
                        notAfter: int, asked: seq<Ask>)
    requires ReadersKeepContract(steady, env, indexes, notAfter) && NoneFullIn(env, asked)
    ensures ShortIn(steady, env, indexes, asked)
  {
    forall i | 0 <= i < |asked| ensures ShortAt(steady, env, indexes, asked[i]) {
      var a := asked[i];
      assert ContractKept(steady, env, indexes, notAfter, a) && NoneFull(AnswersTo(env, a), a.limit);
      SteadyIsShort(steady(a.place), indexes(a.place), AnswersTo(env, a), a.limit, notAfter);
    }
  }

  lemma SteadyIsShort(steady: seq<seq<Entry>>, indexes: seq<seq<Entry>>, replies: seq<Option<Page>>,
                      limit: nat, notAfter: int)
    requires |indexes| == |replies| && SteadyAnswer(steady, indexes, replies, limit, notAfter)
    requires NoneFull(replies, limit)
    ensures SteadyShort(steady, indexes, replies, limit)
  {
    forall s | 0 <= s < |steady| ensures ShortFor(steady[s], indexes, replies, limit) {
      assert AnswersFor(steady[s], indexes, replies, limit, notAfter);
      var r: nat :| StillHolds(steady[s], indexes, replies, r);
      assert !Full(replies[r].value, limit);
    }
  }

  lemma MoreShort(steady: Place -> seq<seq<Entry>>, env: Readers, indexes: Place -> seq<seq<Entry>>,
                  asked: seq<Ask>, more: seq<Ask>)
    ensures ShortIn(steady, env, indexes, asked + more) <==>
            ShortIn(steady, env, indexes, asked) && ShortIn(steady, env, indexes, more)
  {
    var all := asked + more;
    forall i | 0 <= i < |asked|
      ensures ShortAt(steady, env, indexes, all[i]) <==> ShortAt(steady, env, indexes, asked[i])
    {
    }
    forall i | 0 <= i < |more|
      ensures ShortAt(steady, env, indexes, all[|asked| + i]) <==> ShortAt(steady, env, indexes, more[i])
    {
    }
    if ShortIn(steady, env, indexes, asked) && ShortIn(steady, env, indexes, more) {
      forall i | 0 <= i < |all| ensures ShortAt(steady, env, indexes, all[i]) {
        assert if i < |asked| then ShortAt(steady, env, indexes, asked[i])
               else ShortAt(steady, env, indexes, more[i - |asked|]);
      }
    }
  }

  /** The second reader of such answers may be steady, whatever becomes of the first. */
  lemma CutShortReaderIsPassed(m: Merged)
    requires MergeOf(CutShortReplies(), 32, 100, m)
    ensures SteadyAnswer([CutShortIndexes()[1]], CutShortIndexes(), CutShortReplies(), 32, 100)
    ensures !NoOverrun(CutShortReplies(), 32, 100)
  {
    CutShortElsewhere(m);
    assert StillHolds(CutShortIndexes()[1], CutShortIndexes(), CutShortReplies(), 1);
    assert AnswersFor(CutShortIndexes()[1], CutShortIndexes(), CutShortReplies(), 32, 100);
  }

  /** Withdrawals and reactions wait until the post they refer to is retained. */
  predicate MayWait(scan: Scan) { scan == Withdrawals || scan == Reactions }

  predicate ScanDone(bucket: nat, scan: Scan, page: Option<seq<string>>, reflected: set<(nat, Scan, string)>) {
    page.Some? && forall v | v in page.value :: (bucket, scan, v) in reflected || MayWait(scan)
  }

  /** A withdrawal of, or a reaction to, a post that is not retained yet. */
  predicate Waits(scan: Scan, found: Scanned) { found.Pending? && (scan.Withdrawals? || scan.Reactions?) }

  /** The version is reflected, if only to be retried, and need not be read again. */
  predicate TakenUp(scan: Scan, found: Scanned) { !found.Unreadable? && !Waits(scan, found) }

  /** What the first `n` listed versions cost: one unit each that was not seen before and is not left
      waiting. */
  function Spent(env: Readers, bucket: nat, scan: Scan, page: seq<string>, before: set<string>, n: nat): (m: nat)
    requires n <= |page|
  {
    if n == 0 then 0
    else
      Spent(env, bucket, scan, page, before, n - 1)
      + if page[n - 1] in before || Waits(scan, env.scanned(bucket, scan, page[n - 1])) then 0 else 1
  }

  /** What has come of the first `n` versions of a listing: those seen before are kept, others are kept if
      they are taken up; none is left out unless the budget ran out (`more`) or it could not be read
      (not `complete`). */
  ghost predicate PageScanned(env: Readers, bucket: nat, scan: Scan, page: seq<string>, before: set<string>, n: nat,
                              budget: nat, more: bool, complete: bool, kept: set<string>, left: nat)
    requires n <= |page|
  {
    && (forall v | v in kept :: v in page && (v in before || TakenUp(scan, env.scanned(bucket, scan, v))))
    && (forall j | 0 <= j < n && page[j] in before :: page[j] in kept)
    && (!more ==> forall j | 0 <= j < n && page[j] !in before ::
                    && (TakenUp(scan, env.scanned(bucket, scan, page[j])) ==> page[j] in kept)
                    && (complete ==> !env.scanned(bucket, scan, page[j]).Unreadable?))
    && (!complete ==> exists v | v in page :: v !in before && env.scanned(bucket, scan, v).Unreadable?)
    && (more ==> left == 0 && exists v | v in page :: v !in before)
    && var spent := Spent(env, bucket, scan, page, before, n);
       left == if spent <= budget then budget - spent else 0
  }

  /** What one version more makes of it. */
  predicate OneMore(scan: Scan, found: Scanned, v: string, before: set<string>,
                    more: bool, complete: bool, kept: set<string>, left: nat,
                    more': bool, complete': bool, kept': set<string>, left': nat) {
    if v in before then more' == more && complete' == complete && kept' == kept + {v} && left' == left
    else if left == 0 then more' && complete' == complete && kept' == kept && left' == 0
    else
      && more' == more && complete' == (complete && !found.Unreadable?)
      && kept' == (if TakenUp(scan, found) then kept + {v} else kept)
      && left' == left - if Waits(scan, found) then 0 else 1
  }

  lemma OneVersion(env: Readers, bucket: nat, scan: Scan, page: seq<string>, before: set<string>, n: nat,
                   budget: nat, more: bool, complete: bool, kept: set<string>, left: nat,
                   more': bool, complete': bool, kept': set<string>, left': nat)
    requires n < |page| && PageScanned(env, bucket, scan, page, before, n, budget, more, complete, kept, left)
    requires OneMore(scan, env.scanned(bucket, scan, page[n]), page[n], before, more, complete, kept, left,
                     more', complete', kept', left')
    ensures PageScanned(env, bucket, scan, page, before, n + 1, budget, more', complete', kept', left')
  {
  }

  /** Nothing but listed versions that are taken up has been reflected in between. */
  ghost predicate ReflectedOnly(env: Readers, bucket: nat, scan: Scan, page: seq<string>,
                                before: set<(nat, Scan, string)>, after: set<(nat, Scan, string)>) {
    forall x | x in after && x !in before ::
      x.0 == bucket && x.1 == scan && x.2 in page && TakenUp(scan, env.scanned(bucket, scan, x.2))
  }

  /** Every listed version has been reflected, could not be read, or waits for its post. */
  ghost predicate PageGone(env: Readers, bucket: nat, scan: Scan, page: seq<string>,
                           reflected: set<(nat, Scan, string)>) {
    forall v | v in page ::
      || (bucket, scan, v) in reflected || env.scanned(bucket, scan, v).Unreadable?
      || Waits(scan, env.scanned(bucket, scan, v))
  }

  ghost predicate Gone(env: Readers, bucket: nat, scan: Scan, reflected: set<(nat, Scan, string)>) {
    env.scan(bucket, scan).Some? ==> PageGone(env, bucket, scan, env.scan(bucket, scan).value, reflected)
  }

  ghost predicate ScansGone(env: Readers, bucket: nat, scans: seq<Scan>, n: nat, reflected: set<(nat, Scan, string)>)
    requires n <= |scans|
  {
    forall i | 0 <= i < n :: Gone(env, bucket, scans[i], reflected)
  }

  lemma MoreGone(env: Readers, bucket: nat, scans: seq<Scan>, n: nat, before: set<(nat, Scan, string)>,
                 after: set<(nat, Scan, string)>)
    requires n <= |scans| && ScansGone(env, bucket, scans, n, before) && before <= after
    ensures ScansGone(env, bucket, scans, n, after)
  {
    forall i | 0 <= i < n
      ensures Gone(env, bucket, scans[i], after)
    {
      assert Gone(env, bucket, scans[i], before);
    }
  }

  lemma PageIsGone(env: Readers, bucket: nat, scan: Scan, page: seq<string>, before: set<string>, budget: nat,
                   more: bool, complete: bool, kept: set<string>, left: nat, reflected: set<(nat, Scan, string)>)
    requires PageScanned(env, bucket, scan, page, before, |page|, budget, more, complete, kept, left)
    requires forall v | v in before + kept :: (bucket, scan, v) in reflected
    ensures !more ==> PageGone(env, bucket, scan, page, reflected)
    ensures !more && complete ==> ScanDone(bucket, scan, Some(page), reflected)
    ensures page == [] ==> !more && complete
  {
    forall v | v in page && !more
      ensures (bucket, scan, v) in reflected
              || (env.scanned(bucket, scan, v).Unreadable? && !complete) || Waits(scan, env.scanned(bucket, scan, v))
    {
      var j :| 0 <= j < |page| && page[j] == v;
      if v !in before && TakenUp(scan, env.scanned(bucket, scan, v)) {
        assert v in before + kept;
      }
    }
  }

  /** The same of the sessions of a day and, while it is read live, of its withdrawals and reactions. */
  ghost predicate DayGone(env: Readers, bucket: nat, live: bool, reflected: set<(nat, Scan, string)>) {
    && Gone(env, bucket, LiveSessions, reflected) && Gone(env, bucket, GameSessions, reflected)
    && (live ==> Gone(env, bucket, Withdrawals, reflected) && Gone(env, bucket, Reactions, reflected))
  }

  lemma ScansAreDay(env: Readers, bucket: nat, live: bool, reflected: set<(nat, Scan, string)>)
    requires var scans := ScansOf(live);
             ScansGone(env, bucket, scans, |scans|, reflected)
    ensures DayGone(env, bucket, live, reflected)
  {
    var scans := ScansOf(live);
    assert Gone(env, bucket, scans[0], reflected) && Gone(env, bucket, scans[1], reflected);
    if live {
      assert Gone(env, bucket, scans[2], reflected) && Gone(env, bucket, scans[3], reflected);
    }
  }

  lemma DayStaysGone(env: Readers, bucket: nat, live: bool, before: set<(nat, Scan, string)>,
                     after: set<(nat, Scan, string)>)
    requires DayGone(env, bucket, live, before) && before <= after
    ensures DayGone(env, bucket, live, after)
  {
  }

  ghost predicate NoKeys(env: Readers, bucket: nat) {
    forall scan :: env.scan(bucket, scan).Some? ==> env.scan(bucket, scan).value == []
  }

  // ------------------------------------------------------------------ what a page does to the books

  /** An entry is taken in, and the cursor moves over it. */
  function TakeOne(b: Books, place: Place, pos: Pos, o: Outcomes): (r: Books) {
    var target := IndexTarget(place.index, pos.id);
    WithCursor(if target.Some? then Take(b, target.value, o) else b, place, pos)
  }

  function TakeAll(b: Books, place: Place, hits: seq<Hit>, o: Outcomes): (r: Books) {
    if hits == [] then b
    else TakeOne(TakeAll(b, place, hits[..|hits| - 1], o), place, hits[|hits| - 1].entry.pos, o)
  }

  function RetryAll(b: Books, due: seq<Target>, o: Outcomes): (r: Books) {
    if due == [] then b else Retry(RetryAll(b, due[..|due| - 1], o), due[|due| - 1], o)
  }

  function TargetsOf(index: Index, hits: seq<Hit>): (r: set<Target>) {
    set i | 0 <= i < |hits| && IndexTarget(index, hits[i].entry.pos.id).Some? ::
      IndexTarget(index, hits[i].entry.pos.id).value
  }

  /** The target of one entry, if it has one. */
  function TargetAt(index: Index, pos: Pos): (r: set<Target>) {
    var target := IndexTarget(index, pos.id);
    if target.Some? then {target.value} else {}
  }

  ghost predicate PageSettled(b: Books, index: Index, hits: seq<Hit>) {
    forall j | 0 <= j < |hits| :: Settled(b, IndexTarget(index, hits[j].entry.pos.id))
  }

  /** What the steady readers hold after the cursor is on the page up to its last entry. */
  ghost predicate SteadyNoGap(held: seq<seq<Entry>>, after: Option<Pos>, m: Merged) {
    forall s | 0 <= s < |held| :: ReaderNoGap(held[s], after, m)
  }

  lemma SteadyGapFree(held: seq<seq<Entry>>, indexes: seq<seq<Entry>>, replies: seq<Option<Page>>,
                      after: Option<Pos>, limit: nat, notAfter: int, m: Merged)
    requires Conform(indexes, replies, after, limit) && MergeOf(replies, limit, notAfter, m)
    requires SteadyAnswer(held, indexes, replies, limit, notAfter)
    ensures SteadyNoGap(held, after, m)
  {
    forall s | 0 <= s < |held| ensures ReaderNoGap(held[s], after, m) {
      assert AnswersFor(held[s], indexes, replies, limit, notAfter);
      var r: nat :| StillHolds(held[s], indexes, replies, r) && NoOverrunBy(replies, r, limit, notAfter);
      ReaderNoGapIff(indexes, replies, after, limit, notAfter, m, r);
      FewerNoGap(held[s], indexes[r], after, m);
    }
  }

  lemma FewerNoGap(known: seq<Entry>, index: seq<Entry>, after: Option<Pos>, m: Merged)
    requires ReaderNoGap(index, after, m) && forall e | e in known :: e in index
    ensures ReaderNoGap(known, after, m)
  {
  }

  /** An entry of the page is reached with everything the steady readers hold before it
      settled: it lay before the cursor, or the page returned it earlier. */
  lemma PrefixSettled(steady: Place -> seq<seq<Entry>>, b: Books, place: Place,
                      after: Option<Pos>, m: Merged, n: nat)
    requires SteadyNoGap(steady(place), after, m) && InOrder(m) && n < |m.entries|
    requires after.Some? ==> SettledThrough(steady, b, place, after.value)
    requires PageSettled(b, place.index, m.entries[..n])
    ensures SettledBefore(steady, b, place, m.entries[n].entry.pos)
  {
    forall r, e | 0 <= r < |steady(place)| && e in steady(place)[r] && Less(e.pos, m.entries[n].entry.pos)
      ensures Settled(b, IndexTarget(place.index, e.pos.id))
    {
      if After(after, e.pos) {
        assert ReaderNoGap(steady(place)[r], after, m);
        var j :| 0 <= j < |m.entries| && m.entries[j].entry.pos == e.pos;
        NotBoth(m.entries[j].entry.pos, m.entries[n].entry.pos);
        assert j < n;
        assert m.entries[..n][j] == m.entries[j];
      }
    }
  }

  lemma OneMoreEntry(a: Books, b: Books, c: Books, index: Index, hits: seq<Hit>, n: nat)
    requires n < |hits| && Keeps(a, b) && Keeps(b, c)
    requires SettlesOnly(a, b, TargetsOf(index, hits)) && SettlesOnly(b, c, TargetAt(index, hits[n].entry.pos))
    ensures Keeps(a, c) && SettlesOnly(a, c, TargetsOf(index, hits))
    ensures PageSettled(b, index, hits[..n]) && Settled(c, IndexTarget(index, hits[n].entry.pos.id)) ==>
              PageSettled(c, index, hits[..n + 1])
  {
    assert TargetAt(index, hits[n].entry.pos) <= TargetsOf(index, hits);
    assert forall j | 0 <= j < n :: hits[..n][j] == hits[..n + 1][j];
  }

  lemma TakeAllSnoc(b: Books, place: Place, hits: seq<Hit>, n: nat, o: Outcomes)
    requires n < |hits|
    ensures TakeAll(b, place, hits[..n + 1], o) == TakeOne(TakeAll(b, place, hits[..n], o), place, hits[n].entry.pos, o)
  {
    assert hits[..n + 1][..n] == hits[..n];
  }

  /** A page that reports nothing left has drained the steady readers if none of their answers was
      full. */
  lemma WholePlaceSettled(steady: Place -> seq<seq<Entry>>, b: Books, place: Place,
                          after: Option<Pos>, limit: nat, notAfter: int,
                          indexes: seq<seq<Entry>>, replies: seq<Option<Page>>, m: Merged)
    requires Conform(indexes, replies, after, limit) && MergeOf(replies, limit, notAfter, m)
    requires SteadyShort(steady(place), indexes, replies, limit) && 1 <= limit && !m.more
    requires after.Some? ==> SettledThrough(steady, b, place, after.value)
    requires PageSettled(b, place.index, m.entries)
    ensures PlaceSettled(steady, b, place)
  {
    forall s, e | 0 <= s < |steady(place)| && e in steady(place)[s]
      ensures Settled(b, IndexTarget(place.index, e.pos.id))
    {
      if After(after, e.pos) {
        assert ShortFor(steady(place)[s], indexes, replies, limit);
        var r: nat :| StillHolds(steady(place)[s], indexes, replies, r) && !Full(replies[r].value, limit);
        ReaderReadIff(indexes, replies, after, limit, notAfter, m, r);
        assert ReaderReturned(indexes[r], after, m);
        assert Returns(m, e.pos);
      }
    }
  }

  /** Two merges of the same answers agree on what is left and on whether anybody answered. */
  lemma MergeDetermined(replies: seq<Option<Page>>, limit: nat, notAfter: int, m: Merged, n: Merged)
    requires MergeOf(replies, limit, notAfter, m) && MergeOf(replies, limit, notAfter, n)
    ensures m.more == n.more && m.answered == n.answered
  {
    forall k
      ensures Returns(m, k) <==> Returns(n, k)
    {
      ReturnsIffPicked(replies, limit, notAfter, m, k);
      ReturnsIffPicked(replies, limit, notAfter, n, k);
    }
  }

  // ------------------------------------------------------------------ the step

  class TopicRetention {
    var books: Books
    /** The key versions reflected, per day and kind, that the last listing still showed. */
    var seen: map<(nat, Scan), set<string>>
    /** Every key version ever reflected or put on the retry schedule. */
    var reflected: set<(nat, Scan, string)>
    const outcomes: Outcomes
    /** The readers that answer every time, per place, with what they hold and no cursor had passed
        when it arrived. */
    ghost var steady: Place -> seq<seq<Entry>>
    /** Every change of the books so far, and the books before each. */
    ghost var log: seq<Change>
    ghost var past: seq<Books>

    constructor (outcomes: Outcomes, ghost steady: Place -> seq<seq<Entry>>)
      ensures this.steady == steady && this.outcomes == outcomes && Sound()
      ensures books == NoBooks() && log == [] && !books.store.topic
    {
      this.outcomes, this.steady := outcomes, steady;
      books, log, past := NoBooks(), [], [];
      seen, reflected := map[], {};
    }

    ghost predicate Sound()
      reads this
    {
      && Traced(past, log, books, outcomes) && CursorsSettled(steady, books)
      && forall slot, v | slot in seen && v in seen[slot] :: (slot.0, slot.1, v) in reflected
    }

    /** What every part of a step keeps. A retained topic stays so and loses nothing unless it is
        released in the middle of it, which nobody does to a step that is not disturbed (`quiet`). */
    twostate predicate StepKeeps(quiet: bool)
      reads this
    {
      && old(log) <= log && Keeps(old(books), books)
      && old(books).releases <= books.releases && (quiet ==> books.releases == old(books).releases)
      && (quiet ==> books.store.topic == old(books).store.topic)
      && (books.releases == old(books).releases && old(books).store.topic ==>
            books.store.topic && books.lost == old(books).lost)
    }

    /** Makes one change of the books. */
    method Change(c: Change)
      requires Traced(past, log, books, outcomes)
      modifies this`books, this`log, this`past
      ensures books == Apply(old(books), c, outcomes) && Traced(past, log, books, outcomes)
      ensures log == old(log) + [c] && old(log) <= log
    {
      OneMoreChange(past, log, books, c, outcomes);
      books, log, past := Apply(books, c, outcomes), log + [c], past + [books];
    }

    /** Between steps the owner may stop retaining the topic, and retain it again. */
    method ReleaseTopic()
      requires Sound()
      modifies this`books, this`log, this`past
      ensures Sound() && !books.store.topic && books.lost == {} && books.retained == old(books).retained
      ensures log == old(log) + [TopicReleased(false)]
    {
      ghost var b0 := books;
      Change(TopicReleased(false));
      assert forall p :: CursorSettled(steady, books, p);
    }

    method RetainTopic()
      requires Sound()
      modifies this`books, this`log, this`past
      ensures Sound() && books.store.topic && books == RetainedNow(old(books))
      ensures old(books).store.topic ==> books == old(books)
      ensures log == old(log) + [TopicRetained]
    {
      ghost var b0 := books;
      Change(TopicRetained);
      FewerCursors(steady, b0, books);
    }

    /** A steady reader has gained an entry since it was last asked. The invariant holds of all that
        the steady readers hold if and only if no cursor has passed the entry, or its target is
        settled; otherwise the entry stays out of what they are known to hold. */
    ghost method Arrive(place: Place, s: nat, e: Entry)
      requires Sound() && s < |steady(place)|
      modifies this`steady
      ensures Sound()
      ensures CursorsSettled(WithEntry(old(steady), place, s, e), books) <==> InTime(books, place, e)
      ensures steady == if InTime(books, place, e) then WithEntry(old(steady), place, s, e) else old(steady)
    {
      ArrivesIff(steady, books, place, s, e);
      if InTime(books, place, e) {
        steady := WithEntry(steady, place, s, e);
      }
    }

    /** Over every run of operations: the cursors have passed accounted targets only, if and only if
        each target behind them was taken in whole or has failed, with the topic retained, since the
        last release. That is so, in particular, if no release in mid-step met a target that stood on
        the rows alone and none failed while the topic was away. */
    lemma RunIsAccounted()
      requires Sound()
      ensures CursorsAccounted(steady, books) <==> BehindStands(steady, books.store.cursors, log, outcomes)
      ensures NothingDropped(log, outcomes) ==> CursorsAccounted(steady, books)
    {
      TracedIsReplay(past, log, books, outcomes);
      CursorsAccountedIff(steady, log, outcomes);
      if NothingDropped(log, outcomes) {
        NothingDroppedMeans(steady, log, outcomes);
      }
    }

    /** Over every run of operations: each target is retained only after an attempt that completed, given
        up only after more than five failures or a full table, and scheduled or lost only after a
        failure; and no row is stored of a topic that is not retained. */
    lemma RunIsFair()
      requires Sound()
      ensures Fair(books, outcomes) && RowsOwned(books.store, outcomes.keepsDays)
    {
      TracedIsReplay(past, log, books, outcomes);
      HistoryIsFair(log, outcomes);
    }

    /** A reader is asked from now on: it counts as steady, and what it holds arrives. */
    ghost method Join(place: Place)
      requires Sound()
      modifies this`steady
      ensures Sound() && steady == WithReader(old(steady), place)
      ensures steady(place) == old(steady(place)) + [[]]
      ensures forall p | p != place :: steady(p) == old(steady)(p)
    {
      KnownBefore(steady, WithReader(steady, place), books);
      steady := WithReader(steady, place);
    }

    /** A reader is no longer asked, did not answer, or gave up where a page passed unread keys. */
    ghost method Leave(place: Place, s: nat)
      requires Sound() && s < |steady(place)|
      modifies this`steady
      ensures Sound() && steady == WithoutReader(old(steady), place, s)
      ensures steady(place) == old(steady(place))[..s] + old(steady(place))[s + 1..]
      ensures forall p | p != place :: steady(p) == old(steady)(p)
    {
      KnownBefore(steady, WithoutReader(steady, place, s), books);
      steady := WithoutReader(steady, place, s);
    }

    /** Before each access of a step to its store the owner may do so too. What only the rows of the
        topic accounted for is lost with them, and nothing else. */
    method Interfere(quiet: bool)
      requires Sound()
      modifies this`books, this`log, this`past
      ensures Sound() && StepKeeps(quiet) && SettlesOnly(old(books), books, {}) && DaysKept(old(books), books, quiet)
      ensures || (books == old(books) && log == old(log))
              || (books == RetainedNow(old(books)) && log == old(log) + [TopicRetained])
              || (books == ReleasedNow(old(books), outcomes) && log == old(log) + [TopicReleased(true)])
              || (books == RetainedNow(ReleasedNow(old(books), outcomes))
                  && log == old(log) + [TopicReleased(true)] + [TopicRetained])
      ensures quiet ==> books == old(books) && log == old(log)
    {
      var released, resumed: bool := *, *;
      ghost var b0 := books;
      if !quiet && released {
        ReleaseKeeps(books, outcomes);
        Change(TopicReleased(true));
        FewerCursors(steady, b0, books);
      }
      if !quiet && resumed {
        RetainTopic();
      }
    }

    /** An awaited call of a step, with what the owner does meanwhile. */
    method Await(quiet: bool)
      requires Sound()
      modifies this`books, this`log, this`past
      ensures Sound() && StepKeeps(quiet) && SettlesOnly(old(books), books, {}) && DaysKept(old(books), books, quiet)
      ensures quiet ==> books == old(books)
    {
      Interfere(quiet);
    }

    /** Takes in what an entry points at, if it points at anything. */
    method TakeTarget(target: Option<Target>, faulty: bool, quiet: bool) returns (ok: bool)
      requires Sound()
      modifies this`books, this`log, this`past
      ensures Sound() && StepKeeps(quiet) && DaysKept(old(books), books, quiet)
      ensures SettlesOnly(old(books), books, if target.Some? then {target.value} else {})
      ensures ok ==> Settled(books, target)
      ensures quiet && ok ==> books == if target.Some? then Take(old(books), target.value, outcomes) else old(books)
      ensures !faulty ==> ok
    {
      ghost var b0 := books;
      Await(quiet);
      if target.Some? {
        var stopped: bool := *;
        if faulty && stopped { return false; }
        ghost var b1 := books;
        TakeKeeps(books, target.value, outcomes);
        FewerCursors(steady, b1, Take(b1, target.value, outcomes));
        Change(EntryTaken(target.value));
        KeepsTransitive(b0, b1, books);
      }
      ok := true;
    }

    /** Takes in one index entry and moves the cursor over it. `false`: the service is closing
        or the store failed, and the step ends here. */
    method TakeEntry(place: Place, pos: Pos, faulty: bool, quiet: bool) returns (ok: bool)
      requires Sound() && SettledBefore(steady, books, place, pos)
      modifies this`books, this`log, this`past
      ensures Sound() && StepKeeps(quiet) && DaysKept(old(books), books, quiet)
      ensures SettlesOnly(old(books), books, TargetAt(place.index, pos))
      ensures ok ==> Settled(books, IndexTarget(place.index, pos.id))
      ensures ok && books.store.topic ==> place in books.store.cursors && books.store.cursors[place] == pos
      ensures quiet && ok ==> books == TakeOne(old(books), place, pos, outcomes)
      ensures !faulty ==> ok
    {
      ghost var b0 := books;
      ok := TakeTarget(IndexTarget(place.index, pos.id), faulty, quiet);
      if !ok { return; }
      ghost var b1 := books;
      KeepsThrough(steady, b0, b1, place, pos);
      ok := MoveCursor(place, pos, faulty, quiet);
      KeepsTransitive(b0, b1, books);
    }

    method MoveCursor(place: Place, pos: Pos, faulty: bool, quiet: bool) returns (ok: bool)
      requires Sound() && SettledBefore(steady, books, place, pos) && Settled(books, IndexTarget(place.index, pos.id))
      modifies this`books, this`log, this`past
      ensures Sound() && StepKeeps(quiet) && DaysKept(old(books), books, quiet) && SettlesOnly(old(books), books, {})
      ensures ok && books.store.topic ==> place in books.store.cursors && books.store.cursors[place] == pos
      ensures quiet && ok ==> books == WithCursor(old(books), place, pos)
      ensures !faulty ==> ok
    {
      ghost var b0 := books;
      Await(quiet);
      KeepsThrough(steady, b0, books, place, pos);
      var stopped: bool := *;
      if faulty && stopped { return false; }
      CursorMoves(steady, books, place, pos);
      KeepsTransitive(b0, books, WithCursor(books, place, pos));
      ghost var b1 := books;
      Change(CursorPut(place, pos));
      ok := true;
    }

    /** Takes in a merged page, oldest first. */
    method TakePage(place: Place, after: Option<Pos>, limit: nat, m: Merged, faulty: bool, quiet: bool)
      returns (ok: bool, left: nat)
      requires Sound() && |m.entries| <= limit
      requires InOrder(m) && SteadyNoGap(steady(place), after, m)
      requires after.Some? ==> SettledThrough(steady, books, place, after.value)
      modifies this`books, this`log, this`past
      ensures Sound() && StepKeeps(quiet) && DaysKept(old(books), books, quiet)
      ensures SettlesOnly(old(books), books, TargetsOf(place.index, m.entries))
      ensures left <= limit && (ok ==> left == limit - |m.entries|)
      ensures ok ==> PageSettled(books, place.index, m.entries)
      ensures ok && books.store.topic && m.entries != [] ==>
                place in books.store.cursors && books.store.cursors[place] == m.entries[|m.entries| - 1].entry.pos
      ensures quiet && ok ==> books == TakeAll(old(books), place, m.entries, outcomes)
      ensures !faulty ==> ok
    {
      left, ok := limit, true;
      ghost var b0 := books;
      for i := 0 to |m.entries|
        invariant Sound() && StepKeeps(quiet) && DaysKept(b0, books, quiet)
        invariant SettlesOnly(b0, books, TargetsOf(place.index, m.entries))
        invariant left == limit - i && PageSettled(books, place.index, m.entries[..i])
        invariant books.store.topic && i > 0 ==>
                    place in books.store.cursors && books.store.cursors[place] == m.entries[i - 1].entry.pos
        invariant quiet ==> books == TakeAll(b0, place, m.entries[..i], outcomes)
      {
        ghost var b1 := books;
        if after.Some? {
          KeepsThrough(steady, b0, books, place, after.value);
        }
        PrefixSettled(steady, books, place, after, m, i);
        ok := TakeEntry(place, m.entries[i].entry.pos, faulty, quiet);
        OneMoreEntry(b0, b1, books, place.index, m.entries, i);
        if !ok { return; }
        TakeAllSnoc(b0, place, m.entries, i, outcomes);
        left := left - 1;
      }
      assert m.entries[..|m.entries|] == m.entries;
    }

    /** Reads one index and takes in the merged page. */
    method ReadIndex(a: Ask, notAfter: int, env: Readers, ghost indexes: Place -> seq<seq<Entry>>,
                     faulty: bool, quiet: bool)
      returns (ok: bool, m: Merged, left: nat)
      requires Sound() && ReadersKeepContract(steady, env, indexes, notAfter) && 1 <= a.limit
      requires a.after.Some? ==> SettledThrough(steady, books, a.place, a.after.value)
      modifies this`books, this`log, this`past
      ensures Sound() && StepKeeps(quiet) && DaysKept(old(books), books, quiet)
      ensures MergeOf(AnswersTo(env, a), a.limit, notAfter, m) && left <= a.limit
      ensures SettlesOnly(old(books), books, TargetsOf(a.place.index, m.entries))
      ensures ok ==> left == a.limit - |m.entries|
      ensures ok && books.store.topic && m.entries != [] ==>
                && a.place in books.store.cursors
                && books.store.cursors[a.place] == m.entries[|m.entries| - 1].entry.pos
      ensures quiet && ok ==> books == TakeAll(old(books), a.place, m.entries, outcomes)
      ensures ok ==> TakenIn(env, a, notAfter, books)
      ensures ok && !m.more && ShortAt(steady, env, indexes, a) ==> PlaceSettled(steady, books, a.place)
      ensures !faulty ==> ok
    {
      var replies := AnswersTo(env, a);
      assert ContractKept(steady, env, indexes, notAfter, a);
      OrderedAnswers(indexes(a.place), replies, a.after, a.limit);
      m := MergedIndexPage(replies, a.limit, notAfter);
      SteadyGapFree(steady(a.place), indexes(a.place), replies, a.after, a.limit, notAfter, m);
      ghost var b0 := books;
      ok, left := TakePage(a.place, a.after, a.limit, m, faulty, quiet);
      if ok {
        PageIsTakenIn(env, a, notAfter, books, m);
      }
      if ok && !m.more && ShortAt(steady, env, indexes, a) {
        if a.after.Some? {
          KeepsThrough(steady, b0, books, a.place, a.after.value);
        }
        WholePlaceSettled(steady, books, a.place, a.after, a.limit, notAfter, indexes(a.place), replies, m);
      }
    }

    /** Reads one listed version. `failed`: the store refused a write; `closing`: the service is closing. */
    method ReadVersion(bucket: nat, scan: Scan, v: string, env: Readers, faulty: bool, quiet: bool)
      returns (failed: bool, closing: bool, found: Scanned)
      requires Sound()
      modifies this`books, this`log, this`past, this`reflected
      ensures Sound() && StepKeeps(quiet) && DaysKept(old(books), books, quiet)
      ensures ListedOnly(env, bucket, scan, [v], old(books), books) && (quiet ==> SameRows(old(books), books))
      ensures found == env.scanned(bucket, scan, v) && old(reflected) <= reflected
      ensures !failed && !closing && TakenUp(scan, found) ==> (bucket, scan, v) in reflected
      ensures ReflectedOnly(env, bucket, scan, [v], old(reflected), reflected)
      ensures !failed && !closing && found.Retried? ==> Settled(books, Some(found.target))
      ensures !faulty ==> !failed && !closing
    {
      failed, closing, found := false, false, env.scanned(bucket, scan, v);
      var stopped: bool := *;
      if faulty && stopped { closing := true; return; }
      if found.Unreadable? || (found.Pending? && MayWait(scan)) { return; }
      if found.Retried? {
        stopped := *;
        if faulty && stopped { failed := true; return; }
        ScheduleScanned(found.target, quiet);
      }
      reflected := reflected + {(bucket, scan, v)};
    }

    /** The same in the course of a listing that began with the books `b0`. */
    method ReadListed(bucket: nat, scan: Scan, page: seq<string>, i: nat, env: Readers, faulty: bool, quiet: bool,
                      ghost b0: Books)
      returns (failed: bool, closing: bool, found: Scanned)
      requires Sound() && i < |page| && Keeps(b0, books) && DaysKept(b0, books, quiet)
      requires ListedOnly(env, bucket, scan, page, b0, books) && (quiet ==> SameRows(b0, books))
      modifies this`books, this`log, this`past, this`reflected
      ensures Sound() && StepKeeps(quiet) && Keeps(b0, books) && DaysKept(b0, books, quiet)
      ensures ListedOnly(env, bucket, scan, page, b0, books) && (quiet ==> SameRows(b0, books))
      ensures found == env.scanned(bucket, scan, page[i]) && old(reflected) <= reflected
      ensures ReflectedOnly(env, bucket, scan, page, old(reflected), reflected)
      ensures !failed && !closing && TakenUp(scan, found) ==> (bucket, scan, page[i]) in reflected
      ensures !faulty ==> !failed && !closing
    {
      ghost var b1 := books;
      failed, closing, found := ReadVersion(bucket, scan, page[i], env, faulty, quiet);
      OneMoreVersion(env, bucket, scan, page, i, b0, b1, books);
    }

    /** The i-th version of a listing: one that is already reflected is kept, another is reflected while
        the budget lasts. */
    method ScanOne(bucket: nat, scan: Scan, page: seq<string>, i: nat, before: set<string>, env: Readers,
                   faulty: bool, quiet: bool, more: bool, complete: bool, kept: set<string>, left: nat, ghost b0: Books)
      returns (failed: bool, closing: bool, more': bool, complete': bool, kept': set<string>, left': nat)
      requires Sound() && i < |page| && Keeps(b0, books) && DaysKept(b0, books, quiet)
      requires ListedOnly(env, bucket, scan, page, b0, books) && (quiet ==> SameRows(b0, books))
      modifies this`books, this`log, this`past, this`reflected
      ensures Sound() && StepKeeps(quiet) && Keeps(b0, books) && DaysKept(b0, books, quiet)
      ensures ListedOnly(env, bucket, scan, page, b0, books) && (quiet ==> SameRows(b0, books))
      ensures old(reflected) <= reflected && left' <= left
      ensures ReflectedOnly(env, bucket, scan, page, old(reflected), reflected)
      ensures kept <= kept' <= kept + {page[i]}
      ensures page[i] in kept' ==> page[i] in before + kept || (bucket, scan, page[i]) in reflected
      ensures !failed && !closing ==>
                OneMore(scan, env.scanned(bucket, scan, page[i]), page[i], before, more, complete, kept, left,
                        more', complete', kept', left')
      ensures !faulty ==> !failed && !closing
    {
      failed, closing, more', complete', kept', left' := false, false, more, complete, kept, left;
      if page[i] in before {
        kept' := kept + {page[i]};
      } else if left == 0 {
        more' := true;
      } else {
        var found;
        failed, closing, found := ReadListed(bucket, scan, page, i, env, faulty, quiet, b0);
        if failed || closing { return; }
        if found.Unreadable? {
          complete', left' := false, left - 1;
        } else if !(found.Pending? && MayWait(scan)) {
          kept', left' := kept + {page[i]}, left - 1;
        }
      }
    }

    /** One listing, version by version. */
    method ScanPage(bucket: nat, scan: Scan, page: seq<string>, before: set<string>, env: Readers,
                    budget: nat, faulty: bool, quiet: bool)
      returns (failed: bool, closing: bool, more: bool, complete: bool, kept: set<string>, left: nat)
      requires Sound() && forall v | v in before :: (bucket, scan, v) in reflected
      modifies this`books, this`log, this`past, this`reflected
      ensures Sound() && StepKeeps(quiet) && DaysKept(old(books), books, quiet)
      ensures ListedOnly(env, bucket, scan, page, old(books), books) && (quiet ==> SameRows(old(books), books))
      ensures left <= budget && old(reflected) <= reflected
      ensures ReflectedOnly(env, bucket, scan, page, old(reflected), reflected)
      ensures forall v | v in before + kept :: (bucket, scan, v) in reflected
      ensures !failed && !closing ==>
                PageScanned(env, bucket, scan, page, before, |page|, budget, more, complete, kept, left)
      ensures !faulty ==> !failed && !closing
      ensures page == [] ==> !failed && !closing && books == old(books)
    {
      failed, closing, more, complete, kept, left := false, false, false, true, {}, budget;
      ghost var b0 := books;
      for i := 0 to |page|
        invariant Sound() && StepKeeps(quiet) && DaysKept(b0, books, quiet)
        invariant ListedOnly(env, bucket, scan, page, b0, books) && (quiet ==> SameRows(b0, books))
        invariant !failed && !closing && (i == 0 ==> books == b0)
        invariant left <= budget && old(reflected) <= reflected
        invariant ReflectedOnly(env, bucket, scan, page, old(reflected), reflected)
        invariant forall v | v in before + kept :: (bucket, scan, v) in reflected
        invariant PageScanned(env, bucket, scan, page, before, i, budget, more, complete, kept, left)
      {
        ghost var more0, complete0, kept0, left0 := more, complete, kept, left;
        failed, closing, more, complete, kept, left :=
          ScanOne(bucket, scan, page, i, before, env, faulty, quiet, more, complete, kept, left, b0);
        if failed || closing { return; }
        OneVersion(env, bucket, scan, page, before, i, budget, more0, complete0, kept0, left0,
                   more, complete, kept, left);
      }
    }

    method ScheduleScanned(t: Target, quiet: bool)
      requires Sound()
      modifies this`books, this`log, this`past
      ensures Sound() && StepKeeps(quiet) && DaysKept(old(books), books, quiet) && SettlesOnly(old(books), books, {t})
      ensures quiet ==> books == Fail(old(books), t, outcomes) && SameRows(old(books), books)
      ensures Settled(books, Some(t))
    {
      ghost var b0 := books;
      Await(quiet);
      FailKeeps(books, t, outcomes);
      KeepsTransitive(b0, books, Fail(books, t, outcomes));
      FewerCursors(steady, books, Fail(books, t, outcomes));
      Change(KeyFailed(t));
    }

    /** The listing of one kind, against what was seen of it before. */
    method ScanSlot(bucket: nat, scan: Scan, page: seq<string>, env: Readers, budget: nat, faulty: bool, quiet: bool)
      returns (failed: bool, closing: bool, more: bool, complete: bool, left: nat)
      requires Sound()
      modifies this`books, this`log, this`past, this`seen, this`reflected
      ensures Sound() && StepKeeps(quiet) && DaysKept(old(books), books, quiet)
      ensures ListedOnly(env, bucket, scan, page, old(books), books) && (quiet ==> SameRows(old(books), books))
      ensures left <= budget && old(reflected) <= reflected
      ensures ReflectedOnly(env, bucket, scan, page, old(reflected), reflected)
      ensures !failed && !closing && !more && complete ==> ScanDone(bucket, scan, Some(page), reflected)
      ensures !failed && !closing && !more ==> PageGone(env, bucket, scan, page, reflected)
      ensures !faulty ==> !failed && !closing
      ensures page == [] ==> !failed && !closing && !more && complete && books == old(books)
      // What is seen of this kind afterwards; when the scan broke off, nothing is.
      ensures !failed && !closing ==>
                var slot := (bucket, scan);
                && slot in seen
                && PageScanned(env, bucket, scan, page, if slot in old(seen) then old(seen)[slot] else {}, |page|,
                               budget, more, complete, seen[slot], left)
      ensures failed || closing ==> (bucket, scan) !in seen
      ensures forall slot | slot != (bucket, scan) ::
                (slot in seen <==> slot in old(seen)) && (slot in seen ==> seen[slot] == old(seen)[slot])
    {
      var slot := (bucket, scan);
      var before := if slot in seen then seen[slot] else {};
      assert forall v | v in before :: (slot.0, slot.1, v) in reflected;
      seen := seen - {slot};
      var kept;
      failed, closing, more, complete, kept, left := ScanPage(bucket, scan, page, before, env, budget, faulty, quiet);
      if !failed && !closing {
        PageIsGone(env, bucket, scan, page, before, budget, more, complete, kept, left, reflected);
        seen := seen[slot := kept];
      }
    }

    /** Reads the keys of a day and reflects the versions not seen before. */
    method ScanKeys(bucket: nat, scans: seq<Scan>, env: Readers, budget: nat, faulty: bool, quiet: bool)
      returns (failed: bool, more: bool, complete: bool, left: nat)
      requires Sound()
      modifies this`books, this`log, this`past, this`seen, this`reflected
      ensures Sound() && StepKeeps(quiet) && DaysKept(old(books), books, quiet)
      ensures ScannedOnly(env, bucket, scans, old(books), books) && (quiet ==> SameRows(old(books), books))
      ensures left <= budget && old(reflected) <= reflected
      ensures !failed && !more && complete ==> AllScanned(env, bucket, scans, |scans|, reflected)
      ensures !failed && !more ==> ScansGone(env, bucket, scans, |scans|, reflected)
      ensures !failed && complete ==> forall i | 0 <= i < |scans| :: env.scan(bucket, scans[i]).Some?
      ensures !faulty && NoKeys(env, bucket) ==> !more
      ensures !faulty ==> !failed
      ensures !faulty && quiet && NothingListed(env, bucket, scans) ==> !more && complete && books == old(books)
    {
      failed, more, complete, left := false, false, true, budget;
      ghost var b0 := books;
      Await(quiet);
      for i := 0 to |scans|
        invariant Sound() && StepKeeps(quiet) && DaysKept(b0, books, quiet)
        invariant ScannedOnly(env, bucket, scans, b0, books) && (quiet ==> SameRows(b0, books))
        invariant left <= budget && old(reflected) <= reflected
        invariant !more && complete ==> AllScanned(env, bucket, scans, i, reflected)
        invariant !more ==> ScansGone(env, bucket, scans, i, reflected)
        invariant complete ==> forall j | 0 <= j < i :: env.scan(bucket, scans[j]).Some?
        invariant !faulty && NoKeys(env, bucket) ==> !more
        invariant !faulty && quiet && NothingListed(env, bucket, scans) ==> !more && complete && books == b0
      {
        ghost var r1 := reflected;
        var closing, pageMore, pageComplete;
        failed, closing, pageMore, pageComplete, left := ScanKind(bucket, scans, i, env, left, faulty, quiet, b0);
        if !more {
          MoreGone(env, bucket, scans, i, r1, reflected);
        }
        if failed { return; }
        if closing {
          more, complete := true, false;
          return;
        }
        more, complete := more || pageMore, complete && pageComplete;
      }
    }

    /** The i-th kind, if its listing was answered. */
    method ScanKind(bucket: nat, scans: seq<Scan>, i: nat, env: Readers, budget: nat, faulty: bool, quiet: bool,
                    ghost b0: Books)
      returns (failed: bool, closing: bool, more: bool, complete: bool, left: nat)
      requires Sound() && i < |scans| && Keeps(b0, books) && DaysKept(b0, books, quiet)
      requires ScannedOnly(env, bucket, scans, b0, books) && (quiet ==> SameRows(b0, books))
      modifies this`books, this`log, this`past, this`seen, this`reflected
      ensures Sound() && StepKeeps(quiet) && Keeps(b0, books) && DaysKept(b0, books, quiet)
      ensures ScannedOnly(env, bucket, scans, b0, books) && (quiet ==> SameRows(b0, books))
      ensures left <= budget && old(reflected) <= reflected
      ensures AllScanned(env, bucket, scans, i, old(reflected)) ==> AllScanned(env, bucket, scans, i, reflected)
      ensures !failed && !closing && !more && complete ==>
                ScanDone(bucket, scans[i], env.scan(bucket, scans[i]), reflected)
      ensures !failed && !closing && !more ==> Gone(env, bucket, scans[i], reflected)
      ensures !failed && !closing && complete ==> env.scan(bucket, scans[i]).Some?
      ensures !faulty && NoKeys(env, bucket) ==> !more
      ensures !faulty && env.scan(bucket, scans[i]) == Some([]) ==> !more && complete && books == old(books)
      ensures !faulty ==> !failed && !closing
    {
      failed, closing, more, complete, left := false, false, false, false, budget;
      var page := env.scan(bucket, scans[i]);
      if page.Some? {
        ghost var b1, r1 := books, reflected;
        failed, closing, more, complete, left := ScanSlot(bucket, scans[i], page.value, env, budget, faulty, quiet);
        OneMoreScan(env, bucket, scans, i, b0, b1, books, r1, reflected);
      }
    }

    /** What the step read as stored cursors is settled. */
    ghost predicate SnapshotSettled(snapshot: map<Place, Pos>)
      reads this
    {
      forall p | p in snapshot :: SettledThrough(steady, books, p, snapshot[p])
    }

    lemma CursorsSnapshot()
      requires Sound()
      ensures SnapshotSettled(books.store.cursors)
    {
      forall p | p in books.store.cursors ensures SettledThrough(steady, books, p, books.store.cursors[p]) {
        assert CursorSettled(steady, books, p);
      }
    }

    /** Reads the three indexes of a day. `stop`: the step returns here. */
    method ReadIndexes(bucket: nat, snapshot: map<Place, Pos>, budget: nat, notAfter: int,
                       env: Readers, ghost indexes: Place -> seq<seq<Entry>>, faulty: bool, quiet: bool)
      returns (stop: bool, more: bool, readToEnd: bool, left: nat, ghost asked: seq<Ask>)
      requires Sound() && SnapshotSettled(snapshot) && ReadersKeepContract(steady, env, indexes, notAfter)
      modifies this`books, this`log, this`past
      ensures Sound() && SnapshotSettled(snapshot) && StepKeeps(quiet) && DaysKept(old(books), books, quiet)
      ensures left <= budget && AreAsked(asked, bucket, snapshot, budget)
      ensures PointedOnly(env, asked, old(books), books)
      ensures Chained(env, asked, budget, notAfter) && (0 < budget ==> asked != [])
      ensures !faulty || !stop ==> AllTakenIn(env, asked, notAfter, books)
      ensures !stop ==> |asked| == 3 && DayRead(env, asked, books, bucket, notAfter, more, readToEnd, steady, indexes)
      // Without a fault, a day is left early exactly when earlier indexes have used up the budget.
      ensures stop && !faulty ==> |asked| < 3 && LeftAfter(env, asked, budget, notAfter) == 0
      ensures quiet && !faulty ==> OtherDays(old(books).store.cursors, books.store.cursors, bucket)
      ensures quiet && !faulty && books.store.topic ==> Followed(env, asked, notAfter, books.store.cursors)
      ensures stop ==> more
    {
      stop, more, readToEnd, left, asked := false, false, true, budget, [];
      ghost var b0 := books;
      Await(quiet);
      KeepsSnapshot(steady, b0, books, snapshot);
      for i := 0 to 3
        invariant Sound() && SnapshotSettled(snapshot) && StepKeeps(quiet) && DaysKept(b0, books, quiet)
        invariant |asked| == i && left <= budget && AreAsked(asked, bucket, snapshot, budget)
        invariant PointedOnly(env, asked, b0, books)
        invariant DayRead(env, asked, books, bucket, notAfter, more, readToEnd, steady, indexes)
        invariant AllTakenIn(env, asked, notAfter, books)
        invariant Chained(env, asked, budget, notAfter) && left == LeftAfter(env, asked, budget, notAfter)
        invariant quiet ==> OtherDays(b0.store.cursors, books.store.cursors, bucket)
        invariant quiet && books.store.topic ==> Followed(env, asked, notAfter, books.store.cursors)
      {
        if left == 0 {
          stop, more := true, true;
          return;
        }
        var ok;
        ok, more, readToEnd, left, asked :=
          ReadNext(i, bucket, snapshot, left, notAfter, env, indexes, faulty, quiet,
                   more, readToEnd, asked, b0, budget);
        if !ok {
          stop, more := true, true;
          return;
        }
      }
    }

    /** Reads the index after those asked so far. */
    method ReadNext(i: nat, bucket: nat, snapshot: map<Place, Pos>, limit: nat, notAfter: int,
                    env: Readers, ghost indexes: Place -> seq<seq<Entry>>, faulty: bool, quiet: bool,
                    had: bool, toEnd: bool, ghost before: seq<Ask>, ghost b0: Books, ghost budget: nat)
      returns (ok: bool, more: bool, readToEnd: bool, left: nat, ghost asked: seq<Ask>)
      requires Sound() && SnapshotSettled(snapshot) && ReadersKeepContract(steady, env, indexes, notAfter)
      requires i == |before| < 3 && 1 <= limit <= budget && AreAsked(before, bucket, snapshot, budget)
      requires Keeps(b0, books) && DaysKept(b0, books, quiet) && PointedOnly(env, before, b0, books)
      requires DayRead(env, before, books, bucket, notAfter, had, toEnd, steady, indexes)
      requires AllTakenIn(env, before, notAfter, books)
      requires Chained(env, before, budget, notAfter) && limit == LeftAfter(env, before, budget, notAfter)
      requires quiet && books.store.topic ==> Followed(env, before, notAfter, books.store.cursors)
      modifies this`books, this`log, this`past
      ensures Sound() && SnapshotSettled(snapshot) && StepKeeps(quiet) && DaysKept(old(books), books, quiet)
      ensures Keeps(b0, books) && DaysKept(b0, books, quiet)
      ensures |asked| == i + 1 && AreAsked(asked, bucket, snapshot, budget) && left <= limit
      ensures PointedOnly(env, asked, b0, books) && Chained(env, asked, budget, notAfter)
      ensures ok ==> left == LeftAfter(env, asked, budget, notAfter)
      ensures quiet && ok ==> OtherDays(old(books).store.cursors, books.store.cursors, bucket)
      ensures quiet && ok && books.store.topic ==> Followed(env, asked, notAfter, books.store.cursors)
      ensures ok ==> DayRead(env, asked, books, bucket, notAfter, more, readToEnd, steady, indexes)
      ensures ok ==> AllTakenIn(env, asked, notAfter, books)
      ensures !faulty ==> ok
    {
      var place := Place(IndexOrder()[i], bucket);
      var a := Ask(place, CursorIn(snapshot, place), limit);
      ghost var b1 := books;
      var m;
      ok, m, left := ReadIndex(a, notAfter, env, indexes, faulty, quiet);
      KeepsSnapshot(steady, b1, books, snapshot);
      MorePointed(env, before, a, b0, b1, books, notAfter, m);
      OneMoreAsked(before, a, bucket, snapshot, budget);
      OneMoreLeft(env, before, a, budget, notAfter, m);
      more, readToEnd := had || m.more, toEnd && m.answered && !m.more;
      if ok && quiet {
        OneMoreFollowed(env, before, a, notAfter, m, b1, outcomes);
      }
      if ok {
        OneMoreIndex(env, before, a, b1, books, bucket, notAfter, m, steady, indexes, had, toEnd);
        KeepsTakenIn(env, before, notAfter, b1, books);
        MoreTakenIn(env, before, [a], notAfter, books);
      }
      asked := before + [a];
      KeepsTransitive(b0, b1, books);
    }

    /** A day marked as read to its end: its pages reported nothing left, its key listings are
        done and, if no answer of a steady reader was full, all their entries are settled. */
    ghost predicate DayDone(bucket: nat, asked: seq<Ask>, env: Readers, indexes: Place -> seq<seq<Entry>>,
                            notAfter: int)
      reads this
    {
      && bucket in books.store.days && books.store.days[bucket]
      && |asked| == 3 && PagesRead(env, asked, notAfter)
      && (forall p | p in books.store.cursors :: p.bucket != bucket)
      && (ShortIn(steady, env, indexes, asked) ==> DaySettled(steady, books, bucket))
      && AllScanned(env, bucket, ScansOf(false), 2, reflected)
    }

    /** Reads one day. `stop`: the step returns here. `finished`: the day was marked as read to
        its end. */
    method ReadDay(bucket: nat, live: bool, snapshot: map<Place, Pos>, budget: nat, notAfter: int,
                   env: Readers, ghost indexes: Place -> seq<seq<Entry>>, faulty: bool, quiet: bool)
      returns (stop: bool, more: bool, finished: bool, left: nat, ghost asked: seq<Ask>)
      requires Sound() && SnapshotSettled(snapshot) && ReadersKeepContract(steady, env, indexes, notAfter)
      modifies this`books, this`log, this`past, this`seen, this`reflected
      ensures Sound() && SnapshotSettled(snapshot) && StepKeeps(quiet) && left <= budget
      ensures AreAsked(asked, bucket, snapshot, budget)
      ensures forall t | Settled(books, Some(t)) && !Settled(old(books), Some(t)) ::
                PointedAt(env, asked, t) || ScannedFor(env, bucket, ScansOf(live), t)
      ensures MarkedOnly(old(books), books, bucket, finished, quiet)
      ensures finished ==> !stop && !live && DayDone(bucket, asked, env, indexes, notAfter)
      ensures !more && !stop && ShortIn(steady, env, indexes, asked) ==> DaySettled(steady, books, bucket)
      ensures (stop || finished ==> more) && old(reflected) <= reflected
      ensures !more ==> DayGone(env, bucket, live, reflected)
      ensures !faulty && !stop && live && PagesQuiet(env, asked, notAfter) && NoKeys(env, bucket) ==> !more
      ensures Chained(env, asked, budget, notAfter) && (0 < budget ==> asked != []) && (!stop ==> |asked| == 3)
      ensures stop && !faulty ==> |asked| < 3 && LeftAfter(env, asked, budget, notAfter) == 0
      ensures !faulty ==> AllTakenIn(env, asked, notAfter, books)
      ensures quiet && !faulty ==> OtherDays(old(books).store.cursors, books.store.cursors, bucket)
      ensures quiet ==> SameKeys(old(books), books)
      ensures quiet && !faulty && live && books.store.topic ==> Followed(env, asked, notAfter, books.store.cursors)
      // Undisturbed and with nothing listed, a past day whose pages report nothing left is finished.
      ensures !faulty && quiet && !stop && !live && NothingListed(env, bucket, ScansOf(false)) ==>
                (bucket in old(books).store.days && PagesRead(env, asked, notAfter) ==> finished)
    {
      finished := false;
      var readToEnd;
      ghost var b0 := books;
      stop, more, readToEnd, left, asked :=
        ReadIndexes(bucket, snapshot, budget, notAfter, env, indexes, faulty, quiet);
      if stop { return; }
      ghost var b1 := books;
      var scannedMore;
      stop, scannedMore, finished, left :=
        ScanAndFinish(bucket, live, left, env, readToEnd, faulty, quiet);
      DayStays(env, steady, indexes, asked, bucket, notAfter, snapshot, b0, b1, books, more, readToEnd);
      more := more || scannedMore;
    }

    /** The key listings of a day, and its mark if all of it was read. */
    method ScanAndFinish(bucket: nat, live: bool, budget: nat, env: Readers, readToEnd: bool,
                         faulty: bool, quiet: bool)
      returns (stop: bool, more: bool, finished: bool, left: nat)
      requires Sound()
      modifies this`books, this`log, this`past, this`seen, this`reflected
      ensures Sound() && StepKeeps(quiet) && left <= budget
      ensures ScannedOnly(env, bucket, ScansOf(live), old(books), books)
      ensures quiet ==> OtherDays(old(books).store.cursors, books.store.cursors, bucket) && SameKeys(old(books), books)
      ensures quiet && live ==> books.store.cursors == old(books).store.cursors
      ensures MarkedOnly(old(books), books, bucket, finished, quiet)
      ensures finished ==>
                && !stop && !live && readToEnd && bucket in books.store.days && books.store.days[bucket]
                && (forall p | p in books.store.cursors :: p.bucket != bucket)
                && AllScanned(env, bucket, ScansOf(false), 2, reflected)
      ensures !faulty ==> !stop
      ensures old(reflected) <= reflected
      // Nothing is left to do exactly if all keys were gone through and there is no older day to go on with.
      ensures (stop || finished ==> more) && (!more ==> DayGone(env, bucket, live, reflected))
      ensures !faulty && live && NoKeys(env, bucket) ==> !more
      ensures !faulty && quiet && !live && NothingListed(env, bucket, ScansOf(false)) ==>
                (finished <==> bucket in old(books).store.days && readToEnd)
    {
      finished := false;
      ghost var b0 := books;
      var failed, complete;
      failed, more, complete, left := ScanKeys(bucket, ScansOf(live), env, budget, faulty, quiet);
      stop := failed;
      if failed {
        more := true;
        return;
      }
      if !more {
        ScansAreDay(env, bucket, live, reflected);
      }
      if !live && readToEnd && complete && !more {
        var stopped: bool := *;
        if faulty && stopped {
          stop, more := true, true;
          return;
        }
        ghost var b1 := books;
        Await(quiet);
        ghost var b2 := books;
        MarkFinished(bucket);
        KeepsTransitive(b1, b2, books);
        KeepsTransitive(b0, b1, books);
        finished, more := bucket in books.store.days, true;
      }
    }

    method MarkFinished(bucket: nat)
      requires Sound()
      modifies this`books, this`log, this`past
      ensures Sound() && StepKeeps(true) && books == old(books).(store := FinishDay(old(books).store, bucket))
      ensures SettlesOnly(old(books), books, {})
    {
      ghost var b0 := books;
      Change(DayFinished(bucket));
      FewerCursors(steady, b0, books);
    }

    /** The days of a step in order; only the last may lie before yesterday. */
    method ReadDays(days: seq<nat>, previous: nat, protectedDays: set<nat>, snapshot: map<Place, Pos>, budget: nat,
                    notAfter: int, env: Readers, ghost indexes: Place -> seq<seq<Entry>>, faulty: bool, quiet: bool)
      returns (more: bool, finished: Option<nat>, ghost visited: set<nat>, ghost asked: seq<Ask>, ghost last: seq<Ask>)
      requires Sound() && SnapshotSettled(snapshot) && forall i | 0 <= i < |days| - 1 :: days[i] >= previous
      requires Rising(days, LiveCount(days, previous))
      requires ReadersKeepContract(steady, env, indexes, notAfter)
      modifies this`books, this`log, this`past, this`seen, this`reflected
      ensures Sound() && StepKeeps(quiet)
      ensures forall d | d in books.store.days && books.store.days[d] && finished != Some(d) ::
                d in old(books).store.days && old(books).store.days[d]
      ensures finished.Some? ==>
                && finished.value in days && finished.value < previous
                && DayDone(finished.value, last, env, indexes, notAfter)
      ensures !more ==> AllVisited(env, days, LiveCount(days, previous), visited)
      ensures 0 < budget && days != [] && days[0] >= previous && HasReaders(env, days[0]) ==>
                asked != [] && asked[0] == FirstAsk(days[0], snapshot, budget)
      ensures DaysAsked(env, asked, visited, previous, snapshot, notAfter, old(books), books, faulty, quiet)
      ensures visited <= DaySet(days) && (quiet ==> SameKeys(old(books), books))
      ensures finished.Some? ==> more
      ensures Reports(more, env, steady, indexes, asked, visited, previous, notAfter, books, reflected, faulty)
      ensures !faulty && quiet && OnlyLast(env, days, previous, protectedDays)
              && days[|days| - 1] in old(books).store.days ==>
                DayAlone(env, days[|days| - 1], asked, snapshot, budget, notAfter, finished)
    {
      ghost var b0 := books;
      var n := LiveCount(days, previous);
      var stop, left;
      stop, more, left, visited, asked :=
        ReadLiveDays(days, n, previous, snapshot, budget, notAfter, env, indexes, faulty, quiet);
      more, finished, visited, asked, last :=
        VisitPast(days, n, stop, previous, protectedDays, snapshot, left, notAfter, env, indexes, faulty, quiet, more,
                  b0, asked, visited);
    }

    /** Reads the past day of a step, unless the step is over, the day is not protected or nobody has it. */
    method VisitPast(days: seq<nat>, n: nat, stop: bool, previous: nat, protectedDays: set<nat>,
                     snapshot: map<Place, Pos>, left: nat, notAfter: int, env: Readers,
                     ghost indexes: Place -> seq<seq<Entry>>, faulty: bool, quiet: bool, had: bool, ghost b0: Books,
                     ghost before: seq<Ask>, ghost live: set<nat>)
      returns (more: bool, finished: Option<nat>, ghost visited: set<nat>, ghost asked: seq<Ask>, ghost last: seq<Ask>)
      requires Sound() && SnapshotSettled(snapshot) && ReadersKeepContract(steady, env, indexes, notAfter)
      requires Keeps(b0, books) && (n < |days| ==> days[n] !in live && days[n] < previous)
      requires DaysAsked(env, before, live, previous, snapshot, notAfter, b0, books, faulty, quiet)
      requires Reports(had, env, steady, indexes, before, live, previous, notAfter, books, reflected, faulty)
      modifies this`books, this`log, this`past, this`seen, this`reflected
      ensures Sound() && StepKeeps(quiet) && Keeps(b0, books) && before <= asked && (had ==> more)
      ensures live <= visited && (visited == live || (n < |days| && visited == live + {days[n]}))
      ensures DaysAsked(env, asked, visited, previous, snapshot, notAfter, b0, books, faulty, quiet)
      ensures quiet ==> SameKeys(old(books), books)
      ensures Reports(more, env, steady, indexes, asked, visited, previous, notAfter, books, reflected, faulty)
      ensures forall d | d in books.store.days && books.store.days[d] && finished != Some(d) ::
                d in old(books).store.days && old(books).store.days[d]
      ensures finished.Some? ==>
                && n < |days| && finished.value == days[n] && more
                && DayDone(finished.value, last, env, indexes, notAfter)
      ensures !faulty && quiet && !stop && before == [] && n < |days| && days[n] in old(books).store.days
              && days[n] in protectedDays && HasReaders(env, days[n]) && NothingListed(env, days[n], ScansOf(false)) ==>
                DayAlone(env, days[n], asked, snapshot, left, notAfter, finished)
    {
      more, finished, visited, asked, last := had, None, live, before, [];
      if !stop && n < |days| && days[n] in protectedDays && env.read(Place(Timeline, days[n]), None, left) != [] {
        var over, done, rest;
        over, more, done, rest, asked, last :=
          NextDay(days[n], previous, snapshot, left, notAfter, env, indexes, faulty, quiet, had, b0, before, live);
        assert before == [] ==> asked == last;
        visited := live + {days[n]};
        finished := if done then Some(days[n]) else None;
      }
    }

    /** The days of the loop that are read live: the first `n`. */
    method ReadLiveDays(days: seq<nat>, n: nat, previous: nat, snapshot: map<Place, Pos>, budget: nat, notAfter: int,
                        env: Readers, ghost indexes: Place -> seq<seq<Entry>>, faulty: bool, quiet: bool)
      returns (stop: bool, more: bool, left: nat, ghost visited: set<nat>, ghost asked: seq<Ask>)
      requires Sound() && SnapshotSettled(snapshot) && ReadersKeepContract(steady, env, indexes, notAfter)
      requires n == LiveCount(days, previous) && (forall i | 0 <= i < |days| - 1 :: days[i] >= previous)
      requires Rising(days, n)
      modifies this`books, this`log, this`past, this`seen, this`reflected
      ensures Sound() && SnapshotSettled(snapshot) && StepKeeps(quiet) && SameDays(old(books), books)
      ensures (stop ==> more) && left <= budget && (quiet ==> SameKeys(old(books), books))
      ensures !stop ==> AllVisited(env, days, n, visited)
      ensures 0 < budget && 0 < n && HasReaders(env, days[0]) ==>
                asked != [] && asked[0] == FirstAsk(days[0], snapshot, budget)
      ensures DaysAsked(env, asked, visited, previous, snapshot, notAfter, old(books), books, faulty, quiet)
      ensures visited <= DaySet(days) && forall d | d in visited :: d >= previous
      ensures Reports(more, env, steady, indexes, asked, visited, previous, notAfter, books, reflected, faulty)
      ensures (forall i | 0 <= i < n :: NoReaders(env, days[i])) ==>
                !stop && left == budget && asked == [] && books == old(books)
    {
      stop, more, left, visited, asked := false, false, budget, {}, [];
      ghost var b0 := books;
      var i := 0;
      while i < n && !stop
        invariant Sound() && SnapshotSettled(snapshot) && StepKeeps(quiet) && SameDays(b0, books)
        invariant i <= n && (stop ==> more && 0 < i) && left <= budget && (quiet ==> SameKeys(b0, books))
        invariant LiveSoFar(days, i, n, previous, snapshot, budget, notAfter, env, indexes, b0, faulty, quiet,
                            more, left, visited, asked)
        invariant (forall k | 0 <= k < n :: NoReaders(env, days[k])) ==>
                    !stop && left == budget && asked == [] && books == b0
      {
        stop, more, left, visited, asked :=
          VisitLive(days, i, n, previous, snapshot, budget, left, notAfter, env, indexes, faulty, quiet,
                    more, b0, visited, asked);
        i := i + 1;
      }
    }

    /** What has come of the first `i` of the live days. */
    ghost predicate LiveSoFar(days: seq<nat>, i: nat, n: nat, previous: nat, snapshot: map<Place, Pos>, budget: nat,
                              notAfter: int, env: Readers, indexes: Place -> seq<seq<Entry>>, b0: Books, faulty: bool,
                              quiet: bool, more: bool, left: nat, visited: set<nat>, asked: seq<Ask>)
      requires i <= n <= |days|
      reads this
    {
      && AllVisited(env, days, i, visited) && (i == 0 ==> left == budget && asked == [])
      && (0 < budget && 0 < i && HasReaders(env, days[0]) ==>
            asked != [] && asked[0] == FirstAsk(days[0], snapshot, budget))
      && DaysAsked(env, asked, visited, previous, snapshot, notAfter, b0, books, faulty, quiet)
      && visited <= DaySet(days) && (forall d | d in visited :: d >= previous && (i < n ==> d < days[i]))
      && Reports(more, env, steady, indexes, asked, visited, previous, notAfter, books, reflected, faulty)
    }

    /** A day that nobody has is left out. */
    lemma LeftOut(days: seq<nat>, i: nat, n: nat, previous: nat, snapshot: map<Place, Pos>, budget: nat, left: nat,
                  notAfter: int, env: Readers, indexes: Place -> seq<seq<Entry>>, faulty: bool, quiet: bool,
                  more: bool, b0: Books, visited: set<nat>, asked: seq<Ask>)
      requires i < n <= |days| && Rising(days, n) && !HasReaders(env, days[i])
      requires LiveSoFar(days, i, n, previous, snapshot, budget, notAfter, env, indexes, b0, faulty, quiet,
                         more, left, visited, asked)
      ensures LiveSoFar(days, i + 1, n, previous, snapshot, budget, notAfter, env, indexes, b0, faulty, quiet,
                        more, left, visited, asked)
    {
    }

    /** The i-th of the live days: read, unless nobody has it. */
    method VisitLive(days: seq<nat>, i: nat, n: nat, previous: nat, snapshot: map<Place, Pos>, ghost budget: nat,
                     had: nat, notAfter: int, env: Readers, ghost indexes: Place -> seq<seq<Entry>>, faulty: bool,
                     quiet: bool, hadMore: bool, ghost b0: Books, ghost before: set<nat>, ghost askedBefore: seq<Ask>)
      returns (stop: bool, more: bool, left: nat, ghost visited: set<nat>, ghost asked: seq<Ask>)
      requires Sound() && SnapshotSettled(snapshot) && ReadersKeepContract(steady, env, indexes, notAfter)
      requires i < n <= |days| && days[i] >= previous && Rising(days, n) && Keeps(b0, books) && had <= budget
      requires LiveSoFar(days, i, n, previous, snapshot, budget, notAfter, env, indexes, b0, faulty, quiet,
                         hadMore, had, before, askedBefore)
      modifies this`books, this`log, this`past, this`seen, this`reflected
      ensures Sound() && SnapshotSettled(snapshot) && StepKeeps(quiet) && Keeps(b0, books)
      ensures SameDays(old(books), books) && (quiet ==> SameKeys(old(books), books))
      ensures (stop ==> more) && left <= had
      ensures LiveSoFar(days, i + 1, n, previous, snapshot, budget, notAfter, env, indexes, b0, faulty, quiet,
                        more, left, visited, asked)
      ensures NoReaders(env, days[i]) ==> !stop && left == had && asked == askedBefore && books == old(books)
    {
      stop, more, left, visited, asked := false, hadMore, had, before, askedBefore;
      if env.read(Place(Timeline, days[i]), None, had) == [] {
        LeftOut(days, i, n, previous, snapshot, budget, had, notAfter, env, indexes, faulty, quiet, hadMore, b0,
                before, askedBefore);
      } else {
        stop, more, left, visited, asked :=
          ReadLive(days, i, n, previous, snapshot, budget, had, notAfter, env, indexes, faulty, quiet, hadMore, b0,
                   before, askedBefore);
      }
    }

    method ReadLive(days: seq<nat>, i: nat, n: nat, previous: nat, snapshot: map<Place, Pos>, ghost budget: nat,
                    had: nat, notAfter: int, env: Readers, ghost indexes: Place -> seq<seq<Entry>>, faulty: bool,
                    quiet: bool, hadMore: bool, ghost b0: Books, ghost before: set<nat>, ghost askedBefore: seq<Ask>)
      returns (stop: bool, more: bool, left: nat, ghost visited: set<nat>, ghost asked: seq<Ask>)
      requires Sound() && SnapshotSettled(snapshot) && ReadersKeepContract(steady, env, indexes, notAfter)
      requires i < n <= |days| && days[i] >= previous && Rising(days, n) && Keeps(b0, books) && had <= budget
      requires LiveSoFar(days, i, n, previous, snapshot, budget, notAfter, env, indexes, b0, faulty, quiet,
                         hadMore, had, before, askedBefore)
      modifies this`books, this`log, this`past, this`seen, this`reflected
      ensures Sound() && SnapshotSettled(snapshot) && StepKeeps(quiet) && Keeps(b0, books)
      ensures SameDays(old(books), books) && (quiet ==> SameKeys(old(books), books))
      ensures (stop ==> more) && left <= had
      ensures LiveSoFar(days, i + 1, n, previous, snapshot, budget, notAfter, env, indexes, b0, faulty, quiet,
                        more, left, visited, asked)
    {
      var done;
      ghost var last;
      stop, more, done, left, asked, last :=
        NextDay(days[i], previous, snapshot, had, notAfter, env, indexes, faulty, quiet, hadMore, b0, askedBefore,
                before);
      visited := before + {days[i]};
    }

    /** Reads the day after those visited so far. */
    method NextDay(bucket: nat, previous: nat, snapshot: map<Place, Pos>, budget: nat, notAfter: int,
                   env: Readers, ghost indexes: Place -> seq<seq<Entry>>, faulty: bool, quiet: bool,
                   had: bool, ghost b0: Books, ghost before: seq<Ask>, ghost visited: set<nat>)
      returns (stop: bool, more: bool, finished: bool, left: nat, ghost asked: seq<Ask>, ghost last: seq<Ask>)
      requires Sound() && SnapshotSettled(snapshot) && ReadersKeepContract(steady, env, indexes, notAfter)
      requires Keeps(b0, books) && bucket !in visited
      requires DaysAsked(env, before, visited, previous, snapshot, notAfter, b0, books, faulty, quiet)
      requires Reports(had, env, steady, indexes, before, visited, previous, notAfter, books, reflected, faulty)
      modifies this`books, this`log, this`past, this`seen, this`reflected
      ensures Sound() && SnapshotSettled(snapshot) && StepKeeps(quiet) && Keeps(b0, books) && left <= budget
      ensures asked == before + last && (0 < budget ==> last != [] && last[0] == FirstAsk(bucket, snapshot, budget))
      ensures DaysAsked(env, asked, visited + {bucket}, previous, snapshot, notAfter, b0, books, faulty, quiet)
      ensures (stop || had ==> more) && (quiet ==> SameKeys(old(books), books))
      ensures finished ==> more
      ensures Reports(more, env, steady, indexes, asked, visited + {bucket}, previous, notAfter, books, reflected,
                      faulty)
      ensures MarkedOnly(old(books), books, bucket, finished, quiet)
      ensures finished ==> !stop && bucket < previous && DayDone(bucket, last, env, indexes, notAfter)
      ensures !faulty && quiet && bucket < previous && bucket in old(books).store.days
              && NothingListed(env, bucket, ScansOf(false)) ==>
                DayAlone(env, bucket, last, snapshot, budget, notAfter, if finished then Some(bucket) else None)
    {
      ghost var b1, r1 := books, reflected;
      stop, more, finished, left, last :=
        ReadDay(bucket, bucket >= previous, snapshot, budget, notAfter, env, indexes, faulty, quiet);
      KeepsTransitive(b0, b1, books);
      asked := before + last;
      OneMoreDayAsked(env, before, last, visited, bucket, previous, snapshot, budget, notAfter, b0, b1, books,
                      faulty, quiet);
      FirstIsAsked(env, last, bucket, snapshot, budget, notAfter);
      OneMoreDay(env, steady, indexes, b1, books, before, last, visited, bucket, previous, notAfter, had, more,
                 r1, reflected, faulty);
      more := had || more;
    }

    method OpenRows(created: set<nat>)
      requires Sound()
      modifies this`books, this`log, this`past
      ensures Sound() && StepKeeps(true) && books == old(books).(store := OpenDays(old(books).store, created))
      ensures SettlesOnly(old(books), books, {})
    {
      ghost var b0 := books;
      Change(DaysOpened(created));
      FewerCursors(steady, b0, books);
    }

    /** Rows for the days of the period, then no cursors for the days before it: two writes. */
    method OpenAndPrune(created: set<nat>, cutoff: nat, faulty: bool, quiet: bool) returns (ok: bool)
      requires Sound()
      modifies this`books, this`log, this`past
      ensures Sound() && StepKeeps(quiet)
      ensures forall d | d in books.store.days && books.store.days[d] ::
                d in old(books).store.days && old(books).store.days[d]
      ensures ok ==> forall p | p in books.store.cursors :: p.bucket >= cutoff
      ensures SettlesOnly(old(books), books, {})
      ensures quiet && ok ==> books == old(books).(store := Opened(old(books).store, created, cutoff))
      ensures !faulty ==> ok
    {
      ghost var b0 := books;
      var stopped: bool := *;
      if faulty && stopped { return false; }
      OpenRows(created);
      ghost var b1 := books;
      Await(quiet);
      KeepsTransitive(b0, b1, books);
      stopped := *;
      if faulty && stopped { return false; }
      ghost var b2 := books;
      Change(CursorsPruned(cutoff));
      FewerCursors(steady, b2, books);
      KeepsTransitive(b0, b2, books);
      return true;
    }

    /** The retries that have come due, each at the cost of one unit of the budget. */
    method TakeRetries(due: seq<Target>, budget: nat, faulty: bool, quiet: bool) returns (stop: bool, left: nat)
      requires Sound() && |due| <= budget
      modifies this`books, this`log, this`past
      ensures Sound() && StepKeeps(quiet) && DaysKept(old(books), books, quiet)
      ensures left <= budget && (!stop ==> left == budget - |due|)
      ensures !stop ==> AllSettled(books, due, |due|)
      ensures quiet && !stop ==> books == RetryAll(old(books), due, outcomes)
      ensures DueOnly(due, old(books), books) && (quiet ==> SameRows(old(books), books))
      ensures !faulty ==> !stop
    {
      stop, left := false, budget;
      ghost var b0 := books;
      for i := 0 to |due|
        invariant Sound() && StepKeeps(quiet) && DaysKept(b0, books, quiet) && left == budget - i
        invariant AllSettled(books, due, i) && DueOnly(due, b0, books) && (quiet ==> SameRows(b0, books))
        invariant quiet ==> books == RetryAll(b0, due[..i], outcomes)
      {
        ghost var b1 := books;
        left := left - 1;
        var ok := TakeRetry(due[i], faulty, quiet);
        KeepsTransitive(b0, b1, books);
        if !ok { return true, left; }
        OneMoreRetry(b0, b1, books, due, i, outcomes);
      }
      assert due[..|due|] == due;
    }

    method TakeRetry(t: Target, faulty: bool, quiet: bool) returns (ok: bool)
      requires Sound()
      modifies this`books, this`log, this`past
      ensures Sound() && StepKeeps(quiet) && DaysKept(old(books), books, quiet)
      ensures ok ==> Settled(books, Some(t))
      ensures quiet && ok ==> books == Retry(old(books), t, outcomes)
      ensures SettlesOnly(old(books), books, {t}) && (quiet ==> SameRows(old(books), books))
      ensures !faulty ==> ok
    {
      ghost var b0 := books;
      Await(quiet);
      ghost var b1 := books;
      var stopped: bool := *;
      if faulty && stopped { return false; }
      RetryKeeps(books, t, outcomes);
      Change(RetryTaken(t));
      FewerCursors(steady, b1, books);
      KeepsTransitive(b0, b1, books);
      return true;
    }

    /** One step of the topic. `more`: something is left to read. `finished`: a past day that this
        step marked as read to its end, after the questions `last`. Every early return stands for a
        shutdown, a refused write or a crash. */
    method Step(current: nat, retentionDays: nat, created: set<nat>, due: seq<Target>,
                protectedDays: set<nat>, notAfter: int, env: Readers,
                ghost indexes: Place -> seq<seq<Entry>>, faulty: bool, quiet: bool)
      returns (more: bool, finished: Option<nat>, ghost visited: set<nat>, ghost asked: seq<Ask>, ghost last: seq<Ask>)
      requires Sound() && |due| <= STEP_ENTRIES
      requires ReadersKeepContract(steady, env, indexes, notAfter)
      modifies this`books, this`log, this`past, this`seen, this`reflected
      ensures Sound() && StepKeeps(quiet)
      ensures forall d | d in books.store.days && books.store.days[d] && finished != Some(d) ::
                d in old(books).store.days && old(books).store.days[d]
      ensures finished.Some? ==>
                && Cutoff(current, retentionDays) <= finished.value < current
                && DayDone(finished.value, last, env, indexes, notAfter)
      // Without a fault the due retries and all that was asked for are taken in, and while budget is
      // left yesterday, or else today, is asked first, with all of it.
      ensures !faulty ==> AllSettled(books, due, |due|) && AllTakenIn(env, asked, notAfter, books)
      ensures !faulty ==> NamedTakenIn(env, asked, notAfter, books)
      ensures !faulty && |due| < STEP_ENTRIES ==>
                var first := FirstDay(current, Cutoff(current, retentionDays));
                HasReaders(env, first) ==>
                  && asked != [] && asked[0].place == Place(Timeline, first)
                  && asked[0].limit == STEP_ENTRIES - |due|
      ensures quiet && !faulty ==>
                var s := Opened(old(books).store, created, Cutoff(current, retentionDays));
                AskedFrom(asked, s.cursors) && books.store.days.Keys == s.days.Keys
      // A step that reports nothing left has gone through all keys listed for the days it read and, if it met no
      // full answer of a steady reader, has settled them: today and yesterday among them if they have readers and
      // lie in the period. It does so whenever it read no other day, their pages left nothing and no key is
      // listed, and not when it has finished a day.
      ensures Reports(more, env, steady, indexes, asked, visited, Yesterday(current), notAfter, books, reflected,
                      faulty)
      ensures finished.Some? ==> more
      ensures !more ==>
                forall d: nat | current <= d + 1 && Cutoff(current, retentionDays) <= d <= current
                                && HasReaders(env, d) ::
                  d in visited
      // Undisturbed and without a fault, the cursors of today and yesterday have moved past all that.
      ensures quiet && !faulty && books.store.topic ==>
                FollowedFrom(env, asked, notAfter, books.store.cursors, Yesterday(current))
      // Undisturbed, a step settles nothing that the answers hold at or behind a stored cursor.
      ensures quiet ==>
                forall t | Settled(books, Some(t)) && !Settled(old(books), Some(t)) ::
                  t in due || ListedFor(env, t) || PointedPast(env, asked, old(books).store, t)
      // Undisturbed and without a fault, with readers for the day to go back to alone, that day is
      // read with the whole budget.
      ensures !faulty && quiet ==>
                OnlyBackfill(old(books).store, current, Cutoff(current, retentionDays), created, protectedDays, env,
                             STEP_ENTRIES - |due|, asked, notAfter, finished)
    {
      more, finished, visited, asked, last := true, None, {}, [], [];
      var cutoff := Cutoff(current, retentionDays);
      ghost var b0 := books;
      var ok, backfill, left := BeginStep(created, cutoff, Yesterday(current), due, faulty, quiet);
      if !ok { return; }
      ghost var b1 := books;
      more, finished, visited, asked, last :=
        ReadAll(current, cutoff, backfill, protectedDays, left, notAfter, env, indexes, faulty, quiet);
      KeepsTransitive(b0, b1, books);
      if !faulty {
        TakenInNames(env, asked, notAfter, books);
      }
      if quiet {
        SettledPast(env, steady, indexes, notAfter, asked, visited, b0, b1, books, created, cutoff, due);
      }
    }

    /** The days a step reads, from the cursors stored when it begins to. */
    method ReadAll(current: nat, cutoff: nat, backfill: Option<nat>, protectedDays: set<nat>, budget: nat,
                   notAfter: int, env: Readers, ghost indexes: Place -> seq<seq<Entry>>, faulty: bool, quiet: bool)
      returns (more: bool, finished: Option<nat>, ghost visited: set<nat>, ghost asked: seq<Ask>, ghost last: seq<Ask>)
      requires Sound() && ReadersKeepContract(steady, env, indexes, notAfter)
      requires cutoff <= current && (backfill.Some? ==> cutoff <= backfill.value < Yesterday(current))
      modifies this`books, this`log, this`past, this`seen, this`reflected
      ensures Sound() && StepKeeps(quiet) && (quiet ==> SameKeys(old(books), books))
      ensures forall d | d in books.store.days && books.store.days[d] && finished != Some(d) ::
                d in old(books).store.days && old(books).store.days[d]
      ensures finished.Some? ==>
                cutoff <= finished.value < current && DayDone(finished.value, last, env, indexes, notAfter)
      ensures DaysAsked(env, asked, visited, Yesterday(current), old(books).store.cursors, notAfter, old(books), books,
                        faulty, quiet)
      ensures forall d | d in visited :: d >= cutoff
      ensures finished.Some? ==> more
      ensures Reports(more, env, steady, indexes, asked, visited, Yesterday(current), notAfter, books, reflected,
                      faulty)
      ensures !more ==>
                forall d: nat | current <= d + 1 && cutoff <= d <= current && HasReaders(env, d) :: d in visited
      ensures 0 < budget && HasReaders(env, FirstDay(current, cutoff)) ==>
                && asked != []
                && asked[0] == FirstAsk(FirstDay(current, cutoff), old(books).store.cursors, budget)
      ensures !faulty && quiet && backfill.Some? && backfill.value in old(books).store.days
              && OnlyLast(env, DaysToRead(Yesterday(current), current, cutoff, backfill), Yesterday(current),
                          protectedDays) ==>
                DayAlone(env, backfill.value, asked, old(books).store.cursors, budget, notAfter, finished)
    {
      var previous := Yesterday(current);
      var days := DaysToRead(previous, current, cutoff, backfill);
      CursorsSnapshot();
      more, finished, visited, asked, last :=
        ReadDays(days, previous, protectedDays, books.store.cursors, budget, notAfter, env, indexes, faulty, quiet);
      LiveAreVisited(env, days, previous, visited);
      forall d: nat | !more && current <= d + 1 && cutoff <= d <= current && HasReaders(env, d)
        ensures d in visited
      {
        assert d in {previous, current} && d in days;
      }
    }

    /** What a step does before it reads: day rows, old cursors, the day to go back to, due retries. */
    method BeginStep(created: set<nat>, cutoff: nat, previous: nat, due: seq<Target>, faulty: bool, quiet: bool)
      returns (ok: bool, backfill: Option<nat>, left: nat)
      requires Sound() && |due| <= STEP_ENTRIES
      modifies this`books, this`log, this`past, this`seen, this`reflected
      ensures Sound() && StepKeeps(quiet) && left <= STEP_ENTRIES
      ensures forall d | d in books.store.days && books.store.days[d] ::
                d in old(books).store.days && old(books).store.days[d]
      ensures backfill.Some? ==> cutoff <= backfill.value < previous
      ensures ok ==> left == STEP_ENTRIES - |due| && AllSettled(books, due, |due|)
      ensures DueOnly(due, old(books), books)
      ensures quiet && ok ==>
                var s := Opened(old(books).store, created, cutoff);
                && books.store.cursors == s.cursors && books.store.days == s.days
                && backfill == NextBackfill(ReadableDays(s), cutoff, previous)
      ensures !faulty ==> ok
    {
      left := STEP_ENTRIES;
      ghost var b0 := books;
      ok, backfill := OpenAndChoose(created, cutoff, previous, faulty, quiet);
      if !ok { return; }
      ghost var b1 := books;
      var stop;
      stop, left := TakeRetries(due, STEP_ENTRIES, faulty, quiet);
      KeepsTransitive(b0, b1, books);
      ghost var b2 := books;
      Await(quiet);
      KeepsTransitive(b0, b2, books);
      ok := !stop;
    }

    /** The rows, and the day to go back to; what was seen of other past days is forgotten. */
    method OpenAndChoose(created: set<nat>, cutoff: nat, previous: nat, faulty: bool, quiet: bool)
      returns (ok: bool, backfill: Option<nat>)
      requires Sound()
      modifies this`books, this`log, this`past, this`seen
      ensures Sound() && StepKeeps(quiet) && SettlesOnly(old(books), books, {})
      ensures forall d | d in books.store.days && books.store.days[d] ::
                d in old(books).store.days && old(books).store.days[d]
      ensures backfill.Some? ==> cutoff <= backfill.value < previous
      ensures quiet && ok ==>
                && books == old(books).(store := Opened(old(books).store, created, cutoff))
                && backfill == NextBackfill(ReadableDays(books.store), cutoff, previous)
      ensures quiet && !books.store.topic ==> backfill.None?
      ensures !ok ==> backfill.None? && seen == old(seen)
      // What was seen of a day is kept for today, yesterday and the day to go back to, and no other.
      ensures ok ==>
                forall slot :: && (slot in seen <==>
                                   slot in old(seen) && (slot.0 >= previous || backfill == Some(slot.0)))
                               && (slot in seen ==> seen[slot] == old(seen)[slot])
      ensures !faulty ==> ok
    {
      backfill := None;
      ghost var b0 := books;
      ok := OpenAndPrune(created, cutoff, faulty, quiet);
      if !ok { return; }
      ghost var b1 := books;
      Await(quiet);
      KeepsTransitive(b0, b1, books);
      backfill := NextBackfill(ReadableDays(books.store), cutoff, previous);
      seen := map slot | slot in seen && (slot.0 >= previous || backfill == Some(slot.0)) :: seen[slot];
    }
  }

  /** If today and yesterday have no readers, what becomes of the day a step goes back to. */
  ghost predicate OnlyBackfill(s: Store, current: nat, cutoff: nat, created: set<nat>, protectedDays: set<nat>,
                               env: Readers, budget: nat, asked: seq<Ask>, notAfter: int, finished: Option<nat>) {
    var previous := Yesterday(current);
    var rows := Opened(s, created, cutoff);
    var backfill := NextBackfill(ReadableDays(rows), cutoff, previous);
    backfill.Some? && cutoff <= current
    && OnlyLast(env, DaysToRead(previous, current, cutoff, backfill), previous, protectedDays) ==>
      DayAlone(env, backfill.value, asked, rows.cursors, budget, notAfter, finished)
  }

  lemma SettledPast(env: Readers, steady: Place -> seq<seq<Entry>>, indexes: Place -> seq<seq<Entry>>, notAfter: int,
                    asked: seq<Ask>, days: set<nat>, a: Books, b: Books, c: Books, created: set<nat>, cutoff: nat,
                    due: seq<Target>)
    requires ReadersKeepContract(steady, env, indexes, notAfter)
    requires DueOnly(due, a, b) && TakesOnly(env, asked, b, c)
    requires AskedFrom(asked, Opened(a.store, created, cutoff).cursors)
    requires AskedIn(asked, days) && forall d | d in days :: d >= cutoff
    ensures forall t | Settled(c, Some(t)) && !Settled(a, Some(t)) ::
              t in due || ListedFor(env, t) || PointedPast(env, asked, a.store, t)
  {
    forall t | Settled(c, Some(t)) && !Settled(a, Some(t)) && PointedAt(env, asked, t)
      ensures PointedPast(env, asked, a.store, t)
    {
      assert forall i | 0 <= i < |asked| :: ContractKept(steady, env, indexes, notAfter, asked[i]);
      PointedIsPast(env, indexes, asked, days, a.store, created, cutoff, t);
    }
  }

  /** Whatever `c` settles beyond `b` was due. */
  ghost predicate DueOnly(due: seq<Target>, b: Books, c: Books) {
    forall t: Target | Settled(c, Some(t)) && !Settled(b, Some(t)) :: t in due
  }

  predicate AllSettled(b: Books, due: seq<Target>, n: nat)
    requires n <= |due|
  {
    forall i | 0 <= i < n :: Settled(b, Some(due[i]))
  }

  lemma OneMoreRetry(a: Books, b: Books, c: Books, due: seq<Target>, n: nat, o: Outcomes)
    requires n < |due| && Keeps(b, c) && AllSettled(b, due, n) && Settled(c, Some(due[n]))
    ensures AllSettled(c, due, n + 1)
    ensures RetryAll(a, due[..n + 1], o) == Retry(RetryAll(a, due[..n], o), due[n], o)
  {
    assert due[..n + 1][..n] == due[..n];
  }

  ghost predicate DaysSettled(steady: Place -> seq<seq<Entry>>, b: Books, days: set<nat>) {
    forall d | d in days :: DaySettled(steady, b, d)
  }

  /** Every key listed for these days has been gone through. */
  ghost predicate DaysGone(env: Readers, days: set<nat>, previous: nat, reflected: set<(nat, Scan, string)>) {
    forall d | d in days :: DayGone(env, d, d >= previous, reflected)
  }

  /** All indexes of these days, today and yesterday alone, were read without anything being left, and no
      key is listed for them. */
  ghost predicate AllQuiet(env: Readers, asked: seq<Ask>, visited: set<nat>, previous: nat, notAfter: int) {
    && |asked| == 3 * |visited| && PagesQuiet(env, asked, notAfter)
    && forall d | d in visited :: d >= previous && NoKeys(env, d)
  }

  /** What it means that something is left, or nothing, after these days. If nothing is: all that the steady
      readers hold of them is settled, unless one of their answers was full, and every listed key has been
      gone through. */
  ghost predicate Reports(more: bool, env: Readers, steady: Place -> seq<seq<Entry>>,
                          indexes: Place -> seq<seq<Entry>>, asked: seq<Ask>, visited: set<nat>, previous: nat,
                          notAfter: int, b: Books, reflected: set<(nat, Scan, string)>, faulty: bool) {
    && (!more && ShortIn(steady, env, indexes, asked) ==> DaysSettled(steady, b, visited))
    && (!more ==> DaysGone(env, visited, previous, reflected))
    && |asked| <= 3 * |visited|
    && (!faulty && AllQuiet(env, asked, visited, previous, notAfter) ==> !more)
  }

  lemma OneMoreDay(env: Readers, steady: Place -> seq<seq<Entry>>, indexes: Place -> seq<seq<Entry>>,
                   b: Books, c: Books, asked: seq<Ask>, last: seq<Ask>, visited: set<nat>, bucket: nat,
                   previous: nat, notAfter: int, more: bool, dayMore: bool, before: set<(nat, Scan, string)>,
                   after: set<(nat, Scan, string)>, faulty: bool)
    requires Keeps(b, c) && before <= after && bucket !in visited && |last| <= 3
    requires Reports(more, env, steady, indexes, asked, visited, previous, notAfter, b, before, faulty)
    requires !dayMore && ShortIn(steady, env, indexes, last) ==> DaySettled(steady, c, bucket)
    requires !dayMore ==> DayGone(env, bucket, bucket >= previous, after)
    requires !faulty && |last| == 3 && bucket >= previous && PagesQuiet(env, last, notAfter) && NoKeys(env, bucket) ==>
               !dayMore
    ensures Reports(more || dayMore, env, steady, indexes, asked + last, visited + {bucket}, previous, notAfter, c,
                    after, faulty)
  {
    MoreShort(steady, env, indexes, asked, last);
    MoreQuiet(env, asked, last, notAfter);
    forall d | d in visited
      ensures DaySettled(steady, b, d) ==> DaySettled(steady, c, d)
      ensures DayGone(env, d, d >= previous, before) ==> DayGone(env, d, d >= previous, after)
    {
      KeepsDay(steady, b, c, d);
    }
    assert AllQuiet(env, asked + last, visited + {bucket}, previous, notAfter) ==>
             AllQuiet(env, asked, visited, previous, notAfter) && |last| == 3;
  }

  /** Whatever indexes fit the answers, everything they hold past the cursor was returned. */
  ghost predicate Drained(env: Readers, a: Ask, m: Merged) {
    forall others | Conform(others, AnswersTo(env, a), a.after, a.limit) ::
      AllReturned(others, AnswersTo(env, a), a.after, m)
  }

  /** The pages of a day that reported nothing left have drained its readers, for every set of
      indexes that fits the answers, if and only if no answer was full. */
  lemma DayReadIff(env: Readers, indexes: Place -> seq<seq<Entry>>, asked: seq<Ask>, pages: seq<Merged>, notAfter: int)
    requires |asked| == |pages|
    requires forall i | 0 <= i < |asked| ::
               && Conform(indexes(asked[i].place), AnswersTo(env, asked[i]), asked[i].after, asked[i].limit)
               && MergeOf(AnswersTo(env, asked[i]), asked[i].limit, notAfter, pages[i])
               && 1 <= asked[i].limit && !pages[i].more
    ensures NoneFullIn(env, asked) <==> forall i | 0 <= i < |asked| :: Drained(env, asked[i], pages[i])
  {
    forall i | 0 <= i < |asked|
      ensures NoneFull(AnswersTo(env, asked[i]), asked[i].limit) <==> Drained(env, asked[i], pages[i])
    {
      ReadToEndIffNoFullPage(indexes(asked[i].place), AnswersTo(env, asked[i]), asked[i].after, asked[i].limit,
                             notAfter, pages[i]);
    }
  }

  /** Yesterday and today, if in the period, and the day to go back to. */
  function DaysToRead(previous: nat, current: nat, cutoff: nat, backfill: Option<nat>): (days: seq<nat>)
    requires cutoff <= current && previous <= current
    ensures forall b | b in days :: b in {previous, current} || Some(b) == backfill
    ensures forall b | b in {previous, current} && b >= cutoff :: b in days
    ensures forall i | 0 <= i < |days| - 1 :: days[i] in {previous, current}
    ensures days != [] && days[0] == if previous >= cutoff then previous else current
    ensures backfill.Some? ==> days[|days| - 1] == backfill.value
    ensures (backfill.Some? ==> backfill.value < previous) ==> Rising(days, LiveCount(days, previous))
  {
    (if previous < current && previous >= cutoff then [previous] else []) + [current]
    + (if backfill.Some? then [backfill.value] else [])
  }

  function Yesterday(current: nat): (d: nat) { if current == 0 then 0 else current - 1 }

  /** The first day that a step reads: yesterday, or today if yesterday is not in the period. */
  function FirstDay(current: nat, cutoff: nat): (d: nat) {
    if current > 0 && current - 1 >= cutoff then current - 1 else current
  }

  /** The newest day before yesterday, inside the period, that is not finished. */
  function NextBackfill(days: map<nat, bool>, cutoff: nat, previous: nat): (r: Option<nat>)
    ensures r.Some? ==> r.value in days && !days[r.value] && cutoff <= r.value < previous
    ensures forall b | b in days && !days[b] && cutoff <= b < previous :: r.Some? && b <= r.value
    decreases previous
  {
    if previous <= cutoff then None
    else if previous - 1 in days && !days[previous - 1] then Some(previous - 1)
    else NextBackfill(days, cutoff, previous - 1)
  }

  /** Whatever `c` settles beyond `b` is put on the schedule by a listed key. */
  ghost predicate ListedOnly(env: Readers, bucket: nat, scan: Scan, page: seq<string>, b: Books, c: Books) {
    forall t | Settled(c, Some(t)) && !Settled(b, Some(t)) ::
      exists v | v in page :: env.scanned(bucket, scan, v) == Retried(t)
  }

  lemma OneMoreVersion(env: Readers, bucket: nat, scan: Scan, page: seq<string>, i: nat, a: Books, b: Books, c: Books)
    requires i < |page| && Keeps(a, b) && Keeps(b, c) && ListedOnly(env, bucket, scan, page, a, b)
    requires ListedOnly(env, bucket, scan, [page[i]], b, c)
    ensures Keeps(a, c) && ListedOnly(env, bucket, scan, page, a, c)
  {
    KeepsTransitive(a, b, c);
    forall t | Settled(c, Some(t)) && !Settled(a, Some(t))
      ensures exists v | v in page :: env.scanned(bucket, scan, v) == Retried(t)
    {
      if !Settled(b, Some(t)) {
        var v :| v in [page[i]] && env.scanned(bucket, scan, v) == Retried(t);
        assert v == page[i] && v in page;
      }
    }
  }

  ghost predicate ScannedOnly(env: Readers, bucket: nat, scans: seq<Scan>, b: Books, c: Books) {
    forall t | Settled(c, Some(t)) && !Settled(b, Some(t)) :: ScannedFor(env, bucket, scans, t)
  }

  predicate AllScanned(env: Readers, bucket: nat, scans: seq<Scan>, n: nat, reflected: set<(nat, Scan, string)>)
    requires n <= |scans|
  {
    forall i | 0 <= i < n :: ScanDone(bucket, scans[i], env.scan(bucket, scans[i]), reflected)
  }

  predicate NothingListed(env: Readers, bucket: nat, scans: seq<Scan>) {
    forall i | 0 <= i < |scans| :: env.scan(bucket, scans[i]) == Some([])
  }

  lemma OneMoreScan(env: Readers, bucket: nat, scans: seq<Scan>, i: nat, a: Books, b: Books, c: Books,
                    before: set<(nat, Scan, string)>, after: set<(nat, Scan, string)>)
    requires i < |scans| && env.scan(bucket, scans[i]).Some? && Keeps(a, b) && Keeps(b, c) && before <= after
    requires ScannedOnly(env, bucket, scans, a, b)
    requires ListedOnly(env, bucket, scans[i], env.scan(bucket, scans[i]).value, b, c)
    ensures Keeps(a, c) && ScannedOnly(env, bucket, scans, a, c)
    ensures AllScanned(env, bucket, scans, i, before) ==> AllScanned(env, bucket, scans, i, after)
  {
    forall t | Settled(c, Some(t)) && !Settled(a, Some(t))
      ensures ScannedFor(env, bucket, scans, t)
    {
      if !Settled(b, Some(t)) {
        var v :| v in env.scan(bucket, scans[i]).value && env.scanned(bucket, scans[i], v) == Retried(t);
        assert scans[i] in scans;
      }
    }
  }

  function CursorIn(cursors: map<Place, Pos>, place: Place): (c: Option<Pos>) {
    if place in cursors then Some(cursors[place]) else None
  }

  /** The questions start at these cursors. */
  predicate AskedFrom(asked: seq<Ask>, cursors: map<Place, Pos>) {
    forall i {:trigger CursorIn(cursors, asked[i].place)} | 0 <= i < |asked| ::
      asked[i].after == CursorIn(cursors, asked[i].place)
  }

  /** The questions concern these days. */
  predicate AskedIn(asked: seq<Ask>, days: set<nat>) {
    forall i {:trigger asked[i].place} | 0 <= i < |asked| :: asked[i].place.bucket in days
  }

  lemma MoreAsked(asked: seq<Ask>, last: seq<Ask>, days: set<nat>, bucket: nat, cursors: map<Place, Pos>, budget: nat)
    requires AskedIn(asked, days) && AskedFrom(asked, cursors) && AreAsked(last, bucket, cursors, budget)
    ensures AskedFrom(asked + last, cursors) && AskedIn(asked + last, days + {bucket})
  {
    assert forall i | 0 <= i < |last| :: AskedFor(last[i], i, bucket, cursors, budget);
  }

  /** Some listed key puts `t` on the schedule. */
  ghost predicate ListedFor(env: Readers, t: Target) {
    exists bucket: nat, scan, v | env.scan(bucket, scan).Some? && v in env.scan(bucket, scan).value ::
      env.scanned(bucket, scan, v) == Retried(t)
  }

  /** Whatever `c` settles beyond `b` is pointed at by an answer or put on the schedule by a listed key. */
  ghost predicate TakesOnly(env: Readers, asked: seq<Ask>, b: Books, c: Books) {
    forall t | Settled(c, Some(t)) && !Settled(b, Some(t)) :: PointedAt(env, asked, t) || ListedFor(env, t)
  }

  lemma OneMoreDayTakes(env: Readers, asked: seq<Ask>, last: seq<Ask>, bucket: nat, scans: seq<Scan>,
                        a: Books, b: Books, c: Books)
    requires TakesOnly(env, asked, a, b)
    requires forall t | Settled(c, Some(t)) && !Settled(b, Some(t)) ::
               PointedAt(env, last, t) || ScannedFor(env, bucket, scans, t)
    ensures TakesOnly(env, asked + last, a, c)
  {
    var all := asked + last;
    forall t | Settled(c, Some(t)) && !Settled(a, Some(t))
      ensures PointedAt(env, all, t) || ListedFor(env, t)
    {
      if Settled(b, Some(t)) && PointedAt(env, asked, t) {
        var i, k :| 0 <= i < |asked| && Offered(AnswersTo(env, asked[i]), k)
                    && IndexTarget(asked[i].place.index, k.id) == Some(t);
        assert all[i] == asked[i];
      } else if !Settled(b, Some(t)) && PointedAt(env, last, t) {
        var i, k :| 0 <= i < |last| && Offered(AnswersTo(env, last[i]), k)
                    && IndexTarget(last[i].place.index, k.id) == Some(t);
        assert all[|asked| + i] == last[i];
      }
    }
  }

  /** `k` lies past the stored cursor of its place, if the day of that cursor has its row. */
  predicate PastCursor(s: Store, place: Place, k: Pos) {
    place in s.cursors && place.bucket in s.days ==> Less(s.cursors[place], k)
  }

  /** An answer points at `t` with a position past the stored cursor. */
  ghost predicate PointedPast(env: Readers, asked: seq<Ask>, s: Store, t: Target) {
    exists i, k | 0 <= i < |asked| && Offered(AnswersTo(env, asked[i]), k) ::
      IndexTarget(asked[i].place.index, k.id) == Some(t) && PastCursor(s, asked[i].place, k)
  }

  /** An answer to a question that starts at the stored cursor points at nothing behind it. */
  lemma PointedIsPast(env: Readers, indexes: Place -> seq<seq<Entry>>, asked: seq<Ask>, days: set<nat>, s: Store,
                      created: set<nat>, cutoff: nat, t: Target)
    requires forall i | 0 <= i < |asked| ::
               Conform(indexes(asked[i].place), AnswersTo(env, asked[i]), asked[i].after, asked[i].limit)
    requires AskedFrom(asked, Opened(s, created, cutoff).cursors)
    requires AskedIn(asked, days) && forall d | d in days :: d >= cutoff
    requires PointedAt(env, asked, t)
    ensures PointedPast(env, asked, s, t)
  {
    var i, k :| 0 <= i < |asked| && Offered(AnswersTo(env, asked[i]), k)
                && IndexTarget(asked[i].place.index, k.id) == Some(t);
    var a := asked[i];
    assert asked[i].after == CursorIn(Opened(s, created, cutoff).cursors, asked[i].place);
    OfferedIsAfter(indexes(a.place), AnswersTo(env, a), a.after, a.limit, k);
    assert PastCursor(s, a.place, k);
  }

  ghost predicate NoReaders(env: Readers, bucket: nat) {
    forall limit: nat :: env.read(Place(Timeline, bucket), None, limit) == []
  }

  /** Of the days of a step only the last, a past one, has readers, and it is not left out. */
  ghost predicate OnlyLast(env: Readers, days: seq<nat>, previous: nat, protectedDays: set<nat>) {
    && days != [] && (forall i | 0 <= i < |days| - 1 :: NoReaders(env, days[i]))
    && var d := days[|days| - 1];
    d < previous && d in protectedDays && HasReaders(env, d) && NothingListed(env, d, ScansOf(false))
  }

  /** One past day alone was read, with this budget: to its last index unless the budget ran out,
      and it is marked if all its pages reported nothing left. */
  ghost predicate DayAlone(env: Readers, d: nat, asked: seq<Ask>, cursors: map<Place, Pos>, budget: nat, notAfter: int,
                           finished: Option<nat>) {
    && AreAsked(asked, d, cursors, budget) && Chained(env, asked, budget, notAfter)
    && (|asked| < 3 ==> LeftAfter(env, asked, budget, notAfter) == 0)
    && (|asked| == 3 && PagesRead(env, asked, notAfter) ==> finished == Some(d))
  }

  predicate AreAsked(asked: seq<Ask>, bucket: nat, snapshot: map<Place, Pos>, budget: nat) {
    |asked| <= 3 && forall i | 0 <= i < |asked| :: AskedFor(asked[i], i, bucket, snapshot, budget)
  }

  /** The first question of a day. */
  function FirstAsk(bucket: nat, cursors: map<Place, Pos>, budget: nat): (a: Ask) {
    var place := Place(Timeline, bucket);
    Ask(place, CursorIn(cursors, place), budget)
  }

  lemma FirstIsAsked(env: Readers, asked: seq<Ask>, bucket: nat, cursors: map<Place, Pos>, budget: nat, notAfter: int)
    requires AreAsked(asked, bucket, cursors, budget) && Chained(env, asked, budget, notAfter)
    ensures asked != [] ==> asked[0] == FirstAsk(bucket, cursors, budget)
  {
    if asked != [] {
      assert AskedFor(asked[0], 0, bucket, cursors, budget) && ChainedAt(env, asked, budget, notAfter, 0);
      assert asked[..0] == [];
    }
  }

  lemma OneMoreAsked(asked: seq<Ask>, a: Ask, bucket: nat, snapshot: map<Place, Pos>, budget: nat)
    requires |asked| < 3 && AreAsked(asked, bucket, snapshot, budget)
    requires AskedFor(a, |asked|, bucket, snapshot, budget)
    ensures AreAsked(asked + [a], bucket, snapshot, budget)
  {
  }

  ghost predicate PointedOnly(env: Readers, asked: seq<Ask>, b: Books, c: Books) {
    forall t | Settled(c, Some(t)) && !Settled(b, Some(t)) :: PointedAt(env, asked, t)
  }

  /** No day row is added or newly marked, but for the one that was finished; undisturbed, none of the
      others differs. */
  predicate MarkedOnly(b: Books, c: Books, bucket: nat, finished: bool, quiet: bool) {
    forall d | d in c.store.days && !(finished && d == bucket) ::
      && d in b.store.days && (c.store.days[d] ==> b.store.days[d])
      && (quiet ==> c.store.days[d] == b.store.days[d])
  }

  /** The same days have a row. */
  predicate SameKeys(b: Books, c: Books) { c.store.days.Keys == b.store.days.Keys }

  predicate FollowedAt(env: Readers, a: Ask, notAfter: int, cursors: map<Place, Pos>) {
    forall k | k in PickedOf(AnswersTo(env, a), a.limit, notAfter) ::
      a.place in cursors && !Less(cursors[a.place], k)
  }

  /** The cursors have moved to or past everything that the pages returned. */
  predicate Followed(env: Readers, asked: seq<Ask>, notAfter: int, cursors: map<Place, Pos>) {
    forall i {:trigger FollowedAt(env, asked[i], notAfter, cursors)} | 0 <= i < |asked| ::
      FollowedAt(env, asked[i], notAfter, cursors)
  }

  predicate FollowedFrom(env: Readers, asked: seq<Ask>, notAfter: int, cursors: map<Place, Pos>, previous: nat) {
    forall i {:trigger FollowedAt(env, asked[i], notAfter, cursors)}
      | 0 <= i < |asked| && asked[i].place.bucket >= previous :: FollowedAt(env, asked[i], notAfter, cursors)
  }

  /** The cursors of the other days are as they were. */
  ghost predicate OtherDays(was: map<Place, Pos>, now: map<Place, Pos>, bucket: nat) {
    forall p: Place {:trigger CursorIn(now, p)} | p.bucket != bucket :: CursorIn(was, p) == CursorIn(now, p)
  }

  /** How many of the days are read live: all but a past day at the end. */
  function LiveCount(days: seq<nat>, previous: nat): (n: nat)
    ensures n <= |days|
  {
    if days != [] && days[|days| - 1] < previous then |days| - 1 else |days|
  }

  /** The first `n` days have been visited if they have readers. */
  ghost predicate AllVisited(env: Readers, days: seq<nat>, n: nat, visited: set<nat>)
    requires n <= |days|
  {
    forall i {:trigger HasReaders(env, days[i])} | 0 <= i < n :: HasReaders(env, days[i]) ==> days[i] in visited
  }

  lemma LiveAreVisited(env: Readers, days: seq<nat>, previous: nat, visited: set<nat>)
    requires forall i | 0 <= i < |days| - 1 :: days[i] >= previous
    ensures AllVisited(env, days, LiveCount(days, previous), visited) ==>
              forall d | d in days && d >= previous && HasReaders(env, d) :: d in visited
  {
    forall d | d in days && d >= previous && HasReaders(env, d)
               && AllVisited(env, days, LiveCount(days, previous), visited)
      ensures d in visited
    {
      var i :| 0 <= i < |days| && days[i] == d;
      assert HasReaders(env, days[i]);
    }
  }

  function DaySet(days: seq<nat>): (s: set<nat>) { set d | d in days }

  /** The first `n` days come in order. */
  predicate Rising(days: seq<nat>, n: nat)
    requires n <= |days|
  {
    forall i | 0 <= i < n - 1 :: days[i] < days[i + 1]
  }

  lemma SameCursorFollows(env: Readers, a: Ask, notAfter: int, was: map<Place, Pos>, now: map<Place, Pos>)
    requires FollowedAt(env, a, notAfter, was) && CursorIn(was, a.place) == CursorIn(now, a.place)
    ensures FollowedAt(env, a, notAfter, now)
  {
  }

  lemma MoreFollowed(env: Readers, asked: seq<Ask>, last: seq<Ask>, days: set<nat>, bucket: nat, previous: nat,
                     notAfter: int, was: map<Place, Pos>, now: map<Place, Pos>, snapshot: map<Place, Pos>, budget: nat)
    requires FollowedFrom(env, asked, notAfter, was, previous) && AskedIn(asked, days) && bucket !in days
    requires OtherDays(was, now, bucket) && AreAsked(last, bucket, snapshot, budget)
    requires bucket >= previous ==> Followed(env, last, notAfter, now)
    ensures FollowedFrom(env, asked + last, notAfter, now, previous)
  {
    var all := asked + last;
    forall i | 0 <= i < |all| && all[i].place.bucket >= previous
      ensures FollowedAt(env, all[i], notAfter, now)
    {
      if i < |asked| {
        assert all[i] == asked[i] && asked[i].place.bucket in days;
        SameCursorFollows(env, asked[i], notAfter, was, now);
      } else {
        assert all[i] == last[i - |asked|] && AskedFor(last[i - |asked|], i - |asked|, bucket, snapshot, budget);
        assert FollowedAt(env, last[i - |asked|], notAfter, now);
      }
    }
  }

  lemma {:induction false} TakeAllCursors(b: Books, place: Place, hits: seq<Hit>, o: Outcomes, p: Place)
    ensures TakeAll(b, place, hits, o).store.topic == b.store.topic
    ensures CursorIn(TakeAll(b, place, hits, o).store.cursors, p)
            == if p == place && hits != [] && b.store.topic then Some(hits[|hits| - 1].entry.pos)
               else CursorIn(b.store.cursors, p)
  {
    if hits != [] {
      TakeAllCursors(b, place, hits[..|hits| - 1], o, p);
      TakeOneCursors(TakeAll(b, place, hits[..|hits| - 1], o), place, hits[|hits| - 1].entry.pos, o, p);
    }
  }

  lemma TakeOneCursors(b: Books, place: Place, pos: Pos, o: Outcomes, p: Place)
    ensures TakeOne(b, place, pos, o).store.topic == b.store.topic
    ensures CursorIn(TakeOne(b, place, pos, o).store.cursors, p)
            == if p == place && b.store.topic then Some(pos) else CursorIn(b.store.cursors, p)
  {
  }

  /** Taking in one more page moves the cursor of its index to its last entry, and no other. */
  lemma OneMoreFollowed(env: Readers, asked: seq<Ask>, a: Ask, notAfter: int, m: Merged, b: Books, o: Outcomes)
    requires MergeOf(AnswersTo(env, a), a.limit, notAfter, m)
    requires forall i | 0 <= i < |asked| :: asked[i].place != a.place
    ensures var c := TakeAll(b, a.place, m.entries, o);
            && OtherDays(b.store.cursors, c.store.cursors, a.place.bucket)
            && (b.store.topic && Followed(env, asked, notAfter, b.store.cursors) ==>
                  Followed(env, asked + [a], notAfter, c.store.cursors))
  {
    var was, now := b.store.cursors, TakeAll(b, a.place, m.entries, o).store.cursors;
    forall p { TakeAllCursors(b, a.place, m.entries, o, p); }
    if b.store.topic && Followed(env, asked, notAfter, was) {
      forall i | 0 <= i < |asked| ensures FollowedAt(env, asked[i], notAfter, now) {
        SameCursorFollows(env, asked[i], notAfter, was, now);
      }
      PageFollowed(env, a, notAfter, m, now);
      assert forall i | 0 <= i < |asked| + 1 :: (asked + [a])[i] == if i < |asked| then asked[i] else a;
    }
  }

  lemma PageFollowed(env: Readers, a: Ask, notAfter: int, m: Merged, cursors: map<Place, Pos>)
    requires MergeOf(AnswersTo(env, a), a.limit, notAfter, m)
    requires m.entries != [] ==> CursorIn(cursors, a.place) == Some(m.entries[|m.entries| - 1].entry.pos)
    ensures FollowedAt(env, a, notAfter, cursors)
  {
    forall k | k in PickedOf(AnswersTo(env, a), a.limit, notAfter)
      ensures a.place in cursors && !Less(cursors[a.place], k)
    {
      ReturnsIffPicked(AnswersTo(env, a), a.limit, notAfter, m, k);
      NotAfterLast(m, k);
    }
  }

  lemma NotAfterLast(m: Merged, k: Pos)
    requires InOrder(m) && Returns(m, k)
    ensures m.entries != [] && !Less(m.entries[|m.entries| - 1].entry.pos, k)
  {
    var i :| 0 <= i < |m.entries| && m.entries[i].entry.pos == k;
    NotBoth(k, m.entries[|m.entries| - 1].entry.pos);
  }

  /** What the questions of a step were about and what came of them: they concern the days visited
      and start at the cursors read; nothing else was settled; without a fault what they returned is
      taken in; and if nothing disturbed the step either, the cursors of live days have followed. */
  ghost predicate DaysAsked(env: Readers, asked: seq<Ask>, visited: set<nat>, previous: nat, snapshot: map<Place, Pos>,
                            notAfter: int, b: Books, c: Books, faulty: bool, quiet: bool) {
    && AskedIn(asked, visited) && AskedFrom(asked, snapshot) && TakesOnly(env, asked, b, c)
    && (!faulty ==> AllTakenIn(env, asked, notAfter, c))
    && (!faulty && quiet && c.store.topic && b.store.topic ==>
          FollowedFrom(env, asked, notAfter, c.store.cursors, previous))
  }

  lemma OneMoreDayAsked(env: Readers, asked: seq<Ask>, last: seq<Ask>, visited: set<nat>, bucket: nat, previous: nat,
                        snapshot: map<Place, Pos>, budget: nat, notAfter: int, a: Books, b: Books, c: Books,
                        faulty: bool, quiet: bool)
    requires DaysAsked(env, asked, visited, previous, snapshot, notAfter, a, b, faulty, quiet)
    requires Keeps(b, c) && AreAsked(last, bucket, snapshot, budget) && bucket !in visited
    requires forall t | Settled(c, Some(t)) && !Settled(b, Some(t)) ::
               PointedAt(env, last, t) || ScannedFor(env, bucket, ScansOf(bucket >= previous), t)
    requires !faulty ==> AllTakenIn(env, last, notAfter, c)
    requires !faulty && quiet ==>
               && c.store.topic == b.store.topic && OtherDays(b.store.cursors, c.store.cursors, bucket)
               && (bucket >= previous && c.store.topic ==> Followed(env, last, notAfter, c.store.cursors))
    ensures DaysAsked(env, asked + last, visited + {bucket}, previous, snapshot, notAfter, a, c, faulty, quiet)
  {
    MoreAsked(asked, last, visited, bucket, snapshot, budget);
    OneMoreDayTakes(env, asked, last, bucket, ScansOf(bucket >= previous), a, b, c);
    if !faulty {
      KeepsTakenIn(env, asked, notAfter, b, c);
      MoreTakenIn(env, asked, last, notAfter, c);
      if quiet && c.store.topic && a.store.topic {
        MoreFollowed(env, asked, last, visited, bucket, previous, notAfter, b.store.cursors, c.store.cursors,
                     snapshot, budget);
      }
    }
  }

  /** What is left of a budget when the pages asked for have been taken in, one unit an entry. */
  function LeftAfter(env: Readers, asked: seq<Ask>, budget: nat, notAfter: int): (left: int) {
    if asked == [] then budget
    else
      var a := asked[|asked| - 1];
      LeftAfter(env, asked[..|asked| - 1], budget, notAfter) - |PickedOf(AnswersTo(env, a), a.limit, notAfter)|
  }

  lemma LeftSnoc(env: Readers, asked: seq<Ask>, i: nat, budget: nat, notAfter: int)
    requires i < |asked|
    ensures LeftAfter(env, asked[..i + 1], budget, notAfter)
            == LeftAfter(env, asked[..i], budget, notAfter)
               - |PickedOf(AnswersTo(env, asked[i]), asked[i].limit, notAfter)|
  {
    assert asked[..i + 1][..i] == asked[..i];
  }

  /** Every question asks for what the questions before it have left. */
  predicate Chained(env: Readers, asked: seq<Ask>, budget: nat, notAfter: int) {
    forall i | 0 <= i < |asked| :: ChainedAt(env, asked, budget, notAfter, i)
  }

  predicate ChainedAt(env: Readers, asked: seq<Ask>, budget: nat, notAfter: int, i: nat)
    requires i < |asked|
  {
    asked[i].limit == LeftAfter(env, asked[..i], budget, notAfter)
  }

  lemma OneMoreLeft(env: Readers, asked: seq<Ask>, a: Ask, budget: nat, notAfter: int, m: Merged)
    requires Chained(env, asked, budget, notAfter) && a.limit == LeftAfter(env, asked, budget, notAfter)
    requires MergeOf(AnswersTo(env, a), a.limit, notAfter, m)
    ensures Chained(env, asked + [a], budget, notAfter)
    ensures LeftAfter(env, asked + [a], budget, notAfter) == a.limit - |m.entries|
  {
    var all := asked + [a];
    PickedCount(AnswersTo(env, a), a.limit, notAfter, m);
    assert all[..|asked|] == asked;
    forall i | 0 <= i < |all| ensures ChainedAt(env, all, budget, notAfter, i) {
      assert all[..i] == asked[..i];
      assert i < |asked| ==> ChainedAt(env, asked, budget, notAfter, i);
    }
  }

  ghost predicate PagesRead(env: Readers, asked: seq<Ask>, notAfter: int) {
    forall i {:trigger PageRead(env, asked[i], notAfter)} | 0 <= i < |asked| :: PageRead(env, asked[i], notAfter)
  }

  /** How far the indexes of a day have been read. */
  ghost predicate DayRead(env: Readers, asked: seq<Ask>, b: Books, bucket: nat, notAfter: int,
                          more: bool, readToEnd: bool, steady: Place -> seq<seq<Entry>>,
                          indexes: Place -> seq<seq<Entry>>) {
    && |asked| <= 3 && (readToEnd <==> PagesRead(env, asked, notAfter)) && (readToEnd ==> !more)
    && (PagesQuiet(env, asked, notAfter) ==> !more)
    && (!more && ShortIn(steady, env, indexes, asked) ==>
          forall j | 0 <= j < |asked| :: PlaceSettled(steady, b, Place(IndexOrder()[j], bucket)))
  }

  /** The page reports nothing left, whoever answered. */
  ghost predicate PageQuiet(env: Readers, a: Ask, notAfter: int) {
    forall m | MergeOf(AnswersTo(env, a), a.limit, notAfter, m) :: !m.more
  }

  ghost predicate PagesQuiet(env: Readers, asked: seq<Ask>, notAfter: int) {
    forall i {:trigger PageQuiet(env, asked[i], notAfter)} | 0 <= i < |asked| :: PageQuiet(env, asked[i], notAfter)
  }

  lemma MoreQuiet(env: Readers, asked: seq<Ask>, more: seq<Ask>, notAfter: int)
    ensures PagesQuiet(env, asked + more, notAfter) ==>
              PagesQuiet(env, asked, notAfter) && PagesQuiet(env, more, notAfter)
  {
    if PagesQuiet(env, asked + more, notAfter) {
      forall i | 0 <= i < |asked|
        ensures PageQuiet(env, asked[i], notAfter)
      {
        assert PageQuiet(env, (asked + more)[i], notAfter);
      }
      forall i | 0 <= i < |more|
        ensures PageQuiet(env, more[i], notAfter)
      {
        assert PageQuiet(env, (asked + more)[|asked| + i], notAfter);
      }
    }
  }

  /** The question for the i-th index of a day. */
  predicate AskedFor(a: Ask, i: nat, bucket: nat, snapshot: map<Place, Pos>, budget: nat)
    requires i < 3
  {
    var place := Place(IndexOrder()[i], bucket);
    a.place == place && 1 <= a.limit <= budget && a.after == CursorIn(snapshot, place)
  }

  lemma KeepsSnapshot(steady: Place -> seq<seq<Entry>>, b: Books, c: Books, snapshot: map<Place, Pos>)
    requires Keeps(b, c) && forall p | p in snapshot :: SettledThrough(steady, b, p, snapshot[p])
    ensures forall p | p in snapshot :: SettledThrough(steady, c, p, snapshot[p])
  {
    forall p | p in snapshot ensures SettledThrough(steady, c, p, snapshot[p]) {
      KeepsThrough(steady, b, c, p, snapshot[p]);
    }
  }

  /** What one more page settles is pointed at by its answers. */
  lemma MorePointed(env: Readers, asked: seq<Ask>, a: Ask, b0: Books, b1: Books, b2: Books, notAfter: int, m: Merged)
    requires MergeOf(AnswersTo(env, a), a.limit, notAfter, m)
    requires PointedOnly(env, asked, b0, b1) && SettlesOnly(b1, b2, TargetsOf(a.place.index, m.entries))
    ensures PointedOnly(env, asked + [a], b0, b2)
  {
    var all := asked + [a];
    assert all[|asked|] == a && forall i | 0 <= i < |asked| :: all[i] == asked[i];
    forall t | Settled(b2, Some(t)) && !Settled(b0, Some(t))
      ensures PointedAt(env, all, t)
    {
      if Settled(b1, Some(t)) {
        var i, k :| 0 <= i < |asked| && Offered(AnswersTo(env, asked[i]), k)
                    && IndexTarget(asked[i].place.index, k.id) == Some(t);
        assert Offered(AnswersTo(env, all[i]), k);
      } else {
        var j :| 0 <= j < |m.entries| && IndexTarget(a.place.index, m.entries[j].entry.pos.id) == Some(t);
        HitIsOffered(AnswersTo(env, a), m.entries[j]);
        assert Offered(AnswersTo(env, all[|asked|]), m.entries[j].entry.pos);
      }
    }
  }

  lemma PageReadIff(env: Readers, a: Ask, notAfter: int, m: Merged)
    requires MergeOf(AnswersTo(env, a), a.limit, notAfter, m)
    ensures PageRead(env, a, notAfter) <==> m.answered && !m.more
  {
    if PageRead(env, a, notAfter) {
      var n :| MergeOf(AnswersTo(env, a), a.limit, notAfter, n) && n.answered && !n.more;
      MergeDetermined(AnswersTo(env, a), a.limit, notAfter, m, n);
    }
  }

  lemma OneMoreIndex(env: Readers, asked: seq<Ask>, a: Ask, b: Books, c: Books, bucket: nat, notAfter: int, m: Merged,
                     steady: Place -> seq<seq<Entry>>, indexes: Place -> seq<seq<Entry>>,
                     more: bool, readToEnd: bool)
    requires |asked| < 3 && Keeps(b, c) && MergeOf(AnswersTo(env, a), a.limit, notAfter, m)
    requires a.place == Place(IndexOrder()[|asked|], bucket)
    requires DayRead(env, asked, b, bucket, notAfter, more, readToEnd, steady, indexes)
    requires !m.more && ShortAt(steady, env, indexes, a) ==> PlaceSettled(steady, c, a.place)
    ensures DayRead(env, asked + [a], c, bucket, notAfter, more || m.more, readToEnd && m.answered && !m.more,
                    steady, indexes)
  {
    var all := asked + [a];
    assert all[|asked|] == a && forall j | 0 <= j < |asked| :: all[j] == asked[j];
    PageReadIff(env, a, notAfter, m);
    assert PagesRead(env, all, notAfter) <==> PagesRead(env, asked, notAfter) && PageRead(env, a, notAfter);
    MoreQuiet(env, asked, [a], notAfter);
    assert PagesQuiet(env, [a], notAfter) ==> PageQuiet(env, [a][0], notAfter);
    MoreShort(steady, env, indexes, asked, [a]);
    assert ShortIn(steady, env, indexes, [a]) ==> ShortAt(steady, env, indexes, [a][0]);
    if !more && !m.more && ShortIn(steady, env, indexes, all) {
      forall j | 0 <= j < |all|
        ensures PlaceSettled(steady, c, Place(IndexOrder()[j], bucket))
      {
        assert j < |asked| ==> PlaceSettled(steady, b, Place(IndexOrder()[j], bucket));
      }
    }
  }

  /** What the three indexes of a day have settled stays so. */
  lemma DayStays(env: Readers, steady: Place -> seq<seq<Entry>>, indexes: Place -> seq<seq<Entry>>,
                 asked: seq<Ask>, bucket: nat, notAfter: int, snapshot: map<Place, Pos>, a: Books, b: Books,
                 c: Books, more: bool, readToEnd: bool)
    requires Keeps(a, b) && Keeps(b, c) && |asked| == 3 && AllTakenIn(env, asked, notAfter, b)
    requires DayRead(env, asked, b, bucket, notAfter, more, readToEnd, steady, indexes)
    requires forall p | p in snapshot :: SettledThrough(steady, b, p, snapshot[p])
    ensures Keeps(a, c) && AllTakenIn(env, asked, notAfter, c)
    ensures forall p | p in snapshot :: SettledThrough(steady, c, p, snapshot[p])
    ensures !more && ShortIn(steady, env, indexes, asked) ==> DaySettled(steady, c, bucket)
  {
    KeepsTransitive(a, b, c);
    KeepsTakenIn(env, asked, notAfter, b, c);
    KeepsSnapshot(steady, b, c, snapshot);
    if !more && ShortIn(steady, env, indexes, asked) {
      AllIndexes(steady, b, bucket);
      KeepsDay(steady, b, c, bucket);
    }
  }

  lemma AllIndexes(steady: Place -> seq<seq<Entry>>, b: Books, bucket: nat)
    requires forall j | 0 <= j < 3 :: PlaceSettled(steady, b, Place(IndexOrder()[j], bucket))
    ensures DaySettled(steady, b, bucket)
  {
    assert IndexOrder()[0] == Timeline && IndexOrder()[1] == ChannelList && IndexOrder()[2] == ChannelActivity;
    forall index ensures PlaceSettled(steady, b, Place(index, bucket)) {
      match index
      case Timeline => assert PlaceSettled(steady, b, Place(IndexOrder()[0], bucket));
      case ChannelList => assert PlaceSettled(steady, b, Place(IndexOrder()[1], bucket));
      case ChannelActivity => assert PlaceSettled(steady, b, Place(IndexOrder()[2], bucket));
    }
  }
}
