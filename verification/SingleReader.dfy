/** One reader that answers at once with all it has, on certain days: what the runs of topic
    retention below read from. */
module SingleReader {
  import opened Order
  import opened IndexMerge
  import opened RetentionBooks
  import opened RetentionStep

  /** The day that a clock shows, and the latest time that a step then takes in: both are read from
      one clock. */
  function DayAt(now: nat): (d: nat) { now / 86_400 }

  function Latest(now: nat): (at: int) { now + 600 }

  /** Up to the limit. */
  function Answer(index: seq<Entry>, after: Option<Pos>, limit: nat): (page: Page) {
    var rest := Rest(index, after);
    Page(if |rest| <= limit then rest else rest[..limit], None)
  }

  /** Nobody reads the days outside `days`, and no day lists keys. */
  function Env(held: Place -> seq<Entry>, days: set<nat>): (env: Readers) {
    Readers((place: Place, after: Option<Pos>, limit: nat) =>
              if place.bucket in days then [Some(Answer(held(place), after, limit))] else [],
            (bucket: nat, scan: Scan) => Some([]),
            (bucket: nat, scan: Scan, version: string) => Reflected)
  }

  function Known(held: Place -> seq<Entry>, days: set<nat>): (f: Place -> seq<seq<Entry>>) {
    (place: Place) => if place.bucket in days then [held(place)] else []
  }

  predicate Proper(index: seq<Entry>) { Ordered(index) && forall e | e in index :: ProperId(e.pos.id) }

  lemma Honest(index: seq<Entry>, after: Option<Pos>, limit: nat)
    requires Proper(index)
    ensures Answers(index, after, limit, Answer(index, after, limit))
  {
  }

  /** The reader keeps its contract, whatever part of its index it is known to hold. */
  lemma Keeps(known: Place -> seq<Entry>, held: Place -> seq<Entry>, days: set<nat>, notAfter: int)
    requires forall place :: Proper(held(place)) && forall e | e in known(place) :: e in held(place)
    ensures ReadersKeepContract(Known(known, days), Env(held, days), Known(held, days), notAfter)
  {
    forall a
      ensures ContractKept(Known(known, days), Env(held, days), Known(held, days), notAfter, a)
    {
      Honest(held(a.place), a.after, a.limit);
      if a.place.bucket in days {
        var indexes, replies := Known(held, days)(a.place), AnswersTo(Env(held, days), a);
        assert StillHolds(known(a.place), indexes, replies, 0) && NoOverrunBy(replies, 0, a.limit, notAfter);
        assert AnswersFor(known(a.place), indexes, replies, a.limit, notAfter);
      }
    }
  }

  function Hits(es: seq<Entry>): (hits: seq<Hit>) { seq(|es|, i requires 0 <= i < |es| => Hit(es[i], 0)) }

  /** The merge of one page is that page. */
  lemma OnePage(es: seq<Entry>, limit: nat, notAfter: int)
    requires Ordered(es) && |es| <= limit && forall i | 0 <= i < |es| :: es[i].pos.at <= notAfter
    ensures MergeOf([Some(Page(es, None))], limit, notAfter, Merged(Hits(es), false, true))
  {
    var replies, m := [Some(Page(es, None))], Merged(Hits(es), false, true);
    assert forall i | 0 <= i < |es| :: m.entries[i] == Hit(es[i], 0);
    forall i | 0 <= i < |es|
      ensures WithinBound(replies, limit, es[i].pos) && FirstReaderWins(replies, m.entries[i])
    {
      NotBoth(es[i].pos, es[|es| - 1].pos);
      assert replies[0].Some?;
    }
    forall k | Offered(replies, k)
      ensures Returns(m, k)
    {
      var i :| 0 <= i < |es| && es[i].pos == k;
      assert m.entries[i].entry.pos == k;
    }
  }

  /** The page a question gets, if it has room for all of it that is new. */
  lemma Asked(held: Place -> seq<Entry>, days: set<nat>, a: Ask, notAfter: int, es: seq<Entry>)
    requires a.place.bucket in days && Answer(held(a.place), a.after, a.limit) == Page(es, None)
    requires Ordered(es) && |es| <= a.limit && forall i | 0 <= i < |es| :: es[i].pos.at <= notAfter
    ensures PageRead(Env(held, days), a, notAfter)
    ensures |PickedOf(AnswersTo(Env(held, days), a), a.limit, notAfter)| == |es|
    ensures forall i | 0 <= i < |es| :: es[i].pos in PickedOf(AnswersTo(Env(held, days), a), a.limit, notAfter)
    ensures forall k | Offered(AnswersTo(Env(held, days), a), k) :: exists i | 0 <= i < |es| :: es[i].pos == k
  {
    var replies, m := AnswersTo(Env(held, days), a), Merged(Hits(es), false, true);
    assert replies == [Some(Page(es, None))];
    OnePage(es, a.limit, notAfter);
    PickedCount(replies, a.limit, notAfter, m);
    forall i | 0 <= i < |es|
      ensures es[i].pos in PickedOf(replies, a.limit, notAfter)
    {
      assert m.entries[i].entry.pos == es[i].pos;
      ReturnsIffPicked(replies, a.limit, notAfter, m, es[i].pos);
    }
  }

  /** Whatever the question, the reader offers nothing that it does not hold. */
  lemma OffersHeld(held: Place -> seq<Entry>, days: set<nat>, a: Ask, k: Pos)
    requires Proper(held(a.place)) && Offered(AnswersTo(Env(held, days), a), k)
    ensures exists i | 0 <= i < |held(a.place)| :: held(a.place)[i].pos == k
  {
    var page := Answer(held(a.place), a.after, a.limit);
    assert Offers(page, k);
    var i :| 0 <= i < |page.entries| && page.entries[i].pos == k;
    RestExact(held(a.place), a.after);
    assert page.entries[i] == Rest(held(a.place), a.after)[i];
    assert page.entries[i] in held(a.place);
  }

  /** A topic that has just been retained, with nothing read; all that is tried will succeed. */
  method JustRetained(ghost steady: Place -> seq<seq<Entry>>) returns (r: TopicRetention)
    ensures fresh(r) && r.Sound() && r.steady == steady
    ensures var s := r.books.store; s.topic && s.days == map[] && s.cursors == map[]
    ensures forall t :: !Settled(r.books, Some(t))
  {
    r := new TopicRetention(Outcomes((t: Target, n: nat) => true, (t: Target, n: nat) => false, true), steady);
    r.RetainTopic();
  }
}
