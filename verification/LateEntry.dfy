/** An entry that reaches a reader behind a stored cursor: no later step reads it. */
module LateEntry {
  import opened Order
  import opened IndexMerge
  import opened RetentionBooks
  import opened RetentionStep
  import opened SingleReader

  const TODAY := Place(Timeline, 7)

  /** The hundredth second of day 7. */
  const NOW: nat := 604_900

  /** A post of the fifth second of the day, and one of the third that arrives after it. */
  const FIRST := Entry(Pos(604_805, "a"), None)
  const LATE := Entry(Pos(604_803, "b"), None)

  function Early(): (f: Place -> seq<Entry>) { (place: Place) => if place == TODAY then [FIRST] else [] }

  function Later(): (f: Place -> seq<Entry>) { (place: Place) => if place == TODAY then [LATE, FIRST] else [] }

  lemma ContractsAreKept()
    ensures ReadersKeepContract(Known(Early(), {7}), Env(Early(), {7}), Known(Early(), {7}), Latest(NOW))
    ensures ReadersKeepContract(Known(Early(), {7}), Env(Later(), {7}), Known(Later(), {7}), Latest(NOW))
  {
    forall place ensures Proper(Early()(place)) && Proper(Later()(place)) {}
    forall place, e | e in Early()(place) ensures e in Later()(place) {
      assert Later()(place)[1] == FIRST;
    }
    SingleReader.Keeps(Early(), Early(), {7}, Latest(NOW));
    SingleReader.Keeps(Early(), Later(), {7}, Latest(NOW));
  }

  /** A cursor at or past the first post is past the late one. */
  lemma CursorIsPast(asked: seq<Ask>, cursors: map<Place, Pos>)
    requires asked != [] && asked[0] == Ask(TODAY, None, 32)
    requires FollowedFrom(Env(Early(), {7}), asked, Latest(NOW), cursors, 6)
    ensures TODAY in cursors && !Less(cursors[TODAY], LATE.pos)
  {
    assert Rest([FIRST], None) == [FIRST];
    Asked(Early(), {7}, asked[0], Latest(NOW), [FIRST]);
    assert FollowedAt(Env(Early(), {7}), asked[0], Latest(NOW), cursors);
    assert [FIRST][0].pos == FIRST.pos;
    if Less(cursors[TODAY], LATE.pos) {
      LessTransitive(cursors[TODAY], LATE.pos, FIRST.pos);
    }
  }

  /** The first reader offers nothing that points at the late post. */
  lemma NotThereYet(asked: seq<Ask>, s: Store)
    ensures !PointedPast(Env(Early(), {7}), asked, s, Target(Post, "b"))
  {
    forall i, k | 0 <= i < |asked| && Offered(AnswersTo(Env(Early(), {7}), asked[i]), k)
      ensures IndexTarget(asked[i].place.index, k.id) != Some(Target(Post, "b"))
    {
      OffersHeld(Early(), {7}, asked[i], k);
      assert k.id[0] == 'a' && "b"[0] == 'b';
    }
  }

  /** Once a cursor has passed it, no position that points at it lies past the cursor. */
  lemma Behind(asked: seq<Ask>, s: Store)
    requires TODAY in s.cursors && 7 in s.days && !Less(s.cursors[TODAY], LATE.pos)
    ensures !PointedPast(Env(Later(), {7}), asked, s, Target(Post, "b"))
  {
    forall i, k | 0 <= i < |asked| && Offered(AnswersTo(Env(Later(), {7}), asked[i]), k)
                  && IndexTarget(asked[i].place.index, k.id) == Some(Target(Post, "b"))
      ensures !PastCursor(s, asked[i].place, k)
    {
      OffersHeld(Later(), {7}, asked[i], k);
      assert "a"[0] == 'a' && "b"[0] == 'b';
    }
  }

  /** A step on a topic just retained, with one post in today's timeline. */
  method ReadFirst() returns (r: TopicRetention)
    ensures fresh(r) && r.Sound() && r.steady == Known(Early(), {7})
    ensures var s := r.books.store;
            s.topic && 7 in s.days && TODAY in s.cursors && !Less(s.cursors[TODAY], LATE.pos)
    ensures !Settled(r.books, Some(Target(Post, "b")))
  {
    ContractsAreKept();
    r := JustRetained(Known(Early(), {7}));
    ghost var s := r.books.store;
    var today := DayAt(NOW);
    assert today == 7;
    var more, finished, visited, asked, last :=
      r.Step(today, 1, {7}, [], {7}, Latest(NOW), Env(Early(), {7}), Known(Early(), {7}), false, true);
    NotThereYet(asked, s);
    assert Opened(s, {7}, 7).cursors == map[] && Opened(s, {7}, 7).days.Keys == {7};
    assert HasReaders(Env(Early(), {7}), 7);
    assert asked[0].after == CursorIn(map[], asked[0].place);
    CursorIsPast(asked, r.books.store.cursors);
  }

  /** The run: a step reads the first post of today; a second one, of an earlier second, arrives; the
      next step leaves it neither retained nor scheduled nor given up. */
  method LateExample() returns (r: TopicRetention)
    ensures fresh(r) && r.Sound()
    ensures LATE in Later()(TODAY) && IndexTarget(Timeline, LATE.pos.id) == Some(Target(Post, "b"))
    ensures !Settled(r.books, Some(Target(Post, "b")))
  {
    ContractsAreKept();
    r := ReadFirst();
    r.Arrive(TODAY, 0, LATE);
    ghost var s := r.books.store;
    var today := DayAt(NOW);
    assert today == 7;
    var more, finished, visited, asked, last :=
      r.Step(today, 1, {}, [], {7}, Latest(NOW), Env(Later(), {7}), Known(Later(), {7}), false, true);
    Behind(asked, s);
    assert [LATE, FIRST][0] == LATE;
  }
}
