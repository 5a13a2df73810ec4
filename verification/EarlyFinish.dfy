/** A past day that is marked as read to its end with an entry unread: its timeline uses up all but
    one unit of the budget, and its last index holds two entries. */
module EarlyFinish {
  import opened ChannelId
  import opened IndexMerge
  import opened Order
  import opened RetentionBooks
  import opened RetentionStep
  import opened SingleReader

  /** `pc-1-0123456789abcdef`. */
  const CHANNEL: string := "pc-" + "1" + ['-'] + "0123456789abcdef"

  /** The hundredth second of day 9; day 7 begins at second 604 800. */
  const NOW: nat := 777_700

  /** An entry of channel activity: a post of a public channel. */
  function Activity(channel: string, at: int, post: string): (e: Entry) {
    Entry(Pos(at, channel + ['.'] + post), None)
  }

  /** One post of the timeline a second, with ids of one capital letter or so. */
  function Post(i: nat): (e: Entry)
    requires i < 31
  {
    Entry(Pos(604_801 + i, [(65 + i) as char]), None)
  }

  /** What the reader holds of day 7. */
  function Held(channel: string): (f: Place -> seq<Entry>) {
    (place: Place) =>
      if place == Place(Timeline, 7) then seq(31, i requires 0 <= i < 31 => Post(i))
      else if place == Place(ChannelActivity, 7) then [Activity(channel, 604_801, "p"), Activity(channel, 604_802, "q")]
      else []
  }

  predicate Channel7(channel: string) { PublicChannelId(channel) && '.' !in channel && '/' !in channel }

  lemma ChannelIsPublic()
    ensures Channel7(CHANNEL)
  {
    var suffix := "0123456789abcdef";
    assert Written(1) == "1";
    assert |suffix| == 16 && WrittenAs(CHANNEL, 1, suffix);
    WrittenIsPublic(CHANNEL, 1, suffix);
    NoDot(CHANNEL, 1, suffix);
  }

  lemma TargetIs(channel: string, post: string)
    requires Channel7(channel)
    ensures IndexTarget(ChannelActivity, channel + ['.'] + post) == Some(Target(Kind.Post, post))
  {
    SplitAt(channel, '.', post);
  }

  lemma HeldIsProper(channel: string, place: Place)
    requires Channel7(channel)
    ensures Proper(Held(channel)(place))
  {
  }

  lemma PostIsNotQ(i: nat)
    requires i < 31
    ensures Post(i).pos.id != "q"
  {
    var c := (65 + i) as char;
    assert c != 'q';
    assert Post(i).pos.id[0] == c && "q"[0] == 'q';
  }

  /** Of what is asked for, nothing points at the second entry of channel activity. */
  lemma NothingPoints(channel: string, a: Ask, k: Pos)
    requires Channel7(channel) && a.place.bucket == 7 && a.after.None?
    requires a.place.index == ChannelActivity ==> a.limit == 1
    requires Offered(AnswersTo(Env(Held(channel), {7}), a), k)
    ensures IndexTarget(a.place.index, k.id) != Some(Target(Kind.Post, "q"))
  {
    var held := Held(channel);
    HeldIsProper(channel, a.place);
    match a.place.index
    case Timeline =>
      OffersHeld(held, {7}, a, k);
      var i :| 0 <= i < 31 && Post(i).pos == k;
      PostIsNotQ(i);
    case ChannelList =>
      OffersHeld(held, {7}, a, k);
    case ChannelActivity =>
      FirstActivity(channel, a);
      Asked(held, {7}, a, Latest(NOW), [Activity(channel, 604_801, "p")]);
      TargetIs(channel, "p");
  }

  lemma FirstActivity(channel: string, a: Ask)
    requires a == Ask(Place(ChannelActivity, 7), None, 1)
    ensures Answer(Held(channel)(a.place), a.after, a.limit) == Page([Activity(channel, 604_801, "p")], None)
  {
    var es := Held(channel)(a.place);
    assert Rest(es, None) == es;
  }

  /** The three pages of the day: 31 entries, none, and one. */
  lemma Pages(channel: string, a: Ask)
    requires Channel7(channel) && a.place.bucket == 7 && a.after.None?
    requires a.limit == if a.place.index == Timeline then 32 else 1
    ensures PageRead(Env(Held(channel), {7}), a, Latest(NOW))
    ensures |PickedOf(AnswersTo(Env(Held(channel), {7}), a), a.limit, Latest(NOW))|
            == match a.place.index case Timeline => 31 case ChannelList => 0 case ChannelActivity => 1
  {
    var held := Held(channel);
    var es := held(a.place);
    HeldIsProper(channel, a.place);
    assert Rest(es, None) == es;
    if a.place.index == ChannelActivity {
      FirstActivity(channel, a);
      Asked(held, {7}, a, Latest(NOW), [Activity(channel, 604_801, "p")]);
    } else {
      assert a.place.index == Timeline ==> forall i | 0 <= i < 31 :: es[i] == Post(i);
      Asked(held, {7}, a, Latest(NOW), es);
    }
  }

  /** What the i-th question of the day asks for, and what it leaves. */
  lemma {:induction false} Question(channel: string, asked: seq<Ask>, i: nat)
    requires Channel7(channel) && i < |asked| <= 3
    requires AreAsked(asked, 7, map[], 32) && Chained(Env(Held(channel), {7}), asked, 32, Latest(NOW))
    ensures asked[i] == Ask(Place(IndexOrder()[i], 7), None, if i == 0 then 32 else 1)
    ensures PageRead(Env(Held(channel), {7}), asked[i], Latest(NOW))
    ensures i < 2 ==> LeftAfter(Env(Held(channel), {7}), asked[..i + 1], 32, Latest(NOW)) == 1
  {
    var env := Env(Held(channel), {7});
    assert AskedFor(asked[i], i, 7, map[], 32) && ChainedAt(env, asked, 32, Latest(NOW), i);
    if i > 0 {
      Question(channel, asked, i - 1);
    }
    Pages(channel, asked[i]);
    LeftSnoc(env, asked, i, 32, Latest(NOW));
  }

  lemma BudgetIsLeft(channel: string, asked: seq<Ask>)
    requires Channel7(channel) && |asked| < 3
    requires AreAsked(asked, 7, map[], 32) && Chained(Env(Held(channel), {7}), asked, 32, Latest(NOW))
    ensures LeftAfter(Env(Held(channel), {7}), asked, 32, Latest(NOW)) > 0
  {
    if asked != [] {
      Question(channel, asked, |asked| - 1);
      assert asked[..|asked|] == asked;
    }
  }

  /** The day is read to its last index, and all its pages report nothing left. */
  lemma DayIsRead(channel: string, asked: seq<Ask>, finished: Option<nat>)
    requires Channel7(channel) && DayAlone(Env(Held(channel), {7}), 7, asked, map[], 32, Latest(NOW), finished)
    ensures |asked| == 3 && finished == Some(7)
    ensures forall i | 0 <= i < 3 :: asked[i] == Ask(Place(IndexOrder()[i], 7), None, if i == 0 then 32 else 1)
  {
    if |asked| < 3 {
      BudgetIsLeft(channel, asked);
    }
    forall i | 0 <= i < |asked|
      ensures asked[i] == Ask(Place(IndexOrder()[i], 7), None, if i == 0 then 32 else 1)
      ensures PageRead(Env(Held(channel), {7}), asked[i], Latest(NOW))
    {
      Question(channel, asked, i);
    }
  }

  lemma OnlyDay7(channel: string, s: Store, asked: seq<Ask>, finished: Option<nat>)
    requires s.topic && s.days == map[] && s.cursors == map[]
    requires OnlyBackfill(s, 9, Cutoff(9, 3), {7, 8, 9}, {7, 8, 9}, Env(Held(channel), {7}), 32, asked, Latest(NOW),
                          finished)
    ensures DayAlone(Env(Held(channel), {7}), 7, asked, map[], 32, Latest(NOW), finished)
  {
    var rows := Opened(s, {7, 8, 9}, 7);
    assert rows.cursors == map[] && rows.days.Keys == {7, 8, 9};
    assert NextBackfill(ReadableDays(rows), 7, 8) == Some(7);
    assert DaysToRead(8, 9, 7, Some(7)) == [8, 9, 7];
  }

  /** What follows from the step. */
  lemma StepLeaves(channel: string, s: Store, asked: seq<Ask>, finished: Option<nat>)
    requires Channel7(channel) && s.topic && s.days == map[] && s.cursors == map[]
    requires OnlyBackfill(s, 9, Cutoff(9, 3), {7, 8, 9}, {7, 8, 9}, Env(Held(channel), {7}), 32, asked, Latest(NOW),
                          finished)
    ensures finished == Some(7)
    ensures var env, q := Env(Held(channel), {7}), Target(Kind.Post, "q");
            !PointedPast(env, asked, s, q) && !ListedFor(env, q)
  {
    OnlyDay7(channel, s, asked, finished);
    DayIsRead(channel, asked, finished);
    forall i, k | 0 <= i < |asked| && Offered(AnswersTo(Env(Held(channel), {7}), asked[i]), k)
      ensures IndexTarget(asked[i].place.index, k.id) != Some(Target(Kind.Post, "q"))
    {
      assert IndexOrder()[i] == ChannelActivity ==> i == 2;
      NothingPoints(channel, asked[i], k);
    }
  }

  lemma ContractIsKept(channel: string)
    requires Channel7(channel)
    ensures var known := Known(Held(channel), {7});
            ReadersKeepContract(known, Env(Held(channel), {7}), known, Latest(NOW))
  {
    forall place ensures Proper(Held(channel)(place)) { HeldIsProper(channel, place); }
    SingleReader.Keeps(Held(channel), Held(channel), {7}, Latest(NOW));
  }

  /** The run: one step on a topic just retained marks day 7 as read to its end, while the post of
      its second activity entry is neither retained nor scheduled nor given up. */
  method EarlyFinishExample() returns (r: TopicRetention, finished: Option<nat>)
    ensures fresh(r) && r.Sound() && finished == Some(7)
    ensures 7 in r.books.store.days && r.books.store.days[7]
    ensures IndexTarget(ChannelActivity, Activity(CHANNEL, 604_802, "q").pos.id) == Some(Target(Kind.Post, "q"))
    ensures Activity(CHANNEL, 604_802, "q") in Held(CHANNEL)(Place(ChannelActivity, 7))
    ensures !Settled(r.books, Some(Target(Kind.Post, "q")))
  {
    ChannelIsPublic();
    TargetIs(CHANNEL, "q");
    r, finished := ReadDay7(CHANNEL);
  }

  method ReadDay7(channel: string) returns (r: TopicRetention, finished: Option<nat>)
    requires Channel7(channel)
    ensures fresh(r) && r.Sound() && finished == Some(7)
    ensures 7 in r.books.store.days && r.books.store.days[7] && !Settled(r.books, Some(Target(Kind.Post, "q")))
  {
    r := JustRetained(Known(Held(channel), {7}));
    ghost var store := r.books.store;
    ContractIsKept(channel);
    var today, more := DayAt(NOW), true;
    assert today == 9;
    ghost var visited, asked, last;
    more, finished, visited, asked, last :=
      r.Step(today, 3, {7, 8, 9}, [], {7, 8, 9}, Latest(NOW), Env(Held(channel), {7}), Known(Held(channel), {7}),
             false, true);
    StepLeaves(channel, store, asked, finished);
  }
}
