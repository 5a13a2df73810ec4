/** What public topic retention keeps about one topic: the rows of its store, and the standing of
    every target that an index entry points at. */
module RetentionBooks {
  import opened ChannelId
  import opened IndexMerge
  import opened Order

  datatype Kind = Post | Channel | Reaction | LiveSession | GameSession
  datatype Target = Target(kind: Kind, id: string)

  /** `indexes/timeline/`, `channels/list/`, `channels/activity/`, in the order they are read. */
  datatype Index = Timeline | ChannelList | ChannelActivity
  datatype Place = Place(index: Index, bucket: nat)
  datatype Scan = Withdrawals | Reactions | LiveSessions | GameSessions

  const STEP_ENTRIES: nat := 32
  const RETRY_DELAYS: nat := 5

  function IndexOrder(): (r: seq<Index>) { [Timeline, ChannelList, ChannelActivity] }

  /** The keys read for a day: all four kinds while it is current, sessions only later. */
  function ScansOf(live: bool): (r: seq<Scan>) {
    if live then [Withdrawals, Reactions, LiveSessions, GameSessions]
    else [LiveSessions, GameSessions]
  }

  // ------------------------------------------------------------------ what an entry points at

  function IndexTarget(index: Index, id: string): (t: Option<Target>) {
    match index
    case ChannelList =>
      if PublicChannelId(id) then Some(Target(Channel, id)) else None
    case ChannelActivity =>
      (match SplitOnce(id, '.')
       case Some((channel, post)) => if PublicChannelId(channel) then Some(Target(Post, post)) else None
       case None => None)
    case Timeline => Some(Target(Post, id))
  }

  /** What an entry names: on the timeline the post of its id; on the list of channels the channel of
      its id, if that is a public channel; in channel activity the post whose id follows that of a
      public channel. */
  ghost predicate Names(index: Index, id: string, t: Target) {
    match index
    case Timeline => t == Target(Post, id)
    case ChannelList => NamesChannel(id) && t == Target(Channel, id)
    case ChannelActivity => t.kind == Post && exists channel :: NamesChannel(channel) && id == channel + ['.'] + t.id
  }

  /** The target that the code takes from an entry is what the entry names. */
  lemma IndexTargetIff(index: Index, id: string, t: Target)
    ensures IndexTarget(index, id) == Some(t) <==> Names(index, id, t)
  {
    PublicChannelIdIff(id);
    if index == ChannelActivity {
      ActivityTargetIff(id, t);
    }
  }

  lemma ActivityTargetIff(id: string, t: Target)
    ensures IndexTarget(ChannelActivity, id) == Some(t) <==> Names(ChannelActivity, id, t)
  {
    if IndexTarget(ChannelActivity, id) == Some(t) {
      PublicChannelIdIff(SplitOnce(id, '.').value.0);
    }
    if Names(ChannelActivity, id, t) {
      var channel :| NamesChannel(channel) && id == channel + ['.'] + t.id;
      var n, suffix :| WrittenAs(channel, n, suffix);
      NoDot(channel, n, suffix);
      SplitAt(channel, '.', t.id);
      PublicChannelIdIff(channel);
    }
  }

  // ------------------------------------------------------------------ the retention store

  /** The rows of one topic. `retries` holds the attempts made, `gaveUp` the targets counted
      as given up, `days` whether a day has been read to its end. */
  datatype Store = Store(topic: bool, cursors: map<Place, Pos>, retries: map<Target, nat>,
                         gaveUp: set<Target>, days: map<nat, bool>)

  /** Nothing is stored for a topic that is not retained, but for the days where the store keeps
      their rows until the protection of their content has been taken off. */
  predicate RowsOwned(s: Store, keepsDays: bool) {
    !s.topic ==> s.cursors == map[] && s.retries == map[] && (keepsDays || s.days == map[])
  }

  /** `tableFull`: the retry table of all topics has reached its 4096 rows. */
  function Schedule(s: Store, t: Target, tableFull: bool): (r: Store) {
    if !s.topic then s
    else if t in s.retries && s.retries[t] < RETRY_DELAYS then
      s.(retries := s.retries[t := s.retries[t] + 1])
    else if t !in s.retries && !tableFull then
      s.(retries := s.retries[t := 1])
    else
      s.(retries := s.retries - {t}, gaveUp := s.gaveUp + {t})
  }

  function FinishRetry(s: Store, t: Target): (r: Store) { s.(retries := s.retries - {t}) }

  function PutCursor(s: Store, place: Place, pos: Pos): (r: Store) {
    if s.topic then s.(cursors := s.cursors[place := pos]) else s
  }

  function DropCursors(cursors: map<Place, Pos>, days: set<nat>): (r: map<Place, Pos>) {
    map p | p in cursors && p.bucket !in days :: cursors[p]
  }

  /** A day that gets its row is read from the beginning. */
  function OpenDays(s: Store, created: set<nat>): (r: Store) {
    if !s.topic then s
    else s.(days := s.days + (map b | b in created - s.days.Keys :: false),
            cursors := DropCursors(s.cursors, created - s.days.Keys))
  }

  function PruneCursors(s: Store, before: nat): (r: Store) {
    s.(cursors := map p | p in s.cursors && p.bucket >= before :: s.cursors[p])
  }

  function FinishDay(s: Store, bucket: nat): (r: Store) {
    s.(days := if bucket in s.days then s.days[bucket := true] else s.days,
       cursors := DropCursors(s.cursors, {bucket}))
  }

  /** The in-memory store drops the day rows with the rest; the SQLite store keeps them. */
  function Release(s: Store, keepsDays: bool): (r: Store) {
    Store(false, map[], map[], {}, if keepsDays then s.days else map[])
  }

  /** A day row that is still there is to be read again. */
  function Retain(s: Store): (r: Store) {
    if s.topic then s else s.(topic := true, days := map d | d in s.days :: false)
  }

  /** The days that may be read: a row kept over a release does not count. */
  function ReadableDays(s: Store): (days: map<nat, bool>) { if s.topic then s.days else map[] }

  /** The rows of a topic when a step has opened its days and dropped the cursors before the period. */
  function Opened(s: Store, created: set<nat>, cutoff: nat): (r: Store) { PruneCursors(OpenDays(s, created), cutoff) }

  /** The oldest day of the retention period, which includes today. */
  function Cutoff(current: nat, retentionDays: nat): (r: nat) {
    var span := (if retentionDays < 1 then 1 else retentionDays) - 1;
    if current < span then 0 else current - span
  }

  /** Exactly when a failed target is put on the schedule and when it is given up: a row counts up
      to five attempts, a new row needs room in the table. Nothing else changes. */
  lemma ScheduleIff(s: Store, t: Target, tableFull: bool)
    requires s.topic
    ensures var r := Schedule(s, t, tableFull);
            && (t in r.retries <==> if t in s.retries then s.retries[t] < 5 else !tableFull)
            && (t in r.retries ==> r.retries[t] == 1 + if t in s.retries then s.retries[t] else 0)
            && (t !in r.retries ==> t in r.gaveUp) && (t in r.retries ==> r.gaveUp == s.gaveUp)
            && (forall u | u != t :: (u in r.retries <==> u in s.retries) && (u in r.gaveUp <==> u in s.gaveUp))
            && (forall u | u != t && u in s.retries :: r.retries[u] == s.retries[u])
  {
  }

  /** A topic that is released and retained again starts afresh: no cursor, no schedule, nothing given
      up, and every day row that the store kept is to be read again. */
  lemma ResumedIsFresh(s: Store, keepsDays: bool)
    ensures var r := Retain(Release(s, keepsDays));
            && r.topic && r.cursors == map[] && r.retries == map[] && r.gaveUp == {}
            && r.days.Keys == (if keepsDays then s.days.Keys else {})
            && forall d | d in r.days :: !r.days[d]
  {
  }

  /** Finishing a day marks its row, if it has one, and drops its cursors. */
  lemma FinishedDayIs(s: Store, bucket: nat)
    ensures var r := FinishDay(s, bucket);
            && r.topic == s.topic && r.retries == s.retries && r.gaveUp == s.gaveUp
            && r.days.Keys == s.days.Keys && (bucket in r.days ==> r.days[bucket])
            && (forall d | d in s.days && d != bucket :: r.days[d] == s.days[d])
            && forall p :: (p in r.cursors <==> p in s.cursors && p.bucket != bucket)
                           && (p in r.cursors ==> r.cursors[p] == s.cursors[p])
  {
  }

  // ------------------------------------------------------------------ what must never be lost

  /** Whether the n-th attempt to take a target in completes, whether the retry table of all topics
      is full when the target fails for the n-th time, and which store is used. */
  datatype Outcomes = Outcomes(takes: (Target, nat) -> bool, full: (Target, nat) -> bool, keepsDays: bool)

  /** The store and what has happened to the targets: taken in whole, or dropped when the topic
      was released while a step was under way; with the attempts and failures of each, and the
      number of such releases. */
  datatype Books = Books(store: Store, retained: set<Target>, lost: set<Target>,
                         tries: map<Target, nat>, failures: map<Target, nat>, releases: nat)

  function Count(m: map<Target, nat>, t: Target): (n: nat) { if t in m then m[t] else 0 }

  /** A target could not be taken in. */
  function Fail(b: Books, t: Target, o: Outcomes): (r: Books) {
    var n := Count(b.failures, t);
    b.(store := Schedule(b.store, t, o.full(t, n)), failures := b.failures[t := n + 1],
       lost := if b.store.topic then b.lost else b.lost + {t})
  }

  function Take(b: Books, t: Target, o: Outcomes): (r: Books) {
    var n := Count(b.tries, t);
    var tried := b.(tries := b.tries[t := n + 1]);
    if o.takes(t, n) then tried.(retained := b.retained + {t}) else Fail(tried, t, o)
  }

  /** A retry that has come due; its row goes when it succeeds. */
  function Retry(b: Books, t: Target, o: Outcomes): (r: Books) {
    var n := Count(b.tries, t);
    var taken := Take(b, t, o);
    if o.takes(t, n) then taken.(store := FinishRetry(taken.store, t)) else taken
  }

  /** A retry that completes takes its target off the schedule, whole; one that does not puts it back or
      gives it up. No other target, cursor or day is touched. */
  lemma RetryIff(b: Books, t: Target, o: Outcomes)
    requires b.store.topic
    ensures var r := Retry(b, t, o);
            && (if o.takes(t, Count(b.tries, t))
                then t in r.retained && t !in r.store.retries && r.store.gaveUp == b.store.gaveUp
                else r.retained == b.retained && (t in r.store.retries || t in r.store.gaveUp))
            && (forall u | u != t :: (u in r.retained <==> u in b.retained)
                                     && (u in r.store.retries <==> u in b.store.retries)
                                     && (u in r.store.gaveUp <==> u in b.store.gaveUp))
            && r.store.cursors == b.store.cursors && r.store.days == b.store.days && r.lost == b.lost
            && Count(r.tries, t) == Count(b.tries, t) + 1
  {
  }

  /** Targets that only the rows of the topic account for. */
  function OnRows(b: Books): (r: set<Target>) { (b.store.retries.Keys + b.store.gaveUp) - b.retained }

  /** The topic is released while a step is under way. */
  function ReleasedNow(b: Books, o: Outcomes): (r: Books) {
    b.(store := Release(b.store, o.keepsDays), lost := b.lost + OnRows(b), releases := b.releases + 1)
  }

  function RetainedNow(b: Books): (r: Books) { b.(store := Retain(b.store)) }

  function WithCursor(b: Books, place: Place, pos: Pos): (r: Books) {
    b.(store := PutCursor(b.store, place, pos))
  }

  /** Retained whole, waiting for a retry, or given up and counted. */
  predicate Accounted(b: Books, t: Option<Target>) {
    t.None? || t.value in b.retained || t.value in b.store.retries || t.value in b.store.gaveUp
  }

  /** The same, or dropped by a release in the middle of a step. */
  predicate Settled(b: Books, t: Option<Target>) { Accounted(b, t) || t.value in b.lost }

  predicate MetFullTable(o: Outcomes, t: Target, n: nat) { exists i: nat | i < n :: o.full(t, i) }

  predicate EverTaken(o: Outcomes, t: Target, n: nat) { exists i: nat | i < n :: o.takes(t, i) }

  /** No standing without its reason: retained after an attempt that completed, given up after
      more than five failures or a full table, lost or scheduled after a failure. */
  ghost predicate Fair(b: Books, o: Outcomes) { forall t :: FairTo(b, o, t) }

  ghost predicate FairTo(b: Books, o: Outcomes, t: Target) {
    && (t in b.retained ==> EverTaken(o, t, Count(b.tries, t)))
    && (t in b.store.retries ==>
          1 <= b.store.retries[t] <= RETRY_DELAYS && b.store.retries[t] <= Count(b.failures, t))
    && (t in b.store.gaveUp ==>
          Count(b.failures, t) > RETRY_DELAYS || MetFullTable(o, t, Count(b.failures, t)))
    && (t in b.lost ==> Count(b.failures, t) >= 1)
  }

  /** The standing of targets is the same, or is given up with the rows. */
  predicate SameStanding(b: Books, c: Books) {
    && c.retained == b.retained && c.tries == b.tries && c.failures == b.failures && c.lost <= b.lost
    && (c.store.retries == b.store.retries || c.store.retries == map[])
    && c.store.gaveUp <= b.store.gaveUp
  }

  lemma StaysFair(b: Books, c: Books, o: Outcomes)
    requires Fair(b, o) && SameStanding(b, c)
    ensures Fair(c, o)
  {
    forall t ensures FairTo(c, o, t) {
      assert FairTo(b, o, t);
    }
  }

  /** Nothing settled in `b` is unsettled in `c`. */
  ghost predicate Keeps(b: Books, c: Books) {
    && b.retained <= c.retained && b.lost <= c.lost
    && forall t: Option<Target> | Settled(b, t) :: Settled(c, t)
  }

  /** Whatever `c` settles beyond `b` is among `touched`. */
  ghost predicate SettlesOnly(b: Books, c: Books, touched: set<Target>) {
    forall t: Target | Settled(c, Some(t)) && !Settled(b, Some(t)) :: t in touched
  }

  /** `c` has no day row, and marks no day as finished, beyond `b`. Releasing and retaining the topic
      may drop rows and marks. */
  predicate SameDays(b: Books, c: Books) {
    forall d | d in c.store.days :: d in b.store.days && (c.store.days[d] ==> b.store.days[d])
  }

  predicate DaysKept(b: Books, c: Books, quiet: bool) {
    SameDays(b, c) && (quiet ==> c.store.days == b.store.days)
  }

  /** Only the standing of targets differs: same topic row, cursors and days. */
  predicate SameRows(b: Books, c: Books) {
    c.store.topic == b.store.topic && c.store.cursors == b.store.cursors && c.store.days == b.store.days
  }

  lemma FailKeeps(b: Books, t: Target, o: Outcomes)
    ensures var r := Fail(b, t, o);
            && Keeps(b, r) && SameRows(b, r) && Settled(r, Some(t)) && SettlesOnly(b, r, {t})
            && (b.store.topic ==> r.lost == b.lost) && (Fair(b, o) ==> Fair(r, o))
  {
    if Fair(b, o) {
      FailIsFair(b, t, o);
    }
  }

  lemma FailIsFair(b: Books, t: Target, o: Outcomes)
    requires Fair(b, o)
    ensures Fair(Fail(b, t, o), o)
  {
    var r, n := Fail(b, t, o), Count(b.failures, t);
    forall u
      ensures FairTo(r, o, u)
    {
      assert FairTo(b, o, u);
      assert o.full(t, n) ==> MetFullTable(o, t, n + 1);
      if MetFullTable(o, u, Count(b.failures, u)) {
        var i: nat :| i < Count(b.failures, u) && o.full(u, i);
        assert i < Count(r.failures, u);
      }
    }
  }

  lemma TakeKeeps(b: Books, t: Target, o: Outcomes)
    ensures var r := Take(b, t, o);
            && Keeps(b, r) && SameRows(b, r) && Settled(r, Some(t)) && SettlesOnly(b, r, {t})
            && (b.store.topic ==> r.lost == b.lost) && (Fair(b, o) ==> Fair(r, o))
  {
    FailKeeps(b.(tries := b.tries[t := Count(b.tries, t) + 1]), t, o);
    if Fair(b, o) {
      TakeIsFair(b, t, o);
    }
  }

  lemma TakeIsFair(b: Books, t: Target, o: Outcomes)
    requires Fair(b, o)
    ensures Fair(Take(b, t, o), o)
  {
    var n := Count(b.tries, t);
    var tried := b.(tries := b.tries[t := n + 1]);
    forall u
      ensures FairTo(tried, o, u)
    {
      assert FairTo(b, o, u);
      if u in b.retained {
        var i: nat :| i < Count(b.tries, u) && o.takes(u, i);
        assert i < Count(tried.tries, u);
      }
    }
    if o.takes(t, n) {
      assert EverTaken(o, t, n + 1);
      forall u ensures FairTo(Take(b, t, o), o, u) { assert FairTo(tried, o, u); }
    } else {
      FailIsFair(tried, t, o);
    }
  }

  lemma RetryKeeps(b: Books, t: Target, o: Outcomes)
    ensures var r := Retry(b, t, o);
            && Keeps(b, r) && SameRows(b, r) && Settled(r, Some(t)) && SettlesOnly(b, r, {t})
            && (b.store.topic ==> r.lost == b.lost) && (Fair(b, o) ==> Fair(r, o))
  {
    TakeKeeps(b, t, o);
    if Fair(b, o) {
      var taken, r := Take(b, t, o), Retry(b, t, o);
      forall u ensures FairTo(r, o, u) { assert FairTo(taken, o, u); }
    }
  }

  lemma ReleaseKeeps(b: Books, o: Outcomes)
    ensures var r := ReleasedNow(b, o);
            Keeps(b, r) && SettlesOnly(b, r, {}) && SameDays(b, r) && (Fair(b, o) ==> Fair(r, o))
  {
    if Fair(b, o) {
      forall t ensures FairTo(ReleasedNow(b, o), o, t) { assert FairTo(b, o, t); }
    }
  }

  lemma KeepsTransitive(a: Books, b: Books, c: Books)
    requires Keeps(a, b) && Keeps(b, c)
    ensures Keeps(a, c)
  {
  }

  // ------------------------------------------------------------------ cursors and days

  /** Every entry of the steady readers up to and including `pos` is settled. */
  ghost predicate SettledThrough(steady: Place -> seq<seq<Entry>>, b: Books, place: Place, pos: Pos) {
    forall r, e | 0 <= r < |steady(place)| && e in steady(place)[r] && !Less(pos, e.pos) ::
      Settled(b, IndexTarget(place.index, e.pos.id))
  }

  ghost predicate CursorSettled(steady: Place -> seq<seq<Entry>>, b: Books, place: Place) {
    place in b.store.cursors ==> SettledThrough(steady, b, place, b.store.cursors[place])
  }

  /** No stored cursor has passed an entry that is not settled. */
  ghost predicate CursorsSettled(steady: Place -> seq<seq<Entry>>, b: Books) {
    forall place :: CursorSettled(steady, b, place)
  }

  /** Every entry the steady readers hold at `place` is settled. */
  ghost predicate PlaceSettled(steady: Place -> seq<seq<Entry>>, b: Books, place: Place) {
    forall r, e | 0 <= r < |steady(place)| && e in steady(place)[r] ::
      Settled(b, IndexTarget(place.index, e.pos.id))
  }

  ghost predicate DaySettled(steady: Place -> seq<seq<Entry>>, b: Books, bucket: nat) {
    forall index :: PlaceSettled(steady, b, Place(index, bucket))
  }

  /** Everything the steady readers hold at `place` before `pos` is settled. */
  ghost predicate SettledBefore(steady: Place -> seq<seq<Entry>>, b: Books, place: Place, pos: Pos) {
    forall r, e | 0 <= r < |steady(place)| && e in steady(place)[r] && Less(e.pos, pos) ::
      Settled(b, IndexTarget(place.index, e.pos.id))
  }

  /** What is settled up to, or before, a position stays settled. */
  lemma KeepsThrough(steady: Place -> seq<seq<Entry>>, b: Books, c: Books, place: Place, pos: Pos)
    requires Keeps(b, c)
    ensures SettledThrough(steady, b, place, pos) ==> SettledThrough(steady, c, place, pos)
    ensures SettledBefore(steady, b, place, pos) ==> SettledBefore(steady, c, place, pos)
  {
  }

  lemma KeepsDay(steady: Place -> seq<seq<Entry>>, b: Books, c: Books, bucket: nat)
    requires Keeps(b, c)
    ensures DaySettled(steady, b, bucket) ==> DaySettled(steady, c, bucket)
  {
    if DaySettled(steady, b, bucket) {
      forall index ensures PlaceSettled(steady, c, Place(index, bucket)) {
        assert PlaceSettled(steady, b, Place(index, bucket));
      }
    }
  }

  /** Dropping cursors, or settling more, never makes a cursor unsound. */
  lemma FewerCursors(steady: Place -> seq<seq<Entry>>, b: Books, c: Books)
    requires CursorsSettled(steady, b) && Keeps(b, c)
    requires forall p | p in c.store.cursors :: p in b.store.cursors && c.store.cursors[p] == b.store.cursors[p]
    ensures CursorsSettled(steady, c)
  {
    forall p ensures CursorSettled(steady, c, p) {
      assert CursorSettled(steady, b, p);
    }
  }

  /** Moving one cursor over an entry that is itself settled, with everything before it. */
  lemma CursorMoves(steady: Place -> seq<seq<Entry>>, b: Books, place: Place, pos: Pos)
    requires CursorsSettled(steady, b) && SettledBefore(steady, b, place, pos)
    requires Settled(b, IndexTarget(place.index, pos.id))
    ensures CursorsSettled(steady, WithCursor(b, place, pos)) && Keeps(b, WithCursor(b, place, pos))
  {
    var c := WithCursor(b, place, pos);
    forall p | p in c.store.cursors ensures CursorSettled(steady, c, p) {
      if p == place && b.store.topic {
        forall r, e | 0 <= r < |steady(p)| && e in steady(p)[r] && !Less(pos, e.pos)
          ensures Settled(c, IndexTarget(p.index, e.pos.id))
        {
          PosOrder();
          assert Less(e.pos, pos) || e.pos == pos;
        }
      } else {
        assert CursorSettled(steady, b, p);
      }
    }
  }

  // ------------------------------------------------------------------ release and retain in mid-step

  /** Every entry of the steady readers at or before a stored cursor is accounted for. */
  ghost predicate CursorsAccounted(steady: Place -> seq<seq<Entry>>, b: Books) {
    forall place, r, e | place in b.store.cursors && 0 <= r < |steady(place)| && e in steady(place)[r]
                         && !Less(b.store.cursors[place], e.pos) ::
      Accounted(b, IndexTarget(place.index, e.pos.id))
  }

  /** Some steady entry at or before `pos` points at one of `targets`. */
  ghost predicate PointsInto(steady: Place -> seq<seq<Entry>>, place: Place, pos: Pos, targets: set<Target>) {
    exists r, e | 0 <= r < |steady(place)| && e in steady(place)[r] && !Less(pos, e.pos) ::
      IndexTarget(place.index, e.pos.id).Some? && IndexTarget(place.index, e.pos.id).value in targets
  }

  /** A step is about to move a cursor to `pos` over entries that are all accounted for, and the
      topic is released and retained again before the write. The cursor it then writes is sound
      exactly when none of those entries stood on the schedule or among the given-up alone. */
  lemma ResumedMidStepIff(steady: Place -> seq<seq<Entry>>, b: Books, place: Place, pos: Pos, o: Outcomes)
    requires forall r, e | 0 <= r < |steady(place)| && e in steady(place)[r] && !Less(pos, e.pos) ::
               Accounted(b, IndexTarget(place.index, e.pos.id))
    ensures CursorsAccounted(steady, WithCursor(RetainedNow(ReleasedNow(b, o)), place, pos)) <==>
            !PointsInto(steady, place, pos, OnRows(b))
  {
    var c := WithCursor(RetainedNow(ReleasedNow(b, o)), place, pos);
    assert c.store.cursors == map[place := pos];
    assert forall t: Target :: Accounted(c, Some(t)) <==> t in b.retained;
  }

  /** A target on the retry schedule is lost that way. */
  lemma ResumedMidStepExample(steady: Place -> seq<seq<Entry>>, post: Entry, o: Outcomes)
    requires steady(Place(Timeline, 7)) == [[post]]
    ensures var place, t := Place(Timeline, 7), Target(Post, post.pos.id);
            var b := Books(Store(true, map[], map[t := 1], {}, map[7 := false]), {}, {}, map[t := 1], map[t := 1], 0);
            && CursorsAccounted(steady, WithCursor(b, place, post.pos))
            && !CursorsAccounted(steady, WithCursor(RetainedNow(ReleasedNow(b, o)), place, post.pos))
  {
    var place, t := Place(Timeline, 7), Target(Post, post.pos.id);
    var b := Books(Store(true, map[], map[t := 1], {}, map[7 := false]), {}, {}, map[t := 1], map[t := 1], 0);
    NotBoth(post.pos, post.pos);
    assert post in steady(place)[0] && PointsInto(steady, place, post.pos, OnRows(b));
    ResumedMidStepIff(steady, b, place, post.pos, o);
  }

  /** Whether such a cursor outlasts the rows that the next step opens, so that the entries behind it
      stay unread: exactly when its day lies in the period and is not opened anew. The in-memory store
      opens every day anew, which drops the cursor; the SQLite store has kept the rows. */
  lemma ResumedCursorLastsIff(b: Books, place: Place, pos: Pos, o: Outcomes, created: set<nat>, cutoff: nat)
    ensures var c := WithCursor(RetainedNow(ReleasedNow(b, o)), place, pos);
            place in Opened(c.store, created, cutoff).cursors <==>
            place.bucket >= cutoff && (place.bucket in created ==> o.keepsDays && place.bucket in b.store.days)
  {
  }

  // ------------------------------------------------------------------ entries that arrive later

  /** The steady readers, one of which has gained an entry. */
  function WithEntry(steady: Place -> seq<seq<Entry>>, place: Place, s: nat, e: Entry): (f: Place -> seq<seq<Entry>>)
    requires s < |steady(place)|
  {
    (p: Place) => if p == place then steady(p)[s := steady(p)[s] + [e]] else steady(p)
  }

  /** No stored cursor has passed the entry, or what it points at is settled anyway. */
  predicate InTime(b: Books, place: Place, e: Entry) {
    || place !in b.store.cursors || Less(b.store.cursors[place], e.pos)
    || Settled(b, IndexTarget(place.index, e.pos.id))
  }

  /** A reader gains an entry: no stored cursor has passed an unsettled entry then if and only if it
      arrives in time. A question starts at the cursor, so nothing makes up for it. */
  lemma ArrivesIff(steady: Place -> seq<seq<Entry>>, b: Books, place: Place, s: nat, e: Entry)
    requires CursorsSettled(steady, b) && s < |steady(place)|
    ensures CursorsSettled(WithEntry(steady, place, s, e), b) <==> InTime(b, place, e)
  {
    var more := WithEntry(steady, place, s, e);
    assert more(place)[s] == steady(place)[s] + [e] && e in more(place)[s];
    if InTime(b, place, e) {
      forall p ensures CursorSettled(more, b, p) {
        assert CursorSettled(steady, b, p);
      }
    } else {
      assert !CursorSettled(more, b, place);
    }
  }

  /** A reader more, of which nothing is known yet. */
  function WithReader(steady: Place -> seq<seq<Entry>>, place: Place): (f: Place -> seq<seq<Entry>>) {
    (p: Place) => if p == place then steady(p) + [[]] else steady(p)
  }

  /** A reader less. */
  function WithoutReader(steady: Place -> seq<seq<Entry>>, place: Place, s: nat): (f: Place -> seq<seq<Entry>>)
    requires s < |steady(place)|
  {
    (p: Place) => if p == place then steady(p)[..s] + steady(p)[s + 1..] else steady(p)
  }

  /** Whatever is known of the readers afterwards was known before. */
  lemma KnownBefore(was: Place -> seq<seq<Entry>>, now: Place -> seq<seq<Entry>>, b: Books)
    requires CursorsSettled(was, b)
    requires forall place, r, e | 0 <= r < |now(place)| && e in now(place)[r] ::
               exists q :: 0 <= q < |was(place)| && e in was(place)[q]
    ensures CursorsSettled(now, b)
  {
    forall p ensures CursorSettled(now, b, p) {
      assert CursorSettled(was, b, p);
    }
  }

  // ------------------------------------------------------------------ the books as a history

  /** One change of the books. A topic is released between two steps, or in the middle of one. */
  datatype Change =
    | EntryTaken(target: Target)
    | RetryTaken(target: Target)
    | KeyFailed(target: Target)
    | CursorPut(place: Place, pos: Pos)
    | DaysOpened(created: set<nat>)
    | CursorsPruned(before: nat)
    | DayFinished(bucket: nat)
    | TopicReleased(midStep: bool)
    | TopicRetained

  function Apply(b: Books, c: Change, o: Outcomes): (r: Books) {
    match c
    case EntryTaken(t) => Take(b, t, o)
    case RetryTaken(t) => Retry(b, t, o)
    case KeyFailed(t) => Fail(b, t, o)
    case CursorPut(place, pos) => WithCursor(b, place, pos)
    case DaysOpened(created) => b.(store := OpenDays(b.store, created))
    case CursorsPruned(before) => b.(store := PruneCursors(b.store, before))
    case DayFinished(bucket) => b.(store := FinishDay(b.store, bucket))
    case TopicReleased(midStep) =>
      if midStep then ReleasedNow(b, o) else b.(store := Release(b.store, o.keepsDays), lost := {})
    case TopicRetained => RetainedNow(b)
  }

  function NoBooks(): (b: Books) { Books(Store(false, map[], map[], {}, map[]), {}, {}, map[], map[], 0) }

  /** The books after a history of changes. */
  function Replay(log: seq<Change>, o: Outcomes): (b: Books) {
    if log == [] then NoBooks() else Apply(Replay(log[..|log| - 1], o), log[|log| - 1], o)
  }

  /** The books before the i-th change. */
  function BooksAt(log: seq<Change>, i: nat, o: Outcomes): (b: Books)
    requires i <= |log|
  {
    Replay(log[..i], o)
  }

  /** `past` are the books before each change of `log`, and `b` those after the last. */
  ghost predicate Traced(past: seq<Books>, log: seq<Change>, b: Books, o: Outcomes) {
    && |past| == |log| && BooksIn(past, b, 0) == NoBooks()
    && forall i | 0 <= i < |past| :: LeadsOn(past, log, b, o, i)
  }

  function BooksIn(past: seq<Books>, b: Books, i: nat): (r: Books) { if i < |past| then past[i] else b }

  ghost predicate LeadsOn(past: seq<Books>, log: seq<Change>, b: Books, o: Outcomes, i: nat)
    requires i < |past| == |log|
  {
    BooksIn(past, b, i + 1) == Apply(past[i], log[i], o)
  }

  lemma OneMoreChange(past: seq<Books>, log: seq<Change>, b: Books, c: Change, o: Outcomes)
    requires Traced(past, log, b, o)
    ensures Traced(past + [b], log + [c], Apply(b, c, o), o)
  {
    forall i | 0 <= i < |past| + 1
      ensures LeadsOn(past + [b], log + [c], Apply(b, c, o), o, i)
    {
      assert i < |past| ==> LeadsOn(past, log, b, o, i);
    }
  }

  lemma {:induction false} TracedIsReplay(past: seq<Books>, log: seq<Change>, b: Books, o: Outcomes)
    requires Traced(past, log, b, o)
    ensures b == Replay(log, o)
  {
    if log != [] {
      var n := |log| - 1;
      forall i | 0 <= i < n
        ensures LeadsOn(past[..n], log[..n], past[n], o, i)
      {
        assert LeadsOn(past, log, b, o, i);
      }
      assert LeadsOn(past, log, b, o, n);
      TracedIsReplay(past[..n], log[..n], past[n], o);
    }
  }

  /** After every history no target stands without its reason, and no row of a topic is stored that is
      not retained. */
  lemma {:induction false} HistoryIsFair(log: seq<Change>, o: Outcomes)
    ensures Fair(Replay(log, o), o) && RowsOwned(Replay(log, o).store, o.keepsDays)
  {
    if log == [] {
      forall t ensures FairTo(NoBooks(), o, t) {}
    } else {
      var n := |log| - 1;
      HistoryIsFair(log[..n], o);
      ChangeIsFair(Replay(log[..n], o), log[n], o);
      ChangeOwnsRows(Replay(log[..n], o), log[n], o);
    }
  }

  lemma ChangeIsFair(b: Books, c: Change, o: Outcomes)
    requires Fair(b, o)
    ensures Fair(Apply(b, c, o), o)
  {
    match c
    case EntryTaken(t) => TakeIsFair(b, t, o);
    case RetryTaken(t) => RetryKeeps(b, t, o);
    case KeyFailed(t) => FailIsFair(b, t, o);
    case TopicReleased(midStep) =>
      ReleaseKeeps(b, o);
      StaysFair(ReleasedNow(b, o), Apply(b, c, o), o);
    case _ => StaysFair(b, Apply(b, c, o), o);
  }

  lemma ChangeOwnsRows(b: Books, c: Change, o: Outcomes)
    requires RowsOwned(b.store, o.keepsDays)
    ensures RowsOwned(Apply(b, c, o).store, o.keepsDays)
  {
  }

  predicate Succeeds(b: Books, c: Change, t: Target, o: Outcomes) {
    (c == EntryTaken(t) || c == RetryTaken(t)) && o.takes(t, Count(b.tries, t))
  }

  predicate Fails(b: Books, c: Change, t: Target, o: Outcomes) {
    c == KeyFailed(t) || ((c == EntryTaken(t) || c == RetryTaken(t)) && !o.takes(t, Count(b.tries, t)))
  }

  /** Some attempt to take the target in completed. */
  predicate EverWhole(log: seq<Change>, t: Target, o: Outcomes) {
    exists i | 0 <= i < |log| :: Succeeds(BooksAt(log, i, o), log[i], t, o)
  }

  /** The i-th change fails the target while the topic is retained. */
  predicate FailsAt(log: seq<Change>, i: nat, t: Target, o: Outcomes)
    requires i < |log|
  {
    BooksAt(log, i, o).store.topic && Fails(BooksAt(log, i, o), log[i], t, o)
  }

  /** The target failed while the topic was retained, and the topic has not been released since. */
  predicate FailedSinceRelease(log: seq<Change>, t: Target, o: Outcomes) {
    exists i | 0 <= i < |log| ::
      FailsAt(log, i, t, o) && forall j | i < j < |log| :: !log[j].TopicReleased?
  }

  /** After every history, a target is accounted for if and only if it was taken in whole at some
      time or has failed, with the topic retained, since the last release. */
  lemma {:induction false} AccountedIff(log: seq<Change>, t: Target, o: Outcomes)
    ensures t in Replay(log, o).retained <==> EverWhole(log, t, o)
    ensures Accounted(Replay(log, o), Some(t)) <==> EverWhole(log, t, o) || FailedSinceRelease(log, t, o)
  {
    if log != [] {
      var n := |log| - 1;
      AccountedIff(log[..n], t, o);
      AccountedStep(Replay(log[..n], o), log[n], t, o);
      WholeStep(log, t, o);
      FailedStep(log, n, t, o);
    }
  }

  lemma AccountedStep(b: Books, c: Change, t: Target, o: Outcomes)
    ensures var r := Apply(b, c, o);
            && (t in r.retained <==> t in b.retained || Succeeds(b, c, t, o))
            && (Accounted(r, Some(t)) <==>
                  || t in r.retained
                  || (!c.TopicReleased? && (Accounted(b, Some(t)) || (b.store.topic && Fails(b, c, t, o)))))
  {
    match c
    case EntryTaken(u) => TakeAccounts(b, u, t, o);
    case RetryTaken(u) => TakeAccounts(b, u, t, o);
    case KeyFailed(u) => FailAccounts(b, u, t, o);
    case _ =>
  }

  lemma FailAccounts(b: Books, u: Target, t: Target, o: Outcomes)
    ensures var r := Fail(b, u, o);
            && r.retained == b.retained
            && (Accounted(r, Some(t)) <==> Accounted(b, Some(t)) || (b.store.topic && t == u))
  {
  }

  lemma TakeAccounts(b: Books, u: Target, t: Target, o: Outcomes)
    ensures var r, whole := Take(b, u, o), o.takes(u, Count(b.tries, u));
            && r.retained == (if whole then b.retained + {u} else b.retained)
            && (Accounted(r, Some(t)) <==> Accounted(b, Some(t)) || (t == u && (whole || b.store.topic)))
  {
    FailAccounts(b.(tries := b.tries[u := Count(b.tries, u) + 1]), u, t, o);
  }

  /** A prefix of a history leads through the same books. */
  lemma SameBooks(log: seq<Change>, n: nat, i: nat, o: Outcomes)
    requires i <= n <= |log|
    ensures BooksAt(log[..n], i, o) == BooksAt(log, i, o)
  {
    assert log[..n][..i] == log[..i];
  }

  lemma WholeStep(log: seq<Change>, t: Target, o: Outcomes)
    requires log != []
    ensures var n := |log| - 1;
            EverWhole(log, t, o) <==> EverWhole(log[..n], t, o) || Succeeds(BooksAt(log, n, o), log[n], t, o)
  {
    var n := |log| - 1;
    forall i | 0 <= i < n
      ensures Succeeds(BooksAt(log[..n], i, o), log[..n][i], t, o) <==> Succeeds(BooksAt(log, i, o), log[i], t, o)
    {
      SameBooks(log, n, i, o);
    }
  }

  lemma SameFailures(log: seq<Change>, n: nat, i: nat, t: Target, o: Outcomes)
    requires i < n <= |log|
    ensures FailsAt(log[..n], i, t, o) <==> FailsAt(log, i, t, o)
  {
    SameBooks(log, n, i, o);
  }

  lemma FailedBefore(log: seq<Change>, n: nat, t: Target, o: Outcomes)
    requires n == |log| - 1 && !log[n].TopicReleased? && FailedSinceRelease(log[..n], t, o)
    ensures FailedSinceRelease(log, t, o)
  {
    var was := log[..n];
    var i :| 0 <= i < n && FailsAt(was, i, t, o) && forall j | i < j < n :: !was[j].TopicReleased?;
    SameFailures(log, n, i, t, o);
    assert forall j | i < j < n :: was[j] == log[j];
  }

  lemma FailedStep(log: seq<Change>, n: nat, t: Target, o: Outcomes)
    requires n == |log| - 1
    ensures FailedSinceRelease(log, t, o) <==>
            !log[n].TopicReleased? && (FailedSinceRelease(log[..n], t, o) || FailsAt(log, n, t, o))
  {
    if FailedSinceRelease(log, t, o) {
      var i :| 0 <= i <= n && FailsAt(log, i, t, o) && forall j | i < j <= n :: !log[j].TopicReleased?;
      if i < n {
        SameFailures(log, n, i, t, o);
        assert forall j | i < j < n :: log[..n][j] == log[j];
      }
    } else if !log[n].TopicReleased? && FailedSinceRelease(log[..n], t, o) {
      FailedBefore(log, n, t, o);
    }
  }

  /** A release in the middle of a step meets a target that stands on the rows alone, or a target
      fails while the topic is not retained. */
  ghost predicate Drops(b: Books, c: Change, o: Outcomes) {
    || (c == TopicReleased(true) && OnRows(b) != {})
    || (!b.store.topic && exists t :: Fails(b, c, t, o))
  }

  /** Nothing has been dropped since the last release between two steps. */
  ghost predicate NothingDropped(log: seq<Change>, o: Outcomes) {
    forall i {:trigger DropsAt(log, i, o)} | 0 <= i < |log| :: DropsAt(log, i, o) ==> ReleasedAfter(log, i)
  }

  ghost predicate DropsAt(log: seq<Change>, i: nat, o: Outcomes)
    requires i < |log|
  {
    Drops(BooksAt(log, i, o), log[i], o)
  }

  predicate ReleasedAfter(log: seq<Change>, i: nat) {
    exists j | i < j < |log| :: log[j] == TopicReleased(false)
  }

  lemma {:induction false} LostIff(log: seq<Change>, o: Outcomes)
    ensures Replay(log, o).lost == {} <==> NothingDropped(log, o)
  {
    if log != [] {
      var n := |log| - 1;
      LostIff(log[..n], o);
      DropStep(log, o);
      LostStep(Replay(log[..n], o), log[n], o);
    }
  }

  lemma LostStep(b: Books, c: Change, o: Outcomes)
    ensures Apply(b, c, o).lost == {} <==> c == TopicReleased(false) || (b.lost == {} && !Drops(b, c, o))
  {
    match c
    case EntryTaken(t) => assert !o.takes(t, Count(b.tries, t)) ==> Fails(b, c, t, o);
    case RetryTaken(t) => assert !o.takes(t, Count(b.tries, t)) ==> Fails(b, c, t, o);
    case KeyFailed(t) => assert Fails(b, c, t, o);
    case _ =>
  }

  lemma DropStep(log: seq<Change>, o: Outcomes)
    requires log != []
    ensures var n := |log| - 1;
            NothingDropped(log, o) <==>
            || log[n] == TopicReleased(false)
            || (NothingDropped(log[..n], o) && !DropsAt(log, n, o))
  {
    var n := |log| - 1;
    if log[n] == TopicReleased(false) {
      assert !DropsAt(log, n, o);
      assert forall i | 0 <= i < n :: ReleasedAfter(log, i);
    } else {
      forall i | 0 <= i < n
        ensures DropsAt(log, i, o) <==> DropsAt(log[..n], i, o)
        ensures ReleasedAfter(log, i) <==> ReleasedAfter(log[..n], i)
      {
        SameBooks(log, n, i, o);
        if j :| i < j < n && log[..n][j] == TopicReleased(false) {
          assert log[j] == TopicReleased(false);
        }
      }
      assert NothingDropped(log, o) ==> !DropsAt(log, n, o);
    }
  }

  /** After every history that drops nothing, sound cursors have passed accounted targets only. */
  lemma NothingDroppedMeans(steady: Place -> seq<seq<Entry>>, log: seq<Change>, o: Outcomes)
    requires CursorsSettled(steady, Replay(log, o)) && NothingDropped(log, o)
    ensures CursorsAccounted(steady, Replay(log, o))
  {
    LostIff(log, o);
    var b := Replay(log, o);
    forall place, r, e | place in b.store.cursors && 0 <= r < |steady(place)| && e in steady(place)[r]
                         && !Less(b.store.cursors[place], e.pos)
      ensures Accounted(b, IndexTarget(place.index, e.pos.id))
    {
      assert CursorSettled(steady, b, place);
    }
  }

  /** What each entry behind a stored cursor names was taken in whole at some time of the history, or
      has failed, with the topic retained, since the last release. */
  ghost predicate BehindStands(steady: Place -> seq<seq<Entry>>, cursors: map<Place, Pos>, log: seq<Change>,
                               o: Outcomes) {
    forall place, r, e, t | place in cursors && 0 <= r < |steady(place)| && e in steady(place)[r]
                            && !Less(cursors[place], e.pos) && Names(place.index, e.pos.id, t) ::
      EverWhole(log, t, o) || FailedSinceRelease(log, t, o)
  }

  /** After every history, that is exactly when the cursors have passed accounted targets only. */
  lemma CursorsAccountedIff(steady: Place -> seq<seq<Entry>>, log: seq<Change>, o: Outcomes)
    ensures CursorsAccounted(steady, Replay(log, o)) <==>
            BehindStands(steady, Replay(log, o).store.cursors, log, o)
  {
    forall t: Target { AccountedIff(log, t, o); }
    forall index, id, t { IndexTargetIff(index, id, t); }
  }
}
