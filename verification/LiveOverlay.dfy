/** The ledger of live overlay pushes: a bounded, time-limited filter that lets each signed
    event through once. It holds a map of events and an ordered set of expiries. */
module LiveOverlay {
  import opened ChannelId
  import opened Order

  const TTL: int := 10_000
  const AHEAD: int := 2_000
  const SEEN_LIMIT: nat := 4096
  const CONTENT_LIMIT: nat := 4096
  const PUSH_KIND := "live-overlay-push-v1"

  /** `i64::saturating_add`. */
  function SatAdd(a: int, b: int): (r: int) {
    if a + b > I64_MAX then I64_MAX else if a + b < I64_MIN then I64_MIN else a + b
  }

  function Expiry(sentAt: int): (at: int) { SatAdd(sentAt, TTL) }

  /** A received envelope with its parsed payload. `verified` stands for the signature and for
      a payload that parses; the id is the hash of the content, so it determines the rest. */
  datatype Envelope = Envelope(id: string, kind: string, length: nat, verified: bool, version: nat,
                               nonce: string, topic: string, channel: string, sentAt: int)

  datatype View = View(id: string, sentAt: int, receivedAt: int)

  type Events = map<string, View>

  predicate IsHex(c: char) { '0' <= c <= '9' || 'a' <= c <= 'f' || 'A' <= c <= 'F' }

  predicate Admissible(e: Envelope, topic: string, channel: string, now: int) {
    && e.kind == PUSH_KIND && e.length <= CONTENT_LIMIT && e.verified
    && e.version == 1 && |e.nonce| == 32 && (forall i | 0 <= i < |e.nonce| :: IsHex(e.nonce[i]))
    && e.topic == topic && e.channel == channel && PublicChannelId(channel)
    && e.sentAt <= SatAdd(now, AHEAD) && Expiry(e.sentAt) > now
  }

  /** A clock reading or a time in a payload. */
  predicate IsTime(t: int) { I64_MIN <= t <= I64_MAX }

  /** A well-formed push for this public channel, sent less than ten seconds ago and at most two seconds ahead. */
  ghost predicate Timely(e: Envelope, topic: string, channel: string, now: int) {
    && e.kind == "live-overlay-push-v1" && e.verified && e.length <= 4096
    && e.version == 1 && |e.nonce| == 32 && (forall c | c in e.nonce :: c in "0123456789abcdefABCDEF")
    && e.topic == topic && e.channel == channel && NamesChannel(channel)
    && -2_000 <= now - e.sentAt < 10_000
  }

  lemma NonceDigit(c: char)
    ensures IsHex(c) <==> c in "0123456789abcdefABCDEF"
  {
    var all := "0123456789abcdefABCDEF";
    if '0' <= c <= '9' {
      assert all[c as int - '0' as int] == c;
    } else if 'a' <= c <= 'f' {
      assert all[10 + c as int - 'a' as int] == c;
    } else if 'A' <= c <= 'F' {
      assert all[16 + c as int - 'A' as int] == c;
    }
  }

  /** The saturating sums of the check mean that window, but for a clock at the end of time. */
  lemma AdmissibleIff(e: Envelope, topic: string, channel: string, now: int)
    requires IsTime(e.sentAt) && IsTime(now)
    ensures Admissible(e, topic, channel, now) <==> Timely(e, topic, channel, now) && now < I64_MAX
  {
    forall c | c in e.nonce
      ensures IsHex(c) <==> c in "0123456789abcdefABCDEF"
    {
      NonceDigit(c);
    }
    PublicChannelIdIff(channel);
    assert (forall i | 0 <= i < |e.nonce| :: IsHex(e.nonce[i])) <==> forall c | c in e.nonce :: IsHex(c);
  }

  datatype Outcome = Refused | Duplicate | Full | Accepted

  // ------------------------------------------------------------------ what the ledger means

  /** The events that have not expired. */
  function Live(events: Events, now: int): (r: Events) {
    map id | id in events && Expiry(events[id].sentAt) > now :: events[id]
  }

  function ViewOf(e: Envelope, now: int): (v: View) { View(e.id, e.sentAt, now) }

  function Decide(events: Events, e: Envelope, topic: string, channel: string, now: int): (o: Outcome) {
    if !Admissible(e, topic, channel, now) then Refused
    else if e.id in Live(events, now) then Duplicate
    else if |Live(events, now)| == SEEN_LIMIT then Full
    else Accepted
  }

  function Received(events: Events, e: Envelope, topic: string, channel: string, now: int): (r: Events) {
    match Decide(events, e, topic, channel, now)
    case Refused => events
    case Accepted => Live(events, now)[e.id := ViewOf(e, now)]
    case Duplicate => Live(events, now)
    case Full => Live(events, now)
  }

  // ------------------------------------------------------------------ the two structures

  /** Both hold the same ids, and each expiry is that of its event. */
  predicate Agree(events: Events, expiries: seq<Pos>) {
    && Ascending(expiries)
    && (forall p | p in expiries :: p.id in events && p.at == Expiry(events[p.id].sentAt))
    && forall id | id in events :: events[id].id == id && Pos(Expiry(events[id].sentAt), id) in expiries
  }

  /** One expiry per event, so one size bounds both. */
  lemma SameSize(events: Events, expiries: seq<Pos>)
    requires Agree(events, expiries)
    ensures |events| == |expiries|
    decreases |expiries|
  {
    if expiries == [] {
      assert forall id | id in events :: false;
      assert events == map[];
    } else {
      var p := expiries[0];
      var rest := events - {p.id};
      Popped(events, expiries);
      SameSize(rest, expiries[1..]);
      assert events.Keys == rest.Keys + {p.id};
    }
  }

  /** Taking the first expiry out with its event keeps them in agreement. */
  lemma Popped(events: Events, expiries: seq<Pos>)
    requires Agree(events, expiries) && expiries != []
    ensures expiries[0].id in events && Agree(events - {expiries[0].id}, expiries[1..])
  {
    var p, rest := expiries[0], expiries[1..];
    assert p in expiries && expiries == [p] + rest;
    forall q | q in rest
      ensures q.id != p.id
    {
      var i :| 0 <= i < |rest| && rest[i] == q;
      assert rest[i] == expiries[i + 1] && Less(p, expiries[i + 1]);
      NotBoth(p, q);
      assert q in expiries;
    }
  }

  lemma PopKeepsLive(events: Events, expiries: seq<Pos>, now: int)
    requires Agree(events, expiries) && expiries != [] && expiries[0].at <= now
    ensures Live(events - {expiries[0].id}, now) == Live(events, now)
    ensures |events - {expiries[0].id}| <= |events|
  {
  }

  lemma Added(events: Events, expiries: seq<Pos>, v: View)
    requires Agree(events, expiries) && v.id !in events
    ensures Agree(events[v.id := v], Insert(expiries, Pos(Expiry(v.sentAt), v.id)))
  {
    InsertKeepsOrder(expiries, Pos(Expiry(v.sentAt), v.id));
  }

  class Seen {
    var events: Events
    var expiries: seq<Pos>

    predicate Valid() reads this { Agree(events, expiries) && |events| <= SEEN_LIMIT }

    constructor ()
      ensures Valid() && events == map[]
    {
      events, expiries := map[], [];
    }

    /** Pops every expiry that has passed. */
    method Prune(now: int)
      requires Valid()
      modifies this
      ensures Valid() && events == Live(old(events), now)
    {
      while expiries != [] && expiries[0].at <= now
        invariant Agree(events, expiries)
        invariant Live(events, now) == Live(old(events), now)
        invariant |events| <= |old(events)|
        decreases |expiries|
      {
        Popped(events, expiries);
        PopKeepsLive(events, expiries, now);
        events := events - {expiries[0].id};
        expiries := expiries[1..];
      }
      NothingExpired(events, expiries, now);
    }

    /** `record`: checks the envelope, prunes, and enters a new event while there is room. */
    method Record(e: Envelope, topic: string, channel: string, now: int) returns (o: Outcome)
      requires Valid()
      modifies this
      ensures Valid() && o == Decide(old(events), e, topic, channel, now)
      ensures events == Received(old(events), e, topic, channel, now)
      ensures IsTime(e.sentAt) && IsTime(now) ==>
                (o.Refused? <==> !Timely(e, topic, channel, now) || now == I64_MAX)
      ensures |events| <= 4096 && (o.Full? ==> |events| == 4096 && e.id !in events)
      ensures o.Accepted? ==> e.id in events && events[e.id] == View(e.id, e.sentAt, now)
    {
      if IsTime(e.sentAt) && IsTime(now) {
        AdmissibleIff(e, topic, channel, now);
      }
      if !Admissible(e, topic, channel, now) { return Refused; }
      Prune(now);
      if e.id in events { return Duplicate; }
      if |events| == SEEN_LIMIT { return Full; }
      Enter(ViewOf(e, now));
      return Accepted;
    }

    method Enter(v: View)
      requires Valid() && v.id !in events && |events| < SEEN_LIMIT
      modifies this
      ensures Valid() && events == old(events)[v.id := v]
    {
      Added(events, expiries, v);
      assert (events[v.id := v]).Keys == events.Keys + {v.id};
      expiries := Insert(expiries, Pos(Expiry(v.sentAt), v.id));
      events := events[v.id := v];
    }

    method Get(id: string, now: int) returns (v: Option<View>)
      requires Valid()
      modifies this
      ensures Valid() && events == Live(old(events), now)
      ensures v == if id in events then Some(events[id]) else None
    {
      Prune(now);
      v := if id in events then Some(events[id]) else None;
    }
  }

  lemma NothingExpired(events: Events, expiries: seq<Pos>, now: int)
    requires Agree(events, expiries) && (expiries != [] ==> expiries[0].at > now)
    ensures Live(events, now) == events
  {
  }

  // ------------------------------------------------------------------ whole runs

  datatype Op =
    | Receive(envelope: Envelope, topic: string, channel: string, now: int)
    | Look(now: int)      // `get`, or the reaper's prune

  function Step(events: Events, op: Op): (r: Events) {
    match op
    case Receive(e, topic, channel, now) => Received(events, e, topic, channel, now)
    case Look(now) => Live(events, now)
  }

  /** The ledger after the first `n` operations. */
  function After(ops: seq<Op>, n: nat): (r: Events)
    requires n <= |ops|
  {
    if n == 0 then map[] else Step(After(ops, n - 1), ops[n - 1])
  }

  predicate Accepts(ops: seq<Op>, i: nat)
    requires i < |ops|
  {
    ops[i].Receive?
    && Decide(After(ops, i), ops[i].envelope, ops[i].topic, ops[i].channel, ops[i].now).Accepted?
  }

  predicate ClockRuns(ops: seq<Op>) { forall i, j | 0 <= i <= j < |ops| :: ops[i].now <= ops[j].now }

  /** Envelopes with one id were sent at one time. */
  predicate IdsDetermine(ops: seq<Op>) {
    forall i, j | 0 <= i < |ops| && 0 <= j < |ops| && ops[i].Receive? && ops[j].Receive?
                  && ops[i].envelope.id == ops[j].envelope.id ::
      ops[i].envelope.sentAt == ops[j].envelope.sentAt
  }

  lemma LiveSize(events: Events, now: int)
    ensures |Live(events, now)| <= |events|
  {
    var kept, all := Live(events, now).Keys, events.Keys;
    assert kept <= all;
    SubsetSize(kept, all);
  }

  lemma StepBounded(events: Events, op: Op)
    requires |events| <= SEEN_LIMIT
    ensures |Step(events, op)| <= SEEN_LIMIT
  {
    LiveSize(events, op.now);
    var live := Live(events, op.now);
    if op.Receive? && Step(events, op) != events && Step(events, op) != live {
      assert Step(events, op).Keys == live.Keys + {op.envelope.id};
    }
  }

  /** The ledger never outgrows its limit. */
  lemma {:induction false} Bounded(ops: seq<Op>, n: nat)
    requires n <= |ops|
    ensures |After(ops, n)| <= SEEN_LIMIT
  {
    if n > 0 {
      Bounded(ops, n - 1);
      StepBounded(After(ops, n - 1), ops[n - 1]);
    }
  }

  lemma StepKeepsEvent(events: Events, op: Op, id: string)
    requires id in events && op.now < Expiry(events[id].sentAt)
    ensures id in Step(events, op) && Step(events, op)[id] == events[id]
  {
  }

  /** No run loses or changes an event before its expiry. */
  lemma {:induction false} NeverLost(ops: seq<Op>, i: nat, n: nat, id: string)
    requires i <= n <= |ops| && id in After(ops, i)
    requires forall j | i <= j < n :: ops[j].now < Expiry(After(ops, i)[id].sentAt)
    ensures id in After(ops, n) && After(ops, n)[id] == After(ops, i)[id]
  {
    if i < n {
      NeverLost(ops, i, n - 1, id);
      StepKeepsEvent(After(ops, n - 1), ops[n - 1], id);
    }
  }

  /** After an event was let through, it stays in the ledger until it can no longer be
      admitted. */
  lemma {:induction false} KeptOrExpired(ops: seq<Op>, i: nat, n: nat)
    requires i < n <= |ops| && Accepts(ops, i) && ClockRuns(ops) && IdsDetermine(ops)
    ensures var e := ops[i].envelope;
            || Expiry(e.sentAt) <= ops[n - 1].now
            || (e.id in After(ops, n) && After(ops, n)[e.id].sentAt == e.sentAt)
  {
    if n > i + 1 {
      KeptOrExpired(ops, i, n - 1);
      assert ops[n - 2].now <= ops[n - 1].now;
    }
  }

  /** With a clock that does not go back, no event id is accepted twice. */
  lemma AcceptedOnce(ops: seq<Op>, i: nat, j: nat)
    requires i < j < |ops| && Accepts(ops, i) && ops[j].Receive?
    requires ops[i].envelope.id == ops[j].envelope.id && ClockRuns(ops) && IdsDetermine(ops)
    ensures !Accepts(ops, j)
  {
    KeptOrExpired(ops, i, j);
    assert ops[j - 1].now <= ops[j].now;
    assert ops[i].envelope.sentAt == ops[j].envelope.sentAt;
  }

  /** The operation prunes the ledger: any look, and any receipt that passes the checks. */
  predicate Prunes(op: Op) { op.Look? || Admissible(op.envelope, op.topic, op.channel, op.now) }

  /** Some operation after `i` and before `n` pruned at or after the expiry of the event of `i`. */
  predicate PrunedAway(ops: seq<Op>, i: nat, n: nat)
    requires i < n <= |ops| && ops[i].Receive?
  {
    exists k | i < k < n :: Prunes(ops[k]) && Expiry(ops[i].envelope.sentAt) <= ops[k].now
  }

  predicate AcceptsAnew(ops: seq<Op>, i: nat, k: nat)
    requires i < |ops| && k < |ops| && ops[i].Receive?
  {
    Accepts(ops, k) && ops[k].envelope.id == ops[i].envelope.id
  }

  lemma PrunedOneMore(ops: seq<Op>, i: nat, n: nat)
    requires i + 1 < n <= |ops| && ops[i].Receive?
    ensures PrunedAway(ops, i, n) <==>
            PrunedAway(ops, i, n - 1) || (Prunes(ops[n - 1]) && Expiry(ops[i].envelope.sentAt) <= ops[n - 1].now)
  {
  }

  /** One operation that does not accept the event anew keeps it, unless it prunes it away. */
  lemma HeldOneMore(events: Events, op: Op, id: string)
    requires op.Receive? && op.envelope.id == id ==>
               !Decide(events, op.envelope, op.topic, op.channel, op.now).Accepted?
    ensures id in Step(events, op) <==>
            id in events && !(Prunes(op) && Expiry(events[id].sentAt) <= op.now)
    ensures id in Step(events, op) ==> Step(events, op)[id] == events[id]
  {
  }

  /** From one acceptance to the next, the event is in the ledger exactly until it is pruned away. */
  lemma {:induction false} HeldIffNotPruned(ops: seq<Op>, i: nat, n: nat)
    requires i < n <= |ops| && Accepts(ops, i) && forall k | i < k < n :: !AcceptsAnew(ops, i, k)
    ensures var e := ops[i].envelope;
            && (e.id in After(ops, n) <==> !PrunedAway(ops, i, n))
            && (e.id in After(ops, n) ==> After(ops, n)[e.id].sentAt == e.sentAt)
  {
    if n > i + 1 {
      HeldIffNotPruned(ops, i, n - 1);
      PrunedOneMore(ops, i, n);
      assert !AcceptsAnew(ops, i, n - 1);
      HeldOneMore(After(ops, n - 1), ops[n - 1], ops[i].envelope.id);
    }
  }

  /** Exactly when an event is accepted again, whatever the clock does: a receipt that passes the
      checks and finds room is accepted if and only if the ledger was pruned, since the last
      acceptance, at or after the expiry of the event. */
  lemma AcceptedAgainIff(ops: seq<Op>, i: nat, j: nat)
    requires i < j < |ops| && Accepts(ops, i) && forall k | i < k < j :: !AcceptsAnew(ops, i, k)
    requires ops[j].Receive? && ops[j].envelope.id == ops[i].envelope.id && IdsDetermine(ops)
    requires Admissible(ops[j].envelope, ops[j].topic, ops[j].channel, ops[j].now)
    requires |Live(After(ops, j), ops[j].now)| < SEEN_LIMIT
    ensures Accepts(ops, j) <==> PrunedAway(ops, i, j)
  {
    HeldIffNotPruned(ops, i, j);
    assert ops[i].envelope.sentAt == ops[j].envelope.sentAt;
  }

  /** It is the clock that this rests on: an event received, found expired by a later look, and
      received again under an earlier reading of the clock is let through twice. */
  lemma ClockBackExample(e: Envelope)
    requires Admissible(e, e.topic, e.channel, e.sentAt) && 0 <= e.sentAt < I64_MAX - TTL
    ensures var ops := [Receive(e, e.topic, e.channel, e.sentAt), Look(e.sentAt + TTL),
                        Receive(e, e.topic, e.channel, e.sentAt)];
            Accepts(ops, 0) && Accepts(ops, 2)
  {
  }
}
