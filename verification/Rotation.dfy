/** Key rotation of a private channel on the controlling device: the reserved epoch row, the
    two policy writes, the commit of the current epoch, and the paged hand-over of the new key.

    An epoch id is modelled by its start time: one owner makes them all, and the start time is
    the part that differs. A write that fails and a crash before it leave the same stores, so
    both are an early return of the method that was to make it. */
module Rotation {
  import opened Order

  type Epoch = int

  /** A key row. `from` marks a rotation that is not finished; `after` is its hand-over cursor. */
  datatype Row = Row(secret: string, from: Option<Epoch>, after: Option<string>)

  datatype Policy = Policy(epoch: Epoch, open: bool, previous: Option<Epoch>, entry: Option<string>)

  /** The durable state of one channel: key rows, one policy per epoch replica, and the
      current epoch of the membership row. */
  datatype Channel = Channel(rows: map<Epoch, Row>, policies: map<Epoch, Policy>, current: Epoch)

  // ------------------------------------------------------------------ what must hold

  predicate IsOpen(c: Channel, e: Epoch) { e in c.policies && c.policies[e].open }

  predicate IsFrozen(c: Channel, e: Epoch) { e in c.policies && !c.policies[e].open }

  /** The guards of an import by a token of epoch `e`. */
  predicate Admits(c: Channel, e: Epoch) { IsOpen(c, e) && c.policies[e].epoch == e }

  predicate Superseded(c: Channel, e: Epoch) {
    e < c.current || exists n | n in c.policies :: c.policies[n].previous == Some(e)
  }

  predicate AtMostOneOpen(c: Channel) {
    forall d, e | d in c.policies && e in c.policies && IsOpen(c, d) && IsOpen(c, e) :: d == e
  }

  predicate OpenAfterFrozen(c: Channel) {
    forall e | e in c.policies && c.policies[e].previous.Some? ::
      IsFrozen(c, c.policies[e].previous.value)
  }

  predicate SupersededClosed(c: Channel) {
    forall e | e in c.policies && Superseded(c, e) :: !Admits(c, e)
  }

  predicate Safe(c: Channel) { AtMostOneOpen(c) && OpenAfterFrozen(c) && SupersededClosed(c) }

  // ------------------------------------------------------------------ the invariant

  /** Past the current epoch there is at most one row: the reservation made from it. */
  predicate OneReservation(c: Channel) {
    && c.current in c.rows
    && (forall e | e in c.rows && e > c.current ::
         c.rows[e].from == Some(c.current) && c.rows[e].after.None?)
    && (forall d, e | d in c.rows && e in c.rows && d > c.current && e > c.current :: d == e)
    && forall e | e in c.rows && c.rows[e].from.Some? ::
         c.rows[e].from.value < e && c.rows[e].from.value in c.rows
  }

  predicate PoliciesChained(c: Channel) {
    forall e | e in c.policies ::
      && e in c.rows
      && c.policies[e].epoch == e
      && (e < c.current ==> !c.policies[e].open)
      && (e > c.current ==> c.policies[e].previous == Some(c.current))
      && (c.policies[e].previous.Some? ==>
            c.policies[e].previous.value < e && IsFrozen(c, c.policies[e].previous.value))
  }

  predicate Chain(c: Channel) { OneReservation(c) && PoliciesChained(c) }

  lemma ChainIsSafe(c: Channel)
    requires Chain(c)
    ensures Safe(c)
  {
  }

  // ------------------------------------------------------------------ single writes

  /** The next id: now, but at least one millisecond after the current epoch. */
  function NextEpoch(now: int, current: Epoch): (e: Epoch)
    ensures e > current && e >= now
  {
    if now > current + 1 then now else current + 1
  }

  function Put(c: Channel, p: Policy): (r: Channel) { c.(policies := c.policies[p.epoch := p]) }

  function PolicyOf(c: Channel, e: Epoch): (p: Policy) {
    if e in c.policies then c.policies[e] else Policy(e, true, None, None)
  }

  function Frozen(c: Channel, e: Epoch): (r: Channel) { Put(c, PolicyOf(c, e).(open := false)) }

  function Opened(c: Channel, e: Epoch, entry: Option<string>): (r: Channel) {
    Put(c, Policy(e, true, Some(c.current), entry))
  }

  function Reserved(c: Channel, e: Epoch, secret: string): (r: Channel) {
    c.(rows := c.rows[e := Row(secret, Some(c.current), None)])
  }

  /** `set_private_channel_rotation`: no cursor means the rotation is over. */
  function SetAfter(c: Channel, e: Epoch, after: Option<string>): (r: Channel) {
    if e !in c.rows then c
    else c.(rows := c.rows[e := c.rows[e].(after := after, from := if after.None? then None else c.rows[e].from)])
  }

  lemma ReservedKeepsChain(c: Channel, e: Epoch, secret: string)
    requires Chain(c) && e > c.current && forall d | d in c.rows :: d <= c.current
    ensures Chain(Reserved(c, e, secret))
  {
  }

  lemma FrozenKeepsChain(c: Channel, e: Epoch)
    requires Chain(c) && e <= c.current && e in c.rows
    ensures Chain(Frozen(c, e)) && IsFrozen(Frozen(c, e), e)
  {
  }

  lemma OpenedKeepsChain(c: Channel, e: Epoch, entry: Option<string>)
    requires Chain(c) && e in c.rows && e > c.current && IsFrozen(c, c.current)
    ensures Chain(Opened(c, e, entry))
  {
  }

  lemma CommitKeepsChain(c: Channel, e: Epoch)
    requires Chain(c) && e in c.rows && e > c.current && IsFrozen(c, c.current) && e in c.policies
    ensures Chain(c.(current := e))
  {
  }

  lemma SetAfterKeepsChain(c: Channel, e: Epoch, after: Option<string>)
    requires Chain(c) && e <= c.current
    ensures Chain(SetAfter(c, e, after))
  {
  }

  lemma EntryKeepsChain(c: Channel, e: Epoch, entry: Option<string>)
    requires Chain(c) && e in c.policies
    ensures Chain(Put(c, c.policies[e].(entry := entry)))
  {
    var r := Put(c, c.policies[e].(entry := entry));
    assert r.policies.Keys == c.policies.Keys;
    assert forall d | d in c.policies :: IsFrozen(r, d) == IsFrozen(c, d);
    assert forall d | d in c.policies :: r.policies[d].previous == c.policies[d].previous;
  }

  // ------------------------------------------------------------------ writes from an old read

  /** `set_private_channel_entry_dome` writes back the policy it read, with a new entry. When a
      rotation ran in between, the write is safe exactly if what was read was already frozen,
      or the epoch is still current and no later epoch has been opened. */
  lemma EntryWriteSafeIff(c: Channel, read: Policy, entry: Option<string>)
    requires Chain(c) && read.epoch in c.policies && read.epoch <= c.current
    requires read.previous == c.policies[read.epoch].previous
    ensures Safe(Put(c, read.(entry := entry))) <==>
            !read.open || (read.epoch == c.current && forall e | e in c.policies :: e <= c.current)
  {
    var r, e := Put(c, read.(entry := entry)), read.epoch;
    assert forall d | d in c.policies && d != e :: r.policies[d] == c.policies[d];
    assert forall d | d in c.policies && d != e :: IsFrozen(r, d) == IsFrozen(c, d);
    if !read.open || (e == c.current && forall n | n in c.policies :: n <= c.current) {
      assert Chain(r);
      ChainIsSafe(r);
    } else if e < c.current {
      assert Superseded(r, e) && Admits(r, e);
    } else {
      var n :| n in c.policies && n > c.current;
      assert r.policies[n].previous == Some(e);
      assert Superseded(r, e) && Admits(r, e);
    }
  }

  /** The same for the policy a rotation writes for its new epoch: a commit delayed until after
      a later rotation reopens a superseded epoch. */
  lemma OpenWriteSafeIff(c: Channel, from: Epoch, e: Epoch, entry: Option<string>)
    requires Chain(c) && e in c.rows
    requires if e > c.current then from == c.current
             else e in c.policies && c.policies[e].previous == Some(from)
    ensures Safe(Put(c, Policy(e, true, Some(from), entry))) <==>
            if e > c.current then IsFrozen(c, c.current)
            else e == c.current && forall n | n in c.policies :: n <= c.current
  {
    var r := Put(c, Policy(e, true, Some(from), entry));
    assert r.policies[e].previous == Some(from);
    assert forall d | d in c.policies && d != e :: r.policies[d] == c.policies[d];
    assert forall d | d in c.policies && d != e :: IsFrozen(r, d) == IsFrozen(c, d);
    if e > c.current {
      if IsFrozen(c, c.current) {
        OpenedKeepsChain(c, e, entry);
        ChainIsSafe(r);
      }
    } else if e == c.current && forall n | n in c.policies :: n <= c.current {
      assert Chain(r);
      ChainIsSafe(r);
    } else if e < c.current {
      assert Superseded(r, e) && Admits(r, e);
    } else {
      var n :| n in c.policies && n > c.current;
      assert r.policies[n].previous == Some(e);
      assert Superseded(r, e) && Admits(r, e);
    }
  }

  /** A channel created at 0 and rotated to epoch 1, while an entry-Dome call that had read the
      open policy of epoch 0 was waiting: its write leaves both epochs open. */
  lemma StaleEntryExample(entry: Option<string>)
    ensures
      var created := Channel(map[0 := Row("a", None, None)], map[0 := Policy(0, true, None, None)], 0);
      var rotated := Opened(Frozen(Reserved(created, 1, "b"), 0), 1, None).(current := 1);
      && Chain(created) && Chain(rotated)
      && var late := Put(rotated, created.policies[0].(entry := entry));
         IsOpen(late, 0) && IsOpen(late, 1) && Admits(late, 0) && Superseded(late, 0)
  {
  }

  /** A channel rotated from epoch 0 to 1 and on to 2, while a first rotate call that had read epoch
      0 as current was waiting to write the policy of epoch 1: its write leaves 1 and 2 open. */
  lemma DelayedOpenExample(entry: Option<string>)
    ensures
      var created := Channel(map[0 := Row("a", None, None)], map[0 := Policy(0, true, None, None)], 0);
      var once := Opened(Frozen(Reserved(created, 1, "b"), 0), 1, entry).(current := 1);
      var twice := Opened(Frozen(Reserved(once, 2, "c"), 1), 2, entry).(current := 2);
      && Chain(twice)
      && var late := Put(twice, Policy(1, true, Some(0), entry));
         IsOpen(late, 1) && IsOpen(late, 2) && Admits(late, 1) && Superseded(late, 1)
  {
    var created := Channel(map[0 := Row("a", None, None)], map[0 := Policy(0, true, None, None)], 0);
    var once := Opened(Frozen(Reserved(created, 1, "b"), 0), 1, entry).(current := 1);
    var twice := Opened(Frozen(Reserved(once, 2, "c"), 1), 2, entry).(current := 2);
    assert twice.policies.Keys == {0, 1, 2} && twice.rows.Keys == {0, 1, 2};
  }
}
