/** The deletion journal of a Dome together with its hosting operations, which one lock
    serialises: each may stop before any of its writes, none interleaves with another. */
module DomeDelete {
  import opened Order
  import opened HostingLog

  /** The stored copies of the instance: the canonical one, the room and its cache row all
      carry a generation and a status. */
  datatype Instance = Instance(generation: nat, active: bool, detached: bool)

  /** A deletion of one instance generation. */
  datatype Deletion = Deletion(operation: string, completed: bool, nodeUrl: Option<string>, close: Option<Record>)

  // ------------------------------------------------------------------ facts about the log

  function LeasesOf(s: Log, g: nat): (r: set<Record>) {
    set x | x in s && x.Issued? && x.lease.generation == g
  }

  function ClosedEpochs(s: Log): (r: set<nat>) { set x | x in s && x.Closed? :: x.leaseEpoch }

  /** A unique lease that targets a community node. */
  predicate ForNode(c: Current) { c.Unique? && c.signed.Issued? && c.signed.lease.host.CommunityNode? }

  /** Every lease of the generation that the log shows is closed. */
  predicate AllClosed(s: Log, g: nat) {
    forall x | x in LeasesOf(s, g) :: x.lease.epoch in ClosedEpochs(s)
  }

  /** A log that hosting operations alone have written for generations up to `g`. */
  predicate Orderly(s: Log, g: nat) {
    && MaxEpoch(s) <= U64_MAX && (s != [] ==> TopIssued(s)) && TopIsOf(s, g)
    && forall x | x in s && x.Issued? :: x.lease.generation <= g
  }

  /** Records beside a lease: acceptance, activation or close of one epoch. */
  predicate Notes(t: Log, e: nat) { forall x | x in t :: !x.Issued? && x.leaseEpoch == e }

  function NotesOf(e: nat, signed: Option<(string, string)>): (t: Log)
    ensures Notes(t, e)
  {
    if signed.None? then [] else [Accepted(e, signed.value.0), Activated(e, signed.value.1)]
  }

  lemma {:induction false} MaxIs(t: Log, e: nat)
    requires t != [] && forall x | x in t :: EpochOf(x) == e
    ensures MaxEpoch(t) == e
  {
    var u := t[..|t| - 1];
    assert t == u + [t[|t| - 1]];
    assert t[|t| - 1] in t;
    if u != [] {
      assert forall x | x in u :: x in t;
      MaxIs(u, e);
    }
  }

  lemma TopIs(s: Log, x: Record)
    requires x in s && x.Issued? && x.lease.epoch == MaxEpoch(s)
    ensures TopIssued(s)
  {
    forall y | y in s && y.Issued?
      ensures y.lease.epoch <= x.lease.epoch
    {
      MaxBound(s, y);
    }
    HighestIs(s, x);
  }

  lemma IssueKeepsOrder(s: Log, g: nat, x: Record, t: Log)
    requires Orderly(s, g) && x.Issued? && x.lease.epoch == NextEpoch(s) && x.lease.generation == g
    requires Notes(t, x.lease.epoch)
    ensures Orderly(s + ([x] + t), g)
    ensures forall h: nat | h != g :: LeasesOf(s + ([x] + t), h) == LeasesOf(s, h)
  {
    var added := [x] + t;
    MaxIs(added, x.lease.epoch);
    MaxOfAppend(s, added);
    assert x in s + added;
    TopIs(s + added, x);
    assert x.lease.epoch in GenerationEpochs(s + added, g);
  }

  lemma NotesKeepOrder(s: Log, g: nat, t: Log)
    requires Orderly(s, g) && s != [] && Notes(t, MaxEpoch(s))
    ensures Orderly(s + t, g) && MaxEpoch(s + t) == MaxEpoch(s)
    ensures forall h: nat :: LeasesOf(s + t, h) == LeasesOf(s, h)
  {
    if t != [] {
      MaxIs(t, MaxEpoch(s));
    }
    MaxOfAppend(s, t);
    var x := HighestReached(s);
    TopIs(s + t, x);
    assert GenerationEpochs(s + t, g) == GenerationEpochs(s, g);
  }

  /** Without a new lease of the generation, what was closed stays closed in what is kept. */
  lemma AllClosedAppend(s: Log, t: Log, g: nat)
    requires AllClosed(Compact(s), g) && forall x | x in t && x.Issued? :: x.lease.generation != g
    ensures AllClosed(Compact(s + t), g)
  {
    var m := MaxEpoch(s + t);
    MaxOfAppend(s, t);
    forall x | x in LeasesOf(Compact(s + t), g)
      ensures x.lease.epoch in ClosedEpochs(Compact(s + t))
    {
      InEpochsMembers(s + t, {m}, x);
      MaxBound(s, x);
      InEpochsMembers(s, {MaxEpoch(s)}, x);
      assert x in LeasesOf(Compact(s), g);
      var c :| c in Compact(s) && c.Closed? && c.leaseEpoch == x.lease.epoch;
      InEpochsMembers(s, {MaxEpoch(s)}, c);
      InEpochsMembers(s + t, {m}, c);
    }
  }

  /** Closing the current lease closes all that is kept. */
  lemma CloseCloses(s: Log, c: Record, g: nat)
    requires c.Closed? && s != [] && c.leaseEpoch == MaxEpoch(s)
    ensures AllClosed(Compact(s + [c]), g)
  {
    assert MaxEpoch([c]) == c.leaseEpoch by { MaxIs([c], c.leaseEpoch); }
    MaxOfAppend(s, [c]);
    var m := MaxEpoch(s + [c]);
    InEpochsMembers(s + [c], {m}, c);
    forall x | x in LeasesOf(Compact(s + [c]), g)
      ensures x.lease.epoch == m
    {
      InEpochsMembers(s + [c], {m}, x);
    }
    assert m in ClosedEpochs(Compact(s + [c]));
  }

  /** The kept log shows what the whole log shows. */
  lemma KeptShowsAll(s: Log, g: nat)
    requires Orderly(s, g)
    ensures ViewOf(Compact(s), g) == ViewOf(s, g)
    ensures CurrentLease(Compact(s)) == CurrentLease(s)
  {
    SameViewIff(s, g);
    SameLeaseIff(s);
  }

  lemma CurrentAtTop(s: Log, g: nat)
    requires Orderly(s, g) && CurrentLease(s).Unique?
    ensures s != [] && EpochOf(CurrentLease(s).signed) == MaxEpoch(s)
  {
    CurrentIsHighest(s);
  }

  lemma HasEpoch(s: Log, g: nat, x: Record)
    requires x in LeasesOf(s, g)
    ensures GenerationEpochs(s, g) != {}
  {
    assert x.lease.epoch in GenerationEpochs(s, g);
  }

  lemma ViewOfTop(s: Log, g: nat)
    requires Orderly(s, g)
    ensures ViewOf(s, g).current.NoLease? <==> LeasesOf(Compact(s), g) == {}
    ensures !ViewOf(s, g).current.NoLease? ==> CurrentLease(s) == ViewOf(s, g).current
    ensures ViewOf(s, g).current.Unique? ==>
              ViewOf(s, g).current.signed.Issued? && ViewOf(s, g).current.signed.lease.generation == g
  {
    var m, epochs := MaxEpoch(s), GenerationEpochs(s, g);
    if m in epochs {
      var x :| x in s && x.Issued? && x.lease.generation == g && x.lease.epoch == m;
      InEpochsMembers(s, {m}, x);
      assert x in LeasesOf(Compact(s), g);
      ViewAtTop(s, g, epochs);
      HighestInGeneration(s, g, epochs);
      HighestInGeneration(s, g, {m});
      CurrentIsHighest(InEpochs(s, epochs));
      SameLeaseIff(s);
      var leases := Leases(InEpochs(s, {m}));
      LeasesMembers(InEpochs(s, {m}), x);
      if ViewOf(s, g).current.Unique? {
        LeasesMembers(InEpochs(s, {m}), leases[0]);
        assert leases[0] in leases && SameContent(leases);
      }
    } else {
      assert epochs == {};
      FilterNone(s);
      if LeasesOf(Compact(s), g) != {} {
        var x :| x in LeasesOf(Compact(s), g);
        InEpochsMembers(s, {m}, x);
        HasEpoch(s, g, x);
      }
    }
  }

  // ------------------------------------------------------------------ what the written records show

  lemma LastOfNotes(at: Log, e: nat, accepted: string, activated: string)
    ensures var t := NotesOf(e, Some((accepted, activated)));
            && LastActivated(at + t) == Some(Activated(e, activated)) && LastClosed(at + t) == LastClosed(at)
            && Accepted(e, accepted) in t && Activated(e, activated) in t
  {
    var x, y := Accepted(e, accepted), Activated(e, activated);
    assert (at + [x, y])[..|at| + 1] == at + [x];
    assert (at + [x])[..|at|] == at;
    assert x == [x, y][0] && y == [x, y][1];
  }

  /** Records of the top epoch are kept behind what was kept of it, and leave its lease in place. */
  lemma NotesOnTop(s: Log, t: Log, g: nat)
    requires Notes(t, MaxEpoch(s)) && MaxEpoch(s) in GenerationEpochs(s, g)
    ensures MaxEpoch(s + t) == MaxEpoch(s) && MaxEpoch(s) in GenerationEpochs(s + t, g)
    ensures Compact(s + t) == Compact(s) + t && CurrentLease(s + t) == CurrentLease(s)
  {
    var m := MaxEpoch(s);
    if t != [] {
      MaxIs(t, m);
    }
    MaxOfAppend(s, t);
    FilterAppend(s, t, {m});
    FilterAll(t, m);
    NotesKeepCurrent(s, t);
    var x :| x in s && x.Issued? && x.lease.generation == g && x.lease.epoch == m;
    assert x in s + t;
  }

  lemma NotesShow(s: Log, t: Log, g: nat)
    requires Notes(t, MaxEpoch(s)) && MaxEpoch(s) in GenerationEpochs(s, g) && CurrentLease(s).Unique?
    ensures var at := Compact(s);
            && ViewOf(Compact(s), g) == View(CurrentLease(s), LastActivated(at), LastClosed(at))
            && ViewOf(Compact(s + t), g) == View(CurrentLease(s), LastActivated(at + t), LastClosed(at + t))
  {
    NotesOnTop(s, t, g);
    TopView(s, g);
    TopView(s + t, g);
  }

  lemma ActivationShows(s: Log, x: Record, accepted: string, activated: string)
    requires CurrentLease(s) == Unique(x) && x in s && x.Issued? && x.lease.epoch == MaxEpoch(s)
    ensures var e, g := x.lease.epoch, x.lease.generation;
            var kept := Compact(s + NotesOf(e, Some((accepted, activated))));
            && Accepted(e, accepted) in kept && Activated(e, activated) in kept
            && ViewOf(kept, g) == View(Unique(x), Some(Activated(e, activated)), ViewOf(Compact(s), g).close)
  {
    var e, g := x.lease.epoch, x.lease.generation;
    var t := NotesOf(e, Some((accepted, activated)));
    assert e in GenerationEpochs(s, g);
    LastOfNotes(Compact(s), e, accepted, activated);
    NotesOnTop(s, t, g);
    NotesShow(s, t, g);
  }

  lemma NowShown(s: Log, x: Record)
    requires CurrentLease(s) == Unique(x) && x in s && x.Issued? && x.lease.epoch == MaxEpoch(s)
    ensures ViewOf(Compact(s), x.lease.generation).current == Unique(x)
  {
    assert x.lease.epoch in GenerationEpochs(s, x.lease.generation);
    TopView(s, x.lease.generation);
  }

  lemma CloseShows(s: Log, x: Record, c: Record)
    requires CurrentLease(s) == Unique(x) && x in s && x.Issued? && x.lease.epoch == MaxEpoch(s)
    requires c.Closed? && c.leaseEpoch == MaxEpoch(s)
    ensures var g := x.lease.generation;
            && c in Compact(s + [c])
            && ViewOf(Compact(s + [c]), g) == View(Unique(x), ViewOf(Compact(s), g).activation, Some(c))
  {
    var g, at := x.lease.generation, Compact(s);
    assert x.lease.epoch in GenerationEpochs(s, g);
    assert (at + [c])[..|at|] == at;
    NotesOnTop(s, [c], g);
    NotesShow(s, [c], g);
  }

  /** What is kept after a lease is issued below the limit: the lease and its own records. */
  lemma LeaseOnTop(s: Log, x: Record)
    requires x.Issued? && x.lease.epoch == MaxEpoch(s) + 1 && MaxEpoch(s) < U64_MAX
    ensures Compact(s + [x]) == [x] && MaxEpoch(s + [x]) == x.lease.epoch && CurrentLease(s + [x]) == Unique(x)
    ensures x.lease.epoch in GenerationEpochs(s + [x], x.lease.generation)
  {
    var e := x.lease.epoch;
    IssuedOnTop(s, x);
    IssueIsUniqueIff(s, x);
    FilterAppend(s, [x], {e});
    FilterAbove(s, e);
    FilterAll([x], e);
    assert x in s + [x];
  }

  lemma IssueShows(s: Log, x: Record, signed: Option<(string, string)>)
    requires x.Issued? && x.lease.epoch == MaxEpoch(s) + 1 && MaxEpoch(s) < U64_MAX
    ensures var e := x.lease.epoch;
            var kept := Compact(s + ([x] + NotesOf(e, signed)));
            ViewOf(kept, x.lease.generation)
            == View(Unique(x), if signed.Some? then Some(Activated(e, signed.value.1)) else None, None)
  {
    var e, g := x.lease.epoch, x.lease.generation;
    var t := NotesOf(e, signed);
    LeaseOnTop(s, x);
    NotesShow(s + [x], t, g);
    Regrouped(s, x, t);
    assert LastActivated([x]).None? && LastClosed([x]).None?;
    if signed.Some? {
      LastOfNotes([x], e, signed.value.0, signed.value.1);
    } else {
      assert [x] + t == [x];
    }
  }

  /** Records of the new epoch are kept, at the limit too. */
  lemma IssueKeeps(s: Log, x: Record, signed: Option<(string, string)>)
    requires x.Issued? && x.lease.epoch == NextEpoch(s) && MaxEpoch(s) <= U64_MAX && signed.Some?
    ensures var e := x.lease.epoch;
            var kept := Compact(s + ([x] + NotesOf(e, signed)));
            x in kept && Accepted(e, signed.value.0) in kept && Activated(e, signed.value.1) in kept
  {
    var e := x.lease.epoch;
    var t := [x] + NotesOf(e, signed);
    MaxIs(t, e);
    MaxOfAppend(s, t);
    LastOfNotes([], e, signed.value.0, signed.value.1);
    InEpochsMembers(s + t, {e}, x);
    InEpochsMembers(s + t, {e}, Accepted(e, signed.value.0));
    InEpochsMembers(s + t, {e}, Activated(e, signed.value.1));
  }

  /** The lease is the current one, and is shown with the activation that was signed with it, if any, and
      nothing else. */
  ghost predicate ShownAlone(s: Log, g: nat, x: Record, signed: Option<(string, string)>)
    requires x.Issued?
  {
    var activation := if signed.Some? then Some(Activated(x.lease.epoch, signed.value.1)) else None;
    CurrentLease(s) == Unique(x) && ViewOf(s, g) == View(Unique(x), activation, None)
  }

  /** The signed acceptance and activation are stored. */
  predicate NotesKept(s: Log, e: nat, signed: Option<(string, string)>) {
    signed.Some? ==> Accepted(e, signed.value.0) in s && Activated(e, signed.value.1) in s
  }

  // ------------------------------------------------------------------ the owner's operations

  /** Where a deletion must release the lease of a community node. */
  function NodeUrl(c: Current): (url: Option<string>) {
    if ForNode(c) then Some(c.signed.lease.host.url) else None
  }

  /** A URL is noted exactly when the lease is unique and a community node holds it: that node's. */
  predicate IsNodeOf(c: Current, url: Option<string>) {
    if c.Unique? && c.signed.Issued? && c.signed.lease.host.CommunityNode?
    then url == Some(c.signed.lease.host.url) else url.None?
  }

  class Owner {
    var canonical: Option<Instance>
    var room: Option<Instance>
    var cached: Option<Instance>
    var stored: Log
    var journal: map<nat, Deletion>
    ghost var full: Log              // every record ever written, before compaction

    function Generation(): (g: nat) reads this { if canonical.Some? then canonical.value.generation else 0 }

    /** A generation that is gone, or whose instance is a tombstone. */
    predicate Buried(g: nat) reads this { g < Generation() || (g == Generation() && !Live()) }

    predicate Live() reads this { canonical.Some? && canonical.value.active }

    ghost predicate Sound() reads this {
      && stored == Compact(full) && Orderly(full, Generation()) && Generation() <= U64_MAX
      && (canonical.Some? ==> 0 < Generation()) && (forall g | g in journal :: 0 < g <= Generation())
      && (forall g | g in journal && Buried(g) :: AllClosed(stored, g))
      && (forall g | g in journal && journal[g].close.Some? :: AllClosed(stored, g))
      && (forall g | g in journal && journal[g].completed && g < U64_MAX :: Buried(g))
    }

    constructor ()
      ensures Sound() && canonical.None? && journal == map[] && full == []
    {
      canonical, room, cached, stored, journal, full := None, None, None, [], map[], [];
    }

    /** What an earlier process left: an active instance, its hosting records and its journal. */
    constructor Restored(instance: Instance, log: Log, journal: map<nat, Deletion>)
      requires instance.active && 0 < instance.generation <= U64_MAX && Orderly(log, instance.generation)
      requires forall g | g in journal ::
                 && 0 < g <= instance.generation
                 && (g < instance.generation || journal[g].close.Some? ==> AllClosed(Compact(log), g))
      requires forall g | g in journal && journal[g].completed && g < U64_MAX :: g < instance.generation
      ensures Sound() && canonical == Some(instance) && stored == Compact(log) && this.journal == journal
    {
      canonical, room, cached := Some(instance), Some(instance), Some(instance);
      stored, full, this.journal := Compact(log), log, journal;
    }

    /** `ensure_dome_hosting_owner` and `ensure_dome_not_deleting`. */
    predicate MayHost() reads this {
      canonical.Some? && canonical.value.active && !canonical.value.detached && Generation() !in journal
    }

    /** No lease is added for a generation whose deletion has been journalled, and journals are kept. */
    twostate predicate NoLeaseWhileDeleting() reads this {
      forall g | g in old(journal) :: g in journal && LeasesOf(full, g) == LeasesOf(old(full), g)
    }

    /** Appends the records and keeps the top epoch, in one write. */
    method Persist(t: Log)
      requires Sound() && Orderly(full + t, Generation())
      requires forall x | x in t && x.Issued? :: x.lease.generation == Generation() && MayHost()
      modifies this`stored, this`full
      ensures Sound() && full == old(full) + t
      ensures NoLeaseWhileDeleting()
    {
      CompactAppend(full, t);
      forall g | g in journal && AllClosed(stored, g)
        ensures AllClosed(Compact(full + t), g)
      {
        AllClosedAppend(full, t, g);
      }
      stored := Compact(stored + t);
      full := full + t;
    }

    /** Hosting on the owner's device, which is accepted and activated at once, or for a
        community node, which is not (`signed` is none). */
    method Issue(host: Host, leaseId: string, now: int, expires: int, envelope: string,
                 signed: Option<(string, string)>, expected: Option<nat>, faulty: bool) returns (ok: bool)
      requires Sound()
      modifies this`stored, this`full
      ensures Sound() && NoLeaseWhileDeleting()
      ensures var may := && Live() && !canonical.value.detached && Generation() !in journal
                         && (expected.Some? ==> expected.value == Generation());
              (ok ==> may) && (!faulty ==> ok == may)
      ensures !ok ==> stored == old(stored) && full == old(full)
      ensures ok ==>
                var e := NextEpoch(old(full));
                full == old(full) + ([Issued(Lease(leaseId, Generation(), host, e, now, expires), envelope)]
                                     + NotesOf(e, signed))
      // Below the limit the new lease is the one and only current lease, whatever stood before.
      ensures ok && MaxEpoch(old(full)) < U64_MAX ==>
                var lease := Lease(leaseId, Generation(), host, MaxEpoch(old(full)) + 1, now, expires);
                ShownAlone(stored, Generation(), Issued(lease, envelope), signed)
      ensures ok ==> NotesKept(stored, NextEpoch(old(full)), signed)
    {
      var stopped: bool := *;
      if !MayHost() || !Expects(expected) || (faulty && stopped) { return false; }
      NewLease(host, leaseId, now, expires, envelope, signed);
      return true;
    }

    method NewLease(host: Host, leaseId: string, now: int, expires: int, envelope: string,
                    signed: Option<(string, string)>)
      requires Sound() && MayHost()
      modifies this`stored, this`full
      ensures Sound() && NoLeaseWhileDeleting()
      ensures var e := NextEpoch(old(full));
              full == old(full) + ([Issued(Lease(leaseId, Generation(), host, e, now, expires), envelope)]
                                   + NotesOf(e, signed))
      ensures MaxEpoch(old(full)) < U64_MAX ==>
                var lease := Lease(leaseId, Generation(), host, MaxEpoch(old(full)) + 1, now, expires);
                ShownAlone(stored, Generation(), Issued(lease, envelope), signed)
      ensures NotesKept(stored, NextEpoch(old(full)), signed)
    {
      var epoch := NextEpoch(stored);
      CompactAppend(full, []);
      PersistLease(Issued(Lease(leaseId, Generation(), host, epoch, now, expires), envelope), signed);
    }

    method PersistLease(x: Record, signed: Option<(string, string)>)
      requires Sound() && MayHost() && x.Issued?
      requires x.lease.epoch == NextEpoch(full) && x.lease.generation == Generation()
      modifies this`stored, this`full
      ensures Sound() && NoLeaseWhileDeleting() && full == old(full) + ([x] + NotesOf(x.lease.epoch, signed))
      ensures MaxEpoch(old(full)) < U64_MAX ==> ShownAlone(stored, Generation(), x, signed)
      ensures NotesKept(stored, x.lease.epoch, signed)
    {
      var t := NotesOf(x.lease.epoch, signed);
      IssueKeepsOrder(full, Generation(), x, t);
      IssuedLeaseIsCurrent(full, Generation(), x, t);
      if MaxEpoch(full) < U64_MAX {
        IssueShows(full, x, signed);
      }
      if signed.Some? {
        IssueKeeps(full, x, signed);
      }
      Persist([x] + t);
      KeptShowsAll(full, Generation());
    }

    predicate Expects(expected: Option<nat>) reads this { expected.Some? ==> expected.value == Generation() }

    /** Accepts and activates the current lease of a community node. */
    method Activate(accepted: string, activated: string, faulty: bool) returns (ok: bool)
      requires Sound()
      modifies this`stored, this`full
      ensures Sound() && NoLeaseWhileDeleting()
      ensures var lease := CurrentLease(old(stored));
              var may := && Live() && !canonical.value.detached && Generation() !in journal
                         && lease.Unique? && lease.signed.Issued? && lease.signed.lease.host.CommunityNode?;
              (ok ==> may) && (!faulty ==> ok == may)
      ensures !ok ==> stored == old(stored) && full == old(full)
      ensures ok ==> full == old(full) + NotesOf(EpochOf(CurrentLease(old(stored)).signed), Some((accepted, activated)))
      ensures forall g: nat :: LeasesOf(full, g) == LeasesOf(old(full), g)
      // Both records are kept, and the lease is shown as activated, for the generation it was issued for.
      ensures ok ==>
                var signed := CurrentLease(old(stored)).signed;
                var (e, g) := (signed.lease.epoch, signed.lease.generation);
                && Accepted(e, accepted) in stored && Activated(e, activated) in stored
                && ViewOf(stored, g)
                   == View(Unique(signed), Some(Activated(e, activated)), ViewOf(old(stored), g).close)
    {
      var stopped: bool := *;
      if !MayHost() || (faulty && stopped) { return false; }
      var current := CurrentLease(stored);
      if !ForNode(current) { return false; }
      KeptShowsAll(full, Generation());
      CurrentAtTop(full, Generation());
      var t := NotesOf(EpochOf(current.signed), Some((accepted, activated)));
      NotesKeepOrder(full, Generation(), t);
      CurrentIsHighest(full);
      ActivationShows(full, current.signed, accepted, activated);
      Persist(t);
      return true;
    }

    /** Closes the current lease of the instance's generation. */
    method Close(expected: Option<nat>, envelope: string, faulty: bool) returns (ok: bool, closed: Option<Record>)
      requires Sound()
      modifies this`stored, this`full
      ensures Sound() && NoLeaseWhileDeleting()
      ensures forall g: nat :: LeasesOf(full, g) == LeasesOf(old(full), g)
      ensures !ok ==> stored == old(stored) && full == old(full)
      ensures ok ==>
                && AllClosed(stored, Generation()) && CurrentLease(old(stored)).Unique?
                && closed == Some(Closed(EpochOf(CurrentLease(old(stored)).signed), envelope))
                && full == old(full) + [closed.value] && closed.value in stored
                && ViewOf(stored, Generation())
                   == View(CurrentLease(old(stored)), ViewOf(old(stored), Generation()).activation, closed)
      ensures var may := && Live() && !canonical.value.detached
                         && (expected.Some? ==> expected.value == Generation())
                         && ViewOf(old(stored), Generation()).current.Unique?;
              (ok ==> may) && (!faulty ==> ok == may)
    {
      ok, closed := false, None;
      var stopped: bool := *;
      if !Live() || canonical.value.detached || (faulty && stopped) { return; }
      if !Expects(expected) { return; }
      KeptShowsAll(full, Generation());
      ViewOfTop(full, Generation());
      var current := CurrentLease(stored);
      if !current.Unique? || !current.signed.Issued? || current.signed.lease.generation != Generation() { return; }
      CurrentAtTop(full, Generation());
      var c := Closed(EpochOf(current.signed), envelope);
      NotesKeepOrder(full, Generation(), [c]);
      CloseCloses(full, c, Generation());
      CurrentIsHighest(full);
      CloseShows(full, current.signed, c);
      NowShown(full, current.signed);
      Persist([c]);
      return true, Some(c);
    }

    /** `delete_dome` for generation `g`. A call with the same operation resumes the journalled
        deletion. `ok`: it returned that the Dome is deleted. */
    method Delete(operation: string, g: nat, envelope: string, faulty: bool) returns (ok: bool)
      requires Sound()
      modifies this
      ensures Sound() && NoLeaseWhileDeleting()
      ensures Generation() == old(Generation())
      ensures forall h | h in old(journal) && h != g :: h in journal && journal[h] == old(journal)[h]
      ensures ok ==> g in journal && journal[g].operation == operation && journal[g].completed
      // A deletion that is completed by this call has buried the instance and closed its lease.
      ensures ok && (g !in old(journal) || !old(journal)[g].completed) ==>
                && canonical == Some(Instance(g, false, false)) && room == canonical && cached == canonical
                && AllClosed(stored, g)
      // Nothing but a conflict of leases or another operation keeps a resumed deletion from its end.
      ensures g in old(journal) && !faulty && old(journal)[g].operation == operation
              && !old(journal)[g].completed && g == old(Generation()) && old(canonical).Some?
              && !old(canonical).value.detached ==>
                (ok <==> old(Live()) ==> !ViewOf(old(stored), g).current.SplitBrain?)
      // A new one ends if it may begin: an active, undetached instance of that generation, without conflict.
      ensures g !in old(journal) && !faulty ==>
                (ok <==> && old(Live()) && !old(canonical).value.detached && g == old(Generation())
                         && !ViewOf(old(stored), g).current.SplitBrain?)
    {
      var deletion: Deletion;
      ok, deletion := Begin(operation, g, faulty);
      if !ok || deletion.completed { return; }
      ok := CarryOut(g, envelope, faulty);
    }

    /** The rest of a journalled deletion. */
    method CarryOut(g: nat, envelope: string, faulty: bool) returns (ok: bool)
      requires Sound() && g in journal && !journal[g].completed
      modifies this
      ensures Sound() && NoLeaseWhileDeleting() && Generation() == old(Generation())
      ensures forall h | h in old(journal) && h != g :: h in journal && journal[h] == old(journal)[h]
      ensures g in journal && journal[g].operation == old(journal)[g].operation
      ensures ok ==>
                && journal[g].completed && AllClosed(stored, g)
                && canonical == Some(Instance(g, false, false)) && room == canonical && cached == canonical
      ensures !faulty && g == old(Generation()) && old(canonical).Some? && !old(canonical).value.detached ==>
                (ok <==> old(Live()) ==> !ViewOf(old(stored), g).current.SplitBrain?)
    {
      ok := false;
      if canonical.None? || Generation() != g { return; }
      if Live() {
        ok := CloseForDeletion(g, envelope, faulty);
        if !ok { return; }
      }
      ok := Bury(g, faulty);
    }

    /** Loads the journalled deletion, or journals a new one. */
    method Begin(operation: string, g: nat, faulty: bool) returns (ok: bool, deletion: Deletion)
      requires Sound()
      modifies this`journal
      ensures Sound()
      ensures forall h | h in old(journal) :: h in journal && journal[h] == old(journal)[h]
      ensures ok ==> g in journal && journal[g] == deletion && deletion.operation == operation
      ensures ok && g !in old(journal) ==>
                !deletion.completed && Live() && !canonical.value.detached && g == Generation()
      ensures g in old(journal) && !faulty ==> (ok <==> old(journal)[g].operation == operation)
      ensures !ok ==> journal == old(journal)
      // The node that holds the lease, if one does, is the one to be told.
      ensures ok && g !in old(journal) ==> IsNodeOf(ViewOf(stored, g).current, deletion.nodeUrl)
      ensures g !in old(journal) && !faulty ==>
                (ok <==> Live() && !canonical.value.detached && g == Generation()
                         && !ViewOf(stored, g).current.SplitBrain?)
    {
      ok, deletion := false, Deletion(operation, false, None, None);
      var stopped: bool := *;
      if faulty && stopped { return; }
      if g in journal {
        return journal[g].operation == operation, journal[g];
      }
      if !Live() || canonical.value.detached || g != Generation() { return; }
      var view := ViewOf(stored, g);
      if view.current.SplitBrain? { return; }
      deletion := Deletion(operation, false, NodeUrl(view.current), None);
      stopped := *;
      if faulty && stopped { return; }
      journal := journal[g := deletion];
      return true, deletion;
    }

    /** While the instance is active: closes its lease, unless the journal holds the close. */
    method CloseForDeletion(g: nat, envelope: string, faulty: bool) returns (ok: bool)
      requires Sound() && Live() && g == Generation() && g in journal && !journal[g].completed
      modifies this`stored, this`full, this`journal
      ensures Sound() && NoLeaseWhileDeleting()
      ensures g in journal && journal == old(journal)[g := old(journal)[g].(close := journal[g].close)]
      ensures ok ==> AllClosed(stored, g)
      ensures ok ==> !ViewOf(old(stored), g).current.SplitBrain?
      ensures !faulty && !canonical.value.detached && !ViewOf(old(stored), g).current.SplitBrain? ==> ok
    {
      ok := false;
      var view := ViewOf(stored, g);
      if view.current.SplitBrain? { return; }
      KeptShowsAll(full, g);
      ViewOfTop(full, g);
      ok := true;
      if view.current.Unique? && journal[g].close.None? {
        ok := CloseAndNote(g, envelope, faulty);
      }
    }

    method CloseAndNote(g: nat, envelope: string, faulty: bool) returns (ok: bool)
      requires Sound() && Live() && g == Generation() && g in journal && !journal[g].completed
      requires ViewOf(stored, g).current.Unique?
      modifies this`stored, this`full, this`journal
      ensures Sound() && NoLeaseWhileDeleting()
      ensures g in journal && journal == old(journal)[g := old(journal)[g].(close := journal[g].close)]
      ensures ok ==> AllClosed(stored, g) && journal[g].close.Some?
      ensures !faulty && !canonical.value.detached ==> ok
    {
      var done, closed := Close(Some(g), envelope, faulty);
      if !done { return false; }
      var stopped: bool := *;
      if faulty && stopped { return false; }
      journal := journal[g := journal[g].(close := closed)];
      return true;
    }

    /** Writes the tombstone to the room, the canonical instance and the cache row, and
        completes the journal. */
    method Bury(g: nat, faulty: bool) returns (ok: bool)
      requires Sound() && g == Generation() && canonical.Some? && g in journal && !journal[g].completed
      requires AllClosed(stored, g)
      modifies this`room, this`canonical, this`cached, this`journal
      ensures Sound() && Generation() == old(Generation()) && g in journal
      ensures journal == if ok then old(journal)[g := old(journal)[g].(completed := true)] else old(journal)
      ensures ok ==> canonical == Some(Instance(g, false, false)) && room == canonical && cached == canonical
      ensures !faulty ==> ok
    {
      ok := false;
      var tombstone := Instance(g, false, false);
      var stopped: bool := *;
      if faulty && stopped { return; }
      room := Some(tombstone);
      stopped := *;
      if faulty && stopped { return; }
      canonical := Some(tombstone);
      stopped := *;
      if faulty && stopped { return; }
      cached := Some(tombstone);
      stopped := *;
      if faulty && stopped { return; }
      journal := journal[g := journal[g].(completed := true)];
      ok := true;
    }

    /** `ensure_dome_deletion_finished`. */
    predicate Finished(g: nat) reads this { g in journal ==> journal[g].completed }

    /** A Dome is made anew only over a tombstone whose deletion, if any, is completed. */
    method Recreate(faulty: bool) returns (ok: bool)
      requires Sound()
      modifies this`room, this`canonical, this`cached
      ensures Sound()
      ensures ok ==> Live() && Generation() == if old(Generation()) < U64_MAX then old(Generation()) + 1 else U64_MAX
      ensures ok ==> !canonical.value.detached && room == canonical && cached == canonical
      ensures !ok && canonical != old(canonical) ==> Live() && room == canonical && !old(Live())
      ensures canonical != old(canonical) ==> Finished(old(Generation()))
      ensures ok ==> !old(Live()) && Finished(old(Generation()))
      ensures !faulty ==>
                (ok <==> !old(Live()) && (old(Generation()) in journal ==> journal[old(Generation())].completed))
    {
      ok := false;
      if Live() { return; }
      var g := Generation();
      if !Finished(g) { return; }
      var next := Instance(if g < U64_MAX then g + 1 else U64_MAX, true, false);
      var stopped: bool := *;
      if faulty && stopped { return; }
      room := Some(next);
      stopped := *;
      if faulty && stopped { return; }
      GenerationMovesOn(full, g, next.generation);
      canonical := Some(next);
      stopped := *;
      if faulty && stopped { return; }
      cached := Some(next);
      ok := true;
    }
  }

  lemma GenerationMovesOn(s: Log, g: nat, h: nat)
    requires Orderly(s, g) && h >= g
    ensures Orderly(s, h)
  {
  }

  lemma IssuedLeaseIsCurrent(s: Log, g: nat, x: Record, t: Log)
    requires Orderly(s, g) && x.Issued? && x.lease.epoch == NextEpoch(s) && x.lease.generation == g
    requires Notes(t, x.lease.epoch) && MaxEpoch(s) <= U64_MAX
    ensures MaxEpoch(s) < U64_MAX ==> CurrentLease(s + ([x] + t)) == Unique(x)
  {
    var u := s + [x];
    IssueIsUniqueIff(s, x);
    NotesKeepCurrent(u, t);
    Regrouped(s, x, t);
  }

  lemma Regrouped(s: Log, x: Record, t: Log)
    ensures s + ([x] + t) == (s + [x]) + t
  {
  }

  lemma LeasesOfEpoch(s: Log, x: Record, e: nat)
    requires !x.Issued?
    ensures Leases(InEpochs(s + [x], {e})) == Leases(InEpochs(s, {e}))
  {
    var at := InEpochs(s, {e});
    FilterAppend(s, [x], {e});
    LeasesAppend(at, x);
    assert [x][..0] == [];
    assert at + [] == at;
  }

  lemma NoteKeepsCurrent(s: Log, x: Record)
    requires !x.Issued?
    ensures CurrentLease(s + [x]) == CurrentLease(s)
  {
    assert (s + [x])[..|s + [x]| - 1] == s;
    assert HighestIssued(s + [x]) == HighestIssued(s);
    if HighestIssued(s).Some? {
      LeasesOfEpoch(s, x, HighestIssued(s).value);
    }
  }

  /** Acceptance, activation and close records do not change which lease is current. */
  lemma {:induction false} NotesKeepCurrent(s: Log, t: Log)
    requires forall x | x in t :: !x.Issued?
    ensures CurrentLease(s + t) == CurrentLease(s)
  {
    if t == [] {
      assert s + t == s;
    } else {
      var u, x := t[..|t| - 1], t[|t| - 1];
      assert t == u + [x] && x in t;
      NotesKeepCurrent(s, u);
      NoteKeepsCurrent(s + u, x);
      assert s + t == (s + u) + [x];
    }
  }

  lemma ConflictAtLimit(log: Log)
    requires log == [AtLimit("a")] + [AtLimit("b")]
    ensures Orderly(log, 1) && ViewOf(Compact(log), 1).current.SplitBrain?
  {
    LimitExample("a", "b");
    var x := AtLimit("a");
    assert x == log[0] && x in log;
    TopIs(log, x);
    assert x.lease.epoch in GenerationEpochs(log, 1);
    assert forall y | y in log :: y.Issued? && y.lease.generation == 1;
    InEpochsMembers(log, {U64_MAX}, x);
    assert x in LeasesOf(Compact(log), 1);
    ViewOfTop(log, 1);
    KeptShowsAll(log, 1);
  }

  /** A journalled deletion of an instance with two leases at the largest epoch cannot go on. */
  method ConflictExample() returns (owner: Owner, ok: bool)
    ensures fresh(owner) && owner.Sound() && 1 in owner.journal && !ok
  {
    var log := [AtLimit("a")] + [AtLimit("b")];
    ConflictAtLimit(log);
    owner := new Owner.Restored(Instance(1, true, false), log, map[1 := Deletion("op", false, None, None)]);
    ok := owner.Delete("op", 1, "close", false);
  }
}
