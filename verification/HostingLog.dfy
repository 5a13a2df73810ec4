/** The hosting log of a Dome instance: which lease, activation and close a list of signed
    records means, and why only the records of its highest epoch are kept. */
module HostingLog {
  import opened Order

  datatype Host = OwnerDevice(endpoint: string) | CommunityNode(node: string, url: string)

  datatype Lease = Lease(leaseId: string, generation: nat, host: Host, epoch: nat, issuedAt: int, expiresAt: int)

  /** A signed record; `envelope` is the id of its signature. Two leases have the same digest
      exactly when they are the same lease. */
  datatype Record =
    | Issued(lease: Lease, envelope: string)
    | Accepted(leaseEpoch: nat, envelope: string)
    | Activated(leaseEpoch: nat, envelope: string)
    | Closed(leaseEpoch: nat, envelope: string)

  type Log = seq<Record>

  function EpochOf(r: Record): (e: nat) { if r.Issued? then r.lease.epoch else r.leaseEpoch }

  function MaxEpoch(s: Log): (m: nat) {
    if s == [] then 0
    else
      var m, e := MaxEpoch(s[..|s| - 1]), EpochOf(s[|s| - 1]);
      if e > m then e else m
  }

  /** `next_hosting_epoch`, saturating at the largest `u64`. */
  function NextEpoch(s: Log): (e: nat) {
    if MaxEpoch(s) < U64_MAX then MaxEpoch(s) + 1 else U64_MAX
  }

  /** The records of the given epochs, in order. */
  function InEpochs(s: Log, epochs: set<nat>): (r: Log) {
    if s == [] then []
    else InEpochs(s[..|s| - 1], epochs) + (if EpochOf(s[|s| - 1]) in epochs then [s[|s| - 1]] else [])
  }

  /** What `persist_dome_hosting_records` stores. */
  function Compact(s: Log): (r: Log) { InEpochs(s, {MaxEpoch(s)}) }

  /** The highest epoch a lease was issued for. */
  function HighestIssued(s: Log): (h: Option<nat>) {
    if s == [] then None
    else
      var h, x := HighestIssued(s[..|s| - 1]), s[|s| - 1];
      if x.Issued? && (h.None? || x.lease.epoch > h.value) then Some(x.lease.epoch) else h
  }

  function GenerationEpochs(s: Log, generation: nat): (r: set<nat>) {
    set x | x in s && x.Issued? && x.lease.generation == generation :: x.lease.epoch
  }

  function Leases(s: Log): (r: seq<Record>) {
    if s == [] then []
    else Leases(s[..|s| - 1]) + (if s[|s| - 1].Issued? then [s[|s| - 1]] else [])
  }

  datatype Current = NoLease | Unique(signed: Record) | SplitBrain

  predicate SameContent(leases: seq<Record>) {
    forall x, y | x in leases && y in leases && x.Issued? && y.Issued? :: x.lease == y.lease
  }

  /** `current_unique_lease`. */
  function CurrentLease(s: Log): (c: Current) {
    var h := HighestIssued(s);
    if h.None? then NoLease
    else
      var leases := Leases(InEpochs(s, {h.value}));
      if leases == [] || !SameContent(leases) then SplitBrain else Unique(leases[0])
  }

  function LastActivated(s: Log): (r: Option<Record>) {
    if s == [] then None
    else if s[|s| - 1].Activated? then Some(s[|s| - 1]) else LastActivated(s[..|s| - 1])
  }

  function LastClosed(s: Log): (r: Option<Record>) {
    if s == [] then None
    else if s[|s| - 1].Closed? then Some(s[|s| - 1]) else LastClosed(s[..|s| - 1])
  }

  datatype View = View(current: Current, activation: Option<Record>, close: Option<Record>)

  /** The records a hosting view shows for an instance generation. */
  function ViewOf(s: Log, generation: nat): (v: View) {
    var records := InEpochs(s, GenerationEpochs(s, generation));
    var current := CurrentLease(records);
    if !current.Unique? then View(current, None, None)
    else
      var at := InEpochs(records, {EpochOf(current.signed)});
      View(current, LastActivated(at), LastClosed(at))
  }

  // ------------------------------------------------------------------ the pieces of a log

  lemma {:induction false} MaxBound(s: Log, x: Record)
    requires x in s
    ensures EpochOf(x) <= MaxEpoch(s)
  {
    var t := s[..|s| - 1];
    assert s == t + [s[|s| - 1]];
    if x in t {
      MaxBound(t, x);
    }
  }

  lemma {:induction false} MaxReached(s: Log) returns (x: Record)
    requires s != []
    ensures x in s && EpochOf(x) == MaxEpoch(s)
  {
    var t := s[..|s| - 1];
    x := s[|s| - 1];
    assert s == t + [x];
    if t != [] && MaxEpoch(s) == MaxEpoch(t) {
      x := MaxReached(t);
    }
  }

  lemma {:induction false} HighestBound(s: Log, x: Record)
    requires x in s && x.Issued?
    ensures HighestIssued(s).Some? && x.lease.epoch <= HighestIssued(s).value
  {
    var t := s[..|s| - 1];
    assert s == t + [s[|s| - 1]];
    if x in t {
      HighestBound(t, x);
    }
  }

  lemma {:induction false} HighestReached(s: Log) returns (x: Record)
    requires HighestIssued(s).Some?
    ensures x in s && x.Issued? && HighestIssued(s) == Some(x.lease.epoch)
  {
    var t := s[..|s| - 1];
    x := s[|s| - 1];
    assert s == t + [x];
    if HighestIssued(s) == HighestIssued(t) {
      x := HighestReached(t);
    }
  }

  lemma HighestIs(s: Log, x: Record)
    requires x in s && x.Issued? && forall y | y in s && y.Issued? :: y.lease.epoch <= x.lease.epoch
    ensures HighestIssued(s) == Some(x.lease.epoch)
  {
    HighestBound(s, x);
    var y := HighestReached(s);
  }

  lemma {:induction false} InEpochsMembers(s: Log, epochs: set<nat>, x: Record)
    ensures x in InEpochs(s, epochs) <==> x in s && EpochOf(x) in epochs
  {
    if s != [] {
      InEpochsMembers(s[..|s| - 1], epochs, x);
      assert s == s[..|s| - 1] + [s[|s| - 1]];
    }
  }

  lemma {:induction false} FilterTwice(s: Log, a: set<nat>, b: set<nat>)
    ensures InEpochs(InEpochs(s, a), b) == InEpochs(s, a * b)
  {
    if s != [] {
      var t, x := s[..|s| - 1], s[|s| - 1];
      FilterTwice(t, a, b);
      if EpochOf(x) in a {
        var u := InEpochs(t, a);
        assert InEpochs(s, a) == u + [x];
        assert (u + [x])[..|u + [x]| - 1] == u;
      } else {
        assert InEpochs(s, a) == InEpochs(t, a);
      }
    }
  }

  lemma {:induction false} FilterAppend(s: Log, t: Log, epochs: set<nat>)
    ensures InEpochs(s + t, epochs) == InEpochs(s, epochs) + InEpochs(t, epochs)
  {
    if t == [] {
      assert s + t == s;
    } else {
      FilterAppend(s, t[..|t| - 1], epochs);
      assert (s + t)[..|s + t| - 1] == s + t[..|t| - 1];
    }
  }

  lemma {:induction false} FilterNone(s: Log)
    ensures InEpochs(s, {}) == []
  {
    if s != [] {
      FilterNone(s[..|s| - 1]);
    }
  }

  lemma {:induction false} FilterAbove(s: Log, m: nat)
    requires m > MaxEpoch(s)
    ensures InEpochs(s, {m}) == []
  {
    if s != [] {
      FilterAbove(s[..|s| - 1], m);
    }
  }

  // ------------------------------------------------------------------ compaction

  lemma MaxOfCompact(s: Log)
    ensures MaxEpoch(Compact(s)) == MaxEpoch(s)
  {
    if s != [] {
      var x := MaxReached(s);
      InEpochsMembers(s, {MaxEpoch(s)}, x);
      MaxBound(Compact(s), x);
      var y := MaxReached(Compact(s));
      InEpochsMembers(s, {MaxEpoch(s)}, y);
    }
  }

  lemma {:induction false} MaxOfAppend(s: Log, t: Log)
    ensures MaxEpoch(s + t) == if MaxEpoch(t) > MaxEpoch(s) then MaxEpoch(t) else MaxEpoch(s)
  {
    if t == [] {
      assert s + t == s;
    } else {
      MaxOfAppend(s, t[..|t| - 1]);
      assert (s + t)[..|s + t| - 1] == s + t[..|t| - 1];
    }
  }

  lemma KeptOfTop(s: Log, m: nat)
    requires m >= MaxEpoch(s)
    ensures InEpochs(Compact(s), {m}) == InEpochs(s, {m})
  {
    FilterTwice(s, {MaxEpoch(s)}, {m});
    if m == MaxEpoch(s) {
      assert {MaxEpoch(s)} * {m} == {m};
    } else {
      assert {MaxEpoch(s)} * {m} == {};
      FilterAbove(s, m);
      FilterNone(s);
    }
  }

  /** Appending to the kept records and keeping the top epoch again is the same as doing so to
      the whole log, and both give the same next epoch. */
  lemma CompactAppend(s: Log, t: Log)
    ensures Compact(Compact(s) + t) == Compact(s + t)
    ensures NextEpoch(Compact(s)) == NextEpoch(s)
  {
    MaxOfCompact(s);
    MaxOfAppend(s, t);
    MaxOfAppend(Compact(s), t);
    var m := MaxEpoch(s + t);
    FilterAppend(s, t, {m});
    FilterAppend(Compact(s), t, {m});
    KeptOfTop(s, m);
  }

  /** Some lease was issued for the highest epoch of the log. */
  predicate TopIssued(s: Log) { HighestIssued(s) == Some(MaxEpoch(s)) }

  lemma TopOfCompact(s: Log)
    ensures HighestIssued(Compact(s)) == if TopIssued(s) then Some(MaxEpoch(s)) else None
  {
    var m := MaxEpoch(s);
    if HighestIssued(Compact(s)).Some? {
      var x := HighestReached(Compact(s));
      InEpochsMembers(s, {m}, x);
      HighestBound(s, x);
      var y := HighestReached(s);
      MaxBound(s, y);
    }
    if TopIssued(s) {
      var x := HighestReached(s);
      InEpochsMembers(s, {m}, x);
      HighestBound(Compact(s), x);
    }
  }

  lemma {:induction false} LeasesMembers(s: Log, x: Record)
    ensures x in Leases(s) <==> x in s && x.Issued?
  {
    if s != [] {
      LeasesMembers(s[..|s| - 1], x);
      assert s == s[..|s| - 1] + [s[|s| - 1]];
    }
  }

  /** The current lease is one of the leases of the highest issued epoch. */
  lemma CurrentIsHighest(s: Log)
    ensures CurrentLease(s).NoLease? <==> HighestIssued(s).None?
    ensures CurrentLease(s).Unique? ==>
              var x := CurrentLease(s).signed;
              x in s && x.Issued? && HighestIssued(s) == Some(x.lease.epoch)
  {
    var h := HighestIssued(s);
    if CurrentLease(s).Unique? {
      var at := InEpochs(s, {h.value});
      LeasesMembers(at, Leases(at)[0]);
      InEpochsMembers(s, {h.value}, Leases(at)[0]);
    }
  }

  lemma LeasesAt(s: Log, e: nat, x: Record)
    ensures x in Leases(InEpochs(s, {e})) <==> x in s && x.Issued? && x.lease.epoch == e
  {
    LeasesMembers(InEpochs(s, {e}), x);
    InEpochsMembers(s, {e}, x);
  }

  lemma {:induction false} FirstAt(s: Log, e: nat) returns (i: nat)
    requires Leases(InEpochs(s, {e})) != []
    ensures i < |s| && s[i] == Leases(InEpochs(s, {e}))[0] && s[i].Issued? && s[i].lease.epoch == e
    ensures forall j | 0 <= j < i :: !(s[j].Issued? && s[j].lease.epoch == e)
  {
    var t, x := s[..|s| - 1], s[|s| - 1];
    if EpochOf(x) == e {
      LeasesAppend(InEpochs(t, {e}), x);
    } else {
      assert InEpochs(s, {e}) == InEpochs(t, {e});
    }
    if Leases(InEpochs(t, {e})) != [] {
      i := FirstAt(t, e);
    } else {
      i := |s| - 1;
      forall j | 0 <= j < i
        ensures !(s[j].Issued? && s[j].lease.epoch == e)
      {
        LeasesAt(t, e, t[j]);
      }
    }
  }

  /** The current lease is unique exactly when leases were issued and those of the highest epoch are one
      and the same. It is the first of them that was stored. */
  lemma CurrentIsFirst(s: Log) returns (i: nat)
    requires CurrentLease(s).Unique?
    ensures i < |s| && s[i] == CurrentLease(s).signed && s[i].Issued?
    ensures forall x | x in s && x.Issued? ::
              x.lease.epoch <= s[i].lease.epoch && (x.lease.epoch == s[i].lease.epoch ==> x.lease == s[i].lease)
    ensures forall j | 0 <= j < i :: !(s[j].Issued? && s[j].lease.epoch == s[i].lease.epoch)
  {
    var e := HighestIssued(s).value;
    i := FirstAt(s, e);
    forall x | x in s && x.Issued?
      ensures x.lease.epoch <= e && (x.lease.epoch == e ==> x.lease == s[i].lease)
    {
      HighestBound(s, x);
      LeasesAt(s, e, x);
      LeasesAt(s, e, s[i]);
    }
  }

  /** A conflict: two different leases of the highest epoch. */
  lemma ConflictIs(s: Log) returns (x: Record, y: Record)
    requires CurrentLease(s).SplitBrain?
    ensures x in s && y in s && x.Issued? && y.Issued? && x.lease.epoch == y.lease.epoch && x.lease != y.lease
    ensures forall z | z in s && z.Issued? :: z.lease.epoch <= x.lease.epoch
  {
    var e := HighestIssued(s).value;
    var leases := Leases(InEpochs(s, {e}));
    var top := HighestReached(s);
    LeasesAt(s, e, top);
    x, y :| x in leases && y in leases && x.Issued? && y.Issued? && x.lease != y.lease;
    LeasesAt(s, e, x);
    LeasesAt(s, e, y);
    forall z | z in s && z.Issued?
      ensures z.lease.epoch <= e
    {
      HighestBound(s, z);
    }
  }

  /** Keeping only the top epoch leaves the current lease as it is exactly when the top epoch
      has a lease, or no lease was ever issued. */
  lemma SameLeaseIff(s: Log)
    ensures CurrentLease(Compact(s)) == CurrentLease(s) <==> TopIssued(s) || HighestIssued(s).None?
  {
    TopOfCompact(s);
    CurrentIsHighest(s);
    CurrentIsHighest(Compact(s));
    if TopIssued(s) {
      KeptOfTop(s, MaxEpoch(s));
    }
  }

  // ------------------------------------------------------------------ the view of a generation

  /** If the instance generation has a lease at all, it has one at the highest epoch. */
  predicate TopIsOf(s: Log, generation: nat) {
    GenerationEpochs(s, generation) != {} ==> MaxEpoch(s) in GenerationEpochs(s, generation)
  }

  lemma GenerationOfCompact(s: Log, g: nat)
    ensures GenerationEpochs(Compact(s), g) == GenerationEpochs(s, g) * {MaxEpoch(s)}
  {
    forall x: Record
      ensures x in Compact(s) <==> x in s && EpochOf(x) == MaxEpoch(s)
    {
      InEpochsMembers(s, {MaxEpoch(s)}, x);
    }
  }

  lemma HighestInGeneration(s: Log, g: nat, epochs: set<nat>)
    requires MaxEpoch(s) in GenerationEpochs(s, g) && MaxEpoch(s) in epochs
    ensures HighestIssued(InEpochs(s, epochs)) == Some(MaxEpoch(s))
  {
    var x :| x in s && x.Issued? && x.lease.generation == g && x.lease.epoch == MaxEpoch(s);
    InEpochsMembers(s, epochs, x);
    forall y | y in InEpochs(s, epochs)
      ensures EpochOf(y) <= MaxEpoch(s)
    {
      InEpochsMembers(s, epochs, y);
      MaxBound(s, y);
    }
    HighestIs(InEpochs(s, epochs), x);
  }

  /** A view filtered to a set of epochs that has the highest one is the view of that epoch. */
  lemma ViewAtTop(s: Log, g: nat, epochs: set<nat>)
    requires MaxEpoch(s) in GenerationEpochs(s, g) && MaxEpoch(s) in epochs
    ensures CurrentLease(InEpochs(s, epochs)) == CurrentLease(InEpochs(s, {MaxEpoch(s)}))
    ensures InEpochs(InEpochs(s, epochs), {MaxEpoch(s)}) == InEpochs(s, {MaxEpoch(s)})
  {
    var m := MaxEpoch(s);
    HighestInGeneration(s, g, epochs);
    HighestInGeneration(s, g, {m});
    FilterTwice(s, epochs, {m});
    FilterTwice(s, {m}, {m});
    assert epochs * {m} == {m} && {m} * {m} == {m};
  }

  /** The compacted log shows the same lease, activation and close for an instance generation as
      the whole log, exactly when the newest lease is of that generation or it has none. */
  lemma SameViewIff(s: Log, g: nat)
    ensures ViewOf(Compact(s), g) == ViewOf(s, g) <==> TopIsOf(s, g)
  {
    var m, epochs, kept := MaxEpoch(s), GenerationEpochs(s, g), GenerationEpochs(Compact(s), g);
    GenerationOfCompact(s, g);
    if m in epochs {
      assert kept == {m};
      KeptOfTop(s, m);
      ViewAtTop(s, g, epochs);
      ViewAtTop(s, g, {m});
      CurrentIsHighest(InEpochs(s, epochs));
      HighestInGeneration(s, g, epochs);
    } else {
      assert kept == {};
      FilterNone(Compact(s));
      if epochs == {} {
        FilterNone(s);
      } else {
        var e :| e in epochs;
        var x :| x in s && x.Issued? && x.lease.generation == g && x.lease.epoch == e;
        InEpochsMembers(s, epochs, x);
        HighestBound(InEpochs(s, epochs), x);
        CurrentIsHighest(InEpochs(s, epochs));
      }
    }
  }

  lemma TopLease(s: Log, g: nat)
    requires MaxEpoch(s) in GenerationEpochs(s, g)
    ensures TopIssued(s) && CurrentLease(Compact(s)) == CurrentLease(s)
  {
    var x :| x in s && x.Issued? && x.lease.generation == g && x.lease.epoch == MaxEpoch(s);
    HighestBound(s, x);
    var y := HighestReached(s);
    MaxBound(s, y);
    SameLeaseIff(s);
  }

  /** What is kept of a log with a unique lease, of this generation, at the top: that lease, and the
      last activation and the last close of its epoch. */
  lemma TopView(s: Log, g: nat)
    requires MaxEpoch(s) in GenerationEpochs(s, g) && CurrentLease(s).Unique?
    ensures var at := InEpochs(s, {MaxEpoch(s)});
            ViewOf(Compact(s), g) == View(CurrentLease(s), LastActivated(at), LastClosed(at))
  {
    var m, epochs := MaxEpoch(s), GenerationEpochs(s, g);
    SameViewIff(s, g);
    ViewAtTop(s, g, epochs);
    TopLease(s, g);
    CurrentIsHighest(s);
  }

  lemma {:induction false} FilterAll(s: Log, e: nat)
    requires forall x | x in s :: EpochOf(x) == e
    ensures InEpochs(s, {e}) == s
  {
    if s != [] {
      var t := s[..|s| - 1];
      assert s == t + [s[|s| - 1]];
      assert s[|s| - 1] in s && forall x | x in t :: x in s;
      FilterAll(t, e);
    }
  }

  // ------------------------------------------------------------------ issuing

  lemma {:induction false} LeasesAppend(s: Log, x: Record)
    ensures Leases(s + [x]) == Leases(s) + if x.Issued? then [x] else []
  {
  }

  lemma IssuedOnTop(s: Log, x: Record)
    requires x.Issued? && x.lease.epoch >= MaxEpoch(s)
    ensures HighestIssued(s + [x]) == Some(x.lease.epoch) && MaxEpoch(s + [x]) == x.lease.epoch
    ensures Leases(InEpochs(s + [x], {x.lease.epoch})) == Leases(InEpochs(s, {x.lease.epoch})) + [x]
  {
    assert (s + [x])[..|s + [x]| - 1] == s;
    if HighestIssued(s).Some? {
      var y := HighestReached(s);
      MaxBound(s, y);
    }
    LeasesAppend(InEpochs(s, {x.lease.epoch}), x);
  }

  lemma SameContentAppend(leases: seq<Record>, x: Record)
    requires x.Issued? && forall y | y in leases :: y.Issued?
    ensures SameContent(leases + [x]) <==> forall y | y in leases :: y.lease == x.lease
  {
  }

  /** From any log, even with conflicting leases at the top, one issue step leaves a unique
      current lease exactly when the epoch is below the `u64` limit or the leases that stand at
      the limit are this very lease. */
  lemma IssueIsUniqueIff(s: Log, x: Record)
    requires x.Issued? && x.lease.epoch == NextEpoch(s) && MaxEpoch(s) <= U64_MAX
    ensures CurrentLease(s + [x]).Unique? <==>
            || MaxEpoch(s) < U64_MAX
            || forall y | y in s && y.Issued? && y.lease.epoch == U64_MAX :: y.lease == x.lease
    ensures MaxEpoch(s) < U64_MAX ==> CurrentLease(s + [x]) == Unique(x)
    ensures TopIssued(s + [x])
  {
    var e := x.lease.epoch;
    IssuedOnTop(s, x);
    if MaxEpoch(s) < U64_MAX {
      FilterAbove(s, e);
    }
    var leases := Leases(InEpochs(s, {e}));
    forall y: Record
      ensures y in leases <==> y in s && y.Issued? && y.lease.epoch == e
    {
      LeasesMembers(InEpochs(s, {e}), y);
      InEpochsMembers(s, {e}, y);
    }
    SameContentAppend(leases, x);
  }

  lemma SingleMax(x: Record)
    ensures MaxEpoch([x]) == EpochOf(x)
  {
    assert [x][..0] == [];
  }

  /** A lease at the largest epoch. */
  function AtLimit(node: string): (x: Record) {
    Issued(Lease("lease", 1, CommunityNode(node, "url"), U64_MAX, 0, 1), node)
  }

  /** Two of them for different nodes: the second issue leaves a conflict. */
  lemma LimitExample(a: string, b: string)
    requires a != b
    ensures NextEpoch([AtLimit(a)]) == U64_MAX && MaxEpoch([AtLimit(a)] + [AtLimit(b)]) == U64_MAX
    ensures CurrentLease([AtLimit(a)] + [AtLimit(b)]).SplitBrain?
  {
    var s, x := [AtLimit(a)], AtLimit(b);
    SingleMax(s[0]);
    IssuedOnTop(s, x);
    IssueIsUniqueIff(s, x);
    CurrentIsHighest(s + [x]);
    assert s[0] in s && s[0].lease.host != x.lease.host;
  }
}
