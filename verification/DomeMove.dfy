/** The five-stage move of a Dome to another Spatial Context, for one move id and no other
    writer on the two instances. Every stored record is one write; a call may stop before any
    of them, because of a crash, a failed write or a refused precondition, and the next call
    resumes from the stored phase. */
module DomeMove {
  import opened Order

  datatype Status = Staging | Active | Tombstoned

  datatype Context = Topic(topic: string) | Channel(topic: string, channel: string)

  datatype Detach = Detach(moveId: string, generation: nat)

  datatype Instance = Instance(id: string, context: Context, owner: string, generation: nat,
                               status: Status, preset: string, detach: Option<Detach>,
                               replacement: Option<string>, chat: seq<string>)

  datatype Room = Room(instance: Instance, ended: bool)

  /** What is stored of one instance: the room, the canonical instance of its context and
      owner, and the cache row through which the room is found. */
  datatype Place = Place(room: Option<Room>, canonical: Option<Instance>, cached: Option<Room>)

  datatype Phase =
    Preparing | TargetStaged | SourceDetached | TargetActive | SourceTombstoned | Completed | Failed

  datatype Record = Record(moveId: string, owner: string, sourceId: string, sourceContext: Context,
                           sourceGeneration: nat, targetId: string, targetContext: Context,
                           targetGeneration: nat, preset: string, phase: Phase)

  datatype Disk = Disk(source: Place, target: Place, record: Option<Record>)

  /** The arguments of a call. `targetId` is the instance id that the target context and the
      owner determine. `deleting`: a deletion of the source is under way; `writable`: the target is
      a topic, or a channel the owner may write to; `available`: the preset and its assets are there. */
  datatype Request = Request(moveId: string, actor: string, sourceTopic: string, sourceId: string,
                             targetContext: Context, targetId: string, deleting: bool,
                             writable: bool, available: bool)

  // ------------------------------------------------------------------ one call, write by write

  function ReadRoom(p: Place): (room: Option<Room>) { if p.cached.Some? then p.room else None }

  function NextGeneration(g: nat): (n: nat) { if g < U64_MAX then g + 1 else g }

  predicate MayStart(d: Disk, q: Request) {
    var source, target := ReadRoom(d.source), ReadRoom(d.target);
    && q.moveId != "" && !q.deleting
    && source.Some? && source.value.instance.owner == q.actor && source.value.instance.status.Active?
    && d.source.canonical.Some?
    && d.source.canonical.value.id == source.value.instance.id
    && d.source.canonical.value.generation == source.value.instance.generation
    && d.source.canonical.value.status.Active?
    && source.value.instance.context != q.targetContext
    && (target.Some? ==> target.value.instance.status.Tombstoned?)
  }

  function NewRecord(d: Disk, q: Request): (r: Record)
    requires MayStart(d, q)
  {
    var source, target := ReadRoom(d.source).value.instance, ReadRoom(d.target);
    Record(q.moveId, q.actor, q.sourceId, source.context, source.generation, q.targetId, q.targetContext,
           if target.Some? then NextGeneration(target.value.instance.generation) else 1,
           source.preset, Preparing)
  }

  /** A stored move id belongs to this request. */
  predicate BoundTo(r: Record, q: Request) {
    && r.owner == q.actor && r.sourceId == q.sourceId && r.targetContext == q.targetContext
    && r.sourceContext.topic == q.sourceTopic
  }

  /** A stored move may go on. */
  predicate MayResume(r: Record, q: Request) { BoundTo(r, q) && q.writable }

  /** The target may be staged. */
  predicate MayStage(d: Disk, r: Record, q: Request) { q.available && SlotFree(d.target.canonical, r) }

  /** The owner's slot in the target context is unused, or holds this very attempt. */
  predicate SlotFree(slot: Option<Instance>, r: Record) {
    slot.Some? ==>
      || slot.value.status.Tombstoned?
      || (slot.value.id == r.targetId && slot.value.generation == r.targetGeneration
          && slot.value.status.Staging? && slot.value.preset == r.preset)
  }

  function Staged(r: Record, source: Room): (room: Room) {
    Room(source.instance.(id := r.targetId, context := r.targetContext, generation := r.targetGeneration,
                          status := Staging, detach := None, replacement := None, chat := []),
         source.ended)
  }

  function Detached(r: Record, source: Room): (room: Room) {
    source.(instance := source.instance.(detach := Some(Detach(r.moveId, r.sourceGeneration))))
  }

  function Activated(target: Room): (room: Room) {
    target.(instance := target.instance.(status := Active))
  }

  function Retired(r: Record, source: Room): (room: Room) {
    Room(source.instance.(status := Tombstoned, replacement := Some(r.targetId)), true)
  }

  /** A room, its canonical instance and its cache row are written in this order. */
  function Placed(p: Place, room: Room, n: nat): (r: Place)
    requires 1 <= n <= 3
  {
    Place(Some(room),
          if n >= 2 then Some(room.instance) else p.canonical,
          if n >= 3 then Some(room) else p.cached)
  }

  function ToTarget(d: Disk, room: Room, r: Record): (w: seq<Disk>) {
    [d.(target := Placed(d.target, room, 1)), d.(target := Placed(d.target, room, 2)),
     d.(target := Placed(d.target, room, 3)), d.(target := Placed(d.target, room, 3), record := Some(r))]
  }

  function ToSource(d: Disk, room: Room, r: Record): (w: seq<Disk>) {
    [d.(source := Placed(d.source, room, 1)), d.(source := Placed(d.source, room, 2)),
     d.(source := Placed(d.source, room, 3)), d.(source := Placed(d.source, room, 3), record := Some(r))]
  }

  /** The states after each write of the stage that the stored phase selects; none when the
      call is refused or there is nothing left to do. */
  function Stage(d: Disk, q: Request): (w: seq<Disk>) {
    if d.record.None? then
      if MayStart(d, q) then [d.(record := Some(NewRecord(d, q)))] else []
    else
      var r := d.record.value;
      var source, target := ReadRoom(d.source), ReadRoom(d.target);
      if !MayResume(r, q) then []
      else match r.phase
           case Preparing =>
             if source.Some? && MayStage(d, r, q)
             then ToTarget(d, Staged(r, source.value), r.(phase := TargetStaged)) else []
           case TargetStaged =>
             if source.Some? && source.value.instance.generation == r.sourceGeneration
             then ToSource(d, Detached(r, source.value), r.(phase := SourceDetached)) else []
           case SourceDetached =>
             if target.Some? then ToTarget(d, Activated(target.value), r.(phase := TargetActive)) else []
           case TargetActive =>
             if source.Some? then ToSource(d, Retired(r, source.value), r.(phase := SourceTombstoned)) else []
           case SourceTombstoned => [d.(record := Some(r.(phase := Completed)))]
           case Completed => []
           case Failed => []
  }

  /** A call that stops after `k` writes, if it does not end before. */
  function Call(d: Disk, q: Request, k: nat): (r: Disk)
    decreases k
  {
    var w := Stage(d, q);
    if k == 0 || w == [] then d
    else if k < |w| then w[k - 1]
    else Call(w[|w| - 1], q, k - |w|)
  }

  /** One call of a run: what it is asked, as things stand then, and where it stops. */
  datatype Attempt = Attempt(request: Request, stop: nat)

  /** A run of calls. */
  function Run(d: Disk, calls: seq<Attempt>): (r: Disk)
    decreases |calls|
  {
    if calls == [] then d else Run(Call(d, calls[0].request, calls[0].stop), calls[1..])
  }

  /** There is nothing left to do for this request. */
  predicate Returned(d: Disk, q: Request) {
    d.record.Some? && MayResume(d.record.value, q) && d.record.value.phase in {Completed, Failed}
  }

  // ------------------------------------------------------------------ the call as a method

  class Mover {
    var disk: Disk

    /** Writes `w[0]`, `w[1]`, … until the budget is spent. */
    method Write(w: seq<Disk>, left: nat) returns (rest: nat, stopped: bool)
      requires |w| > 0
      modifies this
      ensures stopped <==> left < |w|
      ensures disk == if left == 0 then old(disk) else if left < |w| then w[left - 1] else w[|w| - 1]
      ensures !stopped ==> rest == left - |w|
    {
      rest := left;
      for i := 0 to |w|
        invariant i <= left && rest == left - i
        invariant disk == if i == 0 then old(disk) else w[i - 1]
      {
        if rest == 0 { return rest, true; }
        disk := w[i];
        rest := rest - 1;
      }
      stopped := false;
    }

    /** `move_dome` with a budget of writes. `ok`: it returned the record. A call that starts a move
        and returns has moved the Dome. */
    method MoveDome(q: Request, k: nat) returns (ok: bool)
      modifies this
      ensures disk == Call(old(disk), q, k)
      ensures ok <==> Returned(disk, q)
      ensures ok && old(disk.record).None? ==> MovedFrom(old(disk), q, disk)
      // A stored move is closed to anyone else's request, and while its target cannot be written to.
      ensures old(disk.record).Some? ==>
                var r := old(disk.record).value;
                || (q.actor == r.owner && q.sourceId == r.sourceId && q.sourceTopic == r.sourceContext.topic
                    && q.targetContext == r.targetContext && q.writable)
                || (!ok && disk == old(disk))
    {
      if disk.record.None? {
        CallMoves(disk, q, k);
      }
      var left, stopped := k, false;
      ok := false;
      if disk.record.None? {
        if !MayStart(disk, q) { return; }
        var w := [disk.(record := Some(NewRecord(disk, q)))];
        assert w == Stage(disk, q);
        left, stopped := Write(w, left);
        if stopped { return; }
      }
      assert Call(old(disk), q, k) == Call(disk, q, left);
      if !MayResume(disk.record.value, q) { return; }
      var record := disk.record.value;
      if record.phase == Preparing {
        var source := ReadRoom(disk.source);
        if source.None? || !MayStage(disk, record, q) { return; }
        var next := record.(phase := TargetStaged);
        var w := ToTarget(disk, Staged(record, source.value), next);
        assert w == Stage(disk, q);
        left, stopped := Write(w, left);
        if stopped { return; }
        record := next;
      }
      assert Call(old(disk), q, k) == Call(disk, q, left) && disk.record == Some(record);
      ok := Finish(record, q, left);
    }

    /** The stages from the staged target on. */
    method Finish(was: Record, q: Request, k: nat) returns (ok: bool)
      requires disk.record == Some(was) && MayResume(was, q) && was.phase != Preparing
      modifies this
      ensures disk == Call(old(disk), q, k)
      ensures ok <==> Returned(disk, q)
    {
      var left, stopped, record := k, false, was;
      ok := false;
      if record.phase == TargetStaged {
        var source := ReadRoom(disk.source);
        if source.None? || source.value.instance.generation != record.sourceGeneration { return; }
        var next := record.(phase := SourceDetached);
        var w := ToSource(disk, Detached(record, source.value), next);
        assert w == Stage(disk, q);
        left, stopped := Write(w, left);
        if stopped { return; }
        record := next;
      }
      assert Call(old(disk), q, k) == Call(disk, q, left) && disk.record == Some(record);
      if record.phase == SourceDetached {
        var target := ReadRoom(disk.target);
        if target.None? { return; }
        var next := record.(phase := TargetActive);
        var w := ToTarget(disk, Activated(target.value), next);
        assert w == Stage(disk, q);
        left, stopped := Write(w, left);
        if stopped { return; }
        record := next;
      }
      assert Call(old(disk), q, k) == Call(disk, q, left) && disk.record == Some(record);
      ok := Close(record, q, left);
    }

    /** The stages from the active target on. */
    method Close(was: Record, q: Request, k: nat) returns (ok: bool)
      requires disk.record == Some(was) && MayResume(was, q)
      requires was.phase !in {Preparing, TargetStaged, SourceDetached}
      modifies this
      ensures disk == Call(old(disk), q, k)
      ensures ok <==> Returned(disk, q)
    {
      var left, stopped, record := k, false, was;
      ok := false;
      if record.phase == TargetActive {
        var source := ReadRoom(disk.source);
        if source.None? { return; }
        var next := record.(phase := SourceTombstoned);
        var w := ToSource(disk, Retired(record, source.value), next);
        assert w == Stage(disk, q);
        left, stopped := Write(w, left);
        if stopped { return; }
        record := next;
      }
      assert Call(old(disk), q, k) == Call(disk, q, left) && disk.record == Some(record);
      if record.phase == SourceTombstoned {
        var w := [disk.(record := Some(record.(phase := Completed)))];
        assert w == Stage(disk, q);
        left, stopped := Write(w, left);
        if stopped { return; }
      }
      assert Call(old(disk), q, k) == Call(disk, q, left);
      ok := true;
    }
  }

  // ------------------------------------------------------------------ safety

  predicate IsSource(i: Instance, r: Record) {
    i.generation == r.sourceGeneration && i.preset == r.preset
  }

  predicate HasDetach(i: Instance, r: Record) { i.detach == Some(Detach(r.moveId, r.sourceGeneration)) }

  /** The new instance, staged or active: recorded identity, generation and preset, no chat. */
  predicate IsTarget(i: Instance, r: Record) {
    && i.id == r.targetId && i.context == r.targetContext && i.generation == r.targetGeneration
    && i.preset == r.preset && i.chat == [] && i.detach.None? && i.replacement.None?
  }

  /** Both copies of the source are there. */
  predicate HasSource(d: Disk, r: Record) {
    && d.source.room.Some? && d.source.canonical.Some? && d.source.cached.Some?
    && IsSource(d.source.room.value.instance, r)
  }

  predicate HasTarget(d: Disk, r: Record) {
    && d.target.room.Some? && d.target.canonical.Some? && d.target.cached.Some?
    && IsTarget(d.target.room.value.instance, r) && IsTarget(d.target.canonical.value, r)
  }

  predicate SourceIs(d: Disk, s: Status)
    requires d.source.room.Some? && d.source.canonical.Some?
  {
    d.source.room.value.instance.status == s && d.source.canonical.value.status == s
  }

  predicate TargetIs(d: Disk, s: Status)
    requires d.target.room.Some? && d.target.canonical.Some?
  {
    d.target.room.value.instance.status == s && d.target.canonical.value.status == s
  }

  predicate NotActive(i: Option<Instance>) { i.Some? ==> !i.value.status.Active? }

  function RoomInstance(p: Place): (i: Option<Instance>) {
    if p.room.Some? then Some(p.room.value.instance) else None
  }

  predicate SourceDetachedIn(d: Disk, r: Record) {
    && HasSource(d, r)
    && HasDetach(d.source.room.value.instance, r) && HasDetach(d.source.canonical.value, r)
  }

  /** What each phase, and each write in it, leaves on disk. */
  predicate Inv(d: Disk) {
    d.record.Some? ==>
      var r := d.record.value;
      HasSource(d, r) &&
      match r.phase
      case Preparing => SourceIs(d, Active)
      case TargetStaged => SourceIs(d, Active) && HasTarget(d, r) && TargetIs(d, Staging)
      case SourceDetached =>
        && SourceIs(d, Active) && SourceDetachedIn(d, r) && HasTarget(d, r)
        && d.target.room.value.instance.status != Tombstoned
        && d.target.canonical.value.status != Tombstoned
      case TargetActive =>
        && SourceDetachedIn(d, r) && HasTarget(d, r) && TargetIs(d, Active)
      case SourceTombstoned => Moved(d, r)
      case Completed => Moved(d, r)
      case Failed => false
  }

  /** The end: the source is a tombstone that points at the target, and the target is active
      with the recorded generation and preset and an empty chat. */
  predicate Moved(d: Disk, r: Record) {
    && SourceDetachedIn(d, r) && SourceIs(d, Tombstoned)
    && d.source.room.value.instance.replacement == Some(r.targetId)
    && d.source.canonical.value.replacement == Some(r.targetId) && d.source.room.value.ended
    && HasTarget(d, r) && TargetIs(d, Active)
  }

  /** The owner always has an active Dome, and never an active target beside a source that is
      not marked, in the room copy and in the canonical copy. */
  predicate Safe(d: Disk) {
    d.record.Some? ==>
      var r := d.record.value;
      && HasSource(d, r)
      && (d.source.room.value.instance.status.Active? || !NotActive(RoomInstance(d.target)))
      && (d.source.canonical.value.status.Active? || !NotActive(d.target.canonical))
      && (!NotActive(RoomInstance(d.target)) || !NotActive(d.target.canonical) ==> SourceDetachedIn(d, r))
  }

  /** Before the target is staged, its context holds no active instance of the owner. */
  predicate Idle(d: Disk) {
    d.record.None? || d.record.value.phase.Preparing? ==>
      NotActive(RoomInstance(d.target)) && NotActive(d.target.canonical)
  }

  lemma InvIsSafe(d: Disk)
    requires Inv(d) && Idle(d)
    ensures Safe(d)
  {
  }

  predicate SameMove(r: Record, s: Record) { r == s.(phase := r.phase) }

  function Rank(d: Disk): (n: nat) {
    if d.record.None? then 0
    else match d.record.value.phase
         case Preparing => 1
         case TargetStaged => 2
         case SourceDetached => 3
         case TargetActive => 4
         case SourceTombstoned => 5
         case Completed => 6
         case Failed => 7
  }

  /** What the i-th write of a stage keeps. */
  predicate StageKept(d: Disk, q: Request, i: nat)
    requires i < |Stage(d, q)|
  {
    var e := Stage(d, q)[i];
    && Inv(e) && (Idle(d) ==> Idle(e))
    && Rank(e) == Rank(d) + (if i == |Stage(d, q)| - 1 then 1 else 0)
    && (d.record.Some? ==> e.record.Some? && SameMove(e.record.value, d.record.value))
  }

  lemma StartKeepsInv(d: Disk, q: Request, i: nat)
    requires i < |Stage(d, q)| && Inv(d) && d.record.None?
    ensures StageKept(d, q, i)
  {
  }

  lemma StagingKeepsInv(d: Disk, q: Request, i: nat)
    requires i < |Stage(d, q)| && Inv(d) && d.record.Some? && d.record.value.phase.Preparing?
    ensures StageKept(d, q, i)
  {
  }

  lemma DetachingKeepsInv(d: Disk, q: Request, i: nat)
    requires i < |Stage(d, q)| && Inv(d) && d.record.Some? && d.record.value.phase.TargetStaged?
    ensures StageKept(d, q, i)
  {
  }

  lemma ActivatingKeepsInv(d: Disk, q: Request, i: nat)
    requires i < |Stage(d, q)| && Inv(d) && d.record.Some? && d.record.value.phase.SourceDetached?
    ensures StageKept(d, q, i)
  {
  }

  lemma RetiringKeepsInv(d: Disk, q: Request, i: nat)
    requires i < |Stage(d, q)| && Inv(d) && d.record.Some? && d.record.value.phase.TargetActive?
    ensures StageKept(d, q, i)
  {
  }

  lemma CompletingKeepsInv(d: Disk, q: Request, i: nat)
    requires i < |Stage(d, q)| && Inv(d) && d.record.Some? && d.record.value.phase.SourceTombstoned?
    ensures StageKept(d, q, i)
  {
  }

  /** How many of the stored entries differ. */
  function Changed(d: Disk, e: Disk): (n: nat) {
    (if d.source.room == e.source.room then 0 else 1)
    + (if d.source.canonical == e.source.canonical then 0 else 1)
    + (if d.source.cached == e.source.cached then 0 else 1)
    + (if d.target.room == e.target.room then 0 else 1)
    + (if d.target.canonical == e.target.canonical then 0 else 1)
    + (if d.target.cached == e.target.cached then 0 else 1)
    + (if d.record == e.record then 0 else 1)
  }

  lemma OneToTarget(d: Disk, room: Room, r: Record, i: nat)
    requires i < 4
    ensures var w := ToTarget(d, room, r);
            Changed(if i == 0 then d else w[i - 1], w[i]) <= 1
  {
  }

  lemma OneToSource(d: Disk, room: Room, r: Record, i: nat)
    requires i < 4
    ensures var w := ToSource(d, room, r);
            Changed(if i == 0 then d else w[i - 1], w[i]) <= 1
  {
  }

  /** Every write changes at most one stored entry, so every state that a crash can leave between two
      of them is among those of the calls. */
  lemma OneEntryAtATime(d: Disk, q: Request, i: nat)
    requires i < |Stage(d, q)|
    ensures Changed(if i == 0 then d else Stage(d, q)[i - 1], Stage(d, q)[i]) <= 1
  {
    if d.record.Some? {
      var r, source, target := d.record.value, ReadRoom(d.source), ReadRoom(d.target);
      match r.phase
      case Preparing => OneToTarget(d, Staged(r, source.value), r.(phase := TargetStaged), i);
      case TargetStaged => OneToSource(d, Detached(r, source.value), r.(phase := SourceDetached), i);
      case SourceDetached => OneToTarget(d, Activated(target.value), r.(phase := TargetActive), i);
      case TargetActive => OneToSource(d, Retired(r, source.value), r.(phase := SourceTombstoned), i);
      case SourceTombstoned =>
    }
  }

  lemma StageKeepsInv(d: Disk, q: Request, i: nat)
    requires i < |Stage(d, q)| && Inv(d)
    ensures StageKept(d, q, i)
  {
    if d.record.None? {
      StartKeepsInv(d, q, i);
    } else {
      match d.record.value.phase
      case Preparing => StagingKeepsInv(d, q, i);
      case TargetStaged => DetachingKeepsInv(d, q, i);
      case SourceDetached => ActivatingKeepsInv(d, q, i);
      case TargetActive => RetiringKeepsInv(d, q, i);
      case SourceTombstoned => CompletingKeepsInv(d, q, i);
    }
  }

  lemma {:induction false} CallKeepsInv(d: Disk, q: Request, k: nat)
    requires Inv(d)
    ensures var e := Call(d, q, k);
            && Inv(e) && (Idle(d) ==> Idle(e)) && Rank(d) <= Rank(e)
            && (d.record.Some? ==> e.record.Some? && SameMove(e.record.value, d.record.value))
    decreases k
  {
    var w := Stage(d, q);
    if k > 0 && w != [] {
      if k < |w| {
        StageKeepsInv(d, q, k - 1);
      } else {
        StageKeepsInv(d, q, |w| - 1);
        CallKeepsInv(w[|w| - 1], q, k - |w|);
      }
    }
  }

  /** Whatever is asked from call to call. */
  lemma {:induction false} RunKeepsInv(d: Disk, calls: seq<Attempt>)
    requires Inv(d)
    ensures var e := Run(d, calls);
            && Inv(e) && (Idle(d) ==> Idle(e)) && Rank(d) <= Rank(e)
            && (d.record.Some? ==> e.record.Some? && SameMove(e.record.value, d.record.value))
    decreases |calls|
  {
    if calls != [] {
      var c := calls[0];
      CallKeepsInv(d, c.request, c.stop);
      RunKeepsInv(Call(d, c.request, c.stop), calls[1..]);
    }
  }

  /** Calls of one move; a deletion, write access and the preset may come and go between them. */
  predicate OfMove(calls: seq<Attempt>, moveId: string) {
    forall i | 0 <= i < |calls| :: calls[i].request.moveId == moveId
  }

  ghost predicate AlwaysSafe(d: Disk, moveId: string) {
    forall calls | OfMove(calls, moveId) :: Safe(Run(d, calls))
  }

  /** Every crash point of every run of a new move is safe exactly when the target context holds
      no active instance of the owner at the start. The call itself looks only at the cached
      target room before it stores its record, and at the canonical slot after. */
  lemma RunIsSafeIff(d: Disk, q: Request)
    requires d.record.None? && MayStart(d, q)
    requires !HasDetach(d.source.canonical.value, NewRecord(d, q))
    ensures AlwaysSafe(d, q.moveId) <==> Idle(d)
  {
    if Idle(d) {
      forall calls | OfMove(calls, q.moveId)
        ensures Safe(Run(d, calls))
      {
        RunKeepsInv(d, calls);
        InvIsSafe(Run(d, calls));
      }
    } else {
      var begun := d.(record := Some(NewRecord(d, q)));
      assert Stage(d, q) == [begun];
      assert Call(begun, q, 0) == begun;
      var one := [Attempt(q, 1)];
      assert Run(d, one) == Run(begun, []) == begun;
      assert OfMove(one, q.moveId) && !Safe(Run(d, one));
    }
  }

  // ------------------------------------------------------------------ completion

  /** The writes that are still to be made from a stored phase. */
  function Remaining(d: Disk): (n: nat) {
    if d.record.None? then 18
    else match d.record.value.phase
         case Preparing => 17
         case TargetStaged => 13
         case SourceDetached => 9
         case TargetActive => 5
         case SourceTombstoned => 1
         case Completed => 0
         case Failed => 0
  }

  predicate IsCompleted(d: Disk) { d.record.Some? && d.record.value.phase.Completed? && Moved(d, d.record.value) }

  /** A stored move is not kept from its end: it is there already, or the target can be written to
      and, unless it is staged, the preset is available and no other Dome of the owner stands there. */
  predicate Unblocked(d: Disk, q: Request) {
    d.record.Some? &&
      var r := d.record.value;
      r.phase.Completed? || (q.writable && (r.phase.Preparing? ==> q.available && NoOtherDome(d.target, r)))
  }

  predicate NoOtherDome(p: Place, r: Record) {
    p.canonical.None? || p.canonical.value.status.Tombstoned? ||
      var i := p.canonical.value;
      i.status.Staging? && i.id == r.targetId && i.generation == r.targetGeneration && i.preset == r.preset
  }

  lemma StageIsThere(d: Disk, q: Request)
    requires Inv(d) && d.record.Some? && BoundTo(d.record.value, q) && Unblocked(d, q) && Remaining(d) > 0
    ensures var w := Stage(d, q);
            |w| > 0 && Remaining(w[|w| - 1]) == Remaining(d) - |w| && Unblocked(w[|w| - 1], q)
  {
  }

  lemma {:induction false} Completes(d: Disk, q: Request, k: nat)
    requires Inv(d) && d.record.Some? && BoundTo(d.record.value, q) && Unblocked(d, q)
    requires k >= Remaining(d)
    ensures IsCompleted(Call(d, q, k))
    decreases k
  {
    if Remaining(d) > 0 {
      StageIsThere(d, q);
      var w := Stage(d, q);
      StageKeepsInv(d, q, |w| - 1);
      Completes(w[|w| - 1], q, k - |w|);
    }
  }

  /** From every crash point of a move, after any calls, one uninterrupted call completes it if and
      only if it is completed, or the target can be written to and either has been staged or has a
      free canonical slot and an available preset. */
  lemma CompletesIff(d: Disk, calls: seq<Attempt>, q: Request)
    requires Inv(d) && Run(d, calls).record.Some?
    requires var r := Run(d, calls).record.value;
             && q.actor == r.owner && q.sourceId == r.sourceId && q.sourceTopic == r.sourceContext.topic
             && q.targetContext == r.targetContext
    ensures var e := Run(d, calls);
            IsCompleted(Call(e, q, 18)) <==> Unblocked(e, q)
  {
    var e := Run(d, calls);
    RunKeepsInv(d, calls);
    if Unblocked(e, q) {
      Completes(e, q, 18);
    } else {
      assert Stage(e, q) == [];
    }
  }

  /** A source to be moved, and a target context in which another device has made the owner an
      active instance that is not in this device's cache. */
  function Occupied(): (d: Disk) {
    var source := Instance("s", Topic("a"), "o", 1, Active, "preset", None, None, []);
    var other := Instance("t", Topic("b"), "o", 1, Active, "preset", None, None, []);
    Disk(Place(Some(Room(source, false)), Some(source), Some(Room(source, false))),
         Place(None, Some(other), None), None)
  }

  function MoveThere(): (q: Request) { Request("m", "o", "a", "s", Topic("b"), "t", false, true, true) }

  /** The move starts, leaves two active instances with no mark on the source, and never ends. */
  lemma OccupiedExample(k: nat)
    ensures MayStart(Occupied(), MoveThere()) && !Safe(Call(Occupied(), MoveThere(), 1))
    ensures !IsCompleted(Call(Occupied(), MoveThere(), k))
  {
    var d, q := Occupied(), MoveThere();
    var begun := d.(record := Some(NewRecord(d, q)));
    assert Stage(d, q) == [begun] && Stage(begun, q) == [];
    assert Call(begun, q, 0) == begun;
    assert k > 0 ==> Call(begun, q, k - 1) == begun;
  }

  /** Once completed, no call changes anything. */
  lemma {:induction false} CompletedStays(d: Disk, calls: seq<Attempt>)
    requires IsCompleted(d)
    ensures Run(d, calls) == d
    decreases |calls|
  {
    if calls != [] {
      assert Stage(d, calls[0].request) == [];
      assert Call(d, calls[0].request, calls[0].stop) == d;
      CompletedStays(d, calls[1..]);
    }
  }

  // ------------------------------------------------------------------ what a completed move has made

  /** The Dome `s`, whatever has been marked on it. */
  predicate SameDome(i: Instance, s: Instance) {
    && i.id == s.id && i.context == s.context && i.owner == s.owner && i.generation == s.generation
    && i.preset == s.preset && i.chat == s.chat
  }

  /** The generation of an instance that follows what stood in its place: the first, or a later one
      as long as `u64` has one. */
  predicate Succeeds(g: nat, before: Option<Room>) {
    && (before.None? ==> g == 1)
    && (before.Some? ==>
          var was := before.value.instance.generation;
          was <= g <= was + 1 && (was < g <==> was < U64_MAX))
  }

  /** The record of a move that the request started on this disk: an active Dome of the actor, not
      being deleted, goes to another context, where no live Dome of the actor is known. */
  predicate Begun(d: Disk, q: Request, r: Record) {
    d.source.room.Some? && d.source.cached.Some? && d.source.canonical.Some? &&
      var s, c := d.source.room.value.instance, d.source.canonical.value;
      && s.status.Active? && c.status.Active? && c.id == s.id && c.generation == s.generation
      && s.context != q.targetContext && !q.deleting
      && (d.target.room.Some? && d.target.cached.Some? ==> d.target.room.value.instance.status.Tombstoned?)
      && r.moveId == q.moveId != "" && r.owner == q.actor == s.owner
      && r.sourceId == q.sourceId && r.sourceContext == s.context && r.sourceGeneration == s.generation
      && r.targetId == q.targetId && r.targetContext == q.targetContext && r.preset == s.preset
      && Succeeds(r.targetGeneration, ReadRoom(d.target))
  }

  /** Room, canonical instance and cache row agree. */
  predicate InStep(p: Place) {
    p.room.Some? && p.canonical == Some(p.room.value.instance) && p.cached == p.room
  }

  /** How far a move of the Dome `s` has come. */
  predicate Follows(s: Instance, e: Disk) {
    && e.record.Some? && e.source.room.Some? && SameDome(e.source.room.value.instance, s)
    && (Rank(e) >= 2 ==> e.target.room.Some? && e.target.room.value.instance.owner == s.owner)
    && (Rank(e) >= 4 ==> InStep(e.target))
    && (Rank(e) >= 5 ==> InStep(e.source))
  }

  lemma StageFollows(s: Instance, d: Disk, q: Request, i: nat)
    requires i < |Stage(d, q)| && Inv(d) && Follows(s, d)
    ensures Follows(s, Stage(d, q)[i])
  {
  }

  lemma {:induction false} CallFollows(s: Instance, d: Disk, q: Request, k: nat)
    requires Inv(d) && Follows(s, d)
    ensures Follows(s, Call(d, q, k))
    decreases k
  {
    var w := Stage(d, q);
    if k > 0 && w != [] {
      if k < |w| {
        StageFollows(s, d, q, k - 1);
      } else {
        StageFollows(s, d, q, |w| - 1);
        StageKeepsInv(d, q, |w| - 1);
        CallFollows(s, w[|w| - 1], q, k - |w|);
      }
    }
  }

  lemma {:induction false} RunFollows(s: Instance, d: Disk, calls: seq<Attempt>)
    requires Inv(d) && Follows(s, d)
    ensures Follows(s, Run(d, calls))
    decreases |calls|
  {
    if calls != [] {
      var c := calls[0];
      CallFollows(s, d, c.request, c.stop);
      CallKeepsInv(d, c.request, c.stop);
      RunFollows(s, Call(d, c.request, c.stop), calls[1..]);
    }
  }

  /** A call on a disk without a record leaves it as it is, or its record is that of its request. */
  lemma CallStarts(d: Disk, q: Request, k: nat)
    requires d.record.None?
    ensures var e := Call(d, q, k);
            if e.record.None? then e == d
            else MayStart(d, q) && Begun(d, q, e.record.value) && Follows(d.source.room.value.instance, e)
  {
    if k > 0 && MayStart(d, q) {
      var begun := d.(record := Some(NewRecord(d, q)));
      assert Stage(d, q) == [begun];
      CallKeepsInv(begun, q, k - 1);
      CallFollows(ReadRoom(d.source).value.instance, begun, q, k - 1);
    }
  }

  /** What the move that `q` asked for on the disk `d` has made of it: the target is the owner's
      active Dome in the target context, with the preset, an empty chat and a later generation than
      stood there; the source is unchanged but for the marks of its retirement. */
  predicate MovedFrom(d: Disk, q: Request, e: Disk) {
    ReadRoom(d.source).Some? && InStep(e.source) && InStep(e.target) &&
      var was := ReadRoom(d.source).value.instance;
      var source, target := e.source.room.value, e.target.room.value.instance;
      && target.id == q.targetId && target.context == q.targetContext && target.owner == q.actor == was.owner
      && target.status.Active? && target.preset == was.preset && target.chat == []
      && target.detach.None? && target.replacement.None?
      && Succeeds(target.generation, ReadRoom(d.target))
      && SameDome(source.instance, was) && source.ended && source.instance.status.Tombstoned?
      && source.instance.replacement == Some(q.targetId)
      && source.instance.detach == Some(Detach(q.moveId, was.generation))
  }

  lemma MovedFromIs(d: Disk, q: Request, e: Disk)
    requires IsCompleted(e) && Begun(d, q, e.record.value) && Follows(d.source.room.value.instance, e)
    ensures MovedFrom(d, q, e)
  {
  }

  lemma CallMoves(d: Disk, q: Request, k: nat)
    requires d.record.None?
    ensures Returned(Call(d, q, k), q) ==> MovedFrom(d, q, Call(d, q, k))
  {
    CallStarts(d, q, k);
    CallKeepsInv(d, q, k);
    if Returned(Call(d, q, k), q) {
      MovedFromIs(d, q, Call(d, q, k));
    }
  }

  /** Whatever is asked from call to call: a run from a disk without a record leaves it as it is, or
      one of its requests started the move. When the move is completed, its target is what that
      request asked for and follows what stood there. */
  lemma {:induction false} RunMoves(d: Disk, calls: seq<Attempt>) returns (i: nat)
    requires d.record.None?
    ensures Run(d, calls).record.None? ==> Run(d, calls) == d
    ensures Run(d, calls).record.Some? ==>
              && i < |calls| && MayStart(d, calls[i].request)
              && Begun(d, calls[i].request, Run(d, calls).record.value)
    ensures IsCompleted(Run(d, calls)) ==> i < |calls| && MovedFrom(d, calls[i].request, Run(d, calls))
    decreases |calls|
  {
    i := 0;
    if calls != [] {
      var q := calls[0].request;
      var e := Call(d, q, calls[0].stop);
      CallStarts(d, q, calls[0].stop);
      if e.record.None? {
        i := RunMoves(d, calls[1..]);
        i := i + 1;
      } else {
        CallKeepsInv(d, q, calls[0].stop);
        RunKeepsInv(e, calls[1..]);
        RunFollows(ReadRoom(d.source).value.instance, e, calls[1..]);
        if IsCompleted(Run(d, calls)) {
          MovedFromIs(d, q, Run(d, calls));
        }
      }
    }
  }
}
