/** The background task of topic retention: how `set_topic_retention` and start-up start it, how it ends
    when nothing is retained, and how shutdown stops it, under every interleaving.

    A step is one atomic action of one party. The mutex of the task handle is held across
    steps only by a task that re-reads the rows before it ends. */
module RetentionTask {
  import opened Order

  type Topic = string
  type TaskId = nat
  type CallId = nat

  /** Where the task stands in `run_topic_retention`. */
  datatype Pc =
    | Head            // top of the loop, before the closed flag is read
    | Round           // in a round or in the sleep after it
    | WantLock        // the round found nothing; waiting for the handle's mutex
    | Check           // holds the mutex, about to re-read the rows
    | FoundEmpty      // holds the mutex, has read that no row is stored
    | Done

  predicate Working(pc: Pc) { pc.Round? || pc.WantLock? || pc.Check? || pc.FoundEmpty? }

  /** A call of `set_topic_retention(topic, true)` or `start_topic_retention` in flight, with the
      rows it stored or found: one, or all there are. A row keeps its number until it is deleted, so
      topic and number name that very row. */
  datatype Call = Stored(rows: set<(Topic, nat)>) | Checked(rows: set<(Topic, nat)>)

  datatype State = State(
    rows: map<Topic, nat>,           // stored rows, by topic
    nextRow: nat,
    closed: bool,
    lock: Option<TaskId>,
    owner: Option<TaskId>,           // the handle behind the mutex
    tasks: map<TaskId, Pc>,
    nextTask: TaskId,
    aborted: set<TaskId>,
    calls: map<CallId, Call>,
    returned: set<(Topic, nat)>)     // rows whose set call, or start-up, has returned successfully

  datatype Action =
    | PutRow(call: CallId, topic: Topic)    // the call stores its row, or finds it stored
    | ReadAtStart(call: CallId, reclaimed: bool)   // start-up reads the rows
    | CheckClosed(call: CallId)
    | Start(call: CallId)                   // under the mutex: see a live task, or spawn one
    | DeleteRow(topic: Topic)
    | Close                                 // shutdown sets the flag
    | TakeHandle                            // shutdown takes the handle and aborts the task
    | EnterRound(task: TaskId)
    | LeaveClosed(task: TaskId)
    | NextLoop(task: TaskId)
    | NothingToDo(task: TaskId)
    | Lock(task: TaskId)
    | ReadRows(task: TaskId, failed: bool)
    | Exit(task: TaskId)
    | Cancelled(task: TaskId)               // an aborted task stops at an await

  predicate At(s: State, t: TaskId, pc: Pc) { t in s.tasks && s.tasks[t] == pc }

  predicate Alive(s: State, t: TaskId) { t in s.tasks && !s.tasks[t].Done? }

  predicate Enabled(s: State, a: Action) {
    match a
    case PutRow(c, _) => c !in s.calls
    case ReadAtStart(c, _) => c !in s.calls
    case CheckClosed(c) => c in s.calls && s.calls[c].Stored?
    case Start(c) => c in s.calls && s.calls[c].Checked? && s.lock.None?
    case DeleteRow(_) => true
    case Close => true
    case TakeHandle => s.closed && s.lock.None?
    case EnterRound(t) => At(s, t, Head) && !s.closed
    case LeaveClosed(t) => At(s, t, Head) && s.closed
    case NextLoop(t) => At(s, t, Round)
    case NothingToDo(t) => At(s, t, Round)
    case Lock(t) => At(s, t, WantLock) && s.lock.None?
    case ReadRows(t, _) => At(s, t, Check)
    case Exit(t) => At(s, t, FoundEmpty)
    case Cancelled(t) => t in s.aborted && Alive(s, t) && !At(s, t, FoundEmpty)
  }

  function Goes(s: State, t: TaskId, pc: Pc): (r: State) { s.(tasks := s.tasks[t := pc]) }

  function Apply(s: State, a: Action): (r: State)
    requires Enabled(s, a)
  {
    match a
    case PutRow(c, topic) =>
      if topic in s.rows then s.(calls := s.calls[c := Stored({(topic, s.rows[topic])})])
      else s.(rows := s.rows[topic := s.nextRow], nextRow := s.nextRow + 1,
              calls := s.calls[c := Stored({(topic, s.nextRow)})])
    // With nothing retained and nothing left to reclaim, start-up starts no task.
    case ReadAtStart(c, reclaimed) =>
      if s.rows == map[] && !reclaimed then s else s.(calls := s.calls[c := Stored(s.rows.Items)])
    case CheckClosed(c) =>
      if s.closed then s.(calls := s.calls - {c})
      else s.(calls := s.calls[c := Checked(s.calls[c].rows)])
    case Start(c) =>
      var done := s.(calls := s.calls - {c}, returned := s.returned + s.calls[c].rows);
      if s.owner.Some? && Alive(s, s.owner.value) then done
      else
        done.(owner := Some(s.nextTask), tasks := s.tasks[s.nextTask := Head], nextTask := s.nextTask + 1)
    case DeleteRow(topic) => s.(rows := s.rows - {topic})
    case Close => s.(closed := true)
    case TakeHandle =>
      s.(owner := None, aborted := if s.owner.Some? then s.aborted + {s.owner.value} else s.aborted)
    case EnterRound(t) => Goes(s, t, Round)
    case LeaveClosed(t) => Goes(s, t, Done)
    case NextLoop(t) => Goes(s, t, Head)
    case NothingToDo(t) => Goes(s, t, WantLock)
    case Lock(t) => Goes(s, t, Check).(lock := Some(t))
    case ReadRows(t, failed) =>
      if !failed && s.rows == map[] then Goes(s, t, FoundEmpty)
      else Goes(s, t, Head).(lock := None)
    case Exit(t) =>
      Goes(s, t, Done).(lock := None, owner := None,
                        aborted := if s.owner.Some? then s.aborted + {s.owner.value} else s.aborted)
    case Cancelled(t) =>
      Goes(s, t, Done).(lock := if s.lock == Some(t) then None else s.lock)
  }

  /** At start-up the rows of an earlier process may be stored; nothing runs yet. */
  predicate Init(s: State) {
    && !s.closed && s.lock.None? && s.owner.None? && s.tasks == map[] && s.aborted == {}
    && s.calls == map[] && s.returned == {}
    && forall topic | topic in s.rows :: s.rows[topic] < s.nextRow
  }

  // ------------------------------------------------------------------ the two promises

  predicate AtMostOneWorking(s: State) {
    forall t, u | t in s.tasks && u in s.tasks && Working(s.tasks[t]) && Working(s.tasks[u]) :: t == u
  }

  /** Some row stored or found by a call that has returned is still stored. */
  predicate Promised(s: State) {
    exists topic | topic in s.rows :: (topic, s.rows[topic]) in s.returned
  }

  predicate RetainedTopicsAreServed(s: State) {
    !s.closed && Promised(s) ==> s.owner.Some? && Alive(s, s.owner.value)
  }

  predicate Safe(s: State) { AtMostOneWorking(s) && RetainedTopicsAreServed(s) }

  // ------------------------------------------------------------------ why they hold

  predicate RowsNumbered(s: State) {
    && (forall topic | topic in s.rows :: s.rows[topic] < s.nextRow)
    && (forall p | p in s.returned :: p.1 < s.nextRow)
    && forall c, p | c in s.calls && p in s.calls[c].rows :: p.1 < s.nextRow
  }

  /** Exactly the task that re-reads the rows holds the mutex. */
  predicate LockHeld(s: State) {
    && (s.lock.Some? ==> s.lock.value in s.tasks)
    && forall t | t in s.tasks :: s.tasks[t].Check? || s.tasks[t].FoundEmpty? <==> s.lock == Some(t)
  }

  /** Until shutdown, the task behind the mutex is the only one alive. */
  predicate OnlyOwnerAlive(s: State) {
    !s.closed ==>
      && (forall t | t in s.aborted :: t in s.tasks && s.tasks[t].Done?)
      && forall t | t in s.tasks && !s.tasks[t].Done? :: s.owner == Some(t)
  }

  /** A task about to exit has seen that no promised row is stored, and none can appear while
      it holds the mutex. */
  predicate ExitIsClear(s: State) {
    !s.closed && s.lock.Some? && At(s, s.lock.value, FoundEmpty) ==> !Promised(s)
  }

  predicate Inv(s: State) {
    && Safe(s) && RowsNumbered(s) && LockHeld(s) && OnlyOwnerAlive(s) && ExitIsClear(s)
    && forall t | t in s.tasks :: t < s.nextTask
  }

  predicate InLoop(a: Action) { a.EnterRound? || a.LeaveClosed? || a.NextLoop? || a.NothingToDo? }

  predicate WithLock(a: Action) { a.Lock? || a.ReadRows? }

  predicate Ends(a: Action) { a.Exit? || a.Cancelled? }

  predicate IsCall(a: Action) { a.PutRow? || a.ReadAtStart? || a.CheckClosed? || a.Start? }

  lemma LoopKeepsInv(s: State, a: Action)
    requires Inv(s) && Enabled(s, a) && InLoop(a)
    ensures Inv(Apply(s, a))
  {
  }

  lemma TakingKeepsInv(s: State, a: Action)
    requires Inv(s) && Enabled(s, a) && a.Lock?
    ensures Inv(Apply(s, a))
  {
  }

  lemma ReadingKeepsInv(s: State, a: Action)
    requires Inv(s) && Enabled(s, a) && a.ReadRows?
    ensures Inv(Apply(s, a))
  {
  }

  lemma LockKeepsInv(s: State, a: Action)
    requires Inv(s) && Enabled(s, a) && WithLock(a)
    ensures Inv(Apply(s, a))
  {
    if a.Lock? {
      TakingKeepsInv(s, a);
    } else {
      ReadingKeepsInv(s, a);
    }
  }

  lemma EndKeepsInv(s: State, a: Action)
    requires Inv(s) && Enabled(s, a) && Ends(a)
    ensures Inv(Apply(s, a))
  {
  }

  /** A row that a call stores is not promised yet, and a row that is there keeps its number. */
  lemma StoringKeepsInv(s: State, a: Action)
    requires Inv(s) && Enabled(s, a) && (a.PutRow? || a.ReadAtStart?)
    ensures Inv(Apply(s, a))
  {
  }

  lemma CheckingKeepsInv(s: State, a: Action)
    requires Inv(s) && Enabled(s, a) && a.CheckClosed?
    ensures Inv(Apply(s, a))
  {
  }

  lemma StartingKeepsInv(s: State, a: Action)
    requires Inv(s) && Enabled(s, a) && a.Start?
    ensures Inv(Apply(s, a))
  {
  }

  lemma CallKeepsInv(s: State, a: Action)
    requires Inv(s) && Enabled(s, a) && IsCall(a)
    ensures Inv(Apply(s, a))
  {
    if a.PutRow? || a.ReadAtStart? {
      StoringKeepsInv(s, a);
    } else if a.CheckClosed? {
      CheckingKeepsInv(s, a);
    } else {
      StartingKeepsInv(s, a);
    }
  }

  lemma OthersKeepInv(s: State, a: Action)
    requires Inv(s) && Enabled(s, a) && (a.DeleteRow? || a.Close? || a.TakeHandle?)
    ensures Inv(Apply(s, a))
  {
  }

  lemma StepKeepsInv(s: State, a: Action)
    requires Inv(s) && Enabled(s, a)
    ensures Inv(Apply(s, a))
  {
    if InLoop(a) {
      LoopKeepsInv(s, a);
    } else if WithLock(a) {
      LockKeepsInv(s, a);
    } else if Ends(a) {
      EndKeepsInv(s, a);
    } else if IsCall(a) {
      CallKeepsInv(s, a);
    } else {
      OthersKeepInv(s, a);
    }
  }

  ghost predicate StepsTo(s: State, a: Action, r: State) { Enabled(s, a) && r == Apply(s, a) }

  ghost predicate CanStep(s: State, r: State) { exists a :: StepsTo(s, a, r) }

  ghost predicate IsRun(run: seq<State>) {
    run != [] && Init(run[0]) && forall i | 0 <= i < |run| - 1 :: CanStep(run[i], run[i + 1])
  }

  /** In every run, at most one task works, and every topic whose set call has returned, or that
      start-up found, and whose row is still stored has a live task, unless the service was closed. */
  lemma {:induction false} EveryRunIsSafe(run: seq<State>, i: nat)
    requires IsRun(run) && i < |run|
    ensures Inv(run[i])
  {
    if i > 0 {
      EveryRunIsSafe(run, i - 1);
      assert CanStep(run[i - 1], run[i - 1 + 1]);
      var a :| StepsTo(run[i - 1], a, run[i]);
      StepKeepsInv(run[i - 1], a);
    }
  }

  // ------------------------------------------------------------------ what a call that returned has done

  /** A run with the actions that make it. */
  ghost predicate IsTrace(run: seq<State>, acts: seq<Action>) {
    && |run| == |acts| + 1 && Init(run[0])
    && forall i | 0 <= i < |acts| :: StepAt(run, acts, i)
  }

  ghost predicate StepAt(run: seq<State>, acts: seq<Action>, i: nat)
    requires i < |acts| < |run|
  {
    StepsTo(run[i], acts[i], run[i + 1])
  }

  lemma TraceIsRun(run: seq<State>, acts: seq<Action>)
    requires IsTrace(run, acts)
    ensures IsRun(run)
  {
    forall i | 0 <= i < |run| - 1
      ensures CanStep(run[i], run[i + 1])
    {
      assert StepAt(run, acts, i);
    }
  }

  /** A row is stored by a set call for its topic and deleted by a release of its topic; nothing else
      touches it. */
  lemma RowsChange(s: State, a: Action, topic: Topic)
    requires Enabled(s, a)
    ensures var r := Apply(s, a);
            && (a.PutRow? && a.topic == topic ==>
                  topic in r.rows && (topic in s.rows ==> r.rows[topic] == s.rows[topic]))
            && (a == DeleteRow(topic) ==> topic !in r.rows)
            && (!(a.PutRow? && a.topic == topic) && a != DeleteRow(topic) ==>
                  && (topic in r.rows <==> topic in s.rows)
                  && (topic in s.rows ==> r.rows[topic] == s.rows[topic]))
  {
  }

  /** While the service is open a call stays in flight, with its rows, until it starts the task. */
  lemma CallStays(s: State, a: Action, c: CallId)
    requires Enabled(s, a) && c in s.calls && a != Start(c) && !Apply(s, a).closed
    ensures c in Apply(s, a).calls && Apply(s, a).calls[c].rows == s.calls[c].rows
  {
  }

  lemma StaysOpen(s: State, a: Action)
    requires Enabled(s, a) && !Apply(s, a).closed
    ensures !s.closed
  {
  }

  /** The same from action to action. */
  lemma {:induction false} CallLasts(run: seq<State>, acts: seq<Action>, i: nat, j: nat, c: CallId)
    requires IsTrace(run, acts) && i <= j < |run| && !run[j].closed && c in run[i].calls
    requires forall k | i <= k < j :: acts[k] != Start(c)
    ensures !run[i].closed && c in run[j].calls && run[j].calls[c].rows == run[i].calls[c].rows
    decreases j
  {
    if i < j {
      assert StepAt(run, acts, j - 1);
      StaysOpen(run[j - 1], acts[j - 1]);
      CallLasts(run, acts, i, j - 1, c);
      CallStays(run[j - 1], acts[j - 1], c);
    }
  }

  lemma {:induction false} RowLasts(run: seq<State>, acts: seq<Action>, i: nat, j: nat, topic: Topic)
    requires IsTrace(run, acts) && i <= j < |run| && topic in run[i].rows
    requires forall k | i <= k < j :: acts[k] != DeleteRow(topic)
    ensures topic in run[j].rows && run[j].rows[topic] == run[i].rows[topic]
    decreases j
  {
    if i < j {
      RowLasts(run, acts, i, j - 1, topic);
      assert StepAt(run, acts, j - 1);
      RowsChange(run[j - 1], acts[j - 1], topic);
    }
  }

  /** When the task has been started for a call, its rows are promised. */
  lemma StartPromises(s: State, c: CallId)
    requires Enabled(s, Start(c))
    ensures s.calls[c].rows <= Apply(s, Start(c)).returned && c !in Apply(s, Start(c)).calls
    ensures Apply(s, Start(c)).rows == s.rows && Apply(s, Start(c)).closed == s.closed
  {
  }

  /** In every run: a set call that has returned, with the service open and no release of the topic
      in between, has its topic retained, and a live task serves it. */
  lemma SetIsServed(run: seq<State>, acts: seq<Action>, i: nat, j: nat, c: CallId, topic: Topic)
    requires IsTrace(run, acts) && i < j < |acts| && !run[j + 1].closed
    requires acts[i] == PutRow(c, topic) && acts[j] == Start(c)
    requires forall k | i < k < j :: acts[k] != Start(c) && acts[k] != DeleteRow(topic)
    ensures var s := run[j + 1];
            && topic in s.rows && (topic, s.rows[topic]) in s.returned
            && s.owner.Some? && Alive(s, s.owner.value)
  {
    assert StepAt(run, acts, i) && StepAt(run, acts, j);
    RowsChange(run[i], acts[i], topic);
    StartPromises(run[j], c);
    CallLasts(run, acts, i + 1, j, c);
    RowLasts(run, acts, i + 1, j, topic);
    assert (topic, run[i + 1].rows[topic]) in run[i + 1].calls[c].rows;
    TraceIsRun(run, acts);
    EveryRunIsSafe(run, j + 1);
    assert Promised(run[j + 1]);
  }

  /** In every run: once start-up has returned with the service open, every topic that was retained
      when it read the rows, and has not been released since, is served. */
  lemma StartUpServes(run: seq<State>, acts: seq<Action>, i: nat, j: nat, c: CallId, reclaimed: bool, topic: Topic)
    requires IsTrace(run, acts) && i < j < |acts| && !run[j + 1].closed && topic in run[i].rows
    requires acts[i] == ReadAtStart(c, reclaimed) && acts[j] == Start(c)
    requires forall k | i < k < j :: acts[k] != Start(c) && acts[k] != DeleteRow(topic)
    ensures var s := run[j + 1];
            && topic in s.rows && (topic, s.rows[topic]) in s.returned
            && s.owner.Some? && Alive(s, s.owner.value)
  {
    assert StepAt(run, acts, i) && StepAt(run, acts, j);
    RowsChange(run[i], acts[i], topic);
    StartPromises(run[j], c);
    CallLasts(run, acts, i + 1, j, c);
    RowLasts(run, acts, i + 1, j, topic);
    assert (topic, run[i].rows[topic]) in run[i].rows.Items;
    TraceIsRun(run, acts);
    EveryRunIsSafe(run, j + 1);
    assert Promised(run[j + 1]);
  }
}
