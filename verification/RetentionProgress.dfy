/** What the retention task and its callers can still do from every state: a set call can return, work
    goes on while a promised topic is retained, the task ends when nothing is, and shutdown ends every
    task after finitely many steps. */
module RetentionProgress {
  import opened Order
  import opened RetentionTask

  // ------------------------------------------------------------------ continuations

  /** The actions can be taken one after the other. */
  predicate CanFollow(s: State, acts: seq<Action>)
    decreases |acts|
  {
    acts == [] || (Enabled(s, acts[0]) && CanFollow(Apply(s, acts[0]), acts[1..]))
  }

  function After(s: State, acts: seq<Action>): (r: State)
    requires CanFollow(s, acts)
    decreases |acts|
  {
    if acts == [] then s else After(Apply(s, acts[0]), acts[1..])
  }

  lemma FollowOne(s: State, a: Action, rest: seq<Action>)
    requires Enabled(s, a) && CanFollow(Apply(s, a), rest)
    ensures CanFollow(s, [a] + rest) && After(s, [a] + rest) == After(Apply(s, a), rest)
  {
    assert ([a] + rest)[1..] == rest;
  }

  predicate NoneAlive(s: State) { forall t | t in s.tasks :: s.tasks[t].Done? }

  // ------------------------------------------------------------------ no task is left behind

  /** Every live task is the one behind the handle, or has been aborted. */
  predicate NoStray(s: State) {
    forall t | t in s.tasks && !s.tasks[t].Done? :: s.owner == Some(t) || t in s.aborted
  }

  lemma StepKeepsHold(s: State, a: Action)
    requires NoStray(s) && Enabled(s, a)
    ensures NoStray(Apply(s, a))
  {
  }

  lemma {:induction false} NoTaskIsLost(run: seq<State>, i: nat)
    requires IsRun(run) && i < |run|
    ensures NoStray(run[i])
  {
    if i > 0 {
      NoTaskIsLost(run, i - 1);
      assert CanStep(run[i - 1], run[i - 1 + 1]);
      var a :| StepsTo(run[i - 1], a, run[i]);
      StepKeepsHold(run[i - 1], a);
    }
  }

  /** When shutdown takes the handle, the task behind it stops at its next await. */
  lemma HandleStopsTask(s: State, t: TaskId)
    requires Inv(s) && Enabled(s, TakeHandle) && s.owner == Some(t) && Alive(s, t)
    ensures var r := Apply(s, TakeHandle);
            r.owner.None? && Enabled(r, Cancelled(t)) && At(Apply(r, Cancelled(t)), t, Done)
  {
  }

  // ------------------------------------------------------------------ the end after shutdown

  predicate TaskStep(a: Action) { InLoop(a) || WithLock(a) || Ends(a) }

  function Weight(pc: Pc): (n: nat) {
    match pc
    case Done => 0
    case Head => 1
    case FoundEmpty => 2
    case Check => 3
    case WantLock => 4
    case Round => 5
  }

  function TaskWork(tasks: map<TaskId, Pc>, n: nat): (w: nat) {
    if n == 0 then 0 else TaskWork(tasks, n - 1) + if n - 1 in tasks then Weight(tasks[n - 1]) else 0
  }

  function CheckedCalls(s: State): (r: set<CallId>) { set c | c in s.calls && s.calls[c].Checked? }

  /** A bound on the steps that tasks can take once the service is closed: those of the tasks there
      are, and of one for each call that has passed the closed flag. */
  function Work(s: State): (n: nat) { TaskWork(s.tasks, s.nextTask) + 2 * |CheckedCalls(s)| }

  lemma {:induction false} WorkMoves(tasks: map<TaskId, Pc>, t: TaskId, pc: Pc, n: nat)
    requires t in tasks
    ensures TaskWork(tasks[t := pc], n) == TaskWork(tasks, n) + if t < n then Weight(pc) - Weight(tasks[t]) else 0
  {
    if n > 0 {
      WorkMoves(tasks, t, pc, n - 1);
    }
  }

  lemma {:induction false} WorkAdds(tasks: map<TaskId, Pc>, t: TaskId, pc: Pc, n: nat)
    requires n <= t
    ensures TaskWork(tasks[t := pc], n) == TaskWork(tasks, n)
  {
    if n > 0 {
      WorkAdds(tasks, t, pc, n - 1);
    }
  }

  lemma TaskStepWorks(s: State, a: Action)
    requires Inv(s) && s.closed && Enabled(s, a) && TaskStep(a)
    ensures Apply(s, a).closed && Work(Apply(s, a)) < Work(s)
  {
    var t, r := a.task, Apply(s, a);
    assert r.tasks == s.tasks[t := r.tasks[t]] && r.calls == s.calls && r.nextTask == s.nextTask;
    assert Weight(r.tasks[t]) < Weight(s.tasks[t]);
    WorkMoves(s.tasks, t, r.tasks[t], s.nextTask);
    assert CheckedCalls(r) == CheckedCalls(s);
  }

  lemma StartWorks(s: State, c: CallId)
    requires s.closed && Enabled(s, Start(c))
    ensures Apply(s, Start(c)).closed && Work(Apply(s, Start(c))) <= Work(s)
  {
    var r := Apply(s, Start(c));
    assert CheckedCalls(r) == CheckedCalls(s) - {c};
    WorkAdds(s.tasks, s.nextTask, Head, s.nextTask);
  }

  lemma OthersWork(s: State, a: Action)
    requires s.closed && Enabled(s, a) && !TaskStep(a)
    ensures Apply(s, a).closed && Work(Apply(s, a)) <= Work(s)
  {
    if a.Start? {
      StartWorks(s, a.call);
    } else {
      assert CheckedCalls(Apply(s, a)) == CheckedCalls(s);
    }
  }

  function TaskSteps(acts: seq<Action>): (n: nat) {
    if acts == [] then 0 else TaskSteps(acts[..|acts| - 1]) + if TaskStep(acts[|acts| - 1]) then 1 else 0
  }

  lemma ClosedStep(s: State, a: Action, r: State)
    requires Inv(s) && s.closed && StepsTo(s, a, r)
    ensures r.closed && Work(r) + (if TaskStep(a) then 1 else 0) <= Work(s)
  {
    if TaskStep(a) {
      TaskStepWorks(s, a);
    } else {
      OthersWork(s, a);
    }
  }

  lemma ClosedAt(run: seq<State>, acts: seq<Action>, k: nat)
    requires IsTrace(run, acts) && k < |acts| && run[k].closed
    ensures run[k + 1].closed && Work(run[k + 1]) + (if TaskStep(acts[k]) then 1 else 0) <= Work(run[k])
  {
    assert StepAt(run, acts, k);
    TraceIsRun(run, acts);
    EveryRunIsSafe(run, k);
    ClosedStep(run[k], acts[k], run[k + 1]);
  }

  lemma StepsSnoc(acts: seq<Action>, i: nat, j: nat)
    requires i < j <= |acts|
    ensures TaskSteps(acts[i..j]) == TaskSteps(acts[i..j - 1]) + if TaskStep(acts[j - 1]) then 1 else 0
  {
    assert acts[i..j][..j - 1 - i] == acts[i..j - 1];
  }

  /** In every run: from the moment the service is closed it stays closed, and the tasks take no more
      steps than there was work then, whatever calls come in. */
  lemma {:induction false} ShutdownIsBounded(run: seq<State>, acts: seq<Action>, i: nat, j: nat)
    requires IsTrace(run, acts) && i <= j < |run| && run[i].closed
    ensures run[j].closed && Work(run[j]) + TaskSteps(acts[i..j]) <= Work(run[i])
    decreases j
  {
    if i < j {
      ShutdownIsBounded(run, acts, i, j - 1);
      ClosedAt(run, acts, j - 1);
      StepsSnoc(acts, i, j);
    }
  }

  /** While a task lives after that, some task can take a step. */
  lemma ClosedCanStep(s: State, t: TaskId) returns (a: Action)
    requires Inv(s) && s.closed && Alive(s, t)
    ensures TaskStep(a) && Enabled(s, a)
  {
    if s.lock.Some? {
      var u := s.lock.value;
      a := if s.tasks[u].Check? then ReadRows(u, false) else Exit(u);
    } else {
      match s.tasks[t]
      case Head => a := LeaveClosed(t);
      case Round => a := NextLoop(t);
      case WantLock => a := Lock(t);
    }
  }

  lemma {:induction false} CanEnd(s: State) returns (acts: seq<Action>)
    requires Inv(s) && s.closed
    ensures CanFollow(s, acts)
    ensures var r := After(s, acts);
            Inv(r) && r.closed && NoneAlive(r) && r.lock.None? && |acts| <= Work(s)
    decreases Work(s)
  {
    if NoneAlive(s) {
      acts := [];
    } else {
      var t :| t in s.tasks && !s.tasks[t].Done?;
      var a := ClosedCanStep(s, t);
      StepKeepsInv(s, a);
      TaskStepWorks(s, a);
      var rest := CanEnd(Apply(s, a));
      FollowOne(s, a, rest);
      acts := [a] + rest;
    }
  }

  lemma NoRoundStarts(s: State, a: Action, r: State, t: TaskId)
    requires s.closed && StepsTo(s, a, r) && t in r.tasks && Working(r.tasks[t])
    ensures t in s.tasks && Working(s.tasks[t])
  {
  }

  /** No task starts a round once the service is closed. */
  lemma {:induction false} NoNewRound(run: seq<State>, acts: seq<Action>, i: nat, j: nat, t: TaskId)
    requires IsTrace(run, acts) && i <= j < |run| && run[i].closed
    requires t in run[j].tasks && Working(run[j].tasks[t])
    ensures t in run[i].tasks && Working(run[i].tasks[t])
    decreases j
  {
    if i < j {
      ShutdownIsBounded(run, acts, i, j - 1);
      assert StepAt(run, acts, j - 1);
      NoRoundStarts(run[j - 1], acts[j - 1], run[j], t);
      NoNewRound(run, acts, i, j - 1, t);
    }
  }

  predicate Opens(a: Action, c: CallId) { (a.PutRow? || a.ReadAtStart?) && a.call == c }

  /** A call that begins after the service was closed does not start a task: it ends when it checks. */
  lemma {:induction false} LateCallFails(run: seq<State>, acts: seq<Action>, i: nat, j: nat, c: CallId)
    requires IsTrace(run, acts) && i < j < |run| && run[i].closed && Opens(acts[i], c)
    requires forall k | i < k < j :: !Opens(acts[k], c)
    ensures run[j].closed && (c in run[j].calls ==> run[j].calls[c].Stored?) && !Enabled(run[j], Start(c))
    ensures acts[j - 1] == CheckClosed(c) ==> c !in run[j].calls
    decreases j
  {
    assert StepAt(run, acts, j - 1);
    if i < j - 1 {
      LateCallFails(run, acts, i, j - 1, c);
    }
  }

  // ------------------------------------------------------------------ while the service is open

  /** Shutdown can end the service from every state, and leaves no task and no handle. */
  lemma CanShutDown(s: State) returns (acts: seq<Action>)
    requires Inv(s)
    ensures CanFollow(s, acts)
    ensures After(s, acts).closed && NoneAlive(After(s, acts)) && After(s, acts).owner.None?
  {
    var closed := Apply(s, Close);
    StepKeepsInv(s, Close);
    var rest := CanEnd(closed);
    FollowOne(After(closed, rest), TakeHandle, []);
    FollowOn(closed, rest, [TakeHandle] + []);
    FollowOne(s, Close, rest + ([TakeHandle] + []));
    acts := [Close] + (rest + ([TakeHandle] + []));
  }

  /** The mutex can be had. */
  lemma CanUnlock(s: State) returns (acts: seq<Action>)
    requires Inv(s)
    ensures CanFollow(s, acts)
    ensures var r := After(s, acts);
            Inv(r) && r.lock.None? && r.closed == s.closed && r.rows == s.rows && r.calls == s.calls
  {
    acts := [];
    if s.lock.Some? {
      var u := s.lock.value;
      var a := if s.tasks[u].Check? then ReadRows(u, true) else Exit(u);
      StepKeepsInv(s, a);
      FollowOne(s, a, []);
      acts := [a] + [];
    }
  }

  /** A call that has its rows can return, with a live task. */
  lemma CallCanReturn(s: State, c: CallId) returns (acts: seq<Action>)
    requires Inv(s) && !s.closed && c in s.calls && s.calls[c].Stored?
    ensures CanFollow(s, acts)
    ensures var r := After(s, acts);
            && r.rows == s.rows && s.calls[c].rows <= r.returned && c !in r.calls && !r.closed
            && r.owner.Some? && Alive(r, r.owner.value)
  {
    var checked := Apply(s, CheckClosed(c));
    StepKeepsInv(s, CheckClosed(c));
    var rest := CanUnlock(checked);
    var free := After(checked, rest);
    FollowOne(free, Start(c), []);
    FollowOn(checked, rest, [Start(c)] + []);
    FollowOne(s, CheckClosed(c), rest + ([Start(c)] + []));
    acts := [CheckClosed(c)] + (rest + ([Start(c)] + []));
  }

  lemma {:induction false} FollowOn(s: State, acts: seq<Action>, more: seq<Action>)
    requires CanFollow(s, acts) && CanFollow(After(s, acts), more)
    ensures CanFollow(s, acts + more) && After(s, acts + more) == After(After(s, acts), more)
    decreases |acts|
  {
    if acts == [] {
      assert acts + more == more;
    } else {
      FollowOn(Apply(s, acts[0]), acts[1..], more);
      assert (acts + more)[0] == acts[0] && (acts + more)[1..] == acts[1..] + more;
    }
  }

  /** From every state of the open service a topic can be retained and served. */
  lemma SetCanReturn(s: State, c: CallId, topic: Topic) returns (acts: seq<Action>)
    requires Inv(s) && !s.closed && c !in s.calls
    ensures CanFollow(s, acts)
    ensures var r := After(s, acts);
            && topic in r.rows && (topic, r.rows[topic]) in r.returned && !r.closed
            && r.owner.Some? && Alive(r, r.owner.value)
  {
    var a := PutRow(c, topic);
    StepKeepsInv(s, a);
    var r := Apply(s, a);
    assert topic in r.rows && r.calls[c] == Stored({(topic, r.rows[topic])});
    var rest := CallCanReturn(r, c);
    FollowOne(s, a, rest);
    acts := [a] + rest;
    assert (topic, r.rows[topic]) in r.calls[c].rows;
  }

  /** Start-up begins a task exactly when a row is stored or something is left to reclaim. */
  lemma StartUpCanReturn(s: State, c: CallId, reclaimed: bool) returns (acts: seq<Action>)
    requires Inv(s) && !s.closed && c !in s.calls
    ensures CanFollow(s, acts) && acts != [] && acts[0] == ReadAtStart(c, reclaimed)
    ensures s.rows == map[] && !reclaimed ==> |acts| == 1 && After(s, acts) == s
    ensures s.rows != map[] || reclaimed ==>
              var r := After(s, acts);
              s.rows.Items <= r.returned && r.owner.Some? && Alive(r, r.owner.value)
  {
    var a := ReadAtStart(c, reclaimed);
    StepKeepsInv(s, a);
    var rest := [];
    if s.rows != map[] || reclaimed {
      rest := CallCanReturn(Apply(s, a), c);
    }
    FollowOne(s, a, rest);
    acts := [a] + rest;
  }

  predicate AllOf(acts: seq<Action>, t: TaskId) {
    forall i | 0 <= i < |acts| :: TaskStep(acts[i]) && acts[i].task == t
  }

  /** While a promised row is stored, the task can go into its next round, on its own. */
  lemma NextRound(s: State, t: TaskId) returns (acts: seq<Action>)
    requires Inv(s) && !s.closed && Promised(s) && s.owner == Some(t)
    ensures AllOf(acts, t) && acts != [] && acts[|acts| - 1] == EnterRound(t)
    ensures CanFollow(s, acts) && At(After(s, acts), t, Round) && After(s, acts).owner == Some(t)
    decreases Weight(s.tasks[t])
  {
    var a;
    match s.tasks[t] {
      case Head => a := EnterRound(t);
      case Round => a := NextLoop(t);
      case WantLock => a := Lock(t);
      case Check => a := ReadRows(t, false);
    }
    StepKeepsInv(s, a);
    var rest := [];
    if !a.EnterRound? {
      rest := NextRound(Apply(s, a), t);
    }
    FollowOne(s, a, rest);
    acts := [a] + rest;
  }

  function ToExit(pc: Pc): (n: nat) {
    match pc
    case Head => 5
    case Round => 4
    case WantLock => 3
    case Check => 2
    case FoundEmpty => 1
    case Done => 0
  }

  /** When no row is stored, the task can end, on its own, and clears the handle. */
  lemma TaskCanEnd(s: State, t: TaskId) returns (acts: seq<Action>)
    requires Inv(s) && !s.closed && s.rows == map[] && s.owner == Some(t) && Alive(s, t)
    ensures AllOf(acts, t) && CanFollow(s, acts)
    ensures After(s, acts).owner.None? && NoneAlive(After(s, acts))
    decreases ToExit(s.tasks[t])
  {
    var a;
    match s.tasks[t] {
      case Head => a := EnterRound(t);
      case Round => a := NothingToDo(t);
      case WantLock => a := Lock(t);
      case Check => a := ReadRows(t, false);
      case FoundEmpty => a := Exit(t);
    }
    StepKeepsInv(s, a);
    var rest := [];
    if !a.Exit? {
      rest := TaskCanEnd(Apply(s, a), t);
    }
    FollowOne(s, a, rest);
    acts := [a] + rest;
  }

  /** So it can after the last topic is released. */
  lemma LastReleaseEnds(s: State, t: TaskId, topic: Topic) returns (acts: seq<Action>)
    requires Inv(s) && !s.closed && s.rows.Keys == {topic} && s.owner == Some(t) && Alive(s, t)
    ensures CanFollow(s, [DeleteRow(topic)] + acts) && AllOf(acts, t)
    ensures var r := After(s, [DeleteRow(topic)] + acts);
            r.rows == map[] && r.owner.None? && NoneAlive(r)
  {
    var a := DeleteRow(topic);
    StepKeepsInv(s, a);
    assert Apply(s, a).rows == map[];
    acts := TaskCanEnd(Apply(s, a), t);
    TasksKeepRows(Apply(s, a), acts, t);
    FollowOne(s, a, acts);
  }

  lemma {:induction false} TasksKeepRows(s: State, acts: seq<Action>, t: TaskId)
    requires CanFollow(s, acts) && AllOf(acts, t)
    ensures After(s, acts).rows == s.rows
    decreases |acts|
  {
    if acts != [] {
      assert TaskStep(acts[0]);
      TasksKeepRows(Apply(s, acts[0]), acts[1..], t);
    }
  }
}
