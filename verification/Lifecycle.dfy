/** The life of deployment jobs: callers, one worker per job, log streamers and restarts, as
    atomic steps over one shared state. A step that is not enabled changes nothing, so every
    sequence of steps is one interleaving of the actors. */
module Lifecycle {
  import opened Results
  import opened Deployments

  /** How far a job is. Choosing: a rollback has read whether the latest attempt succeeded.
      Selected: its target is chosen, no guard is held yet. Guarded: the guard is held. Ready:
      what the row will record is known. The others name the row. */
  datatype Phase =
    | Choosing(latestOk: bool) | Selected | Guarded | Ready
    | Created(id: nat) | Working(id: nat) | Finished(id: nat)

  datatype Task = Task(project: string, rollback: bool, source: Option<nat>, commit: string, ref: string,
                       artifact: string, captured: bool, previous: string, phase: Phase)

  /** A log stream: the row it follows, the offset, everything sent and how it ended. */
  datatype End = Live | Told(status: Status) | Unknown
  datatype Stream = Stream(id: nat, sent: nat, out: string, end: End)

  /** guards maps a project to the job holding its in-flight entry; written is the output
      stored for a row over its whole life, before any cap. */
  datatype State = State(rows: Rows, nextId: nat, guards: map<string, nat>, tasks: map<nat, Task>, nextTask: nat,
                         written: map<nat, string>, streams: map<nat, Stream>, nextStream: nat)

  datatype Action =
    | BeginTrigger(project: string, commit: string, ref: string)
    | Capture(task: nat, works: bool)
    | BeginRollback(project: string, fromHistory: bool)
    | Choose(task: nat, compose: bool)
    | TakeGuard(task: nat)
    | CreateRow(task: nat, works: bool, now: nat)
    | SetRunning(task: nat)
    | AppendLog(task: nat, chunk: string, works: bool)
    | SetArtifact(task: nat, artifact: string, works: bool)
    | Finish(task: nat, ok: bool, error: string, now: nat)
    | Release(task: nat)
    | Restart(now: nat, before: nat)
    | OpenStream(id: nat)
    | Poll(stream: nat, works: bool)

  const Init: State := State(map[], 1, map[], map[], 0, map[], map[], 0)

  predicate Holding(p: Phase) {
    !p.Choosing? && !p.Selected?
  }

  predicate HasRow(p: Phase) {
    p.Created? || p.Working? || p.Finished?
  }

  // ----- the steps -----

  /** What a rollback re-runs: compose projects keep their resolved commit as the artifact. */
  function RollbackCommit(row: Row, compose: bool): string {
    if compose && row.artifact != "" then row.artifact else row.commit
  }

  function Begun(st: State, task: Task): State {
    st.(tasks := st.tasks[st.nextTask := task], nextTask := st.nextTask + 1,
        guards := if Holding(task.phase) then st.guards[task.project := st.nextTask] else st.guards)
  }

  function Dropped(st: State, t: nat): State {
    st.(tasks := st.tasks - {t})
  }

  function Released(st: State, t: nat): State
    requires t in st.tasks
  {
    st.(tasks := st.tasks - {t}, guards := st.guards - {st.tasks[t].project})
  }

  function NewRow(task: Task, now: nat): Row {
    Row(task.project, Queued, task.commit, if task.rollback then "" else task.ref, task.artifact, "", "", now, 0)
  }

  function WithRow(st: State, t: nat, now: nat): State
    requires t in st.tasks
  {
    st.(rows := st.rows[st.nextId := NewRow(st.tasks[t], now)], nextId := st.nextId + 1,
        written := st.written[st.nextId := ""],
        tasks := st.tasks[t := st.tasks[t].(phase := Created(st.nextId))])
  }

  /** The worker of task t moves on and updates its row. */
  function Advanced(st: State, t: nat, task: Task, id: nat, row: Row): State {
    st.(rows := st.rows[id := row], tasks := st.tasks[t := task])
  }

  function Polled(s: Stream, rows: Rows, works: bool): Stream {
    if !s.end.Live? then s
    else if !works || s.id !in rows then s.(end := Unknown)
    else
      var row := rows[s.id];
      var read := if |row.log| > s.sent then s.(out := s.out + row.log[s.sent..], sent := |row.log|) else s;
      if Terminal(row.status) then read.(end := Told(row.status)) else read
  }

  /** The first query of a rollback; targets that keep backups need none. */
  function BeginRollbackStep(st: State, project: string, fromHistory: bool): State {
    var phase := if fromHistory then Choosing(LatestSucceeded(st.rows, project, st.nextId)) else Selected;
    Begun(st, Task(project, true, None, "", "", "", false, "", phase))
  }

  /** The second query and the choice; without a target the rollback is refused. */
  function ChooseStep(st: State, t: nat, task: Task, compose: bool): State
    requires task.phase.Choosing?
  {
    match TargetOf(Successes(st.rows, task.project, st.nextId), task.phase.latestOk)
    case Err(_) => Dropped(st, t)
    case Ok(id) =>
      if id !in st.rows then Dropped(st, t)
      else
        var row := st.rows[id];
        st.(tasks := st.tasks[t := task.(source := Some(id), commit := RollbackCommit(row, compose), ref := row.ref,
                                          artifact := row.artifact, phase := Selected)])
  }

  function AppendStep(st: State, t: nat, task: Task, chunk: string): State
    requires task.phase.Working? && task.phase.id in st.rows && task.phase.id in st.written
  {
    var id := task.phase.id;
    Advanced(st, t, task, id, st.rows[id].(log := CapStoredText(st.rows[id].log + chunk, MAX_LOG)))
      .(written := st.written[id := st.written[id] + chunk])
  }

  /** A step of the job t. */
  function TaskStep(st: State, t: nat, task: Task, a: Action): State
    requires t in st.tasks && st.tasks[t] == task
    requires HasRow(task.phase) ==> task.phase.id in st.rows && task.phase.id in st.written
  {
    match a
    case Capture(_, works) =>
      if !task.phase.Guarded? || task.rollback then st
      else
        var previous := if works then NewestArtifact(st.rows, task.project, st.nextId) else "";
        st.(tasks := st.tasks[t := task.(phase := Ready, captured := works, previous := previous)])
    case Choose(_, compose) =>
      if !task.phase.Choosing? then st else ChooseStep(st, t, task, compose)
    case TakeGuard(_) =>
      if !task.phase.Selected? then st
      else if task.project in st.guards then Dropped(st, t)
      else st.(guards := st.guards[task.project := t], tasks := st.tasks[t := task.(phase := Ready)])
    case CreateRow(_, works, now) =>
      if !task.phase.Ready? then st else if works then WithRow(st, t, now) else Released(st, t)
    case SetRunning(_) =>
      if !task.phase.Created? then st
      else
        var id := task.phase.id;
        Advanced(st, t, task.(phase := Working(id)), id, st.rows[id].(status := Running, artifact := task.artifact))
    case AppendLog(_, chunk, works) =>
      if !task.phase.Working? || !works then st else AppendStep(st, t, task, chunk)
    case SetArtifact(_, artifact, works) =>
      if !task.phase.Working? || artifact == "" then st
      else
        var id := task.phase.id;
        var row := st.rows[id];
        Advanced(st, t, task.(artifact := artifact), id,
                 if works then row.(status := Running, artifact := artifact) else row)
    case Finish(_, ok, error, now) =>
      if !task.phase.Working? then st
      else
        var id := task.phase.id;
        var row := Closed(st.rows[id], if ok then Success else Failed, if ok then "" else error, now);
        Advanced(st, t, task.(phase := Finished(id)), id, row)
    case Release(_) =>
      if !task.phase.Finished? then st else Released(st, t)
    case _ => st
  }

  predicate IsTaskAction(a: Action) {
    !a.BeginTrigger? && !a.BeginRollback? && !a.Restart? && !a.OpenStream? && !a.Poll?
  }

  function Step(st: State, a: Action): State {
    match a
    case BeginTrigger(project, commit, ref) =>
      if project in st.guards then st
      else Begun(st, Task(project, false, None, commit, ref, "", false, "", Guarded))
    case BeginRollback(project, fromHistory) =>
      BeginRollbackStep(st, project, fromHistory)
    case Restart(now, before) =>
      var rows := Pruned(Reconciled(st.rows, now), before);
      st.(rows := rows, guards := map[], tasks := map[], streams := map[])
    case OpenStream(id) =>
      st.(streams := st.streams[st.nextStream := Stream(id, 0, "", Live)], nextStream := st.nextStream + 1)
    case Poll(s, works) =>
      if s !in st.streams then st else st.(streams := st.streams[s := Polled(st.streams[s], st.rows, works)])
    case _ =>
      var t := a.task;
      if t !in st.tasks then st
      else if HasRow(st.tasks[t].phase)
           && (st.tasks[t].phase.id !in st.rows || st.tasks[t].phase.id !in st.written) then st
      else TaskStep(st, t, st.tasks[t], a)
  }

  function Run(st: State, actions: seq<Action>): State
    decreases |actions|
  {
    if actions == [] then st else Run(Step(st, actions[0]), actions[1..])
  }

  // ----- the invariant -----

  /** Every in-flight entry has exactly the job that holds it. */
  ghost predicate GuardsExact(st: State) {
    && (forall p | p in st.guards ::
          var t := st.guards[p]; t in st.tasks && st.tasks[t].project == p && Holding(st.tasks[t].phase))
    && (forall t | t in st.tasks && Holding(st.tasks[t].phase) ::
          st.tasks[t].project in st.guards && st.guards[st.tasks[t].project] == t)
    && (forall t | t in st.tasks :: t < st.nextTask)
  }

  /** The holder of the project's entry is working on exactly this row. */
  ghost predicate Owned(st: State, project: string, id: nat) {
    && project in st.guards && st.guards[project] in st.tasks
    && var phase := st.tasks[st.guards[project]].phase; (phase == Created(id) || phase == Working(id))
  }

  ghost predicate RowsOwned(st: State) {
    && (forall id | id in st.rows :: id < st.nextId && id in st.written)
    && (forall id | id in st.rows && !Terminal(st.rows[id].status) :: Owned(st, st.rows[id].project, id))
  }

  ghost predicate Fits(p: Phase, s: Status) {
    && (p.Created? ==> s == Queued)
    && (p.Working? ==> s == Running)
    && (p.Finished? ==> Terminal(s))
  }

  ghost predicate TaskFits(rows: Rows, task: Task) {
    && (HasRow(task.phase) ==> IsOf(rows, task.project, task.phase.id) && Fits(task.phase, rows[task.phase.id].status))
    && (task.source.Some? ==> task.rollback && IsSuccess(rows, task.project, task.source.value))
    && (!Holding(task.phase) ==> task.rollback)
    && (task.phase.Guarded? ==> !task.rollback)
  }

  ghost predicate TasksFit(st: State) {
    forall t | t in st.tasks :: TaskFits(st.rows, st.tasks[t])
  }

  /** What a deploy captured is still the artifact of the newest success. */
  ghost predicate PreviousCurrent(rows: Rows, nextId: nat, task: Task) {
    !task.rollback && (task.phase.Ready? || task.phase.Created? || task.phase.Working?) ==>
      task.previous == if task.captured then NewestArtifact(rows, task.project, nextId) else ""
  }

  ghost predicate CapturesCurrent(st: State) {
    forall t | t in st.tasks :: PreviousCurrent(st.rows, st.nextId, st.tasks[t])
  }

  ghost predicate LogComplete(st: State, id: nat)
    requires id in st.rows && id in st.written
  {
    st.rows[id].log == CapStoredText(st.written[id], MAX_LOG)
  }

  ghost predicate LogsComplete(st: State)
    requires forall id | id in st.rows :: id in st.written
  {
    forall id | id in st.rows :: LogComplete(st, id)
  }

  /** A stream never sends more than a full log; within the cap it has sent a prefix of the log,
      and all of it once it told a terminal status. */
  ghost predicate StreamTrue(rows: Rows, written: map<nat, string>, s: Stream) {
    && s.sent == |s.out| <= MAX_LOG
    && (s.id !in rows ==> s.sent == 0 && s.out == "" && !s.end.Told?)
    && (s.id in rows && s.end.Told? ==> Terminal(s.end.status) && rows[s.id].status == s.end.status)
    && (s.id in rows && s.id in written && |written[s.id]| <= MAX_LOG ==>
          && s.sent <= |rows[s.id].log| && s.out == rows[s.id].log[..s.sent]
          && (s.end.Told? ==> s.sent == |rows[s.id].log|))
  }

  ghost predicate StreamsTrue(st: State) {
    forall s | s in st.streams :: s < st.nextStream && StreamTrue(st.rows, st.written, st.streams[s])
  }

  ghost predicate Inv(st: State) {
    && GuardsExact(st)
    && RowsOwned(st)
    && TasksFit(st)
    && CapturesCurrent(st)
    && LogsComplete(st)
    && StreamsTrue(st)
  }

  // ----- a job working on its own row -----

  /** Only the job t and its row id change, and they stay together; what is added to the log
      is added to the output. */
  ghost predicate OwnRowStep(st: State, st': State, t: nat, id: nat) {
    && t in st.tasks && t in st'.tasks && id in st.rows && id in st'.rows && id in st.written && id in st'.written
    && st' == st.(rows := st.rows[id := st'.rows[id]], tasks := st.tasks[t := st'.tasks[t]],
                  written := st.written[id := st'.written[id]])
    && SameJob(st.tasks[t], st'.tasks[t], id) && SameRow(st.rows[id], st'.rows[id], st'.tasks[t].phase)
    && (st.tasks[t].phase == Created(id) || st.tasks[t].phase == Working(id))
    && st.written[id] <= st'.written[id]
    && (LogComplete(st, id) ==> LogComplete(st', id))
  }

  ghost predicate SameJob(task: Task, task': Task, id: nat) {
    && task'.project == task.project && task'.rollback == task.rollback && task'.source == task.source
    && task'.captured == task.captured && task'.previous == task.previous
    && (task'.phase == Working(id) || task'.phase == Finished(id))
  }

  ghost predicate SameRow(row: Row, row': Row, phase: Phase) {
    row'.project == row.project && Fits(phase, row'.status)
  }

  lemma OwnRowGuards(st: State, st': State, t: nat, id: nat)
    requires GuardsExact(st) && OwnRowStep(st, st', t, id)
    ensures GuardsExact(st')
  {
  }

  lemma OwnRowRows(st: State, st': State, t: nat, id: nat)
    requires GuardsExact(st) && RowsOwned(st) && TasksFit(st) && OwnRowStep(st, st', t, id)
    ensures RowsOwned(st')
  {
    assert TaskFits(st.rows, st.tasks[t]);
    forall j | j in st'.rows && !Terminal(st'.rows[j].status) ensures Owned(st', st'.rows[j].project, j) {
      if j != id {
        assert Owned(st, st.rows[j].project, j);
      }
    }
  }

  lemma RowsApart(st: State, t: nat, u: nat)
    requires GuardsExact(st) && TasksFit(st) && t in st.tasks && u in st.tasks && t != u
    requires HasRow(st.tasks[t].phase) && HasRow(st.tasks[u].phase)
    ensures st.tasks[t].phase.id != st.tasks[u].phase.id
    ensures st.tasks[t].project != st.tasks[u].project
  {
    assert TaskFits(st.rows, st.tasks[t]) && TaskFits(st.rows, st.tasks[u]);
  }

  lemma OwnRowTasks(st: State, st': State, t: nat, id: nat)
    requires GuardsExact(st) && TasksFit(st) && OwnRowStep(st, st', t, id)
    ensures TasksFit(st')
  {
    assert TaskFits(st.rows, st.tasks[t]);
    forall u | u in st'.tasks ensures TaskFits(st'.rows, st'.tasks[u]) {
      assert TaskFits(st.rows, st.tasks[u]);
      if u != t && HasRow(st.tasks[u].phase) {
        RowsApart(st, t, u);
      }
    }
  }

  lemma {:induction false} SameNewest(rows: Rows, rows': Rows, project: string, n: nat)
    requires forall j: nat | j < n && IsSuccess(rows', project, j) :: IsSuccess(rows, project, j)
    requires forall j: nat | j < n && IsSuccess(rows, project, j) ::
               IsSuccess(rows', project, j) && rows[j].artifact == rows'[j].artifact
    ensures NewestArtifact(rows, project, n) == NewestArtifact(rows', project, n)
  {
    if n > 0 {
      SameNewest(rows, rows', project, n - 1);
    }
  }

  /** The own row was not a success, so it matters to a capture only when it becomes one, and
      then the project's job has finished. */
  lemma OwnRowCaptures(st: State, st': State, t: nat, id: nat)
    requires GuardsExact(st) && TasksFit(st) && CapturesCurrent(st) && OwnRowStep(st, st', t, id)
    ensures CapturesCurrent(st')
  {
    assert TaskFits(st.rows, st.tasks[t]);
    forall u | u in st'.tasks ensures PreviousCurrent(st'.rows, st'.nextId, st'.tasks[u]) {
      assert PreviousCurrent(st.rows, st.nextId, st.tasks[u]);
      var task := st'.tasks[u];
      if u != t && Holding(task.phase) {
        assert task.project != st.tasks[t].project;
        SameNewest(st.rows, st'.rows, task.project, st.nextId);
      } else if u == t && task.phase.Working? {
        SameNewest(st.rows, st'.rows, task.project, st.nextId);
      }
    }
  }

  lemma OwnRowLogs(st: State, st': State, t: nat, id: nat)
    requires RowsOwned(st) && LogsComplete(st) && OwnRowStep(st, st', t, id)
    ensures LogsComplete(st')
  {
    forall j | j in st'.rows ensures LogComplete(st', j) {
      assert LogComplete(st, j);
    }
  }

  lemma OwnRowStreams(st: State, st': State, t: nat, id: nat)
    requires RowsOwned(st) && TasksFit(st) && LogsComplete(st) && StreamsTrue(st) && OwnRowStep(st, st', t, id)
    ensures StreamsTrue(st')
  {
    assert TaskFits(st.rows, st.tasks[t]);
    assert LogComplete(st, id) && LogComplete(st', id);
    forall s | s in st'.streams ensures StreamTrue(st'.rows, st'.written, st'.streams[s]) {
      assert StreamTrue(st.rows, st.written, st.streams[s]);
    }
  }

  lemma OwnRowKeepsInv(st: State, st': State, t: nat, id: nat)
    requires Inv(st) && OwnRowStep(st, st', t, id)
    ensures Inv(st')
  {
    OwnRowGuards(st, st', t, id);
    OwnRowRows(st, st', t, id);
    OwnRowTasks(st, st', t, id);
    OwnRowCaptures(st, st', t, id);
    OwnRowLogs(st, st', t, id);
    OwnRowStreams(st, st', t, id);
  }

  // ----- jobs that begin, take their guard, give it back -----

  /** No row, output or stream changes. */
  ghost predicate JobsOnly(st: State, st': State) {
    st' == st.(guards := st'.guards, tasks := st'.tasks, nextTask := st'.nextTask)
  }

  lemma JobsOnlyKeepsInv(st: State, st': State)
    requires Inv(st) && JobsOnly(st, st')
    requires GuardsExact(st') && TasksFit(st') && CapturesCurrent(st')
    requires forall id | id in st.rows && !Terminal(st.rows[id].status) :: Owned(st', st.rows[id].project, id)
    ensures Inv(st')
  {
    forall id | id in st'.rows ensures LogComplete(st', id) {
      assert LogComplete(st, id);
    }
  }

  lemma BegunGuards(st: State, task: Task)
    requires GuardsExact(st) && RowsOwned(st) && (Holding(task.phase) ==> task.project !in st.guards)
    ensures var st' := Begun(st, task);
            GuardsExact(st') && forall id | id in st.rows && !Terminal(st.rows[id].status) ::
                                  Owned(st', st.rows[id].project, id)
  {
    var st' := Begun(st, task);
    forall id | id in st.rows && !Terminal(st.rows[id].status) ensures Owned(st', st.rows[id].project, id) {
      assert Owned(st, st.rows[id].project, id);
    }
  }

  lemma BegunKeepsInv(st: State, task: Task)
    requires Inv(st) && TaskFits(st.rows, task) && (!Holding(task.phase) || task.phase.Guarded?)
    requires Holding(task.phase) ==> task.project !in st.guards
    ensures Inv(Begun(st, task))
  {
    var st' := Begun(st, task);
    BegunGuards(st, task);
    assert forall u | u in st.tasks ::
      TaskFits(st.rows, st.tasks[u]) && PreviousCurrent(st.rows, st.nextId, st.tasks[u]);
    JobsOnlyKeepsInv(st, st');
  }

  lemma DroppedKeepsInv(st: State, t: nat)
    requires Inv(st) && t in st.tasks && !Holding(st.tasks[t].phase)
    ensures Inv(Dropped(st, t))
  {
    var st' := Dropped(st, t);
    forall id | id in st.rows && !Terminal(st.rows[id].status) ensures Owned(st', st.rows[id].project, id) {
      assert Owned(st, st.rows[id].project, id);
    }
    assert forall u | u in st.tasks ::
      TaskFits(st.rows, st.tasks[u]) && PreviousCurrent(st.rows, st.nextId, st.tasks[u]);
    JobsOnlyKeepsInv(st, st');
  }

  /** A rollback that chose its target. */
  lemma ChosenKeepsInv(st: State, t: nat, task: Task)
    requires Inv(st) && t in st.tasks && !Holding(st.tasks[t].phase) && !Holding(task.phase)
    requires task.project == st.tasks[t].project && TaskFits(st.rows, task)
    ensures Inv(st.(tasks := st.tasks[t := task]))
  {
    var st' := st.(tasks := st.tasks[t := task]);
    forall id | id in st.rows && !Terminal(st.rows[id].status) ensures Owned(st', st.rows[id].project, id) {
      assert Owned(st, st.rows[id].project, id);
    }
    assert forall u | u in st.tasks ::
      TaskFits(st.rows, st.tasks[u]) && PreviousCurrent(st.rows, st.nextId, st.tasks[u]);
    JobsOnlyKeepsInv(st, st');
  }

  lemma ChooseKeepsInv(st: State, t: nat, compose: bool)
    requires Inv(st) && t in st.tasks && st.tasks[t].phase.Choosing?
    ensures Inv(ChooseStep(st, t, st.tasks[t], compose))
  {
    var task := st.tasks[t];
    assert TaskFits(st.rows, task);
    SuccessesAre(st.rows, task.project, st.nextId);
    var successes := Successes(st.rows, task.project, st.nextId);
    match TargetOf(successes, task.phase.latestOk) {
      case Err(_) => DroppedKeepsInv(st, t);
      case Ok(id) =>
        assert id in successes;
        var row := st.rows[id];
        ChosenKeepsInv(st, t, task.(source := Some(id), commit := RollbackCommit(row, compose), ref := row.ref,
                                    artifact := row.artifact, phase := Selected));
    }
  }

  lemma ReleasedKeepsInv(st: State, t: nat)
    requires Inv(st) && t in st.tasks && (st.tasks[t].phase.Ready? || st.tasks[t].phase.Finished?)
    ensures Inv(Released(st, t))
  {
    var st' := Released(st, t);
    forall id | id in st.rows && !Terminal(st.rows[id].status) ensures Owned(st', st.rows[id].project, id) {
      assert Owned(st, st.rows[id].project, id);
    }
    assert forall u | u in st.tasks ::
      TaskFits(st.rows, st.tasks[u]) && PreviousCurrent(st.rows, st.nextId, st.tasks[u]);
    JobsOnlyKeepsInv(st, st');
  }

  /** A job becomes ready by capturing the newest artifact or by taking its guard. */
  ghost predicate BecomesReady(st: State, t: nat, task: Task, guards: map<string, nat>) {
    && t in st.tasks && task.phase.Ready? && task.project == st.tasks[t].project
    && task.source == st.tasks[t].source && task.rollback == st.tasks[t].rollback
    && PreviousCurrent(st.rows, st.nextId, task)
    && ((st.tasks[t].phase.Guarded? && guards == st.guards)
        || (st.tasks[t].phase.Selected? && task.project !in st.guards && guards == st.guards[task.project := t]))
  }

  lemma ReadyGuards(st: State, t: nat, task: Task, guards: map<string, nat>)
    requires GuardsExact(st) && RowsOwned(st) && BecomesReady(st, t, task, guards)
    ensures var st' := st.(guards := guards, tasks := st.tasks[t := task]);
            GuardsExact(st') && forall id | id in st.rows && !Terminal(st.rows[id].status) ::
                Owned(st', st.rows[id].project, id)
  {
    var st' := st.(guards := guards, tasks := st.tasks[t := task]);
    forall id | id in st.rows && !Terminal(st.rows[id].status) ensures Owned(st', st.rows[id].project, id) {
      assert Owned(st, st.rows[id].project, id);
    }
  }

  lemma ReadyKeepsInv(st: State, t: nat, task: Task, guards: map<string, nat>)
    requires Inv(st) && BecomesReady(st, t, task, guards)
    ensures Inv(st.(guards := guards, tasks := st.tasks[t := task]))
  {
    ReadyGuards(st, t, task, guards);
    assert forall u | u in st.tasks ::
      TaskFits(st.rows, st.tasks[u]) && PreviousCurrent(st.rows, st.nextId, st.tasks[u]);
    JobsOnlyKeepsInv(st, st.(guards := guards, tasks := st.tasks[t := task]));
  }

  // ----- a new row -----

  lemma WithRowOwned(st: State, t: nat, now: nat)
    requires GuardsExact(st) && RowsOwned(st) && t in st.tasks && st.tasks[t].phase.Ready?
    ensures GuardsExact(WithRow(st, t, now)) && RowsOwned(WithRow(st, t, now))
  {
    var st' := WithRow(st, t, now);
    forall id | id in st'.rows && !Terminal(st'.rows[id].status) ensures Owned(st', st'.rows[id].project, id) {
      if id in st.rows {
        assert Owned(st, st.rows[id].project, id);
      }
    }
  }

  lemma WithRowTasks(st: State, t: nat, now: nat)
    requires RowsOwned(st) && TasksFit(st) && CapturesCurrent(st) && t in st.tasks && st.tasks[t].phase.Ready?
    ensures TasksFit(WithRow(st, t, now)) && CapturesCurrent(WithRow(st, t, now))
  {
    var st' := WithRow(st, t, now);
    forall u | u in st'.tasks
      ensures TaskFits(st'.rows, st'.tasks[u]) && PreviousCurrent(st'.rows, st'.nextId, st'.tasks[u])
    {
      assert TaskFits(st.rows, st.tasks[u]) && PreviousCurrent(st.rows, st.nextId, st.tasks[u]);
      SameNewest(st.rows, st'.rows, st.tasks[u].project, st.nextId);
    }
  }

  lemma WithRowKeepsInv(st: State, t: nat, now: nat)
    requires Inv(st) && t in st.tasks && st.tasks[t].phase.Ready?
    ensures Inv(WithRow(st, t, now))
  {
    WithRowOwned(st, t, now);
    WithRowTasks(st, t, now);
    var st' := WithRow(st, t, now);
    forall id | id in st'.rows ensures LogComplete(st', id) {
      assert id in st.rows ==> LogComplete(st, id);
    }
    forall s | s in st'.streams ensures StreamTrue(st'.rows, st'.written, st'.streams[s]) {
      assert StreamTrue(st.rows, st.written, st.streams[s]);
    }
  }

  // ----- restarts and streams -----

  lemma RestartKeepsInv(st: State, now: nat, before: nat)
    requires Inv(st)
    ensures Inv(Step(st, Restart(now, before)))
  {
    var st' := Step(st, Restart(now, before));
    forall id | id in st'.rows ensures LogComplete(st', id) {
      assert LogComplete(st, id);
    }
  }

  lemma PolledTrue(rows: Rows, written: map<nat, string>, s: Stream, works: bool)
    requires StreamTrue(rows, written, s)
    requires s.id in rows ==> s.id in written && rows[s.id].log == CapStoredText(written[s.id], MAX_LOG)
    ensures StreamTrue(rows, written, Polled(s, rows, works))
  {
    if s.end.Live? && works && s.id in rows && |rows[s.id].log| > s.sent {
      var log := rows[s.id].log;
      assert log[..s.sent] + log[s.sent..] == log;
      assert log[..|log|] == log;
    }
  }

  lemma PollKeepsInv(st: State, s: nat, works: bool)
    requires Inv(st)
    ensures Inv(Step(st, Poll(s, works)))
  {
    if s in st.streams {
      var stream := st.streams[s];
      assert StreamTrue(st.rows, st.written, stream);
      assert stream.id in st.rows ==> LogComplete(st, stream.id);
      PolledTrue(st.rows, st.written, stream, works);
      var st' := Step(st, Poll(s, works));
      forall id | id in st'.rows ensures LogComplete(st', id) {
        assert LogComplete(st, id);
      }
      forall id | id in st'.rows && !Terminal(st'.rows[id].status) ensures Owned(st', st'.rows[id].project, id) {
        assert Owned(st, st.rows[id].project, id);
      }
    }
  }

  // ----- every step -----

  /** The row a working job updates: what happens to it and to the output. */
  lemma AdvanceKeepsInv(st: State, t: nat, task: Task, row: Row)
    requires Inv(st) && t in st.tasks && (st.tasks[t].phase.Created? || st.tasks[t].phase.Working?)
    requires SameJob(st.tasks[t], task, st.tasks[t].phase.id)
    requires st.tasks[t].phase.id in st.rows && SameRow(st.rows[st.tasks[t].phase.id], row, task.phase)
    requires row.log == st.rows[st.tasks[t].phase.id].log
    ensures Inv(Advanced(st, t, task, st.tasks[t].phase.id, row))
  {
    var id := st.tasks[t].phase.id;
    var st' := Advanced(st, t, task, id, row);
    assert st'.written == st.written[id := st.written[id]];
    OwnRowKeepsInv(st, st', t, id);
  }

  lemma AppendKeepsInv(st: State, t: nat, chunk: string)
    requires Inv(st) && t in st.tasks && st.tasks[t].phase.Working?
    requires st.tasks[t].phase.id in st.rows && st.tasks[t].phase.id in st.written
    ensures Inv(AppendStep(st, t, st.tasks[t], chunk))
  {
    assert TaskFits(st.rows, st.tasks[t]);
    var id := st.tasks[t].phase.id;
    CapAppend(st.written[id], chunk, MAX_LOG);
    OwnRowKeepsInv(st, AppendStep(st, t, st.tasks[t], chunk), t, id);
  }

  /** The steps of a job that has no row yet. */
  lemma EarlyStepKeepsInv(st: State, t: nat, a: Action)
    requires Inv(st) && t in st.tasks && IsTaskAction(a) && !HasRow(st.tasks[t].phase)
    ensures Inv(TaskStep(st, t, st.tasks[t], a))
  {
    var task := st.tasks[t];
    assert TaskFits(st.rows, task);
    match a {
      case Capture(_, works) =>
        if task.phase.Guarded? && !task.rollback {
          var previous := if works then NewestArtifact(st.rows, task.project, st.nextId) else "";
          ReadyKeepsInv(st, t, task.(phase := Ready, captured := works, previous := previous), st.guards);
        }
      case Choose(_, compose) =>
        if task.phase.Choosing? {
          ChooseKeepsInv(st, t, compose);
        }
      case TakeGuard(_) =>
        if task.phase.Selected? {
          if task.project in st.guards {
            DroppedKeepsInv(st, t);
          } else {
            ReadyKeepsInv(st, t, task.(phase := Ready), st.guards[task.project := t]);
          }
        }
      case CreateRow(_, works, now) =>
        if task.phase.Ready? {
          if works {
            WithRowKeepsInv(st, t, now);
          } else {
            ReleasedKeepsInv(st, t);
          }
        }
      case _ =>
    }
  }

  /** A job that has its row takes a step of that kind. */
  ghost predicate OnRow(st: State, t: nat) {
    && Inv(st) && t in st.tasks && HasRow(st.tasks[t].phase)
    && st.tasks[t].phase.id in st.rows && st.tasks[t].phase.id in st.written
  }

  lemma RunningKeepsInv(st: State, t: nat, a: Action)
    requires OnRow(st, t) && a.SetRunning?
    ensures Inv(TaskStep(st, t, st.tasks[t], a))
  {
    var task := st.tasks[t];
    if task.phase.Created? {
      var row := st.rows[task.phase.id];
      AdvanceKeepsInv(st, t, task.(phase := Working(task.phase.id)),
                      row.(status := Running, artifact := task.artifact));
    }
  }

  lemma LogKeepsInv(st: State, t: nat, a: Action)
    requires OnRow(st, t) && a.AppendLog?
    ensures Inv(TaskStep(st, t, st.tasks[t], a))
  {
    if st.tasks[t].phase.Working? && a.works {
      AppendKeepsInv(st, t, a.chunk);
    }
  }

  lemma ArtifactKeepsInv(st: State, t: nat, a: Action)
    requires OnRow(st, t) && a.SetArtifact?
    ensures Inv(TaskStep(st, t, st.tasks[t], a))
  {
    var task := st.tasks[t];
    assert TaskFits(st.rows, task);
    if task.phase.Working? && a.artifact != "" {
      var row := st.rows[task.phase.id];
      AdvanceKeepsInv(st, t, task.(artifact := a.artifact),
                      if a.works then row.(status := Running, artifact := a.artifact) else row);
    }
  }

  lemma FinishKeepsInv(st: State, t: nat, a: Action)
    requires OnRow(st, t) && a.Finish?
    ensures Inv(TaskStep(st, t, st.tasks[t], a))
  {
    var task := st.tasks[t];
    if task.phase.Working? {
      var row := Closed(st.rows[task.phase.id], if a.ok then Success else Failed, if a.ok then "" else a.error, a.now);
      AdvanceKeepsInv(st, t, task.(phase := Finished(task.phase.id)), row);
    }
  }

  /** The steps of a job that has its row. */
  lemma LateStepKeepsInv(st: State, t: nat, a: Action)
    requires OnRow(st, t) && IsTaskAction(a)
    ensures Inv(TaskStep(st, t, st.tasks[t], a))
  {
    if a.SetRunning? {
      RunningKeepsInv(st, t, a);
    } else if a.AppendLog? {
      LogKeepsInv(st, t, a);
    } else if a.SetArtifact? {
      ArtifactKeepsInv(st, t, a);
    } else if a.Finish? {
      FinishKeepsInv(st, t, a);
    } else if a.Release? && st.tasks[t].phase.Finished? {
      ReleasedKeepsInv(st, t);
    }
  }

  lemma TaskStepKeepsInv(st: State, t: nat, a: Action)
    requires Inv(st) && t in st.tasks && IsTaskAction(a)
    requires HasRow(st.tasks[t].phase) ==> st.tasks[t].phase.id in st.rows && st.tasks[t].phase.id in st.written
    ensures Inv(TaskStep(st, t, st.tasks[t], a))
  {
    if HasRow(st.tasks[t].phase) {
      LateStepKeepsInv(st, t, a);
    } else {
      EarlyStepKeepsInv(st, t, a);
    }
  }

  lemma JobActionKeepsInv(st: State, a: Action)
    requires Inv(st) && IsTaskAction(a)
    ensures Inv(Step(st, a))
  {
    if a.task in st.tasks && Step(st, a) != st {
      TaskStepKeepsInv(st, a.task, a);
    }
  }

  lemma BeginKeepsInv(st: State, a: Action)
    requires Inv(st) && (a.BeginTrigger? || a.BeginRollback?)
    ensures Inv(Step(st, a))
  {
    match a {
      case BeginTrigger(project, commit, ref) =>
        if project !in st.guards {
          BegunKeepsInv(st, Task(project, false, None, commit, ref, "", false, "", Guarded));
        }
      case BeginRollback(project, fromHistory) =>
        var phase := if fromHistory then Choosing(LatestSucceeded(st.rows, project, st.nextId)) else Selected;
        BegunKeepsInv(st, Task(project, true, None, "", "", "", false, "", phase));
    }
  }

  /** Every step of every actor keeps the invariant. */
  lemma StepKeepsInv(st: State, a: Action)
    requires Inv(st)
    ensures Inv(Step(st, a))
  {
    match a {
      case BeginTrigger(_, _, _) => BeginKeepsInv(st, a);
      case BeginRollback(_, _) => BeginKeepsInv(st, a);
      case Restart(now, before) => RestartKeepsInv(st, now, before);
      case OpenStream(id) => OpenKeepsInv(st, id);
      case Poll(s, works) => PollKeepsInv(st, s, works);
      case _ => JobActionKeepsInv(st, a);
    }
  }

  lemma OpenKeepsInv(st: State, id: nat)
    requires Inv(st)
    ensures Inv(Step(st, OpenStream(id)))
  {
    var st' := Step(st, OpenStream(id));
    forall j | j in st'.rows ensures LogComplete(st', j) {
      assert LogComplete(st, j);
    }
    forall j | j in st'.rows && !Terminal(st'.rows[j].status) ensures Owned(st', st'.rows[j].project, j) {
      assert Owned(st, st.rows[j].project, j);
    }
  }

  /** Every interleaving of every actor, crashes and restarts included. */
  lemma {:induction false} RunKeepsInv(st: State, actions: seq<Action>)
    requires Inv(st)
    ensures Inv(Run(st, actions))
    decreases |actions|
  {
    if actions != [] {
      StepKeepsInv(st, actions[0]);
      RunKeepsInv(Step(st, actions[0]), actions[1..]);
    }
  }

  lemma InitInv()
    ensures Inv(Init)
  {
  }
}
