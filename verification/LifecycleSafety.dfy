/** What the steps of deployment jobs guarantee over whole runs. */
module LifecycleSafety {
  import opened Results
  import opened Deployments
  import opened Lifecycle

  // ----- one open row per project -----

  ghost predicate Open(rows: Rows, project: string, id: nat) {
    IsOf(rows, project, id) && !Terminal(rows[id].status)
  }

  /** A project's only queued or running row is the one its in-flight entry's holder works on. */
  lemma OneOpenRow(actions: seq<Action>, project: string, i: nat, j: nat)
    requires var rows := Run(Init, actions).rows; Open(rows, project, i) && Open(rows, project, j)
    ensures i == j && Owned(Run(Init, actions), project, i)
  {
    InitInv();
    RunKeepsInv(Init, actions);
    var st := Run(Init, actions);
    assert Owned(st, st.rows[i].project, i) && Owned(st, st.rows[j].project, j);
  }

  // ----- how rows move -----

  /** What one step may do to a row. */
  ghost predicate Moves(row: Row, row': Row) {
    && row'.project == row.project && row'.startedAt == row.startedAt && row'.commit == row.commit
       && row'.ref == row.ref
    && (row'.status == row.status
        || (row.status == Queued && row'.status == Running)
        || (row.status == Running && Terminal(row'.status)))
    && (Terminal(row.status) ==> row' == row)
  }

  ghost predicate RowsMove(st: State, st': State) {
    && (forall id | id in st.rows :: id in st'.rows && Moves(st.rows[id], st'.rows[id]))
    && (forall id | id in st'.rows && id !in st.rows :: id == st.nextId && st'.rows[id].status == Queued)
    && st.nextId <= st'.nextId
  }

  /** The holder's own row, if it has one. */
  ghost predicate OwnRow(st: State, t: nat, id: nat) {
    t in st.tasks && HasRow(st.tasks[t].phase) && st.tasks[t].phase.id == id
  }

  /** The rows that differ are t's own, before and after, and a new one is t's from now on. */
  ghost predicate OnlyOwnRows(st: State, st': State, t: nat)
    requires t in st.tasks
  {
    && (forall id | id in st.rows ::
          id in st'.rows && (st'.rows[id] == st.rows[id] || (OwnRow(st, t, id) && OwnRow(st', t, id))))
    && (forall id | id in st'.rows && id !in st.rows ::
          OwnRow(st', t, id) && id == st.nextId && Holding(st.tasks[t].phase)
          && IsOf(st'.rows, st.tasks[t].project, id))
    && st.nextId <= st'.nextId
  }

  lemma EarlyStepRows(st: State, t: nat, a: Action)
    requires RowsOwned(st) && t in st.tasks && IsTaskAction(a) && !HasRow(st.tasks[t].phase)
    ensures OnlyOwnRows(st, TaskStep(st, t, st.tasks[t], a), t)
  {
  }

  /** A job that has its row changes that row at most, and keeps it or changes none. */
  lemma LateStepIs(st: State, t: nat, a: Action)
    requires t in st.tasks && IsTaskAction(a) && HasRow(st.tasks[t].phase)
    requires st.tasks[t].phase.id in st.rows && st.tasks[t].phase.id in st.written
    ensures var id, st' := st.tasks[t].phase.id, TaskStep(st, t, st.tasks[t], a);
            && id in st'.rows && st'.rows == st.rows[id := st'.rows[id]] && st'.nextId == st.nextId
            && (OwnRow(st', t, id) || st'.rows == st.rows)
  {
  }

  lemma LateStepRows(st: State, t: nat, a: Action)
    requires t in st.tasks && IsTaskAction(a) && HasRow(st.tasks[t].phase)
    requires st.tasks[t].phase.id in st.rows && st.tasks[t].phase.id in st.written
    ensures OnlyOwnRows(st, TaskStep(st, t, st.tasks[t], a), t)
  {
    LateStepIs(st, t, a);
    KeepsOtherRows(st, TaskStep(st, t, st.tasks[t], a), t, st.tasks[t].phase.id);
  }

  lemma KeepsOtherRows(st: State, st': State, t: nat, id: nat)
    requires OwnRow(st, t, id) && id in st.rows && id in st'.rows
    requires st'.rows == st.rows[id := st'.rows[id]] && st'.nextId == st.nextId
    requires OwnRow(st', t, id) || st'.rows == st.rows
    ensures OnlyOwnRows(st, st', t)
  {
  }

  /** A job's step changes no row but its own. */
  lemma TaskStepRows(st: State, t: nat, a: Action)
    requires RowsOwned(st) && t in st.tasks && IsTaskAction(a)
    requires HasRow(st.tasks[t].phase) ==> st.tasks[t].phase.id in st.rows && st.tasks[t].phase.id in st.written
    ensures OnlyOwnRows(st, TaskStep(st, t, st.tasks[t], a), t)
  {
    if HasRow(st.tasks[t].phase) {
      LateStepRows(st, t, a);
    } else {
      EarlyStepRows(st, t, a);
    }
  }

  /** What a job's step does to its own row, and to a row it creates. */
  lemma OwnRowMoves(st: State, t: nat, a: Action)
    requires t in st.tasks && TaskFits(st.rows, st.tasks[t]) && IsTaskAction(a)
    requires HasRow(st.tasks[t].phase) ==> st.tasks[t].phase.id in st.written
    ensures var rows := TaskStep(st, t, st.tasks[t], a).rows;
            if HasRow(st.tasks[t].phase)
            then st.tasks[t].phase.id in rows && Moves(st.rows[st.tasks[t].phase.id], rows[st.tasks[t].phase.id])
            else rows != st.rows ==> st.nextId in rows && rows[st.nextId].status == Queued
  {
  }

  lemma TaskStepMoves(st: State, t: nat, a: Action)
    requires Inv(st) && t in st.tasks && IsTaskAction(a)
    requires HasRow(st.tasks[t].phase) ==> st.tasks[t].phase.id in st.rows && st.tasks[t].phase.id in st.written
    ensures RowsMove(st, TaskStep(st, t, st.tasks[t], a))
  {
    assert TaskFits(st.rows, st.tasks[t]);
    OwnRowMoves(st, t, a);
    TaskStepRows(st, t, a);
  }

  /** Statuses move only from queued to running to success or failed, and a terminal row never
      changes; a restart alone may close or prune rows. */
  lemma StatusesMove(st: State, a: Action)
    requires Inv(st) && !a.Restart?
    ensures RowsMove(st, Step(st, a))
  {
    if IsTaskAction(a) && Step(st, a) != st {
      TaskStepMoves(st, a.task, a);
    }
  }

  /** A restart leaves no row open and touches no terminal row it does not prune. */
  lemma RestartCloses(st: State, now: nat, before: nat)
    ensures var st' := Step(st, Restart(now, before));
            && (forall id | id in st'.rows :: id in st.rows && Terminal(st'.rows[id].status))
            && (forall id | id in st'.rows && Terminal(st.rows[id].status) :: st'.rows[id] == st.rows[id])
            && (forall id | id in st'.rows && !Terminal(st.rows[id].status) ::
                  st'.rows[id] == st.rows[id].(status := Failed, error := INTERRUPTED, finishedAt := now))
            && (forall id | id in st.rows && id !in st'.rows :: st.rows[id].startedAt < before)
            && st'.guards == map[]
  {
  }

  /** Over every run a terminal row stays as it is until retention removes it for good. */
  lemma {:induction false} TerminalForever(st: State, actions: seq<Action>, id: nat)
    requires Inv(st) && id < st.nextId && (id in st.rows ==> Terminal(st.rows[id].status))
    ensures var rows := Run(st, actions).rows; id in rows ==> id in st.rows && rows[id] == st.rows[id]
    decreases |actions|
  {
    if actions != [] {
      var next := Step(st, actions[0]);
      StepKeepsInv(st, actions[0]);
      if actions[0].Restart? {
        RestartCloses(st, actions[0].now, actions[0].before);
      } else {
        StatusesMove(st, actions[0]);
      }
      TerminalForever(next, actions[1..], id);
    }
  }

  // ----- guards are given back -----

  /** The in-flight entries are exactly those of the jobs that hold one. */
  lemma GuardsAreHeld(actions: seq<Action>, project: string)
    ensures var st := Run(Init, actions);
            project in st.guards <==> exists t ::
                t in st.tasks && Holding(st.tasks[t].phase) && st.tasks[t].project == project
  {
    InitInv();
    RunKeepsInv(Init, actions);
  }

  /** The next step of a job that holds its guard, with the outcomes that step may have. */
  function NextOwn(t: nat, phase: Phase, works: bool, chunk: string, now: nat): Action {
    match phase
    case Choosing(_) => Choose(t, works)
    case Selected => TakeGuard(t)
    case Guarded => Capture(t, works)
    case Ready => CreateRow(t, works, now)
    case Created(_) => SetRunning(t)
    case Working(_) => Finish(t, works, chunk, now)
    case Finished(_) => Release(t)
  }

  function Rank(phase: Phase): nat {
    match phase
    case Choosing(_) => 6
    case Selected => 5
    case Guarded => 5
    case Ready => 4
    case Created(_) => 3
    case Working(_) => 2
    case Finished(_) => 1
  }

  /** The job moved on and keeps its guard, or is gone and gave it back. */
  ghost predicate Advances(st: State, st': State, t: nat)
    requires t in st.tasks
  {
    if t in st'.tasks then
      && st'.guards == st.guards && st'.tasks[t].project == st.tasks[t].project
      && Holding(st'.tasks[t].phase) && Rank(st'.tasks[t].phase) < Rank(st.tasks[t].phase)
    else st'.guards == st.guards - {st.tasks[t].project}
  }

  lemma EarlyAdvances(st: State, t: nat, works: bool, error: string, now: nat)
    requires t in st.tasks && TaskFits(st.rows, st.tasks[t]) && (st.tasks[t].phase.Guarded? || st.tasks[t].phase.Ready?)
    ensures Advances(st, TaskStep(st, t, st.tasks[t], NextOwn(t, st.tasks[t].phase, works, error, now)), t)
  {
  }

  lemma LateAdvances(st: State, t: nat, works: bool, error: string, now: nat)
    requires t in st.tasks && HasRow(st.tasks[t].phase) && st.tasks[t].phase.id in st.rows
        && st.tasks[t].phase.id in st.written
    ensures Advances(st, TaskStep(st, t, st.tasks[t], NextOwn(t, st.tasks[t].phase, works, error, now)), t)
  {
  }

  lemma OwnStepAdvances(st: State, t: nat, works: bool, error: string, now: nat)
    requires Inv(st) && t in st.tasks && Holding(st.tasks[t].phase)
    ensures Advances(st, Step(st, NextOwn(t, st.tasks[t].phase, works, error, now)), t)
  {
    assert TaskFits(st.rows, st.tasks[t]);
    if HasRow(st.tasks[t].phase) {
      LateAdvances(st, t, works, error, now);
    } else {
      EarlyAdvances(st, t, works, error, now);
    }
  }

  /** How one call of a job fares: whether it works, the error it reports, the clock. */
  datatype Reply = Reply(works: bool, error: string, now: nat)

  /** What a worker does to its row between taking it up and finishing it, as often as it likes. */
  predicate IsWork(t: nat, a: Action) {
    (a.AppendLog? || a.SetArtifact?) && a.task == t
  }

  /** The steps a job takes from its phase on, given the replies to its calls and its work. */
  function OwnSteps(st: State, t: nat, replies: seq<Reply>, work: seq<Action>): seq<Action>
    requires t in st.tasks
    decreases |replies|, |work|
  {
    if st.tasks[t].phase.Working? && work != [] then
      var st' := Step(st, work[0]);
      [work[0]] + (if t in st'.tasks then OwnSteps(st', t, replies, work[1..]) else [])
    else if replies == [] then []
    else
      var a := NextOwn(t, st.tasks[t].phase, replies[0].works, replies[0].error, replies[0].now);
      var st' := Step(st, a);
      [a] + (if t in st'.tasks then OwnSteps(st', t, replies[1..], work) else [])
  }

  lemma WorkStays(st: State, t: nat, a: Action)
    requires Inv(st) && t in st.tasks && st.tasks[t].phase.Working? && IsWork(t, a)
    ensures var st' := Step(st, a);
            && t in st'.tasks && st'.tasks[t].phase == st.tasks[t].phase && st'.tasks[t].project == st.tasks[t].project
            && st'.guards == st.guards
  {
    assert TaskFits(st.rows, st.tasks[t]);
  }

  lemma RunCons(st: State, a: Action, rest: seq<Action>)
    ensures Run(st, [a] + rest) == Run(Step(st, a), rest)
  {
    assert ([a] + rest)[1..] == rest;
  }

  /** From every reachable state every holder, by its own steps alone, however much it logs and
      whatever its calls reply, gives its guard back, and no other. */
  lemma {:induction false} HolderAloneReleases(st: State, t: nat, replies: seq<Reply>, work: seq<Action>)
    requires Inv(st) && t in st.tasks && Holding(st.tasks[t].phase) && |replies| >= Rank(st.tasks[t].phase)
    requires forall i | 0 <= i < |work| :: IsWork(t, work[i])
    ensures Run(st, OwnSteps(st, t, replies, work)).guards == st.guards - {st.tasks[t].project}
    decreases |replies|, |work|
  {
    if st.tasks[t].phase.Working? && work != [] {
      WorkStays(st, t, work[0]);
      StepKeepsInv(st, work[0]);
      RunCons(st, work[0], OwnSteps(Step(st, work[0]), t, replies, work[1..]));
      HolderAloneReleases(Step(st, work[0]), t, replies, work[1..]);
    } else {
      var a := NextOwn(t, st.tasks[t].phase, replies[0].works, replies[0].error, replies[0].now);
      var st' := Step(st, a);
      OwnStepAdvances(st, t, replies[0].works, replies[0].error, replies[0].now);
      StepKeepsInv(st, a);
      RunCons(st, a, if t in st'.tasks then OwnSteps(st', t, replies[1..], work) else []);
      if t in st'.tasks {
        HolderAloneReleases(st', t, replies[1..], work);
      }
    }
  }

  // ----- a held guard isolates the project's history -----

  /** Since st, in which t holds its project's entry, the only row of that project that is new
      or changed is t's own. */
  ghost predicate OnlyOwnHistory(st: State, st': State, t: nat)
    requires t in st.tasks
  {
    var p := st.tasks[t].project;
    && t in st'.tasks && st'.tasks[t].project == p
    && (forall id: nat | IsOf(st.rows, p, id) ::
          IsOf(st'.rows, p, id) && (st'.rows[id] == st.rows[id] || OwnRow(st', t, id)))
    && (forall id: nat | IsOf(st'.rows, p, id) && !IsOf(st.rows, p, id) :: OwnRow(st', t, id) && id >= st.nextId)
    && (HasRow(st.tasks[t].phase) ==> OwnRow(st', t, st.tasks[t].phase.id))
    && (forall id: nat | IsOf(st.rows, p, id) && OwnRow(st', t, id) :: OwnRow(st, t, id))
    && st.nextId <= st'.nextId
  }

  /** The job t and the rows of its project are as before. */
  ghost predicate Apart(st: State, st': State, t: nat)
    requires t in st.tasks
  {
    var p := st.tasks[t].project;
    && t in st'.tasks && st'.tasks[t] == st.tasks[t]
    && (forall id: nat | IsOf(st.rows, p, id) :: id in st'.rows && st'.rows[id] == st.rows[id])
    && (forall id: nat | IsOf(st'.rows, p, id) :: IsOf(st.rows, p, id))
    && st.nextId <= st'.nextId
  }

  /** A step of another actor leaves the holder of an entry and its project's rows alone. */
  lemma OtherStepApart(st: State, a: Action, t: nat)
    requires Inv(st) && t in st.tasks && Holding(st.tasks[t].phase) && !a.Restart?
    requires IsTaskAction(a) ==> a.task != t
    ensures Apart(st, Step(st, a), t)
  {
    if IsTaskAction(a) && Step(st, a) != st {
      OtherTaskApart(st, a.task, a, t);
    }
  }

  lemma OtherTaskApart(st: State, u: nat, a: Action, t: nat)
    requires Inv(st) && t in st.tasks && u in st.tasks && u != t && Holding(st.tasks[t].phase) && IsTaskAction(a)
    requires HasRow(st.tasks[u].phase) ==> st.tasks[u].phase.id in st.rows && st.tasks[u].phase.id in st.written
    ensures Apart(st, TaskStep(st, u, st.tasks[u], a), t)
  {
    TaskStepRows(st, u, a);
    TaskStepMoves(st, u, a);
    TaskStepLeaves(st, u, a, t);
    OwnRowsApart(st, TaskStep(st, u, st.tasks[u], a), u, t);
  }

  lemma TaskStepLeaves(st: State, u: nat, a: Action, t: nat)
    requires t in st.tasks && u in st.tasks && u != t && IsTaskAction(a)
    requires HasRow(st.tasks[u].phase) ==> st.tasks[u].phase.id in st.rows && st.tasks[u].phase.id in st.written
    ensures var st' := TaskStep(st, u, st.tasks[u], a); t in st'.tasks && st'.tasks[t] == st.tasks[t]
  {
  }

  lemma OwnRowsApart(st: State, st': State, u: nat, t: nat)
    requires GuardsExact(st) && TasksFit(st) && t in st.tasks && u in st.tasks && u != t && Holding(st.tasks[t].phase)
    requires OnlyOwnRows(st, st', u) && t in st'.tasks && st'.tasks[t] == st.tasks[t]
    requires forall id | id in st.rows :: id in st'.rows && st'.rows[id].project == st.rows[id].project
    ensures Apart(st, st', t)
  {
    var p := st.tasks[t].project;
    assert TaskFits(st.rows, st.tasks[u]);
    assert Holding(st.tasks[u].phase) ==> st.tasks[u].project != p;
  }

  lemma ApartHistory(st: State, st': State, t: nat)
    requires t in st.tasks && Apart(st, st', t) && TaskFits(st.rows, st.tasks[t])
    ensures OnlyOwnHistory(st, st', t)
  {
  }

  lemma OwnTaskHistory(st: State, st': State, t: nat)
    requires t in st.tasks && t in st'.tasks && st'.tasks[t].project == st.tasks[t].project
        && TaskFits(st.rows, st.tasks[t])
    requires OnlyOwnRows(st, st', t)
    requires forall id | id in st.rows ::
               id < st.nextId && id in st'.rows && st'.rows[id].project == st.rows[id].project
    requires HasRow(st.tasks[t].phase) ==> OwnRow(st', t, st.tasks[t].phase.id)
    requires !HasRow(st.tasks[t].phase) && HasRow(st'.tasks[t].phase) ==> st'.tasks[t].phase.id == st.nextId
    ensures OnlyOwnHistory(st, st', t)
  {
  }

  lemma TaskStepOwn(st: State, t: nat, a: Action)
    requires t in st.tasks && IsTaskAction(a) && Holding(st.tasks[t].phase)
    requires HasRow(st.tasks[t].phase) ==> st.tasks[t].phase.id in st.rows && st.tasks[t].phase.id in st.written
    ensures var st' := TaskStep(st, t, st.tasks[t], a);
            t in st'.tasks ==>
              && st'.tasks[t].project == st.tasks[t].project && Holding(st'.tasks[t].phase)
              && (if HasRow(st.tasks[t].phase) then OwnRow(st', t, st.tasks[t].phase.id)
                  else HasRow(st'.tasks[t].phase) ==> st'.tasks[t].phase.id == st.nextId)
  {
  }

  /** A step of any actor but a restart that leaves t there. */
  lemma OwnStepHistory(st: State, a: Action, t: nat)
    requires Inv(st) && t in st.tasks && Holding(st.tasks[t].phase)
    requires t in Step(st, a).tasks && !a.Restart?
    ensures OnlyOwnHistory(st, Step(st, a), t) && Holding(Step(st, a).tasks[t].phase)
  {
    assert TaskFits(st.rows, st.tasks[t]);
    if IsTaskAction(a) && a.task == t {
      if Step(st, a) != st {
        TaskStepRows(st, t, a);
        TaskStepMoves(st, t, a);
        TaskStepOwn(st, t, a);
        OwnTaskHistory(st, Step(st, a), t);
      }
    } else {
      OtherStepApart(st, a, t);
      ApartHistory(st, Step(st, a), t);
    }
  }

  lemma HistoryChains(st: State, mid: State, st': State, t: nat)
    requires t in st.tasks && t in mid.tasks
    requires OnlyOwnHistory(st, mid, t) && OnlyOwnHistory(mid, st', t)
    ensures OnlyOwnHistory(st, st', t)
  {
    var p := st.tasks[t].project;
    forall id: nat | IsOf(st'.rows, p, id) && !IsOf(st.rows, p, id) ensures OwnRow(st', t, id) && id >= st.nextId {
      if IsOf(mid.rows, p, id) {
        assert OwnRow(mid, t, id);
      }
    }
  }

  lemma GoneStep(st: State, a: Action, t: nat)
    requires t !in st.tasks && t < st.nextTask
    ensures t !in Step(st, a).tasks && t < Step(st, a).nextTask
  {
    if IsTaskAction(a) && Step(st, a) != st {
      GoneTaskStep(st, a.task, a, t);
    }
  }

  lemma GoneTaskStep(st: State, u: nat, a: Action, t: nat)
    requires t !in st.tasks && t < st.nextTask && u in st.tasks && IsTaskAction(a)
    requires HasRow(st.tasks[u].phase) ==> st.tasks[u].phase.id in st.rows && st.tasks[u].phase.id in st.written
    ensures var st' := TaskStep(st, u, st.tasks[u], a); t !in st'.tasks && t < st'.nextTask
  {
  }

  lemma {:induction false} GoneStaysGone(st: State, actions: seq<Action>, t: nat)
    requires t !in st.tasks && t < st.nextTask
    ensures t !in Run(st, actions).tasks
    decreases |actions|
  {
    if actions != [] {
      GoneStep(st, actions[0], t);
      GoneStaysGone(Step(st, actions[0]), actions[1..], t);
    }
  }

  /** A job that is still there was there all along. */
  lemma ThereNext(st: State, a: Action, rest: seq<Action>, t: nat)
    requires t < st.nextTask && t in st.tasks && t in Run(Step(st, a), rest).tasks
    ensures t in Step(st, a).tasks && !a.Restart?
  {
    if t !in Step(st, a).tasks {
      StepTaskIds(st, a);
      GoneStaysGone(Step(st, a), rest, t);
    }
  }

  lemma StepTaskIds(st: State, a: Action)
    ensures Step(st, a).nextTask >= st.nextTask
  {
    if IsTaskAction(a) && Step(st, a) != st {
      TaskStepIds(st, a.task, a);
    }
  }

  lemma TaskStepIds(st: State, u: nat, a: Action)
    requires u in st.tasks && IsTaskAction(a)
    requires HasRow(st.tasks[u].phase) ==> st.tasks[u].phase.id in st.rows && st.tasks[u].phase.id in st.written
    ensures TaskStep(st, u, st.tasks[u], a).nextTask == st.nextTask
  {
  }

  /** Whatever callers, workers and streamers do, as long as t is still there its project's
      history is what it was when t held the entry, but for t's own row. */
  lemma {:induction false} GuardIsolatesHistory(st: State, actions: seq<Action>, t: nat)
    requires Inv(st) && t in st.tasks && Holding(st.tasks[t].phase)
    requires t in Run(st, actions).tasks
    ensures OnlyOwnHistory(st, Run(st, actions), t)
    decreases |actions|
  {
    if actions != [] {
      var next := Step(st, actions[0]);
      StepKeepsInv(st, actions[0]);
      ThereNext(st, actions[0], actions[1..], t);
      OwnStepHistory(st, actions[0], t);
      GuardIsolatesHistory(next, actions[1..], t);
      HistoryChains(st, next, Run(next, actions[1..]), t);
    }
  }

  ghost predicate FinishedWell(st: State, st': State, t: nat)
    requires t in st.tasks
  {
    t in st'.tasks && st'.tasks[t].phase.Finished? && IsSuccess(st'.rows, st.tasks[t].project, st'.tasks[t].phase.id)
  }

  /** A job that took its guard and finished well adds exactly one success to its project's
      history, however the other actors interleave. */
  lemma JobAddsOneSuccess(st: State, actions: seq<Action>, t: nat)
    requires Inv(st) && t in st.tasks && Holding(st.tasks[t].phase) && !HasRow(st.tasks[t].phase)
    requires FinishedWell(st, Run(st, actions), t)
    ensures var st' := Run(st, actions);
            OneMoreSuccess(st.rows, st.nextId, st'.rows, st'.nextId, st.tasks[t].project, st'.tasks[t].phase.id)
  {
    RunKeepsInv(st, actions);
    GuardIsolatesHistory(st, actions, t);
  }

  // ----- guards are given back among the others -----

  /** A step that does not move the job on: one of any other actor, or its own logging. */
  predicate Idle(t: nat, a: Action) {
    !a.Restart? && (IsTaskAction(a) && a.task == t ==> IsWork(t, a))
  }

  lemma IdleStays(st: State, a: Action, t: nat)
    requires Inv(st) && t in st.tasks && Holding(st.tasks[t].phase) && Idle(t, a)
    ensures var s := Step(st, a);
            t in s.tasks && s.tasks[t].phase == st.tasks[t].phase && s.tasks[t].project == st.tasks[t].project
  {
    if IsTaskAction(a) && a.task == t {
      if st.tasks[t].phase.Working? {
        WorkStays(st, t, a);
      } else {
        NoWorkYet(st, t, a);
      }
    } else {
      OtherStepApart(st, a, t);
    }
  }

  lemma NoWorkYet(st: State, t: nat, a: Action)
    requires t in st.tasks && !st.tasks[t].phase.Working? && IsWork(t, a)
    ensures Step(st, a) == st
  {
  }

  lemma {:induction false} IdleRunStays(st: State, actions: seq<Action>, t: nat)
    requires Inv(st) && t in st.tasks && Holding(st.tasks[t].phase)
    requires forall i | 0 <= i < |actions| :: Idle(t, actions[i])
    ensures var s := Run(st, actions);
            && Inv(s) && t in s.tasks
            && s.tasks[t].phase == st.tasks[t].phase && s.tasks[t].project == st.tasks[t].project
    decreases |actions|
  {
    if actions != [] {
      IdleStays(st, actions[0], t);
      StepKeepsInv(st, actions[0]);
      IdleRunStays(Step(st, actions[0]), actions[1..], t);
    }
  }

  /** A turn of a job: what everybody does before its next call returns, and the reply to that. */
  datatype Turn = Turn(before: seq<Action>, reply: Reply)

  function TurnTaken(st: State, t: nat, turn: Turn): State {
    var s := Run(st, turn.before);
    if t !in s.tasks then s
    else Step(s, NextOwn(t, s.tasks[t].phase, turn.reply.works, turn.reply.error, turn.reply.now))
  }

  /** The interleaving of a job's turns. */
  function AfterTurns(st: State, t: nat, turns: seq<Turn>): State
    decreases |turns|
  {
    if turns == [] || t !in st.tasks then st else AfterTurns(TurnTaken(st, t, turns[0]), t, turns[1..])
  }

  ghost predicate IdleBefore(t: nat, turn: Turn) {
    forall i | 0 <= i < |turn.before| :: Idle(t, turn.before[i])
  }

  lemma TurnAdvances(st: State, t: nat, turn: Turn)
    requires Inv(st) && t in st.tasks && Holding(st.tasks[t].phase) && IdleBefore(t, turn)
    ensures var next := TurnTaken(st, t, turn);
            && Inv(next)
            && (t in next.tasks ==>
                  && Holding(next.tasks[t].phase) && Rank(next.tasks[t].phase) < Rank(st.tasks[t].phase)
                  && next.tasks[t].project == st.tasks[t].project)
  {
    var s := Run(st, turn.before);
    IdleRunStays(st, turn.before, t);
    OwnStepAdvances(s, t, turn.reply.works, turn.reply.error, turn.reply.now);
    StepKeepsInv(s, NextOwn(t, s.tasks[t].phase, turn.reply.works, turn.reply.error, turn.reply.now));
  }

  lemma GoneHoldsNothing(st: State, t: nat, project: string)
    requires Inv(st) && t !in st.tasks
    ensures project in st.guards ==> st.guards[project] != t
  {
  }

  /** In every interleaving without a restart, and whatever its calls reply, a holder that gets
      five turns is gone, and the entry of its project, if somebody holds it, is not its own. */
  lemma {:induction false} EveryGuardReleased(st: State, t: nat, turns: seq<Turn>)
    requires Inv(st) && t in st.tasks && Holding(st.tasks[t].phase) && |turns| >= Rank(st.tasks[t].phase)
    requires forall k | 0 <= k < |turns| :: IdleBefore(t, turns[k])
    ensures var s := AfterTurns(st, t, turns); var p := st.tasks[t].project;
            Inv(s) && t !in s.tasks && (p in s.guards ==> s.guards[p] != t)
    decreases |turns|
  {
    var next := TurnTaken(st, t, turns[0]);
    TurnAdvances(st, t, turns[0]);
    if t in next.tasks {
      EveryGuardReleased(next, t, turns[1..]);
    } else {
      GoneHoldsNothing(next, t, st.tasks[t].project);
    }
  }
}
