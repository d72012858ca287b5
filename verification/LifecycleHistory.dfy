/** What deployment jobs leave in the history of their project. */
module LifecycleHistory {
  import opened Results
  import opened Deployments
  import opened Lifecycle
  import opened LifecycleSafety

  // ----- the artifact a deploy captures -----

  /** From its capture until it finishes, what a deploy would fall back to is the artifact of
      its project's newest success, whoever else acts. */
  lemma PreviousStays(actions: seq<Action>, t: nat)
    requires var st := Run(Init, actions); t in st.tasks && !st.tasks[t].rollback && st.tasks[t].captured
    requires var phase := Run(Init, actions).tasks[t].phase; phase.Ready? || phase.Created? || phase.Working?
    ensures var st := Run(Init, actions); var project := st.tasks[t].project;
            st.tasks[t].previous ==
              if Successes(st.rows, project, st.nextId) == [] then "" else HeadArtifact(st.rows, project, st.nextId)
  {
    InitInv();
    RunKeepsInv(Init, actions);
    var st := Run(Init, actions);
    NewestIsHead(st.rows, st.tasks[t].project, st.nextId);
    assert PreviousCurrent(st.rows, st.nextId, st.tasks[t]);
  }

  // ----- how histories grow -----

  ghost predicate NoRestart(actions: seq<Action>) {
    forall i | 0 <= i < |actions| :: !actions[i].Restart?
  }

  /** Rows stay, terminal ones unchanged, and new ones have new ids. */
  ghost predicate Grows(st: State, st': State) {
    && (forall id | id in st.rows :: id in st'.rows && st'.rows[id].project == st.rows[id].project)
    && (forall id | id in st.rows && Terminal(st.rows[id].status) :: st'.rows[id] == st.rows[id])
    && (forall id | id in st'.rows && id !in st.rows :: id >= st.nextId)
    && st.nextId <= st'.nextId
  }

  lemma GrowsChains(st: State, mid: State, st': State)
    requires Grows(st, mid) && Grows(mid, st')
    ensures Grows(st, st')
  {
  }

  lemma StepGrows(st: State, a: Action)
    requires Inv(st) && !a.Restart?
    ensures Grows(st, Step(st, a))
  {
    StatusesMove(st, a);
  }

  lemma {:induction false} RunGrows(st: State, actions: seq<Action>)
    requires Inv(st) && NoRestart(actions)
    ensures Grows(st, Run(st, actions)) && Inv(Run(st, actions))
    decreases |actions|
  {
    if actions != [] {
      StepGrows(st, actions[0]);
      StepKeepsInv(st, actions[0]);
      RunGrows(Step(st, actions[0]), actions[1..]);
      GrowsChains(st, Step(st, actions[0]), Run(st, actions));
    }
  }

  /** A project's open row is its newest attempt. */
  ghost predicate OpenIsNewest(st: State) {
    forall id, j: nat | id in st.rows && !Terminal(st.rows[id].status) && IsOf(st.rows, st.rows[id].project, j) ::
        j <= id
  }

  lemma StepKeepsNewest(st: State, a: Action)
    requires Inv(st) && OpenIsNewest(st)
    ensures OpenIsNewest(Step(st, a))
  {
    var st' := Step(st, a);
    if a.Restart? {
      RestartCloses(st, a.now, a.before);
    } else {
      StatusesMove(st, a);
      forall id, j: nat | id in st'.rows && !Terminal(st'.rows[id].status) && IsOf(st'.rows, st'.rows[id].project, j)
        ensures j <= id
      {
        StaysNewest(st, a, id, j);
      }
    }
  }

  lemma StaysNewest(st: State, a: Action, id: nat, j: nat)
    requires Inv(st) && OpenIsNewest(st) && !a.Restart? && RowsMove(st, Step(st, a))
    requires var st' := Step(st, a);
             id in st'.rows && !Terminal(st'.rows[id].status) && IsOf(st'.rows, st'.rows[id].project, j)
    ensures j <= id
  {
    var st' := Step(st, a);
    if id !in st.rows {
      assert id == st.nextId;
      assert j in st.rows ==> j < st.nextId;
    } else if j !in st.rows {
      NoSecondAttempt(st, a, id, j);
    } else {
      StaysNewestAsWas(st, st', id, j);
    }
  }

  lemma StaysNewestAsWas(st: State, st': State, id: nat, j: nat)
    requires OpenIsNewest(st) && id in st.rows && j in st.rows && id in st'.rows && j in st'.rows
    requires Moves(st.rows[id], st'.rows[id]) && Moves(st.rows[j], st'.rows[j])
    requires !Terminal(st'.rows[id].status) && st'.rows[j].project == st'.rows[id].project
    ensures j <= id
  {
    assert IsOf(st.rows, st.rows[id].project, j);
  }

  /** While a project has an open row no new row of it appears. */
  lemma NoSecondAttempt(st: State, a: Action, id: nat, j: nat)
    requires Inv(st) && !a.Restart? && id in st.rows && !Terminal(st.rows[id].status)
    requires j !in st.rows && j in Step(st, a).rows
    ensures Step(st, a).rows[j].project != st.rows[id].project
  {
    var t := a.task;
    TaskStepRows(st, t, a);
    assert OwnRow(Step(st, a), t, j) && Owned(st, st.rows[id].project, id);
    TaskStepOwn(st, t, a);
  }

  lemma {:induction false} RunKeepsNewest(st: State, actions: seq<Action>)
    requires Inv(st) && OpenIsNewest(st)
    ensures OpenIsNewest(Run(st, actions))
    decreases |actions|
  {
    if actions != [] {
      StepKeepsNewest(st, actions[0]);
      StepKeepsInv(st, actions[0]);
      RunKeepsNewest(Step(st, actions[0]), actions[1..]);
    }
  }

  // ----- when a rollback's choice goes stale -----

  /** A success from the latest attempt of a history on, but before the latest of a later one. */
  ghost predicate SuccessBetween(rows: Rows, project: string, first: nat, last: nat) {
    exists j: nat :: first <= j < last && IsSuccess(rows, project, j)
  }

  /** The target is chosen before the project's entry is taken. Whatever happens in between, the
      choice is still the one a new choice would make exactly when no attempt from the then
      latest on has succeeded and has been followed by another attempt. */
  lemma ChoiceStaysIff(st: State, actions: seq<Action>, project: string)
    requires Inv(st) && OpenIsNewest(st) && NoRestart(actions)
    requires RollbackTarget(st.rows, project, st.nextId).Ok?
    ensures var later := Run(st, actions);
            var was, now := Attempts(st.rows, project, st.nextId), Attempts(later.rows, project, later.nextId);
            && was != [] && now != []
            && (RollbackTarget(later.rows, project, later.nextId) == RollbackTarget(st.rows, project, st.nextId) <==>
                  !SuccessBetween(later.rows, project, was[0], now[0]))
  {
    var later := Run(st, actions);
    RunGrows(st, actions);
    TargetIsNewestOlderSuccess(st.rows, project, st.nextId);
    TargetIsNewestOlderSuccess(later.rows, project, later.nextId);
    NewestAttempt(st.rows, project, st.nextId);
    NewestAttempt(later.rows, project, later.nextId);
    var first := Attempts(st.rows, project, st.nextId)[0];
    OlderStay(st, later, project, first);
    assert IsOf(later.rows, project, first);
    TargetStays(later.rows, project, first, Attempts(later.rows, project, later.nextId)[0],
                RollbackTarget(st.rows, project, st.nextId).value, RollbackTarget(later.rows, project, later.nextId));
  }

  /** The newest success before the first attempt is also the newest one before the last exactly
      when there is none between. */
  lemma TargetStays(rows: Rows, project: string, first: nat, last: nat, id: nat, target: Result<nat, ()>)
    requires first <= last && OlderSuccess(rows, project, first, id)
    requires forall j: nat | OlderSuccess(rows, project, first, j) :: j <= id
    requires match target
             case Ok(newest) => OlderSuccess(rows, project, last, newest) &&
                                forall j: nat | OlderSuccess(rows, project, last, j) :: j <= newest
             case Err(_) => forall j: nat :: !OlderSuccess(rows, project, last, j)
    ensures target == Ok(id) <==> !SuccessBetween(rows, project, first, last)
  {
    assert OlderSuccess(rows, project, last, id);
    if SuccessBetween(rows, project, first, last) {
      var j: nat :| first <= j < last && IsSuccess(rows, project, j);
      assert OlderSuccess(rows, project, last, j);
    } else {
      assert OlderSuccess(rows, project, first, target.value);
    }
  }

  /** Which attempts before the latest one succeeded does not change any more. */
  lemma OlderStay(st: State, later: State, project: string, first: nat)
    requires Inv(st) && OpenIsNewest(st) && Inv(later) && Grows(st, later) && IsOf(st.rows, project, first)
    ensures forall j: nat :: OlderSuccess(st.rows, project, first, j) <==> OlderSuccess(later.rows, project, first, j)
  {
    forall j: nat | j < first && IsOf(st.rows, project, j) ensures Terminal(st.rows[j].status) {
    }
  }

  /** What a caller can rely on: without a new attempt of the project the choice stands. */
  lemma NoAttemptNotStale(st: State, actions: seq<Action>, project: string)
    requires Inv(st) && OpenIsNewest(st) && NoRestart(actions)
    requires RollbackTarget(st.rows, project, st.nextId).Ok?
    requires forall j: nat | IsOf(Run(st, actions).rows, project, j) :: j < st.nextId
    ensures var later := Run(st, actions);
            RollbackTarget(later.rows, project, later.nextId) == RollbackTarget(st.rows, project, st.nextId)
  {
    var later := Run(st, actions);
    ChoiceStaysIff(st, actions, project);
    RunGrows(st, actions);
    NewestIsOld(st, later, project);
  }

  lemma NewestIsOld(st: State, later: State, project: string)
    requires Inv(st) && Inv(later) && Grows(st, later)
    requires Attempts(st.rows, project, st.nextId) != [] && Attempts(later.rows, project, later.nextId) != []
    requires forall j: nat | IsOf(later.rows, project, j) :: j < st.nextId
    ensures Attempts(later.rows, project, later.nextId)[0] <= Attempts(st.rows, project, st.nextId)[0]
  {
    NewestAttempt(st.rows, project, st.nextId);
    NewestAttempt(later.rows, project, later.nextId);
    var last := Attempts(later.rows, project, later.nextId)[0];
    assert IsOf(st.rows, project, last);
  }

  /** A success strictly between two attempts. */
  ghost predicate SuccessAfter(rows: Rows, project: string, source: nat, last: nat) {
    exists j: nat :: source < j < last && IsSuccess(rows, project, j)
  }

  lemma SourceIsTargetIff(rows: Rows, project: string, n: nat, source: nat)
    requires source < n && IsSuccess(rows, project, source)
    ensures var now := Attempts(rows, project, n);
            && now != []
            && (RollbackTarget(rows, project, n) == Ok(source) <==>
                  source < now[0] && !SuccessAfter(rows, project, source, now[0]))
  {
    NewestAttempt(rows, project, n);
    TargetIsNewestOlderSuccess(rows, project, n);
    var last := Attempts(rows, project, n)[0];
    if source < last && !SuccessAfter(rows, project, source, last) {
      assert OlderSuccess(rows, project, last, source);
    }
    if SuccessAfter(rows, project, source, last) {
      var j: nat :| source < j < last && IsSuccess(rows, project, j);
      assert OlderSuccess(rows, project, last, j);
    }
  }

  /** The job itself: whatever other actors did between its two queries and since, and whatever
      kind of project it is, the target it carries is the one a new choice would make exactly
      when it is not the latest attempt and no success lies between the two. */
  lemma UnguardedChoiceStaleIff(st: State, t: nat, compose: bool, actions: seq<Action>)
    requires Inv(st) && t in st.tasks && st.tasks[t].phase.Choosing?
    requires var chosen := Step(st, Choose(t, compose)); var later := Run(chosen, actions);
             t in chosen.tasks && t in later.tasks && later.tasks[t] == chosen.tasks[t]
    ensures var later := Run(Step(st, Choose(t, compose)), actions); var project := st.tasks[t].project;
            var now := Attempts(later.rows, project, later.nextId);
            && now != [] && later.tasks[t].source.Some?
            && var source := later.tasks[t].source.value;
               (RollbackTarget(later.rows, project, later.nextId) == Ok(source) <==>
                  source < now[0] && !SuccessAfter(later.rows, project, source, now[0]))
  {
    var later := Run(Step(st, Choose(t, compose)), actions);
    StepKeepsInv(st, Choose(t, compose));
    RunKeepsInv(Step(st, Choose(t, compose)), actions);
    ChoosesSource(st, t, compose);
    SourceSucceeded(later, t);
    SourceIsTargetIff(later.rows, st.tasks[t].project, later.nextId, later.tasks[t].source.value);
  }

  lemma ChoosesSource(st: State, t: nat, compose: bool)
    requires t in st.tasks && st.tasks[t].phase.Choosing? && t in Step(st, Choose(t, compose)).tasks
    ensures var task := Step(st, Choose(t, compose)).tasks[t];
            task.source.Some? && task.project == st.tasks[t].project && task.phase == Selected
  {
  }

  lemma SourceSucceeded(st: State, t: nat)
    requires Inv(st) && t in st.tasks && st.tasks[t].source.Some?
    ensures IsSuccess(st.rows, st.tasks[t].project, st.tasks[t].source.value) && st.tasks[t].source.value < st.nextId
  {
    assert TaskFits(st.rows, st.tasks[t]);
  }

  /** Where what the first query read still held at the second, that means: exactly when no
      attempt from the then latest one on has succeeded and been followed by another. */
  lemma FreshChoiceStaleIff(st: State, t: nat, compose: bool, actions: seq<Action>)
    requires Inv(st) && OpenIsNewest(st) && NoRestart(actions) && t in st.tasks && st.tasks[t].phase.Choosing?
    requires st.tasks[t].phase.latestOk == LatestSucceeded(st.rows, st.tasks[t].project, st.nextId)
    requires var chosen := Step(st, Choose(t, compose)); var later := Run(chosen, actions);
             t in chosen.tasks && t in later.tasks && later.tasks[t] == chosen.tasks[t]
    ensures var later := Run(Step(st, Choose(t, compose)), actions); var project := st.tasks[t].project;
            var was, now := Attempts(st.rows, project, st.nextId), Attempts(later.rows, project, later.nextId);
            && was != [] && now != [] && later.tasks[t].source.Some?
            && (RollbackTarget(later.rows, project, later.nextId) == Ok(later.tasks[t].source.value) <==>
                  !SuccessBetween(later.rows, project, was[0], now[0]))
  {
    var project := st.tasks[t].project;
    ChosenIs(st, t, compose);
    StepKeepsInv(st, Choose(t, compose));
    StepKeepsNewest(st, Choose(t, compose));
    ChoiceStaysIff(Step(st, Choose(t, compose)), actions, project);
  }

  /** The choice of a job whose first answer still holds. */
  lemma ChosenIs(st: State, t: nat, compose: bool)
    requires Inv(st) && t in st.tasks && st.tasks[t].phase.Choosing?
    requires st.tasks[t].phase.latestOk == LatestSucceeded(st.rows, st.tasks[t].project, st.nextId)
    requires t in Step(st, Choose(t, compose)).tasks
    ensures var chosen := Step(st, Choose(t, compose));
            var target := RollbackTarget(st.rows, st.tasks[t].project, st.nextId);
            && chosen == st.(tasks := st.tasks[t := chosen.tasks[t]])
            && target.Ok? && target.value in st.rows
            && chosen.tasks[t].source == Some(target.value) && chosen.tasks[t].phase == Selected
            && chosen.tasks[t].project == st.tasks[t].project && chosen.tasks[t].rollback == st.tasks[t].rollback
            && chosen.tasks[t].artifact == st.rows[target.value].artifact
  {
  }

  // ----- two image rollbacks in a row -----

  /** Re-running an image reports that image. */
  ghost predicate KeepsImage(actions: seq<Action>, t: nat, image: string) {
    forall i | 0 <= i < |actions| && actions[i].SetArtifact? && actions[i].task == t :: actions[i].artifact == image
  }

  ghost predicate Carries(st: State, t: nat, image: string) {
    && t in st.tasks && Holding(st.tasks[t].phase) && st.tasks[t].artifact == image
    && (HasRow(st.tasks[t].phase) ==>
          st.tasks[t].phase.id in st.rows && st.rows[st.tasks[t].phase.id].artifact == image)
  }

  lemma TaskStepCarries(st: State, t: nat, a: Action, image: string)
    requires Carries(st, t, image) && IsTaskAction(a) && (a.SetArtifact? ==> a.artifact == image)
    requires HasRow(st.tasks[t].phase) ==> st.tasks[t].phase.id in st.rows && st.tasks[t].phase.id in st.written
    ensures var st' := TaskStep(st, t, st.tasks[t], a); t in st'.tasks ==> Carries(st', t, image)
  {
  }

  lemma StepCarries(st: State, a: Action, t: nat, image: string)
    requires Inv(st) && Carries(st, t, image) && !a.Restart? && t in Step(st, a).tasks
    requires a.SetArtifact? && a.task == t ==> a.artifact == image
    ensures Carries(Step(st, a), t, image)
  {
    assert TaskFits(st.rows, st.tasks[t]);
    if IsTaskAction(a) && a.task == t {
      if Step(st, a) != st {
        TaskStepCarries(st, t, a, image);
      }
    } else {
      OtherStepApart(st, a, t);
    }
  }

  lemma {:induction false} RunCarries(st: State, actions: seq<Action>, t: nat, image: string)
    requires Inv(st) && Carries(st, t, image) && KeepsImage(actions, t, image) && t in Run(st, actions).tasks
    ensures Carries(Run(st, actions), t, image)
    decreases |actions|
  {
    if actions != [] {
      ThereNext(st, actions[0], actions[1..], t);
      StepKeepsInv(st, actions[0]);
      StepCarries(st, actions[0], t, image);
      RunCarries(Step(st, actions[0]), actions[1..], t, image);
    }
  }

  /** What all actors do while a rollback is between its two queries, between its choice and
      taking its entry, and then until it has finished. */
  datatype Interleaving = Interleaving(querying: seq<Action>, chosen: seq<Action>, working: seq<Action>)

  ghost function Asked(st: State, project: string, all: Interleaving): State {
    Run(Step(st, BeginRollback(project, true)), all.querying)
  }

  ghost function Waiting(st: State, project: string, all: Interleaving): State {
    Run(Step(Asked(st, project, all), Choose(st.nextTask, false)), all.chosen)
  }

  ghost function Admitted(st: State, project: string, all: Interleaving): State {
    Step(Waiting(st, project, all), TakeGuard(st.nextTask))
  }

  ghost function Rolled(st: State, project: string, all: Interleaving): State {
    Run(Admitted(st, project, all), all.working)
  }

  ghost function RolledAndReleased(st: State, project: string, all: Interleaving): State {
    Step(Rolled(st, project, all), Release(st.nextTask))
  }

  /** No attempt of the project was made since. */
  ghost predicate Quiet(st: State, later: State, project: string) {
    forall id: nat | IsOf(later.rows, project, id) :: id < st.nextId
  }

  /** The rollback gets its entry: nobody moved it in its place, and no attempt of its project
      was made before. */
  ghost predicate GetsEntry(st: State, project: string, all: Interleaving) {
    var t := st.nextTask;
    && Inv(st) && project !in st.guards && NoRestart(all.querying) && NoRestart(all.chosen)
    && t in Asked(st, project, all).tasks
    && Asked(st, project, all).tasks[t] == Step(st, BeginRollback(project, true)).tasks[t]
    && t in Step(Asked(st, project, all), Choose(t, false)).tasks && t in Waiting(st, project, all).tasks
    && Waiting(st, project, all).tasks[t] == Step(Asked(st, project, all), Choose(t, false)).tasks[t]
    && Quiet(st, Waiting(st, project, all), project)
    && t in Admitted(st, project, all).tasks
  }

  /** And it finishes well as an image rollback. */
  ghost predicate ImageRollback(st: State, project: string, all: Interleaving) {
    var t := st.nextTask;
    && GetsEntry(st, project, all)
    && Admitted(st, project, all).tasks[t].project == project
    && FinishedWell(Admitted(st, project, all), Rolled(st, project, all), t)
    && KeepsImage(all.working, t, Admitted(st, project, all).tasks[t].artifact)
  }

  /** The row the rollback recorded. */
  ghost function RolledRow(st: State, project: string, all: Interleaving): nat
    requires ImageRollback(st, project, all)
  {
    Rolled(st, project, all).tasks[st.nextTask].phase.id
  }

  /** The project's rows are the same, whatever ids others have used since. */
  ghost predicate SameHistory(st: State, later: State, project: string) {
    && (forall id: nat :: IsOf(st.rows, project, id) <==> IsOf(later.rows, project, id))
    && (forall id: nat | IsOf(st.rows, project, id) :: id < st.nextId && later.rows[id] == st.rows[id])
    && st.nextId <= later.nextId
  }

  lemma QuietKeepsHistory(st: State, later: State, project: string)
    requires Inv(st) && project !in st.guards && Grows(st, later) && Quiet(st, later, project)
    ensures SameHistory(st, later, project)
  {
    forall id: nat | IsOf(st.rows, project, id) ensures Terminal(st.rows[id].status) {
      assert !Terminal(st.rows[id].status) ==> Owned(st, st.rows[id].project, id);
    }
  }

  /** The same rows give the same target, whatever ids others have used since. */
  lemma SameTarget(st: State, later: State, project: string)
    requires SameHistory(st, later, project)
    ensures RollbackTarget(later.rows, project, later.nextId) == RollbackTarget(st.rows, project, st.nextId)
    ensures LatestSucceeded(later.rows, project, later.nextId) == LatestSucceeded(st.rows, project, st.nextId)
  {
    AgreeingHistory(st.rows, later.rows, project, st.nextId);
    NothingBetween(later.rows, project, st.nextId, later.nextId);
    NewestAttempt(st.rows, project, st.nextId);
  }

  lemma QuietBefore(st: State, mid: State, later: State, project: string)
    requires Grows(mid, later) && Quiet(st, later, project)
    ensures Quiet(st, mid, project)
  {
    forall id: nat | IsOf(mid.rows, project, id) ensures id < st.nextId {
      assert IsOf(later.rows, project, id);
    }
  }

  lemma BeginsChoosing(st: State, project: string)
    requires Inv(st)
    ensures var begun := Step(st, BeginRollback(project, true)); var t := st.nextTask;
            && Inv(begun) && begun.rows == st.rows && begun.nextId == st.nextId && begun.guards == st.guards
            && t in begun.tasks && begun.tasks[t].project == project && begun.tasks[t].rollback
            && begun.tasks[t].phase == Choosing(LatestSucceeded(st.rows, project, st.nextId))
  {
    StepKeepsInv(st, BeginRollback(project, true));
  }

  lemma ChoosingGrows(st: State, project: string, all: Interleaving)
    requires GetsEntry(st, project, all)
    ensures Inv(Asked(st, project, all)) && Inv(Waiting(st, project, all)) && Inv(Admitted(st, project, all))
    ensures Grows(st, Asked(st, project, all)) && Grows(st, Waiting(st, project, all))
    ensures SameHistory(st, Asked(st, project, all), project) && SameHistory(st, Waiting(st, project, all), project)
  {
    var begun := Step(st, BeginRollback(project, true));
    var asked, waiting := Asked(st, project, all), Waiting(st, project, all);
    BeginsChoosing(st, project);
    RunGrows(begun, all.querying);
    GrowsChains(st, begun, asked);
    StepKeepsInv(asked, Choose(st.nextTask, false));
    StepGrows(asked, Choose(st.nextTask, false));
    var chosen := Step(asked, Choose(st.nextTask, false));
    RunGrows(chosen, all.chosen);
    GrowsChains(asked, chosen, waiting);
    GrowsChains(st, asked, waiting);
    StepKeepsInv(waiting, TakeGuard(st.nextTask));
    QuietBefore(st, asked, waiting, project);
    QuietKeepsHistory(st, asked, project);
    QuietKeepsHistory(st, waiting, project);
  }

  /** A rollback that got its entry has the target a choice at its beginning would have made. */
  lemma AdmittedIs(st: State, project: string, all: Interleaving)
    requires GetsEntry(st, project, all)
    ensures var t := st.nextTask; var begun := Admitted(st, project, all);
            var target := RollbackTarget(st.rows, project, st.nextId);
            && Inv(begun) && SameHistory(st, begun, project) && target.Ok? && target.value in st.rows
            && t in begun.tasks && begun.tasks[t].phase == Ready && begun.tasks[t].project == project
            && begun.tasks[t].source == Some(target.value)
            && begun.tasks[t].artifact == st.rows[target.value].artifact
  {
    var t, asked, waiting := st.nextTask, Asked(st, project, all), Waiting(st, project, all);
    BeginsChoosing(st, project);
    ChoosingGrows(st, project, all);
    SameTarget(st, asked, project);
    ChosenIs(asked, t, false);
    TargetIsNewestOlderSuccess(asked.rows, project, asked.nextId);
    TargetIsNewestOlderSuccess(st.rows, project, st.nextId);
    EntryTaken(waiting, t);
  }

  lemma EntryTaken(st: State, t: nat)
    requires t in st.tasks && st.tasks[t].phase == Selected && t in Step(st, TakeGuard(t)).tasks
    ensures var begun := Step(st, TakeGuard(t));
            begun.rows == st.rows && begun.nextId == st.nextId && begun.tasks[t] == st.tasks[t].(phase := Ready)
  {
  }

  /** The row an image rollback leaves is a new success with its target's artifact, and
      nothing else of the project's history changed since the rollback was asked for. */
  lemma ImageRollbackAdds(st: State, project: string, all: Interleaving)
    requires ImageRollback(st, project, all)
    ensures Inv(Rolled(st, project, all))
    ensures OneMoreSuccess(st.rows, st.nextId, Rolled(st, project, all).rows, Rolled(st, project, all).nextId,
                           project, RolledRow(st, project, all))
    ensures var target := RollbackTarget(st.rows, project, st.nextId);
            && target.Ok? && target.value in st.rows
            && Rolled(st, project, all).rows[RolledRow(st, project, all)].artifact == st.rows[target.value].artifact
  {
    var t, begun := st.nextTask, Admitted(st, project, all);
    AdmittedIs(st, project, all);
    RunKeepsInv(begun, all.working);
    JobAddsOneSuccess(begun, all.working, t);
    RunCarries(begun, all.working, t, begun.tasks[t].artifact);
    AddedSince(st, begun, Rolled(st, project, all), project, RolledRow(st, project, all));
  }

  lemma AddedSince(st: State, begun: State, done: State, project: string, id: nat)
    requires SameHistory(st, begun, project)
    requires OneMoreSuccess(begun.rows, begun.nextId, done.rows, done.nextId, project, id)
    ensures OneMoreSuccess(st.rows, st.nextId, done.rows, done.nextId, project, id)
  {
  }

  lemma ReleaseKeepsHistory(st: State, t: nat)
    ensures Step(st, Release(t)).rows == st.rows && Step(st, Release(t)).nextId == st.nextId
  {
  }

  /** After a rollback was released, its project's rows were neither added to nor pruned. */
  ghost predicate LeftAlone(st: State, later: State, project: string) {
    Quiet(st, later, project) && forall id: nat | IsOf(st.rows, project, id) :: id in later.rows
  }

  lemma {:induction false} IdsOnlyGrow(st: State, actions: seq<Action>)
    requires Inv(st)
    ensures Run(st, actions).nextId >= st.nextId
    decreases |actions|
  {
    if actions != [] {
      if !actions[0].Restart? {
        StatusesMove(st, actions[0]);
      }
      StepKeepsInv(st, actions[0]);
      IdsOnlyGrow(Step(st, actions[0]), actions[1..]);
    }
  }

  /** Left alone over any run, restarts included, a free project keeps its history. */
  lemma LeftAloneKeepsHistory(st: State, actions: seq<Action>, project: string)
    requires Inv(st) && project !in st.guards && LeftAlone(st, Run(st, actions), project)
    ensures SameHistory(st, Run(st, actions), project)
  {
    var later := Run(st, actions);
    IdsOnlyGrow(st, actions);
    forall id: nat | id < st.nextId && (IsOf(st.rows, project, id) || IsOf(later.rows, project, id))
      ensures IsOf(st.rows, project, id) && IsOf(later.rows, project, id) && later.rows[id] == st.rows[id]
    {
      KeptRow(st, actions, project, id);
    }
  }

  lemma KeptRow(st: State, actions: seq<Action>, project: string, id: nat)
    requires Inv(st) && project !in st.guards && id < st.nextId && id in Run(st, actions).rows
    requires IsOf(st.rows, project, id) || IsOf(Run(st, actions).rows, project, id)
    ensures id in st.rows && Run(st, actions).rows[id].project == st.rows[id].project == project
    ensures Run(st, actions).rows[id] == st.rows[id]
  {
    OldRowsKeepProject(st, actions, id);
    assert !Terminal(st.rows[id].status) ==> Owned(st, st.rows[id].project, id);
    TerminalForever(st, actions, id);
  }

  lemma {:induction false} OldRowsKeepProject(st: State, actions: seq<Action>, id: nat)
    requires Inv(st) && id < st.nextId && id in Run(st, actions).rows
    ensures id in st.rows && Run(st, actions).rows[id].project == st.rows[id].project
    decreases |actions|
  {
    if actions != [] {
      var next := Step(st, actions[0]);
      StepKeepsInv(st, actions[0]);
      if actions[0].Restart? {
        RestartCloses(st, actions[0].now, actions[0].before);
      } else {
        StatusesMove(st, actions[0]);
      }
      OldRowsKeepProject(next, actions[1..], id);
    }
  }

  /** The rollback gives its entry back. */
  lemma FreeAgain(st: State, project: string, all: Interleaving)
    requires ImageRollback(st, project, all)
    ensures Inv(RolledAndReleased(st, project, all)) && project !in RolledAndReleased(st, project, all).guards
  {
    var done, t := Rolled(st, project, all), st.nextTask;
    ImageRollbackAdds(st, project, all);
    AdmittedIs(st, project, all);
    GuardIsolatesHistory(Admitted(st, project, all), all.working, t);
    ReleaseFrees(done, t);
  }

  lemma ReleaseFrees(st: State, t: nat)
    requires Inv(st) && t in st.tasks && st.tasks[t].phase.Finished?
    ensures Inv(Step(st, Release(t))) && st.tasks[t].project !in Step(st, Release(t)).guards
  {
    assert TaskFits(st.rows, st.tasks[t]);
    StepKeepsInv(st, Release(t));
  }

  /** Two successful image rollbacks in a row come back to the artifact that was released before
      the first: any actors step between and beside all their steps and, restarts included,
      between the two, as long as the project's history is left alone in between. */
  lemma TwoImageRollbacksReturn(st: State, project: string, first: Interleaving, gap: seq<Action>, second: Interleaving)
    requires LatestSucceeded(st.rows, project, st.nextId)
    requires ImageRollback(st, project, first)
    requires LeftAlone(RolledAndReleased(st, project, first), Run(RolledAndReleased(st, project, first), gap), project)
    requires ImageRollback(Run(RolledAndReleased(st, project, first), gap), project, second)
    ensures var between := Run(RolledAndReleased(st, project, first), gap);
            var after := Rolled(between, project, second);
            var original := Attempts(st.rows, project, st.nextId)[0];
            var restored := RolledRow(between, project, second);
            && original in st.rows && restored in after.rows && IsLatest(after.rows, project, after.nextId, restored)
            && after.rows[restored].artifact == st.rows[original].artifact
  {
    var done, released := Rolled(st, project, first), RolledAndReleased(st, project, first);
    var between := Run(released, gap);
    var original := Attempts(st.rows, project, st.nextId)[0];
    ImageRollbackAdds(st, project, first);
    RollbackShifts(st.rows, st.nextId, done.rows, done.nextId, project, RolledRow(st, project, first));
    NewestAttempt(st.rows, project, st.nextId);
    ReleaseKeepsHistory(done, st.nextTask);
    FreeAgain(st, project, first);
    LeftAloneKeepsHistory(released, gap, project);
    SameTarget(released, between, project);
    assert IsOf(released.rows, project, original);
    ImageRollbackAdds(between, project, second);
    var after := Rolled(between, project, second);
    OneMoreInFront(between.rows, between.nextId, after.rows, after.nextId, project,
                   RolledRow(between, project, second));
  }
}
