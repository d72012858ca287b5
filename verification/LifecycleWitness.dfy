/** Runs that exist: jobs can go through, so what is proved of rollbacks is not about nothing,
    and what goes wrong without a guard does go wrong. */
module LifecycleWitness {
  import opened Results
  import opened Deployments
  import opened Lifecycle
  import opened LifecycleSafety
  import opened LifecycleHistory

  lemma {:induction false} RunAppend(st: State, a: seq<Action>, b: seq<Action>)
    ensures Run(st, a + b) == Run(Run(st, a), b)
    decreases |a|
  {
    if a == [] {
      assert a + b == b;
    } else {
      assert (a + b)[1..] == a[1..] + b;
      RunAppend(Step(st, a[0]), a[1..], b);
    }
  }

  lemma RunOne(st: State, a: Action)
    ensures Run(st, [a]) == Step(st, a)
  {
    assert [a][1..] == [];
  }

  lemma RunThree(st: State, a: Action, b: Action, c: Action)
    ensures Run(st, [a, b, c]) == Step(Step(Step(st, a), b), c)
  {
    RunOne(Step(Step(st, a), b), c);
    assert [b, c] == [b] + [c] && [a, b, c] == [a] + [b, c];
    RunCons(Step(st, a), b, [c]);
    RunCons(st, a, [b, c]);
  }

  // ----- a job that goes through -----

  function BeginSteps(t: nat, project: string): seq<Action> {
    [BeginTrigger(project, "", ""), Capture(t, true), CreateRow(t, true, 0)]
  }

  lemma DeployRecords(st: State, project: string)
    requires project !in st.guards && st.nextTask !in st.tasks
    ensures var t, s := st.nextTask, Run(st, BeginSteps(st.nextTask, project));
            && OnOwnRow(s, t) && s.tasks[t].phase == Created(st.nextId) && s.tasks[t].project == project
            && s.rows == st.rows[st.nextId := Row(project, Queued, "", "", "", "", "", 0, 0)]
            && s.nextId == st.nextId + 1 && s.nextTask == t + 1 && s.guards == st.guards[project := t]
            && s.tasks == st.tasks[t := s.tasks[t]]
  {
    var t := st.nextTask;
    RunThree(st, BeginTrigger(project, "", ""), Capture(t, true), CreateRow(t, true, 0));
    var ready := Step(Step(st, BeginTrigger(project, "", "")), Capture(t, true));
    BecomesReadyToRecord(st, project);
    Records(ready, t);
  }

  lemma BecomesReadyToRecord(st: State, project: string)
    requires project !in st.guards && st.nextTask !in st.tasks
    ensures var t, s := st.nextTask, Step(Step(st, BeginTrigger(project, "", "")), Capture(st.nextTask, true));
            && t in s.tasks && s.tasks[t].phase == Ready && s.tasks[t].project == project && !s.tasks[t].rollback
            && s.tasks[t].commit == s.tasks[t].ref == s.tasks[t].artifact == ""
            && s == st.(tasks := st.tasks[t := s.tasks[t]], nextTask := t + 1, guards := st.guards[project := t])
  {
  }

  lemma Records(st: State, t: nat)
    requires t in st.tasks && st.tasks[t].phase == Ready
    ensures Step(st, CreateRow(t, true, 0)) == WithRow(st, t, 0)
  {
  }

  function WorkSteps(t: nat, image: string, ok: bool): seq<Action> {
    [SetRunning(t), SetArtifact(t, image, true), Finish(t, ok, "", 0)]
  }

  /** The job has its row. */
  ghost predicate OnOwnRow(st: State, t: nat) {
    && t in st.tasks && HasRow(st.tasks[t].phase)
    && st.tasks[t].phase.id in st.written && IsOf(st.rows, st.tasks[t].project, st.tasks[t].phase.id)
  }

  /** A step of the job on its row: nothing else changes. */
  ghost predicate OnlyItsRow(st: State, s: State, t: nat) {
    && OnOwnRow(st, t) && OnOwnRow(s, t) && s == st.(rows := s.rows, tasks := s.tasks)
    && s.tasks[t].phase.id == st.tasks[t].phase.id && s.tasks[t].project == st.tasks[t].project
    && s.tasks == st.tasks[t := s.tasks[t]]
    && s.rows == st.rows[st.tasks[t].phase.id := s.rows[st.tasks[t].phase.id]]
  }

  lemma OnlyItsRowChains(a: State, b: State, c: State, t: nat)
    requires OnlyItsRow(a, b, t) && OnlyItsRow(b, c, t)
    ensures OnlyItsRow(a, c, t)
  {
  }

  lemma JobWorks(st: State, t: nat, image: string, ok: bool)
    requires OnOwnRow(st, t) && st.tasks[t].phase.Created? && image != ""
    ensures var id, s := st.tasks[t].phase.id, Run(st, WorkSteps(t, image, ok));
            && OnlyItsRow(st, s, t) && s.tasks[t].phase.Finished?
            && s.rows[id].status == (if ok then Success else Failed) && s.rows[id].artifact == image
  {
    var a := Step(st, SetRunning(t));
    RunsOn(st, t);
    var b := Step(a, SetArtifact(t, image, true));
    SetsArtifact(a, t, image);
    Finishes(b, t, ok);
    RunThree(st, SetRunning(t), SetArtifact(t, image, true), Finish(t, ok, "", 0));
    OnlyItsRowChains(st, a, b, t);
    OnlyItsRowChains(st, b, Step(b, Finish(t, ok, "", 0)), t);
  }

  lemma RunsOn(st: State, t: nat)
    requires OnOwnRow(st, t) && st.tasks[t].phase.Created?
    ensures var s := Step(st, SetRunning(t)); OnlyItsRow(st, s, t) && s.tasks[t].phase.Working?
  {
  }

  lemma SetsArtifact(st: State, t: nat, image: string)
    requires OnOwnRow(st, t) && st.tasks[t].phase.Working? && image != ""
    ensures var s := Step(st, SetArtifact(t, image, true));
            OnlyItsRow(st, s, t) && s.tasks[t].phase.Working? && s.rows[st.tasks[t].phase.id].artifact == image
  {
  }

  lemma Finishes(st: State, t: nat, ok: bool)
    requires OnOwnRow(st, t) && st.tasks[t].phase.Working?
    ensures var id, s := st.tasks[t].phase.id, Step(st, Finish(t, ok, "", 0));
            && OnlyItsRow(st, s, t) && s.tasks[t].phase.Finished?
            && s.rows[id].artifact == st.rows[id].artifact && s.rows[id].status == if ok then Success else Failed
  {
  }

  /** A whole deploy of one image. */
  function DeploySteps(t: nat, project: string, image: string, ok: bool): seq<Action> {
    BeginSteps(t, project) + WorkSteps(t, image, ok) + [Release(t)]
  }

  /** The state after a deploy that went through beside everything else. */
  ghost predicate DeployedBeside(st: State, s: State, project: string, image: string, ok: bool) {
    && st.nextId in s.rows && s.rows == st.rows[st.nextId := s.rows[st.nextId]]
    && s.rows[st.nextId].project == project && s.rows[st.nextId].artifact == image
    && s.rows[st.nextId].status == (if ok then Success else Failed)
    && s.nextId == st.nextId + 1 && s.nextTask == st.nextTask + 1 && s.guards == st.guards && s.tasks == st.tasks
  }

  /** From every state with a free project a deploy of it can go through, either way. */
  lemma DeployHappens(st: State, project: string, image: string, ok: bool)
    requires project !in st.guards && st.nextTask !in st.tasks && image != ""
    ensures NoRestart(DeploySteps(st.nextTask, project, image, ok))
    ensures DeployedBeside(st, Run(st, DeploySteps(st.nextTask, project, image, ok)), project, image, ok)
  {
    var t := st.nextTask;
    DeployRecords(st, project);
    var begun := Run(st, BeginSteps(t, project));
    JobWorks(begun, t, image, ok);
    var done := Run(begun, WorkSteps(t, image, ok));
    DeployIsThreeRuns(st, t, project, image, ok);
    FreesProject(done, t);
    GuardGone(st.guards, project, t);
    TaskGone(st.tasks, t, done.tasks[t]);
  }

  lemma DeployIsThreeRuns(st: State, t: nat, project: string, image: string, ok: bool)
    ensures Run(st, DeploySteps(t, project, image, ok)) ==
            Step(Run(Run(st, BeginSteps(t, project)), WorkSteps(t, image, ok)), Release(t))
    ensures NoRestart(DeploySteps(t, project, image, ok))
  {
    RunAppend(st, BeginSteps(t, project), WorkSteps(t, image, ok));
    RunAppend(st, BeginSteps(t, project) + WorkSteps(t, image, ok), [Release(t)]);
    RunOne(Run(Run(st, BeginSteps(t, project)), WorkSteps(t, image, ok)), Release(t));
  }

  lemma GuardGone(guards: map<string, nat>, project: string, t: nat)
    requires project !in guards
    ensures guards[project := t] - {project} == guards
  {
  }

  lemma TaskGone(tasks: map<nat, Task>, t: nat, task: Task)
    requires t !in tasks
    ensures tasks[t := task] - {t} == tasks
  {
  }

  lemma FreesProject(st: State, t: nat)
    requires OnOwnRow(st, t) && st.tasks[t].phase.Finished?
    ensures Step(st, Release(t)) == st.(guards := st.guards - {st.tasks[t].project}, tasks := st.tasks - {t})
  {
  }

  lemma NextTaskIsNew(st: State)
    requires Inv(st)
    ensures st.nextTask !in st.tasks
  {
  }

  // ----- rollbacks happen -----

  function RollbackWork(t: nat, image: string): seq<Action> {
    [CreateRow(t, true, 0)] + WorkSteps(t, image, true)
  }

  /** The undisturbed rollback. */
  function Undisturbed(t: nat, image: string): Interleaving {
    Interleaving([], [], RollbackWork(t, image))
  }

  lemma ChoosesAndEnters(st: State, project: string, all: Interleaving)
    requires Inv(st) && project !in st.guards && RollbackTarget(st.rows, project, st.nextId).Ok?
    requires all.querying == [] && all.chosen == []
    ensures GetsEntry(st, project, all)
    ensures Admitted(st, project, all).guards == st.guards[project := st.nextTask]
  {
    BeginsChoosing(st, project);
    TargetIsNewestOlderSuccess(st.rows, project, st.nextId);
    ChoosesThenEnters(Step(st, BeginRollback(project, true)), st.nextTask);
    AllOld(st, project);
  }

  lemma ChoosesThenEnters(st: State, t: nat)
    requires t in st.tasks && st.tasks[t].phase.Choosing? && st.tasks[t].project !in st.guards
    requires var target := TargetOf(Successes(st.rows, st.tasks[t].project, st.nextId), st.tasks[t].phase.latestOk);
             target.Ok? && target.value in st.rows
    ensures var chosen := Step(st, Choose(t, false));
            && t in chosen.tasks && chosen.rows == st.rows && t in Step(chosen, TakeGuard(t)).tasks
            && Step(chosen, TakeGuard(t)).guards == st.guards[st.tasks[t].project := t]
  {
  }

  lemma AllOld(st: State, project: string)
    requires Inv(st)
    ensures forall id: nat | IsOf(st.rows, project, id) :: id < st.nextId
  {
  }

  /** From every reachable state with a free project and a target, the image rollback can go
      through, and the project is free again. */
  lemma ImageRollbackHappens(st: State, project: string, image: string)
    requires Inv(st) && project !in st.guards && image != ""
    requires var target := RollbackTarget(st.rows, project, st.nextId);
             target.Ok? && target.value in st.rows && st.rows[target.value].artifact == image
    ensures ImageRollback(st, project, Undisturbed(st.nextTask, image))
    ensures var s := RolledAndReleased(st, project, Undisturbed(st.nextTask, image)); Inv(s) && s.guards == st.guards
  {
    var t, all := st.nextTask, Undisturbed(st.nextTask, image);
    ChoosesAndEnters(st, project, all);
    AdmittedIs(st, project, all);
    var begun := Admitted(st, project, all);
    ReadyGoesThrough(begun, t, image);
    RollbackFrees(begun, t, all.working);
    GuardGone(st.guards, project, t);
  }

  lemma RollbackFrees(begun: State, t: nat, working: seq<Action>)
    requires Inv(begun) && OnOwnRow(Run(begun, working), t) && Run(begun, working).tasks[t].phase.Finished?
    ensures var s := Step(Run(begun, working), Release(t));
            Inv(s) && s.guards == Run(begun, working).guards - {Run(begun, working).tasks[t].project}
  {
    RunKeepsInv(begun, working);
    FreesProject(Run(begun, working), t);
    StepKeepsInv(Run(begun, working), Release(t));
  }

  lemma ReadyGoesThrough(st: State, t: nat, image: string)
    requires t in st.tasks && st.tasks[t].phase.Ready? && image != ""
    ensures var s := Run(st, RollbackWork(t, image));
            && OnOwnRow(s, t) && s.tasks[t].project == st.tasks[t].project && FinishedWell(st, s, t)
            && s.guards == st.guards
  {
    var recorded := Step(st, CreateRow(t, true, 0));
    assert OnOwnRow(recorded, t) && recorded.tasks[t].phase.Created?;
    JobWorks(recorded, t, image, true);
    RunOne(st, CreateRow(t, true, 0));
    RunAppend(st, [CreateRow(t, true, 0)], WorkSteps(t, image, true));
  }

  /** The state after two deploys of different images. */
  ghost function TwoReleases(project: string, first: string, second: string): State {
    Run(Run(Init, DeploySteps(0, project, first, true)), DeploySteps(1, project, second, true))
  }

  lemma TwoReleasesAre(project: string, first: string, second: string)
    requires first != "" && second != ""
    ensures var st := TwoReleases(project, first, second);
            && Inv(st) && OpenIsNewest(st) && st.guards == map[] && st.nextId == 3 && st.nextTask == 2
    ensures var rows := TwoReleases(project, first, second).rows;
            && 1 in rows && 2 in rows && rows[1].artifact == first && rows[2].artifact == second
            && IsSuccess(rows, project, 1) && IsSuccess(rows, project, 2) && rows.Keys == {1, 2}
  {
    InitInv();
    DeployHappens(Init, project, first, true);
    var one := Run(Init, DeploySteps(0, project, first, true));
    DeployHappens(one, project, second, true);
    RunKeepsInv(Init, DeploySteps(0, project, first, true));
    RunKeepsInv(one, DeploySteps(1, project, second, true));
    RunKeepsNewest(Init, DeploySteps(0, project, first, true));
    RunKeepsNewest(one, DeploySteps(1, project, second, true));
  }

  /** Of two successes the earlier one is the target. */
  lemma TargetIsFirst(rows: Rows, project: string)
    requires rows.Keys == {1, 2} && IsSuccess(rows, project, 1) && IsSuccess(rows, project, 2)
    ensures RollbackTarget(rows, project, 3) == Ok(1) && LatestSucceeded(rows, project, 3)
    ensures Attempts(rows, project, 3) != [] && Attempts(rows, project, 3)[0] == 2
  {
    NewestAttempt(rows, project, 3);
    TargetIsNewestOlderSuccess(rows, project, 3);
    assert OlderSuccess(rows, project, 2, 1);
  }

  /** With a third attempt behind them the later one is. */
  lemma TargetIsSecond(rows: Rows, project: string)
    requires rows.Keys == {1, 2, 3} && IsSuccess(rows, project, 1) && IsSuccess(rows, project, 2)
        && IsOf(rows, project, 3)
    ensures RollbackTarget(rows, project, 4) == Ok(2)
  {
    NewestAttempt(rows, project, 4);
    TargetIsNewestOlderSuccess(rows, project, 4);
    assert OlderSuccess(rows, project, 3, 2);
  }

  /** Two image rollbacks in a row do happen: the premises of TwoImageRollbacksReturn hold of a
      run from the start, with a deploy of another project between the two. */
  lemma TwoImageRollbacksHappen(project: string, first: string, second: string, other: string)
    requires first != "" && second != "" && other != project
    ensures var st := TwoReleases(project, first, second);
            var one := Undisturbed(st.nextTask, first);
            var released := RolledAndReleased(st, project, one);
            var between := Run(released, DeploySteps(released.nextTask, other, "image", true));
            && LatestSucceeded(st.rows, project, st.nextId) && ImageRollback(st, project, one)
            && LeftAlone(released, between, project)
            && ImageRollback(between, project, Undisturbed(between.nextTask, second))
  {
    TwoReleasesAre(project, first, second);
    var st := TwoReleases(project, first, second);
    TargetIsFirst(st.rows, project);
    var one := Undisturbed(st.nextTask, first);
    ImageRollbackHappens(st, project, first);
    ImageRollbackAdds(st, project, one);
    var done, between := Rolled(st, project, one), RolledAndReleased(st, project, one);
    RollbackShifts(st.rows, st.nextId, done.rows, done.nextId, project, RolledRow(st, project, one));
    ReleaseKeepsHistory(done, st.nextTask);
    OtherDeployBetween(between, project, second, other);
  }

  /** A deploy of another project leaves a project alone, and its rollback can still happen. */
  lemma OtherDeployBetween(st: State, project: string, image: string, other: string)
    requires Inv(st) && other != project && st.guards == map[] && image != ""
    requires var target := RollbackTarget(st.rows, project, st.nextId);
             target.Ok? && target.value in st.rows && st.rows[target.value].artifact == image
    ensures var later := Run(st, DeploySteps(st.nextTask, other, "image", true));
            LeftAlone(st, later, project) && ImageRollback(later, project, Undisturbed(later.nextTask, image))
  {
    var later := Run(st, DeploySteps(st.nextTask, other, "image", true));
    NextTaskIsNew(st);
    DeployHappens(st, other, "image", true);
    RunKeepsInv(st, DeploySteps(st.nextTask, other, "image", true));
    AllOld(st, project);
    assert IsOf(later.rows, other, st.nextId);
    assert LeftAlone(st, later, project);
    LeftAloneKeepsHistory(st, DeploySteps(st.nextTask, other, "image", true), project);
    SameTarget(st, later, project);
    TargetIsNewestOlderSuccess(st.rows, project, st.nextId);
    ImageRollbackHappens(later, project, image);
  }

  /** A choice does go stale: after two releases a rollback chooses the first, another deploy
      comes in between, failed or not, and a new choice would be the second. */
  lemma StaleChoiceHappens(project: string, first: string, second: string, third: string, ok: bool)
    requires first != "" && second != "" && third != ""
    ensures var st := TwoReleases(project, first, second); var t := st.nextTask;
            var chosen := Step(Step(st, BeginRollback(project, true)), Choose(t, false));
            var later := Run(chosen, DeploySteps(t + 1, project, third, ok));
            && t in later.tasks && later.tasks[t].phase == Selected && later.tasks[t].source == Some(1)
            && RollbackTarget(later.rows, project, later.nextId) == Ok(2)
  {
    TwoReleasesAre(project, first, second);
    var st := TwoReleases(project, first, second);
    var t := st.nextTask;
    TargetIsFirst(st.rows, project);
    BeginsChoosing(st, project);
    var begun := Step(st, BeginRollback(project, true));
    var chosen := Step(begun, Choose(t, false));
    ChoosesThenEnters(begun, t);
    ChosenIs(begun, t, false);
    StepKeepsInv(begun, Choose(t, false));
    NextTaskIsNew(chosen);
    DeployHappens(chosen, project, third, ok);
    var later := Run(chosen, DeploySteps(t + 1, project, third, ok));
    TargetIsSecond(later.rows, project);
  }

  // ----- a log beyond the cap -----

  function OverflowSteps(chunk: string): seq<Action> {
    [OpenStream(1), SetRunning(0), AppendLog(0, chunk, true)] + [Finish(0, true, "", 0), Poll(0, true)]
  }

  /** A job logs more than the cap, its stream is read once it has finished: the stream is told
      success and has not sent the output. */
  lemma OverflowHappens(project: string, chunk: string)
    requires |chunk| > MAX_LOG
    ensures var st := Run(Run(Init, BeginSteps(0, project)), OverflowSteps(chunk));
            && 0 in st.streams && 1 in st.rows && 1 in st.written && st.streams[0].id == 1
            && st.streams[0].end == Told(Success) && st.written[1] == chunk && st.streams[0].out != chunk
  {
    DeployRecords(Init, project);
    var begun := Run(Init, BeginSteps(0, project));
    FreshStreams(project);
    assert begun.rows[1].log == "" && begun.tasks[0].phase == Created(1);
    var logged := Run(begun, [OpenStream(1), SetRunning(0), AppendLog(0, chunk, true)]);
    RunThree(begun, OpenStream(1), SetRunning(0), AppendLog(0, chunk, true));
    LogsChunk(begun, chunk);
    RunAppend(begun, [OpenStream(1), SetRunning(0), AppendLog(0, chunk, true)],
              [Finish(0, true, "", 0), Poll(0, true)]);
    RunCons(logged, Finish(0, true, "", 0), [Poll(0, true)]);
    RunOne(Step(logged, Finish(0, true, "", 0)), Poll(0, true));
    assert [Finish(0, true, "", 0)] + [Poll(0, true)] == [Finish(0, true, "", 0), Poll(0, true)];
    ReadsTail(logged, chunk);
  }

  lemma FreshStreams(project: string)
    ensures var begun := Run(Init, BeginSteps(0, project)); begun.nextStream == 0 && begun.written == map[1 := ""]
  {
    RunThree(Init, BeginTrigger(project, "", ""), Capture(0, true), CreateRow(0, true, 0));
    BecomesReadyToRecord(Init, project);
    Records(Step(Step(Init, BeginTrigger(project, "", "")), Capture(0, true)), 0);
  }

  lemma LogsChunk(st: State, chunk: string)
    requires OnOwnRow(st, 0) && st.tasks[0].phase == Created(1) && st.nextStream == 0
    requires st.rows[1].log == "" && st.written[1] == ""
    ensures var s := Step(Step(Step(st, OpenStream(1)), SetRunning(0)), AppendLog(0, chunk, true));
            && OnOwnRow(s, 0) && s.tasks[0].phase == Working(1) && s.rows[1].log == CapStoredText(chunk, MAX_LOG)
            && s.written[1] == chunk && 0 in s.streams && s.streams[0] == Stream(1, 0, "", Live)
  {
    assert "" + chunk == chunk;
  }

  lemma ReadsTail(st: State, chunk: string)
    requires OnOwnRow(st, 0) && st.tasks[0].phase == Working(1) && st.rows[1].log == CapStoredText(chunk, MAX_LOG)
    requires |chunk| > MAX_LOG && st.written[1] == chunk && 0 in st.streams && st.streams[0] == Stream(1, 0, "", Live)
    ensures var s := Step(Step(st, Finish(0, true, "", 0)), Poll(0, true));
            && 1 in s.rows && 1 in s.written && s.written[1] == chunk && 0 in s.streams
            && s.streams[0].id == 1 && s.streams[0].end == Told(Success) && |s.streams[0].out| == MAX_LOG
  {
  }
}
