/** The deployer and the log streamer as the code runs them, tied to the steps of Lifecycle:
    each method is one schedule of steps, so what holds of every interleaving holds here. */
module DeployJobs {
  import opened Results
  import opened Deployments
  import opened Lifecycle

  /** What a worker is handed. */
  datatype Job = Job(id: nat, project: string, rollback: bool, commit: string, ref: string, artifact: string,
                     previous: string)

  datatype Refusal = InProgress | NoTarget | StoreFailed

  /** A line a worker logs, and whether the store takes it. */
  datatype Log = Log(line: string, stored: bool)

  /** How a worker's calls fare and what they log. stored tells whether the write of the artifact
      works, lastStored whether that of the last line does. */
  datatype Outcome = Outcome(start: Log, resolve: Result<(), string>, open: Result<(), string>, lines: seq<Log>,
                             pipeline: Result<string, string>, stored: bool, registerLines: seq<Log>,
                             register: Result<(), string>, done: string, lastStored: bool, now: nat)

  predicate JobIs(task: Task, job: Job) {
    && task.project == job.project && task.rollback == job.rollback && task.commit == job.commit && task.ref == job.ref
    && task.artifact == job.artifact && task.previous == job.previous
  }

  // ----- what a worker's outcome means -----

  predicate RanPipeline(o: Outcome) {
    o.resolve.Ok? && o.open.Ok? && o.pipeline.Ok?
  }

  function Verdict(o: Outcome): Result<(), string> {
    if o.resolve.Err? then o.resolve
    else if o.open.Err? then o.open
    else if o.pipeline.Err? then Err(o.pipeline.error)
    else o.register
  }

  predicate ReportsArtifact(o: Outcome) {
    RanPipeline(o) && o.pipeline.value != ""
  }

  function FinalArtifact(artifact: string, o: Outcome): string {
    if ReportsArtifact(o) && o.stored then o.pipeline.value else artifact
  }

  function Line(line: string): string {
    line + "\n"
  }

  /** What is stored of one line. */
  function Stored(log: Log): string {
    if log.stored then Line(log.line) else ""
  }

  /** What is stored of some lines. */
  function Lines(lines: seq<Log>): string {
    if lines == [] then "" else Stored(lines[0]) + Lines(lines[1..])
  }

  /** The lines of the steps between the first and the last line. */
  function StepLines(o: Outcome): seq<Log> {
    (if o.resolve.Ok? && o.open.Ok? then o.lines else []) + (if RanPipeline(o) then o.registerLines else [])
  }

  function LastLine(verdict: Result<(), string>, o: Outcome): Log {
    match verdict
    case Ok(_) => Log(o.done, o.lastStored)
    case Err(e) => Log("ERROR: " + e, o.lastStored)
  }

  /** Every line a worker logs, in order. */
  function Logged(o: Outcome): seq<Log> {
    [o.start] + StepLines(o) + [LastLine(Verdict(o), o)]
  }

  /** A row after some lines were logged to it. */
  function LoggedRow(row: Row, lines: seq<Log>): Row {
    row.(log := CapStoredText(row.log + Lines(lines), MAX_LOG))
  }

  /** The row a worker leaves behind. */
  function WorkedRow(row: Row, artifact: string, o: Outcome): Row {
    var ok := Verdict(o).Ok?;
    Closed(LoggedRow(row, Logged(o)).(artifact := FinalArtifact(artifact, o)),
           if ok then Success else Failed, if ok then "" else Verdict(o).error, o.now)
  }

  /** The row a worker leaves behind, spelled out: a success exactly when every step worked; the
      error of the first step that did not, its last 16 KiB; the reported artifact when there is one
      and it was stored. */
  lemma WorkedIs(row: Row, artifact: string, o: Outcome)
    ensures var after := WorkedRow(row, artifact, o);
            var error := if o.resolve.Err? then o.resolve.error
                         else if o.open.Err? then o.open.error
                         else if o.pipeline.Err? then o.pipeline.error
                         else if o.register.Err? then o.register.error
                         else "";
            && after.status == (if o.resolve.Ok? && o.open.Ok? && o.pipeline.Ok? && o.register.Ok? then Success
                                else Failed)
            && after.error == (if |error| <= 16 * 1024 then error else error[|error| - 16 * 1024..])
            && after.finishedAt == o.now
            && after.artifact == (if o.resolve.Ok? && o.open.Ok? && o.pipeline.Ok? && o.pipeline.value != ""
                                     && o.stored then o.pipeline.value
                                  else artifact)
            && after.project == row.project && after.commit == row.commit && after.ref == row.ref
            && after.startedAt == row.startedAt
  {
    VerdictIs(o);
    WorkedFields(row, artifact, o);
  }

  lemma VerdictIs(o: Outcome)
    ensures Verdict(o).Ok? <==> o.resolve.Ok? && o.open.Ok? && o.pipeline.Ok? && o.register.Ok?
    ensures Verdict(o).Err? ==>
              Verdict(o).error == if o.resolve.Err? then o.resolve.error
                                  else if o.open.Err? then o.open.error
                                  else if o.pipeline.Err? then o.pipeline.error
                                  else o.register.error
  {
  }

  lemma WorkedFields(row: Row, artifact: string, o: Outcome)
    ensures var after := WorkedRow(row, artifact, o); var verdict := Verdict(o);
            && after.status == (if verdict.Ok? then Success else Failed)
            && after.error == CapStoredText(if verdict.Ok? then "" else verdict.error, MAX_ERROR)
            && after.finishedAt == o.now && after.artifact == FinalArtifact(artifact, o)
            && after.project == row.project && after.commit == row.commit && after.ref == row.ref
            && after.startedAt == row.startedAt
  {
  }

  /** The log it leaves behind: the last 4 MiB of what was there, the lines of the steps that ran,
      and the verdict, each line once and in order. */
  lemma WorkedLogIs(row: Row, artifact: string, o: Outcome)
    ensures var verdict := if o.resolve.Err? then "ERROR: " + o.resolve.error
                           else if o.open.Err? then "ERROR: " + o.open.error
                           else if o.pipeline.Err? then "ERROR: " + o.pipeline.error
                           else if o.register.Err? then "ERROR: " + o.register.error
                           else o.done;
            var lines := [o.start]
                         + ((if o.resolve.Ok? && o.open.Ok? then o.lines else [])
                            + (if o.resolve.Ok? && o.open.Ok? && o.pipeline.Ok? then o.registerLines else []))
                         + [Log(verdict, o.lastStored)];
            var text := row.log + Lines(lines);
            WorkedRow(row, artifact, o).log
            == if |text| <= 4 * 1024 * 1024 then text else text[|text| - 4 * 1024 * 1024..]
  {
  }

  /** A line is stored with its line feed, or not at all, and lines in their order. */
  lemma LinesAre(line: string, a: seq<Log>, b: seq<Log>)
    ensures Lines([]) == "" && Lines([Log(line, true)]) == line + "\n" && Lines([Log(line, false)]) == ""
    ensures Lines(a + b) == Lines(a) + Lines(b)
  {
    LinesOne(Log(line, true));
    LinesOne(Log(line, false));
    LinesAppend(a, b);
  }

  lemma LinesOne(log: Log)
    ensures Lines([log]) == Stored(log)
  {
    assert [log][1..] == [];
    assert Stored(log) + "" == Stored(log);
  }

  lemma LoggedNone(row: Row)
    requires |row.log| <= MAX_LOG
    ensures LoggedRow(row, []) == row
  {
    assert row.log + "" == row.log;
  }

  lemma CapTwoAppends(log: string, a: string, b: string)
    ensures CapStoredText(CapStoredText(log + a, MAX_LOG) + b, MAX_LOG) == CapStoredText(log + (a + b), MAX_LOG)
  {
    CapAppend(log + a, b, MAX_LOG);
    assert (log + a) + b == log + (a + b);
  }

  lemma LoggedTwice(row: Row, a: seq<Log>, b: seq<Log>)
    ensures LoggedRow(LoggedRow(row, a), b) == LoggedRow(row, a + b)
  {
    LinesAppend(a, b);
    CapTwoAppends(row.log, Lines(a), Lines(b));
  }

  /** The row after the steps between the first and the last line. */
  function SteppedRow(row: Row, o: Outcome): Row {
    LoggedRow(row, StepLines(o)).(artifact := FinalArtifact(row.artifact, o))
  }

  /** The row with the last line and the verdict. */
  function Concluded(row: Row, verdict: Result<(), string>, o: Outcome): Row {
    match verdict
    case Ok(_) => Closed(LoggedRow(row, [LastLine(verdict, o)]), Success, "", o.now)
    case Err(e) => Closed(LoggedRow(row, [LastLine(verdict, o)]), Failed, e, o.now)
  }

  lemma SteppedOnFailure(row: Row, o: Outcome)
    requires o.resolve.Ok? && o.open.Ok? && o.pipeline.Err?
    ensures LoggedRow(row, o.lines) == SteppedRow(row, o)
  {
    assert o.lines + [] == o.lines;
  }

  lemma WorkedFrom(row: Row, artifact: string, o: Outcome)
    ensures var begun := LoggedRow(row.(status := Running, artifact := artifact), [o.start]);
            Concluded(SteppedRow(begun, o), Verdict(o), o) == WorkedRow(row, artifact, o)
  {
    LoggedTwice(row, [o.start], StepLines(o));
    LoggedTwice(row, [o.start] + StepLines(o), [LastLine(Verdict(o), o)]);
  }

  lemma SteppedAfterAll(row: Row, o: Outcome)
    requires RanPipeline(o)
    ensures var ran := LoggedRow(row, o.lines);
            LoggedRow(ran.(artifact := FinalArtifact(row.artifact, o)), o.registerLines) == SteppedRow(row, o)
  {
    LoggedTwice(row, o.lines, o.registerLines);
  }

  lemma LoggedOneMore(row: Row, lines: seq<Log>, i: nat)
    requires i < |lines|
    ensures LoggedRow(LoggedRow(row, lines[..i]), [lines[i]]) == LoggedRow(row, lines[..i + 1])
  {
    LoggedTwice(row, lines[..i], [lines[i]]);
    assert lines[..i] + [lines[i]] == lines[..i + 1];
  }

  lemma {:induction false} LinesAppend(a: seq<Log>, b: seq<Log>)
    ensures Lines(a + b) == Lines(a) + Lines(b)
  {
    if a == [] {
      assert a + b == b;
    } else {
      LinesAppend(a[1..], b);
      LinesAfter(a, b, Lines(a[1..]), Lines(b));
    }
  }

  lemma LinesAfter(a: seq<Log>, b: seq<Log>, x: string, y: string)
    requires a != [] && Lines(a[1..] + b) == x + y && x == Lines(a[1..])
    ensures Lines(a + b) == Lines(a) + y
  {
    assert (a + b)[1..] == a[1..] + b;
    Associative(Stored(a[0]), x, y);
  }

  lemma Associative(x: string, y: string, z: string)
    ensures (x + y) + z == x + (y + z)
  {
  }

  // ----- the steps a worker takes -----

  function Appends(t: nat, lines: seq<Log>): seq<Action> {
    seq(|lines|, i requires 0 <= i < |lines| => AppendLog(t, Line(lines[i].line), lines[i].stored))
  }

  /** Between the first and the last line. */
  function StepActions(t: nat, o: Outcome): seq<Action> {
    (if o.resolve.Ok? && o.open.Ok? then Appends(t, o.lines) else [])
    + (if RanPipeline(o) then PublishActions(t, o) else [])
  }

  function PublishActions(t: nat, o: Outcome): seq<Action> {
    (if ReportsArtifact(o) then [Action.SetArtifact(t, o.pipeline.value, o.stored)] else [])
    + Appends(t, o.registerLines)
  }

  lemma StepActionsAre(t: nat, o: Outcome)
    ensures o.resolve.Err? || o.open.Err? ==> StepActions(t, o) == []
    ensures o.resolve.Ok? && o.open.Ok? && o.pipeline.Err? ==> StepActions(t, o) == Appends(t, o.lines)
    ensures RanPipeline(o) ==> StepActions(t, o) == Appends(t, o.lines) + PublishActions(t, o)
  {
  }

  function EndActions(t: nat, verdict: Result<(), string>, o: Outcome): seq<Action> {
    Appends(t, [LastLine(verdict, o)])
    + [Finish(t, verdict.Ok?, if verdict.Ok? then "" else verdict.error, o.now), Release(t)]
  }

  function WorkActions(t: nat, o: Outcome): seq<Action> {
    [SetRunning(t)] + Appends(t, [o.start]) + StepActions(t, o) + EndActions(t, Verdict(o), o)
  }

  lemma FourParts(a: seq<Action>, b: seq<Action>, c: seq<Action>, d: seq<Action>)
    ensures ((a + b) + c) + d == a + ((b + c) + d)
  {
  }

  lemma AppendsMore(t: nat, lines: seq<Log>, i: nat)
    requires i < |lines|
    ensures Appends(t, lines[..i + 1]) ==
            Appends(t, lines[..i]) + [AppendLog(t, Line(lines[i].line), lines[i].stored)]
  {
  }

  lemma {:induction false} RunSnoc(st: State, actions: seq<Action>, a: Action)
    ensures Run(st, actions + [a]) == Step(Run(st, actions), a)
    decreases |actions|
  {
    if actions != [] {
      assert (actions + [a])[1..] == actions[1..] + [a];
      RunSnoc(Step(st, actions[0]), actions[1..], a);
    }
  }

  class Deployer {
    const store: Store
    var inFlight: set<string>
    ghost var st: State          // every actor's state
    ghost var steps: seq<Action> // every step taken so far

    constructor ()
      ensures Valid() && fresh(store) && steps == []
    {
      store := new Store();
      inFlight := {};
      st, steps := Init, [];
    }

    /** The rows and the in-flight entries are those of a run of the step machine. */
    ghost predicate Valid()
      reads this, store
    {
      && st == Run(Init, steps)
      && store.Valid() && store.rows == st.rows && store.nextId == st.nextId
      && inFlight == st.guards.Keys
    }

    /** Records that the actors took one more step. */
    ghost method Took(a: Action)
      requires st == Run(Init, steps)
      modifies this`st, this`steps
      ensures st == Step(old(st), a) && steps == old(steps) + [a]
      ensures st == Run(Init, steps)
    {
      RunSnoc(Init, steps, a);
      st, steps := Step(st, a), steps + [a];
    }

    /** LoadOrStore on the in-flight map for a deploy. */
    method Claim(project: string, commit: string, ref: string) returns (loaded: bool)
      requires Valid()
      modifies this
      ensures Valid() && loaded == (project in old(inFlight))
      ensures steps == old(steps) + [BeginTrigger(project, commit, ref)]
      ensures !loaded ==>
                && old(st).nextTask in st.tasks
                && st.tasks[old(st).nextTask] == Task(project, false, None, commit, ref, "", false, "", Guarded)
      ensures inFlight == old(inFlight) + {project}
    {
      loaded := project in inFlight;
      Took(BeginTrigger(project, commit, ref));
      if !loaded {
        inFlight := inFlight + {project};
      }
    }

    /** Reads the artifact of the newest success; a failing read counts as none. */
    method Previous(ghost t: nat, project: string, works: bool) returns (previous: string)
      requires Valid() && t in st.tasks && st.tasks[t].phase.Guarded? && st.tasks[t].project == project
      modifies this
      ensures Valid() && inFlight == old(inFlight) && steps == old(steps) + [Capture(t, works)]
      ensures previous == if works then NewestArtifact(store.rows, project, store.nextId) else ""
      ensures t in st.tasks && st.tasks[t] == old(st).tasks[t].(phase := Ready, captured := works, previous := previous)
    {
      previous := "";
      if works {
        var successes := store.SuccessfulDeployments(project, 1);
        SuccessesAre(store.rows, project, store.nextId);
        NewestIsHead(store.rows, project, store.nextId);
        if |successes| > 0 {
          assert successes[0] in Successes(store.rows, project, store.nextId);
          previous := store.rows[successes[0]].artifact;
        }
      }
      JobIsSound(steps, t);
      Took(Capture(t, works));
    }

    /** Inserts the row of an admitted job, or gives its project back. */
    method Record(ghost t: nat, d: Row, works: bool) returns (id: Option<nat>)
      requires Valid() && t in st.tasks && st.tasks[t].phase.Ready? && d == NewRow(st.tasks[t], d.startedAt)
      modifies this, store
      ensures Valid() && steps == old(steps) + [CreateRow(t, works, d.startedAt)]
      ensures id == if works then Some(old(store.nextId)) else None
      ensures store.rows == if works then old(store.rows)[old(store.nextId) := d] else old(store.rows)
      ensures works ==> t in st.tasks && st.tasks[t] == old(st).tasks[t].(phase := Created(old(store.nextId)))
      ensures inFlight == if works then old(inFlight) else old(inFlight) - {d.project}
    {
      id := store.CreateDeployment(d, works);
      JobIsSound(steps, t);
      Took(CreateRow(t, works, d.startedAt));
      if id.None? {
        inFlight := inFlight - {d.project};
      }
    }

    /** Claims the project, remembers the artifact to fall back to and records the attempt. */
    method Trigger(project: string, commit: string, ref: string, readWorks: bool, createWorks: bool, now: nat)
        returns (r: Result<Job, Refusal>, ghost t: nat)
      requires Valid()
      modifies this, store
      ensures Valid() && t == old(st).nextTask
      ensures r == if project in old(inFlight) then Err(InProgress) else if !createWorks then Err(StoreFailed)
                   else Ok(Job(old(store.nextId), project, false, commit, ref, "",
                               if readWorks then NewestArtifact(old(store.rows), project, old(store.nextId)) else ""))
      ensures var row := Row(project, Queued, commit, ref, "", "", "", now, 0);
              store.rows == if r.Ok? then old(store.rows)[old(store.nextId) := row] else old(store.rows)
      ensures inFlight == if r.Ok? then old(inFlight) + {project} else old(inFlight)
      ensures r.Ok? ==> t in st.tasks && JobIs(st.tasks[t], r.value) && st.tasks[t].phase == Created(r.value.id)
      ensures steps == old(steps) + if project in old(inFlight) then [BeginTrigger(project, commit, ref)]
                                    else [BeginTrigger(project, commit, ref), Capture(t, readWorks),
                                          CreateRow(t, createWorks, now)]
    {
      t := st.nextTask;
      var loaded := Claim(project, commit, ref);
      if loaded {
        return Err(InProgress), t;
      }
      var previous := Previous(t, project, readWorks);
      var id := Record(t, Row(project, Queued, commit, ref, "", "", "", now, 0), createWorks);
      if id.None? {
        return Err(StoreFailed), t;
      }
      r := Ok(Job(id.value, project, false, commit, ref, "", previous));
    }

    /** The choice of what to go back to, from history unless the target keeps backups. */
    method Select(project: string, fromHistory: bool, compose: bool) returns (r: Result<Job, Refusal>)
      requires Valid()
      modifies this`st, this`steps
      ensures Valid()
      ensures r == Chosen(store.rows, store.nextId, project, fromHistory, compose)
      ensures steps == old(steps) + SelectActions(old(st).nextTask, project, fromHistory, compose)
      ensures r.Ok? ==> old(st).nextTask in st.tasks && st.tasks[old(st).nextTask].phase.Selected?
                        && JobIs(st.tasks[old(st).nextTask], r.value)
    {
      ghost var t := st.nextTask;
      Took(BeginRollback(project, fromHistory));
      if !fromHistory {
        return Ok(Job(0, project, true, "", "", "", ""));
      }
      r := SelectTarget(project, compose, t);
    }

    /** The newest success, or the one before it when the latest attempt succeeded. */
    method SelectTarget(project: string, compose: bool, ghost t: nat) returns (r: Result<Job, Refusal>)
      requires Valid() && t in st.tasks
      requires st.tasks[t] == Task(project, true, None, "", "", "", false, "",
                                   Choosing(LatestSucceeded(st.rows, project, st.nextId)))
      modifies this`st, this`steps
      ensures Valid()
      ensures r == Chosen(store.rows, store.nextId, project, true, compose)
          && steps == old(steps) + [Choose(t, compose)]
      ensures r.Ok? ==> t in st.tasks && st.tasks[t].phase.Selected? && JobIs(st.tasks[t], r.value)
    {
      var target := store.PreviousSuccessful(project);
      TargetIsNewestOlderSuccess(store.rows, project, store.nextId);
      Took(Choose(t, compose));
      if target.Err? {
        return Err(NoTarget);
      }
      var prev := store.rows[target.value];
      r := Ok(Job(0, project, true, RollbackCommit(prev, compose), prev.ref, prev.artifact, ""));
    }

    /** LoadOrStore on the in-flight map for a rollback. */
    method TakeEntry(ghost t: nat, project: string) returns (loaded: bool)
      requires Valid() && t in st.tasks && st.tasks[t].phase.Selected? && st.tasks[t].project == project
      modifies this
      ensures Valid() && loaded == (project in old(inFlight)) && inFlight == old(inFlight) + {project}
      ensures steps == old(steps) + [TakeGuard(t)]
      ensures !loaded ==> t in st.tasks && st.tasks[t] == old(st).tasks[t].(phase := Ready)
    {
      loaded := project in inFlight;
      JobIsSound(steps, t);
      Took(TakeGuard(t));
      if !loaded {
        inFlight := inFlight + {project};
      }
    }

    /** Chooses what to go back to, then claims the project and records the attempt. */
    method Rollback(project: string, fromHistory: bool, compose: bool, createWorks: bool, now: nat)
        returns (r: Result<Job, Refusal>, ghost t: nat)
      requires Valid()
      modifies this, store
      ensures Valid() && t == old(st).nextTask
      ensures r == (match Chosen(old(store.rows), old(store.nextId), project, fromHistory, compose)
                    case Err(e) => Err(e)
                    case Ok(job) => if project in old(inFlight) then Err(InProgress)
                                    else if !createWorks then Err(StoreFailed)
                                    else Ok(job.(id := old(store.nextId))))
      ensures steps == old(steps) + SelectActions(t, project, fromHistory, compose) +
                (if Chosen(old(store.rows), old(store.nextId), project, fromHistory, compose).Err? then []
                 else if project in old(inFlight) then [TakeGuard(t)]
                 else [TakeGuard(t), CreateRow(t, createWorks, now)])
      ensures r.Ok? ==>
                var row := Row(project, Queued, r.value.commit, "", r.value.artifact, "", "", now, 0);
                store.rows == old(store.rows)[old(store.nextId) := row]
      ensures r.Err? ==> store.rows == old(store.rows)
      ensures inFlight == if r.Ok? then old(inFlight) + {project} else old(inFlight)
      ensures r.Ok? ==> t in st.tasks && JobIs(st.tasks[t], r.value) && st.tasks[t].phase == Created(r.value.id)
      // From history it goes back to a success older than some attempt, with none newer but the
      // project's newest attempt, and re-runs its commit, or its image where a compose project
      // recorded one.
      ensures r.Ok? && fromHistory ==>
                exists id | id in old(store.rows) && old(store.rows)[id].project == project
                            && old(store.rows)[id].status == Success ::
                  && (exists k | k in old(store.rows) && old(store.rows)[k].project == project :: k > id)
                  && (forall j | j in old(store.rows) && old(store.rows)[j].project == project
                                 && old(store.rows)[j].status == Success && j > id ::
                        forall k | k in old(store.rows) && old(store.rows)[k].project == project :: k <= j)
                  && r.value == Job(old(store.nextId), project, true,
                                    if compose && old(store.rows)[id].artifact != "" then old(store.rows)[id].artifact
                                    else old(store.rows)[id].commit,
                                    old(store.rows)[id].ref, old(store.rows)[id].artifact, "")
      ensures r.Ok? && !fromHistory ==> r.value == Job(old(store.nextId), project, true, "", "", "", "")
      // The refusals, in their order.
      ensures r == Err(NoTarget) <==>
                fromHistory
                && forall j | j in old(store.rows) && old(store.rows)[j].project == project
                              && old(store.rows)[j].status == Success ::
                     forall k | k in old(store.rows) && old(store.rows)[k].project == project :: k <= j
      ensures r != Err(NoTarget) ==>
                && (r == Err(InProgress) <==> project in old(inFlight))
                && (r == Err(StoreFailed) <==> project !in old(inFlight) && !createWorks)
    {
      ChosenIs(store.rows, store.nextId, project, fromHistory, compose);
      r, t := Attempt(project, fromHistory, compose, createWorks, now);
    }

    /** The steps of that rollback. */
    method Attempt(project: string, fromHistory: bool, compose: bool, createWorks: bool, now: nat)
        returns (r: Result<Job, Refusal>, ghost t: nat)
      requires Valid()
      modifies this, store
      ensures Valid() && t == old(st).nextTask
      ensures r == (match Chosen(old(store.rows), old(store.nextId), project, fromHistory, compose)
                    case Err(e) => Err(e)
                    case Ok(job) => if project in old(inFlight) then Err(InProgress)
                                    else if !createWorks then Err(StoreFailed)
                                    else Ok(job.(id := old(store.nextId))))
      ensures steps == old(steps) + SelectActions(t, project, fromHistory, compose) +
                (if Chosen(old(store.rows), old(store.nextId), project, fromHistory, compose).Err? then []
                 else if project in old(inFlight) then [TakeGuard(t)]
                 else [TakeGuard(t), CreateRow(t, createWorks, now)])
      ensures r.Ok? ==>
                var row := Row(project, Queued, r.value.commit, "", r.value.artifact, "", "", now, 0);
                store.rows == old(store.rows)[old(store.nextId) := row]
      ensures r.Err? ==> store.rows == old(store.rows)
      ensures inFlight == if r.Ok? then old(inFlight) + {project} else old(inFlight)
      ensures r.Ok? ==> t in st.tasks && JobIs(st.tasks[t], r.value) && st.tasks[t].phase == Created(r.value.id)
    {
      t := st.nextTask;
      r := Select(project, fromHistory, compose);
      if r.Err? {
        return r, t;
      }
      var loaded := TakeEntry(t, project);
      if loaded {
        return Err(InProgress), t;
      }
      var id := Record(t, Row(project, Queued, r.value.commit, "", r.value.artifact, "", "", now, 0), createWorks);
      if id.None? {
        return Err(StoreFailed), t;
      }
      r := Ok(r.value.(id := id.value));
    }

    // ----- the worker -----

    /** The job t is working on its row. */
    ghost predicate At(t: nat, phase: Phase)
      reads this
    {
      t in st.tasks && st.tasks[t].phase == phase && HasRow(phase) && phase.id in st.rows
    }

    method Start(job: Job, ghost t: nat)
      requires Valid() && At(t, Created(job.id)) && JobIs(st.tasks[t], job)
      modifies this`st, this`steps, store`rows
      ensures Valid() && At(t, Working(job.id)) && st.tasks[t].project == job.project
      ensures steps == old(steps) + [SetRunning(t)]
      ensures var row := old(store.rows)[job.id].(status := Running, artifact := job.artifact);
              store.rows == old(store.rows)[job.id := row]
    {
      store.SetDeploymentStatus(job.id, Running, job.artifact, true);
      JobIsSound(steps, t);
      Took(SetRunning(t));
    }

    /** Logs one line; when the store does not take it, that is only noted. */
    method Logf(id: nat, log: Log, ghost t: nat)
      requires Valid() && At(t, Working(id))
      modifies this`st, this`steps, store`rows
      ensures Valid() && At(t, Working(id)) && st.tasks[t] == old(st).tasks[t]
      ensures steps == old(steps) + [AppendLog(t, Line(log.line), log.stored)]
      ensures store.rows == old(store.rows)[id := LoggedRow(old(store.rows)[id], [log])]
    {
      LinesOne(log);
      JobIsSound(steps, t);
      LoggedNone(store.rows[id]);
      store.AppendDeploymentLog(id, Line(log.line), log.stored);
      Took(AppendLog(t, Line(log.line), log.stored));
    }

    method LogAll(id: nat, lines: seq<Log>, ghost t: nat)
      requires Valid() && At(t, Working(id))
      modifies this`st, this`steps, store`rows
      ensures Valid() && At(t, Working(id)) && st.tasks[t] == old(st).tasks[t]
      ensures steps == old(steps) + Appends(t, lines)
      ensures store.rows == old(store.rows)[id := LoggedRow(old(store.rows)[id], lines)]
    {
      ghost var rows, taken := store.rows, steps;
      JobIsSound(steps, t);
      LoggedNone(rows[id]);
      for i := 0 to |lines|
        invariant Valid() && At(t, Working(id)) && st.tasks[t] == old(st).tasks[t]
        invariant steps == taken + Appends(t, lines[..i])
        invariant store.rows == rows[id := LoggedRow(rows[id], lines[..i])]
      {
        Logf(id, lines[i], t);
        LoggedOneMore(rows[id], lines, i);
        AppendsMore(t, lines, i);
      }
      assert lines[..|lines|] == lines;
    }

    /** Records the artifact a pipeline reported; a failing write is only noted. */
    method SetArtifact(id: nat, artifact: string, stored: bool, ghost t: nat)
      requires Valid() && At(t, Working(id)) && artifact != "" && store.rows[id].status == Running
      modifies this`st, this`steps, store`rows
      ensures Valid() && At(t, Working(id)) && st.tasks[t].project == old(st).tasks[t].project
      ensures steps == old(steps) + [Action.SetArtifact(t, artifact, stored)]
      ensures var row := old(store.rows)[id];
              store.rows == old(store.rows)[id := if stored then row.(artifact := artifact) else row]
    {
      store.SetDeploymentStatus(id, Running, artifact, stored);
      JobIsSound(steps, t);
      Took(Action.SetArtifact(t, artifact, stored));
    }

    method FinishRow(id: nat, ok: bool, error: string, now: nat, ghost t: nat)
      requires Valid() && At(t, Working(id))
      modifies this`st, this`steps, store`rows
      ensures Valid() && At(t, Finished(id)) && st.tasks[t].project == old(st).tasks[t].project
      ensures steps == old(steps) + [Finish(t, ok, error, now)]
      ensures var row := Closed(old(store.rows)[id], if ok then Success else Failed, if ok then "" else error, now);
              store.rows == old(store.rows)[id := row]
    {
      store.FinishDeployment(id, if ok then Success else Failed, if ok then "" else error, now);
      JobIsSound(steps, t);
      Took(Finish(t, ok, error, now));
    }

    method Free(project: string, ghost id: nat, ghost t: nat)
      requires Valid() && At(t, Finished(id)) && st.tasks[t].project == project
      modifies this
      ensures Valid() && t !in st.tasks && inFlight == old(inFlight) - {project}
      ensures steps == old(steps) + [Release(t)]
    {
      JobIsSound(steps, t);
      Took(Release(t));
      inFlight := inFlight - {project};
    }

    /** Shared variables, target, pipeline and proxy, up to the first error. */
    method Execute(id: nat, o: Outcome, ghost t: nat) returns (verdict: Result<(), string>)
      requires Valid() && At(t, Working(id)) && store.rows[id].status == Running
      modifies this`st, this`steps, store`rows
      ensures Valid() && At(t, Working(id)) && st.tasks[t].project == old(st).tasks[t].project
      ensures verdict == Verdict(o) && steps == old(steps) + StepActions(t, o)
      ensures store.rows == old(store.rows)[id := SteppedRow(old(store.rows)[id], o)]
    {
      ghost var row := store.rows[id];
      JobIsSound(steps, t);
      LoggedNone(row);
      StepActionsAre(t, o);
      if o.resolve.Err? {
        return o.resolve;
      }
      if o.open.Err? {
        return o.open;
      }
      LogAll(id, o.lines, t);
      if o.pipeline.Err? {
        SteppedOnFailure(row, o);
        return Err(o.pipeline.error);
      }
      Publish(id, o, t);
      SteppedAfterAll(row, o);
      return o.register;
    }

    /** Records the artifact, if the pipeline reported one, and registers the route. */
    method Publish(id: nat, o: Outcome, ghost t: nat)
      requires Valid() && At(t, Working(id)) && store.rows[id].status == Running && RanPipeline(o)
      modifies this`st, this`steps, store`rows
      ensures Valid() && At(t, Working(id)) && st.tasks[t].project == old(st).tasks[t].project
      ensures steps == old(steps) + PublishActions(t, o)
      ensures var row := old(store.rows)[id];
              store.rows == old(store.rows)[id := LoggedRow(row.(artifact := FinalArtifact(row.artifact, o)),
                                                            o.registerLines)]
    {
      if o.pipeline.value != "" {
        SetArtifact(id, o.pipeline.value, o.stored, t);
      }
      LogAll(id, o.registerLines, t);
    }

    /** One worker's run: its row ends terminal with the pipeline's verdict, artifact and log,
        no other row is touched, its project is free again, and these are its steps. */
    method Work(job: Job, o: Outcome, ghost t: nat)
      requires Valid() && At(t, Created(job.id)) && JobIs(st.tasks[t], job)
      modifies this, store`rows
      ensures Valid() && t !in st.tasks && inFlight == old(inFlight) - {job.project}
      ensures store.rows == old(store.rows)[job.id := WorkedRow(old(store.rows)[job.id], job.artifact, o)]
      ensures steps == old(steps) + WorkActions(t, o)
      // The row is a success exactly when every step worked.
      ensures job.id in store.rows &&
              store.rows[job.id].status == if o.resolve.Ok? && o.open.Ok? && o.pipeline.Ok? && o.register.Ok?
                                           then Success else Failed
      // Its error is the text of the first step that failed, the last 16 KiB of it.
      ensures var error := if o.resolve.Err? then o.resolve.error
                           else if o.open.Err? then o.open.error
                           else if o.pipeline.Err? then o.pipeline.error
                           else if o.register.Err? then o.register.error
                           else "";
              store.rows[job.id].error == if |error| <= 16 * 1024 then error else error[|error| - 16 * 1024..]
      ensures store.rows[job.id].finishedAt == o.now
      // A reported artifact replaces the job's when the pipeline worked and the write did.
      ensures store.rows[job.id].artifact ==
              if o.resolve.Ok? && o.open.Ok? && o.pipeline.Ok? && o.pipeline.value != "" && o.stored
              then o.pipeline.value else job.artifact
      ensures var was, row := old(store.rows)[job.id], store.rows[job.id];
              row.project == was.project && row.commit == was.commit && row.ref == was.ref
              && row.startedAt == was.startedAt
      ensures forall id | id != job.id ::
                (id in store.rows <==> id in old(store.rows))
                && (id in store.rows ==> store.rows[id] == old(store.rows)[id])
      // Its log ends with the verdict, after the lines of the steps that ran, the last 4 MiB of it.
      ensures var verdict := if o.resolve.Err? then "ERROR: " + o.resolve.error
                             else if o.open.Err? then "ERROR: " + o.open.error
                             else if o.pipeline.Err? then "ERROR: " + o.pipeline.error
                             else if o.register.Err? then "ERROR: " + o.register.error
                             else o.done;
              var lines := [o.start]
                           + ((if o.resolve.Ok? && o.open.Ok? then o.lines else [])
                              + (if o.resolve.Ok? && o.open.Ok? && o.pipeline.Ok? then o.registerLines else []))
                           + [Log(verdict, o.lastStored)];
              var text := old(store.rows)[job.id].log + Lines(lines);
              store.rows[job.id].log == if |text| <= 4 * 1024 * 1024 then text else text[|text| - 4 * 1024 * 1024..]
    {
      ghost var row := store.rows[job.id];
      Perform(job, o, t);
      WorkedIs(row, job.artifact, o);
      WorkedLogIs(row, job.artifact, o);
    }

    /** The steps of that run. */
    method Perform(job: Job, o: Outcome, ghost t: nat)
      requires Valid() && At(t, Created(job.id)) && JobIs(st.tasks[t], job)
      modifies this, store`rows
      ensures Valid() && t !in st.tasks && inFlight == old(inFlight) - {job.project}
      ensures store.rows == old(store.rows)[job.id := WorkedRow(old(store.rows)[job.id], job.artifact, o)]
      ensures steps == old(steps) + WorkActions(t, o)
    {
      WorkedFrom(store.rows[job.id], job.artifact, o);
      Begin(job, o.start, t);
      var verdict := Execute(job.id, o, t);
      Conclude(job, verdict, o, t);
      FourParts(old(steps), [SetRunning(t)] + Appends(t, [o.start]), StepActions(t, o), EndActions(t, Verdict(o), o));
    }

    method Begin(job: Job, start: Log, ghost t: nat)
      requires Valid() && At(t, Created(job.id)) && JobIs(st.tasks[t], job)
      modifies this`st, this`steps, store`rows
      ensures Valid() && At(t, Working(job.id)) && st.tasks[t].project == job.project
      ensures steps == old(steps) + ([SetRunning(t)] + Appends(t, [start]))
      ensures var row := old(store.rows)[job.id].(status := Running, artifact := job.artifact);
              store.rows == old(store.rows)[job.id := LoggedRow(row, [start])]
    {
      Start(job, t);
      Logf(job.id, start, t);
    }

    method Conclude(job: Job, verdict: Result<(), string>, o: Outcome, ghost t: nat)
      requires Valid() && At(t, Working(job.id)) && st.tasks[t].project == job.project
      modifies this, store`rows
      ensures Valid() && t !in st.tasks && inFlight == old(inFlight) - {job.project}
      ensures steps == old(steps) + EndActions(t, verdict, o)
      ensures store.rows == old(store.rows)[job.id := Concluded(old(store.rows)[job.id], verdict, o)]
    {
      if verdict.Err? {
        Logf(job.id, Log("ERROR: " + verdict.error, o.lastStored), t);
        FinishRow(job.id, false, verdict.error, o.now, t);
      } else {
        Logf(job.id, Log(o.done, o.lastStored), t);
        FinishRow(job.id, true, "", o.now, t);
      }
      Free(job.project, job.id, t);
    }

    /** Startup after a crash or a stop: no job survives, open rows are closed, old ones pruned. */
    method Restart(now: nat, before: nat)
      requires Valid()
      modifies this, store`rows
      ensures Valid() && inFlight == {} && steps == old(steps) + [Action.Restart(now, before)]
      ensures store.rows == Pruned(Reconciled(old(store.rows), now), before)
      ensures forall id | id in store.rows :: Terminal(store.rows[id].status)
      // Open rows fail as interrupted, and closed ones that started earlier go.
      ensures forall id :: id in store.rows <==> id in old(store.rows) && old(store.rows)[id].startedAt >= before
      ensures forall id | id in store.rows ::
                store.rows[id] == if old(store.rows)[id].status == Success || old(store.rows)[id].status == Failed
                                  then old(store.rows)[id]
                                  else old(store.rows)[id].(status := Failed, finishedAt := now,
                                                            error := "deployment interrupted by service restart")
    {
      inFlight := {};
      store.FailInterruptedDeployments(now);
      store.PruneDeployments(before);
      Took(Action.Restart(now, before));
    }
  }

  /** One server-sent-events connection. */
  class Streamer {
    const id: nat
    var sent: nat
    var out: string
    var end: End

    constructor (id: nat)
      ensures State() == Stream(id, 0, "", Live)
    {
      this.id, sent, out, end := id, 0, "", Live;
    }

    ghost function State(): Stream
      reads this
    {
      Stream(id, sent, out, end)
    }

    /** One turn of the polling loop: what is new since the offset goes out, then the status. */
    method Poll(store: Store, works: bool)
      requires end.Live?
      modifies this
      ensures State() == Polled(old(State()), store.rows, works)
      // A failing or empty read ends the stream and sends nothing.
      ensures !works || id !in store.rows ==> end == Unknown && out == old(out) && sent == old(sent)
      // Otherwise what the log has beyond the offset goes out, and exactly a closed row's status
      // is told.
      ensures works && id in store.rows ==>
                var row := store.rows[id];
                && out == old(out) + (if |row.log| > old(sent) then row.log[old(sent)..] else "")
                && sent == (if |row.log| > old(sent) then |row.log| else old(sent))
                && end == (if row.status == Success || row.status == Failed then Told(row.status) else Live)
    {
      if !works || id !in store.rows {
        end := Unknown;
        return;
      }
      var dep := store.rows[id];
      if |dep.log| > sent {
        out := out + dep.log[sent..];
        sent := |dep.log|;
      }
      if dep.status == Success || dep.status == Failed {
        end := Told(dep.status);
      }
    }
  }

  function SelectActions(t: nat, project: string, fromHistory: bool, compose: bool): seq<Action> {
    [BeginRollback(project, fromHistory)] + (if fromHistory then [Choose(t, compose)] else [])
  }

  /** A rollback re-runs the newest success older than the latest attempt. */
  function Chosen(rows: Rows, n: nat, project: string, fromHistory: bool, compose: bool): Result<Job, Refusal> {
    if !fromHistory then Ok(Job(0, project, true, "", "", "", ""))
    else match RollbackTarget(rows, project, n)
      case Err(_) => Err(NoTarget)
      case Ok(id) =>
        if id !in rows then Err(NoTarget)
        else Ok(Job(0, project, true, RollbackCommit(rows[id], compose), rows[id].ref, rows[id].artifact, ""))
  }

  /** The choice, spelled out: a success older than some attempt, none newer but the project's
      newest attempt; what it re-runs is its image for a compose project that recorded one, and its
      commit otherwise. */
  lemma ChosenIs(rows: Rows, n: nat, project: string, fromHistory: bool, compose: bool)
    requires forall id | id in rows :: id < n
    ensures var r := Chosen(rows, n, project, fromHistory, compose);
            && (!fromHistory ==> r == Ok(Job(0, project, true, "", "", "", "")))
            && (fromHistory && r.Ok? ==>
                  exists id | id in rows && rows[id].project == project && rows[id].status == Success ::
                    && (exists k | k in rows && rows[k].project == project :: k > id)
                    && (forall j | j in rows && rows[j].project == project && rows[j].status == Success && j > id ::
                          forall k | k in rows && rows[k].project == project :: k <= j)
                    && r.value == Job(0, project, true, if compose && rows[id].artifact != "" then rows[id].artifact
                                                        else rows[id].commit, rows[id].ref, rows[id].artifact, ""))
            && (fromHistory && r.Err? ==>
                  && r.error == NoTarget
                  && forall j | j in rows && rows[j].project == project && rows[j].status == Success ::
                       forall k | k in rows && rows[k].project == project :: k <= j)
  {
    TargetSpelledOut(rows, project, n);
  }

  /** What every run guarantees about one of its jobs. */
  lemma JobIsSound(steps: seq<Action>, t: nat)
    requires t in Run(Init, steps).tasks
    ensures var st := Run(Init, steps); var task := st.tasks[t];
            && TaskFits(st.rows, task) && t < st.nextTask
            && (HasRow(task.phase) ==> task.phase.id in st.rows && task.phase.id in st.written
                                       && |st.rows[task.phase.id].log| <= MAX_LOG)
            && (Holding(task.phase) ==> task.project in st.guards && st.guards[task.project] == t)
  {
    InitInv();
    RunKeepsInv(Init, steps);
    var st := Run(Init, steps);
    if HasRow(st.tasks[t].phase) {
      assert LogComplete(st, st.tasks[t].phase.id);
    }
  }
}
