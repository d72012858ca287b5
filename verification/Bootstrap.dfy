/** Resumable provisioning: idempotent steps checked, applied and recorded in order. */
module Bootstrap {
  import opened Results

  /** One provisioning step over the state W of the machine: whether it is satisfied, what
      applying it does, and what an apply that fails half way leaves behind. */
  datatype Step<!W> = Step(name: string, check: W -> bool, apply: W -> W, partial: W -> W)

  /** Which commands and writes of one run fail, by step. */
  datatype Plan = Plan(checkFails: nat -> bool, applyFails: nat -> bool, metaFails: nat -> bool)

  datatype Status = StatusDone | StatusApplied | StatusPending | StatusError

  datatype StepResult = StepResult(name: string, status: Status)

  datatype Failure = CheckFailed(step: nat) | ApplyFailed(step: nat)

  datatype Machine<W> = Machine(world: W, meta: Option<map<string, string>>, applied: seq<nat>)

  function MetaKey(namespace: string, step: string): string {
    if namespace == "" then "bootstrap." + step else "bootstrap." + namespace + "." + step
  }

  lemma MetaKeyIs(namespace: string, step: string)
    ensures MetaKey("", step) == "bootstrap." + step
    ensures namespace != "" ==> MetaKey(namespace, step) == "bootstrap." + namespace + "." + step
  {
  }

  // ----- what the steps are assumed to do -----

  /** A successful apply satisfies its own step and undoes no other. */
  ghost predicate WellBehaved<W(!new)>(steps: seq<Step<W>>) {
    && (forall i, w | 0 <= i < |steps| :: steps[i].check(steps[i].apply(w)))
    && (forall i, j, w | 0 <= i < |steps| && 0 <= j < |steps| && i != j && steps[j].check(w) ::
          steps[j].check(steps[i].apply(w)))
  }

  /** An apply that fails half way undoes no other step either. */
  ghost predicate FailsHarmlessly<W(!new)>(steps: seq<Step<W>>) {
    forall i, j, w | 0 <= i < |steps| && 0 <= j < |steps| && i != j && steps[j].check(w) ::
      steps[j].check(steps[i].partial(w))
  }

  lemma AssumedIs<W(!new)>(steps: seq<Step<W>>)
    ensures WellBehaved(steps) <==>
            && (forall i, w | 0 <= i < |steps| :: steps[i].check(steps[i].apply(w)))
            && (forall i, j, w | 0 <= i < |steps| && 0 <= j < |steps| && i != j ::
                  steps[j].check(w) ==> steps[j].check(steps[i].apply(w)))
    ensures FailsHarmlessly(steps) <==>
            forall i, j, w | 0 <= i < |steps| && 0 <= j < |steps| && i != j ::
              steps[j].check(w) ==> steps[j].check(steps[i].partial(w))
  {
  }

  /** What the steps keep up to a failure, and past one if it was harmless. */
  ghost predicate Keeps<W(!new)>(steps: seq<Step<W>>, err: Option<Failure>) {
    WellBehaved(steps) && (err.Some? && err.value.ApplyFailed? ==> FailsHarmlessly(steps))
  }

  ghost predicate SatisfiedBelow<W>(steps: seq<Step<W>>, n: nat, w: W)
    requires n <= |steps|
  {
    forall i | 0 <= i < n :: steps[i].check(w)
  }

  // ----- what one run does -----

  /** The steps whose apply was started, read off the results: once each, in order. */
  ghost function Applies(results: seq<StepResult>, err: Option<Failure>): seq<nat> {
    AppliesBelow(results, |results|) + (if err.Some? && err.value.ApplyFailed? then [err.value.step] else [])
  }

  ghost function AppliesBelow(results: seq<StepResult>, n: nat): seq<nat>
    requires n <= |results|
  {
    if n == 0 then []
    else AppliesBelow(results, n - 1) + (if results[n - 1].status == StatusApplied then [n - 1] else [])
  }

  lemma {:induction false} AppliesBelowAppend(results: seq<StepResult>, r: StepResult, n: nat)
    requires n <= |results|
    ensures AppliesBelow(results + [r], n) == AppliesBelow(results, n)
  {
    if n > 0 {
      AppliesBelowAppend(results, r, n - 1);
    }
  }

  /** Only steps that were not satisfied when the run began are applied. */
  ghost predicate AppliedOnlyUnsatisfied<W>(steps: seq<Step<W>>, before: Machine<W>, applies: seq<nat>) {
    forall k | 0 <= k < |applies| :: applies[k] < |steps| && !steps[applies[k]].check(before.world)
  }

  ghost predicate RecordedDone<W>(steps: seq<Step<W>>, n: nat, namespace: string, meta: Option<map<string, string>>)
    requires n <= |steps|
  {
    meta.Some? && forall i | 0 <= i < n ::
      MetaKey(namespace, steps[i].name) in meta.value && meta.value[MetaKey(namespace, steps[i].name)] == "done"
  }

  /** The whole account of one run, by how it ended. */
  ghost predicate Ran<W(!new)>(steps: seq<Step<W>>, namespace: string, dryRun: bool, plan: Plan,
                         before: Machine<W>, after: Machine<W>, results: seq<StepResult>, err: Option<Failure>)
  {
    && |results| <= |steps|
    && (forall i | 0 <= i < |results| :: results[i].name == steps[i].name)
    && (forall i | 0 <= i < |results| :: results[i].status == StatusError <==> err.Some? && i == |results| - 1)
    && after.applied == before.applied + Applies(results, err)
    && (WellBehaved(steps) ==> AppliedOnlyUnsatisfied(steps, before, Applies(results, err)))
    && (Keeps(steps, err) ==>
          forall i | 0 <= i < |steps| && steps[i].check(before.world) :: steps[i].check(after.world))
    && (dryRun ==> after.world == before.world && after.applied == before.applied)
    && (dryRun ==> forall i | 0 <= i < |results| && results[i].status != StatusError ::
          results[i].status == if steps[i].check(before.world) then StatusDone else StatusPending)
    && match err
       case None =>
         && |results| == |steps|
         && (!dryRun && WellBehaved(steps) ==> SatisfiedBelow(steps, |steps|, after.world))
         && (!dryRun && before.meta.Some? && MetaWorks(plan, |steps|) ==>
               RecordedDone(steps, |steps|, namespace, after.meta))
       case Some(f) =>
         && |results| == f.step + 1
         && (!dryRun && Keeps(steps, err) ==> SatisfiedBelow(steps, f.step, after.world))
         && (f.CheckFailed? ==> plan.checkFails(f.step))
         && (f.ApplyFailed? ==> plan.applyFails(f.step) && !dryRun)
  }

  /** The account of a run that has handled the first steps without an error. */
  ghost predicate Progress<W(!new)>(steps: seq<Step<W>>, namespace: string, dryRun: bool, plan: Plan,
                              before: Machine<W>, now: Machine<W>, results: seq<StepResult>)
  {
    && |results| <= |steps|
    && (forall i | 0 <= i < |results| :: results[i].name == steps[i].name && results[i].status != StatusError)
    && AppliedSoFar(steps, before, now, results)
    && (WellBehaved(steps) ==> KeptSoFar(steps, before, now))
    && DrySoFar(steps, dryRun, before, now, results)
    && (!dryRun && WellBehaved(steps) ==> SatisfiedBelow(steps, |results|, now.world))
    && now.meta.Some? == before.meta.Some?
    && RecordedSoFar(steps, namespace, dryRun, plan, before, now, |results|)
  }

  ghost predicate AppliedSoFar<W(!new)>(steps: seq<Step<W>>, before: Machine<W>, now: Machine<W>,
                                        results: seq<StepResult>) {
    && now.applied == before.applied + AppliesBelow(results, |results|)
    && (WellBehaved(steps) ==> AppliedOnlyUnsatisfied(steps, before, AppliesBelow(results, |results|)))
  }

  /** What was satisfied still is. */
  ghost predicate KeptSoFar<W>(steps: seq<Step<W>>, before: Machine<W>, now: Machine<W>) {
    forall i | 0 <= i < |steps| && steps[i].check(before.world) :: steps[i].check(now.world)
  }

  ghost predicate DrySoFar<W>(steps: seq<Step<W>>, dryRun: bool, before: Machine<W>, now: Machine<W>,
                              results: seq<StepResult>)
    requires |results| <= |steps|
  {
    dryRun ==>
      && now.world == before.world && now.applied == before.applied
      && forall i | 0 <= i < |results| ::
           results[i].status == if steps[i].check(before.world) then StatusDone else StatusPending
  }

  ghost predicate MetaWorks(plan: Plan, n: nat) {
    forall i | 0 <= i < n :: !plan.metaFails(i)
  }

  ghost predicate RecordedSoFar<W>(steps: seq<Step<W>>, namespace: string, dryRun: bool, plan: Plan,
                                   before: Machine<W>, now: Machine<W>, n: nat)
    requires n <= |steps|
  {
    !dryRun && before.meta.Some? && MetaWorks(plan, n) ==> RecordedDone(steps, n, namespace, now.meta)
  }

  /** What one turn of the loop does to step i. */
  ghost predicate StepTaken<W>(steps: seq<Step<W>>, namespace: string, dryRun: bool, plan: Plan, i: nat,
                               a: Machine<W>, b: Machine<W>, result: StepResult, failure: Option<Failure>)
    requires i < |steps|
  {
    var done := steps[i].check(a.world);
    var applies := !plan.checkFails(i) && !done && !dryRun;
    && result.name == steps[i].name
    && result.status == (if plan.checkFails(i) then StatusError
                         else if done then StatusDone
                         else if dryRun then StatusPending
                         else if plan.applyFails(i) then StatusError else StatusApplied)
    && failure == (if plan.checkFails(i) then Some(CheckFailed(i))
                   else if applies && plan.applyFails(i) then Some(ApplyFailed(i)) else None)
    && b.world == (if !applies then a.world
                   else if plan.applyFails(i) then steps[i].partial(a.world)
                   else steps[i].apply(a.world))
    && b.applied == (if applies then a.applied + [i] else a.applied)
    && b.meta == (if a.meta.None? || plan.metaFails(i) || result.status == StatusPending then a.meta
                  else
                    var value := if failure.Some? then "error: " else "done";
                    Some(a.meta.value[MetaKey(namespace, steps[i].name) := value]))
  }

  /** The check, an apply unless the step is satisfied or the run dry, and a record of it unless the
      step stays pending; a failing command stops the run, a failing write does not. */
  lemma StepTakenIs<W>(steps: seq<Step<W>>, namespace: string, dryRun: bool, plan: Plan, i: nat,
                       a: Machine<W>, b: Machine<W>, result: StepResult, failure: Option<Failure>)
    requires i < |steps|
    ensures StepTaken(steps, namespace, dryRun, plan, i, a, b, result, failure) <==>
            var key := MetaKey(namespace, steps[i].name);
            && result.name == steps[i].name
            && if plan.checkFails(i) then
                 && result.status == StatusError && failure == Some(CheckFailed(i))
                 && b.world == a.world && b.applied == a.applied
                 && b.meta == (if a.meta.Some? && !plan.metaFails(i) then Some(a.meta.value[key := "error: "])
                               else a.meta)
               else if steps[i].check(a.world) then
                 && result.status == StatusDone && failure == None
                 && b.world == a.world && b.applied == a.applied
                 && b.meta == (if a.meta.Some? && !plan.metaFails(i) then Some(a.meta.value[key := "done"]) else a.meta)
               else if dryRun then
                 result.status == StatusPending && failure == None && b == a
               else if plan.applyFails(i) then
                 && result.status == StatusError && failure == Some(ApplyFailed(i))
                 && b.world == steps[i].partial(a.world) && b.applied == a.applied + [i]
                 && b.meta == (if a.meta.Some? && !plan.metaFails(i) then Some(a.meta.value[key := "error: "])
                               else a.meta)
               else
                 && result.status == StatusApplied && failure == None
                 && b.world == steps[i].apply(a.world) && b.applied == a.applied + [i]
                 && b.meta == (if a.meta.Some? && !plan.metaFails(i) then Some(a.meta.value[key := "done"]) else a.meta)
  {
  }

  /** One turn of the loop after the other, each on what the one before left; only the last may fail,
      and a run without a failure has taken them all. */
  ghost predicate Turns<W(!new)>(steps: seq<Step<W>>, namespace: string, dryRun: bool, plan: Plan,
                                 states: seq<Machine<W>>, results: seq<StepResult>, err: Option<Failure>) {
    && |results| <= |steps| && |states| == |results| + 1
    && (forall i | 0 <= i < |results| ::
          StepTaken(steps, namespace, dryRun, plan, i, states[i], states[i + 1], results[i],
                    if i == |results| - 1 then err else None))
    && (err.Some? ==> results != [])
  }

  lemma TurnsMore<W(!new)>(steps: seq<Step<W>>, namespace: string, dryRun: bool, plan: Plan, states: seq<Machine<W>>,
                           results: seq<StepResult>, b: Machine<W>, result: StepResult, failure: Option<Failure>)
    requires Turns(steps, namespace, dryRun, plan, states, results, None) && |results| < |steps|
    requires StepTaken(steps, namespace, dryRun, plan, |results|, states[|results|], b, result, failure)
    ensures Turns(steps, namespace, dryRun, plan, states + [b], results + [result], failure)
  {
  }

  /** No step loses what it had, and a step that passed is satisfied. */
  lemma ChecksKept<W(!new)>(steps: seq<Step<W>>, namespace: string, dryRun: bool, plan: Plan, i: nat,
                            a: Machine<W>, b: Machine<W>, result: StepResult, failure: Option<Failure>)
    requires i < |steps| && StepTaken(steps, namespace, dryRun, plan, i, a, b, result, failure)
    ensures Keeps(steps, failure) ==> KeptSoFar(steps, a, b)
    ensures WellBehaved(steps) && failure.None? && !dryRun ==> steps[i].check(b.world)
  {
  }

  lemma ProgressStep<W(!new)>(steps: seq<Step<W>>, namespace: string, dryRun: bool, plan: Plan, before: Machine<W>,
                        a: Machine<W>, b: Machine<W>, results: seq<StepResult>, result: StepResult)
    requires Progress(steps, namespace, dryRun, plan, before, a, results) && |results| < |steps|
    requires StepTaken(steps, namespace, dryRun, plan, |results|, a, b, result, None)
    requires WellBehaved(steps) ==> KeptSoFar(steps, a, b)
    requires WellBehaved(steps) && !dryRun ==> steps[|results|].check(b.world)
    ensures Progress(steps, namespace, dryRun, plan, before, b, results + [result])
  {
    AppliedStep(steps, namespace, dryRun, plan, before, a, b, results, result);
    DryStep(steps, namespace, dryRun, plan, before, a, b, results, result);
    RecordedSoFarStep(steps, namespace, dryRun, plan, before, a, b, results, result);
  }

  lemma AppliedStep<W(!new)>(steps: seq<Step<W>>, namespace: string, dryRun: bool, plan: Plan, before: Machine<W>,
                       a: Machine<W>, b: Machine<W>, results: seq<StepResult>, result: StepResult)
    requires |results| < |steps| && AppliedSoFar(steps, before, a, results)
    requires WellBehaved(steps) ==> KeptSoFar(steps, before, a)
    requires StepTaken(steps, namespace, dryRun, plan, |results|, a, b, result, None)
    ensures AppliedSoFar(steps, before, b, results + [result])
  {
    var n := |results|;
    AppliesBelowAppend(results, result, n);
    assert AppliesBelow(results + [result], n + 1) ==
           AppliesBelow(results, n) + (if result.status == StatusApplied then [n] else []);
  }

  lemma DryStep<W>(steps: seq<Step<W>>, namespace: string, dryRun: bool, plan: Plan, before: Machine<W>,
                   a: Machine<W>, b: Machine<W>, results: seq<StepResult>, result: StepResult)
    requires |results| < |steps| && DrySoFar(steps, dryRun, before, a, results)
    requires StepTaken(steps, namespace, dryRun, plan, |results|, a, b, result, None)
    ensures DrySoFar(steps, dryRun, before, b, results + [result])
    ensures result.name == steps[|results|].name && result.status != StatusError && b.meta.Some? == a.meta.Some?
  {
  }

  lemma RecordedSoFarStep<W>(steps: seq<Step<W>>, namespace: string, dryRun: bool, plan: Plan, before: Machine<W>,
                             a: Machine<W>, b: Machine<W>, results: seq<StepResult>, result: StepResult)
    requires |results| < |steps| && a.meta.Some? == before.meta.Some?
    requires RecordedSoFar(steps, namespace, dryRun, plan, before, a, |results|)
    requires StepTaken(steps, namespace, dryRun, plan, |results|, a, b, result, None)
    ensures RecordedSoFar(steps, namespace, dryRun, plan, before, b, |results| + 1)
  {
    var n := |results|;
    if !dryRun && before.meta.Some? && MetaWorks(plan, n + 1) {
      assert MetaWorks(plan, n);
      RecordedStep(steps, namespace, n, a.meta.value);
    }
  }

  lemma RecordedStep<W>(steps: seq<Step<W>>, namespace: string, n: nat, meta: map<string, string>)
    requires n < |steps| && RecordedDone(steps, n, namespace, Some(meta))
    ensures RecordedDone(steps, n + 1, namespace, Some(meta[MetaKey(namespace, steps[n].name) := "done"]))
  {
  }

  lemma ProgressFails<W(!new)>(steps: seq<Step<W>>, namespace: string, dryRun: bool, plan: Plan, before: Machine<W>,
                         a: Machine<W>, b: Machine<W>, results: seq<StepResult>, result: StepResult,
                         failure: Option<Failure>)
    requires Progress(steps, namespace, dryRun, plan, before, a, results) && |results| < |steps|
    requires StepTaken(steps, namespace, dryRun, plan, |results|, a, b, result, failure) && failure.Some?
    requires Keeps(steps, failure) ==> KeptSoFar(steps, a, b)
    ensures Ran(steps, namespace, dryRun, plan, before, b, results + [result], failure)
  {
    AppliesBelowAppend(results, result, |results|);
    var applies := Applies(results + [result], failure);
    assert applies == AppliesBelow(results, |results|) + (if failure.value.ApplyFailed? then [|results|] else []);
  }

  class Bootstrapper<!W(!new)> {
    const steps: seq<Step<W>>
    const namespace: string
    const dryRun: bool
    var world: W
    var meta: Option<map<string, string>>
    ghost var applied: seq<nat>  // every apply ever started, by step

    constructor (steps: seq<Step<W>>, namespace: string, dryRun: bool, world: W, meta: Option<map<string, string>>)
      ensures this.steps == steps && this.namespace == namespace && this.dryRun == dryRun
      ensures State() == Machine(world, meta, [])
    {
      this.steps, this.namespace, this.dryRun := steps, namespace, dryRun;
      this.world, this.meta, this.applied := world, meta, [];
    }

    ghost function State(): Machine<W>
      reads this
    {
      Machine(world, meta, applied)
    }

    /** Writes one step's state; a failing write is only logged. */
    method Record(step: string, value: string, fails: bool)
      modifies this`meta
      ensures meta == if old(meta).Some? && !fails
                      then Some(old(meta).value[MetaKey(namespace, step) := value])
                      else old(meta)
    {
      if meta.Some? && !fails {
        meta := Some(meta.value[MetaKey(namespace, step) := value]);
      }
    }

    method Run(plan: Plan)
        returns (results: seq<StepResult>, err: Option<Failure>, ghost states: seq<Machine<W>>)
      modifies this
      ensures Ran(steps, namespace, dryRun, plan, old(State()), State(), results, err)
      ensures |results| <= |steps| && |states| == |results| + 1
      ensures states[0] == old(State()) && states[|results|] == State()
      ensures forall i | 0 <= i < |results| ::
                StepTaken(steps, namespace, dryRun, plan, i, states[i], states[i + 1], results[i],
                          if i == |results| - 1 then err else None)
      ensures err.None? ==> |results| == |steps|
      ensures err.Some? ==> results != []
    {
      states := [State()];
      results := [];
      ghost var before := State();
      for i := 0 to |steps|
        invariant Progress(steps, namespace, dryRun, plan, before, State(), results) && |results| == i
        invariant Turns(steps, namespace, dryRun, plan, states, results, None)
        invariant states[0] == before && states[i] == State()
      {
        ghost var was := State();
        var result, failure := RunStep(i, plan);
        ChecksKept(steps, namespace, dryRun, plan, i, was, State(), result, failure);
        TurnsMore(steps, namespace, dryRun, plan, states, results, State(), result, failure);
        states := states + [State()];
        if failure.Some? {
          ProgressFails(steps, namespace, dryRun, plan, before, was, State(), results, result, failure);
          return results + [result], failure, states;
        }
        ProgressStep(steps, namespace, dryRun, plan, before, was, State(), results, result);
        results := results + [result];
      }
      err := None;
    }

    /** One turn of the loop. */
    method RunStep(i: nat, plan: Plan) returns (result: StepResult, failure: Option<Failure>)
      requires i < |steps|
      modifies this
      ensures StepTaken(steps, namespace, dryRun, plan, i, old(State()), State(), result, failure)
    {
      var step := steps[i];
      if plan.checkFails(i) {
        Record(step.name, "error: ", plan.metaFails(i));
        return StepResult(step.name, StatusError), Some(CheckFailed(i));
      }
      if step.check(world) {
        Record(step.name, "done", plan.metaFails(i));
        return StepResult(step.name, StatusDone), None;
      }
      if dryRun {
        return StepResult(step.name, StatusPending), None;
      }
      applied := applied + [i];
      if plan.applyFails(i) {
        world := step.partial(world);
        Record(step.name, "error: ", plan.metaFails(i));
        return StepResult(step.name, StatusError), Some(ApplyFailed(i));
      }
      world := step.apply(world);
      Record(step.name, "done", plan.metaFails(i));
      return StepResult(step.name, StatusApplied), None;
    }

    /** True exactly when every step is recorded done and still satisfied. */
    method Complete(hasRunner: bool, metaFails: bool, checkFails: nat -> bool) returns (r: Result<bool, ()>)
      ensures r == Ok(true) ==>
                hasRunner && SatisfiedBelow(steps, |steps|, world)
                && (steps != [] ==> RecordedDone(steps, |steps|, namespace, meta))
      ensures hasRunner && !metaFails && (forall i | 0 <= i < |steps| :: !checkFails(i)) ==>
                r == Ok(SatisfiedBelow(steps, |steps|, world)
                        && (steps == [] || RecordedDone(steps, |steps|, namespace, meta)))
      ensures !hasRunner || (meta.Some? && metaFails && steps != []) ==> r.Err?
      ensures r == Ok(true) ==> forall i | 0 <= i < |steps| :: !checkFails(i)
    {
      if !hasRunner {
        return Err(());
      }
      if meta.Some? && metaFails && |steps| > 0 {
        return Err(());
      }
      for i := 0 to |steps|
        invariant SatisfiedBelow(steps, i, world)
        invariant i > 0 ==> RecordedDone(steps, i, namespace, meta)
        invariant forall j | 0 <= j < i :: !checkFails(j)
      {
        var key := MetaKey(namespace, steps[i].name);
        if meta.None? || key !in meta.value || meta.value[key] != "done" {
          return Ok(false);
        }
        if checkFails(i) {
          return Err(());
        }
        if !steps[i].check(world) {
          return Ok(false);
        }
      }
      return Ok(true);
    }
  }

  // ----- consequences over several runs -----

  /** What Complete answers when its own commands work. */
  ghost predicate IsComplete<W>(steps: seq<Step<W>>, namespace: string, m: Machine<W>) {
    SatisfiedBelow(steps, |steps|, m.world) && (steps == [] || RecordedDone(steps, |steps|, namespace, m.meta))
  }

  lemma IsCompleteIs<W>(steps: seq<Step<W>>, namespace: string, m: Machine<W>)
    ensures IsComplete(steps, namespace, m) <==>
            && (steps != [] ==> m.meta.Some?)
            && forall i | 0 <= i < |steps| ::
                 && steps[i].check(m.world)
                 && MetaKey(namespace, steps[i].name) in m.meta.value
                 && m.meta.value[MetaKey(namespace, steps[i].name)] == "done"
  {
  }

  /** A real run that reports no error, its writes succeeding, leaves provisioning complete. */
  lemma RunMakesComplete<W(!new)>(steps: seq<Step<W>>, namespace: string, plan: Plan,
                            before: Machine<W>, after: Machine<W>, results: seq<StepResult>)
    requires Ran(steps, namespace, false, plan, before, after, results, None)
    requires WellBehaved(steps) && before.meta.Some? && MetaWorks(plan, |steps|)
    ensures IsComplete(steps, namespace, after)
  {
  }

  /** Steps below the failure of one run are satisfied and no later run ever applies them. */
  lemma {:induction false} SatisfiedPrefixNeverReapplied<W(!new)>(steps: seq<Step<W>>, namespace: string,
                                                                  plans: seq<Plan>,
    states: seq<Machine<W>>, results: seq<seq<StepResult>>, errs: seq<Option<Failure>>, i: nat)
    requires |states| == |plans| + 1 && |results| == |errs| == |plans| >= 1
    requires forall k | 0 <= k < |plans| :: Ran(steps, namespace, false, plans[k], states[k], states[k + 1],
                                                results[k], errs[k])
    requires WellBehaved(steps) && FailsHarmlessly(steps)
    requires i < |steps| && errs[0].Some? && i < errs[0].value.step
    ensures steps[i].check(states[|plans|].world)
    ensures states[1].applied <= states[|plans|].applied
    ensures forall k | |states[1].applied| <= k < |states[|plans|].applied| :: states[|plans|].applied[k] != i
  {
    var n := |plans| - 1;
    assert Ran(steps, namespace, false, plans[n], states[n], states[n + 1], results[n], errs[n]);
    if n > 0 {
      SatisfiedPrefixNeverReapplied(steps, namespace, plans[..n], states[..n + 1], results[..n], errs[..n], i);
      assert states[1].applied <= states[n].applied <= states[n + 1].applied;
    }
  }

  /** In a dry run a nil error does not mean satisfied: that holds exactly when nothing was
      left pending. */
  lemma DryRunSatisfiedIff<W(!new)>(steps: seq<Step<W>>, namespace: string, plan: Plan,
                              before: Machine<W>, after: Machine<W>, results: seq<StepResult>)
    requires Ran(steps, namespace, true, plan, before, after, results, None)
    ensures after.world == before.world && after.applied == before.applied
    ensures SatisfiedBelow(steps, |steps|, after.world) <==>
        forall i | 0 <= i < |results| :: results[i].status != StatusPending
  {
  }

  /** A dry run over one unsatisfied step: no error, and the step is unsatisfied still. */
  lemma DryRunLeavesPending(name: string, plan: Plan)
    requires !plan.checkFails(0)
    ensures var step := Step(name, w => w, w => true, w => w);
            var m := Machine(false, None, []);
            Ran([step], "", true, plan, m, m, [StepResult(name, StatusPending)], None)
                && !SatisfiedBelow([step], 1, m.world)
  {
    var step := Step(name, w => w, w => true, w => w);
    var results := [StepResult(name, StatusPending)];
    assert AppliesBelow(results, 1) == AppliesBelow(results, 0) + [] == [];
    assert [step][0].check(false) == false;
  }
}
