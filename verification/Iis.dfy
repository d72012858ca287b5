/** The in-place IIS pipeline with its compensation: deploy, rollback and recoverLive. */
module Iis {
  import opened Lexical
  import opened Results
  import opened Stamps
  import opened Hosts

  datatype Project = Project(physicalPath: string, appPool: string, buildCommand: string, smokes: bool)

  /** How every script of one operation fares, and the tree the build produced. */
  datatype Plan = Plan(valid: bool, sync: bool, runtime: bool, build: bool, ensure: bool, created: bool, validate: bool,
                       stop: Flip, backup: bool, copy: Copying, start: Flip, smoke: bool,
                       recoverCopy: Copying, recoverStart: Flip, source: Dir, at: Moment)

  datatype Stage = Config | Sync | Runtime | Build | Ensure | Validate | FindBackup
                 | StopStage | BackupStage | CopyStage | StartStage | SmokeStage

  /** The step at which a deploy fails, if any. */
  function DeployFails(p: Project, plan: Plan): Option<Stage> {
    if !plan.valid || p.physicalPath == "" || p.appPool == "" then Some(Config)
    else if !plan.sync then Some(Sync)
    else if !plan.runtime then Some(Runtime)
    else if p.buildCommand != "" && !plan.build then Some(Build)
    else if !plan.ensure then Some(Ensure)
    else if !plan.validate || plan.source.Absent? then Some(Validate)
    else if !plan.stop.Flipped? then Some(StopStage)
    else if !plan.backup then Some(BackupStage)
    else if !plan.copy.Copied? then Some(CopyStage)
    else if !plan.start.Flipped? then Some(StartStage)
    else if p.smokes && !plan.smoke then Some(SmokeStage)
    else None
  }

  predicate BeforeLive(s: Stage) {
    s.Config? || s.Sync? || s.Runtime? || s.Build? || s.Ensure? || s.Validate? || s.FindBackup?
  }

  /** What one deploy does. */
  ghost predicate Deployed(p: Project, plan: Plan, a: State, b: State, r: Result<string, Stage>)
    requires Representable(plan.at)
  {
    var was := Ensured(a.live);
    var kept := a.backups[Stamp(plan.at) := was.files];
    match DeployFails(p, plan)
    case None =>
      r == Ok(Stamp(plan.at)) && plan.source.Tree? && b == State(plan.source, true, kept, a.issued + [Stop, Start])
    case Some(stage) =>
      && r == Err(stage)
      && if BeforeLive(stage) then Untouched(a, b)
         else
           var early := stage == StopStage || stage == BackupStage;
           var again := stage == StartStage || stage == SmokeStage;
           b == State(if early || plan.recoverCopy.Copied? then was else plan.recoverCopy.left,
                      plan.recoverStart.Flipped? || plan.recoverStart.running,
                      if early then a.backups else kept,
                      a.issued + if again then [Stop, Start, Start] else [Stop, Start])
  }

  /** The step at which a rollback fails once a backup was selected, if any. */
  function RollbackFails(p: Project, plan: Plan): Option<Stage> {
    if !plan.stop.Flipped? then Some(StopStage)
    else if !plan.copy.Copied? then Some(CopyStage)
    else if !plan.start.Flipped? then Some(StartStage)
    else if p.smokes && !plan.smoke then Some(SmokeStage)
    else None
  }

  /** What a rollback may have done, selecting a backup included. */
  ghost predicate RollbackDid(p: Project, plan: Plan, a: State, b: State, r: Result<string, Stage>,
                              selected: Option<string>) {
    match selected
    case None =>
      && b == a
      && (r == Err(Config) || r == Err(FindBackup))
      && (r == Err(FindBackup) ==> !plan.backup || forall name | name in a.backups :: !Holds(a.backups[name]))
      && (r == Err(Config) <==> !plan.valid || p.physicalPath == "")
    case Some(name) =>
      && plan.valid && p.physicalPath != "" && plan.backup && IsLatestBackup(a.backups, name)
      && match RollbackFails(p, plan)
         case None => r == Ok(name) && b == State(Tree(a.backups[name]), true, a.backups, a.issued + [Stop, Start])
         case Some(stage) =>
           var again := stage == StartStage || stage == SmokeStage;
           && r == Err(stage)
           && b == State(if plan.recoverCopy.Copied? then Tree(a.backups[name]) else plan.recoverCopy.left,
                         plan.recoverStart.Flipped? || plan.recoverStart.running,
                         a.backups,
                         a.issued + if again then [Stop, Start, Start] else [Stop, Start])
  }

  class IisTarget {
    const host: Machine

    constructor (host: Machine)
      ensures this.host == host
    {
      this.host := host;
    }

    /** Puts the backup back, if there is one, and starts the application in any case. */
    method RecoverLive(backup: Option<string>, copy: Copying, start: Flip)
      requires backup.Some? ==> backup.value in host.backups
      modifies host
      ensures host.Now() == old(host.Now()).(
                live := if backup.None? then old(host.live)
                        else if copy.Copied? then Tree(old(host.backups)[backup.value])
                        else copy.left,
                running := start.Flipped? || start.running,
                issued := old(host.issued) + [Start])
    {
      if backup.Some? {
        var _ := host.CopyToLive(Tree(host.backups[backup.value]), copy);
      }
      var _ := host.StartApp(start);
    }

    /** Everything up to and including validation. */
    method Prepare(p: Project, plan: Plan) returns (failed: Option<Stage>)
      modifies host
      ensures Untouched(old(host.Now()), host.Now())
      ensures failed == match DeployFails(p, plan)
                        case None => None
                        case Some(s) => if BeforeLive(s) then Some(s) else None
      ensures failed.None? ==> host.live == Ensured(old(host.live))
    {
      if !plan.valid || p.physicalPath == "" || p.appPool == "" {
        return Some(Config);
      }
      if !plan.sync {
        return Some(Sync);
      }
      if !plan.runtime {
        return Some(Runtime);
      }
      if p.buildCommand != "" && !plan.build {
        return Some(Build);
      }
      host.EnsureLive(plan.ensure || plan.created);
      if !plan.ensure {
        return Some(Ensure);
      }
      if !plan.validate || plan.source.Absent? {
        return Some(Validate);
      }
      return None;
    }

    method Deploy(p: Project, plan: Plan) returns (r: Result<string, Stage>)
      requires Representable(plan.at)
      modifies host
      ensures Deployed(p, plan, old(host.Now()), host.Now(), r)
      // It reports the first step that does not work, and succeeds exactly when all do.
      ensures r == (if !plan.valid || p.physicalPath == "" || p.appPool == "" then Err(Config)
                    else if !plan.sync then Err(Sync)
                    else if !plan.runtime then Err(Runtime)
                    else if p.buildCommand != "" && !plan.build then Err(Build)
                    else if !plan.ensure then Err(Ensure)
                    else if !plan.validate || plan.source.Absent? then Err(Validate)
                    else if !plan.stop.Flipped? then Err(StopStage)
                    else if !plan.backup then Err(BackupStage)
                    else if !plan.copy.Copied? then Err(CopyStage)
                    else if !plan.start.Flipped? then Err(StartStage)
                    else if p.smokes && !plan.smoke then Err(SmokeStage)
                    else Ok(Stamp(plan.at)))
      // A success has the build live and running, and what was live as the backup it reports.
      ensures r.Ok? ==>
                && host.live == plan.source && host.running
                && host.backups == old(host.backups)[
                     r.value := if old(host.live).Tree? then old(host.live.files) else map[]]
                && host.issued == old(host.issued) + [Stop, Start]
      // Up to validation nothing happens, but that the live directory may be created.
      ensures r.Err? && r.error in {Config, Sync, Runtime, Build, Ensure, Validate} ==>
                && host.running == old(host.running) && host.backups == old(host.backups)
                && host.issued == old(host.issued)
                && (host.live == old(host.live) || (old(host.live).Absent? && host.live == Tree(map[])))
      // From then on a failure puts back what was live, where it was touched, and starts again.
      ensures r.Err? && r.error in {StopStage, BackupStage} ==>
                && host.live == (if old(host.live).Tree? then old(host.live) else Tree(map[]))
                && host.backups == old(host.backups) && host.issued == old(host.issued) + [Stop, Start]
      ensures r.Err? && r.error in {CopyStage, StartStage, SmokeStage} ==>
                var was := if old(host.live).Tree? then old(host.live.files) else map[];
                && host.live == (if plan.recoverCopy.Copied? then Tree(was) else plan.recoverCopy.left)
                && host.backups == old(host.backups)[Stamp(plan.at) := was]
                && host.issued == old(host.issued) + (if r.error == CopyStage then [Stop, Start]
                                                      else [Stop, Start, Start])
      ensures r.Err? && r.error in {StopStage, BackupStage, CopyStage, StartStage, SmokeStage} ==>
                host.running == (plan.recoverStart.Flipped? || plan.recoverStart.running)
    {
      var early := Prepare(p, plan);
      if early.Some? {
        return Err(early.value);
      }
      r := DeployLive(p, plan);
    }

    /** Stop, backup, copy, start and smoke test, each with its compensation. */
    method DeployLive(p: Project, plan: Plan) returns (r: Result<string, Stage>)
      requires Representable(plan.at) && host.live.Tree?
      requires match DeployFails(p, plan) case None => true case Some(s) => !BeforeLive(s)
      modifies host
      ensures Deployed(p, plan, old(host.Now()), host.Now(), r)
    {
      IssuedTogether(host.issued);
      var stopped := host.StopApp(plan.stop);
      if !stopped {
        RecoverLive(None, plan.recoverCopy, plan.recoverStart);
        return Err(StopStage);
      }
      var backup := host.Backup(Stamp(plan.at), plan.backup);
      if backup.Err? {
        RecoverLive(None, plan.recoverCopy, plan.recoverStart);
        return Err(BackupStage);
      }
      var failed := PutLive(p, plan);
      if failed.Some? {
        RecoverLive(backup.value, plan.recoverCopy, plan.recoverStart);
        return Err(failed.value);
      }
      return Ok(Stamp(plan.at));
    }

    /** Copy, start and smoke test, up to the first failure. */
    method PutLive(p: Project, plan: Plan) returns (failed: Option<Stage>)
      requires plan.source.Tree?
      requires match DeployFails(p, plan)
               case None => true
               case Some(s) => !BeforeLive(s) && s != StopStage && s != BackupStage
      modifies host
      ensures failed == DeployFails(p, plan) && host.backups == old(host.backups)
      ensures failed.None? ==> host.live == plan.source && host.running
      ensures host.issued == old(host.issued) + (if failed == Some(CopyStage) then [] else [Start])
    {
      var copied := host.CopyToLive(plan.source, plan.copy);
      if !copied {
        return Some(CopyStage);
      }
      var started := host.StartApp(plan.start);
      if !started {
        return Some(StartStage);
      }
      if p.smokes && !plan.smoke {
        return Some(SmokeStage);
      }
      return None;
    }

    method Rollback(p: Project, plan: Plan) returns (r: Result<string, Stage>, ghost selected: Option<string>)
      modifies host
      ensures RollbackDid(p, plan, old(host.Now()), host.Now(), r, selected)
      // It reports the first step that does not work, and succeeds exactly when all do.
      ensures r == (if !plan.valid || p.physicalPath == "" then Err(Config)
                    else if selected.None? then Err(FindBackup)
                    else if !plan.stop.Flipped? then Err(StopStage)
                    else if !plan.copy.Copied? then Err(CopyStage)
                    else if !plan.start.Flipped? then Err(StartStage)
                    else if p.smokes && !plan.smoke then Err(SmokeStage)
                    else Ok(selected.value))
      // It selects the newest backup that holds a file, if the listing works and there is one.
      ensures selected.Some? ==>
                && plan.backup && selected.value in old(host.backups) && old(host.backups)[selected.value] != map[]
                && forall other | other in old(host.backups) && old(host.backups)[other] != map[] ::
                     !Less(selected.value, other)
      ensures r == Err(FindBackup) ==>
                !plan.backup || forall name | name in old(host.backups) :: old(host.backups)[name] == map[]
      ensures selected.None? ==>
                && host.live == old(host.live) && host.running == old(host.running) && host.issued == old(host.issued)
      ensures host.backups == old(host.backups)
      // Once selected, the backup is live and running in the end, also after a failure that recovers.
      ensures selected.Some? && selected.value in old(host.backups) ==>
                && host.live == (if r.Ok? || plan.recoverCopy.Copied? then Tree(old(host.backups)[selected.value])
                                 else plan.recoverCopy.left)
                && host.running == (r.Ok? || plan.recoverStart.Flipped? || plan.recoverStart.running)
                && host.issued == old(host.issued) +
                     (if r == Err(StartStage) || r == Err(SmokeStage) then [Stop, Start, Start] else [Stop, Start])
    {
      selected := None;
      if !plan.valid || p.physicalPath == "" {
        return Err(Config), selected;
      }
      var backup := host.LatestBackup(plan.backup);
      if backup.None? {
        return Err(FindBackup), selected;
      }
      selected := backup;
      r := RestoreBackup(p, plan, backup.value);
    }

    method RestoreBackup(p: Project, plan: Plan, backup: string) returns (r: Result<string, Stage>)
      requires plan.valid && p.physicalPath != "" && plan.backup && IsLatestBackup(host.backups, backup)
      modifies host
      ensures RollbackDid(p, plan, old(host.Now()), host.Now(), r, Some(backup))
    {
      IssuedTogether(host.issued);
      var stopped := host.StopApp(plan.stop);
      if !stopped {
        RecoverLive(Some(backup), plan.recoverCopy, plan.recoverStart);
        return Err(StopStage);
      }
      var copied := host.CopyToLive(Tree(host.backups[backup]), plan.copy);
      if !copied {
        RecoverLive(Some(backup), plan.recoverCopy, plan.recoverStart);
        return Err(CopyStage);
      }
      var started := host.StartApp(plan.start);
      if !started {
        RecoverLive(Some(backup), plan.recoverCopy, plan.recoverStart);
        return Err(StartStage);
      }
      if p.smokes && !plan.smoke {
        RecoverLive(Some(backup), plan.recoverCopy, plan.recoverStart);
        return Err(SmokeStage);
      }
      return Ok(backup);
    }
  }

  /** Over an existing live directory whose recovery copy works, a deploy is all or nothing:
      the build, or exactly what was there. */
  lemma DeployNeverTorn(p: Project, plan: Plan, a: State, b: State, r: Result<string, Stage>)
    requires Representable(plan.at) && Deployed(p, plan, a, b, r) && a.live.Tree? && plan.recoverCopy.Copied?
    ensures b.live == if && plan.valid && p.physicalPath != "" && p.appPool != "" && plan.sync && plan.runtime
                         && (p.buildCommand == "" || plan.build) && plan.ensure && plan.validate
                         && plan.source.Tree? && plan.stop.Flipped? && plan.backup && plan.copy.Copied?
                         && plan.start.Flipped? && (!p.smokes || plan.smoke)
                      then plan.source else a.live
    ensures Issued(a, b)
  {
    IssuedAre(a, b);
  }

  /** Once a backup was selected a rollback whose recovery copy works ends with that backup,
      even when it fails. */
  lemma RollbackNeverTorn(p: Project, plan: Plan, a: State, b: State, r: Result<string, Stage>,
                          selected: Option<string>)
    requires RollbackDid(p, plan, a, b, r, selected) && plan.recoverCopy.Copied?
    ensures b.live == match selected
                      case None => a.live
                      case Some(name) => if name in a.backups then Tree(a.backups[name]) else Absent
    ensures Issued(a, b)
  {
    IssuedAre(a, b);
  }

  /** Ensuring the site creates the directory, so every successful deploy reports a backup. It
      holds what was live, and a rollback may select it, exactly when there was a live directory
      with a file in it; a first deploy and one over an empty directory record an empty backup. */
  lemma BackupHoldsIff(p: Project, plan: Plan, a: State, b: State, r: Result<string, Stage>)
    requires Representable(plan.at) && Deployed(p, plan, a, b, r) && r.Ok?
    ensures r.value == Stamp(plan.at) && r.value in b.backups
    ensures Holds(b.backups[r.value]) <==> a.live.Tree? && Holds(a.live.files)
    ensures NamedBy(a.backups, plan.at) ==>
              (IsLatestBackup(b.backups, r.value) <==> a.live.Tree? && Holds(a.live.files))
  {
    NotLess(Stamp(plan.at));
  }

  /** A first deploy where everything works: an empty backup, and a rollback that finds none. */
  lemma FirstDeployBacksUpNothing(p: Project, plan: Plan)
    requires Representable(plan.at) && DeployFails(p, plan).None?
    ensures var name := Stamp(plan.at);
            var a := State(Absent, false, map[], []);
            var b := State(plan.source, true, map[name := map[]], [Stop, Start]);
            && Deployed(p, plan, a, b, Ok(name))
            && (plan.backup ==> RollbackDid(p, plan, b, b, Err(FindBackup), None))
  {
    assert [] + [Stop, Start] == [Stop, Start];
  }

  // ----- histories of deploys and rollbacks -----

  datatype Op = DeployOp(plan: Plan, r: Result<string, Stage>)
              | RollbackOp(plan: Plan, r: Result<string, Stage>, selected: Option<string>)

  ghost predicate Ran(p: Project, op: Op, a: State, b: State) {
    && Representable(op.plan.at)
    && match op
       case DeployOp(plan, r) => Deployed(p, plan, a, b, r)
       case RollbackOp(plan, r, selected) => RollbackDid(p, plan, a, b, r, selected)
  }

  function AccountOf(op: Op): Account {
    Account(op.plan.at, op.plan.source, op.DeployOp?, op.r.Ok?, if op.RollbackOp? then op.selected else None,
            op.plan.recoverCopy.Copied?)
  }

  lemma DeployIsStep(p: Project, plan: Plan, a: State, b: State, r: Result<string, Stage>)
    requires Representable(plan.at) && Deployed(p, plan, a, b, r)
    ensures r.Ok? && a.live.Tree? ==> Released(a, b, plan.source, Stamp(plan.at))
    ensures BackupsGrow(a, b, Stamp(plan.at))
  {
    IssuedAre(a, b);
  }

  lemma RollbackIsStep(p: Project, plan: Plan, a: State, b: State, r: Result<string, Stage>, selected: Option<string>)
    requires RollbackDid(p, plan, a, b, r, selected)
    ensures selected.Some? && (r.Ok? || plan.recoverCopy.Copied?) ==> RolledBack(a, b, selected.value)
    ensures b.backups == a.backups
  {
    IssuedAre(a, b);
  }

  /** Every deploy and rollback, failed and torn ones included, is a step of the histories in
      which rollbacks restore what a release replaced. */
  lemma OpIsStep(p: Project, op: Op, a: State, b: State)
    requires Ran(p, op, a, b)
    ensures Step(DidOf(AccountOf(op), a), a, b)
  {
    match op
    case DeployOp(plan, r) => DeployIsStep(p, plan, a, b, r);
    case RollbackOp(plan, r, selected) => RollbackIsStep(p, plan, a, b, r, selected);
  }

  /** After any history with a clock that never goes back: a successful deploy over a live directory
      that held files, followed by one or more rollbacks that put their backup back, ends with
      exactly the files from before that deploy. */
  lemma DeployThenRollbacksRestore(p: Project, ops: seq<Op>, states: seq<State>, k: nat)
    requires |states| == |ops| + 1 && forall i | 0 <= i < |ops| :: Ran(p, ops[i], states[i], states[i + 1])
    requires forall i, j | 0 <= i < j < |ops| :: !Earlier(ops[j].plan.at, ops[i].plan.at)
    requires k + 1 < |ops| && ops[k].DeployOp? && ops[k].r.Ok?
    requires forall i | k < i < |ops| :: PutBack(AccountOf(ops[i]))
    requires states[k].live.Tree? && Holds(states[k].live.files)
    requires Representable(ops[k].plan.at) && NamedBy(states[0].backups, ops[k].plan.at)
    ensures states[|ops|].live == states[k].live
  {
    var accounts := seq(|ops|, i requires 0 <= i < |ops| => AccountOf(ops[i]));
    forall i | 0 <= i < |ops| ensures Step(DidOf(accounts[i], states[i]), states[i], states[i + 1]) {
      OpIsStep(p, ops[i], states[i], states[i + 1]);
    }
    RollbacksRestore(accounts, states, k);
  }
}
