/** The Windows-service pipeline with its compensation: deploy, rollback and recoverLive. */
module WinService {
  import opened Lexical
  import opened Results
  import opened Stamps
  import opened Hosts

  datatype CaddyMode = CaddyNone | CaddyStatic | CaddyProxy | CaddyUnknown

  datatype Project = Project(serviceName: string, serviceExe: string, workDir: string, buildCommand: string,
                             caddyMode: CaddyMode, hasEnv: bool, smokes: bool)

  /** How every script of one operation fares, and the tree the build produced. */
  datatype Plan = Plan(valid: bool, sync: bool, runtime: bool, build: bool, nssm: bool, validate: bool,
                       stop: Flip, backup: bool, copy: Copying, install: bool, env: bool, start: Flip, caddy: bool,
                       smoke: bool, recoverCopy: Copying, recoverStart: Flip, source: Dir, at: Moment)

  datatype Stage = Config | Sync | Runtime | Build | Nssm | Validate | FindBackup
                 | StopStage | BackupStage | CopyStage | InstallStage | EnvStage | StartStage | CaddyStage | SmokeStage

  /** A static site has no process: the target's Caddy serves its files. */
  predicate StaticOnly(p: Project) {
    p.serviceExe == "" && p.caddyMode == CaddyStatic
  }

  predicate Deployable(p: Project) {
    p.workDir != "" && (StaticOnly(p) || (p.serviceName != "" && p.serviceExe != ""))
  }

  predicate CanRollBack(p: Project) {
    p.workDir != "" && (StaticOnly(p) || p.serviceName != "")
  }

  predicate CaddyWorks(p: Project, works: bool) {
    p.caddyMode == CaddyNone || (p.caddyMode == CaddyStatic && works)
  }

  /** The step at which a deploy fails, if any. */
  function DeployFails(p: Project, plan: Plan): Option<Stage> {
    if !plan.valid || !Deployable(p) then Some(Config)
    else if !plan.sync then Some(Sync)
    else if !plan.runtime then Some(Runtime)
    else if p.buildCommand != "" && !plan.build then Some(Build)
    else if !plan.nssm then Some(Nssm)
    else if !plan.validate || plan.source.Absent? then Some(Validate)
    else if !StaticOnly(p) && !plan.stop.Flipped? then Some(StopStage)
    else if !plan.backup then Some(BackupStage)
    else if !plan.copy.Copied? then Some(CopyStage)
    else if !StaticOnly(p) && !plan.install then Some(InstallStage)
    else if !StaticOnly(p) && p.hasEnv && !plan.env then Some(EnvStage)
    else if !StaticOnly(p) && !plan.start.Flipped? then Some(StartStage)
    else if !CaddyWorks(p, plan.caddy) then Some(CaddyStage)
    else if p.smokes && !plan.smoke then Some(SmokeStage)
    else None
  }

  predicate BeforeLive(s: Stage) {
    s.Config? || s.Sync? || s.Runtime? || s.Build? || s.Nssm? || s.Validate? || s.FindBackup?
  }

  /** The backups once the live directory was copied; a first deploy has nothing to copy. */
  function Kept(a: State, at: Moment): map<string, Files>
    requires Representable(at)
  {
    if a.live.Absent? then a.backups else a.backups[Stamp(at) := a.live.files]
  }

  /** What was stopped and started; a static site has nothing to stop or start, but a named
      service is started by a recovery in any case. */
  function Commands(p: Project, stage: Option<Stage>): seq<Command> {
    var began := if StaticOnly(p) then [] else [Stop];
    var started := if StaticOnly(p) then [] else [Start];
    var recovered := if p.serviceName == "" then [] else [Start];
    match stage
    case None => began + started
    case Some(StartStage) => began + started + recovered
    case Some(CaddyStage) => began + started + recovered
    case Some(SmokeStage) => began + started + recovered
    case Some(_) => began + recovered
  }

  /** What one deploy does. */
  ghost predicate Deployed(p: Project, plan: Plan, a: State, b: State, r: Result<string, Stage>)
    requires Representable(plan.at)
  {
    match DeployFails(p, plan)
    case None =>
      && r == Ok(if a.live.Absent? then "" else Stamp(plan.at)) && plan.source.Tree?
      && b == State(plan.source, !StaticOnly(p) || a.running, Kept(a, plan.at), a.issued + Commands(p, None))
    case Some(stage) =>
      && r == Err(stage)
      && if BeforeLive(stage) then b == a
         else
           var early := stage == StopStage || stage == BackupStage;
           && (early || a.live.Tree? ==>
                 b.live == if early || plan.recoverCopy.Copied? then a.live else plan.recoverCopy.left)
           && (p.serviceName != "" ==> b.running == (plan.recoverStart.Flipped? || plan.recoverStart.running))
           && (p.serviceName == "" ==> b.running == a.running)
           && b.backups == (if early then a.backups else Kept(a, plan.at))
           && b.issued == a.issued + Commands(p, Some(stage))
  }

  /** The step at which a rollback fails once a backup was selected, if any. */
  function RollbackFails(p: Project, plan: Plan): Option<Stage> {
    if !StaticOnly(p) && !plan.stop.Flipped? then Some(StopStage)
    else if !plan.copy.Copied? then Some(CopyStage)
    else if !StaticOnly(p) && !plan.start.Flipped? then Some(StartStage)
    else if p.smokes && !plan.smoke then Some(SmokeStage)
    else None
  }

  /** What a rollback may have done, selecting a backup included. */
  ghost predicate RollbackDid(p: Project, plan: Plan, a: State, b: State, r: Result<string, Stage>,
                              selected: Option<string>) {
    match selected
    case None =>
      && b == a
      && (r == Err(Config) || r == Err(FindBackup))
      && (r == Err(FindBackup) ==> !plan.backup || forall name | name in a.backups :: !Holds(a.backups[name]))
      && (r == Err(Config) <==> !plan.valid || !CanRollBack(p))
    case Some(name) =>
      && plan.valid && CanRollBack(p) && plan.backup && IsLatestBackup(a.backups, name) && b.backups == a.backups
      && match RollbackFails(p, plan)
         case None =>
           && r == Ok(name) && b.live == Tree(a.backups[name]) && b.running == (!StaticOnly(p) || a.running)
           && b.issued == a.issued + Commands(p, None)
         case Some(stage) =>
           && r == Err(stage)
           && b.live == (if plan.recoverCopy.Copied? then Tree(a.backups[name]) else plan.recoverCopy.left)
           && b.running == (if p.serviceName == "" then a.running
                            else plan.recoverStart.Flipped? || plan.recoverStart.running)
           && b.issued == a.issued + Commands(p, Some(stage))
  }

  class WinServiceTarget {
    const host: Machine

    constructor (host: Machine)
      ensures this.host == host
    {
      this.host := host;
    }

    /** Puts the backup back, if there is one, and starts the service, if there is one. */
    method RecoverLive(p: Project, backup: Option<string>, copy: Copying, start: Flip)
      requires backup.Some? ==> backup.value in host.backups
      modifies host
      ensures host.Now() == old(host.Now()).(
                live := if backup.None? then old(host.live)
                        else if copy.Copied? then Tree(old(host.backups)[backup.value])
                        else copy.left,
                running := if p.serviceName == "" then old(host.running) else start.Flipped? || start.running,
                issued := if p.serviceName == "" then old(host.issued) else old(host.issued) + [Start])
    {
      if backup.Some? {
        var _ := host.CopyToLive(Tree(host.backups[backup.value]), copy);
      }
      if p.serviceName != "" {
        var _ := host.StartApp(start);
      }
    }

    /** Everything up to and including validation. */
    method Prepare(p: Project, plan: Plan) returns (failed: Option<Stage>)
      ensures failed == match DeployFails(p, plan)
                        case None => None
                        case Some(s) => if BeforeLive(s) then Some(s) else None
    {
      var staticOnly := p.serviceExe == "" && p.caddyMode == CaddyStatic;
      if !plan.valid || (!staticOnly && p.serviceName == "") || (!staticOnly && p.serviceExe == "") || p.workDir == "" {
        return Some(Config);
      }
      if !plan.sync {
        return Some(Sync);
      }
      if !plan.runtime {
        return Some(Runtime);
      }
      if p.buildCommand != "" && !plan.build {
        return Some(Build);
      }
      if !plan.nssm {
        return Some(Nssm);
      }
      if !plan.validate || plan.source.Absent? {
        return Some(Validate);
      }
      return None;
    }

    method Deploy(p: Project, plan: Plan) returns (r: Result<string, Stage>)
      requires Representable(plan.at)
      modifies host
      ensures Deployed(p, plan, old(host.Now()), host.Now(), r)
      // It reports the first step that does not work, and succeeds exactly when all do.
      ensures var noProcess := p.serviceExe == "" && p.caddyMode == CaddyStatic;
              r == (if !plan.valid || p.workDir == ""
                    || (!noProcess && (p.serviceName == "" || p.serviceExe == "")) then Err(Config)
                    else if !plan.sync then Err(Sync)
                    else if !plan.runtime then Err(Runtime)
                    else if p.buildCommand != "" && !plan.build then Err(Build)
                    else if !plan.nssm then Err(Nssm)
                    else if !plan.validate || plan.source.Absent? then Err(Validate)
                    else if !noProcess && !plan.stop.Flipped? then Err(StopStage)
                    else if !plan.backup then Err(BackupStage)
                    else if !plan.copy.Copied? then Err(CopyStage)
                    else if !noProcess && !plan.install then Err(InstallStage)
                    else if !noProcess && p.hasEnv && !plan.env then Err(EnvStage)
                    else if !noProcess && !plan.start.Flipped? then Err(StartStage)
                    else if p.caddyMode == CaddyProxy || p.caddyMode == CaddyUnknown then Err(CaddyStage)
                    else if p.caddyMode == CaddyStatic && !plan.caddy then Err(CaddyStage)
                    else if p.smokes && !plan.smoke then Err(SmokeStage)
                    else Ok(if old(host.live).Absent? then "" else Stamp(plan.at)))
      // A success has the build live, running unless there is nothing to run, and what was live as
      // its backup.
      ensures r.Ok? ==>
                && host.live == plan.source
                && host.running == (p.serviceExe != "" || p.caddyMode != CaddyStatic || old(host.running))
                && host.backups == (if old(host.live).Absent? then old(host.backups)
                                    else old(host.backups)[Stamp(plan.at) := old(host.live).files])
                && host.issued == old(host.issued) +
                     (if p.serviceExe == "" && p.caddyMode == CaddyStatic then [] else [Stop, Start])
      // Up to validation nothing happens.
      ensures r.Err? && r.error in {Config, Sync, Runtime, Build, Nssm, Validate} ==>
                && host.live == old(host.live) && host.running == old(host.running)
                && host.backups == old(host.backups) && host.issued == old(host.issued)
      // From then on a failure puts back what was live, where it was touched, and starts what it
      // stopped.
      ensures r.Err? && r.error in {StopStage, BackupStage} ==>
                host.live == old(host.live) && host.backups == old(host.backups)
      ensures r.Err? && r.error in {CopyStage, InstallStage, EnvStage, StartStage, CaddyStage, SmokeStage} ==>
                && (old(host.live).Tree? ==>
                      && host.live == (if plan.recoverCopy.Copied? then old(host.live) else plan.recoverCopy.left)
                      && host.backups == old(host.backups)[Stamp(plan.at) := old(host.live).files])
                && (old(host.live).Absent? ==> host.backups == old(host.backups))
      ensures r.Err? && r.error !in {Config, Sync, Runtime, Build, Nssm, Validate} ==>
                && host.running == (if p.serviceName == "" then old(host.running)
                                    else plan.recoverStart.Flipped? || plan.recoverStart.running)
                && host.issued == old(host.issued) +
                     (if p.serviceExe == "" && p.caddyMode == CaddyStatic
                      then (if p.serviceName == "" then [] else [Start])
                      else if r.error in {StartStage, CaddyStage, SmokeStage} then [Stop, Start, Start]
                      else [Stop, Start])
    {
      var early := Prepare(p, plan);
      if early.Some? {
        return Err(early.value);
      }
      r := DeployLive(p, plan);
    }

    /** Everything from the stop on, with its compensation. */
    method DeployLive(p: Project, plan: Plan) returns (r: Result<string, Stage>)
      requires Representable(plan.at) && plan.source.Tree?
      requires match DeployFails(p, plan) case None => true case Some(s) => !BeforeLive(s)
      modifies host
      ensures Deployed(p, plan, old(host.Now()), host.Now(), r)
    {
      IssuedTogether(host.issued);
      if !StaticOnly(p) {
        var stopped := host.StopApp(plan.stop);
        if !stopped {
          RecoverLive(p, None, plan.recoverCopy, plan.recoverStart);
          return Err(StopStage);
        }
      }
      var backup := host.Backup(Stamp(plan.at), plan.backup);
      if backup.Err? {
        RecoverLive(p, None, plan.recoverCopy, plan.recoverStart);
        return Err(BackupStage);
      }
      r := ReplaceLive(p, plan, backup.value);
    }

    /** The build over what was live, or the backup again. */
    method ReplaceLive(p: Project, plan: Plan, backup: Option<string>) returns (r: Result<string, Stage>)
      requires plan.source.Tree? && (backup.Some? ==> backup.value in host.backups)
      requires match DeployFails(p, plan)
               case None => true
               case Some(s) => !BeforeLive(s) && s != StopStage && s != BackupStage
      modifies host
      ensures host.backups == old(host.backups)
      ensures match DeployFails(p, plan)
              case None =>
                && r == Ok(if backup.Some? then backup.value else "")
                && host.live == plan.source && host.running == (!StaticOnly(p) || old(host.running))
                && host.issued == old(host.issued) + (if StaticOnly(p) then [] else [Start])
              case Some(stage) =>
                && r == Err(stage)
                && (backup.Some? ==>
                      host.live == if plan.recoverCopy.Copied? then Tree(old(host.backups)[backup.value])
                                   else plan.recoverCopy.left)
                && host.running == (if p.serviceName == "" then old(host.running)
                                    else plan.recoverStart.Flipped? || plan.recoverStart.running)
                && host.issued == old(host.issued)
                     + (if StaticOnly(p) || stage == CopyStage || stage == InstallStage || stage == EnvStage
                        then [] else [Start])
                     + (if p.serviceName == "" then [] else [Start])
    {
      var failed := PutLive(p, plan);
      if failed.Some? {
        RecoverLive(p, backup, plan.recoverCopy, plan.recoverStart);
        return Err(failed.value);
      }
      return Ok(if backup.Some? then backup.value else "");
    }

    /** Copy, install, start, Caddy and smoke test, up to the first failure. */
    method PutLive(p: Project, plan: Plan) returns (failed: Option<Stage>)
      requires plan.source.Tree?
      requires match DeployFails(p, plan)
               case None => true
               case Some(s) => !BeforeLive(s) && s != StopStage && s != BackupStage
      modifies host
      ensures failed == DeployFails(p, plan)
      ensures host.backups == old(host.backups)
      ensures failed.None? ==> host.live == plan.source && host.running == (!StaticOnly(p) || old(host.running))
      ensures host.issued == old(host.issued) +
                (if StaticOnly(p) || failed == Some(CopyStage) || failed == Some(InstallStage)
                 || failed == Some(EnvStage)
                 then [] else [Start])
      ensures StaticOnly(p) ==> host.running == old(host.running)
    {
      var copied := host.CopyToLive(plan.source, plan.copy);
      if !copied {
        return Some(CopyStage);
      }
      if !StaticOnly(p) {
        if !plan.install {
          return Some(InstallStage);
        }
        if p.hasEnv && !plan.env {
          return Some(EnvStage);
        }
      }
      if !StaticOnly(p) {
        var started := host.StartApp(plan.start);
        if !started {
          return Some(StartStage);
        }
      }
      if !CaddyWorks(p, plan.caddy) {
        return Some(CaddyStage);
      }
      if p.smokes && !plan.smoke {
        return Some(SmokeStage);
      }
      return None;
    }

    method Rollback(p: Project, plan: Plan) returns (r: Result<string, Stage>, ghost selected: Option<string>)
      modifies host
      ensures RollbackDid(p, plan, old(host.Now()), host.Now(), r, selected)
      // It reports the first step that does not work, and succeeds exactly when all do.
      ensures var noProcess := p.serviceExe == "" && p.caddyMode == CaddyStatic;
              r == (if !plan.valid || p.workDir == "" || (!noProcess && p.serviceName == "") then Err(Config)
                    else if selected.None? then Err(FindBackup)
                    else if !noProcess && !plan.stop.Flipped? then Err(StopStage)
                    else if !plan.copy.Copied? then Err(CopyStage)
                    else if !noProcess && !plan.start.Flipped? then Err(StartStage)
                    else if p.smokes && !plan.smoke then Err(SmokeStage)
                    else Ok(selected.value))
      // It selects the newest backup that holds a file, if the listing works and there is one.
      ensures selected.Some? ==>
                && plan.backup && selected.value in old(host.backups) && old(host.backups)[selected.value] != map[]
                && forall other | other in old(host.backups) && old(host.backups)[other] != map[] ::
                     !Less(selected.value, other)
      ensures r == Err(FindBackup) ==>
                !plan.backup || forall name | name in old(host.backups) :: old(host.backups)[name] == map[]
      ensures selected.None? ==>
                && host.live == old(host.live) && host.running == old(host.running) && host.issued == old(host.issued)
      ensures host.backups == old(host.backups)
      // Once selected, the backup is live in the end, also after a failure that recovers, and what
      // was stopped is started.
      ensures selected.Some? && selected.value in old(host.backups) ==>
                && host.live == (if r.Ok? || plan.recoverCopy.Copied? then Tree(old(host.backups)[selected.value])
                                 else plan.recoverCopy.left)
                && host.running == (if r.Ok? then p.serviceExe != "" || p.caddyMode != CaddyStatic || old(host.running)
                                    else if p.serviceName == "" then old(host.running)
                                    else plan.recoverStart.Flipped? || plan.recoverStart.running)
                && host.issued == old(host.issued) +
                     (if p.serviceExe == "" && p.caddyMode == CaddyStatic
                      then (if r.Ok? || p.serviceName == "" then [] else [Start])
                      else if r == Err(StartStage) || r == Err(SmokeStage) then [Stop, Start, Start]
                      else [Stop, Start])
    {
      selected := None;
      var staticOnly := p.serviceExe == "" && p.caddyMode == CaddyStatic;
      if !plan.valid || p.workDir == "" || (!staticOnly && p.serviceName == "") {
        return Err(Config), selected;
      }
      var backup := host.LatestBackup(plan.backup);
      if backup.None? {
        return Err(FindBackup), selected;
      }
      selected := backup;
      r := RestoreBackup(p, plan, backup.value);
    }

    method RestoreBackup(p: Project, plan: Plan, backup: string) returns (r: Result<string, Stage>)
      requires plan.valid && CanRollBack(p) && plan.backup && IsLatestBackup(host.backups, backup)
      modifies host
      ensures RollbackDid(p, plan, old(host.Now()), host.Now(), r, Some(backup))
    {
      IssuedTogether(host.issued);
      if !StaticOnly(p) {
        var stopped := host.StopApp(plan.stop);
        if !stopped {
          RecoverLive(p, Some(backup), plan.recoverCopy, plan.recoverStart);
          return Err(StopStage);
        }
      }
      var copied := host.CopyToLive(Tree(host.backups[backup]), plan.copy);
      if !copied {
        RecoverLive(p, Some(backup), plan.recoverCopy, plan.recoverStart);
        return Err(CopyStage);
      }
      if !StaticOnly(p) {
        var started := host.StartApp(plan.start);
        if !started {
          RecoverLive(p, Some(backup), plan.recoverCopy, plan.recoverStart);
          return Err(StartStage);
        }
      }
      if p.smokes && !plan.smoke {
        RecoverLive(p, Some(backup), plan.recoverCopy, plan.recoverStart);
        return Err(SmokeStage);
      }
      return Ok(backup);
    }
  }

  /** Over an existing install directory whose recovery copy works, a deploy is all or nothing. */
  lemma DeployNeverTorn(p: Project, plan: Plan, a: State, b: State, r: Result<string, Stage>)
    requires Representable(plan.at) && Deployed(p, plan, a, b, r) && a.live.Tree? && plan.recoverCopy.Copied?
    ensures b.live == if && plan.valid && p.workDir != ""
                         && ((p.serviceExe == "" && p.caddyMode == CaddyStatic)
                             || (&& p.serviceName != "" && p.serviceExe != ""
                                 && plan.stop.Flipped? && plan.install && (!p.hasEnv || plan.env)
                                    && plan.start.Flipped?))
                         && plan.sync && plan.runtime && (p.buildCommand == "" || plan.build) && plan.nssm
                         && plan.validate && plan.source.Tree? && plan.backup && plan.copy.Copied?
                         && (p.caddyMode == CaddyNone || (p.caddyMode == CaddyStatic && plan.caddy))
                         && (!p.smokes || plan.smoke)
                      then plan.source else a.live
    ensures Issued(a, b)
  {
    IssuedInOrder(p, plan, a, b, r);
  }

  lemma IssuedInOrder(p: Project, plan: Plan, a: State, b: State, r: Result<string, Stage>)
    requires Representable(plan.at) && Deployed(p, plan, a, b, r)
    ensures Issued(a, b)
  {
    if r.Err? && BeforeLive(r.error) {
      IssuedAre(a, b);
    } else {
      CommandsAre(p, DeployFails(p, plan), a, b);
    }
  }

  lemma CommandsAre(p: Project, stage: Option<Stage>, a: State, b: State)
    requires StaticOnly(p) || p.serviceName != ""
    requires b.issued == a.issued + Commands(p, stage)
    ensures Issued(a, b)
  {
    var began, started := if StaticOnly(p) then [] else [Stop], if StaticOnly(p) then [] else [Start];
    var recovered := if p.serviceName == "" then [] else [Start];
    assert Commands(p, stage) in {began + started, began + started + recovered, began + recovered};
    IssuedTogether([]);
    IssuedAre(a, b);
  }

  /** Once a backup was selected a rollback whose recovery copy works ends with that backup,
      even when it fails. */
  lemma RollbackNeverTorn(p: Project, plan: Plan, a: State, b: State, r: Result<string, Stage>,
                          selected: Option<string>)
    requires RollbackDid(p, plan, a, b, r, selected) && plan.recoverCopy.Copied?
    ensures b.live == match selected
                      case None => a.live
                      case Some(name) => if name in a.backups then Tree(a.backups[name]) else Absent
    ensures Issued(a, b)
  {
    if selected.None? {
      IssuedAre(a, b);
    } else {
      CommandsAre(p, RollbackFails(p, plan), a, b);
    }
  }

  // ----- histories of deploys and rollbacks -----

  datatype Op = DeployOp(plan: Plan, r: Result<string, Stage>)
              | RollbackOp(plan: Plan, r: Result<string, Stage>, selected: Option<string>)

  ghost predicate Ran(p: Project, op: Op, a: State, b: State) {
    && Representable(op.plan.at)
    && match op
       case DeployOp(plan, r) => Deployed(p, plan, a, b, r)
       case RollbackOp(plan, r, selected) => RollbackDid(p, plan, a, b, r, selected)
  }

  function AccountOf(op: Op): Account {
    Account(op.plan.at, op.plan.source, op.DeployOp?, op.r.Ok?, if op.RollbackOp? then op.selected else None,
            op.plan.recoverCopy.Copied?)
  }

  lemma DeployIsStep(p: Project, plan: Plan, a: State, b: State, r: Result<string, Stage>)
    requires Representable(plan.at) && Deployed(p, plan, a, b, r)
    ensures r.Ok? && a.live.Tree? ==> Released(a, b, plan.source, Stamp(plan.at))
    ensures BackupsGrow(a, b, Stamp(plan.at))
  {
    IssuedInOrder(p, plan, a, b, r);
  }

  lemma RollbackIsStep(p: Project, plan: Plan, a: State, b: State, r: Result<string, Stage>, selected: Option<string>)
    requires RollbackDid(p, plan, a, b, r, selected)
    ensures selected.Some? && (r.Ok? || plan.recoverCopy.Copied?) ==> RolledBack(a, b, selected.value)
    ensures b.backups == a.backups
  {
    if selected.Some? {
      CommandsAre(p, RollbackFails(p, plan), a, b);
    }
  }

  /** Every deploy and rollback, failed and torn ones included, is a step of the histories in
      which rollbacks restore what a release replaced. */
  lemma OpIsStep(p: Project, op: Op, a: State, b: State)
    requires Ran(p, op, a, b)
    ensures Step(DidOf(AccountOf(op), a), a, b)
  {
    match op
    case DeployOp(plan, r) => DeployIsStep(p, plan, a, b, r);
    case RollbackOp(plan, r, selected) => RollbackIsStep(p, plan, a, b, r, selected);
  }

  /** After any history with a clock that never goes back: a successful deploy over an install directory
      that held files, followed by one or more rollbacks that put their backup back, ends with
      exactly the files from before that deploy. */
  lemma DeployThenRollbacksRestore(p: Project, ops: seq<Op>, states: seq<State>, k: nat)
    requires |states| == |ops| + 1 && forall i | 0 <= i < |ops| :: Ran(p, ops[i], states[i], states[i + 1])
    requires forall i, j | 0 <= i < j < |ops| :: !Earlier(ops[j].plan.at, ops[i].plan.at)
    requires k + 1 < |ops| && ops[k].DeployOp? && ops[k].r.Ok?
    requires forall i | k < i < |ops| :: PutBack(AccountOf(ops[i]))
    requires states[k].live.Tree? && Holds(states[k].live.files)
    requires Representable(ops[k].plan.at) && NamedBy(states[0].backups, ops[k].plan.at)
    ensures states[|ops|].live == states[k].live
  {
    var accounts := seq(|ops|, i requires 0 <= i < |ops| => AccountOf(ops[i]));
    forall i | 0 <= i < |ops| ensures Step(DidOf(accounts[i], states[i]), states[i], states[i + 1]) {
      OpIsStep(p, ops[i], states[i], states[i + 1]);
    }
    RollbacksRestore(accounts, states, k);
  }
}
