/** The Docker target for single images: deploy with its automatic recovery, and rollback. */
module Docker {
  import opened Results
  import opened Text

  /** The image the generated compose file names and the image that is running. */
  datatype State = State(composed: string, running: Option<string>)

  /** How one write, start and health check fare; a failing one may leave anything behind. */
  datatype Writing = Written | WriteFails(left: string)
  datatype Starting = Started | StartFails(left: Option<string>)
  datatype Attempt = Attempt(write: Writing, up: Starting, healthy: bool)

  datatype Failure = NoImage | BuildFailed | WriteFailed | StartFailed | Unhealthy

  /** What running an image by its generated compose file does. */
  function RunOf(s: State, image: string, a: Attempt): State {
    if a.write.WriteFails? then s.(composed := a.write.left)
    else if a.up.StartFails? then State(image, a.up.left)
    else State(image, Some(image))
  }

  function Outcome(image: string, a: Attempt): Result<string, Failure> {
    if a.write.WriteFails? then Err(WriteFailed)
    else if a.up.StartFails? then Err(StartFailed)
    else if !a.healthy then Err(Unhealthy)
    else Ok(image)
  }

  predicate Blank(s: string) {
    TrimSpace(s) == ""
  }

  class DockerTarget {
    var composed: string
    var running: Option<string>

    constructor (composed: string, running: Option<string>)
      ensures Now() == State(composed, running)
    {
      this.composed, this.running := composed, running;
    }

    ghost function Now(): State
      reads this
    {
      State(composed, running)
    }

    method WriteGeneratedCompose(image: string, fate: Writing) returns (ok: bool)
      modifies this`composed
      ensures ok == fate.Written? && composed == if ok then image else fate.left
    {
      ok := fate.Written?;
      composed := if ok then image else fate.left;
    }

    method ComposeUp(fate: Starting) returns (ok: bool)
      modifies this`running
      ensures ok == fate.Started? && running == if ok then Some(composed) else fate.left
    {
      ok := fate.Started?;
      running := if ok then Some(composed) else fate.left;
    }

    /** Re-runs an image without building; what it reports is that image. */
    method RollbackImage(image: string, a: Attempt) returns (r: Result<string, Failure>)
      modifies this
      ensures r == if image == "" then Err(NoImage) else Outcome(image, a)
      ensures Now() == if image == "" then old(Now()) else RunOf(old(Now()), image, a)
      ensures r.Ok? ==> r.value == image && running == Some(image)
      // The first step that fails is reported; with a failed write nothing is restarted.
      ensures r == (if image == "" then Err(NoImage)
                    else if a.write.WriteFails? then Err(WriteFailed)
                    else if a.up.StartFails? then Err(StartFailed)
                    else if !a.healthy then Err(Unhealthy)
                    else Ok(image))
      ensures composed == if image == "" then old(composed) else if a.write.WriteFails? then a.write.left else image
      ensures running == if image == "" || a.write.WriteFails? then old(running)
                         else if a.up.StartFails? then a.up.left else Some(image)
    {
      if image == "" {
        return Err(NoImage);
      }
      var written := WriteGeneratedCompose(image, a.write);
      if !written {
        return Err(WriteFailed);
      }
      var up := ComposeUp(a.up);
      if !up {
        return Err(StartFailed);
      }
      if !a.healthy {
        return Err(Unhealthy);
      }
      return Ok(image);
    }

    /** Best-effort recovery after a failed deploy. */
    method RestorePrevious(previous: string, a: Attempt)
      modifies this
      ensures Now() == if Blank(previous) then old(Now()) else RunOf(old(Now()), previous, a)
      // An image of nothing but spaces is none.
      ensures (forall i | 0 <= i < |previous| :: previous[i] == ' ' || 9 <= previous[i] as int <= 13) ==>
                composed == old(composed) && running == old(running)
      ensures (exists i | 0 <= i < |previous| :: previous[i] != ' ' && !(9 <= previous[i] as int <= 13)) ==>
                && composed == (if a.write.WriteFails? then a.write.left else previous)
                && running == (if a.write.WriteFails? then old(running)
                               else if a.up.StartFails? then a.up.left else Some(previous))
    {
      BlankIff(previous);
      if TrimSpace(previous) == "" {
        return;
      }
      BlankEmpty();
      var _ := RollbackImage(previous, a);
    }

    /** Builds, or takes, an image and runs it; once the containers were touched a failure is
        followed by the recovery. */
    method Deploy(image: Option<string>, a: Attempt, previous: string, recovery: Attempt)
        returns (r: Result<string, Failure>)
      modifies this
      ensures Deployed(image, a, previous, recovery, old(Now()), Now(), r)
      // The first step that fails is reported, and a success is exactly that none does.
      ensures r == (if image.None? then Err(BuildFailed)
                    else if a.write.WriteFails? then Err(WriteFailed)
                    else if a.up.StartFails? then Err(StartFailed)
                    else if !a.healthy then Err(Unhealthy)
                    else Ok(image.value))
      // Without a build nothing changes, and a failed write restarts nothing.
      ensures r == Err(BuildFailed) ==> composed == old(composed) && running == old(running)
      ensures r == Err(WriteFailed) ==> composed == a.write.left && running == old(running)
      ensures r.Ok? ==> composed == r.value && running == image
      // After that a failure is followed by running the previous image, if one is named.
      ensures r == Err(StartFailed) || r == Err(Unhealthy) ==>
                var named := exists i | 0 <= i < |previous| :: previous[i] != ' ' && !(9 <= previous[i] as int <= 13);
                var left := if a.up.StartFails? then a.up.left else image;
                && composed == (if !named then image.value
                                else if recovery.write.WriteFails? then recovery.write.left
                                else previous)
                && running == (if !named || recovery.write.WriteFails? then left
                               else if recovery.up.StartFails? then recovery.up.left
                               else Some(previous))
    {
      if image.None? {
        return Err(BuildFailed);
      }
      var written := WriteGeneratedCompose(image.value, a.write);
      if !written {
        return Err(WriteFailed);
      }
      var up := ComposeUp(a.up);
      if !up {
        RestorePrevious(previous, recovery);
        return Err(StartFailed);
      }
      if !a.healthy {
        RestorePrevious(previous, recovery);
        return Err(Unhealthy);
      }
      return Ok(image.value);
    }
  }

  lemma BlankEmpty()
    ensures Blank("")
  {
  }

  /** The containers were touched before the failure, so the recovery runs. */
  predicate NeedsRecovery(r: Result<string, Failure>) {
    r == Err(StartFailed) || r == Err(Unhealthy)
  }

  ghost predicate Deployed(image: Option<string>, a: Attempt, previous: string, recovery: Attempt,
                           s: State, s': State, r: Result<string, Failure>) {
    match image
    case None => r == Err(BuildFailed) && s' == s
    case Some(i) =>
      && r == Outcome(i, a)
      && s' == if NeedsRecovery(r) && !Blank(previous)
               then RunOf(RunOf(s, i, a), previous, recovery)
               else RunOf(s, i, a)
  }

  /** A successful deploy runs and reports its image. A failed one over a running release ends
      with that release running: untouched, or put back by a recovery that starts it. */
  lemma DeployAllOrNothing(image: Option<string>, a: Attempt, previous: string, recovery: Attempt,
                           s: State, s': State, r: Result<string, Failure>)
    requires Deployed(image, a, previous, recovery, s, s', r)
    requires s.running == Some(previous) && !Blank(previous)
    requires NeedsRecovery(r) ==> recovery.write.Written? && recovery.up.Started?
    ensures r.Ok? ==> image == Some(r.value) && s' == State(r.value, Some(r.value))
    ensures r.Err? ==> s'.running == Some(previous)
  {
  }

  /** Exactly when a release that was reported unhealthy is still what runs: there was nothing
      to fall back to, the recovery did not get to touch the containers, or what it left running
      is that image again. */
  lemma UnhealthyStaysIff(image: string, a: Attempt, previous: string, recovery: Attempt,
                          s: State, s': State, r: Result<string, Failure>)
    requires Deployed(Some(image), a, previous, recovery, s, s', r) && r == Err(Unhealthy)
    ensures s'.running == Some(image) <==>
              || Blank(previous) || recovery.write.WriteFails?
              || (if recovery.up.Started? then previous == image else recovery.up.left == Some(image))
  {
  }

  /** A first deploy whose health check fails is reported failed and left running. */
  lemma UnhealthyFirstDeploy(image: string, recovery: Attempt)
    ensures var s, s' := State("", None), State(image, Some(image));
            Deployed(Some(image), Attempt(Written, Started, false), "", recovery, s, s', Err(Unhealthy))
  {
    BlankEmpty();
  }
}
