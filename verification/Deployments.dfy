/** Deployment rows, the store that updates them, and the choice of a rollback target from
    their history. */
module Deployments {
  import opened Results

  datatype Status = Queued | Running | Success | Failed

  predicate Terminal(s: Status) {
    s == Success || s == Failed
  }

  datatype Row = Row(project: string, status: Status, commit: string, ref: string, artifact: string,
                     log: string, error: string, startedAt: nat, finishedAt: nat)

  type Rows = map<nat, Row>

  const MAX_LOG: nat := 4 * 1024 * 1024
  const MAX_ERROR: nat := 16 * 1024
  const INTERRUPTED: string := "deployment interrupted by service restart"

  function CapStoredText(value: string, limit: nat): string {
    if |value| <= limit then value else value[|value| - limit..]
  }

  /** Capping append by append keeps the same bytes as capping the whole text. */
  lemma CapAppend(text: string, chunk: string, limit: nat)
    ensures CapStoredText(CapStoredText(text, limit) + chunk, limit) == CapStoredText(text + chunk, limit)
  {
    if |text| > limit {
      var cut := |text| - limit;
      assert text[cut..] + chunk == (text + chunk)[cut..];
      assert (text + chunk)[cut..][|chunk|..] == (text + chunk)[cut + |chunk|..];
    }
  }

  // ----- queries -----

  predicate IsOf(rows: Rows, project: string, id: nat) {
    id in rows && rows[id].project == project
  }

  predicate IsSuccess(rows: Rows, project: string, id: nat) {
    IsOf(rows, project, id) && rows[id].status == Success
  }

  /** The project's attempts with ids below n, newest first. */
  function Attempts(rows: Rows, project: string, n: nat): seq<nat> {
    if n == 0 then []
    else (if IsOf(rows, project, n - 1) then [n - 1] else []) + Attempts(rows, project, n - 1)
  }

  /** The project's successful attempts with ids below n, newest first. */
  function Successes(rows: Rows, project: string, n: nat): seq<nat> {
    if n == 0 then []
    else (if IsSuccess(rows, project, n - 1) then [n - 1] else []) + Successes(rows, project, n - 1)
  }

  function Limit(ids: seq<nat>, limit: nat): seq<nat> {
    if |ids| <= limit then ids else ids[..limit]
  }

  /** What one query over the rows sees, newest first. */
  function Listed(rows: Rows, project: string, successOnly: bool, n: nat): seq<nat> {
    if successOnly then Successes(rows, project, n) else Attempts(rows, project, n)
  }

  predicate Listing(rows: Rows, project: string, successOnly: bool, id: nat) {
    IsOf(rows, project, id) && (successOnly ==> rows[id].status == Success)
  }

  predicate IsLatest(rows: Rows, project: string, n: nat, id: nat) {
    var latest := Attempts(rows, project, n);
    latest != [] && latest[0] == id
  }

  lemma ListedStep(rows: Rows, project: string, successOnly: bool, n: nat, taken: seq<nat>)
    requires n > 0
    ensures taken + Listed(rows, project, successOnly, n)
         == (if Listing(rows, project, successOnly, n - 1) then taken + [n - 1] else taken)
            + Listed(rows, project, successOnly, n - 1)
  {
    var rest := Listed(rows, project, successOnly, n - 1);
    var first := if Listing(rows, project, successOnly, n - 1) then [n - 1] else [];
    assert Listed(rows, project, successOnly, n) == first + rest;
    assert taken + (first + rest) == (taken + first) + rest;
    assert taken + [] == taken;
  }

  lemma LimitOf(taken: seq<nat>, rest: seq<nat>, limit: nat)
    requires |taken| == limit || (|taken| < limit && rest == [])
    ensures Limit(taken + rest, limit) == taken
  {
    assert (taken + rest)[..|taken|] == taken;
  }

  lemma {:induction false} AttemptsAre(rows: Rows, project: string, n: nat)
    ensures forall id: nat :: id in Attempts(rows, project, n) <==> id < n && IsOf(rows, project, id)
    ensures forall i, j | 0 <= i < j < |Attempts(rows, project, n)| ::
        Attempts(rows, project, n)[i] > Attempts(rows, project, n)[j]
  {
    if n > 0 {
      AttemptsAre(rows, project, n - 1);
      var rest := Attempts(rows, project, n - 1);
      assert forall i | 0 <= i < |rest| :: rest[i] in rest;
    }
  }

  lemma HasAttempt(rows: Rows, project: string, n: nat, id: nat)
    requires id < n && IsOf(rows, project, id)
    ensures Attempts(rows, project, n) != []
  {
    AttemptsAre(rows, project, n);
  }

  lemma {:induction false} SuccessesAre(rows: Rows, project: string, n: nat)
    ensures forall id: nat :: id in Successes(rows, project, n) <==> id < n && IsSuccess(rows, project, id)
    ensures forall i, j | 0 <= i < j < |Successes(rows, project, n)| ::
        Successes(rows, project, n)[i] > Successes(rows, project, n)[j]
  {
    if n > 0 {
      SuccessesAre(rows, project, n - 1);
      var rest := Successes(rows, project, n - 1);
      assert forall i | 0 <= i < |rest| :: rest[i] in rest;
    }
  }

  /** A limited query sees the newest of the rows it is about, newest first; it leaves one out only
      when the limit is reached. */
  lemma NewestListed(rows: Rows, project: string, successOnly: bool, n: nat, limit: nat)
    requires forall id | id in rows :: id < n
    ensures var ids := Limit(Listed(rows, project, successOnly, n), limit);
            && |ids| <= limit
            && (forall i, j | 0 <= i < j < |ids| :: ids[i] > ids[j])
            && (forall id: nat | id in ids ::
                  id in rows && rows[id].project == project && (successOnly ==> rows[id].status == Success))
            && (forall id: nat | id in rows && rows[id].project == project
                                 && (successOnly ==> rows[id].status == Success) && id !in ids ::
                  |ids| == limit && forall i | 0 <= i < |ids| :: ids[i] > id)
  {
    AttemptsAre(rows, project, n);
    SuccessesAre(rows, project, n);
    var all := Listed(rows, project, successOnly, n);
    FrontIs(all, limit);
    forall id: nat | id in rows && rows[id].project == project && (successOnly ==> rows[id].status == Success)
      ensures id in all
    {
      assert IsOf(rows, project, id);
    }
  }

  /** The first few of a descending list are its greatest. */
  lemma FrontIs(all: seq<nat>, limit: nat)
    requires forall i, j | 0 <= i < j < |all| :: all[i] > all[j]
    ensures var ids := Limit(all, limit);
            && |ids| <= limit && ids <= all
            && (forall id | id in ids :: id in all)
            && (forall id: nat | id in all && id !in ids :: |ids| == limit && forall i | 0 <= i < |ids| :: ids[i] > id)
  {
    var ids := Limit(all, limit);
    assert forall i | 0 <= i < |ids| :: all[i] == ids[i] && all[i] in ids;
    forall id: nat | id in all && id !in ids ensures |ids| == limit && forall i | 0 <= i < |ids| :: ids[i] > id {
      var k :| 0 <= k < |all| && all[k] == id;
    }
  }

  class Store {
    var rows: Rows
    var nextId: nat

    constructor ()
      ensures rows == map[] && nextId == 1
    {
      rows, nextId := map[], 1;
    }

    ghost predicate Valid()
      reads this
    {
      forall id | id in rows :: id < nextId
    }

    method CreateDeployment(d: Row, works: bool) returns (id: Option<nat>)
      requires Valid()
      modifies this
      ensures Valid()
      ensures id == if works then Some(old(nextId)) else None
      ensures works ==> rows == old(rows)[old(nextId) := d] && nextId == old(nextId) + 1
      ensures !works ==> rows == old(rows) && nextId == old(nextId)
    {
      if !works {
        return None;
      }
      id := Some(nextId);
      rows := rows[nextId := d];
      nextId := nextId + 1;
    }

    method SetDeploymentStatus(id: nat, status: Status, artifact: string, works: bool)
      modifies this`rows
      ensures rows == if id in old(rows) && works
                      then old(rows)[id := old(rows)[id].(status := status, artifact := artifact)]
                      else old(rows)
    {
      if id in rows && works {
        rows := rows[id := rows[id].(status := status, artifact := artifact)];
      }
    }

    /** Keeps the newest bytes of the log up to the limit. */
    method AppendDeploymentLog(id: nat, chunk: string, works: bool)
      modifies this`rows
      ensures rows == if id in old(rows) && works
                      then old(rows)[id := old(rows)[id].(log := CapStoredText(old(rows)[id].log + chunk, MAX_LOG))]
                      else old(rows)
      // The newest 4 MiB of the log stay.
      ensures id in old(rows) && works ==>
                var text := old(rows)[id].log + chunk;
                var kept := if |text| <= 4 * 1024 * 1024 then text else text[|text| - 4 * 1024 * 1024..];
                rows == old(rows)[id := old(rows)[id].(log := kept)]
      ensures id !in old(rows) || !works ==> rows == old(rows)
    {
      if id !in rows || !works {
        return;
      }
      var current := rows[id].log;
      rows := rows[id := rows[id].(log := CapStoredText(current + chunk, MAX_LOG))];
    }

    method FinishDeployment(id: nat, status: Status, error: string, now: nat)
      modifies this`rows
      ensures rows == if id in old(rows) then old(rows)[id := Closed(old(rows)[id], status, error, now)] else old(rows)
      // The newest 16 KiB of the error are stored.
      ensures id in old(rows) ==>
                var kept := if |error| <= 16 * 1024 then error else error[|error| - 16 * 1024..];
                rows == old(rows)[id := old(rows)[id].(status := status, error := kept, finishedAt := now)]
    {
      if id in rows {
        rows := rows[id := rows[id].(status := status, error := CapStoredText(error, MAX_ERROR), finishedAt := now)];
      }
    }

    /** Closes exactly the rows a previous process left open. */
    method FailInterruptedDeployments(now: nat)
      modifies this`rows
      ensures rows == Reconciled(old(rows), now)
      ensures rows.Keys == old(rows).Keys
      ensures forall id | id in rows ::
                rows[id] == if old(rows)[id].status == Success || old(rows)[id].status == Failed then old(rows)[id]
                            else old(rows)[id].(status := Failed, error := "deployment interrupted by service restart",
                                                finishedAt := now)
    {
      rows := map id | id in rows :: if Terminal(rows[id].status) then rows[id]
                                     else rows[id].(status := Failed, error := INTERRUPTED, finishedAt := now);
    }

    method PruneDeployments(before: nat)
      modifies this`rows
      ensures rows == Pruned(old(rows), before)
      // Exactly the terminal rows that started earlier go.
      ensures forall id :: id in rows <==>
                id in old(rows) && (old(rows)[id].startedAt >= before || old(rows)[id].status == Queued
                                    || old(rows)[id].status == Running)
      ensures forall id | id in rows :: rows[id] == old(rows)[id]
    {
      rows := map id | id in rows && !(rows[id].startedAt < before && Terminal(rows[id].status)) :: rows[id];
    }

    /** ORDER BY id DESC LIMIT, over one project's rows. */
    method ListDeployments(project: string, limit: nat) returns (ids: seq<nat>)
      requires Valid()
      ensures ids == Limit(Attempts(rows, project, nextId), limit)
    {
      ids := Newest(project, limit, false);
    }

    method SuccessfulDeployments(project: string, limit: nat) returns (ids: seq<nat>)
      requires Valid()
      ensures ids == Limit(Successes(rows, project, nextId), limit)
    {
      ids := Newest(project, limit, true);
    }

    method Newest(project: string, limit: nat, successOnly: bool) returns (ids: seq<nat>)
      ensures ids == Limit(Listed(rows, project, successOnly, nextId), limit)
    {
      ids := [];
      var n: nat := nextId;
      while n > 0 && |ids| < limit
        invariant n <= nextId && |ids| <= limit
        invariant Listed(rows, project, successOnly, nextId) == ids + Listed(rows, project, successOnly, n)
      {
        ListedStep(rows, project, successOnly, n, ids);
        n := n - 1;
        if Listing(rows, project, successOnly, n) {
          ids := ids + [n];
        }
      }
      LimitOf(ids, Listed(rows, project, successOnly, n), limit);
    }

    /** The rollback target: the newest success if the latest attempt did not succeed, else
        the success before it. */
    method PreviousSuccessful(project: string) returns (r: Result<nat, ()>)
      requires Valid()
      ensures r == RollbackTarget(rows, project, nextId)
      // The target is a success older than some attempt, and a success newer than it is the
      // project's newest attempt; without a target the same holds of every success.
      ensures r.Ok? ==> r.value in rows && rows[r.value].project == project && rows[r.value].status == Success
                        && exists k | k in rows && rows[k].project == project :: k > r.value
      ensures forall j | j in rows && rows[j].project == project && rows[j].status == Success
                         && (r.Ok? ==> j > r.value) ::
                forall k | k in rows && rows[k].project == project :: k <= j
    {
      TargetSpelledOut(rows, project, nextId);
      var latest := ListDeployments(project, 1);
      var successes := SuccessfulDeployments(project, 2);
      if |successes| == 0 {
        return Err(());
      }
      LatestExists(rows, project, nextId);
      if |successes| >= 2 && |latest| > 0 && rows[latest[0]].status == Success {
        return Ok(successes[1]);
      }
      if |successes| == 1 && |latest| > 0 && rows[latest[0]].status == Success {
        return Err(());
      }
      return Ok(successes[0]);
    }

    /** The history page: per project, whether a rollback is offered and on which attempt. */
    method RollbackFlags(projects: seq<string>) returns (rollbackOK: map<string, bool>, latest: map<string, nat>)
      requires Valid()
      ensures FlagsAre(rows, nextId, projects, rollbackOK, latest)
    {
      rollbackOK, latest := map[], map[];
      for i := 0 to |projects|
        invariant FlagsAre(rows, nextId, projects[..i], rollbackOK, latest)
      {
        var p := projects[i];
        var recent := ListDeployments(p, 1);
        var successes := SuccessfulDeployments(p, 2);
        LatestExists(rows, p, nextId);
        var ok := |successes| >= 2;
        if |successes| >= 1 && |recent| > 0 && rows[recent[0]].status != Success {
          ok := true;
        }
        rollbackOK := rollbackOK[p := ok];
        if |recent| > 0 {
          latest := latest[p := recent[0]];
        }
        assert projects[..i + 1] == projects[..i] + [p];
      }
      assert projects[..|projects|] == projects;
    }

    method CanRollBack(id: nat, rollbackOK: map<string, bool>, latest: map<string, nat>, ghost projects: seq<string>)
        returns (can: bool)
      requires Valid() && id in rows && FlagsAre(rows, nextId, projects, rollbackOK, latest)
      ensures can <==> Offered(rows, projects, nextId, id)
    {
      var p := rows[id].project;
      can := p in rollbackOK && rollbackOK[p] && p in latest && latest[p] == id;
      OfferedByFlags(rows, nextId, projects, rollbackOK, latest, id);
    }

    /** The rows of one page: a rollback is offered on a project's newest attempt, and only
        when the rollback would find a target. */
    method HistoryPage(projects: seq<string>, page: seq<nat>) returns (canRollback: seq<bool>)
      requires Valid() && forall id | id in page :: id in rows
      ensures |canRollback| == |page|
      ensures forall k | 0 <= k < |page| :: canRollback[k] <==> Offered(rows, projects, nextId, page[k])
    {
      var rollbackOK, latest := RollbackFlags(projects);
      canRollback := [];
      for i := 0 to |page|
        invariant |canRollback| == i
        invariant forall k | 0 <= k < i :: canRollback[k] <==> Offered(rows, projects, nextId, page[k])
      {
        var can := CanRollBack(page[i], rollbackOK, latest, projects);
        canRollback := canRollback + [can];
      }
    }
  }

  function Closed(row: Row, status: Status, error: string, now: nat): Row {
    row.(status := status, error := CapStoredText(error, MAX_ERROR), finishedAt := now)
  }

  function Reconciled(rows: Rows, now: nat): Rows {
    map id | id in rows :: if Terminal(rows[id].status) then rows[id]
                           else rows[id].(status := Failed, error := INTERRUPTED, finishedAt := now)
  }

  function Pruned(rows: Rows, before: nat): Rows {
    map id | id in rows && !(rows[id].startedAt < before && Terminal(rows[id].status)) :: rows[id]
  }

  // ----- the rollback target -----

  predicate LatestSucceeded(rows: Rows, project: string, n: nat) {
    var latest := Attempts(rows, project, n);
    latest != [] && latest[0] in rows && rows[latest[0]].status == Success
  }

  lemma LatestExists(rows: Rows, project: string, n: nat)
    ensures var latest := Attempts(rows, project, n);
            && (forall id | id in latest :: id in rows)
            && (Successes(rows, project, n) != [] ==> latest != [] && Successes(rows, project, n)[0] <= latest[0])
            && (latest != [] ==> latest[0] in rows)
            && (LatestSucceeded(rows, project, n) <==>
                Successes(rows, project, n) != [] && Successes(rows, project, n)[0] == latest[0])
  {
    AttemptsAre(rows, project, n);
    SuccessesAre(rows, project, n);
    var a, s := Attempts(rows, project, n), Successes(rows, project, n);
    if s != [] {
      assert s[0] in s && s[0] in a;
    }
    if a != [] {
      assert a[0] in a;
      if rows[a[0]].status == Success {
        assert a[0] in s;
      }
    }
  }

  /** The choice, from whether the latest attempt succeeded and from the successes. */
  function TargetOf(successes: seq<nat>, latestOk: bool): Result<nat, ()> {
    if successes == [] then Err(())
    else if !latestOk then Ok(successes[0])
    else if |successes| >= 2 then Ok(successes[1])
    else Err(())
  }

  function RollbackTarget(rows: Rows, project: string, n: nat): Result<nat, ()> {
    TargetOf(Successes(rows, project, n), LatestSucceeded(rows, project, n))
  }

  /** The first query of the choice may be out of date when the second is made. Exactly when
      that does not matter: there is no success at all, or the answer to the first still holds. */
  lemma ChoiceFreshIff(rows: Rows, project: string, n: nat, latestOk: bool)
    ensures TargetOf(Successes(rows, project, n), latestOk) == RollbackTarget(rows, project, n) <==>
            Successes(rows, project, n) == [] || latestOk == LatestSucceeded(rows, project, n)
  {
    SuccessesAre(rows, project, n);
  }

  ghost predicate Offered(rows: Rows, projects: seq<string>, n: nat, id: nat)
    requires id in rows
  {
    var p := rows[id].project;
    p in projects && RollbackTarget(rows, p, n).Ok? && IsLatest(rows, p, n, id)
  }

  /** What the history page works out per project. */
  ghost predicate FlagsAre(rows: Rows, n: nat, projects: seq<string>, rollbackOK: map<string, bool>,
                           latest: map<string, nat>) {
    && rollbackOK.Keys == (set p | p in projects)
    && (forall p | p in projects :: rollbackOK[p] <==> RollbackTarget(rows, p, n).Ok?)
    && (forall p | p in projects && Attempts(rows, p, n) != [] :: p in latest && latest[p] == Attempts(rows, p, n)[0])
  }

  lemma OfferedByFlags(rows: Rows, n: nat, projects: seq<string>, rollbackOK: map<string, bool>,
                       latest: map<string, nat>, id: nat)
    requires FlagsAre(rows, n, projects, rollbackOK, latest) && id in rows && id < n
    ensures var p := rows[id].project;
            (p in rollbackOK && rollbackOK[p] && p in latest && latest[p] == id) <==> Offered(rows, projects, n, id)
  {
    HasAttempt(rows, rows[id].project, n, id);
  }

  ghost predicate OlderSuccess(rows: Rows, project: string, latest: nat, id: nat) {
    id < latest && IsSuccess(rows, project, id)
  }

  /** The two newest successes, where there are that many. */
  lemma NewestTwo(rows: Rows, project: string, n: nat)
    ensures var s := Successes(rows, project, n);
            && (s == [] ==> forall j: nat | j < n :: !IsSuccess(rows, project, j))
            && (s != [] ==> s[0] < n && IsSuccess(rows, project, s[0]))
            && (s != [] ==> forall j: nat | j < n && IsSuccess(rows, project, j) :: j <= s[0])
            && (|s| == 1 ==> forall j: nat | j < n && IsSuccess(rows, project, j) :: j == s[0])
            && (|s| >= 2 ==> s[1] < s[0] && IsSuccess(rows, project, s[1]))
            && (|s| >= 2 ==> forall j: nat | j < n && IsSuccess(rows, project, j) && j != s[0] :: j <= s[1])
  {
    SuccessesAre(rows, project, n);
    var s := Successes(rows, project, n);
    forall j: nat | j < n && IsSuccess(rows, project, j)
      ensures s != [] && j <= s[0] && (|s| == 1 ==> j == s[0]) && (|s| >= 2 && j != s[0] ==> j <= s[1])
    {
      assert j in s;
    }
    if s != [] {
      assert s[0] in s;
    }
    if |s| >= 2 {
      assert s[1] in s;
    }
  }

  lemma NewestAttempt(rows: Rows, project: string, n: nat)
    ensures var a := Attempts(rows, project, n);
            && (a == [] ==> forall j: nat | j < n :: !IsOf(rows, project, j))
            && (a != [] ==> a[0] < n && IsOf(rows, project, a[0]))
            && (a != [] ==> forall j: nat | j < n && IsOf(rows, project, j) :: j <= a[0])
  {
    AttemptsAre(rows, project, n);
    var a := Attempts(rows, project, n);
    forall j: nat | j < n && IsOf(rows, project, j) ensures a != [] && j <= a[0] {
      assert j in a;
    }
    if a != [] {
      assert a[0] in a;
    }
  }

  /** For every history the target is the newest success strictly older than the latest
      attempt, and there is none exactly when the choice fails. */
  lemma TargetIsNewestOlderSuccess(rows: Rows, project: string, n: nat)
    ensures var attempts := Attempts(rows, project, n);
            match RollbackTarget(rows, project, n)
            case Ok(id) => attempts != [] && OlderSuccess(rows, project, attempts[0], id) &&
                           forall j: nat | OlderSuccess(rows, project, attempts[0], j) :: j <= id
            case Err(_) => attempts == [] || forall j: nat :: !OlderSuccess(rows, project, attempts[0], j)
  {
    NewestAttempt(rows, project, n);
    NewestTwo(rows, project, n);
  }

  /** The target, spelled out. */
  lemma TargetSpelledOut(rows: Rows, project: string, n: nat)
    requires forall id | id in rows :: id < n
    ensures var r := RollbackTarget(rows, project, n);
            && (r.Ok? ==>
                  && r.value in rows && rows[r.value].project == project && rows[r.value].status == Success
                  && exists k | k in rows && rows[k].project == project :: k > r.value)
            && (forall j | j in rows && rows[j].project == project && rows[j].status == Success
                           && (r.Ok? ==> j > r.value) ::
                  forall k | k in rows && rows[k].project == project :: k <= j)
  {
    NewestAttempt(rows, project, n);
    TargetIsNewestOlderSuccess(rows, project, n);
    var r, attempts := RollbackTarget(rows, project, n), Attempts(rows, project, n);
    forall j | j in rows && rows[j].project == project && rows[j].status == Success && (r.Ok? ==> j > r.value)
      ensures forall k | k in rows && rows[k].project == project :: k <= j
    {
      assert IsSuccess(rows, project, j) && IsOf(rows, project, j);
      assert !OlderSuccess(rows, project, attempts[0], j);
      forall k | k in rows && rows[k].project == project ensures k <= j {
        assert IsOf(rows, project, k);
      }
    }
  }

  /** A rollback is offered on the newest attempt of a project that has an older success. */
  lemma OfferedSpelledOut(rows: Rows, projects: seq<string>, n: nat, id: nat)
    requires id in rows && forall j | j in rows :: j < n
    ensures Offered(rows, projects, n, id) <==>
            && rows[id].project in projects
            && (forall j | j in rows && rows[j].project == rows[id].project :: j <= id)
            && (exists j | j in rows && rows[j].project == rows[id].project :: j < id && rows[j].status == Success)
  {
    var p := rows[id].project;
    HasAttempt(rows, p, n, id);
    NewestAttempt(rows, p, n);
    TargetIsNewestOlderSuccess(rows, p, n);
    assert IsOf(rows, p, id);
    assert forall j: nat | j in rows && rows[j].project == p :: IsOf(rows, p, j);
    if Attempts(rows, p, n)[0] == id {
      assert forall j: nat | j in rows && rows[j].project == p && j < id && rows[j].status == Success ::
        OlderSuccess(rows, p, id, j);
    }
  }

  /** The artifact of the newest success, or nothing. */
  function NewestArtifact(rows: Rows, project: string, n: nat): string {
    if n == 0 then ""
    else if IsSuccess(rows, project, n - 1) then rows[n - 1].artifact
    else NewestArtifact(rows, project, n - 1)
  }

  /** It is that of the project's success with the greatest id, or empty without any. */
  lemma NewestArtifactIs(rows: Rows, project: string, n: nat)
    requires forall id | id in rows :: id < n
    ensures forall id | id in rows && rows[id].project == project && rows[id].status == Success
                        && forall j | j in rows && rows[j].project == project && rows[j].status == Success :: j <= id ::
              NewestArtifact(rows, project, n) == rows[id].artifact
    ensures (forall id | id in rows && rows[id].project == project :: rows[id].status != Success) ==>
              NewestArtifact(rows, project, n) == ""
  {
    ArtifactBelow(rows, project, n);
  }

  /** The newest success below n gives the artifact. */
  lemma {:induction false} ArtifactBelow(rows: Rows, project: string, n: nat)
    ensures forall id: nat | id < n && IsSuccess(rows, project, id)
                             && forall j: nat | j < n && IsSuccess(rows, project, j) :: j <= id ::
              NewestArtifact(rows, project, n) == rows[id].artifact
    ensures (forall id: nat | id < n :: !IsSuccess(rows, project, id)) ==> NewestArtifact(rows, project, n) == ""
  {
    if n > 0 && !IsSuccess(rows, project, n - 1) {
      ArtifactBelow(rows, project, n - 1);
    }
  }

  lemma {:induction false} NewestIsHead(rows: Rows, project: string, n: nat)
    ensures NewestArtifact(rows, project, n) ==
            if Successes(rows, project, n) == [] then "" else HeadArtifact(rows, project, n)
  {
    if n > 0 && !IsSuccess(rows, project, n - 1) {
      NewestIsHead(rows, project, n - 1);
      assert Successes(rows, project, n) == Successes(rows, project, n - 1);
    }
  }

  ghost function HeadArtifact(rows: Rows, project: string, n: nat): string
    requires Successes(rows, project, n) != []
  {
    LatestExists(rows, project, n);
    SuccessesAre(rows, project, n);
    assert Successes(rows, project, n)[0] in Successes(rows, project, n);
    rows[Successes(rows, project, n)[0]].artifact
  }

  /** The history of a project in which attempt id, a success, is the only change: rows of
      other projects may have changed in any way. */
  ghost predicate OneMoreSuccess(rows: Rows, n: nat, rows': Rows, n': nat, project: string, id: nat) {
    && n <= id < n'
    && IsSuccess(rows', project, id)
    && (forall j: nat | j < n :: IsOf(rows, project, j) <==> IsOf(rows', project, j))
    && (forall j: nat | j < n && IsOf(rows, project, j) :: rows[j] == rows'[j])
    && (forall j: nat | n <= j < n' && j != id :: !IsOf(rows', project, j))
  }

  lemma {:induction false} AgreeingHistory(rows: Rows, rows': Rows, project: string, n: nat)
    requires forall id: nat | id < n :: (IsOf(rows, project, id) <==> IsOf(rows', project, id))
                                && (IsSuccess(rows, project, id) <==> IsSuccess(rows', project, id))
    ensures Attempts(rows, project, n) == Attempts(rows', project, n)
    ensures Successes(rows, project, n) == Successes(rows', project, n)
  {
    if n > 0 {
      AgreeingHistory(rows, rows', project, n - 1);
    }
  }

  lemma {:induction false} OneMoreInFront(rows: Rows, n: nat, rows': Rows, n': nat, project: string, id: nat)
    requires OneMoreSuccess(rows, n, rows', n', project, id)
    ensures Attempts(rows', project, n') == [id] + Attempts(rows, project, n)
    ensures Successes(rows', project, n') == [id] + Successes(rows, project, n)
  {
    if n' > id + 1 {
      OneMoreInFront(rows, n, rows', n' - 1, project, id);
    } else {
      NothingBetween(rows', project, n, id);
      AgreeingHistory(rows, rows', project, n);
    }
  }

  lemma {:induction false} NothingBetween(rows: Rows, project: string, n: nat, n': nat)
    requires n <= n' && forall j: nat | n <= j < n' :: !IsOf(rows, project, j)
    ensures Attempts(rows, project, n') == Attempts(rows, project, n)
    ensures Successes(rows, project, n') == Successes(rows, project, n)
  {
    if n < n' {
      NothingBetween(rows, project, n, n' - 1);
    }
  }

  /** A successful release after a successful one makes that earlier one the next rollback
      target. */
  lemma RollbackShifts(rows: Rows, n: nat, rows': Rows, n': nat, project: string, id: nat)
    requires LatestSucceeded(rows, project, n)
    requires OneMoreSuccess(rows, n, rows', n', project, id)
    ensures LatestSucceeded(rows', project, n')
    ensures Attempts(rows', project, n')[0] == id
    ensures RollbackTarget(rows', project, n') == Ok(Attempts(rows, project, n)[0])
    ensures Attempts(rows, project, n)[0] in rows'
        && rows'[Attempts(rows, project, n)[0]] == rows[Attempts(rows, project, n)[0]]
  {
    LatestExists(rows, project, n);
    AttemptsAre(rows, project, n);
    assert Attempts(rows, project, n)[0] in Attempts(rows, project, n);
    OneMoreInFront(rows, n, rows', n', project, id);
  }
}
