/** In-memory backoff after failed sign-ins. Times are nanoseconds since the zero time. */
module LoginBackoff {
  import opened Results

  const MINUTE: nat := 60 * 1_000_000_000
  const WINDOW: nat := 15 * MINUTE
  const LOCKOUT: nat := 5 * MINUTE
  const ZERO_TIME: nat := 0

  /** The zero attempt is what a lookup of a missing key yields. */
  datatype Attempt = Attempt(count: nat, first: nat, lockedUntil: nat)

  const NO_ATTEMPT := Attempt(0, ZERO_TIME, ZERO_TIME)

  // ----- one key -----

  /** How long a key still has to wait. */
  function RetryAfter(entry: Option<Attempt>, now: nat): nat {
    if entry.Some? && now < entry.value.lockedUntil then entry.value.lockedUntil - now else 0
  }

  /** The entry after the retry check, which drops a stale one. */
  function AfterCheck(entry: Option<Attempt>, now: nat): Option<Attempt> {
    if entry.Some? && now >= entry.value.lockedUntil && now - entry.value.first > WINDOW then None else entry
  }

  function AfterFailure(entry: Option<Attempt>, now: nat): Attempt {
    var a := if entry.Some? then entry.value else NO_ATTEMPT;
    var b := if a.first == ZERO_TIME || now - a.first > WINDOW then Attempt(0, now, ZERO_TIME) else a;
    var c := b.count + 1;
    Attempt(c, b.first, if c >= 5 then now + LOCKOUT else b.lockedUntil)
  }

  class LoginService {
    var loginFailures: map<string, Attempt>

    constructor ()
      ensures loginFailures == map[]
    {
      loginFailures := map[];
    }

    function Entry(key: string): Option<Attempt>
      reads this
    {
      if key in loginFailures then Some(loginFailures[key]) else None
    }

    /** Other keys are never touched; the key's own entry goes only when stale. */
    method LoginRetryAfter(key: string, now: nat) returns (wait: nat)
      modifies this
      ensures wait == RetryAfter(old(Entry(key)), now)
      ensures Entry(key) == AfterCheck(old(Entry(key)), now)
      ensures forall k | k != key :: Entry(k) == old(Entry(k))
      // What is left of the lockout; past it, an entry older than fifteen minutes goes.
      ensures wait == if key in old(loginFailures) && now < old(loginFailures)[key].lockedUntil
                      then old(loginFailures)[key].lockedUntil - now else 0
      ensures loginFailures == if key in old(loginFailures) && wait == 0
                                  && now - old(loginFailures)[key].first > 15 * 60 * 1_000_000_000
                               then old(loginFailures) - {key} else old(loginFailures)
    {
      if key !in loginFailures {
        return 0;
      }
      var attempt := loginFailures[key];
      if now < attempt.lockedUntil {
        return attempt.lockedUntil - now;
      }
      if now - attempt.first > WINDOW {
        loginFailures := loginFailures - {key};
      }
      return 0;
    }

    method RecordLoginFailure(key: string, now: nat)
      modifies this
      ensures Entry(key) == Some(AfterFailure(old(Entry(key)), now))
      ensures forall k | k != key :: Entry(k) == old(Entry(k))
      // Counts within fifteen minutes of the first failure, and locks for five minutes from the
      // fifth on.
      ensures var begins := key !in old(loginFailures) || old(loginFailures)[key].first == 0
                            || now - old(loginFailures)[key].first > 15 * 60 * 1_000_000_000;
              var count := if begins then 1 else old(loginFailures)[key].count + 1;
              loginFailures == old(loginFailures)[
                key := Attempt(count, if begins then now else old(loginFailures)[key].first,
                               if count >= 5 then now + 5 * 60 * 1_000_000_000
                               else if begins then 0 else old(loginFailures)[key].lockedUntil)]
    {
      var attempt := if key in loginFailures then loginFailures[key] else NO_ATTEMPT;
      if attempt.first == ZERO_TIME || now - attempt.first > WINDOW {
        attempt := Attempt(0, now, ZERO_TIME);
      }
      attempt := attempt.(count := attempt.count + 1);
      if attempt.count >= 5 {
        attempt := attempt.(lockedUntil := now + LOCKOUT);
      }
      loginFailures := loginFailures[key := attempt];
    }

    method ClearLoginFailures(key: string)
      modifies this
      ensures Entry(key) == None
      ensures forall k | k != key :: Entry(k) == old(Entry(k))
      ensures loginFailures == old(loginFailures) - {key}
    {
      loginFailures := loginFailures - {key};
    }

    /** The login handler: check at one clock reading, authenticate, record at a later one. */
    method HandleLogin(key: string, request: Request) returns (answer: Answer)
      modifies this
      ensures answer == Reply(old(Entry(key)), request)
      ensures Entry(key) == NextEntry(old(Entry(key)), request)
      ensures forall k | k != key :: Entry(k) == old(Entry(k))
      // A locked key is told the seconds left, begun ones counted, and nothing changes.
      ensures key in old(loginFailures) && request.asked < old(loginFailures)[key].lockedUntil ==>
                && answer == TooManyRequests((old(loginFailures)[key].lockedUntil - request.asked) / 1_000_000_000 + 1)
                && loginFailures == old(loginFailures)
      // Otherwise authentication decides.
      ensures key !in old(loginFailures) || request.asked >= old(loginFailures)[key].lockedUntil ==>
                && (answer == Welcome <==> request.outcome.SignedIn?)
                && (answer == Unauthorized <==> request.outcome.WrongCredentials?)
                && (answer == ServerError <==> request.outcome.BackendFailure?)
      // A sign-in clears the key; a wrong password counts as a failure of the window that is open,
      // or begins one.
      ensures answer == Welcome ==> loginFailures == old(loginFailures) - {key}
      ensures answer == Unauthorized ==>
                && key in loginFailures
                && var begins := key !in old(loginFailures) || old(loginFailures)[key].first == 0
                                 || request.asked - old(loginFailures)[key].first > 15 * 60 * 1_000_000_000
                                 || request.settled - old(loginFailures)[key].first > 15 * 60 * 1_000_000_000;
                   var count := if begins then 1 else old(loginFailures)[key].count + 1;
                   loginFailures[key] == Attempt(count,
                                                 if begins then request.settled else old(loginFailures)[key].first,
                                                 if count >= 5 then request.settled + 5 * 60 * 1_000_000_000
                                                 else if begins then 0 else old(loginFailures)[key].lockedUntil)
      ensures answer == ServerError && key in old(loginFailures)
              && request.asked - old(loginFailures)[key].first <= 15 * 60 * 1_000_000_000 ==>
                key in loginFailures && loginFailures[key] == old(loginFailures)[key]
    {
      var retry := LoginRetryAfter(key, request.asked);
      if retry > 0 {
        return TooManyRequests(retry / 1_000_000_000 + 1);
      }
      match request.outcome {
        case WrongCredentials =>
          RecordLoginFailure(key, request.settled);
          return Unauthorized;
        case BackendFailure =>
          return ServerError;
        case SignedIn =>
          ClearLoginFailures(key);
          return Welcome;
      }
    }
  }

  /** What authentication would say. */
  datatype Outcome = WrongCredentials | BackendFailure | SignedIn

  datatype Answer = TooManyRequests(retryAfterSeconds: nat) | Unauthorized | ServerError | Welcome

  /** One sign-in request: when the backoff is asked, when the outcome is known. */
  datatype Request = Request(asked: nat, settled: nat, outcome: Outcome)

  function Reply(entry: Option<Attempt>, request: Request): Answer {
    var wait := RetryAfter(entry, request.asked);
    if wait > 0 then TooManyRequests(wait / 1_000_000_000 + 1)
    else match request.outcome
      case WrongCredentials => Unauthorized
      case BackendFailure => ServerError
      case SignedIn => Welcome
  }

  function NextEntry(entry: Option<Attempt>, request: Request): Option<Attempt> {
    var checked := AfterCheck(entry, request.asked);
    if RetryAfter(entry, request.asked) > 0 then checked
    else match request.outcome
      case WrongCredentials => Some(AfterFailure(checked, request.settled))
      case BackendFailure => checked
      case SignedIn => None
  }

  // ----- runs of one key -----

  /** Requests served one after the other on a clock that never runs backwards and is past
      the zero time. */
  ghost predicate Sequential(run: seq<Request>) {
    && (forall i | 0 <= i < |run| :: ZERO_TIME < run[i].asked <= run[i].settled)
    && (forall i, j | 0 <= i < j < |run| :: run[i].settled <= run[j].asked)
  }

  /** A sequential run of one key in which nobody signs in. */
  ghost predicate FailingRun(run: seq<Request>) {
    Sequential(run) && forall i | 0 <= i < |run| :: run[i].outcome != SignedIn
  }

  ghost function EntryAfter(run: seq<Request>): Option<Attempt> {
    if run == [] then None
    else NextEntry(EntryAfter(run[..|run| - 1]), run[|run| - 1])
  }

  /** The i-th request got through to authentication and failed there. */
  ghost predicate Recorded(run: seq<Request>, i: nat)
    requires i < |run|
  {
    RetryAfter(EntryAfter(run[..i]), run[i].asked) == 0 && run[i].outcome == WrongCredentials
  }

  /** Request by request: what the next one is answered, and when it is a recorded failure. */
  lemma OneMoreRequest(run: seq<Request>, r: Request)
    ensures EntryAfter(run + [r]) == NextEntry(EntryAfter(run), r)
    ensures Recorded(run + [r], |run|) <==> Reply(EntryAfter(run), r) == Unauthorized
    ensures Failures(run + [r]) ==
            Failures(run) + if Reply(EntryAfter(run), r) == Unauthorized then [r.settled] else []
    ensures EntryAfter([]) == None && Failures([]) == []
  {
    assert (run + [r])[..|run|] == run;
  }

  /** The times of the recorded failures, in order. */
  ghost function Failures(run: seq<Request>): (ts: seq<nat>)
    ensures |ts| <= |run|
  {
    if run == [] then []
    else
      var n := |run| - 1;
      if Recorded(run, n) then Failures(run[..n]) + [run[n].settled] else Failures(run[..n])
  }

  // ----- epochs -----

  /** The failures of one epoch: all within the window from its first, and from the fifth on
      each at least the lockout after the one before. */
  ghost predicate IsEpoch(ep: seq<nat>) {
    && 1 <= |ep| <= 8
    && (forall i | 0 <= i < |ep| :: ep[0] <= ep[i] <= ep[|ep| - 1])
    && ep[|ep| - 1] - ep[0] <= WINDOW
    && forall i | 4 <= i < |ep| - 1 :: ep[i + 1] - ep[i] >= LOCKOUT
  }

  /** Epochs follow each other, each beginning more than the window after the one before began. */
  ghost predicate AreEpochs(epochs: seq<seq<nat>>) {
    && (forall k | 0 <= k < |epochs| :: IsEpoch(epochs[k]))
    && (forall k | 0 <= k < |epochs| - 1 :: epochs[k + 1][0] - epochs[k][0] > WINDOW)
  }

  ghost function Flat(epochs: seq<seq<nat>>): seq<nat> {
    if epochs == [] then [] else Flat(epochs[..|epochs| - 1]) + epochs[|epochs| - 1]
  }

  /** The entry describes the last epoch, or that epoch's window is over and it was dropped. */
  ghost predicate Describes(e: Option<Attempt>, epochs: seq<seq<nat>>, start: nat, now: nat) {
    if epochs == [] then e.None?
    else
      var last := epochs[|epochs| - 1];
      && IsEpoch(last) && epochs[0] != [] && start <= epochs[0][0] && start <= last[0] && last[|last| - 1] <= now
      && match e
         case None => now - last[0] > WINDOW
         case Some(a) =>
           && a.count == |last| && a.first == last[0] > ZERO_TIME
           && a.lockedUntil == if |last| < 5 then ZERO_TIME else last[|last| - 1] + LOCKOUT
  }

  ghost function Start(run: seq<Request>): nat {
    if run == [] then 0 else run[0].asked
  }

  ghost function Now(run: seq<Request>): nat {
    if run == [] then 0 else run[|run| - 1].settled
  }

  lemma OneLater(run: seq<Request>, n: nat)
    requires FailingRun(run) && n == |run| - 1
    ensures FailingRun(run[..n]) && Now(run[..n]) <= run[n].asked && Start(run) <= run[n].asked <= run[n].settled
    ensures n > 0 ==> Start(run[..n]) == Start(run)
    ensures Now(run) == run[n].settled && ZERO_TIME < run[n].asked
  {
    if n > 0 {
      assert run[..n][0] == run[0] && run[..n][n - 1] == run[n - 1];
    }
  }

  /** The recorded failures of a run fall into epochs. */
  lemma {:induction false} EpochsOfRun(run: seq<Request>) returns (epochs: seq<seq<nat>>)
    requires FailingRun(run)
    ensures AreEpochs(epochs) && Flat(epochs) == Failures(run)
    ensures Describes(EntryAfter(run), epochs, Start(run), Now(run))
  {
    if run == [] {
      epochs := [];
    } else {
      var n := |run| - 1;
      var before := EpochsOfRun(run[..n]);
      var e := EntryAfter(run[..n]);
      OneLater(run, n);
      if Recorded(run, n) {
        epochs := EpochStep(e, before, Start(run), Now(run[..n]), run[n]);
      } else {
        epochs := before;
        EpochKept(e, before, Start(run), Now(run[..n]), run[n]);
      }
    }
  }

  /** A request that records nothing at most forgets a finished epoch. */
  lemma EpochKept(e: Option<Attempt>, epochs: seq<seq<nat>>, start: nat, now: nat, r: Request)
    requires Describes(e, epochs, start, now) && now <= r.asked <= r.settled
    requires r.outcome != SignedIn && (RetryAfter(e, r.asked) > 0 || r.outcome != WrongCredentials)
    ensures Describes(NextEntry(e, r), epochs, start, r.settled)
  {
  }

  /** A recorded failure joins the current epoch or begins the next one. */
  lemma EpochStep(e: Option<Attempt>, before: seq<seq<nat>>, start: nat, now: nat, r: Request)
      returns (epochs: seq<seq<nat>>)
    requires AreEpochs(before) && Describes(e, before, start, now)
    requires start <= r.asked && now <= r.asked <= r.settled && ZERO_TIME < r.asked
    requires r.outcome == WrongCredentials && RetryAfter(e, r.asked) == 0
    ensures AreEpochs(epochs) && Flat(epochs) == Flat(before) + [r.settled]
    ensures Describes(NextEntry(e, r), epochs, start, r.settled)
  {
    if e.Some? && r.settled - e.value.first <= WINDOW {
      JoinsEpoch(before[|before| - 1], r.settled);
      epochs := JoinLast(before, r.settled);
      EntryJoins(e, before, epochs, start, now, r);
    } else {
      EpochOver(e, before, start, now, r);
      epochs := BeginNext(before, r.settled);
    }
  }

  /** The next failure of the epoch the entry describes. */
  lemma EntryJoins(e: Option<Attempt>, before: seq<seq<nat>>, epochs: seq<seq<nat>>, start: nat, now: nat, r: Request)
    requires Describes(e, before, start, now) && e.Some? && now <= r.asked <= r.settled
    requires r.outcome == WrongCredentials && RetryAfter(e, r.asked) == 0 && r.settled - e.value.first <= WINDOW
    requires before != [] && |epochs| == |before| && IsEpoch(epochs[|epochs| - 1])
    requires epochs[|epochs| - 1] == before[|before| - 1] + [r.settled]
    requires epochs[0] != [] && epochs[0][0] == before[0][0]
    ensures Describes(NextEntry(e, r), epochs, start, r.settled)
  {
  }

  /** Where the failure begins a new epoch, the entry it leaves describes that epoch. */
  lemma EpochOver(e: Option<Attempt>, before: seq<seq<nat>>, start: nat, now: nat, r: Request)
    requires Describes(e, before, start, now) && now <= r.asked <= r.settled && start <= r.asked && ZERO_TIME < r.asked
    requires r.outcome == WrongCredentials && RetryAfter(e, r.asked) == 0
    requires e.Some? ==> r.settled - e.value.first > WINDOW
    ensures before != [] ==> before[|before| - 1] != [] && r.settled - before[|before| - 1][0] > WINDOW
    ensures Describes(NextEntry(e, r), before + [[r.settled]], start, r.settled)
  {
    assert IsEpoch([r.settled]);
    assert (before + [[r.settled]])[|before|] == [r.settled];
  }

  lemma JoinLast(before: seq<seq<nat>>, t: nat) returns (epochs: seq<seq<nat>>)
    requires AreEpochs(before) && before != [] && IsEpoch(before[|before| - 1] + [t])
    ensures AreEpochs(epochs) && Flat(epochs) == Flat(before) + [t]
    ensures |epochs| == |before| && epochs[|epochs| - 1] == before[|before| - 1] + [t]
    ensures epochs[0] != [] && epochs[0][0] == before[0][0]
  {
    var n := |before| - 1;
    assert IsEpoch(before[0]) && IsEpoch(before[n]);
    epochs := before[..n] + [before[n] + [t]];
    assert epochs[..n] == before[..n];
    assert Flat(before[..n]) + before[n] + [t] == Flat(before[..n]) + (before[n] + [t]);
    forall k | 0 <= k < |epochs| - 1 ensures epochs[k + 1][0] - epochs[k][0] > WINDOW {
      assert before[k + 1][0] - before[k][0] > WINDOW;
    }
  }

  lemma BeginNext(before: seq<seq<nat>>, t: nat) returns (epochs: seq<seq<nat>>)
    requires AreEpochs(before) && (before != [] ==> before[|before| - 1] != [] && t - before[|before| - 1][0] > WINDOW)
    ensures AreEpochs(epochs) && Flat(epochs) == Flat(before) + [t] && epochs == before + [[t]]
  {
    epochs := before + [[t]];
    assert epochs[..|before|] == before;
    assert IsEpoch([t]);
  }

  /** A ninth failure would come twenty minutes after the fifth: an epoch has at most eight. */
  lemma JoinsEpoch(ep: seq<nat>, now: nat)
    requires IsEpoch(ep) && ep[|ep| - 1] <= now && now - ep[0] <= WINDOW
    requires |ep| >= 5 ==> now >= ep[|ep| - 1] + LOCKOUT
    ensures IsEpoch(ep + [now])
  {
    if |ep| == 8 {
      FullEpoch(ep);
    }
  }

  lemma FullEpoch(ep: seq<nat>)
    requires IsEpoch(ep) && |ep| == 8
    ensures ep[7] - ep[0] >= 3 * LOCKOUT
  {
    assert ep[7] - ep[6] >= LOCKOUT && ep[6] - ep[5] >= LOCKOUT && ep[5] - ep[4] >= LOCKOUT;
  }

  lemma {:induction false} EpochsSize(epochs: seq<seq<nat>>)
    requires AreEpochs(epochs)
    ensures |Flat(epochs)| <= 8 * |epochs|
  {
    if epochs != [] {
      var n := |epochs| - 1;
      EpochsSize(epochs[..n]);
      assert IsEpoch(epochs[n]);
    }
  }

  lemma {:induction false} EpochsSpan(epochs: seq<seq<nat>>, n: nat)
    requires AreEpochs(epochs) && n < |epochs|
    ensures epochs[0] != [] && epochs[n] != [] && epochs[n][0] - epochs[0][0] >= WINDOW * n
  {
    assert IsEpoch(epochs[n]);
    if n > 0 {
      EpochsSpan(epochs, n - 1);
      assert epochs[n - 1 + 1][0] - epochs[n - 1][0] > WINDOW;
    }
  }

  /** A run of failures lasting T admits at most eight of them for every begun quarter of an
      hour. */
  lemma FailureBound(run: seq<Request>)
    requires FailingRun(run) && run != []
    ensures |Failures(run)| <= 8 * ((Now(run) - Start(run)) / WINDOW + 1)
  {
    var epochs := EpochsOfRun(run);
    EpochsSize(epochs);
    if epochs != [] {
      LastBegan(EntryAfter(run), epochs, Start(run), Now(run));
      EpochsFit(epochs, Start(run), Now(run));
    }
  }

  lemma LastBegan(e: Option<Attempt>, epochs: seq<seq<nat>>, start: nat, now: nat)
    requires epochs != [] && Describes(e, epochs, start, now)
    ensures epochs[0] != [] && start <= epochs[0][0]
    ensures epochs[|epochs| - 1] != [] && epochs[|epochs| - 1][0] <= now
  {
  }

  lemma EpochsFit(epochs: seq<seq<nat>>, start: nat, now: nat)
    requires AreEpochs(epochs) && epochs != [] && epochs[0] != [] && start <= epochs[0][0]
    requires epochs[|epochs| - 1] != [] && epochs[|epochs| - 1][0] <= now
    ensures |epochs| <= (now - start) / WINDOW + 1
  {
    EpochsSpan(epochs, |epochs| - 1);
    DivideWindow(now - start, |epochs| - 1);
  }

  lemma DivideWindow(t: nat, k: nat)
    requires WINDOW * k <= t
    ensures k <= t / WINDOW
  {
    assert t == WINDOW * (t / WINDOW) + t % WINDOW;
  }

  /** From the fifth failure of an epoch on, the next recorded failure is at least the lockout
      later. */
  lemma LockoutGap(run: seq<Request>)
    requires FailingRun(run) && |run| >= 1
    requires Recorded(run, |run| - 1)
    requires var e := EntryAfter(run[..|run| - 1]); e.Some? && e.value.count >= 5
    ensures var ts := Failures(run);
            |ts| >= 2 && ts[|ts| - 1] - ts[|ts| - 2] >= LOCKOUT
  {
    var prev := run[..|run| - 1];
    var epochs := EpochsOfRun(prev);
    var last := epochs[|epochs| - 1];
    assert Flat(epochs) == Flat(epochs[..|epochs| - 1]) + last;
    assert Failures(run) == Flat(epochs) + [run[|run| - 1].settled];
  }

  // ----- forgetting stale entries -----

  /** The same service without the deletion. */
  ghost function NextKept(entry: Option<Attempt>, request: Request): Option<Attempt> {
    if RetryAfter(entry, request.asked) > 0 then entry
    else match request.outcome
      case WrongCredentials => Some(AfterFailure(entry, request.settled))
      case BackendFailure => entry
      case SignedIn => None
  }

  ghost function KeptAfter(run: seq<Request>): Option<Attempt> {
    if run == [] then None
    else NextKept(KeptAfter(run[..|run| - 1]), run[|run| - 1])
  }

  /** The two differ at most by an entry that is past both its window and its lockout. */
  ghost predicate SameButStale(a: Option<Attempt>, b: Option<Attempt>, now: nat) {
    a == b || (a.None? && b.Some? && now > b.value.first + WINDOW && b.value.lockedUntil <= now)
  }

  lemma SameAnswer(a: Option<Attempt>, b: Option<Attempt>, now: nat, r: Request)
    requires SameButStale(a, b, now) && now <= r.asked <= r.settled
    ensures Reply(a, r) == Reply(b, r)
    ensures SameButStale(NextEntry(a, r), NextKept(b, r), r.settled)
  {
  }

  lemma {:induction false} KeptDiffersByStale(run: seq<Request>)
    requires Sequential(run)
    ensures SameButStale(EntryAfter(run), KeptAfter(run), Now(run))
  {
    if run != [] {
      var n := |run| - 1;
      KeptDiffersByStale(run[..n]);
      SameAnswer(EntryAfter(run[..n]), KeptAfter(run[..n]), Now(run[..n]), run[n]);
    }
  }

  /** Deleting stale entries changes no answer, after any run whatsoever. */
  lemma DeletionInvisible(run: seq<Request>, next: Request)
    requires Sequential(run + [next])
    ensures Reply(EntryAfter(run), next) == Reply(KeptAfter(run), next)
  {
    var all := run + [next];
    assert forall i | 0 <= i < |run| :: run[i] == all[i];
    assert all[|run|] == next;
    KeptDiffersByStale(run);
    SameAnswer(EntryAfter(run), KeptAfter(run), Now(run), next);
  }
}
