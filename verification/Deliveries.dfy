/** Webhook replay suppression: recording a delivery, starting a deployment and releasing the
    reservation when that fails. Clock readings are nanoseconds; rows keep whole seconds. */
module Deliveries {
  import opened Results

  const SECOND: nat := 1_000_000_000
  const REPLAY_SECONDS: nat := 10 * 60
  const RETENTION_SECONDS: nat := 30 * 24 * 60 * 60

  function Unix(t: nat): nat {
    t / SECOND
  }

  datatype Key = Key(provider: string, project: string, delivery: string)

  datatype Row = Row(commit: string, receivedAt: nat)

  // ----- the table -----

  /** A row is no longer in the way once it is older than the replay window. */
  predicate Expired(row: Row, now: nat) {
    row.receivedAt + REPLAY_SECONDS < Unix(now)
  }

  /** The retention purge. */
  function Purged(rows: map<Key, Row>, now: nat): map<Key, Row> {
    map k | k in rows && rows[k].receivedAt + RETENTION_SECONDS >= Unix(now) :: rows[k]
  }

  predicate Accepts(rows: map<Key, Row>, key: Key, now: nat) {
    key !in rows || Expired(rows[key], now)
  }

  /** How the statements of one recording fare. */
  datatype Fault = NoFault | PurgeFails | RecordFails | PurgeAndRecordFail

  class Store {
    var deliveries: map<Key, Row>

    constructor ()
      ensures deliveries == map[]
    {
      deliveries := map[];
    }

    /** Accepts a delivery exactly when no row for it is left inside the replay window, and
        then the row carries the new time. */
    method RecordWebhookDelivery(key: Key, commit: string, now: nat, fault: Fault) returns (r: Result<bool, ()>)
      modifies this
      ensures r == Recording(old(deliveries), key, now, fault)
      ensures deliveries == AfterRecording(old(deliveries), key, commit, now, fault)
      // A row stands in the way for 600 seconds.
      ensures r == if fault.RecordFails? || fault.PurgeAndRecordFail? then Err(())
                   else Ok(key !in old(deliveries)
                           || old(deliveries)[key].receivedAt + 600 < now / 1_000_000_000)
      // Rows are kept for thirty days unless the purge fails, and only an accepted one is written.
      ensures forall k :: k in deliveries <==>
                (r == Ok(true) && k == key)
                || (k in old(deliveries)
                    && (fault.PurgeFails? || fault.PurgeAndRecordFail?
                        || old(deliveries)[k].receivedAt + 30 * 24 * 60 * 60 >= now / 1_000_000_000))
      ensures forall k | k in deliveries ::
                deliveries[k] == if r == Ok(true) && k == key then Row(commit, now / 1_000_000_000)
                                 else old(deliveries)[k]
    {
      if !fault.PurgeFails? && !fault.PurgeAndRecordFail? {
        deliveries := Purged(deliveries, now);
      }
      if fault.RecordFails? || fault.PurgeAndRecordFail? {
        return Err(());
      }
      if key in deliveries && !(deliveries[key].receivedAt + REPLAY_SECONDS < Unix(now)) {
        return Ok(false);
      }
      deliveries := deliveries[key := Row(commit, Unix(now))];
      return Ok(true);
    }

    /** Releases a reservation; a failing statement leaves it in place. */
    method DeleteWebhookDelivery(key: Key, works: bool)
      modifies this
      ensures deliveries == if works then old(deliveries) - {key} else old(deliveries)
    {
      if works {
        deliveries := deliveries - {key};
      }
    }

    /** The handler from recording to release. */
    method HandleWebhook(r: Request) returns (answer: Answer)
      modifies this
      ensures answer == Respond(old(deliveries), r)
      ensures deliveries == Next(old(deliveries), r)
      // A failed recording, a row within 600 seconds, and then how the start went.
      ensures answer == if r.fault.RecordFails? || r.fault.PurgeAndRecordFail? then RecordError
                        else if r.key in old(deliveries)
                             && r.now / 1_000_000_000 <= old(deliveries)[r.key].receivedAt + 600
                        then Duplicate
                        else if r.trigger.Started? then Accepted
                        else if r.trigger.InProgress? then Conflict
                        else StartError
      // A row is left behind exactly where the start worked or its release did not; the other rows
      // are kept for thirty days unless the purge fails.
      ensures var passed := answer == Accepted || answer == Conflict || answer == StartError;
              && (forall k :: k in deliveries <==>
                    if k == r.key && passed then answer == Accepted || !r.releaseWorks
                    else k in old(deliveries)
                         && (r.fault.PurgeFails? || r.fault.PurgeAndRecordFail?
                             || old(deliveries)[k].receivedAt + 30 * 24 * 60 * 60 >= r.now / 1_000_000_000))
              && (forall k | k in deliveries ::
                    deliveries[k] == if k == r.key && passed then Row(r.commit, r.now / 1_000_000_000)
                                     else old(deliveries)[k])
    {
      var accepted := RecordWebhookDelivery(r.key, r.commit, r.now, r.fault);
      if accepted.Err? {
        return RecordError;
      }
      if !accepted.value {
        return Duplicate;
      }
      match r.trigger {
        case Started =>
          return Accepted;
        case InProgress =>
          DeleteWebhookDelivery(r.key, r.releaseWorks);
          return Conflict;
        case TriggerFails =>
          DeleteWebhookDelivery(r.key, r.releaseWorks);
          return StartError;
      }
    }
  }

  function Kept(rows: map<Key, Row>, now: nat, fault: Fault): map<Key, Row> {
    if fault.PurgeFails? || fault.PurgeAndRecordFail? then rows else Purged(rows, now)
  }

  function Recording(rows: map<Key, Row>, key: Key, now: nat, fault: Fault): Result<bool, ()> {
    if fault.RecordFails? || fault.PurgeAndRecordFail? then Err(()) else Ok(Accepts(Kept(rows, now, fault), key, now))
  }

  function AfterRecording(rows: map<Key, Row>, key: Key, commit: string, now: nat, fault: Fault): map<Key, Row> {
    var kept := Kept(rows, now, fault);
    if Recording(rows, key, now, fault) == Ok(true) then kept[key := Row(commit, Unix(now))] else kept
  }

  // ----- the handler -----

  datatype Trigger = Started | InProgress | TriggerFails

  /** A push that passed verification, the clock when it is recorded, and how its statements
      and the start of the deployment fare. */
  datatype Request = Request(key: Key, commit: string, now: nat, fault: Fault, trigger: Trigger, releaseWorks: bool)

  datatype Answer = Accepted | Duplicate | Conflict | StartError | RecordError

  function Respond(rows: map<Key, Row>, r: Request): Answer {
    match Recording(rows, r.key, r.now, r.fault)
    case Err(_) => RecordError
    case Ok(false) => Duplicate
    case Ok(true) =>
      match r.trigger
      case Started => Accepted
      case InProgress => Conflict
      case TriggerFails => StartError
  }

  function Next(rows: map<Key, Row>, r: Request): map<Key, Row> {
    var recorded := AfterRecording(rows, r.key, r.commit, r.now, r.fault);
    var answer := Respond(rows, r);
    if (answer.Conflict? || answer.StartError?) && r.releaseWorks then recorded - {r.key} else recorded
  }

  // ----- runs -----

  ghost predicate Ordered(run: seq<Request>) {
    forall i, j | 0 <= i < j < |run| :: run[i].now <= run[j].now
  }

  ghost function TableAfter(run: seq<Request>): map<Key, Row> {
    if run == [] then map[]
    else Next(TableAfter(run[..|run| - 1]), run[|run| - 1])
  }

  ghost function AnswerAt(run: seq<Request>, i: nat): Answer
    requires i < |run|
  {
    Respond(TableAfter(run[..i]), run[i])
  }

  /** The request got past replay suppression. */
  ghost predicate PassedAt(run: seq<Request>, i: nat)
    requires i < |run|
  {
    var a := AnswerAt(run, i);
    a == Accepted || a == Conflict || a == StartError
  }

  /** The request got through and nothing released its reservation: it started a deployment, or
      its start failed and the release failed too. */
  ghost predicate HeldAt(run: seq<Request>, i: nat)
    requires i < |run|
  {
    PassedAt(run, i) && (AnswerAt(run, i) == Accepted || !run[i].releaseWorks)
  }

  /** After a delivery was let through at time t and not released, its row still stands in the
      way until the replay window is over. */
  ghost predicate Blocked(rows: map<Key, Row>, key: Key, t: nat, now: nat) {
    Unix(t) + REPLAY_SECONDS < Unix(now) || (key in rows && rows[key].receivedAt >= Unix(t))
  }

  lemma StaysBlocked(rows: map<Key, Row>, key: Key, t: nat, now: nat, r: Request)
    requires Blocked(rows, key, t, now) && t <= now <= r.now
    ensures Blocked(Next(rows, r), key, t, r.now)
  {
    assert Unix(now) <= Unix(r.now) && Unix(t) <= Unix(r.now);
  }

  lemma {:induction false} BlockedUntil(run: seq<Request>, i: nat, n: nat)
    requires Ordered(run) && i < n <= |run| && HeldAt(run, i)
    ensures Blocked(TableAfter(run[..n]), run[i].key, run[i].now, run[n - 1].now)
  {
    assert run[..n][..n - 1] == run[..n - 1];
    if n == i + 1 {
      assert run[..n][n - 1] == run[i];
    } else {
      BlockedUntil(run, i, n - 1);
      StaysBlocked(TableAfter(run[..n - 1]), run[i].key, run[i].now, run[n - 2].now, run[n - 1]);
    }
  }

  /** A delivery that was let through and not released is not let through again for more than
      ten minutes, whatever happens in between, purges and other releases included. */
  lemma ReplaySuppressed(run: seq<Request>, i: nat, j: nat)
    requires Ordered(run) && i < j < |run| && run[i].key == run[j].key
    requires HeldAt(run, i) && PassedAt(run, j)
    ensures run[j].now - run[i].now > REPLAY_SECONDS * SECOND
  {
    BlockedUntil(run, i, j);
    var rows := TableAfter(run[..j]);
    assert Unix(run[j - 1].now) <= Unix(run[j].now);
    assert Unix(run[i].now) + REPLAY_SECONDS < Unix(run[j].now);
    SecondsApart(run[i].now, run[j].now);
  }

  /** A delivery whose start failed but whose reservation could not be released is lost to its
      retries: for ten minutes each of them is answered as a duplicate. */
  lemma StuckReservation(run: seq<Request>, i: nat, j: nat)
    requires Ordered(run) && i < j < |run| && run[i].key == run[j].key
    requires PassedAt(run, i) && AnswerAt(run, i) != Accepted && !run[i].releaseWorks
    requires run[j].now - run[i].now <= REPLAY_SECONDS * SECOND && AnswerAt(run, j) != RecordError
    ensures AnswerAt(run, j) == Duplicate
  {
    if PassedAt(run, j) {
      ReplaySuppressed(run, i, j);
    }
  }

  lemma SecondsApart(a: nat, b: nat)
    requires Unix(a) + REPLAY_SECONDS < Unix(b)
    ensures b - a > REPLAY_SECONDS * SECOND
  {
    assert a == SECOND * Unix(a) + a % SECOND;
    assert b == SECOND * Unix(b) + b % SECOND;
  }

  /** A request of another key, or one that could not be recorded, adds no row for the key. */
  lemma OthersKeepOut(rows: map<Key, Row>, r: Request, key: Key)
    requires key !in rows && (r.key == key ==> Respond(rows, r) == RecordError)
    ensures key !in Next(rows, r)
  {
  }

  /** Between the two no request of the key got as far as being recorded. */
  ghost predicate NoneRecordedBetween(run: seq<Request>, i: nat, j: nat)
    requires i < j <= |run|
  {
    forall k | i < k < j && run[k].key == run[i].key :: AnswerAt(run, k) == RecordError
  }

  lemma {:induction false} StaysReleased(run: seq<Request>, i: nat, n: nat)
    requires i < n <= |run| && run[i].key !in TableAfter(run[..i + 1]) && NoneRecordedBetween(run, i, n)
    ensures run[i].key !in TableAfter(run[..n])
  {
    if n > i + 1 {
      assert run[..n][..n - 1] == run[..n - 1];
      StaysReleased(run, i, n - 1);
      OthersKeepOut(TableAfter(run[..n - 1]), run[n - 1], run[i].key);
    }
  }

  /** A delivery whose deployment could not be started and whose reservation was released is
      let through on its next retry that can be recorded, however soon. */
  lemma RetryAccepted(run: seq<Request>, i: nat, j: nat)
    requires i < j < |run| && run[i].key == run[j].key && NoneRecordedBetween(run, i, j)
    requires PassedAt(run, i) && AnswerAt(run, i) != Accepted && run[i].releaseWorks
    requires AnswerAt(run, j) != RecordError
    ensures PassedAt(run, j)
  {
    assert run[..i + 1][..i] == run[..i] && run[..i + 1][i] == run[i];
    StaysReleased(run, i, j);
  }

  // ----- the purge -----

  /** The handler over a table that is never purged. */
  ghost function NextUnpurged(rows: map<Key, Row>, r: Request): map<Key, Row> {
    Next(rows, Unpurging(r))
  }

  /** The same request with its purge failing. */
  function Unpurging(r: Request): Request {
    r.(fault := if r.fault.RecordFails? || r.fault.PurgeAndRecordFail? then PurgeAndRecordFail else PurgeFails)
  }

  ghost function UnpurgedAfter(run: seq<Request>): map<Key, Row> {
    if run == [] then map[]
    else NextUnpurged(UnpurgedAfter(run[..|run| - 1]), run[|run| - 1])
  }

  /** rows is all with some rows missing that expired long ago. */
  ghost predicate SameButOld(rows: map<Key, Row>, all: map<Key, Row>, now: nat) {
    && (forall k | k in rows :: k in all && all[k] == rows[k])
    && (forall k | k in all && k !in rows :: all[k].receivedAt + RETENTION_SECONDS < Unix(now))
  }

  lemma PurgeKeeps(rows: map<Key, Row>, all: map<Key, Row>, now: nat, later: nat, fault: Fault)
    requires SameButOld(rows, all, now) && Unix(now) <= Unix(later)
    ensures SameButOld(Kept(rows, later, fault), all, later)
  {
  }

  lemma SameRecording(rows: map<Key, Row>, all: map<Key, Row>, r: Request)
    requires SameButOld(Kept(rows, r.now, r.fault), all, r.now)
    ensures Recording(rows, r.key, r.now, r.fault) == Recording(all, r.key, r.now, r.fault)
    ensures Respond(rows, r) == Respond(all, r)
  {
    var kept := Kept(rows, r.now, r.fault);
    assert Accepts(kept, r.key, r.now) == Accepts(all, r.key, r.now);
    assert Accepts(Kept(all, r.now, r.fault), r.key, r.now) == Accepts(all, r.key, r.now);
  }

  lemma PurgeStep(rows: map<Key, Row>, all: map<Key, Row>, now: nat, r: Request)
    requires SameButOld(rows, all, now) && now <= r.now
    ensures Respond(rows, r) == Respond(all, r)
    ensures SameButOld(Next(rows, r), NextUnpurged(all, r), r.now)
  {
    assert Unix(now) <= Unix(r.now);
    PurgeKeeps(rows, all, now, r.now, r.fault);
    SameRecording(rows, all, r);
    var kept := Kept(rows, r.now, r.fault);
    var q := Unpurging(r);
    SameRecording(kept, all, q) by {
      assert Kept(kept, q.now, q.fault) == kept;
    }
    OneMoreRow(kept, all, r.key, Row(r.commit, Unix(r.now)), r.now);
    OneRowLess(kept, all, r.key, r.now);
  }

  lemma OneMoreRow(rows: map<Key, Row>, all: map<Key, Row>, key: Key, row: Row, now: nat)
    requires SameButOld(rows, all, now)
    ensures SameButOld(rows[key := row], all[key := row], now)
    ensures SameButOld(rows[key := row] - {key}, all[key := row] - {key}, now)
  {
  }

  lemma OneRowLess(rows: map<Key, Row>, all: map<Key, Row>, key: Key, now: nat)
    requires SameButOld(rows, all, now)
    ensures SameButOld(rows - {key}, all - {key}, now)
  {
  }

  lemma {:induction false} PurgeHarmless(run: seq<Request>)
    requires Ordered(run)
    ensures SameButOld(TableAfter(run), UnpurgedAfter(run), if run == [] then 0 else run[|run| - 1].now)
  {
    if run != [] {
      var n := |run| - 1;
      PurgeHarmless(run[..n]);
      PurgeStep(TableAfter(run[..n]), UnpurgedAfter(run[..n]), if n == 0 then 0 else run[n - 1].now, run[n]);
    }
  }

  /** The thirty-day purge changes no answer, after any run whatsoever. */
  lemma PurgeInvisible(run: seq<Request>, i: nat)
    requires Ordered(run) && i < |run|
    ensures AnswerAt(run, i) == Respond(UnpurgedAfter(run[..i]), run[i])
  {
    PurgeHarmless(run[..i]);
    PurgeStep(TableAfter(run[..i]), UnpurgedAfter(run[..i]), if i == 0 then 0 else run[i - 1].now, run[i]);
  }

  /** A first delivery whose start and release fail, and its retry a second later. */
  lemma StuckReservationHappens(key: Key, commit: string, now: nat)
    ensures var lost := Request(key, commit, now, NoFault, TriggerFails, false);
            var retry := Request(key, commit, now + SECOND, NoFault, Started, true);
            var run := [lost, retry];
            Ordered(run) && AnswerAt(run, 0) == StartError && AnswerAt(run, 1) == Duplicate
  {
    var lost := Request(key, commit, now, NoFault, TriggerFails, false);
    var retry := Request(key, commit, now + SECOND, NoFault, Started, true);
    var run := [lost, retry];
    assert run[..0] == [] && run[..1] == [lost] && [lost][..0] == [];
    assert TableAfter([lost]) == Next(map[], lost);
    StuckReservation(run, 0, 1);
  }
}
