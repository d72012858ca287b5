/** A Windows target as the in-place pipelines see it: the live directory, the backups by name,
    whether the application runs, and the scripts that act on them. */
module Hosts {
  import opened Results
  import opened Lexical
  import opened Stamps

  /** A directory tree by its files; a copy that fails half way may leave any tree. */
  type Files = map<string, string>
  datatype Dir = Absent | Tree(files: Files)

  datatype Command = Stop | Start

  /** issued lists the stop and start scripts handed to the runner, whether or not they worked. */
  datatype State = State(live: Dir, running: bool, backups: map<string, Files>, issued: seq<Command>)

  /** How a stop or start fares: a failing one may leave the application either way. */
  datatype Flip = Flipped | FlipFails(running: bool)

  /** How a mirror copy fares. */
  datatype Copying = Copied | Torn(left: Dir)

  predicate Holds(files: Files) {
    files != map[]
  }

  /** The newest name among the backups that hold a file. */
  ghost predicate IsLatestBackup(backups: map<string, Files>, name: string) {
    && name in backups && Holds(backups[name])
    && forall other | other in backups && Holds(backups[other]) :: !Less(name, other)
  }

  lemma LatestUnique(backups: map<string, Files>, a: string, b: string)
    requires IsLatestBackup(backups, a) && IsLatestBackup(backups, b)
    ensures a == b
  {
    LessTotal(a, b);
  }

  class Machine {
    var live: Dir
    var running: bool
    var backups: map<string, Files>
    ghost var issued: seq<Command>

    constructor (live: Dir, running: bool, backups: map<string, Files>)
      ensures Now() == State(live, running, backups, [])
    {
      this.live, this.running, this.backups, issued := live, running, backups, [];
    }

    ghost function Now(): State
      reads this
    {
      State(live, running, backups, issued)
    }

    method StopApp(fate: Flip) returns (ok: bool)
      modifies this
      ensures ok == fate.Flipped?
      ensures Now() == old(Now()).(running := fate.FlipFails? && fate.running, issued := old(issued) + [Stop])
    {
      issued := issued + [Stop];
      ok := fate.Flipped?;
      running := if ok then false else fate.running;
    }

    method StartApp(fate: Flip) returns (ok: bool)
      modifies this
      ensures ok == fate.Flipped?
      ensures Now() == old(Now()).(running := fate.Flipped? || fate.running, issued := old(issued) + [Start])
    {
      issued := issued + [Start];
      ok := fate.Flipped?;
      running := if ok then true else fate.running;
    }

    /** Makes sure the live directory is there. */
    method EnsureLive(create: bool)
      modifies this`live
      ensures live == if create then Ensured(old(live)) else old(live)
    {
      if create && live.Absent? {
        live := Tree(map[]);
      }
    }

    /** Copies the live directory to a backup named by the time; a failing copy leaves none. */
    method Backup(name: string, works: bool) returns (r: Result<Option<string>, ()>)
      modifies this`backups
      ensures r == if !works then Err(()) else if live.Absent? then Ok(None) else Ok(Some(name))
      ensures backups == if r.Ok? && r.value.Some? then old(backups)[name := live.files] else old(backups)
    {
      if !works {
        return Err(());
      }
      if live.Absent? {
        return Ok(None);
      }
      backups := backups[name := live.files];
      return Ok(Some(name));
    }

    /** Mirrors a directory over the live one. */
    method CopyToLive(src: Dir, fate: Copying) returns (ok: bool)
      modifies this`live
      ensures ok == (src.Tree? && fate.Copied?)
      ensures live == if ok then src else if fate.Torn? then fate.left else Ensured(old(live))
    {
      if fate.Torn? {
        live := fate.left;
        return false;
      }
      if src.Absent? {
        if live.Absent? {
          live := Tree(map[]);
        }
        return false;
      }
      live := src;
      return true;
    }

    /** The newest backup that is not empty. */
    method LatestBackup(works: bool) returns (r: Option<string>)
      ensures r.Some? ==> works && IsLatestBackup(backups, r.value)
      ensures r.None? ==> !works || forall name | name in backups :: !Holds(backups[name])
      // It holds a file and no backup that does is named later; there is none only without one.
      ensures r.Some? ==> works && r.value in backups && backups[r.value] != map[]
                          && forall other | other in backups && backups[other] != map[] :: !Less(r.value, other)
      ensures r.None? ==> !works || forall name | name in backups :: backups[name] == map[]
    {
      r := None;
      if !works {
        return;
      }
      var todo := backups.Keys;
      while todo != {}
        invariant todo <= backups.Keys
        invariant match r
                  case None => forall name | name in backups.Keys - todo :: !Holds(backups[name])
                  case Some(best) =>
                    best in backups && Holds(backups[best]) && NoneNewer(backups, backups.Keys - todo, best)
        decreases todo
      {
        var name :| name in todo;
        if Holds(backups[name]) && (r.None? || Less(r.value, name)) {
          if r.Some? {
            NewerThanAll(backups, r.value, name, backups.Keys - todo);
          }
          NotLess(name);
          r := Some(name);
        }
        todo := todo - {name};
      }
    }
  }

  function Ensured(live: Dir): Dir {
    if live.Absent? then Tree(map[]) else live
  }

  lemma NotLess(a: string)
    ensures !Less(a, a)
  {
    if Less(a, a) {
      LessAntisymmetric(a, a);
    }
  }

  ghost predicate NoneNewer(backups: map<string, Files>, seen: set<string>, best: string)
    requires seen <= backups.Keys
  {
    forall other | other in seen && Holds(backups[other]) :: !Less(best, other)
  }

  lemma NewerThanAll(backups: map<string, Files>, best: string, name: string, seen: set<string>)
    requires Less(best, name) && seen <= backups.Keys
    requires NoneNewer(backups, seen, best)
    ensures NoneNewer(backups, seen, name)
  {
    forall other | other in seen && Holds(backups[other]) ensures !Less(name, other) {
      if Less(name, other) {
        LessTransitive(best, name, other);
      }
    }
  }

  // ----- what an in-place operation may do to the machine -----

  /** Whatever was stopped is started again afterwards. */
  ghost predicate StartsFollowStops(issued: seq<Command>) {
    forall i | 0 <= i < |issued| && issued[i] == Stop :: Start in issued[i..]
  }

  ghost predicate Issued(a: State, b: State) {
    a.issued <= b.issued && StartsFollowStops(b.issued[|a.issued|..])
  }

  /** Whatever an operation issues in the end, its starts follow its stops. */
  lemma IssuedAre(a: State, b: State)
    ensures (|| b.issued == a.issued || b.issued == a.issued + [Start] || b.issued == a.issued + [Stop, Start]
             || b.issued == a.issued + [Stop, Start, Start]) ==> Issued(a, b)
  {
    forall more | b.issued == a.issued + more && more in [[], [Start], [Stop, Start], [Stop, Start, Start]]
      ensures Issued(a, b)
    {
      assert b.issued[|a.issued|..] == more;
      StartsLast(more);
    }
    assert a.issued + [] == a.issued;
  }

  lemma StartsLast(more: seq<Command>)
    requires more == [] || more[|more| - 1] == Start
    ensures StartsFollowStops(more)
  {
    forall i | 0 <= i < |more| ensures Start in more[i..] {
      assert more[i..][|more| - 1 - i] == more[|more| - 1];
    }
  }

  lemma IssuedTogether(before: seq<Command>)
    ensures before + [Stop] + [Start] == before + [Stop, Start]
    ensures before + [Stop] + [Start] + [Start] == before + [Stop, Start, Start]
    ensures before + [Stop] + [] + [Start] == before + [Stop, Start]
    ensures before + [] + [Start] == before + [Start]
  {
  }

  /** Nothing happened but that the live directory may have been created. */
  ghost predicate Untouched(a: State, b: State) {
    b == a.(live := b.live) && (b.live == a.live || b.live == Ensured(a.live))
  }

  /** The build is live and what was live before is the backup of that time. */
  ghost predicate Released(a: State, b: State, source: Dir, name: string) {
    && source.Tree? && b.live == source && Issued(a, b)
    && (a.live.Tree? ==> b.backups == a.backups[name := a.live.files])
  }

  /** The selected backup is live. */
  ghost predicate RolledBack(a: State, b: State, selected: string) {
    && IsLatestBackup(a.backups, selected) && Issued(a, b)
    && b.live == Tree(a.backups[selected]) && b.backups == a.backups
  }

  /** However a deploy ends, it adds at most the backup of its time. */
  ghost predicate BackupsGrow(a: State, b: State, name: string) {
    && (forall other | other in b.backups :: other in a.backups || other == name)
    && (forall other | other in a.backups :: other in b.backups)
    && (forall other | other in a.backups && other != name :: b.backups[other] == a.backups[other])
  }

  // ----- runs of in-place operations -----

  /** What one operation did: a release over an existing directory, a rollback that got as far
      as its selection, or any other deploy or rollback, complete, compensated or torn. */
  datatype Did = DidRelease(at: Moment, source: Dir) | DidRollback(selected: string) | DidOther(at: Moment)

  ghost predicate Step(op: Did, a: State, b: State) {
    match op
    case DidRelease(at, source) => Representable(at) && a.live.Tree? && Released(a, b, source, Stamp(at))
    case DidRollback(selected) => RolledBack(a, b, selected)
    case DidOther(at) => Representable(at) && BackupsGrow(a, b, Stamp(at))
  }

  ghost predicate Behaved(ops: seq<Did>, states: seq<State>) {
    |states| == |ops| + 1 && forall i | 0 <= i < |ops| :: Step(ops[i], states[i], states[i + 1])
  }

  /** The operations' clock never goes back. */
  ghost predicate Timely(ops: seq<Did>) {
    forall i, j | 0 <= i < j < |ops| && Timed(ops[i]) && Timed(ops[j]) :: !Earlier(ops[j].at, ops[i].at)
  }

  predicate Timed(op: Did) {
    op.DidRelease? || op.DidOther?
  }

  /** No backup is named later than the moment. */
  ghost predicate NamedBy(backups: map<string, Files>, now: Moment)
    requires Representable(now)
  {
    forall name | name in backups :: !Less(Stamp(now), name)
  }

  /** Operations before a moment take no backup named later than it. */
  lemma {:induction false} NamesStayBelow(ops: seq<Did>, states: seq<State>, n: nat, now: Moment)
    requires Behaved(ops, states) && n <= |ops| && Representable(now) && NamedBy(states[0].backups, now)
    requires forall i | 0 <= i < n && Timed(ops[i]) :: !Earlier(now, ops[i].at)
    ensures NamedBy(states[n].backups, now)
  {
    if n > 0 {
      NamesStayBelow(ops, states, n - 1, now);
      assert Step(ops[n - 1], states[n - 1], states[n]);
      if Timed(ops[n - 1]) {
        StampOrder(now, ops[n - 1].at);
      }
    }
  }

  /** Right after a release of a directory that held files, its backup is the newest. */
  lemma ReleaseIsLatest(a: State, b: State, source: Dir, at: Moment)
    requires Representable(at) && a.live.Tree? && Holds(a.live.files) && Released(a, b, source, Stamp(at))
    requires NamedBy(a.backups, at)
    ensures IsLatestBackup(b.backups, Stamp(at)) && b.backups[Stamp(at)] == a.live.files
  {
    NotLess(Stamp(at));
  }

  lemma {:induction false} RollbacksKeep(ops: seq<Did>, states: seq<State>, k: nat, n: nat, name: string)
    requires Behaved(ops, states) && k < n <= |ops|
    requires forall i | k <= i < n :: ops[i].DidRollback?
    requires IsLatestBackup(states[k].backups, name)
    ensures states[n].backups == states[k].backups
    ensures states[n].live == Tree(states[k].backups[name])
  {
    assert Step(ops[n - 1], states[n - 1], states[n]);
    if n > k + 1 {
      RollbacksKeep(ops, states, k, n - 1, name);
    }
    LatestUnique(states[n - 1].backups, ops[n - 1].selected, name);
  }

  /** After any history with a clock that never goes back: a release over a directory that
      held files, followed by one or more rollbacks, leaves exactly what was live before it. */
  lemma ReleaseThenRollbacksRestore(ops: seq<Did>, states: seq<State>, k: nat)
    requires Behaved(ops, states) && Timely(ops) && k + 1 < |ops| && ops[k].DidRelease?
    requires forall i | k < i < |ops| :: ops[i].DidRollback?
    requires states[k].live.Tree? && Holds(states[k].live.files)
    requires Representable(ops[k].at) && NamedBy(states[0].backups, ops[k].at)
    ensures states[|ops|].live == states[k].live
  {
    var now := ops[k].at;
    NamesStayBelow(ops, states, k, now);
    assert Step(ops[k], states[k], states[k + 1]);
    ReleaseIsLatest(states[k], states[k + 1], ops[k].source, now);
    RollbacksKeep(ops, states, k + 1, |ops|, Stamp(now));
  }

  // ----- what the pipelines report of an operation -----

  /** A deploy or a rollback: its time, the build, whether it reported success, the backup it
      selected, whether a recovery copy would have worked. */
  datatype Account = Account(at: Moment, source: Dir, deploy: bool, ok: bool, selected: Option<string>, recovers: bool)

  /** The rollback selected a backup and put it back, whether or not it reported success. */
  predicate PutBack(op: Account) {
    !op.deploy && op.selected.Some? && (op.ok || op.recovers)
  }

  function DidOf(op: Account, a: State): Did {
    if op.deploy && op.ok && a.live.Tree? then DidRelease(op.at, op.source)
    else if PutBack(op) then DidRollback(op.selected.value)
    else DidOther(op.at)
  }

  ghost predicate Accounted(ops: seq<Account>, states: seq<State>) {
    |states| == |ops| + 1 && forall i | 0 <= i < |ops| :: Step(DidOf(ops[i], states[i]), states[i], states[i + 1])
  }

  lemma AllDid(ops: seq<Account>, states: seq<State>) returns (did: seq<Did>)
    requires Accounted(ops, states)
    ensures |did| == |ops| && forall i | 0 <= i < |ops| :: did[i] == DidOf(ops[i], states[i])
    ensures Behaved(did, states)
  {
    did := seq(|ops|, i requires 0 <= i < |ops| => DidOf(ops[i], states[i]));
  }

  /** After any history of deploys and rollbacks, failed and torn ones included, with a clock
      that never goes back: a successful deploy over a live directory that held files,
      followed by one or more rollbacks that put their backup back, ends with exactly the
      content from before that deploy. */
  lemma RollbacksRestore(ops: seq<Account>, states: seq<State>, k: nat)
    requires Accounted(ops, states)
    requires forall i, j | 0 <= i < j < |ops| :: !Earlier(ops[j].at, ops[i].at)
    requires k + 1 < |ops| && ops[k].deploy && ops[k].ok
    requires forall i | k < i < |ops| :: PutBack(ops[i])
    requires states[k].live.Tree? && Holds(states[k].live.files)
    requires Representable(ops[k].at) && NamedBy(states[0].backups, ops[k].at)
    ensures states[|ops|].live == states[k].live
  {
    var did := AllDid(ops, states);
    assert DidOf(ops[k], states[k]) == DidRelease(ops[k].at, ops[k].source);
    ReleaseThenRollbacksRestore(did, states, k);
  }
}
