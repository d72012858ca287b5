/** Schema migrations: pending files applied in filename order, each inside one transaction
    together with the record of its version, over any number of runs that may stop anywhere. */
module Migrate {
  import opened Results

  // ----- file names -----

  /** The text before the first underscore, if there is one. */
  function BeforeUnderscore(name: string): Option<string> {
    if name == "" then None
    else if name[0] == '_' then Some("")
    else match BeforeUnderscore(name[1..])
      case None => None
      case Some(s) => Some([name[0]] + s)
  }

  predicate HasSqlSuffix(name: string) {
    |name| >= 4 && name[|name| - 4..] == ".sql"
  }

  function Digits(s: string): Option<nat> {
    if s == "" then Some(0)
    else if '0' <= s[|s| - 1] <= '9' then
      match Digits(s[..|s| - 1])
      case None => None
      case Some(n) => Some(10 * n + (s[|s| - 1] as int - '0' as int))
    else None
  }

  const MAX_INT: int := 0x7fff_ffff_ffff_ffff

  /** strconv.Atoi for a 64-bit int: an optional sign and at least one digit, in range. */
  function Atoi(s: string): Option<int> {
    if s == "" then None
    else
      var signed := s[0] == '+' || s[0] == '-';
      var digits := if signed then s[1..] else s;
      if digits == "" then None
      else
        match Digits(digits)
        case None => None
        case Some(n) =>
          var value: int := if s[0] == '-' then 0 - n else n;
          if -MAX_INT - 1 <= value <= MAX_INT then Some(value) else None
  }

  /** NNNN_description.sql. */
  function Version(name: string): Option<int> {
    match BeforeUnderscore(name)
    case None => None
    case Some(v) => if HasSqlSuffix(name) then Atoi(v) else None
  }

  /** The number before the first underscore of a .sql file. */
  lemma VersionIs(v: string, rest: string)
    requires '_' !in v
    ensures Version(v) == None
    ensures Version(v + "_" + rest) ==
            if |v| + 1 + |rest| >= 4 && (v + "_" + rest)[|v| + 1 + |rest| - 4..] == ".sql" then Atoi(v) else None
  {
    NoUnderscore(v);
    FirstUnderscore(v, rest);
  }

  lemma {:induction false} NoUnderscore(s: string)
    requires '_' !in s
    ensures BeforeUnderscore(s) == None
  {
    if s != "" {
      NoUnderscore(s[1..]);
    }
  }

  lemma {:induction false} FirstUnderscore(v: string, rest: string)
    requires '_' !in v
    ensures BeforeUnderscore(v + "_" + rest) == Some(v)
  {
    var s := v + "_" + rest;
    if v != "" {
      assert s[0] == v[0] && s[1..] == v[1..] + "_" + rest;
      FirstUnderscore(v[1..], rest);
      assert [v[0]] + v[1..] == v;
    } else {
      assert s[0] == '_';
    }
  }

  /** A decimal number in the range of 64 bits, perhaps with a sign. */
  lemma AtoiIs(digits: string)
    requires digits != "" && digits[0] != '+' && digits[0] != '-'
    ensures Atoi("") == None && Atoi("+") == None && Atoi("-") == None
    ensures var n := Digits(digits);
            && Atoi(digits) == (if n.Some? && n.value <= 9_223_372_036_854_775_807 then Some(n.value) else None)
            && Atoi("+" + digits) == Atoi(digits)
            && Atoi("-" + digits) == if n.Some? && n.value <= 9_223_372_036_854_775_808 then Some(0 - n.value) else None
  {
    assert ("+" + digits)[1..] == digits && ("-" + digits)[1..] == digits;
    assert "+"[1..] == "" && "-"[1..] == "";
  }

  lemma DigitsAre(s: string, c: char)
    ensures Digits("") == Some(0)
    ensures Digits(s + [c]) == if Digits(s).Some? && 48 <= c as int <= 57
                               then Some(10 * Digits(s).value + (c as int - 48)) else None
  {
    assert (s + [c])[..|s|] == s;
  }

  // ----- the database -----

  /** Where a run can be stopped while handling one file. A crash can also hit after the
      commit took effect. */
  datatype Fault = NoFault | CheckFails | BeginFails | BodyFails | RecordFails | CommitFails | CrashAfterCommit

  datatype Outcome = AllApplied | BadName(name: string) | Failed(name: string) | TableFailed

  datatype DbState = DbState(committed: seq<string>, recorded: set<int>)

  class Database {
    var committed: seq<string>  // bodies whose transaction committed, in order
    var recorded: set<int>      // versions in schema_migrations

    constructor ()
      ensures committed == [] && recorded == {}
    {
      committed, recorded := [], {};
    }

    ghost function State(): DbState
      reads this
    {
      DbState(committed, recorded)
    }

    /** One run. fault says how the work on each file fares. */
    method Migrate(files: seq<string>, tableFails: bool, fault: nat -> Fault)
        returns (outcome: Outcome, ghost at: nat)
      requires DistinctVersions(files) && Consistent(files, State())
      modifies this
      ensures Ran(files, old(State()), State(), outcome)
      ensures outcome.Failed? ==> exists i :: 0 <= i < |files| && files[i] == outcome.name && fault(i) != NoFault
      ensures outcome == TableFailed <==> tableFails
      ensures !tableFails && (forall i | 0 <= i < |files| :: fault(i) == NoFault && Version(files[i]).Some?) ==>
          outcome == AllApplied
      // The run gets to the file at at: up to there names are good and what is not committed yet is
      // committed; a bad name or a failure stops it, a failure that comes after the commit too.
      ensures at <= |files|
      ensures forall k | 0 <= k < at ::
                Version(files[k]).Some? && fault(k) != CheckFails && (k >= |old(committed)| ==> fault(k) == NoFault)
      ensures outcome == if tableFails then TableFailed
                         else if at == |files| then AllApplied
                         else if Version(files[at]).None? then BadName(files[at])
                         else Failed(files[at])
      ensures !tableFails && at < |files| && Version(files[at]).Some? ==>
                fault(at) == CheckFails || (at >= |old(committed)| && fault(at) != NoFault)
      ensures |committed| == if tableFails || at < |old(committed)| then |old(committed)|
                             else if at < |files| && Version(files[at]).Some? && fault(at) == CrashAfterCommit
                             then at + 1 else at
    {
      if tableFails {
        return TableFailed, 0;
      }
      ghost var before := State();
      var stop;
      stop, at := ApplyFiles(files, fault);
      outcome := if stop.Some? then stop.value else AllApplied;
      PassedGood(files, fault, |before.committed|, at);
    }

    /** The files one after the other, up to the first that stops the run. */
    method ApplyFiles(files: seq<string>, fault: nat -> Fault) returns (stop: Option<Outcome>, ghost at: nat)
      requires DistinctVersions(files) && Consistent(files, State())
      modifies this
      ensures Consistent(files, State()) && old(committed) <= committed && old(recorded) <= recorded
      ensures at <= |files| && Passed(files, fault, |old(committed)|, at)
      ensures stop.None? ==> at == |files| && |committed| == |files|
      ensures stop.Some? ==> at < |files| && StopsAt(files, fault(at), |old(committed)|, at, stop.value, |committed|)
    {
      ghost var base := |committed|;
      for i := 0 to |files|
        invariant Consistent(files, State())
        invariant old(committed) <= committed && old(recorded) <= recorded
        invariant |committed| == if i < base then base else i
        invariant Passed(files, fault, base, i)
      {
        stop := ApplyNext(files, i, fault(i), base);
        if stop.Some? {
          return stop, i;
        }
        PassedOne(files, fault, base, i);
      }
      return None, |files|;
    }

    /** The next file, with everything before it applied already. */
    method ApplyNext(files: seq<string>, i: nat, fault: Fault, ghost base: nat) returns (stop: Option<Outcome>)
      requires DistinctVersions(files) && Consistent(files, State())
      requires i < |files| && |committed| == if i < base then base else i
      modifies this
      ensures Consistent(files, State()) && old(committed) <= committed && old(recorded) <= recorded
      ensures stop.Some? ==> StopsAt(files, fault, base, i, stop.value, |committed|)
      ensures stop.None? ==> |committed| == if i + 1 < base then base else i + 1
      ensures stop.None? ==> Version(files[i]).Some? && fault != CheckFails && (i >= base ==> fault == NoFault)
    {
      stop := ApplyFile(files, i, fault);
    }

    /** The transaction of one file. */
    method Commit(name: string, version: int, ghost files: seq<string>, ghost i: nat)
      requires Consistent(files, State()) && i == |committed| < |files| && files[i] == name
          && Version(name) == Some(version)
      modifies this
      ensures Consistent(files, State())
      ensures committed == old(committed) + [name] && recorded == old(recorded) + {version}
    {
      CommitKeepsConsistent(files, State(), i);
      committed := committed + [name];
      recorded := recorded + {version};
    }

    /** The work on one file, everything before it being applied already. */
    method ApplyFile(files: seq<string>, i: nat, fault: Fault) returns (stop: Option<Outcome>)
      requires DistinctVersions(files) && Consistent(files, State())
      requires i < |files| && i <= |committed|
      modifies this
      ensures Consistent(files, State()) && old(recorded) <= recorded
      ensures committed == if i < old(|committed|) || (stop.Some? && fault != CrashAfterCommit)
          || Version(files[i]).None? then old(committed)
                           else old(committed) + [files[i]]
      ensures stop.None? || stop == Some(Failed(files[i])) || stop == Some(BadName(files[i]))
      ensures stop == Some(BadName(files[i])) <==> Version(files[i]).None?
      ensures stop == Some(Failed(files[i])) <==>
                Version(files[i]).Some? && (fault == CheckFails || (i == |old(committed)| && fault != NoFault))
    {
      var name := files[i];
      var version := Version(name);
      if version.None? {
        NamesBelowAreGood(files, State(), i);
        return Some(BadName(name));
      }
      if fault == CheckFails {
        return Some(Failed(name));
      }
      RecordedIffCommitted(files, State(), i);
      if version.value in recorded {
        return None;
      }
      // The body and its record commit together or not at all.
      if fault == BeginFails || fault == BodyFails || fault == RecordFails || fault == CommitFails {
        return Some(Failed(name));
      }
      Commit(name, version.value, files, i);
      return if fault == CrashAfterCommit then Some(Failed(name)) else None;
    }
  }

  ghost predicate DistinctVersions(files: seq<string>) {
    forall i, j | 0 <= i < j < |files| && Version(files[i]).Some? :: Version(files[i]) != Version(files[j])
  }

  /** The committed bodies are a prefix of the file list, and exactly their versions are
      recorded. */
  ghost predicate Consistent(files: seq<string>, db: DbState) {
    && db.committed <= files
    && (forall i | 0 <= i < |db.committed| :: Version(files[i]).Some? && Version(files[i]).value in db.recorded)
    && (forall v | v in db.recorded :: exists i :: 0 <= i < |db.committed| && Version(files[i]) == Some(v))
  }

  lemma ConsistentIs(files: seq<string>, db: DbState)
    ensures Consistent(files, db) <==>
            && |db.committed| <= |files| && (forall i | 0 <= i < |db.committed| :: db.committed[i] == files[i])
            && (forall i | 0 <= i < |db.committed| :: Version(files[i]).Some? && Version(files[i]).value in db.recorded)
            && (forall v | v in db.recorded :: exists i :: 0 <= i < |db.committed| && Version(files[i]) == Some(v))
  {
  }

  /** What one run leaves behind, by how it ended. */
  ghost predicate Ran(files: seq<string>, before: DbState, after: DbState, outcome: Outcome) {
    && Consistent(files, after)
    && before.committed <= after.committed && before.recorded <= after.recorded
    && match outcome
       case AllApplied => after.committed == files
       case BadName(name) => Version(name) == None && exists i :: |after.committed| <= i < |files| && files[i] == name
       case Failed(_) => true
       case TableFailed => after == before
  }

  /** The first n files had good names, and what was not committed yet went through. */
  ghost predicate Passed(files: seq<string>, fault: nat -> Fault, base: nat, n: nat)
    requires n <= |files|
  {
    forall k | 0 <= k < n :: Version(files[k]).Some? && fault(k) != CheckFails && (k >= base ==> fault(k) == NoFault)
  }

  lemma PassedOne(files: seq<string>, fault: nat -> Fault, base: nat, n: nat)
    requires n < |files| && Passed(files, fault, base, n)
    requires Version(files[n]).Some? && fault(n) != CheckFails && (n >= base ==> fault(n) == NoFault)
    ensures Passed(files, fault, base, n + 1)
  {
  }

  /** The file i stopped the run, with this many bodies committed. */
  ghost predicate StopsAt(files: seq<string>, fault: Fault, base: nat, i: nat, outcome: Outcome, committed: nat)
    requires i < |files|
  {
    && outcome == (if Version(files[i]).None? then BadName(files[i]) else Failed(files[i]))
    && (Version(files[i]).Some? ==> fault == CheckFails || (i >= base && fault != NoFault))
    && committed == if i < base then base
                    else if Version(files[i]).Some? && fault == CrashAfterCommit then i + 1 else i
  }

  lemma PassedGood(files: seq<string>, fault: nat -> Fault, base: nat, n: nat)
    requires n <= |files| && Passed(files, fault, base, n)
    ensures forall k | 0 <= k < n ::
              Version(files[k]).Some? && fault(k) != CheckFails && (k >= base ==> fault(k) == NoFault)
  {
  }

  lemma RecordedIffCommitted(files: seq<string>, db: DbState, i: nat)
    requires DistinctVersions(files) && Consistent(files, db)
    requires i < |files| && Version(files[i]).Some?
    ensures Version(files[i]).value in db.recorded <==> i < |db.committed|
  {
  }

  lemma NamesBelowAreGood(files: seq<string>, db: DbState, i: nat)
    requires Consistent(files, db) && i < |files| && Version(files[i]).None?
    ensures |db.committed| <= i
  {
  }

  lemma CommitKeepsConsistent(files: seq<string>, db: DbState, i: nat)
    requires Consistent(files, db) && i == |db.committed| < |files| && Version(files[i]).Some?
    ensures Consistent(files, DbState(db.committed + [files[i]], db.recorded + {Version(files[i]).value}))
  {
    var committed := db.committed + [files[i]];
    assert committed == files[..i + 1];
    assert Version(files[i]) == Some(Version(files[i]).value);
  }

  // ----- many runs -----

  /** Over any number of runs, each stopped anywhere, the committed bodies only grow along the
      file list, exactly their versions are recorded, and once a run has reported success
      everything is and stays applied. */
  lemma {:induction false} RunsCommitInOrder(files: seq<string>, states: seq<DbState>, outcomes: seq<Outcome>,
                                             i: nat, n: nat)
    requires DistinctVersions(files) && |states| == |outcomes| + 1 && i <= n < |states|
    requires states[0] == DbState([], {})
    requires forall k | 0 <= k < |outcomes| :: Ran(files, states[k], states[k + 1], outcomes[k])
    ensures Consistent(files, states[n]) && states[i].committed <= states[n].committed
    ensures i > 0 && outcomes[i - 1] == AllApplied ==> states[n].committed == files
  {
    if n == i {
      if i > 0 {
        RanGrows(files, states[i - 1], states[i], outcomes[i - 1]);
      }
    } else {
      RunsCommitInOrder(files, states, outcomes, i, n - 1);
      RanGrows(files, states[n - 1], states[n], outcomes[n - 1]);
      PrefixTransitive(states[i].committed, states[n - 1].committed, states[n].committed);
      if i > 0 && outcomes[i - 1] == AllApplied {
        PrefixTransitive(files, states[n].committed, files);
      }
    }
  }

  lemma RanGrows(files: seq<string>, before: DbState, after: DbState, outcome: Outcome)
    requires Ran(files, before, after, outcome)
    ensures Consistent(files, after) && after.committed <= files && before.committed <= after.committed
    ensures outcome == AllApplied ==> after.committed == files
  {
  }

  lemma PrefixTransitive(a: seq<string>, b: seq<string>, c: seq<string>)
    requires a <= b <= c
    ensures a <= c
    ensures a == c ==> b == c
  {
  }

  /** No body is committed twice. */
  lemma CommittedAtMostOnce(files: seq<string>, db: DbState, i: nat, j: nat)
    requires DistinctVersions(files) && Consistent(files, db)
    requires i < j < |db.committed|
    ensures db.committed[i] != db.committed[j] && Version(db.committed[i]) != Version(db.committed[j])
  {
    assert db.committed[i] == files[i] && db.committed[j] == files[j];
  }
}
