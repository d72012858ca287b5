/** Expansion of {{project.KEY}} and {{environment.KEY}} references in environment values. */
module SharedVars {
  import opened EnvRules
  import opened Results
  import T = Text

  // ----- what a reference is -----

  /** The bytes the pattern's \s accepts. */
  predicate IsBlank(c: char) {
    c == ' ' || c == '\t' || c == '\n' || c == '\r' || c == '\U{0C}'
  }

  predicate IsNameChar(c: char) {
    'a' <= c <= 'z' || 'A' <= c <= 'Z' || '0' <= c <= '9' || c == '_' || c == '.' || c == '-'
  }

  ghost predicate Blanks(v: string, lo: nat, hi: nat)
    requires hi <= |v|
  {
    forall i | lo <= i < hi :: IsBlank(v[i])
  }

  ghost predicate NameChars(v: string, lo: nat, hi: nat)
    requires hi <= |v|
  {
    forall i | lo <= i < hi :: IsNameChar(v[i])
  }

  /** v[b..e] is two opening braces, blanks up to x, the name up to y, blanks up to z and two
      closing braces. */
  ghost predicate ReferenceParts(v: string, b: nat, x: nat, y: nat, z: nat, e: nat, name: string) {
    && b + 2 <= x < y <= z && z + 2 == e <= |v|
    && v[b] == '{' && v[b + 1] == '{' && v[z] == '}' && v[z + 1] == '}'
    && Blanks(v, b + 2, x) && NameChars(v, x, y) && Blanks(v, y, z)
    && name == v[x..y]
  }

  /** v[b..e] is a reference to name. */
  ghost predicate IsReference(v: string, b: nat, e: nat, name: string) {
    exists x: nat, y: nat, z: nat :: ReferenceParts(v, b, x, y, z, e, name)
  }

  /** Two opening braces, any of the five blanks, one or more letters, digits, underscores, dots and
      hyphens, any of the blanks, two closing braces. */
  lemma ReferenceIs(v: string, b: nat, e: nat, name: string)
    ensures IsReference(v, b, e, name) <==>
            exists x: nat, y: nat ::
              && b + 2 <= x < y && y + 2 <= e <= |v| && name == v[x..y]
              && v[b] == '{' && v[b + 1] == '{' && v[e - 2] == '}' && v[e - 1] == '}'
              && (forall i | b + 2 <= i < x || y <= i < e - 2 ::
                    v[i] == ' ' || 9 <= v[i] as int <= 10 || 12 <= v[i] as int <= 13)
              && (forall i | x <= i < y ::
                    || 97 <= v[i] as int <= 122 || 65 <= v[i] as int <= 90 || 48 <= v[i] as int <= 57
                    || v[i] == '_' || v[i] == '.' || v[i] == '-')
  {
    assert forall i | 0 <= i < |v| ::
      IsBlank(v[i]) <==> v[i] == ' ' || 9 <= v[i] as int <= 10 || 12 <= v[i] as int <= 13;
    assert forall i | 0 <= i < |v| ::
      IsNameChar(v[i]) <==> || 97 <= v[i] as int <= 122 || 65 <= v[i] as int <= 90 || 48 <= v[i] as int <= 57
                            || v[i] == '_' || v[i] == '.' || v[i] == '-';
    if IsReference(v, b, e, name) {
      var x: nat, y: nat, z: nat :| ReferenceParts(v, b, x, y, z, e, name);
      assert z == e - 2 && name == v[x..y];
    }
    forall x: nat, y: nat |
      && b + 2 <= x < y && y + 2 <= e <= |v| && name == v[x..y]
      && v[b] == '{' && v[b + 1] == '{' && v[e - 2] == '}' && v[e - 1] == '}'
      && (forall i | b + 2 <= i < x || y <= i < e - 2 :: IsBlank(v[i]))
      && (forall i | x <= i < y :: IsNameChar(v[i]))
      ensures ReferenceParts(v, b, x, y, e - 2, e, name)
    {
    }
  }

  datatype Ref = Ref(start: nat, end: nat, name: string)

  /** refs are the references of v from position at on, taken leftmost first without overlap:
      none begins in any gap between them. */
  ghost predicate IsScan(v: string, at: nat, refs: seq<Ref>)
    decreases |refs|
  {
    if refs == [] then
      forall i, e, n | at <= i :: !IsReference(v, i, e, n)
    else
      && at <= refs[0].start
      && IsReference(v, refs[0].start, refs[0].end, refs[0].name)
      && (forall i, e, n | at <= i < refs[0].start :: !IsReference(v, i, e, n))
      && IsScan(v, refs[0].end, refs[1..])
  }

  ghost predicate Within(v: string, at: nat, refs: seq<Ref>)
    decreases |refs|
  {
    refs == [] ||
    (at <= refs[0].start <= refs[0].end <= |v| && Within(v, refs[0].end, refs[1..]))
  }

  /** The value with every known reference replaced and all other bytes kept in order.
      Replacements are not looked at again. */
  ghost function Filled(v: string, at: nat, refs: seq<Ref>, vars: map<string, string>): string
    requires at <= |v| && Within(v, at, refs)
    decreases |refs|
  {
    if refs == [] then v[at..]
    else
      var r := refs[0];
      v[at..r.start] + (if r.name in vars then vars[r.name] else v[r.start..r.end]) +
      Filled(v, r.end, refs[1..], vars)
  }

  ghost predicate Known(refs: seq<Ref>, vars: map<string, string>) {
    forall i | 0 <= i < |refs| :: refs[i].name in vars
  }

  // ----- the matcher -----

  function SkipBlanks(v: string, i: nat): (j: nat)
    requires i <= |v|
    ensures i <= j <= |v|
    ensures Blanks(v, i, j)
    ensures j < |v| ==> !IsBlank(v[j])
    decreases |v| - i
  {
    if i < |v| && IsBlank(v[i]) then SkipBlanks(v, i + 1) else i
  }

  function SkipName(v: string, i: nat): (j: nat)
    requires i <= |v|
    ensures i <= j <= |v|
    ensures NameChars(v, i, j)
    ensures j < |v| ==> !IsNameChar(v[j])
    decreases |v| - i
  {
    if i < |v| && IsNameChar(v[i]) then SkipName(v, i + 1) else i
  }

  /** The reference that begins exactly at i, if any. */
  function MatchAt(v: string, i: nat): Option<Ref> {
    if i + 2 <= |v| && v[i] == '{' && v[i + 1] == '{' then
      var x := SkipBlanks(v, i + 2);
      var y := SkipName(v, x);
      var z := SkipBlanks(v, y);
      if x < y && z + 2 <= |v| && v[z] == '}' && v[z + 1] == '}'
      then Some(Ref(i, z + 2, v[x..y]))
      else None
    else None
  }

  /** The matcher finds a reference exactly when one begins there, and it is the only one. */
  lemma MatchAtIs(v: string, i: nat, e: nat, n: string)
    ensures IsReference(v, i, e, n) <==> MatchAt(v, i) == Some(Ref(i, e, n))
  {
    if IsReference(v, i, e, n) {
      var x: nat, y: nat, z: nat :| ReferenceParts(v, i, x, y, z, e, n);
      assert IsNameChar(v[x]);
      assert SkipBlanks(v, i + 2) == x;
      assert !IsNameChar(v[y]);
      assert SkipName(v, x) == y;
      assert SkipBlanks(v, y) == z;
    }
    if MatchAt(v, i) == Some(Ref(i, e, n)) {
      var x := SkipBlanks(v, i + 2);
      var y := SkipName(v, x);
      assert ReferenceParts(v, i, x, y, SkipBlanks(v, y), e, n);
    }
  }

  /** The leftmost position at or after i where a reference begins, or the end. */
  function NextRef(v: string, i: nat): (j: nat)
    requires i <= |v|
    ensures i <= j <= |v|
    ensures j < |v| ==> MatchAt(v, j).Some?
    ensures forall k | i <= k < j :: MatchAt(v, k).None?
    decreases |v| - i
  {
    if i == |v| || MatchAt(v, i).Some? then i else NextRef(v, i + 1)
  }

  lemma MatchBounds(v: string, i: nat)
    requires MatchAt(v, i).Some?
    ensures var r := MatchAt(v, i).value; r.start == i && i + 4 < r.end <= |v|
  {
  }

  /** The leftmost reference at or after position at. */
  function Find(v: string, at: nat): (m: Option<Ref>)
    requires at <= |v|
    ensures m.Some? ==> at <= m.value.start && m.value.start + 4 < m.value.end <= |v|
  {
    var j := NextRef(v, at);
    if j == |v| then None
    else
      MatchBounds(v, j);
      MatchAt(v, j)
  }

  /** The references found by repeating the leftmost search behind each match. */
  function Scan(v: string, at: nat): (refs: seq<Ref>)
    requires at <= |v|
    ensures Within(v, at, refs)
    decreases |v| - at
  {
    var j := NextRef(v, at);
    if j == |v| then []
    else
      MatchBounds(v, j);
      var r := MatchAt(v, j).value;
      [r] + Scan(v, r.end)
  }

  lemma {:induction false} ScanIsScan(v: string, at: nat)
    requires at <= |v|
    ensures IsScan(v, at, Scan(v, at))
    decreases |v| - at
  {
    var j := NextRef(v, at);
    forall i, e, n | at <= i < j ensures !IsReference(v, i, e, n) {
      MatchAtIs(v, i, e, n);
    }
    if j < |v| {
      MatchBounds(v, j);
      var r := MatchAt(v, j).value;
      MatchAtIs(v, j, r.end, r.name);
      ScanIsScan(v, r.end);
    }
  }

  /** Leftmost, non-overlapping scanning has only one outcome. */
  lemma {:induction false} ScanUnique(v: string, at: nat, refs: seq<Ref>)
    requires at <= |v| && IsScan(v, at, refs)
    ensures refs == Scan(v, at)
    decreases |v| - at
  {
    var j := NextRef(v, at);
    if j < |v| {
      MatchBounds(v, j);
      var r := MatchAt(v, j).value;
      MatchAtIs(v, j, r.end, r.name);
      if refs != [] {
        MatchAtIs(v, refs[0].start, refs[0].end, refs[0].name);
        assert refs[0].start == j;
        ScanUnique(v, r.end, refs[1..]);
        assert refs == [refs[0]] + refs[1..];
      }
    } else if refs != [] {
      MatchAtIs(v, refs[0].start, refs[0].end, refs[0].name);
      assert false;
    }
  }

  // ----- expansion -----

  /** The name the last unknown reference carries, or acc when all are known. */
  ghost function LastUnknown(refs: seq<Ref>, vars: map<string, string>, acc: Option<string>): Option<string> {
    if refs == [] then acc
    else LastUnknown(refs[1..], vars, if refs[0].name in vars then acc else Some(refs[0].name))
  }

  lemma {:induction false} LastUnknownIff(refs: seq<Ref>, vars: map<string, string>, acc: Option<string>)
    ensures LastUnknown(refs, vars, acc).None? <==> acc.None? && Known(refs, vars)
  {
    if refs != [] {
      LastUnknownIff(refs[1..], vars, if refs[0].name in vars then acc else Some(refs[0].name));
      assert refs == [refs[0]] + refs[1..];
    }
  }

  /** What expansion is meant to give: the filled value, or the name of an unknown
      reference. */
  ghost predicate ExpandsTo(v: string, vars: map<string, string>, r: Result<string, string>) {
    forall refs | IsScan(v, 0, refs) ::
      && (r.Ok? <==> Known(refs, vars))
      && (r.Ok? ==> Within(v, 0, refs) && r.value == Filled(v, 0, refs, vars))
      && (r.Err? ==> LastUnknown(refs, vars, None) == Some(r.error))
  }

  /** The replacement pass: copy up to each match, append the callback's answer, go on
      behind the match; the callback keeps unknown references and notes the error. */
  method ExpandValue(v: string, vars: map<string, string>) returns (r: Result<string, string>)
    ensures ExpandsTo(v, vars, r)
  {
    var out := "";
    var refErr: Option<string> := None;
    var at := 0;
    while true
      invariant Progress(v, vars, at, out, refErr)
      decreases |v| - at
    {
      var found := Find(v, at);
      if found.None? {
        break;
      }
      var m := found.value;
      var name := T.TrimSpace(m.name);
      ProgressStep(v, vars, at, out, refErr, m);
      if name in vars {
        out := out + (v[at..m.start] + vars[name]);
      } else {
        refErr := Some(name);
        out := out + (v[at..m.start] + v[m.start..m.end]);
      }
      at := m.end;
    }
    ProgressEnd(v, vars, at, out, refErr);
    out := out + v[at..];
    ScanDecides(v, vars, out, refErr);
    return if refErr.Some? then Err(refErr.value) else Ok(out);
  }

  /** What the pass has produced by the time it stands at at. */
  ghost predicate Progress(v: string, vars: map<string, string>, at: nat, out: string, refErr: Option<string>) {
    && at <= |v|
    && LastUnknown(Scan(v, at), vars, refErr) == LastUnknown(Scan(v, 0), vars, None)
    && out + Filled(v, at, Scan(v, at), vars) == Filled(v, 0, Scan(v, 0), vars)
  }

  lemma ProgressStep(v: string, vars: map<string, string>, at: nat, out: string, refErr: Option<string>, m: Ref)
    requires Progress(v, vars, at, out, refErr) && Find(v, at) == Some(m)
    ensures T.TrimSpace(m.name) == m.name
    ensures m.name in vars ==> Progress(v, vars, m.end, out + (v[at..m.start] + vars[m.name]), refErr)
    ensures m.name !in vars ==> Progress(v, vars, m.end, out + (v[at..m.start] + v[m.start..m.end]), Some(m.name))
  {
    var j := NextRef(v, at);
    TrimName(v, j);
    ScanStep(v, at, j, m, vars);
    var piece := v[at..j] + (if m.name in vars then vars[m.name] else v[j..m.end]);
    var rest := Filled(v, m.end, Scan(v, m.end), vars);
    Regroup(out, piece, rest, Filled(v, at, Scan(v, at), vars));
  }

  lemma ProgressEnd(v: string, vars: map<string, string>, at: nat, out: string, refErr: Option<string>)
    requires Progress(v, vars, at, out, refErr) && Find(v, at).None?
    ensures refErr == LastUnknown(Scan(v, 0), vars, None)
    ensures out + v[at..] == Filled(v, 0, Scan(v, 0), vars)
  {
    assert Scan(v, at) == [];
  }

  lemma Regroup(out: string, piece: string, rest: string, whole: string)
    requires whole == piece + rest
    ensures out + whole == (out + piece) + rest
  {
  }

  lemma ScanStep(v: string, at: nat, j: nat, m: Ref, vars: map<string, string>)
    requires at <= |v| && j == NextRef(v, at) < |v| && MatchAt(v, j) == Some(m) && j + 4 < m.end <= |v|
    ensures forall acc :: LastUnknown(Scan(v, at), vars, acc) ==
                          LastUnknown(Scan(v, m.end), vars, if m.name in vars then acc else Some(m.name))
    ensures Filled(v, at, Scan(v, at), vars) ==
            (v[at..j] + (if m.name in vars then vars[m.name] else v[j..m.end])) + Filled(v, m.end, Scan(v, m.end), vars)
  {
    assert Scan(v, at) == [m] + Scan(v, m.end);
    assert Scan(v, at)[1..] == Scan(v, m.end);
  }

  lemma ScanDecides(v: string, vars: map<string, string>, out: string, refErr: Option<string>)
    requires refErr == LastUnknown(Scan(v, 0), vars, None)
    requires out == Filled(v, 0, Scan(v, 0), vars)
    ensures ExpandsTo(v, vars, if refErr.Some? then Err(refErr.value) else Ok(out))
  {
    LastUnknownIff(Scan(v, 0), vars, None);
    forall refs | IsScan(v, 0, refs) ensures refs == Scan(v, 0) {
      ScanUnique(v, 0, refs);
    }
  }

  /** A captured name carries no space, so trimming it changes nothing. */
  lemma TrimName(v: string, i: nat)
    requires MatchAt(v, i).Some?
    ensures T.TrimSpace(MatchAt(v, i).value.name) == MatchAt(v, i).value.name
  {
    var name := MatchAt(v, i).value.name;
    var x := SkipBlanks(v, i + 2);
    assert name == v[x..SkipName(v, x)];
    assert forall k | 0 <= k < |name| :: name[k] == v[x + k] && IsNameChar(name[k]);
    T.TrimSpaceOf("", name, "");
    assert "" + name + "" == name;
  }

  /** Expansion has one answer: it fails exactly when some reference is unknown. */
  lemma ExpandsToUnique(v: string, vars: map<string, string>, r: Result<string, string>, r': Result<string, string>)
    requires ExpandsTo(v, vars, r) && ExpandsTo(v, vars, r')
    ensures r == r'
    ensures r.Err? <==> exists ref :: ref in Scan(v, 0) && ref.name !in vars
  {
    ScanIsScan(v, 0);
  }

  // ----- expansion, reference by reference -----

  lemma PartsShift(v: string, d: nat, b: nat, x: nat, y: nat, z: nat, e: nat, name: string)
    requires d <= |v|
    ensures ReferenceParts(v, d + b, d + x, d + y, d + z, d + e, name) <==>
            ReferenceParts(v[d..], b, x, y, z, e, name)
  {
    var w := v[d..];
    if b + 2 <= x < y <= z && z + 2 == e <= |w| {
      assert v[d + x..d + y] == w[x..y];
      assert forall i | 0 <= i < |w| :: w[i] == v[d + i];
      assert forall i | d <= i < |v| :: v[i] == w[i - d];
    }
  }

  /** What stands before a position does not matter for what begins behind it. */
  lemma RefShift(v: string, d: nat, b: nat, e: nat, name: string)
    requires d <= |v|
    ensures IsReference(v, d + b, d + e, name) <==> IsReference(v[d..], b, e, name)
  {
    if IsReference(v, d + b, d + e, name) {
      var x: nat, y: nat, z: nat :| ReferenceParts(v, d + b, x, y, z, d + e, name);
      PartsShift(v, d, b, x - d, y - d, z - d, e, name);
    }
    if IsReference(v[d..], b, e, name) {
      var x: nat, y: nat, z: nat :| ReferenceParts(v[d..], b, x, y, z, e, name);
      PartsShift(v, d, b, x, y, z, e, name);
    }
  }

  /** The same references, found e further on. */
  ghost predicate Shifted(refs: seq<Ref>, moved: seq<Ref>, e: nat) {
    && |moved| == |refs|
    && forall k | 0 <= k < |refs| :: moved[k] == Ref(e + refs[k].start, e + refs[k].end, refs[k].name)
  }

  lemma ScanCons(v: string, at: nat, j: nat, m: Ref)
    requires at <= |v| && j == NextRef(v, at) < |v| && MatchAt(v, j) == Some(m) && j + 4 < m.end <= |v|
    ensures Scan(v, at) == [m] + Scan(v, m.end)
  {
  }

  function Moved(refs: seq<Ref>, e: nat): seq<Ref> {
    seq(|refs|, k requires 0 <= k < |refs| => Ref(e + refs[k].start, e + refs[k].end, refs[k].name))
  }

  /** Where the rest of a value has no reference the value has none. */
  lemma NoneShift(v: string, e: nat, lo: nat, hi: nat)
    requires e + hi <= |v| && forall i, k, n | lo <= i < hi :: !IsReference(v[e..], i, k, n)
    ensures forall i, k, n | e + lo <= i < e + hi :: !IsReference(v, i, k, n)
  {
    forall i: nat, k: nat, n | e + lo <= i < e + hi ensures !IsReference(v, i, k, n) {
      if IsReference(v, i, k, n) {
        RefShift(v, e, i - e, k - e, n);
      }
    }
  }

  lemma MovedTail(refs: seq<Ref>, e: nat)
    requires refs != []
    ensures Moved(refs, e) != [] && Moved(refs, e)[1..] == Moved(refs[1..], e)
    ensures Moved(refs, e)[0] == Ref(e + refs[0].start, e + refs[0].end, refs[0].name)
  {
  }

  lemma {:induction false} IsScanShift(v: string, e: nat, at: nat, refs: seq<Ref>)
    requires e + at <= |v| && IsScan(v[e..], at, refs)
    ensures IsScan(v, e + at, Moved(refs, e))
    decreases |refs|
  {
    var moved := Moved(refs, e);
    if refs == [] {
      NoneShift(v, e, at, |v| - e);
    } else {
      var r := refs[0];
      RefShift(v, e, r.start, r.end, r.name);
      NoneShift(v, e, at, r.start);
      IsScanShift(v, e, r.end, refs[1..]);
      MovedTail(refs, e);
    }
  }

  lemma ScanShift(v: string, e: nat)
    requires e <= |v|
    ensures Shifted(Scan(v[e..], 0), Scan(v, e), e)
  {
    ScanIsScan(v[e..], 0);
    IsScanShift(v, e, 0, Scan(v[e..], 0));
    ScanUnique(v, e, Moved(Scan(v[e..], 0), e));
  }

  lemma {:induction false} UnknownShift(refs: seq<Ref>, moved: seq<Ref>, e: nat, vars: map<string, string>,
                                        acc: Option<string>)
    requires Shifted(refs, moved, e)
    ensures LastUnknown(moved, vars, acc) == LastUnknown(refs, vars, acc)
  {
    if refs != [] {
      UnknownShift(refs[1..], moved[1..], e, vars, if refs[0].name in vars then acc else Some(refs[0].name));
    }
  }

  lemma SlicesShift(v: string, e: nat, i: nat, j: nat)
    requires i <= j && e + j <= |v|
    ensures v[e + i..e + j] == v[e..][i..j]
  {
  }

  /** The rest of a value is filled as a value of its own. */
  lemma {:induction false} FilledShift(v: string, e: nat, at: nat, refs: seq<Ref>, moved: seq<Ref>,
                                       vars: map<string, string>)
    requires e + at <= |v| && Shifted(refs, moved, e) && Within(v[e..], at, refs) && Within(v, e + at, moved)
    ensures Filled(v, e + at, moved, vars) == Filled(v[e..], at, refs, vars)
    decreases |refs|
  {
    if refs != [] {
      var r := refs[0];
      FilledShift(v, e, r.end, refs[1..], moved[1..], vars);
      SlicesShift(v, e, at, r.start);
      SlicesShift(v, e, r.start, r.end);
    } else {
      assert v[e + at..] == v[e..][at..];
    }
  }

  lemma {:induction false} LastUnknownOr(refs: seq<Ref>, vars: map<string, string>, acc: Option<string>)
    ensures LastUnknown(refs, vars, acc) ==
            if LastUnknown(refs, vars, None).Some? then LastUnknown(refs, vars, None) else acc
  {
    if refs != [] {
      LastUnknownOr(refs[1..], vars, Some(refs[0].name));
      LastUnknownOr(refs[1..], vars, acc);
    }
  }

  lemma ExpandsAsScan(v: string, vars: map<string, string>, r: Result<string, string>)
    requires ExpandsTo(v, vars, r)
    ensures LastUnknown(Scan(v, 0), vars, None) == (if r.Ok? then None else Some(r.error))
    ensures r.Ok? ==> r.value == Filled(v, 0, Scan(v, 0), vars)
  {
    ScanIsScan(v, 0);
    LastUnknownIff(Scan(v, 0), vars, None);
  }

  /** The first reference of a value is replaced by its variable and what stands before it is kept;
      the rest expands by itself. The last unknown name is the complaint. */
  lemma ExpandsFirst(v: string, vars: map<string, string>, b: nat, e: nat, name: string,
                     r: Result<string, string>, rest: Result<string, string>)
    requires IsReference(v, b, e, name) && forall i, k, n | 0 <= i < b :: !IsReference(v, i, k, n)
    requires ExpandsTo(v, vars, r) && e <= |v| && ExpandsTo(v[e..], vars, rest)
    ensures r == if rest.Err? then rest
                 else if name !in vars then Err(name)
                 else Ok(v[..b] + vars[name] + rest.value)
  {
    FirstIs(v, b, e, name);
    ExpandsAsScan(v, vars, r);
    ExpandsAsScan(v[e..], vars, rest);
    ScanCons(v, 0, b, Ref(b, e, name));
    ScanShift(v, e);
    UnknownFirst(Ref(b, e, name), Scan(v[e..], 0), Scan(v, e), e, vars);
    if name in vars {
      FilledFirst(v, Ref(b, e, name), Scan(v, e), vars);
    }
    FilledShift(v, e, 0, Scan(v[e..], 0), Scan(v, e), vars);
  }

  lemma UnknownFirst(m: Ref, refs: seq<Ref>, moved: seq<Ref>, e: nat, vars: map<string, string>)
    requires Shifted(refs, moved, e)
    ensures LastUnknown([m] + moved, vars, None) ==
            var rest := LastUnknown(refs, vars, None);
            if rest.Some? || m.name in vars then rest else Some(m.name)
  {
    var acc := if m.name in vars then None else Some(m.name);
    assert ([m] + moved)[1..] == moved;
    UnknownShift(refs, moved, e, vars, acc);
    LastUnknownOr(refs, vars, acc);
  }

  lemma FilledFirst(v: string, m: Ref, rest: seq<Ref>, vars: map<string, string>)
    requires m.start <= m.end <= |v| && Within(v, m.end, rest) && Within(v, 0, [m] + rest) && m.name in vars
    ensures Filled(v, 0, [m] + rest, vars) == v[..m.start] + vars[m.name] + Filled(v, m.end, rest, vars)
  {
    assert ([m] + rest)[1..] == rest && v[0..m.start] == v[..m.start];
  }

  lemma FirstIs(v: string, b: nat, e: nat, name: string)
    requires IsReference(v, b, e, name) && forall i, k, n | 0 <= i < b :: !IsReference(v, i, k, n)
    ensures NextRef(v, 0) == b < |v| && MatchAt(v, b) == Some(Ref(b, e, name)) && b + 4 < e <= |v|
  {
    MatchAtIs(v, b, e, name);
    MatchBounds(v, b);
    var j := NextRef(v, 0);
    if j < b {
      var m := MatchAt(v, j).value;
      MatchAtIs(v, j, m.end, m.name);
      assert false;
    }
  }

  ghost predicate HasRef(v: string) {
    exists i, e, n :: IsReference(v, i, e, n)
  }

  ghost predicate AnyRef(m: map<string, string>) {
    exists k :: k in m && HasRef(m[k])
  }

  /** sharedVarRef.MatchString over every value. */
  method HasSharedRefs(m: map<string, string>) returns (found: bool)
    ensures found <==> AnyRef(m)
    ensures found <==> exists k, i, e, n :: k in m && IsReference(m[k], i, e, n)
  {
    var todo := m.Keys;
    while todo != {}
      invariant todo <= m.Keys
      invariant forall k | k in m.Keys - todo :: !HasRef(m[k])
      decreases todo
    {
      var k :| k in todo;
      SearchFindsRef(m[k]);
      if NextRef(m[k], 0) < |m[k]| {
        return true;
      }
      todo := todo - {k};
    }
    return false;
  }

  lemma SearchFindsRef(v: string)
    ensures NextRef(v, 0) < |v| <==> HasRef(v)
  {
    var j := NextRef(v, 0);
    if j < |v| {
      var r := MatchAt(v, j).value;
      MatchAtIs(v, j, r.end, r.name);
    } else if HasRef(v) {
      var i, e, n :| IsReference(v, i, e, n);
      MatchAtIs(v, i, e, n);
      assert false;
    }
  }

  /** Without a reference expansion is the identity. */
  lemma ExpandIdentity(v: string, vars: map<string, string>, r: Result<string, string>)
    requires !HasRef(v) && ExpandsTo(v, vars, r)
    ensures r == Ok(v)
  {
    assert IsScan(v, 0, []);
    assert v[0..] == v;
  }

  /** Every value expanded under its own key, or the complaint of one that cannot be. */
  ghost predicate MapExpandsTo(m: map<string, string>, vars: map<string, string>,
                               r: Result<map<string, string>, string>) {
    match r
    case Ok(out) => out.Keys == m.Keys && forall k | k in m :: ExpandsTo(m[k], vars, Ok(out[k]))
    case Err(e) => exists k :: k in m && ExpandsTo(m[k], vars, Err(e))
  }

  method ExpandSharedVars(m: map<string, string>, vars: map<string, string>)
      returns (r: Result<map<string, string>, string>)
    ensures MapExpandsTo(m, vars, r)
    ensures r.Ok? ==> r.value.Keys == m.Keys && forall k | k in m :: ExpandsTo(m[k], vars, Ok(r.value[k]))
    ensures r.Err? ==> exists k :: k in m && ExpandsTo(m[k], vars, Err(r.error))
  {
    if |m| == 0 {
      return Ok(m);
    }
    var out: map<string, string> := map[];
    var todo := m.Keys;
    while todo != {}
      invariant todo <= m.Keys && out.Keys == m.Keys - todo
      invariant forall k | k in out :: ExpandsTo(m[k], vars, Ok(out[k]))
      decreases todo
    {
      var k :| k in todo;
      var expanded := ExpandValue(m[k], vars);
      if expanded.Err? {
        return Err(expanded.error);
      }
      out := out[k := expanded.value];
      todo := todo - {k};
    }
    return Ok(out);
  }

  /** A map without references expands to itself, whatever variables are defined. */
  lemma MapExpandIdentity(m: map<string, string>, vars: map<string, string>, r: Result<map<string, string>, string>)
    requires !AnyRef(m) && MapExpandsTo(m, vars, r)
    ensures r == Ok(m)
  {
    match r
    case Ok(out) =>
      forall k | k in m ensures out[k] == m[k] {
        ExpandIdentity(m[k], vars, Ok(out[k]));
      }
      assert out == m;
    case Err(e) =>
      var k :| k in m && ExpandsTo(m[k], vars, Err(e));
      ExpandIdentity(m[k], vars, Err(e));
  }

  // ----- resolving a project's environment -----

  datatype ResolveError = StoreFailed | UnknownVariable(name: string) | InvalidEnv

  /** Resolves both maps. stored is what the variable query answers, None when it fails. A
      successful result is the full expansion of both maps even when the query was skipped. */
  method ResolveSharedVars(env: map<string, string>, buildEnv: map<string, string>, stored: Option<map<string, string>>)
    returns (r: Result<(map<string, string>, map<string, string>), ResolveError>)
    ensures !AnyRef(env) && !AnyRef(buildEnv) ==> r == Ok((env, buildEnv))
    ensures !AnyRef(env) && !AnyRef(buildEnv) ==>
              forall vars, e, b | MapExpandsTo(env, vars, e) && MapExpandsTo(buildEnv, vars, b) ::
                  e == Ok(env) && b == Ok(buildEnv)
    ensures r.Ok? ==> forall vars: map<string, string> | stored == Some(vars) ::
                        MapExpandsTo(env, vars, Ok(r.value.0)) && MapExpandsTo(buildEnv, vars, Ok(r.value.1))
    ensures (AnyRef(env) || AnyRef(buildEnv)) && stored.None? ==> r == Err(StoreFailed)
    ensures r.Ok? && (AnyRef(env) || AnyRef(buildEnv)) ==> ValidEnv(r.value.0) && ValidEnv(r.value.1)
    ensures r.Err? && r.error.UnknownVariable? ==>
              stored.Some? && (MapExpandsTo(env, stored.value, Err(r.error.name))
                               || MapExpandsTo(buildEnv, stored.value, Err(r.error.name)))
    ensures r == Err(StoreFailed) ==> stored.None?
    ensures r == Err(InvalidEnv) ==>
              stored.Some? && exists e: map<string, string>, b: map<string, string> ::
                                MapExpandsTo(env, stored.value, Ok(e))
                                             && MapExpandsTo(buildEnv, stored.value, Ok(b))
                                             && (!ValidEnv(e) || !ValidEnv(b))
  {
    var refs := HasSharedRefs(env);
    if !refs {
      refs := HasSharedRefs(buildEnv);
    }
    if !refs {
      forall vars: map<string, string>
        ensures MapExpandsTo(env, vars, Ok(env)) && MapExpandsTo(buildEnv, vars, Ok(buildEnv))
      {
        NoRefExpands(env, vars);
        NoRefExpands(buildEnv, vars);
      }
      forall vars, e, b | MapExpandsTo(env, vars, e) && MapExpandsTo(buildEnv, vars, b)
        ensures e == Ok(env) && b == Ok(buildEnv)
      {
        MapExpandIdentity(env, vars, e);
        MapExpandIdentity(buildEnv, vars, b);
      }
      return Ok((env, buildEnv));
    }
    if stored.None? {
      return Err(StoreFailed);
    }
    var e := ExpandSharedVars(env, stored.value);
    if e.Err? {
      return Err(UnknownVariable(e.error));
    }
    var b := ExpandSharedVars(buildEnv, stored.value);
    if b.Err? {
      return Err(UnknownVariable(b.error));
    }
    if !ValidEnv(e.value) || !ValidEnv(b.value) {
      return Err(InvalidEnv);
    }
    return Ok((e.value, b.value));
  }

  lemma NoRefExpands(m: map<string, string>, vars: map<string, string>)
    requires !AnyRef(m)
    ensures MapExpandsTo(m, vars, Ok(m))
  {
    forall k | k in m ensures ExpandsTo(m[k], vars, Ok(m[k])) {
      var v := m[k];
      forall refs | IsScan(v, 0, refs) ensures refs == [] {
        if refs != [] {
          assert HasRef(v);
        }
      }
      assert v[0..] == v;
    }
  }
}
