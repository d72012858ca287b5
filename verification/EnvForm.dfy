/** The environment edit form: printed with values redacted, parsed back and merged with the
    stored values. An absent map and an empty map are the same value here. */
module EnvForm {
  import opened EnvRules
  import opened Lexical
  import opened Results
  import opened Text

  const REDACTED: string := "[redacted]"

  // ----- printing -----

  datatype Entry = Entry(key: string, value: string)

  ghost function Line(e: Entry): string {
    e.key + "=" + e.value
  }

  ghost function Lines(entries: seq<Entry>): seq<string> {
    seq(|entries|, i requires 0 <= i < |entries| => Line(entries[i]))
  }

  ghost function Redacted(keys: seq<string>): seq<Entry> {
    seq(|keys|, i requires 0 <= i < |keys| => Entry(keys[i], REDACTED))
  }

  /** Every line of the form is a key, an equals sign and the marker. */
  lemma LinesShow(keys: seq<string>)
    ensures |Lines(Redacted(keys))| == |keys|
    ensures forall i | 0 <= i < |keys| :: Lines(Redacted(keys))[i] == keys[i] + "=" + "[redacted]"
  {
  }

  function TrimRightNewlines(s: string): string {
    if s != "" && s[|s| - 1] == '\n' then TrimRightNewlines(s[..|s| - 1]) else s
  }

  /** The form lists every key once, in order, and shows no value. */
  method FormatEnv(env: map<string, string>) returns (form: string)
    ensures exists keys :: SortedKeysOf(keys, env) && form == Join(Lines(Redacted(keys)), "\n")
  {
    if |env| == 0 {
      NoLines(env);
      return "";
    }
    var sorted := SortedKeys(env);
    ghost var keys := sorted;
    var b := "";
    ghost var lines := Lines(Redacted(keys));
    for i := 0 to |sorted|
      invariant b == Body(lines, i)
    {
      AppendLine(lines, i);
      b := b + (sorted[i] + "=" + REDACTED + "\n");
    }
    BodyTrimmed(keys);
    form := TrimRightNewlines(b);
  }

  lemma NoLines(env: map<string, string>)
    requires env == map[]
    ensures SortedKeysOf([], env) && Join(Lines(Redacted([])), "\n") == ""
  {
  }

  /** The first lines, each with its newline. */
  ghost function Body(lines: seq<string>, i: nat): string
    requires i <= |lines|
  {
    if i == 0 then "" else Join(lines[..i], "\n") + "\n"
  }

  lemma BodyTrimmed(keys: seq<string>)
    ensures TrimRightNewlines(Body(Lines(Redacted(keys)), |keys|)) == Join(Lines(Redacted(keys)), "\n")
  {
    var lines := Lines(Redacted(keys));
    assert lines[..|lines|] == lines;
    if |keys| > 0 {
      assert lines[|lines| - 1] == Line(Entry(keys[|keys| - 1], REDACTED));
      FormTrimmed(lines);
    } else {
      assert lines == [];
    }
  }

  lemma AppendLine(lines: seq<string>, i: nat)
    requires i < |lines|
    ensures Body(lines, i + 1) == Body(lines, i) + (lines[i] + "\n")
  {
    assert lines[..i + 1] == lines[..i] + [lines[i]];
    if i > 0 {
      JoinSnoc(lines[..i], lines[i], "\n");
    }
  }

  lemma LastCharOfForm(lines: seq<string>)
    requires lines != [] && lines[|lines| - 1] != "" && lines[|lines| - 1][|lines[|lines| - 1]| - 1] != '\n'
    ensures var s := Join(lines, "\n"); s != "" && s[|s| - 1] != '\n'
  {
    assert lines == lines[..|lines| - 1] + [lines[|lines| - 1]];
    if |lines| > 1 {
      JoinSnoc(lines[..|lines| - 1], lines[|lines| - 1], "\n");
    }
  }

  lemma FormTrimmed(lines: seq<string>)
    requires lines != [] && lines[|lines| - 1] != "" && lines[|lines| - 1][|lines[|lines| - 1]| - 1] != '\n'
    ensures TrimRightNewlines(Join(lines, "\n") + "\n") == Join(lines, "\n")
  {
    LastCharOfForm(lines);
    var s := Join(lines, "\n");
    assert (s + "\n")[..|s|] == s;
  }

  // ----- parsing -----

  /** strings.Cut at the first '='. */
  function CutAssign(s: string): Option<(string, string)> {
    if s == "" then None
    else if s[0] == '=' then Some(("", s[1..]))
    else
      match CutAssign(s[1..])
      case None => None
      case Some((k, v)) => Some(([s[0]] + k, v))
  }

  /** What one form line sets. Blank lines, # comments and lines without a key set nothing. */
  function Binding(line: string): Option<Entry> {
    var t := TrimSpace(line);
    if t == "" || t[0] == '#' then None
    else
      match CutAssign(t)
      case None => None
      case Some((k, v)) => if TrimSpace(k) == "" then None else Some(Entry(TrimSpace(k), TrimSpace(v)))
  }

  /** Bindings taken in order, the last one for a key winning. */
  ghost function Parsed(lines: seq<string>): map<string, string> {
    if lines == [] then map[]
    else
      var env := Parsed(lines[..|lines| - 1]);
      match Binding(lines[|lines| - 1])
      case None => env
      case Some(e) => env[e.key := e.value]
  }

  lemma ParsedIs(lines: seq<string>, line: string)
    ensures Parsed([]) == map[]
    ensures Parsed(lines + [line]) == match Binding(line)
                                      case None => Parsed(lines)
                                      case Some(e) => Parsed(lines)[e.key := e.value]
  {
    assert (lines + [line])[..|lines|] == lines;
  }

  /** A line without an equals sign sets nothing. Otherwise what stands before the first one and
      what stands behind it count without the spaces around them, and an empty key or one that
      begins with # sets nothing. */
  lemma BindingIs(k: string, v: string)
    requires '=' !in k
    ensures Binding(k) == None
    ensures Binding(k + "=" + v) == if TrimSpace(k) == "" || TrimSpace(k)[0] == '#' then None
                                    else Some(Entry(TrimSpace(k), TrimSpace(v)))
  {
    NothingToCut(TrimSpace(k)) by {
      TrimSpaceParts(k);
      var pre, post :| k == pre + TrimSpace(k) + post && AllSpace(pre) && AllSpace(post);
    }
    TrimmedAssignment(k, v);
    var l := TrimLeft(k);
    CutAtKey(l, TrimRight(v)) by {
      TrimLeftParts(k);
      var pre :| k == pre + l && AllSpace(pre);
    }
    TrimSpaceOfTrimRight(v);
    TrimSpaceOfTrimLeft(k);
  }

  lemma {:induction false} NothingToCut(s: string)
    requires '=' !in s
    ensures CutAssign(s) == None
  {
    if s != "" {
      NothingToCut(s[1..]);
    }
  }

  lemma TrimmedAssignment(k: string, v: string)
    requires '=' !in k
    ensures TrimSpace(k + "=" + v) == TrimLeft(k) + "=" + TrimRight(v)
    ensures (TrimLeft(k) + "=" + TrimRight(v))[0] == if TrimSpace(k) == "" then '=' else TrimSpace(k)[0]
  {
    TrimLeftParts(k);
    var l := TrimLeft(k);
    var pre :| k == pre + l && AllSpace(pre);
    var rest := l + "=" + v;
    assert k + "=" + v == pre + rest;
    TrimLeftPrefix(pre, rest);
    assert rest[0] == if l == "" then '=' else l[0];
    assert TrimLeft(rest) == rest;
    assert rest == (l + "=") + v;
    TrimRightBehind(l + "=", v);
    FirstOfTrimRight(l);
  }

  lemma {:induction false} FirstOfTrimRight(s: string)
    requires s == "" || !IsSpace(s[0])
    ensures if s == "" then TrimRight(s) == "" else TrimRight(s) != "" && TrimRight(s)[0] == s[0]
  {
    if s != "" && IsSpace(s[|s| - 1]) {
      FirstOfTrimRight(s[..|s| - 1]);
    }
  }

  lemma TrimSpaceOfTrimLeft(s: string)
    ensures TrimSpace(TrimLeft(s)) == TrimSpace(s)
  {
    TrimLeftParts(s);
    var l := TrimLeft(s);
    assert l == "" || TrimLeft(l) == l;
  }

  method ParseEnv(raw: string) returns (env: map<string, string>)
    ensures env == Parsed(Split(raw, '\n'))
  {
    env := map[];
    var lines := Split(raw, '\n');
    for i := 0 to |lines|
      invariant env == Parsed(lines[..i])
    {
      assert lines[..i + 1][..i] == lines[..i];
      var line := TrimSpace(lines[i]);
      if line == "" || line[0] == '#' {
        continue;
      }
      var cut := CutAssign(line);
      if cut.None? {
        continue;
      }
      var key := TrimSpace(cut.value.0);
      if key != "" {
        env := env[key := TrimSpace(cut.value.1)];
      }
    }
    assert lines[..|lines|] == lines;
  }

  // ----- merging -----

  /** Redacted markers stand for the stored value and vanish when there is none; every other
      value is taken as submitted; keys not submitted are gone. */
  ghost predicate Merged(submitted: map<string, string>, stored: map<string, string>, out: map<string, string>) {
    && (forall k :: k in out <==> k in submitted && (submitted[k] != REDACTED || k in stored))
    && (forall k | k in out :: out[k] == if submitted[k] == REDACTED then stored[k] else submitted[k])
  }

  method PreserveRedactedEnv(submitted: map<string, string>, stored: map<string, string>)
      returns (out: map<string, string>)
    ensures Merged(submitted, stored, out)
    ensures forall k :: k in out <==> k in submitted && (submitted[k] != "[redacted]" || k in stored)
    ensures forall k | k in out :: out[k] == if submitted[k] == "[redacted]" then stored[k] else submitted[k]
  {
    out := map[];
    var todo := submitted.Keys;
    while todo != {}
      invariant todo <= submitted.Keys
      invariant forall k :: k in out <==> k in submitted.Keys - todo && (submitted[k] != REDACTED || k in stored)
      invariant forall k | k in out :: out[k] == if submitted[k] == REDACTED then stored[k] else submitted[k]
      decreases todo
    {
      var key :| key in todo;
      var value := submitted[key];
      if value == REDACTED {
        if key in stored {
          out := out[key := stored[key]];
        }
      } else {
        out := out[key := value];
      }
      todo := todo - {key};
    }
  }

  /** What saving the form stores. */
  ghost predicate SavedAs(form: string, stored: map<string, string>, out: map<string, string>) {
    Merged(Parsed(Split(form, '\n')), stored, out)
  }

  lemma SavedIs(form: string, stored: map<string, string>, out: map<string, string>)
    ensures SavedAs(form, stored, out) <==>
            var submitted := Parsed(Split(form, '\n'));
            && (forall k :: k in out <==> k in submitted && (submitted[k] != "[redacted]" || k in stored))
            && (forall k | k in out :: out[k] == if submitted[k] == "[redacted]" then stored[k] else submitted[k])
  {
  }

  datatype ProjectEnv = ProjectEnv(env: map<string, string>, buildEnv: map<string, string>)

  /** The save handler: the build environment is only touched when its field was submitted. */
  method SaveProjectEnv(project: ProjectEnv, form: string, buildForm: Option<string>) returns (saved: ProjectEnv)
    ensures SavedAs(form, project.env, saved.env)
    ensures match buildForm
            case None => saved.buildEnv == project.buildEnv
            case Some(f) => SavedAs(f, project.buildEnv, saved.buildEnv)
  {
    var submitted := ParseEnv(form);
    var env := PreserveRedactedEnv(submitted, project.env);
    var buildEnv := project.buildEnv;
    if buildForm.Some? {
      var b := ParseEnv(buildForm.value);
      buildEnv := PreserveRedactedEnv(b, project.buildEnv);
    }
    saved := ProjectEnv(env, buildEnv);
  }

  // ----- a form of KEY=VALUE lines reads back as those entries -----

  ghost predicate IsEol(eol: string) {
    eol == "\n" || eol == "\r\n"
  }

  ghost predicate FormEntry(e: Entry) {
    ValidKey(e.key) && '\n' !in e.value
  }

  ghost function Entries(entries: seq<Entry>): map<string, string> {
    if entries == [] then map[]
    else
      var e := entries[|entries| - 1];
      Entries(entries[..|entries| - 1])[e.key := TrimSpace(e.value)]
  }

  lemma {:induction false} TrimRightBehind(a: string, b: string)
    requires a != "" && !IsSpace(a[|a| - 1])
    ensures TrimRight(a + b) == a + TrimRight(b)
  {
    if b != "" && IsSpace(b[|b| - 1]) {
      assert (a + b)[..|a + b| - 1] == a + b[..|b| - 1];
      TrimRightBehind(a, b[..|b| - 1]);
    } else if b == "" {
      assert a + b == a;
    }
  }

  lemma SpaceBehind(s: string, y: string, pre: string, core: string, mid: string, post: string)
    requires s == y + post && y == pre + core + mid && AllSpace(pre) && AllSpace(mid) && AllSpace(post) && Trimmed(core)
    ensures TrimSpace(s) == core
  {
    assert s == pre + core + (mid + post);
    TrimSpaceOf(pre, core, mid + post);
  }

  lemma TrimSpaceOfTrimRight(s: string)
    ensures TrimSpace(TrimRight(s)) == TrimSpace(s)
  {
    TrimRightParts(s);
    var y := TrimRight(s);
    var post :| s == y + post && AllSpace(post);
    TrimSpaceParts(y);
    var core := TrimSpace(y);
    var pre, post' :| y == pre + core + post' && AllSpace(pre) && AllSpace(post');
    SpaceBehind(s, y, pre, core, post', post);
  }

  lemma {:induction false} CutAtKey(k: string, v: string)
    requires '=' !in k
    ensures CutAssign(k + "=" + v) == Some((k, v))
  {
    var s := k + "=" + v;
    if k == "" {
      assert s[1..] == v;
    } else {
      assert s[1..] == k[1..] + "=" + v;
      CutAtKey(k[1..], v);
      assert [k[0]] + k[1..] == k;
    }
  }

  lemma ValidKeyChars(k: string)
    requires ValidKey(k)
    ensures Trimmed(k) && k[0] != '#' && '=' !in k && '\n' !in k && !IsSpace(k[0])
    ensures TrimSpace(k) == k
  {
    TrimSpaceOf("", k, "");
    assert "" + k + "" == k;
  }

  /** A printed line binds its key to its trimmed value, with or without a carriage return. */
  lemma LineBinds(e: Entry, cr: string)
    requires FormEntry(e) && AllSpace(cr)
    ensures Binding(Line(e) + cr) == Some(Entry(e.key, TrimSpace(e.value)))
  {
    ValidKeyChars(e.key);
    var a := e.key + "=";
    var tail := e.value + cr;
    assert Line(e) + cr == a + tail;
    TrimRightBehind(a, tail);
    assert (a + tail)[0] == e.key[0];
    assert TrimSpace(a + tail) == e.key + "=" + TrimRight(tail);
    CutAtKey(e.key, TrimRight(tail));
    TrimSpaceOfTrimRight(tail);
    TrimRightSuffix(e.value, cr);
    TrimSpaceOfTrimRight(e.value);
  }

  /** The newline-separated parts of a form: every line but the last keeps the carriage
      return of its line ending. */
  ghost function FormParts(entries: seq<Entry>, eol: string): seq<string>
    requires IsEol(eol)
  {
    seq(|entries|, i requires 0 <= i < |entries| =>
      if i < |entries| - 1 then Line(entries[i]) + eol[..|eol| - 1] else Line(entries[i]))
  }

  lemma {:induction false} FormIsParts(entries: seq<Entry>, eol: string)
    requires IsEol(eol) && entries != []
    ensures Join(Lines(entries), eol) == Join(FormParts(entries, eol), "\n")
  {
    var lines, parts := Lines(entries), FormParts(entries, eol);
    if |entries| > 1 {
      FormIsParts(entries[1..], eol);
      assert lines[1..] == Lines(entries[1..]);
      assert parts[1..] == FormParts(entries[1..], eol);
      var rest := Join(lines[1..], eol);
      assert eol == eol[..|eol| - 1] + "\n";
      assert lines[0] + eol + rest == parts[0] + "\n" + rest;
    }
  }

  lemma {:induction false} PartsParse(entries: seq<Entry>, parts: seq<string>)
    requires |parts| == |entries|
    requires forall i | 0 <= i < |entries| :: FormEntry(entries[i])
    requires forall i | 0 <= i < |entries| :: parts[i] == Line(entries[i]) || parts[i] == Line(entries[i]) + "\r"
    ensures Parsed(parts) == Entries(entries)
  {
    if entries != [] {
      var n := |entries| - 1;
      PartsParse(entries[..n], parts[..n]);
      LineBinds(entries[n], "");
      assert Line(entries[n]) + "" == Line(entries[n]);
      LineBinds(entries[n], "\r");
    }
  }

  /** Parsing a form of KEY=VALUE lines gives back exactly its entries, under either line
      ending. */
  lemma FormParses(entries: seq<Entry>, eol: string)
    requires IsEol(eol) && forall i | 0 <= i < |entries| :: FormEntry(entries[i])
    ensures Parsed(Split(Join(Lines(entries), eol), '\n')) == Entries(entries)
  {
    if entries == [] {
      assert Split("", '\n') == [""];
      assert Parsed([""][..0]) == map[];
    } else {
      var parts := FormParts(entries, eol);
      forall i | 0 <= i < |entries| ensures '\n' !in parts[i] {
        ValidKeyChars(entries[i].key);
      }
      FormIsParts(entries, eol);
      SplitJoin(parts, '\n');
      PartsParse(entries, parts);
    }
  }

  /** The map a form shows: every variable with the marker for a value. */
  ghost function Marked(stored: map<string, string>): map<string, string> {
    map k | k in stored :: REDACTED
  }

  lemma RedactedEntries(keys: seq<string>, stored: map<string, string>)
    requires SortedKeysOf(keys, stored)
    ensures Entries(Redacted(keys)) == Marked(stored)
  {
    DistinctKeys(keys);
    EntriesOf(Redacted(keys));
    RedactedTrims();
    forall k | k in stored ensures k in Entries(Redacted(keys)) && Entries(Redacted(keys))[k] == REDACTED {
      assert k in keys;
      var j :| 0 <= j < |keys| && keys[j] == k;
      assert Redacted(keys)[j].key == k;
    }
    forall k | k in Entries(Redacted(keys)) ensures k in stored {
      var j :| 0 <= j < |keys| && Redacted(keys)[j].key == k;
      assert k in keys;
    }
  }

  lemma {:induction false} EntriesAppend(a: seq<Entry>, b: seq<Entry>)
    ensures Entries(a + b) == Entries(a) + Entries(b)
  {
    if b == [] {
      assert a + b == a;
    } else {
      var n := |b| - 1;
      assert (a + b)[..|a + b| - 1] == a + b[..n];
      EntriesAppend(a, b[..n]);
    }
  }

  lemma EntriesSnoc(front: seq<Entry>, e: Entry)
    ensures Entries(front + [e]) == Entries(front)[e.key := TrimSpace(e.value)]
  {
    assert (front + [e])[..|front|] == front;
  }

  lemma UpdateBelow(a: map<string, string>, b: map<string, string>, k: string, v: string)
    requires k !in b
    ensures a[k := v] + b == (a + b)[k := v]
    ensures k !in a ==> (a + b)[k := v] - {k} == a + b
  {
  }

  lemma EntriesAround(front: seq<Entry>, e: Entry, back: seq<Entry>)
    requires forall i | 0 <= i < |back| :: back[i].key != e.key
    ensures Entries(front + [e] + back) == Entries(front + back)[e.key := TrimSpace(e.value)]
    ensures (forall i | 0 <= i < |front| :: front[i].key != e.key) ==>
              Entries(front + back) == Entries(front + [e] + back) - {e.key}
  {
    EntriesAppend(front + [e], back);
    EntriesAppend(front, back);
    EntriesSnoc(front, e);
    KeysOfEntries(back, e.key);
    UpdateBelow(Entries(front), Entries(back), e.key, TrimSpace(e.value));
    if forall i | 0 <= i < |front| :: front[i].key != e.key {
      KeysOfEntries(front, e.key);
    }
  }

  /** Overwriting one entry of distinct keys overwrites that key. */
  lemma EntriesOverwrite(entries: seq<Entry>, i: nat, value: string)
    requires i < |entries| && forall a, b | 0 <= a < b < |entries| :: entries[a].key != entries[b].key
    ensures Entries(entries[i := Entry(entries[i].key, value)]) == Entries(entries)[entries[i].key := TrimSpace(value)]
  {
    var e, e' := entries[i], Entry(entries[i].key, value);
    var front, back := entries[..i], entries[i + 1..];
    assert entries == front + [e] + back;
    assert entries[i := e'] == front + [e'] + back;
    EntriesAround(front, e, back);
    EntriesAround(front, e', back);
  }

  /** One entry of distinct keys left out, or put in, is one key less or more. */
  lemma EntriesWithout(entries: seq<Entry>, i: nat)
    requires i < |entries| && forall a, b | 0 <= a < b < |entries| :: entries[a].key != entries[b].key
    ensures Entries(entries[..i] + entries[i + 1..]) == Entries(entries) - {entries[i].key}
    ensures Entries(entries) == Entries(entries[..i] + entries[i + 1..])[entries[i].key := TrimSpace(entries[i].value)]
  {
    var e, front, back := entries[i], entries[..i], entries[i + 1..];
    Around(entries, i, front, back);
    EntriesAround(front, e, back);
    KeysOfEntriesApart(front, back, e.key);
  }

  /** Around entry i the other keys differ from its own. */
  lemma Around(entries: seq<Entry>, i: nat, front: seq<Entry>, back: seq<Entry>)
    requires i < |entries| && forall a, b | 0 <= a < b < |entries| :: entries[a].key != entries[b].key
    requires front == entries[..i] && back == entries[i + 1..]
    ensures entries == front + [entries[i]] + back
    ensures forall j | 0 <= j < |back| :: back[j].key != entries[i].key
    ensures forall j | 0 <= j < |front| :: front[j].key != entries[i].key
  {
    assert forall j | 0 <= j < |back| :: back[j] == entries[i + 1 + j];
    assert forall j | 0 <= j < i :: front[j] == entries[j];
  }

  lemma KeysOfEntriesApart(front: seq<Entry>, back: seq<Entry>, k: string)
    requires forall j | 0 <= j < |front| :: front[j].key != k
    requires forall j | 0 <= j < |back| :: back[j].key != k
    ensures k !in Entries(front + back)
  {
    EntriesAppend(front, back);
    KeysOfEntries(front, k);
    KeysOfEntries(back, k);
  }

  lemma {:induction false} KeysOfEntries(entries: seq<Entry>, k: string)
    requires forall i | 0 <= i < |entries| :: entries[i].key != k
    ensures k !in Entries(entries)
  {
    if entries != [] {
      KeysOfEntries(entries[..|entries| - 1], k);
    }
  }

  lemma RedactedFormEntries(keys: seq<string>, stored: map<string, string>)
    requires SortedKeysOf(keys, stored) && forall k | k in stored :: ValidKey(k)
    ensures forall i | 0 <= i < |keys| :: FormEntry(Redacted(keys)[i])
    ensures forall i, j | 0 <= i < j < |keys| :: Redacted(keys)[i].key != Redacted(keys)[j].key
  {
    assert '\n' !in REDACTED;
    DistinctKeys(keys);
    forall i | 0 <= i < |keys| ensures ValidKey(keys[i]) {
      assert keys[i] in keys;
    }
  }

  /** Merging the shown map with one value overwritten or added changes just that variable. */
  lemma MergeMarked(stored: map<string, string>, k: string, v: string, out: map<string, string>)
    requires Merged(Marked(stored)[k := v], stored, out)
    ensures out == if v == REDACTED then stored else stored[k := v]
  {
  }

  lemma MergeWithout(stored: map<string, string>, k: string, out: map<string, string>)
    requires Merged(Marked(stored) - {k}, stored, out)
    ensures out == stored - {k}
  {
  }

  // ----- what saving an edited form does -----

  /** Saving a form of well-formed lines merges exactly their entries. */
  lemma SaveMerges(entries: seq<Entry>, eol: string, stored: map<string, string>, out: map<string, string>)
    requires IsEol(eol) && forall i | 0 <= i < |entries| :: FormEntry(entries[i])
    requires SavedAs(Join(Lines(entries), eol), stored, out)
    ensures Merged(Entries(entries), stored, out)
  {
    FormParses(entries, eol);
  }

  /** Saving the form unchanged stores the environment unchanged. */
  lemma SaveUnchanged(stored: map<string, string>, keys: seq<string>, eol: string, out: map<string, string>)
    requires SortedKeysOf(keys, stored) && IsEol(eol)
    requires forall k | k in stored :: ValidKey(k)
    requires SavedAs(Join(Lines(Redacted(keys)), eol), stored, out)
    ensures out == stored
  {
    RedactedFormEntries(keys, stored);
    FormParses(Redacted(keys), eol);
    RedactedEntries(keys, stored);
  }

  /** Overwriting one line sets exactly that variable; typing the marker keeps it. */
  lemma SaveChangedLine(stored: map<string, string>, keys: seq<string>, eol: string, i: nat, value: string,
                        out: map<string, string>)
    requires SortedKeysOf(keys, stored) && IsEol(eol) && i < |keys| && '\n' !in value
    requires forall k | k in stored :: ValidKey(k)
    requires SavedAs(Join(Lines(Redacted(keys)[i := Entry(keys[i], value)]), eol), stored, out)
    ensures out == if TrimSpace(value) == REDACTED then stored else stored[keys[i] := TrimSpace(value)]
  {
    var entries := Redacted(keys)[i := Entry(keys[i], value)];
    RedactedFormEntries(keys, stored);
    SaveMerges(entries, eol, stored, out);
    EntriesOverwrite(Redacted(keys), i, value);
    RedactedEntries(keys, stored);
    MergeMarked(stored, keys[i], TrimSpace(value), out);
  }

  /** Deleting one line removes exactly that variable. */
  lemma SaveDeletedLine(stored: map<string, string>, keys: seq<string>, eol: string, i: nat, out: map<string, string>)
    requires SortedKeysOf(keys, stored) && IsEol(eol) && i < |keys|
    requires forall k | k in stored :: ValidKey(k)
    requires SavedAs(Join(Lines(Redacted(keys)[..i] + Redacted(keys)[i + 1..]), eol), stored, out)
    ensures out == stored - {keys[i]}
  {
    RedactedFormEntries(keys, stored);
    SaveMerges(Redacted(keys)[..i] + Redacted(keys)[i + 1..], eol, stored, out);
    EntriesWithout(Redacted(keys), i);
    RedactedEntries(keys, stored);
    MergeWithout(stored, keys[i], out);
  }

  /** Adding a line anywhere adds exactly that variable; a new key with only the marker for a
      value adds nothing. */
  lemma SaveAddedLine(stored: map<string, string>, keys: seq<string>, eol: string, i: nat, e: Entry,
                      out: map<string, string>)
    requires SortedKeysOf(keys, stored) && IsEol(eol) && i <= |keys| && FormEntry(e) && e.key !in stored
    requires forall k | k in stored :: ValidKey(k)
    requires SavedAs(Join(Lines(Redacted(keys)[..i] + [e] + Redacted(keys)[i..]), eol), stored, out)
    ensures out == if TrimSpace(e.value) == REDACTED then stored else stored[e.key := TrimSpace(e.value)]
  {
    var entries := Redacted(keys)[..i] + [e] + Redacted(keys)[i..];
    RedactedFormEntries(keys, stored);
    SaveMerges(entries, eol, stored, out);
    AddedEntries(stored, keys, i, e);
    MergeMarked(stored, e.key, TrimSpace(e.value), out);
  }

  lemma AddedEntries(stored: map<string, string>, keys: seq<string>, i: nat, e: Entry)
    requires SortedKeysOf(keys, stored) && i <= |keys| && e.key !in stored
    ensures Entries(Redacted(keys)[..i] + [e] + Redacted(keys)[i..]) == Marked(stored)[e.key := TrimSpace(e.value)]
  {
    var entries := Redacted(keys)[..i] + [e] + Redacted(keys)[i..];
    AddedKeysDistinct(stored, keys, i, e);
    EntriesWithout(entries, i);
    assert entries[..i] + entries[i + 1..] == Redacted(keys);
    RedactedEntries(keys, stored);
  }

  lemma AddedKeysDistinct(stored: map<string, string>, keys: seq<string>, i: nat, e: Entry)
    requires SortedKeysOf(keys, stored) && i <= |keys| && e.key !in stored
    ensures var entries := Redacted(keys)[..i] + [e] + Redacted(keys)[i..];
            forall a, b | 0 <= a < b < |entries| :: entries[a].key != entries[b].key
  {
    DistinctKeys(keys);
    var entries := Redacted(keys)[..i] + [e] + Redacted(keys)[i..];
    forall j | 0 <= j < |keys| ensures keys[j] != e.key {
      assert keys[j] in keys;
    }
    assert forall j | 0 <= j < |entries| ::
      entries[j].key == if j < i then keys[j] else if j == i then e.key else keys[j - 1];
  }

  lemma RedactedTrims()
    ensures TrimSpace(REDACTED) == REDACTED
  {
    TrimSpaceOf("", REDACTED, "");
    assert "" + REDACTED + "" == REDACTED;
  }

  lemma DistinctKeys(keys: seq<string>)
    requires StrictlySorted(keys)
    ensures forall i, j | 0 <= i < j < |keys| :: keys[i] != keys[j]
  {
    forall i, j | 0 <= i < j < |keys| ensures keys[i] != keys[j] {
      LessAntisymmetric(keys[i], keys[j]);
    }
  }

  /** With distinct keys every entry is kept. */
  lemma {:induction false} EntriesOf(entries: seq<Entry>)
    requires forall i, j | 0 <= i < j < |entries| :: entries[i].key != entries[j].key
    ensures forall k :: k in Entries(entries) <==> exists i :: 0 <= i < |entries| && entries[i].key == k
    ensures forall i | 0 <= i < |entries| ::
              entries[i].key in Entries(entries) && Entries(entries)[entries[i].key] == TrimSpace(entries[i].value)
  {
    if entries != [] {
      var n := |entries| - 1;
      EntriesOf(entries[..n]);
      forall i | 0 <= i < |entries|
        ensures entries[i].key in Entries(entries) && Entries(entries)[entries[i].key] == TrimSpace(entries[i].value)
      {
        if i < n {
          assert entries[..n][i] == entries[i];
        }
      }
      forall k | k in Entries(entries) ensures exists i :: 0 <= i < |entries| && entries[i].key == k {
        if k == entries[n].key {
        } else {
          var i :| 0 <= i < n && entries[..n][i].key == k;
          assert entries[i].key == k;
        }
      }
    }
  }
}
