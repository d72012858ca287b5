/** Byte strings as the Go standard library treats them. A Go string is its
    sequence of bytes; each char stands for one byte. */
module Text {

  /** The ASCII bytes that strings.TrimSpace removes. */
  predicate IsSpace(c: char) {
    c == ' ' || c == '\t' || c == '\n' || c == '\r' || c == '\U{0B}' || c == '\U{0C}'
  }

  ghost predicate AllSpace(s: string) {
    forall i | 0 <= i < |s| :: IsSpace(s[i])
  }

  function TrimLeft(s: string): string {
    if s != "" && IsSpace(s[0]) then TrimLeft(s[1..]) else s
  }

  function TrimRight(s: string): string {
    if s != "" && IsSpace(s[|s| - 1]) then TrimRight(s[..|s| - 1]) else s
  }

  function TrimSpace(s: string): string {
    TrimRight(TrimLeft(s))
  }

  /** A string is trimmed when no space stands at either end. */
  predicate Trimmed(s: string) {
    s == "" || (!IsSpace(s[0]) && !IsSpace(s[|s| - 1]))
  }

  lemma {:induction false} TrimLeftParts(s: string)
    ensures exists pre :: s == pre + TrimLeft(s) && AllSpace(pre)
    ensures TrimLeft(s) == "" || !IsSpace(TrimLeft(s)[0])
  {
    if s != "" && IsSpace(s[0]) {
      TrimLeftParts(s[1..]);
      var pre :| s[1..] == pre + TrimLeft(s[1..]) && AllSpace(pre);
      assert s == ([s[0]] + pre) + TrimLeft(s);
      assert AllSpace([s[0]] + pre);
    } else {
      assert s == "" + TrimLeft(s) && AllSpace("");
    }
  }

  lemma {:induction false} TrimRightParts(s: string)
    ensures exists post :: s == TrimRight(s) + post && AllSpace(post)
    ensures TrimRight(s) == "" || !IsSpace(TrimRight(s)[|TrimRight(s)| - 1])
  {
    if s != "" && IsSpace(s[|s| - 1]) {
      var t := s[..|s| - 1];
      TrimRightParts(t);
      var post :| t == TrimRight(t) + post && AllSpace(post);
      assert s == TrimRight(s) + (post + [s[|s| - 1]]);
      assert AllSpace(post + [s[|s| - 1]]);
    } else {
      assert s == TrimRight(s) + "" && AllSpace("");
    }
  }

  /** TrimSpace removes exactly the spaces around a trimmed core. */
  lemma TrimSpaceParts(s: string)
    ensures exists pre, post :: s == pre + TrimSpace(s) + post && AllSpace(pre) && AllSpace(post)
    ensures Trimmed(TrimSpace(s))
  {
    TrimLeftParts(s);
    TrimRightParts(TrimLeft(s));
    var pre :| s == pre + TrimLeft(s) && AllSpace(pre);
    var post :| TrimLeft(s) == TrimSpace(s) + post && AllSpace(post);
    assert s == pre + TrimSpace(s) + post;
    if TrimSpace(s) != "" {
      assert TrimLeft(s)[0] == TrimSpace(s)[0];
    }
  }

  lemma {:induction false} TrimLeftPrefix(pre: string, s: string)
    requires AllSpace(pre)
    ensures TrimLeft(pre + s) == TrimLeft(s)
  {
    if pre == "" {
      assert pre + s == s;
    } else {
      assert (pre + s)[1..] == pre[1..] + s;
      TrimLeftPrefix(pre[1..], s);
    }
  }

  lemma {:induction false} TrimRightSuffix(s: string, post: string)
    requires AllSpace(post)
    ensures TrimRight(s + post) == TrimRight(s)
  {
    if post == "" {
      assert s + post == s;
    } else {
      assert (s + post)[..|s + post| - 1] == s + post[..|post| - 1];
      TrimRightSuffix(s, post[..|post| - 1]);
    }
  }

  /** The core is unique: spaces around a trimmed string are exactly what is removed. */
  lemma TrimSpaceOf(pre: string, core: string, post: string)
    requires AllSpace(pre) && AllSpace(post) && Trimmed(core)
    ensures TrimSpace(pre + core + post) == core
  {
    if core == "" {
      assert pre + core + post == (pre + post) + "";
      TrimLeftPrefix(pre + post, "");
    } else {
      assert pre + core + post == pre + (core + post);
      TrimLeftPrefix(pre, core + post);
      assert TrimLeft(core + post) == core + post;
      TrimRightSuffix(core, post);
    }
  }

  /** The spaces are the bytes 9 to 13 and 32; what lies between them stays. */
  lemma TrimSpaceIs(pre: string, core: string, post: string)
    requires forall i | 0 <= i < |pre| :: pre[i] == ' ' || 9 <= pre[i] as int <= 13
    requires forall i | 0 <= i < |post| :: post[i] == ' ' || 9 <= post[i] as int <= 13
    requires core != "" ==> core[0] != ' ' && !(9 <= core[0] as int <= 13)
    requires core != "" ==> core[|core| - 1] != ' ' && !(9 <= core[|core| - 1] as int <= 13)
    ensures TrimSpace(pre + core + post) == core
  {
    SpacesAre(pre);
    SpacesAre(post);
    TrimSpaceOf(pre, core, post);
  }

  lemma SpacesAre(s: string)
    ensures AllSpace(s) <==> forall i | 0 <= i < |s| :: s[i] == ' ' || 9 <= s[i] as int <= 13
  {
    assert forall i | 0 <= i < |s| :: IsSpace(s[i]) <==> s[i] == ' ' || 9 <= s[i] as int <= 13;
  }

  /** Nothing is left of exactly the strings of spaces. */
  lemma BlankIff(s: string)
    ensures TrimSpace(s) == "" <==> forall i | 0 <= i < |s| :: s[i] == ' ' || 9 <= s[i] as int <= 13
  {
    SpacesAre(s);
    TrimSpaceParts(s);
    assert s + "" + "" == s;
    if AllSpace(s) {
      TrimSpaceOf(s, "", "");
    }
  }

  /** strings.Split on a one-byte separator. */
  function Split(s: string, sep: char): (parts: seq<string>)
    ensures |parts| >= 1
    ensures forall i | 0 <= i < |parts| :: sep !in parts[i]
    ensures Join(parts, [sep]) == s
  {
    if s == "" then
      [""]
    else if s[0] == sep then
      [""] + Split(s[1..], sep)
    else
      var rest := Split(s[1..], sep);
      [[s[0]] + rest[0]] + rest[1..]
  }

  /** strings.Join. */
  function Join(parts: seq<string>, sep: string): string {
    if parts == [] then ""
    else if |parts| == 1 then parts[0]
    else parts[0] + sep + Join(parts[1..], sep)
  }

  lemma JoinIs(part: string, sep: string)
    ensures Join([], sep) == "" && Join([part], sep) == part
  {
  }

  lemma {:induction false} JoinSnoc(parts: seq<string>, part: string, sep: string)
    requires parts != []
    ensures Join(parts + [part], sep) == Join(parts, sep) + sep + part
  {
    assert (parts + [part])[1..] == parts[1..] + [part];
    if |parts| > 1 {
      JoinSnoc(parts[1..], part, sep);
    }
  }

  /** Splitting undoes joining when no part holds the separator. */
  lemma {:induction false} SplitJoin(parts: seq<string>, sep: char)
    requires |parts| >= 1
    requires forall i | 0 <= i < |parts| :: sep !in parts[i]
    ensures Split(Join(parts, [sep]), sep) == parts
  {
    if |parts| == 1 {
      SplitOne(parts[0], sep);
    } else {
      SplitJoin(parts[1..], sep);
      SplitCons(parts[0], Join(parts[1..], [sep]), sep);
    }
  }

  lemma {:induction false} SplitOne(s: string, sep: char)
    requires sep !in s
    ensures Split(s, sep) == [s]
  {
    if s != "" {
      SplitOne(s[1..], sep);
    }
  }

  lemma {:induction false} SplitCons(head: string, rest: string, sep: char)
    requires sep !in head
    ensures Split(head + [sep] + rest, sep) == [head] + Split(rest, sep)
  {
    if head == "" {
      assert (head + [sep] + rest)[1..] == rest;
    } else {
      var all := head + [sep] + rest;
      assert all[0] == head[0] && all[1..] == head[1..] + [sep] + rest;
      SplitCons(head[1..], rest, sep);
      assert Split(all, sep) == [[head[0]] + head[1..]] + Split(rest, sep);
      assert [head[0]] + head[1..] == head;
    }
  }

  /** The pieces one after the other. */
  function Concat(parts: seq<string>): string {
    if parts == [] then "" else parts[0] + Concat(parts[1..])
  }

  lemma {:induction false} ConcatAppend(parts: seq<string>, part: string)
    ensures Concat(parts + [part]) == Concat(parts) + part
  {
    if parts == [] {
      assert [] + [part] == [part] && [part][1..] == [];
      assert Concat([part]) == part + Concat([]);
    } else {
      assert (parts + [part])[1..] == parts[1..] + [part];
      ConcatAppend(parts[1..], part);
    }
  }

  // ----- case -----

  function LowerChar(c: char): char {
    if 'A' <= c <= 'Z' then 'a' + (c - 'A') else c
  }

  /** strings.ToLower on ASCII. */
  function ToLower(s: string): string {
    seq(|s|, i requires 0 <= i < |s| => LowerChar(s[i]))
  }

  /** Byte by byte, and only A to Z change, to the letter 32 further on. */
  lemma ToLowerIs(s: string)
    ensures |ToLower(s)| == |s|
    ensures forall i | 0 <= i < |s| ::
              ToLower(s)[i] as int == if 65 <= s[i] as int <= 90 then s[i] as int + 32 else s[i] as int
  {
  }
}
