/** Shell and PowerShell quoting, the readers that undo it, and the docker build command
    line assembled from quoted words. */
module Quoting {
  import opened Results
  import opened Lexical
  import opened Text

  /** strings.ReplaceAll with a one-byte pattern. */
  function ReplaceAll(s: string, c: char, with: string): string {
    if s == "" then "" else (if s[0] == c then with else [s[0]]) + ReplaceAll(s[1..], c, with)
  }

  function ShellQuote(s: string): string {
    "'" + ReplaceAll(s, '\'', "'\\''") + "'"
  }

  function PsQuote(s: string): string {
    "'" + ReplaceAll(s, '\'', "''") + "'"
  }

  /** Text without apostrophes stands between two of them; each apostrophe of a text becomes four
      characters for a shell and two for PowerShell. */
  lemma QuotesAre(a: string, b: string)
    requires '\'' !in a
    ensures ShellQuote(a) == "'" + a + "'" && PsQuote(a) == "'" + a + "'"
    ensures ShellQuote(a + "'" + b) == "'" + a + "'\\'" + ShellQuote(b)
    ensures PsQuote(a + "'" + b) == "'" + a + "'" + PsQuote(b)
  {
    NothingReplaced(a, '\'', "'\\''");
    NothingReplaced(a, '\'', "''");
    ReplacedBehind(a, '\'', b, "'\\''");
    ReplacedBehind(a, '\'', b, "''");
    var s := ReplaceAll(b, '\'', "'\\''");
    assert "'" + (a + "'\\''" + s) + "'" == "'" + a + "'\\'" + ("'" + s + "'");
    var p := ReplaceAll(b, '\'', "''");
    assert "'" + (a + "''" + p) + "'" == "'" + a + "'" + ("'" + p + "'");
  }

  lemma {:induction false} NothingReplaced(s: string, c: char, with: string)
    requires c !in s
    ensures ReplaceAll(s, c, with) == s
  {
    if s != "" {
      NothingReplaced(s[1..], c, with);
    }
  }

  lemma {:induction false} ReplacedBehind(s: string, c: char, rest: string, with: string)
    requires c !in s
    ensures ReplaceAll(s + [c] + rest, c, with) == s + with + ReplaceAll(rest, c, with)
  {
    if s == "" {
      assert s + [c] + rest == [c] + rest && ([c] + rest)[1..] == rest;
      assert s + with == with;
    } else {
      var all := s + [c] + rest;
      assert all[0] == s[0] && all[1..] == s[1..] + [c] + rest;
      ReplacedBehind(s[1..], c, rest, with);
      assert [s[0]] + (s[1..] + with + ReplaceAll(rest, c, with)) == s + with + ReplaceAll(rest, c, with);
    }
  }

  // ----- POSIX words -----

  /** Where the word reader stands: between words, inside one, or inside one and inside
      single quotes. */
  datatype Mode = Blank | Word(text: string) | Quoted(text: string)

  /** Characters that do something other than stand for themselves when unquoted. */
  predicate Special(c: char) {
    || c == '|' || c == '&' || c == ';' || c == '<' || c == '>' || c == '(' || c == ')'
    || c == '$' || c == '`' || c == '"' || c == '*' || c == '?' || c == '[' || c == ']'
    || c == '#' || c == '~' || c == '=' || c == '%' || c == '!' || c == '{' || c == '}'
    || c == '\n'
  }

  /** Words of a simple command under section 2.2.1 (backslash) and section 2.2.2 (single
      quotes) of the POSIX.1-2017 Shell Command Language. None when a quote is left open, a
      backslash ends the text, or an unquoted character needs any other shell rule. */
  function Words(s: string, mode: Mode): Option<seq<string>> {
    if s == "" then
      match mode
      case Blank => Some([])
      case Word(w) => Some([w])
      case Quoted(_) => None
    else if mode.Quoted? then
      Words(s[1..], if s[0] == '\'' then Word(mode.text) else Quoted(mode.text + [s[0]]))
    else if s[0] == ' ' || s[0] == '\t' then
      if mode.Word? then Cons(mode.text, Words(s[1..], Blank)) else Words(s[1..], Blank)
    else
      var text := if mode.Word? then mode.text else "";
      if s[0] == '\'' then Words(s[1..], Quoted(text))
      else if s[0] == '\\' then
        if |s| == 1 then None
        else if s[1] == '\n' then Words(s[2..], mode)  // line continuation
        else Words(s[2..], Word(text + [s[1]]))
      else if Special(s[0]) then None
      else Words(s[1..], Word(text + [s[0]]))
  }

  function Cons(w: string, rest: Option<seq<string>>): Option<seq<string>> {
    match rest
    case None => None
    case Some(ws) => Some([w] + ws)
  }

  /** Inside quotes, the encoded body of s followed by the closing quote reads as s. */
  lemma {:induction false} QuotedBodyReads(s: string, acc: string, rest: string)
    ensures Words(ReplaceAll(s, '\'', "'\\''") + "'" + rest, Quoted(acc)) == Words(rest, Word(acc + s))
  {
    var enc := ReplaceAll(s, '\'', "'\\''");
    var all := enc + "'" + rest;
    if s == "" {
      assert all[1..] == rest && acc + s == acc;
    } else {
      var enc1 := ReplaceAll(s[1..], '\'', "'\\''");
      var all1 := enc1 + "'" + rest;
      QuotedBodyReads(s[1..], acc + [s[0]], rest);
      assert acc + [s[0]] + s[1..] == acc + s;
      if s[0] == '\'' {
        assert all == "'\\''" + all1;
        QuoteEscapeReads(all1, acc);
      } else {
        assert all == [s[0]] + all1;
      }
    }
  }

  /** Leaving the quotes, an escaped apostrophe and re-entering them adds one apostrophe. */
  lemma QuoteEscapeReads(rest: string, acc: string)
    ensures Words("'\\''" + rest, Quoted(acc)) == Words(rest, Quoted(acc + ['\'']))
  {
    var s0 := "'\\''" + rest;
    var s1 := s0[1..];
    assert s1 == "\\''" + rest;
    assert s1[2..] == "'" + rest;
    assert ("'" + rest)[1..] == rest;
    assert Words(s0, Quoted(acc)) == Words(s1, Word(acc));
    assert Words(s1, Word(acc)) == Words("'" + rest, Word(acc + ['\'']));
  }

  /** A quoted string reads as exactly that string, joined to whatever word it continues,
      and the reader stands right behind the closing quote. */
  lemma ShellQuoteReads(s: string, rest: string, mode: Mode)
    requires !mode.Quoted?
    ensures Words(ShellQuote(s) + rest, mode) ==
            Words(rest, Word((if mode.Word? then mode.text else "") + s))
  {
    var text := if mode.Word? then mode.text else "";
    var body := ReplaceAll(s, '\'', "'\\''") + "'" + rest;
    assert ShellQuote(s) + rest == "'" + body;
    assert ("'" + body)[1..] == body;
    QuotedBodyReads(s, text, rest);
  }

  /** The round trip: a quoted string is one word, and that word is the string. */
  lemma ShellQuoteRoundTrip(s: string)
    ensures Words(ShellQuote(s), Blank) == Some([s])
  {
    assert ShellQuote(s) + "" == ShellQuote(s);
    ShellQuoteReads(s, "", Blank);
    assert "" + s == s;
  }

  predicate PlainChar(c: char) {
    c != ' ' && c != '\t' && c != '\'' && c != '\\' && !Special(c)
  }

  predicate Plain(s: string) {
    forall i | 0 <= i < |s| :: PlainChar(s[i])
  }

  lemma {:induction false} PlainReads(s: string, rest: string, acc: string)
    requires Plain(s)
    ensures Words(s + rest, Word(acc)) == Words(rest, Word(acc + s))
  {
    if s == "" {
      assert s + rest == rest && acc + s == acc;
    } else {
      assert (s + rest)[1..] == s[1..] + rest;
      PlainReads(s[1..], rest, acc + [s[0]]);
      assert acc + [s[0]] + s[1..] == acc + s;
    }
  }

  // ----- the docker build command -----

  /** The words a build is meant to receive, keys in the given order. */
  ghost function BuildWords(tag: string, dockerfile: string, keys: seq<string>, env: map<string, string>,
                            workdir: string): seq<string>
    requires forall k | k in keys :: k in env
  {
    ["docker", "build", "-t", tag, "-f", dockerfile] + BuildArgs(keys, env) + [workdir]
  }

  function Assignment(k: string, env: map<string, string>): string
    requires k in env
  {
    k + "=" + env[k]
  }

  ghost function BuildArgs(keys: seq<string>, env: map<string, string>): seq<string>
    requires forall k | k in keys :: k in env
  {
    if keys == [] then []
    else BuildArgs(keys[..|keys| - 1], env) + [BUILD_FLAG, Assignment(keys[|keys| - 1], env)]
  }

  /** One --build-arg for each key, in order. */
  lemma BuildWordsAre(tag: string, dockerfile: string, keys: seq<string>, k: string, env: map<string, string>,
                      workdir: string)
    requires k in env && forall k' | k' in keys :: k' in env
    ensures BuildWords(tag, dockerfile, keys, env, workdir) ==
            ["docker", "build", "-t", tag, "-f", dockerfile] + BuildArgs(keys, env) + [workdir]
    ensures BuildArgs([], env) == []
    ensures BuildArgs(keys + [k], env) == BuildArgs(keys, env) + ["--build-arg", k + "=" + env[k]]
  {
    assert (keys + [k])[..|keys|] == keys;
  }

  /** A piece of the line stands for a word: quoted, or made of ordinary characters. */
  ghost predicate Encodes(piece: string, word: string) {
    piece == ShellQuote(word) || (piece == word && word != "" && Plain(word))
  }

  lemma PieceReads(piece: string, word: string, rest: string)
    requires Encodes(piece, word)
    ensures Words(piece + rest, Blank) == Words(rest, Word(word))
  {
    if piece == ShellQuote(word) {
      ShellQuoteReads(word, rest, Blank);
      assert "" + word == word;
    } else {
      assert (word + rest)[1..] == word[1..] + rest;
      PlainReads(word[1..], rest, "" + [word[0]]);
      assert "" + [word[0]] + word[1..] == word;
    }
  }

  /** Pieces joined by blanks read as the words they stand for. */
  lemma {:induction false} PiecesRead(pieces: seq<string>, words: seq<string>)
    requires |pieces| == |words| >= 1
    requires forall i | 0 <= i < |pieces| :: Encodes(pieces[i], words[i])
    ensures Words(Join(pieces, " "), Blank) == Some(words)
  {
    if |pieces| == 1 {
      PieceReads(pieces[0], words[0], "");
      assert pieces[0] + "" == pieces[0] && words == [words[0]];
    } else {
      var rest := Join(pieces[1..], " ");
      assert Join(pieces, " ") == pieces[0] + (" " + rest);
      PieceReads(pieces[0], words[0], " " + rest);
      assert (" " + rest)[1..] == rest;
      PiecesRead(pieces[1..], words[1..]);
      assert [words[0]] + words[1..] == words;
    }
  }

  const BUILD_HEAD := "docker build -t "
  const BUILD_FILE := " -f "
  const BUILD_FLAG := "--build-arg"
  const BUILD_ARG := " --build-arg "

  /** line is made of pieces standing for the words, joined by single blanks. */
  ghost predicate Assembled(line: string, words: seq<string>) {
    exists pieces: seq<string> :: AssembledFrom(line, words, pieces)
  }

  ghost predicate AssembledFrom(line: string, words: seq<string>, pieces: seq<string>) {
    && |pieces| == |words| >= 1
    && line == Join(pieces, " ")
    && forall i | 0 <= i < |pieces| :: Encodes(pieces[i], words[i])
  }

  lemma AssembledReads(line: string, words: seq<string>)
    requires Assembled(line, words)
    ensures Words(line, Blank) == Some(words)
  {
    var pieces :| AssembledFrom(line, words, pieces);
    PiecesRead(pieces, words);
  }

  lemma AppendPiece(line: string, words: seq<string>, piece: string, word: string)
    requires Assembled(line, words) && Encodes(piece, word)
    ensures Assembled(line + " " + piece, words + [word])
  {
    var pieces :| AssembledFrom(line, words, pieces);
    JoinSnoc(pieces, piece, " ");
    assert AssembledFrom(line + " " + piece, words + [word], pieces + [piece]);
  }

  /** The assembled command reads as exactly the intended words, for every build
      environment. */
  method DockerBuildCommand(tag: string, dockerfile: string, env: map<string, string>, workdir: string)
    returns (build: string)
    ensures exists keys ::
              SortedKeysOf(keys, env) && Words(build, Blank) == Some(BuildWords(tag, dockerfile, keys, env, workdir))
  {
    build := BUILD_HEAD + ShellQuote(tag) + BUILD_FILE + ShellQuote(dockerfile);
    ghost var prefix := BuildPrefix(tag, dockerfile);
    var sorted := SortedKeys(env);
    assert prefix + BuildArgs(sorted[..0], env) == prefix;
    for i := 0 to |sorted|
      invariant Assembled(build, prefix + BuildArgs(sorted[..i], env))
    {
      AppendArg(build, prefix, sorted, i, env);
      build := build + BUILD_ARG + ShellQuote(Assignment(sorted[i], env));
    }
    assert sorted[..|sorted|] == sorted;
    AppendPiece(build, prefix + BuildArgs(sorted, env), ShellQuote(workdir), workdir);
    build := build + " " + ShellQuote(workdir);
    AssembledReads(build, prefix + BuildArgs(sorted, env) + [workdir]);
  }

  lemma BuildPrefix(tag: string, dockerfile: string) returns (words: seq<string>)
    ensures words == ["docker", "build", "-t", tag, "-f", dockerfile]
    ensures Assembled(BUILD_HEAD + ShellQuote(tag) + BUILD_FILE + ShellQuote(dockerfile), words)
  {
    var q, f := ShellQuote(tag), ShellQuote(dockerfile);
    words := ["docker", "build", "-t", tag, "-f", dockerfile];
    var p3, p4 := [q, "-f", f], ["-f", f];
    assert p4[1..] == [f];
    assert Join(p4, " ") == "-f" + " " + f;
    assert p3[1..] == p4;
    assert Join(p3, " ") == q + " " + Join(p4, " ");
    JoinThree("docker", "build", "-t", p3);
    var pieces := ["docker", "build", "-t"] + p3;
    HeadLiteral();
    FileLiteral();
    PlainLiterals();
    assert Join(pieces, " ") == BUILD_HEAD + (q + " " + ("-f" + " " + f));
    assert q + " " + ("-f" + " " + f) == q + (" " + "-f" + " ") + f;
    assert AssembledFrom(BUILD_HEAD + q + BUILD_FILE + f, words, pieces);
  }

  lemma JoinThree(a: string, b: string, c: string, rest: seq<string>)
    requires rest != []
    ensures Join([a, b, c] + rest, " ") == (a + " " + b + " " + c + " ") + Join(rest, " ")
  {
    var r2 := [c] + rest;
    var r1 := [b] + r2;
    assert r2[1..] == rest && r1[1..] == r2;
    assert [a, b, c] + rest == [a] + r1;
    assert ([a] + r1)[1..] == r1;
    assert Join(r2, " ") == c + " " + Join(rest, " ");
    assert Join(r1, " ") == b + " " + Join(r2, " ");
    assert Join([a] + r1, " ") == a + " " + Join(r1, " ");
  }

  lemma HeadLiteral()
    ensures "docker" + " " + "build" + " " + "-t" + " " == BUILD_HEAD
  {
  }

  lemma FileLiteral()
    ensures " " + "-f" + " " == BUILD_FILE
  {
  }

  lemma PlainLiterals()
    ensures Plain("docker") && Plain("build") && Plain("-t") && Plain("-f")
  {
  }

  lemma AppendArg(line: string, prefix: seq<string>, keys: seq<string>, i: nat, env: map<string, string>)
    requires i < |keys| && forall k | k in keys :: k in env
    requires Assembled(line, prefix + BuildArgs(keys[..i], env))
    ensures Assembled(line + BUILD_ARG + ShellQuote(Assignment(keys[i], env)), prefix + BuildArgs(keys[..i + 1], env))
  {
    var arg := Assignment(keys[i], env);
    var words := prefix + BuildArgs(keys[..i], env);
    assert keys[..i + 1][..i] == keys[..i];
    assert prefix + BuildArgs(keys[..i + 1], env) == words + [BUILD_FLAG] + [arg];
    AppendFlagged(line, words, BUILD_FLAG, BUILD_ARG, arg) by {
      ArgLiteral();
      PlainFlag();
    }
  }

  lemma AppendFlagged(line: string, words: seq<string>, flag: string, between: string, arg: string)
    requires Assembled(line, words) && flag != "" && Plain(flag) && between == " " + flag + " "
    ensures Assembled(line + between + ShellQuote(arg), words + [flag] + [arg])
  {
    AppendPiece(line, words, flag, flag);
    AppendPiece(line + " " + flag, words + [flag], ShellQuote(arg), arg);
    assert line + " " + flag + " " + ShellQuote(arg) == line + between + ShellQuote(arg);
  }

  lemma ArgLiteral()
    ensures BUILD_ARG == " " + BUILD_FLAG + " "
  {
  }

  lemma PlainFlag()
    ensures BUILD_FLAG != "" && Plain(BUILD_FLAG)
  {
  }

  // ----- PowerShell literals -----

  /** The text of a single-quoted literal whose opening quote has been read, and what stands
      behind it: a doubled apostrophe stands for one, a single one closes the literal. */
  function PsLiteral(s: string): Option<(string, string)> {
    if s == "" then None
    else if s[0] != '\'' then PsCons(s[0], PsLiteral(s[1..]))
    else if |s| >= 2 && s[1] == '\'' then PsCons('\'', PsLiteral(s[2..]))
    else Some(("", s[1..]))
  }

  function PsCons(c: char, r: Option<(string, string)>): Option<(string, string)> {
    match r
    case None => None
    case Some((text, rest)) => Some(([c] + text, rest))
  }

  lemma {:induction false} PsBodyReads(s: string, rest: string)
    requires rest == "" || rest[0] != '\''
    ensures PsLiteral(ReplaceAll(s, '\'', "''") + "'" + rest) == Some((s, rest))
  {
    var all := ReplaceAll(s, '\'', "''") + "'" + rest;
    if s == "" {
      assert all[1..] == rest;
    } else {
      var all1 := ReplaceAll(s[1..], '\'', "''") + "'" + rest;
      PsBodyReads(s[1..], rest);
      assert [s[0]] + s[1..] == s;
      if s[0] == '\'' {
        assert all == "''" + all1;
        assert all[2..] == all1;
      } else {
        assert all == [s[0]] + all1;
        assert all[1..] == all1;
      }
    }
  }

  /** A quoted literal gives back its text and ends exactly before what follows it; what
      follows can only be misread when it begins with another apostrophe. */
  lemma PsQuoteRoundTrip(s: string, rest: string)
    ensures var q := PsQuote(s) + rest;
            q[0] == '\'' && (PsLiteral(q[1..]) == Some((s, rest)) <==> (rest == "" || rest[0] != '\''))
  {
    var body := ReplaceAll(s, '\'', "''") + "'" + rest;
    assert PsQuote(s) + rest == "'" + body;
    assert ("'" + body)[1..] == body;
    if rest == "" || rest[0] != '\'' {
      PsBodyReads(s, rest);
    } else {
      PsRunsOn(s, rest);
    }
  }

  lemma {:induction false} PsRunsOn(s: string, rest: string)
    requires rest != "" && rest[0] == '\''
    ensures var r := PsLiteral(ReplaceAll(s, '\'', "''") + "'" + rest);
            r.None? || |r.value.0| > |s|
  {
    var all := ReplaceAll(s, '\'', "''") + "'" + rest;
    if s == "" {
      assert all == "'" + rest;
    } else {
      var all1 := ReplaceAll(s[1..], '\'', "''") + "'" + rest;
      PsRunsOn(s[1..], rest);
      if s[0] == '\'' {
        assert all == "''" + all1;
        assert all[2..] == all1;
      } else {
        assert all == [s[0]] + all1;
        assert all[1..] == all1;
      }
    }
  }
}
