/** Bounded retention of remote command output: the head/tail buffer that SSH sessions
    write into, the one-shot cap applied before logging, and the last-line reader that
    picks a printed value out of either. */
module CommandOutput {
  import opened Text

  const MAX_COMMAND_OUTPUT: nat := 2 * 1024 * 1024
  const HEAD_LIMIT: nat := MAX_COMMAND_OUTPUT / 2
  const TAIL_LIMIT: nat := MAX_COMMAND_OUTPUT - HEAD_LIMIT
  const NOTICE: string := "\n...[command output truncated]...\n"

  function Prefix(s: string, limit: nat): string {
    if |s| <= limit then s else s[..limit]
  }

  function Suffix(s: string, limit: nat): string {
    if |s| <= limit then s else s[|s| - limit..]
  }

  function CapCommandOutput(value: string): string {
    if |value| <= MAX_COMMAND_OUTPUT then
      value
    else
      value[..HEAD_LIMIT] + NOTICE + value[|value| - HEAD_LIMIT..]
  }

  /** Up to 2 MiB stay as they are. */
  lemma ShortStays(value: string)
    requires |value| <= 2 * 1024 * 1024
    ensures CapCommandOutput(value) == value
  {
  }

  /** Of more the first and the last MiB stay, with the notice between. */
  lemma LongIsCut(head: string, dropped: string, tail: string)
    requires |head| == |tail| == 1024 * 1024 && dropped != ""
    ensures CapCommandOutput(head + dropped + tail) == head + NOTICE + tail
  {
    var value := head + dropped + tail;
    Ends(value, head, dropped, tail, HEAD_LIMIT);
  }

  lemma Ends(value: string, head: string, dropped: string, tail: string, n: nat)
    requires value == head + dropped + tail && |head| == |tail| == n
    ensures value[..n] == head && value[|value| - n..] == tail
  {
  }

  lemma NoticeIs()
    ensures NOTICE == "\n...[command output truncated]...\n"
  {
  }

  /** head and tail are the two ends of the stream, as far as they are kept. */
  ghost predicate Kept(stream: string, head: string, tail: string) {
    && head == Prefix(stream, HEAD_LIMIT)
    && tail == Suffix(stream[|head|..], TAIL_LIMIT)
  }

  class SyncBuffer {
    var head: string
    var tail: string
    var total: nat
    var truncated: bool
    ghost var stream: string  // everything ever written, in order

    ghost predicate Valid()
      reads this
    {
      && Kept(stream, head, tail)
      && total == |stream|
      && (truncated <==> |stream| > MAX_COMMAND_OUTPUT)
    }

    constructor ()
      ensures Valid() && stream == ""
    {
      head, tail, total, truncated := "", "", 0, false;
      stream := "";
    }

    /** Takes any chunk whole; the state stays a function of the stream so far. */
    method Write(p: string) returns (n: nat)
      requires Valid()
      modifies this
      ensures Valid() && stream == old(stream) + p && n == |p|
    {
      n := |p|;
      KeptLengths(stream, head, tail);
      total := total + |p|;
      var rest, taken := FillHead(p);
      if |rest| > 0 {
        FillTail(rest);
      }
      if total > MAX_COMMAND_OUTPUT {
        truncated := true;
      }
      WriteKeepsHeadAndTail(stream, p, taken, old(head), old(tail), head, tail, rest);
      stream := stream + p;
    }

    /** The head takes what it still has room for. */
    method FillHead(p: string) returns (rest: string, ghost room: nat)
      requires |head| <= HEAD_LIMIT
      modifies this`head
      ensures room <= |p| && head == old(head) + p[..room] && rest == p[room..]
      ensures |head| <= HEAD_LIMIT && (|head| == HEAD_LIMIT || rest == "")
    {
      rest, room := p, 0;
      if |head| < HEAD_LIMIT {
        var n := HEAD_LIMIT - |head|;
        if n > |rest| {
          n := |rest|;
        }
        head := head + rest[..n];
        rest := rest[n..];
        room := n;
      }
    }

    /** The tail keeps the newest bytes. */
    method FillTail(rest: string)
      modifies this`tail, this`truncated
      ensures tail == Suffix(old(tail) + rest, TAIL_LIMIT)
      ensures truncated == (old(truncated) || |old(tail)| + |rest| > TAIL_LIMIT)
    {
      tail := tail + rest;
      if |tail| > TAIL_LIMIT {
        tail := tail[|tail| - TAIL_LIMIT..];
        truncated := true;
      }
    }

    /** The rendered buffer is what capping the whole stream at once would give. */
    method String() returns (s: string)
      requires Valid()
      ensures s == CapCommandOutput(stream)
    {
      RenderedStream(stream);
      if !truncated {
        return head + tail;
      }
      return head + NOTICE + tail;
    }
  }

  lemma KeptLengths(stream: string, head: string, tail: string)
    requires Kept(stream, head, tail)
    ensures |head| <= HEAD_LIMIT && |tail| <= TAIL_LIMIT && |tail| <= |stream| - |head|
  {
  }

  /** One write against the definitions of head and tail. */
  lemma WriteKeepsHeadAndTail(stream: string, p: string, room: nat, head: string, tail: string,
                              head': string, tail': string, rest': string)
    requires Kept(stream, head, tail)
    requires room <= |p| && |head'| <= HEAD_LIMIT && (|head'| == HEAD_LIMIT || rest' == "")
    requires head' == head + p[..room] && rest' == p[room..]
    requires tail' == if rest' == "" then tail else Suffix(tail + rest', TAIL_LIMIT)
    ensures Kept(stream + p, head', tail')
  {
    assert rest' == "" ==> tail + rest' == tail && Suffix(tail, TAIL_LIMIT) == tail;
    PrefixOfAppend(stream, p, HEAD_LIMIT, room);
    var rest := stream[|head|..];
    assert (stream + p)[|head'|..] == rest + p[room..] by {
      if room > 0 {
        assert stream == head;
      }
    }
    SuffixOfAppend(rest, p[room..], TAIL_LIMIT);
  }

  lemma PrefixOfAppend(s: string, p: string, limit: nat, room: nat)
    requires room == if |s| < limit then (if limit - |s| > |p| then |p| else limit - |s|) else 0
    ensures Prefix(s, limit) + p[..room] == Prefix(s + p, limit)
  {
  }

  lemma SuffixOfAppend(s: string, p: string, limit: nat)
    ensures Suffix(Suffix(s, limit) + p, limit) == Suffix(s + p, limit)
  {
  }

  lemma RenderedStream(stream: string)
    ensures var head := Prefix(stream, HEAD_LIMIT);
            var tail := Suffix(stream[|head|..], TAIL_LIMIT);
            CapCommandOutput(stream) ==
            if |stream| > MAX_COMMAND_OUTPUT then head + NOTICE + tail else head + tail
  {
    var head := Prefix(stream, HEAD_LIMIT);
    var rest := stream[|head|..];
    assert stream == head + rest;
    if |stream| > MAX_COMMAND_OUTPUT {
      assert Suffix(rest, TAIL_LIMIT) == stream[|stream| - TAIL_LIMIT..];
    }
  }

  /** A session copying output in arbitrary chunks returns a function of the
      concatenation alone. */
  method CollectOutput(chunks: seq<string>) returns (out: string)
    ensures out == CapCommandOutput(Concat(chunks))
  {
    var buf := new SyncBuffer();
    for i := 0 to |chunks|
      invariant buf.Valid() && buf.stream == Concat(chunks[..i])
      invariant fresh(buf)
    {
      var _ := buf.Write(chunks[i]);
      ConcatAppend(chunks[..i], chunks[i]);
      assert chunks[..i + 1] == chunks[..i] + [chunks[i]];
    }
    assert chunks[..|chunks|] == chunks;
    out := buf.String();
  }

  // ----- the last printed line -----

  /** The last entry that is not blank, trimmed. */
  function LastNonBlank(lines: seq<string>): string {
    if lines == [] then ""
    else if TrimSpace(lines[|lines| - 1]) != "" then TrimSpace(lines[|lines| - 1])
    else LastNonBlank(lines[..|lines| - 1])
  }

  function LastLineOf(out: string): string {
    LastNonBlank(Split(TrimSpace(out), '\n'))
  }

  method LastLine(out: string) returns (line: string)
    ensures line == LastLineOf(out)
  {
    var lines := Split(TrimSpace(out), '\n');
    var i := |lines|;
    assert lines[..i] == lines;
    while i > 0
      invariant 0 <= i <= |lines|
      invariant LastNonBlank(lines[..i]) == LastNonBlank(lines)
    {
      i := i - 1;
      assert lines[..i + 1][..i] == lines[..i];
      var s := TrimSpace(lines[i]);
      if s != "" {
        return s;
      }
    }
    return "";
  }

  ghost predicate SpacesIn(s: string, lo: nat, hi: nat)
    requires hi <= |s|
  {
    forall i | lo <= i < hi :: IsSpace(s[i])
  }

  ghost predicate NoNewlineIn(s: string, lo: nat, hi: nat)
    requires hi <= |s|
  {
    forall i | lo <= i < hi :: s[i] != '\n'
  }

  /** A line can start at nl. */
  ghost predicate StartsLine(s: string, nl: nat)
    requires nl <= |s|
  {
    nl == 0 || s[nl - 1] == '\n'
  }

  /** out[b..e] is the trimmed last line that is not blank: only spaces follow it, and only
      spaces stand between it and the newline (or the start) before it. */
  ghost predicate IsLastLine(out: string, b: nat, e: nat) {
    && b < e <= |out|
    && !IsSpace(out[b]) && !IsSpace(out[e - 1])
    && SpacesIn(out, e, |out|)
    && NoNewlineIn(out, b, e)
    && exists nl: nat | nl <= b :: StartsLine(out, nl) && SpacesIn(out, nl, b)
  }

  /** t ends in last, alone or behind a separator. */
  ghost predicate EndsIn(t: string, sep: char, last: string) {
    |last| <= |t| && t[|t| - |last|..] == last && (|last| < |t| ==> t[|t| - |last| - 1] == sep)
  }

  lemma EndsInCons(t: string, sep: char, last: string)
    requires t != "" && EndsIn(t[1..], sep, last) && (t[0] == sep || |last| < |t| - 1)
    ensures EndsIn(t, sep, last)
  {
    assert t[|t| - |last|..] == t[1..][|t| - 1 - |last|..];
  }

  lemma {:induction false} SplitLast(t: string, sep: char)
    ensures var parts := Split(t, sep);
            EndsIn(t, sep, parts[|parts| - 1]) && (|parts| == 1 <==> |parts[|parts| - 1]| == |t|)
  {
    if t != "" {
      SplitLast(t[1..], sep);
      var rest := Split(t[1..], sep);
      var last := rest[|rest| - 1];
      if t[0] != sep && |rest| == 1 {
        assert t[1..][0..] == t[1..];
        assert [t[0]] + last == t;
        assert t[0..] == t;
      } else {
        EndsInCons(t, sep, last);
      }
    }
  }

  /** Trimming in place: the trimmed text occupies out[p..p + |TrimSpace(out)|]. */
  lemma TrimSpaceAt(out: string) returns (p: nat)
    ensures p + |TrimSpace(out)| <= |out| && out[p..p + |TrimSpace(out)|] == TrimSpace(out)
    ensures SpacesIn(out, 0, p) && SpacesIn(out, p + |TrimSpace(out)|, |out|)
    ensures Trimmed(TrimSpace(out))
  {
    TrimSpaceParts(out);
    var t := TrimSpace(out);
    var pre, post :| out == pre + t + post && AllSpace(pre) && AllSpace(post);
    p := |pre|;
    assert forall i | 0 <= i < p :: out[i] == pre[i];
    assert forall i | p + |t| <= i < |out| :: out[i] == post[i - p - |t|];
  }

  /** The last line ends where the trimmed text ends and begins in its last split part. */
  lemma LastPartBegins(out: string, b: nat, e: nat, p: nat, hi: nat, start: nat)
    requires IsLastLine(out, b, e)
    requires p <= start <= hi <= |out| && SpacesIn(out, 0, p) && SpacesIn(out, hi, |out|)
    requires hi == p || !IsSpace(out[hi - 1])
    requires NoNewlineIn(out, start, hi) && (start == p || out[start - 1] == '\n')
    ensures e == hi && start <= b && SpacesIn(out, start, b)
  {
    assert p <= b < hi;
    assert e == hi;
    var nl: nat :| nl <= b && StartsLine(out, nl) && SpacesIn(out, nl, b);
    assert start <= b;
    assert nl <= start;
  }

  /** LastLine finds exactly the line that IsLastLine describes. */
  lemma LastLineIs(out: string, b: nat, e: nat)
    requires IsLastLine(out, b, e)
    ensures LastLineOf(out) == out[b..e]
  {
    var p := TrimSpaceAt(out);
    LastPartOfText(out, b, e, p, TrimSpace(out));
  }

  /** The same with the pieces spelled out: a line between spaces, behind the start or a line feed. */
  lemma LastLineSpelledOut(front: string, pre: string, line: string, post: string)
    requires front == "" || front[|front| - 1] == '\n'
    requires forall i | 0 <= i < |pre| :: pre[i] == ' ' || 9 <= pre[i] as int <= 13
    requires forall i | 0 <= i < |post| :: post[i] == ' ' || 9 <= post[i] as int <= 13
    requires line != "" && line[0] != ' ' && !(9 <= line[0] as int <= 13) && '\n' !in line
    requires line[|line| - 1] != ' ' && !(9 <= line[|line| - 1] as int <= 13)
    ensures LastLineOf(front + pre + line + post) == line
  {
    var out := front + pre + line + post;
    var nl := |front|;
    var b := nl + |pre|;
    var e := b + |line|;
    assert out[b..e] == line;
    assert forall i | nl <= i < b :: out[i] == pre[i - nl];
    assert forall i | b <= i < e :: out[i] == line[i - b];
    assert forall i | e <= i < |out| :: out[i] == post[i - e];
    assert StartsLine(out, nl) && SpacesIn(out, nl, b);
    LastLineIs(out, b, e);
  }

  lemma LastPartOfText(out: string, b: nat, e: nat, p: nat, t: string)
    requires IsLastLine(out, b, e)
    requires p + |t| <= |out| && out[p..p + |t|] == t && Trimmed(t)
    requires SpacesIn(out, 0, p) && SpacesIn(out, p + |t|, |out|)
    ensures LastNonBlank(Split(t, '\n')) == out[b..e]
  {
    var last := LastPart(t);
    TrimmedLastPart(out, b, e, p, t, last);
  }

  lemma LastPart(t: string) returns (last: string)
    ensures |last| <= |t| && t[|t| - |last|..] == last && '\n' !in last
    ensures |last| < |t| ==> t[|t| - |last| - 1] == '\n'
    ensures TrimSpace(last) != "" ==> LastNonBlank(Split(t, '\n')) == TrimSpace(last)
  {
    var parts := Split(t, '\n');
    last := parts[|parts| - 1];
    SplitLast(t, '\n');
  }

  lemma TrimmedLastPart(out: string, b: nat, e: nat, p: nat, t: string, last: string)
    requires IsLastLine(out, b, e)
    requires p + |t| <= |out| && out[p..p + |t|] == t && Trimmed(t)
    requires SpacesIn(out, 0, p) && SpacesIn(out, p + |t|, |out|)
    requires |last| <= |t| && t[|t| - |last|..] == last && '\n' !in last
    requires |last| < |t| ==> t[|t| - |last| - 1] == '\n'
    ensures TrimSpace(last) == out[b..e]
  {
    var hi := p + |t|;
    if t != "" {
      assert out[hi - 1] == t[|t| - 1];
    }
    var start := hi - |last|;
    LastPartAt(out, p, t, last);
    LastPartBegins(out, b, e, p, hi, start);
    TrimmedPart(out, start, b, e, last);
  }

  lemma LastPartAt(out: string, p: nat, t: string, last: string)
    requires p + |t| <= |out| && out[p..p + |t|] == t
    requires |last| <= |t| && t[|t| - |last|..] == last && '\n' !in last
    requires |last| < |t| ==> t[|t| - |last| - 1] == '\n'
    ensures var start := p + |t| - |last|;
            out[start..p + |t|] == last && NoNewlineIn(out, start, p + |t|) &&
            (start == p || out[start - 1] == '\n')
  {
    var start := p + |t| - |last|;
    assert forall i | p <= i < p + |t| :: out[i] == t[i - p];
    assert forall i | start <= i < p + |t| :: out[i] == last[i - start];
  }

  lemma TrimmedPart(out: string, start: nat, b: nat, e: nat, last: string)
    requires start <= b < e <= |out| && SpacesIn(out, start, b) && out[start..e] == last
    requires !IsSpace(out[b]) && !IsSpace(out[e - 1])
    ensures TrimSpace(last) == out[b..e]
  {
    var gap := out[start..b];
    assert AllSpace(gap);
    assert last == gap + out[b..e] + "";
    TrimSpaceOf(gap, out[b..e], "");
  }

  /** Replacing what precedes the tail by text ending in a newline keeps a last line that
      begins in the tail. */
  lemma LastLineOfTail(s: string, cut: nat, front: string, b: nat, e: nat)
    requires IsLastLine(s, b, e) && cut <= b
    requires front != "" && front[|front| - 1] == '\n'
    ensures var shifted := front + s[cut..];
            IsLastLine(shifted, b - cut + |front|, e - cut + |front|) &&
            shifted[b - cut + |front|..e - cut + |front|] == s[b..e]
  {
    var shifted := front + s[cut..];
    var d := |front| - cut;
    assert forall i | |front| <= i < |shifted| :: shifted[i] == s[i - d];
    assert shifted[b + d..e + d] == s[b..e];
    var nl: nat :| nl <= b && StartsLine(s, nl) && SpacesIn(s, nl, b);
    var nl' := if nl > cut then nl + d else |front|;
    assert SpacesIn(shifted, nl', b + d) && StartsLine(shifted, nl');
  }

  lemma LastLineOfCapped(s: string, headLimit: nat, tailLimit: nat, notice: string, b: nat, e: nat)
    requires IsLastLine(s, b, e)
    requires headLimit <= |s| && tailLimit <= |s| && |s| - tailLimit <= b
    requires notice != "" && notice[|notice| - 1] == '\n'
    ensures LastLineOf(s[..headLimit] + notice + s[|s| - tailLimit..]) == s[b..e]
  {
    var cut := |s| - tailLimit;
    var front := s[..headLimit] + notice;
    LastLineOfTail(s, cut, front, b, e);
    LastLineIs(front + s[cut..], b - cut + |front|, e - cut + |front|);
  }

  lemma CappedLastLine(stream: string, b: nat, e: nat)
    requires IsLastLine(stream, b, e)
    requires |stream| > MAX_COMMAND_OUTPUT && b >= |stream| - TAIL_LIMIT
    ensures LastLineOf(CapCommandOutput(stream)) == stream[b..e]
  {
    var notice := NOTICE;
    assert CapCommandOutput(stream) == stream[..HEAD_LIMIT] + notice + stream[|stream| - HEAD_LIMIT..];
    assert notice != "" && notice[|notice| - 1] == '\n' by { NoticeEnds(); }
    LastLineOfCapped(stream, HEAD_LIMIT, HEAD_LIMIT, notice, b, e);
  }

  lemma NoticeEnds()
    ensures NOTICE != "" && NOTICE[|NOTICE| - 1] == '\n'
  {
  }

  /** A line that begins in the retained tail is read back from the capped output
      unchanged, whatever was dropped before it. */
  lemma LastLineSurvivesTruncation(stream: string, b: nat, e: nat)
    requires IsLastLine(stream, b, e)
    requires |stream| <= MAX_COMMAND_OUTPUT || b >= |stream| - TAIL_LIMIT
    ensures LastLineOf(CapCommandOutput(stream)) == LastLineOf(stream) == stream[b..e]
  {
    LastLineIs(stream, b, e);
    if |stream| > MAX_COMMAND_OUTPUT {
      assert LastLineOf(CapCommandOutput(stream)) == stream[b..e] by {
        CappedLastLine(stream, b, e);
      }
    } else {
      assert CapCommandOutput(stream) == stream;
    }
  }
}
