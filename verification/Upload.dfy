/** Binary upload in base64 chunks, reassembled on the target and accepted by digest. */
module Upload {
  import opened Results
  import opened Text

  type Byte = b: int | 0 <= b < 256

  // ----- base64, section 4 of RFC 4648 -----

  type Sextet = n: int | 0 <= n < 64

  function Symbol(n: Sextet): char {
    if n < 26 then 'A' + n as char
    else if n < 52 then 'a' + (n - 26) as char
    else if n < 62 then '0' + (n - 52) as char
    else if n == 62 then '+' else '/'
  }

  function Value(c: char): Option<Sextet> {
    if 'A' <= c <= 'Z' then Some(c as int - 'A' as int)
    else if 'a' <= c <= 'z' then Some(c as int - 'a' as int + 26)
    else if '0' <= c <= '9' then Some(c as int - '0' as int + 52)
    else if c == '+' then Some(62)
    else if c == '/' then Some(63)
    else None
  }

  function Encode(d: seq<Byte>): string {
    if |d| == 0 then ""
    else if |d| == 1 then [Symbol(d[0] / 4), Symbol(d[0] % 4 * 16), '=', '=']
    else if |d| == 2 then [Symbol(d[0] / 4), Symbol(d[0] % 4 * 16 + d[1] / 16), Symbol(d[1] % 16 * 4), '=']
    else
      [Symbol(d[0] / 4), Symbol(d[0] % 4 * 16 + d[1] / 16), Symbol(d[1] % 16 * 4 + d[2] / 64), Symbol(d[2] % 64)]
      + Encode(d[3..])
  }

  /** The alphabet: A to Z, a to z, 0 to 9, plus and slash. */
  lemma SymbolIs(n: Sextet)
    ensures Symbol(n) as int == if n < 26 then 65 + n else if n < 52 then 97 + (n - 26)
                                else if n < 62 then 48 + (n - 52) else if n == 62 then 43 else 47
  {
  }

  /** Three bytes are four sextets, the first bits first; what is missing at the end is padded. */
  lemma EncodeIs(x: Byte, y: Byte, z: Byte, rest: seq<Byte>)
    ensures Encode([]) == ""
    ensures Encode([x]) == [Symbol(x / 4), Symbol(x % 4 * 16), '=', '=']
    ensures Encode([x, y]) == [Symbol(x / 4), Symbol(x % 4 * 16 + y / 16), Symbol(y % 16 * 4), '=']
    ensures Encode([x, y, z] + rest) ==
            [Symbol(x / 4), Symbol(x % 4 * 16 + y / 16), Symbol(y % 16 * 4 + z / 64), Symbol(z % 64)] + Encode(rest)
  {
    assert ([x, y, z] + rest)[3..] == rest;
  }

  function First(w: Sextet, x: Sextet): Byte {
    (w as int) * 4 + x / 16
  }

  function Second(x: Sextet, y: Sextet): Byte {
    (x as int) % 16 * 16 + y / 4
  }

  function Third(y: Sextet, z: Sextet): Byte {
    (y as int) % 4 * 64 + z
  }

  /** The bytes of one full quantum, or of the last one with its padding. */
  function Quantum(a: char, b: char, c: char, d: char, last: bool): Option<seq<Byte>> {
    match (Value(a), Value(b), Value(c), Value(d))
    case (Some(w), Some(x), Some(y), Some(z)) => Some([First(w, x), Second(x, y), Third(y, z)])
    case (Some(w), Some(x), Some(y), None) => if last && d == '=' then Some([First(w, x), Second(x, y)]) else None
    case (Some(w), Some(x), None, None) => if last && c == '=' && d == '=' then Some([First(w, x)]) else None
    case _ => None
  }

  function Decode(s: string): Option<seq<Byte>> {
    if s == "" then Some([])
    else if |s| < 4 then None
    else
      match (Quantum(s[0], s[1], s[2], s[3], |s| == 4), Decode(s[4..]))
      case (Some(q), Some(rest)) => Some(q + rest)
      case _ => None
  }

  lemma SymbolValue(n: Sextet)
    ensures Value(Symbol(n)) == Some(n) && Symbol(n) != '='
  {
  }

  lemma PadHasNoValue()
    ensures Value('=') == None
  {
  }

  lemma FirstByte(x: Byte, r: nat)
    requires r < 16
    ensures First(x / 4, x % 4 * 16 + r) == x
  {
  }

  lemma SecondByte(l: nat, y: Byte, r: nat)
    requires l < 4 && r < 4
    ensures Second(l * 16 + y / 16, y % 16 * 4 + r) == y
  {
    assert (l * 16 + y / 16) % 16 == y / 16;
    assert (y % 16 * 4 + r) / 4 == y % 16;
  }

  lemma ThirdByte(l: nat, z: Byte)
    requires l < 16
    ensures Third(l * 4 + z / 64, z % 64) == z
  {
    assert (l * 4 + z / 64) % 4 == z / 64;
  }

  lemma FullQuantum(x: Byte, y: Byte, z: Byte, last: bool)
    ensures Quantum(Symbol(x / 4), Symbol(x % 4 * 16 + y / 16), Symbol(y % 16 * 4 + z / 64), Symbol(z % 64), last)
        == Some([x, y, z])
  {
    FirstByte(x, y / 16);
    SecondByte(x % 4, y, z / 64);
    ThirdByte(y % 16, z);
    SymbolValue(x / 4);
    SymbolValue(x % 4 * 16 + y / 16);
    SymbolValue(y % 16 * 4 + z / 64);
    SymbolValue(z % 64);
  }

  lemma PaddedQuanta(x: Byte, y: Byte)
    ensures Quantum(Symbol(x / 4), Symbol(x % 4 * 16 + y / 16), Symbol(y % 16 * 4), '=', true) == Some([x, y])
    ensures Quantum(Symbol(x / 4), Symbol(x % 4 * 16), '=', '=', true) == Some([x])
  {
    FirstByte(x, y / 16);
    FirstByte(x, 0);
    SecondByte(x % 4, y, 0);
    SymbolValue(x / 4);
    SymbolValue(x % 4 * 16 + y / 16);
    SymbolValue(x % 4 * 16);
    SymbolValue(y % 16 * 4);
    PadHasNoValue();
  }

  /** The four symbols of three bytes. */
  function Group(x: Byte, y: Byte, z: Byte): string {
    [Symbol(x / 4), Symbol(x % 4 * 16 + y / 16), Symbol(y % 16 * 4 + z / 64), Symbol(z % 64)]
  }

  lemma DecodeFull(x: Byte, y: Byte, z: Byte, rest: string, tail: seq<Byte>)
    requires Decode(rest) == Some(tail)
    ensures Decode(Group(x, y, z) + rest) == Some([x, y, z] + tail)
  {
    var s := Group(x, y, z) + rest;
    FullQuantum(x, y, z, |s| == 4);
    assert s[4..] == rest;
  }

  lemma DecodeLast(s: string, d: seq<Byte>)
    requires |s| == 4 && Quantum(s[0], s[1], s[2], s[3], true) == Some(d)
    ensures Decode(s) == Some(d)
  {
    assert s[4..] == "";
    assert d + [] == d;
  }

  lemma DecodePadded(x: Byte, y: Byte)
    ensures Decode([Symbol(x / 4), Symbol(x % 4 * 16 + y / 16), Symbol(y % 16 * 4), '=']) == Some([x, y])
    ensures Decode([Symbol(x / 4), Symbol(x % 4 * 16), '=', '=']) == Some([x])
  {
    PaddedQuanta(x, y);
    DecodeLast([Symbol(x / 4), Symbol(x % 4 * 16 + y / 16), Symbol(y % 16 * 4), '='], [x, y]);
    DecodeLast([Symbol(x / 4), Symbol(x % 4 * 16), '=', '='], [x]);
  }

  lemma DecodeOne(d: seq<Byte>)
    requires |d| == 1
    ensures Decode(Encode(d)) == Some(d)
  {
    DecodePadded(d[0], 0);
    assert d == [d[0]];
  }

  lemma DecodeTwo(d: seq<Byte>)
    requires |d| == 2
    ensures Decode(Encode(d)) == Some(d)
  {
    DecodePadded(d[0], d[1]);
    assert d == [d[0], d[1]];
  }

  lemma EncodeThree(d: seq<Byte>)
    requires |d| >= 3
    ensures Encode(d) == Group(d[0], d[1], d[2]) + Encode(d[3..])
  {
  }

  lemma DecodeThree(d: seq<Byte>, text: string, rest: string)
    requires |d| >= 3 && text == Group(d[0], d[1], d[2]) + rest && Decode(rest) == Some(d[3..])
    ensures Decode(text) == Some(d)
  {
    DecodeFull(d[0], d[1], d[2], rest, d[3..]);
    assert d == [d[0], d[1], d[2]] + d[3..];
  }

  /** Decoding undoes encoding, for every payload. */
  lemma {:induction false} DecodeEncode(d: seq<Byte>)
    ensures Decode(Encode(d)) == Some(d)
  {
    if |d| == 1 {
      DecodeOne(d);
    } else if |d| == 2 {
      DecodeTwo(d);
    } else if |d| >= 3 {
      DecodeEncode(d[3..]);
      EncodeThree(d);
      DecodeThree(d, Encode(d), Encode(d[3..]));
    }
  }

  // ----- chunks -----

  const CHUNK: nat := 100000

  function Chunks(s: string): seq<string> {
    if s == "" then []
    else if |s| <= CHUNK then [s]
    else [s[..CHUNK]] + Chunks(s[CHUNK..])
  }

  /** Every chunk fits the limit, all but the last fill it, and together they are the text. */
  lemma {:induction false} ChunksCover(s: string)
    ensures Concat(Chunks(s)) == s
    ensures forall i | 0 <= i < |Chunks(s)| :: 0 < |Chunks(s)[i]| <= CHUNK
    ensures forall i | 0 <= i < |Chunks(s)| - 1 :: |Chunks(s)[i]| == CHUNK
    ensures CHUNK == 100_000
  {
    if |s| > CHUNK {
      ChunksCover(s[CHUNK..]);
      assert s == s[..CHUNK] + s[CHUNK..];
      assert Chunks(s)[1..] == Chunks(s[CHUNK..]);
    } else if s != "" {
      assert [s][1..] == [];
      assert Concat([s]) == s + Concat([]);
    }
  }

  // ----- the target -----

  /** What one append command does: append the chunk, append something else (nothing, the
      chunk twice, other text) while reporting success, or report a failure. */
  datatype Wire = Faithful | Appends(text: string) | Fails(text: string)

  datatype Plan = Plan(firstHashFails: bool, beginFails: bool, wire: nat -> Wire,
                       finishFails: bool, leftBehind: Option<seq<Byte>>, lastHashFails: bool)

  ghost predicate Honest(plan: Plan) {
    !plan.beginFails && AllFaithful(plan.wire) && !plan.finishFails && !plan.lastHashFails
  }

  datatype Error = PrepareFailed | ChunkFailed | AssembleFailed | VerifyFailed | HashMismatch(got: string)

  /** strings.EqualFold on digests. */
  predicate SameDigest(a: string, b: string) {
    ToLower(a) == ToLower(b)
  }

  lemma SameDigestIs(a: string, b: string)
    ensures SameDigest(a, b) <==>
            |a| == |b| && forall i | 0 <= i < |a| ::
              (if 65 <= a[i] as int <= 90 then a[i] as int + 32 else a[i] as int)
              == (if 65 <= b[i] as int <= 90 then b[i] as int + 32 else b[i] as int)
  {
    ToLowerIs(a);
    ToLowerIs(b);
    if SameDigest(a, b) {
      assert forall i | 0 <= i < |a| :: ToLower(a)[i] == ToLower(b)[i];
    }
  }

  /** A digest that differs on different payloads. */
  ghost predicate TellsApart(digest: seq<Byte> -> string) {
    forall a, b :: SameDigest(digest(a), digest(b)) ==> a == b
  }

  ghost predicate AllFaithful(wire: nat -> Wire) {
    forall i :: wire(i) == Faithful
  }

  lemma OneMoreSent(all: seq<string>, sent: seq<string>, chunk: string, rest: seq<string>)
    requires all == sent + ([chunk] + rest)
    ensures all == (sent + [chunk]) + rest && sent + [chunk] <= all
  {
  }

  class Target {
    const digest: seq<Byte> -> string
    var tmp: string
    var dest: Option<seq<Byte>>

    constructor (digest: seq<Byte> -> string, dest: Option<seq<Byte>>)
      ensures this.digest == digest && this.dest == dest
    {
      this.digest, this.dest, this.tmp := digest, dest, "";
    }

    /** The digest the target prints, or nothing for an absent file. */
    function PrintedHash(): string
      reads this
    {
      match dest
      case None => ""
      case Some(d) => digest(d)
    }

    method Append(chunk: string, wire: Wire) returns (ok: bool)
      modifies this`tmp
      ensures ok <==> !wire.Fails?
      ensures tmp == old(tmp) + (match wire case Faithful => chunk case Appends(t) => t case Fails(t) => t)
    {
      match wire {
        case Faithful => tmp := tmp + chunk; return true;
        case Appends(t) => tmp := tmp + t; return true;
        case Fails(t) => tmp := tmp + t; return false;
      }
    }

    /** Decodes the collected text into the destination. A failing script may leave any
        destination behind. */
    method Finish(fails: bool, leftBehind: Option<seq<Byte>>) returns (ok: bool)
      modifies this
      ensures ok <==> !fails && Decode(old(tmp)).Some?
      ensures ok ==> dest == Decode(old(tmp))
    {
      var decoded := Decode(tmp);
      if fails || decoded.None? {
        dest := leftBehind;
        return false;
      }
      dest := decoded;
      tmp := "";
      return true;
    }

    /** The chunk loop: the commands sent are the chunks of the text, up to the first that
        fails, and a faithful target collects exactly what was sent. */
    method SendChunks(encoded: string, wire: nat -> Wire) returns (ok: bool, ghost sent: seq<string>)
      requires tmp == ""
      modifies this`tmp
      ensures sent <= Chunks(encoded)
      ensures ok ==> sent == Chunks(encoded)
      ensures AllFaithful(wire) ==> ok && tmp == Concat(sent)
      ensures !ok ==> exists i :: wire(i).Fails?
    {
      sent := [];
      var i := 0;
      ghost var faithful := AllFaithful(wire);
      assert encoded[0..] == encoded;
      while i < |encoded|
        invariant Chunks(encoded) == sent + Remaining(encoded, i)
        invariant faithful ==> tmp == Concat(sent)
        decreases |encoded| - i
      {
        var end := i + CHUNK;
        if end > |encoded| {
          end := |encoded|;
        }
        var chunk := encoded[i..end];
        NextChunk(encoded, i, end);
        ConcatAppend(sent, chunk);
        OneMoreSent(Chunks(encoded), sent, chunk, Remaining(encoded, i + CHUNK));
        var appended := Append(chunk, wire(i / CHUNK));
        sent := sent + [chunk];
        if !appended {
          return false, sent;
        }
        i := i + CHUNK;
      }
      return true, sent;
    }

    /** Succeeds only when the destination has the payload's digest, whatever the target did
        with the chunks; on a target that does as told it succeeds with the payload itself,
        unless a file of that digest was there already. */
    method EnsureBinary(data: seq<Byte>, plan: Plan) returns (r: Result<string, Error>, ghost sent: seq<string>)
      requires forall d :: digest(d) != ""
      modifies this
      ensures r.Ok? ==> r.value == digest(data) && dest.Some? && SameDigest(digest(dest.value), digest(data))
      ensures r.Ok? && TellsApart(digest) ==> dest == Some(data)
      ensures Honest(plan) ==>
                r.Ok? && (dest == Some(data) || (dest == old(dest) && SameDigest(old(PrintedHash()), digest(data))))
      ensures sent <= Chunks(Encode(data))
      ensures r.Ok? && sent != Chunks(Encode(data)) ==> sent == [] && dest == old(dest)
      ensures !plan.firstHashFails && SameDigest(old(PrintedHash()), digest(data)) ==>
          r.Ok? && dest == old(dest) && sent == []
      // Otherwise the first command that fails is reported, and up to the last one nothing is
      // installed.
      ensures plan.firstHashFails || !SameDigest(old(PrintedHash()), digest(data)) ==>
                && (r == Err(PrepareFailed) <==> plan.beginFails)
                && (r == Err(ChunkFailed) ==> exists i :: plan.wire(i).Fails?)
                && (r.Ok? ==> sent == Chunks(Encode(data)) && !plan.finishFails && !plan.lastHashFails)
                && (r.Err? && r.error.HashMismatch? ==> !SameDigest(r.error.got, digest(data)) && !plan.lastHashFails)
                && (r == Err(VerifyFailed) ==> plan.lastHashFails)
      ensures r == Err(PrepareFailed) || r == Err(ChunkFailed) ==> dest == old(dest)
    {
      var want := digest(data);
      sent := [];
      if !plan.firstHashFails && SameDigest(PrintedHash(), want) {
        AbsentHasNoDigest(want);
        return Ok(want), sent;
      }
      var encoded := Encode(data);
      if plan.beginFails {
        return Err(PrepareFailed), sent;
      }
      tmp := "";
      var delivered;
      delivered, sent := SendChunks(encoded, plan.wire);
      ChunksCover(encoded);
      if !delivered {
        return Err(ChunkFailed), sent;
      }
      DecodeEncode(data);
      var finished := Finish(plan.finishFails, plan.leftBehind);
      if !finished {
        return Err(AssembleFailed), sent;
      }
      if plan.lastHashFails {
        return Err(VerifyFailed), sent;
      }
      var got := PrintedHash();
      if !SameDigest(got, want) {
        return Err(HashMismatch(got)), sent;
      }
      return Ok(want), sent;
    }
  }

  lemma AbsentHasNoDigest(want: string)
    requires want != ""
    ensures !SameDigest("", want)
  {
    assert |ToLower(want)| == |want| && |ToLower("")| == 0;
  }

  /** The chunks still to be sent when the loop stands at i. */
  ghost function Remaining(s: string, i: nat): seq<string> {
    if i < |s| then Chunks(s[i..]) else []
  }

  lemma NextChunk(s: string, i: nat, end: nat)
    requires i < |s| && end == if i + CHUNK > |s| then |s| else i + CHUNK
    ensures Remaining(s, i) == [s[i..end]] + Remaining(s, i + CHUNK)
  {
    if i + CHUNK < |s| {
      assert s[i..][..CHUNK] == s[i..end] && s[i..][CHUNK..] == s[end..];
    } else {
      assert s[i..end] == s[i..];
    }
  }
}
