/** Base64 per section 4 of RFC 4648: the library codec with line feeds, and the
    bit-accumulator encoder of the HTTP client.  Shifts and masks are written as
    multiplication, division and remainder by powers of two.

    Texts are built in two layers: tokens, which are sextets, a pad or a line feed,
    and the characters that stand for them. */
module Base64 {
  import opened Bits
  import opened Ring
  import opened Options

  const PAD: byte := 61
  const LF: byte := 10
  const SKIP: byte := 0x80

  /** Tokens: 0..63 are sextets. */
  type token = byte
  const PAD_TOKEN: token := 64
  const FEED_TOKEN: token := 65

  // ---------- characters ----------

  /** base_64_table, in order A-Z a-z 0-9 + / */
  function Sym(v: byte): byte
    requires v < 64
  {
    if v < 26 then v + 65
    else if v < 52 then v + 71
    else if v < 62 then v - 4
    else if v == 62 then 43 else 47
  }

  /** The alphabet of RFC 4648, section 4. */
  const ALPHABET: string := "ABCDEFGHIJKLMNOPQRSTUVWXYZ" + "abcdefghijklmnopqrstuvwxyz" + "0123456789+/"

  lemma {:induction false} SymIsAlphabet(v: byte)
    requires v < 64
    ensures |ALPHABET| == 64 && Sym(v) == ALPHABET[v] as int
  {
  }

  function Char(t: token): byte { if t < 64 then Sym(t) else if t == PAD_TOKEN then PAD else LF }

  /** What dtable holds for a byte: its sextet, 0 for the pad, 0x80 for the rest. */
  function Val(c: byte): byte {
    if 65 <= c <= 90 then c - 65
    else if 97 <= c <= 122 then c - 71
    else if 48 <= c <= 57 then c + 4
    else if c == 43 then 62
    else if c == 47 then 63
    else if c == PAD then 0
    else SKIP
  }

  lemma SymVal(v: byte)
    requires v < 64
    ensures Val(Sym(v)) == v && Sym(v) != PAD && Sym(v) != LF
  {
  }

  lemma ValSym(c: byte)
    requires c != PAD && Val(c) != SKIP
    ensures Val(c) < 64 && Sym(Val(c)) == c
  {
  }

  /** The characters of a token sequence. */
  function Text(ts: seq<token>): (s: seq<byte>)
    ensures |s| == |ts|
  {
    seq(|ts|, i requires 0 <= i < |ts| => Char(ts[i]))
  }

  lemma TextAppend(a: seq<token>, b: seq<token>)
    ensures Text(a + b) == Text(a) + Text(b)
  {
  }

  // ---------- encoding ----------

  function Quad(a: byte, b: byte, c: byte): (q: seq<token>)
    ensures |q| == 4
  {
    [a / 4, a % 4 * 16 + b / 16, b % 16 * 4 + c / 64, c % 64]
  }

  function Quad2(a: byte, b: byte): (q: seq<token>)
    ensures |q| == 4
  {
    [a / 4, a % 4 * 16 + b / 16, b % 16 * 4, PAD_TOKEN]
  }

  function Quad1(a: byte): (q: seq<token>)
    ensures |q| == 4
  {
    [a / 4, a % 4 * 16, PAD_TOKEN, PAD_TOKEN]
  }

  /** The encoding without line feeds, as the RFC defines it. */
  function Digits(src: seq<byte>): seq<token> {
    if |src| == 0 then []
    else if |src| == 1 then Quad1(src[0])
    else if |src| == 2 then Quad2(src[0], src[1])
    else Quad(src[0], src[1], src[2]) + Digits(src[3..])
  }

  /** The encoding with a line feed after every 72 characters and after the last
      line; `line` characters already stand on the current line. */
  function Encode(src: seq<byte>, line: nat): seq<token> {
    if |src| >= 3 then
      Quad(src[0], src[1], src[2]) +
      (if line + 4 >= 72 then [FEED_TOKEN] + Encode(src[3..], 0) else Encode(src[3..], line + 4))
    else if |src| == 2 then Quad2(src[0], src[1]) + [FEED_TOKEN]
    else if |src| == 1 then Quad1(src[0]) + [FEED_TOKEN]
    else if line > 0 then [FEED_TOKEN] else []
  }

  /** base64_encode: refuses a null buffer, fills any other and ends it with a NUL.
      `len0` is what the caller's length variable held. */
  method EncodeInto(src: seq<byte>, out: array?<byte>, len0: nat) returns (ok: bool, outLen: nat)
    requires out != null ==> |Encode(src, 0)| < out.Length
    modifies out
    ensures ok <==> out != null
    ensures !ok ==> outLen == len0
    ensures ok ==> outLen == |Encode(src, 0)| && out[..outLen] == Text(Encode(src, 0)) && out[outLen] == 0
  {
    ok, outLen := false, len0;
    if out != null {
      outLen := FillEncoded(src, out);
      ok := true;
    }
  }

  method FillEncoded(src: seq<byte>, out: array<byte>) returns (outLen: nat)
    requires |Encode(src, 0)| < out.Length
    modifies out
    ensures outLen == |Encode(src, 0)| && out[..outLen] == Text(Encode(src, 0)) && out[outLen] == 0
  {
    var i: nat, pos: nat, line: nat := 0, 0, 0;
    ghost var done: seq<token> := [];
    while |src| - i >= 3
      invariant 0 <= i <= |src| && pos == |done| && done + Encode(src[i..], line) == Encode(src, 0)
      invariant pos <= out.Length && out[..pos] == Text(done)
    {
      assert src[i..][3..] == src[i + 3..];
      ghost var due := NextTokens(src[i..], line);
      NextTokensSplit(src[i..], line);
      Regroup(done, due, Encode(src[i + 3..], NextLine(line)));
      TextAppend(done, due);
      pos, line := EncodeGroup(src[i], src[i + 1], src[i + 2], line, out, pos);
      done := done + due;
      i := i + 3;
    }
    TextAppend(done, Encode(src[i..], line));
    pos := EncodeTail(src[i..], line, out, pos);
    out[pos] := 0;
    outLen := pos;
    assert out[..outLen] == Text(Encode(src, 0));
  }

  function NextLine(line: nat): nat { if line + 4 >= 72 then 0 else line + 4 }

  /** What one round of the encoding loop writes. */
  function NextTokens(rest: seq<byte>, line: nat): seq<token>
    requires |rest| >= 3
  {
    Quad(rest[0], rest[1], rest[2]) + if line + 4 >= 72 then [FEED_TOKEN] else []
  }

  lemma NextTokensSplit(rest: seq<byte>, line: nat)
    requires |rest| >= 3
    ensures Encode(rest, line) == NextTokens(rest, line) + Encode(rest[3..], NextLine(line))
  {
    if line + 4 < 72 {
      assert NextTokens(rest, line) == Quad(rest[0], rest[1], rest[2]);
    }
  }

  lemma Regroup(a: seq<token>, b: seq<token>, c: seq<token>)
    ensures a + (b + c) == (a + b) + c
  {
  }

  method EncodeGroup(a: byte, b: byte, c: byte, line: nat, out: array<byte>, pos: nat) returns (next: nat, line': nat)
    requires pos + |NextTokens([a, b, c], line)| <= out.Length
    modifies out
    ensures line' == NextLine(line) && next == pos + |NextTokens([a, b, c], line)|
    ensures out[..next] == old(out[..pos]) + Text(NextTokens([a, b, c], line))
  {
    next := Emit(out, pos, Text(Quad(a, b, c)));
    line' := line + 4;
    if line' >= 72 {
      TextAppend(Quad(a, b, c), [FEED_TOKEN]);
      next := Emit(out, next, Text([FEED_TOKEN]));
      line' := 0;
    } else {
      assert NextTokens([a, b, c], line) == Quad(a, b, c);
    }
  }

  /** The last one or two bytes and the final line feed. */
  method EncodeTail(rest: seq<byte>, line: nat, out: array<byte>, pos: nat) returns (next: nat)
    requires |rest| < 3 && pos + |Encode(rest, line)| <= out.Length
    modifies out
    ensures next == pos + |Encode(rest, line)| && out[..next] == old(out[..pos]) + Text(Encode(rest, line))
  {
    var last := if |rest| == 1 then Quad1(rest[0]) else if |rest| == 2 then Quad2(rest[0], rest[1]) else [];
    next := Emit(out, pos, Text(last));
    if line > 0 || |rest| > 0 {
      TextAppend(last, [FEED_TOKEN]);
      assert Encode(rest, line) == last + [FEED_TOKEN];
      next := Emit(out, next, Text([FEED_TOKEN]));
    }
  }

  /** `*pos++ = ...`, once for every byte of `bytes`. */
  method Emit(out: array<byte>, pos: nat, bytes: seq<byte>) returns (next: nat)
    requires pos + |bytes| <= out.Length
    modifies out
    ensures next == pos + |bytes| && out[..next] == old(out[..pos]) + bytes
  {
    var i := 0;
    while i < |bytes|
      invariant 0 <= i <= |bytes| && out[..pos + i] == old(out[..pos]) + bytes[..i]
    {
      out[pos + i] := bytes[i];
      i := i + 1;
    }
    next := pos + |bytes|;
  }

  // ---------- length bound ----------

  lemma {:induction false} EncodedLength(src: seq<byte>, m: nat)
    requires m < 18
    ensures var q := (|src| + 2) / 3; |Encode(src, 4 * m)| == 4 * q + (m + q + 17) / 18
    decreases |src|
  {
    if |src| >= 3 {
      var m' := if m == 17 then 0 else m + 1;
      EncodedLength(src[3..], m');
      LengthStep(|src|, m);
      assert |Encode(src, 4 * m)| == 4 + (if m == 17 then 1 else 0) + |Encode(src[3..], 4 * m')|;
    }
  }

  lemma LengthStep(n: nat, m: nat)
    requires n >= 3 && m < 18
    ensures var q, r := (n + 2) / 3, (n - 1) / 3;
            q == r + 1 && (m + q + 17) / 18 == if m == 17 then 1 + (r + 17) / 18 else (m + 1 + r + 17) / 18
  {
  }

  /** base64_calc_encode_length, in unsigned 32-bit arithmetic. */
  function CalcEncodeLength(n: nat): nat
    requires n < U32_RANGE
  {
    var e := U32(n * 4) / 3 + 4;
    U32(U32(e + e / 72) + 1)
  }

  /** Among all lengths an `int` can hold, the computed buffer size has room for the
      text and its NUL exactly when the length is below 2^30. */
  lemma {:induction false} EncodeFits(src: seq<byte>)
    requires |src| < 0x8000_0000
    ensures |Encode(src, 0)| + 1 <= CalcEncodeLength(|src|) <==> |src| < 0x4000_0000
  {
    EncodedLength(src, 0);
    BoundArithmetic(|src|);
  }

  lemma {:induction false} BoundArithmetic(n: nat)
    requires n < 0x8000_0000
    ensures var q := (n + 2) / 3; 4 * q + (q + 17) / 18 + 1 <= CalcEncodeLength(n) <==> n < 0x4000_0000
  {
    var q, four := (n + 2) / 3, U32(n * 4);
    Quadrupled(n);
    NoOverflow(four / 3 + 4);
    Fits(n, q, four / 3, (q + 17) / 18, (four / 3 + 4) / 72, four);
  }

  lemma Quadrupled(n: nat)
    requires n < 0x8000_0000
    ensures U32(n * 4) == if n < 0x4000_0000 then 4 * n else 4 * n - 0x1_0000_0000
  {
  }

  lemma NoOverflow(e: nat)
    requires e < 0x8000_0000
    ensures U32(U32(e + e / 72) + 1) == e + e / 72 + 1
  {
  }

  lemma Fits(n: nat, q: nat, t: nat, lines: nat, u: nat, four: nat)
    requires n < 0x8000_0000
    requires four == if n < 0x4000_0000 then 4 * n else 4 * n - 0x1_0000_0000
    requires n <= 3 * q && 3 * q <= n + 2 && 3 * t <= four < 3 * t + 3
    requires 18 * lines <= q + 17 && 72 * u <= t + 4 < 72 * u + 72
    ensures 4 * q + lines + 1 <= t + 4 + u + 1 <==> n < 0x4000_0000
  {
  }

  // ---------- decoding ----------

  /** The token a character that counts stands for. */
  function Tok(c: byte): token { if c == PAD then PAD_TOKEN else Val(c) }

  /** The tokens of a text; characters outside the alphabet are skipped. */
  function Read(s: seq<byte>): seq<token> {
    if s == [] then [] else (if Val(s[0]) == SKIP then [] else [Tok(s[0])]) + Read(s[1..])
  }

  /** The bits a token contributes. */
  function Bits6(t: token): (v: byte)
    ensures v < 64
  {
    if t >= PAD_TOKEN then 0 else t
  }

  function Triple(a: byte, b: byte, c: byte, d: byte): (t: seq<byte>)
    requires a < 64 && b < 64 && c < 64 && d < 64
    ensures |t| == 3
  {
    [a * 4 + b / 16, b % 16 * 16 + c / 4, c % 4 * 64 + d]
  }

  /** The three bytes of one block of tokens. */
  function Block(q: seq<token>): (b: seq<byte>)
    requires |q| == 4
    ensures |b| == 3
  {
    Triple(Bits6(q[0]), Bits6(q[1]), Bits6(q[2]), Bits6(q[3]))
  }

  /** The bytes of every complete block; a rest of up to three tokens is ignored. */
  function Blocks(ts: seq<token>): seq<byte> {
    if |ts| < 4 then [] else Block(ts[..4]) + Blocks(ts[4..])
  }

  /** How many bytes the last block's padding takes back. */
  function Padding(ts: seq<token>): nat {
    if |ts| < 4 then 0 else if ts[|ts| - 2] == PAD_TOKEN then 2 else if ts[|ts| - 1] == PAD_TOKEN then 1 else 0
  }

  lemma {:induction false} BlocksLength(ts: seq<token>, k: nat)
    requires |ts| == 4 * k
    ensures |Blocks(ts)| == 3 * k
    decreases k
  {
    if k > 0 {
      BlocksLength(ts[4..], k - 1);
    }
  }

  /** base64_decode: refused unless whole blocks remain after skipping. */
  function Decode(s: seq<byte>): Option<seq<byte>> {
    var ts := Read(s);
    if |ts| % 4 != 0 then None
    else
      BlocksLength(ts, |ts| / 4);
      Some(Blocks(ts)[..|Blocks(ts)| - Padding(ts)])
  }

  lemma {:induction false} ReadAppend(a: seq<byte>, b: seq<byte>)
    ensures Read(a + b) == Read(a) + Read(b)
  {
    if a == [] {
      assert a + b == b;
    } else {
      assert (a + b)[1..] == a[1..] + b;
      ReadAppend(a[1..], b);
    }
  }

  lemma ReadOne(c: byte)
    ensures Read([c]) == if Val(c) == SKIP then [] else [Tok(c)]
  {
  }

  /** Inserting a byte outside the alphabet anywhere changes nothing. */
  lemma {:induction false} InsertJunk(a: seq<byte>, junk: byte, b: seq<byte>)
    requires Val(junk) == SKIP
    ensures Read(a + [junk] + b) == Read(a + b) && Decode(a + [junk] + b) == Decode(a + b)
  {
    ReadAppend(a + [junk], b);
    ReadAppend(a, [junk]);
    ReadOne(junk);
    ReadAppend(a, b);
  }

  /** Tokens without the line feeds. */
  function Unfed(ts: seq<token>): seq<token> {
    if ts == [] then [] else (if ts[0] == FEED_TOKEN then [] else [ts[0]]) + Unfed(ts[1..])
  }

  lemma {:induction false} UnfedAppend(a: seq<token>, b: seq<token>)
    ensures Unfed(a + b) == Unfed(a) + Unfed(b)
  {
    if a == [] {
      assert a + b == b;
    } else {
      assert (a + b)[1..] == a[1..] + b;
      UnfedAppend(a[1..], b);
    }
  }

  predicate NoFeed(ts: seq<token>) { forall i :: 0 <= i < |ts| ==> ts[i] <= 64 }

  predicate Tokens(ts: seq<token>) { forall i :: 0 <= i < |ts| ==> ts[i] <= 65 }

  lemma {:induction false} UnfedPlain(ts: seq<token>)
    requires NoFeed(ts)
    ensures Unfed(ts) == ts
  {
    if ts != [] {
      UnfedPlain(ts[1..]);
    }
  }

  lemma QuadTokens(a: byte, b: byte, c: byte)
    ensures NoFeed(Quad(a, b, c)) && NoFeed(Quad2(a, b)) && NoFeed(Quad1(a))
  {
  }

  lemma UnfedFeed(rest: seq<token>)
    ensures Unfed([FEED_TOKEN] + rest) == Unfed(rest)
  {
    assert ([FEED_TOKEN] + rest)[1..] == rest;
  }

  lemma UnfedStep(q: seq<token>, feed: bool, rest: seq<token>)
    requires NoFeed(q) && Tokens(rest)
    ensures Unfed(q + (if feed then [FEED_TOKEN] else []) + rest) == q + Unfed(rest)
    ensures Tokens(q + (if feed then [FEED_TOKEN] else []) + rest)
  {
    var more := if feed then [FEED_TOKEN] + rest else rest;
    Regroup(q, if feed then [FEED_TOKEN] else [], rest);
    assert q + (if feed then [FEED_TOKEN] else []) + rest == q + more;
    UnfedFeed(rest);
    UnfedPrefix(q, more);
  }

  lemma UnfedPrefix(q: seq<token>, more: seq<token>)
    requires NoFeed(q) && Tokens(more)
    ensures Unfed(q + more) == q + Unfed(more) && Tokens(q + more)
  {
    UnfedPlain(q);
    UnfedAppend(q, more);
  }

  /** Without its line feeds the lined encoding is the plain one. */
  lemma {:induction false} UnfedEncode(src: seq<byte>, line: nat)
    ensures Unfed(Encode(src, line)) == Digits(src) && Tokens(Encode(src, line))
    decreases |src|
  {
    if |src| >= 3 {
      UnfedEncode(src[3..], NextLine(line));
      NextTokensSplit(src, line);
      QuadTokens(src[0], src[1], src[2]);
      UnfedStep(Quad(src[0], src[1], src[2]), line + 4 >= 72, Encode(src[3..], NextLine(line)));
    } else {
      UnfedTail(src, line);
    }
  }

  lemma UnfedTail(src: seq<byte>, line: nat)
    requires |src| < 3
    ensures Unfed(Encode(src, line)) == Digits(src) && Tokens(Encode(src, line))
  {
    var q := Digits(src);
    var feed := line > 0 || |src| > 0;
    if |src| == 2 {
      QuadTokens(src[0], src[1], 0);
    } else if |src| == 1 {
      QuadTokens(src[0], 0, 0);
    }
    UnfedStep(q, feed, []);
    assert Encode(src, line) == q + (if feed then [FEED_TOKEN] else []) + [];
  }

  lemma TokenRead(t: token)
    requires t <= 65
    ensures Read([Char(t)]) == if t == FEED_TOKEN then [] else [t]
  {
    if t < 64 {
      SymVal(t);
    }
    ReadOne(Char(t));
  }

  /** Reading a text gives back its tokens except the line feeds. */
  lemma {:induction false} ReadText(ts: seq<token>)
    requires Tokens(ts)
    ensures Read(Text(ts)) == Unfed(ts)
  {
    if ts != [] {
      assert Text(ts) == [Char(ts[0])] + Text(ts[1..]);
      ReadAppend([Char(ts[0])], Text(ts[1..]));
      TokenRead(ts[0]);
      ReadText(ts[1..]);
    }
  }

  lemma FirstByte(a: byte, b: byte)
    ensures a / 4 * 4 + (a % 4 * 16 + b / 16) / 16 == a && a / 4 * 4 + (a % 4 * 16) / 16 == a
  {
    ModUnique(a % 4 * 16 + b / 16, 16, a % 4, b / 16);
  }

  lemma SecondByte(a: byte, b: byte, c: byte)
    ensures (a % 4 * 16 + b / 16) % 16 * 16 + (b % 16 * 4 + c / 64) / 4 == b
    ensures (a % 4 * 16 + b / 16) % 16 * 16 + (b % 16 * 4) / 4 == b
  {
    ModUnique(a % 4 * 16 + b / 16, 16, a % 4, b / 16);
    ModUnique(b % 16 * 4 + c / 64, 4, b % 16, c / 64);
  }

  lemma ThirdByte(b: byte, c: byte)
    ensures (b % 16 * 4 + c / 64) % 4 * 64 + c % 64 == c
  {
    ModUnique(b % 16 * 4 + c / 64, 4, b % 16, c / 64);
  }

  lemma OneBlock(s: token, t: token, u: token, v: token)
    ensures Blocks([s, t, u, v]) == Triple(Bits6(s), Bits6(t), Bits6(u), Bits6(v))
  {
    var q := [s, t, u, v];
    assert q[4..] == [] && q[..4] == q;
  }

  lemma QuadDecodes(a: byte, b: byte, c: byte)
    ensures Blocks(Quad(a, b, c)) == [a, b, c]
  {
    OneBlock(a / 4, a % 4 * 16 + b / 16, b % 16 * 4 + c / 64, c % 64);
    FirstByte(a, b);
    SecondByte(a, b, c);
    ThirdByte(b, c);
  }

  lemma Quad2Decodes(a: byte, b: byte)
    ensures Blocks(Quad2(a, b))[..2] == [a, b] && |Blocks(Quad2(a, b))| == 3
  {
    OneBlock(a / 4, a % 4 * 16 + b / 16, b % 16 * 4, PAD_TOKEN);
    FirstByte(a, b);
    SecondByte(a, b, 0);
  }

  lemma Quad1Decodes(a: byte)
    ensures Blocks(Quad1(a))[..1] == [a] && |Blocks(Quad1(a))| == 3
  {
    OneBlock(a / 4, a % 4 * 16, PAD_TOKEN, PAD_TOKEN);
    FirstByte(a, 0);
  }

  lemma {:induction false} BlocksAppend(a: seq<token>, b: seq<token>, k: nat)
    requires |a| == 4 * k
    ensures Blocks(a + b) == Blocks(a) + Blocks(b)
    decreases k
  {
    if k == 0 {
      assert a + b == b;
    } else {
      assert (a + b)[4..] == a[4..] + b && (a + b)[..4] == a[..4];
      BlocksAppend(a[4..], b, k - 1);
    }
  }

  lemma {:induction false} DigitsLength(src: seq<byte>)
    ensures |Digits(src)| == 4 * ((|src| + 2) / 3)
  {
    if |src| >= 3 {
      DigitsLength(src[3..]);
    }
  }

  ghost predicate DecodesTo(ts: seq<token>, src: seq<byte>) {
    |Blocks(ts)| >= Padding(ts) && Blocks(ts)[..|Blocks(ts)| - Padding(ts)] == src
  }

  lemma QuadThenMore(a: byte, b: byte, c: byte, rest: seq<token>, src: seq<byte>)
    requires |rest| >= 4 && DecodesTo(rest, src)
    ensures DecodesTo(Quad(a, b, c) + rest, [a, b, c] + src)
  {
    var q := Quad(a, b, c);
    QuadDecodes(a, b, c);
    BlocksAppend(q, rest, 1);
    assert Padding(q + rest) == Padding(rest);
    var bytes, pad := Blocks(rest), Padding(rest);
    assert ([a, b, c] + bytes)[..3 + |bytes| - pad] == [a, b, c] + bytes[..|bytes| - pad];
  }

  lemma {:induction false} DigitsDecode(src: seq<byte>)
    ensures DecodesTo(Digits(src), src)
  {
    if |src| > 3 {
      DigitsDecode(src[3..]);
      DigitsLength(src[3..]);
      QuadThenMore(src[0], src[1], src[2], Digits(src[3..]), src[3..]);
      assert [src[0], src[1], src[2]] + src[3..] == src;
    } else if |src| == 3 {
      QuadDecodes(src[0], src[1], src[2]);
      assert Digits(src) == Quad(src[0], src[1], src[2]);
    } else if |src| == 2 {
      Quad2Decodes(src[0], src[1]);
    } else if |src| == 1 {
      Quad1Decodes(src[0]);
    }
  }

  lemma {:induction false} DecodeDigits(src: seq<byte>, text: seq<byte>)
    requires Read(text) == Digits(src)
    ensures Decode(text) == Some(src)
  {
    DigitsDecode(src);
    DigitsLength(src);
    DecodeWhole(text, Digits(src), (|src| + 2) / 3);
  }

  lemma {:induction false} DecodeWhole(text: seq<byte>, ts: seq<token>, k: nat)
    requires Read(text) == ts && |ts| == 4 * k && Padding(ts) <= |Blocks(ts)|
    ensures Decode(text) == Some(Blocks(ts)[..|Blocks(ts)| - Padding(ts)])
  {
  }

  /** A text without the bytes outside the alphabet. */
  function Kept(s: seq<byte>): seq<byte> {
    if s == [] then [] else (if Val(s[0]) == SKIP then [] else [s[0]]) + Kept(s[1..])
  }

  lemma {:induction false} ReadIsKept(s: seq<byte>, i: nat)
    ensures |Read(s)| == |Kept(s)|
    ensures i < |Kept(s)| ==> (Read(s)[i] == PAD_TOKEN <==> Kept(s)[i] == 61)
  {
    if s != [] {
      ReadIsKept(s[1..], if Val(s[0]) == SKIP || i == 0 then i else i - 1);
    }
  }

  /** For any text at all: it decodes exactly when whole blocks of four are left without
      the bytes outside the alphabet, to three bytes for each less the padding of the
      last block, which is two bytes with '=' in its third place whatever follows. */
  lemma {:induction false} DecodesIff(s: seq<byte>)
    ensures Decode(s).Some? <==> |Kept(s)| % 4 == 0
    ensures Decode(s).Some? ==>
      var k, n := Kept(s), |Kept(s)|;
      |Decode(s).value| == n / 4 * 3 - if n == 0 then 0 else if k[n - 2] == 61 then 2 else if k[n - 1] == 61 then 1 else 0
  {
    var n := |Kept(s)|;
    ReadIsKept(s, if n >= 2 then n - 2 else 0);
    ReadIsKept(s, if n >= 1 then n - 1 else 0);
    if n % 4 == 0 {
      BlocksLength(Read(s), n / 4);
    }
  }

  lemma {:induction false} ReadKept(s: seq<byte>)
    ensures Read(Kept(s)) == Read(s)
  {
    if s != [] {
      ReadKept(s[1..]);
      if Val(s[0]) != SKIP {
        assert ([s[0]] + Kept(s[1..]))[1..] == Kept(s[1..]);
      } else {
        assert [] + Kept(s[1..]) == Kept(s[1..]) && [] + Read(s[1..]) == Read(s[1..]);
      }
    }
  }

  /** A group of 24 bits is four sextets, the most significant first; the bits that are
      missing from a shorter last group are zero and its missing sextets are pads. */
  lemma {:induction false} GroupBits(a: byte, b: byte, c: byte)
    ensures var q := Quad(a, b, c);
            && q[0] < 64 && q[1] < 64 && q[2] < 64 && q[3] < 64
            && 0x1_0000 * (a as int) + 0x100 * (b as int) + (c as int)
               == 0x4_0000 * (q[0] as int) + 0x1000 * (q[1] as int) + 0x40 * (q[2] as int) + (q[3] as int)
    ensures Quad2(a, b) == Quad(a, b, 0)[..3] + [PAD_TOKEN] && Quad1(a) == Quad(a, 0, 0)[..2] + [PAD_TOKEN, PAD_TOKEN]
  {
  }

  /** The tokens of the first group are no line feeds, and others may follow. */
  lemma {:induction false} GroupsUnfed(src: seq<byte>, line: nat, i: nat)
    requires |src| > 0 && i < 4
    ensures |Encode(src, line)| > i && Encode(src, line)[i] != FEED_TOKEN
    ensures |src| < 3 ==> |Encode(src, line)| == 5 && Encode(src, line)[4] == FEED_TOKEN
    ensures |src| >= 3 && line + 4 >= 72 ==>
      Encode(src, line)[4..] == [FEED_TOKEN] + Encode(src[3..], 0) && |Encode(src, line)| == 5 + |Encode(src[3..], 0)|
    ensures |src| >= 3 && line + 4 < 72 ==>
      Encode(src, line)[4..] == Encode(src[3..], line + 4) && |Encode(src, line)| == 4 + |Encode(src[3..], line + 4)|
  {
    GroupBits(src[0], if |src| > 1 then src[1] else 0, if |src| > 2 then src[2] else 0);
  }

  lemma {:induction false} EncodeSome(src: seq<byte>, line: nat)
    requires line > 0
    ensures |Encode(src, line)| > 0
  {
  }

  ghost predicate FedRight(ts: seq<token>, line: nat, i: nat)
    requires i < |ts|
  {
    ts[i] == FEED_TOKEN <==> (line + i) % 73 == 72 || i == |ts| - 1
  }

  lemma {:induction false} FedAfter(ts: seq<token>, line: nat, i: nat, n: nat, line': nat)
    requires n <= i < |ts| && FedRight(ts[n..], line', i - n)
    requires line' + (i - n) == line + i || line' + (i - n) == line + i - 73
    ensures FedRight(ts, line, i)
  {
    assert (line + i) % 73 == (line' + (i - n)) % 73;
  }

  /** Line feeds stand behind every 72 characters and at the end, and nowhere else. */
  lemma {:induction false} FeedsAt(src: seq<byte>, line: nat, i: nat)
    requires line < 72 && line % 4 == 0 && i < |Encode(src, line)|
    ensures FedRight(Encode(src, line), line, i)
  {
    if |src| > 0 {
      GroupsUnfed(src, line, if i < 4 then i else 0);
      if |src| >= 3 {
        EncodeSome(src[3..], line + 4);
        if i >= 4 && line + 4 < 72 {
          FeedsAt(src[3..], line + 4, i - 4);
          FedAfter(Encode(src, line), line, i, 4, line + 4);
        } else if i > 4 {
          FeedsAt(src[3..], 0, i - 5);
          assert Encode(src, line)[5..] == Encode(src[3..], 0);
          FedAfter(Encode(src, line), line, i, 5, 0);
        }
      }
    }
  }

  /** Decoding gives back every byte string, from its encoding and from any text
      that differs from it only in bytes outside the alphabet, wherever they are. */
  lemma {:induction false} RoundTrip(src: seq<byte>, text: seq<byte>)
    requires Kept(text) == Kept(Text(Encode(src, 0)))
    ensures Decode(text) == Some(src) && Decode(Text(Encode(src, 0))) == Some(src)
  {
    ReadKept(text);
    ReadKept(Text(Encode(src, 0)));
    UnfedEncode(src, 0);
    ReadText(Encode(src, 0));
    DecodeDigits(src, text);
    DecodeDigits(src, Text(Encode(src, 0)));
  }

  /** What the table holds once the first `v` symbols are entered. */
  function Entered(c: byte, v: byte): byte { if c != PAD && Val(c) < v then Val(c) else SKIP }

  lemma EnterNext(c: byte, v: byte)
    requires v < 64
    ensures Entered(c, v + 1) == if c == Sym(v) then v else Entered(c, v)
  {
    SymVal(v);
    if c != PAD && Val(c) != SKIP {
      ValSym(c);
    }
  }

  lemma AllEntered(c: byte)
    ensures Val(c) == if c == PAD then 0 else Entered(c, 64)
  {
    if c != PAD && Val(c) != SKIP {
      ValSym(c);
    }
  }

  ghost predicate IsTable(dtable: array<byte>)
    reads dtable
  {
    dtable.Length == 256 && forall c: byte :: dtable[c] == Val(c)
  }

  /** The table both decoding functions build first. */
  method BuildTable() returns (dtable: array<byte>)
    ensures fresh(dtable) && IsTable(dtable)
  {
    dtable := new byte[256](_ => SKIP);
    var v: byte := 0;
    while v < 64
      invariant v <= 64
      invariant forall c: byte :: dtable[c] == Entered(c, v)
      decreases 64 - v
    {
      ghost var before, next := dtable[..], v + 1;
      dtable[Sym(v)] := v;
      forall c: byte ensures dtable[c] == Entered(c, next) {
        EnterNext(c, v);
        assert before[c] == Entered(c, v);
      }
      v := v + 1;
    }
    ghost var before := dtable[..];
    dtable[PAD] := 0;
    forall c: byte ensures dtable[c] == Val(c) {
      AllEntered(c);
      assert before[c] == Entered(c, 64);
    }
  }

  /** base64_calc_decode_length: the number of characters that count, or 0, also without
      memory for the table. */
  method CalcDecodeLength(src: seq<byte>, memory: bool) returns (n: nat)
    ensures n == if memory && |Read(src)| % 4 == 0 then |Read(src)| else 0
    ensures memory && Decode(src).Some? ==> |Decode(src).value| <= n
  {
    if !memory {
      return 0;
    }
    var dtable := BuildTable();
    n := CountTokens(src, dtable);
    if n % 4 != 0 {
      n := 0;
    } else {
      BlocksLength(Read(src), n / 4);
    }
  }

  lemma ReadSnoc(src: seq<byte>, i: nat)
    requires i < |src|
    ensures Val(src[i]) == SKIP ==> Read(src[..i + 1]) == Read(src[..i])
    ensures Val(src[i]) != SKIP ==> Read(src[..i + 1]) == Read(src[..i]) + [Tok(src[i])]
  {
    assert src[..i + 1] == src[..i] + [src[i]];
    ReadAppend(src[..i], [src[i]]);
    ReadOne(src[i]);
  }

  method CountTokens(src: seq<byte>, dtable: array<byte>) returns (n: nat)
    requires IsTable(dtable)
    ensures n == |Read(src)|
  {
    n := 0;
    var i := 0;
    while i < |src|
      invariant 0 <= i <= |src| && n == |Read(src[..i])|
    {
      ReadSnoc(src, i);
      if dtable[src[i]] != SKIP {
        n := n + 1;
      }
      i := i + 1;
    }
    assert src[..i] == src;
  }

  lemma PrefixBound(src: seq<byte>, i: nat)
    requires i <= |src|
    ensures |Read(src[..i])| <= |Read(src)|
  {
    assert src == src[..i] + src[i..];
    ReadAppend(src[..i], src[i..]);
  }

  /** The fourth token of a block adds its three bytes; the first three add nothing. */
  lemma BlockGrows(done: seq<token>, part: seq<token>, last: token, k: nat)
    requires |done| == 4 * k && |part| < 4
    ensures Blocks(done + (part + [last])) == Blocks(done + part) + if |part| == 3 then Block(part + [last]) else []
  {
    BlocksAppend(done, part, k);
    BlocksAppend(done, part + [last], k);
    if |part| == 3 {
      var four := part + [last];
      assert four[4..] == [] && four[..4] == four;
    }
  }

  /** base64_decode: no memory for the table, a text that is not whole blocks, a null
      buffer, which only asks for the size, or the bytes.  `len0` is what the caller's
      length variable held. */
  method DecodeInto(src: seq<byte>, out: array?<byte>, memory: bool, len0: nat) returns (ok: bool, outLen: nat)
    requires out != null ==> 3 * (|Read(src)| / 4) <= out.Length
    modifies out
    ensures ok <==> memory && out != null && Decode(src).Some?
    ensures ok ==> outLen == |Decode(src).value| <= out.Length && out[..outLen] == Decode(src).value
    ensures !memory ==> outLen == 0
    ensures memory && Decode(src).None? ==> outLen == len0
    ensures memory && out == null && Decode(src).Some? ==> outLen == |Read(src)| * 3 / 4 && |Decode(src).value| <= outLen
  {
    if !memory {
      return false, 0;
    }
    var dtable := BuildTable();
    var total := CountTokens(src, dtable);
    if total % 4 != 0 {
      return false, len0;
    }
    if out == null {
      BlocksLength(Read(src), total / 4);
      return false, total * 3 / 4;
    }
    outLen := FillDecoded(src, dtable, out, total);
    ok := true;
  }

  /** The decoding of a text of whole blocks, and its padding. */
  method FillDecoded(src: seq<byte>, dtable: array<byte>, out: array<byte>, total: nat) returns (outLen: nat)
    requires IsTable(dtable) && dtable != out && total == |Read(src)| && total % 4 == 0 && 3 * (total / 4) <= out.Length
    modifies out
    ensures Decode(src).Some? && outLen == |Decode(src).value| <= out.Length && out[..outLen] == Decode(src).value
  {
    BlocksLength(Read(src), total / 4);
    var pos, in2, in3 := DecodeBlocks(src, dtable, out, total / 4);
    if pos > 0 {
      if in2 == PAD {
        pos := pos - 2;
      } else if in3 == PAD {
        pos := pos - 1;
      }
    }
    outLen := pos;
  }

  /** `in` holds characters that count and `block` their sextets. */
  predicate Loaded(chars: seq<byte>, block: seq<byte>, part: seq<token>) {
    && |chars| == |block| == |part| < 4
    && forall j :: 0 <= j < |part| ==> Tok(chars[j]) == part[j] && block[j] == Bits6(part[j])
  }

  /** The decoding loop: every character that counts joins the current block, and
      every fourth one writes three bytes.  The last block's in[2] and in[3] stay. */
  method DecodeBlocks(src: seq<byte>, dtable: array<byte>, out: array<byte>, ghost total: nat)
    returns (pos: nat, in2: byte, in3: byte)
    requires |Read(src)| == 4 * total && 3 * total <= out.Length
    requires dtable != out && IsTable(dtable)
    modifies out
    ensures pos == 3 * total && out[..pos] == Blocks(Read(src))
    ensures pos > 0 ==> Tok(in2) == Read(src)[4 * total - 2] && Tok(in3) == Read(src)[4 * total - 1]
  {
    var chars, block: seq<byte> := [], [];
    ghost var k: nat := 0;
    pos, in2, in3 := 0, 0, 0;
    var i := 0;
    while i < |src|
      invariant 0 <= i <= |src| && pos == 3 * k && k <= total
      invariant Progress(Read(src[..i]), k, chars, block, in2, in3)
      invariant out[..pos] == Blocks(Read(src[..i]))
      invariant IsTable(dtable)
    {
      ReadSnoc(src, i);
      PrefixBound(src, i + 1);
      var tmp := dtable[src[i]];
      if tmp != SKIP {
        chars, block, pos, in2, in3, k := TakeToken(src[i], tmp, chars, block, in2, in3, out, pos, Read(src[..i]), k);
      }
      i := i + 1;
    }
    assert src[..i] == src;
    AllRead(Read(src), total, k, chars, block, in2, in3);
  }

  lemma AllRead(ts: seq<token>, total: nat, k: nat, chars: seq<byte>, block: seq<byte>, in2: byte, in3: byte)
    requires |ts| == 4 * total && Progress(ts, k, chars, block, in2, in3)
    ensures k == total && (k > 0 ==> Tok(in2) == ts[4 * total - 2] && Tok(in3) == ts[4 * total - 1])
  {
  }

  /** `k` whole blocks are read and the next one is begun; in2 and in3 end the last whole one. */
  ghost predicate Progress(ts: seq<token>, k: nat, chars: seq<byte>, block: seq<byte>, in2: byte, in3: byte) {
    && |ts| == 4 * k + |chars| && Loaded(chars, block, ts[4 * k..])
    && (k > 0 ==> Tok(in2) == ts[4 * k - 2] && Tok(in3) == ts[4 * k - 1])
  }

  /** One character that counts. */
  method TakeToken(c: byte, tmp: byte, chars: seq<byte>, block: seq<byte>, in2: byte, in3: byte, out: array<byte>, pos: nat,
                   ghost ts: seq<token>, ghost k: nat)
    returns (chars': seq<byte>, block': seq<byte>, pos': nat, in2': byte, in3': byte, ghost k': nat)
    requires tmp == Val(c) != SKIP && Progress(ts, k, chars, block, in2, in3) && pos == 3 * k
    requires pos + (if |chars| == 3 then 3 else 0) <= out.Length && out[..pos] == Blocks(ts)
    modifies out
    ensures Progress(ts + [Tok(c)], k', chars', block', in2', in3') && pos' == 3 * k' <= out.Length
    ensures out[..pos'] == Blocks(ts + [Tok(c)])
  {
    TokenJoins(ts, k, chars, block, in2, in3, c);
    if |block| == 3 {
      pos' := Emit(out, pos, Triple(block[0], block[1], block[2], tmp));
      in2', in3' := chars[2], c;
      chars', block', k' := [], [], k + 1;
    } else {
      chars', block', pos', in2', in3', k' := chars + [c], block + [tmp], pos, in2, in3, k;
    }
  }

  lemma TokenJoins(ts: seq<token>, k: nat, chars: seq<byte>, block: seq<byte>, in2: byte, in3: byte, c: byte)
    requires Val(c) != SKIP && Progress(ts, k, chars, block, in2, in3)
    ensures Val(c) < 64 && forall i :: 0 <= i < |block| ==> block[i] < 64
    ensures |chars| < 3 ==> Progress(ts + [Tok(c)], k, chars + [c], block + [Val(c)], in2, in3) && Blocks(ts + [Tok(c)]) == Blocks(ts)
    ensures |chars| == 3 ==>
      && Progress(ts + [Tok(c)], k + 1, [], [], chars[2], c)
      && Blocks(ts + [Tok(c)]) == Blocks(ts) + Triple(block[0], block[1], block[2], Val(c))
  {
    Regrouped(ts, k, Tok(c));
    BlockGrows(ts[..4 * k], ts[4 * k..], Tok(c), k);
    CountsAs(c);
  }

  lemma Regrouped(ts: seq<token>, k: nat, t: token)
    requires |ts| >= 4 * k
    ensures ts[..4 * k] + ts[4 * k..] == ts && ts[..4 * k] + (ts[4 * k..] + [t]) == ts + [t]
    ensures (ts + [t])[4 * k..] == ts[4 * k..] + [t]
  {
  }

  lemma CountsAs(c: byte)
    requires Val(c) != SKIP
    ensures Val(c) < 64 && Bits6(Tok(c)) == Val(c)
  {
    if c != PAD {
      ValSym(c);
    }
  }

  // ---------- the HTTP client's encoder ----------

  /** A text without its line feeds. */
  function Unlined(s: seq<byte>): seq<byte> {
    if s == [] then [] else (if s[0] == LF then [] else [s[0]]) + Unlined(s[1..])
  }

  lemma CharFeed(t: token)
    requires t <= 65
    ensures Char(t) == LF <==> t == FEED_TOKEN
  {
    if t < 64 {
      SymVal(t);
    }
  }

  lemma {:induction false} UnlinedText(ts: seq<token>)
    requires Tokens(ts)
    ensures Unlined(Text(ts)) == Text(Unfed(ts))
  {
    if ts != [] {
      var s := Text(ts);
      assert s[1..] == Text(ts[1..]);
      UnlinedText(ts[1..]);
      CharFeed(ts[0]);
      if ts[0] != FEED_TOKEN {
        TextAppend([ts[0]], Unfed(ts[1..]));
      }
    }
  }

  /** base64_encode's text with the line feeds removed. */
  lemma UnlinedEncode(src: seq<byte>)
    ensures Unlined(Text(Encode(src, 0))) == Text(Digits(src))
  {
    UnfedEncode(src, 0);
    UnlinedText(Encode(src, 0));
  }

  lemma {:induction false} DigitsAppend(a: seq<byte>, b: seq<byte>, k: nat)
    requires |a| == 3 * k
    ensures Digits(a + b) == Digits(a) + Digits(b)
    decreases k
  {
    if k == 0 {
      assert a + b == b;
    } else {
      assert (a + b)[3..] == a[3..] + b;
      DigitsAppend(a[3..], b, k - 1);
    }
  }

  /** The sextets the bit accumulator has taken off after a group's first bytes. */
  function Partial(g: seq<byte>): (t: seq<token>)
    requires |g| < 3
    ensures |t| == |g|
  {
    if |g| == 0 then []
    else if |g| == 1 then [g[0] / 4]
    else [g[0] / 4, g[0] % 4 * 16 + g[1] / 16]
  }

  /** The low `l` bits of the accumulator: 2 after one byte of a group, 4 after two. */
  predicate Pending(x: nat, l: nat, g: seq<byte>)
    requires |g| < 3
  {
    && l == 2 * |g|
    && (|g| == 1 ==> x % 4 == g[0] % 4)
    && (|g| == 2 ==> x % 16 == g[1] % 16)
  }

  /** The sextets that reading `c` completes behind a started group. */
  function Completed(g: seq<byte>, c: byte): (f: seq<token>)
    requires |g| < 3
    ensures |f| == if |g| == 2 then 2 else 1
  {
    if |g| == 0 then [c / 4]
    else if |g| == 1 then [g[0] % 4 * 16 + c / 16]
    else [g[1] % 16 * 4 + c / 64, c % 64]
  }

  /** The bytes of complete groups of three, and the started group. */
  function Groups(p: seq<byte>): seq<byte> { p[..3 * (|p| / 3)] }

  function Started(p: seq<byte>): (g: seq<byte>)
    ensures |g| < 3
  {
    p[3 * (|p| / 3)..]
  }

  /** The sextets taken off after reading `p`. */
  function Taken(p: seq<byte>): seq<token> { Digits(Groups(p)) + Partial(Started(p)) }

  lemma GroupsGrow(p: seq<byte>, c: byte)
    ensures var g := Started(p);
            && (|g| < 2 ==> Started(p + [c]) == g + [c] && Groups(p + [c]) == Groups(p))
            && (|g| == 2 ==> Started(p + [c]) == [] && Groups(p + [c]) == Groups(p) + (g + [c]))
  {
    var k, g := |p| / 3, Started(p);
    assert (|p| + 1) / 3 == if |g| == 2 then k + 1 else k;
  }

  lemma TakenGrows(p: seq<byte>, c: byte)
    ensures Taken(p + [c]) == Taken(p) + Completed(Started(p), c)
  {
    var g := Started(p);
    GroupsGrow(p, c);
    if |g| == 2 {
      var three := g + [c];
      DigitsAppend(Groups(p), three, |p| / 3);
      assert three[3..] == [];
      assert Digits(three) == Quad(g[0], g[1], c) == Partial(g) + Completed(g, c);
    } else {
      assert Partial(g + [c]) == Partial(g) + Completed(g, c);
    }
  }

  /** httpclient_base64enc: shifts every byte into a 32-bit accumulator and takes
      six bits off as soon as they are there. */
  method HttpEncode(src: seq<byte>) returns (out: seq<byte>)
    requires 0 !in src
    ensures out == Text(Digits(src)) == Unlined(Text(Encode(src, 0)))
  {
    out := [];
    var x: nat, l: nat := 0, 0;
    var i := 0;
    while i < |src|
      invariant 0 <= i <= |src|
      invariant Pending(x, l, Started(src[..i])) && out == Text(Taken(src[..i]))
    {
      ghost var p := src[..i];
      assert src[..i + 1] == p + [src[i]];
      TakenGrows(p, src[i]);
      TextAppend(Taken(p), Completed(Started(p), src[i]));
      PendingGrows(x, l, p, src[i]);
      var emitted;
      x, l, emitted := ShiftIn(x, l, Started(p), src[i]);
      out := out + emitted;
      i := i + 1;
    }
    assert src[..i] == src;
    out := Finish(out, x, l, src);
    UnlinedEncode(src);
  }

  lemma WholeAndTail(src: seq<byte>)
    ensures Digits(src) == Digits(Groups(src)) + Digits(Started(src)) && |Digits(Groups(src))| == 4 * (|src| / 3)
  {
    assert src == Groups(src) + Started(src);
    DigitsAppend(Groups(src), Started(src), |src| / 3);
    DigitsLength(Groups(src));
  }

  /** The left-over bits of the last group, as one more sextet. */
  function Flush(g: seq<byte>): seq<token>
    requires |g| < 3
  {
    if |g| == 0 then [] else if |g| == 1 then [g[0] % 4 * 16] else [g[1] % 16 * 4]
  }

  function Pads(g: seq<byte>): seq<token>
    requires |g| < 3
  {
    seq(if |g| == 0 then 0 else 3 - |g|, _ => PAD_TOKEN)
  }

  lemma {:induction false} TailParts(src: seq<byte>)
    ensures Digits(src) == Taken(src) + Flush(Started(src)) + Pads(Started(src))
    ensures |Taken(src)| == 4 * (|src| / 3) + |Started(src)|
  {
    var g, whole := Started(src), Digits(Groups(src));
    WholeAndTail(src);
    LastGroup(g);
    RegroupFour(whole, Partial(g), Flush(g), Pads(g));
  }

  lemma RegroupFour(a: seq<token>, b: seq<token>, c: seq<token>, d: seq<token>)
    ensures a + (b + c + d) == a + b + c + d
  {
  }

  lemma {:induction false} LastGroup(g: seq<byte>)
    requires |g| < 3
    ensures Digits(g) == Partial(g) + Flush(g) + Pads(g)
  {
    if |g| == 1 {
      assert Pads(g) == [PAD_TOKEN, PAD_TOKEN];
      ThreeParts(Quad1(g[0]), 1, 2);
    } else if |g| == 2 {
      assert Pads(g) == [PAD_TOKEN];
      ThreeParts(Quad2(g[0], g[1]), 2, 3);
    }
  }

  lemma ThreeParts(q: seq<token>, i: nat, j: nat)
    requires i <= j <= |q|
    ensures q == q[..i] + q[i..j] + q[j..]
  {
  }

  /** What follows the loop: the left-over bits, then pads up to a multiple of four. */
  method Finish(written: seq<byte>, x: nat, l: nat, ghost src: seq<byte>) returns (out: seq<byte>)
    requires Pending(x, l, Started(src)) && written == Text(Taken(src))
    ensures out == Text(Digits(src))
  {
    ghost var g := Started(src);
    TailParts(src);
    TextAppend(Taken(src), Flush(g));
    TextAppend(Taken(src) + Flush(g), Pads(g));
    out := written;
    if l > 0 {
      LeftOver(x, l, g);
      out := out + Text([U32(x * (if l == 2 then 16 else 4)) % 64]);
    }
    out := PadOut(out, |src| / 3, |g|);
  }

  /** `for (; i % 4;) out[i++] = '='` on a text of `k` quads and `n` bytes of a further group. */
  method PadOut(so: seq<byte>, ghost k: nat, ghost n: nat) returns (out: seq<byte>)
    requires n < 3 && |so| == 4 * k + (if n == 0 then 0 else n + 1)
    ensures out == so + Text(seq(if n == 0 then 0 else 3 - n, _ => PAD_TOKEN))
  {
    out := so;
    ghost var goal := so + Text(seq(if n == 0 then 0 else 3 - n, _ => PAD_TOKEN));
    while |out| % 4 != 0
      invariant |so| <= |out| <= |goal| && out == goal[..|out|]
      decreases |goal| - |out|
    {
      out := out + [PAD];
    }
  }

  lemma LeftOver(x: nat, l: nat, g: seq<byte>)
    requires 0 < |g| < 3 && Pending(x, l, g)
    ensures [U32(x * (if l == 2 then 16 else 4)) % 64] == Flush(g)
  {
    ModUnique(x * 16, 64, x / 4, x % 4 * 16);
    ModUnique(x * 4, 64, x / 16, x % 16 * 4);
    DropRange(x * 16, 64);
    DropRange(x * 4, 64);
  }

  /** Reducing to 32 bits keeps the low bits. */
  lemma DropRange(v: nat, p: nat)
    requires p in {64, 256, 1024, 4096}
    ensures U32(v) % p == v % p
  {
    var q := if p == 64 then 0x400_0000 else if p == 256 then 0x100_0000 else if p == 1024 then 0x40_0000 else 0x10_0000;
    DropMultiple(v, p, q, v / U32_RANGE, U32(v));
  }

  lemma After8(x: nat, c: byte)
    ensures var y := U32(x * 256 + c); y / 4 % 64 == c / 4 && y % 256 == c
  {
    var v := x * 256 + c;
    DropRange(v, 256);
    ModUnique(v, 256, x, c);
    Middle(U32(v), 256, 4);
  }

  lemma After10(x: nat, c: byte)
    ensures U32(x * 256 + c) / 16 % 64 == x % 4 * 16 + c / 16
  {
    var v := x * 256 + c;
    DropRange(v, 1024);
    ModUnique(v, 1024, x / 4, x % 4 * 256 + c);
    Middle(U32(v), 1024, 16);
  }

  lemma After12(x: nat, c: byte)
    ensures U32(x * 256 + c) / 64 % 64 == x % 16 * 4 + c / 64
  {
    var v := x * 256 + c;
    DropRange(v, 4096);
    ModUnique(v, 4096, x / 16, x % 16 * 256 + c);
    Middle(U32(v), 4096, 64);
  }

  lemma LowBits(y: nat, c: byte)
    requires y % 256 == c
    ensures y % 64 == c % 64 && y % 4 == c % 4 && y % 16 == c % 16
  {
    var h := y / 256;
    assert y == 256 * h + c;
    ModUnique(y, 64, 4 * h + c / 64, c % 64);
    ModUnique(y, 16, 16 * h + c / 16, c % 16);
    ModUnique(y, 4, 64 * h + c / 4, c % 4);
  }

  /** The six bits above the lowest two, four or six. */
  lemma Middle(y: nat, p: nat, d: nat)
    requires (p == 256 && d == 4) || (p == 1024 && d == 16) || (p == 4096 && d == 64)
    ensures y / d % 64 == y % p / d
  {
    var h, r := y / p, y % p;
    assert y == p * h + r && p == 64 * d;
    ModUnique(y, d, 64 * h + r / d, r % d);
    ModUnique(y / d, 64, h, r / d);
  }

  lemma PendingGrows(x: nat, l: nat, p: seq<byte>, c: byte)
    requires Pending(x, l, Started(p))
    ensures Pending(U32(x * 256 + c), if l == 4 then 0 else l + 2, Started(p + [c]))
  {
    GroupsGrow(p, c);
    After8(x, c);
    LowBits(U32(x * 256 + c), c);
  }

  /** The six bits left after shifting the accumulator right by 0, 2, 4 or 6. */
  function SixBits(y: nat, shift: nat): byte {
    if shift == 0 then y % 64 else if shift == 2 then y / 4 % 64 else if shift == 4 then y / 16 % 64 else y / 64 % 64
  }

  /** Each pass of the inner loop takes off the next of the completed sextets. */
  lemma NextSextet(x: nat, l: nat, g: seq<byte>, c: byte, n: nat)
    requires |g| < 3 && Pending(x, l, g) && n < |Completed(g, c)|
    ensures SixBits(U32(x * 256 + c), l + 2 - 6 * n) == Completed(g, c)[n]
  {
    After8(x, c);
    LowBits(U32(x * 256 + c), c);
    if |g| == 1 {
      After10(x, c);
    } else if |g| == 2 {
      After12(x, c);
    }
  }

  /** One round of the outer loop: `x = x << 8 | *in`, then the inner loop. */
  method ShiftIn(x0: nat, l0: nat, ghost g: seq<byte>, c: byte) returns (x: nat, l: nat, out: seq<byte>)
    requires |g| < 3 && Pending(x0, l0, g)
    ensures x == U32(x0 * 256 + c) && l == (if l0 == 4 then 0 else l0 + 2)
    ensures out == Text(Completed(g, c))
  {
    x := U32(x0 * 256 + c);
    l := l0 + 8;
    out := [];
    ghost var f := Completed(g, c);
    while l >= 6
      invariant |out| <= |f| && l == l0 + 8 - 6 * |out|
      invariant out == Text(f)[..|out|]
      decreases l
    {
      NextSextet(x0, l0, g, c, |out|);
      out := out + [Char(SixBits(x, l - 6))];
      l := l - 6;
    }
  }
}
