/** The base64 encoder (section 4 of RFC 4648), with the decoder it is inverse to. */
module Base64 {
  import opened Text

  type Byte = bv8
  type Sextet = bv6

  const UPPER: string := "ABCDEFGHIJKLMNOPQRSTUVWXYZ"
  const LOWER: string := "abcdefghijklmnopqrstuvwxyz"
  const DIGITS: string := "0123456789"
  const ALPHABET: string := UPPER + LOWER + DIGITS + "+/"
  const PAD: char := '='

  // ------------------------------------------------------------- the alphabet

  lemma UpperAt(k: nat)
    requires k < 26
    ensures |UPPER| == 26 && UPPER[k] as int == 65 + k
  {
  }

  lemma LowerAt(k: nat)
    requires k < 26
    ensures |LOWER| == 26 && LOWER[k] as int == 97 + k
  {
  }

  lemma DigitAt(k: nat)
    requires k < 10
    ensures |DIGITS| == 10 && DIGITS[k] as int == 48 + k
  {
  }

  lemma JoinedAt(a: string, b: string, c: string, d: string, k: nat)
    requires |a| == |b| == 26 && |c| == 10 && |d| == 2 && k < 64
    ensures |a + b + c + d| == 64
    ensures (a + b + c + d)[k] ==
            if k < 26 then a[k] else if k < 52 then b[k - 26] else if k < 62 then c[k - 52] else d[k - 62]
  {
  }

  /** The code point of the symbol at position `k`. */
  function CodeOf(k: nat): int
    requires k < 64
  {
    if k < 26 then 65 + k else if k < 52 then 71 + k else if k < 62 then k - 4 else if k == 62 then 43 else 47
  }

  lemma AlphabetAt(k: nat)
    requires k < 64
    ensures |ALPHABET| == 64 && ALPHABET[k] as int == CodeOf(k)
  {
    UpperAt(if k < 26 then k else 0);
    LowerAt(if 26 <= k < 52 then k - 26 else 0);
    DigitAt(if 52 <= k < 62 then k - 52 else 0);
    JoinedAt(UPPER, LOWER, DIGITS, "+/", k);
  }

  lemma AlphabetSize()
    ensures |ALPHABET| == 64
  {
    AlphabetAt(0);
  }

  lemma CodesDiffer(i: nat, j: nat)
    requires i < 64 && j < 64 && CodeOf(i) == CodeOf(j)
    ensures i == j && CodeOf(i) != '=' as int
  {
  }

  function Symbol(v: Sextet): char {
    AlphabetSize();
    ALPHABET[v as nat]
  }

  /** The first position of `c` at or after `from`. */
  function Position(s: string, c: char, from: nat): (r: Option<nat>)
    requires from <= |s|
    ensures r.Some? ==> r.value < |s| && s[r.value] == c
    ensures r.None? ==> forall i :: from <= i < |s| ==> s[i] != c
    decreases |s| - from
  {
    if from == |s| then None
    else if s[from] == c then Some(from)
    else Position(s, c, from + 1)
  }

  function Value(c: char): Option<Sextet> {
    AlphabetSize();
    match Position(ALPHABET, c, 0)
    case None => None
    case Some(k) => Some(k as bv6)
  }

  /** A symbol for each six bits, and the six bits for each symbol. */
  datatype Coding = Coding(symbol: Sextet -> char, value: char -> Option<Sextet>)
  {
    ghost predicate Sound() {
      && (forall v: Sextet :: symbol(v) != PAD && value(symbol(v)) == Some(v))
      && (forall c: char :: value(c).Some? ==> c != PAD && symbol(value(c).value) == c)
    }
  }

  const STANDARD := Coding(v => Symbol(v), c => Value(c))

  lemma SymbolValue(v: Sextet)
    ensures Symbol(v) != PAD && Value(Symbol(v)) == Some(v)
  {
    var k := v as nat;
    AlphabetAt(k);
    var p := Position(ALPHABET, ALPHABET[k], 0).value;
    AlphabetAt(p);
    CodesDiffer(k, p);
  }

  lemma ThereAndBack(k: nat)
    requires k < 64
    ensures (k as bv6) as nat == k
  {
  }

  lemma ValueSymbol(c: char)
    requires Value(c).Some?
    ensures c != PAD && Symbol(Value(c).value) == c
  {
    AlphabetSize();
    var k := Position(ALPHABET, c, 0).value;
    var v := k as bv6;
    assert Value(c) == Some(v);
    ThereAndBack(k);
    assert Symbol(v) == c;
    assert c != PAD by {
      AlphabetAt(k);
      CodesDiffer(k, k);
    }
  }

  lemma StandardIsSound()
    ensures STANDARD.Sound()
  {
    forall v: Sextet ensures STANDARD.symbol(v) != PAD && STANDARD.value(STANDARD.symbol(v)) == Some(v) {
      SymbolValue(v);
    }
    forall c: char | STANDARD.value(c).Some? ensures c != PAD && STANDARD.symbol(STANDARD.value(c).value) == c {
      ValueSymbol(c);
    }
  }

  // --------------------------------------------------------------- bit packing

  /** Three bytes as one 24-bit number. */
  function Packed(b0: Byte, b1: Byte, b2: Byte): bv32 {
    ((b0 as bv32) << 16) | ((b1 as bv32) << 8) | (b2 as bv32)
  }

  function Unpacked(v0: Sextet, v1: Sextet, v2: Sextet, v3: Sextet): bv32 {
    ((v0 as bv32) << 18) | ((v1 as bv32) << 12) | ((v2 as bv32) << 6) | (v3 as bv32)
  }

  function Six0(n: bv32): Sextet { ((n >> 18) & 0x3F) as bv6 }
  function Six1(n: bv32): Sextet { ((n >> 12) & 0x3F) as bv6 }
  function Six2(n: bv32): Sextet { ((n >> 6) & 0x3F) as bv6 }
  function Six3(n: bv32): Sextet { (n & 0x3F) as bv6 }
  function Byte0(n: bv32): Byte { ((n >> 16) & 0xFF) as bv8 }
  function Byte1(n: bv32): Byte { ((n >> 8) & 0xFF) as bv8 }
  function Byte2(n: bv32): Byte { (n & 0xFF) as bv8 }

  lemma PackBits(b0: Byte, b1: Byte, b2: Byte)
    ensures var n := Packed(b0, b1, b2);
            && Unpacked(Six0(n), Six1(n), Six2(n), Six3(n)) == n
            && Byte0(n) == b0 && Byte1(n) == b1 && Byte2(n) == b2
            && (b2 == 0 ==> Six3(n) == 0)
            && (b2 == 0 && b1 == 0 ==> Six2(n) == 0)
  {
  }

  lemma UnpackBits(v0: Sextet, v1: Sextet, v2: Sextet, v3: Sextet)
    ensures var n := Unpacked(v0, v1, v2, v3);
            && Packed(Byte0(n), Byte1(n), Byte2(n)) == n
            && Six0(n) == v0 && Six1(n) == v1 && Six2(n) == v2 && Six3(n) == v3
  {
  }

  // ---------------------------------------------------------------- one chunk

  function At(chunk: seq<Byte>, i: nat): Byte {
    if i < |chunk| then chunk[i] else 0
  }

  /** One chunk of one to three bytes as four symbols. */
  function EncodeChunk(coding: Coding, chunk: seq<Byte>): string {
    FourSymbols(coding, Packed(At(chunk, 0), At(chunk, 1), At(chunk, 2)), |chunk|)
  }

  /** The symbols of a 24-bit number of which `count` bytes are there. */
  function FourSymbols(coding: Coding, n: bv32, count: nat): string {
    [ coding.symbol(Six0(n)),
      coding.symbol(Six1(n)),
      if count > 1 then coding.symbol(Six2(n)) else PAD,
      if count > 2 then coding.symbol(Six3(n)) else PAD ]
  }

  /** Four symbols as one to three bytes. Padding is accepted only in the last two
      places, and only when the bits it leaves unused are zero. */
  function DecodeChunk(coding: Coding, s: string): Option<seq<Byte>>
    requires |s| == 4
  {
    var v0, v1, v2, v3 := coding.value(s[0]), coding.value(s[1]), coding.value(s[2]), coding.value(s[3]);
    if v0.None? || v1.None? then None
    else if s[2] == PAD && s[3] == PAD then
      var n := Unpacked(v0.value, v1.value, 0, 0);
      if Byte1(n) == 0 then Some([Byte0(n)]) else None
    else if v2.None? then None
    else if s[3] == PAD then
      var n := Unpacked(v0.value, v1.value, v2.value, 0);
      if Byte2(n) == 0 then Some([Byte0(n), Byte1(n)]) else None
    else if v3.None? then None
    else
      var n := Unpacked(v0.value, v1.value, v2.value, v3.value);
      Some([Byte0(n), Byte1(n), Byte2(n)])
  }

  lemma UnusedBits(v0: Sextet, v1: Sextet)
    ensures var n := Unpacked(v0, v1, 0, 0);
            Byte2(n) == 0
  {
  }

  lemma EncodeChunkDecodes(coding: Coding, chunk: seq<Byte>)
    requires coding.Sound() && 1 <= |chunk| <= 3
    ensures DecodeChunk(coding, EncodeChunk(coding, chunk)) == Some(chunk)
  {
    PackBits(At(chunk, 0), At(chunk, 1), At(chunk, 2));
    if |chunk| == 1 {
      assert chunk == [chunk[0]];
    } else if |chunk| == 2 {
      assert chunk == [chunk[0], chunk[1]];
    } else {
      assert chunk == [chunk[0], chunk[1], chunk[2]];
    }
  }

  lemma DecodeChunkEncodes(coding: Coding, s: string)
    requires coding.Sound() && |s| == 4 && DecodeChunk(coding, s).Some?
    ensures 1 <= |DecodeChunk(coding, s).value| <= 3
    ensures EncodeChunk(coding, DecodeChunk(coding, s).value) == s
  {
    var v0, v1 := coding.value(s[0]).value, coding.value(s[1]).value;
    var v2 := if s[2] == PAD then 0 else coding.value(s[2]).value;
    var v3 := if s[3] == PAD then 0 else coding.value(s[3]).value;
    UnpackBits(v0, v1, v2, v3);
    UnusedBits(v0, v1);
  }

  // ------------------------------------------------------------ whole strings

  function Encode(coding: Coding, bytes: seq<Byte>): string {
    if bytes == [] then ""
    else if |bytes| <= 3 then EncodeChunk(coding, bytes)
    else EncodeChunk(coding, bytes[..3]) + Encode(coding, bytes[3..])
  }

  function Decode(coding: Coding, s: string): Option<seq<Byte>> {
    if s == "" then Some([])
    else if |s| < 4 then None
    else
      match DecodeChunk(coding, s[..4])
      case None => None
      case Some(first) =>
        if |s| == 4 then Some(first)
        else if |first| < 3 then None
        else match Decode(coding, s[4..])
          case None => None
          case Some(others) => Some(first + others)
  }

  /** Four symbols per chunk of three bytes, rounded up. */
  lemma {:induction false} EncodedLength(coding: Coding, bytes: seq<Byte>)
    ensures |Encode(coding, bytes)| == (|bytes| + 2) / 3 * 4
    decreases |bytes|
  {
    if |bytes| > 3 {
      EncodedLength(coding, bytes[3..]);
    }
  }

  /** The decoder inverts the encoder on every byte sequence. */
  lemma {:induction false} EncodeDecodes(coding: Coding, bytes: seq<Byte>)
    requires coding.Sound()
    ensures Decode(coding, Encode(coding, bytes)) == Some(bytes)
    decreases |bytes|
  {
    if bytes != [] {
      var k := if |bytes| <= 3 then |bytes| else 3;
      EncodeChunkDecodes(coding, bytes[..k]);
      var head := EncodeChunk(coding, bytes[..k]);
      if |bytes| <= 3 {
        assert bytes[..k] == bytes && head[..4] == head;
      } else {
        EncodeDecodes(coding, bytes[3..]);
        EncodedLength(coding, bytes[3..]);
        var s := head + Encode(coding, bytes[3..]);
        assert s[..4] == head && s[4..] == Encode(coding, bytes[3..]);
        assert bytes[..3] + bytes[3..] == bytes;
      }
    }
  }

  /** And it accepts nothing else: a string decodes only if it is an encoding. */
  lemma {:induction false} DecodeEncodes(coding: Coding, s: string)
    requires coding.Sound() && Decode(coding, s).Some?
    ensures Encode(coding, Decode(coding, s).value) == s
    decreases |s|
  {
    if s != "" {
      var head, tail := s[..4], s[4..];
      DecodeChunkEncodes(coding, head);
      assert head + tail == s;
      var first := DecodeChunk(coding, head).value;
      if |s| == 4 {
        assert head == s;
      } else {
        DecodeEncodes(coding, tail);
        HeadChunk(coding, first + Decode(coding, tail).value);
        var bytes := first + Decode(coding, tail).value;
        assert bytes[..3] == first && bytes[3..] == Decode(coding, tail).value;
      }
    }
  }

  lemma HeadChunk(coding: Coding, bytes: seq<Byte>)
    requires |bytes| >= 3
    ensures Encode(coding, bytes) == EncodeChunk(coding, bytes[..3]) + Encode(coding, bytes[3..])
  {
    if |bytes| == 3 {
      assert bytes[..3] == bytes && bytes[3..] == [];
    }
  }

  lemma ChunkPadding(coding: Coding, chunk: seq<Byte>, i: nat)
    requires coding.Sound() && 1 <= |chunk| <= 3 && i < 4
    ensures |EncodeChunk(coding, chunk)| == 4
    ensures EncodeChunk(coding, chunk)[i] == PAD <==> i >= |chunk| + 1
  {
  }

  lemma PadStep(head: string, tail: string, n: nat, i: nat)
    requires |head| == 4 && n > 3 && i < 4 + |tail| && |tail| == (n - 3 + 2) / 3 * 4
    requires i < 4 ==> head[i] != PAD
    requires i >= 4 ==> (tail[i - 4] == PAD <==> i - 4 >= |tail| - (3 - (n - 3) % 3) % 3)
    ensures (head + tail)[i] == PAD <==> i >= |head + tail| - (3 - n % 3) % 3
  {
    assert (n - 3) % 3 == n % 3;
  }

  /** Padding stands exactly at the last (3 - n mod 3) mod 3 positions. */
  lemma {:induction false} PaddingIsLast(coding: Coding, bytes: seq<Byte>, i: nat)
    requires coding.Sound() && i < |Encode(coding, bytes)|
    ensures Encode(coding, bytes)[i] == PAD <==> i >= |Encode(coding, bytes)| - (3 - |bytes| % 3) % 3
    decreases |bytes|, 1
  {
    if bytes != [] {
      if |bytes| <= 3 {
        ChunkPadding(coding, bytes, i);
      } else {
        HeadChunk(coding, bytes);
        LongPadding(coding, bytes, i, EncodeChunk(coding, bytes[..3]), Encode(coding, bytes[3..]));
      }
    }
  }

  lemma {:induction false} LongPadding(coding: Coding, bytes: seq<Byte>, i: nat, head: string, tail: string)
    requires coding.Sound() && |bytes| > 3 && i < |head + tail|
    requires head == EncodeChunk(coding, bytes[..3]) && tail == Encode(coding, bytes[3..])
    ensures (head + tail)[i] == PAD <==> i >= |head + tail| - (3 - |bytes| % 3) % 3
    decreases |bytes|, 0
  {
    ChunkPadding(coding, bytes[..3], if i < 4 then i else 0);
    EncodedLength(coding, bytes[3..]);
    if i >= 4 {
      PaddingIsLast(coding, bytes[3..], i - 4);
    }
    PadStep(head, tail, |bytes|, i);
  }

  /** Encoding distributes over concatenation at a chunk boundary. */
  lemma {:induction false} EncodeAppend(coding: Coding, a: seq<Byte>, b: seq<Byte>)
    requires |a| % 3 == 0
    ensures Encode(coding, a + b) == Encode(coding, a) + Encode(coding, b)
    decreases |a|
  {
    if a == [] {
      assert a + b == b;
    } else {
      var head, tail := EncodeChunk(coding, a[..3]), a[3..];
      HeadChunk(coding, a);
      HeadChunk(coding, a + b);
      SplitHead(a, b);
      EncodeAppend(coding, tail, b);
      AppendIsAssociative(head, Encode(coding, tail), Encode(coding, b));
    }
  }

  lemma SplitHead(a: seq<Byte>, b: seq<Byte>)
    requires |a| >= 3
    ensures (a + b)[..3] == a[..3] && (a + b)[3..] == a[3..] + b
  {
  }

  // -------------------------------------------------------------- the encoder

  /** The standard encoding of a byte sequence. */
  function Standard(bytes: seq<Byte>): string {
    Encode(STANDARD, bytes)
  }

  /** Decoding the standard alphabet is exactly the inverse relation of encoding. */
  lemma DecodesExactly(s: string, bytes: seq<Byte>)
    ensures Decode(STANDARD, s) == Some(bytes) <==> s == Standard(bytes)
  {
    StandardIsSound();
    EncodeDecodes(STANDARD, bytes);
    if Decode(STANDARD, s).Some? {
      DecodeEncodes(STANDARD, s);
    }
  }

  lemma StandardIsInjective(a: seq<Byte>, b: seq<Byte>)
    requires Standard(a) == Standard(b)
    ensures a == b
  {
    DecodesExactly(Standard(a), a);
    DecodesExactly(Standard(a), b);
  }

  lemma StandardPadding(bytes: seq<Byte>, i: nat)
    requires i < |Standard(bytes)|
    ensures Standard(bytes)[i] == PAD <==> i >= |Standard(bytes)| - (3 - |bytes| % 3) % 3
  {
    StandardIsSound();
    PaddingIsLast(STANDARD, bytes, i);
  }

  lemma SymbolIs(v: Sextet, k: nat, c: char)
    requires v as nat == k && k < 64 && c as int == CodeOf(k)
    ensures STANDARD.symbol(v) == c
  {
    AlphabetAt(k);
  }

  lemma OneChunk(chunk: seq<Byte>)
    requires 1 <= |chunk| <= 3
    ensures Standard(chunk) == EncodeChunk(STANDARD, chunk)
  {
  }

  /** The test vectors of section 10 of RFC 4648 for one, two and three bytes. */
  lemma TestVectors()
    ensures Standard([102]) == "Zg=="
    ensures Standard([102, 111]) == "Zm8="
    ensures Standard([102, 111, 111]) == "Zm9v"
  {
    OneChunk([102]);
    OneChunk([102, 111]);
    OneChunk([102, 111, 111]);
    SymbolIs(25, 25, 'Z');
    SymbolIs(32, 32, 'g');
    SymbolIs(38, 38, 'm');
    SymbolIs(60, 60, '8');
    SymbolIs(61, 61, '9');
    SymbolIs(47, 47, 'v');
  }

  /** The table entry for six bits. */
  method Entry(v: Sextet) returns (c: char)
    ensures c == STANDARD.symbol(v)
  {
    AlphabetSize();
    c := ALPHABET[v as nat];
  }

  /** A chunk's bytes side by side, zeros for those it does not have. */
  method PackBytes(chunk: seq<Byte>) returns (n: bv32)
    requires 1 <= |chunk| <= 3
    ensures n == Packed(At(chunk, 0), At(chunk, 1), At(chunk, 2))
  {
    var b0 := chunk[0] as bv32;
    var b1 := (if |chunk| > 1 then chunk[1] else 0) as bv32;
    var b2 := (if |chunk| > 2 then chunk[2] else 0) as bv32;
    n := (b0 << 16) | (b1 << 8) | b2;
  }

  lemma PushFour(coding: Coding, n: bv32, count: nat, out: string, c0: char, c1: char, c2: char, c3: char)
    requires c0 == coding.symbol(Six0(n)) && c1 == coding.symbol(Six1(n))
    requires c2 == (if count > 1 then coding.symbol(Six2(n)) else PAD)
    requires c3 == (if count > 2 then coding.symbol(Six3(n)) else PAD)
    ensures out + [c0] + [c1] + [c2] + [c3] == out + FourSymbols(coding, n, count)
  {
  }

  method Push(out: string, n: bv32, count: nat) returns (longer: string)
    ensures longer == out + FourSymbols(STANDARD, n, count)
  {
    var c0 := Entry(((n >> 18) & 0x3F) as bv6);
    var c1 := Entry(((n >> 12) & 0x3F) as bv6);
    var c2, c3 := PAD, PAD;
    if count > 1 {
      c2 := Entry(((n >> 6) & 0x3F) as bv6);
    }
    if count > 2 {
      c3 := Entry((n & 0x3F) as bv6);
    }
    longer := out + [c0] + [c1] + [c2] + [c3];
    PushFour(STANDARD, n, count, out, c0, c1, c2, c3);
  }

  /** One chunk, written with the table itself. */
  method EncodeInto(out: string, chunk: seq<Byte>) returns (longer: string)
    requires 1 <= |chunk| <= 3
    ensures longer == out + EncodeChunk(STANDARD, chunk)
  {
    var n := PackBytes(chunk);
    longer := Push(out, n, |chunk|);
  }

  method Base64Encode(bytes: seq<Byte>) returns (out: string)
    ensures out == Standard(bytes)
  {
    out := "";
    var at := 0;
    while at < |bytes|
      invariant at <= |bytes| && (at % 3 == 0 || at == |bytes|)
      invariant out == Standard(bytes[..at])
    {
      var chunk := if |bytes| - at < 3 then bytes[at..] else bytes[at..at + 3];
      out := EncodeInto(out, chunk);
      assert bytes[..at] + chunk == bytes[..at + |chunk|];
      EncodeAppend(STANDARD, bytes[..at], chunk);
      at := at + |chunk|;
    }
    assert bytes[..at] == bytes;
  }
}
