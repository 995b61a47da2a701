/** Streaming SHA-1 against the definition in FIPS 180-2. */
module Sha1 {
  const TWO_TO_THE_64 := 0x1_0000_0000_0000_0000

  type byte = x: int | 0 <= x < 256
  type word = bv32

  // ---------- FIPS 180-2 ----------

  /** Section 2.2.2: addition modulo 2^32 and the bitwise operations on words. */
  function Plus(x: word, y: word): word {
    x + y
  }

  /** Section 3.2: rotation to the left. */
  function Rotl(x: word, n: nat): word
    requires 0 < n < 32
  {
    (x << n) | (x >> (32 - n))
  }

  function Ch(x: word, y: word, z: word): word {
    (x & y) ^ (!x & z)
  }

  function Parity(x: word, y: word, z: word): word {
    x ^ y ^ z
  }

  function Maj(x: word, y: word, z: word): word {
    (x & y) ^ (x & z) ^ (y & z)
  }

  /** Section 4.1.1. */
  function F(t: nat, x: word, y: word, z: word): word {
    if t < 20 then Ch(x, y, z)
    else if t < 40 then Parity(x, y, z)
    else if t < 60 then Maj(x, y, z)
    else Parity(x, y, z)
  }

  /** Section 4.2.1. */
  function K(t: nat): word {
    if t < 20 then 0x5a827999 else if t < 40 then 0x6ed9eba1 else if t < 60 then 0x8f1bbcdc else 0xca62c1d6
  }

  /** Section 5.2.1: big-endian words. */
  function BigEndian(b0: byte, b1: byte, b2: byte, b3: byte): word {
    Joined(b0 as bv32, b1 as bv32, b2 as bv32, b3 as bv32)
  }

  function Joined(x0: word, x1: word, x2: word, x3: word): word {
    (x0 << 24) + (x1 << 16) + (x2 << 8) + x3
  }

  function Mix(x: word, y: word, z: word, u: word): word {
    x ^ y ^ z ^ u
  }

  /** Section 6.1.2, step 1: the message schedule. */
  function W(block: seq<byte>, t: nat): word
    requires |block| == 64
  {
    if t < 16 then
      BigEndian(block[4 * t], block[4 * t + 1], block[4 * t + 2], block[4 * t + 3])
    else
      Rotl(Mix(W(block, t - 3), W(block, t - 8), W(block, t - 14), W(block, t - 16)), 1)
  }

  datatype Regs = Regs(a: word, b: word, c: word, d: word, e: word)

  function Sum(h: Regs, r: Regs): Regs {
    Regs(Plus(h.a, r.a), Plus(h.b, r.b), Plus(h.c, r.c), Plus(h.d, r.d), Plus(h.e, r.e))
  }

  /** Section 6.1.2, step 3. */
  function Round(r: Regs, t: nat, w: word): Regs {
    Regs(Plus(Plus(Plus(Plus(Rotl(r.a, 5), F(t, r.b, r.c, r.d)), r.e), K(t)), w), r.a, Rotl(r.b, 30), r.c, r.d)
  }

  function Rounds(block: seq<byte>, h: Regs, t: nat): Regs
    requires |block| == 64
  {
    if t == 0 then h else Round(Rounds(block, h, t - 1), t - 1, W(block, t - 1))
  }

  function Compress(h: Regs, block: seq<byte>): Regs
    requires |block| == 64
  {
    Sum(h, Rounds(block, h, 80))
  }

  /** Section 5.3.1. */
  const INITIAL := Regs(0x67452301, 0xefcdab89, 0x98badcfe, 0x10325476, 0xc3d2e1f0)

  /** The hash value after all blocks of m. */
  function HashBlocks(m: seq<byte>): Regs
    requires |m| % 64 == 0
  {
    if m == [] then INITIAL else Compress(HashBlocks(m[..|m| - 64]), m[|m| - 64..])
  }

  function Zeros(n: nat): (z: seq<byte>)
    ensures |z| == n
  {
    seq(n, _ => 0)
  }

  /** The low byte of n shifted right by k bytes. */
  function ShiftedByte(n: nat, k: nat): byte {
    if k == 0 then n % 256 else ShiftedByte(n / 256, k - 1)
  }

  /** A 64-bit number, most significant byte first. */
  function LengthBytes(n: nat): (b: seq<byte>)
    ensures |b| == 8
  {
    [ShiftedByte(n, 7), ShiftedByte(n, 6), ShiftedByte(n, 5), ShiftedByte(n, 4),
     ShiftedByte(n, 3), ShiftedByte(n, 2), ShiftedByte(n, 1), ShiftedByte(n, 0)]
  }

  /** The zero bytes that bring a length to 56 modulo 64 after one more byte. */
  function ZerosNeeded(len: nat): (n: nat)
    ensures (len + 1 + n) % 64 == 56 && n < 64
  {
    var r := len % 64;
    assert len == 64 * (len / 64) + r;
    if r < 56 then 55 - r else 119 - r
  }

  /** The length of n bytes in bits, as a 64-bit number. */
  function BitCount(n: nat): (r: nat)
    ensures 8 * n < TWO_TO_THE_64 ==> r == 8 * n
  {
    8 * n % TWO_TO_THE_64
  }

  /** The bytes of a message of n bytes that do not fill a block. */
  function Rest(n: nat): (r: nat)
    ensures r < 64 && r <= n
  {
    n % 64
  }

  /** Section 5.1.1: a one bit, zero bits up to 448 modulo 512, and the length in bits. */
  function Pad(m: seq<byte>): (p: seq<byte>)
    ensures |p| % 64 == 0
  {
    PadLength(|m|);
    m + [0x80] + Zeros(ZerosNeeded(|m|)) + LengthBytes(BitCount(|m|))
  }

  lemma PadLength(len: nat)
    ensures (len + 1 + ZerosNeeded(len) + 8) % 64 == 0
  {
  }

  function LowByte(w: word): byte {
    Small(w & 0xff);
    (w & 0xff) as int
  }

  lemma Small(w: word)
    requires w <= 0xff
    ensures w as int < 256
  {
  }

  /** Byte i of a word, most significant first. */
  function ByteOf(w: word, i: nat): byte
    requires i < 4
  {
    LowByte(if i == 0 then w >> 24 else if i == 1 then w >> 16 else if i == 2 then w >> 8 else w)
  }

  function WordBytes(w: word): seq<byte> {
    [ByteOf(w, 0), ByteOf(w, 1), ByteOf(w, 2), ByteOf(w, 3)]
  }

  function HashBytes(h: Regs): seq<byte> {
    WordBytes(h.a) + WordBytes(h.b) + WordBytes(h.c) + WordBytes(h.d) + WordBytes(h.e)
  }

  /** The first i bytes of each word stand in the output. */
  ghost predicate Columns(out: seq<byte>, h: Regs, i: nat)
    requires |out| == 20 && i <= 4
  {
    && (forall j :: 0 <= j < i ==> out[j] == ByteOf(h.a, j))
    && (forall j :: 0 <= j < i ==> out[j + 4] == ByteOf(h.b, j))
    && (forall j :: 0 <= j < i ==> out[j + 8] == ByteOf(h.c, j))
    && (forall j :: 0 <= j < i ==> out[j + 12] == ByteOf(h.d, j))
    && (forall j :: 0 <= j < i ==> out[j + 16] == ByteOf(h.e, j))
  }

  lemma ColumnsAll(out: seq<byte>, h: Regs)
    requires |out| == 20 && Columns(out, h, 4)
    ensures out == HashBytes(h)
  {
    hide ByteOf, WordBytes;
    FourBytes(out[0..4], h.a);
    FourBytes(out[4..8], h.b);
    FourBytes(out[8..12], h.c);
    FourBytes(out[12..16], h.d);
    FourBytes(out[16..20], h.e);
    assert out == out[0..4] + out[4..8] + out[8..12] + out[12..16] + out[16..20];
  }

  lemma FourBytes(b: seq<byte>, w: word)
    requires |b| == 4 && forall j :: 0 <= j < 4 ==> b[j] == ByteOf(w, j)
    ensures b == WordBytes(w)
  {
    hide ByteOf;
  }

  lemma NoColumn(out: seq<byte>, h: Regs)
    requires |out| == 20
    ensures Columns(out, h, 0)
  {
  }

  /** One more byte of each word. */
  lemma NextColumn(before: seq<byte>, after: seq<byte>, h: Regs, i: nat)
    requires |before| == |after| == 20 && i < 4 && Columns(before, h, i)
    requires after[i] == ByteOf(h.a, i) && after[i + 4] == ByteOf(h.b, i) && after[i + 8] == ByteOf(h.c, i)
    requires after[i + 12] == ByteOf(h.d, i) && after[i + 16] == ByteOf(h.e, i)
    requires forall j :: 0 <= j < 20 && j % 4 != i ==> after[j] == before[j]
    ensures Columns(after, h, i + 1)
  {
    hide ByteOf;
  }

  // ---------- Bytes and numbers ----------

  /** Bytes read as one number, most significant first. */
  function Number(b: seq<byte>): nat {
    if b == [] then 0 else Number(b[..|b| - 1]) * 256 + b[|b| - 1]
  }

  /** The k low bytes of a number, most significant first. */
  function BytesOf(n: nat, k: nat): (b: seq<byte>)
    ensures |b| == k
  {
    if k == 0 then [] else BytesOf(n / 256, k - 1) + [n % 256]
  }

  function Power(k: nat): nat {
    if k == 0 then 1 else 256 * Power(k - 1)
  }

  lemma {:induction false} NumberOfBytes(n: nat, k: nat)
    requires n < Power(k)
    ensures Number(BytesOf(n, k)) == n
  {
    if k > 0 {
      assert n == 256 * (n / 256) + n % 256;
      NumberOfBytes(n / 256, k - 1);
      assert BytesOf(n, k)[..k - 1] == BytesOf(n / 256, k - 1);
    }
  }

  /** The length at the end of a padded message is read back as the length. */
  lemma LengthReadBack(n: nat)
    requires n < TWO_TO_THE_64
    ensures Number(LengthBytes(n)) == n
  {
    assert Power(4) == 0x1_0000_0000 && Power(8) == TWO_TO_THE_64;
    NumberOfBytes(n, 8);
    forall i | 0 <= i < 8 ensures LengthBytes(n)[i] == BytesOf(n, 8)[i] {
      ByteAt(n, 8, i);
    }
    hide BytesOf, ShiftedByte, Number;
    assert LengthBytes(n) == BytesOf(n, 8);
  }

  lemma {:induction false} ByteAt(n: nat, k: nat, i: nat)
    requires i < k
    ensures BytesOf(n, k)[i] == ShiftedByte(n, k - 1 - i)
    decreases k
  {
    if i < k - 1 {
      ByteAt(n / 256, k - 1, i);
    }
  }

  /** The bytes of a word are read back as the word. */
  lemma WordReadBack(w: word)
    ensures var b := WordBytes(w); BigEndian(b[0], b[1], b[2], b[3]) == w
  {
    LowBack(w >> 24);
    LowBack(w >> 16);
    LowBack(w >> 8);
    LowBack(w);
    JoinedParts(w);
    hide LowByte, Joined;
  }

  lemma LowBack(w: word)
    ensures LowByte(w) as bv32 == w & 0xff
  {
    Back(w & 0xff);
  }

  lemma Back(w: word)
    ensures (w as int) as bv32 == w
  {
  }

  lemma JoinedParts(w: word)
    ensures Joined((w >> 24) & 0xff, (w >> 16) & 0xff, (w >> 8) & 0xff, w & 0xff) == w
  {
  }

  /** The digest of a message; FIPS 180-2 defines it for messages shorter than 2^64 bits. */
  function Digest(m: seq<byte>): seq<byte> {
    HashBytes(HashBlocks(Pad(m)))
  }

  // ---------- The streaming implementation ----------

  ghost predicate IsSchedule(m: array<word>, block: seq<byte>)
    requires |block| == 64
    reads m
  {
    m.Length == 80 && forall t :: 0 <= t < 80 ==> m[t] == W(block, t)
  }

  lemma FirstWord(block: seq<byte>, t: nat)
    requires |block| == 64 && t < 16
    ensures W(block, t) == BigEndian(block[4 * t], block[4 * t + 1], block[4 * t + 2], block[4 * t + 3])
  {
  }

  lemma LaterWord(block: seq<byte>, t: nat)
    requires |block| == 64 && 16 <= t
    ensures W(block, t) == Rotl(Mix(W(block, t - 3), W(block, t - 8), W(block, t - 14), W(block, t - 16)), 1)
  {
    hide Rotl, Mix;
  }

  lemma RoundsStart(block: seq<byte>, h: Regs)
    requires |block| == 64
    ensures Rounds(block, h, 0) == h
  {
  }

  lemma NextRound(block: seq<byte>, h: Regs, t: nat)
    requires |block| == 64
    ensures Rounds(block, h, t + 1) == Round(Rounds(block, h, t), t, W(block, t))
  {
    hide W, Round;
  }

  /** The constant is the same for each group of twenty rounds. */
  lemma SameConstant(start: nat, t: nat)
    requires start in {0, 20, 40, 60} && start <= t < start + 20
    ensures K(t) == K(start)
  {
  }

  /** Rounds 0 to 19. */
  method RoundsCh(m: array<word>, k: word, a0: word, b0: word, c0: word, d0: word, e0: word,
                  ghost block: seq<byte>, ghost h: Regs)
    returns (a: word, b: word, c: word, d: word, e: word)
    requires |block| == 64 && IsSchedule(m, block) && k == K(0)
    requires Regs(a0, b0, c0, d0, e0) == Rounds(block, h, 0)
    ensures Regs(a, b, c, d, e) == Rounds(block, h, 20)
  {
    hide W, Rounds, Rotl, K, Plus, Ch, Parity, Maj;
    a, b, c, d, e := a0, b0, c0, d0, e0;
    var i := 0;
    while i < 20
      invariant 0 <= i <= 20 && Regs(a, b, c, d, e) == Rounds(block, h, i)
    {
      NextRound(block, h, i);
      SameConstant(0, i);
      var t := Plus(Plus(Plus(Plus(Rotl(a, 5), Ch(b, c, d)), e), k), m[i]);
      e := d;
      d := c;
      c := Rotl(b, 30);
      b := a;
      a := t;
      i := i + 1;
    }
  }

  /** Rounds 20 to 39 and 60 to 79. */
  method RoundsParity(m: array<word>, from: nat, k: word, a0: word, b0: word, c0: word, d0: word, e0: word,
                  ghost block: seq<byte>, ghost h: Regs)
    returns (a: word, b: word, c: word, d: word, e: word)
    requires |block| == 64 && IsSchedule(m, block) && k == K(from)
    requires from == 20 || from == 60
    requires Regs(a0, b0, c0, d0, e0) == Rounds(block, h, from)
    ensures Regs(a, b, c, d, e) == Rounds(block, h, from + 20)
  {
    hide W, Rounds, Rotl, K, Plus, Ch, Parity, Maj;
    a, b, c, d, e := a0, b0, c0, d0, e0;
    var i := from;
    while i < from + 20
      invariant from <= i <= from + 20 && Regs(a, b, c, d, e) == Rounds(block, h, i)
    {
      NextRound(block, h, i);
      SameConstant(from, i);
      var t := Plus(Plus(Plus(Plus(Rotl(a, 5), Parity(b, c, d)), e), k), m[i]);
      e := d;
      d := c;
      c := Rotl(b, 30);
      b := a;
      a := t;
      i := i + 1;
    }
  }

  /** Rounds 40 to 59. */
  method RoundsMaj(m: array<word>, k: word, a0: word, b0: word, c0: word, d0: word, e0: word,
                  ghost block: seq<byte>, ghost h: Regs)
    returns (a: word, b: word, c: word, d: word, e: word)
    requires |block| == 64 && IsSchedule(m, block) && k == K(40)
    requires Regs(a0, b0, c0, d0, e0) == Rounds(block, h, 40)
    ensures Regs(a, b, c, d, e) == Rounds(block, h, 60)
  {
    hide W, Rounds, Rotl, K, Plus, Ch, Parity, Maj;
    a, b, c, d, e := a0, b0, c0, d0, e0;
    var i := 40;
    while i < 60
      invariant 40 <= i <= 60 && Regs(a, b, c, d, e) == Rounds(block, h, i)
    {
      NextRound(block, h, i);
      SameConstant(40, i);
      var t := Plus(Plus(Plus(Plus(Rotl(a, 5), Maj(b, c, d)), e), k), m[i]);
      e := d;
      d := c;
      c := Rotl(b, 30);
      b := a;
      a := t;
      i := i + 1;
    }
  }

  lemma WholeBlocks(n: nat)
    ensures (n - Rest(n)) % 64 == 0
  {
  }

  lemma AppendByte(message: seq<byte>, b: byte, n: nat)
    requires n <= |message|
    ensures (message + [b])[n..] == message[n..] + [b] && (message + [b])[..n] == message[..n]
  {
  }

  class Context {
    const data: array<byte>
    const state: array<word>
    const k: array<word>
    var datalen: nat
    var bitlen: nat
    /** Everything absorbed so far. */
    ghost var message: seq<byte>

    ghost predicate Shape()
      reads this, k
    {
      && data.Length == 64 && state.Length == 5 && k.Length == 4 && state != k
      && k[0] == K(0) && k[1] == K(20) && k[2] == K(40) && k[3] == K(60)
    }

    ghost function Hash(): Regs
      requires state.Length == 5
      reads state
    {
      Regs(state[0], state[1], state[2], state[3], state[4])
    }

    ghost predicate Valid()
      reads this, data, state, k
    {
      WholeBlocks(|message|);
      && Shape()
      && datalen == Rest(|message|)
      && data[..datalen] == message[|message| - datalen..]
      && Hash() == HashBlocks(message[..|message| - datalen])
      && bitlen == BitCount(|message| - datalen)
    }

    /** `sha1_init` */
    constructor ()
      ensures Valid() && message == [] && fresh(data) && fresh(state) && fresh(k)
    {
      hide HashBlocks, K, Rest, BitCount;
      RoundConstants();
      EmptyMessage();
      Counts(0);
      data := new byte[64];
      state := new word[] [0x67452301, 0xefcdab89, 0x98badcfe, 0x10325476, 0xc3d2e1f0];
      k := new word[] [0x5a827999, 0x6ed9eba1, 0x8f1bbcdc, 0xca62c1d6];
      datalen, bitlen, message := 0, 0, [];
    }

    /** The message schedule of the block in the buffer. */
    method Schedule() returns (m: array<word>)
      requires Shape()
      ensures fresh(m) && IsSchedule(m, data[..])
    {
      hide W, Mix, Rotl, K, BigEndian;
      m := new word[80];
      ghost var block := data[..];
      var i, j := 0, 0;
      while i < 16
        invariant 0 <= i <= 16 && j == 4 * i
        invariant forall t :: 0 <= t < i ==> m[t] == W(block, t)
      {
        FirstWord(block, i);
        assert block[j] == data[j] && block[j + 1] == data[j + 1];
        assert block[j + 2] == data[j + 2] && block[j + 3] == data[j + 3];
        m[i] := BigEndian(data[j], data[j + 1], data[j + 2], data[j + 3]);
        i, j := i + 1, j + 4;
      }
      while i < 80
        invariant 16 <= i <= 80
        invariant forall t :: 0 <= t < i ==> m[t] == W(block, t)
      {
        LaterWord(block, i);
        m[i] := Mix(m[i - 3], m[i - 8], m[i - 14], m[i - 16]);
        m[i] := Rotl(m[i], 1);
        i := i + 1;
      }
    }

    /** `sha1_transform` on the buffer. */
    method Transform()
      requires Shape()
      modifies state
      ensures Shape() && Hash() == Compress(old(Hash()), data[..])
    {
      hide W, Rounds, Plus, K;
      var m := Schedule();
      ghost var block, h := data[..], Hash();
      var a, b, c, d, e := state[0], state[1], state[2], state[3], state[4];
      RoundsStart(block, h);
      a, b, c, d, e := RoundsCh(m, k[0], a, b, c, d, e, block, h);
      a, b, c, d, e := RoundsParity(m, 20, k[1], a, b, c, d, e, block, h);
      a, b, c, d, e := RoundsMaj(m, k[2], a, b, c, d, e, block, h);
      a, b, c, d, e := RoundsParity(m, 60, k[3], a, b, c, d, e, block, h);
      state[0], state[1], state[2] := Plus(state[0], a), Plus(state[1], b), Plus(state[2], c);
      state[3], state[4] := Plus(state[3], d), Plus(state[4], e);
    }

    /** Transforms a full buffer and starts over. */
    method FlushFull()
      requires Shape() && datalen == 64 && |message| >= 64 && |message| % 64 == 0
          && data[..] == message[|message| - 64..]
      requires Hash() == HashBlocks(message[..|message| - 64]) && bitlen == BitCount(|message| - 64)
      modifies this, state
      ensures Valid() && message == old(message)
    {
      hide Compress, HashBlocks, K, BitCount;
      ghost var whole := |message| - 64;
      Counts(whole);
      Transform();
      AbsorbBlock(message[..whole], data[..]);
      assert message == message[..whole] + data[..] && message[..|message|] == message;
      bitlen := (bitlen + 512) % TWO_TO_THE_64;
      datalen := 0;
    }

    /** One round of the loop of `sha1_update`. */
    method AbsorbByte(b: byte)
      requires Valid()
      modifies this, data, state
      ensures Valid() && message == old(message) + [b]
    {
      hide Compress, HashBlocks, K, Rest, BitCount;
      Counts(|message|);
      Counts(|message| + 1);
      ghost var before, whole := message, |message| - datalen;
      AppendByte(before, b, whole);
      data[datalen] := b;
      assert data[..datalen + 1] == data[..datalen] + [b];
      datalen := datalen + 1;
      message := message + [b];
      assert |message| - datalen == whole && message[..whole] == before[..whole];
      assert data[..datalen] == message[whole..];
      if datalen == 64 {
        assert data[..64] == data[..];
        FlushFull();
      }
    }

    /** `sha1_update` */
    method Update(input: seq<byte>)
      requires Valid()
      modifies this, data, state
      ensures Valid() && message == old(message) + input
    {
      hide Compress, HashBlocks, K, Rest, BitCount;
      for i := 0 to |input|
        invariant Valid() && message == old(message) + input[..i]
      {
        AbsorbByte(input[i]);
      }
      assert input[..|input|] == input;
    }

    /** Fills the buffer with zeros from i on. */
    method FillZeros(from: nat, to: nat)
      requires Shape() && from <= to <= 64
      modifies data
      ensures data[..from] == old(data[..from]) && data[from..to] == Zeros(to - from) && data[to..] == old(data[to..])
    {
      var i := from;
      while i < to
        invariant from <= i <= to
        invariant data[..from] == old(data[..from]) && data[to..] == old(data[to..])
        invariant forall j :: from <= j < i ==> data[j] == 0
      {
        data[i] := 0x00;
        i := i + 1;
      }
    }

    /** Writes the bit length into the last eight bytes. */
    method StoreLength()
      requires Shape()
      modifies data
      ensures data[..56] == old(data[..56]) && data[56..] == LengthBytes(bitlen)
    {
      hide ShiftedByte, K;
      data[63] := ShiftedByte(bitlen, 0);
      data[62] := ShiftedByte(bitlen, 1);
      data[61] := ShiftedByte(bitlen, 2);
      data[60] := ShiftedByte(bitlen, 3);
      assert data[..56] == old(data[..56]);
      ghost var low := data[60..];
      assert low == LengthBytes(bitlen)[4..];
      data[59] := ShiftedByte(bitlen, 4);
      data[58] := ShiftedByte(bitlen, 5);
      data[57] := ShiftedByte(bitlen, 6);
      data[56] := ShiftedByte(bitlen, 7);
      assert data[..56] == old(data[..56]);
      assert data[56..60] == LengthBytes(bitlen)[..4];
      assert data[60..] == low;
      assert data[56..] == data[56..60] + low;
    }

    /** The padding branch for a buffer without room for the length: the padded buffer is a block of its own. */
    method PadFullBlock(ghost tail: seq<byte>)
      requires Shape() && 56 <= datalen < 64 && data[..datalen] == tail
      modifies data, state
      ensures Shape() && data[..56] == Zeros(56)
      ensures |tail| == datalen && Hash() == Compress(old(Hash()), tail + [0x80] + Zeros(63 - datalen))
    {
      hide Compress, K;
      data[datalen] := 0x80;
      FillZeros(datalen + 1, 64);
      assert data[..] == tail + [0x80] + Zeros(63 - datalen);
      Transform();
      FillZeros(0, 56);
    }

    /** The padding branch for a buffer with room for the length. */
    method PadBlock(ghost tail: seq<byte>)
      requires Shape() && datalen < 56 && data[..datalen] == tail
      modifies data
      ensures Shape() && |tail| == datalen && data[..56] == tail + [0x80] + Zeros(55 - datalen)
    {
      data[datalen] := 0x80;
      FillZeros(datalen + 1, 56);
    }

    /** Pads what is left in the buffer, absorbing a block when there is no room for the length; head is what has been
        absorbed then. */
    method PadTail() returns (ghost head: seq<byte>)
      requires Valid()
      modifies data, state
      ensures Shape() && |head| % 64 == 0 && Hash() == HashBlocks(head)
      ensures var body, tail := message[..|message| - datalen], message[|message| - datalen..];
              if datalen < 56 then head == body && data[..56] == tail + [0x80] + Zeros(55 - datalen)
              else head == body + (tail + [0x80] + Zeros(63 - datalen)) && data[..56] == Zeros(56)
    {
      hide Compress, HashBlocks, K, Zeros, Rest, BitCount;
      Counts(|message|);
      ghost var tail := data[..datalen];
      head := message[..|message| - datalen];
      if datalen < 56 {
        PadBlock(tail);
      } else {
        PadFullBlock(tail);
        AbsorbBlock(head, tail + [0x80] + Zeros(63 - datalen));
        head := head + (tail + [0x80] + Zeros(63 - datalen));
      }
    }

    /** Pads what is left in the buffer and absorbs the last one or two blocks. */
    method Finish()
      requires Valid()
      modifies this, data, state
      ensures Shape() && Hash() == HashBlocks(Pad(old(message)))
    {
      hide Compress, HashBlocks, Pad, LengthBytes, K, Zeros, Rest, BitCount;
      Counts(|message|);
      ghost var n := datalen;
      ghost var head := PadTail();
      bitlen := (bitlen + datalen * 8) % TWO_TO_THE_64;
      ghost var last := data[..56];
      PaddedBlocks(message, n, head, last, bitlen);
      StoreLength();
      assert data[..] == last + LengthBytes(bitlen);
      Transform();
      AbsorbBlock(head, last + LengthBytes(bitlen));
    }

    /** Byte i of each word of the state. */
    method StoreColumn(hash: array<byte>, i: nat)
      requires state.Length == 5 && hash.Length == 20 && hash as object != state && i < 4
      modifies hash
      ensures hash[i] == ByteOf(state[0], i) && hash[i + 4] == ByteOf(state[1], i) && hash[i + 8] == ByteOf(state[2], i)
      ensures hash[i + 12] == ByteOf(state[3], i) && hash[i + 16] == ByteOf(state[4], i)
      ensures forall j :: 0 <= j < 20 && j % 4 != i ==> hash[j] == old(hash[j])
    {
      hide ByteOf;
      hash[i] := ByteOf(state[0], i);
      hash[i + 4] := ByteOf(state[1], i);
      hash[i + 8] := ByteOf(state[2], i);
      hash[i + 12] := ByteOf(state[3], i);
      hash[i + 16] := ByteOf(state[4], i);
    }

    /** The loop that copies the state to the output. */
    method StoreHash(hash: array<byte>)
      requires state.Length == 5 && hash.Length == 20 && hash as object != state
      modifies hash
      ensures hash[..] == HashBytes(Hash())
    {
      hide ByteOf, HashBytes, Columns;
      ghost var h := Hash();
      NoColumn(hash[..], h);
      var i := 0;
      while i < 4
        invariant 0 <= i <= 4 && Columns(hash[..], h, i)
      {
        ghost var before := hash[..];
        StoreColumn(hash, i);
        NextColumn(before, hash[..], h, i);
        i := i + 1;
      }
      ColumnsAll(hash[..], h);
    }

    /** `sha1_final` */
    method Final(hash: array<byte>)
      requires Valid() && hash.Length == 20 && hash as object != data && hash as object != state && hash as object != k
      modifies this, data, state, hash
      ensures hash[..] == Digest(old(message))
    {
      hide HashBytes, HashBlocks, Pad, Rest, BitCount;
      Finish();
      StoreHash(hash);
    }
  }

  lemma Counts(n: nat)
    ensures Rest(n + 1) == if Rest(n) == 63 then 0 else Rest(n) + 1
    ensures (n - Rest(n)) % 64 == 0 && Rest(0) == 0 && BitCount(0) == 0
    ensures BitCount(n + 64) == (BitCount(n) + 512) % TWO_TO_THE_64
  {
  }

  lemma RoundConstants()
    ensures K(0) == 0x5a827999 && K(20) == 0x6ed9eba1 && K(40) == 0x8f1bbcdc && K(60) == 0xca62c1d6
  {
  }

  lemma EmptyMessage()
    ensures HashBlocks([]) == INITIAL
  {
  }

  lemma AbsorbBlock(m: seq<byte>, block: seq<byte>)
    requires |m| % 64 == 0 && |block| == 64
    ensures HashBlocks(m + block) == Compress(HashBlocks(m), block)
  {
    assert (m + block)[..|m + block| - 64] == m && (m + block)[|m + block| - 64..] == block;
  }

  /** Both padding branches lay out the padded message. */
  lemma PaddedBlocks(m: seq<byte>, n: nat, head: seq<byte>, last: seq<byte>, bits: nat)
    requires n == Rest(|m|) && |last| == 56 && bits == (BitCount(|m| - n) + n * 8) % TWO_TO_THE_64
    requires var body := m[..|m| - n];
             var tail := m[|m| - n..];
             if n < 56 then head == body && last == tail + [0x80] + Zeros(55 - n)
             else head == body + (tail + [0x80] + Zeros(63 - n)) && last == Zeros(56)
    ensures head + (last + LengthBytes(bits)) == Pad(m)
  {
    assert m == m[..|m| - n] + m[|m| - n..];
    assert bits == BitCount(|m|);
    if n >= 56 {
      assert Zeros(63 - n) + Zeros(56) == Zeros(119 - n);
    }
  }

  function Flatten(pieces: seq<seq<byte>>): seq<byte> {
    if pieces == [] then [] else Flatten(pieces[..|pieces| - 1]) + pieces[|pieces| - 1]
  }

  /** However a message is cut into updates, the result is the digest of the whole message. */
  method HashPieces(pieces: seq<seq<byte>>) returns (digest: seq<byte>)
    ensures digest == Digest(Flatten(pieces))
  {
    hide Compress, HashBlocks, Pad, HashBytes, Rest, BitCount, K;
    var ctx := new Context();
    for i := 0 to |pieces|
      invariant ctx.Valid() && fresh(ctx) && fresh(ctx.data) && fresh(ctx.state) && ctx.message == Flatten(pieces[..i])
    {
      ctx.Update(pieces[i]);
      assert pieces[..i + 1][..i] == pieces[..i];
    }
    assert pieces[..|pieces|] == pieces;
    var hash := new byte[20];
    ctx.Final(hash);
    digest := hash[..];
  }
}
