/** The examples of the specifications: the check sum of section 6.2.2 of "MODBUS over Serial Line V1.02" and the
    requests and answers of section 6 of the "MODBUS Application Protocol Specification V1.1b". */
module ModbusExamples {
  import opened ModbusCrc
  import opened ModbusBits
  import opened Modbus
  import opened ModbusResidue

  // ---------- The check sum ----------

  lemma EightSteps(s0: bv16, s1: bv16, s2: bv16, s3: bv16, s4: bv16, s5: bv16, s6: bv16, s7: bv16, s8: bv16)
    requires Shift(s0) == s1 && Shift(s1) == s2 && Shift(s2) == s3 && Shift(s3) == s4
    requires Shift(s4) == s5 && Shift(s5) == s6 && Shift(s6) == s7 && Shift(s7) == s8
    ensures Shifts(s0, 8) == s8
  {
    hide Shift;
    assert Shifts(s4, 4) == s8;
    assert Shifts(s0, 8) == Shifts(s4, 4);
  }

  /** The check of the body 02 07 is sent as 41 12. */
  lemma CheckExample()
    ensures Crc([0x02, 0x07]) == 0x4112 && Frame([0x02, 0x07]) == [0x02, 0x07, 0x41, 0x12]
  {
    EightSteps(0xFFFD, 0xDFFF, 0xCFFE, 0x67FF, 0x93FE, 0x49FF, 0x84FE, 0x427F, 0x813E);
    EightSteps(0x8139, 0xE09D, 0xD04F, 0xC826, 0x6413, 0x9208, 0x4904, 0x2482, 0x1241);
    FirstByte();
    SecondByte();
    hide Shifts, Xor, Bv;
    assert [0x02, 0x07][1..] == [0x07] && [0x07][1..] == [];
    assert Register(0x813E, [0x07]) == Register(0x1241, []) == 0x1241;
    assert Register(0xFFFF, [0x02, 0x07]) == 0x1241;
  }

  lemma FirstByte()
    ensures Xor(0xFFFF, Bv(0x02, 8)) == 0xFFFD
  {
    assert Bv(0x02, 8) == Twice(Bv(1, 7), false);
    assert Bv(0, 6) == 0;
  }

  lemma SecondByte()
    ensures Xor(0x813E, Bv(0x07, 8)) == 0x8139
  {
    assert Bv(0, 5) == 0;
    assert Bv(1, 6) == 1;
    assert Bv(3, 7) == 3;
  }

  // ---------- The bound on bursts is exact ----------

  /** The polynomial itself, highest power first. */
  function Generator(): seq<bool> {
    [true, true] + seq(12, _ => false) + [true, false, true]
  }

  lemma SerialNext(s: bv16, b: bool, rest: seq<bool>, s': bv16)
    requires Shift(Xor(s, One(b))) == s'
    ensures Serial(s, [b] + rest) == Serial(s', rest)
  {
    hide Shift, Xor, One;
    assert ([b] + rest)[1..] == rest;
  }

  /** Zeros shift the register, as long as no bit falls out. */
  lemma {:induction false} SerialZeros(s: bv16, n: nat)
    ensures Serial(s, seq(n, _ => false)) == Shifts(s, n)
    decreases n
  {
    hide Shift, Xor;
    if n > 0 {
      var z: seq<bool> := seq(n, _ => false);
      assert z == [false] + seq(n - 1, _ => false);
      XorZero(s);
      SerialNext(s, false, z[1..], Shift(s));
      SerialZeros(Shift(s), n - 1);
      assert z[1..] == seq(n - 1, _ => false);
    }
  }

  lemma {:induction false} ShiftsOfZero(n: nat)
    ensures Shifts(0, n) == 0
  {
    ShiftZero();
    hide Shift;
    if n > 0 {
      ShiftsOfZero(n - 1);
    }
  }

  lemma GeneratorDivides()
    ensures Serial(0, Generator()) == 0
  {
    var tail := [true, false, true];
    assert Generator() == [true] + ([true] + (seq(12, _ => false) + tail));
    FirstSteps();
    LastSteps();
    MiddleSteps();
    hide Serial, Shift, Xor, One, Shifts;
    SerialNext(0, true, [true] + (seq(12, _ => false) + tail), 0xA001);
    SerialNext(0xA001, true, seq(12, _ => false) + tail, 0x5000);
    SerialZeros(0x5000, 12);
    SerialConcat(0x5000, seq(12, _ => false), tail);
  }

  lemma FirstSteps()
    ensures Shift(Xor(0, One(true))) == 0xA001 && Shift(Xor(0xA001, One(true))) == 0x5000
  {
  }

  lemma MiddleSteps()
    ensures Shifts(0x5000, 12) == 5
  {
    EightSteps(0x5000, 0x2800, 0x1400, 0xA00, 0x500, 0x280, 0x140, 0xA0, 0x50);
    assert Shifts(0x50, 4) == 5;
    ShiftsSum(0x5000, 8, 4);
  }

  lemma {:induction false} ShiftsSum(s: bv16, m: nat, n: nat)
    ensures Shifts(s, m + n) == Shifts(Shifts(s, m), n)
    decreases m
  {
    hide Shift;
    if m > 0 {
      ShiftsSum(Shift(s), m - 1, n);
    }
  }

  lemma LastSteps()
    ensures Serial(5, [true, false, true]) == 0
  {
    assert Shift(Xor(5, One(true))) == 2 && Shift(Xor(2, One(false))) == 1 && Shift(Xor(1, One(true))) == 0;
    hide Shift, Xor, One;
    assert [true, false, true][1..] == [false, true] && [false, true][1..] == [true] && [true][1..] == [];
    assert Serial(1, [true]) == Serial(0, []);
    assert Serial(2, [false, true]) == Serial(1, [true]);
  }

  /** One bit more than a burst that is always detected: an error that is the polynomial, at any place of bodies of any
      length, never is. */
  lemma PolynomialUndetected(x: seq<byte>, y: seq<byte>, k: nat, n: nat)
    requires |x| == |y|
    requires XorBits(Stream(x), Stream(y)) == seq(k, _ => false) + Generator() + seq(n, _ => false)
    ensures Crc(x) == Crc(y)
  {
    var before: seq<bool>, behind: seq<bool> := seq(k, _ => false), seq(n, _ => false);
    GeneratorDivides();
    SerialZeros(0, k);
    SerialZeros(0, n);
    ShiftsOfZero(k);
    ShiftsOfZero(n);
    hide Crc, Serial, Stream, XorBits, Shifts;
    SerialConcat(0, before + Generator(), behind);
    SerialConcat(0, before, Generator());
    CrcDifference(x, y);
  }

  /** Such a pair of bodies: they differ within 17 bits in a row, and have the same check. */
  lemma SeventeenBitsUndetected()
    ensures Crc([0x03, 0x40, 0x01]) == Crc([0, 0, 0])
  {
    hide Crc, Generator;
    ExampleDifference();
    PolynomialUndetected([0x03, 0x40, 0x01], [0, 0, 0], 0, 7);
  }

  lemma ThreeBytes()
    ensures Stream([0x03, 0x40, 0x01]) == Generator() + seq(7, _ => false)
  {
    ByteBits();
    hide Bits;
    var b3, b40, b1: seq<bool> := Bits(0x03, 8), Bits(0x40, 8), Bits(0x01, 8);
    assert [0x03, 0x40, 0x01][1..] == [0x40, 0x01] && [0x40, 0x01][1..] == [0x01] && [0x01][1..] == [];
    assert Stream([0x01]) == b1 + Stream([]) == b1;
    assert Stream([0x40, 0x01]) == b40 + b1;
    assert Stream([0x03, 0x40, 0x01]) == b3 + (b40 + b1);
  }

  lemma {:induction false} ZeroBits(n: nat)
    ensures Bits(0, n) == seq(n, _ => false)
  {
    if n > 0 {
      ZeroBits(n - 1);
    }
  }

  lemma ByteBits()
    ensures Bits(0x03, 8) == [true, true, false, false, false, false, false, false]
    ensures Bits(0x40, 8) == [false, false, false, false, false, false, true, false]
    ensures Bits(0x01, 8) == [true, false, false, false, false, false, false, false]
  {
    hide Bits;
    ZeroBits(6);
    ZeroBits(7);
    ZeroBits(1);
    NextBits(0x03, 0x01, true, 7);
    NextBits(0x01, 0, true, 6);
    NextBits(0x01, 0, true, 7);
    NextBits(0x40, 0x20, false, 7);
    NextBits(0x20, 0x10, false, 6);
    NextBits(0x10, 0x08, false, 5);
    NextBits(0x08, 0x04, false, 4);
    NextBits(0x04, 0x02, false, 3);
    NextBits(0x02, 0x01, false, 2);
    NextBits(0x01, 0, true, 1);
  }

  lemma NextBits(v: nat, half: nat, b: bool, n: nat)
    requires v == 2 * half + if b then 1 else 0
    ensures Bits(v, n + 1) == [b] + Bits(half, n)
  {
  }

  lemma NoBytes()
    ensures Stream([0, 0, 0]) == seq(24, _ => false)
  {
    ZeroBits(8);
    hide Bits;
    var zero: byte := 0;
    assert [zero, zero, zero][1..] == [zero, zero] && [zero, zero][1..] == [zero] && [zero][1..] == [];
    assert Stream([zero]) == Bits(0, 8) + Stream([]);
    assert Stream([zero, zero]) == Bits(0, 8) + Stream([zero]);
  }

  lemma ExampleDifference()
    ensures XorBits(Stream([0x03, 0x40, 0x01]), Stream([0, 0, 0])) ==
            seq(0, _ => false) + Generator() + seq(7, _ => false)
  {
    ThreeBytes();
    NoBytes();
    hide Stream, Generator;
  }

  // ---------- Requests and answers ----------

  /** Sections 6.1, 6.3, 6.5, 6.6 and 6.12: what a master of these functions puts in front of the check. */
  lemma QueryExamples()
    ensures QueryBody(17, 1, 0x13, 0x13, []) == [17, 0x01, 0x00, 0x13, 0x00, 0x13]
    ensures QueryBody(17, 3, 0x6B, 3, []) == [17, 0x03, 0x00, 0x6B, 0x00, 0x03]
    ensures QueryBody(17, 5, 0xAC, 0, [1]) == [17, 0x05, 0x00, 0xAC, 0xFF, 0x00]
    ensures QueryBody(17, 6, 0x01, 0, [3]) == [17, 0x06, 0x00, 0x01, 0x00, 0x03]
    ensures QueryBody(17, 16, 0x01, 2, [0x0A, 0x0102]) ==
            [17, 0x10, 0x00, 0x01, 0x00, 0x02, 0x04, 0x00, 0x0A, 0x01, 0x02]
  {
    WordBytesOfOne(0x0A);
    NextWordBytes([0x0A], 0x0102);
    hide WordBytes;
    assert [0x0A] + [0x0102] == [0x0A, 0x0102] && [0x0A, 0x0102][..2] == [0x0A, 0x0102];
  }

  /** Section 6.3: registers 107 to 109 hold 0x022B, 0 and 0x64. */
  lemma ReadAnswerExample(f: seq<byte>, table: seq<word>)
    requires |f| == MAX_BUFFER && f[..6] == [17, 0x03, 0x00, 0x6B, 0x00, 0x03]
    requires |table| >= 110 && table[107..110] == [0x022B, 0x0000, 0x0064]
    ensures ReadReply(f, table) == Frame([17, 0x03, 0x06, 0x02, 0x2B, 0x00, 0x00, 0x00, 0x64])
  {
    hide Crc, WordBytes;
    assert forall i :: 0 <= i < 6 ==> f[i] == f[..6][i];
    ThreeWords();
    assert RegisterAt(f) == 107 && RegisterCount(f) == 3;
    assert Words(table, 107, 3) == [0x022B, 0x0000, 0x0064];
    assert [17, 0x03, 0x06] + WordBytes([0x022B, 0x0000, 0x0064]) ==
           [17, 0x03, 0x06, 0x02, 0x2B, 0x00, 0x00, 0x00, 0x64];
  }

  lemma ThreeWords()
    ensures WordBytes([0x022B, 0x0000, 0x0064]) == [0x02, 0x2B, 0x00, 0x00, 0x00, 0x64]
  {
    WordBytesOfOne(0x022B);
    NextWordBytes([0x022B], 0x0000);
    NextWordBytes([0x022B, 0x0000], 0x0064);
    hide WordBytes;
    assert [0x022B, 0x0000] + [0x0064] == [0x022B, 0x0000, 0x0064] && [0x022B] + [0x0000] == [0x022B, 0x0000];
  }

  lemma WordBytesOfOne(w: word)
    ensures WordBytes([w]) == [HighByte(w), LowByte(w)]
  {
    assert [w][..0] == [];
  }

  lemma NextWordBytes(ws: seq<word>, w: word)
    ensures WordBytes(ws + [w]) == WordBytes(ws) + [HighByte(w), LowByte(w)]
  {
    assert (ws + [w])[..|ws|] == ws;
  }

  /** Section 7: the function code of an exception has its highest bit set; an illegal function is exception 1 and an
      illegal data address exception 2. The functions are those of sections 6.1 to 6.6, 6.11 and 6.12. */
  lemma ExceptionExample(fct: byte)
    ensures fct < 128 ==> ExceptionCode(fct) == fct + 128
    ensures EXC_FUNC_CODE == 1 && EXC_ADDR_RANGE == 2
    ensures Supported(fct) <==> 1 <= fct <= 6 || fct == 15 || fct == 16
  {
  }

  lemma LowByteOf(x: nat, k: nat, t: nat)
    requires x == 256 * k + t && t < 256
    ensures x % 256 == t
  {
  }

  /** Bytes for q full registers and r coils behind them. */
  lemma BytesForParts(count: nat, q: nat, r: nat)
    requires count == 16 * q + r && r < 16
    ensures BytesFor(count) == 2 * q + if r == 0 then 0 else if r <= 8 then 1 else 2
  {
    hide BytesFor;
  }

  /** Section 6.11 announces one byte for each eight coils begun. The master counts two for each full register and one
      more for the rest, cut to a byte: one too few exactly if the rest has more than eight coils. */
  lemma AnnouncedBytesExact(count: word)
    ensures AnnouncedBytes(count) == (BytesFor(count) - (if count % 16 > 8 then 1 else 0)) % 256
  {
    var q, r := count / 16, count % 16;
    var h, l := q / 256, q % 256;
    assert count == 16 * q + r && q == 256 * h + l;
    BytesForParts(count, q, r);
    AnnouncedParts(count, q, r, h, l);
  }

  lemma AnnouncedParts(count: word, q: nat, r: nat, h: nat, l: nat)
    requires q == count / 16 && r == count % 16 && q == 256 * h + l && l == q % 256
    ensures AnnouncedBytes(count) == (2 * q + if r == 0 then 0 else 1) % 256
  {
    var c, over := if r == 0 then 0 else 1, if l < 128 then 0 else 1;
    LowByteOf(2 * l, over, 2 * l - 256 * over);
    LowByteOf(2 * q + c, 2 * h + over, 2 * l - 256 * over + c);
  }

  // ---------- Which bit is meant ----------

  lemma HalfNumber(c: bv16)
    requires Below(c, 0x100)
    ensures Number(c) == 2 * Number(Half(c)) + if Odd(c) then 1 else 0
  {
    HalfInt(c);
    hide Half, Odd, Below;
  }

  lemma NextMask(c: bv16, k: nat)
    requires 0 < k < 16
    ensures Meets(c, Mask(k)) == Meets(Half(c), Mask(k - 1))
  {
    MaskTop(k - 1);
    ShiftedMask(c, Mask(k - 1));
  }

  lemma ShiftedMask(c: bv16, m: bv16)
    requires Below(m, 0x8000)
    ensures Meets(c, Twice(m, false)) == Meets(Half(c), m)
  {
  }

  lemma FirstMask(c: bv16)
    ensures Meets(c, Mask(0)) == Odd(c)
  {
  }

  /** Bit k of a byte is digit k of its number. */
  lemma {:induction false} ByteDigit(c: bv16, n: nat, k: nat)
    requires k < n <= 8 && Below(c, Mask(n))
    ensures Meets(c, Mask(k)) <==> Bits(Number(c), n)[k]
    decreases n
  {
    hide Number, Meets, Mask, Half, Odd, Below, Bits;
    BelowHalf(c, n);
    HalfNumber(c);
    NextBits(Number(c), Number(Half(c)), Odd(c), n - 1);
    if k == 0 {
      FirstMask(c);
    } else {
      NextMask(c, k);
      ByteDigit(Half(c), n - 1, k - 1);
    }
  }

  lemma LowMeets(c: bv16, k: nat)
    requires k < 8
    ensures Meets(c, Mask(k)) == Meets(Low(c), Mask(k))
  {
    Masks();
    hide Mask;
  }

  lemma HighMeets(c: bv16, k: nat)
    requires 8 <= k < 16
    ensures Meets(c, Mask(k)) == Meets(High(c), Mask(k - 8))
  {
    Masks();
    hide Mask;
  }

  lemma EightBits(c: bv16)
    requires Below(c, 0x100)
    ensures Below(c, Mask(8))
  {
    Masks();
    hide Mask;
  }

  lemma Reads(c: bv16, k: nat)
    requires k < 16
    ensures BitRead(Number(c), k) == Meets(c, Mask(k))
  {
    BackToBits(c);
    hide Meets, Mask;
  }

  /** The bytes of a register value. */
  lemma NumberBytes(c: bv16)
    ensures HighByte(Number(c)) == Number(High(c)) && LowByte(Number(c)) == Number(Low(c))
    ensures Below(High(c), Mask(8)) && Below(Low(c), Mask(8))
  {
    hide Number, High, Low, Below;
    SplitInt(c);
    EightBits(High(c));
    EightBits(Low(c));
    ByteBack(High(c));
    ByteBack(Low(c));
  }

  /** Bit k of a register is digit k of its number, the lowest digit first. */
  lemma BitReadDigit(c: bv16, k: nat)
    requires k < 16
    ensures var w := Number(c);
            BitRead(w, k) <==> if k < 8 then Bits(LowByte(w), 8)[k] else Bits(HighByte(w), 8)[k - 8]
  {
    hide Number, BitRead, Meets, Mask, Low, High, Below, Bits, HighByte, LowByte;
    Reads(c, k);
    NumberBytes(c);
    if k < 8 {
      LowMeets(c, k);
      ByteDigit(Low(c), 8, k);
    } else {
      HighMeets(c, k);
      ByteDigit(High(c), 8, k - 8);
    }
  }

  /** Section 6.1: the states of coils 27 to 20 are sent as CD, that of coil 20 in the lowest bit. */
  lemma CoilsExample(k: nat)
    requires k < 8
    ensures BitRead(0xCD, k) == [true, false, true, true, false, false, true, true][k]
  {
    var c: bv16 := 0xCD;
    assert Number(c) == 0xCD;
    DigitsOfCD();
    hide Number, BitRead, Bits;
    BitReadDigit(c, k);
  }

  lemma DigitsOfCD()
    ensures Bits(0xCD, 8) == [true, false, true, true, false, false, true, true]
  {
    hide Bits;
    NextBits(0xCD, 0x66, true, 7);
    NextBits(0x66, 0x33, false, 6);
    NextBits(0x33, 0x19, true, 5);
    NextBits(0x19, 0x0C, true, 4);
    NextBits(0x0C, 0x06, false, 3);
    NextBits(0x06, 0x03, false, 2);
    NextBits(0x03, 0x01, true, 1);
    NextBits(0x01, 0, true, 0);
    ZeroBits(0);
  }
}
