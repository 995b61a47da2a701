/** CRC-16 of Modbus RTU (section 6.2.2 of "MODBUS over Serial Line V1.02") and the errors it detects. */
module ModbusCrc {
  type byte = x: int | 0 <= x < 0x100
  type word = x: int | 0 <= x < 0x1_0000

  function HighByte(w: word): byte {
    w / 256
  }

  function LowByte(w: word): byte {
    w % 256
  }

  function Word(hi: byte, lo: byte): word {
    hi * 256 + lo
  }

  // ---------- The 16-bit register ----------

  function Xor(a: bv16, b: bv16): bv16 {
    a ^ b
  }

  function Half(s: bv16): bv16 {
    s >> 1
  }

  predicate Odd(s: bv16) {
    s & 1 == 1
  }

  function One(b: bool): bv16 {
    if b then 1 else 0
  }

  function Twice(t: bv16, b: bool): bv16 {
    (t << 1) | One(b)
  }

  predicate Below(s: bv16, p: bv16) {
    s < p
  }

  function Swap(c: bv16): bv16 {
    (c << 8) | (c >> 8)
  }

  const POLYNOMIAL: bv16 := 0xA001

  /** The n low bits of v, as a register value. */
  function Bv(v: nat, n: nat): bv16 {
    if n == 0 then 0 else Twice(Bv(v / 2, n - 1), v % 2 == 1)
  }

  /** One shift of the register, with the polynomial fed back. */
  function Shift(s: bv16): bv16 {
    if Odd(s) then Xor(Half(s), POLYNOMIAL) else Half(s)
  }

  function Shifts(s: bv16, n: nat): bv16
    decreases n
  {
    if n == 0 then s else Shifts(Shift(s), n - 1)
  }

  /** The register after all bytes of the data. */
  function Register(s: bv16, data: seq<byte>): bv16
    decreases data
  {
    if data == [] then s else Register(Shifts(Xor(s, Bv(data[0], 8)), 8), data[1..])
  }

  /** What `calcCRC` returns: the register with its bytes swapped. */
  function Crc(data: seq<byte>): word {
    Swap(Register(0xFFFF, data)) as int
  }

  /** A frame: the body with its check bytes. */
  function Frame(body: seq<byte>): seq<byte> {
    body + [HighByte(Crc(body)), LowByte(Crc(body))]
  }

  /** The last two bytes of the frame are the check of the others. */
  predicate Checked(f: seq<byte>)
    requires |f| >= 2
  {
    Crc(f[..|f| - 2]) == Word(f[|f| - 2], f[|f| - 1])
  }

  // ---------- Facts about single register operations ----------

  lemma XorAssoc(a: bv16, b: bv16, c: bv16)
    ensures Xor(a, Xor(b, c)) == Xor(Xor(a, b), c)
  {
    assert a ^ (b ^ c) == (a ^ b) ^ c;
  }

  lemma XorCommute(a: bv16, b: bv16, c: bv16)
    ensures Xor(Xor(a, c), b) == Xor(Xor(a, b), c)
  {
    assert (a ^ c) ^ b == (a ^ b) ^ c;
  }

  lemma XorCancel(a: bv16, b: bv16, c: bv16)
    ensures Xor(Xor(a, c), Xor(b, c)) == Xor(a, b)
  {
    assert (a ^ c) ^ (b ^ c) == a ^ b;
  }

  lemma XorZero(a: bv16)
    ensures Xor(a, 0) == a
  {
  }

  lemma XorSame(a: bv16)
    ensures Xor(a, a) == 0
  {
  }

  lemma XorBack(a: bv16, b: bv16)
    ensures Xor(Xor(a, b), b) == a && Xor(0, b) == b
  {
    assert (a ^ b) ^ b == a;
    assert 0 ^ b == b;
  }

  lemma XorSelf(a: bv16, b: bv16)
    ensures Xor(a, b) == 0 <==> a == b
  {
    hide Xor;
    XorSame(a);
    XorBack(a, b);
  }

  lemma HalfXor(s: bv16, t: bv16)
    ensures Half(Xor(s, t)) == Xor(Half(s), Half(t))
  {
  }

  lemma OddXor(s: bv16, t: bv16)
    ensures Odd(Xor(s, t)) == (Odd(s) != Odd(t))
  {
    assert (s ^ t) & 1 == (s & 1) ^ (t & 1);
    assert s & 1 == 0 || s & 1 == 1;
    assert t & 1 == 0 || t & 1 == 1;
  }

  lemma TwiceXor(t: bv16, b: bool)
    ensures Twice(t, b) == Xor(One(b), Twice(t, false))
  {
    if b { TwiceOne(t); } else { TwiceZero(t); }
  }

  lemma TwiceOne(t: bv16)
    ensures Twice(t, true) == Xor(1, Twice(t, false))
  {
    assert (t << 1) | 1 == 1 ^ (t << 1);
    assert (t << 1) | 0 == t << 1;
  }

  lemma TwiceZero(t: bv16)
    ensures Twice(t, false) == Xor(0, Twice(t, false))
  {
    assert 0 ^ (t << 1) == t << 1;
    assert (t << 1) | 0 == t << 1;
  }

  lemma TwiceParts(t: bv16)
    requires Below(t, 0x8000)
    ensures Half(Twice(t, false)) == t && !Odd(Twice(t, false))
  {
  }

  lemma TwiceBelow(t: bv16, p: bv16, b: bool)
    requires Below(t, p) && Below(p, 0x8000)
    ensures Below(Twice(t, b), Twice(p, false))
  {
  }

  lemma HalfBelow(s: bv16, p: bv16)
    requires Below(s, p) && !Odd(p)
    ensures Below(Half(s), Half(p))
  {
  }

  lemma HalfSmall(s: bv16)
    ensures Below(Half(s), 0x8000)
  {
  }

  lemma SwapInjective(s: bv16, t: bv16)
    requires Swap(s) == Swap(t)
    ensures s == t
  {
  }

  lemma IntInjective(s: bv16, t: bv16)
    requires s as int == t as int
    ensures s == t
  {
    assert (s as int) as bv16 == s;
    assert (t as int) as bv16 == t;
  }

  lemma ShiftZero()
    ensures Shift(0) == 0 && !Below(Shift(1), 0x8000)
  {
  }

  lemma ShiftNonZero(s: bv16)
    requires s != 0
    ensures Shift(s) != 0
  {
  }

  lemma ShiftKeepsBound(s: bv16, p: bv16, b: bool)
    requires !Odd(p) && !Below(s, p)
    ensures !Below(Shift(Xor(s, One(b))), Half(p))
  {
    FlipKeepsBound(s, p);
    XorZero(s);
    hide Xor, Half, Below, Shift;
    KeepsBound(Xor(s, One(b)), p);
  }

  lemma FlipKeepsBound(s: bv16, p: bv16)
    requires !Odd(p) && !Below(s, p)
    ensures !Below(Xor(s, 1), p)
  {
  }

  lemma KeepsBound(s: bv16, p: bv16)
    requires !Odd(p) && !Below(s, p)
    ensures !Below(Shift(s), Half(p))
  {
  }

  /** The bit of weight 2^k. */
  function Mask(k: nat): bv16
    requires k < 16
  {
    if k == 0 then 1 else Twice(Mask(k - 1), false)
  }

  lemma MaskHalf(k: nat)
    requires 0 < k < 16
    ensures !Odd(Mask(k)) && Half(Mask(k)) == Mask(k - 1) && Below(Mask(k - 1), 0x8000)
    ensures Mask(k - 1) != 0
  {
    if k > 1 {
      MaskHalf(k - 1);
      MaskTop(k - 1);
    }
    TwiceParts(Mask(k - 1));
  }

  lemma MaskTop(k: nat)
    requires k < 15
    ensures Below(Mask(k), 0x8000) && Mask(k) != 0
  {
    Masks();
  }

  lemma Masks()
    ensures Mask(0) == 1 && Mask(1) == 2 && Mask(2) == 4 && Mask(3) == 8
    ensures Mask(4) == 0x10 && Mask(5) == 0x20 && Mask(6) == 0x40 && Mask(7) == 0x80
    ensures Mask(8) == 0x100 && Mask(9) == 0x200 && Mask(10) == 0x400 && Mask(11) == 0x800
    ensures Mask(12) == 0x1000 && Mask(13) == 0x2000 && Mask(14) == 0x4000 && Mask(15) == 0x8000
  {
    assert Mask(3) == 8;
    assert Mask(6) == 0x40;
    assert Mask(9) == 0x200;
    assert Mask(12) == 0x1000;
  }

  // ---------- The register as a serial circuit ----------

  function Serial(s: bv16, bits: seq<bool>): bv16
    decreases bits
  {
    if bits == [] then s else Serial(Shift(Xor(s, One(bits[0]))), bits[1..])
  }

  /** The n low bits of v, lowest first. */
  function Bits(v: nat, n: nat): (r: seq<bool>)
    ensures |r| == n
  {
    if n == 0 then [] else [v % 2 == 1] + Bits(v / 2, n - 1)
  }

  /** The bits of a frame in the order they are sent. */
  function Stream(data: seq<byte>): (r: seq<bool>)
    ensures |r| == 8 * |data|
  {
    if data == [] then [] else Bits(data[0], 8) + Stream(data[1..])
  }

  /** Shifting is linear. */
  lemma ShiftLinear(s: bv16, t: bv16)
    ensures Shift(Xor(s, t)) == Xor(Shift(s), Shift(t))
  {
    HalfXor(s, t);
    OddXor(s, t);
    XorCancel(Half(s), Half(t), POLYNOMIAL);
    XorCommute(Half(s), Half(t), POLYNOMIAL);
    XorAssoc(Half(s), Half(t), POLYNOMIAL);
    hide Half, Xor, Odd;
  }

  /** Feeding a value's low bit now and the rest later is feeding it at once. */
  lemma ShiftSplit(s: bv16, t: bv16, b: bool)
    requires Below(t, 0x8000)
    ensures Shift(Xor(s, Twice(t, b))) == Xor(Shift(Xor(s, One(b))), t)
  {
    TwiceParts(t);
    hide Twice, Half, Xor, Odd, Below, One;
    TwiceXor(t, b);
    XorAssoc(s, One(b), Twice(t, false));
    ShiftLinear(Xor(s, One(b)), Twice(t, false));
  }

  /** n bits stay below 2^n. */
  lemma {:induction false} BvBelow(v: nat, n: nat)
    requires n < 16
    ensures Below(Bv(v, n), Mask(n))
  {
    if n == 0 {
      assert Mask(0) == 1;
    } else {
      hide Twice, Below;
      BvBelow(v / 2, n - 1);
      MaskTop(n - 1);
      TwiceBelow(Bv(v / 2, n - 1), Mask(n - 1), v % 2 == 1);
    }
  }

  lemma BelowTrans(s: bv16, p: bv16, q: bv16)
    requires Below(s, p) && Below(p, q)
    ensures Below(s, q)
  {
  }

  lemma {:induction false} ShiftsSerial(s: bv16, v: nat, n: nat)
    requires n <= 8
    ensures Shifts(Xor(s, Bv(v, n)), n) == Serial(s, Bits(v, n))
    decreases n
  {
    hide Shift, Twice, Xor, Below, One, Mask;
    if n == 0 {
      XorZero(s);
    } else {
      BvBelow(v / 2, n - 1);
      MaskTop(n - 1);
      BelowTrans(Bv(v / 2, n - 1), Mask(n - 1), 0x8000);
      ShiftSplit(s, Bv(v / 2, n - 1), v % 2 == 1);
      ShiftsSerial(Shift(Xor(s, One(v % 2 == 1))), v / 2, n - 1);
    }
  }

  lemma {:induction false} SerialConcat(s: bv16, x: seq<bool>, y: seq<bool>)
    ensures Serial(s, x + y) == Serial(Serial(s, x), y)
    decreases x
  {
    hide Shift, Xor, One;
    if x == [] {
      assert x + y == y;
    } else {
      assert (x + y)[1..] == x[1..] + y;
      SerialConcat(Shift(Xor(s, One(x[0]))), x[1..], y);
    }
  }

  /** The byte-wise computation is the serial one. */
  lemma {:induction false} RegisterSerial(s: bv16, data: seq<byte>)
    ensures Register(s, data) == Serial(s, Stream(data))
    decreases data
  {
    hide Shifts, Bv, Bits, Xor;
    if data == [] {
      SerialEmpty(s);
    } else {
      hide Serial;
      ShiftsSerial(s, data[0], 8);
      SerialConcat(s, Bits(data[0], 8), Stream(data[1..]));
      RegisterSerial(Serial(s, Bits(data[0], 8)), data[1..]);
    }
  }

  lemma SerialEmpty(s: bv16)
    ensures Serial(s, []) == s
  {
  }

  // ---------- Differences ----------

  function XorBits(x: seq<bool>, y: seq<bool>): (r: seq<bool>)
    requires |x| == |y|
    ensures |r| == |x|
  {
    seq(|x|, i requires 0 <= i < |x| => x[i] != y[i])
  }

  lemma XorBitsTail(x: seq<bool>, y: seq<bool>)
    requires |x| == |y| > 0
    ensures XorBits(x, y)[1..] == XorBits(x[1..], y[1..]) && XorBits(x, y)[0] == (x[0] != y[0])
  {
  }

  lemma OneXor(s: bv16, t: bv16, a: bool, b: bool)
    ensures Xor(Xor(s, One(a)), Xor(t, One(b))) == Xor(Xor(s, t), One(a != b))
  {
    hide Xor;
    XorCancel(s, t, 1);
    XorCommute(s, t, 1);
    XorAssoc(s, t, 1);
    XorZero(s);
    XorZero(t);
    XorZero(Xor(s, t));
  }

  /** The circuit is linear: the difference of two registers is the register of the differences. */
  lemma {:induction false} SerialLinear(s: bv16, t: bv16, x: seq<bool>, y: seq<bool>)
    requires |x| == |y|
    ensures Xor(Serial(s, x), Serial(t, y)) == Serial(Xor(s, t), XorBits(x, y))
    decreases x
  {
    hide Shift, One, Xor;
    if x != [] {
      var s', t' := Xor(s, One(x[0])), Xor(t, One(y[0]));
      SerialLinear(Shift(s'), Shift(t'), x[1..], y[1..]);
      ShiftLinear(s', t');
      OneXor(s, t, x[0], y[0]);
      XorBitsTail(x, y);
    }
  }

  /** Frames of equal length have equal checks exactly when the differences leave the register at zero. */
  lemma CrcDifference(x: seq<byte>, y: seq<byte>)
    requires |x| == |y|
    ensures Crc(x) == Crc(y) <==> Serial(0, XorBits(Stream(x), Stream(y))) == 0
  {
    hide Swap, Serial, Register, Xor, Stream;
    RegisterSerial(0xFFFF, x);
    RegisterSerial(0xFFFF, y);
    SerialLinear(0xFFFF, 0xFFFF, Stream(x), Stream(y));
    XorSelf(0xFFFF, 0xFFFF);
    XorSelf(Register(0xFFFF, x), Register(0xFFFF, y));
    if Crc(x) == Crc(y) {
      IntInjective(Swap(Register(0xFFFF, x)), Swap(Register(0xFFFF, y)));
      SwapInjective(Register(0xFFFF, x), Register(0xFFFF, y));
    }
  }

  // ---------- Bursts of up to 16 bits ----------

  /** A register of at least 2^m survives m more bits of any value and any number of zeros after them. */
  lemma {:induction false} Survives(s: bv16, bits: seq<bool>, m: nat)
    requires m < 16 && !Below(s, Mask(m)) && forall i :: m <= i < |bits| ==> !bits[i]
    ensures Serial(s, bits) != 0
    decreases bits
  {
    hide Shift, One, Mask, Below, Xor, Half, Odd;
    NotZero(s, m);
    if bits != [] {
      var s' := Shift(Xor(s, One(bits[0])));
      if m == 0 {
        ZerosKeepNonZero(s);
        AtLeastOne(s');
        Survives(s', bits[1..], 0);
      } else {
        MaskHalf(m);
        ShiftKeepsBound(s, Mask(m), bits[0]);
        Survives(s', bits[1..], m - 1);
      }
    }
  }

  lemma NotZero(s: bv16, m: nat)
    requires m < 16 && !Below(s, Mask(m))
    ensures s != 0
  {
    Masks();
    hide Mask;
  }

  lemma ZerosKeepNonZero(s: bv16)
    requires s != 0
    ensures Shift(Xor(s, One(false))) != 0
  {
    XorZero(s);
    hide Xor, Shift;
    ShiftNonZero(s);
  }

  lemma AtLeastOne(s: bv16)
    requires s != 0
    ensures !Below(s, Mask(0))
  {
  }

  lemma {:induction false} BurstSurvives(bits: seq<bool>, k: nat, j: nat)
    requires j < |bits| && bits[j] && forall i :: 0 <= i < |bits| && bits[i] ==> k <= i < k + 16
    ensures Serial(0, bits) != 0
    decreases bits
  {
    FirstBit(bits[0]);
    hide Shift, One, Mask, Below, Xor;
    if bits[0] {
      Survives(Shift(Xor(0, One(true))), bits[1..], 15);
    } else {
      assert bits[1..][j - 1];
      BurstSurvives(bits[1..], if k == 0 then 0 else k - 1, j - 1);
    }
  }

  lemma FirstBit(b: bool)
    ensures if b then !Below(Shift(Xor(0, One(b))), Mask(15)) else Shift(Xor(0, One(b))) == 0
  {
    Masks();
    ShiftZero();
    assert 0 ^ (1 as bv16) == 1 && 0 ^ (0 as bv16) == 0;
  }

  lemma {:induction false} BitsDiffer(v: nat, w: nat, n: nat) returns (j: nat)
    requires v != w && v < Power(n) && w < Power(n)
    ensures j < n && Bits(v, n)[j] != Bits(w, n)[j]
    decreases n
  {
    if v % 2 != w % 2 {
      j := 0;
    } else {
      assert v == 2 * (v / 2) + v % 2 && w == 2 * (w / 2) + w % 2;
      j := BitsDiffer(v / 2, w / 2, n - 1);
      j := j + 1;
    }
  }

  function Power(n: nat): nat {
    if n == 0 then 1 else 2 * Power(n - 1)
  }

  /** Different frames differ in a bit. */
  lemma {:induction false} FirstDifference(x: seq<byte>, y: seq<byte>) returns (j: nat)
    requires |x| == |y| && x != y
    ensures j < 8 * |x| && Stream(x)[j] != Stream(y)[j]
    decreases x
  {
    if x[0] != y[0] {
      assert Power(8) == 256 by { assert Power(4) == 16; }
      j := BitsDiffer(x[0], y[0], 8);
    } else {
      j := FirstDifference(x[1..], y[1..]);
      j := j + 8;
    }
  }

  /** Every error that is confined to 16 consecutive bits of a frame of any length is detected. */
  lemma BurstDetected(x: seq<byte>, y: seq<byte>, k: nat)
    requires |x| == |y| && x != y
    requires forall i :: 0 <= i < 8 * |x| && Stream(x)[i] != Stream(y)[i] ==> k <= i < k + 16
    ensures Crc(x) != Crc(y)
  {
    hide Serial, Crc, Stream;
    CrcDifference(x, y);
    var j := FirstDifference(x, y);
    assert XorBits(Stream(x), Stream(y))[j];
    BurstSurvives(XorBits(Stream(x), Stream(y)), k, j);
  }

  lemma {:induction false} StreamAt(x: seq<byte>, i: nat)
    requires i < 8 * |x|
    ensures Stream(x)[i] == Bits(x[i / 8], 8)[i % 8]
    decreases x
  {
    hide Bits;
    if i >= 8 {
      StreamAt(x[1..], i - 8);
      assert (i - 8) / 8 == i / 8 - 1 && (i - 8) % 8 == i % 8;
    }
  }

  /** Two frames that differ only in one byte, or only in two adjacent bytes, have different checks. */
  lemma AdjacentBytesDetected(x: seq<byte>, y: seq<byte>, p: nat)
    requires |x| == |y| && x != y
    requires forall i :: 0 <= i < |x| && x[i] != y[i] ==> p <= i <= p + 1
    ensures Crc(x) != Crc(y)
  {
    hide Crc, Bits, Stream;
    forall i | 0 <= i < 8 * |x| && Stream(x)[i] != Stream(y)[i] ensures 8 * p <= i < 8 * p + 16 {
      StreamAt(x, i);
      StreamAt(y, i);
      assert x[i / 8] != y[i / 8];
    }
    BurstDetected(x, y, 8 * p);
  }

  // ---------- Odd numbers of wrong bits ----------

  /** The parity of the n low bits. */
  function Parity(s: bv16, n: nat): bool
    decreases n
  {
    if n == 0 then false else Odd(s) != Parity(Half(s), n - 1)
  }

  lemma {:induction false} ParityXor(s: bv16, t: bv16, n: nat)
    ensures Parity(Xor(s, t), n) == (Parity(s, n) != Parity(t, n))
    decreases n
  {
    hide Odd, Half, Xor;
    if n > 0 {
      HalfXor(s, t);
      OddXor(s, t);
      ParityXor(Half(s), Half(t), n - 1);
    }
  }

  lemma {:induction false} ParityHigh(s: bv16, n: nat)
    requires n < 16 && Below(s, Mask(n))
    ensures Parity(s, n + 1) == Parity(s, n)
    decreases n
  {
    if n == 0 {
      OnlyZero(s);
    } else {
      hide Mask, Odd, Half, Below;
      MaskHalf(n);
      HalfBelow(s, Mask(n));
      ParityHigh(Half(s), n - 1);
    }
  }

  lemma OnlyZero(s: bv16)
    requires Below(s, Mask(0))
    ensures !Odd(s)
  {
  }

  lemma PolynomialParity()
    ensures Parity(POLYNOMIAL, 16)
  {
    assert !Parity(0x5, 3);
    assert Parity(0x14, 5) == Parity(0x5, 3);
    assert Parity(0x50, 7) == Parity(0x14, 5);
    assert Parity(0x140, 9) == Parity(0x50, 7);
    assert Parity(0x500, 11) == Parity(0x140, 9);
    assert Parity(0x1400, 13) == Parity(0x500, 11);
    assert Parity(0x5000, 15) == Parity(0x1400, 13);
  }

  /** A shift keeps the parity of the register, because the polynomial has an even number of terms. */
  lemma ShiftParity(s: bv16)
    ensures Parity(Shift(s), 16) == Parity(s, 16)
  {
    Masks();
    hide Mask;
    HalfSmall(s);
    ParityHigh(Half(s), 15);
    PolynomialParity();
    ParityXor(Half(s), POLYNOMIAL, 16);
    ParityStep(s);
    hide Parity, Half, Odd, Xor, Below;
  }

  lemma ParityStep(s: bv16)
    ensures Parity(s, 16) == (Odd(s) != Parity(Half(s), 15))
  {
  }

  /** Whether an odd number of the bits is set. */
  function OddBits(bits: seq<bool>): bool {
    if bits == [] then false else bits[0] != OddBits(bits[1..])
  }

  lemma {:induction false} SerialParity(s: bv16, bits: seq<bool>)
    ensures Parity(Serial(s, bits), 16) == (Parity(s, 16) != OddBits(bits))
    decreases bits
  {
    hide Shift, Parity, Xor, One;
    if bits != [] {
      OneParity(s, bits[0]);
      ShiftParity(Xor(s, One(bits[0])));
      SerialParity(Shift(Xor(s, One(bits[0]))), bits[1..]);
    }
  }

  lemma OneParity(s: bv16, b: bool)
    ensures Parity(Xor(s, One(b)), 16) == (Parity(s, 16) != b)
  {
    ParityXor(s, One(b), 16);
    OneAndZero();
    hide Parity, Xor;
  }

  lemma OneAndZero()
    ensures Parity(1, 16) && !Parity(0, 16)
  {
    ZeroParity(15);
    ZeroParity(16);
    HalfConstants();
    ParityStep(1);
    hide Half, Odd, Parity;
  }

  lemma HalfConstants()
    ensures Half(1) == 0 && Half(0) == 0 && Odd(1) && !Odd(0)
  {
  }

  lemma {:induction false} ZeroParity(n: nat)
    ensures !Parity(0, n)
  {
    HalfConstants();
    hide Half, Odd;
    if n > 0 {
      ZeroParity(n - 1);
    }
  }

  /** Every odd number of wrong bits in a frame of any length is detected. */
  lemma OddErrorDetected(x: seq<byte>, y: seq<byte>)
    requires |x| == |y| && OddBits(XorBits(Stream(x), Stream(y)))
    ensures Crc(x) != Crc(y)
  {
    hide Serial, Parity, Crc, Stream, XorBits;
    CrcDifference(x, y);
    SerialParity(0, XorBits(Stream(x), Stream(y)));
    ZeroParity(16);
  }
}
