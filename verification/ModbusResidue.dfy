/** Whole frames: a frame carries its own check exactly if it leaves the register at zero, so the errors that the check
    detects may hit the check bytes as well. */
module ModbusResidue {
  import opened ModbusCrc

  function Number(c: bv16): word {
    c as int
  }

  function And(a: bv16, b: bv16): bv16 {
    a & b
  }

  function High(s: bv16): bv16 {
    s >> 8
  }

  function Low(s: bv16): bv16 {
    s & 0xff
  }

  /** The n low bits. */
  function Ones(n: nat): bv16 {
    if n == 0 then 0 else Twice(Ones(n - 1), true)
  }

  function Halves(s: bv16, n: nat): bv16
    decreases n
  {
    if n == 0 then s else Halves(Half(s), n - 1)
  }

  // ---------- Register values as bytes ----------

  lemma HalfInt(c: bv16)
    requires Below(c, 0x100)
    ensures c as int == 2 * (Half(c) as int) + if Odd(c) then 1 else 0
  {
  }

  lemma HalfOdd(c: bv16)
    ensures Twice(Half(c), Odd(c)) == c
  {
  }

  lemma BelowHalf(c: bv16, n: nat)
    requires 0 < n <= 8 && Below(c, Mask(n))
    ensures Below(c, 0x100) && Below(Half(c), Mask(n - 1))
  {
    Masks();
    hide Mask;
  }

  /** A value of n bits is read back from its number. */
  lemma {:induction false} BvBack(c: bv16, n: nat)
    requires n <= 8 && Below(c, Mask(n))
    ensures Bv(c as int, n) == c
    decreases n
  {
    hide Twice, Half, Odd, Mask;
    if n == 0 {
      NoBits(c);
    } else {
      BelowHalf(c, n);
      HalfInt(c);
      BvBack(Half(c), n - 1);
      HalfOdd(c);
    }
  }

  lemma NoBits(c: bv16)
    requires Below(c, Mask(0))
    ensures c == 0
  {
  }

  lemma SplitInt(c: bv16)
    ensures Number(c) == 256 * Number(High(c)) + Number(Low(c))
    ensures Below(High(c), 0x100) && Below(Low(c), 0x100)
  {
  }

  /** A byte is read back from its number. */
  lemma ByteBack(c: bv16)
    requires Below(c, 0x100)
    ensures Number(c) < 256 && Bv(Number(c), 8) == c
  {
    ByteInt(c);
    Masks();
    hide Mask, Bv, Below;
    BvBack(c, 8);
  }

  lemma ByteInt(c: bv16)
    requires Below(c, 0x100)
    ensures 0 <= c as int < 256
  {
  }

  lemma SameBytes(hi: byte, lo: byte, hi': byte, lo': byte)
    requires 256 * hi + lo == 256 * hi' + lo'
    ensures hi == hi' && lo == lo'
  {
  }

  /** The two bytes of a check, as register values. */
  lemma CheckBytes(c: bv16, hi: byte, lo: byte)
    requires Number(c) == Word(hi, lo)
    ensures Bv(hi, 8) == High(c) && Bv(lo, 8) == Low(c)
  {
    hide Number, High, Low, Bv, Below;
    SplitInt(c);
    ByteBack(High(c));
    ByteBack(Low(c));
    SameBytes(hi, lo, Number(High(c)), Number(Low(c)));
  }

  // ---------- The register after the check bytes ----------

  lemma ClearStep(t: bv16, m: bv16)
    requires And(t, Twice(m, true)) == 0
    ensures Shift(t) == Half(t) && And(Half(t), m) == 0
  {
  }

  lemma {:induction false} ShiftsClear(t: bv16, n: nat)
    requires And(t, Ones(n)) == 0
    ensures Shifts(t, n) == Halves(t, n)
    decreases n
  {
    hide And, Twice, Half, Shift;
    if n > 0 {
      ClearStep(t, Ones(n - 1));
      ShiftsClear(Half(t), n - 1);
    }
  }

  lemma EightHalves(s: bv16)
    ensures Halves(s, 8) == High(s) && Ones(8) == 0xff
  {
    assert Halves(Half(Half(Half(Half(s)))), 4) == s >> 8;
    assert Ones(4) == 0xf;
  }

  /** Feeding the low byte of the register leaves its high byte. */
  lemma FeedLow(s: bv16)
    ensures Shifts(Xor(s, Low(s)), 8) == High(s)
  {
    ClearLow(s);
    EightHalves(Xor(s, Low(s)));
    hide Low, High, And, Xor, Shifts, Halves, Ones;
    ShiftsClear(Xor(s, Low(s)), 8);
  }

  lemma ClearLow(s: bv16)
    ensures And(Xor(s, Low(s)), 0xff) == 0 && High(Xor(s, Low(s))) == High(s)
  {
  }

  lemma FeedZero()
    ensures Shifts(0, 8) == 0
  {
    EightHalves(0);
    assert High(0) == 0 && And(0, 0xff) == 0;
    hide High, And, Shifts, Halves, Ones;
    ShiftsClear(0, 8);
  }

  lemma SwapBytes(s: bv16)
    ensures High(Swap(s)) == Low(s) && Low(Swap(s)) == High(s)
  {
  }

  lemma {:induction false} RegisterConcat(s: bv16, x: seq<byte>, y: seq<byte>)
    ensures Register(s, x + y) == Register(Register(s, x), y)
    decreases x
  {
    hide Shifts, Bv, Xor;
    if x == [] {
      assert x + y == y;
    } else {
      assert (x + y)[1..] == x[1..] + y;
      RegisterConcat(Shifts(Xor(s, Bv(x[0], 8)), 8), x[1..], y);
    }
  }

  lemma RegisterTwo(s: bv16, hi: byte, lo: byte)
    ensures Register(s, [hi, lo]) == Shifts(Xor(Shifts(Xor(s, Bv(hi, 8)), 8), Bv(lo, 8)), 8)
  {
    hide Shifts, Bv, Xor;
    var s1 := Shifts(Xor(s, Bv(hi, 8)), 8);
    assert [hi, lo][1..] == [lo] && [lo][1..] == [];
    assert Register(s1, [lo]) == Register(Shifts(Xor(s1, Bv(lo, 8)), 8), []);
  }

  /** A frame with its check leaves the register at zero. */
  lemma CheckedLeavesZero(f: seq<byte>)
    requires |f| >= 2 && Checked(f)
    ensures Register(0xFFFF, f) == 0
  {
    var n := |f| - 2;
    var s := Register(0xFFFF, f[..n]);
    assert f == f[..n] + [f[n], f[n + 1]];
    hide Register, Shifts, Bv, Xor, Swap, High, Low, Word;
    RegisterConcat(0xFFFF, f[..n], [f[n], f[n + 1]]);
    RegisterTwo(s, f[n], f[n + 1]);
    CheckBytes(Swap(s), f[n], f[n + 1]);
    SwapBytes(s);
    FeedLow(s);
    XorSame(High(s));
    FeedZero();
  }

  lemma FrameChecked(body: seq<byte>)
    ensures Checked(Frame(body)) && Frame(body)[..|body|] == body
  {
    hide Crc;
    assert Frame(body)[..|body|] == body;
  }

  // ---------- Errors anywhere in a frame ----------

  /** The frames differ, and only within 16 bits in a row. */
  ghost predicate WithinBurst(f: seq<byte>, g: seq<byte>, k: nat)
    requires |f| == |g|
  {
    f != g && forall i :: 0 <= i < 8 * |f| && Stream(f)[i] != Stream(g)[i] ==> k <= i < k + 16
  }

  /** The difference of the registers is the register of the differences. */
  lemma RegisterDifference(f: seq<byte>, g: seq<byte>)
    requires |f| == |g|
    ensures Register(0xFFFF, f) == Register(0xFFFF, g) <==> Serial(0, XorBits(Stream(f), Stream(g))) == 0
  {
    hide Serial, Register, Xor, Stream;
    RegisterSerial(0xFFFF, f);
    RegisterSerial(0xFFFF, g);
    SerialLinear(0xFFFF, 0xFFFF, Stream(f), Stream(g));
    XorSelf(0xFFFF, 0xFFFF);
    XorSelf(Register(0xFFFF, f), Register(0xFFFF, g));
  }

  lemma BurstMovesRegister(f: seq<byte>, g: seq<byte>, k: nat)
    requires |f| == |g| && WithinBurst(f, g, k)
    ensures Register(0xFFFF, f) != Register(0xFFFF, g)
  {
    hide Serial, Register, Stream;
    RegisterDifference(f, g);
    var j := FirstDifference(f, g);
    assert XorBits(Stream(f), Stream(g))[j];
    BurstSurvives(XorBits(Stream(f), Stream(g)), k, j);
  }

  /** An error that is confined to 16 bits in a row, check bytes included, leaves a frame without its check. */
  lemma FrameBurstDetected(f: seq<byte>, g: seq<byte>, k: nat)
    requires |f| == |g| >= 2 && Checked(f) && WithinBurst(f, g, k)
    ensures !Checked(g)
  {
    hide Register, Checked, WithinBurst;
    CheckedLeavesZero(f);
    BurstMovesRegister(f, g, k);
    if Checked(g) {
      CheckedLeavesZero(g);
    }
  }

  /** So does every odd number of wrong bits. */
  lemma FrameOddErrorDetected(f: seq<byte>, g: seq<byte>)
    requires |f| == |g| >= 2 && Checked(f) && OddBits(XorBits(Stream(f), Stream(g)))
    ensures !Checked(g)
  {
    hide Serial, Parity, Register, Stream, XorBits, Checked;
    CheckedLeavesZero(f);
    RegisterDifference(f, g);
    SerialParity(0, XorBits(Stream(f), Stream(g)));
    ZeroParity(16);
    if Checked(g) {
      CheckedLeavesZero(g);
    }
  }

  /** Only frames with their check leave the register at zero. */
  lemma CheckedExactly(g: seq<byte>)
    requires |g| >= 2
    ensures Checked(g) <==> Register(0xFFFF, g) == 0
  {
    var f := Frame(g[..|g| - 2]);
    FrameChecked(g[..|g| - 2]);
    hide Register, Checked, Frame, WithinBurst;
    if Checked(g) {
      CheckedLeavesZero(g);
    } else {
      CheckedLeavesZero(f);
      LastBytesDiffer(f, g);
      BurstMovesRegister(f, g, 8 * (|g| - 2));
    }
  }

  lemma LastBytesDiffer(f: seq<byte>, g: seq<byte>)
    requires |f| == |g| >= 2 && f != g && f[..|f| - 2] == g[..|f| - 2]
    ensures WithinBurst(f, g, 8 * (|f| - 2))
  {
    hide Stream, Bits;
    var k := 8 * (|f| - 2);
    forall i | 0 <= i < 8 * |f| && Stream(f)[i] != Stream(g)[i] ensures k <= i < k + 16 {
      StreamAt(f, i);
      StreamAt(g, i);
      assert f[i / 8] != g[i / 8];
      assert i / 8 < |f| - 2 ==> f[..|f| - 2][i / 8] == g[..|f| - 2][i / 8];
    }
  }
}
