/** `bitRead` and `bitWrite` on registers and bytes, and tables of coils packed 16 to a register. */
module ModbusBits {
  import opened ModbusCrc

  function Or(a: bv16, b: bv16): bv16 {
    a | b
  }

  function Clear(a: bv16, b: bv16): bv16 {
    a & !b
  }

  predicate Meets(a: bv16, b: bv16) {
    a & b != 0
  }

  predicate BitRead(w: word, k: nat)
    requires k < 16
  {
    Meets(w as bv16, Mask(k))
  }

  function BitWrite(w: word, k: nat, value: bool): word
    requires k < 16
  {
    if value then Or(w as bv16, Mask(k)) as int else Clear(w as bv16, Mask(k)) as int
  }

  /** Different masks have no bit in common. */
  lemma {:induction false} MasksDisjoint(j: nat, k: nat)
    requires j < 16 && k < 16 && j != k
    ensures !Meets(Mask(j), Mask(k))
    decreases j
  {
    if j == 0 {
      EvenMeetsOne(Mask(k - 1));
    } else if k == 0 {
      EvenMeetsOne(Mask(j - 1));
    } else {
      hide Twice, Meets;
      MasksDisjoint(j - 1, k - 1);
      TwiceMeets(Mask(j - 1), Mask(k - 1));
    }
  }

  lemma EvenMeetsOne(a: bv16)
    ensures !Meets(1, Twice(a, false)) && !Meets(Twice(a, false), 1)
  {
  }

  lemma TwiceMeets(a: bv16, b: bv16)
    requires !Meets(a, b)
    ensures !Meets(Twice(a, false), Twice(b, false))
  {
    assert (a << 1) & (b << 1) == (a & b) << 1;
  }

  lemma OrMeets(a: bv16, m: bv16, n: bv16)
    requires !Meets(m, n)
    ensures Meets(Or(a, m), n) == Meets(a, n) && Meets(Clear(a, m), n) == Meets(a, n)
  {
    OrKeeps(a, m, n);
    ClearMeets(a, m, n);
  }

  lemma OrKeeps(a: bv16, m: bv16, n: bv16)
    requires m & n == 0
    ensures (a | m) & n == a & n
  {
  }

  lemma ClearMeets(a: bv16, m: bv16, n: bv16)
    requires m & n == 0
    ensures (a & !m) & n == a & n
  {
  }

  lemma OrSelf(a: bv16, m: bv16)
    requires m != 0
    ensures Meets(Or(a, m), m) && !Meets(Clear(a, m), m)
  {
  }

  lemma BackToBits(c: bv16)
    ensures (c as int) as bv16 == c
  {
  }

  lemma MasksSet(a: bv16, k: nat, j: nat)
    requires k < 16 && j < 16
    ensures Meets(Or(a, Mask(k)), Mask(j)) == (j == k || Meets(a, Mask(j)))
  {
    hide Mask, Or, Clear, Meets;
    if j == k {
      MaskNonZero(k);
      OrSelf(a, Mask(k));
    } else {
      MasksDisjoint(k, j);
      OrMeets(a, Mask(k), Mask(j));
    }
  }

  lemma MasksCleared(a: bv16, k: nat, j: nat)
    requires k < 16 && j < 16
    ensures Meets(Clear(a, Mask(k)), Mask(j)) == (j != k && Meets(a, Mask(j)))
  {
    hide Mask, Or, Clear, Meets;
    if j == k {
      MaskNonZero(k);
      OrSelf(a, Mask(k));
    } else {
      MasksDisjoint(k, j);
      OrMeets(a, Mask(k), Mask(j));
    }
  }

  /** Writing a bit sets that bit and no other. */
  lemma BitReadWrite(w: word, k: nat, value: bool, j: nat)
    requires k < 16 && j < 16
    ensures BitRead(BitWrite(w, k, value), j) == if j == k then value else BitRead(w, j)
  {
    hide BitRead, BitWrite;
    if value {
      BitSet(w, k, j);
    } else {
      BitCleared(w, k, j);
    }
  }

  lemma BitSet(w: word, k: nat, j: nat)
    requires k < 16 && j < 16
    ensures BitRead(BitWrite(w, k, true), j) == (j == k || BitRead(w, j))
  {
    hide Mask, Or, Clear, Meets;
    MasksSet(w as bv16, k, j);
    BackToBits(Or(w as bv16, Mask(k)));
  }

  lemma BitCleared(w: word, k: nat, j: nat)
    requires k < 16 && j < 16
    ensures BitRead(BitWrite(w, k, false), j) == (j != k && BitRead(w, j))
  {
    hide Mask, Or, Clear, Meets;
    MasksCleared(w as bv16, k, j);
    BackToBits(Clear(w as bv16, Mask(k)));
  }

  lemma MaskNonZero(k: nat)
    requires k < 16
    ensures Mask(k) != 0
  {
    Masks();
    hide Mask;
  }

  /** Writing one of the low eight bits of a byte leaves a byte. */
  lemma BitWriteByte(b: byte, k: nat, value: bool)
    requires k < 8
    ensures BitWrite(b, k, value) < 256
  {
    ByteBound(b);
    LowMask(k);
    hide Mask;
    OrBound(b as bv16, Mask(k));
  }

  lemma ByteBound(b: byte)
    ensures (b as bv16) <= 0xff
  {
  }

  lemma LowMask(k: nat)
    requires k < 8
    ensures Mask(k) <= 0xff
  {
    Masks();
    hide Mask;
  }

  lemma OrBound(a: bv16, m: bv16)
    requires a <= 0xff && m <= 0xff
    ensures Or(a, m) as int < 256 && Clear(a, m) as int < 256
  {
    OrSmall(a, m);
    ClearSmall(a, m);
  }

  lemma OrSmall(a: bv16, m: bv16)
    requires a <= 0xff && m <= 0xff
    ensures Or(a, m) <= 0xff
  {
  }

  lemma ClearSmall(a: bv16, m: bv16)
    requires a <= 0xff
    ensures Clear(a, m) <= 0xff
  {
  }

  /** Coil c of a register table. */
  predicate Coil(table: seq<word>, c: nat)
    requires c < 16 * |table|
  {
    BitRead(table[c / 16], c % 16)
  }

  function SetCoil(table: seq<word>, c: nat, value: bool): (r: seq<word>)
    requires c < 16 * |table|
    ensures |r| == |table|
  {
    table[c / 16 := BitWrite(table[c / 16], c % 16, value)]
  }

  lemma CoilSetCoil(table: seq<word>, c: nat, value: bool, d: nat)
    requires c < 16 * |table| && d < 16 * |table|
    ensures Coil(SetCoil(table, c, value), d) == if c == d then value else Coil(table, d)
  {
    hide BitRead, BitWrite;
    assert c == 16 * (c / 16) + c % 16 && d == 16 * (d / 16) + d % 16;
    if c / 16 == d / 16 {
      BitReadWrite(table[c / 16], c % 16, value, d % 16);
    }
  }

  /** Bit i of a sequence of bytes that carries bits, eight to a byte. */
  predicate PackedBit(data: seq<byte>, i: nat)
    requires i < 8 * |data|
  {
    BitRead(data[i / 8], i % 8)
  }

  function SetPackedBit(data: seq<byte>, i: nat, value: bool): (r: seq<byte>)
    requires i < 8 * |data|
    ensures |r| == |data|
  {
    BitWriteByte(data[i / 8], i % 8, value);
    data[i / 8 := BitWrite(data[i / 8], i % 8, value)]
  }

  lemma PackedSetPacked(data: seq<byte>, i: nat, value: bool, j: nat)
    requires i < 8 * |data| && j < 8 * |data|
    ensures PackedBit(SetPackedBit(data, i, value), j) == if i == j then value else PackedBit(data, j)
  {
    hide BitRead, BitWrite;
    assert i == 8 * (i / 8) + i % 8 && j == 8 * (j / 8) + j % 8;
    if i / 8 == j / 8 {
      BitReadWrite(data[i / 8], i % 8, value, j % 8);
    }
  }

  /** The bits of the first n bytes do not depend on the rest. */
  lemma PackedPrefix(data: seq<byte>, n: nat)
    requires n <= |data|
    ensures forall i :: 0 <= i < 8 * n ==> (PackedBit(data[..n], i) <==> PackedBit(data, i))
  {
  }

  /** Bytes needed for n bits. */
  function BytesFor(n: nat): (r: nat)
    ensures 8 * r >= n && 8 * r < n + 8
  {
    (n + 7) / 8
  }

  lemma BytesOf(n: nat)
    ensures BytesFor(n) == n / 8 + if n % 8 != 0 then 1 else 0
  {
    assert n == 8 * (n / 8) + n % 8;
  }
}
