/** The Modbus RTU master and slave over a shared frame buffer of 64 bytes. The serial port is a queue of received
    bytes and the frame that was sent last; the clock is replaced by the answers it would give to a poll. */
module Modbus {
  import opened ModbusCrc
  import opened ModbusBits

  const MAX_BUFFER := 64
  const NO_REPLY := 255
  const EXC_FUNC_CODE := 1
  const EXC_ADDR_RANGE := 2
  const ERR_BUFF_OVERFLOW := -3
  const ERR_EXCEPTION := 251 // -5 as an unsigned byte

  datatype ComState = Idle | Waiting

  /** `modbus_t` */
  datatype Telegram = Telegram(id: byte, fct: byte, addr: word, count: word, reg: array<word>)

  predicate Supported(fct: byte) {
    fct == 1 || fct == 2 || fct == 3 || fct == 4 || fct == 5 || fct == 6 || fct == 15 || fct == 16
  }

  // ---------- Frames ----------

  function Header(id: byte, fct: byte, addr: word, count: word): seq<byte> {
    [id, fct, HighByte(addr), LowByte(addr), HighByte(count), LowByte(count)]
  }

  /** Registers as they are sent, high byte first. */
  function WordBytes(ws: seq<word>): (r: seq<byte>)
    ensures |r| == 2 * |ws|
  {
    if ws == [] then []
    else
      var w := ws[|ws| - 1];
      WordBytes(ws[..|ws| - 1]) + [HighByte(w), LowByte(w)]
  }

  /** Word i of bytes that carry registers. */
  function WordAt(data: seq<byte>, i: nat): word
    requires 2 * i + 1 < |data|
  {
    Word(data[2 * i], data[2 * i + 1])
  }

  function WordsOf(data: seq<byte>, n: nat): (r: seq<word>)
    requires 2 * n <= |data|
    ensures |r| == n
  {
    seq(n, i requires 0 <= i < n => WordAt(data, i))
  }

  lemma {:induction false} WordsRoundTrip(ws: seq<word>)
    ensures WordsOf(WordBytes(ws), |ws|) == ws
  {
    hide HighByte, LowByte, Word;
    if ws != [] {
      var n, b := |ws| - 1, WordBytes(ws);
      WordsRoundTrip(ws[..n]);
      SplitWord(ws[n]);
      assert b[..2 * n] == WordBytes(ws[..n]);
      forall i | 0 <= i < |ws| ensures WordAt(b, i) == ws[i] {
        if i < n {
          assert WordAt(b, i) == WordsOf(WordBytes(ws[..n]), n)[i];
        }
      }
    }
  }

  lemma SplitWord(w: word)
    ensures Word(HighByte(w), LowByte(w)) == w
  {
  }

  /** How many bytes of coils the master announces for function 15. */
  function AnnouncedBytes(count: word): byte {
    var regs := count / 16 % 256;
    (if count % 16 != 0 then regs * 2 % 256 + 1 else regs * 2 % 256) % 256
  }

  /** What a query puts on the line before the check bytes. */
  function QueryBody(id: byte, fct: byte, addr: word, count: word, image: seq<word>): seq<byte>
    requires Supported(fct)
    requires fct == 5 || fct == 6 ==> |image| > 0
    requires fct == 16 ==> count <= |image|
  {
    if fct <= 4 then Header(id, fct, addr, count)
    else if fct == 5 then Header(id, fct, addr, if image[0] > 0 then 0xff00 else 0)
    else if fct == 6 then Header(id, fct, addr, image[0])
    else if fct == 15 then Header(id, fct, addr, count) + [AnnouncedBytes(count)]
    else Header(id, fct, addr, count) + [count * 2 % 256] + WordBytes(image[..count])
  }

  function Addr(f: seq<byte>): word
    requires |f| >= 6
  {
    Word(f[2], f[3])
  }

  function Count(f: seq<byte>): word
    requires |f| >= 6
  {
    Word(f[4], f[5])
  }

  /** The register, or group of 16 coils, behind the last one addressed, as the slave computes it. */
  function LastAddressed(fct: byte, addr: word, count: word): int {
    if fct == 1 || fct == 2 || fct == 15 then addr / 16 + count / 16
    else if fct == 5 then addr / 16
    else if fct == 6 then addr
    else addr + count
  }

  /** A 16-bit sum stored in a byte. */
  function Cut(x: int): byte {
    x % 256
  }

  /** That a sum is cut to 16 bits first makes no difference. */
  lemma CutTwice(x: int)
    ensures x % 0x1_0000 % 256 == Cut(x)
  {
    var y := x % 0x1_0000;
    assert x == 0x1_0000 * (x / 0x1_0000) + y && y == 256 * (y / 256) + y % 256;
    Remainder(x, 256 * (x / 0x1_0000) + y / 256, y % 256);
  }

  lemma Remainder(x: int, q: int, r: int)
    requires x == 256 * q + r && 0 <= r < 256
    ensures x % 256 == r && x / 256 == q
  {
  }

  /** The slave's answer to a request: 0, or the exception it sends. The address is cut to a byte. */
  function RequestVerdict(f: seq<byte>, regsize: byte): byte
    requires |f| >= 6
  {
    if !Supported(f[1]) then EXC_FUNC_CODE
    else if Cut(LastAddressed(f[1], Addr(f), Count(f))) > regsize then EXC_ADDR_RANGE
    else 0
  }

  /** The function code of an exception answer. */
  function ExceptionCode(fct: byte): byte {
    (fct as int + 0x80) % 256
  }

  /** The master's verdict on an answer. */
  function AnswerVerdict(f: seq<byte>): byte
    requires |f| >= 4
  {
    if !Checked(f) then NO_REPLY
    else if f[1] >= 0x80 then ERR_EXCEPTION
    else if !Supported(f[1]) then EXC_FUNC_CODE
    else 0
  }

  /** A sent frame passes the check test of its receiver. */
  lemma FrameChecks(body: seq<byte>)
    requires |body| >= 2
    ensures AnswerVerdict(Frame(body)) == if body[1] >= 0x80 then ERR_EXCEPTION
                                          else if !Supported(body[1]) then EXC_FUNC_CODE
                                          else 0
  {
    hide Crc;
    assert Frame(body)[..|body|] == body;
  }

  function SignedByte(b: byte): int {
    if b < 128 then b else b - 256
  }

  /** How often a master's poll counts an error for a complete frame. */
  function Faults(f: seq<byte>): nat {
    if |f| >= MAX_BUFFER then 2 else if |f| < 7 || AnswerVerdict(f) != 0 then 1 else 0
  }

  /** If the master takes registers from the answer, the buffer and an image of n registers have room for as many as it
      announces. */
  predicate ImageFits(f: seq<byte>, n: nat) {
    7 <= |f| < MAX_BUFFER && AnswerVerdict(f) == 0 && (f[1] == 3 || f[1] == 4) ==>
      3 + 2 * (f[2] / 2) <= MAX_BUFFER && f[2] / 2 <= n
  }

  /** The announced registers that the answer contains are taken over; the registers behind them stay. */
  ghost predicate ImageTaken(f: seq<byte>, image: seq<word>, image': seq<word>)
    requires |f| >= 7
  {
    && |image'| == |image|
    && (forall i: nat :: i < f[2] / 2 && i < |image| && 2 * i + 5 <= |f| ==> image'[i] == WordAt(f[3..], i))
    && (forall i: nat :: f[2] / 2 <= i < |image| ==> image'[i] == image[i])
  }

  /** What a master's poll makes of a complete frame: the result it returns (a signed byte) and its image. */
  ghost predicate Polled(f: seq<byte>, image: seq<word>, r: int, image': seq<word>) {
    if |f| >= MAX_BUFFER then r == ERR_BUFF_OVERFLOW && image' == image
    else if |f| < 7 then r == |f| && image' == image
    else if AnswerVerdict(f) != 0 then r == SignedByte(AnswerVerdict(f)) && image' == image
    else r == |f| && if f[1] == 3 || f[1] == 4 then ImageTaken(f, image, image') else image' == image
  }

  // ---------- What the slave does with a request ----------

  /** The first register a request reaches: the slave cuts the address to a byte, which leaves its low byte. */
  function RegisterAt(f: seq<byte>): byte
    requires |f| >= 6
  {
    f[3]
  }

  function RegisterCount(f: seq<byte>): byte
    requires |f| >= 6
  {
    f[5]
  }

  lemma RegistersCut(f: seq<byte>)
    requires |f| >= 6
    ensures RegisterAt(f) == Addr(f) % 256 && RegisterCount(f) == Count(f) % 256
  {
  }

  /** The first coil a request reaches: the slave cuts the number of its register to a byte. */
  function CoilAt(f: seq<byte>): nat
    requires |f| >= 6
  {
    Addr(f) % 4096
  }

  /** c places from a on, if any, are among the first n. */
  predicate Inside(a: nat, c: nat, n: nat) {
    c == 0 || a + c <= n
  }

  /** What the request reaches exists, and the request or the answer fits below the end of the buffer. */
  predicate Fits(f: seq<byte>, n: nat)
    requires |f| == MAX_BUFFER
  {
    var a, c := RegisterAt(f), RegisterCount(f);
    match f[1]
    case 1 => Inside(CoilAt(f), Count(f), 16 * n) && 5 + BytesFor(Count(f)) <= MAX_BUFFER
    case 2 => Inside(CoilAt(f), Count(f), 16 * n) && 5 + BytesFor(Count(f)) <= MAX_BUFFER
    case 3 => Inside(a, c, n) && 5 + 2 * c <= MAX_BUFFER
    case 4 => Inside(a, c, n) && 5 + 2 * c <= MAX_BUFFER
    case 5 => CoilAt(f) < 16 * n
    case 6 => a < n
    case 15 => Inside(CoilAt(f), Count(f), 16 * n) && 7 + BytesFor(Count(f)) <= MAX_BUFFER
    case 16 => Inside(a, c, n) && 7 + 2 * c <= MAX_BUFFER
    case _ => true
  }

  /** The coil and its register as the slave computes them from a 16-bit number. */
  lemma CoilPlace(start: word, current: nat)
    requires start % 4096 + current < 4096
    ensures (start + current) % 0x1_0000 / 16 % 256 == (start % 4096 + current) / 16
    ensures (start + current) % 0x1_0000 % 16 == (start % 4096 + current) % 16
  {
    var k, s: int := start / 4096, start % 4096 + current;
    assert start + current == 4096 * k + s && 0 <= k < 16;
    assert 4096 * k + s < 0x1_0000;
    assert (start + current) % 0x1_0000 == 4096 * k + s;
    Sixteenth(256 * k, s);
    Remainder(256 * k + s / 16, k, s / 16);
  }

  lemma Sixteenth(q: nat, s: nat)
    ensures (16 * q + s) / 16 == q + s / 16 && (16 * q + s) % 16 == s % 16
  {
    assert s == 16 * (s / 16) + s % 16;
    SixteenthParts(16 * q + s, q + s / 16, s % 16);
  }

  lemma SixteenthParts(x: nat, q: nat, r: nat)
    requires x == 16 * q + r && r < 16
    ensures x / 16 == q && x % 16 == r
  {
  }

  /** The coils from an address on stay inside the table, register by register, exactly if their places do. */
  lemma CoilsReached(start: word, count: word, n: byte)
    ensures (forall k: nat :: k < count ==> RegisterOfCoil(start, k) < n) <==> Inside(start % 4096, count, 16 * n)
  {
    var s: int := start % 4096;
    if Inside(s, count, 16 * n) {
      forall k: nat | k < count ensures RegisterOfCoil(start, k) < n {
        CoilPlace(start, k);
        Below16(s + k, n);
      }
    } else if s >= 16 * n {
      CoilPlace(start, 0);
      Below16(s, n);
      assert !(RegisterOfCoil(start, 0) < n);
    } else {
      CoilPlace(start, 16 * n - s);
      Below16(16 * n, n);
      assert !(RegisterOfCoil(start, 16 * n - s) < n);
    }
  }

  /** The register of the k-th coil, in the slave's arithmetic. */
  function RegisterOfCoil(start: word, k: nat): nat {
    (start + k) % 0x1_0000 / 16 % 256
  }

  lemma Below16(x: nat, n: nat)
    ensures x / 16 < n <==> x < 16 * n
  {
  }

  /** The n coils from a on are the bits of the data, in order. */
  ghost predicate CarriesCoils(data: seq<byte>, table: seq<word>, a: nat, n: nat)
    requires n <= 8 * |data| && Inside(a, n, 16 * |table|)
  {
    forall c :: a <= c < a + n ==> (Coil(table, c) <==> PackedBit(data, c - a))
  }

  /** The reply carries the addressed coils in order. */
  ghost predicate CoilReply(f: seq<byte>, table: seq<word>, sent: seq<byte>)
    requires |f| == MAX_BUFFER && Inside(CoilAt(f), Count(f), 16 * |table|)
  {
    var n := BytesFor(Count(f));
    && |sent| == n + 5 && sent == Frame(sent[..n + 3])
    && sent[..3] == [f[0], f[1], n % 256]
    && CarriesCoils(sent[3..n + 3], table, CoilAt(f), Count(f))
  }

  lemma CoilsReplied(f: seq<byte>, table: seq<word>, body: seq<byte>)
    requires |f| == MAX_BUFFER && Inside(CoilAt(f), Count(f), 16 * |table|) && |body| == BytesFor(Count(f)) + 3
    requires body[..3] == [f[0], f[1], BytesFor(Count(f)) % 256]
    requires CarriesCoils(body[3..], table, CoilAt(f), Count(f))
    ensures CoilReply(f, table, Frame(body))
  {
    hide Crc, CarriesCoils, CoilAt, Count, BytesFor;
    var sent := Frame(body);
    assert sent[..|body|] == body && sent[3..|body|] == body[3..] && sent[..3] == body[..3];
  }

  /** The n coils from a on have become the bits of the data; every other coil is as before. */
  ghost predicate CoilsFrom(data: seq<byte>, table: seq<word>, table': seq<word>, a: nat, n: nat)
    requires n <= 8 * |data|
  {
    && |table'| == |table|
    && forall c: nat :: c < 16 * |table| ==>
                          (Coil(table', c) <==> if a <= c < a + n then PackedBit(data, c - a) else Coil(table, c))
  }

  /** The addressed coils are the request's bits; every other coil is as before. */
  ghost predicate CoilsWritten(f: seq<byte>, table: seq<word>, table': seq<word>)
    requires |f| == MAX_BUFFER && 7 + BytesFor(Count(f)) <= MAX_BUFFER
  {
    CoilsFrom(f[7..], table, table', CoilAt(f), Count(f))
  }

  function Words(table: seq<word>, a: nat, c: nat): (r: seq<word>)
    requires Inside(a, c, |table|)
    ensures |r| == c
  {
    if c == 0 then [] else table[a..a + c]
  }

  function WithWords(table: seq<word>, a: nat, words: seq<word>): (r: seq<word>)
    requires Inside(a, |words|, |table|)
    ensures |r| == |table|
  {
    if words == [] then table else table[..a] + words + table[a + |words|..]
  }

  /** Registers written one by one from a on. */
  lemma WordsStored(table: seq<word>, table': seq<word>, a: nat, data: seq<byte>, n: nat)
    requires Inside(a, n, |table|) && 2 * n <= |data| && |table'| == |table|
    requires forall k :: 0 <= k < n ==> table'[a + k] == WordAt(data, k)
    requires forall k :: 0 <= k < |table| && !(a <= k < a + n) ==> table'[k] == table[k]
    ensures table' == WithWords(table, a, WordsOf(data, n))
  {
    hide WordAt;
    if n == 0 {
      assert WordsOf(data, n) == [];
    } else {
      assert table'[a..a + n] == WordsOf(data, n);
      assert table'[..a] == table[..a] && table'[a + n..] == table[a + n..];
      assert table' == table'[..a] + table'[a..a + n] + table'[a + n..];
    }
  }

  /** The registers reached are the request's words; every other register is as before. */
  function RegistersWritten(f: seq<byte>, table: seq<word>): seq<word>
    requires |f| == MAX_BUFFER && Inside(RegisterAt(f), RegisterCount(f), |table|)
    requires 7 + 2 * RegisterCount(f) <= MAX_BUFFER
  {
    WithWords(table, RegisterAt(f), WordsOf(f[7..], RegisterCount(f)))
  }

  /** The reply that carries the registers reached. */
  function ReadReply(f: seq<byte>, table: seq<word>): seq<byte>
    requires |f| == MAX_BUFFER && Inside(RegisterAt(f), RegisterCount(f), |table|)
  {
    Frame([f[0], f[1], RegisterCount(f) * 2 % 256] + WordBytes(Words(table, RegisterAt(f), RegisterCount(f))))
  }

  /** The effect of an accepted request on the table and the line. */
  ghost predicate Served(f: seq<byte>, table: seq<word>, table': seq<word>, sent: seq<byte>)
    requires |f| == MAX_BUFFER && Fits(f, |table|)
  {
    match f[1]
    case 1 => table' == table && CoilReply(f, table, sent)
    case 2 => table' == table && CoilReply(f, table, sent)
    case 3 => table' == table && sent == ReadReply(f, table)
    case 4 => table' == table && sent == ReadReply(f, table)
    case 5 => table' == SetCoil(table, CoilAt(f), f[4] == 0xff) && sent == Frame(f[..6])
    case 6 => table' == table[RegisterAt(f) := Count(f)] && sent == Frame(f[..6])
    case 15 => CoilsWritten(f, table, table') && sent == Frame(f[..6])
    case 16 => table' == RegistersWritten(f, table) && sent == Frame(f[..4] + [0, RegisterCount(f)])
    case _ => false
  }

  // ---------- The station ----------

  class Station {
    const buffer: array<byte>
    var id: byte
    var state: ComState
    var lastError: int
    var size: nat
    var regs: array<word>
    var inCnt: word
    var outCnt: word
    var errCnt: word
    /** Bytes received and not yet read. */
    var rx: seq<byte>
    /** The frame sent last. */
    var tx: seq<byte>

    ghost predicate Valid()
      reads this
    {
      buffer.Length == MAX_BUFFER && size <= MAX_BUFFER
    }

    constructor (id: byte)
      ensures Valid() && this.id == id && state == Idle && rx == [] && tx == [] && fresh(buffer)
    {
      buffer := new byte[MAX_BUFFER];
      this.id := id;
      state, lastError, size := Idle, 0, 0;
      regs := new word[0];
      inCnt, outCnt, errCnt := 0, 0, 0;
      rx, tx := [], [];
    }

    /** `calcCRC` */
    method CalcCRC(length: nat) returns (crc: word)
      requires Valid() && length <= MAX_BUFFER
      ensures crc == Crc(buffer[..length])
    {
      hide Xor, Half, Odd, Bv, Swap;
      var temp: bv16 := 0xFFFF;
      for i := 0 to length
        invariant Register(temp, buffer[i..length]) == Register(0xFFFF, buffer[..length])
      {
        ghost var rest := buffer[i..length];
        assert rest[0] == buffer[i] && rest[1..] == buffer[i + 1..length];
        temp := Xor(temp, Bv(buffer[i], 8));
        temp := EightShifts(temp);
      }
      assert buffer[length..length] == [];
      crc := Swap(temp) as int;
    }

    /** `sendTxBuffer`: appends the check, sends, and drops whatever has been received meanwhile. */
    method SendTxBuffer()
      requires Valid() && size + 2 <= MAX_BUFFER
      modifies this`size, this`tx, this`rx, this`outCnt, buffer
      ensures Valid() && size == 0 && rx == [] && |tx| == old(size) + 2 && tx == Frame(old(buffer[..size]))
          && outCnt == (old(outCnt) + 1) % 0x1_0000
    {
      hide Crc;
      ghost var body := buffer[..size];
      var crc := CalcCRC(size);
      buffer[size] := HighByte(crc);
      size := size + 1;
      buffer[size] := LowByte(crc);
      size := size + 1;
      assert buffer[..size] == body + [HighByte(crc), LowByte(crc)];
      tx := buffer[..size];
      rx := [];
      size := 0;
      outCnt := (outCnt + 1) % 0x1_0000;
    }

    /** `getRxBuffer`: a frame that fills the buffer completely is reported as an overflow. */
    method GetRxBuffer() returns (r: int)
      requires Valid() && |rx| <= MAX_BUFFER
      modifies this`size, this`rx, this`inCnt, this`errCnt, buffer
      ensures Valid() && rx == [] && size == old(|rx|) && inCnt == (old(inCnt) + 1) % 0x1_0000
      ensures buffer[..] == old(rx) + old(buffer[|rx|..])
      ensures r == if old(|rx|) >= MAX_BUFFER then ERR_BUFF_OVERFLOW else old(|rx|)
      ensures errCnt == if old(|rx|) >= MAX_BUFFER then (old(errCnt) + 1) % 0x1_0000 else old(errCnt)
    {
      ghost var frame, before := rx, buffer[..];
      var overflow := false;
      size := 0;
      while rx != []
        invariant size + |rx| == |frame| && rx == frame[size..]
        invariant forall k :: 0 <= k < MAX_BUFFER ==> buffer[k] == if k < size then frame[k] else before[k]
        invariant overflow <==> size >= MAX_BUFFER
        invariant inCnt == old(inCnt) && errCnt == old(errCnt)
        decreases |rx|
      {
        buffer[size] := rx[0];
        rx := rx[1..];
        size := size + 1;
        if size >= MAX_BUFFER {
          overflow := true;
        }
      }
      assert buffer[..] == frame + before[|frame|..];
      inCnt := (inCnt + 1) % 0x1_0000;
      if overflow {
        errCnt := (errCnt + 1) % 0x1_0000;
        return ERR_BUFF_OVERFLOW;
      }
      return size;
    }

    method ValidateAnswer() returns (r: byte)
      requires Valid() && size >= 7
      modifies this`errCnt
      ensures r == AnswerVerdict(buffer[..size])
      ensures errCnt == if r == 0 then old(errCnt) else (old(errCnt) + 1) % 0x1_0000
    {
      hide Crc;
      var crc := CalcCRC(size - 2);
      assert buffer[..size][..size - 2] == buffer[..size - 2];
      if crc != Word(buffer[size - 2], buffer[size - 1]) {
        errCnt := (errCnt + 1) % 0x1_0000;
        return NO_REPLY;
      }
      if buffer[1] >= 0x80 {
        errCnt := (errCnt + 1) % 0x1_0000;
        return ERR_EXCEPTION;
      }
      if !Supported(buffer[1]) {
        errCnt := (errCnt + 1) % 0x1_0000;
        return EXC_FUNC_CODE;
      }
      return 0;
    }

    method ValidateRequest(regsize: byte) returns (r: byte)
      requires Valid()
      modifies this`errCnt
      ensures r == RequestVerdict(buffer[..], regsize)
      ensures errCnt == if Supported(buffer[1]) then old(errCnt) else (old(errCnt) + 1) % 0x1_0000
    {
      hide LastAddressed, Cut;
      if !Supported(buffer[1]) {
        errCnt := (errCnt + 1) % 0x1_0000;
        return EXC_FUNC_CODE;
      }
      var addr, count := Word(buffer[2], buffer[3]), Word(buffer[4], buffer[5]);
      var last := LastRegister(buffer[1], addr, count);
      return if last > regsize then EXC_ADDR_RANGE else 0;
    }

    /** The switch over the function code, in 16-bit arithmetic cut to a byte. */
    method LastRegister(fct: byte, addr: word, count: word) returns (last: int)
      ensures last == Cut(LastAddressed(fct, addr, count))
    {
      if fct == 1 || fct == 2 || fct == 15 {
        last := addr / 16;
        CutTwice(last + count / 16);
        last := (last + count / 16) % 0x1_0000;
      } else if fct == 5 {
        last := addr / 16;
      } else if fct == 6 {
        last := addr;
      } else {
        last := addr;
        CutTwice(last + count);
        last := (last + count) % 0x1_0000;
      }
      last := last % 256;
    }

    method BuildException(exception: byte)
      requires Valid()
      modifies this`size, buffer
      ensures Valid() && size == 3 && buffer[..3] == [id, ExceptionCode(old(buffer[1])), exception]
    {
      var func := buffer[1];
      buffer[0] := id;
      buffer[1] := ExceptionCode(func);
      buffer[2] := exception;
      size := 3;
    }

    /** `get_FC3`: copies the words of an answer into the master's image. */
    method GetFC3()
      requires Valid() && 3 + 2 * (buffer[2] / 2) <= MAX_BUFFER && buffer[2] / 2 <= regs.Length
          && regs as object != buffer
      modifies regs
      ensures regs[..] == WordsOf(buffer[3..], buffer[2] / 2) + old(regs[buffer[2] / 2..])
    {
      ghost var before := regs[..];
      var n: int := buffer[2] / 2;
      var at := 3;
      for i := 0 to n
        invariant at == 3 + 2 * i
        invariant forall k :: 0 <= k < i ==> regs[k] == WordAt(buffer[3..], k)
        invariant forall k :: i <= k < regs.Length ==> regs[k] == before[k]
      {
        regs[i] := Word(buffer[at], buffer[at + 1]);
        at := at + 2;
      }
    }

    // ---------- Serving requests ----------

    /** `process_FC1`: the coils are packed into the reply from the fourth byte on. */
    method ProcessFC1(table: array<word>) returns (r: int)
      requires Valid() && table as object != buffer && table.Length <= 255
      requires Inside(CoilAt(buffer[..]), Count(buffer[..]), 16 * table.Length)
      requires 5 + BytesFor(Count(buffer[..])) <= MAX_BUFFER
      modifies this`size, this`tx, this`rx, this`outCnt, buffer
      ensures Valid() && rx == [] && r == |tx| && CoilReply(old(buffer[..]), table[..], tx)
    {
      hide Crc, BitRead, BitWrite, CarriesCoils, CoilReply, Frame;
      ghost var f := buffer[..];
      var start, count := Word(buffer[2], buffer[3]), Word(buffer[4], buffer[5]);
      var bytesno := BytesFor(count);
      buffer[2] := bytesno % 256;
      ghost var head := buffer[..3];
      assert head == [f[0], f[1], bytesno % 256];
      PackCoils(table, start, count);
      if count % 8 != 0 {
        size := size + 1;
      }
      BytesOf(count);
      assert size == bytesno + 3;
      r := size + 2;
      ghost var body := buffer[..size];
      assert body[..3] == buffer[..3] == head && body[3..] == buffer[3..size];
      SendTxBuffer();
      CoilsReplied(f, table[..], body);
    }

    /** The loop over the coils; size ends at the byte behind the last full one. */
    method PackCoils(table: array<word>, start: word, count: word)
      requires Valid() && table as object != buffer && table.Length <= 255
      requires Inside(start % 4096, count, 16 * table.Length) && 5 + BytesFor(count) <= MAX_BUFFER
      modifies this`size, buffer
      ensures Valid() && size == 3 + count / 8 && buffer[..3] == old(buffer[..3])
      ensures CarriesCoils(buffer[3..3 + BytesFor(count)], table[..], start % 4096, count)
    {
      hide BitRead, BitWrite, PackedBit, SetPackedBit, Coil;
      ghost var first: int := start % 4096;
      size := 3;
      var bitsno := 0;
      for current := 0 to count
        invariant bitsno == current % 8 && size == 3 + current / 8
        invariant buffer[..3] == old(buffer[..3])
        invariant CarriesCoils(buffer[3..], table[..], first, current)
      {
        var value := ReadCoil(table, start, current);
        ghost var before := buffer[3..];
        WritePacked(bitsno, value);
        forall c | first <= c < first + current + 1 ensures Coil(table[..], c) <==> PackedBit(buffer[3..], c - first) {
          PackedSetPacked(before, current, value, c - first);
        }
        bitsno := bitsno + 1;
        if bitsno > 7 {
          bitsno := 0;
          size := size + 1;
        }
      }
      PackedPrefix(buffer[3..], BytesFor(count));
      assert buffer[3..][..BytesFor(count)] == buffer[3..3 + BytesFor(count)];
    }

    method ReadCoil(table: array<word>, start: word, current: nat) returns (value: bool)
      requires start % 4096 + current < 16 * table.Length && table.Length <= 255
      ensures value == Coil(table[..], start % 4096 + current)
    {
      hide BitRead;
      CoilPlace(start, current);
      var coil := (start + current) % 0x1_0000;
      value := BitRead(table[coil / 16 % 256], coil % 16);
    }

    /** `bitWrite` on the byte being packed. */
    method WritePacked(bitsno: nat, value: bool)
      requires Valid() && 3 <= size < MAX_BUFFER && bitsno < 8
      modifies buffer
      ensures buffer[..3] == old(buffer[..3])
          && buffer[3..] == SetPackedBit(old(buffer[3..]), 8 * (size - 3) + bitsno, value)
    {
      hide BitWrite;
      assert (8 * (size - 3) + bitsno) / 8 == size - 3 && (8 * (size - 3) + bitsno) % 8 == bitsno;
      BitWriteByte(buffer[size], bitsno, value);
      buffer[size] := BitWrite(buffer[size], bitsno, value);
    }

    /** The address and the count of a request, each cut to a byte. */
    method ByteRange() returns (start: byte, regsno: byte)
      requires Valid()
      ensures start == RegisterAt(buffer[..]) && regsno == RegisterCount(buffer[..])
    {
      start, regsno := LowByte(Word(buffer[2], buffer[3])), LowByte(Word(buffer[4], buffer[5]));
    }

    /** `process_FC3` */
    method ProcessFC3(table: array<word>) returns (r: int)
      requires Valid() && table as object != buffer && table.Length <= 255
      requires Inside(RegisterAt(buffer[..]), RegisterCount(buffer[..]), table.Length)
      requires 5 + 2 * RegisterCount(buffer[..]) <= MAX_BUFFER
      modifies this`size, this`tx, this`rx, this`outCnt, buffer
      ensures Valid() && rx == [] && r == |tx| && tx == ReadReply(old(buffer[..]), table[..])
    {
      hide Frame, RegisterAt, RegisterCount, WordBytes, Words;
      var start, regsno := ByteRange();
      BuildWords(table, start, regsno);
      r := size + 2;
      SendTxBuffer();
    }

    /** The reply up to its check bytes. */
    method BuildWords(table: array<word>, start: nat, regsno: nat)
      requires Valid() && table as object != buffer && Inside(start, regsno, table.Length)
      requires 5 + 2 * regsno <= MAX_BUFFER
      modifies this`size, buffer
      ensures Valid() && size == 3 + 2 * regsno
      ensures buffer[..size] ==
              [old(buffer[0]), old(buffer[1]), regsno * 2 % 256] + WordBytes(Words(table[..], start, regsno))
    {
      hide WordBytes, Words;
      ghost var f := buffer[..];
      buffer[2] := regsno * 2 % 256;
      assert buffer[..3] == [f[0], f[1], regsno * 2 % 256];
      PackWords(table, start, regsno);
      assert buffer[..size] == buffer[..3] + buffer[3..size];
    }

    /** The loop over the registers. */
    method PackWords(table: array<word>, start: nat, regsno: nat)
      requires Valid() && table as object != buffer && Inside(start, regsno, table.Length)
      requires 5 + 2 * regsno <= MAX_BUFFER
      modifies this`size, buffer
      ensures Valid() && size == 3 + 2 * regsno && buffer[..3] == old(buffer[..3])
      ensures buffer[3..size] == WordBytes(Words(table[..], start, regsno))
    {
      ghost var words := Words(table[..], start, regsno);
      size := 3;
      for i := start to start + regsno
        invariant size == 3 + 2 * (i - start) && buffer[..3] == old(buffer[..3])
        invariant forall k :: 0 <= k < i - start ==>
                                buffer[3 + 2 * k] == HighByte(words[k]) && buffer[4 + 2 * k] == LowByte(words[k])
      {
        buffer[size] := HighByte(table[i]);
        size := size + 1;
        buffer[size] := LowByte(table[i]);
        size := size + 1;
      }
      SentWords(buffer[3..size], words);
    }

    /** `process_FC5` */
    method ProcessFC5(table: array<word>) returns (r: int)
      requires Valid() && table as object != buffer && table.Length <= 255 && CoilAt(buffer[..]) < 16 * table.Length
      modifies this`size, this`tx, this`rx, this`outCnt, buffer, table
      ensures Valid() && rx == [] && r == |tx| == 8 && tx == Frame(old(buffer[..])[..6])
      ensures table[..] == SetCoil(old(table[..]), CoilAt(old(buffer[..])), old(buffer[4]) == 0xff)
    {
      hide Crc, SetCoil, Word;
      WriteCoil(table, Word(buffer[2], buffer[3]), 0, buffer[4] == 0xff);
      size := 6;
      r := size + 2;
      assert buffer[..6] == buffer[..][..6];
      SendTxBuffer();
    }

    /** `bitWrite` on the register of a coil. */
    method WriteCoil(table: array<word>, start: word, current: nat, value: bool)
      requires start % 4096 + current < 16 * table.Length && table.Length <= 255
      modifies table
      ensures table[..] == SetCoil(old(table[..]), start % 4096 + current, value)
    {
      hide BitWrite;
      CoilPlace(start, current);
      var coil := (start + current) % 0x1_0000;
      var register := coil / 16 % 256;
      table[register] := BitWrite(table[register], coil % 16, value);
    }

    /** `process_FC6` */
    method ProcessFC6(table: array<word>) returns (r: int)
      requires Valid() && table as object != buffer && table.Length <= 255 && RegisterAt(buffer[..]) < table.Length
      modifies this`size, this`tx, this`rx, this`outCnt, buffer, table
      ensures Valid() && rx == [] && r == |tx| == 8 && tx == Frame(old(buffer[..])[..6])
      ensures table[..] == old(table[..])[RegisterAt(old(buffer[..])) := Count(old(buffer[..]))]
    {
      hide Crc;
      var add := Word(buffer[2], buffer[3]) % 256;
      table[add] := Word(buffer[4], buffer[5]);
      size := 6;
      r := size + 2;
      assert buffer[..6] == buffer[..][..6];
      SendTxBuffer();
    }

    /** `process_FC15` */
    method ProcessFC15(table: array<word>) returns (r: int)
      requires Valid() && table as object != buffer && table.Length <= 255
      requires Inside(CoilAt(buffer[..]), Count(buffer[..]), 16 * table.Length)
      requires 7 + BytesFor(Count(buffer[..])) <= MAX_BUFFER
      modifies this`size, this`tx, this`rx, this`outCnt, buffer, table
      ensures Valid() && rx == [] && r == |tx| == 8 && tx == Frame(old(buffer[..])[..6])
      ensures CoilsWritten(old(buffer[..]), old(table[..]), table[..])
    {
      hide Crc, CoilsFrom;
      var start, count := Word(buffer[2], buffer[3]), Word(buffer[4], buffer[5]);
      StoreCoils(table, start, count);
      size := 6;
      r := size + 2;
      assert buffer[..6] == buffer[..][..6];
      assert buffer[..][7..] == buffer[7..];
      SendTxBuffer();
    }

    /** The loop over the coils. */
    method StoreCoils(table: array<word>, start: word, count: word)
      requires Valid() && table as object != buffer && table.Length <= 255
      requires Inside(start % 4096, count, 16 * table.Length) && 7 + BytesFor(count) <= MAX_BUFFER
      modifies table
      ensures CoilsFrom(buffer[7..], old(table[..]), table[..], start % 4096, count)
    {
      hide BitRead, BitWrite, SetCoil;
      ghost var data, coils, first: int := buffer[7..], table[..], start % 4096;
      var bitsno, frameByte := 0, 7;
      for current := 0 to count
        invariant bitsno == current % 8 && frameByte == 7 + current / 8
        invariant CoilsFrom(data, coils, table[..], first, current)
      {
        var value := BitRead(buffer[frameByte], bitsno);
        ghost var before := table[..];
        WriteCoil(table, start, current, value);
        assert value <==> PackedBit(data, current);
        CoilTaken(data, coils, before, first, current, value);
        bitsno := bitsno + 1;
        if bitsno > 7 {
          bitsno := 0;
          frameByte := frameByte + 1;
        }
      }
    }

    /** `process_FC16` */
    method ProcessFC16(table: array<word>) returns (r: int)
      requires Valid() && table as object != buffer && table.Length <= 255
      requires Inside(RegisterAt(buffer[..]), RegisterCount(buffer[..]), table.Length)
      requires 7 + 2 * RegisterCount(buffer[..]) <= MAX_BUFFER
      modifies this`size, this`tx, this`rx, this`outCnt, buffer, table
      ensures Valid() && rx == [] && r == |tx| == 8
      ensures tx == Frame(old(buffer[..])[..4] + [0, RegisterCount(old(buffer[..]))])
      ensures table[..] == RegistersWritten(old(buffer[..]), old(table[..]))
    {
      hide Frame, WordsOf, WithWords, RegisterAt, RegisterCount;
      var start, regsno := ByteRange();
      ghost var f := buffer[..];
      buffer[4] := 0;
      buffer[5] := regsno;
      size := 6;
      assert buffer[..6] == f[..4] + [0, regsno] && buffer[7..] == f[7..];
      StoreWords(table, start, regsno);
      r := size + 2;
      SendTxBuffer();
    }

    /** The loop over the registers. */
    method StoreWords(table: array<word>, start: nat, regsno: nat)
      requires Valid() && table as object != buffer && Inside(start, regsno, table.Length)
      requires 7 + 2 * regsno <= MAX_BUFFER
      modifies table
      ensures table[..] == WithWords(old(table[..]), start, WordsOf(buffer[7..], regsno))
    {
      hide Word, WithWords, WordsOf;
      ghost var words, data := table[..], buffer[7..];
      for i := 0 to regsno
        invariant forall k :: 0 <= k < i ==> table[start + k] == WordAt(data, k)
        invariant forall k :: 0 <= k < table.Length && !(start <= k < start + i) ==> table[k] == words[k]
      {
        var temp := Word(buffer[7 + i * 2], buffer[8 + i * 2]);
        table[start + i] := temp;
        assert temp == WordAt(data, i);
      }
      WordsStored(words, table[..], start, data, regsno);
    }

    /** The switch of `poll` for slaves: every accepted request is served and answered. */
    method Serve(table: array<word>) returns (r: int)
      requires Valid() && table as object != buffer && table.Length <= 255
      requires Supported(buffer[1]) && Fits(buffer[..], table.Length)
      modifies this`size, this`tx, this`rx, this`outCnt, buffer, table
      ensures Valid() && rx == [] && r == |tx| && Served(old(buffer[..]), old(table[..]), table[..], tx)
    {
      hide Crc, RegisterAt, RegisterCount, CoilAt, Count, CoilReply, CoilsWritten, RegistersWritten, ReadReply, SetCoil,
           Frame;
      var fct := buffer[1];
      if fct == 1 || fct == 2 {
        r := ProcessFC1(table);
      } else if fct == 3 || fct == 4 {
        r := ProcessFC3(table);
      } else if fct == 5 {
        r := ProcessFC5(table);
      } else if fct == 6 {
        r := ProcessFC6(table);
      } else if fct == 15 {
        r := ProcessFC15(table);
      } else {
        r := ProcessFC16(table);
      }
    }

    /** The buffer once the received bytes have been read into it. */
    ghost function Incoming(): (f: seq<byte>)
      requires Valid() && |rx| <= MAX_BUFFER
      reads this, buffer
      ensures |f| == MAX_BUFFER
    {
      rx + buffer[|rx|..]
    }

    /** `poll` of a slave: short bursts stay in the queue, requests for others are dropped, bad ones are answered with
        an exception, the rest is served. */
    method PollSlave(table: array<word>) returns (r: int)
      requires Valid() && |rx| <= MAX_BUFFER && table as object != buffer && table.Length <= 255
      requires |rx| >= 8 && rx[0] == id && RequestVerdict(Incoming(), table.Length) == 0 ==>
          Fits(Incoming(), table.Length)
      modifies this, buffer, table
      ensures Valid() && id == old(id) && state == old(state) && (old(|rx|) >= 8 ==> rx == [])
      ensures old(|rx|) < 8 ==>
                && r == 0 && rx == old(rx) && tx == old(tx)
                && table[..] == old(table[..]) && buffer[..] == old(buffer[..])
      ensures old(|rx| >= 8 && rx[0] != id) ==> r == 0 && tx == old(tx) && table[..] == old(table[..])
      ensures old(|rx|) >= 8 ==>
                var full := if old(|rx|) >= MAX_BUFFER then 1 else 0;
                var unknown := if old(rx[0] == id && !Supported(rx[1])) then 1 else 0;
                errCnt == (old(errCnt) + full + unknown) % 0x1_0000
      ensures old(|rx| >= 8 && rx[0] == id) ==>
                var f, v := old(Incoming()), RequestVerdict(old(Incoming()), table.Length);
                && lastError == v
                && if v != 0 then r == v && tx == Frame([id, ExceptionCode(f[1]), v]) && table[..] == old(table[..])
                   else r == |tx| && Served(f, old(table[..]), table[..], tx)
    {
      hide RequestVerdict, Fits, Served, Frame;
      regs := table;
      if |rx| < 8 {
        return 0;
      }
      ghost var f := Incoming();
      var got := GetRxBuffer();
      assert buffer[..] == f;
      lastError := got;
      if buffer[0] != id {
        return 0;
      }
      var exception := ValidateRequest(table.Length);
      if exception != 0 {
        BuildException(exception);
        SendTxBuffer();
        lastError := exception;
        return exception;
      }
      lastError := 0;
      AcceptedSupported(f, table.Length);
      r := Serve(table);
    }

    // ---------- The master ----------

    /** `query` */
    method Query(t: Telegram) returns (r: int)
      requires Valid() && t.reg as object != buffer
      requires t.fct == 5 || t.fct == 6 ==> t.reg.Length > 0
      requires t.fct == 16 ==> t.count <= t.reg.Length && 9 + 2 * t.count <= MAX_BUFFER
      requires !Supported(t.fct) ==> size + 2 <= MAX_BUFFER
      modifies this, buffer
      ensures Valid() && id == old(id) && errCnt == old(errCnt)
      ensures r == if old(id) != 0 then -2
                   else if old(state) != Idle then -1
                   else if t.id == 0 || t.id > 247 then -3
                   else 0
      ensures r != 0 ==>
                && state == old(state) && tx == old(tx) && rx == old(rx)
                && regs == old(regs) && buffer[..] == old(buffer[..])
      ensures r == 0 ==> state == Waiting && rx == [] && regs == t.reg && size == 0 && |tx| <= MAX_BUFFER
      ensures r == 0 && Supported(t.fct) ==> tx == Frame(QueryBody(t.id, t.fct, t.addr, t.count, t.reg[..]))
    {
      if id != 0 {
        return -2;
      }
      if state != Idle {
        return -1;
      }
      if t.id == 0 || t.id > 247 {
        return -3;
      }
      regs := t.reg;
      buffer[0], buffer[1] := t.id, t.fct;
      buffer[2], buffer[3] := HighByte(t.addr), LowByte(t.addr);
      BuildQuery(t);
      hide Frame, QueryBody;
      SendTxBuffer();
      state := Waiting;
      return 0;
    }

    /** The switch of `query`: the frame up to its check bytes. For other functions nothing is added. */
    method BuildQuery(t: Telegram)
      requires Valid() && t.reg as object != buffer
      requires buffer[..4] == [t.id, t.fct, HighByte(t.addr), LowByte(t.addr)]
      requires t.fct == 5 || t.fct == 6 ==> t.reg.Length > 0
      requires t.fct == 16 ==> t.count <= t.reg.Length && 9 + 2 * t.count <= MAX_BUFFER
      requires !Supported(t.fct) ==> size + 2 <= MAX_BUFFER
      modifies this`size, buffer
      ensures Valid() && size + 2 <= MAX_BUFFER
      ensures Supported(t.fct) ==> buffer[..size] == QueryBody(t.id, t.fct, t.addr, t.count, t.reg[..])
    {
      hide HighByte, LowByte, WordBytes, AnnouncedBytes;
      ghost var head := buffer[..4];
      if t.fct <= 4 && t.fct >= 1 {
        buffer[4], buffer[5] := HighByte(t.count), LowByte(t.count);
        size := 6;
        assert buffer[..6] == head + [buffer[4], buffer[5]];
      } else if t.fct == 5 {
        buffer[4], buffer[5] := if t.reg[0] > 0 then 0xff else 0, 0;
        size := 6;
        CoilValue();
        assert buffer[..6] == head + [buffer[4], buffer[5]];
      } else if t.fct == 6 {
        buffer[4], buffer[5] := HighByte(t.reg[0]), LowByte(t.reg[0]);
        size := 6;
        assert buffer[..6] == head + [buffer[4], buffer[5]];
      } else if t.fct == 15 {
        var bytesno := CoilBytes(t.count);
        buffer[4], buffer[5] := HighByte(t.count), LowByte(t.count);
        buffer[6] := bytesno;
        size := 7;
        assert buffer[..7] == head + [buffer[4], buffer[5]] + [buffer[6]];
      } else if t.fct == 16 {
        buffer[4], buffer[5] := HighByte(t.count), LowByte(t.count);
        buffer[6] := t.count * 2 % 256;
        assert buffer[..7] == head + [buffer[4], buffer[5]] + [buffer[6]];
        QueryWords(t.reg, t.count);
        assert buffer[..size] == buffer[..7] + buffer[7..size];
        assert t.reg[..][..t.count] == t.reg[..t.count];
      }
    }

    /** The byte count of function 15: two for every full register, one more for the rest. */
    method CoilBytes(count: word) returns (bytesno: byte)
      ensures bytesno == AnnouncedBytes(count)
    {
      var regsno: int := count / 16 % 256;
      var n: int := regsno * 2 % 256;
      if count % 16 != 0 {
        n := (n + 1) % 256;
        regsno := (regsno + 1) % 256;
      }
      bytesno := n;
    }

    /** The loop over the registers of a query. */
    method QueryWords(image: array<word>, n: nat)
      requires Valid() && image as object != buffer && n <= image.Length && 9 + 2 * n <= MAX_BUFFER
      modifies this`size, buffer
      ensures Valid() && size == 7 + 2 * n && buffer[..7] == old(buffer[..7])
      ensures buffer[7..size] == WordBytes(image[..n])
    {
      hide HighByte, LowByte, WordBytes;
      size := 7;
      for i := 0 to n
        invariant size == 7 + 2 * i && buffer[..7] == old(buffer[..7])
        invariant forall k :: 0 <= k < i ==>
                                buffer[7 + 2 * k] == HighByte(image[k]) && buffer[8 + 2 * k] == LowByte(image[k])
      {
        buffer[size] := HighByte(image[i]);
        size := size + 1;
        buffer[size] := LowByte(image[i]);
        size := size + 1;
      }
      SentWords(buffer[7..size], image[..n]);
    }

    /** `poll` of a master. The clock enters as two answers: the query timed out; no byte has come for T35. */
    method PollMaster(timedOut: bool, frameEnded: bool) returns (r: int)
      requires Valid() && |rx| <= MAX_BUFFER && regs as object != buffer
      requires ImageFits(rx, regs.Length)
      modifies this, buffer, regs
      ensures Valid() && id == old(id) && regs == old(regs) && tx == old(tx)
      ensures timedOut ==>
                && r == 0 && state == Idle && lastError == NO_REPLY && errCnt == (old(errCnt) + 1) % 0x1_0000
                && rx == old(rx) && regs[..] == old(regs[..])
      ensures !timedOut && (old(rx) == [] || !frameEnded) ==>
                r == 0 && state == old(state) && errCnt == old(errCnt) && rx == old(rx) && regs[..] == old(regs[..])
      ensures !timedOut && old(rx) != [] && frameEnded ==>
                && state == Idle && rx == [] && errCnt == (old(errCnt) + Faults(old(rx))) % 0x1_0000
                && Polled(old(rx), old(regs[..]), r, regs[..])
    {
      hide AnswerVerdict, ImageTaken;
      if timedOut {
        state := Idle;
        lastError := NO_REPLY;
        errCnt := (errCnt + 1) % 0x1_0000;
        return 0;
      }
      if rx == [] || !frameEnded {
        return 0;
      }
      ghost var f := rx;
      var got := GetRxBuffer();
      state := Idle;
      if got < 7 {
        errCnt := (errCnt + 1) % 0x1_0000;
        return got;
      }
      assert buffer[..size] == f;
      var exception := ValidateAnswer();
      if exception != 0 {
        return SignedByte(exception);
      }
      TakeAnswer(f);
      return size;
    }

    /** The switch of `poll` for masters. */
    method TakeAnswer(ghost f: seq<byte>)
      requires Valid() && regs as object != buffer && 7 <= size && buffer[..size] == f
      requires |f| < MAX_BUFFER && AnswerVerdict(f) == 0 && ImageFits(f, regs.Length)
      modifies regs
      ensures if f[1] == 3 || f[1] == 4 then ImageTaken(f, old(regs[..]), regs[..]) else regs[..] == old(regs[..])
    {
      hide AnswerVerdict;
      assert buffer[1] == f[1] && buffer[2] == f[2];
      if buffer[1] == 3 || buffer[1] == 4 {
        GetFC3();
        forall i: nat | i < f[2] / 2 && i < regs.Length && 2 * i + 5 <= |f| ensures regs[i] == WordAt(f[3..], i) {
          assert regs[i] == regs[..][i];
        }
      }
    }
  }

  method EightShifts(temp0: bv16) returns (temp: bv16)
    ensures temp == Shifts(temp0, 8)
  {
    hide Xor, Half, Odd;
    temp := temp0;
    for j := 1 to 9
      invariant Shifts(temp, 9 - j) == Shifts(temp0, 8)
    {
      var flag := Odd(temp);
      temp := Half(temp);
      if flag {
        temp := Xor(temp, POLYNOMIAL);
      }
    }
  }

  /** Storing the next coil extends the range that has been taken over. */
  lemma CoilTaken(data: seq<byte>, coils: seq<word>, table: seq<word>, a: nat, n: nat, value: bool)
    requires n < 8 * |data| && a + n < 16 * |table| && CoilsFrom(data, coils, table, a, n) && (value <==>
        PackedBit(data, n))
    ensures CoilsFrom(data, coils, SetCoil(table, a + n, value), a, n + 1)
  {
    hide Coil, SetCoil, PackedBit;
    var table' := SetCoil(table, a + n, value);
    forall c: nat | c < 16 * |coils|
      ensures Coil(table', c) <==> if a <= c < a + n + 1 then PackedBit(data, c - a) else Coil(coils, c)
    {
      CoilSetCoil(table, a + n, value, c);
      if c == a + n {
        assert Coil(table', c) == value;
      } else {
        assert Coil(table', c) == Coil(table, c);
      }
    }
  }

  lemma CoilValue()
    ensures HighByte(0xff00) == 0xff && LowByte(0xff00) == 0 && HighByte(0) == 0 && LowByte(0) == 0
  {
  }

  lemma AcceptedSupported(f: seq<byte>, regsize: byte)
    requires |f| >= 6 && RequestVerdict(f, regsize) == 0
    ensures Supported(f[1])
  {
  }

  /** Bytes written word by word are the words' bytes. */
  lemma {:induction false} SentWords(data: seq<byte>, words: seq<word>)
    requires |data| == 2 * |words|
    requires forall k :: 0 <= k < |words| ==> data[2 * k] == HighByte(words[k]) && data[2 * k + 1] == LowByte(words[k])
    ensures data == WordBytes(words)
  {
    hide HighByte, LowByte;
    if words != [] {
      var n := |words| - 1;
      SentWords(data[..2 * n], words[..n]);
      assert data == data[..2 * n] + [data[2 * n], data[2 * n + 1]];
    }
  }
}
