/** A master and a slave on one line: what a whole exchange of query, service and answer leaves behind. */
module ModbusExchange {
  import opened ModbusCrc
  import opened ModbusBits
  import opened Modbus
  import opened ModbusResidue

  /** What one station sent arrives at the other. */
  method Deliver(from: Station, to: Station)
    requires from != to
    modifies to`rx
    ensures to.rx == old(to.rx) + from.tx
    ensures old(to.rx) == [] ==> to.rx == from.tx
  {
    to.rx := to.rx + from.tx;
  }

  /** A master and a slave that share no memory, both between exchanges. */
  ghost predicate Connected(master: Station, slave: Station, table: array<word>)
    reads master, slave
  {
    && master.Valid() && slave.Valid() && master != slave
    && master.buffer != slave.buffer && table as object != master.buffer && table as object != slave.buffer
    && master.id == 0 && master.state == Idle && master.rx == [] && 1 <= slave.id <= 247 && slave.rx == []
  }

  /** The telegram goes to this slave and its image is memory of its own. */
  ghost predicate Addressed(t: Telegram, master: Station, slave: Station, table: array<word>)
    reads slave
  {
    t.id == slave.id && t.reg != table && t.reg as object != master.buffer && t.reg as object != slave.buffer
  }

  /** The master's half of an exchange: the query goes to the slave. */
  method Ask(master: Station, slave: Station, table: array<word>, t: Telegram)
    requires Connected(master, slave, table) && Addressed(t, master, slave, table) && Supported(t.fct)
    requires t.fct == 5 || t.fct == 6 ==> t.reg.Length > 0
    requires t.fct == 16 ==> t.count <= t.reg.Length && 9 + 2 * t.count <= MAX_BUFFER
    modifies master, slave`rx, master.buffer
    ensures master.Valid() && slave.Valid() && master.id == 0 && master.state == Waiting && master.rx == []
    ensures master.regs == t.reg && master.errCnt == old(master.errCnt)
    ensures |slave.rx| <= MAX_BUFFER && slave.rx == Frame(QueryBody(t.id, t.fct, t.addr, t.count, t.reg[..]))
  {
    hide Frame, QueryBody;
    var r := master.Query(t);
    Deliver(master, slave);
  }

  /** Reading registers: afterwards the image is the addressed part of the table. Answers to empty reads are too short
      for the master. */
  method ReadExchange(master: Station, slave: Station, table: array<word>, t: Telegram) returns (r: int)
    requires Connected(master, slave, table) && Addressed(t, master, slave, table) && table.Length <= 255
    requires (t.fct == 3 || t.fct == 4) && t.addr + t.count <= table.Length
    requires t.count <= t.reg.Length && 5 + 2 * t.count < MAX_BUFFER
    modifies master, slave, master.buffer, slave.buffer, table, t.reg
    ensures Connected(master, slave, table) && table[..] == old(table[..]) && r == 5 + 2 * t.count
    ensures t.count > 0 ==>
              && t.reg[..] == table[t.addr..t.addr + t.count] + old(t.reg[t.count..])
              && master.errCnt == old(master.errCnt)
    ensures t.count == 0 ==> t.reg[..] == old(t.reg[..]) && master.errCnt == (old(master.errCnt) + 1) % 0x1_0000
  {
    hide Crc, Frame, QueryBody, RequestVerdict, Fits, Served, ReadReply, AnswerVerdict, ImageFits, Polled, Faults,
        RegisterAt, RegisterCount, WordBytes;
    ghost var words, image := table[..], t.reg[..];
    Ask(master, slave, table, t);
    ghost var f := slave.Incoming();
    ReadRequest(f, slave.rx, t, table.Length, image);
    ServeRead(slave, table, f);
    Deliver(slave, master);
    ReadAnswer(f, words, master.rx, t.reg.Length);
    r := master.PollMaster(false, true);
    ReadImage(f, words, slave.tx, image, t.reg[..], r);
    assert t.count > 0 ==> Words(words, t.addr, t.count) == words[t.addr..t.addr + t.count];
  }

  /** The slave's half of a read. */
  method ServeRead(slave: Station, table: array<word>, ghost f: seq<byte>)
    requires slave.Valid() && table as object != slave.buffer && table.Length <= 255
    requires |slave.rx| == 8 && f == slave.Incoming() && f[0] == slave.id && (f[1] == 3 || f[1] == 4)
    requires RequestVerdict(f, table.Length) == 0 && Fits(f, table.Length)
    modifies slave, slave.buffer, table
    ensures slave.Valid() && slave.id == old(slave.id) && slave.rx == [] && table[..] == old(table[..])
    ensures Inside(RegisterAt(f), RegisterCount(f), table.Length) && slave.tx == ReadReply(f, table[..])
  {
    hide RequestVerdict, Fits, Served, ReadReply, Frame;
    ghost var words := table[..];
    var r := slave.PollSlave(table);
    ServedIs(f, words, table[..], slave.tx);
  }

  /** A register query as the slave sees it: accepted, within the table, with the address and count of the telegram. */
  lemma ReadRequest(f: seq<byte>, sent: seq<byte>, t: Telegram, n: nat, image: seq<word>)
    requires |f| == MAX_BUFFER && sent <= f && (t.fct == 3 || t.fct == 4) && n <= 255
    requires sent == Frame(QueryBody(t.id, t.fct, t.addr, t.count, image))
    requires t.addr + t.count <= n && 5 + 2 * t.count < MAX_BUFFER
    ensures |sent| == 8 && f[0] == t.id && f[1] == t.fct && RegisterAt(f) == t.addr && RegisterCount(f) == t.count
    ensures RequestVerdict(f, n) == 0 && Fits(f, n)
  {
    hide Crc, RequestVerdict, Fits, Addr, Count, RegisterAt, RegisterCount;
    assert sent[..6] == Header(t.id, t.fct, t.addr, t.count);
    HeaderRead(f, t.id, t.fct, t.addr, t.count);
    RegisterRangeExact(f, n);
    NothingCut(f, n);
    RegistersFit(f, n);
  }

  lemma RegistersFit(f: seq<byte>, n: nat)
    requires |f| == MAX_BUFFER && Inside(RegisterAt(f), RegisterCount(f), n)
    requires if f[1] == 16 then 7 + 2 * RegisterCount(f) <= MAX_BUFFER
             else (f[1] == 3 || f[1] == 4) && 5 + 2 * RegisterCount(f) <= MAX_BUFFER
    ensures Fits(f, n)
  {
    hide RegisterAt, RegisterCount, CoilAt, Count, BytesFor;
  }

  /** Inside a table nothing is cut. */
  lemma NothingCut(f: seq<byte>, n: nat)
    requires |f| >= 6 && Addr(f) + Count(f) <= n <= 255
    ensures RegisterAt(f) == Addr(f) && RegisterCount(f) == Count(f)
  {
    hide Addr, Count, RegisterAt, RegisterCount;
    RegistersCut(f);
    Small(Addr(f));
    Small(Count(f));
  }

  /** The slave reads back what the master wrote into a header. */
  lemma HeaderRead(f: seq<byte>, id: byte, fct: byte, addr: word, count: word)
    requires |f| >= 6 && Header(id, fct, addr, count) <= f
    ensures f[0] == id && f[1] == fct && Addr(f) == addr && Count(f) == count
  {
    assert forall i :: 0 <= i < 6 ==> f[i] == Header(id, fct, addr, count)[i];
  }

  /** What `Served` says of the functions that read and of coil writes. */
  lemma ServedIs(f: seq<byte>, table: seq<word>, table': seq<word>, sent: seq<byte>)
    requires |f| == MAX_BUFFER && Fits(f, |table|) && Served(f, table, table', sent)
    ensures f[1] == 1 || f[1] == 2 ==>
              table' == table && Inside(CoilAt(f), Count(f), 16 * |table|) && CoilReply(f, table, sent)
    ensures f[1] == 3 || f[1] == 4 ==>
              table' == table && Inside(RegisterAt(f), RegisterCount(f), |table|) && sent == ReadReply(f, table)
    ensures f[1] == 15 ==> 7 + BytesFor(Count(f)) <= MAX_BUFFER && CoilsWritten(f, table, table')
    ensures f[1] == 15 ==> Inside(CoilAt(f), Count(f), 16 * |table|)
  {
    hide CoilAt, Count, RegisterAt, RegisterCount, BytesFor, CoilReply, CoilsWritten, ReadReply, RegistersWritten;
  }

  /** The reply passes the master's checks and announces what it carries. */
  lemma ReadAnswer(f: seq<byte>, table: seq<word>, sent: seq<byte>, n: nat)
    requires |f| == MAX_BUFFER && (f[1] == 3 || f[1] == 4) && Inside(RegisterAt(f), RegisterCount(f), |table|)
    requires sent == ReadReply(f, table) && 5 + 2 * RegisterCount(f) < MAX_BUFFER && RegisterCount(f) <= n
    ensures |sent| == 5 + 2 * RegisterCount(f) && ImageFits(sent, n)
    ensures AnswerVerdict(sent) == 0 && sent[1] == f[1] && sent[2] == 2 * RegisterCount(f)
    ensures sent[3..|sent| - 2] == WordBytes(Words(table, RegisterAt(f), RegisterCount(f)))
  {
    hide Crc, RegisterAt, RegisterCount, WordBytes, Words, AnswerVerdict;
    var words := WordBytes(Words(table, RegisterAt(f), RegisterCount(f)));
    var body := [f[0], f[1], RegisterCount(f) * 2 % 256] + words;
    assert body[1] == f[1] && body[2] == 2 * RegisterCount(f) && body[3..] == words;
    assert forall i :: 0 <= i < |body| ==> sent[i] == body[i];
    assert sent[3..|sent| - 2] == words;
    FrameChecks(body);
  }

  lemma ReadImage(f: seq<byte>, table: seq<word>, sent: seq<byte>, image: seq<word>, image': seq<word>, r: int)
    requires |f| == MAX_BUFFER && (f[1] == 3 || f[1] == 4) && Inside(RegisterAt(f), RegisterCount(f), |table|)
    requires sent == ReadReply(f, table) && 5 + 2 * RegisterCount(f) < MAX_BUFFER && RegisterCount(f) <= |image|
    requires Polled(sent, image, r, image')
    ensures r == 5 + 2 * RegisterCount(f) && Faults(sent) == if RegisterCount(f) == 0 then 1 else 0
    ensures image' == if RegisterCount(f) == 0 then image
                      else Words(table, RegisterAt(f), RegisterCount(f)) + image[RegisterCount(f)..]
  {
    hide AnswerVerdict, ReadReply, WordBytes, WordAt;
    ReadAnswer(f, table, sent, |image|);
    if RegisterCount(f) > 0 {
      var n: int := RegisterCount(f);
      var words := Words(table, RegisterAt(f), n);
      hide RegisterAt, RegisterCount, Words;
      WordsRoundTrip(words);
      forall i | 0 <= i < n ensures image'[i] == words[i] {
        WordOfAnswer(sent, words, i);
      }
      assert image' == words + image[n..];
    }
  }

  lemma WordOfAnswer(sent: seq<byte>, words: seq<word>, i: nat)
    requires |sent| == 5 + 2 * |words| && WordsOf(sent[3..|sent| - 2], |words|) == words && i < |words|
    ensures WordAt(sent[3..], i) == words[i]
  {
    hide Word;
    var data := sent[3..|sent| - 2];
    assert WordAt(data, i) == WordsOf(data, |words|)[i];
    assert sent[3..][2 * i] == data[2 * i] && sent[3..][2 * i + 1] == data[2 * i + 1];
  }

  // ---------- Writing registers ----------

  /** Writing registers: afterwards the addressed registers are the image and the others are as before. */
  method WriteExchange(master: Station, slave: Station, table: array<word>, t: Telegram) returns (r: int)
    requires Connected(master, slave, table) && Addressed(t, master, slave, table) && table.Length <= 255
    requires t.fct == 16 && t.addr + t.count <= table.Length
    requires t.count <= t.reg.Length && 9 + 2 * t.count <= MAX_BUFFER
    modifies master, slave, master.buffer, slave.buffer, table, t.reg
    ensures Connected(master, slave, table) && r == 8 && master.errCnt == old(master.errCnt)
    ensures t.reg[..] == old(t.reg[..])
    ensures table[..] == old(table[..t.addr]) + t.reg[..t.count] + old(table[t.addr + t.count..])
  {
    hide Crc, Frame, QueryBody, RequestVerdict, Fits, Served, Acknowledges, ImageFits, Polled, Faults, RegisterAt,
         RegisterCount, RegistersWritten;
    ghost var words, image := table[..], t.reg[..];
    Ask(master, slave, table, t);
    ghost var f := slave.Incoming();
    WriteRequest(f, slave.rx, t, words, image);
    ServeWrite(slave, table, f);
    Deliver(slave, master);
    Acknowledged(master.rx, 16, image);
    r := master.PollMaster(false, true);
    AcknowledgementPolled(slave.tx, 16, image, r, t.reg[..]);
    assert table[..] == words[..t.addr] + image[..t.count] + words[t.addr + t.count..];
  }

  /** A write query as the slave sees it: accepted, and serving it puts the image into the table. */
  lemma WriteRequest(f: seq<byte>, sent: seq<byte>, t: Telegram, table: seq<word>, image: seq<word>)
    requires |f| == MAX_BUFFER && sent <= f && t.fct == 16 && t.count <= |image| && |table| <= 255
    requires t.addr + t.count <= |table| && 9 + 2 * t.count <= MAX_BUFFER
    requires sent == Frame(QueryBody(t.id, t.fct, t.addr, t.count, image))
    ensures |sent| >= 8 && f[0] == t.id && f[1] == 16 && RegisterAt(f) == t.addr && RegisterCount(f) == t.count
    ensures RequestVerdict(f, |table|) == 0 && Fits(f, |table|)
    ensures RegistersWritten(f, table) == table[..t.addr] + image[..t.count] + table[t.addr + t.count..]
  {
    hide Crc, RequestVerdict, Fits, WordBytes, WordsOf, WithWords, Addr, Count, RegisterAt, RegisterCount;
    var n: int, data := t.count, WordBytes(image[..t.count]);
    assert sent[..6] == Header(t.id, t.fct, t.addr, t.count);
    HeaderRead(f, t.id, t.fct, t.addr, t.count);
    assert sent[7..7 + 2 * n] == data;
    assert f[7..][..2 * n] == data;
    WordsRoundTrip(image[..n]);
    WordsPrefix(f[7..], n);
    RegisterRangeExact(f, |table|);
    NothingCut(f, |table|);
    RegistersFit(f, |table|);
    WithWordsIs(table, t.addr, image[..n]);
  }

  lemma WithWordsIs(table: seq<word>, a: nat, words: seq<word>)
    requires a + |words| <= |table|
    ensures WithWords(table, a, words) == table[..a] + words + table[a + |words|..]
  {
    if words == [] {
      assert table[..a] + words + table[a..] == table;
    }
  }

  lemma WordsPrefix(data: seq<byte>, n: nat)
    requires 2 * n <= |data|
    ensures WordsOf(data, n) == WordsOf(data[..2 * n], n)
  {
    forall i | 0 <= i < n ensures WordAt(data, i) == WordAt(data[..2 * n], i) {
    }
  }

  /** The slave's half of a write. */
  method ServeWrite(slave: Station, table: array<word>, ghost f: seq<byte>)
    requires slave.Valid() && table as object != slave.buffer && table.Length <= 255
    requires 8 <= |slave.rx| <= MAX_BUFFER && f == slave.Incoming() && f[0] == slave.id && f[1] == 16
    requires RequestVerdict(f, table.Length) == 0 && Fits(f, table.Length)
    modifies slave, slave.buffer, table
    ensures slave.Valid() && slave.id == old(slave.id) && slave.rx == []
    ensures table[..] == RegistersWritten(f, old(table[..])) && Acknowledges(slave.tx, 16)
  {
    hide RequestVerdict, Fits, Served, RegistersWritten, Frame, Acknowledges;
    ghost var words := table[..];
    var r := slave.PollSlave(table);
    ServedWrite(f, words, table[..], slave.tx);
  }

  /** A checked frame of 8 bytes that repeats the function code. */
  ghost predicate Acknowledges(sent: seq<byte>, fct: byte) {
    |sent| == 8 && AnswerVerdict(sent) == 0 && sent[1] == fct
  }

  lemma ServedWrite(f: seq<byte>, table: seq<word>, table': seq<word>, sent: seq<byte>)
    requires |f| == MAX_BUFFER && Fits(f, |table|) && Served(f, table, table', sent) && f[1] == 16
    ensures table' == RegistersWritten(f, table) && Acknowledges(sent, 16)
  {
    hide Crc, AnswerVerdict, RegistersWritten;
    var body: seq<byte> := f[..4] + [0, RegisterCount(f)];
    assert body[1] == 16;
    FrameChecks(body);
  }

  lemma Acknowledged(sent: seq<byte>, fct: byte, image: seq<word>)
    requires Acknowledges(sent, fct) && fct != 3 && fct != 4
    ensures sent != [] && |sent| <= MAX_BUFFER && ImageFits(sent, |image|) && Faults(sent) == 0
  {
    hide AnswerVerdict;
  }

  lemma AcknowledgementPolled(sent: seq<byte>, fct: byte, image: seq<word>, r: int, image': seq<word>)
    requires Acknowledges(sent, fct) && fct != 3 && fct != 4 && Polled(sent, image, r, image')
    ensures r == 8 && image' == image
  {
    hide AnswerVerdict;
  }

  // ---------- Writing one coil or one register ----------

  /** Writing one register: it becomes the first word of the image, and no other register changes. */
  method RegisterExchange(master: Station, slave: Station, table: array<word>, t: Telegram) returns (r: int)
    requires Connected(master, slave, table) && Addressed(t, master, slave, table) && table.Length <= 255
    requires t.fct == 6 && t.reg.Length > 0 && t.addr < table.Length
    modifies master, slave, master.buffer, slave.buffer, table, t.reg
    ensures Connected(master, slave, table) && r == 8 && master.errCnt == old(master.errCnt)
    ensures t.reg[..] == old(t.reg[..]) && table[..] == old(table[..])[t.addr := t.reg[0]]
  {
    hide Crc, Frame, QueryBody, RequestVerdict, Fits, Served, Acknowledges, ImageFits, Polled, Faults;
    hide RegisterAt, Count;
    ghost var words, image := table[..], t.reg[..];
    Ask(master, slave, table, t);
    ghost var f := slave.Incoming();
    RegisterRequest(f, slave.rx, t, |words|, image);
    var _ := slave.PollSlave(table);
    ServedRegister(f, words, table[..], slave.tx);
    Deliver(slave, master);
    Acknowledged(master.rx, 6, image);
    r := master.PollMaster(false, true);
    AcknowledgementPolled(slave.tx, 6, image, r, t.reg[..]);
    assert table[..] == words[t.addr := image[0]];
  }

  /** Writing one coil: it is set if and only if the first word of the image is positive, and no other coil changes. */
  method CoilExchange(master: Station, slave: Station, table: array<word>, t: Telegram) returns (r: int)
    requires Connected(master, slave, table) && Addressed(t, master, slave, table) && table.Length <= 255
    requires t.fct == 5 && t.reg.Length > 0 && t.addr < 16 * table.Length
    modifies master, slave, master.buffer, slave.buffer, table, t.reg
    ensures Connected(master, slave, table) && r == 8 && master.errCnt == old(master.errCnt)
    ensures t.reg[..] == old(t.reg[..])
    ensures forall c: nat :: c < 16 * table.Length ==>
                               (Coil(table[..], c) <==> if c == t.addr then t.reg[0] > 0 else Coil(old(table[..]), c))
  {
    hide Crc, Frame, QueryBody, RequestVerdict, Fits, Served, Acknowledges, ImageFits, Polled, Faults;
    hide CoilAt, Coil, SetCoil;
    ghost var words, image := table[..], t.reg[..];
    Ask(master, slave, table, t);
    ghost var f := slave.Incoming();
    SingleCoilRequest(f, slave.rx, t, |words|, image);
    var _ := slave.PollSlave(table);
    ServedCoil(f, words, table[..], slave.tx);
    ghost var coils := table[..];
    Deliver(slave, master);
    Acknowledged(master.rx, 5, image);
    r := master.PollMaster(false, true);
    AcknowledgementPolled(slave.tx, 5, image, r, t.reg[..]);
    assert table[..] == coils == SetCoil(words, t.addr, image[0] > 0);
    forall c: nat | c < 16 * table.Length
      ensures Coil(table[..], c) <==> if c == t.addr then t.reg[0] > 0 else Coil(words, c)
    {
      CoilSetCoil(words, t.addr, image[0] > 0, c);
    }
  }

  /** The query for one register as the slave sees it. */
  lemma RegisterRequest(f: seq<byte>, sent: seq<byte>, t: Telegram, n: nat, image: seq<word>)
    requires |f| == MAX_BUFFER && sent <= f && t.fct == 6 && image != [] && t.addr < n <= 255
    requires sent == Frame(QueryBody(t.id, t.fct, t.addr, t.count, image))
    ensures |sent| == 8 && f[0] == t.id && f[1] == 6 && RegisterAt(f) == t.addr && Count(f) == image[0]
    ensures RequestVerdict(f, n) == 0 && Fits(f, n)
  {
    hide Crc, RequestVerdict, Addr, Count, RegisterAt, RegisterCount, CoilAt, BytesFor;
    assert sent[..6] == Header(t.id, t.fct, t.addr, image[0]);
    HeaderRead(f, t.id, t.fct, t.addr, image[0]);
    RegistersCut(f);
    Small(Addr(f));
    SingleRangeExact(f, n);
  }

  /** The query for one coil as the slave sees it. */
  lemma SingleCoilRequest(f: seq<byte>, sent: seq<byte>, t: Telegram, n: nat, image: seq<word>)
    requires |f| == MAX_BUFFER && sent <= f && t.fct == 5 && image != [] && t.addr < 16 * n && n <= 255
    requires sent == Frame(QueryBody(t.id, t.fct, t.addr, t.count, image))
    ensures |sent| == 8 && f[0] == t.id && f[1] == 5 && CoilAt(f) == t.addr && (f[4] == 0xff <==> image[0] > 0)
    ensures RequestVerdict(f, n) == 0 && Fits(f, n)
  {
    hide Crc, RequestVerdict, Addr, Count, RegisterAt, RegisterCount, BytesFor;
    var value: word := if image[0] > 0 then 0xff00 else 0;
    assert sent[..6] == Header(t.id, t.fct, t.addr, value);
    HeaderRead(f, t.id, t.fct, t.addr, value);
    assert f[4] == sent[..6][4] == HighByte(value);
    SmallCoil(Addr(f));
    SingleCoilRangeExact(f, n);
  }

  lemma SmallCoil(x: nat)
    requires x < 4096
    ensures x % 4096 == x
  {
  }

  lemma ServedRegister(f: seq<byte>, table: seq<word>, table': seq<word>, sent: seq<byte>)
    requires |f| == MAX_BUFFER && Fits(f, |table|) && Served(f, table, table', sent) && f[1] == 6
    ensures RegisterAt(f) < |table| && table' == table[RegisterAt(f) := Count(f)] && Acknowledges(sent, 6)
  {
    hide Crc, AnswerVerdict, RegisterAt, Count, CoilAt, BytesFor;
    Echoed(f);
  }

  lemma ServedCoil(f: seq<byte>, table: seq<word>, table': seq<word>, sent: seq<byte>)
    requires |f| == MAX_BUFFER && Fits(f, |table|) && Served(f, table, table', sent) && f[1] == 5
    ensures CoilAt(f) < 16 * |table| && table' == SetCoil(table, CoilAt(f), f[4] == 0xff) && Acknowledges(sent, 5)
  {
    hide Crc, AnswerVerdict, RegisterAt, Count, CoilAt, BytesFor, SetCoil;
    Echoed(f);
  }

  /** A header that is sent back is a good answer. */
  lemma Echoed(f: seq<byte>)
    requires |f| == MAX_BUFFER && (f[1] == 5 || f[1] == 6)
    ensures Acknowledges(Frame(f[..6]), f[1])
  {
    hide Crc, AnswerVerdict;
    assert f[..6][1] == f[1];
    FrameChecks(f[..6]);
  }

  // ---------- Coils ----------

  /** Asking for coils: the slave sends the addressed coils, for every alignment. The master takes nothing from the
      answer and counts it as an error when it carries eight coils or fewer. */
  method CoilReadExchange(master: Station, slave: Station, table: array<word>, t: Telegram) returns (r: int)
    requires Connected(master, slave, table) && Addressed(t, master, slave, table) && table.Length <= 255
    requires (t.fct == 1 || t.fct == 2) && t.addr + t.count <= 16 * table.Length && 7 + BytesFor(t.count) <= MAX_BUFFER
    modifies master, slave, master.buffer, slave.buffer, table, t.reg
    ensures Connected(master, slave, table) && table[..] == old(table[..]) && t.reg[..] == old(t.reg[..])
    ensures |slave.tx| == r == BytesFor(t.count) + 5
    ensures forall i: nat :: i < t.count ==> (PackedBit(slave.tx[3..], i) <==> Coil(table[..], t.addr + i))
    ensures master.errCnt == (old(master.errCnt) + if t.count > 8 then 0 else 1) % 0x1_0000
  {
    hide Crc, Frame, QueryBody, RequestVerdict, Fits, Served, ImageFits, Polled, Faults, CoilAt, Count, Coil, PackedBit,
         BytesFor, CoilReply;
    ghost var words, image := table[..], t.reg[..];
    Ask(master, slave, table, t);
    ghost var f := slave.Incoming();
    CoilQuery(f, slave.rx, t, |words|, image);
    var _ := slave.PollSlave(table);
    ServedIs(f, words, table[..], slave.tx);
    CoilsOfReply(f, words, slave.tx);
    Deliver(slave, master);
    CoilAnswerTaken(f, words, slave.tx);
    CoilAnswerPolled(f, words, slave.tx, image);
    r := master.PollMaster(false, true);
    CoilAnswerKept(f, words, slave.tx, image, r, t.reg[..]);
  }

  /** Coils written by one request are what a read of the same range returns, for every alignment. */
  method CoilWriteThenRead(slave: Station, table: array<word>, write: seq<byte>, read: seq<byte>)
    requires slave.Valid() && slave.rx == [] && table as object != slave.buffer && table.Length <= 255
    requires 8 <= |write| <= MAX_BUFFER && write[0] == slave.id && write[1] == 15
    requires 8 <= |read| <= MAX_BUFFER && read[0] == slave.id && (read[1] == 1 || read[1] == 2)
    requires CoilAt(read) == CoilAt(write) && Count(read) == Count(write)
    requires CoilAt(write) + Count(write) <= 16 * table.Length
    requires 7 + BytesFor(Count(write)) <= |write|
    modifies slave, slave.buffer, table
    ensures slave.Valid() && |slave.tx| == BytesFor(Count(write)) + 5
    ensures CoilsFrom(write[7..], old(table[..]), table[..], CoilAt(write), Count(write))
    ensures forall i: nat :: i < Count(write) ==> (PackedBit(slave.tx[3..], i) <==> PackedBit(write[7..], i))
  {
    hide Crc, CoilAt, Count, RequestVerdict, Fits, Served, PackedBit, Coil;
    ghost var coils := table[..];
    slave.rx := write;
    ghost var f := slave.Incoming();
    CoilRequest(f, write, table.Length);
    var r := slave.PollSlave(table);
    ServedIs(f, coils, table[..], slave.tx);
    CoilsOfRequest(f, write, coils, table[..]);
    ghost var written := table[..];
    slave.rx := read;
    f := slave.Incoming();
    CoilRequest(f, read, table.Length);
    r := slave.PollSlave(table);
    ServedIs(f, written, table[..], slave.tx);
    CoilsOfReply(f, written, slave.tx);
    forall i: nat | i < Count(write) ensures PackedBit(slave.tx[3..], i) <==> PackedBit(write[7..], i) {
      assert Coil(written, CoilAt(write) + i) <==> PackedBit(write[7..], i);
    }
  }

  /** The query for coils as the slave sees it. */
  lemma CoilQuery(f: seq<byte>, sent: seq<byte>, t: Telegram, n: nat, image: seq<word>)
    requires |f| == MAX_BUFFER && sent <= f && (t.fct == 1 || t.fct == 2) && n <= 255
    requires t.addr + t.count <= 16 * n && 7 + BytesFor(t.count) <= MAX_BUFFER
    requires sent == Frame(QueryBody(t.id, t.fct, t.addr, t.count, image))
    ensures |sent| == 8 && f[0] == t.id && f[1] == t.fct && Count(f) == t.count
    ensures t.count > 0 ==> CoilAt(f) == t.addr
    ensures RequestVerdict(f, n) == 0 && Fits(f, n)
  {
    hide Crc, RequestVerdict, Fits, Addr, Count, BytesFor;
    assert sent[..6] == Header(t.id, t.fct, t.addr, t.count);
    HeaderRead(sent, t.id, t.fct, t.addr, t.count);
    SmallCoil(Addr(sent));
    CoilRequest(f, sent, n);
  }

  /** The master's view of an answer with coils. */
  lemma CoilAnswerPolled(f: seq<byte>, table: seq<word>, sent: seq<byte>, image: seq<word>)
    requires |f| == MAX_BUFFER && Inside(CoilAt(f), Count(f), 16 * |table|) && (f[1] == 1 || f[1] == 2)
    requires CoilReply(f, table, sent)
    ensures sent != [] && ImageFits(sent, |image|)
  {
    hide Crc, CoilAt, Count, CarriesCoils, AnswerVerdict, BytesFor, CoilReply;
    CoilAnswerHead(f, table, sent);
  }

  lemma CoilAnswerKept(f: seq<byte>, table: seq<word>, sent: seq<byte>, image: seq<word>, r: int, image': seq<word>)
    requires |f| == MAX_BUFFER && Inside(CoilAt(f), Count(f), 16 * |table|) && (f[1] == 1 || f[1] == 2)
    requires CoilReply(f, table, sent) && |sent| < MAX_BUFFER && Polled(sent, image, r, image')
    ensures r == |sent| && image' == image && Faults(sent) == if Count(f) > 8 then 0 else 1
  {
    hide Crc, CoilAt, Count, CarriesCoils, AnswerVerdict, CoilReply;
    CoilAnswerTaken(f, table, sent);
    CoilAnswerHead(f, table, sent);
  }

  lemma CoilAnswerHead(f: seq<byte>, table: seq<word>, sent: seq<byte>)
    requires |f| == MAX_BUFFER && Inside(CoilAt(f), Count(f), 16 * |table|) && (f[1] == 1 || f[1] == 2)
    requires CoilReply(f, table, sent)
    ensures |sent| == BytesFor(Count(f)) + 5 && sent[1] == f[1] && (|sent| >= 7 <==> Count(f) > 8)
  {
    hide Crc, CoilAt, Count, CarriesCoils;
    assert sent[1] == sent[..3][1];
  }

  /** A coil request within the table is accepted whatever stands behind it in the buffer. */
  lemma CoilRequest(f: seq<byte>, request: seq<byte>, n: nat)
    requires |f| == MAX_BUFFER && |request| >= 8 && request <= f && n <= 255
    requires request[1] == 1 || request[1] == 2 || request[1] == 15
    requires CoilAt(request) + Count(request) <= 16 * n && 7 + BytesFor(Count(request)) <= MAX_BUFFER
    ensures f[0] == request[0] && f[1] == request[1] && CoilAt(f) == CoilAt(request) && Count(f) == Count(request)
    ensures RequestVerdict(f, n) == 0 && Fits(f, n)
  {
    hide Addr, Count, CoilAt, RequestVerdict, BytesFor;
    SameRequest(f, request);
    CoilVerdict(f, n);
    InWholeRegisters(CoilAt(f), Count(f), n);
    Small(CoilAt(f) / 16 + Count(f) / 16);
  }

  /** What stands behind a request does not change how its header is read. */
  lemma SameRequest(f: seq<byte>, request: seq<byte>)
    requires |request| >= 6 && request <= f
    ensures f[0] == request[0] && f[1] == request[1] && CoilAt(f) == CoilAt(request) && Count(f) == Count(request)
  {
    assert forall i :: 0 <= i < 6 ==> f[i] == request[i];
  }

  lemma InWholeRegisters(a: nat, c: nat, n: nat)
    ensures a + c <= 16 * n ==> a / 16 + c / 16 <= n
    ensures a / 16 + c / 16 <= n ==> a + c <= 16 * n + 30
  {
    assert a == 16 * (a / 16) + a % 16 && c == 16 * (c / 16) + c % 16;
  }

  lemma CoilsOfRequest(f: seq<byte>, request: seq<byte>, table: seq<word>, table': seq<word>)
    requires |f| == MAX_BUFFER && |request| >= 8 && request <= f && 7 + BytesFor(Count(f)) <= |request|
    requires CoilsWritten(f, table, table')
    ensures CoilsFrom(request[7..], table, table', CoilAt(request), Count(request))
  {
    SameRequest(f, request);
    hide CoilsFrom, CoilAt, Count, BytesFor;
    assert request[7..] == f[7..][..|request| - 7];
    CoilsFromPrefix(f[7..], |request| - 7, table, table', CoilAt(f), Count(f));
  }

  lemma CoilsFromPrefix(data: seq<byte>, k: nat, table: seq<word>, table': seq<word>, a: nat, n: nat)
    requires k <= |data| && n <= 8 * k && CoilsFrom(data, table, table', a, n)
    ensures CoilsFrom(data[..k], table, table', a, n)
  {
    hide Coil, PackedBit;
    PackedPrefix(data, k);
  }

  lemma CoilsOfReply(f: seq<byte>, table: seq<word>, sent: seq<byte>)
    requires |f| == MAX_BUFFER && Inside(CoilAt(f), Count(f), 16 * |table|) && CoilReply(f, table, sent)
    ensures |sent| == BytesFor(Count(f)) + 5
    ensures forall i: nat :: i < Count(f) ==> (PackedBit(sent[3..], i) <==> Coil(table, CoilAt(f) + i))
  {
    hide Coil, Frame, CoilAt, Count, BytesFor, PackedBit;
    var n := BytesFor(Count(f));
    PackedPrefix(sent[3..], n);
    assert sent[3..][..n] == sent[3..n + 3];
    forall i: nat | i < Count(f) ensures PackedBit(sent[3..], i) <==> Coil(table, CoilAt(f) + i) {
      assert Coil(table, CoilAt(f) + i) <==> PackedBit(sent[3..n + 3], i);
    }
  }

  // ---------- What the range check accepts ----------

  /** Register requests are checked by the low byte of the sum. */
  lemma RegisterVerdict(f: seq<byte>, n: byte)
    requires |f| >= 6 && (f[1] == 3 || f[1] == 4 || f[1] == 16)
    ensures RequestVerdict(f, n) == 0 <==> (Addr(f) + Count(f)) % 256 <= n
  {
    assert LastAddressed(f[1], Addr(f), Count(f)) == Addr(f) + Count(f);
    hide Addr, Count, Cut, LastAddressed;
  }

  /** Requests inside the table are accepted; those that are not are accepted exactly if their sum wraps into it. */
  lemma RegisterRangeExact(f: seq<byte>, n: byte)
    requires |f| >= 6 && (f[1] == 3 || f[1] == 4 || f[1] == 16)
    ensures var end := Addr(f) + Count(f);
            RequestVerdict(f, n) == 0 <==> end <= n || (end >= 256 && end % 256 <= n)
  {
    hide Addr, Count, RequestVerdict;
    RegisterVerdict(f, n);
    Small(Addr(f) + Count(f));
  }

  lemma Small(x: nat)
    ensures x < 256 ==> x % 256 == x
  {
  }

  /** Among the accepted requests, those that reach behind the table are the ones whose cut address and cut count wrap
      when they are added. */
  lemma RegisterRangeOutside(f: seq<byte>, n: byte)
    requires |f| >= 6 && (f[1] == 3 || f[1] == 4 || f[1] == 16)
    ensures var a: int, c: int := RegisterAt(f), RegisterCount(f);
            RequestVerdict(f, n) == 0 && !Inside(a, c, n) <==> c > 0 && 256 <= a + c <= 256 + n
  {
    hide Addr, Count, RegisterAt, RegisterCount, RequestVerdict;
    RegistersCut(f);
    RegisterVerdict(f, n);
    SumOfCut(Addr(f), Count(f));
  }

  lemma SumOfCut(a: nat, c: nat)
    ensures (a + c) % 256 == if a % 256 + c % 256 < 256 then a % 256 + c % 256 else a % 256 + c % 256 - 256
  {
    var r := a % 256 + c % 256;
    assert a + c == 256 * (a / 256 + c / 256) + r;
    if r < 256 {
      Remainder(a + c, a / 256 + c / 256, r);
    } else {
      Remainder(a + c, a / 256 + c / 256 + 1, r - 256);
    }
  }

  /** Single registers: behind the table, the accepted addresses are the one just behind it and those that wrap into it;
      of these only the ones that are cut to the size itself reach behind it. */
  lemma SingleRangeExact(f: seq<byte>, n: byte)
    requires |f| == MAX_BUFFER && f[1] == 6
    ensures Addr(f) < n ==> RequestVerdict(f, n) == 0
    ensures RequestVerdict(f, n) == 0 && Addr(f) >= n <==> Addr(f) == n || (Addr(f) >= 256 && Addr(f) % 256 <= n)
    ensures RequestVerdict(f, n) == 0 && !Fits(f, n) <==> Addr(f) % 256 == n
  {
    assert LastAddressed(f[1], Addr(f), Count(f)) == Addr(f);
    hide Addr, Count, Cut, LastAddressed, BytesFor;
    Small(Addr(f));
  }

  /** The same for single coils, which are checked by their register. */
  lemma SingleCoilRangeExact(f: seq<byte>, n: byte)
    requires |f| == MAX_BUFFER && f[1] == 5
    ensures Addr(f) < 16 * n ==> RequestVerdict(f, n) == 0
    ensures RequestVerdict(f, n) == 0 && Addr(f) >= 16 * n <==>
            Addr(f) / 16 == n || (Addr(f) >= 4096 && Addr(f) / 16 % 256 <= n)
    ensures RequestVerdict(f, n) == 0 && !Fits(f, n) <==> Addr(f) / 16 % 256 == n
  {
    assert LastAddressed(f[1], Addr(f), Count(f)) == Addr(f) / 16;
    CutCoil(Addr(f));
    Small(Addr(f) / 16);
    Below16(Addr(f), n);
    Below16(Addr(f), 256);
    Below16(CoilAt(f), n);
    hide Addr, Count, Cut, LastAddressed, BytesFor;
  }

  /** Cutting the number of a coil's register to a byte. */
  lemma CutCoil(a: nat)
    ensures a % 4096 / 16 == a / 16 % 256
  {
    var k, s := a / 4096, a % 4096;
    assert a == 16 * (256 * k) + s;
    Sixteenth(256 * k, s);
    Remainder(a / 16, k, s / 16);
  }

  /** Ranges of coils are checked by the low byte of the sum of their whole registers. */
  lemma CoilVerdict(f: seq<byte>, n: byte)
    requires |f| >= 6 && (f[1] == 1 || f[1] == 2 || f[1] == 15)
    ensures RequestVerdict(f, n) == 0 <==> (Addr(f) / 16 + Count(f) / 16) % 256 <= n
    ensures RequestVerdict(f, n) == 0 <==> (CoilAt(f) / 16 + Count(f) / 16) % 256 <= n
  {
    assert LastAddressed(f[1], Addr(f), Count(f)) == Addr(f) / 16 + Count(f) / 16;
    CutSum(Addr(f), Count(f));
    hide Addr, Count, Cut, LastAddressed;
  }

  lemma CutSum(a: nat, c: nat)
    ensures (a % 4096 / 16 + c / 16) % 256 == (a / 16 + c / 16) % 256
  {
    CutCoil(a);
    var x, y := a / 16, c / 16;
    SumOfCut(x, y);
    SumOfCut(x % 256, y);
    Small(x % 256);
  }

  /** Whole registers and odd coils of a range. */
  predicate CoilsSlip(a: nat, c: nat, n: nat) {
    var q, r := a / 16 + c / 16, a % 16 + c % 16;
    (q == n && r > 0) || (q + 1 == n && r > 16) || (q >= 256 && q % 256 <= n)
  }

  lemma CoilsSlipExactly(a: nat, c: nat, n: byte)
    ensures (a / 16 + c / 16) % 256 <= n && a + c > 16 * n <==> CoilsSlip(a, c, n)
  {
    var q, r := a / 16 + c / 16, a % 16 + c % 16;
    assert a + c == 16 * q + r && r <= 30;
    Small(q);
  }

  /** Ranges inside the table are accepted. Those behind it are accepted exactly if their odd coils slip behind the last
      register, or their registers wrap; the same condition on the cut range tells which of them reach behind it. */
  lemma CoilRangeExact(f: seq<byte>, n: byte)
    requires |f| >= 6 && (f[1] == 1 || f[1] == 2 || f[1] == 15)
    ensures Addr(f) + Count(f) <= 16 * n ==> RequestVerdict(f, n) == 0
    ensures RequestVerdict(f, n) == 0 && Addr(f) + Count(f) > 16 * n <==> CoilsSlip(Addr(f), Count(f), n)
    ensures RequestVerdict(f, n) == 0 && !Inside(CoilAt(f), Count(f), 16 * n) <==>
            Count(f) > 0 && CoilsSlip(CoilAt(f), Count(f), n)
  {
    hide Addr, Count, CoilAt, RequestVerdict, CoilsSlip;
    CoilVerdict(f, n);
    CoilsSlipExactly(Addr(f), Count(f), n);
    CoilsSlipExactly(CoilAt(f), Count(f), n);
    CoilsInside(Addr(f), Count(f), n);
  }

  lemma CoilsInside(a: nat, c: nat, n: byte)
    ensures a + c <= 16 * n ==> (a / 16 + c / 16) % 256 <= n
  {
    InWholeRegisters(a, c, n);
    Small(a / 16 + c / 16);
  }

  /** Below the wrap, accepted ranges exceed the table by at most 30 coils. */
  lemma CoilRangeSlack(f: seq<byte>, n: byte)
    requires |f| >= 6 && (f[1] == 1 || f[1] == 2 || f[1] == 15) && Addr(f) / 16 + Count(f) / 16 < 256
    ensures RequestVerdict(f, n) == 0 ==> Addr(f) + Count(f) <= 16 * n + 30
  {
    hide Addr, Count, CoilAt, RequestVerdict;
    CoilVerdict(f, n);
    InWholeRegisters(Addr(f), Count(f), n);
    Small(Addr(f) / 16 + Count(f) / 16);
  }

  /** Two coils from the last one of a table on are accepted for a table of any size. */
  lemma CoilRangeFails(f: seq<byte>, n: byte)
    requires |f| >= 6 && f[1] == 1 && n > 0 && Addr(f) == 16 * n - 1 && Count(f) == 2
    ensures RequestVerdict(f, n) == 0 && !Inside(CoilAt(f), Count(f), 16 * n)
  {
    CoilVerdict(f, n);
    Below16(Addr(f), n);
    Small(Addr(f) / 16);
    hide RequestVerdict;
  }

  /** Reading register 256 of a table of any size is accepted, and what is read is register 0. */
  lemma RegisterRangeWraps(table: seq<word>, f: seq<byte>, sent: seq<byte>)
    requires 0 < |table| <= 255 && |f| == MAX_BUFFER && f[..6] == [f[0], 3, 1, 0, 0, 1]
    ensures Addr(f) == 256 && RequestVerdict(f, |table|) == 0 && Fits(f, |table|)
    ensures Served(f, table, table, sent) ==> sent == Frame([f[0], 3, 2] + WordBytes([table[0]]))
  {
    assert forall i :: 0 <= i < 6 ==> f[i] == f[..6][i];
    assert Addr(f) == 256 && Count(f) == 1;
    hide Crc, WordBytes, RequestVerdict, Addr, Count, ReadReply;
    RegisterVerdict(f, |table|);
    FirstRegister(table, f);
  }

  lemma FirstRegister(table: seq<word>, f: seq<byte>)
    requires 0 < |table| && |f| == MAX_BUFFER && RegisterAt(f) == 0 && RegisterCount(f) == 1
    ensures ReadReply(f, table) == Frame([f[0], f[1], 2] + WordBytes([table[0]]))
  {
    hide Crc, WordBytes, RegisterAt, RegisterCount;
    assert table[0..1] == [table[0]];
  }

  /** Requests whose addresses differ by a multiple of 256 registers have the same effect: the slave serves what the cut
      address reaches. */
  lemma SameRegisters(f: seq<byte>, g: seq<byte>, table: seq<word>, t: seq<word>, t': seq<word>, x: seq<byte>,
                      y: seq<byte>)
    requires |f| == MAX_BUFFER == |g| && f[..2] == g[..2] && f[4..] == g[4..] && Addr(f) % 256 == Addr(g) % 256
    requires f[1] == 3 || f[1] == 4 || f[1] == 6 || f[1] == 16
    ensures Fits(f, |table|) <==> Fits(g, |table|)
    ensures Fits(f, |table|) && Served(f, table, t, x) && Served(g, table, t', y) ==>
              t == t' && (f[1] == 3 || f[1] == 4 ==> x == y)
  {
    hide Addr, Count, RegisterAt, RegisterCount, Crc, WordBytes, WordsOf, Word;
    SameTail(f, g);
    RegistersCut(f);
    RegistersCut(g);
  }

  lemma SameTail(f: seq<byte>, g: seq<byte>)
    requires |f| == MAX_BUFFER == |g| && f[..2] == g[..2] && f[4..] == g[4..]
    ensures f[0] == g[0] && f[1] == g[1] && f[4] == g[4] && Count(f) == Count(g) && f[7..] == g[7..]
  {
    assert f[..2][0] == f[0] && f[..2][1] == f[1] && g[..2][0] == g[0] && g[..2][1] == g[1];
    assert forall i :: 4 <= i < MAX_BUFFER ==> f[i] == f[4..][i - 4] && g[i] == g[4..][i - 4];
    assert f[7..] == f[4..][3..] && g[7..] == g[4..][3..];
  }

  /** The same for coils: their addresses are cut modulo 4096. */
  lemma SameCoils(f: seq<byte>, g: seq<byte>, table: seq<word>, t: seq<word>, t': seq<word>, x: seq<byte>, y: seq<byte>)
    requires |f| == MAX_BUFFER == |g| && f[..2] == g[..2] && f[4..] == g[4..] && CoilAt(f) == CoilAt(g)
    requires f[1] == 5 || f[1] == 15
    ensures Fits(f, |table|) <==> Fits(g, |table|)
    ensures Fits(f, |table|) && Served(f, table, t, x) && Served(g, table, t', y) ==>
              |t| == |t'| && forall c: nat :: c < 16 * |t| ==> (Coil(t, c) <==> Coil(t', c))
  {
    SameTail(f, g);
    hide CoilAt, Crc, Word, Coil, PackedBit, SetCoil, Frame, BytesFor;
  }

  // ---------- Damaged answers ----------

  /** An answer of which the line has changed bits, check bytes included, is dropped if the changed bits stand within 16
      bits in a row or are odd in number: whatever it announces, the master reports an error, counts one fault and keeps
      its image. */
  lemma DamagedAnswerDropped(body: seq<byte>, g: seq<byte>, k: nat, image: seq<word>, r: int, image': seq<word>)
    requires 7 <= |g| == |Frame(body)| < MAX_BUFFER
    requires WithinBurst(Frame(body), g, k) || OddBits(XorBits(Stream(Frame(body)), Stream(g)))
    ensures AnswerVerdict(g) == NO_REPLY && ImageFits(g, |image|)
    ensures Polled(g, image, r, image') <==> r == -1 && image' == image
    ensures Faults(g) == 1
  {
    hide Frame, Checked, WithinBurst, OddBits, Stream;
    FrameChecked(body);
    if WithinBurst(Frame(body), g, k) {
      FrameBurstDetected(Frame(body), g, k);
    } else {
      FrameOddErrorDetected(Frame(body), g);
    }
  }

  // ---------- Where master and slave do not agree ----------

  /** A coil answer passes the master's length and check tests exactly when it carries more than eight coils. */
  lemma CoilAnswerTaken(f: seq<byte>, table: seq<word>, sent: seq<byte>)
    requires |f| == MAX_BUFFER && Inside(CoilAt(f), Count(f), 16 * |table|) && (f[1] == 1 || f[1] == 2)
    requires CoilReply(f, table, sent) && |sent| < MAX_BUFFER
    ensures Faults(sent) == 0 <==> Count(f) > 8
  {
    hide Crc, CoilAt, Count, CarriesCoils, AnswerVerdict;
    var body := sent[..BytesFor(Count(f)) + 3];
    assert body[1] == sent[..3][1];
    FrameChecks(body);
  }

  /** Exception answers have 5 bytes: the master drops them before it looks at the exception. */
  lemma ExceptionDropped(id: byte, fct: byte, v: byte, image: seq<word>, r: int, image': seq<word>)
    requires Polled(Frame([id, ExceptionCode(fct), v]), image, r, image')
    ensures r == 5 && image' == image && Faults(Frame([id, ExceptionCode(fct), v])) == 1
  {
    hide Crc;
  }

  /** A coil write query carries no coils: what the slave takes for them is its check, and then old bytes. */
  lemma QueryCarriesNoCoils(t: Telegram, image: seq<word>, f: seq<byte>)
    requires t.fct == 15 && |f| == MAX_BUFFER && Frame(QueryBody(t.id, t.fct, t.addr, t.count, image)) <= f
    ensures f[7..9] == [HighByte(Crc(f[..7])), LowByte(Crc(f[..7]))]
    ensures f[0] == t.id && f[1] == 15 && Addr(f) == t.addr && Count(f) == t.count
  {
    hide Crc, HighByte, LowByte, Word;
    var body := QueryBody(t.id, t.fct, t.addr, t.count, image);
    assert f[..7] == Frame(body)[..7] == body;
    assert f[7..9] == Frame(body)[7..9];
    assert f[..6] == body[..6] == Header(t.id, t.fct, t.addr, t.count);
    HeaderRead(f, t.id, t.fct, t.addr, t.count);
  }

  /** When the slave serves such a query, the first 16 of the addressed coils become the bits of the check. */
  lemma CheckTakenForCoils(t: Telegram, image: seq<word>, f: seq<byte>, table: seq<word>, table': seq<word>, i: nat)
    requires t.fct == 15 && |f| == MAX_BUFFER && Frame(QueryBody(t.id, t.fct, t.addr, t.count, image)) <= f
    requires Inside(CoilAt(f), Count(f), 16 * |table|) && 7 + BytesFor(Count(f)) <= MAX_BUFFER
    requires CoilsWritten(f, table, table') && i < 16 && i < t.count
    ensures CoilAt(f) + i < 16 * |table'|
    ensures Coil(table', CoilAt(f) + i) <==> PackedBit([HighByte(Crc(f[..7])), LowByte(Crc(f[..7]))], i)
  {
    hide Crc, HighByte, LowByte, Coil, PackedBit, CoilAt, Addr, Count, Frame;
    hide QueryBody, BytesFor, CoilsFrom, CoilsWritten;
    QueryCarriesNoCoils(t, image, f);
    WrittenFrom(f, table, table');
    assert f[7..][..2] == f[7..9];
    FirstCoils(f[7..], 2, table, table', CoilAt(f), Count(f), i);
  }

  lemma WrittenFrom(f: seq<byte>, table: seq<word>, table': seq<word>)
    requires |f| == MAX_BUFFER && 7 + BytesFor(Count(f)) <= MAX_BUFFER && CoilsWritten(f, table, table')
    ensures Count(f) <= 8 * |f[7..]| && CoilsFrom(f[7..], table, table', CoilAt(f), Count(f))
  {
    hide CoilsFrom, CoilAt, Count;
  }

  lemma FirstCoils(data: seq<byte>, k: nat, table: seq<word>, table': seq<word>, a: nat, n: nat, i: nat)
    requires k <= |data| && n <= 8 * |data| && a + n <= 16 * |table| && i < n && i < 8 * k
    requires CoilsFrom(data, table, table', a, n)
    ensures a + i < 16 * |table'| && (Coil(table', a + i) <==> PackedBit(data[..k], i))
  {
    hide Coil, PackedBit;
    PackedPrefix(data, k);
  }
}
