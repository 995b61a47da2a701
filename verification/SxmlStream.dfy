/** The loop around the parser that empties the token table and refills the buffer. */
module SxmlStream {
  import opened SxmlText
  import opened SxmlGrammar
  import opened SxmlRuns
  import opened SxmlRefill
  import opened SxmlParser
  import opened SxmlDriver
  import opened SxmlTags
  import opened SxmlMarks
  import opened SxmlContent
  import Session = SxmlSession
  import Table = SxmlTable

  // ---------- What the program yields, with a table that never fills up ----------

  /** How a run of the program ends, and whether that is because the buffer is full of a single construct. */
  datatype Run = Run(stuck: bool, o: Outcome)

  function Ahead(x: seq<Token>, r: Run): Run {
    r.(o := Prepend(x, r.o))
  }

  /** How many characters the next read delivers: as many as announced, at least one, at most what is free in the
      buffer and what is left of the document. */
  function NextRead(pieces: seq<nat>, free: nat, left: nat): (k: nat)
    ensures k <= free && k <= left && (free > 0 && left > 0 ==> k > 0)
  {
    var most := Min(free, left);
    if pieces == [] || pieces[0] == 0 then most else Min(pieces[0], most)
  }

  function Later(pieces: seq<nat>): seq<nat> {
    if pieces == [] then [] else pieces[1..]
  }

  /** The document d arrives through a buffer of max characters that shows the part from pos to e; pieces are the sizes
      of the pieces still to come, whatever is left behind them arrives as it fits. */
  function Arrive(d: string, max: nat, pieces: seq<nat>, pos: nat, e: nat, level: int): (r: Run)
    requires pos <= e <= |d| && e - pos <= max
    ensures pos <= r.o.pos <= |d|
    decreases |d| - e
  {
    var o := Parse(d, pos, e, level, 0, Unbounded);
    if o.err != BufferDry || e == |d| then Run(false, o)
    else if e - o.pos == max then Run(true, o)
    else
      var k := NextRead(pieces, max - (e - o.pos), |d| - e);
      Ahead(o.toks, Arrive(d, max, Later(pieces), o.pos, e + k, o.level))
  }

  /** A full table makes no difference: emptied, the call goes on as the call with an unlimited one. */
  lemma ArriveFull(d: string, max: nat, pieces: seq<nat>, pos: nat, e: nat, level: int, cap: nat)
    requires pos <= e <= |d| && e - pos <= max
    ensures var o := Parse(d, pos, e, level, 0, AtMost(cap));
            if o.err == TokensFull then
              Arrive(d, max, pieces, pos, e, level) == Ahead(o.toks, Arrive(d, max, pieces, o.pos, e, o.level))
            else o == Parse(d, pos, e, level, 0, Unbounded)
  {
    hide Parse;
    TableExact(d, pos, e, level, 0, cap);
    var o := Parse(d, pos, e, level, 0, AtMost(cap));
    if o.err == TokensFull {
      var u := Parse(d, o.pos, e, o.level, 0, Unbounded);
      if u.err == BufferDry && e < |d| && e - u.pos < max {
        var k := NextRead(pieces, max - (e - u.pos), |d| - e);
        PrependTwice(o.toks, u.toks, Arrive(d, max, Later(pieces), u.pos, e + k, u.level).o);
      }
    }
  }

  /** A document that fits the buffer never gets stuck. */
  lemma {:induction false} NeverStuck(d: string, max: nat, pieces: seq<nat>, pos: nat, e: nat, level: int)
    requires pos <= e <= |d| <= max
    ensures !Arrive(d, max, pieces, pos, e, level).stuck
    decreases |d| - e
  {
    hide Parse;
    var o := Parse(d, pos, e, level, 0, Unbounded);
    if o.err == BufferDry && e < |d| {
      var k := NextRead(pieces, max - (e - o.pos), |d| - e);
      NeverStuck(d, max, Later(pieces), o.pos, e + k, o.level);
    }
  }

  lemma NothingShown(d: string)
    ensures Parse(d, 0, 0, 0, 0, Unbounded) == Outcome(BufferDry, 0, 0, [], [])
  {
  }

  /** When the document arrives in one piece, the tokens are those of one call. */
  lemma OnePiece(d: string, max: nat, pieces: seq<nat>)
    requires |d| <= max && (pieces == [] || pieces[0] == 0 || pieces[0] >= |d|)
    ensures Arrive(d, max, pieces, 0, 0, 0) == Run(false, Reference(d, 0, 0))
  {
    hide Parse;
    NothingShown(d);
    if d != "" {
      NeverStuck(d, max, Later(pieces), 0, |d|, 0);
      var whole := Reference(d, 0, 0);
      assert Arrive(d, max, Later(pieces), 0, |d|, 0) == Run(false, whole);
      assert [] + whole.toks == whole.toks;
    }
  }

  /** The program gets stuck only where the construct at the committed position does not end within a full buffer. */
  lemma {:induction false} StuckAt(d: string, max: nat, pieces: seq<nat>, pos: nat, e: nat, level: int)
    requires pos <= e <= |d| && e - pos <= max
    ensures var r := Arrive(d, max, pieces, pos, e, level);
            r.stuck ==> r.o.err == BufferDry && r.o.pos + max < |d|
                        && Step(d, r.o.pos, r.o.pos + max, r.o.level, Unbounded).err == BufferDry
    decreases |d| - e
  {
    hide Parse, Step;
    var o := Parse(d, pos, e, level, 0, Unbounded);
    if o.err == BufferDry && e < |d| {
      if e - o.pos == max {
        DryStep(d, pos, e, level, 0, Unbounded);
      } else {
        var k := NextRead(pieces, max - (e - o.pos), |d| - e);
        StuckAt(d, max, Later(pieces), o.pos, e + k, o.level);
      }
    }
  }

  /** A call that runs dry has stopped in front of a construct that runs dry. */
  lemma {:induction false} DryStep(d: string, pos: nat, e: nat, level: int, n: nat, cap: Limit)
    requires pos <= e <= |d| && Fits(n, cap)
    ensures var o := Parse(d, pos, e, level, n, cap);
            o.err == BufferDry ==> Step(d, o.pos, e, o.level, Unbounded).err == BufferDry
    decreases e - pos
  {
    hide Step, CommitPos, AtText, Balance;
    var s := Step(d, pos, e, level, Room(cap, n));
    StepRoom(d, pos, e, level, Room(cap, n));
    CommitKeepsStep(d, pos, e, e, level, Unbounded);
    if s.err == Success && !Finishes(level, s.toks) {
      DryStep(d, s.pos, e, level + Balance(s.toks), n + |s.toks|, cap);
    }
  }

  /** Text runs dry exactly when it holds an ampersand with no semicolon behind it and at most eight characters from
      there on. None of the text in front of the ampersand is committed then. */
  lemma TextRunsDry(d: string, pos: nat, e: nat, level: int)
    requires pos <= e <= |d| && AtText(d, pos, e, level)
    ensures var lt := Scan(d, pos, e, AtChar('<'));
            var ampr := Scan(d, pos, lt, AtChar('&'));
            Step(d, pos, e, level, Unbounded).err == BufferDry <==>
            ampr < lt <= ampr + ENTITY_MAXLEN && Scan(d, ampr, lt, AtChar(';')) == lt
  {
    hide Scan;
  }

  /** So a buffer full of text whose last character is an ampersand gets the program stuck, although text can be cut. */
  lemma TextFillsBuffer(d: string, max: nat, pieces: seq<nat>, pos: nat, level: int)
    requires 0 < max && pos + max < |d| && level > 0
    requires forall i :: pos <= i < pos + max - 1 ==> d[i] != '<' && d[i] != '&'
    requires d[pos + max - 1] == '&'
    ensures Arrive(d, max, pieces, pos, pos + max, level) ==
            Run(true, Outcome(BufferDry, pos, level, [], Text(pos, pos + max - 1)))
  {
    var e := pos + max;
    SkipScan(d, pos, e - 1, e, AtChar('<'));
    assert Scan(d, e - 1, e, AtChar('<')) == e;
    SkipScan(d, pos, e - 1, e, AtChar('&'));
    assert Scan(d, e - 1, e, AtChar(';')) == e;
    TextRunsDry(d, pos, e, level);
  }

  /** The tokens of the whole program open and close elements in order. */
  lemma {:induction false} ArriveSound(d: string, max: nat, pieces: seq<nat>, pos: nat, e: nat, level: int)
    requires pos <= e <= |d| && e - pos <= max && level >= 0
    ensures var o := Arrive(d, max, pieces, pos, e, level).o;
            o.level == level + Balance(o.toks) && o.level >= 0 && Table.Sound(level, o.toks, |d|)
    decreases |d| - e
  {
    hide Parse, Balance, WellFormed, NeverNegative;
    var o := Parse(d, pos, e, level, 0, Unbounded);
    Table.TableInvariant(d, pos, e, level, 0, Unbounded);
    Session.WellFormedWider(o.toks, e, |d|);
    if o.err == BufferDry && e < |d| && e - o.pos < max {
      var k := NextRead(pieces, max - (e - o.pos), |d| - e);
      ArriveSound(d, max, Later(pieces), o.pos, e + k, o.level);
      var r := Arrive(d, max, Later(pieces), o.pos, e + k, o.level);
      Table.SoundConcat(level, o.toks, r.o.toks, |d|);
      BalanceConcat(o.toks, r.o.toks);
    }
  }

  /** However the document arrives, the printing loop sees the same tags. */
  lemma {:induction false} ArriveTags(d: string, max: nat, pieces: seq<nat>, pos: nat, e: nat, level: int)
    requires pos <= e <= |d| && e - pos <= max && level >= 0
    ensures var r := Arrive(d, max, pieces, pos, e, level);
            Tags(Reference(d, pos, level).toks) ==
            Tags(r.o.toks) + if r.stuck then Tags(Reference(d, r.o.pos, r.o.level).toks) else []
    decreases |d| - e
  {
    hide Parse, Tags, Balance, Reference, WellFormed, NeverNegative, NextRead;
    var o := Parse(d, pos, e, level, 0, Unbounded);
    RunTags(d, pos, e, level, 0);
    Table.TableInvariant(d, pos, e, level, 0, Unbounded);
    if o.err == BufferDry && e < |d| && e - o.pos < max {
      var k := NextRead(pieces, max - (e - o.pos), |d| - e);
      ArriveTags(d, max, Later(pieces), o.pos, e + k, o.level);
      TagsConcat(o.toks, Arrive(d, max, Later(pieces), o.pos, e + k, o.level).o.toks, e);
    }
  }

  /** However the document arrives, the tokens mark it construct by construct, without a gap. */
  lemma {:induction false} ArriveMarks(d: string, max: nat, pieces: seq<nat>, pos: nat, e: nat, level: int)
    requires pos <= e <= |d| && e - pos <= max && level >= 0
    ensures var o := Arrive(d, max, pieces, pos, e, level).o; Covered(d, pos, level, o.toks, o.pos)
    decreases |d| - e
  {
    hide Parse, Covered, Balance, WellFormed, NeverNegative, NextRead;
    var o := Parse(d, pos, e, level, 0, Unbounded);
    RunMarks(d, pos, e, level, 0);
    Table.TableInvariant(d, pos, e, level, 0, Unbounded);
    if o.err == BufferDry && e < |d| && e - o.pos < max {
      var k := NextRead(pieces, max - (e - o.pos), |d| - e);
      ArriveMarks(d, max, Later(pieces), o.pos, e + k, o.level);
      var rest := Arrive(d, max, Later(pieces), o.pos, e + k, o.level).o;
      CoveredConcat(d, pos, level, o.toks, o.pos, rest.toks, rest.pos);
    }
  }

  /** However the document arrives, the text of the tokens is the text between the markup. */
  lemma {:induction false} ArriveText(d: string, max: nat, pieces: seq<nat>, pos: nat, e: nat, level: int, cap: nat)
    requires pos <= e <= |d| && e - pos <= max && level >= 0 && Roomy(d, pos, level, cap) && cap <= USHORT
    ensures var o := Arrive(d, max, pieces, pos, e, level).o;
            TopText(d, o.toks) + Rest(d, o) == CharacterData(d, pos, level)
    decreases |d| - e
  {
    hide Parse, TopText, CharacterData, Roomy, Balance, WellFormed, NeverNegative, NextRead;
    var o := Parse(d, pos, e, level, 0, Unbounded);
    RunText(d, pos, e, level, 0, cap);
    Table.TableInvariant(d, pos, e, level, 0, Unbounded);
    if o.err == BufferDry && e < |d| && e - o.pos < max {
      var k := NextRead(pieces, max - (e - o.pos), |d| - e);
      ArriveText(d, max, Later(pieces), o.pos, e + k, o.level, cap);
      var rest := Arrive(d, max, Later(pieces), o.pos, e + k, o.level).o;
      TopTextConcat(d, o.toks, rest.toks, e);
      assert TopText(d, o.toks) + (TopText(d, rest.toks) + Rest(d, rest)) ==
             TopText(d, o.toks + rest.toks) + Rest(d, rest);
    }
  }

  // ---------- The program ----------

  /** The first n tokens of the table, with positions counted from the start of the document. */
  method Flush(tokens: array<Token>, n: nat, offset: nat) returns (out: seq<Token>)
    requires n <= tokens.Length
    ensures |out| == n && forall i :: 0 <= i < n ==> out[i] == AtBase(tokens[i], offset)
  {
    out := [];
    for i := 0 to n
      invariant |out| == i && forall k :: 0 <= k < i ==> out[k] == AtBase(tokens[k], offset)
    {
      out := out + [AtBase(tokens[i], offset)];
    }
  }

  /** One call of the parser on an empty table, and the tokens it left there. */
  method Round(state: State, buffer: string, tokens: array<Token>, numTokens: nat, ghost d: string, offset: nat)
    returns (err: Err, flushed: seq<Token>)
    requires offset + |buffer| <= |d| && Window(buffer, d, offset) && tokens.Length == numTokens + 1
    requires state.bufferpos <= |buffer| && state.ntokens == 0 && state.taglevel >= 0
    requires Roomy(d, offset + state.bufferpos, state.taglevel, numTokens)
    modifies state, tokens
    ensures state.ntokens == 0 && state.taglevel >= 0 && state.bufferpos <= |buffer|
    ensures var pos, level := offset + old(state.bufferpos), old(state.taglevel);
            var o := Parse(d, pos, offset + |buffer|, level, 0, AtMost(numTokens));
            && err == o.err && flushed == o.toks && o.pos == offset + state.bufferpos && o.level == state.taglevel
            && InView(d, offset + |buffer|, Reference(d, pos, level), o, numTokens) && (o.err == TokensFull ==>
                o.pos > pos)
            && InText(d, o.toks + o.pending)
            && |o.pending| <= 1 && forall t :: t in o.pending ==> t.kind == Character
  {
    hide Step, Parse, Window, Scan, Roomy, InView, Reference, InText;
    ghost var pos, level := offset + state.bufferpos, state.taglevel;
    ghost var o := Parse(d, pos, offset + |buffer|, level, 0, AtMost(numTokens));
    RunInView(d, pos, offset + |buffer|, level, 0, numTokens);
    OutcomeInText(d, pos, offset + |buffer|, level, 0, AtMost(numTokens));
    err := SxmlParse(state, buffer, tokens, numTokens, d, offset);
    flushed := Flush(tokens, state.ntokens, offset);
    assert flushed == o.toks;
    state.ntokens := 0;
  }

  /** The tokens of a call lie in the document, and what is pending is at most one piece of text. */
  lemma OutcomeInText(d: string, pos: nat, e: nat, level: int, n: nat, cap: Limit)
    requires pos <= e <= |d| && Fits(n, cap) && level >= 0
    ensures var o := Parse(d, pos, e, level, n, cap);
            && InText(d, o.toks + o.pending) && o.level >= 0
            && |o.pending| <= 1 && forall t :: t in o.pending ==> t.kind == Character
  {
    hide Parse;
    Table.TableInvariant(d, pos, e, level, n, cap);
    PendingText(d, pos, e, level, n, cap);
    var o := Parse(d, pos, e, level, n, cap);
    forall t | t in o.toks + o.pending ensures t.startpos <= t.endpos <= |d| {
      if t in o.toks {
        var i :| 0 <= i < |o.toks| && o.toks[i] == t;
        assert WellPlaced(o.toks, i, e);
      }
    }
  }

  /** The same markup tokens and the same character data, in the same places. */
  ghost predicate SameText(d: string, x: seq<Token>, y: seq<Token>) {
    Spell(d, x) == Spell(d, y) && Markup(x) == Markup(y) && Data(d, x) == Data(d, y)
  }

  /** The last call: what has been shown, dropped and left pending spells the whole document. */
  lemma LastRound(d: string, whole: Outcome, before: seq<Token>, o: Outcome, pos: nat, e: nat, level: int, cap: nat)
    requires pos <= e <= |d| && o.pos <= e && GoesOn(d, whole, before, Reference(d, pos, level))
    requires InView(d, e, Reference(d, pos, level), o, cap)
    requires o.err == Success || o.err == XmlInvalid || (o.err == BufferDry && e == |d|)
    requires InText(d, before) && InText(d, o.toks + o.pending) && InText(d, whole.toks + whole.pending)
    ensures whole.err == o.err && SameText(d, before + o.toks + o.pending, whole.toks + whole.pending)
    ensures o.err == Success ==> o.pending == [] && SameText(d, before + o.toks, whole.toks)
  {
    var ref := Reference(d, pos, level);
    assert GoesOn(d, ref, [], o) && (o.err == Success ==> o.pending == []);
    hide Reference, InView, Roomy;
    GoesOnTrans(d, whole, before, ref, [], o);
    EndOfRun(d, whole, before, o);
    FlushedInText(d, before, o);
    assert o.err == Success ==> whole.pending == [];
    hide GoesOn, Spell, InText, Markup, Data;
    SameSpelling(d, before + o.toks + o.pending, whole.toks + whole.pending);
    if o.err == Success {
      assert whole.toks + whole.pending == whole.toks && before + o.toks + o.pending == before + o.toks;
    }
  }

  /** One round of the program: the run ends here, or goes on from the state the round leaves. */
  lemma RunGoesOn(d: string, max: nat, more: seq<nat>, pos: nat, e: nat, level: int, cap: nat, before: seq<Token>)
    requires pos <= e <= |d| && e - pos <= max
    ensures var o := Parse(d, pos, e, level, 0, AtMost(cap));
            var r := Ahead(before, Arrive(d, max, more, pos, e, level));
            if o.err == TokensFull then r == Ahead(before + o.toks, Arrive(d, max, more, o.pos, e, o.level))
            else if o.err != BufferDry || e == |d| || e - o.pos == max then
              r == Run(o.err == BufferDry && e < |d|, Prepend(before, o))
            else
              var k := NextRead(more, max - (e - o.pos), |d| - e);
              r == Ahead(before + o.toks, Arrive(d, max, Later(more), o.pos, e + k, o.level))
  {
    hide Parse, NextRead;
    ArriveFull(d, max, more, pos, e, level, cap);
    var o := Parse(d, pos, e, level, 0, AtMost(cap));
    if o.err == TokensFull {
      hide Arrive;
      PrependTwice(before, o.toks, Arrive(d, max, more, o.pos, e, o.level).o);
    } else if o.err == BufferDry && e < |d| && e - o.pos < max {
      var k := NextRead(more, max - (e - o.pos), |d| - e);
      PrependTwice(before, o.toks, Arrive(d, max, Later(more), o.pos, e + k, o.level).o);
    }
  }

  /** Keeping the unread tail and appending what is read keeps the buffer a part of the document. */
  lemma Refilled(buffer: string, d: string, offset: nat, n: nat, k: nat)
    requires n <= |buffer| && offset + |buffer| + k <= |d| && Window(buffer, d, offset)
    ensures var b := buffer[n..] + d[offset + |buffer|..offset + |buffer| + k];
            offset + n + |b| == offset + |buffer| + k && Window(b, d, offset + n)
  {
  }

  lemma WholeInText(d: string)
    ensures InText(d, Reference(d, 0, 0).toks + Reference(d, 0, 0).pending)
  {
    hide Parse, InText;
    OutcomeInText(d, 0, |d|, 0, 0, Unbounded);
  }

  lemma FlushedInText(d: string, before: seq<Token>, o: Outcome)
    requires InText(d, before) && InText(d, o.toks + o.pending)
    ensures InText(d, before + o.toks) && InText(d, before + o.toks + o.pending)
  {
    assert forall t :: t in o.toks ==> t in o.toks + o.pending;
    assert forall t :: t in o.pending ==> t in o.toks + o.pending;
  }

  /** A call after which the program goes on: the run goes on from where it was committed. */
  lemma InViewGoesOn(d: string, whole: Outcome, before: seq<Token>, o: Outcome, pos: nat, e: nat, level: int, cap: nat)
    requires pos <= e <= |d| && o.pos <= e && GoesOn(d, whole, before, Reference(d, pos, level))
    requires InView(d, e, Reference(d, pos, level), o, cap) && (o.err == TokensFull || o.err == BufferDry)
    ensures GoesOn(d, whole, before + o.toks, Reference(d, o.pos, o.level)) && Roomy(d, o.pos, o.level, cap)
  {
    hide Reference, GoesOn, Roomy;
    GoesOnTrans(d, whole, before, Reference(d, pos, level), o.toks, Reference(d, o.pos, o.level));
  }

  lemma EmptyWindow(d: string)
    ensures Window("", d, 0)
  {
  }

  lemma EndOfRun(d: string, whole: Outcome, x: seq<Token>, o: Outcome)
    requires GoesOn(d, whole, x + [], o)
    ensures whole.err == o.err && Shown(d, whole) == Spell(d, x + o.toks + o.pending)
    ensures o.err == Success && o.pending == [] ==> Spell(d, x + o.toks) == Spell(d, whole.toks)
  {
    assert x + [] == x && x + o.toks + o.pending == x + (o.toks + o.pending);
    SpellConcat(d, x, o.toks + o.pending);
    if o.err == Success && o.pending == [] {
      assert x + o.toks + [] == x + o.toks && whole.toks + whole.pending == whole.toks;
    }
  }

  /** Pending text is at most one text token. */
  lemma {:induction false} PendingText(d: string, pos: nat, e: nat, level: int, n: nat, cap: Limit)
    requires pos <= e <= |d| && Fits(n, cap)
    ensures var o := Parse(d, pos, e, level, n, cap);
            |o.pending| <= 1 && forall t :: t in o.pending ==> t.kind == Character && t.startpos <= t.endpos <= |d|
    decreases e - pos
  {
    hide Scan, Construct, Characters, Balance;
    var s := Step(d, pos, e, level, Room(cap, n));
    if s.err != Success {
      if AtText(d, pos, e, level) && s.err != TokensFull {
        StoppedText(d, pos, Scan(d, pos, e, AtChar('<')), Room(cap, n));
      }
    } else if !Finishes(level, s.toks) {
      PendingText(d, s.pos, e, level + Balance(s.toks), n + |s.toks|, cap);
    }
  }

  lemma StoppedText(d: string, pos: nat, end: nat, limit: Limit)
    requires pos <= end <= |d|
    ensures var r := Characters(d, pos, end, [], limit);
            r.err != Success && r.err != TokensFull ==>
              |r.toks| <= 1 && forall t :: t in r.toks ==> t.kind == Character && t.startpos <= t.endpos <= |d|
  {
    hide Scan;
  }

  /** Between two rounds: what is shown up to e is committed up to pos, emitted comes first and the rest follows. */
  ghost predicate Going(d: string, max: nat, run: Run, more: seq<nat>, emitted: seq<Token>, pos: nat, e: nat,
                        level: int, cap: nat)
  {
    && pos <= e <= |d| && e - pos <= max && Roomy(d, pos, level, cap) && InText(d, emitted)
    && GoesOn(d, Reference(d, 0, 0), emitted, Reference(d, pos, level))
    && run == Ahead(emitted, Arrive(d, max, more, pos, e, level))
  }

  /** The last round left o. */
  ghost predicate Ended(d: string, run: Run, before: seq<Token>, o: Outcome) {
    var whole := Reference(d, 0, 0);
    && run.o == Prepend(before, o) && run.o.pos <= |d|
    && (run.stuck ==> o.err == BufferDry && GoesOn(d, whole, before + o.toks, Reference(d, o.pos, o.level)))
    && (!run.stuck ==>
          && o.err == whole.err
          && SameText(d, before + o.toks + o.pending, whole.toks + whole.pending)
          && (o.err == Success ==> o.pending == [] && SameText(d, before + o.toks, whole.toks)))
  }

  lemma StartGoing(d: string, max: nat, pieces: seq<nat>, cap: nat)
    requires Roomy(d, 0, 0, cap)
    ensures Going(d, max, Arrive(d, max, pieces, 0, 0, 0), pieces, [], 0, 0, 0, cap)
  {
    hide Roomy, Arrive, Reference, GoesOn;
    GoesOnSelf(d, Reference(d, 0, 0));
    var r := Arrive(d, max, pieces, 0, 0, 0);
    assert [] + r.o.toks == r.o.toks;
  }

  /** What the round that ends in o leaves. */
  lemma AfterRound(d: string, max: nat, run: Run, more: seq<nat>, before: seq<Token>, pos: nat, e: nat, level: int,
                   cap: nat, o: Outcome)
    requires Going(d, max, run, more, before, pos, e, level, cap)
    requires o == Parse(d, pos, e, level, 0, AtMost(cap))
    requires InView(d, e, Reference(d, pos, level), o, cap) && InText(d, o.toks + o.pending)
    ensures if o.err == TokensFull then Going(d, max, run, more, before + o.toks, o.pos, e, o.level, cap)
            else if o.err != BufferDry || e == |d| || e - o.pos == max then
              run.stuck == (o.err == BufferDry && e < |d|) && Ended(d, run, before, o)
            else
              var k := NextRead(more, max - (e - o.pos), |d| - e);
              Going(d, max, run, Later(more), before + o.toks, o.pos, e + k, o.level, cap)
  {
    hide Parse, Arrive, Roomy, GoesOn, Reference, InView, InText, SameText;
    RunGoesOn(d, max, more, pos, e, level, cap, before);
    FlushedInText(d, before, o);
    if o.err == TokensFull || o.err == BufferDry {
      InViewGoesOn(d, Reference(d, 0, 0), before, o, pos, e, level, cap);
    }
    if o.err != TokensFull && (o.err != BufferDry || e == |d|) {
      WholeInText(d);
      LastRound(d, Reference(d, 0, 0), before, o, pos, e, level, cap);
    }
  }

  lemma GoingRoomy(d: string, max: nat, run: Run, more: seq<nat>, emitted: seq<Token>, pos: nat, e: nat, level: int,
                   cap: nat)
    requires Going(d, max, run, more, emitted, pos, e, level, cap)
    ensures pos <= e <= |d| && Roomy(d, pos, level, cap)
  {
  }

  /** What the end of the run means for the tokens that were shown and dropped. */
  lemma EndedMeans(d: string, max: nat, pieces: seq<nat>, before: seq<Token>, o: Outcome, emitted: seq<Token>,
                   dropped: seq<Token>, cap: nat)
    requires Ended(d, Arrive(d, max, pieces, 0, 0, 0), before, o) && Roomy(d, 0, 0, cap)
    requires emitted + dropped == before + o.toks && (dropped == [] || o.err == XmlInvalid)
    ensures var r, whole := Arrive(d, max, pieces, 0, 0, 0), Reference(d, 0, 0);
            && r.o.err == o.err && emitted + dropped == r.o.toks && o.pending == r.o.pending
            && Table.Sound(0, emitted + dropped, |d|) && Balance(emitted + dropped) == r.o.level >= 0
            && (r.stuck ==>
                  && o.err == BufferDry
                  && GoesOn(d, whole, emitted, Reference(d, r.o.pos, r.o.level)))
            && (!r.stuck ==>
                  && o.err == whole.err
                  && SameText(d, emitted + dropped + o.pending, whole.toks + whole.pending)
                  && (o.err == Success ==> o.pending == [] && SameText(d, emitted, whole.toks)))
            && (!r.stuck ==> Tags(emitted + dropped) == Tags(whole.toks))
            && (|d| <= max ==> !r.stuck) && (|d| <= max && pieces == [] ==> r.o == whole)
            && Covered(d, 0, 0, emitted + dropped, r.o.pos)
            && (cap <= USHORT ==> TopText(d, emitted + dropped) + Rest(d, r.o) == CharacterData(d, 0, 0))
            && (cap <= USHORT && o.err == Success ==> TopText(d, emitted) == CharacterData(d, 0, 0))
  {
    hide Arrive, Reference, GoesOn, SameText, Balance, Tags, Table.Sound, Covered, TopText, CharacterData, Roomy;
    ArriveSound(d, max, pieces, 0, 0, 0);
    ArriveMarks(d, max, pieces, 0, 0, 0);
    if cap <= USHORT {
      ArriveText(d, max, pieces, 0, 0, 0, cap);
      assert TopText(d, emitted) + "" == TopText(d, emitted);
    }
    ArriveTags(d, max, pieces, 0, 0, 0);
    assert dropped == [] ==> emitted + dropped == emitted;
    if |d| <= max {
      NeverStuck(d, max, pieces, 0, 0, 0);
      if pieces == [] { OnePiece(d, max, pieces); }
    }
  }

  /** The program around the parser: it empties the table when it is full, and when the buffer runs dry it also
      keeps the unread tail, fills the room that is left with what is read next and parses on. It ends stuck when the
      tail already fills the buffer, and runs dry at the end of the document. The tokens and the verdict are exactly
      those of the same pieces with an unlimited table. Unless it gets stuck, however the input arrives, they have the
      verdict, the tags with their attributes, the other markup and the character data of one parse of the whole
      document with an unlimited table; they are the same tokens when the document arrives in one piece. They mark the
      document construct by construct without a gap, and when it is accepted their text is the text between the
      markup. When the document is bad, dropped is what the last call had committed and the program does not print;
      pending is text the last call read in front of an incomplete or bad entity. */
  method ParseStream(d: string, max: nat, pieces: seq<nat>, numTokens: nat)
    returns (err: Err, stuck: bool, emitted: seq<Token>, ghost dropped: seq<Token>, ghost pending: seq<Token>)
    requires Roomy(d, 0, 0, numTokens)
    ensures var r := Arrive(d, max, pieces, 0, 0, 0);
            && stuck == r.stuck && err == r.o.err && emitted + dropped == r.o.toks && pending == r.o.pending
            && NeverNegative(0, emitted + dropped) && Balance(emitted + dropped) == r.o.level >= 0
            && WellFormed(emitted + dropped, |d|)
            && (stuck ==>
                  && err == BufferDry
                  && GoesOn(d, Reference(d, 0, 0), emitted, Reference(d, r.o.pos, r.o.level)))
    ensures |d| <= max ==> !stuck
    ensures |d| <= max && pieces == [] ==>
              var whole := Reference(d, 0, 0);
              err == whole.err && emitted + dropped == whole.toks && pending == whole.pending
    ensures !stuck ==>
              var whole := Reference(d, 0, 0);
              && err == whole.err && Tags(emitted + dropped) == Tags(whole.toks)
              && SameText(d, emitted + dropped + pending, whole.toks + whole.pending)
              && (err == Success ==> pending == [] && SameText(d, emitted, whole.toks))
    ensures var o := Arrive(d, max, pieces, 0, 0, 0).o;
            && Covered(d, 0, 0, emitted + dropped, o.pos)
            && (numTokens <= USHORT ==> TopText(d, emitted + dropped) + Rest(d, o) == CharacterData(d, 0, 0))
            && (numTokens <= USHORT && err == Success ==> TopText(d, emitted) == CharacterData(d, 0, 0))
    ensures err != TokensFull && (err != XmlInvalid ==> dropped == [])
    ensures |pending| <= 1 && forall t :: t in pending ==> t.kind == Character
  {
    hide Step, Parse, Window, Scan, Roomy, Going, Ended, InText, InView, Arrive, Balance, NeverNegative;
    hide WellFormed, Tags, Covered, TopText, CharacterData;
    ghost var run := Arrive(d, max, pieces, 0, 0, 0);
    var tokens := new Token[numTokens + 1];
    var state := new State();
    var buffer, more := "", pieces;
    var offset: nat := 0;
    emitted, dropped, pending, stuck := [], [], [], false;
    assert Window(buffer, d, offset) by { EmptyWindow(d); }
    StartGoing(d, max, pieces, numTokens);
    while true
      invariant offset + |buffer| <= |d| && |buffer| <= max && Window(buffer, d, offset)
      invariant state.ntokens == 0 && state.taglevel >= 0 && state.bufferpos <= |buffer|
      invariant Going(d, max, run, more, emitted, offset + state.bufferpos, offset + |buffer|, state.taglevel,
                      numTokens)
      invariant dropped == [] && !stuck
      decreases |d| - offset - |buffer|, |buffer| - state.bufferpos
    {
      ghost var pos, level := offset + state.bufferpos, state.taglevel;
      ghost var o := Parse(d, pos, offset + |buffer|, level, 0, AtMost(numTokens));
      ghost var before := emitted;
      var flushed: seq<Token>;
      GoingRoomy(d, max, run, more, emitted, pos, offset + |buffer|, level, numTokens);
      err, flushed := Round(state, buffer, tokens, numTokens, d, offset);
      AfterRound(d, max, run, more, before, pos, offset + |buffer|, level, numTokens, o);
      if err == XmlInvalid {
        dropped, pending := flushed, o.pending;
        EndedMeans(d, max, pieces, before, o, emitted, dropped, numTokens);
        return;
      }
      emitted := emitted + flushed;
      if err == Success || (err == BufferDry && (offset + |buffer| == |d| || |buffer| - state.bufferpos == max)) {
        stuck, pending := err == BufferDry && offset + |buffer| < |d|, o.pending;
        EndedMeans(d, max, pieces, before, o, emitted, dropped, numTokens);
        return;
      }
      if err == BufferDry {
        var k := NextRead(more, max - (|buffer| - state.bufferpos), |d| - offset - |buffer|);
        Refilled(buffer, d, offset, state.bufferpos, k);
        buffer := buffer[state.bufferpos..] + d[offset + |buffer|..offset + |buffer| + k];
        offset := offset + state.bufferpos;
        state.bufferpos := 0;
        more := Later(more);
      }
    }
  }
}
