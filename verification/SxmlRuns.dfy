/** Whole runs of the parser over what is visible of a document, with a bounded or an unbounded token table. */
module SxmlRuns {
  import opened SxmlText
  import opened SxmlGrammar

  /** Where a run stops: the committed position and level, the committed tokens, and the text that was read
      but not committed because the entity behind it is incomplete or bad. */
  datatype Outcome = Outcome(err: Err, pos: nat, level: int, toks: seq<Token>, pending: seq<Token>)

  function Room(cap: Limit, n: nat): Limit
    requires Fits(n, cap)
  {
    if cap.AtMost? then AtMost(cap.n - n) else Unbounded
  }

  /** The root element has just been closed. */
  predicate Finishes(level: int, toks: seq<Token>) {
    level > 0 && level + Balance(toks) <= 0
  }

  /** A step that does not succeed leaves the state as committed before it. */
  function Stopped(d: string, pos: nat, e: nat, level: int, s: Res): Outcome
    requires pos <= e <= |d|
  {
    Outcome(s.err, CommitPos(d, pos, e, level), level, [],
            if AtText(d, pos, e, level) && s.err != TokensFull then s.toks else [])
  }

  /** Steps from a committed state with n tokens in the table until one does not succeed. */
  function Parse(d: string, pos: nat, e: nat, level: int, n: nat, cap: Limit): (o: Outcome)
    requires pos <= e <= |d| && Fits(n, cap)
    ensures pos <= o.pos <= e && Fits(n + |o.toks|, cap)
    decreases e - pos
  {
    var s := Step(d, pos, e, level, Room(cap, n));
    if s.err != Success then
      Stopped(d, pos, e, level, s)
    else if Finishes(level, s.toks) then
      Outcome(Success, s.pos, level + Balance(s.toks), s.toks, [])
    else
      var o := Parse(d, s.pos, e, level + Balance(s.toks), n + |s.toks|, cap);
      o.(toks := s.toks + o.toks)
  }

  /** The run with tokens put in front of its own. */
  function Prepend(x: seq<Token>, o: Outcome): Outcome {
    o.(toks := x + o.toks)
  }

  /** The run over the whole document with an unlimited table. */
  function Reference(d: string, pos: nat, level: int): Outcome
    requires pos <= |d|
  {
    Parse(d, pos, |d|, level, 0, Unbounded)
  }

  // ---------- A limited table decides as an unlimited one, or is full ----------

  predicate RoomAgrees(u: Res, r: Res, limit: Limit) {
    u.err != TokensFull && (r == u || (r.err == TokensFull && !Fits(|u.toks|, limit)))
  }

  lemma CharactersRoom(d: string, pos: nat, end: nat, toks: seq<Token>, limit: Limit)
    requires pos <= end <= |d|
    ensures RoomAgrees(Characters(d, pos, end, toks, Unbounded), Characters(d, pos, end, toks, limit), limit)
  {
    hide Scan;
  }

  lemma {:induction false} AttrValueRoom(d: string, pos: nat, end: nat, toks: seq<Token>, limit: Limit)
    requires pos <= end <= |d|
    ensures RoomAgrees(AttrValue(d, pos, end, toks, Unbounded), AttrValue(d, pos, end, toks, limit), limit)
    decreases end - pos
  {
    hide Characters;
    if pos != end {
      CharactersRoom(d, pos, end, toks, limit);
      var u := Characters(d, pos, end, toks, Unbounded);
      if u.err == Success {
        AttrValueRoom(d, u.pos, end, u.toks, limit);
      }
    }
  }

  lemma AttrOneRoom(d: string, name: nat, e: nat, toks: seq<Token>, limit: Limit)
    requires name < e <= |d| && NameStartChar(d[name])
    ensures RoomAgrees(AttrOne(d, name, e, toks, Unbounded), AttrOne(d, name, e, toks, limit), limit)
  {
    hide Scan, RTrim, AttrValue;
    var eq := Scan(d, name, e, AtChar('='));
    if eq < e {
      var quot := Scan(d, eq + 1, e, AtNonSpace);
      if quot < e {
        var close := Scan(d, quot + 1, e, AtChar(d[quot]));
        if close < e {
          AttrValueRoom(d, quot + 1, close, toks + [Token(CData, 0, name, RTrim(d, name, eq))], limit);
        }
      }
    }
  }

  lemma {:induction false} AttrLoopRoom(d: string, name: nat, e: nat, toks: seq<Token>, limit: Limit)
    requires name <= e <= |d|
    ensures RoomAgrees(AttrLoop(d, name, e, toks, Unbounded), AttrLoop(d, name, e, toks, limit), limit)
    decreases e - name
  {
    hide AttrOne;
    if name < e && NameStartChar(d[name]) {
      AttrOneRoom(d, name, e, toks, limit);
      var u := AttrOne(d, name, e, toks, Unbounded);
      if u.err == Success {
        AttrLoopRoom(d, u.pos, e, u.toks, limit);
      }
    }
  }

  lemma AttributesRoom(d: string, pos: nat, e: nat, toks: seq<Token>, limit: Limit)
    requires pos <= e <= |d| && toks != []
    ensures RoomAgrees(Attributes(d, pos, e, toks, Unbounded), Attributes(d, pos, e, toks, limit), limit)
  {
    hide AttrLoop, Scan;
    AttrLoopRoom(d, Scan(d, pos, e, AtNonSpace), e, toks, limit);
  }

  lemma TagRoom(d: string, pos: nat, e: nat, limit: Limit)
    requires pos + TAG_MINSIZE <= e <= |d|
    ensures RoomAgrees(StartAt(d, pos, e, Unbounded), StartAt(d, pos, e, limit), limit)
    ensures RoomAgrees(InstructionAt(d, pos, e, Unbounded), InstructionAt(d, pos, e, limit), limit)
  {
    hide Attributes, Scan;
    var space := Scan(d, pos + 1, e, AtNonName);
    if space < e {
      AttributesRoom(d, space, e, [Token(StartTag, 0, pos + 1, space)], limit);
    }
    var end := Scan(d, pos + 2, e, AtNonName);
    if end < e {
      AttributesRoom(d, end, e, [Token(Instruction, 0, pos + 2, end)], limit);
    }
  }

  lemma DelimitedRoom(d: string, pos: nat, e: nat, open: string, close: string, mismatch: Err, kind: Kind, limit: Limit)
    requires pos <= e <= |d| && close != "" && mismatch != Success && mismatch != TokensFull
    ensures RoomAgrees(Delimited(d, pos, e, open, close, mismatch, kind, Unbounded),
                       Delimited(d, pos, e, open, close, mismatch, kind, limit), limit)
  {
    hide FindStr;
  }

  lemma EndRoom(d: string, pos: nat, e: nat, limit: Limit)
    requires pos + TAG_MINSIZE <= e <= |d|
    ensures RoomAgrees(EndAt(d, pos, e, Unbounded), EndAt(d, pos, e, limit), limit)
  {
    hide Scan;
  }

  lemma ConstructRoom(d: string, lt: nat, e: nat, inRoot: bool, limit: Limit)
    requires lt + TAG_MINSIZE <= e <= |d|
    ensures RoomAgrees(Construct(d, lt, e, inRoot, Unbounded), Construct(d, lt, e, inRoot, limit), limit)
  {
    hide StartAt, InstructionAt, EndAt, Delimited;
    TagRoom(d, lt, e, limit);
    EndRoom(d, lt, e, limit);
    DelimitedRoom(d, lt, e, "<!--", "-->", XmlInvalid, Comment, limit);
    DelimitedRoom(d, lt, e, "<!DOCTYPE", "]>", BufferDry, DocType, limit);
    DelimitedRoom(d, lt, e, "<![CDATA[", "]]>", XmlInvalid, CData, limit);
  }

  lemma StepRoom(d: string, pos: nat, e: nat, level: int, limit: Limit)
    requires pos <= e <= |d|
    ensures RoomAgrees(Step(d, pos, e, level, Unbounded), Step(d, pos, e, level, limit), limit)
  {
    hide Construct, Characters, Scan;
    var lt := CommitPos(d, pos, e, level);
    if AtText(d, pos, e, level) {
      CharactersRoom(d, pos, Scan(d, pos, e, AtChar('<')), [], limit);
    } else if e - lt >= TAG_MINSIZE {
      ConstructRoom(d, lt, e, level > 0, limit);
    }
  }
}
