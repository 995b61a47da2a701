/** The SXML parser: a state that is copied, advanced over one construct and committed only on success. */
module SxmlParser {
  import opened SxmlText
  import opened SxmlGrammar
  import Table = SxmlTable

  /** `sxml_t` */
  class State {
    var bufferpos: nat
    var ntokens: nat
    var taglevel: int

    constructor ()
      ensures bufferpos == 0 && ntokens == 0 && taglevel == 0
    {
      bufferpos, ntokens, taglevel := 0, 0, 0;
    }

    /** `state_commit`, in either direction. */
    method CopyFrom(src: State)
      modifies this
      ensures bufferpos == src.bufferpos && ntokens == src.ntokens && taglevel == src.taglevel
    {
      bufferpos, ntokens, taglevel := src.bufferpos, src.ntokens, src.taglevel;
    }
  }

  /** `sxml_args_t`. The table has one slot more than may be used, because the size of a refused header is written. */
  datatype Args = Args(buffer: string, tokens: array<Token>, numTokens: nat) {
    predicate Valid() {
      tokens.Length == numTokens + 1
    }
  }

  /** Where the buffer lies in the document, and the state before the current construct. */
  datatype Origin = Origin(doc: string, base: nat, n: nat, level: int) {
    ghost predicate Shows(args: Args) {
      && base + |args.buffer| <= |doc| && Window(args.buffer, doc, base)
      && args.Valid() && n <= args.numTokens
    }

    function End(args: Args): nat {
      base + |args.buffer|
    }

    function Limit(args: Args): Limit
      requires n <= args.numTokens
    {
      AtMost(args.numTokens - n)
    }
  }

  function AtBase(t: Token, base: nat): Token {
    t.(startpos := base + t.startpos, endpos := base + t.endpos)
  }

  /** The pushed tokens that found room. */
  function Accepted(args: Args, o: Origin, toks: seq<Token>): (r: seq<Token>)
    requires o.n <= args.numTokens
    ensures |r| == Min(|toks|, args.numTokens - o.n)
  {
    toks[..Min(|toks|, args.numTokens - o.n)]
  }

  /** The construct has pushed toks so far: those that fit are in the table and count for the level. */
  ghost predicate Pushed(state: State, args: Args, o: Origin, toks: seq<Token>)
    reads state, args.tokens
  {
    && o.Shows(args)
    && state.bufferpos <= |args.buffer|
    && state.ntokens == o.n + |toks|
    && Stored(args, o, toks)
    && state.taglevel == o.level + Balance(Accepted(args, o, toks))
  }

  ghost predicate Stored(args: Args, o: Origin, toks: seq<Token>)
    requires o.Shows(args)
    reads args.tokens
  {
    forall j :: o.n <= j < o.n + |toks| && j < args.numTokens ==> AtBase(args.tokens[j], o.base) == toks[j - o.n]
  }

  /** The tokens of the committed constructs are as before. */
  twostate predicate Untouched(args: Args, o: Origin)
    requires o.Shows(args)
    reads args.tokens
  {
    forall j :: 0 <= j < o.n ==> args.tokens[j] == old(args.tokens[j])
  }

  /** How a parsing method reports the result its specification function computes. */
  twostate predicate Reports(state: State, args: Args, o: Origin, err: Err, r: Res)
    reads state, args.tokens
  {
    && err == r.err
    && o.Shows(args) && Untouched(args, o)
    && (err == Success ==> Pushed(state, args, o, r.toks) && o.base + state.bufferpos == r.pos)
  }

  lemma AcceptedPush(args: Args, o: Origin, toks: seq<Token>, t: Token)
    requires o.n <= args.numTokens
    ensures var fits := o.n + |toks| < args.numTokens;
            Balance(Accepted(args, o, toks + [t])) == Balance(Accepted(args, o, toks)) + if fits then Delta(t) else 0
  {
    if o.n + |toks| < args.numTokens {
      assert Accepted(args, o, toks + [t]) == toks + [t] && (toks + [t])[..|toks|] == toks;
      assert Accepted(args, o, toks) == toks;
    } else {
      assert Accepted(args, o, toks + [t]) == Accepted(args, o, toks);
    }
  }

  method PushToken(state: State, args: Args, kind: Kind, start: nat, end: nat, ghost o: Origin, ghost toks: seq<Token>)
    returns (pushed: bool)
    requires Pushed(state, args, o, toks)
    requires kind == EndTag && state.ntokens < args.numTokens ==> state.taglevel > 0
    modifies state, args.tokens
    ensures Pushed(state, args, o, toks + [Token(kind, 0, o.base + start, o.base + end)])
    ensures state.bufferpos == old(state.bufferpos) && Untouched(args, o)
    ensures pushed <==> state.ntokens <= args.numTokens
  {
    hide Balance, Accepted;
    AcceptedPush(args, o, toks, Token(kind, 0, o.base + start, o.base + end));
    var i := state.ntokens;
    state.ntokens := state.ntokens + 1;
    if args.numTokens < state.ntokens {
      return false;
    }
    args.tokens[i] := Token(kind, 0, start, end);
    match kind {
      case StartTag => state.taglevel := state.taglevel + 1;
      case EndTag => state.taglevel := state.taglevel - 1;
      case _ =>
    }
    return true;
  }

  method SetPosition(state: State, args: Args, ptr: nat) returns (err: Err)
    modifies state
    ensures state.bufferpos == ptr && state.ntokens == old(state.ntokens) && state.taglevel == old(state.taglevel)
    ensures err == if state.ntokens <= args.numTokens then Success else TokensFull
  {
    state.bufferpos := ptr;
    err := if state.ntokens <= args.numTokens then Success else TokensFull;
  }

  // ---------- Reading the buffer as a part of the document ----------

  method CharAt(args: Args, i: nat, ghost o: Origin) returns (c: char)
    requires o.Shows(args) && i < |args.buffer|
    ensures o.End(args) <= |o.doc| && c == o.doc[o.base + i]
  {
    return args.buffer[i];
  }

  method FindChr(args: Args, s: nat, e: nat, c: char, ghost o: Origin) returns (r: nat)
    requires o.Shows(args) && s <= e <= |args.buffer|
    ensures s <= r <= e && o.End(args) <= |o.doc| && o.base + r == Scan(o.doc, o.base + s, o.base + e, AtChar(c))
  {
    r := StrFindChr(args.buffer, s, e, c);
    ScanWindow(args.buffer, o.doc, o.base, s, e, o.base + e, AtChar(c));
  }

  method LTrim(args: Args, s: nat, e: nat, ghost o: Origin) returns (r: nat)
    requires o.Shows(args) && s <= e <= |args.buffer|
    ensures s <= r <= e && o.End(args) <= |o.doc| && o.base + r == Scan(o.doc, o.base + s, o.base + e, AtNonSpace)
  {
    r := StrLTrim(args.buffer, s, e);
    ScanWindow(args.buffer, o.doc, o.base, s, e, o.base + e, AtNonSpace);
  }

  method FindNotAlnum(args: Args, s: nat, e: nat, ghost o: Origin) returns (r: nat)
    requires o.Shows(args) && s <= e <= |args.buffer|
    ensures s <= r <= e && o.End(args) <= |o.doc| && o.base + r == Scan(o.doc, o.base + s, o.base + e, AtNonName)
  {
    r := StrFindNotAlnum(args.buffer, s, e);
    ScanWindow(args.buffer, o.doc, o.base, s, e, o.base + e, AtNonName);
  }

  method RTrimName(args: Args, s: nat, e: nat, ghost o: Origin) returns (r: nat)
    requires o.Shows(args) && s <= e <= |args.buffer|
    ensures s <= r <= e && o.End(args) <= |o.doc| && o.base + r == RTrim(o.doc, o.base + s, o.base + e)
  {
    r := StrRTrim(args.buffer, s, e);
    RTrimWindow(args.buffer, o.doc, o.base, s, e);
  }

  method FindString(args: Args, s: nat, needle: string, ghost o: Origin) returns (r: nat)
    requires o.Shows(args) && s <= |args.buffer| && needle != ""
    ensures s <= r <= |args.buffer| && o.End(args) <= |o.doc|
    ensures o.base + r == FindStr(o.doc, o.base + s, o.End(args), needle)
    ensures r < |args.buffer| ==> r + |needle| <= |args.buffer|
  {
    r := StrFindStr(args.buffer, s, |args.buffer|, needle);
    FindStrWindow(args.buffer, o.doc, o.base, s, |args.buffer|, o.End(args), needle);
  }

  method LooksAt(args: Args, s: nat, prefix: string, ghost o: Origin) returns (r: bool)
    requires o.Shows(args) && s <= |args.buffer|
    ensures o.End(args) <= |o.doc| && (r <==> StartsWith(o.doc, o.base + s, o.End(args), prefix))
  {
    StartsWithWindow(args.buffer, o.doc, o.base, s, |args.buffer|, o.End(args), prefix);
    return StartsWith(args.buffer, s, |args.buffer|, prefix);
  }

  // ---------- Parsing ----------

  /** The text in front of an ampersand, if there is any. */
  method PushText(state: State, args: Args, start: nat, ampr: nat, ghost o: Origin, ghost toks: seq<Token>)
    returns (ghost text: seq<Token>)
    requires Pushed(state, args, o, toks)
    modifies state, args.tokens
    ensures text == if ampr != start then toks + [Token(Character, 0, o.base + start, o.base + ampr)] else toks
    ensures Pushed(state, args, o, text) && Untouched(args, o) && state.bufferpos == old(state.bufferpos)
  {
    hide Balance, Accepted, Stored, Window;
    text := toks;
    if ampr != start {
      var _ := PushToken(state, args, Character, start, ampr, o, toks);
      text := toks + [Token(Character, 0, o.base + start, o.base + ampr)];
    }
  }

  method ParseCharacters(state: State, args: Args, end: nat, ghost o: Origin, ghost toks: seq<Token>) returns (err: Err)
    requires Pushed(state, args, o, toks) && state.bufferpos <= end <= |args.buffer|
    modifies state, args.tokens
    ensures Reports(state, args, o, err,
                    Characters(o.doc, o.base + old(state.bufferpos), o.base + end, toks, o.Limit(args)))
  {
    hide Scan, StartsWith, Balance, Accepted, Stored, Window;
    var start := state.bufferpos;
    var ampr := FindChr(args, start, end, '&', o);
    ghost var text := PushText(state, args, start, ampr, o, toks);
    if ampr == end {
      err := SetPosition(state, args, ampr);
      return;
    }
    var limit := Min(ampr + ENTITY_MAXLEN, end);
    var colon := FindChr(args, ampr, limit, ';', o);
    if colon == limit {
      return if limit == end then BufferDry else XmlInvalid;
    }
    start := colon + 1;
    var _ := PushToken(state, args, Character, ampr, start, o, text);
    err := SetPosition(state, args, start);
  }

  method ParseAttrValue(state: State, args: Args, end: nat, ghost o: Origin, ghost toks: seq<Token>) returns (err: Err)
    requires Pushed(state, args, o, toks) && state.bufferpos <= end <= |args.buffer|
    modifies state, args.tokens
    ensures Reports(state, args, o, err,
                    AttrValue(o.doc, o.base + old(state.bufferpos), o.base + end, toks, o.Limit(args)))
  {
    hide Characters, Balance, Accepted, Stored, Window;
    ghost var start, pushed := state.bufferpos, toks;
    while state.bufferpos != end
      invariant state.bufferpos <= end && Pushed(state, args, o, pushed)
      invariant Untouched(args, o)
      invariant AttrValue(o.doc, o.base + start, o.base + end, toks, o.Limit(args))
             == AttrValue(o.doc, o.base + state.bufferpos, o.base + end, pushed, o.Limit(args))
      decreases end - state.bufferpos
    {
      ghost var r := Characters(o.doc, o.base + state.bufferpos, o.base + end, pushed, o.Limit(args));
      err := ParseCharacters(state, args, end, o, pushed);
      if err != Success {
        return;
      }
      pushed := r.toks;
    }
    return Success;
  }

  /** The end of the attribute name, its token, and the opening quote of the value. */
  method ParseAttrName(state: State, args: Args, name: nat, ghost o: Origin, ghost toks: seq<Token>)
    returns (found: bool, quot: nat)
    requires Pushed(state, args, o, toks) && name < |args.buffer| && o.End(args) <= |o.doc|
    requires NameStartChar(o.doc[o.base + name])
    modifies state, args.tokens
    ensures Untouched(args, o) && quot <= |args.buffer|
    ensures var e := o.End(args);
            var eq := Scan(o.doc, o.base + name, e, AtChar('='));
            if !found then
              AttrOne(o.doc, o.base + name, e, toks, o.Limit(args)).err == BufferDry
            else
              var toks1 := toks + [Token(CData, 0, o.base + name, RTrim(o.doc, o.base + name, eq))];
              && Pushed(state, args, o, toks1)
              && AttrOne(o.doc, o.base + name, e, toks, o.Limit(args)) ==
                 AttrQuoted(o.doc, o.base + quot, e, toks1, o.Limit(args))
  {
    hide Scan, RTrim, AttrQuoted, Balance, Accepted, Stored, Window;
    var end := |args.buffer|;
    var eq := FindChr(args, name, end, '=', o);
    if eq == end {
      return false, 0;
    }
    var space := RTrimName(args, name, eq, o);
    var _ := PushToken(state, args, CData, name, space, o, toks);
    quot := LTrim(args, eq + 1, end, o);
    return true, quot;
  }

  /** One attribute: its name and its quoted value. */
  method ParseAttribute(state: State, args: Args, name: nat, ghost o: Origin, ghost toks: seq<Token>)
    returns (err: Err, next: nat)
    requires Pushed(state, args, o, toks) && name < |args.buffer| && o.End(args) <= |o.doc|
    requires NameStartChar(o.doc[o.base + name])
    modifies state, args.tokens
    ensures var r := AttrOne(o.doc, o.base + name, o.End(args), toks, o.Limit(args));
            && err == r.err && Untouched(args, o)
            && (err == Success ==> Pushed(state, args, o, r.toks) && o.base + next == r.pos && next <= |args.buffer|)
  {
    hide Scan, RTrim, AttrOne, AttrQuoted, Balance, Accepted, Stored, Window;
    ghost var eq := Scan(o.doc, o.base + name, o.End(args), AtChar('='));
    ghost var toks1 := toks + [Token(CData, 0, o.base + name, RTrim(o.doc, o.base + name, eq))];
    var found, quot := ParseAttrName(state, args, name, o, toks);
    if !found {
      return BufferDry, quot;
    }
    err, next := ParseQuoted(state, args, quot, o, toks1);
  }

  /** The value of an attribute, from its opening quote on. */
  method ParseQuoted(state: State, args: Args, quot: nat, ghost o: Origin, ghost toks: seq<Token>)
    returns (err: Err, next: nat)
    requires Pushed(state, args, o, toks) && quot <= |args.buffer| && o.End(args) <= |o.doc|
    modifies state, args.tokens
    ensures var r := AttrQuoted(o.doc, o.base + quot, o.End(args), toks, o.Limit(args));
            && err == r.err && Untouched(args, o)
            && (err == Success ==> Pushed(state, args, o, r.toks) && o.base + next == r.pos && next <= |args.buffer|)
  {
    hide Scan, AttrValue, Balance, Accepted, Stored, Window;
    var end := |args.buffer|;
    next := quot;
    if quot == end {
      return BufferDry, next;
    }
    var quote := CharAt(args, quot, o);
    if quote != '\'' && quote != '"' {
      return XmlInvalid, next;
    }
    var value := quot + 1;
    var close := FindChr(args, value, end, quote, o);
    if close == end {
      return BufferDry, next;
    }
    var _ := SetPosition(state, args, value);
    err := ParseAttrValue(state, args, close, o, toks);
    if err != Success {
      return;
    }
    next := LTrim(args, close + 1, end, o);
  }

  method IsNameAt(args: Args, name: nat, ghost o: Origin) returns (r: bool)
    requires o.Shows(args) && name <= |args.buffer|
    ensures o.End(args) <= |o.doc| && (r <==> name < |args.buffer| && NameStartChar(o.doc[o.base + name]))
  {
    return name < |args.buffer| && NameStartChar(args.buffer[name]);
  }

  method ParseAttributes(state: State, args: Args, ghost o: Origin, ghost header: Token) returns (err: Err)
    requires Pushed(state, args, o, [header])
    modifies state, args.tokens
    ensures Reports(state, args, o, err,
                    Attributes(o.doc, o.base + old(state.bufferpos), o.End(args), [header], o.Limit(args)))
  {
    hide Scan, NameStartChar, AttrOne, Balance, Accepted, Stored, Window;
    var end := |args.buffer|;
    var name := LTrim(args, state.bufferpos, end, o);
    var ntokens := state.ntokens;
    ghost var first, pushed := name, [header];
    ghost var whole := AttrLoop(o.doc, o.base + first, o.End(args), [header], o.Limit(args));
    var more := IsNameAt(args, name, o);
    while more
      invariant name <= end && Pushed(state, args, o, pushed) && Untouched(args, o) && |pushed| >= 1
      invariant whole == AttrLoop(o.doc, o.base + name, o.End(args), pushed, o.Limit(args))
      invariant ntokens == o.n + 1
      invariant more <==> name < end && NameStartChar(o.doc[o.base + name])
      decreases end - name
    {
      ghost var r := AttrOne(o.doc, o.base + name, o.End(args), pushed, o.Limit(args));
      var next;
      err, next := ParseAttribute(state, args, name, o, pushed);
      if err != Success {
        return;
      }
      name := next;
      pushed := r.toks;
      more := IsNameAt(args, name, o);
    }
    assert whole == SetPos(o.base + name, pushed, o.Limit(args));
    ghost var size := (|pushed| - 1) % USHORT;
    WriteSize(state, args, ntokens - 1, o, pushed);
    err := SetPosition(state, args, name);
  }

  /** Writes the header's size once its attributes are known, into a refused header's slot as well. */
  method WriteSize(state: State, args: Args, header: nat, ghost o: Origin, ghost toks: seq<Token>)
    requires Pushed(state, args, o, toks) && header == o.n && |toks| >= 1
    modifies args.tokens
    ensures Pushed(state, args, o, toks[0 := toks[0].(size := (|toks| - 1) % USHORT)]) && Untouched(args, o)
  {
    ghost var sized := toks[0 := toks[0].(size := (|toks| - 1) % USHORT)];
    SizeKeepsBalance(args, o, toks, sized);
    hide Balance, Accepted;
    args.tokens[header] := args.tokens[header].(size := (state.ntokens - (header + 1)) % USHORT);
  }

  lemma SizeKeepsBalance(args: Args, o: Origin, toks: seq<Token>, toks': seq<Token>)
    requires o.n <= args.numTokens && |toks| == |toks'| && forall i :: 0 <= i < |toks| ==> toks[i].kind == toks'[i].kind
    ensures Balance(Accepted(args, o, toks)) == Balance(Accepted(args, o, toks'))
  {
    KindsBalance(Accepted(args, o, toks), Accepted(args, o, toks'));
  }

  lemma {:induction false} KindsBalance(x: seq<Token>, y: seq<Token>)
    requires |x| == |y| && forall i :: 0 <= i < |x| ==> x[i].kind == y[i].kind
    ensures Balance(x) == Balance(y)
  {
    if x != [] {
      KindsBalance(x[..|x| - 1], y[..|y| - 1]);
    }
  }

  /** Comments, document types and CDATA sections: an opening string, one token, a closing string. */
  method ParseDelimited(state: State, args: Args, open: string, close: string, mismatch: Err, kind: Kind,
      ghost o: Origin)
    returns (err: Err)
    requires Pushed(state, args, o, []) && close != "" && mismatch != Success && kind != EndTag
    modifies state, args.tokens
    ensures Reports(state, args, o, err,
                    Delimited(o.doc, o.base + old(state.bufferpos), o.End(args), open, close, mismatch, kind,
                        o.Limit(args)))
  {
    hide FindStr, StartsWith, Balance, Accepted, Stored, Window;
    var start, end := state.bufferpos, |args.buffer|;
    if end - start < |open| {
      return BufferDry;
    }
    var looks := LooksAt(args, start, open, o);
    if !looks {
      return mismatch;
    }
    start := start + |open|;
    var found := FindString(args, start, close, o);
    if found == end {
      return BufferDry;
    }
    assert [] + [Token(kind, 0, o.base + start, o.base + found)] == [Token(kind, 0, o.base + start, o.base + found)];
    var _ := PushToken(state, args, kind, start, found, o, []);
    err := SetPosition(state, args, found + |close|);
  }

  method ParseInstruction(state: State, args: Args, ghost o: Origin) returns (err: Err)
    requires Pushed(state, args, o, []) && state.bufferpos + TAG_MINSIZE <= |args.buffer|
    modifies state, args.tokens
    ensures Reports(state, args, o, err, InstructionAt(o.doc, o.base + old(state.bufferpos), o.End(args),
        o.Limit(args)))
  {
    hide Scan, StartsWith, Attributes, Balance, Accepted, Stored, Window;
    var start, end := state.bufferpos, |args.buffer|;
    var looks := LooksAt(args, start, "<?", o);
    if !looks {
      return XmlInvalid;
    }
    start := start + 2;
    var space := FindNotAlnum(args, start, end, o);
    if space == end {
      return BufferDry;
    }
    ghost var header := Token(Instruction, 0, o.base + start, o.base + space);
    assert [] + [header] == [header];
    var _ := PushToken(state, args, Instruction, start, space, o, []);
    err := SetPosition(state, args, space);
    err := ParseAttributes(state, args, o, header);
    if err != Success {
      return;
    }
    var quest := state.bufferpos;
    if end - quest < 2 {
      return BufferDry;
    }
    var closed := LooksAt(args, quest, "?>", o);
    if !closed {
      return XmlInvalid;
    }
    err := SetPosition(state, args, quest + 2);
  }

  method ParseStart(state: State, args: Args, ghost o: Origin) returns (err: Err)
    requires Pushed(state, args, o, []) && state.bufferpos + TAG_MINSIZE <= |args.buffer| && o.level >= 0
    modifies state, args.tokens
    ensures Reports(state, args, o, err, StartAt(o.doc, o.base + old(state.bufferpos), o.End(args), o.Limit(args)))
  {
    hide Scan, NameStartChar, Attributes, TagEnd, Balance, Accepted, Stored, Window;
    var start, end := state.bufferpos, |args.buffer|;
    var lt := CharAt(args, start, o);
    var initial := CharAt(args, start + 1, o);
    if !(lt == '<' && NameStartChar(initial)) {
      return XmlInvalid;
    }
    var name := start + 1;
    var space := FindNotAlnum(args, name, end, o);
    if space == end {
      return BufferDry;
    }
    ghost var header := Token(StartTag, 0, o.base + name, o.base + space);
    assert [] + [header] == [header];
    var _ := PushToken(state, args, StartTag, name, space, o, []);
    err := SetPosition(state, args, space);
    err := ParseAttributes(state, args, o, header);
    if err != Success {
      return;
    }
    Table.StartOpens(o.doc, o.base + space, o.End(args), header, o.Limit(args));
    err := ParseTagEnd(state, args, name, space, o, Attributes(o.doc, o.base + space, o.End(args), [header],
        o.Limit(args)));
  }

  /** What follows the attributes of an open tag: "/>" or ">". */
  method ParseTagEnd(state: State, args: Args, name: nat, space: nat, ghost o: Origin, ghost r: Res) returns (err: Err)
    requires Pushed(state, args, o, r.toks) && o.base + state.bufferpos == r.pos && r.pos <= |o.doc|
    requires Balance(r.toks) == 1 && o.level >= 0
    modifies state, args.tokens
    ensures Reports(state, args, o, err, TagEnd(o.doc, o.base + name, o.base + space, o.End(args), r, o.Limit(args)))
  {
    assert state.ntokens < args.numTokens ==> state.taglevel > 0 by {
      if o.n + |r.toks| < args.numTokens {
        AllAccepted(args, o, r.toks);
      }
    }
    hide Balance, Accepted, Stored, Window;
    var end := |args.buffer|;
    var gt := state.bufferpos;
    var slash := false;
    if gt != end {
      var c := CharAt(args, gt, o);
      slash := c == '/';
    }
    if slash {
      var _ := PushToken(state, args, EndTag, name, space, o, r.toks);
      gt := gt + 1;
    }
    if gt == end {
      return BufferDry;
    }
    var last := CharAt(args, gt, o);
    if last != '>' {
      return XmlInvalid;
    }
    err := SetPosition(state, args, gt + 1);
  }

  lemma AllAccepted(args: Args, o: Origin, toks: seq<Token>)
    requires o.n + |toks| <= args.numTokens
    ensures Accepted(args, o, toks) == toks
  {
  }

  lemma LevelUnpushed(state: State, args: Args, o: Origin)
    requires Pushed(state, args, o, [])
    ensures state.taglevel == o.level
  {
    AllAccepted(args, o, []);
  }

  method ParseEnd(state: State, args: Args, ghost o: Origin) returns (err: Err)
    requires Pushed(state, args, o, []) && state.bufferpos + TAG_MINSIZE <= |args.buffer| && o.level > 0
    modifies state, args.tokens
    ensures Reports(state, args, o, err, EndAt(o.doc, o.base + old(state.bufferpos), o.End(args), o.Limit(args)))
  {
    hide Scan, StartsWith, NameStartChar, EndName, Balance, Accepted, Stored, Window;
    LevelUnpushed(state, args, o);
    var start, end := state.bufferpos, |args.buffer|;
    var looks := LooksAt(args, start, "</", o);
    var initial := CharAt(args, start + 2, o);
    if !(looks && NameStartChar(initial)) {
      return XmlInvalid;
    }
    start := start + 2;
    var gt := FindChr(args, start, end, '>', o);
    if gt == end {
      return BufferDry;
    }
    err := ParseEndName(state, args, start, gt, o);
  }

  method ParseEndName(state: State, args: Args, start: nat, gt: nat, ghost o: Origin) returns (err: Err)
    requires Pushed(state, args, o, []) && start <= gt < |args.buffer| && state.taglevel > 0
    modifies state, args.tokens
    ensures Reports(state, args, o, err, EndName(o.doc, o.base + start, o.base + gt, o.Limit(args)))
  {
    hide Scan, Balance, Accepted, Stored, Window;
    var space := FindNotAlnum(args, start, gt, o);
    var rest := LTrim(args, space, gt, o);
    if rest != gt {
      return XmlInvalid;
    }
    assert [] + [Token(EndTag, 0, o.base + start, o.base + space)] ==
        [Token(EndTag, 0, o.base + start, o.base + space)];
    var _ := PushToken(state, args, EndTag, start, space, o, []);
    err := SetPosition(state, args, gt + 1);
  }
}
