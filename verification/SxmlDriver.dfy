/** `sxml_parse`: the loops over constructs, with a commit behind each of them. */
module SxmlDriver {
  import opened SxmlText
  import opened SxmlGrammar
  import opened SxmlRuns
  import opened SxmlRefill
  import opened SxmlParser
  import opened SxmlSession
  import Table = SxmlTable

  /** The run that is committed up to toks, seen from the state it started in. */
  ghost predicate Continues(whole: Outcome, args: Args, o: Origin, toks: seq<Token>, pos: nat)
    requires o.Shows(args) && pos <= |args.buffer|
  {
    whole == Prepend(toks, Parse(o.doc, o.base + pos, o.End(args), o.level, o.n, AtMost(args.numTokens)))
  }

  lemma ContinueStep(whole: Outcome, args: Args, o: Origin, toks: seq<Token>, pos: nat, s: Res)
    requires o.Shows(args) && pos <= |args.buffer| && Continues(whole, args, o, toks, pos)
    requires s == Step(o.doc, o.base + pos, o.End(args), o.level, o.Limit(args)) && s.err == Success && o.level >= 0
    ensures o.base <= s.pos && s.pos - o.base <= |args.buffer| && o.n + |s.toks| <= args.numTokens
    ensures var level := o.level + Balance(s.toks);
            && level >= 0
            && if Finishes(o.level, s.toks) then
                 whole == Outcome(Success, s.pos, level, toks + s.toks, [])
               else
                 Continues(whole, args, o.(n := o.n + |s.toks|, level := level), toks + s.toks, s.pos - o.base)
  {
    hide Step, Balance, Finishes;
    Table.StepSound(o.doc, o.base + pos, o.End(args), o.level, o.Limit(args));
    Table.SoundParts(o.level, s.toks, o.End(args));
    if !Finishes(o.level, s.toks) {
      var rest := Parse(o.doc, s.pos, o.End(args), o.level + Balance(s.toks), o.n + |s.toks|, AtMost(args.numTokens));
      assert toks + (s.toks + rest.toks) == (toks + s.toks) + rest.toks;
    }
  }

  lemma ContinueStop(whole: Outcome, args: Args, o: Origin, toks: seq<Token>, pos: nat, s: Res)
    requires o.Shows(args) && pos <= |args.buffer| && Continues(whole, args, o, toks, pos)
    requires s == Step(o.doc, o.base + pos, o.End(args), o.level, o.Limit(args)) && s.err != Success
    ensures whole.err == s.err && whole.toks == toks && whole.level == o.level
    ensures whole.pos == CommitPos(o.doc, o.base + pos, o.End(args), o.level)
  {
    hide Step, CommitPos;
    assert toks + [] == toks;
  }

  method ParseConstruct(state: State, args: Args, inRoot: bool, ghost o: Origin) returns (err: Err)
    requires Pushed(state, args, o, []) && state.bufferpos + TAG_MINSIZE <= |args.buffer|
    requires o.level >= 0 && (inRoot ==> o.level > 0)
    modifies state, args.tokens
    ensures Reports(state, args, o, err,
                    Construct(o.doc, o.base + old(state.bufferpos), o.End(args), inRoot, o.Limit(args)))
  {
    hide Balance, Accepted, Stored, Window, StartAt, EndAt, InstructionAt, Delimited;
    var lt := state.bufferpos;
    var second := CharAt(args, lt + 1, o);
    var third := CharAt(args, lt + 2, o);
    match second {
      case '?' => err := ParseInstruction(state, args, o);
      case '!' =>
        if !inRoot {
          err := ParseDelimited(state, args, "<!DOCTYPE", "]>", BufferDry, DocType, o);
        } else if third == '-' {
          err := ParseDelimited(state, args, "<!--", "-->", XmlInvalid, Comment, o);
        } else {
          err := ParseDelimited(state, args, "<![CDATA[", "]]>", XmlInvalid, CData, o);
        }
      case '/' =>
        if inRoot { err := ParseEnd(state, args, o); } else { err := ParseStart(state, args, o); }
      case _ => err := ParseStart(state, args, o);
    }
  }

  /** The committed state of a call in progress: toks are in the table behind the n tokens it started with. */
  ghost predicate Committed(state: State, args: Args, o: Origin, n: nat, toks: seq<Token>)
    reads state, args.tokens
  {
    && o.Shows(args) && o.n == n + |toks| && o.level >= 0
    && state.bufferpos <= |args.buffer| && state.ntokens == o.n && state.taglevel == o.level
    && forall i :: 0 <= i < |toks| ==> AtBase(args.tokens[n + i], o.base) == toks[i]
  }

  lemma CommittedPushed(state: State, args: Args, o: Origin, n: nat, toks: seq<Token>)
    requires Committed(state, args, o, n, toks)
    ensures Pushed(state, args, o, [])
  {
  }

  /** Between two steps: the working copy and the committed state agree, and whole is what the call has to yield. */
  ghost predicate Between(state: State, temp: State, args: Args, o: Origin, n: nat, toks: seq<Token>, whole: Outcome)
    reads state, temp, args.tokens
  {
    && Committed(temp, args, o, n, toks) && Committed(state, args, o, n, toks)
    && state.bufferpos == temp.bufferpos && state != temp
    && Continues(whole, args, o, toks, temp.bufferpos)
  }

  /** The call ends with the outcome whole: its tokens are in the table behind the first n. */
  ghost predicate Yields(state: State, args: Args, base: nat, n: nat, whole: Outcome, err: Err)
    reads state, args.tokens
  {
    && err == whole.err && base + state.bufferpos == whole.pos && state.taglevel == whole.level
    && state.ntokens == n + |whole.toks| && args.Valid() && n + |whole.toks| <= args.numTokens
    && forall i :: 0 <= i < |whole.toks| ==> AtBase(args.tokens[n + i], base) == whole.toks[i]
  }

  twostate predicate Kept(args: Args, n: nat)
    requires args.Valid() && n <= args.numTokens
    reads args.tokens
  {
    forall j :: 0 <= j < n ==> args.tokens[j] == old(args.tokens[j])
  }

  /** What one step leaves: another state between steps, or the end of the call. */
  twostate predicate Stepped(state: State, temp: State, args: Args, o: Origin, n: nat, whole: Outcome,
                             err: Err, o': Origin, toks': seq<Token>)
    reads state, temp, args.tokens
  {
    && o.Shows(args) && n <= o.n && Kept(args, n) && o'.doc == o.doc && o'.base == o.base
    && (err != Success ==> Yields(state, args, o.base, n, whole, err))
    && (err == Success ==>
          && temp.bufferpos > old(temp.bufferpos) && o'.level >= 0 && temp.taglevel == o'.level
          && if o.level > 0 && o'.level == 0 then Yields(state, args, o.base, n, whole, err)
             else Between(state, temp, args, o', n, toks', whole))
  }

  /** Commits the construct that has just been parsed into the working copy. */
  method Commit(state: State, temp: State, args: Args, ghost o: Origin, ghost n: nat, ghost toks: seq<Token>,
                ghost whole: Outcome, ghost pos: nat, ghost s: Res)
    returns (ghost o': Origin, ghost toks': seq<Token>)
    requires Pushed(temp, args, o, s.toks) && o.base + temp.bufferpos == s.pos && state != temp
    requires o.n == n + |toks| && o.level >= 0 && pos <= |args.buffer| && Continues(whole, args, o, toks, pos)
    requires s == Step(o.doc, o.base + pos, o.End(args), o.level, o.Limit(args)) && s.err == Success
    requires forall i :: 0 <= i < |toks| ==> AtBase(args.tokens[n + i], o.base) == toks[i]
    modifies state
    ensures o'.doc == o.doc && o'.base == o.base && o'.level >= 0 && temp.taglevel == o'.level
    ensures temp.bufferpos > pos && o'.level == o.level + Balance(s.toks)
    ensures if o.level > 0 && o'.level == 0 then Yields(state, args, o.base, n, whole, Success)
            else Between(state, temp, args, o', n, toks', whole)
  {
    hide Step, Balance, Accepted, Window;
    ContinueStep(whole, args, o, toks, pos, s);
    o' := o.(n := o.n + |s.toks|, level := o.level + Balance(s.toks));
    toks' := toks + s.toks;
    AllAccepted(args, o, s.toks);
    state.CopyFrom(temp);
    forall i | 0 <= i < |toks'| ensures AtBase(args.tokens[n + i], o.base) == toks'[i] {
      if i >= |toks| {
        assert AtBase(args.tokens[o.n + (i - |toks|)], o.base) == s.toks[i - |toks|];
      }
    }
  }

  /** One round of the loop before the root element. */
  method PrologStep(state: State, temp: State, args: Args, ghost o: Origin, ghost n: nat, ghost toks: seq<Token>,
                    ghost whole: Outcome)
    returns (err: Err, ghost o': Origin, ghost toks': seq<Token>)
    requires Between(state, temp, args, o, n, toks, whole) && o.level == 0
    modifies state, temp, args.tokens
    ensures Stepped(state, temp, args, o, n, whole, err, o', toks')
  {
    hide Construct, Balance, Accepted, Window, Scan;
    o', toks' := o, toks;
    var end := |args.buffer|;
    ghost var pos := temp.bufferpos;
    ghost var s := Step(o.doc, o.base + pos, o.End(args), o.level, o.Limit(args));
    var lt := LTrim(args, temp.bufferpos, end, o);
    var _ := SetPosition(temp, args, lt);
    state.CopyFrom(temp);
    if s.err != Success {
      ContinueStop(whole, args, o, toks, pos, s);
    }
    if end - lt < TAG_MINSIZE {
      return BufferDry, o', toks';
    }
    var c := CharAt(args, lt, o);
    if c != '<' {
      return XmlInvalid, o', toks';
    }
    CommittedPushed(temp, args, o, n, toks);
    err := ParseConstruct(temp, args, false, o);
    if err != Success {
      return;
    }
    o', toks' := Commit(state, temp, args, o, n, toks, whole, pos, s);
  }

  /** One piece of text inside the root element; lt is the next markup or the end of the buffer. */
  method TextStep(state: State, temp: State, args: Args, lt: nat, ghost o: Origin, ghost n: nat, ghost toks: seq<Token>,
                  ghost whole: Outcome)
    returns (err: Err, ghost o': Origin, ghost toks': seq<Token>)
    requires Between(state, temp, args, o, n, toks, whole) && o.level > 0
    requires temp.bufferpos < lt <= |args.buffer|
    requires o.base + lt == Scan(o.doc, o.base + temp.bufferpos, o.End(args), AtChar('<'))
    modifies state, temp, args.tokens
    ensures Stepped(state, temp, args, o, n, whole, err, o', toks')
    ensures err == Success ==> o'.level == o.level && temp.bufferpos <= lt
    ensures err == Success ==> o.base + lt == Scan(o.doc, o.base + temp.bufferpos, o.End(args), AtChar('<'))
  {
    hide Characters, Balance, Accepted, Window, Scan;
    o', toks' := o, toks;
    ghost var pos := temp.bufferpos;
    ghost var s := Step(o.doc, o.base + pos, o.End(args), o.level, o.Limit(args));
    if s.err != Success {
      ContinueStop(whole, args, o, toks, pos, s);
    }
    CommittedPushed(temp, args, o, n, toks);
    err := ParseCharacters(temp, args, lt, o, []);
    if err != Success {
      return;
    }
    o', toks' := Commit(state, temp, args, o, n, toks, whole, pos, s);
    TextKeepsLevel(o.doc, o.base + pos, o.base + lt, o.Limit(args), o.level);
    SkipScan(o.doc, o.base + pos, o.base + temp.bufferpos, o.End(args), AtChar('<'));
  }

  lemma TextKeepsLevel(d: string, pos: nat, end: nat, limit: Limit, level: int)
    requires pos <= end <= |d|
    ensures Balance(Characters(d, pos, end, [], limit).toks) == 0
  {
    hide Characters;
    var r := Characters(d, pos, end, [], limit);
    Table.CharactersPlain(d, pos, end, [], limit);
    assert r.toks[0..] == r.toks && r.toks[..|r.toks|] == r.toks;
    Table.PlainPrefix(r.toks, end, |r.toks|);
  }

  /** The construct at the next markup inside the root element. */
  method MarkupStep(state: State, temp: State, args: Args, ghost o: Origin, ghost n: nat, ghost toks: seq<Token>,
                    ghost whole: Outcome)
    returns (err: Err, ghost o': Origin, ghost toks': seq<Token>)
    requires Between(state, temp, args, o, n, toks, whole) && o.level > 0
    requires o.base + temp.bufferpos == Scan(o.doc, o.base + temp.bufferpos, o.End(args), AtChar('<'))
    modifies state, temp, args.tokens
    ensures Stepped(state, temp, args, o, n, whole, err, o', toks')
  {
    hide Construct, Balance, Accepted, Window;
    o', toks' := o, toks;
    ghost var pos := temp.bufferpos;
    ghost var s := Step(o.doc, o.base + pos, o.End(args), o.level, o.Limit(args));
    if s.err != Success {
      ContinueStop(whole, args, o, toks, pos, s);
    }
    if |args.buffer| - temp.bufferpos < TAG_MINSIZE {
      return BufferDry, o', toks';
    }
    CommittedPushed(temp, args, o, n, toks);
    err := ParseConstruct(temp, args, true, o);
    if err != Success {
      return;
    }
    o', toks' := Commit(state, temp, args, o, n, toks, whole, pos, s);
  }

  /** One round of the loop inside the root element: all text up to the next markup, then the markup. */
  method ContentStep(state: State, temp: State, args: Args, ghost o0: Origin, ghost n: nat, ghost toks0: seq<Token>,
                     ghost whole: Outcome)
    returns (err: Err, ghost o: Origin, ghost toks: seq<Token>)
    requires Between(state, temp, args, o0, n, toks0, whole) && o0.level > 0 && n <= o0.n
    modifies state, temp, args.tokens
    ensures Stepped(state, temp, args, o0, n, whole, err, o, toks)
  {
    hide Balance, Accepted, Window, Scan, Continues, Committed;
    o, toks := o0, toks0;
    ghost var start := temp.bufferpos;
    assert temp.bufferpos <= |args.buffer| && o.Shows(args) by { BetweenShows(state, temp, args, o0, n, toks0, whole); }
    var lt := FindChr(args, temp.bufferpos, |args.buffer|, '<', o);
    while temp.bufferpos != lt
      invariant Between(state, temp, args, o, n, toks, whole) && Kept(args, n) && o.level > 0 && n <= o.n
      invariant start <= temp.bufferpos <= lt <= |args.buffer| && o.doc == o0.doc && o.base == o0.base
      invariant o.Shows(args) && o.base + lt == Scan(o.doc, o.base + temp.bufferpos, o.End(args), AtChar('<'))
      decreases lt - temp.bufferpos
    {
      err, o, toks := TextStep(state, temp, args, lt, o, n, toks, whole);
      if err != Success {
        return;
      }
      BetweenShows(state, temp, args, o, n, toks, whole);
    }
    err, o, toks := MarkupStep(state, temp, args, o, n, toks, whole);
  }

  lemma BetweenShows(state: State, temp: State, args: Args, o: Origin, n: nat, toks: seq<Token>, whole: Outcome)
    requires Between(state, temp, args, o, n, toks, whole)
    ensures o.Shows(args) && temp.bufferpos <= |args.buffer| && temp.taglevel == o.level >= 0 && n <= o.n
  {
  }

  /** Parses as far as the buffer and the table allow. The state is what was committed last, and the table holds
      exactly the tokens of the committed constructs, after those it held before. */
  method SxmlParse(state: State, buffer: string, tokens: array<Token>, numTokens: nat, ghost doc: string,
      ghost base: nat)
    returns (err: Err)
    requires base + |buffer| <= |doc| && Window(buffer, doc, base) && tokens.Length == numTokens + 1
    requires state.bufferpos <= |buffer| && state.ntokens <= numTokens && state.taglevel >= 0
    modifies state, tokens
    ensures Yields(state, Args(buffer, tokens, numTokens), base, old(state.ntokens),
                   Parse(doc, base + old(state.bufferpos), base + |buffer|, old(state.taglevel), old(state.ntokens),
                         AtMost(numTokens)), err)
    ensures forall j :: 0 <= j < old(state.ntokens) ==> tokens[j] == old(tokens[j])
  {
    hide Step, Parse, Window, Scan;
    var args := Args(buffer, tokens, numTokens);
    var temp := new State();
    temp.CopyFrom(state);
    ghost var n, toks: seq<Token> := state.ntokens, [];
    ghost var o := Origin(doc, base, n, state.taglevel);
    ghost var whole := Parse(doc, base + state.bufferpos, base + |buffer|, state.taglevel, n, AtMost(numTokens));
    assert Prepend([], whole) == whole;
    while !(0 < temp.taglevel)
      invariant Between(state, temp, args, o, n, toks, whole) && Kept(args, n) && o.doc == doc && o.base == base
      decreases |buffer| - temp.bufferpos
    {
      err, o, toks := PrologStep(state, temp, args, o, n, toks, whole);
      if err != Success {
        return;
      }
    }
    while !(temp.taglevel == 0)
      invariant Kept(args, n) && o.doc == doc && o.base == base && o.level == temp.taglevel
      invariant if temp.taglevel == 0 then Yields(state, args, base, n, whole, Success)
                else Between(state, temp, args, o, n, toks, whole)
      decreases |buffer| - temp.bufferpos
    {
      err, o, toks := ContentStep(state, temp, args, o, n, toks, whole);
      if err != Success {
        return;
      }
    }
    return Success;
  }

  /** The fields and the table are those of a session over the document; the buffer shows the part of it from base. */
  ghost predicate Shows(state: State, tokens: array<Token>, base: nat, s: Session)
    reads state, tokens
  {
    && base + state.bufferpos == s.pos && state.taglevel == s.level
    && state.ntokens == |s.table| < tokens.Length
    && forall i :: 0 <= i < |s.table| ==> AtBase(tokens[i], base) == s.table[i]
  }

  /** A call in the middle of a session, on a table that may hold tokens of earlier calls: it makes the move of the
      session, so that what holds of every session (`SxmlSession.ReachableConsistent`) holds of the fields. */
  method Resume(state: State, buffer: string, tokens: array<Token>, numTokens: nat, ghost doc: string, ghost base: nat,
                ghost s: Session)
    returns (err: Err, ghost s': Session)
    requires base + |buffer| <= |doc| && Window(buffer, doc, base) && tokens.Length == numTokens + 1
    requires base <= s.pos && Shows(state, tokens, base, s) && Consistent(s)
    requires Permits(doc, s, Call(base + |buffer|, numTokens))
    modifies state, tokens
    ensures s' == Next(doc, s, Call(base + |buffer|, numTokens)) && Shows(state, tokens, base, s') && Consistent(s')
    ensures err == Parse(doc, s.pos, base + |buffer|, s.level, |s.table|, AtMost(numTokens)).err
  {
    hide Parse, Window, WellFormed, Balance, NeverNegative;
    NextKeeps(doc, s, Call(base + |buffer|, numTokens));
    NeverNegativeEnd(0, s.history);
    s' := Next(doc, s, Call(base + |buffer|, numTokens));
    err := SxmlParse(state, buffer, tokens, numTokens, doc, base);
  }
}
