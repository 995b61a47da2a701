/** Parsing a document piece by piece gives what parsing it at once gives. */
module SxmlRefill {
  import opened SxmlText
  import opened SxmlGrammar
  import opened SxmlWindow
  import opened SxmlRuns

  /** One text token for each character in [a, c). */
  function Units(a: nat, c: nat): seq<Token>
    decreases c - a
  {
    if a >= c then [] else [Token(Character, 0, a, a + 1)] + Units(a + 1, c)
  }

  predicate IsText(d: string, t: Token) {
    t.kind == Character && t.startpos < |d| && d[t.startpos] != '&'
  }

  /** The tokens with each run of plain text cut into single characters. Everything else is kept as it is, so
      two streams with the same spelling have the same other tokens and the same character data in the same places. */
  function Spell(d: string, toks: seq<Token>): seq<Token> {
    if toks == [] then []
    else
      var t := toks[|toks| - 1];
      Spell(d, toks[..|toks| - 1]) + if IsText(d, t) then Units(t.startpos, t.endpos) else [t]
  }

  lemma {:induction false} SpellConcat(d: string, x: seq<Token>, y: seq<Token>)
    ensures Spell(d, x + y) == Spell(d, x) + Spell(d, y)
  {
    if y == [] {
      assert x + y == x;
    } else {
      assert (x + y)[..|x + y| - 1] == x + y[..|y| - 1];
      SpellConcat(d, x, y[..|y| - 1]);
    }
  }

  lemma {:induction false} UnitsSplit(a: nat, b: nat, c: nat)
    requires a <= b <= c
    ensures Units(a, c) == Units(a, b) + Units(b, c)
    decreases b - a
  {
    if a < b {
      UnitsSplit(a + 1, b, c);
    }
  }

  /** Everything a run shows of the document. */
  function Shown(d: string, o: Outcome): seq<Token> {
    Spell(d, o.toks + o.pending)
  }

  /** A run that first emits x and then goes on as rest. */
  ghost predicate GoesOn(d: string, whole: Outcome, x: seq<Token>, rest: Outcome) {
    && whole.err == rest.err && whole.level == rest.level
    && (rest.err == Success ==> whole.pos == rest.pos && whole.pending == rest.pending)
    && Shown(d, whole) == Spell(d, x) + Shown(d, rest)
  }

  lemma GoesOnSelf(d: string, o: Outcome)
    ensures GoesOn(d, o, [], o)
  {
  }

  lemma GoesOnTrans(d: string, o1: Outcome, x: seq<Token>, o2: Outcome, y: seq<Token>, o3: Outcome)
    requires GoesOn(d, o1, x, o2) && GoesOn(d, o2, y, o3)
    ensures GoesOn(d, o1, x + y, o3)
  {
    SpellConcat(d, x, y);
  }

  /** One step of the reference run. */
  lemma ReferenceStep(d: string, pos: nat, level: int)
    requires pos <= |d|
    ensures var s := Step(d, pos, |d|, level, Unbounded);
            s.err == Success && !Finishes(level, s.toks) ==>
              GoesOn(d, Reference(d, pos, level), s.toks, Reference(d, s.pos, level + Balance(s.toks)))
  {
    hide Step;
    var s := Step(d, pos, |d|, level, Unbounded);
    if s.err == Success && !Finishes(level, s.toks) {
      var rest := Parse(d, s.pos, |d|, level + Balance(s.toks), |s.toks|, Unbounded);
      CountIrrelevant(d, s.pos, |d|, level + Balance(s.toks), |s.toks|);
      assert s.toks + rest.toks + rest.pending == s.toks + (rest.toks + rest.pending);
      SpellConcat(d, s.toks, rest.toks + rest.pending);
    }
  }

  /** An unlimited table yields the same whatever it holds already. */
  lemma {:induction false} CountIrrelevant(d: string, pos: nat, e: nat, level: int, n: nat)
    requires pos <= e <= |d|
    ensures Parse(d, pos, e, level, n, Unbounded) == Parse(d, pos, e, level, 0, Unbounded)
    decreases e - pos
  {
    hide Step;
    var s := Step(d, pos, e, level, Unbounded);
    if s.err == Success && !Finishes(level, s.toks) {
      CountIrrelevant(d, s.pos, e, level + Balance(s.toks), n + |s.toks|);
      CountIrrelevant(d, s.pos, e, level + Balance(s.toks), |s.toks|);
    }
  }

  /** Skipping white space before the root element changes nothing. */
  lemma CommitKeepsStep(d: string, pos: nat, e: nat, end: nat, level: int, limit: Limit)
    requires pos <= e <= end <= |d|
    ensures var p := CommitPos(d, pos, e, level);
            && Step(d, p, end, level, limit) == Step(d, pos, end, level, limit)
            && CommitPos(d, p, end, level) == CommitPos(d, pos, end, level)
            && (AtText(d, p, end, level) <==> AtText(d, pos, end, level))
  {
    hide Construct, Characters;
    if level <= 0 {
      SkipScan(d, pos, CommitPos(d, pos, e, level), end, AtNonSpace);
    }
  }

  lemma CommitKeepsParse(d: string, pos: nat, e: nat, end: nat, level: int, n: nat, cap: Limit)
    requires pos <= e <= end <= |d| && Fits(n, cap)
    ensures Parse(d, CommitPos(d, pos, e, level), end, level, n, cap) == Parse(d, pos, end, level, n, cap)
  {
    hide Step, CommitPos, AtText;
    CommitKeepsStep(d, pos, e, end, level, Room(cap, n));
  }

  lemma {:induction false} SkipScan(d: string, s: nat, p: nat, e: nat, stop: Stop)
    requires s <= p <= e <= |d| && forall i :: s <= i < p ==> !stop.Matches(d[i])
    ensures Scan(d, s, e, stop) == Scan(d, p, e, stop)
    decreases p - s
  {
    if s < p {
      SkipScan(d, s + 1, p, e, stop);
    }
  }

  /** A call with a limited table yields what an unlimited table yields, or stops with a full table exactly where a
      call with an emptied one goes on: the tokens of both are, one after the other, the tokens of one call. */
  lemma {:induction false} TableExact(d: string, pos: nat, e: nat, level: int, n: nat, cap: nat)
    requires pos <= e <= |d| && n <= cap
    ensures var o := Parse(d, pos, e, level, n, AtMost(cap));
            var u := Parse(d, pos, e, level, 0, Unbounded);
            if o.err != TokensFull then u == o
            else u == Prepend(o.toks, Parse(d, o.pos, e, o.level, 0, Unbounded))
    decreases e - pos
  {
    hide Step, CommitPos, AtText, Balance, Finishes;
    var s := Step(d, pos, e, level, AtMost(cap - n));
    StepRoom(d, pos, e, level, AtMost(cap - n));
    if s.err == TokensFull {
      TableFull(d, pos, e, level, n, cap);
    } else if s.err == Success && !Finishes(level, s.toks) {
      var l, n' := level + Balance(s.toks), n + |s.toks|;
      TableExact(d, s.pos, e, l, n', cap);
      CountIrrelevant(d, s.pos, e, l, |s.toks|);
      var o', u' := Parse(d, s.pos, e, l, n', AtMost(cap)), Parse(d, s.pos, e, l, 0, Unbounded);
      if o'.err == TokensFull {
        PrependTwice(s.toks, o'.toks, Parse(d, o'.pos, e, o'.level, 0, Unbounded));
      }
    }
  }

  lemma TableFull(d: string, pos: nat, e: nat, level: int, n: nat, cap: nat)
    requires pos <= e <= |d| && n <= cap && Step(d, pos, e, level, AtMost(cap - n)).err == TokensFull
    ensures var o, u := Parse(d, pos, e, level, n, AtMost(cap)), Parse(d, pos, e, level, 0, Unbounded);
            o.err == TokensFull && u == Prepend(o.toks, Parse(d, o.pos, e, o.level, 0, Unbounded))
  {
    hide Step, CommitPos, AtText, Balance;
    CommitKeepsParse(d, pos, e, e, level, 0, Unbounded);
    var u := Parse(d, pos, e, level, 0, Unbounded);
    assert [] + u.toks == u.toks;
  }

  lemma PrependTwice(x: seq<Token>, y: seq<Token>, o: Outcome)
    ensures Prepend(x, Prepend(y, o)) == Prepend(x + y, o)
  {
    assert x + (y + o.toks) == (x + y) + o.toks;
  }

  // ---------- Text that is cut by the end of the view ----------

  /** The step reads plain text up to the end of the view. */
  predicate CutText(d: string, pos: nat, e: nat, level: int)
    requires pos <= e <= |d|
  {
    AtText(d, pos, e, level) && Scan(d, pos, e, AtChar('<')) == e && Scan(d, pos, e, AtChar('&')) == e
  }

  /** A step that is not cut decides the same with the whole document in view. */
  lemma StepDecided(d: string, pos: nat, e: nat, level: int)
    requires pos <= e <= |d|
    ensures var s := Step(d, pos, e, level, Unbounded);
            var s' := Step(d, pos, |d|, level, Unbounded);
            && |s.toks| <= |s'.toks|
            && (e == |d| || (s.err != BufferDry && !CutText(d, pos, e, level)) ==>
                  s' == s && (AtText(d, pos, |d|, level) <==> AtText(d, pos, e, level)))
  {
    if e < |d| {
      if level <= 0 {
        PrologDecided(d, pos, e, level);
      } else {
        ContentDecided(d, pos, e, level);
      }
    }
  }

  lemma PrologDecided(d: string, pos: nat, e: nat, level: int)
    requires pos <= e < |d| && level <= 0
    ensures var s := Step(d, pos, e, level, Unbounded);
            Agrees(s, Step(d, pos, |d|, level, Unbounded), s.err != BufferDry)
  {
    hide Construct, Scan;
    var lt := CommitPos(d, pos, e, level);
    ScanMore(d, pos, e, |d|, AtNonSpace);
    if e - lt >= TAG_MINSIZE {
      ConstructMore(d, lt, e, |d|, false);
    }
  }

  lemma ContentDecided(d: string, pos: nat, e: nat, level: int)
    requires pos <= e < |d| && level > 0
    ensures var s := Step(d, pos, e, level, Unbounded);
            Agrees(s, Step(d, pos, |d|, level, Unbounded), s.err != BufferDry && !CutText(d, pos, e, level))
    ensures Step(d, pos, e, level, Unbounded).err != BufferDry ==>
              (AtText(d, pos, |d|, level) <==> AtText(d, pos, e, level))
  {
    hide Construct, Characters, Scan;
    var lt := Scan(d, pos, e, AtChar('<'));
    ScanMore(d, pos, e, |d|, AtChar('<'));
    if lt != pos {
      TextDecided(d, pos, lt, e, Scan(d, pos, |d|, AtChar('<')));
    } else if e - lt >= TAG_MINSIZE {
      ConstructMore(d, lt, e, |d|, true);
    }
  }

  lemma TextDecided(d: string, pos: nat, lt: nat, e: nat, lt': nat)
    requires pos < lt <= e <= |d| && lt <= lt' <= |d| && (lt < e ==> lt' == lt)
    ensures var r := Characters(d, pos, lt, [], Unbounded);
            Agrees(r, Characters(d, pos, lt', [], Unbounded),
                   r.err != BufferDry && !(lt == e && Scan(d, pos, e, AtChar('&')) == e))
  {
    hide Scan;
    var ampr := Scan(d, pos, lt, AtChar('&'));
    ScanMore(d, pos, lt, lt', AtChar('&'));
    if ampr < lt {
      var far, far' := Min(ampr + ENTITY_MAXLEN, lt), Min(ampr + ENTITY_MAXLEN, lt');
      ScanMore(d, ampr, far, far', AtChar(';'));
    }
  }

  function Text(a: nat, c: nat): seq<Token> {
    if a == c then [] else [Token(Character, 0, a, c)]
  }

  lemma SpellText(d: string, a: nat, c: nat, rest: seq<Token>)
    requires a <= c <= |d| && (a < c ==> d[a] != '&')
    ensures Spell(d, Text(a, c)) == Units(a, c)
    ensures Spell(d, Text(a, c) + rest) == Units(a, c) + Spell(d, rest)
  {
    SpellConcat(d, Text(a, c), rest);
    assert Spell(d, []) == [];
  }

  /** What `Characters` does with text up to an ampersand, whatever position of that text it starts at. */
  lemma CharactersFrom(d: string, pos: nat, end: nat) returns (ampr: nat, entity: seq<Token>)
    requires pos <= end <= |d|
    ensures ampr == Scan(d, pos, end, AtChar('&'))
    ensures Balance(Characters(d, pos, end, [], Unbounded).toks) == 0
    ensures Characters(d, pos, end, [], Unbounded).toks == Text(pos, ampr) + entity
    ensures Characters(d, pos, end, [], Unbounded).err != Success ==> entity == []
    ensures Characters(d, pos, end, [], Unbounded).err != TokensFull
    ensures forall p :: pos <= p <= ampr ==>
                          var r := Characters(d, pos, end, [], Unbounded);
                          var r' := Characters(d, p, end, [], Unbounded);
                          && r'.toks == Text(p, ampr) + entity && r'.err == r.err
                          && (r.err == Success ==> r'.pos == r.pos)
  {
    hide Scan, Characters, Balance;
    ampr := Scan(d, pos, end, AtChar('&'));
    entity := Characters(d, ampr, end, [], Unbounded).toks;
    forall p | pos <= p <= ampr
      ensures var r', q := Characters(d, p, end, [], Unbounded), Characters(d, ampr, end, [], Unbounded);
              && r'.toks == Text(p, ampr) + entity && r'.err == q.err && r'.err != TokensFull
              && (r'.err == Success ==> r'.pos == q.pos) && (r'.err != Success ==> entity == [])
    {
      SkipScan(d, pos, p, end, AtChar('&'));
      CharactersShape(d, p, ampr, end);
    }
    CharactersShape(d, pos, ampr, end);
    TextBalance(Text(pos, ampr));
    TextBalance(entity);
    BalanceConcat(Text(pos, ampr), entity);
  }

  /** Text up to an ampersand is read, and then what stands at the ampersand. */
  lemma CharactersShape(d: string, p: nat, ampr: nat, end: nat)
    requires p <= ampr <= end <= |d| && Scan(d, p, end, AtChar('&')) == ampr
    ensures var r, q := Characters(d, p, end, [], Unbounded), Characters(d, ampr, end, [], Unbounded);
            && r.toks == Text(p, ampr) + q.toks && r.err == q.err && (r.err == Success ==> r.pos == q.pos)
            && r.err != TokensFull && (r.err != Success ==> q.toks == [])
            && |q.toks| <= 1 && forall i :: 0 <= i < |q.toks| ==> q.toks[i].kind == Character
  {
    SkipScan(d, p, ampr, end, AtChar('&'));
    hide Scan;
  }

  lemma TextBalance(t: seq<Token>)
    requires |t| <= 1 && forall i :: 0 <= i < |t| ==> t[i].kind == Character
    ensures Balance(t) == 0
  {
    if t != [] {
      assert t[..|t| - 1] == [];
    }
  }

  /** A step that reads text has the tokens it would have from the cut on, and the text before the cut. */
  lemma CutTextSteps(d: string, pos: nat, e: nat, level: int) returns (ampr: nat, entity: seq<Token>)
    requires pos <= e < |d| && CutText(d, pos, e, level)
    ensures pos < e <= ampr <= |d| && forall i :: pos <= i < ampr ==> d[i] != '&'
    ensures Step(d, pos, e, level, Unbounded) == Res(Success, e, Text(pos, e))
    ensures AtText(d, pos, |d|, level) && Step(d, pos, |d|, level, Unbounded).toks == Text(pos, ampr) + entity
    ensures Step(d, pos, |d|, level, Unbounded).err != TokensFull
    ensures Balance(Text(pos, ampr) + entity) == 0
    ensures if AtText(d, e, |d|, level) then
              var s := Step(d, pos, |d|, level, Unbounded);
              var s' := Step(d, e, |d|, level, Unbounded);
              && s'.toks == Text(e, ampr) + entity && s'.err == s.err
              && (s.err == Success ==> s'.pos == s.pos) && (s.err != Success ==> entity == [])
            else
              Step(d, pos, |d|, level, Unbounded) == Res(Success, e, Text(pos, e))
  {
    hide Scan, Construct, Characters;
    var lt := Scan(d, pos, |d|, AtChar('<'));
    ScanMore(d, pos, e, |d|, AtChar('<'));
    SkipScan(d, pos, e, |d|, AtChar('<'));
    SkipScan(d, pos, e, lt, AtChar('&'));
    ScanMore(d, pos, e, lt, AtChar('&'));
    ampr, entity := CharactersFrom(d, pos, lt);
    TextOnly(d, pos, e);
    if lt == e {
      TextOnly(d, pos, lt);
    }
  }

  lemma TextOnly(d: string, pos: nat, end: nat)
    requires pos < end <= |d| && Scan(d, pos, end, AtChar('&')) == end
    ensures Characters(d, pos, end, [], Unbounded) == Res(Success, end, Text(pos, end))
  {
    hide Scan;
  }

  /** Text that was emitted up to the end of the view is continued behind it. */
  lemma CutTextGoesOn(d: string, pos: nat, e: nat, level: int)
    requires pos <= e < |d| && CutText(d, pos, e, level)
    ensures Step(d, pos, e, level, Unbounded) == Res(Success, e, Text(pos, e))
    ensures Balance(Text(pos, e)) == 0
    ensures GoesOn(d, Reference(d, pos, level), Text(pos, e), Reference(d, e, level))
  {
    hide Scan, Step, Spell, Balance, CommitPos, Reference;
    TextBalance(Text(pos, e));
    var ampr, entity := CutTextSteps(d, pos, e, level);
    TailBalance(pos, e, ampr, entity);
    SpellSplit(d, pos, e, ampr, entity);
    if AtText(d, e, |d|, level) {
      var s := Step(d, e, |d|, level, Unbounded);
      if s.err == Success {
        ReferenceStep(d, pos, level);
        ReferenceStep(d, e, level);
        GoesOnSplit(d, Reference(d, pos, level), Text(pos, ampr) + entity, Text(pos, e), Text(e, ampr) + entity,
                    Reference(d, e, level), Reference(d, s.pos, level));
      } else {
        ReferenceStops(d, pos, level);
        ReferenceStops(d, e, level);
      }
    } else {
      ReferenceStep(d, pos, level);
    }
  }

  lemma GoesOnSplit(d: string, o: Outcome, xy: seq<Token>, x: seq<Token>, y: seq<Token>, o1: Outcome, o2: Outcome)
    requires GoesOn(d, o, xy, o2) && GoesOn(d, o1, y, o2) && Spell(d, xy) == Spell(d, x) + Spell(d, y)
    ensures GoesOn(d, o, x, o1)
  {
    hide Spell, Shown;
    var a, b, c := Spell(d, x), Spell(d, y), Shown(d, o2);
    assert (a + b) + c == a + (b + c);
  }

  lemma ReferenceStops(d: string, pos: nat, level: int)
    requires pos <= |d| && AtText(d, pos, |d|, level)
    requires var s := Step(d, pos, |d|, level, Unbounded); s.err != Success && s.err != TokensFull
    ensures var s := Step(d, pos, |d|, level, Unbounded);
            Reference(d, pos, level) == Outcome(s.err, pos, level, [], s.toks)
            && Shown(d, Reference(d, pos, level)) == Spell(d, s.toks)
  {
    hide Step, Scan;
    assert [] + Step(d, pos, |d|, level, Unbounded).toks == Step(d, pos, |d|, level, Unbounded).toks;
  }

  lemma TailBalance(pos: nat, e: nat, ampr: nat, entity: seq<Token>)
    requires Balance(Text(pos, ampr) + entity) == 0
    ensures Balance(Text(e, ampr) + entity) == 0
  {
    BalanceConcat(Text(pos, ampr), entity);
    BalanceConcat(Text(e, ampr), entity);
    TextBalance(Text(pos, ampr));
    TextBalance(Text(e, ampr));
  }

  lemma SpellSplit(d: string, pos: nat, e: nat, ampr: nat, entity: seq<Token>)
    requires pos <= e <= ampr <= |d| && forall i :: pos <= i < ampr ==> d[i] != '&'
    ensures Spell(d, Text(pos, ampr) + entity) == Spell(d, Text(pos, e)) + Spell(d, Text(e, ampr) + entity)
  {
    hide Units, Spell;
    SpellText(d, pos, ampr, entity);
    SpellText(d, e, ampr, entity);
    SpellText(d, pos, e, []);
    UnitsSplit(pos, e, ampr);
  }

  // ---------- A run over part of the document with a table of cap slots ----------

  /** The table holds every construct of the reference run. */
  ghost predicate Roomy(d: string, pos: nat, level: int, cap: nat)
    requires pos <= |d|
    decreases |d| - pos
  {
    var s := Step(d, pos, |d|, level, Unbounded);
    |s.toks| <= cap &&
    (s.err == Success && !Finishes(level, s.toks) ==> Roomy(d, s.pos, level + Balance(s.toks), cap))
  }

  lemma RoomyAfterCut(d: string, pos: nat, e: nat, level: int, cap: nat)
    requires pos <= e < |d| && CutText(d, pos, e, level) && Roomy(d, pos, level, cap)
    ensures Roomy(d, e, level, cap)
  {
    hide Step, Scan;
    var ampr, entity := CutTextSteps(d, pos, e, level);
    TextBalance(Text(pos, e));
    TailBalance(pos, e, ampr, entity);
  }

  lemma RoomyAfterCommit(d: string, pos: nat, e: nat, level: int, cap: nat)
    requires pos <= e <= |d| && Roomy(d, pos, level, cap)
    ensures Roomy(d, CommitPos(d, pos, e, level), level, cap)
  {
    hide Step, CommitPos;
    CommitKeepsStep(d, pos, e, |d|, level, Unbounded);
  }

  /** The relation between a run in view and the reference run from the same state. */
  ghost predicate InView(d: string, e: nat, ref: Outcome, o: Outcome, cap: nat)
    requires o.pos <= e <= |d|
  {
    match o.err
    case Success => GoesOn(d, ref, [], o) && o.pending == []
    case XmlInvalid => GoesOn(d, ref, [], o)
    case BufferDry =>
      && GoesOn(d, ref, o.toks, Reference(d, o.pos, o.level)) && Roomy(d, o.pos, o.level, cap)
      && (e == |d| ==> GoesOn(d, ref, [], o))
    case TokensFull =>
      GoesOn(d, ref, o.toks, Reference(d, o.pos, o.level)) && Roomy(d, o.pos, o.level, cap)
  }

  /** Putting a step in front of a run keeps the relation. */
  lemma InViewAfterStep(d: string, e: nat, ref: Outcome, x: seq<Token>, ref': Outcome, o': Outcome, cap: nat)
    requires o'.pos <= e <= |d|
    requires GoesOn(d, ref, x, ref') && InView(d, e, ref', o', cap)
    ensures InView(d, e, ref, o'.(toks := x + o'.toks), cap)
  {
    hide Spell, Reference, Roomy;
    var o := o'.(toks := x + o'.toks);
    if GoesOn(d, ref', [], o') {
      assert o.toks + o.pending == x + (o'.toks + o'.pending);
      SpellConcat(d, x, o'.toks + o'.pending);
      SpellNil(d);
    }
    if o.err == BufferDry || o.err == TokensFull {
      GoesOnTrans(d, ref, x, ref', o'.toks, Reference(d, o.pos, o.level));
    }
  }

  lemma SpellNil(d: string)
    ensures Spell(d, []) == []
  {
  }

  /** The first step of a run in view, when it succeeds. */
  lemma StepGoesOn(d: string, pos: nat, e: nat, level: int, cap: nat)
    requires pos <= e <= |d| && Roomy(d, pos, level, cap)
    ensures var s := Step(d, pos, e, level, Unbounded);
            && |s.toks| <= cap
            && (s.err == Success ==>
                  if Finishes(level, s.toks) then
                    Reference(d, pos, level) == Outcome(Success, s.pos, level + Balance(s.toks), s.toks, [])
                  else
                    && GoesOn(d, Reference(d, pos, level), s.toks, Reference(d, s.pos, level + Balance(s.toks)))
                    && Roomy(d, s.pos, level + Balance(s.toks), cap))
  {
    hide Step, Scan;
    StepDecided(d, pos, e, level);
    if e < |d| && CutText(d, pos, e, level) {
      CutTextGoesOn(d, pos, e, level);
      RoomyAfterCut(d, pos, e, level, cap);
    } else {
      ReferenceStep(d, pos, level);
    }
  }

  /** A first step that stops the run. */
  lemma StopInView(d: string, pos: nat, e: nat, level: int, cap: nat, s: Res)
    requires pos <= e <= |d| && Roomy(d, pos, level, cap)
    requires s.err != Success
    requires s.err == TokensFull || s == Step(d, pos, e, level, Unbounded)
    ensures InView(d, e, Reference(d, pos, level), Stopped(d, pos, e, level, s), cap)
  {
    hide Step, Scan;
    var o := Stopped(d, pos, e, level, s);
    CommitKeepsParse(d, pos, e, |d|, level, 0, Unbounded);
    RoomyAfterCommit(d, pos, e, level, cap);
    GoesOnSelf(d, Reference(d, o.pos, level));
    if s.err == XmlInvalid || (s.err == BufferDry && e == |d|) {
      StepDecided(d, pos, e, level);
      if CutText(d, pos, e, level) {
        CutIsNoError(d, pos, e, level);
      }
      var ref := Reference(d, pos, level);
      assert ref.toks == o.toks && ref.pending == o.pending;
      SpellNil(d);
    }
  }

  lemma CutIsNoError(d: string, pos: nat, e: nat, level: int)
    requires pos <= e <= |d| && CutText(d, pos, e, level)
    ensures Step(d, pos, e, level, Unbounded).err == Success
  {
    TextOnly(d, pos, e);
  }

  lemma FinishInView(d: string, e: nat, o: Outcome, cap: nat)
    requires o.pos <= e <= |d| && o.err == Success && o.pending == []
    ensures InView(d, e, o, o, cap)
  {
    GoesOnSelf(d, o);
  }

  /** Any run over a part of the document that is in view, with a table that holds the largest construct. */
  lemma {:induction false} RunInView(d: string, pos: nat, e: nat, level: int, n: nat, cap: nat)
    requires pos <= e <= |d| && n <= cap && Roomy(d, pos, level, cap)
    ensures var o := Parse(d, pos, e, level, n, AtMost(cap));
            InView(d, e, Reference(d, pos, level), o, cap) && (o.err == TokensFull && n == 0 ==> o.pos > pos)
    decreases e - pos
  {
    hide Step, Scan, Roomy, InView, GoesOn, Reference;
    var s := Step(d, pos, e, level, AtMost(cap - n));
    StepRoom(d, pos, e, level, AtMost(cap - n));
    StepGoesOn(d, pos, e, level, cap);
    if s.err != Success {
      StopInView(d, pos, e, level, cap, s);
    } else if Finishes(level, s.toks) {
      FinishInView(d, e, Reference(d, pos, level), cap);
    } else {
      RunInView(d, s.pos, e, level + Balance(s.toks), n + |s.toks|, cap);
      InViewAfterStep(d, e, Reference(d, pos, level), s.toks, Reference(d, s.pos, level + Balance(s.toks)),
                      Parse(d, s.pos, e, level + Balance(s.toks), n + |s.toks|, AtMost(cap)), cap);
    }
  }

  // ---------- What a spelling determines ----------

  /** The tokens other than character data. */
  function Markup(toks: seq<Token>): seq<Token> {
    if toks == [] then []
    else
      var t := toks[|toks| - 1];
      Markup(toks[..|toks| - 1]) + if t.kind == Character then [] else [t]
  }

  /** The character data, entity references as they are written. */
  function Data(d: string, toks: seq<Token>): string {
    if toks == [] then ""
    else
      var t := toks[|toks| - 1];
      Data(d, toks[..|toks| - 1]) + if t.kind == Character
          && t.startpos <= t.endpos <= |d| then d[t.startpos..t.endpos] else ""
  }

  lemma {:induction false} UnitsData(d: string, a: nat, c: nat, before: seq<Token>)
    requires a <= c <= |d|
    ensures Markup(before + Units(a, c)) == Markup(before)
    ensures Data(d, before + Units(a, c)) == Data(d, before) + d[a..c]
    decreases c - a
  {
    if a < c {
      var one := before + [Token(Character, 0, a, a + 1)];
      assert before + Units(a, c) == one + Units(a + 1, c);
      assert one[..|one| - 1] == before;
      UnitsData(d, a + 1, c, one);
      assert d[a..c] == d[a..a + 1] + d[a + 1..c];
    } else {
      assert before + Units(a, c) == before;
    }
  }

  ghost predicate InText(d: string, toks: seq<Token>) {
    forall t :: t in toks ==> t.startpos <= t.endpos <= |d|
  }

  lemma {:induction false} SpellKeeps(d: string, toks: seq<Token>)
    requires InText(d, toks)
    ensures Markup(Spell(d, toks)) == Markup(toks) && Data(d, Spell(d, toks)) == Data(d, toks)
  {
    if toks != [] {
      var t, rest := toks[|toks| - 1], toks[..|toks| - 1];
      SpellKeeps(d, rest);
      if IsText(d, t) {
        UnitsData(d, t.startpos, t.endpos, Spell(d, rest));
      } else {
        assert (Spell(d, rest) + [t])[..|Spell(d, rest)|] == Spell(d, rest);
      }
    }
  }

  /** Streams with the same spelling have the same markup tokens and the same character data. */
  lemma SameSpelling(d: string, x: seq<Token>, y: seq<Token>)
    requires InText(d, x) && InText(d, y) && Spell(d, x) == Spell(d, y)
    ensures Markup(x) == Markup(y) && Data(d, x) == Data(d, y)
  {
    SpellKeeps(d, x);
    SpellKeeps(d, y);
  }
}
