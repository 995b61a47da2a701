/** What holds of the token table after any run of the parser. */
module SxmlTable {
  import opened SxmlText
  import opened SxmlGrammar
  import opened SxmlRuns

  /** Tokens that describe attributes or text, with nothing attached. */
  ghost predicate Plain(toks: seq<Token>, e: nat) {
    forall t :: t in toks ==> IsAttrKind(t.kind) && t.size == 0 && t.startpos <= t.endpos <= e
  }

  /** r pushed only plain tokens after the first n. */
  ghost predicate PushedPlain(toks: seq<Token>, r: Res, e: nat) {
    toks <= r.toks && Plain(r.toks[|toks|..], e)
  }

  lemma PushedTrans(toks: seq<Token>, r: Res, r': Res, e: nat)
    requires PushedPlain(toks, r, e) && PushedPlain(r.toks, r', e)
    ensures PushedPlain(toks, r', e)
  {
    assert r'.toks[|toks|..] == r.toks[|toks|..] + r'.toks[|r.toks|..];
  }

  lemma PushOnePlain(toks: seq<Token>, t: Token, e: nat)
    requires IsAttrKind(t.kind) && t.size == 0 && t.startpos <= t.endpos <= e
    ensures Plain((toks + [t])[|toks|..], e)
  {
    assert (toks + [t])[|toks|..] == [t];
  }

  lemma CharactersPlain(d: string, pos: nat, end: nat, toks: seq<Token>, limit: Limit)
    requires pos <= end <= |d|
    ensures PushedPlain(toks, Characters(d, pos, end, toks, limit), end)
  {
    hide Scan;
    var ampr := Scan(d, pos, end, AtChar('&'));
    var text := if ampr != pos then toks + [Token(Character, 0, pos, ampr)] else toks;
    var r := Characters(d, pos, end, toks, limit);
    PushOnePlain(toks, Token(Character, 0, pos, ampr), end);
    assert PushedPlain(toks, Res(Success, 0, text), end);
    if r.toks != text {
      PushOnePlain(text, Token(Character, 0, ampr, r.pos), end);
      PushedTrans(toks, Res(Success, 0, text), r, end);
    }
  }

  lemma {:induction false} AttrValuePlain(d: string, pos: nat, end: nat, toks: seq<Token>, limit: Limit)
    requires pos <= end <= |d|
    ensures PushedPlain(toks, AttrValue(d, pos, end, toks, limit), end)
    decreases end - pos
  {
    hide Characters;
    if pos != end {
      CharactersPlain(d, pos, end, toks, limit);
      var r := Characters(d, pos, end, toks, limit);
      if r.err == Success {
        AttrValuePlain(d, r.pos, end, r.toks, limit);
        PushedTrans(toks, r, AttrValue(d, r.pos, end, r.toks, limit), end);
      }
    }
  }

  lemma AttrOnePlain(d: string, name: nat, e: nat, toks: seq<Token>, limit: Limit)
    requires name < e <= |d| && NameStartChar(d[name])
    ensures PushedPlain(toks, AttrOne(d, name, e, toks, limit), e)
  {
    hide Scan, RTrim, AttrQuoted;
    var eq := Scan(d, name, e, AtChar('='));
    if eq < e {
      var name' := Token(CData, 0, name, RTrim(d, name, eq));
      var quot := Scan(d, eq + 1, e, AtNonSpace);
      PushOnePlain(toks, name', e);
      AttrQuotedPlain(d, quot, e, toks + [name'], limit);
      PushedTrans(toks, Res(Success, 0, toks + [name']), AttrQuoted(d, quot, e, toks + [name'], limit), e);
    }
  }

  lemma AttrQuotedPlain(d: string, quot: nat, e: nat, toks: seq<Token>, limit: Limit)
    requires quot <= e <= |d|
    ensures PushedPlain(toks, AttrQuoted(d, quot, e, toks, limit), e)
  {
    hide Scan, AttrValue;
    if quot < e {
      var close := Scan(d, quot + 1, e, AtChar(d[quot]));
      if close < e {
        AttrValuePlain(d, quot + 1, close, toks, limit);
      }
    }
  }

  lemma {:induction false} AttrLoopPlain(d: string, name: nat, e: nat, toks: seq<Token>, limit: Limit)
    requires name <= e <= |d|
    ensures PushedPlain(toks, AttrLoop(d, name, e, toks, limit), e)
    decreases e - name
  {
    hide AttrOne;
    if name < e && NameStartChar(d[name]) {
      AttrOnePlain(d, name, e, toks, limit);
      var r := AttrOne(d, name, e, toks, limit);
      if r.err == Success {
        AttrLoopPlain(d, r.pos, e, r.toks, limit);
        PushedTrans(toks, r, AttrLoop(d, r.pos, e, r.toks, limit), e);
      }
    }
  }

  /** The header with its attributes: the size is the number of plain tokens behind it, as a 16-bit number. */
  lemma AttributesPlain(d: string, pos: nat, e: nat, header: Token, limit: Limit)
    requires pos <= e <= |d|
    ensures var r := Attributes(d, pos, e, [header], limit);
            r.err == Success ==>
              r.toks[0] == header.(size := (|r.toks| - 1) % USHORT) && Plain(r.toks[1..], e)
  {
    hide AttrLoop, Scan;
    AttrLoopPlain(d, Scan(d, pos, e, AtNonSpace), e, [header], limit);
  }

  /** The tokens one successful step commits. */
  ghost predicate Sound(level: int, toks: seq<Token>, e: nat) {
    WellFormed(toks, e) && NeverNegative(level, toks)
  }

  /** A header, its attributes and possibly the end tag of an empty element. */
  ghost predicate Headed(header: Token, plain: seq<Token>, tail: seq<Token>, e: nat) {
    && header.startpos <= header.endpos <= e && (header.kind == StartTag || header.kind == Instruction)
    && header.size == |plain| % USHORT && Plain(plain, e)
    && (tail == [] || (header.kind == StartTag && tail == [Token(EndTag, 0, header.startpos, header.endpos)]))
  }

  lemma HeadedAt(header: Token, plain: seq<Token>, tail: seq<Token>, e: nat, i: nat)
    requires Headed(header, plain, tail, e) && i < 1 + |plain| + |tail|
    ensures var t := ([header] + plain + tail)[i];
            && t.startpos <= t.endpos <= e
            && (if i == 0 then t == header else t.size == 0)
            && (0 < i <= |plain| ==> IsAttrKind(t.kind))
  {
    if 0 < i <= |plain| {
      assert ([header] + plain + tail)[i] == plain[i - 1] && plain[i - 1] in plain;
    }
  }

  lemma HeaderSound(header: Token, plain: seq<Token>, tail: seq<Token>, e: nat, level: int)
    requires Headed(header, plain, tail, e) && level >= 0
    ensures Sound(level, [header] + plain + tail, e)
  {
    var all := [header] + plain + tail;
    forall i | 0 <= i < |all| ensures WellPlaced(all, i, e) {
      HeadedAt(header, plain, tail, e, i);
      forall j | i < j <= i + all[i].size ensures j < |all| && IsAttrKind(all[j].kind) {
        HeadedAt(header, plain, tail, e, j);
      }
    }
    forall i | 0 <= i <= |all| ensures level + Balance(all[..i]) >= 0 {
      HeaderPrefix(header, plain, tail, e, i);
    }
  }

  lemma {:induction false} HeaderPrefix(header: Token, plain: seq<Token>, tail: seq<Token>, e: nat, i: nat)
    requires Headed(header, plain, tail, e) && i <= 1 + |plain| + |tail|
    ensures Balance(([header] + plain + tail)[..i]) ==
            if i == 0 then 0 else if i <= 1 + |plain| then Delta(header) else Delta(header) - 1
  {
    var all := [header] + plain + tail;
    if i > 0 {
      HeaderPrefix(header, plain, tail, e, i - 1);
      assert all[..i][..i - 1] == all[..i - 1];
      if 1 < i <= 1 + |plain| {
        assert all[i - 1] == plain[i - 2] && plain[i - 2] in plain;
      } else if i > 1 + |plain| {
        assert all[i - 1] == tail[0] && tail[0] in tail;
      }
    }
  }

  lemma PlainSound(plain: seq<Token>, e: nat, level: int)
    requires Plain(plain, e) && level >= 0
    ensures Sound(level, plain, e)
  {
    forall i | 0 <= i < |plain| ensures WellPlaced(plain, i, e) {
      assert plain[i] in plain;
    }
    forall i | 0 <= i <= |plain| ensures Balance(plain[..i]) == 0 {
      PlainPrefix(plain, e, i);
    }
  }

  lemma {:induction false} PlainPrefix(plain: seq<Token>, e: nat, i: nat)
    requires Plain(plain, e) && i <= |plain|
    ensures Balance(plain[..i]) == 0
  {
    if i > 0 {
      PlainPrefix(plain, e, i - 1);
      assert plain[..i][..i - 1] == plain[..i - 1];
    }
  }

  lemma OneSound(t: Token, e: nat, level: int)
    requires t.size == 0 && t.startpos <= t.endpos <= e && level >= 0 && level + Delta(t) >= 0
    ensures Sound(level, [t], e)
  {
    assert WellPlaced([t], 0, e);
    forall i | 0 <= i <= 1 ensures level + Balance([t][..i]) >= 0 {
      if i == 1 {
        assert [t][..1] == [t] && [t][..0] == [];
      }
    }
  }

  /** An open tag with its attributes opens one element. */
  lemma StartOpens(d: string, pos: nat, e: nat, header: Token, limit: Limit)
    requires pos <= e <= |d| && header.kind == StartTag && header.size == 0 && header.startpos <= header.endpos <= e
    ensures var r := Attributes(d, pos, e, [header], limit); r.err == Success ==> Balance(r.toks) == 1
  {
    hide Attributes;
    AttributesPlain(d, pos, e, header, limit);
    var a := Attributes(d, pos, e, [header], limit).toks;
    if Attributes(d, pos, e, [header], limit).err == Success {
      assert a == [a[0]] + a[1..] + [] && a[..|a|] == a;
      HeaderPrefix(a[0], a[1..], [], e, |a|);
    }
  }

  lemma StartStep(d: string, lt: nat, e: nat, level: int, limit: Limit)
    requires lt + TAG_MINSIZE <= e <= |d| && level >= 0
    ensures var r := StartAt(d, lt, e, limit); r.err == Success ==> Sound(level, r.toks, e)
  {
    hide Scan, Attributes, Sound;
    var space := Scan(d, lt + 1, e, AtNonName);
    if space < e {
      var header := Token(StartTag, 0, lt + 1, space);
      AttributesPlain(d, space, e, header, limit);
      var a := Attributes(d, space, e, [header], limit).toks;
      var r := StartAt(d, lt, e, limit);
      if r.err == Success {
        var tail := if r.toks == a then [] else [Token(EndTag, 0, lt + 1, space)];
        assert r.toks == [a[0]] + a[1..] + tail;
        HeaderSound(a[0], a[1..], tail, e, level);
      }
    }
  }

  lemma InstructionStep(d: string, lt: nat, e: nat, level: int, limit: Limit)
    requires lt + TAG_MINSIZE <= e <= |d| && level >= 0
    ensures var r := InstructionAt(d, lt, e, limit); r.err == Success ==> Sound(level, r.toks, e)
  {
    hide Scan, Attributes, Sound;
    var space := Scan(d, lt + 2, e, AtNonName);
    if space < e {
      var header := Token(Instruction, 0, lt + 2, space);
      AttributesPlain(d, space, e, header, limit);
      var a := Attributes(d, space, e, [header], limit).toks;
      var r := InstructionAt(d, lt, e, limit);
      if r.err == Success {
        assert r.toks == [a[0]] + a[1..] + [];
        HeaderSound(a[0], a[1..], [], e, level);
      }
    }
  }

  lemma OneTokenStep(d: string, lt: nat, e: nat, level: int, limit: Limit)
    requires lt + TAG_MINSIZE <= e <= |d| && level >= 0
    requires d[lt + 1] == '!' || (d[lt + 1] == '/' && level > 0)
    ensures var r := Construct(d, lt, e, level > 0, limit); r.err == Success ==> Sound(level, r.toks, e)
  {
    hide Scan, FindStr, Sound;
    var r := Construct(d, lt, e, level > 0, limit);
    if r.err == Success {
      assert r.toks == [r.toks[0]];
      OneSound(r.toks[0], e, level);
    }
  }

  lemma StepSound(d: string, pos: nat, e: nat, level: int, limit: Limit)
    requires pos <= e <= |d| && level >= 0
    ensures var s := Step(d, pos, e, level, limit); s.err == Success ==> Sound(level, s.toks, e)
  {
    hide Scan, Sound, Characters, StartAt, InstructionAt, EndAt, Delimited;
    var s := Step(d, pos, e, level, limit);
    var lt := CommitPos(d, pos, e, level);
    if AtText(d, pos, e, level) {
      CharactersPlain(d, pos, Scan(d, pos, e, AtChar('<')), [], limit);
      assert s.toks[0..] == s.toks;
      PlainSound(s.toks, e, level);
    } else if s.err == Success {
      if d[lt + 1] == '!' || (d[lt + 1] == '/' && level > 0) {
        OneTokenStep(d, lt, e, level, limit);
      } else {
        StartStep(d, lt, e, level, limit);
        InstructionStep(d, lt, e, level, limit);
      }
    }
  }

  lemma NeverNegativeConcat(level: int, x: seq<Token>, y: seq<Token>)
    requires NeverNegative(level, x) && NeverNegative(level + Balance(x), y)
    ensures NeverNegative(level, x + y) && level + Balance(x + y) >= 0
  {
    forall i | 0 <= i <= |x + y| ensures level + Balance((x + y)[..i]) >= 0 {
      if i <= |x| {
        assert (x + y)[..i] == x[..i];
      } else {
        assert (x + y)[..i] == x + y[..i - |x|];
        BalanceConcat(x, y[..i - |x|]);
      }
    }
    assert (x + y)[..|x + y|] == x + y;
  }

  lemma WellFormedConcat(x: seq<Token>, y: seq<Token>, e: nat)
    requires WellFormed(x, e) && WellFormed(y, e)
    ensures WellFormed(x + y, e)
  {
    forall i | 0 <= i < |x + y| ensures WellPlaced(x + y, i, e) {
      if i < |x| {
        assert WellPlaced(x, i, e);
      } else {
        assert WellPlaced(y, i - |x|, e);
        forall j | i < j <= i + (x + y)[i].size ensures IsAttrKind((x + y)[j].kind) {
          assert (x + y)[j] == y[j - |x|];
        }
      }
    }
  }

  lemma SoundConcat(level: int, x: seq<Token>, y: seq<Token>, e: nat)
    requires Sound(level, x, e) && Sound(level + Balance(x), y, e)
    ensures Sound(level, x + y, e)
  {
    hide Balance, WellFormed, NeverNegative;
    NeverNegativeConcat(level, x, y);
    WellFormedConcat(x, y, e);
  }

  /** After any run the level is the number of open elements, no element was closed that was not open, every
      token lies in the buffer, and the tokens a size counts exist and describe attributes. */
  lemma {:induction false} TableInvariant(d: string, pos: nat, e: nat, level: int, n: nat, cap: Limit)
    requires pos <= e <= |d| && Fits(n, cap) && level >= 0
    ensures var o := Parse(d, pos, e, level, n, cap);
            o.level == level + Balance(o.toks) && o.level >= 0 && NeverNegative(level, o.toks) && WellFormed(o.toks, e)
    decreases e - pos
  {
    hide Step, Sound, Balance, WellFormed, NeverNegative;
    var s := Step(d, pos, e, level, Room(cap, n));
    StepSound(d, pos, e, level, Room(cap, n));
    if s.err != Success {
      EmptySound(e, level);
    } else {
      var l := level + Balance(s.toks);
      SoundParts(level, s.toks, e);
      if !Finishes(level, s.toks) {
        var rest := Parse(d, s.pos, e, l, n + |s.toks|, cap);
        TableInvariant(d, s.pos, e, l, n + |s.toks|, cap);
        SoundWhole(l, rest.toks, e);
        SoundConcat(level, s.toks, rest.toks, e);
        BalanceConcat(s.toks, rest.toks);
        SoundParts(level, s.toks + rest.toks, e);
      }
    }
  }

  lemma EmptySound(e: nat, level: int)
    requires level >= 0
    ensures Balance([]) == 0 && NeverNegative(level, []) && WellFormed([], e)
  {
    PlainSound([], e, level);
  }

  lemma SoundParts(level: int, toks: seq<Token>, e: nat)
    requires Sound(level, toks, e)
    ensures WellFormed(toks, e) && NeverNegative(level, toks) && level + Balance(toks) >= 0
  {
    assert toks[..|toks|] == toks;
  }

  lemma SoundWhole(level: int, toks: seq<Token>, e: nat)
    requires WellFormed(toks, e) && NeverNegative(level, toks)
    ensures Sound(level, toks, e)
  {
  }
}
