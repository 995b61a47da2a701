/** The character data of a document: the text that stands between the markup inside the root element. What the tokens
    carry as text is exactly that, however the document arrives. */
module SxmlContent {
  import opened SxmlText
  import opened SxmlGrammar
  import opened SxmlRuns
  import opened SxmlRefill
  import opened SxmlMarks
  import opened SxmlTags
  import opened Texts
  import Table = SxmlTable

  /** Character by character: text up to a '<', and nothing for the markup that stands there. */
  function CharacterData(d: string, pos: nat, level: int): string
    requires pos <= |d|
    decreases |d| - pos
  {
    if level > 0 && pos < |d| && d[pos] != '<' then [d[pos]] + CharacterData(d, pos + 1, level)
    else
      var s := Step(d, pos, |d|, level, Unbounded);
      if s.err != Success || Finishes(level, s.toks) then ""
      else CharacterData(d, s.pos, level + Balance(s.toks))
  }

  /** The text of the tokens that are no part of a header. */
  function TopText(d: string, toks: seq<Token>): string
    decreases |toks|
  {
    if toks == [] then ""
    else
      var t, n := toks[0], Min(1 + toks[0].size, |toks|);
      (if t.kind == Character && t.startpos <= t.endpos <= |d| then d[t.startpos..t.endpos] else "")
      + TopText(d, toks[n..])
  }

  /** What is still to come behind a run that is not finished. */
  function Rest(d: string, o: Outcome): string
    requires o.pos <= |d|
  {
    if o.err == Success then "" else CharacterData(d, o.pos, o.level)
  }

  lemma TopTextFirst(d: string, x: seq<Token>)
    requires x != [] && 1 + x[0].size <= |x|
    ensures var t := x[0];
            TopText(d, x) == (if t.kind == Character && t.startpos <= t.endpos <= |d| then d[t.startpos..t.endpos]
                              else "") + TopText(d, x[1 + t.size..])
  {
  }

  lemma {:induction false} TopTextConcat(d: string, x: seq<Token>, y: seq<Token>, e: nat)
    requires WellFormed(x, e)
    ensures TopText(d, x + y) == TopText(d, x) + TopText(d, y)
    decreases |x|
  {
    hide TopText, WellFormed;
    if x == [] {
      assert x + y == y;
      NoTopText(d);
    } else {
      FirstFits(x, e);
      var n := 1 + x[0].size;
      WellFormedRest(x, n, e);
      TopTextConcat(d, x[n..], y, e);
      TopTextFirst(d, x + y);
      TopTextFirst(d, x);
      assert (x + y)[n..] == x[n..] + y;
    }
  }

  lemma NoTopText(d: string)
    ensures TopText(d, []) == ""
  {
  }

  lemma {:induction false} TilesTopText(d: string, a: nat, toks: seq<Token>, c: nat)
    requires Tiles(d, a, toks, c) && a <= |d|
    ensures a <= c <= |d| && TopText(d, toks) == d[a..c]
    decreases |toks|
  {
    if toks != [] {
      TilesTopText(d, toks[0].endpos, toks[1..], c);
      assert d[a..c] == d[a..toks[0].endpos] + d[toks[0].endpos..c];
    }
  }

  lemma {:induction false} TextInside(d: string, pos: nat, mid: nat, level: int)
    requires level > 0 && Without(d, pos, mid, '<')
    ensures CharacterData(d, pos, level) == d[pos..mid] + CharacterData(d, mid, level)
    decreases mid - pos
  {
    hide Step, Balance, Finishes;
    if pos < mid {
      TextInside(d, pos + 1, mid, level);
      assert d[pos..mid] == [d[pos]] + d[pos + 1..mid];
    }
  }

  lemma HeaderNoText(d: string, h: Token, attrs: seq<Token>, tail: seq<Token>)
    requires h.size == |attrs| && h.kind != Character && (tail == [] || (|tail| == 1 && tail[0].kind == EndTag))
    ensures TopText(d, [h] + attrs + tail) == ""
  {
    hide TopText;
    var g := [h] + attrs + tail;
    assert g[0] == h && g[1 + h.size..] == tail;
    TopTextFirst(d, g);
    NoTopText(d);
    if tail != [] {
      OneNoText(d, tail[0]);
      assert tail == [tail[0]];
    }
  }

  lemma OneNoText(d: string, t: Token)
    requires t.kind != Character
    ensures TopText(d, [t]) == ""
  {
    assert [t][Min(1 + t.size, 1)..] == [];
  }

  lemma HeaderSize(d: string, lt: nat, open: string, h: Token, attrs: seq<Token>, close: string, to: nat)
    requires Header(d, lt, open, h, attrs, close, to) && |attrs| < USHORT
    ensures h.size == |attrs|
  {
    hide Attributed, Name, Holds;
  }

  /** Markup carries no text, its attributes left aside. */
  lemma MarkupNoText(d: string, lt: nat, inRoot: bool, g: seq<Token>, to: nat)
    requires g != [] && InMarkup(d, lt, inRoot, g, to) && |g| <= USHORT
    ensures TopText(d, g) == ""
  {
    hide Header, Name, TopText, Enclosed;
    if g[0].kind == StartTag {
      if g[|g| - 1].kind == EndTag {
        HeaderSize(d, lt, "<", g[0], g[1..|g| - 1], "/>", to);
        HeaderNoText(d, g[0], g[1..|g| - 1], [g[|g| - 1]]);
        assert [g[0]] + g[1..|g| - 1] + [g[|g| - 1]] == g;
      } else {
        HeaderSize(d, lt, "<", g[0], g[1..], ">", to);
        HeaderNoText(d, g[0], g[1..], []);
        assert [g[0]] + g[1..] + [] == g;
      }
    } else if g[0].kind == Instruction {
      HeaderSize(d, lt, "<?", g[0], g[1..], "?>", to);
      HeaderNoText(d, g[0], g[1..], []);
      assert [g[0]] + g[1..] + [] == g;
    } else {
      OneToken(d, lt, inRoot, g, to);
      OneNoText(d, g[0]);
      assert g == [g[0]];
    }
  }

  lemma OneToken(d: string, lt: nat, inRoot: bool, g: seq<Token>, to: nat)
    requires g != [] && InMarkup(d, lt, inRoot, g, to) && g[0].kind != StartTag && g[0].kind != Instruction
    ensures |g| == 1
  {
    hide Holds, Name;
  }

  /** The text of one step is what the document has there. */
  lemma StepText(d: string, pos: nat, e: nat, level: int)
    requires pos <= e <= |d| && Step(d, pos, e, level, Unbounded).err == Success
    requires |Step(d, pos, e, level, Unbounded).toks| <= USHORT
    ensures var s := Step(d, pos, e, level, Unbounded);
            if AtText(d, pos, e, level) then
              TopText(d, s.toks) == d[pos..s.pos] && level > 0 && Balance(s.toks) == 0 && Without(d, pos, s.pos, '<')
            else TopText(d, s.toks) == ""
  {
    hide Step, Scan, InMarkup, TopText, Tiles, Balance;
    var s := Step(d, pos, e, level, Unbounded);
    StepMarks(d, pos, e, level);
    FirstToken(d, pos, e, level);
    if AtText(d, pos, e, level) {
      TilesTopText(d, pos, s.toks, s.pos);
    } else {
      var lt: nat :| Blank(d, pos, lt, level) && lt < s.pos && InMarkup(d, lt, level > 0, s.toks, s.pos);
      MarkupNoText(d, lt, level > 0, s.toks, s.pos);
    }
  }

  lemma FirstToken(d: string, pos: nat, e: nat, level: int)
    requires pos <= e <= |d| && Step(d, pos, e, level, Unbounded).err == Success
    ensures var s := Step(d, pos, e, level, Unbounded);
            && s.toks != [] && (s.toks[0].kind == Character <==> AtText(d, pos, e, level))
            && (AtText(d, pos, e, level) ==> Balance(s.toks) == 0)
  {
    hide Scan, Characters, Construct, InMarkup, Tiles, Balance;
    StepMarks(d, pos, e, level);
    if AtText(d, pos, e, level) {
      var end := Scan(d, pos, e, AtChar('<'));
      var ampr, entity := CharactersFrom(d, pos, end);
      TextFirst(d, pos, end);
    } else {
      ConstructMarks(d, CommitPos(d, pos, e, level), e, level > 0);
    }
  }

  lemma TextFirst(d: string, pos: nat, end: nat)
    requires pos < end <= |d| && Characters(d, pos, end, [], Unbounded).err == Success
    ensures Characters(d, pos, end, [], Unbounded).toks[0].kind == Character
  {
    hide Scan;
  }

  lemma CommitKeepsText(d: string, pos: nat, e: nat, level: int)
    requires pos <= e <= |d|
    ensures CharacterData(d, CommitPos(d, pos, e, level), level) == CharacterData(d, pos, level)
  {
    hide Step, Balance;
    CommitKeepsStep(d, pos, e, |d|, level, Unbounded);
    if level > 0 {
      assert CommitPos(d, pos, e, level) == pos;
    }
  }

  /** The character data from one step on. */
  lemma StepLeaves(d: string, pos: nat, e: nat, level: int, cap: nat)
    requires pos <= e <= |d| && Roomy(d, pos, level, cap) && cap <= USHORT
    requires Step(d, pos, e, level, Unbounded).err == Success
    ensures var s := Step(d, pos, e, level, Unbounded);
            CharacterData(d, pos, level) ==
            TopText(d, s.toks)
            + if Finishes(level, s.toks) then "" else CharacterData(d, s.pos, level + Balance(s.toks))
  {
    hide Step, Scan, TopText, Balance, Roomy, Without, GoesOn, Reference;
    var s := Step(d, pos, e, level, Unbounded);
    StepGoesOn(d, pos, e, level, cap);
    StepText(d, pos, e, level);
    if AtText(d, pos, e, level) {
      TextInside(d, pos, s.pos, level);
    } else {
      StepDecided(d, pos, e, level);
      NotAtText(d, pos, e, level);
    }
  }

  lemma NotAtText(d: string, pos: nat, e: nat, level: int)
    requires pos <= e <= |d| && Step(d, pos, e, level, Unbounded).err == Success && !AtText(d, pos, e, level)
    ensures pos < |d| && (level > 0 ==> d[pos] == '<')
  {
    if level > 0 {
      assert AtChar('<').Matches(d[pos]);
    }
  }

  /** The text a call shows and what is left behind it are the character data from where it started. */
  lemma {:induction false} RunText(d: string, pos: nat, e: nat, level: int, n: nat, cap: nat)
    requires pos <= e <= |d| && level >= 0 && Roomy(d, pos, level, cap) && cap <= USHORT
    ensures var o := Parse(d, pos, e, level, n, Unbounded);
            && TopText(d, o.toks) + Rest(d, o) == CharacterData(d, pos, level)
            && (o.err != Success ==> Roomy(d, o.pos, o.level, cap))
    decreases e - pos
  {
    hide Step, CommitPos, AtText, TopText, Balance, CharacterData, Roomy, WellFormed, NeverNegative, GoesOn, Reference;
    var s := Step(d, pos, e, level, Unbounded);
    NoTopText(d);
    if s.err != Success {
      CommitKeepsText(d, pos, e, level);
      RoomyAfterCommit(d, pos, e, level, cap);
    } else {
      StepLeaves(d, pos, e, level, cap);
      if !Finishes(level, s.toks) {
        var l := level + Balance(s.toks);
        StepGoesOn(d, pos, e, level, cap);
        Table.StepSound(d, pos, e, level, Unbounded);
        Table.SoundParts(level, s.toks, e);
        RunText(d, s.pos, e, l, n + |s.toks|, cap);
        TopTextConcat(d, s.toks, Parse(d, s.pos, e, l, n + |s.toks|, Unbounded).toks, e);
      }
    }
  }

  /** The text of an accepted document is the text between its markup. */
  lemma AcceptedText(d: string, cap: nat)
    requires Roomy(d, 0, 0, cap) && cap <= USHORT && Reference(d, 0, 0).err == Success
    ensures TopText(d, Reference(d, 0, 0).toks) == CharacterData(d, 0, 0)
    ensures Covered(d, 0, 0, Reference(d, 0, 0).toks, Reference(d, 0, 0).pos)
  {
    hide Parse, Roomy, TopText, CharacterData, Covered;
    RunText(d, 0, |d|, 0, 0, cap);
    RunMarks(d, 0, |d|, 0, 0);
    assert TopText(d, Reference(d, 0, 0).toks) + "" == TopText(d, Reference(d, 0, 0).toks);
  }
}
