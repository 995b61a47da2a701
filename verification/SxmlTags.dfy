/** What the printing loop sees of a token stream: each header with its attributes, and every other token that is not
    text between tags. It is the same however the document arrives. */
module SxmlTags {
  import opened SxmlText
  import opened SxmlGrammar
  import opened SxmlRuns
  import opened SxmlRefill
  import opened SxmlTable

  /** The token at the front with those its size counts, and so on behind them; text is left out. */
  function Tags(toks: seq<Token>): seq<Token>
    decreases |toks|
  {
    if toks == [] then []
    else
      var n := Min(1 + toks[0].size, |toks|);
      (if toks[0].kind == Character then [] else toks[..n]) + Tags(toks[n..])
  }

  lemma WellFormedRest(toks: seq<Token>, n: nat, e: nat)
    requires WellFormed(toks, e) && n <= |toks|
    ensures WellFormed(toks[n..], e)
  {
    forall i | 0 <= i < |toks[n..]| ensures WellPlaced(toks[n..], i, e) {
      assert WellPlaced(toks, n + i, e);
      forall j | i < j <= i + toks[n..][i].size ensures IsAttrKind(toks[n..][j].kind) {
        assert toks[n..][j] == toks[n + j];
      }
    }
  }

  /** Behind whole constructs the loop starts afresh. */
  lemma {:induction false} TagsConcat(x: seq<Token>, y: seq<Token>, e: nat)
    requires WellFormed(x, e)
    ensures Tags(x + y) == Tags(x) + Tags(y)
    decreases |x|
  {
    hide Tags, WellFormed;
    if x == [] {
      assert x + y == y;
      NoTags();
    } else {
      FirstFits(x, e);
      var n := 1 + x[0].size;
      WellFormedRest(x, n, e);
      TagsConcat(x[n..], y, e);
      TagsFirst(x + y);
      TagsFirst(x);
      assert (x + y)[..n] == x[..n] && (x + y)[n..] == x[n..] + y;
    }
  }

  lemma FirstFits(x: seq<Token>, e: nat)
    requires WellFormed(x, e) && x != []
    ensures 1 + x[0].size <= |x|
  {
    assert WellPlaced(x, 0, e);
  }

  lemma TagsFirst(x: seq<Token>)
    requires x != [] && 1 + x[0].size <= |x|
    ensures var n := 1 + x[0].size;
            Tags(x) == (if x[0].kind == Character then [] else x[..n]) + Tags(x[n..])
  {
  }

  lemma NoTags()
    ensures Tags([]) == []
  {
  }

  ghost predicate OnlyText(toks: seq<Token>) {
    forall t :: t in toks ==> t.kind == Character && t.size == 0
  }

  lemma {:induction false} TextNoTags(toks: seq<Token>)
    requires OnlyText(toks)
    ensures Tags(toks) == []
  {
    if toks != [] {
      assert toks[0] in toks;
      TextNoTags(toks[1..]);
    }
  }

  /** A step that reads text has text tokens only. */
  lemma TextStepOnlyText(d: string, pos: nat, e: nat, level: int)
    requires pos <= e <= |d| && AtText(d, pos, e, level)
    ensures OnlyText(Step(d, pos, e, level, Unbounded).toks)
  {
    hide Scan;
  }

  /** A step in front of the rest of the run. */
  lemma ReferenceTags(d: string, pos: nat, level: int)
    requires pos <= |d| && level >= 0
    ensures var s := Step(d, pos, |d|, level, Unbounded);
            var l := level + Balance(s.toks);
            Tags(Reference(d, pos, level).toks) ==
            if s.err != Success then [] else if Finishes(level, s.toks) then Tags(s.toks)
            else Tags(s.toks) + Tags(Reference(d, s.pos, l).toks)
    ensures var s := Step(d, pos, |d|, level, Unbounded);
            s.err == Success ==> level + Balance(s.toks) >= 0
  {
    hide Step, Sound, Tags;
    var s := Step(d, pos, |d|, level, Unbounded);
    NoTags();
    if s.err == Success {
      StepSound(d, pos, |d|, level, Unbounded);
      SoundParts(level, s.toks, |d|);
      if !Finishes(level, s.toks) {
        CountIrrelevant(d, s.pos, |d|, level + Balance(s.toks), |s.toks|);
        TagsConcat(s.toks, Reference(d, s.pos, level + Balance(s.toks)).toks, |d|);
      }
    }
  }

  /** Where text is cut makes no difference to what follows. */
  lemma CutTags(d: string, pos: nat, e: nat, level: int)
    requires pos <= e < |d| && CutText(d, pos, e, level)
    ensures Tags(Reference(d, pos, level).toks) == Tags(Reference(d, e, level).toks)
  {
    hide Step, Tags, Balance, Reference, Scan;
    var ampr, entity := CutTextSteps(d, pos, e, level);
    TextStepOnlyText(d, pos, |d|, level);
    TextNoTags(Step(d, pos, |d|, level, Unbounded).toks);
    ReferenceTags(d, pos, level);
    TextBalance(Text(pos, e));
    if AtText(d, e, |d|, level) {
      TailBalance(pos, e, ampr, entity);
      TextStepOnlyText(d, e, |d|, level);
      TextNoTags(Step(d, e, |d|, level, Unbounded).toks);
      ReferenceTags(d, e, level);
    }
  }

  /** What a call on a part of the document contributes. */
  ghost predicate TagsInView(d: string, ref: seq<Token>, e: nat, o: Outcome)
    requires o.pos <= |d|
  {
    Tags(ref) == Tags(o.toks) + if o.err == BufferDry && e < |d| then Tags(Reference(d, o.pos, o.level).toks) else []
  }

  /** A call shows the tags of the whole run up to where it stops. */
  lemma {:induction false} RunTags(d: string, pos: nat, e: nat, level: int, n: nat)
    requires pos <= e <= |d| && level >= 0
    ensures TagsInView(d, Reference(d, pos, level).toks, e, Parse(d, pos, e, level, n, Unbounded))
    decreases e - pos
  {
    hide Step, Sound, Tags, Balance, Reference, CutText, AtText, CommitPos;
    var s := Step(d, pos, e, level, Unbounded);
    NoTags();
    if s.err != Success {
      StopTags(d, pos, e, level);
    } else {
      StepSound(d, pos, e, level, Unbounded);
      SoundParts(level, s.toks, e);
      StepTags(d, pos, e, level);
      if !Finishes(level, s.toks) {
        var l := level + Balance(s.toks);
        RunTags(d, s.pos, e, l, n + |s.toks|);
        TagsConcat(s.toks, Parse(d, s.pos, e, l, n + |s.toks|, Unbounded).toks, e);
      }
    }
  }

  lemma StopTags(d: string, pos: nat, e: nat, level: int)
    requires pos <= e <= |d| && level >= 0 && Step(d, pos, e, level, Unbounded).err != Success
    ensures TagsInView(d, Reference(d, pos, level).toks, e,
                       Stopped(d, pos, e, level, Step(d, pos, e, level, Unbounded)))
  {
    hide Step, Tags, Balance, CutText, AtText, Scan;
    var s := Step(d, pos, e, level, Unbounded);
    NoTags();
    if s.err == BufferDry && e < |d| {
      CommitKeepsParse(d, pos, e, |d|, level, 0, Unbounded);
    } else {
      StepNeverFull(d, pos, e, level);
      if CutText(d, pos, e, level) {
        CutIsNoError(d, pos, e, level);
      }
      StepDecided(d, pos, e, level);
      ReferenceTags(d, pos, level);
    }
  }

  lemma StepNeverFull(d: string, pos: nat, e: nat, level: int)
    requires pos <= e <= |d|
    ensures Step(d, pos, e, level, Unbounded).err != TokensFull
  {
    hide Step;
    StepRoom(d, pos, e, level, Unbounded);
  }

  lemma StepTags(d: string, pos: nat, e: nat, level: int)
    requires pos <= e <= |d| && level >= 0 && Step(d, pos, e, level, Unbounded).err == Success
    ensures var s := Step(d, pos, e, level, Unbounded);
            Tags(Reference(d, pos, level).toks) ==
            Tags(s.toks) + if Finishes(level, s.toks) then []
                           else Tags(Reference(d, s.pos, level + Balance(s.toks)).toks)
  {
    hide Step, Tags, Balance, CutText, AtText, Scan, Reference;
    if e < |d| && CutText(d, pos, e, level) {
      CutTextGoesOn(d, pos, e, level);
      CutTags(d, pos, e, level);
      TextNoTags(Text(pos, e));
      CutAtText(d, pos, e, level);
    } else {
      StepDecided(d, pos, e, level);
      ReferenceTags(d, pos, level);
    }
  }

  lemma CutAtText(d: string, pos: nat, e: nat, level: int)
    requires pos <= e <= |d| && CutText(d, pos, e, level)
    ensures level > 0
  {
  }
}
