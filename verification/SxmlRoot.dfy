/** Which documents the parser can accept at all: the loop over the content starts only once a root is open, so a
    root that closes itself is read like an instruction. */
module SxmlRoot {
  import opened SxmlText
  import opened SxmlGrammar
  import opened SxmlRuns
  import opened SxmlRefill
  import opened SxmlTable

  /** Where the constructs before the content lead: behind the tag that leaves the root open, or to the verdict of the
      first construct that does not succeed. */
  datatype Prolog = Opened(pos: nat) | Closed(err: Err)

  /** A start tag that is not closed at once. */
  predicate LeavesOpen(toks: seq<Token>) {
    toks != [] && toks[0].kind == StartTag && toks[|toks| - 1].kind != EndTag
  }

  function PrologFrom(d: string, pos: nat): (p: Prolog)
    requires pos <= |d|
    ensures if p.Opened? then pos < p.pos <= |d| else p.err != Success
    decreases |d| - pos
  {
    var s := Step(d, pos, |d|, 0, Unbounded);
    if s.err != Success then Closed(s.err)
    else if LeavesOpen(s.toks) then Opened(s.pos)
    else PrologFrom(d, s.pos)
  }

  /** In front of the content, exactly the start tags that are not closed at once open an element. */
  lemma StepOpens(d: string, pos: nat)
    requires pos <= |d|
    ensures var s := Step(d, pos, |d|, 0, Unbounded);
            s.err == Success ==> Balance(s.toks) == if LeavesOpen(s.toks) then 1 else 0
  {
    hide Scan, StartAt, InstructionAt, Delimited;
    var lt := CommitPos(d, pos, |d|, 0);
    if |d| - lt >= TAG_MINSIZE {
      StartOpensRoot(d, lt);
      InstructionOpensNone(d, lt);
      DoctypeOpensNone(d, lt);
    }
  }

  lemma StartOpensRoot(d: string, lt: nat)
    requires lt + TAG_MINSIZE <= |d|
    ensures var s := StartAt(d, lt, |d|, Unbounded);
            s.err == Success ==> Balance(s.toks) == if LeavesOpen(s.toks) then 1 else 0
  {
    hide Scan, Attributes;
    var space := Scan(d, lt + 1, |d|, AtNonName);
    if space < |d| {
      var header := Token(StartTag, 0, lt + 1, space);
      StartOpens(d, space, |d|, header, Unbounded);
      AttributesPlain(d, space, |d|, header, Unbounded);
      var a := Attributes(d, space, |d|, [header], Unbounded).toks;
      assert (a + [Token(EndTag, 0, lt + 1, space)])[..|a|] == a;
      if |a| > 1 {
        assert a[|a| - 1] == a[1..][|a| - 2] && a[1..][|a| - 2] in a[1..];
      }
    }
  }

  lemma InstructionOpensNone(d: string, lt: nat)
    requires lt + TAG_MINSIZE <= |d|
    ensures var s := InstructionAt(d, lt, |d|, Unbounded);
            s.err == Success ==> Balance(s.toks) == 0 && !LeavesOpen(s.toks)
  {
    hide Scan, Attributes;
    var space := Scan(d, lt + 2, |d|, AtNonName);
    if space < |d| {
      var header := Token(Instruction, 0, lt + 2, space);
      AttributesPlain(d, space, |d|, header, Unbounded);
      var r := Attributes(d, space, |d|, [header], Unbounded);
      if r.err == Success {
        var a := r.toks;
        assert a == [a[0]] + a[1..] + [] && a[..|a|] == a;
        HeaderPrefix(a[0], a[1..], [], |d|, |a|);
      }
    }
  }

  lemma DoctypeOpensNone(d: string, lt: nat)
    requires lt <= |d|
    ensures var s := DoctypeAt(d, lt, |d|, Unbounded);
            s.err == Success ==> Balance(s.toks) == 0 && !LeavesOpen(s.toks)
  {
    hide FindStr;
  }

  /** A run from level 0 ends as the content does if some tag leaves the root open, and otherwise with the verdict of
      the first construct that does not succeed, which is never success. */
  lemma {:induction false} RootMustOpen(d: string, pos: nat)
    requires pos <= |d|
    ensures var p := PrologFrom(d, pos);
            Reference(d, pos, 0).err == if p.Opened? then Reference(d, p.pos, 1).err else p.err
    ensures Reference(d, pos, 0).err == Success <==>
            PrologFrom(d, pos).Opened? && Reference(d, PrologFrom(d, pos).pos, 1).err == Success
    decreases |d| - pos
  {
    hide Step, LeavesOpen, Balance, CommitPos, AtText;
    var s := Step(d, pos, |d|, 0, Unbounded);
    StepOpens(d, pos);
    if s.err == Success {
      CountIrrelevant(d, s.pos, |d|, Balance(s.toks), |s.toks|);
      if !LeavesOpen(s.toks) {
        RootMustOpen(d, s.pos);
      }
    }
  }

  lemma OnlySpaceLeft(d: string, pos: nat)
    requires pos <= |d| && Scan(d, pos, |d|, AtNonSpace) == |d|
    ensures Step(d, pos, |d|, 0, Unbounded).err == BufferDry
  {
    hide Scan, Construct, Characters;
  }

  /** A construct that opens and closes the root, behind any prolog and with nothing but white space behind it: the
      parser asks for more. */
  lemma {:induction false} SelfClosedRoot(d: string, pos: nat, root: nat)
    requires pos <= |d| && PrologReaches(d, pos, root)
    requires var s := Step(d, root, |d|, 0, Unbounded);
             s.err == Success && !LeavesOpen(s.toks) && Scan(d, s.pos, |d|, AtNonSpace) == |d|
    ensures Reference(d, pos, 0).err == BufferDry
    decreases |d| - pos
  {
    hide Step, LeavesOpen, Balance, Scan, CommitPos, AtText, Parse;
    RootMustOpen(d, pos);
    PrologStays(d, pos, root);
    OnlySpaceLeft(d, Step(d, root, |d|, 0, Unbounded).pos);
  }

  /** The prolog from pos consists of constructs that leave the level at 0, up to root. */
  predicate PrologReaches(d: string, pos: nat, root: nat)
    requires pos <= |d|
    ensures PrologReaches(d, pos, root) ==> root <= |d|
    decreases |d| - pos
  {
    pos == root ||
    (var s := Step(d, pos, |d|, 0, Unbounded);
     s.err == Success && !LeavesOpen(s.toks) && PrologReaches(d, s.pos, root))
  }

  lemma {:induction false} PrologStays(d: string, pos: nat, root: nat)
    requires pos <= |d| && PrologReaches(d, pos, root)
    ensures PrologFrom(d, pos) == PrologFrom(d, root)
    decreases |d| - pos
  {
    hide Step, LeavesOpen;
    if pos != root {
      PrologStays(d, Step(d, pos, |d|, 0, Unbounded).pos, root);
    }
  }

  lemma ScanIs(d: string, a: nat, b: nat, stop: Stop)
    requires a <= b < |d| && stop.Matches(d[b]) && forall i :: a <= i < b ==> !stop.Matches(d[i])
    ensures Scan(d, a, |d|, stop) == b
  {
    SkipScan(d, a, b, |d|, stop);
  }

  /** The construct at a '<' before the content. */
  lemma StepAt(d: string, p: nat)
    requires p + TAG_MINSIZE <= |d| && d[p] == '<'
    ensures d[p + 1] == '?' ==> Step(d, p, |d|, 0, Unbounded) == InstructionAt(d, p, |d|, Unbounded)
    ensures d[p + 1] != '?' && d[p + 1] != '!' ==> Step(d, p, |d|, 0, Unbounded) == StartAt(d, p, |d|, Unbounded)
  {
    hide InstructionAt, StartAt;
    ScanIs(d, p, p, AtNonSpace);
  }

  lemma NoAttributes(d: string, n: nat, header: Token)
    requires n < |d| && !NameStartChar(d[n]) && AtNonSpace.Matches(d[n])
    ensures Attributes(d, n, |d|, [header], Unbounded) == Res(Success, n, [header.(size := 0)])
  {
    ScanIs(d, n, n, AtNonSpace);
  }

  /** A tag without attributes that closes itself. */
  lemma BareTag(d: string, p: nat, n: nat)
    requires p + 1 < n && n + 2 <= |d| && d[p] == '<' && NameStartChar(d[p + 1]) && d[n] == '/' && d[n + 1] == '>'
    requires forall i :: p + 1 <= i < n ==> !AtNonName.Matches(d[i])
    ensures var s := Step(d, p, |d|, 0, Unbounded);
            s.err == Success && s.pos == n + 2 && !LeavesOpen(s.toks)
  {
    StepAt(d, p);
    ScanIs(d, p + 1, n, AtNonName);
    NoAttributes(d, n, Token(StartTag, 0, p + 1, n));
    hide Scan, Attributes, Step;
  }

  /** The shortest document that is well-formed and never accepted. */
  lemma BareRoot()
    ensures Reference("<a/>", 0, 0).err == BufferDry
  {
    var d := "<a/>";
    BareTag(d, 0, 2);
    SelfClosedRoot(d, 0, 0);
  }

  /** A value without an ampersand. */
  lemma AttrOfText(d: string, pos: nat, end: nat, toks: seq<Token>)
    requires pos <= end <= |d| && forall i :: pos <= i < end ==> d[i] != '&'
    ensures AttrValue(d, pos, end, toks, Unbounded).err == Success
  {
    SkipScan(d, pos, end, end, AtChar('&'));
  }

  /** The attribute of the declaration. */
  lemma DeclarationAttribute(d: string, toks: seq<Token>)
    requires d == "<?xml version='1.0'?><a/>"
    ensures var r := AttrOne(d, 6, |d|, toks, Unbounded); r.err == Success && r.pos == 19
  {
    ScanIs(d, 6, 13, AtChar('='));
    ScanIs(d, 14, 14, AtNonSpace);
    ScanIs(d, 15, 18, AtChar('\''));
    ScanIs(d, 19, 19, AtNonSpace);
    hide Scan, RTrim, AttrValue;
    AttrOfText(d, 15, 18, toks + [Token(CData, 0, 6, RTrim(d, 6, 13))]);
  }

  lemma DeclarationName(d: string)
    requires d == "<?xml version='1.0'?><a/>"
    ensures Scan(d, 2, |d|, AtNonName) == 5
  {
    hide Scan;
    ScanIs(d, 2, 5, AtNonName);
  }

  lemma DeclarationSpace(d: string)
    requires d == "<?xml version='1.0'?><a/>"
    ensures Scan(d, 5, |d|, AtNonSpace) == 6
  {
    hide Scan;
    ScanIs(d, 5, 6, AtNonSpace);
  }

  lemma OneAttribute(d: string, space: nat, name: nat, q: nat, header: Token)
    requires space <= name < q < |d| && Scan(d, space, |d|, AtNonSpace) == name && NameStartChar(d[name])
    requires var r := AttrOne(d, name, |d|, [header], Unbounded); r.err == Success && r.pos == q
    requires !NameStartChar(d[q])
    ensures var r := Attributes(d, space, |d|, [header], Unbounded); r.err == Success && r.pos == q
  {
    hide Scan, AttrOne, NameStartChar;
    var r := AttrOne(d, name, |d|, [header], Unbounded);
    assert AttrLoop(d, q, |d|, r.toks, Unbounded) == Res(Success, q, r.toks);
    assert AttrLoop(d, name, |d|, [header], Unbounded) == Res(Success, q, r.toks);
  }

  /** An instruction whose attributes end at q. */
  lemma InstructionEnds(d: string, p: nat, space: nat, q: nat)
    requires p + 2 <= space < q && q + 2 <= |d| && d[p] == '<' && d[p + 1] == '?'
    requires Scan(d, p + 2, |d|, AtNonName) == space && d[q] == '?' && d[q + 1] == '>'
    requires var r := Attributes(d, space, |d|, [Token(Instruction, 0, p + 2, space)], Unbounded);
             r.err == Success && r.pos == q
    ensures var s := Step(d, p, |d|, 0, Unbounded); s.err == Success && s.pos == q + 2 && !LeavesOpen(s.toks)
  {
    hide Step, LeavesOpen, Attributes, Scan;
    StepAt(d, p);
    InstructionOpensNone(d, p);
  }

  lemma DeclarationStep(d: string)
    requires d == "<?xml version='1.0'?><a/>"
    ensures var s := Step(d, 0, |d|, 0, Unbounded); s.err == Success && s.pos == 21 && !LeavesOpen(s.toks)
  {
    hide Step, LeavesOpen, Attributes, AttrOne, Scan;
    var header := Token(Instruction, 0, 2, 5);
    DeclarationName(d);
    DeclarationSpace(d);
    DeclarationAttribute(d, [header]);
    OneAttribute(d, 5, 6, 19, header);
    InstructionEnds(d, 0, 5, 19);
  }

  /** The same behind a declaration. */
  lemma DeclaredRoot()
    ensures Reference("<?xml version='1.0'?><a/>", 0, 0).err == BufferDry
  {
    var d := "<?xml version='1.0'?><a/>";
    DeclarationStep(d);
    BareTag(d, 21, 23);
    hide Step, LeavesOpen, Parse;
    assert PrologReaches(d, 21, 21) && PrologReaches(d, 0, 21);
    SelfClosedRoot(d, 0, 21);
  }

  // ---------- Markup declarations before the content ----------

  /** A document type with an internal subset. */
  predicate SubsetAt(d: string, p: nat)
    requires p <= |d|
  {
    StartsWith(d, p, |d|, "<!DOCTYPE") && FindStr(d, p + 9, |d|, "]>") < |d|
  }

  /** Before the content "<!" is accepted exactly if it starts a document type that has an internal subset; comments,
      and document types without one, ask for more. */
  lemma DoctypeExact(d: string, pos: nat)
    requires pos <= |d|
    requires var p := CommitPos(d, pos, |d|, 0); p + 1 < |d| && d[p] == '<' && d[p + 1] == '!'
    ensures Step(d, pos, |d|, 0, Unbounded).err ==
            if SubsetAt(d, CommitPos(d, pos, |d|, 0)) then Success else BufferDry
  {
    hide Scan, FindStr;
  }

  /** Without one, nothing behind it makes the document acceptable. */
  lemma NoSubset(d: string, start: nat, pos: nat)
    requires start <= |d| && PrologReaches(d, start, pos)
    requires var p := CommitPos(d, pos, |d|, 0); p + 1 < |d| && d[p] == '<' && d[p + 1] == '!' && !SubsetAt(d, p)
    ensures Reference(d, start, 0).err == BufferDry
  {
    hide Step, CommitPos, LeavesOpen, SubsetAt, Reference, PrologReaches;
    DoctypeExact(d, pos);
    RootMustOpen(d, start);
    PrologStays(d, start, pos);
  }

  /** A comment in front of the root. */
  lemma CommentedRoot()
    ensures Reference("<!--c--><a></a>", 0, 0).err == BufferDry
  {
    var d := "<!--c--><a></a>";
    ScanIs(d, 0, 0, AtNonSpace);
    assert d[2] == '-' && "<!DOCTYPE"[2] == 'D';
    assert d[0..9][2] == d[2];
    NoSubset(d, 0, 0);
  }

  /** A document type without an internal subset. */
  lemma PlainDoctype()
    ensures Reference("<!DOCTYPE a><a></a>", 0, 0).err == BufferDry
  {
    var d := "<!DOCTYPE a><a></a>";
    ScanIs(d, 0, 0, AtNonSpace);
    SkipOtherFirst(d, 9, |d|, |d|, "]>");
    NoSubset(d, 0, 0);
  }
}
