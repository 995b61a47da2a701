/** Seeing more of the document: what a parsing routine decides while it sees the document up to e it still
    decides when it sees more, and one that asks for more input has pushed no more tokens than it will in the end. */
module SxmlWindow {
  import opened SxmlText
  import opened SxmlGrammar

  /** The relation between a routine's results at e and at a later end. */
  predicate Agrees(r: Res, r': Res, decided: bool) {
    |r.toks| <= |r'.toks| && (decided ==> r' == r)
  }

  lemma ScanMore(d: string, s: nat, e: nat, e': nat, stop: Stop)
    requires s <= e <= e' <= |d|
    ensures var r := Scan(d, s, e, stop);
            var r' := Scan(d, s, e', stop);
            r' >= r && (r < e || e == e' ==> r' == r)
  {
    ScanWindow(d, d, 0, s, e, e', stop);
  }

  /** Attributes that stop where the view ends may go on behind it. */
  predicate AttrDecided(r: Res, e: nat) {
    !(r.err == BufferDry || (r.err == Success && r.pos == e))
  }

  lemma AttrQuotedMore(d: string, quot: nat, e: nat, e': nat, toks: seq<Token>)
    requires quot < e < e' <= |d|
    ensures var r := AttrQuoted(d, quot, e, toks, Unbounded);
            Agrees(r, AttrQuoted(d, quot, e', toks, Unbounded), AttrDecided(r, e))
  {
    hide AttrValue, Scan;
    var close := Scan(d, quot + 1, e, AtChar(d[quot]));
    ScanMore(d, quot + 1, e, e', AtChar(d[quot]));
    if close < e {
      ScanMore(d, close + 1, e, e', AtNonSpace);
    }
  }

  lemma AttrQuotedDry(d: string, e: nat, toks: seq<Token>)
    requires e <= |d|
    ensures AttrQuoted(d, e, e, toks, Unbounded) == Res(BufferDry, e, toks)
  {
  }

  lemma AttrOneMore(d: string, name: nat, e: nat, e': nat, toks: seq<Token>)
    requires name < e < e' <= |d| && NameStartChar(d[name])
    ensures var r := AttrOne(d, name, e, toks, Unbounded);
            Agrees(r, AttrOne(d, name, e', toks, Unbounded), AttrDecided(r, e))
  {
    hide Scan, RTrim, AttrQuoted;
    var eq := Scan(d, name, e, AtChar('='));
    ScanMore(d, name, e, e', AtChar('='));
    if eq < e {
      var quot := Scan(d, eq + 1, e, AtNonSpace);
      var toks1 := toks + [Token(CData, 0, name, RTrim(d, name, eq))];
      ScanMore(d, eq + 1, e, e', AtNonSpace);
      if quot < e {
        AttrQuotedMore(d, quot, e, e', toks1);
      } else {
        AttrQuotedDry(d, e, toks1);
      }
    }
  }

  lemma {:induction false} AttrLoopMore(d: string, name: nat, e: nat, e': nat, toks: seq<Token>)
    requires name <= e < e' <= |d|
    ensures var r := AttrLoop(d, name, e, toks, Unbounded);
            Agrees(r, AttrLoop(d, name, e', toks, Unbounded), AttrDecided(r, e))
    decreases e - name
  {
    hide AttrOne;
    if name < e && NameStartChar(d[name]) {
      AttrOneMore(d, name, e, e', toks);
      var r := AttrOne(d, name, e, toks, Unbounded);
      if r.err == Success && r.pos < e {
        AttrLoopMore(d, r.pos, e, e', r.toks);
      }
    }
  }

  lemma AttributesMore(d: string, pos: nat, e: nat, e': nat, toks: seq<Token>)
    requires pos <= e < e' <= |d| && toks != []
    ensures var r := Attributes(d, pos, e, toks, Unbounded);
            Agrees(r, Attributes(d, pos, e', toks, Unbounded), AttrDecided(r, e))
  {
    hide AttrOne, Scan;
    var n := Scan(d, pos, e, AtNonSpace);
    ScanMore(d, pos, e, e', AtNonSpace);
    if n < e {
      AttrLoopMore(d, n, e, e', toks);
    }
  }

  lemma DelimitedMore(d: string, pos: nat, e: nat, e': nat, open: string, close: string, mismatch: Err, kind: Kind)
    requires pos <= e < e' <= |d| && close != "" && mismatch != Success
    ensures var r := Delimited(d, pos, e, open, close, mismatch, kind, Unbounded);
            Agrees(r, Delimited(d, pos, e', open, close, mismatch, kind, Unbounded), r.err != BufferDry)
  {
    hide FindStr;
    StartsWithWindow(d, d, 0, pos, e, e', open);
    if |open| <= e - pos && StartsWith(d, pos, e, open) {
      if FindStr(d, pos + |open|, e, close) < e {
        FindStrWindow(d, d, 0, pos + |open|, e, e', close);
      }
    }
  }

  lemma InstructionMore(d: string, pos: nat, e: nat, e': nat)
    requires pos + TAG_MINSIZE <= e < e' <= |d|
    ensures var r := InstructionAt(d, pos, e, Unbounded);
            Agrees(r, InstructionAt(d, pos, e', Unbounded), r.err != BufferDry)
  {
    hide AttrLoop, Attributes;
    StartsWithWindow(d, d, 0, pos, e, e', "<?");
    if StartsWith(d, pos, e, "<?") {
      var space := Scan(d, pos + 2, e, AtNonName);
      ScanMore(d, pos + 2, e, e', AtNonName);
      if space < e {
        var header := [Token(Instruction, 0, pos + 2, space)];
        AttributesMore(d, space, e, e', header);
        var r := Attributes(d, space, e, header, Unbounded);
        if r.err == Success {
          StartsWithWindow(d, d, 0, r.pos, e, e', "?>");
        }
      }
    }
  }

  lemma StartMore(d: string, pos: nat, e: nat, e': nat)
    requires pos + TAG_MINSIZE <= e < e' <= |d|
    ensures var r := StartAt(d, pos, e, Unbounded);
            Agrees(r, StartAt(d, pos, e', Unbounded), r.err != BufferDry)
  {
    hide AttrLoop, Attributes;
    if d[pos] == '<' && NameStartChar(d[pos + 1]) {
      var space := Scan(d, pos + 1, e, AtNonName);
      ScanMore(d, pos + 1, e, e', AtNonName);
      if space < e {
        AttributesMore(d, space, e, e', [Token(StartTag, 0, pos + 1, space)]);
      }
    }
  }

  lemma EndMore(d: string, pos: nat, e: nat, e': nat)
    requires pos + TAG_MINSIZE <= e < e' <= |d|
    ensures var r := EndAt(d, pos, e, Unbounded);
            Agrees(r, EndAt(d, pos, e', Unbounded), r.err != BufferDry)
  {
    StartsWithWindow(d, d, 0, pos, e, e', "</");
    ScanMore(d, pos + 2, e, e', AtChar('>'));
  }

  lemma ConstructMore(d: string, lt: nat, e: nat, e': nat, inRoot: bool)
    requires lt + TAG_MINSIZE <= e < e' <= |d|
    ensures var r := Construct(d, lt, e, inRoot, Unbounded);
            Agrees(r, Construct(d, lt, e', inRoot, Unbounded), r.err != BufferDry)
  {
    match d[lt + 1]
    case '?' => InstructionMore(d, lt, e, e');
    case '!' =>
      if !inRoot {
        DelimitedMore(d, lt, e, e', "<!DOCTYPE", "]>", BufferDry, DocType);
      } else if d[lt + 2] == '-' {
        DelimitedMore(d, lt, e, e', "<!--", "-->", XmlInvalid, Comment);
      } else {
        DelimitedMore(d, lt, e, e', "<![CDATA[", "]]>", XmlInvalid, CData);
      }
    case '/' =>
      if inRoot { EndMore(d, lt, e, e'); } else { StartMore(d, lt, e, e'); }
    case _ => StartMore(d, lt, e, e');
  }
}
