/** Which text of the document the tokens of a run mark. The constructs stand one behind the other without a gap, and
    for each its tokens say where its name, its attributes, their values and its inside begin and end. */
module SxmlMarks {
  import opened SxmlText
  import opened SxmlGrammar
  import opened SxmlWindow
  import opened SxmlRuns
  import opened SxmlRefill
  import opened SxmlTable
  import opened Texts

  predicate Spaces(d: string, a: nat, c: nat) {
    a <= c <= |d| && forall i :: a <= i < c ==> WhiteSpace(d[i])
  }

  predicate Without(d: string, a: nat, c: nat, x: char) {
    a <= c <= |d| && forall i :: a <= i < c ==> d[i] != x
  }

  /** Plain text, or one entity reference from its ampersand to its semicolon, at most eight characters. */
  predicate Piece(d: string, a: nat, c: nat) {
    && a < c <= |d|
    && (Without(d, a, c, '&') ||
        (d[a] == '&' && d[c - 1] == ';' && c - a <= 8 && Without(d, a, c - 1, ';')))
  }

  /** The tokens are text, one behind the other from a to c. */
  predicate Tiles(d: string, a: nat, toks: seq<Token>, c: nat)
    decreases |toks|
  {
    if toks == [] then a == c
    else
      && toks[0] == Token(Character, 0, a, toks[0].endpos) && toks[0].endpos <= c
      && Piece(d, a, toks[0].endpos) && Tiles(d, toks[0].endpos, toks[1..], c)
  }

  /** A name, the equals sign with white space around it, and the opening quote; the place behind that quote. */
  predicate Assigned(d: string, t: Token, value: nat) {
    && t.kind == CData && t.size == 0 && t.startpos < t.endpos < value <= |d|
    && NameStartChar(d[t.startpos]) && !WhiteSpace(d[t.endpos - 1])
    && (d[value - 1] == '\'' || d[value - 1] == '"')
    && exists eq: nat :: t.endpos <= eq < value - 1 && Without(d, t.startpos, eq, '=') && Spaces(d, t.endpos, eq)
                         && d[eq] == '=' && Spaces(d, eq + 1, value - 1)
  }

  /** One attribute up to its closing quote, which is the first of its kind behind the opening one. */
  ghost predicate Attribute(d: string, t: Token, values: seq<Token>, value: nat, close: nat) {
    && Assigned(d, t, value) && value <= close < |d| && d[close] == d[value - 1]
    && Without(d, value, close, d[close]) && Tiles(d, value, values, close)
  }

  /** The tokens are the attributes written from p to q, with white space around them. */
  ghost predicate Attributed(d: string, p: nat, toks: seq<Token>, q: nat)
    decreases |toks|
  {
    if toks == [] then Spaces(d, p, q)
    else
      && Spaces(d, p, toks[0].startpos)
      && exists n: nat, value: nat, close: nat | 0 < n <= |toks| ::
          Attribute(d, toks[0], toks[1..n], value, close) && Attributed(d, close + 1, toks[n..], q)
  }

  /** The token marks the whole name that starts there. */
  predicate Name(d: string, t: Token) {
    && t.startpos <= t.endpos < |d| && !NameChar(d[t.endpos])
    && forall i :: t.startpos <= i < t.endpos ==> NameChar(d[i])
  }

  /** An opening string, a name, attributes and a closing string; the size counts the tokens of the attributes. */
  ghost predicate Header(d: string, lt: nat, open: string, h: Token, attrs: seq<Token>, close: string, to: nat) {
    && Holds(d, lt, open) && h.startpos == lt + |open| && Name(d, h) && h.size == |attrs| % USHORT
    && |close| <= to && Holds(d, to - |close|, close) && Attributed(d, h.endpos, attrs, to - |close|)
  }

  ghost predicate StartMark(d: string, lt: nat, g: seq<Token>, to: nat)
    requires g != []
  {
    && g[0].kind == StartTag && g[0].startpos < |d| && NameStartChar(d[g[0].startpos])
    && if g[|g| - 1].kind == EndTag then
         && g[|g| - 1] == Token(EndTag, 0, g[0].startpos, g[0].endpos)
         && Header(d, lt, "<", g[0], g[1..|g| - 1], "/>", to)
       else Header(d, lt, "<", g[0], g[1..], ">", to)
  }

  /** A closing tag: nothing but white space between its name and its bracket. */
  predicate EndMark(d: string, lt: nat, g: seq<Token>, to: nat) {
    && g == [Token(EndTag, 0, lt + 2, if g == [] then 0 else g[0].endpos)]
    && Holds(d, lt, "</") && Name(d, g[0]) && NameStartChar(d[lt + 2])
    && 0 < to && Holds(d, to - 1, ">") && Spaces(d, g[0].endpos, to - 1)
  }

  /** One token from behind the opening string up to the first closing string. */
  predicate Enclosed(d: string, lt: nat, open: string, g: seq<Token>, close: string, to: nat) {
    && |g| == 1 && g[0].size == 0 && g[0].startpos == lt + |open| <= g[0].endpos && to == g[0].endpos + |close|
    && Holds(d, lt, open) && Holds(d, g[0].endpos, close)
    && forall i :: g[0].startpos <= i < g[0].endpos ==> !Holds(d, i, close)
  }

  /** The tokens g of one construct at lt mark what it is made of, and it ends at to. */
  ghost predicate InMarkup(d: string, lt: nat, inRoot: bool, g: seq<Token>, to: nat)
    requires g != []
  {
    match g[0].kind
    case StartTag => StartMark(d, lt, g, to)
    case EndTag => inRoot && EndMark(d, lt, g, to)
    case Instruction => Header(d, lt, "<?", g[0], g[1..], "?>", to)
    case DocType => !inRoot && Enclosed(d, lt, "<!DOCTYPE", g, "]>", to)
    case Comment => inRoot && Enclosed(d, lt, "<!--", g, "-->", to)
    case CData => inRoot && Enclosed(d, lt, "<![CDATA[", g, "]]>", to)
    case Character => false
  }

  /** A piece of text up to markup inside the root element, or markup, before the root element with white space in
      front of it. */
  ghost predicate Marked(d: string, from: nat, level: int, g: seq<Token>, to: nat) {
    && g != [] && from < to <= |d|
    && (if g[0].kind == Character then level > 0 && Without(d, from, to, '<') && Tiles(d, from, g, to)
        else exists lt: nat :: Blank(d, from, lt, level) && lt < to && InMarkup(d, lt, level > 0, g, to))
  }

  predicate Blank(d: string, from: nat, lt: nat, level: int) {
    Spaces(d, from, lt) && (level > 0 ==> from == lt)
  }

  /** The tokens mark the document from one place to another, construct by construct. */
  ghost predicate Covered(d: string, from: nat, level: int, toks: seq<Token>, to: nat)
    decreases |toks|
  {
    if toks == [] then Blank(d, from, to, level)
    else exists n: nat, mid: nat | 0 < n <= |toks| ::
        Marked(d, from, level, toks[..n], mid) && Covered(d, mid, level + Balance(toks[..n]), toks[n..], to)
  }

  // ---------- Text and attribute values ----------

  lemma {:induction false} TilesConcat(d: string, a: nat, x: seq<Token>, b: nat, y: seq<Token>, c: nat)
    requires Tiles(d, a, x, b) && Tiles(d, b, y, c)
    ensures Tiles(d, a, x + y, c)
    decreases |x|
  {
    if x == [] {
      assert x + y == y;
    } else {
      TilesConcat(d, x[0].endpos, x[1..], b, y, c);
      TilesForward(d, b, y, c);
      TilesForward(d, x[0].endpos, x[1..], b);
      assert (x + y)[1..] == x[1..] + y;
    }
  }

  lemma {:induction false} TilesForward(d: string, a: nat, x: seq<Token>, c: nat)
    requires Tiles(d, a, x, c)
    ensures a <= c && forall t :: t in x ==> t.kind == Character
    decreases |x|
  {
    if x != [] {
      TilesForward(d, x[0].endpos, x[1..], c);
      assert x == [x[0]] + x[1..];
    }
  }

  lemma OneTile(d: string, a: nat, c: nat)
    requires Piece(d, a, c)
    ensures Tiles(d, a, [Token(Character, 0, a, c)], c)
  {
    assert [Token(Character, 0, a, c)][1..] == [];
  }

  /** Text is read without a gap: up to the ampersand and then the whole entity reference. */
  lemma CharactersTile(d: string, pos: nat, end: nat, toks: seq<Token>)
    requires pos <= end <= |d|
    ensures var r := Characters(d, pos, end, toks, Unbounded);
            r.err == Success ==> toks <= r.toks && Tiles(d, pos, r.toks[|toks|..], r.pos)
  {
    hide Tiles, Scan;
    var r := Characters(d, pos, end, toks, Unbounded);
    var ampr := Scan(d, pos, end, AtChar('&'));
    var text := Text(pos, ampr);
    TextTiles(d, pos, ampr);
    if r.err == Success {
      if ampr == end {
        assert r.toks == toks + text;
      } else {
        var entity := [Token(Character, 0, ampr, r.pos)];
        EntityPiece(d, pos, end, toks);
        OneTile(d, ampr, r.pos);
        TilesConcat(d, pos, text, ampr, entity, r.pos);
        assert r.toks == toks + (text + entity);
      }
    }
  }

  lemma TextTiles(d: string, a: nat, c: nat)
    requires a <= c <= |d| && Without(d, a, c, '&')
    ensures Tiles(d, a, Text(a, c), c)
  {
    if a < c {
      OneTile(d, a, c);
    }
  }

  lemma EntityPiece(d: string, pos: nat, end: nat, toks: seq<Token>)
    requires pos <= end <= |d|
    ensures var r := Characters(d, pos, end, toks, Unbounded);
            var ampr := Scan(d, pos, end, AtChar('&'));
            r.err == Success && ampr < end ==> Piece(d, ampr, r.pos)
  {
    hide Scan;
    var ampr := Scan(d, pos, end, AtChar('&'));
    if ampr < end {
      var colon := Scan(d, ampr, Min(ampr + ENTITY_MAXLEN, end), AtChar(';'));
      assert forall i :: ampr <= i < colon ==> !AtChar(';').Matches(d[i]);
    }
  }

  /** The tokens of an attribute value are the text between its quotes. */
  lemma {:induction false} AttrValueTiles(d: string, pos: nat, end: nat, toks: seq<Token>)
    requires pos <= end <= |d|
    ensures var r := AttrValue(d, pos, end, toks, Unbounded);
            r.err == Success ==> toks <= r.toks && Tiles(d, pos, r.toks[|toks|..], end)
    decreases end - pos
  {
    hide Characters;
    if pos < end {
      CharactersTile(d, pos, end, toks);
      var r := Characters(d, pos, end, toks, Unbounded);
      if r.err == Success {
        AttrValueTiles(d, r.pos, end, r.toks);
        var r' := AttrValue(d, r.pos, end, r.toks, Unbounded);
        if r'.err == Success {
          TilesConcat(d, pos, r.toks[|toks|..], r.pos, r'.toks[|r.toks|..], end);
          assert r'.toks[|toks|..] == r.toks[|toks|..] + r'.toks[|r.toks|..];
        }
      }
    }
  }

  // ---------- Attributes ----------

  /** The tokens are one attribute from its name on, with white space behind it up to pos. */
  ghost predicate OneAttribute(d: string, name: nat, added: seq<Token>, pos: nat) {
    && added != [] && added[0].startpos == name
    && exists value: nat, close: nat :: Attribute(d, added[0], added[1..], value, close) && Spaces(d, close + 1, pos)
  }

  lemma AttrQuotedMarks(d: string, quot: nat, e: nat, toks: seq<Token>)
    requires quot <= e <= |d|
    ensures var r := AttrQuoted(d, quot, e, toks, Unbounded);
            r.err == Success ==>
              && toks <= r.toks && quot < e && (d[quot] == '\'' || d[quot] == '"')
              && exists close: nat :: quot < close < |d| && d[close] == d[quot] && Without(d, quot + 1, close, d[close])
                                 && Tiles(d, quot + 1, r.toks[|toks|..], close) && Spaces(d, close + 1, r.pos)
  {
    hide Scan, AttrValue, Tiles;
    var r := AttrQuoted(d, quot, e, toks, Unbounded);
    if r.err == Success {
      var close := Scan(d, quot + 1, e, AtChar(d[quot]));
      AttrValueTiles(d, quot + 1, close, toks);
      assert AtChar(d[quot]).Matches(d[close]);
      assert forall i :: quot + 1 <= i < close ==> !AtChar(d[quot]).Matches(d[i]);
      assert Without(d, quot + 1, close, d[close]);
      assert forall i :: close + 1 <= i < r.pos ==> !AtNonSpace.Matches(d[i]);
      assert Spaces(d, close + 1, r.pos);
    }
  }

  lemma NameAssigned(d: string, name: nat, e: nat)
    requires name < e <= |d| && NameStartChar(d[name])
    ensures var eq := Scan(d, name, e, AtChar('='));
            eq < e ==>
              var quot := Scan(d, eq + 1, e, AtNonSpace);
              quot < e && (d[quot] == '\'' || d[quot] == '"') ==>
                Assigned(d, Token(CData, 0, name, RTrim(d, name, eq)), quot + 1)
  {
    hide Scan, RTrim;
    var eq := Scan(d, name, e, AtChar('='));
    if eq < e {
      var t := Token(CData, 0, name, RTrim(d, name, eq));
      var quot := Scan(d, eq + 1, e, AtNonSpace);
      assert AtChar('=').Matches(d[eq]);
      assert forall i :: name <= i < eq ==> !AtChar('=').Matches(d[i]);
      assert forall i :: eq + 1 <= i < quot ==> !AtNonSpace.Matches(d[i]);
      assert Without(d, name, eq, '=') && Spaces(d, t.endpos, eq) && Spaces(d, eq + 1, quot);
      assert name < eq && t.startpos < t.endpos;
    }
  }

  lemma AttrOneMarks(d: string, name: nat, e: nat, toks: seq<Token>)
    requires name < e <= |d| && NameStartChar(d[name])
    ensures var r := AttrOne(d, name, e, toks, Unbounded);
            r.err == Success ==> toks <= r.toks && OneAttribute(d, name, r.toks[|toks|..], r.pos)
  {
    hide Scan, RTrim, AttrQuoted, Tiles, Assigned;
    var r := AttrOne(d, name, e, toks, Unbounded);
    if r.err == Success {
      var eq := Scan(d, name, e, AtChar('='));
      var quot := Scan(d, eq + 1, e, AtNonSpace);
      var t := Token(CData, 0, name, RTrim(d, name, eq));
      AttrQuotedMarks(d, quot, e, toks + [t]);
      NameAssigned(d, name, e);
      var close: nat :| quot < close < |d| && d[close] == d[quot] && Without(d, quot + 1, close, d[close])
                            && Tiles(d, quot + 1, r.toks[|toks + [t]|..], close) && Spaces(d, close + 1, r.pos);
      var added := r.toks[|toks|..];
      assert added[0] == (toks + [t])[|toks|] && added[1..] == r.toks[|toks + [t]|..];
      assert Attribute(d, added[0], added[1..], quot + 1, close);
      assert toks <= toks + [t];
    }
  }

  lemma {:induction false} AttrLoopMarks(d: string, p: nat, name: nat, e: nat, toks: seq<Token>)
    requires name <= e <= |d| && Spaces(d, p, name)
    ensures var r := AttrLoop(d, name, e, toks, Unbounded);
            r.err == Success ==> toks <= r.toks && Attributed(d, p, r.toks[|toks|..], r.pos)
    decreases e - name
  {
    hide AttrOne, Attribute;
    if name < e && NameStartChar(d[name]) {
      AttrOneMarks(d, name, e, toks);
      var r := AttrOne(d, name, e, toks, Unbounded);
      if r.err == Success {
        var added := r.toks[|toks|..];
        var value: nat, close: nat :| Attribute(d, added[0], added[1..], value, close) && Spaces(d, close + 1, r.pos);
        AttrLoopMarks(d, close + 1, r.pos, e, r.toks);
        var r' := AttrLoop(d, r.pos, e, r.toks, Unbounded);
        if r'.err == Success {
          JoinAttributes(d, p, added, value, close, r'.toks[|r.toks|..], r'.pos);
          assert r'.toks[|toks|..] == added + r'.toks[|r.toks|..];
        }
      }
    }
  }

  lemma JoinAttributes(d: string, p: nat, x: seq<Token>, value: nat, close: nat, y: seq<Token>, q: nat)
    requires x != [] && Spaces(d, p, x[0].startpos) && Attribute(d, x[0], x[1..], value, close)
    requires Attributed(d, close + 1, y, q)
    ensures Attributed(d, p, x + y, q)
  {
    hide Attribute, Spaces;
    var all, n := x + y, |x|;
    assert all[0] == x[0] && all[1..n] == x[1..] && all[n..] == y;
  }

  lemma AttributesMarks(d: string, pos: nat, e: nat, h: Token)
    requires pos <= e <= |d| && h.size == 0
    ensures var r := Attributes(d, pos, e, [h], Unbounded);
            r.err == Success ==>
              && r.toks != [] && r.toks[0] == h.(size := (|r.toks| - 1) % USHORT)
              && Attributed(d, pos, r.toks[1..], r.pos)
  {
    hide Scan, AttrLoop, Attributed;
    var name := Scan(d, pos, e, AtNonSpace);
    assert forall i :: pos <= i < name ==> !AtNonSpace.Matches(d[i]);
    AttrLoopMarks(d, pos, name, e, [h]);
  }

  // ---------- Markup ----------

  lemma NameMarked(d: string, start: nat, e: nat, t: Token)
    requires start <= e <= |d| && t.startpos == start && t.endpos == Scan(d, start, e, AtNonName) < e
    ensures Name(d, t)
  {
    assert AtNonName.Matches(d[t.endpos]);
    assert forall i :: start <= i < t.endpos ==> !AtNonName.Matches(d[i]);
  }

  /** The end of a start tag behind its attributes. */
  lemma TagEndMarks(d: string, lt: nat, e: nat, h: Token, r: Res)
    requires r.pos <= e <= |d| && r.toks != [] && Holds(d, lt, "<") && lt + 1 < |d|
    requires r.toks[0] == h.(size := (|r.toks| - 1) % USHORT) && Plain(r.toks[1..], e)
    requires Attributed(d, h.endpos, r.toks[1..], r.pos)
    requires h.kind == StartTag && h.startpos == lt + 1 && Name(d, h) && NameStartChar(d[lt + 1])
    ensures var r' := TagEnd(d, h.startpos, h.endpos, e, r, Unbounded);
            r'.err == Success ==> r'.toks != [] && StartMark(d, lt, r'.toks, r'.pos)
  {
    hide Attributed, Name, Plain, Holds, Header, StartMark;
    var r' := TagEnd(d, h.startpos, h.endpos, e, r, Unbounded);
    if r'.err == Success {
      if r'.toks != r.toks {
        HoldsTwoChars(d, r.pos, "/>");
        ClosedStart(d, lt, h, r.toks, r.pos);
      } else {
        HoldsChar(d, r.pos, ">");
        LastPlain(r.toks, e);
        OpenStart(d, lt, h, r.toks, r.pos);
      }
    }
  }

  lemma OpenStart(d: string, lt: nat, h: Token, a: seq<Token>, q: nat)
    requires a != [] && a[0] == h.(size := (|a| - 1) % USHORT) && a[|a| - 1].kind != EndTag && Holds(d, lt, "<")
    requires Attributed(d, h.endpos, a[1..], q) && Holds(d, q, ">")
    requires h.kind == StartTag && h.startpos == lt + 1 < |d| && Name(d, h) && NameStartChar(d[lt + 1])
    ensures StartMark(d, lt, a, q + 1)
  {
    hide Attributed, Name, Holds;
    SameName(d, h, a[0]);
  }

  lemma ClosedStart(d: string, lt: nat, h: Token, a: seq<Token>, q: nat)
    requires a != [] && a[0] == h.(size := (|a| - 1) % USHORT) && Holds(d, lt, "<")
    requires Attributed(d, h.endpos, a[1..], q) && Holds(d, q, "/>")
    requires h.kind == StartTag && h.startpos == lt + 1 < |d| && Name(d, h) && NameStartChar(d[lt + 1])
    ensures StartMark(d, lt, a + [Token(EndTag, 0, h.startpos, h.endpos)], q + 2)
  {
    hide Attributed, Name, Holds;
    var g := a + [Token(EndTag, 0, h.startpos, h.endpos)];
    SameName(d, h, a[0]);
    assert g[1..|g| - 1] == a[1..];
  }

  lemma HoldsChar(d: string, at: nat, text: string)
    requires |text| == 1 && at < |d| && d[at] == text[0]
    ensures Holds(d, at, text)
  {
  }

  lemma HoldsTwoChars(d: string, at: nat, text: string)
    requires |text| == 2 && at + 1 < |d| && d[at] == text[0] && d[at + 1] == text[1]
    ensures Holds(d, at, text)
  {
  }

  lemma StartMarks(d: string, lt: nat, e: nat)
    requires lt + TAG_MINSIZE <= e <= |d|
    ensures var r := StartAt(d, lt, e, Unbounded);
            r.err == Success ==> r.toks != [] && StartMark(d, lt, r.toks, r.pos)
  {
    hide Scan, Attributes, Attributed, Name, Plain, TagEnd, StartMark, Holds;
    var space := Scan(d, lt + 1, e, AtNonName);
    if d[lt] == '<' && NameStartChar(d[lt + 1]) && space < e {
      var h := Token(StartTag, 0, lt + 1, space);
      var a := Attributes(d, space, e, [h], Unbounded);
      HoldsChar(d, lt, "<");
      AttributesMarks(d, space, e, h);
      NameMarked(d, lt + 1, e, h);
      AttributesPlain(d, space, e, h, Unbounded);
      if a.err == Success {
        TagEndMarks(d, lt, e, h, a);
      }
    }
  }

  lemma SameName(d: string, h: Token, h': Token)
    requires Name(d, h) && h'.startpos == h.startpos && h'.endpos == h.endpos
    ensures Name(d, h')
  {
  }

  lemma LastPlain(toks: seq<Token>, e: nat)
    requires toks != [] && toks[0].kind == StartTag && Plain(toks[1..], e)
    ensures toks[|toks| - 1].kind != EndTag
  {
    if |toks| > 1 {
      assert toks[1..][|toks| - 2] in toks[1..];
    }
  }

  lemma InstructionMarks(d: string, lt: nat, e: nat)
    requires lt + TAG_MINSIZE <= e <= |d|
    ensures var r := InstructionAt(d, lt, e, Unbounded);
            r.err == Success ==> r.toks != [] && r.toks[0].kind == Instruction
                                 && Header(d, lt, "<?", r.toks[0], r.toks[1..], "?>", r.pos)
  {
    hide Scan, Attributes, Attributed, Name;
    var r := InstructionAt(d, lt, e, Unbounded);
    if r.err == Success {
      var space := Scan(d, lt + 2, e, AtNonName);
      var h := Token(Instruction, 0, lt + 2, space);
      AttributesMarks(d, space, e, h);
      NameMarked(d, lt + 2, e, h);
      SameName(d, h, r.toks[0]);
    }
  }

  lemma EndMarks(d: string, lt: nat, e: nat)
    requires lt + TAG_MINSIZE <= e <= |d|
    ensures var r := EndAt(d, lt, e, Unbounded);
            r.err == Success ==> EndMark(d, lt, r.toks, r.pos)
  {
    hide Scan, Name;
    var r := EndAt(d, lt, e, Unbounded);
    if r.err == Success {
      var gt := Scan(d, lt + 2, e, AtChar('>'));
      var space := Scan(d, lt + 2, gt, AtNonName);
      assert AtChar('>').Matches(d[gt]);
      assert forall i :: space <= i < gt ==> !AtNonSpace.Matches(d[i]);
      assert Spaces(d, space, gt) && Holds(d, gt, ">");
      EndNameMarked(d, lt + 2, gt, r.toks[0]);
    }
  }

  lemma EndNameMarked(d: string, start: nat, gt: nat, t: Token)
    requires start <= gt < |d| && d[gt] == '>' && t.startpos == start && t.endpos == Scan(d, start, gt, AtNonName)
    ensures Name(d, t)
  {
    assert forall i :: start <= i < t.endpos ==> !AtNonName.Matches(d[i]);
    if t.endpos < gt {
      assert AtNonName.Matches(d[t.endpos]);
    }
  }

  lemma DelimitedMarks(d: string, lt: nat, e: nat, open: string, close: string, mismatch: Err, kind: Kind)
    requires lt <= e <= |d| && close != "" && mismatch != Success
    ensures var r := Delimited(d, lt, e, open, close, mismatch, kind, Unbounded);
            r.err == Success ==> Enclosed(d, lt, open, r.toks, close, r.pos) && r.toks[0].kind == kind
  {
    hide FindStr;
    var r := Delimited(d, lt, e, open, close, mismatch, kind, Unbounded);
    if r.err == Success {
      var start, found := lt + |open|, r.toks[0].endpos;
      forall i | start <= i < found ensures !Holds(d, i, close) {
        assert !StartsWith(d, i, e, close);
      }
    }
  }

  lemma ConstructMarks(d: string, lt: nat, e: nat, inRoot: bool)
    requires lt + TAG_MINSIZE <= e <= |d|
    ensures var r := Construct(d, lt, e, inRoot, Unbounded);
            r.err == Success ==> r.toks != [] && r.toks[0].kind != Character && InMarkup(d, lt, inRoot, r.toks, r.pos)
  {
    hide StartAt, InstructionAt, EndAt, Delimited, StartMark, EndMark, Header, Enclosed;
    StartMarks(d, lt, e);
    InstructionMarks(d, lt, e);
    EndMarks(d, lt, e);
    DelimitedMarks(d, lt, e, "<!DOCTYPE", "]>", BufferDry, DocType);
    DelimitedMarks(d, lt, e, "<!--", "-->", XmlInvalid, Comment);
    DelimitedMarks(d, lt, e, "<![CDATA[", "]]>", XmlInvalid, CData);
    StartKind(d, lt, Construct(d, lt, e, inRoot, Unbounded).toks, Construct(d, lt, e, inRoot, Unbounded).pos);
    EndKind(d, lt, Construct(d, lt, e, inRoot, Unbounded).toks, Construct(d, lt, e, inRoot, Unbounded).pos);
    EnclosedOne(d, lt, Construct(d, lt, e, inRoot, Unbounded).toks, Construct(d, lt, e, inRoot, Unbounded).pos);
  }

  lemma StartKind(d: string, lt: nat, g: seq<Token>, to: nat)
    ensures g != [] && StartMark(d, lt, g, to) ==> g[0].kind == StartTag
  {
  }

  lemma EndKind(d: string, lt: nat, g: seq<Token>, to: nat)
    ensures EndMark(d, lt, g, to) ==> g != [] && g[0].kind == EndTag
  {
  }

  lemma EnclosedOne(d: string, lt: nat, g: seq<Token>, to: nat)
    ensures Enclosed(d, lt, "<!DOCTYPE", g, "]>", to) ==> g != []
    ensures Enclosed(d, lt, "<!--", g, "-->", to) ==> g != []
    ensures Enclosed(d, lt, "<![CDATA[", g, "]]>", to) ==> g != []
  {
  }

  // ---------- Steps and runs ----------

  /** What one step commits marks the document from where it started to where it ends. */
  lemma StepMarks(d: string, pos: nat, e: nat, level: int)
    requires pos <= e <= |d|
    ensures var s := Step(d, pos, e, level, Unbounded);
            s.err == Success ==> Marked(d, pos, level, s.toks, s.pos)
  {
    hide Scan, Construct, Characters, InMarkup, Tiles;
    var s := Step(d, pos, e, level, Unbounded);
    var lt := CommitPos(d, pos, e, level);
    if s.err == Success {
      if AtText(d, pos, e, level) {
        var end := Scan(d, pos, e, AtChar('<'));
        assert forall i :: pos <= i < end ==> !AtChar('<').Matches(d[i]);
        CharactersTile(d, pos, end, []);
        assert s.toks[0..] == s.toks;
        TilesSome(d, pos, s.toks, s.pos);
      } else {
        ConstructMarks(d, lt, e, level > 0);
        CommitSpaces(d, pos, e, level);
      }
    }
  }

  lemma TilesSome(d: string, a: nat, toks: seq<Token>, c: nat)
    requires Tiles(d, a, toks, c) && a < c
    ensures toks != [] && toks[0].kind == Character
  {
  }

  lemma CommitSpaces(d: string, pos: nat, e: nat, level: int)
    requires pos <= e <= |d|
    ensures Blank(d, pos, CommitPos(d, pos, e, level), level)
  {
    if level <= 0 {
      assert forall i :: pos <= i < CommitPos(d, pos, e, level) ==> !AtNonSpace.Matches(d[i]);
    }
  }

  lemma OneCovered(d: string, from: nat, level: int, g: seq<Token>, mid: nat, rest: seq<Token>, to: nat)
    requires Marked(d, from, level, g, mid) && Covered(d, mid, level + Balance(g), rest, to)
    ensures Covered(d, from, level, g + rest, to)
  {
    hide Marked, Balance;
    assert g != [] by { MarkedSome(d, from, level, g, mid); }
    assert (g + rest)[..|g|] == g && (g + rest)[|g|..] == rest;
  }

  lemma MarkedSome(d: string, from: nat, level: int, g: seq<Token>, mid: nat)
    requires Marked(d, from, level, g, mid)
    ensures g != []
  {
  }

  /** White space in front of the next construct belongs to neither. */
  lemma SkipCovered(d: string, from: nat, mid: nat, level: int, toks: seq<Token>, to: nat)
    requires Blank(d, from, mid, level) && Covered(d, mid, level, toks, to)
    ensures Covered(d, from, level, toks, to)
  {
    if toks != [] && level <= 0 {
      hide InMarkup, Balance, Tiles;
      var n: nat, next: nat :| 0 < n <= |toks| && Marked(d, mid, level, toks[..n], next)
                     && Covered(d, next, level + Balance(toks[..n]), toks[n..], to);
      assert Marked(d, from, level, toks[..n], next) by {
        var lt: nat :| Blank(d, mid, lt, level) && lt < next && InMarkup(d, lt, level > 0, toks[..n], next);
        assert Blank(d, from, lt, level);
      }
    }
  }

  lemma {:induction false} CoveredConcat(d: string, from: nat, level: int, x: seq<Token>, mid: nat, y: seq<Token>,
                                         to: nat)
    requires Covered(d, from, level, x, mid) && Covered(d, mid, level + Balance(x), y, to)
    ensures Covered(d, from, level, x + y, to)
    decreases |x|
  {
    hide Marked, Balance, Blank;
    if x == [] {
      assert x + y == y;
      assert Balance(x) == 0 by { NoBalance(); }
      SkipCovered(d, from, mid, level, y, to);
    } else {
      var n: nat, next: nat :| 0 < n <= |x| && Marked(d, from, level, x[..n], next)
                     && Covered(d, next, level + Balance(x[..n]), x[n..], mid);
      assert x == x[..n] + x[n..];
      BalanceConcat(x[..n], x[n..]);
      CoveredConcat(d, next, level + Balance(x[..n]), x[n..], mid, y, to);
      OneCovered(d, from, level, x[..n], next, x[n..] + y, to);
      assert x[..n] + (x[n..] + y) == x + y;
    }
  }

  lemma NoBalance()
    ensures Balance([]) == 0
  {
  }

  /** What a call commits marks the document from where it started to where it is committed. */
  lemma {:induction false} RunMarks(d: string, pos: nat, e: nat, level: int, n: nat)
    requires pos <= e <= |d|
    ensures var o := Parse(d, pos, e, level, n, Unbounded); Covered(d, pos, level, o.toks, o.pos)
    decreases e - pos
  {
    hide Step, Balance, Marked, Blank, CommitPos, AtText;
    var s := Step(d, pos, e, level, Unbounded);
    if s.err != Success {
      CommitSpaces(d, pos, e, level);
    } else {
      StepMarks(d, pos, e, level);
      var l := level + Balance(s.toks);
      if Finishes(level, s.toks) {
        HereCovered(d, s.pos, l);
        OneCovered(d, pos, level, s.toks, s.pos, [], s.pos);
        assert s.toks + [] == s.toks;
      } else {
        RunMarks(d, s.pos, e, l, n + |s.toks|);
        var o := Parse(d, s.pos, e, l, n + |s.toks|, Unbounded);
        OneCovered(d, pos, level, s.toks, s.pos, o.toks, o.pos);
      }
    }
  }

  lemma HereCovered(d: string, pos: nat, level: int)
    requires pos <= |d|
    ensures Covered(d, pos, level, [], pos)
  {
  }

  // ---------- Character data ----------

  lemma DataLast(d: string, x: seq<Token>, t: Token)
    ensures Data(d, x + [t]) == Data(d, x) + Data(d, [t])
  {
    assert (x + [t])[..|x|] == x && [t][..0] == [];
  }

  lemma {:induction false} DataConcat(d: string, x: seq<Token>, y: seq<Token>)
    ensures Data(d, x + y) == Data(d, x) + Data(d, y)
  {
    hide Data;
    if y == [] {
      assert x + y == x;
      assert Data(d, y) == "" by { NoData(d); }
    } else {
      var n := |y| - 1;
      assert x + y == (x + y[..n]) + [y[n]] && y == y[..n] + [y[n]];
      DataLast(d, x + y[..n], y[n]);
      DataLast(d, y[..n], y[n]);
      DataConcat(d, x, y[..n]);
    }
  }

  lemma NoData(d: string)
    ensures Data(d, []) == ""
  {
  }

  lemma {:induction false} TilesData(d: string, a: nat, toks: seq<Token>, c: nat)
    requires Tiles(d, a, toks, c) && a <= |d|
    ensures a <= c <= |d| && Data(d, toks) == d[a..c]
    decreases |toks|
  {
    if toks != [] {
      var t := toks[0];
      assert toks == [t] + toks[1..] && [t][..0] == [];
      DataConcat(d, [t], toks[1..]);
      TilesData(d, t.endpos, toks[1..], c);
      assert d[a..c] == d[a..t.endpos] + d[t.endpos..c];
    }
  }
}
