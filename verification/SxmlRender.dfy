/** Every document that is written in the form below is accepted to its end: a prolog of instructions and document
    types with a subset, and a root element with content. */
module SxmlRender {
  import opened SxmlText
  import opened SxmlGrammar
  import opened SxmlRuns
  import opened SxmlRefill
  import opened SxmlMarks
  import opened Texts
  import Table = SxmlTable
  import SxmlContent

  /** Plain text and the reference behind it. */
  datatype Ref = Ref(plain: string, entity: string)

  /** Text with references, and the plain text behind the last of them. */
  datatype Written = Written(refs: seq<Ref>, last: string)

  /** name = "value" with white space around the equals sign and behind the value. */
  datatype Attr = Attr(name: string, lead: string, trail: string, quote: char, value: Written, gap: string)

  datatype Markup =
    | Instruct(name: string, gap: string, attrs: seq<Attr>)
    | Remark(text: string)
    | Section(text: string)
    | Empty(name: string, gap: string, attrs: seq<Attr>)
    | Element(name: string, gap: string, attrs: seq<Attr>, content: Content, end: string)

  /** Text, and as often as needed markup and text behind it. */
  datatype Content = Last(text: Written) | More(text: Written, item: Markup, rest: Content)

  /** White space and an instruction, or the inside of a document type. */
  datatype Prolog =
    | Declared(lead: string, name: string, gap: string, attrs: seq<Attr>)
    | Typed(lead: string, text: string)

  // ---------- What is well formed ----------

  predicate Blanks(s: string) {
    forall i :: 0 <= i < |s| ==> WhiteSpace(s[i])
  }

  /** Neither the character that ends the text nor an ampersand. */
  predicate PlainText(s: string, stop: char) {
    forall i :: 0 <= i < |s| ==> s[i] != stop && s[i] != '&'
  }

  /** From an ampersand to the first semicolon, at most eight characters. */
  predicate Entity(s: string, stop: char) {
    && 2 <= |s| <= 8 && s[0] == '&' && s[|s| - 1] == ';'
    && forall i :: 0 <= i < |s| ==> s[i] != stop && (s[i] == ';' ==> i == |s| - 1)
  }

  predicate ProperText(w: Written, stop: char) {
    PlainText(w.last, stop) && forall r :: r in w.refs ==> PlainText(r.plain, stop) && Entity(r.entity, stop)
  }

  predicate NameText(s: string) {
    s != "" && NameStartChar(s[0]) && forall i :: 0 <= i < |s| ==> NameChar(s[i])
  }

  predicate ProperAttr(a: Attr) {
    && NameText(a.name) && Blanks(a.lead) && Blanks(a.trail) && Blanks(a.gap)
    && (a.quote == '\'' || a.quote == '"') && ProperText(a.value, a.quote)
  }

  /** White space separates the name from the attributes. */
  predicate ProperHead(name: string, gap: string, attrs: seq<Attr>) {
    && NameText(name) && Blanks(gap) && (attrs != [] ==> gap != "") && forall a :: a in attrs ==> ProperAttr(a)
  }

  /** The closing string stands nowhere before the end. */
  predicate EndsFirst(text: string, close: string) {
    forall i :: 0 <= i < |text| ==> !Holds(text + close, i, close)
  }

  predicate ProperMarkup(m: Markup)
    decreases m
  {
    match m
    case Instruct(name, gap, attrs) => ProperHead(name, gap, attrs)
    case Remark(text) => EndsFirst(text, "-->")
    case Section(text) => EndsFirst(text, "]]>")
    case Empty(name, gap, attrs) => ProperHead(name, gap, attrs)
    case Element(name, gap, attrs, content, end) =>
      ProperHead(name, gap, attrs) && ProperContent(content) && Blanks(end)
  }

  predicate ProperContent(c: Content)
    decreases c
  {
    ProperText(c.text, '<') && (c.More? ==> ProperMarkup(c.item) && ProperContent(c.rest))
  }

  predicate ProperProlog(p: Prolog) {
    Blanks(p.lead) && if p.Declared? then ProperHead(p.name, p.gap, p.attrs) else EndsFirst(p.text, "]>")
  }

  // ---------- How it is written ----------

  function RefsText(refs: seq<Ref>, last: string): string {
    if refs == [] then last else refs[0].plain + (refs[0].entity + RefsText(refs[1..], last))
  }

  function TextOf(w: Written): string {
    RefsText(w.refs, w.last)
  }

  function QuotedText(a: Attr, rest: string): string {
    [a.quote] + (TextOf(a.value) + ([a.quote] + (a.gap + rest)))
  }

  function AttrsText(attrs: seq<Attr>): string {
    if attrs == [] then ""
    else
      var a := attrs[0];
      a.name + (a.lead + ("=" + (a.trail + QuotedText(a, AttrsText(attrs[1..])))))
  }

  function Head(name: string, gap: string, attrs: seq<Attr>, rest: string): string {
    name + (gap + (AttrsText(attrs) + rest))
  }

  function MarkupText(m: Markup): string
    decreases m
  {
    match m
    case Instruct(name, gap, attrs) => "<?" + Head(name, gap, attrs, "?>")
    case Remark(text) => "<!--" + (text + "-->")
    case Section(text) => "<![CDATA[" + (text + "]]>")
    case Empty(name, gap, attrs) => "<" + Head(name, gap, attrs, "/>")
    case Element(name, gap, attrs, content, end) =>
      ("<" + Head(name, gap, attrs, ">")) + (ContentText(content) + ("</" + (name + (end + ">"))))
  }

  function ContentText(c: Content): string
    decreases c
  {
    TextOf(c.text) + if c.Last? then "" else MarkupText(c.item) + ContentText(c.rest)
  }

  function PrologItem(p: Prolog): string {
    if p.Declared? then "<?" + Head(p.name, p.gap, p.attrs, "?>") else "<!DOCTYPE" + (p.text + "]>")
  }

  function PrologText(ps: seq<Prolog>): string {
    if ps == [] then "" else ps[0].lead + (PrologItem(ps[0]) + PrologText(ps[1..]))
  }

  // ---------- Text ----------

  /** Where a search ends. */
  lemma ScanTo(d: string, s: nat, q: nat, e: nat, stop: Stop)
    requires s <= q <= e <= |d| && (forall i :: s <= i < q ==> !stop.Matches(d[i])) && (q < e ==> stop.Matches(d[q]))
    ensures Scan(d, s, e, stop) == q
  {
    hide Scan;
  }

  lemma BlanksTo(d: string, s: nat, q: nat, e: nat, text: string)
    requires Holds(d, s, text) && Blanks(text) && q == s + |text| < e <= |d| && !WhiteSpace(d[q])
    ensures Scan(d, s, e, AtNonSpace) == q
  {
    HoldsEach(d, s, text);
    ScanTo(d, s, q, e, AtNonSpace);
  }

  lemma EntityEnds(d: string, ampr: nat, entity: string, stop: char, end: nat)
    requires Holds(d, ampr, entity) && Entity(entity, stop) && ampr + |entity| <= end <= |d|
    ensures var far := Min(ampr + ENTITY_MAXLEN, end);
            ampr < end && d[ampr] == '&' && Scan(d, ampr, far, AtChar(';')) + 1 == ampr + |entity| <= far
  {
    HoldsEach(d, ampr, entity);
    ScanTo(d, ampr, ampr + |entity| - 1, Min(ampr + ENTITY_MAXLEN, end), AtChar(';'));
  }

  lemma CharactersRef(d: string, pos: nat, end: nat, toks: seq<Token>, r: Ref, stop: char)
    requires Holds(d, pos, r.plain) && Holds(d, pos + |r.plain|, r.entity) && PlainText(r.plain, stop)
    requires Entity(r.entity, stop) && pos + |r.plain| + |r.entity| <= end <= |d|
    ensures var c := Characters(d, pos, end, toks, Unbounded);
            c.err == Success && c.pos == pos + |r.plain| + |r.entity|
  {
    hide Scan, Entity;
    var ampr := pos + |r.plain|;
    HoldsEach(d, pos, r.plain);
    EntityEnds(d, ampr, r.entity, stop, end);
    ScanTo(d, pos, ampr, end, AtChar('&'));
  }

  lemma CharactersLast(d: string, pos: nat, end: nat, toks: seq<Token>, s: string, stop: char)
    requires Holds(d, pos, s) && PlainText(s, stop) && end == pos + |s|
    ensures end <= |d|
    ensures var c := Characters(d, pos, end, toks, Unbounded); c.err == Success && c.pos == end
  {
    hide Scan;
    HoldsEach(d, pos, s);
    ScanTo(d, pos, end, end, AtChar('&'));
  }

  ghost predicate ProperRefs(refs: seq<Ref>, stop: char) {
    forall r :: r in refs ==> PlainText(r.plain, stop) && Entity(r.entity, stop)
  }

  lemma RefsRest(refs: seq<Ref>, stop: char)
    requires refs != [] && ProperRefs(refs, stop)
    ensures PlainText(refs[0].plain, stop) && Entity(refs[0].entity, stop) && ProperRefs(refs[1..], stop)
  {
    assert refs[0] in refs;
  }

  lemma RefsHold(d: string, pos: nat, refs: seq<Ref>, last: string)
    requires refs != [] && Holds(d, pos, RefsText(refs, last))
    ensures var r := refs[0];
            var next := pos + |r.plain| + |r.entity|;
            && Holds(d, pos, r.plain) && Holds(d, pos + |r.plain|, r.entity)
            && Holds(d, next, RefsText(refs[1..], last))
            && next + |RefsText(refs[1..], last)| == pos + |RefsText(refs, last)|
  {
    hide Holds;
    var r := refs[0];
    var rest := RefsText(refs[1..], last);
    HoldsBoth(d, pos, r.plain, r.entity + rest);
    HoldsBoth(d, pos + |r.plain|, r.entity, rest);
  }

  /** Written text holds no character that ends it. */
  lemma {:induction false} NoStop(d: string, pos: nat, refs: seq<Ref>, last: string, stop: char)
    requires Holds(d, pos, RefsText(refs, last)) && ProperRefs(refs, stop) && PlainText(last, stop)
    ensures forall i :: pos <= i < pos + |RefsText(refs, last)| ==> d[i] != stop
    decreases |refs|
  {
    hide ProperRefs, Holds;
    if refs == [] {
      HoldsEach(d, pos, last);
    } else {
      var r := refs[0];
      RefsHold(d, pos, refs, last);
      RefsRest(refs, stop);
      NoStop(d, pos + |r.plain| + |r.entity|, refs[1..], last, stop);
      HoldsEach(d, pos, r.plain);
      HoldsEach(d, pos + |r.plain|, r.entity);
    }
  }

  lemma {:induction false} ValueAccepted(d: string, pos: nat, end: nat, refs: seq<Ref>, last: string, stop: char,
                                         toks: seq<Token>)
    requires Holds(d, pos, RefsText(refs, last)) && end == pos + |RefsText(refs, last)|
    requires ProperRefs(refs, stop) && PlainText(last, stop)
    ensures end <= |d| && AttrValue(d, pos, end, toks, Unbounded).err == Success
    decreases |refs|
  {
    hide Characters, ProperRefs, PlainText, Entity, Holds;
    HoldsInside(d, pos, RefsText(refs, last));
    if refs == [] {
      if pos < end {
        CharactersLast(d, pos, end, toks, last, stop);
      }
    } else {
      var r := refs[0];
      RefsHold(d, pos, refs, last);
      RefsRest(refs, stop);
      HoldsInside(d, pos + |r.plain| + |r.entity|, RefsText(refs[1..], last));
      CharactersRef(d, pos, end, toks, r, stop);
      EntitySome(r.entity, stop);
      var c := Characters(d, pos, end, toks, Unbounded);
      ValueAccepted(d, c.pos, end, refs[1..], last, stop, c.toks);
    }
  }

  lemma EntitySome(s: string, stop: char)
    requires Entity(s, stop)
    ensures s != ""
  {
  }

  // ---------- Attributes ----------

  /** How an attribute is laid out: its name and the equals sign, its value between quotes, and what stands behind. */
  lemma AttrHolds(d: string, pos: nat, attrs: seq<Attr>)
    requires attrs != [] && Holds(d, pos, AttrsText(attrs))
    ensures var a := attrs[0];
            var eq := pos + |a.name| + |a.lead|;
            var quot := eq + 1 + |a.trail|;
            && Holds(d, pos, a.name) && Holds(d, pos + |a.name|, a.lead) && Holds(d, eq, "=")
            && Holds(d, eq + 1, a.trail) && Holds(d, quot, QuotedText(a, AttrsText(attrs[1..])))
            && quot + |QuotedText(a, AttrsText(attrs[1..]))| == pos + |AttrsText(attrs)|
  {
    hide Holds, QuotedText;
    var a := attrs[0];
    var rest := QuotedText(a, AttrsText(attrs[1..]));
    assert AttrsText(attrs) == a.name + (a.lead + ("=" + (a.trail + rest)));
    hide AttrsText;
    HoldsTwo(d, pos, a.name, a.lead, "=" + (a.trail + rest));
    HoldsTwo(d, pos + |a.name| + |a.lead|, "=", a.trail, rest);
  }

  lemma QuotedHolds(d: string, quot: nat, a: Attr, rest: string)
    requires Holds(d, quot, QuotedText(a, rest))
    ensures var close := quot + 1 + |TextOf(a.value)|;
            var next := close + 1 + |a.gap|;
            && Holds(d, quot, [a.quote]) && Holds(d, quot + 1, TextOf(a.value)) && Holds(d, close, [a.quote])
            && Holds(d, close + 1, a.gap) && Holds(d, next, rest) && next + |rest| == quot + |QuotedText(a, rest)|
  {
    hide Holds, RefsText;
    var close := quot + 1 + |TextOf(a.value)|;
    HoldsBoth(d, quot, [a.quote], TextOf(a.value) + ([a.quote] + (a.gap + rest)));
    HoldsBoth(d, quot + 1, TextOf(a.value), [a.quote] + (a.gap + rest));
    HoldsBoth(d, close, [a.quote], a.gap + rest);
    HoldsBoth(d, close + 1, a.gap, rest);
  }

  lemma NameStarts(d: string, pos: nat, name: string)
    requires Holds(d, pos, name) && NameText(name)
    ensures pos < |d| && NameStartChar(d[pos]) && !WhiteSpace(d[pos])
  {
    HoldsHere(d, pos, name);
  }

  /** No equals sign, and no white space at the end. */
  lemma NameTo(d: string, pos: nat, name: string, lead: string, e: nat)
    requires Holds(d, pos, name) && NameText(name) && Holds(d, pos + |name|, lead) && Blanks(lead)
    requires pos + |name| + |lead| < e <= |d| && d[pos + |name| + |lead|] == '='
    ensures Scan(d, pos, e, AtChar('=')) == pos + |name| + |lead|
  {
    HoldsEach(d, pos, name);
    HoldsEach(d, pos + |name|, lead);
    ScanTo(d, pos, pos + |name| + |lead|, e, AtChar('='));
  }

  lemma QuotedAccepted(d: string, quot: nat, a: Attr, rest: string, e: nat, toks: seq<Token>)
    requires Holds(d, quot, QuotedText(a, rest)) && ProperAttr(a)
    requires quot + |QuotedText(a, rest)| - |rest| < e <= |d|
    requires !WhiteSpace(d[quot + |QuotedText(a, rest)| - |rest|])
    ensures !WhiteSpace(d[quot])
    ensures var r := AttrQuoted(d, quot, e, toks, Unbounded);
            r.err == Success && r.pos == quot + |QuotedText(a, rest)| - |rest|
  {
    hide Scan, AttrValue, Holds, NameText, Blanks, RefsText, PlainText, Entity, QuotedText;
    var close := quot + 1 + |TextOf(a.value)|;
    QuotedHolds(d, quot, a, rest);
    HoldsHere(d, quot, [a.quote]);
    HoldsHere(d, close, [a.quote]);
    QuoteTo(d, quot + 1, a.value, a.quote, e);
    ValueAccepted(d, quot + 1, close, a.value.refs, a.value.last, a.quote, toks);
    BlanksTo(d, close + 1, close + 1 + |a.gap|, e, a.gap);
  }

  /** One attribute is read up to where the next one or the closing string stands. */
  lemma AttrAccepted(d: string, pos: nat, attrs: seq<Attr>, e: nat, toks: seq<Token>)
    requires attrs != [] && Holds(d, pos, AttrsText(attrs)) && ProperAttr(attrs[0])
    requires var next := pos + |AttrsText(attrs)| - |AttrsText(attrs[1..])|; next < e <= |d| && !WhiteSpace(d[next])
    ensures pos < e && NameStartChar(d[pos])
    ensures var r := AttrOne(d, pos, e, toks, Unbounded);
            r.err == Success && r.pos == pos + |AttrsText(attrs)| - |AttrsText(attrs[1..])|
    ensures Holds(d, pos + |AttrsText(attrs)| - |AttrsText(attrs[1..])|, AttrsText(attrs[1..]))
  {
    hide Scan, RTrim, AttrQuoted, Holds, NameText, Blanks, AttrsText, QuotedText, ProperText;
    var a, rest := attrs[0], AttrsText(attrs[1..]);
    var eq := pos + |a.name| + |a.lead|;
    var quot := eq + 1 + |a.trail|;
    AttrHolds(d, pos, attrs);
    NameStarts(d, pos, a.name);
    HoldsHere(d, eq, "=");
    QuotedSome(a, rest);
    QuotedHolds(d, quot, a, rest);
    QuotedAccepted(d, quot, a, rest, e, toks + [Token(CData, 0, pos, RTrim(d, pos, eq))]);
    NameTo(d, pos, a.name, a.lead, e);
    BlanksTo(d, eq + 1, quot, e, a.trail);
  }

  lemma QuotedSome(a: Attr, rest: string)
    ensures |QuotedText(a, rest)| > |rest|
  {
  }

  lemma QuoteTo(d: string, pos: nat, w: Written, quote: char, e: nat)
    requires Holds(d, pos, TextOf(w)) && ProperText(w, quote)
    requires pos + |TextOf(w)| < e <= |d| && d[pos + |TextOf(w)|] == quote
    ensures Scan(d, pos, e, AtChar(quote)) == pos + |TextOf(w)|
  {
    NoStop(d, pos, w.refs, w.last, quote);
    ScanTo(d, pos, pos + |TextOf(w)|, e, AtChar(quote));
  }

  ghost predicate ProperAttrs(attrs: seq<Attr>) {
    forall a :: a in attrs ==> ProperAttr(a)
  }

  lemma AttrsRest(attrs: seq<Attr>)
    requires attrs != [] && ProperAttrs(attrs)
    ensures ProperAttr(attrs[0]) && ProperAttrs(attrs[1..])
  {
    assert attrs[0] in attrs;
  }

  /** A character that neither belongs to a name nor is white space. */
  predicate Closes(c: char) {
    !NameChar(c) && !WhiteSpace(c)
  }

  /** Where the attributes start, or what stands behind them. */
  lemma AttrsFirst(d: string, pos: nat, attrs: seq<Attr>)
    requires Holds(d, pos, AttrsText(attrs)) && ProperAttrs(attrs)
    requires pos + |AttrsText(attrs)| < |d| && Closes(d[pos + |AttrsText(attrs)|])
    ensures pos < |d| && !WhiteSpace(d[pos]) && (attrs == [] ==> Closes(d[pos]))
  {
    hide Holds;
    if attrs != [] {
      AttrHolds(d, pos, attrs);
      AttrsRest(attrs);
      NameStarts(d, pos, attrs[0].name);
    }
  }

  lemma {:induction false} AttrsAccepted(d: string, pos: nat, attrs: seq<Attr>, e: nat, toks: seq<Token>)
    requires Holds(d, pos, AttrsText(attrs)) && ProperAttrs(attrs)
    requires pos + |AttrsText(attrs)| < e == |d| && Closes(d[pos + |AttrsText(attrs)|])
    ensures var r := AttrLoop(d, pos, e, toks, Unbounded); r.err == Success && r.pos == pos + |AttrsText(attrs)|
    decreases |attrs|
  {
    hide AttrOne, Holds, ProperAttr, ProperAttrs;
    if attrs != [] {
      var next := pos + |AttrsText(attrs)| - |AttrsText(attrs[1..])|;
      AttrHolds(d, pos, attrs);
      QuotedHolds(d, next - |QuotedText(attrs[0], "")|, attrs[0], AttrsText(attrs[1..]));
      AttrsRest(attrs);
      AttrsFirst(d, next, attrs[1..]);
      AttrAccepted(d, pos, attrs, e, toks);
      AttrsAccepted(d, next, attrs[1..], e, AttrOne(d, pos, e, toks, Unbounded).toks);
    } else {
      NoName(d[pos]);
    }
  }

  lemma NoName(c: char)
    requires Closes(c)
    ensures !NameStartChar(c)
  {
  }

  // ---------- Tags and instructions ----------

  /** A name, white space, attributes and what stands behind them. */
  predicate HeadParts(d: string, pos: nat, name: string, gap: string, attrs: seq<Attr>, close: string) {
    && Holds(d, pos, name) && Holds(d, pos + |name|, gap) && Holds(d, pos + |name| + |gap|, AttrsText(attrs))
    && Holds(d, pos + |name| + |gap| + |AttrsText(attrs)|, close)
  }

  lemma HeadHolds(d: string, pos: nat, name: string, gap: string, attrs: seq<Attr>, close: string)
    requires Holds(d, pos, Head(name, gap, attrs, close))
    ensures HeadParts(d, pos, name, gap, attrs, close)
    ensures |Head(name, gap, attrs, close)| == |name| + |gap| + |AttrsText(attrs)| + |close|
  {
    hide Holds, AttrsText;
    HoldsBoth(d, pos, name, gap + (AttrsText(attrs) + close));
    HoldsBoth(d, pos + |name|, gap, AttrsText(attrs) + close);
    HoldsBoth(d, pos + |name| + |gap|, AttrsText(attrs), close);
  }

  /** Where the name ends. */
  lemma NameEnds(d: string, pos: nat, name: string, gap: string, attrs: seq<Attr>, close: string)
    requires HeadParts(d, pos, name, gap, attrs, close) && ProperHead(name, gap, attrs)
    requires close != "" && Closes(close[0])
    ensures pos + |name| < |d| && Scan(d, pos, |d|, AtNonName) == pos + |name|
  {
    hide Holds, AttrsText;
    HoldsEach(d, pos, name);
    HoldsInside(d, pos, name);
    if gap != "" {
      HoldsHere(d, pos + |name|, gap);
    } else {
      NoAttrs();
      HoldsHere(d, pos + |name|, close);
    }
    ScanTo(d, pos, pos + |name|, |d|, AtNonName);
  }

  lemma NoAttrs()
    ensures AttrsText([]) == ""
  {
  }

  lemma AttributesAccepted(d: string, pos: nat, name: string, gap: string, attrs: seq<Attr>, close: string, h: Token)
    requires HeadParts(d, pos, name, gap, attrs, close) && ProperHead(name, gap, attrs)
    requires close != "" && Closes(close[0])
    ensures pos + |name| <= |d|
    ensures var r := Attributes(d, pos + |name|, |d|, [h], Unbounded);
            r.err == Success && r.pos == pos + |name| + |gap| + |AttrsText(attrs)|
  {
    hide Holds, AttrsText, AttrLoop, Scan, ProperAttr, Closes;
    var at := pos + |name| + |gap|;
    HoldsHere(d, at + |AttrsText(attrs)|, close);
    AttrsFirst(d, at, attrs);
    BlanksTo(d, pos + |name|, at, |d|, gap);
    AttrsAccepted(d, at, attrs, |d|, [h]);
  }

  /** A start tag opens one element, and one that is closed at once opens none. */
  lemma StartAccepted(d: string, lt: nat, name: string, gap: string, attrs: seq<Attr>, close: string)
    requires Holds(d, lt, "<" + Head(name, gap, attrs, close)) && ProperHead(name, gap, attrs)
    requires close == ">" || close == "/>"
    ensures d[lt] == '<' && lt + TAG_MINSIZE <= |d| && NameStartChar(d[lt + 1])
    ensures var r := StartAt(d, lt, |d|, Unbounded);
            && r.err == Success && r.pos == lt + 1 + |Head(name, gap, attrs, close)|
            && Balance(r.toks) == if close == ">" then 1 else 0
  {
    hide Holds, AttrsText, Attributes, Scan, ProperHead, Balance, Head, HeadParts;
    var space := lt + 1 + |name|;
    var h := Token(StartTag, 0, lt + 1, space);
    HoldsHere(d, lt, "<" + Head(name, gap, attrs, close));
    HoldsBoth(d, lt, "<", Head(name, gap, attrs, close));
    HeadHolds(d, lt + 1, name, gap, attrs, close);
    HeadStarts(d, lt + 1, name, gap, attrs, close);
    NameEnds(d, lt + 1, name, gap, attrs, close);
    AttributesAccepted(d, lt + 1, name, gap, attrs, close, h);
    Table.StartOpens(d, space, |d|, h, Unbounded);
    ClosedBalance(Attributes(d, space, |d|, [h], Unbounded).toks, Token(EndTag, 0, lt + 1, space));
  }

  lemma HeadStarts(d: string, pos: nat, name: string, gap: string, attrs: seq<Attr>, close: string)
    requires HeadParts(d, pos, name, gap, attrs, close) && ProperHead(name, gap, attrs) && close != ""
    ensures var q := pos + |name| + |gap| + |AttrsText(attrs)|;
            && pos < q && q + |close| <= |d| && NameStartChar(d[pos]) && d[q] == close[0]
            && (|close| > 1 ==> d[q + 1] == close[1])
  {
    HoldsHere(d, pos, name);
    HoldsEach(d, pos + |name| + |gap| + |AttrsText(attrs)|, close);
  }

  lemma ClosedBalance(toks: seq<Token>, t: Token)
    requires t.kind == EndTag
    ensures Balance(toks + [t]) == Balance(toks) - 1
  {
    assert (toks + [t])[..|toks|] == toks;
  }

  lemma InstructionAccepted(d: string, lt: nat, name: string, gap: string, attrs: seq<Attr>)
    requires Holds(d, lt, "<?" + Head(name, gap, attrs, "?>")) && ProperHead(name, gap, attrs)
    ensures d[lt] == '<' && lt + TAG_MINSIZE <= |d| && d[lt + 1] == '?'
    ensures var r := InstructionAt(d, lt, |d|, Unbounded);
            r.err == Success && r.pos == lt + 2 + |Head(name, gap, attrs, "?>")| && Balance(r.toks) == 0
  {
    hide Holds, AttrsText, Attributes, Scan, ProperHead, Balance, Head, HeadParts;
    var space := lt + 2 + |name|;
    var h := Token(Instruction, 0, lt + 2, space);
    HoldsBoth(d, lt, "<?", Head(name, gap, attrs, "?>"));
    HoldsEach(d, lt, "<?");
    HeadHolds(d, lt + 2, name, gap, attrs, "?>");
    HeadStarts(d, lt + 2, name, gap, attrs, "?>");
    NameEnds(d, lt + 2, name, gap, attrs, "?>");
    AttributesAccepted(d, lt + 2, name, gap, attrs, "?>", h);
    InstructionBalance(d, space, h);
  }

  lemma InstructionBalance(d: string, pos: nat, h: Token)
    requires pos <= |d| && h.kind == Instruction && h.size == 0 && h.startpos <= h.endpos <= |d|
    ensures var r := Attributes(d, pos, |d|, [h], Unbounded); r.err == Success ==> Balance(r.toks) == 0
  {
    hide Attributes;
    Table.AttributesPlain(d, pos, |d|, h, Unbounded);
    var r := Attributes(d, pos, |d|, [h], Unbounded);
    if r.err == Success {
      assert r.toks == [r.toks[0]] + r.toks[1..] + [] && r.toks[..|r.toks|] == r.toks;
      Table.HeaderPrefix(r.toks[0], r.toks[1..], [], |d|, |r.toks|);
    }
  }

  lemma EndAccepted(d: string, lt: nat, name: string, end: string)
    requires Holds(d, lt, "</" + (name + (end + ">"))) && NameText(name) && Blanks(end)
    ensures lt + TAG_MINSIZE <= |d| && d[lt] == '<' && d[lt + 1] == '/'
    ensures var r := EndAt(d, lt, |d|, Unbounded);
            r.err == Success && r.pos == lt + 3 + |name| + |end| && Balance(r.toks) == -1
  {
    hide Holds, Scan;
    var start := lt + 2;
    var gt := start + |name| + |end|;
    HoldsBoth(d, lt, "</", name + (end + ">"));
    HoldsBoth(d, start, name, end + ">");
    HoldsBoth(d, start + |name|, end, ">");
    HoldsEach(d, lt, "</");
    HoldsHere(d, gt, ">");
    HoldsHere(d, start, name);
    EndNameEnds(d, start, name, end, gt);
    var r := EndAt(d, lt, |d|, Unbounded);
    assert [r.toks[0]][..0] == [];
  }

  lemma EndNameEnds(d: string, start: nat, name: string, end: string, gt: nat)
    requires Holds(d, start, name) && Holds(d, start + |name|, end) && NameText(name) && Blanks(end)
    requires gt == start + |name| + |end| < |d| && d[gt] == '>'
    ensures Scan(d, start, |d|, AtChar('>')) == gt && Scan(d, start, gt, AtNonName) == start + |name|
    ensures Scan(d, start + |name|, gt, AtNonSpace) == gt
  {
    HoldsEach(d, start, name);
    HoldsEach(d, start + |name|, end);
    ScanTo(d, start, gt, |d|, AtChar('>'));
    ScanTo(d, start, start + |name|, gt, AtNonName);
    ScanTo(d, start + |name|, gt, gt, AtNonSpace);
  }

  lemma DelimitedAccepted(d: string, lt: nat, open: string, text: string, close: string, mismatch: Err, kind: Kind)
    requires Holds(d, lt, open + (text + close)) && close != "" && EndsFirst(text, close) && mismatch != Success
    requires kind != StartTag && kind != EndTag
    ensures lt + |open| <= |d|
    ensures var r := Delimited(d, lt, |d|, open, close, mismatch, kind, Unbounded);
            r.err == Success && r.pos == lt + |open| + |text| + |close| && Balance(r.toks) == 0
  {
    hide FindStr;
    var start := lt + |open|;
    HoldsBoth(d, lt, open, text + close);
    HoldsBoth(d, start, text, close);
    FoundAt(d, start, text, close);
    var r := Delimited(d, lt, |d|, open, close, mismatch, kind, Unbounded);
    assert [r.toks[0]][..0] == [];
  }

  lemma FoundAt(d: string, start: nat, text: string, close: string)
    requires Holds(d, start, text + close) && Holds(d, start + |text|, close) && close != "" && EndsFirst(text, close)
    ensures start + |text| < |d| && FindStr(d, start, |d|, close) == start + |text|
  {
    hide FindStr;
    var q := FindStr(d, start, |d|, close);
    assert StartsWith(d, start + |text|, |d|, close);
    if q < start + |text| {
      var i := q - start;
      assert Holds(text + close, i, close) by {
        assert q + |close| <= start + |text + close| by { FoundInside(d, start, text, close, q); }
        assert (text + close)[i..i + |close|] == d[start..start + |text + close|][i..i + |close|] == d[q..q + |close|];
      }
    }
  }

  lemma FoundInside(d: string, start: nat, text: string, close: string, q: nat)
    requires start <= q < start + |text|
    ensures q + |close| <= start + |text + close|
  {
  }

  // ---------- Steps ----------

  /** From one place on the run ends as from the other. */
  ghost predicate Leads(d: string, pos: nat, level: int, pos': nat, level': int) {
    && pos <= |d| && pos' <= |d|
    && var r, r' := Reference(d, pos, level), Reference(d, pos', level');
       r.err == r'.err && r.pos == r'.pos && r.level == r'.level
  }

  lemma StepLeads(d: string, pos: nat, level: int)
    requires pos <= |d|
    ensures var s := Step(d, pos, |d|, level, Unbounded);
            s.err == Success && !Finishes(level, s.toks) ==> Leads(d, pos, level, s.pos, level + Balance(s.toks))
  {
    hide Step;
    var s := Step(d, pos, |d|, level, Unbounded);
    if s.err == Success && !Finishes(level, s.toks) {
      CountIrrelevant(d, s.pos, |d|, level + Balance(s.toks), |s.toks|);
    }
  }

  /** At a '<' the step reads markup, before the root element with white space in front of it. */
  lemma StepAt(d: string, pos: nat, lead: string, level: int)
    requires Holds(d, pos, lead) && Blanks(lead) && pos + |lead| + TAG_MINSIZE <= |d| && d[pos + |lead|] == '<'
    requires level > 0 ==> lead == ""
    ensures Step(d, pos, |d|, level, Unbounded) == Construct(d, pos + |lead|, |d|, level > 0, Unbounded)
  {
    hide Construct, Characters, Holds;
    if level > 0 {
      ScanTo(d, pos, pos, |d|, AtChar('<'));
    } else {
      BlanksTo(d, pos, pos + |lead|, |d|, lead);
    }
  }

  lemma NoLead(d: string, pos: nat)
    requires pos <= |d|
    ensures Holds(d, pos, "") && Blanks("")
  {
  }

  // ---------- Content ----------

  lemma TextStep(d: string, pos: nat, end: nat, level: int)
    requires level > 0 && pos < end < |d| && d[end] == '<' && forall i :: pos <= i < end ==> d[i] != '<'
    requires Characters(d, pos, end, [], Unbounded).err == Success
    ensures Leads(d, pos, level, Characters(d, pos, end, [], Unbounded).pos, level)
  {
    hide Characters, Construct, Balance, Leads;
    ScanTo(d, pos, end, |d|, AtChar('<'));
    SameStep(d, pos, end, level);
    StepLeads(d, pos, level);
    SxmlContent.FirstToken(d, pos, |d|, level);
  }

  lemma SameStep(d: string, pos: nat, end: nat, level: int)
    requires level > 0 && pos < end <= |d| && Scan(d, pos, |d|, AtChar('<')) == end
    ensures AtText(d, pos, |d|, level)
    ensures Step(d, pos, |d|, level, Unbounded) == Characters(d, pos, end, [], Unbounded)
  {
  }

  lemma {:induction false} TextAccepted(d: string, pos: nat, refs: seq<Ref>, last: string, end: nat, level: int)
    requires level > 0 && Holds(d, pos, RefsText(refs, last)) && end == pos + |RefsText(refs, last)| < |d|
    requires d[end] == '<' && ProperRefs(refs, '<') && PlainText(last, '<')
    ensures Leads(d, pos, level, end, level)
    decreases |refs|
  {
    hide Characters, ProperRefs, PlainText, Entity, Holds, Leads, Scan;
    NoStop(d, pos, refs, last, '<');
    if pos == end {
      LeadsSelf(d, pos, level);
    } else if refs == [] {
      CharactersLast(d, pos, end, [], last, '<');
      TextStep(d, pos, end, level);
    } else {
      var r := refs[0];
      RefsHold(d, pos, refs, last);
      RefsRest(refs, '<');
      CharactersRef(d, pos, end, [], r, '<');
      TextStep(d, pos, end, level);
      var next := pos + |r.plain| + |r.entity|;
      TextAccepted(d, next, refs[1..], last, end, level);
      LeadsOn(d, pos, level, next, level, end, level);
    }
  }

  lemma LeadsSelf(d: string, pos: nat, level: int)
    requires pos <= |d|
    ensures Leads(d, pos, level, pos, level)
  {
  }

  lemma LeadsOn(d: string, p: nat, l: int, p': nat, l': int, q: nat, m: int)
    requires Leads(d, p, l, p', l') && Leads(d, p', l', q, m)
    ensures Leads(d, p, l, q, m)
  {
    hide Parse;
  }

  lemma MarkupFirst(m: Markup)
    requires ProperMarkup(m)
    ensures MarkupText(m) != "" && MarkupText(m)[0] == '<'
  {
    hide Head, ContentText;
  }

  lemma {:induction false} ContentAccepted(d: string, pos: nat, c: Content, level: int)
    requires level > 0 && ProperContent(c) && Holds(d, pos, ContentText(c))
    requires pos + |ContentText(c)| < |d| && d[pos + |ContentText(c)|] == '<'
    ensures Leads(d, pos, level, pos + |ContentText(c)|, level)
    decreases c
  {
    hide Holds, RefsText, MarkupText, Leads, ProperMarkup, PlainText, Entity;
    var mid := pos + |TextOf(c.text)|;
    if c.Last? {
      assert ContentText(c) == TextOf(c.text);
      TextAccepted(d, pos, c.text.refs, c.text.last, mid, level);
    } else {
      HoldsBoth(d, pos, TextOf(c.text), MarkupText(c.item) + ContentText(c.rest));
      HoldsBoth(d, mid, MarkupText(c.item), ContentText(c.rest));
      MarkupFirst(c.item);
      HoldsHere(d, mid, MarkupText(c.item));
      TextAccepted(d, pos, c.text.refs, c.text.last, mid, level);
      MarkupAccepted(d, mid, c.item, level);
      var next := mid + |MarkupText(c.item)|;
      ContentAccepted(d, next, c.rest, level);
      LeadsOn(d, pos, level, mid, level, next, level);
      LeadsOn(d, pos, level, next, level, pos + |ContentText(c)|, level);
    }
  }

  /** Markup inside the root element is read to its end and leaves the level as it was. */
  lemma {:induction false} MarkupAccepted(d: string, pos: nat, m: Markup, level: int)
    requires level > 0 && ProperMarkup(m) && Holds(d, pos, MarkupText(m))
    ensures Leads(d, pos, level, pos + |MarkupText(m)|, level)
    decreases m
  {
    hide Holds, Leads, Head, Step, InstructionAt, StartAt, EndAt, Delimited, ProperHead, ContentText, Balance;
    HoldsInside(d, pos, MarkupText(m));
    NoLead(d, pos);
    match m
    case Instruct(name, gap, attrs) =>
      InstructionAccepted(d, pos, name, gap, attrs);
      StepAt(d, pos, "", level);
      StepLeads(d, pos, level);
    case Remark(text) =>
      DelimitedAccepted(d, pos, "<!--", text, "-->", XmlInvalid, Comment);
      OpensWith(d, pos, "<!--", text + "-->");
      StepAt(d, pos, "", level);
      StepLeads(d, pos, level);
    case Section(text) =>
      DelimitedAccepted(d, pos, "<![CDATA[", text, "]]>", XmlInvalid, CData);
      OpensWith(d, pos, "<![CDATA[", text + "]]>");
      StepAt(d, pos, "", level);
      StepLeads(d, pos, level);
    case Empty(name, gap, attrs) =>
      StartAccepted(d, pos, name, gap, attrs, "/>");
      StepAt(d, pos, "", level);
      StepLeads(d, pos, level);
    case Element(name, gap, attrs, content, end) =>
      ElementAccepted(d, pos, m, level);
  }

  lemma OpensWith(d: string, pos: nat, open: string, rest: string)
    requires Holds(d, pos, open + rest) && |open| >= 3
    ensures pos + 3 <= |d| && d[pos] == open[0] && d[pos + 1] == open[1] && d[pos + 2] == open[2]
  {
    HoldsBoth(d, pos, open, rest);
    HoldsEach(d, pos, open);
  }

  function StartText(m: Markup): string
    requires m.Element?
  {
    "<" + Head(m.name, m.gap, m.attrs, ">")
  }

  function EndText(m: Markup): string
    requires m.Element?
  {
    "</" + (m.name + (m.end + ">"))
  }

  /** How an element is laid out. */
  lemma ElementHolds(d: string, pos: nat, m: Markup)
    requires m.Element? && Holds(d, pos, MarkupText(m))
    ensures var inner := pos + |StartText(m)|;
            var behind := inner + |ContentText(m.content)|;
            && Holds(d, pos, StartText(m)) && Holds(d, inner, ContentText(m.content))
            && Holds(d, behind, EndText(m)) && behind + |EndText(m)| == pos + |MarkupText(m)|
  {
    hide Holds, StartText, EndText, ContentText;
    assert MarkupText(m) == StartText(m) + (ContentText(m.content) + EndText(m)) by { ElementText(m); }
    HoldsBoth(d, pos, StartText(m), ContentText(m.content) + EndText(m));
    HoldsBoth(d, pos + |StartText(m)|, ContentText(m.content), EndText(m));
  }

  lemma ElementText(m: Markup)
    requires m.Element?
    ensures MarkupText(m) == StartText(m) + (ContentText(m.content) + EndText(m))
  {
    hide ContentText, Head;
  }

  /** The content of an element, from behind its start tag to its closing tag. */
  lemma {:induction false} InsideAccepted(d: string, pos: nat, m: Markup, level: int)
    requires level >= 0 && m.Element? && ProperMarkup(m) && Holds(d, pos, MarkupText(m))
    ensures var inner := pos + |StartText(m)|;
            var behind := inner + |ContentText(m.content)|;
            && Leads(d, inner, level + 1, behind, level + 1)
            && behind + TAG_MINSIZE <= |d| && d[behind] == '<' && d[behind + 1] == '/'
            && var r := EndAt(d, behind, |d|, Unbounded);
               r.err == Success && r.pos == pos + |MarkupText(m)| && Balance(r.toks) == -1
    decreases m, 0
  {
    hide Holds, Leads, StartText, EndText, ContentText, MarkupText, EndAt, Balance, ProperContent, NameText, Blanks;
    var inner := pos + |StartText(m)|;
    var behind := inner + |ContentText(m.content)|;
    ElementHolds(d, pos, m);
    EndLaid(d, behind, m);
    ContentAccepted(d, inner, m.content, level + 1);
  }

  lemma EndLaid(d: string, behind: nat, m: Markup)
    requires m.Element? && ProperMarkup(m) && Holds(d, behind, EndText(m))
    ensures behind + TAG_MINSIZE <= |d| && d[behind] == '<' && d[behind + 1] == '/'
    ensures var r := EndAt(d, behind, |d|, Unbounded);
            r.err == Success && r.pos == behind + |EndText(m)| && Balance(r.toks) == -1
  {
    hide EndAt, Balance, NameText, Blanks, Holds;
    EndAccepted(d, behind, m.name, m.end);
  }

  /** The start tag of an element, before the root element with white space in front of it. */
  lemma OpenAccepted(d: string, pos: nat, lead: string, m: Markup, level: int)
    requires m.Element? && ProperMarkup(m) && Holds(d, pos, lead) && Blanks(lead) && level >= 0
    requires Holds(d, pos + |lead|, StartText(m)) && (level > 0 ==> lead == "")
    ensures Leads(d, pos, level, pos + |lead| + |StartText(m)|, level + 1)
  {
    hide Holds, Head, Leads, Step, StartAt, ProperHead, Balance, Blanks;
    StartAccepted(d, pos + |lead|, m.name, m.gap, m.attrs, ">");
    StepAt(d, pos, lead, level);
    StepLeads(d, pos, level);
  }

  lemma {:induction false} ElementAccepted(d: string, pos: nat, m: Markup, level: int)
    requires level > 0 && m.Element? && ProperMarkup(m) && Holds(d, pos, MarkupText(m))
    ensures Leads(d, pos, level, pos + |MarkupText(m)|, level)
    decreases m, 1
  {
    hide Holds, Leads, StartText, EndText, ContentText, MarkupText, EndAt, Balance, Step, ProperMarkup;
    var inner := pos + |StartText(m)|;
    var behind := inner + |ContentText(m.content)|;
    ElementHolds(d, pos, m);
    HoldsInside(d, pos, StartText(m));
    NoLead(d, pos);
    OpenAccepted(d, pos, "", m, level);
    InsideAccepted(d, pos, m, level);
    NoLead(d, behind);
    StepAt(d, behind, "", level + 1);
    StepLeads(d, behind, level + 1);
    LeadsOn(d, pos, level, inner, level + 1, behind, level + 1);
    LeadsOn(d, pos, level, behind, level + 1, pos + |MarkupText(m)|, level);
  }

  // ---------- Documents ----------

  lemma {:induction false} PrologAccepted(d: string, pos: nat, ps: seq<Prolog>)
    requires Holds(d, pos, PrologText(ps)) && forall p :: p in ps ==> ProperProlog(p)
    ensures Leads(d, pos, 0, pos + |PrologText(ps)|, 0)
    decreases |ps|
  {
    hide Holds, Leads, PrologItem, ProperProlog;
    HoldsInside(d, pos, PrologText(ps));
    if ps == [] {
      LeadsSelf(d, pos, 0);
    } else {
      var p, rest := ps[0], PrologText(ps[1..]);
      assert p in ps;
      HoldsBoth(d, pos, p.lead, PrologItem(p) + rest);
      HoldsBoth(d, pos + |p.lead|, PrologItem(p), rest);
      ItemAccepted(d, pos, p);
      var next := pos + |p.lead| + |PrologItem(p)|;
      PrologAccepted(d, next, ps[1..]);
      LeadsOn(d, pos, 0, next, 0, pos + |PrologText(ps)|, 0);
    }
  }

  lemma ItemAccepted(d: string, pos: nat, p: Prolog)
    requires ProperProlog(p) && Holds(d, pos, p.lead) && Holds(d, pos + |p.lead|, PrologItem(p))
    ensures Leads(d, pos, 0, pos + |p.lead| + |PrologItem(p)|, 0)
  {
    hide Holds, Leads, Head, Step, InstructionAt, Delimited, ProperHead, Balance, Blanks, EndsFirst;
    var lt := pos + |p.lead|;
    if p.Declared? {
      InstructionAccepted(d, lt, p.name, p.gap, p.attrs);
    } else {
      DelimitedAccepted(d, lt, "<!DOCTYPE", p.text, "]>", BufferDry, DocType);
      OpensWith(d, lt, "<!DOCTYPE", p.text + "]>");
    }
    StepAt(d, pos, p.lead, 0);
    StepLeads(d, pos, 0);
  }

  /** A document in this form is accepted: the run ends with success behind its root element, whatever follows there. */
  lemma DocumentAccepted(prolog: seq<Prolog>, lead: string, root: Markup, rest: string)
    requires (forall p :: p in prolog ==> ProperProlog(p)) && Blanks(lead) && root.Element? && ProperMarkup(root)
    ensures var text := PrologText(prolog) + (lead + MarkupText(root));
            var r := Reference(text + rest, 0, 0);
            r.err == Success && r.pos == |text| && r.level == 0
  {
    hide Holds, Leads, StartText, EndText, ContentText, MarkupText, EndAt, Balance, Step, ProperMarkup, PrologText;
    hide ProperProlog, Blanks, Reference;
    var text := PrologText(prolog) + (lead + MarkupText(root));
    var d := text + rest;
    assert Holds(d, 0, text) by { HoldsFront(text, rest); }
    var at := |PrologText(prolog)|;
    HoldsBoth(d, 0, PrologText(prolog), lead + MarkupText(root));
    HoldsBoth(d, at, lead, MarkupText(root));
    PrologAccepted(d, 0, prolog);
    ElementHolds(d, at + |lead|, root);
    OpenAccepted(d, at, lead, root, 0);
    InsideAccepted(d, at + |lead|, root, 0);
    var inner := at + |lead| + |StartText(root)|;
    var behind := inner + |ContentText(root.content)|;
    LeadsOn(d, 0, 0, at, 0, inner, 1);
    LeadsOn(d, 0, 0, inner, 1, behind, 1);
    NoLead(d, behind);
    StepAt(d, behind, "", 1);
    LastStep(d, behind);
    LeadsMeans(d, 0, 0, behind, 1);
  }

  lemma LeadsMeans(d: string, pos: nat, level: int, pos': nat, level': int)
    requires Leads(d, pos, level, pos', level')
    ensures pos <= |d| && pos' <= |d|
    ensures var r, r' := Reference(d, pos, level), Reference(d, pos', level');
            r.err == r'.err && r.pos == r'.pos && r.level == r'.level
  {
    hide Reference;
  }

  lemma HoldsFront(x: string, y: string)
    ensures Holds(x + y, 0, x)
  {
  }

  lemma LastStep(d: string, pos: nat)
    requires pos <= |d|
    requires var s := Step(d, pos, |d|, 1, Unbounded); s.err == Success && Balance(s.toks) == -1
    ensures var s := Step(d, pos, |d|, 1, Unbounded);
            var r := Reference(d, pos, 1);
            r.err == Success && r.pos == s.pos && r.level == 0
  {
    hide Step, Balance;
  }
}
