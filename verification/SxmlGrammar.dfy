/** What each parsing routine of the SXML parser recognises and which tokens it pushes, as pure functions.
    Positions are offsets into the document d, of which the buffer shows the part that ends at e;
    `limit` is the room left in the token table. */
module SxmlGrammar {
  import opened SxmlText

  datatype Kind = StartTag | EndTag | Character | CData | Instruction | DocType | Comment

  datatype Token = Token(kind: Kind, size: nat, startpos: nat, endpos: nat)

  datatype Err = Success | BufferDry | TokensFull | XmlInvalid

  /** The verdict, the new position when it is Success, and every token pushed so far,
      the refused ones included. */
  datatype Res = Res(err: Err, pos: nat, toks: seq<Token>)

  datatype Limit = Unbounded | AtMost(n: nat)

  const ENTITY_MAXLEN := 8
  const TAG_MINSIZE := 3
  const USHORT := 0x1_0000

  predicate Fits(n: nat, limit: Limit) {
    limit.AtMost? ==> n <= limit.n
  }

  function SetPos(pos: nat, toks: seq<Token>, limit: Limit): (r: Res) {
    Res(if Fits(|toks|, limit) then Success else TokensFull, pos, toks)
  }

  function Min(a: nat, b: nat): nat {
    if a < b then a else b
  }

  /** Text up to an ampersand, then one entity reference. */
  function Characters(d: string, pos: nat, end: nat, toks: seq<Token>, limit: Limit): (r: Res)
    requires pos <= end <= |d|
    ensures |toks| <= |r.toks| <= |toks| + 2
    ensures r.err == Success ==> pos <= r.pos <= end && (pos < end ==> pos < r.pos)
  {
    var ampr := Scan(d, pos, end, AtChar('&'));
    var text := if ampr != pos then toks + [Token(Character, 0, pos, ampr)] else toks;
    if ampr == end then
      SetPos(ampr, text, limit)
    else
      var far := Min(ampr + ENTITY_MAXLEN, end);
      var colon := Scan(d, ampr, far, AtChar(';'));
      if colon == far then
        Res(if far == end then BufferDry else XmlInvalid, pos, text)
      else
        SetPos(colon + 1, text + [Token(Character, 0, ampr, colon + 1)], limit)
  }

  function AttrValue(d: string, pos: nat, end: nat, toks: seq<Token>, limit: Limit): (r: Res)
    requires pos <= end <= |d|
    ensures |toks| <= |r.toks|
    ensures r.err == Success ==> r.pos == end
    decreases end - pos
  {
    if pos == end then
      Res(Success, pos, toks)
    else
      var r := Characters(d, pos, end, toks, limit);
      if r.err != Success then r else AttrValue(d, r.pos, end, r.toks, limit)
  }

  /** A quoted value, and the white space behind it. */
  function AttrQuoted(d: string, quot: nat, e: nat, toks: seq<Token>, limit: Limit): (r: Res)
    requires quot <= e <= |d|
    ensures |toks| <= |r.toks|
    ensures r.err == Success ==> quot < r.pos <= e
  {
    if quot == e then
      Res(BufferDry, quot, toks)
    else if d[quot] != '\'' && d[quot] != '"' then
      Res(XmlInvalid, quot, toks)
    else
      var close := Scan(d, quot + 1, e, AtChar(d[quot]));
      if close == e then
        Res(BufferDry, quot, toks)
      else
        var r := AttrValue(d, quot + 1, close, toks, limit);
        if r.err != Success then r else r.(pos := Scan(d, close + 1, e, AtNonSpace))
  }

  /** One name = 'value' pair. */
  function AttrOne(d: string, name: nat, e: nat, toks: seq<Token>, limit: Limit): (r: Res)
    requires name < e <= |d| && NameStartChar(d[name])
    ensures |toks| <= |r.toks|
    ensures r.err == Success ==> name < r.pos <= e
  {
    var eq := Scan(d, name, e, AtChar('='));
    if eq == e then
      Res(BufferDry, name, toks)
    else
      AttrQuoted(d, Scan(d, eq + 1, e, AtNonSpace), e, toks + [Token(CData, 0, name, RTrim(d, name, eq))], limit)
  }

  /** Pairs from a position where white space has been skipped, as long as a name starts there. */
  function AttrLoop(d: string, name: nat, e: nat, toks: seq<Token>, limit: Limit): (r: Res)
    requires name <= e <= |d|
    ensures |toks| <= |r.toks|
    ensures r.err == Success ==> name <= r.pos <= e && Fits(|r.toks|, limit)
    decreases e - name
  {
    if name == e || !NameStartChar(d[name]) then
      SetPos(name, toks, limit)
    else
      var r := AttrOne(d, name, e, toks, limit);
      if r.err != Success then r else AttrLoop(d, r.pos, e, r.toks, limit)
  }

  /** The attributes after the token pushed last, whose size counts the tokens they produce. */
  function Attributes(d: string, pos: nat, e: nat, toks: seq<Token>, limit: Limit): (r: Res)
    requires pos <= e <= |d| && toks != []
    ensures |toks| <= |r.toks|
    ensures r.err == Success ==> pos <= r.pos <= e && Fits(|r.toks|, limit)
  {
    var r := AttrLoop(d, Scan(d, pos, e, AtNonSpace), e, toks, limit);
    if r.err == Success then
      var h := |toks| - 1;
      r.(toks := r.toks[h := r.toks[h].(size := (|r.toks| - |toks|) % USHORT)])
    else r
  }

  /** A construct with fixed opening and closing strings whose inside becomes one token. */
  function Delimited(d: string, pos: nat, e: nat, open: string, close: string, mismatch: Err, kind: Kind,
      limit: Limit): (r: Res)
    requires pos <= e <= |d| && close != "" && mismatch != Success
    ensures |r.toks| <= 1
    ensures r.err == Success ==> pos < r.pos <= e && Fits(|r.toks|, limit)
  {
    if e - pos < |open| then
      Res(BufferDry, pos, [])
    else if !StartsWith(d, pos, e, open) then
      Res(mismatch, pos, [])
    else
      var start := pos + |open|;
      var found := FindStr(d, start, e, close);
      if found == e then
        Res(BufferDry, pos, [])
      else
        SetPos(found + |close|, [Token(kind, 0, start, found)], limit)
  }

  function CommentAt(d: string, pos: nat, e: nat, limit: Limit): Res
    requires pos <= e <= |d|
  {
    Delimited(d, pos, e, "<!--", "-->", XmlInvalid, Comment, limit)
  }

  /** Anything else that starts with "<!" asks for more input instead of being refused. */
  function DoctypeAt(d: string, pos: nat, e: nat, limit: Limit): Res
    requires pos <= e <= |d|
  {
    Delimited(d, pos, e, "<!DOCTYPE", "]>", BufferDry, DocType, limit)
  }

  function CDataAt(d: string, pos: nat, e: nat, limit: Limit): Res
    requires pos <= e <= |d|
  {
    Delimited(d, pos, e, "<![CDATA[", "]]>", XmlInvalid, CData, limit)
  }

  function InstructionAt(d: string, pos: nat, e: nat, limit: Limit): (r: Res)
    requires pos <= e <= |d|
    ensures r.err == Success ==> pos < r.pos <= e && Fits(|r.toks|, limit)
  {
    if !StartsWith(d, pos, e, "<?") then
      Res(XmlInvalid, pos, [])
    else
      var start := pos + 2;
      var space := Scan(d, start, e, AtNonName);
      if space == e then
        Res(BufferDry, pos, [])
      else
        var r := Attributes(d, space, e, [Token(Instruction, 0, start, space)], limit);
        if r.err != Success then
          r
        else if e - r.pos < 2 then
          Res(BufferDry, pos, r.toks)
        else if !StartsWith(d, r.pos, e, "?>") then
          Res(XmlInvalid, pos, r.toks)
        else
          SetPos(r.pos + 2, r.toks, limit)
  }

  /** What follows the attributes of an open tag: "/>", which also closes it, or ">". */
  function TagEnd(d: string, name: nat, space: nat, e: nat, r: Res, limit: Limit): (r': Res)
    requires r.pos <= e <= |d|
    ensures |r.toks| <= |r'.toks|
    ensures r'.err == Success ==> r.pos < r'.pos <= e && Fits(|r'.toks|, limit)
  {
    var closed := r.pos != e && d[r.pos] == '/';
    var toks := if closed then r.toks + [Token(EndTag, 0, name, space)] else r.toks;
    var gt := if closed then r.pos + 1 else r.pos;
    if gt == e then
      Res(BufferDry, gt, toks)
    else if d[gt] != '>' then
      Res(XmlInvalid, gt, toks)
    else
      SetPos(gt + 1, toks, limit)
  }

  function StartAt(d: string, pos: nat, e: nat, limit: Limit): (r: Res)
    requires pos + TAG_MINSIZE <= e <= |d|
    ensures r.err == Success ==> pos < r.pos <= e && Fits(|r.toks|, limit)
  {
    if !(d[pos] == '<' && NameStartChar(d[pos + 1])) then
      Res(XmlInvalid, pos, [])
    else
      var name := pos + 1;
      var space := Scan(d, name, e, AtNonName);
      if space == e then
        Res(BufferDry, pos, [])
      else
        var r := Attributes(d, space, e, [Token(StartTag, 0, name, space)], limit);
        if r.err != Success then r else TagEnd(d, name, space, e, r, limit)
  }

  /** The inside of a closing tag: a name and nothing but white space behind it. */
  function EndName(d: string, start: nat, gt: nat, limit: Limit): (r: Res)
    requires start <= gt < |d|
    ensures |r.toks| <= 1
    ensures r.err == Success ==> r.pos == gt + 1 && Fits(|r.toks|, limit)
  {
    var space := Scan(d, start, gt, AtNonName);
    if Scan(d, space, gt, AtNonSpace) != gt then
      Res(XmlInvalid, start, [])
    else
      SetPos(gt + 1, [Token(EndTag, 0, start, space)], limit)
  }

  function EndAt(d: string, pos: nat, e: nat, limit: Limit): (r: Res)
    requires pos + TAG_MINSIZE <= e <= |d|
    ensures |r.toks| <= 1
    ensures r.err == Success ==> pos < r.pos <= e && Fits(|r.toks|, limit)
  {
    if !(StartsWith(d, pos, e, "</") && NameStartChar(d[pos + 2])) then
      Res(XmlInvalid, pos, [])
    else
      var gt := Scan(d, pos + 2, e, AtChar('>'));
      if gt == e then Res(BufferDry, pos, []) else EndName(d, pos + 2, gt, limit)
  }

  /** The construct at a '<' with at least three characters: before the root element, or inside it. */
  function Construct(d: string, lt: nat, e: nat, inRoot: bool, limit: Limit): (r: Res)
    requires lt + TAG_MINSIZE <= e <= |d|
    ensures r.err == Success ==> lt < r.pos <= e && Fits(|r.toks|, limit)
  {
    match d[lt + 1]
    case '?' => InstructionAt(d, lt, e, limit)
    case '!' =>
      if !inRoot then DoctypeAt(d, lt, e, limit)
      else if d[lt + 2] == '-' then CommentAt(d, lt, e, limit)
      else CDataAt(d, lt, e, limit)
    case '/' => if inRoot then EndAt(d, lt, e, limit) else StartAt(d, lt, e, limit)
    case _ => StartAt(d, lt, e, limit)
  }

  /** The position a parse is committed at before it tries the next construct. */
  function CommitPos(d: string, pos: nat, e: nat, level: int): (p: nat)
    requires pos <= e <= |d|
    ensures pos <= p <= e
  {
    if level <= 0 then Scan(d, pos, e, AtNonSpace) else pos
  }

  /** At a position inside the root element that is not at markup the next step reads text. */
  predicate AtText(d: string, pos: nat, e: nat, level: int)
    requires pos <= e <= |d|
  {
    level > 0 && Scan(d, pos, e, AtChar('<')) != pos
  }

  /** One step of the parser between two commits. */
  function Step(d: string, pos: nat, e: nat, level: int, limit: Limit): (r: Res)
    requires pos <= e <= |d|
    ensures r.err == Success ==> pos < r.pos <= e && Fits(|r.toks|, limit)
  {
    var lt := CommitPos(d, pos, e, level);
    if AtText(d, pos, e, level) then
      Characters(d, pos, Scan(d, pos, e, AtChar('<')), [], limit)
    else if e - lt < TAG_MINSIZE then
      Res(BufferDry, lt, [])
    else if d[lt] != '<' then
      Res(XmlInvalid, lt, [])
    else
      Construct(d, lt, e, level > 0, limit)
  }

  function Delta(t: Token): int {
    match t.kind
    case StartTag => 1
    case EndTag => -1
    case _ => 0
  }

  /** Elements opened minus elements closed. */
  function Balance(toks: seq<Token>): int {
    if toks == [] then 0 else Balance(toks[..|toks| - 1]) + Delta(toks[|toks| - 1])
  }

  lemma {:induction false} BalanceConcat(x: seq<Token>, y: seq<Token>)
    ensures Balance(x + y) == Balance(x) + Balance(y)
  {
    if y == [] {
      assert x + y == x;
    } else {
      assert (x + y)[..|x + y| - 1] == x + y[..|y| - 1];
      BalanceConcat(x, y[..|y| - 1]);
    }
  }

  predicate IsAttrKind(k: Kind) {
    k == CData || k == Character
  }

  /** The token lies in the buffer, and the tokens its size counts exist and describe attributes. */
  predicate WellPlaced(toks: seq<Token>, i: nat, len: nat)
    requires i < |toks|
  {
    && toks[i].startpos <= toks[i].endpos <= len
    && (toks[i].kind == StartTag || toks[i].kind == Instruction || toks[i].size == 0)
    && i + toks[i].size < |toks|
    && forall j :: i < j <= i + toks[i].size ==> IsAttrKind(toks[j].kind)
  }

  ghost predicate WellFormed(toks: seq<Token>, len: nat) {
    forall i :: 0 <= i < |toks| ==> WellPlaced(toks, i, len)
  }

  /** No prefix of the tokens closes more elements than are open. */
  ghost predicate NeverNegative(level: int, toks: seq<Token>) {
    forall i :: 0 <= i <= |toks| ==> level + Balance(toks[..i]) >= 0
  }
}
