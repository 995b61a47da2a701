/** What the JSON parser writes into a token table that never overflows, and how its tokens are linked. */
module JsonTokens {
  import opened JsonText

  datatype Kind = Undefined | Object | Array | Text | Primitive

  /** `json_token_t` */
  datatype Token = Token(id: nat, idLength: nat, value: nat, valueLength: nat, child: nat, sibling: nat, kind: Kind)

  /** An identifier: offset and length. */
  datatype Name = Name(at: nat, length: nat)

  const UNNAMED := Name(0, 0)

  datatype Outcome = Failed | Parsed(pos: nat, toks: seq<Token>)

  function PrimitiveToken(name: Name, kind: Kind, value: nat, length: nat): Token {
    Token(name.at, name.length, value, length, 0, 0, kind)
  }

  function ComplexToken(name: Name, kind: Kind, value: nat, index: nat): Token {
    Token(name.at, name.length, value, 0, index + 1, 0, kind)
  }

  function SetSibling(toks: seq<Token>, last: nat, to: nat): (r: seq<Token>)
    requires last < |toks|
    ensures |r| == |toks|
  {
    toks[last := toks[last].(sibling := to)]
  }

  /** One more item of the array at owner, linked behind the item at last (0: the first one). */
  function AddItem(toks: seq<Token>, owner: nat, last: nat, now: nat): (r: seq<Token>)
    requires owner < |toks| && last < |toks|
    ensures |r| == |toks|
  {
    var counted := toks[owner := toks[owner].(valueLength := toks[owner].valueLength + 1)];
    if last != 0 then SetSibling(counted, last, now) else counted
  }

  /** The object at owner ends before pos. */
  function CloseObject(toks: seq<Token>, owner: nat, start: nat, pos: nat): (r: seq<Token>)
    requires owner < |toks| && start <= pos
    ensures |r| == |toks|
  {
    toks[owner := toks[owner].(valueLength := pos - start, child := if toks[owner].child == |toks| then 0
        else toks[owner].child)]
  }

  /** The array at owner has no items. */
  function NoItems(toks: seq<Token>, owner: nat): (r: seq<Token>)
    requires owner < |toks|
    ensures |r| == |toks|
  {
    toks[owner := toks[owner].(child := 0)]
  }

  // ---------- Values without parts ----------

  /** A number, literal or string at pos, which is not white space. */
  function Leaf(b: string, pos: nat, toks: seq<Token>, name: Name, simple: bool): (r: Outcome)
    requires pos < |b| < INVALID_POS
    ensures r.Parsed? ==> pos <= r.pos <= |b| && |r.toks| == |toks| + 1 && r.toks[..|toks|] == toks
    ensures r.Parsed? && r.pos == pos ==> simple && Delimiter(b[pos])
  {
    if '0' <= b[pos] <= '9' || b[pos] == '-' || b[pos] == '.' then NumberLeaf(b, pos, toks, name)
    else if LiteralAt(b, pos) > 0 then
      Parsed(pos + LiteralAt(b, pos), toks + [PrimitiveToken(name, Primitive, pos, LiteralAt(b, pos))])
    else if b[pos] == '"' then QuotedLeaf(b, pos + 1, toks, name)
    else if simple then BareLeaf(b, pos, toks, name)
    else Failed
  }

  function NumberLeaf(b: string, pos: nat, toks: seq<Token>, name: Name): (r: Outcome)
    requires pos < |b| < INVALID_POS
    ensures r.Parsed? ==> pos < r.pos <= |b| && |r.toks| == |toks| + 1 && r.toks[..|toks|] == toks
  {
    var e := NumberAt(b, pos);
    if e == INVALID_POS then Failed
    else
      NumberSpan(b, pos, true, Seen(false, false, false));
      Parsed(e, toks + [PrimitiveToken(name, Primitive, pos, e - pos)])
  }

  function QuotedLeaf(b: string, pos: nat, toks: seq<Token>, name: Name): (r: Outcome)
    requires pos <= |b| < INVALID_POS
    ensures r.Parsed? ==> pos < r.pos <= |b| && |r.toks| == |toks| + 1 && r.toks[..|toks|] == toks
  {
    var e := StringEnd(b, pos, false, false);
    if e == INVALID_POS then Failed
    else
      StringSpan(b, pos, false, false);
      Parsed(e + 1, toks + [PrimitiveToken(name, Text, pos, e - pos)])
  }

  function BareLeaf(b: string, pos: nat, toks: seq<Token>, name: Name): (r: Outcome)
    requires pos < |b| < INVALID_POS && b[pos] != '"'
    ensures r.Parsed? ==> pos <= r.pos <= |b| && |r.toks| == |toks| + 1 && r.toks[..|toks|] == toks
    ensures r.Parsed? && r.pos == pos ==> Delimiter(b[pos])
  {
    var e := StringEnd(b, pos, false, true);
    if e == INVALID_POS then Failed
    else
      StringSpan(b, pos, false, true);
      Parsed(if At(b, e) == '"' then e + 1 else e, toks + [PrimitiveToken(name, Text, pos, e - pos)])
  }

  // ---------- Values, objects and arrays ----------

  /** `json_parse_value` */
  function Value(b: string, pos: nat, toks: seq<Token>, name: Name, simple: bool): (r: Outcome)
    requires pos <= |b| < INVALID_POS
    ensures r.Parsed? ==> Skip(b, pos) <= r.pos <= |b| && |toks| < |r.toks|
    ensures r.Parsed? && r.pos == Skip(b, pos) ==> r.pos < |b| && Stop(b[r.pos])
    decreases |b| - pos, 1
  {
    var p := Skip(b, pos);
    if p == |b| then Failed
    else if b[p] == '{' then ObjectValue(b, p, toks, name, simple)
    else if b[p] == '[' then ArrayValue(b, p, toks, name, simple)
    else Leaf(b, p, toks, name, simple)
  }

  function ObjectValue(b: string, p: nat, toks: seq<Token>, name: Name, simple: bool): (r: Outcome)
    requires p < |b| < INVALID_POS
    ensures r.Parsed? ==> p < r.pos <= |b| && |toks| < |r.toks|
    decreases |b| - p, 0
  {
    var o := Members(b, Skip(b, p + 1), toks + [ComplexToken(name, Object, p, |toks|)], 0, simple);
    if o.Failed? then Failed else Parsed(o.pos, CloseObject(o.toks, |toks|, p, o.pos))
  }

  function ArrayValue(b: string, p: nat, toks: seq<Token>, name: Name, simple: bool): (r: Outcome)
    requires p < |b| < INVALID_POS
    ensures r.Parsed? ==> p < r.pos <= |b| && |toks| < |r.toks|
    decreases |b| - p, 0
  {
    var q := Skip(b, p + 1);
    var started := toks + [ComplexToken(name, Array, 0, |toks|)];
    if At(b, q) == ']' then Parsed(Skip(b, q + 1), NoItems(started, |toks|))
    else Elements(b, q, started, |toks|, 0, simple)
  }

  /** The loop of `json_parse_array`; the last item stands at last, 0 if there is none yet. */
  function Elements(b: string, pos: nat, toks: seq<Token>, owner: nat, last: nat, simple: bool): (r: Outcome)
    requires pos <= |b| < INVALID_POS && owner < |toks| && last < |toks|
    ensures r.Parsed? ==> pos < r.pos <= |b| && |toks| < |r.toks|
    decreases |b| - pos, 2
  {
    if pos == |b| then Failed
    else
      var v := Value(b, pos, toks, UNNAMED, simple);
      if v.Failed? then Failed
      else
        var t, q := AddItem(v.toks, owner, last, |toks|), Skip(b, v.pos);
        if At(b, q) == ',' then Elements(b, q + 1, t, owner, |toks|, simple)
        else if At(b, q) == ']' then Parsed(q + 1, t)
        else if !simple || At(b, q) == '}' then Failed
        else Elements(b, q, t, owner, |toks|, simple)
  }

  /** The loop of `json_parse_object`; the last member stands at last, 0 behind a comma or at the start. */
  function Members(b: string, pos: nat, toks: seq<Token>, last: nat, simple: bool): (r: Outcome)
    requires pos <= |b| < INVALID_POS && last < |toks|
    ensures r.Parsed? ==> pos <= r.pos <= |b| && |toks| <= |r.toks|
    decreases |b| - pos, 2
  {
    if pos == |b| then if simple then Parsed(pos, toks) else Failed
    else if b[pos] == '}' then Parsed(pos + 1, toks)
    else if b[pos] == ',' then
      if last == 0 then Failed else Members(b, Skip(b, pos + 1), SetSibling(toks, last, |toks|), 0, simple)
    else if last != 0 then Failed
    else Member(b, pos, toks, simple)
  }

  /** Where a key at pos starts, and where the text continues behind it and behind its quote. */
  function KeyStart(b: string, pos: nat): nat
    requires pos < |b|
  {
    if b[pos] == '"' then pos + 1 else pos
  }

  function KeyNext(b: string, e: nat, simple: bool): nat {
    if !simple || At(b, e) == '"' then e + 1 else e
  }

  /** In simplified documents members need no comma: the next one follows when neither `,` nor `}` does. */
  predicate NextUnseparated(b: string, bare: bool, pos: nat) {
    bare && pos < |b| && b[pos] != ',' && b[pos] != '}'
  }

  datatype Key = NoKey | Key(name: Name, next: nat)

  /** The key at pos, and the position behind the colon. */
  function KeyAt(b: string, pos: nat, simple: bool): (k: Key)
    requires pos < |b| < INVALID_POS
    ensures k.Key? ==> pos < k.next <= |b|
  {
    var bare := b[pos] != '"';
    var s := KeyStart(b, pos);
    var e := StringEnd(b, s, true, bare);
    if (bare && !simple) || e == INVALID_POS then NoKey
    else
      StringSpan(b, s, true, bare);
      var q := Skip(b, KeyNext(b, e, simple));
      if At(b, q) != ':' && (!simple || At(b, q) != '=') then NoKey else Key(Name(s, e - s), q + 1)
  }

  function Member(b: string, pos: nat, toks: seq<Token>, simple: bool): (r: Outcome)
    requires pos < |b| < INVALID_POS && 0 < |toks|
    ensures r.Parsed? ==> pos < r.pos <= |b| && |toks| < |r.toks|
    decreases |b| - pos, 1
  {
    var k := KeyAt(b, pos, simple);
    if k.NoKey? then Failed
    else
      var v := Value(b, k.next, toks, k.name, simple);
      if v.Failed? then Failed
      else
        var n := Skip(b, v.pos);
        if NextUnseparated(b, b[pos] != '"', n) then Members(b, n, SetSibling(v.toks, |toks|, |v.toks|), 0, simple)
        else Members(b, n, v.toks, |toks|, simple)
  }

  /** `json_parse`: the tokens of a document, or none. */
  function Document(b: string): seq<Token>
    requires |b| < INVALID_POS
  {
    var v := Value(b, 0, [], UNNAMED, false);
    if v.Failed? then [] else v.toks
  }

  /** `sjson_parse`; the name of a braced document is whatever the table held before. */
  function SimpleDocument(b: string, name: Name): seq<Token>
    requires |b| < INVALID_POS
  {
    var p := Skip(b, 0);
    if p < |b| && b[p] != '{' then
      var o := Members(b, Skip(b, p), [ComplexToken(UNNAMED, Object, p, 0)], 0, true);
      if o.Failed? then [] else o.toks[0 := o.toks[0].(valueLength := |b| - p)]
    else
      var v := Value(b, p, [], name, true);
      if v.Failed? then [] else v.toks
  }
}
