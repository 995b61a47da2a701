/** The JSON parser over a token table of any size: it counts on when the table is full, and the table holds the
    beginning of what an unbounded one would hold. */
module JsonParser {
  import opened JsonText
  import opened JsonTokens
  import JsonLinks

  class Parser {
    /** The text; reading at its length yields NUL. */
    const b: string
    const tokens: array<Token>
    var current: nat

    constructor (b: string, tokens: array<Token>)
      ensures this.b == b && this.tokens == tokens && current == 0
    {
      this.b, this.tokens := b, tokens;
      current := 0;
    }

    /** The table holds as much of t as fits, and the count is that of t. */
    ghost predicate Holds(t: seq<Token>)
      reads this`current, tokens
    {
      current == |t| && forall i: nat :: i < |t| && i < tokens.Length ==> tokens[i] == t[i]
    }

    /** The next token has its name already. */
    ghost predicate NextNamed(name: Name)
      reads this`current, tokens
    {
      current < tokens.Length ==> JsonLinks.Named(tokens[current], name)
    }

    ghost predicate Yields(o: Outcome, r: nat)
      reads this`current, tokens
    {
      if o.Failed? then r == INVALID_POS else r == o.pos && Holds(o.toks)
    }

    // ---------- Token setters ----------

    /** `json_is_valid_token`: tokens that did not fit count as valid. */
    method IsValidToken(index: nat) returns (r: bool)
      ensures r <==> index < tokens.Length ==> tokens[index].kind != Undefined
    {
      r := if index < tokens.Length then tokens[index].kind != Undefined else true;
    }

    method SetPrimitive(kind: Kind, value: nat, length: nat)
      modifies tokens
      ensures forall i: nat :: i < tokens.Length && i != current ==> tokens[i] == old(tokens[i])
      ensures current < tokens.Length ==>
          tokens[current] == PrimitiveToken(Name(old(tokens[current].id), old(tokens[current].idLength)), kind,
              value, length)
    {
      if current < tokens.Length {
        tokens[current] := tokens[current].(kind := kind, child := 0, sibling := 0, value := value,
            valueLength := length);
      }
    }

    method SetComplex(kind: Kind, pos: nat)
      modifies tokens
      ensures forall i: nat :: i < tokens.Length && i != current ==> tokens[i] == old(tokens[i])
      ensures current < tokens.Length ==>
          tokens[current] == ComplexToken(Name(old(tokens[current].id), old(tokens[current].idLength)), kind, pos,
              current)
    {
      if current < tokens.Length {
        tokens[current] := tokens[current].(kind := kind, child := current + 1, sibling := 0, value := pos,
            valueLength := 0);
      }
    }

    method SetName(id: nat, length: nat)
      modifies tokens
      ensures forall i: nat :: i < tokens.Length && i != current ==> tokens[i] == old(tokens[i])
      ensures NextNamed(Name(id, length))
    {
      if current < tokens.Length {
        tokens[current] := tokens[current].(id := id, idLength := length);
      }
    }

    method SetSiblingOf(last: nat, to: nat, ghost t: seq<Token>)
      requires Holds(t) && last < |t|
      modifies tokens
      ensures Holds(SetSibling(t, last, to))
      ensures forall i: nat :: current <= i < tokens.Length ==> tokens[i] == old(tokens[i])
    {
      if last < tokens.Length {
        tokens[last] := tokens[last].(sibling := to);
      }
    }

    // ---------- Values without parts ----------

    /** The rest of the switch of `json_parse_value`; pos is the position of its character. */
    method ParseLeaf(pos: nat, simple: bool, ghost t: seq<Token>, ghost name: Name) returns (r: nat)
      requires pos < |b| < INVALID_POS && Holds(t) && NextNamed(name)
      modifies this`current, tokens
      ensures Yields(Leaf(b, pos, t, name, simple), r)
    {
      var c := b[pos];
      if '0' <= c <= '9' || c == '-' || c == '.' {
        var length := ParseNumber(b, pos);
        if length == INVALID_POS {
          return INVALID_POS;
        }
        SetPrimitive(Primitive, pos, length);
        current := current + 1;
        return pos + length;
      }
      var literal := ParseLiteral(b, pos + 1);
      if literal > 0 {
        SetPrimitive(Primitive, pos, literal);
        current := current + 1;
        return pos + literal;
      }
      if c != '"' && !simple {
        return INVALID_POS;
      }
      r := ParseText(pos, c != '"', t, name);
    }

    /** A string, quoted or bare. */
    method ParseText(pos: nat, bare: bool, ghost t: seq<Token>, ghost name: Name) returns (r: nat)
      requires pos < |b| < INVALID_POS && Holds(t) && NextNamed(name) && (bare <==> b[pos] != '"')
      modifies this`current, tokens
      ensures Yields(if bare then BareLeaf(b, pos, t, name) else QuotedLeaf(b, pos + 1, t, name), r)
    {
      var start := if bare then pos else pos + 1;
      var length := ParseString(b, start, false, bare);
      if length == INVALID_POS {
        return INVALID_POS;
      }
      StringSpan(b, start, false, bare);
      SetPrimitive(Text, start, length);
      current := current + 1;
      if !bare || (start + length < |b| && b[start + length] == '"') {
        length := length + 1;
      }
      return start + length;
    }

    // ---------- Values, objects and arrays ----------

    method ParseValue(pos0: nat, simple: bool, ghost t: seq<Token>, ghost name: Name) returns (r: nat)
      requires pos0 <= |b| < INVALID_POS && Holds(t) && NextNamed(name)
      modifies this`current, tokens
      ensures Yields(Value(b, pos0, t, name, simple), r)
      decreases |b| - pos0, 1
    {
      hide Leaf, ObjectValue, ArrayValue;
      var pos := SkipWhitespace(b, pos0);
      if pos >= |b| {
        return INVALID_POS;
      }
      var c := b[pos];
      if c == '{' {
        r := ParseObjectValue(pos, simple, t, name);
      } else if c == '[' {
        r := ParseArrayValue(pos, simple, t, name);
      } else {
        r := ParseLeaf(pos, simple, t, name);
      }
    }

    method ParseObjectValue(pos: nat, simple: bool, ghost t: seq<Token>, ghost name: Name) returns (r: nat)
      requires pos < |b| < INVALID_POS && Holds(t) && NextNamed(name)
      modifies this`current, tokens
      ensures Yields(ObjectValue(b, pos, t, name, simple), r)
      decreases |b| - pos, 0
    {
      hide Members;
      var owner := current;
      SetComplex(Object, pos);
      current := current + 1;
      ghost var begun := t + [ComplexToken(name, Object, pos, owner)];
      r := ParseObject(pos + 1, simple, begun);
      ghost var o := Members(b, Skip(b, pos + 1), begun, 0, simple);
      if o.Parsed? {
        JsonLinks.MembersAdded(b, Skip(b, pos + 1), begun, 0, simple, owner + 1);
        assert o.toks[owner] == o.toks[..owner + 1][owner] == begun[owner];
      }
      if owner < tokens.Length {
        if r != INVALID_POS {
          tokens[owner] := tokens[owner].(valueLength := r - tokens[owner].value);
        }
        if tokens[owner].child == current {
          tokens[owner] := tokens[owner].(child := 0);
        }
      }
    }

    /** `json_parse_object` */
    method ParseObject(pos0: nat, simple: bool, ghost t0: seq<Token>) returns (r: nat)
      requires pos0 <= |b| < INVALID_POS && Holds(t0) && 0 < |t0|
      modifies this`current, tokens
      ensures Yields(Members(b, Skip(b, pos0), t0, 0, simple), r)
      decreases |b| - pos0, 1
    {
      ghost var o := Members(b, Skip(b, pos0), t0, 0, simple);
      ghost var t := t0;
      var last: nat := 0;
      var pos := SkipWhitespace(b, pos0);
      while pos < |b|
        invariant pos0 <= pos
        invariant pos == INVALID_POS ==> o.Failed?
        invariant pos != INVALID_POS ==> pos <= |b| && Holds(t) && last < |t| && o == Members(b, pos, t, last, simple)
        invariant pos != INVALID_POS && last != 0 ==> t[last].kind != Undefined
        decreases |b| - pos
      {
        var c := b[pos];
        if c == '}' {
          if last != 0 {
            var valid := IsValidToken(last);
            if !valid {
              assert false; // never: every value read has a kind
            }
          }
          return pos + 1;
        } else if c == ',' {
          if last == 0 {
            return INVALID_POS;
          }
          var valid := IsValidToken(last);
          if !valid {
            assert false; // never: every value read has a kind
          }
          SetSiblingOf(last, current, t);
          t := SetSibling(t, last, |t|);
          last := 0;
          pos := SkipWhitespace(b, pos + 1);
        } else {
          if last != 0 {
            return INVALID_POS;
          }
          pos, last, t := ParseMember(pos, simple, t);
        }
      }
      return if simple then pos else INVALID_POS;
    }

    /** The default case of the switch of `json_parse_object`: a key and its value. */
    method ParseMember(pos0: nat, simple: bool, ghost t0: seq<Token>) returns (pos: nat, last: nat, ghost t: seq<Token>)
      requires pos0 < |b| < INVALID_POS && Holds(t0) && 0 < |t0|
      modifies this`current, tokens
      ensures pos0 < pos
      ensures pos == INVALID_POS ==> Member(b, pos0, t0, simple).Failed?
      ensures pos != INVALID_POS ==>
                && pos <= |b| && Holds(t) && last < |t| && (last != 0 ==> t[last].kind != Undefined)
                && Member(b, pos0, t0, simple) == Members(b, pos, t, last, simple)
      decreases |b| - pos0, 0
    {
      hide KeyAt, Members;
      last, t := current, t0;
      var next := ParseKey(pos0, simple, t0);
      if next == INVALID_POS {
        return INVALID_POS, 0, t0;
      }
      ghost var k := KeyAt(b, pos0, simple);
      ghost var v := Value(b, next, t0, k.name, simple);
      pos := ParseValue(next, simple, t0, k.name);
      t := Extended(t0, v);
      if v.Parsed? { DefinedValue(b, next, t0, k.name, simple); }
      hide Value;
      pos := SkipWhitespace(b, pos);
      if b[pos0] != '"' && pos < |b| && b[pos] != ',' && b[pos] != '}' {
        SetSiblingOf(last, current, t);
        t := SetSibling(t, last, |t|);
        last := 0;
      }
    }

    /** The key: its name goes to the next token. */
    method ParseKey(pos0: nat, simple: bool, ghost t: seq<Token>) returns (next: nat)
      requires pos0 < |b| < INVALID_POS && Holds(t)
      modifies tokens
      ensures var k := KeyAt(b, pos0, simple);
              if k.NoKey? then next == INVALID_POS else next == k.next && Holds(t) && NextNamed(k.name)
    {
      hide StringEnd, Skip;
      var bare := b[pos0] != '"';
      if bare && !simple {
        return INVALID_POS;
      }
      var pos := if bare then pos0 else pos0 + 1;
      var length := ParseString(b, pos, true, bare);
      if length == INVALID_POS {
        return INVALID_POS;
      }
      StringSpan(b, pos, true, bare);
      SetName(pos, length);
      pos := pos + length;
      if !simple || (pos < |b| && b[pos] == '"') {
        pos := pos + 1;
      }
      pos := SkipWhitespace(b, pos);
      if At(b, pos) != ':' && (!simple || At(b, pos) != '=') {
        return INVALID_POS;
      }
      return pos + 1;
    }

    /** The empty array, or its items. */
    method ParseArrayValue(pos: nat, simple: bool, ghost t: seq<Token>, ghost name: Name) returns (r: nat)
      requires pos < |b| < INVALID_POS && Holds(t) && NextNamed(name)
      modifies this`current, tokens
      ensures Yields(ArrayValue(b, pos, t, name, simple), r)
      decreases |b| - pos, 0
    {
      hide Elements;
      var owner := current;
      SetComplex(Array, 0);
      current := current + 1;
      ghost var begun := t + [ComplexToken(name, Array, 0, owner)];
      var at := SkipWhitespace(b, pos + 1);
      if At(b, at) == ']' {
        if owner < tokens.Length {
          tokens[owner] := tokens[owner].(child := 0);
        }
        r := SkipWhitespace(b, at + 1);
      } else {
        r := ParseElements(at, owner, simple, begun);
      }
    }

    /** The loop of `json_parse_array`. */
    method ParseElements(pos0: nat, owner: nat, simple: bool, ghost t0: seq<Token>) returns (r: nat)
      requires pos0 <= |b| < INVALID_POS && Holds(t0) && owner < |t0|
      modifies this`current, tokens
      ensures Yields(Elements(b, pos0, t0, owner, 0, simple), r)
      decreases |b| - pos0, 3
    {
      hide Value, AddItem, Skip, Members, ObjectValue, ArrayValue;
      ghost var o := Elements(b, pos0, t0, owner, 0, simple);
      ghost var t := t0;
      var last: nat := 0;
      var pos := pos0;
      while pos < |b|
        invariant pos0 <= pos <= |b| && Holds(t) && owner < |t| && last < |t|
        invariant o == Elements(b, pos, t, owner, last, simple)
      {
        var now := current;
        var end: nat;
        end, t := ParseItem(pos, owner, last, now, simple, t);
        if end == INVALID_POS {
          return INVALID_POS;
        }
        last := now;
        pos := SkipWhitespace(b, end);
        if At(b, pos) == ',' {
          pos := pos + 1;
        } else if At(b, pos) == ']' {
          return pos + 1;
        } else if !simple || At(b, pos) == '}' {
          return INVALID_POS;
        }
      }
      return INVALID_POS;
    }

    /** One item: it is parsed, counted and linked. */
    method ParseItem(pos: nat, owner: nat, last: nat, now: nat, simple: bool, ghost t0: seq<Token>)
      returns (end: nat, ghost t: seq<Token>)
      requires pos <= |b| < INVALID_POS && Holds(t0) && owner < |t0| && last < |t0| && now == |t0|
      modifies this`current, tokens
      ensures var v := Value(b, pos, t0, UNNAMED, simple);
              if v.Failed? then end == INVALID_POS
              else end == v.pos && t == AddItem(v.toks, owner, last, |t0|) && Holds(t)
      decreases |b| - pos, 2
    {
      hide Value, AddItem;
      SetName(0, 0);
      t := t0;
      end := ParseValue(pos, simple, t0, UNNAMED);
      if end != INVALID_POS {
        t := Value(b, pos, t0, UNNAMED, simple).toks;
        Link(owner, last, now, t);
        t := AddItem(t, owner, last, |t0|);
      }
    }

    /** Counts the item and links it behind the last one. */
    method Link(owner: nat, last: nat, now: nat, ghost t: seq<Token>)
      requires Holds(t) && owner < |t| && last < |t|
      modifies tokens
      ensures Holds(AddItem(t, owner, last, now))
    {
      if owner < tokens.Length {
        tokens[owner] := tokens[owner].(valueLength := tokens[owner].valueLength + 1);
      }
      if last != 0 {
        if last < tokens.Length {
          tokens[last] := tokens[last].(sibling := now);
        }
      }
    }
  }

  ghost function Extended(t: seq<Token>, v: Outcome): seq<Token> {
    if v.Failed? then t else v.toks
  }

  lemma DefinedValue(b: string, pos: nat, t: seq<Token>, name: Name, simple: bool)
    requires pos <= |b| < INVALID_POS && Value(b, pos, t, name, simple).Parsed?
    ensures Value(b, pos, t, name, simple).toks[|t|].kind != Undefined
  {
    hide Value;
    JsonLinks.ValueAdded(b, pos, t, name, simple);
    assert JsonLinks.Linked(Value(b, pos, t, name, simple).toks, |t|);
  }

  /** The table holds the beginning of t. */
  ghost predicate Prefix(tokens: array<Token>, t: seq<Token>)
    reads tokens
  {
    forall i: nat :: i < |t| && i < tokens.Length ==> tokens[i] == t[i]
  }

  /** `json_parse`: the count does not depend on the size of the table. */
  method Parse(b: string, tokens: array<Token>) returns (count: nat)
    requires |b| < INVALID_POS
    modifies tokens
    ensures count == |Document(b)| && Prefix(tokens, Document(b))
  {
    hide Value;
    var p := new Parser(b, tokens);
    p.SetName(0, 0);
    p.SetPrimitive(Undefined, 0, 0);
    var r := p.ParseValue(0, false, [], UNNAMED);
    if r == INVALID_POS {
      return 0;
    }
    return p.current;
  }

  /** `sjson_parse` */
  method ParseSimple(b: string, tokens: array<Token>) returns (count: nat)
    requires |b| < INVALID_POS
    modifies tokens
    ensures var name := if tokens.Length > 0 then Name(old(tokens[0].id), old(tokens[0].idLength)) else UNNAMED;
            count == |SimpleDocument(b, name)| && Prefix(tokens, SimpleDocument(b, name))
  {
    hide Value, Members;
    ghost var name := if tokens.Length > 0 then Name(tokens[0].id, tokens[0].idLength) else UNNAMED;
    var p := new Parser(b, tokens);
    var pos := SkipWhitespace(b, 0);
    if pos < |b| && b[pos] != '{' {
      p.SetName(0, 0);
      p.SetComplex(Object, pos);
      p.current := p.current + 1;
      ghost var begun := [ComplexToken(UNNAMED, Object, pos, 0)];
      var r := p.ParseObject(pos, true, begun);
      if r == INVALID_POS {
        return 0;
      }
      ghost var o := Members(b, Skip(b, pos), begun, 0, true);
      JsonLinks.MembersAdded(b, Skip(b, pos), begun, 0, true, 1);
      assert o.toks[0] == o.toks[..1][0] == begun[0];
      if tokens.Length > 0 {
        tokens[0] := tokens[0].(valueLength := |b| - tokens[0].value);
      }
      return p.current;
    }
    var r := p.ParseValue(pos, true, [], name);
    if r == INVALID_POS {
      return 0;
    }
    return p.current;
  }

  /** Parsing again with a table of the size that the first count asks for gives every token; a smaller table had their
      beginning. */
  method ParseTwice(b: string, small: array<Token>) returns (tokens: array<Token>)
    requires |b| < INVALID_POS
    modifies small
    ensures tokens[..] == Document(b)
    ensures forall i: nat :: i < small.Length && i < tokens.Length ==> small[i] == tokens[i]
  {
    var needed := Parse(b, small);
    var blank := Token(0, 0, 0, 0, 0, 0, Undefined);
    tokens := new Token[needed](_ => blank);
    var count := Parse(b, tokens);
  }
}
