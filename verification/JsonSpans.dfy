/** The parts of the text that the tokens of a document mark. */
module JsonSpans {
  import opened JsonText
  import opened JsonTokens

  predicate Quoted(b: string, at: nat, length: nat) {
    0 < at && at + length < |b| && b[at - 1] == '"' && b[at + length] == '"'
  }

  /** Strings stand between quotes, objects between braces; a primitive is a number or a literal that ends at a
      delimiter; names stand between quotes and before a colon. */
  predicate Marks(b: string, t: Token) {
    && (t.id == t.idLength == 0 || Quoted(b, t.id, t.idLength))
    && match t.kind
       case Undefined => false
       case Object => t.valueLength > 1 && t.value + t.valueLength <= |b| && b[t.value] == '{'
           && b[t.value + t.valueLength - 1] == '}'
       case Array => t.value == 0
       case Text => Quoted(b, t.value, t.valueLength)
       case Primitive => PrimitiveSpan(b, t.value, t.valueLength)
  }

  predicate PrimitiveSpan(b: string, at: nat, length: nat) {
    && 0 < length && at + length <= |b| && (at + length < |b| ==> Delimiter(b[at + length]))
    && (b[at..at + length] in ["true", "false", "null"] || forall i :: at <= i < at + length ==> NumberChar(b[i]))
  }

  ghost predicate AllMark(b: string, t: seq<Token>, lo: nat) {
    forall i: nat :: lo <= i < |t| ==> Marks(b, t[i])
  }

  lemma LeafMarks(b: string, pos: nat, toks: seq<Token>, name: Name)
    requires pos < |b| < INVALID_POS && Leaf(b, pos, toks, name, false).Parsed? && Named(b, name)
    ensures Marks(b, Leaf(b, pos, toks, name, false).toks[|toks|])
  {
    hide NumberEnd, StringEnd;
    if '0' <= b[pos] <= '9' || b[pos] == '-' || b[pos] == '.' {
      NumberSpan(b, pos, true, Seen(false, false, false));
    } else if LiteralAt(b, pos) > 0 {
    } else {
      StringSpan(b, pos + 1, false, false);
    }
  }

  predicate Named(b: string, name: Name) {
    name == UNNAMED || Quoted(b, name.at, name.length)
  }

  lemma KeyMarks(b: string, pos: nat)
    requires pos < |b| < INVALID_POS && KeyAt(b, pos, false).Key?
    ensures Named(b, KeyAt(b, pos, false).name) && b[KeyAt(b, pos, false).next - 1] == ':'
  {
    hide StringEnd, Skip;
    StringSpan(b, pos + 1, true, false);
  }

  /** A value adds tokens that mark their text and keeps the others. */
  ghost predicate AddsMarks(b: string, before: seq<Token>, t: seq<Token>) {
    |before| <= |t| && t[..|before|] == before && AllMark(b, t, |before|)
  }

  lemma {:induction false} ValueMarks(b: string, pos: nat, toks: seq<Token>, name: Name)
    requires pos <= |b| < INVALID_POS && Value(b, pos, toks, name, false).Parsed? && Named(b, name)
    ensures AddsMarks(b, toks, Value(b, pos, toks, name, false).toks)
    decreases |b| - pos, 1
  {
    var p := Skip(b, pos);
    if b[p] == '{' {
      hide Leaf, Skip, Members, Marks;
      var started := toks + [ComplexToken(name, Object, p, |toks|)];
      var o := Members(b, Skip(b, p + 1), started, 0, false);
      MembersMark(b, Skip(b, p + 1), started, 0, |started|);
      ObjectMarks(b, p, o.pos, toks, o.toks, name);
    } else if b[p] == '[' {
      hide Leaf, Skip, Elements, Marks;
      var q := Skip(b, p + 1);
      var started := toks + [ComplexToken(name, Array, 0, |toks|)];
      assert Marks(b, started[|toks|]) by { ArrayMarks(b, started[|toks|]); }
      if At(b, q) == ']' {
        ArrayMarks(b, NoItems(started, |toks|)[|toks|]);
      } else {
        ElementsMark(b, q, started, |toks|, 0, |toks|);
      }
    } else {
      hide Marks;
      LeafMarks(b, p, toks, name);
    }
  }

  lemma ArrayMarks(b: string, t: Token)
    requires t.kind == Array && t.value == 0 && (t.id == t.idLength == 0 || Quoted(b, t.id, t.idLength))
    ensures Marks(b, t)
  {
  }

  lemma ObjectMarks(b: string, p: nat, pos: nat, before: seq<Token>, t: seq<Token>, name: Name)
    requires p + 1 < pos <= |b| && b[p] == '{' && b[pos - 1] == '}' && Named(b, name)
    requires |before| < |t| && t[..|before| + 1] == before + [ComplexToken(name, Object, p, |before|)]
        && AllMark(b, t, |before| + 1)
    ensures AddsMarks(b, before, CloseObject(t, |before|, p, pos))
  {
    assert forall i: nat :: i <= |before| ==> t[i] == t[..|before| + 1][i];
  }

  /** Setting a sibling or counting an item changes nothing that is marked. */
  lemma SiblingMarks(b: string, t: seq<Token>, last: nat, to: nat, lo: nat)
    requires lo <= last < |t| && AllMark(b, t, lo)
    ensures AllMark(b, SetSibling(t, last, to), lo) && SetSibling(t, last, to)[..lo] == t[..lo]
  {
  }

  lemma ItemMarks(b: string, t: seq<Token>, owner: nat, last: nat, now: nat, lo: nat)
    requires lo <= owner < |t| && last < |t| && (last == 0 || lo <= last) && t[owner].kind == Array && AllMark(b, t, lo)
    ensures AllMark(b, AddItem(t, owner, last, now), lo) && AddItem(t, owner, last, now)[..lo] == t[..lo]
    ensures AddItem(t, owner, last, now)[owner].kind == Array
  {
  }

  lemma MarksJoin(b: string, before: seq<Token>, t: seq<Token>, lo: nat)
    requires lo <= |before| && AllMark(b, before, lo) && AddsMarks(b, before, t)
    ensures AllMark(b, t, lo) && t[..lo] == before[..lo]
  {
    hide Marks;
    assert forall i: nat :: i < |before| ==> t[i] == t[..|before|][i];
  }

  lemma {:induction false} ElementsMark(b: string, pos: nat, toks: seq<Token>, owner: nat, last: nat, lo: nat)
    requires pos <= |b| < INVALID_POS && lo <= owner < |toks| && last < |toks| && (last == 0 || lo <= last)
    requires Elements(b, pos, toks, owner, last, false).Parsed? && toks[owner].kind == Array && AllMark(b, toks, lo)
    ensures var t := Elements(b, pos, toks, owner, last, false).toks;
            lo <= |t| && t[..lo] == toks[..lo] && AllMark(b, t, lo)
    decreases |b| - pos, 2
  {
    hide Marks, Skip, Value, AllMark, AddItem;
    var v := Value(b, pos, toks, UNNAMED, false);
    ValueMarks(b, pos, toks, UNNAMED);
    assert v.toks[owner] == v.toks[..|toks|][owner] == toks[owner];
    MarksJoin(b, toks, v.toks, lo);
    ItemMarks(b, v.toks, owner, last, |toks|, lo);
    var t, q := AddItem(v.toks, owner, last, |toks|), Skip(b, v.pos);
    if At(b, q) == ',' {
      ElementsMark(b, q + 1, t, owner, |toks|, lo);
    }
  }

  lemma {:induction false} MembersMark(b: string, pos: nat, toks: seq<Token>, last: nat, lo: nat)
    requires pos <= |b| < INVALID_POS && last < |toks| && lo <= |toks| && (last == 0 || lo <= last)
    requires Members(b, pos, toks, last, false).Parsed? && AllMark(b, toks, lo)
    ensures var o := Members(b, pos, toks, last, false);
            && pos < o.pos && b[o.pos - 1] == '}' && lo <= |o.toks| && o.toks[..lo] == toks[..lo]
                && AllMark(b, o.toks, lo)
    decreases |b| - pos, 2
  {
    hide Marks, Skip, Value, AllMark, KeyAt;
    if b[pos] == '}' {
    } else if b[pos] == ',' {
      SiblingMarks(b, toks, last, |toks|, lo);
      MembersMark(b, Skip(b, pos + 1), SetSibling(toks, last, |toks|), 0, lo);
    } else {
      var k := KeyAt(b, pos, false);
      NotBare(b, pos);
      KeyMarks(b, pos);
      var v := Value(b, k.next, toks, k.name, false);
      ValueMarks(b, k.next, toks, k.name);
      MarksJoin(b, toks, v.toks, lo);
      MembersMark(b, Skip(b, v.pos), v.toks, |toks|, lo);
    }
  }

  lemma NotBare(b: string, pos: nat)
    requires pos < |b| < INVALID_POS && KeyAt(b, pos, false).Key?
    ensures b[pos] == '"'
  {
  }

  /** Every token of a document marks its text. */
  lemma DocumentMarks(b: string)
    requires |b| < INVALID_POS
    ensures AllMark(b, Document(b), 0)
  {
    var v := Value(b, 0, [], UNNAMED, false);
    if v.Parsed? {
      ValueMarks(b, 0, [], UNNAMED);
    }
  }
}
