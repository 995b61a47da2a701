/** The members of objects in documents that are not simplified: the chain from the child of an object leads over its
    members, each marked with its name, and ends at the last one, whose sibling is 0, unless a comma stands in front of
    the closing brace. */
module JsonMembers {
  import opened JsonText
  import opened JsonTokens
  import opened JsonLinks
  import Spans = JsonSpans

  // ---------- How many tokens a value has ----------

  /** The same verdict, the same position behind it and as many new tokens. */
  predicate Alike(r: Outcome, n: nat, r': Outcome, n': nat) {
    && r.Parsed? == r'.Parsed?
    && (r.Parsed? ==> r.pos == r'.pos && |r.toks| - n == |r'.toks| - n')
  }

  /** What stands in the table already makes no difference. */
  lemma {:induction false} ValueAlike(b: string, pos: nat, x: seq<Token>, y: seq<Token>, name: Name, name': Name)
    requires pos <= |b| < INVALID_POS
    ensures Alike(Value(b, pos, x, name, false), |x|, Value(b, pos, y, name', false), |y|)
    decreases |b| - pos, 1
  {
    hide Skip, ObjectValue, ArrayValue, Leaf;
    var p := Skip(b, pos);
    if p < |b| {
      if b[p] == '{' {
        ObjectAlike(b, p, x, y, name, name');
      } else if b[p] == '[' {
        ArrayAlike(b, p, x, y, name, name');
      } else {
        LeafAlike(b, p, x, y, name, name');
      }
    }
  }

  lemma LeafAlike(b: string, p: nat, x: seq<Token>, y: seq<Token>, name: Name, name': Name)
    requires p < |b| < INVALID_POS
    ensures Alike(Leaf(b, p, x, name, false), |x|, Leaf(b, p, y, name', false), |y|)
  {
    hide StringEnd, NumberAt, LiteralAt;
  }

  lemma {:induction false} ObjectAlike(b: string, p: nat, x: seq<Token>, y: seq<Token>, name: Name, name': Name)
    requires p < |b| < INVALID_POS
    ensures Alike(ObjectValue(b, p, x, name, false), |x|, ObjectValue(b, p, y, name', false), |y|)
    decreases |b| - p, 0
  {
    hide Skip, Members;
    MembersAlike(b, Skip(b, p + 1), x + [ComplexToken(name, Object, p, |x|)], y + [ComplexToken(name', Object, p, |y|)],
                 0, 0);
  }

  lemma {:induction false} ArrayAlike(b: string, p: nat, x: seq<Token>, y: seq<Token>, name: Name, name': Name)
    requires p < |b| < INVALID_POS
    ensures Alike(ArrayValue(b, p, x, name, false), |x|, ArrayValue(b, p, y, name', false), |y|)
    decreases |b| - p, 0
  {
    hide Skip, Elements;
    ElementsAlike(b, Skip(b, p + 1), x + [ComplexToken(name, Array, 0, |x|)], y + [ComplexToken(name', Array, 0, |y|)],
                  |x|, |y|, 0, 0);
  }

  lemma {:induction false} ElementsAlike(b: string, pos: nat, x: seq<Token>, y: seq<Token>, owner: nat, owner': nat,
                                         last: nat, last': nat)
    requires pos <= |b| < INVALID_POS && owner < |x| && owner' < |y| && last < |x| && last' < |y|
    ensures Alike(Elements(b, pos, x, owner, last, false), |x|, Elements(b, pos, y, owner', last', false), |y|)
    decreases |b| - pos, 2
  {
    hide Skip, Value, AddItem;
    if pos < |b| {
      ValueAlike(b, pos, x, y, UNNAMED, UNNAMED);
      var v, w := Value(b, pos, x, UNNAMED, false), Value(b, pos, y, UNNAMED, false);
      if v.Parsed? && At(b, Skip(b, v.pos)) == ',' {
        ElementsAlike(b, Skip(b, v.pos) + 1, AddItem(v.toks, owner, last, |x|), AddItem(w.toks, owner', last', |y|),
                      owner, owner', |x|, |y|);
      }
    }
  }

  lemma {:induction false} MembersAlike(b: string, pos: nat, x: seq<Token>, y: seq<Token>, last: nat, last': nat)
    requires pos <= |b| < INVALID_POS && last < |x| && last' < |y| && (last == 0 <==> last' == 0)
    ensures Alike(Members(b, pos, x, last, false), |x|, Members(b, pos, y, last', false), |y|)
    decreases |b| - pos, 2
  {
    hide Skip, Member;
    if pos < |b| && b[pos] != '}' {
      if b[pos] != ',' {
        if last == 0 { MemberAlike(b, pos, x, y); }
      } else if last != 0 {
        MembersAlike(b, Skip(b, pos + 1), SetSibling(x, last, |x|), SetSibling(y, last', |y|), 0, 0);
      }
    }
  }

  lemma {:induction false} MemberAlike(b: string, pos: nat, x: seq<Token>, y: seq<Token>)
    requires pos < |b| < INVALID_POS && 0 < |x| && 0 < |y|
    ensures Alike(Member(b, pos, x, false), |x|, Member(b, pos, y, false), |y|)
    decreases |b| - pos, 1
  {
    hide Skip, Value, Members, StringEnd;
    var k := KeyAt(b, pos, false);
    if k.Key? {
      ValueAlike(b, k.next, x, y, k.name, k.name);
      var v, w := Value(b, k.next, x, k.name, false), Value(b, k.next, y, k.name, false);
      if v.Parsed? {
        MembersAlike(b, Skip(b, v.pos), v.toks, w.toks, |x|, |y|);
      }
    }
  }

  /** The number of tokens of the object at p, itself included. */
  function TokensOf(b: string, p: nat): nat
    requires |b| < INVALID_POS
  {
    if p < |b| && ObjectValue(b, p, [], UNNAMED, false).Parsed? then |ObjectValue(b, p, [], UNNAMED, false).toks| else 0
  }

  // ---------- Commas ----------

  /** The last character before pos that is not white space is a comma. */
  predicate CommaBefore(b: string, pos: nat)
    requires pos <= |b|
  {
    pos > 0 && if Whitespace(b[pos - 1]) then CommaBefore(b, pos - 1) else b[pos - 1] == ','
  }

  lemma {:induction false} SkipKeepsComma(b: string, pos: nat)
    requires pos <= |b|
    ensures CommaBefore(b, Skip(b, pos)) == CommaBefore(b, pos)
    decreases |b| - pos
  {
    if pos < |b| && Whitespace(b[pos]) {
      SkipKeepsComma(b, pos + 1);
    }
  }

  /** No value ends in a comma. */
  lemma {:induction false} ValueEnds(b: string, pos: nat, toks: seq<Token>, name: Name)
    requires pos <= |b| < INVALID_POS && Value(b, pos, toks, name, false).Parsed?
    ensures !CommaBefore(b, Value(b, pos, toks, name, false).pos)
  {
    hide Skip, Members, Elements, Leaf;
    var p := Skip(b, pos);
    var q := Skip(b, p + 1);
    if b[p] == '{' {
      MembersEnd(b, q, toks + [ComplexToken(name, Object, p, |toks|)], 0);
    } else if b[p] == '[' {
      if At(b, q) == ']' {
        SkipKeepsComma(b, q + 1);
      } else {
        ElementsEnd(b, q, toks + [ComplexToken(name, Array, 0, |toks|)], |toks|, 0);
      }
    } else {
      LeafEnds(b, p, toks, name);
    }
  }

  lemma LeafEnds(b: string, p: nat, toks: seq<Token>, name: Name)
    requires p < |b| < INVALID_POS && Leaf(b, p, toks, name, false).Parsed?
    ensures !CommaBefore(b, Leaf(b, p, toks, name, false).pos)
  {
    hide NumberLeaf, QuotedLeaf, LiteralAt, CommaBefore;
    if '0' <= b[p] <= '9' || b[p] == '-' || b[p] == '.' {
      NumberLeafEnds(b, p, toks, name);
    } else if LiteralAt(b, p) > 0 {
      LiteralEnds(b, p);
    } else {
      QuotedLeafEnds(b, p + 1, toks, name);
    }
  }

  lemma NumberLeafEnds(b: string, p: nat, toks: seq<Token>, name: Name)
    requires p < |b| < INVALID_POS && NumberLeaf(b, p, toks, name).Parsed?
    ensures !CommaBefore(b, NumberLeaf(b, p, toks, name).pos)
  {
    hide NumberEnd;
    NumberSpan(b, p, true, Seen(false, false, false));
  }

  lemma QuotedLeafEnds(b: string, p: nat, toks: seq<Token>, name: Name)
    requires p <= |b| < INVALID_POS && QuotedLeaf(b, p, toks, name).Parsed?
    ensures !CommaBefore(b, QuotedLeaf(b, p, toks, name).pos)
  {
    hide StringEnd;
    StringSpan(b, p, false, false);
  }

  lemma LiteralEnds(b: string, p: nat)
    requires p < |b| && LiteralAt(b, p) > 0
    ensures p + LiteralAt(b, p) <= |b| && !CommaBefore(b, p + LiteralAt(b, p))
  {
    var e := p + LiteralAt(b, p);
    assert b[p..e][e - p - 1] == b[e - 1];
    assert b[p..e] == "true" || b[p..e] == "false" || b[p..e] == "null";
  }

  lemma {:induction false} MembersEnd(b: string, pos: nat, toks: seq<Token>, last: nat)
    requires pos <= |b| < INVALID_POS && last < |toks| && Members(b, pos, toks, last, false).Parsed?
    ensures var r := Members(b, pos, toks, last, false); r.pos > pos && b[r.pos - 1] == '}'
    decreases |b| - pos
  {
    hide Skip, Value, KeyAt;
    if b[pos] == ',' {
      MembersEnd(b, Skip(b, pos + 1), SetSibling(toks, last, |toks|), 0);
    } else if b[pos] != '}' {
      var k := KeyAt(b, pos, false);
      Spans.NotBare(b, pos);
      var v := Value(b, k.next, toks, k.name, false);
      MembersEnd(b, Skip(b, v.pos), v.toks, |toks|);
    }
  }

  lemma {:induction false} ElementsEnd(b: string, pos: nat, toks: seq<Token>, owner: nat, last: nat)
    requires pos <= |b| < INVALID_POS && owner < |toks| && last < |toks|
    requires Elements(b, pos, toks, owner, last, false).Parsed?
    ensures var r := Elements(b, pos, toks, owner, last, false); r.pos > pos && b[r.pos - 1] == ']'
    decreases |b| - pos
  {
    hide Skip, Value;
    var v := Value(b, pos, toks, UNNAMED, false);
    var q := Skip(b, v.pos);
    if At(b, q) == ',' {
      ElementsEnd(b, q + 1, AddItem(v.toks, owner, last, |toks|), owner, |toks|);
    }
  }

  // ---------- Chains of members ----------

  /** The token is that of a value at p. */
  predicate StartsAt(b: string, t: Token, p: nat) {
    && p < |b|
    && match t.kind
       case Undefined => false
       case Object => b[p] == '{' && t.value == p
       case Array => b[p] == '['
       case Text => b[p] == '"' && t.value == p + 1
       case Primitive => t.value == p
  }

  /** The text that the token of a member marks as its name is a whole string between quotes. Behind it comes a colon,
      and behind that the member's value, with nothing but white space in between. */
  predicate NamedMember(b: string, t: Token) {
    && Spans.Quoted(b, t.id, t.idLength) && StringEnd(b, t.id, true, false) == t.id + t.idLength
    && var colon := Skip(b, t.id + t.idLength + 1);
       At(b, colon) == ':' && StartsAt(b, t, Skip(b, colon + 1))
  }

  /** From first to last in k - 1 sibling steps over members with their names. */
  ghost predicate NamedTo(b: string, t: seq<Token>, first: nat, last: nat, k: nat)
    decreases k
  {
    && k > 0
    && if k == 1 then first == last
       else exists prev: nat :: prev < last && prev < |t| && t[prev].sibling == last && NamedMember(b, t[prev])
                                && NamedTo(b, t, first, prev, k - 1)
  }

  lemma {:induction false} NamedFrame(b: string, t: seq<Token>, t': seq<Token>, first: nat, last: nat, k: nat)
    requires NamedTo(b, t, first, last, k) && last <= |t'|
    requires forall i: nat :: first <= i < last && i < |t| ==> t'[i] == t[i]
    ensures first <= last && NamedTo(b, t', first, last, k)
    decreases k
  {
    hide NamedMember;
    if k > 1 {
      var prev: nat :| prev < last && prev < |t| && t[prev].sibling == last && NamedMember(b, t[prev])
                       && NamedTo(b, t, first, prev, k - 1);
      NamedFrame(b, t, t', first, prev, k - 1);
    }
  }

  /** Some number of sibling steps leads over members from first to last. */
  ghost predicate ChainFrom(b: string, t: seq<Token>, first: nat, last: nat) {
    exists k: nat :: NamedTo(b, t, first, last, k)
  }

  lemma ChainFromFrame(b: string, t: seq<Token>, t': seq<Token>, first: nat, last: nat)
    requires ChainFrom(b, t, first, last) && last <= |t'|
    requires forall i: nat :: first <= i < last && i < |t| ==> t'[i] == t[i]
    ensures ChainFrom(b, t', first, last)
  {
    hide NamedMember;
    var k: nat :| NamedTo(b, t, first, last, k);
    NamedFrame(b, t, t', first, last, k);
  }

  /** One member further. */
  lemma ChainFromStep(b: string, t: seq<Token>, first: nat, prev: nat, last: nat)
    requires ChainFrom(b, t, first, prev) && prev < last && prev < |t| && t[prev].sibling == last
    requires NamedMember(b, t[prev])
    ensures ChainFrom(b, t, first, last)
  {
    hide NamedMember;
    var k: nat :| NamedTo(b, t, first, prev, k);
    assert NamedTo(b, t, first, last, k + 1);
  }

  lemma NamedElsewhere(b: string, t: Token, t': Token)
    requires NamedMember(b, t) && t' == t.(sibling := t'.sibling)
    ensures NamedMember(b, t')
  {
  }

  /** The member chain of the object at owner ends at m, seen from pos: behind a comma m is linked to the next token,
      whatever that will be. */
  ghost predicate Chained(b: string, t: seq<Token>, owner: nat, m: nat, pos: nat, next: nat)
    requires pos <= |b|
  {
    && owner < m < |t| && ChainFrom(b, t, owner + 1, m) && NamedMember(b, t[m])
    && t[m].sibling == if CommaBefore(b, pos) then next else 0
  }

  ghost predicate ChainEnds(b: string, t: seq<Token>, owner: nat, pos: nat, next: nat)
    requires pos <= |b|
  {
    exists m: nat :: m < next && Chained(b, t, owner, m, pos, next)
  }

  /** The members of the object at a, whose tokens end before end: none, or the chain of named values from the next
      token on, which ends with 0, or behind a trailing comma with the first token that does not belong to the
      object. */
  ghost predicate MembersChained(b: string, t: seq<Token>, a: nat, end: nat)
    requires a < |t|
  {
    && a < end <= |t| && 0 < t[a].valueLength && t[a].value + t[a].valueLength <= |b|
    && if end == a + 1 then t[a].child == 0
       else
         && t[a].child == a + 1
         && ChainEnds(b, t, a, t[a].value + t[a].valueLength - 1, end)
  }

  ghost predicate ObjectsLinked(b: string, t: seq<Token>, lo: nat, hi: nat)
    requires |b| < INVALID_POS && hi <= |t|
  {
    forall a: nat :: lo <= a < hi && t[a].kind == Object ==>
                       var end := a + TokensOf(b, t[a].value); end <= hi && MembersChained(b, t, a, end)
  }

  lemma ChainedFrame(b: string, t: seq<Token>, t': seq<Token>, owner: nat, m: nat, pos: nat, next: nat)
    requires pos <= |b| && Chained(b, t, owner, m, pos, next) && m < |t'|
    requires forall i: nat :: owner < i <= m ==> t'[i] == t[i]
    ensures Chained(b, t', owner, m, pos, next)
  {
    hide NamedMember;
    ChainFromFrame(b, t, t', owner + 1, m);
  }

  lemma ObjectFrame(b: string, t: seq<Token>, t': seq<Token>, a: nat, end: nat)
    requires a < end <= |t| && end <= |t'| && MembersChained(b, t, a, end)
    requires t'[a] == t[a].(sibling := t'[a].sibling) && forall i: nat :: a < i < end ==> t'[i] == t[i]
    ensures MembersChained(b, t', a, end)
  {
    hide Chained;
    if end != a + 1 {
      var pos := t'[a].value + t'[a].valueLength - 1;
      var m: nat :| m < end && Chained(b, t, a, m, pos, end);
      ChainedIn(b, t, a, m, pos, end);
      ChainedFrame(b, t, t', a, m, pos, end);
    }
  }

  lemma ChainedIn(b: string, t: seq<Token>, owner: nat, m: nat, pos: nat, next: nat)
    requires pos <= |b| && Chained(b, t, owner, m, pos, next)
    ensures owner < m < |t|
  {
  }

  lemma ObjectsFrame(b: string, t: seq<Token>, t': seq<Token>, lo: nat, hi: nat)
    requires |b| < INVALID_POS && hi <= |t| && hi <= |t'| && ObjectsLinked(b, t, lo, hi) && SameBut(t, t', lo, hi)
    ensures ObjectsLinked(b, t', lo, hi)
  {
    hide TokensOf, Chained;
    forall a: nat | lo <= a < hi && t'[a].kind == Object
      ensures var end := a + TokensOf(b, t'[a].value); end <= hi && MembersChained(b, t', a, end)
    {
      ObjectFrame(b, t, t', a, a + TokensOf(b, t[a].value));
    }
  }

  lemma ObjectsPrefix(b: string, t: seq<Token>, u: seq<Token>, lo: nat)
    requires |b| < INVALID_POS && |t| <= |u| && u[..|t|] == t && ObjectsLinked(b, t, lo, |t|)
    ensures ObjectsLinked(b, u, lo, |t|)
  {
    assert forall i: nat :: i < |t| ==> u[i] == u[..|t|][i];
    ObjectsFrame(b, t, u, lo, |t|);
  }

  /** The object at owner while its members are being read, the text up to pos is read, and the last member stands at
      last, 0 behind a comma or at the start. */
  ghost predicate Reading(b: string, t: seq<Token>, owner: nat, pos: nat, last: nat)
    requires |b| < INVALID_POS && pos <= |b|
  {
    && owner < |t|
    && if last != 0 then
         && owner < last < |t| && !CommaBefore(b, pos) && Chained(b, t, owner, last, pos, |t|)
         && ObjectsLinked(b, t, owner + 1, last) && ObjectsLinked(b, t, last, |t|)
       else
         && ObjectsLinked(b, t, owner + 1, |t|)
         && (|t| == owner + 1 || (CommaBefore(b, pos) && ChainEnds(b, t, owner, pos, |t|)))
  }

  /** All members are read up to the brace at pos. */
  ghost predicate MembersRead(b: string, t: seq<Token>, owner: nat, pos: nat)
    requires |b| < INVALID_POS && pos <= |b|
  {
    && owner < |t| && ObjectsLinked(b, t, owner + 1, |t|)
    && (|t| == owner + 1 || ChainEnds(b, t, owner, pos, |t|))
  }

  lemma ObjectsJoin(b: string, t: seq<Token>, lo: nat, mid: nat, hi: nat)
    requires |b| < INVALID_POS && lo <= mid <= hi <= |t|
    requires ObjectsLinked(b, t, lo, mid) && ObjectsLinked(b, t, mid, hi)
    ensures ObjectsLinked(b, t, lo, hi)
  {
    hide TokensOf, MembersChained;
  }

  /** A comma behind the last member. */
  lemma ReadComma(b: string, t: seq<Token>, owner: nat, pos: nat, last: nat)
    requires pos < |b| < INVALID_POS && b[pos] == ',' && last != 0 && Reading(b, t, owner, pos, last)
    ensures Reading(b, SetSibling(t, last, |t|), owner, Skip(b, pos + 1), 0)
  {
    hide ObjectsLinked, NamedMember;
    var t' := SetSibling(t, last, |t|);
    SkipKeepsComma(b, pos + 1);
    ObjectsFrame(b, t, t', owner + 1, last);
    ObjectsFrame(b, t, t', last, |t|);
    ObjectsJoin(b, t', owner + 1, last, |t|);
    ChainFromFrame(b, t, t', owner + 1, last);
    NamedElsewhere(b, t[last], t'[last]);
    assert Chained(b, t', owner, last, Skip(b, pos + 1), |t|);
  }

  /** One more member, with the value u added behind t. */
  lemma ReadMember(b: string, t: seq<Token>, u: seq<Token>, owner: nat, pos: nat, next: nat)
    requires |b| < INVALID_POS && pos <= |b| && next <= |b| && Reading(b, t, owner, pos, 0)
    requires |t| < |u| && u[..|t|] == t && u[|t|].sibling == 0 && ObjectsLinked(b, u, |t|, |u|) && !CommaBefore(b, next)
    requires NamedMember(b, u[|t|])
    ensures Reading(b, u, owner, next, |t|)
  {
    hide ObjectsLinked, NamedMember;
    ObjectsPrefix(b, t, u, owner + 1);
    assert forall i: nat :: i < |t| ==> u[i] == u[..|t|][i];
    if |t| == owner + 1 {
      assert NamedTo(b, u, owner + 1, |t|, 1);
    } else {
      var m: nat :| m < |t| && Chained(b, t, owner, m, pos, |t|);
      ChainFromFrame(b, t, u, owner + 1, m);
      ChainFromStep(b, u, owner + 1, m, |t|);
    }
  }

  /** Closing the object. */
  lemma Close(b: string, before: seq<Token>, t: seq<Token>, name: Name, p: nat, pos: nat)
    requires |b| < INVALID_POS && p < pos < |b| && |before| + 1 <= |t| && MembersRead(b, t, |before|, pos)
    requires t[|before|] == ComplexToken(name, Object, p, |before|)
    requires |t| == |before| + TokensOf(b, p)
    ensures ObjectsLinked(b, CloseObject(t, |before|, p, pos + 1), |before|, |t|)
  {
    hide TokensOf, NamedMember, ChainFrom, CommaBefore;
    var a := |before|;
    var t' := CloseObject(t, a, p, pos + 1);
    ObjectsFrame(b, t, t', a + 1, |t|);
    if |t| != a + 1 {
      var m: nat :| m < |t| && Chained(b, t, a, m, pos, |t|);
      ChainedFrame(b, t, t', a, m, pos, |t|);
      assert ChainEnds(b, t', a, pos, |t|);
    }
    assert MembersChained(b, t', a, |t|);
  }

  // ---------- Names ----------

  /** The key at pos: the text between its quotes, and the colon behind it. */
  lemma KeyNamed(b: string, pos: nat)
    requires pos < |b| < INVALID_POS && KeyAt(b, pos, false).Key?
    ensures var k := KeyAt(b, pos, false);
            && b[pos] == '"' && k.name.at == pos + 1 && Spans.Quoted(b, k.name.at, k.name.length)
            && StringEnd(b, k.name.at, true, false) == k.name.at + k.name.length
            && k.next == Skip(b, k.name.at + k.name.length + 1) + 1 && b[k.next - 1] == ':'
  {
    hide StringEnd, Skip;
    StringSpan(b, pos + 1, true, false);
  }

  lemma {:induction false} ElementsOwner(b: string, pos: nat, toks: seq<Token>, owner: nat, last: nat)
    requires pos <= |b| < INVALID_POS && owner < |toks| && last < |toks|
    requires Elements(b, pos, toks, owner, last, false).Parsed?
    ensures Elements(b, pos, toks, owner, last, false).toks[owner].kind == toks[owner].kind
    decreases |b| - pos
  {
    hide Skip, Value;
    var v := Value(b, pos, toks, UNNAMED, false);
    ValueFirst(b, pos, toks, UNNAMED);
    assert v.toks[owner] == v.toks[..|toks|][owner];
    var q := Skip(b, v.pos);
    if At(b, q) == ',' {
      ElementsOwner(b, q + 1, AddItem(v.toks, owner, last, |toks|), owner, |toks|);
    }
  }

  /** The first token of a value says where it starts. */
  lemma ValueStarts(b: string, pos: nat, toks: seq<Token>, name: Name)
    requires pos <= |b| < INVALID_POS && Value(b, pos, toks, name, false).Parsed?
    ensures StartsAt(b, Value(b, pos, toks, name, false).toks[|toks|], Skip(b, pos))
  {
    hide Members, Elements, Skip, Leaf;
    var p := Skip(b, pos);
    var q := Skip(b, p + 1);
    if b[p] == '{' {
      var begun := toks + [ComplexToken(name, Object, p, |toks|)];
      MembersAdded(b, q, begun, 0, false, |begun|);
      assert Members(b, q, begun, 0, false).toks[|toks|] == Members(b, q, begun, 0, false).toks[..|begun|][|toks|];
    } else if b[p] == '[' {
      if At(b, q) != ']' {
        ElementsOwner(b, q, toks + [ComplexToken(name, Array, 0, |toks|)], |toks|, 0);
      }
    } else {
      LeafStarts(b, p, toks, name);
    }
  }

  lemma LeafStarts(b: string, p: nat, toks: seq<Token>, name: Name)
    requires p < |b| < INVALID_POS && Leaf(b, p, toks, name, false).Parsed?
    ensures StartsAt(b, Leaf(b, p, toks, name, false).toks[|toks|], p)
  {
    hide StringEnd, NumberAt, LiteralAt;
  }

  lemma MemberNamed(b: string, pos: nat, toks: seq<Token>)
    requires pos < |b| < INVALID_POS && KeyAt(b, pos, false).Key?
    requires var k := KeyAt(b, pos, false); Value(b, k.next, toks, k.name, false).Parsed?
    ensures var k := KeyAt(b, pos, false); NamedMember(b, Value(b, k.next, toks, k.name, false).toks[|toks|])
  {
    hide KeyAt, Value, StringEnd, Skip, StartsAt;
    var k := KeyAt(b, pos, false);
    KeyNamed(b, pos);
    ValueAdded(b, k.next, toks, k.name, false);
    ValueStarts(b, k.next, toks, k.name);
  }

  // ---------- Every object ----------

  lemma {:induction false} ValueObjects(b: string, pos: nat, toks: seq<Token>, name: Name)
    requires pos <= |b| < INVALID_POS && Value(b, pos, toks, name, false).Parsed?
    ensures var t := Value(b, pos, toks, name, false).toks; ObjectsLinked(b, t, |toks|, |t|)
    decreases |b| - pos, 1
  {
    hide Skip, ObjectValue, ArrayValue, Leaf, MembersChained, TokensOf;
    var p := Skip(b, pos);
    if b[p] == '{' {
      ObjectMembers(b, p, toks, name);
    } else if b[p] == '[' {
      ArrayObjects(b, p, toks, name);
    } else {
      LeafNoObject(b, p, toks, name);
    }
  }

  lemma LeafNoObject(b: string, p: nat, toks: seq<Token>, name: Name)
    requires p < |b| < INVALID_POS && Leaf(b, p, toks, name, false).Parsed?
    ensures var t := Leaf(b, p, toks, name, false).toks; |t| == |toks| + 1 && t[|toks|].kind != Object
  {
    hide StringEnd, NumberAt, LiteralAt;
  }

  /** The object at p and every object in it: the last member's sibling is 0 if and only if no comma stands in front of
      the closing brace, and otherwise the index of the first token behind the object. */
  lemma {:induction false} ObjectMembers(b: string, p: nat, toks: seq<Token>, name: Name)
    requires p < |b| < INVALID_POS && ObjectValue(b, p, toks, name, false).Parsed?
    ensures var t := ObjectValue(b, p, toks, name, false).toks;
            |t| == |toks| + TokensOf(b, p) && ObjectsLinked(b, t, |toks|, |t|)
    decreases |b| - p, 0
  {
    hide Members, Skip, TokensOf, ObjectsLinked, Chained;
    var begun := toks + [ComplexToken(name, Object, p, |toks|)];
    var o := Members(b, Skip(b, p + 1), begun, 0, false);
    NoneLinked(b, begun);
    MembersEnd(b, Skip(b, p + 1), begun, 0);
    MembersObjects(b, Skip(b, p + 1), begun, |toks|, 0);
    ObjectSize(b, p, toks, name);
    Close(b, toks, o.toks, name, p, o.pos - 1);
  }

  lemma ObjectSize(b: string, p: nat, toks: seq<Token>, name: Name)
    requires p < |b| < INVALID_POS && ObjectValue(b, p, toks, name, false).Parsed?
    ensures |ObjectValue(b, p, toks, name, false).toks| == |toks| + TokensOf(b, p)
  {
    hide ObjectValue;
    ObjectAlike(b, p, toks, [], name, UNNAMED);
  }

  lemma NoneLinked(b: string, t: seq<Token>)
    requires |b| < INVALID_POS
    ensures ObjectsLinked(b, t, |t|, |t|)
  {
  }

  lemma {:induction false} MembersObjects(b: string, pos: nat, toks: seq<Token>, owner: nat, last: nat)
    requires pos <= |b| < INVALID_POS && last < |toks| && Members(b, pos, toks, last, false).Parsed?
    requires Reading(b, toks, owner, pos, last)
    ensures var o := Members(b, pos, toks, last, false);
            && 0 < o.pos <= |b| && MembersRead(b, o.toks, owner, o.pos - 1)
            && o.toks[owner] == toks[owner]
    decreases |b| - pos, 2
  {
    hide Skip, KeyAt, Value, ObjectsLinked, Chained, NamedMember;
    if b[pos] == '}' {
      if last != 0 { ObjectsJoin(b, toks, owner + 1, last, |toks|); }
    } else if b[pos] == ',' {
      ReadComma(b, toks, owner, pos, last);
      MembersObjects(b, Skip(b, pos + 1), SetSibling(toks, last, |toks|), owner, 0);
    } else {
      var k := KeyAt(b, pos, false);
      Spans.NotBare(b, pos);
      var v := Value(b, k.next, toks, k.name, false);
      ValueObjects(b, k.next, toks, k.name);
      ValueFirst(b, k.next, toks, k.name);
      ValueEnds(b, k.next, toks, k.name);
      MemberNamed(b, pos, toks);
      SkipKeepsComma(b, v.pos);
      ReadMember(b, toks, v.toks, owner, pos, Skip(b, v.pos));
      MembersObjects(b, Skip(b, v.pos), v.toks, owner, |toks|);
      assert v.toks[owner] == v.toks[..|toks|][owner];
    }
  }

  lemma ValueFirst(b: string, pos: nat, toks: seq<Token>, name: Name)
    requires pos <= |b| < INVALID_POS && Value(b, pos, toks, name, false).Parsed?
    ensures var t := Value(b, pos, toks, name, false).toks;
            |toks| < |t| && t[..|toks|] == toks && t[|toks|].sibling == 0
  {
    hide Value;
    ValueAdded(b, pos, toks, name, false);
  }

  lemma {:induction false} ArrayObjects(b: string, p: nat, toks: seq<Token>, name: Name)
    requires p < |b| < INVALID_POS && ArrayValue(b, p, toks, name, false).Parsed?
    ensures var t := ArrayValue(b, p, toks, name, false).toks; ObjectsLinked(b, t, |toks|, |t|)
    decreases |b| - p, 0
  {
    hide Skip, Elements, MembersChained, TokensOf;
    var q := Skip(b, p + 1);
    var started := toks + [ComplexToken(name, Array, 0, |toks|)];
    if At(b, q) != ']' {
      ElementsObjects(b, q, started, |toks|, 0);
    }
  }

  /** The items of the array at owner: the objects in all but the last are finished, and so are those in the last. */
  lemma {:induction false} ElementsObjects(b: string, pos: nat, toks: seq<Token>, owner: nat, last: nat)
    requires pos <= |b| < INVALID_POS && owner < |toks| && last < |toks| && (last == 0 || owner < last)
    requires Elements(b, pos, toks, owner, last, false).Parsed? && toks[owner].kind == Array
    requires ObjectsLinked(b, toks, owner + 1, if last == 0 then |toks| else last)
    requires last != 0 ==> ObjectsLinked(b, toks, last, |toks|)
    ensures var t := Elements(b, pos, toks, owner, last, false).toks; ObjectsLinked(b, t, owner, |t|)
    decreases |b| - pos, 2
  {
    hide Skip, Value, ObjectsLinked;
    var v := Value(b, pos, toks, UNNAMED, false);
    ValueObjects(b, pos, toks, UNNAMED);
    ValueFirst(b, pos, toks, UNNAMED);
    var t, q := AddItem(v.toks, owner, last, |toks|), Skip(b, v.pos);
    ItemObjects(b, toks, v.toks, owner, last);
    if At(b, q) == ',' {
      ElementsObjects(b, q + 1, t, owner, |toks|);
    } else {
      ObjectsJoin(b, t, owner + 1, |toks|, |t|);
      ArrayNoObject(b, t, owner);
    }
  }

  lemma ItemObjects(b: string, t: seq<Token>, u: seq<Token>, owner: nat, last: nat)
    requires |b| < INVALID_POS && owner < |t| < |u| && last < |t| && (last == 0 || owner < last) && u[..|t|] == t
    requires ObjectsLinked(b, t, owner + 1, if last == 0 then |t| else last)
    requires (last != 0 ==> ObjectsLinked(b, t, last, |t|)) && ObjectsLinked(b, u, |t|, |u|) && t[owner].kind == Array
    ensures var t' := AddItem(u, owner, last, |t|);
            && ObjectsLinked(b, t', owner + 1, |t|) && ObjectsLinked(b, t', |t|, |u|) && t'[owner].kind == Array
  {
    hide ObjectsLinked;
    var t' := AddItem(u, owner, last, |t|);
    assert forall i: nat :: i < |t| ==> u[i] == u[..|t|][i];
    ObjectsFrame(b, u, t', |t|, |u|);
    if last == 0 {
      ObjectsFrame(b, t, t', owner + 1, |t|);
    } else {
      ObjectsFrame(b, t, t', owner + 1, last);
      ObjectsFrame(b, t, t', last, |t|);
      ObjectsJoin(b, t', owner + 1, last, |t|);
    }
  }

  lemma ArrayNoObject(b: string, t: seq<Token>, owner: nat)
    requires |b| < INVALID_POS && owner < |t| && t[owner].kind == Array && ObjectsLinked(b, t, owner + 1, |t|)
    ensures ObjectsLinked(b, t, owner, |t|)
  {
  }

  /** Every object of a document. */
  lemma DocumentMembers(b: string)
    requires |b| < INVALID_POS
    ensures var t := Document(b); ObjectsLinked(b, t, 0, |t|)
  {
    hide Value, MembersChained, TokensOf;
    var v := Value(b, 0, [], UNNAMED, false);
    if v.Parsed? {
      ValueObjects(b, 0, [], UNNAMED);
    }
  }
}
