/** The links between the tokens of a parsed document: children and siblings point forward and not behind the end, and
    an array's chain of items is as long as it says. */
module JsonLinks {
  import opened JsonText
  import opened JsonTokens

  /** A child is the next token; a sibling is a later one, at most the first unused. */
  predicate Linked(t: seq<Token>, i: nat)
    requires i < |t|
  {
    && t[i].kind != Undefined
    && (t[i].child == 0 || (t[i].child == i + 1 < |t| && (t[i].kind == Object || t[i].kind == Array)))
    && (t[i].sibling == 0 || i < t[i].sibling <= |t|)
  }

  ghost predicate AllLinked(t: seq<Token>, lo: nat) {
    forall i: nat :: lo <= i < |t| ==> Linked(t, i)
  }

  /** From first to last in k - 1 sibling steps, all forward. */
  ghost predicate ChainTo(t: seq<Token>, first: nat, last: nat, k: nat)
    decreases k
  {
    && k > 0
    && if k == 1 then first == last
       else exists prev: nat :: prev < last && prev < |t| && t[prev].sibling == last && ChainTo(t, first, prev, k - 1)
  }

  /** The items of an array are the chain from its child on, inside hi. */
  ghost predicate ItemsChained(t: seq<Token>, a: nat, hi: nat)
    requires a < hi <= |t|
  {
    if t[a].valueLength == 0 then t[a].child == 0
    else
      && t[a].child == a + 1
      && exists last: nat :: a < last < hi && t[last].sibling == 0 && ChainTo(t, a + 1, last, t[a].valueLength)
  }

  ghost predicate Counted(t: seq<Token>, lo: nat, hi: nat)
    requires hi <= |t|
  {
    forall a: nat :: lo <= a < hi && t[a].kind == Array ==> ItemsChained(t, a, hi)
  }

  /** A value written behind other tokens: those stay, and what it adds is well formed. */
  ghost predicate Added(before: seq<Token>, t: seq<Token>) {
    && |before| < |t| && t[..|before|] == before && t[|before|].sibling == 0
    && AllLinked(t, |before|) && Counted(t, |before|, |t|)
  }

  // ---------- Chains ----------

  lemma {:induction false} ChainOrder(t: seq<Token>, first: nat, last: nat, k: nat)
    requires ChainTo(t, first, last, k)
    ensures first <= last && (k > 1 ==> first < last)
    decreases k
  {
    if k > 1 {
      var prev: nat :| prev < last && prev < |t| && t[prev].sibling == last && ChainTo(t, first, prev, k - 1);
      ChainOrder(t, first, prev, k - 1);
    }
  }

  lemma {:induction false} ChainFrame(t: seq<Token>, t': seq<Token>, first: nat, last: nat, k: nat)
    requires ChainTo(t, first, last, k) && last <= |t'|
    requires forall i: nat :: first <= i < last && i < |t| ==> t'[i].sibling == t[i].sibling
    ensures ChainTo(t', first, last, k)
    decreases k
  {
    if k > 1 {
      var prev: nat :| prev < last && prev < |t| && t[prev].sibling == last && ChainTo(t, first, prev, k - 1);
      ChainOrder(t, first, prev, k - 1);
      ChainFrame(t, t', first, prev, k - 1);
    }
  }

  /** Inside [lo, hi), t' differs from t at most in the sibling of lo. */
  ghost predicate SameBut(t: seq<Token>, t': seq<Token>, lo: nat, hi: nat)
    requires hi <= |t| && hi <= |t'|
  {
    && (forall i: nat :: lo < i < hi ==> t'[i] == t[i])
    && (lo < hi ==> t'[lo] == t[lo].(sibling := t'[lo].sibling))
  }

  lemma CountedFrame(t: seq<Token>, t': seq<Token>, lo: nat, hi: nat)
    requires hi <= |t| && hi <= |t'| && Counted(t, lo, hi) && SameBut(t, t', lo, hi)
    ensures Counted(t', lo, hi)
  {
    forall a: nat | lo <= a < hi && t'[a].kind == Array ensures ItemsChained(t', a, hi) {
      if t[a].valueLength > 0 {
        var last: nat :| a < last < hi && t[last].sibling == 0 && ChainTo(t, a + 1, last, t[a].valueLength);
        ChainFrame(t, t', a + 1, last, t[a].valueLength);
      }
    }
  }

  lemma CountedJoin(t: seq<Token>, lo: nat, mid: nat, hi: nat)
    requires lo <= mid <= hi <= |t| && Counted(t, lo, mid) && Counted(t, mid, hi)
    ensures Counted(t, lo, hi)
  {
    forall a: nat | lo <= a < hi && t[a].kind == Array ensures ItemsChained(t, a, hi) {
      if a < mid && t[a].valueLength > 0 {
        var last: nat :| a < last < mid && t[last].sibling == 0 && ChainTo(t, a + 1, last, t[a].valueLength);
      }
    }
  }

  // ---------- What holds while an object or an array is being read ----------

  /** The tokens from lo on are well formed; the part that starts at last (0: none) is the one that may still get a
      sibling. */
  ghost predicate Parts(t: seq<Token>, lo: nat, last: nat) {
    && 0 < lo <= |t| && AllLinked(t, lo)
    && if last == 0 then Counted(t, lo, |t|) else lo <= last < |t| && Counted(t, lo, last) && Counted(t, last, |t|)
  }

  /** Linking the last part to the next token closes it. */
  lemma PartsLink(t: seq<Token>, lo: nat, last: nat)
    requires Parts(t, lo, last) && last != 0
    ensures Parts(SetSibling(t, last, |t|), lo, 0) && SetSibling(t, last, |t|)[..lo] == t[..lo]
  {
    var t' := SetSibling(t, last, |t|);
    CountedFrame(t, t', lo, last);
    CountedFrame(t, t', last, |t|);
    CountedJoin(t', lo, last, |t|);
    assert AllLinked(t', lo) by {
      forall i: nat | lo <= i < |t'| ensures Linked(t', i) {
        assert Linked(t, i);
      }
    }
  }

  /** A value becomes the next part. */
  lemma PartsAdd(t: seq<Token>, u: seq<Token>, lo: nat)
    requires Parts(t, lo, 0) && Added(t, u)
    ensures Parts(u, lo, |t|) && u[..lo] == t[..lo]
  {
    assert forall i: nat :: i < |t| ==> u[i] == u[..|t|][i];
    CountedFrame(t, u, lo, |t|);
    LinkedAdd(t, u, lo);
  }

  lemma LinkedAdd(t: seq<Token>, u: seq<Token>, lo: nat)
    requires AllLinked(t, lo) && |t| <= |u| && u[..|t|] == t && AllLinked(u, |t|)
    ensures AllLinked(u, lo)
  {
    forall i: nat | lo <= i < |u| ensures Linked(u, i) {
      if i < |t| {
        assert u[i] == u[..|t|][i];
        assert Linked(t, i);
      }
    }
  }

  /** The array at owner while its items are being read. */
  ghost predicate Filling(t: seq<Token>, owner: nat, last: nat) {
    && owner < |t| && t[owner].kind == Array && t[owner].child == owner + 1 && Parts(t, owner + 1, last)
    && if last == 0 then |t| == owner + 1 && t[owner].valueLength == 0
       else t[last].sibling == 0 && ChainTo(t, owner + 1, last, t[owner].valueLength)
  }

  lemma FillingAdd(t: seq<Token>, u: seq<Token>, owner: nat, last: nat)
    requires Filling(t, owner, last) && Added(t, u)
    ensures Filling(AddItem(u, owner, last, |t|), owner, |t|)
    ensures AddItem(u, owner, last, |t|)[..owner] == t[..owner]
    ensures AddItem(u, owner, last, |t|)[owner] == t[owner].(valueLength := t[owner].valueLength + 1)
  {
    var n := |t|;
    var t' := AddItem(u, owner, last, n);
    assert forall i: nat :: i < n ==> u[i] == u[..n][i];
    LinkedAdd(t, u, owner + 1);
    AddItemLinked(u, owner, last, n);
    CountedFrame(u, t', n, |u|);
    if last == 0 {
      assert ChainTo(t', owner + 1, n, 1);
    } else {
      CountedFrame(t, t', owner + 1, last);
      CountedFrame(t, t', last, n);
      CountedJoin(t', owner + 1, last, n);
      ChainFrame(t, t', owner + 1, last, t[owner].valueLength);
      assert t'[last].sibling == n && ChainTo(t', owner + 1, last, t[owner].valueLength);
      assert ChainTo(t', owner + 1, n, t[owner].valueLength + 1);
    }
  }

  lemma AddItemLinked(u: seq<Token>, owner: nat, last: nat, n: nat)
    requires owner < |u| && last < n < |u| && AllLinked(u, owner + 1) && (last == 0 || owner < last)
    ensures AllLinked(AddItem(u, owner, last, n), owner + 1)
  {
    var t' := AddItem(u, owner, last, n);
    forall i: nat | owner + 1 <= i < |t'| ensures Linked(t', i) {
      assert Linked(u, i);
    }
  }

  /** An array with all its items is a well-formed value. */
  lemma FillingDone(before: seq<Token>, t: seq<Token>, last: nat)
    requires Filling(t, |before|, last) && last != 0 && t[..|before|] == before && t[|before|].sibling == 0
    ensures Added(before, t)
  {
    var a := |before|;
    CountedJoin(t, a + 1, last, |t|);
    assert ItemsChained(t, a, |t|);
    assert AllLinked(t, a) by {
      assert Linked(t, a);
    }
  }

  // ---------- Every value is well formed ----------

  lemma LeafAdded(b: string, pos: nat, toks: seq<Token>, name: Name, simple: bool)
    requires pos < |b| < INVALID_POS && Leaf(b, pos, toks, name, simple).Parsed?
    ensures Added(toks, Leaf(b, pos, toks, name, simple).toks)
    ensures Named(Leaf(b, pos, toks, name, simple).toks[|toks|], name)
  {
  }

  predicate Named(t: Token, name: Name) {
    t.id == name.at && t.idLength == name.length
  }

  lemma {:induction false} ValueAdded(b: string, pos: nat, toks: seq<Token>, name: Name, simple: bool)
    requires pos <= |b| < INVALID_POS && Value(b, pos, toks, name, simple).Parsed?
    ensures Added(toks, Value(b, pos, toks, name, simple).toks)
    ensures Named(Value(b, pos, toks, name, simple).toks[|toks|], name)
    decreases |b| - pos, 1
  {
    var p := Skip(b, pos);
    hide Added, Leaf, Skip, ObjectValue, ArrayValue, Named;
    if b[p] == '{' {
      ObjectAdded(b, p, toks, name, simple);
    } else if b[p] == '[' {
      ArrayAdded(b, p, toks, name, simple);
    } else {
      LeafAdded(b, p, toks, name, simple);
    }
  }

  lemma {:induction false} ObjectAdded(b: string, p: nat, toks: seq<Token>, name: Name, simple: bool)
    requires p < |b| < INVALID_POS && ObjectValue(b, p, toks, name, simple).Parsed?
    ensures Added(toks, ObjectValue(b, p, toks, name, simple).toks)
    ensures Named(ObjectValue(b, p, toks, name, simple).toks[|toks|], name)
    decreases |b| - p, 0
  {
    var a := |toks|;
    var begun := toks + [ComplexToken(name, Object, p, a)];
    var o := Members(b, Skip(b, p + 1), begun, 0, simple);
    hide Members, Skip, Linked, Counted;
    MembersAdded(b, Skip(b, p + 1), begun, 0, simple, a + 1);
    ClosedAdded(toks, o.toks, begun[a], p, o.pos);
  }

  lemma ClosedAdded(before: seq<Token>, t: seq<Token>, token: Token, start: nat, pos: nat)
    requires start <= pos && |before| < |t| && t[..|before| + 1] == before + [token]
    requires token.kind == Object && token.child == |before| + 1 && token.sibling == 0
    requires AllLinked(t, |before| + 1) && Counted(t, |before| + 1, |t|)
    ensures Added(before, CloseObject(t, |before|, start, pos))
    ensures CloseObject(t, |before|, start, pos)[|before|].id == token.id
        && CloseObject(t, |before|, start, pos)[|before|].idLength == token.idLength
  {
    var a := |before|;
    var t' := CloseObject(t, a, start, pos);
    assert forall i: nat :: i <= a ==> t[i] == t[..a + 1][i];
    CountedFrame(t, t', a + 1, |t|);
    assert AllLinked(t', a) by {
      forall i: nat | a <= i < |t'| ensures Linked(t', i) {
        assert i > a ==> Linked(t, i);
      }
    }
  }

  lemma {:induction false} ArrayAdded(b: string, p: nat, toks: seq<Token>, name: Name, simple: bool)
    requires p < |b| < INVALID_POS && ArrayValue(b, p, toks, name, simple).Parsed?
    ensures Added(toks, ArrayValue(b, p, toks, name, simple).toks)
    ensures Named(ArrayValue(b, p, toks, name, simple).toks[|toks|], name)
    decreases |b| - p, 0
  {
    var q := Skip(b, p + 1);
    var started := toks + [ComplexToken(name, Array, 0, |toks|)];
    if At(b, q) != ']' {
      hide Elements;
      ElementsAdded(b, q, started, |toks|, 0, simple, toks);
    }
  }

  lemma {:induction false} ElementsAdded(b: string, pos: nat, toks: seq<Token>, owner: nat, last: nat,
      simple: bool, before: seq<Token>)
    requires pos <= |b| < INVALID_POS && owner == |before| < |toks| && last < |toks|
    requires Elements(b, pos, toks, owner, last, simple).Parsed?
    requires Filling(toks, owner, last) && toks[..owner] == before && toks[owner].sibling == 0
    ensures var t := Elements(b, pos, toks, owner, last, simple).toks;
            && Added(before, t) && t[owner].id == toks[owner].id && t[owner].idLength == toks[owner].idLength
    decreases |b| - pos, 2
  {
    hide Added, Filling, AddItem, Value, Skip, Named;
    var v := Value(b, pos, toks, UNNAMED, simple);
    ValueAdded(b, pos, toks, UNNAMED, simple);
    var t, q := AddItem(v.toks, owner, last, |toks|), Skip(b, v.pos);
    FillingAdd(toks, v.toks, owner, last);
    if At(b, q) == ',' {
      ElementsAdded(b, q + 1, t, owner, |toks|, simple, before);
    } else if At(b, q) == ']' {
      FillingDone(before, t, |toks|);
    } else {
      ElementsAdded(b, q, t, owner, |toks|, simple, before);
    }
  }

  lemma {:induction false} MembersAdded(b: string, pos: nat, toks: seq<Token>, last: nat, simple: bool, lo: nat)
    requires pos <= |b| < INVALID_POS && last < |toks| && Members(b, pos, toks, last, simple).Parsed?
    requires Parts(toks, lo, last)
    ensures var t := Members(b, pos, toks, last, simple).toks;
            lo <= |t| && t[..lo] == toks[..lo] && AllLinked(t, lo) && Counted(t, lo, |t|)
    decreases |b| - pos, 2
  {
    if pos == |b| || b[pos] == '}' {
      if last != 0 { CountedJoin(toks, lo, last, |toks|); }
    } else if b[pos] == ',' {
      PartsLink(toks, lo, last);
      MembersAdded(b, Skip(b, pos + 1), SetSibling(toks, last, |toks|), 0, simple, lo);
    } else {
      MemberAdded(b, pos, toks, simple, lo);
    }
  }

  lemma {:induction false} MemberAdded(b: string, pos: nat, toks: seq<Token>, simple: bool, lo: nat)
    requires pos < |b| < INVALID_POS && 0 < |toks| && Member(b, pos, toks, simple).Parsed?
    requires Parts(toks, lo, 0)
    ensures var t := Member(b, pos, toks, simple).toks;
            lo <= |t| && t[..lo] == toks[..lo] && AllLinked(t, lo) && Counted(t, lo, |t|)
    decreases |b| - pos, 1
  {
    var k := KeyAt(b, pos, simple);
    hide KeyAt, Skip;
    var v := Value(b, k.next, toks, k.name, simple);
    ValueAdded(b, k.next, toks, k.name, simple);
    var n := Skip(b, v.pos);
    PartsAdd(toks, v.toks, lo);
    hide Parts, Added, Value, AllLinked, Counted;
    if NextUnseparated(b, b[pos] != '"', n) {
      PartsLink(v.toks, lo, |toks|);
      MembersAdded(b, n, SetSibling(v.toks, |toks|, |v.toks|), 0, simple, lo);
    } else {
      MembersAdded(b, n, v.toks, |toks|, simple, lo);
    }
  }

  // ---------- Documents ----------

  /** The tokens met on the way along the siblings from i on. */
  function Siblings(t: seq<Token>, i: nat): seq<nat>
    decreases |t| - i
  {
    if i == 0 || i >= |t| then []
    else if t[i].sibling <= i then [i]
    else [i] + Siblings(t, t[i].sibling)
  }

  lemma {:induction false} ChainLength(t: seq<Token>, first: nat, last: nat, k: nat)
    requires ChainTo(t, first, last, k) && 0 < first
    ensures |Siblings(t, first)| == k - 1 + |Siblings(t, last)|
    decreases k
  {
    if k > 1 {
      var prev: nat :| prev < last && prev < |t| && t[prev].sibling == last && ChainTo(t, first, prev, k - 1);
      ChainOrder(t, first, prev, k - 1);
      ChainLength(t, first, prev, k - 1);
    }
  }

  /** The links of what a value added, seen from the end. */
  lemma AddedLinks(t: seq<Token>, lo: nat)
    requires lo <= |t| && AllLinked(t, lo) && Counted(t, lo, |t|)
    ensures forall i: nat :: lo <= i < |t| ==>
              Linked(t, i) && (t[i].kind == Array ==> |Siblings(t, t[i].child)| == t[i].valueLength)
  {
    forall i: nat | lo <= i < |t|
      ensures Linked(t, i) && (t[i].kind == Array ==> |Siblings(t, t[i].child)| == t[i].valueLength)
    {
      if t[i].kind == Array && t[i].valueLength > 0 {
        var last: nat :| i < last < |t| && t[last].sibling == 0 && ChainTo(t, i + 1, last, t[i].valueLength);
        ChainLength(t, i + 1, last, t[i].valueLength);
      }
    }
  }

  /** All links of a parsed document point forward and none behind the first unused token, so every traversal ends; and
      an array has as many items as it says. */
  lemma DocumentLinks(b: string)
    requires |b| < INVALID_POS
    ensures var t := Document(b);
            forall i: nat :: i < |t| ==>
              Linked(t, i) && (t[i].kind == Array ==> |Siblings(t, t[i].child)| == t[i].valueLength)
  {
    hide Linked, Siblings, AllLinked, Counted;
    if Value(b, 0, [], UNNAMED, false).Parsed? {
      ValueAdded(b, 0, [], UNNAMED, false);
      AddedLinks(Document(b), 0);
    }
  }

  /** The same of simplified documents, with one exception: without a brace in front, the root's child is the next token
      even if there is none. That is so exactly if the text starts with a closing brace. */
  lemma SimpleLinks(b: string, name: Name)
    requires |b| < INVALID_POS && SimpleDocument(b, name) != []
    ensures Skip(b, 0) < |b|
    ensures var t := SimpleDocument(b, name);
            forall i: nat :: i < |t| ==>
              (Linked(t, i) <==> i > 0 || b[Skip(b, 0)] != '}')
              && (t[i].kind == Array ==> |Siblings(t, t[i].child)| == t[i].valueLength)
  {
    hide Linked, Siblings, AllLinked, Counted, Skip;
    var p, t := Skip(b, 0), SimpleDocument(b, name);
    SkipTwice(b, 0);
    if b[p] == '{' {
      ValueAdded(b, p, [], name, true);
      AddedLinks(t, 0);
    } else {
      OpenDocument(b, p);
      AddedLinks(t, 1);
    }
  }

  lemma SkipTwice(b: string, pos: nat)
    requires pos <= |b|
    ensures Skip(b, Skip(b, pos)) == Skip(b, pos)
  {
  }

  /** A simplified document without a brace in front. */
  lemma OpenDocument(b: string, p: nat)
    requires p < |b| < INVALID_POS && Skip(b, p) == p && b[p] != '{'
    requires Members(b, p, [ComplexToken(UNNAMED, Object, p, 0)], 0, true).Parsed?
    ensures var o := Members(b, p, [ComplexToken(UNNAMED, Object, p, 0)], 0, true);
            var t := o.toks[0 := o.toks[0].(valueLength := |b| - p)];
            && AllLinked(t, 1) && Counted(t, 1, |t|) && t[0].kind == Object
            && (Linked(t, 0) <==> b[p] != '}')
  {
    hide Skip, Linked, Counted, Member;
    var begun := [ComplexToken(UNNAMED, Object, p, 0)];
    var o := Members(b, p, begun, 0, true);
    MembersAdded(b, p, begun, 0, true, 1);
    assert o.toks[0] == o.toks[..1][0] == begun[0];
    var t := o.toks[0 := o.toks[0].(valueLength := |b| - p)];
    CountedFrame(o.toks, t, 1, |t|);
    RestLinked(o.toks, t);
    RootLinked(t);
  }

  lemma RestLinked(t: seq<Token>, t': seq<Token>)
    requires |t'| == |t| > 0 && t'[1..] == t[1..] && AllLinked(t, 1)
    ensures AllLinked(t', 1)
  {
    forall i: nat | 1 <= i < |t'| ensures Linked(t', i) {
      assert t'[i] == t'[1..][i - 1] && Linked(t, i);
    }
  }

  lemma RootLinked(t: seq<Token>)
    requires t != [] && t[0].kind == Object && t[0].child == 1 && t[0].sibling == 0
    ensures Linked(t, 0) <==> |t| > 1
  {
  }

  /** The shortest simplified document with a child that does not exist. */
  lemma LoneBrace(name: Name)
    ensures var t := SimpleDocument("}", name); |t| == 1 && t[0].child == 1
  {
    assert Skip("}", 0) == 0;
  }

  /** A word without a delimiter behind it is no literal, and a document that ends in it is refused. */
  lemma LiteralExact(b: string, p: nat, w: string, toks: seq<Token>, name: Name)
    requires w in ["true", "false", "null"] && p + |w| <= |b| < INVALID_POS && b[p..p + |w|] == w
    ensures Leaf(b, p, toks, name, false).Parsed? <==> p + |w| < |b| && Delimiter(b[p + |w|])
  {
    assert b[p] == w[0] && b[p + 1] == w[1] && b[p + 2] == w[2] && b[p + 3] == w[3];
    LiteralWord(b, p, w);
    hide NumberLeaf, QuotedLeaf, LiteralAt;
  }

  lemma LiteralWord(b: string, p: nat, w: string)
    requires w in ["true", "false", "null"] && p + |w| <= |b| && b[p..p + |w|] == w
    ensures LiteralAt(b, p) > 0 <==> p + |w| < |b| && Delimiter(b[p + |w|])
  {
    if p + 4 < |b| {
      assert b[p..p + 4][0] == b[p];
    }
    if p + 5 < |b| {
      assert b[p..p + 5][0] == b[p];
    }
  }

  /** So a document that is just a literal has no tokens. */
  lemma LiteralDocument(w: string)
    requires w in ["true", "false", "null"]
    ensures Document(w) == []
  {
    assert w[0..|w|] == w;
    LiteralExact(w, 0, w, [], UNNAMED);
    hide Leaf;
    assert Skip(w, 0) == 0;
  }

  /** Behind a trailing comma the last member's sibling is the first token after the object: here there is none. */
  lemma TrailingComma()
    ensures var t := Document("{\"a\":1,}"); |t| == 2 && t[1].sibling == 2
  {
    var b := "{\"a\":1,}";
    var t1 := [ComplexToken(UNNAMED, Object, 0, 0)];
    assert Skip(b, 0) == 0 && Skip(b, 1) == 1;
    assert StringEnd(b, 2, true, false) == 3;
    assert Skip(b, 4) == 4 && Skip(b, 5) == 5 && Skip(b, 6) == 6 && Skip(b, 7) == 7;
    assert NumberAt(b, 5) == 6;
    var t2 := t1 + [PrimitiveToken(Name(2, 1), Primitive, 5, 1)];
    assert Value(b, 5, t1, Name(2, 1), false) == Parsed(6, t2);
    var t3 := SetSibling(t2, 1, 2);
    assert Members(b, 7, t3, 0, false) == Parsed(8, t3);
    assert Members(b, 6, t2, 1, false) == Parsed(8, t3);
    assert KeyAt(b, 1, false) == Key(Name(2, 1), 5);
    assert Member(b, 1, t1, false) == Parsed(8, t3);
    assert Members(b, 1, t1, 0, false) == Parsed(8, t3);
    assert Value(b, 0, [], UNNAMED, false) == Parsed(8, CloseObject(t3, 0, 0, 8));
  }
}
