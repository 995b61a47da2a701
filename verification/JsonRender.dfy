/** Reading back what is written: every JSON value, laid out with white space in any way, is accepted and has exactly
    the tokens that describe it. The same holds of simplified documents, whose strings may stand without quotes and
    whose commas and braces may be left out. */
module JsonRender {
  import opened JsonText
  import opened JsonTokens
  import opened JsonForms
  import opened Texts
  import Links = JsonLinks

  /** A number or literal, a string in its escaped form, an array and an object; gap is the white space behind the
      opening bracket. */
  datatype Json =
    | Plain(text: string)
    | Str(text: string, bare: bool)
    | List(gap: string, items: seq<Item>)
    | Record(gap: string, members: seq<Entry>)

  /** An item with the white space around it, and whether a comma separates it from the next one. */
  datatype Item = Item(lead: string, value: Json, trail: string, comma: bool)

  /** A member: white space before its name, around the colon and behind its value. */
  datatype Entry = Entry(lead: string, name: string, bare: bool, gap: string, colon: char, before: string, value: Json,
      trail: string, comma: bool)

  // ---------- What is well formed ----------

  ghost predicate Proper(v: Json, simple: bool) {
    match v
    case Plain(text) => Word(text) || IsNumber(text)
    case Str(text, bare) => if bare then simple && BareString(text) else StringBody(text)
    case List(gap, items) =>
      AllSpace(gap) && forall i :: 0 <= i < |items| ==> SpacedItem(items[i], simple) && Proper(items[i].value, simple)
    case Record(gap, members) =>
      AllSpace(gap) && forall i :: 0 <= i < |members| ==>
        SpacedEntry(members[i], simple) && Proper(members[i].value, simple)
  }

  /** An unquoted value that is neither a number nor a literal nor a bracket. */
  predicate BareString(s: string) {
    && BareText(s, false) && !Word(s) && !('0' <= s[0] <= '9') && s[0] != '-' && s[0] != '.' && s[0] != '{'
    && s[0] != '['
  }

  /** Only simplified documents do without commas, and then white space ends the value. */
  predicate SpacedItem(i: Item, simple: bool) {
    AllSpace(i.lead) && AllSpace(i.trail) && (i.comma || (simple && i.trail != ""))
  }

  predicate SpacedEntry(m: Entry, simple: bool) {
    && AllSpace(m.lead) && AllSpace(m.gap) && AllSpace(m.before) && AllSpace(m.trail)
    && (if m.bare then simple && BareText(m.name, true) else StringBody(m.name))
    && (m.colon == ':' || (simple && m.colon == '=')) && (m.comma || (simple && m.bare && m.trail != ""))
  }

  // ---------- The text of a value ----------

  function Text(v: Json): string {
    match v
    case Plain(text) => text
    case Str(text, bare) => if bare then text else "\"" + (text + "\"")
    case List(gap, items) => "[" + (gap + ItemsText(items))
    case Record(gap, members) => "{" + (gap + MembersText(members, "}"))
  }

  function Comma(comma: bool): string {
    if comma then "," else ""
  }

  /** The items with commas between them, and the closing bracket. */
  function ItemsText(items: seq<Item>): (s: string)
    ensures s != ""
    decreases items
  {
    if items == [] then "]"
    else
      var i := items[0];
      i.lead + (Text(i.value) + (i.trail + if |items| == 1 then "]" else Comma(i.comma) + ItemsText(items[1..])))
  }

  function KeyText(m: Entry): string {
    if m.bare then m.name else "\"" + (m.name + "\"")
  }

  /** The members, and what closes the object: a brace, or nothing at the end of a simplified document. */
  function MembersText(members: seq<Entry>, close: string): string
    decreases members
  {
    if members == [] then close
    else
      var m := members[0];
      m.lead + (KeyText(m) + (m.gap + ([m.colon] + (m.before + (Text(m.value) + (m.trail
          + if |members| == 1 then close else Comma(m.comma) + MembersText(members[1..], close)))))))
  }

  // ---------- The tokens of a value ----------

  /** The tokens of the value whose text starts at `at`, the first of them at index. */
  function Tokens(v: Json, at: nat, index: nat, name: Name): (t: seq<Token>)
    ensures t != [] && t[0].sibling == 0
  {
    match v
    case Plain(text) => [Token(name.at, name.length, at, |text|, 0, 0, Primitive)]
    case Str(text, bare) =>
      [Token(name.at, name.length, if bare then at else at + 1, |text|, 0, 0, Kind.Text)]
    case List(gap, items) =>
      [Token(name.at, name.length, 0, |items|, if items == [] then 0 else index + 1, 0, Array)]
      + ItemTokens(items, at + 1 + |gap|, index + 1)
    case Record(gap, members) =>
      [Token(name.at, name.length, at, |Text(v)|, if members == [] then 0 else index + 1, 0, Object)]
      + MemberTokens(members, at + 1 + |gap|, index + 1)
  }

  /** The value's tokens, the first one linked to the next value if there is one. */
  function Linked(t: seq<Token>, more: bool, next: nat): (r: seq<Token>)
    requires t != [] && t[0].sibling == 0
    ensures |r| == |t|
  {
    if more then t[0 := t[0].(sibling := next)] else t
  }

  function ItemTokens(items: seq<Item>, at: nat, index: nat): seq<Token>
    decreases items
  {
    if items == [] then []
    else
      var i := items[0];
      var first := Tokens(i.value, at + |i.lead|, index, UNNAMED);
      Linked(first, |items| > 1, index + |first|)
      + ItemTokens(items[1..], at + |i.lead| + |Text(i.value)| + |i.trail| + |Comma(i.comma)|, index + |first|)
  }

  /** The name of a member whose text starts at `at`, and where its value starts. */
  function NameOf(m: Entry, at: nat): Name {
    Name(at + |m.lead| + if m.bare then 0 else 1, |m.name|)
  }

  function ValueOf(m: Entry, at: nat): nat {
    at + |m.lead| + |KeyText(m)| + |m.gap| + 1 + |m.before|
  }

  function MemberTokens(members: seq<Entry>, at: nat, index: nat): seq<Token>
    decreases members
  {
    if members == [] then []
    else
      var m := members[0];
      var first := Tokens(m.value, ValueOf(m, at), index, NameOf(m, at));
      Linked(first, |members| > 1, index + |first|)
      + MemberTokens(members[1..], ValueOf(m, at) + |Text(m.value)| + |m.trail| + |Comma(m.comma)|, index + |first|)
  }

  // ---------- Values without parts ----------

  /** What stands behind a value: a delimiter, or the end of the text unless the value is a word. */
  predicate Behind(b: string, e: nat, v: Json) {
    EndsAt(b, e) && (v.Plain? && Word(v.text) ==> e < |b|)
  }

  /** The value is accepted and has its tokens; white space may be skipped behind it. */
  predicate Reads(b: string, at: nat, v: Json, toks: seq<Token>, name: Name, simple: bool)
    requires at <= |b| < INVALID_POS
  {
    var r := Value(b, at, toks, name, simple);
    && r.Parsed? && r.toks == toks + Tokens(v, at, |toks|, name)
    && Skip(b, r.pos) == Skip(b, at + |Text(v)|)
  }

  lemma HereSkip(b: string, at: nat)
    requires at < |b| && !Whitespace(b[at])
    ensures Skip(b, at) == at
  {
  }

  lemma PlainRead(b: string, at: nat, v: Json, toks: seq<Token>, name: Name, simple: bool)
    requires v.Plain? && Proper(v, simple) && Holds(b, at, Text(v)) && Behind(b, at + |Text(v)|, v)
    requires |b| < INVALID_POS
    ensures at < |b| && Reads(b, at, v, toks, name, simple)
  {
    hide NumberEnd, LiteralAt, NumberAt, IsNumber, Word;
    if Word(v.text) {
      WordRead(b, at, v.text);
      WordFirst(v.text);
    } else {
      NumberTextRead(b, at, v.text);
    }
  }

  lemma QuotedRead(b: string, at: nat, v: Json, toks: seq<Token>, name: Name, simple: bool)
    requires v.Str? && !v.bare && Proper(v, simple) && Holds(b, at, Text(v)) && |b| < INVALID_POS
    ensures at < |b| && Reads(b, at, v, toks, name, simple)
  {
    hide StringEnd, NumberEnd, Holds, StringBody, LiteralAt, Skip;
    HoldsHere(b, at, Text(v));
    HoldsBoth(b, at, "\"", v.text + "\"");
    StringRead(b, at + 1, v.text, false);
    NoWord(b, at, '"');
    HereSkip(b, at);
  }

  lemma BareStringRead(b: string, at: nat, v: Json, toks: seq<Token>, name: Name)
    requires v.Str? && v.bare && Proper(v, true) && Holds(b, at, Text(v)) && Behind(b, at + |Text(v)|, v)
    requires |b| < INVALID_POS
    ensures at < |b| && Reads(b, at, v, toks, name, true)
  {
    hide StringEnd, NumberEnd, LiteralAt, Word;
    HoldsHere(b, at, Text(v));
    BareRead(b, at, v.text, false);
    BareNoWord(b, at, v.text);
  }

  /** Neither white space nor a closing bracket nor a comma. */
  lemma TextFirst(v: Json, simple: bool)
    requires Proper(v, simple)
    ensures Text(v) != "" && !Whitespace(Text(v)[0]) && !Stop(Text(v)[0])
  {
    hide StringBody, IsNumber, AllSpace;
    if v.Plain? && !Word(v.text) {
      NumberTextFirst(v.text);
    }
  }

  lemma SameValue(b: string, pos: nat, p: nat, toks: seq<Token>, name: Name, simple: bool)
    requires pos <= |b| < INVALID_POS && p <= |b| && Skip(b, pos) == Skip(b, p)
    ensures Value(b, pos, toks, name, simple) == Value(b, p, toks, name, simple)
  {
    hide Skip, ObjectValue, ArrayValue, Leaf;
  }

  lemma ValueSkip(b: string, at: nat, s: string, toks: seq<Token>, name: Name, simple: bool)
    requires Holds(b, at, s) && AllSpace(s) && |b| < INVALID_POS
    ensures Value(b, at, toks, name, simple) == Value(b, at + |s|, toks, name, simple)
  {
    hide Value, Skip;
    SkipSpace(b, at, s);
    SameValue(b, at, at + |s|, toks, name, simple);
  }

  /** Behind white space the text of a value starts. */
  lemma ValueHere(b: string, pos: nat, s: string, v: Json, simple: bool)
    requires Holds(b, pos, s) && AllSpace(s) && Proper(v, simple) && Holds(b, pos + |s|, Text(v))
    ensures Skip(b, pos) == pos + |s| < |b| && !Stop(b[pos + |s|]) && !Whitespace(b[pos + |s|])
  {
    hide Text, Proper;
    TextFirst(v, simple);
    HoldsHere(b, pos + |s|, Text(v));
    SkipTo(b, pos, s);
  }

  /** A comma or a closing bracket, anything behind white space, or the end of the text. */
  predicate Ends(b: string, e: nat, v: Json, trail: string, rest: string) {
    && AllSpace(trail)
    && if trail != "" then true
       else if rest != "" then Stop(rest[0])
       else |b| == e && !(v.Plain? && Word(v.text))
  }

  lemma BehindValue(b: string, e: nat, v: Json, trail: string, rest: string)
    requires Holds(b, e, trail) && Holds(b, e + |trail|, rest) && Ends(b, e, v, trail, rest)
    ensures Behind(b, e, v)
  {
    if trail != "" {
      HoldsHere(b, e, trail);
    } else if rest != "" {
      HoldsHere(b, e, rest);
    }
  }

  /** A value with white space around it. */
  lemma ValueHolds(b: string, pos: nat, lead: string, v: Json, trail: string, rest: string)
    requires Holds(b, pos, lead + (Text(v) + (trail + rest))) && Ends(b, pos + |lead| + |Text(v)|, v, trail, rest)
    ensures var at := pos + |lead|;
            var q := at + |Text(v)| + |trail|;
            && Holds(b, pos, lead) && Holds(b, at, Text(v)) && Behind(b, at + |Text(v)|, v)
            && q <= |b| && Skip(b, at + |Text(v)|) == Skip(b, q) && Holds(b, q, rest)
  {
    hide Holds, Text, Skip, Behind, Ends, AllSpace;
    var e := pos + |lead| + |Text(v)|;
    HoldsTwo(b, pos, lead, Text(v), trail + rest);
    HoldsBoth(b, e, trail, rest);
    HoldsInside(b, e + |trail|, rest);
    BehindValue(b, e, v, trail, rest);
    assert AllSpace(trail) by { EndsInSpace(b, e, v, trail, rest); }
    SkipSpace(b, e, trail);
  }

  lemma EndsInSpace(b: string, e: nat, v: Json, trail: string, rest: string)
    requires Ends(b, e, v, trail, rest)
    ensures AllSpace(trail)
  {
  }

  // ---------- Arrays ----------

  ghost predicate ProperItems(items: seq<Item>, simple: bool) {
    forall i :: 0 <= i < |items| ==> SpacedItem(items[i], simple) && Proper(items[i].value, simple)
  }

  /** The table with n more items counted at owner and the item at last linked to the next token. */
  function Filled(toks: seq<Token>, owner: nat, last: nat, n: nat): (r: seq<Token>)
    requires owner < |toks| && last < |toks|
    ensures |r| == |toks|
  {
    var counted := toks[owner := toks[owner].(valueLength := toks[owner].valueLength + n)];
    if last != 0 then SetSibling(counted, last, |toks|) else counted
  }

  lemma FilledOne(toks: seq<Token>, x: seq<Token>, owner: nat, last: nat)
    requires owner < |toks| && last < |toks|
    ensures AddItem(toks + x, owner, last, |toks|) == Filled(toks, owner, last, 1) + x
  {
  }

  lemma FilledMore(toks: seq<Token>, x: seq<Token>, owner: nat, last: nat, n: nat)
    requires owner < |toks| && last < |toks| && x != [] && x[0].sibling == 0 && (last == 0 || owner != last)
    ensures Filled(Filled(toks, owner, last, 1) + x, owner, |toks|, n) ==
            Filled(toks, owner, last, n + 1) + Linked(x, true, |toks| + |x|)
  {
  }

  /** How an item of an array is laid out: the value, and the comma, the bracket or the next item behind it. */
  lemma ItemHolds(b: string, pos: nat, items: seq<Item>, simple: bool)
    requires items != [] && ProperItems(items, simple) && Holds(b, pos, ItemsText(items))
    ensures var i := items[0];
            var at := pos + |i.lead|;
            var q := at + |Text(i.value)| + |i.trail|;
            && Holds(b, pos, i.lead) && Holds(b, at, Text(i.value)) && at < |b|
            && Behind(b, at + |Text(i.value)|, i.value) && q < |b| && Skip(b, at + |Text(i.value)|) == Skip(b, q)
            && if |items| == 1 then b[q] == ']' && q + 1 == pos + |ItemsText(items)|
               else
                 && (i.comma ==> b[q] == ',') && Holds(b, q + |Comma(i.comma)|, ItemsText(items[1..]))
                 && q + |Comma(i.comma)| + |ItemsText(items[1..])| == pos + |ItemsText(items)|
  {
    hide Holds, Text, Proper, AllSpace, Skip, Behind;
    var i := items[0];
    var rest := if |items| == 1 then "]" else Comma(i.comma) + ItemsText(items[1..]);
    ValueHolds(b, pos, i.lead, i.value, i.trail, rest);
    var q := pos + |i.lead| + |Text(i.value)| + |i.trail|;
    HoldsHere(b, q, rest);
    if |items| > 1 {
      HoldsBoth(b, q, Comma(i.comma), ItemsText(items[1..]));
    }
  }

  lemma FirstItem(b: string, pos: nat, items: seq<Item>, simple: bool)
    requires items != [] && ProperItems(items, simple) && Holds(b, pos, ItemsText(items))
    ensures pos < |b| && Skip(b, pos) < |b| && !Stop(b[Skip(b, pos)])
  {
    hide Holds, Text, Proper, AllSpace, Skip;
    ItemHolds(b, pos, items, simple);
    TextFirst(items[0].value, simple);
    ValueHere(b, pos, items[0].lead, items[0].value, simple);
  }

  /** One turn of the loop over the items. */
  lemma ElementsStep(b: string, pos: nat, toks: seq<Token>, owner: nat, last: nat, simple: bool, q: nat)
    requires pos < |b| < INVALID_POS && owner < |toks| && last < |toks|
    requires var v := Value(b, pos, toks, UNNAMED, simple); v.Parsed? && q == Skip(b, v.pos) < |b|
    ensures var t := AddItem(Value(b, pos, toks, UNNAMED, simple).toks, owner, last, |toks|);
            var r := Elements(b, pos, toks, owner, last, simple);
            && (b[q] == ']' ==> r == Parsed(q + 1, t))
            && (b[q] == ',' ==> r == Elements(b, q + 1, t, owner, |toks|, simple))
            && (simple && !Stop(b[q]) ==> r == Elements(b, q, t, owner, |toks|, simple))
  {
    hide Value, Skip, AddItem;
  }

  lemma ElementsSkip(b: string, pos: nat, p: nat, toks: seq<Token>, owner: nat, last: nat, simple: bool)
    requires pos < |b| < INVALID_POS && p < |b| && Skip(b, pos) == Skip(b, p) && owner < |toks| && last < |toks|
    ensures Elements(b, pos, toks, owner, last, simple) == Elements(b, p, toks, owner, last, simple)
  {
    hide Value, Skip, AddItem;
    SameValue(b, pos, p, toks, UNNAMED, simple);
  }

  /** The loop goes on behind the comma, or where the next item starts. */
  lemma ElementsGoOn(b: string, pos: nat, items: seq<Item>, toks: seq<Token>, owner: nat, last: nat, simple: bool)
    requires |items| > 1 && ProperItems(items, simple) && Holds(b, pos, ItemsText(items)) && |b| < INVALID_POS
    requires owner < |toks| && last < |toks| && pos <= |b|
    requires var i := items[0];
             var v := Value(b, pos, toks, UNNAMED, simple);
             v.Parsed? && Skip(b, v.pos) == Skip(b, pos + |i.lead| + |Text(i.value)|)
    ensures var i := items[0];
            var next := pos + |i.lead| + |Text(i.value)| + |i.trail| + |Comma(i.comma)|;
            && next <= |b|
            && Elements(b, pos, toks, owner, last, simple) ==
               Elements(b, next, AddItem(Value(b, pos, toks, UNNAMED, simple).toks, owner, last, |toks|), owner, |toks|,
                        simple)
  {
    hide Holds, Text, Proper, AllSpace, Skip, Value, Elements, AddItem, Behind, ItemsText;
    var i := items[0];
    var q := pos + |i.lead| + |Text(i.value)| + |i.trail|;
    var v := Value(b, pos, toks, UNNAMED, simple);
    ItemHolds(b, pos, items, simple);
    RestProper(items, simple);
    FirstItem(b, q + |Comma(i.comma)|, items[1..], simple);
    if i.comma { CommaHere(b, q); }
    ElementsStep(b, pos, toks, owner, last, simple, Skip(b, q));
    if !i.comma {
      Links.SkipTwice(b, q);
      ElementsSkip(b, q, Skip(b, q), AddItem(v.toks, owner, last, |toks|), owner, |toks|, simple);
    }
  }

  lemma CommaHere(b: string, q: nat)
    requires q < |b| && b[q] == ','
    ensures Skip(b, q) == q
  {
  }

  /** The items of an array are read one behind the other, counted and linked. */
  lemma {:induction false} ItemsRead(b: string, pos: nat, items: seq<Item>, toks: seq<Token>, owner: nat, last: nat,
                                     simple: bool)
    requires items != [] && ProperItems(items, simple) && Holds(b, pos, ItemsText(items)) && |b| < INVALID_POS
    requires owner < |toks| && last < |toks| && (last == 0 || owner != last)
    ensures pos <= |b|
    ensures Elements(b, pos, toks, owner, last, simple) ==
            Parsed(pos + |ItemsText(items)|, Filled(toks, owner, last, |items|) + ItemTokens(items, pos, |toks|))
    decreases items
  {
    hide Holds, Text, Proper, AllSpace, Skip, Value, Elements, Filled, AddItem, Linked, Behind, ItemsText, Tokens;
    hide ItemTokens;
    var i := items[0];
    var at := pos + |i.lead|;
    var x := Tokens(i.value, at, |toks|, UNNAMED);
    ItemHolds(b, pos, items, simple);
    ValueSkip(b, pos, i.lead, toks, UNNAMED, simple);
    ValueRead(b, at, i.value, toks, UNNAMED, simple);
    FilledOne(toks, x, owner, last);
    if |items| > 1 {
      var next := at + |Text(i.value)| + |i.trail| + |Comma(i.comma)|;
      ElementsGoOn(b, pos, items, toks, owner, last, simple);
      RestProper(items, simple);
      ItemsRead(b, next, items[1..], Filled(toks, owner, last, 1) + x, owner, |toks|, simple);
      ItemsJoin(items, pos, toks, owner, last);
    } else {
      var q := at + |Text(i.value)| + |i.trail|;
      BracketHere(b, q);
      ElementsStep(b, pos, toks, owner, last, simple, q);
      LastItem(items, pos, |toks|);
    }
  }

  /** The table with the first item filled in and the others behind it. */
  lemma ItemsJoin(items: seq<Item>, at: nat, toks: seq<Token>, owner: nat, last: nat)
    requires |items| > 1 && owner < |toks| && last < |toks| && (last == 0 || owner != last)
    ensures var i := items[0];
            var x := Tokens(i.value, at + |i.lead|, |toks|, UNNAMED);
            var t := Filled(toks, owner, last, 1) + x;
            Filled(t, owner, |toks|, |items| - 1)
            + ItemTokens(items[1..], at + |i.lead| + |Text(i.value)| + |i.trail| + |Comma(i.comma)|, |t|) ==
            Filled(toks, owner, last, |items|) + ItemTokens(items, at, |toks|)
  {
    hide Tokens, Text, Filled, Linked;
    var i := items[0];
    var x := Tokens(i.value, at + |i.lead|, |toks|, UNNAMED);
    FilledMore(toks, x, owner, last, |items| - 1);
    Join(Filled(toks, owner, last, |items|), Linked(x, true, |toks| + |x|),
         ItemTokens(items[1..], at + |i.lead| + |Text(i.value)| + |i.trail| + |Comma(i.comma)|, |toks| + |x|));
  }

  lemma BracketHere(b: string, q: nat)
    requires q < |b| && (b[q] == ']' || b[q] == '}')
    ensures Skip(b, q) == q
  {
  }

  lemma RestProper(items: seq<Item>, simple: bool)
    requires items != [] && ProperItems(items, simple)
    ensures ProperItems(items[1..], simple)
  {
    hide Proper, AllSpace;
  }

  lemma LastItem(items: seq<Item>, at: nat, index: nat)
    requires |items| == 1
    ensures ItemTokens(items, at, index) == Tokens(items[0].value, at + |items[0].lead|, index, UNNAMED)
  {
    hide Tokens;
    var x := Tokens(items[0].value, at + |items[0].lead|, index, UNNAMED);
    assert items[1..] == [] && x + [] == x;
  }

  /** How an array is laid out. */
  lemma ListHolds(b: string, at: nat, v: Json, simple: bool)
    requires v.List? && Proper(v, simple) && Holds(b, at, Text(v))
    ensures var start := at + 1 + |v.gap|;
            var q := Skip(b, at + 1);
            && at < |b| && b[at] == '[' && start < |b| && q == Skip(b, start) < |b|
            && Holds(b, start, ItemsText(v.items)) && at + |Text(v)| == start + |ItemsText(v.items)|
            && if v.items == [] then q == start && b[q] == ']' else b[q] != ']'
  {
    hide Holds, AllSpace, Skip;
    var start := at + 1 + |v.gap|;
    HoldsHere(b, at, Text(v));
    HoldsBoth(b, at, "[", v.gap + ItemsText(v.items));
    HoldsBoth(b, at + 1, v.gap, ItemsText(v.items));
    HoldsHere(b, start, ItemsText(v.items));
    SkipSpace(b, at + 1, v.gap);
    if v.items == [] {
      BracketHere(b, start);
    } else {
      FirstItem(b, start, v.items, simple);
    }
  }

  lemma NoItemTokens(at: nat, index: nat)
    ensures ItemTokens([], at, index) == []
  {
  }

  lemma FilledArray(toks: seq<Token>, name: Name, n: nat)
    ensures Filled(toks + [ComplexToken(name, Array, 0, |toks|)], |toks|, 0, n) ==
            toks + [Token(name.at, name.length, 0, n, |toks| + 1, 0, Array)]
  {
  }

  lemma EmptyList(b: string, at: nat, v: Json, toks: seq<Token>, name: Name, simple: bool)
    requires v.List? && v.items == [] && Proper(v, simple) && Holds(b, at, Text(v)) && |b| < INVALID_POS
    ensures at < |b| && Reads(b, at, v, toks, name, simple)
  {
    hide Holds, Proper, AllSpace, Skip;
    ListHolds(b, at, v, simple);
    HereSkip(b, at);
    NoItemTokens(at + 1 + |v.gap|, |toks| + 1);
    Links.SkipTwice(b, at + |Text(v)|);
    assert Value(b, at, toks, name, simple) == ArrayValue(b, at, toks, name, simple);
  }

  lemma ArrayStarts(b: string, at: nat, toks: seq<Token>, name: Name, simple: bool)
    requires at < |b| < INVALID_POS && b[at] == '[' && Skip(b, at + 1) < |b| && b[Skip(b, at + 1)] != ']'
    ensures Value(b, at, toks, name, simple) ==
            Elements(b, Skip(b, at + 1), toks + [ComplexToken(name, Array, 0, |toks|)], |toks|, 0, simple)
  {
    hide Elements, Skip;
    HereSkip(b, at);
  }

  lemma ListTokens(v: Json, at: nat, index: nat, name: Name)
    requires v.List? && v.items != []
    ensures Tokens(v, at, index, name) ==
            [Token(name.at, name.length, 0, |v.items|, index + 1, 0, Array)]
            + ItemTokens(v.items, at + 1 + |v.gap|, index + 1)
  {
    hide ItemTokens;
  }

  lemma {:induction false} ListRead(b: string, at: nat, v: Json, toks: seq<Token>, name: Name, simple: bool)
    requires v.List? && v.items != [] && Proper(v, simple) && Holds(b, at, Text(v)) && |b| < INVALID_POS
    ensures at < |b| && Reads(b, at, v, toks, name, simple)
    decreases v, 0
  {
    hide Holds, Proper, AllSpace, Skip, Elements, Filled, ItemTokens, ItemsText, Value, Text, Tokens;
    var start := at + 1 + |v.gap|;
    var begun := toks + [ComplexToken(name, Array, 0, |toks|)];
    ListHolds(b, at, v, simple);
    ArrayStarts(b, at, toks, name, simple);
    Links.SkipTwice(b, at + 1);
    Items(v, simple);
    ItemsRead(b, start, v.items, begun, |toks|, 0, simple);
    ElementsSkip(b, start, Skip(b, at + 1), begun, |toks|, 0, simple);
    FilledArray(toks, name, |v.items|);
    ListTokens(v, at, |toks|, name);
    Join(toks, [Token(name.at, name.length, 0, |v.items|, |toks| + 1, 0, Array)],
         ItemTokens(v.items, start, |toks| + 1));
  }

  lemma Items(v: Json, simple: bool)
    requires Proper(v, simple)
    ensures v.List? ==> ProperItems(v.items, simple)
    ensures v.Record? ==> ProperMembers(v.members, simple)
  {
  }

  // ---------- Objects ----------

  ghost predicate ProperMembers(members: seq<Entry>, simple: bool) {
    forall i :: 0 <= i < |members| ==> SpacedEntry(members[i], simple) && Proper(members[i].value, simple)
  }

  /** What closes an object is a brace, or nothing where the text ends; a word needs a delimiter there. */
  predicate Closed(b: string, pos: nat, members: seq<Entry>, close: string)
    requires members != []
  {
    close == "}" || (close == "" && |b| == pos + |MembersText(members, close)| && WordsEnd(members))
  }

  predicate WordsEnd(members: seq<Entry>)
    requires members != []
  {
    var m := members[|members| - 1];
    m.value.Plain? && Word(m.value.text) ==> m.trail != ""
  }

  /** How a member of an object is laid out. */
  lemma MemberHolds(b: string, pos: nat, members: seq<Entry>, close: string, simple: bool)
    requires members != [] && ProperMembers(members, simple) && Holds(b, pos, MembersText(members, close))
    requires Closed(b, pos, members, close)
    ensures var m := members[0];
            var at := ValueOf(m, pos);
            var q := at + |Text(m.value)| + |m.trail|;
            && Holds(b, pos, m.lead) && Holds(b, pos + |m.lead|, KeyText(m))
            && Holds(b, pos + |m.lead| + |KeyText(m)|, m.gap)
            && Holds(b, pos + |m.lead| + |KeyText(m)| + |m.gap|, [m.colon])
            && Holds(b, at - |m.before|, m.before) && Holds(b, at, Text(m.value))
            && Behind(b, at + |Text(m.value)|, m.value) && q <= |b| && Skip(b, at + |Text(m.value)|) == Skip(b, q)
            && if |members| == 1 then
                 (if close == "}" then q < |b| && b[q] == '}' else q == |b|)
                 && q + |close| == pos + |MembersText(members, close)|
               else
                 && (m.comma ==> q < |b| && b[q] == ',')
                 && Holds(b, q + |Comma(m.comma)|, MembersText(members[1..], close))
                 && q + |Comma(m.comma)| + |MembersText(members[1..], close)| == pos + |MembersText(members, close)|
  {
    hide Holds, Text, Proper, AllSpace, Skip, StringBody, BareText, Behind, KeyText, Word, MembersText;
    var m := members[0];
    var rest := if |members| == 1 then close else Comma(m.comma) + MembersText(members[1..], close);
    MembersShape(members, close);
    KeyHolds(b, pos, m, m.before + (Text(m.value) + (m.trail + rest)));
    if |members| > 1 { MembersSome(members[1..], close); }
    ValueHolds(b, ValueOf(m, pos) - |m.before|, m.before, m.value, m.trail, rest);
    BehindMember(b, ValueOf(m, pos) + |Text(m.value)| + |m.trail|, members, close);
  }

  lemma MembersShape(members: seq<Entry>, close: string)
    requires members != []
    ensures var m := members[0];
            var rest := if |members| == 1 then close else Comma(m.comma) + MembersText(members[1..], close);
            && MembersText(members, close) ==
               m.lead + (KeyText(m) + (m.gap + ([m.colon] + (m.before + (Text(m.value) + (m.trail + rest))))))
            && |MembersText(members, close)| == ValueOf(m, 0) + |Text(m.value)| + |m.trail| + |rest|
  {
    hide Text, KeyText;
  }

  lemma BehindMember(b: string, q: nat, members: seq<Entry>, close: string)
    requires members != [] && (close == "}" || close == "")
    requires Holds(b, q, if |members| == 1 then close else Comma(members[0].comma) + MembersText(members[1..], close))
    ensures if |members| == 1 then close == "}" ==> q < |b| && b[q] == '}'
            else
              && (members[0].comma ==> q < |b| && b[q] == ',')
              && Holds(b, q + |Comma(members[0].comma)|, MembersText(members[1..], close))
  {
    hide Holds, MembersText;
    if |members| > 1 {
      HoldsBoth(b, q, Comma(members[0].comma), MembersText(members[1..], close));
      if members[0].comma { HoldsHere(b, q, ","); }
    } else if close == "}" {
      HoldsHere(b, q, "}");
    }
  }

  lemma MembersSome(members: seq<Entry>, close: string)
    requires members != []
    ensures MembersText(members, close) != ""
  {
    hide Text;
    var m := members[0];
    assert |[m.colon]| == 1;
  }

  /** The name of a member, the colon and what stands behind it. */
  lemma KeyHolds(b: string, pos: nat, m: Entry, rest: string)
    requires Holds(b, pos, m.lead + (KeyText(m) + (m.gap + ([m.colon] + rest))))
    ensures var key := pos + |m.lead|;
            var colon := key + |KeyText(m)| + |m.gap|;
            && Holds(b, pos, m.lead) && Holds(b, key, KeyText(m)) && Holds(b, key + |KeyText(m)|, m.gap)
            && Holds(b, colon, [m.colon]) && Holds(b, colon + 1, rest)
  {
    hide Holds, KeyText;
    var key := pos + |m.lead|;
    HoldsBoth(b, pos, m.lead, KeyText(m) + (m.gap + ([m.colon] + rest)));
    HoldsBoth(b, key, KeyText(m), m.gap + ([m.colon] + rest));
    HoldsBoth(b, key + |KeyText(m)|, m.gap, [m.colon] + rest);
    HoldsBoth(b, key + |KeyText(m)| + |m.gap|, [m.colon], rest);
  }

  /** The key of a member: its name, and the place behind the colon. */
  lemma KeyRead(b: string, p: nat, m: Entry, simple: bool)
    requires SpacedEntry(m, simple) && Holds(b, p, KeyText(m)) && |b| < INVALID_POS
    requires Holds(b, p + |KeyText(m)|, m.gap) && Holds(b, p + |KeyText(m)| + |m.gap|, [m.colon])
    ensures p < |b| && !Delimiter(b[p]) && (b[p] != '"' <==> m.bare)
    ensures KeyAt(b, p, simple) ==
            Key(Name(p + if m.bare then 0 else 1, |m.name|), p + |KeyText(m)| + |m.gap| + 1)
  {
    hide Holds, StringEnd, Skip, StringBody, AllSpace, Delimiter, BareText;
    var e := p + |KeyText(m)|;
    HoldsHere(b, e + |m.gap|, [m.colon]);
    ColonSkip(b, e, m.gap);
    if m.bare {
      NameEnds(b, e, m.gap);
      BareRead(b, p, m.name, true);
      BareFirst(m.name);
      HoldsHere(b, p, m.name);
    } else {
      QuotedName(b, p, m.name);
    }
  }

  lemma QuotedName(b: string, p: nat, name: string)
    requires Holds(b, p, "\"" + (name + "\"")) && StringBody(name)
    ensures p + 1 + |name| < |b| && b[p] == '"' && !Delimiter(b[p]) && b[p + 1 + |name|] == '"'
    ensures StringEnd(b, p + 1, true, false) == p + 1 + |name|
  {
    hide Holds, StringEnd, StringBody;
    HoldsBoth(b, p, "\"", name + "\"");
    HoldsBoth(b, p + 1, name, "\"");
    HoldsHere(b, p, "\"");
    HoldsHere(b, p + 1 + |name|, "\"");
    StringRead(b, p + 1, name, true);
  }

  lemma BareFirst(s: string)
    requires BareText(s, true)
    ensures s != "" && !Delimiter(s[0]) && s[0] != '"'
  {
  }

  /** White space, a colon or an equals sign ends an unquoted name. */
  lemma NameEnds(b: string, e: nat, gap: string)
    requires Holds(b, e, gap) && AllSpace(gap) && e + |gap| < |b| && (b[e + |gap|] == ':' || b[e + |gap|] == '=')
    ensures BareEnd(b[e], true) && b[e] != '"'
  {
    if gap != "" {
      HoldsHere(b, e, gap);
    }
  }

  lemma ColonSkip(b: string, at: nat, s: string)
    requires Holds(b, at, s) && AllSpace(s) && at + |s| < |b| && (b[at + |s|] == ':' || b[at + |s|] == '=')
    ensures Skip(b, at) == at + |s|
  {
    SkipTo(b, at, s);
  }

  /** One turn of the loop over the members. */
  lemma MembersStep(b: string, p: nat, toks: seq<Token>, q: nat, simple: bool)
    requires p < |b| < INVALID_POS && !Delimiter(b[p]) && 0 < |toks| && KeyAt(b, p, simple).Key?
    requires var k := KeyAt(b, p, simple);
             var v := Value(b, k.next, toks, k.name, simple);
             v.Parsed? && q == Skip(b, v.pos) <= |b|
    ensures var k := KeyAt(b, p, simple);
            var t := Value(b, k.next, toks, k.name, simple).toks;
            var r := Members(b, p, toks, 0, simple);
            && (q < |b| && b[q] == '}' ==> r == Parsed(q + 1, t))
            && (q == |b| && simple ==> r == Parsed(q, t))
            && (q < |b| && b[q] == ',' ==> r == Members(b, Skip(b, q + 1), SetSibling(t, |toks|, |t|), 0, simple))
            && (q < |b| && b[q] != ',' && b[q] != '}' && b[p] != '"' ==>
                  r == Members(b, q, SetSibling(t, |toks|, |t|), 0, simple))
  {
    hide Value, Skip, KeyAt, SetSibling;
    var k := KeyAt(b, p, simple);
    var t := Value(b, k.next, toks, k.name, simple).toks;
    assert Members(b, p, toks, 0, simple) == Member(b, p, toks, simple);
    if q == |b| || b[q] == ',' || b[q] == '}' {
      assert Member(b, p, toks, simple) == Members(b, q, t, |toks|, simple);
    }
  }

  lemma FirstMember(b: string, pos: nat, members: seq<Entry>, close: string, simple: bool)
    requires members != [] && ProperMembers(members, simple) && Holds(b, pos, MembersText(members, close))
    requires Closed(b, pos, members, close) && |b| < INVALID_POS
    ensures var p := pos + |members[0].lead|; Skip(b, pos) == p < |b| && !Delimiter(b[p])
  {
    hide Holds, Text, Proper, AllSpace, Skip, KeyAt, Closed, KeyText, Delimiter, StringBody;
    MemberHolds(b, pos, members, close, simple);
    KeyRead(b, pos + |members[0].lead|, members[0], simple);
    NoDelimiterSkip(b, pos, members[0].lead);
  }

  lemma NoDelimiterSkip(b: string, at: nat, s: string)
    requires Holds(b, at, s) && AllSpace(s) && at + |s| < |b| && !Delimiter(b[at + |s|])
    ensures Skip(b, at) == at + |s|
  {
    SkipTo(b, at, s);
  }

  /** The loop goes on behind the comma, or where the next member starts. */
  lemma MembersGoOn(b: string, pos: nat, members: seq<Entry>, toks: seq<Token>, close: string, simple: bool)
    requires |members| > 1 && ProperMembers(members, simple) && Holds(b, pos, MembersText(members, close))
    requires Closed(b, pos, members, close) && |b| < INVALID_POS && 0 < |toks| && ValueOf(members[0], pos) <= |b|
    requires var m := members[0];
             var v := Value(b, ValueOf(m, pos), toks, NameOf(m, pos), simple);
             v.Parsed? && Skip(b, v.pos) == Skip(b, ValueOf(m, pos) + |Text(m.value)|)
    ensures var m := members[0];
            var next := ValueOf(m, pos) + |Text(m.value)| + |m.trail| + |Comma(m.comma)|;
            var t := Value(b, ValueOf(m, pos), toks, NameOf(m, pos), simple).toks;
            && next <= |b| && Holds(b, next, MembersText(members[1..], close)) && ProperMembers(members[1..], simple)
            && Closed(b, next, members[1..], close)
            && next + |MembersText(members[1..], close)| == pos + |MembersText(members, close)|
            && Members(b, Skip(b, pos), toks, 0, simple) ==
               Members(b, Skip(b, next), SetSibling(t, |toks|, |t|), 0, simple)
  {
    hide Holds, Text, Proper, AllSpace, Skip, Value, Members, Behind, MembersText, KeyAt, SetSibling, KeyText;
    hide Delimiter, StringBody, BareText;
    var m := members[0];
    var q := ValueOf(m, pos) + |Text(m.value)| + |m.trail|;
    var next := q + |Comma(m.comma)|;
    MemberHolds(b, pos, members, close, simple);
    FirstMember(b, pos, members, close, simple);
    KeyRead(b, pos + |m.lead|, m, simple);
    ValueSkip(b, ValueOf(m, pos) - |m.before|, m.before, toks, NameOf(m, pos), simple);
    MembersProper(members, simple);
    FirstMember(b, next, members[1..], close, simple);
    if m.comma { CommaHere(b, q); } else { NoDelimiterStop(b[Skip(b, q)]); }
    MembersStep(b, pos + |m.lead|, toks, Skip(b, q), simple);
  }

  lemma NoDelimiterStop(c: char)
    requires !Delimiter(c)
    ensures c != ',' && c != '}'
  {
  }

  /** The members of an object are read one behind the other, named and linked. */
  lemma {:induction false} MembersRead(b: string, pos: nat, members: seq<Entry>, toks: seq<Token>, close: string,
                                       simple: bool)
    requires members != [] && ProperMembers(members, simple) && Holds(b, pos, MembersText(members, close))
    requires Closed(b, pos, members, close) && |b| < INVALID_POS && 0 < |toks| && (close == "" ==> simple)
    ensures pos <= |b|
    ensures Members(b, Skip(b, pos), toks, 0, simple) ==
            Parsed(pos + |MembersText(members, close)|, toks + MemberTokens(members, pos, |toks|))
    decreases members
  {
    hide Holds, Text, Proper, AllSpace, Skip, Value, Members, Linked, Behind, MembersText, Tokens, KeyAt, StringBody;
    hide SetSibling, KeyText, Delimiter, BareText, WordsEnd, MemberTokens;
    var m := members[0];
    var name, at := NameOf(m, pos), ValueOf(m, pos);
    var x := Tokens(m.value, at, |toks|, name);
    MemberHolds(b, pos, members, close, simple);
    ValueInside(b, at, m.value, simple);
    ValueRead(b, at, m.value, toks, name, simple);
    if |members| > 1 {
      var next := at + |Text(m.value)| + |m.trail| + |Comma(m.comma)|;
      MembersGoOn(b, pos, members, toks, close, simple);
      LinkedSibling(toks, x);
      MembersRead(b, next, members[1..], toks + Linked(x, true, |toks| + |x|), close, simple);
      MembersJoin(members, pos, toks);
    } else {
      LastRead(b, pos, members, toks, close, simple);
      LastMember(members, pos, |toks|);
    }
  }

  lemma MembersJoin(members: seq<Entry>, at: nat, toks: seq<Token>)
    requires |members| > 1
    ensures var m := members[0];
            var x := Tokens(m.value, ValueOf(m, at), |toks|, NameOf(m, at));
            var next := ValueOf(m, at) + |Text(m.value)| + |m.trail| + |Comma(m.comma)|;
            toks + Linked(x, true, |toks| + |x|) + MemberTokens(members[1..], next, |toks| + |x|) ==
            toks + MemberTokens(members, at, |toks|)
  {
    hide Tokens, Text, Linked, KeyText;
    var m := members[0];
    var x := Tokens(m.value, ValueOf(m, at), |toks|, NameOf(m, at));
    var next := ValueOf(m, at) + |Text(m.value)| + |m.trail| + |Comma(m.comma)|;
    Join(toks, Linked(x, true, |toks| + |x|), MemberTokens(members[1..], next, |toks| + |x|));
  }

  lemma ValueInside(b: string, at: nat, v: Json, simple: bool)
    requires Holds(b, at, Text(v)) && Proper(v, simple)
    ensures at < |b|
  {
    hide Text, Proper, Holds;
    TextFirst(v, simple);
    HoldsHere(b, at, Text(v));
  }

  /** The last member, and what closes the object. */
  lemma LastRead(b: string, pos: nat, members: seq<Entry>, toks: seq<Token>, close: string, simple: bool)
    requires |members| == 1 && ProperMembers(members, simple) && Holds(b, pos, MembersText(members, close))
    requires Closed(b, pos, members, close) && |b| < INVALID_POS && 0 < |toks| && (close == "" ==> simple)
    requires ValueOf(members[0], pos) <= |b|
    requires var m := members[0];
             var v := Value(b, ValueOf(m, pos), toks, NameOf(m, pos), simple);
             v.Parsed? && Skip(b, v.pos) == Skip(b, ValueOf(m, pos) + |Text(m.value)|)
    ensures pos <= |b|
    ensures var m := members[0];
            Members(b, Skip(b, pos), toks, 0, simple) ==
            Parsed(pos + |MembersText(members, close)|,
                   Value(b, ValueOf(m, pos), toks, NameOf(m, pos), simple).toks)
  {
    hide Holds, Text, Proper, AllSpace, Skip, Value, Members, Behind, MembersText, KeyAt, SetSibling, KeyText;
    hide Delimiter, StringBody, BareText;
    var m := members[0];
    var q := ValueOf(m, pos) + |Text(m.value)| + |m.trail|;
    MemberHolds(b, pos, members, close, simple);
    FirstMember(b, pos, members, close, simple);
    KeyRead(b, pos + |m.lead|, m, simple);
    ValueSkip(b, ValueOf(m, pos) - |m.before|, m.before, toks, NameOf(m, pos), simple);
    if close == "}" { BracketHere(b, q); } else { EndHere(b); }
    MembersStep(b, pos + |m.lead|, toks, q, simple);
  }

  lemma EndHere(b: string)
    ensures Skip(b, |b|) == |b|
  {
  }

  lemma MembersProper(members: seq<Entry>, simple: bool)
    requires members != [] && ProperMembers(members, simple)
    ensures ProperMembers(members[1..], simple)
  {
    hide Proper, SpacedEntry;
  }

  lemma LastMember(members: seq<Entry>, at: nat, index: nat)
    requires |members| == 1
    ensures var m := members[0];
            MemberTokens(members, at, index) == Tokens(m.value, ValueOf(m, at), index, NameOf(m, at))
  {
    hide Tokens;
    assert members[1..] == [];
  }

  lemma LinkedSibling(toks: seq<Token>, x: seq<Token>)
    requires x != [] && x[0].sibling == 0
    ensures SetSibling(toks + x, |toks|, |toks + x|) == toks + Linked(x, true, |toks| + |x|)
  {
  }

  /** How an object is laid out. */
  lemma RecordHolds(b: string, at: nat, v: Json, simple: bool)
    requires v.Record? && Proper(v, simple) && Holds(b, at, Text(v))
    ensures var start := at + 1 + |v.gap|;
            && at < |b| && b[at] == '{' && start <= |b| && Skip(b, at + 1) == Skip(b, start)
            && Holds(b, start, MembersText(v.members, "}"))
            && at + |Text(v)| == start + |MembersText(v.members, "}")|
            && (v.members == [] ==> start < |b| && Skip(b, start) == start && b[start] == '}')
  {
    hide Holds, AllSpace, Skip, MembersText;
    var start := at + 1 + |v.gap|;
    HoldsHere(b, at, Text(v));
    HoldsBoth(b, at, "{", v.gap + MembersText(v.members, "}"));
    HoldsBoth(b, at + 1, v.gap, MembersText(v.members, "}"));
    HoldsInside(b, start, MembersText(v.members, "}"));
    SkipSpace(b, at + 1, v.gap);
    if v.members == [] {
      NoMembers("}");
      HoldsHere(b, start, "}");
      HereSkip(b, start);
    }
  }

  lemma NoMembers(close: string)
    ensures MembersText([], close) == close
  {
  }

  lemma ClosedObject(toks: seq<Token>, rest: seq<Token>, name: Name, at: nat, n: nat)
    ensures CloseObject(toks + [ComplexToken(name, Object, at, |toks|)] + rest, |toks|, at, at + n) ==
            toks + ([Token(name.at, name.length, at, n, if rest == [] then 0 else |toks| + 1, 0, Object)] + rest)
  {
  }

  lemma SomeMembers(members: seq<Entry>, at: nat, index: nat)
    ensures MemberTokens(members, at, index) == [] <==> members == []
  {
  }

  lemma EmptyRecord(b: string, at: nat, v: Json, toks: seq<Token>, name: Name, simple: bool)
    requires v.Record? && v.members == [] && Proper(v, simple) && Holds(b, at, Text(v)) && |b| < INVALID_POS
    ensures at < |b| && Reads(b, at, v, toks, name, simple)
  {
    hide Holds, Proper, AllSpace, Skip, CloseObject, MemberTokens, Members, MembersText;
    var start := at + 1 + |v.gap|;
    var begun := toks + [ComplexToken(name, Object, at, |toks|)];
    RecordHolds(b, at, v, simple);
    NoMembers("}");
    HereSkip(b, at);
    SomeMembers(v.members, start, |toks| + 1);
    ClosedObject(toks, [], name, at, |Text(v)|);
    assert begun + [] == begun;
    BraceCloses(b, start, begun, simple);
    assert Value(b, at, toks, name, simple) == ObjectValue(b, at, toks, name, simple);
  }

  lemma ObjectStarts(b: string, at: nat, toks: seq<Token>, name: Name, simple: bool)
    requires at < |b| < INVALID_POS && b[at] == '{'
    ensures var o := Members(b, Skip(b, at + 1), toks + [ComplexToken(name, Object, at, |toks|)], 0, simple);
            o.Parsed? ==> at <= o.pos && |toks| < |o.toks|
                          && Value(b, at, toks, name, simple) == Parsed(o.pos, CloseObject(o.toks, |toks|, at, o.pos))
  {
    hide Members, Skip, CloseObject;
    HereSkip(b, at);
  }

  lemma RecordTokens(v: Json, at: nat, index: nat, name: Name)
    requires v.Record? && v.members != []
    ensures var rest := MemberTokens(v.members, at + 1 + |v.gap|, index + 1);
            rest != [] && Tokens(v, at, index, name) ==
                          [Token(name.at, name.length, at, |Text(v)|, index + 1, 0, Object)] + rest
  {
    hide Text;
    SomeMembers(v.members, at + 1 + |v.gap|, index + 1);
    hide MemberTokens;
  }

  lemma {:induction false} RecordRead(b: string, at: nat, v: Json, toks: seq<Token>, name: Name, simple: bool)
    requires v.Record? && v.members != [] && Proper(v, simple) && Holds(b, at, Text(v)) && |b| < INVALID_POS
    ensures at < |b| && Reads(b, at, v, toks, name, simple)
    decreases v, 0
  {
    hide Holds, Proper, AllSpace, Skip, Members, CloseObject, MemberTokens, MembersText, Value, Text, Tokens;
    var start := at + 1 + |v.gap|;
    RecordHolds(b, at, v, simple);
    RecordTokens(v, at, |toks|, name);
    ClosedObject(toks, MemberTokens(v.members, start, |toks| + 1), name, at, |Text(v)|);
    Items(v, simple);
    MembersRead(b, start, v.members, toks + [ComplexToken(name, Object, at, |toks|)], "}", simple);
    ObjectStarts(b, at, toks, name, simple);
  }

  lemma BraceCloses(b: string, pos: nat, toks: seq<Token>, simple: bool)
    requires pos < |b| < INVALID_POS && b[pos] == '}' && 0 < |toks|
    ensures Members(b, pos, toks, 0, simple) == Parsed(pos + 1, toks)
  {
  }

  // ---------- Values and documents ----------

  /** Every value that is written is read: it is accepted and has exactly its tokens. */
  lemma {:induction false} ValueRead(b: string, at: nat, v: Json, toks: seq<Token>, name: Name, simple: bool)
    requires Proper(v, simple) && Holds(b, at, Text(v)) && Behind(b, at + |Text(v)|, v) && at < |b| < INVALID_POS
    ensures Reads(b, at, v, toks, name, simple)
    decreases v, 1
  {
    hide Text, Holds, Value, Skip, Tokens, StringBody, BareString, IsNumber, AllSpace, ItemsText, MembersText;
    if v.Plain? {
      PlainRead(b, at, v, toks, name, simple);
    } else if v.Str? {
      if v.bare { BareStringRead(b, at, v, toks, name); } else { QuotedRead(b, at, v, toks, name, simple); }
    } else if v.List? {
      if v.items == [] { EmptyList(b, at, v, toks, name, simple); } else { ListRead(b, at, v, toks, name, simple); }
    } else {
      if v.members == [] { EmptyRecord(b, at, v, toks, name, simple); }
      else { RecordRead(b, at, v, toks, name, simple); }
    }
  }

  lemma WholeHolds(lead: string, v: Json, rest: string)
    requires if rest == "" then !(v.Plain? && Word(v.text)) else Delimiter(rest[0])
    ensures var b := lead + Text(v) + rest;
            Holds(b, 0, lead) && Holds(b, |lead|, Text(v)) && Behind(b, |lead| + |Text(v)|, v)
  {
    hide Text, Word, Delimiter;
  }

  /** A value with white space in front and, behind a delimiter, anything. */
  lemma WholeRead(lead: string, v: Json, rest: string, name: Name, simple: bool)
    requires Proper(v, simple) && AllSpace(lead) && |lead + Text(v) + rest| < INVALID_POS
    requires if rest == "" then !(v.Plain? && Word(v.text)) else Delimiter(rest[0])
    ensures var b := lead + Text(v) + rest;
            var r := Value(b, 0, [], name, simple);
            && r.Parsed? && r.toks == Tokens(v, |lead|, 0, name)
            && Skip(b, 0) == |lead| < |b| && b[|lead|] == Text(v)[0] && r == Value(b, |lead|, [], name, simple)
  {
    hide Proper, Text, Skip, Tokens, AllSpace, Value, Holds, Behind;
    var b := lead + Text(v) + rest;
    var at := |lead|;
    WholeHolds(lead, v, rest);
    HoldsInside(b, 0, lead);
    ValueHere(b, 0, lead, v, simple);
    HoldsHere(b, at, Text(v));
    ValueSkip(b, 0, lead, [], name, simple);
    ValueRead(b, at, v, [], name, simple);
    assert [] + Tokens(v, at, 0, name) == Tokens(v, at, 0, name);
  }

  /** The tokens of a document. */
  lemma DocumentRead(lead: string, v: Json, rest: string)
    requires Proper(v, false) && AllSpace(lead) && |lead + Text(v) + rest| < INVALID_POS
    requires if rest == "" then !(v.Plain? && Word(v.text)) else Delimiter(rest[0])
    ensures Document(lead + Text(v) + rest) == Tokens(v, |lead|, 0, UNNAMED)
  {
    hide Proper, Text, Skip, Tokens, AllSpace, Value, Delimiter;
    WholeRead(lead, v, rest, UNNAMED, false);
  }

  /** The tokens of a simplified document in braces. */
  lemma BracedRead(lead: string, v: Json, rest: string, name: Name)
    requires v.Record? && Proper(v, true) && AllSpace(lead) && |lead + Text(v) + rest| < INVALID_POS
    requires rest == "" || Delimiter(rest[0])
    ensures SimpleDocument(lead + Text(v) + rest, name) == Tokens(v, |lead|, 0, name)
  {
    hide Proper, Skip, Tokens, AllSpace, Value, Members, Delimiter, MembersText;
    WholeRead(lead, v, rest, name, true);
  }

  /** The tokens of a simplified document that is just its members: the object around them comes first. */
  lemma OpenRead(members: seq<Entry>, name: Name)
    requires members != [] && ProperMembers(members, true) && WordsEnd(members)
    requires |MembersText(members, "")| < INVALID_POS && !(members[0].bare && members[0].name[0] == '{')
    ensures var b := MembersText(members, "");
            var p := |members[0].lead|;
            SimpleDocument(b, name) == [Token(0, 0, p, |b| - p, 1, 0, Object)] + MemberTokens(members, 0, 1)
  {
    hide Proper, Skip, Tokens, AllSpace, Value, Members, MembersText, MemberTokens, WordsEnd, Text;
    var b := MembersText(members, "");
    assert Holds(b, 0, b);
    FirstMember(b, 0, members, "", true);
    Links.SkipTwice(b, 0);
    var p := Skip(b, 0);
    MembersRead(b, 0, members, [ComplexToken(UNNAMED, Object, p, 0)], "", true);
    MemberHolds(b, 0, members, "", true);
    FirstNoBrace(b, p, members[0]);
  }

  lemma FirstNoBrace(b: string, p: nat, m: Entry)
    requires Holds(b, p, KeyText(m)) && (m.bare ==> m.name != "" && m.name[0] != '{')
    ensures p < |b| && b[p] != '{'
  {
    HoldsHere(b, p, KeyText(m));
  }
}
