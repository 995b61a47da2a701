/** Character classes and text searches of the SXML parser. Text is a string whose characters stand for bytes. */
module SxmlText {

  predicate WhiteSpace(c: char) {
    c == ' ' || c == '\t' || c == '\r' || c == '\n'
  }

  /** Bytes with the high bit set are accepted without decoding them. */
  predicate NameStartChar(c: char) {
    c as int >= 0x80 || c == ':' || 'A' <= c <= 'Z' || c == '_' || 'a' <= c <= 'z'
  }

  predicate NameChar(c: char) {
    NameStartChar(c) || c == '-' || c == '.' || '0' <= c <= '9'
  }

  /** The character classes by their codes: white space and, among the characters of seven bits, those of names are the
      ones of the productions S, NameStartChar and NameChar in section 2.3 of XML 1.1. */
  lemma ClassesByCode(c: char)
    ensures WhiteSpace(c) <==> c as nat in {0x20, 0x9, 0xD, 0xA}
    ensures NameStartChar(c) <==>
              c as nat in {0x3A, 0x5F} || 0x41 <= c as nat <= 0x5A || 0x61 <= c as nat <= 0x7A || c as nat >= 0x80
    ensures NameChar(c) <==> NameStartChar(c) || c as nat in {0x2D, 0x2E} || 0x30 <= c as nat <= 0x39
  {
  }

  /** What a forward search stops at. */
  datatype Stop = AtChar(c: char) | AtNonSpace | AtNonName {
    predicate Matches(x: char) {
      match this
      case AtChar(c) => x == c
      case AtNonSpace => !WhiteSpace(x)
      case AtNonName => !NameChar(x)
    }
  }

  /** The first position in [s, e) that matches, or e. */
  function Scan(b: string, s: nat, e: nat, stop: Stop): (r: nat)
    requires s <= e <= |b|
    ensures s <= r <= e
    ensures forall i :: s <= i < r ==> !stop.Matches(b[i])
    ensures r < e ==> stop.Matches(b[r])
    decreases e - s
  {
    if s == e || stop.Matches(b[s]) then s else Scan(b, s + 1, e, stop)
  }

  /** The end of [s, e) without the white space at its end. */
  function RTrim(b: string, s: nat, e: nat): (r: nat)
    requires s <= e <= |b|
    ensures s <= r <= e
    ensures forall i :: r <= i < e ==> WhiteSpace(b[i])
    ensures s < r ==> !WhiteSpace(b[r - 1])
    decreases e
  {
    if s == e || !WhiteSpace(b[e - 1]) then e else RTrim(b, s, e - 1)
  }

  predicate StartsWith(b: string, s: nat, e: nat, prefix: string)
    requires s <= e <= |b|
  {
    |prefix| <= e - s && b[s..s + |prefix|] == prefix
  }

  /** The first occurrence of the needle inside [s, e), or e. */
  function FindStr(b: string, s: nat, e: nat, needle: string): (r: nat)
    requires s <= e <= |b| && needle != ""
    ensures s <= r <= e
    ensures r < e ==> StartsWith(b, r, e, needle)
    ensures forall i :: s <= i < r ==> !StartsWith(b, i, e, needle)
    decreases e - s
  {
    if s == e || StartsWith(b, s, e, needle) then s else FindStr(b, s + 1, e, needle)
  }

  /** `memchr`: the position of the first c in [s, e), or e. */
  method StrFindChr(b: string, s: nat, e: nat, c: char) returns (r: nat)
    requires s <= e <= |b|
    ensures r == Scan(b, s, e, AtChar(c))
  {
    r := s;
    while r < e && b[r] != c
      invariant s <= r <= e && Scan(b, s, e, AtChar(c)) == Scan(b, r, e, AtChar(c))
    {
      r := r + 1;
    }
  }

  /** Looks for the first character of the needle and compares the rest there. */
  method StrFindStr(b: string, start: nat, end: nat, needle: string) returns (r: nat)
    requires start <= end <= |b| && needle != ""
    ensures r == FindStr(b, start, end, needle)
  {
    var s := start;
    while s + |needle| <= end
      invariant start <= s <= end && FindStr(b, start, end, needle) == FindStr(b, s, end, needle)
    {
      var limit := end - (|needle| - 1);
      var it := StrFindChr(b, s, limit, needle[0]);
      SkipOtherFirst(b, s, it, end, needle);
      if it == limit {
        NoRoomLeft(b, it, end, needle);
        return end;
      }
      if b[it..it + |needle|] == needle {
        return it;
      }
      s := it + 1;
    }
    NoRoomLeft(b, s, end, needle);
    return end;
  }

  lemma {:induction false} SkipOtherFirst(b: string, s: nat, it: nat, end: nat, needle: string)
    requires s <= it <= end <= |b| && needle != ""
    requires forall i :: s <= i < it ==> b[i] != needle[0]
    ensures FindStr(b, s, end, needle) == FindStr(b, it, end, needle)
    decreases it - s
  {
    if s < it {
      SkipOtherFirst(b, s + 1, it, end, needle);
    }
  }

  lemma NoRoomLeft(b: string, s: nat, end: nat, needle: string)
    requires s <= end <= |b| && needle != "" && s + |needle| > end
    ensures FindStr(b, s, end, needle) == end
  {
  }

  method StrLTrim(b: string, s: nat, e: nat) returns (it: nat)
    requires s <= e <= |b|
    ensures it == Scan(b, s, e, AtNonSpace)
  {
    it := s;
    while it != e && WhiteSpace(b[it])
      invariant s <= it <= e && Scan(b, s, e, AtNonSpace) == Scan(b, it, e, AtNonSpace)
    {
      it := it + 1;
    }
  }

  method StrRTrim(b: string, s: nat, e: nat) returns (it: nat)
    requires s <= e <= |b|
    ensures it == RTrim(b, s, e)
  {
    it := e;
    while s != it
      invariant s <= it <= e && RTrim(b, s, e) == RTrim(b, s, it)
    {
      var prev := it - 1;
      if !WhiteSpace(b[prev]) {
        return it;
      }
      it := prev;
    }
    return s;
  }

  method StrFindNotAlnum(b: string, s: nat, e: nat) returns (it: nat)
    requires s <= e <= |b|
    ensures it == Scan(b, s, e, AtNonName)
  {
    it := s;
    while it != e && NameChar(b[it])
      invariant s <= it <= e && Scan(b, s, e, AtNonName) == Scan(b, it, e, AtNonName)
    {
      it := it + 1;
    }
  }

  /** The buffer b shows the document from position base on. */
  predicate Window(b: string, doc: string, base: nat) {
    base + |b| <= |doc| && forall i :: 0 <= i < |b| ==> b[i] == doc[base + i]
  }

  /** A search that succeeds in the window, or sees the same end, gives the same place in the document. */
  lemma {:induction false} ScanWindow(b: string, doc: string, base: nat, s: nat, e: nat, e': nat, stop: Stop)
    requires Window(b, doc, base) && s <= e <= |b| && base + e <= e' <= |doc|
    ensures var r := Scan(b, s, e, stop);
            var r' := Scan(doc, base + s, e', stop);
            r' >= base + r && (r < e || base + e == e' ==> r' == base + r)
    decreases e - s
  {
    if s < e && !stop.Matches(b[s]) {
      ScanWindow(b, doc, base, s + 1, e, e', stop);
    }
  }

  lemma {:induction false} RTrimWindow(b: string, doc: string, base: nat, s: nat, e: nat)
    requires Window(b, doc, base) && s <= e <= |b|
    ensures RTrim(doc, base + s, base + e) == base + RTrim(b, s, e)
    decreases e
  {
    if s < e && WhiteSpace(b[e - 1]) {
      RTrimWindow(b, doc, base, s, e - 1);
    }
  }

  lemma StartsWithWindow(b: string, doc: string, base: nat, s: nat, e: nat, e': nat, prefix: string)
    requires Window(b, doc, base) && s <= e <= |b| && base + e <= e' <= |doc|
    ensures StartsWith(b, s, e, prefix) ==> StartsWith(doc, base + s, e', prefix)
    ensures |prefix| <= e - s || base + e == e' ==>
              (StartsWith(b, s, e, prefix) <==> StartsWith(doc, base + s, e', prefix))
  {
    if |prefix| <= e - s {
      assert b[s..s + |prefix|] == doc[base + s..base + s + |prefix|];
    }
  }

  lemma {:induction false} FindStrWindow(b: string, doc: string, base: nat, s: nat, e: nat, e': nat, needle: string)
    requires Window(b, doc, base) && s <= e <= |b| && base + e <= e' <= |doc| && needle != ""
    requires FindStr(b, s, e, needle) < e || base + e == e'
    ensures FindStr(doc, base + s, e', needle) == base + FindStr(b, s, e, needle)
    decreases e - s
  {
    StartsWithWindow(b, doc, base, s, e, e', needle);
    if s < e && !StartsWith(b, s, e, needle) {
      FindStrWindow(b, doc, base, s + 1, e, e', needle);
    }
  }
}
