/** Escaping and unescaping of JSON strings. Characters are bytes and compare as unsigned numbers. */
module JsonEscape {
  import opened JsonText
  import opened JsonTokens

  const BACKSPACE := '\U{8}'
  const FORM_FEED := '\U{C}'

  // ---------- Escaping ----------

  /** `json_hex_char` */
  function HexChar(v: nat): (c: char)
    ensures HexDigit(c)
    ensures v < 16 ==> HexValue(c) == v
  {
    if v < 10 then '0' + v as char else if v < 16 then 'a' + (v - 10) as char else '0'
  }

  function HexValue(c: char): nat {
    if 'a' <= c <= 'f' then 10 + (c - 'a') as nat
    else if 'A' <= c <= 'F' then 10 + (c - 'A') as nat
    else if '0' <= c <= '9' then (c - '0') as nat
    else 0
  }

  /** The letter behind the backslash, or the character itself when it needs none. */
  function Letter(c: char): char {
    if c == BACKSPACE then 'b' else if c == FORM_FEED then 'f'
    else if c == '\r' then 'r' else if c == '\n' then 'n' else if c == '\t' then 't' else c
  }

  predicate Short(c: char) {
    c == '"' || c == '\\' || Letter(c) != c
  }

  function EscapeChar(c: char): string {
    if Short(c) then ['\\', Letter(c)]
    else if c < ' ' then ['\\', 'u', '0', '0', HexChar(c as nat / 16), HexChar(c as nat % 16)]
    else [c]
  }

  function Escape(s: string): string {
    if s == [] then [] else EscapeChar(s[0]) + Escape(s[1..])
  }

  lemma {:induction false} EscapeConcat(s: string, t: string)
    ensures Escape(s + t) == Escape(s) + Escape(t)
  {
    if s == [] {
      assert s + t == t;
    } else {
      assert (s + t)[1..] == s[1..] + t;
      EscapeConcat(s[1..], t);
    }
  }

  /** As much of the text as fits has been written. */
  ghost predicate Filled(buffer: array<char>, at: nat, text: string)
    reads buffer
  {
    && at == (if |text| < buffer.Length then |text| else buffer.Length)
    && buffer[..at] == text[..at]
  }

  method Put(buffer: array<char>, at: nat, c: char, ghost text: string) returns (next: nat)
    requires Filled(buffer, at, text)
    modifies buffer
    ensures Filled(buffer, next, text + [c])
  {
    next := at;
    if next < buffer.Length {
      buffer[next] := c;
      next := next + 1;
    }
  }

  /** `json_escape`: whatever the capacity, the output is the beginning of the escaped string. */
  method EscapeInto(buffer: array<char>, s: string) returns (length: nat)
    modifies buffer
    ensures Filled(buffer, length, Escape(s))
  {
    hide EscapeChar;
    length := 0;
    ghost var text := [];
    var i := 0;
    while i < |s| && length < buffer.Length
      invariant i <= |s| && text == Escape(s[..i]) && Filled(buffer, length, text)
    {
      length := EscapeOne(buffer, length, s[i], text);
      EscapeConcat(s[..i], [s[i]]);
      assert s[..i + 1] == s[..i] + [s[i]];
      assert Escape([s[i]]) == EscapeChar(s[i]) + Escape([]) == EscapeChar(s[i]);
      text := text + EscapeChar(s[i]);
      i := i + 1;
    }
    EscapeConcat(s[..i], s[i..]);
    assert s == s[..i] + s[i..];
    assert |text| <= |Escape(s)| && Escape(s)[..|text|] == text;
    assert i == |s| ==> s[i..] == [] && Escape(s) == text;
    assert Escape(s)[..length] == text[..length];
  }

  /** The body of the loop. */
  method EscapeOne(buffer: array<char>, at: nat, c: char, ghost text: string) returns (next: nat)
    requires Filled(buffer, at, text)
    modifies buffer
    ensures Filled(buffer, next, text + EscapeChar(c))
  {
    hide Filled, HexChar;
    if c == '"' || c == '\\' || Letter(c) != c {
      next := Put(buffer, at, '\\', text);
      next := Put(buffer, next, Letter(c), text + ['\\']);
      assert text + ['\\'] + [Letter(c)] == text + EscapeChar(c);
    } else if c < ' ' {
      next := Put(buffer, at, '\\', text);
      next := Put(buffer, next, 'u', text + ['\\']);
      next := Put(buffer, next, '0', text + ['\\'] + ['u']);
      next := Put(buffer, next, '0', text + ['\\'] + ['u'] + ['0']);
      next := Put(buffer, next, HexChar(c as nat / 16), text + ['\\'] + ['u'] + ['0'] + ['0']);
      next := Put(buffer, next, HexChar(c as nat % 16),
          text + ['\\'] + ['u'] + ['0'] + ['0'] + [HexChar(c as nat / 16)]);
      assert text + ['\\'] + ['u'] + ['0'] + ['0'] + [HexChar(c as nat / 16)] + [HexChar(c as nat % 16)] ==
          text + EscapeChar(c);
    } else {
      next := Put(buffer, at, c, text);
    }
  }

  // ---------- Escaped strings and the scanner ----------

  lemma Regroup(pre: string, x: string, y: string, post: string)
    ensures pre + (x + y) + post == (pre + x) + y + post
    ensures forall j: nat :: j < |x| ==> (pre + (x + y) + post)[|pre| + j] == x[j]
  {
  }

  /** What remains behind an escaped character. */
  lemma Shifted(pre: string, s: string, post: string)
    requires s != []
    ensures pre + Escape(s) + post == (pre + EscapeChar(s[0])) + Escape(s[1..]) + post
    ensures |Escape(s)| == |EscapeChar(s[0])| + |Escape(s[1..])|
    ensures forall j: nat :: j < |EscapeChar(s[0])| ==>
              |pre| + j < |pre + Escape(s) + post| && (pre + Escape(s) + post)[|pre| + j] == EscapeChar(s[0])[j]
  {
    hide EscapeChar;
    assert Escape(s) == EscapeChar(s[0]) + Escape(s[1..]);
    hide Escape;
    Regroup(pre, EscapeChar(s[0]), Escape(s[1..]), post);
  }

  /** The scanner runs over an escaped string and stops at the quote behind it. */
  lemma {:induction false} ScanEscaped(pre: string, s: string, post: string, key: bool)
    requires |post| > 0 && post[0] == '"'
    ensures StringEnd(pre + Escape(s) + post, |pre|, key, false) == |pre| + |Escape(s)|
    decreases |s|
  {
    var b := pre + Escape(s) + post;
    if s == [] {
      assert b[|pre|] == '"';
    } else {
      var c := s[0];
      Shifted(pre, s, post);
      ScanEscaped(pre + EscapeChar(c), s[1..], post, key);
      hide Escape;
      StepEscaped(b, |pre|, c, key);
    }
  }

  lemma StepEscaped(b: string, pos: nat, c: char, key: bool)
    requires pos + |EscapeChar(c)| < |b|
    requires forall j: nat :: j < |EscapeChar(c)| ==> b[pos + j] == EscapeChar(c)[j]
    ensures StringEnd(b, pos, key, false) == StringEnd(b, pos + |EscapeChar(c)|, key, false)
  {
    assert b[pos] == EscapeChar(c)[0];
    if Short(c) {
      assert b[pos + 1] == EscapeChar(c)[1];
      assert ShortEscape(Letter(c));
    } else if c < ' ' {
      var x := EscapeChar(c);
      assert b[pos + 1] == x[1] && b[pos + 2] == x[2] && b[pos + 3] == x[3] && b[pos + 4] == x[4] && b[pos + 5] == x[5];
    }
  }

  /** A quoted escaped string is a document of one token that marks exactly the escaped string. */
  lemma QuotedDocument(s: string)
    requires |Escape(s)| + 2 < INVALID_POS
    ensures Document(['"'] + Escape(s) + ['"']) == [PrimitiveToken(UNNAMED, Text, 1, |Escape(s)|)]
  {
    var b := ['"'] + Escape(s) + ['"'];
    ScanEscaped(['"'], s, ['"'], false);
    assert b[0] == '"' && Skip(b, 0) == 0;
    hide Escape, StringEnd, Skip;
  }

  // ---------- Unescaping ----------

  /** `|` on natural numbers. */
  function BitOr(a: nat, b: nat): nat {
    if a == 0 && b == 0 then 0
    else (if a % 2 == 1 || b % 2 == 1 then 1 else 0) + 2 * BitOr(a / 2, b / 2)
  }

  function PowerOfTwo(n: nat): (p: nat)
    ensures p > 0
  {
    if n == 0 then 1 else 2 * PowerOfTwo(n - 1)
  }

  lemma {:induction false} BitOrBelow(a: nat, b: nat, n: nat)
    requires a < PowerOfTwo(n) && b < PowerOfTwo(n)
    ensures BitOr(a, b) < PowerOfTwo(n)
    decreases n
  {
    if n > 0 {
      BitOrBelow(a / 2, b / 2, n - 1);
    }
  }

  lemma {:induction false} BitOrZero(b: nat)
    ensures BitOr(0, b) == b
  {
    if b > 0 {
      BitOrZero(b / 2);
    }
  }

  /** The value of four digits: each counts one bit more than the next, so they overlap. */
  function HexWord(a: char, b: char, c: char, d: char): nat {
    BitOr(BitOr(BitOr(8 * HexValue(a), 4 * HexValue(b)), 2 * HexValue(c)), HexValue(d))
  }

  /** No escape has a value of more than seven bits. */
  lemma HexWordSmall(a: char, b: char, c: char, d: char)
    ensures HexWord(a, b, c, d) < 128
  {
    assert PowerOfTwo(7) == 128;
    BitOrBelow(8 * HexValue(a), 4 * HexValue(b), 7);
    var two := BitOr(8 * HexValue(a), 4 * HexValue(b));
    BitOrBelow(two, 2 * HexValue(c), 7);
    BitOrBelow(BitOr(two, 2 * HexValue(c)), HexValue(d), 7);
  }

  /** What is appended for the character behind a backslash; `u` is treated apart. */
  function Plain(c: char): string {
    if c == '"' || c == '/' || c == '\\' then [c]
    else if c == 'b' then [BACKSPACE] else if c == 'f' then [FORM_FEED]
    else if c == 'r' then ['\r'] else if c == 'n' then ['\n'] else if c == 't' then ['\t'] else []
  }

  /** The output for the rest of s from i on, behind out. */
  function UnescapeFrom(s: string, i: nat, out: string, capacity: nat): string
    decreases |s| - i
  {
    if i >= |s| || |out| >= capacity then out
    else if s[i] != '\\' || i + 1 == |s| then UnescapeFrom(s, i + 1, out + [s[i]], capacity)
    else if s[i + 1] != 'u' then UnescapeFrom(s, i + 2, out + Plain(s[i + 1]), capacity)
    else if i + 5 >= |s| then UnescapeFrom(s, i + 2, out, capacity)
    else UnescapeFrom(s, i + 6, if |out| + 1 < capacity then out + [Coded(s, i + 2)] else out, capacity)
  }

  /** The escapes of two characters in section 7 of RFC 8259: the letter, and the code of the character it stands
      for. */
  const LETTERS: map<char, nat> :=
    map['"' := 0x22, '\\' := 0x5C, '/' := 0x2F, 'b' := 0x8, 'f' := 0xC, 'n' := 0xA, 'r' := 0xD, 't' := 0x9]

  /** The scanner accepts these letters and no others, unescaping gives what they stand for, and escaping chooses one of
      them for every character that has one, the slash left out. */
  lemma LettersAgree(c: char)
    ensures ShortEscape(c) <==> c in LETTERS
    ensures if c in LETTERS then |Plain(c)| == 1 && Plain(c)[0] as nat == LETTERS[c] else Plain(c) == []
    ensures if Short(c) then Letter(c) in LETTERS && LETTERS[Letter(c)] == c as nat
            else c == '/' || forall l :: l in LETTERS ==> LETTERS[l] != c as nat
  {
    if !Short(c) && c != '/' {
      forall l | l in LETTERS ensures LETTERS[l] != c as nat {
        assert c as nat !in {0x22, 0x5C, 0x2F, 0x8, 0xC, 0xA, 0xD, 0x9};
      }
    }
  }

  function Coded(s: string, i: nat): char
    requires i + 4 <= |s|
  {
    HexWordSmall(s[i], s[i + 1], s[i + 2], s[i + 3]);
    HexWord(s[i], s[i + 1], s[i + 2], s[i + 3]) as char
  }

  function Unescape(s: string, capacity: nat): string {
    UnescapeFrom(s, 0, [], capacity)
  }

  /** What becomes of a character that is escaped and unescaped. */
  function Returned(c: char): char {
    if ' ' <= c || Short(c) || (c as nat) < 16 then c
    else
      BitOrBelow(2, c as nat % 16, 4);
      BitOr(2, c as nat % 16) as char
  }

  lemma ReturnedSame(c: char)
    ensures Returned(c) == c <==> !('\U{10}' <= c <= '\U{1F}')
  {
    if '\U{10}' <= c <= '\U{1F}' {
      assert PowerOfTwo(4) == 16;
      BitOrBelow(2, c as nat % 16, 4);
    }
  }

  function ReturnedAll(s: string): (r: string)
    ensures |r| == |s|
  {
    seq(|s|, i requires 0 <= i < |s| => Returned(s[i]))
  }

  /** While there is room for more than what is missing, unescaping runs over an escaped string and puts out each of its
      characters. */
  lemma {:induction false} UnescapeEscaped(pre: string, s: string, post: string, out: string, capacity: nat)
    requires |out| + |s| < capacity
    ensures var e := pre + Escape(s) + post;
            UnescapeFrom(e, |pre|, out, capacity) ==
                UnescapeFrom(e, |pre| + |Escape(s)|, out + ReturnedAll(s), capacity)
    decreases |s|
  {
    hide UnescapeFrom;
    if s == [] {
      assert out + ReturnedAll(s) == out;
    } else {
      var c, e := s[0], pre + Escape(s) + post;
      Shifted(pre, s, post);
      UnescapeEscaped(pre + EscapeChar(c), s[1..], post, out + [Returned(c)], capacity);
      ReturnedTail(s, out);
      hide EscapeChar, ReturnedAll, Returned, Numbered;
      UnescapeStep(e, |pre|, c, out, capacity);
    }
  }

  lemma ReturnedTail(s: string, out: string)
    requires s != []
    ensures out + [Returned(s[0])] + ReturnedAll(s[1..]) == out + ReturnedAll(s)
  {
    hide Returned;
  }

  /** Characters that are escaped by number. */
  predicate Numbered(c: char) {
    c < ' ' && !Short(c)
  }

  lemma UnescapeStep(e: string, i: nat, c: char, out: string, capacity: nat)
    requires |out| < capacity && (Numbered(c) ==> |out| + 1 < capacity) && i + |EscapeChar(c)| <= |e|
    requires forall j: nat :: j < |EscapeChar(c)| ==> e[i + j] == EscapeChar(c)[j]
    ensures UnescapeFrom(e, i, out, capacity) == UnescapeFrom(e, i + |EscapeChar(c)|, out + [Returned(c)], capacity)
  {
    assert e[i] == EscapeChar(c)[0];
    if Short(c) {
      assert e[i + 1] == EscapeChar(c)[1] == Letter(c);
      assert Plain(Letter(c)) == [c];
    } else if c < ' ' {
      var x := EscapeChar(c);
      assert e[i + 1] == x[1] && e[i + 2] == x[2] && e[i + 3] == x[3] && e[i + 4] == x[4] && e[i + 5] == x[5];
      CodedControl(e, i + 2, c);
    }
  }

  lemma CodedControl(e: string, i: nat, c: char)
    requires i + 4 <= |e| && c < ' ' && !Short(c)
    requires e[i] == '0' && e[i + 1] == '0' && e[i + 2] == HexChar(c as nat / 16) && e[i + 3] == HexChar(c as nat % 16)
    ensures Coded(e, i) == Returned(c)
  {
    var hi, lo := c as nat / 16, c as nat % 16;
    assert HexWord(e[i], e[i + 1], e[i + 2], e[i + 3]) == BitOr(BitOr(BitOr(0, 0), 2 * hi), lo);
    BitOrZero(0);
    BitOrZero(2 * hi);
    BitOrZero(lo);
  }

  /** A numbered character that would fill the buffer is dropped. */
  lemma UnescapeDropped(e: string, i: nat, c: char, out: string, capacity: nat)
    requires |out| + 1 == capacity && Numbered(c) && i + |EscapeChar(c)| == |e|
    requires forall j: nat :: j < |EscapeChar(c)| ==> e[i + j] == EscapeChar(c)[j]
    ensures UnescapeFrom(e, i, out, capacity) == out
  {
    var x := EscapeChar(c);
    assert e[i] == x[0] && e[i + 1] == x[1];
    assert UnescapeFrom(e, i, out, capacity) == UnescapeFrom(e, i + 6, out, capacity);
  }

  lemma UnescapeDone(s: string, out: string, capacity: nat)
    ensures UnescapeFrom(s, |s|, out, capacity) == out
  {
  }

  lemma Pad(x: string, y: string)
    ensures [] + x == x && [] + x + y == x + y
  {
  }

  lemma EscapeLast(s: string, c: char)
    ensures Escape(s + [c]) == Escape(s) + EscapeChar(c)
  {
    hide EscapeChar;
    EscapeConcat(s, [c]);
    assert Escape([c]) == EscapeChar(c) + Escape([]) == EscapeChar(c);
  }

  lemma ReturnedLast(s: string, c: char)
    ensures ReturnedAll(s + [c]) == ReturnedAll(s) + [Returned(c)]
  {
    hide Returned;
  }

  lemma UnescapeAll(s: string, capacity: nat)
    requires |s| < capacity
    ensures Unescape(Escape(s), capacity) == ReturnedAll(s)
  {
    hide UnescapeFrom, Escape, ReturnedAll;
    UnescapeEscaped([], s, [], [], capacity);
    Pad(Escape(s), []);
    assert Escape(s) + [] == Escape(s);
    Pad(ReturnedAll(s), []);
    UnescapeDone(Escape(s), ReturnedAll(s), capacity);
  }

  /** The last character meets a buffer with room for one more. */
  lemma UnescapeLast(e: string, i: nat, c: char, r: string, capacity: nat)
    requires |r| + 1 == capacity && i + |EscapeChar(c)| == |e|
    requires forall j: nat :: j < |EscapeChar(c)| ==> e[i + j] == EscapeChar(c)[j]
    ensures UnescapeFrom(e, i, r, capacity) == if Numbered(c) then r else r + [Returned(c)]
  {
    hide UnescapeFrom, EscapeChar, Returned, Numbered;
    if Numbered(c) {
      UnescapeDropped(e, i, c, r, capacity);
    } else {
      UnescapeStep(e, i, c, r, capacity);
      UnescapeDone(e, r + [Returned(c)], capacity);
    }
  }

  /** A buffer of exactly the length of the string. */
  lemma UnescapeFull(s: string, c: char, capacity: nat)
    requires |s| + 1 == capacity
    ensures Unescape(Escape(s + [c]), capacity) == if Numbered(c) then ReturnedAll(s) else ReturnedAll(s + [c])
  {
    hide UnescapeFrom, Escape, EscapeChar, Returned, ReturnedAll, Numbered;
    EscapeLast(s, c);
    ReturnedLast(s, c);
    UnescapeEscaped([], s, EscapeChar(c), [], capacity);
    Pad(Escape(s), EscapeChar(c));
    Pad(ReturnedAll(s), []);
    UnescapeLast(Escape(s) + EscapeChar(c), |Escape(s)|, c, ReturnedAll(s), capacity);
  }

  predicate Plainly(s: string) {
    forall i :: 0 <= i < |s| ==> !('\U{10}' <= s[i] <= '\U{1F}')
  }

  lemma ReturnedPlainly(s: string)
    ensures ReturnedAll(s) == s <==> Plainly(s)
  {
    forall i | 0 <= i < |s| ensures ReturnedAll(s)[i] == s[i] <==> !('\U{10}' <= s[i] <= '\U{1F}') {
      ReturnedSame(s[i]);
    }
    hide Returned;
  }

  /** Unescaping gives back what was escaped exactly when that had no byte from 0x10 to 0x1F and, if the buffer is no
      longer than the string, does not end in a numbered character. */
  lemma RoundTrip(s: string, capacity: nat)
    requires |s| <= capacity
    ensures Unescape(Escape(s), capacity) == s <==> Plainly(s) && (|s| < capacity || s == [] || !Numbered(s[|s| - 1]))
  {
    hide ReturnedAll, UnescapeFrom, Numbered, Plainly;
    ReturnedPlainly(s);
    if |s| < capacity {
      UnescapeAll(s, capacity);
    } else if s == [] {
      EmptyRoundTrip(capacity);
    } else {
      UnescapeFull(s[..|s| - 1], s[|s| - 1], capacity);
      assert s == s[..|s| - 1] + [s[|s| - 1]];
    }
  }

  lemma EmptyRoundTrip(capacity: nat)
    ensures Unescape(Escape([]), capacity) == [] && Plainly([])
  {
  }

  // ---------- Unescaping in place ----------

  /** `json_get_num_bytes_as_utf8` */
  function NumBytes(val: nat): nat {
    if val >= 0x04000000 then 6 else if val >= 0x00200000 then 5 else if val >= 0x00010000 then 4
    else if val >= 0x00000800 then 3 else if val >= 0x00000080 then 2 else 1
  }

  /** The output so far, and the part of the source that has not been read. */
  ghost predicate Progress(buffer: array<char>, source: array<char>, s: string, i: nat, length: nat, out: string)
    reads buffer, source
  {
    && |s| <= source.Length && length == |out| <= buffer.Length && length <= i && buffer[..length] == out
    && forall k: nat :: i <= k < |s| ==> source[k] == s[k]
  }

  /** Writing behind the output does not touch what is still to be read, even in the same array. */
  method Append(buffer: array<char>, source: array<char>, ghost s: string, i: nat, length: nat, ghost out: string,
      c: char)
    requires Progress(buffer, source, s, i, length, out) && length < i && length < buffer.Length
    modifies buffer
    ensures Progress(buffer, source, s, i, length + 1, out + [c])
  {
    buffer[length] := c;
    assert buffer[..length + 1] == buffer[..length] + [c];
  }

  /** The digits of a `\u` escape: the j-th is shifted by 3 - j bits. */
  method ReadHex(source: array<char>, at: nat) returns (hexval: nat)
    requires at + 4 <= source.Length
    ensures hexval == HexWord(source[at], source[at + 1], source[at + 2], source[at + 3])
  {
    hide HexValue;
    BitOrZero(8 * HexValue(source[at]));
    hexval := 0;
    var weight := 8;
    for j := 0 to 4
      invariant weight == match j case 0 => 8 case 1 => 4 case 2 => 2 case 3 => 1 case _ => 0
      invariant hexval == match j
                          case 0 => 0
                          case 1 => 8 * HexValue(source[at])
                          case 2 => BitOr(8 * HexValue(source[at]), 4 * HexValue(source[at + 1]))
                          case 3 => BitOr(BitOr(8 * HexValue(source[at]), 4 * HexValue(source[at + 1])),
                              2 * HexValue(source[at + 2]))
                          case _ => HexWord(source[at], source[at + 1], source[at + 2], source[at + 3])
    {
      hexval := BitOr(hexval, weight * HexValue(source[at + j]));
      weight := weight / 2;
    }
  }

  /** The body of the loop. */
  method UnescapeOne(buffer: array<char>, capacity: nat, source: array<char>, n: nat, i0: nat, length0: nat,
      ghost s: string, ghost out0: string)
    returns (i: nat, length: nat, ghost out: string)
    requires Progress(buffer, source, s, i0, length0, out0) && i0 < |s| == n && length0 < capacity <= buffer.Length
    modifies buffer
    ensures i0 < i && length <= capacity && Progress(buffer, source, s, i, length, out)
    ensures UnescapeFrom(s, i, out, capacity) == UnescapeFrom(s, i0, out0, capacity)
  {
    hide HexWord, HexValue, Coded;
    var c := source[i0];
    i, length, out := i0 + 1, length0, out0;
    if c != '\\' || i >= n {
      Append(buffer, source, s, i, length, out, c);
      length, out := length + 1, out + [c];
      return;
    }
    c := source[i];
    i := i + 1;
    if c == 'u' {
      if i + 4 <= n {
        i, length, out := UnescapeCode(buffer, capacity, source, i, length, s, out);
      }
    } else if Plain(c) == [] {
      assert out0 + Plain(c) == out0;
    } else {
      assert Plain(c) == [Plain(c)[0]];
      Append(buffer, source, s, i, length, out, Plain(c)[0]);
      length, out := length + 1, out + [Plain(c)[0]];
    }
  }

  /** The case of a `\u` escape with four digits at i0. */
  method UnescapeCode(buffer: array<char>, capacity: nat, source: array<char>, i0: nat, length0: nat,
      ghost s: string, ghost out0: string)
    returns (i: nat, length: nat, ghost out: string)
    requires Progress(buffer, source, s, i0, length0, out0) && i0 + 4 <= |s| && length0 < capacity <= buffer.Length
    modifies buffer
    ensures i == i0 + 4 && length <= capacity && Progress(buffer, source, s, i, length, out)
    ensures out == if length0 + 1 < capacity then out0 + [Coded(s, i0)] else out0
  {
    hide HexWord;
    var hexval := ReadHex(source, i0);
    HexWordSmall(s[i0], s[i0 + 1], s[i0 + 2], s[i0 + 3]);
    i, length, out := i0 + 4, length0, out0;
    if length + NumBytes(hexval) < capacity {
      Append(buffer, source, s, i, length, out, hexval as char);
      length, out := length + 1, out + [hexval as char];
    }
  }

  /** `json_unescape`. The output may go to the array that holds the input. */
  method UnescapeInto(buffer: array<char>, capacity: nat, source: array<char>, n: nat) returns (length: nat)
    requires capacity <= buffer.Length && n <= source.Length
    modifies buffer
    ensures length <= capacity && buffer[..length] == Unescape(old(source[..n]), capacity)
  {
    ghost var s, out := source[..n], [];
    var i := 0;
    length := 0;
    while i < n && length < capacity
      invariant length <= capacity && Progress(buffer, source, s, i, length, out)
      invariant UnescapeFrom(s, i, out, capacity) == Unescape(s, capacity)
      decreases n - i
    {
      i, length, out := UnescapeOne(buffer, capacity, source, n, i, length, s, out);
    }
  }
}
