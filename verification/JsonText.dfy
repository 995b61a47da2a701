/** Scanning the text of a JSON document: white space, strings, numbers and literals. The text is followed by a NUL,
    which is what reading at its length yields. */
module JsonText {
  const INVALID_POS := 0xFFFF_FFFF_FFFF_FFFF

  function At(b: string, pos: nat): char {
    if pos < |b| then b[pos] else '\0'
  }

  predicate Whitespace(c: char) {
    c == ' ' || c == '\t' || c == '\n' || c == '\r'
  }

  predicate Delimiter(c: char) {
    Whitespace(c) || Stop(c)
  }

  /** What ends a value besides white space. */
  predicate Stop(c: char) {
    c == ']' || c == '}' || c == ','
  }

  /** The character classes by their codes in sections 2 and 7 of RFC 8259. */
  lemma ClassesByCode(c: char)
    ensures Whitespace(c) <==> c as nat in {0x20, 0x9, 0xA, 0xD}
    ensures Stop(c) <==> c as nat in {0x5D, 0x7D, 0x2C}
    ensures HexDigit(c) <==> 0x30 <= c as nat <= 0x39 || 0x41 <= c as nat <= 0x46 || 0x61 <= c as nat <= 0x66
  {
  }

  predicate HexDigit(c: char) {
    '0' <= c <= '9' || 'A' <= c <= 'F' || 'a' <= c <= 'f'
  }

  // ---------- White space ----------

  function Skip(b: string, pos: nat): (r: nat)
    ensures pos <= r && (pos <= |b| ==> r <= |b|) && (r < |b| ==> !Whitespace(b[r]))
    decreases |b| - pos
  {
    if pos < |b| && Whitespace(b[pos]) then Skip(b, pos + 1) else pos
  }

  /** `json_skip_whitespace` */
  method SkipWhitespace(b: string, pos: nat) returns (r: nat)
    ensures r == Skip(b, pos)
    ensures forall i :: pos <= i < r ==> i < |b| && Whitespace(b[i])
  {
    r := pos;
    while r < |b|
      invariant pos <= r && Skip(b, r) == Skip(b, pos)
      invariant forall i :: pos <= i < r ==> i < |b| && Whitespace(b[i])
    {
      if !Whitespace(b[r]) {
        return;
      }
      r := r + 1;
    }
  }

  // ---------- Strings ----------

  /** Escapes of two characters. */
  predicate ShortEscape(c: char) {
    c == '"' || c == '/' || c == '\\' || c == 'b' || c == 'f' || c == 'r' || c == 'n' || c == 't'
  }

  predicate FourDigits(b: string, pos: nat) {
    HexDigit(At(b, pos)) && HexDigit(At(b, pos + 1)) && HexDigit(At(b, pos + 2)) && HexDigit(At(b, pos + 3))
  }

  /** Unquoted strings of simplified documents end here. */
  predicate BareEnd(c: char, key: bool) {
    Delimiter(c) || (key && (c == '=' || c == ':'))
  }

  /** Where a string whose rest starts at pos ends, or INVALID_POS. */
  function StringEnd(b: string, pos: nat, key: bool, simple: bool): nat
    requires pos <= |b|
    decreases |b| - pos
  {
    if pos == |b| then if simple then pos else INVALID_POS
    else if (simple && BareEnd(b[pos], key)) || b[pos] == '"' then pos
    else if b[pos] != '\\' || pos + 1 == |b| then StringEnd(b, pos + 1, key, simple)
    else if ShortEscape(b[pos + 1]) then StringEnd(b, pos + 2, key, simple)
    else if b[pos + 1] == 'u' && FourDigits(b, pos + 2) then StringEnd(b, pos + 6, key, simple)
    else INVALID_POS
  }

  /** A string ends at its quote; an unquoted one at the first delimiter, a quote or the end of the text. */
  lemma {:induction false} StringSpan(b: string, pos: nat, key: bool, simple: bool)
    requires pos <= |b| < INVALID_POS && StringEnd(b, pos, key, simple) != INVALID_POS
    ensures pos <= StringEnd(b, pos, key, simple) <= |b|
    ensures var e := StringEnd(b, pos, key, simple);
            if simple then e == |b| || b[e] == '"' || BareEnd(b[e], key) else e < |b| && b[e] == '"'
    decreases |b| - pos
  {
    if pos == |b| || (simple && BareEnd(b[pos], key)) || b[pos] == '"' {
    } else if b[pos] != '\\' || pos + 1 == |b| {
      StringSpan(b, pos + 1, key, simple);
    } else if ShortEscape(b[pos + 1]) {
      StringSpan(b, pos + 2, key, simple);
    } else {
      StringSpan(b, pos + 6, key, simple);
    }
  }

  /** The loop over the digits behind `u`. */
  method ParseDigits(b: string, at: nat) returns (ok: bool, pos: nat)
    requires at < |b|
    ensures ok == FourDigits(b, at + 1) && (ok ==> pos == at + 4 < |b|)
  {
    pos := at;
    var esc := 0;
    while esc < 4 && pos < |b|
      invariant 0 <= esc <= 4 && pos == at + esc <= |b|
      invariant forall k :: at < k <= pos ==> HexDigit(At(b, k))
      decreases 4 - esc
    {
      esc := esc + 1;
      pos := pos + 1;
      if !HexDigit(At(b, pos)) {
        return false, pos;
      }
    }
    assert pos > at ==> HexDigit(At(b, pos));
    ok := true;
  }

  /** `json_parse_string`: the length of the string. */
  method ParseString(b: string, start: nat, key: bool, simple: bool) returns (r: nat)
    requires start <= |b| < INVALID_POS
    ensures var e := StringEnd(b, start, key, simple); r == if e == INVALID_POS then INVALID_POS else e - start
    ensures r != INVALID_POS ==> start + r <= |b|
  {
    if StringEnd(b, start, key, simple) != INVALID_POS { StringSpan(b, start, key, simple); }
    var pos := start;
    while pos < |b|
      invariant start <= pos <= |b| && StringEnd(b, pos, key, simple) == StringEnd(b, start, key, simple)
    {
      var c := b[pos];
      if simple && (Delimiter(c) || (key && (c == '=' || c == ':'))) {
        return pos - start;
      }
      if c == '"' {
        return pos - start;
      }
      pos := pos + 1;
      if c == '\\' && pos < |b| {
        if ShortEscape(b[pos]) {
        } else if b[pos] == 'u' {
          var ok: bool;
          ok, pos := ParseDigits(b, pos);
          if !ok {
            return INVALID_POS;
          }
        } else {
          return INVALID_POS;
        }
        pos := pos + 1;
      }
    }
    return if simple then pos - start else INVALID_POS;
  }

  // ---------- Numbers ----------

  /** What has been seen of a number. */
  datatype Seen = Seen(dot: bool, digit: bool, exp: bool)

  /** A sign may follow the letter of an exponent. */
  function BehindExponent(b: string, pos: nat): (r: nat)
    requires pos < |b|
    ensures pos < r <= |b|
  {
    if pos + 1 < |b| && (b[pos + 1] == '+' || b[pos + 1] == '-') then pos + 2 else pos + 1
  }

  /** Where a number whose rest starts at pos ends, or INVALID_POS; first tells whether pos is its start. */
  function NumberEnd(b: string, pos: nat, first: bool, seen: Seen): nat
    requires pos <= |b|
    decreases |b| - pos
  {
    if pos == |b| || Delimiter(b[pos]) then if seen.digit then pos else INVALID_POS
    else if b[pos] == '-' then if first then NumberEnd(b, pos + 1, false, seen) else INVALID_POS
    else if b[pos] == '.' then
      if seen.dot || seen.exp then INVALID_POS else NumberEnd(b, pos + 1, false, seen.(dot := true))
    else if b[pos] == 'e' || b[pos] == 'E' then
      if !seen.digit || seen.exp then INVALID_POS
      else NumberEnd(b, BehindExponent(b, pos), false, seen.(exp := true))
    else if '0' <= b[pos] <= '9' then NumberEnd(b, pos + 1, false, seen.(digit := true))
    else INVALID_POS
  }

  predicate NumberChar(c: char) {
    '0' <= c <= '9' || c == '-' || c == '+' || c == '.' || c == 'e' || c == 'E'
  }

  /** A number runs up to the next delimiter or the end of the text. */
  lemma {:induction false} NumberSpan(b: string, pos: nat, first: bool, seen: Seen)
    requires pos <= |b| < INVALID_POS && NumberEnd(b, pos, first, seen) != INVALID_POS
    ensures var e := NumberEnd(b, pos, first, seen); pos <= e <= |b| && (e < |b| ==> Delimiter(b[e]))
    ensures forall i :: pos <= i < NumberEnd(b, pos, first, seen) ==> NumberChar(b[i])
    ensures !seen.digit ==> pos < NumberEnd(b, pos, first, seen)
    decreases |b| - pos
  {
    if pos == |b| || Delimiter(b[pos]) {
    } else if b[pos] == '-' {
      NumberSpan(b, pos + 1, false, seen);
    } else if b[pos] == '.' {
      NumberSpan(b, pos + 1, false, seen.(dot := true));
    } else if b[pos] == 'e' || b[pos] == 'E' {
      NumberSpan(b, BehindExponent(b, pos), false, seen.(exp := true));
    } else {
      NumberSpan(b, pos + 1, false, seen.(digit := true));
    }
  }

  function NumberAt(b: string, pos: nat): nat
    requires pos <= |b|
  {
    NumberEnd(b, pos, true, Seen(false, false, false))
  }

  /** `json_parse_number`: the length of the number. */
  method ParseNumber(b: string, start: nat) returns (r: nat)
    requires start <= |b| < INVALID_POS
    ensures var e := NumberAt(b, start); r == if e == INVALID_POS then INVALID_POS else e - start
    ensures r != INVALID_POS ==> 0 < r && start + r <= |b|
  {
    if NumberAt(b, start) != INVALID_POS { NumberSpan(b, start, true, Seen(false, false, false)); }
    var pos := start;
    var hasDot, hasDigit, hasExp := false, false, false;
    while pos < |b|
      invariant start <= pos <= |b|
      invariant NumberEnd(b, pos, pos == start, Seen(hasDot, hasDigit, hasExp)) == NumberAt(b, start)
    {
      var c := b[pos];
      if Delimiter(c) {
        break;
      }
      if c == '-' {
        if start != pos {
          return INVALID_POS;
        }
      } else if c == '.' {
        if hasDot || hasExp {
          return INVALID_POS;
        }
        hasDot := true;
      } else if c == 'e' || c == 'E' {
        if !hasDigit || hasExp {
          return INVALID_POS;
        }
        hasExp := true;
        if pos + 1 < |b| {
          if b[pos + 1] == '+' || b[pos + 1] == '-' {
            pos := pos + 1;
          }
        }
      } else if c < '0' || c > '9' {
        return INVALID_POS;
      } else {
        hasDigit := true;
      }
      pos := pos + 1;
    }
    return if hasDigit then pos - start else INVALID_POS;
  }

  // ---------- Literals ----------

  /** The length of the literal at pos, or 0; a literal needs a delimiter behind it. */
  function LiteralAt(b: string, pos: nat): (n: nat)
    requires pos < |b|
    ensures n > 0 ==> pos + n < |b| && Delimiter(b[pos + n])
  {
    if pos + 4 < |b| && b[pos..pos + 4] == "true" && Delimiter(b[pos + 4]) then 4
    else if pos + 5 < |b| && b[pos..pos + 5] == "false" && Delimiter(b[pos + 5]) then 5
    else if pos + 4 < |b| && b[pos..pos + 4] == "null" && Delimiter(b[pos + 4]) then 4
    else 0
  }

  /** The three comparisons of `json_parse_value`; pos is behind the first character. */
  method ParseLiteral(b: string, pos: nat) returns (n: nat)
    requires 0 < pos <= |b|
    ensures n == LiteralAt(b, pos - 1)
  {
    var c := b[pos - 1];
    if c == 't' && |b| - pos >= 4 && b[pos] == 'r' && b[pos + 1] == 'u' && b[pos + 2] == 'e' && Delimiter(b[pos + 3]) {
      assert b[pos - 1..pos + 3] == "true";
      return 4;
    }
    if c == 'f' && |b| - pos >= 5 && b[pos] == 'a' && b[pos + 1] == 'l' && b[pos + 2] == 's'
        && b[pos + 3] == 'e' && Delimiter(b[pos + 4]) {
      assert b[pos - 1..pos + 4] == "false";
      return 5;
    }
    if c == 'n' && |b| - pos >= 4 && b[pos] == 'u' && b[pos + 1] == 'l' && b[pos + 2] == 'l' && Delimiter(b[pos + 3]) {
      assert b[pos - 1..pos + 3] == "null";
      return 4;
    }
    return 0;
  }
}
