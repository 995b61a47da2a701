/** The forms of white space, numbers, strings and words in JSON, and that the scanning routines accept exactly them. */
module JsonForms {
  import opened JsonText
  import opened Texts

  // ---------- White space ----------

  predicate AllSpace(s: string) {
    forall i :: 0 <= i < |s| ==> Whitespace(s[i])
  }

  lemma {:induction false} SkipSpace(b: string, at: nat, s: string)
    requires Holds(b, at, s) && AllSpace(s)
    ensures Skip(b, at) == Skip(b, at + |s|)
    decreases |s|
  {
    if s != "" {
      HoldsHere(b, at, s);
      assert Holds(b, at + 1, s[1..]) by { HoldsRest(b, at, s, 1); }
      SkipSpace(b, at + 1, s[1..]);
    }
  }

  lemma SkipTo(b: string, at: nat, s: string)
    requires Holds(b, at, s) && AllSpace(s) && at + |s| < |b| && !Whitespace(b[at + |s|])
    ensures Skip(b, at) == at + |s|
  {
    SkipSpace(b, at, s);
  }

  // ---------- Numbers ----------

  predicate Digits(s: string) {
    forall i :: 0 <= i < |s| ==> '0' <= s[i] <= '9'
  }

  /** A sign, digits, a dot with digits, and an exponent. What is asked for is one digit in front of the exponent:
      every number of RFC 8259, section 6, has this form. */
  datatype Number = Number(minus: bool, whole: string, dot: bool, fraction: string, letter: string, sign: string,
      power: string)
  {
    predicate Proper() {
      && Digits(whole) && Digits(fraction) && Digits(power) && |whole| + |fraction| > 0
      && (!dot ==> fraction == "") && (letter == "" ==> sign == power == "")
      && (letter == "" || letter == "e" || letter == "E") && (sign == "" || sign == "+" || sign == "-")
    }

    function Text(): string {
      (if minus then "-" else "") + (whole + ((if dot then "." else "") + (fraction + (letter + (sign + power)))))
    }
  }

  ghost predicate IsNumber(s: string) {
    exists n: Number :: n.Proper() && n.Text() == s
  }

  lemma {:induction false} DigitsRead(b: string, at: nat, s: string, first: bool, seen: Seen)
    requires Holds(b, at, s) && Digits(s)
    ensures NumberEnd(b, at, first, seen) ==
            NumberEnd(b, at + |s|, first && s == "", seen.(digit := seen.digit || s != ""))
    decreases |s|
  {
    if s != "" {
      HoldsHere(b, at, s);
      HoldsRest(b, at, s, 1);
      DigitsRead(b, at + 1, s[1..], false, seen.(digit := true));
    }
  }

  predicate EndsAt(b: string, e: nat) {
    e <= |b| && (e < |b| ==> Delimiter(b[e]))
  }

  lemma NumberStops(b: string, e: nat, first: bool, seen: Seen)
    requires EndsAt(b, e) && seen.digit
    ensures NumberEnd(b, e, first, seen) == e
  {
  }

  lemma LetterRead(b: string, at: nat, first: bool, seen: Seen)
    requires at < |b| && (b[at] == 'e' || b[at] == 'E') && seen.digit && !seen.exp
    ensures NumberEnd(b, at, first, seen) == NumberEnd(b, BehindExponent(b, at), false, seen.(exp := true))
  {
  }

  /** A sign behind the letter is read with it. */
  lemma SignRead(b: string, at: nat, sign: string, power: string)
    requires at < |b| && Holds(b, at + 1, sign + power) && EndsAt(b, at + 1 + |sign + power|)
    requires Digits(power) && (sign == "" || sign == "+" || sign == "-")
    ensures BehindExponent(b, at) == at + 1 + |sign| && Holds(b, at + 1 + |sign|, power)
  {
    HoldsBoth(b, at + 1, sign, power);
    if sign + power != "" {
      HoldsHere(b, at + 1, sign + power);
    }
  }

  /** The exponent of a number, if there is one. */
  lemma ExponentRead(b: string, at: nat, letter: string, sign: string, power: string, first: bool, seen: Seen)
    requires Holds(b, at, letter + (sign + power)) && EndsAt(b, at + |letter + (sign + power)|)
    requires seen.digit && !seen.exp && Digits(power)
    requires (letter == "" ==> sign == power == "") && (letter == "" || letter == "e" || letter == "E")
    requires sign == "" || sign == "+" || sign == "-"
    ensures NumberEnd(b, at, first, seen) == at + |letter + (sign + power)|
  {
    hide NumberEnd, BehindExponent, Holds, Digits, EndsAt;
    var e := at + |letter + (sign + power)|;
    if letter == "" {
      NumberStops(b, at, first, seen);
    } else {
      HoldsBoth(b, at, letter, sign + power);
      HoldsHere(b, at, letter);
      SignRead(b, at, sign, power);
      LetterRead(b, at, first, seen);
      DigitsRead(b, at + 1 + |sign|, power, false, seen.(exp := true));
      NumberStops(b, e, false, seen.(exp := true));
    }
  }

  /** The dot, the fraction and the exponent. */
  lemma TailRead(b: string, at: nat, n: Number, dot: string, first: bool)
    requires n.Proper() && dot == (if n.dot then "." else "")
    requires Holds(b, at, dot + (n.fraction + (n.letter + (n.sign + n.power))))
    requires EndsAt(b, at + |dot + (n.fraction + (n.letter + (n.sign + n.power)))|)
    ensures NumberEnd(b, at, first, Seen(false, n.whole != "", false)) ==
            at + |dot + (n.fraction + (n.letter + (n.sign + n.power)))|
  {
    hide NumberEnd, Holds, Digits, EndsAt;
    var tail := n.letter + (n.sign + n.power);
    HoldsBoth(b, at, dot, n.fraction + tail);
    HoldsBoth(b, at + |dot|, n.fraction, tail);
    DotRead(b, at, dot, first, Seen(false, n.whole != "", false));
    DigitsRead(b, at + |dot|, n.fraction, first && dot == "", Seen(n.dot, n.whole != "", false));
    ExponentRead(b, at + |dot| + |n.fraction|, n.letter, n.sign, n.power, first && dot == "" && n.fraction == "",
                 Seen(n.dot, true, false));
  }

  /** Every number is read to its end. */
  lemma NumberRead(b: string, at: nat, n: Number)
    requires n.Proper() && Holds(b, at, n.Text()) && EndsAt(b, at + |n.Text()|)
    ensures NumberAt(b, at) == at + |n.Text()|
  {
    hide NumberEnd, Holds, Digits, EndsAt, NumberAt;
    var minus, dot := if n.minus then "-" else "", if n.dot then "." else "";
    var tail := dot + (n.fraction + (n.letter + (n.sign + n.power)));
    HoldsBoth(b, at, minus, n.whole + tail);
    HoldsBoth(b, at + |minus|, n.whole, tail);
    MinusRead(b, at, minus);
    DigitsRead(b, at + |minus|, n.whole, minus == "", Seen(false, false, false));
    TailRead(b, at + |minus| + |n.whole|, n, dot, minus == "" && n.whole == "");
  }

  lemma MinusRead(b: string, at: nat, minus: string)
    requires Holds(b, at, minus) && (minus == "" || minus == "-")
    ensures NumberAt(b, at) == NumberEnd(b, at + |minus|, minus == "", Seen(false, false, false))
  {
    if minus != "" {
      HoldsHere(b, at, minus);
    }
  }

  lemma DotRead(b: string, at: nat, dot: string, first: bool, seen: Seen)
    requires Holds(b, at, dot) && (dot == "" || dot == ".") && !seen.dot && !seen.exp
    ensures NumberEnd(b, at, first, seen) == NumberEnd(b, at + |dot|, first && dot == "", seen.(dot := dot != ""))
  {
    if dot != "" {
      HoldsHere(b, at, dot);
    }
  }

  /** What a state of the loop still accepts. */
  predicate Follows(n: Number, first: bool, seen: Seen) {
    && Digits(n.whole) && Digits(n.fraction) && Digits(n.power)
    && (!n.dot ==> n.fraction == "") && (n.letter == "" ==> n.sign == n.power == "")
    && (n.letter == "" || n.letter == "e" || n.letter == "E") && (n.sign == "" || n.sign == "+" || n.sign == "-")
    && (n.minus ==> first) && (seen.dot || seen.exp ==> !n.dot) && (seen.exp ==> n.letter == "")
    && (seen.digit || |n.whole| + |n.fraction| > 0)
  }

  /** The number with what is read at pos in front of the rest. */
  function Before(b: string, pos: nat, rest: Number): Number
    requires pos < |b|
  {
    if b[pos] == '-' then rest.(minus := true)
    else if b[pos] == '.' then rest.(whole := "", dot := true, fraction := rest.whole)
    else if b[pos] == 'e' || b[pos] == 'E' then
      Number(false, "", false, "", [b[pos]], b[pos + 1..BehindExponent(b, pos)], rest.whole)
    else rest.(whole := [b[pos]] + rest.whole)
  }

  lemma BeforeText(b: string, pos: nat, next: nat, e: nat, rest: Number)
    requires pos < next <= e <= |b| && rest.Text() == b[next..e] && !rest.minus
    requires next == if b[pos] == 'e' || b[pos] == 'E' then BehindExponent(b, pos) else pos + 1
    requires b[pos] == '.' ==> !rest.dot && rest.fraction == ""
    requires b[pos] == 'e' || b[pos] == 'E' ==>
               !rest.dot && rest.fraction == "" && rest.letter == rest.sign == rest.power == ""
    ensures Before(b, pos, rest).Text() == b[pos..e]
  {
    assert b[pos..e] == [b[pos]] + (b[pos + 1..next] + b[next..e]);
    if b[pos] == 'e' || b[pos] == 'E' {
      OnlyWhole(rest);
      LetterText([b[pos]], b[pos + 1..next], rest.whole);
    } else {
      assert b[pos + 1..next] + b[next..e] == b[next..e];
      FrontText(rest, b[pos]);
    }
  }

  lemma OnlyWhole(n: Number)
    requires !n.minus && !n.dot && n.fraction == n.letter == n.sign == n.power == ""
    ensures n.Text() == n.whole
  {
    assert "" + ("" + ("" + ("" + ""))) == "" && n.whole + "" == n.whole;
  }

  lemma LetterText(letter: string, sign: string, power: string)
    ensures Number(false, "", false, "", letter, sign, power).Text() == letter + (sign + power)
  {
  }

  lemma FrontText(n: Number, c: char)
    requires !n.minus
    ensures c == '-' ==> n.(minus := true).Text() == [c] + n.Text()
    ensures c == '.' && !n.dot && n.fraction == "" ==>
              n.(whole := "", dot := true, fraction := n.whole).Text() == [c] + n.Text()
    ensures n.(whole := [c] + n.whole).Text() == [c] + n.Text()
  {
    var tail := n.letter + (n.sign + n.power);
    assert [c] + (n.whole + ((if n.dot then "." else "") + (n.fraction + tail))) ==
           ([c] + n.whole) + ((if n.dot then "." else "") + (n.fraction + tail));
    assert "" + ("" + tail) == tail;
  }

  /** What the loop accepts from a state on has the form of the rest of a number. */
  lemma {:induction false} NumberForm(b: string, pos: nat, first: bool, seen: Seen) returns (n: Number)
    requires pos <= |b| < INVALID_POS && NumberEnd(b, pos, first, seen) != INVALID_POS && (first ==> !seen.exp)
    ensures pos <= NumberEnd(b, pos, first, seen) <= |b|
    ensures Follows(n, first, seen) && n.Text() == b[pos..NumberEnd(b, pos, first, seen)]
    decreases |b| - pos
  {
    hide n.Text, Delimiter;
    NumberSpan(b, pos, first, seen);
    if pos == |b| || Delimiter(b[pos]) {
      n := Number(false, "", false, "", "", "", "");
      assert n.Text() == "" by { NothingText(); }
    } else {
      var exp := b[pos] == 'e' || b[pos] == 'E';
      var next := if exp then BehindExponent(b, pos) else pos + 1;
      var seen' := if b[pos] == '-' then seen else if b[pos] == '.' then seen.(dot := true)
                   else if exp then seen.(exp := true) else seen.(digit := true);
      var rest := NumberForm(b, next, false, seen');
      n := Before(b, pos, rest);
      BeforeText(b, pos, next, NumberEnd(b, pos, first, seen), rest);
    }
  }

  lemma NothingText()
    ensures Number(false, "", false, "", "", "", "").Text() == ""
  {
  }

  /** A number is accepted if and only if the text up to the next delimiter has the form of one. */
  lemma NumberExact(b: string, at: nat, e: nat)
    requires at <= e && EndsAt(b, e) && |b| < INVALID_POS && forall i :: at <= i < e ==> !Delimiter(b[i])
    ensures NumberAt(b, at) != INVALID_POS <==> IsNumber(b[at..e])
    ensures NumberAt(b, at) != INVALID_POS ==> NumberAt(b, at) == e
  {
    hide NumberEnd, Delimiter;
    if NumberAt(b, at) != INVALID_POS {
      NumberSpan(b, at, true, Seen(false, false, false));
      NoDelimiterInside(b, at);
      var n := NumberForm(b, at, true, Seen(false, false, false));
      assert n.Proper();
    } else if IsNumber(b[at..e]) {
      var n: Number :| n.Proper() && n.Text() == b[at..e];
      NumberRead(b, at, n);
    }
  }

  lemma NoDelimiterInside(b: string, at: nat)
    requires at <= |b| < INVALID_POS && NumberAt(b, at) != INVALID_POS
    ensures at <= NumberAt(b, at) <= |b| && forall i :: at <= i < NumberAt(b, at) ==> !Delimiter(b[i])
  {
    NumberSpan(b, at, true, Seen(false, false, false));
  }

  lemma NumberFirst(n: Number)
    requires n.Proper()
    ensures n.Text() != "" && (n.Text()[0] == '-' || n.Text()[0] == '.' || '0' <= n.Text()[0] <= '9')
  {
    if !n.minus && n.whole == "" {
      assert n.Text() == "." + (n.fraction + (n.letter + (n.sign + n.power)));
    } else if !n.minus {
      assert n.Text()[0] == n.whole[0];
    }
  }

  lemma NumberTextRead(b: string, at: nat, s: string)
    requires IsNumber(s) && Holds(b, at, s) && EndsAt(b, at + |s|)
    ensures NumberAt(b, at) == at + |s| && s != "" && at < |b|
    ensures b[at] == '-' || b[at] == '.' || '0' <= b[at] <= '9'
  {
    hide NumberAt;
    var n: Number :| n.Proper() && n.Text() == s;
    NumberFirst(n);
    HoldsHere(b, at, s);
    NumberRead(b, at, n);
  }

  lemma NumberTextFirst(s: string)
    requires IsNumber(s)
    ensures s != "" && (s[0] == '-' || s[0] == '.' || '0' <= s[0] <= '9')
  {
    var n: Number :| n.Proper() && n.Text() == s;
    NumberFirst(n);
  }

  // ---------- Strings ----------

  /** The inside of a string: a backslash stands only in front of the letter of an escape or of `u` and four digits. */
  predicate StringBody(s: string) {
    if s == "" then true
    else if s[0] == '"' then false
    else if s[0] != '\\' then StringBody(s[1..])
    else if |s| >= 2 && ShortEscape(s[1]) then StringBody(s[2..])
    else |s| >= 6 && s[1] == 'u' && FourDigits(s, 2) && StringBody(s[6..])
  }

  lemma {:induction false} StringRead(b: string, at: nat, s: string, key: bool)
    requires Holds(b, at, s + "\"") && StringBody(s)
    ensures StringEnd(b, at, key, false) == at + |s|
    decreases |s|
  {
    hide Holds, FourDigits, ShortEscape;
    var all := s + "\"";
    HoldsHere(b, at, all);
    if s != "" {
      var n := if s[0] != '\\' then 1 else if |s| >= 2 && ShortEscape(s[1]) then 2 else 6;
      HoldsRest(b, at, all, 1);
      HoldsRest(b, at, all, n);
      assert all[n..] == s[n..] + "\"";
      StringRead(b, at + n, s[n..], key);
      HoldsHere(b, at + 1, all[1..]);
      if n == 6 { DigitsHere(b, at, s); }
    }
  }

  lemma DigitsHere(b: string, at: nat, s: string)
    requires Holds(b, at, s + "\"") && |s| >= 6 && FourDigits(s, 2)
    ensures FourDigits(b, at + 2)
  {
    assert forall i :: 0 <= i < |s| ==> b[at..at + |s + "\""|][i] == s[i];
  }

  /** A quoted string that is accepted ends at the first quote behind whole escapes. */
  lemma {:induction false} StringForm(b: string, at: nat, key: bool)
    requires at <= |b| < INVALID_POS && StringEnd(b, at, key, false) != INVALID_POS
    ensures var e := StringEnd(b, at, key, false); at <= e < |b| && b[e] == '"' && StringBody(b[at..e])
    decreases |b| - at
  {
    hide FourDigits, ShortEscape;
    StringSpan(b, at, key, false);
    if b[at] != '"' {
      var n := if b[at] != '\\' || at + 1 == |b| then 1 else if ShortEscape(b[at + 1]) then 2 else 6;
      if n == 6 { DigitsInside(b, at + 2); }
      StringForm(b, at + n, key);
      var s := b[at..StringEnd(b, at, key, false)];
      assert s[n..] == b[at + n..StringEnd(b, at, key, false)];
      if n == 6 { DigitsThere(b, at, s); }
    }
  }

  lemma DigitsInside(b: string, pos: nat)
    requires FourDigits(b, pos)
    ensures pos + 4 <= |b|
  {
  }

  lemma DigitsThere(b: string, at: nat, s: string)
    requires Holds(b, at, s) && |s| >= 6 && FourDigits(b, at + 2)
    ensures FourDigits(s, 2)
  {
    assert forall i :: 0 <= i < |s| ==> b[at..at + |s|][i] == s[i];
  }

  /** An unquoted string: none of the characters that end one, and no quote or backslash. */
  predicate BareText(s: string, key: bool) {
    s != "" && forall i :: 0 <= i < |s| ==> !BareEnd(s[i], key) && s[i] != '"' && s[i] != '\\'
  }

  lemma {:induction false} BareRead(b: string, at: nat, s: string, key: bool)
    requires Holds(b, at, s) && (s == "" || BareText(s, key))
    requires at + |s| == |b| || BareEnd(b[at + |s|], key)
    ensures StringEnd(b, at, key, true) == at + |s|
    decreases |s|
  {
    if s != "" {
      HoldsHere(b, at, s);
      HoldsRest(b, at, s, 1);
      BareRead(b, at + 1, s[1..], key);
    }
  }

  // ---------- Words ----------

  predicate Word(s: string) {
    s == "true" || s == "false" || s == "null"
  }

  lemma WordRead(b: string, at: nat, w: string)
    requires Word(w) && Holds(b, at, w) && at + |w| < |b| && Delimiter(b[at + |w|])
    ensures LiteralAt(b, at) == |w| && b[at] == w[0]
  {
    assert b[at..at + |w|] == w;
    HoldsHere(b, at, w);
    if at + 4 < |b| {
      assert b[at..at + 4][0] == b[at];
    }
    if at + 5 < |b| {
      assert b[at..at + 5][0] == b[at];
    }
  }

  lemma WordFirst(w: string)
    requires Word(w)
    ensures w[0] == 't' || w[0] == 'f' || w[0] == 'n'
  {
  }

  lemma NoWord(b: string, at: nat, c: char)
    requires at < |b| && b[at] == c && c != 't' && c != 'f' && c != 'n'
    ensures LiteralAt(b, at) == 0
  {
    if at + 4 < |b| {
      assert b[at..at + 4][0] == b[at];
    }
    if at + 5 < |b| {
      assert b[at..at + 5][0] == b[at];
    }
  }

  /** An unquoted string that is no word is not taken for one. */
  lemma BareNoWord(b: string, at: nat, s: string)
    requires Holds(b, at, s) && BareText(s, false) && !Word(s) && (at + |s| < |b| ==> Delimiter(b[at + |s|]))
    ensures LiteralAt(b, at) == 0
  {
    var n := LiteralAt(b, at);
    HoldsEach(b, at, s);
    if n > 0 {
      var w := b[at..at + n];
      assert Word(w);
      assert forall i :: 0 <= i < n ==> b[at + i] == w[i] && !Delimiter(w[i]);
      assert n == |s|;
      assert w == s;
    }
  }
}
