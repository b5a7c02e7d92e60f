/** The reader takes exactly the texts of JSON values (RFC 8259): which numbers, strings, tokens and values
    there are, and nothing else. */
module JsonGrammar {
  import opened Decimal
  import opened JsonReader
  import opened JsonText
  import opened Results

  // ----- values as tokens -----

  /** What parses as a value is exactly that value's tokens in front of the rest. */
  lemma {:induction false} ParseSound(ts: seq<Token>)
    ensures var r := ParseValue(ts); r.Some? ==> Compact(r.value.0) == r.value.0 && ts == ToksOnto(r.value.0, r.value.1)
    decreases |ts|, 0
  {
    var r := ParseValue(ts);
    if r.Some? {
      assert ts == [ts[0]] + ts[1..];
      if ts[0] == LBracket && !(|ts| > 1 && ts[1] == RBracket) {
        ParseItemsSound(ts[1..]);
      } else if ts[0] == LBrace && !(|ts| > 1 && ts[1] == RBrace) {
        ParseMembersSound(ts[1..]);
      } else if ts[0] in {LBracket, LBrace} {
        assert ts[1..] == [ts[1]] + ts[2..];
      }
    }
  }

  lemma {:induction false} ParseItemsSound(ts: seq<Token>)
    ensures var r := ParseItems(ts);
            r.Some? ==> && CompactItems(r.value.0) == r.value.0
                        && ts == ItemsToksOnto(r.value.0, true, [RBracket] + r.value.1)
    decreases |ts|, 1
  {
    hide ToksOnto, Compact, ParseValue;
    var r := ParseItems(ts);
    if r.Some? {
      ParseSound(ts);
      var v, rest := ParseValue(ts).value.0, ParseValue(ts).value.1;
      assert rest == [rest[0]] + rest[1..];
      if rest[0] == RBracket {
        assert [Item("", v)][1..] == [];
      } else {
        ParseItemsSound(rest[1..]);
        var more := ParseItems(rest[1..]).value.0;
        assert r.value.0[1..] == more;
        assert more != [];
        var end := [RBracket] + r.value.1;
        assert ItemsToksOnto(more, false, end) == [Comma] + ItemsToksOnto(more, true, end);
      }
    }
  }

  lemma {:induction false} ParseMembersSound(ts: seq<Token>)
    ensures var r := ParseMembers(ts);
            r.Some? ==> && CompactMembers(r.value.0) == r.value.0
                        && ts == MembersToksOnto(r.value.0, true, [RBrace] + r.value.1)
    decreases |ts|, 1
  {
    hide ToksOnto, Compact, ParseValue;
    var r := ParseMembers(ts);
    if r.Some? {
      ParseSound(ts[2..]);
      var v, rest := ParseValue(ts[2..]).value.0, ParseValue(ts[2..]).value.1;
      assert ts == [StrToken(ts[0].raw)] + ([Colon] + ts[2..]);
      assert rest == [rest[0]] + rest[1..];
      if rest[0] == RBrace {
        assert [Member("", ts[0].raw, "", v)][1..] == [];
      } else {
        ParseMembersSound(rest[1..]);
        var more := ParseMembers(rest[1..]).value.0;
        assert r.value.0[1..] == more;
        assert more != [];
        var end := [RBrace] + r.value.1;
        assert MembersToksOnto(more, false, end) == [Comma] + MembersToksOnto(more, true, end);
      }
    }
  }

  /** Tokens parse as a value exactly when they are that value's. */
  lemma ParseExact(ts: seq<Token>, j: Json, rest: seq<Token>)
    ensures ParseValue(ts) == Some((j, rest)) <==> Compact(j) == j && ts == ToksOnto(j, rest)
  {
    hide ParseValue, ToksOnto, Compact;
    ParseSound(ts);
    ParseToks(j, rest);
  }

  // ----- tokens as text -----

  function TokenText(t: Token): string {
    match t
    case LBrace => "{"
    case RBrace => "}"
    case LBracket => "["
    case RBracket => "]"
    case Comma => ","
    case Colon => ":"
    case AtomToken(text) => text
    case StrToken(raw) => "\"" + raw + "\""
  }

  predicate TokenOk(t: Token) {
    (t.AtomToken? ==> ValidAtom(t.text)) && (t.StrToken? ==> RawOk(t.raw) && Unquote(t.raw).Some?)
  }

  /** `s` spells the tokens, one after the other, with any white space between them and around them. */
  ghost predicate Spells(s: string, ts: seq<Token>)
    decreases |ts|
  {
    if ts == [] then AllSpace(s)
    else exists gap, rest :: Starts(s, gap, ts[0], rest) && Spells(rest, ts[1..])
  }

  /** White space and a token come first; a literal or number goes on as long as it can. */
  predicate Starts(s: string, gap: string, t: Token, rest: string) {
    AllSpace(gap) && TokenOk(t) && s == gap + (TokenText(t) + rest) && (t.AtomToken? ==> EndsAtom(rest))
  }

  lemma LexToken(t: Token, rest: string)
    requires TokenOk(t) && (t.AtomToken? ==> EndsAtom(rest))
    ensures Lex(TokenText(t) + rest) == PrependTokens([t], Lex(rest))
  {
    hide Lex, RawOk, Unquote, ValidAtom;
    if t.AtomToken? {
      LexAtom(t.text, rest);
    } else if t.StrToken? {
      LexString(t.raw, rest);
    } else {
      LexPunctuation(TokenText(t)[0], rest);
      assert TokenText(t) == [TokenText(t)[0]];
    }
  }

  lemma {:induction false} SpeltIsLexed(s: string, ts: seq<Token>)
    requires Spells(s, ts)
    ensures Lex(s) == Some(ts)
    decreases |ts|
  {
    hide Lex, TokenText, TokenOk, AllSpace;
    if ts == [] {
      LexSpace(s, "");
      assert s + "" == s;
      LexNothing();
    } else {
      var gap, rest :| Starts(s, gap, ts[0], rest) && Spells(rest, ts[1..]);
      LexSpace(gap, TokenText(ts[0]) + rest);
      LexToken(ts[0], rest);
      SpeltIsLexed(rest, ts[1..]);
      assert ts == [ts[0]] + ts[1..];
    }
  }

  lemma SpaceInFront(s: string, ts: seq<Token>)
    requires s != "" && IsSpace(s[0]) && Spells(s[1..], ts)
    ensures Spells(s, ts)
  {
    hide TokenText, TokenOk;
    if ts != [] {
      var gap, rest :| Starts(s[1..], gap, ts[0], rest) && Spells(rest, ts[1..]);
      assert s == [s[0]] + s[1..];
      assert Starts(s, [s[0]] + gap, ts[0], rest);
    }
  }

  lemma TokenInFront(s: string, t: Token, rest: string, ts: seq<Token>)
    requires Starts(s, "", t, rest) && Spells(rest, ts)
    ensures Spells(s, [t] + ts)
  {
    hide Starts;
    assert ([t] + ts)[1..] == ts;
    assert Starts(s, "", ([t] + ts)[0], rest);
  }

  lemma {:induction false} AtomEndIsEnd(s: string)
    ensures EndsAtom(s[AtomEnd(s)..])
  {
    if s != "" && IsAtomChar(s[0]) {
      AtomEndIsEnd(s[1..]);
      assert s[AtomEnd(s)..] == s[1..][AtomEnd(s[1..])..];
    }
  }

  lemma {:induction false} StringEndIsEnd(s: string)
    ensures var k := StringEnd(s); k.Some? ==> s[k.value] == '"' && RawOk(s[..k.value])
    decreases |s|
  {
    var k := StringEnd(s);
    if k.Some? && k.value > 0 {
      var step := if s[0] == '\\' then 2 else 1;
      StringEndIsEnd(s[step..]);
      assert s[..k.value][step..] == s[step..][..k.value - step];
    }
  }

  lemma StringSpelt(s: string)
    requires s != "" && s[0] == '"' && Lex(s).Some?
    ensures StringEnd(s[1..]).Some?
    ensures var k := StringEnd(s[1..]).value;
            var raw, rest := s[1..][..k], s[1..][k + 1..];
            && Lex(rest).Some? && Lex(s) == Some([StrToken(raw)] + Lex(rest).value)
            && Starts(s, "", StrToken(raw), rest)
  {
    hide ValidAtom, Unquote, RawOk, StringEnd, AtomEnd, Starts;
    var k := StringEnd(s[1..]).value;
    var raw, rest := s[1..][..k], s[1..][k + 1..];
    StringStarts(s, k);
  }

  lemma StringStarts(s: string, k: nat)
    requires s != "" && s[0] == '"' && StringEnd(s[1..]) == Some(k) && Unquote(s[1..][..k]).Some?
    ensures Starts(s, "", StrToken(s[1..][..k]), s[1..][k + 1..])
  {
    hide Unquote, RawOk, StringEnd;
    StringEndIsEnd(s[1..]);
    assert s == "" + (("\"" + s[1..][..k] + "\"") + s[1..][k + 1..]);
  }

  lemma AtomSpelt(s: string)
    requires s != "" && !IsSpace(s[0]) && Punctuation(s[0]).None? && s[0] != '"' && Lex(s).Some?
    ensures var k := AtomEnd(s);
            && Lex(s[k..]).Some? && Lex(s) == Some([AtomToken(s[..k])] + Lex(s[k..]).value)
            && Starts(s, "", AtomToken(s[..k]), s[k..]) && k > 0
  {
    hide ValidAtom, Unquote, RawOk, StringEnd, AtomEnd, Starts, AtomChars;
    var k := AtomEnd(s);
    AtomIsAtomChars(s[..k]);
    AtomStarts(s);
  }

  lemma AtomStarts(s: string)
    requires ValidAtom(s[..AtomEnd(s)])
    ensures Starts(s, "", AtomToken(s[..AtomEnd(s)]), s[AtomEnd(s)..])
  {
    hide ValidAtom, AtomEnd, EndsAtom;
    AtomEndIsEnd(s);
    assert s == "" + (s[..AtomEnd(s)] + s[AtomEnd(s)..]);
  }

  lemma {:induction false} LexedIsSpelt(s: string)
    ensures Lex(s).Some? ==> Spells(s, Lex(s).value)
    decreases |s|
  {
    hide Spells, ValidAtom, Unquote, RawOk, AtomEnd, StringEnd, Starts;
    if s == "" {
      NothingSpelt();
    } else if Lex(s).Some? {
      if IsSpace(s[0]) {
        LexedIsSpelt(s[1..]);
        SpaceInFront(s, Lex(s).value);
      } else if Punctuation(s[0]).Some? {
        LexedIsSpelt(s[1..]);
        PunctuationSpelt(s);
        TokenInFront(s, Punctuation(s[0]).value, s[1..], Lex(s[1..]).value);
      } else if s[0] == '"' {
        StringSpelt(s);
        hide Lex;
        var k := StringEnd(s[1..]).value;
        var raw, rest := s[1..][..k], s[1..][k + 1..];
        LexedIsSpelt(rest);
        TokenInFront(s, StrToken(raw), rest, Lex(rest).value);
      } else {
        AtomSpelt(s);
        hide Lex;
        var k := AtomEnd(s);
        LexedIsSpelt(s[k..]);
        TokenInFront(s, AtomToken(s[..k]), s[k..], Lex(s[k..]).value);
      }
    }
  }

  lemma PunctuationSpelt(s: string)
    requires s != "" && Punctuation(s[0]).Some?
    ensures Starts(s, "", Punctuation(s[0]).value, s[1..])
  {
    assert s == "" + ([s[0]] + s[1..]);
  }

  lemma NothingSpelt()
    ensures Lex("") == Some([]) && Spells("", [])
  {}

  /** A text lexes to exactly the tokens it spells. */
  lemma LexExact(s: string, ts: seq<Token>)
    ensures Lex(s) == Some(ts) <==> Spells(s, ts)
  {
    hide Lex, Spells;
    LexedIsSpelt(s);
    if Spells(s, ts) {
      SpeltIsLexed(s, ts);
    }
  }

  /** The value that is read is the one whose tokens the text spells, whatever tokens follow; where there is
      none, the text is refused. */
  lemma ReadExact(text: string, j: Json)
    ensures Read(text) == Some(j) <==> Compact(j) == j && exists rest :: Spells(text, ToksOnto(j, rest))
  {
    hide Lex, ParseValue, ToksOnto, Compact, Spells;
    var ts := Lex(text);
    if ts.Some? {
      LexExact(text, ts.value);
      if ParseValue(ts.value).Some? {
        ParseExact(ts.value, ParseValue(ts.value).value.0, ParseValue(ts.value).value.1);
      }
    }
    if rest :| Spells(text, ToksOnto(j, rest)) {
      LexExact(text, ToksOnto(j, rest));
      if Compact(j) == j {
        ParseExact(ToksOnto(j, rest), j, rest);
      }
    }
  }

  // ----- numbers -----

  /** An optional minus, digits without zeros in front, perhaps a point and digits, perhaps an exponent. */
  predicate NumberOf(t: string, sign: string, whole: string, fraction: string, exponent: string) {
    && t == sign + (whole + (fraction + exponent)) && sign in {"", "-"}
    && whole != "" && AllDigits(whole) && (whole[0] == '0' ==> whole == "0")
    && TailOf(fraction, exponent)
  }

  predicate TailOf(fraction: string, exponent: string) {
    && (fraction == "" || (|fraction| > 1 && fraction[0] == '.' && AllDigits(fraction[1..])))
    && (exponent == ""
        || (|exponent| > 1 && exponent[0] in {'e', 'E'} && AllDigits(exponent[1..]))
        || (|exponent| > 2 && exponent[0] in {'e', 'E'} && exponent[1] in {'+', '-'} && AllDigits(exponent[2..])))
  }

  lemma {:induction false} SpanAt(digits: string, rest: string)
    requires AllDigits(digits) && (rest == "" || !IsDigit(rest[0]))
    ensures Span(digits + rest) == |digits|
    ensures (digits + rest)[..|digits|] == digits && (digits + rest)[|digits|..] == rest
  {
    if digits == "" {
      assert digits + rest == rest;
    } else {
      SpanAt(digits[1..], rest);
      assert (digits + rest)[1..] == digits[1..] + rest;
    }
  }

  lemma ExponentExact(e: string)
    ensures IsExponent(e) <==> TailOf("", e)
    ensures IsExponent(e) ==> e == "" || (!IsDigit(e[0]) && e[0] != '.')
  {
    if IsExponent(e) && e != "" && !(|e| > 1 && e[1] in {'+', '-'}) {
      assert AllDigits(e[1..]);
    }
  }

  lemma TailIsTaken(fraction: string, exponent: string)
    requires TailOf(fraction, exponent)
    ensures IsFraction(fraction + exponent)
    ensures fraction + exponent == "" || !IsDigit((fraction + exponent)[0])
  {
    hide Span, IsExponent;
    ExponentExact(exponent);
    var rest := fraction + exponent;
    if fraction != "" {
      assert rest[1..] == fraction[1..] + exponent;
      SpanAt(fraction[1..], exponent);
      assert rest[1 + |fraction[1..]|..] == exponent;
    } else {
      assert rest == exponent;
    }
  }

  lemma TailIsSpelt(rest: string) returns (fraction: string, exponent: string)
    requires IsFraction(rest)
    ensures rest == fraction + exponent && TailOf(fraction, exponent)
  {
    hide Span, IsExponent;
    var m := if rest != "" && rest[0] == '.' then 1 + Span(rest[1..]) else 0;
    fraction, exponent := rest[..m], rest[m..];
    assert m > 0 ==> fraction[1..] == rest[1..][..m - 1];
    ExponentExact(exponent);
  }

  lemma NumberIsTaken(t: string, sign: string, whole: string, fraction: string, exponent: string)
    requires NumberOf(t, sign, whole, fraction, exponent)
    ensures IsJsonNumber(t)
  {
    hide Span, IsFraction, TailOf;
    var u, rest := whole + (fraction + exponent), fraction + exponent;
    assert sign == "" ==> t == u;
    assert sign == "-" ==> t[0] == '-' && t[1..] == u;
    assert u[0] == whole[0] && IsDigit(whole[0]);
    TailIsTaken(fraction, exponent);
    SpanAt(whole, rest);
  }

  /** The texts taken for numbers are exactly those of the grammar. */
  lemma NumberExact(t: string)
    ensures IsJsonNumber(t) <==>
            exists sign, whole, fraction, exponent :: NumberOf(t, sign, whole, fraction, exponent)
  {
    hide IsJsonNumber, NumberOf;
    if IsJsonNumber(t) {
      NumberIsSpelt(t);
    }
    if sign, whole, fraction, exponent :| NumberOf(t, sign, whole, fraction, exponent) {
      NumberIsTaken(t, sign, whole, fraction, exponent);
    }
  }

  lemma NumberIsSpelt(t: string)
    requires IsJsonNumber(t)
    ensures exists sign, whole, fraction, exponent :: NumberOf(t, sign, whole, fraction, exponent)
  {
    hide Span, IsFraction, TailOf;
    var sign := if t != [] && t[0] == '-' then "-" else "";
    var u := if t != [] && t[0] == '-' then t[1..] else t;
    var k := Span(u);
    var fraction, exponent := TailIsSpelt(u[k..]);
    assert u == u[..k] + u[k..];
    assert t == sign + u;
    assert NumberOf(t, sign, u[..k], fraction, exponent);
  }

  // ----- strings -----

  /** The short escapes: themselves for three characters, and five control characters. */
  function Escaped(c: char): Option<char> {
    if c in {'"', '\\', '/'} then Some(c)
    else if c in {'b', 'f', 'n', 'r', 't'} then
      Some(match c
           case 'b' => '\U{0008}'
           case 'f' => '\U{000C}'
           case 'n' => '\U{000A}'
           case 'r' => '\U{000D}'
           case _ => '\U{0009}')
    else None
  }

  /** A backslash and a character in front of more of the string: only the short escapes are taken. */
  lemma ShortEscapes(c: char, rest: string)
    requires c != 'u'
    ensures Unquote(['\\', c] + rest) == if Escaped(c).None? then None else PrependChar(Escaped(c).value, Unquote(rest))
  {
    assert (['\\', c] + rest)[2..] == rest;
    assert ShortEscape(c) == Escaped(c);
    hide ShortEscape, Escaped;
  }

  /** Any other character stands for itself, except control characters and the quotation mark. */
  lemma BareCharacters(c: char, rest: string)
    requires c != '\\'
    ensures Unquote([c] + rest) == if c < ' ' || c == '"' then None else PrependChar(c, Unquote(rest))
  {
    assert ([c] + rest)[1..] == rest;
  }

  /** Hexadecimal digits, in either case. */
  lemma HexDigits(c: char, d: nat)
    requires d < 16
    ensures HexValue(c) == Some(d) <==> c == "0123456789abcdef"[d] || c == "0123456789ABCDEF"[d]
  {}

  /** A character by its code: four digits, or a pair of surrogates beyond them; a surrogate on its own is
      replaced. */
  lemma CodeEscapes(unit: nat, low: nat, hex: string, lowHex: string, rest: string)
    requires unit < 0x1_0000 && |hex| == 4 && Hex4Value(hex) == Some(unit)
    requires 0xDC00 <= low < 0xE000 && |lowHex| == 4 && Hex4Value(lowHex) == Some(low)
    ensures !(0xD800 <= unit < 0xE000) ==> Unquote("\\u" + hex + rest) == PrependChar(unit as char, Unquote(rest))
    ensures 0xD800 <= unit < 0xDC00 ==>
              Unquote("\\u" + hex + ("\\u" + lowHex + rest)) ==
              PrependChar((0x10000 + (unit - 0xD800) * 0x400 + (low - 0xDC00)) as char, Unquote(rest))
    ensures 0xD800 <= unit < 0xE000 && (rest == "" || rest[0] != '\\') ==>
              Unquote("\\u" + hex + rest) == PrependChar('\U{FFFD}', Unquote(rest))
  {
    hide Hex4Value;
    UnitOf(hex, rest);
    var pair := "\\u" + lowHex + rest;
    UnitOf(hex, pair);
    assert pair[..2] == "\\u" && pair[2..6] == lowHex && pair[6..] == rest;
    hide Unquote;
  }

  lemma UnitOf(hex: string, rest: string)
    requires |hex| == 4 && Hex4Value(hex).Some?
    ensures Unquote("\\u" + hex + rest) == UnquoteUnit(Hex4Value(hex).value, rest)
  {
    hide Hex4Value, UnquoteUnit;
    var raw := "\\u" + hex + rest;
    assert raw[0] == '\\' && raw[1] == 'u' && raw[2..6] == hex && raw[6..] == rest;
  }
}
