/** JSON texts: their strings, tokens and values, and a reader for them (RFC 8259). */
module JsonText {
  import opened Decimal
  import opened Results

  /** A JSON value as written: literals and numbers as text, strings as the raw characters between
      the quotes, arrays and objects with the white space around their parts. */
  datatype Json =
    | Atom(text: string)
    | Str(raw: string)
    | Arr(items: seq<Item>, close: string)
    | Obj(members: seq<Member>, close: string)

  datatype Item = Item(before: string, value: Json)

  datatype Member = Member(before: string, key: string, after: string, value: Json)

  // ----- strings -----

  const HEX := "0123456789abcdef"

  function Hex4(n: nat): string
    requires n < 0x1_0000
  {
    [HEX[n / 0x10 / 0x10 / 0x10], HEX[n / 0x10 / 0x10 % 0x10], HEX[n / 0x10 % 0x10], HEX[n % 0x10]]
  }

  /** How `json.Marshal` writes one character of a string. */
  function Escape(c: char): string {
    if c == '"' || c == '\\' then ['\\', c]
    else if c == '\n' then "\\n"
    else if c == '\r' then "\\r"
    else if c == '\t' then "\\t"
    else if c < ' ' || c in {'<', '>', '&', '\U{2028}', '\U{2029}'} then "\\u" + Hex4(c as int)
    else [c]
  }

  function Quote(s: string): string {
    if s == [] then [] else Escape(s[0]) + Quote(s[1..])
  }

  function HexValue(c: char): (v: Option<nat>)
    ensures v.Some? ==> v.value < 16
  {
    if '0' <= c <= '9' then Some(c as int - '0' as int)
    else if 'a' <= c <= 'f' then Some(c as int - 'a' as int + 10)
    else if 'A' <= c <= 'F' then Some(c as int - 'A' as int + 10)
    else None
  }

  function Hex4Value(s: string): (r: Option<nat>)
    requires |s| == 4
    ensures r.Some? ==> r.value < 0x1_0000
  {
    var a, b, c, d := HexValue(s[0]), HexValue(s[1]), HexValue(s[2]), HexValue(s[3]);
    if a.None? || b.None? || c.None? || d.None? then None
    else Some(((a.value * 0x10 + b.value) * 0x10 + c.value) * 0x10 + d.value)
  }

  const REPLACEMENT := '\U{FFFD}'

  function PrependChar(c: char, r: Option<string>): Option<string> {
    if r.Some? then Some([c] + r.value) else None
  }

  function ShortEscape(c: char): Option<char> {
    if c == '"' || c == '\\' || c == '/' then Some(c)
    else if c == 'b' then Some('\U{0008}')
    else if c == 'f' then Some('\U{000C}')
    else if c == 'n' then Some('\n')
    else if c == 'r' then Some('\r')
    else if c == 't' then Some('\t')
    else None
  }

  /** Decodes the raw characters of a string; `None` when they are not those of a JSON string. */
  function Unquote(raw: string): Option<string>
    decreases |raw|
  {
    if raw == [] then Some([])
    else if raw[0] == '\\' then
      if |raw| == 1 then None
      else if raw[1] == 'u' then
        if |raw| < 6 || Hex4Value(raw[2..6]).None? then None
        else UnquoteUnit(Hex4Value(raw[2..6]).value, raw[6..])
      else
        var e := ShortEscape(raw[1]);
        if e.None? then None else PrependChar(e.value, Unquote(raw[2..]))
    else if raw[0] < ' ' || raw[0] == '"' then None
    else PrependChar(raw[0], Unquote(raw[1..]))
  }

  /** Decodes what follows a `\u` unit: surrogates count in pairs, a lone one is replaced. */
  function UnquoteUnit(unit: nat, rest: string): Option<string>
    requires unit < 0x1_0000
    decreases |rest| + 1
  {
    if unit < 0xD800 || 0xE000 <= unit then PrependChar(unit as char, Unquote(rest))
    else if unit < 0xDC00 && |rest| >= 6 && rest[..2] == "\\u" && Hex4Value(rest[2..6]).Some?
            && 0xDC00 <= Hex4Value(rest[2..6]).value < 0xE000
    then PrependChar((0x1_0000 + (unit - 0xD800) * 0x400 + (Hex4Value(rest[2..6]).value - 0xDC00)) as char,
                     Unquote(rest[6..]))
    else PrependChar(REPLACEMENT, Unquote(rest))
  }

  lemma HexDigitValue(d: nat)
    requires d < 16
    ensures HexValue(HEX[d]) == Some(d)
  {}

  lemma Hex4RoundTrip(n: nat)
    requires n < 0x1_0000
    ensures Hex4Value(Hex4(n)) == Some(n)
  {
    hide HexValue;
    HexDigitValue(n / 0x10 / 0x10 / 0x10);
    HexDigitValue(n / 0x10 / 0x10 % 0x10);
    HexDigitValue(n / 0x10 % 0x10);
    HexDigitValue(n % 0x10);
  }

  lemma UnquoteEscape(c: char, rest: string)
    ensures Unquote(Escape(c) + rest) == PrependChar(c, Unquote(rest))
  {
    var raw := Escape(c) + rest;
    if c == '"' || c == '\\' || c == '\n' || c == '\r' || c == '\t' {
      assert raw[0] == '\\' && raw[2..] == rest;
    } else if c < ' ' || c in {'<', '>', '&', '\U{2028}', '\U{2029}'} {
      Hex4RoundTrip(c as int);
      assert raw[0] == '\\' && raw[1] == 'u' && raw[2..6] == Hex4(c as int) && raw[6..] == rest;
    } else {
      assert raw[0] == c && raw[1..] == rest;
    }
  }

  /** Quoting loses nothing. */
  lemma {:induction false} UnquoteQuote(s: string)
    ensures Unquote(Quote(s)) == Some(s)
  {
    if s == [] {
    } else {
      UnquoteQuote(s[1..]);
      UnquoteEscape(s[0], Quote(s[1..]));
      assert s == [s[0]] + s[1..];
    }
  }

  /** A raw string can stand between quotes: no bare quote, no lone backslash at its end. */
  predicate RawOk(raw: string) {
    if raw == [] then true
    else if raw[0] == '\\' then |raw| >= 2 && RawOk(raw[2..])
    else raw[0] != '"' && RawOk(raw[1..])
  }

  lemma Hex4Plain(n: nat)
    requires n < 0x1_0000
    ensures forall i :: 0 <= i < 4 ==> Hex4(n)[i] != '"' && Hex4(n)[i] != '\\'
  {
    assert forall d :: 0 <= d < 16 ==> HEX[d] != '"' && HEX[d] != '\\';
  }

  lemma RawOkEscape(c: char, rest: string)
    requires RawOk(rest)
    ensures RawOk(Escape(c) + rest)
  {
    var raw := Escape(c) + rest;
    if c == '"' || c == '\\' || c == '\n' || c == '\r' || c == '\t' {
      assert raw[2..] == rest;
    } else if c < ' ' || c in {'<', '>', '&', '\U{2028}', '\U{2029}'} {
      var hex := Hex4(c as int);
      hide Hex4;
      Hex4Plain(c as int);
      assert raw[2..] == hex + rest;
      PlainPrefix(hex, rest);
    } else {
      assert raw[1..] == rest;
    }
  }

  lemma {:induction false} PlainPrefix(plain: string, rest: string)
    requires RawOk(rest) && forall i :: 0 <= i < |plain| ==> plain[i] != '"' && plain[i] != '\\'
    ensures RawOk(plain + rest)
  {
    if plain == [] {
      assert plain + rest == rest;
    } else {
      PlainPrefix(plain[1..], rest);
      assert (plain + rest)[1..] == plain[1..] + rest;
    }
  }

  lemma {:induction false} QuoteRawOk(s: string)
    ensures RawOk(Quote(s))
  {
    if s == [] {
    } else {
      QuoteRawOk(s[1..]);
      RawOkEscape(s[0], Quote(s[1..]));
    }
  }

  /** Characters that stand for themselves, as in identifiers. */
  predicate Plain(s: string) {
    forall i :: 0 <= i < |s| ==> ' ' <= s[i] && s[i] != '"' && s[i] != '\\'
  }

  lemma {:induction false} PlainUnquotes(s: string)
    requires Plain(s)
    ensures RawOk(s) && Unquote(s) == Some(s)
  {
    if s == [] {
    } else {
      PlainUnquotes(s[1..]);
      assert s == [s[0]] + s[1..];
    }
  }

  // ----- atoms -----

  /** The length of the run of digits a text starts with. */
  function Span(t: string): (k: nat)
    ensures k <= |t| && AllDigits(t[..k])
    ensures k < |t| ==> !IsDigit(t[k])
  {
    if t == [] || !IsDigit(t[0]) then 0 else
      var k := 1 + Span(t[1..]);
      assert t[..k] == [t[0]] + t[1..][..k - 1];
      k
  }

  predicate IsJsonInt(t: string) {
    t != [] && AllDigits(t) && (t[0] == '0' ==> |t| == 1)
  }

  predicate IsExponent(t: string) {
    t == [] ||
    (t[0] in {'e', 'E'} && var w := if |t| > 1 && t[1] in {'+', '-'} then t[2..] else t[1..]; w != [] && AllDigits(w))
  }

  predicate IsFraction(t: string) {
    if t != [] && t[0] == '.' then var k := Span(t[1..]); k > 0 && IsExponent(t[1 + k..]) else IsExponent(t)
  }

  predicate IsJsonNumber(t: string) {
    var u := if t != [] && t[0] == '-' then t[1..] else t;
    var k := Span(u);
    IsJsonInt(u[..k]) && IsFraction(u[k..])
  }

  predicate ValidAtom(t: string) {
    t in {"null", "true", "false"} || IsJsonNumber(t)
  }

  lemma ItoaIsNumber(n: int)
    ensures IsJsonNumber(Itoa(n)) && Itoa(n) != "null"
  {
    var t := Itoa(n);
    var u := if n < 0 then t[1..] else t;
    assert u == Digits(if n < 0 then -n else n);
    assert !IsDigit('-');
    assert u[..|u|] == u;
    LeadingZero(if n < 0 then -n else n);
  }

  lemma LeadingZero(n: nat)
    ensures Digits(n)[0] == '0' ==> |Digits(n)| == 1
  {}

  // ----- tokens -----

  datatype Token = LBrace | RBrace | LBracket | RBracket | Comma | Colon | AtomToken(text: string) | StrToken(raw: string)

  predicate IsSpace(c: char) {
    c == ' ' || c == '\t' || c == '\n' || c == '\r'
  }

  predicate AllSpace(s: string) {
    forall i :: 0 <= i < |s| ==> IsSpace(s[i])
  }

  function Punctuation(c: char): Option<Token> {
    if c == '{' then Some(LBrace)
    else if c == '}' then Some(RBrace)
    else if c == '[' then Some(LBracket)
    else if c == ']' then Some(RBracket)
    else if c == ',' then Some(Comma)
    else if c == ':' then Some(Colon)
    else None
  }

  predicate IsAtomChar(c: char) {
    !IsSpace(c) && Punctuation(c).None? && c != '"'
  }

  function AtomEnd(s: string): (k: nat)
    ensures k <= |s|
  {
    if s == [] || !IsAtomChar(s[0]) then 0 else 1 + AtomEnd(s[1..])
  }

  /** The length of the raw string before the closing quote. */
  function StringEnd(s: string): (k: Option<nat>)
    ensures k.Some? ==> k.value < |s|
  {
    if s == [] then None
    else if s[0] == '"' then Some(0)
    else if s[0] == '\\' then
      if |s| < 2 then None
      else var k := StringEnd(s[2..]); if k.Some? then Some(k.value + 2) else None
    else var k := StringEnd(s[1..]); if k.Some? then Some(k.value + 1) else None
  }

  function PrependTokens(ts: seq<Token>, r: Option<seq<Token>>): Option<seq<Token>> {
    if r.Some? then Some(ts + r.value) else None
  }

  function Lex(s: string): Option<seq<Token>>
    decreases |s|
  {
    if s == [] then Some([])
    else if IsSpace(s[0]) then Lex(s[1..])
    else if Punctuation(s[0]).Some? then PrependTokens([Punctuation(s[0]).value], Lex(s[1..]))
    else if s[0] == '"' then
      var k := StringEnd(s[1..]);
      if k.None? || Unquote(s[1..][..k.value]).None? then None
      else PrependTokens([StrToken(s[1..][..k.value])], Lex(s[1..][k.value + 1..]))
    else
      var k := AtomEnd(s);
      assert k > 0;
      if ValidAtom(s[..k]) then PrependTokens([AtomToken(s[..k])], Lex(s[k..])) else None
  }

  lemma {:induction false} LexSpace(ws: string, rest: string)
    requires AllSpace(ws)
    ensures Lex(ws + rest) == Lex(rest)
  {
    if ws == [] {
      assert ws + rest == rest;
    } else {
      LexSpace(ws[1..], rest);
      assert (ws + rest)[1..] == ws[1..] + rest;
    }
  }

  lemma LexPunctuation(c: char, rest: string)
    requires Punctuation(c).Some?
    ensures Lex([c] + rest) == PrependTokens([Punctuation(c).value], Lex(rest))
  {
    assert ([c] + rest)[1..] == rest;
  }

  lemma {:induction false} StringEndRaw(raw: string, rest: string)
    requires RawOk(raw)
    ensures StringEnd(raw + "\"" + rest) == Some(|raw|)
  {
    var s := raw + "\"" + rest;
    if raw == [] {
    } else if raw[0] == '\\' {
      StringEndRaw(raw[2..], rest);
      assert s[2..] == raw[2..] + "\"" + rest;
    } else {
      StringEndRaw(raw[1..], rest);
      assert s[1..] == raw[1..] + "\"" + rest;
    }
  }

  lemma LexString(raw: string, rest: string)
    requires RawOk(raw) && Unquote(raw).Some?
    ensures Lex("\"" + raw + "\"" + rest) == PrependTokens([StrToken(raw)], Lex(rest))
  {
    hide Unquote, RawOk, StringEnd, ValidAtom;
    var s := "\"" + raw + "\"" + rest;
    assert s[1..] == raw + "\"" + rest;
    StringEndRaw(raw, rest);
    assert s[1..][..|raw|] == raw;
    assert s[1..][|raw| + 1..] == rest;
  }

  predicate AtomChars(s: string) {
    forall i :: 0 <= i < |s| ==> IsAtomChar(s[i])
  }

  predicate EndsAtom(rest: string) {
    rest == [] || !IsAtomChar(rest[0])
  }

  lemma {:induction false} AtomEndAt(text: string, rest: string)
    requires EndsAtom(rest) && AtomChars(text)
    ensures AtomEnd(text + rest) == |text|
  {
    if text == [] {
      assert text + rest == rest;
    } else {
      AtomEndAt(text[1..], rest);
      assert (text + rest)[1..] == text[1..] + rest;
    }
  }

  lemma LexAtom(text: string, rest: string)
    requires ValidAtom(text) && EndsAtom(rest)
    ensures Lex(text + rest) == PrependTokens([AtomToken(text)], Lex(rest))
  {
    AtomIsAtomChars(text);
    AtomEndAt(text, rest);
    assert (text + rest)[..|text|] == text && (text + rest)[|text|..] == rest;
    assert (text + rest)[0] == text[0];
  }

  lemma AtomIsAtomChars(text: string)
    requires ValidAtom(text)
    ensures text != [] && AtomChars(text)
  {
    if IsJsonNumber(text) {
      NumberChars(text);
    }
  }

  lemma NumberChars(text: string)
    requires IsJsonNumber(text)
    ensures text != [] && AtomChars(text)
  {
    hide AtomChars, IsFraction;
    var u := if text != [] && text[0] == '-' then text[1..] else text;
    var k := Span(u);
    DigitChars(u[..k]);
    FractionChars(u[k..]);
    ConcatChars(u[..k], u[k..]);
    assert u == u[..k] + u[k..];
    SignChars('-', u);
    assert text == u || text == ['-'] + u;
  }

  lemma DigitChars(s: string)
    requires AllDigits(s)
    ensures AtomChars(s)
  {}

  lemma SignChars(c: char, s: string)
    requires AtomChars(s) && IsAtomChar(c)
    ensures AtomChars([c] + s)
  {}

  lemma ConcatChars(s: string, t: string)
    requires AtomChars(s) && AtomChars(t)
    ensures AtomChars(s + t)
  {}

  lemma FractionChars(t: string)
    requires IsFraction(t)
    ensures AtomChars(t)
  {
    hide AtomChars, IsExponent;
    if t != [] && t[0] == '.' {
      var k := Span(t[1..]);
      var digits, rest := t[1..][..k], t[1 + k..];
      DigitChars(digits);
      ExponentChars(rest);
      ConcatChars(digits, rest);
      SignChars('.', digits + rest);
      assert t == ['.'] + (digits + rest);
    } else {
      ExponentChars(t);
    }
  }

  lemma ExponentChars(t: string)
    requires IsExponent(t)
    ensures AtomChars(t)
  {
    if t != [] {
      hide AtomChars;
      if |t| > 1 && t[1] in {'+', '-'} {
        DigitChars(t[2..]);
        SignChars(t[1], t[2..]);
        SignChars(t[0], [t[1]] + t[2..]);
        assert t == [t[0]] + ([t[1]] + t[2..]);
      } else {
        DigitChars(t[1..]);
        SignChars(t[0], t[1..]);
        assert t == [t[0]] + t[1..];
      }
    }
  }
}
