/** Printing and parsing of `google.protobuf.Duration` (`Common/jsonpb/encode.go`, `decode.go`). */
module Duration {
  import opened Decimal
  import opened JsonText
  import opened Results

  datatype DurationError = SecondsOutOfRange | NanosOutOfRange | SignsDiffer

  const MAX_SECONDS := 315576000000
  const SECOND := 1_000_000_000
  const TWO_TO_THE_63 := 0x8000_0000_0000_0000

  function Pow10(k: nat): (p: nat)
    ensures p > 0
  {
    if k == 0 then 1 else 10 * Pow10(k - 1)
  }

  /** `%0<w>d` of a number with at most `w` digits. */
  function Pad(n: nat, w: nat): (s: string)
    ensures |s| == w && AllDigits(s)
  {
    if w == 0 then "" else Pad(n / 10, w - 1) + [DigitChar(n % 10)]
  }

  predicate EndsWith(x: string, suffix: string) {
    |suffix| <= |x| && x[|x| - |suffix|..] == suffix
  }

  /** `strings.TrimSuffix`. */
  function TrimSuffix(x: string, suffix: string): string {
    if EndsWith(x, suffix) then x[..|x| - |suffix|] else x
  }

  function Abs(n: int): nat {
    if n < 0 then -n else n
  }

  function Sign(s: int, ns: int): string {
    if s < 0 || ns < 0 then "-" else ""
  }

  predicate Accepted(s: int, ns: int) {
    -MAX_SECONDS <= s <= MAX_SECONDS && -SECOND < ns < SECOND && !(s > 0 && ns < 0) && !(s < 0 && ns > 0)
  }

  function Print(s: int, ns: int): (r: Result<string, DurationError>)
    ensures r.Ok? <==> Accepted(s, ns)
    ensures r.Ok? <==> && -315576000000 <= s <= 315576000000 && -999999999 <= ns <= 999999999
                       && !(s > 0 && ns < 0) && !(s < 0 && ns > 0)
  {
    if s < -MAX_SECONDS || s > MAX_SECONDS then Err(SecondsOutOfRange)
    else if ns <= -SECOND || ns >= SECOND then Err(NanosOutOfRange)
    else if (s > 0 && ns < 0) || (s < 0 && ns > 0) then Err(SignsDiffer)
    else
      var x := Sign(s, ns) + Digits(Abs(s)) + "." + Pad(Abs(ns), 9);
      var x := TrimSuffix(x, "000");
      var x := TrimSuffix(x, "000");
      var x := TrimSuffix(x, ".000");
      Ok(x + "s")
  }

  /** The number of fractional digits the output has. */
  function FractionDigits(n: nat): nat {
    if n == 0 then 0 else if n % 1_000_000 == 0 then 3 else if n % 1_000 == 0 then 6 else 9
  }

  function Fraction(n: nat): string {
    match FractionDigits(n)
    case 0 => ""
    case 3 => "." + Pad(n / 1_000_000, 3)
    case 6 => "." + Pad(n / 1_000, 6)
    case _ => "." + Pad(n, 9)
  }

  lemma LastThreeDigits(n: nat)
    ensures n / 10 / 10 / 10 == n / 1000
    ensures n % 1000 == 0 <==> n % 10 == 0 && n / 10 % 10 == 0 && n / 10 / 10 % 10 == 0
  {}

  lemma PadLastThree(n: nat, w: nat)
    requires w >= 3
    ensures Pad(n, w)[..w - 3] == Pad(n / 1000, w - 3)
    ensures EndsWith(Pad(n, w), "000") <==> n % 1000 == 0
  {
    LastThreeDigits(n);
    var a, b, c := DigitChar(n / 10 / 10 % 10), DigitChar(n / 10 % 10), DigitChar(n % 10);
    assert Pad(n, w) == Pad(n / 10, w - 1) + [c];
    assert Pad(n / 10, w - 1) == Pad(n / 10 / 10, w - 2) + [b];
    assert Pad(n / 10 / 10, w - 2) == Pad(n / 10 / 10 / 10, w - 3) + [a];
    assert Pad(n, w)[w - 3..] == [a, b, c];
  }

  lemma TrimPadded(head: string, n: nat, w: nat)
    requires w >= 3
    ensures TrimSuffix(head + Pad(n, w), "000") ==
            if n % 1000 == 0 then head + Pad(n / 1000, w - 3) else head + Pad(n, w)
  {
    PadLastThree(n, w);
    var x := head + Pad(n, w);
    assert x[|x| - 3..] == Pad(n, w)[w - 3..];
    assert x[..|x| - 3] == head + Pad(n, w)[..w - 3];
  }

  lemma TrimPoint(head: string, n: nat, w: nat)
    requires w >= 3
    ensures TrimSuffix(head + "." + Pad(n, w), ".000") ==
            if w == 3 && n % 1000 == 0 then head else head + "." + Pad(n, w)
  {
    PadLastThree(n, w);
    var x := head + "." + Pad(n, w);
    var tail := x[|x| - 4..];
    assert tail[1..] == Pad(n, w)[w - 3..];
    if w == 3 {
      assert tail[0] == '.';
      assert x[..|x| - 4] == head;
    } else {
      assert tail[0] == Pad(n, w)[w - 4];
      assert !IsDigit('.');
    }
    assert tail == ".000" <==> tail[0] == '.' && tail[1..] == "000";
  }

  lemma Thousands(n: nat)
    requires n < SECOND
    ensures n / 1000 % 1000 == 0 && n % 1000 == 0 <==> n % 1_000_000 == 0
    ensures n / 1000 / 1000 == n / 1_000_000
    ensures n % 1_000_000 == 0 ==> (n / 1_000_000 % 1000 == 0 <==> n == 0)
  {}

  lemma TrimThrice(h: string, n: nat)
    requires n < SECOND
    ensures TrimSuffix(TrimSuffix(TrimSuffix(h + "." + Pad(n, 9), "000"), "000"), ".000") == h + Fraction(n)
  {
    hide Pad, TrimSuffix;
    var head := h + ".";
    Thousands(n);
    TrimPadded(head, n, 9);
    if n % 1000 != 0 {
      TrimPoint(h, n, 9);
      assert h + ("." + Pad(n, 9)) == head + Pad(n, 9);
    } else {
      TrimPadded(head, n / 1000, 6);
      if n % 1_000_000 != 0 {
        TrimPoint(h, n / 1000, 6);
        assert h + ("." + Pad(n / 1000, 6)) == head + Pad(n / 1000, 6);
      } else {
        TrimPoint(h, n / 1_000_000, 3);
        assert h + ("." + Pad(n / 1_000_000, 3)) == head + Pad(n / 1_000_000, 3);
        assert h + "" == h;
      }
    }
  }

  /** The output is the sign, the seconds, and as many fractional digits as `FractionDigits` says. */
  lemma PrintShape(s: int, ns: int)
    requires Accepted(s, ns)
    ensures Print(s, ns) == Ok(Sign(s, ns) + Digits(Abs(s)) + Fraction(Abs(ns)) + "s")
  {
    hide Pad, Digits, TrimSuffix, Fraction, Sign;
    TrimThrice(Sign(s, ns) + Digits(Abs(s)), Abs(ns));
  }

  /** 0, 3, 6 or 9 digits, the fewest that lose nothing. */
  lemma FewestDigits(n: nat, d: nat)
    requires n < SECOND && d in {0, 3, 6, 9}
    ensures FractionDigits(n) in {0, 3, 6, 9}
    ensures n % Pow10(9 - d) == 0 <==> FractionDigits(n) <= d
  {
    assert Pow10(9) == 1_000_000_000 && Pow10(6) == 1_000_000 && Pow10(3) == 1_000 && Pow10(0) == 1;
  }

  // ----- parsing -----

  /** The nanoseconds that fractional digits of a second denote, to nine places. */
  function FractionNanos(digits: string): nat
    requires AllDigits(digits)
  {
    if |digits| <= 9 then NatOf(digits) * Pow10(9 - |digits|) else NatOf(digits[..9])
  }

  /** The unsigned part of `Parse`: digits, optionally a point and more digits, and the unit. */
  function Magnitude(t: string): Option<nat> {
    var k := Span(t);
    MagnitudeFrom(t[..k], t[k..])
  }

  function MagnitudeFrom(digits: string, rest: string): Option<nat>
    requires AllDigits(digits)
  {
    if rest != "" && rest[0] == '.' then
      var m := Span(rest[1..]);
      if |digits| + m == 0 || rest[1..][m..] != "s" then None
      else Some(NatOf(digits) * SECOND + FractionNanos(rest[1..][..m]))
    else if digits == "" || rest != "s" then None
    else Some(NatOf(digits) * SECOND)
  }

  /** `time.ParseDuration` on a number of seconds; the total is in nanoseconds. */
  function Parse(text: string): Option<int> {
    var neg := text != "" && text[0] == '-';
    var t := if text != "" && text[0] in {'-', '+'} then text[1..] else text;
    if t == "0" then Some(0) else
      var m := Magnitude(t);
      if m.None? || m.value >= TWO_TO_THE_63 then None
      else
        var total := m.value as int;
        Some(if neg then -total else total)
  }

  /** Go's integer division and remainder, which truncate toward zero. */
  function TruncDiv(a: int, b: int): int
    requires b > 0
  {
    if a < 0 then -(-a / b) else a / b
  }

  function TruncMod(a: int, b: int): int
    requires b > 0
  {
    a - TruncDiv(a, b) * b
  }

  lemma {:induction false} NatOfPad(n: nat, w: nat)
    requires n < Pow10(w)
    ensures NatOf(Pad(n, w)) == n
  {
    if w > 0 {
      NatOfPad(n / 10, w - 1);
      assert Pad(n, w)[..w - 1] == Pad(n / 10, w - 1);
    }
  }

  lemma FractionValue(n: nat)
    requires 0 < n < SECOND
    ensures Fraction(n) != "" && Fraction(n)[0] == '.' && AllDigits(Fraction(n)[1..])
    ensures 1 <= |Fraction(n)[1..]| <= 9 && FractionNanos(Fraction(n)[1..]) == n
  {
    hide Pad, NatOf;
    var d := FractionDigits(n);
    assert Pow10(9) == 1_000_000_000 && Pow10(6) == 1_000_000 && Pow10(3) == 1_000 && Pow10(0) == 1;
    var p := if d == 3 then n / 1_000_000 else if d == 6 then n / 1_000 else n;
    NatOfPad(p, d);
    assert Fraction(n) == "." + Pad(p, d);
    assert Fraction(n)[1..] == Pad(p, d);
  }

  lemma {:induction false} SpanOf(digits: string, rest: string)
    requires AllDigits(digits) && (rest == "" || !IsDigit(rest[0]))
    ensures Span(digits + rest) == |digits|
    ensures (digits + rest)[..|digits|] == digits && (digits + rest)[|digits|..] == rest
  {
    if digits == "" {
      assert digits + rest == rest;
    } else {
      SpanOf(digits[1..], rest);
      assert (digits + rest)[1..] == digits[1..] + rest;
    }
  }

  lemma MagnitudeOf(n: nat, f: nat)
    requires f < SECOND
    ensures Magnitude(Digits(n) + (Fraction(f) + "s")) == Some(n * SECOND + f)
  {
    hide Fraction, NatOf, Digits, Span, FractionNanos;
    var d, rest := Digits(n), Fraction(f) + "s";
    NatOfDigits(n);
    if f == 0 {
      NoFraction();
      assert rest == "s";
      SpanOf(d, rest);
    } else {
      FractionValue(f);
      var ds := Fraction(f)[1..];
      assert rest[0] == '.';
      assert rest[1..] == ds + "s";
      SpanOf(d, rest);
      SpanOf(ds, "s");
    }
  }

  lemma SignApart(sign: string, t: string)
    requires sign in {"", "-"} && t != "" && IsDigit(t[0])
    ensures var text := sign + t;
            && text != "" && (text[0] == '-' <==> sign == "-")
            && (if text[0] in {'-', '+'} then text[1..] else text) == t
  {
    var text := sign + t;
    if sign == "-" {
      assert text[0] == '-' && text[1..] == t;
    } else {
      assert text == t;
    }
  }

  lemma ParseSigned(sign: string, t: string, total: nat)
    requires sign in {"", "-"} && t != "" && IsDigit(t[0]) && t[|t| - 1] == 's' && Magnitude(t) == Some(total)
    ensures Parse(sign + t) ==
            if total >= TWO_TO_THE_63 then None else Some(if sign == "-" then -(total as int) else total)
  {
    hide Magnitude;
    SignApart(sign, t);
    assert t != "0";
  }

  lemma ParseUnsigned(sign: string, n: nat, f: nat)
    requires f < SECOND && sign in {"", "-"}
    ensures var total := n * SECOND + f;
            Parse(sign + Digits(n) + Fraction(f) + "s") ==
            if total >= TWO_TO_THE_63 then None else Some(if sign == "-" then -total else total)
  {
    hide Fraction, Digits, Magnitude, Parse;
    var t := Digits(n) + (Fraction(f) + "s");
    assert sign + Digits(n) + Fraction(f) + "s" == sign + t;
    MagnitudeOf(n, f);
    ParseSigned(sign, t, n * SECOND + f);
  }

  lemma NoFraction()
    ensures Fraction(0) == ""
  {}

  /** What `time.ParseDuration` of Go 1.17 takes: it builds the magnitude in 64 bits before the sign, so
      -2^63 is refused. */
  predicate InParseRange(total: int) {
    -TWO_TO_THE_63 < total < TWO_TO_THE_63
  }

  /** Every accepted duration prints to a text that denotes exactly its nanoseconds; parsing gives
      that total back when it fits 64 bits, and rejects the text when it does not. */
  lemma ParsePrint(s: int, ns: int)
    requires Accepted(s, ns)
    ensures Print(s, ns).Ok?
    ensures Parse(Print(s, ns).value) ==
            if InParseRange(s * SECOND + ns) then Some(s * SECOND + ns) else None
  {
    hide Print, Parse, Fraction;
    PrintShape(s, ns);
    ParseUnsigned(Sign(s, ns), Abs(s), Abs(ns));
  }

  // ----- the texts that are read -----

  /** `text` is a signed number of seconds, with fractional digits behind the point if there is one; its
      nanoseconds, to nine places, fit 63 bits. */
  predicate Spells(text: string, sign: string, whole: string, point: bool, fraction: string, total: int) {
    && sign in {"", "+", "-"} && AllDigits(whole) && AllDigits(fraction) && |whole| + |fraction| > 0
    && (!point ==> fraction == "")
    && text == sign + (whole + ((if point then "." + fraction else "") + "s"))
    && var nanos := NatOf(whole) * 1_000_000_000 + NinePlaces(fraction);
    && nanos < 9_223_372_036_854_775_808
    && total == if sign == "-" then -nanos else nanos
  }

  /** The first nine fractional digits, with zeros for those that are missing. */
  function NinePlaces(fraction: string): nat
    requires AllDigits(fraction)
  {
    NatOf((fraction + Zeros(9))[..9])
  }

  lemma {:induction false} NatOfTimes(d: string, k: nat)
    requires AllDigits(d)
    ensures AllDigits(d + Zeros(k)) && NatOf(d + Zeros(k)) == NatOf(d) * Pow10(k)
  {
    if k == 0 {
      assert d + Zeros(0) == d;
    } else {
      NatOfTimes(d, k - 1);
      assert (d + Zeros(k))[..|d| + k - 1] == d + Zeros(k - 1);
    }
  }

  lemma NinePlacesIs(fraction: string)
    requires AllDigits(fraction)
    ensures NinePlaces(fraction) == FractionNanos(fraction)
  {
    hide NatOf, Pow10;
    if |fraction| <= 9 {
      assert (fraction + Zeros(9))[..9] == fraction + Zeros(9 - |fraction|);
      NatOfTimes(fraction, 9 - |fraction|);
    } else {
      assert (fraction + Zeros(9))[..9] == fraction[..9];
    }
  }

  lemma UnsignedIsRead(whole: string, point: bool, fraction: string)
    requires AllDigits(whole) && AllDigits(fraction) && |whole| + |fraction| > 0 && (!point ==> fraction == "")
    ensures Magnitude(whole + ((if point then "." + fraction else "") + "s")) ==
            Some(NatOf(whole) * 1_000_000_000 + NinePlaces(fraction))
  {
    hide NatOf, Span, NinePlaces, MagnitudeFrom, Magnitude;
    if point {
      assert ("." + fraction) + "s" == "." + (fraction + "s");
      UnsignedParts(whole, "." + (fraction + "s"));
      FractionIsRead(whole, fraction);
    } else {
      assert "" + "s" == "s";
      UnsignedParts(whole, "s");
      WholeIsRead(whole);
    }
  }

  lemma UnsignedParts(whole: string, rest: string)
    requires AllDigits(whole) && rest != "" && !IsDigit(rest[0])
    ensures Magnitude(whole + rest) == MagnitudeFrom(whole, rest)
  {
    hide MagnitudeFrom, Span;
    SpanOf(whole, rest);
  }

  lemma FractionIsRead(whole: string, fraction: string)
    requires AllDigits(whole) && AllDigits(fraction) && |whole| + |fraction| > 0
    ensures MagnitudeFrom(whole, "." + (fraction + "s")) == Some(NatOf(whole) * 1_000_000_000 + NinePlaces(fraction))
  {
    hide NatOf, Span, NinePlaces, FractionNanos;
    var rest := "." + (fraction + "s");
    assert rest[1..] == fraction + "s";
    SpanOf(fraction, "s");
    NinePlacesIs(fraction);
  }

  lemma WholeIsRead(whole: string)
    requires AllDigits(whole) && whole != ""
    ensures MagnitudeFrom(whole, "s") == Some(NatOf(whole) * 1_000_000_000 + NinePlaces(""))
  {
    hide NatOf, NinePlaces, FractionNanos;
    NinePlacesIs("");
    NoPlaces();
  }

  lemma NoPlaces()
    ensures FractionNanos("") == 0
  {}

  lemma SpeltIsRead(text: string, sign: string, whole: string, point: bool, fraction: string, total: int)
    requires Spells(text, sign, whole, point, fraction, total)
    ensures Parse(text) == Some(total)
  {
    hide NatOf, Magnitude, NinePlaces;
    var t := whole + ((if point then "." + fraction else "") + "s");
    UnsignedIsRead(whole, point, fraction);
    assert t[|t| - 1] == 's';
    assert t[0] in {'.', 's'} || IsDigit(t[0]);
    assert sign == "" ==> sign + t == t;
    assert sign != "" ==> text[0] == sign[0] && text[1..] == t;
  }

  lemma MagnitudeIsSpelt(t: string) returns (whole: string, point: bool, fraction: string)
    requires Magnitude(t).Some?
    ensures AllDigits(whole) && AllDigits(fraction) && |whole| + |fraction| > 0 && (!point ==> fraction == "")
    ensures t == whole + ((if point then "." + fraction else "") + "s")
    ensures Magnitude(t) == Some(NatOf(whole) * 1_000_000_000 + NinePlaces(fraction))
  {
    hide NatOf, Span, NinePlaces, FractionNanos;
    NoPlaces();
    var k := Span(t);
    var rest := t[k..];
    whole, point, fraction := t[..k], rest != "" && rest[0] == '.', "";
    if point {
      var m := Span(rest[1..]);
      fraction := rest[1..][..m];
      assert rest == "." + (fraction + rest[1..][m..]);
    }
    NinePlacesIs(fraction);
  }

  /** The texts that are read are exactly the numbers of seconds that fit, and 0 without a unit. */
  lemma ParseExact(text: string, total: int)
    ensures Parse(text) == Some(total) <==>
            || (text in {"0", "+0", "-0"} && total == 0)
            || exists sign, whole, point, fraction :: Spells(text, sign, whole, point, fraction, total)
  {
    hide Magnitude, NatOf, Spells, NinePlaces;
    if sign, whole, point, fraction :| Spells(text, sign, whole, point, fraction, total) {
      SpeltIsRead(text, sign, whole, point, fraction, total);
    }
    if Parse(text) == Some(total) {
      ReadIsSpelt(text, total);
    }
  }

  lemma ReadIsSpelt(text: string, total: int)
    requires Parse(text) == Some(total)
    ensures (text in {"0", "+0", "-0"} && total == 0)
            || exists sign, whole, point, fraction :: Spells(text, sign, whole, point, fraction, total)
  {
    hide Magnitude, NatOf, NinePlaces;
    var sign := if text != "" && text[0] == '-' then "-" else if text != "" && text[0] == '+' then "+" else "";
    var t := if text != "" && text[0] in {'-', '+'} then text[1..] else text;
    assert text == sign + t;
    if t == "0" {
      assert text == (if sign == "-" then "-0" else if sign == "+" then "+0" else "0");
    } else {
      var whole, point, fraction := MagnitudeIsSpelt(t);
      assert Spells(text, sign, whole, point, fraction, total);
    }
  }

  /** Splitting the total with truncating division restores the pair. */
  lemma SplitTotal(s: int, ns: int)
    requires Accepted(s, ns)
    ensures var total := s * SECOND + ns; TruncDiv(total, SECOND) == s && TruncMod(total, SECOND) == ns
  {
    var a, b := Abs(s), Abs(ns);
    assert (a * SECOND + b) / SECOND == a;
  }

  lemma PlainParts(s: string, t: string)
    requires Plain(s) && Plain(t)
    ensures Plain(s + t)
  {}

  lemma DigitsPlain(s: string)
    requires AllDigits(s)
    ensures Plain(s)
  {}

  /** The output needs no escapes. */
  lemma PrintPlain(s: int, ns: int)
    requires Accepted(s, ns)
    ensures Plain(Print(s, ns).value)
  {
    hide Plain, Digits, Pad, Print;
    PrintShape(s, ns);
    var n := Abs(ns);
    DigitsPlain(Digits(Abs(s)));
    DigitsPlain(Pad(n, 9));
    DigitsPlain(Pad(n / 1_000, 6));
    DigitsPlain(Pad(n / 1_000_000, 3));
    PlainLiterals();
    PlainParts(".", Pad(n, 9));
    PlainParts(".", Pad(n / 1_000, 6));
    PlainParts(".", Pad(n / 1_000_000, 3));
    PlainParts(Sign(s, ns), Digits(Abs(s)));
    PlainParts(Sign(s, ns) + Digits(Abs(s)), Fraction(n));
    PlainParts(Sign(s, ns) + Digits(Abs(s)) + Fraction(n), "s");
  }

  lemma PlainLiterals()
    ensures Plain("") && Plain(".") && Plain("-") && Plain("s")
  {}
}
