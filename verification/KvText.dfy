/** The text functions a gateway request is read with: `strconv.ParseInt` and `ParseBool`,
    `strings.Trim` and `Split` (`GateWay/HTTPMessage/kvmap2pb.go`). */
module KvText {
  import opened Decimal
  import opened Results

  /** `strconv.ParseInt(s, 10, bits)`: an optional sign, digits, and the range of the width. */
  function ParseInt(s: string, bits: nat): Option<int>
    requires bits in {32, 64}
  {
    var signed := s != "" && s[0] in {'+', '-'};
    var digits := if signed then s[1..] else s;
    if digits == "" || !AllDigits(digits) then None else
      var n := if s[0] == '-' then -(NatOf(digits) as int) else NatOf(digits);
      if FitsBits(n, bits) then Some(n) else None
  }

  predicate FitsBits(n: int, bits: nat)
    requires bits in {32, 64}
  {
    var limit := if bits == 32 then 0x8000_0000 else 0x8000_0000_0000_0000;
    -limit <= n < limit
  }

  function ParseBool(s: string): Option<bool> {
    if s in {"1", "t", "T", "TRUE", "true", "True"} then Some(true)
    else if s in {"0", "f", "F", "FALSE", "false", "False"} then Some(false)
    else None
  }

  /** A printed integer reads back exactly when the width holds it. */
  lemma ParseItoa(n: int, bits: nat)
    requires bits in {32, 64}
    ensures ParseInt(Itoa(n), bits) == if FitsBits(n, bits) then Some(n) else None
  {
    var m := if n < 0 then -n else n;
    NatOfDigits(m);
    assert IsDigit(Digits(m)[0]);
    assert n < 0 ==> Itoa(n)[1..] == Digits(m);
  }

  /** `s` spells `n`: its decimal text, with any zeros in front, behind an optional sign. */
  ghost predicate Numeral(s: string, n: int) {
    exists sign: string, zeros: nat :: SpeltAs(s, n, sign, zeros)
  }

  predicate SpeltAs(s: string, n: int, sign: string, zeros: nat) {
    && s == sign + (Zeros(zeros) + Digits(if n < 0 then -n else n))
    && ((sign == "-" && n <= 0) || (sign in {"", "+"} && n >= 0))
  }

  predicate InWidth(n: int, bits: nat) {
    || (bits == 32 && -2147483648 <= n <= 2147483647)
    || (bits == 64 && -9223372036854775808 <= n <= 9223372036854775807)
  }

  lemma SignApart(sign: string, d: string)
    requires sign in {"", "+", "-"} && AllDigits(d) && d != ""
    ensures var s := sign + d;
            && (s[0] in {'+', '-'} <==> sign != "") && (s[0] == '-' <==> sign == "-")
            && (if s[0] in {'+', '-'} then s[1..] else s) == d
  {
    assert sign == "" ==> sign + d == d;
    assert IsDigit(d[0]);
  }

  /** The texts taken for a number are exactly its numerals, when the width holds it. */
  lemma ParseIntExact(s: string, n: int, bits: nat)
    requires bits in {32, 64}
    ensures ParseInt(s, bits) == Some(n) <==> Numeral(s, n) && InWidth(n, bits)
  {
    hide ParseInt, SpeltAs;
    if sign: string, zeros: nat :| SpeltAs(s, n, sign, zeros) {
      NumeralIsParsed(s, n, bits, sign, zeros);
    }
    if ParseInt(s, bits) == Some(n) {
      ParsedIsNumeral(s, n, bits);
    }
  }

  lemma NumeralIsParsed(s: string, n: int, bits: nat, sign: string, zeros: nat)
    requires bits in {32, 64} && SpeltAs(s, n, sign, zeros)
    ensures ParseInt(s, bits) == if InWidth(n, bits) then Some(n) else None
  {
    hide Digits, Zeros, NatOf;
    var m: nat := if n < 0 then -n else n;
    NatOfZeros(zeros, Digits(m));
    NatOfDigits(m);
    SignApart(sign, Zeros(zeros) + Digits(m));
  }

  lemma ParsedIsNumeral(s: string, n: int, bits: nat)
    requires bits in {32, 64} && ParseInt(s, bits) == Some(n)
    ensures Numeral(s, n) && InWidth(n, bits)
  {
    hide Digits, NatOf, Zeros;
    var m: nat := if n < 0 then -n else n;
    var sign := if s[0] == '+' then "+" else if s[0] == '-' then "-" else "";
    var digits := if s[0] in {'+', '-'} then s[1..] else s;
    assert s == sign + digits;
    assert NatOf(digits) == m;
    DigitsOfNat(digits);
    assert sign != "" ==> sign == [s[0]];
    assert SpeltAs(s, n, sign, |digits| - |Digits(m)|);
  }

  // ----- trimming -----

  function TrimLeft(s: string, cut: set<char>): string {
    if s != "" && s[0] in cut then TrimLeft(s[1..], cut) else s
  }

  function TrimRight(s: string, cut: set<char>): string {
    if s != "" && s[|s| - 1] in cut then TrimRight(s[..|s| - 1], cut) else s
  }

  function Trim(s: string, cut: set<char>): string {
    TrimRight(TrimLeft(s, cut), cut)
  }

  predicate AllIn(s: string, cut: set<char>) {
    forall i :: 0 <= i < |s| ==> s[i] in cut
  }

  lemma {:induction false} TrimLeftOf(a: string, s: string, cut: set<char>)
    requires AllIn(a, cut)
    ensures TrimLeft(a + s, cut) == TrimLeft(s, cut)
  {
    if a == "" {
      assert a + s == s;
    } else {
      assert (a + s)[1..] == a[1..] + s;
      TrimLeftOf(a[1..], s, cut);
    }
  }

  lemma {:induction false} TrimRightOf(s: string, b: string, cut: set<char>)
    requires AllIn(b, cut)
    ensures TrimRight(s + b, cut) == TrimRight(s, cut)
  {
    if b == "" {
      assert s + b == s;
    } else {
      assert (s + b)[..|s + b| - 1] == s + b[..|b| - 1];
      TrimRightOf(s, b[..|b| - 1], cut);
    }
  }

  /** Trimming takes off what surrounds a core that starts and ends with other characters. */
  lemma TrimAround(a: string, core: string, b: string, cut: set<char>)
    requires AllIn(a, cut) && AllIn(b, cut) && core != "" && core[0] !in cut && core[|core| - 1] !in cut
    ensures Trim(a + core + b, cut) == core
  {
    assert a + core + b == a + (core + b);
    TrimLeftOf(a, core + b, cut);
    TrimRightOf(core, b, cut);
  }

  lemma TrimNothing(a: string, cut: set<char>)
    requires AllIn(a, cut)
    ensures Trim(a, cut) == ""
  {
    assert a + "" == a;
    TrimLeftOf(a, "", cut);
  }

  // ----- splitting -----

  /** `strings.Split` at commas. */
  function Split(s: string): (pieces: seq<string>)
    ensures pieces != []
  {
    if s == "" then [""]
    else
      var more := Split(s[1..]);
      if s[0] == ',' then [""] + more else [[s[0]] + more[0]] + more[1..]
  }

  lemma {:induction false} SplitFirst(piece: string, rest: string)
    requires ',' !in piece
    ensures Split(piece) == [piece] && Split(piece + "," + rest) == [piece] + Split(rest)
  {
    if piece == "" {
      assert (piece + "," + rest)[1..] == rest;
    } else {
      assert (piece + "," + rest)[1..] == piece[1..] + "," + rest;
      SplitFirst(piece[1..], rest);
      assert [piece[0]] + piece[1..] == piece;
    }
  }
}
