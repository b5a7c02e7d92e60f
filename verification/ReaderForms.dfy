/** Exactly what the reader takes for a scalar, a map key, a list or a duration, and what it makes of it
    (`Common/jsonpb/decode.go`). */
module ReaderForms {
  import Duration
  import opened Decimal
  import opened Decode
  import opened JsonReader
  import opened JsonText
  import opened ProtoSchema
  import opened Results

  // ----- integers -----

  predicate WithinKind(kind: Kind, n: int) {
    match kind
    case Int32Kind => -2147483648 <= n <= 2147483647
    case Int64Kind => -9223372036854775808 <= n <= 9223372036854775807
    case Uint32Kind => 0 <= n <= 4294967295
    case Uint64Kind => 0 <= n <= 18446744073709551615
    case _ => false
  }

  /** The text is an integer's: its decimal digits; for 0 also `null` and, with a sign, `-0`. */
  predicate IntText(kind: Kind, text: string, n: int) {
    && WithinKind(kind, n)
    && (text == Itoa(n) || (n == 0 && (text == "null" || (text == "-0" && kind in {Int32Kind, Int64Kind}))))
  }

  lemma ItoaIsInt(kind: Kind, n: int)
    requires WithinKind(kind, n)
    ensures IntOf(Itoa(n), kind) == Ok(IntV(n))
  {
    hide Digits, NatOf;
    var m: nat := if n < 0 then -n else n;
    var text := Itoa(n);
    NatOfDigits(m);
    LeadingZero(m);
    assert IsDigit(Digits(m)[0]);
    assert n < 0 ==> text[0] == '-' && text[1..] == Digits(m);
  }

  lemma OtherZeros(kind: Kind)
    ensures kind in {Int32Kind, Int64Kind} ==> IntOf("-0", kind) == Ok(IntV(0))
    ensures IntOf("null", kind) == Ok(IntV(0))
  {
    assert "-0"[1..] == "0";
    assert NatOf("0") == NatOf("0"[..0]) * 10 + 0 == 0;
  }

  lemma UnsignedIsDigits(t: string)
    requires IsJsonInt(t)
    ensures t == Digits(NatOf(t))
  {
    hide Digits, NatOf;
    DigitsOfNat(t);
    assert |t| - |Digits(NatOf(t))| == 0;
  }

  lemma IntIsItoa(kind: Kind, text: string, n: int)
    requires IntOf(text, kind) == Ok(IntV(n)) && text != "null"
    ensures WithinKind(kind, n) && (text == Itoa(n) || (n == 0 && text == "-0" && kind in {Int32Kind, Int64Kind}))
  {
    hide Digits, NatOf, IsJsonInt;
    var neg := text != "" && text[0] == '-';
    var t := if neg then text[1..] else text;
    UnsignedIsDigits(t);
    assert neg ==> text == "-" + t;
  }

  /** The texts taken for an integer are exactly its own; everything else is refused. */
  lemma IntExact(kind: Kind, text: string, n: int)
    requires kind in {Int32Kind, Int64Kind, Uint32Kind, Uint64Kind}
    ensures IntOf(text, kind) == Ok(IntV(n)) <==> IntText(kind, text, n)
    ensures IntOf(text, kind).Ok? ==> IntOf(text, kind).value.IntV?
  {
    hide Itoa, NatOf, IsJsonInt;
    if IntOf(text, kind) == Ok(IntV(n)) && text != "null" {
      IntIsItoa(kind, text, n);
    }
    if IntText(kind, text, n) {
      ItoaIsInt(kind, n);
      OtherZeros(kind);
    }
  }

  // ----- scalars -----

  /** `j` stands for the value `v` of a scalar kind. */
  ghost predicate Denotes(sc: Schema, kind: Kind, j: Json, v: Value) {
    match kind
    case BoolKind => (j == Atom("true") && v == BoolV(true)) || (j in {Atom("false"), Atom("null")} && v == BoolV(false))
    case StringKind => (j == Atom("null") && v == StrV("")) || (j.Str? && v.StrV? && Unquote(j.raw) == Some(v.s))
    case DoubleKind =>
      || (j == Str("NaN") && v == NumV(NotANumber))
      || (j == Str("Infinity") && v == NumV(PosInf))
      || (j == Str("-Infinity") && v == NumV(NegInf))
      || (j in {Atom("null"), Str("null")} && v == NumV(Finite("0")))
      || exists text :: IsJsonNumber(text) && j in {Atom(text), Str(text)} && v == NumV(Finite(text))
    case EnumKind(enum) =>
      v.EnumV?
      && if j.Str? then FirstNamed(EnumValues(sc, enum), j.raw, v.number)
         else j.Atom? && IntText(Int32Kind, j.text, v.number)
    case MessageKind(_) => false
    case _ => v.IntV? && (j.Atom? || j.Str?) && IntText(kind, if j.Atom? then j.text else j.raw, v.n)
  }

  /** The first value of that name has that number. */
  predicate FirstNamed(values: seq<EnumValue>, name: string, n: int) {
    exists i :: 0 <= i < |values| && values[i].name == name && values[i].number == n
                && forall k :: 0 <= k < i ==> values[k].name != name
  }

  lemma {:induction false} ByNameIsFirst(values: seq<EnumValue>, name: string)
    ensures forall n :: FirstNamed(values, name, n) <==> ByName(values, name).Some? && ByName(values, name).value.number == n
  {
    if values != [] {
      var rest := values[1..];
      ByNameIsFirst(rest, name);
      assert forall i :: 0 <= i < |rest| ==> rest[i] == values[i + 1];
      forall n ensures FirstNamed(values, name, n) <==>
                         if values[0].name == name then values[0].number == n else FirstNamed(rest, name, n)
      {
        FirstNamedNext(values, name, n);
      }
    }
  }

  lemma FirstNamedNext(values: seq<EnumValue>, name: string, n: int)
    requires values != []
    ensures FirstNamed(values, name, n) <==>
            if values[0].name == name then values[0].number == n else FirstNamed(values[1..], name, n)
  {
    var rest := values[1..];
    if values[0].name != name {
      if i :| 0 <= i < |rest| && rest[i].name == name && rest[i].number == n
              && forall k :: 0 <= k < i ==> rest[k].name != name
      {
        assert values[i + 1] == rest[i];
        assert forall k :: 1 <= k < i + 1 ==> values[k] == rest[k - 1];
      }
      if i :| 0 <= i < |values| && values[i].name == name && values[i].number == n
              && forall k :: 0 <= k < i ==> values[k].name != name
      {
        assert rest[i - 1] == values[i];
        assert forall k :: 0 <= k < i - 1 ==> rest[k] == values[k + 1];
      }
    }
  }

  lemma NumberExact(sc: Schema, j: Json, v: Value)
    ensures DecodeScalar(sc, DoubleKind, j) == Ok(v) <==> Denotes(sc, DoubleKind, j, v)
  {
    NamesAreNoNumbers();
    hide IsJsonNumber;
    assert j.Atom? && IsJsonNumber(j.text) ==> j in {Atom(j.text), Str(j.text)};
    assert j.Str? && IsJsonNumber(j.raw) ==> j in {Atom(j.raw), Str(j.raw)};
  }

  lemma NamesAreNoNumbers()
    ensures !IsJsonNumber("null") && !IsJsonNumber("NaN") && !IsJsonNumber("Infinity") && !IsJsonNumber("-Infinity")
  {
    assert !IsDigit('n') && !IsDigit('N') && !IsDigit('I');
    assert Span("null") == 0 && Span("NaN") == 0 && Span("Infinity") == 0;
    assert "-Infinity"[1..] == "Infinity";
  }

  lemma EnumExact(sc: Schema, enum: string, j: Json, v: Value)
    ensures DecodeScalar(sc, EnumKind(enum), j) == Ok(v) <==> Denotes(sc, EnumKind(enum), j, v)
  {
    hide IntOf, IntText, FirstNamed, ByName;
    if j.Str? {
      ByNameIsFirst(EnumValues(sc, enum), j.raw);
    } else if j.Atom? {
      IntExact(Int32Kind, j.text, if v.EnumV? then v.number else 0);
      var n := IntOf(j.text, Int32Kind);
      if n.Ok? {
        IntExact(Int32Kind, j.text, n.value.n);
      }
    }
  }

  /** Every scalar is read exactly from the JSON that stands for it, and from nothing else. Integers may be
      quoted. */
  lemma ScalarExact(sc: Schema, kind: Kind, j: Json, v: Value)
    ensures DecodeScalar(sc, kind, j) == Ok(v) <==> Denotes(sc, kind, j, v)
  {
    match kind
    case BoolKind =>
    case StringKind => hide Unquote;
    case DoubleKind => NumberExact(sc, j, v);
    case EnumKind(enum) => EnumExact(sc, enum, j, v);
    case MessageKind(_) =>
    case _ =>
      hide IntOf, IntText;
      IntExact(kind, if j.Atom? then j.text else if j.Str? then j.raw else "", if v.IntV? then v.n else 0);
  }

  /** In quotes an integer reads as without them: as itself when its kind holds it; otherwise it is
      refused. So is every quoted text that is no integer, except `null`. */
  lemma QuotedInteger(sc: Schema, kind: Kind, n: int, text: string)
    requires kind in {Int32Kind, Int64Kind, Uint32Kind, Uint64Kind}
    ensures DecodeScalar(sc, kind, Str(Itoa(n))) == DecodeScalar(sc, kind, Atom(Itoa(n))) ==
            if WithinKind(kind, n) then Ok(IntV(n)) else Err(BadValue)
    ensures text !in {"null", "-0"} && (forall m :: text != Itoa(m)) ==> DecodeScalar(sc, kind, Str(text)) == Err(BadValue)
  {
    hide IntOf, Itoa;
    ItoaShape(n);
    RefusalIsBad(Itoa(n), kind);
    RefusalIsBad(text, kind);
    IntExact(kind, Itoa(n), n);
    if IntOf(Itoa(n), kind).Ok? {
      var m := IntOf(Itoa(n), kind).value;
      IntExact(kind, Itoa(n), m.n);
      if Itoa(n) == Itoa(m.n) {
        ItoaInjective(n, m.n);
      }
    }
    if WithinKind(kind, n) {
      ItoaIsInt(kind, n);
    }
    IntExact(kind, text, 0);
    if IntOf(text, kind).Ok? {
      IntExact(kind, text, IntOf(text, kind).value.n);
    }
  }

  lemma RefusalIsBad(text: string, kind: Kind)
    ensures IntOf(text, kind).Ok? || IntOf(text, kind) == Err(BadValue)
  {}

  lemma ItoaShape(n: int)
    ensures Itoa(n) !in {"null", "-0"}
  {
    var d := Digits(if n < 0 then -n else n);
    assert IsDigit(d[0]) && !IsDigit('n') && !IsDigit('-');
    assert n < 0 ==> Itoa(n)[1] == d[0];
  }

  // ----- map keys -----

  /** The name of a member stands for the key `k`; numbers may be in quotes of their own. */
  ghost predicate Names(kind: Kind, text: string, k: MapKey) {
    match kind
    case StringKind => k == StrKey(text)
    case BoolKind => (text == "true" && k == BoolKey(true)) || (text in {"false", "null"} && k == BoolKey(false))
    case _ => k.IntKey? && (IntText(kind, text, k.n) || exists t :: text == "\"" + t + "\"" && IntText(kind, t, k.n))
  }

  lemma TrimmedText(kind: Kind, text: string, n: int)
    ensures IntText(kind, TrimQuote(text), n) <==>
            IntText(kind, text, n) || exists t :: text == "\"" + t + "\"" && IntText(kind, t, n)
  {
    hide Itoa;
    var quoted := |text| >= 2 && text[0] == '"' && text[|text| - 1] == '"';
    if quoted {
      assert text == "\"" + text[1..|text| - 1] + "\"";
      NoQuoteInInt(kind, text, n);
    }
    if t :| text == "\"" + t + "\"" && IntText(kind, t, n) {
      assert text[1..|text| - 1] == t;
    }
  }

  lemma NoQuoteInInt(kind: Kind, text: string, n: int)
    requires text != "" && text[0] == '"'
    ensures !IntText(kind, text, n)
  {
    assert IsDigit(Digits(if n < 0 then -n else n)[0]);
    assert "null"[0] == 'n' && "-0"[0] == '-';
  }

  /** A member's name is taken for a key exactly when it stands for it. */
  lemma KeyExact(kind: Kind, text: string, k: MapKey)
    requires kind in {BoolKind, StringKind, Int32Kind, Int64Kind, Uint32Kind, Uint64Kind}
    ensures DecodeKey(kind, text) == Ok(k) <==> Names(kind, text, k)
  {
    hide IntOf, IntText, TrimQuote;
    if kind != StringKind && kind != BoolKind {
      var n := IntOf(TrimQuote(text), kind);
      IntExact(kind, TrimQuote(text), if k.IntKey? then k.n else 0);
      TrimmedText(kind, text, if k.IntKey? then k.n else 0);
    }
  }

  // ----- null, lists and durations -----

  /** Null is an empty message, list or map; only a `google.protobuf.Value` has a null of its own. */
  lemma NullReads(sc: Schema, allow: bool, name: string, key: Kind, kind: Kind)
    ensures FieldsOf(sc, name).Some? && name != "google.protobuf.Value" ==>
              DecodeMessage(sc, allow, name, Atom("null")) == Ok(EmptyMessage(FieldsOf(sc, name).value))
    ensures DecodeMessage(sc, allow, "google.protobuf.Value", Atom("null")) == Ok(ValueWith(0, EnumV(0)))
    ensures DecodeList(sc, allow, kind, Atom("null")) == Ok(ListV([]))
    ensures DecodeMap(sc, allow, key, kind, Atom("null")) == Ok(MapV(map[]))
  {
    hide DecodeFields, DecodeScalar, DecodeDuration, ValueWith;
  }

  /** A list is read exactly when each of its elements is, and then holds them in order. */
  lemma {:induction false} ItemsExact(sc: Schema, allow: bool, kind: Kind, items: seq<Item>, elems: seq<Value>)
    ensures DecodeItems(sc, allow, kind, items) == Ok(elems) <==>
            |elems| == |items|
            && forall i :: 0 <= i < |items| ==> DecodeSingular(sc, allow, kind, items[i].value) == Ok(elems[i])
    decreases |items|
  {
    hide DecodeSingular;
    if items != [] {
      var rest, more := items[1..], if elems == [] then [] else elems[1..];
      ItemsExact(sc, allow, kind, rest, more);
      assert elems != [] ==> elems == [elems[0]] + more;
      assert forall i :: 1 <= i < |items| ==> items[i] == rest[i - 1];
      assert forall i :: 0 <= i < |rest| ==> rest[i] == items[i + 1];
      assert forall i :: 0 <= i < |more| ==> more[i] == elems[i + 1];
      var all := DecodeItems(sc, allow, kind, rest);
      if all.Ok? && DecodeItems(sc, allow, kind, items).Ok? && DecodeItems(sc, allow, kind, items).value == elems {
        assert more == all.value;
      }
    }
  }

  /** A duration's text is read exactly when it denotes a number of nanoseconds that fits; seconds and
      nanoseconds have its sign. */
  lemma DurationRead(sc: Schema, allow: bool, raw: string, text: string, s: int, ns: int)
    requires Unquote(raw) == Some(text) && -1_000_000_000 < ns < 1_000_000_000
    requires !(s > 0 && ns < 0) && !(s < 0 && ns > 0)
    ensures DecodeMessage(sc, allow, DURATION, Str(raw)) ==
            Ok(MsgV([Stored(DURATION_FIELDS[0], IntV(s)), Stored(DURATION_FIELDS[1], IntV(ns))])) <==>
            Duration.Parse(text) == Some(s * 1_000_000_000 + ns)
  {
    hide Duration.Parse, Unquote;
    SplitOnce(s, ns);
    var total := Duration.Parse(text);
    if total.Some? {
      SplitAgain(total.value);
    }
  }

  lemma SplitOnce(s: int, ns: int)
    requires -1_000_000_000 < ns < 1_000_000_000 && !(s > 0 && ns < 0) && !(s < 0 && ns > 0)
    ensures var total := s * 1_000_000_000 + ns;
            Duration.TruncDiv(total, Duration.SECOND) == s && Duration.TruncMod(total, Duration.SECOND) == ns
  {
    var a: nat, b: nat := if s < 0 then -s else s, if ns < 0 then -ns else ns;
    assert (a * 1_000_000_000 + b) / 1_000_000_000 == a;
  }

  lemma SplitAgain(total: int)
    ensures total == Duration.TruncDiv(total, Duration.SECOND) * 1_000_000_000 + Duration.TruncMod(total, Duration.SECOND)
  {}
}
