/** Scalars and map keys survive the trip through JSON. */
module ScalarTrip {
  import opened Decimal
  import opened Decode
  import opened Encode
  import opened JsonReader
  import opened JsonText
  import opened ProtoSchema
  import opened Results

  /** Enum value names are plain and name one value each; several names may share a number. */
  ghost predicate GoodEnum(values: seq<EnumValue>) {
    && (forall i :: 0 <= i < |values| ==> Plain(values[i].name))
    && (forall i, j :: 0 <= i < j < |values| ==> values[i].name != values[j].name)
  }

  /** A scalar of its kind. `google.protobuf.NullValue`, whose every value prints as null, is not
      counted in. */
  ghost predicate GoodScalar(sc: Schema, kind: Kind, v: Value) {
    match kind
    case BoolKind => v.BoolV?
    case DoubleKind => v.NumV? && (v.num.Finite? ==> IsJsonNumber(v.num.text))
    case StringKind => v.StrV?
    case EnumKind(enum) =>
      v.EnumV? && enum != NULL_VALUE && InRange(Int32Kind, v.number) && GoodEnum(EnumValues(sc, enum))
    case MessageKind(_) => false
    case _ => v.IntV? && InRange(kind, v.n)
  }

  lemma IntTrip(n: int, kind: Kind)
    requires InRange(kind, n)
    ensures IntOf(Itoa(n), kind) == Ok(IntV(n))
  {
    hide Digits, NatOf, IsJsonNumber;
    var m := if n < 0 then -n else n;
    var text := Itoa(n);
    NatOfDigits(m);
    LeadingZero(m);
    assert IsDigit(Digits(m)[0]);
    assert n < 0 ==> text[0] == '-' && text[1..] == Digits(m);
    ItoaIsNumber(n);
  }

  /** Whatever the options, an integer is written as its bare digits, 64-bit ones too, and no two
      integers alike. */
  lemma IntIsBare(sc: Schema, o: Options, kind: Kind, n: int, m: int)
    requires kind in {Int32Kind, Int64Kind, Uint32Kind, Uint64Kind}
    ensures ScalarJson(sc, o, kind, IntV(n)) == Ok(Atom(Itoa(n)))
    ensures IsJsonNumber(Itoa(n))
    ensures ScalarJson(sc, o, kind, IntV(n)) == ScalarJson(sc, o, kind, IntV(m)) <==> n == m
  {
    hide Itoa, IsJsonNumber;
    ItoaIsNumber(n);
    if ScalarJson(sc, o, kind, IntV(n)) == ScalarJson(sc, o, kind, IntV(m)) {
      ItoaInjective(n, m);
    }
  }

  lemma {:induction false} ByNumberIsMember(values: seq<EnumValue>, n: int)
    ensures ByNumber(values, n).Some? ==>
            ByNumber(values, n).value in values && ByNumber(values, n).value.number == n
  {
    if values != [] {
      ByNumberIsMember(values[1..], n);
    }
  }

  lemma {:induction false} ByNameFinds(values: seq<EnumValue>, vd: EnumValue)
    requires GoodEnum(values) && vd in values
    ensures ByName(values, vd.name) == Some(vd)
  {
    if values[0] != vd {
      assert values == [values[0]] + values[1..];
      var i :| 0 <= i < |values| && values[i] == vd;
      assert values[0].name != values[i].name;
      ByNameFinds(values[1..], vd);
    }
  }

  /** A scalar is written as an atom or a string that is not null, and reads back as itself. */
  ghost predicate ScalarReturns(sc: Schema, kind: Kind, r: Result<Json, EncodeError>, v: Value) {
    && r.Ok? && (r.value.Atom? || r.value.Str?) && Well(r.value) && r.value != NULL
    && DecodeScalar(sc, kind, r.value) == Ok(v)
  }

  lemma EnumTrip(sc: Schema, o: Options, kind: Kind, v: Value)
    requires kind.EnumKind? && GoodScalar(sc, kind, v)
    ensures ScalarReturns(sc, kind, ScalarJson(sc, o, kind, v), v)
  {
    hide IsJsonNumber, Unquote, RawOk, Plain, Itoa, IntOf;
    var values := EnumValues(sc, kind.enum);
    ByNumberIsMember(values, v.number);
    IntTrip(v.number, Int32Kind);
    ItoaIsNumber(v.number);
    var vd := ByNumber(values, v.number);
    if vd.Some? && !o.enumsAsInts {
      ByNameFinds(values, vd.value);
      PlainUnquotes(vd.value.name);
    }
  }

  lemma NumberTrip(sc: Schema, o: Options, v: Value)
    requires GoodScalar(sc, DoubleKind, v)
    ensures ScalarReturns(sc, DoubleKind, ScalarJson(sc, o, DoubleKind, v), v)
  {
    hide IsJsonNumber, Unquote, RawOk;
    match v.num
    case Finite(text) =>
      NullIsNoNumber();
    case PosInf => PlainUnquotes("Infinity");
    case NegInf => PlainUnquotes("-Infinity");
    case NotANumber => PlainUnquotes("NaN");
  }

  lemma NullIsNoNumber()
    ensures !IsJsonNumber("null") && !IsJsonNumber("true") && !IsJsonNumber("false")
  {
    assert !IsDigit('n') && !IsDigit('t') && !IsDigit('f');
    assert Span("null") == 0 && Span("true") == 0 && Span("false") == 0;
  }

  lemma StringTrip(sc: Schema, o: Options, v: Value)
    requires v.StrV?
    ensures ScalarReturns(sc, StringKind, ScalarJson(sc, o, StringKind, v), v)
  {
    hide Quote, Unquote, RawOk;
    UnquoteQuote(v.s);
    QuoteRawOk(v.s);
  }

  lemma AnyScalarTrip(sc: Schema, o: Options, kind: Kind, v: Value)
    requires GoodScalar(sc, kind, v)
    ensures ScalarReturns(sc, kind, ScalarJson(sc, o, kind, v), v)
  {
    match kind
    case BoolKind =>
    case DoubleKind => NumberTrip(sc, o, v);
    case StringKind => StringTrip(sc, o, v);
    case EnumKind(_) => EnumTrip(sc, o, kind, v);
    case MessageKind(_) =>
    case _ =>
      hide IsJsonNumber, Itoa, IntOf;
      IntTrip(v.n, kind);
      ItoaIsNumber(v.n);
  }

  // ----- map keys -----

  predicate GoodKey(kind: Kind, k: MapKey) {
    match kind
    case BoolKind => k.BoolKey?
    case StringKind => k.StrKey?
    case _ => k.IntKey? && InRange(kind, k.n)
  }

  lemma KeyTrip(kind: Kind, k: MapKey)
    requires GoodKey(kind, k)
    ensures DecodeKey(kind, KeyText(k)) == Ok(k)
  {
    if k.IntKey? {
      hide Digits;
      assert IsDigit(Digits(if k.n < 0 then -k.n else k.n)[0]);
      assert TrimQuote(Itoa(k.n)) == Itoa(k.n);
      IntTrip(k.n, kind);
    }
  }

  /** Different keys of one map have different texts. */
  lemma KeyTextInjective(kind: Kind, k: MapKey, k': MapKey)
    requires GoodKey(kind, k) && GoodKey(kind, k') && KeyText(k) == KeyText(k')
    ensures k == k'
  {
    KeyTrip(kind, k);
    KeyTrip(kind, k');
  }
}
