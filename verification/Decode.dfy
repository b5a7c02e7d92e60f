/** JSON values as messages: what `Unmarshaler` reads (`Common/jsonpb/decode.go`), into a fresh
    message. */
module Decode {
  import Duration
  import opened Decimal
  import opened JsonReader
  import opened JsonText
  import opened ProtoSchema
  import opened Results

  datatype DecodeError = Malformed | BadValue | UnknownField

  const NULL := Atom("null")

  /** A decimal integer literal in the range of `kind`; null reads as 0. */
  function IntOf(text: string, kind: Kind): Result<Value, DecodeError> {
    if text == "null" then Ok(IntV(0)) else
      var neg := text != "" && text[0] == '-';
      var t := if neg then text[1..] else text;
      if !IsJsonInt(t) || (neg && kind in {Uint32Kind, Uint64Kind}) then Err(BadValue) else
        var m := NatOf(t) as int;
        var n := if neg then -m else m;
        if InRange(kind, n) then Ok(IntV(n)) else Err(BadValue)
  }

  function TrimQuote(text: string): string {
    if |text| >= 2 && text[0] == '"' && text[|text| - 1] == '"' then text[1..|text| - 1] else text
  }

  function UnquoteString(j: Json): Result<string, DecodeError> {
    match j
    case Str(raw) => (match Unquote(raw) case Some(s) => Ok(s) case None => Err(Malformed))
    case Atom(text) => if text == "null" then Ok("") else Err(BadValue)
    case _ => Err(BadValue)
  }

  function DecodeNumber(text: string): Result<Value, DecodeError> {
    if text == "null" then Ok(ZeroOf(DoubleKind))
    else if IsJsonNumber(text) then Ok(NumV(Finite(text)))
    else Err(BadValue)
  }

  function DecodeScalar(sc: Schema, kind: Kind, j: Json): Result<Value, DecodeError> {
    match kind
    case BoolKind =>
      if j == Atom("true") then Ok(BoolV(true))
      else if j in {Atom("false"), NULL} then Ok(BoolV(false))
      else Err(BadValue)
    case DoubleKind =>
      if j == Str("NaN") then Ok(NumV(NotANumber))
      else if j == Str("Infinity") then Ok(NumV(PosInf))
      else if j == Str("-Infinity") then Ok(NumV(NegInf))
      else if j.Atom? then DecodeNumber(j.text)
      else if j.Str? then DecodeNumber(j.raw)
      else Err(BadValue)
    case StringKind =>
      var s :- UnquoteString(j);
      Ok(StrV(s))
    case EnumKind(enum) =>
      if j.Str? then
        var vd := ByName(EnumValues(sc, enum), j.raw);
        if vd.None? then Err(BadValue) else Ok(EnumV(vd.value.number))
      else if j.Atom? then
        var n :- IntOf(j.text, Int32Kind);
        Ok(EnumV(n.n))
      else Err(BadValue)
    case MessageKind(_) => Err(BadValue)
    case _ =>
      if j.Atom? then IntOf(j.text, kind)
      else if j.Str? then IntOf(j.raw, kind)
      else Err(BadValue)
  }

  function DecodeKey(kind: Kind, text: string): Result<MapKey, DecodeError> {
    match kind
    case StringKind => Ok(StrKey(text))
    case BoolKind =>
      if text == "true" then Ok(BoolKey(true))
      else if text in {"false", "null"} then Ok(BoolKey(false))
      else Err(BadValue)
    case _ =>
      var n :- IntOf(TrimQuote(text), kind);
      Ok(IntKey(n.n))
  }

  // ----- objects -----

  predicate KeysOk(members: seq<Member>) {
    forall i :: 0 <= i < |members| ==> Unquote(members[i].key).Some?
  }

  /** An object as a Go map: the last member of a name counts. */
  function ObjectOf(members: seq<Member>): map<string, Json>
    requires KeysOk(members)
  {
    if members == [] then map[] else
      var rest := ObjectOf(members[1..]);
      map[Unquote(members[0].key).value := members[0].value] + rest
  }

  lemma {:induction false} ObjectSmaller(members: seq<Member>, close: string, k: string)
    requires KeysOk(members) && k in ObjectOf(members)
    ensures ObjectOf(members)[k] < Obj(members, close)
  {
    hide KeysOk, Unquote;
    var i := ObjectFrom(members, k);
    assert members[i].value == ObjectOf(members)[k];
  }

  lemma {:induction false} ObjectFrom(members: seq<Member>, k: string) returns (i: nat)
    requires KeysOk(members) && k in ObjectOf(members)
    ensures i < |members| && members[i].value == ObjectOf(members)[k]
  {
    hide Unquote;
    if k in ObjectOf(members[1..]) {
      i := ObjectFrom(members[1..], k);
      i := i + 1;
    } else {
      i := 0;
    }
  }

  function Unwrap(members: seq<Member>, close: string): (obj: map<string, Json>)
    requires KeysOk(members)
    ensures forall k :: k in obj ==> obj[k] < Obj(members, close)
  {
    assert forall k :: k in ObjectOf(members) ==> ObjectOf(members)[k] < Obj(members, close) by {
      forall k | k in ObjectOf(members) ensures ObjectOf(members)[k] < Obj(members, close) {
        ObjectSmaller(members, close, k);
      }
    }
    ObjectOf(members)
  }

  // ----- messages -----

  /** What one field finds in the object: the member under its JSON name or, failing that, the one
      under its own name. */
  function RawOf(obj: map<string, Json>, fd: Field): (raw: Option<Json>)
    ensures raw.Some? ==> exists k :: k in obj && obj[k] == raw.value
  {
    if fd.jsonName in obj then Some(obj[fd.jsonName])
    else if fd.name in obj then Some(obj[fd.name])
    else None
  }

  function DecodeMessage(sc: Schema, allowUnknown: bool, name: string, j: Json): Result<Value, DecodeError>
    decreases j, if name == VALUE then 6 else 5, 0
  {
    var fds := FieldsOf(sc, name);
    if fds.None? then Err(Malformed)
    else if j == NULL && name != VALUE then Ok(EmptyMessage(fds.value))
    else
      match WellKnownOf(name)
      case Wrapper(kind) =>
        var v :- DecodeScalar(sc, kind, j);
        Ok(MsgV([Stored(fds.value[0], v)]))
      case DurationType => DecodeDuration(j)
      case ValueType =>
        (match j
         case Atom(text) =>
           if text == "null" then Ok(ValueWith(0, EnumV(0)))
           else if text == "true" then Ok(ValueWith(3, BoolV(true)))
           else if text == "false" then Ok(ValueWith(3, BoolV(false)))
           else if IsJsonNumber(text) then Ok(ValueWith(1, NumV(Finite(text))))
           else Err(BadValue)
         case Str(raw) =>
           var s :- UnquoteString(j);
           Ok(ValueWith(2, StrV(s)))
         case Arr(_, _) =>
           var v :- DecodeMessage(sc, allowUnknown, LIST_VALUE, j);
           Ok(ValueWith(5, v))
         case Obj(_, _) =>
           var v :- DecodeMessage(sc, allowUnknown, STRUCT, j);
           Ok(ValueWith(4, v)))
      case StructType =>
        var v :- DecodeMap(sc, allowUnknown, StringKind, MessageKind(VALUE), j);
        Ok(MsgV([Stored(STRUCT_FIELDS[0], v)]))
      case ListValueType =>
        var v :- DecodeList(sc, allowUnknown, MessageKind(VALUE), j);
        Ok(MsgV([Stored(LIST_VALUE_FIELDS[0], v)]))
      case _ =>
        if !j.Obj? || !KeysOk(j.members) then Err(Malformed) else
          DecodeFields(sc, allowUnknown, fds.value, j, Unwrap(j.members, j.close), 0, EmptyMessage(fds.value).slots)
  }

  function DecodeDuration(j: Json): Result<Value, DecodeError> {
    var text :- UnquoteString(j);
    var total := Duration.Parse(text);
    if total.None? then Err(BadValue) else
      var s, ns := Duration.TruncDiv(total.value, Duration.SECOND), Duration.TruncMod(total.value, Duration.SECOND);
      Ok(MsgV([Stored(DURATION_FIELDS[0], IntV(s)), Stored(DURATION_FIELDS[1], IntV(ns))]))
  }

  /** The known-field loop from field `i` on, and the check for unknown names after it. */
  function DecodeFields(sc: Schema, allowUnknown: bool, fds: seq<Field>, ghost j: Json, obj: map<string, Json>, i: nat,
                        slots: seq<Option<Value>>): Result<Value, DecodeError>
    requires i <= |fds| == |slots|
    requires forall k :: k in obj ==> obj[k] < j
    decreases j, 4, |fds| - i
  {
    if i == |fds| then
      if !allowUnknown && |obj| > 0 then Err(UnknownField) else Ok(MsgV(slots))
    else
      var fd := fds[i];
      var raw := RawOf(obj, fd);
      var rest := obj - {fd.name, fd.jsonName};
      if raw.None? || (raw.value == NULL && !IsSingularValue(fd)) then
        DecodeFields(sc, allowUnknown, fds, j, rest, i + 1, slots)
      else
        var v :- DecodeField(sc, allowUnknown, fd, raw.value);
        DecodeFields(sc, allowUnknown, fds, j, rest, i + 1, SetSlot(fds, slots, i, v))
  }

  function DecodeField(sc: Schema, allowUnknown: bool, fd: Field, j: Json): Result<Value, DecodeError>
    decreases j, 9, 0
  {
    match fd.card
    case Repeated => DecodeList(sc, allowUnknown, fd.kind, j)
    case MapWith(key) => DecodeMap(sc, allowUnknown, key, fd.kind, j)
    case Singular => DecodeSingular(sc, allowUnknown, fd.kind, j)
  }

  function DecodeSingular(sc: Schema, allowUnknown: bool, kind: Kind, j: Json): Result<Value, DecodeError>
    decreases j, 8, 0
  {
    if kind.MessageKind? then DecodeMessage(sc, allowUnknown, kind.message, j) else DecodeScalar(sc, kind, j)
  }

  function DecodeList(sc: Schema, allowUnknown: bool, kind: Kind, j: Json): Result<Value, DecodeError>
    decreases j, 3, 0
  {
    if j == NULL then Ok(ListV([]))
    else if !j.Arr? then Err(BadValue)
    else
      var elems :- DecodeItems(sc, allowUnknown, kind, j.items);
      Ok(ListV(elems))
  }

  function DecodeItems(sc: Schema, allowUnknown: bool, kind: Kind, items: seq<Item>): Result<seq<Value>, DecodeError>
    decreases items, 0, 0
  {
    if items == [] then Ok([]) else
      var v :- DecodeSingular(sc, allowUnknown, kind, items[0].value);
      var more :- DecodeItems(sc, allowUnknown, kind, items[1..]);
      Ok([v] + more)
  }

  function DecodeMap(sc: Schema, allowUnknown: bool, key: Kind, kind: Kind, j: Json): Result<Value, DecodeError>
    decreases j, 3, 0
  {
    if j == NULL then Ok(MapV(map[]))
    else if !j.Obj? || !KeysOk(j.members) then Err(BadValue)
    else
      var entries :- DecodeEntries(sc, allowUnknown, key, kind, j.members);
      Ok(MapV(entries))
  }

  /** The entries of an object; a member whose name comes again later does not count. */
  function DecodeEntries(sc: Schema, allowUnknown: bool, key: Kind, kind: Kind, members: seq<Member>)
    : Result<map<MapKey, Value>, DecodeError>
    requires KeysOk(members)
    decreases members, 0, 0
  {
    if members == [] then Ok(map[])
    else if Unquote(members[0].key).value in ObjectOf(members[1..]) then
      DecodeEntries(sc, allowUnknown, key, kind, members[1..])
    else
      var k :- DecodeKey(key, Unquote(members[0].key).value);
      var v :- DecodeSingular(sc, allowUnknown, kind, members[0].value);
      var more :- DecodeEntries(sc, allowUnknown, key, kind, members[1..]);
      Ok(map[k := v] + more)
  }

  /** `UnmarshalString` into a fresh message. */
  function Unmarshal(sc: Schema, allowUnknown: bool, name: string, text: string): Result<Value, DecodeError> {
    match Read(text)
    case None => Err(Malformed)
    case Some(j) => DecodeMessage(sc, allowUnknown, name, j)
  }
}
