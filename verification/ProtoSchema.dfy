/** Protocol-buffer descriptors and message values, as far as the JSON mapping sees them. */
module ProtoSchema {
  import opened JsonText
  import opened Results

  datatype Kind =
    | BoolKind | Int32Kind | Int64Kind | Uint32Kind | Uint64Kind | DoubleKind | StringKind
    | EnumKind(enum: string)
    | MessageKind(message: string)

  datatype Cardinality = Singular | Repeated | MapWith(key: Kind)

  /** A field; the members of a oneof carry its number. */
  datatype Field = Field(name: string, jsonName: string, kind: Kind, card: Cardinality, oneof: Option<nat>)

  datatype EnumValue = EnumValue(name: string, number: int)

  datatype Schema = Schema(messages: map<string, seq<Field>>, enums: map<string, seq<EnumValue>>)

  datatype MapKey = BoolKey(b: bool) | IntKey(n: int) | StrKey(s: string)

  /** A finite number is known by its JSON text. */
  datatype Number = Finite(text: string) | PosInf | NegInf | NotANumber

  /** A message has one slot for each field of its descriptor; an unpopulated field has none. */
  datatype Value =
    | BoolV(b: bool)
    | IntV(n: int)
    | NumV(num: Number)
    | StrV(s: string)
    | EnumV(number: int)
    | MsgV(slots: seq<Option<Value>>)
    | ListV(elems: seq<Value>)
    | MapV(entries: map<MapKey, Value>)

  // ----- well-known types -----

  datatype WellKnown = Ordinary | Wrapper(kind: Kind) | DurationType | ValueType | StructType | ListValueType | NotModelled

  const VALUE := "google.protobuf.Value"
  const STRUCT := "google.protobuf.Struct"
  const LIST_VALUE := "google.protobuf.ListValue"
  const DURATION := "google.protobuf.Duration"
  const NULL_VALUE := "google.protobuf.NullValue"

  function WellKnownOf(name: string): WellKnown {
    if name == VALUE then ValueType
    else if name == STRUCT then StructType
    else if name == LIST_VALUE then ListValueType
    else if name == DURATION then DurationType
    else if name == "google.protobuf.BoolValue" then Wrapper(BoolKind)
    else if name == "google.protobuf.StringValue" then Wrapper(StringKind)
    else if name == "google.protobuf.Int32Value" then Wrapper(Int32Kind)
    else if name == "google.protobuf.UInt32Value" then Wrapper(Uint32Kind)
    else if name == "google.protobuf.Int64Value" then Wrapper(Int64Kind)
    else if name == "google.protobuf.UInt64Value" then Wrapper(Uint64Kind)
    else if name == "google.protobuf.DoubleValue" then Wrapper(DoubleKind)
    else if name in {"google.protobuf.Any", "google.protobuf.Timestamp", "google.protobuf.BytesValue",
                     "google.protobuf.FloatValue"} then NotModelled
    else Ordinary
  }

  const VALUE_FIELDS := [
    Field("null_value", "nullValue", EnumKind(NULL_VALUE), Singular, Some(0)),
    Field("number_value", "numberValue", DoubleKind, Singular, Some(0)),
    Field("string_value", "stringValue", StringKind, Singular, Some(0)),
    Field("bool_value", "boolValue", BoolKind, Singular, Some(0)),
    Field("struct_value", "structValue", MessageKind(STRUCT), Singular, Some(0)),
    Field("list_value", "listValue", MessageKind(LIST_VALUE), Singular, Some(0))]

  const STRUCT_FIELDS := [Field("fields", "fields", MessageKind(VALUE), MapWith(StringKind), None)]

  const LIST_VALUE_FIELDS := [Field("values", "values", MessageKind(VALUE), Repeated, None)]

  const DURATION_FIELDS := [
    Field("seconds", "seconds", Int64Kind, Singular, None),
    Field("nanos", "nanos", Int32Kind, Singular, None)]

  /** The descriptor of a message type. */
  function FieldsOf(sc: Schema, name: string): Option<seq<Field>> {
    match WellKnownOf(name)
    case Ordinary => if name in sc.messages then Some(sc.messages[name]) else None
    case Wrapper(kind) => Some([Field("value", "value", kind, Singular, None)])
    case DurationType => Some(DURATION_FIELDS)
    case ValueType => Some(VALUE_FIELDS)
    case StructType => Some(STRUCT_FIELDS)
    case ListValueType => Some(LIST_VALUE_FIELDS)
    case NotModelled => None
  }

  function EnumValues(sc: Schema, enum: string): seq<EnumValue> {
    if enum in sc.enums then sc.enums[enum] else []
  }

  function ByNumber(values: seq<EnumValue>, n: int): Option<EnumValue> {
    if values == [] then None
    else if values[0].number == n then Some(values[0])
    else ByNumber(values[1..], n)
  }

  function ByName(values: seq<EnumValue>, name: string): Option<EnumValue> {
    if values == [] then None
    else if values[0].name == name then Some(values[0])
    else ByName(values[1..], name)
  }

  // ----- messages -----

  const EMPTY_SLOT: Option<Value> := None

  function EmptyMessage(fds: seq<Field>): Value {
    MsgV(seq(|fds|, _ => EMPTY_SLOT))
  }

  /** A `google.protobuf.Value` with its member `i` set. */
  function ValueWith(i: nat, v: Value): Value
    requires i < 6
  {
    MsgV(seq(6, k => if k == i then Some(v) else EMPTY_SLOT))
  }

  /** Fields that tell being unset from being zero. */
  predicate HasPresence(fd: Field) {
    fd.oneof.Some? || (fd.card.Singular? && fd.kind.MessageKind?)
  }

  predicate IsZero(v: Value) {
    v in {BoolV(false), IntV(0), NumV(Finite("0")), StrV(""), EnumV(0)} || v == ListV([]) || v == MapV(map[])
  }

  function ZeroOf(kind: Kind): Value {
    match kind
    case BoolKind => BoolV(false)
    case DoubleKind => NumV(Finite("0"))
    case StringKind => StrV("")
    case EnumKind(_) => EnumV(0)
    case MessageKind(_) => MsgV([])
    case _ => IntV(0)
  }

  /** What a slot holds after its field is set to `v`. */
  function Stored(fd: Field, v: Value): Option<Value> {
    if HasPresence(fd) || !IsZero(v) then Some(v) else None
  }

  /** Setting a field; the other members of its oneof are cleared. */
  function SetSlot(fds: seq<Field>, slots: seq<Option<Value>>, i: nat, v: Value): (r: seq<Option<Value>>)
    requires i < |fds| == |slots|
    ensures |r| == |slots|
  {
    seq(|slots|, k requires 0 <= k < |slots| =>
      if k == i then Stored(fds[i], v)
      else if fds[i].oneof.Some? && fds[k].oneof == fds[i].oneof then None
      else slots[k])
  }

  predicate InRange(kind: Kind, n: int) {
    match kind
    case Int32Kind => -0x8000_0000 <= n < 0x8000_0000
    case Int64Kind => -0x8000_0000_0000_0000 <= n < 0x8000_0000_0000_0000
    case Uint32Kind => 0 <= n < 0x1_0000_0000
    case Uint64Kind => 0 <= n < 0x1_0000_0000_0000_0000
    case _ => false
  }

  /** A field of message type `google.protobuf.Value` that is not repeated: there null is a value. */
  predicate IsSingularValue(fd: Field) {
    fd.kind == MessageKind(VALUE) && fd.card.Singular?
  }
}
