/** Messages as JSON values: what `jsonWriter` writes (`Common/jsonpb/encode.go`). */
module Encode {
  import Duration
  import opened Decimal
  import opened JsonReader
  import opened JsonText
  import opened MapOrder
  import opened ProtoSchema
  import opened Results

  datatype Options = Options(origName: bool, enumsAsInts: bool, emitDefaults: bool, indent: string)

  /** `IllTyped` stands for the reflection panics on values that do not fit their descriptor. */
  datatype EncodeError = NilValue | BadDuration(error: Duration.DurationError) | IllTyped

  /** A line break and an indentation, unless the output is compact. */
  function NewLine(o: Options, indent: string): string {
    if o.indent == "" then "" else "\n" + indent
  }

  function AfterColon(o: Options): string {
    if o.indent == "" then "" else " "
  }

  function FieldName(o: Options, fd: Field): string {
    if o.origName then fd.name else fd.jsonName
  }

  function NumberJson(num: Number): Json {
    match num
    case Finite(text) => Atom(text)
    case PosInf => Str("Infinity")
    case NegInf => Str("-Infinity")
    case NotANumber => Str("NaN")
  }

  function ScalarJson(sc: Schema, o: Options, kind: Kind, v: Value): Result<Json, EncodeError> {
    match v
    case BoolV(b) => if kind.BoolKind? then Ok(Atom(if b then "true" else "false")) else Err(IllTyped)
    case IntV(n) =>
      if kind in {Int32Kind, Int64Kind, Uint32Kind, Uint64Kind} then Ok(Atom(Itoa(n))) else Err(IllTyped)
    case NumV(num) => if kind.DoubleKind? then Ok(NumberJson(num)) else Err(IllTyped)
    case StrV(s) => if kind.StringKind? then Ok(Str(Quote(s))) else Err(IllTyped)
    case EnumV(n) =>
      if !kind.EnumKind? then Err(IllTyped)
      else if kind.enum == NULL_VALUE then Ok(Atom("null"))
      else
        var vd := ByNumber(EnumValues(sc, kind.enum), n);
        if vd.None? || o.enumsAsInts then Ok(Atom(Itoa(n))) else Ok(Str(vd.value.name))
    case _ => Err(IllTyped)
  }

  function KeyText(k: MapKey): string {
    match k
    case BoolKey(b) => if b then "true" else "false"
    case IntKey(n) => Itoa(n)
    case StrKey(s) => s
  }

  // ----- the writer's field loop -----

  /** The populated member of oneof `g`. */
  function WhichOneof(fds: seq<Field>, slots: seq<Option<Value>>, g: nat, i: nat): (k: Option<nat>)
    requires |slots| == |fds|
    ensures k.Some? ==> i <= k.value < |fds| && fds[k.value].oneof == Some(g) && slots[k.value].Some?
    decreases |fds| - i
  {
    if i >= |fds| then None
    else if fds[i].oneof == Some(g) && slots[i].Some? then Some(i)
    else WhichOneof(fds, slots, g, i + 1)
  }

  /** The number of members of oneof `g` from position `i` on. */
  function OneofSize(fds: seq<Field>, g: nat, i: nat): (n: nat)
    ensures (exists k :: i <= k < |fds| && fds[k].oneof == Some(g)) ==> n > 0
    decreases |fds| - i
  {
    if i >= |fds| then 0 else OneofSize(fds, g, i + 1) + if fds[i].oneof == Some(g) then 1 else 0
  }

  /** The fields the writer's loop emits from position `i` on: at a oneof it emits the populated
      member and jumps over the whole oneof. */
  function WriterIndexes(fds: seq<Field>, slots: seq<Option<Value>>, emitDefaults: bool, i: nat): (ks: seq<nat>)
    requires |slots| == |fds|
    ensures forall x :: 0 <= x < |ks| ==> ks[x] < |fds|
    decreases |fds| - i
  {
    if i >= |fds| then []
    else if fds[i].oneof.Some? then
      var g := fds[i].oneof.value;
      var w := WhichOneof(fds, slots, g, 0);
      var rest := WriterIndexes(fds, slots, emitDefaults, i + OneofSize(fds, g, 0));
      if w.None? then rest else [w.value] + rest
    else
      var rest := WriterIndexes(fds, slots, emitDefaults, i + 1);
      if slots[i].Some? || emitDefaults then [i] + rest else rest
  }

  // ----- messages -----

  ghost function MessageJson(sc: Schema, o: Options, name: string, v: Value, indent: string): Result<Json, EncodeError>
    decreases v, 5, 0
  {
    var fds := FieldsOf(sc, name);
    if !v.MsgV? || fds.None? || |fds.value| != |v.slots| then Err(IllTyped) else
      match WellKnownOf(name)
      case Wrapper(kind) => ScalarJson(sc, o, kind, if v.slots[0].Some? then v.slots[0].value else ZeroOf(kind))
      case DurationType => DurationJson(v.slots[0], v.slots[1])
      case ValueType =>
        var w := WhichOneof(VALUE_FIELDS, v.slots, 0, 0);
        if w.None? then Err(NilValue)
        else SingularJson(sc, o, VALUE_FIELDS[w.value].kind, v.slots[w.value].value, indent)
      case StructType => FieldJson(sc, o, STRUCT_FIELDS[0], v.slots[0], indent)
      case ListValueType => FieldJson(sc, o, LIST_VALUE_FIELDS[0], v.slots[0], indent)
      case _ =>
        var ks := WriterIndexes(fds.value, v.slots, o.emitDefaults, 0);
        var members :- MembersJson(sc, o, fds.value, v, ks, indent);
        Ok(Obj(members, (if members == [] then NewLine(o, "") else "") + NewLine(o, indent)))
  }

  function DurationJson(seconds: Option<Value>, nanos: Option<Value>): Result<Json, EncodeError> {
    var s := if seconds.Some? then seconds.value else IntV(0);
    var ns := if nanos.Some? then nanos.value else IntV(0);
    if !s.IntV? || !ns.IntV? then Err(IllTyped) else
      match Duration.Print(s.n, ns.n)
      case Ok(text) => Ok(Str(text))
      case Err(error) => Err(BadDuration(error))
  }

  ghost function MembersJson(sc: Schema, o: Options, fds: seq<Field>, v: Value, ks: seq<nat>, indent: string)
    : (r: Result<seq<Member>, EncodeError>)
    requires v.MsgV? && |v.slots| == |fds| && forall x :: 0 <= x < |ks| ==> ks[x] < |fds|
    ensures r.Ok? ==> |r.value| == |ks|
    decreases v, 4, |ks|
  {
    if ks == [] then Ok([]) else
      var member :- MemberJson(sc, o, fds, v, ks[0], indent);
      var more :- MembersJson(sc, o, fds, v, ks[1..], indent);
      Ok([member] + more)
  }

  ghost function MemberJson(sc: Schema, o: Options, fds: seq<Field>, v: Value, k: nat, indent: string)
    : Result<Member, EncodeError>
    requires v.MsgV? && k < |v.slots| == |fds|
    decreases v, 3, 0
  {
    var value :- FieldJson(sc, o, fds[k], v.slots[k], indent);
    Ok(Member(NewLine(o, indent + o.indent), FieldName(o, fds[k]), AfterColon(o), value))
  }

  /** The value of a field; an unpopulated one shows its default, a message as null. */
  ghost function FieldJson(sc: Schema, o: Options, fd: Field, slot: Option<Value>, indent: string): Result<Json, EncodeError>
    decreases slot, 7, 0
  {
    var close := NewLine(o, indent + o.indent);
    match fd.card
    case Repeated =>
      if slot.None? then Ok(Arr([], close))
      else if !slot.value.ListV? then Err(IllTyped)
      else
        var items :- ItemsJson(sc, o, fd.kind, slot.value.elems, indent);
        Ok(Arr(items, close))
    case MapWith(_) =>
      if slot.None? then Ok(Obj([], close))
      else if !slot.value.MapV? then Err(IllTyped)
      else
        var members :- EntriesJson(sc, o, fd.kind, slot.value, SortedKeys(slot.value.entries.Keys), indent);
        Ok(Obj(members, close))
    case Singular =>
      if slot.Some? then SingularJson(sc, o, fd.kind, slot.value, indent)
      else if fd.kind.MessageKind? then Ok(Atom("null"))
      else ScalarJson(sc, o, fd.kind, ZeroOf(fd.kind))
  }

  ghost function SingularJson(sc: Schema, o: Options, kind: Kind, v: Value, indent: string): Result<Json, EncodeError>
    decreases v, 6, 0
  {
    if kind.MessageKind? then MessageJson(sc, o, kind.message, v, indent + o.indent)
    else ScalarJson(sc, o, kind, v)
  }

  ghost function ItemsJson(sc: Schema, o: Options, kind: Kind, elems: seq<Value>, indent: string)
    : (r: Result<seq<Item>, EncodeError>)
    ensures r.Ok? ==> |r.value| == |elems|
    decreases elems, 0, 0
  {
    if elems == [] then Ok([]) else
      var value :- SingularJson(sc, o, kind, elems[0], indent + o.indent);
      var more :- ItemsJson(sc, o, kind, elems[1..], indent);
      Ok([Item(NewLine(o, indent + o.indent + o.indent), value)] + more)
  }

  ghost function EntriesJson(sc: Schema, o: Options, kind: Kind, v: Value, ks: seq<MapKey>, indent: string)
    : (r: Result<seq<Member>, EncodeError>)
    requires v.MapV? && forall k :: k in ks ==> k in v.entries
    ensures r.Ok? ==> |r.value| == |ks|
    decreases v, 0, |ks|
  {
    if ks == [] then Ok([]) else
      assert ks[0] in ks;
      var value :- SingularJson(sc, o, kind, v.entries[ks[0]], indent + o.indent);
      var more :- EntriesJson(sc, o, kind, v, ks[1..], indent);
      Ok([Member(NewLine(o, indent + o.indent + o.indent), Quote(KeyText(ks[0])), AfterColon(o), value)] + more)
  }

  /** `Marshaler.MarshalToString`. */
  ghost function Marshal(sc: Schema, o: Options, name: string, v: Value): Result<string, EncodeError> {
    match MessageJson(sc, o, name, v, "")
    case Ok(j) => Ok(Text(j))
    case Err(e) => Err(e)
  }
}
