/** Exactly which messages are written and which are refused (`Common/jsonpb/encode.go`). */
module WriterErrors {
  import opened Encode
  import opened FieldLoop
  import opened MapOrder
  import opened ProtoSchema
  import opened Results

  // ----- a message that its descriptor describes -----

  predicate OfKind(kind: Kind, v: Value) {
    match kind
    case BoolKind => v.BoolV?
    case DoubleKind => v.NumV?
    case StringKind => v.StrV?
    case EnumKind(_) => v.EnumV?
    case MessageKind(_) => false
    case _ => v.IntV?
  }

  /** Every part has the type that the descriptor gives it; values are not restricted. */
  ghost predicate Described(sc: Schema, name: string, v: Value)
    decreases v, 4
  {
    v.MsgV? && FieldsOf(sc, name).Some? && |FieldsOf(sc, name).value| == |v.slots| &&
    match WellKnownOf(name)
    case Ordinary =>
      var fds := FieldsOf(sc, name).value;
      Contiguous(fds) && OneEach(fds, v.slots) && forall i :: 0 <= i < |fds| ==> DescribedSlot(sc, fds[i], v.slots[i])
    case Wrapper(kind) => v.slots[0].Some? ==> OfKind(kind, v.slots[0].value)
    case DurationType => forall i :: 0 <= i < 2 && v.slots[i].Some? ==> v.slots[i].value.IntV?
    case ValueType =>
      OneEach(VALUE_FIELDS, v.slots) && forall i :: 0 <= i < 6 ==> DescribedSlot(sc, VALUE_FIELDS[i], v.slots[i])
    case StructType => DescribedSlot(sc, STRUCT_FIELDS[0], v.slots[0])
    case ListValueType => DescribedSlot(sc, LIST_VALUE_FIELDS[0], v.slots[0])
    case NotModelled => false
  }

  ghost predicate DescribedSlot(sc: Schema, fd: Field, slot: Option<Value>)
    decreases slot, 6
  {
    slot.Some? ==>
      match fd.card
      case Singular => DescribedSingular(sc, fd.kind, slot.value)
      case Repeated =>
        slot.value.ListV? &&
        forall i :: 0 <= i < |slot.value.elems| ==> DescribedSingular(sc, fd.kind, slot.value.elems[i])
      case MapWith(_) =>
        slot.value.MapV? &&
        forall k :: k in slot.value.entries ==> DescribedSingular(sc, fd.kind, slot.value.entries[k])
  }

  ghost predicate DescribedSingular(sc: Schema, kind: Kind, v: Value)
    decreases v, 5
  {
    if kind.MessageKind? then Described(sc, kind.message, v) else OfKind(kind, v)
  }

  // ----- a message that can be written -----

  /** At every depth each `google.protobuf.Value` has its kind set and each duration is in range: at most
      315576000000 seconds and less than a second of nanoseconds either way, of one sign. */
  ghost predicate Writable(sc: Schema, name: string, v: Value)
    requires Described(sc, name, v)
    decreases v, 4
  {
    match WellKnownOf(name)
    case Ordinary =>
      var fds := FieldsOf(sc, name).value;
      forall i :: 0 <= i < |fds| ==> WritableSlot(sc, fds[i], v.slots[i])
    case Wrapper(_) => true
    case DurationType =>
      var s := if v.slots[0].Some? then v.slots[0].value.n else 0;
      var ns := if v.slots[1].Some? then v.slots[1].value.n else 0;
      && -315576000000 <= s <= 315576000000 && -1000000000 < ns < 1000000000
      && !(s > 0 && ns < 0) && !(s < 0 && ns > 0)
    case ValueType =>
      && (exists i :: 0 <= i < 6 && v.slots[i].Some?)
      && forall i :: 0 <= i < 6 ==> WritableSlot(sc, VALUE_FIELDS[i], v.slots[i])
    case StructType => WritableSlot(sc, STRUCT_FIELDS[0], v.slots[0])
    case ListValueType => WritableSlot(sc, LIST_VALUE_FIELDS[0], v.slots[0])
  }

  ghost predicate WritableSlot(sc: Schema, fd: Field, slot: Option<Value>)
    requires DescribedSlot(sc, fd, slot)
    decreases slot, 6
  {
    slot.Some? ==>
      match fd.card
      case Singular => WritableSingular(sc, fd.kind, slot.value)
      case Repeated => forall i :: 0 <= i < |slot.value.elems| ==> WritableSingular(sc, fd.kind, slot.value.elems[i])
      case MapWith(_) => forall k :: k in slot.value.entries ==> WritableSingular(sc, fd.kind, slot.value.entries[k])
  }

  ghost predicate WritableSingular(sc: Schema, kind: Kind, v: Value)
    requires DescribedSingular(sc, kind, v)
    decreases v, 5
  {
    kind.MessageKind? ==> Writable(sc, kind.message, v)
  }

  // ----- the induction -----

  /** Writing succeeds exactly when `ok`, and a failure is one of the two errors of the source. */
  predicate Succeeds<T>(r: Result<T, EncodeError>, ok: bool) {
    (r.Ok? <==> ok) && (r.Err? ==> r.error != IllTyped)
  }

  lemma ScalarSucceeds(sc: Schema, o: Options, kind: Kind, v: Value)
    requires OfKind(kind, v) || (v == ZeroOf(kind) && !kind.MessageKind?)
    ensures Succeeds(ScalarJson(sc, o, kind, v), true)
  {}

  /** A message that its descriptor describes is written if and only if it is writable. */
  lemma {:induction false} MessageSucceeds(sc: Schema, o: Options, name: string, v: Value, indent: string)
    requires Described(sc, name, v)
    ensures Succeeds(MessageJson(sc, o, name, v, indent), Writable(sc, name, v))
    decreases v, 4
  {
    hide FieldJson, MembersJson, ScalarJson, SingularJson, DescribedSlot, WritableSlot, OfKind, WriterIndexes, OneEach,
         Contiguous;
    match WellKnownOf(name)
    case Ordinary =>
      var fds := FieldsOf(sc, name).value;
      WriterShowsAll(fds, v.slots, o.emitDefaults, 0);
      ShownOnceInOrder(fds, v.slots, o.emitDefaults, 0);
      var ks := WriterIndexes(fds, v.slots, o.emitDefaults, 0);
      assert forall x :: 0 <= x < |ks| ==> ks[x] in ks;
      hide ShownFrom;
      MembersSucceed(sc, o, fds, v, ks, indent);
      forall i | 0 <= i < |fds| && i !in ks ensures WritableSlot(sc, fds[i], v.slots[i]) {
        UnsetIsWritable(sc, fds[i], v.slots[i]);
      }
    case Wrapper(kind) => ScalarSucceeds(sc, o, kind, if v.slots[0].Some? then v.slots[0].value else ZeroOf(kind));
    case DurationType =>
    case ValueType => ValueSucceeds(sc, o, v, indent);
    case StructType => FieldSucceeds(sc, o, STRUCT_FIELDS[0], v.slots[0], indent);
    case ListValueType => FieldSucceeds(sc, o, LIST_VALUE_FIELDS[0], v.slots[0], indent);
  }

  lemma UnsetIsWritable(sc: Schema, fd: Field, slot: Option<Value>)
    requires slot.None?
    ensures DescribedSlot(sc, fd, slot) && WritableSlot(sc, fd, slot)
  {}

  lemma {:induction false} MembersSucceed(sc: Schema, o: Options, fds: seq<Field>, v: Value, ks: seq<nat>, indent: string)
    requires v.MsgV? && |v.slots| == |fds| && forall x :: 0 <= x < |ks| ==> ks[x] < |fds|
    requires forall i :: 0 <= i < |fds| ==> DescribedSlot(sc, fds[i], v.slots[i])
    ensures Succeeds(MembersJson(sc, o, fds, v, ks, indent),
                     forall k :: k in ks ==> k < |fds| && WritableSlot(sc, fds[k], v.slots[k]))
    decreases v, 3, |ks|
  {
    hide FieldJson, DescribedSlot, WritableSlot;
    if ks != [] {
      FieldSucceeds(sc, o, fds[ks[0]], v.slots[ks[0]], indent);
      MembersSucceed(sc, o, fds, v, ks[1..], indent);
      assert forall k :: k in ks <==> k == ks[0] || k in ks[1..];
    }
  }

  lemma {:induction false} ValueSucceeds(sc: Schema, o: Options, v: Value, indent: string)
    requires Described(sc, VALUE, v)
    ensures Succeeds(MessageJson(sc, o, VALUE, v, indent), Writable(sc, VALUE, v))
    decreases v, 3, 0
  {
    hide DescribedSlot, WritableSlot, SingularJson;
    WhichIs(VALUE_FIELDS, v.slots, 0, 0);
    var w := WhichOneof(VALUE_FIELDS, v.slots, 0, 0);
    hide WhichOneof;
    ValueOneof();
    if w.Some? {
      SlotSucceeds(sc, o, VALUE_FIELDS[w.value], v.slots[w.value], indent);
      forall i | 0 <= i < 6 && i != w.value ensures WritableSlot(sc, VALUE_FIELDS[i], v.slots[i]) {
        assert VALUE_FIELDS[i].oneof == VALUE_FIELDS[w.value].oneof;
        UnsetIsWritable(sc, VALUE_FIELDS[i], v.slots[i]);
      }
    }
  }

  lemma ValueOneof()
    ensures forall i :: 0 <= i < 6 ==> VALUE_FIELDS[i].oneof == Some(0) && VALUE_FIELDS[i].card == Singular
  {}

  lemma {:induction false} SlotSucceeds(sc: Schema, o: Options, fd: Field, slot: Option<Value>, indent: string)
    requires slot.Some? && fd.card == Singular && DescribedSlot(sc, fd, slot)
    ensures Succeeds(SingularJson(sc, o, fd.kind, slot.value, indent), WritableSlot(sc, fd, slot))
    decreases slot, 5
  {
    hide SingularJson, DescribedSingular, WritableSingular;
    SingularSucceeds(sc, o, fd.kind, slot.value, indent);
  }

  lemma {:induction false} FieldSucceeds(sc: Schema, o: Options, fd: Field, slot: Option<Value>, indent: string)
    requires DescribedSlot(sc, fd, slot)
    ensures Succeeds(FieldJson(sc, o, fd, slot, indent), WritableSlot(sc, fd, slot))
    decreases slot, 6
  {
    hide ScalarJson, SingularJson, DescribedSingular, WritableSingular;
    if slot.None? {
      if !fd.kind.MessageKind? {
        ScalarSucceeds(sc, o, fd.kind, ZeroOf(fd.kind));
      }
    } else {
      match fd.card
      case Singular => SingularSucceeds(sc, o, fd.kind, slot.value, indent);
      case Repeated => ItemsSucceed(sc, o, fd.kind, slot.value.elems, indent);
      case MapWith(_) => EntriesSucceed(sc, o, fd.kind, slot.value, SortedKeys(slot.value.entries.Keys), indent);
    }
  }

  lemma {:induction false} SingularSucceeds(sc: Schema, o: Options, kind: Kind, v: Value, indent: string)
    requires DescribedSingular(sc, kind, v)
    ensures Succeeds(SingularJson(sc, o, kind, v, indent), WritableSingular(sc, kind, v))
    decreases v, 5
  {
    hide MessageJson, ScalarJson, Described, Writable;
    if kind.MessageKind? {
      MessageSucceeds(sc, o, kind.message, v, indent + o.indent);
    } else {
      ScalarSucceeds(sc, o, kind, v);
    }
  }

  lemma {:induction false} ItemsSucceed(sc: Schema, o: Options, kind: Kind, elems: seq<Value>, indent: string)
    requires forall i :: 0 <= i < |elems| ==> DescribedSingular(sc, kind, elems[i])
    ensures Succeeds(ItemsJson(sc, o, kind, elems, indent),
                     forall i :: 0 <= i < |elems| ==> WritableSingular(sc, kind, elems[i]))
    decreases elems, 0
  {
    hide SingularJson, DescribedSingular, WritableSingular;
    if elems != [] {
      var rest := elems[1..];
      SingularSucceeds(sc, o, kind, elems[0], indent + o.indent);
      ItemsSucceed(sc, o, kind, rest, indent);
      assert forall i :: 1 <= i < |elems| ==> elems[i] == rest[i - 1];
      assert forall i :: 0 <= i < |rest| ==> rest[i] == elems[i + 1];
    }
  }

  lemma {:induction false} EntriesSucceed(sc: Schema, o: Options, kind: Kind, v: Value, ks: seq<MapKey>, indent: string)
    requires v.MapV? && (forall k :: k in ks ==> k in v.entries)
    requires forall k :: k in v.entries ==> DescribedSingular(sc, kind, v.entries[k])
    ensures Succeeds(EntriesJson(sc, o, kind, v, ks, indent),
                     forall k :: k in ks ==> WritableSingular(sc, kind, v.entries[k]))
    decreases v, 0, |ks|
  {
    hide SingularJson, DescribedSingular, WritableSingular;
    if ks != [] {
      assert ks[0] in ks && forall k :: k in ks <==> k == ks[0] || k in ks[1..];
      SingularSucceeds(sc, o, kind, v.entries[ks[0]], indent + o.indent);
      EntriesSucceed(sc, o, kind, v, ks[1..], indent);
    }
  }

  /** Which messages are refused: exactly those that hold, at some depth, a `google.protobuf.Value`
      without a kind or a duration out of range. */
  lemma MarshalSucceeds(sc: Schema, o: Options, name: string, v: Value)
    requires Described(sc, name, v)
    ensures Marshal(sc, o, name, v).Ok? <==> Writable(sc, name, v)
    ensures Marshal(sc, o, name, v).Err? ==> Marshal(sc, o, name, v).error != IllTyped
  {
    hide MessageJson, Described, Writable;
    MessageSucceeds(sc, o, name, v, "");
  }
}
