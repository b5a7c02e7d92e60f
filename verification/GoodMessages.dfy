/** The messages the JSON mapping is a law for, and what the trip through JSON makes of them. */
module GoodMessages {
  import Duration
  import opened Encode
  import opened FieldLoop
  import opened JsonText
  import opened ProtoSchema
  import opened Results
  import opened ScalarTrip

  // ----- the messages the law speaks of -----

  /** Spellings: names are plain, and no name of one field is a name of another. */
  ghost predicate GoodNames(fds: seq<Field>) {
    && (forall i :: 0 <= i < |fds| ==> Plain(fds[i].name) && Plain(fds[i].jsonName))
    && (forall i, j :: 0 <= i < |fds| && 0 <= j < |fds| && i != j ==>
          fds[i].name != fds[j].name && fds[i].jsonName != fds[j].jsonName && fds[i].name != fds[j].jsonName)
  }

  predicate GoodCardinality(fd: Field) {
    && (fd.oneof.Some? ==> fd.card.Singular?)
    && (fd.card.MapWith? ==> fd.card.key in {BoolKind, Int32Kind, Int64Kind, Uint32Kind, Uint64Kind, StringKind})
    && fd.kind != EnumKind(NULL_VALUE)
  }

  ghost predicate GoodFields(fds: seq<Field>) {
    GoodNames(fds) && Contiguous(fds) && forall i :: 0 <= i < |fds| ==> GoodCardinality(fds[i])
  }

  /** An enum's names must be sound even when its field is unset: its zero may be shown. */
  ghost predicate GoodKind(sc: Schema, kind: Kind) {
    kind.EnumKind? ==> GoodEnum(EnumValues(sc, kind.enum))
  }

  /** A message that its descriptor describes. A `google.protobuf.Value` has its kind set, and a
      duration is one the printer accepts and 64 bits of nanoseconds can hold. */
  ghost predicate Good(sc: Schema, name: string, v: Value)
    decreases v, 4
  {
    v.MsgV? && FieldsOf(sc, name).Some? && |FieldsOf(sc, name).value| == |v.slots| &&
    match WellKnownOf(name)
    case Ordinary =>
      var fds := FieldsOf(sc, name).value;
      && GoodFields(fds) && OneEach(fds, v.slots)
      && forall i :: 0 <= i < |fds| ==> GoodKind(sc, fds[i].kind) && GoodSlot(sc, fds[i], v.slots[i])
    case Wrapper(kind) =>
      v.slots[0].Some? ==> GoodScalar(sc, kind, v.slots[0].value) && !IsZero(v.slots[0].value)
    case DurationType => GoodDuration(v.slots[0], v.slots[1])
    case ValueType =>
      && OneEach(VALUE_FIELDS, v.slots)
      && (exists i :: 0 <= i < 6 && v.slots[i].Some?)
      && (v.slots[0].Some? ==> v.slots[0].value.EnumV?)
      && (v.slots[1].Some? ==> GoodScalar(sc, DoubleKind, v.slots[1].value))
      && (v.slots[2].Some? ==> v.slots[2].value.StrV?)
      && (v.slots[3].Some? ==> v.slots[3].value.BoolV?)
      && (v.slots[4].Some? ==> Good(sc, STRUCT, v.slots[4].value))
      && (v.slots[5].Some? ==> Good(sc, LIST_VALUE, v.slots[5].value))
    case StructType => GoodSlot(sc, STRUCT_FIELDS[0], v.slots[0])
    case ListValueType => GoodSlot(sc, LIST_VALUE_FIELDS[0], v.slots[0])
    case NotModelled => false
  }

  ghost predicate GoodDuration(seconds: Option<Value>, nanos: Option<Value>) {
    && (seconds.Some? ==> seconds.value.IntV? && !IsZero(seconds.value))
    && (nanos.Some? ==> nanos.value.IntV? && !IsZero(nanos.value))
    && var s := if seconds.Some? then seconds.value.n else 0;
    && var ns := if nanos.Some? then nanos.value.n else 0;
    && Duration.Accepted(s, ns) && Duration.InParseRange(s * Duration.SECOND + ns)
  }

  /** A populated field holds a value of its type; one without presence is not zero or empty. */
  ghost predicate GoodSlot(sc: Schema, fd: Field, slot: Option<Value>)
    decreases slot, 6
  {
    slot.Some? ==>
      && (HasPresence(fd) || !IsZero(slot.value))
      && match fd.card
         case Singular => GoodSingular(sc, fd.kind, slot.value)
         case Repeated =>
           slot.value.ListV? &&
           forall i :: 0 <= i < |slot.value.elems| ==> GoodSingular(sc, fd.kind, slot.value.elems[i])
         case MapWith(key) =>
           slot.value.MapV? &&
           forall k :: k in slot.value.entries ==> GoodKey(key, k) && GoodSingular(sc, fd.kind, slot.value.entries[k])
  }

  ghost predicate GoodSingular(sc: Schema, kind: Kind, v: Value)
    decreases v, 5
  {
    if kind.MessageKind? then Good(sc, kind.message, v) else GoodScalar(sc, kind, v)
  }

  // ----- what comes back -----

  /** A field that default-showing writes as null, which then reads as a value. */
  predicate Filled(o: Options, fd: Field, slot: Option<Value>) {
    slot.None? && o.emitDefaults && IsSingularValue(fd) && fd.oneof.None?
  }

  /** The message that comes back: where `v` is not kept, null is 0, a number that is not finite is a
      string, and an unset `google.protobuf.Value` whose default is shown is set to null. */
  ghost function Settled(sc: Schema, o: Options, name: string, v: Value): Value
    decreases v, 4
  {
    if !v.MsgV? || FieldsOf(sc, name).None? || |FieldsOf(sc, name).value| != |v.slots| then v else
      match WellKnownOf(name)
      case Ordinary =>
        var fds := FieldsOf(sc, name).value;
        MsgV(seq(|v.slots|, i requires 0 <= i < |v.slots| => SettledSlot(sc, o, fds[i], v.slots[i])))
      case ValueType =>
        if v.slots[0].Some? then ValueWith(0, EnumV(0))
        else if v.slots[1].Some? then SettledNumber(v, v.slots[1].value)
        else if v.slots[4].Some? then ValueWith(4, Settled(sc, o, STRUCT, v.slots[4].value))
        else if v.slots[5].Some? then ValueWith(5, Settled(sc, o, LIST_VALUE, v.slots[5].value))
        else v
      case StructType => MsgV([SettledSlot(sc, o, STRUCT_FIELDS[0], v.slots[0])])
      case ListValueType => MsgV([SettledSlot(sc, o, LIST_VALUE_FIELDS[0], v.slots[0])])
      case Wrapper(_) => v
      case DurationType => v
      case NotModelled => v
  }

  function SettledNumber(v: Value, x: Value): Value {
    if !x.NumV? || x.num.Finite? then v else ValueWith(2, StrV(NumberJson(x.num).raw))
  }

  ghost function SettledSlot(sc: Schema, o: Options, fd: Field, slot: Option<Value>): Option<Value>
    decreases slot, 6
  {
    if slot.None? then if Filled(o, fd, slot) then Some(ValueWith(0, EnumV(0))) else None
    else
      Some(match fd.card
           case Singular => SettledSingular(sc, o, fd.kind, slot.value)
           case Repeated => if slot.value.ListV? then ListV(SettledElems(sc, o, fd.kind, slot.value.elems)) else slot.value
           case MapWith(_) => if slot.value.MapV? then MapV(SettledEntries(sc, o, fd.kind, slot.value)) else slot.value)
  }

  ghost function SettledSingular(sc: Schema, o: Options, kind: Kind, v: Value): Value
    decreases v, 5
  {
    if kind.MessageKind? then Settled(sc, o, kind.message, v) else v
  }

  ghost function SettledElems(sc: Schema, o: Options, kind: Kind, elems: seq<Value>): (r: seq<Value>)
    ensures |r| == |elems|
    decreases elems, 0
  {
    if elems == [] then [] else [SettledSingular(sc, o, kind, elems[0])] + SettledElems(sc, o, kind, elems[1..])
  }

  ghost function SettledEntries(sc: Schema, o: Options, kind: Kind, v: Value): map<MapKey, Value>
    requires v.MapV?
    decreases v, 0
  {
    map k | k in v.entries :: SettledSingular(sc, o, kind, v.entries[k])
  }

  /** The messages that come back as they are: exactly those where nothing has to be settled. */
  ghost predicate Kept(sc: Schema, o: Options, name: string, v: Value)
    requires Good(sc, name, v)
    decreases v, 4
  {
    match WellKnownOf(name)
    case Ordinary =>
      var fds := FieldsOf(sc, name).value;
      forall i :: 0 <= i < |fds| ==> !Filled(o, fds[i], v.slots[i]) && KeptSlot(sc, o, fds[i], v.slots[i])
    case ValueType =>
      && (v.slots[0].Some? ==> v.slots[0].value == EnumV(0))
      && (v.slots[1].Some? ==> v.slots[1].value.num.Finite?)
      && (v.slots[4].Some? ==> Kept(sc, o, STRUCT, v.slots[4].value))
      && (v.slots[5].Some? ==> Kept(sc, o, LIST_VALUE, v.slots[5].value))
    case StructType => KeptSlot(sc, o, STRUCT_FIELDS[0], v.slots[0])
    case ListValueType => KeptSlot(sc, o, LIST_VALUE_FIELDS[0], v.slots[0])
    case Wrapper(_) => true
    case DurationType => true
    case NotModelled => true
  }

  ghost predicate KeptSlot(sc: Schema, o: Options, fd: Field, slot: Option<Value>)
    requires GoodSlot(sc, fd, slot)
    decreases slot, 6
  {
    slot.Some? ==>
      match fd.card
      case Singular => KeptSingular(sc, o, fd.kind, slot.value)
      case Repeated => forall i :: 0 <= i < |slot.value.elems| ==> KeptSingular(sc, o, fd.kind, slot.value.elems[i])
      case MapWith(_) => forall k :: k in slot.value.entries ==> KeptSingular(sc, o, fd.kind, slot.value.entries[k])
  }

  ghost predicate KeptSingular(sc: Schema, o: Options, kind: Kind, v: Value)
    requires GoodSingular(sc, kind, v)
    decreases v, 5
  {
    kind.MessageKind? ==> Kept(sc, o, kind.message, v)
  }

  // ----- settling -----

  lemma ValueIsWith(v: Value, w: nat)
    requires v.MsgV? && |v.slots| == 6 && w < 6 && v.slots[w].Some? && OneEach(VALUE_FIELDS, v.slots)
    ensures v == ValueWith(w, v.slots[w].value)
  {
    forall k | 0 <= k < 6 && k != w ensures v.slots[k] == None {
      assert VALUE_FIELDS[k].oneof == VALUE_FIELDS[w].oneof;
    }
  }

  /** A settled field that is set is still worth storing. */
  lemma SettledNotZero(sc: Schema, o: Options, fd: Field, slot: Option<Value>)
    requires GoodSlot(sc, fd, slot)
    ensures var back := SettledSlot(sc, o, fd, slot);
            && (back.Some? ==> HasPresence(fd) || !IsZero(back.value))
            && (back.Some? && slot.None? ==> fd.oneof.None? && o.emitDefaults)
            && (slot.Some? ==> back.Some?)
  {
    hide Settled, GoodSingular;
    if slot.Some? && fd.card.MapWith? && slot.value.entries != map[] {
      var k :| k in slot.value.entries;
      assert k in SettledEntries(sc, o, fd.kind, slot.value);
    }
  }

  lemma {:induction false} SettledIsKept(sc: Schema, o: Options, name: string, v: Value)
    requires Good(sc, name, v)
    ensures Settled(sc, o, name, v) == v <==> Kept(sc, o, name, v)
    decreases v, 4
  {
    hide GoodSlot, KeptSlot, SettledSlot, GoodScalar, GoodFields, GoodKind;
    match WellKnownOf(name)
    case Ordinary =>
      var fds := FieldsOf(sc, name).value;
      forall i | 0 <= i < |fds|
        ensures SettledSlot(sc, o, fds[i], v.slots[i]) == v.slots[i] <==>
                !Filled(o, fds[i], v.slots[i]) && KeptSlot(sc, o, fds[i], v.slots[i])
      {
        SettledIsKeptSlot(sc, o, fds[i], v.slots[i]);
      }
      var back := Settled(sc, o, name, v).slots;
      assert back == v.slots <==> forall i :: 0 <= i < |fds| ==> back[i] == v.slots[i];
    case ValueType => SettledIsKeptValue(sc, o, v);
    case StructType =>
      SettledIsKeptSlot(sc, o, STRUCT_FIELDS[0], v.slots[0]);
      assert v == MsgV([v.slots[0]]);
    case ListValueType =>
      SettledIsKeptSlot(sc, o, LIST_VALUE_FIELDS[0], v.slots[0]);
      assert v == MsgV([v.slots[0]]);
    case Wrapper(_) =>
    case DurationType =>
    case NotModelled =>
  }

  lemma {:induction false} SettledIsKeptValue(sc: Schema, o: Options, v: Value)
    requires Good(sc, VALUE, v)
    ensures Settled(sc, o, VALUE, v) == v <==> Kept(sc, o, VALUE, v)
    decreases v, 3
  {
    hide GoodSlot, KeptSlot, SettledSlot;
    var w :| 0 <= w < 6 && v.slots[w].Some?;
    ValueIsWith(v, w);
    var x := v.slots[w].value;
    if w == 0 {
      assert ValueWith(0, EnumV(0)).slots[0] == Some(EnumV(0));
    } else if w == 1 {
      assert SettledNumber(v, x).slots[1] == Some(x) <==> x.num.Finite?;
    } else if w == 4 {
      SettledIsKept(sc, o, STRUCT, x);
      assert ValueWith(4, Settled(sc, o, STRUCT, x)).slots[4] == Some(Settled(sc, o, STRUCT, x));
    } else if w == 5 {
      SettledIsKept(sc, o, LIST_VALUE, x);
      assert ValueWith(5, Settled(sc, o, LIST_VALUE, x)).slots[5] == Some(Settled(sc, o, LIST_VALUE, x));
    }
  }

  lemma {:induction false} SettledIsKeptSlot(sc: Schema, o: Options, fd: Field, slot: Option<Value>)
    requires GoodSlot(sc, fd, slot)
    ensures SettledSlot(sc, o, fd, slot) == slot <==> !Filled(o, fd, slot) && KeptSlot(sc, o, fd, slot)
    decreases slot, 6
  {
    hide GoodSingular, KeptSingular, SettledSingular, SettledElems;
    if slot.Some? {
      match fd.card
      case Singular => SettledIsKeptSingular(sc, o, fd.kind, slot.value);
      case Repeated => SettledIsKeptElems(sc, o, fd.kind, slot.value.elems);
      case MapWith(_) =>
        var m, back := slot.value.entries, SettledEntries(sc, o, fd.kind, slot.value);
        forall k | k in m ensures back[k] == m[k] <==> KeptSingular(sc, o, fd.kind, m[k]) {
          SettledIsKeptSingular(sc, o, fd.kind, m[k]);
        }
        assert back == m <==> forall k :: k in m ==> back[k] == m[k];
    }
  }

  lemma {:induction false} SettledIsKeptSingular(sc: Schema, o: Options, kind: Kind, v: Value)
    requires GoodSingular(sc, kind, v)
    ensures SettledSingular(sc, o, kind, v) == v <==> KeptSingular(sc, o, kind, v)
    decreases v, 5
  {
    hide Good, Kept, Settled;
    if kind.MessageKind? {
      SettledIsKept(sc, o, kind.message, v);
    }
  }

  lemma {:induction false} SettledIsKeptElems(sc: Schema, o: Options, kind: Kind, elems: seq<Value>)
    requires forall i :: 0 <= i < |elems| ==> GoodSingular(sc, kind, elems[i])
    ensures SettledElems(sc, o, kind, elems) == elems <==>
            forall i :: 0 <= i < |elems| ==> KeptSingular(sc, o, kind, elems[i])
    decreases elems, 0
  {
    hide GoodSingular, KeptSingular, SettledSingular;
    if elems != [] {
      var rest := elems[1..];
      SettledIsKeptSingular(sc, o, kind, elems[0]);
      SettledIsKeptElems(sc, o, kind, rest);
      var back := SettledElems(sc, o, kind, elems);
      assert back == [back[0]] + back[1..] && elems == [elems[0]] + rest;
      assert back[1..] == SettledElems(sc, o, kind, rest);
      assert forall i :: 1 <= i < |elems| ==> elems[i] == rest[i - 1];
      assert forall i :: 0 <= i < |rest| ==> rest[i] == elems[i + 1];
    }
  }
}
