/** Whatever the writer writes is one well-formed JSON value (`Common/jsonpb/encode.go`). */
module WellFormed {
  import opened Decimal
  import Duration
  import opened Encode
  import opened JsonReader
  import opened JsonText
  import opened MapOrder
  import opened ProtoSchema
  import opened Results
  import opened RoundTrip
  import opened ScalarTrip

  /** The names of fields and of enum values need no escaping: the writer puts them between quotes as
      they are. */
  ghost predicate PlainNames(sc: Schema) {
    && (forall m :: m in sc.messages ==> PlainFields(sc.messages[m]))
    && (forall e :: e in sc.enums ==> forall i :: 0 <= i < |sc.enums[e]| ==> Plain(sc.enums[e][i].name))
  }

  ghost predicate PlainFields(fds: seq<Field>) {
    forall i :: 0 <= i < |fds| ==> Plain(fds[i].name) && Plain(fds[i].jsonName)
  }

  /** Finite numbers are known by JSON texts. */
  ghost predicate NumbersValid(v: Value) {
    match v
    case NumV(num) => num.Finite? ==> IsJsonNumber(num.text)
    case MsgV(slots) => forall i :: 0 <= i < |slots| ==> SlotValid(slots[i])
    case ListV(elems) => forall i :: 0 <= i < |elems| ==> NumbersValid(elems[i])
    case MapV(entries) => forall k :: k in entries ==> NumbersValid(entries[k])
    case BoolV(_) => true
    case IntV(_) => true
    case StrV(_) => true
    case EnumV(_) => true
  }

  ghost predicate SlotValid(slot: Option<Value>) {
    slot.Some? ==> NumbersValid(slot.value)
  }

  lemma PlainFieldsOf(sc: Schema, name: string)
    requires PlainNames(sc) && FieldsOf(sc, name).Some? && WellKnownOf(name) == Ordinary
    ensures PlainFields(FieldsOf(sc, name).value)
  {}

  lemma ZeroValid(kind: Kind)
    ensures NumbersValid(ZeroOf(kind))
  {
    assert Span("0") == 1;
    assert IsJsonNumber("0");
  }

  lemma EnumWell(sc: Schema, o: Options, kind: Kind, v: Value)
    requires PlainNames(sc) && kind.EnumKind? && v.EnumV?
    ensures ScalarJson(sc, o, kind, v).Ok? && Well(ScalarJson(sc, o, kind, v).value)
  {
    hide IsJsonNumber, Unquote, RawOk, Plain, Itoa, ByNumber;
    var values := EnumValues(sc, kind.enum);
    ByNumberIsMember(values, v.number);
    ItoaIsNumber(v.number);
    var vd := ByNumber(values, v.number);
    if vd.Some? {
      PlainUnquotes(vd.value.name);
    }
  }

  lemma NumberWell(num: Number)
    requires num.Finite? ==> IsJsonNumber(num.text)
    ensures Well(NumberJson(num))
  {
    hide IsJsonNumber, Unquote, RawOk;
    if !num.Finite? {
      PlainUnquotes(NumberJson(num).raw);
    }
  }

  lemma ScalarWell(sc: Schema, o: Options, kind: Kind, v: Value)
    requires PlainNames(sc) && NumbersValid(v)
    ensures ScalarJson(sc, o, kind, v).Ok? ==> Well(ScalarJson(sc, o, kind, v).value)
  {
    hide IsJsonNumber, Unquote, RawOk, Plain, Itoa, Quote, NumberJson;
    match v
    case BoolV(_) =>
    case IntV(n) => ItoaIsNumber(n);
    case NumV(num) => NumberWell(num);
    case StrV(s) =>
      UnquoteQuote(s);
      QuoteRawOk(s);
    case EnumV(_) =>
      if kind.EnumKind? {
        hide ScalarJson;
        EnumWell(sc, o, kind, v);
      }
    case MsgV(_) =>
    case ListV(_) =>
    case MapV(_) =>
  }

  lemma DurationWell(seconds: Option<Value>, nanos: Option<Value>)
    ensures DurationJson(seconds, nanos).Ok? ==> Well(DurationJson(seconds, nanos).value)
  {
    hide Duration.Print, Plain, RawOk, Unquote;
    var r := DurationJson(seconds, nanos);
    if r.Ok? {
      var s := if seconds.Some? then seconds.value.n else 0;
      var ns := if nanos.Some? then nanos.value.n else 0;
      Duration.PrintPlain(s, ns);
      PlainUnquotes(Duration.Print(s, ns).value);
    }
  }

  lemma SlotsValid(v: Value, k: nat)
    requires v.MsgV? && NumbersValid(v) && k < |v.slots|
    ensures SlotValid(v.slots[k])
  {}

  // ----- the induction -----

  /** A message is written, if at all, as a value that is well formed at every depth. */
  lemma {:induction false} MessageWell(sc: Schema, o: Options, name: string, v: Value, indent: string)
    requires PlainNames(sc) && NumbersValid(v) && Spaced(o, indent)
    ensures MessageJson(sc, o, name, v, indent).Ok? ==> Well(MessageJson(sc, o, name, v, indent).value)
    decreases v, 5, 0
  {
    hide PlainNames, ScalarJson, FieldJson, SingularJson, MembersJson, WriterIndexes, DurationJson, Well, Spaced,
         NumbersValid, PlainFields, NewLine;
    var fds := FieldsOf(sc, name);
    if v.MsgV? && fds.Some? && |fds.value| == |v.slots| {
      match WellKnownOf(name)
      case Wrapper(kind) =>
        SlotsValid(v, 0);
        ZeroValid(kind);
        ScalarWell(sc, o, kind, if v.slots[0].Some? then v.slots[0].value else ZeroOf(kind));
      case DurationType => DurationWell(v.slots[0], v.slots[1]);
      case ValueType =>
        var w := WhichOneof(VALUE_FIELDS, v.slots, 0, 0);
        if w.Some? {
          SlotsValid(v, w.value);
          SingularWell(sc, o, VALUE_FIELDS[w.value].kind, v.slots[w.value].value, indent);
        }
      case StructType =>
        SlotsValid(v, 0);
        FieldWell(sc, o, STRUCT_FIELDS[0], v.slots[0], indent);
      case ListValueType =>
        SlotsValid(v, 0);
        FieldWell(sc, o, LIST_VALUE_FIELDS[0], v.slots[0], indent);
      case NotModelled =>
      case Ordinary =>
        PlainFieldsOf(sc, name);
        var ks := WriterIndexes(fds.value, v.slots, o.emitDefaults, 0);
        MembersWell(sc, o, fds.value, v, ks, indent);
        var members := MembersJson(sc, o, fds.value, v, ks, indent);
        if members.Ok? {
          ObjectWell(o, members.value, indent);
        }
    }
  }

  lemma ObjectWell(o: Options, members: seq<Member>, indent: string)
    requires WellMembers(members) && Spaced(o, indent)
    ensures Well(Obj(members, (if members == [] then NewLine(o, "") else "") + NewLine(o, indent)))
    ensures Well(Obj(members, NewLine(o, indent + o.indent)))
  {
    hide WellMembers, NewLine, Spaced, AllSpace;
    SpacedParts(o, indent);
    NoSpace();
    SpaceConcat(if members == [] then NewLine(o, "") else "", NewLine(o, indent));
  }

  lemma NoSpace()
    ensures AllSpace("")
  {}

  lemma {:induction false} MembersWell(sc: Schema, o: Options, fds: seq<Field>, v: Value, ks: seq<nat>, indent: string)
    requires PlainNames(sc) && PlainFields(fds) && NumbersValid(v) && Spaced(o, indent)
    requires v.MsgV? && |v.slots| == |fds| && forall x :: 0 <= x < |ks| ==> ks[x] < |fds|
    ensures var r := MembersJson(sc, o, fds, v, ks, indent); r.Ok? ==> WellMembers(r.value)
    decreases v, 4, |ks|
  {
    hide PlainNames, NumbersValid, FieldJson, Well, Spaced, Plain, RawOk, Unquote, NewLine, AfterColon, AllSpace;
    if ks != [] {
      SpacedParts(o, indent);
      SlotsValid(v, ks[0]);
      FieldWell(sc, o, fds[ks[0]], v.slots[ks[0]], indent);
      MembersWell(sc, o, fds, v, ks[1..], indent);
      PlainUnquotes(FieldName(o, fds[ks[0]]));
      var member, more := MemberJson(sc, o, fds, v, ks[0], indent), MembersJson(sc, o, fds, v, ks[1..], indent);
      if member.Ok? && more.Ok? {
        WellCons(member.value, more.value);
      }
    }
  }

  lemma WellCons(m: Member, more: seq<Member>)
    requires WellMember(m) && WellMembers(more)
    ensures WellMembers([m] + more)
  {
    hide WellMember;
    assert ([m] + more)[1..] == more;
  }

  lemma WellItemsCons(item: Item, more: seq<Item>)
    requires AllSpace(item.before) && Well(item.value) && WellItems(more)
    ensures WellItems([item] + more)
  {
    hide Well, AllSpace;
    assert ([item] + more)[1..] == more;
  }

  lemma {:induction false} FieldWell(sc: Schema, o: Options, fd: Field, slot: Option<Value>, indent: string)
    requires PlainNames(sc) && SlotValid(slot) && Spaced(o, indent)
    ensures FieldJson(sc, o, fd, slot, indent).Ok? ==> Well(FieldJson(sc, o, fd, slot, indent).value)
    decreases slot, 7, 0
  {
    hide PlainNames, ItemsJson, EntriesJson, ScalarJson, SingularJson, NewLine, AllSpace, Spaced, SortedKeys;
    SpacedParts(o, indent);
    match fd.card
    case Repeated =>
      if slot.Some? && slot.value.ListV? {
        hide WellItems;
        ItemsWell(sc, o, fd.kind, slot.value.elems, indent);
      }
    case MapWith(_) =>
      if slot.Some? && slot.value.MapV? {
        hide WellMembers;
        EntriesWell(sc, o, fd.kind, slot.value, SortedKeys(slot.value.entries.Keys), indent);
      }
    case Singular =>
      hide Well, NumbersValid;
      if slot.Some? {
        SingularWell(sc, o, fd.kind, slot.value, indent);
      } else if fd.kind.MessageKind? {
        NullWell();
      } else {
        ZeroValid(fd.kind);
        ScalarWell(sc, o, fd.kind, ZeroOf(fd.kind));
      }
  }

  lemma NullWell()
    ensures Well(Atom("null"))
  {}

  lemma {:induction false} SingularWell(sc: Schema, o: Options, kind: Kind, v: Value, indent: string)
    requires PlainNames(sc) && NumbersValid(v) && Spaced(o, indent)
    ensures SingularJson(sc, o, kind, v, indent).Ok? ==> Well(SingularJson(sc, o, kind, v, indent).value)
    decreases v, 6, 0
  {
    hide PlainNames, NumbersValid, ScalarJson, MessageJson, Well, Spaced;
    if kind.MessageKind? {
      SpacedParts(o, indent);
      MessageWell(sc, o, kind.message, v, indent + o.indent);
    } else {
      ScalarWell(sc, o, kind, v);
    }
  }

  lemma {:induction false} ItemsWell(sc: Schema, o: Options, kind: Kind, elems: seq<Value>, indent: string)
    requires PlainNames(sc) && Spaced(o, indent) && forall i :: 0 <= i < |elems| ==> NumbersValid(elems[i])
    ensures var r := ItemsJson(sc, o, kind, elems, indent); r.Ok? ==> WellItems(r.value)
    decreases elems, 0, 0
  {
    hide PlainNames, NumbersValid, SingularJson, Well, Spaced, NewLine, AllSpace;
    if elems != [] {
      SpacedParts(o, indent);
      SingularWell(sc, o, kind, elems[0], indent + o.indent);
      ItemsWell(sc, o, kind, elems[1..], indent);
      var value, more := SingularJson(sc, o, kind, elems[0], indent + o.indent), ItemsJson(sc, o, kind, elems[1..], indent);
      if value.Ok? && more.Ok? {
        WellItemsCons(Item(NewLine(o, indent + o.indent + o.indent), value.value), more.value);
      }
    }
  }

  lemma {:induction false} EntriesWell(sc: Schema, o: Options, kind: Kind, v: Value, ks: seq<MapKey>, indent: string)
    requires PlainNames(sc) && v.MapV? && NumbersValid(v) && Spaced(o, indent) && forall k :: k in ks ==> k in v.entries
    ensures var r := EntriesJson(sc, o, kind, v, ks, indent); r.Ok? ==> WellMembers(r.value)
    decreases v, 0, |ks|
  {
    if ks != [] {
      hide PlainNames, SingularJson, Well, Spaced, NewLine, AfterColon, AllSpace, RawOk, Unquote, Quote, KeyText;
      SpacedParts(o, indent);
      assert ks[0] in ks;
      SingularWell(sc, o, kind, v.entries[ks[0]], indent + o.indent);
      EntriesWell(sc, o, kind, v, ks[1..], indent);
      QuotedKey(KeyText(ks[0]));
      var value := SingularJson(sc, o, kind, v.entries[ks[0]], indent + o.indent);
      var more := EntriesJson(sc, o, kind, v, ks[1..], indent);
      if value.Ok? && more.Ok? {
        WellCons(Member(NewLine(o, indent + o.indent + o.indent), Quote(KeyText(ks[0])), AfterColon(o), value.value),
                 more.value);
      }
    }
  }

  lemma QuotedKey(text: string)
    ensures RawOk(Quote(text)) && Unquote(Quote(text)).Some?
  {
    UnquoteQuote(text);
    QuoteRawOk(text);
  }
}
