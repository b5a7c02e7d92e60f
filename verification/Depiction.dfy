/** What written JSON says: a message's text, taken apart again, depicts the message under the proto3 JSON
    mapping, names, values and order included (`Common/jsonpb/encode.go`). */
module Depiction {
  import Duration
  import opened Decimal
  import opened Encode
  import opened FieldLoop
  import opened GoodMessages
  import opened JsonReader
  import opened JsonText
  import opened MapOrder
  import opened ProtoSchema
  import opened Results
  import opened RoundTrip
  import opened ScalarTrip

  // ----- what depicts what -----

  predicate DepictsNumber(num: Number, j: Json) {
    match num
    case Finite(text) => j == Atom(text)
    case PosInf => j == Str("Infinity")
    case NegInf => j == Str("-Infinity")
    case NotANumber => j == Str("NaN")
  }

  /** An enum shows as its first name for the number, unless numbers are asked for or it has none. */
  predicate DepictsEnum(sc: Schema, o: Options, enum: string, n: int, j: Json) {
    var values := EnumValues(sc, enum);
    if enum == "google.protobuf.NullValue" then j == Atom("null")
    else if o.enumsAsInts || forall i :: 0 <= i < |values| ==> values[i].number != n then j == Atom(Itoa(n))
    else
      exists i :: 0 <= i < |values| && values[i].number == n && j == Str(values[i].name)
                  && forall k :: 0 <= k < i ==> values[k].number != n
  }

  predicate DepictsScalar(sc: Schema, o: Options, kind: Kind, v: Value, j: Json) {
    match v
    case BoolV(b) => j == Atom(if b then "true" else "false")
    case IntV(n) => j == Atom(Itoa(n))
    case NumV(num) => DepictsNumber(num, j)
    case StrV(s) => j == Str(Quote(s)) && Unquote(j.raw) == Some(s)
    case EnumV(n) => kind.EnumKind? && DepictsEnum(sc, o, kind.enum, n, j)
    case _ => false
  }

  /** What stands for an unset singular field when defaults are shown. */
  predicate DepictsDefault(sc: Schema, o: Options, kind: Kind, j: Json) {
    match kind
    case MessageKind(_) => j == Atom("null")
    case BoolKind => j == Atom("false")
    case StringKind => j == Str("")
    case EnumKind(enum) => DepictsEnum(sc, o, enum, 0, j)
    case _ => j == Atom("0")
  }

  function NameOfKey(k: MapKey): string {
    match k
    case BoolKey(b) => if b then "true" else "false"
    case IntKey(n) => Itoa(n)
    case StrKey(s) => s
  }

  ghost predicate Depicts(sc: Schema, o: Options, name: string, v: Value, j: Json)
    decreases v, 4
  {
    v.MsgV? && FieldsOf(sc, name).Some? && |FieldsOf(sc, name).value| == |v.slots| &&
    match WellKnownOf(name)
    case Ordinary =>
      var fds := FieldsOf(sc, name).value;
      var ks := ShownFrom(fds, v.slots, o.emitDefaults, 0);
      && j.Obj? && |j.members| == |ks|
      && forall x :: 0 <= x < |ks| ==>
           && ks[x] < |fds|
           && Unquote(j.members[x].key) == Some(if o.origName then fds[ks[x]].name else fds[ks[x]].jsonName)
           && DepictsField(sc, o, fds[ks[x]], v.slots[ks[x]], j.members[x].value)
    case Wrapper(kind) =>
      if v.slots[0].Some? then DepictsScalar(sc, o, kind, v.slots[0].value, j) else DepictsDefault(sc, o, kind, j)
    case DurationType =>
      var s := if v.slots[0].Some? && v.slots[0].value.IntV? then v.slots[0].value.n else 0;
      var ns := if v.slots[1].Some? && v.slots[1].value.IntV? then v.slots[1].value.n else 0;
      j.Str? && Duration.Print(s, ns) == Ok(j.raw)
    case ValueType =>
      && (v.slots[0].Some? ==> j == Atom("null"))
      && (v.slots[1].Some? ==> v.slots[1].value.NumV? && DepictsNumber(v.slots[1].value.num, j))
      && (v.slots[2].Some? ==> v.slots[2].value.StrV? && DepictsScalar(sc, o, StringKind, v.slots[2].value, j))
      && (v.slots[3].Some? ==> v.slots[3].value.BoolV? && DepictsScalar(sc, o, BoolKind, v.slots[3].value, j))
      && (v.slots[4].Some? ==> Depicts(sc, o, STRUCT, v.slots[4].value, j))
      && (v.slots[5].Some? ==> Depicts(sc, o, LIST_VALUE, v.slots[5].value, j))
    case StructType => DepictsField(sc, o, STRUCT_FIELDS[0], v.slots[0], j)
    case ListValueType => DepictsField(sc, o, LIST_VALUE_FIELDS[0], v.slots[0], j)
    case NotModelled => false
  }

  ghost predicate DepictsField(sc: Schema, o: Options, fd: Field, slot: Option<Value>, j: Json)
    decreases slot, 6
  {
    match fd.card
    case Singular =>
      if slot.Some? then DepictsSingular(sc, o, fd.kind, slot.value, j) else DepictsDefault(sc, o, fd.kind, j)
    case Repeated =>
      j.Arr? &&
      if slot.None? then j.items == []
      else
        && slot.value.ListV? && |j.items| == |slot.value.elems|
        && forall i :: 0 <= i < |slot.value.elems| ==>
             DepictsSingular(sc, o, fd.kind, slot.value.elems[i], j.items[i].value)
    case MapWith(_) =>
      j.Obj? &&
      if slot.None? then j.members == []
      else slot.value.MapV? && DepictsEntries(sc, o, fd.kind, slot.value, SortedKeys(slot.value.entries.Keys), j.members)
  }

  /** One member for each key, in the order of the keys. */
  ghost predicate DepictsEntries(sc: Schema, o: Options, kind: Kind, v: Value, ks: seq<MapKey>, members: seq<Member>)
    requires v.MapV?
    decreases v, 0
  {
    && |members| == |ks|
    && forall x :: 0 <= x < |ks| ==>
         && ks[x] in v.entries && Unquote(members[x].key) == Some(NameOfKey(ks[x]))
         && DepictsSingular(sc, o, kind, v.entries[ks[x]], members[x].value)
  }

  ghost predicate DepictsSingular(sc: Schema, o: Options, kind: Kind, v: Value, j: Json)
    decreases v, 5
  {
    if kind.MessageKind? then Depicts(sc, o, kind.message, v, j) else DepictsScalar(sc, o, kind, v, j)
  }

  // ----- scalars -----

  lemma {:induction false} FirstByNumber(values: seq<EnumValue>, n: int)
    ensures var vd := ByNumber(values, n);
            if vd.None? then forall i :: 0 <= i < |values| ==> values[i].number != n
            else exists i :: 0 <= i < |values| && values[i] == vd.value && values[i].number == n
                             && forall k :: 0 <= k < i ==> values[k].number != n
  {
    if values != [] && values[0].number != n {
      var rest := values[1..];
      FirstByNumber(rest, n);
      assert forall i :: 1 <= i < |values| ==> values[i] == rest[i - 1];
      if ByNumber(rest, n).Some? {
        var i :| 0 <= i < |rest| && rest[i] == ByNumber(rest, n).value && rest[i].number == n
                 && forall k :: 0 <= k < i ==> rest[k].number != n;
        assert values[i + 1] == rest[i];
      }
    }
  }

  lemma EnumDepicted(sc: Schema, o: Options, enum: string, n: int)
    ensures var r := ScalarJson(sc, o, EnumKind(enum), EnumV(n)); r.Ok? && DepictsEnum(sc, o, enum, n, r.value)
  {
    hide Itoa;
    FirstByNumber(EnumValues(sc, enum), n);
  }

  lemma ScalarDepicted(sc: Schema, o: Options, kind: Kind, v: Value)
    requires ScalarJson(sc, o, kind, v).Ok?
    ensures var j := ScalarJson(sc, o, kind, v).value; DepictsScalar(sc, o, kind, v, j) && Compact(j) == j
  {
    hide Unquote, Itoa, Quote, DepictsEnum;
    match v
    case StrV(s) => UnquoteQuote(s);
    case EnumV(n) => EnumDepicted(sc, o, kind.enum, n);
    case _ =>
  }

  lemma DefaultDepicted(sc: Schema, o: Options, kind: Kind)
    requires !kind.MessageKind?
    ensures var r := ScalarJson(sc, o, kind, ZeroOf(kind));
            r.Ok? && DepictsDefault(sc, o, kind, r.value) && Compact(r.value) == r.value
  {
    hide DepictsEnum;
    assert Itoa(0) == "0";
    if kind.EnumKind? {
      EnumDepicted(sc, o, kind.enum, 0);
    }
  }

  // ----- strings -----

  /** Characters that stand for themselves within a written string. */
  predicate Ordinarily(c: char) {
    c >= ' ' && c !in {'"', '\\', '<', '>', '&', '\U{2028}', '\U{2029}'}
  }

  /** A text without special characters is written as it is. */
  lemma {:induction false} QuotePlain(s: string)
    requires forall i :: 0 <= i < |s| ==> Ordinarily(s[i])
    ensures Quote(s) == s
  {
    if s != [] {
      QuotePlain(s[1..]);
      assert s == [s[0]] + s[1..];
    }
  }

  /** How the others are written: by their short escapes or by four lower-case hexadecimal digits. */
  lemma EscapeForms(c: char)
    ensures Escape('"') == "\\\"" && Escape('\\') == "\\\\"
    ensures Escape('\n') == "\\n" && Escape('\r') == "\\r" && Escape('\t') == "\\t"
    ensures !Ordinarily(c) && c !in {'"', '\\', '\n', '\r', '\t'} ==>
              var e := Escape(c);
              |e| == 6 && e[..2] == "\\u" && LowerHex(e[2..]) && Hex4Value(e[2..]) == Some(c as int)
  {
    if !Ordinarily(c) && c !in {'"', '\\', '\n', '\r', '\t'} {
      Hex4Lower(c as int);
      Hex4RoundTrip(c as int);
      assert Escape(c)[..2] == "\\u" && Escape(c)[2..] == Hex4(c as int);
    }
  }

  predicate LowerHex(s: string) {
    forall i :: 0 <= i < |s| ==> '0' <= s[i] <= '9' || 'a' <= s[i] <= 'f'
  }

  lemma Hex4Lower(n: nat)
    requires n < 0x1_0000
    ensures LowerHex(Hex4(n))
  {
    assert forall d :: 0 <= d < 16 ==> '0' <= HEX[d] <= '9' || 'a' <= HEX[d] <= 'f';
    hide HEX;
  }

  /** No control character and no character that is special in HTML stands in a written string, and every
      quotation mark in it has a backslash in front. */
  lemma {:induction false} QuoteTame(s: string)
    ensures forall i :: 0 <= i < |Quote(s)| ==>
              && Quote(s)[i] >= ' ' && Quote(s)[i] !in {'<', '>', '&', '\U{2028}', '\U{2029}'}
              && (Quote(s)[i] == '"' ==> i > 0 && Quote(s)[i - 1] == '\\')
  {
    if s != [] {
      QuoteTame(s[1..]);
      EscapeTame(s[0]);
    }
  }

  lemma EscapeTame(c: char)
    ensures var e := Escape(c);
            forall i :: 0 <= i < |e| ==>
              && e[i] >= ' ' && e[i] !in {'<', '>', '&', '\U{2028}', '\U{2029}'}
              && (e[i] == '"' ==> i > 0 && e[i - 1] == '\\')
  {
    if !Ordinarily(c) && c !in {'"', '\\', '\n', '\r', '\t'} {
      hide Hex4;
      Hex4Lower(c as int);
      assert Escape(c) == "\\u" + Hex4(c as int);
    }
  }

  // ----- the induction -----

  lemma {:induction false} MessageDepicted(sc: Schema, o: Options, name: string, v: Value, indent: string)
    requires Good(sc, name, v) && MessageJson(sc, o, name, v, indent).Ok?
    ensures Depicts(sc, o, name, v, Compact(MessageJson(sc, o, name, v, indent).value))
    decreases v, 4
  {
    hide FieldJson, GoodSlot, MembersJson, DepictsField, Compact, ScalarJson, DepictsScalar, GoodKind, Unquote, GoodDuration,
         GoodScalar, DepictsDefault;
    match WellKnownOf(name)
    case Ordinary =>
      var fds := FieldsOf(sc, name).value;
      WriterShowsAll(fds, v.slots, o.emitDefaults, 0);
      hide ShownFrom, WriterIndexes;
      MembersDepicted(sc, o, fds, v, WriterIndexes(fds, v.slots, o.emitDefaults, 0), indent);
      ObjectIs(sc, o, name, fds, v, indent);
    case Wrapper(_) => WrapperDepicted(sc, o, name, v, indent);
    case DurationType => DurationDepicted(sc, o, v, indent);
    case ValueType => ValueDepicted(sc, o, v, indent);
    case StructType => FieldDepicted(sc, o, STRUCT_FIELDS[0], v.slots[0], indent);
    case ListValueType => FieldDepicted(sc, o, LIST_VALUE_FIELDS[0], v.slots[0], indent);
    case NotModelled =>
  }

  lemma WrapperDepicted(sc: Schema, o: Options, name: string, v: Value, indent: string)
    requires WellKnownOf(name).Wrapper? && v.MsgV? && |v.slots| == 1 && MessageJson(sc, o, name, v, indent).Ok?
    ensures Depicts(sc, o, name, v, Compact(MessageJson(sc, o, name, v, indent).value))
  {
    hide ScalarJson, DepictsScalar, DepictsDefault, Compact;
    var kind := WellKnownOf(name).kind;
    if v.slots[0].Some? {
      ScalarDepicted(sc, o, kind, v.slots[0].value);
    } else {
      DefaultDepicted(sc, o, kind);
    }
  }

  lemma DurationDepicted(sc: Schema, o: Options, v: Value, indent: string)
    requires v.MsgV? && |v.slots| == 2 && MessageJson(sc, o, DURATION, v, indent).Ok?
    ensures Depicts(sc, o, DURATION, v, Compact(MessageJson(sc, o, DURATION, v, indent).value))
  {
    hide Duration.Print;
  }

  lemma ObjectIs(sc: Schema, o: Options, name: string, fds: seq<Field>, v: Value, indent: string)
    requires WellKnownOf(name) == Ordinary && FieldsOf(sc, name) == Some(fds) && v.MsgV? && |v.slots| == |fds|
    requires MessageJson(sc, o, name, v, indent).Ok?
    ensures var r := MembersJson(sc, o, fds, v, WriterIndexes(fds, v.slots, o.emitDefaults, 0), indent);
            r.Ok? && Compact(MessageJson(sc, o, name, v, indent).value) == Obj(CompactMembers(r.value), "")
  {
    hide MembersJson, WriterIndexes;
  }

  lemma {:induction false} MembersDepicted(sc: Schema, o: Options, fds: seq<Field>, v: Value, ks: seq<nat>, indent: string)
    requires v.MsgV? && |v.slots| == |fds| && forall x :: 0 <= x < |ks| ==> ks[x] < |fds|
    requires GoodNames(fds) && forall k :: 0 <= k < |fds| ==> GoodSlot(sc, fds[k], v.slots[k])
    requires MembersJson(sc, o, fds, v, ks, indent).Ok?
    ensures var c := CompactMembers(MembersJson(sc, o, fds, v, ks, indent).value);
            && |c| == |ks|
            && forall x :: 0 <= x < |ks| ==>
                 && Unquote(c[x].key) == Some(if o.origName then fds[ks[x]].name else fds[ks[x]].jsonName)
                 && DepictsField(sc, o, fds[ks[x]], v.slots[ks[x]], c[x].value)
    decreases v, 3, |ks|
  {
    hide FieldJson, GoodSlot, DepictsField, Compact, Unquote, Plain, RawOk;
    if ks != [] {
      var k := ks[0];
      FieldDepicted(sc, o, fds[k], v.slots[k], indent);
      MembersDepicted(sc, o, fds, v, ks[1..], indent);
      PlainUnquotes(if o.origName then fds[k].name else fds[k].jsonName);
      var c, more := CompactMembers(MembersJson(sc, o, fds, v, ks, indent).value),
                     CompactMembers(MembersJson(sc, o, fds, v, ks[1..], indent).value);
      assert c == [c[0]] + more;
      assert forall x :: 1 <= x < |ks| ==> c[x] == more[x - 1] && ks[x] == ks[1..][x - 1];
    }
  }

  lemma {:induction false} ValueDepicted(sc: Schema, o: Options, v: Value, indent: string)
    requires Good(sc, VALUE, v) && MessageJson(sc, o, VALUE, v, indent).Ok?
    ensures Depicts(sc, o, VALUE, v, Compact(MessageJson(sc, o, VALUE, v, indent).value))
    decreases v, 3, 0
  {
    hide Compact, GoodScalar;
    var w :| 0 <= w < 6 && v.slots[w].Some?;
    ValueIsWith(v, w);
    var x := v.slots[w].value;
    WhichOfValue(v, w);
    hide OneEach, WhichOneof;
    if w < 4 {
      ScalarDepicted(sc, o, VALUE_FIELDS[w].kind, x);
    } else {
      MessageDepicted(sc, o, VALUE_FIELDS[w].kind.message, x, indent + o.indent);
    }
  }

  lemma WhichOfValue(v: Value, w: nat)
    requires v.MsgV? && |v.slots| == 6 && w < 6 && v.slots[w].Some? && v == ValueWith(w, v.slots[w].value)
    ensures WhichOneof(VALUE_FIELDS, v.slots, 0, 0) == Some(w)
  {
    var slots := v.slots;
    assert forall k :: 0 <= k < 6 && k != w ==> slots[k].None?;
    WhichIs(VALUE_FIELDS, slots, 0, 0);
    assert VALUE_FIELDS[w].oneof == Some(0);
  }

  lemma {:induction false} FieldDepicted(sc: Schema, o: Options, fd: Field, slot: Option<Value>, indent: string)
    requires GoodSlot(sc, fd, slot) && FieldJson(sc, o, fd, slot, indent).Ok?
    ensures DepictsField(sc, o, fd, slot, Compact(FieldJson(sc, o, fd, slot, indent).value))
    decreases slot, 6
  {
    hide ScalarJson, SingularJson, DepictsSingular, DepictsDefault, GoodSingular;
    match fd.card
    case Repeated =>
      if slot.Some? {
        ItemsDepicted(sc, o, fd.kind, slot.value.elems, indent);
      }
    case MapWith(key) =>
      if slot.Some? {
        EntriesDepicted(sc, o, fd.kind, slot.value, SortedKeys(slot.value.entries.Keys), indent);
      }
    case Singular =>
      if slot.Some? {
        SingularDepicted(sc, o, fd.kind, slot.value, indent);
      } else if !fd.kind.MessageKind? {
        DefaultDepicted(sc, o, fd.kind);
      } else {
        NullDepicted(sc, o, fd.kind);
      }
  }

  lemma NullDepicted(sc: Schema, o: Options, kind: Kind)
    requires kind.MessageKind?
    ensures DepictsDefault(sc, o, kind, Atom("null"))
  {}

  lemma {:induction false} SingularDepicted(sc: Schema, o: Options, kind: Kind, v: Value, indent: string)
    requires GoodSingular(sc, kind, v) && SingularJson(sc, o, kind, v, indent).Ok?
    ensures DepictsSingular(sc, o, kind, v, Compact(SingularJson(sc, o, kind, v, indent).value))
    decreases v, 5
  {
    hide MessageJson, ScalarJson, Depicts, DepictsScalar, Good, GoodScalar, Compact;
    if kind.MessageKind? {
      MessageDepicted(sc, o, kind.message, v, indent + o.indent);
    } else {
      ScalarDepicted(sc, o, kind, v);
    }
  }

  lemma {:induction false} ItemsDepicted(sc: Schema, o: Options, kind: Kind, elems: seq<Value>, indent: string)
    requires forall i :: 0 <= i < |elems| ==> GoodSingular(sc, kind, elems[i])
    requires ItemsJson(sc, o, kind, elems, indent).Ok?
    ensures var c := CompactItems(ItemsJson(sc, o, kind, elems, indent).value);
            forall i :: 0 <= i < |elems| ==> DepictsSingular(sc, o, kind, elems[i], c[i].value)
    decreases elems, 0
  {
    hide SingularJson, DepictsSingular, GoodSingular, Compact;
    if elems != [] {
      var rest := elems[1..];
      SingularDepicted(sc, o, kind, elems[0], indent + o.indent);
      ItemsDepicted(sc, o, kind, rest, indent);
      var c, more := CompactItems(ItemsJson(sc, o, kind, elems, indent).value),
                     CompactItems(ItemsJson(sc, o, kind, rest, indent).value);
      assert c == [c[0]] + more;
      assert forall i :: 1 <= i < |elems| ==> c[i] == more[i - 1] && elems[i] == rest[i - 1];
    }
  }

  lemma {:induction false} EntriesDepicted(sc: Schema, o: Options, kind: Kind, v: Value, ks: seq<MapKey>, indent: string)
    requires v.MapV? && (forall k :: k in ks ==> k in v.entries)
    requires forall k :: k in v.entries ==> GoodSingular(sc, kind, v.entries[k])
    requires EntriesJson(sc, o, kind, v, ks, indent).Ok?
    ensures DepictsEntries(sc, o, kind, v, ks, CompactMembers(EntriesJson(sc, o, kind, v, ks, indent).value))
    decreases v, 0, |ks|
  {
    hide SingularJson, DepictsSingular, GoodSingular, EntriesJson, DepictsEntries, Compact;
    if ks == [] {
      NoEntriesDepicted(sc, o, kind, v, indent);
    } else {
      assert ks[0] in ks && forall k :: k in ks[1..] ==> k in ks;
      FirstEntry(sc, o, kind, v, ks, indent);
      SingularDepicted(sc, o, kind, v.entries[ks[0]], indent + o.indent);
      EntriesDepicted(sc, o, kind, v, ks[1..], indent);
      DepictsCons(sc, o, kind, v, ks, CompactMembers(EntriesJson(sc, o, kind, v, ks, indent).value));
    }
  }

  lemma NoEntriesDepicted(sc: Schema, o: Options, kind: Kind, v: Value, indent: string)
    requires v.MapV?
    ensures EntriesJson(sc, o, kind, v, [], indent) == Ok([]) && DepictsEntries(sc, o, kind, v, [], CompactMembers([]))
  {}

  lemma FirstEntry(sc: Schema, o: Options, kind: Kind, v: Value, ks: seq<MapKey>, indent: string)
    requires v.MapV? && ks != [] && (forall k :: k in ks ==> k in v.entries) && EntriesJson(sc, o, kind, v, ks, indent).Ok?
    ensures ks[0] in v.entries && forall k :: k in ks[1..] ==> k in v.entries
    ensures var r, more := SingularJson(sc, o, kind, v.entries[ks[0]], indent + o.indent),
                           EntriesJson(sc, o, kind, v, ks[1..], indent);
            && r.Ok? && more.Ok?
            && CompactMembers(EntriesJson(sc, o, kind, v, ks, indent).value) ==
               [Member("", Quote(NameOfKey(ks[0])), "", Compact(r.value))] + CompactMembers(more.value)
  {
    hide SingularJson, Compact, Quote;
    assert ks[0] in ks && forall k :: k in ks[1..] ==> k in ks;
    var all, more := EntriesJson(sc, o, kind, v, ks, indent), EntriesJson(sc, o, kind, v, ks[1..], indent);
    assert all.value[1..] == more.value;
  }

  lemma DepictsCons(sc: Schema, o: Options, kind: Kind, v: Value, ks: seq<MapKey>, c: seq<Member>)
    requires v.MapV? && ks != [] && c != [] && ks[0] in v.entries
    requires c[0].key == Quote(NameOfKey(ks[0])) && DepictsSingular(sc, o, kind, v.entries[ks[0]], c[0].value)
    requires DepictsEntries(sc, o, kind, v, ks[1..], c[1..])
    ensures DepictsEntries(sc, o, kind, v, ks, c)
  {
    hide DepictsSingular, Quote, Unquote, NameOfKey;
    UnquoteQuote(NameOfKey(ks[0]));
    assert forall x :: 1 <= x < |ks| ==> c[x] == c[1..][x - 1] && ks[x] == ks[1..][x - 1];
  }

  // ----- the law -----

  /** The text of every good message, under every setting and every white-space indentation, reads as JSON
      that depicts the message. */
  lemma MarshalDepicts(sc: Schema, o: Options, name: string, v: Value)
    requires Good(sc, name, v) && AllSpace(o.indent)
    ensures var text := Marshal(sc, o, name, v);
            text.Ok? && Read(text.value).Some? && Depicts(sc, o, name, v, Read(text.value).value)
  {
    hide Good, Settled, MessageJson, Depicts, Well, Compact, Read, Text;
    MessageTrip(sc, false, o, name, v, "");
    ReadText(MessageJson(sc, o, name, v, "").value);
    MessageDepicted(sc, o, name, v, "");
  }

  /** The member names of an ordinary message's text, in order: the descriptor's own names when those are
      asked for and the JSON names otherwise, of the fields to be shown. */
  lemma WrittenNames(sc: Schema, o: Options, name: string, v: Value)
    requires Good(sc, name, v) && AllSpace(o.indent) && WellKnownOf(name) == Ordinary
    ensures Marshal(sc, o, name, v).Ok?
    ensures var j := Read(Marshal(sc, o, name, v).value);
            var fds, ks := FieldsOf(sc, name).value, ShownFrom(FieldsOf(sc, name).value, v.slots, o.emitDefaults, 0);
            && j.Some? && j.value.Obj? && |j.value.members| == |ks|
            && forall x :: 0 <= x < |ks| ==>
                 ks[x] < |fds|
                 && Unquote(j.value.members[x].key) == Some(if o.origName then fds[ks[x]].name else fds[ks[x]].jsonName)
  {
    hide Good, Marshal, Read, DepictsField, ShownFrom, Unquote;
    MarshalDepicts(sc, o, name, v);
  }
}
