/** Where the white space of indented output stands (`Common/jsonpb/encode.go`). */
module Indentation {
  import opened Decimal
  import opened Encode
  import opened JsonReader
  import opened JsonText
  import opened MapOrder
  import opened ProtoSchema
  import opened Results
  import opened WellFormed

  function Steps(step: string, m: nat): string {
    if m == 0 then "" else step + Steps(step, m - 1)
  }

  /** `j` stands on a line indented by `line`. Its parts stand on lines of their own, one step deeper than
      the line its closing bracket is on; that one is as deep as the first line, or deeper when the layout is
      not regular. A message without fields has an empty line. A space follows the colons. */
  ghost predicate LaidOut(j: Json, line: string, step: string, regular: bool)
    decreases j
  {
    match j
    case Atom(_) => true
    case Str(_) => true
    case Arr(_, _) => exists m: nat :: LaidOutAt(j, line + Steps(step, m), step, regular) && (regular ==> m == 0)
    case Obj(_, _) => exists m: nat :: LaidOutAt(j, line + Steps(step, m), step, regular) && (regular ==> m == 0)
  }

  /** The closing bracket stands on a line indented by `last`. */
  ghost predicate LaidOutAt(j: Json, last: string, step: string, regular: bool)
    decreases j, 0
  {
    match j
    case Atom(_) => false
    case Str(_) => false
    case Arr(items, close) =>
      && close == "\n" + last
      && forall i :: 0 <= i < |items| ==>
           items[i].before == "\n" + (last + step) && LaidOut(items[i].value, last + step, step, regular)
    case Obj(members, close) =>
      && (close == "\n" + last || (members == [] && close == "\n\n" + last))
      && forall i :: 0 <= i < |members| ==>
           && members[i].before == "\n" + (last + step) && members[i].after == " "
           && LaidOut(members[i].value, last + step, step, regular)
  }

  const DYNAMIC := {VALUE, STRUCT, LIST_VALUE}

  /** No field of any message type is of a dynamic type: there the layout is regular. */
  ghost predicate Plain(sc: Schema) {
    forall name :: name in sc.messages ==> PlainFields(sc.messages[name])
  }

  predicate PlainFields(fds: seq<Field>) {
    forall k :: 0 <= k < |fds| ==> PlainKind(fds[k].kind)
  }

  predicate PlainKind(kind: Kind) {
    kind.MessageKind? ==> kind.message !in DYNAMIC
  }

  ghost predicate Ready(sc: Schema, o: Options, regular: bool) {
    o.indent != "" && (regular ==> Plain(sc))
  }

  // ----- putting a layout together -----

  lemma ScalarLaidOut(sc: Schema, o: Options, kind: Kind, v: Value)
    ensures var r := ScalarJson(sc, o, kind, v);
            r.Ok? ==> forall line, step, regular :: LaidOut(r.value, line, step, regular)
  {
    hide Itoa, Quote;
  }

  lemma AtLine(j: Json, line: string, step: string, regular: bool)
    requires LaidOutAt(j, line, step, regular)
    ensures LaidOut(j, line, step, regular)
  {
    hide LaidOutAt;
    assert line + Steps(step, 0) == line;
  }

  /** One step further in than it has to be: no longer regular. */
  lemma Deeper(j: Json, line: string, step: string)
    requires LaidOut(j, line + step, step, false)
    ensures LaidOut(j, line, step, false)
  {
    hide LaidOutAt;
    if j.Arr? || j.Obj? {
      var m: nat :| LaidOutAt(j, line + step + Steps(step, m), step, false);
      assert line + step + Steps(step, m) == line + Steps(step, m + 1);
    }
  }

  /** The members of an object, as far as they have come. */
  ghost predicate MembersLaidOut(members: seq<Member>, line: string, step: string, regular: bool) {
    forall i :: 0 <= i < |members| ==>
      && members[i].before == "\n" + line && members[i].after == " "
      && LaidOut(members[i].value, line, step, regular)
  }

  lemma MembersCons(m: Member, more: seq<Member>, line: string, step: string, regular: bool)
    requires MembersLaidOut([m], line, step, regular) && MembersLaidOut(more, line, step, regular)
    ensures MembersLaidOut([m] + more, line, step, regular)
  {
    hide LaidOut;
    assert [m][0] == m;
  }

  ghost predicate ItemsLaidOut(items: seq<Item>, line: string, step: string, regular: bool) {
    forall i :: 0 <= i < |items| ==> items[i].before == "\n" + line && LaidOut(items[i].value, line, step, regular)
  }

  // ----- the induction -----

  /** A message written on a line indented by `line` is laid out from there. */
  lemma {:induction false} MessageLaidOut(sc: Schema, o: Options, name: string, v: Value, line: string, regular: bool)
    requires Ready(sc, o, regular) && (regular ==> name !in DYNAMIC)
    ensures var r := MessageJson(sc, o, name, v, line); r.Ok? ==> LaidOut(r.value, line, o.indent, regular)
    decreases v, 4
  {
    hide FieldJson, MembersJson, SingularJson, ScalarJson, LaidOut, WriterIndexes, DurationJson;
    var fds := FieldsOf(sc, name);
    if v.MsgV? && fds.Some? && |fds.value| == |v.slots| && MessageJson(sc, o, name, v, line).Ok? {
      match WellKnownOf(name)
      case Ordinary =>
        var ks := WriterIndexes(fds.value, v.slots, o.emitDefaults, 0);
        MembersLaidOutBy(sc, o, fds.value, v, ks, line, regular);
        ObjectLaidOut(o, MembersJson(sc, o, fds.value, v, ks, line).value, line, regular);
      case Wrapper(kind) => ScalarLaidOut(sc, o, kind, if v.slots[0].Some? then v.slots[0].value else ZeroOf(kind));
      case DurationType => DurationLaidOut(v.slots[0], v.slots[1]);
      case ValueType => ValueLaidOut(sc, o, v, line);
      case StructType =>
        FieldLaidOut(sc, o, STRUCT_FIELDS[0], v.slots[0], line, false);
        Deeper(FieldJson(sc, o, STRUCT_FIELDS[0], v.slots[0], line).value, line, o.indent);
      case ListValueType =>
        FieldLaidOut(sc, o, LIST_VALUE_FIELDS[0], v.slots[0], line, false);
        Deeper(FieldJson(sc, o, LIST_VALUE_FIELDS[0], v.slots[0], line).value, line, o.indent);
      case NotModelled =>
    }
  }

  lemma DurationLaidOut(seconds: Option<Value>, nanos: Option<Value>)
    ensures var r := DurationJson(seconds, nanos);
            r.Ok? ==> forall line, step, regular :: LaidOut(r.value, line, step, regular)
  {}

  lemma ObjectLaidOut(o: Options, members: seq<Member>, line: string, regular: bool)
    requires o.indent != "" && MembersLaidOut(members, line + o.indent, o.indent, regular)
    ensures LaidOut(Obj(members, (if members == [] then NewLine(o, "") else "") + NewLine(o, line)), line, o.indent, regular)
  {
    hide LaidOut, Steps;
    var close := (if members == [] then NewLine(o, "") else "") + NewLine(o, line);
    assert close == if members == [] then "\n\n" + line else "\n" + line;
    AtLine(Obj(members, close), line, o.indent, regular);
  }

  lemma {:induction false} ValueLaidOut(sc: Schema, o: Options, v: Value, line: string)
    requires o.indent != "" && v.MsgV? && |v.slots| == 6
    ensures var r := MessageJson(sc, o, VALUE, v, line); r.Ok? ==> LaidOut(r.value, line, o.indent, false)
    decreases v, 3
  {
    hide LaidOut, ScalarJson;
    var w := WhichOneof(VALUE_FIELDS, v.slots, 0, 0);
    if w.Some? {
      var x := v.slots[w.value].value;
      if w.value < 4 {
        ScalarLaidOut(sc, o, VALUE_FIELDS[w.value].kind, x);
      } else {
        var name := VALUE_FIELDS[w.value].kind.message;
        MessageLaidOut(sc, o, name, x, line + o.indent, false);
        if MessageJson(sc, o, name, x, line + o.indent).Ok? {
          Deeper(MessageJson(sc, o, name, x, line + o.indent).value, line, o.indent);
        }
      }
    }
  }

  lemma FieldsPlain(sc: Schema, name: string)
    requires Plain(sc) && WellKnownOf(name) == Ordinary && FieldsOf(sc, name).Some?
    ensures PlainFields(FieldsOf(sc, name).value)
  {}

  lemma {:induction false} MembersLaidOutBy(sc: Schema, o: Options, fds: seq<Field>, v: Value, ks: seq<nat>, line: string,
                                            regular: bool)
    requires Ready(sc, o, regular) && (regular ==> PlainFields(fds))
    requires v.MsgV? && |v.slots| == |fds| && forall x :: 0 <= x < |ks| ==> ks[x] < |fds|
    ensures var r := MembersJson(sc, o, fds, v, ks, line);
            r.Ok? ==> MembersLaidOut(r.value, line + o.indent, o.indent, regular)
    decreases v, 3, |ks|
  {
    hide FieldJson, LaidOut;
    if ks != [] && MembersJson(sc, o, fds, v, ks, line).Ok? {
      FieldLaidOut(sc, o, fds[ks[0]], v.slots[ks[0]], line, regular);
      MembersLaidOutBy(sc, o, fds, v, ks[1..], line, regular);
      var m := MemberJson(sc, o, fds, v, ks[0], line).value;
      MembersCons(m, MembersJson(sc, o, fds, v, ks[1..], line).value, line + o.indent, o.indent, regular);
    }
  }

  /** A field's value stands on the field's line, which is one step deeper than the message. */
  lemma {:induction false} FieldLaidOut(sc: Schema, o: Options, fd: Field, slot: Option<Value>, indent: string,
                                        regular: bool)
    requires Ready(sc, o, regular) && (regular ==> PlainKind(fd.kind))
    ensures var r := FieldJson(sc, o, fd, slot, indent); r.Ok? ==> LaidOut(r.value, indent + o.indent, o.indent, regular)
    decreases slot, 6
  {
    hide LaidOut, ScalarJson, SingularJson, ItemsJson, EntriesJson;
    var line, r := indent + o.indent, FieldJson(sc, o, fd, slot, indent);
    if r.Ok? {
      match fd.card
      case Singular =>
        if slot.Some? {
          SingularLaidOut(sc, o, fd.kind, slot.value, indent, regular);
        } else if fd.kind.MessageKind? {
          AtomLaidOut(line, o.indent, regular);
        } else {
          ScalarLaidOut(sc, o, fd.kind, ZeroOf(fd.kind));
        }
      case Repeated =>
        if slot.Some? {
          ItemsLaidOutBy(sc, o, fd.kind, slot.value.elems, indent, regular);
        }
        AtLine(r.value, line, o.indent, regular);
      case MapWith(_) =>
        if slot.Some? {
          EntriesLaidOut(sc, o, fd.kind, slot.value, SortedKeys(slot.value.entries.Keys), indent, regular);
        }
        AtLine(r.value, line, o.indent, regular);
    }
  }

  lemma AtomLaidOut(line: string, step: string, regular: bool)
    ensures LaidOut(Atom("null"), line, step, regular)
  {}

  lemma {:induction false} SingularLaidOut(sc: Schema, o: Options, kind: Kind, v: Value, indent: string, regular: bool)
    requires Ready(sc, o, regular) && (regular ==> PlainKind(kind))
    ensures var r := SingularJson(sc, o, kind, v, indent); r.Ok? ==> LaidOut(r.value, indent + o.indent, o.indent, regular)
    decreases v, 5
  {
    hide LaidOut, ScalarJson, MessageJson;
    if kind.MessageKind? {
      MessageLaidOut(sc, o, kind.message, v, indent + o.indent, regular);
    } else {
      ScalarLaidOut(sc, o, kind, v);
    }
  }

  lemma {:induction false} ItemsLaidOutBy(sc: Schema, o: Options, kind: Kind, elems: seq<Value>, indent: string,
                                          regular: bool)
    requires Ready(sc, o, regular) && (regular ==> PlainKind(kind))
    ensures var r := ItemsJson(sc, o, kind, elems, indent);
            r.Ok? ==> ItemsLaidOut(r.value, indent + o.indent + o.indent, o.indent, regular)
    decreases elems, 0
  {
    hide LaidOut, SingularJson;
    if elems != [] && ItemsJson(sc, o, kind, elems, indent).Ok? {
      SingularLaidOut(sc, o, kind, elems[0], indent + o.indent, regular);
      ItemsLaidOutBy(sc, o, kind, elems[1..], indent, regular);
      var items := ItemsJson(sc, o, kind, elems, indent).value;
      assert items[1..] == ItemsJson(sc, o, kind, elems[1..], indent).value;
      assert forall i :: 1 <= i < |items| ==> items[i] == items[1..][i - 1];
    }
  }

  lemma {:induction false} EntriesLaidOut(sc: Schema, o: Options, kind: Kind, v: Value, ks: seq<MapKey>, indent: string,
                                          regular: bool)
    requires Ready(sc, o, regular) && (regular ==> PlainKind(kind)) && v.MapV? && forall k :: k in ks ==> k in v.entries
    ensures var r := EntriesJson(sc, o, kind, v, ks, indent);
            r.Ok? ==> MembersLaidOut(r.value, indent + o.indent + o.indent, o.indent, regular)
    decreases v, 0, |ks|
  {
    hide LaidOut, SingularJson, Quote;
    if ks != [] && EntriesJson(sc, o, kind, v, ks, indent).Ok? {
      assert ks[0] in ks && forall k :: k in ks[1..] ==> k in ks;
      SingularLaidOut(sc, o, kind, v.entries[ks[0]], indent + o.indent, regular);
      EntriesLaidOut(sc, o, kind, v, ks[1..], indent, regular);
      var members := EntriesJson(sc, o, kind, v, ks, indent).value;
      var more := EntriesJson(sc, o, kind, v, ks[1..], indent).value;
      assert members == [members[0]] + more;
      MembersCons(members[0], more, indent + o.indent + o.indent, o.indent, regular);
    }
  }

  /** Indented output is the text of a JSON value that is laid out, and regularly so unless a dynamic type
      is involved. */
  lemma MarshalLaidOut(sc: Schema, o: Options, name: string, v: Value)
    requires o.indent != "" && AllSpace(o.indent) && PlainNames(sc) && NumbersValid(v) && Marshal(sc, o, name, v).Ok?
    ensures exists j :: Well(j) && Marshal(sc, o, name, v).value == Text(j)
                        && LaidOut(j, "", o.indent, Plain(sc) && name !in DYNAMIC)
  {
    hide MessageJson, LaidOut, Text, Plain, Well, PlainNames, NumbersValid;
    MessageWell(sc, o, name, v, "");
    MessageLaidOut(sc, o, name, v, "", Plain(sc) && name !in DYNAMIC);
  }
}
