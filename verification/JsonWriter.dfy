/** The writer object that marshals a message into its buffer (`Common/jsonpb/encode.go`). */
module JsonWriter {
  import opened Encode
  import opened JsonReader
  import opened JsonText
  import opened MapOrder
  import Ordered
  import opened ProtoSchema
  import opened Results

  function ErrorOf<T>(r: Result<T, EncodeError>): Option<EncodeError> {
    if r.Err? then Some(r.error) else None
  }

  lemma {:induction false} MembersTextSnoc(members: seq<Member>, m: Member, first: bool)
    ensures MembersText(members + [m], first) ==
            MembersText(members, first) + (Separator(first && members == []) + MemberText(m))
  {
    hide MemberText;
    if members == [] {
      assert MembersText([m][1..], false) == "";
      assert members + [m] == [m];
    } else {
      MembersTextSnoc(members[1..], m, false);
      assert (members + [m])[1..] == members[1..] + [m];
      assert MembersText(members + [m], first) ==
             Separator(first) + MemberText(members[0]) + MembersText(members[1..] + [m], false);
    }
  }

  lemma {:induction false} ItemsTextSnoc(items: seq<Item>, item: Item, first: bool)
    ensures ItemsText(items + [item], first) ==
            ItemsText(items, first) + (Separator(first && items == []) + item.before + Text(item.value))
  {
    hide Text;
    if items == [] {
      assert ItemsText([item][1..], false) == "";
      assert items + [item] == [item];
    } else {
      ItemsTextSnoc(items[1..], item, false);
      assert (items + [item])[1..] == items[1..] + [item];
      assert ItemsText(items + [item], first) ==
             Separator(first) + items[0].before + Text(items[0].value) + ItemsText(items[1..] + [item], false);
    }
  }

  /** Results of two runs of parts, one after the other. */
  ghost function Both<T>(a: Result<seq<T>, EncodeError>, b: Result<seq<T>, EncodeError>): Result<seq<T>, EncodeError> {
    if a.Err? then a else if b.Err? then b else Ok(a.value + b.value)
  }

  /** The result of one part, in front of the result of the others. */
  ghost function Front<T>(m: Result<T, EncodeError>, a: Result<seq<T>, EncodeError>): Result<seq<T>, EncodeError> {
    if m.Err? then Err(m.error) else if a.Err? then a else Ok([m.value] + a.value)
  }

  lemma FrontBoth<T>(m: Result<T, EncodeError>, a: Result<seq<T>, EncodeError>, b: Result<seq<T>, EncodeError>)
    ensures Both(Front(m, a), b) == Front(m, Both(a, b))
    ensures Both(Ok([]), b) == b
  {
    assert b.Ok? ==> [] + b.value == b.value;
    if m.Ok? && a.Ok? && b.Ok? {
      assert [m.value] + a.value + b.value == [m.value] + (a.value + b.value);
    }
  }

  lemma MembersJsonUnfolds(sc: Schema, o: Options, fds: seq<Field>, v: Value, ks: seq<nat>, indent: string)
    requires v.MsgV? && |v.slots| == |fds| && forall x :: 0 <= x < |ks| ==> ks[x] < |fds|
    ensures MembersJson(sc, o, fds, v, ks, indent) ==
            if ks == [] then Ok([])
            else Front(MemberJson(sc, o, fds, v, ks[0], indent), MembersJson(sc, o, fds, v, ks[1..], indent))
  {
    hide MemberJson;
  }

  lemma {:induction false} MembersJsonConcat(sc: Schema, o: Options, fds: seq<Field>, v: Value, ks: seq<nat>, ls: seq<nat>,
                                             indent: string)
    requires v.MsgV? && |v.slots| == |fds|
    requires (forall x :: 0 <= x < |ks| ==> ks[x] < |fds|) && forall x :: 0 <= x < |ls| ==> ls[x] < |fds|
    ensures MembersJson(sc, o, fds, v, ks + ls, indent) ==
            Both(MembersJson(sc, o, fds, v, ks, indent), MembersJson(sc, o, fds, v, ls, indent))
  {
    hide MemberJson, MembersJson, Both, Front;
    var b := MembersJson(sc, o, fds, v, ls, indent);
    MembersJsonUnfolds(sc, o, fds, v, ks, indent);
    if ks == [] {
      assert ks + ls == ls;
      FrontBoth(Err(NilValue), Ok([]), b);
    } else {
      MembersJsonConcat(sc, o, fds, v, ks[1..], ls, indent);
      MembersJsonUnfolds(sc, o, fds, v, ks + ls, indent);
      assert (ks + ls)[1..] == ks[1..] + ls;
      FrontBoth(MemberJson(sc, o, fds, v, ks[0], indent), MembersJson(sc, o, fds, v, ks[1..], indent), b);
    }
  }

  /** An element as an item. */
  ghost function ItemJson(sc: Schema, o: Options, kind: Kind, v: Value, indent: string): Result<Item, EncodeError> {
    var r := SingularJson(sc, o, kind, v, indent + o.indent);
    if r.Err? then Err(r.error) else Ok(Item(NewLine(o, indent + o.indent + o.indent), r.value))
  }

  lemma ItemsJsonUnfolds(sc: Schema, o: Options, kind: Kind, es: seq<Value>, indent: string)
    ensures ItemsJson(sc, o, kind, es, indent) ==
            if es == [] then Ok([])
            else Front(ItemJson(sc, o, kind, es[0], indent), ItemsJson(sc, o, kind, es[1..], indent))
  {
    hide SingularJson;
  }

  lemma {:induction false} ItemsJsonConcat(sc: Schema, o: Options, kind: Kind, es: seq<Value>, fs: seq<Value>, indent: string)
    ensures ItemsJson(sc, o, kind, es + fs, indent) ==
            Both(ItemsJson(sc, o, kind, es, indent), ItemsJson(sc, o, kind, fs, indent))
  {
    hide ItemJson, ItemsJson, Both, Front;
    var b := ItemsJson(sc, o, kind, fs, indent);
    ItemsJsonUnfolds(sc, o, kind, es, indent);
    if es == [] {
      assert es + fs == fs;
      FrontBoth(Err(NilValue), Ok([]), b);
    } else {
      ItemsJsonConcat(sc, o, kind, es[1..], fs, indent);
      ItemsJsonUnfolds(sc, o, kind, es + fs, indent);
      assert (es + fs)[1..] == es[1..] + fs;
      FrontBoth(ItemJson(sc, o, kind, es[0], indent), ItemsJson(sc, o, kind, es[1..], indent), b);
    }
  }

  /** A map entry as a member. */
  ghost function EntryJson(sc: Schema, o: Options, kind: Kind, v: Value, k: MapKey, indent: string)
    : Result<Member, EncodeError>
    requires v.MapV? && k in v.entries
  {
    var r := SingularJson(sc, o, kind, v.entries[k], indent + o.indent);
    if r.Err? then Err(r.error)
    else Ok(Member(NewLine(o, indent + o.indent + o.indent), Quote(KeyText(k)), AfterColon(o), r.value))
  }

  lemma EntriesJsonUnfolds(sc: Schema, o: Options, kind: Kind, v: Value, ks: seq<MapKey>, indent: string)
    requires v.MapV? && forall k :: k in ks ==> k in v.entries
    ensures EntriesJson(sc, o, kind, v, ks, indent) ==
            if ks == [] then Ok([])
            else
              assert ks[0] in ks;
              Front(EntryJson(sc, o, kind, v, ks[0], indent), EntriesJson(sc, o, kind, v, ks[1..], indent))
  {
    hide SingularJson, Quote, KeyText, NewLine, AfterColon;
  }

  lemma {:induction false} EntriesJsonConcat(sc: Schema, o: Options, kind: Kind, v: Value, ks: seq<MapKey>, ls: seq<MapKey>,
                                             indent: string)
    requires v.MapV? && (forall k :: k in ks ==> k in v.entries) && forall k :: k in ls ==> k in v.entries
    ensures EntriesJson(sc, o, kind, v, ks + ls, indent) ==
            Both(EntriesJson(sc, o, kind, v, ks, indent), EntriesJson(sc, o, kind, v, ls, indent))
  {
    hide EntryJson, EntriesJson, Both, Front;
    var b := EntriesJson(sc, o, kind, v, ls, indent);
    EntriesJsonUnfolds(sc, o, kind, v, ks, indent);
    if ks == [] {
      assert ks + ls == ls;
      FrontBoth(Err(NilValue), Ok([]), b);
    } else {
      EntriesJsonConcat(sc, o, kind, v, ks[1..], ls, indent);
      assert ks[0] in ks;
      EntriesJsonUnfolds(sc, o, kind, v, ks + ls, indent);
      assert (ks + ls)[1..] == ks[1..] + ls && (ks + ls)[0] == ks[0];
      FrontBoth(EntryJson(sc, o, kind, v, ks[0], indent), EntriesJson(sc, o, kind, v, ks[1..], indent), b);
    }
  }

  lemma Append(base: string, a: string, b: string, c: string, d: string)
    ensures base + a + b + c + d == base + (a + b + c + d)
    ensures base + a + b + c + d == base + (a + (b + c + d))
  {}

  lemma Regrouped(base: string, a: string, b: string, c: string)
    ensures base + a + b + c == base + (a + (b + c))
  {}

  class Writer {
    const sc: Schema
    const o: Options
    var buf: string

    constructor (sc: Schema, o: Options)
      ensures this.sc == sc && this.o == o && buf == ""
    {
      this.sc, this.o, buf := sc, o, "";
    }

    method Write(s: string)
      modifies this`buf
      ensures buf == old(buf) + s
    {
      buf := buf + s;
    }

    method WriteComma()
      modifies this`buf
      ensures buf == old(buf) + "," + NewLine(o, "")
    {
      if o.indent != "" {
        Write(",\n");
      } else {
        Write(",");
      }
    }

    /** Starts a line, unless the output is compact. */
    method WriteNewLine(indent: string)
      modifies this`buf
      ensures buf == old(buf) + NewLine(o, indent)
    {
      if o.indent != "" {
        Write("\n");
        Write(indent);
      }
    }

    /** Appends the text of the message; on an error what has been appended is of no use. */
    method MarshalMessage(name: string, v: Value, indent: string) returns (err: Option<EncodeError>)
      modifies this`buf
      ensures err == ErrorOf(MessageJson(sc, o, name, v, indent))
      ensures err.None? ==> buf == old(buf) + Text(MessageJson(sc, o, name, v, indent).value)
      decreases v, 5, 0
    {
      hide MembersJson, FieldJson, SingularJson, ScalarJson, DurationJson, WriterIndexes;
      var fds := FieldsOf(sc, name);
      if !v.MsgV? || fds.None? || |fds.value| != |v.slots| {
        return Some(IllTyped);
      }
      match WellKnownOf(name)
      case Wrapper(kind) =>
        err := MarshalScalar(kind, if v.slots[0].Some? then v.slots[0].value else ZeroOf(kind));
      case DurationType =>
        var text := DurationJson(v.slots[0], v.slots[1]);
        if text.Err? {
          return Some(text.error);
        }
        Write(Text(text.value));
        err := None;
      case ValueType =>
        var w := WhichOneof(VALUE_FIELDS, v.slots, 0, 0);
        if w.None? {
          return Some(NilValue);
        }
        err := MarshalSingularValue(VALUE_FIELDS[w.value].kind, v.slots[w.value].value, indent);
      case StructType =>
        err := MarshalValue(STRUCT_FIELDS[0], v.slots[0], indent);
      case ListValueType =>
        err := MarshalValue(LIST_VALUE_FIELDS[0], v.slots[0], indent);
      case Ordinary =>
        err := MarshalFields(fds.value, v, indent);
      case NotModelled =>
        err := Some(IllTyped);
    }

    /** Where the field loop is at `i`: `done` are the members of the fields `ks`, and the fields still
        to come are those the loop emits from `i` on. */
    ghost predicate LoopAt(fds: seq<Field>, v: Value, indent: string, i: nat, ks: seq<nat>, done: seq<Member>)
      requires v.MsgV? && |v.slots| == |fds|
    {
      && (forall x :: 0 <= x < |ks| ==> ks[x] < |fds|)
      && WriterIndexes(fds, v.slots, o.emitDefaults, 0) == ks + WriterIndexes(fds, v.slots, o.emitDefaults, i)
      && MembersJson(sc, o, fds, v, ks, indent) == Ok(done)
    }

    /** The field a turn of the loop looks at, and where the next turn is. */
    function Looked(fds: seq<Field>, slots: seq<Option<Value>>, i: nat): (r: (Option<nat>, nat))
      requires |slots| == |fds| && i < |fds|
      ensures i < r.1 && (r.0.Some? ==> r.0.value < |fds|)
    {
      if fds[i].oneof.Some? then
        (WhichOneof(fds, slots, fds[i].oneof.value, 0), i + OneofSize(fds, fds[i].oneof.value, 0))
      else (Some(i), i + 1)
    }

    predicate Emitted(fds: seq<Field>, slots: seq<Option<Value>>, w: Option<nat>)
      requires |slots| == |fds| && (w.Some? ==> w.value < |fds|)
    {
      w.Some? && (slots[w.value].Some? || (o.emitDefaults && fds[w.value].oneof.None?))
    }

    lemma LoopStarts(fds: seq<Field>, v: Value, indent: string)
      requires v.MsgV? && |v.slots| == |fds|
      ensures LoopAt(fds, v, indent, 0, [], [])
    {
      hide MembersJson, WriterIndexes;
      NoMembers(fds, v, indent);
      var all := WriterIndexes(fds, v.slots, o.emitDefaults, 0);
      assert [] + all == all;
    }

    lemma LoopEnds(fds: seq<Field>, v: Value, indent: string, i: nat, ks: seq<nat>, done: seq<Member>)
      requires v.MsgV? && |v.slots| == |fds| <= i && LoopAt(fds, v, indent, i, ks, done)
      ensures MembersJson(sc, o, fds, v, WriterIndexes(fds, v.slots, o.emitDefaults, 0), indent) == Ok(done)
    {
      hide MembersJson, WriterIndexes;
      NoneLeft(fds, v.slots, i);
      assert ks + [] == ks;
    }

    lemma LoopSkips(fds: seq<Field>, v: Value, indent: string, i: nat, ks: seq<nat>, done: seq<Member>)
      requires v.MsgV? && |v.slots| == |fds| && i < |fds| && LoopAt(fds, v, indent, i, ks, done)
      requires !Emitted(fds, v.slots, Looked(fds, v.slots, i).0)
      ensures LoopAt(fds, v, indent, Looked(fds, v.slots, i).1, ks, done)
    {
      hide MembersJson, WriterIndexes, Looked, Emitted;
      LoopStep(fds, v.slots, i);
      var rest := WriterIndexes(fds, v.slots, o.emitDefaults, Looked(fds, v.slots, i).1);
      assert [] + rest == rest;
    }

    lemma LoopEmits(fds: seq<Field>, v: Value, indent: string, i: nat, ks: seq<nat>, done: seq<Member>)
      requires v.MsgV? && |v.slots| == |fds| && i < |fds| && LoopAt(fds, v, indent, i, ks, done)
      requires Emitted(fds, v.slots, Looked(fds, v.slots, i).0)
      ensures var k, next := Looked(fds, v.slots, i).0.value, Looked(fds, v.slots, i).1;
              var r := FieldJson(sc, o, fds[k], v.slots[k], indent);
              if r.Ok? then
                var m := Member(NewLine(o, indent + o.indent), FieldName(o, fds[k]), AfterColon(o), r.value);
                LoopAt(fds, v, indent, next, ks + [k], done + [m])
              else MembersJson(sc, o, fds, v, WriterIndexes(fds, v.slots, o.emitDefaults, 0), indent) == Err(r.error)
    {
      hide MembersJson, MemberJson, FieldJson, WriterIndexes, Looked, NewLine, FieldName, AfterColon;
      LoopStep(fds, v.slots, i);
      var k, next := Looked(fds, v.slots, i).0.value, Looked(fds, v.slots, i).1;
      hide Emitted;
      MemberStep(fds, v, ks, k, WriterIndexes(fds, v.slots, o.emitDefaults, next), indent);
    }

    /** The braces of an ordinary message and the field loop between them. */
    method MarshalFields(fds: seq<Field>, v: Value, indent: string) returns (err: Option<EncodeError>)
      requires v.MsgV? && |v.slots| == |fds|
      modifies this`buf
      ensures var r := MembersJson(sc, o, fds, v, WriterIndexes(fds, v.slots, o.emitDefaults, 0), indent);
              && err == ErrorOf(r)
              && (r.Ok? ==>
                    buf == old(buf) + Text(Obj(r.value, (if r.value == [] then NewLine(o, "") else "") + NewLine(o, indent))))
      decreases v, 4, 0
    {
      hide LoopAt, MembersJson, FieldJson, MembersText, NewLine, WriterIndexes, Text, Opened, FieldName, AfterColon;
      Write("{");
      WriteNewLine("");
      OpenedEmpty(old(buf));
      LoopStarts(fds, v, indent);
      ghost var ks: seq<nat>, done: seq<Member> := [], [];
      var firstField := true;
      var i := 0;
      while i < |fds|
        invariant LoopAt(fds, v, indent, i, ks, done)
        invariant (firstField <==> done == []) && buf == Opened(old(buf), done)
        decreases |fds| - i
      {
        ghost var at := i;
        var k := i;
        if fds[i].oneof.Some? {
          var w := WhichOneof(fds, v.slots, fds[i].oneof.value, 0);
          i := i + OneofSize(fds, fds[i].oneof.value, 0);
          if w.None? {
            LoopSkips(fds, v, indent, at, ks, done);
            continue;
          }
          k := w.value;
        } else {
          i := i + 1;
        }
        if v.slots[k].None? {
          if !o.emitDefaults || fds[k].oneof.Some? {
            LoopSkips(fds, v, indent, at, ks, done);
            continue;
          }
        }
        LoopEmits(fds, v, indent, at, ks, done);
        err := EmitMember(fds[k], v.slots[k], indent, firstField, old(buf), done);
        if err.Some? {
          return;
        }
        ghost var value := FieldJson(sc, o, fds[k], v.slots[k], indent).value;
        done := done + [Member(NewLine(o, indent + o.indent), FieldName(o, fds[k]), AfterColon(o), value)];
        ks := ks + [k];
        firstField := false;
      }
      LoopEnds(fds, v, indent, i, ks, done);
      WriteNewLine(indent);
      Write("}");
      CloseObject(old(buf), done, indent);
      return None;
    }

    /** The buffer once `done` have been written behind the opening brace. */
    ghost function Opened(base: string, done: seq<Member>): string {
      base + "{" + if done == [] then NewLine(o, "") else MembersText(done, true)
    }

    lemma OpenedEmpty(base: string)
      ensures Opened(base, []) == base + "{" + NewLine(o, "")
    {}

    /** The comma, if one is due, and the field. */
    method EmitMember(fd: Field, slot: Option<Value>, indent: string, first: bool, ghost base: string,
                      ghost done: seq<Member>)
      returns (err: Option<EncodeError>)
      requires buf == Opened(base, done) && (first <==> done == [])
      modifies this`buf
      ensures var r := FieldJson(sc, o, fd, slot, indent);
              && err == ErrorOf(r)
              && (r.Ok? ==>
                    var m := Member(NewLine(o, indent + o.indent), FieldName(o, fd), AfterColon(o), r.value);
                    buf == Opened(base, done + [m]))
      decreases slot, 9, 0
    {
      hide FieldJson, MembersText, MemberText, NewLine, FieldText, FieldName, AfterColon, Opened;
      if !first {
        WriteComma();
      }
      err := MarshalField(fd, slot, indent);
      if err.None? {
        ghost var value := FieldJson(sc, o, fd, slot, indent).value;
        ghost var m := Member(NewLine(o, indent + o.indent), FieldName(o, fd), AfterColon(o), value);
        NewLineFirst(m, fd, value, indent);
        assert old(buf) + "," + NewLine(o, "") == old(buf) + ("," + NewLine(o, ""));
        assert old(buf) + "" == old(buf);
        AppendMember(base, done, m, FieldText(fd, value, indent));
      }
    }

    /** What the next turn of the loop will emit. */
    lemma LoopStep(fds: seq<Field>, slots: seq<Option<Value>>, i: nat)
      requires |slots| == |fds| && i < |fds|
      ensures var (w, next) := Looked(fds, slots, i);
              WriterIndexes(fds, slots, o.emitDefaults, i) ==
              (if Emitted(fds, slots, w) then [w.value] else []) + WriterIndexes(fds, slots, o.emitDefaults, next)
    {}

    lemma NoneLeft(fds: seq<Field>, slots: seq<Option<Value>>, i: nat)
      requires |slots| == |fds| <= i
      ensures WriterIndexes(fds, slots, o.emitDefaults, i) == []
    {}

    lemma MemberStep(fds: seq<Field>, v: Value, ks: seq<nat>, k: nat, rest: seq<nat>, indent: string)
      requires v.MsgV? && k < |v.slots| == |fds|
      requires (forall x :: 0 <= x < |ks| ==> ks[x] < |fds|) && forall x :: 0 <= x < |rest| ==> rest[x] < |fds|
      ensures ks + ([k] + rest) == (ks + [k]) + rest
      ensures var done, r := MembersJson(sc, o, fds, v, ks, indent), FieldJson(sc, o, fds[k], v.slots[k], indent);
              var m := MemberJson(sc, o, fds, v, k, indent);
              && (done.Ok? && r.Ok? ==>
                    m == Ok(Member(NewLine(o, indent + o.indent), FieldName(o, fds[k]), AfterColon(o), r.value))
                    && MembersJson(sc, o, fds, v, ks + [k], indent) == Ok(done.value + [m.value]))
              && (done.Ok? && r.Err? ==> MembersJson(sc, o, fds, v, (ks + [k]) + rest, indent) == Err(r.error))
    {
      hide MembersJson, MemberJson, FieldJson, NewLine, FieldText, MemberText;
      MembersJsonConcat(sc, o, fds, v, ks, [k], indent);
      MembersJsonConcat(sc, o, fds, v, ks + [k], rest, indent);
      OneMember(fds, v, k, indent);
    }

    lemma AppendMember(base: string, done: seq<Member>, m: Member, line: string)
      requires MemberText(m) == NewLine(o, "") + line
      ensures Opened(base, done + [m]) ==
              Opened(base, done) + (if done == [] then "" else "," + NewLine(o, "")) + line
    {
      hide MemberText, MembersText, NewLine;
      MembersTextSnoc(done, m, true);
      var nl := NewLine(o, "");
      if done == [] {
        EmptyText();
        assert "" + ("" + (nl + line)) == nl + line;
        assert base + "{" + nl + "" + line == base + "{" + (nl + line);
      } else {
        assert base + "{" + MembersText(done, true) + ("," + nl) + line ==
               base + "{" + (MembersText(done, true) + ("," + (nl + line)));
      }
    }

    lemma CloseObject(base: string, done: seq<Member>, indent: string)
      ensures Opened(base, done) + NewLine(o, indent) + "}" ==
              base + Text(Obj(done, (if done == [] then NewLine(o, "") else "") + NewLine(o, indent)))
    {
      hide MembersText, NewLine;
      if done == [] {
        assert MembersText(done, true) == "" by { EmptyText(); }
        Append(base, "{", "", NewLine(o, "") + NewLine(o, indent), "}");
        Append(base, "{", NewLine(o, ""), NewLine(o, indent), "}");
        assert "{" + "" + (NewLine(o, "") + NewLine(o, indent)) + "}" == "{" + NewLine(o, "") + NewLine(o, indent) + "}";
      } else {
        assert "" + NewLine(o, indent) == NewLine(o, indent);
        Append(base, "{", MembersText(done, true), NewLine(o, indent), "}");
      }
    }

    lemma EmptyText()
      ensures MembersText([], true) == ""
    {}

    lemma NoMembers(fds: seq<Field>, v: Value, indent: string)
      requires v.MsgV? && |v.slots| == |fds|
      ensures MembersJson(sc, o, fds, v, [], indent) == Ok([]) && MembersText([], true) == ""
    {}

    lemma OneMember(fds: seq<Field>, v: Value, k: nat, indent: string)
      requires v.MsgV? && k < |v.slots| == |fds|
      ensures var m := MemberJson(sc, o, fds, v, k, indent);
              && MembersJson(sc, o, fds, v, [k], indent) == (if m.Ok? then Ok([m.value]) else Err(m.error))
              && var r := FieldJson(sc, o, fds[k], v.slots[k], indent);
              && m == if r.Err? then Err(r.error)
                      else Ok(Member(NewLine(o, indent + o.indent), FieldName(o, fds[k]), AfterColon(o), r.value))
    {
      hide FieldJson;
      assert [k][1..] == [];
      assert MembersJson(sc, o, fds, v, [], indent) == Ok([]);
      var m := MemberJson(sc, o, fds, v, k, indent);
      if m.Ok? {
        assert [m.value] + [] == [m.value];
      }
    }

    /** A field's line up to its value. */
    function NameText(fd: Field, indent: string): string {
      (if o.indent == "" then "" else indent + o.indent) + "\"" + FieldName(o, fd) + "\"" + ":" + AfterColon(o)
    }

    /** Field name and value, from the indentation of their line on. */
    function FieldText(fd: Field, value: Json, indent: string): string {
      NameText(fd, indent) + Text(value)
    }

    lemma NewLineFirst(m: Member, fd: Field, value: Json, indent: string)
      requires m == Member(NewLine(o, indent + o.indent), FieldName(o, fd), AfterColon(o), value)
      ensures MemberText(m) == NewLine(o, "") + FieldText(fd, value, indent)
    {
      hide Text;
    }

    method WriteName(fd: Field, indent: string)
      modifies this`buf
      ensures buf == old(buf) + NameText(fd, indent)
    {
      if o.indent != "" {
        Write(indent);
        Write(o.indent);
      }
      Write("\"");
      if o.origName {
        Write(fd.name);
      } else {
        Write(fd.jsonName);
      }
      Write("\":");
      if o.indent != "" {
        Write(" ");
      }
      NameShape(old(buf), indent, o.indent, FieldName(o, fd));
    }

    lemma NameShape(base: string, indent: string, more: string, name: string)
      ensures base + indent + more + "\"" + name + "\":" + " " ==
              base + ((indent + more) + "\"" + name + "\"" + ":" + " ")
      ensures base + "\"" + name + "\":" == base + ("" + "\"" + name + "\"" + ":" + "")
    {}

    method MarshalField(fd: Field, slot: Option<Value>, indent: string) returns (err: Option<EncodeError>)
      modifies this`buf
      ensures err == ErrorOf(FieldJson(sc, o, fd, slot, indent))
      ensures err.None? ==> buf == old(buf) + FieldText(fd, FieldJson(sc, o, fd, slot, indent).value, indent)
      decreases slot, 8, 0
    {
      hide FieldJson, Text, NameText;
      WriteName(fd, indent);
      err := MarshalValue(fd, slot, indent);
      if err.None? {
        ghost var text := Text(FieldJson(sc, o, fd, slot, indent).value);
        assert old(buf) + NameText(fd, indent) + text == old(buf) + (NameText(fd, indent) + text);
      }
    }

    method MarshalValue(fd: Field, slot: Option<Value>, indent: string) returns (err: Option<EncodeError>)
      modifies this`buf
      ensures err == ErrorOf(FieldJson(sc, o, fd, slot, indent))
      ensures err.None? ==> buf == old(buf) + Text(FieldJson(sc, o, fd, slot, indent).value)
      decreases slot, 7, 0
    {
      match fd.card
      case Repeated => err := MarshalList(fd, slot, indent);
      case MapWith(_) => err := MarshalMap(fd, slot, indent);
      case Singular =>
        hide SingularJson, ScalarJson;
        if slot.Some? {
          err := MarshalSingularValue(fd.kind, slot.value, indent);
        } else if fd.kind.MessageKind? {
          Write("null");
          err := None;
        } else {
          err := MarshalScalar(fd.kind, ZeroOf(fd.kind));
        }
    }

    method MarshalList(fd: Field, slot: Option<Value>, indent: string) returns (err: Option<EncodeError>)
      requires fd.card.Repeated?
      modifies this`buf
      ensures err == ErrorOf(FieldJson(sc, o, fd, slot, indent))
      ensures err.None? ==> buf == old(buf) + Text(FieldJson(sc, o, fd, slot, indent).value)
      decreases slot, 6, 0
    {
      hide ItemsJson, ItemsText, NewLine;
      if slot.Some? && !slot.value.ListV? {
        return Some(IllTyped);
      }
      NoItems(fd.kind, indent);
      ghost var items: seq<Item> := [];
      Write("[");
      if slot.Some? {
        err := MarshalItems(fd.kind, slot.value.elems, indent);
        if err.Some? {
          return;
        }
        items := ItemsJson(sc, o, fd.kind, slot.value.elems, indent).value;
      } else {
        assert old(buf) + "[" + "" == old(buf) + "[";
      }
      WriteNewLine(indent + o.indent);
      Write("]");
      Append(old(buf), "[", ItemsText(items, true), NewLine(o, indent + o.indent), "]");
      err := None;
    }

    method MarshalMap(fd: Field, slot: Option<Value>, indent: string) returns (err: Option<EncodeError>)
      requires fd.card.MapWith?
      modifies this`buf
      ensures err == ErrorOf(FieldJson(sc, o, fd, slot, indent))
      ensures err.None? ==> buf == old(buf) + Text(FieldJson(sc, o, fd, slot, indent).value)
      decreases slot, 6, 0
    {
      hide EntriesJson, MembersText, NewLine;
      if slot.Some? && !slot.value.MapV? {
        return Some(IllTyped);
      }
      NoEntries(fd.kind, MapV(map[]), indent);
      ghost var members: seq<Member> := [];
      Write("{");
      if slot.Some? {
        err := MarshalEntries(fd.kind, slot.value, indent);
        if err.Some? {
          return;
        }
        members := EntriesJson(sc, o, fd.kind, slot.value, SortedKeys(slot.value.entries.Keys), indent).value;
      } else {
        assert old(buf) + "{" + "" == old(buf) + "{";
      }
      WriteNewLine(indent + o.indent);
      Write("}");
      Append(old(buf), "{", MembersText(members, true), NewLine(o, indent + o.indent), "}");
      err := None;
    }

    /** The loop over a list. */
    method MarshalItems(kind: Kind, elems: seq<Value>, indent: string) returns (err: Option<EncodeError>)
      modifies this`buf
      ensures err == ErrorOf(ItemsJson(sc, o, kind, elems, indent))
      ensures err.None? ==> buf == old(buf) + ItemsText(ItemsJson(sc, o, kind, elems, indent).value, true)
      decreases elems, 0, 0
    {
      hide ItemsJson, SingularJson, ItemsText, Text, NewLine;
      ghost var done: seq<Item> := [];
      NoItems(kind, indent);
      assert elems[..0] == [];
      assert buf + "" == buf;
      var comma := "";
      for i := 0 to |elems|
        invariant ItemsJson(sc, o, kind, elems[..i], indent) == Ok(done)
        invariant comma == Separator(done == [])
        invariant buf == old(buf) + ItemsText(done, true)
      {
        ItemStep(kind, elems, i, indent);
        Write(comma);
        WriteNewLine(indent + o.indent + o.indent);
        err := MarshalSingularValue(kind, elems[i], indent + o.indent);
        if err.Some? {
          return;
        }
        ghost var item := Item(NewLine(o, indent + o.indent + o.indent),
                               SingularJson(sc, o, kind, elems[i], indent + o.indent).value);
        ItemsTextSnoc(done, item, true);
        Append(old(buf), ItemsText(done, true), comma, item.before, Text(item.value));
        done := done + [item];
        comma := ",";
      }
      assert elems[..|elems|] == elems;
      return None;
    }

    lemma ItemStep(kind: Kind, elems: seq<Value>, i: nat, indent: string)
      requires i < |elems|
      ensures var r, done := SingularJson(sc, o, kind, elems[i], indent + o.indent),
                             ItemsJson(sc, o, kind, elems[..i], indent);
              && (done.Ok? && r.Ok? ==>
                    ItemsJson(sc, o, kind, elems[..i + 1], indent) ==
                    Ok(done.value + [Item(NewLine(o, indent + o.indent + o.indent), r.value)]))
              && (done.Ok? && r.Err? ==> ItemsJson(sc, o, kind, elems, indent) == Err(r.error))
    {
      hide ItemsJson, SingularJson, NewLine;
      assert elems[..i + 1] == elems[..i] + [elems[i]];
      assert elems == elems[..i + 1] + elems[i + 1..];
      ItemsJsonConcat(sc, o, kind, elems[..i], [elems[i]], indent);
      ItemsJsonConcat(sc, o, kind, elems[..i + 1], elems[i + 1..], indent);
      OneItem(kind, elems[i], indent);
    }

    lemma NoItems(kind: Kind, indent: string)
      ensures ItemsJson(sc, o, kind, [], indent) == Ok([]) && ItemsText([], true) == ""
    {}

    lemma OneItem(kind: Kind, v: Value, indent: string)
      ensures var r := SingularJson(sc, o, kind, v, indent + o.indent);
              ItemsJson(sc, o, kind, [v], indent) ==
              if r.Err? then Err(r.error) else Ok([Item(NewLine(o, indent + o.indent + o.indent), r.value)])
    {
      hide SingularJson;
      assert [v][1..] == [];
      assert ItemsJson(sc, o, kind, [], indent) == Ok([]);
      var r := SingularJson(sc, o, kind, v, indent + o.indent);
      if r.Ok? {
        var item := Item(NewLine(o, indent + o.indent + o.indent), r.value);
        assert [item] + [] == [item];
      }
    }

    /** Collects the keys, sorts them, and loops over the entries. */
    method MarshalEntries(kind: Kind, v: Value, indent: string) returns (err: Option<EncodeError>)
      requires v.MapV?
      modifies this`buf
      ensures var r := EntriesJson(sc, o, kind, v, SortedKeys(v.entries.Keys), indent);
              && err == ErrorOf(r)
              && (r.Ok? ==> buf == old(buf) + MembersText(r.value, true))
      decreases v, 0, 0
    {
      hide EntriesJson, SingularJson, MembersText, MemberText, Text, Quote, KeyText, KeyLess, NewLine;
      var ks := EntryKeys(v.entries);
      ghost var done: seq<Member> := [];
      NoEntries(kind, v, indent);
      assert ks[..0] == [];
      assert buf + "" == buf;
      var comma := "";
      for i := 0 to |ks|
        invariant forall k :: k in ks[..i] ==> k in v.entries
        invariant EntriesJson(sc, o, kind, v, ks[..i], indent) == Ok(done)
        invariant comma == Separator(done == [])
        invariant buf == old(buf) + MembersText(done, true)
      {
        EntryStep(kind, v, ks, i, indent);
        Write(comma);
        assert ks[i] in ks[..i] + [ks[i]];
        assert v.entries[ks[i]] < v;
        err := MarshalEntry(kind, v, ks[i], indent);
        if err.Some? {
          return;
        }
        ghost var member := EntryMember(kind, v, ks[i], indent);
        MembersTextSnoc(done, member, true);
        Regrouped(old(buf), MembersText(done, true), comma, MemberText(member));
        done := done + [member];
        comma := ",";
      }
      assert ks[..|ks|] == ks;
      return None;
    }

    /** The member of the object that an entry becomes. */
    ghost function EntryMember(kind: Kind, v: Value, k: MapKey, indent: string): Member
      requires v.MapV? && k in v.entries && SingularJson(sc, o, kind, v.entries[k], indent + o.indent).Ok?
    {
      Member(NewLine(o, indent + o.indent + o.indent), Quote(KeyText(k)), AfterColon(o),
             SingularJson(sc, o, kind, v.entries[k], indent + o.indent).value)
    }

    /** The body of the loop over the entries. */
    method MarshalEntry(kind: Kind, v: Value, k: MapKey, indent: string) returns (err: Option<EncodeError>)
      requires v.MapV? && k in v.entries
      modifies this`buf
      ensures err == ErrorOf(SingularJson(sc, o, kind, v.entries[k], indent + o.indent))
      ensures err.None? ==> buf == old(buf) + MemberText(EntryMember(kind, v, k, indent))
      decreases v.entries[k], 7, 0
    {
      hide SingularJson, Text, Quote, KeyText, NewLine;
      WriteNewLine(indent + o.indent + o.indent);
      var s := KeyText(k);
      Write("\"" + Quote(s) + "\"");
      Write(":");
      if o.indent != "" {
        Write(" ");
      }
      ghost var here := buf;
      var before, key, after := NewLine(o, indent + o.indent + o.indent), "\"" + Quote(s) + "\"", AfterColon(o);
      assert here == old(buf) + before + key + ":" + after;
      err := MarshalSingularValue(kind, v.entries[k], indent + o.indent);
      if err.None? {
        ghost var text := Text(SingularJson(sc, o, kind, v.entries[k], indent + o.indent).value);
        assert buf == here + text;
        assert MemberText(EntryMember(kind, v, k, indent)) == before + "\"" + Quote(s) + "\"" + ":" + after + text;
        EntryShape(old(buf), before, Quote(s), after, text);
      }
    }

    lemma EntryShape(base: string, before: string, quoted: string, after: string, text: string)
      ensures base + before + ("\"" + quoted + "\"") + ":" + after + text ==
              base + (before + "\"" + quoted + "\"" + ":" + after + text)
    {
      assert before + "\"" + quoted + "\"" == before + ("\"" + quoted + "\"");
      Append(base, before, "\"" + quoted + "\"", ":", after + text);
      assert before + ("\"" + quoted + "\"") + ":" + after + text == before + ("\"" + quoted + "\"") + ":" + (after + text);
      assert base + before + ("\"" + quoted + "\"") + ":" + after + text ==
             base + before + ("\"" + quoted + "\"") + ":" + (after + text);
    }

    lemma EntryStep(kind: Kind, v: Value, ks: seq<MapKey>, i: nat, indent: string)
      requires v.MapV? && i < |ks| && forall k :: k in ks ==> k in v.entries
      ensures forall k :: k in ks[..i] + [ks[i]] ==> k in v.entries
      ensures ks[..i + 1] == ks[..i] + [ks[i]]
      ensures var r, done := SingularJson(sc, o, kind, v.entries[ks[i]], indent + o.indent),
                             EntriesJson(sc, o, kind, v, ks[..i], indent);
              && (done.Ok? && r.Ok? ==>
                    EntriesJson(sc, o, kind, v, ks[..i + 1], indent) ==
                    Ok(done.value + [EntryMember(kind, v, ks[i], indent)]))
              && (done.Ok? && r.Err? ==> EntriesJson(sc, o, kind, v, ks, indent) == Err(r.error))
    {
      hide EntriesJson, SingularJson, NewLine, Quote, KeyText;
      assert ks[i] in ks;
      assert ks[..i + 1] == ks[..i] + [ks[i]];
      assert ks == ks[..i + 1] + ks[i + 1..];
      EntriesJsonConcat(sc, o, kind, v, ks[..i], [ks[i]], indent);
      EntriesJsonConcat(sc, o, kind, v, ks[..i + 1], ks[i + 1..], indent);
      OneEntry(kind, v, ks[i], indent);
    }

    lemma NoEntries(kind: Kind, v: Value, indent: string)
      requires v.MapV?
      ensures EntriesJson(sc, o, kind, v, [], indent) == Ok([]) && MembersText([], true) == ""
    {}

    lemma OneEntry(kind: Kind, v: Value, k: MapKey, indent: string)
      requires v.MapV? && k in v.entries
      ensures var r := SingularJson(sc, o, kind, v.entries[k], indent + o.indent);
              EntriesJson(sc, o, kind, v, [k], indent) ==
              if r.Err? then Err(r.error)
              else Ok([Member(NewLine(o, indent + o.indent + o.indent), Quote(KeyText(k)), AfterColon(o), r.value)])
    {
      hide SingularJson, Quote, KeyText;
      assert [k][1..] == [];
      assert EntriesJson(sc, o, kind, v, [], indent) == Ok([]);
      var r := SingularJson(sc, o, kind, v.entries[k], indent + o.indent);
      if r.Ok? {
        var m := Member(NewLine(o, indent + o.indent + o.indent), Quote(KeyText(k)), AfterColon(o), r.value);
        assert [m] + [] == [m];
      }
    }

    /** The keys of a map field, sorted. */
    static method EntryKeys(m: map<MapKey, Value>) returns (ks: seq<MapKey>)
      ensures ks == SortedKeys(m.Keys) && forall k :: k in ks ==> k in m
    {
      var keys := CollectKeys(m);
      ks := SortKeys(keys);
      assert Ordered.Members(keys) == m.Keys;
    }

    /** The keys of a map field, in the order the map gives them. */
    static method CollectKeys(m: map<MapKey, Value>) returns (keys: seq<MapKey>)
      ensures forall k :: k in keys <==> k in m
      ensures forall i, j :: 0 <= i < j < |keys| ==> keys[i] != keys[j]
    {
      keys := [];
      var rest := m.Keys;
      while rest != {}
        invariant rest <= m.Keys && forall k :: k in keys <==> k in m.Keys - rest
        invariant forall i, j :: 0 <= i < j < |keys| ==> keys[i] != keys[j]
        decreases |rest|
      {
        var k :| k in rest;
        assert k !in keys;
        keys := keys + [k];
        rest := rest - {k};
      }
    }

    method MarshalSingularValue(kind: Kind, v: Value, indent: string) returns (err: Option<EncodeError>)
      modifies this`buf
      ensures err == ErrorOf(SingularJson(sc, o, kind, v, indent))
      ensures err.None? ==> buf == old(buf) + Text(SingularJson(sc, o, kind, v, indent).value)
      decreases v, 6, 0
    {
      hide MessageJson, ScalarJson, Text;
      if kind.MessageKind? {
        err := MarshalMessage(kind.message, v, indent + o.indent);
      } else {
        err := MarshalScalar(kind, v);
      }
    }

    method MarshalScalar(kind: Kind, v: Value) returns (err: Option<EncodeError>)
      modifies this`buf
      ensures err == ErrorOf(ScalarJson(sc, o, kind, v))
      ensures err.None? ==> buf == old(buf) + Text(ScalarJson(sc, o, kind, v).value)
    {
      var r := ScalarJson(sc, o, kind, v);
      if r.Err? {
        return Some(r.error);
      }
      Write(Text(r.value));
      return None;
    }
  }

  /** `Marshaler.MarshalToString`. */
  method MarshalToString(sc: Schema, o: Options, name: string, v: Value) returns (r: Result<string, EncodeError>)
    ensures r == Marshal(sc, o, name, v)
  {
    hide MessageJson, Text;
    var w := new Writer(sc, o);
    var err := w.MarshalMessage(name, v, "");
    if err.Some? {
      return Err(err.value);
    }
    var text := w.buf;
    assert forall t: string :: "" + t == t;
    return Ok(text);
  }
}
