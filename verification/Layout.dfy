/** Indentation only adds white space: indented and compact output have the same tokens. */
module Layout {
  import opened Encode
  import opened JsonReader
  import opened JsonText
  import opened MapOrder
  import opened ProtoSchema
  import opened Results
  import opened WellFormed

  function Plainly(o: Options): Options {
    o.(indent := "")
  }

  /** `r'` is `r` without its white space; they fail alike. */
  ghost predicate SameJson(r: Result<Json, EncodeError>, r': Result<Json, EncodeError>) {
    r' == if r.Ok? then Ok(Compact(r.value)) else r
  }

  ghost predicate SameMembers(r: Result<seq<Member>, EncodeError>, r': Result<seq<Member>, EncodeError>) {
    if r.Ok? then r' == Ok(CompactMembers(r.value)) else r' == Err(r.error)
  }

  ghost predicate SameItems(r: Result<seq<Item>, EncodeError>, r': Result<seq<Item>, EncodeError>) {
    if r.Ok? then r' == Ok(CompactItems(r.value)) else r' == Err(r.error)
  }

  lemma ScalarSame(sc: Schema, o: Options, kind: Kind, v: Value)
    ensures SameJson(ScalarJson(sc, o, kind, v), ScalarJson(sc, Plainly(o), kind, v))
  {}

  lemma {:induction false} MessageSame(sc: Schema, o: Options, name: string, v: Value, indent: string)
    ensures SameJson(MessageJson(sc, o, name, v, indent), MessageJson(sc, Plainly(o), name, v, ""))
    decreases v, 5, 0
  {
    hide ScalarJson, FieldJson, SingularJson, MembersJson, WriterIndexes, DurationJson, Compact;
    var fds := FieldsOf(sc, name);
    if v.MsgV? && fds.Some? && |fds.value| == |v.slots| {
      match WellKnownOf(name)
      case Wrapper(kind) => ScalarSame(sc, o, kind, if v.slots[0].Some? then v.slots[0].value else ZeroOf(kind));
      case DurationType => DurationSame(v.slots[0], v.slots[1]);
      case ValueType =>
        var w := WhichOneof(VALUE_FIELDS, v.slots, 0, 0);
        if w.Some? {
          SingularSame(sc, o, VALUE_FIELDS[w.value].kind, v.slots[w.value].value, indent);
        }
      case StructType => FieldSame(sc, o, STRUCT_FIELDS[0], v.slots[0], indent);
      case ListValueType => FieldSame(sc, o, LIST_VALUE_FIELDS[0], v.slots[0], indent);
      case NotModelled =>
      case Ordinary =>
        var ks := WriterIndexes(fds.value, v.slots, o.emitDefaults, 0);
        MembersSame(sc, o, fds.value, v, ks, indent);
        ObjSame(MembersJson(sc, o, fds.value, v, ks, indent));
        assert "" + "" == "";
    }
  }

  lemma ObjSame(r: Result<seq<Member>, EncodeError>)
    ensures r.Ok? ==> forall close :: Compact(Obj(r.value, close)) == Obj(CompactMembers(r.value), "")
  {}

  lemma DurationSame(seconds: Option<Value>, nanos: Option<Value>)
    ensures var r := DurationJson(seconds, nanos); r.Ok? ==> Compact(r.value) == r.value
  {}

  lemma {:induction false} MembersSame(sc: Schema, o: Options, fds: seq<Field>, v: Value, ks: seq<nat>, indent: string)
    requires v.MsgV? && |v.slots| == |fds| && forall x :: 0 <= x < |ks| ==> ks[x] < |fds|
    ensures SameMembers(MembersJson(sc, o, fds, v, ks, indent), MembersJson(sc, Plainly(o), fds, v, ks, ""))
    decreases v, 4, |ks|
  {
    if ks != [] {
      hide FieldJson, Compact;
      FieldSame(sc, o, fds[ks[0]], v.slots[ks[0]], indent);
      MembersSame(sc, o, fds, v, ks[1..], indent);
      var member, more := MemberJson(sc, o, fds, v, ks[0], indent), MembersJson(sc, o, fds, v, ks[1..], indent);
      if member.Ok? && more.Ok? {
        ConsMembers(member.value, more.value);
      }
    }
  }

  lemma {:induction false} FieldSame(sc: Schema, o: Options, fd: Field, slot: Option<Value>, indent: string)
    ensures SameJson(FieldJson(sc, o, fd, slot, indent), FieldJson(sc, Plainly(o), fd, slot, ""))
    decreases slot, 7, 0
  {
    match fd.card
    case Repeated =>
      if slot.Some? && slot.value.ListV? {
        hide ItemsJson;
        ItemsSame(sc, o, fd.kind, slot.value.elems, indent);
      }
    case MapWith(_) =>
      if slot.Some? && slot.value.MapV? {
        hide EntriesJson;
        EntriesSame(sc, o, fd.kind, slot.value, SortedKeys(slot.value.entries.Keys), indent);
        ObjSame(EntriesJson(sc, o, fd.kind, slot.value, SortedKeys(slot.value.entries.Keys), indent));
      }
    case Singular =>
      hide ScalarJson, SingularJson;
      if slot.Some? {
        SingularSame(sc, o, fd.kind, slot.value, indent);
      } else {
        ScalarSame(sc, o, fd.kind, ZeroOf(fd.kind));
      }
  }

  lemma {:induction false} SingularSame(sc: Schema, o: Options, kind: Kind, v: Value, indent: string)
    ensures SameJson(SingularJson(sc, o, kind, v, indent), SingularJson(sc, Plainly(o), kind, v, ""))
    decreases v, 6, 0
  {
    hide ScalarJson, MessageJson, Compact;
    assert "" + Plainly(o).indent == "";
    if kind.MessageKind? {
      MessageSame(sc, o, kind.message, v, indent + o.indent);
    } else {
      ScalarSame(sc, o, kind, v);
    }
  }

  lemma {:induction false} ItemsSame(sc: Schema, o: Options, kind: Kind, elems: seq<Value>, indent: string)
    ensures SameItems(ItemsJson(sc, o, kind, elems, indent), ItemsJson(sc, Plainly(o), kind, elems, ""))
    decreases elems, 0, 0
  {
    if elems != [] {
      hide SingularJson, Compact;
      assert "" + Plainly(o).indent == "";
      SingularSame(sc, o, kind, elems[0], indent + o.indent);
      ItemsSame(sc, o, kind, elems[1..], indent);
      var value, more := SingularJson(sc, o, kind, elems[0], indent + o.indent), ItemsJson(sc, o, kind, elems[1..], indent);
      if value.Ok? && more.Ok? {
        ConsItems(Item(NewLine(o, indent + o.indent + o.indent), value.value), more.value);
      }
    }
  }

  lemma ConsItems(item: Item, more: seq<Item>)
    ensures CompactItems([item] + more) == [Item("", Compact(item.value))] + CompactItems(more)
  {
    assert ([item] + more)[1..] == more;
  }

  lemma ConsMembers(m: Member, more: seq<Member>)
    ensures CompactMembers([m] + more) == [Member("", m.key, "", Compact(m.value))] + CompactMembers(more)
  {
    assert ([m] + more)[1..] == more;
  }

  lemma {:induction false} EntriesSame(sc: Schema, o: Options, kind: Kind, v: Value, ks: seq<MapKey>, indent: string)
    requires v.MapV? && forall k :: k in ks ==> k in v.entries
    ensures SameMembers(EntriesJson(sc, o, kind, v, ks, indent), EntriesJson(sc, Plainly(o), kind, v, ks, ""))
    decreases v, 0, |ks|
  {
    if ks != [] {
      hide SingularJson, Compact, Quote, KeyText, CompactMembers;
      assert ks[0] in ks;
      assert "" + Plainly(o).indent == "";
      SingularSame(sc, o, kind, v.entries[ks[0]], indent + o.indent);
      EntriesSame(sc, o, kind, v, ks[1..], indent);
      var value := SingularJson(sc, o, kind, v.entries[ks[0]], indent + o.indent);
      var more := EntriesJson(sc, o, kind, v, ks[1..], indent);
      if value.Ok? && more.Ok? {
        ConsMembers(Member(NewLine(o, indent + o.indent + o.indent), Quote(KeyText(ks[0])), AfterColon(o), value.value),
                    more.value);
      }
    }
  }

  // ----- tokens -----

  lemma {:induction false} CompactToks(j: Json, rest: seq<Token>)
    ensures ToksOnto(Compact(j), rest) == ToksOnto(j, rest)
    decreases j
  {
    match j
    case Atom(_) =>
    case Str(_) =>
    case Arr(items, _) => CompactItemsToks(items, true, [RBracket] + rest);
    case Obj(members, _) => CompactMembersToks(members, true, [RBrace] + rest);
  }

  lemma {:induction false} CompactItemsToks(items: seq<Item>, first: bool, rest: seq<Token>)
    ensures ItemsToksOnto(CompactItems(items), first, rest) == ItemsToksOnto(items, first, rest)
    decreases items
  {
    if items != [] {
      hide Compact, ToksOnto;
      var c := CompactItems(items);
      assert c[0].value == Compact(items[0].value) && c[1..] == CompactItems(items[1..]);
      CompactItemsToks(items[1..], false, rest);
      CompactToks(items[0].value, ItemsToksOnto(items[1..], false, rest));
    }
  }

  lemma {:induction false} CompactMembersToks(members: seq<Member>, first: bool, rest: seq<Token>)
    ensures MembersToksOnto(CompactMembers(members), first, rest) == MembersToksOnto(members, first, rest)
    decreases members
  {
    if members != [] {
      hide Compact, ToksOnto;
      var m, c := members[0], CompactMembers(members);
      assert c[0] == Member("", m.key, "", Compact(m.value)) && c[1..] == CompactMembers(members[1..]);
      CompactMembersToks(members[1..], false, rest);
      CompactToks(m.value, MembersToksOnto(members[1..], false, rest));
    }
  }

  /** Layout invariance: with every white-space indentation the output has the tokens of the compact
      output, or fails as it does, and the tokens are those of one JSON value. The message is any:
      only its schema's names must need no escaping. */
  lemma LayoutInvariance(sc: Schema, o: Options, name: string, v: Value)
    requires PlainNames(sc) && NumbersValid(v) && AllSpace(o.indent)
    ensures var indented, compact := Marshal(sc, o, name, v), Marshal(sc, Plainly(o), name, v);
            if indented.Err? then compact == indented
            else
              && compact.Ok? && Lex(indented.value) == Lex(compact.value)
              && exists j :: Lex(compact.value) == Some(Toks(j)) && ParseValue(Toks(j)) == Some((j, []))
  {
    hide PlainNames, NumbersValid, MessageJson, Well, Compact, ToksOnto, Text, Lex, ParseValue;
    MessageWell(sc, o, name, v, "");
    MessageSame(sc, o, name, v, "");
    if MessageJson(sc, o, name, v, "").Ok? {
      var j := MessageJson(sc, o, name, v, "").value;
      ReadText(j);
      CompactWell(j);
      ReadText(Compact(j));
      CompactToks(j, []);
      CompactTwice(j);
      ParseToks(Compact(j), []);
    }
  }

  lemma {:induction false} CompactTwice(j: Json)
    ensures Compact(Compact(j)) == Compact(j)
    decreases j
  {
    match j
    case Atom(_) =>
    case Str(_) =>
    case Arr(items, _) => CompactItemsTwice(items);
    case Obj(members, _) => CompactMembersTwice(members);
  }

  lemma {:induction false} CompactItemsTwice(items: seq<Item>)
    ensures CompactItems(CompactItems(items)) == CompactItems(items)
    decreases items
  {
    if items != [] {
      hide Compact;
      CompactTwice(items[0].value);
      CompactItemsTwice(items[1..]);
      assert CompactItems(items)[1..] == CompactItems(items[1..]);
    }
  }

  lemma {:induction false} CompactMembersTwice(members: seq<Member>)
    ensures CompactMembers(CompactMembers(members)) == CompactMembers(members)
    decreases members
  {
    if members != [] {
      hide Compact;
      CompactTwice(members[0].value);
      CompactMembersTwice(members[1..]);
      assert CompactMembers(members)[1..] == CompactMembers(members[1..]);
    }
  }

  lemma {:induction false} CompactWell(j: Json)
    requires Well(j)
    ensures Well(Compact(j))
    decreases j
  {
    match j
    case Atom(_) =>
    case Str(_) =>
    case Arr(items, _) => CompactWellItems(items);
    case Obj(members, _) => CompactWellMembers(members);
  }

  lemma {:induction false} CompactWellItems(items: seq<Item>)
    requires WellItems(items)
    ensures WellItems(CompactItems(items))
    decreases items
  {
    if items != [] {
      hide Compact;
      CompactWell(items[0].value);
      CompactWellItems(items[1..]);
      assert CompactItems(items)[1..] == CompactItems(items[1..]);
    }
  }

  lemma {:induction false} CompactWellMembers(members: seq<Member>)
    requires WellMembers(members)
    ensures WellMembers(CompactMembers(members))
    decreases members
  {
    if members != [] {
      hide Compact;
      CompactWell(members[0].value);
      CompactWellMembers(members[1..]);
      assert CompactMembers(members)[1..] == CompactMembers(members[1..]);
    }
  }
}
