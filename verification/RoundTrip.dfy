/** The law of the JSON mapping: what unmarshalling a marshalled message gives, and when that is the
    message. */
module RoundTrip {
  import Duration
  import opened Decode
  import opened Encode
  import opened FieldLoop
  import opened GoodMessages
  import opened JsonReader
  import opened JsonText
  import opened MapOrder
  import opened ProtoSchema
  import opened ReaderFields
  import opened Results
  import opened ScalarTrip

  // ----- what is proved of each part -----

  ghost predicate Returns(sc: Schema, allow: bool, name: string, r: Result<Json, EncodeError>, v: Value) {
    && r.Ok? && Well(r.value) && (name != VALUE ==> Compact(r.value) != NULL)
    && DecodeMessage(sc, allow, name, Compact(r.value)) == Ok(v)
  }

  ghost predicate SingularReturns(sc: Schema, allow: bool, kind: Kind, r: Result<Json, EncodeError>, v: Value) {
    && r.Ok? && Well(r.value) && (kind != MessageKind(VALUE) ==> Compact(r.value) != NULL)
    && DecodeSingular(sc, allow, kind, Compact(r.value)) == Ok(v)
  }

  /** A field that is shown reads back: a populated one as its value, an unpopulated one as null or
      as a zero that is not stored. */
  ghost predicate FieldReturns(sc: Schema, allow: bool, fd: Field, r: Result<Json, EncodeError>, slot: Option<Value>) {
    && r.Ok? && Well(r.value)
    && var j := Compact(r.value);
    && if slot.Some? then (j == NULL ==> IsSingularValue(fd)) && DecodeField(sc, allow, fd, j) == Ok(slot.value)
       else if j == NULL then !IsSingularValue(fd)
       else DecodeField(sc, allow, fd, j).Ok? && Stored(fd, DecodeField(sc, allow, fd, j).value) == None
  }

  lemma ScalarSingular(sc: Schema, allow: bool, o: Options, kind: Kind, v: Value)
    requires GoodScalar(sc, kind, v)
    ensures SingularReturns(sc, allow, kind, ScalarJson(sc, o, kind, v), v)
  {
    hide ScalarJson, DecodeScalar, GoodScalar, Well;
    assert !kind.MessageKind? by { ScalarHasKind(sc, kind, v); }
    AnyScalarTrip(sc, o, kind, v);
  }

  lemma ScalarHasKind(sc: Schema, kind: Kind, v: Value)
    requires GoodScalar(sc, kind, v)
    ensures !kind.MessageKind?
  {}

  // ----- lists -----

  ghost predicate ItemsReturn(sc: Schema, allow: bool, kind: Kind, r: Result<seq<Item>, EncodeError>, elems: seq<Value>) {
    r.Ok? && WellItems(r.value) && DecodeItems(sc, allow, kind, CompactItems(r.value)) == Ok(elems)
  }

  lemma ItemsCons(sc: Schema, allow: bool, kind: Kind, item: Item, more: seq<Item>, v: Value, elems: seq<Value>)
    requires AllSpace(item.before) && SingularReturns(sc, allow, kind, Ok(item.value), v)
    requires ItemsReturn(sc, allow, kind, Ok(more), elems)
    ensures ItemsReturn(sc, allow, kind, Ok([item] + more), [v] + elems)
  {
    hide Well, Compact, DecodeSingular;
    var items := [item] + more;
    assert items[1..] == more;
    var c := CompactItems(items);
    assert c[0].value == Compact(item.value) && c[1..] == CompactItems(more);
  }

  // ----- maps -----

  ghost predicate EntriesReturn(sc: Schema, allow: bool, key: Kind, kind: Kind, r: Result<seq<Member>, EncodeError>,
                                ks: seq<MapKey>, m: map<MapKey, Value>)
  {
    && r.Ok? && |r.value| == |ks| && WellMembers(r.value) && KeysOk(CompactMembers(r.value))
    && (forall i :: 0 <= i < |ks| ==> Unquote(r.value[i].key) == Some(KeyText(ks[i])))
    && DecodeEntries(sc, allow, key, kind, CompactMembers(r.value)) == Ok(m)
  }

  lemma {:induction false} CompactKeys(members: seq<Member>)
    ensures forall i :: 0 <= i < |members| ==>
              CompactMembers(members)[i] == Member("", members[i].key, "", Compact(members[i].value))
  {
    hide Compact;
    if members != [] {
      CompactKeys(members[1..]);
    }
  }

  lemma EntriesDecodeCons(sc: Schema, allow: bool, key: Kind, kind: Kind, c: seq<Member>, k: MapKey, v: Value,
                          m: map<MapKey, Value>)
    requires c != [] && KeysOk(c) && GoodKey(key, k) && Unquote(c[0].key) == Some(KeyText(k))
    requires DecodeSingular(sc, allow, kind, c[0].value) == Ok(v)
    requires DecodeEntries(sc, allow, key, kind, c[1..]) == Ok(m)
    requires forall i :: 1 <= i < |c| ==> Unquote(c[i].key) != Some(KeyText(k))
    ensures DecodeEntries(sc, allow, key, kind, c) == Ok(map[k := v] + m)
  {
    hide DecodeSingular, DecodeKey, KeyText, Unquote, GoodKey;
    KeyTrip(key, k);
    ObjectKeys(c[1..], KeyText(k));
    assert forall i :: 0 <= i < |c| - 1 ==> c[1..][i] == c[i + 1];
  }

  lemma EntriesCons(sc: Schema, allow: bool, key: Kind, kind: Kind, member: Member, more: seq<Member>,
                    k: MapKey, ks: seq<MapKey>, v: Value, m: map<MapKey, Value>)
    requires AllSpace(member.before) && AllSpace(member.after) && member.key == Quote(KeyText(k)) && GoodKey(key, k)
    requires SingularReturns(sc, allow, kind, Ok(member.value), v)
    requires EntriesReturn(sc, allow, key, kind, Ok(more), ks, m)
    requires forall i :: 0 <= i < |ks| ==> KeyText(ks[i]) != KeyText(k)
    ensures EntriesReturn(sc, allow, key, kind, Ok([member] + more), [k] + ks, map[k := v] + m)
  {
    hide Well, Compact, DecodeSingular, DecodeEntries, KeyText, Unquote, RawOk, Quote, AllSpace, GoodKey, CompactMembers,
         WellMembers;
    var members, c := [member] + more, CompactMembers([member] + more);
    UnquoteQuote(KeyText(k));
    QuoteRawOk(KeyText(k));
    MembersGrow(member, more);
    EntryNamesGrow(member, more, k, ks);
    EntriesDecodeCons(sc, allow, key, kind, c, k, v, m);
  }

  lemma MembersGrow(member: Member, more: seq<Member>)
    requires WellMember(member) && WellMembers(more)
    ensures WellMembers([member] + more)
    ensures var c := CompactMembers([member] + more);
            c[0] == Member("", member.key, "", Compact(member.value)) && c[1..] == CompactMembers(more)
  {
    hide WellMember, Compact;
    assert ([member] + more)[1..] == more;
  }

  /** The names of the members of an object survive compaction. */
  lemma EntryNamesGrow(member: Member, more: seq<Member>, k: MapKey, ks: seq<MapKey>)
    requires |more| == |ks| && Unquote(member.key) == Some(KeyText(k))
    requires forall i :: 0 <= i < |ks| ==> Unquote(more[i].key) == Some(KeyText(ks[i]))
    requires forall i :: 0 <= i < |ks| ==> KeyText(ks[i]) != KeyText(k)
    ensures var members, c := [member] + more, CompactMembers([member] + more);
            && (forall i :: 0 <= i <= |ks| ==> Unquote(members[i].key) == Some(KeyText(([k] + ks)[i])))
            && KeysOk(c) && |c| == |members| && Unquote(c[0].key) == Some(KeyText(k))
            && forall i :: 1 <= i < |c| ==> Unquote(c[i].key) != Some(KeyText(k))
  {
    hide Unquote, KeyText, Compact, CompactMembers;
    var members := [member] + more;
    CompactKeys(members);
    forall i | 0 <= i <= |ks|
      ensures Unquote(members[i].key) == Some(KeyText(([k] + ks)[i])) && (i > 0 ==> KeyText(([k] + ks)[i]) != KeyText(k))
    {
      assert i > 0 ==> members[i] == more[i - 1] && ([k] + ks)[i] == ks[i - 1];
    }
  }

  // ----- fields -----

  lemma ZeroIsGood(sc: Schema, kind: Kind)
    requires !kind.MessageKind? && kind != EnumKind(NULL_VALUE) && GoodKind(sc, kind)
    ensures GoodScalar(sc, kind, ZeroOf(kind)) && IsZero(ZeroOf(kind))
  {
    assert Span("0") == 1;
  }

  lemma EmptyListReturns(sc: Schema, allow: bool, kind: Kind, close: string)
    requires AllSpace(close)
    ensures Well(Arr([], close)) && Compact(Arr([], close)) == Arr([], "")
    ensures DecodeList(sc, allow, kind, Arr([], "")) == Ok(ListV([]))
  {
    hide Unquote, RawOk, DecodeSingular, DecodeKey, AllSpace;
  }

  lemma EmptyMapReturns(sc: Schema, allow: bool, key: Kind, kind: Kind, close: string)
    requires AllSpace(close)
    ensures Well(Obj([], close)) && Compact(Obj([], close)) == Obj([], "")
    ensures DecodeMap(sc, allow, key, kind, Obj([], "")) == Ok(MapV(map[]))
  {
    hide Unquote, RawOk, DecodeSingular, DecodeKey, AllSpace;
  }

  /** The default shown for an unpopulated field is read as nothing, except null for a
      `google.protobuf.Value`. */
  lemma DefaultReturns(sc: Schema, allow: bool, o: Options, fd: Field, indent: string)
    requires GoodCardinality(fd) && GoodKind(sc, fd.kind) && fd.oneof.None? && (IsSingularValue(fd) ==> o.emitDefaults)
    requires AllSpace(NewLine(o, indent + o.indent))
    ensures FieldReturns(sc, allow, fd, FieldJson(sc, o, fd, None, indent), SettledSlot(sc, o, fd, None))
  {
    hide GoodScalar, ScalarJson, DecodeScalar, DecodeList, DecodeMap;
    match fd.card
    case Repeated => EmptyListReturns(sc, allow, fd.kind, NewLine(o, indent + o.indent));
    case MapWith(key) => EmptyMapReturns(sc, allow, key, fd.kind, NewLine(o, indent + o.indent));
    case Singular =>
      if !fd.kind.MessageKind? {
        ZeroIsGood(sc, fd.kind);
        ScalarSingular(sc, allow, o, fd.kind, ZeroOf(fd.kind));
      } else {
        assert ValidAtom("null");
      }
  }

  // ----- ordinary messages -----

  ghost predicate MembersWritten(sc: Schema, o: Options, fds: seq<Field>, v: Value, ks: seq<nat>, indent: string,
                                 members: seq<Member>)
    requires v.MsgV? && |v.slots| == |fds| && forall x :: 0 <= x < |ks| ==> ks[x] < |fds|
  {
    && |members| == |ks| && WellMembers(members)
    && forall x :: 0 <= x < |ks| ==>
         && members[x].key == FieldName(o, fds[ks[x]])
         && Unquote(members[x].key) == Some(FieldName(o, fds[ks[x]]))
         && Ok(members[x].value) == FieldJson(sc, o, fds[ks[x]], v.slots[ks[x]], indent)
  }

  lemma MembersCons(sc: Schema, o: Options, fds: seq<Field>, v: Value, ks: seq<nat>, indent: string, more: seq<Member>)
    requires v.MsgV? && |v.slots| == |fds| && ks != [] && forall x :: 0 <= x < |ks| ==> ks[x] < |fds|
    requires GoodNames(fds) && AllSpace(NewLine(o, indent + o.indent))
    requires MembersWritten(sc, o, fds, v, ks[1..], indent, more)
    requires var r := FieldJson(sc, o, fds[ks[0]], v.slots[ks[0]], indent); r.Ok? && Well(r.value)
    ensures var member := MemberJson(sc, o, fds, v, ks[0], indent);
            member.Ok? && MembersWritten(sc, o, fds, v, ks, indent, [member.value] + more)
  {
    hide FieldJson, Well, Unquote, RawOk, Plain, NewLine;
    PlainUnquotes(FieldName(o, fds[ks[0]]));
    var all := [MemberJson(sc, o, fds, v, ks[0], indent).value] + more;
    assert all[1..] == more;
    assert WellMembers(all);
    forall x | 0 <= x < |ks|
      ensures all[x].key == FieldName(o, fds[ks[x]]) && Unquote(all[x].key) == Some(FieldName(o, fds[ks[x]]))
      ensures Ok(all[x].value) == FieldJson(sc, o, fds[ks[x]], v.slots[ks[x]], indent)
    {
      assert x > 0 ==> all[x] == more[x - 1] && ks[x] == ks[1..][x - 1];
    }
  }

  lemma {:induction false} MembersReturn(sc: Schema, o: Options, fds: seq<Field>, v: Value, ks: seq<nat>, indent: string)
    requires v.MsgV? && |v.slots| == |fds| && forall x :: 0 <= x < |ks| ==> ks[x] < |fds|
    requires GoodNames(fds) && AllSpace(NewLine(o, indent + o.indent))
    requires forall x :: 0 <= x < |ks| ==>
               var r := FieldJson(sc, o, fds[ks[x]], v.slots[ks[x]], indent); r.Ok? && Well(r.value)
    ensures var r := MembersJson(sc, o, fds, v, ks, indent);
            r.Ok? && MembersWritten(sc, o, fds, v, ks, indent, r.value)
    decreases |ks|
  {
    hide FieldJson, Well, GoodNames, NewLine, MemberJson;
    if ks != [] {
      hide MembersWritten;
      MembersReturn(sc, o, fds, v, ks[1..], indent);
      MembersCons(sc, o, fds, v, ks, indent, MembersJson(sc, o, fds, v, ks[1..], indent).value);
    }
  }

  /** What is left of the object before field `i` is looked at: exactly the shown fields from `i` on. */
  ghost predicate Remaining(sc: Schema, o: Options, fds: seq<Field>, v: Value, indent: string, obj: map<string, Json>, i: nat)
    requires v.MsgV? && |v.slots| == |fds|
  {
    && (forall k :: i <= k < |fds| ==>
          && (FieldName(o, fds[k]) in obj <==> Shown(fds, v.slots, o.emitDefaults, k))
          && (FieldName(o, fds[k]) in obj ==>
                var r := FieldJson(sc, o, fds[k], v.slots[k], indent);
                r.Ok? && obj[FieldName(o, fds[k])] == Compact(r.value)))
    && (forall name :: name in obj ==> exists k :: i <= k < |fds| && name == FieldName(o, fds[k]))
  }

  lemma RemainingNext(sc: Schema, o: Options, fds: seq<Field>, v: Value, indent: string, obj: map<string, Json>, i: nat)
    requires v.MsgV? && |v.slots| == |fds| && i < |fds| && GoodNames(fds)
    requires Remaining(sc, o, fds, v, indent, obj, i)
    ensures Remaining(sc, o, fds, v, indent, obj - {fds[i].name, fds[i].jsonName}, i + 1)
    ensures RawOf(obj, fds[i]) == if FieldName(o, fds[i]) in obj then Some(obj[FieldName(o, fds[i])]) else None
  {
    hide FieldJson, Compact, Shown;
    var rest := obj - {fds[i].name, fds[i].jsonName};
    forall name | name in rest ensures exists k :: i + 1 <= k < |fds| && name == FieldName(o, fds[k]) {
      var k :| i <= k < |fds| && name == FieldName(o, fds[k]);
      assert k != i;
    }
    forall name | name in {fds[i].name, fds[i].jsonName} && name in obj ensures name == FieldName(o, fds[i]) {
      var k :| i <= k < |fds| && name == FieldName(o, fds[k]);
    }
  }

  function Upto(slots: seq<Option<Value>>, i: nat): seq<Option<Value>>
    requires i <= |slots|
  {
    slots[..i] + seq(|slots| - i, _ => EMPTY_SLOT)
  }

  lemma UptoNext(fds: seq<Field>, slots: seq<Option<Value>>, i: nat, v: Value)
    requires |slots| == |fds| && i < |fds| && OneEach(fds, slots)
    requires Stored(fds[i], v) == slots[i] && (slots[i].None? ==> fds[i].oneof.None?)
    ensures SetSlot(fds, Upto(slots, i), i, v) == Upto(slots, i + 1)
  {
    hide Stored;
  }

  /** Every field of `v` that is shown reads back as the slot of `back`; the others are unset there. */
  ghost predicate OrdinaryReady(sc: Schema, allow: bool, o: Options, fds: seq<Field>, v: Value, back: seq<Option<Value>>,
                                indent: string)
    requires v.MsgV? && |v.slots| == |fds| == |back|
  {
    && GoodNames(fds) && OneEach(fds, v.slots) && OneEach(fds, back)
    && (forall k :: 0 <= k < |fds| && back[k].Some? ==> HasPresence(fds[k]) || !IsZero(back[k].value))
    && (forall k :: 0 <= k < |fds| ==>
          if Shown(fds, v.slots, o.emitDefaults, k)
          then FieldReturns(sc, allow, fds[k], FieldJson(sc, o, fds[k], v.slots[k], indent), back[k])
          else back[k].None?)
  }

  /** One turn of the reader's field loop. */
  lemma FieldTurn(sc: Schema, allow: bool, o: Options, fds: seq<Field>, v: Value, back: seq<Option<Value>>,
                  indent: string, j: Json, obj: map<string, Json>, i: nat)
    requires v.MsgV? && |v.slots| == |fds| == |back| && i < |fds| && forall k :: k in obj ==> obj[k] < j
    requires OrdinaryReady(sc, allow, o, fds, v, back, indent) && Remaining(sc, o, fds, v, indent, obj, i)
    ensures var rest := obj - {fds[i].name, fds[i].jsonName};
            && Remaining(sc, o, fds, v, indent, rest, i + 1)
            && DecodeFields(sc, allow, fds, j, obj, i, Upto(back, i)) ==
               DecodeFields(sc, allow, fds, j, rest, i + 1, Upto(back, i + 1))
  {
    hide FieldJson, Compact, DecodeField, Well, GoodNames, OneEach, SetSlot, Stored, HasPresence, IsZero;
    RemainingNext(sc, o, fds, v, indent, obj, i);
    var raw := RawOf(obj, fds[i]);
    hide Remaining, RawOf;
    if raw.None? || (raw.value == NULL && !IsSingularValue(fds[i])) {
      assert back[i].None?;
      assert Upto(back, i) == Upto(back, i + 1);
    } else {
      var x := DecodeField(sc, allow, fds[i], raw.value).value;
      StoredAgain(fds[i], back[i], x);
      UptoNext(fds, back, i, x);
    }
  }

  lemma StoredAgain(fd: Field, slot: Option<Value>, x: Value)
    requires slot.Some? ==> x == slot.value && (HasPresence(fd) || !IsZero(x))
    requires slot.None? ==> Stored(fd, x) == None
    ensures Stored(fd, x) == slot && (slot.None? ==> fd.oneof.None?)
  {}

  lemma {:induction false} FieldsReturn(sc: Schema, allow: bool, o: Options, fds: seq<Field>, v: Value,
                                        back: seq<Option<Value>>, indent: string, j: Json, obj: map<string, Json>, i: nat)
    requires v.MsgV? && |v.slots| == |fds| == |back| && i <= |fds| && forall k :: k in obj ==> obj[k] < j
    requires OrdinaryReady(sc, allow, o, fds, v, back, indent) && Remaining(sc, o, fds, v, indent, obj, i)
    ensures DecodeFields(sc, allow, fds, j, obj, i, Upto(back, i)) == Ok(MsgV(back))
    decreases |fds| - i
  {
    hide OrdinaryReady;
    if i == |fds| {
      assert Upto(back, i) == back;
      assert obj == map[];
    } else {
      hide Remaining, DecodeFields;
      FieldTurn(sc, allow, o, fds, v, back, indent, j, obj, i);
      FieldsReturn(sc, allow, o, fds, v, back, indent, j, obj - {fds[i].name, fds[i].jsonName}, i + 1);
    }
  }

  lemma FieldNamesDiffer(o: Options, fds: seq<Field>, i: nat, j: nat)
    requires GoodNames(fds) && i < |fds| && j < |fds| && FieldName(o, fds[i]) == FieldName(o, fds[j])
    ensures i == j
  {}

  /** `c` are the members written for the fields `ks`. */
  ghost predicate MembersOf(sc: Schema, o: Options, fds: seq<Field>, v: Value, indent: string, ks: seq<nat>, c: seq<Member>)
    requires v.MsgV? && |v.slots| == |fds|
  {
    && |c| == |ks| && KeysOk(c)
    && forall x :: 0 <= x < |ks| ==>
         && ks[x] < |fds|
         && Unquote(c[x].key) == Some(FieldName(o, fds[ks[x]]))
         && var r := FieldJson(sc, o, fds[ks[x]], v.slots[ks[x]], indent); r.Ok? && c[x].value == Compact(r.value)
  }

  lemma MemberKeysDiffer(sc: Schema, o: Options, fds: seq<Field>, v: Value, indent: string, ks: seq<nat>, c: seq<Member>)
    requires v.MsgV? && |v.slots| == |fds| && GoodNames(fds) && MembersOf(sc, o, fds, v, indent, ks, c)
    requires forall x, y :: 0 <= x < y < |ks| ==> ks[x] < ks[y]
    ensures NamesDiffer(c)
  {
    hide FieldJson, Compact, Unquote, GoodNames, FieldName;
    forall x, y | 0 <= x < y < |c| && Unquote(c[x].key) == Unquote(c[y].key) ensures false {
      FieldNamesDiffer(o, fds, ks[x], ks[y]);
    }
  }

  /** Field `k` is in the object exactly when it is among the fields written, with its value. */
  lemma FieldHeld(sc: Schema, o: Options, fds: seq<Field>, v: Value, indent: string, ks: seq<nat>, c: seq<Member>, k: nat)
    requires v.MsgV? && |v.slots| == |fds| && GoodNames(fds) && MembersOf(sc, o, fds, v, indent, ks, c) && k < |fds|
    requires NamesDiffer(c)
    ensures var name := FieldName(o, fds[k]);
            && (name in ObjectOf(c) <==> k in ks)
            && (name in ObjectOf(c) ==>
                  var r := FieldJson(sc, o, fds[k], v.slots[k], indent);
                  r.Ok? && ObjectOf(c)[name] == Compact(r.value))
  {
    hide FieldJson, Compact, Unquote, GoodNames, FieldName, ObjectOf;
    var name := FieldName(o, fds[k]);
    ObjectKeys(c, name);
    if name in ObjectOf(c) {
      var x :| 0 <= x < |c| && Unquote(c[x].key) == Some(name);
      FieldNamesDiffer(o, fds, ks[x], k);
      ObjectValues(c, x);
    }
    if k in ks {
      var x :| 0 <= x < |ks| && ks[x] == k;
      assert Unquote(c[x].key) == Some(name);
    }
  }

  lemma NameIsFieldName(sc: Schema, o: Options, fds: seq<Field>, v: Value, indent: string, ks: seq<nat>, c: seq<Member>,
                        name: string)
    requires v.MsgV? && |v.slots| == |fds| && MembersOf(sc, o, fds, v, indent, ks, c) && name in ObjectOf(c)
    ensures exists k :: 0 <= k < |fds| && name == FieldName(o, fds[k])
  {
    hide FieldJson, Compact, Unquote, FieldName, ObjectOf;
    ObjectKeys(c, name);
    var x :| 0 <= x < |c| && Unquote(c[x].key) == Some(name);
    assert name == FieldName(o, fds[ks[x]]);
  }

  /** The object holds exactly the shown fields. */
  lemma ObjectHoldsShown(sc: Schema, o: Options, fds: seq<Field>, v: Value, indent: string, ks: seq<nat>, c: seq<Member>)
    requires v.MsgV? && |v.slots| == |fds| && GoodNames(fds) && MembersOf(sc, o, fds, v, indent, ks, c)
    requires forall k :: k in ks <==> 0 <= k < |fds| && Shown(fds, v.slots, o.emitDefaults, k)
    requires forall x, y :: 0 <= x < y < |ks| ==> ks[x] < ks[y]
    ensures Remaining(sc, o, fds, v, indent, ObjectOf(c), 0)
  {
    hide FieldJson, Compact, Shown, Unquote, GoodNames, FieldName, ObjectOf;
    MemberKeysDiffer(sc, o, fds, v, indent, ks, c);
    forall k | 0 <= k < |fds|
      ensures FieldName(o, fds[k]) in ObjectOf(c) <==> Shown(fds, v.slots, o.emitDefaults, k)
      ensures FieldName(o, fds[k]) in ObjectOf(c) ==>
                var r := FieldJson(sc, o, fds[k], v.slots[k], indent);
                r.Ok? && ObjectOf(c)[FieldName(o, fds[k])] == Compact(r.value)
    {
      FieldHeld(sc, o, fds, v, indent, ks, c, k);
    }
    forall name | name in ObjectOf(c) ensures exists k :: 0 <= k < |fds| && name == FieldName(o, fds[k]) {
      NameIsFieldName(sc, o, fds, v, indent, ks, c, name);
    }
  }

  predicate Spaced(o: Options, indent: string) {
    AllSpace(o.indent) && AllSpace(indent)
  }

  lemma SpacedParts(o: Options, indent: string)
    requires Spaced(o, indent)
    ensures AllSpace(NewLine(o, "")) && AllSpace(NewLine(o, indent)) && AllSpace(NewLine(o, indent + o.indent))
    ensures AllSpace(NewLine(o, indent + o.indent + o.indent)) && AllSpace(AfterColon(o))
    ensures Spaced(o, indent + o.indent)
  {}

  lemma SpaceConcat(s: string, t: string)
    requires AllSpace(s) && AllSpace(t)
    ensures AllSpace(s + t)
  {}

  /** What an ordinary message is written as. */
  lemma OrdinaryJson(sc: Schema, o: Options, name: string, fds: seq<Field>, v: Value, indent: string, members: seq<Member>)
    requires WellKnownOf(name) == Ordinary && FieldsOf(sc, name) == Some(fds) && v.MsgV? && |v.slots| == |fds|
    requires MembersJson(sc, o, fds, v, WriterIndexes(fds, v.slots, o.emitDefaults, 0), indent) == Ok(members)
    requires WellMembers(members) && Spaced(o, indent)
    ensures var r := MessageJson(sc, o, name, v, indent);
            r.Ok? && Well(r.value) && Compact(r.value) == Obj(CompactMembers(members), "")
  {
    hide MembersJson, WriterIndexes, WellMembers, NewLine;
    SpacedParts(o, indent);
    SpaceConcat(if members == [] then NewLine(o, "") else "", NewLine(o, indent));
  }

  lemma OrdinaryMembers(sc: Schema, allow: bool, o: Options, fds: seq<Field>, v: Value, back: seq<Option<Value>>,
                        indent: string)
    requires v.MsgV? && |v.slots| == |fds| == |back|
    requires OrdinaryReady(sc, allow, o, fds, v, back, indent) && Contiguous(fds) && Spaced(o, indent)
    ensures var r := MembersJson(sc, o, fds, v, WriterIndexes(fds, v.slots, o.emitDefaults, 0), indent);
            && r.Ok? && WellMembers(r.value) && KeysOk(CompactMembers(r.value))
            && Remaining(sc, o, fds, v, indent, ObjectOf(CompactMembers(r.value)), 0)
  {
    hide FieldJson, Well, Unquote, FieldReturns, HasPresence, IsZero, GoodNames, OneEach, Contiguous, Shown, NewLine, AllSpace,
         AfterColon, FieldName, MembersJson, WriterIndexes, ShownFrom, ObjectOf, Remaining, WellMembers, Compact;
    SpacedParts(o, indent);
    WriterShowsAll(fds, v.slots, o.emitDefaults, 0);
    ShownOnceInOrder(fds, v.slots, o.emitDefaults, 0);
    var ks := WriterIndexes(fds, v.slots, o.emitDefaults, 0);
    forall x | 0 <= x < |ks|
      ensures var r := FieldJson(sc, o, fds[ks[x]], v.slots[ks[x]], indent); r.Ok? && Well(r.value)
    {
      assert ks[x] in ks;
      FieldReturnsWell(sc, allow, fds[ks[x]], FieldJson(sc, o, fds[ks[x]], v.slots[ks[x]], indent), back[ks[x]]);
    }
    MembersReturn(sc, o, fds, v, ks, indent);
    var members := MembersJson(sc, o, fds, v, ks, indent).value;
    CompactKeys(members);
    ObjectHoldsShown(sc, o, fds, v, indent, ks, CompactMembers(members));
  }

  lemma OrdinaryReturns(sc: Schema, allow: bool, o: Options, name: string, fds: seq<Field>, v: Value,
                        back: seq<Option<Value>>, indent: string)
    requires WellKnownOf(name) == Ordinary && FieldsOf(sc, name) == Some(fds) && v.MsgV? && |v.slots| == |fds| == |back|
    requires OrdinaryReady(sc, allow, o, fds, v, back, indent) && Contiguous(fds) && Spaced(o, indent)
    ensures Returns(sc, allow, name, MessageJson(sc, o, name, v, indent), MsgV(back))
  {
    hide MessageJson, DecodeMessage, MembersJson, WriterIndexes, OrdinaryReady, Remaining, DecodeFields, Contiguous, Spaced,
         WellMembers, ObjectOf, Well;
    OrdinaryMembers(sc, allow, o, fds, v, back, indent);
    var members := MembersJson(sc, o, fds, v, WriterIndexes(fds, v.slots, o.emitDefaults, 0), indent).value;
    OrdinaryJson(sc, o, name, fds, v, indent, members);
    var c := CompactMembers(members);
    assert Upto(back, 0) == EmptyMessage(fds).slots;
    FieldsReturn(sc, allow, o, fds, v, back, indent, Obj(c, ""), Unwrap(c, ""), 0);
    DecodeOrdinary(sc, allow, name, fds, c);
  }

  lemma FieldReturnsWell(sc: Schema, allow: bool, fd: Field, r: Result<Json, EncodeError>, slot: Option<Value>)
    requires FieldReturns(sc, allow, fd, r, slot)
    ensures r.Ok? && Well(r.value)
  {}

  lemma DecodeOrdinary(sc: Schema, allow: bool, name: string, fds: seq<Field>, c: seq<Member>)
    requires WellKnownOf(name) == Ordinary && FieldsOf(sc, name) == Some(fds) && KeysOk(c)
    ensures DecodeMessage(sc, allow, name, Obj(c, "")) ==
            DecodeFields(sc, allow, fds, Obj(c, ""), Unwrap(c, ""), 0, EmptyMessage(fds).slots)
    ensures name != VALUE
  {}

  // ----- well-known types -----

  lemma WrapperReturns(sc: Schema, allow: bool, o: Options, name: string, v: Value, indent: string)
    requires WellKnownOf(name).Wrapper? && Good(sc, name, v)
    ensures Returns(sc, allow, name, MessageJson(sc, o, name, v, indent), v)
  {
    hide GoodScalar, ScalarJson, DecodeScalar, Well, IsZero;
    var kind := WellKnownOf(name).kind;
    var x := if v.slots[0].Some? then v.slots[0].value else ZeroOf(kind);
    ZeroIsGood(sc, kind);
    AnyScalarTrip(sc, o, kind, x);
    assert v == MsgV([v.slots[0]]);
  }

  /** A printed duration is read as what it was when its nanoseconds fit 64 bits, and refused
      otherwise. */
  lemma DurationReads(s: int, ns: int)
    requires Duration.Accepted(s, ns)
    ensures var text := Duration.Print(s, ns);
            && text.Ok? && Well(Str(text.value))
            && DecodeDuration(Str(text.value)) ==
               if Duration.InParseRange(s * Duration.SECOND + ns)
               then Ok(MsgV([Stored(DURATION_FIELDS[0], IntV(s)), Stored(DURATION_FIELDS[1], IntV(ns))]))
               else Err(BadValue)
  {
    hide Duration.Print, Duration.Parse, Plain, RawOk, Unquote, Stored;
    Duration.ParsePrint(s, ns);
    Duration.SplitTotal(s, ns);
    Duration.PrintPlain(s, ns);
    PlainUnquotes(Duration.Print(s, ns).value);
  }

  lemma DurationReturns(sc: Schema, allow: bool, o: Options, v: Value, indent: string)
    requires Good(sc, DURATION, v)
    ensures Returns(sc, allow, DURATION, MessageJson(sc, o, DURATION, v, indent), v)
  {
    hide Duration.Print, DecodeDuration, Well;
    var s := if v.slots[0].Some? then v.slots[0].value.n else 0;
    var ns := if v.slots[1].Some? then v.slots[1].value.n else 0;
    DurationReads(s, ns);
    assert v == MsgV([v.slots[0], v.slots[1]]);
  }

  lemma NumberValueReturns(sc: Schema, allow: bool, o: Options, x: Value, indent: string)
    requires GoodScalar(sc, DoubleKind, x)
    ensures Returns(sc, allow, VALUE, SingularJson(sc, o, DoubleKind, x, indent), SettledNumber(ValueWith(1, x), x))
  {
    hide IsJsonNumber, RawOk, Unquote, DecodeMessage, Plain;
    if x.num.Finite? {
      NumberIsRead(sc, allow, x.num.text);
    } else {
      assert Plain("Infinity") && Plain("-Infinity") && Plain("NaN") by { PlainNonFinite(); }
      PlainUnquotes(NumberJson(x.num).raw);
      PlainIsRead(sc, allow, NumberJson(x.num).raw);
    }
  }

  lemma PlainNonFinite()
    ensures Plain("Infinity") && Plain("-Infinity") && Plain("NaN")
  {}

  lemma NumberIsRead(sc: Schema, allow: bool, text: string)
    requires IsJsonNumber(text)
    ensures DecodeMessage(sc, allow, VALUE, Atom(text)) == Ok(ValueWith(1, NumV(Finite(text))))
  {
    hide IsJsonNumber, RawOk, Unquote, ValueWith;
    NullIsNoNumber();
  }

  lemma PlainIsRead(sc: Schema, allow: bool, raw: string)
    requires Unquote(raw) == Some(raw)
    ensures DecodeMessage(sc, allow, VALUE, Str(raw)) == Ok(ValueWith(2, StrV(raw)))
  {
    hide IsJsonNumber, RawOk, Unquote, ValueWith;
  }

  /** The scalar kinds of a `google.protobuf.Value`. */
  lemma ScalarValueReturns(sc: Schema, allow: bool, o: Options, w: nat, x: Value, indent: string)
    requires w < 4
    requires w == 0 ==> x.EnumV?
    requires w == 1 ==> GoodScalar(sc, DoubleKind, x)
    requires w == 2 ==> x.StrV?
    requires w == 3 ==> x.BoolV?
    ensures Returns(sc, allow, VALUE, SingularJson(sc, o, VALUE_FIELDS[w].kind, x, indent),
                    Settled(sc, o, VALUE, ValueWith(w, x)))
  {
    hide IsJsonNumber, RawOk, Unquote, GoodScalar, SettledNumber;
    if w == 1 {
      NumberValueReturns(sc, allow, o, x, indent);
    } else if w == 2 {
      UnquoteQuote(x.s);
      QuoteRawOk(x.s);
    }
  }

  /** Its message kinds: an array is a list, an object a struct. */
  lemma NestedValueReturns(sc: Schema, allow: bool, w: nat, r: Result<Json, EncodeError>, x: Value)
    requires w in {4, 5} && Returns(sc, allow, if w == 4 then STRUCT else LIST_VALUE, r, x)
    requires if w == 4 then r.value.Obj? else r.value.Arr?
    ensures Returns(sc, allow, VALUE, r, ValueWith(w, x))
  {
    hide Well, DecodeMap, DecodeList;
    var j := Compact(r.value);
    assert DecodeMessage(sc, allow, VALUE, j) ==
           match DecodeMessage(sc, allow, if w == 4 then STRUCT else LIST_VALUE, j)
           case Ok(y) => Ok(ValueWith(w, y))
           case Err(e) => Err(e);
  }

  /** A struct or a list is its one field. */
  lemma SoleFieldReturns(sc: Schema, allow: bool, o: Options, name: string, v: Value, back: Option<Value>, indent: string)
    requires name in {STRUCT, LIST_VALUE} && v.MsgV? && |v.slots| == 1
    requires var fd := if name == STRUCT then STRUCT_FIELDS[0] else LIST_VALUE_FIELDS[0];
             FieldReturns(sc, allow, fd, FieldJson(sc, o, fd, v.slots[0], indent), back)
             && (back.Some? ==> !IsZero(back.value))
    ensures var r := MessageJson(sc, o, name, v, indent);
            && Returns(sc, allow, name, r, MsgV([back]))
            && if name == STRUCT then r.value.Obj? else r.value.Arr?
  {
    hide Well, DecodeMap, DecodeList, IsZero, ItemsJson, EntriesJson;
  }

  // ----- the induction -----

  lemma {:induction false} MessageTrip(sc: Schema, allow: bool, o: Options, name: string, v: Value, indent: string)
    requires Good(sc, name, v) && Spaced(o, indent)
    ensures Returns(sc, allow, name, MessageJson(sc, o, name, v, indent), Settled(sc, o, name, v))
    decreases v, 4, 0
  {
    hide Returns, MessageJson, FieldReturns, FieldJson, GoodSlot, Spaced;
    match WellKnownOf(name)
    case Ordinary =>
      var fds, back := FieldsOf(sc, name).value, Settled(sc, o, name, v).slots;
      forall k | 0 <= k < |fds|
        ensures if Shown(fds, v.slots, o.emitDefaults, k)
                then FieldReturns(sc, allow, fds[k], FieldJson(sc, o, fds[k], v.slots[k], indent), back[k])
                else back[k].None?
        ensures back[k].Some? ==> HasPresence(fds[k]) || !IsZero(back[k].value)
      {
        SettledNotZero(sc, o, fds[k], v.slots[k]);
        if v.slots[k].Some? {
          SlotTrip(sc, allow, o, fds[k], v.slots[k], indent);
        } else if Shown(fds, v.slots, o.emitDefaults, k) {
          SpacedParts(o, indent);
          DefaultReturns(sc, allow, o, fds[k], indent);
        }
      }
      OrdinaryReturns(sc, allow, o, name, fds, v, back, indent);
    case Wrapper(_) => WrapperReturns(sc, allow, o, name, v, indent);
    case DurationType => DurationReturns(sc, allow, o, v, indent);
    case ValueType => ValueTrip(sc, allow, o, v, indent);
    case StructType => SoleFieldTrip(sc, allow, o, STRUCT, v, indent);
    case ListValueType => SoleFieldTrip(sc, allow, o, LIST_VALUE, v, indent);
    case NotModelled =>
  }

  lemma {:induction false} SoleFieldTrip(sc: Schema, allow: bool, o: Options, name: string, v: Value, indent: string)
    requires name in {STRUCT, LIST_VALUE} && Good(sc, name, v) && Spaced(o, indent)
    ensures var r := MessageJson(sc, o, name, v, indent);
            && Returns(sc, allow, name, r, Settled(sc, o, name, v))
            && if name == STRUCT then r.value.Obj? else r.value.Arr?
    decreases v, 3, 0
  {
    hide Returns, MessageJson, FieldReturns, FieldJson, GoodSlot, Spaced;
    var fd := if name == STRUCT then STRUCT_FIELDS[0] else LIST_VALUE_FIELDS[0];
    if v.slots[0].Some? {
      SlotTrip(sc, allow, o, fd, v.slots[0], indent);
    } else {
      SpacedParts(o, indent);
      DefaultReturns(sc, allow, o, fd, indent);
    }
    SettledNotZero(sc, o, fd, v.slots[0]);
    SoleFieldReturns(sc, allow, o, name, v, SettledSlot(sc, o, fd, v.slots[0]), indent);
  }

  lemma {:induction false} ValueTrip(sc: Schema, allow: bool, o: Options, v: Value, indent: string)
    requires Good(sc, VALUE, v) && Spaced(o, indent)
    ensures Returns(sc, allow, VALUE, MessageJson(sc, o, VALUE, v, indent), Settled(sc, o, VALUE, v))
    decreases v, 3, 0
  {
    hide Returns, Spaced, ScalarJson;
    WhichIs(VALUE_FIELDS, v.slots, 0, 0);
    var i :| 0 <= i < 6 && v.slots[i].Some?;
    assert VALUE_FIELDS[i].oneof == Some(0);
    var w := WhichOneof(VALUE_FIELDS, v.slots, 0, 0).value;
    var x := v.slots[w].value;
    ValueIsWith(v, w);
    if w < 4 {
      ScalarValueReturns(sc, allow, o, w, x, indent);
    } else {
      var name := if w == 4 then STRUCT else LIST_VALUE;
      SpacedParts(o, indent);
      SoleFieldTrip(sc, allow, o, name, x, indent + o.indent);
      NestedValueReturns(sc, allow, w, MessageJson(sc, o, name, x, indent + o.indent), Settled(sc, o, name, x));
    }
  }

  lemma {:induction false} SingularTrip(sc: Schema, allow: bool, o: Options, kind: Kind, v: Value, indent: string)
    requires GoodSingular(sc, kind, v) && Spaced(o, indent)
    ensures SingularReturns(sc, allow, kind, SingularJson(sc, o, kind, v, indent), SettledSingular(sc, o, kind, v))
    decreases v, 5, 0
  {
    hide Good, Spaced, MessageJson, ScalarJson, GoodScalar, Well, DecodeMessage, DecodeScalar;
    if kind.MessageKind? {
      SpacedParts(o, indent);
      MessageTrip(sc, allow, o, kind.message, v, indent + o.indent);
    } else {
      ScalarSingular(sc, allow, o, kind, v);
    }
  }

  /** A populated field reads back. */
  lemma {:induction false} SlotTrip(sc: Schema, allow: bool, o: Options, fd: Field, slot: Option<Value>, indent: string)
    requires GoodSlot(sc, fd, slot) && slot.Some? && Spaced(o, indent)
    ensures FieldReturns(sc, allow, fd, FieldJson(sc, o, fd, slot, indent), SettledSlot(sc, o, fd, slot))
    decreases slot, 6, 0
  {
    hide Spaced, GoodSingular, SingularReturns, FieldReturns, SingularJson, SettledSingular, ItemsJson, EntriesJson, GoodKey,
         NewLine, IsZero, HasPresence, SettledElems, SettledEntries, SortedKeys;
    match fd.card
    case Repeated => ListTrip(sc, allow, o, fd, slot.value, indent);
    case MapWith(_) => MapTrip(sc, allow, o, fd, slot.value, indent);
    case Singular =>
      SingularTrip(sc, allow, o, fd.kind, slot.value, indent);
      SingularIsField(sc, allow, fd, SingularJson(sc, o, fd.kind, slot.value, indent),
                      SettledSingular(sc, o, fd.kind, slot.value));
  }

  lemma {:induction false} ListTrip(sc: Schema, allow: bool, o: Options, fd: Field, v: Value, indent: string)
    requires fd.card.Repeated? && v.ListV? && Spaced(o, indent)
    requires forall i :: 0 <= i < |v.elems| ==> GoodSingular(sc, fd.kind, v.elems[i])
    ensures var items := ItemsJson(sc, o, fd.kind, v.elems, indent);
            && items.Ok?
            && FieldReturns(sc, allow, fd, Ok(Arr(items.value, NewLine(o, indent + o.indent))),
                            Some(ListV(SettledElems(sc, o, fd.kind, v.elems))))
    decreases v, 6, 0
  {
    hide Spaced, GoodSingular, FieldReturns, ItemsJson, NewLine, SettledElems, WellItems, DecodeItems, CompactItems;
    SpacedParts(o, indent);
    ItemsTrip(sc, allow, o, fd.kind, v.elems, indent);
    ListReturns(sc, allow, fd, ItemsJson(sc, o, fd.kind, v.elems, indent), SettledElems(sc, o, fd.kind, v.elems),
                NewLine(o, indent + o.indent));
  }

  lemma {:induction false} MapTrip(sc: Schema, allow: bool, o: Options, fd: Field, v: Value, indent: string)
    requires fd.card.MapWith? && v.MapV? && Spaced(o, indent)
    requires forall k :: k in v.entries ==> GoodKey(fd.card.key, k) && GoodSingular(sc, fd.kind, v.entries[k])
    ensures var members := EntriesJson(sc, o, fd.kind, v, SortedKeys(v.entries.Keys), indent);
            && members.Ok?
            && FieldReturns(sc, allow, fd, Ok(Obj(members.value, NewLine(o, indent + o.indent))),
                            Some(MapV(SettledEntries(sc, o, fd.kind, v))))
    decreases v, 6, 0
  {
    hide Spaced, GoodSingular, FieldReturns, EntriesJson, GoodKey, NewLine, SettledSingular, EntriesReturn;
    SpacedParts(o, indent);
    var ks, back := SortedKeys(v.entries.Keys), SettledEntries(sc, o, fd.kind, v);
    SortedKeysDiffer(v.entries.Keys);
    EntriesTrip(sc, allow, o, fd.card.key, fd.kind, v, ks, indent);
    assert (map k | k in ks :: back[k]) == back;
    var members := EntriesJson(sc, o, fd.kind, v, ks, indent);
    MapReturns(sc, allow, fd, members, ks, back, NewLine(o, indent + o.indent));
  }

  lemma SingularIsField(sc: Schema, allow: bool, fd: Field, r: Result<Json, EncodeError>, v: Value)
    requires fd.card.Singular? && SingularReturns(sc, allow, fd.kind, r, v)
    ensures FieldReturns(sc, allow, fd, r, Some(v))
  {
    hide Well, DecodeSingular;
  }

  lemma ListReturns(sc: Schema, allow: bool, fd: Field, r: Result<seq<Item>, EncodeError>, elems: seq<Value>, close: string)
    requires fd.card.Repeated? && ItemsReturn(sc, allow, fd.kind, r, elems) && AllSpace(close)
    ensures r.Ok? && FieldReturns(sc, allow, fd, Ok(Arr(r.value, close)), Some(ListV(elems)))
  {
    hide WellItems, DecodeItems, CompactItems, AllSpace;
    var j := Arr(CompactItems(r.value), "");
    assert Compact(Arr(r.value, close)) == j;
    assert DecodeList(sc, allow, fd.kind, j) == Ok(ListV(elems));
    assert DecodeField(sc, allow, fd, j) == DecodeList(sc, allow, fd.kind, j);
  }

  lemma MapReturns(sc: Schema, allow: bool, fd: Field, r: Result<seq<Member>, EncodeError>, ks: seq<MapKey>,
                   m: map<MapKey, Value>, close: string)
    requires fd.card.MapWith? && EntriesReturn(sc, allow, fd.card.key, fd.kind, r, ks, m) && AllSpace(close)
    ensures r.Ok? && FieldReturns(sc, allow, fd, Ok(Obj(r.value, close)), Some(MapV(m)))
  {
    hide WellMembers, DecodeEntries, CompactMembers, AllSpace, Unquote;
    var j := Obj(CompactMembers(r.value), "");
    assert Compact(Obj(r.value, close)) == j;
    assert DecodeMap(sc, allow, fd.card.key, fd.kind, j) == Ok(MapV(m));
    assert DecodeField(sc, allow, fd, j) == DecodeMap(sc, allow, fd.card.key, fd.kind, j);
  }

  lemma {:induction false} ItemsTrip(sc: Schema, allow: bool, o: Options, kind: Kind, elems: seq<Value>, indent: string)
    requires Spaced(o, indent) && forall i :: 0 <= i < |elems| ==> GoodSingular(sc, kind, elems[i])
    ensures ItemsReturn(sc, allow, kind, ItemsJson(sc, o, kind, elems, indent), SettledElems(sc, o, kind, elems))
    decreases elems, 0, 0
  {
    if elems != [] {
      hide Spaced, GoodSingular, SingularReturns, SingularJson, NewLine, ItemsReturn, AllSpace;
      SpacedParts(o, indent);
      var more := ItemsJson(sc, o, kind, elems[1..], indent);
      SingularTrip(sc, allow, o, kind, elems[0], indent + o.indent);
      ItemsTrip(sc, allow, o, kind, elems[1..], indent);
      var value := SingularJson(sc, o, kind, elems[0], indent + o.indent);
      var back, others := SettledSingular(sc, o, kind, elems[0]), SettledElems(sc, o, kind, elems[1..]);
      ReturnsAreOk(sc, allow, kind, value, back, more, others);
      ItemsCons(sc, allow, kind, Item(NewLine(o, indent + o.indent + o.indent), value.value), more.value, back, others);
    }
  }

  lemma ReturnsAreOk(sc: Schema, allow: bool, kind: Kind, r: Result<Json, EncodeError>, v: Value,
                     more: Result<seq<Item>, EncodeError>, elems: seq<Value>)
    requires SingularReturns(sc, allow, kind, r, v) && ItemsReturn(sc, allow, kind, more, elems)
    ensures r.Ok? && more.Ok?
  {}

  lemma {:induction false} EntriesTrip(sc: Schema, allow: bool, o: Options, key: Kind, kind: Kind, v: Value, ks: seq<MapKey>,
                                       indent: string)
    requires v.MapV? && Spaced(o, indent) && forall k :: k in ks ==> k in v.entries
    requires forall k :: k in v.entries ==> GoodKey(key, k) && GoodSingular(sc, kind, v.entries[k])
    requires forall i, j :: 0 <= i < j < |ks| ==> ks[i] != ks[j]
    ensures var back := SettledEntries(sc, o, kind, v);
            EntriesReturn(sc, allow, key, kind, EntriesJson(sc, o, kind, v, ks, indent), ks, map k | k in ks :: back[k])
    decreases v, 0, |ks|
  {
    hide Spaced, GoodSingular, SingularReturns, SingularJson, SettledSingular, NewLine, EntriesReturn, AllSpace, AfterColon,
         KeyText, GoodKey, Quote;
    if ks == [] {
      NoEntriesReturn(sc, allow, key, kind);
    } else {
      SpacedParts(o, indent);
      var k, rest := ks[0], ks[1..];
      assert k in ks;
      forall i | 0 <= i < |rest| ensures rest[i] == ks[i + 1] && rest[i] in ks && rest[i] != k {}
      SingularTrip(sc, allow, o, kind, v.entries[k], indent + o.indent);
      EntriesTrip(sc, allow, o, key, kind, v, rest, indent);
      EntriesStep(sc, allow, o, key, kind, v, SettledEntries(sc, o, kind, v), ks, indent);
    }
  }

  lemma NoEntriesReturn(sc: Schema, allow: bool, key: Kind, kind: Kind)
    ensures EntriesReturn(sc, allow, key, kind, Ok([]), [], map[])
  {
    hide Unquote, DecodeKey, DecodeSingular;
  }

  lemma EntriesStep(sc: Schema, allow: bool, o: Options, key: Kind, kind: Kind, v: Value, back: map<MapKey, Value>,
                    ks: seq<MapKey>, indent: string)
    requires v.MapV? && ks != [] && Spaced(o, indent) && forall k :: k in ks ==> k in v.entries && GoodKey(key, k)
    requires forall i :: 1 <= i < |ks| ==> ks[i] != ks[0]
    requires back.Keys == v.entries.Keys
    requires SingularReturns(sc, allow, kind, SingularJson(sc, o, kind, v.entries[ks[0]], indent + o.indent), back[ks[0]])
    requires EntriesReturn(sc, allow, key, kind, EntriesJson(sc, o, kind, v, ks[1..], indent), ks[1..],
                           map k | k in ks[1..] :: back[k])
    ensures EntriesReturn(sc, allow, key, kind, EntriesJson(sc, o, kind, v, ks, indent), ks, map k | k in ks :: back[k])
  {
    hide Spaced, SingularReturns, SingularJson, NewLine, EntriesReturn, AllSpace, AfterColon, KeyText, GoodKey, Quote;
    SpacedParts(o, indent);
    var k, rest := ks[0], ks[1..];
    var more := EntriesJson(sc, o, kind, v, rest, indent);
    var m := map x | x in rest :: back[x];
    var value := SingularJson(sc, o, kind, v.entries[k], indent + o.indent);
    EntriesAreOk(sc, allow, key, kind, value, back[k], more, rest, m);
    KeyTextsDiffer(key, ks);
    EntriesCons(sc, allow, key, kind,
                Member(NewLine(o, indent + o.indent + o.indent), Quote(KeyText(k)), AfterColon(o), value.value),
                more.value, k, rest, back[k], m);
    assert [k] + rest == ks;
    MapCons(back, ks);
  }

  lemma MapCons(m: map<MapKey, Value>, ks: seq<MapKey>)
    requires ks != [] && forall k :: k in ks ==> k in m
    ensures (map[ks[0] := m[ks[0]]] + map x | x in ks[1..] :: m[x]) == map x | x in ks :: m[x]
  {
    assert ks == [ks[0]] + ks[1..];
  }

  lemma KeyTextsDiffer(key: Kind, ks: seq<MapKey>)
    requires ks != [] && (forall k :: k in ks ==> GoodKey(key, k)) && forall i :: 1 <= i < |ks| ==> ks[i] != ks[0]
    ensures forall i :: 0 <= i < |ks[1..]| ==> KeyText(ks[1..][i]) != KeyText(ks[0])
  {
    hide KeyText, GoodKey;
    forall i | 0 <= i < |ks[1..]| && KeyText(ks[1..][i]) == KeyText(ks[0]) ensures false {
      KeyTextInjective(key, ks[i + 1], ks[0]);
    }
  }

  lemma EntriesAreOk(sc: Schema, allow: bool, key: Kind, kind: Kind, r: Result<Json, EncodeError>, v: Value,
                     more: Result<seq<Member>, EncodeError>, ks: seq<MapKey>, m: map<MapKey, Value>)
    requires SingularReturns(sc, allow, kind, r, v) && EntriesReturn(sc, allow, key, kind, more, ks, m)
    ensures r.Ok? && more.Ok?
  {}

  // ----- the law -----

  /** Every good message marshals, under every setting and every white-space indentation, to a text
      that unmarshals to the settled message. */
  lemma MarshalUnmarshal(sc: Schema, o: Options, allowUnknown: bool, name: string, v: Value)
    requires Good(sc, name, v) && AllSpace(o.indent)
    ensures var text := Marshal(sc, o, name, v);
            text.Ok? && Unmarshal(sc, allowUnknown, name, text.value) == Ok(Settled(sc, o, name, v))
  {
    hide Good, Settled, MessageJson, DecodeMessage, Well, Compact, Read, Text;
    MessageTrip(sc, allowUnknown, o, name, v, "");
    ReadText(MessageJson(sc, o, name, v, "").value);
  }

  /** It comes back as it was exactly when it is one of the kept messages. */
  lemma RoundTripExact(sc: Schema, o: Options, allowUnknown: bool, name: string, v: Value)
    requires Good(sc, name, v) && AllSpace(o.indent)
    ensures var text := Marshal(sc, o, name, v);
            text.Ok? && (Unmarshal(sc, allowUnknown, name, text.value) == Ok(v) <==> Kept(sc, o, name, v))
  {
    hide Good, Settled, Kept, Marshal, Unmarshal;
    MarshalUnmarshal(sc, o, allowUnknown, name, v);
    SettledIsKept(sc, o, name, v);
  }

  function DurationOf(s: int, ns: int): Value {
    MsgV([Stored(DURATION_FIELDS[0], IntV(s)), Stored(DURATION_FIELDS[1], IntV(ns))])
  }

  /** A duration is written exactly when it is in range, and its text is read back when 64 bits of
      nanoseconds hold it, and refused, never altered, otherwise. */
  lemma DurationExact(sc: Schema, o: Options, allowUnknown: bool, s: int, ns: int)
    requires AllSpace(o.indent)
    ensures var text := Marshal(sc, o, DURATION, DurationOf(s, ns));
            var fits := Duration.InParseRange(s * Duration.SECOND + ns);
            && (text.Ok? <==> Duration.Accepted(s, ns))
            && (text.Ok? ==>
                  Unmarshal(sc, allowUnknown, DURATION, text.value) == if fits then Ok(DurationOf(s, ns)) else Err(BadValue))
  {
    hide DecodeDuration, Well, Read, Text, Duration.Print;
    if Duration.Accepted(s, ns) {
      DurationReads(s, ns);
      ReadText(Str(Duration.Print(s, ns).value));
    }
  }
}
