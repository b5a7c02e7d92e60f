/** The reader object that fills a fresh message (`Common/jsonpb/decode.go`). */
module JsonUnmarshaler {
  import opened Decode
  import opened JsonReader
  import opened JsonText
  import opened ProtoSchema
  import opened ReaderFields
  import opened Results

  ghost function Prepend<T>(done: seq<T>, r: Result<seq<T>, DecodeError>): Result<seq<T>, DecodeError> {
    if r.Err? then r else Ok(done + r.value)
  }

  ghost function Merge(done: map<MapKey, Value>, r: Result<map<MapKey, Value>, DecodeError>)
    : Result<map<MapKey, Value>, DecodeError>
  {
    if r.Err? then r else Ok(done + r.value)
  }

  lemma MergeNone(r: Result<map<MapKey, Value>, DecodeError>)
    ensures Merge(map[], r) == r
  {
    assert r.Ok? ==> map[] + r.value == r.value;
  }

  lemma MergeOne(done: map<MapKey, Value>, k: MapKey, v: Value, more: Result<map<MapKey, Value>, DecodeError>)
    ensures Merge(done, if more.Err? then more else Ok(map[k := v] + more.value)) == Merge(done[k := v], more)
  {
    assert more.Ok? ==> done + (map[k := v] + more.value) == done[k := v] + more.value;
  }

  lemma NoEntries(sc: Schema, allowUnknown: bool, key: Kind, kind: Kind, done: map<MapKey, Value>)
    ensures Merge(done, DecodeEntries(sc, allowUnknown, key, kind, [])) == Ok(done)
  {
    hide DecodeSingular, DecodeKey, ObjectOf, Unquote;
    assert done + map[] == done;
  }

  /** One turn of the map loop: what is still to come from entry `i` on, in terms of what is still
      to come after it. */
  lemma EntryStep(sc: Schema, allowUnknown: bool, key: Kind, kind: Kind, members: seq<Member>, i: nat,
                  done: map<MapKey, Value>)
    requires i < |members| && KeysOk(members[i..])
    ensures KeysOk(members[i + 1..]) && Unquote(members[i].key).Some?
    ensures Merge(done, DecodeEntries(sc, allowUnknown, key, kind, members[i..]))
            == var name := Unquote(members[i].key).value;
               var k, v := DecodeKey(key, name), DecodeSingular(sc, allowUnknown, kind, members[i].value);
               var more := DecodeEntries(sc, allowUnknown, key, kind, members[i + 1..]);
               if name in ObjectOf(members[i + 1..]) then Merge(done, more)
               else if k.Err? then Err(k.error)
               else if v.Err? then Err(v.error)
               else Merge(done[k.value := v.value], more)
  {
    hide DecodeEntries, DecodeSingular, DecodeKey, KeysOk, ObjectOf, Unquote;
    var rest := members[i..];
    assert rest[0] == members[i] && rest[1..] == members[i + 1..];
    EntriesUnfold(sc, allowUnknown, key, kind, rest);
    var k, v := DecodeKey(key, Unquote(rest[0].key).value), DecodeSingular(sc, allowUnknown, kind, rest[0].value);
    if k.Ok? && v.Ok? {
      MergeOne(done, k.value, v.value, DecodeEntries(sc, allowUnknown, key, kind, rest[1..]));
    }
  }

  lemma PrependNone(r: Result<seq<Value>, DecodeError>)
    ensures Prepend([], r) == r
  {
    assert r.Ok? ==> [] + r.value == r.value;
  }

  lemma NoItems(sc: Schema, allowUnknown: bool, kind: Kind, done: seq<Value>)
    ensures Prepend(done, DecodeItems(sc, allowUnknown, kind, [])) == Ok(done)
  {
    hide DecodeSingular;
    assert done + [] == done;
  }

  /** One turn of the list loop. */
  lemma ItemStep(sc: Schema, allowUnknown: bool, kind: Kind, items: seq<Item>, i: nat, done: seq<Value>)
    requires i < |items|
    ensures Prepend(done, DecodeItems(sc, allowUnknown, kind, items[i..]))
            == var v := DecodeSingular(sc, allowUnknown, kind, items[i].value);
               if v.Err? then Err(v.error)
               else Prepend(done + [v.value], DecodeItems(sc, allowUnknown, kind, items[i + 1..]))
  {
    hide DecodeSingular;
    var rest := items[i..];
    assert rest[0] == items[i] && rest[1..] == items[i + 1..];
    var v := DecodeSingular(sc, allowUnknown, kind, rest[0].value);
    var more := DecodeItems(sc, allowUnknown, kind, rest[1..]);
    assert v.Ok? && more.Ok? ==> done + ([v.value] + more.value) == (done + [v.value]) + more.value;
  }

  class Unmarshaler {
    const sc: Schema
    const AllowUnknownFields: bool

    constructor (sc: Schema, allowUnknownFields: bool)
      ensures this.sc == sc && AllowUnknownFields == allowUnknownFields
    {
      this.sc, AllowUnknownFields := sc, allowUnknownFields;
    }

    method UnmarshalMessage(name: string, j: Json) returns (r: Result<Value, DecodeError>)
      ensures r == DecodeMessage(sc, AllowUnknownFields, name, j)
      decreases j, if name == VALUE then 6 else 5, 0
    {
      hide DecodeScalar, DecodeDuration, DecodeMap, DecodeList, DecodeFields, UnquoteString;
      var fds := FieldsOf(sc, name);
      if fds.None? {
        return Err(Malformed);
      }
      if j == NULL && name != VALUE {
        return Ok(EmptyMessage(fds.value));
      }
      match WellKnownOf(name)
      case Wrapper(kind) =>
        var v := DecodeScalar(sc, kind, j);
        r := if v.Err? then v else Ok(MsgV([Stored(fds.value[0], v.value)]));
      case DurationType => r := DecodeDuration(j);
      case ValueType => r := UnmarshalKind(j);
      case StructType =>
        var v := UnmarshalMap(StringKind, MessageKind(VALUE), j);
        r := if v.Err? then v else Ok(MsgV([Stored(STRUCT_FIELDS[0], v.value)]));
      case ListValueType =>
        var v := UnmarshalList(MessageKind(VALUE), j);
        r := if v.Err? then v else Ok(MsgV([Stored(LIST_VALUE_FIELDS[0], v.value)]));
      case Ordinary => r := UnmarshalFields(fds.value, j);
      case NotModelled => r := Err(Malformed);
    }

    /** The kind of a `google.protobuf.Value` shows in its text. */
    method UnmarshalKind(j: Json) returns (r: Result<Value, DecodeError>)
      ensures r == DecodeMessage(sc, AllowUnknownFields, VALUE, j)
      decreases j, 5, 1
    {
      hide DecodeMap, DecodeList;
      match j
      case Atom(text) =>
        if text == "null" {
          r := Ok(ValueWith(0, EnumV(0)));
        } else if text == "true" {
          r := Ok(ValueWith(3, BoolV(true)));
        } else if text == "false" {
          r := Ok(ValueWith(3, BoolV(false)));
        } else if IsJsonNumber(text) {
          r := Ok(ValueWith(1, NumV(Finite(text))));
        } else {
          r := Err(BadValue);
        }
      case Str(_) =>
        var s := UnquoteString(j);
        r := if s.Err? then Err(s.error) else Ok(ValueWith(2, StrV(s.value)));
      case Arr(_, _) =>
        var v := UnmarshalMessage(LIST_VALUE, j);
        r := if v.Err? then v else Ok(ValueWith(5, v.value));
      case Obj(_, _) =>
        var v := UnmarshalMessage(STRUCT, j);
        r := if v.Err? then v else Ok(ValueWith(4, v.value));
    }

    /** The known-field loop, which takes the names it knows out of the object, and the check for
        the names left over. */
    method UnmarshalFields(fds: seq<Field>, j: Json) returns (r: Result<Value, DecodeError>)
      ensures r == if !j.Obj? || !KeysOk(j.members) then Err(Malformed)
                   else DecodeFields(sc, AllowUnknownFields, fds, j, Unwrap(j.members, j.close), 0, EmptyMessage(fds).slots)
      decreases j, 4, 0
    {
      hide DecodeField, DecodeFields, KeysOk, SetSlot, IsSingularValue;
      if !j.Obj? || !KeysOk(j.members) {
        return Err(Malformed);
      }
      var jsonObject := Unwrap(j.members, j.close);
      var slots := EmptyMessage(fds).slots;
      ghost var all := DecodeFields(sc, AllowUnknownFields, fds, j, jsonObject, 0, slots);
      for i := 0 to |fds|
        invariant |slots| == |fds| && forall k :: k in jsonObject ==> jsonObject[k] < j
        invariant DecodeFields(sc, AllowUnknownFields, fds, j, jsonObject, i, slots) == all
      {
        FieldStep(sc, AllowUnknownFields, fds, j, jsonObject, i, slots);
        var fd := fds[i];
        ghost var before := jsonObject;
        var raw: Option<Json> := None;
        if fd.name in jsonObject {
          raw := Some(jsonObject[fd.name]);
          jsonObject := jsonObject - {fd.name};
        }
        if fd.jsonName in jsonObject {
          raw := Some(jsonObject[fd.jsonName]);
          jsonObject := jsonObject - {fd.jsonName};
        }
        assert jsonObject == before - {fd.name, fd.jsonName};
        assert raw == RawOf(before, fd);
        if raw.None? || (raw.value == NULL && !IsSingularValue(fd)) {
          continue;
        }
        var v := UnmarshalValue(fd, raw.value);
        if v.Err? {
          return v;
        }
        slots := SetSlot(fds, slots, i, v.value);
      }
      NoFields(sc, AllowUnknownFields, fds, j, jsonObject, slots);
      if !AllowUnknownFields && |jsonObject| > 0 {
        return Err(UnknownField);
      }
      return Ok(MsgV(slots));
    }

    method UnmarshalValue(fd: Field, j: Json) returns (r: Result<Value, DecodeError>)
      ensures r == DecodeField(sc, AllowUnknownFields, fd, j)
      decreases j, 9, 0
    {
      hide DecodeList, DecodeMap, DecodeSingular;
      match fd.card
      case Repeated => r := UnmarshalList(fd.kind, j);
      case MapWith(key) => r := UnmarshalMap(key, fd.kind, j);
      case Singular => r := UnmarshalSingularValue(fd.kind, j);
    }

    method UnmarshalSingularValue(kind: Kind, j: Json) returns (r: Result<Value, DecodeError>)
      ensures r == DecodeSingular(sc, AllowUnknownFields, kind, j)
      decreases j, 8, 0
    {
      hide DecodeMessage, DecodeScalar;
      if kind.MessageKind? {
        r := UnmarshalMessage(kind.message, j);
      } else {
        r := DecodeScalar(sc, kind, j);
      }
    }

    method UnmarshalList(kind: Kind, j: Json) returns (r: Result<Value, DecodeError>)
      ensures r == DecodeList(sc, AllowUnknownFields, kind, j)
      decreases j, 3, 0
    {
      hide DecodeItems;
      if j == NULL {
        return Ok(ListV([]));
      }
      if !j.Arr? {
        return Err(BadValue);
      }
      var lv := UnmarshalItems(kind, j.items);
      r := if lv.Err? then Err(lv.error) else Ok(ListV(lv.value));
    }

    method UnmarshalItems(kind: Kind, items: seq<Item>) returns (r: Result<seq<Value>, DecodeError>)
      ensures r == DecodeItems(sc, AllowUnknownFields, kind, items)
      decreases items, 0, 0
    {
      hide DecodeItems, DecodeSingular, Prepend;
      var lv: seq<Value> := [];
      ghost var all := DecodeItems(sc, AllowUnknownFields, kind, items);
      assert items[0..] == items;
      PrependNone(all);
      for i := 0 to |items|
        invariant Prepend(lv, DecodeItems(sc, AllowUnknownFields, kind, items[i..])) == all
      {
        ItemStep(sc, AllowUnknownFields, kind, items, i, lv);
        var ve := UnmarshalSingularValue(kind, items[i].value);
        if ve.Err? {
          return Err(ve.error);
        }
        lv := lv + [ve.value];
      }
      assert items[|items|..] == [];
      NoItems(sc, AllowUnknownFields, kind, lv);
      return Ok(lv);
    }

    method UnmarshalMap(key: Kind, kind: Kind, j: Json) returns (r: Result<Value, DecodeError>)
      ensures r == DecodeMap(sc, AllowUnknownFields, key, kind, j)
      decreases j, 3, 0
    {
      hide DecodeEntries;
      if j == NULL {
        return Ok(MapV(map[]));
      }
      if !j.Obj? || !KeysOk(j.members) {
        return Err(BadValue);
      }
      var mv := UnmarshalEntries(key, kind, j.members);
      r := if mv.Err? then Err(mv.error) else Ok(MapV(mv.value));
    }

    /** The loop over an object that stands for a map; of the entries of one name the last counts. */
    method UnmarshalEntries(key: Kind, kind: Kind, members: seq<Member>)
      returns (r: Result<map<MapKey, Value>, DecodeError>)
      requires KeysOk(members)
      ensures r == DecodeEntries(sc, AllowUnknownFields, key, kind, members)
      decreases members, 0, 0
    {
      hide DecodeEntries, DecodeSingular, DecodeKey, KeysOk, Merge, ObjectOf, Unquote;
      var mv: map<MapKey, Value> := map[];
      ghost var all := DecodeEntries(sc, AllowUnknownFields, key, kind, members);
      assert members[0..] == members;
      MergeNone(all);
      for i := 0 to |members|
        invariant KeysOk(members[i..])
        invariant Merge(mv, DecodeEntries(sc, AllowUnknownFields, key, kind, members[i..])) == all
      {
        EntryStep(sc, AllowUnknownFields, key, kind, members, i, mv);
        var name := Unquote(members[i].key).value;
        if name in ObjectOf(members[i + 1..]) {
          continue;
        }
        var kv := DecodeKey(key, name);
        if kv.Err? {
          return Err(kv.error);
        }
        var vv := UnmarshalSingularValue(kind, members[i].value);
        if vv.Err? {
          return Err(vv.error);
        }
        mv := mv[kv.value := vv.value];
      }
      assert members[|members|..] == [];
      NoEntries(sc, AllowUnknownFields, key, kind, mv);
      return Ok(mv);
    }
  }

  /** `UnmarshalString` into a fresh message. */
  method UnmarshalString(sc: Schema, allowUnknownFields: bool, name: string, text: string)
    returns (r: Result<Value, DecodeError>)
    ensures r == Unmarshal(sc, allowUnknownFields, name, text)
  {
    hide DecodeMessage;
    var j := Read(text);
    if j.None? {
      return Err(Malformed);
    }
    var u := new Unmarshaler(sc, allowUnknownFields);
    r := u.UnmarshalMessage(name, j.value);
  }
}
