/** The order of the members of objects, at every depth, does not matter to the reader
    (`Common/jsonpb/decode.go`), where it does not matter to any map in its place. */
module ReaderOrder {
  import opened Decode
  import opened JsonText
  import opened MapEntries
  import opened ProtoSchema
  import opened ReaderFields
  import opened Results

  /** The same value up to white space and the order of members. Within an object names differ. */
  ghost predicate Alike(j: Json, j': Json)
    decreases j
  {
    match j
    case Atom(_) => j' == j
    case Str(_) => j' == j
    case Arr(items, _) =>
      && j'.Arr? && |items| == |j'.items|
      && forall i :: 0 <= i < |items| ==> Alike(items[i].value, j'.items[i].value)
    case Obj(members, _) =>
      && j'.Obj? && SameNames(members, j'.members)
      && forall i, k :: 0 <= i < |members| && 0 <= k < |j'.members| && SameName(members[i], j'.members[k]) ==>
           Alike(members[i].value, j'.members[k].value)
  }

  ghost predicate SameNames(members: seq<Member>, others: seq<Member>) {
    && KeysOk(members) && NamesDiffer(members) && KeysOk(others) && NamesDiffer(others)
    && (forall i :: 0 <= i < |members| ==> HasName(others, members[i]))
    && (forall k :: 0 <= k < |others| ==> HasName(members, others[k]))
  }

  predicate SameName(m: Member, m': Member) {
    Unquote(m.key) == Unquote(m'.key)
  }

  ghost predicate HasName(members: seq<Member>, m: Member) {
    exists i :: 0 <= i < |members| && SameName(m, members[i])
  }

  // ----- where order does not matter -----

  /** Read as a message of this type, every object that stands for a map is one whose order does not
      matter. */
  ghost predicate MessageClear(sc: Schema, allow: bool, name: string, j: Json)
    decreases j, if name == VALUE then 6 else 5
  {
    match WellKnownOf(name)
    case ValueType =>
      (j.Arr? ==> MessageClear(sc, allow, LIST_VALUE, j)) && (j.Obj? ==> MessageClear(sc, allow, STRUCT, j))
    case StructType => MapClear(sc, allow, StringKind, MessageKind(VALUE), j)
    case ListValueType => ListClear(sc, allow, MessageKind(VALUE), j)
    case Ordinary =>
      FieldsOf(sc, name).Some? && j.Obj? ==>
        forall i, f :: 0 <= i < |j.members| && 0 <= f < |FieldsOf(sc, name).value|
                       && Names(FieldsOf(sc, name).value[f], j.members[i]) ==>
          FieldClear(sc, allow, FieldsOf(sc, name).value[f], j.members[i].value)
    case Wrapper(_) => true
    case DurationType => true
    case NotModelled => true
  }

  predicate Names(fd: Field, m: Member) {
    Unquote(m.key) in {Some(fd.name), Some(fd.jsonName)}
  }

  ghost predicate FieldClear(sc: Schema, allow: bool, fd: Field, j: Json)
    decreases j, 9
  {
    match fd.card
    case Repeated => ListClear(sc, allow, fd.kind, j)
    case MapWith(key) => MapClear(sc, allow, key, fd.kind, j)
    case Singular => SingularClear(sc, allow, fd.kind, j)
  }

  ghost predicate SingularClear(sc: Schema, allow: bool, kind: Kind, j: Json)
    decreases j, 8
  {
    kind.MessageKind? ==> MessageClear(sc, allow, kind.message, j)
  }

  ghost predicate ListClear(sc: Schema, allow: bool, kind: Kind, j: Json)
    decreases j, 3
  {
    j.Arr? ==> forall i :: 0 <= i < |j.items| ==> SingularClear(sc, allow, kind, j.items[i].value)
  }

  ghost predicate MapClear(sc: Schema, allow: bool, key: Kind, kind: Kind, j: Json)
    decreases j, 3
  {
    j.Obj? && KeysOk(j.members) ==>
      && Orderless(sc, allow, key, kind, j.members)
      && forall i :: 0 <= i < |j.members| ==> SingularClear(sc, allow, kind, j.members[i].value)
  }

  /** String keys have one spelling: a struct or a string-keyed map needs only clear values. */
  lemma StringKeysClear(sc: Schema, allow: bool, kind: Kind, members: seq<Member>)
    requires KeysOk(members) && NamesDiffer(members)
    ensures Orderless(sc, allow, StringKind, kind, members)
  {
    hide DecodeSingular, Unquote;
  }

  // ----- objects as maps -----

  ghost predicate AlikeObjects(obj: map<string, Json>, obj': map<string, Json>) {
    obj.Keys == obj'.Keys && forall name :: name in obj ==> Alike(obj[name], obj'[name])
  }

  lemma ObjectMember(members: seq<Member>, name: string) returns (i: nat)
    requires KeysOk(members) && NamesDiffer(members) && name in ObjectOf(members)
    ensures i < |members| && Unquote(members[i].key) == Some(name) && ObjectOf(members)[name] == members[i].value
  {
    hide ObjectOf, Unquote, NamesDiffer;
    ObjectKeys(members, name);
    i :| 0 <= i < |members| && Unquote(members[i].key) == Some(name);
    ObjectValues(members, i);
  }

  lemma NameHeld(members: seq<Member>, others: seq<Member>, name: string)
    requires SameNames(members, others) && name in ObjectOf(members)
    ensures name in ObjectOf(others)
    ensures exists i, k :: 0 <= i < |members| && 0 <= k < |others| && SameName(members[i], others[k]) &&
              ObjectOf(members)[name] == members[i].value && ObjectOf(others)[name] == others[k].value
  {
    hide ObjectOf, Unquote, NamesDiffer;
    var i := ObjectMember(members, name);
    var k :| 0 <= k < |others| && SameName(members[i], others[k]);
    ObjectValues(others, k);
  }

  /** What it is for objects to be alike. */
  lemma ObjectAlike(members: seq<Member>, others: seq<Member>, close: string, close': string)
    requires Alike(Obj(members, close), Obj(others, close'))
    ensures SameNames(members, others)
    ensures forall i, k :: 0 <= i < |members| && 0 <= k < |others| && SameName(members[i], others[k]) ==>
              Alike(members[i].value, others[k].value)
  {
    hide SameNames, SameName;
  }

  lemma ObjectsAlike(members: seq<Member>, others: seq<Member>, close: string, close': string)
    requires Alike(Obj(members, close), Obj(others, close'))
    ensures KeysOk(members) && KeysOk(others) && AlikeObjects(ObjectOf(members), ObjectOf(others))
  {
    ObjectAlike(members, others, close, close');
    hide ObjectOf, NamesDiffer, KeysOk, Alike, HasName, SameName;
    SameNamesSwap(members, others);
    forall name | name in ObjectOf(members)
      ensures name in ObjectOf(others) && Alike(ObjectOf(members)[name], ObjectOf(others)[name])
    {
      NameHeld(members, others, name);
    }
    forall name | name in ObjectOf(others) ensures name in ObjectOf(members) {
      NameHeld(others, members, name);
    }
  }

  lemma SameNamesSwap(members: seq<Member>, others: seq<Member>)
    requires SameNames(members, others)
    ensures SameNames(others, members) && KeysOk(members) && KeysOk(others)
  {
    hide NamesDiffer, KeysOk, HasName;
  }

  lemma RawAlike(obj: map<string, Json>, obj': map<string, Json>, fd: Field)
    requires AlikeObjects(obj, obj')
    ensures var raw, raw' := RawOf(obj, fd), RawOf(obj', fd);
            && (raw.Some? <==> raw'.Some?)
            && (raw.Some? ==> Alike(raw.value, raw'.value))
    ensures AlikeObjects(obj - {fd.name, fd.jsonName}, obj' - {fd.name, fd.jsonName})
  {
    hide Alike;
  }

  lemma AtomsAlike(j: Json, j': Json)
    requires Alike(j, j')
    ensures j.Atom? || j.Str? || j'.Atom? || j'.Str? ==> j == j'
  {}

  // ----- the induction -----

  lemma PartsAreNoScalars(sc: Schema, kind: Kind, j: Json)
    requires j.Arr? || j.Obj?
    ensures DecodeScalar(sc, kind, j).Err? && DecodeDuration(j).Err?
  {
    hide Unquote, IsJsonNumber;
  }

  /** Reading any message does not depend on the order of the members of objects, at any depth. */
  lemma {:induction false} MessageAlike(sc: Schema, allow: bool, name: string, j: Json, j': Json)
    requires Alike(j, j') && MessageClear(sc, allow, name, j)
    ensures SameResult(DecodeMessage(sc, allow, name, j), DecodeMessage(sc, allow, name, j'))
    decreases j, if name == VALUE then 6 else 5, 1
  {
    AtomsAlike(j, j');
    if j != j' {
      hide DecodeMessage, Alike, SameResult, MapClear, ListClear, FieldClear;
      ShapesAlike(j, j');
      match WellKnownOf(name)
      case Wrapper(_) => ScalarMessageAlike(sc, allow, name, j, j');
      case DurationType => ScalarMessageAlike(sc, allow, name, j, j');
      case NotModelled => ScalarMessageAlike(sc, allow, name, j, j');
      case ValueType =>
        var nested := if j.Arr? then LIST_VALUE else STRUCT;
        MessageAlike(sc, allow, nested, j, j');
        ValueMessageAlike(sc, allow, nested, j, j');
      case StructType =>
        MapAlike(sc, allow, StringKind, MessageKind(VALUE), j, j');
        PartMessageAlike(sc, allow, name, j, j');
      case ListValueType =>
        ListAlike(sc, allow, MessageKind(VALUE), j, j');
        PartMessageAlike(sc, allow, name, j, j');
      case Ordinary =>
        var fds := FieldsOf(sc, name);
        if fds.Some? && j.Obj? {
          OrdinaryAlike(sc, allow, fds.value, j, j');
        }
        OrdinaryMessageAlike(sc, allow, name, j, j');
    }
  }

  lemma ScalarMessageAlike(sc: Schema, allow: bool, name: string, j: Json, j': Json)
    requires (j.Arr? || j.Obj?) && (j'.Arr? || j'.Obj?)
    requires WellKnownOf(name).Wrapper? || WellKnownOf(name) in {DurationType, NotModelled}
    ensures SameResult(DecodeMessage(sc, allow, name, j), DecodeMessage(sc, allow, name, j'))
  {
    hide DecodeScalar, DecodeDuration, DecodeMap, DecodeList, DecodeFields, Unquote, KeysOk, IsJsonNumber;
    var kind := if WellKnownOf(name).Wrapper? then WellKnownOf(name).kind else BoolKind;
    PartsAreNoScalars(sc, kind, j);
    PartsAreNoScalars(sc, kind, j');
  }

  lemma ValueMessageAlike(sc: Schema, allow: bool, nested: string, j: Json, j': Json)
    requires nested == (if j.Arr? then LIST_VALUE else STRUCT) && ((j.Arr? && j'.Arr?) || (j.Obj? && j'.Obj?))
    requires SameResult(DecodeMessage(sc, allow, nested, j), DecodeMessage(sc, allow, nested, j'))
    ensures SameResult(DecodeMessage(sc, allow, VALUE, j), DecodeMessage(sc, allow, VALUE, j'))
  {
    ValueIsNested(sc, allow, j);
    ValueIsNested(sc, allow, j');
    hide DecodeMessage;
  }

  lemma ValueIsNested(sc: Schema, allow: bool, j: Json)
    requires j.Arr? || j.Obj?
    ensures var v := DecodeMessage(sc, allow, if j.Arr? then LIST_VALUE else STRUCT, j);
            DecodeMessage(sc, allow, VALUE, j) == if v.Err? then v else Ok(ValueWith(if j.Arr? then 5 else 4, v.value))
  {
    hide DecodeMap, DecodeList, ValueWith;
  }

  lemma PartMessageAlike(sc: Schema, allow: bool, name: string, j: Json, j': Json)
    requires name in {STRUCT, LIST_VALUE} && (j.Arr? || j.Obj?) && (j'.Arr? || j'.Obj?)
    requires if name == STRUCT
             then SameResult(DecodeMap(sc, allow, StringKind, MessageKind(VALUE), j),
                             DecodeMap(sc, allow, StringKind, MessageKind(VALUE), j'))
             else SameResult(DecodeList(sc, allow, MessageKind(VALUE), j), DecodeList(sc, allow, MessageKind(VALUE), j'))
    ensures SameResult(DecodeMessage(sc, allow, name, j), DecodeMessage(sc, allow, name, j'))
  {
    hide DecodeMap, DecodeList, Stored;
  }

  lemma OrdinaryMessageAlike(sc: Schema, allow: bool, name: string, j: Json, j': Json)
    requires WellKnownOf(name) == Ordinary && ((j.Arr? && j'.Arr?) || (j.Obj? && j'.Obj?))
    requires FieldsOf(sc, name).Some? && j.Obj? ==>
               && KeysOk(j.members) && KeysOk(j'.members)
               && var fds := FieldsOf(sc, name).value;
               var slots := EmptyMessage(fds).slots;
               SameResult(DecodeFields(sc, allow, fds, j, Unwrap(j.members, j.close), 0, slots),
                          DecodeFields(sc, allow, fds, j', Unwrap(j'.members, j'.close), 0, slots))
    ensures SameResult(DecodeMessage(sc, allow, name, j), DecodeMessage(sc, allow, name, j'))
  {
    hide DecodeFields, KeysOk, ObjectOf;
  }

  ghost predicate MembersClear(sc: Schema, allow: bool, fds: seq<Field>, members: seq<Member>) {
    forall i, f :: 0 <= i < |members| && 0 <= f < |fds| && Names(fds[f], members[i]) ==>
      FieldClear(sc, allow, fds[f], members[i].value)
  }

  /** What each field may find in the object is clear for it. */
  ghost predicate ObjectClear(sc: Schema, allow: bool, fds: seq<Field>, obj: map<string, Json>) {
    forall name, f :: name in obj && 0 <= f < |fds| && name in {fds[f].name, fds[f].jsonName} ==>
      FieldClear(sc, allow, fds[f], obj[name])
  }

  lemma ObjectIsClear(sc: Schema, allow: bool, fds: seq<Field>, members: seq<Member>)
    requires KeysOk(members) && NamesDiffer(members) && MembersClear(sc, allow, fds, members)
    ensures ObjectClear(sc, allow, fds, ObjectOf(members))
  {
    hide FieldClear, ObjectOf, Unquote, NamesDiffer, KeysOk;
    forall name, f | name in ObjectOf(members) && 0 <= f < |fds| && name in {fds[f].name, fds[f].jsonName}
      ensures FieldClear(sc, allow, fds[f], ObjectOf(members)[name])
    {
      var i := ObjectMember(members, name);
      assert Names(fds[f], members[i]);
    }
  }

  lemma RawIsClear(sc: Schema, allow: bool, fds: seq<Field>, obj: map<string, Json>, i: nat)
    requires i < |fds| && ObjectClear(sc, allow, fds, obj)
    ensures RawOf(obj, fds[i]).Some? ==> FieldClear(sc, allow, fds[i], RawOf(obj, fds[i]).value)
    ensures ObjectClear(sc, allow, fds, obj - {fds[i].name, fds[i].jsonName})
  {
    hide FieldClear;
  }

  lemma NamesOfObject(members: seq<Member>, others: seq<Member>, close: string, close': string)
    requires Alike(Obj(members, close), Obj(others, close'))
    ensures KeysOk(members) && NamesDiffer(members)
  {
    ObjectAlike(members, others, close, close');
  }

  lemma {:induction false} OrdinaryAlike(sc: Schema, allow: bool, fds: seq<Field>, j: Json, j': Json)
    requires Alike(j, j') && j.Obj? && j'.Obj? && MembersClear(sc, allow, fds, j.members)
    ensures KeysOk(j.members) && KeysOk(j'.members)
    ensures var slots := EmptyMessage(fds).slots;
            SameResult(DecodeFields(sc, allow, fds, j, Unwrap(j.members, j.close), 0, slots),
                       DecodeFields(sc, allow, fds, j', Unwrap(j'.members, j'.close), 0, slots))
    decreases j, 5, 0
  {
    hide DecodeFields, Alike, KeysOk, ObjectOf, AlikeObjects, SameResult, MembersClear, ObjectClear, NamesDiffer;
    ObjectsAlike(j.members, j'.members, j.close, j'.close);
    NamesOfObject(j.members, j'.members, j.close, j'.close);
    ObjectIsClear(sc, allow, fds, j.members);
    FieldsAlike(sc, allow, fds, j, j', Unwrap(j.members, j.close), Unwrap(j'.members, j'.close), 0, EmptyMessage(fds).slots);
  }

  lemma ShapesAlike(j: Json, j': Json)
    requires Alike(j, j')
    ensures (j.Arr? <==> j'.Arr?) && (j.Obj? <==> j'.Obj?)
  {}

  lemma {:induction false} FieldsAlike(sc: Schema, allow: bool, fds: seq<Field>, j: Json, j': Json, obj: map<string, Json>,
                                       obj': map<string, Json>, i: nat, slots: seq<Option<Value>>)
    requires i <= |fds| == |slots| && AlikeObjects(obj, obj') && ObjectClear(sc, allow, fds, obj)
    requires (forall k :: k in obj ==> obj[k] < j) && forall k :: k in obj' ==> obj'[k] < j'
    ensures SameResult(DecodeFields(sc, allow, fds, j, obj, i, slots), DecodeFields(sc, allow, fds, j', obj', i, slots))
    decreases j, 4, |fds| - i
  {
    hide DecodeField, DecodeFields, RawOf, SetSlot, IsSingularValue, Alike, ObjectClear, FieldClear;
    if i == |fds| {
      NoFieldsAlike(sc, allow, fds, j, j', obj, obj', slots);
    } else {
      hide AlikeObjects;
      FieldStep(sc, allow, fds, j, obj, i, slots);
      FieldStep(sc, allow, fds, j', obj', i, slots);
      RawAlike(obj, obj', fds[i]);
      RawIsClear(sc, allow, fds, obj, i);
      var raw, raw' := RawOf(obj, fds[i]), RawOf(obj', fds[i]);
      var rest, rest' := obj - {fds[i].name, fds[i].jsonName}, obj' - {fds[i].name, fds[i].jsonName};
      FieldsAlike(sc, allow, fds, j, j', rest, rest', i + 1, slots);
      if raw.Some? {
        RawSmaller(obj, fds[i], j);
        AtomsAlike(raw.value, raw'.value);
        FieldAlike(sc, allow, fds[i], raw.value, raw'.value);
        var v := DecodeField(sc, allow, fds[i], raw.value);
        if v.Ok? {
          FieldsAlike(sc, allow, fds, j, j', rest, rest', i + 1, SetSlot(fds, slots, i, v.value));
        }
      }
    }
  }

  lemma NoFieldsAlike(sc: Schema, allow: bool, fds: seq<Field>, j: Json, j': Json, obj: map<string, Json>,
                      obj': map<string, Json>, slots: seq<Option<Value>>)
    requires |fds| == |slots| && AlikeObjects(obj, obj')
    requires (forall k :: k in obj ==> obj[k] < j) && forall k :: k in obj' ==> obj'[k] < j'
    ensures DecodeFields(sc, allow, fds, j, obj, |fds|, slots) == DecodeFields(sc, allow, fds, j', obj', |fds|, slots)
  {
    hide DecodeFields, Alike;
    NoFields(sc, allow, fds, j, obj, slots);
    NoFields(sc, allow, fds, j', obj', slots);
    assert |obj| == |obj.Keys| == |obj'.Keys| == |obj'|;
  }

  lemma RawSmaller(obj: map<string, Json>, fd: Field, j: Json)
    requires (forall k :: k in obj ==> obj[k] < j) && RawOf(obj, fd).Some?
    ensures RawOf(obj, fd).value < j
  {}

  lemma {:induction false} FieldAlike(sc: Schema, allow: bool, fd: Field, j: Json, j': Json)
    requires Alike(j, j') && FieldClear(sc, allow, fd, j)
    ensures SameResult(DecodeField(sc, allow, fd, j), DecodeField(sc, allow, fd, j'))
    decreases j, 9, 0
  {
    hide Alike, DecodeList, DecodeMap, DecodeSingular, ListClear, MapClear, SingularClear;
    match fd.card
    case Repeated => ListAlike(sc, allow, fd.kind, j, j');
    case MapWith(key) => MapAlike(sc, allow, key, fd.kind, j, j');
    case Singular => SingularAlike(sc, allow, fd.kind, j, j');
  }

  lemma {:induction false} SingularAlike(sc: Schema, allow: bool, kind: Kind, j: Json, j': Json)
    requires Alike(j, j') && SingularClear(sc, allow, kind, j)
    ensures SameResult(DecodeSingular(sc, allow, kind, j), DecodeSingular(sc, allow, kind, j'))
    decreases j, 8, 0
  {
    hide Alike, DecodeMessage, DecodeScalar, MessageClear;
    if kind.MessageKind? {
      MessageAlike(sc, allow, kind.message, j, j');
    } else {
      AtomsAlike(j, j');
      if j != j' {
        PartsAreNoScalars(sc, kind, j);
        PartsAreNoScalars(sc, kind, j');
      }
    }
  }

  lemma {:induction false} ListAlike(sc: Schema, allow: bool, kind: Kind, j: Json, j': Json)
    requires Alike(j, j') && ListClear(sc, allow, kind, j)
    ensures SameResult(DecodeList(sc, allow, kind, j), DecodeList(sc, allow, kind, j'))
    decreases j, 3, 0
  {
    hide DecodeItems, SingularClear;
    AtomsAlike(j, j');
    if j.Arr? {
      ItemsAlike(sc, allow, kind, j.items, j'.items);
    }
  }

  lemma {:induction false} ItemsAlike(sc: Schema, allow: bool, kind: Kind, items: seq<Item>, others: seq<Item>)
    requires |items| == |others| && forall i :: 0 <= i < |items| ==> Alike(items[i].value, others[i].value)
    requires forall i :: 0 <= i < |items| ==> SingularClear(sc, allow, kind, items[i].value)
    ensures SameResult(DecodeItems(sc, allow, kind, items), DecodeItems(sc, allow, kind, others))
    decreases items, 0, 0
  {
    hide Alike, DecodeSingular, SingularClear;
    if items != [] {
      SingularAlike(sc, allow, kind, items[0].value, others[0].value);
      ItemsAlike(sc, allow, kind, items[1..], others[1..]);
    }
  }

  lemma {:induction false} MapAlike(sc: Schema, allow: bool, key: Kind, kind: Kind, j: Json, j': Json)
    requires Alike(j, j') && MapClear(sc, allow, key, kind, j)
    ensures SameResult(DecodeMap(sc, allow, key, kind, j), DecodeMap(sc, allow, key, kind, j'))
    decreases j, 3, 0
  {
    hide DecodeEntries, DecodeSingular, Unquote, NamesDiffer, KeysOk, HasName, SingularClear, Orderless;
    AtomsAlike(j, j');
    if j.Obj? {
      var members, others := j.members, j'.members;
      SameNamesSwap(members, others);
      forall i, k | 0 <= i < |members| && 0 <= k < |others| && SameName(members[i], others[k])
        ensures SameResult(DecodeSingular(sc, allow, kind, members[i].value),
                           DecodeSingular(sc, allow, kind, others[k].value))
      {
        SingularAlike(sc, allow, kind, members[i].value, others[k].value);
      }
      EntriesAlike(sc, allow, key, kind, members, others);
    }
  }

  /** Values under one name decode alike. */
  ghost predicate PairsAlike(sc: Schema, allow: bool, kind: Kind, members: seq<Member>, others: seq<Member>) {
    forall i, k :: 0 <= i < |members| && 0 <= k < |others| && SameName(members[i], others[k]) ==>
      SameResult(DecodeSingular(sc, allow, kind, members[i].value), DecodeSingular(sc, allow, kind, others[k].value))
  }

  lemma PairsSwap(sc: Schema, allow: bool, kind: Kind, members: seq<Member>, others: seq<Member>)
    requires PairsAlike(sc, allow, kind, members, others)
    ensures PairsAlike(sc, allow, kind, others, members)
  {
    hide DecodeSingular, SameResult;
    forall k, i | 0 <= k < |others| && 0 <= i < |members| && SameName(others[k], members[i])
      ensures SameResult(DecodeSingular(sc, allow, kind, others[k].value), DecodeSingular(sc, allow, kind, members[i].value))
    {
      assert SameName(members[i], others[k]);
      ResultSwap(DecodeSingular(sc, allow, kind, members[i].value), DecodeSingular(sc, allow, kind, others[k].value));
    }
  }

  lemma EntriesAlike(sc: Schema, allow: bool, key: Kind, kind: Kind, members: seq<Member>, others: seq<Member>)
    requires SameNames(members, others) && PairsAlike(sc, allow, kind, members, others)
    requires Orderless(sc, allow, key, kind, members)
    ensures SameResult(DecodeEntries(sc, allow, key, kind, members), DecodeEntries(sc, allow, key, kind, others))
  {
    hide DecodeEntries, NamesDiffer, KeysOk, EntriesAre, PairsAlike, HasName, Orderless;
    SameNamesSwap(members, others);
    PairsSwap(sc, allow, kind, members, others);
    OrderlessAlike(sc, allow, key, kind, members, others);
    EntriesSettle(sc, allow, key, kind, members);
    EntriesSettle(sc, allow, key, kind, others);
    var r, r' := DecodeEntries(sc, allow, key, kind, members), DecodeEntries(sc, allow, key, kind, others);
    EntriesWithin(sc, allow, key, kind, members, others, r, r');
    EntriesWithin(sc, allow, key, kind, others, members, r', r);
    if r.Ok? {
      assert r'.value == r.value;
    }
  }

  lemma EntryMatches(sc: Schema, allow: bool, key: Kind, kind: Kind, m: Member, m': Member)
    requires Unquote(m.key).Some? && SameName(m, m') && EntryDecodes(sc, allow, key, kind, m)
    requires SameResult(DecodeSingular(sc, allow, kind, m.value), DecodeSingular(sc, allow, kind, m'.value))
    ensures EntryDecodes(sc, allow, key, kind, m') && EntryKey(key, m') == EntryKey(key, m)
    ensures forall entries, entries' ::
              EntryIn(sc, allow, key, kind, m, entries) && EntryIn(sc, allow, key, kind, m', entries') ==>
              var x := EntryKey(key, m).value;
              x in entries && x in entries' && entries'[x] == entries[x]
  {
    hide DecodeSingular, DecodeKey, Unquote;
  }

  lemma PairAlike(sc: Schema, allow: bool, kind: Kind, members: seq<Member>, others: seq<Member>, i: nat, k: nat)
    requires PairsAlike(sc, allow, kind, members, others)
    requires i < |members| && k < |others| && SameName(members[i], others[k])
    ensures SameResult(DecodeSingular(sc, allow, kind, members[i].value), DecodeSingular(sc, allow, kind, others[k].value))
  {}

  lemma OtherDecodes(sc: Schema, allow: bool, key: Kind, kind: Kind, members: seq<Member>, others: seq<Member>,
                     r: Result<map<MapKey, Value>, DecodeError>, k: nat)
    requires KeysOk(members) && PairsAlike(sc, allow, kind, members, others)
    requires EntriesAre(sc, allow, key, kind, members, r) && r.Ok?
    requires k < |others| && Unquote(others[k].key).Some? && HasName(members, others[k])
    ensures EntryDecodes(sc, allow, key, kind, others[k])
  {
    hide DecodeSingular, EntryKey, EntryDecodes, EntryIn, Unquote, SameName, SameResult, PairsAlike;
    var i := Namesake(members, others[k]);
    PairAlike(sc, allow, kind, members, others, i, k);
    EntryMatches(sc, allow, key, kind, members[i], others[k]);
  }

  lemma ValueWithin(sc: Schema, allow: bool, key: Kind, kind: Kind, members: seq<Member>, others: seq<Member>,
                    r: Result<map<MapKey, Value>, DecodeError>, r': Result<map<MapKey, Value>, DecodeError>, x: MapKey)
    requires KeysOk(members) && KeysOk(others) && PairsAlike(sc, allow, kind, members, others)
    requires forall i :: 0 <= i < |members| ==> HasName(others, members[i])
    requires EntriesAre(sc, allow, key, kind, members, r) && EntriesAre(sc, allow, key, kind, others, r')
    requires r.Ok? && r'.Ok? && x in r.value
    ensures x in r'.value && r'.value[x] == r.value[x]
  {
    hide DecodeSingular, EntryKey, EntryDecodes, EntryIn, Unquote, SameName, SameResult, PairsAlike, HasName;
    var i :| 0 <= i < |members| && EntryKey(key, members[i]) == Ok(x);
    var k := Namesake(others, members[i]);
    NamesakeSwap(others[k], members[i]);
    PairAlike(sc, allow, kind, members, others, i, k);
    EntryMatches(sc, allow, key, kind, members[i], others[k]);
    assert EntryIn(sc, allow, key, kind, members[i], r.value) && EntryIn(sc, allow, key, kind, others[k], r'.value);
  }

  /** The condition carries over to an object that is alike. */
  lemma OrderlessAlike(sc: Schema, allow: bool, key: Kind, kind: Kind, members: seq<Member>, others: seq<Member>)
    requires SameNames(members, others) && PairsAlike(sc, allow, kind, members, others)
    requires Orderless(sc, allow, key, kind, members)
    ensures Orderless(sc, allow, key, kind, others)
  {
    hide DecodeSingular, EntryKey, EntryDecodes, Clash, Unquote, NamesDiffer, HasName, PairsAlike, SameName, SameResult;
    SameNamesSwap(members, others);
    PairsSwap(sc, allow, kind, members, others);
    if AllDecode(sc, allow, key, kind, others) {
      forall i | 0 <= i < |members| ensures EntryDecodes(sc, allow, key, kind, members[i]) {
        var k := Namesake(others, members[i]);
        PairAlike(sc, allow, kind, others, members, k, i);
        EntryMatches(sc, allow, key, kind, others[k], members[i]);
      }
      forall k, l | 0 <= k < l < |others| ensures !Clash(sc, allow, key, kind, others[k], others[l]) {
        NoClashAlike(sc, allow, key, kind, members, others, k, l);
      }
    }
  }

  lemma NoClashAlike(sc: Schema, allow: bool, key: Kind, kind: Kind, members: seq<Member>, others: seq<Member>,
                     k: nat, l: nat)
    requires SameNames(members, others) && PairsAlike(sc, allow, kind, members, others)
    requires SpellingsAgree(sc, allow, key, kind, members) && AllDecode(sc, allow, key, kind, members)
    requires k < |others| && l < |others|
    ensures !Clash(sc, allow, key, kind, others[k], others[l])
  {
    hide DecodeSingular, DecodeKey, EntryKey, Unquote, NamesDiffer, HasName, PairsAlike, SameName, SameResult, Clash;
    var i := Namesake(members, others[k]);
    var j := Namesake(members, others[l]);
    PairAlike(sc, allow, kind, members, others, i, k);
    PairAlike(sc, allow, kind, members, others, j, l);
    ClashAlike(sc, allow, key, kind, members[i], others[k], members[j], others[l]);
    ClashSwap(sc, allow, key, kind, members[i], members[j]);
    assert i == j || !Clash(sc, allow, key, kind, members[if i < j then i else j], members[if i < j then j else i]);
  }

  lemma ClashAlike(sc: Schema, allow: bool, key: Kind, kind: Kind, m: Member, m': Member, n: Member, n': Member)
    requires Unquote(m.key).Some? && Unquote(n.key).Some? && SameName(m, m') && SameName(n, n')
    requires SameResult(DecodeSingular(sc, allow, kind, m.value), DecodeSingular(sc, allow, kind, m'.value))
    requires SameResult(DecodeSingular(sc, allow, kind, n.value), DecodeSingular(sc, allow, kind, n'.value))
    ensures Clash(sc, allow, key, kind, m', n') <==> Clash(sc, allow, key, kind, m, n)
  {
    hide DecodeSingular, DecodeKey, Unquote;
  }

  /** Where the one object decodes, so does the other, and to no less. */
  lemma EntriesWithin(sc: Schema, allow: bool, key: Kind, kind: Kind, members: seq<Member>, others: seq<Member>,
                      r: Result<map<MapKey, Value>, DecodeError>, r': Result<map<MapKey, Value>, DecodeError>)
    requires SameNames(members, others) && PairsAlike(sc, allow, kind, members, others)
    requires EntriesAre(sc, allow, key, kind, members, r) && EntriesAre(sc, allow, key, kind, others, r')
    ensures r.Ok? ==> r'.Ok? && forall x :: x in r.value ==> x in r'.value && r'.value[x] == r.value[x]
  {
    hide EntryDecodes, EntryIn, EntryKey, Unquote, NamesDiffer, HasName, PairsAlike;
    if r.Ok? {
      forall k | 0 <= k < |others| ensures EntryDecodes(sc, allow, key, kind, others[k]) {
        OtherDecodes(sc, allow, key, kind, members, others, r, k);
      }
      assert r'.Ok?;
      hide EntriesAre;
      forall x | x in r.value ensures x in r'.value && r'.value[x] == r.value[x] {
        ValueWithin(sc, allow, key, kind, members, others, r, r', x);
      }
    }
  }

  lemma Namesake(members: seq<Member>, m: Member) returns (i: nat)
    requires HasName(members, m)
    ensures i < |members| && SameName(members[i], m)
  {
    i :| 0 <= i < |members| && SameName(m, members[i]);
  }

  lemma NamesakeSwap(m: Member, m': Member)
    requires SameName(m, m')
    ensures SameName(m', m)
  {}

  // ----- an instance -----

  lemma FalseReads(sc: Schema, allow: bool)
    ensures Unquote("false") == Some("false") && Unquote("null") == Some("null") && "false" != "null"
    ensures forall after, v :: EntryKey(BoolKind, Member("", "false", after, v)) == Ok(BoolKey(false))
    ensures forall after, v :: EntryKey(BoolKind, Member("", "null", after, v)) == Ok(BoolKey(false))
    ensures DecodeSingular(sc, allow, BoolKind, Atom("true")) == Ok(BoolV(true))
    ensures DecodeSingular(sc, allow, BoolKind, Atom("false")) == Ok(BoolV(false))
  {
    hide Unquote;
    PlainUnquotes("false");
    PlainUnquotes("null");
    assert |"false"| == 5 && |"null"| == 4 && |"true"| == 4;
    assert "true"[0] == 't' && "null"[0] == 'n';
  }

  /** `false` and `null` are one key of a map with boolean keys: of the two entries the one that is read
      last counts. */
  lemma SpellingsOfFalse(sc: Schema, allow: bool)
    ensures var m, m' := Member("", "false", "", Atom("true")), Member("", "null", "", Atom("false"));
            && KeysOk([m, m']) && !Orderless(sc, allow, BoolKind, BoolKind, [m, m'])
            && DecodeMap(sc, allow, BoolKind, BoolKind, Obj([m, m'], "")) == Ok(MapV(map[BoolKey(false) := BoolV(false)]))
            && DecodeMap(sc, allow, BoolKind, BoolKind, Obj([m', m], "")) == Ok(MapV(map[BoolKey(false) := BoolV(true)]))
  {
    FalseReads(sc, allow);
    var m, m' := Member("", "false", "", Atom("true")), Member("", "null", "", Atom("false"));
    LastOfTwo(sc, allow, m, m', BoolKey(false));
    LastOfTwo(sc, allow, m', m, BoolKey(false));
    hide Unquote, KeysOk, DecodeSingular, EntryKey;
    assert Clash(sc, allow, BoolKind, BoolKind, m, m');
    assert [m, m'][0] == m && [m, m'][1] == m';
  }

  lemma LastOfTwo(sc: Schema, allow: bool, m: Member, m': Member, k: MapKey)
    requires Unquote(m.key).Some? && Unquote(m'.key).Some? && !SameName(m, m')
    requires EntryKey(BoolKind, m) == EntryKey(BoolKind, m') == Ok(k)
    requires DecodeSingular(sc, allow, BoolKind, m.value).Ok? && DecodeSingular(sc, allow, BoolKind, m'.value).Ok?
    ensures KeysOk([m, m'])
    ensures DecodeMap(sc, allow, BoolKind, BoolKind, Obj([m, m'], "")) ==
            Ok(MapV(map[k := DecodeSingular(sc, allow, BoolKind, m'.value).value]))
  {
    hide DecodeEntries, DecodeSingular, EntryKey, Unquote;
    var none: seq<Member> := [];
    assert [m, m'][1..] == [m'] && [m'][1..] == none;
    FirstEntry(sc, allow, BoolKind, BoolKind, [m, m']);
    FirstEntry(sc, allow, BoolKind, BoolKind, [m']);
    NoEntriesDecode(sc, allow, BoolKind, BoolKind);
    var v, v' := DecodeSingular(sc, allow, BoolKind, m.value).value, DecodeSingular(sc, allow, BoolKind, m'.value).value;
    assert map[k := v'] + map[] == map[k := v'] && map[k := v] + map[k := v'] == map[k := v'];
    MapIsEntries(sc, allow, BoolKind, BoolKind, [m, m'], "");
  }

  lemma MapIsEntries(sc: Schema, allow: bool, key: Kind, kind: Kind, members: seq<Member>, close: string)
    requires KeysOk(members)
    ensures DecodeMap(sc, allow, key, kind, Obj(members, close)) ==
            var r := DecodeEntries(sc, allow, key, kind, members); if r.Err? then Err(r.error) else Ok(MapV(r.value))
  {
    hide DecodeEntries;
  }
}
