/** Exactly what the reader makes of an object: each field from its own member, the last member of a name,
    the last member of a oneof; and what may be put in a member's place
    (`Common/jsonpb/decode.go`). */
module ReaderObjects {
  import opened Decimal
  import opened Decode
  import opened JsonReader
  import opened JsonText
  import opened ProtoSchema
  import opened ReaderFields
  import opened ReaderForms
  import opened Results

  // ----- fields -----

  /** No name of a field is a name of another. */
  predicate NamesApart(fds: seq<Field>) {
    forall i, k :: 0 <= i < k < |fds| ==> {fds[i].name, fds[i].jsonName} !! {fds[k].name, fds[k].jsonName}
  }

  /** What the object gives for a field: the member under its JSON name or, without one, under its own
      name. Null gives nothing, unless the field is a single `google.protobuf.Value`. */
  function Given(obj: map<string, Json>, fd: Field): Option<Json> {
    var raw := if fd.jsonName in obj then Some(obj[fd.jsonName])
               else if fd.name in obj then Some(obj[fd.name]) else None;
    if raw == Some(Atom("null")) && !(fd.kind == MessageKind("google.protobuf.Value") && fd.card == Singular) then None
    else raw
  }

  /** What a given field is set to; a value that equals the default leaves no trace in a field that cannot
      tell. */
  predicate SetTo(fd: Field, v: Value, slot: Option<Value>) {
    slot == if HasPresence(fd) || !IsZero(v) then Some(v) else None
  }

  predicate AllDecode(sc: Schema, allow: bool, fds: seq<Field>, obj: map<string, Json>, i: nat) {
    forall k :: i <= k < |fds| && Given(obj, fds[k]).Some? ==> DecodeField(sc, allow, fds[k], Given(obj, fds[k]).value).Ok?
  }

  predicate AllKnown(fds: seq<Field>, obj: map<string, Json>, i: nat) {
    forall name :: name in obj ==> exists k :: i <= k < |fds| && name in {fds[k].name, fds[k].jsonName}
  }

  /** The fields from `i` on are what the object gives; those before are what they were, unless a field of
      their oneof is given. */
  ghost predicate FieldsAre(sc: Schema, allow: bool, fds: seq<Field>, obj: map<string, Json>, i: nat,
                            was: seq<Option<Value>>, now: seq<Option<Value>>)
    requires |was| == |fds| == |now|
  {
    forall k :: 0 <= k < |fds| ==>
      if Overrules(fds, obj, i, k) then now[k].None?
      else if k < i || Given(obj, fds[k]).None? then now[k] == was[k]
      else
        var v := DecodeField(sc, allow, fds[k], Given(obj, fds[k]).value);
        v.Ok? && SetTo(fds[k], v.value, now[k])
  }

  /** Some field from `i` on, behind field `k`, takes the oneof away from it. */
  predicate Overrules(fds: seq<Field>, obj: map<string, Json>, i: nat, k: nat)
    requires k < |fds|
  {
    exists m :: k < m < |fds| && i <= m && fds[k].oneof.Some? && fds[m].oneof == fds[k].oneof && Given(obj, fds[m]).Some?
  }

  lemma GivenLater(fds: seq<Field>, obj: map<string, Json>, i: nat)
    requires NamesApart(fds) && i < |fds|
    ensures var rest := obj - {fds[i].name, fds[i].jsonName};
            && (forall k :: i < k < |fds| ==> Given(rest, fds[k]) == Given(obj, fds[k]))
            && (AllKnown(fds, rest, i + 1) <==> AllKnown(fds, obj, i))
  {
    var rest := obj - {fds[i].name, fds[i].jsonName};
    forall name | name in obj && AllKnown(fds, rest, i + 1)
      ensures exists k :: i <= k < |fds| && name in {fds[k].name, fds[k].jsonName}
    {
      if name !in {fds[i].name, fds[i].jsonName} {
        assert name in rest;
      }
    }
    forall name | name in rest && AllKnown(fds, obj, i)
      ensures exists k :: i + 1 <= k < |fds| && name in {fds[k].name, fds[k].jsonName}
    {
      var k :| i <= k < |fds| && name in {fds[k].name, fds[k].jsonName};
      assert k != i;
    }
  }

  lemma OverrulesNext(fds: seq<Field>, obj: map<string, Json>, i: nat, k: nat)
    requires NamesApart(fds) && i < |fds| && k < |fds|
    ensures var rest := obj - {fds[i].name, fds[i].jsonName};
            Overrules(fds, obj, i, k) <==>
            || Overrules(fds, rest, i + 1, k)
            || (k < i && fds[k].oneof.Some? && fds[i].oneof == fds[k].oneof && Given(obj, fds[i]).Some?)
  {
    hide Given;
    GivenLater(fds, obj, i);
  }

  lemma RawIsGiven(obj: map<string, Json>, fd: Field)
    ensures var raw := RawOf(obj, fd);
            if raw.None? || (raw.value == NULL && !IsSingularValue(fd)) then Given(obj, fd).None? else Given(obj, fd) == raw
  {}

  lemma DecodeLater(sc: Schema, allow: bool, fds: seq<Field>, obj: map<string, Json>, i: nat)
    requires NamesApart(fds) && i < |fds|
    ensures AllDecode(sc, allow, fds, obj, i) <==>
            && AllDecode(sc, allow, fds, obj - {fds[i].name, fds[i].jsonName}, i + 1)
            && (Given(obj, fds[i]).Some? ==> DecodeField(sc, allow, fds[i], Given(obj, fds[i]).value).Ok?)
  {
    hide Given, DecodeField;
    GivenLater(fds, obj, i);
  }

  lemma FieldsAreSkip(sc: Schema, allow: bool, fds: seq<Field>, obj: map<string, Json>, i: nat,
                      was: seq<Option<Value>>, now: seq<Option<Value>>)
    requires NamesApart(fds) && i < |fds| == |was| == |now| && Given(obj, fds[i]).None?
    requires FieldsAre(sc, allow, fds, obj - {fds[i].name, fds[i].jsonName}, i + 1, was, now)
    ensures FieldsAre(sc, allow, fds, obj, i, was, now)
  {
    hide Given, DecodeField, Overrules, SetTo;
    GivenLater(fds, obj, i);
    forall k | 0 <= k < |fds|
      ensures Overrules(fds, obj, i, k) <==> Overrules(fds, obj - {fds[i].name, fds[i].jsonName}, i + 1, k)
    {
      OverrulesNext(fds, obj, i, k);
    }
  }

  lemma FieldsAreSet(sc: Schema, allow: bool, fds: seq<Field>, obj: map<string, Json>, i: nat,
                     was: seq<Option<Value>>, now: seq<Option<Value>>)
    requires NamesApart(fds) && i < |fds| == |was| == |now| && Given(obj, fds[i]).Some?
    requires forall k :: i <= k < |fds| ==> was[k].None?
    requires DecodeField(sc, allow, fds[i], Given(obj, fds[i]).value).Ok?
    requires FieldsAre(sc, allow, fds, obj - {fds[i].name, fds[i].jsonName}, i + 1,
                       SetSlot(fds, was, i, DecodeField(sc, allow, fds[i], Given(obj, fds[i]).value).value), now)
    ensures FieldsAre(sc, allow, fds, obj, i, was, now)
  {
    hide Given, DecodeField, Overrules, HasPresence, IsZero;
    GivenLater(fds, obj, i);
    forall k | 0 <= k < |fds|
      ensures Overrules(fds, obj, i, k) <==>
              || Overrules(fds, obj - {fds[i].name, fds[i].jsonName}, i + 1, k)
              || (k < i && fds[k].oneof.Some? && fds[i].oneof == fds[k].oneof)
    {
      OverrulesNext(fds, obj, i, k);
    }
  }

  lemma NothingGivenLeft(fds: seq<Field>, obj: map<string, Json>)
    ensures AllKnown(fds, obj, |fds|) <==> |obj| == 0
  {
    if obj != map[] {
      var name :| name in obj;
    }
  }

  lemma {:induction false} FieldsExactFrom(sc: Schema, allow: bool, fds: seq<Field>, j: Json, obj: map<string, Json>, i: nat,
                                           was: seq<Option<Value>>)
    requires i <= |fds| == |was| && (forall k :: k in obj ==> obj[k] < j) && NamesApart(fds)
    requires forall k :: i <= k < |fds| ==> was[k].None?
    ensures var r := DecodeFields(sc, allow, fds, j, obj, i, was);
            && (r.Ok? <==> AllDecode(sc, allow, fds, obj, i) && (allow || AllKnown(fds, obj, i)))
            && (r.Ok? ==> r.value.MsgV? && |r.value.slots| == |fds| && FieldsAre(sc, allow, fds, obj, i, was, r.value.slots))
    decreases |fds| - i
  {
    hide DecodeFields, DecodeField, Given, RawOf, SetSlot, NamesApart, AllDecode, AllKnown, FieldsAre, IsSingularValue;
    if i == |fds| {
      NoFields(sc, allow, fds, j, obj, was);
      NothingGivenLeft(fds, obj);
      NoFieldsLeft(sc, allow, fds, obj, was);
    } else {
      var rest := obj - {fds[i].name, fds[i].jsonName};
      FieldStep(sc, allow, fds, j, obj, i, was);
      RawIsGiven(obj, fds[i]);
      GivenLater(fds, obj, i);
      DecodeLater(sc, allow, fds, obj, i);
      if Given(obj, fds[i]).None? {
        FieldsExactFrom(sc, allow, fds, j, rest, i + 1, was);
        var r := DecodeFields(sc, allow, fds, j, rest, i + 1, was);
        if r.Ok? {
          FieldsAreSkip(sc, allow, fds, obj, i, was, r.value.slots);
        }
      } else if DecodeField(sc, allow, fds[i], Given(obj, fds[i]).value).Ok? {
        var v := DecodeField(sc, allow, fds[i], Given(obj, fds[i]).value).value;
        var next := SetSlot(fds, was, i, v);
        SetSlotLater(fds, was, i, v);
        FieldsExactFrom(sc, allow, fds, j, rest, i + 1, next);
        var r := DecodeFields(sc, allow, fds, j, rest, i + 1, next);
        if r.Ok? {
          FieldsAreSet(sc, allow, fds, obj, i, was, r.value.slots);
        }
      }
    }
  }

  lemma SetSlotLater(fds: seq<Field>, was: seq<Option<Value>>, i: nat, v: Value)
    requires i < |fds| == |was| && forall k :: i <= k < |fds| ==> was[k].None?
    ensures forall k :: i + 1 <= k < |fds| ==> SetSlot(fds, was, i, v)[k].None?
  {}

  lemma NoFieldsLeft(sc: Schema, allow: bool, fds: seq<Field>, obj: map<string, Json>, was: seq<Option<Value>>)
    requires |was| == |fds|
    ensures AllDecode(sc, allow, fds, obj, |fds|) && FieldsAre(sc, allow, fds, obj, |fds|, was, was)
  {
    hide DecodeField, Given;
  }

  /** An ordinary message is read if and only if every field that is given decodes and no name is unknown, or
      unknown names are allowed. Each field then is what its own member says; of a oneof the last field
      given counts, and a field that is not given is unset. */
  lemma ObjectExact(sc: Schema, allow: bool, name: string, fds: seq<Field>, members: seq<Member>, close: string)
    requires WellKnownOf(name) == Ordinary && FieldsOf(sc, name) == Some(fds) && NamesApart(fds) && KeysOk(members)
    ensures var r, obj := DecodeMessage(sc, allow, name, Obj(members, close)), ObjectOf(members);
            && (r.Ok? <==> AllDecode(sc, allow, fds, obj, 0) && (allow || AllKnown(fds, obj, 0)))
            && (r.Ok? ==>
                  && r.value.MsgV? && |r.value.slots| == |fds|
                  && forall k :: 0 <= k < |fds| ==>
                       if Overrules(fds, obj, 0, k) || Given(obj, fds[k]).None? then r.value.slots[k].None?
                       else
                         var v := DecodeField(sc, allow, fds[k], Given(obj, fds[k]).value);
                         v.Ok? && SetTo(fds[k], v.value, r.value.slots[k]))
  {
    hide DecodeFields, DecodeField, Given, NamesApart, AllDecode, AllKnown, Overrules, SetTo, ObjectOf, KeysOk;
    var j := Obj(members, close);
    OrdinaryIs(sc, allow, name, fds, members, close);
    FieldsExactFrom(sc, allow, fds, j, Unwrap(members, close), 0, EmptyMessage(fds).slots);
  }

  lemma OrdinaryIs(sc: Schema, allow: bool, name: string, fds: seq<Field>, members: seq<Member>, close: string)
    requires WellKnownOf(name) == Ordinary && FieldsOf(sc, name) == Some(fds) && KeysOk(members)
    ensures DecodeMessage(sc, allow, name, Obj(members, close)) ==
            DecodeFields(sc, allow, fds, Obj(members, close), Unwrap(members, close), 0, EmptyMessage(fds).slots)
  {
    hide DecodeFields, ObjectOf;
  }

  // ----- names that come more than once -----

  predicate NameIs(m: Member, name: string) {
    Unquote(m.key) == Some(name)
  }

  /** Of several members of a name the last counts. */
  lemma {:induction false} LastOfName(members: seq<Member>, i: nat, name: string)
    requires KeysOk(members) && i < |members| && NameIs(members[i], name)
    requires forall k :: i < k < |members| ==> !NameIs(members[k], name)
    ensures name in ObjectOf(members) && ObjectOf(members)[name] == members[i].value
  {
    hide Unquote;
    var rest := members[1..];
    assert forall k :: 0 <= k < |rest| ==> rest[k] == members[k + 1];
    if i == 0 {
      ObjectKeys(rest, name);
    } else {
      LastOfName(rest, i - 1, name);
    }
  }

  function Dropped(members: seq<Member>, i: nat): seq<Member>
    requires i < |members|
  {
    members[..i] + members[i + 1..]
  }

  lemma DroppedRest(members: seq<Member>, i: nat)
    requires 0 < i < |members|
    ensures var d := Dropped(members, i); d != [] && d[0] == members[0] && d[1..] == Dropped(members[1..], i - 1)
  {}

  lemma {:induction false} EarlierObject(members: seq<Member>, i: nat, k: nat)
    requires KeysOk(members) && i < k < |members| && Unquote(members[i].key) == Unquote(members[k].key)
    ensures KeysOk(Dropped(members, i)) && ObjectOf(Dropped(members, i)) == ObjectOf(members)
  {
    hide Unquote;
    var rest, d := members[1..], Dropped(members, i);
    if i == 0 {
      assert d == rest;
      assert rest[k - 1] == members[k];
      ObjectKeys(rest, Unquote(members[0].key).value);
    } else {
      EarlierObject(rest, i - 1, k - 1);
      DroppedRest(members, i);
    }
  }

  /** A member whose name comes again later might as well not be there. */
  lemma EarlierIgnored(sc: Schema, allow: bool, name: string, members: seq<Member>, close: string, i: nat, k: nat)
    requires WellKnownOf(name) == Ordinary && KeysOk(members) && i < k < |members|
    requires Unquote(members[i].key) == Unquote(members[k].key)
    ensures DecodeMessage(sc, allow, name, Obj(members, close)) ==
            DecodeMessage(sc, allow, name, Obj(Dropped(members, i), close))
  {
    hide DecodeFields, Unquote, KeysOk, ObjectOf, Dropped;
    EarlierObject(members, i, k);
    var fds := FieldsOf(sc, name);
    if fds.Some? {
      OrdinaryIs(sc, allow, name, fds.value, members, close);
      OrdinaryIs(sc, allow, name, fds.value, Dropped(members, i), close);
      OuterIrrelevant(sc, allow, fds.value, Obj(members, close), Obj(Dropped(members, i), close),
                      Unwrap(members, close), 0, EmptyMessage(fds.value).slots);
    }
  }

  /** Nor might an entry of a map whose name comes again. */
  lemma {:induction false} EarlierEntryIgnored(sc: Schema, allow: bool, key: Kind, kind: Kind, members: seq<Member>,
                                               i: nat, k: nat)
    requires KeysOk(members) && i < k < |members| && Unquote(members[i].key) == Unquote(members[k].key)
    ensures KeysOk(Dropped(members, i))
    ensures DecodeEntries(sc, allow, key, kind, members) == DecodeEntries(sc, allow, key, kind, Dropped(members, i))
  {
    hide Unquote, DecodeEntries, DecodeSingular, DecodeKey, KeysOk;
    var rest, d := members[1..], Dropped(members, i);
    EarlierObject(members, i, k);
    EntriesUnfold(sc, allow, key, kind, members);
    if i == 0 {
      assert d == rest;
      assert rest[k - 1] == members[k];
      ObjectKeys(rest, Unquote(members[0].key).value);
    } else {
      hide ObjectOf;
      EarlierObject(rest, i - 1, k - 1);
      EarlierEntryIgnored(sc, allow, key, kind, rest, i - 1, k - 1);
      DroppedRest(members, i);
      EntriesUnfold(sc, allow, key, kind, d);
    }
  }

  // ----- another value in a member's place -----

  /** A field cannot tell the two values apart. */
  predicate SameFor(sc: Schema, allow: bool, fd: Field, x: Json, y: Json) {
    (x == NULL <==> y == NULL) && DecodeField(sc, allow, fd, x) == DecodeField(sc, allow, fd, y)
  }

  predicate SameObjects(sc: Schema, allow: bool, fds: seq<Field>, obj: map<string, Json>, obj': map<string, Json>) {
    && obj.Keys == obj'.Keys
    && forall name, k :: name in obj && 0 <= k < |fds| && name in {fds[k].name, fds[k].jsonName} ==>
         SameFor(sc, allow, fds[k], obj[name], obj'[name])
  }

  lemma SameLater(sc: Schema, allow: bool, fds: seq<Field>, obj: map<string, Json>, obj': map<string, Json>, i: nat)
    requires i < |fds| && SameObjects(sc, allow, fds, obj, obj')
    ensures SameObjects(sc, allow, fds, obj - {fds[i].name, fds[i].jsonName}, obj' - {fds[i].name, fds[i].jsonName})
    ensures var raw, raw' := RawOf(obj, fds[i]), RawOf(obj', fds[i]);
            && (raw.Some? <==> raw'.Some?)
            && (raw.Some? ==> SameFor(sc, allow, fds[i], raw.value, raw'.value))
  {
    hide SameFor;
  }

  lemma {:induction false} FieldsSame(sc: Schema, allow: bool, fds: seq<Field>, j: Json, j': Json, obj: map<string, Json>,
                                      obj': map<string, Json>, i: nat, slots: seq<Option<Value>>)
    requires i <= |fds| == |slots| && (forall k :: k in obj ==> obj[k] < j) && (forall k :: k in obj' ==> obj'[k] < j')
    requires SameObjects(sc, allow, fds, obj, obj')
    ensures DecodeFields(sc, allow, fds, j, obj, i, slots) == DecodeFields(sc, allow, fds, j', obj', i, slots)
    decreases |fds| - i
  {
    hide DecodeFields, DecodeField, RawOf, SetSlot, SameObjects;
    if i == |fds| {
      SameSize(sc, allow, fds, obj, obj');
      NoFields(sc, allow, fds, j, obj, slots);
      NoFields(sc, allow, fds, j', obj', slots);
    } else {
      var raw, names := RawOf(obj, fds[i]), {fds[i].name, fds[i].jsonName};
      SameLater(sc, allow, fds, obj, obj', i);
      FieldStep(sc, allow, fds, j, obj, i, slots);
      FieldStep(sc, allow, fds, j', obj', i, slots);
      FieldsSame(sc, allow, fds, j, j', obj - names, obj' - names, i + 1, slots);
      if raw.Some? && DecodeField(sc, allow, fds[i], raw.value).Ok? {
        FieldsSame(sc, allow, fds, j, j', obj - names, obj' - names, i + 1,
                   SetSlot(fds, slots, i, DecodeField(sc, allow, fds[i], raw.value).value));
      }
    }
  }

  lemma SameSize(sc: Schema, allow: bool, fds: seq<Field>, obj: map<string, Json>, obj': map<string, Json>)
    requires SameObjects(sc, allow, fds, obj, obj')
    ensures |obj| == |obj'|
  {
    assert |obj| == |obj.Keys| && |obj'| == |obj'.Keys|;
  }

  function Replaced(members: seq<Member>, i: nat, x: Json): seq<Member>
    requires i < |members|
  {
    members[i := members[i].(value := x)]
  }

  lemma {:induction false} ObjectReplaced(members: seq<Member>, i: nat, x: Json)
    requires KeysOk(members) && i < |members|
    ensures KeysOk(Replaced(members, i, x))
    ensures var obj, obj', name := ObjectOf(members), ObjectOf(Replaced(members, i, x)), Unquote(members[i].key).value;
            && obj'.Keys == obj.Keys && name in obj
            && (forall k :: k in obj && k != name ==> obj'[k] == obj[k])
            && (obj'[name] == obj[name] || (obj[name] == members[i].value && obj'[name] == x))
  {
    hide Unquote;
    var rest, r := members[1..], Replaced(members, i, x);
    if i == 0 {
      assert r[1..] == rest;
    } else {
      ObjectReplaced(rest, i - 1, x);
      assert r[1..] == Replaced(rest, i - 1, x);
      assert r[0] == members[0];
    }
  }

  /** Whatever the fields of its name cannot tell from a member's value may be put in its place. */
  lemma MemberReplaced(sc: Schema, allow: bool, name: string, fds: seq<Field>, members: seq<Member>, close: string,
                       i: nat, x: Json)
    requires WellKnownOf(name) == Ordinary && FieldsOf(sc, name) == Some(fds) && KeysOk(members) && i < |members|
    requires forall k :: 0 <= k < |fds| && Unquote(members[i].key).value in {fds[k].name, fds[k].jsonName} ==>
               SameFor(sc, allow, fds[k], members[i].value, x)
    ensures DecodeMessage(sc, allow, name, Obj(members, close)) ==
            DecodeMessage(sc, allow, name, Obj(Replaced(members, i, x), close))
  {
    hide DecodeFields, DecodeField, ObjectOf, Unquote, KeysOk, Replaced, RawOf;
    ObjectReplaced(members, i, x);
    OrdinaryIs(sc, allow, name, fds, members, close);
    OrdinaryIs(sc, allow, name, fds, Replaced(members, i, x), close);
    assert SameObjects(sc, allow, fds, ObjectOf(members), ObjectOf(Replaced(members, i, x)));
    FieldsSame(sc, allow, fds, Obj(members, close), Obj(Replaced(members, i, x), close),
               Unwrap(members, close), Unwrap(Replaced(members, i, x), close), 0, EmptyMessage(fds).slots);
  }

  // ----- integers in quotes -----

  predicate IsIntKind(kind: Kind) {
    kind in {Int32Kind, Int64Kind, Uint32Kind, Uint64Kind}
  }

  lemma QuotedField(sc: Schema, allow: bool, fd: Field, text: string)
    requires IsIntKind(fd.kind) && fd.card == Singular && text != "null"
    ensures SameFor(sc, allow, fd, Atom(text), Str(text))
  {
    hide IntOf;
    forall x: Json ensures DecodeField(sc, allow, fd, x) == DecodeScalar(sc, fd.kind, x) {
      assert DecodeField(sc, allow, fd, x) == DecodeSingular(sc, allow, fd.kind, x);
    }
    assert DecodeScalar(sc, fd.kind, Atom(text)) == IntOf(text, fd.kind) == DecodeScalar(sc, fd.kind, Str(text));
  }

  /** Putting the integer of a field in quotes changes nothing in what the reader makes of a text. */
  lemma QuotingIntegers(sc: Schema, allow: bool, name: string, fds: seq<Field>, members: seq<Member>, close: string,
                        i: nat, text: string)
    requires WellKnownOf(name) == Ordinary && FieldsOf(sc, name) == Some(fds)
    requires Well(Obj(members, close)) && i < |members| && members[i].value == Atom(text) && IsJsonNumber(text)
    requires forall k :: 0 <= k < |fds| && Unquote(members[i].key) in {Some(fds[k].name), Some(fds[k].jsonName)} ==>
               IsIntKind(fds[k].kind) && fds[k].card == Singular
    ensures Unmarshal(sc, allow, name, Text(Obj(members, close))) ==
            Unmarshal(sc, allow, name, Text(Obj(Replaced(members, i, Str(text)), close)))
  {
    hide DecodeMessage, Well, WellMembers, Text, Read, Compact, IsJsonNumber, Unquote, DecodeField, Replaced, WellMember;
    var members' := Replaced(members, i, Str(text));
    WellParts(members, close);
    WellReplaced(members, i, text);
    WellParts(members', close);
    ReadText(Obj(members, close));
    ReadText(Obj(members', close));
    CompactReplaced(members, i, text);
    var c := CompactMembers(members);
    CompactKeysOk(members);
    CompactOf(members, close);
    CompactOf(members', close);
    NamesAreNoNumbers();
    AtomCompact(text);
    assert c[i].key == members[i].key && c[i].value == Atom(text);
    forall k | 0 <= k < |fds| && Unquote(c[i].key).value in {fds[k].name, fds[k].jsonName}
      ensures SameFor(sc, allow, fds[k], c[i].value, Str(text))
    {
      QuotedField(sc, allow, fds[k], text);
    }
    MemberReplaced(sc, allow, name, fds, c, "", i, Str(text));
  }

  lemma AtomCompact(text: string)
    ensures Compact(Atom(text)) == Atom(text)
  {}

  lemma CompactOf(members: seq<Member>, close: string)
    ensures Compact(Obj(members, close)) == Obj(CompactMembers(members), "")
  {}

  lemma WellParts(members: seq<Member>, close: string)
    ensures Well(Obj(members, close)) <==> AllSpace(close) && WellMembers(members)
  {}

  lemma NumberIsPlain(text: string)
    requires IsJsonNumber(text)
    ensures Well(Str(text))
  {
    hide IsJsonNumber;
    NumberChars(text);
    AtomCharsPlain(text);
    PlainUnquotes(text);
  }

  lemma AtomCharsPlain(text: string)
    requires IsJsonNumber(text)
    ensures Plain(text)
  {
    hide Plain, IsFraction;
    var u := if text != [] && text[0] == '-' then text[1..] else text;
    var k := Span(u);
    DigitsPlain(u[..k]);
    FractionPlain(u[k..]);
    PlainConcat(u[..k], u[k..]);
    assert u == u[..k] + u[k..];
    MinusPlain();
    PlainConcat("-", u);
    assert text == u || text == "-" + u;
  }

  lemma DigitsPlain(s: string)
    requires AllDigits(s)
    ensures Plain(s)
  {}

  lemma PlainConcat(s: string, t: string)
    requires Plain(s) && Plain(t)
    ensures Plain(s + t)
  {}

  lemma MinusPlain()
    ensures Plain("-") && Plain(".") && Plain("e") && Plain("E") && Plain("+") && Plain("")
  {}

  lemma FractionPlain(t: string)
    requires IsFraction(t)
    ensures Plain(t)
  {
    hide Plain, IsExponent;
    MinusPlain();
    if t != [] && t[0] == '.' {
      var k := Span(t[1..]);
      var digits, rest := t[1..][..k], t[1 + k..];
      DigitsPlain(digits);
      ExponentPlain(rest);
      PlainConcat(digits, rest);
      PlainConcat(".", digits + rest);
      assert t == "." + (digits + rest);
    } else {
      ExponentPlain(t);
    }
  }

  lemma ExponentPlain(t: string)
    requires IsExponent(t)
    ensures Plain(t)
  {}

  lemma {:induction false} WellReplaced(members: seq<Member>, i: nat, text: string)
    requires WellMembers(members) && i < |members| && IsJsonNumber(text)
    ensures WellMembers(Replaced(members, i, Str(text)))
  {
    hide Well, IsJsonNumber;
    var rest, r := members[1..], Replaced(members, i, Str(text));
    if i == 0 {
      NumberIsPlain(text);
      assert r[1..] == rest;
    } else {
      WellReplaced(rest, i - 1, text);
      assert r[0] == members[0] && r[1..] == Replaced(rest, i - 1, Str(text));
    }
  }

  lemma {:induction false} CompactReplaced(members: seq<Member>, i: nat, text: string)
    requires i < |members|
    ensures CompactMembers(Replaced(members, i, Str(text))) == Replaced(CompactMembers(members), i, Str(text))
    ensures CompactMembers(members)[i] == Member("", members[i].key, "", Compact(members[i].value))
  {
    var rest, r, c := members[1..], Replaced(members, i, Str(text)), CompactMembers(members);
    assert Compact(Str(text)) == Str(text);
    hide Compact;
    if i == 0 {
      assert r[1..] == rest;
      assert CompactMembers(r) == [Member("", members[0].key, "", Str(text))] + CompactMembers(rest);
    } else {
      CompactReplaced(rest, i - 1, text);
      assert r[0] == members[0] && r[1..] == Replaced(rest, i - 1, Str(text));
      assert c == [c[0]] + CompactMembers(rest);
    }
  }

  lemma {:induction false} CompactKeysOk(members: seq<Member>)
    requires WellMembers(members)
    ensures KeysOk(CompactMembers(members))
  {
    hide Well, Compact, Unquote, RawOk, AllSpace;
    if members != [] {
      CompactKeysOk(members[1..]);
      var c := CompactMembers(members);
      assert c[1..] == CompactMembers(members[1..]);
      assert forall k :: 1 <= k < |c| ==> c[k] == c[1..][k - 1];
    }
  }
}
