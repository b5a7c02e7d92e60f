/** The reader's field loop: the order of an object's members does not matter, and names it does not
    know only ever make it refuse. */
module ReaderFields {
  import opened Decode
  import opened JsonText
  import opened ProtoSchema
  import opened Results

  // ----- an object as a map -----

  lemma {:induction false} ObjectKeys(members: seq<Member>, name: string)
    requires KeysOk(members)
    ensures name in ObjectOf(members) <==> exists i :: 0 <= i < |members| && Unquote(members[i].key) == Some(name)
  {
    hide Unquote;
    if members != [] {
      ObjectKeys(members[1..], name);
      assert forall i :: 0 <= i < |members| - 1 ==> members[1..][i] == members[i + 1];
    }
  }

  ghost predicate NamesDiffer(members: seq<Member>) {
    forall i, j :: 0 <= i < j < |members| ==> Unquote(members[i].key) != Unquote(members[j].key)
  }

  lemma NamesDifferRest(members: seq<Member>)
    requires members != [] && NamesDiffer(members)
    ensures NamesDiffer(members[1..])
    ensures forall i :: 0 <= i < |members[1..]| ==> Unquote(members[1..][i].key) != Unquote(members[0].key)
  {
    hide Unquote;
  }

  lemma {:induction false} ObjectValues(members: seq<Member>, x: nat)
    requires KeysOk(members) && x < |members| && NamesDiffer(members)
    ensures var name := Unquote(members[x].key).value;
            name in ObjectOf(members) && ObjectOf(members)[name] == members[x].value
  {
    hide Unquote, NamesDiffer;
    NamesDifferRest(members);
    if x == 0 {
      ObjectKeys(members[1..], Unquote(members[0].key).value);
    } else {
      ObjectValues(members[1..], x - 1);
    }
  }

  lemma MemberIn(members: seq<Member>, others: seq<Member>, i: nat) returns (j: nat)
    requires i < |members| && multiset(members) == multiset(others)
    ensures j < |others| && others[j] == members[i]
  {
    assert members[i] in multiset(members);
    assert members[i] in others;
    j :| 0 <= j < |others| && others[j] == members[i];
  }

  lemma PermutedWithin(members: seq<Member>, others: seq<Member>, name: string)
    requires KeysOk(members) && KeysOk(others) && NamesDiffer(others) && NamesDiffer(members)
    requires multiset(members) == multiset(others) && name in ObjectOf(members)
    ensures name in ObjectOf(others) && ObjectOf(others)[name] == ObjectOf(members)[name]
  {
    hide ObjectOf, Unquote;
    ObjectKeys(members, name);
    var i :| 0 <= i < |members| && Unquote(members[i].key) == Some(name);
    var j := MemberIn(members, others, i);
    ObjectValues(members, i);
    ObjectValues(others, j);
  }

  /** Members under different names may come in any order. */
  lemma PermutedObject(members: seq<Member>, others: seq<Member>)
    requires KeysOk(members) && KeysOk(others) && NamesDiffer(others) && NamesDiffer(members)
    requires multiset(members) == multiset(others)
    ensures ObjectOf(members) == ObjectOf(others)
  {
    hide ObjectOf, KeysOk, NamesDiffer;
    forall name | name in ObjectOf(members)
      ensures name in ObjectOf(others) && ObjectOf(others)[name] == ObjectOf(members)[name]
    {
      PermutedWithin(members, others, name);
    }
    forall name | name in ObjectOf(others) ensures name in ObjectOf(members) {
      PermutedWithin(others, members, name);
    }
  }

  // ----- the map loop -----

  /** What is decoded from a list of entries, in terms of its first entry and of what is decoded
      from the others. */
  lemma EntriesUnfold(sc: Schema, allowUnknown: bool, key: Kind, kind: Kind, members: seq<Member>)
    requires members != [] && KeysOk(members)
    ensures KeysOk(members[1..]) && Unquote(members[0].key).Some?
    ensures DecodeEntries(sc, allowUnknown, key, kind, members)
            == var name := Unquote(members[0].key).value;
               var k, v := DecodeKey(key, name), DecodeSingular(sc, allowUnknown, kind, members[0].value);
               var more := DecodeEntries(sc, allowUnknown, key, kind, members[1..]);
               if name in ObjectOf(members[1..]) then more
               else if k.Err? then Err(k.error)
               else if v.Err? then Err(v.error)
               else if more.Err? then more
               else Ok(map[k.value := v.value] + more.value)
  {
    hide DecodeSingular, DecodeKey, ObjectOf, Unquote;
  }

  // ----- the field loop -----

  /** The end of the known-field loop. */
  lemma NoFields(sc: Schema, allowUnknown: bool, fds: seq<Field>, j: Json, obj: map<string, Json>,
                 slots: seq<Option<Value>>)
    requires |fds| == |slots|
    requires forall k :: k in obj ==> obj[k] < j
    ensures DecodeFields(sc, allowUnknown, fds, j, obj, |fds|, slots)
            == if !allowUnknown && |obj| > 0 then Err(UnknownField) else Ok(MsgV(slots))
  {
    hide DecodeField;
  }

  /** One turn of the known-field loop. */
  lemma FieldStep(sc: Schema, allowUnknown: bool, fds: seq<Field>, j: Json, obj: map<string, Json>, i: nat,
                  slots: seq<Option<Value>>)
    requires i < |fds| == |slots|
    requires forall k :: k in obj ==> obj[k] < j
    ensures DecodeFields(sc, allowUnknown, fds, j, obj, i, slots)
            == var raw, rest := RawOf(obj, fds[i]), obj - {fds[i].name, fds[i].jsonName};
               if raw.None? || (raw.value == NULL && !IsSingularValue(fds[i])) then
                 DecodeFields(sc, allowUnknown, fds, j, rest, i + 1, slots)
               else
                 var v := DecodeField(sc, allowUnknown, fds[i], raw.value);
                 if v.Err? then v
                 else DecodeFields(sc, allowUnknown, fds, j, rest, i + 1, SetSlot(fds, slots, i, v.value))
  {
    hide DecodeField, RawOf, SetSlot;
  }

  lemma {:induction false} OuterIrrelevant(sc: Schema, allow: bool, fds: seq<Field>, j: Json, j': Json,
                                           obj: map<string, Json>, i: nat, slots: seq<Option<Value>>)
    requires i <= |fds| == |slots| && forall k :: k in obj ==> obj[k] < j && obj[k] < j'
    ensures DecodeFields(sc, allow, fds, j, obj, i, slots) == DecodeFields(sc, allow, fds, j', obj, i, slots)
    decreases |fds| - i
  {
    hide DecodeField;
    if i < |fds| {
      var raw, rest := RawOf(obj, fds[i]), obj - {fds[i].name, fds[i].jsonName};
      OuterIrrelevant(sc, allow, fds, j, j', rest, i + 1, slots);
      if raw.Some? && DecodeField(sc, allow, fds[i], raw.value).Ok? {
        OuterIrrelevant(sc, allow, fds, j, j', rest, i + 1,
                        SetSlot(fds, slots, i, DecodeField(sc, allow, fds[i], raw.value).value));
      }
    }
  }

  /** Reading an ordinary message depends on its object only as a map from names to values: neither
      the order of the members nor their layout matters. */
  lemma MemberOrder(sc: Schema, allow: bool, name: string, members: seq<Member>, others: seq<Member>, close: string,
                    close': string)
    requires WellKnownOf(name) == Ordinary && KeysOk(members) && KeysOk(others)
    requires NamesDiffer(members) && NamesDiffer(others) && multiset(members) == multiset(others)
    ensures DecodeMessage(sc, allow, name, Obj(members, close)) == DecodeMessage(sc, allow, name, Obj(others, close'))
  {
    hide DecodeFields, ObjectOf, KeysOk, NamesDiffer;
    PermutedObject(members, others);
    var fds := FieldsOf(sc, name);
    if fds.Some? {
      assert Unwrap(members, close) == Unwrap(others, close');
      OuterIrrelevant(sc, allow, fds.value, Obj(members, close), Obj(others, close'), Unwrap(members, close), 0,
                      EmptyMessage(fds.value).slots);
    }
  }

  /** The names of the fields from `i` on, in both spellings. */
  function Known(fds: seq<Field>, i: nat): set<string>
    decreases |fds| - i
  {
    if i >= |fds| then {} else {fds[i].name, fds[i].jsonName} + Known(fds, i + 1)
  }

  function Only(obj: map<string, Json>, names: set<string>): map<string, Json> {
    map k | k in obj && k in names :: obj[k]
  }

  lemma OnlyKnown(fds: seq<Field>, i: nat, obj: map<string, Json>)
    requires i < |fds|
    ensures var few, rest := Only(obj, Known(fds, i)), obj - {fds[i].name, fds[i].jsonName};
            && RawOf(few, fds[i]) == RawOf(obj, fds[i])
            && few - {fds[i].name, fds[i].jsonName} == Only(rest, Known(fds, i + 1))
            && (obj.Keys <= Known(fds, i) <==> rest.Keys <= Known(fds, i + 1))
  {}

  /** What the loop makes of an object: what it makes of the known names in it, unless unknown names
      are refused and there is one. */
  lemma {:induction false} UnknownNames(sc: Schema, allow: bool, fds: seq<Field>, j: Json, obj: map<string, Json>, i: nat,
                                        slots: seq<Option<Value>>)
    requires i <= |fds| == |slots| && forall k :: k in obj ==> obj[k] < j
    ensures var known := DecodeFields(sc, allow, fds, j, Only(obj, Known(fds, i)), i, slots);
            DecodeFields(sc, allow, fds, j, obj, i, slots) ==
            if known.Ok? && !allow && !(obj.Keys <= Known(fds, i)) then Err(UnknownField) else known
    decreases |fds| - i
  {
    hide DecodeField, DecodeFields, RawOf, SetSlot, IsSingularValue;
    var few := Only(obj, Known(fds, i));
    if i == |fds| {
      NoFields(sc, allow, fds, j, obj, slots);
      NoFields(sc, allow, fds, j, few, slots);
      assert few == map[];
      assert |obj| > 0 <==> !(obj.Keys <= {});
    } else {
      var fd := fds[i];
      var raw, rest := RawOf(obj, fd), obj - {fd.name, fd.jsonName};
      OnlyKnown(fds, i, obj);
      FieldStep(sc, allow, fds, j, obj, i, slots);
      FieldStep(sc, allow, fds, j, few, i, slots);
      UnknownNames(sc, allow, fds, j, rest, i + 1, slots);
      if raw.Some? && DecodeField(sc, allow, fd, raw.value).Ok? {
        UnknownNames(sc, allow, fds, j, rest, i + 1, SetSlot(fds, slots, i, DecodeField(sc, allow, fd, raw.value).value));
      }
    }
  }

  /** An object with a name that is no field's is refused, whatever else it holds, unless unknown
      fields are allowed. */
  lemma UnknownRefused(sc: Schema, name: string, fds: seq<Field>, members: seq<Member>, close: string, unknown: string)
    requires WellKnownOf(name) == Ordinary && FieldsOf(sc, name) == Some(fds) && KeysOk(members)
    requires unknown in ObjectOf(members)
    requires forall k :: 0 <= k < |fds| ==> unknown != fds[k].name && unknown != fds[k].jsonName
    ensures DecodeMessage(sc, false, name, Obj(members, close)).Err?
  {
    hide DecodeFields, Known;
    KnownAreNames(fds, 0, unknown);
    UnknownNames(sc, false, fds, Obj(members, close), Unwrap(members, close), 0, EmptyMessage(fds).slots);
  }

  lemma {:induction false} KnownAreNames(fds: seq<Field>, i: nat, name: string)
    requires forall k :: i <= k < |fds| ==> name != fds[k].name && name != fds[k].jsonName
    ensures name !in Known(fds, i)
    decreases |fds| - i
  {
    if i < |fds| {
      KnownAreNames(fds, i + 1, name);
    }
  }
}
