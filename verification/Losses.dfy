/** What the trip through JSON loses, message by message, and a message that it keeps. */
module Losses {
  import opened Decode
  import opened Encode
  import opened FieldLoop
  import opened GoodMessages
  import opened JsonText
  import opened ProtoSchema
  import opened Results
  import opened RoundTrip
  import opened ScalarTrip

  const NODE_FIELDS := [
    Field("value", "value", MessageKind(VALUE), Singular, None),
    Field("first_child", "firstChild", MessageKind("Node"), Singular, None),
    Field("as_number", "asNumber", Int64Kind, Singular, Some(0)),
    Field("as_text", "asText", StringKind, Singular, Some(0)),
    Field("tags", "tags", StringKind, Repeated, None)]

  /** One message type: a value, a child of its own type, a oneof of a number and a text, a list. */
  const NODES := Schema(map["Node" := NODE_FIELDS], map[])

  function Node(value: Option<Value>, child: Option<Value>, number: Option<Value>, text: Option<Value>,
                tags: Option<Value>): Value
  {
    MsgV([value, child, number, text, tags])
  }

  /** All spellings have different lengths. */
  lemma NodeNames()
    ensures |NODE_FIELDS| == 5
    ensures |NODE_FIELDS[0].name| == 5 && |NODE_FIELDS[0].jsonName| == 5
    ensures |NODE_FIELDS[1].name| == 11 && |NODE_FIELDS[1].jsonName| == 10
    ensures |NODE_FIELDS[2].name| == 9 && |NODE_FIELDS[2].jsonName| == 8
    ensures |NODE_FIELDS[3].name| == 7 && |NODE_FIELDS[3].jsonName| == 6
    ensures |NODE_FIELDS[4].name| == 4 && |NODE_FIELDS[4].jsonName| == 4
  {}

  lemma NodeNamesPlain(i: nat)
    requires i < |NODE_FIELDS|
    ensures Plain(NODE_FIELDS[i].name) && Plain(NODE_FIELDS[i].jsonName)
  {}

  lemma NodeNamesGood()
    ensures GoodNames(NODE_FIELDS)
  {
    hide Plain, NODE_FIELDS;
    NodeNames();
    forall i | 0 <= i < |NODE_FIELDS| ensures Plain(NODE_FIELDS[i].name) && Plain(NODE_FIELDS[i].jsonName) {
      NodeNamesPlain(i);
    }
  }

  lemma NodeFields()
    ensures WellKnownOf("Node") == Ordinary && FieldsOf(NODES, "Node") == Some(NODE_FIELDS)
    ensures GoodFields(NODE_FIELDS)
  {
    hide GoodNames;
    assert |"Node"| == 4;
    NodeNamesGood();
  }

  lemma {:induction false} GoodNodeSlots(value: Option<Value>, child: Option<Value>, number: Option<Value>,
                                           text: Option<Value>, tags: Option<Value>)
    requires value.Some? ==> Good(NODES, VALUE, value.value)
    requires child.Some? ==> Good(NODES, "Node", child.value)
    requires number.Some? ==> number.value.IntV? && InRange(Int64Kind, number.value.n)
    requires text.Some? ==> text.value.StrV?
    requires tags.Some? ==> tags.value.ListV? && tags.value.elems != []
                            && forall i :: 0 <= i < |tags.value.elems| ==> tags.value.elems[i].StrV?
    ensures GoodSlot(NODES, NODE_FIELDS[0], value) && GoodSlot(NODES, NODE_FIELDS[1], child)
    ensures GoodSlot(NODES, NODE_FIELDS[2], number) && GoodSlot(NODES, NODE_FIELDS[3], text)
    ensures GoodSlot(NODES, NODE_FIELDS[4], tags)
  {
    hide Good, InRange;
  }

  lemma NodeOneEach(v: Value)
    requires v.MsgV? && |v.slots| == 5 && !(v.slots[2].Some? && v.slots[3].Some?)
    ensures OneEach(NODE_FIELDS, v.slots)
  {
    assert NODE_FIELDS[0].oneof == NODE_FIELDS[1].oneof == NODE_FIELDS[4].oneof == None;
  }

  /** A node of good parts is good, when not both members of the oneof are set. */
  lemma {:induction false} GoodNode(value: Option<Value>, child: Option<Value>, number: Option<Value>,
                                      text: Option<Value>, tags: Option<Value>)
    requires value.Some? ==> Good(NODES, VALUE, value.value)
    requires child.Some? ==> Good(NODES, "Node", child.value)
    requires number.Some? ==> number.value.IntV? && InRange(Int64Kind, number.value.n) && text.None?
    requires text.Some? ==> text.value.StrV?
    requires tags.Some? ==> tags.value.ListV? && tags.value.elems != []
                            && forall i :: 0 <= i < |tags.value.elems| ==> tags.value.elems[i].StrV?
    ensures Good(NODES, "Node", Node(value, child, number, text, tags))
  {
    hide GoodFields, GoodSlot, OneEach;
    NodeFields();
    var v := Node(value, child, number, text, tags);
    GoodNodeSlots(value, child, number, text, tags);
    NodeOneEach(v);
  }

  /** First loss: an unset `google.protobuf.Value` field whose default is shown comes back as the null
      value. */
  lemma UnsetValueLost(o: Options, allowUnknown: bool)
    requires AllSpace(o.indent) && o.emitDefaults
    ensures var v := Node(None, None, None, None, None);
            var text := Marshal(NODES, o, "Node", v);
            && Good(NODES, "Node", v) && !Kept(NODES, o, "Node", v)
            && text.Ok?
            && Unmarshal(NODES, allowUnknown, "Node", text.value) ==
               Ok(Node(Some(ValueWith(0, EnumV(0))), None, None, None, None))
  {
    hide Good, Settled, Kept, Marshal, Unmarshal;
    var v := Node(None, None, None, None, None);
    GoodNode(None, None, None, None, None);
    UnsetNodeSettles(o);
    assert v.slots[0] != Node(Some(ValueWith(0, EnumV(0))), None, None, None, None).slots[0];
    SettledIsKept(NODES, o, "Node", v);
    MarshalUnmarshal(NODES, o, allowUnknown, "Node", v);
  }

  lemma UnsetNodeSettles(o: Options)
    requires o.emitDefaults
    ensures Settled(NODES, o, "Node", Node(None, None, None, None, None)) ==
            Node(Some(ValueWith(0, EnumV(0))), None, None, None, None)
  {
    hide GoodFields, ValueWith;
    NodeFields();
    var v := Node(None, None, None, None, None);
    assert Filled(o, NODE_FIELDS[0], None);
    var back := Settled(NODES, o, "Node", v).slots;
    assert back == Node(Some(ValueWith(0, EnumV(0))), None, None, None, None).slots;
  }

  /** Second loss: a number that is not finite comes back as a string. */
  lemma NonFiniteLost(sc: Schema, o: Options, allowUnknown: bool, num: Number)
    requires AllSpace(o.indent) && !num.Finite?
    ensures var v := ValueWith(1, NumV(num));
            var text := Marshal(sc, o, VALUE, v);
            && Good(sc, VALUE, v) && !Kept(sc, o, VALUE, v)
            && text.Ok?
            && Unmarshal(sc, allowUnknown, VALUE, text.value) == Ok(ValueWith(2, StrV(NumberJson(num).raw)))
  {
    hide Marshal, Unmarshal;
    var v := ValueWith(1, NumV(num));
    assert v.slots[1] == Some(NumV(num));
    assert forall k :: 0 <= k < 6 && k != 1 ==> v.slots[k] == None;
    MarshalUnmarshal(sc, o, allowUnknown, VALUE, v);
  }

  /** Third loss: the number of a null comes back as 0. */
  lemma NullNumberLost(sc: Schema, o: Options, allowUnknown: bool, n: int)
    requires AllSpace(o.indent) && n != 0
    ensures var v := ValueWith(0, EnumV(n));
            var text := Marshal(sc, o, VALUE, v);
            && Good(sc, VALUE, v) && !Kept(sc, o, VALUE, v)
            && text.Ok?
            && Unmarshal(sc, allowUnknown, VALUE, text.value) == Ok(ValueWith(0, EnumV(0)))
  {
    hide Marshal, Unmarshal;
    var v := ValueWith(0, EnumV(n));
    assert v.slots[0] == Some(EnumV(n));
    assert forall k :: 0 <= k < 6 && k != 0 ==> v.slots[k] == None;
    MarshalUnmarshal(sc, o, allowUnknown, VALUE, v);
  }

  const YES := ValueWith(3, BoolV(true))
  const INNER := Node(Some(YES), None, Some(IntV(-5)), None, None)
  const OUTER := Node(Some(YES), Some(INNER), None, Some(StrV("a \"b\"")), Some(ListV([StrV("x"), StrV("")])))

  /** A message with a value, a nested message, both members of a oneof in use and a list comes back as
      it was, under every setting. */
  lemma NodeKept(o: Options, allowUnknown: bool)
    requires AllSpace(o.indent)
    ensures Good(NODES, "Node", OUTER) && Kept(NODES, o, "Node", OUTER)
    ensures var text := Marshal(NODES, o, "Node", OUTER);
            text.Ok? && Unmarshal(NODES, allowUnknown, "Node", text.value) == Ok(OUTER)
  {
    hide Good, Kept, Marshal, Unmarshal;
    YesKept(o);
    NodesGood(o);
    KeptNode(o, YES, None, INNER);
    KeptNode(o, YES, Some(INNER), OUTER);
    RoundTripExact(NODES, o, allowUnknown, "Node", OUTER);
  }

  lemma NodesGood(o: Options)
    ensures Good(NODES, "Node", INNER) && Good(NODES, "Node", OUTER)
  {
    hide Good, Kept;
    YesKept(o);
    GoodNode(Some(YES), None, Some(IntV(-5)), None, None);
    GoodNode(Some(YES), Some(INNER), None, OUTER.slots[3], OUTER.slots[4]);
  }

  lemma YesKept(o: Options)
    ensures Good(NODES, VALUE, YES) && Kept(NODES, o, VALUE, YES)
  {
    assert YES.slots[3] == Some(BoolV(true));
    assert forall k :: 0 <= k < 6 && k != 3 ==> YES.slots[k] == None;
  }

  /** A node with its value set is kept when its parts are. */
  lemma KeptNode(o: Options, value: Value, child: Option<Value>, v: Value)
    requires Good(NODES, "Node", v) && v.slots[0] == Some(value) && v.slots[1] == child
    requires Good(NODES, VALUE, value) && Kept(NODES, o, VALUE, value)
    requires child.Some? ==> Good(NODES, "Node", child.value) && Kept(NODES, o, "Node", child.value)
    ensures Kept(NODES, o, "Node", v)
  {
    NodeFields();
    hide GoodFields;
    forall i | 0 <= i < 5
      ensures !Filled(o, NODE_FIELDS[i], v.slots[i]) && KeptSlot(NODES, o, NODE_FIELDS[i], v.slots[i])
    {}
  }
}
