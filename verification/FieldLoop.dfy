/** The writer's field loop covers a message: every field that is to be shown, once, in the order
    of declaration. */
module FieldLoop {
  import opened Encode
  import opened ProtoSchema
  import opened Results

  /** The members of every oneof stand together. */
  ghost predicate Contiguous(fds: seq<Field>) {
    forall a, b, c :: 0 <= a < b < c < |fds| && fds[a].oneof.Some? && fds[a].oneof == fds[c].oneof ==>
      fds[b].oneof == fds[a].oneof
  }

  /** No oneof has two populated members. */
  ghost predicate OneEach(fds: seq<Field>, slots: seq<Option<Value>>)
    requires |slots| == |fds|
  {
    forall a, b :: 0 <= a < b < |fds| && slots[a].Some? && slots[b].Some? && fds[a].oneof.Some? ==>
      fds[a].oneof != fds[b].oneof
  }

  /** A field is shown when it is populated, or when defaults are shown and it is in no oneof. */
  predicate Shown(fds: seq<Field>, slots: seq<Option<Value>>, emitDefaults: bool, k: nat)
    requires k < |slots| == |fds|
  {
    slots[k].Some? || (emitDefaults && fds[k].oneof.None?)
  }

  /** The fields to be shown from position `i` on, in the order of declaration. */
  function ShownFrom(fds: seq<Field>, slots: seq<Option<Value>>, emitDefaults: bool, i: nat): seq<nat>
    requires |slots| == |fds|
    decreases |fds| - i
  {
    if i >= |fds| then []
    else
      var rest := ShownFrom(fds, slots, emitDefaults, i + 1);
      if Shown(fds, slots, emitDefaults, i) then [i] + rest else rest
  }

  lemma {:induction false} ShownOnceInOrder(fds: seq<Field>, slots: seq<Option<Value>>, emitDefaults: bool, i: nat)
    requires |slots| == |fds|
    ensures var ks := ShownFrom(fds, slots, emitDefaults, i);
            && (forall k :: k in ks <==> i <= k < |fds| && Shown(fds, slots, emitDefaults, k))
            && (forall x, y :: 0 <= x < y < |ks| ==> ks[x] < ks[y])
    decreases |fds| - i
  {
    if i < |fds| {
      ShownOnceInOrder(fds, slots, emitDefaults, i + 1);
      var ks, rest := ShownFrom(fds, slots, emitDefaults, i), ShownFrom(fds, slots, emitDefaults, i + 1);
      assert forall x :: 0 <= x < |rest| ==> rest[x] in rest;
      assert forall k :: k in ks <==> k in rest || (k == i && Shown(fds, slots, emitDefaults, i));
    }
  }

  /** The end of the run of members of `g` that starts at `i`. */
  function RunEnd(fds: seq<Field>, g: nat, i: nat): (e: nat)
    requires i <= |fds|
    ensures i <= e <= |fds| && (e < |fds| ==> fds[e].oneof != Some(g))
    ensures forall k :: i <= k < e ==> fds[k].oneof == Some(g)
    decreases |fds| - i
  {
    if i < |fds| && fds[i].oneof == Some(g) then RunEnd(fds, g, i + 1) else i
  }

  lemma {:induction false} SizeOfNone(fds: seq<Field>, g: nat, i: nat)
    requires forall k :: i <= k < |fds| ==> fds[k].oneof != Some(g)
    ensures OneofSize(fds, g, i) == 0
    decreases |fds| - i
  {
    if i < |fds| {
      SizeOfNone(fds, g, i + 1);
    }
  }

  lemma {:induction false} SizeSkips(fds: seq<Field>, g: nat, i: nat, j: nat)
    requires i <= j <= |fds| && forall k :: i <= k < j ==> fds[k].oneof != Some(g)
    ensures OneofSize(fds, g, i) == OneofSize(fds, g, j)
    decreases j - i
  {
    if i < j {
      SizeSkips(fds, g, i + 1, j);
    }
  }

  lemma {:induction false} SizeOfRun(fds: seq<Field>, g: nat, i: nat, e: nat)
    requires i <= e <= |fds| && forall k :: i <= k < e ==> fds[k].oneof == Some(g)
    ensures OneofSize(fds, g, i) == e - i + OneofSize(fds, g, e)
    decreases e - i
  {
    if i < e {
      SizeOfRun(fds, g, i + 1, e);
    }
  }

  /** `i` is not in the middle of a oneof. */
  ghost predicate Boundary(fds: seq<Field>, i: nat) {
    0 < i < |fds| && fds[i].oneof.Some? ==> fds[i - 1].oneof != fds[i].oneof
  }

  /** The jump over a oneof lands just behind its last member. */
  lemma JumpLands(fds: seq<Field>, g: nat, i: nat)
    requires Contiguous(fds) && i < |fds| && fds[i].oneof == Some(g) && Boundary(fds, i)
    ensures i + OneofSize(fds, g, 0) == RunEnd(fds, g, i)
    ensures forall k :: 0 <= k < |fds| && fds[k].oneof == Some(g) ==> i <= k < RunEnd(fds, g, i)
    ensures Boundary(fds, RunEnd(fds, g, i))
  {
    var e := RunEnd(fds, g, i);
    assert forall k :: 0 <= k < i ==> fds[k].oneof != Some(g);
    assert forall k :: e <= k < |fds| ==> fds[k].oneof != Some(g);
    SizeSkips(fds, g, 0, i);
    SizeOfRun(fds, g, i, e);
    SizeOfNone(fds, g, e);
  }

  lemma {:induction false} WhichIs(fds: seq<Field>, slots: seq<Option<Value>>, g: nat, i: nat)
    requires |slots| == |fds|
    ensures WhichOneof(fds, slots, g, i).None? ==>
            forall k :: i <= k < |fds| && fds[k].oneof == Some(g) ==> slots[k].None?
    decreases |fds| - i
  {
    if i < |fds| {
      WhichIs(fds, slots, g, i + 1);
    }
  }

  lemma {:induction false} ShownInRun(fds: seq<Field>, slots: seq<Option<Value>>, emitDefaults: bool, k: nat, e: nat,
                                      w: Option<nat>)
    requires |slots| == |fds| && k <= e <= |fds| && (w.Some? ==> w.value < e)
    requires forall x :: k <= x < e ==> fds[x].oneof.Some? && (slots[x].Some? <==> w == Some(x))
    ensures ShownFrom(fds, slots, emitDefaults, k) ==
            if w.Some? && k <= w.value then [w.value] + ShownFrom(fds, slots, emitDefaults, e)
            else ShownFrom(fds, slots, emitDefaults, e)
    decreases e - k
  {
    if k < e {
      ShownInRun(fds, slots, emitDefaults, k + 1, e, w);
    }
  }

  /** Field coverage: the loop, which jumps over oneofs, emits exactly the fields to be shown, each
      once and in order. */
  lemma {:induction false} WriterShowsAll(fds: seq<Field>, slots: seq<Option<Value>>, emitDefaults: bool, i: nat)
    requires |slots| == |fds| && Contiguous(fds) && OneEach(fds, slots) && Boundary(fds, i)
    ensures WriterIndexes(fds, slots, emitDefaults, i) == ShownFrom(fds, slots, emitDefaults, i)
    decreases |fds| - i
  {
    if i < |fds| {
      if fds[i].oneof.Some? {
        var g := fds[i].oneof.value;
        var e := RunEnd(fds, g, i);
        JumpLands(fds, g, i);
        WriterShowsAll(fds, slots, emitDefaults, e);
        WhichIs(fds, slots, g, 0);
        var w := WhichOneof(fds, slots, g, 0);
        forall x | i <= x < e ensures slots[x].Some? <==> w == Some(x) {
          if w.Some? && w.value != x {
            assert fds[x].oneof == fds[w.value].oneof;
          }
        }
        ShownInRun(fds, slots, emitDefaults, i, e, w);
      } else {
        WriterShowsAll(fds, slots, emitDefaults, i + 1);
      }
    }
  }

  /** The members of a oneof must stand together: here the loop shows field 0 twice and never shows
      field 1, which is populated. */
  lemma ScatteredOneof(a: Field, b: Field, c: Field, v: Value, emitDefaults: bool)
    requires a.oneof == c.oneof == Some(7) && b.oneof == None
    ensures var fds, slots := [a, b, c], [Some(v), Some(v), None];
            OneEach(fds, slots) && WriterIndexes(fds, slots, emitDefaults, 0) == [0, 0]
  {
    var fds, slots := [a, b, c], [Some(v), Some(v), None];
    assert OneofSize(fds, 7, 3) == 0;
    assert OneofSize(fds, 7, 2) == OneofSize(fds, 7, 3) + 1;
    assert OneofSize(fds, 7, 1) == OneofSize(fds, 7, 2);
    assert OneofSize(fds, 7, 0) == OneofSize(fds, 7, 1) + 1;
    assert WhichOneof(fds, slots, 7, 0) == Some(0);
    assert WriterIndexes(fds, slots, emitDefaults, 4) == [];
    assert WriterIndexes(fds, slots, emitDefaults, 2) == [0] + WriterIndexes(fds, slots, emitDefaults, 4);
    assert WriterIndexes(fds, slots, emitDefaults, 0) == [0] + WriterIndexes(fds, slots, emitDefaults, 2);
  }
}
