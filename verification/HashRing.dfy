/** What a consistent-hash circle means: the points of an element, the clockwise preference
    list of a key, and the effect of every ring operation on the ring's state. */
module HashRing {
  import opened Decimal
  import Ordered

  type uint32 = x: int | 0 <= x < 0x1_0000_0000

  /** The hash (CRC32 or FNV in the program) is arbitrary. */
  type Hash = string -> uint32

  // ----- points on the circle -----

  function EltKey(elt: string, idx: nat): string {
    Itoa(idx) + elt
  }

  function Points(h: Hash, n: nat, e: string): set<uint32> {
    set i: nat | i < n :: h(EltKey(e, i))
  }

  function PointsOf(h: Hash, n: nat, es: set<string>): set<uint32> {
    set e, p | e in es && p in Points(h, n, e) :: p
  }

  /** No two different elements of `es` share a point. */
  ghost predicate Separate(h: Hash, n: nat, es: set<string>) {
    forall e, f :: e in es && f in es && e != f ==> Points(h, n, e) !! Points(h, n, f)
  }

  /** Separate rings exist. */
  lemma SeparateInstance(n: nat)
    ensures exists h: Hash :: Separate(h, n, {"10.0.0.1:80:0", "10.0.0.2:80:0"})
  {
    var h: Hash := k => if |k| >= 6 && k[|k| - 6] == '1' then 1 else 2;
    var e, f := "10.0.0.1:80:0", "10.0.0.2:80:0";
    forall i: nat | i < n ensures h(EltKey(e, i)) == 1 && h(EltKey(f, i)) == 2 {
      assert EltKey(e, i)[|EltKey(e, i)| - 6] == '1';
      assert EltKey(f, i)[|EltKey(f, i)| - 6] == '2';
    }
    assert Points(h, n, e) <= {1} && Points(h, n, f) <= {2};
    assert Separate(h, n, {e, f});
  }

  /** One element never repeats a replica key. */
  lemma EltKeyInjectiveInIndex(e: string, i: nat, j: nat)
    requires EltKey(e, i) == EltKey(e, j)
    ensures i == j
  {
    assert Itoa(i) == EltKey(e, i)[..|EltKey(e, i)| - |e|];
    assert Itoa(j) == EltKey(e, j)[..|EltKey(e, j)| - |e|];
    DigitsInjective(i, j);
  }

  lemma SuffixSplit(a: string, e: string, b: string, f: string)
    requires |e| <= |f|
    ensures a + e == b + f <==> f[|f| - |e|..] == e && a == b + f[..|f| - |e|]
  {
    var d := f[..|f| - |e|];
    assert f == d + f[|f| - |e|..];
    assert b + f == (b + d) + f[|f| - |e|..];
    if a + e == b + f {
      assert |a| == |b + d|;
      assert (a + e)[..|a|] == a && (a + e)[|a|..] == e;
      assert ((b + d) + f[|f| - |e|..])[..|b + d|] == b + d;
      assert ((b + d) + f[|f| - |e|..])[|b + d|..] == f[|f| - |e|..];
    }
  }

  /** Two elements share a replica key exactly when the longer one is the shorter one behind
      extra digits, and those digits complete one index to the other. */
  lemma EltKeyCollision(e: string, i: nat, f: string, j: nat)
    requires |e| <= |f|
    ensures var d := f[..|f| - |e|];
            EltKey(e, i) == EltKey(f, j) <==>
            f[|d|..] == e && AllDigits(d) && Itoa(i) == Itoa(j) + d
  {
    SuffixSplit(Itoa(i), e, Itoa(j), f);
    var d := f[..|f| - |e|];
    if Itoa(i) == Itoa(j) + d {
      assert forall k :: 0 <= k < |d| ==> d[k] == Itoa(i)[|Itoa(j)| + k];
    }
  }

  /** With twelve or more replicas two ordinary slot keys collide under EVERY hash: replica 11 of
      the one and replica 1 of the other have the same key. */
  lemma CollisionForEveryHash(h: Hash, n: nat)
    requires 12 <= n
    ensures !Separate(h, n, {"1.0.0.1:80:0", "11.0.0.1:80:0"})
  {
    var e, f := "1.0.0.1:80:0", "11.0.0.1:80:0";
    assert Digits(1) == "1";
    assert Itoa(11) == "11";
    assert f == "1" + e;
    EltKeyCollision(e, 11, f, 1);
    assert h(EltKey(e, 11)) in Points(h, n, e);
    assert h(EltKey(f, 1)) in Points(h, n, f);
    assert |e| != |f|;
  }

  // ----- ascending lists of points -----

  predicate Below(a: uint32, b: uint32) {
    a < b
  }

  lemma BelowStrict()
    ensures Ordered.StrictOrder(Below)
  {}

  /** `s` is the ascending list of `keys`, each once. */
  ghost predicate Lists(s: seq<uint32>, keys: set<uint32>) {
    Ordered.Lists(Below, s, keys)
  }

  lemma ListsUnique(s: seq<uint32>, t: seq<uint32>, keys: set<uint32>)
    requires Lists(s, keys) && Lists(t, keys)
    ensures s == t
  {
    BelowStrict();
    Ordered.ListsUnique(Below, s, t, keys);
  }

  ghost function Ascending(keys: set<uint32>): (s: seq<uint32>)
    ensures Lists(s, keys)
  {
    BelowStrict();
    Ordered.Ascending(Below, keys)
  }

  ghost function LeastOf(keys: set<uint32>): (m: uint32)
    requires keys != {}
    ensures m in keys && forall x :: x in keys ==> m <= x
  {
    BelowStrict();
    Ordered.Least(Below, keys)
  }

  // ----- the state of a ring and its operations -----

  datatype RingState = RingState(circle: map<uint32, string>, members: set<string>, count: int)

  datatype RingOp = Add(elt: string) | Remove(elt: string) | Set(elts: seq<string>)

  const EMPTY := RingState(map[], {}, 0)

  /** Every point of `ps` goes to `e`, whoever had it. */
  function Claim(circle: map<uint32, string>, ps: set<uint32>, e: string): map<uint32, string> {
    circle + map p | p in ps :: e
  }

  lemma PointsNext(h: Hash, n: nat, e: string)
    ensures Points(h, n + 1, e) == Points(h, n, e) + {h(EltKey(e, n))}
  {}

  lemma ClaimNext(circle: map<uint32, string>, ps: set<uint32>, e: string, p: uint32)
    ensures Claim(circle, ps, e)[p := e] == Claim(circle, ps + {p}, e)
  {}

  function AddElt(h: Hash, n: nat, s: RingState, e: string): RingState {
    RingState(Claim(s.circle, Points(h, n, e), e), s.members + {e}, s.count + 1)
  }

  function RemoveElt(h: Hash, n: nat, s: RingState, e: string): RingState {
    RingState(s.circle - Points(h, n, e), s.members - {e}, s.count - 1)
  }

  function AddMissing(h: Hash, n: nat, s: RingState, elts: seq<string>): RingState
    decreases |elts|
  {
    if elts == [] then s
    else AddMissing(h, n, if elts[0] in s.members then s else AddElt(h, n, s, elts[0]), elts[1..])
  }

  function Retain(h: Hash, n: nat, s: RingState, keep: set<string>): RingState {
    RingState(s.circle - PointsOf(h, n, s.members - keep), s.members * keep, s.count - |s.members - keep|)
  }

  function Elements(elts: seq<string>): set<string> {
    set e | e in elts
  }

  function SetElts(h: Hash, n: nat, s: RingState, elts: seq<string>): RingState {
    AddMissing(h, n, Retain(h, n, s, Elements(elts)), elts)
  }

  function Step(h: Hash, n: nat, s: RingState, op: RingOp): RingState {
    match op
    case Add(e) => AddElt(h, n, s, e)
    case Remove(e) => RemoveElt(h, n, s, e)
    case Set(elts) => SetElts(h, n, s, elts)
  }

  function Run(h: Hash, n: nat, ops: seq<RingOp>): RingState {
    if ops == [] then EMPTY else Step(h, n, Run(h, n, ops[..|ops| - 1]), ops[|ops| - 1])
  }

  // ----- what every operation keeps, whatever collides -----

  /** Every point belongs to a member that has it among its replica hashes. */
  ghost predicate Owned(h: Hash, n: nat, s: RingState) {
    forall p :: p in s.circle ==> s.circle[p] in s.members && p in Points(h, n, s.circle[p])
  }

  lemma {:induction false} AddMissingKeepsOwned(h: Hash, n: nat, s: RingState, elts: seq<string>)
    requires Owned(h, n, s)
    ensures Owned(h, n, AddMissing(h, n, s, elts))
    ensures AddMissing(h, n, s, elts).members == s.members + Elements(elts)
    decreases |elts|
  {
    if elts == [] {
    } else {
      var t := if elts[0] in s.members then s else AddElt(h, n, s, elts[0]);
      AddMissingKeepsOwned(h, n, t, elts[1..]);
      assert Elements(elts) == {elts[0]} + Elements(elts[1..]);
    }
  }

  lemma StepKeepsOwned(h: Hash, n: nat, s: RingState, op: RingOp)
    requires Owned(h, n, s)
    ensures Owned(h, n, Step(h, n, s, op))
  {
    match op
    case Add(_) =>
    case Remove(_) =>
    case Set(elts) =>
      var r := Retain(h, n, s, Elements(elts));
      forall p | p in r.circle ensures r.circle[p] in r.members && p in Points(h, n, r.circle[p]) {
        assert p in s.circle;
      }
      AddMissingKeepsOwned(h, n, r, elts);
  }

  /** The ring invariant over every run: repeated adds, stray removes and collisions included. */
  lemma {:induction false} RunOwned(h: Hash, n: nat, ops: seq<RingOp>)
    ensures Owned(h, n, Run(h, n, ops))
  {
    if ops == [] {
    } else {
      RunOwned(h, n, ops[..|ops| - 1]);
      StepKeepsOwned(h, n, Run(h, n, ops[..|ops| - 1]), ops[|ops| - 1]);
    }
  }

  // ----- history independence -----

  /** The ring holds exactly the points of its members, and counts them. */
  ghost predicate Canonical(h: Hash, n: nat, s: RingState) {
    Owned(h, n, s) && s.circle.Keys == PointsOf(h, n, s.members) && s.count == |s.members|
  }

  /** The members determine a canonical ring: circle and count. */
  lemma CanonicalUnique(h: Hash, n: nat, s: RingState, t: RingState)
    requires Canonical(h, n, s) && Canonical(h, n, t) && s.members == t.members
    requires Separate(h, n, s.members)
    ensures s == t
  {
    forall p | p in s.circle ensures s.circle[p] == t.circle[p] {
      assert p in Points(h, n, s.circle[p]) && p in Points(h, n, t.circle[p]);
    }
    assert s.circle == t.circle;
  }

  /** What the caller of an operation has to see to for the ring to stay canonical. */
  ghost predicate Regular(h: Hash, n: nat, s: RingState, op: RingOp) {
    match op
    case Add(e) => e !in s.members && Separate(h, n, s.members + {e})
    case Remove(e) => e in s.members
    case Set(elts) => Separate(h, n, Elements(elts))
  }

  ghost predicate RegularRun(h: Hash, n: nat, ops: seq<RingOp>) {
    forall k :: 0 <= k < |ops| ==> Regular(h, n, Run(h, n, ops[..k]), ops[k])
  }

  lemma PointsOfMore(h: Hash, n: nat, es: set<string>, e: string)
    ensures PointsOf(h, n, es + {e}) == PointsOf(h, n, es) + Points(h, n, e)
  {}

  lemma AddKeepsCanonical(h: Hash, n: nat, s: RingState, e: string)
    requires Canonical(h, n, s) && e !in s.members && Separate(h, n, s.members + {e})
    ensures Canonical(h, n, AddElt(h, n, s, e))
  {
    PointsOfMore(h, n, s.members, e);
    assert AddElt(h, n, s, e).circle.Keys == s.circle.Keys + Points(h, n, e);
  }

  lemma PointsOfRest(h: Hash, n: nat, es: set<string>, gone: set<string>)
    requires gone <= es && Separate(h, n, es)
    ensures PointsOf(h, n, es - gone) == PointsOf(h, n, es) - PointsOf(h, n, gone)
  {
    forall p | p in PointsOf(h, n, es - gone) ensures p in PointsOf(h, n, es) - PointsOf(h, n, gone) {
      var e :| e in es - gone && p in Points(h, n, e);
      assert forall f :: f in gone ==> p !in Points(h, n, f);
    }
  }

  lemma RetainAll(h: Hash, n: nat, s: RingState, keep: set<string>)
    requires s.members <= keep
    ensures Retain(h, n, s, keep) == s
  {
    assert s.members - keep == {};
    assert PointsOf(h, n, {}) == {};
    assert s.circle - {} == s.circle;
    assert s.members * keep == s.members;
  }

  /** Retaining one member less is retaining, then removing it. */
  lemma RetainLess(h: Hash, n: nat, s: RingState, keep: set<string>, k: string)
    requires k in keep && k in s.members
    ensures RemoveElt(h, n, Retain(h, n, s, keep), k) == Retain(h, n, s, keep - {k})
  {
    assert s.members - (keep - {k}) == (s.members - keep) + {k};
    PointsOfMore(h, n, s.members - keep, k);
    assert s.circle - PointsOf(h, n, s.members - keep) - Points(h, n, k) ==
           s.circle - (PointsOf(h, n, s.members - keep) + Points(h, n, k));
    assert s.members * (keep - {k}) == s.members * keep - {k};
  }

  lemma RetainKeepsCanonical(h: Hash, n: nat, s: RingState, keep: set<string>)
    requires Canonical(h, n, s) && Separate(h, n, s.members)
    ensures Canonical(h, n, Retain(h, n, s, keep))
  {
    var t, gone := Retain(h, n, s, keep), s.members - keep;
    PointsOfRest(h, n, s.members, gone);
    assert t.members == s.members - gone;
    forall p | p in t.circle ensures t.circle[p] in t.members && p in Points(h, n, t.circle[p]) {
      assert p in s.circle;
    }
    assert s.members == t.members + gone;
  }

  lemma {:induction false} AddMissingKeepsCanonical(h: Hash, n: nat, s: RingState, elts: seq<string>)
    requires Canonical(h, n, s) && Separate(h, n, s.members + Elements(elts))
    ensures Canonical(h, n, AddMissing(h, n, s, elts))
    decreases |elts|
  {
    if elts == [] {
    } else {
      assert Elements(elts) == {elts[0]} + Elements(elts[1..]);
      if elts[0] !in s.members {
        AddKeepsCanonical(h, n, s, elts[0]);
      }
      AddMissingKeepsCanonical(h, n, if elts[0] in s.members then s else AddElt(h, n, s, elts[0]), elts[1..]);
    }
  }

  lemma StepKeepsCanonical(h: Hash, n: nat, s: RingState, op: RingOp)
    requires Canonical(h, n, s) && Separate(h, n, s.members) && Regular(h, n, s, op)
    ensures Canonical(h, n, Step(h, n, s, op)) && Separate(h, n, Step(h, n, s, op).members)
  {
    match op
    case Add(e) => AddKeepsCanonical(h, n, s, e);
    case Remove(e) =>
      RetainKeepsCanonical(h, n, s, s.members - {e});
      assert s.members - (s.members - {e}) == {e};
      assert PointsOf(h, n, {e}) == Points(h, n, e);
      assert Retain(h, n, s, s.members - {e}) == RemoveElt(h, n, s, e);
    case Set(elts) =>
      var r := Retain(h, n, s, Elements(elts));
      RetainKeepsCanonical(h, n, s, Elements(elts));
      assert r.members + Elements(elts) == Elements(elts);
      AddMissingKeepsCanonical(h, n, r, elts);
      AddMissingKeepsOwned(h, n, r, elts);
  }

  lemma {:induction false} RunCanonical(h: Hash, n: nat, ops: seq<RingOp>)
    requires RegularRun(h, n, ops)
    ensures Canonical(h, n, Run(h, n, ops)) && Separate(h, n, Run(h, n, ops).members)
  {
    if ops == [] {
      assert PointsOf(h, n, {}) == {};
    } else {
      var rest := ops[..|ops| - 1];
      forall k | 0 <= k < |rest| ensures Regular(h, n, Run(h, n, rest[..k]), rest[k]) {
        assert rest[..k] == ops[..k];
      }
      RunCanonical(h, n, rest);
      StepKeepsCanonical(h, n, Run(h, n, rest), ops[|ops| - 1]);
    }
  }

  /** History independence: two runs that end with the same members end in the same ring. */
  lemma HistoryIndependence(h: Hash, n: nat, ops: seq<RingOp>, ops': seq<RingOp>)
    requires RegularRun(h, n, ops) && RegularRun(h, n, ops')
    requires Run(h, n, ops).members == Run(h, n, ops').members
    ensures Run(h, n, ops) == Run(h, n, ops')
  {
    RunCanonical(h, n, ops);
    RunCanonical(h, n, ops');
    CanonicalUnique(h, n, Run(h, n, ops), Run(h, n, ops'));
  }

  /** `Set` forgets the ring it starts from: it gives the ring freshly built from its list. */
  lemma SetForgetsHistory(h: Hash, n: nat, s: RingState, elts: seq<string>)
    requires Canonical(h, n, s) && Separate(h, n, s.members) && Separate(h, n, Elements(elts))
    ensures SetElts(h, n, s, elts) == AddMissing(h, n, EMPTY, elts)
    ensures SetElts(h, n, s, elts).members == Elements(elts)
  {
    var r := Retain(h, n, s, Elements(elts));
    StepKeepsCanonical(h, n, s, Set(elts));
    AddMissingKeepsOwned(h, n, r, elts);
    assert r.members + Elements(elts) == Elements(elts);
    assert PointsOf(h, n, {}) == {};
    assert EMPTY.members + Elements(elts) == Elements(elts);
    AddMissingKeepsCanonical(h, n, EMPTY, elts);
    AddMissingKeepsOwned(h, n, EMPTY, elts);
    CanonicalUnique(h, n, SetElts(h, n, s, elts), AddMissing(h, n, EMPTY, elts));
  }

  /** `Remove` undoes `Add` exactly when the element is new and none of its points is taken. */
  lemma RemoveUndoesAdd(h: Hash, n: nat, s: RingState, e: string)
    ensures RemoveElt(h, n, AddElt(h, n, s, e), e) == s <==>
            e !in s.members && Points(h, n, e) !! s.circle.Keys
  {
    var t := RemoveElt(h, n, AddElt(h, n, s, e), e);
    assert t.circle == s.circle - Points(h, n, e);
    assert t.members == s.members - {e};
    if t == s {
      assert s.circle.Keys == s.circle.Keys - Points(h, n, e);
    }
    if e !in s.members && Points(h, n, e) !! s.circle.Keys {
      assert t.circle == s.circle && t.members == s.members;
    }
  }

  lemma ClaimsCommute(c: map<uint32, string>, ps: set<uint32>, e: string, qs: set<uint32>, f: string)
    ensures Claim(Claim(c, ps, e), qs, f) == Claim(Claim(c, qs, f), ps, e) <==> e == f || ps !! qs
  {
    var ef, fe := Claim(Claim(c, ps, e), qs, f), Claim(Claim(c, qs, f), ps, e);
    if e == f || ps !! qs {
      assert ef == fe;
    } else {
      var p :| p in ps && p in qs;
      assert ef[p] == f && fe[p] == e;
    }
  }

  /** The order of two adds does not matter exactly when the elements share no point. */
  lemma AddsCommute(h: Hash, n: nat, s: RingState, e: string, f: string)
    ensures AddElt(h, n, AddElt(h, n, s, e), f) == AddElt(h, n, AddElt(h, n, s, f), e) <==>
            e == f || Points(h, n, e) !! Points(h, n, f)
  {
    ClaimsCommute(s.circle, Points(h, n, e), e, Points(h, n, f), f);
    assert s.members + {e} + {f} == s.members + {f} + {e};
  }

  // ----- what a count can promise -----

  lemma MemberOwnsItsPoints(h: Hash, n: nat, s: RingState, e: string, p: uint32)
    requires Canonical(h, n, s) && Separate(h, n, s.members)
    requires e in s.members && p in Points(h, n, e)
    ensures p in s.circle && s.circle[p] == e
  {
    assert p in PointsOf(h, n, s.members);
    assert p in s.circle.Keys;
    assert p in Points(h, n, s.circle[p]);
  }

  lemma MemberOwnsAPoint(h: Hash, n: nat, s: RingState, e: string)
    requires Canonical(h, n, s) && Separate(h, n, s.members) && 1 <= n && e in s.members
    ensures e in s.circle.Values
  {
    var p := h(EltKey(e, 0));
    assert p in Points(h, n, e);
    MemberOwnsItsPoints(h, n, s, e, p);
  }

  lemma OwnersAreMembers(h: Hash, n: nat, s: RingState)
    requires Owned(h, n, s)
    ensures s.circle.Values <= s.members
  {
    forall e | e in s.circle.Values ensures e in s.members {
      var p :| p in s.circle && s.circle[p] == e;
    }
  }

  /** Without collisions every member owns a point, so the count is the number of owners. */
  lemma CanonicalOwners(h: Hash, n: nat, s: RingState)
    requires Canonical(h, n, s) && Separate(h, n, s.members) && 1 <= n
    ensures s.circle.Values == s.members && s.count == |s.circle.Values|
  {
    hide Points, PointsOf, Separate;
    OwnersAreMembers(h, n, s);
    forall e | e in s.members ensures e in s.circle.Values {
      MemberOwnsAPoint(h, n, s, e);
    }
  }
}
