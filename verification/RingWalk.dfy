/** The wrap-around walk that `GetN` takes over the sorted points: what it collects, and exactly
    when its loop is ever left. */
module RingWalk {
  import opened HashRing
  import opened Preference
  import opened Results

  /** The loop's variables: the index (before the wrap-around) and the elements found so far. */
  datatype Walk = Walk(i: nat, res: seq<string>)

  /** One turn of the loop, from its guard to its increment; `None` when the loop is left. */
  function Turn(circle: map<uint32, string>, sorted: seq<uint32>, start: nat, n: int, w: Walk): Option<Walk>
    requires sorted != [] && forall p :: p in sorted ==> p in circle
  {
    if w.i == start then None else
      var i := if w.i >= |sorted| then 0 else w.i;
      var elem := circle[sorted[i]];
      var res := if elem in w.res then w.res else w.res + [elem];
      if |res| == n then None else Some(Walk(i + 1, res))
  }

  /** The loop's variables after `k` turns, unless it has been left by then. */
  function After(circle: map<uint32, string>, sorted: seq<uint32>, start: nat, n: int, k: nat): Option<Walk>
    requires start < |sorted| && forall p :: p in sorted ==> p in circle
  {
    if k == 0 then Some(Walk(start + 1, [circle[sorted[start]]])) else
      match After(circle, sorted, start, n, k - 1)
      case None => None
      case Some(w) => Turn(circle, sorted, start, n, w)
  }

  function Rotation(sorted: seq<uint32>, start: nat): seq<uint32>
    requires start <= |sorted|
  {
    sorted[start..] + sorted[..start]
  }

  /** The elements met on the first `k` positions of the rotation. */
  function Met(circle: map<uint32, string>, sorted: seq<uint32>, start: nat, k: nat): seq<string>
    requires start < |sorted| && k <= |sorted| && forall p :: p in sorted ==> p in circle
  {
    assert forall j :: 0 <= j < k ==> Rotation(sorted, start)[j] in sorted;
    Distinct(Owners(circle, Rotation(sorted, start)[..k]))
  }

  lemma MetNext(circle: map<uint32, string>, sorted: seq<uint32>, start: nat, k: nat)
    requires start < |sorted| && k < |sorted| && forall p :: p in sorted ==> p in circle
    ensures var i := if start + k < |sorted| then start + k else start + k - |sorted|;
            var elem := circle[sorted[i]];
            Met(circle, sorted, start, k + 1) ==
            if elem in Met(circle, sorted, start, k) then Met(circle, sorted, start, k)
            else Met(circle, sorted, start, k) + [elem]
  {
    var rot := Rotation(sorted, start);
    assert forall j :: 0 <= j < |rot| ==> rot[j] in sorted;
    assert rot[..k + 1] == rot[..k] + [rot[k]];
    OwnersSnoc(circle, rot[..k], rot[k]);
    DistinctSnoc(Owners(circle, rot[..k]), circle[rot[k]]);
    DistinctMembers(Owners(circle, rot[..k]), circle[rot[k]]);
  }

  lemma MetFirst(circle: map<uint32, string>, sorted: seq<uint32>, start: nat)
    requires start < |sorted| && forall p :: p in sorted ==> p in circle
    ensures Met(circle, sorted, start, 1) == [circle[sorted[start]]]
  {
    MetNext(circle, sorted, start, 0);
  }

  lemma {:induction false} MetIsPrefix(circle: map<uint32, string>, sorted: seq<uint32>, start: nat, k: nat)
    requires start < |sorted| && k <= |sorted| && forall p :: p in sorted ==> p in circle
    ensures Met(circle, sorted, start, k) <= Met(circle, sorted, start, |sorted|)
    decreases |sorted| - k
  {
    if k < |sorted| {
      MetNext(circle, sorted, start, k);
      MetIsPrefix(circle, sorted, start, k + 1);
    }
  }

  /** The index variable after `k` positions have been visited. */
  function IndexAfter(size: nat, start: nat, k: nat): int {
    if start + k <= size then start + k else start + k - size
  }

  /** The step both walks share: the next position, its owner, and where that leaves the walk. */
  lemma MetStep(circle: map<uint32, string>, sorted: seq<uint32>, start: nat, k: nat, i: nat)
    requires start < |sorted| && 1 <= k < |sorted| && i == IndexAfter(|sorted|, start, k)
    requires forall p :: p in sorted ==> p in circle
    ensures var met, elem := Met(circle, sorted, start, k), circle[sorted[if i >= |sorted| then 0 else i]];
            && Met(circle, sorted, start, k + 1) == (if elem in met then met else met + [elem])
            && Met(circle, sorted, start, k + 1) <= Met(circle, sorted, start, |sorted|)
  {
    MetNext(circle, sorted, start, k);
    MetIsPrefix(circle, sorted, start, k + 1);
  }

  /** Once round, the walk has met the whole preference list. */
  lemma MetAll(circle: map<uint32, string>, sorted: seq<uint32>, key: uint32, start: nat)
    requires Lists(sorted, circle.Keys) && StartsAt(sorted, key, start)
    ensures Met(circle, sorted, start, |sorted|) == PreferenceList(circle, key)
  {
    RotationIsClockwise(sorted, circle.Keys, key, start);
    assert Rotation(sorted, start)[..|sorted|] == Rotation(sorted, start);
  }

  lemma TurnVisitsNext(circle: map<uint32, string>, sorted: seq<uint32>, start: nat, n: int, k: nat, w: Walk)
    requires start < |sorted| && 1 <= k < |sorted| && forall p :: p in sorted ==> p in circle
    requires w.i == IndexAfter(|sorted|, start, k) && w.res == Met(circle, sorted, start, k)
    ensures var res := Met(circle, sorted, start, k + 1);
            Turn(circle, sorted, start, n, w) ==
            if |res| == n then None else Some(Walk(IndexAfter(|sorted|, start, k + 1), res))
    ensures |Met(circle, sorted, start, k + 1)| <= |w.res| + 1
  {
    MetNext(circle, sorted, start, k);
  }

  lemma {:induction false} AfterTurns(circle: map<uint32, string>, sorted: seq<uint32>, start: nat, n: int, k: nat)
    requires start < |sorted| && k < |sorted| && n != 1 && forall p :: p in sorted ==> p in circle
    ensures var a := After(circle, sorted, start, n, k);
            a.Some? ==>
            && a.value == Walk(IndexAfter(|sorted|, start, k + 1), Met(circle, sorted, start, k + 1))
            && |a.value.res| != n
            && (2 <= n ==> |a.value.res| < n)
  {
    if k == 0 {
      MetFirst(circle, sorted, start);
    } else {
      AfterTurns(circle, sorted, start, n, k - 1);
      var a := After(circle, sorted, start, n, k - 1);
      if a.Some? {
        TurnVisitsNext(circle, sorted, start, n, k, a.value);
      }
    }
  }

  /** A walk that starts at index 0 and never has `n` elements goes round for ever. */
  lemma {:induction false} NeverLeft(circle: map<uint32, string>, sorted: seq<uint32>, n: int, k: nat)
    requires Lists(sorted, circle.Keys) && sorted != []
    requires n == 0 || |circle.Values| < n
    ensures var a := After(circle, sorted, 0, n, k);
            && a.Some? && 1 <= a.value.i && a.value.res != []
            && (forall e :: e in a.value.res ==> e in circle.Values)
            && (forall i, j :: 0 <= i < j < |a.value.res| ==> a.value.res[i] != a.value.res[j])
  {
    if k == 0 {
      assert sorted[0] in circle;
    } else {
      NeverLeft(circle, sorted, n, k - 1);
      var w := After(circle, sorted, 0, n, k - 1).value;
      var i := if w.i >= |sorted| then 0 else w.i;
      assert sorted[i] in circle;
      var elem := circle[sorted[i]];
      var res := if elem in w.res then w.res else w.res + [elem];
      AtMost(res, circle.Values);
    }
  }

  lemma AtMost(d: seq<string>, es: set<string>)
    requires forall i, j :: 0 <= i < j < |d| ==> d[i] != d[j]
    requires forall e :: e in d ==> e in es
    ensures |d| <= |es|
  {
    SizeOfDistinct(d, Elements(d));
    SubsetSize(Elements(d), es);
  }

  lemma {:induction false} SubsetSize(a: set<string>, b: set<string>)
    requires a <= b
    ensures |a| <= |b|
  {
    if a != {} {
      var x :| x in a;
      SubsetSize(a - {x}, b - {x});
    }
  }

  lemma LeftOnceRound(circle: map<uint32, string>, sorted: seq<uint32>, key: uint32, start: nat, n: int)
    requires Lists(sorted, circle.Keys) && StartsAt(sorted, key, start) && n != 1
    requires start > 0 || 2 <= n <= |circle.Values|
    ensures After(circle, sorted, start, n, |sorted|).None?
  {
    hide Met, PreferenceList;
    AfterTurns(circle, sorted, start, n, |sorted| - 1);
    MetAll(circle, sorted, key, start);
    PreferenceMembers(circle, key);
  }

  /** The loop is left, sooner or later, exactly when it starts past index 0 or the ring has the
      elements asked for. */
  lemma LoopLeft(circle: map<uint32, string>, sorted: seq<uint32>, key: uint32, start: nat, n: int)
    requires Lists(sorted, circle.Keys) && StartsAt(sorted, key, start) && 0 <= n != 1
    ensures (exists k: nat :: After(circle, sorted, start, n, k).None?) <==>
            start > 0 || 2 <= n <= |circle.Values|
  {
    if start > 0 || 2 <= n <= |circle.Values| {
      LeftOnceRound(circle, sorted, key, start, n);
    } else {
      forall k: nat ensures After(circle, sorted, start, n, k).Some? {
        NeverLeft(circle, sorted, n, k);
      }
    }
  }

  // ----- the loop of `GetTwo` -----

  /** One turn of its loop, which compares with `a` and is left at the first other owner. */
  function OtherTurn(circle: map<uint32, string>, sorted: seq<uint32>, start: nat, a: string, i: nat): Option<nat>
    requires sorted != [] && forall p :: p in sorted ==> p in circle
  {
    if i == start then None else
      var j := if i >= |sorted| then 0 else i;
      if circle[sorted[j]] != a then None else Some(j + 1)
  }

  function OtherAfter(circle: map<uint32, string>, sorted: seq<uint32>, start: nat, k: nat): Option<nat>
    requires start < |sorted| && forall p :: p in sorted ==> p in circle
  {
    if k == 0 then Some(start + 1) else
      match OtherAfter(circle, sorted, start, k - 1)
      case None => None
      case Some(i) => OtherTurn(circle, sorted, start, circle[sorted[start]], i)
  }

  /** Turn by turn it is the walk of `GetN` for two elements. */
  lemma {:induction false} OtherIsWalkForTwo(circle: map<uint32, string>, sorted: seq<uint32>, start: nat, k: nat)
    requires start < |sorted| && forall p :: p in sorted ==> p in circle
    ensures var w := After(circle, sorted, start, 2, k);
            && OtherAfter(circle, sorted, start, k) == (if w.Some? then Some(w.value.i) else None)
            && (w.Some? ==> w.value.res == [circle[sorted[start]]])
  {
    if k > 0 {
      OtherIsWalkForTwo(circle, sorted, start, k - 1);
      var w, a := After(circle, sorted, start, 2, k - 1), circle[sorted[start]];
      assert After(circle, sorted, start, 2, k) == if w.None? then None else Turn(circle, sorted, start, 2, w.value);
      hide After;
      if w.Some? {
        OtherTurnIsTurn(circle, sorted, start, a, w.value);
      }
    }
  }

  lemma OtherTurnIsTurn(circle: map<uint32, string>, sorted: seq<uint32>, start: nat, a: string, w: Walk)
    requires sorted != [] && (forall p :: p in sorted ==> p in circle) && w.res == [a]
    ensures var u := Turn(circle, sorted, start, 2, w);
            && OtherTurn(circle, sorted, start, a, w.i) == (if u.Some? then Some(u.value.i) else None)
            && (u.Some? ==> u.value.res == [a])
  {}

  /** So it is left exactly when it starts past index 0 or there are two owners. */
  lemma OtherLoopLeft(circle: map<uint32, string>, sorted: seq<uint32>, key: uint32, start: nat)
    requires Lists(sorted, circle.Keys) && StartsAt(sorted, key, start)
    ensures (exists k: nat :: OtherAfter(circle, sorted, start, k).None?) <==> start > 0 || 2 <= |circle.Values|
  {
    hide After, OtherAfter;
    LoopLeft(circle, sorted, key, start, 2);
    if k: nat :| After(circle, sorted, start, 2, k).None? {
      OtherIsWalkForTwo(circle, sorted, start, k);
      assert OtherAfter(circle, sorted, start, k).None?;
    }
    if k: nat :| OtherAfter(circle, sorted, start, k).None? {
      OtherIsWalkForTwo(circle, sorted, start, k);
      assert After(circle, sorted, start, 2, k).None?;
    }
  }

  // ----- what `GetN` promises -----

  function Min(a: int, b: int): int {
    if a <= b then a else b
  }

  /** The walk for `n` elements ends, and the result buffer can be made. */
  ghost predicate WalkEnds(s: RingState, key: uint32, n: int) {
    s.circle == map[] ||
    var m := Min(n, s.count);
    m == 1 || 2 <= m <= |s.circle.Values| || (0 <= m && !LandsOn(s.circle.Keys, key, LeastOf(s.circle.Keys)))
  }

  /** The walk starts at index 0 exactly when the key lands on the least point. */
  lemma StartsAtLeast(sorted: seq<uint32>, keys: set<uint32>, key: uint32, start: nat)
    requires Lists(sorted, keys) && StartsAt(sorted, key, start) && keys != {}
    ensures start == 0 <==> LandsOn(keys, key, LeastOf(keys))
  {
    hide LandsOn;
    StartLands(sorted, keys, key, start);
    LandingUnique(keys, key, sorted[start]);
    LeastIsFirst(sorted, keys, LeastOf(keys));
  }

  /** `WalkEnds` is exact: for every limit that enters the loop of `GetN` it says whether the loop is
      ever left. */
  lemma WalkEndsExactly(s: RingState, sorted: seq<uint32>, key: uint32, start: nat, n: int)
    requires Lists(sorted, s.circle.Keys) && StartsAt(sorted, key, start) && 0 <= Min(n, s.count) != 1
    ensures WalkEnds(s, key, n) <==> exists k: nat :: After(s.circle, sorted, start, Min(n, s.count), k).None?
  {
    hide After, LandsOn;
    assert sorted[start] in s.circle;
    StartsAtLeast(sorted, s.circle.Keys, key, start);
    LoopLeft(s.circle, sorted, key, start, Min(n, s.count));
  }

  /** The same for the loop of `GetTwo`, which knows no limit. */
  lemma TwoEndsExactly(s: RingState, sorted: seq<uint32>, key: uint32, start: nat)
    requires Lists(sorted, s.circle.Keys) && StartsAt(sorted, key, start)
    ensures WalkEnds(s.(count := 2), key, 2) <==> exists k: nat :: OtherAfter(s.circle, sorted, start, k).None?
  {
    hide OtherAfter, LandsOn;
    assert sorted[start] in s.circle;
    StartsAtLeast(sorted, s.circle.Keys, key, start);
    OtherLoopLeft(s.circle, sorted, key, start);
  }

  // ----- reachable rings on which the walks never end -----

  const TOP: uint32 := 0xFFFF_FFFF

  /** Some key always lands on the least point. */
  lemma TopLandsOnLeast(keys: set<uint32>)
    requires keys != {}
    ensures LandsOn(keys, TOP, LeastOf(keys))
  {}

  /** The requests on which both `GetN` for two elements and `GetTwo` go round for ever are those that
      land on the least point. */
  ghost predicate Hangs(s: RingState) {
    && s.circle != map[] && s.count != 1
    && !WalkEnds(s, TOP, 2) && !WalkEnds(s.(count := 2), TOP, 2)
    && forall key ::
         LandsOn(s.circle.Keys, key, LeastOf(s.circle.Keys)) <==> !WalkEnds(s, key, 2) && !WalkEnds(s.(count := 2), key, 2)
  }

  lemma OneOwnerHangs(s: RingState, e: string)
    requires s.circle != map[] && s.circle.Values == {e} && s.count in {0, 2}
    ensures Hangs(s)
  {
    hide LandsOn;
    TopLandsOnLeast(s.circle.Keys);
  }

  lemma RunTwo(h: Hash, r: nat, a: RingOp, b: RingOp)
    ensures Run(h, r, [a, b]) == Step(h, r, Step(h, r, EMPTY, a), b)
  {
    hide Step;
    assert [a, b][..1] == [a] && [a][..0] == [];
    assert Run(h, r, [a]) == Step(h, r, EMPTY, a);
  }

  lemma FirstPoint(h: Hash, r: nat, e: string)
    requires 1 <= r
    ensures h(EltKey(e, 0)) in Points(h, r, e)
  {}

  lemma OnlyOwner(circle: map<uint32, string>, e: string, p: uint32)
    requires p in circle && forall q :: q in circle ==> circle[q] == e
    ensures circle.Values == {e}
  {
    assert circle[p] in circle.Values;
  }

  /** Adding one element twice: the count says two, the circle has one owner. */
  lemma RepeatedAddHangs(h: Hash, r: nat, e: string)
    requires 1 <= r
    ensures var s := Run(h, r, [Add(e), Add(e)]);
            s.count == 2 && s.circle.Values == {e} && Hangs(s)
  {
    hide Points, Hangs;
    RunTwo(h, r, Add(e), Add(e));
    FirstPoint(h, r, e);
    var s := Run(h, r, [Add(e), Add(e)]);
    OnlyOwner(s.circle, e, h(EltKey(e, 0)));
    OneOwnerHangs(s, e);
  }

  /** Removing an element that was never added: the count says none. */
  lemma StrayRemoveHangs(h: Hash, r: nat, e: string, g: string)
    requires 1 <= r && Points(h, r, e) !! Points(h, r, g)
    ensures var s := Run(h, r, [Add(e), Remove(g)]);
            s.count == 0 && s.circle.Values == {e} && Hangs(s)
  {
    hide Hangs;
    RunTwo(h, r, Add(e), Remove(g));
    FirstPoint(h, r, e);
    hide Points;
    var s := Run(h, r, [Add(e), Remove(g)]);
    OnlyOwner(s.circle, e, h(EltKey(e, 0)));
    OneOwnerHangs(s, e);
  }

  /** Two elements of which the later takes all points of the earlier. */
  lemma CollisionHangs(h: Hash, r: nat, e: string, f: string)
    requires 1 <= r && Points(h, r, e) <= Points(h, r, f)
    ensures var s := Run(h, r, [Add(e), Add(f)]);
            s.count == 2 && s.circle.Values == {f} && Hangs(s)
  {
    hide Hangs;
    RunTwo(h, r, Add(e), Add(f));
    FirstPoint(h, r, f);
    hide Points;
    var s := Run(h, r, [Add(e), Add(f)]);
    OnlyOwner(s.circle, f, h(EltKey(f, 0)));
    OneOwnerHangs(s, f);
  }

  /** The first `n` elements of the preference list; all of them when there are not so many, or
      when none is asked for. */
  ghost function Nearest(s: RingState, key: uint32, n: int): seq<string> {
    var p, m := PreferenceList(s.circle, key), Min(n, s.count);
    if 1 <= m <= |p| then p[..m] else p
  }

  function Take(s: seq<string>, n: nat): seq<string> {
    if n <= |s| then s[..n] else s
  }

  lemma CountedWalkEnds(s: RingState, key: uint32, n: int)
    requires s.count == |s.circle.Values| && 1 <= n
    ensures WalkEnds(s, key, n)
    ensures |PreferenceList(s.circle, key)| == s.count
    ensures Nearest(s, key, n) == Take(PreferenceList(s.circle, key), n)
  {
    PreferenceMembers(s.circle, key);
    if s.circle != map[] {
      var p :| p in s.circle;
      assert s.circle[p] in s.circle.Values;
    }
  }

  /** On a ring without collisions the walk ends for every key and every positive `n`, with the
      `n` most preferred members. */
  lemma CanonicalWalkEnds(h: Hash, r: nat, s: RingState, key: uint32, n: int)
    requires Canonical(h, r, s) && Separate(h, r, s.members) && 1 <= r && 1 <= n
    ensures WalkEnds(s, key, n)
    ensures |PreferenceList(s.circle, key)| == |s.members|
    ensures Nearest(s, key, n) == Take(PreferenceList(s.circle, key), n)
  {
    CanonicalOwners(h, r, s);
    CountedWalkEnds(s, key, n);
  }

  /** What the walk knows before its loop. */
  lemma WalkSetsOut(s: RingState, sorted: seq<uint32>, key: uint32, start: nat, n: int)
    requires Lists(sorted, s.circle.Keys) && StartsAt(sorted, key, start) && WalkEnds(s, key, n)
    ensures Met(s.circle, sorted, start, 1) == [s.circle[sorted[start]]]
    ensures Met(s.circle, sorted, start, |sorted|) == PreferenceList(s.circle, key)
    ensures 0 <= Min(n, s.count)
    ensures start == 0 && Min(n, s.count) != 1 ==>
            2 <= Min(n, s.count) <= |PreferenceList(s.circle, key)|
  {
    MetFirst(s.circle, sorted, start);
    MetAll(s.circle, sorted, key, start);
    PreferenceMembers(s.circle, key);
    StartLands(sorted, s.circle.Keys, key, start);
    assert sorted[start] in s.circle;
    if start == 0 {
      LeastIsFirst(sorted, s.circle.Keys, LeastOf(s.circle.Keys));
    }
  }

  /** What the walk has found when it stops after `k` positions. */
  lemma WalkStops(s: RingState, sorted: seq<uint32>, key: uint32, start: nat, n: int, k: nat)
    requires Lists(sorted, s.circle.Keys) && StartsAt(sorted, key, start) && 1 <= k <= |sorted|
    requires var m, res := Min(n, s.count), Met(s.circle, sorted, start, k);
             |res| == m || (k == |sorted| && |res| != m && (2 <= m ==> |res| < m))
    requires Min(n, s.count) == 1 ==> k == 1
    requires Met(s.circle, sorted, start, 1) == [s.circle[sorted[start]]]
    ensures Met(s.circle, sorted, start, k) == Nearest(s, key, n)
  {
    MetIsPrefix(s.circle, sorted, start, k);
    MetIsPrefix(s.circle, sorted, start, 1);
    MetAll(s.circle, sorted, key, start);
  }

  // ----- failover of `GetN` -----

  lemma {:induction false} WithoutOneLosesOne(d: seq<string>, e: string)
    requires forall i, j :: 0 <= i < j < |d| ==> d[i] != d[j]
    ensures |Without(d, {e})| == |d| - if e in d then 1 else 0
  {
    if d == [] {
    } else {
      var last, rest := d[|d| - 1], d[..|d| - 1];
      assert d == rest + [last];
      WithoutOneLosesOne(rest, e);
      WithoutSnoc(rest, last, {e});
    }
  }

  lemma TakeWithout(d: seq<string>, e: string, n: nat)
    requires forall i, j :: 0 <= i < j < |d| ==> d[i] != d[j]
    ensures Take(Without(d, {e}), n) == Take(Without(Take(d, n + 1), {e}), n)
  {
    if n + 1 <= |d| {
      assert d == d[..n + 1] + d[n + 1..];
      WithoutConcat(d[..n + 1], d[n + 1..], {e});
      WithoutOneLosesOne(d[..n + 1], e);
    }
  }

  /** Failover: once `e` is removed, the `n` nearest elements are the first `n` of the `n + 1`
      nearest ones before, `e` crossed off. */
  lemma NearestFailover(h: Hash, r: nat, s: RingState, e: string, key: uint32, n: nat)
    requires Canonical(h, r, s) && Separate(h, r, s.members) && 1 <= r && 1 <= n && e in s.members
    ensures Nearest(RemoveElt(h, r, s, e), key, n) == Take(Without(Nearest(s, key, n + 1), {e}), n)
  {
    var t := RemoveElt(h, r, s, e);
    RemoveFailover(h, r, s, e, key);
    CanonicalWalkEnds(h, r, s, key, n + 1);
    CanonicalWalkEnds(h, r, t, key, n);
    PreferenceOnce(s.circle, key);
    TakeWithout(PreferenceList(s.circle, key), e, n);
  }

  lemma RemoveFailover(h: Hash, r: nat, s: RingState, e: string, key: uint32)
    requires Canonical(h, r, s) && Separate(h, r, s.members) && e in s.members
    ensures var t := RemoveElt(h, r, s, e);
            && Canonical(h, r, t) && Separate(h, r, t.members)
            && PreferenceList(t.circle, key) == Without(PreferenceList(s.circle, key), {e})
  {
    StepKeepsCanonical(h, r, s, Remove(e));
    RingFailover(h, r, s, RemoveElt(h, r, s, e), key);
    assert s.members - (s.members - {e}) == {e};
  }
}
