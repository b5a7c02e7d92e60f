/** The clockwise preference list of a key: which element serves it, and which elements stand in,
    in order, when the preferred ones are gone. */
module Preference {
  import opened HashRing

  /** The points met when walking clockwise from `key`: those above it, then round to the rest. */
  ghost function Clockwise(keys: set<uint32>, key: uint32): seq<uint32> {
    Ascending(set p | p in keys && p > key) + Ascending(set p | p in keys && p <= key)
  }

  function Owners(circle: map<uint32, string>, ps: seq<uint32>): (os: seq<string>)
    requires forall p :: p in ps ==> p in circle
    ensures |os| == |ps| && forall i :: 0 <= i < |ps| ==> os[i] == circle[ps[i]]
  {
    seq(|ps|, i requires 0 <= i < |ps| => circle[ps[i]])
  }

  /** The different elements of a list, in the order of their first occurrence. */
  function Distinct(os: seq<string>): seq<string> {
    if os == [] then [] else
      var d := Distinct(os[..|os| - 1]);
      if os[|os| - 1] in d then d else d + [os[|os| - 1]]
  }

  lemma {:induction false} DistinctMembers(os: seq<string>, x: string)
    ensures x in Distinct(os) <==> x in os
  {
    if os == [] {
    } else {
      DistinctMembers(os[..|os| - 1], x);
      assert os == os[..|os| - 1] + [os[|os| - 1]];
    }
  }

  lemma {:induction false} DistinctOnce(os: seq<string>)
    ensures forall i, j :: 0 <= i < j < |Distinct(os)| ==> Distinct(os)[i] != Distinct(os)[j]
    ensures os != [] ==> Distinct(os) != [] && Distinct(os)[0] == os[0]
  {
    if os == [] {
    } else {
      DistinctOnce(os[..|os| - 1]);
    }
  }

  lemma DistinctSnoc(os: seq<string>, x: string)
    ensures Distinct(os + [x]) == if x in os then Distinct(os) else Distinct(os) + [x]
  {
    assert (os + [x])[..|os + [x]| - 1] == os;
    DistinctMembers(os, x);
  }

  function Without<T(==)>(s: seq<T>, gone: set<T>): seq<T> {
    if s == [] then [] else
      Without(s[..|s| - 1], gone) + if s[|s| - 1] in gone then [] else [s[|s| - 1]]
  }

  lemma {:induction false} WithoutMembers<T>(s: seq<T>, gone: set<T>, x: T)
    ensures x in Without(s, gone) <==> x in s && x !in gone
  {
    if s == [] {
    } else {
      WithoutMembers(s[..|s| - 1], gone, x);
      assert s == s[..|s| - 1] + [s[|s| - 1]];
    }
  }

  lemma ClockwiseMembers(keys: set<uint32>, key: uint32)
    ensures forall p :: p in Clockwise(keys, key) <==> p in keys
  {}

  /** The elements on the ring, nearest first. */
  ghost function PreferenceList(circle: map<uint32, string>, key: uint32): seq<string> {
    ClockwiseMembers(circle.Keys, key);
    Distinct(Owners(circle, Clockwise(circle.Keys, key)))
  }

  /** `p` is where `key` lands: the least point above it or, when there is none, the least point. */
  ghost predicate LandsOn(keys: set<uint32>, key: uint32, p: uint32) {
    && p in keys
    && (if exists q :: q in keys && q > key
        then p > key && forall q :: q in keys && q > key ==> p <= q
        else forall q :: q in keys ==> p <= q)
  }

  lemma LandingUnique(keys: set<uint32>, key: uint32, p: uint32)
    requires LandsOn(keys, key, p)
    ensures forall q :: LandsOn(keys, key, q) ==> q == p
  {}

  lemma LandingIsFirst(keys: set<uint32>, key: uint32, p: uint32)
    requires LandsOn(keys, key, p)
    ensures Clockwise(keys, key) != [] && Clockwise(keys, key)[0] == p
  {
    var above, below := (set q | q in keys && q > key), (set q | q in keys && q <= key);
    if exists q :: q in keys && q > key {
      LeastIsFirst(Ascending(above), above, p);
    } else {
      assert above == {};
      LeastIsFirst(Ascending(below), below, p);
      assert Clockwise(keys, key) == Ascending(below);
    }
  }

  lemma LeastIsFirst(s: seq<uint32>, keys: set<uint32>, p: uint32)
    requires Lists(s, keys) && p in keys && forall q :: q in keys ==> p <= q
    ensures s != [] && s[0] == p
  {
    assert p in s;
    assert s[0] in keys;
  }

  /** The preferred element owns the point the key lands on. */
  lemma PreferredOwnsLanding(circle: map<uint32, string>, key: uint32, p: uint32)
    requires LandsOn(circle.Keys, key, p)
    ensures PreferenceList(circle, key) != [] && PreferenceList(circle, key)[0] == circle[p]
  {
    ClockwiseMembers(circle.Keys, key);
    LandingIsFirst(circle.Keys, key, p);
    DistinctOnce(Owners(circle, Clockwise(circle.Keys, key)));
  }

  /** `e` owns the first point above `key` or, when there is none, the first of all. */
  ghost predicate OwnsFirst(circle: map<uint32, string>, key: uint32, e: string) {
    exists p ::
      && p in circle && circle[p] == e
      && forall q :: q in circle ==> if p > key then q <= key || p <= q else q <= key && p <= q
  }

  /** The head of the preference list, said without lists. */
  lemma PreferredOwnsFirst(circle: map<uint32, string>, key: uint32)
    requires circle != map[]
    ensures PreferenceList(circle, key) != [] && OwnsFirst(circle, key, PreferenceList(circle, key)[0])
    ensures forall e :: OwnsFirst(circle, key, e) ==> e == PreferenceList(circle, key)[0]
  {
    var above := set q | q in circle.Keys && q > key;
    var p := LeastOf(if above != {} then above else circle.Keys);
    assert forall q :: q in circle && q > key ==> q in above;
    assert LandsOn(circle.Keys, key, p);
    PreferredOwnsLanding(circle, key, p);
  }

  lemma PreferenceOnce(circle: map<uint32, string>, key: uint32)
    ensures var p := PreferenceList(circle, key); forall i, j :: 0 <= i < j < |p| ==> p[i] != p[j]
  {
    ClockwiseMembers(circle.Keys, key);
    DistinctOnce(Owners(circle, Clockwise(circle.Keys, key)));
  }

  lemma PreferenceMembers(circle: map<uint32, string>, key: uint32)
    ensures forall e :: e in PreferenceList(circle, key) <==> e in circle.Values
    ensures |PreferenceList(circle, key)| == |circle.Values|
  {
    ClockwiseMembers(circle.Keys, key);
    var ps := Clockwise(circle.Keys, key);
    var d := PreferenceList(circle, key);
    DistinctOnce(Owners(circle, ps));
    forall e ensures e in d <==> e in circle.Values {
      DistinctMembers(Owners(circle, ps), e);
      if e in circle.Values {
        var p :| p in circle && circle[p] == e;
        assert p in ps;
      }
    }
    SizeOfDistinct(d, circle.Values);
  }

  lemma {:induction false} SizeOfDistinct(d: seq<string>, es: set<string>)
    requires forall i, j :: 0 <= i < j < |d| ==> d[i] != d[j]
    requires forall e :: e in d <==> e in es
    ensures |d| == |es|
  {
    if d == [] {
      assert es == {};
    } else {
      var last, rest := d[|d| - 1], d[..|d| - 1];
      assert d == rest + [last];
      SizeOfDistinct(rest, es - {last});
    }
  }

  // ----- a sorted array walked from the search position is the clockwise list -----

  /** What the ring's binary search returns: the first position above `key`, or 0. */
  ghost predicate StartsAt(sorted: seq<uint32>, key: uint32, i: nat) {
    && i < |sorted|
    && if exists k :: 0 <= k < |sorted| && sorted[k] > key
       then sorted[i] > key && forall k :: 0 <= k < i ==> sorted[k] <= key
       else i == 0
  }

  lemma RotationIsClockwise(sorted: seq<uint32>, keys: set<uint32>, key: uint32, i: nat)
    requires Lists(sorted, keys) && StartsAt(sorted, key, i)
    ensures sorted[i..] + sorted[..i] == Clockwise(keys, key)
  {
    var above, below := (set q | q in keys && q > key), (set q | q in keys && q <= key);
    if sorted[i] > key {
      SplitLists(sorted, keys, key, i);
      ListsUnique(sorted[i..], Ascending(above), above);
      ListsUnique(sorted[..i], Ascending(below), below);
    } else {
      assert forall x :: x in keys ==> x in sorted;
      assert above == {};
      assert below == keys;
      ListsUnique(sorted, Ascending(below), below);
      assert sorted[0..] + sorted[..0] == sorted;
    }
  }

  lemma StartLands(sorted: seq<uint32>, keys: set<uint32>, key: uint32, i: nat)
    requires Lists(sorted, keys) && StartsAt(sorted, key, i)
    ensures LandsOn(keys, key, sorted[i])
  {
    assert sorted[i] in keys;
    forall q | q in keys ensures exists k :: 0 <= k < |sorted| && sorted[k] == q {
      assert q in sorted;
    }
  }

  lemma SplitLists(sorted: seq<uint32>, keys: set<uint32>, key: uint32, i: nat)
    requires Lists(sorted, keys) && i < |sorted|
    requires sorted[i] > key && forall k :: 0 <= k < i ==> sorted[k] <= key
    ensures Lists(sorted[i..], set q | q in keys && q > key)
    ensures Lists(sorted[..i], set q | q in keys && q <= key)
  {
    assert sorted == sorted[..i] + sorted[i..];
    forall x ensures x in sorted[i..] <==> x in keys && x > key {
      if x in sorted[i..] {
        var k :| 0 <= k < |sorted[i..]| && sorted[i..][k] == x;
        assert sorted[i + k] == x;
      }
    }
  }

  // ----- failover and minimal movement -----

  lemma ListsInit(s: seq<uint32>, last: uint32, keys: set<uint32>)
    requires Lists(s + [last], keys)
    ensures Lists(s, keys - {last}) && last in keys
    ensures forall x :: x in keys - {last} ==> x < last
  {
    var t := s + [last];
    assert forall i :: 0 <= i < |s| ==> t[i] == s[i];
    assert t[|s|] == last;
    forall x ensures x in s <==> x in keys - {last} {
      assert x in t <==> x in s || x == last;
    }
  }

  lemma ListsSnoc(s: seq<uint32>, last: uint32, keys: set<uint32>)
    requires Lists(s, keys) && forall x :: x in keys ==> x < last
    ensures Lists(s + [last], keys + {last})
  {
    forall x ensures x in s + [last] <==> x in keys + {last} {
      assert x in s + [last] <==> x in s || x == last;
    }
    assert forall i :: 0 <= i < |s| ==> s[i] in s;
  }

  lemma {:induction false} AscendingWithout(s: seq<uint32>, keys: set<uint32>, gone: set<uint32>)
    requires Lists(s, keys)
    ensures Lists(Without(s, gone), keys - gone)
  {
    if s == [] {
    } else {
      hide Lists;
      var last, rest := s[|s| - 1], s[..|s| - 1];
      assert s == rest + [last];
      ListsInit(rest, last, keys);
      AscendingWithout(rest, keys - {last}, gone);
      if last in gone {
        assert keys - {last} - gone == keys - gone;
      } else {
        ListsSnoc(Without(rest, gone), last, keys - {last} - gone);
        assert keys - {last} - gone + {last} == keys - gone;
      }
    }
  }

  lemma {:induction false} WithoutConcat<T>(s: seq<T>, t: seq<T>, gone: set<T>)
    ensures Without(s + t, gone) == Without(s, gone) + Without(t, gone)
  {
    if t == [] {
      assert s + t == s;
    } else {
      WithoutConcat(s, t[..|t| - 1], gone);
      assert (s + t)[..|s + t| - 1] == s + t[..|t| - 1];
    }
  }

  lemma ClockwiseWithout(keys: set<uint32>, gone: set<uint32>, key: uint32)
    ensures Clockwise(keys - gone, key) == Without(Clockwise(keys, key), gone)
  {
    var above, below := (set q | q in keys && q > key), (set q | q in keys && q <= key);
    AscendingWithout(Ascending(above), above, gone);
    AscendingWithout(Ascending(below), below, gone);
    assert (set q | q in keys - gone && q > key) == above - gone;
    assert (set q | q in keys - gone && q <= key) == below - gone;
    ListsUnique(Without(Ascending(above), gone), Ascending(above - gone), above - gone);
    ListsUnique(Without(Ascending(below), gone), Ascending(below - gone), below - gone);
    WithoutConcat(Ascending(above), Ascending(below), gone);
  }

  lemma WithoutSnoc<T>(s: seq<T>, x: T, gone: set<T>)
    ensures Without(s + [x], gone) == Without(s, gone) + if x in gone then [] else [x]
  {
    assert (s + [x])[..|s + [x]| - 1] == s;
  }

  lemma PointsWithout(c: map<uint32, string>, ps: seq<uint32>, pts: set<uint32>)
    requires forall p :: p in ps ==> p in c
    ensures forall p :: p in Without(ps, pts) ==> p in c - pts
  {
    forall p | p in Without(ps, pts) ensures p in c - pts { WithoutMembers(ps, pts, p); }
  }

  lemma OwnersSnoc(c: map<uint32, string>, ps: seq<uint32>, p: uint32)
    requires p in c && forall q :: q in ps ==> q in c
    ensures forall q :: q in ps + [p] ==> q in c
    ensures Owners(c, ps + [p]) == Owners(c, ps) + [c[p]]
  {}

  lemma {:induction false} OwnersWithout(c: map<uint32, string>, ps: seq<uint32>, pts: set<uint32>, gone: set<string>)
    requires forall p :: p in ps ==> p in c && (p in pts <==> c[p] in gone)
    requires forall p :: p in Without(ps, pts) ==> p in c - pts
    ensures Owners(c - pts, Without(ps, pts)) == Without(Owners(c, ps), gone)
  {
    if ps == [] {
    } else {
      var last, rest := ps[|ps| - 1], ps[..|ps| - 1];
      assert last in ps && forall p :: p in rest ==> p in ps;
      PointsWithout(c, rest, pts);
      OwnersWithout(c, rest, pts, gone);
      assert ps == rest + [last];
      OwnersSnoc(c, rest, last);
      WithoutSnoc(Owners(c, rest), c[last], gone);
      if last !in pts {
        OwnersSnoc(c - pts, Without(rest, pts), last);
      }
    }
  }

  lemma DistinctWithoutSnoc(os: seq<string>, x: string, gone: set<string>)
    requires Distinct(Without(os, gone)) == Without(Distinct(os), gone)
    ensures Distinct(Without(os + [x], gone)) == Without(Distinct(os + [x]), gone)
  {
    WithoutSnoc(os, x, gone);
    DistinctSnoc(os, x);
    WithoutSnoc(Distinct(os), x, gone);
    if x in gone {
      assert Without(os, gone) + [] == Without(os, gone);
      assert Without(Distinct(os), gone) + [] == Without(Distinct(os), gone);
    } else {
      WithoutMembers(os, gone, x);
      DistinctSnoc(Without(os, gone), x);
    }
  }

  lemma {:induction false} DistinctWithout(os: seq<string>, gone: set<string>)
    ensures Distinct(Without(os, gone)) == Without(Distinct(os), gone)
  {
    if os == [] {
    } else {
      DistinctWithout(os[..|os| - 1], gone);
      DistinctWithoutSnoc(os[..|os| - 1], os[|os| - 1], gone);
      assert os[..|os| - 1] + [os[|os| - 1]] == os;
    }
  }

  /** Failover: taking elements off a ring crosses them off every preference list and changes
      nothing else. */
  lemma Failover(c: map<uint32, string>, c': map<uint32, string>, gone: set<string>, key: uint32)
    requires c' == map p | p in c && c[p] !in gone :: c[p]
    ensures PreferenceList(c', key) == Without(PreferenceList(c, key), gone)
  {
    var pts := set p | p in c && c[p] in gone;
    assert c' == c - pts;
    assert c'.Keys == c.Keys - pts;
    ClockwiseMembers(c.Keys, key);
    ClockwiseWithout(c.Keys, pts, key);
    PointsWithout(c, Clockwise(c.Keys, key), pts);
    OwnersWithout(c, Clockwise(c.Keys, key), pts, gone);
    DistinctWithout(Owners(c, Clockwise(c.Keys, key)), gone);
  }

  /** The part of a collision-free ring that some of its members own is their ring. */
  lemma SubRing(h: Hash, n: nat, s: RingState, t: RingState)
    requires Canonical(h, n, s) && Canonical(h, n, t) && Separate(h, n, s.members)
    requires t.members <= s.members
    ensures t.circle == map p | p in s.circle && s.circle[p] !in s.members - t.members :: s.circle[p]
  {
    hide Points;
    var gone := s.members - t.members;
    var r := map p | p in s.circle && s.circle[p] !in gone :: s.circle[p];
    forall p | p in t.circle ensures p in r && r[p] == t.circle[p] {
      assert p in Points(h, n, t.circle[p]);
      assert p in PointsOf(h, n, s.members);
      assert s.circle[p] == t.circle[p];
    }
    forall p | p in r ensures p in t.circle {
      assert p in Points(h, n, s.circle[p]) && s.circle[p] in t.members;
      assert p in PointsOf(h, n, t.members);
    }
  }

  /** Failover for whole rings: the preference lists of a ring with fewer members are those of the
      larger ring with the missing members crossed off. */
  lemma RingFailover(h: Hash, n: nat, s: RingState, t: RingState, key: uint32)
    requires Canonical(h, n, s) && Canonical(h, n, t) && Separate(h, n, s.members)
    requires t.members <= s.members
    ensures PreferenceList(t.circle, key) == Without(PreferenceList(s.circle, key), s.members - t.members)
  {
    SubRing(h, n, s, t);
    Failover(s.circle, t.circle, s.members - t.members, key);
  }
}
