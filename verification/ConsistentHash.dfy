/** The consistent-hash ring object (`Common/ConsistentHash/ConsistentHash.go`). */
module ConsistentHash {
  import opened HashRing
  import Ordered
  import opened Preference
  import opened Results
  import opened RingWalk

  datatype Error = ErrEmptyCircle

  const DEFAULT_REPLICAS: nat := 20

  /** `sort.Sort` on a list of different hashes. */
  method SortHashes(hashes: seq<uint32>) returns (sorted: seq<uint32>)
    requires forall i, j :: 0 <= i < j < |hashes| ==> hashes[i] != hashes[j]
    ensures Lists(sorted, Ordered.Members(hashes))
  {
    BelowStrict();
    sorted := Ordered.Sort(Below, hashes);
  }

  class Consistent {
    const hashKey: Hash
    const NumberOfReplicas: nat

    var circle: map<uint32, string>
    var members: set<string>
    var sortedHashes: seq<uint32>
    var count: int

    ghost predicate Valid()
      reads this
    {
      && 1 <= NumberOfReplicas
      && Lists(sortedHashes, circle.Keys)
      && Owned(hashKey, NumberOfReplicas, State())
    }

    ghost function State(): RingState
      reads this
    {
      RingState(circle, members, count)
    }

    constructor (hashKey: Hash, replicas: nat := DEFAULT_REPLICAS)
      requires 1 <= replicas
      ensures Valid() && State() == EMPTY
      ensures this.hashKey == hashKey && NumberOfReplicas == replicas
    {
      this.hashKey := hashKey;
      NumberOfReplicas := replicas;
      circle, members, sortedHashes, count := map[], {}, [], 0;
    }

    method UpdateSortedHashes()
      modifies this`sortedHashes
      ensures Lists(sortedHashes, circle.Keys)
    {
      var hashes := [];
      var rest := circle.Keys;
      while rest != {}
        invariant rest <= circle.Keys
        invariant forall x :: x in hashes <==> x in circle.Keys - rest
        invariant forall i, j :: 0 <= i < j < |hashes| ==> hashes[i] != hashes[j]
        decreases |rest|
      {
        var k :| k in rest;
        assert k !in hashes;
        hashes := hashes + [k];
        rest := rest - {k};
      }
      sortedHashes := SortHashes(hashes);
      assert Ordered.Members(hashes) == circle.Keys;
    }

    /** The loop of `Add`: every replica hash of `elt` now leads to `elt`. */
    method ClaimPoints(elt: string)
      modifies this`circle
      ensures circle == Claim(old(circle), Points(hashKey, NumberOfReplicas, elt), elt)
    {
      for i := 0 to NumberOfReplicas
        invariant circle == Claim(old(circle), Points(hashKey, i, elt), elt)
      {
        ClaimNext(old(circle), Points(hashKey, i, elt), elt, hashKey(EltKey(elt, i)));
        PointsNext(hashKey, i, elt);
        circle := circle[hashKey(EltKey(elt, i)) := elt];
      }
    }

    method Add(elt: string)
      requires Valid()
      modifies this
      ensures Valid()
      ensures State() == AddElt(hashKey, NumberOfReplicas, old(State()), elt)
    {
      StepKeepsOwned(hashKey, NumberOfReplicas, State(), RingOp.Add(elt));
      ClaimPoints(elt);
      members := members + {elt};
      UpdateSortedHashes();
      count := count + 1;
    }

    /** The loop of `Remove`: no replica hash of `elt` leads anywhere. */
    method DropPoints(elt: string)
      modifies this`circle
      ensures circle == old(circle) - Points(hashKey, NumberOfReplicas, elt)
    {
      for i := 0 to NumberOfReplicas
        invariant circle == old(circle) - Points(hashKey, i, elt)
      {
        PointsNext(hashKey, i, elt);
        circle := circle - {hashKey(EltKey(elt, i))};
      }
    }

    method Remove(elt: string)
      requires Valid()
      modifies this
      ensures Valid()
      ensures State() == RemoveElt(hashKey, NumberOfReplicas, old(State()), elt)
    {
      StepKeepsOwned(hashKey, NumberOfReplicas, State(), RingOp.Remove(elt));
      DropPoints(elt);
      members := members - {elt};
      UpdateSortedHashes();
      count := count - 1;
    }

    /** The search of `Set`'s first loop for a member among the new elements. */
    static method Found(k: string, elts: seq<string>) returns (found: bool)
      ensures found <==> k in elts
    {
      found := false;
      for i := 0 to |elts|
        invariant !found && k !in elts[..i]
      {
        if k == elts[i] {
          found := true;
          break;
        }
      }
    }

    /** The first loop of `Set`: removes the members that are not in `elts`, in any order. */
    method RemoveOthers(elts: seq<string>)
      requires Valid()
      modifies this
      ensures Valid()
      ensures State() == Retain(hashKey, NumberOfReplicas, old(State()), Elements(elts))
    {
      hide Valid, Retain, RemoveElt;
      ghost var was, wanted := State(), Elements(elts);
      var rest := members;
      RetainAll(hashKey, NumberOfReplicas, was, rest + wanted);
      while rest != {}
        invariant Valid() && rest <= was.members
        invariant State() == Retain(hashKey, NumberOfReplicas, was, rest + wanted)
        decreases |rest|
      {
        var k :| k in rest;
        var found := Found(k, elts);
        if found {
          assert rest + wanted == (rest - {k}) + wanted;
        } else {
          RetainLess(hashKey, NumberOfReplicas, was, rest + wanted, k);
          assert rest + wanted - {k} == (rest - {k}) + wanted;
          Remove(k);
        }
        rest := rest - {k};
      }
      assert {} + wanted == wanted;
    }

    /** Makes `elts` the members, whatever order the old members are gone through in. */
    method Set(elts: seq<string>)
      requires Valid()
      modifies this
      ensures Valid()
      ensures State() == SetElts(hashKey, NumberOfReplicas, old(State()), elts)
    {
      RemoveOthers(elts);
      ghost var retained := State();
      for i := 0 to |elts|
        invariant Valid()
        invariant AddMissing(hashKey, NumberOfReplicas, State(), elts[i..]) ==
                  AddMissing(hashKey, NumberOfReplicas, retained, elts)
      {
        var v := elts[i];
        assert elts[i..][0] == v && elts[i..][1..] == elts[i + 1..];
        if v in members {
          continue;
        }
        Add(v);
      }
      assert elts[|elts|..] == [];
    }

    /** `sort.Search` for the first hash above `key`, wrapped round to 0. */
    method Search(key: uint32) returns (i: nat)
      requires Valid() && circle != map[]
      ensures StartsAt(sortedHashes, key, i)
    {
      var lo, hi := 0, |sortedHashes|;
      while lo < hi
        invariant lo <= hi <= |sortedHashes|
        invariant forall k :: 0 <= k < lo ==> sortedHashes[k] <= key
        invariant forall k :: hi <= k < |sortedHashes| ==> sortedHashes[k] > key
      {
        var mid := (lo + hi) / 2;
        if !(sortedHashes[mid] > key) {
          lo := mid + 1;
        } else {
          hi := mid;
        }
      }
      i := lo;
      if i >= |sortedHashes| {
        i := 0;
        ghost var p :| p in circle;
        assert p in sortedHashes;
      }
    }

    /** The element that owns the point `name` lands on. */
    method Get(name: string) returns (r: Result<string, Error>)
      requires Valid()
      ensures circle == map[] ==> r == Err(ErrEmptyCircle)
      ensures circle != map[] ==> r.Ok? && r.value in members
      ensures forall p :: LandsOn(circle.Keys, hashKey(name), p) ==> r == Ok(circle[p])
      ensures circle != map[] ==> exists p :: LandsOn(circle.Keys, hashKey(name), p)
      ensures circle != map[] ==>
              && PreferenceList(circle, hashKey(name)) != []
              && r == Ok(PreferenceList(circle, hashKey(name))[0])
              && OwnsFirst(circle, hashKey(name), r.value)
    {
      if |circle| == 0 {
        return Err(ErrEmptyCircle);
      }
      var key := hashKey(name);
      var i := Search(key);
      StartLands(sortedHashes, circle.Keys, key, i);
      PreferredOwnsLanding(circle, key, sortedHashes[i]);
      LandingUnique(circle.Keys, key, sortedHashes[i]);
      PreferredOwnsFirst(circle, key);
      return Ok(circle[sortedHashes[i]]);
    }

    /** The loop of `GetN`, from the position after `start` round to `start` again. */
    method WalkRound(start: nat, n: int, first: seq<string>) returns (res: seq<string>, ghost visited: nat)
      requires start < |sortedHashes| && forall p :: p in sortedHashes ==> p in circle
      requires first == Met(circle, sortedHashes, start, 1) && |first| == 1 != n
      requires start == 0 ==> 2 <= n <= |Met(circle, sortedHashes, start, |sortedHashes|)|
      ensures 1 <= visited <= |sortedHashes| && res == Met(circle, sortedHashes, start, visited)
      ensures |res| == n || (visited == |sortedHashes| && (2 <= n ==> |res| < n))
    {
      hide Met;
      visited, res := 1, first;
      var i := start + 1;
      while i != start
        invariant 1 <= visited <= |sortedHashes| && i == IndexAfter(|sortedHashes|, start, visited)
        invariant res == Met(circle, sortedHashes, start, visited)
        invariant |res| != n && (2 <= n ==> |res| < n)
        decreases |sortedHashes| - visited
      {
        MetStep(circle, sortedHashes, start, visited, i);
        if i >= |sortedHashes| {
          i := 0;
        }
        var elem := circle[sortedHashes[i]];
        if elem !in res {
          res := res + [elem];
        }
        visited := visited + 1;
        if |res| == n {
          break;
        }
        i := i + 1;
      }
    }

    /** The `n` nearest elements, nearest first. */
    method GetN(name: string, n: int) returns (r: Result<seq<string>, Error>)
      requires Valid() && WalkEnds(State(), hashKey(name), n)
      ensures r == if circle == map[] then Err(ErrEmptyCircle) else Ok(Nearest(State(), hashKey(name), n))
    {
      if |circle| == 0 {
        return Err(ErrEmptyCircle);
      }
      var n' := if count < n then count else n;
      var key := hashKey(name);
      var start := Search(key);
      var res := [circle[sortedHashes[start]]];
      WalkSetsOut(State(), sortedHashes, key, start, n);
      ghost var visited := 1;
      if |res| != n' {
        res, visited := WalkRound(start, n', res);
      }
      WalkStops(State(), sortedHashes, key, start, n, visited);
      return Ok(res);
    }

    /** The loop of `GetTwo`: the first element other than `a`, or `a` once the walk is round. */
    method OtherRound(start: nat, a: string) returns (b: string)
      requires start < |sortedHashes| && forall p :: p in sortedHashes ==> p in circle
      requires [a] == Met(circle, sortedHashes, start, 1)
      requires start == 0 ==> 2 <= |Met(circle, sortedHashes, start, |sortedHashes|)|
      ensures var p := Met(circle, sortedHashes, start, |sortedHashes|);
              if 2 <= |p| then b == p[1] else b == a
    {
      hide Met;
      ghost var visited := 1;
      b := a;
      var i := start + 1;
      while i != start
        invariant 1 <= visited <= |sortedHashes| && i == IndexAfter(|sortedHashes|, start, visited)
        invariant [a] == Met(circle, sortedHashes, start, visited) && b == a
        decreases |sortedHashes| - visited
      {
        MetStep(circle, sortedHashes, start, visited, i);
        if i >= |sortedHashes| {
          i := 0;
        }
        b := circle[sortedHashes[i]];
        visited := visited + 1;
        if b != a {
          break;
        }
        i := i + 1;
      }
    }

    /** The two nearest elements; one is missing when the count is 1. */
    method GetTwo(name: string) returns (r: Result<(string, string), Error>)
      requires Valid() && (count == 1 || WalkEnds(State().(count := 2), hashKey(name), 2))
      ensures circle == map[] <==> r == Err(ErrEmptyCircle)
      ensures circle != map[] ==>
              var p := PreferenceList(circle, hashKey(name));
              && p != []
              && r == Ok((p[0], if count == 1 then "" else if 2 <= |p| then p[1] else p[0]))
    {
      if |circle| == 0 {
        return Err(ErrEmptyCircle);
      }
      var key := hashKey(name);
      var i := Search(key);
      var a := circle[sortedHashes[i]];
      MetFirst(circle, sortedHashes, i);
      MetAll(circle, sortedHashes, key, i);
      MetIsPrefix(circle, sortedHashes, i, 1);
      if count == 1 {
        return Ok((a, ""));
      }
      WalkSetsOut(State().(count := 2), sortedHashes, key, i, 2);
      var b := OtherRound(i, a);
      return Ok((a, b));
    }
  }
}
