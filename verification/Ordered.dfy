/** Ascending lists over an order given as a predicate, and the sort that makes them (`sort.Sort`,
    `sort.Slice`). */
module Ordered {

  ghost predicate StrictOrder<T(!new)>(less: (T, T) -> bool) {
    && (forall a, b :: less(a, b) || less(b, a) || a == b)
    && (forall a, b :: !(less(a, b) && less(b, a)))
    && (forall a, b, c :: less(a, b) && less(b, c) ==> less(a, c))
  }

  ghost predicate Ascends<T(!new)>(less: (T, T) -> bool, s: seq<T>) {
    forall i, j :: 0 <= i < j < |s| ==> less(s[i], s[j])
  }

  /** `s` is the ascending list of `keys`, each once. */
  ghost predicate Lists<T(!new)>(less: (T, T) -> bool, s: seq<T>, keys: set<T>) {
    Ascends(less, s) && forall k :: k in s <==> k in keys
  }

  lemma HeadIsMember<T>(s: seq<T>)
    ensures |s| > 0 ==> s[0] in s
  {}

  lemma TailLists<T(!new)>(less: (T, T) -> bool, s: seq<T>, keys: set<T>)
    requires StrictOrder(less) && Lists(less, s, keys) && s != []
    ensures Lists(less, s[1..], keys - {s[0]}) && s[0] in keys
    ensures forall k :: k in keys ==> k == s[0] || less(s[0], k)
  {
    forall k ensures k in s[1..] <==> k in keys - {s[0]} {
      assert s == [s[0]] + s[1..];
    }
  }

  lemma {:induction false} ListsUnique<T(!new)>(less: (T, T) -> bool, s: seq<T>, t: seq<T>, keys: set<T>)
    requires StrictOrder(less) && Lists(less, s, keys) && Lists(less, t, keys)
    ensures s == t
  {
    if keys == {} {
      HeadIsMember(s);
      HeadIsMember(t);
    } else {
      var k :| k in keys;
      assert k in s && k in t;
      TailLists(less, s, keys);
      TailLists(less, t, keys);
      ListsUnique(less, s[1..], t[1..], keys - {s[0]});
      assert s == [s[0]] + s[1..] && t == [t[0]] + t[1..];
    }
  }

  // ----- the least element, and the list a set has -----

  ghost predicate IsLeast<T(!new)>(less: (T, T) -> bool, keys: set<T>, k: T) {
    k in keys && forall x :: x in keys ==> x == k || less(k, x)
  }

  lemma {:induction false} LeastExists<T(!new)>(less: (T, T) -> bool, keys: set<T>)
    requires StrictOrder(less) && keys != {}
    ensures exists k :: IsLeast(less, keys, k)
  {
    var k :| k in keys;
    var rest := keys - {k};
    assert forall x :: x in keys ==> x == k || x in rest;
    if rest == {} {
      assert IsLeast(less, keys, k);
    } else {
      LeastExists(less, rest);
      var r :| IsLeast(less, rest, r);
      assert IsLeast(less, keys, if less(k, r) then k else r);
    }
  }

  ghost function Least<T(!new)>(less: (T, T) -> bool, keys: set<T>): (k: T)
    requires StrictOrder(less) && keys != {}
    ensures IsLeast(less, keys, k)
  {
    LeastExists(less, keys);
    var k :| IsLeast(less, keys, k);
    k
  }

  ghost function Ascending<T(!new)>(less: (T, T) -> bool, keys: set<T>): (s: seq<T>)
    requires StrictOrder(less)
    ensures Lists(less, s, keys)
  {
    if keys == {} then [] else
      var k := Least(less, keys);
      [k] + Ascending(less, keys - {k})
  }

  // ----- sorting -----

  function Members<T(!new)>(s: seq<T>): set<T> {
    set x | x in s
  }

  lemma MembersNext<T(!new)>(s: seq<T>, x: T)
    ensures Members(s + [x]) == Members(s) + {x}
  {}

  lemma InsertAscends<T(!new)>(less: (T, T) -> bool, t: seq<T>, s: seq<T>, j: nat, x: T)
    requires Ascends(less, s) && j <= |s| && t == s[..j] + [x] + s[j..]
    requires forall i :: 0 <= i < j ==> less(s[i], x)
    requires forall i :: j <= i < |s| ==> less(x, s[i])
    ensures Ascends(less, t)
  {
    assert forall i :: 0 <= i < |t| ==> t[i] == if i < j then s[i] else if i == j then x else s[i - 1];
  }

  lemma Insert<T(!new)>(less: (T, T) -> bool, s: seq<T>, j: nat, x: T, keys: set<T>)
    requires StrictOrder(less) && Lists(less, s, keys) && j <= |s| && x !in keys
    requires j > 0 ==> !less(x, s[j - 1])
    requires forall i :: j <= i < |s| ==> less(x, s[i])
    ensures Lists(less, s[..j] + [x] + s[j..], keys + {x})
  {
    var t := s[..j] + [x] + s[j..];
    if j > 0 {
      assert s[j - 1] in keys;
    }
    InsertAscends(less, t, s, j, x);
    forall y ensures y in t <==> y in keys + {x} {
      assert s == s[..j] + s[j..];
      assert y in t <==> y in s[..j] || y == x || y in s[j..];
    }
  }

  /** Different elements, each inserted into its place. */
  method Sort<T(!new)>(less: (T, T) -> bool, xs: seq<T>) returns (sorted: seq<T>)
    requires StrictOrder(less) && forall i, j :: 0 <= i < j < |xs| ==> xs[i] != xs[j]
    ensures Lists(less, sorted, Members(xs))
  {
    hide StrictOrder;
    sorted := [];
    for k := 0 to |xs|
      invariant Lists(less, sorted, Members(xs[..k]))
    {
      var j := |sorted|;
      while j > 0 && less(xs[k], sorted[j - 1])
        invariant 0 <= j <= |sorted|
        invariant forall i :: j <= i < |sorted| ==> less(xs[k], sorted[i])
      {
        j := j - 1;
      }
      Insert(less, sorted, j, xs[k], Members(xs[..k]));
      sorted := sorted[..j] + [xs[k]] + sorted[j..];
      assert xs[..k + 1] == xs[..k] + [xs[k]];
      MembersNext(xs[..k], xs[k]);
    }
    assert xs[..|xs|] == xs;
  }
}
