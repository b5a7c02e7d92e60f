/** The order in which the entries of a map field are written. */
module MapOrder {
  import opened Ordered
  import opened ProtoSchema

  predicate StringLess(s: string, t: string) {
    if t == [] then false
    else if s == [] then true
    else s[0] < t[0] || (s[0] == t[0] && StringLess(s[1..], t[1..]))
  }

  /** false before true, numbers by value, strings by their characters. */
  predicate KeyLess(a: MapKey, b: MapKey) {
    match (a, b)
    case (BoolKey(x), BoolKey(y)) => !x && y
    case (IntKey(x), IntKey(y)) => x < y
    case (StrKey(x), StrKey(y)) => StringLess(x, y)
    case (BoolKey(_), _) => true
    case (IntKey(_), StrKey(_)) => true
    case _ => false
  }

  /** The strings agree before `k`; there `s` ends or has the lesser character. */
  predicate LessAt(s: string, t: string, k: nat) {
    k <= |s| && k < |t| && s[..k] == t[..k] && (k == |s| || s[k] < t[k])
  }

  lemma LessAtNext(s: string, t: string, k: nat)
    requires s != [] && t != []
    ensures LessAt(s, t, k + 1) <==> s[0] == t[0] && LessAt(s[1..], t[1..], k)
    ensures LessAt(s, t, 0) <==> s[0] < t[0]
  {
    if k + 1 <= |s| && k + 1 <= |t| {
      assert s[..k + 1] == [s[0]] + s[1..][..k] && t[..k + 1] == [t[0]] + t[1..][..k];
    }
  }

  /** Strings in order: the first character in which they differ decides, and a beginning comes before
      what goes on. */
  lemma {:induction false} StringLessMeans(s: string, t: string)
    ensures StringLess(s, t) <==> exists k: nat :: LessAt(s, t, k)
  {
    if t == [] {
    } else if s == [] {
      assert LessAt(s, t, 0);
    } else {
      hide LessAt;
      StringLessMeans(s[1..], t[1..]);
      LessAtNext(s, t, 0);
      if k: nat :| LessAt(s, t, k) {
        if k > 0 {
          LessAtNext(s, t, k - 1);
        }
      }
      if s[0] < t[0] {
        assert LessAt(s, t, 0);
      } else if s[0] == t[0] && StringLess(s[1..], t[1..]) {
        var k: nat :| LessAt(s[1..], t[1..], k);
        LessAtNext(s, t, k);
        assert LessAt(s, t, k + 1);
      }
    }
  }

  /** In whose terms the entries of a map are in order: numbers by value, false before true, strings as
      `StringLessMeans` says. */
  lemma KeysInOrder(keys: set<MapKey>, i: nat, j: nat)
    requires i < j < |SortedKeys(keys)|
    ensures var a, b := SortedKeys(keys)[i], SortedKeys(keys)[j];
            && (a.IntKey? && b.IntKey? ==> a.n < b.n)
            && (a.BoolKey? && b.BoolKey? ==> !a.b && b.b)
            && (a.StrKey? && b.StrKey? ==> StringLess(a.s, b.s))
  {}

  lemma {:induction false} StringLessTotal(s: string, t: string)
    ensures StringLess(s, t) || StringLess(t, s) || s == t
    ensures !(StringLess(s, t) && StringLess(t, s))
    ensures !StringLess(s, s)
  {
    if s != [] {
      StringLessTotal(s[1..], s[1..]);
    }
    if s != [] && t != [] {
      StringLessTotal(s[1..], t[1..]);
      assert s[0] == t[0] && s[1..] == t[1..] ==> s == [s[0]] + s[1..] == t;
    }
  }

  lemma {:induction false} StringLessTrans(s: string, t: string, u: string)
    requires StringLess(s, t) && StringLess(t, u)
    ensures StringLess(s, u)
  {
    if s != [] && s[0] == t[0] == u[0] {
      StringLessTrans(s[1..], t[1..], u[1..]);
    }
  }

  lemma KeyLessOrder(a: MapKey, b: MapKey)
    ensures KeyLess(a, b) || KeyLess(b, a) || a == b
    ensures !(KeyLess(a, b) && KeyLess(b, a)) && !KeyLess(a, a)
  {
    if a.StrKey? {
      StringLessTotal(a.s, a.s);
      if b.StrKey? {
        StringLessTotal(a.s, b.s);
      }
    }
  }

  lemma KeyLessTrans(a: MapKey, b: MapKey, c: MapKey)
    requires KeyLess(a, b) && KeyLess(b, c)
    ensures KeyLess(a, c)
  {
    if a.StrKey? {
      StringLessTrans(a.s, b.s, c.s);
    }
  }

  lemma KeyLessStrict()
    ensures StrictOrder(KeyLess)
  {
    forall a, b ensures KeyLess(a, b) || KeyLess(b, a) || a == b ensures !(KeyLess(a, b) && KeyLess(b, a)) {
      KeyLessOrder(a, b);
    }
    forall a, b, c | KeyLess(a, b) && KeyLess(b, c) ensures KeyLess(a, c) {
      KeyLessTrans(a, b, c);
    }
  }

  /** `sort.Slice` on different keys. */
  method SortKeys(ks: seq<MapKey>) returns (sorted: seq<MapKey>)
    requires forall i, j :: 0 <= i < j < |ks| ==> ks[i] != ks[j]
    ensures sorted == SortedKeys(Members(ks))
  {
    hide KeyLess;
    KeyLessStrict();
    sorted := Sort(KeyLess, ks);
    ListsUnique(KeyLess, sorted, SortedKeys(Members(ks)), Members(ks));
  }

  /** The keys in the order they are written. */
  ghost function SortedKeys(keys: set<MapKey>): (ks: seq<MapKey>)
    ensures Lists(KeyLess, ks, keys)
  {
    KeyLessStrict();
    Ascending(KeyLess, keys)
  }

  lemma SortedKeysDiffer(keys: set<MapKey>)
    ensures var ks := SortedKeys(keys); forall i, j :: 0 <= i < j < |ks| ==> ks[i] != ks[j]
  {
    hide KeyLess;
    KeyLessStrict();
  }
}
