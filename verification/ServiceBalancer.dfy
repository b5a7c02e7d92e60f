/** The picker built from the ready connections, and the three ways it routes a request
    (`Common/RegisterCenter/ServiceBalancer.go`). */
module ServiceBalancer {
  import opened ConsistentHash
  import opened HashRing
  import opened NodeTable
  import opened Preference
  import opened Results
  import opened RingWalk

  datatype SubConn = SubConn(id: int)

  datatype PickError =
    | ErrNoSubConnAvailable
    | ErrNotFoundConn
    | ErrNotFoundPickType
    | ErrNotFoundPickParam
    | ErrRing(error: ConsistentHash.Error)

  /** A picked connection; nothing stands for the nil connection. */
  type Picked = Result<Option<SubConn>, PickError>

  type Filter = map<string, string>

  const PARAM_PICK_TYPE := "pick_type"
  const PARAM_PICK_PARAM := "pick_param"
  const PICK_CONSISTENT_HASH := "consistent_hash"
  const PICK_RAND_WEIGHT := "rand_weight"
  const PICK_SPECIFY_ADDR := "specify_addr"
  const NEAREST_NODES := 3

  type Ready = map<SubConn, Address>

  function KeysOf(ready: Ready): set<string> {
    set c | c in ready :: ready[c].node.key
  }

  function AddrsOf(ready: Ready): set<string> {
    set c | c in ready :: ready[c].node.rn.addr
  }

  ghost predicate KeysDiffer(ready: Ready) {
    forall c, d :: c in ready && d in ready && ready[c].node.key == ready[d].node.key ==> c == d
  }

  /** What the three look-up maps say about the ready connections, in whatever order those came. */
  ghost predicate Indexes(ready: Ready, k2vn: map<string, VirtualNode>, k2conn: map<string, SubConn>,
                          addr2conn: map<string, SubConn>)
  {
    && k2vn.Keys == k2conn.Keys == KeysOf(ready) && addr2conn.Keys == AddrsOf(ready)
    && (forall k :: k in k2conn ==> k2conn[k] in ready && ready[k2conn[k]].node.key == k)
    && (forall k :: k in k2conn ==> k2vn[k] == ready[k2conn[k]].node)
    && (forall a :: a in addr2conn ==> addr2conn[a] in ready && ready[addr2conn[a]].node.rn.addr == a)
  }

  /** What the ring holds: the keys, and as many adds as connections. */
  ghost predicate RingOf(h: Hash, n: nat, ready: Ready, s: RingState) {
    && s.members == KeysOf(ready) && s.count == |ready|
    && (ready != map[] ==> s.circle != map[])
    && (KeysDiffer(ready) && Separate(h, n, KeysOf(ready)) ==> Canonical(h, n, s))
  }

  lemma KeysOfNext(ready: Ready, c: SubConn, address: Address)
    requires c !in ready
    ensures KeysOf(ready[c := address]) == KeysOf(ready) + {address.node.key}
    ensures AddrsOf(ready[c := address]) == AddrsOf(ready) + {address.node.rn.addr}
  {
    var more := ready[c := address];
    forall k | k in KeysOf(ready) + {address.node.key} ensures k in KeysOf(more) {
      if k in KeysOf(ready) {
        var d :| d in ready && ready[d].node.key == k;
        assert d in more && more[d] == ready[d];
      } else {
        assert c in more && more[c].node.key == k;
      }
    }
    forall a | a in AddrsOf(ready) + {address.node.rn.addr} ensures a in AddrsOf(more) {
      if a in AddrsOf(ready) {
        var d :| d in ready && ready[d].node.rn.addr == a;
        assert d in more && more[d] == ready[d];
      } else {
        assert c in more && more[c].node.rn.addr == a;
      }
    }
  }

  lemma IndexesNext(ready: Ready, k2vn: map<string, VirtualNode>, k2conn: map<string, SubConn>,
                    addr2conn: map<string, SubConn>, c: SubConn, address: Address)
    requires Indexes(ready, k2vn, k2conn, addr2conn) && c !in ready
    ensures var vn := address.node;
            Indexes(ready[c := address], k2vn[vn.key := vn], k2conn[vn.key := c], addr2conn[vn.rn.addr := c])
  {
    KeysOfNext(ready, c, address);
  }

  lemma KeyIsNew(ready: Ready, c: SubConn, address: Address)
    requires c !in ready && KeysDiffer(ready[c := address])
    ensures address.node.key !in KeysOf(ready) && KeysDiffer(ready)
  {
    var more := ready[c := address];
    assert forall d :: d in ready ==> d in more && more[d] == ready[d];
    assert forall d :: d in ready ==> more[d].node.key != more[c].node.key;
  }

  lemma AddLeavesPoints(h: Hash, n: nat, s: RingState, k: string)
    requires 1 <= n
    ensures AddElt(h, n, s, k).circle != map[]
  {
    assert h(EltKey(k, 0)) in Points(h, n, k);
    assert h(EltKey(k, 0)) in AddElt(h, n, s, k).circle;
  }

  lemma RingOfNext(h: Hash, n: nat, ready: Ready, s: RingState, c: SubConn, address: Address)
    requires RingOf(h, n, ready, s) && c !in ready && 1 <= n
    ensures RingOf(h, n, ready[c := address], AddElt(h, n, s, address.node.key))
  {
    hide Canonical, Points, Claim;
    var more, k := ready[c := address], address.node.key;
    KeysOfNext(ready, c, address);
    AddLeavesPoints(h, n, s, k);
    if KeysDiffer(more) && Separate(h, n, KeysOf(more)) {
      KeyIsNew(ready, c, address);
      AddKeepsCanonical(h, n, s, k);
    }
  }

  // ----- the order of the connections -----

  /** `conns` names each of `cs` once. */
  ghost predicate Order(cs: set<SubConn>, conns: seq<SubConn>) {
    multiset(conns) == multiset(cs)
  }

  /** The ring that adds the keys of `conns`, first to last. */
  ghost function RingIn(h: Hash, n: nat, ready: Ready, conns: seq<SubConn>): RingState {
    if conns == [] then EMPTY
    else
      var s, c := RingIn(h, n, ready, conns[..|conns| - 1]), conns[|conns| - 1];
      if c in ready then AddElt(h, n, s, ready[c].node.key) else s
  }

  /** The ring of the connections `cs`, met in some order. */
  ghost predicate RingInSomeOrder(h: Hash, n: nat, ready: Ready, cs: set<SubConn>, s: RingState) {
    exists conns :: Order(cs, conns) && RingIn(h, n, ready, conns) == s
  }

  lemma NothingAdded(h: Hash, n: nat, ready: Ready)
    ensures RingInSomeOrder(h, n, ready, {}, EMPTY)
  {
    assert Order({}, []) && RingIn(h, n, ready, []) == EMPTY;
  }

  lemma RingInNext(h: Hash, n: nat, ready: Ready, conns: seq<SubConn>, c: SubConn)
    requires c in ready
    ensures RingIn(h, n, ready, conns + [c]) == AddElt(h, n, RingIn(h, n, ready, conns), ready[c].node.key)
  {
    hide AddElt;
    assert (conns + [c])[..|conns|] == conns;
  }

  lemma SomeOrderNext(h: Hash, n: nat, ready: Ready, cs: set<SubConn>, s: RingState, c: SubConn)
    requires c in ready && c !in cs && RingInSomeOrder(h, n, ready, cs, s)
    ensures RingInSomeOrder(h, n, ready, cs + {c}, AddElt(h, n, s, ready[c].node.key))
  {
    hide AddElt;
    var conns :| Order(cs, conns) && RingIn(h, n, ready, conns) == s;
    RingInNext(h, n, ready, conns, c);
    assert Order(cs + {c}, conns + [c]);
  }

  lemma SomethingIndexed(ready: Ready, k2vn: map<string, VirtualNode>, k2conn: map<string, SubConn>,
                         addr2conn: map<string, SubConn>)
    requires Indexes(ready, k2vn, k2conn, addr2conn)
    ensures ready == map[] <==> |k2conn| == 0
  {
    if ready != map[] {
      var c :| c in ready;
      assert ready[c].node.key in k2conn;
    }
  }

  /** A ring that is not empty prefers one of its keys. */
  lemma PrefersAKey(h: Hash, n: nat, ready: Ready, s: RingState, key: uint32)
    requires RingOf(h, n, ready, s) && Owned(h, n, s) && ready != map[]
    ensures s.circle != map[]
    ensures PreferenceList(s.circle, key) != [] && PreferenceList(s.circle, key)[0] in KeysOf(ready)
    ensures forall m :: Nearest(s, key, m) != [] && Nearest(s, key, m)[0] == PreferenceList(s.circle, key)[0]
  {
    hide Separate, Canonical, KeysOf;
    PreferenceMembers(s.circle, key);
    OwnersAreMembers(h, n, s);
    var p :| p in s.circle;
    assert s.circle[p] in s.circle.Values;
    var list := PreferenceList(s.circle, key);
    assert s.circle[p] in list;
    assert list[0] in list;
  }

  /** The look-up maps and the ring of the ready connections. */
  ghost predicate BuiltFrom(h: Hash, n: nat, ready: Ready, k2vn: map<string, VirtualNode>, k2conn: map<string, SubConn>,
                            addr2conn: map<string, SubConn>, s: RingState)
  {
    Indexes(ready, k2vn, k2conn, addr2conn) && RingOf(h, n, ready, s)
  }

  lemma NothingBuilt(h: Hash, n: nat)
    ensures BuiltFrom(h, n, map[], map[], map[], map[], EMPTY)
  {
    assert PointsOf(h, n, {}) == {};
  }

  lemma BuiltNext(h: Hash, n: nat, ready: Ready, rest: set<SubConn>, k2vn: map<string, VirtualNode>,
                  k2conn: map<string, SubConn>, addr2conn: map<string, SubConn>, s: RingState, c: SubConn)
    requires 1 <= n && c in rest && c in ready && BuiltFrom(h, n, ready - rest, k2vn, k2conn, addr2conn, s)
    ensures var vn := ready[c].node;
            BuiltFrom(h, n, ready - (rest - {c}), k2vn[vn.key := vn], k2conn[vn.key := c], addr2conn[vn.rn.addr := c],
                      AddElt(h, n, s, vn.key))
  {
    hide Indexes, RingOf, AddElt;
    IndexesNext(ready - rest, k2vn, k2conn, addr2conn, c, ready[c]);
    RingOfNext(h, n, ready - rest, s, c, ready[c]);
    assert (ready - rest)[c := ready[c]] == ready - (rest - {c});
  }

  /** The connections of the nodes `keys`. */
  function ConnsAt(k2conn: map<string, SubConn>, keys: set<string>): set<SubConn> {
    set k | k in keys && k in k2conn :: k2conn[k]
  }

  /** No two nodes share a connection. */
  lemma ConnsAtNext(ready: Ready, k2vn: map<string, VirtualNode>, k2conn: map<string, SubConn>,
                    addr2conn: map<string, SubConn>, rest: set<string>, key: string)
    requires Indexes(ready, k2vn, k2conn, addr2conn) && key in rest && rest <= k2conn.Keys
    ensures var done := ConnsAt(k2conn, k2conn.Keys - rest);
            && k2conn[key] !in done
            && ConnsAt(k2conn, k2conn.Keys - (rest - {key})) == done + {k2conn[key]}
            && multiset(done + {k2conn[key]}) == multiset(done) + multiset{k2conn[key]}
  {
    var done := ConnsAt(k2conn, k2conn.Keys - rest);
    forall c ensures c in ConnsAt(k2conn, k2conn.Keys - (rest - {key})) <==> c in done + {k2conn[key]} {
      if c in done {
        var k :| k in k2conn.Keys - rest && k2conn[k] == c;
        assert k in k2conn.Keys - (rest - {key});
      }
    }
  }

  class Picker {
    var k2vn: map<string, VirtualNode>
    var k2conn: map<string, SubConn>
    var addr2conn: map<string, SubConn>
    const hash: Consistent

    /** The connections the picker was built from. */
    ghost const ready: Ready

    ghost predicate Valid()
      reads this, hash
    {
      && hash.Valid()
      && Indexes(ready, k2vn, k2conn, addr2conn)
      && RingOf(hash.hashKey, hash.NumberOfReplicas, ready, hash.State())
    }

    /** The node a consistent-hash pick for `name` goes to. */
    ghost function RouteKey(name: string): (key: string)
      requires Valid() && ready != map[]
      reads this, hash
      ensures key in k2vn && key in k2conn
    {
      PrefersAKey(hash.hashKey, hash.NumberOfReplicas, ready, hash.State(), hash.hashKey(name));
      PreferenceList(hash.circle, hash.hashKey(name))[0]
    }

    /** Fills the look-up maps and the ring; the connections come in any order. */
    static method IndexAll(hash: Consistent, readySCs: Ready)
      returns (k2vn: map<string, VirtualNode>, k2conn: map<string, SubConn>, addr2conn: map<string, SubConn>)
      requires hash.Valid() && hash.State() == EMPTY
      modifies hash
      ensures hash.Valid()
      ensures BuiltFrom(hash.hashKey, hash.NumberOfReplicas, readySCs, k2vn, k2conn, addr2conn, hash.State())
      ensures RingInSomeOrder(hash.hashKey, hash.NumberOfReplicas, readySCs, readySCs.Keys, hash.State())
    {
      hide BuiltFrom, AddElt, RingInSomeOrder;
      k2vn, k2conn, addr2conn := map[], map[], map[];
      var rest := readySCs.Keys;
      NothingBuilt(hash.hashKey, hash.NumberOfReplicas);
      NothingAdded(hash.hashKey, hash.NumberOfReplicas, readySCs);
      assert readySCs - rest == map[] && readySCs.Keys - rest == {};
      while rest != {}
        invariant rest <= readySCs.Keys && hash.Valid()
        invariant BuiltFrom(hash.hashKey, hash.NumberOfReplicas, readySCs - rest, k2vn, k2conn, addr2conn, hash.State())
        invariant RingInSomeOrder(hash.hashKey, hash.NumberOfReplicas, readySCs, readySCs.Keys - rest, hash.State())
        decreases |rest|
      {
        var conn :| conn in rest;
        var vn := readySCs[conn].node;
        BuiltNext(hash.hashKey, hash.NumberOfReplicas, readySCs, rest, k2vn, k2conn, addr2conn, hash.State(), conn);
        SomeOrderNext(hash.hashKey, hash.NumberOfReplicas, readySCs, readySCs.Keys - rest, hash.State(), conn);
        assert readySCs.Keys - rest + {conn} == readySCs.Keys - (rest - {conn});
        k2vn := k2vn[vn.key := vn];
        k2conn := k2conn[vn.key := conn];
        addr2conn := addr2conn[vn.rn.addr := conn];
        hash.Add(vn.key);
        rest := rest - {conn};
      }
      assert readySCs - {} == readySCs && readySCs.Keys - {} == readySCs.Keys;
    }

    constructor (hashKey: Hash, readySCs: Ready)
      ensures Valid() && ready == readySCs && fresh(hash)
      ensures hash.hashKey == hashKey && hash.NumberOfReplicas == DEFAULT_REPLICAS
      ensures RingInSomeOrder(hashKey, DEFAULT_REPLICAS, ready, ready.Keys, hash.State())
    {
      hide Indexes, RingOf, RingInSomeOrder;
      hash := new Consistent(hashKey);
      k2vn, k2conn, addr2conn := map[], map[], map[];
      ready := readySCs;
      new;
      k2vn, k2conn, addr2conn := IndexAll(hash, readySCs);
    }

    /** No node is filtered out. */
    predicate FilterNode(vn: VirtualNode, filter: Filter) {
      true
    }

    /** Routes to the first acceptable one of the three nodes nearest to the hash of the parameter:
        the node the ring prefers. */
    method PickConsistentHash(filter: Filter) returns (r: Picked)
      requires Valid() && ready != map[]
      requires PARAM_PICK_PARAM in filter ==>
               WalkEnds(hash.State(), hash.hashKey(filter[PARAM_PICK_PARAM]), NEAREST_NODES)
      ensures r == if PARAM_PICK_PARAM in filter
                   then Ok(Some(k2conn[RouteKey(filter[PARAM_PICK_PARAM])]))
                   else Err(ErrNotFoundPickParam)
    {
      hide RingOf, Owned, Lists, Nearest;
      if PARAM_PICK_PARAM !in filter {
        return Err(ErrNotFoundPickParam);
      }
      var hashKey := filter[PARAM_PICK_PARAM];
      ghost var route := RouteKey(hashKey);
      PrefersAKey(hash.hashKey, hash.NumberOfReplicas, ready, hash.State(), hash.hashKey(hashKey));
      var found := hash.GetN(hashKey, NEAREST_NODES);
      if found.Err? {
        return Err(ErrRing(ErrEmptyCircle));
      }
      var keys := found.value;
      assert keys[0] == route;
      for i := 0 to |keys|
        invariant i == 0
      {
        var key := keys[i];
        if FilterNode(k2vn[key], filter) {
          return Ok(Some(k2conn[key]));
        }
      }
      return Err(ErrNotFoundConn);
    }

    /** The connections a random pick chooses from: that of every node, once. */
    method Candidates(filter: Filter) returns (subConns: seq<SubConn>)
      requires Valid()
      ensures multiset(subConns) == multiset(ConnsAt(k2conn, k2conn.Keys)) && |subConns| == |k2conn|
    {
      hide RingOf;
      subConns := [];
      var rest := k2conn.Keys;
      while rest != {}
        invariant rest <= k2conn.Keys && |subConns| == |k2conn| - |rest|
        invariant multiset(subConns) == multiset(ConnsAt(k2conn, k2conn.Keys - rest))
        decreases |rest|
      {
        var key :| key in rest;
        ConnsAtNext(ready, k2vn, k2conn, addr2conn, rest, key);
        if FilterNode(k2vn[key], filter) {
          subConns := subConns + [k2conn[key]];
        }
        rest := rest - {key};
      }
    }

    /** Routes to any one of the candidates. */
    method PickRandWeight(filter: Filter) returns (r: Picked)
      requires Valid()
      ensures ready == map[] ==> r == Err(ErrNotFoundConn)
      ensures ready != map[] ==> r.Ok? && r.value.Some? && r.value.value in ready
    {
      hide RingOf;
      SomethingIndexed(ready, k2vn, k2conn, addr2conn);
      var subConns := Candidates(filter);
      if |subConns| == 0 {
        return Err(ErrNotFoundConn);
      }
      var index :| 0 <= index < |subConns|;
      assert subConns[index] in multiset(subConns);
      return Ok(Some(subConns[index]));
    }

    /** Routes to a connection to the given address; an address that is not ready gives the nil
        connection and no error. */
    method PickSpecifyAddr(filter: Filter) returns (r: Picked)
      requires Valid()
      ensures PARAM_PICK_PARAM !in filter ==> r == Err(ErrNotFoundPickParam)
      ensures PARAM_PICK_PARAM in filter ==>
              var addr := filter[PARAM_PICK_PARAM];
              && r.Ok?
              && (r.value.Some? <==> addr in AddrsOf(ready))
              && (r.value.Some? ==> r.value.value in ready && ready[r.value.value].node.rn.addr == addr)
    {
      if PARAM_PICK_PARAM in filter {
        var addr := filter[PARAM_PICK_PARAM];
        if addr in addr2conn {
          return Ok(Some(addr2conn[addr]));
        }
        return Ok(None);
      }
      return Err(ErrNotFoundPickParam);
    }

    /** Dispatches on the pick type. */
    method Pick(filter: Filter) returns (r: Picked)
      requires Valid()
      requires "pick_type" in filter && filter["pick_type"] == "consistent_hash" && "pick_param" in filter ==>
               WalkEnds(hash.State(), hash.hashKey(filter["pick_param"]), NEAREST_NODES)
      ensures ready == map[] ==> r == Err(ErrNotFoundConn)
      ensures ready != map[] ==> Answered(filter, r)
      ensures ready != map[] && r.Ok? && filter["pick_type"] == "consistent_hash" ==>
              r.value == Some(k2conn[RouteKey(filter["pick_param"])])
    {
      hide RingOf, WalkEnds, OwnsFirst;
      SomethingIndexed(ready, k2vn, k2conn, addr2conn);
      if |k2conn| == 0 {
        return Err(ErrNotFoundConn);
      }
      var pickType := PickType(filter);
      if pickType == PICK_CONSISTENT_HASH {
        if PARAM_PICK_PARAM in filter {
          RouteKeyPreferred(filter[PARAM_PICK_PARAM]);
        }
        r := PickConsistentHash(filter);
      } else if pickType == PICK_RAND_WEIGHT {
        r := PickRandWeight(filter);
      } else if pickType == PICK_SPECIFY_ADDR {
        r := PickSpecifyAddr(filter);
      } else {
        return Err(ErrNotFoundPickType);
      }
    }

    /** A missing pick type reads as the empty string. */
    static function PickType(filter: Filter): string {
      if PARAM_PICK_TYPE in filter then filter[PARAM_PICK_TYPE] else ""
    }

    /** What a non-empty picker answers to a request, as the request's own parameters say. */
    ghost predicate Answered(filter: Filter, r: Picked)
      reads this, hash
    {
      if "pick_type" !in filter then r == Err(ErrNotFoundPickType)
      else if filter["pick_type"] == "rand_weight" then r.Ok? && r.value.Some? && r.value.value in ready
      else if filter["pick_type"] == "specify_addr" then
        if "pick_param" !in filter then r == Err(ErrNotFoundPickParam)
        else
          && r.Ok?
          && (r.value.Some? ==> r.value.value in ready && ready[r.value.value].node.rn.addr == filter["pick_param"])
          && (r.value.None? ==> forall c :: c in ready ==> ready[c].node.rn.addr != filter["pick_param"])
      else if filter["pick_type"] == "consistent_hash" then
        if "pick_param" !in filter then r == Err(ErrNotFoundPickParam)
        else
          && r.Ok? && r.value.Some? && r.value.value in ready
          && OwnsFirst(hash.circle, hash.hashKey(filter["pick_param"]), ready[r.value.value].node.key)
      else r == Err(ErrNotFoundPickType)
    }

    lemma RouteKeyPreferred(name: string)
      requires Valid() && ready != map[]
      ensures OwnsFirst(hash.circle, hash.hashKey(name), RouteKey(name)) && k2conn[RouteKey(name)] in ready
      ensures ready[k2conn[RouteKey(name)]].node.key == RouteKey(name)
    {
      hide Owned, Lists, Nearest, OwnsFirst, Canonical, Separate, KeysDiffer;
      PreferredOwnsFirst(hash.circle, hash.hashKey(name));
    }
  }

  /** `tdPickerBuilder.Build`. */
  method Build(hashKey: Hash, readySCs: Ready) returns (r: Result<Picker, PickError>)
    ensures readySCs == map[] ==> r == Err(ErrNoSubConnAvailable)
    ensures readySCs != map[] ==>
            && r.Ok? && fresh(r.value) && r.value.Valid() && r.value.ready == readySCs
            && r.value.hash.hashKey == hashKey && r.value.hash.NumberOfReplicas == 20
  {
    if |readySCs| == 0 {
      return Err(ErrNoSubConnAvailable);
    }
    var p := new Picker(hashKey, readySCs);
    return Ok(p);
  }
}
