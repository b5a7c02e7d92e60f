/** The pipeline from service events to picked nodes: what going online or offline does to the
    routing of every request. */
module Routing {
  import opened ConsistentHash
  import opened HashRing
  import opened NodeTable
  import opened Preference
  import opened RingWalk
  import opened ServiceBalancer

  /** Every node of the table has a ready connection, and no other connection is ready. */
  ghost predicate AllReady(t: Table, ready: Ready) {
    && KeysDiffer(ready) && KeysOf(ready) == t.nodes.Keys
    && forall c :: c in ready ==> ready[c] == t.nodes[ready[c].node.key]
  }

  /** The nodes `done` have a ready connection each, numbered from 0. */
  ghost predicate Dialled(t: Table, done: set<string>, ready: Ready) {
    && KeysDiffer(ready) && KeysOf(ready) == done <= t.nodes.Keys
    && forall c :: c in ready ==>
         0 <= c.id < |ready| && ready[c].node.key in t.nodes && ready[c] == t.nodes[ready[c].node.key]
  }

  lemma DialledNext(t: Table, done: set<string>, ready: Ready, k: string)
    requires Dialled(t, done, ready) && k in t.nodes && k !in done && t.nodes[k].node.key == k
    ensures var c := SubConn(|ready|);
            c !in ready && Dialled(t, done + {k}, ready[c := t.nodes[k]])
  {
    var c := SubConn(|ready|);
    KeysOfNext(ready, c, t.nodes[k]);
    forall d | d in ready ensures ready[d].node.key != k {
      assert ready[d].node.key in KeysOf(ready);
    }
  }

  lemma DialledEnds(t: Table, ready: Ready)
    ensures Dialled(t, {}, map[])
    ensures Dialled(t, t.nodes.Keys, ready) ==> AllReady(t, ready)
  {}

  lemma KeyedAt(t: Table, k: string)
    requires Keyed(t) && k in t.nodes
    ensures t.nodes[k].node.key == k
  {
    assert Filed(k, t.nodes[k]);
  }

  /** Every table whose nodes are filed under their keys can have all its nodes ready: one connection
      for each. */
  method DialAll(t: Table) returns (ready: Ready)
    requires Keyed(t)
    ensures AllReady(t, ready) && (ready == map[] <==> t.nodes == map[])
  {
    hide Dialled, AllReady, Keyed;
    ready := map[];
    var rest := t.nodes.Keys;
    DialledEnds(t, ready);
    assert t.nodes.Keys - rest == {};
    while rest != {}
      invariant rest <= t.nodes.Keys && (ready == map[] <==> rest == t.nodes.Keys)
      invariant Dialled(t, t.nodes.Keys - rest, ready)
      decreases |rest|
    {
      var k :| k in rest;
      KeyedAt(t, k);
      DialledNext(t, t.nodes.Keys - rest, ready, k);
      assert t.nodes.Keys - rest + {k} == t.nodes.Keys - (rest - {k});
      ready := ready[SubConn(|ready|) := t.nodes[k]];
      rest := rest - {k};
    }
    assert t.nodes.Keys - {} == t.nodes.Keys;
    DialledEnds(t, ready);
  }

  /** A picker over a table whose nodes are all ready. */
  method BuildFor(hashKey: Hash, t: Table) returns (p: Picker)
    requires Keyed(t) && t.nodes != map[]
    ensures fresh(p) && p.Valid() && AllReady(t, p.ready) && p.ready != map[]
    ensures p.hash.hashKey == hashKey && p.hash.NumberOfReplicas == DEFAULT_REPLICAS
  {
    var ready := DialAll(t);
    var r := Build(hashKey, ready);
    p := r.value;
  }

  // ----- building a picker -----

  /** The order in which `Build` meets the connections shows nowhere, except in which connection
      of an address stands for it. */
  lemma BuildOrderIndependent(h: Hash, n: nat, ready: Ready,
                              k2vn: map<string, VirtualNode>, k2conn: map<string, SubConn>, addr2conn: map<string, SubConn>,
                              s: RingState,
                              k2vn': map<string, VirtualNode>, k2conn': map<string, SubConn>, addr2conn': map<string, SubConn>,
                              s': RingState)
    requires KeysDiffer(ready) && Separate(h, n, KeysOf(ready))
    requires Indexes(ready, k2vn, k2conn, addr2conn) && RingOf(h, n, ready, s)
    requires Indexes(ready, k2vn', k2conn', addr2conn') && RingOf(h, n, ready, s')
    ensures k2vn == k2vn' && k2conn == k2conn' && addr2conn.Keys == addr2conn'.Keys
    ensures s == s' && s.count == |KeysOf(ready)|
  {
    hide Separate, Canonical, KeysOf;
    forall k | k in k2conn ensures k2conn[k] == k2conn'[k] {}
    CanonicalUnique(h, n, s, s');
    CanonicalCount(h, n, s);
  }

  /** Every order in which `Build` may meet the connections gives the same ring. */
  ghost predicate OneRing(h: Hash, n: nat, ready: Ready) {
    forall conns, conns' :: Order(ready.Keys, conns) && Order(ready.Keys, conns') ==>
      RingIn(h, n, ready, conns) == RingIn(h, n, ready, conns')
  }

  /** The keys of the connections `conns`. */
  ghost function KeysIn(ready: Ready, conns: seq<SubConn>): set<string> {
    set c | c in conns && c in ready :: ready[c].node.key
  }

  lemma KeysInNext(ready: Ready, conns: seq<SubConn>)
    requires conns != [] && conns[|conns| - 1] in ready
    ensures KeysIn(ready, conns) ==
            KeysIn(ready, conns[..|conns| - 1]) + {ready[conns[|conns| - 1]].node.key}
  {
    var rest, c := conns[..|conns| - 1], conns[|conns| - 1];
    assert conns == rest + [c];
  }

  /** Two connections with one key claim the same points: apart from the count the ring is canonical. */
  lemma {:induction false} RingInHolds(h: Hash, n: nat, ready: Ready, conns: seq<SubConn>)
    requires forall c :: c in conns ==> c in ready
    requires Separate(h, n, KeysIn(ready, conns))
    ensures var s := RingIn(h, n, ready, conns);
            && s.members == KeysIn(ready, conns) && s.count == |conns|
            && Owned(h, n, s) && s.circle.Keys == PointsOf(h, n, s.members)
  {
    hide Points, PointsOf, Owned, KeysIn;
    if conns == [] {
      NoPoints(h, n, ready);
    } else {
      var rest, c := conns[..|conns| - 1], conns[|conns| - 1];
      var s, k := RingIn(h, n, ready, rest), ready[c].node.key;
      KeysInNext(ready, conns);
      RingInHolds(h, n, ready, rest);
      PointsOfMore(h, n, s.members, k);
      StepKeepsOwned(h, n, s, Add(k));
      assert AddElt(h, n, s, k).circle.Keys == s.circle.Keys + Points(h, n, k);
    }
  }

  lemma NoPoints(h: Hash, n: nat, ready: Ready)
    ensures KeysIn(ready, []) == {} && PointsOf(h, n, {}) == {} && Owned(h, n, EMPTY)
  {}

  lemma OrderNamesAll(ready: Ready, conns: seq<SubConn>)
    requires Order(ready.Keys, conns)
    ensures (forall c :: c in conns ==> c in ready) && |conns| == |ready|
    ensures KeysIn(ready, conns) == KeysOf(ready)
  {
    assert forall c :: c in conns <==> c in multiset(conns);
    assert |conns| == |multiset(conns)| == |multiset(ready.Keys)| == |ready.Keys|;
  }

  lemma {:induction false} SomeOrder(cs: set<SubConn>) returns (conns: seq<SubConn>)
    ensures Order(cs, conns)
    decreases |cs|
  {
    conns := [];
    if cs != {} {
      var c :| c in cs;
      conns := SomeOrder(cs - {c});
      conns := conns + [c];
    }
  }

  /** Members and count are the same in every order; without collisions so is the circle. */
  lemma SeparateGivesOneRing(h: Hash, n: nat, ready: Ready)
    requires Separate(h, n, KeysOf(ready))
    ensures OneRing(h, n, ready)
  {
    hide Separate, KeysOf, Order, RingIn, KeysIn;
    forall conns, conns' | Order(ready.Keys, conns) && Order(ready.Keys, conns')
      ensures RingIn(h, n, ready, conns) == RingIn(h, n, ready, conns')
    {
      OrderNamesAll(ready, conns);
      OrderNamesAll(ready, conns');
      RingInHolds(h, n, ready, conns);
      RingInHolds(h, n, ready, conns');
      SameCircle(h, n, RingIn(h, n, ready, conns), RingIn(h, n, ready, conns'));
    }
  }

  lemma SameCircle(h: Hash, n: nat, s: RingState, t: RingState)
    requires Owned(h, n, s) && Owned(h, n, t) && s.members == t.members && Separate(h, n, s.members)
    requires s.circle.Keys == t.circle.Keys
    ensures s.circle == t.circle
  {
    hide Points;
    forall p | p in s.circle ensures s.circle[p] == t.circle[p] {
      assert p in t.circle;
      assert p in Points(h, n, s.circle[p]) && p in Points(h, n, t.circle[p]);
    }
  }

  /** Two connections that collide give one ring or another, as the one or the other comes last. */
  lemma LastTwoMatter(h: Hash, n: nat, ready: Ready, c: SubConn, d: SubConn)
    requires c in ready && d in ready && ready[c].node.key != ready[d].node.key
    requires !(Points(h, n, ready[c].node.key) !! Points(h, n, ready[d].node.key))
    ensures !OneRing(h, n, ready)
  {
    hide RingIn, AddElt, Points, Order;
    var rest := SomeOrder(ready.Keys - {c, d});
    OrderMore(ready.Keys, rest, c, d);
    OrderMore(ready.Keys, rest, d, c);
    RingInNext(h, n, ready, rest, c);
    RingInNext(h, n, ready, rest + [c], d);
    RingInNext(h, n, ready, rest, d);
    RingInNext(h, n, ready, rest + [d], c);
    AddsCommute(h, n, RingIn(h, n, ready, rest), ready[c].node.key, ready[d].node.key);
    assert RingIn(h, n, ready, rest + [c] + [d]) != RingIn(h, n, ready, rest + [d] + [c]);
  }

  lemma OrderMore(cs: set<SubConn>, rest: seq<SubConn>, c: SubConn, d: SubConn)
    requires c in cs && d in cs && c != d && (Order(cs - {c, d}, rest) || Order(cs - {d, c}, rest))
    ensures Order(cs, rest + [c] + [d])
  {
    assert cs - {c, d} == cs - {d, c};
    assert cs == cs - {c, d} + {c} + {d};
  }

  /** The order in which the connections are met shows in the ring exactly when two keys collide. */
  lemma BuildOrderMatters(h: Hash, n: nat, ready: Ready)
    ensures OneRing(h, n, ready) <==> Separate(h, n, KeysOf(ready))
  {
    hide OneRing, Points;
    if Separate(h, n, KeysOf(ready)) {
      SeparateGivesOneRing(h, n, ready);
    } else {
      var e, f :| e in KeysOf(ready) && f in KeysOf(ready) && e != f && !(Points(h, n, e) !! Points(h, n, f));
      var c :| c in ready && ready[c].node.key == e;
      var d :| d in ready && ready[d].node.key == f;
      LastTwoMatter(h, n, ready, c, d);
    }
  }

  lemma CanonicalCount(h: Hash, n: nat, s: RingState)
    requires Canonical(h, n, s)
    ensures s.count == |s.members|
  {}

  /** A picker over connections with different keys and no collisions answers every
      consistent-hash request: the walk for three nodes always ends. */
  lemma PickEnds(p: Picker, name: string)
    requires p.Valid() && KeysDiffer(p.ready) && Separate(p.hash.hashKey, p.hash.NumberOfReplicas, KeysOf(p.ready))
    ensures WalkEnds(p.hash.State(), p.hash.hashKey(name), NEAREST_NODES)
  {
    hide Separate, Canonical, KeysDiffer, KeysOf, Indexes, WalkEnds, Owned, Lists;
    CanonicalWalkEnds(p.hash.hashKey, p.hash.NumberOfReplicas, p.hash.State(), p.hash.hashKey(name), NEAREST_NODES);
  }

  // ----- minimal movement -----

  /** The slots an event adds to or takes from the table are slots of its own address. */
  lemma EventTouchesOwnSlots(ok: Compatible, t: Table, info: ServiceInfo, k: string)
    requires Keyed(t)
    requires k in t.nodes <==> k !in Apply(ok, t, info).nodes
    ensures exists j: nat :: k == NodeKey(info.addr, j)
  {
    var slots := if Serves(ok, info) then Slots(info.addr, Weight(info))
                 else if info.addr in t.addrs then Slots(info.addr, t.addrs[info.addr]) else {};
    assert k in slots;
  }

  /** An event leaves the nodes of other addresses as they are. */
  lemma EventKeepsOthers(ok: Compatible, t: Table, info: ServiceInfo, k: string)
    ensures k in t.nodes && (forall j: nat :: k != NodeKey(info.addr, j)) ==>
            k in Apply(ok, t, info).nodes && Apply(ok, t, info).nodes[k] == t.nodes[k]
  {}

  /** An event that does not serve only takes nodes away; one that serves only adds or refreshes. */
  lemma EventDirection(ok: Compatible, t: Table, info: ServiceInfo)
    ensures Serves(ok, info) ==> t.nodes.Keys <= Apply(ok, t, info).nodes.Keys
    ensures !Serves(ok, info) ==> Apply(ok, t, info).nodes.Keys <= t.nodes.Keys
  {}

  lemma {:induction false} WithoutKeepsHead(d: seq<string>, gone: set<string>)
    requires d != [] && d[0] !in gone
    ensures Without(d, gone) != [] && Without(d, gone)[0] == d[0]
  {
    if |d| > 1 {
      WithoutKeepsHead(d[..|d| - 1], gone);
    }
  }

  /** Routing over fewer nodes: every request whose node is still there keeps it. */
  lemma FewerNodes(h: Hash, n: nat, s: RingState, t: RingState, key: uint32)
    requires Canonical(h, n, s) && Canonical(h, n, t) && Separate(h, n, s.members) && 1 <= n
    requires t.members <= s.members && t.members != {}
    ensures var p, q := PreferenceList(s.circle, key), PreferenceList(t.circle, key);
            && p != [] && q != [] && q == Without(p, s.members - t.members)
            && (p[0] in t.members ==> q[0] == p[0])
            && (q[0] != p[0] ==> p[0] in s.members - t.members)
  {
    var p, q := PreferenceList(s.circle, key), PreferenceList(t.circle, key);
    RingFailover(h, n, s, t, key);
    MembersArePreferred(h, n, s, key);
    MembersArePreferred(h, n, t, key);
    var e :| e in t.members;
    assert e in q && e in p;
    WithoutMembers(p, s.members - t.members, q[0]);
    if p[0] in t.members {
      WithoutKeepsHead(p, s.members - t.members);
    }
    assert p[0] in p;
  }

  lemma MembersArePreferred(h: Hash, n: nat, s: RingState, key: uint32)
    requires Canonical(h, n, s) && Separate(h, n, s.members) && 1 <= n
    ensures forall e :: e in PreferenceList(s.circle, key) <==> e in s.members
  {
    CanonicalOwners(h, n, s);
    PreferenceMembers(s.circle, key);
  }

  /** A picker built when every node of a table is ready: its ring is the ring of the table. */
  lemma PickerOfTable(t: Table, p: Picker)
    requires p.Valid() && AllReady(t, p.ready) && p.ready != map[]
    requires Separate(p.hash.hashKey, p.hash.NumberOfReplicas, t.nodes.Keys)
    ensures 1 <= p.hash.NumberOfReplicas
    ensures Canonical(p.hash.hashKey, p.hash.NumberOfReplicas, p.hash.State())
    ensures p.hash.State().members == t.nodes.Keys && t.nodes.Keys != {}
    ensures p.k2vn == map k | k in t.nodes :: t.nodes[k].node
  {
    hide Canonical, Owned, Lists, Separate;
    var c :| c in p.ready;
    assert p.ready[c].node.key in KeysOf(p.ready);
    forall k | k in p.k2vn ensures k in t.nodes && p.k2vn[k] == t.nodes[k].node {
      var d := p.k2conn[k];
      assert p.ready[d].node.key == k;
    }
  }

  /** Going offline: a request that was not routed to a node of the address is routed as before. */
  lemma OfflineMovesOnlyItsOwn(ok: Compatible, t: Table, info: ServiceInfo, p: Picker, q: Picker, name: string)
    requires Keyed(t) && !Serves(ok, info)
    requires p.Valid() && AllReady(t, p.ready) && q.Valid() && AllReady(Apply(ok, t, info), q.ready)
    requires p.ready != map[] && q.ready != map[]
    requires p.hash.hashKey == q.hash.hashKey && p.hash.NumberOfReplicas == q.hash.NumberOfReplicas
    requires Separate(p.hash.hashKey, p.hash.NumberOfReplicas, t.nodes.Keys)
    ensures (forall j: nat :: p.RouteKey(name) != NodeKey(info.addr, j)) ==>
            q.RouteKey(name) == p.RouteKey(name) && q.k2vn[q.RouteKey(name)] == p.k2vn[p.RouteKey(name)]
  {
    hide Canonical, Separate, AllReady, RingOf, Indexes, Owned, Lists;
    var u := Apply(ok, t, info);
    var h, n, key := p.hash.hashKey, p.hash.NumberOfReplicas, p.hash.hashKey(name);
    EventDirection(ok, t, info);
    SeparateSubset(h, n, u.nodes.Keys, t.nodes.Keys);
    PickerOfTable(t, p);
    PickerOfTable(u, q);
    FewerNodes(h, n, p.hash.State(), q.hash.State(), key);
    var k := p.RouteKey(name);
    if forall j: nat :: k != NodeKey(info.addr, j) {
      if k !in u.nodes {
        EventTouchesOwnSlots(ok, t, info, k);
      }
      assert u.nodes[k] == t.nodes[k];
    }
  }

  /** Coming online: a request that is routed anew goes to a node of the address. */
  lemma OnlineMovesOnlyOntoItself(ok: Compatible, t: Table, info: ServiceInfo, p: Picker, q: Picker, name: string)
    requires Keyed(t) && Serves(ok, info)
    requires p.Valid() && AllReady(t, p.ready) && q.Valid() && AllReady(Apply(ok, t, info), q.ready)
    requires p.ready != map[] && q.ready != map[]
    requires p.hash.hashKey == q.hash.hashKey && p.hash.NumberOfReplicas == q.hash.NumberOfReplicas
    requires Separate(p.hash.hashKey, p.hash.NumberOfReplicas, Apply(ok, t, info).nodes.Keys)
    ensures q.RouteKey(name) != p.RouteKey(name) ==> exists j: nat :: q.RouteKey(name) == NodeKey(info.addr, j)
    ensures (forall j: nat :: q.RouteKey(name) != NodeKey(info.addr, j)) ==>
            q.RouteKey(name) == p.RouteKey(name) && q.k2vn[q.RouteKey(name)] == p.k2vn[p.RouteKey(name)]
  {
    hide Canonical, Separate, AllReady, RingOf, Indexes, Owned, Lists, Apply;
    var u := Apply(ok, t, info);
    var h, n, key := p.hash.hashKey, p.hash.NumberOfReplicas, p.hash.hashKey(name);
    EventDirection(ok, t, info);
    SeparateSubset(h, n, t.nodes.Keys, u.nodes.Keys);
    PickerOfTable(t, p);
    PickerOfTable(u, q);
    FewerNodes(h, n, q.hash.State(), p.hash.State(), key);
    var k := q.RouteKey(name);
    if k != p.RouteKey(name) {
      EventTouchesOwnSlots(ok, t, info, k);
    } else {
      EventKeepsOthers(ok, t, info, k);
    }
  }

  /** In a clean table nothing is left to route to an address that has gone offline. */
  lemma OfflineStopsRouting(ok: Compatible, t: Table, info: ServiceInfo, q: Picker, name: string, j: nat)
    requires Clean(t) && Keyed(t) && !Serves(ok, info)
    requires q.Valid() && AllReady(Apply(ok, t, info), q.ready) && q.ready != map[]
    requires Separate(q.hash.hashKey, q.hash.NumberOfReplicas, Apply(ok, t, info).nodes.Keys)
    ensures q.RouteKey(name) != NodeKey(info.addr, j)
  {
    hide Canonical, Separate, AllReady, RingOf, Indexes, Owned, Lists, Clean;
    var u := Apply(ok, t, info);
    PickerOfTable(u, q);
    assert q.RouteKey(name) in q.k2vn;
    CleanStep(ok, t, info);
    CleanSlot(u, info.addr, j);
  }

  /** Two pickers, built before and after one more event, when all nodes were ready each time. */
  ghost predicate BeforeAndAfter(ok: Compatible, events: seq<ServiceInfo>, info: ServiceInfo, p: Picker, q: Picker)
    reads p, q, p.hash, q.hash
  {
    && p.Valid() && AllReady(Replay(ok, events), p.ready) && p.ready != map[]
    && q.Valid() && AllReady(Replay(ok, events + [info]), q.ready) && q.ready != map[]
    && p.hash.hashKey == q.hash.hashKey && p.hash.NumberOfReplicas == q.hash.NumberOfReplicas
  }

  /** The whole pipeline, after any history: an address that goes offline takes with it only its own
      requests, and all of them unless one of its weights had shrunk. */
  lemma OfflineAfterHistory(ok: Compatible, events: seq<ServiceInfo>, info: ServiceInfo, p: Picker, q: Picker, name: string)
    requires !Serves(ok, info) && BeforeAndAfter(ok, events, info, p, q)
    requires Separate(p.hash.hashKey, p.hash.NumberOfReplicas, Replay(ok, events).nodes.Keys)
    ensures (forall j: nat :: p.RouteKey(name) != NodeKey(info.addr, j)) ==>
            q.RouteKey(name) == p.RouteKey(name) && q.k2vn[q.RouteKey(name)] == p.k2vn[p.RouteKey(name)]
    ensures NeverShrinks(ok, events) ==> forall j: nat :: q.RouteKey(name) != NodeKey(info.addr, j)
  {
    hide AllReady, Separate, Replay, Apply, Clean, Keyed, NeverShrinks;
    var t := Replay(ok, events);
    ReplayNext(ok, events, info);
    ReplayKeyed(ok, events);
    OfflineMovesOnlyItsOwn(ok, t, info, p, q, name);
    if NeverShrinks(ok, events) {
      ReplayClean(ok, events);
      EventDirection(ok, t, info);
      SeparateSubset(p.hash.hashKey, p.hash.NumberOfReplicas, Apply(ok, t, info).nodes.Keys, t.nodes.Keys);
      forall j: nat ensures q.RouteKey(name) != NodeKey(info.addr, j) {
        OfflineStopsRouting(ok, t, info, q, name, j);
      }
    }
  }

  /** After any history, an address that comes online draws requests only onto itself. */
  lemma OnlineAfterHistory(ok: Compatible, events: seq<ServiceInfo>, info: ServiceInfo, p: Picker, q: Picker, name: string)
    requires Serves(ok, info) && BeforeAndAfter(ok, events, info, p, q)
    requires Separate(p.hash.hashKey, p.hash.NumberOfReplicas, Replay(ok, events + [info]).nodes.Keys)
    ensures q.RouteKey(name) != p.RouteKey(name) ==> exists j: nat :: q.RouteKey(name) == NodeKey(info.addr, j)
    ensures (forall j: nat :: q.RouteKey(name) != NodeKey(info.addr, j)) ==>
            q.RouteKey(name) == p.RouteKey(name) && q.k2vn[q.RouteKey(name)] == p.k2vn[p.RouteKey(name)]
  {
    hide AllReady, Separate, Replay, Apply, Keyed;
    ReplayNext(ok, events, info);
    ReplayKeyed(ok, events);
    OnlineMovesOnlyOntoItself(ok, Replay(ok, events), info, p, q, name);
  }

  lemma SeparateSubset(h: Hash, n: nat, es: set<string>, fs: set<string>)
    requires es <= fs && Separate(h, n, fs)
    ensures Separate(h, n, es)
  {}

  // ----- weights -----

  /** The ready connections of an address. */
  function ConnsOf(ready: Ready, a: string): set<SubConn> {
    set c | c in ready && ready[c].addr == a
  }

  lemma {:induction false} InjectiveSize(ready: Ready, cs: set<SubConn>, ks: set<string>)
    requires cs <= ready.Keys && KeysDiffer(ready)
    requires forall k :: k in ks <==> exists c :: c in cs && ready[c].node.key == k
    ensures |cs| == |ks|
  {
    if cs == {} {
      assert ks == {};
    } else {
      var c :| c in cs;
      var k := ready[c].node.key;
      assert k in ks;
      forall x ensures x in ks - {k} <==> exists d :: d in cs - {c} && ready[d].node.key == x {
        if x in ks - {k} {
          var d :| d in cs && ready[d].node.key == x;
          assert d in cs - {c};
        }
      }
      InjectiveSize(ready, cs - {c}, ks - {k});
    }
  }

  /** Weights are conserved: when all nodes of a clean table are ready, a listed address has as many
      candidate connections as its weight, and all candidates together as many as the weights add
      up to. */
  lemma WeightConservation(t: Table, ready: Ready, a: string)
    requires Clean(t) && Keyed(t) && AllReady(t, ready)
    ensures |ConnsOf(ready, a)| == if a in t.addrs then t.addrs[a] else 0
    ensures |ready| == TotalWeight(t.addrs)
  {
    hide Clean, Keyed, ListedSlots, Filed;
    var slots := if a in t.addrs then Slots(a, t.addrs[a]) else {};
    if a in t.addrs { SlotsSize(a, t.addrs[a]); }
    forall k ensures k in slots <==> exists c :: c in ConnsOf(ready, a) && ready[c].node.key == k {
      NodeOfAddress(t, a, k);
      if k in t.nodes && t.nodes[k].addr == a {
        var c :| c in ready && ready[c].node.key == k;
        assert c in ConnsOf(ready, a);
      }
    }
    InjectiveSize(ready, ConnsOf(ready, a), slots);
    InjectiveSize(ready, ready.Keys, t.nodes.Keys);
    TableSize(t);
  }

  /** The candidates of a random pick are the ready connections: an address has as many candidates as
      it has connections. */
  lemma CandidatesAreReady(p: Picker)
    requires p.Valid() && KeysDiffer(p.ready)
    ensures ConnsAt(p.k2conn, p.k2conn.Keys) == p.ready.Keys
  {
    hide RingOf;
    forall c | c in p.ready ensures c in ConnsAt(p.k2conn, p.k2conn.Keys) {
      var k := p.ready[c].node.key;
      assert k in KeysOf(p.ready);
      assert p.k2conn[k] == c;
    }
  }

  lemma TableSize(t: Table)
    requires Clean(t)
    ensures |t.nodes.Keys| == TotalWeight(t.addrs)
  {
    SlotTotal(t.addrs);
  }

  lemma NodeOfAddress(t: Table, a: string, k: string)
    requires Clean(t) && Keyed(t)
    ensures k in t.nodes && t.nodes[k].addr == a <==> a in t.addrs && k in Slots(a, t.addrs[a])
  {
    if k in t.nodes {
      var j: nat :| k == NodeKey(t.nodes[k].addr, j);
      CleanSlot(t, t.nodes[k].addr, j);
      SlotIn(t.nodes[k].addr, j, t.nodes[k].addr, t.addrs[t.nodes[k].addr]);
      if a in t.addrs {
        SlotIn(t.nodes[k].addr, j, a, t.addrs[a]);
      }
    }
  }
}
