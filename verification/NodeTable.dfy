/** The virtual-node table of one watched service: what a stream of service events makes of it. */
module NodeTable {
  import opened Decimal

  /** The part of a service announcement that routing depends on. */
  datatype ServiceInfo = ServiceInfo(serviceType: int, semver: string, addr: string, status: int, serviceWeight: int)

  datatype RealNode = RealNode(serviceType: int, addr: string, semver: string, status: int)

  datatype VirtualNode = VirtualNode(key: string, rn: RealNode)

  /** An address handed to the connection layer, with the virtual node as its attribute. */
  datatype Address = Address(addr: string, node: VirtualNode)

  datatype Table = Table(addrs: map<string, nat>, nodes: map<string, Address>)

  const EMPTY_TABLE := Table(map[], map[])

  const STATUS_ONLINE := 2
  const DEFAULT_WEIGHT := 32

  /** Whether a version is acceptable to the client. */
  type Compatible = string -> bool

  function NodeKey(addr: string, idx: nat): string {
    addr + ":" + Itoa(idx)
  }

  function Slots(addr: string, count: nat): set<string> {
    set i: nat | i < count :: NodeKey(addr, i)
  }

  function SlotAddress(key: string, rn: RealNode): Address {
    Address(rn.addr, VirtualNode(key, rn))
  }

  function RealNodeOf(info: ServiceInfo): RealNode {
    RealNode(info.serviceType, info.addr, info.semver, info.status)
  }

  function Weight(info: ServiceInfo): nat {
    if info.serviceWeight <= 0 then DEFAULT_WEIGHT else info.serviceWeight
  }

  predicate Serves(ok: Compatible, info: ServiceInfo) {
    info.status == STATUS_ONLINE && ok(info.semver)
  }

  /** The entries `keys`, all carrying `rn`. */
  function AddEntries(nodes: map<string, Address>, rn: RealNode, keys: set<string>): map<string, Address> {
    nodes + map k | k in keys :: SlotAddress(k, rn)
  }

  lemma AddEntriesNext(nodes: map<string, Address>, rn: RealNode, keys: set<string>, k: string)
    ensures AddEntries(nodes, rn, keys + {k}) == AddEntries(nodes, rn, keys)[k := SlotAddress(k, rn)]
  {}

  lemma NoEntries(nodes: map<string, Address>, rn: RealNode, addr: string)
    ensures AddEntries(nodes, rn, Slots(addr, 0)) == nodes
  {
    assert Slots(addr, 0) == {};
  }

  /** What one event does to the table. */
  function Apply(ok: Compatible, t: Table, info: ServiceInfo): Table {
    var a := info.addr;
    if Serves(ok, info) then
      Table(t.addrs[a := Weight(info)], AddEntries(t.nodes, RealNodeOf(info), Slots(a, Weight(info))))
    else if a in t.addrs then Table(t.addrs - {a}, t.nodes - Slots(a, t.addrs[a]))
    else t
  }

  function Replay(ok: Compatible, events: seq<ServiceInfo>): Table {
    if events == [] then EMPTY_TABLE
    else Apply(ok, Replay(ok, events[..|events| - 1]), events[|events| - 1])
  }

  lemma ReplayNext(ok: Compatible, events: seq<ServiceInfo>, info: ServiceInfo)
    ensures Replay(ok, events + [info]) == Apply(ok, Replay(ok, events), info)
  {
    assert (events + [info])[..|events + [info]| - 1] == events;
  }

  // ----- keys -----

  lemma LastColonUnique(a: string, d: string, b: string, e: string)
    requires AllDigits(d) && AllDigits(e) && a + ":" + d == b + ":" + e
    ensures a == b && d == e
  {
    var s := a + ":" + d;
    AfterLastColon(a, d);
    AfterLastColon(b, e);
    assert s == b + ":" + e;
    assert a == s[..|a|] && b == s[..|b|];
    assert d == s[|a| + 1..] && e == s[|b| + 1..];
  }

  lemma AfterLastColon(a: string, d: string)
    requires AllDigits(d)
    ensures var s := a + ":" + d; s[|a|] == ':' && forall i :: |a| < i < |s| ==> s[i] != ':'
  {
    var s := a + ":" + d;
    forall i | |a| < i < |s| ensures s[i] != ':' {
      assert s[i] == d[i - |a| - 1];
    }
  }

  /** Slot keys are unambiguous, colons in the address notwithstanding. */
  lemma NodeKeyInjective(a: string, i: nat, b: string, j: nat)
    requires NodeKey(a, i) == NodeKey(b, j)
    ensures a == b && i == j
  {
    LastColonUnique(a, Itoa(i), b, Itoa(j));
    DigitsInjective(i, j);
  }

  lemma SlotIn(a: string, j: nat, b: string, count: nat)
    ensures NodeKey(a, j) in Slots(b, count) <==> a == b && j < count
  {
    if NodeKey(a, j) in Slots(b, count) {
      var i: nat :| i < count && NodeKey(a, j) == NodeKey(b, i);
      NodeKeyInjective(a, j, b, i);
    }
  }

  lemma SlotsNext(a: string, count: nat)
    ensures Slots(a, count + 1) == Slots(a, count) + {NodeKey(a, count)}
  {}

  lemma {:induction false} SlotsSize(a: string, count: nat)
    ensures |Slots(a, count)| == count
  {
    if count == 0 {
    } else {
      SlotsSize(a, count - 1);
      SlotIn(a, count - 1, a, count - 1);
      SlotsNext(a, count - 1);
    }
  }

  // ----- the account of a slot over a whole history -----

  /** An event that asks for slot `j` of address `a`. */
  predicate Raises(ok: Compatible, info: ServiceInfo, a: string, j: nat) {
    info.addr == a && Serves(ok, info) && j < Weight(info)
  }

  /** Event `k` is the last one asking for the slot, and the next event for the address, if there
      is one, does not take the address away. */
  ghost predicate HeldBy(ok: Compatible, events: seq<ServiceInfo>, a: string, j: nat, k: nat) {
    && k < |events| && Raises(ok, events[k], a, j)
    && (forall m :: k < m < |events| ==> !Raises(ok, events[m], a, j))
    && (forall m :: k < m < |events| && NextFor(events, a, k, m) ==> Serves(ok, events[m]))
  }

  ghost predicate NextFor(events: seq<ServiceInfo>, a: string, k: nat, m: nat) {
    k < m < |events| && events[m].addr == a && forall l :: k < l < m ==> events[l].addr != a
  }

  /** The position just past the last event for `a`; 0 when there is none. */
  function LastFor(events: seq<ServiceInfo>, a: string): (n: nat)
    ensures n <= |events|
    ensures n > 0 ==> events[n - 1].addr == a
    ensures forall m :: n <= m < |events| ==> events[m].addr != a
  {
    if events == [] then 0
    else if events[|events| - 1].addr == a then |events|
    else LastFor(events[..|events| - 1], a)
  }

  /** An address is listed exactly when its last event serves, with that event's weight. */
  lemma {:induction false} AddrsHistory(ok: Compatible, events: seq<ServiceInfo>, a: string)
    ensures var t, n := Replay(ok, events), LastFor(events, a);
            && (a in t.addrs <==> n > 0 && Serves(ok, events[n - 1]))
            && (a in t.addrs ==> t.addrs[a] == Weight(events[n - 1]))
  {
    if events == [] {
    } else {
      AddrsHistory(ok, events[..|events| - 1], a);
    }
  }

  /** An event that takes slot `j` of `a` out of the table. */
  predicate Clears(ok: Compatible, t: Table, info: ServiceInfo, a: string, j: nat) {
    info.addr == a && !Serves(ok, info) && a in t.addrs && j < t.addrs[a]
  }

  lemma StepSlot(ok: Compatible, t: Table, info: ServiceInfo, a: string, j: nat)
    ensures var u, key := Apply(ok, t, info), NodeKey(a, j);
            if Raises(ok, info, a, j) then key in u.nodes && u.nodes[key] == SlotAddress(key, RealNodeOf(info))
            else if Clears(ok, t, info, a, j) then key !in u.nodes
            else (key in u.nodes <==> key in t.nodes) && (key in t.nodes ==> u.nodes[key] == t.nodes[key])
  {
    SlotIn(a, j, info.addr, Weight(info));
    if info.addr in t.addrs {
      SlotIn(a, j, info.addr, t.addrs[info.addr]);
    }
  }

  lemma HeldByExtends(ok: Compatible, events: seq<ServiceInfo>, info: ServiceInfo, a: string, j: nat, k: nat)
    requires k < |events| && !Raises(ok, info, a, j)
    ensures HeldBy(ok, events + [info], a, j, k) <==>
            HeldBy(ok, events, a, j, k) && (info.addr == a && LastFor(events, a) == k + 1 ==> Serves(ok, info))
  {
    var more := events + [info];
    assert forall m :: 0 <= m < |events| ==> more[m] == events[m];
    assert forall m :: 0 <= m < |events| ==> (NextFor(more, a, k, m) <==> NextFor(events, a, k, m));
    assert more[|events|] == info;
    assert NextFor(more, a, k, |events|) <==> info.addr == a && LastFor(events, a) <= k + 1;
    assert Raises(ok, events[k], a, j) ==> LastFor(events, a) >= k + 1;
    if HeldBy(ok, more, a, j, k) {
      assert forall m :: k < m < |events| ==> !Raises(ok, more[m], a, j);
      assert forall m :: k < m < |events| && NextFor(more, a, k, m) ==> Serves(ok, more[m]);
    }
  }

  /** While event `k` holds the slot, the listed count covers the slot exactly when no later event
      for the address has come. */
  lemma CountWhileHeld(ok: Compatible, events: seq<ServiceInfo>, a: string, j: nat, k: nat)
    requires HeldBy(ok, events, a, j, k)
    ensures var t := Replay(ok, events);
            a in t.addrs && j < t.addrs[a] <==> LastFor(events, a) == k + 1
  {
    AddrsHistory(ok, events, a);
    var n := LastFor(events, a);
    assert n > k;
    if n > k + 1 {
      assert !Raises(ok, events[n - 1], a, j);
    }
  }

  lemma HeldStep(ok: Compatible, events: seq<ServiceInfo>, info: ServiceInfo, a: string, j: nat, k: nat)
    requires k < |events| && !Raises(ok, info, a, j)
    ensures HeldBy(ok, events + [info], a, j, k) <==>
            HeldBy(ok, events, a, j, k) && !Clears(ok, Replay(ok, events), info, a, j)
  {
    HeldByExtends(ok, events, info, a, j, k);
    if HeldBy(ok, events, a, j, k) {
      CountWhileHeld(ok, events, a, j, k);
    }
  }

  /** The exact account of the table over every history: slot `j` of `a` is present exactly when
      some event holds it, and then it carries that event's node. */
  lemma {:induction false} SlotHistory(ok: Compatible, events: seq<ServiceInfo>, a: string, j: nat)
    ensures var t, key := Replay(ok, events), NodeKey(a, j);
            && (key in t.nodes <==> exists k: nat :: HeldBy(ok, events, a, j, k))
            && (forall k: nat :: HeldBy(ok, events, a, j, k) ==>
                  key in t.nodes && t.nodes[key] == SlotAddress(key, RealNodeOf(events[k])))
  {
    if events == [] {
    } else {
      var rest, info := events[..|events| - 1], events[|events| - 1];
      assert events == rest + [info];
      SlotHistory(ok, rest, a, j);
      StepSlot(ok, Replay(ok, rest), info, a, j);
      if Raises(ok, info, a, j) {
        assert HeldBy(ok, events, a, j, |rest|);
        assert forall k: nat :: HeldBy(ok, events, a, j, k) ==> k == |rest|;
      } else {
        forall k: nat
          ensures HeldBy(ok, events, a, j, k) <==>
                  HeldBy(ok, rest, a, j, k) && !Clears(ok, Replay(ok, rest), info, a, j)
        {
          if k < |rest| {
            HeldStep(ok, rest, info, a, j, k);
          }
        }
      }
    }
  }

  // ----- in the terms of an announcement -----

  /** `key` holds the virtual node that an announcement makes of slot `j`. */
  predicate HoldsNode(nodes: map<string, Address>, info: ServiceInfo, j: nat) {
    var key := info.addr + ":" + Itoa(j);
    key in nodes
    && nodes[key] == Address(info.addr, VirtualNode(key, RealNode(info.serviceType, info.addr, info.semver, info.status)))
  }

  /** What an announcement that is online (status 2) and compatible does: its weight, or 32 when it gives
      none, is listed, and exactly so many slots are stored. */
  ghost predicate Brought(t: Table, u: Table, info: ServiceInfo) {
    var weight := if info.serviceWeight > 0 then info.serviceWeight else 32;
    && u.addrs == t.addrs[info.addr := weight]
    && (forall j: nat :: j < weight ==> HoldsNode(u.nodes, info, j))
    && forall k :: (forall j: nat :: j < weight ==> k != info.addr + ":" + Itoa(j)) ==>
         (k in u.nodes <==> k in t.nodes) && (k in t.nodes ==> u.nodes[k] == t.nodes[k])
  }

  /** What every other announcement does: the address is no longer listed, and exactly the slots below its
      listed count are gone. */
  ghost predicate Withdrawn(t: Table, u: Table, info: ServiceInfo) {
    && u.addrs == t.addrs - {info.addr}
    && forall k ::
         && (k in u.nodes <==>
               && k in t.nodes
               && !(info.addr in t.addrs && exists j: nat :: j < t.addrs[info.addr] && k == info.addr + ":" + Itoa(j)))
         && (k in u.nodes ==> u.nodes[k] == t.nodes[k])
  }

  lemma ApplyMeans(ok: Compatible, t: Table, info: ServiceInfo)
    ensures var u := Apply(ok, t, info);
            if info.status == 2 && ok(info.semver) then Brought(t, u, info) else Withdrawn(t, u, info)
  {
    var u := Apply(ok, t, info);
    if info.status == 2 && ok(info.semver) {
      forall j: nat | j < Weight(info) ensures HoldsNode(u.nodes, info, j) {
        assert NodeKey(info.addr, j) in Slots(info.addr, Weight(info));
      }
    } else {
      hide NodeKey;
      assert info.addr !in t.addrs ==> t.addrs - {info.addr} == t.addrs;
      forall k ensures info.addr in t.addrs ==>
                         (k in Slots(info.addr, t.addrs[info.addr]) <==>
                          exists j: nat :: j < t.addrs[info.addr] && k == info.addr + ":" + Itoa(j))
      {
        SlotSpelt(info.addr, if info.addr in t.addrs then t.addrs[info.addr] else 0, k);
      }
    }
  }

  lemma SlotSpelt(a: string, count: nat, k: string)
    ensures k in Slots(a, count) <==> exists j: nat :: j < count && k == a + ":" + Itoa(j)
  {
    hide Itoa;
    if j: nat :| j < count && k == a + ":" + Itoa(j) {
      assert k == NodeKey(a, j);
    }
    if k in Slots(a, count) {
      var j: nat :| j < count && k == NodeKey(a, j);
      assert k == a + ":" + Itoa(j);
    }
  }

  /** The latest announcement of an address decides: when it is online and compatible its weight is listed
      and all its slots hold its node; otherwise, or without one, the address is not listed. */
  lemma LatestDecides(ok: Compatible, events: seq<ServiceInfo>, a: string, k: nat)
    requires k < |events| && events[k].addr == a && forall m :: k < m < |events| ==> events[m].addr != a
    ensures var t, info := Replay(ok, events), events[k];
            if info.status == 2 && ok(info.semver) then
              var weight := if info.serviceWeight > 0 then info.serviceWeight else 32;
              a in t.addrs && t.addrs[a] == weight && forall j: nat :: j < weight ==> HoldsNode(t.nodes, info, j)
            else a !in t.addrs
  {
    var t, info := Replay(ok, events), events[k];
    AddrsHistory(ok, events, a);
    assert LastFor(events, a) == k + 1;
    if Serves(ok, info) {
      forall j: nat | j < Weight(info) ensures HoldsNode(t.nodes, info, j) {
        SlotHistory(ok, events, a, j);
        assert HeldBy(ok, events, a, j, k);
      }
    }
  }

  // ----- the clean law -----

  function ListedSlots(addrs: map<string, nat>): set<string> {
    set a, k | a in addrs && k in Slots(a, addrs[a]) :: k
  }

  /** The table holds exactly the slots its listed counts promise. */
  predicate Clean(t: Table) {
    t.nodes.Keys == ListedSlots(t.addrs)
  }

  /** An event that lowers the weight of an address while it is listed. */
  predicate Shrinks(ok: Compatible, t: Table, info: ServiceInfo) {
    Serves(ok, info) && info.addr in t.addrs && Weight(info) < t.addrs[info.addr]
  }

  lemma CleanSlot(t: Table, a: string, j: nat)
    requires Clean(t)
    ensures NodeKey(a, j) in t.nodes <==> a in t.addrs && j < t.addrs[a]
  {
    if a in t.addrs {
      SlotIn(a, j, a, t.addrs[a]);
    }
    if NodeKey(a, j) in t.nodes {
      var b :| b in t.addrs && NodeKey(a, j) in Slots(b, t.addrs[b]);
      SlotIn(a, j, b, t.addrs[b]);
    }
  }

  lemma SlotsDisjoint(a: string, m: nat, b: string, n: nat)
    requires a != b
    ensures Slots(a, m) !! Slots(b, n)
  {
    forall k | k in Slots(a, m) ensures k !in Slots(b, n) {
      var i: nat :| i < m && k == NodeKey(a, i);
      SlotIn(a, i, b, n);
    }
  }

  lemma ListedSlotsOf(addrs: map<string, nat>, a: string)
    requires a in addrs
    ensures ListedSlots(addrs) == ListedSlots(addrs - {a}) + Slots(a, addrs[a])
    ensures ListedSlots(addrs - {a}) !! Slots(a, addrs[a])
    ensures forall n: nat :: ListedSlots(addrs - {a}) !! Slots(a, n)
  {
    var rest := addrs - {a};
    forall k, n: nat | k in ListedSlots(rest) ensures k !in Slots(a, n) {
      var b :| b in rest && k in Slots(b, rest[b]);
      SlotsDisjoint(a, n, b, rest[b]);
    }
    forall k | k in ListedSlots(addrs) ensures k in ListedSlots(rest) + Slots(a, addrs[a]) {
      var b :| b in addrs && k in Slots(b, addrs[b]);
      if b != a {
        assert b in rest && k in Slots(b, rest[b]);
      }
    }
    forall k | k in ListedSlots(rest) ensures k in ListedSlots(addrs) {
      var b :| b in rest && k in Slots(b, rest[b]);
      assert b in addrs;
    }
  }

  lemma SlotsGrow(a: string, m: nat, n: nat)
    ensures Slots(a, m) <= Slots(a, n) <==> m <= n
  {
    if n < m {
      SlotIn(a, n, a, m);
      SlotIn(a, n, a, n);
    }
  }

  /** A clean table stays clean under an event exactly when the event does not shrink a listed
      weight. */
  lemma CleanStep(ok: Compatible, t: Table, info: ServiceInfo)
    requires Clean(t)
    ensures Clean(Apply(ok, t, info)) <==> !Shrinks(ok, t, info)
  {
    var a, w, u := info.addr, Weight(info), Apply(ok, t, info);
    if Serves(ok, info) {
      assert u.nodes.Keys == t.nodes.Keys + Slots(a, w);
      ListedSlotsOf(u.addrs, a);
      if a in t.addrs {
        ListedSlotsOf(t.addrs, a);
        assert u.addrs - {a} == t.addrs - {a};
        SlotsGrow(a, t.addrs[a], w);
        SlotsUnion(ListedSlots(t.addrs - {a}), Slots(a, t.addrs[a]), Slots(a, w));
      } else {
        assert u.addrs - {a} == t.addrs;
      }
    } else if a in t.addrs {
      ListedSlotsOf(t.addrs, a);
    }
  }

  lemma SlotsUnion(rest: set<string>, had: set<string>, got: set<string>)
    requires rest !! had
    ensures rest + had + got == rest + got <==> had <= got
  {
    if rest + had + got == rest + got {
      forall k | k in had ensures k in got { assert k in rest + had + got; }
    }
    if had <= got {
      assert rest + had + got == rest + got;
    }
  }

  ghost predicate NeverShrinks(ok: Compatible, events: seq<ServiceInfo>) {
    forall k :: 0 <= k < |events| ==> !Shrinks(ok, Replay(ok, events[..k]), events[k])
  }

  lemma {:induction false} ReplayClean(ok: Compatible, events: seq<ServiceInfo>)
    requires NeverShrinks(ok, events)
    ensures Clean(Replay(ok, events))
  {
    if events == [] {
      assert ListedSlots(map[]) == {};
    } else {
      var rest := events[..|events| - 1];
      forall k | 0 <= k < |rest| ensures !Shrinks(ok, Replay(ok, rest[..k]), rest[k]) {
        assert rest[..k] == events[..k];
      }
      ReplayClean(ok, rest);
      CleanStep(ok, Replay(ok, rest), events[|events| - 1]);
    }
  }

  /** When no listed weight ever shrinks, the slots of an address are exactly 0 .. weight - 1 of its
      last event, if that event serves, and carry that event's node. */
  lemma CleanHistory(ok: Compatible, events: seq<ServiceInfo>, a: string, j: nat)
    requires NeverShrinks(ok, events)
    ensures var t, n, key := Replay(ok, events), LastFor(events, a), NodeKey(a, j);
            && (key in t.nodes <==> n > 0 && Serves(ok, events[n - 1]) && j < Weight(events[n - 1]))
            && (key in t.nodes ==> t.nodes[key] == SlotAddress(key, RealNodeOf(events[n - 1])))
  {
    hide Clean, NeverShrinks, Replay;
    var n := LastFor(events, a);
    ReplayClean(ok, events);
    CleanSlot(Replay(ok, events), a, j);
    AddrsHistory(ok, events, a);
    SlotHistory(ok, events, a, j);
    if NodeKey(a, j) in Replay(ok, events).nodes {
      assert HeldBy(ok, events, a, j, n - 1);
    }
  }

  /** A weight that shrinks while its address is listed leaves slots behind: after the address has
      gone offline, the slots between the two weights are still there. */
  lemma ShrinkLeaves(ok: Compatible, t: Table, big: ServiceInfo, small: ServiceInfo, off: ServiceInfo, j: nat)
    requires big.addr == small.addr == off.addr
    requires Serves(ok, big) && Serves(ok, small) && !Serves(ok, off)
    requires Weight(small) <= j < Weight(big)
    ensures var u := Apply(ok, Apply(ok, Apply(ok, t, big), small), off);
            big.addr !in u.addrs && NodeKey(big.addr, j) in u.nodes
  {
    var a := big.addr;
    var t1 := Apply(ok, t, big);
    var t2 := Apply(ok, t1, small);
    StepSlot(ok, t, big, a, j);
    StepSlot(ok, t1, small, a, j);
    StepSlot(ok, t2, off, a, j);
  }

  // ----- what every table keeps -----

  /** Every entry of the table is filed under its own key, a slot key of its own address. */
  ghost predicate Keyed(t: Table) {
    forall k :: k in t.nodes ==> Filed(k, t.nodes[k])
  }

  ghost predicate Filed(k: string, address: Address) {
    && address.node.key == k && address.addr == address.node.rn.addr
    && exists j: nat :: k == NodeKey(address.addr, j)
  }

  /** The listed counts are those of the latest announcements that serve. */
  function IndexOf(ok: Compatible, infos: map<string, ServiceInfo>): map<string, nat> {
    map a | a in infos && Serves(ok, infos[a]) :: Weight(infos[a])
  }

  lemma NothingIndexed(ok: Compatible, infos: map<string, ServiceInfo>)
    ensures IndexOf(ok, infos) == map[] <==> forall a :: a in infos ==> !Serves(ok, infos[a])
  {
    if IndexOf(ok, infos) == map[] {
      forall a | a in infos ensures !Serves(ok, infos[a]) {
        assert a !in IndexOf(ok, infos);
      }
    }
  }

  lemma StepKeepsKeyed(ok: Compatible, t: Table, info: ServiceInfo)
    requires Keyed(t)
    ensures Keyed(Apply(ok, t, info))
  {
    var u := Apply(ok, t, info);
    forall k | k in u.nodes ensures Filed(k, u.nodes[k]) {
      if Serves(ok, info) && k in Slots(info.addr, Weight(info)) {
        var j: nat :| j < Weight(info) && k == NodeKey(info.addr, j);
        assert u.nodes[k] == SlotAddress(k, RealNodeOf(info));
      } else {
        assert k in t.nodes && u.nodes[k] == t.nodes[k];
      }
    }
  }

  lemma {:induction false} ReplayKeyed(ok: Compatible, events: seq<ServiceInfo>)
    ensures Keyed(Replay(ok, events))
  {
    if events == [] {
    } else {
      ReplayKeyed(ok, events[..|events| - 1]);
      StepKeepsKeyed(ok, Replay(ok, events[..|events| - 1]), events[|events| - 1]);
    }
  }

  lemma StepKeepsIndex(ok: Compatible, t: Table, infos: map<string, ServiceInfo>, info: ServiceInfo)
    requires t.addrs == IndexOf(ok, infos)
    ensures Apply(ok, t, info).addrs == IndexOf(ok, infos[info.addr := info])
  {
    assert Apply(ok, t, info).addrs == IndexOf(ok, infos[info.addr := info]);
  }

  ghost function TotalWeight(addrs: map<string, nat>): nat
    decreases |addrs|
  {
    if addrs == map[] then 0 else
      var a :| a in addrs;
      assert |addrs - {a}| == |addrs| - 1 by { assert addrs.Keys == (addrs - {a}).Keys + {a}; }
      addrs[a] + TotalWeight(addrs - {a})
  }

  /** A clean table has as many slots as the listed weights add up to. */
  lemma {:induction false} SlotTotal(addrs: map<string, nat>)
    ensures |ListedSlots(addrs)| == TotalWeight(addrs)
    decreases |addrs|
  {
    if addrs == map[] {
      assert ListedSlots(addrs) == {};
    } else {
      var a :| a in addrs && TotalWeight(addrs) == addrs[a] + TotalWeight(addrs - {a});
      assert addrs.Keys == (addrs - {a}).Keys + {a};
      ListedSlotsOf(addrs, a);
      SlotsSize(a, addrs[a]);
      SlotTotal(addrs - {a});
    }
  }
}
