/** The resolver object that turns listed addresses into virtual nodes
    (`Common/RegisterCenter/ServiceResolver.go`). */
module ServiceResolver {
  import opened Decimal
  import opened NodeTable

  /** `list` is the table's nodes in some order, each once. */
  ghost predicate Enumerates(list: seq<Address>, nodes: map<string, Address>) {
    && (forall i, j :: 0 <= i < j < |list| ==> list[i].node.key != list[j].node.key)
    && (forall i :: 0 <= i < |list| ==> list[i].node.key in nodes && nodes[list[i].node.key] == list[i])
    && (forall k :: k in nodes ==> nodes[k] in list)
  }

  class Resolver {
    var addrs: map<string, nat>
    var nodes: map<string, Address>
    var pushed: seq<Address>  // the addresses last handed to the client connection

    ghost function State(): Table
      reads this
    {
      Table(addrs, nodes)
    }

    constructor ()
      ensures State() == EMPTY_TABLE && pushed == []
    {
      addrs, nodes, pushed := map[], map[], [];
    }

    method SetAddr(addr: string, count: nat)
      modifies this`addrs
      ensures addrs == old(addrs)[addr := count]
    {
      addrs := addrs[addr := count];
    }

    /** Stores slot `idx` of a listed address; does nothing beyond the listed count. */
    method AddNodes(addr: string, idx: nat, rn: RealNode)
      modifies this`nodes
      ensures nodes == if addr in addrs && idx < addrs[addr]
                       then old(nodes)[NodeKey(addr, idx) := Address(addr, VirtualNode(NodeKey(addr, idx), rn))]
                       else old(nodes)
    {
      if addr !in addrs {
        return;
      }
      if idx >= addrs[addr] {
        return;
      }
      var key := addr + ":" + Itoa(idx);
      var vn := VirtualNode(key, rn);
      nodes := nodes[key := Address(addr, vn)];
    }

    /** Takes a listed address and the slots of its current count away. */
    method DelAddr(addr: string)
      modifies this`addrs, this`nodes
      ensures addr in old(addrs) ==>
              State() == Table(old(addrs) - {addr}, old(nodes) - Slots(addr, old(addrs)[addr]))
      ensures addr !in old(addrs) ==> State() == old(State())
    {
      if addr !in addrs {
        return;
      }
      var count := addrs[addr];
      for idx := 0 to count
        invariant addrs == old(addrs) && nodes == old(nodes) - Slots(addr, idx)
      {
        SlotsNext(addr, idx);
        nodes := nodes - {addr + ":" + Itoa(idx)};
      }
      addrs := addrs - {addr};
    }

    method GetAddress() returns (list: seq<Address>)
      requires Keyed(State())
      ensures Enumerates(list, nodes)
    {
      list := [];
      var rest := nodes.Keys;
      while rest != {}
        invariant rest <= nodes.Keys
        invariant Enumerates(list, nodes - rest)
        decreases |rest|
      {
        var k :| k in rest;
        EnumeratesNext(list, nodes, rest, k);
        list := list + [nodes[k]];
        rest := rest - {k};
      }
      assert nodes - {} == nodes;
    }

    lemma EnumeratesNext(list: seq<Address>, nodes: map<string, Address>, rest: set<string>, k: string)
      requires Enumerates(list, nodes - rest) && k in rest && k in nodes
      requires forall x :: x in nodes ==> nodes[x].node.key == x
      ensures Enumerates(list + [nodes[k]], nodes - (rest - {k}))
    {
      var more, all := nodes - (rest - {k}), list + [nodes[k]];
      forall x | x in more ensures more[x] in all {
        if x == k {
          assert all[|list|] == nodes[k];
        } else {
          assert x in nodes - rest;
          assert (nodes - rest)[x] in list;
        }
      }
    }

    method Update()
      requires Keyed(State())
      modifies this`pushed
      ensures Enumerates(pushed, nodes)
    {
      pushed := GetAddress();
    }
  }
}
