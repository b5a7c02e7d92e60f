/** The local end of the registration centre: it hands every announcement it receives to the client
    that watches the announced service (`Common/RegisterCenter/RegisterCenter.go`). */
module RegisterCenter {
  import opened NodeTable
  import opened Results
  import opened ServiceResolver
  import UC = UnifiedClient

  datatype Error = ServiceInfoIsNil | ServiceTypeNotWatched | ClientError(error: UC.Error)

  /** The announcements for the service called `name`. */
  function For(typeName: int -> string, infos: seq<ServiceInfo>, name: string): seq<ServiceInfo> {
    if infos == [] then []
    else if typeName(infos[0].serviceType) == name then [infos[0]] + For(typeName, infos[1..], name)
    else For(typeName, infos[1..], name)
  }

  class Center {
    const typeName: int -> string
    const clientMaps: map<string, UC.Client>

    ghost function Clients(): set<UC.Client> {
      set n | n in clientMaps :: clientMaps[n]
    }

    ghost function Resolvers(): set<Resolver?>
      reads Clients()
    {
      set n | n in clientMaps :: clientMaps[n].serviceResolver
    }

    /** Every watched service has a client of its own; clients that have a resolver have one each. */
    ghost predicate Valid()
      reads this, Clients(), Resolvers()
    {
      && (forall n :: n in clientMaps ==> clientMaps[n].Valid())
      && (forall m, n :: m in clientMaps && n in clientMaps && m != n ==>
            && clientMaps[m] != clientMaps[n]
            && (clientMaps[m].serviceResolver == null || clientMaps[m].serviceResolver != clientMaps[n].serviceResolver))
    }

    constructor (typeName: int -> string, clients: map<string, UC.Client>)
      ensures this.typeName == typeName && clientMaps == clients
    {
      this.typeName, clientMaps := typeName, clients;
    }

    /** What the client called `n` has on record, and what its resolver has seen. */
    ghost function RecordOf(n: string): Record
      requires n in clientMaps
      reads Clients()
    {
      var c := clientMaps[n];
      Record(c.serviceResolver, c.siMap, c.events)
    }

    /** Hands one announcement to the client of its service, if it is watched. A client whose resolver
        has not been built puts the announcement on record and reports an error. */
    method UpdateClient(serviceInfo: Option<ServiceInfo>) returns (r: Result<(), Error>)
      requires Valid()
      modifies Clients(), Resolvers()
      ensures Valid() && Resolvers() == old(Resolvers())
      ensures forall n :: n in clientMaps ==>
                RecordOf(n) == if serviceInfo.None? then old(RecordOf(n))
                               else After(old(RecordOf(n)), typeName, serviceInfo.value, n)
      ensures serviceInfo.Some? ==>
                var info := serviceInfo.value;
                forall n :: n in clientMaps ==>
                  clientMaps[n].siMap == if n == typeName(info.serviceType) then old(clientMaps[n].siMap)[info.addr := info]
                                         else old(clientMaps[n].siMap)
      ensures r == if serviceInfo.None? then Err(ServiceInfoIsNil)
                   else
                     var name := typeName(serviceInfo.value.serviceType);
                     if name !in clientMaps then Err(ServiceTypeNotWatched)
                     else if old(clientMaps[name].serviceResolver) == null then Err(ClientError(UC.ServiceResolverIsNil))
                     else Ok(())
    {
      hide Replay, Keyed, UC.Records, Apply;
      if serviceInfo.None? {
        return Err(ServiceInfoIsNil);
      }
      var serviceName := typeName(serviceInfo.value.serviceType);
      if serviceName !in clientMaps {
        return Err(ServiceTypeNotWatched);
      }
      var client := clientMaps[serviceName];
      var updated := client.UpdateAddr(serviceInfo.value);
      if updated.Err? {
        return Err(ClientError(updated.error));
      }
      return Ok(());
    }

    /** The inner loop of `online` and `check`. */
    method UpdateList(serviceList: seq<ServiceInfo>)
      requires Valid()
      modifies Clients(), Resolvers()
      ensures Valid() && Resolvers() == old(Resolvers())
      ensures forall n :: n in clientMaps ==> RecordOf(n) == AfterAll(old(RecordOf(n)), typeName, serviceList, n)
    {
      hide Valid, After, AfterAll;
      forall n | n in clientMaps ensures AfterAll(old(RecordOf(n)), typeName, [], n) == old(RecordOf(n)) {
        AfterNone(old(RecordOf(n)), typeName, n);
      }
      for j := 0 to |serviceList|
        invariant Valid() && Resolvers() == old(Resolvers())
        invariant forall n :: n in clientMaps ==> RecordOf(n) == AfterAll(old(RecordOf(n)), typeName, serviceList[..j], n)
      {
        assert serviceList[..j + 1] == serviceList[..j] + [serviceList[j]];
        forall n | n in clientMaps
          ensures After(RecordOf(n), typeName, serviceList[j], n) ==
                  AfterAll(old(RecordOf(n)), typeName, serviceList[..j + 1], n)
        {
          AfterNext(old(RecordOf(n)), typeName, serviceList[..j], serviceList[j], n);
        }
        var _ := UpdateClient(Some(serviceList[j]));
      }
      assert serviceList[..|serviceList|] == serviceList;
    }

    /** The loops of `online` and `check` over the received lists: every client has on record, and its
        resolver has seen, exactly the announcements of its own service, in the order received. */
    method UpdateAll(watchList: seq<seq<ServiceInfo>>)
      requires Valid()
      modifies Clients(), Resolvers()
      ensures Valid() && Resolvers() == old(Resolvers())
      ensures forall n :: n in clientMaps ==> RecordOf(n) == AfterAll(old(RecordOf(n)), typeName, Flat(watchList), n)
    {
      hide Valid, After, AfterAll;
      forall n | n in clientMaps ensures AfterAll(old(RecordOf(n)), typeName, [], n) == old(RecordOf(n)) {
        AfterNone(old(RecordOf(n)), typeName, n);
      }
      for i := 0 to |watchList|
        invariant Valid() && Resolvers() == old(Resolvers())
        invariant forall n :: n in clientMaps ==>
                    RecordOf(n) == AfterAll(old(RecordOf(n)), typeName, Flat(watchList[..i]), n)
      {
        assert watchList[..i + 1] == watchList[..i] + [watchList[i]];
        FlatSnoc(watchList[..i], watchList[i]);
        forall n | n in clientMaps
          ensures AfterAll(RecordOf(n), typeName, watchList[i], n) ==
                  AfterAll(old(RecordOf(n)), typeName, Flat(watchList[..i + 1]), n)
        {
          AfterConcat(old(RecordOf(n)), typeName, Flat(watchList[..i]), watchList[i], n);
        }
        UpdateList(watchList[i]);
      }
      assert watchList[..|watchList|] == watchList;
    }
  }

  // ----- what a client has on record -----

  datatype Record = Record(resolver: Resolver?, siMap: map<string, ServiceInfo>, events: seq<ServiceInfo>)

  /** One announcement: only that of the client's own service counts, and only a resolver that has been
      built sees it. */
  function After(r: Record, typeName: int -> string, info: ServiceInfo, n: string): Record {
    if typeName(info.serviceType) != n then r
    else Record(r.resolver, r.siMap[info.addr := info], if r.resolver == null then r.events else r.events + [info])
  }

  /** Several announcements, of any services. */
  function AfterAll(r: Record, typeName: int -> string, infos: seq<ServiceInfo>, n: string): Record {
    var own := For(typeName, infos, n);
    Record(r.resolver, Latest(r.siMap, own), if r.resolver == null then r.events else r.events + own)
  }

  /** The latest announcement of each address. */
  function Latest(siMap: map<string, ServiceInfo>, infos: seq<ServiceInfo>): map<string, ServiceInfo> {
    if infos == [] then siMap else Latest(siMap, infos[..|infos| - 1])[infos[|infos| - 1].addr := infos[|infos| - 1]]
  }

  lemma AfterNone(r: Record, typeName: int -> string, n: string)
    ensures AfterAll(r, typeName, [], n) == r
  {
    assert r.events + [] == r.events;
  }

  lemma {:induction false} LatestConcat(siMap: map<string, ServiceInfo>, xs: seq<ServiceInfo>, ys: seq<ServiceInfo>)
    ensures Latest(siMap, xs + ys) == Latest(Latest(siMap, xs), ys)
  {
    if ys == [] {
      assert xs + ys == xs;
    } else {
      assert (xs + ys)[..|xs + ys| - 1] == xs + ys[..|ys| - 1];
      LatestConcat(siMap, xs, ys[..|ys| - 1]);
    }
  }

  lemma AfterConcat(r: Record, typeName: int -> string, xs: seq<ServiceInfo>, ys: seq<ServiceInfo>, n: string)
    ensures AfterAll(AfterAll(r, typeName, xs, n), typeName, ys, n) == AfterAll(r, typeName, xs + ys, n)
  {
    var x, y := For(typeName, xs, n), For(typeName, ys, n);
    ForConcat(typeName, xs, ys, n);
    LatestConcat(r.siMap, x, y);
    assert r.events + (x + y) == (r.events + x) + y;
  }

  lemma AfterNext(r: Record, typeName: int -> string, xs: seq<ServiceInfo>, info: ServiceInfo, n: string)
    ensures After(AfterAll(r, typeName, xs, n), typeName, info, n) == AfterAll(r, typeName, xs + [info], n)
  {
    AfterConcat(r, typeName, xs, [info], n);
    var was, own := AfterAll(r, typeName, xs, n), For(typeName, [info], n);
    assert [info][1..] == [] && [info] + [] == [info];
    assert For(typeName, [], n) == [];
    assert own == if typeName(info.serviceType) == n then [info] else [];
    assert Latest(was.siMap, []) == was.siMap;
    assert own != [] ==> Latest(was.siMap, own) == Latest(was.siMap, own[..0])[info.addr := info];
    assert was.events + [] == was.events;
  }

  /** An announcement of the service and the address. */
  predicate Concerns(typeName: int -> string, info: ServiceInfo, n: string, a: string) {
    typeName(info.serviceType) == n && info.addr == a
  }

  /** What is on record for `a`: the last announcement that concerns it, or what was there when there is
      none. */
  ghost predicate OnRecord(was: map<string, ServiceInfo>, now: map<string, ServiceInfo>, typeName: int -> string,
                           infos: seq<ServiceInfo>, n: string, a: string)
  {
    || (exists k :: 0 <= k < |infos| && Concerns(typeName, infos[k], n, a) && a in now && now[a] == infos[k]
                    && forall m :: k < m < |infos| ==> !Concerns(typeName, infos[m], n, a))
    || ((forall k :: 0 <= k < |infos| ==> !Concerns(typeName, infos[k], n, a))
        && (a in now <==> a in was) && (a in now ==> now[a] == was[a]))
  }

  lemma OnRecordNext(was: map<string, ServiceInfo>, mid: map<string, ServiceInfo>, now: map<string, ServiceInfo>,
                     typeName: int -> string, infos: seq<ServiceInfo>, info: ServiceInfo, n: string, a: string)
    requires OnRecord(was, mid, typeName, infos, n, a)
    requires if Concerns(typeName, info, n, a) then a in now && now[a] == info
             else (a in now <==> a in mid) && (a in now ==> now[a] == mid[a])
    ensures OnRecord(was, now, typeName, infos + [info], n, a)
  {
    hide Concerns;
    var more := infos + [info];
    assert more[|infos|] == info && forall k :: 0 <= k < |infos| ==> more[k] == infos[k];
    if !Concerns(typeName, info, n, a) {
      if k :| 0 <= k < |infos| && Concerns(typeName, infos[k], n, a) && a in mid && mid[a] == infos[k]
              && forall m :: k < m < |infos| ==> !Concerns(typeName, infos[m], n, a)
      {
        assert Concerns(typeName, more[k], n, a) && now[a] == more[k];
      }
    }
  }

  /** After any announcements the client of a service has on record, for each address, the last one for its
      service and that address, or what it had when there is none; nothing else is on record. */
  lemma {:induction false} RecordHistory(r: Record, typeName: int -> string, infos: seq<ServiceInfo>, n: string, a: string)
    ensures OnRecord(r.siMap, AfterAll(r, typeName, infos, n).siMap, typeName, infos, n, a)
  {
    if infos == [] {
      AfterNone(r, typeName, n);
    } else {
      hide AfterAll, After, Concerns, OnRecord;
      var rest, info := infos[..|infos| - 1], infos[|infos| - 1];
      RecordHistory(r, typeName, rest, n, a);
      assert infos == rest + [info];
      AfterNext(r, typeName, rest, info, n);
      var was := AfterAll(r, typeName, rest, n);
      AfterMeans(was, typeName, info, n, a);
      OnRecordNext(r.siMap, was.siMap, After(was, typeName, info, n).siMap, typeName, rest, info, n, a);
    }
  }

  lemma AfterMeans(r: Record, typeName: int -> string, info: ServiceInfo, n: string, a: string)
    ensures var siMap := After(r, typeName, info, n).siMap;
            if Concerns(typeName, info, n, a) then a in siMap && siMap[a] == info
            else (a in siMap <==> a in r.siMap) && (a in siMap ==> siMap[a] == r.siMap[a])
  {}

  lemma {:induction false} ForConcat(typeName: int -> string, xs: seq<ServiceInfo>, ys: seq<ServiceInfo>, name: string)
    ensures For(typeName, xs + ys, name) == For(typeName, xs, name) + For(typeName, ys, name)
  {
    if xs == [] {
      assert xs + ys == ys;
    } else {
      ForConcat(typeName, xs[1..], ys, name);
      assert (xs + ys)[1..] == xs[1..] + ys;
    }
  }

  function Flat(lists: seq<seq<ServiceInfo>>): seq<ServiceInfo> {
    if lists == [] then [] else Flat(lists[..|lists| - 1]) + lists[|lists| - 1]
  }

  lemma FlatSnoc(lists: seq<seq<ServiceInfo>>, list: seq<ServiceInfo>)
    ensures Flat(lists + [list]) == Flat(lists) + list
  {
    assert (lists + [list])[..|lists + [list]| - 1] == lists;
  }
}
