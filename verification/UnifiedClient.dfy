/** The client of one watched service type (`Common/RegisterCenter/UnifiedClient.go`). */
module UnifiedClient {
  import opened Decimal
  import opened NodeTable
  import opened Results
  import opened ServiceResolver

  datatype Error = ServiceResolverIsNil

  /** The semantic-version library. */
  datatype Semver = Semver(isValid: string -> bool, major: string -> string, compare: (string, string) -> int)

  function WithLeadingV(version: string): string
    requires version != ""
  {
    if version[0] != 'v' then "v" + version else version
  }

  predicate CheckVersion(sv: Semver, rely: string, version: string) {
    && version != ""
    && var v := WithLeadingV(version);
    && sv.isValid(v)
    && sv.major(v) == sv.major(rely)
    && sv.compare(v, rely) >= 0
  }

  /** A version is accepted exactly when, with a leading `v`, it is valid, of the same major version as
      the one relied on and not older. */
  lemma VersionAccepted(sv: Semver, rely: string, version: string)
    ensures Accepts(sv, rely)(version) <==>
            && version != ""
            && var v := if version[0] == 'v' then version else "v" + version;
               sv.isValid(v) && sv.major(v) == sv.major(rely) && !(sv.compare(v, rely) < 0)
  {}

  function Accepts(sv: Semver, rely: string): Compatible {
    version => CheckVersion(sv, rely, version)
  }

  /** Each address has its latest announcement on record, and the node made of it. */
  ghost predicate Records(siMap: map<string, ServiceInfo>, rnMap: map<string, RealNode>) {
    && (forall a :: a in siMap ==> siMap[a].addr == a)
    && rnMap == (map a | a in siMap :: RealNodeOf(siMap[a]))
  }

  lemma RecordsNext(siMap: map<string, ServiceInfo>, rnMap: map<string, RealNode>, info: ServiceInfo)
    requires Records(siMap, rnMap)
    ensures Records(siMap[info.addr := info], rnMap[info.addr := RealNodeOf(info)])
  {}

  class Client {
    const serviceType: int
    const semver: Semver
    const relySemver: string

    var serviceResolver: Resolver?
    var siMap: map<string, ServiceInfo>
    var rnMap: map<string, RealNode>

    /** The events the resolver has seen. */
    ghost var events: seq<ServiceInfo>

    ghost predicate Valid()
      reads this, serviceResolver
    {
      && Records(siMap, rnMap)
      && (serviceResolver != null ==>
            && serviceResolver.State() == Replay(Accepts(semver, relySemver), events)
            && Keyed(serviceResolver.State()))
    }

    /** The listed addresses are those of the announcements on record that serve. */
    ghost predicate Agrees()
      reads this, serviceResolver
    {
      serviceResolver != null && serviceResolver.addrs == IndexOf(Accepts(semver, relySemver), siMap)
    }

    constructor (serviceType: int, semver: Semver, relySemver: string)
      ensures Valid() && serviceResolver == null && siMap == map[]
      ensures this.serviceType == serviceType && this.semver == semver && this.relySemver == relySemver
    {
      this.serviceType, this.semver, this.relySemver := serviceType, semver, relySemver;
      serviceResolver, siMap, rnMap, events := null, map[], map[], [];
    }

    /** Called by the connection layer when the service is dialled. Announcements already on record never
        reach the resolver, so it agrees with the record exactly when none of them serves. */
    method Build() returns (r: Resolver)
      requires Valid()
      modifies this`serviceResolver, this`events
      ensures Valid() && serviceResolver == r && fresh(r)
      ensures r.State() == EMPTY_TABLE && events == []
      ensures Agrees() <==> forall a :: a in siMap ==> !Serves(Accepts(semver, relySemver), siMap[a])
    {
      r := new Resolver();
      serviceResolver, events := r, [];
      NothingIndexed(Accepts(semver, relySemver), siMap);
    }

    /** The part of `UpdateAddr` that goes through the resolver. */
    method Refresh(resolver: Resolver, info: ServiceInfo, rn: RealNode)
      requires rn == RealNodeOf(info)
      modifies resolver`addrs, resolver`nodes
      ensures resolver.State() == Apply(Accepts(semver, relySemver), old(resolver.State()), info)
    {
      hide CheckVersion, AddEntries, Slots, NodeKey;
      var addr := info.addr;
      var weight := info.serviceWeight;
      if weight <= 0 {
        weight := DEFAULT_WEIGHT;
      }
      if info.status == STATUS_ONLINE && CheckVersion(semver, relySemver, info.semver) {
        resolver.SetAddr(addr, weight);
        NoEntries(resolver.nodes, rn, addr);
        for idx := 0 to weight
          invariant resolver.addrs == old(resolver.addrs)[addr := weight]
          invariant resolver.nodes == AddEntries(old(resolver.nodes), rn, Slots(addr, idx))
        {
          SlotsNext(addr, idx);
          AddEntriesNext(old(resolver.nodes), rn, Slots(addr, idx), NodeKey(addr, idx));
          resolver.AddNodes(addr, idx, rn);
        }
      } else {
        resolver.DelAddr(addr);
      }
    }

    /** Records an announcement and brings the node table and the connection layer up to date. */
    method UpdateAddr(info: ServiceInfo) returns (r: Result<(), Error>)
      requires Valid()
      modifies this`siMap, this`rnMap, this`events, serviceResolver
      ensures Valid()
      ensures siMap == old(siMap)[info.addr := info]
      ensures serviceResolver == null ==> r == Err(ServiceResolverIsNil) && events == old(events)
      ensures serviceResolver != null ==>
              && r == Ok(()) && events == old(events) + [info]
              && serviceResolver.State() ==
                 Apply(Accepts(semver, relySemver), old(serviceResolver.State()), info)
              && Enumerates(serviceResolver.pushed, serviceResolver.nodes)
              && (old(Agrees()) ==> Agrees())
      ensures serviceResolver != null ==>
                var was, now := old(serviceResolver.State()), serviceResolver.State();
                if info.status == 2 && CheckVersion(semver, relySemver, info.semver) then Brought(was, now, info)
                else Withdrawn(was, now, info)
    {
      hide Brought, Withdrawn, CheckVersion, Apply, Replay, Keyed, Records, IndexOf;
      var rn := RealNode(info.serviceType, info.addr, info.semver, info.status);
      RecordsNext(siMap, rnMap, info);
      rnMap := rnMap[info.addr := rn];
      siMap := siMap[info.addr := info];
      if serviceResolver == null {
        return Err(ServiceResolverIsNil);
      }
      ghost var ok, was := Accepts(semver, relySemver), serviceResolver.State();
      Refresh(serviceResolver, info, rn);
      ghost var now := serviceResolver.State();
      StepKeepsKeyed(ok, was, info);
      Announce(was, now, info);
      if old(Agrees()) {
        StepKeepsIndex(ok, was, old(siMap), info);
      }
      ReplayNext(ok, events, info);
      events := events + [info];
      serviceResolver.Update();
      return Ok(());
    }

    lemma Announce(was: Table, now: Table, info: ServiceInfo)
      requires now == Apply(Accepts(semver, relySemver), was, info)
      ensures if info.status == 2 && CheckVersion(semver, relySemver, info.semver)
              then Brought(was, now, info)
              else Withdrawn(was, now, info)
    {
      hide CheckVersion, Apply, Brought, Withdrawn;
      ApplyMeans(Accepts(semver, relySemver), was, info);
    }

    /** The announcements on record, in some order, one per address. */
    method GetWatchServiceInfo() returns (list: seq<ServiceInfo>)
      requires Valid()
      ensures forall i, j :: 0 <= i < j < |list| ==> list[i].addr != list[j].addr
      ensures forall info :: info in list <==> info.addr in siMap && siMap[info.addr] == info
    {
      list := [];
      var rest := siMap.Keys;
      while rest != {}
        invariant rest <= siMap.Keys
        invariant forall i, j :: 0 <= i < j < |list| ==> list[i].addr != list[j].addr
        invariant forall info :: info in list <==>
                    info.addr in siMap.Keys - rest && siMap[info.addr] == info
        decreases |rest|
      {
        var a :| a in rest;
        list := list + [siMap[a]];
        rest := rest - {a};
      }
    }
  }
}
