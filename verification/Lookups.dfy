/** The map-lock regions of the two lookups, with what they do to leases and cache. */
module Lookups {
  import opened Bits
  import opened Wrappers
  import opened AddressTables
  import opened Translate
  import opened Coherence
  import opened FreeRuns
  import opened HostEntries
  import opened MapState
  import opened CacheSteps
  import opened PoolSteps
  import opened Maintenance

  // ------------------------------------------------------------ resolution

  predicate IsHost(m: Option<Mapping>) {
    m.Some? && m.value.Host?
  }

  /** The map-lock region of `map_ip4_to_ip6`. */
  function Resolve4(cfg: Config, w: World, a: Ip4): (r: (World, Outcome<Ip6>))
    requires EntriesAdmitted(w.map4, w.map6)
  {
    match Lookup4(cfg, w.map4, w.map6, a)
    case Found(b, pair) =>
      if IsHost(FindMap4(w.map4, a)) && a in w.leases then (ServeLease(cfg, w, a), Found(b, true))
      else (ServeStatic(cfg, w, a, b, pair), Found(b, pair))
    case Rejected => (w, Rejected)
    case Drop => (w, Drop)
  }

  /** The map-lock region of `map_ip6_to_ip4`. */
  ghost function Resolve6(cfg: Config, w: World, b: Ip6, alloc: bool): (r: (World, Outcome<Ip4>))
    requires EntriesAdmitted(w.map4, w.map6)
    requires cfg.pool.Some? ==> cfg.pool.value.Pool? && cfg.pool.value.poolLen <= 31 && PoolEnd(cfg.pool.value) <= 0x1_0000_0000
    requires forall a :: a in w.dormant ==> a in w.leases
  {
    if FindMap6(w.map6, b) == None then
      if alloc then
        match Assign(cfg, w, b)
        case Some(p) => (if p.0 in p.1.leases then ServeLease(cfg, p.1, p.0) else p.1, Found(p.0, true))
        case None => (w, Rejected)
      else (w, Rejected)
    else
      match Lookup6(cfg, w.map4, w.map6, b)
      case Found(a, pair) =>
        if IsHost(FindMap6(w.map6, b)) && a in w.leases then (ServeLease(cfg, w, a), Found(a, true))
        else (ServeStatic(cfg, w, a, b, pair), Found(a, pair))
      case Rejected => (w, Rejected)
      case Drop => (w, Drop)
  }

  lemma InvGives(cfg: Config, w: World)
    requires Inv(cfg, w)
    ensures EntriesAdmitted(w.map4, w.map6)
    ensures TablesOk(cfg, w.map4, w.map6) && HostsMatch(w.map4, w.leases, w.mapped)
    ensures cfg.pool.Some? ==> cfg.pool.value.Pool? && cfg.pool.value.poolLen <= 31 && PoolEnd(cfg.pool.value) <= 0x1_0000_0000
    ensures forall a :: a in w.dormant ==> a in w.leases
    ensures forall a :: a in w.mapped ==> a in w.leases
    ensures w.lastPacket.Keys == w.leases.Keys
  {
  }

  /** A host match is a mapped lease. */
  lemma HostMatchIsMapped(cfg: Config, w: World, a: Ip4)
    requires Inv(cfg, w)
    ensures IsHost(FindMap4(w.map4, a)) <==> a in w.mapped
    ensures a in w.mapped ==> FindMap4(w.map4, a) == Some(Host(a, w.leases[a].a6))
  {
    hide Ordered4, Disjoint6, SelfPlaced, Paired, PoolTiled, PoolOwns, SlotsOk, Coherent, Linked, Stamped, FindMap4, ClearLow, Listed, Sorted;
    FindIsMember(w.map4, a);
    if a in w.mapped {
      MappedIsFound(cfg, w, a);
    }
    if IsHost(FindMap4(w.map4, a)) {
      HostCovers4(FindMap4(w.map4, a).value, a);
    }
  }

  lemma HostMatch6IsMapped(cfg: Config, w: World, b: Ip6)
    requires Inv(cfg, w) && EntriesAdmitted(w.map4, w.map6) && IsHost(FindMap6(w.map6, b))
    ensures var h := FindMap6(w.map6, b).value;
            h.h4 in w.mapped && h.h4 in w.leases && w.leases[h.h4].a6 == b == h.h6
  {
    hide Ordered4, Disjoint6, SelfPlaced, PoolTiled, PoolOwns, SlotsOk, Coherent, Linked, Stamped, ClearLow, Listed, Sorted;
    HostCovers(FindMap6(w.map6, b).value, 0, b);
  }

  /** A lookup under the map lock keeps the invariant, and gives the answer of the
      uncached lookup in the state before it. */
  lemma Resolve4Keeps(cfg: Config, w: World, a: Ip4)
    requires Inv(cfg, w)
    ensures EntriesAdmitted(w.map4, w.map6)
    ensures var (v, r) := Resolve4(cfg, w, a);
            && Inv(cfg, v) && r == Lookup4(cfg, w.map4, w.map6, a)
            && v.now == w.now && v.mapped == w.mapped && v.leases.Keys == w.leases.Keys
            && v.lastPacket == if r.Found? then Packet4(w, a) else w.lastPacket
  {
    hide Inv, InvButStamp, Lookup4, FindMap4, Publish, TablesOk, HostsMatch, EntriesAdmitted;
    InvGives(cfg, w);
    HostMatchIsMapped(cfg, w, a);
    match Lookup4(cfg, w.map4, w.map6, a)
    case Found(b, pair) =>
      if a in w.mapped {
        MappedIsFound(cfg, w, a);
        InvSplit(cfg, w, a);
        ServeLeaseKeepsInv(cfg, w, a);
        ServeLeaseFrame(cfg, w, a);
        assert Packet4(w, a) == w.lastPacket[a := w.now];
      } else {
        ServeStaticKeepsInv(cfg, w, a, b, pair);
        ServeStaticFrame(cfg, w, a, b, pair);
        assert Packet4(w, a) == w.lastPacket;
      }
    case Rejected =>
    case Drop =>
  }

  lemma PublishFrame(w: World, a: Ip4, b: Ip6)
    ensures var r := Publish(w, a, b).0; r == w.(cache := r.cache, active := r.active, spare := r.spare)
  {
    hide FindPair;
  }

  lemma ServeLeaseFrame(cfg: Config, w: World, a: Ip4)
    requires a in w.leases
    ensures var v := ServeLease(cfg, w, a);
            && v.now == w.now && v.mapped == w.mapped && v.leases.Keys == w.leases.Keys
  {
    hide Publish, Flag;
    PublishFrame(w, a, w.leases[a].a6);
  }

  lemma ServeStaticFrame(cfg: Config, w: World, a: Ip4, b: Ip6, pair: bool)
    ensures var v := ServeStatic(cfg, w, a, b, pair);
            && v.now == w.now && v.mapped == w.mapped && v.leases == w.leases && v.lastPacket == w.lastPacket
  {
    hide Publish;
    PublishFrame(w, a, b);
  }

  /** A static or prefix match gives an IPv4 address that no lease has, if it is cacheable. */
  lemma StaticAnswerIsUnmapped(cfg: Config, w: World, a: Ip4, b: Ip6)
    requires Inv(cfg, w) && EntriesAdmitted(w.map4, w.map6)
    requires Lookup6(cfg, w.map4, w.map6, b) == Found(a, true) && !IsHost(FindMap6(w.map6, b))
    ensures a !in w.mapped
  {
    hide Inv, TablesOk, HostsMatch, Lookup4, Lookup6, FindMap4, FindMap6;
    InvGives(cfg, w);
    Lookup6Agrees(cfg, w.map4, w.map6, a, b);
    if a in w.mapped {
      MappedIsFound(cfg, w, a);
    }
  }

  ghost predicate ServedNow(w: World, v: World, a: Ip4) {
    && a in v.mapped && a in v.lastPacket && v.lastPacket[a] == w.now
    && (forall x :: x in w.lastPacket && x != a ==> x in v.lastPacket && v.lastPacket[x] == w.lastPacket[x])
  }

  lemma Resolve6Keeps(cfg: Config, w: World, b: Ip6, alloc: bool)
    requires Inv(cfg, w)
    ensures EntriesAdmitted(w.map4, w.map6)
    ensures cfg.pool.Some? ==> cfg.pool.value.Pool? && cfg.pool.value.poolLen <= 31 && PoolEnd(cfg.pool.value) <= 0x1_0000_0000
    ensures forall a :: a in w.dormant ==> a in w.leases
    ensures var (v, r) := Resolve6(cfg, w, b, alloc);
            && Inv(cfg, v) && v.now == w.now
            && (FindMap6(w.map6, b) != None || !alloc ==>
                  r == Lookup6(cfg, w.map4, w.map6, b) && v.mapped == w.mapped && v.leases.Keys == w.leases.Keys &&
                  v.lastPacket == if r.Found? then Packet6(w, b) else w.lastPacket)
            && (FindMap6(w.map6, b) == None && alloc && !r.Found? ==> v == w)
            && (FindMap6(w.map6, b) == None && alloc && r.Found? ==>
                  v.mapped == [r.addr] + w.mapped && r.addr in v.leases && v.leases[r.addr].a6 == b &&
                  ServedNow(w, v, r.addr))
  {
    hide Inv, InvButStamp, Lookup4, Lookup6, FindMap4, FindMap6, Publish, TablesOk, HostsMatch, EntriesAdmitted, Assign, ServeLease, ServeStatic;
    InvGives(cfg, w);
    if FindMap6(w.map6, b) == None {
      Lookup6None(cfg, w.map4, w.map6, b);
      if alloc {
        AssignKeeps(cfg, w, b);
        match Assign(cfg, w, b)
        case Some(p) => ResolveAssigned(cfg, w, p.1, p.0, b);
        case None =>
      }
    } else {
      Resolve6Found(cfg, w, b, alloc);
    }
  }

  lemma Lookup6None(cfg: Config, map4: seq<Mapping>, map6: seq<Mapping>, b: Ip6)
    requires EntriesAdmitted(map4, map6) && FindMap6(map6, b) == None
    ensures Lookup6(cfg, map4, map6, b) == Rejected
  {
  }

  lemma ResolveAssigned(cfg: Config, w: World, u: World, a: Ip4, b: Ip6)
    requires Assigned(cfg, w, u, a, b)
    ensures a in u.leases
    ensures var v := ServeLease(cfg, u, a);
            && Inv(cfg, v) && v.now == w.now && v.mapped == [a] + w.mapped
            && a in v.leases && v.leases[a].a6 == b && ServedNow(w, v, a)
  {
    hide Inv, InvButStamp, ServeLease;
    InvSplit(cfg, u, a);
    ServeLeaseKeepsInv(cfg, u, a);
    ServeLeaseFrame(cfg, u, a);
    ServeLeaseSame6(cfg, u, a);
    InvGives(cfg, u);
  }

  lemma ServeLeaseSame6(cfg: Config, w: World, a: Ip4)
    requires a in w.leases
    ensures a in ServeLease(cfg, w, a).leases && ServeLease(cfg, w, a).leases[a].a6 == w.leases[a].a6
  {
    hide Publish, Flag;
  }

  lemma Resolve6Found(cfg: Config, w: World, b: Ip6, alloc: bool)
    requires Inv(cfg, w) && EntriesAdmitted(w.map4, w.map6) && FindMap6(w.map6, b) != None
    requires cfg.pool.Some? ==> cfg.pool.value.Pool? && cfg.pool.value.poolLen <= 31 && PoolEnd(cfg.pool.value) <= 0x1_0000_0000
    requires forall a :: a in w.dormant ==> a in w.leases
    ensures var (v, r) := Resolve6(cfg, w, b, alloc);
            && Inv(cfg, v) && v.now == w.now
            && r == Lookup6(cfg, w.map4, w.map6, b) && v.mapped == w.mapped && v.leases.Keys == w.leases.Keys
            && v.lastPacket == if r.Found? then Packet6(w, b) else w.lastPacket
  {
    hide Inv, InvButStamp, Lookup4, Lookup6, FindMap4, FindMap6, TablesOk, HostsMatch, EntriesAdmitted, Assign, ServeLease, ServeStatic;
    InvGives(cfg, w);
    match Lookup6(cfg, w.map4, w.map6, b)
    case Found(a, pair) =>
      if IsHost(FindMap6(w.map6, b)) {
        HostMatch6IsMapped(cfg, w, b);
        var h := FindMap6(w.map6, b).value.h4;
        MappedIsFound(cfg, w, h);
        InvSplit(cfg, w, a);
        ServeLeaseKeepsInv(cfg, w, a);
        ServeLeaseFrame(cfg, w, a);
        OnlyPacketOf(cfg, w, a, b);
      } else {
        StaticIsNotLease(cfg, w, a, b, pair);
        ServeStaticKeepsInv(cfg, w, a, b, pair);
        ServeStaticFrame(cfg, w, a, b, pair);
        NoPacketOf(cfg, w, b);
      }
    case Rejected =>
    case Drop =>
  }

  lemma OnlyPacketOf(cfg: Config, w: World, a: Ip4, b: Ip6)
    requires Inv(cfg, w) && a in w.mapped && a in w.leases && w.leases[a].a6 == b
    ensures Packet6(w, b) == w.lastPacket[a := w.now]
  {
    hide TablesOk, PoolTiled, HostsMatch, PoolOwns, Sorted, SlotsOk, Coherent, Linked;
    assert a in w.lastPacket.Keys;
  }

  lemma NoPacketOf(cfg: Config, w: World, b: Ip6)
    requires Inv(cfg, w) && EntriesAdmitted(w.map4, w.map6) && !IsHost(FindMap6(w.map6, b))
    ensures Packet6(w, b) == w.lastPacket
  {
    hide Inv, TablesOk, HostsMatch, FindMap4, FindMap6, Lookup4, Lookup6;
    InvGives(cfg, w);
    forall x | x in w.mapped && x in w.leases ensures w.leases[x].a6 != b {
      MappedIsFound(cfg, w, x);
    }
  }

  lemma StaticIsNotLease(cfg: Config, w: World, a: Ip4, b: Ip6, pair: bool)
    requires Inv(cfg, w) && EntriesAdmitted(w.map4, w.map6)
    requires Lookup6(cfg, w.map4, w.map6, b) == Found(a, pair) && !IsHost(FindMap6(w.map6, b))
    ensures pair ==> a !in w.mapped && Lookup4(cfg, w.map4, w.map6, a) == Found(b, true)
  {
    hide Inv, TablesOk, HostsMatch, Lookup4, Lookup6, FindMap4, FindMap6;
    InvGives(cfg, w);
    if pair {
      Lookup6Agrees(cfg, w.map4, w.map6, a, b);
      StaticAnswerIsUnmapped(cfg, w, a, b);
    }
  }
}
