/** The steps that touch the cache: a hit, the publication of a resolved pair, ageing. */
module CacheSteps {
  import opened Wrappers
  import opened Lists
  import opened AddressTables
  import opened Translate
  import opened Coherence
  import opened FreeRuns
  import opened MapState

  const CACHE_MAX_AGE := 120

  // ------------------------------------------------------------ packets

  /** History: a packet to or from IPv4 address a passes now. */
  function Packet4(w: World, a: Ip4): (p: map<Ip4, int>) {
    map x | x in w.lastPacket :: if x == a && x in w.mapped then w.now else w.lastPacket[x]
  }

  /** History: a packet to or from IPv6 address b passes now. */
  function Packet6(w: World, b: Ip6): (p: map<Ip4, int>) {
    map x | x in w.lastPacket ::
      if x in w.mapped && x in w.leases && w.leases[x].a6 == b then w.now else w.lastPacket[x]
  }

  /** For a cached pair the two say the same. */
  lemma SamePacket(cfg: Config, w: World, s: nat)
    requires Inv(cfg, w) && s in w.cache
    ensures Packet4(w, w.cache[s].a4) == Packet6(w, w.cache[s].a6)
  {
    hide TablesOk, Lookup4, SlotsOk, PoolTiled, PoolOwns, Sorted, Linked;
    var e := w.cache[s];
    forall x | x in w.lastPacket && x in w.mapped
      ensures x == e.a4 <==> w.leases[x].a6 == e.a6
    {
      MappedIsFound(cfg, w, x);
      if w.leases[x].a6 == e.a6 {
        Lookup4Injective(cfg, w.map4, w.map6, x, e.a4, e.a6);
      }
    }
  }

  /** A mapped lease is what the IPv4 lookup of its address finds. */
  lemma MappedIsFound(cfg: Config, w: World, a: Ip4)
    requires TablesOk(cfg, w.map4, w.map6) && HostsMatch(w.map4, w.leases, w.mapped) && a in w.mapped
    ensures FindMap4(w.map4, a) == Some(Host(a, w.leases[a].a6))
    ensures FindMap6(w.map6, w.leases[a].a6) == Some(Host(a, w.leases[a].a6))
    ensures Lookup4(cfg, w.map4, w.map6, a) == Found(w.leases[a].a6, true)
    ensures Lookup6(cfg, w.map4, w.map6, w.leases[a].a6) == Found(a, true)
  {
    hide Ordered4, Disjoint6, FindMap4, SelfPlaced, Embed, Append;
    var h := Host(a, w.leases[a].a6);
    HostMatchesItself(w.map4, h);
    Whole(w.leases[a].a6);
    MatchIsUnique6(w.map6, w.leases[a].a6, h);
  }

  // ------------------------------------------------------------ hit

  /** A lookup served by cache slot s: only the entry's time stamp changes. */
  function Hit(w: World, s: nat): (r: World)
    requires s in w.cache
  {
    w.(cache := w.cache[s := w.cache[s].(lastUse := w.now)], lastPacket := Packet4(w, w.cache[s].a4))
  }

  /** Time stamps and flags play no part in what the cache says. */
  lemma SamePairsKeep(cfg: Config, w: World, cache: map<nat, Entry>)
    requires EntriesAdmitted(w.map4, w.map6)
    requires SlotsOk(cfg, w.cache, w.active, w.spare) && Coherent(cfg, w.map4, w.map6, w.cache)
    requires cache.Keys == w.cache.Keys
    requires forall s :: s in cache ==> cache[s].a4 == w.cache[s].a4 && cache[s].a6 == w.cache[s].a6
    ensures SlotsOk(cfg, cache, w.active, w.spare) && Coherent(cfg, w.map4, w.map6, cache)
  {
    hide Lookup4, EntriesAdmitted, NoDup;
    assert forall s :: s in cache <==> s in w.cache;
  }

  lemma HitKeepsInv(cfg: Config, w: World, s: nat)
    requires Inv(cfg, w) && s in w.cache
    ensures Inv(cfg, Hit(w, s))
  {
    hide Ordered4, Disjoint6, Paired, SelfPlaced, EntriesAdmitted, PoolOk, Coherent, SlotsOk;
    SamePairsKeep(cfg, w, Hit(w, s).cache);
  }

  // ------------------------------------------------------------ publication

  function FindPair(active: seq<nat>, cache: map<nat, Entry>, a: Ip4, b: Ip6): (r: Option<nat>)
    ensures r.Some? ==> r.value in active && r.value in cache && cache[r.value].a4 == a && cache[r.value].a6 == b
    ensures r == None ==> forall s :: s in active && s in cache ==> !(cache[s].a4 == a && cache[s].a6 == b)
  {
    if active == [] then None
    else if active[0] in cache && cache[active[0]].a4 == a && cache[active[0]].a6 == b then Some(active[0])
    else FindPair(active[1..], cache, a, b)
  }

  /** `cache_insert`: the pair's own entry if a concurrent lookup made one, else a spare slot. */
  function Publish(w: World, a: Ip4, b: Ip6): (r: (World, Option<nat>))
  {
    match FindPair(w.active, w.cache, a, b)
    case Some(s) => (w.(cache := w.cache[s := w.cache[s].(lastUse := w.now)]), Some(s))
    case None =>
      if w.spare == [] then (w, None)
      else
        var s := w.spare[0];
        (w.(cache := w.cache[s := Entry(a, b, w.now, false)],
            active := [s] + w.active, spare := w.spare[1..]), Some(s))
  }

  lemma PublishNew(cfg: Config, w: World, a: Ip4, b: Ip6)
    requires EntriesAdmitted(w.map4, w.map6)
    requires SlotsOk(cfg, w.cache, w.active, w.spare) && Coherent(cfg, w.map4, w.map6, w.cache)
    requires Lookup4(cfg, w.map4, w.map6, a) == Found(b, true)
    requires FindPair(w.active, w.cache, a, b) == None && w.spare != []
    ensures var r := Publish(w, a, b).0;
            SlotsOk(cfg, r.cache, r.active, r.spare) && Coherent(cfg, r.map4, r.map6, r.cache)
  {
    hide Lookup4, EntriesAdmitted, FindPair;
    var s, t := w.spare[0], w.spare[1..];
    assert w.spare == [s] + t;
    assert s !in t && NoDup(t);
    assert forall x :: x in w.spare <==> x == s || x in t;
    NoDupCons(s, w.active);
  }

  /** Publication of address a leaves other entries alone; afterwards slot c, if any,
      is the one entry for a and is stamped now. */
  ghost predicate Grew(old0: map<nat, Entry>, cache: map<nat, Entry>, c: Option<nat>, a: Ip4, now: int) {
    && (forall s :: s in old0 ==> s in cache)
    && (forall s :: s in old0 && Some(s) != c ==> cache[s] == old0[s])
    && (forall s :: s in cache && s !in old0 ==> c == Some(s) && !cache[s].flagged)
    && (forall s :: s in cache ==> (cache[s].a4 == a <==> c == Some(s)))
    && (c.Some? ==> c.value in cache && cache[c.value].lastUse == now)
    && (c.Some? && c.value in old0 ==> cache[c.value] == old0[c.value].(lastUse := now))
  }

  lemma GrewByTouch(cache: map<nat, Entry>, s: nat, now: int)
    requires s in cache && forall t :: t in cache && cache[t].a4 == cache[s].a4 ==> t == s
    ensures Grew(cache, cache[s := cache[s].(lastUse := now)], Some(s), cache[s].a4, now)
  {
  }

  lemma GrewByEntry(cache: map<nat, Entry>, s: nat, a: Ip4, b: Ip6, now: int)
    requires s !in cache && forall t :: t in cache ==> cache[t].a4 != a
    ensures Grew(cache, cache[s := Entry(a, b, now, false)], Some(s), a, now)
    ensures Grew(cache, cache, None, a, now)
  {
  }

  lemma PublishEffect(cfg: Config, w: World, a: Ip4, b: Ip6)
    requires EntriesAdmitted(w.map4, w.map6)
    requires SlotsOk(cfg, w.cache, w.active, w.spare) && Coherent(cfg, w.map4, w.map6, w.cache)
    requires Lookup4(cfg, w.map4, w.map6, a) == Found(b, true)
    ensures var (r, c) := Publish(w, a, b);
            && r == w.(cache := r.cache, active := r.active, spare := r.spare)
            && SlotsOk(cfg, r.cache, r.active, r.spare) && Coherent(cfg, r.map4, r.map6, r.cache)
            && Grew(w.cache, r.cache, c, a, w.now)
  {
    hide Lookup4, EntriesAdmitted, NoDup, Grew;
    match FindPair(w.active, w.cache, a, b)
    case Some(s) =>
      GrewByTouch(w.cache, s, w.now);
      SamePairsKeep(cfg, w, Publish(w, a, b).0.cache);
    case None =>
      NotCached(cfg, w, a, b);
      if w.spare != [] {
        PublishNew(cfg, w, a, b);
        assert w.spare[0] in w.spare;
        GrewByEntry(w.cache, w.spare[0], a, b, w.now);
      } else {
        GrewByEntry(w.cache, cfg.cacheSize, a, b, w.now);
      }
  }

  lemma NotCached(cfg: Config, w: World, a: Ip4, b: Ip6)
    requires EntriesAdmitted(w.map4, w.map6)
    requires SlotsOk(cfg, w.cache, w.active, w.spare) && Coherent(cfg, w.map4, w.map6, w.cache)
    requires Lookup4(cfg, w.map4, w.map6, a) == Found(b, true)
    requires FindPair(w.active, w.cache, a, b) == None
    ensures forall s :: s in w.cache ==> w.cache[s].a4 != a
  {
    hide Lookup4, EntriesAdmitted, NoDup, FindPair;
  }

  /** The rest of a lookup that went through a static map or the NAT64 prefix. */
  function ServeStatic(cfg: Config, w: World, a: Ip4, b: Ip6, cachePair: bool): (r: World)
  {
    if cfg.cacheSize > 0 && cachePair then Publish(w, a, b).0 else w
  }

  lemma StaticLinks(leases: map<Ip4, Lease>, mapped: seq<Ip4>, lastPacket: map<Ip4, int>,
                    old0: map<nat, Entry>, cache: map<nat, Entry>, c: Option<nat>, a: Ip4, now: int)
    requires Linked(leases, mapped, old0) && Stamped(leases, old0, lastPacket)
    requires Grew(old0, cache, c, a, now) && a !in mapped
    ensures Linked(leases, mapped, cache) && Stamped(leases, cache, lastPacket)
  {
  }

  lemma ServeStaticKeepsInv(cfg: Config, w: World, a: Ip4, b: Ip6, cachePair: bool)
    requires Inv(cfg, w)
    requires cachePair ==> a !in w.mapped && Lookup4(cfg, w.map4, w.map6, a) == Found(b, true)
    ensures Inv(cfg, ServeStatic(cfg, w, a, b, cachePair))
  {
    hide Ordered4, Disjoint6, Paired, SelfPlaced, EntriesAdmitted, PoolOk, Lookup4, Publish, SlotsOk, Coherent,
         Linked, Stamped, Grew;
    if cfg.cacheSize > 0 && cachePair {
      PublishEffect(cfg, w, a, b);
      var (r, c) := Publish(w, a, b);
      StaticLinks(w.leases, w.mapped, w.lastPacket, w.cache, r.cache, c, a, w.now);
    }
  }

  function Flag(cache: map<nat, Entry>, c: Option<nat>): (r: map<nat, Entry>) {
    if c.Some? && c.value in cache then cache[c.value := cache[c.value].(flagged := true)] else cache
  }

  /** The rest of a lookup that went through the lease at a: it is used now, and
      remembers the cache entry that will see its next packets. */
  function ServeLease(cfg: Config, w: World, a: Ip4): (r: World)
    requires a in w.leases
  {
    var b := w.leases[a].a6;
    if cfg.cacheSize == 0 then
      w.(leases := w.leases[a := w.leases[a].(lastUse := w.now)], lastPacket := w.lastPacket[a := w.now])
    else
      var (w2, c) := Publish(w, a, b);
      w2.(leases := w.leases[a := Lease(b, w.now, c)], cache := Flag(w2.cache, c),
          lastPacket := w.lastPacket[a := w.now])
  }

  /** `Stamped` for every lease but a. */
  ghost predicate StampedBut(leases: map<Ip4, Lease>, cache: map<nat, Entry>, lastPacket: map<Ip4, int>, a: Ip4) {
    && lastPacket.Keys == leases.Keys
    && forall x :: x in leases && x != a ==>
      match leases[x].slot
      case None => leases[x].lastUse == lastPacket[x]
      case Some(s) => s in cache && cache[s].lastUse == lastPacket[x]
  }

  /** Everything the invariant says but the stamp of lease a, which is about to be renewed. */
  ghost predicate InvButStamp(cfg: Config, w: World, a: Ip4) {
    && TablesOk(cfg, w.map4, w.map6)
    && PoolOk(cfg, w.map4, w.runs, w.leases, w.mapped, w.dormant)
    && SlotsOk(cfg, w.cache, w.active, w.spare)
    && Coherent(cfg, w.map4, w.map6, w.cache)
    && Linked(w.leases, w.mapped, w.cache)
    && a in w.mapped
    && StampedBut(w.leases, w.cache, w.lastPacket, a)
  }

  lemma LeaseLinks(leases: map<Ip4, Lease>, mapped: seq<Ip4>, lastPacket: map<Ip4, int>,
                   old0: map<nat, Entry>, cache: map<nat, Entry>, c: Option<nat>, a: Ip4, now: int)
    requires Linked(leases, mapped, old0) && StampedBut(leases, old0, lastPacket, a)
    requires Grew(old0, cache, c, a, now) && a in mapped && a in leases
    ensures var leases' := leases[a := Lease(leases[a].a6, now, c)];
            && Linked(leases', mapped, Flag(cache, c))
            && Stamped(leases', Flag(cache, c), lastPacket[a := now])
  {
  }

  lemma UncachedLinks(leases: map<Ip4, Lease>, mapped: seq<Ip4>, lastPacket: map<Ip4, int>,
                      cache: map<nat, Entry>, a: Ip4, now: int)
    requires Linked(leases, mapped, cache) && StampedBut(leases, cache, lastPacket, a)
    requires a in mapped && a in leases && forall s :: s !in cache
    ensures var leases' := leases[a := leases[a].(lastUse := now)];
            Linked(leases', mapped, cache) && Stamped(leases', cache, lastPacket[a := now])
  {
  }

  lemma ServeLeaseKeepsInv(cfg: Config, w: World, a: Ip4)
    requires InvButStamp(cfg, w, a)
    ensures a in w.leases
    ensures Inv(cfg, ServeLease(cfg, w, a))
    ensures ServeLease(cfg, w, a).lastPacket == w.lastPacket[a := w.now]
  {
    hide Ordered4, Disjoint6, Paired, SelfPlaced, EntriesAdmitted, PoolTiled, PoolOwns, Sorted, Lookup4, Publish,
         SlotsOk, Coherent, NoDup, Linked, Stamped, StampedBut, Grew;
    var r := ServeLease(cfg, w, a);
    MappedIsFound(cfg, w, a);
    if cfg.cacheSize > 0 {
      var (w2, c) := Publish(w, a, w.leases[a].a6);
      PublishEffect(cfg, w, a, w.leases[a].a6);
      SamePairsKeep(cfg, w2, Flag(w2.cache, c));
      LeaseLinks(w.leases, w.mapped, w.lastPacket, w.cache, w2.cache, c, a, w.now);
    } else {
      NoSlots(cfg, w);
      UncachedLinks(w.leases, w.mapped, w.lastPacket, w.cache, a, w.now);
    }
    RestampKeepsPool(cfg, w, a, r.leases);
  }

  lemma NoSlots(cfg: Config, w: World)
    requires SlotsOk(cfg, w.cache, w.active, w.spare) && cfg.cacheSize == 0
    ensures forall s :: s !in w.cache
  {
  }

  /** Changing a mapped lease's stamp or slot leaves the pool as it is. */
  lemma RestampKeepsPool(cfg: Config, w: World, a: Ip4, leases: map<Ip4, Lease>)
    requires PoolOk(cfg, w.map4, w.runs, w.leases, w.mapped, w.dormant) && a in w.mapped
    requires leases.Keys == w.leases.Keys && leases[a].a6 == w.leases[a].a6
    requires forall x :: x in leases && x != a ==> leases[x] == w.leases[x]
    ensures PoolOk(cfg, w.map4, w.runs, leases, w.mapped, w.dormant)
  {
    hide Tiles, NoDup;
    assert a !in w.dormant;
    assert forall x :: x in w.leases <==> x in leases;
  }

  // ------------------------------------------------------------ ageing

  /** `report_ageout`, then the slot goes back to the spare ones. */
  function Retire(w: World, s: nat): (r: World)
    requires s in w.cache
  {
    var e := w.cache[s];
    var a := e.a4;
    var leases :=
      if e.flagged && FindMap4(w.map4, a).Some? && FindMap4(w.map4, a).value.Host? &&
         a in w.leases && w.leases[a].slot == Some(s)
      then w.leases[a := w.leases[a].(lastUse := e.lastUse, slot := None)]
      else w.leases;
    w.(leases := leases, cache := w.cache - {s}, active := Remove(w.active, s), spare := [s] + w.spare)
  }

  ghost predicate OnePerAddress(cache: map<nat, Entry>) {
    forall s, t :: s in cache && t in cache && cache[s].a4 == cache[t].a4 ==> s == t
  }

  /** The invariant without the agreement of cache and tables, as it stands while a
      reload has changed the tables and not yet flushed the cache. */
  ghost predicate Flushable(cfg: Config, w: World) {
    && TablesOk(cfg, w.map4, w.map6)
    && PoolOk(cfg, w.map4, w.runs, w.leases, w.mapped, w.dormant)
    && SlotsOk(cfg, w.cache, w.active, w.spare)
    && OnePerAddress(w.cache)
    && Linked(w.leases, w.mapped, w.cache)
    && Stamped(w.leases, w.cache, w.lastPacket)
  }

  lemma RetireKeepsSlots(cfg: Config, w: World, s: nat)
    requires SlotsOk(cfg, w.cache, w.active, w.spare) && s in w.cache
    ensures SlotsOk(cfg, w.cache - {s}, Remove(w.active, s), [s] + w.spare)
  {
    hide NoDup, Remove;
    RemoveNoDup(w.active, s);
    assert s !in w.spare;
    NoDupCons(s, w.spare);
    assert forall x :: x in [s] + w.spare <==> x == s || x in w.spare;
  }

  lemma RetireKeepsCoherent(cfg: Config, w: World, s: nat)
    requires EntriesAdmitted(w.map4, w.map6) && Coherent(cfg, w.map4, w.map6, w.cache)
    ensures Coherent(cfg, w.map4, w.map6, w.cache - {s})
  {
    hide Lookup4, EntriesAdmitted;
  }

  lemma RetireLinks(leases: map<Ip4, Lease>, mapped: seq<Ip4>, cache: map<nat, Entry>, lastPacket: map<Ip4, int>, s: nat)
    requires Linked(leases, mapped, cache) && Stamped(leases, cache, lastPacket) && s in cache
    requires forall t :: t in cache && cache[t].a4 == cache[s].a4 ==> t == s
    ensures var a := cache[s].a4;
            if a in mapped then
              a in leases &&
              var leases' := leases[a := leases[a].(lastUse := cache[s].lastUse, slot := None)];
              Linked(leases', mapped, cache - {s}) && Stamped(leases', cache - {s}, lastPacket)
            else
              Linked(leases, mapped, cache - {s}) && Stamped(leases, cache - {s}, lastPacket)
  {
  }

  lemma OnlyEntry(cache: map<nat, Entry>, s: nat)
    requires OnePerAddress(cache) && s in cache
    ensures forall t :: t in cache && cache[t].a4 == cache[s].a4 ==> t == s
    ensures OnePerAddress(cache - {s})
  {
  }

  lemma RetireKeepsFlushable(cfg: Config, w: World, s: nat)
    requires Flushable(cfg, w) && s in w.cache
    ensures Flushable(cfg, Retire(w, s))
  {
    hide Ordered4, Disjoint6, Paired, SelfPlaced, EntriesAdmitted, PoolTiled, PoolOwns, Sorted, Lookup4,
         SlotsOk, Stamped, NoDup, FindMap4, OnePerAddress;
    var a := w.cache[s].a4;
    OnlyEntry(w.cache, s);
    RetireKeepsSlots(cfg, w, s);
    RetireLinks(w.leases, w.mapped, w.cache, w.lastPacket, s);
    if a in w.mapped {
      MappedIsFound(cfg, w, a);
      RestampKeepsPool(cfg, w, a, Retire(w, s).leases);
    }
  }

  lemma RetireKeepsInv(cfg: Config, w: World, s: nat)
    requires Inv(cfg, w) && s in w.cache
    ensures Inv(cfg, Retire(w, s))
  {
    hide Ordered4, Disjoint6, Paired, SelfPlaced, EntriesAdmitted, PoolOk, Lookup4, SlotsOk, Stamped, Linked, FindMap4;
    RetireKeepsFlushable(cfg, w, s);
    RetireKeepsCoherent(cfg, w, s);
  }

  predicate Expired(w: World, s: nat)
    requires s in w.cache
  {
    w.cache[s].lastUse + CACHE_MAX_AGE < w.now
  }

  /** `addrmap_maint`: the entries of the list that are too old retire, in list order. */
  function AgeList(w: World, list: seq<nat>): (r: World)
    decreases list
  {
    if list == [] then w
    else if list[0] in w.cache && Expired(w, list[0]) then AgeList(Retire(w, list[0]), list[1..])
    else AgeList(w, list[1..])
  }

  function RetireList(w: World, list: seq<nat>): (r: World)
    decreases list
  {
    if list == [] then w
    else if list[0] in w.cache then RetireList(Retire(w, list[0]), list[1..])
    else RetireList(w, list[1..])
  }

  /** Retiring every active entry leaves an empty cache and no lease that points into it. */
  lemma {:induction false} FlushKeeps(cfg: Config, w: World, list: seq<nat>)
    requires Flushable(cfg, w) && forall s :: s in w.cache ==> s in list
    ensures var v := RetireList(w, list);
            && Inv(cfg, v) && v.cache == map[]
            && v.map4 == w.map4 && v.map6 == w.map6 && v.runs == w.runs && v.leases.Keys == w.leases.Keys
            && v.mapped == w.mapped && v.dormant == w.dormant && v.lastPacket == w.lastPacket && v.now == w.now
    decreases list
  {
    hide TablesOk, PoolOk, SlotsOk, Linked, Stamped, OnePerAddress;
    if list == [] {
      assert w.cache == map[];
      EmptyIsCoherent(cfg, w);
    } else {
      assert forall s :: s in list <==> s == list[0] || s in list[1..];
      if list[0] in w.cache {
        RetireKeepsFlushable(cfg, w, list[0]);
        FlushKeeps(cfg, Retire(w, list[0]), list[1..]);
      } else {
        FlushKeeps(cfg, w, list[1..]);
      }
    }
  }

  lemma EmptyIsCoherent(cfg: Config, w: World)
    requires TablesOk(cfg, w.map4, w.map6) && w.cache == map[]
    ensures Coherent(cfg, w.map4, w.map6, w.cache)
  {
  }

  lemma {:induction false} AgeListKeepsInv(cfg: Config, w: World, list: seq<nat>)
    requires Inv(cfg, w)
    ensures Inv(cfg, AgeList(w, list))
    ensures AgeList(w, list).lastPacket == w.lastPacket && AgeList(w, list).mapped == w.mapped
    ensures AgeList(w, list).leases.Keys == w.leases.Keys && AgeList(w, list).now == w.now
    decreases list
  {
    hide Inv;
    if list == [] {
    } else if list[0] in w.cache && Expired(w, list[0]) {
      RetireKeepsInv(cfg, w, list[0]);
      AgeListKeepsInv(cfg, Retire(w, list[0]), list[1..]);
    } else {
      AgeListKeepsInv(cfg, w, list[1..]);
    }
  }

  /** After maintenance no entry of the list is left that was too old. */
  lemma {:induction false} AgeListLeavesFresh(w: World, list: seq<nat>)
    ensures forall s :: s in AgeList(w, list).cache ==>
              s in w.cache && AgeList(w, list).cache[s] == w.cache[s] && (s in list ==> !Expired(w, s))
    ensures forall s :: s in w.cache && !Expired(w, s) ==> s in AgeList(w, list).cache
    decreases list
  {
    if list == [] {
    } else if list[0] in w.cache && Expired(w, list[0]) {
      AgeListLeavesFresh(Retire(w, list[0]), list[1..]);
    } else {
      AgeListLeavesFresh(w, list[1..]);
    }
  }
}
