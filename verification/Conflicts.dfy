/** What goes wrong after a reload that puts a map inside the pool over a leased address. */
module Conflicts {
  import opened Bits
  import opened Wrappers
  import opened Lists
  import opened AddressTables
  import opened Translate
  import opened Coherence
  import opened FreeRuns
  import opened HostEntries
  import opened MapState
  import opened CacheSteps
  import opened PoolSteps
  import opened Maintenance
  import opened Reload
  import opened Lookups
  import opened MapRuns

  // ------------------------------------------------------------ tables exchanged under a sound state

  /** v is the sound state x, its cache empty, with other tables that agree on the mapped
      leases and whose configured entries are those of x. */
  ghost predicate Grafted(cfg: Config, x: World, v: World) {
    && Inv(cfg, x) && x.cache == map[]
    && v == x.(map4 := v.map4, map6 := v.map6)
    && TablesOk(cfg, v.map4, v.map6)
    && HostsMatch(v.map4, v.leases, v.mapped)
    && (forall n :: n in v.map4 && !n.Host? && !FileMap(n) ==> n in x.map4)
  }

  lemma RetireCommutes(cfg: Config, w: World, n4: seq<Mapping>, n6: seq<Mapping>, s: nat)
    requires Flushable(cfg, w) && TablesOk(cfg, n4, n6) && HostsMatch(n4, w.leases, w.mapped) && s in w.cache
    ensures Retire(w.(map4 := n4, map6 := n6), s) == Retire(w, s).(map4 := n4, map6 := n6)
    ensures HostsMatch(n4, Retire(w, s).leases, Retire(w, s).mapped)
  {
    hide Ordered4, Disjoint6, Paired, SelfPlaced, EntriesAdmitted, PoolTiled, PoolOwns, Sorted, Listed, Lookup4,
         SlotsOk, Stamped, FindMap4, OnePerAddress, Remove;
    var a := w.cache[s].a4;
    if a in w.mapped {
      MappedIsFound(cfg, w, a);
      MappedIsFound(cfg, w.(map4 := n4, map6 := n6), a);
    }
  }

  lemma {:induction false} RetireListCommutes(cfg: Config, w: World, n4: seq<Mapping>, n6: seq<Mapping>, list: seq<nat>)
    requires Flushable(cfg, w) && TablesOk(cfg, n4, n6) && HostsMatch(n4, w.leases, w.mapped)
    ensures RetireList(w.(map4 := n4, map6 := n6), list) == RetireList(w, list).(map4 := n4, map6 := n6)
    ensures HostsMatch(n4, RetireList(w, list).leases, RetireList(w, list).mapped)
    decreases list
  {
    hide Flushable, TablesOk, HostsMatch, Retire;
    if list == [] {
    } else if list[0] in w.cache {
      RetireCommutes(cfg, w, n4, n6, list[0]);
      RetireKeepsFlushable(cfg, w, list[0]);
      RetireListCommutes(cfg, Retire(w, list[0]), n4, n6, list[1..]);
    } else {
      RetireListCommutes(cfg, w, n4, n6, list[1..]);
    }
  }

  /** A reload of any accepted file flushes the cache of the state it found and exchanges the tables. */
  lemma ReloadGrafts(cfg: Config, w: World, rows: seq<Mapping>)
    requires Inv(cfg, w) && RowsOk(rows) && forall m :: m in rows ==> !m.Pool?
    ensures var s := Survivors(w.map4, w.map6, StageAll(rows));
            var v := ReloadFile(w, rows, false);
            var x := RetireList(w, w.active);
            && Grafted(cfg, x, v)
            && v.mapped == w.mapped && v.dormant == w.dormant && v.now == w.now && v.lastPacket == w.lastPacket
            && v.leases.Keys == w.leases.Keys
            && (forall m :: m in v.map4 <==> (m in w.map4 && !FileMap(m)) || m in s)
            && (forall m :: m in v.map6 <==> (m in w.map6 && !FileMap(m)) || m in s)
            && (forall m :: m in s ==> RowOk(m))
  {
    hide Flushable, TablesOk, RetireList, StageAll, Survivors, InsertAll, NeverFails, RowOk, WithoutFile, PoolTiled, PoolOwns, Sorted,
         Listed, SlotsOk, Coherent, Linked, Stamped;
    var s := Survivors(w.map4, w.map6, StageAll(rows));
    var (n4, n6) := CommitTables(w, s);
    CommitTablesOk(cfg, w, rows);
    InvIsFlushable(cfg, w);
    CommittedHosts(w, n4, s);
    RowsAreFile(s);
    RetireListCommutes(cfg, w, n4, n6, w.active);
    FlushKeeps(cfg, w, w.active);
  }

  lemma InvIsFlushable(cfg: Config, w: World)
    requires Inv(cfg, w)
    ensures Flushable(cfg, w) && (forall s :: s in w.cache ==> s in w.active) && HostsMatch(w.map4, w.leases, w.mapped)
  {
    CoherentHasOne(cfg, w);
  }

  lemma RowsAreFile(s: seq<Mapping>)
    requires forall m :: m in s ==> RowOk(m)
    ensures forall m :: m in s ==> FileMap(m)
  {
    hide Admitted, Validate4;
  }

  lemma CommittedHosts(w: World, n4: seq<Mapping>, s: seq<Mapping>)
    requires HostsMatch(w.map4, w.leases, w.mapped) && forall m :: m in s ==> RowOk(m)
    requires forall m :: m in n4 <==> (m in w.map4 && !FileMap(m)) || m in s
    ensures HostsMatch(n4, w.leases, w.mapped)
  {
    hide Admitted, Validate4;
  }

  // ------------------------------------------------------------ maintenance under exchanged tables

  /** The tables of u are those of v, some host entries apart that v had in addition. */
  ghost predicate Thinned(v: World, u: World) {
    && (forall n :: n in u.map4 ==> n in v.map4) && (forall n :: n in v.map4 && !n.Host? ==> n in u.map4)
    && (forall n :: n in u.map6 ==> n in v.map6) && (forall n :: n in v.map6 && !n.Host? ==> n in u.map6)
  }

  lemma SleepOneGrafts(cfg: Config, x: World, v: World, a: Ip4)
    requires Grafted(cfg, x, v) && a in x.mapped && a in x.leases && Idle(cfg, x, a)
    ensures Grafted(cfg, Settle(Leave(x, a), a), Settle(Leave(v, a), a))
    ensures Thinned(v, Settle(Leave(v, a), a))
    ensures Settle(Leave(x, a), a).mapped == Remove(x.mapped, a)
  {
    hide Inv, TablesOk, Remove, DormantPos;
    var h := Host(a, v.leases[a].a6);
    SleepOneKeeps(cfg, x, a);
    DropHostKeepsTables(cfg, v.map4, v.map6, h);
  }

  lemma {:induction false} SleepListGrafts(cfg: Config, x: World, v: World, list: seq<Ip4>)
    requires Grafted(cfg, x, v) && NoDup(list) && forall a :: a in list ==> a in x.mapped
    ensures Grafted(cfg, SleepList(cfg, x, list), SleepList(cfg, v, list))
    ensures Thinned(v, SleepList(cfg, v, list))
    decreases list
  {
    hide Inv, TablesOk, HostsMatch, Drop4, Remove, DormantPos;
    if list == [] {
    } else {
      var a, t := list[0], list[1..];
      PoolFacts(cfg, x);
      assert forall y :: y in list <==> y == a || y in t;
      assert a !in t;
      if Idle(cfg, x, a) {
        SleepOneGrafts(cfg, x, v, a);
        SleepListGrafts(cfg, Settle(Leave(x, a), a), Settle(Leave(v, a), a), t);
      } else {
        SleepListGrafts(cfg, x, v, t);
      }
    }
  }

  lemma FreeOneGrafts(cfg: Config, x: World, v: World, a: Ip4)
    requires Grafted(cfg, x, v) && a in x.dormant
    ensures Grafted(cfg, Release(TakeDormant(x, a), a), Release(TakeDormant(v, a), a))
    ensures Release(TakeDormant(v, a), a).map4 == v.map4 && Release(TakeDormant(v, a), a).map6 == v.map6
  {
    hide Inv, TablesOk, Remove, HeadIndex, Merge;
    PoolFacts(cfg, x);
    ReleasedIsSound(cfg, x, a);
  }

  lemma ReleasedIsSound(cfg: Config, x: World, a: Ip4)
    requires Inv(cfg, x) && a in x.dormant
    ensures Inv(cfg, Release(TakeDormant(x, a), a))
    ensures Release(TakeDormant(x, a), a).leases == x.leases - {a} && Release(TakeDormant(x, a), a).mapped == x.mapped
  {
    hide Inv;
    FreeOneKeeps(cfg, x, a);
  }

  lemma {:induction false} FreeOldGrafts(cfg: Config, x: World, v: World)
    requires Grafted(cfg, x, v)
    ensures Grafted(cfg, FreeOld(cfg, x), FreeOld(cfg, v))
    ensures FreeOld(cfg, v).map4 == v.map4 && FreeOld(cfg, v).map6 == v.map6
    decreases |x.dormant|
  {
    hide Inv, TablesOk, HostsMatch, Release, TakeDormant;
    if x.dormant == [] {
    } else {
      var a := x.dormant[|x.dormant| - 1];
      PoolFacts(cfg, x);
      assert a in x.dormant;
      FreeOneGrafts(cfg, x, v, a);
      SameLists(x, v, a);
      if !(x.leases[a].lastUse + cfg.maxLease >= x.now || |Release(TakeDormant(x, a), a).dormant| >= |x.dormant|) {
        FreeOldGrafts(cfg, Release(TakeDormant(x, a), a), Release(TakeDormant(v, a), a));
      }
    }
  }

  lemma SameLists(x: World, v: World, a: Ip4)
    requires v == x.(map4 := v.map4, map6 := v.map6)
    ensures Release(TakeDormant(v, a), a).dormant == Release(TakeDormant(x, a), a).dormant
  {
    hide Remove, HeadIndex, Merge;
  }

  lemma MaintainGrafts(cfg: Config, x: World, v: World)
    requires Grafted(cfg, x, v)
    ensures Grafted(cfg, Maintain(cfg, x), Maintain(cfg, v)) && Thinned(v, Maintain(cfg, v))
  {
    hide Inv, TablesOk, HostsMatch, SleepList, FreeOld;
    MappedIsNoDup(cfg, x);
    SleepListGrafts(cfg, x, v, x.mapped);
    FreeOldGrafts(cfg, SleepList(cfg, x, x.mapped), SleepList(cfg, v, v.mapped));
  }

  // ------------------------------------------------------------ a dormant lease under a file map

  /** The lease is dormant, and m, more specific than the pool, is the file's answer for its address. */
  ghost predicate Shadowed(cfg: Config, x: World, v: World, a: Ip4, m: Mapping) {
    && Grafted(cfg, x, v) && a in v.dormant && a in v.leases && a !in v.mapped
    && Foremost(v.map4, a, m) && cfg.pool.Some? && m.Length4() > cfg.pool.value.Length4()
  }

  lemma SameLengthSameEntry(s: seq<Mapping>, m: Mapping, n: Mapping, a: Ip4)
    requires Ordered4(s) && m in s && n in s && m.Covers4(a) && n.Covers4(a) && m.Length4() == n.Length4()
    ensures m == n
  {
    hide ClearLow;
    assert m.SameKey4(n) && n.SameKey4(m);
  }

  lemma ConfiguredIsShorter(cfg: Config, x: World, v: World, a: Ip4, m: Mapping, n: Mapping)
    requires Shadowed(cfg, x, v, a, m) && n in v.map4 && n.Covers4(a) && !FileMap(n)
    ensures n.Length4() < m.Length4() && !n.Host?
  {
    hide TablesOk, ClearLow, SlotsOk, Coherent, Linked, Stamped, PoolTiled, Listed, Sorted, Foremost;
    if n.Host? {
      HostCovers4(n, a);
    }
  }

  /** An IPv4 packet to the lease's address is answered by m. */
  lemma ShadowAnswers(cfg: Config, x: World, v: World, a: Ip4, m: Mapping)
    requires Shadowed(cfg, x, v, a, m)
    ensures FindMap4(v.map4, a) == Some(m) && m in v.map4 && m in v.map6 && m.Covers4(a) && FileMap(m) && Admitted(m)
  {
    hide Inv, ClearLow, FindMap4, Ordered4, Disjoint6, SelfPlaced, HostsMatch, Admitted;
    forall n | n in v.map4 && n.Covers4(a) && n != m ensures n.Length4() < m.Length4() {
      if FileMap(n) {
        if n.Length4() == m.Length4() {
          SameLengthSameEntry(v.map4, n, m, a);
        }
      } else {
        ConfiguredIsShorter(cfg, x, v, a, m, n);
      }
    }
    FirstIsLongest(v.map4, a, m);
  }

  /** With equal widths the answer may be published. */
  lemma ShadowIsCacheable(cfg: Config, x: World, v: World, a: Ip4, m: Mapping)
    requires Shadowed(cfg, x, v, a, m) && m.l4 < 32 && !NeverCached(m)
    ensures Admitted(m) && Lookup4(cfg, v.map4, v.map6, a) == Found(Embed(m, a), true)
    ensures m in v.map6 && m.Covers6(Embed(m, a))
  {
    hide Inv, ClearLow, FindMap4, FindMap6, Ordered4, Disjoint6, HostsMatch, Foremost, Aligned, Low, Shl, Pow2, Valid6;
    ShadowAnswers(cfg, x, v, a, m);
    var b := Embed(m, a);
    ValidOnWholeRange(m, b);
    MatchIsUnique6(v.map6, b, m);
    assert !m.Covers6(cfg.local6);
  }

  lemma EmptyCache(cfg: Config, x: World)
    requires Inv(cfg, x) && x.cache == map[] && cfg.cacheSize > 0
    ensures x.active == [] && x.spare != []
  {
    hide TablesOk, PoolOk, Coherent, Linked, Stamped, NoDup;
    FirstIsIn(x.active);
  }

  /** An IPv4 packet then publishes the file's pair. */
  lemma PacketPublishes(cfg: Config, x: World, v: World, a: Ip4, m: Mapping)
    requires Shadowed(cfg, x, v, a, m) && m.l4 < 32 && !NeverCached(m) && cfg.cacheSize > 0
    ensures EntriesAdmitted(v.map4, v.map6) && Admitted(m)
    ensures v.spare != [] && v.active == []
    ensures var s := v.spare[0];
            Resolve4(cfg, v, a).0 ==
              v.(cache := map[s := Entry(a, Embed(m, a), v.now, false)], active := [s], spare := v.spare[1..])
  {
    hide Inv, FindMap4, FindMap6, Ordered4, Disjoint6, SelfPlaced, Paired, HostsMatch, Foremost, Lookup4, Embed;
    ShadowAnswers(cfg, x, v, a, m);
    ShadowIsCacheable(cfg, x, v, a, m);
    EmptyCache(cfg, x);
    var s := v.spare[0];
    assert v.cache[s := Entry(a, Embed(m, a), v.now, false)] == map[s := Entry(a, Embed(m, a), v.now, false)];
    assert [s] + v.active == [s];
  }

  // ------------------------------------------------------------ the lease's host returns

  /** The lease fits the tables again, unless m is for its address alone. */
  lemma ReturnEnters(cfg: Config, x: World, v: World, a: Ip4, m: Mapping)
    requires Shadowed(cfg, x, v, a, m) && EntriesAdmitted(v.map4, v.map6)
    requires FindMap6(v.map6, v.leases[a].a6) == None
    ensures var h := Host(a, v.leases[a].a6); Fits6(v.map6, h) && (Fits4(v.map4, h) <==> m.l4 < 32)
  {
    hide Inv, Ordered4, Disjoint6, SelfPlaced, Paired, Admitted, ClearLow, FindMap4;
    var h := Host(a, v.leases[a].a6);
    ShadowAnswers(cfg, x, v, a, m);
    forall n | n in v.map4 && n.SameKey4(h) ensures m.l4 == 32 {
      HostCovers4(h, a);
      assert n.Covers4(a);
      if !FileMap(n) {
        ConfiguredIsShorter(cfg, x, v, a, m, n);
      }
    }
    if m.l4 == 32 {
      HostCovers4(h, a);
      assert m.SameKey4(h);
    }
  }

  lemma OwnDormant(cfg: Config, x: World, v: World, a: Ip4)
    requires Grafted(cfg, x, v) && a in v.dormant && a in v.leases
    ensures FindDormant(v.dormant, v.leases, v.leases[a].a6) == Some(a)
  {
    hide TablesOk, HostsMatch, PoolTiled, PoolOwns, Sorted, SlotsOk, Coherent, Linked, Stamped, NoDup;
  }

  /** The state after the host's packet: the lease is taken from the dormant list, entered
      into the tables as far as they take it, and served. */
  lemma ReturnServes(cfg: Config, v: World, a: Ip4)
    requires EntriesAdmitted(v.map4, v.map6) && a in v.leases && cfg.pool.Some?
    requires cfg.pool.value.Pool? && cfg.pool.value.poolLen <= 31 && PoolEnd(cfg.pool.value) <= 0x1_0000_0000
    requires forall y :: y in v.dormant ==> y in v.leases
    requires FindMap6(v.map6, v.leases[a].a6) == None
    requires FindDormant(v.dormant, v.leases, v.leases[a].a6) == Some(a)
    ensures Resolve6(cfg, v, v.leases[a].a6, true) == (ServeLease(cfg, Enter(TakeDormant(v, a), a), a), Found(a, true))
  {
    hide FindMap6, ServeLease, Admitted, FreeFor;
  }

  /** Publication of one pair leaves the pairs of other slots in place. */
  lemma ServeKeepsPairs(cfg: Config, q: World, a: Ip4, s: nat)
    requires a in q.leases && s in q.cache && q.cache[s].a6 != q.leases[a].a6 && s !in q.spare
    ensures var r := ServeLease(cfg, q, a);
            && s in r.cache && r.cache[s].a4 == q.cache[s].a4 && r.cache[s].a6 == q.cache[s].a6
            && r.map4 == q.map4 && r.map6 == q.map6 && r.mapped == q.mapped
  {
  }

  /** Some cached pair is not what the tables say. */
  ghost predicate Misled(cfg: Config, w: World) {
    && EntriesAdmitted(w.map4, w.map6)
    && exists s :: s in w.cache && Lookup4(cfg, w.map4, w.map6, w.cache[s].a4) != Found(w.cache[s].a6, true)
  }

  /** The conditions under which a packet of host b may take the lease of a. */
  lemma GraftedGives(cfg: Config, x: World, v: World)
    requires Grafted(cfg, x, v)
    ensures EntriesAdmitted(v.map4, v.map6) && forall n :: n in v.map6 ==> !n.Pool?
    ensures cfg.pool.Some? ==> cfg.pool.value.Pool? && cfg.pool.value.poolLen <= 31 && PoolEnd(cfg.pool.value) <= 0x1_0000_0000
    ensures forall y :: y in v.dormant ==> y in v.leases
    ensures NoDup(v.spare)
  {
    hide Coherent, Linked, Stamped, HostsMatch, Ordered4, Disjoint6, SelfPlaced, Paired;
  }

  /** An equal-width map over a dormant lease: a packet publishes the map's pair, the host
      returns and its lease takes the address back, and the pair stays in the cache. */
  lemma CacheableMisleads(cfg: Config, x: World, v: World, a: Ip4, m: Mapping)
    requires Shadowed(cfg, x, v, a, m) && m.l4 < 32 && !NeverCached(m) && cfg.cacheSize > 0
    requires Fits6(v.map6, Host(a, v.leases[a].a6))
    ensures EntriesAdmitted(v.map4, v.map6)
    ensures var u := Resolve4(cfg, v, a).0;
            && EntriesAdmitted(u.map4, u.map6) && (forall y :: y in u.dormant ==> y in u.leases)
            && cfg.pool.value.Pool? && cfg.pool.value.poolLen <= 31 && PoolEnd(cfg.pool.value) <= 0x1_0000_0000
            && Misled(cfg, Resolve6(cfg, u, v.leases[a].a6, true).0)
  {
    hide Inv, TablesOk, HostsMatch, Foremost, Resolve4, Resolve6, ServeLease, Lookup4, Embed, FindMap4, FindMap6, FindDormant,
         Ordered4, Add4, Add6, Fits4, Remove, Misled;
    var b := v.leases[a].a6;
    GraftedGives(cfg, x, v);
    ShadowAnswers(cfg, x, v, a, m);
    PacketPublishes(cfg, x, v, a, m);
    ShadowIsCacheable(cfg, x, v, a, m);
    OwnDormant(cfg, x, v, a);
    var u := Resolve4(cfg, v, a).0;
    ReturnServes(cfg, u, a);
    ReturnEnters(cfg, x, v, a, m);
    var q := Enter(TakeDormant(u, a), a);
    assert v.spare == [v.spare[0]] + v.spare[1..];
    NoDupHead(v.spare[0], v.spare[1..]);
    ServeKeepsPairs(cfg, q, a, v.spare[0]);
    PairIsStale(cfg, v, ServeLease(cfg, q, a), a, m, v.spare[0]);
  }

  lemma PairIsStale(cfg: Config, v: World, r: World, a: Ip4, m: Mapping, s: nat)
    requires TablesOk(cfg, v.map4, v.map6) && a in v.leases && Admitted(m) && m.Static?
    requires var h := Host(a, v.leases[a].a6);
             CanAddHost(v.map4, v.map6, h) && r.map4 == Add4(v.map4, h) && r.map6 == Add6(v.map6, h)
    requires s in r.cache && r.cache[s].a4 == a && r.cache[s].a6 == Embed(m, a) && Embed(m, a) != v.leases[a].a6
    ensures Misled(cfg, r)
  {
    hide TablesOk, FindMap4, FindMap6, Ordered4, Disjoint6, SelfPlaced, Paired, Add4, Add6, Embed, Append, Admitted, CanAddHost;
    AddHostFinds(cfg, v.map4, v.map6, Host(a, v.leases[a].a6), a, 0);
    TablesAdmit(cfg, r);
    assert Lookup4(cfg, r.map4, r.map6, r.cache[s].a4) == Found(v.leases[a].a6, true);
  }

  lemma TablesAdmit(cfg: Config, w: World)
    requires TablesOk(cfg, w.map4, w.map6)
    ensures EntriesAdmitted(w.map4, w.map6)
  {
  }

  /** A map for the address of a dormant lease: when the host returns it is given the
      address, but the IPv4 table has refused its entry, and packets to the address go
      where the map says. */
  lemma SingleAddressRefuses(cfg: Config, x: World, v: World, a: Ip4, m: Mapping)
    requires Shadowed(cfg, x, v, a, m) && m.l4 == 32
    requires Fits6(v.map6, Host(a, v.leases[a].a6))
    ensures EntriesAdmitted(v.map4, v.map6) && (forall y :: y in v.dormant ==> y in v.leases)
    ensures cfg.pool.value.Pool? && cfg.pool.value.poolLen <= 31 && PoolEnd(cfg.pool.value) <= 0x1_0000_0000
    ensures var (r, answer) := Resolve6(cfg, v, v.leases[a].a6, true);
            && answer == Found(a, true) && a in r.mapped && r.map4 == v.map4
            && FindMap4(r.map4, a) == Some(m) && !m.Covers6(v.leases[a].a6)
  {
    hide Inv, TablesOk, HostsMatch, Foremost, Resolve6, ServeLease, FindMap4, FindMap6, FindDormant, Ordered4, Add4, Add6, Fits4, Remove;
    GraftedGives(cfg, x, v);
    ShadowAnswers(cfg, x, v, a, m);
    OwnDormant(cfg, x, v, a);
    ReturnServes(cfg, v, a);
    ReturnEnters(cfg, x, v, a, m);
    var q := Enter(TakeDormant(v, a), a);
    ServeLeaseEntry(cfg, q, a);
    ServeLeaseFrame(cfg, q, a);
  }

  // ------------------------------------------------------------ from the reload on

  /** m is the committed row that `LeavesLeasesAlone` objects to on leased address a. */
  ghost predicate Objectionable(cfg: Config, w: World, rows: seq<Mapping>, a: Ip4, m: Mapping)
    requires forall n :: n in rows ==> !n.Pool?
  {
    && a in w.leases && Foremost(Survivors(w.map4, w.map6, StageAll(rows)), a, m)
    && !(cfg.pool.Some? && (m.Length4() <= cfg.pool.value.Length4() || NeverCached(m)))
  }

  lemma ObjectionableOverLease(cfg: Config, w: World, rows: seq<Mapping>, a: Ip4, m: Mapping)
    requires Inv(cfg, w) && RowsOk(rows) && (forall n :: n in rows ==> !n.Pool?) && Objectionable(cfg, w, rows, a, m)
    ensures cfg.pool.Some? && m.Length4() > cfg.pool.value.Length4() && !NeverCached(m) && m.Static?
    ensures a in w.mapped ==> m.l4 < 32
    ensures a in w.mapped || a in w.dormant
  {
    hide TablesOk, RowOk, PoolOwns, Sorted, SlotsOk, Coherent, Linked, Stamped, StageAll, Filter, ClearLow;
    PoolCovers(cfg, w.map4, w.runs, w.leases, a);
    if a in w.mapped && m.l4 == 32 {
      SingleConflicts(w, a, m);
    }
  }

  /** The map of a single address conflicts with the host entry for it. */
  lemma SingleConflicts(w: World, a: Ip4, m: Mapping)
    requires m.Static? && m.l4 == 32 && m.Covers4(a) && a in w.leases && Host(a, w.leases[a].a6) in w.map4
    ensures ConflictsFixed(w.map4, w.map6, m)
  {
    var h := Host(a, w.leases[a].a6);
    HostCovers4(h, a);
    assert h.SameKey4(m) && !FileMap(h);
  }

  lemma ReloadShadows(cfg: Config, w: World, rows: seq<Mapping>, a: Ip4, m: Mapping)
    requires Inv(cfg, w) && RowsOk(rows) && (forall n :: n in rows ==> !n.Pool?) && Objectionable(cfg, w, rows, a, m)
    ensures var v := ReloadFile(w, rows, false);
            && Grafted(cfg, RetireList(w, w.active), v) && Foremost(v.map4, a, m)
            && v.mapped == w.mapped && v.dormant == w.dormant && v.now == w.now && v.lastPacket == w.lastPacket
            && a in v.leases && v.leases[a].a6 == w.leases[a].a6
  {
    hide Inv, TablesOk, HostsMatch, RowOk, StageAll, Survivors, ReloadFile, RetireList, Foremost;
    ReloadGrafts(cfg, w, rows);
    var s := Survivors(w.map4, w.map6, StageAll(rows));
    RowsAreFile(s);
    SameForemost(ReloadFile(w, rows, false).map4, s, a, m);
    ReloadSame6(w, rows, false, a);
  }

  /** The observable failure over a dormant lease, whose host the new tables leave room for. */
  lemma ReloadOverDormantLease(cfg: Config, w: World, rows: seq<Mapping>, a: Ip4, m: Mapping)
    requires Inv(cfg, w) && RowsOk(rows) && (forall n :: n in rows ==> !n.Pool?) && Objectionable(cfg, w, rows, a, m)
    requires a in w.dormant && Fits6(ReloadFile(w, rows, false).map6, Host(a, w.leases[a].a6))
    requires m.Static? && m.l4 < 32 ==> cfg.cacheSize > 0
    ensures m.Static? && var v := ReloadFile(w, rows, false);
            && Ready(cfg, v) && Ready(cfg, Resolve4(cfg, v, a).0)
            && if m.l4 < 32 then
                 Misled(cfg, Resolve6(cfg, Resolve4(cfg, v, a).0, w.leases[a].a6, true).0)
               else
                 var (r, answer) := Resolve6(cfg, v, w.leases[a].a6, true);
                 answer == Found(a, true) && a in r.mapped && FindMap4(r.map4, a) == Some(m) && !m.Covers6(w.leases[a].a6)
  {
    hide Inv, TablesOk, HostsMatch, RowOk, StageAll, Survivors, ReloadFile, RetireList, Foremost, Resolve4, Resolve6, Misled,
         Objectionable, Admitted, Fits6, NeverCached, FindMap4;
    var v := ReloadFile(w, rows, false);
    var x := RetireList(w, w.active);
    ObjectionableOverLease(cfg, w, rows, a, m);
    ReloadShadows(cfg, w, rows, a, m);
    GraftedGives(cfg, x, v);
    DormantNotMapped(cfg, w, a);
    Resolve4Ready(cfg, v, a);
    if m.l4 < 32 {
      CacheableMisleads(cfg, x, v, a, m);
    } else {
      SingleAddressRefuses(cfg, x, v, a, m);
    }
  }

  /** Packets can be handled in this state. */
  ghost predicate Ready(cfg: Config, v: World) {
    && EntriesAdmitted(v.map4, v.map6)
    && (cfg.pool.Some? ==> cfg.pool.value.Pool? && cfg.pool.value.poolLen <= 31 && PoolEnd(cfg.pool.value) <= 0x1_0000_0000)
    && (forall y :: y in v.dormant ==> y in v.leases)
  }

  lemma Resolve4Ready(cfg: Config, v: World, a: Ip4)
    requires Ready(cfg, v)
    ensures Ready(cfg, Resolve4(cfg, v, a).0)
  {
    hide Lookup4, FindMap4, Admitted, FindPair;
  }

  lemma DormantNotMapped(cfg: Config, w: World, a: Ip4)
    requires Inv(cfg, w) && a in w.dormant
    ensures a !in w.mapped && a in w.leases
  {
  }

  /** When the idle lease is put to sleep. */
  function SleepTime(cfg: Config, w: World, a: Ip4): (t: int)
    requires a in w.lastPacket
  {
    if w.now > w.lastPacket[a] + cfg.minLease then w.now else w.lastPacket[a] + cfg.minLease + 1
  }

  /** The observable failure over a mapped lease: it goes dormant first. An overdue lease is
      freed instead, and without a cache there is no stale pair. */
  lemma ReloadOverMappedLease(cfg: Config, w: World, rows: seq<Mapping>, a: Ip4, m: Mapping)
    requires Inv(cfg, w) && RowsOk(rows) && (forall n :: n in rows ==> !n.Pool?) && Objectionable(cfg, w, rows, a, m)
    requires a in w.mapped && a in w.lastPacket
    requires cfg.cacheSize > 0 && cfg.minLease < cfg.maxLease && w.lastPacket[a] + cfg.maxLease >= w.now
    ensures var v := Maintain(cfg, ReloadFile(w, rows, false).(now := SleepTime(cfg, w, a)));
            && a in v.dormant && Ready(cfg, v) && Ready(cfg, Resolve4(cfg, v, a).0)
            && Misled(cfg, Resolve6(cfg, Resolve4(cfg, v, a).0, w.leases[a].a6, true).0)
  {
    hide Inv, TablesOk, HostsMatch, RowOk, StageAll, Survivors, ReloadFile, RetireList, Foremost, Resolve4, Resolve6, Misled,
         Objectionable, Admitted, Fits6, NeverCached, Maintain;
    var t := SleepTime(cfg, w, a);
    var x0, v0 := RetireList(w, w.active).(now := t), ReloadFile(w, rows, false).(now := t);
    var x, v := Maintain(cfg, x0), Maintain(cfg, v0);
    ObjectionableOverLease(cfg, w, rows, a, m);
    ReloadShadows(cfg, w, rows, a, m);
    TickKeepsInv(cfg, RetireList(w, w.active), t);
    MaintainGrafts(cfg, x0, v0);
    FallsAsleep(cfg, x0, x, a);
    RoomForHost(cfg, v0, v, x, a);
    HostsLeaveForemost(v0.map4, v.map4, a, m);
    GraftedGives(cfg, x, v);
    Resolve4Ready(cfg, v, a);
    CacheableMisleads(cfg, x, v, a, m);
  }

  lemma FallsAsleep(cfg: Config, x0: World, x: World, a: Ip4)
    requires Inv(cfg, x0) && x0.cache == map[] && x == Maintain(cfg, x0)
    requires a in x0.mapped && a in x0.lastPacket
    requires x0.lastPacket[a] + cfg.minLease < x0.now <= x0.lastPacket[a] + cfg.maxLease
    ensures Inv(cfg, x) && a in x.dormant && a !in x.mapped && a in x0.leases && a in x.leases && x.leases[a].a6 == x0.leases[a].a6
  {
    hide Inv, Maintain;
    PoolFacts(cfg, x0);
    NoSlotWhenEmpty(cfg, x0, a);
    MaintainKeepsInv(cfg, x0);
    MaintainSame(cfg, x0, a);
    LeasesListed(cfg, x);
  }

  lemma NoSlotWhenEmpty(cfg: Config, x: World, a: Ip4)
    requires Inv(cfg, x) && x.cache == map[] && a in x.leases
    ensures x.leases[a].slot == None
  {
  }

  /** Nothing else covers the host's address when its own entry has gone. */
  lemma RoomForHost(cfg: Config, v0: World, v: World, x: World, a: Ip4)
    requires TablesOk(cfg, v0.map4, v0.map6) && HostsMatch(v0.map4, v0.leases, v0.mapped) && a in v0.mapped
    requires Grafted(cfg, x, v) && Thinned(v0, v) && a !in v.mapped
    ensures Fits6(v.map6, Host(a, v0.leases[a].a6))
  {
    hide Inv, Ordered4, Disjoint6, SelfPlaced, FindMap6, ClearLow;
    var h := Host(a, v0.leases[a].a6);
    HostCovers(h, a, h.h6);
    forall n | n in v.map6 ensures !n.Pool? && !n.Covers6(h.h6) {
      MatchIsUnique6(v0.map6, h.h6, h);
      MatchIsUnique6(v0.map6, h.h6, n);
    }
  }
}
