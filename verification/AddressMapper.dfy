/** The translator's shared state as the program keeps it: tables, free runs, lease
    lists, and a cache of slots threaded through two hash tables. Each method is one
    lock region, and each is proved to take the step of the same name in MapRuns. */
module AddressMapper {
  import opened Bits
  import opened Wrappers
  import opened Lists
  import opened AddressTables
  import opened Translate
  import opened Coherence
  import opened FreeRuns
  import opened HostEntries
  import opened MapState
  import opened CacheSteps
  import opened PoolSteps
  import opened Maintenance
  import opened Reload
  import opened Lookups
  import opened MapRuns
  import L = Loading

  type HashTable = map<nat, seq<nat>>

  function Bucket(t: HashTable, h: nat): (b: seq<nat>) {
    if h in t then t[h] else []
  }

  /** Every slot is in the bucket of its hash value, and buckets hold nothing else. */
  ghost predicate Chained(t: HashTable, key: map<nat, nat>) {
    && (forall s :: s in key ==> s in Bucket(t, key[s]))
    && (forall h, s :: s in Bucket(t, h) ==> s in key && key[s] == h)
  }

  /** The hash values of the active entries. */
  ghost function Keys4(cache: map<nat, Entry>, hash: Ip4 -> nat): (k: map<nat, nat>) {
    map s | s in cache :: hash(cache[s].a4)
  }

  ghost function Keys6(cache: map<nat, Entry>, hash: Ip6 -> nat): (k: map<nat, nat>) {
    map s | s in cache :: hash(cache[s].a6)
  }

  lemma ChainAdd(t: HashTable, key: map<nat, nat>, s: nat, h: nat)
    requires Chained(t, key) && s !in key
    ensures Chained(t[h := [s] + Bucket(t, h)], key[s := h])
  {
    var t', key' := t[h := [s] + Bucket(t, h)], key[s := h];
    forall g, x ensures x in Bucket(t', g) <==> x in key' && key'[x] == g {
      assert Bucket(t', g) == if g == h then [s] + Bucket(t, h) else Bucket(t, g);
    }
  }

  lemma ChainRemove(t: HashTable, key: map<nat, nat>, s: nat)
    requires Chained(t, key) && s in key
    ensures Chained(t[key[s] := Remove(Bucket(t, key[s]), s)], key - {s})
  {
    hide Remove, Bucket;
    var h := key[s];
    var b := Remove(Bucket(t, h), s);
    var t', key' := t[h := b], key - {s};
    forall g, x ensures x in Bucket(t', g) <==> x in key' && key'[x] == g {
      assert x in Bucket(t, g) <==> x in key && key[x] == g;
      BucketOfUpdated(t, h, b, g);
    }
  }

  lemma BucketOfUpdated(t: HashTable, h: nat, b: seq<nat>, g: nat)
    ensures Bucket(t[h := b], g) == if g == h then b else Bucket(t, g)
  {
  }

  lemma SameKeys(c: map<nat, Entry>, d: map<nat, Entry>, h4: Ip4 -> nat, h6: Ip6 -> nat)
    requires c.Keys == d.Keys && forall s :: s in c ==> d[s].a4 == c[s].a4 && d[s].a6 == c[s].a6
    ensures Keys4(c, h4) == Keys4(d, h4) && Keys6(c, h6) == Keys6(d, h6)
  {
  }

  class AddressMapper {
    const cfg: Config
    const hash4: Ip4 -> nat
    const hash6: Ip6 -> nat

    var now: int
    var map4List: seq<Mapping>
    var map6List: seq<Mapping>
    var freeList: seq<Run>
    var leases: map<Ip4, Lease>
    var mappedList: seq<Ip4>
    var dormantList: seq<Ip4>
    var entries: map<nat, Entry>
    var cacheActive: seq<nat>
    var cachePool: seq<nat>
    var table4: HashTable
    var table6: HashTable
    ghost var lastPacket: map<Ip4, int>

    /** The state that the specification of the steps talks about. */
    ghost function State(): World
      reads this
    {
      World(now, map4List, map6List, freeList, leases, mappedList, dormantList,
            entries, cacheActive, cachePool, lastPacket)
    }

    ghost predicate ChainsOk()
      reads this
    {
      Chained(table4, Keys4(entries, hash4)) && Chained(table6, Keys6(entries, hash6))
    }

    ghost predicate Valid()
      reads this
    {
      Inv(cfg, State()) && ChainsOk()
    }

    /** Start-up: the configured tables, the whole pool free, every cache slot spare. */
    constructor (cfg: Config, map4: seq<Mapping>, map6: seq<Mapping>, hash4: Ip4 -> nat, hash6: Ip6 -> nat, time: int)
      requires TablesOk(cfg, map4, map6)
      requires forall m :: m in map4 ==> !m.Host? && (m.Pool? ==> cfg.pool == Some(m))
      requires cfg.pool.Some? ==> cfg.pool.value.Pool? && cfg.pool.value in map4
      ensures Valid() && this.cfg == cfg && State().leases == map[] && State().cache == map[]
      ensures map4List == map4 && map6List == map6 && now == time
    {
      hide Inv, TablesOk;
      this.cfg, this.hash4, this.hash6 := cfg, hash4, hash6;
      now, map4List, map6List := time, map4, map6;
      freeList := if cfg.pool.Some? then [Run(cfg.pool.value.base, Pow2(32 - cfg.pool.value.poolLen) - 1)] else [];
      leases, mappedList, dormantList, lastPacket := map[], [], [], map[];
      entries, cacheActive, cachePool := map[], [], seq(cfg.cacheSize, i => i);
      table4, table6 := map[], map[];
      new;
      FreshState(cfg, State());
    }

    /** Walks one bucket; finds the entry for a, if there is one anywhere in the cache. */
    method FindSlot4(a: Ip4) returns (r: Option<nat>)
      requires ChainsOk()
      ensures r.Some? ==> r.value in entries && entries[r.value].a4 == a
      ensures r == None ==> forall s :: s in entries ==> entries[s].a4 != a
    {
      ghost var keys := Keys4(entries, hash4);
      var bucket := Bucket(table4, hash4(a));
      for i := 0 to |bucket|
        invariant forall k :: 0 <= k < i ==> bucket[k] in entries && entries[bucket[k]].a4 != a
      {
        var s := bucket[i];
        assert s in bucket && s in keys;
        if entries[s].a4 == a {
          return Some(s);
        }
      }
      forall s | s in entries ensures entries[s].a4 != a {
        assert s in keys && s in Bucket(table4, keys[s]);
      }
      r := None;
    }

    method FindSlot6(b: Ip6) returns (r: Option<nat>)
      requires ChainsOk()
      ensures r.Some? ==> r.value in entries && entries[r.value].a6 == b
      ensures r == None ==> forall s :: s in entries ==> entries[s].a6 != b
    {
      ghost var keys := Keys6(entries, hash6);
      var bucket := Bucket(table6, hash6(b));
      for i := 0 to |bucket|
        invariant forall k :: 0 <= k < i ==> bucket[k] in entries && entries[bucket[k]].a6 != b
      {
        var s := bucket[i];
        assert s in bucket && s in keys;
        if entries[s].a6 == b {
          return Some(s);
        }
      }
      forall s | s in entries ensures entries[s].a6 != b {
        assert s in keys && s in Bucket(table6, keys[s]);
      }
      r := None;
    }

    /** A cache entry serves a packet: it is in use now. */
    method Touch(s: nat)
      requires Valid() && s in entries
      modifies this`entries, this`lastPacket
      ensures Valid() && State() == Hit(old(State()), s)
    {
      hide Inv, Packet4, Chained, Keys4, Keys6;
      ghost var w := State();
      HitKeepsInv(cfg, w, s);
      entries := entries[s := entries[s].(lastUse := now)];
      lastPacket := Packet4(w, w.cache[s].a4);
      assert State() == Hit(w, s);
      SameKeys(w.cache, entries, hash4, hash6);
    }

    /** `map_ip4_to_ip6` under the cache lock: a hit is what the tables would answer. */
    method Probe4(a: Ip4) returns (hit: Option<Ip6>)
      requires Valid()
      modifies this
      ensures Valid()
      ensures State() == Step(cfg, old(State()), Event.Probe4(a))
      ensures hit == None <==> forall s :: s in old(entries) ==> old(entries)[s].a4 != a
      ensures hit.Some? ==> Lookup4(cfg, map4List, map6List, a) == Found(hit.value, true)
    {
      hide Inv, Lookup4, Hit;
      CacheFacts(cfg, State());
      hit := None;
      if cfg.cacheSize > 0 {
        var s := FindSlot4(a);
        if s.Some? {
          HitFrame(State(), s.value);
          hit := Some(entries[s.value].a6);
          Touch(s.value);
        }
      }
    }

    /** `map_ip6_to_ip4` under the cache lock: the tables would answer the same, unless
        the pair is one that they translate in one direction only. */
    method Probe6(b: Ip6) returns (hit: Option<Ip4>)
      requires Valid()
      modifies this
      ensures Valid()
      ensures State() == Step(cfg, old(State()), Event.Probe6(b))
      ensures hit == None <==> forall s :: s in old(entries) ==> old(entries)[s].a6 != b
      ensures hit.Some? ==> Lookup4(cfg, map4List, map6List, hit.value) == Found(b, true)
      ensures hit.Some? ==>
        (Lookup6(cfg, map4List, map6List, b) == Found(hit.value, true) <==> !OneWay(map4List, map6List, hit.value))
    {
      hide Inv, Lookup4, Lookup6, OneWay, Hit;
      CacheFacts(cfg, State());
      hit := None;
      if cfg.cacheSize > 0 {
        var s := FindSlot6(b);
        if s.Some? {
          HitMatchesLookup(cfg, State(), s.value);
          HitFrame(State(), s.value);
          hit := Some(entries[s.value].a4);
          Touch(s.value);
        }
      }
    }

    // -------------------------------------------------------- publication

    /** The first spare slot becomes the entry for the pair and joins both chains. */
    method TakeSlot(a: Ip4, b: Ip6)
      requires ChainsOk() && cachePool != [] && cachePool[0] !in entries
      modifies this`entries, this`cacheActive, this`cachePool, this`table4, this`table6
      ensures ChainsOk()
      ensures var s := old(cachePool)[0];
              && cacheActive == [s] + old(cacheActive) && cachePool == old(cachePool)[1..]
              && entries == old(entries)[s := Entry(a, b, now, false)]
    {
      hide Keys4, Keys6, Chained;
      var s := cachePool[0];
      ChainsWithNew(table4, table6, entries, s, Entry(a, b, now, false), hash4, hash6);
      cacheActive, cachePool := [s] + cacheActive, cachePool[1..];
      entries := entries[s := Entry(a, b, now, false)];
      table4 := table4[hash4(a) := [s] + Bucket(table4, hash4(a))];
      table6 := table6[hash6(b) := [s] + Bucket(table6, hash6(b))];
    }

    /** An entry that a concurrent lookup published first is used now. */
    method Renew(s: nat)
      requires ChainsOk() && s in entries
      modifies this`entries
      ensures ChainsOk() && entries == old(entries)[s := old(entries)[s].(lastUse := now)]
    {
      hide Keys4, Keys6, Chained;
      ghost var cache := entries;
      entries := entries[s := entries[s].(lastUse := now)];
      SameKeys(cache, entries, hash4, hash6);
    }

    /** `cache_insert`: the bucket is searched for the pair, else a spare slot is taken. */
    method CacheInsert(a: Ip4, b: Ip6) returns (c: Option<nat>)
      requires ChainsOk() && SlotsOk(cfg, entries, cacheActive, cachePool) && OnePerAddress(entries)
      modifies this`entries, this`cacheActive, this`cachePool, this`table4, this`table6
      ensures ChainsOk()
      ensures (State(), c) == Publish(old(State()), a, b)
    {
      hide FindPair, SlotsOk, OnePerAddress, ChainsOk;
      ghost var w := State();
      c := FindSlot4(a);
      if c.Some? && entries[c.value].a6 == b {
        UniquePair(cfg, w, a, b, c.value);
        Renew(c.value);
      } else {
        NoPair(cfg, w, a, b, c);
        c := None;
        if cachePool != [] {
          assert cachePool[0] in cachePool;
          c := Some(cachePool[0]);
          TakeSlot(a, b);
        }
      }
    }

    /** The rest of a lookup through lease a: renewed, published, linked to its cache entry. */
    method UseLease(a: Ip4)
      requires InvButStamp(cfg, State(), a) && ChainsOk()
      modifies this
      ensures Valid()
      ensures a in old(leases) && State() == ServeLease(cfg, old(State()), a)
    {
      hide TablesOk, PoolTiled, HostsMatch, PoolOwns, Sorted, Coherent, SlotsOk, OnePerAddress, Publish, Stamped, StampedBut, Linked, Inv, Listed, ServeLease, Flag, Chained, Keys4, Keys6;
      ghost var w := State();
      ServeLeaseKeepsInv(cfg, w, a);
      LeaseFacts(cfg, w, a);
      leases := leases[a := leases[a].(lastUse := now)];
      lastPacket := lastPacket[a := now];
      if cfg.cacheSize > 0 {
        ServeLeaseParts(cfg, w, a);
        var c := CacheInsert(a, leases[a].a6);
        LinkEntry(a, c);
      } else {
        ServeUncached(cfg, w, a);
      }
    }

    /** The lease remembers its cache entry, which is told to report when it ages out. */
    method LinkEntry(a: Ip4, c: Option<nat>)
      requires a in leases && ChainsOk()
      modifies this`leases, this`entries
      ensures ChainsOk()
      ensures leases == old(leases)[a := old(leases)[a].(slot := c)] && entries == Flag(old(entries), c)
    {
      hide Chained, Keys4, Keys6;
      ghost var cache := entries;
      leases := leases[a := leases[a].(slot := c)];
      if c.Some? && c.value in entries {
        entries := entries[c.value := entries[c.value].(flagged := true)];
      }
      SameKeys(cache, entries, hash4, hash6);
    }

    /** `map_ip4_to_ip6` under the map lock. */
    method Miss4(a: Ip4) returns (r: Outcome<Ip6>)
      requires Valid()
      modifies this
      ensures Valid()
      ensures State() == Step(cfg, old(State()), Event.Miss4(a))
      ensures r == Lookup4(cfg, old(map4List), old(map6List), a)
    {
      hide Inv, Lookup4, ServeLease, Publish, InvButStamp, EntriesAdmitted, FindMap4;
      ghost var w := State();
      StepKeepsInv(cfg, w, Event.Miss4(a));
      InvGives(cfg, w);
      HostMatchIsMapped(cfg, w, a);
      AdmittedGives(map4List, map6List);
      CacheSound(cfg, w);
      r := Lookup4(cfg, map4List, map6List, a);
      match r
      case Found(b, pair) =>
        if IsHost(FindMap4(map4List, a)) {
          MappedIsFound(cfg, w, a);
          InvSplit(cfg, w, a);
          UseLease(a);
        } else if cfg.cacheSize > 0 && pair {
          NotALease(cfg, w, a);
          var c := CacheInsert(a, b);
        }
      case Rejected =>
      case Drop =>
    }

    // -------------------------------------------------------- ageing

    /** `report_ageout`: the lease that waits for this entry takes over its time stamp. */
    method ReportAgeout(s: nat)
      requires s in entries
      modifies this`leases
      ensures leases == Retire(old(State()), s).leases
    {
      hide FindMap4, Remove;
      var e := entries[s];
      if e.flagged {
        var m4 := FindMap4(map4List, e.a4);
        if m4.Some? && m4.value.Host? && e.a4 in leases && leases[e.a4].slot == Some(s) {
          leases := leases[e.a4 := leases[e.a4].(lastUse := e.lastUse, slot := None)];
        }
      }
    }

    /** The slot leaves both chains and joins the spare ones. */
    method FreeSlot(s: nat)
      requires ChainsOk() && s in entries
      modifies this`entries, this`cacheActive, this`cachePool, this`table4, this`table6
      ensures ChainsOk()
      ensures entries == old(entries) - {s} && cacheActive == Remove(old(cacheActive), s) && cachePool == [s] + old(cachePool)
    {
      hide Keys4, Keys6, Chained, Remove;
      var e := entries[s];
      ChainsWithout(table4, table6, entries, s, hash4, hash6);
      cachePool := [s] + cachePool;
      cacheActive := Remove(cacheActive, s);
      table4 := table4[hash4(e.a4) := Remove(Bucket(table4, hash4(e.a4)), s)];
      table6 := table6[hash6(e.a6) := Remove(Bucket(table6, hash6(e.a6)), s)];
      entries := entries - {s};
    }

    method RetireSlot(s: nat)
      requires ChainsOk() && s in entries
      modifies this`entries, this`cacheActive, this`cachePool, this`table4, this`table6, this`leases
      ensures ChainsOk() && State() == Retire(old(State()), s)
    {
      hide Keys4, Keys6, Chained, FindMap4, Remove;
      ReportAgeout(s);
      FreeSlot(s);
    }

    /** `addrmap_maint` */
    method MaintainCache()
      requires Valid()
      modifies this
      ensures Valid()
      ensures State() == Step(cfg, old(State()), CacheMaint)
      ensures forall s :: s in old(entries) ==> (s in entries <==> old(entries)[s].lastUse + CACHE_MAX_AGE >= now)
    {
      hide Inv, Chained, Keys4, Keys6, AgeList;
      ghost var w := State();
      AgeListKeepsInv(cfg, w, w.active);
      AgeListLeavesFresh(w, w.active);
      CacheFacts(cfg, w);
      AgeEntries();
    }

    /** Every entry not used for CACHE_MAX_AGE seconds is retired. */
    method AgeEntries()
      requires ChainsOk()
      modifies this`entries, this`cacheActive, this`cachePool, this`table4, this`table6, this`leases
      ensures ChainsOk() && State() == AgeList(old(State()), old(cacheActive))
    {
      hide ChainsOk, Retire;
      ghost var w := State();
      var list := cacheActive;
      assert list[0..] == list;
      for i := 0 to |list|
        invariant ChainsOk() && now == w.now
        invariant AgeList(State(), list[i..]) == AgeList(w, list)
      {
        var s := list[i];
        assert list[i..][0] == s && list[i..][1..] == list[i + 1..];
        if s in entries && entries[s].lastUse + CACHE_MAX_AGE < now {
          RetireSlot(s);
        }
      }
      assert list[|list|..] == [];
    }

    // -------------------------------------------------------- leases

    /** Where a lease last used at t goes: at the end, if the oldest lease there is not older. */
    static method PlaceFor(dormant: seq<Ip4>, leases: map<Ip4, Lease>, t: int) returns (i: nat)
      requires (forall x :: x in dormant ==> x in leases) && Sorted(dormant, leases)
      ensures i == DormantPos(dormant, leases, t)
    {
      hide DormantPos;
      if dormant == [] || leases[dormant[|dormant| - 1]].lastUse >= t {
        LastPlace(dormant, leases, t);
        return |dormant|;
      }
      i := 0;
      while i < |dormant| && leases[dormant[i]].lastUse >= t
        invariant 0 <= i <= |dormant|
        invariant forall k :: 0 <= k < i ==> leases[dormant[k]].lastUse >= t
      {
        assert dormant[i] in dormant;
        i := i + 1;
      }
      FirstPlace(dormant, leases, t, i);
    }

    /** `move_to_dormant` */
    method MoveToDormant(a: Ip4)
      requires a in leases && (forall x :: x in dormantList ==> x in leases) && Sorted(dormantList, leases)
      modifies this`map4List, this`map6List, this`mappedList, this`dormantList
      ensures State() == Settle(Leave(old(State()), a), a)
    {
      hide Drop4, Remove, DormantPos, Sorted;
      var h := Host(a, leases[a].a6);
      map4List, map6List := Drop4(map4List, h), Drop4(map6List, h);
      mappedList := Remove(mappedList, a);
      var i := PlaceFor(dormantList, leases, leases[a].lastUse);
      dormantList := dormantList[..i] + [a] + dormantList[i..];
    }

    /** `move_to_mapped`, for a lease that is on neither list. The results of the two inserts
        are not looked at. */
    method MoveToMapped(a: Ip4)
      requires a in leases && Ordered4(map4List) && Disjoint6(map6List) && AllCanonical(map6List)
      modifies this`map4List, this`map6List, this`mappedList
      ensures State() == Enter(old(State()), a)
    {
      hide Ordered4, Disjoint6, InsertPos4, InsertPos6, Overlap6, AllCanonical;
      var h := Host(a, leases[a].a6);
      HostCovers(h, 0, 0);
      NoOverlap(map6List, h);
      var c4, c6;
      map4List, c4 := InsertMap4(map4List, h);
      map6List, c6 := InsertMap6(map6List, h);
      mappedList := [a] + mappedList;
    }

    /** Both loops of `dynamic_maint`. */
    method MaintainPool()
      requires Valid()
      modifies this
      ensures Valid()
      ensures State() == Step(cfg, old(State()), PoolMaint)
    {
      hide Inv, ChainsOk, Settle, Leave, Release, TakeDormant;
      ghost var w := State();
      MaintainKeepsInv(cfg, w);
      SleepIdle();
      FreeExpired();
    }

    method SleepIdle()
      requires Valid()
      modifies this`map4List, this`map6List, this`mappedList, this`dormantList
      ensures Valid() && State() == SleepList(cfg, old(State()), old(mappedList))
    {
      hide Inv, Chained, Keys4, Keys6, Settle, Leave;
      ghost var w := State();
      MappedIsNoDup(cfg, w);
      var list := mappedList;
      for i := 0 to |list|
        invariant Valid() && now == w.now && leases == w.leases
        invariant forall k :: i <= k < |list| ==> list[k] in mappedList
        invariant SleepList(cfg, State(), list[i..]) == SleepList(cfg, w, list)
      {
        var a := list[i];
        assert list[i..][0] == a && list[i..][1..] == list[i + 1..];
        PoolFacts(cfg, State());
        if leases[a].slot == None && leases[a].lastUse + cfg.minLease < now {
          SleepOneKeeps(cfg, State(), a);
          DormantSorted(cfg, State());
          MoveToDormant(a);
        }
      }
      assert list[|list|..] == [];
    }

    /** The oldest dormant lease goes, and the run before it absorbs its addresses. */
    method FreeOldest()
      requires Valid() && dormantList != []
      modifies this`freeList, this`leases, this`dormantList, this`lastPacket
      ensures var a := old(dormantList)[|old(dormantList)| - 1];
              Valid() && State() == Release(TakeDormant(old(State()), a), a)
    {
      hide Inv, Chained, Keys4, Keys6, Merge, HeadIndex, Remove;
      var a := dormantList[|dormantList| - 1];
      FreeOneKeeps(cfg, State(), a);
      HeadOfLease(cfg, State(), a);
      freeList := Merge(freeList, HeadIndex(freeList, a));
      leases, lastPacket := leases - {a}, lastPacket - {a};
      dormantList := Remove(dormantList, a);
    }

    method FreeExpired()
      requires Valid()
      modifies this`freeList, this`leases, this`dormantList, this`lastPacket
      ensures Valid() && State() == FreeOld(cfg, old(State()))
    {
      hide Inv, ChainsOk, Release, TakeDormant;
      ghost var w := State();
      while dormantList != []
        invariant Valid() && FreeOld(cfg, State()) == FreeOld(cfg, w)
        decreases |dormantList|
      {
        var a := dormantList[|dormantList| - 1];
        PoolFacts(cfg, State());
        FreeOneKeeps(cfg, State(), a);
        if leases[a].lastUse + cfg.maxLease >= now {
          break;
        }
        FreeOldest();
      }
    }

    // -------------------------------------------------------- assignment

    /** Reactivation: the host's own dormant lease, if it still has one. */
    method FindDormantLease(b: Ip6) returns (r: Option<Ip4>)
      requires forall a :: a in dormantList ==> a in leases
      ensures r == FindDormant(dormantList, leases, b)
    {
      for i := 0 to |dormantList|
        invariant FindDormant(dormantList, leases, b) == FindDormant(dormantList[i..], leases, b)
      {
        assert dormantList[i..][0] == dormantList[i] && dormantList[i..][1..] == dormantList[i + 1..];
        assert dormantList[i] in dormantList;
        if leases[dormantList[i]].a6 == b {
          return Some(dormantList[i]);
        }
      }
      assert dormantList[|dormantList|..] == [];
      r := None;
    }

    /** The search of `assign_dynamic` from the host's own starting point. */
    method FindFree(b: Ip6) returns (r: Option<Ip4>, at: nat)
      requires Valid() && cfg.pool.Some? && cfg.pool.value.Pool? && cfg.pool.value.poolLen <= 31
      requires PoolEnd(cfg.pool.value) <= 0x1_0000_0000
      ensures r == FreeFor(cfg.bigEndian, State(), cfg.pool.value, b)
      ensures r.Some? ==> at == HolderIndex(freeList, r.value) < |freeList|
    {
      hide Inv, ChainsOk, HashPoint, NativeWords, Pow2, Tiles, FindMap4, NaiveScan, HolderIndex, Ordered4, Aligned;
      var pool := cfg.pool.value;
      SearchFacts(cfg, State());
      var words := NativeWords(cfg.bigEndian, b);
      var base := ComputeHashPoint(words, 32 - pool.poolLen);
      r, at := SearchRuns(map4List, pool, freeList, pool.base, PoolEnd(pool), pool.base + base);
      if r.Some? {
        FreeXorLeased(freeList, pool.base, PoolEnd(pool), r.value);
        HolderExists(freeList, r.value, at);
      }
    }

    /** `alloc_map_dynamic`: the run splits around the new lease. */
    method CreateLease(at: nat, a: Ip4, b: Ip6)
      requires at < |freeList| && freeList[at].Holds(a)
      modifies this`freeList, this`leases, this`lastPacket
      ensures State() == Create(old(State()), at, a, b)
    {
      var f := freeList[at];
      var rest := Run(a, f.count - (a - f.addr));
      freeList := freeList[..at] + [f.(count := a - f.addr - 1), rest] + freeList[at + 1..];
      leases := leases[a := Lease(b, 0, None)];
      lastPacket := lastPacket[a := 0];
    }

    /** The least recently used dormant lease is given to b. */
    method ReuseOldest(b: Ip6) returns (a: Ip4)
      requires Valid() && FindMap6(map6List, b) == None && dormantList != []
      requires FindDormant(dormantList, leases, b) == None
      modifies this`map4List, this`map6List, this`mappedList, this`dormantList, this`leases
      ensures a == old(dormantList)[|old(dormantList)| - 1] && a in old(leases)
      ensures State() == Enter(Reassign(TakeDormant(old(State()), a), a, b), a)
    {
      hide Inv, Chained, Keys4, Keys6, InTransit, FindMap6, FindDormant, CanAddHost, Ordered4, Disjoint6, AllCanonical,
           Remove, Add4, Add6;
      ghost var w := State();
      a := dormantList[|dormantList| - 1];
      PoolFacts(cfg, w);
      UnleasedWhenNew(cfg, w, b);
      TakeDormantKeeps(cfg, w, a);
      ReassignKeeps(cfg, TakeDormant(w, a), a, b);
      EnterFacts(cfg, Reassign(TakeDormant(w, a), a, b), a);
      dormantList := Remove(dormantList, a);
      leases := leases[a := leases[a].(a6 := b)];
      MoveToMapped(a);
    }

    /** The host's own dormant lease is mapped again. */
    method Reactivate(a: Ip4)
      requires Valid() && a in dormantList && a in leases && FindMap6(map6List, leases[a].a6) == None
      modifies this`map4List, this`map6List, this`mappedList, this`dormantList
      ensures State() == Enter(TakeDormant(old(State()), a), a)
    {
      hide Inv, Chained, Keys4, Keys6, InTransit, FindMap6, CanAddHost, Ordered4, Disjoint6, AllCanonical, Remove, Add4, Add6;
      TakeDormantKeeps(cfg, State(), a);
      EnterFacts(cfg, TakeDormant(State(), a), a);
      dormantList := Remove(dormantList, a);
      MoveToMapped(a);
    }

    /** A free address is leased to a host without lease and mapped. */
    method Allocate(at: nat, a: Ip4, b: Ip6)
      requires Valid() && cfg.pool.Some? && at < |freeList| && freeList[at].Holds(a)
      requires FindMap4(map4List, a) == cfg.pool && FindMap6(map6List, b) == None && Unleased(leases, b)
      modifies this`map4List, this`map6List, this`mappedList, this`freeList, this`leases, this`lastPacket
      ensures State() == Enter(Create(old(State()), at, a, b), a)
    {
      hide Inv, Chained, Keys4, Keys6, InTransit, FindMap6, FindMap4, Create, CanAddHost, Ordered4, Disjoint6, AllCanonical, Add4, Add6, Unleased;
      ghost var w := State();
      CreateKeeps(cfg, w, at, a, b);
      CreateIs(w, at, a, b);
      EnterFacts(cfg, Create(w, at, a, b), a);
      CreateLease(at, a, b);
      MoveToMapped(a);
    }

    /** `assign_dynamic` */
    method AssignDynamic(b: Ip6) returns (r: Option<Ip4>)
      requires Valid() && FindMap6(map6List, b) == None
      modifies this
      ensures Valid()
      ensures AssignAllowed(cfg, old(State()))
      ensures match Assign(cfg, old(State()), b)
              case None => r == None && State() == old(State())
              case Some(p) => r == Some(p.0) && State() == p.1 && Assigned(cfg, old(State()), State(), p.0, b)
    {
      hide Inv, Chained, Keys4, Keys6, Assigned, FreeFor, FindMap6, FindMap4, FindDormant, Create, HolderIndex, Unleased,
           Enter, Reassign;
      ghost var w := State();
      AssignKeeps(cfg, w, b);
      AssignedGivesInv(cfg, w, b);
      r := None;
      if cfg.pool == None {
        return;
      }
      r := FindDormantLease(b);
      if r.Some? {
        Reactivate(r.value);
        return;
      }
      UnleasedWhenNew(cfg, w, b);
      FreeForIsEligible(cfg, w, b);
      var at;
      r, at := FindFree(b);
      if r.Some? {
        Allocate(at, r.value, b);
        return;
      }
      if dormantList == [] {
        return;
      }
      var a := ReuseOldest(b);
      r := Some(a);
    }

    /** `map_ip6_to_ip4` under the map lock. */
    method Miss6(b: Ip6, alloc: bool) returns (r: Outcome<Ip4>)
      requires Valid()
      modifies this
      ensures Valid()
      ensures State() == Step(cfg, old(State()), Event.Miss6(b, alloc))
      ensures FindMap6(old(map6List), b) != None || !alloc ==> r == Lookup6(cfg, old(map4List), old(map6List), b)
      ensures FindMap6(old(map6List), b) == None && alloc && r.Found? ==>
        r.addr in mappedList && r.addr in leases && leases[r.addr].a6 == b
    {
      hide Inv, Chained, Keys4, Keys6, Lookup6, ServeLease, Publish, InvButStamp, FindMap6, FindMap4, Assign, Assigned, Lookup4, Admitted;
      ghost var w := State();
      StepKeepsInv(cfg, w, Event.Miss6(b, alloc));
      InvGives(cfg, w);
      CacheSound(cfg, w);
      var m := FindMap6(map6List, b);
      if m == None {
        Lookup6None(cfg, map4List, map6List, b);
        r := Rejected;
        if alloc {
          AssignKeeps(cfg, w, b);
          var a := AssignDynamic(b);
          if a.Some? {
            AssignedParts(cfg, w, State(), a.value, b);
            InvSplit(cfg, State(), a.value);
            ServeLeaseSame6(cfg, State(), a.value);
            ServeLeaseFrame(cfg, State(), a.value);
            UseLease(a.value);
            r := Found(a.value, true);
          }
        }
        return;
      }
      r := Lookup6(cfg, map4List, map6List, b);
      match r
      case Found(a, pair) =>
        if IsHost(m) {
          HostMatch6IsMapped(cfg, w, b);
          MappedIsFound(cfg, w, m.value.h4);
          InvSplit(cfg, w, a);
          UseLease(a);
        } else {
          StaticIsNotLease(cfg, w, a, b, pair);
          if cfg.cacheSize > 0 && pair {
            var c := CacheInsert(a, b);
          }
          NotHost(map6List, b);
        }
      case Rejected =>
      case Drop =>
    }

    // -------------------------------------------------------- start-up

    /** `load_map` */
    method LoadMap(row: L.Row)
      requires L.Loadable(cfg, State())
      modifies this`freeList, this`leases, this`lastPacket, this`dormantList
      ensures L.Loadable(cfg, old(State()))
      ensures State() == L.LoadMap(cfg, old(State()), row) && L.Loadable(cfg, State())
    {
      hide FindMap4, FindMap6, Free, HolderIndex, DormantPos, Valid6, Split, Tiles, Ordered4, Disjoint6, AllCanonical, Sorted, Leased, Aligned;
      ghost var w := State();
      if cfg.pool == None {
        return;
      }
      var pool := cfg.pool.value;
      if !pool.Covers4(row.a) || FindMap4(map4List, row.a) != cfg.pool || !Valid6(row.b) || FindMap6(map6List, row.b) != None {
        return;
      }
      var ok, at := FindHolder(freeList, pool.base, PoolEnd(pool), row.a);
      if !ok {
        return;
      }
      FreeXorLeased(freeList, pool.base, PoolEnd(pool), row.a);
      HolderExists(freeList, row.a, at);
      AddRow(row, at);
    }

    /** An accepted row becomes a dormant lease. */
    method AddRow(row: L.Row, at: nat)
      requires L.Loadable(cfg, State()) && L.Accepts(cfg, State(), row) && at == HolderIndex(freeList, row.a) < |freeList|
      modifies this`freeList, this`leases, this`lastPacket, this`dormantList
      ensures State() == L.LoadRow(old(State()), row) && L.Loadable(cfg, State())
    {
      hide FindMap4, FindMap6, Free, HolderIndex, DormantPos, Valid6, Split, PoolTiled, Ordered4, Disjoint6, AllCanonical, Sorted;
      ghost var w := State();
      L.LoadRowLoadable(cfg, w, row);
      L.LoadRowAdds(cfg, w, row);
      L.SortedWithNew(dormantList, leases, row.a, Lease(row.b, row.lastUse, None));
      CreateLease(at, row.a, row.b);
      leases := leases[row.a := leases[row.a].(lastUse := row.lastUse)];
      lastPacket := lastPacket[row.a := row.lastUse];
      var i := PlaceFor(dormantList, leases, row.lastUse);
      dormantList := dormantList[..i] + [row.a] + dormantList[i..];
    }

    /** The reading loop of `load_dynamic`, on lines that parsed. */
    method LoadRows(rows: seq<L.Row>)
      requires L.Loadable(cfg, State())
      modifies this`freeList, this`leases, this`lastPacket, this`dormantList
      ensures L.Loadable(cfg, old(State()))
      ensures State() == L.LoadAll(cfg, old(State()), rows) && L.Loadable(cfg, State())
    {
      hide L.Loadable, L.LoadMap;
      ghost var w := State();
      L.LoadableHasNoPool(cfg, w);
      for i := 0 to |rows|
        invariant L.Loadable(cfg, State()) && State() == L.LoadAll(cfg, w, rows[..i])
      {
        LoadMap(rows[i]);
        assert rows[..i + 1][..i] == rows[..i];
      }
      assert rows[..|rows|] == rows;
    }

    /** `load_dynamic` for a file with these rows, whatever they are. The state is sound
        afterwards exactly if the accepted rows have distinct hosts. */
    method LoadDynamic(rows: seq<L.Row>)
      requires Valid() && dormantList == []
      modifies this
      ensures forall m :: m in old(map6List) ==> !m.Pool?
      ensures State() == L.LoadDynamic(cfg, old(State()), rows) && ChainsOk()
      ensures Valid() <==> L.DistinctHosts(old(leases), L.Accepted(cfg, old(State()), rows))
    {
      hide Inv, Chained, Keys4, Keys6, L.LoadAll, L.Wake, L.Redate, L.Accepted, L.DistinctHosts, L.Loadable;
      ghost var w := State();
      L.InvLoadable(cfg, w);
      L.LoadableHasNoPool(cfg, w);
      if cfg.pool == None {
        L.NoPoolNoRows(cfg, w, rows);
        return;
      }
      L.LoadDynamicKeeps(cfg, w, rows);
      LoadRows(rows);
      L.LoadableParts(cfg, State());
      var newest := NewestDormant();
      if newest > now {
        RedateLeases();
      } else {
        WakeLeases();
      }
    }

    method NewestDormant() returns (t: int)
      requires forall x :: x in dormantList ==> x in leases
      ensures t == L.Newest(dormantList, leases)
    {
      t := 0;
      for i := 0 to |dormantList|
        invariant L.NewestFrom(t, dormantList[i..], leases) == L.Newest(dormantList, leases)
      {
        var d := dormantList[i];
        assert d in dormantList && dormantList[i..][0] == d && dormantList[i..][1..] == dormantList[i + 1..];
        if leases[d].lastUse > t {
          t := leases[d].lastUse;
        }
      }
      assert dormantList[|dormantList|..] == [];
    }

    /** Some lease is dated in the future: all count as used one minimum lease ago. */
    method RedateLeases()
      requires forall x :: x in dormantList ==> x in leases
      modifies this`leases, this`lastPacket
      ensures State() == L.Redate(cfg, old(State()))
    {
      ghost var w := State();
      var t := now - cfg.minLease;
      L.RedateAll(cfg, w);
      for i := 0 to |dormantList|
        invariant leases == L.RedateFirst(w, t, i).leases
      {
        L.RedateStep(w, t, i);
        var d := dormantList[i];
        leases := leases[d := leases[d].(lastUse := t)];
      }
      lastPacket := L.Redate(cfg, w).lastPacket;
    }

    /** The leases that were used recently are mapped at once. */
    method WakeLeases()
      requires L.Loadable(cfg, State())
      modifies this`map4List, this`map6List, this`mappedList, this`dormantList
      ensures State() == L.Wake(cfg, old(State()))
    {
      hide L.Loadable, Remove, Enter;
      ghost var w := State();
      while dormantList != []
        invariant L.Loadable(cfg, State()) && now == w.now
        invariant L.Wake(cfg, State()) == L.Wake(cfg, w)
        decreases |dormantList|
      {
        var d := dormantList[0];
        L.WakeLoadable(cfg, State(), d);
        L.LoadableParts(cfg, State());
        if leases[d].lastUse + cfg.minLease < now {
          break;
        }
        dormantList := Remove(dormantList, d);
        MoveToMapped(d);
      }
    }

    // -------------------------------------------------------- reload

    /** The reading loop of `addrmap_reload`, on rows that parsed. */
    static method StageRows(rows: seq<Mapping>) returns (staged: seq<Mapping>)
      requires RowsOk(rows)
      ensures forall m :: m in rows ==> !m.Pool?
      ensures staged == StageAll(rows)
    {
      hide Stage, RowOk;
      StagedRows(rows);
      staged := [];
      for i := 0 to |rows|
        invariant staged == StageAll(rows[..i])
      {
        assert rows[..i + 1][..i] == rows[..i];
        staged := Stage(staged, rows[i]);
      }
      assert rows[..|rows|] == rows;
    }

    /** The insertion loop at commit; the results of the two inserts are not looked at. */
    static method CommitRows(map4: seq<Mapping>, map6: seq<Mapping>, rows: seq<Mapping>, ghost cfg: Config)
      returns (r4: seq<Mapping>, r6: seq<Mapping>)
      requires TablesOk(cfg, map4, map6) && RowsOk(rows) && Compatible(rows)
      requires forall m :: m in rows ==> !m.Pool? && Insertable(map4, map6, m) && !m.Covers6(cfg.local6)
      ensures (r4, r6) == InsertAll(map4, map6, rows)
    {
      hide TablesOk, Insertable, RowOk, Compatible, Clash, Inserted, InsertPos4, InsertPos6, Ordered4, Disjoint6, Overlap6, AllCanonical;
      r4, r6 := map4, map6;
      for i := 0 to |rows|
        invariant TablesOk(cfg, r4, r6) && RowsOk(rows[i..]) && Compatible(rows[i..])
        invariant forall m :: m in rows[i..] ==> !m.Pool? && Insertable(r4, r6, m) && !m.Covers6(cfg.local6)
        invariant InsertAll(r4, r6, rows[i..]) == InsertAll(map4, map6, rows)
      {
        var m := rows[i];
        ghost var t := rows[i + 1..];
        assert rows[i..][0] == m && rows[i..][1..] == t;
        assert forall n :: n in rows[i..] <==> n == m || n in t;
        CommitStep(cfg, r4, r6, m, t, rows[i..]);
        var c4, c6;
        r4, c4 := InsertMap4(r4, m);
        r6, c6 := InsertMap6(r6, m);
      }
      assert rows[|rows|..] == [];
    }

    /** `addrmap_reload` for a file whose lines parsed to these rows, or that failed. It does
        the same whatever the rows are; the state stays sound exactly if the committed rows
        leave the leases alone. */
    method ReloadMaps(rows: seq<Mapping>, failed: bool)
      requires Valid() && RowsOk(rows)
      modifies this
      ensures forall m :: m in rows ==> !m.Pool?
      ensures State() == ReloadFile(old(State()), rows, failed) && ChainsOk()
      ensures failed ==> State() == old(State())
      ensures var w := old(State());
              Valid() <==> failed || LeavesLeasesAlone(cfg, w, Survivors(w.map4, w.map6, StageAll(rows)))
    {
      hide Inv, LeavesLeasesAlone, Chained, Keys4, Keys6, StageAll, Survivors, WithoutFile, Retire, RetireList, InsertAll, RowOk;
      ghost var w := State();
      ReloadKeepsInv(cfg, w, rows, failed);
      if failed {
        return;
      }
      var staged := StageRows(rows);
      staged := Survivors(map4List, map6List, staged);
      SurvivorFacts(cfg, w, rows);
      var base4, base6 := WithoutFile(map4List), WithoutFile(map6List);
      map4List, map6List := CommitRows(base4, base6, staged, cfg);
      FlushCache();
    }

    /** Every cache entry is aged out. */
    method FlushCache()
      requires ChainsOk()
      modifies this`entries, this`cacheActive, this`cachePool, this`table4, this`table6, this`leases
      ensures ChainsOk() && State() == RetireList(old(State()), old(cacheActive))
    {
      hide Chained, Keys4, Keys6, Retire;
      ghost var u := State();
      var list := cacheActive;
      assert list[0..] == list;
      for i := 0 to |list|
        invariant ChainsOk() && RetireList(State(), list[i..]) == RetireList(u, list)
      {
        assert list[i..][0] == list[i] && list[i..][1..] == list[i + 1..];
        if list[i] in entries {
          RetireSlot(list[i]);
        }
      }
      assert list[|list|..] == [];
    }
  }

  lemma AssignedParts(cfg: Config, w: World, u: World, a: Ip4, b: Ip6)
    requires Assigned(cfg, w, u, a, b)
    ensures Inv(cfg, u) && a in u.mapped && a in u.leases && u.leases[a].a6 == b
  {
  }

  lemma NotHost(map6: seq<Mapping>, b: Ip6)
    requires forall m :: m in map6 ==> !m.Pool?
    ensures FindMap6(map6, b).Some? ==> !FindMap6(map6, b).value.Pool?
  {
  }

  /** One row of the commit: both inserts succeed and the other rows still fit. */
  lemma CommitStep(cfg: Config, map4: seq<Mapping>, map6: seq<Mapping>, m: Mapping, t: seq<Mapping>, rows: seq<Mapping>)
    requires TablesOk(cfg, map4, map6) && rows == [m] + t && RowsOk(rows) && Compatible(rows)
    requires forall n :: n in rows ==> !n.Pool? && Insertable(map4, map6, n) && !n.Covers6(cfg.local6)
    ensures !m.Pool? && Ordered4(map4) && Disjoint6(map6) && AllCanonical(map6) && m.Canonical()
    ensures forall n :: n in map4 ==> !n.SameKey4(m)
    ensures forall n :: n in map6 ==> !n.Pool? && !Overlap6(n, m)
    ensures TablesOk(cfg, Add4(map4, m), Add6(map6, m)) && RowsOk(t) && Compatible(t)
    ensures forall n :: n in t ==> Insertable(Add4(map4, m), Add6(map6, m), n)
  {
    hide Clash, Add4, Add6, Compatible, ClearLow, Aligned, Ordered4, Disjoint6, SelfPlaced, Paired;
    assert m in rows && forall n :: n in t ==> n in rows;
    assert rows[0] == m && rows[1..] == t;
    CompatibleTail(rows);
    InsertRowKeepsTables(cfg, map4, map6, m);
    forall n | n in t ensures Insertable(Add4(map4, m), Add6(map6, m), n) {
      InsertableAfter(map4, map6, m, n);
    }
    forall n | n in map6 ensures !Overlap6(n, m) {
      ConflictIsOverlap(n, m);
    }
  }

  lemma SurvivorFacts(cfg: Config, w: World, rows: seq<Mapping>)
    requires Inv(cfg, w) && RowsOk(rows) && forall m :: m in rows ==> !m.Pool?
    ensures var s := Survivors(w.map4, w.map6, StageAll(rows));
            && TablesOk(cfg, WithoutFile(w.map4), WithoutFile(w.map6))
            && RowsOk(s) && Compatible(s)
            && forall m :: m in s ==>
                 !m.Pool? && Insertable(WithoutFile(w.map4), WithoutFile(w.map6), m) && !m.Covers6(cfg.local6)
  {
    hide Inv, TablesOk, Insertable, Compatible, RowOk, Clash, Filter, StageAll, ConflictsFixed;
    InvParts(cfg, w);
    var st := StageAll(rows);
    StagedRows(rows);
    StagedCompatible(rows);
    FilterKeepsCompatible(st, (m: Mapping) => !m.Pool? && !ConflictsFixed(w.map4, w.map6, m));
    WithoutFileKeepsTables(cfg, w.map4, w.map6);
    forall m | m in Survivors(w.map4, w.map6, st)
      ensures !m.Pool? && Insertable(WithoutFile(w.map4), WithoutFile(w.map6), m) && !m.Covers6(cfg.local6)
    {
      SurvivorsInsertable(cfg, w.map4, w.map6, m);
      SurvivorAvoidsSelf(cfg, w.map4, w.map6, m);
    }
  }

  ghost predicate AssignAllowed(cfg: Config, w: World) {
    && (cfg.pool.Some? ==> cfg.pool.value.Pool? && cfg.pool.value.poolLen <= 31 && PoolEnd(cfg.pool.value) <= 0x1_0000_0000)
    && (forall a :: a in w.dormant ==> a in w.leases)
  }

  lemma SearchFacts(cfg: Config, w: World)
    requires Inv(cfg, w) && cfg.pool.Some? && cfg.pool.value.Pool?
    ensures Ordered4(w.map4) && AllCanonical(w.map4) && cfg.pool.value in w.map4
    ensures Tiles(w.runs, cfg.pool.value.base, PoolEnd(cfg.pool.value))
  {
  }

  lemma HolderExists(runs: seq<Run>, a: nat, at: nat)
    requires at < |runs| && runs[at].Holds(a)
    requires forall i, j :: 0 <= i < |runs| && 0 <= j < |runs| && runs[i].Holds(a) && runs[j].Holds(a) ==> i == j
    ensures HolderIndex(runs, a) == at
  {
    hide HolderIndex;
  }

  lemma AssignedGivesInv(cfg: Config, w: World, b: Ip6)
    requires AssignAllowed(cfg, w)
    ensures Assign(cfg, w, b).Some? && Assigned(cfg, w, Assign(cfg, w, b).value.1, Assign(cfg, w, b).value.0, b)
      ==> Inv(cfg, Assign(cfg, w, b).value.1)
  {
    hide Assign, Inv;
  }

  lemma CreateIs(w: World, at: nat, a: Ip4, b: Ip6)
    requires at < |w.runs| && w.runs[at].Holds(a)
    ensures var v := Create(w, at, a, b);
            && v.map4 == w.map4 && v.map6 == w.map6 && v.mapped == w.mapped && v.dormant == w.dormant
            && v.leases == w.leases[a := Lease(b, 0, None)]
  {
  }

  lemma EnterFacts(cfg: Config, w: World, a: Ip4)
    requires InTransit(cfg, w, a) && FindMap6(w.map6, w.leases[a].a6) == None
    ensures Ordered4(w.map4) && Disjoint6(w.map6) && AllCanonical(w.map6)
    ensures CanAddHost(w.map4, w.map6, Host(a, w.leases[a].a6))
  {
    hide Ordered4, Disjoint6, CanAddHost, PoolInTransit, Coherent, Linked, Stamped, SlotsOk;
    CanEnter(cfg, w, a);
  }

  lemma ChainsWithout(t4: HashTable, t6: HashTable, c: map<nat, Entry>, s: nat, h4: Ip4 -> nat, h6: Ip6 -> nat)
    requires Chained(t4, Keys4(c, h4)) && Chained(t6, Keys6(c, h6)) && s in c
    ensures Chained(t4[h4(c[s].a4) := Remove(Bucket(t4, h4(c[s].a4)), s)], Keys4(c - {s}, h4))
    ensures Chained(t6[h6(c[s].a6) := Remove(Bucket(t6, h6(c[s].a6)), s)], Keys6(c - {s}, h6))
  {
    hide Chained, Bucket, Remove;
    assert Keys4(c - {s}, h4) == Keys4(c, h4) - {s};
    assert Keys6(c - {s}, h6) == Keys6(c, h6) - {s};
    ChainRemove(t4, Keys4(c, h4), s);
    ChainRemove(t6, Keys6(c, h6), s);
  }

  /** The last lease of a sorted list is at least as recent as t: so are all. */
  lemma LastPlace(dormant: seq<Ip4>, leases: map<Ip4, Lease>, t: int)
    requires (forall x :: x in dormant ==> x in leases) && Sorted(dormant, leases)
    requires dormant == [] || leases[dormant[|dormant| - 1]].lastUse >= t
    ensures DormantPos(dormant, leases, t) == |dormant|
  {
    hide DormantPos;
    assert forall i :: 0 <= i < |dormant| ==> leases[dormant[i]].lastUse >= leases[dormant[|dormant| - 1]].lastUse;
  }

  lemma FirstPlace(dormant: seq<Ip4>, leases: map<Ip4, Lease>, t: int, i: nat)
    requires forall x :: x in dormant ==> x in leases
    requires i <= |dormant| && forall k :: 0 <= k < i ==> leases[dormant[k]].lastUse >= t
    requires i < |dormant| ==> leases[dormant[i]].lastUse < t
    ensures DormantPos(dormant, leases, t) == i
  {
    hide DormantPos;
  }

  lemma NoOverlap(map6: seq<Mapping>, h: Mapping)
    requires h.Host? && h.Canonical() && Disjoint6(map6) && AllCanonical(map6)
    ensures forall n :: n in map6 ==> !n.Pool?
    ensures (forall n :: n in map6 ==> !Overlap6(n, h)) <==> Fits6(map6, h)
  {
    hide ClearLow, Aligned, Overlap6;
    forall n | n in map6 ensures !n.Pool? && (Overlap6(n, h) <==> n.Covers6(h.h6)) {
      HostConflict(h, n);
      ConflictIsOverlap(n, h);
    }
  }

  lemma DormantSorted(cfg: Config, w: World)
    requires Inv(cfg, w)
    ensures (forall x :: x in w.dormant ==> x in w.leases) && Sorted(w.dormant, w.leases)
  {
  }

  lemma HeadOfLease(cfg: Config, w: World, a: Ip4)
    requires Inv(cfg, w) && a in w.leases
    ensures 0 < HeadIndex(w.runs, a) < |w.runs|
  {
    ReleaseKeepsTiling(cfg, w, a);
  }

  lemma UniquePair(cfg: Config, w: World, a: Ip4, b: Ip6, s: nat)
    requires SlotsOk(cfg, w.cache, w.active, w.spare) && OnePerAddress(w.cache)
    requires s in w.cache && w.cache[s].a4 == a && w.cache[s].a6 == b
    ensures FindPair(w.active, w.cache, a, b) == Some(s)
  {
    hide NoDup;
  }

  lemma NoPair(cfg: Config, w: World, a: Ip4, b: Ip6, found: Option<nat>)
    requires SlotsOk(cfg, w.cache, w.active, w.spare) && OnePerAddress(w.cache)
    requires found.Some? ==> found.value in w.cache && w.cache[found.value].a4 == a && w.cache[found.value].a6 != b
    requires found == None ==> forall s :: s in w.cache ==> w.cache[s].a4 != a
    ensures FindPair(w.active, w.cache, a, b) == None
    ensures forall s :: s in w.spare ==> s !in w.cache
  {
    hide NoDup;
  }

  lemma ChainsWithNew(t4: HashTable, t6: HashTable, c: map<nat, Entry>, s: nat, e: Entry, h4: Ip4 -> nat, h6: Ip6 -> nat)
    requires Chained(t4, Keys4(c, h4)) && Chained(t6, Keys6(c, h6)) && s !in c
    ensures Chained(t4[h4(e.a4) := [s] + Bucket(t4, h4(e.a4))], Keys4(c[s := e], h4))
    ensures Chained(t6[h6(e.a6) := [s] + Bucket(t6, h6(e.a6))], Keys6(c[s := e], h6))
  {
    hide Chained, Bucket;
    assert Keys4(c[s := e], h4) == Keys4(c, h4)[s := h4(e.a4)];
    assert Keys6(c[s := e], h6) == Keys6(c, h6)[s := h6(e.a6)];
    ChainAdd(t4, Keys4(c, h4), s, h4(e.a4));
    ChainAdd(t6, Keys6(c, h6), s, h6(e.a6));
  }

  /** `ServeLease` in the order of the program: stamp, publish, link, flag. */
  lemma ServeLeaseParts(cfg: Config, w: World, a: Ip4)
    requires a in w.leases && cfg.cacheSize > 0
    ensures var w1 := w.(leases := w.leases[a := w.leases[a].(lastUse := w.now)], lastPacket := w.lastPacket[a := w.now]);
            var (w2, c) := Publish(w1, a, w.leases[a].a6);
            && w2.leases == w1.leases
            && ServeLease(cfg, w, a) == w2.(leases := w2.leases[a := w2.leases[a].(slot := c)], cache := Flag(w2.cache, c))
  {
    hide FindPair, Flag;
    var l := w.leases[a].(lastUse := w.now);
    var c := Publish(w, a, w.leases[a].a6).1;
    assert w.leases[a := l][a := l.(slot := c)] == w.leases[a := l.(slot := c)];
  }

  lemma ServeUncached(cfg: Config, w: World, a: Ip4)
    requires a in w.leases && cfg.cacheSize == 0
    ensures ServeLease(cfg, w, a)
         == w.(leases := w.leases[a := w.leases[a].(lastUse := w.now)], lastPacket := w.lastPacket[a := w.now])
  {
  }

  lemma LeaseFacts(cfg: Config, w: World, a: Ip4)
    requires InvButStamp(cfg, w, a)
    ensures a in w.leases && SlotsOk(cfg, w.cache, w.active, w.spare) && OnePerAddress(w.cache)
  {
  }

  lemma CacheSound(cfg: Config, w: World)
    requires Inv(cfg, w)
    ensures SlotsOk(cfg, w.cache, w.active, w.spare) && OnePerAddress(w.cache)
  {
  }

  lemma AdmittedGives(map4: seq<Mapping>, map6: seq<Mapping>)
    requires EntriesAdmitted(map4, map6)
    ensures forall m :: m in map4 ==> Admitted(m)
    ensures forall m :: m in map6 ==> Admitted(m) && !m.Pool?
  {
  }

  lemma NotALease(cfg: Config, w: World, a: Ip4)
    requires Inv(cfg, w) && !IsHost(FindMap4(w.map4, a))
    ensures a !in w.mapped
  {
    HostMatchIsMapped(cfg, w, a);
  }

  lemma HitFrame(w: World, s: nat)
    requires s in w.cache
    ensures Hit(w, s).map4 == w.map4 && Hit(w, s).map6 == w.map6
  {
  }

  lemma CacheFacts(cfg: Config, w: World)
    requires Inv(cfg, w)
    ensures forall s :: s in w.cache <==> s in w.active
    ensures cfg.cacheSize == 0 ==> forall s :: s !in w.cache
    ensures EntriesAdmitted(w.map4, w.map6)
    ensures forall s :: s in w.cache ==> Lookup4(cfg, w.map4, w.map6, w.cache[s].a4) == Found(w.cache[s].a6, true)
    ensures forall s, t :: s in w.cache && t in w.cache && w.cache[s].a4 == w.cache[t].a4 ==> s == t
  {
    hide Lookup4;
    if cfg.cacheSize == 0 {
      NoSlots(cfg, w);
    }
  }
}
