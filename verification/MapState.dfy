/** The state shared by all lookups (tables, dynamic pool, cache) and its invariant. */
module MapState {
  import opened Bits
  import opened Wrappers
  import opened Lists
  import opened AddressTables
  import opened Rfc6052
  import opened Translate
  import opened Coherence
  import opened FreeRuns

  /** `struct map_dynamic`, keyed by its IPv4 address; slot is its `cache_entry`. */
  datatype Lease = Lease(a6: Ip6, lastUse: int, slot: Option<nat>)

  /** An active `struct cache_entry`; flagged is CACHE_F_REP_AGEOUT. */
  datatype Entry = Entry(a4: Ip4, a6: Ip6, lastUse: int, flagged: bool)

  /** `lastPacket` is history: when each lease last carried a packet, whether it
      was looked up in the tables or served from the cache. */
  datatype World = World(
    now: int,
    map4: seq<Mapping>,
    map6: seq<Mapping>,
    runs: seq<Run>,
    leases: map<Ip4, Lease>,
    mapped: seq<Ip4>,
    dormant: seq<Ip4>,
    cache: map<nat, Entry>,
    active: seq<nat>,
    spare: seq<nat>,
    lastPacket: map<Ip4, int>
  )

  /** Free runs tile the pool, and the lease table is exactly what they leave out. */
  ghost predicate PoolTiled(cfg: Config, map4: seq<Mapping>, runs: seq<Run>, leases: map<Ip4, Lease>) {
    match cfg.pool
    case None => leases == map[] && forall m :: m in map4 ==> !m.Pool?
    case Some(pool) =>
      && pool.Pool? && Admitted(pool) && pool in map4
      && (forall m :: m in map4 && m.Pool? ==> m == pool)
      && Tiles(runs, pool.base, pool.base + Pow2(32 - pool.poolLen))
      && pool.base + Pow2(32 - pool.poolLen) <= 0x1_0000_0000
      && (forall a: Ip4 :: a in leases <==> Leased(runs, a))
  }

  /** Each lease is on one list, once, and no two have the same IPv6 address. */
  ghost predicate Listed(leases: map<Ip4, Lease>, mapped: seq<Ip4>, dormant: seq<Ip4>) {
    && NoDup(mapped) && NoDup(dormant)
    && (forall a: Ip4 :: a in leases <==> a in mapped || a in dormant)
    && (forall a: Ip4 :: !(a in mapped && a in dormant))
    && (forall a, c :: a in leases && c in leases && leases[a].a6 == leases[c].a6 ==> a == c)
  }

  /** The host entries in the tables are those of the mapped leases. */
  ghost predicate HostsMatch(map4: seq<Mapping>, leases: map<Ip4, Lease>, mapped: seq<Ip4>) {
    && (forall a :: a in mapped ==> a in leases && Host(a, leases[a].a6) in map4)
    && (forall m :: m in map4 && m.Host? ==> m.h4 in mapped && m.h4 in leases && leases[m.h4].a6 == m.h6)
  }

  /** A range map that is wider on its IPv6 side: its pairs are never cached. */
  predicate NeverCached(m: Mapping) {
    m.Static? && m.l4 < 32 && 32 - m.l4 < 128 - m.l6
  }

  /** m is the most specific of the file's maps on a. */
  ghost predicate Foremost(rows: seq<Mapping>, a: Ip4, m: Mapping) {
    && m in rows && FileMap(m) && m.Covers4(a)
    && forall n :: n in rows && FileMap(n) && n.Covers4(a) ==> n.Length4() <= m.Length4()
  }

  /** No configured map is more specific than the pool on a leased address, and a more
      specific map from the file is one whose pairs are never cached. */
  ghost predicate PoolOwns(cfg: Config, map4: seq<Mapping>, leases: map<Ip4, Lease>) {
    && (forall a, m :: a in leases && m in map4 && m.Covers4(a) && !m.Host? && !FileMap(m) ==>
          cfg.pool.Some? && m.Length4() <= cfg.pool.value.Length4())
    && (forall a, m :: a in leases && Foremost(map4, a, m) ==>
          cfg.pool.Some? && (m.Length4() <= cfg.pool.value.Length4() || NeverCached(m)))
  }

  /** Most recently used first, so the last is the one to reuse or free. */
  ghost predicate Sorted(dormant: seq<Ip4>, leases: map<Ip4, Lease>)
    requires forall a :: a in dormant ==> a in leases
  {
    forall i, j :: 0 <= i < j < |dormant| ==> leases[dormant[i]].lastUse >= leases[dormant[j]].lastUse
  }

  ghost predicate PoolOk(cfg: Config, map4: seq<Mapping>, runs: seq<Run>, leases: map<Ip4, Lease>,
                         mapped: seq<Ip4>, dormant: seq<Ip4>) {
    && PoolTiled(cfg, map4, runs, leases)
    && Listed(leases, mapped, dormant)
    && HostsMatch(map4, leases, mapped)
    && PoolOwns(cfg, map4, leases)
    && Sorted(dormant, leases)
  }

  /** Cache storage is conserved: every slot is active or spare, once. */
  ghost predicate SlotsOk(cfg: Config, cache: map<nat, Entry>, active: seq<nat>, spare: seq<nat>) {
    && NoDup(active) && NoDup(spare)
    && (forall s :: s in cache <==> s in active)
    && (forall s :: !(s in active && s in spare))
    && (forall s :: s in active || s in spare ==> s < cfg.cacheSize)
    && |active| + |spare| == cfg.cacheSize
  }

  /** Each cached pair is what the full lookup would give, and each IPv4 address is cached once. */
  ghost predicate Coherent(cfg: Config, map4: seq<Mapping>, map6: seq<Mapping>, cache: map<nat, Entry>)
    requires EntriesAdmitted(map4, map6)
  {
    && (forall s :: s in cache ==> Lookup4(cfg, map4, map6, cache[s].a4) == Found(cache[s].a6, true))
    && (forall s, t :: s in cache && t in cache && cache[s].a4 == cache[t].a4 ==> s == t)
  }

  /** A lease points at a cache entry exactly when that entry is the one for its address. */
  ghost predicate Linked(leases: map<Ip4, Lease>, mapped: seq<Ip4>, cache: map<nat, Entry>) {
    && (forall s :: s in cache ==> (cache[s].flagged <==> cache[s].a4 in mapped))
    && (forall s :: s in cache && cache[s].a4 in mapped ==>
          cache[s].a4 in leases && leases[cache[s].a4].slot == Some(s))
    && (forall a :: a in leases && leases[a].slot.Some? ==>
          a in mapped && leases[a].slot.value in cache && cache[leases[a].slot.value].a4 == a)
  }

  /** The time stamp that maintenance will compare is that of the last packet. */
  ghost predicate Stamped(leases: map<Ip4, Lease>, cache: map<nat, Entry>, lastPacket: map<Ip4, int>) {
    && lastPacket.Keys == leases.Keys
    && forall a :: a in leases ==>
      match leases[a].slot
      case None => leases[a].lastUse == lastPacket[a]
      case Some(s) => s in cache && cache[s].lastUse == lastPacket[a]
  }

  ghost predicate Inv(cfg: Config, w: World) {
    && TablesOk(cfg, w.map4, w.map6)
    && PoolOk(cfg, w.map4, w.runs, w.leases, w.mapped, w.dormant)
    && SlotsOk(cfg, w.cache, w.active, w.spare)
    && Coherent(cfg, w.map4, w.map6, w.cache)
    && Linked(w.leases, w.mapped, w.cache)
    && Stamped(w.leases, w.cache, w.lastPacket)
  }

  // ------------------------------------------------------------ consequences

  /** The longest match of an address that is leased but not mapped is the pool, or a map
      from the file whose pairs are never cached. */
  lemma DormantMatchesPool(cfg: Config, w: World, a: Ip4)
    requires TablesOk(cfg, w.map4, w.map6) && PoolTiled(cfg, w.map4, w.runs, w.leases)
    requires PoolOwns(cfg, w.map4, w.leases) && HostsMatch(w.map4, w.leases, w.mapped)
    requires a in w.leases && a !in w.mapped
    ensures cfg.pool.Some? && FindMap4(w.map4, a).Some?
    ensures var m := FindMap4(w.map4, a).value; m == cfg.pool.value || (FileMap(m) && NeverCached(m))
  {
    hide FindMap4, ClearLow, Aligned, Pow2, Paired, SelfPlaced, Disjoint6, Ordered4, Tiles;
    var pool := cfg.pool.value;
    PoolCovers(cfg, w.map4, w.runs, w.leases, a);
    FindNone(w.map4, a);
    FindIsMember(w.map4, a);
    var m := FindMap4(w.map4, a).value;
    FirstIsLongest(w.map4, a, m);
    if m.Host? {
      HostCovers4(m, a);
    } else if FileMap(m) {
      assert Foremost(w.map4, a, m);
    }
  }

  lemma HostCovers4(h: Mapping, a: Ip4)
    requires h.Host?
    ensures h.Covers4(a) <==> a == h.h4
  {
    Whole(a);
  }

  lemma PoolCovers(cfg: Config, map4: seq<Mapping>, runs: seq<Run>, leases: map<Ip4, Lease>, a: Ip4)
    requires PoolTiled(cfg, map4, runs, leases) && a in leases
    ensures cfg.pool.Some? && cfg.pool.value.Covers4(a)
  {
    hide Tiles, Pow2, ClearLow, Aligned;
    var pool := cfg.pool.value;
    TileBounds(runs, pool.base, pool.base + Pow2(32 - pool.poolLen));
    Covers4Range(pool, a);
  }

  /** A cache hit gives what the full lookup would give, in both directions, except
      that the tables refuse to translate back the one-way pairs. */
  lemma HitMatchesLookup(cfg: Config, w: World, s: nat)
    requires Inv(cfg, w) && s in w.cache
    ensures var e := w.cache[s];
            && Lookup4(cfg, w.map4, w.map6, e.a4) == Found(e.a6, true)
            && (Lookup6(cfg, w.map4, w.map6, e.a6) == Found(e.a4, true) <==> !OneWay(w.map4, w.map6, e.a4))
            && (forall t :: t in w.cache && (w.cache[t].a4 == e.a4 || w.cache[t].a6 == e.a6) ==> t == s)
  {
    hide TablesOk, PoolOk, Lookup4, Lookup6, Linked, Stamped, SlotsOk, OneWay;
    var e := w.cache[s];
    Lookup4AgreesUnlessOneWay(cfg, w.map4, w.map6, e.a4, e.a6);
    forall t | t in w.cache && w.cache[t].a6 == e.a6 ensures t == s {
      Lookup4Injective(cfg, w.map4, w.map6, w.cache[t].a4, e.a4, e.a6);
    }
  }

  /** Free addresses, leases and the base make up the pool. */
  lemma PoolConserved(cfg: Config, w: World)
    requires Inv(cfg, w) && cfg.pool.Some?
    ensures Sum(w.runs) + |w.mapped| + |w.dormant| + 1 == Pow2(32 - cfg.pool.value.poolLen)
  {
    hide TablesOk, Coherent, Linked, Stamped, SlotsOk, HostsMatch, PoolOwns, Sorted, Sum, Tiles, Pow2, NoDup;
    var lo := cfg.pool.value.base;
    FreePlusLeased(w.runs, lo, lo + Pow2(32 - cfg.pool.value.poolLen));
    LeaseCount(w.runs, lo, lo + Pow2(32 - cfg.pool.value.poolLen), w.mapped, w.dormant);
  }

  lemma LeaseCount(runs: seq<Run>, lo: nat, hi: nat, mapped: seq<Ip4>, dormant: seq<Ip4>)
    requires Tiles(runs, lo, hi)
    requires NoDup(mapped) && NoDup(dormant) && forall a: Ip4 :: !(a in mapped && a in dormant)
    requires hi <= 0x1_0000_0000
    requires forall a: Ip4 :: Leased(runs, a) <==> a in mapped || a in dormant
    ensures |mapped| + |dormant| == |runs| - 1
  {
    hide Tiles;
    TileBounds(runs, lo, hi);
    var heads := seq(|runs| - 1, i requires 0 <= i < |runs| - 1 => runs[i + 1].addr);
    var both: seq<nat> := mapped + dormant;
    NoDupAppend(mapped, dormant);
    forall x: nat ensures x in heads <==> x in both {
      HeadIsLease(runs, heads, x);
      if x in heads {
        assert Leased(runs, x);
        var i :| 1 <= i < |runs| && runs[i].addr == x;
        assert x < 0x1_0000_0000;
      }
    }
    SameElementsSameLength(heads, both);
  }

  lemma NoDupAppend(s: seq<nat>, t: seq<nat>)
    requires NoDup(s) && NoDup(t) && forall x :: !(x in s && x in t)
    ensures NoDup(s + t)
  {
    var r := s + t;
    forall i, j | 0 <= i < j < |r| ensures r[i] != r[j] {
      if i < |s| <= j {
        assert r[i] in s && r[j] in t;
      }
    }
  }

  lemma HeadIsLease(runs: seq<Run>, heads: seq<nat>, x: nat)
    requires |heads| == |runs| - 1 && forall i :: 0 <= i < |heads| ==> heads[i] == runs[i + 1].addr
    ensures x in heads <==> Leased(runs, x)
  {
    if x in heads {
      var i :| 0 <= i < |heads| && heads[i] == x;
      assert runs[i + 1].addr == x;
    }
    if Leased(runs, x) {
      var i :| 1 <= i < |runs| && runs[i].addr == x;
      assert heads[i - 1] == x;
    }
  }

  lemma FirstIsIn(t: seq<nat>)
    ensures t != [] ==> t[0] in t
  {
  }

  lemma {:induction false} SameElementsSameLength(s: seq<nat>, t: seq<nat>)
    requires NoDup(s) && NoDup(t) && forall x :: x in s <==> x in t
    ensures |s| == |t|
  {
    if s == [] {
      FirstIsIn(t);
    } else {
      var x := s[0];
      var r := Remove(t, x);
      RemoveNoDup(t, x);
      forall y ensures y in s[1..] <==> y in r {
        assert y in s <==> y == x || y in s[1..];
        assert x !in s[1..];
      }
      SameElementsSameLength(s[1..], r);
    }
  }

  /** Before the first packet: the configured tables, the whole pool free, every slot spare. */
  lemma FreshState(cfg: Config, w: World)
    requires TablesOk(cfg, w.map4, w.map6)
    requires forall m :: m in w.map4 ==> !m.Host? && (m.Pool? ==> cfg.pool == Some(m))
    requires cfg.pool.Some? ==> cfg.pool.value.Pool? && cfg.pool.value in w.map4
    requires cfg.pool.Some? ==>
               w.runs == [Run(cfg.pool.value.base, Pow2(32 - cfg.pool.value.poolLen) - 1)]
    requires cfg.pool == None ==> w.runs == []
    requires w.leases == map[] && w.mapped == [] && w.dormant == [] && w.lastPacket == map[]
    requires w.cache == map[] && w.active == [] && w.spare == seq(cfg.cacheSize, i => i)
    ensures Inv(cfg, w)
  {
    hide Ordered4, Disjoint6, SelfPlaced, Paired, ClearLow, Pow2;
    if cfg.pool.Some? {
      Pow2Values();
      BlockFits(cfg.pool.value.base, 32 - cfg.pool.value.poolLen, 32);
    }
  }
}
