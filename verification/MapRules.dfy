/** The rules of the mapping table from the outside: what files may say, which address a new
    host is given, and what the cache serves. */
module MapRules {
  import opened Bits
  import opened Wrappers
  import opened Lists
  import opened AddressTables
  import opened Rfc6052
  import opened Translate
  import opened Coherence
  import opened FreeRuns
  import opened HostEntries
  import opened MapState
  import opened CacheSteps
  import opened PoolSteps
  import opened Maintenance
  import opened Loading
  import opened Reload
  import opened Lookups
  import opened MapRuns
  import opened Answers
  import opened LeaseHosts

  // ------------------------------------------------------------ rows of files

  /** A row of the map file is accepted exactly if neither prefix has host bits set, the IPv6
      side has room for the IPv4 host bits, and neither prefix, unless empty, begins in a block
      that is never used; link-local IPv4 prefixes pass. */
  lemma RowRule(a4: Ip4, l4: Len4, a6: Ip6, l6: Len6)
    ensures RowOk(Static(a4, l4, a6, l6, MapFile)) <==>
      && Aligned(a4, 32 - l4) && Aligned(a6, 128 - l6) && l6 <= 96 + l4
      && (l4 > 0 ==> !NeverTranslated(a4) || Between(a4, 0xa9fe_0000, 0xa9fe_ffff))
      && (l6 > 0 ==> !Unusable6(a6))
  {
    hide Valid6, Unusable6, Aligned;
    BlocksOf6(a6);
    DroppedBlocks(a4);
  }

  lemma DroppedBlocks(a: Ip4)
    ensures Validate4(a) != Dropped <==> !NeverTranslated(a) || Between(a, 0xa9fe_0000, 0xa9fe_ffff)
  {
  }

  /** Two rows displace each other exactly if they have one IPv4 prefix or share an IPv6 address. */
  lemma ClashRule(m: Mapping, n: Mapping)
    requires RowOk(m) && RowOk(n)
    ensures Clash(m, n) <==> (m.a4 == n.a4 && m.l4 == n.l4) || exists b: Ip6 :: m.Covers6(b) && n.Covers6(b)
  {
    hide ClearLow, Aligned, Valid6, Validate4;
    ClashIsConflict(m, n);
    ConflictIsOverlap(m, n);
  }

  /** A row is left out at the commit exactly if an entry that is not from the file has its IPv4
      prefix or shares an IPv6 address with it. */
  lemma FixedRule(cfg: Config, map4: seq<Mapping>, map6: seq<Mapping>, m: Mapping)
    requires TablesOk(cfg, map4, map6) && RowOk(m)
    ensures ConflictsFixed(map4, map6, m) <==>
      || (exists f :: f in map4 && !FileMap(f) && f.Addr4() == m.a4 && f.Length4() == m.l4)
      || (exists f :: f in map6 && !FileMap(f) && !f.Pool? && SharedAddress(f, m))
  {
    hide ClearLow, Aligned, Valid6, Validate4, Ordered4, Disjoint6, SelfPlaced, Paired, SharedAddress;
    forall f | f in map6 ensures !f.Pool? && (m.Covers6(f.Addr6()) || f.Covers6(m.Addr6()) <==> SharedAddress(f, m)) {
      TouchIsShared(f, m);
    }
  }

  ghost predicate SharedAddress(f: Mapping, m: Mapping)
    requires !f.Pool? && !m.Pool?
  {
    exists b: Ip6 :: f.Covers6(b) && m.Covers6(b)
  }

  lemma TouchIsShared(f: Mapping, m: Mapping)
    requires !f.Pool? && !m.Pool? && f.Canonical() && m.Canonical()
    ensures m.Covers6(f.Addr6()) || f.Covers6(m.Addr6()) <==> SharedAddress(f, m)
  {
    hide ClearLow, Aligned;
    ConflictIsOverlap(f, m);
    ConflictIsOverlap(m, f);
    SelfCover(f);
    SelfCover(m);
  }

  /** A row of the saved leases is accepted exactly if its address is the pool's by longest
      match, is not the first of the pool and not leased, and its host is usable and nobody's. */
  lemma AcceptRule(cfg: Config, w: World, row: Row)
    requires Inv(cfg, w)
    ensures forall m :: m in w.map6 ==> !m.Pool?
    ensures Accepts(cfg, w, row) <==>
      && cfg.pool.Some? && LongestMatch(w.map4, row.a, cfg.pool.value)
      && row.a != cfg.pool.value.base && row.a !in w.leases
      && !Unusable6(row.b) && forall m :: m in w.map6 ==> !m.Covers6(row.b)
  {
    hide Valid6, Unusable6, ClearLow, Aligned, Pow2, Tiles, Free, Leased, SlotsOk, Coherent, Linked, Stamped, HostsMatch, PoolOwns, Sorted,
         SelfPlaced, Paired, Disjoint6;
    BlocksOf6(row.b);
    if cfg.pool.Some? {
      FirstIsLongest(w.map4, row.a, cfg.pool.value);
      Covers4Range(cfg.pool.value, row.a);
      FreeXorLeased(w.runs, cfg.pool.value.base, PoolEnd(cfg.pool.value), row.a);
    }
  }

  // ------------------------------------------------------------ where the search starts

  /** Folding keeps the number modulo 2^k - 1, and makes zero of zero only. */
  lemma {:induction false} FoldKeeps(base: nat, k: nat) returns (q: nat)
    requires k >= 1
    ensures base == Fold(base, k) + q * (Pow2(k) - 1)
    ensures base > 0 ==> Fold(base, k) > 0
    decreases base
  {
    hide Pow2, Low, Shr, Shl, Fold;
    FoldCases(base, k);
    if base < Pow2(k) {
      q := 0;
    } else {
      FoldShrinks(base, k);
      var low, high := Low(base, k), Shr(base, k);
      PartsJoin(base, k);
      ShlIsProduct(high, k);
      assert low + high > 0 by { SumPositive(high, low, k, base); }
      q := FoldKeeps(low + high, k);
      FoldedOnce(low, high, q, Fold(low + high, k), Pow2(k), Times2(high, k));
      q := q + high;
    }
  }

  lemma FoldCases(base: nat, k: nat)
    requires k >= 1
    ensures Fold(base, k) == if base < Pow2(k) then base else Fold(Low(base, k) + Shr(base, k), k)
  {
    hide Low, Shr, Pow2;
    if base >= Pow2(k) {
      FoldShrinks(base, k);
    }
  }

  lemma SumPositive(high: nat, low: nat, k: nat, base: nat)
    requires base == Shl(high, k) + low && base > 0
    ensures low + high > 0
  {
    hide Pow2;
    ShlIsProduct(high, k);
  }

  lemma FoldedOnce(low: nat, high: nat, q: nat, r: nat, p: nat, product: nat)
    requires low + high == r + q * (p - 1) && product == high * p
    ensures product + low == r + (q + high) * (p - 1)
  {
    assert (q + high) * (p - 1) == q * (p - 1) + high * (p - 1);
    assert high * (p - 1) == high * p - high;
  }

  /** One more word of the host's address: 32-bit addition, modulo 2^k - 1, below 2^k. */
  lemma HashStep(w: seq<nat>, x: nat, k: nat) returns (q: nat)
    requires k >= 1
    ensures var sum := (HashPoint(w, k) + x) % 0x1_0000_0000;
            && sum == HashPoint(w + [x], k) + q * (Pow2(k) - 1)
            && (sum > 0 ==> HashPoint(w + [x], k) > 0) && HashPoint(w + [x], k) < Pow2(k)
  {
    hide Fold, Pow2;
    assert (w + [x])[..|w|] == w;
    q := FoldKeeps((HashPoint(w, k) + x) % 0x1_0000_0000, k);
  }

  /** The words of an address from the top, as a big-endian host loads them, and the bytes of
      each in the opposite order on a little-endian one. */
  lemma WordsAre(b: Ip6)
    ensures var w := NativeWords(true, b);
      && |w| == 4 && b == w[0] * 0x1_0000_0000_0000_0000_0000_0000 + w[1] * 0x1_0000_0000_0000_0000 + w[2] * 0x1_0000_0000 + w[3]
      && (forall i :: 0 <= i < 4 ==> w[i] < 0x1_0000_0000)
      && |NativeWords(false, b)| == 4 && forall i :: 0 <= i < 4 ==> NativeWords(false, b)[i] == Swap32(w[i])
  {
    var x := b / 0x1_0000_0000;
    var y := x / 0x1_0000_0000;
    var z := y / 0x1_0000_0000;
    assert b / 0x1_0000_0000_0000_0000 == y && b / 0x1_0000_0000_0000_0000_0000_0000 == z;
  }

  lemma SwapIs(a: nat, b: nat, c: nat, d: nat)
    requires a < 0x100 && b < 0x100 && c < 0x100 && d < 0x100
    ensures Swap32(a * 0x100_0000 + b * 0x1_0000 + c * 0x100 + d) == d * 0x100_0000 + c * 0x1_0000 + b * 0x100 + a
  {
    var z := a;
    var y := z * 0x100 + b;
    var x := y * 0x100 + c;
    var w := x * 0x100 + d;
    assert w / 0x100 == x && w % 0x100 == d && x / 0x100 == y && x % 0x100 == c && y / 0x100 == z && y % 0x100 == b;
    assert w / 0x1_0000 == x / 0x100 && w / 0x100_0000 == y / 0x100;
  }

  // ------------------------------------------------------------ which address a host is given

  /** A new host is given its own dormant address; else the first eligible address going round the
      pool from its starting point; else the address unused for longest; else none. */
  ghost predicate Chosen(cfg: Config, w: World, pool: Mapping, b: Ip6, first: nat, r: Option<Ip4>)
    requires pool.Pool? && pool.base <= first < PoolEnd(pool) <= 0x1_0000_0000
  {
    if exists x :: x in w.dormant && LeasedTo(w, x, b) then
      r.Some? && r.value in w.dormant && LeasedTo(w, r.value, b)
    else if exists x :: Eligible(w.map4, pool, w.runs, x) then
      r.Some? && exists n :: FirstEligible(w.map4, pool, w.runs, pool.base, PoolEnd(pool), first, 0, n, r.value)
    else if w.dormant != [] then
      r.Some? && r.value in w.dormant && r.value in w.leases
      && forall x :: x in w.dormant && x in w.leases ==> w.leases[r.value].lastUse <= w.leases[x].lastUse
    else r == None
  }

  function Given(r: Option<(Ip4, World)>): (a: Option<Ip4>) {
    if r.Some? then Some(r.value.0) else None
  }

  lemma AssignChooses(cfg: Config, w: World, b: Ip6)
    requires Inv(cfg, w) && cfg.pool.Some?
    ensures cfg.pool.value.Pool? && cfg.pool.value.poolLen <= 31 && PoolEnd(cfg.pool.value) <= 0x1_0000_0000
    ensures forall a :: a in w.dormant ==> a in w.leases
    ensures Chosen(cfg, w, cfg.pool.value, b, StartPoint(cfg.pool.value, NativeWords(cfg.bigEndian, b)), Given(Assign(cfg, w, b)))
  {
    hide Inv, NaiveScan, NativeWords, HashPoint, Pow2, Eligible, FirstEligible, Enter, TakeDormant, Create, Reassign;
    PoolFacts(cfg, w);
    var pool := cfg.pool.value;
    NoneEligible(cfg, w, b);
    ScanMeaning(w.map4, pool, w.runs, pool.base, PoolEnd(pool), StartPoint(pool, NativeWords(cfg.bigEndian, b)), 0);
    var free := FreeFor(cfg.bigEndian, w, pool, b);
    if free.Some? {
      EligibleHasHolder(cfg, w, free.value);
    }
    if w.dormant != [] {
      OldestDormant(cfg, w);
      assert w.dormant[|w.dormant| - 1] in w.dormant;
    }
  }

  // ------------------------------------------------------------ what the cache serves

  /** Both probes find the pair, stamped now. */
  ghost predicate Serves(v: World, a: Ip4, b: Ip6, now: int) {
    && Slot4(v.cache, v.active, a).Some? && Slot6(v.cache, v.active, b) == Slot4(v.cache, v.active, a)
    && v.cache[Slot4(v.cache, v.active, a).value].a6 == b && v.cache[Slot4(v.cache, v.active, a).value].lastUse == now
  }

  lemma PublishStores(w: World, a: Ip4, b: Ip6)
    requires forall s :: s in w.cache <==> s in w.active
    ensures var (v, c) := Publish(w, a, b);
      && (c.Some? <==> w.spare != [] || exists s :: s in w.cache && w.cache[s].a4 == a && w.cache[s].a6 == b)
      && (c.Some? ==> c.value in v.cache && c.value in v.active && v.cache[c.value].a4 == a && v.cache[c.value].a6 == b
                      && v.cache[c.value].lastUse == w.now)
      && (c == None ==> v == w)
  {
    hide FindPair;
  }

  lemma StoredServes(cfg: Config, v: World, a: Ip4, b: Ip6, s: nat)
    requires Inv(cfg, v) && s in v.cache && s in v.active && v.cache[s].a4 == a && v.cache[s].a6 == b
    ensures Serves(v, a, b, v.cache[s].lastUse)
  {
    hide TablesOk, PoolOk, Linked, Stamped, SlotsOk, Lookup4, Slot4, Slot6;
    var t := Slot4(v.cache, v.active, a).value;
    var u := Slot6(v.cache, v.active, b).value;
    Lookup4Injective(cfg, v.map4, v.map6, v.cache[u].a4, a, b);
  }

  /** There is a slot for the pair. */
  ghost predicate Room(cfg: Config, w: World, a: Ip4, b: Ip6) {
    cfg.cacheSize > 0 && (w.spare != [] || exists s :: s in w.cache && w.cache[s].a4 == a && w.cache[s].a6 == b)
  }

  /** The pair is stored, or there was no room and nothing is. */
  ghost predicate Stored(cfg: Config, w: World, v: World, a: Ip4, b: Ip6) {
    if Room(cfg, w, a, b) then
      exists s :: s in v.cache && s in v.active && v.cache[s].a4 == a && v.cache[s].a6 == b && v.cache[s].lastUse == w.now
    else v.cache == w.cache && v.active == w.active
  }

  lemma LeaseStores(cfg: Config, w: World, a: Ip4)
    requires a in w.leases && forall s :: s in w.cache <==> s in w.active
    ensures Stored(cfg, w, ServeLease(cfg, w, a), a, w.leases[a].a6)
  {
    hide Publish;
    PublishStores(w, a, w.leases[a].a6);
  }

  lemma StaticStores(cfg: Config, w: World, a: Ip4, b: Ip6)
    requires forall s :: s in w.cache <==> s in w.active
    ensures Stored(cfg, w, ServeStatic(cfg, w, a, b, true), a, b)
    ensures ServeStatic(cfg, w, a, b, false) == w
  {
    hide Publish;
    PublishStores(w, a, b);
  }

  lemma StoredIsServed(cfg: Config, w: World, v: World, a: Ip4, b: Ip6)
    requires Inv(cfg, v) && Stored(cfg, w, v, a, b) && Room(cfg, w, a, b)
    ensures Serves(v, a, b, w.now)
  {
    hide Inv, Room, Serves;
    var s :| s in v.cache && s in v.active && v.cache[s].a4 == a && v.cache[s].a6 == b && v.cache[s].lastUse == w.now;
    StoredServes(cfg, v, a, b, s);
  }

  /** After an answer that may be cached, both probes find the pair, unless no slot was left and the
      pair was not there yet; then, and after other answers, the cache is as it was. */
  ghost predicate CachedAfter(cfg: Config, w: World, v: World, a: Ip4, b: Ip6, pair: bool) {
    if pair && Room(cfg, w, a, b) then Serves(v, a, b, w.now) else v.cache == w.cache && v.active == w.active
  }

  lemma AnswerIsServed4(cfg: Config, w: World, a: Ip4)
    requires Inv(cfg, w)
    ensures EntriesAdmitted(w.map4, w.map6)
    ensures var (v, r) := Resolve4(cfg, w, a);
      if r.Found? then CachedAfter(cfg, w, v, a, r.addr, r.cachePair) else v == w
  {
    hide Inv, Lookup4, FindMap4, ServeLease, ServeStatic, Serves, Stored, Room, TablesOk, HostsMatch;
    Resolve4Keeps(cfg, w, a);
    InvGives(cfg, w);
    CacheIsActive(cfg, w);
    HostMatchIsMapped(cfg, w, a);
    var (v, r) := Resolve4(cfg, w, a);
    if r.Found? {
      if a in w.mapped {
        MappedIsFound(cfg, w, a);
        LeaseStores(cfg, w, a);
      } else {
        StaticStores(cfg, w, a, r.addr);
      }
      if r.cachePair && Room(cfg, w, a, r.addr) {
        StoredIsServed(cfg, w, v, a, r.addr);
      } else if r.cachePair {
        NothingStored(cfg, w, v, a, r.addr);
      }
    }
  }

  lemma NothingStored(cfg: Config, w: World, v: World, a: Ip4, b: Ip6)
    requires Stored(cfg, w, v, a, b) && !Room(cfg, w, a, b)
    ensures v.cache == w.cache && v.active == w.active
  {
    hide Room;
  }

  lemma CacheIsActive(cfg: Config, w: World)
    requires Inv(cfg, w)
    ensures forall s :: s in w.cache <==> s in w.active
  {
    hide TablesOk, PoolOk, Coherent, Linked, Stamped;
  }

  /** The same for the lookup from IPv6, with an address that is in the tables. */
  lemma AnswerIsServed6(cfg: Config, w: World, b: Ip6, alloc: bool)
    requires Inv(cfg, w)
    ensures EntriesAdmitted(w.map4, w.map6)
    ensures cfg.pool.Some? ==> cfg.pool.value.Pool? && cfg.pool.value.poolLen <= 31 && PoolEnd(cfg.pool.value) <= 0x1_0000_0000
    ensures forall a :: a in w.dormant ==> a in w.leases
    ensures FindMap6(w.map6, b) != None ==>
      var (v, r) := Resolve6(cfg, w, b, alloc);
      if r.Found? then CachedAfter(cfg, w, v, r.addr, b, r.cachePair) else v == w
  {
    hide Inv, Lookup4, Lookup6, FindMap4, FindMap6, ServeLease, ServeStatic, Serves, Stored, Room, TablesOk, HostsMatch, Assign;
    Resolve6Keeps(cfg, w, b, alloc);
    InvGives(cfg, w);
    if FindMap6(w.map6, b) != None {
      CacheIsActive(cfg, w);
      var (v, r) := Resolve6(cfg, w, b, alloc);
      if r.Found? {
        if IsHost(FindMap6(w.map6, b)) && r.addr in w.leases {
          HostMatch6IsMapped(cfg, w, b);
          MappedIsFound(cfg, w, FindMap6(w.map6, b).value.h4);
          LeaseStores(cfg, w, r.addr);
        } else {
          StaticStores(cfg, w, r.addr, b);
        }
        if r.cachePair && Room(cfg, w, r.addr, b) {
          StoredIsServed(cfg, w, v, r.addr, b);
        } else if r.cachePair {
          NothingStored(cfg, w, v, r.addr, b);
        }
      }
    }
  }

  /** A cached pair is served without the tables, and nothing but its time stamp changes. */
  lemma HitServes(cfg: Config, w: World, a: Ip4)
    requires Inv(cfg, w) && Slot4(w.cache, w.active, a).Some?
    ensures var (s, v) := (Slot4(w.cache, w.active, a).value, Step(cfg, w, Probe4(a)));
      && Serves(v, a, w.cache[s].a6, w.now)
      && v == w.(cache := v.cache, lastPacket := v.lastPacket) && v.cache.Keys == w.cache.Keys
      && forall t :: t in w.cache && t != s ==> v.cache[t] == w.cache[t]
  {
    hide Inv, Serves, Packet4;
    CacheIsActive(cfg, w);
    var s := Slot4(w.cache, w.active, a).value;
    HitKeepsInv(cfg, w, s);
    StoredServes(cfg, Hit(w, s), a, w.cache[s].a6, s);
  }

  /** Maintenance of the cache removes exactly the pairs unused for more than 120 seconds. */
  lemma AgeingRule(cfg: Config, w: World)
    requires Inv(cfg, w)
    ensures var v := Step(cfg, w, CacheMaint);
      && (forall s :: s in v.cache <==> s in w.cache && w.now <= w.cache[s].lastUse + 120)
      && forall s :: s in v.cache ==> v.cache[s] == w.cache[s]
  {
    hide Inv, AgeList;
    CacheIsActive(cfg, w);
    AgeListLeavesFresh(w, w.active);
  }
}
