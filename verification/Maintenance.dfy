/** Assignment and periodic maintenance of the dynamic pool. */
module Maintenance {
  import opened Bits
  import opened Wrappers
  import opened Lists
  import opened AddressTables
  import opened Translate
  import opened Coherence
  import opened FreeRuns
  import opened HostEntries
  import opened MapState
  import opened CacheSteps
  import opened PoolSteps

  // ------------------------------------------------------------ assignment

  /** The dormant lease that b had, if any. */
  function FindDormant(dormant: seq<Ip4>, leases: map<Ip4, Lease>, b: Ip6): (r: Option<Ip4>)
    ensures r.Some? ==> r.value in dormant && r.value in leases && leases[r.value].a6 == b
    ensures r == None ==> forall a :: a in dormant && a in leases ==> leases[a].a6 != b
  {
    if dormant == [] then None
    else if dormant[0] in leases && leases[dormant[0]].a6 == b then Some(dormant[0])
    else FindDormant(dormant[1..], leases, b)
  }

  /** A 32-bit word with its bytes in the opposite order. */
  function Swap32(w: nat): (r: nat) {
    w % 0x100 * 0x100_0000 + w / 0x100 % 0x100 * 0x1_0000 + w / 0x1_0000 % 0x100 * 0x100 + w / 0x100_0000 % 0x100
  }

  function WordsOf(b: Ip6): (w: seq<nat>) {
    [b / 0x1_0000_0000_0000_0000_0000_0000, b / 0x1_0000_0000_0000_0000 % 0x1_0000_0000,
     b / 0x1_0000_0000 % 0x1_0000_0000, b % 0x1_0000_0000]
  }

  /** The four words of b as the host loads them. */
  function NativeWords(big: bool, b: Ip6): (w: seq<nat>) {
    var w := WordsOf(b);
    if big then w else [Swap32(w[0]), Swap32(w[1]), Swap32(w[2]), Swap32(w[3])]
  }

  function PoolEnd(pool: Mapping): (hi: nat)
    requires pool.Pool?
  {
    pool.base + Pow2(32 - pool.poolLen)
  }

  /** The address where the search for a free address for a host with words w starts. */
  function StartPoint(pool: Mapping, w: seq<nat>): (a: nat)
    requires pool.Pool? && pool.poolLen <= 31
    ensures pool.base <= a < PoolEnd(pool)
  {
    pool.base + HashPoint(w, 32 - pool.poolLen)
  }

  /** The free address that the search selects for b. */
  ghost function FreeFor(big: bool, w: World, pool: Mapping, b: Ip6): (r: Option<Ip4>)
    requires pool.Pool? && pool.poolLen <= 31 && PoolEnd(pool) <= 0x1_0000_0000
  {
    NaiveScan(w.map4, pool, w.runs, pool.base, PoolEnd(pool), StartPoint(pool, NativeWords(big, b)), 0)
  }

  /** The run that holds a free address. */
  function HolderIndex(runs: seq<Run>, a: nat): (i: nat)
    ensures i <= |runs|
    ensures i < |runs| ==> runs[i].Holds(a)
    ensures i == |runs| ==> forall j :: 0 <= j < |runs| ==> !runs[j].Holds(a)
  {
    if runs == [] || runs[0].Holds(a) then 0 else 1 + HolderIndex(runs[1..], a)
  }

  /** `assign_dynamic`: b's own dormant lease, else a free address, else the least
      recently used dormant lease, else nothing. */
  ghost function Assign(cfg: Config, w: World, b: Ip6): (r: Option<(Ip4, World)>)
    requires cfg.pool.Some? ==> cfg.pool.value.Pool? && cfg.pool.value.poolLen <= 31
                                && PoolEnd(cfg.pool.value) <= 0x1_0000_0000
    requires forall a :: a in w.dormant ==> a in w.leases
  {
    if cfg.pool == None then None
    else
      match FindDormant(w.dormant, w.leases, b)
      case Some(a) => Some((a, Enter(TakeDormant(w, a), a)))
      case None =>
        match FreeFor(cfg.bigEndian, w, cfg.pool.value, b)
        case Some(a) =>
          var i := HolderIndex(w.runs, a);
          if i == |w.runs| then None else Some((a, Enter(Create(w, i, a, b), a)))
        case None =>
          if w.dormant == [] then None
          else
            var a := w.dormant[|w.dormant| - 1];
            Some((a, Enter(Reassign(TakeDormant(w, a), a, b), a)))
  }

  lemma PoolFacts(cfg: Config, w: World)
    requires Inv(cfg, w)
    ensures cfg.pool.Some? ==> cfg.pool.value.Pool? && cfg.pool.value.poolLen <= 31
                               && PoolEnd(cfg.pool.value) <= 0x1_0000_0000
    ensures forall a :: a in w.dormant ==> a in w.leases && a !in w.mapped
    ensures forall a :: a in w.mapped ==> a in w.leases
  {
  }

  lemma InvSplit(cfg: Config, w: World, a: Ip4)
    requires Inv(cfg, w) && a in w.mapped
    ensures InvButStamp(cfg, w, a)
  {
  }

  /** An IPv6 address without table entry belongs to no mapped lease. */
  lemma UnleasedWhenNew(cfg: Config, w: World, b: Ip6)
    requires Inv(cfg, w) && FindMap6(w.map6, b) == None
    requires FindDormant(w.dormant, w.leases, b) == None
    ensures Unleased(w.leases, b)
  {
    hide FindMap4, Ordered4, Disjoint6, SelfPlaced, PoolTiled, PoolOwns, Sorted, NoDup, SlotsOk, Coherent, Linked, Stamped, ClearLow;
    forall x | x in w.leases ensures w.leases[x].a6 != b {
      if x in w.mapped {
        HostCovers(Host(x, w.leases[x].a6), x, b);
      }
    }
  }

  /** v is w with lease a mapped for b, and nothing else broken. */
  ghost predicate Assigned(cfg: Config, w: World, v: World, a: Ip4, b: Ip6) {
    && Inv(cfg, v) && a in v.mapped && a in v.leases && v.leases[a].a6 == b
    && v.now == w.now && v.mapped == [a] + w.mapped
    && (forall x :: x in w.leases && x != a ==> x in v.leases && v.leases[x] == w.leases[x])
    && (forall x :: x in w.lastPacket && x != a ==> x in v.lastPacket && v.lastPacket[x] == w.lastPacket[x])
  }

  lemma AssignReactivated(cfg: Config, w: World, a: Ip4, b: Ip6)
    requires Inv(cfg, w) && FindMap6(w.map6, b) == None && a in w.dormant && a in w.leases && w.leases[a].a6 == b
    ensures Assigned(cfg, w, Enter(TakeDormant(w, a), a), a, b)
  {
    hide Inv, InTransit, CanAddHost, Add4, Add6, FindMap6;
    TakeDormantKeeps(cfg, w, a);
    EnterKeepsInv(cfg, TakeDormant(w, a), a);
  }

  lemma AssignCreated(cfg: Config, w: World, i: nat, a: Ip4, b: Ip6)
    requires Inv(cfg, w) && FindMap6(w.map6, b) == None && cfg.pool.Some?
    requires i < |w.runs| && w.runs[i].Holds(a) && FindMap4(w.map4, a) == cfg.pool && Unleased(w.leases, b)
    ensures Assigned(cfg, w, Enter(Create(w, i, a, b), a), a, b)
  {
    hide Inv, InTransit, CanAddHost, Add4, Add6, FindMap6, FindMap4, Split, Unleased;
    CreateKeeps(cfg, w, i, a, b);
    EnterKeepsInv(cfg, Create(w, i, a, b), a);
  }

  lemma AssignReused(cfg: Config, w: World, a: Ip4, b: Ip6)
    requires Inv(cfg, w) && FindMap6(w.map6, b) == None && a in w.dormant && a in w.leases && Unleased(w.leases, b)
    ensures Assigned(cfg, w, Enter(Reassign(TakeDormant(w, a), a, b), a), a, b)
  {
    hide Inv, InTransit, CanAddHost, Add4, Add6, FindMap6;
    TakeDormantKeeps(cfg, w, a);
    ReassignKeeps(cfg, TakeDormant(w, a), a, b);
    EnterKeepsInv(cfg, Reassign(TakeDormant(w, a), a, b), a);
  }

  /** The lease that assignment gives to b is mapped, b's own, and nothing else broke. */
  lemma AssignKeeps(cfg: Config, w: World, b: Ip6)
    requires Inv(cfg, w) && FindMap6(w.map6, b) == None
    ensures cfg.pool.Some? ==> cfg.pool.value.Pool? && cfg.pool.value.poolLen <= 31 && PoolEnd(cfg.pool.value) <= 0x1_0000_0000
    ensures forall a :: a in w.dormant ==> a in w.leases
    ensures Assign(cfg, w, b).Some? ==> Assigned(cfg, w, Assign(cfg, w, b).value.1, Assign(cfg, w, b).value.0, b)
  {
    hide Inv, InTransit, FreeFor, Assigned, Enter, Create, Reassign, TakeDormant, Unleased, FindMap6, FindMap4;
    PoolFacts(cfg, w);
    if cfg.pool.Some? {
      match FindDormant(w.dormant, w.leases, b)
      case Some(a) =>
        AssignReactivated(cfg, w, a, b);
      case None =>
        UnleasedWhenNew(cfg, w, b);
        match FreeFor(cfg.bigEndian, w, cfg.pool.value, b)
        case Some(a) =>
          FreeForIsEligible(cfg, w, b);
          var i := HolderIndex(w.runs, a);
          if i < |w.runs| {
            AssignCreated(cfg, w, i, a, b);
          }
        case None =>
          if w.dormant != [] {
            AssignReused(cfg, w, w.dormant[|w.dormant| - 1], b);
          }
    }
  }

  lemma FreeForIsEligible(cfg: Config, w: World, b: Ip6)
    requires Inv(cfg, w) && cfg.pool.Some? && cfg.pool.value.Pool? && cfg.pool.value.poolLen <= 31 && PoolEnd(cfg.pool.value) <= 0x1_0000_0000
    ensures FreeFor(cfg.bigEndian, w, cfg.pool.value, b).Some? ==>
      Eligible(w.map4, cfg.pool.value, w.runs, FreeFor(cfg.bigEndian, w, cfg.pool.value, b).value)
  {
    hide Inv, NaiveScan, NativeWords, HashPoint, Pow2;
    ScanMeaning(w.map4, cfg.pool.value, w.runs, cfg.pool.value.base, PoolEnd(cfg.pool.value), StartPoint(cfg.pool.value, NativeWords(cfg.bigEndian, b)), 0);
  }

  // ------------------------------------------------------------ maintenance

  /** A mapped lease that `dynamic_maint` puts to sleep. */
  predicate Idle(cfg: Config, w: World, a: Ip4)
    requires a in w.leases
  {
    w.leases[a].slot == None && w.leases[a].lastUse + cfg.minLease < w.now
  }

  /** First loop of `dynamic_maint`, over a copy of the mapped list. */
  function SleepList(cfg: Config, w: World, list: seq<Ip4>): (r: World)
    decreases list
  {
    if list == [] then w
    else if list[0] in w.leases && Idle(cfg, w, list[0]) then
      SleepList(cfg, Settle(Leave(w, list[0]), list[0]), list[1..])
    else SleepList(cfg, w, list[1..])
  }

  /** Second loop of `dynamic_maint`: free dormant leases from the oldest on. */
  function FreeOld(cfg: Config, w: World): (r: World)
    decreases |w.dormant|
  {
    if w.dormant == [] then w
    else
      var a := w.dormant[|w.dormant| - 1];
      var v := Release(TakeDormant(w, a), a);
      if a !in w.leases || w.leases[a].lastUse + cfg.maxLease >= w.now || |v.dormant| >= |w.dormant| then w
      else FreeOld(cfg, v)
  }

  function Maintain(cfg: Config, w: World): (r: World) {
    FreeOld(cfg, SleepList(cfg, w, w.mapped))
  }

  lemma SleepOneKeeps(cfg: Config, w: World, a: Ip4)
    requires Inv(cfg, w) && a in w.mapped && a in w.leases && Idle(cfg, w, a)
    ensures var v := Settle(Leave(w, a), a);
            && Inv(cfg, v)
            && v.lastPacket == w.lastPacket && v.leases == w.leases && v.now == w.now
            && v.mapped == Remove(w.mapped, a)
            && w.lastPacket[a] + cfg.minLease < w.now
  {
    hide TablesOk, PoolOk, SlotsOk, Coherent, Linked, InTransit;
    LeaveKeeps(cfg, w, a);
    SettleKeeps(cfg, Leave(w, a), a);
  }

  /** Every lease of the list that was idle is dormant afterwards, and no other lease
      moved; an idle lease has carried no packet for more than the minimum lease time. */
  lemma {:induction false} SleepListKeeps(cfg: Config, w: World, list: seq<Ip4>)
    requires Inv(cfg, w) && NoDup(list) && forall a :: a in list ==> a in w.mapped
    ensures var v := SleepList(cfg, w, list);
            && Inv(cfg, v)
            && v.lastPacket == w.lastPacket && v.leases == w.leases && v.now == w.now
            && (forall a :: a in w.mapped ==> a in w.leases && (a !in v.mapped <==> a in list && Idle(cfg, w, a)))
            && (forall a :: a in v.mapped ==> a in w.mapped)
            && (forall a :: a in w.mapped && a !in v.mapped ==> a in w.lastPacket && w.lastPacket[a] + cfg.minLease < w.now)
    decreases list
  {
    hide Inv, Settle, Drop4;
    PoolFacts(cfg, w);
    if list == [] {
    } else {
      var a, t := list[0], list[1..];
      assert forall x :: x in list <==> x == a || x in t;
      assert a !in t;
      if Idle(cfg, w, a) {
        SleepOneKeeps(cfg, w, a);
        StampKeys(cfg, w);
        SleepListKeeps(cfg, Settle(Leave(w, a), a), t);
      } else {
        SleepListKeeps(cfg, w, t);
      }
    }
  }

  lemma StampKeys(cfg: Config, w: World)
    requires Inv(cfg, w)
    ensures forall a :: a in w.lastPacket <==> a in w.leases
  {
    assert w.lastPacket.Keys == w.leases.Keys;
  }

  lemma FreeOneKeeps(cfg: Config, w: World, a: Ip4)
    requires Inv(cfg, w) && a in w.dormant
    ensures var v := Release(TakeDormant(w, a), a);
            && Inv(cfg, v)
            && v.lastPacket == w.lastPacket - {a} && v.leases == w.leases - {a} && v.now == w.now
            && v.mapped == w.mapped && |v.dormant| < |w.dormant|
            && a in w.leases && a in w.lastPacket && w.leases[a].lastUse == w.lastPacket[a]
            && (forall x :: x in v.dormant <==> x in w.dormant && x != a)
  {
    hide TablesOk, SlotsOk, Coherent, InTransit, PoolTiled, PoolOwns, HostsMatch, Sorted, HeadIndex, Merge;
    TakeDormantKeeps(cfg, w, a);
    ReleaseKeeps(cfg, TakeDormant(w, a), a);
    RemoveNoDup(w.dormant, a);
    assert w.lastPacket.Keys == w.leases.Keys;
    assert a in w.lastPacket.Keys;
  }

  lemma OldestDormant(cfg: Config, w: World)
    requires Inv(cfg, w) && w.dormant != []
    ensures w.dormant[|w.dormant| - 1] in w.leases
    ensures forall x :: x in w.dormant ==>
              x in w.leases && w.leases[x].lastUse == w.lastPacket[x] &&
              w.leases[w.dormant[|w.dormant| - 1]].lastUse <= w.leases[x].lastUse
  {
    hide TablesOk, SlotsOk, Coherent, PoolTiled, PoolOwns, HostsMatch, NoDup;
    assert w.lastPacket.Keys == w.leases.Keys;
    LastIsOldest(w.dormant, w.leases);
  }

  /** Exactly the dormant leases without packet for more than the maximum lease time are freed. */
  lemma {:induction false} FreeOldKeeps(cfg: Config, w: World)
    requires Inv(cfg, w)
    ensures var v := FreeOld(cfg, w);
            && Inv(cfg, v) && v.mapped == w.mapped && v.now == w.now
            && (forall a :: a in w.dormant ==>
                  a in w.lastPacket &&
                  (a !in v.dormant <==> w.lastPacket[a] + cfg.maxLease < w.now))
            && (forall a :: a in v.dormant ==> a in w.dormant)
            && (forall a :: a in v.leases ==> a in w.leases && v.leases[a] == w.leases[a])
            && (forall a :: a in v.lastPacket ==> a in w.lastPacket && v.lastPacket[a] == w.lastPacket[a])
    decreases |w.dormant|
  {
    hide Inv, Release, TakeDormant;
    PoolFacts(cfg, w);
    StampKeys(cfg, w);
    if w.dormant == [] {
    } else {
      OldestDormant(cfg, w);
      var a := w.dormant[|w.dormant| - 1];
      FreeOneKeeps(cfg, w, a);
      if w.leases[a].lastUse + cfg.maxLease < w.now {
        FreeOldKeeps(cfg, Release(TakeDormant(w, a), a));
      }
    }
  }

  /** Lease lifetime: maintenance moves a lease off the mapped list exactly when no cache
      entry serves it and its last packet is older than the minimum lease, and forgets
      one exactly when it is then dormant and its last packet is older than the maximum. */
  lemma MaintainKeepsInv(cfg: Config, w: World)
    requires Inv(cfg, w)
    ensures var v := Maintain(cfg, w);
            && Inv(cfg, v) && v.now == w.now
            && (forall a :: a in v.mapped ==> a in w.mapped)
            && (forall a :: a in w.mapped ==>
                  a in w.lastPacket && a in w.leases &&
                  (a !in v.mapped <==> w.leases[a].slot == None && w.lastPacket[a] + cfg.minLease < w.now))
            && (forall a :: a in w.leases ==>
                  a in w.lastPacket &&
                  (a !in v.leases <==> a !in v.mapped && w.lastPacket[a] + cfg.maxLease < w.now))
            && (forall a :: a in v.lastPacket ==> a in w.lastPacket && v.lastPacket[a] == w.lastPacket[a])
  {
    hide Inv, SleepList, FreeOld;
    PoolFacts(cfg, w);
    StampKeys(cfg, w);
    MappedIsNoDup(cfg, w);
    SleepListKeeps(cfg, w, w.mapped);
    var u := SleepList(cfg, w, w.mapped);
    FreeOldKeeps(cfg, u);
    LeasesListed(cfg, u);
    LeasesListed(cfg, FreeOld(cfg, u));
    StampOfUncached(cfg, w);
  }

  lemma MappedIsNoDup(cfg: Config, w: World)
    requires Inv(cfg, w)
    ensures NoDup(w.mapped)
  {
  }

  lemma LeasesListed(cfg: Config, w: World)
    requires Inv(cfg, w)
    ensures forall a :: a in w.leases <==> a in w.mapped || a in w.dormant
    ensures forall a :: !(a in w.mapped && a in w.dormant)
  {
  }

  lemma StampOfUncached(cfg: Config, w: World)
    requires Inv(cfg, w)
    ensures forall a :: a in w.leases && w.leases[a].slot == None ==> a in w.lastPacket && w.lastPacket[a] == w.leases[a].lastUse
  {
    StampKeys(cfg, w);
  }
}
