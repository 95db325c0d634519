/** The life of a lease: assigned, mapped, dormant, reactivated or reassigned, freed. */
module PoolSteps {
  import opened Bits
  import opened Wrappers
  import opened Lists
  import opened AddressTables
  import opened Translate
  import opened Coherence
  import opened FreeRuns
  import opened HostEntries
  import opened MapState
  import opened CacheSteps

  // ------------------------------------------------------------ a lease in transit

  /** Lease a is on neither list and in neither table; everything else is in order. */
  ghost predicate ListedBut(leases: map<Ip4, Lease>, mapped: seq<Ip4>, dormant: seq<Ip4>, a: Ip4) {
    && NoDup(mapped) && NoDup(dormant)
    && a in leases && a !in mapped && a !in dormant
    && (forall x: Ip4 :: x in leases <==> x in mapped || x in dormant || x == a)
    && (forall x: Ip4 :: !(x in mapped && x in dormant))
    && (forall x, y :: x in leases && y in leases && leases[x].a6 == leases[y].a6 ==> x == y)
  }

  ghost predicate PoolInTransit(cfg: Config, map4: seq<Mapping>, runs: seq<Run>, leases: map<Ip4, Lease>,
                                mapped: seq<Ip4>, dormant: seq<Ip4>, a: Ip4) {
    && PoolTiled(cfg, map4, runs, leases)
    && ListedBut(leases, mapped, dormant, a)
    && HostsMatch(map4, leases, mapped)
    && PoolOwns(cfg, map4, leases)
    && Sorted(dormant, leases)
  }

  ghost predicate InTransit(cfg: Config, w: World, a: Ip4) {
    && TablesOk(cfg, w.map4, w.map6)
    && PoolInTransit(cfg, w.map4, w.runs, w.leases, w.mapped, w.dormant, a)
    && SlotsOk(cfg, w.cache, w.active, w.spare)
    && Coherent(cfg, w.map4, w.map6, w.cache)
    && Linked(w.leases, w.mapped, w.cache)
    && Stamped(w.leases, w.cache, w.lastPacket)
  }

  // ------------------------------------------------------------ dormant list

  /** Where `move_to_dormant` puts a lease last used at time t. */
  function DormantPos(dormant: seq<Ip4>, leases: map<Ip4, Lease>, t: int): (p: nat)
    ensures p <= |dormant|
    ensures forall i :: 0 <= i < p && dormant[i] in leases ==> leases[dormant[i]].lastUse >= t
    ensures p < |dormant| ==> dormant[p] in leases && leases[dormant[p]].lastUse < t
  {
    if dormant == [] || (dormant[0] in leases && leases[dormant[0]].lastUse < t) then 0
    else 1 + DormantPos(dormant[1..], leases, t)
  }

  function ToDormantList(dormant: seq<Ip4>, leases: map<Ip4, Lease>, a: Ip4): (r: seq<Ip4>)
    requires a in leases
  {
    var p := DormantPos(dormant, leases, leases[a].lastUse);
    dormant[..p] + [a] + dormant[p..]
  }

  lemma SortedTail(dormant: seq<Ip4>, leases: map<Ip4, Lease>)
    requires dormant != [] && forall x :: x in dormant ==> x in leases
    ensures Sorted(dormant, leases) <==>
      (Sorted(dormant[1..], leases) &&
       forall x :: x in dormant[1..] ==> leases[dormant[0]].lastUse >= leases[x].lastUse)
  {
    var t := dormant[1..];
    if Sorted(dormant, leases) {
      forall x | x in t ensures leases[dormant[0]].lastUse >= leases[x].lastUse {
        var i :| 0 <= i < |t| && t[i] == x;
        assert dormant[i + 1] == x;
      }
    }
  }

  lemma {:induction false} DormantInsertSorted(dormant: seq<Ip4>, leases: map<Ip4, Lease>, a: Ip4)
    requires a in leases && (forall x :: x in dormant ==> x in leases) && Sorted(dormant, leases)
    ensures forall x :: x in ToDormantList(dormant, leases, a) <==> x == a || x in dormant
    ensures Sorted(ToDormantList(dormant, leases, a), leases)
  {
    hide Sorted;
    var r := ToDormantList(dormant, leases, a);
    if dormant == [] {
      SortedTail(r, leases);
      assert Sorted(dormant, leases) && r[1..] == dormant;
    } else {
      var t := dormant[1..];
      SortedTail(dormant, leases);
      if leases[dormant[0]].lastUse < leases[a].lastUse {
        assert r == [a] + dormant && r[1..] == dormant;
        assert forall x :: x in dormant <==> x == dormant[0] || x in t;
      } else {
        DormantInsertSorted(t, leases, a);
        assert r == [dormant[0]] + ToDormantList(t, leases, a);
        assert r[1..] == ToDormantList(t, leases, a);
      }
      SortedTail(r, leases);
    }
  }

  /** The lease at the end of the dormant list is the least recently used one. */
  lemma LastIsOldest(dormant: seq<Ip4>, leases: map<Ip4, Lease>)
    requires dormant != [] && (forall x :: x in dormant ==> x in leases) && Sorted(dormant, leases)
    ensures forall x :: x in dormant ==> leases[dormant[|dormant| - 1]].lastUse <= leases[x].lastUse
  {
    forall x | x in dormant ensures leases[dormant[|dormant| - 1]].lastUse <= leases[x].lastUse {
      var i :| 0 <= i < |dormant| && dormant[i] == x;
    }
  }

  lemma {:induction false} RemoveKeepsSorted(dormant: seq<Ip4>, leases: map<Ip4, Lease>, a: Ip4)
    requires (forall x :: x in dormant ==> x in leases) && Sorted(dormant, leases)
    ensures Sorted(Remove(dormant, a), leases)
  {
    hide Sorted;
    if dormant == [] {
    } else {
      var t := dormant[1..];
      SortedTail(dormant, leases);
      RemoveKeepsSorted(t, leases, a);
      if dormant[0] != a {
        var r := Remove(dormant, a);
        assert r[1..] == Remove(t, a);
        SortedTail(r, leases);
      }
    }
  }

  /** Host entries come and go without changing which map from the file is foremost. */
  lemma HostsLeaveForemost(map4: seq<Mapping>, map4': seq<Mapping>, a: Ip4, m: Mapping)
    requires forall n: Mapping :: !n.Host? ==> (n in map4 <==> n in map4')
    ensures Foremost(map4, a, m) <==> Foremost(map4', a, m)
  {
    hide ClearLow;
  }

  lemma HostsLeaveOwns(cfg: Config, map4: seq<Mapping>, map4': seq<Mapping>, leases: map<Ip4, Lease>)
    requires PoolOwns(cfg, map4, leases) && forall n: Mapping :: !n.Host? ==> (n in map4 <==> n in map4')
    ensures PoolOwns(cfg, map4', leases)
  {
    hide ClearLow, Foremost;
    forall a, m ensures Foremost(map4, a, m) <==> Foremost(map4', a, m) {
      HostsLeaveForemost(map4, map4', a, m);
    }
  }

  /** Tiling and ownership depend only on which addresses are leased. */
  lemma SameAddressesKeep(cfg: Config, map4: seq<Mapping>, runs: seq<Run>, leases: map<Ip4, Lease>, leases': map<Ip4, Lease>)
    requires PoolTiled(cfg, map4, runs, leases) && PoolOwns(cfg, map4, leases) && leases.Keys == leases'.Keys
    ensures PoolTiled(cfg, map4, runs, leases') && PoolOwns(cfg, map4, leases')
  {
    hide Tiles, Leased, Admitted, ClearLow;
    assert forall x :: x in leases <==> x in leases';
  }

  // ------------------------------------------------------------ steps

  function TakeDormant(w: World, a: Ip4): (r: World) {
    w.(dormant := Remove(w.dormant, a))
  }

  lemma TakeDormantKeeps(cfg: Config, w: World, a: Ip4)
    requires Inv(cfg, w) && a in w.dormant
    ensures InTransit(cfg, TakeDormant(w, a), a)
  {
    hide TablesOk, PoolTiled, HostsMatch, PoolOwns, SlotsOk, Coherent, Linked, Stamped, Sorted, NoDup, Remove;
    RemoveNoDup(w.dormant, a);
    RemoveKeepsSorted(w.dormant, w.leases, a);
  }

  /** `alloc_map_dynamic` for address a of free run i. */
  function Create(w: World, i: nat, a: Ip4, b: Ip6): (r: World)
    requires i < |w.runs| && w.runs[i].Holds(a)
  {
    w.(runs := Split(w.runs, i, a), leases := w.leases[a := Lease(b, 0, None)], lastPacket := w.lastPacket[a := 0])
  }

  /** b is no lease's IPv6 address. */
  ghost predicate Unleased(leases: map<Ip4, Lease>, b: Ip6) {
    forall x :: x in leases ==> leases[x].a6 != b
  }

  lemma CreateKeepsTiling(cfg: Config, w: World, i: nat, a: Ip4, b: Ip6)
    requires PoolTiled(cfg, w.map4, w.runs, w.leases) && cfg.pool.Some?
    requires i < |w.runs| && w.runs[i].Holds(a)
    ensures a !in w.leases
    ensures PoolTiled(cfg, w.map4, Split(w.runs, i, a), w.leases[a := Lease(b, 0, None)])
  {
    hide Tiles, Pow2, Aligned, Leased, Split;
    var pool := cfg.pool.value;
    var lo, hi := pool.base, pool.base + Pow2(32 - pool.poolLen);
    assert Free(w.runs, a);
    FreeXorLeased(w.runs, lo, hi, a);
    SplitTiles(w.runs, lo, hi, i, a);
    forall x: Ip4 ensures x in w.leases[a := Lease(b, 0, None)] <==> Leased(Split(w.runs, i, a), x) {
      SplitLeases(w.runs, i, a, x);
    }
  }

  lemma CreateKeepsOwns(cfg: Config, w: World, a: Ip4, b: Ip6)
    requires TablesOk(cfg, w.map4, w.map6) && PoolOwns(cfg, w.map4, w.leases)
    requires cfg.pool.Some? && FindMap4(w.map4, a) == cfg.pool
    ensures PoolOwns(cfg, w.map4, w.leases[a := Lease(b, 0, None)])
  {
    hide ClearLow, FindMap4, Paired, SelfPlaced, Disjoint6, Ordered4;
    FirstIsLongest(w.map4, a, cfg.pool.value);
  }

  lemma CreateKeepsLists(w: World, a: Ip4, b: Ip6)
    requires Listed(w.leases, w.mapped, w.dormant) && HostsMatch(w.map4, w.leases, w.mapped) && Sorted(w.dormant, w.leases)
    requires a !in w.leases && Unleased(w.leases, b)
    ensures var leases := w.leases[a := Lease(b, 0, None)];
            && ListedBut(leases, w.mapped, w.dormant, a)
            && HostsMatch(w.map4, leases, w.mapped) && Sorted(w.dormant, leases)
  {
    hide NoDup;
    assert a !in w.mapped && a !in w.dormant;
  }

  lemma CreateKeeps(cfg: Config, w: World, i: nat, a: Ip4, b: Ip6)
    requires Inv(cfg, w) && cfg.pool.Some?
    requires i < |w.runs| && w.runs[i].Holds(a)
    requires FindMap4(w.map4, a) == cfg.pool && Unleased(w.leases, b)
    ensures InTransit(cfg, Create(w, i, a, b), a)
  {
    hide TablesOk, PoolTiled, PoolOwns, SlotsOk, Coherent, Split, FindMap4, Listed, ListedBut, HostsMatch, Sorted, Unleased;
    CreateKeepsTiling(cfg, w, i, a, b);
    CreateKeepsOwns(cfg, w, a, b);
    CreateKeepsLists(w, a, b);
    NotMapped(cfg, w, a);
  }

  lemma NotMapped(cfg: Config, w: World, a: Ip4)
    requires Inv(cfg, w) && a !in w.leases
    ensures a !in w.mapped
  {
  }

  /** The least recently used lease is given to another IPv6 host. */
  function Reassign(w: World, a: Ip4, b: Ip6): (r: World)
    requires a in w.leases
  {
    w.(leases := w.leases[a := w.leases[a].(a6 := b)])
  }

  lemma ReassignKeeps(cfg: Config, w: World, a: Ip4, b: Ip6)
    requires InTransit(cfg, w, a) && Unleased(w.leases, b)
    ensures InTransit(cfg, Reassign(w, a, b), a)
  {
    hide TablesOk, SlotsOk, Coherent, NoDup, PoolTiled, PoolOwns, Linked, Stamped;
    var leases := w.leases[a := w.leases[a].(a6 := b)];
    assert leases.Keys == w.leases.Keys;
    SameAddressesKeep(cfg, w.map4, w.runs, w.leases, leases);
    ReassignLinks(w.leases, w.mapped, w.cache, w.lastPacket, a, b);
  }

  lemma ReassignLinks(leases: map<Ip4, Lease>, mapped: seq<Ip4>, cache: map<nat, Entry>, lastPacket: map<Ip4, int>, a: Ip4, b: Ip6)
    requires Linked(leases, mapped, cache) && Stamped(leases, cache, lastPacket) && a in leases
    ensures var leases' := leases[a := leases[a].(a6 := b)];
            Linked(leases', mapped, cache) && Stamped(leases', cache, lastPacket)
  {
  }

  /** `move_to_mapped`: two inserts whose results are ignored, so that either may be refused
      and the lease counts as mapped all the same. */
  function Enter(w: World, a: Ip4): (r: World)
    requires a in w.leases
  {
    var h := Host(a, w.leases[a].a6);
    w.(map4 := if Fits4(w.map4, h) then Add4(w.map4, h) else w.map4,
       map6 := if Fits6(w.map6, h) then Add6(w.map6, h) else w.map6,
       mapped := [a] + w.mapped)
  }

  lemma CanEnter(cfg: Config, w: World, a: Ip4)
    requires InTransit(cfg, w, a) && FindMap6(w.map6, w.leases[a].a6) == None
    ensures CanAddHost(w.map4, w.map6, Host(a, w.leases[a].a6))
  {
    hide Ordered4, Disjoint6, SelfPlaced, Paired, SlotsOk, Coherent, Linked, Stamped, Sorted, NoDup, Tiles, Leased, ClearLow, Aligned, Pow2;
    var h := Host(a, w.leases[a].a6);
    forall n | n in w.map4 ensures !n.SameKey4(h) {
      if n.SameKey4(h) {
        HostCovers4(h, a);
      }
    }
  }

  /** Coherence of the cache survives a new host entry whose addresses it does not hold. */
  lemma EnterKeepsCoherent(cfg: Config, w: World, h: Mapping)
    requires TablesOk(cfg, w.map4, w.map6) && CanAddHost(w.map4, w.map6, h)
    requires Coherent(cfg, w.map4, w.map6, w.cache)
    requires forall s :: s in w.cache ==> w.cache[s].a4 != h.h4
    ensures TablesOk(cfg, Add4(w.map4, h), Add6(w.map6, h))
    ensures Coherent(cfg, Add4(w.map4, h), Add6(w.map6, h), w.cache)
  {
    hide Ordered4, Disjoint6, Paired, SelfPlaced, FindMap4, FindMap6, Lookup4, Add4, Add6, ClearLow;
    AddHostKeepsTables(cfg, w.map4, w.map6, h);
    forall s | s in w.cache
      ensures Lookup4(cfg, Add4(w.map4, h), Add6(w.map6, h), w.cache[s].a4) == Found(w.cache[s].a6, true)
    {
      var e := w.cache[s];
      ResultIsCovered(cfg, w.map4, w.map6, e.a4, e.a6);
      AddHostFinds(cfg, w.map4, w.map6, h, e.a4, e.a6);
      Lookup4Local(cfg, w.map4, w.map6, Add4(w.map4, h), Add6(w.map6, h), e.a4, e.a6);
    }
  }

  lemma ResultIsCovered(cfg: Config, map4: seq<Mapping>, map6: seq<Mapping>, a: Ip4, b: Ip6)
    requires TablesOk(cfg, map4, map6) && Lookup4(cfg, map4, map6, a) == Found(b, true)
    ensures exists m :: m in map6 && m.Covers6(b)
  {
    hide Ordered4, Disjoint6, FindMap4, FindMap6, Lookup4, ClearLow, Append, Low, Shl;
    Lookup4Covered(cfg, map4, map6, a, b);
    var m := FindMap4(map4, a).value;
    if m !in map6 {
      var p :| p in map6 && p.Rfc6052? && cfg.local6 == Append(p, cfg.local4);
      Whole(b);
    }
  }

  lemma NotCachedInTransit(cfg: Config, w: World, a: Ip4)
    requires InTransit(cfg, w, a)
    ensures forall s :: s in w.cache ==> w.cache[s].a4 != a
  {
    hide FindMap4, FindMap6, Ordered4, Disjoint6, SelfPlaced, Paired, SlotsOk, Linked, Stamped, PoolTiled, PoolOwns, Sorted, HostsMatch;
    DormantMatchesPool(cfg, w, a);
    PoolIsPool(cfg, w, a);
  }

  lemma PoolIsPool(cfg: Config, w: World, a: Ip4)
    requires InTransit(cfg, w, a)
    ensures cfg.pool.Some? && cfg.pool.value.Pool?
  {
  }

  lemma EnterKeepsPool(cfg: Config, w: World, a: Ip4)
    requires InTransit(cfg, w, a) && CanAddHost(w.map4, w.map6, Host(a, w.leases[a].a6))
    ensures PoolOk(cfg, Add4(w.map4, Host(a, w.leases[a].a6)), w.runs, w.leases, [a] + w.mapped, w.dormant)
  {
    hide TablesOk, SlotsOk, Coherent, Linked, Stamped, Tiles, Leased, ClearLow, Pow2, Aligned, InsertPos4, PoolOwns, NoDup,
         Fits6, Admitted, Inserted;
    NoDupCons(a, w.mapped);
    HostsLeaveOwns(cfg, w.map4, Add4(w.map4, Host(a, w.leases[a].a6)), w.leases);
  }

  lemma EnterKeepsInv(cfg: Config, w: World, a: Ip4)
    requires InTransit(cfg, w, a) && FindMap6(w.map6, w.leases[a].a6) == None
    ensures Inv(cfg, Enter(w, a))
    ensures Enter(w, a).mapped == [a] + w.mapped && Enter(w, a).leases == w.leases
  {
    hide TablesOk, PoolTiled, PoolOwns, HostsMatch, Sorted, NoDup, PoolOk, SlotsOk, Coherent, Fits4, Fits6, Add4, Add6;
    var h := Host(a, w.leases[a].a6);
    CanEnter(cfg, w, a);
    NotCachedInTransit(cfg, w, a);
    EnterKeepsCoherent(cfg, w, h);
    EnterKeepsPool(cfg, w, a);
    assert Linked(w.leases, [a] + w.mapped, w.cache);
  }

  // ------------------------------------------------------------ leaving

  /** The table part of `move_to_dormant`. */
  function Leave(w: World, a: Ip4): (r: World)
    requires a in w.leases
  {
    var h := Host(a, w.leases[a].a6);
    w.(map4 := Drop4(w.map4, h), map6 := Drop4(w.map6, h), mapped := Remove(w.mapped, a))
  }

  lemma LeaveKeepsCoherent(cfg: Config, w: World, h: Mapping)
    requires TablesOk(cfg, w.map4, w.map6) && h.Host? && h in w.map6
    requires Coherent(cfg, w.map4, w.map6, w.cache)
    requires forall s :: s in w.cache ==> w.cache[s].a4 != h.h4
    ensures TablesOk(cfg, Drop4(w.map4, h), Drop4(w.map6, h))
    ensures Coherent(cfg, Drop4(w.map4, h), Drop4(w.map6, h), w.cache)
  {
    hide Ordered4, Disjoint6, Paired, SelfPlaced, FindMap4, FindMap6, Lookup4, Drop4, ClearLow;
    DropHostKeepsTables(cfg, w.map4, w.map6, h);
    forall s | s in w.cache
      ensures Lookup4(cfg, Drop4(w.map4, h), Drop4(w.map6, h), w.cache[s].a4) == Found(w.cache[s].a6, true)
    {
      var e := w.cache[s];
      HostPairIsOwn(cfg, w.map4, w.map6, h, e.a4, e.a6);
      DropHostFinds(cfg, w.map4, w.map6, h, e.a4, e.a6);
      Lookup4Local(cfg, w.map4, w.map6, Drop4(w.map4, h), Drop4(w.map6, h), e.a4, e.a6);
    }
  }

  /** Only the lease's own IPv4 address is translated to its IPv6 address. */
  lemma HostPairIsOwn(cfg: Config, map4: seq<Mapping>, map6: seq<Mapping>, h: Mapping, a: Ip4, b: Ip6)
    requires TablesOk(cfg, map4, map6) && h.Host? && h in map6
    requires Lookup4(cfg, map4, map6, a) == Found(b, true)
    ensures b == h.h6 ==> a == h.h4
  {
    hide Ordered4, Disjoint6, FindMap4, FindMap6, Lookup4, ClearLow, Append, Low, Shl;
    Lookup4Covered(cfg, map4, map6, a, b);
    HostCovers(h, a, b);
    var m := FindMap4(map4, a).value;
    if b == h.h6 {
      MatchIsUnique6(map6, b, h);
      if m !in map6 {
        var p :| p in map6 && p.Rfc6052? && cfg.local6 == Append(p, cfg.local4);
        Whole(b);
        MatchIsUnique6(map6, b, p);
      }
    }
  }

  lemma LeaveKeepsPool(cfg: Config, w: World, a: Ip4)
    requires PoolOk(cfg, w.map4, w.runs, w.leases, w.mapped, w.dormant) && a in w.mapped
    ensures a in w.leases
    ensures PoolInTransit(cfg, Drop4(w.map4, Host(a, w.leases[a].a6)), w.runs, w.leases, Remove(w.mapped, a), w.dormant, a)
  {
    hide Tiles, Leased, ClearLow, Pow2, Aligned, Remove, NoDup, PoolOwns, Admitted, Drop4;
    RemoveNoDup(w.mapped, a);
    HostsLeaveOwns(cfg, w.map4, Drop4(w.map4, Host(a, w.leases[a].a6)), w.leases);
  }

  lemma LeaveKeeps(cfg: Config, w: World, a: Ip4)
    requires Inv(cfg, w) && a in w.mapped && w.leases[a].slot == None
    ensures InTransit(cfg, Leave(w, a), a)
  {
    hide Ordered4, Disjoint6, SelfPlaced, EntriesAdmitted, PoolTiled, PoolOwns, Sorted, NoDup, PoolInTransit, SlotsOk,
         Coherent, Stamped, Remove, Drop4;
    LeaveKeepsPool(cfg, w, a);
    LeaveKeepsCoherent(cfg, w, Host(a, w.leases[a].a6));
    assert Linked(w.leases, Remove(w.mapped, a), w.cache);
  }

  /** The list part of `move_to_dormant`. */
  function Settle(w: World, a: Ip4): (r: World)
    requires a in w.leases
  {
    w.(dormant := ToDormantList(w.dormant, w.leases, a))
  }

  lemma SettleKeeps(cfg: Config, w: World, a: Ip4)
    requires InTransit(cfg, w, a)
    ensures Inv(cfg, Settle(w, a))
  {
    hide TablesOk, PoolTiled, HostsMatch, PoolOwns, SlotsOk, Coherent, Linked, Stamped, Sorted, NoDup, DormantPos;
    DormantInsertSorted(w.dormant, w.leases, a);
    NoDupInsert(w.dormant, DormantPos(w.dormant, w.leases, w.leases[a].lastUse), a);
  }

  /** The run that lease a heads. */
  function HeadIndex(runs: seq<Run>, a: nat): (i: nat)
    ensures i <= |runs|
    ensures i < |runs| ==> runs[i].addr == a
    ensures i == |runs| ==> forall j :: 0 <= j < |runs| ==> runs[j].addr != a
  {
    if runs == [] || runs[0].addr == a then 0 else 1 + HeadIndex(runs[1..], a)
  }

  /** The lease is freed: the run before it absorbs its address and its run. */
  function Release(w: World, a: Ip4): (r: World)
  {
    var i := HeadIndex(w.runs, a);
    w.(runs := if 0 < i < |w.runs| then Merge(w.runs, i) else w.runs,
       leases := w.leases - {a}, lastPacket := w.lastPacket - {a})
  }

  lemma ReleaseKeepsTiling(cfg: Config, w: World, a: Ip4)
    requires PoolTiled(cfg, w.map4, w.runs, w.leases) && a in w.leases
    ensures 0 < HeadIndex(w.runs, a) < |w.runs|
    ensures PoolTiled(cfg, w.map4, Merge(w.runs, HeadIndex(w.runs, a)), w.leases - {a})
  {
    hide Tiles, Pow2, Aligned, Merge, HeadIndex;
    var pool := cfg.pool.value;
    var lo, hi := pool.base, pool.base + Pow2(32 - pool.poolLen);
    FreeXorLeased(w.runs, lo, hi, a);
    TileStart(w.runs, lo, hi);
    var i := HeadIndex(w.runs, a);
    MergeTiles(w.runs, lo, hi, i);
    forall x: Ip4 ensures x in w.leases - {a} <==> Leased(Merge(w.runs, i), x) {
      MergeLeases(w.runs, lo, hi, i, x);
    }
  }

  lemma TileStart(runs: seq<Run>, lo: nat, hi: nat)
    requires Tiles(runs, lo, hi)
    ensures runs != [] && runs[0].addr == lo
  {
  }

  lemma ReleaseKeepsLists(w: World, a: Ip4)
    requires ListedBut(w.leases, w.mapped, w.dormant, a) && HostsMatch(w.map4, w.leases, w.mapped) && Sorted(w.dormant, w.leases)
    ensures var leases := w.leases - {a};
            && Listed(leases, w.mapped, w.dormant)
            && HostsMatch(w.map4, leases, w.mapped) && Sorted(w.dormant, leases)
  {
    hide NoDup;
  }

  lemma ReleaseLinks(leases: map<Ip4, Lease>, mapped: seq<Ip4>, cache: map<nat, Entry>, lastPacket: map<Ip4, int>, a: Ip4)
    requires Linked(leases, mapped, cache) && Stamped(leases, cache, lastPacket) && a !in mapped
    ensures Linked(leases - {a}, mapped, cache) && Stamped(leases - {a}, cache, lastPacket - {a})
  {
  }

  lemma ReleaseKeeps(cfg: Config, w: World, a: Ip4)
    requires InTransit(cfg, w, a)
    ensures Inv(cfg, Release(w, a))
  {
    hide TablesOk, PoolTiled, SlotsOk, Coherent, NoDup, Merge, HeadIndex, Linked, Stamped, Sorted, HostsMatch;
    ReleaseKeepsTiling(cfg, w, a);
    ReleaseKeepsLists(w, a);
    ReleaseLinks(w.leases, w.mapped, w.cache, w.lastPacket, a);
  }
}
