/** How long an IPv6 host keeps its IPv4 address: exactly until maintenance finds the lease
    overdue, or a new host is given the least recently used dormant lease of a full pool. */
module LeaseHosts {
  import opened Bits
  import opened Wrappers
  import opened AddressTables
  import opened Translate
  import opened Coherence
  import opened FreeRuns
  import opened HostEntries
  import opened MapState
  import opened CacheSteps
  import opened PoolSteps
  import opened Maintenance
  import opened Loading
  import opened Reload
  import opened Lookups
  import opened MapRuns

  predicate LeasedTo(w: World, a: Ip4, b: Ip6) {
    a in w.leases && w.leases[a].a6 == b
  }

  /** Maintenance at a time when lease a is not needed any more. */
  predicate Overdue(cfg: Config, w: World, e: Event, a: Ip4) {
    && e.PoolMaint? && a in w.leases && a in w.lastPacket && w.lastPacket[a] + cfg.maxLease < w.now
    && (a in w.mapped ==> w.leases[a].slot == None && w.lastPacket[a] + cfg.minLease < w.now)
  }

  /** A packet of a new host for which no address of the pool is eligible, while a is the
      last of the dormant leases. */
  ghost predicate Evicts(cfg: Config, w: World, e: Event, a: Ip4) {
    && e.Miss6? && e.alloc && cfg.pool.Some?
    && (forall m :: m in w.map6 ==> !m.Pool?) && FindMap6(w.map6, e.b) == None
    && (forall x :: x in w.dormant && x in w.leases ==> w.leases[x].a6 != e.b)
    && (forall x :: !Eligible(w.map4, cfg.pool.value, w.runs, x))
    && w.dormant != [] && w.dormant[|w.dormant| - 1] == a
  }

  // ------------------------------------------------------------ one step

  lemma ServeLeaseHosts(cfg: Config, w: World, x: Ip4, a: Ip4, b: Ip6)
    requires x in w.leases
    ensures LeasedTo(ServeLease(cfg, w, x), a, b) <==> LeasedTo(w, a, b)
  {
    hide Publish, Flag;
  }

  lemma Miss4Hosts(cfg: Config, w: World, x: Ip4, a: Ip4, b: Ip6)
    requires EntriesAdmitted(w.map4, w.map6)
    ensures LeasedTo(Resolve4(cfg, w, x).0, a, b) <==> LeasedTo(w, a, b)
  {
    hide ServeLease, ServeStatic, Lookup4, FindMap4, Admitted;
    match Lookup4(cfg, w.map4, w.map6, x)
    case Found(y, pair) =>
      if IsHost(FindMap4(w.map4, x)) && x in w.leases {
        ServeLeaseHosts(cfg, w, x, a, b);
      } else {
        ServeStaticFrame(cfg, w, x, y, pair);
      }
    case Rejected =>
    case Drop =>
  }

  /** The whole pool is gone round. */
  lemma GoesRound(lo: nat, hi: nat, first: nat, x: nat)
    requires lo <= first < hi && lo <= x < hi
    ensures exists j :: 0 <= j < hi - lo && Around(lo, hi, first, j) == x
  {
    assert Around(lo, hi, first, if x >= first then x - first else x + (hi - lo) - first) == x;
  }

  lemma EligibleInPool(cfg: Config, w: World, x: nat)
    requires Inv(cfg, w) && cfg.pool.Some? && cfg.pool.value.Pool? && cfg.pool.value.poolLen <= 31
    requires Eligible(w.map4, cfg.pool.value, w.runs, x)
    ensures cfg.pool.value.base <= x < PoolEnd(cfg.pool.value)
  {
    hide TablesOk, SlotsOk, Coherent, Linked, Stamped, Tiles, Free, Leased, Pow2, FindMap4, HostsMatch, PoolOwns;
    FindIsMember(w.map4, x);
    Covers4Range(cfg.pool.value, x);
  }

  /** No address is selected exactly when none is eligible. */
  lemma NoneEligible(cfg: Config, w: World, y: Ip6)
    requires Inv(cfg, w) && cfg.pool.Some? && cfg.pool.value.Pool? && cfg.pool.value.poolLen <= 31 && PoolEnd(cfg.pool.value) <= 0x1_0000_0000
    ensures FreeFor(cfg.bigEndian, w, cfg.pool.value, y) == None <==>
            forall x :: !Eligible(w.map4, cfg.pool.value, w.runs, x)
  {
    hide Inv, NaiveScan, NativeWords, HashPoint, Pow2, Around, Eligible;
    var pool := cfg.pool.value;
    var lo, hi, first := pool.base, PoolEnd(pool), StartPoint(pool, NativeWords(cfg.bigEndian, y));
    ScanMeaning(w.map4, pool, w.runs, lo, hi, first, 0);
    if FreeFor(cfg.bigEndian, w, pool, y) == None {
      forall x | Eligible(w.map4, pool, w.runs, x) ensures false {
        EligibleInPool(cfg, w, x);
        GoesRound(lo, hi, first, x);
      }
    }
  }

  /** Assignment to y takes no lease from its host, except that reuse takes the oldest one. */
  lemma AssignHosts(cfg: Config, w: World, y: Ip6, a: Ip4)
    requires Inv(cfg, w) && (forall m :: m in w.map6 ==> !m.Pool?) && FindMap6(w.map6, y) == None && a in w.leases
    requires cfg.pool.Some? ==> cfg.pool.value.Pool? && cfg.pool.value.poolLen <= 31 && PoolEnd(cfg.pool.value) <= 0x1_0000_0000
    requires forall x :: x in w.dormant ==> x in w.leases
    ensures match Assign(cfg, w, y)
      case None => !Evicts(cfg, w, Miss6(y, true), a)
      case Some(p) => LeasedTo(p.1, a, w.leases[a].a6) <==> !Evicts(cfg, w, Miss6(y, true), a)
  {
    hide Inv, FreeFor, FindMap6, FindMap4, Eligible, Split, Enter, TakeDormant, Create, Reassign;
    AssignKeeps(cfg, w, y);
    if cfg.pool.Some? {
      NoneEligible(cfg, w, y);
      match FindDormant(w.dormant, w.leases, y)
      case Some(x) => ReactivatedHosts(w, x);
      case None =>
        UnleasedWhenNew(cfg, w, y);
        match FreeFor(cfg.bigEndian, w, cfg.pool.value, y)
        case Some(x) =>
          FreeForIsEligible(cfg, w, y);
          var i := HolderIndex(w.runs, x);
          if i < |w.runs| {
            CreatedHosts(cfg, w, i, x, y);
          } else {
            EligibleHasHolder(cfg, w, x);
          }
        case None =>
          if w.dormant != [] {
            ReusedHosts(w, w.dormant[|w.dormant| - 1], y);
          }
    }
  }

  lemma EligibleHasHolder(cfg: Config, w: World, x: Ip4)
    requires cfg.pool.Some? && Eligible(w.map4, cfg.pool.value, w.runs, x)
    ensures HolderIndex(w.runs, x) < |w.runs|
  {
    hide FindMap4;
  }

  lemma ReactivatedHosts(w: World, x: Ip4)
    requires x in w.leases
    ensures Enter(TakeDormant(w, x), x).leases == w.leases
  {
  }

  lemma CreatedHosts(cfg: Config, w: World, i: nat, x: Ip4, y: Ip6)
    requires Inv(cfg, w) && cfg.pool.Some? && i < |w.runs| && w.runs[i].Holds(x)
    ensures x !in w.leases && Enter(Create(w, i, x, y), x).leases == w.leases[x := Lease(y, 0, None)]
  {
    hide Inv, Split;
    NewAddress(cfg, w, x);
  }

  lemma ReusedHosts(w: World, x: Ip4, y: Ip6)
    requires x in w.leases
    ensures Enter(Reassign(TakeDormant(w, x), x, y), x).leases == w.leases[x := w.leases[x].(a6 := y)]
  {
  }

  lemma Miss6Hosts(cfg: Config, w: World, y: Ip6, alloc: bool, a: Ip4)
    requires Inv(cfg, w) && EntriesAdmitted(w.map4, w.map6) && a in w.leases
    requires cfg.pool.Some? ==> cfg.pool.value.Pool? && cfg.pool.value.poolLen <= 31 && PoolEnd(cfg.pool.value) <= 0x1_0000_0000
    requires forall x :: x in w.dormant ==> x in w.leases
    ensures LeasedTo(Resolve6(cfg, w, y, alloc).0, a, w.leases[a].a6) <==> !Evicts(cfg, w, Miss6(y, alloc), a)
  {
    hide Inv, ServeLease, ServeStatic, Lookup6, FindMap6, Admitted, Assign, Assigned;
    var b := w.leases[a].a6;
    if FindMap6(w.map6, y) == None {
      if alloc {
        AssignHosts(cfg, w, y, a);
        AssignKeeps(cfg, w, y);
        match Assign(cfg, w, y)
        case Some(p) =>
          AssignedIn(cfg, w, p.1, p.0, y);
          ServeLeaseHosts(cfg, p.1, p.0, a, b);
        case None =>
      }
    } else {
      match Lookup6(cfg, w.map4, w.map6, y)
      case Found(x, pair) =>
        if IsHost(FindMap6(w.map6, y)) && x in w.leases {
          ServeLeaseHosts(cfg, w, x, a, b);
        } else {
          ServeStaticFrame(cfg, w, x, y, pair);
        }
      case Rejected =>
      case Drop =>
    }
  }

  /** A step takes the address from its host in these two ways and no other. */
  lemma StepEndsLease(cfg: Config, w: World, e: Event, a: Ip4, b: Ip6)
    requires Inv(cfg, w) && Legal(cfg, w, e) && LeasedTo(w, a, b)
    ensures LeasedTo(Step(cfg, w, e), a, b) <==> !Overdue(cfg, w, e, a) && !Evicts(cfg, w, e, a)
  {
    hide Inv, Resolve4, Resolve6, AgeList, Maintain, ReloadFile, LeavesLeasesAlone, RowsOk, Survivors, StageAll, Eligible;
    InvGives(cfg, w);
    match e
    case Tick(_) =>
    case Probe4(_) =>
    case Probe6(_) =>
    case Miss4(x) => Miss4Hosts(cfg, w, x, a, b);
    case Miss6(y, alloc) => Miss6Hosts(cfg, w, y, alloc, a);
    case CacheMaint => AgeListSame6(w, w.active, a);
    case PoolMaint =>
      MaintainKeepsInv(cfg, w);
      MaintainSame(cfg, w, a);
      assert a in w.lastPacket.Keys;
    case ReloadMaps(rows, failed) => ReloadSame6(w, rows, failed, a);
  }

  // ------------------------------------------------------------ runs

  /** Over any run the host keeps its address exactly as long as none of the steps is one of these. */
  lemma {:induction false} RunKeepsHost(cfg: Config, worlds: seq<World>, events: seq<Event>, i: nat, n: nat, a: Ip4, b: Ip6)
    requires IsRun(cfg, worlds, events) && i <= n <= |events| && LeasedTo(worlds[i], a, b)
    ensures (forall k :: i <= k <= n ==> LeasedTo(worlds[k], a, b)) <==>
            (forall k :: i <= k < n ==> !Overdue(cfg, worlds[k], events[k], a) && !Evicts(cfg, worlds[k], events[k], a))
    decreases n
  {
    hide Inv, Step, Legal, LeasedTo, Overdue, Evicts;
    if i < n {
      RunKeepsHost(cfg, worlds, events, i, n - 1, a, b);
      if LeasedTo(worlds[n - 1], a, b) {
        RunKeepsInv(cfg, worlds, events, n - 1);
        assert Follows(cfg, worlds[n - 1], events[n - 1], worlds[n]);
        StepEndsLease(cfg, worlds[n - 1], events[n - 1], a, b);
      }
    }
  }

  /** A host that has a lease is given its address again, dormant or not, unless another
      entry covers the host by then. */
  lemma ReturnGivesOld(cfg: Config, w: World, a: Ip4, b: Ip6)
    requires Inv(cfg, w) && LeasedTo(w, a, b) && (a in w.mapped || FindMap6(w.map6, b) == None)
    ensures EntriesAdmitted(w.map4, w.map6)
    ensures cfg.pool.Some? ==> cfg.pool.value.Pool? && cfg.pool.value.poolLen <= 31 && PoolEnd(cfg.pool.value) <= 0x1_0000_0000
    ensures forall x :: x in w.dormant ==> x in w.leases
    ensures Resolve6(cfg, w, b, true).1 == Found(a, true)
  {
    hide Inv, ServeLease, ServeStatic, Lookup6, FindMap6, Admitted, FreeFor, Enter, TakeDormant;
    InvGives(cfg, w);
    LeasesListed(cfg, w);
    if a in w.mapped {
      MappedIsFound(cfg, w, a);
    } else {
      OneLeaseEach(cfg, w, a);
    }
  }

  lemma OneLeaseEach(cfg: Config, w: World, a: Ip4)
    requires Inv(cfg, w) && a in w.leases && a in w.dormant
    ensures FindDormant(w.dormant, w.leases, w.leases[a].a6) == Some(a) && cfg.pool.Some?
  {
    hide TablesOk, SlotsOk, Coherent, Linked, Stamped, Tiles, Free, Leased, Pow2, HostsMatch, PoolOwns, Sorted;
  }
}
