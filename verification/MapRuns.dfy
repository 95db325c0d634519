/** Runs: any interleaving of packets, clock ticks, maintenance and reloads, one lock
    region at a time. The cache probe of a lookup and its map-lock region are separate
    events, so other workers may act between them. */
module MapRuns {
  import opened Wrappers
  import opened Lists
  import opened AddressTables
  import opened Translate
  import opened Coherence
  import opened FreeRuns
  import opened HostEntries
  import opened MapState
  import opened CacheSteps
  import opened PoolSteps
  import opened Maintenance
  import opened Loading
  import opened Reload
  import opened Lookups

  datatype Event =
    | Tick(time: int)
    | Probe4(a: Ip4)
    | Probe6(b: Ip6)
    | Miss4(a: Ip4)
    | Miss6(b: Ip6, alloc: bool)
    | CacheMaint
    | PoolMaint
    | ReloadMaps(rows: seq<Mapping>, failed: bool)

  function Slot4(cache: map<nat, Entry>, active: seq<nat>, a: Ip4): (r: Option<nat>)
    ensures r.Some? ==> r.value in active && r.value in cache && cache[r.value].a4 == a
    ensures r == None ==> forall s :: s in active && s in cache ==> cache[s].a4 != a
  {
    if active == [] then None
    else if active[0] in cache && cache[active[0]].a4 == a then Some(active[0])
    else Slot4(cache, active[1..], a)
  }

  function Slot6(cache: map<nat, Entry>, active: seq<nat>, b: Ip6): (r: Option<nat>)
    ensures r.Some? ==> r.value in active && r.value in cache && cache[r.value].a6 == b
    ensures r == None ==> forall s :: s in active && s in cache ==> cache[s].a6 != b
  {
    if active == [] then None
    else if active[0] in cache && cache[active[0]].a6 == b then Some(active[0])
    else Slot6(cache, active[1..], b)
  }

  /** Time does not go back, and a reload adds no map inside the pool over a leased address. */
  ghost predicate Legal(cfg: Config, w: World, e: Event) {
    match e
    case Tick(t) => w.now <= t
    case ReloadMaps(rows, failed) =>
      RowsOk(rows) && (forall m :: m in rows ==> !m.Pool?) &&
      (!failed ==> LeavesLeasesAlone(cfg, w, Survivors(w.map4, w.map6, StageAll(rows))))
    case _ => true
  }

  ghost function Step(cfg: Config, w: World, e: Event): (v: World)
    requires Inv(cfg, w) && Legal(cfg, w, e)
  {
    InvGives(cfg, w);
    match e
    case Tick(t) => w.(now := t)
    case Probe4(a) =>
      (match Slot4(w.cache, w.active, a)
       case Some(s) => Hit(w, s)
       case None => w)
    case Probe6(b) =>
      (match Slot6(w.cache, w.active, b)
       case Some(s) => Hit(w, s)
       case None => w)
    case Miss4(a) => Resolve4(cfg, w, a).0
    case Miss6(b, alloc) => Resolve6(cfg, w, b, alloc).0
    case CacheMaint => AgeList(w, w.active)
    case PoolMaint => Maintain(cfg, w)
    case ReloadMaps(rows, failed) => ReloadFile(w, rows, failed)
  }

  lemma StepKeepsInv(cfg: Config, w: World, e: Event)
    requires Inv(cfg, w) && Legal(cfg, w, e)
    ensures Inv(cfg, Step(cfg, w, e))
  {
    hide Inv, Hit, Resolve4, Resolve6, AgeList, Maintain, ReloadFile, LeavesLeasesAlone, RowsOk, Survivors, StageAll;
    match e
    case Tick(t) => TickKeepsInv(cfg, w, t);
    case Probe4(a) =>
      if Slot4(w.cache, w.active, a).Some? {
        HitKeepsInv(cfg, w, Slot4(w.cache, w.active, a).value);
      }
    case Probe6(b) =>
      if Slot6(w.cache, w.active, b).Some? {
        HitKeepsInv(cfg, w, Slot6(w.cache, w.active, b).value);
      }
    case Miss4(a) => Resolve4Keeps(cfg, w, a);
    case Miss6(b, alloc) => Resolve6Keeps(cfg, w, b, alloc);
    case CacheMaint => AgeListKeepsInv(cfg, w, w.active);
    case PoolMaint => MaintainKeepsInv(cfg, w);
    case ReloadMaps(rows, failed) => ReloadKeepsInv(cfg, w, rows, failed);
  }

  lemma TickKeepsInv(cfg: Config, w: World, t: int)
    requires Inv(cfg, w)
    ensures Inv(cfg, w.(now := t))
  {
  }

  // ------------------------------------------------------------ one lease in one step

  /** Lease a is mapped for b, and carried a packet at time t or later. */
  predicate Serving(w: World, a: Ip4, b: Ip6, t: int) {
    && a in w.mapped && a in w.leases && w.leases[a].a6 == b
    && a in w.lastPacket && w.lastPacket[a] >= t
  }

  lemma {:induction false} AgeListSame6(w: World, list: seq<nat>, a: Ip4)
    requires a in w.leases
    ensures a in AgeList(w, list).leases && AgeList(w, list).leases[a].a6 == w.leases[a].a6
    decreases list
  {
    hide Expired, FindMap4, Remove;
    if list == [] {
    } else if list[0] in w.cache && Expired(w, list[0]) {
      AgeListSame6(Retire(w, list[0]), list[1..], a);
    } else {
      AgeListSame6(w, list[1..], a);
    }
  }

  lemma {:induction false} RetireListSame6(w: World, list: seq<nat>, a: Ip4)
    requires a in w.leases
    ensures a in RetireList(w, list).leases && RetireList(w, list).leases[a].a6 == w.leases[a].a6
    decreases list
  {
    hide FindMap4, Remove;
    if list == [] {
    } else if list[0] in w.cache {
      RetireListSame6(Retire(w, list[0]), list[1..], a);
    } else {
      RetireListSame6(w, list[1..], a);
    }
  }

  /** A mapped lease keeps its IPv6 host as long as it is mapped: its table entry says so. */
  lemma Entry6(cfg: Config, w: World, a: Ip4, b: Ip6)
    requires Inv(cfg, w) && a in w.mapped
    ensures Host(a, b) in w.map4 <==> w.leases[a].a6 == b
  {
    hide TablesOk, PoolTiled, PoolOwns, Sorted, SlotsOk, Coherent, Linked, Stamped;
  }

  lemma ServeLeaseEntry(cfg: Config, w: World, a: Ip4)
    requires a in w.leases
    ensures ServeLease(cfg, w, a).map4 == w.map4
  {
    hide Publish, Flag;
    PublishFrame(w, a, w.leases[a].a6);
  }

  lemma ServeStaticEntry(cfg: Config, w: World, a: Ip4, b: Ip6, pair: bool)
    ensures ServeStatic(cfg, w, a, b, pair).map4 == w.map4
  {
    hide Publish;
    PublishFrame(w, a, b);
  }

  lemma Resolve4Entries(cfg: Config, w: World, a: Ip4)
    requires Inv(cfg, w) && EntriesAdmitted(w.map4, w.map6)
    ensures Resolve4(cfg, w, a).0.map4 == w.map4
  {
    hide Inv, ServeLease, ServeStatic, Lookup4, FindMap4, Admitted;
    match Lookup4(cfg, w.map4, w.map6, a)
    case Found(b, pair) =>
      if IsHost(FindMap4(w.map4, a)) && a in w.leases {
        ServeLeaseEntry(cfg, w, a);
      } else {
        ServeStaticEntry(cfg, w, a, b, pair);
      }
    case Rejected =>
    case Drop =>
  }

  /** A lease that carried a packet at time t stays mapped for its host through any step
      taken no later than the minimum lease after t. */
  lemma StepKeepsServing(cfg: Config, w: World, e: Event, a: Ip4, b: Ip6, t: int)
    requires Inv(cfg, w) && Legal(cfg, w, e)
    requires Serving(w, a, b, t) && t <= w.now <= t + cfg.minLease
    ensures Serving(Step(cfg, w, e), a, b, t)
  {
    hide Inv, Resolve4, Resolve6, AgeList, Maintain, ReloadFile, LeavesLeasesAlone, RowsOk, Survivors, StageAll;
    StepKeepsInv(cfg, w, e);
    InvGives(cfg, w);
    match e
    case Tick(_) =>
    case Probe4(_) =>
    case Probe6(_) =>
    case Miss4(x) => Miss4KeepsServing(cfg, w, x, a, b, t);
    case Miss6(y, alloc) => Miss6KeepsServing(cfg, w, y, alloc, a, b, t);
    case CacheMaint =>
      AgeListKeepsInv(cfg, w, w.active);
      AgeListSame6(w, w.active, a);
    case PoolMaint =>
      MaintainKeepsInv(cfg, w);
      MaintainSame(cfg, w, a);
      InvGives(cfg, Maintain(cfg, w));
    case ReloadMaps(rows, failed) =>
      ReloadKeepsInv(cfg, w, rows, failed);
      ReloadSame6(w, rows, failed, a);
  }

  lemma Miss4KeepsServing(cfg: Config, w: World, x: Ip4, a: Ip4, b: Ip6, t: int)
    requires Inv(cfg, w) && Serving(w, a, b, t) && t <= w.now && EntriesAdmitted(w.map4, w.map6)
    ensures Serving(Resolve4(cfg, w, x).0, a, b, t)
  {
    hide Inv, Resolve4, EntriesAdmitted, Lookup4;
    var v := Resolve4(cfg, w, x).0;
    Resolve4Keeps(cfg, w, x);
    Resolve4Entries(cfg, w, x);
    assert a in v.leases.Keys;
    Entry6(cfg, w, a, b);
    Entry6(cfg, v, a, b);
    InvGives(cfg, v);
  }

  lemma ReloadSame6(w: World, rows: seq<Mapping>, failed: bool, a: Ip4)
    requires a in w.leases && forall m :: m in rows ==> !m.Pool?
    ensures a in ReloadFile(w, rows, failed).leases && ReloadFile(w, rows, failed).leases[a].a6 == w.leases[a].a6
  {
    hide Survivors, StageAll, CommitTables, RetireList;
    if !failed {
      var (map4, map6) := CommitTables(w, Survivors(w.map4, w.map6, StageAll(rows)));
      RetireListSame6(w.(map4 := map4, map6 := map6), w.active, a);
    }
  }

  lemma MaintainSame(cfg: Config, w: World, a: Ip4)
    requires Inv(cfg, w)
    ensures a in Maintain(cfg, w).leases ==> a in w.leases && Maintain(cfg, w).leases[a] == w.leases[a]
    ensures Maintain(cfg, w).now == w.now
  {
    hide Inv, SleepList, FreeOld;
    MappedIsNoDup(cfg, w);
    SleepListKeeps(cfg, w, w.mapped);
    FreeOldKeeps(cfg, SleepList(cfg, w, w.mapped));
  }

  lemma AssignSame6(cfg: Config, w: World, u: World, x: Ip4, y: Ip6, a: Ip4)
    requires Assigned(cfg, w, u, x, y) && a in w.leases && a != x
    ensures a in u.leases
    ensures a in ServeLease(cfg, u, x).leases && ServeLease(cfg, u, x).leases[a].a6 == w.leases[a].a6
  {
    hide Inv, Publish, Flag;
  }

  lemma NewLeaseIsOther(cfg: Config, w: World, u: World, x: Ip4, y: Ip6)
    requires Assigned(cfg, w, u, x, y)
    ensures x !in w.mapped
  {
    hide Inv;
    MappedIsNoDup(cfg, u);
    NoDupHead(x, w.mapped);
  }

  lemma Miss6KeepsServing(cfg: Config, w: World, y: Ip6, alloc: bool, a: Ip4, b: Ip6, t: int)
    requires Inv(cfg, w) && Serving(w, a, b, t) && t <= w.now && EntriesAdmitted(w.map4, w.map6)
    requires cfg.pool.Some? ==> cfg.pool.value.Pool? && cfg.pool.value.poolLen <= 31 && PoolEnd(cfg.pool.value) <= 0x1_0000_0000
    requires forall x :: x in w.dormant ==> x in w.leases
    ensures Serving(Resolve6(cfg, w, y, alloc).0, a, b, t)
  {
    hide Inv, Lookup6, Resolve6, Assign, Assigned, Admitted, FindMap6;
    var v := Resolve6(cfg, w, y, alloc).0;
    Resolve6Keeps(cfg, w, y, alloc);
    InvGives(cfg, v);
    if FindMap6(w.map6, y) == None && alloc {
      Miss6Same6(cfg, w, y, a);
    } else {
      Resolve6Entries(cfg, w, y, alloc);
      Entry6(cfg, w, a, b);
      Entry6(cfg, v, a, b);
    }
  }

  lemma Miss6Same6(cfg: Config, w: World, y: Ip6, a: Ip4)
    requires Inv(cfg, w) && EntriesAdmitted(w.map4, w.map6) && FindMap6(w.map6, y) == None && a in w.mapped && a in w.leases
    requires cfg.pool.Some? ==> cfg.pool.value.Pool? && cfg.pool.value.poolLen <= 31 && PoolEnd(cfg.pool.value) <= 0x1_0000_0000
    requires forall x :: x in w.dormant ==> x in w.leases
    ensures var v := Resolve6(cfg, w, y, true).0;
            a in v.leases && v.leases[a].a6 == w.leases[a].a6
  {
    hide Inv, ServeLease, Assign, Assigned, Admitted, FindMap6;
    AssignKeeps(cfg, w, y);
    match Assign(cfg, w, y)
    case Some(p) =>
      NewLeaseIsOther(cfg, w, p.1, p.0, y);
      AssignSame6(cfg, w, p.1, p.0, y, a);
      AssignedIn(cfg, w, p.1, p.0, y);
    case None =>
  }

  lemma AssignedIn(cfg: Config, w: World, u: World, x: Ip4, y: Ip6)
    requires Assigned(cfg, w, u, x, y)
    ensures x in u.leases
  {
  }

  lemma Resolve6Entries(cfg: Config, w: World, y: Ip6, alloc: bool)
    requires EntriesAdmitted(w.map4, w.map6)
    requires cfg.pool.Some? ==> cfg.pool.value.Pool? && cfg.pool.value.poolLen <= 31 && PoolEnd(cfg.pool.value) <= 0x1_0000_0000
    requires forall x :: x in w.dormant ==> x in w.leases
    requires FindMap6(w.map6, y) != None || !alloc
    ensures Resolve6(cfg, w, y, alloc).0.map4 == w.map4
  {
    hide ServeLease, ServeStatic, Lookup6, FindMap6, Admitted, Assign;
    if FindMap6(w.map6, y) != None {
      match Lookup6(cfg, w.map4, w.map6, y)
      case Found(x, pair) =>
        if IsHost(FindMap6(w.map6, y)) && x in w.leases {
          ServeLeaseEntry(cfg, w, x);
        } else {
          ServeStaticEntry(cfg, w, x, y, pair);
        }
      case Rejected =>
      case Drop =>
    }
  }

  /** An address is without lease again only by pool maintenance, more than the maximum lease
      after its last packet. Its host may lose it to another host before (`LeaseHosts`). */
  lemma StepFrees(cfg: Config, w: World, e: Event, a: Ip4)
    requires Inv(cfg, w) && Legal(cfg, w, e) && a in w.leases
    ensures a in w.lastPacket
    ensures a !in Step(cfg, w, e).leases ==> e.PoolMaint? && w.lastPacket[a] + cfg.maxLease < w.now
    ensures a in w.mapped && a !in Step(cfg, w, e).mapped ==>
              e.PoolMaint? && w.leases[a].slot == None && w.lastPacket[a] + cfg.minLease < w.now
  {
    hide Inv, Resolve4, Resolve6, AgeList, Maintain, ReloadFile, LeavesLeasesAlone, RowsOk, Survivors, StageAll;
    InvGives(cfg, w);
    assert a in w.leases.Keys;
    match e
    case Tick(_) =>
    case Probe4(_) =>
    case Probe6(_) =>
    case Miss4(x) => Resolve4Keeps(cfg, w, x);
    case Miss6(y, alloc) => Miss6Frees(cfg, w, y, alloc, a);
    case CacheMaint => AgeListKeepsInv(cfg, w, w.active);
    case PoolMaint => MaintainKeepsInv(cfg, w);
    case ReloadMaps(rows, failed) => ReloadKeepsInv(cfg, w, rows, failed);
  }

  lemma Miss6Frees(cfg: Config, w: World, y: Ip6, alloc: bool, a: Ip4)
    requires Inv(cfg, w) && EntriesAdmitted(w.map4, w.map6) && a in w.leases
    requires cfg.pool.Some? ==> cfg.pool.value.Pool? && cfg.pool.value.poolLen <= 31 && PoolEnd(cfg.pool.value) <= 0x1_0000_0000
    requires forall x :: x in w.dormant ==> x in w.leases
    ensures a in Resolve6(cfg, w, y, alloc).0.leases
    ensures a in w.mapped ==> a in Resolve6(cfg, w, y, alloc).0.mapped
  {
    hide Inv, Admitted, Lookup6, ServeLease, ServeStatic, Assign, Assigned, FindMap6;
    Resolve6Keeps(cfg, w, y, alloc);
    if FindMap6(w.map6, y) == None && alloc {
      AssignKeeps(cfg, w, y);
      match Assign(cfg, w, y)
      case Some(p) =>
        AssignedIn(cfg, w, p.1, p.0, y);
        if a != p.0 {
          AssignSame6(cfg, w, p.1, p.0, y, a);
        }
      case None =>
    }
  }

  /** A packet of lease a, seen by the tables or by the cache, stamps it with the present time. */
  lemma PacketStamps(cfg: Config, w: World, e: Event, a: Ip4)
    requires Inv(cfg, w) && Legal(cfg, w, e) && a in w.mapped && a in w.leases
    requires e == Probe4(a) || e == Probe6(w.leases[a].a6) || e == Miss4(a) || (e.Miss6? && e.b == w.leases[a].a6)
    requires e.Probe4? ==> Slot4(w.cache, w.active, a).Some?
    requires e.Probe6? ==> Slot6(w.cache, w.active, e.b).Some?
    ensures Serving(Step(cfg, w, e), a, w.leases[a].a6, w.now)
  {
    hide Inv, Resolve4, Resolve6, Lookup4, Lookup6, FindMap4, FindMap6, TablesOk, HostsMatch, EntriesAdmitted;
    InvGives(cfg, w);
    MappedIsFound(cfg, w, a);
    assert a in w.lastPacket.Keys;
    if e.Probe4? {
    } else if e.Probe6? {
      SamePacket(cfg, w, Slot6(w.cache, w.active, e.b).value);
    } else if e.Miss4? {
      Resolve4Keeps(cfg, w, a);
      Miss4KeepsServing(cfg, w, a, a, w.leases[a].a6, if w.lastPacket[a] <= w.now then w.lastPacket[a] else w.now);
    } else {
      Resolve6Keeps(cfg, w, e.b, e.alloc);
      EarlierServing(cfg, w, e.b, e.alloc, a);
    }
  }

  lemma EarlierServing(cfg: Config, w: World, b: Ip6, alloc: bool, a: Ip4)
    requires Inv(cfg, w) && EntriesAdmitted(w.map4, w.map6) && a in w.mapped && a in w.leases && w.leases[a].a6 == b
    requires cfg.pool.Some? ==> cfg.pool.value.Pool? && cfg.pool.value.poolLen <= 31 && PoolEnd(cfg.pool.value) <= 0x1_0000_0000
    requires forall x :: x in w.dormant ==> x in w.leases
    ensures var v := Resolve6(cfg, w, b, alloc).0; a in v.mapped && a in v.leases && v.leases[a].a6 == b
  {
    hide Inv, Lookup4, Lookup6, FindMap4, FindMap6, TablesOk, HostsMatch, EntriesAdmitted, ServeLease;
    InvGives(cfg, w);
    MappedIsFound(cfg, w, a);
    ServeLeaseSame6(cfg, w, a);
    ServeLeaseFrame(cfg, w, a);
  }

  // ------------------------------------------------------------ whole runs

  ghost predicate Follows(cfg: Config, w: World, e: Event, v: World) {
    Inv(cfg, w) ==> Legal(cfg, w, e) && v == Step(cfg, w, e)
  }

  ghost predicate IsRun(cfg: Config, worlds: seq<World>, events: seq<Event>) {
    && |worlds| == |events| + 1
    && Inv(cfg, worlds[0])
    && forall i :: 0 <= i < |events| ==> Follows(cfg, worlds[i], events[i], worlds[i + 1])
  }

  /** A run of the program from its start: empty tables of leases and cache, then the saved file. */
  ghost predicate IsProgramRun(cfg: Config, boot: World, rows: seq<Row>, worlds: seq<World>, events: seq<Event>) {
    && Inv(cfg, boot) && boot.leases == map[] && (forall m :: m in boot.map6 ==> !m.Pool?)
    && |worlds| == |events| + 1
    && worlds[0] == LoadDynamic(cfg, boot, rows)
    && forall i :: 0 <= i < |events| ==> Follows(cfg, worlds[i], events[i], worlds[i + 1])
  }

  /** It is a run exactly when the accepted rows of the file have distinct IPv6 addresses. */
  lemma ProgramRunIsRun(cfg: Config, boot: World, rows: seq<Row>, worlds: seq<World>, events: seq<Event>)
    requires IsProgramRun(cfg, boot, rows, worlds, events)
    ensures IsRun(cfg, worlds, events) <==>
      forall i, j :: 0 <= i < j < |Accepted(cfg, boot, rows)| ==>
        Accepted(cfg, boot, rows)[i].b != Accepted(cfg, boot, rows)[j].b
  {
    hide Inv, LoadDynamic, Accepted, Follows;
    FreshHasNoDormant(cfg, boot);
    if cfg.pool.Some? {
      LoadDynamicKeeps(cfg, boot, rows);
    } else {
      NoPoolNoRows(cfg, boot, rows);
      NoPoolNothingLoaded(cfg, boot, rows);
    }
  }

  lemma FreshHasNoDormant(cfg: Config, w: World)
    requires Inv(cfg, w) && w.leases == map[]
    ensures w.dormant == []
  {
    LeasesListed(cfg, w);
    FirstIsIn(w.dormant);
  }

  lemma NoPoolNothingLoaded(cfg: Config, w: World, rows: seq<Row>)
    requires cfg.pool == None && forall m :: m in w.map6 ==> !m.Pool?
    ensures LoadDynamic(cfg, w, rows) == w
  {
  }

  /** Every state of every run satisfies the invariant. */
  lemma {:induction false} RunKeepsInv(cfg: Config, worlds: seq<World>, events: seq<Event>, n: nat)
    requires IsRun(cfg, worlds, events) && n <= |events|
    ensures Inv(cfg, worlds[n])
    decreases n
  {
    hide Inv, Step, Legal;
    if n == 0 {
    } else {
      RunKeepsInv(cfg, worlds, events, n - 1);
      assert Follows(cfg, worlds[n - 1], events[n - 1], worlds[n]);
      StepKeepsInv(cfg, worlds[n - 1], events[n - 1]);
    }
  }

  lemma {:induction false} RunTime(cfg: Config, worlds: seq<World>, events: seq<Event>, i: nat, n: nat)
    requires IsRun(cfg, worlds, events) && i <= n <= |events|
    ensures worlds[i].now <= worlds[n].now
    decreases n
  {
    hide Inv, Step, Legal;
    if i == n {
    } else {
      RunTime(cfg, worlds, events, i, n - 1);
      RunKeepsInv(cfg, worlds, events, n - 1);
      assert Follows(cfg, worlds[n - 1], events[n - 1], worlds[n]);
      StepTime(cfg, worlds[n - 1], events[n - 1]);
    }
  }

  lemma StepTime(cfg: Config, w: World, e: Event)
    requires Inv(cfg, w) && Legal(cfg, w, e)
    ensures w.now <= Step(cfg, w, e).now
  {
    hide Inv, Resolve4, Resolve6, AgeList, Maintain, RetireList, LeavesLeasesAlone, RowsOk, Survivors, StageAll, CommitTables;
    match e
    case Tick(_) =>
    case Probe4(_) =>
    case Probe6(_) =>
    case Miss4(a) => Resolve4Keeps(cfg, w, a);
    case Miss6(b, alloc) => Resolve6Keeps(cfg, w, b, alloc);
    case CacheMaint => AgeListKeepsInv(cfg, w, w.active);
    case PoolMaint => MaintainSame(cfg, w, 0);
    case ReloadMaps(rows, failed) => ReloadKeepsInv(cfg, w, rows, failed);
  }

  /** Lease time over whole runs: once a lease for b has carried a packet, looked up or
      served from the cache, it is still mapped for b in every later state that is at
      most the minimum lease away, whatever happened in between. */
  lemma {:induction false} RunKeepsLease(cfg: Config, worlds: seq<World>, events: seq<Event>, i: nat, n: nat, a: Ip4, b: Ip6)
    requires IsRun(cfg, worlds, events) && i <= n <= |events|
    requires Serving(worlds[i], a, b, worlds[i].now)
    requires worlds[n].now <= worlds[i].now + cfg.minLease
    ensures Serving(worlds[n], a, b, worlds[i].now)
    decreases n
  {
    hide Inv, Step, Serving, Legal;
    if i == n {
    } else {
      RunKeepsInv(cfg, worlds, events, n - 1);
      RunTime(cfg, worlds, events, i, n - 1);
      RunTime(cfg, worlds, events, n - 1, n);
      RunKeepsLease(cfg, worlds, events, i, n - 1, a, b);
      assert Follows(cfg, worlds[n - 1], events[n - 1], worlds[n]);
      StepKeepsServing(cfg, worlds[n - 1], events[n - 1], a, b, worlds[i].now);
    }
  }

  /** In every state of every run a cached answer is the answer of the tables. */
  lemma RunHitsAreCoherent(cfg: Config, worlds: seq<World>, events: seq<Event>, n: nat, s: nat)
    requires IsRun(cfg, worlds, events) && n <= |events| && s in worlds[n].cache
    ensures EntriesAdmitted(worlds[n].map4, worlds[n].map6)
    ensures var w := worlds[n];
            && Lookup4(cfg, w.map4, w.map6, w.cache[s].a4) == Found(w.cache[s].a6, true)
            && (Lookup6(cfg, w.map4, w.map6, w.cache[s].a6) == Found(w.cache[s].a4, true)
                <==> !OneWay(w.map4, w.map6, w.cache[s].a4))
            && |w.active| + |w.spare| == cfg.cacheSize
  {
    hide TablesOk, PoolOk, Coherent, Linked, Stamped, Lookup4, Lookup6, OneWay, Follows;
    RunKeepsInv(cfg, worlds, events, n);
    InvGives(cfg, worlds[n]);
    HitMatchesLookup(cfg, worlds[n], s);
  }
}
