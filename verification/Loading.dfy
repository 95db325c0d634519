/** Restoring leases from the saved map file at start-up. */
module Loading {
  import opened Bits
  import opened Wrappers
  import opened Lists
  import opened AddressTables
  import opened Translate
  import opened Coherence
  import opened FreeRuns
  import opened HostEntries
  import opened MapState
  import opened CacheSteps
  import opened PoolSteps
  import opened Maintenance

  /** The reader takes a line with a time that is not positive as malformed. */
  type Stamp = t: int | t > 0 witness 1

  /** One line of the file. */
  datatype Row = Row(a: Ip4, b: Ip6, lastUse: Stamp)

  /** The tests of `load_map`: a is a free address of the pool itself, b is nobody's. */
  ghost predicate Accepts(cfg: Config, w: World, row: Row)
    requires forall m :: m in w.map6 ==> !m.Pool?
  {
    && cfg.pool.Some? && cfg.pool.value.Covers4(row.a)
    && FindMap4(w.map4, row.a) == cfg.pool
    && Valid6(row.b) && FindMap6(w.map6, row.b) == None
    && Free(w.runs, row.a)
  }

  /** `load_map` for an accepted row: a new lease, dormant since the time in the file. */
  function LoadRow(w: World, row: Row): (r: World) {
    var i := HolderIndex(w.runs, row.a);
    if i == |w.runs| then w
    else Settle(Dated(Create(w, i, row.a, row.b), row.a, row.lastUse), row.a)
  }

  function Dated(w: World, a: Ip4, t: int): (r: World)
    requires a in w.leases
  {
    w.(leases := w.leases[a := w.leases[a].(lastUse := t)], lastPacket := w.lastPacket[a := t])
  }

  lemma DatedKeeps(cfg: Config, w: World, a: Ip4, t: int)
    requires InTransit(cfg, w, a)
    ensures InTransit(cfg, Dated(w, a, t), a)
  {
    hide TablesOk, SlotsOk, Coherent, NoDup, PoolTiled, PoolOwns, Linked, Stamped;
    var leases := w.leases[a := w.leases[a].(lastUse := t)];
    assert leases.Keys == w.leases.Keys;
    SameAddressesKeep(cfg, w.map4, w.runs, w.leases, leases);
    DatedLinks(w.leases, w.mapped, w.cache, w.lastPacket, a, t);
  }

  lemma DatedLinks(leases: map<Ip4, Lease>, mapped: seq<Ip4>, cache: map<nat, Entry>, lastPacket: map<Ip4, int>, a: Ip4, t: int)
    requires Linked(leases, mapped, cache) && Stamped(leases, cache, lastPacket) && a in leases && a !in mapped
    ensures var leases' := leases[a := leases[a].(lastUse := t)];
            Linked(leases', mapped, cache) && Stamped(leases', cache, lastPacket[a := t])
  {
  }

  /** Loading an accepted row keeps the pool sound exactly when no lease has its IPv6
      address yet: rows are not compared with each other. */
  lemma LoadRowKeepsInv(cfg: Config, w: World, row: Row)
    requires Inv(cfg, w) && Accepts(cfg, w, row)
    ensures Inv(cfg, LoadRow(w, row)) <==> Unleased(w.leases, row.b)
    ensures row.a in LoadRow(w, row).dormant && LoadRow(w, row).leases.Keys == w.leases.Keys + {row.a} && row.a !in w.leases
  {
    hide Inv, InTransit, FindMap4, FindMap6, Split, DormantPos;
    var i := HolderIndex(w.runs, row.a);
    var v := Create(w, i, row.a, row.b);
    NewAddress(cfg, w, row.a);
    if Unleased(w.leases, row.b) {
      CreateKeeps(cfg, w, i, row.a, row.b);
      DatedKeeps(cfg, v, row.a, row.lastUse);
      SettleKeeps(cfg, Dated(v, row.a, row.lastUse), row.a);
    } else {
      var x :| x in w.leases && w.leases[x].a6 == row.b;
      TwoWithOneAddress(cfg, LoadRow(w, row), x, row.a);
    }
  }

  lemma NewAddress(cfg: Config, w: World, a: Ip4)
    requires Inv(cfg, w) && cfg.pool.Some? && Free(w.runs, a)
    ensures a !in w.leases
  {
    hide TablesOk, SlotsOk, Coherent, Linked, Stamped, Tiles, Free, Leased, Pow2;
    FreeXorLeased(w.runs, cfg.pool.value.base, PoolEnd(cfg.pool.value), a);
  }

  lemma TwoWithOneAddress(cfg: Config, w: World, x: Ip4, y: Ip4)
    requires x in w.leases && y in w.leases && x != y && w.leases[x].a6 == w.leases[y].a6
    ensures !Inv(cfg, w)
  {
    hide TablesOk, SlotsOk, Coherent, Linked, Stamped, PoolTiled, HostsMatch, PoolOwns, Sorted;
  }

  // ------------------------------------------------------------ the whole file

  /** `load_map`: a row that fails a test is skipped. */
  ghost function LoadMap(cfg: Config, w: World, row: Row): (r: World)
    requires forall m :: m in w.map6 ==> !m.Pool?
    ensures r.map4 == w.map4 && r.map6 == w.map6 && r.mapped == w.mapped && r.now == w.now
  {
    if Accepts(cfg, w, row) then LoadRow(w, row) else w
  }

  /** The reading loop of `load_dynamic`. */
  ghost function LoadAll(cfg: Config, w: World, rows: seq<Row>): (r: World)
    requires forall m :: m in w.map6 ==> !m.Pool?
    ensures r.map4 == w.map4 && r.map6 == w.map6 && r.mapped == w.mapped && r.now == w.now
  {
    if rows == [] then w else LoadMap(cfg, LoadAll(cfg, w, rows[..|rows| - 1]), rows[|rows| - 1])
  }

  /** The rows that are not skipped. */
  ghost function Accepted(cfg: Config, w: World, rows: seq<Row>): (r: seq<Row>)
    requires forall m :: m in w.map6 ==> !m.Pool?
  {
    if rows == [] then []
    else
      var init := rows[..|rows| - 1];
      Accepted(cfg, w, init) +
      (if Accepts(cfg, LoadAll(cfg, w, init), rows[|rows| - 1]) then [rows[|rows| - 1]] else [])
  }

  /** The accepted rows give each IPv6 host one lease only, and none to a host that has one. */
  ghost predicate DistinctHosts(leases: map<Ip4, Lease>, rows: seq<Row>) {
    && (forall i, j :: 0 <= i < j < |rows| ==> rows[i].b != rows[j].b)
    && (forall i :: 0 <= i < |rows| ==> Unleased(leases, rows[i].b))
  }

  /** The leases are the earlier ones and one for each of the rows. */
  ghost predicate Loaded(old0: map<Ip4, Lease>, leases: map<Ip4, Lease>, rows: seq<Row>) {
    && (forall a :: a in old0 ==> a in leases && leases[a] == old0[a])
    && (forall i :: 0 <= i < |rows| ==>
          rows[i].a !in old0 && rows[i].a in leases && leases[rows[i].a] == Lease(rows[i].b, rows[i].lastUse, None))
    && (forall i, j :: 0 <= i < j < |rows| ==> rows[i].a != rows[j].a)
    && (forall a :: a in leases ==> a in old0 || exists i :: 0 <= i < |rows| && rows[i].a == a)
  }

  lemma LoadRowAdds(cfg: Config, w: World, row: Row)
    requires PoolTiled(cfg, w.map4, w.runs, w.leases) && (forall m :: m in w.map6 ==> !m.Pool?) && Accepts(cfg, w, row)
    ensures var v := LoadRow(w, row);
            && PoolTiled(cfg, v.map4, v.runs, v.leases)
            && row.a !in w.leases && v.leases == w.leases[row.a := Lease(row.b, row.lastUse, None)]
  {
    hide Tiles, Free, Leased, Pow2, Split, HolderIndex, FindMap4, FindMap6, DormantPos, Valid6, ClearLow;
    var i := HolderIndex(w.runs, row.a);
    FreeHasHolder(w.runs, row.a);
    CreateKeepsTiling(cfg, w, i, row.a, row.b);
    var v := Create(w, i, row.a, row.b);
    var leases := v.leases[row.a := v.leases[row.a].(lastUse := row.lastUse)];
    assert leases == w.leases[row.a := Lease(row.b, row.lastUse, None)];
    assert forall x :: x in leases <==> x in v.leases;
  }

  lemma FreeHasHolder(runs: seq<Run>, a: nat)
    requires Free(runs, a)
    ensures HolderIndex(runs, a) < |runs| && runs[HolderIndex(runs, a)].Holds(a)
  {
  }

  lemma {:induction false} LoadAllAdds(cfg: Config, w: World, rows: seq<Row>)
    requires PoolTiled(cfg, w.map4, w.runs, w.leases) && forall m :: m in w.map6 ==> !m.Pool?
    ensures var v := LoadAll(cfg, w, rows);
            && PoolTiled(cfg, v.map4, v.runs, v.leases)
            && Loaded(w.leases, v.leases, Accepted(cfg, w, rows))
  {
    hide PoolTiled, Accepts, LoadRow, Loaded;
    if rows == [] {
      assert Loaded(w.leases, w.leases, []) by { LoadedNothing(w.leases); }
    } else {
      var init, row := rows[..|rows| - 1], rows[|rows| - 1];
      LoadAllAdds(cfg, w, init);
      AcceptedStep(cfg, w, rows);
      var u := LoadAll(cfg, w, init);
      if Accepts(cfg, u, row) {
        LoadRowAdds(cfg, u, row);
        LoadedAppend(w.leases, u.leases, Accepted(cfg, w, init), row);
      }
    }
  }

  lemma LoadedNothing(leases: map<Ip4, Lease>)
    ensures Loaded(leases, leases, [])
  {
  }

  lemma AcceptedStep(cfg: Config, w: World, rows: seq<Row>)
    requires rows != [] && forall m :: m in w.map6 ==> !m.Pool?
    ensures var init, row := rows[..|rows| - 1], rows[|rows| - 1];
            Accepted(cfg, w, rows) ==
              if Accepts(cfg, LoadAll(cfg, w, init), row) then Accepted(cfg, w, init) + [row] else Accepted(cfg, w, init)
  {
    hide Accepts;
  }

  lemma LoadedAppend(old0: map<Ip4, Lease>, leases: map<Ip4, Lease>, rows: seq<Row>, row: Row)
    requires Loaded(old0, leases, rows) && row.a !in leases
    ensures Loaded(old0, leases[row.a := Lease(row.b, row.lastUse, None)], rows + [row])
  {
    var leases' := leases[row.a := Lease(row.b, row.lastUse, None)];
    var rows' := rows + [row];
    forall a | a in leases' && a !in old0 ensures exists i :: 0 <= i < |rows'| && rows'[i].a == a {
      if a == row.a {
        assert rows'[|rows|].a == a;
      } else {
        var i :| 0 <= i < |rows| && rows[i].a == a;
        assert rows'[i].a == a;
      }
    }
  }

  /** Of several rows for one address the first is accepted, if it would be by itself. */
  lemma AcceptsIff(cfg: Config, w: World, rows: seq<Row>, row: Row)
    requires PoolTiled(cfg, w.map4, w.runs, w.leases) && forall m :: m in w.map6 ==> !m.Pool?
    ensures Accepts(cfg, LoadAll(cfg, w, rows), row) <==>
      Accepts(cfg, w, row) && forall i :: 0 <= i < |Accepted(cfg, w, rows)| ==> Accepted(cfg, w, rows)[i].a != row.a
  {
    hide Tiles, Free, Leased, Pow2, FindMap4, FindMap6, Valid6, ClearLow, LoadAll, Accepted, Aligned;
    LoadAllAdds(cfg, w, rows);
    var v := LoadAll(cfg, w, rows);
    if cfg.pool.Some? {
      FreeXorLeased(w.runs, cfg.pool.value.base, PoolEnd(cfg.pool.value), row.a);
      FreeXorLeased(v.runs, cfg.pool.value.base, PoolEnd(cfg.pool.value), row.a);
    }
  }

  lemma TwoRowsOneHost(cfg: Config, w: World, v: World, rows: seq<Row>)
    requires Loaded(w.leases, v.leases, rows) && !DistinctHosts(w.leases, rows)
    ensures exists x, y :: x in v.leases && y in v.leases && x != y && v.leases[x].a6 == v.leases[y].a6
  {
    if i, j :| 0 <= i < j < |rows| && rows[i].b == rows[j].b {
      assert rows[i].a in v.leases && rows[j].a in v.leases;
    } else {
      var i :| 0 <= i < |rows| && !Unleased(w.leases, rows[i].b);
      var x :| x in w.leases && w.leases[x].a6 == rows[i].b;
      assert x in v.leases && rows[i].a in v.leases;
    }
  }

  /** Loading a file keeps the pool sound exactly when the accepted rows have distinct
      IPv6 hosts that no lease has yet. */
  lemma {:induction false} LoadAllKeepsInv(cfg: Config, w: World, rows: seq<Row>)
    requires Inv(cfg, w) && forall m :: m in w.map6 ==> !m.Pool?
    ensures Inv(cfg, LoadAll(cfg, w, rows)) <==> DistinctHosts(w.leases, Accepted(cfg, w, rows))
    ensures DormantUncovered(w) && DistinctHosts(w.leases, Accepted(cfg, w, rows)) ==> DormantUncovered(LoadAll(cfg, w, rows))
  {
    hide Inv, Accepts, LoadRow, Unleased, DormantUncovered, Loaded, DistinctHosts;
    InvTiled(cfg, w);
    LoadAllAdds(cfg, w, rows);
    var acc, v := Accepted(cfg, w, rows), LoadAll(cfg, w, rows);
    if rows == [] {
      assert DistinctHosts(w.leases, []) by { NothingDistinct(w.leases); }
    } else if !DistinctHosts(w.leases, acc) {
      TwoRowsOneHost(cfg, w, v, acc);
      var x, y :| x in v.leases && y in v.leases && x != y && v.leases[x].a6 == v.leases[y].a6;
      TwoWithOneAddress(cfg, v, x, y);
    } else {
      var init, row := rows[..|rows| - 1], rows[|rows| - 1];
      var u := LoadAll(cfg, w, init);
      LoadAllAdds(cfg, w, init);
      LoadAllKeepsInv(cfg, w, init);
      AcceptedStep(cfg, w, rows);
      if Accepts(cfg, u, row) {
        DistinctInit(w.leases, u.leases, Accepted(cfg, w, init), row);
        LoadRowKeepsInv(cfg, u, row);
        if DormantUncovered(w) {
          LoadRowUncovered(cfg, u, row);
        }
      }
    }
  }

  lemma NothingDistinct(leases: map<Ip4, Lease>)
    ensures DistinctHosts(leases, [])
  {
  }

  lemma DistinctInit(old0: map<Ip4, Lease>, leases: map<Ip4, Lease>, rows: seq<Row>, row: Row)
    requires Loaded(old0, leases, rows) && DistinctHosts(old0, rows + [row])
    ensures DistinctHosts(old0, rows) && Unleased(leases, row.b)
  {
    var r := rows + [row];
    assert forall i :: 0 <= i < |rows| ==> r[i] == rows[i];
    assert r[|rows|] == row;
    forall x | x in leases ensures leases[x].a6 != row.b {
      if x !in old0 {
        var i :| 0 <= i < |rows| && rows[i].a == x;
        assert r[i].b != r[|rows|].b;
      }
    }
  }

  lemma InvTiled(cfg: Config, w: World)
    requires Inv(cfg, w)
    ensures PoolTiled(cfg, w.map4, w.runs, w.leases)
  {
  }

  lemma LoadRowUncovered(cfg: Config, w: World, row: Row)
    requires Inv(cfg, w) && (forall m :: m in w.map6 ==> !m.Pool?) && Accepts(cfg, w, row) && DormantUncovered(w)
    ensures DormantUncovered(LoadRow(w, row))
  {
    hide Inv, FindMap4, FindMap6, Free, Split, HolderIndex, PoolTiled, Valid6;
    InvTiled(cfg, w);
    InvBasics(cfg, w);
    PoolFacts(cfg, w);
    LoadRowAdds(cfg, w, row);
    LoadRowLists(cfg, w, row);
  }

  lemma LoadRowLists(cfg: Config, w: World, row: Row)
    requires Inv(cfg, w) && (forall m :: m in w.map6 ==> !m.Pool?) && Accepts(cfg, w, row)
    ensures forall x :: x in LoadRow(w, row).dormant <==> x in w.dormant || x == row.a
  {
    hide Inv, FindMap4, FindMap6, Free, Split, Valid6, DormantPos;
    FreeHasHolder(w.runs, row.a);
    var i := HolderIndex(w.runs, row.a);
    var p := DormantPos(w.dormant, Dated(Create(w, i, row.a, row.b), row.a, row.lastUse).leases, row.lastUse);
    assert w.dormant == w.dormant[..p] + w.dormant[p..];
  }

  // ------------------------------------------------------------ after the last row

  /** No table entry covers the address of a dormant lease, as `load_map` has checked. */
  ghost predicate DormantUncovered(w: World)
    requires forall m :: m in w.map6 ==> !m.Pool?
  {
    forall a :: a in w.dormant && a in w.leases ==> FindMap6(w.map6, w.leases[a].a6) == None
  }

  /** The last loop of `load_dynamic`: recently used leases are mapped at once. */
  function Wake(cfg: Config, w: World): (r: World)
    decreases |w.dormant|
  {
    if w.dormant == [] then w
    else
      var a := w.dormant[0];
      if a !in w.leases || w.leases[a].lastUse + cfg.minLease < w.now || |Remove(w.dormant, a)| >= |w.dormant| then w
      else Wake(cfg, Enter(TakeDormant(w, a), a))
  }

  lemma WakeOneKeeps(cfg: Config, w: World, a: Ip4)
    requires Inv(cfg, w) && (forall m :: m in w.map6 ==> !m.Pool?) && DormantUncovered(w) && a in w.dormant && a in w.leases
    ensures var v := Enter(TakeDormant(w, a), a);
            && Inv(cfg, v) && (forall m :: m in v.map6 ==> !m.Pool?) && DormantUncovered(v)
            && v.leases == w.leases && v.now == w.now && v.lastPacket == w.lastPacket && v.dormant == Remove(w.dormant, a)
            && |v.dormant| < |w.dormant| && v.mapped == [a] + w.mapped
  {
    hide Inv, InTransit, CanAddHost, Add4, Add6, FindMap6, Remove;
    TakeDormantKeeps(cfg, w, a);
    EnterKeepsInv(cfg, TakeDormant(w, a), a);
    var v := Enter(TakeDormant(w, a), a);
    InvBasics(cfg, w);
    InvBasics(cfg, v);
    RemoveNoDup(w.dormant, a);
    forall x | x in v.dormant && x in v.leases ensures FindMap6(v.map6, v.leases[x].a6) == None {
      WakeFinds(cfg, TakeDormant(w, a), a, w.leases[x].a6);
      assert w.leases[x].a6 != w.leases[a].a6;
    }
  }

  lemma InvBasics(cfg: Config, w: World)
    requires Inv(cfg, w)
    ensures forall m :: m in w.map6 ==> !m.Pool?
    ensures NoDup(w.dormant) && forall a :: a in w.dormant ==> a in w.leases
    ensures forall a, c :: a in w.leases && c in w.leases && w.leases[a].a6 == w.leases[c].a6 ==> a == c
  {
  }

  lemma WakeFinds(cfg: Config, w: World, a: Ip4, b: Ip6)
    requires InTransit(cfg, w, a) && (forall m :: m in w.map6 ==> !m.Pool?) && FindMap6(w.map6, w.leases[a].a6) == None
    ensures forall m :: m in Enter(w, a).map6 ==> !m.Pool?
    ensures b != w.leases[a].a6 ==> FindMap6(Enter(w, a).map6, b) == FindMap6(w.map6, b)
  {
    hide PoolTiled, PoolOwns, HostsMatch, Sorted, NoDup, SlotsOk, Coherent, Linked, Stamped, Add4, Add6, FindMap6, FindMap4, CanAddHost, Ordered4, Disjoint6, SelfPlaced, Paired;
    CanEnter(cfg, w, a);
    AddHostFinds(cfg, w.map4, w.map6, Host(a, w.leases[a].a6), a, b);
    AddHostKeepsTables(cfg, w.map4, w.map6, Host(a, w.leases[a].a6));
  }

  lemma NewestDormant(cfg: Config, w: World)
    requires Inv(cfg, w) && w.dormant != []
    ensures forall x :: x in w.dormant ==> x in w.leases
    ensures forall x :: x in w.dormant ==> w.leases[x].lastUse <= w.leases[w.dormant[0]].lastUse
  {
    hide TablesOk, SlotsOk, Coherent, Linked, Stamped, PoolTiled, HostsMatch, PoolOwns, NoDup;
    assert forall i :: 0 <= i < |w.dormant| ==> w.leases[w.dormant[0]].lastUse >= w.leases[w.dormant[i]].lastUse;
  }

  /** Exactly the leases used within the minimum lease time are mapped. */
  lemma {:induction false} WakeKeeps(cfg: Config, w: World)
    requires Inv(cfg, w) && (forall m :: m in w.map6 ==> !m.Pool?) && DormantUncovered(w)
    ensures var v := Wake(cfg, w);
            && Inv(cfg, v) && v.leases == w.leases && v.lastPacket == w.lastPacket
            && (forall a :: a in w.dormant ==>
                  a in w.leases && (a in v.mapped <==> w.leases[a].lastUse + cfg.minLease >= w.now))
            && (forall a :: a in w.mapped ==> a in v.mapped)
    decreases |w.dormant|
  {
    hide Inv, Enter, DormantUncovered, Remove;
    InvBasics(cfg, w);
    PoolFacts(cfg, w);
    if w.dormant == [] {
    } else {
      var a := w.dormant[0];
      NewestDormant(cfg, w);
      RemoveNoDup(w.dormant, a);
      if w.leases[a].lastUse + cfg.minLease >= w.now {
        WakeOneKeeps(cfg, w, a);
        WakeKeeps(cfg, Enter(TakeDormant(w, a), a));
      }
    }
  }

  /** The other branch: when some stamp lies in the future, all are set one minimum lease back. */
  function Redate(cfg: Config, w: World): (r: World) {
    var t := w.now - cfg.minLease;
    w.(leases := map a | a in w.leases :: if a in w.dormant then w.leases[a].(lastUse := t) else w.leases[a],
       lastPacket := map a | a in w.lastPacket :: if a in w.dormant then t else w.lastPacket[a])
  }

  lemma RedateKeepsInv(cfg: Config, w: World)
    requires Inv(cfg, w)
    ensures Inv(cfg, Redate(cfg, w))
    ensures forall a :: a in w.dormant ==> a in Redate(cfg, w).leases && Redate(cfg, w).leases[a].lastUse <= w.now
  {
    hide TablesOk, SlotsOk, Coherent, PoolTiled, PoolOwns, NoDup, Linked, Stamped;
    var v := Redate(cfg, w);
    assert v.leases.Keys == w.leases.Keys;
    SameAddressesKeep(cfg, w.map4, w.runs, w.leases, v.leases);
    RedateLinks(cfg, w);
  }

  lemma RedateLinks(cfg: Config, w: World)
    requires Inv(cfg, w)
    ensures var v := Redate(cfg, w);
            Linked(v.leases, v.mapped, v.cache) && Stamped(v.leases, v.cache, v.lastPacket)
  {
    hide TablesOk, SlotsOk, Coherent, PoolTiled, PoolOwns, NoDup, HostsMatch, Sorted, Linked, Stamped;
    RedateKeepsLinks(w.leases, Redate(cfg, w).leases, w.mapped, w.cache);
    RedateKeepsStamps(cfg, w);
  }

  lemma RedateKeepsLinks(leases: map<Ip4, Lease>, leases': map<Ip4, Lease>, mapped: seq<Ip4>, cache: map<nat, Entry>)
    requires Linked(leases, mapped, cache)
    requires leases'.Keys == leases.Keys && forall a :: a in leases ==> leases'[a].slot == leases[a].slot
    ensures Linked(leases', mapped, cache)
  {
    assert forall a :: a in leases <==> a in leases';
  }

  lemma RedateKeepsStamps(cfg: Config, w: World)
    requires Stamped(w.leases, w.cache, w.lastPacket) && Linked(w.leases, w.mapped, w.cache)
    requires forall a :: !(a in w.mapped && a in w.dormant)
    ensures Stamped(Redate(cfg, w).leases, w.cache, Redate(cfg, w).lastPacket)
  {
    var v := Redate(cfg, w);
    assert v.leases.Keys == w.leases.Keys && v.lastPacket.Keys == w.lastPacket.Keys;
    assert forall a :: a in w.lastPacket <==> a in w.leases;
  }

  // ------------------------------------------------------------ start-up

  /** The time of the newest of these leases, or t if that is later. */
  function NewestFrom(t: int, dormant: seq<Ip4>, leases: map<Ip4, Lease>): (r: int)
    ensures r >= t
    ensures forall a :: a in dormant && a in leases ==> leases[a].lastUse <= r
    ensures r > t ==> exists a :: a in dormant && a in leases && leases[a].lastUse == r
    decreases dormant
  {
    if dormant == [] then t
    else
      NewestFrom(if dormant[0] in leases && leases[dormant[0]].lastUse > t then leases[dormant[0]].lastUse else t,
                 dormant[1..], leases)
  }

  function Newest(dormant: seq<Ip4>, leases: map<Ip4, Lease>): (r: int) {
    NewestFrom(0, dormant, leases)
  }

  /** `load_dynamic` for a file with these rows. */
  ghost function LoadDynamic(cfg: Config, w: World, rows: seq<Row>): (r: World)
    requires forall m :: m in w.map6 ==> !m.Pool?
  {
    var v := LoadAll(cfg, w, rows);
    if cfg.pool == None then w
    else if Newest(v.dormant, v.leases) > v.now then Redate(cfg, v)
    else Wake(cfg, v)
  }

  lemma {:induction false} WakeFrame(cfg: Config, w: World)
    ensures Wake(cfg, w).leases == w.leases
    decreases |w.dormant|
  {
    hide Remove, Add4, Add6, Fits4, Fits6;
    if w.dormant != [] {
      var a := w.dormant[0];
      if !(a !in w.leases || w.leases[a].lastUse + cfg.minLease < w.now || |Remove(w.dormant, a)| >= |w.dormant|) {
        WakeFrame(cfg, Enter(TakeDormant(w, a), a));
      }
    }
  }

  lemma SameHosts(cfg: Config, w: World, v: World)
    requires v.leases.Keys == w.leases.Keys && forall a :: a in w.leases ==> v.leases[a].a6 == w.leases[a].a6
    requires exists x, y :: x in w.leases && y in w.leases && x != y && w.leases[x].a6 == w.leases[y].a6
    ensures !Inv(cfg, v)
  {
    hide Inv;
    var x, y :| x in w.leases && y in w.leases && x != y && w.leases[x].a6 == w.leases[y].a6;
    assert x in v.leases.Keys && y in v.leases.Keys;
    TwoWithOneAddress(cfg, v, x, y);
  }

  lemma RedateFrame(cfg: Config, w: World)
    ensures var v := Redate(cfg, w);
            && v.leases.Keys == w.leases.Keys && v.dormant == w.dormant
            && (forall a :: a in w.leases ==> v.leases[a].a6 == w.leases[a].a6)
            && (forall a :: a in w.leases && a in w.dormant ==> v.leases[a].lastUse == w.now - cfg.minLease)
  {
  }

  /** The dormant leases are those of the accepted rows. */
  lemma LoadedDormant(cfg: Config, w: World, u: World, acc: seq<Row>)
    requires Inv(cfg, w) && w.dormant == [] && Inv(cfg, u) && u.mapped == w.mapped && Loaded(w.leases, u.leases, acc)
    ensures forall i :: 0 <= i < |acc| ==> acc[i].a in u.dormant
    ensures forall x :: x in u.dormant ==> x in u.leases && exists i :: 0 <= i < |acc| && acc[i].a == x
  {
    hide Inv;
    LeasesListed(cfg, w);
    LeasesListed(cfg, u);
  }

  lemma LoadedStamps(w: World, u: World, acc: seq<Row>)
    requires Loaded(w.leases, u.leases, acc)
    ensures forall i :: 0 <= i < |acc| ==>
              acc[i].a in u.leases && u.leases[acc[i].a].lastUse == acc[i].lastUse && u.leases[acc[i].a].a6 == acc[i].b
  {
  }

  lemma FutureIff(u: World, acc: seq<Row>)
    requires forall i :: 0 <= i < |acc| ==>
               acc[i].a in u.dormant && acc[i].a in u.leases && u.leases[acc[i].a].lastUse == acc[i].lastUse
    requires forall x :: x in u.dormant ==> x in u.leases && exists i :: 0 <= i < |acc| && acc[i].a == x
    ensures acc != [] ==>
      (Newest(u.dormant, u.leases) > u.now <==> exists j :: 0 <= j < |acc| && acc[j].lastUse > u.now)
  {
    var t := Newest(u.dormant, u.leases);
    if acc != [] {
      assert acc[0].a in u.dormant && t >= acc[0].lastUse;
      var a :| a in u.dormant && a in u.leases && u.leases[a].lastUse == t;
      var i :| 0 <= i < |acc| && acc[i].a == a;
      if j :| 0 <= j < |acc| && acc[j].lastUse > u.now {
        assert acc[j].a in u.dormant && t >= acc[j].lastUse;
      }
    }
  }

  /** After start-up from a saved file the state is sound exactly when the accepted rows have
      distinct hosts. Then each accepted row is a lease of its host, mapped if it was used
      within the minimum lease; but if some row is dated in the future none is mapped, and
      all count as used one minimum lease ago. */
  lemma LoadDynamicKeeps(cfg: Config, w: World, rows: seq<Row>)
    requires Inv(cfg, w) && w.dormant == [] && cfg.pool.Some?
    ensures forall m :: m in w.map6 ==> !m.Pool?
    ensures var v := LoadDynamic(cfg, w, rows);
            var acc := Accepted(cfg, w, rows);
            && (Inv(cfg, v) <==> DistinctHosts(w.leases, acc))
            && (DistinctHosts(w.leases, acc) ==> forall i :: 0 <= i < |acc| ==>
                  var a := acc[i].a;
                  && a in v.leases && v.leases[a].a6 == acc[i].b
                  && if exists j :: 0 <= j < |acc| && acc[j].lastUse > w.now
                     then a in v.dormant && v.leases[a].lastUse == w.now - cfg.minLease
                     else v.leases[a].lastUse == acc[i].lastUse && (a in v.mapped <==> acc[i].lastUse + cfg.minLease >= w.now))
  {
    hide Inv, DistinctHosts, Loaded, Accepts, Wake, Redate, Newest, LoadAll, Accepted;
    InvBasics(cfg, w);
    InvTiled(cfg, w);
    LoadAllAdds(cfg, w, rows);
    LoadAllKeepsInv(cfg, w, rows);
    var u, acc := LoadAll(cfg, w, rows), Accepted(cfg, w, rows);
    WakeFrame(cfg, u);
    RedateFrame(cfg, u);
    if DistinctHosts(w.leases, acc) {
      LoadedDormant(cfg, w, u, acc);
      LoadedStamps(w, u, acc);
      FutureIff(u, acc);
      if Newest(u.dormant, u.leases) > u.now {
        RedateKeepsInv(cfg, u);
      } else {
        WakeKeeps(cfg, u);
      }
    } else {
      TwoRowsOneHost(cfg, w, u, acc);
      SameHosts(cfg, u, LoadDynamic(cfg, w, rows));
    }
  }

  // ------------------------------------------------------------ what the loops rely on

  /** What the reading loop keeps whatever the rows are. */
  ghost predicate Loadable(cfg: Config, w: World) {
    && Ordered4(w.map4) && Disjoint6(w.map6) && AllCanonical(w.map6) && (forall m :: m in w.map6 ==> !m.Pool?)
    && PoolTiled(cfg, w.map4, w.runs, w.leases)
    && (forall x :: x in w.dormant ==> x in w.leases) && Sorted(w.dormant, w.leases)
  }

  lemma InvLoadable(cfg: Config, w: World)
    requires Inv(cfg, w)
    ensures Loadable(cfg, w)
  {
    hide SlotsOk, Coherent, Linked, Stamped, PoolOwns, HostsMatch, PoolTiled, Ordered4, Disjoint6, Aligned;
  }

  lemma LoadableParts(cfg: Config, w: World)
    requires Loadable(cfg, w)
    ensures Ordered4(w.map4) && Disjoint6(w.map6) && AllCanonical(w.map6)
    ensures forall x :: x in w.dormant ==> x in w.leases
  {
  }

  lemma LoadableHasNoPool(cfg: Config, w: World)
    requires Loadable(cfg, w)
    ensures forall m :: m in w.map6 ==> !m.Pool?
  {
  }

  lemma {:induction false} NoPoolNoRows(cfg: Config, w: World, rows: seq<Row>)
    requires cfg.pool == None && forall m :: m in w.map6 ==> !m.Pool?
    ensures LoadAll(cfg, w, rows) == w && Accepted(cfg, w, rows) == [] && DistinctHosts(w.leases, [])
  {
    if rows != [] {
      NoPoolNoRows(cfg, w, rows[..|rows| - 1]);
    }
  }

  lemma LoadRowLoadable(cfg: Config, w: World, row: Row)
    requires Loadable(cfg, w) && Accepts(cfg, w, row)
    ensures Loadable(cfg, LoadRow(w, row))
  {
    hide FindMap4, FindMap6, Free, Split, HolderIndex, PoolTiled, Valid6, Ordered4, Disjoint6, AllCanonical, DormantPos;
    LoadRowAdds(cfg, w, row);
    FreeHasHolder(w.runs, row.a);
    SortedWithNew(w.dormant, w.leases, row.a, Lease(row.b, row.lastUse, None));
    DormantInsertSorted(w.dormant, LoadRow(w, row).leases, row.a);
  }

  lemma SortedWithNew(dormant: seq<Ip4>, leases: map<Ip4, Lease>, a: Ip4, l: Lease)
    requires (forall x :: x in dormant ==> x in leases) && Sorted(dormant, leases) && a !in leases
    ensures forall x :: x in dormant ==> x in leases[a := l]
    ensures Sorted(dormant, leases[a := l])
  {
  }

  lemma WakeLoadable(cfg: Config, w: World, a: Ip4)
    requires Loadable(cfg, w) && a in w.dormant
    ensures Loadable(cfg, Enter(TakeDormant(w, a), a)) && |Remove(w.dormant, a)| < |w.dormant|
  {
    hide Remove, Ordered4, Disjoint6, AllCanonical, Sorted, Add4, Add6, Fits4, Fits6, PoolTiled;
    RemoveShorter(w.dormant, a);
    RemoveKeepsSorted(w.dormant, w.leases, a);
    var h := Host(a, w.leases[a].a6);
    EnterKeepsLists(w.map4, w.map6, h);
    HostKeepsTiling(cfg, w.map4, w.runs, w.leases, h);
  }

  lemma HostKeepsTiling(cfg: Config, map4: seq<Mapping>, runs: seq<Run>, leases: map<Ip4, Lease>, h: Mapping)
    requires PoolTiled(cfg, map4, runs, leases) && h.Host?
    ensures PoolTiled(cfg, Add4(map4, h), runs, leases)
  {
    hide Tiles, Leased, InsertPos4, Admitted, Pow2;
  }

  lemma {:induction false} RemoveShorter(s: seq<Ip4>, x: Ip4)
    requires x in s
    ensures |Remove(s, x)| < |s|
  {
    if s[0] != x {
      RemoveShorter(s[1..], x);
    }
  }

  lemma EnterKeepsLists(map4: seq<Mapping>, map6: seq<Mapping>, h: Mapping)
    requires h.Host? && Ordered4(map4) && Disjoint6(map6) && AllCanonical(map6)
    ensures forall m :: m in map6 ==> !m.Pool?
    ensures Fits4(map4, h) ==> Ordered4(Add4(map4, h))
    ensures Fits6(map6, h) ==>
      Disjoint6(Add6(map6, h)) && AllCanonical(Add6(map6, h)) && forall m :: m in Add6(map6, h) ==> !m.Pool?
  {
    hide Ordered4, InsertPos4, InsertPos6, ClearLow, Aligned;
    if Fits4(map4, h) {
      InsertKeepsOrder4(map4, h);
    }
    HostCovers(h, 0, 0);
    if Fits6(map6, h) {
      forall n | n in map6 ensures !n.Conflicts6(h) {
        HostConflict(h, n);
      }
      InsertKeepsDisjoint6(map6, h);
    }
  }

  /** Redating one lease after the other is redating them all. */
  function RedateFirst(w: World, t: int, n: nat): (r: World)
    requires n <= |w.dormant|
  {
    w.(leases := map a | a in w.leases :: if a in w.dormant[..n] then w.leases[a].(lastUse := t) else w.leases[a])
  }

  lemma RedateStep(w: World, t: int, n: nat)
    requires n < |w.dormant| && w.dormant[n] in w.leases
    ensures var d := w.dormant[n];
            var l := RedateFirst(w, t, n).leases;
            d in l && RedateFirst(w, t, n + 1).leases == l[d := l[d].(lastUse := t)]
  {
    assert w.dormant[..n + 1] == w.dormant[..n] + [w.dormant[n]];
  }

  lemma RedateAll(cfg: Config, w: World)
    ensures RedateFirst(w, 0, 0).leases == w.leases
    ensures RedateFirst(w, w.now - cfg.minLease, |w.dormant|).leases == Redate(cfg, w).leases
  {
    assert w.dormant[..|w.dormant|] == w.dormant;
  }

  /** What two leases for one host lead to: the second entry is refused by the IPv6 table,
      packets to its address reach the host, and the host's answers leave from the other one. */
  lemma SecondLeaseIsOneWay(cfg: Config, w: World, a1: Ip4, a2: Ip4)
    requires TablesOk(cfg, w.map4, w.map6) && a1 in w.leases && a2 in w.leases && a1 != a2
    requires w.leases[a1].a6 == w.leases[a2].a6
    requires CanAddHost(w.map4, w.map6, Host(a1, w.leases[a1].a6)) && Fits4(w.map4, Host(a2, w.leases[a2].a6))
    ensures var v := Enter(Enter(w, a1), a2);
            && EntriesAdmitted(v.map4, v.map6)
            && Lookup4(cfg, v.map4, v.map6, a2) == Found(w.leases[a2].a6, true)
            && Lookup6(cfg, v.map4, v.map6, w.leases[a2].a6) == Found(a1, true)
  {
    hide Ordered4, Disjoint6, SelfPlaced, Paired, FindMap4, FindMap6, InsertPos4, InsertPos6, ClearLow, Aligned;
    var b := w.leases[a1].a6;
    var h1, h2 := Host(a1, b), Host(a2, b);
    AddHostKeepsTables(cfg, w.map4, w.map6, h1);
    var s4, s6 := Add4(w.map4, h1), Add6(w.map6, h1);
    HostCovers(h1, a1, b);
    HostCovers(h2, a2, b);
    assert h1 in s6 && h1.Covers6(b);
    InsertKeepsOrder4(s4, h2);
    HostMatchesItself(Add4(s4, h2), h2);
    AddHostFinds(cfg, w.map4, w.map6, h1, a1, b);
  }
}
