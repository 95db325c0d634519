/** Reloading the map file: staging, the conflict filter, the commit and the flush. */
module Reload {
  import opened Bits
  import opened AddressTables
  import opened Translate
  import opened Coherence
  import opened FreeRuns
  import opened HostEntries
  import opened MapState
  import opened CacheSteps

  /** What `parse_map_entry` accepts. */
  predicate RowOk(m: Mapping) {
    && m.Static? && m.origin.MapFile?
    && Admitted(m)
    && (m.l4 > 0 ==> Validate4(m.a4) != Dropped)
  }

  /** Two rows that cannot both be in the tables. */
  predicate Clash(m: Mapping, n: Mapping)
    requires !m.Pool? && !n.Pool?
  {
    m.SameKey4(n) || n.Covers6(m.Addr6()) || m.Covers6(n.Addr6())
  }

  /** The C overlap test, containment of either base address, is the table's conflict test. */
  lemma ClashIsConflict(m: Mapping, n: Mapping)
    requires !m.Pool? && !n.Pool? && m.Canonical() && n.Canonical()
    ensures Clash(m, n) <==> m.SameKey4(n) || m.Conflicts6(n)
    ensures Clash(m, n) <==> Clash(n, m)
  {
    hide ClearLow, Aligned;
    ConflictIsOverlap(m, n);
    ConflictFlips(m, n);
    if n.Covers6(m.Addr6()) || m.Covers6(n.Addr6()) {
      SelfCover(m);
      SelfCover(n);
    }
  }

  lemma SelfCover(m: Mapping)
    requires !m.Pool? && m.Canonical()
    ensures m.Covers6(m.Addr6()) && m.Covers4(m.Addr4())
  {
    Covers6Range(m, m.Addr6());
    Covers4Range(m, m.Addr4());
  }

  ghost predicate RowsOk(rows: seq<Mapping>) {
    forall m :: m in rows ==> RowOk(m)
  }

  /** One row of the file: it displaces the staged rows it clashes with. */
  function Stage(staged: seq<Mapping>, m: Mapping): (r: seq<Mapping>)
    requires !m.Pool?
  {
    Filter(staged, (old0: Mapping) => !old0.Pool? && !Clash(old0, m)) + [m]
  }

  function StageAll(rows: seq<Mapping>): (r: seq<Mapping>)
    requires forall m :: m in rows ==> !m.Pool?
  {
    if rows == [] then []
    else Stage(StageAll(rows[..|rows| - 1]), rows[|rows| - 1])
  }

  /** Rows that may be in the tables together. */
  ghost predicate Compatible(s: seq<Mapping>) {
    && (forall m :: m in s ==> !m.Pool?)
    && (forall i, j :: 0 <= i < j < |s| ==> !Clash(s[i], s[j]))
  }

  lemma CompatibleTail(s: seq<Mapping>)
    requires s != [] && forall m :: m in s ==> !m.Pool?
    ensures Compatible(s) <==> Compatible(s[1..]) && forall m :: m in s[1..] ==> !Clash(s[0], m)
  {
    hide Clash;
    var t := s[1..];
    if Compatible(s) {
      forall m | m in t ensures !Clash(s[0], m) {
        var j :| 0 <= j < |t| && t[j] == m;
        assert s[j + 1] == m;
      }
      forall i, j | 0 <= i < j < |t| ensures !Clash(t[i], t[j]) {
        assert s[i + 1] == t[i] && s[j + 1] == t[j];
      }
    }
    if Compatible(t) && forall m :: m in t ==> !Clash(s[0], m) {
      forall i, j | 0 <= i < j < |s| ensures !Clash(s[i], s[j]) {
        assert s[j] == t[j - 1] && s[j] in t;
        if i > 0 {
          assert s[i] == t[i - 1];
        }
      }
    }
  }

  lemma {:induction false} FilterKeepsCompatible(s: seq<Mapping>, keep: Mapping -> bool)
    requires Compatible(s)
    ensures Compatible(Filter(s, keep))
  {
    hide Clash;
    if s == [] {
    } else {
      hide Compatible;
      assert forall m :: m in s ==> !m.Pool? by { NoPoolIn(s); }
      CompatibleTail(s);
      FilterKeepsCompatible(s[1..], keep);
      if keep(s[0]) {
        var r := Filter(s, keep);
        assert r[1..] == Filter(s[1..], keep);
        CompatibleTail(r);
      }
    }
  }

  lemma NoPoolIn(s: seq<Mapping>)
    requires Compatible(s)
    ensures forall m :: m in s ==> !m.Pool?
  {
  }

  lemma CompatibleAppend(s: seq<Mapping>, m: Mapping)
    requires Compatible(s) && !m.Pool? && forall n :: n in s ==> !Clash(n, m)
    ensures Compatible(s + [m])
  {
    hide Clash;
    var r := s + [m];
    forall i, j | 0 <= i < j < |r| ensures !Clash(r[i], r[j]) {
      assert r[i] == s[i] && s[i] in s;
      if j < |s| {
        assert r[j] == s[j];
      }
    }
  }

  lemma {:induction false} StagedCompatible(rows: seq<Mapping>)
    requires forall m :: m in rows ==> !m.Pool?
    ensures Compatible(StageAll(rows))
  {
    hide Clash, Filter;
    if rows == [] {
    } else {
      var init := rows[..|rows| - 1];
      var m := rows[|rows| - 1];
      StagedCompatible(init);
      FilterKeepsCompatible(StageAll(init), (old0: Mapping) => !old0.Pool? && !Clash(old0, m));
      CompatibleAppend(Filter(StageAll(init), (old0: Mapping) => !old0.Pool? && !Clash(old0, m)), m);
    }
  }

  /** Row i of the file is m, and no later row clashes with it. */
  ghost predicate Wins(rows: seq<Mapping>, i: int, m: Mapping)
    requires !m.Pool? && forall n :: n in rows ==> !n.Pool?
  {
    0 <= i < |rows| && rows[i] == m && forall j :: i < j < |rows| ==> !Clash(m, rows[j])
  }

  /** Last entry wins: a row is staged exactly when it stands somewhere in the file
      with no clashing row after it. */
  lemma {:induction false} LastEntryWins(rows: seq<Mapping>, m: Mapping)
    requires !m.Pool? && forall n :: n in rows ==> !n.Pool?
    ensures m in StageAll(rows) <==> exists i :: Wins(rows, i, m)
  {
    hide Clash, Filter;
    if rows == [] {
    } else {
      var k := |rows| - 1;
      var init := rows[..k];
      LastEntryWins(init, m);
      assert Wins(rows, k, m) <==> m == rows[k];
      forall i | 0 <= i < k ensures Wins(rows, i, m) <==> Wins(init, i, m) && !Clash(m, rows[k]) {
        assert rows[i] == init[i];
        assert forall j :: i < j < k ==> rows[j] == init[j];
      }
    }
  }

  /** A staged row conflicts with an entry that the file did not make. */
  predicate ConflictsFixed(map4: seq<Mapping>, map6: seq<Mapping>, m: Mapping)
    requires !m.Pool?
  {
    || (exists f :: f in map4 && !FileMap(f) && f.SameKey4(m))
    || (exists f :: f in map6 && !f.Pool? && !FileMap(f) && (m.Covers6(f.Addr6()) || f.Covers6(m.Addr6())))
  }

  /** The rows that will be committed. */
  function Survivors(map4: seq<Mapping>, map6: seq<Mapping>, staged: seq<Mapping>): (r: seq<Mapping>)
  {
    Filter(staged, (m: Mapping) => !m.Pool? && !ConflictsFixed(map4, map6, m))
  }

  function WithoutFile(s: seq<Mapping>): (r: seq<Mapping>)
    ensures forall m :: m in r <==> m in s && !FileMap(m)
  {
    Filter(s, m => !FileMap(m))
  }

  /** No table entry stands in the way of m. */
  predicate Insertable(map4: seq<Mapping>, map6: seq<Mapping>, m: Mapping)
    requires !m.Pool?
  {
    && (forall n :: n in map4 ==> !n.SameKey4(m))
    && (forall n :: n in map6 ==> !n.Pool? && !n.Conflicts6(m))
  }

  /** The insertions at commit, in order; an insertion that met a conflict would be skipped. */
  function InsertAll(map4: seq<Mapping>, map6: seq<Mapping>, rows: seq<Mapping>): (r: (seq<Mapping>, seq<Mapping>))
    decreases rows
  {
    if rows == [] then (map4, map6)
    else if rows[0].Pool? || !Insertable(map4, map6, rows[0]) then InsertAll(map4, map6, rows[1..])
    else InsertAll(Add4(map4, rows[0]), Add6(map6, rows[0]), rows[1..])
  }

  /** Each insertion of the list meets no conflict when its turn comes. */
  predicate NeverFails(map4: seq<Mapping>, map6: seq<Mapping>, rows: seq<Mapping>)
    decreases rows
  {
    rows == [] ||
    (!rows[0].Pool? && Insertable(map4, map6, rows[0]) &&
     NeverFails(Add4(map4, rows[0]), Add6(map6, rows[0]), rows[1..]))
  }

  lemma WithoutFileKeepsTables(cfg: Config, map4: seq<Mapping>, map6: seq<Mapping>)
    requires TablesOk(cfg, map4, map6)
    ensures TablesOk(cfg, WithoutFile(map4), WithoutFile(map6))
  {
    hide Append, ClearLow, Aligned, Pow2, Valid6, Ordered4, Disjoint6, Filter;
    FilterKeepsOrder4(map4, m => !FileMap(m));
    FilterKeepsDisjoint6(map6, m => !FileMap(m));
    assert SelfMap(cfg) in map4 && !FileMap(SelfMap(cfg));
    if SelfMap(cfg) !in map6 {
      var m :| m in map6 && m.Rfc6052? && cfg.local6 == Append(m, cfg.local4);
      assert m in WithoutFile(map6);
    }
  }

  lemma InsertRowKeepsTables(cfg: Config, map4: seq<Mapping>, map6: seq<Mapping>, m: Mapping)
    requires TablesOk(cfg, map4, map6) && RowOk(m) && Insertable(map4, map6, m) && !m.Covers6(cfg.local6)
    ensures TablesOk(cfg, Add4(map4, m), Add6(map6, m))
  {
    hide Append, ClearLow, Aligned, Pow2, Valid6, InsertPos4, InsertPos6;
    InsertKeepsOrder4(map4, m);
    InsertKeepsDisjoint6(map6, m);
  }

  /** The own IPv6 address is covered by an entry that the file did not make. */
  lemma SurvivorAvoidsSelf(cfg: Config, map4: seq<Mapping>, map6: seq<Mapping>, m: Mapping)
    requires TablesOk(cfg, map4, map6) && RowOk(m) && !ConflictsFixed(map4, map6, m)
    ensures !m.Covers6(cfg.local6)
  {
    hide Append, ClearLow, Aligned, Pow2, Valid6, Ordered4, Disjoint6;
    if m.Covers6(cfg.local6) {
      var f: Mapping;
      if SelfMap(cfg) in map6 {
        f := SelfMap(cfg);
        SelfCover(f);
      } else {
        f :| f in map6 && f.Rfc6052? && cfg.local6 == Append(f, cfg.local4);
      }
      assert Overlap6(m, f);
      ConflictIsOverlap(m, f);
    }
  }

  lemma SurvivorsInsertable(cfg: Config, map4: seq<Mapping>, map6: seq<Mapping>, m: Mapping)
    requires TablesOk(cfg, map4, map6) && RowOk(m) && !ConflictsFixed(map4, map6, m)
    ensures Insertable(WithoutFile(map4), WithoutFile(map6), m)
  {
    hide ClearLow, Aligned, Pow2, Valid6, Ordered4, Disjoint6, Paired, SelfPlaced, WithoutFile;
    forall n | n in WithoutFile(map6) ensures !n.Pool? && !n.Conflicts6(m) {
      assert n in map6 && !FileMap(n);
      ClashIsConflict(n, m);
    }
  }

  lemma InsertableAfter(map4: seq<Mapping>, map6: seq<Mapping>, m: Mapping, n: Mapping)
    requires !m.Pool? && !n.Pool? && m.Canonical() && n.Canonical() && !Clash(m, n)
    requires Insertable(map4, map6, m) && Insertable(map4, map6, n)
    ensures Insertable(Add4(map4, m), Add6(map6, m), n)
  {
    hide ClearLow, Aligned, InsertPos4, InsertPos6;
    ClashIsConflict(m, n);
  }

  /** The commit loop: no insertion fails, and the tables end up with the old entries and all rows. */
  lemma {:induction false} CommitNeverFails(cfg: Config, map4: seq<Mapping>, map6: seq<Mapping>, rows: seq<Mapping>)
    requires TablesOk(cfg, map4, map6) && RowsOk(rows) && Compatible(rows)
    requires forall m :: m in rows ==> !m.Pool? && Insertable(map4, map6, m) && !m.Covers6(cfg.local6)
    ensures NeverFails(map4, map6, rows)
    ensures var (r4, r6) := InsertAll(map4, map6, rows);
            && TablesOk(cfg, r4, r6)
            && (forall m :: m in r4 <==> m in map4 || m in rows)
            && (forall m :: m in r6 <==> m in map6 || m in rows)
    decreases rows
  {
    hide TablesOk, Insertable, Compatible, RowOk, Clash, Add4, Add6;
    if rows == [] {
    } else {
      var m, t := rows[0], rows[1..];
      assert forall n :: n in rows <==> n == m || n in t;
      CompatibleTail(rows);
      InsertRowKeepsTables(cfg, map4, map6, m);
      AddElements(map4, map6, m);
      var s4, s6 := Add4(map4, m), Add6(map6, m);
      RowIsCanonical(m);
      forall n | n in t ensures Insertable(s4, s6, n) {
        RowIsCanonical(n);
        InsertableAfter(map4, map6, m, n);
      }
      CommitNeverFails(cfg, s4, s6, t);
    }
  }

  lemma RowIsCanonical(m: Mapping)
    requires RowOk(m)
    ensures m.Canonical() && !m.Pool?
  {
  }

  lemma AddElements(map4: seq<Mapping>, map6: seq<Mapping>, m: Mapping)
    requires !m.Pool? && Insertable(map4, map6, m)
    ensures forall n :: n in map6 ==> !n.Pool?
    ensures forall n :: n in Add4(map4, m) <==> n == m || n in map4
    ensures forall n :: n in Add6(map6, m) <==> n == m || n in map6
  {
  }

  // ------------------------------------------------------------ the transaction

  function CommitTables(w: World, rows: seq<Mapping>): (r: (seq<Mapping>, seq<Mapping>))
  {
    InsertAll(WithoutFile(w.map4), WithoutFile(w.map6), rows)
  }

  /** `addrmap_reload` for a file with these rows; failed says that some line was refused. */
  function ReloadFile(w: World, rows: seq<Mapping>, failed: bool): (r: World)
    requires forall m :: m in rows ==> !m.Pool?
  {
    if failed then w
    else
      var (map4, map6) := CommitTables(w, Survivors(w.map4, w.map6, StageAll(rows)));
      RetireList(w.(map4 := map4, map6 := map6), w.active)
  }

  /** The most specific of the committed rows on a leased address is no more specific than
      the pool, or neither a single address nor of equal widths. */
  ghost predicate LeavesLeasesAlone(cfg: Config, w: World, rows: seq<Mapping>) {
    forall a, m :: a in w.leases && Foremost(rows, a, m) ==>
      cfg.pool.Some? && (m.Length4() <= cfg.pool.value.Length4() || NeverCached(m))
  }

  lemma {:induction false} StagedRows(rows: seq<Mapping>)
    requires RowsOk(rows)
    ensures forall m :: m in rows ==> !m.Pool?
    ensures forall m :: m in StageAll(rows) ==> m in rows
  {
    hide Clash, Filter, Admitted;
    if rows != [] {
      var init := rows[..|rows| - 1];
      assert forall m :: m in init ==> m in rows;
      StagedRows(init);
    }
  }

  /** The tables after the commit: the entries the file did not make, and the survivors. */
  lemma CommitTablesOk(cfg: Config, w: World, rows: seq<Mapping>)
    requires TablesOk(cfg, w.map4, w.map6) && RowsOk(rows)
    requires forall m :: m in rows ==> !m.Pool?
    ensures var s := Survivors(w.map4, w.map6, StageAll(rows));
            var (r4, r6) := CommitTables(w, s);
            && NeverFails(WithoutFile(w.map4), WithoutFile(w.map6), s)
            && TablesOk(cfg, r4, r6)
            && (forall m :: m in r4 <==> (m in w.map4 && !FileMap(m)) || m in s)
            && (forall m :: m in r6 <==> (m in w.map6 && !FileMap(m)) || m in s)
            && (forall m :: m in s ==> RowOk(m))
  {
    hide TablesOk, Insertable, Compatible, RowOk, Clash, Add4, Add6, Filter, StageAll, ConflictsFixed, InsertAll, NeverFails;
    var st := StageAll(rows);
    var s := Survivors(w.map4, w.map6, st);
    StagedRows(rows);
    StagedCompatible(rows);
    FilterKeepsCompatible(st, (m: Mapping) => !m.Pool? && !ConflictsFixed(w.map4, w.map6, m));
    WithoutFileKeepsTables(cfg, w.map4, w.map6);
    forall m | m in s
      ensures RowOk(m) && !m.Pool? && Insertable(WithoutFile(w.map4), WithoutFile(w.map6), m) && !m.Covers6(cfg.local6)
    {
      SurvivorsInsertable(cfg, w.map4, w.map6, m);
      SurvivorAvoidsSelf(cfg, w.map4, w.map6, m);
    }
    CommitNeverFails(cfg, WithoutFile(w.map4), WithoutFile(w.map6), s);
  }

  lemma CommitFlushable(cfg: Config, w: World, map4: seq<Mapping>, map6: seq<Mapping>, s: seq<Mapping>)
    requires Inv(cfg, w) && TablesOk(cfg, map4, map6)
    requires forall m :: m in map4 <==> (m in w.map4 && !FileMap(m)) || m in s
    requires forall m :: m in s ==> RowOk(m)
    ensures Flushable(cfg, w.(map4 := map4, map6 := map6)) <==> LeavesLeasesAlone(cfg, w, s)
  {
    hide TablesOk, Admitted, Ordered4, Disjoint6, ClearLow, Tiles, SlotsOk, Coherent, Linked, Stamped, Listed, Sorted, Pow2, Validate4;
    CoherentHasOne(cfg, w);
    assert PoolTiled(cfg, map4, w.runs, w.leases);
    assert HostsMatch(map4, w.leases, w.mapped);
    OwnsIffAlone(cfg, w, map4, s);
  }

  lemma OwnsIffAlone(cfg: Config, w: World, map4: seq<Mapping>, s: seq<Mapping>)
    requires PoolOwns(cfg, w.map4, w.leases)
    requires forall m :: m in map4 <==> (m in w.map4 && !FileMap(m)) || m in s
    requires forall m :: m in s ==> RowOk(m)
    ensures PoolOwns(cfg, map4, w.leases) <==> LeavesLeasesAlone(cfg, w, s)
  {
    hide ClearLow, Admitted, Validate4, Foremost;
    forall a, m ensures Foremost(map4, a, m) <==> Foremost(s, a, m) {
      SameForemost(map4, s, a, m);
    }
  }

  lemma SameForemost(map4: seq<Mapping>, s: seq<Mapping>, a: Ip4, m: Mapping)
    requires forall n :: FileMap(n) ==> (n in map4 <==> n in s)
    ensures Foremost(map4, a, m) <==> Foremost(s, a, m)
  {
    hide ClearLow;
  }

  lemma CoherentHasOne(cfg: Config, w: World)
    requires Inv(cfg, w)
    ensures OnePerAddress(w.cache)
  {
  }

  /** A reload that refuses a line changes nothing. Otherwise its insertions all
      succeed, the cache is empty, no lease loses its time stamp, and the invariant
      holds exactly when on each leased address the most specific committed row, if more
      specific than the pool, is neither a single address nor of equal widths. What goes
      wrong otherwise is in module Conflicts. */
  lemma ReloadKeepsInv(cfg: Config, w: World, rows: seq<Mapping>, failed: bool)
    requires Inv(cfg, w) && RowsOk(rows)
    ensures forall m :: m in rows ==> !m.Pool?
    ensures failed ==> ReloadFile(w, rows, failed) == w
    ensures !failed ==>
      var s := Survivors(w.map4, w.map6, StageAll(rows));
      var v := ReloadFile(w, rows, failed);
      && NeverFails(WithoutFile(w.map4), WithoutFile(w.map6), s)
      && TablesOk(cfg, v.map4, v.map6)
      && (forall m :: m in v.map4 <==> (m in w.map4 && !FileMap(m)) || m in s)
      && (Inv(cfg, v) <==> LeavesLeasesAlone(cfg, w, s))
      && (LeavesLeasesAlone(cfg, w, s) ==>
            v.cache == map[] && v.lastPacket == w.lastPacket && v.now == w.now &&
            v.mapped == w.mapped && v.dormant == w.dormant && v.leases.Keys == w.leases.Keys)
  {
    hide Inv, TablesOk, Flushable, RetireList, StageAll, Survivors, InsertAll, NeverFails, LeavesLeasesAlone, RowOk, WithoutFile;
    StagedRows(rows);
    if !failed {
      InvParts(cfg, w);
      CommitTablesOk(cfg, w, rows);
      var s := Survivors(w.map4, w.map6, StageAll(rows));
      var (map4, map6) := CommitTables(w, s);
      CommitFlushable(cfg, w, map4, map6, s);
      var u := w.(map4 := map4, map6 := map6);
      RetireListTables(u, w.active);
      if LeavesLeasesAlone(cfg, w, s) {
        FlushKeeps(cfg, u, w.active);
      } else {
        BrokenStays(cfg, w, RetireList(u, w.active), s);
      }
    }
  }

  lemma InvParts(cfg: Config, w: World)
    requires Inv(cfg, w)
    ensures TablesOk(cfg, w.map4, w.map6)
    ensures forall s :: s in w.cache ==> s in w.active
  {
  }

  lemma {:induction false} RetireListTables(w: World, list: seq<nat>)
    ensures var v := RetireList(w, list); v.map4 == w.map4 && v.map6 == w.map6 && v.leases.Keys == w.leases.Keys
    decreases list
  {
    if list == [] {
    } else if list[0] in w.cache {
      RetireListTables(Retire(w, list[0]), list[1..]);
      assert Retire(w, list[0]).leases.Keys == w.leases.Keys;
    } else {
      RetireListTables(w, list[1..]);
    }
  }

  lemma BrokenStays(cfg: Config, w: World, v: World, s: seq<Mapping>)
    requires !LeavesLeasesAlone(cfg, w, s)
    requires (forall m :: m in s ==> RowOk(m)) && (forall m :: FileMap(m) ==> (m in v.map4 <==> m in s))
    requires v.leases.Keys == w.leases.Keys
    ensures !Inv(cfg, v)
  {
    hide ClearLow, Admitted, Validate4, TablesOk, SlotsOk, Linked, Stamped, Coherent, PoolTiled, Listed, Sorted, HostsMatch;
    var a, m :| a in w.leases && Foremost(s, a, m) &&
                !(cfg.pool.Some? && (m.Length4() <= cfg.pool.value.Length4() || NeverCached(m)));
    assert a in v.leases.Keys;
    SameForemost(v.map4, s, a, m);
    assert !PoolOwns(cfg, v.map4, v.leases);
  }
}
