/** One small configuration on which the exceptional cases of address mapping occur. */
module Examples {
  import opened Bits
  import opened Wrappers
  import opened AddressTables
  import opened Translate
  import opened Coherence
  import opened FreeRuns
  import opened HostEntries
  import opened MapState
  import opened CacheSteps
  import opened PoolSteps
  import opened Maintenance
  import opened Loading
  import opened Reload
  import opened Lookups
  import opened Conflicts

  const LOCAL6: Ip6 := 0x2001_0db8_0000_0000_0000_0000_0000_0001
  const BASE: Ip4 := 0xc0a8_ff00
  const HOST: Ip6 := 0x2001_0db8_0002_0000_0000_0000_0000_0007

  /** The pool 192.168.255.0/30. */
  function SmallPool(): Mapping {
    Pool(BASE, 30)
  }

  /** A configured range map over link-local addresses, which draws a warning only. */
  function LinkLocalMap(): Mapping {
    Static(0xa9fe_0000, 31, 0x2001_0db8_0001_0000_0000_0000_0000_0000, 127, ConfFile)
  }

  function Small(): Config {
    Config(0xc0a8_0001, LOCAL6, true, Some(SmallPool()), false, 4, 7440, 1209600)
  }

  function Tables4(): seq<Mapping> {
    [SelfMap(Small()), LinkLocalMap(), SmallPool()]
  }

  function Tables6(): seq<Mapping> {
    [SelfMap(Small()), LinkLocalMap()]
  }

  /** The state before the first packet. */
  function Boot(now: int): World {
    World(now, Tables4(), Tables6(), [Run(BASE, 3)], map[], [], [], map[], [], seq(4, i => i), map[])
  }

  lemma EntriesSound()
    ensures EntriesAdmitted(Tables4(), Tables6())
  {
    assert Aligned(BASE, 2) by { assert Aligned(BASE / 2, 1); }
    assert Admitted(SmallPool());
    assert Admitted(LinkLocalMap());
    assert Admitted(SelfMap(Small()));
  }

  lemma TablesSound()
    ensures TablesOk(Small(), Tables4(), Tables6())
  {
    EntriesSound();
    TablesOrdered();
    hide Admitted, Ordered4, Disjoint6, ClearLow;
    Whole(LOCAL6);
  }

  lemma TablesOrdered()
    ensures Ordered4(Tables4()) && Disjoint6(Tables6()) && !LinkLocalMap().Covers6(LOCAL6)
  {
  }

  lemma BootSound(now: int)
    ensures Inv(Small(), Boot(now))
  {
    TablesSound();
    assert Pow2(2) == 4;
    hide TablesOk, Inv;
    FreshState(Small(), Boot(now));
  }

  /** A one-way pair in sound tables: packets to 169.254.0.1 are forwarded, the answers dropped. */
  lemma OneWayExample()
    ensures TablesOk(Small(), Tables4(), Tables6()) && OneWay(Tables4(), Tables6(), 0xa9fe_0001)
    ensures Lookup4(Small(), Tables4(), Tables6(), 0xa9fe_0001)
         == Found(0x2001_0db8_0001_0000_0000_0000_0000_0001, true)
    ensures Lookup6(Small(), Tables4(), Tables6(), 0x2001_0db8_0001_0000_0000_0000_0000_0001) == Drop
  {
    TablesSound();
    hide TablesOk;
  }

  // ------------------------------------------------------------ a file with two rows for one host

  function FirstRow(): Row {
    Row(BASE + 1, HOST, 5)
  }

  function SecondRow(): Row {
    Row(BASE + 2, HOST, 4)
  }

  lemma OnlyThePool(a: Ip4)
    requires BASE <= a < BASE + 4
    ensures SmallPool().Covers4(a) && FindMap4(Tables4(), a) == Small().pool
  {
    EntriesSound();
    assert Pow2(2) == 4;
    Covers4Range(SmallPool(), a);
    Whole(a);
    var t := Tables4();
    assert !t[0].Covers4(a) && !t[1].Covers4(a) && t[2] == SmallPool();
    assert t[1..][0] == t[1] && t[1..][1..][0] == t[2];
    FindSkips(t, a);
    FindSkips(t[1..], a);
  }

  lemma FindSkips(s: seq<Mapping>, a: Ip4)
    requires |s| >= 2 && !s[0].Covers4(a)
    ensures FindMap4(s, a) == FindMap4(s[1..], a) && (s[1].Covers4(a) ==> FindMap4(s, a) == Some(s[1]))
  {
  }

  lemma RowAccepted(now: int, row: Row)
    requires BASE < row.a < BASE + 4 && row.b == HOST
    ensures Accepts(Small(), Boot(now), row)
  {
    OnlyThePool(row.a);
    Whole(HOST);
    assert Boot(now).runs[0].Holds(row.a);
    hide FindMap4, Pow2;
  }

  lemma BothAccepted(now: int)
    ensures Accepted(Small(), Boot(now), [FirstRow()]) == [FirstRow()]
    ensures Accepted(Small(), Boot(now), [FirstRow(), SecondRow()]) == [FirstRow(), SecondRow()]
  {
    hide Accepts, LoadAll, Inv;
    BootSound(now);
    InvTiled(Small(), Boot(now));
    RowAccepted(now, FirstRow());
    RowAccepted(now, SecondRow());
    AcceptsIff(Small(), Boot(now), [], FirstRow());
    AcceptedStep(Small(), Boot(now), [FirstRow()]);
    AcceptsIff(Small(), Boot(now), [FirstRow()], SecondRow());
    AcceptedStep(Small(), Boot(now), [FirstRow(), SecondRow()]);
    assert [FirstRow(), SecondRow()][..1] == [FirstRow()] && [FirstRow()][..0] == [];
  }

  /** A file that the reader accepts and after which the state is not sound. */
  lemma TwoRowsExample(now: int)
    ensures Inv(Small(), Boot(now)) && forall m :: m in Boot(now).map6 ==> !m.Pool?
    ensures Accepted(Small(), Boot(now), [FirstRow(), SecondRow()]) == [FirstRow(), SecondRow()]
    ensures !Inv(Small(), LoadDynamic(Small(), Boot(now), [FirstRow(), SecondRow()]))
  {
    hide Inv, LoadDynamic, Accepted;
    BootSound(now);
    BothAccepted(now);
    LoadDynamicKeeps(Small(), Boot(now), [FirstRow(), SecondRow()]);
    assert [FirstRow(), SecondRow()][0].b == [FirstRow(), SecondRow()][1].b;
  }

  // ------------------------------------------------------------ a reload over a leased address

  /** The lease of the first row, dormant. */
  function AfterFirst(now: int): World {
    LoadRow(Boot(now), FirstRow())
  }

  lemma AfterFirstSound(now: int)
    ensures Inv(Small(), AfterFirst(now)) && BASE + 1 in AfterFirst(now).dormant
    ensures AfterFirst(now).map4 == Tables4() && AfterFirst(now).map6 == Tables6()
    ensures BASE + 1 in AfterFirst(now).leases && AfterFirst(now).leases[BASE + 1].a6 == HOST
  {
    hide Inv, LoadRow, Accepts;
    BootSound(now);
    InvTiled(Small(), Boot(now));
    RowAccepted(now, FirstRow());
    LoadRowKeepsInv(Small(), Boot(now), FirstRow());
    LoadRowAdds(Small(), Boot(now), FirstRow());
    LoadRowTables(now);
  }

  lemma LoadRowTables(now: int)
    ensures AfterFirst(now).map4 == Tables4() && AfterFirst(now).map6 == Tables6()
  {
    hide HolderIndex, DormantPos, Split;
  }

  lemma OnlyLease(now: int)
    ensures var w := AfterFirst(now);
            w.dormant == [BASE + 1] && BASE + 1 in w.leases && w.leases[BASE + 1].lastUse == 5 && w.now == now
  {
  }

  /** It is the state after start-up with a file of that row, unless the row was used within
      the minimum lease. */
  lemma StartUpGives(now: int)
    requires now > 7445
    ensures LoadDynamic(Small(), Boot(now), [FirstRow()]) == AfterFirst(now)
  {
    hide Accepts, LoadRow, AfterFirst, LoadAll;
    RowAccepted(now, FirstRow());
    OnlyLease(now);
    LoadsOne(now);
  }

  lemma LoadsOne(now: int)
    requires Accepts(Small(), Boot(now), FirstRow())
    ensures LoadAll(Small(), Boot(now), [FirstRow()]) == AfterFirst(now)
  {
    hide Accepts, LoadRow;
    assert [FirstRow()][..0] == [];
  }

  /** An equal-width row for the leased address and its neighbour. */
  function RangeRow(): Mapping {
    Static(BASE, 31, 0x2001_0db8_0003_0000_0000_0000_0000_0000, 127, MapFile)
  }

  /** A row for the leased address alone. */
  function SingleRow(): Mapping {
    Static(BASE + 1, 32, 0x2001_0db8_0003_0000_0000_0000_0000_0001, 128, MapFile)
  }

  lemma RowsValid()
    ensures RowOk(RangeRow()) && RowOk(SingleRow()) && RowsOk([RangeRow()]) && RowsOk([SingleRow()])
    ensures RangeRow().Covers4(BASE + 1) && SingleRow().Covers4(BASE + 1)
    ensures !RangeRow().Covers6(HOST) && !SingleRow().Covers6(HOST)
  {
  }

  lemma RowSurvives(m: Mapping)
    requires m == RangeRow() || m == SingleRow()
    ensures Survivors(Tables4(), Tables6(), StageAll([m])) == [m]
  {
    assert StageAll([m]) == [m] by {
      assert [m][..0] == [];
      assert StageAll([]) == [];
    }
    NoFixedConflict(m);
    FilterOne(m, (n: Mapping) => !n.Pool? && !ConflictsFixed(Tables4(), Tables6(), n));
  }

  lemma FilterOne(m: Mapping, keep: Mapping -> bool)
    ensures keep(m) ==> Filter([m], keep) == [m]
  {
    assert [m][1..] == [];
  }

  lemma NoFixedConflict(m: Mapping)
    requires m == RangeRow() || m == SingleRow()
    ensures !ConflictsFixed(Tables4(), Tables6(), m)
  {
  }

  /** The reader accepts either file. After the first, a packet to the leased address and
      the return of its host leave a stale pair in the cache; after the second, the host is
      given the address and packets to the address go elsewhere. */
  lemma ReloadExample(now: int, m: Mapping)
    requires m == RangeRow() || m == SingleRow()
    ensures var w := AfterFirst(now);
            && Inv(Small(), w) && RowsOk([m]) && BASE + 1 in w.dormant && BASE + 1 in w.leases && w.leases[BASE + 1].a6 == HOST
            && Objectionable(Small(), w, [m], BASE + 1, m)
            && var v := ReloadFile(w, [m], false);
            && Ready(Small(), v) && Ready(Small(), Resolve4(Small(), v, BASE + 1).0)
            && if m.l4 < 32 then
                 Misled(Small(), Resolve6(Small(), Resolve4(Small(), v, BASE + 1).0, HOST, true).0)
               else
                 var (r, answer) := Resolve6(Small(), v, HOST, true);
                 answer == Found((BASE + 1) as Ip4, true) && FindMap4(r.map4, BASE + 1) == Some(m)
  {
    hide Inv, AfterFirst, RowOk, ReloadFile, RetireList, Resolve4, Resolve6, Misled, Ready, StageAll, Survivors, FindMap4, TablesOk, Grafted;
    AfterFirstSound(now);
    RowsValid();
    RowSurvives(m);
    ReloadGrafts(Small(), AfterFirst(now), [m]);
    HostUncovered();
    ReloadOverDormantLease(Small(), AfterFirst(now), [m], BASE + 1, m);
  }

  lemma HostUncovered()
    ensures forall m :: m in Tables6() ==> !m.Pool? && !m.Covers6(HOST)
  {
    Whole(HOST);
  }

  // ------------------------------------------------------------ a file in conflict with the configuration

  /** A row with the IPv4 prefix of the configured map. */
  function ConflictingRow(): Mapping {
    Static(0xa9fe_0000, 31, 0x2001_0db8_0004_0000_0000_0000_0000_0000, 127, MapFile)
  }

  /** The file is not rejected: the row in conflict is skipped and the other one committed. */
  lemma ConflictExample()
    ensures RowsOk([ConflictingRow(), RangeRow()]) && ConflictsFixed(Tables4(), Tables6(), ConflictingRow())
    ensures Survivors(Tables4(), Tables6(), StageAll([ConflictingRow(), RangeRow()])) == [RangeRow()]
  {
    hide ConflictsFixed, Clash, Filter, StageAll, RowOk, Tables4, Tables6;
    RowsValid();
    ConflictingIsValid();
    NoFixedConflict(RangeRow());
    RowsApart();
    FilterSecond(ConflictingRow(), RangeRow(), (m: Mapping) => !m.Pool? && !ConflictsFixed(Tables4(), Tables6(), m));
  }

  lemma ConflictingIsValid()
    ensures RowOk(ConflictingRow()) && ConflictsFixed(Tables4(), Tables6(), ConflictingRow())
  {
    assert LinkLocalMap() in Tables4() && LinkLocalMap().SameKey4(ConflictingRow());
  }

  lemma FilterSecond(m: Mapping, n: Mapping, keep: Mapping -> bool)
    requires !keep(m) && keep(n)
    ensures Filter([m, n], keep) == [n]
  {
    FilterStep([m, n], keep);
    FilterOne(n, keep);
    assert [m, n][1..] == [n];
  }

  lemma RowsApart()
    ensures StageAll([ConflictingRow(), RangeRow()]) == [ConflictingRow(), RangeRow()]
  {
    var c, r := ConflictingRow(), RangeRow();
    assert !Clash(c, r);
    assert [c, r][..1] == [c] && [c][..0] == [];
    assert StageAll([]) == [];
    assert StageAll([c]) == [c];
    FilterOne(c, (old0: Mapping) => !old0.Pool? && !Clash(old0, r));
  }
}
