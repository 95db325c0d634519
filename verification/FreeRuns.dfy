/** The free addresses of the dynamic pool, kept as runs that follow the pool's
    base address and each leased address, and the search for a free one. */
module FreeRuns {
  import opened Bits
  import opened Wrappers
  import opened AddressTables

  /** `struct free_addr`: an address in use and how many free ones follow it. */
  datatype Run = Run(addr: nat, count: nat) {
    predicate Holds(a: nat) {
      addr < a <= addr + count
    }
  }

  /** The runs cover [lo, hi) without gap: each run ends where the next begins. */
  predicate Tiles(runs: seq<Run>, lo: nat, hi: nat)
    decreases runs
  {
    && runs != []
    && runs[0].addr == lo
    && var next := lo + runs[0].count + 1;
       if |runs| == 1 then next == hi else Tiles(runs[1..], next, hi)
  }

  ghost predicate Free(runs: seq<Run>, a: nat) {
    exists i :: 0 <= i < |runs| && runs[i].Holds(a)
  }

  /** a is the address in use at the head of some run but the first, that is, a lease. */
  ghost predicate Leased(runs: seq<Run>, a: nat) {
    exists i :: 1 <= i < |runs| && runs[i].addr == a
  }

  lemma {:induction false} TileBounds(runs: seq<Run>, lo: nat, hi: nat)
    requires Tiles(runs, lo, hi)
    ensures lo < hi && runs != []
    ensures forall i :: 0 <= i < |runs| ==> lo <= runs[i].addr && runs[i].addr + runs[i].count < hi
    ensures forall i, j :: 0 <= i < j < |runs| ==> runs[i].addr + runs[i].count < runs[j].addr
    ensures forall i :: 0 <= i < |runs| - 1 ==> runs[i + 1].addr == runs[i].addr + runs[i].count + 1
  {
    if |runs| == 1 {
    } else {
      var t := runs[1..];
      TileBounds(t, lo + runs[0].count + 1, hi);
      forall i | 1 <= i < |runs| ensures lo + runs[0].count < runs[i].addr && runs[i].addr + runs[i].count < hi {
        assert runs[i] == t[i - 1];
      }
      forall i, j | 0 <= i < j < |runs| ensures runs[i].addr + runs[i].count < runs[j].addr {
        assert runs[j] == t[j - 1];
        if i > 0 {
          assert runs[i] == t[i - 1];
        }
      }
      forall i | 0 <= i < |runs| - 1 ensures runs[i + 1].addr == runs[i].addr + runs[i].count + 1 {
        assert runs[i + 1] == t[i];
        if i > 0 {
          assert runs[i] == t[i - 1];
        }
      }
    }
  }

  /** The run that [lo, hi) has at a: the one that starts at a or holds a. */
  function RunAt(runs: seq<Run>, lo: nat, hi: nat, a: nat): (i: nat)
    requires Tiles(runs, lo, hi) && lo <= a < hi
    ensures i < |runs| && (runs[i].addr == a || runs[i].Holds(a))
    decreases runs
  {
    if a <= lo + runs[0].count then 0
    else 1 + RunAt(runs[1..], lo + runs[0].count + 1, hi, a)
  }

  /** Every pool address but the base is free in exactly one run or leased, never both. */
  lemma FreeXorLeased(runs: seq<Run>, lo: nat, hi: nat, a: nat)
    requires Tiles(runs, lo, hi)
    ensures Free(runs, a) || Leased(runs, a) <==> lo < a < hi
    ensures !(Free(runs, a) && Leased(runs, a))
    ensures forall i, j :: 0 <= i < |runs| && 0 <= j < |runs| && runs[i].Holds(a) && runs[j].Holds(a) ==> i == j
    ensures forall i, j :: 0 <= i < |runs| && 0 <= j < |runs| && runs[i].addr == runs[j].addr ==> i == j
  {
    TileBounds(runs, lo, hi);
    if lo < a < hi {
      var i := RunAt(runs, lo, hi, a);
      assert i == 0 ==> runs[i].addr == lo;
    }
  }

  function Sum(runs: seq<Run>): (n: nat) {
    if runs == [] then 0 else runs[0].count + Sum(runs[1..])
  }

  /** Conservation: free addresses and leases together are the pool without its base. */
  lemma {:induction false} FreePlusLeased(runs: seq<Run>, lo: nat, hi: nat)
    requires Tiles(runs, lo, hi)
    ensures Sum(runs) + (|runs| - 1) == hi - lo - 1
    decreases runs
  {
    if |runs| == 1 {
      assert Sum(runs[1..]) == 0;
    } else {
      FreePlusLeased(runs[1..], lo + runs[0].count + 1, hi);
    }
  }

  // ---------------------------------------------------------------- split and merge

  /** `alloc_map_dynamic`: address a leaves run i and heads the rest of it. */
  function Split(runs: seq<Run>, i: nat, a: nat): (r: seq<Run>)
    requires i < |runs| && runs[i].Holds(a)
  {
    runs[..i] + [Run(runs[i].addr, a - runs[i].addr - 1), Run(a, runs[i].count - (a - runs[i].addr))] + runs[i + 1..]
  }

  /** Releasing the lease at the head of run i: the run before absorbs it. */
  function Merge(runs: seq<Run>, i: nat): (r: seq<Run>)
    requires 0 < i < |runs|
  {
    runs[..i - 1] + [Run(runs[i - 1].addr, runs[i - 1].count + runs[i].count + 1)] + runs[i + 1..]
  }

  lemma {:induction false} SplitTiles(runs: seq<Run>, lo: nat, hi: nat, i: nat, a: nat)
    requires Tiles(runs, lo, hi) && i < |runs| && runs[i].Holds(a)
    ensures Tiles(Split(runs, i, a), lo, hi)
    decreases i
  {
    var r := Split(runs, i, a);
    if i == 0 {
      assert r[1..] == [Run(a, runs[0].count - (a - lo))] + runs[1..];
      assert r[1..][1..] == runs[1..];
    } else {
      SplitTiles(runs[1..], lo + runs[0].count + 1, hi, i - 1, a);
      assert r[1..] == Split(runs[1..], i - 1, a);
    }
  }

  lemma {:induction false} MergeTiles(runs: seq<Run>, lo: nat, hi: nat, i: nat)
    requires Tiles(runs, lo, hi) && 0 < i < |runs|
    ensures Tiles(Merge(runs, i), lo, hi)
    decreases i
  {
    var r := Merge(runs, i);
    if i == 1 {
      assert r[1..] == runs[2..] == runs[1..][1..];
    } else {
      MergeTiles(runs[1..], lo + runs[0].count + 1, hi, i - 1);
      assert r[1..] == Merge(runs[1..], i - 1);
    }
  }

  lemma SplitLeases(runs: seq<Run>, i: nat, a: nat, x: nat)
    requires i < |runs| && runs[i].Holds(a)
    ensures Leased(Split(runs, i, a), x) <==> Leased(runs, x) || x == a
  {
    var r := Split(runs, i, a);
    assert r[i + 1].addr == a;
    assert forall k :: 0 <= k <= i ==> r[k].addr == runs[k].addr;
    assert forall k :: i + 2 <= k < |r| ==> r[k].addr == runs[k - 1].addr;
    if Leased(runs, x) {
      var k :| 1 <= k < |runs| && runs[k].addr == x;
      assert r[if k <= i then k else k + 1].addr == x;
    }
  }

  lemma MergeLeases(runs: seq<Run>, lo: nat, hi: nat, i: nat, x: nat)
    requires Tiles(runs, lo, hi) && 0 < i < |runs|
    ensures Leased(Merge(runs, i), x) <==> Leased(runs, x) && x != runs[i].addr
  {
    hide Tiles, Merge;
    var r := Merge(runs, i);
    TileBounds(runs, lo, hi);
    MergeHeads(runs, i);
    if Leased(runs, x) && x != runs[i].addr {
      var k :| 1 <= k < |runs| && runs[k].addr == x;
      assert r[if k < i then k else k - 1].addr == x;
    }
    if Leased(r, x) {
      var k :| 1 <= k < |r| && r[k].addr == x;
      assert runs[if k < i then k else k + 1].addr == x;
    }
  }

  lemma MergeHeads(runs: seq<Run>, i: nat)
    requires 0 < i < |runs|
    ensures var r := Merge(runs, i);
            && |r| == |runs| - 1
            && (forall k :: 0 <= k < i ==> r[k].addr == runs[k].addr)
            && (forall k :: i <= k < |r| ==> r[k].addr == runs[k + 1].addr)
  {
  }

  /** Allocating an address and releasing it again restores the runs. */
  lemma MergeUndoesSplit(runs: seq<Run>, i: nat, a: nat)
    requires i < |runs| && runs[i].Holds(a)
    ensures Merge(Split(runs, i, a), i + 1) == runs
  {
    var r := Split(runs, i, a);
    assert r[..i] == runs[..i];
    assert r[i + 2..] == runs[i + 1..];
    assert runs == runs[..i] + [runs[i]] + runs[i + 1..];
  }

  // ---------------------------------------------------------------- search

  /** A free address whose longest prefix match is the pool itself. */
  ghost predicate Eligible(map4: seq<Mapping>, pool: Mapping, runs: seq<Run>, a: nat) {
    a < 0x1_0000_0000 && Free(runs, a) && FindMap4(map4, a) == Some(pool)
  }

  /** The address k steps after first, going round the pool [lo, hi). */
  function Around(lo: nat, hi: nat, first: nat, k: nat): (a: nat)
    requires lo <= first < hi && k < hi - lo
    ensures lo <= a < hi
  {
    if first + k < hi then first + k else first + k - (hi - lo)
  }

  /** One address at a time, from the k-th on: the specification of the search. */
  ghost function NaiveScan(map4: seq<Mapping>, pool: Mapping, runs: seq<Run>,
                           lo: nat, hi: nat, first: nat, k: nat): (r: Option<Ip4>)
    requires lo <= first < hi && k <= hi - lo && hi <= 0x1_0000_0000
    decreases hi - lo - k
  {
    if k == hi - lo then None
    else if Eligible(map4, pool, runs, Around(lo, hi, first, k)) then Some(Around(lo, hi, first, k))
    else NaiveScan(map4, pool, runs, lo, hi, first, k + 1)
  }

  lemma {:induction false} ScanFinds(map4: seq<Mapping>, pool: Mapping, runs: seq<Run>,
                                     lo: nat, hi: nat, first: nat, k: nat, n: nat)
    requires lo <= first < hi && k <= n <= hi - lo && hi <= 0x1_0000_0000
    requires forall j :: k <= j < n ==> !Eligible(map4, pool, runs, Around(lo, hi, first, j))
    requires n < hi - lo ==> Eligible(map4, pool, runs, Around(lo, hi, first, n))
    ensures NaiveScan(map4, pool, runs, lo, hi, first, k)
         == if n == hi - lo then None else Some(Around(lo, hi, first, n))
    decreases n - k
  {
    if k == n {
    } else {
      ScanFinds(map4, pool, runs, lo, hi, first, k + 1, n);
    }
  }

  /** a is the address n steps from the start, and no address from the k-th on is eligible before it. */
  ghost predicate FirstEligible(map4: seq<Mapping>, pool: Mapping, runs: seq<Run>,
                                lo: nat, hi: nat, first: nat, k: nat, n: nat, a: Ip4)
    requires lo <= first < hi && hi <= 0x1_0000_0000
  {
    && k <= n < hi - lo && a == Around(lo, hi, first, n)
    && (forall j :: k <= j < n ==> !Eligible(map4, pool, runs, Around(lo, hi, first, j)))
  }

  /** What the search returns: the first eligible address going round the pool, or none when there is none. */
  lemma {:induction false} ScanMeaning(map4: seq<Mapping>, pool: Mapping, runs: seq<Run>,
                                       lo: nat, hi: nat, first: nat, k: nat)
    requires lo <= first < hi && k <= hi - lo && hi <= 0x1_0000_0000
    ensures var r := NaiveScan(map4, pool, runs, lo, hi, first, k);
            && (r.Some? ==> lo <= r.value < hi && Eligible(map4, pool, runs, r.value))
            && (r.Some? ==> exists n :: FirstEligible(map4, pool, runs, lo, hi, first, k, n, r.value))
            && (r == None ==> forall j :: k <= j < hi - lo ==> !Eligible(map4, pool, runs, Around(lo, hi, first, j)))
    decreases hi - lo - k
  {
    if k == hi - lo {
    } else if Eligible(map4, pool, runs, Around(lo, hi, first, k)) {
      assert FirstEligible(map4, pool, runs, lo, hi, first, k, k, Around(lo, hi, first, k));
    } else {
      ScanMeaning(map4, pool, runs, lo, hi, first, k + 1);
      var r := NaiveScan(map4, pool, runs, lo, hi, first, k + 1);
      if r.Some? {
        var n :| FirstEligible(map4, pool, runs, lo, hi, first, k + 1, n, r.value);
        assert FirstEligible(map4, pool, runs, lo, hi, first, k, n, r.value);
      }
    }
  }

  /** No address of [x, y) has the pool as its longest match. */
  ghost predicate NoPool(map4: seq<Mapping>, pool: Mapping, x: nat, y: nat) {
    forall a: Ip4 :: x <= a < y ==> FindMap4(map4, a) != Some(pool)
  }

  /** Skipping the rest of a more specific entry passes over no address of the pool's own. */
  lemma SkipIsSafe(map4: seq<Mapping>, pool: Mapping, a: Ip4)
    requires Ordered4(map4) && AllCanonical(map4) && pool in map4
    requires pool.Covers4(a) && FindMap4(map4, a) != Some(pool)
    ensures FindMap4(map4, a).Some?
    ensures var m := FindMap4(map4, a).value;
            && m in map4 && m.Addr4() <= a < m.Addr4() + Pow2(32 - m.Length4())
            && NoPool(map4, pool, a, m.Addr4() + Pow2(32 - m.Length4()))
  {
    hide FindMap4, Pow2, ClearLow, Ordered4;
    FindNone(map4, a);
    FindIsMember(map4, a);
    var m := FindMap4(map4, a).value;
    FirstIsLongest(map4, a, m);
    Covers4Range(m, a);
    forall x: Ip4 | a <= x < m.Addr4() + Pow2(32 - m.Length4())
      ensures FindMap4(map4, x) != Some(pool)
    {
      Covers4Range(m, x);
      FirstIsLongest(map4, x, pool);
    }
  }

  /** The two-pass search of `assign_dynamic`: first from the starting point to the
      end of the pool, then from its base; free runs are walked in order and the
      rest of any more specific map is skipped in one step. */
  method SearchRuns(map4: seq<Mapping>, pool: Mapping, runs: seq<Run>, lo: nat, hi: nat, first: nat)
    returns (r: Option<Ip4>, at: nat)
    requires Ordered4(map4) && AllCanonical(map4) && pool in map4
    requires lo == pool.Addr4() && hi == lo + Pow2(32 - pool.Length4()) <= 0x1_0000_0000
    requires Tiles(runs, lo, hi) && lo <= first < hi
    ensures r == NaiveScan(map4, pool, runs, lo, hi, first, 0)
    ensures r.Some? ==> at < |runs| && runs[at].Holds(r.value)
  {
    hide Tiles, FindMap4, Ordered4, NaiveScan, Pow2, ClearLow;
    TileBounds(runs, lo, hi);
    var pass := 0;
    while pass < 2
      invariant 0 <= pass <= 2
      invariant pass >= 1 ==> PassDone(map4, pool, runs, |runs|, first, hi)
      invariant pass == 2 ==> PassDone(map4, pool, runs, |runs|, lo, first)
    {
      var low := if pass == 0 then first else lo;
      var high := if pass == 0 then hi else first;
      var i := 0;
      while i < |runs|
        invariant 0 <= i <= |runs|
        invariant PassDone(map4, pool, runs, i, low, high)
      {
        var f := runs[i];
        var addr := f.addr + 1;
        var end := f.addr + f.count + 1;
        if addr < low { addr := low; }
        if end > high { end := high; }
        ghost var start := addr;
        while addr < end
          invariant start <= addr
          invariant NoPool(map4, pool, start, addr)
        {
          Covers4Range(pool, addr);
          var m4 := FindMap4(map4, addr);
          if m4 == Some(pool) {
            FoundFirst(map4, pool, runs, lo, hi, first, pass, i, start, addr);
            return Some(addr), i;
          }
          SkipIsSafe(map4, pool, addr);  // so there is always a match
          addr := m4.value.Addr4() + Pow2(32 - m4.value.Length4());
        }
        i := i + 1;
      }
      pass := pass + 1;
    }
    NothingFound(map4, pool, runs, lo, hi, first);
    r, at := None, 0;
  }

  /** The first n runs hold no eligible address in [low, high). */
  ghost predicate PassDone(map4: seq<Mapping>, pool: Mapping, runs: seq<Run>, n: nat, low: nat, high: nat)
    requires n <= |runs|
  {
    forall i, a: Ip4 :: 0 <= i < n && runs[i].Holds(a) && low <= a < high ==> FindMap4(map4, a) != Some(pool)
  }

  lemma NothingFound(map4: seq<Mapping>, pool: Mapping, runs: seq<Run>, lo: nat, hi: nat, first: nat)
    requires lo <= first < hi <= 0x1_0000_0000
    requires PassDone(map4, pool, runs, |runs|, first, hi)
    requires PassDone(map4, pool, runs, |runs|, lo, first)
    ensures NaiveScan(map4, pool, runs, lo, hi, first, 0) == None
  {
    ScanFinds(map4, pool, runs, lo, hi, first, 0, hi - lo);
  }

  lemma FoundFirst(map4: seq<Mapping>, pool: Mapping, runs: seq<Run>, lo: nat, hi: nat, first: nat,
                   pass: nat, i: nat, start: nat, addr: Ip4)
    requires Tiles(runs, lo, hi) && lo <= first < hi <= 0x1_0000_0000 && pass < 2 && i < |runs|
    requires var low := if pass == 0 then first else lo;
             var high := if pass == 0 then hi else first;
             && PassDone(map4, pool, runs, i, low, high)
             && (start == runs[i].addr + 1 || start == low) && low <= start <= addr < high
    requires pass == 1 ==> PassDone(map4, pool, runs, |runs|, first, hi)
    requires runs[i].Holds(addr) && NoPool(map4, pool, start, addr)
    requires FindMap4(map4, addr) == Some(pool)
    ensures NaiveScan(map4, pool, runs, lo, hi, first, 0) == Some(addr)
  {
    hide FindMap4, Tiles, NaiveScan;
    var n := if pass == 0 then addr - first else addr + (hi - lo) - first;
    TileBounds(runs, lo, hi);
    forall j | 0 <= j < n ensures !Eligible(map4, pool, runs, Around(lo, hi, first, j)) {
    }
    ScanFinds(map4, pool, runs, lo, hi, first, 0, n);
  }

  /** The scan of `load_map`: the first run that ends at a or later, refused if it starts
      there. What it accepts are exactly the free addresses, in the run that holds them. */
  method FindHolder(runs: seq<Run>, lo: nat, hi: nat, a: nat) returns (ok: bool, at: nat)
    requires Tiles(runs, lo, hi)
    ensures ok <==> Free(runs, a)
    ensures ok ==> at < |runs| && runs[at].Holds(a)
  {
    hide Tiles;
    TileBounds(runs, lo, hi);
    at := 0;
    while at < |runs| && runs[at].addr + runs[at].count < a
      invariant at <= |runs|
      invariant forall k :: 0 <= k < at ==> runs[k].addr + runs[k].count < a
    {
      at := at + 1;
    }
    ok := at < |runs| && runs[at].addr < a;
  }

  // ---------------------------------------------------------------- starting point

  /** `(base & max) + (base >> (32 - len))`, repeated until it fits in k bits. */
  function Fold(base: nat, k: nat): (r: nat)
    requires k >= 1
    ensures r < Pow2(k)
    ensures r <= base
    decreases base
  {
    if base < Pow2(k) then base
    else
      FoldShrinks(base, k);
      Fold(Low(base, k) + Shr(base, k), k)
  }

  lemma {:induction false} FoldShrinks(base: nat, k: nat)
    requires k >= 1 && base >= Pow2(k)
    ensures Low(base, k) + Shr(base, k) < base
    decreases k
  {
    if k == 1 {
      assert Pow2(1) == 2;
    } else {
      FoldShrinks(base / 2, k - 1);
    }
  }

  /** The offset in the pool where the search for address words w starts. */
  function HashPoint(w: seq<nat>, k: nat): (r: nat)
    requires k >= 1
    ensures r < Pow2(k)
    decreases |w|
  {
    if w == [] then 0
    else Fold((HashPoint(w[..|w| - 1], k) + w[|w| - 1]) % 0x1_0000_0000, k)
  }

  /** The hash loops of `assign_dynamic`: they end, below the size of the pool. */
  method ComputeHashPoint(w: seq<nat>, k: nat) returns (base: nat)
    requires k >= 1
    ensures base == HashPoint(w, k) && base < Pow2(k)
  {
    hide Fold, Pow2;
    base := 0;
    for i := 0 to |w|
      invariant base == HashPoint(w[..i], k)
    {
      base := FoldDown(base + w[i], k);
      assert w[..i + 1][..i] == w[..i];
    }
    assert w[..|w|] == w;
  }

  /** One word's share of the hash: 32-bit addition, then folding until it fits. */
  method FoldDown(sum: nat, k: nat) returns (base: nat)
    requires k >= 1
    ensures base == Fold(sum % 0x1_0000_0000, k) && base < Pow2(k)
  {
    hide Pow2, Low, Shr;
    base := sum % 0x1_0000_0000;
    while base >= Pow2(k)
      invariant Fold(base, k) == Fold(sum % 0x1_0000_0000, k)
    {
      FoldShrinks(base, k);
      base := Low(base, k) + Shr(base, k);
    }
  }
}
