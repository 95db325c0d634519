/** The one counter every worker takes IPv4 identifications from, a block at a time. */
module IdentCounter {
  import opened Checksum
  import opened Segments

  /** n identifications in a row, from the p-th one handed out by a counter that began at start. */
  function Block(start: U16, p: nat, n: nat): (r: seq<U16>)
    ensures |r| == n
    ensures forall k :: 0 <= k < n ==> r[k] == (start + p + k) % 0x1_0000
  {
    seq(n, k requires 0 <= k => (start + p + k) % 0x1_0000)
  }

  /** The identifications taken since the beginning, by whichever worker, in the order of
      the atomic additions. */
  class Counter {
    const start: U16
    var next: U16
    ghost var issued: seq<U16>

    ghost predicate Valid()
      reads this
    {
      issued == Block(start, 0, |issued|) && next == (start + |issued|) % 0x1_0000
    }

    constructor (first: U16)
      ensures Valid() && start == first && issued == []
    {
      start, next, issued := first, first, [];
      new;
      assert issued == Block(start, 0, 0);
    }

    /** `reserve_ip4_ident`: the caller may use count identifications from the result on. */
    method Reserve(count: U16) returns (first: U16)
      requires Valid()
      modifies this
      ensures Valid() && first == old(next)
      ensures issued == old(issued) + Block(start, |old(issued)|, count)
      ensures forall k :: 0 <= k < count ==> Block(start, |old(issued)|, count)[k] == (first + k) % 0x1_0000
    {
      hide Block;
      first := next;
      AddResidue(start + |issued|, count);
      BlocksJoin(start, |issued|, count);
      issued := issued + Block(start, |issued|, count);
      next := (next + count) % 0x1_0000;
    }

    /** Two identifications are equal exactly when a multiple of 65,536 were taken from the
        first to the second; so any 65,536 in a row are distinct. */
    lemma RepeatsExactlyAfter65536(i: nat, j: nat)
      requires Valid() && i < j < |issued|
      ensures issued[i] == issued[j] <==> (j - i) % 0x1_0000 == 0
    {
      SameResidue(start + i, start + j);
    }
  }

  lemma BlocksJoin(start: U16, p: nat, n: nat)
    ensures Block(start, 0, p) + Block(start, p, n) == Block(start, 0, p + n)
    ensures forall k :: 0 <= k < n ==> Block(start, p, n)[k] == ((start + p) % 0x1_0000 + k) % 0x1_0000
  {
    var a, b := Block(start, 0, p) + Block(start, p, n), Block(start, 0, p + n);
    forall k | 0 <= k < p + n ensures a[k] == b[k] {
      if k >= p {
        assert start + p + (k - p) == start + 0 + k;
      }
    }
  }

  lemma AddResidue(a: nat, b: nat)
    ensures (a % 0x1_0000 + b) % 0x1_0000 == (a + b) % 0x1_0000
  {
  }

  lemma NearbyDiffer(a: nat, b: nat)
    requires a < b < a + 0x1_0000
    ensures a % 0x1_0000 != b % 0x1_0000
  {
  }

  lemma SameResidue(a: nat, b: nat)
    requires a <= b
    ensures a % 0x1_0000 == b % 0x1_0000 <==> (b - a) % 0x1_0000 == 0
  {
  }

  // ------------------------------------------------------------ what segmentation does with a block

  /** The identifications of the datagrams that may be fragmented. */
  function Df0Ids(s: seq<Seg>): (r: seq<nat>)
    ensures |r| == Df0Count(s)
  {
    if s == [] then [] else (if s[0].df then [] else [s[0].id]) + Df0Ids(s[1..])
  }

  /** Segmenting from the first identification of a reserved block uses exactly that block,
      each identification once and in order, across the wrap as well. */
  lemma {:induction false} SegmentsUseTheBlock(j: Job, header: nat, offset: nat, id: nat, start: U16, p: nat)
    requires j.mss > 0 && offset <= |j.payload| && id % 0x1_0000 == (start + p) % 0x1_0000
    ensures var s := Software(j, header, offset, id); Df0Ids(s) == Block(start, p, Df0Count(s))
    decreases |j.payload| - offset
  {
    hide Block, Atomic, Seq32;
    var s := Software(j, header, offset, id);
    var n := PieceLen(j, offset);
    var df := Atomic(header, n);
    if offset + n == |j.payload| {
      assert s[1..] == [];
    } else {
      var p' := if df then p else p + 1;
      var id' := if df then id else id + 1;
      assert s[1..] == Software(j, header, offset + n, id');
      NextResidue(id, start + p);
      SegmentsUseTheBlock(j, header, offset + n, id', start, p');
      if !df {
        BlockCons(start, p, Df0Count(s));
      }
    }
  }

  lemma NextResidue(a: nat, b: nat)
    requires a % 0x1_0000 == b % 0x1_0000
    ensures (a + 1) % 0x1_0000 == (b + 1) % 0x1_0000
  {
  }

  lemma BlockCons(start: U16, p: nat, n: nat)
    requires n > 0
    ensures Block(start, p, n) == [(start + p) % 0x1_0000] + Block(start, p + 1, n - 1)
  {
  }

  /** Two aggregates, segmented by any workers from blocks reserved in advance, never send
      the same identification while fewer than 65,536 lie from the start of one block to
      the end of the other. */
  lemma AggregatesDoNotCollide(start: U16, j1: Job, h1: nat, p1: nat, id1: nat, j2: Job, h2: nat, p2: nat, id2: nat,
                               a: nat, b: nat)
    requires j1.mss > 0 && j2.mss > 0 && h1 < DF_LIMIT && h2 < DF_LIMIT
    requires id1 == (start + p1) % 0x1_0000 && id2 == (start + p2) % 0x1_0000
    requires p1 + Df0Segments(|j1.payload|, j1.mss, h1) <= p2
    requires p2 + Df0Segments(|j2.payload|, j2.mss, h2) <= p1 + 0x1_0000
    requires a < Df0Count(Software(j1, h1, 0, id1)) && b < Df0Count(Software(j2, h2, 0, id2))
    ensures Df0Ids(Software(j1, h1, 0, id1))[a] != Df0Ids(Software(j2, h2, 0, id2))[b]
  {
    hide Software, Df0Ids, Df0Count, Df0Segments, Block;
    ReservedEqualsUsed(j1, h1, 0, id1);
    ReservedEqualsUsed(j2, h2, 0, id2);
    SegmentsUseTheBlock(j1, h1, 0, id1, start, p1);
    SegmentsUseTheBlock(j2, h2, 0, id2, start, p2);
    NearbyDiffer(start + p1 + a, start + p2 + b);
  }
}
