/** Sending an IPv4 packet or fragment as IPv6 packets: `xlate_4to6_data` after the
    addresses are mapped (sections 4.1 of RFC 7915 and 4.5 of RFC 8200). */
module Fragments {
  import opened Checksum
  import opened Wrappers

  const IP6_HEADER := 40
  const FRAG_HEADER := 8
  const MTU_MIN := 1280

  /** An emitted fragment: `offset_flags` split in its offset and the MF bit. */
  datatype Frag = Frag(offset: nat, more: bool, payload: seq<Byte>)

  datatype Sent =
    | TooBig                          // refused with an ICMP error
    | Whole(payload: seq<Byte>)       // without fragment header
    | Pieces(frags: seq<Frag>)

  /** The fields of the IPv4 header that decide. */
  datatype Ip4Frag = Ip4Frag(df: bool, mf: bool, offset8: nat)

  /** Room for upper-layer payload in one fragment, rounded down to units of eight. */
  function PieceSize(mtu: nat, offlink: nat): (n: nat)
    requires mtu >= MTU_MIN && offlink >= MTU_MIN
    ensures n % 8 == 0 && 8 <= n && IP6_HEADER + FRAG_HEADER + n <= Min(mtu, offlink)
  {
    var n := Min(mtu, offlink) - IP6_HEADER - FRAG_HEADER;
    n - n % 8
  }

  // ------------------------------------------------------------ what reassembly sees

  predicate Within(x: nat, lo: nat, n: nat) {
    lo <= x < lo + n
  }

  /** The bytes a fragment contributes, by position in the original datagram. */
  function Contribution(f: Frag): (m: map<nat, Byte>) {
    map x | f.offset <= x < f.offset + |f.payload| && Within(x, f.offset, |f.payload|) :: f.payload[x - f.offset]
  }

  /** The receiver's buffer after these fragments, in order of arrival. */
  function Reassemble(arrived: seq<Frag>): (m: map<nat, Byte>) {
    if arrived == [] then map[]
    else Reassemble(arrived[..|arrived| - 1]) + Contribution(arrived[|arrived| - 1])
  }

  /** The buffer that holds data from position start on. */
  function Placed(data: seq<Byte>, start: nat): (m: map<nat, Byte>) {
    map x | start <= x < start + |data| && Within(x, start, |data|) :: data[x - start]
  }

  /** Each fragment carries its part of data, at its place. */
  ghost predicate Faithful(f: Frag, data: seq<Byte>, start: nat) {
    && start <= f.offset && f.offset + |f.payload| <= start + |data|
    && f.payload == data[f.offset - start..f.offset - start + |f.payload|]
  }

  /** The fragments follow each other without gap from position start to position end. */
  ghost predicate Contiguous(frags: seq<Frag>, start: nat, end: nat)
    decreases |frags|
  {
    if frags == [] then start == end
    else frags[0].offset == start && Contiguous(frags[1..], start + |frags[0].payload|, end)
  }

  lemma {:induction false} ContiguousAppend(frags: seq<Frag>, start: nat, end: nat, f: Frag)
    requires Contiguous(frags, start, end) && f.offset == end
    ensures Contiguous(frags + [f], start, end + |f.payload|)
    decreases |frags|
  {
    if frags == [] {
      assert ([f])[1..] == [];
    } else {
      ContiguousAppend(frags[1..], start + |frags[0].payload|, end, f);
      assert (frags + [f])[1..] == frags[1..] + [f];
    }
  }

  lemma {:induction false} PositionCovered(frags: seq<Frag>, start: nat, end: nat, x: nat) returns (i: nat)
    requires Contiguous(frags, start, end) && start <= x < end
    ensures i < |frags| && frags[i].offset <= x < frags[i].offset + |frags[i].payload|
    decreases |frags|
  {
    if x < start + |frags[0].payload| {
      i := 0;
    } else {
      i := PositionCovered(frags[1..], start + |frags[0].payload|, end, x);
      assert frags[1..][i] == frags[i + 1];
      i := i + 1;
    }
  }

  lemma {:induction false} ReassembledBytes(arrived: seq<Frag>, data: seq<Byte>, start: nat)
    requires forall f :: f in arrived ==> Faithful(f, data, start)
    ensures forall x :: x in Reassemble(arrived) ==>
              start <= x < start + |data| && Reassemble(arrived)[x] == data[x - start]
    ensures forall f, x :: f in arrived && f.offset <= x < f.offset + |f.payload| ==> x in Reassemble(arrived)
    decreases |arrived|
  {
    if arrived == [] {
    } else {
      var k := |arrived| - 1;
      var init := arrived[..k];
      var last := arrived[k];
      assert forall f :: f in arrived <==> f in init || f == last;
      ReassembledBytes(init, data, start);
      ContributionFaithful(last, data, start);
      hide Contribution, Faithful;
      var m, c := Reassemble(init), Contribution(last);
      assert Reassemble(arrived) == m + c;
      assert forall x :: x in m + c <==> x in m || x in c;
    }
  }

  lemma ContributionFaithful(f: Frag, data: seq<Byte>, start: nat)
    requires Faithful(f, data, start)
    ensures forall x :: x in Contribution(f) <==> f.offset <= x < f.offset + |f.payload|
    ensures forall x :: x in Contribution(f) ==> start <= x < start + |data| && Contribution(f)[x] == data[x - start]
  {
  }

  /** In whatever order they arrive, and however often, the fragments restore the payload
      at its place in the original datagram. */
  lemma ReassemblyRestores(frags: seq<Frag>, arrived: seq<Frag>, data: seq<Byte>, start: nat)
    requires Contiguous(frags, start, start + |data|)
    requires forall f :: f in frags ==> Faithful(f, data, start)
    requires forall f :: f in arrived <==> f in frags
    ensures Reassemble(arrived) == Placed(data, start)
  {
    hide Contiguous, Reassemble;
    ReassembledBytes(arrived, data, start);
    forall x | start <= x < start + |data| ensures x in Reassemble(arrived) {
      var i := PositionCovered(frags, start, start + |data|, x);
      assert frags[i] in arrived;
    }
  }

  // ------------------------------------------------------------ the packets

  /** The largest multiple of eight bytes that fits behind 48 bytes of headers. */
  function Largest(mtu: nat, offlink: nat): (n: int) {
    (Min(mtu, offlink) as int - 48) / 8 * 8
  }

  /** Only the final piece of a final fragment has MF clear; the others are as large as they can be. */
  ghost predicate WellCut(frags: seq<Frag>, mf: bool, mtu: nat, offlink: nat) {
    && (forall i :: 0 <= i < |frags| ==> frags[i].more == (mf || i < |frags| - 1))
    && (forall i :: 0 <= i < |frags| ==> frags[i].offset % 8 == 0 && frags[i].offset < 0x1_0000 && 0 < |frags[i].payload|)
    && (forall i :: 0 <= i < |frags| - 1 ==> |frags[i].payload| == Largest(mtu, offlink))
    && (forall i :: 0 <= i < |frags| ==> 40 + 8 + |frags[i].payload| <= Min(mtu, offlink))
  }

  lemma WellCutAppend(frags: seq<Frag>, f: Frag, mf: bool, mtu: nat, offlink: nat)
    requires WellCut(frags, true, mtu, offlink) && f.more == mf
    requires forall i :: 0 <= i < |frags| ==> |frags[i].payload| == Largest(mtu, offlink)
    requires f.offset % 8 == 0 && f.offset < 0x1_0000 && 0 < |f.payload|
    requires 40 + 8 + |f.payload| <= Min(mtu, offlink)
    ensures WellCut(frags + [f], mf, mtu, offlink)
    ensures |f.payload| == Largest(mtu, offlink) ==>
      forall i :: 0 <= i < |frags + [f]| ==> |(frags + [f])[i].payload| == Largest(mtu, offlink)
    ensures forall g :: g in frags + [f] <==> g in frags || g == f
  {
  }

  /** The fragment loop. */
  method SendPieces(data: seq<Byte>, start: nat, mf: bool, mtu: nat, offlink: nat) returns (frags: seq<Frag>)
    requires mtu >= MTU_MIN && offlink >= MTU_MIN
    requires start % 8 == 0 && start + |data| <= 0xffff
    ensures Contiguous(frags, start, start + |data|)
    ensures forall f :: f in frags ==> Faithful(f, data, start)
    ensures WellCut(frags, mf, mtu, offlink)
  {
    hide Contiguous, WellCut, Faithful;
    var size := PieceSize(mtu, offlink);
    assert size == Largest(mtu, offlink);
    var off := start;
    var sent := 0;
    frags := [];
    NoPieces(start, mtu, offlink, mf);
    while sent < |data|
      invariant 0 <= sent <= |data| && off == start + sent
      invariant size <= PieceSize(mtu, offlink)
      invariant sent < |data| ==> size == PieceSize(mtu, offlink) && sent % 8 == 0
      invariant Contiguous(frags, start, off)
      invariant forall f :: f in frags ==> Faithful(f, data, start)
      invariant WellCut(frags, if sent == |data| then mf else true, mtu, offlink)
      invariant sent < |data| ==> forall i :: 0 <= i < |frags| ==> |frags[i].payload| == Largest(mtu, offlink)
    {
      if |data| - sent < size {
        size := |data| - sent;
      }
      var f := Frag(off, sent + size < |data| || mf, data[sent..sent + size]);
      assert Faithful(f, data, start) by { SliceFaithful(data, start, sent, size, f.more); }
      ContiguousAppend(frags, start, off, f);
      WellCutAppend(frags, f, f.more, mtu, offlink);
      frags := frags + [f];
      sent := sent + size;
      off := off + size;
    }
  }

  lemma SliceFaithful(data: seq<Byte>, start: nat, sent: nat, size: nat, more: bool)
    requires sent + size <= |data|
    ensures Faithful(Frag(start + sent, more, data[sent..sent + size]), data, start)
  {
  }

  lemma NoPieces(start: nat, mtu: nat, offlink: nat, mf: bool)
    ensures Contiguous([], start, start) && WellCut([], mf, mtu, offlink) && WellCut([], true, mtu, offlink)
  {
  }

  /** Everything after address mapping: refuse, send whole, or send in pieces. */
  method Send(data: seq<Byte>, h: Ip4Frag, mtu: nat, offlink: nat) returns (s: Sent)
    requires mtu >= MTU_MIN && offlink >= MTU_MIN
    requires h.offset8 * 8 + |data| <= 0xffff
    ensures s.TooBig? <==> !h.mf && h.offset8 == 0 && h.df && 40 + |data| > mtu
    ensures s.Whole? <==> !h.mf && h.offset8 == 0 && 40 + |data| <= if h.df then mtu else Min(mtu, offlink)
    ensures s.Whole? ==> s.payload == data
    ensures s.Pieces? ==> WellCut(s.frags, h.mf, mtu, offlink)
    ensures s.Pieces? ==> forall arrived :: (forall f :: f in arrived <==> f in s.frags) ==>
              Reassemble(arrived) == Placed(data, h.offset8 * 8)
  {
    var fragSize := Min(offlink, mtu) - IP6_HEADER;
    var noFragHdr := false;
    if !h.mf && h.offset8 == 0 {
      if h.df {
        if IP6_HEADER + |data| > mtu {
          return TooBig;
        }
        noFragHdr := true;
      } else if |data| <= fragSize {
        noFragHdr := true;
      }
    }
    if noFragHdr {
      return Whole(data);
    }
    var frags := SendPieces(data, h.offset8 * 8, h.mf, mtu, offlink);
    forall arrived: seq<Frag> | forall f :: f in arrived <==> f in frags
      ensures Reassemble(arrived) == Placed(data, h.offset8 * 8)
    {
      ReassemblyRestores(frags, arrived, data, h.offset8 * 8);
    }
    s := Pieces(frags);
  }

  /** When the datagram came in with more to follow and a multiple of eight bytes, as the
      header check demands, every piece that goes out is a multiple of eight bytes too. */
  lemma MiddleStaysAligned(frags: seq<Frag>, data: seq<Byte>, start: nat, mtu: nat, offlink: nat)
    requires WellCut(frags, true, mtu, offlink) && Contiguous(frags, start, start + |data|)
    requires start % 8 == 0 && |data| % 8 == 0
    ensures forall i :: 0 <= i < |frags| ==> |frags[i].payload| % 8 == 0
  {
    hide Contiguous, Min;
    if frags != [] {
      LastEnds(frags, start, start + |data|);
    }
  }

  lemma {:induction false} LastEnds(frags: seq<Frag>, start: nat, end: nat)
    requires Contiguous(frags, start, end) && frags != []
    ensures frags[|frags| - 1].offset + |frags[|frags| - 1].payload| == end
    decreases |frags|
  {
    if |frags| > 1 {
      LastEnds(frags[1..], start + |frags[0].payload|, end);
    }
  }
}
