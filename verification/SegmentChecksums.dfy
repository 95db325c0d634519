/** The checksums that the software segmentation loops put into the segments they emit. */
module SegmentChecksums {
  import opened Checksum
  import opened Wrappers
  import opened Transport
  import opened Segments

  /** Header, payload and pseudo-header are summed separately and joined with `ones_add`;
      header is that of one segment, its checksum field being zero. UDP never sends zero.
      The segment that leaves is valid. */
  method SegmentChecksum(header: seq<Byte>, off: nat, payload: seq<Byte>, addrs: seq<Byte>, proto: Byte) returns (ck: U16)
    requires |addrs| == 8 && |header| % 2 == 0 && off % 2 == 0 && off + 2 <= |header|
    requires FieldAt(header, off) == 0 && (proto == TCP || proto == UDP)
    ensures Verifies(addrs, |header| + |payload|, proto, WithField(header, off, ck) + payload)
    ensures proto == UDP ==> ck != 0
  {
    hide Sum16, Congruent, Verifies, OnesSum, Norm, FieldAt, WithField, OnesAdd, Complement, CkSum, Tail, Pseudo;
    var dataSum := 0;
    if |payload| > 0 {
      dataSum := IpChecksum(payload);
    } else {
      NothingSummed();
    }
    var headerSum := IpChecksum(header);
    var both := OnesAdd(headerSum, dataSum);
    var pseudo := PseudoChecksum(addrs, |header| + |payload|, proto);
    ck := OnesAdd(both, pseudo);
    ghost var s := Sum16(header + payload);
    ghost var t := Sum16(addrs) + Tail(|header| + |payload|, proto);
    FieldOfWhole(header, off, payload);
    BodyCongruent(header);
    BodyCongruent(payload);
    ChecksumOfParts(header, payload);
    BodyCongruent(header + payload);
    OnesAddCongruent(both, pseudo);
    JoinCongruent(ck, both, pseudo, s, t);
    if proto == UDP {
      ck := KeepNonZero(ck, 0 - s - t);
    }
    CancelledVerifies(header + payload, off, addrs, proto, ck, s, t);
  }

  lemma NothingSummed()
    ensures CkSum([]) == 0
  {
  }

  lemma JoinCongruent(ck: U16, body: U16, pseudo: U16, s: int, t: int)
    requires Congruent(ck, body + pseudo) && Congruent(body, 0 - s) && Congruent(pseudo, 0 - t)
    ensures Congruent(ck, 0 - s - t)
  {
    hide Congruent;
    CongruentSum(body, 0 - s, pseudo, 0 - t);
    CongruentTrans(ck, body as int + pseudo, 0 - s - t);
  }

  /** A field that takes the rest of the sum away makes the segment valid. */
  lemma CancelledVerifies(seg: seq<Byte>, off: nat, addrs: seq<Byte>, proto: Byte, ck: U16, s: nat, t: nat)
    requires |addrs| == 8 && off % 2 == 0 && off + 2 <= |seg| && proto > 0 && FieldAt(seg, off) == 0
    requires s == Sum16(seg) && t == Sum16(addrs) + Tail(|seg|, proto) && Congruent(ck, 0 - s - t)
    ensures Verifies(addrs, |seg|, proto, WithField(seg, off, ck))
  {
    hide Sum16, Congruent, Verifies, Tail, WithField, FieldAt;
    FieldSum(seg, off, ck);
    VerifiesIff(addrs, |seg|, proto, WithField(seg, off, ck));
    Cancels(ck, s, t);
  }

  lemma FieldOfWhole(header: seq<Byte>, off: nat, payload: seq<Byte>)
    requires off + 2 <= |header|
    ensures forall ck: U16 :: WithField(header, off, ck) + payload == WithField(header + payload, off, ck)
    ensures FieldAt(header + payload, off) == FieldAt(header, off)
  {
  }

  // ------------------------------------------------------------ the loop with its headers

  /** The special flags of byte 13 of a TCP header (bits 0, 3 and 7), and the other bits. */
  function FlagsOf(b: Byte): (f: Flags) {
    var x := b / 2;
    var y := x / 4;
    var z := y / 2;
    Flags(b % 2 == 1, y % 2 == 1, z / 8 == 1, x % 4 * 2 + z % 8 * 16)
  }

  function FlagByte(f: Flags): (b: Byte) {
    (f.rest + (if f.fin then 1 else 0) + (if f.psh then 8 else 0) + (if f.cwr then 128 else 0)) % 0x100
  }

  /** The byte is read without loss, and clearing a flag clears its bit only. */
  lemma FlagBits(b: Byte)
    ensures var f := FlagsOf(b);
            && FlagByte(f) == b
            && FlagByte(f.NotLast()) == b - (if f.fin then 1 else 0) - (if f.psh then 8 else 0)
            && FlagByte(f.NotFirst()) == b - (if f.cwr then 128 else 0)
  {
    hide FlagsOf;
    FlagsSum(b);
  }

  lemma FlagsSum(b: Byte)
    ensures var f := FlagsOf(b);
            b == f.rest + (if f.fin then 1 else 0) + (if f.psh then 8 else 0) + (if f.cwr then 128 else 0)
  {
    var x := b / 2;
    var y := x / 4;
    var z := y / 2;
    assert z / 8 <= 1;
  }

  /** Where the checksum field is. */
  function FieldOf(proto: Byte): (off: nat) {
    if proto == UDP then 6 else 16
  }

  predicate HeaderOk(h: seq<Byte>, proto: Byte) {
    (proto == TCP && |h| >= 20 && |h| % 4 == 0) || (proto == UDP && |h| == 8)
  }

  /** The transport header of a segment, made from that of the aggregate: sequence number
      and flags, or the length; and no checksum yet. */
  function HeaderOf(h: seq<Byte>, proto: Byte, seg: Seg): (r: seq<Byte>)
    requires HeaderOk(h, proto)
    ensures |r| == |h| && FieldAt(r, FieldOf(proto)) == 0
  {
    if proto == TCP then h[..4] + Be32(seg.sequence) + h[8..13] + [FlagByte(seg.flags)] + h[14..16] + [0, 0] + h[18..]
    else h[..4] + Be32(8 + |seg.payload|)[2..] + [0, 0]
  }

  /** Segment x is seg with the header made for it, and its checksum holds. */
  ghost predicate Emitted(h: seq<Byte>, addrs: seq<Byte>, proto: Byte, seg: Seg, x: seq<Byte>)
    requires HeaderOk(h, proto)
  {
    && (exists ck: U16 :: x == WithField(HeaderOf(h, proto, seg), FieldOf(proto), ck) + seg.payload && (proto == UDP ==> ck != 0))
    && Verifies(addrs, |x|, proto, x)
  }

  ghost predicate AllEmitted(h: seq<Byte>, addrs: seq<Byte>, proto: Byte, segs: seq<Seg>, xs: seq<seq<Byte>>)
    requires HeaderOk(h, proto)
  {
    |xs| == |segs| && forall i :: 0 <= i < |segs| ==> Emitted(h, addrs, proto, segs[i], xs[i])
  }

  /** The software loops to IPv4: nothing is sent if a segment would be longer than IPv4
      allows; otherwise the datagrams of `Software` leave, and every one of them verifies. */
  method SendSegments(j: Job, h: seq<Byte>, addrs: seq<Byte>, proto: Byte, firstId: nat)
    returns (ok: bool, wire: seq<seq<Byte>>)
    requires j.mss > 0 && HeaderOk(h, proto) && |addrs| == 8
    ensures ok <==> 20 + |h| + Min(|j.payload|, j.mss) <= 65535
    ensures !ok ==> wire == []
    ensures ok ==> AllEmitted(h, addrs, proto, Software(j, 20 + |h|, 0, firstId), wire)
  {
    hide Software, Piece, Atomic, Emitted, Verifies, HeaderOf, WithField, FieldAt, Seq32;
    var header := IP4_HEADER + |h|;
    var offset, nextId := 0, firstId;
    ghost var sent: seq<Seg> := [];
    wire := [];
    while true
      invariant 0 <= offset <= |j.payload|
      invariant offset == 0 || offset < |j.payload|
      invariant offset == 0 ==> wire == []
      invariant offset > 0 ==> header + Min(|j.payload|, j.mss) <= 65535
      invariant Software(j, header, 0, firstId) == sent + Software(j, header, offset, nextId)
      invariant AllEmitted(h, addrs, proto, sent, wire)
      decreases |j.payload| - offset
    {
      SoftwareStep(j, header, offset, nextId, sent);
      var seg, n;
      seg, n, nextId := BuildPiece(j, header, offset, nextId);
      if header + n > 65535 {
        return false, wire;
      }
      PieceCarries(j, offset, Atomic(header, n), if Atomic(header, n) then nextId else nextId - 1);
      var x := EmitSegment(h, addrs, proto, seg);
      wire := wire + [x];
      sent := sent + [seg];
      offset := offset + n;
      if offset >= |j.payload| {
        return true, wire;
      }
    }
  }

  /** One segment: header, checksum, payload. */
  method EmitSegment(h: seq<Byte>, addrs: seq<Byte>, proto: Byte, seg: Seg) returns (x: seq<Byte>)
    requires HeaderOk(h, proto) && |addrs| == 8
    ensures Emitted(h, addrs, proto, seg, x)
  {
    hide Verifies, HeaderOf, WithField, FieldAt;
    var header := HeaderOf(h, proto, seg);
    var ck := SegmentChecksum(header, FieldOf(proto), seg.payload, addrs, proto);
    x := WithField(header, FieldOf(proto), ck) + seg.payload;
  }

  // ------------------------------------------------------------ the bytes on the wire

  /** The number that bytes spell, the highest first. */
  function Spelled(b: seq<Byte>): (n: nat) {
    if b == [] then 0 else Spelled(b[..|b| - 1]) * 0x100 + b[|b| - 1]
  }

  /** A TCP segment: the sequence number in bytes 4 to 7; FIN (bit 0) and PSH (bit 3) gone unless
      it is the last, CWR (bit 7) unless it is the first; and else the header of the aggregate. */
  ghost predicate TcpBytes(h: seq<Byte>, sequence: nat, first: bool, last: bool, x: seq<Byte>)
    requires 20 <= |h| <= |x|
  {
    && Spelled(x[4..8]) == sequence
    && (x[13] % 2 == if last then h[13] % 2 else 0)
    && (x[13] / 8 % 2 == if last then h[13] / 8 % 2 else 0)
    && (x[13] / 128 == if first then h[13] / 128 else 0)
    && x[13] / 2 % 4 == h[13] / 2 % 4 && x[13] / 16 % 8 == h[13] / 16 % 8
    && forall k :: 0 <= k < |h| && !(4 <= k < 8) && k != 13 && k != 16 && k != 17 ==> x[k] == h[k]
  }

  /** A UDP datagram: the ports of the aggregate, its own length, and a checksum. */
  ghost predicate UdpBytes(h: seq<Byte>, length: nat, x: seq<Byte>)
    requires 8 == |h| <= |x|
  {
    && x[..4] == h[..4]
    && Spelled(x[4..6]) == length
    && (x[6] != 0 || x[7] != 0)
  }

  lemma Spelled2(a: Byte, b: Byte)
    ensures Spelled([a, b]) == (a as int) * 0x100 + b
  {
    assert [a, b][..1] == [a] && [a][..0] == [];
    assert Spelled([a]) == a;
  }

  lemma Spelled4(a: Byte, b: Byte, c: Byte, d: Byte)
    ensures Spelled([a, b, c, d]) == (a as int) * 0x100_0000 + (b as int) * 0x1_0000 + (c as int) * 0x100 + d
  {
    assert [a, b, c, d][..3] == [a, b, c] && [a, b, c][..2] == [a, b];
    Spelled2(a, b);
  }

  lemma Be32Spells(n: nat)
    requires n < 0x1_0000_0000
    ensures Spelled(Be32(n)) == n
    ensures n < 0x1_0000 ==> Spelled(Be32(n)[2..]) == n
  {
    hide Spelled;
    var x := n / 0x100;
    var y := x / 0x100;
    assert n / 0x1_0000 == y && n / 0x100_0000 == y / 0x100;
    var b := Be32(n);
    Spelled4(b[0], b[1], b[2], b[3]);
    Spelled2(b[2], b[3]);
    assert b[2..] == [b[2], b[3]];
  }

  /** The flag byte bit by bit. */
  lemma FlagByteBits(f: Flags, low: nat, high: nat)
    requires low < 4 && high < 8 && f.rest == low * 2 + high * 16
    ensures var c := FlagByte(f);
            && c % 2 == (if f.fin then 1 else 0) && c / 2 % 4 == low && c / 8 % 2 == (if f.psh then 1 else 0)
            && c / 16 % 8 == high && c / 128 == (if f.cwr then 1 else 0)
  {
    FlagDigits(if f.fin then 1 else 0, low, if f.psh then 1 else 0, high, if f.cwr then 1 else 0);
  }

  lemma FlagDigits(fin: nat, low: nat, psh: nat, high: nat, cwr: nat)
    requires fin < 2 && low < 4 && psh < 2 && high < 8 && cwr < 2
    ensures var c := fin + 2 * low + 8 * psh + 16 * high + 128 * cwr;
            c < 0x100 && c % 2 == fin && c / 2 % 4 == low && c / 8 % 2 == psh && c / 16 % 8 == high && c / 128 == cwr
  {
  }

  /** The header of segment seg, whose flags are those of the aggregate's header but for the
      ones that are gone. */
  lemma HeaderInBytes(h: seq<Byte>, seg: Seg, first: bool, last: bool, x: seq<Byte>, ck: U16)
    requires HeaderOk(h, 6) && seg.sequence < 0x1_0000_0000
    requires seg.flags == SegmentFlags(FlagsOf(h[13]), first, last)
    requires x == WithField(HeaderOf(h, 6, seg), 16, ck) + seg.payload
    ensures TcpBytes(h, seg.sequence, first, last, x)
  {
    hide FlagByte, Be32, Spelled, FieldAt;
    var b := h[13];
    HeaderPlaces(h, seg, x, ck);
    Be32Spells(seg.sequence);
    Digits(b);
    FlagByteBits(seg.flags, b / 2 % 4, b / 16 % 8);
  }

  function SegmentFlags(f: Flags, first: bool, last: bool): (r: Flags) {
    Flags(f.fin && last, f.psh && last, f.cwr && first, f.rest)
  }

  lemma Digits(b: Byte)
    ensures b / 2 / 4 == b / 8 && b / 2 / 4 / 2 == b / 16 && b / 16 / 8 == b / 128
    ensures b / 128 <= 1
  {
  }

  lemma HeaderPlaces(h: seq<Byte>, seg: Seg, x: seq<Byte>, ck: U16)
    requires HeaderOk(h, 6) && x == WithField(HeaderOf(h, 6, seg), 16, ck) + seg.payload
    ensures |x| >= |h| && x[4..8] == Be32(seg.sequence) && x[13] == FlagByte(seg.flags)
    ensures forall k :: 0 <= k < |h| && !(4 <= k < 8) && k != 13 && k != 16 && k != 17 ==> x[k] == h[k]
  {
    hide FlagByte, Be32, FieldAt;
  }

  lemma UdpPlaces(h: seq<Byte>, seg: Seg, x: seq<Byte>, ck: U16)
    requires HeaderOk(h, 17) && 8 + |seg.payload| < 0x1_0000 && ck != 0
    requires x == WithField(HeaderOf(h, 17, seg), 6, ck) + seg.payload
    ensures UdpBytes(h, 8 + |seg.payload|, x)
  {
    hide Be32, Spelled;
    Be32Spells(8 + |seg.payload|);
    assert x[4..6] == Be32(8 + |seg.payload|)[2..];
  }

  /** x carries the block from at on behind a header that names its place in the stream and keeps
      the flags that belong to it, and its checksum verifies. */
  ghost predicate OnTheWire(j: Job, h: seq<Byte>, addrs: seq<Byte>, proto: Byte, at: nat, last: bool, x: seq<Byte>)
    requires HeaderOk(h, proto) && at <= |j.payload|
  {
    var n := Min(|j.payload| - at, j.mss);
    && |x| == |h| + n && x[|h|..] == j.payload[at..at + n]
    && Verifies(addrs, |h| + n, proto, x)
    && (proto == 6 ==> TcpBytes(h, (j.sequence + at) % 0x1_0000_0000, at == 0, last, x))
    && (proto == 17 ==> UdpBytes(h, 8 + n, x))
    && (last <==> at + n == |j.payload|)
  }

  /** What the laws of the loop say of datagram i. */
  ghost predicate IsBlock(j: Job, at: nat, last: bool, seg: Seg)
    requires at <= |j.payload|
  {
    var n := Min(|j.payload| - at, j.mss);
    && seg.sequence == (j.sequence + at) % 0x1_0000_0000
    && seg.payload == j.payload[at..at + n]
    && seg.flags == SegmentFlags(j.flags, at == 0, last)
    && (last <==> at + n == |j.payload|)
  }

  lemma BlockOfLoop(j: Job, header: nat, firstId: nat, i: nat, at: nat)
    requires j.mss > 0 && i < |Software(j, header, 0, firstId)| && at == i * j.mss
    ensures at <= |j.payload|
    ensures IsBlock(j, at, i == |Software(j, header, 0, firstId)| - 1, Software(j, header, 0, firstId)[i])
  {
    hide Software, Df0Count;
    SegmentAt(j, header, 0, firstId, i);
    SoftwareIsWellFlagged(j, header, 0, firstId);
    BlockStep(i, j.mss);
    if i > 0 {
      ProductPositive(i, j.mss);
    }
  }

  lemma ProductPositive(i: nat, n: nat)
    requires i > 0 && n > 0
    ensures i * n > 0
  {
  }

  lemma BlockInBytes(j: Job, h: seq<Byte>, addrs: seq<Byte>, proto: Byte, at: nat, last: bool, seg: Seg, x: seq<Byte>)
    requires HeaderOk(h, proto) && at <= |j.payload| && IsBlock(j, at, last, seg)
    requires Emitted(h, addrs, proto, seg, x)
    requires 20 + |h| + Min(|j.payload|, j.mss) <= 65535
    requires proto == 6 ==> j.flags == FlagsOf(h[13])
    ensures OnTheWire(j, h, addrs, proto, at, last, x)
  {
    hide TcpBytes, UdpBytes, HeaderOf, WithField, Verifies, FlagsOf, FieldAt;
    var ck: U16 :| x == WithField(HeaderOf(h, proto, seg), FieldOf(proto), ck) + seg.payload && (proto == UDP ==> ck != 0);
    if proto == 6 {
      HeaderInBytes(h, seg, at == 0, last, x, ck);
    } else {
      UdpPlaces(h, seg, x, ck);
    }
  }

  /** Segment i as it leaves carries the i-th block of the payload. */
  lemma SegmentBytes(j: Job, h: seq<Byte>, addrs: seq<Byte>, proto: Byte, firstId: nat, wire: seq<seq<Byte>>, i: nat, at: nat)
    requires j.mss > 0 && HeaderOk(h, proto) && i < |wire| && at == i * j.mss
    requires AllEmitted(h, addrs, proto, Software(j, 20 + |h|, 0, firstId), wire)
    requires 20 + |h| + Min(|j.payload|, j.mss) <= 65535
    requires proto == 6 ==> j.flags == FlagsOf(h[13])
    ensures at <= |j.payload| && OnTheWire(j, h, addrs, proto, at, i == |wire| - 1, wire[i])
  {
    hide Software, Emitted, OnTheWire, IsBlock, FlagsOf;
    BlockOfLoop(j, 20 + |h|, firstId, i, at);
    BlockInBytes(j, h, addrs, proto, at, i == |wire| - 1, Software(j, 20 + |h|, 0, firstId)[i], wire[i]);
  }
}
