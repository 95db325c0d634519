/** What the classifier reads from a packet, byte by byte. */
module FlowBytes {
  import opened Wrappers
  import opened Checksum
  import opened Flow

  // ------------------------------------------------------------ IPv6 extension headers

  /** A header: where it starts, and its type. */
  type Stop = (nat, Byte)

  /** Hop-by-hop options, routing, fragment, authentication, destination options. */
  predicate IsExtension(kind: Byte) {
    kind == 0 || kind == 43 || kind == 44 || kind == 51 || kind == 60
  }

  /** How many bytes the extension header takes: a fixed eight, or by its length byte. */
  function Span(p: seq<Byte>, s: Stop): (len: nat)
    requires s.0 + 2 <= |p|
  {
    var units: int := p[s.0 + 1];
    if s.1 == 44 then 8 else if s.1 == 51 then 4 * units + 8 else 8 * units + 8
  }

  /** Bytes 2 and 3 of the fragment header at f: offset, two reserved bits, and the M flag. */
  function OffsetWord(p: seq<Byte>, f: nat): (w: nat)
    requires f + 4 <= |p|
  {
    var hi: int, lo: int := p[f + 2], p[f + 3];
    0x100 * hi + lo
  }

  /** The reserved parts are zero, and a piece that more follow is a multiple of eight bytes. */
  predicate SoundFragment(p: seq<Byte>, f: nat)
    requires f + 8 <= |p|
  {
    && p[f + 1] == 0 && OffsetWord(p, f) / 2 % 4 == 0
    && (OffsetWord(p, f) % 2 == 1 ==> (|p| - f) % 8 == 0)
  }

  /** Header t comes right after extension header s, within the packet and the first 296 bytes. */
  ghost predicate Hop(p: seq<Byte>, s: Stop, t: Stop) {
    && IsExtension(s.1) && s.0 + 2 <= |p| && s.0 <= 296
    && t.1 == p[s.0] && t.0 == s.0 + Span(p, s) && t.0 <= |p| && t.0 <= 296
    && (s.1 == 44 ==> s.0 + 8 <= |p| && SoundFragment(p, s.0))
  }

  /** The fragment header at f belongs to a piece behind the first. */
  predicate Behind(p: seq<Byte>, f: nat) {
    f + 4 <= |p| && OffsetWord(p, f) / 8 != 0
  }

  /** The stops of a walk: at most one fragment header, none before another stop but the last if it
      belongs to a later piece, and at the end what is no extension header or continues such a piece. */
  ghost predicate Path(p: seq<Byte>, hs: seq<Stop>) {
    && hs != []
    && (forall i :: 0 <= i < |hs| - 1 ==> Hop(p, hs[i], hs[i + 1]))
    && (forall i, j :: 0 <= i < j < |hs| - 1 ==> hs[i].1 != 44 || hs[j].1 != 44)
    && (forall i :: 0 <= i < |hs| - 2 ==> hs[i].1 != 44 || !Behind(p, hs[i].0))
    && (IsExtension(hs[|hs| - 1].1) ==> |hs| >= 2 && hs[|hs| - 2].1 == 44 && Behind(p, hs[|hs| - 2].0))
  }

  /** No fragment header is passed. */
  ghost predicate Unbroken(hs: seq<Stop>) {
    forall i :: 0 <= i < |hs| - 1 ==> hs[i].1 != 44
  }

  /** What the fragment header at f says: fragmented if the offset or the M flag is set, first
      if the offset is zero; the identification is in bytes 4 to 7. */
  function FieldAt(p: seq<Byte>, f: nat): (r: FragmentField)
    requires f + 8 <= |p|
  {
    if OffsetWord(p, f) / 8 != 0 || OffsetWord(p, f) % 2 == 1
    then FragmentField(true, OffsetWord(p, f) / 8 == 0, p[f + 4..f + 8], p[f])
    else FragmentField(false, true, [0, 0, 0, 0], 0)
  }

  /** What the path says of fragmentation. */
  ghost predicate Passed(p: seq<Byte>, hs: seq<Stop>, seen: Option<FragmentField>, r: FragmentField) {
    && (forall i :: 0 <= i < |hs| - 1 && hs[i].1 == 44 ==> hs[i].0 + 8 <= |p| && r == FieldAt(p, hs[i].0))
    && (Unbroken(hs) ==> r == seen.GetOr(WHOLE))
  }

  lemma HeaderField(p: seq<Byte>, f: nat)
    requires f + 8 <= |p|
    ensures FragmentHeader(p, |p|, f) == (if SoundFragment(p, f) then Some(FieldAt(p, f)) else None)
    ensures FieldAt(p, f).first <==> !Behind(p, f)
  {
    assert Be16(p, f + 2) == OffsetWord(p, f);
  }

  lemma PathTail(p: seq<Byte>, hs: seq<Stop>)
    requires |hs| >= 2
    ensures Path(p, hs) <==>
      && Hop(p, hs[0], hs[1])
      && (hs[0].1 == 44 ==> Unbroken(hs[1..]) && (|hs| > 2 ==> !Behind(p, hs[0].0)))
      && if |hs| == 2 then IsExtension(hs[1].1) ==> hs[0].1 == 44 && Behind(p, hs[0].0)
         else Path(p, hs[1..])
  {
    hide Hop;
    var t := hs[1..];
    assert forall i :: 1 <= i < |hs| ==> hs[i] == t[i - 1];
  }

  /** One step of the walk: it hops, and stops behind a later piece. */
  lemma WalkStep(p: seq<Byte>, s: Stop, count: nat, seen: Option<FragmentField>, t: Stop)
    requires s.0 <= |p| && count <= 8 && (seen.Some? ==> |seen.value.id| == 4 && seen.value.first)
    requires IsExtension(s.1)
    ensures Hop(p, s, t) && count < 8 && !(s.1 == 44 && seen.Some?) ==>
      var seen' := if s.1 == 44 then Some(FieldAt(p, s.0)) else seen;
      Walk(p, |p|, s.0, s.1, count, seen) ==
        if s.1 == 44 && Behind(p, s.0) then Some((t.0, t.1, FieldAt(p, s.0)))
        else Walk(p, |p|, t.0, t.1, count + 1, seen')
  {
    hide FieldAt, FragmentHeader, SoundFragment, Behind;
    if s.1 == 44 && s.0 + 8 <= |p| {
      HeaderField(p, s.0);
    }
  }

  lemma WalkHops(p: seq<Byte>, s: Stop, count: nat, seen: Option<FragmentField>) returns (t: Stop)
    requires s.0 <= |p| && count <= 8 && (seen.Some? ==> |seen.value.id| == 4 && seen.value.first)
    requires IsExtension(s.1) && Walk(p, |p|, s.0, s.1, count, seen).Some?
    ensures Hop(p, s, t) && count < 8 && !(s.1 == 44 && seen.Some?)
  {
    hide FieldAt, FragmentHeader, SoundFragment, Behind;
    if s.1 == 44 && s.0 + 8 <= |p| {
      HeaderField(p, s.0);
    }
    t := (s.0 + Span(p, s), p[s.0]);
  }

  /** Every walk follows a path. */
  lemma {:induction false} WalkIsPath(p: seq<Byte>, s: Stop, count: nat, seen: Option<FragmentField>) returns (hs: seq<Stop>)
    requires s.0 <= |p| && count <= 8 && (seen.Some? ==> |seen.value.id| == 4 && seen.value.first)
    requires Walk(p, |p|, s.0, s.1, count, seen).Some?
    ensures Path(p, hs) && hs[0] == s && |hs| + count <= 9 && (seen.Some? ==> Unbroken(hs))
    ensures var r := Walk(p, |p|, s.0, s.1, count, seen).value;
            (r.0, r.1) == hs[|hs| - 1] && Passed(p, hs, seen, r.2)
    decreases 8 - count
  {
    hide Walk, FieldAt, Hop, Behind, SoundFragment;
    if !IsExtension(s.1) {
      hs := [s];
      WalkEnds(p, s, count, seen);
    } else {
      var t := WalkHops(p, s, count, seen);
      WalkStep(p, s, count, seen, t);
      HopBounds(p, s, t);
      if s.1 == 44 && Behind(p, s.0) {
        hs := [s, t];
        PathTail(p, hs);
      } else {
        var seen' := if s.1 == 44 then Some(FieldAt(p, s.0)) else seen;
        var ts := WalkIsPath(p, t, count + 1, seen');
        hs := [s] + ts;
        assert hs[1..] == ts;
        if |hs| == 2 { assert ts == [t]; }
        PathTail(p, hs);
      }
    }
  }

  lemma WalkEnds(p: seq<Byte>, s: Stop, count: nat, seen: Option<FragmentField>)
    requires s.0 <= |p| && count <= 8 && (seen.Some? ==> |seen.value.id| == 4)
    requires !IsExtension(s.1)
    ensures Walk(p, |p|, s.0, s.1, count, seen) == Some((s.0, s.1, seen.GetOr(WHOLE)))
  {
  }

  lemma HopBounds(p: seq<Byte>, s: Stop, t: Stop)
    requires Hop(p, s, t)
    ensures t.0 <= |p| && (s.1 == 44 ==> s.0 + 8 <= |p| && |FieldAt(p, s.0).id| == 4 && (FieldAt(p, s.0).first <==> !Behind(p, s.0)))
  {
    if s.1 == 44 {
      HeaderField(p, s.0);
    }
  }

  /** Every path of no more than nine stops is walked. */
  lemma {:induction false} PathIsWalked(p: seq<Byte>, hs: seq<Stop>, count: nat, seen: Option<FragmentField>)
    requires Path(p, hs) && hs[0].0 <= |p| && |hs| + count <= 9 && (seen.Some? ==> Unbroken(hs))
    requires seen.Some? ==> |seen.value.id| == 4 && seen.value.first
    ensures var w := Walk(p, |p|, hs[0].0, hs[0].1, count, seen);
            && w.Some? && (w.value.0, w.value.1) == hs[|hs| - 1] && Passed(p, hs, seen, w.value.2)
    decreases |hs|
  {
    hide Walk, FieldAt, Hop, Behind, SoundFragment;
    if |hs| == 1 {
      WalkEnds(p, hs[0], count, seen);
    } else {
      var s, t := hs[0], hs[1];
      PathTail(p, hs);
      HopBounds(p, s, t);
      assert IsExtension(s.1) by { HopFrom(p, s, t); }
      WalkStep(p, s, count, seen, t);
      if !(s.1 == 44 && Behind(p, s.0)) {
        var seen' := if s.1 == 44 then Some(FieldAt(p, s.0)) else seen;
        var ts := hs[1..];
        assert forall i :: 1 <= i < |hs| ==> hs[i] == ts[i - 1];
        if |hs| == 2 { LastIsStop(p, hs); }
        PathIsWalked(p, ts, count + 1, seen');
      }
    }
  }

  lemma HopFrom(p: seq<Byte>, s: Stop, t: Stop)
    requires Hop(p, s, t)
    ensures IsExtension(s.1)
  {
  }

  lemma LastIsStop(p: seq<Byte>, hs: seq<Stop>)
    requires |hs| == 2 && Path(p, hs) && !(hs[0].1 == 44 && Behind(p, hs[0].0))
    ensures Path(p, hs[1..])
  {
  }

  // ------------------------------------------------------------ the outermost header

  /** A path through the whole packet: from the next header field on. */
  ghost predicate Route(p: seq<Byte>, hs: seq<Stop>) {
    |p| >= 40 && Path(p, hs) && |hs| <= 9 && hs[0] == (40, p[6])
  }

  function Length16(p: seq<Byte>, i: nat): (n: nat)
    requires i + 2 <= |p|
  {
    var hi: int, lo: int := p[i], p[i + 1];
    0x100 * hi + lo
  }

  /** An IPv6 packet is accepted exactly if its length is right and there is a route through it;
      the transport header is at the end of the route. */
  lemma Ip6Accepted(p: seq<Byte>)
    requires p != [] && p[0] / 16 == 6
    ensures HeadOf(p, false).Some? <==>
      |p| >= 40 && Length16(p, 4) != 0 && 40 + Length16(p, 4) == |p| && exists hs :: Route(p, hs)
  {
    hide Walk, Path;
    if |p| >= 40 && Length16(p, 4) != 0 && 40 + Length16(p, 4) == |p| {
      if Walk(p, |p|, 40, p[6], 0, None).Some? {
        var hs := WalkIsPath(p, (40, p[6]), 0, None);
        assert Route(p, hs);
      }
      if hs :| Route(p, hs) {
        PathStarts(p, hs);
        PathIsWalked(p, hs, 0, None);
      }
    }
  }

  lemma PathStarts(p: seq<Byte>, hs: seq<Stop>)
    requires Path(p, hs)
    ensures hs != []
  {
  }

  lemma Ip6Read(p: seq<Byte>, hs: seq<Stop>)
    requires p != [] && p[0] / 16 == 6 && HeadOf(p, false).Some? && Route(p, hs)
    ensures var h := HeadOf(p, false).value;
            && h.family == 6 && h.n == |p| && h.src == p[8..24] && h.dst == p[24..40]
            && (h.off, h.proto) == hs[|hs| - 1] && Passed(p, hs, None, h.fragment)
  {
    hide Walk, Path, Passed;
    PathStarts(p, hs);
    PathIsWalked(p, hs, 0, None);
  }

  /** An IPv4 packet is accepted exactly if its lengths fit, the reserved bit is clear, and it is
      no fragment, or one without DF whose length is a multiple of eight if more follow. */
  lemma Ip4Accepted(p: seq<Byte>)
    requires p != [] && p[0] / 16 == 4
    ensures HeadOf(p, false).Some? <==>
      var header: nat := p[0] % 16 * 4;
      && 20 <= header <= |p| && |p| >= 20 && Length16(p, 2) == |p| && p[6] / 128 == 0
      && (p[6] % 64 != 0 || p[7] != 0 ==>
            p[6] / 64 % 2 == 0 && (p[6] / 32 % 2 == 1 ==> (|p| - header) % 8 == 0))
  {
  }

  /** Fragmented if the offset or MF is set, first if the offset is zero. */
  lemma Ip4Read(p: seq<Byte>)
    requires p != [] && p[0] / 16 == 4 && HeadOf(p, false).Some?
    ensures var h := HeadOf(p, false).value;
            && |p| >= 20 && h.family == 4 && h.n == |p| && h.off == p[0] % 16 * 4 && h.proto == p[9]
            && h.src == p[12..16] + Zeros(12) && h.dst == p[16..20] + Zeros(12)
            && (h.fragment.fragmented <==> p[6] % 64 != 0 || p[7] != 0)
            && (h.fragment.first <==> p[6] % 32 == 0 && p[7] == 0)
            && (h.fragment.fragmented ==> h.fragment.id == p[4..6] + [0, 0] && h.fragment.proto == p[9])
  {
  }

  // ------------------------------------------------------------ the classification

  /** Byte strings of one length in the order of their first difference. */
  ghost predicate Precedes(a: seq<Byte>, b: seq<Byte>)
    requires |a| == |b|
  {
    a == b || exists k :: 0 <= k < |a| && a[..k] == b[..k] && a[k] < b[k]
  }

  lemma {:induction false} OrderOfBytes(a: seq<Byte>, b: seq<Byte>)
    requires |a| == |b|
    ensures NotAfter(a, b) <==> Precedes(a, b)
  {
    if a != [] {
      hide Precedes;
      OrderOfBytes(a[1..], b[1..]);
      PrecedesTail(a, b);
    } else {
      assert a == b;
    }
  }

  lemma PrecedesTail(a: seq<Byte>, b: seq<Byte>)
    requires |a| == |b| > 0
    ensures Precedes(a, b) <==> a[0] < b[0] || (a[0] == b[0] && Precedes(a[1..], b[1..]))
  {
    assert a == [a[0]] + a[1..] && b == [b[0]] + b[1..];
    if a[0] < b[0] {
      assert a[..0] == b[..0];
    } else if a[0] == b[0] && Precedes(a[1..], b[1..]) && a != b {
      var k :| 0 <= k < |a| - 1 && a[1..][..k] == b[1..][..k] && a[1..][k] < b[1..][k];
      assert a[..k + 1] == [a[0]] + a[1..][..k] && b[..k + 1] == [b[0]] + b[1..][..k];
    }
    if Precedes(a, b) && a != b {
      var k :| 0 <= k < |a| && a[..k] == b[..k] && a[k] < b[k];
      if k > 0 {
        assert a[0] == a[..k][0] == b[..k][0] == b[0];
        assert a[1..][..k - 1] == a[..k][1..] == b[..k][1..] == b[1..][..k - 1];
      }
    }
  }

  /** The hash of family, protocol and the two ends, the lesser end first. */
  ghost predicate HashOfEnds(family: Byte, proto: Byte, a: seq<Byte>, b: seq<Byte>, hash: nat)
    requires |a| == |b|
  {
    && (Precedes(a, b) ==> hash == Hash([family, proto] + a + b))
    && (Precedes(b, a) ==> hash == Hash([family, proto] + b + a))
  }

  lemma KeyIsHashed(family: Byte, proto: Byte, a: seq<Byte>, b: seq<Byte>)
    requires |a| == |b|
    ensures HashOfEnds(family, proto, a, b, Hash(FlowKey(family, proto, a, b)))
  {
    hide Hash, NotAfter;
    OrderOfBytes(a, b);
    OrderOfBytes(b, a);
    OrderIsTotal(a, b);
    assert [family, proto] + (a + b) == [family, proto] + a + b;
    assert [family, proto] + (b + a) == [family, proto] + b + a;
  }

  /** TCP, UDP, DCCP, SCTP and UDP-Lite. */
  predicate Ported(proto: Byte) {
    proto == 6 || proto == 17 || proto == 33 || proto == 132 || proto == 136
  }

  /** Echo request and reply, of ICMP (types 8 and 0) or of ICMPv6 (types 128 and 129). */
  predicate Echo(proto: Byte, kind: Byte) {
    (proto == 1 && (kind == 8 || kind == 0)) || (proto == 58 && (kind == 128 || kind == 129))
  }

  /** ICMP errors (types 3, 11 and 12), and ICMPv6 errors (types below 128). */
  predicate Error(proto: Byte, kind: Byte) {
    (proto == 1 && (kind == 3 || kind == 11 || kind == 12)) || (proto == 58 && kind <= 127)
  }

  predicate Icmp(p: seq<Byte>, h: Head) {
    (h.proto == 1 || h.proto == 58) && h.off + 8 <= |p|
  }

  /** The packet that an ICMP error quotes, if its flow is known: it has ports or an echo
      identifier, and is whole or a first fragment. */
  predicate KnownQuote(p: seq<Byte>, h: Head)
    requires h.off + 8 <= |p|
  {
    var q := Parse(p[h.off + 8..], true);
    q.Some? && q.value.transport && (q.value.fragmented ==> q.value.first)
  }

  /** How the packet is classified, given its outermost header. */
  ghost predicate Classified(p: seq<Byte>, h: Head, r: FlowPacket)
    requires h.off <= |p| && |h.src| == |h.dst|
  {
    && r.fragmented == h.fragment.fragmented && r.first == h.fragment.first
    && (r.fragmented ==>
          r.fragmentKey == [h.family, h.fragment.proto] + h.src + h.dst + h.fragment.id + [0, 0]
          && r.fragmentHash == Hash(r.fragmentKey))
    && (!r.fragmented ==> r.fragmentHash == 0)
    && if r.fragmented && !r.first then !r.transport && r.flowHash == 0
       else if Ported(h.proto) then
         && r.transport && h.off + 4 <= |p|
         && HashOfEnds(h.family, h.proto, h.src + p[h.off..h.off + 2], h.dst + p[h.off + 2..h.off + 4], r.flowHash)
       else if Icmp(p, h) && Echo(h.proto, p[h.off]) then
         && r.transport
         && HashOfEnds(h.family, h.proto, h.src + p[h.off + 4..h.off + 6], h.dst + p[h.off + 4..h.off + 6], r.flowHash)
       else if Icmp(p, h) && Error(h.proto, p[h.off]) && KnownQuote(p, h) then
         r.transport && r.flowHash == Parse(p[h.off + 8..], true).value.flowHash
       else
         !r.transport && HashOfEnds(h.family, h.proto, h.src + [0, 0], h.dst + [0, 0], r.flowHash)
  }

  /** Its ports are missing although it is not a later fragment. */
  predicate Cut(p: seq<Byte>, h: Head) {
    !(h.fragment.fragmented && !h.fragment.first) && Ported(h.proto) && h.off + 4 > |p|
  }

  /** A packet is refused exactly if its headers are or its ports are missing. */
  lemma ParseAccepts(p: seq<Byte>)
    ensures Parse(p, false).Some? <==> HeadOf(p, false).Some? && !Cut(p, HeadOf(p, false).value)
  {
    hide HeadOf, Hash, FlowKey, FragmentKey;
    if HeadOf(p, false).Some? {
      WholePacket(p, HeadOf(p, false).value);
    }
  }

  lemma KeyIsSpelled(p: seq<Byte>, h: Head, r: FlowPacket)
    requires HeadOf(p, false) == Some(h) && Parse(p, false) == Some(r)
    ensures r.fragmented == h.fragment.fragmented && r.first == h.fragment.first
    ensures r.fragmented ==>
      r.fragmentKey == [h.family, h.fragment.proto] + h.src + h.dst + h.fragment.id + [0, 0]
      && r.fragmentHash == Hash(r.fragmentKey)
    ensures !r.fragmented ==> r.fragmentHash == 0
  {
    hide HeadOf, Hash, FlowKey, Ends, Quoted;
  }

  lemma EndsAreHashed(p: seq<Byte>, h: Head, r: FlowPacket)
    requires HeadOf(p, false) == Some(h) && Parse(p, false) == Some(r) && h.n == |p|
    requires !(h.fragment.fragmented && !h.fragment.first) && Quoted(p, h, false) == None
    ensures Ends(p, h).Some?
    ensures var (s, d, transport) := Ends(p, h).value;
            r.transport == transport && HashOfEnds(h.family, h.proto, h.src + s, h.dst + d, r.flowHash)
  {
    hide HeadOf, Hash, FlowKey, Ends, Quoted, FragmentKey, HashOfEnds;
    var (s, d, _) := Ends(p, h).value;
    KeyIsHashed(h.family, h.proto, h.src + s, h.dst + d);
  }

  lemma QuoteIsTaken(p: seq<Byte>, h: Head, r: FlowPacket)
    requires HeadOf(p, false) == Some(h) && Parse(p, false) == Some(r) && h.n == |p|
    requires !(h.fragment.fragmented && !h.fragment.first)
    ensures Quoted(p, h, false).Some? <==> Icmp(p, h) && Error(h.proto, p[h.off]) && KnownQuote(p, h)
    ensures Quoted(p, h, false).Some? ==> r.transport && r.flowHash == Parse(p[h.off + 8..], true).value.flowHash
  {
    hide HeadOf, Hash, FlowKey, Ends, FragmentKey;
    if h.off + 8 <= |p| {
      assert p[h.off + 8..h.n] == p[h.off + 8..];
    }
  }

  /** What an accepted packet is classified as. */
  lemma ParseInBytes(p: seq<Byte>, h: Head, r: FlowPacket)
    requires HeadOf(p, false) == Some(h) && Parse(p, false) == Some(r)
    ensures Classified(p, h, r)
  {
    hide HeadOf, Hash, FlowKey, NotAfter, HashOfEnds, KnownQuote, Quoted, FragmentKey;
    WholePacket(p, h);
    KeyIsSpelled(p, h, r);
    if h.fragment.fragmented && !h.fragment.first {
    } else {
      hide Parse;
      QuoteIsTaken(p, h, r);
      if Quoted(p, h, false) == None {
        EndsAreHashed(p, h, r);
      }
    }
  }

  // ------------------------------------------------------------ which fragments belong together

  /** The fragment header that the route through an IPv6 packet passes. */
  ghost predicate FragmentAt(p: seq<Byte>, f: nat) {
    exists hs :: Route(p, hs) && Passes(p, hs, f)
  }

  ghost predicate Passes(p: seq<Byte>, hs: seq<Stop>, f: nat) {
    f + 8 <= |p| && exists i :: 0 <= i < |hs| - 1 && hs[i] == (f, 44)
  }

  lemma RouteToFragment(p: seq<Byte>, hs: seq<Stop>, i: nat)
    requires Route(p, hs) && i < |hs| - 1 && hs[i].1 == 44
    ensures FragmentAt(p, hs[i].0)
  {
    assert Hop(p, hs[i], hs[i + 1]);
  }

  /** The fields of an IPv6 packet's fragmentation are those of its fragment header, if it has one. */
  lemma FragmentRead(p: seq<Byte>, h: Head)
    requires p != [] && p[0] / 16 == 6 && HeadOf(p, false) == Some(h)
    ensures |p| >= 40 && h.family == 6 && h.src == p[8..24] && h.dst == p[24..40]
    ensures forall f: nat :: FragmentAt(p, f) ==> f + 8 <= |p| && h.fragment == FieldAt(p, f)
    ensures (forall f: nat :: !FragmentAt(p, f)) ==> h.fragment == WHOLE
  {
    hide HeadOf, Path, Walk, FieldAt;
    Ip6Accepted(p);
    var hs: seq<Stop> :| Route(p, hs);
    Ip6Read(p, hs);
    forall f: nat | FragmentAt(p, f) ensures f + 8 <= |p| && h.fragment == FieldAt(p, f) {
      var gs :| Route(p, gs) && Passes(p, gs, f);
      Ip6Read(p, gs);
      PathStarts(p, gs);
    }
    if forall f: nat :: !FragmentAt(p, f) {
      forall i | 0 <= i < |hs| - 1 ensures hs[i].1 != 44 {
        if hs[i].1 == 44 {
          RouteToFragment(p, hs, i);
        }
      }
    }
  }

  /** The fragment header at f has an offset or the M flag. */
  predicate Marked(p: seq<Byte>, f: nat) {
    f + 4 <= |p| && (OffsetWord(p, f) / 8 != 0 || OffsetWord(p, f) % 2 == 1)
  }

  /** An IPv6 packet is a fragment exactly if it has a fragment header with an offset or the M
      flag, and behind the first exactly if it has one with an offset. */
  lemma Fragmented6(p: seq<Byte>, r: FlowPacket)
    requires p != [] && p[0] / 16 == 6 && Parse(p, false) == Some(r)
    ensures r.fragmented <==> exists f: nat :: FragmentAt(p, f) && Marked(p, f)
    ensures !r.first <==> exists f: nat :: FragmentAt(p, f) && Behind(p, f)
  {
    hide HeadOf, FragmentAt, Hash, HashOfEnds, Parse, OffsetWord;
    HeadOfParsed(p);
    var h := HeadOf(p, false).value;
    KeyIsSpelled(p, h, r);
    FragmentRead(p, h);
  }

  lemma HeadOfParsed(p: seq<Byte>)
    requires Parse(p, false).Some?
    ensures HeadOf(p, false).Some?
  {
  }

  /** The key of an IPv4 fragment. */
  lemma KeyInBytes4(p: seq<Byte>, r: FlowPacket)
    requires p != [] && p[0] / 16 == 4 && Parse(p, false) == Some(r) && r.fragmented
    ensures |p| >= 20
    ensures r.fragmentKey == [4, p[9]] + (p[12..16] + Zeros(12)) + (p[16..20] + Zeros(12)) + (p[4..6] + [0, 0]) + [0, 0]
  {
    hide HeadOf, Parse;
    HeadOfParsed(p);
    KeyIsSpelled(p, HeadOf(p, false).value, r);
    Ip4Read(p);
  }

  /** The key of an IPv6 fragment whose fragment header is at f. */
  lemma KeyInBytes6(p: seq<Byte>, r: FlowPacket, f: nat)
    requires p != [] && p[0] / 16 == 6 && Parse(p, false) == Some(r) && r.fragmented && FragmentAt(p, f)
    ensures |p| >= 40 && f + 8 <= |p|
    ensures r.fragmentKey == [6, p[f]] + p[8..24] + p[24..40] + p[f + 4..f + 8] + [0, 0]
  {
    hide HeadOf, Parse, FragmentAt;
    HeadOfParsed(p);
    KeyIsSpelled(p, HeadOf(p, false).value, r);
    FragmentRead(p, HeadOf(p, false).value);
  }

  lemma PartsOfKey(x: seq<Byte>, s: seq<Byte>, t: seq<Byte>, id: seq<Byte>, x': seq<Byte>, s': seq<Byte>, t': seq<Byte>,
                   id': seq<Byte>, z: seq<Byte>)
    requires |x| == |x'| && |s| == |s'| && |t| == |t'| && |id| == |id'|
    ensures x + s + t + id + z == x' + s' + t' + id' + z <==> x == x' && s == s' && t == t' && id == id'
  {
    var k, k' := x + s + t + id + z, x' + s' + t' + id' + z;
    if k == k' {
      var i, j, l := |x|, |x| + |s|, |x| + |s| + |t|;
      assert x == k[..i] && s == k[i..j] && t == k[j..l] && id == k[l..l + |id|];
      assert x' == k'[..i] && s' == k'[i..j] && t' == k'[j..l] && id' == k'[l..l + |id|];
    }
  }

  lemma PaddedAlike(s: seq<Byte>, t: seq<Byte>, z: seq<Byte>)
    requires |s| == |t|
    ensures s + z == t + z <==> s == t
  {
    assert (s + z)[..|s|] == s && (t + z)[..|t|] == t;
  }

  lemma TwoHalves(p: seq<Byte>, q: seq<Byte>, i: nat, j: nat, k: nat)
    requires i <= j <= k <= |p| && k <= |q|
    ensures p[i..k] == q[i..k] <==> p[i..j] == q[i..j] && p[j..k] == q[j..k]
  {
    assert p[i..k] == p[i..j] + p[j..k] && q[i..k] == q[i..j] + q[j..k];
    assert p[i..j] == p[i..k][..j - i] && q[i..j] == q[i..k][..j - i];
    assert p[j..k] == p[i..k][j - i..] && q[j..k] == q[i..k][j - i..];
  }

  /** Two IPv4 fragments are taken for pieces of one datagram exactly if they agree on addresses,
      protocol and identification. */
  lemma OneDatagram4(p: seq<Byte>, q: seq<Byte>, r: FlowPacket, t: FlowPacket)
    requires p != [] && p[0] / 16 == 4 && Parse(p, false) == Some(r) && r.fragmented
    requires q != [] && q[0] / 16 == 4 && Parse(q, false) == Some(t) && t.fragmented
    ensures |p| >= 20 && |q| >= 20
    ensures r.fragmentKey == t.fragmentKey <==> p[12..20] == q[12..20] && p[9] == q[9] && p[4..6] == q[4..6]
  {
    hide Parse;
    KeyInBytes4(p, r);
    KeyInBytes4(q, t);
    TwoHalves(p, q, 12, 16, 20);
    PaddedAlike(p[12..16], q[12..16], Zeros(12));
    PaddedAlike(p[16..20], q[16..20], Zeros(12));
    PaddedAlike(p[4..6], q[4..6], [0, 0]);
    PartsOfKey([4, p[9]], p[12..16] + Zeros(12), p[16..20] + Zeros(12), p[4..6] + [0, 0],
               [4, q[9]], q[12..16] + Zeros(12), q[16..20] + Zeros(12), q[4..6] + [0, 0], [0, 0]);
  }

  /** So are two IPv6 fragments, whose fragment headers are at f and g. */
  lemma OneDatagram6(p: seq<Byte>, q: seq<Byte>, r: FlowPacket, t: FlowPacket, f: nat, g: nat)
    requires p != [] && p[0] / 16 == 6 && Parse(p, false) == Some(r) && r.fragmented && FragmentAt(p, f)
    requires q != [] && q[0] / 16 == 6 && Parse(q, false) == Some(t) && t.fragmented && FragmentAt(q, g)
    ensures |p| >= 40 && |q| >= 40 && f + 8 <= |p| && g + 8 <= |q|
    ensures r.fragmentKey == t.fragmentKey <==>
      p[8..40] == q[8..40] && p[f] == q[g] && p[f + 4..f + 8] == q[g + 4..g + 8]
  {
    hide Parse, FragmentAt;
    KeyInBytes6(p, r, f);
    KeyInBytes6(q, t, g);
    TwoHalves(p, q, 8, 24, 40);
    PartsOfKey([6, p[f]], p[8..24], p[24..40], p[f + 4..f + 8], [6, q[g]], q[8..24], q[24..40], q[g + 4..g + 8], [0, 0]);
  }

  /** Fragments of different families never are. */
  lemma OneDatagramMixed(p: seq<Byte>, q: seq<Byte>, r: FlowPacket, t: FlowPacket)
    requires p != [] && p[0] / 16 == 6 && Parse(p, false) == Some(r) && r.fragmented
    requires q != [] && q[0] / 16 == 4 && Parse(q, false) == Some(t) && t.fragmented
    ensures r.fragmentKey != t.fragmentKey
  {
    hide Parse, FragmentAt, Marked;
    Fragmented6(p, r);
    var f: nat :| FragmentAt(p, f);
    KeyInBytes6(p, r, f);
    KeyInBytes4(q, t);
    assert r.fragmentKey[0] == 6 && t.fragmentKey[0] == 4;
  }
}
