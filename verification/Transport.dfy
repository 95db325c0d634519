/** Transport headers when the network header changes family: `xlate_payload_4to6`
    and `xlate_payload_6to4` without checksum offload (section 4.5 and 5.5 of RFC 7915,
    section 3 of RFC 1624). */
module Transport {
  import opened Checksum

  const ICMP: Byte := 1
  const TCP: Byte := 6
  const UDP: Byte := 17
  const DCCP: Byte := 33
  const ICMPV6: Byte := 58
  const UDPLITE: Byte := 136

  datatype UdpMode = DropZero | Calculate | Forward

  // ------------------------------------------------------------ pseudo-headers

  /** A 32-bit number in network order. */
  function Be32(n: nat): (b: seq<Byte>)
    ensures |b| == 4
  {
    [n / 0x100_0000 % 0x100, n / 0x1_0000 % 0x100, n / 0x100 % 0x100, n % 0x100]
  }

  /** Source and destination address, upper-layer length, zeros and protocol. */
  function Pseudo(addrs: seq<Byte>, len: nat, proto: Byte): (b: seq<Byte>)
    ensures |b| == |addrs| + 6
  {
    addrs + (Be32(len) + [0, proto])
  }

  /** The receiver's test: the sum over pseudo-header and segment is negative zero. */
  predicate Verifies(addrs: seq<Byte>, len: nat, proto: Byte, seg: seq<Byte>) {
    OnesSum(Pseudo(addrs, len, proto) + seg) == 0xffff
  }

  /** ICMPv4 has no pseudo-header. */
  predicate VerifiesIcmp4(seg: seq<Byte>) {
    OnesSum(seg) == 0xffff
  }

  /** The part of the pseudo-header that both families share. */
  function Tail(len: nat, proto: Byte): (n: nat) {
    Sum16(Be32(len) + [0, proto])
  }

  lemma VerifiesIff(addrs: seq<Byte>, len: nat, proto: Byte, seg: seq<Byte>)
    requires |addrs| % 2 == 0 && proto > 0
    ensures Verifies(addrs, len, proto, seg) <==> Congruent(Sum16(addrs) + Tail(len, proto) + Sum16(seg), 0)
  {
    hide Sum16, OnesSum, Be32;
    var t := Be32(len) + [0, proto];
    SumSplit(addrs, t);
    SumSplit(addrs + t, seg);
    OnesSumIsNorm(addrs + t + seg);
    TailPositive(len, proto);
  }

  lemma Sum8(b: seq<Byte>)
    requires |b| == 8
    ensures Sum16(b) == Word(b[0], b[1]) + Word(b[2], b[3]) + Word(b[4], b[5]) + Word(b[6], b[7])
  {
    hide Word;
    assert b[2..][2..] == b[4..] && b[4..][2..] == b[6..] && b[6..][2..] == b[8..];
    assert Sum16(b[6..]) == Word(b[6], b[7]);
    assert Sum16(b[4..]) == Word(b[4], b[5]) + Sum16(b[6..]);
    assert Sum16(b[2..]) == Word(b[2], b[3]) + Sum16(b[4..]);
  }

  /** An empty UDP datagram from 192.0.2.1, port 4097, to 198.51.100.1, port 53. */
  lemma ChecksumExample()
    ensures Verifies([192, 0, 2, 1, 198, 51, 100, 1], 8, 17, [16, 1, 0, 53, 0, 8, 3, 114])
  {
    hide Sum16, OnesSum, Verifies, Congruent, Word, Be32, Tail;
    var addrs: seq<Byte>, seg: seq<Byte> := [192, 0, 2, 1, 198, 51, 100, 1], [16, 1, 0, 53, 0, 8, 3, 114];
    VerifiesIff(addrs, 8, 17, seg);
    Sum8(addrs);
    Sum8(seg);
    ExampleWords();
    ExampleSum();
  }

  lemma ExampleWords()
    ensures Word(192, 0) + Word(2, 1) + Word(198, 51) + Word(100, 1) == 14060
    ensures Word(16, 1) + Word(0, 53) + Word(0, 8) + Word(3, 114) == 45075
    ensures Tail(8, 17) == 6400
  {
    hide Sum16;
    TailWords(8, 17);
    assert Be32(8) == [0, 0, 0, 8];
  }

  lemma ExampleSum()
    ensures Congruent(14060 + 6400 + 45075, 0)
  {
  }

  lemma TailPositive(len: nat, proto: Byte)
    requires proto > 0
    ensures Tail(len, proto) > 0
  {
    hide Sum16;
    var t := Be32(len) + [0, proto];
    ZeroSum(t);
    assert t[5] == proto;
  }

  lemma Icmp4Iff(seg: seq<Byte>)
    ensures VerifiesIcmp4(seg) <==> Congruent(Sum16(seg), 0) && !AllZero(seg)
  {
    hide Sum16, OnesSum;
    OnesSumIsNorm(seg);
    ZeroSum(seg);
  }

  /** `ip4_checksum` and `ip6_checksum`: the pseudo-header summed word by word. */
  method PseudoChecksum(addrs: seq<Byte>, len: nat, proto: Byte) returns (r: U16)
    requires |addrs| == 8 || |addrs| == 32
    ensures r == Complement(OnesSum(Pseudo(addrs, len, proto)))
    ensures Congruent(r, 0 - (Sum16(addrs) + Tail(len, proto)))
  {
    hide Sum16, OnesSum, Congruent, Norm, Be32;
    var sum := 0;
    var i := 0;
    assert addrs[..0] == [];
    EmptySum();
    while i < |addrs|
      invariant 0 <= i <= |addrs| && i % 2 == 0 && sum == Sum16(addrs[..i])
    {
      NextWord(addrs, i);
      sum := sum + Word(addrs[i], addrs[i + 1]);
      i := i + 2;
    }
    assert addrs[..i] == addrs;
    var l := Be32(len);
    sum := sum + Word(l[0], l[1]) + Word(l[2], l[3]) + Word(0, proto);
    TailWords(len, proto);
    SumSplit(addrs, l + [0, proto]);
    var f := FoldDown(sum);
    OnesSumIsNorm(Pseudo(addrs, len, proto));
    if f > 0 {
      NormUnique(sum, f);
    }
    r := Complement(f);
    NegatedNorm(sum, f);
  }

  lemma EmptySum()
    ensures Sum16([]) == 0
  {
  }

  lemma NextWord(b: seq<Byte>, i: nat)
    requires i + 2 <= |b| && i % 2 == 0
    ensures Sum16(b[..i + 2]) == Sum16(b[..i]) + Word(b[i], b[i + 1])
  {
    var w := [b[i], b[i + 1]];
    assert b[..i + 2] == b[..i] + w;
    SumSplit(b[..i], w);
    assert w[2..] == [];
  }

  lemma TailWords(len: nat, proto: Byte)
    ensures var l := Be32(len); Tail(len, proto) == Word(l[0], l[1]) + Word(l[2], l[3]) + Word(0, proto)
  {
    hide Be32, Word;
    var l := Be32(len);
    var t := l + [0, proto];
    NextWord(t, 0);
    NextWord(t, 2);
    NextWord(t, 4);
    assert t[..0] == [] && t[..6] == t;
    EmptySum();
  }

  /** `convert_cksum`: the sum of the new addresses less that of the old ones, with
      three fixed folds. */
  method ConvertCksum(v6: seq<Byte>, v4: seq<Byte>) returns (r: U16)
    requires |v6| == 32 && |v4| == 8
    ensures Congruent(r, Sum16(v6) - Sum16(v4))
  {
    hide Sum16, Congruent, Load32, Fold16, Fold32;
    var sum := 0xffff_ffff - Load32(v4[0..4]) + (0xffff_ffff - Load32(v4[4..8]));
    InvertedWords(v4);
    var i := 0;
    assert v6[..0] == [];
    EmptySum();
    while i < 32
      invariant 0 <= i <= 32 && i % 4 == 0 && 0 <= sum <= (2 + i / 4) * 0xffff_ffff
      invariant Congruent(sum, Sum16(v6[..i]) - Sum16(v4))
    {
      AddWord(v6, i, sum, Sum16(v4));
      sum := sum + Load32(v6[i..i + 4]);
      i := i + 4;
    }
    assert v6[..i] == v6;
    // The three folds are conditional in the program; below the bound they change nothing.
    var f := if sum > 0xffff_ffff then Fold32(sum) else sum;
    f := if f > 0xffff then Fold16(f) else f;
    f := if f > 0xffff then Fold16(f) else f;
    ConditionalFolds(sum);
    CongruentTrans(f, sum, Sum16(v6) - Sum16(v4));
    r := f;
  }

  lemma ConditionalFolds(sum: nat)
    requires sum <= 10 * 0xffff_ffff
    ensures var a := if sum > 0xffff_ffff then Fold32(sum) else sum;
            var b := if a > 0xffff then Fold16(a) else a;
            var c := if b > 0xffff then Fold16(b) else b;
            c <= 0xffff && Congruent(c, sum)
  {
    hide Congruent, Fold16, Fold32;
    var a := if sum > 0xffff_ffff then Fold32(sum) else sum;
    Fold32Keeps(sum);
    CongruentSelf(sum);
    CongruentVia(sum, sum, a);
    FoldedBound(sum);
    TwoFolds(a);
    var b := if a > 0xffff then Fold16(a) else a;
    CongruentTrans(if b > 0xffff then Fold16(b) else b, a, sum);
  }

  lemma FoldedBound(sum: nat)
    requires sum <= 10 * 0xffff_ffff
    ensures (if sum > 0xffff_ffff then Fold32(sum) else sum) <= 0xffff_ffff + 9
  {
  }

  lemma TwoFolds(a: nat)
    requires a <= 0xffff_ffff + 9
    ensures var b := if a > 0xffff then Fold16(a) else a;
            var c := if b > 0xffff then Fold16(b) else b;
            c <= 0xffff && Congruent(c, a)
  {
    var b := if a > 0xffff then Fold16(a) else a;
    Fold16Keeps(a);
    Fold16Keeps(b);
  }

  lemma InvertedWords(v4: seq<Byte>)
    requires |v4| == 8
    ensures Congruent(0xffff_ffff - Load32(v4[0..4]) + (0xffff_ffff - Load32(v4[4..8])), Sum16([]) - Sum16(v4))
  {
    hide Sum16, Load32, Congruent, Word;
    EmptySum();
    Load32Sum(v4[0..4]);
    Load32Sum(v4[4..8]);
    Multiple(Load32(v4[0..4]), Sum16(v4[0..4]), Word(v4[2], v4[3]));
    Multiple(Load32(v4[4..8]), Sum16(v4[4..8]), Word(v4[6], v4[7]));
    assert v4 == v4[0..4] + v4[4..8];
    SumSplit(v4[0..4], v4[4..8]);
    Negated(Load32(v4[0..4]), Load32(v4[4..8]), Sum16(v4[0..4]), Sum16(v4[4..8]));
  }

  lemma Negated(x: nat, y: nat, sx: nat, sy: nat)
    requires Congruent(x, sx) && Congruent(y, sy)
    ensures Congruent(0xffff_ffff - x + (0xffff_ffff - y), 0 - (sx + sy))
  {
    assert 2 * 0xffff_ffff == 0xffff * 0x2_0002;
  }

  lemma AddWord(v6: seq<Byte>, i: nat, sum: nat, base: nat)
    requires i + 4 <= |v6| && i % 4 == 0 && Congruent(sum, Sum16(v6[..i]) - base)
    ensures Congruent(sum + Load32(v6[i..i + 4]), Sum16(v6[..i + 4]) - base)
  {
    hide Sum16, Congruent, Load32, Word;
    var w := v6[i..i + 4];
    Load32Sum(w);
    Multiple(Load32(w), Sum16(w), Word(w[2], w[3]));
    assert v6[..i + 4] == v6[..i] + w;
    SumSplit(v6[..i], w);
    CongruentSum(sum, Sum16(v6[..i]) - base, Load32(w), Sum16(w));
  }

  // ------------------------------------------------------------ the checksum field

  function FieldAt(seg: seq<Byte>, off: nat): (c: U16)
    requires off + 2 <= |seg|
  {
    Word(seg[off], seg[off + 1])
  }

  function WithField(seg: seq<Byte>, off: nat, c: U16): (r: seq<Byte>)
    requires off + 2 <= |seg|
    ensures |r| == |seg| && FieldAt(r, off) == c
    ensures forall i :: 0 <= i < |seg| && i != off && i != off + 1 ==> r[i] == seg[i]
  {
    seg[off := c % 0x100][off + 1 := c / 0x100]
  }

  lemma FieldSum(seg: seq<Byte>, off: nat, c: U16)
    requires off + 2 <= |seg| && off % 2 == 0
    ensures Sum16(WithField(seg, off, c)) == Sum16(seg) - FieldAt(seg, off) + c
  {
    hide Word;
    var w := WithField(seg, off, c);
    SplitAtField(seg, off);
    SplitAtField(w, off);
    assert w[..off] == seg[..off] && w[off + 2..] == seg[off + 2..];
  }

  lemma SplitAtField(s: seq<Byte>, off: nat)
    requires off + 2 <= |s| && off % 2 == 0
    ensures Sum16(s) == Sum16(s[..off]) + FieldAt(s, off) + Sum16(s[off + 2..])
  {
    assert s == s[..off] + s[off..];
    SumSplit(s[..off], s[off..]);
    assert s[off..][2..] == s[off + 2..];
  }

  /** Incremental update (RFC 1624): if the new field differs from the old one by what
      the addresses differ, validity carries over in both directions. */
  lemma AdjustedVerifies(oldAddrs: seq<Byte>, newAddrs: seq<Byte>, len: nat, proto: Byte, seg: seq<Byte>, off: nat, c: U16)
    requires |oldAddrs| % 2 == 0 && |newAddrs| % 2 == 0 && proto > 0
    requires off + 2 <= |seg| && off % 2 == 0
    requires Congruent(c, FieldAt(seg, off) + Sum16(oldAddrs) - Sum16(newAddrs))
    ensures Verifies(newAddrs, len, proto, WithField(seg, off, c)) <==> Verifies(oldAddrs, len, proto, seg)
  {
    hide Sum16, Verifies, WithField, Tail, FieldAt;
    FieldSum(seg, off, c);
    VerifiesIff(oldAddrs, len, proto, seg);
    VerifiesIff(newAddrs, len, proto, WithField(seg, off, c));
  }

  /** The receiver decides the same after the translation as before. What it sums need not
      be the bytes at hand: it may be a prefix of them, as under partial coverage, and it may
      go on with bytes that are elsewhere, in later fragments or cut off from a quote. The
      length in the pseudo-header is that of the datagram it sums. */
  ghost predicate SameVerdict(oldAddrs: seq<Byte>, newAddrs: seq<Byte>, proto: Byte, before: seq<Byte>, after: seq<Byte>, off: nat)
    requires |before| == |after|
  {
    && (forall len: nat :: Verifies(newAddrs, len, proto, after) <==> Verifies(oldAddrs, len, proto, before))
    && (forall len: nat, cov: nat, rest: seq<Byte> :: off + 2 <= cov <= |before| ==>
          (Verifies(newAddrs, len, proto, after[..cov] + rest) <==> Verifies(oldAddrs, len, proto, before[..cov] + rest)))
  }

  lemma AdjustedKeepsVerdict(oldAddrs: seq<Byte>, newAddrs: seq<Byte>, proto: Byte, seg: seq<Byte>, off: nat, c: U16)
    requires |oldAddrs| % 2 == 0 && |newAddrs| % 2 == 0 && proto > 0
    requires off + 2 <= |seg| && off % 2 == 0
    requires Congruent(c, FieldAt(seg, off) + Sum16(oldAddrs) - Sum16(newAddrs))
    ensures SameVerdict(oldAddrs, newAddrs, proto, seg, WithField(seg, off, c), off)
  {
    hide Sum16, Verifies, Congruent;
    var r := WithField(seg, off, c);
    forall len: nat ensures Verifies(newAddrs, len, proto, r) <==> Verifies(oldAddrs, len, proto, seg) {
      AdjustedVerifies(oldAddrs, newAddrs, len, proto, seg, off, c);
    }
    forall len: nat, cov: nat, rest: seq<Byte> | off + 2 <= cov <= |seg|
      ensures Verifies(newAddrs, len, proto, r[..cov] + rest) <==> Verifies(oldAddrs, len, proto, seg[..cov] + rest)
    {
      var d := seg[..cov] + rest;
      assert r[..cov] + rest == WithField(d, off, c);
      assert FieldAt(d, off) == FieldAt(seg, off);
      AdjustedVerifies(oldAddrs, newAddrs, len, proto, d, off, c);
    }
  }

  // ------------------------------------------------------------ what happens to a payload

  /** Refuse: drop the packet. Keep: leave the payload as it is. Compute: fill in a
      missing UDP checksum. Adjust: update the field at off. Echo: convert ICMP. */
  datatype Action = Refuse | Keep | Compute | Adjust(off: nat) | Echo

  /** The case analysis that both directions share; em says that the packet is quoted
      in an ICMP error, inner that it is a fragment other than the first. */
  function ActionFor(proto: Byte, icmp: Byte, seg: seq<Byte>, em: bool, inner: bool, mode: UdpMode): (a: Action)
    requires proto == icmp && !inner ==> |seg| >= 8
    ensures a.Adjust? ==> a.off + 2 <= |seg| && a.off % 2 == 0
    ensures a.Compute? || a.Echo? ==> |seg| >= 8
  {
    if inner then Keep
    else if proto == icmp then Echo
    else if proto == UDP then
      if |seg| < 8 then (if em then Keep else Refuse)
      else if FieldAt(seg, 6) == 0 then
        match mode
        case DropZero => Refuse
        case Forward => Keep
        case Calculate => if em then Keep else Compute
      else Adjust(6)
    else if proto == TCP then
      if |seg| < 20 then (if em then Keep else Refuse) else Adjust(16)
    else if proto == DCCP || proto == UDPLITE then
      if |seg| < (if proto == DCCP then 12 else 8) then (if em then Keep else Refuse)
      else if proto == UDPLITE && FieldAt(seg, 6) == 0 then (if em then Keep else Refuse)
      else Adjust(6)
    else Keep
  }

  /** What an accepted payload of a transport protocol has become. */
  ghost predicate Translated(action: Action, oldAddrs: seq<Byte>, newAddrs: seq<Byte>, proto: Byte,
                             before: seq<Byte>, after: seq<Byte>)
    requires |before| == |after|
    requires action.Adjust? ==> action.off + 2 <= |before|
    requires action.Compute? ==> |before| >= 8
  {
    match action
    case Refuse => after == before
    case Keep => after == before
    case Compute =>
      && Verifies(newAddrs, |after|, UDP, after)
      && FieldAt(after, 6) != 0 && after == WithField(before, 6, FieldAt(after, 6))
    case Adjust(off) =>
      && Congruent(FieldAt(after, off), FieldAt(before, off) + Sum16(oldAddrs) - Sum16(newAddrs))
      && SameVerdict(oldAddrs, newAddrs, proto, before, after, off)
      && after == WithField(before, off, FieldAt(after, off))
      && (proto == UDP || proto == UDPLITE ==> FieldAt(after, off) != 0)
    case Echo => true
  }

  // ------------------------------------------------------------ the same in bytes

  /** The shortest header of TCP (6), UDP (17), DCCP (33) and UDP-Lite (136). */
  predicate HeaderFits(proto: Byte, seg: seq<Byte>) {
    || (proto == 6 && |seg| >= 20)
    || (proto == 17 && |seg| >= 8)
    || (proto == 33 && |seg| >= 12)
    || (proto == 136 && |seg| >= 8)
  }

  /** UDP and UDP-Lite without checksum: bytes 6 and 7 are zero. */
  predicate NoChecksum(proto: Byte, seg: seq<Byte>) {
    (proto == 17 || proto == 136) && |seg| >= 8 && seg[6] == 0 && seg[7] == 0
  }

  /** Too short for a header outside a quote, UDP without checksum where that is to be
      dropped, or UDP-Lite without one outside a quote. */
  predicate MustDrop(proto: Byte, seg: seq<Byte>, em: bool, inner: bool, mode: UdpMode) {
    && !inner
    && (|| ((proto == 6 || proto == 17 || proto == 33 || proto == 136) && !HeaderFits(proto, seg) && !em)
        || (proto == 17 && NoChecksum(proto, seg) && mode == DropZero)
        || (proto == 136 && NoChecksum(proto, seg) && !em))
  }

  predicate MustFill(proto: Byte, seg: seq<Byte>, em: bool, inner: bool, mode: UdpMode) {
    !inner && !em && proto == 17 && NoChecksum(proto, seg) && mode == Calculate
  }

  predicate MustAdjust(proto: Byte, seg: seq<Byte>, inner: bool) {
    !inner && HeaderFits(proto, seg) && !NoChecksum(proto, seg)
  }

  /** Nothing but bytes off and off + 1 has changed. */
  predicate SameBut(before: seq<Byte>, after: seq<Byte>, off: nat) {
    |after| == |before| && forall i :: 0 <= i < |before| && i != off && i != off + 1 ==> after[i] == before[i]
  }

  /** x is a multiple of 65,535. */
  predicate Whole65535(x: int) {
    x % 0xffff == 0
  }

  /** The two bytes have changed, modulo 65,535, by what the addresses differ. */
  ghost predicate FieldMoved(oldAddrs: seq<Byte>, newAddrs: seq<Byte>, before: seq<Byte>, after: seq<Byte>, off: nat)
    requires off + 2 <= |before| == |after|
  {
    var new0: int, new1: int, old0: int, old1: int := after[off], after[off + 1], before[off], before[off + 1];
    Whole65535(new0 + 0x100 * new1 + Sum16(newAddrs) - (old0 + 0x100 * old1) - Sum16(oldAddrs))
  }

  /** What becomes of a payload: TCP keeps its checksum in bytes 16 and 17, the others in 6 and 7. */
  ghost predicate InBytes(proto: Byte, em: bool, inner: bool, mode: UdpMode, oldAddrs: seq<Byte>, newAddrs: seq<Byte>,
                          before: seq<Byte>, after: seq<Byte>)
  {
    if MustAdjust(proto, before, inner) then
      var off := if proto == 6 then 16 else 6;
      && SameBut(before, after, off)
      && FieldMoved(oldAddrs, newAddrs, before, after, off)
      && (proto == 17 || proto == 136 ==> after[6] != 0 || after[7] != 0)
    else if MustFill(proto, before, em, inner, mode) then
      && SameBut(before, after, 6)
      && Verifies(newAddrs, |after|, 17, after)
      && (after[6] != 0 || after[7] != 0)
    else after == before
  }

  lemma ActionInBytes(proto: Byte, icmp: Byte, seg: seq<Byte>, em: bool, inner: bool, mode: UdpMode)
    requires proto != icmp && (icmp == ICMP || icmp == ICMPV6)
    ensures var a := ActionFor(proto, icmp, seg, em, inner, mode);
            && (a.Refuse? <==> MustDrop(proto, seg, em, inner, mode))
            && (a.Compute? <==> MustFill(proto, seg, em, inner, mode))
            && (a.Adjust? <==> MustAdjust(proto, seg, inner))
            && (a.Adjust? ==> a.off == if proto == 6 then 16 else 6)
            && !a.Echo?
  {
    hide FieldAt;
    if |seg| >= 8 {
      FieldIsZero(seg, 6);
    }
  }

  lemma FieldIsZero(seg: seq<Byte>, off: nat)
    requires off + 2 <= |seg|
    ensures FieldAt(seg, off) == 0 <==> seg[off] == 0 && seg[off + 1] == 0
  {
  }

  lemma TranslatedInBytes(proto: Byte, icmp: Byte, em: bool, inner: bool, mode: UdpMode,
                          oldAddrs: seq<Byte>, newAddrs: seq<Byte>, before: seq<Byte>, after: seq<Byte>)
    requires proto != icmp && (icmp == ICMP || icmp == ICMPV6) && |before| == |after|
    requires Translated(ActionFor(proto, icmp, before, em, inner, mode), oldAddrs, newAddrs, proto, before, after)
    ensures InBytes(proto, em, inner, mode, oldAddrs, newAddrs, before, after)
  {
    hide ActionFor, MustDrop, MustFill, MustAdjust, Sum16, Verifies, SameVerdict, Congruent, FieldMoved, SameBut, FieldAt, WithField;
    ActionInBytes(proto, icmp, before, em, inner, mode);
    AdjustFits(proto, before, inner);
    var a := ActionFor(proto, icmp, before, em, inner, mode);
    if a.Adjust? {
      FieldInBytes(oldAddrs, newAddrs, before, after, a.off);
      FieldIsZero(after, a.off);
    } else if a.Compute? {
      OnlyField(before, after, 6);
      FieldIsZero(after, 6);
    }
  }

  lemma OnlyField(before: seq<Byte>, after: seq<Byte>, off: nat)
    requires off + 2 <= |before| == |after| && after == WithField(before, off, FieldAt(after, off))
    ensures SameBut(before, after, off)
  {
    hide FieldAt;
  }

  lemma FieldInBytes(oldAddrs: seq<Byte>, newAddrs: seq<Byte>, before: seq<Byte>, after: seq<Byte>, off: nat)
    requires off + 2 <= |before| == |after| && after == WithField(before, off, FieldAt(after, off))
    requires Congruent(FieldAt(after, off), FieldAt(before, off) + Sum16(oldAddrs) - Sum16(newAddrs))
    ensures SameBut(before, after, off) && FieldMoved(oldAddrs, newAddrs, before, after, off)
  {
    hide Sum16, WithField, Congruent, Whole65535;
    OnlyField(before, after, off);
    Moved(FieldAt(after, off), FieldAt(before, off), Sum16(oldAddrs), Sum16(newAddrs));
  }

  lemma Moved(c: int, d: int, x: int, y: int)
    requires Congruent(c, d + x - y)
    ensures Whole65535(c + y - d - x)
  {
    assert c + y - d - x == c - (d + x - y);
  }

  lemma AdjustFits(proto: Byte, seg: seq<Byte>, inner: bool)
    ensures MustAdjust(proto, seg, inner) ==> HeaderFits(proto, seg) && |seg| >= if proto == 6 then 20 else 8
  {
  }

  method Put(p: array<Byte>, off: nat, c: U16)
    requires off + 2 <= p.Length
    modifies p
    ensures p[..] == WithField(old(p[..]), off, c)
  {
    p[off] := c % 0x100;
    p[off + 1] := c / 0x100;
  }

  /** The adjusted field: `ones_add` with the complement of `convert_cksum`, never zero for UDP and UDP-Lite. */
  method AdjustedField4to6(field: U16, proto: Byte, v6: seq<Byte>, v4: seq<Byte>) returns (ck: U16)
    requires |v4| == 8 && |v6| == 32
    ensures Congruent(ck, field + Sum16(v4) - Sum16(v6))
    ensures proto == UDP || proto == UDPLITE ==> ck != 0
  {
    hide Sum16, Congruent, OnesAdd, Complement;
    var conv := ConvertCksum(v6, v4);
    ck := OnesAdd(field, Complement(conv));
    ghost var diff := Sum16(v6) - Sum16(v4);
    OnesAddCongruent(field, Complement(conv));
    ComplementIsNegation(conv);
    CongruentSelf(field);
    CongruentSum(field, field, Complement(conv), 0 - conv as int);
    CongruentSum(field, field, conv, diff);
    CongruentTrans(field + Complement(conv), field - conv as int, field - diff);
    CongruentTrans(ck, field + Complement(conv), field - diff);
    if proto == UDP || proto == UDPLITE {
      ck := KeepNonZero(ck, field + Sum16(v4) - Sum16(v6));
    }
  }

  /** `xlate_payload_4to6` for everything but ICMP: refused payloads stay as they are, a
      computed checksum is valid, and an adjusted one is valid exactly if it was, for whole
      segments, first fragments, partly covered ones and truncated quotes. */
  method XlatePayload4to6(p: array<Byte>, proto: Byte, v6: seq<Byte>, v4: seq<Byte>,
                          em: bool, inner: bool, mode: UdpMode) returns (drop: bool)
    requires |v4| == 8 && |v6| == 32 && proto > 0 && proto != 1
    modifies p
    ensures var a := ActionFor(proto, ICMP, old(p[..]), em, inner, mode);
            && drop == a.Refuse?
            && Translated(a, v4, v6, proto, old(p[..]), p[..])
    ensures drop <==> MustDrop(proto, old(p[..]), em, inner, mode)
    ensures InBytes(proto, em, inner, mode, v4, v6, old(p[..]), p[..])
  {
    hide Sum16, Congruent, Verifies, SameVerdict, FieldAt, WithField;
    var seg := p[..];
    var a := ActionFor(proto, ICMP, seg, em, inner, mode);
    ActionInBytes(proto, ICMP, seg, em, inner, mode);
    drop := a.Refuse?;
    if a.Compute? {
      var ck := ComputeField(seg, v6);
      Put(p, 6, ck);
    } else if a.Adjust? {
      var ck := AdjustedField4to6(FieldAt(seg, a.off), proto, v6, v4);
      AdjustedKeepsVerdict(v4, v6, proto, seg, a.off, ck);
      Put(p, a.off, ck);
    }
    TranslatedInBytes(proto, ICMP, em, inner, mode, v4, v6, seg, p[..]);
  }

  /** The adjusted field: `ones_add` with the value of `convert_cksum`, never zero for UDP and UDP-Lite. */
  method AdjustedField6to4(field: U16, proto: Byte, v6: seq<Byte>, v4: seq<Byte>) returns (ck: U16)
    requires |v4| == 8 && |v6| == 32
    ensures Congruent(ck, field + Sum16(v6) - Sum16(v4))
    ensures proto == UDP || proto == UDPLITE ==> ck != 0
  {
    hide Sum16, Congruent, OnesAdd, Complement;
    var conv := ConvertCksum(v6, v4);
    ck := OnesAdd(field, conv);
    ghost var diff := Sum16(v6) - Sum16(v4);
    OnesAddCongruent(field, conv);
    CongruentSelf(field);
    CongruentSum(field, field, conv, diff);
    CongruentTrans(ck, field + conv, field + diff);
    if proto == UDP || proto == UDPLITE {
      ck := KeepNonZero(ck, field + Sum16(v6) - Sum16(v4));
    }
  }

  /** `xlate_payload_6to4` for everything but ICMPV6: refused payloads stay as they are, a
      computed checksum is valid, and an adjusted one is valid exactly if it was, for whole
      segments, first fragments, partly covered ones and truncated quotes. */
  method XlatePayload6to4(p: array<Byte>, proto: Byte, v6: seq<Byte>, v4: seq<Byte>,
                          em: bool, inner: bool, mode: UdpMode) returns (drop: bool)
    requires |v4| == 8 && |v6| == 32 && proto > 0 && proto != 58
    modifies p
    ensures var a := ActionFor(proto, ICMPV6, old(p[..]), em, inner, mode);
            && drop == a.Refuse?
            && Translated(a, v6, v4, proto, old(p[..]), p[..])
    ensures drop <==> MustDrop(proto, old(p[..]), em, inner, mode)
    ensures InBytes(proto, em, inner, mode, v6, v4, old(p[..]), p[..])
  {
    hide Sum16, Congruent, Verifies, SameVerdict, FieldAt, WithField;
    var seg := p[..];
    var a := ActionFor(proto, ICMPV6, seg, em, inner, mode);
    ActionInBytes(proto, ICMPV6, seg, em, inner, mode);
    drop := a.Refuse?;
    if a.Compute? {
      var ck := ComputeField(seg, v4);
      Put(p, 6, ck);
    } else if a.Adjust? {
      var ck := AdjustedField6to4(FieldAt(seg, a.off), proto, v6, v4);
      AdjustedKeepsVerdict(v6, v4, proto, seg, a.off, ck);
      Put(p, a.off, ck);
    }
    TranslatedInBytes(proto, ICMPV6, em, inner, mode, v6, v4, seg, p[..]);
  }

  /** `if (ck == 0) ck = 0xffff` */
  method KeepNonZero(ck: U16, ghost target: int) returns (r: U16)
    requires Congruent(ck, target)
    ensures r != 0 && Congruent(r, target)
  {
    r := if ck == 0 then 0xffff else ck;
  }

  /** A UDP checksum from scratch, over a segment whose field is still zero. */
  method ComputeField(seg: seq<Byte>, addrs: seq<Byte>) returns (ck: U16)
    requires |addrs| == 8 || |addrs| == 32
    requires |seg| >= 8 && FieldAt(seg, 6) == 0
    ensures ck != 0 && Verifies(addrs, |seg|, UDP, WithField(seg, 6, ck))
  {
    hide Sum16, Congruent, Verifies, OnesSum, Norm, FieldAt, WithField, OnesAdd, Complement, CkSum, Tail, Pseudo;
    var body := IpChecksum(seg);
    var pseudo := PseudoChecksum(addrs, |seg|, UDP);
    OnesAddCongruent(body, pseudo);
    BodyCongruent(seg);
    ghost var s: int, t: int := Sum16(seg), Sum16(addrs) + Tail(|seg|, UDP);
    CongruentSum(body, 0 - s, pseudo, 0 - t);
    ghost var both: int := body as int + pseudo as int;
    CongruentTrans(OnesAdd(body, pseudo), both, 0 - s - t);
    ck := KeepNonZero(OnesAdd(body, pseudo), 0 - s - t);
    FieldSum(seg, 6, ck);
    VerifiesIff(addrs, |seg|, UDP, WithField(seg, 6, ck));
    Cancels(ck, Sum16(seg), Sum16(addrs) + Tail(|seg|, UDP));
  }

  lemma Cancels(ck: U16, s: nat, t: nat)
    requires Congruent(ck, 0 - s - t)
    ensures Congruent(t + (s + ck), 0)
  {
  }

  /** Of a first fragment only the bytes at hand are summed. The whole datagram verifies
      exactly if the bytes that follow and the longer length cancel out. */
  lemma ComputedOnFragment(addrs: seq<Byte>, frag: seq<Byte>, rest: seq<Byte>)
    requires |addrs| % 2 == 0 && |frag| % 2 == 0 && Verifies(addrs, |frag|, UDP, frag)
    ensures Verifies(addrs, |frag| + |rest|, UDP, frag + rest)
       <==> Congruent(Tail(|frag| + |rest|, UDP) - Tail(|frag|, UDP) + Sum16(rest), 0)
  {
    hide Sum16, Verifies, Tail;
    VerifiesIff(addrs, |frag|, UDP, frag);
    VerifiesIff(addrs, |frag| + |rest|, UDP, frag + rest);
    SumSplit(frag, rest);
    ShiftedSum(Sum16(addrs), Tail(|frag|, UDP), Tail(|frag| + |rest|, UDP), Sum16(frag), Sum16(rest));
  }

  lemma ShiftedSum(a: int, t: int, t': int, s: int, r: int)
    requires Congruent(a + t + s, 0)
    ensures Congruent(a + t' + (s + r), 0) <==> Congruent(t' - t + r, 0)
  {
    assert a + t' + (s + r) == (a + t + s) + (t' - t + r);
  }

  /** It does not for eight bytes followed by eight zeros. */
  lemma ComputedOnFragmentExample(addrs: seq<Byte>, frag: seq<Byte>)
    requires |addrs| % 2 == 0 && |frag| == 8 && Verifies(addrs, 8, UDP, frag)
    ensures !Verifies(addrs, 16, UDP, frag + Zeros(8))
  {
    hide Sum16, Verifies, Word;
    ComputedOnFragment(addrs, frag, Zeros(8));
    ZeroSum(Zeros(8));
    TailWords(8, UDP);
    TailWords(16, UDP);
    assert Be32(8) == [0, 0, 0, 8] && Be32(16) == [0, 0, 0, 16];
    EightApart();
  }

  lemma EightApart()
    ensures Word(0, 16) == Word(0, 8) + 0x800
  {
  }

  lemma BodyCongruent(seg: seq<Byte>)
    ensures Congruent(CkSum(seg), 0 - Sum16(seg))
  {
    hide Congruent, Norm, Sum16;
    NormCongruent(Sum16(seg));
    NegatedNorm(Sum16(seg), Norm(Sum16(seg)));
  }

  lemma NegatedNorm(n: nat, r: U16)
    requires Congruent(n, r)
    ensures Congruent(Complement(r), 0 - n)
  {
    hide Congruent;
    ComplementIsNegation(r);
    CongruentSelf(0);
    CongruentSum(0, 0, n, r);
    CongruentTrans(Complement(r), 0 - r, 0 - r);
    CongruentFlip(0 - n, 0 - r);
    CongruentTrans(Complement(r), 0 - r, 0 - n);
  }

  lemma CongruentFlip(a: int, b: int)
    requires Congruent(a, b)
    ensures Congruent(b, a)
  {
  }

  // ------------------------------------------------------------ ICMP echo

  /** The ICMPv6 checksum: the pseudo-header and the change of type are taken off. */
  method EchoField4to6(field: U16, delta: U16, len: nat, v6: seq<Byte>) returns (ck: U16)
    requires |v6| == 32
    ensures Congruent(ck, field - (Sum16(v6) + Tail(len, ICMPV6)) - delta)
  {
    hide Sum16, Congruent, OnesSum, OnesAdd, Complement, Tail, Pseudo;
    var pseudo := PseudoChecksum(v6, len, ICMPV6);
    var cksum := OnesAdd(field, pseudo);
    OnesAddCongruent(field, pseudo);
    ck := OnesAdd(cksum, Complement(delta));
    OnesAddCongruent(cksum, Complement(delta));
    ghost var t := Sum16(v6) + Tail(len, ICMPV6);
    ComplementIsNegation(delta);
    CongruentSelf(field);
    CongruentSum(field, field, pseudo, 0 - t);
    CongruentTrans(cksum, field + pseudo, field - t);
    CongruentSum(cksum, field - t, Complement(delta), 0 - delta);
    CongruentTrans(ck, cksum + Complement(delta), field - t - delta);
  }

  /** ICMP echo to ICMPv6 echo: the result is valid with its pseudo-header exactly if the
      original was valid without one, a message of zeros apart, whose sum is not negative zero. */
  method XlateEcho4to6(p: array<Byte>, len: nat, v6: seq<Byte>)
    requires p.Length >= 8 && |v6| == 32
    modifies p
    ensures p[0] == if old(p[0]) == 8 then 128 else 129
    ensures forall i :: 4 <= i < p.Length || i == 1 ==> p[i] == old(p[i])
    ensures old(p[0]) == 8 || old(p[0]) == 0 ==>
      forall rest: seq<Byte> ::
        (Verifies(v6, len, 58, p[..] + rest) && !AllZero(old(p[..]) + rest) <==> VerifiesIcmp4(old(p[..]) + rest))
  {
    hide Sum16, Congruent, Verifies, FieldAt, WithField, Tail, AllZero, VerifiesIcmp4;
    var seg := p[..];
    var request := p[0] == 8;
    var ck := EchoField4to6(FieldAt(seg, 2), if request then 120 else 129, len, v6);
    var kind := if request then 128 else 129;
    p[0] := kind;
    assert p[..] == seg[0 := kind];
    Put(p, 2, ck);
    if kind as int - seg[0] == if request then 120 else 129 {
      forall rest: seq<Byte>
        ensures Verifies(v6, len, ICMPV6, p[..] + rest) && !AllZero(seg + rest) <==> VerifiesIcmp4(seg + rest)
      {
        EchoPrefix(seg, rest, kind, ck);
        Icmp4Iff(seg + rest);
        EchoValid4to6(seg + rest, kind, kind - seg[0], len, v6, ck);
      }
    }
  }

  /** A message that goes on beyond the bytes at hand is translated with them. */
  lemma EchoPrefix(seg: seq<Byte>, rest: seq<Byte>, kind: Byte, ck: U16)
    requires |seg| >= 8
    ensures WithField(seg[0 := kind], 2, ck) + rest == WithField((seg + rest)[0 := kind], 2, ck)
    ensures FieldAt(seg + rest, 2) == FieldAt(seg, 2) && (seg + rest)[0] == seg[0]
  {
  }

  lemma EchoValid4to6(seg: seq<Byte>, kind: Byte, delta: nat, len: nat, v6: seq<Byte>, ck: U16)
    requires |seg| >= 8 && |v6| == 32
    requires Congruent(ck, FieldAt(seg, 2) - (Sum16(v6) + Tail(len, ICMPV6)) - delta)
    ensures kind - seg[0] == delta ==>
      (Verifies(v6, len, ICMPV6, WithField(seg[0 := kind], 2, ck)) <==> Congruent(Sum16(seg), 0))
  {
    hide Sum16, Congruent, Verifies, FieldAt, Tail, WithField;
    EchoSum(seg, kind, ck);
    VerifiesIff(v6, len, ICMPV6, WithField(seg[0 := kind], 2, ck));
    EchoValid(ck, FieldAt(seg, 2), Sum16(seg), seg[0], kind, delta, Sum16(v6) + Tail(len, ICMPV6),
              Sum16(WithField(seg[0 := kind], 2, ck)));
  }

  lemma EchoSum(seg: seq<Byte>, kind: Byte, ck: U16)
    requires |seg| >= 8
    ensures Sum16(WithField(seg[0 := kind], 2, ck)) == Sum16(seg) - seg[0] + kind - FieldAt(seg, 2) + ck
  {
    hide Sum16;
    var s1 := seg[0 := kind];
    FieldSum(s1, 2, ck);
    FieldSum(seg, 0, Word(kind, seg[1]));
    assert WithField(seg, 0, Word(kind, seg[1])) == s1;
  }

  lemma EchoValid(ck: U16, field: U16, s: nat, kind: Byte, kind6: Byte, delta: nat, t: nat, s': nat)
    requires Congruent(ck, field - t - delta) && s' == s - kind + kind6 - field + ck
    ensures kind6 - kind == delta ==> (Congruent(t + s', 0) <==> Congruent(s, 0))
  {
    assert kind6 - kind == delta ==> Congruent(t + s', s);
  }

  method EchoField6to4(field: U16, delta: U16, len: nat, v6: seq<Byte>) returns (ck: U16)
    requires |v6| == 32
    ensures Congruent(ck, field + (Sum16(v6) + Tail(len, ICMPV6)) + delta)
  {
    hide Sum16, Congruent, OnesSum, OnesAdd, Tail, Pseudo;
    var checksum := PseudoChecksum(v6, len, ICMPV6);
    var pseudo := Complement(checksum);
    var cksum := OnesAdd(field, pseudo);
    OnesAddCongruent(field, pseudo);
    ck := OnesAdd(cksum, delta);
    OnesAddCongruent(cksum, delta);
    ghost var t := Sum16(v6) + Tail(len, ICMPV6);
    ComplementIsNegation(pseudo);
    ghost var negated: int := 0 - pseudo as int;
    CongruentVia(checksum, negated, 0 - t);
    CongruentSelf(field);
    CongruentSum(field, field, negated, 0 - t);
    CongruentTrans(cksum, field + pseudo, field + t);
    CongruentSelf(delta);
    CongruentSum(cksum, field + t, delta, delta);
    CongruentTrans(ck, cksum + delta, field + t + delta);
  }

  /** ICMPv6 echo to ICMP echo: the pseudo-header goes, validity stays. */
  method XlateEcho6to4(p: array<Byte>, len: nat, v6: seq<Byte>)
    requires p.Length >= 8 && |v6| == 32
    modifies p
    ensures p[0] == if old(p[0]) == 128 then 8 else 0
    ensures forall i :: 4 <= i < p.Length || i == 1 ==> p[i] == old(p[i])
    ensures old(p[0]) == 128 || old(p[0]) == 129 ==>
      forall rest: seq<Byte> ::
        (VerifiesIcmp4(p[..] + rest) <==> Verifies(v6, len, 58, old(p[..]) + rest) && !AllZero(p[..] + rest))
  {
    hide Sum16, Congruent, Verifies, FieldAt, WithField, Tail, AllZero, VerifiesIcmp4;
    var seg := p[..];
    var request := p[0] == 128;
    var ck := EchoField6to4(FieldAt(seg, 2), if request then 120 else 129, len, v6);
    var kind := if request then 8 else 0;
    p[0] := kind;
    assert p[..] == seg[0 := kind];
    Put(p, 2, ck);
    if seg[0] as int - kind == if request then 120 else 129 {
      forall rest: seq<Byte>
        ensures VerifiesIcmp4(p[..] + rest) <==> Verifies(v6, len, ICMPV6, seg + rest) && !AllZero(p[..] + rest)
      {
        EchoPrefix(seg, rest, kind, ck);
        Icmp4Iff(p[..] + rest);
        EchoValid6to4(seg + rest, kind, seg[0] - kind, len, v6, ck);
      }
    }
  }

  lemma EchoValid6to4(seg: seq<Byte>, kind: Byte, delta: nat, len: nat, v6: seq<Byte>, ck: U16)
    requires |seg| >= 8 && |v6| == 32
    requires Congruent(ck, FieldAt(seg, 2) + (Sum16(v6) + Tail(len, ICMPV6)) + delta)
    ensures seg[0] - kind == delta ==>
      (Congruent(Sum16(WithField(seg[0 := kind], 2, ck)), 0) <==> Verifies(v6, len, ICMPV6, seg))
  {
    hide Sum16, Congruent, Verifies, FieldAt, Tail, WithField;
    EchoSum(seg, kind, ck);
    VerifiesIff(v6, len, ICMPV6, seg);
    EchoBackValid(ck, FieldAt(seg, 2), Sum16(seg), seg[0], kind, delta, Sum16(v6) + Tail(len, ICMPV6),
                  Sum16(WithField(seg[0 := kind], 2, ck)));
  }

  lemma EchoBackValid(ck: U16, field: U16, s: nat, kind: Byte, kind4: Byte, delta: nat, t: nat, s': nat)
    requires Congruent(ck, field + t + delta) && s' == s - kind + kind4 - field + ck
    ensures kind - kind4 == delta ==> (Congruent(s', 0) <==> Congruent(t + s, 0))
  {
    assert kind - kind4 == delta ==> Congruent(s', t + s);
  }
}
