/** Finding the NAT64 prefix in an address synthesized for the well-known names' addresses,
    section 3 of RFC 7050. */
module Pref64 {
  import opened Wrappers
  import opened Rfc6052
  import opened Checksum
  import opened AddressBytes

  datatype Prefix = Prefix(len: nat, bytes: Bytes)

  /** 192.0.0.170 or 192.0.0.171 */
  predicate WellKnown(a: Bytes) {
    a == [192, 0, 0, 170] || a == [192, 0, 0, 171]
  }

  /** The four bytes where the address stands if the prefix has this length; the reserved
      octet and what follows are not looked at. */
  function Picked(len: nat, b: Bytes): (a: Bytes)
    requires PrefixLength(len) && |b| == 16
    ensures |a| == 4
  {
    if len == 96 then b[12..16] else b[len / 8..8] + b[9..5 + len / 8]
  }

  /** Unspecified, IPv4-compatible, IPv4-mapped, multicast and link-local addresses. */
  predicate Excluded(b: Bytes)
    requires |b| == 16
  {
    || (AllZero(b[..10]) && ((b[10] == 0 && b[11] == 0) || (b[10] == 0xff && b[11] == 0xff)))
    || b[0] == 0xff || (b[0] == 0xfe && b[1] / 64 == 2)
  }

  /** `extract_pref64`: the longest prefixes are tried first, and the first match decides. */
  function ExtractPref64(b: Bytes): (r: Option<Prefix>)
    requires |b| == 16
  {
    if Excluded(b) then None
    else if WellKnown(Picked(96, b)) then Checked(96, b)
    else if WellKnown(Picked(64, b)) then Checked(64, b)
    else if WellKnown(Picked(56, b)) then Checked(56, b)
    else if WellKnown(Picked(48, b)) then Checked(48, b)
    else if WellKnown(Picked(40, b)) then Checked(40, b)
    else if WellKnown(Picked(32, b)) then Checked(32, b)
    else None
  }

  function Checked(len: nat, b: Bytes): (r: Option<Prefix>)
    requires PrefixLength(len) && |b| == 16
  {
    if AllZero(Cleared(len, b)) then None else Some(Prefix(len, Cleared(len, b)))
  }

  /** A prefix the program can be told to use: nothing behind its length, not zero, and not
      in the excluded ranges. */
  predicate Usable(p: Prefix) {
    && PrefixLength(p.len) && |p.bytes| == 16 && p.bytes == Cleared(p.len, p.bytes) && !AllZero(p.bytes)
    && !Excluded(p.bytes)
  }

  // ------------------------------------------------------------ longer lengths do not interfere

  lemma PickedOfSynthesized(len: nat, p: Bytes, a: Bytes)
    requires PrefixLength(len) && |p| == 16 && |a| == 4
    ensures Picked(len, Synthesize(len, p, a)) == a
  {
    if len == 96 {
    } else {
      SynthesizedParts(len, p, a);
      assert a[..8 - len / 8] + a[8 - len / 8..] == a;
    }
  }

  /** The bytes 9 to 15 of a synthesized well-known address, and bytes 5 to 7 below /64. */
  lemma TailOfSynthesized(len: nat, p: Bytes, a: Bytes)
    requires PrefixLength(len) && len != 96 && |p| == 16 && |a| == 4
    ensures var r := Synthesize(len, p, a);
      && r[8] == 0 && r[13] == 0 && r[14] == 0 && r[15] == 0
      && (len <= 56 ==> r[12] == 0) && (len <= 48 ==> r[11] == 0) && (len <= 40 ==> r[10] == 0) && (len == 32 ==> r[9] == 0)
      && (len == 64 ==> r[9] == a[0] && r[12] == a[3])
      && (len == 56 ==> r[7] == a[0] && r[9] == a[1] && r[11] == a[3])
      && (len == 48 ==> r[6] == a[0] && r[7] == a[1] && r[9] == a[2] && r[10] == a[3])
      && (len == 40 ==> r[5] == a[0] && r[6] == a[1] && r[7] == a[2] && r[9] == a[3])
      && (len == 32 ==> r[4] == a[0] && r[5] == a[1] && r[6] == a[2] && r[7] == a[3])
  {
  }

  /** Where a longer prefix would put the first byte of the address, a shorter one puts something else. */
  lemma LongerDoNotMatch(len: nat, longer: nat, p: Bytes, a: Bytes)
    requires PrefixLength(len) && PrefixLength(longer) && len < longer && |p| == 16 && WellKnown(a)
    ensures !WellKnown(Picked(longer, Synthesize(len, p, a)))
  {
    hide Synthesize;
    TailOfSynthesized(len, p, a);
    var r := Synthesize(len, p, a);
    assert Picked(longer, r)[0] == if longer == 96 then r[12] else if longer == 64 then r[9] else r[longer / 8];
  }

  /** On a synthesized well-known address the search stops at the right length, and only there. */
  lemma SearchFinds(len: nat, p: Bytes, a: Bytes)
    requires PrefixLength(len) && |p| == 16 && WellKnown(a) && p == Cleared(len, p)
    ensures var r := Synthesize(len, p, a);
      ExtractPref64(r) == if Excluded(r) || AllZero(p) then None else Some(Prefix(len, p))
  {
    hide Synthesize, Picked, Cleared, Excluded, AllZero;
    PickedOfSynthesized(len, p, a);
    if len < 96 { LongerDoNotMatch(len, 96, p, a); }
    if len < 64 { LongerDoNotMatch(len, 64, p, a); }
    if len < 56 { LongerDoNotMatch(len, 56, p, a); }
    if len < 48 { LongerDoNotMatch(len, 48, p, a); }
    if len < 40 { LongerDoNotMatch(len, 40, p, a); }
    ClearedOfSynthesized(len, p, a);
  }

  lemma ClearedOfSynthesized(len: nat, p: Bytes, a: Bytes)
    requires PrefixLength(len) && |p| == 16 && |a| == 4
    ensures Cleared(len, Synthesize(len, p, a)) == Cleared(len, p)
  {
    hide HostBytes;
    assert Synthesize(len, p, a)[..len / 8] == p[..len / 8];
  }

  /** The address is excluded exactly when its prefix is, if the prefix is not zero. */
  lemma ExcludedWithPrefix(len: nat, p: Bytes, a: Bytes)
    requires PrefixLength(len) && |p| == 16 && WellKnown(a) && p == Cleared(len, p) && !AllZero(p)
    ensures Excluded(Synthesize(len, p, a)) <==> Excluded(p)
  {
    hide HostBytes;
    var r := Synthesize(len, p, a);
    var n := len / 8;
    assert forall i :: 0 <= i < n ==> r[i] == p[i];
    assert forall i :: n <= i < 16 ==> p[i] == 0;
    if n <= 8 {
      var i :| 0 <= i < 16 && p[i] != 0;
      assert p[..10][i] == p[i] && r[..10][i] == r[i];
    } else {
      assert r[..10] == p[..10];
    }
  }

  /** Discovery succeeds on the address of any usable prefix, finds that prefix with its own
      length, and fails on every prefix that is not usable. */
  lemma DiscoveryFindsPrefix(p: Prefix, a: Bytes)
    requires PrefixLength(p.len) && |p.bytes| == 16 && p.bytes == Cleared(p.len, p.bytes) && WellKnown(a)
    ensures ExtractPref64(Synthesize(p.len, p.bytes, a)) == if Usable(p) then Some(p) else None
  {
    hide Synthesize, Cleared, Excluded, ExtractPref64, WellKnown;
    SearchFinds(p.len, p.bytes, a);
    if !AllZero(p.bytes) {
      ExcludedWithPrefix(p.len, p.bytes, a);
    }
  }

  /** Addresses below ::1:0:0, in ::ffff:0:0/96, in ff00::/8 and in fe80::/10. */
  predicate InSpecialRange(b: Bytes)
    requires |b| == 16
  {
    || b[..12] == [0, 0, 0, 0, 0, 0, 0, 0, 0, 0, 0, 0]
    || b[..12] == [0, 0, 0, 0, 0, 0, 0, 0, 0, 0, 0xff, 0xff]
    || 0xff <= b[0]
    || (b[0] == 0xfe && 0x80 <= b[1] <= 0xbf)
  }

  lemma SpecialRanges(b: Bytes)
    requires |b| == 16
    ensures Excluded(b) <==> InSpecialRange(b)
  {
    var t := b[..12];
    assert forall i :: 0 <= i < 10 ==> b[..10][i] == b[i] == t[i];
    assert b[10] == t[10] && b[11] == t[11];
    if AllZero(b[..10]) {
      assert forall i :: 0 <= i < 10 ==> t[i] == 0;
      assert t == t[..10] + [t[10], t[11]];
    }
  }

  /** A usable prefix, in ranges: one of the six lengths, zero behind it, not zero before it,
      and in none of the special ranges. Exactly these are discovered. */
  lemma DiscoveryInRanges(p: Prefix, a: Bytes)
    requires PrefixLength(p.len) && |p.bytes| == 16 && (a == [192, 0, 0, 170] || a == [192, 0, 0, 171])
    requires forall i :: p.len <= 8 * i < 128 ==> p.bytes[i] == 0
    ensures ExtractPref64(Synthesize(p.len, p.bytes, a)) ==
      if InSpecialRange(p.bytes) || (forall i :: 0 <= i < 16 ==> p.bytes[i] == 0) then None else Some(p)
  {
    hide Synthesize, Excluded, ExtractPref64, InSpecialRange;
    assert p.bytes == Cleared(p.len, p.bytes);
    DiscoveryFindsPrefix(p, a);
    SpecialRanges(p.bytes);
  }

  /** The four bytes that are looked at for a prefix of len bits: behind the prefix, byte 8 left out. */
  lemma PickedBytes(len: nat, b: Bytes)
    requires PrefixLength(len) && |b| == 16
    ensures Picked(96, b) == [b[12], b[13], b[14], b[15]] && Picked(64, b) == [b[9], b[10], b[11], b[12]]
    ensures Picked(56, b) == [b[7], b[9], b[10], b[11]] && Picked(48, b) == [b[6], b[7], b[9], b[10]]
    ensures Picked(40, b) == [b[5], b[6], b[7], b[9]] && Picked(32, b) == [b[4], b[5], b[6], b[7]]
  {
  }

  /** 192.0.0.170 and 192.0.0.171, the addresses of the names of section 2.2 of RFC 7050. */
  predicate IsDiscovery(a: Bytes) {
    |a| == 4 && a[0] == 192 && a[1] == 0 && a[2] == 0 && (a[3] == 170 || a[3] == 171)
  }

  lemma DiscoveryIsWellKnown(a: Bytes)
    ensures WellKnown(a) <==> IsDiscovery(a)
  {
    assert |a| == 4 ==> a == [a[0], a[1], a[2], a[3]];
  }

  /** b has one of the two addresses where a prefix of len bits puts it, and of no longer prefix. */
  ghost predicate LongestPick(len: nat, b: Bytes)
    requires |b| == 16
  {
    PrefixLength(len) && IsDiscovery(Picked(len, b)) && forall n: nat :: PrefixLength(n) && n > len ==> !IsDiscovery(Picked(n, b))
  }

  /** Any address is decided by the longest length at which one of the two addresses stands. */
  lemma LongestDecides(b: Bytes, p: Prefix)
    requires |b| == 16
    ensures ExtractPref64(b) == Some(p) <==>
      && !InSpecialRange(b) && LongestPick(p.len, b)
      && |p.bytes| == 16 && p.bytes == b[..p.len / 8] + Zeros(16 - p.len / 8)
      && exists i :: 0 <= i < 16 && p.bytes[i] != 0
  {
    hide Picked, Excluded, WellKnown, InSpecialRange, IsDiscovery;
    SpecialRanges(b);
    forall a: Bytes ensures WellKnown(a) <==> IsDiscovery(a) {
      DiscoveryIsWellKnown(a);
    }
  }

  /** A prefix is only reported if one of the two addresses stands behind it; the whole
      address is then the one synthesized from it, unless the reserved octet or the bits
      behind the address are set, which discovery does not look at. */
  lemma FoundIsSynthesized(b: Bytes)
    requires |b| == 16 && ExtractPref64(b).Some?
    ensures var p := ExtractPref64(b).value;
      && PrefixLength(p.len) && |p.bytes| == 16 && p.bytes == Cleared(p.len, b) && WellKnown(Picked(p.len, b))
      && (b == Synthesize(p.len, p.bytes, Picked(p.len, b)) <==> ExtractBytes(p.len, b).Some?)
  {
    hide Picked, Cleared, Excluded, WellKnown, Synthesize, ExtractBytes;
    var p := ExtractPref64(b).value;
    var a := Picked(p.len, b);
    ExtractIffSynthesized(p.len, b, a);
    OnlyPrefixMatters(p.len, b, a);
    if ExtractBytes(p.len, b).Some? {
      PickedIsExtracted(p.len, b);
    }
  }

  lemma PickedIsExtracted(len: nat, b: Bytes)
    requires PrefixLength(len) && |b| == 16 && ExtractBytes(len, b).Some?
    ensures ExtractBytes(len, b) == Some(Picked(len, b))
  {
  }

  lemma OnlyPrefixMatters(len: nat, b: Bytes, a: Bytes)
    requires PrefixLength(len) && |b| == 16 && |a| == 4
    ensures Synthesize(len, Cleared(len, b), a) == Synthesize(len, b, a)
  {
    hide HostBytes;
  }

  /** 2001:db8:0:1:01c0:0:aa00::, with the reserved octet set. */
  function OddAddress(): Bytes {
    [0x20, 0x01, 0x0d, 0xb8, 0, 0, 0, 1, 0x01, 192, 0, 0, 170, 0, 0, 0]
  }

  /** Such an address is reported, though nothing synthesizes it. */
  lemma ReservedOctetExample()
    ensures ExtractPref64(OddAddress()) == Some(Prefix(64, Cleared(64, OddAddress())))
    ensures forall a :: |a| == 4 ==> Synthesize(64, Cleared(64, OddAddress()), a) != OddAddress()
  {
    hide Synthesize, Cleared;
    var b := OddAddress();
    assert Picked(96, b)[0] == 170;
    assert Picked(64, b) == [192, 0, 0, 170];
    assert b[..10][0] == 0x20;
    ClearedStarts(b);
    forall a: Bytes | |a| == 4 ensures Synthesize(64, Cleared(64, b), a) != b {
      TailOfSynthesized(64, Cleared(64, b), a);
      assert b[8] == 1;
    }
  }

  lemma ClearedStarts(b: Bytes)
    requires |b| == 16
    ensures Cleared(64, b)[0] == b[0]
  {
  }
}
