/** The two address lookups without their cache: `map_ip4_to_ip6` and
    `map_ip6_to_ip4` as functions of the configuration and the two tables. */
module Translate {
  import opened Bits
  import opened Wrappers
  import opened AddressTables
  import opened Rfc6052

  /** The parts of the configuration that never change after start-up, and the host's byte order. */
  datatype Config = Config(
    local4: Ip4,
    local6: Ip6,
    wkpfStrict: bool,
    pool: Option<Mapping>,
    bigEndian: bool,
    cacheSize: nat,
    minLease: nat,
    maxLease: nat
  )

  datatype Verdict = Valid | Dropped | LinkLocal

  datatype Outcome<+T> = Found(addr: T, cachePair: bool) | Rejected | Drop

  /** `validate_ip4_addr` */
  function Validate4(a: Ip4): (v: Verdict) {
    if a / 0x100_0000 == 0 then Dropped
    else if a / 0x100_0000 == 127 then Dropped
    else if a / 0x1_0000 == 0xa9fe then LinkLocal
    else if a / 0x1000_0000 == 0xe then Dropped
    else if a == 0xffff_ffff then Dropped
    else Valid
  }

  const WKPF := 0x0064_ff9b

  function Word0(b: Ip6): (w: nat) {
    b / 0x1_0000_0000_0000_0000_0000_0000
  }

  /** `validate_ip6_addr` succeeds. */
  predicate Valid6(b: Ip6) {
    Word0(b) == WKPF ||
    (Word0(b) / 0x100_0000 != 0 && Word0(b) / 0x100_0000 != 0xff && Word0(b) / 0x40_0000 != 0x3fa)
  }

  /** `is_private_ip4_addr` */
  predicate Private4(a: Ip4) {
    || a / 0x100_0000 == 0x0a
    || a / 0x40_0000 == 0x6440_0000 / 0x40_0000
    || a / 0x10_0000 == 0xac10_0000 / 0x10_0000
    || a / 0x100 == 0xc0_0002
    || a / 0x1_0000 == 0xc0a8
    || a / 0x2_0000 == 0xc612_0000 / 0x2_0000
    || a / 0x100 == 0xc6_3364
    || a / 0x100 == 0xcb_0071
    || (a / 0x100 == 0xc0_0000 && a / 8 != 0xc000_0000 / 8)
    || a / 0x1000_0000 == 0xf
  }

  /** The prefix is the well-known one, 64:ff9b::/96, under the strict policy. */
  predicate StrictWellKnown(cfg: Config, m: Mapping)
    requires m.Rfc6052?
  {
    m.prefix / 0x1_0000_0000 == WKPF * 0x1_0000_0000_0000_0000 && cfg.wkpfStrict
  }

  /** What the configuration reader and the map file reader admit. */
  predicate Admitted(m: Mapping) {
    && m.Canonical()
    && (m.Static? ==>
          && 32 - m.l4 <= 128 - m.l6
          && (m.l6 > 0 ==> Valid6(m.a6)))
    && (m.Rfc6052? ==> PrefixLength(m.prefixLen) && Valid6(m.prefix))
    && (m.Pool? ==> m.poolLen <= 31)
  }

  /** The number of host bits of a static map's IPv4 side. */
  function HostBits(m: Mapping): (n: nat)
    requires m.Static?
  {
    32 - m.l4
  }

  /** IPv6 bits to the right of the embedded suffix. */
  function Spare(m: Mapping): (n: nat)
    requires m.Static? && 32 - m.l4 <= 128 - m.l6
  {
    128 - m.l6 - (32 - m.l4)
  }

  /** The IPv4 suffix of a, placed right after the IPv6 prefix of m. */
  function Embed(m: Mapping, a: Ip4): (b: Ip6)
    requires m.Static? && Admitted(m)
    ensures m.Covers6(b)
  {
    EmbedFits(m, Low(a, HostBits(m)));
    m.a6 + Shl(Low(a, HostBits(m)), Spare(m))
  }

  lemma EmbedFits(m: Mapping, suffix: nat)
    requires m.Static? && Admitted(m) && suffix < Pow2(HostBits(m))
    ensures Shl(suffix, Spare(m)) < Pow2(128 - m.l6)
    ensures m.a6 + Shl(suffix, Spare(m)) < 0x1_0000_0000_0000_0000_0000_0000_0000_0000
    ensures Low(m.a6 + Shl(suffix, Spare(m)), 128 - m.l6) == Shl(suffix, Spare(m))
    ensures ClearLow(m.a6 + Shl(suffix, Spare(m)), 128 - m.l6) == m.a6
  {
    hide Shl, Shr, Low, Pow2, ClearLow, Aligned;
    ShlBound(suffix, HostBits(m), Spare(m));
    Pow2Wide();
    BlockFits(m.a6, 128 - m.l6, 128);
    LowOfSum(m.a6, Shl(suffix, Spare(m)), 128 - m.l6);
  }

  /** The suffix read back from the IPv6 address. */
  function Suffix(m: Mapping, b: Ip6): (s: nat)
    requires m.Static? && Admitted(m)
    ensures s < Pow2(HostBits(m))
  {
    ShrBound(Low(b, 128 - m.l6), HostBits(m), Spare(m));
    Shr(Low(b, 128 - m.l6), Spare(m))
  }

  function ExtractStatic(m: Mapping, b: Ip6): (a: Ip4)
    requires m.Static? && Admitted(m)
    ensures m.Covers4(a) && Low(a, HostBits(m)) == Suffix(m, b)
  {
    SuffixFits(m, Suffix(m, b));
    m.a4 + Suffix(m, b)
  }

  lemma SuffixFits(m: Mapping, suffix: nat)
    requires m.Static? && Admitted(m) && suffix < Pow2(HostBits(m))
    ensures m.a4 + suffix < 0x1_0000_0000
    ensures Low(m.a4 + suffix, HostBits(m)) == suffix && ClearLow(m.a4 + suffix, HostBits(m)) == m.a4
  {
    hide Low, Pow2, ClearLow, Aligned;
    Pow2Values();
    BlockFits(m.a4, HostBits(m), 32);
    LowOfSum(m.a4, suffix, HostBits(m));
  }

  /** Extraction undoes embedding on every address the IPv4 prefix covers. */
  lemma ExtractUndoesEmbed(m: Mapping, a: Ip4)
    requires m.Static? && Admitted(m) && m.Covers4(a)
    ensures ExtractStatic(m, Embed(m, a)) == a
  {
    hide Shl, Shr, Low, Pow2, ClearLow, Aligned;
    var s := Low(a, HostBits(m));
    EmbedFits(m, s);
    ShrOfShl(s, Spare(m));
    LowAndClear(a, HostBits(m));
  }

  /** With no spare bits, embedding undoes extraction on every address the IPv6 prefix covers. */
  lemma EmbedUndoesExtract(m: Mapping, b: Ip6)
    requires m.Static? && Admitted(m) && m.Covers6(b) && Spare(m) == 0
    ensures Embed(m, ExtractStatic(m, b)) == b
  {
    hide Low, Pow2, ClearLow, Aligned;
    LowAndClear(b, 128 - m.l6);
  }

  /** `append_to_prefix`, after its two admission tests. */
  function Append(m: Mapping, a: Ip4): (b: Ip6)
    requires m.Rfc6052? && Admitted(m)
    ensures m.Covers6(b)
  {
    AppendFits(m, a);
    m.prefix + Offset(m.prefixLen, a)
  }

  lemma AppendFits(m: Mapping, a: Ip4)
    requires m.Rfc6052? && Admitted(m)
    ensures m.prefix + Offset(m.prefixLen, a) < 0x1_0000_0000_0000_0000_0000_0000_0000_0000
    ensures ClearLow(m.prefix + Offset(m.prefixLen, a), 128 - m.prefixLen) == m.prefix
  {
    hide Offset, Pow2, ClearLow, Aligned;
    OffsetBound(m.prefixLen, a);
    Pow2Wide();
    BlockFits(m.prefix, 128 - m.prefixLen, 128);
    LowOfSum(m.prefix, Offset(m.prefixLen, a), 128 - m.prefixLen);
  }

  /** `map_ip4_to_ip6` from `find_map4` on, before it touches the cache. */
  function Lookup4(cfg: Config, map4: seq<Mapping>, map6: seq<Mapping>, a: Ip4): (r: Outcome<Ip6>)
    requires forall m :: m in map4 ==> Admitted(m)
    requires forall m :: m in map6 ==> Admitted(m) && !m.Pool?
  {
    FindIsMember(map4, a);
    match FindMap4(map4, a)
    case None => Rejected
    case Some(m) =>
      match m
      case Static(_, _, _, _, _) =>
        var b := Embed(m, a);
        if HostBits(m) > 0 && (!Valid6(b) || b == cfg.local6 || FindMap6(map6, b) != Some(m)) then Drop
        else Found(b, Spare(m) == 0)
      case Rfc6052(_, _) =>
        if Validate4(a) != Valid then Drop
        else if StrictWellKnown(cfg, m) && Private4(a) then Rejected
        else Found(Append(m, a), true)
      case Pool(_, _) => Rejected
      case Host(_, b) => Found(b, true)
  }

  /** `map_ip6_to_ip4` from `find_map6` on, without allocation, before it touches the cache. */
  function Lookup6(cfg: Config, map4: seq<Mapping>, map6: seq<Mapping>, b: Ip6): (r: Outcome<Ip4>)
    requires forall m :: m in map4 ==> Admitted(m)
    requires forall m :: m in map6 ==> Admitted(m) && !m.Pool?
  {
    match FindMap6(map6, b)
    case None => Rejected
    case Some(m) =>
      assert Admitted(m) && !m.Pool?;
      match m
      case Static(_, _, _, _, _) =>
        var a := ExtractStatic(m, b);
        if HostBits(m) > 0 && (Validate4(a) != Valid || a == cfg.local4 || FindMap4(map4, a) != Some(m)) then Drop
        else Found(a, Spare(m) == 0)
      case Rfc6052(_, _) =>
        (match Extract(m.prefixLen, b)
         case None => Drop
         case Some(a) =>
           if Validate4(a) != Valid then Drop
           else if StrictWellKnown(cfg, m) && Private4(a) then Rejected
           else if FindMap4(map4, a) != Some(m) then Drop
           else Found(a, true))
      case Host(a, _) => Found(a, true)
  }
}
