/** What the two uncached lookups answer, for every address, in plain intervals and sums. */
module Answers {
  import opened Bits
  import opened Wrappers
  import opened AddressTables
  import opened Rfc6052
  import opened Translate
  import opened Coherence

  // ------------------------------------------------------------ address blocks

  predicate Between(x: nat, first: nat, last: nat) {
    first <= x <= last
  }

  /** 0.0.0.0/8, 127.0.0.0/8, 169.254.0.0/16, 224.0.0.0/4 and 255.255.255.255. */
  predicate NeverTranslated(a: Ip4) {
    || Between(a, 0x0000_0000, 0x00ff_ffff)
    || Between(a, 0x7f00_0000, 0x7fff_ffff)
    || Between(a, 0xa9fe_0000, 0xa9fe_ffff)
    || Between(a, 0xe000_0000, 0xefff_ffff)
    || a == 0xffff_ffff
  }

  /** 10.0.0.0/8, 100.64.0.0/10, 172.16.0.0/12, 192.0.0.8 to 192.0.0.255, 192.0.2.0/24, 192.168.0.0/16,
      198.18.0.0/15, 198.51.100.0/24, 203.0.113.0/24 and 240.0.0.0/4. */
  predicate NotGlobal(a: Ip4) {
    || Between(a, 0x0a00_0000, 0x0aff_ffff)
    || Between(a, 0x6440_0000, 0x647f_ffff)
    || Between(a, 0xac10_0000, 0xac1f_ffff)
    || Between(a, 0xc000_0008, 0xc000_00ff)
    || Between(a, 0xc000_0200, 0xc000_02ff)
    || Between(a, 0xc0a8_0000, 0xc0a8_ffff)
    || Between(a, 0xc612_0000, 0xc613_ffff)
    || Between(a, 0xc633_6400, 0xc633_64ff)
    || Between(a, 0xcb00_7100, 0xcb00_71ff)
    || Between(a, 0xf000_0000, 0xffff_ffff)
  }

  const WELL_KNOWN: Ip6 := 0x0064_ff9b_0000_0000_0000_0000_0000_0000

  /** Below 100::, but for 64:ff9b::/32, and fe80::/10 and ff00::/8. */
  predicate Unusable6(b: Ip6) {
    || (b <= 0x00ff_ffff_ffff_ffff_ffff_ffff_ffff_ffff && !Between(b, WELL_KNOWN, 0x0064_ff9b_ffff_ffff_ffff_ffff_ffff_ffff))
    || Between(b, 0xfe80_0000_0000_0000_0000_0000_0000_0000, 0xfebf_ffff_ffff_ffff_ffff_ffff_ffff_ffff)
    || b >= 0xff00_0000_0000_0000_0000_0000_0000_0000
  }

  lemma BlocksOf4(a: Ip4)
    ensures Validate4(a) != Valid <==> NeverTranslated(a)
    ensures Private4(a) <==> NotGlobal(a)
  {
  }

  lemma BlocksOf6(b: Ip6)
    ensures !Valid6(b) <==> Unusable6(b)
  {
  }

  /** The strict policy is about the prefix 64:ff9b::, of whatever length. */
  lemma StrictIs(cfg: Config, m: Mapping)
    requires m.Rfc6052? && Admitted(m)
    ensures StrictWellKnown(cfg, m) <==> cfg.wkpfStrict && m.prefix == WELL_KNOWN
  {
    hide Valid6, ClearLow;
    AlignedWord(m.prefix, 128 - m.prefixLen);
  }

  /** A multiple of 2^k is one of 2^32, if k is 32 or more. */
  lemma AlignedWord(p: nat, k: nat)
    requires Aligned(p, k) && k >= 32
    ensures p % 0x1_0000_0000 == 0
  {
    hide Pow2, Aligned;
    AlignedLess(p, k, 32);
    var q := AlignedIsMultiple(p, 32);
    Pow2Values();
    assert p == q * 0x1_0000_0000;
  }

  lemma {:induction false} AlignedLess(p: nat, k: nat, n: nat)
    requires Aligned(p, k) && n <= k
    ensures Aligned(p, n)
    decreases n
  {
    if n > 0 {
      AlignedLess(p / 2, k - 1, n - 1);
    }
  }

  // ------------------------------------------------------------ shifts as arithmetic

  function Times2(x: nat, n: nat): (r: nat) {
    x * Pow2(n)
  }

  lemma {:induction false} ShlIsProduct(x: nat, n: nat)
    ensures Shl(x, n) == Times2(x, n)
  {
    if n > 0 {
      ShlIsProduct(x, n - 1);
      assert 2 * (x * Pow2(n - 1)) == x * (2 * Pow2(n - 1));
    }
  }

  lemma ShrIsQuotient(x: nat, n: nat)
    ensures Times2(Shr(x, n), n) <= x < Times2(Shr(x, n), n) + Pow2(n)
  {
    hide Shl, Shr, Low, Pow2, Times2;
    PartsJoin(x, n);
    ShlIsProduct(Shr(x, n), n);
  }

  // ------------------------------------------------------------ IPv4 to IPv6

  /** The strict policy keeps the address from being translated under prefix p. */
  ghost predicate Barred(cfg: Config, p: Ip6, a: Ip4) {
    cfg.wkpfStrict && p == WELL_KNOWN && NotGlobal(a)
  }

  ghost predicate PrefixSays4(cfg: Config, p: Ip6, len: nat, a: Ip4, r: Outcome<Ip6>)
    requires PrefixLength(len)
  {
    if NeverTranslated(a) then r == Drop
    else if Barred(cfg, p, a) then r == Rejected
    else r.Found? && r.addr == p + Offset(len, a) && r.cachePair
  }

  /** An address whose longest match is an RFC 6052 prefix is translated exactly if it lies in
      none of the blocks that apply. */
  lemma PrefixAnswer4(cfg: Config, map4: seq<Mapping>, map6: seq<Mapping>, a: Ip4, p: Ip6, len: Len6)
    requires TablesOk(cfg, map4, map6) && LongestMatch(map4, a, Rfc6052(p, len))
    ensures PrefixLength(len) && PrefixSays4(cfg, p, len, a, Lookup4(cfg, map4, map6, a))
  {
    hide Validate4, Private4, Valid6, NeverTranslated, NotGlobal, StrictWellKnown, Offset, ClearLow, Aligned, Ordered4, Disjoint6,
         LongestMatch;
    MatchFound4(cfg, map4, map6, a, Rfc6052(p, len));
    BlocksOf4(a);
    StrictIs(cfg, Rfc6052(p, len));
  }

  lemma MatchFound4(cfg: Config, map4: seq<Mapping>, map6: seq<Mapping>, a: Ip4, m: Mapping)
    requires TablesOk(cfg, map4, map6) && LongestMatch(map4, a, m)
    ensures FindMap4(map4, a) == Some(m) && m in map4 && m.Covers4(a) && Admitted(m)
  {
    hide Admitted;
    FirstIsLongest(map4, a, m);
  }

  /** b, the address with the same place on the IPv6 side, is answered, or dropped as unusable. */
  ghost predicate StaticSays4(m: Mapping, b: nat, r: Outcome<Ip6>)
    requires m.Static?
  {
    && b < 0x1_0000_0000_0000_0000_0000_0000_0000_0000
    && if m.l4 < 32 && Unusable6(b) then r == Drop
       else r.Found? && r.addr == b && (r.cachePair <==> m.l6 == 96 + m.l4)
  }

  lemma EmbedIsProduct(m: Mapping, a: Ip4)
    requires m.Static? && Admitted(m) && m.Covers4(a)
    ensures m.l6 <= 96 + m.l4 && m.a4 <= a
    ensures Embed(m, a) == m.a6 + Times2(a - m.a4, 96 + m.l4 - m.l6)
  {
    hide Shl, Low, Pow2, Times2, ClearLow, Aligned, Valid6;
    LowAndClear(a, HostBits(m));
    ShlIsProduct(a - m.a4, Spare(m));
  }

  /** A static map keeps the place of the address within the prefix, and leaves further host
      bits zero; only an unusable result of a range is dropped. */
  lemma StaticAnswer4(cfg: Config, map4: seq<Mapping>, map6: seq<Mapping>, a: Ip4, m: Mapping)
    requires TablesOk(cfg, map4, map6) && LongestMatch(map4, a, m) && m.Static?
    ensures m.l6 <= 96 + m.l4 && m.a4 <= a
    ensures StaticSays4(m, m.a6 + Times2(a - m.a4, 96 + m.l4 - m.l6), Lookup4(cfg, map4, map6, a))
  {
    hide Valid6, Unusable6, Embed, Times2, Pow2, ClearLow, TablesOk, LongestMatch;
    MatchFound4(cfg, map4, map6, a, m);
    assert EntriesAdmitted(map4, map6) by { TablesAdmitted(cfg, map4, map6); }
    EmbedIsProduct(m, a);
    BlocksOf6(Embed(m, a));
    if m.l4 < 32 {
      RangeIsNotSelf(cfg, map4, map6, m);
      MatchIsEntry6(cfg, map4, map6, Embed(m, a), m);
    }
  }

  lemma TablesAdmitted(cfg: Config, map4: seq<Mapping>, map6: seq<Mapping>)
    requires TablesOk(cfg, map4, map6)
    ensures EntriesAdmitted(map4, map6)
  {
  }

  lemma MatchIsEntry6(cfg: Config, map4: seq<Mapping>, map6: seq<Mapping>, b: Ip6, m: Mapping)
    requires TablesOk(cfg, map4, map6) && m in map6 && !m.Pool? && m.Covers6(b)
    ensures FindMap6(map6, b) == Some(m) && Admitted(m)
  {
    hide Valid6, ClearLow, Aligned;
    MatchIsUnique6(map6, b, m);
  }

  /** A range is in both tables and does not cover the own addresses. */
  lemma RangeIsNotSelf(cfg: Config, map4: seq<Mapping>, map6: seq<Mapping>, m: Mapping)
    requires TablesOk(cfg, map4, map6) && m in map4 && m.Static? && m.l4 < 32
    ensures m in map6 && !m.Covers6(cfg.local6)
  {
    hide Ordered4, Disjoint6, ClearLow;
  }

  /** The remaining cases: the host of a lease, the pool, and no entry at all. */
  lemma OtherAnswers4(cfg: Config, map4: seq<Mapping>, map6: seq<Mapping>, a: Ip4)
    requires TablesOk(cfg, map4, map6)
    ensures forall b: Ip6 :: LongestMatch(map4, a, Host(a, b)) ==> Lookup4(cfg, map4, map6, a) == Found(b, true)
    ensures forall base: Ip4, len: Len4 :: LongestMatch(map4, a, Pool(base, len)) ==> Lookup4(cfg, map4, map6, a) == Rejected
    ensures (forall m :: m in map4 ==> !m.Covers4(a)) ==> Lookup4(cfg, map4, map6, a) == Rejected
  {
    hide LongestMatch, Ordered4, Disjoint6, Admitted, FindMap4;
    FindNone(map4, a);
    forall b: Ip6 | LongestMatch(map4, a, Host(a, b)) ensures Lookup4(cfg, map4, map6, a) == Found(b, true) {
      MatchFound4(cfg, map4, map6, a, Host(a, b));
    }
    forall base: Ip4, len: Len4 | LongestMatch(map4, a, Pool(base, len)) ensures Lookup4(cfg, map4, map6, a) == Rejected {
      MatchFound4(cfg, map4, map6, a, Pool(base, len));
    }
  }

  // ------------------------------------------------------------ IPv6 to IPv4

  ghost predicate PrefixSays6(cfg: Config, map4: seq<Mapping>, p: Ip6, len: Len6, a: Ip4, r: Outcome<Ip4>) {
    if NeverTranslated(a) then r == Drop
    else if Barred(cfg, p, a) then r == Rejected
    else if LongestMatch(map4, a, Rfc6052(p, len)) then r == Found(a, true)
    else r == Drop
  }

  /** Under an RFC 6052 prefix the embedded address is answered, exactly if it lies in none of
      the blocks and is the prefix's own; an address that embeds nothing is dropped. */
  lemma PrefixAnswer6(cfg: Config, map4: seq<Mapping>, map6: seq<Mapping>, b: Ip6, p: Ip6, len: Len6)
    requires TablesOk(cfg, map4, map6) && Rfc6052(p, len) in map6 && Rfc6052(p, len).Covers6(b)
    ensures PrefixLength(len)
    ensures forall a: Ip4 :: b == p + Offset(len, a) ==> PrefixSays6(cfg, map4, p, len, a, Lookup6(cfg, map4, map6, b))
    ensures (forall a: Ip4 :: b != p + Offset(len, a)) ==> Lookup6(cfg, map4, map6, b) == Drop
  {
    hide Validate4, Private4, Valid6, NeverTranslated, NotGlobal, StrictWellKnown, Offset, ClearLow, Aligned, Ordered4, Disjoint6,
         LongestMatch, Extract, Barred;
    var m := Rfc6052(p, len);
    MatchIsEntry6(cfg, map4, map6, b, m);
    StrictIs(cfg, m);
    forall a: Ip4 ensures Extract(len, b) == Some(a) <==> b == p + Offset(len, a) {
      ExtractIffEmbedded(len, p, b, a);
    }
    if Extract(len, b).Some? {
      var a := Extract(len, b).value;
      BlocksOf4(a);
      assert Barred(cfg, p, a) <==> StrictWellKnown(cfg, m) && Private4(a) by { BarredIs(cfg, m, a); }
      FirstIsLongest(map4, a, m);
    }
  }

  lemma BarredIs(cfg: Config, m: Mapping, a: Ip4)
    requires m.Rfc6052? && Admitted(m)
    ensures Barred(cfg, m.prefix, a) <==> StrictWellKnown(cfg, m) && Private4(a)
  {
    hide Private4, NotGlobal, StrictWellKnown;
    StrictIs(cfg, m);
    BlocksOf4(a);
  }

  ghost predicate StaticSays6(map4: seq<Mapping>, m: Mapping, n: nat, r: Outcome<Ip4>)
    requires m.Static?
  {
    var a := m.a4 + n;
    && a < 0x1_0000_0000
    && if m.l4 < 32 && (NeverTranslated(a) || !LongestMatch(map4, a, m)) then r == Drop
       else r == Found(a, m.l6 == 96 + m.l4)
  }

  /** A static map answers the n-th address, where n is the number of b's block; a range
      drops what is never translated or is another entry's. */
  lemma StaticAnswer6(cfg: Config, map4: seq<Mapping>, map6: seq<Mapping>, b: Ip6, m: Mapping) returns (n: nat)
    requires TablesOk(cfg, map4, map6) && m in map6 && m.Static? && m.Covers6(b)
    ensures m.l6 <= 96 + m.l4
    ensures Times2(n, 96 + m.l4 - m.l6) <= b - m.a6 < Times2(n, 96 + m.l4 - m.l6) + Pow2(96 + m.l4 - m.l6)
    ensures StaticSays6(map4, m, n, Lookup6(cfg, map4, map6, b))
  {
    hide Validate4, NeverTranslated, Valid6, Shr, Low, Pow2, Times2, ClearLow, Aligned, TablesOk, LongestMatch;
    MatchIsEntry6(cfg, map4, map6, b, m);
    assert EntriesAdmitted(map4, map6) && Ordered4(map4) by { TablesAdmitted(cfg, map4, map6); TablesInOrder(cfg, map4, map6); }
    n := Suffix(m, b);
    var a := ExtractStatic(m, b);
    LowAndClear(b, 128 - m.l6);
    ShrIsQuotient(b - m.a6, Spare(m));
    BlocksOf4(a);
    FirstIsLongest(map4, a, m);
    if m.l4 < 32 && a == cfg.local4 {
      SelfIsLonger(cfg, map4, map6, m);
    }
  }

  lemma TablesInOrder(cfg: Config, map4: seq<Mapping>, map6: seq<Mapping>)
    requires TablesOk(cfg, map4, map6)
    ensures Ordered4(map4)
  {
  }

  lemma SelfIsLonger(cfg: Config, map4: seq<Mapping>, map6: seq<Mapping>, m: Mapping)
    requires TablesOk(cfg, map4, map6) && m.Static? && m.l4 < 32
    ensures !LongestMatch(map4, cfg.local4, m)
  {
    hide Ordered4, Disjoint6;
    Whole(cfg.local4);
  }

  lemma OtherAnswers6(cfg: Config, map4: seq<Mapping>, map6: seq<Mapping>, b: Ip6)
    requires TablesOk(cfg, map4, map6)
    ensures forall a: Ip4 :: Host(a, b) in map6 ==> Lookup6(cfg, map4, map6, b) == Found(a, true)
    ensures (forall m :: m in map6 ==> !m.Covers6(b)) ==> Lookup6(cfg, map4, map6, b) == Rejected
  {
    hide Ordered4, Disjoint6, Admitted, FindMap6;
    Whole(b);
    forall a: Ip4 | Host(a, b) in map6 ensures Lookup6(cfg, map4, map6, b) == Found(a, true) {
      MatchIsEntry6(cfg, map4, map6, b, Host(a, b));
    }
  }
}
