/** How the two uncached lookups relate to each other when the tables are sound. */
module Coherence {
  import opened Bits
  import opened Wrappers
  import opened AddressTables
  import opened Rfc6052
  import opened Translate

  predicate IsSelf(m: Mapping) {
    m.Static? && m.origin.Self?
  }

  /** The map came from the map file, and goes with the next reload. */
  predicate FileMap(m: Mapping) {
    m.Static? && m.origin.MapFile?
  }

  function SelfMap(cfg: Config): Mapping {
    Static(cfg.local4, 32, cfg.local6, 128, Self)
  }

  ghost predicate EntriesAdmitted(map4: seq<Mapping>, map6: seq<Mapping>) {
    && (forall m :: m in map4 ==> Admitted(m))
    && (forall m :: m in map6 ==> Admitted(m) && !m.Pool?)
  }

  /** Where the translator's own map stands: in both tables, or only in the IPv4
      one when its IPv6 address was generated from the NAT64 prefix. */
  ghost predicate SelfPlaced(cfg: Config, map4: seq<Mapping>, map6: seq<Mapping>)
    requires EntriesAdmitted(map4, map6)
  {
    && SelfMap(cfg) in map4
    && (forall m :: m in map4 && IsSelf(m) ==> m == SelfMap(cfg))
    && (forall m :: m in map6 && m.Static? && !IsSelf(m) ==> !m.Covers6(cfg.local6))
    && (SelfMap(cfg) !in map6 ==>
          exists m :: m in map6 && m.Rfc6052? && cfg.local6 == Append(m, cfg.local4))
  }

  /** Every table entry but the pool and the hidden self map is in both tables. */
  ghost predicate Paired(map4: seq<Mapping>, map6: seq<Mapping>) {
    && (forall m :: m in map6 ==> m in map4)
    && (forall m :: m in map4 && !m.Pool? && !IsSelf(m) ==> m in map6)
  }

  ghost predicate TablesOk(cfg: Config, map4: seq<Mapping>, map6: seq<Mapping>) {
    && EntriesAdmitted(map4, map6)
    && Ordered4(map4) && Disjoint6(map6)
    && Paired(map4, map6)
    && SelfPlaced(cfg, map4, map6)
  }

  lemma Whole(x: nat)
    ensures ClearLow(x, 0) == x && Low(x, 0) == 0 && Shl(x, 0) == x
  {
  }

  /** A full-length entry is the match for its own address. */
  lemma HostMatchesItself(map4: seq<Mapping>, m: Mapping)
    requires Ordered4(map4) && m in map4 && m.Length4() == 32
    ensures FindMap4(map4, m.Addr4()) == Some(m)
  {
    forall n | n in map4 && n.Covers4(m.Addr4()) && n != m
      ensures n.Length4() < 32
    {
      assert n.Length4() == 32 ==> n.SameKey4(m) && m.SameKey4(n);
    }
    FirstIsLongest(map4, m.Addr4(), m);
  }

  lemma {:induction false} Word0Nested(a: nat, b: nat, k: nat)
    requires k <= 32 && Aligned(a, k) && a <= b < a + Pow2(k)
    ensures b / 0x1_0000_0000 == a / 0x1_0000_0000
  {
    BlockInWord(a, b, k, 32);
    Pow2Values();
  }

  lemma {:induction false} BlockInWord(a: nat, b: nat, k: nat, n: nat)
    requires k <= n && Aligned(a, k) && a <= b < a + Pow2(k)
    ensures ClearLow(b, n) == ClearLow(a, n)
    ensures b / Pow2(n) == a / Pow2(n)
    decreases n
  {
    if n == 0 {
    } else {
      if k == 0 {
      } else {
        BlockInWord(a / 2, b / 2, k - 1, n - 1);
        HalfThenDiv(a, n - 1);
        HalfThenDiv(b, n - 1);
      }
    }
  }

  lemma HalfThenDiv(a: nat, n: nat)
    ensures a / 2 / Pow2(n) == a / Pow2(n + 1)
  {
    var p := Pow2(n);
    var q := a / 2 / p;
    var r := a / 2 - p * q;
    assert a / 2 == p * q + r && 0 <= r < p;
    assert a == 2 * (p * q) + 2 * r + a % 2;
    assert 2 * (p * q) == (2 * p) * q;
    DivModIs(a, 2 * p, q, 2 * r + a % 2);
  }

  /** An equal-width static map is valid on its whole IPv6 side. */
  lemma ValidOnWholeRange(m: Mapping, b: Ip6)
    requires m.Static? && Admitted(m) && Spare(m) == 0 && m.Covers6(b)
    ensures Valid6(b)
  {
    hide Pow2, ClearLow, Aligned;
    Covers6Range(m, b);
    Word0Nested(m.a6, b, 128 - m.l6);
    assert Word0(b) == b / 0x1_0000_0000 / 0x1_0000_0000_0000_0000;
    assert Word0(m.a6) == m.a6 / 0x1_0000_0000 / 0x1_0000_0000_0000_0000;
  }

  /** What an IPv6-to-IPv4 lookup may publish, the IPv4-to-IPv6 lookup agrees with. */
  lemma Lookup6Agrees(cfg: Config, map4: seq<Mapping>, map6: seq<Mapping>, a: Ip4, b: Ip6)
    requires TablesOk(cfg, map4, map6)
    requires Lookup6(cfg, map4, map6, b) == Found(a, true)
    ensures Lookup4(cfg, map4, map6, a) == Found(b, true)
  {
    hide Offset, Extract, Shl, Shr, Low, Pow2, ClearLow, Aligned, Validate4, Private4, Valid6, StrictWellKnown, Ordered4, Disjoint6;
    var m := FindMap6(map6, b).value;
    if m.Static? {
      EmbedUndoesExtract(m, b);
      if HostBits(m) > 0 {
        ValidOnWholeRange(m, b);
      } else {
        Whole(a);
        HostMatchesItself(map4, m);
      }
    } else if m.Rfc6052? {
      ExtractIffEmbedded(m.prefixLen, m.prefix, b, a);
    } else {
      Whole(b);
      HostMatchesItself(map4, m);
    }
  }

  /** The pairs that the reverse lookup does not confirm: a range map whose IPv4
      result is not a valid address, and the own map with a generated IPv6 address. */
  predicate OneWay(map4: seq<Mapping>, map6: seq<Mapping>, a: Ip4) {
    match FindMap4(map4, a)
    case None => false
    case Some(m) =>
      || (m.Static? && HostBits(m) > 0 && Validate4(a) != Valid)
      || (IsSelf(m) && m !in map6)
  }

  lemma Lookup4Covered(cfg: Config, map4: seq<Mapping>, map6: seq<Mapping>, a: Ip4, b: Ip6)
    requires TablesOk(cfg, map4, map6)
    requires Lookup4(cfg, map4, map6, a) == Found(b, true)
    ensures FindMap4(map4, a).Some?
    ensures var m := FindMap4(map4, a).value;
            && m in map4 && !m.Pool? && m.Covers4(a) && m.Covers6(b)
            && (m in map6 ==> FindMap6(map6, b) == Some(m))
  {
    hide Offset, Extract, Shl, Shr, Low, Pow2, ClearLow, Aligned, Validate4, Private4, Valid6, StrictWellKnown, Ordered4, Disjoint6;
    FindIsMember(map4, a);
    Whole(b);
    var m := FindMap4(map4, a).value;
    if m in map6 {
      MatchIsUnique6(map6, b, m);
    }
  }

  /** What an IPv4-to-IPv6 lookup may publish, the reverse lookup confirms exactly
      when the pair is not one of the one-way pairs. */
  lemma Lookup4AgreesUnlessOneWay(cfg: Config, map4: seq<Mapping>, map6: seq<Mapping>, a: Ip4, b: Ip6)
    requires TablesOk(cfg, map4, map6)
    requires Lookup4(cfg, map4, map6, a) == Found(b, true)
    ensures Lookup6(cfg, map4, map6, b) == Found(a, true) <==> !OneWay(map4, map6, a)
    ensures OneWay(map4, map6, a) ==> !Lookup6(cfg, map4, map6, b).Found?
  {
    hide Offset, Extract, Shl, Shr, Low, Pow2, ClearLow, Aligned, Validate4, Private4, Valid6, StrictWellKnown, Ordered4, Disjoint6;
    Lookup4Covered(cfg, map4, map6, a, b);
    var m := FindMap4(map4, a).value;
    HostMatchesItself(map4, SelfMap(cfg));
    Whole(a);
    if m.Static? {
      ExtractUndoesEmbed(m, a);
      if m !in map6 {
        Whole(0);
        SelfIsDropped(cfg, map4, map6);
      }
    } else if m.Rfc6052? {
      ExtractIffEmbedded(m.prefixLen, m.prefix, b, a);
    }
  }

  /** A generated own IPv6 address is never translated back. */
  lemma SelfIsDropped(cfg: Config, map4: seq<Mapping>, map6: seq<Mapping>)
    requires TablesOk(cfg, map4, map6) && SelfMap(cfg) !in map6
    ensures !Lookup6(cfg, map4, map6, cfg.local6).Found?
  {
    hide Offset, Extract, Shl, Shr, Low, Pow2, ClearLow, Aligned, Validate4, Private4, Valid6, StrictWellKnown, Ordered4, Disjoint6;
    var m :| m in map6 && m.Rfc6052? && cfg.local6 == Append(m, cfg.local4);
    MatchIsUnique6(map6, cfg.local6, m);
    ExtractIffEmbedded(m.prefixLen, m.prefix, cfg.local6, cfg.local4);
    HostMatchesItself(map4, SelfMap(cfg));
  }

  /** No two IPv4 addresses are translated to one cacheable IPv6 address. */
  lemma Lookup4Injective(cfg: Config, map4: seq<Mapping>, map6: seq<Mapping>, a1: Ip4, a2: Ip4, b: Ip6)
    requires TablesOk(cfg, map4, map6)
    requires Lookup4(cfg, map4, map6, a1) == Found(b, true)
    requires Lookup4(cfg, map4, map6, a2) == Found(b, true)
    ensures a1 == a2
  {
    hide Offset, Extract, Shl, Shr, Low, Pow2, ClearLow, Aligned, Validate4, Private4, Valid6, StrictWellKnown, Ordered4, Disjoint6;
    Lookup4Covered(cfg, map4, map6, a1, b);
    Lookup4Covered(cfg, map4, map6, a2, b);
    var m1, m2 := FindMap4(map4, a1).value, FindMap4(map4, a2).value;
    if m1 in map6 && m2 in map6 {
      assert m1 == m2;
      SameEntryInjective(m1, a1, a2, b);
    } else if m1 !in map6 && m2 !in map6 {
      Whole(a1);
      Whole(a2);
    } else if m1 !in map6 {
      OwnAddressIsApart(cfg, map4, map6, a1, a2, b);
    } else {
      OwnAddressIsApart(cfg, map4, map6, a2, a1, b);
    }
  }

  lemma SameEntryInjective(m: Mapping, a1: Ip4, a2: Ip4, b: Ip6)
    requires Admitted(m) && !m.Pool? && m.Covers4(a1) && m.Covers4(a2) && m.Covers6(b)
    requires m.Static? ==> b == Embed(m, a1) == Embed(m, a2)
    requires m.Rfc6052? ==> b == Append(m, a1) == Append(m, a2)
    ensures a1 == a2
  {
    hide Offset, Extract, Shl, Shr, Low, Pow2, ClearLow, Aligned;
    if m.Static? {
      ExtractUndoesEmbed(m, a1);
      ExtractUndoesEmbed(m, a2);
    } else if m.Rfc6052? {
      ExtractIffEmbedded(m.prefixLen, m.prefix, b, a1);
      ExtractIffEmbedded(m.prefixLen, m.prefix, b, a2);
    } else {
      Whole(a1);
      Whole(a2);
    }
  }

  /** The generated own IPv6 address is nobody else's translation. */
  lemma OwnAddressIsApart(cfg: Config, map4: seq<Mapping>, map6: seq<Mapping>, a1: Ip4, a2: Ip4, b: Ip6)
    requires TablesOk(cfg, map4, map6)
    requires Lookup4(cfg, map4, map6, a1) == Found(b, true)
    requires Lookup4(cfg, map4, map6, a2) == Found(b, true)
    requires FindMap4(map4, a1).Some? && FindMap4(map4, a1).value !in map6
    ensures FindMap4(map4, a2).Some? && FindMap4(map4, a2).value !in map6
  {
    hide Offset, Extract, Shl, Shr, Low, Pow2, ClearLow, Aligned, Validate4, Private4, Valid6, StrictWellKnown, Ordered4, Disjoint6;
    Lookup4Covered(cfg, map4, map6, a1, b);
    Lookup4Covered(cfg, map4, map6, a2, b);
    Whole(a1);
    Whole(0);
    var p :| p in map6 && p.Rfc6052? && cfg.local6 == Append(p, cfg.local4);
    MatchIsUnique6(map6, b, p);
    ExtractIffEmbedded(p.prefixLen, p.prefix, b, cfg.local4);
    ExtractIffEmbedded(p.prefixLen, p.prefix, b, a2);
    HostMatchesItself(map4, SelfMap(cfg));
  }
}
