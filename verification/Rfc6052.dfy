/** Embedding of IPv4 addresses in IPv6 prefixes, section 2.2 of RFC 6052.

    For the lengths below 96 the address is cut in two around bits 64 to 71,
    which stay zero: 64 - len bits before the cut, len - 32 bits after it, and
    zeros in the 88 - len bits that remain. */
module Rfc6052 {
  import opened Bits
  import opened AddressTables
  import opened Wrappers

  predicate PrefixLength(len: nat) {
    len == 32 || len == 40 || len == 48 || len == 56 || len == 64 || len == 96
  }

  /** Fields x (64 - len bits), u (8 bits), y (len - 32 bits), z (88 - len bits), from the top. */
  function Compose(len: nat, x: nat, u: nat, y: nat, z: nat): (h: nat)
    requires 32 <= len <= 64
  {
    Shl(Shl(Shl(x, 8) + u, len - 32) + y, 88 - len) + z
  }

  /** The host part that embeds a. */
  function Offset(len: nat, a: Ip4): (h: nat)
    requires PrefixLength(len)
  {
    if len == 96 then a else Compose(len, Shr(a, len - 32), 0, Low(a, len - 32), 0)
  }

  /** The fields of b; the address is x followed by y, if u and z are zero. */
  function Fields(len: nat, b: nat): (f: (nat, nat, nat, nat))
    requires 32 <= len <= 64
    ensures f.0 < Pow2(64 - len) && f.2 < Pow2(len - 32)
  {
    var b1 := Shr(b, 88 - len);
    var b2 := Shr(b1, len - 32);
    (Low(Shr(b2, 8), 64 - len), Low(b2, 8), Low(b1, len - 32), Low(b, 88 - len))
  }

  /** The embedded address, or nothing when a reserved bit is set. */
  function Extract(len: nat, b: Ip6): (r: Option<Ip4>)
    requires PrefixLength(len)
    ensures r == None <==> len != 96 && (Fields(len, b).1 != 0 || Fields(len, b).3 != 0)
  {
    assert Pow2(32) == 0x1_0000_0000 by { Pow2Values(); }
    if len == 96 then Some(Low(b, 32))
    else
      var (x, u, y, z) := Fields(len, b);
      JoinBound(x, 64 - len, y, len - 32);
      if u != 0 || z != 0 then None else Some(Shl(x, len - 32) + y)
  }

  lemma ComposeBound(j: nat, k: nat, l: nat, x: nat, u: nat, y: nat, z: nat)
    requires x < Pow2(j) && u < Pow2(8) && y < Pow2(k) && z < Pow2(l)
    ensures Shl(Shl(Shl(x, 8) + u, k) + y, l) + z < Pow2(j + 8 + k + l)
  {
    hide Shl, Shr, Low, Pow2, ClearLow;
    JoinBound(x, j, u, 8);
    JoinBound(Shl(x, 8) + u, j + 8, y, k);
    JoinBound(Shl(Shl(x, 8) + u, k) + y, j + 8 + k, z, l);
  }

  lemma OffsetBound(len: nat, a: Ip4)
    requires PrefixLength(len)
    ensures Offset(len, a) < Pow2(128 - len)
  {
    hide Shl, Shr, Low, Pow2, ClearLow;
    assert Pow2(32) == 0x1_0000_0000 by { Pow2Values(); }
    if len != 96 {
      ShrBound(a, 64 - len, len - 32);
      ComposeBound(64 - len, len - 32, 88 - len, Shr(a, len - 32), 0, Low(a, len - 32), 0);
    }
  }

  /** Composing fields and reading fields are inverse on the host part h of b. */
  lemma FieldsOfHost(len: nat, b: nat, x: nat, u: nat, y: nat, z: nat)
    requires 32 <= len <= 64
    requires u < Pow2(8) && y < Pow2(len - 32) && z < Pow2(88 - len)
    ensures Low(b, 128 - len) == Compose(len, x, u, y, z) <==> Fields(len, b) == (x, u, y, z)
  {
    hide Shl, Shr, Low, Pow2, ClearLow;
    var h := Low(b, 128 - len);
    var c2 := Shl(x, 8) + u;
    var c1 := Shl(c2, len - 32) + y;
    var h1 := Shr(h, 88 - len);
    JoinIff(h, c1, z, 88 - len);
    JoinIff(h1, c2, y, len - 32);
    JoinIff(Shr(h1, len - 32), x, u, 8);
    FieldsOfAddress(len, b);
  }

  /** Reading the fields from the whole address or from its host part is the same. */
  lemma FieldsOfAddress(len: nat, b: nat)
    requires 32 <= len <= 64
    ensures var h := Low(b, 128 - len);
            var h1 := Shr(h, 88 - len);
            var h2 := Shr(h1, len - 32);
            Fields(len, b) == (Shr(h2, 8), Low(h2, 8), Low(h1, len - 32), Low(h, 88 - len))
  {
    hide Shl, Shr, Low, Pow2, ClearLow;
    var b1 := Shr(b, 88 - len);
    ShrOfLow(b, 40, 88 - len);
    ShrOfLow(b1, 72 - len, len - 32);
    ShrOfLow(Shr(b1, len - 32), 64 - len, 8);
  }

  /** For an address in the prefix, extraction yields a exactly on the embedding of a. */
  lemma ExtractIffEmbedded(len: nat, p: Ip6, b: Ip6, a: Ip4)
    requires PrefixLength(len) && ClearLow(b, 128 - len) == p
    ensures Extract(len, b) == Some(a) <==> b == p + Offset(len, a)
  {
    hide Shl, Shr, Low, Pow2, ClearLow;
    LowAndClear(b, 128 - len);
    if len != 96 {
      FieldsOfHost(len, b, Shr(a, len - 32), 0, Low(a, len - 32), 0);
      var (x, u, y, z) := Fields(len, b);
      JoinIff(a, x, y, len - 32);
    }
  }
}
