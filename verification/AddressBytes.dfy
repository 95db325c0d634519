/** RFC 6052 addresses byte by byte, as the discovery helper writes and reads them. */
module AddressBytes {
  import opened Bits
  import opened Wrappers
  import opened AddressTables
  import opened Rfc6052
  import opened Checksum

  type Bytes = seq<Byte>

  /** The number the bytes spell, the first one on top. */
  function Num(s: Bytes): (n: nat) {
    if s == [] then 0 else Shl(Num(s[..|s| - 1]), 8) + s[|s| - 1]
  }

  lemma ByteBound(b: Byte)
    ensures b < Pow2(8)
  {
    Pow2Values();
  }

  lemma {:induction false} NumBound(s: Bytes)
    ensures Num(s) < Pow2(8 * |s|)
  {
    hide Pow2, Shl;
    if s == [] {
      assert Pow2(0) > 0;
    } else {
      NumBound(s[..|s| - 1]);
      ByteBound(s[|s| - 1]);
      JoinBound(Num(s[..|s| - 1]), 8 * (|s| - 1), s[|s| - 1], 8);
    }
  }

  lemma ShlNested(a: nat, b: nat, m: nat, n: nat)
    ensures Shl(Shl(a, m) + b, n) == Shl(a, m + n) + Shl(b, n)
    decreases n
  {
    if n > 0 {
      ShlNested(a, b, m, n - 1);
    }
  }

  /** The number of two strings of bytes, one after the other. */
  lemma {:induction false} NumJoin(s: Bytes, t: Bytes)
    ensures Num(s + t) == Shl(Num(s), 8 * |t|) + Num(t)
    decreases |t|
  {
    hide Shl;
    if t == [] {
      assert s + t == s;
      ShlNone(Num(s));
    } else {
      var n := |t| - 1;
      assert (s + t)[..|s| + n] == s + t[..n];
      NumJoin(s, t[..n]);
      ShlNested(Num(s), Num(t[..n]), 8 * n, 8);
    }
  }

  lemma ShlNone(a: nat)
    ensures Shl(a, 0) == a
  {
  }

  lemma {:induction false} ZerosNum(n: nat)
    ensures Num(Zeros(n)) == 0
  {
    if n == 0 {
    } else {
      assert Zeros(n)[..n - 1] == Zeros(n - 1);
      ZerosNum(n - 1);
      assert Shl(0, 8) == 0;
    }
  }

  /** Different bytes spell different numbers. */
  lemma {:induction false} NumInjective(s: Bytes, t: Bytes)
    requires |s| == |t| && Num(s) == Num(t)
    ensures s == t
  {
    hide Shl, Shr, Low, Pow2;
    if s == [] {
    } else {
      var n := |s| - 1;
      ByteBound(s[n]);
      ByteBound(t[n]);
      JoinParts(Num(s[..n]), s[n], 8);
      JoinParts(Num(t[..n]), t[n], 8);
      NumInjective(s[..n], t[..n]);
      assert s == s[..n] + [s[n]] && t == t[..n] + [t[n]];
    }
  }

  /** The bytes that spell x. */
  function Spell(x: nat, n: nat): (s: Bytes)
    ensures |s| == n
    decreases n
  {
    assert Low(x, 8) < 256 by { Pow2Values(); }
    if n == 0 then [] else Spell(Shr(x, 8), n - 1) + [Low(x, 8)]
  }

  lemma {:induction false} SpellNum(x: nat, n: nat)
    requires x < Pow2(8 * n)
    ensures Num(Spell(x, n)) == x
    decreases n
  {
    hide Shl, Shr, Low, Pow2;
    if n == 0 {
      assert x == 0 by { OneBelow(x); }
    } else {
      ShrBound(x, 8 * (n - 1), 8);
      SpellNum(Shr(x, 8), n - 1);
      PartsJoin(x, 8);
      var s := Spell(x, n);
      assert s[..n - 1] == Spell(Shr(x, 8), n - 1);
    }
  }

  lemma OneBelow(x: nat)
    requires x < Pow2(0)
    ensures x == 0
  {
  }

  // ------------------------------------------------------------ embedding

  /** How many address bytes stand before the reserved octet. */
  function Before(len: nat): (k: nat)
    requires PrefixLength(len)
  {
    if len == 96 then 4 else (64 - len) / 8
  }

  /** The bytes behind the prefix: the address around the reserved octet, then zeros. */
  function HostBytes(len: nat, a: Bytes): (h: Bytes)
    requires PrefixLength(len) && |a| == 4
    ensures |h| == 16 - len / 8
  {
    if len == 96 then a else a[..Before(len)] + [0] + a[Before(len)..] + Zeros(11 - len / 8)
  }

  /** `synthesize_pref64` */
  function Synthesize(len: nat, p: Bytes, a: Bytes): (r: Bytes)
    requires PrefixLength(len) && |p| == 16 && |a| == 4
    ensures |r| == 16
  {
    p[..len / 8] + HostBytes(len, a)
  }

  /** The prefix without what stands behind it. */
  function Cleared(len: nat, b: Bytes): (p: Bytes)
    requires PrefixLength(len) && |b| == 16
    ensures |p| == 16
  {
    b[..len / 8] + Zeros(16 - len / 8)
  }

  lemma HostNum(len: nat, a: Bytes)
    requires PrefixLength(len) && |a| == 4
    ensures Num(a) < 0x1_0000_0000 && Num(HostBytes(len, a)) == Offset(len, Num(a))
  {
    hide Shl, Shr, Low, Pow2, Num;
    NumBound(a);
    Pow2Values();
    if len != 96 {
      var k := Before(len);
      var x, y := a[..k], a[k..];
      assert a == x + y;
      NumJoin(x, y);
      NumBound(y);
      JoinParts(Num(x), Num(y), 8 * |y|);
      ZerosNum(11 - len / 8);
      NumJoin(x, [0]);
      ZeroByte();
      NumJoin(x + [0], y);
      NumJoin(x + [0] + y, Zeros(11 - len / 8));
      assert 8 * |y| == len - 32 && 8 * (11 - len / 8) == 88 - len;
    }
  }

  lemma ZeroByte()
    ensures Num([0]) == 0
  {
    assert Shl(0, 8) == 0;
  }

  /** The bytes of a synthesized address spell the prefix plus the embedded address. */
  lemma SynthesizeIsAppend(len: nat, p: Bytes, a: Bytes)
    requires PrefixLength(len) && |p| == 16 && |a| == 4
    ensures Num(a) < 0x1_0000_0000
    ensures Num(Synthesize(len, p, a)) == Num(Cleared(len, p)) + Offset(len, Num(a))
  {
    hide Num, HostBytes, Offset;
    HostNum(len, a);
    NumJoin(p[..len / 8], HostBytes(len, a));
    NumJoin(p[..len / 8], Zeros(16 - len / 8));
    ZerosNum(16 - len / 8);
  }

  // ------------------------------------------------------------ extraction

  /** `extract_from_prefix`: the reserved octet and what follows the address must be zero. */
  function ExtractBytes(len: nat, b: Bytes): (r: Option<Bytes>)
    requires PrefixLength(len) && |b| == 16
    ensures r.Some? ==> |r.value| == 4
  {
    if len == 96 then Some(b[12..16])
    else if b[8] != 0 || !AllZero(b[5 + len / 8..]) then None
    else Some(b[len / 8..8] + b[9..5 + len / 8])
  }

  /** The five parts of a string of bytes. */
  lemma Parts(o: Bytes, x: Bytes, u: Byte, y: Bytes, z: Bytes)
    ensures var (r, n, m) := (o + (x + [u] + y + z), |o| + |x|, |o| + |x| + 1 + |y|);
      && r[..|o|] == o && r[|o|..n] == x && r[n] == u && r[n + 1..m] == y && r[m..] == z
  {
  }

  lemma Shape(len: nat, n: nat, p: Bytes, a: Bytes)
    requires PrefixLength(len) && len != 96 && len == 8 * n && |p| == 16 && |a| == 4
    ensures Synthesize(len, p, a) == p[..n] + (a[..8 - n] + [0] + a[8 - n..] + Zeros(11 - n))
  {
    hide Zeros;
    assert len / 8 == n && Before(len) == 8 - n;
  }

  lemma SynthesizedParts(len: nat, p: Bytes, a: Bytes)
    requires PrefixLength(len) && len != 96 && |p| == 16 && |a| == 4
    ensures var (r, n) := (Synthesize(len, p, a), len / 8);
      && r[8] == 0 && r[n..8] == a[..8 - n] && r[9..5 + n] == a[8 - n..] && r[5 + n..] == Zeros(11 - n)
      && r[..n] == p[..n]
  {
    hide Zeros, Synthesize;
    var n := len / 8;
    Shape(len, n, p, a);
    var o, x, y, z := p[..n], a[..8 - n], a[8 - n..], Zeros(11 - n);
    assert |o| == n && |o| + |x| == 8 && |o| + |x| + 1 + |y| == 5 + n;
    Parts(o, x, 0, y, z);
  }

  lemma FromParts(len: nat, b: Bytes, a: Bytes)
    requires PrefixLength(len) && len != 96 && |b| == 16 && |a| == 4
    requires var n := len / 8;
      b[8] == 0 && b[n..8] == a[..8 - n] && b[9..5 + n] == a[8 - n..] && b[5 + n..] == Zeros(11 - n)
    ensures b == Synthesize(len, b, a)
  {
    hide Zeros, Synthesize;
    var n := len / 8;
    Shape(len, n, b, a);
    SplitFive(b, n, 8, 5 + n);
  }

  lemma SplitFive(b: Bytes, i: nat, j: nat, k: nat)
    requires i <= j < k <= |b|
    ensures b == b[..i] + (b[i..j] + [b[j]] + b[j + 1..k] + b[k..])
  {
  }

  /** Extraction yields a exactly on the synthesized address of a. */
  lemma ExtractIffSynthesized(len: nat, b: Bytes, a: Bytes)
    requires PrefixLength(len) && |b| == 16 && |a| == 4
    ensures ExtractBytes(len, b) == Some(a) <==> b == Synthesize(len, b, a)
  {
    var n := len / 8;
    if len == 96 {
      assert b == b[..12] + b[12..16];
    } else {
      hide Synthesize;
      SynthesizedParts(len, b, a);
      if ExtractBytes(len, b) == Some(a) {
        assert a[..8 - n] == b[n..8] && a[8 - n..] == b[9..5 + n];
        assert b[5 + n..] == Zeros(11 - n);
        FromParts(len, b, a);
      }
      if b == Synthesize(len, b, a) {
        assert b[n..8] + b[9..5 + n] == a;
        assert AllZero(b[5 + n..]);
      }
    }
  }

  lemma ClearedIsPrefix(len: nat, b: Bytes)
    requires PrefixLength(len) && |b| == 16
    ensures ClearLow(Num(b), 128 - len) == Num(Cleared(len, b))
  {
    hide Num, Shl, Low, Pow2, ClearLow, Shr;
    var n := len / 8;
    assert b == b[..n] + b[n..];
    NumJoin(b[..n], b[n..]);
    NumJoin(b[..n], Zeros(16 - n));
    ZerosNum(16 - n);
    NumBound(b[n..]);
    JoinParts(Num(b[..n]), Num(b[n..]), 128 - len);
    LowAndClear(Num(b), 128 - len);
  }

  /** Reading bytes and reading numbers give the same address, or both refuse. */
  lemma ExtractsAgree(len: nat, b: Bytes)
    requires PrefixLength(len) && |b| == 16
    ensures Num(b) < 0x1_0000_0000_0000_0000_0000_0000_0000_0000
    ensures ExtractBytes(len, b).Some? ==> Extract(len, Num(b)) == Some(Num(ExtractBytes(len, b).value))
    ensures ExtractBytes(len, b) == None ==> Extract(len, Num(b)) == None
  {
    hide Num, Extract, Offset, ExtractBytes, Pow2, Synthesize, Cleared, ClearLow;
    NumBound(b);
    Pow2Wide();
    var p := Cleared(len, b);
    ClearedIsPrefix(len, b);
    NumBound(p);
    match ExtractBytes(len, b) {
      case Some(a) =>
        ExtractIffSynthesized(len, b, a);
        SynthesizeIsAppend(len, b, a);
        ExtractIffEmbedded(len, Num(p), Num(b), Num(a));
      case None =>
        if Extract(len, Num(b)).Some? {
          var x := Extract(len, Num(b)).value;
          ExtractIffEmbedded(len, Num(p), Num(b), x);
          Pow2Values();
          SpellNum(x, 4);
          SynthesizeIsAppend(len, b, Spell(x, 4));
          NumInjective(b, Synthesize(len, b, Spell(x, 4)));
          ExtractIffSynthesized(len, b, Spell(x, 4));
        }
    }
  }
}
