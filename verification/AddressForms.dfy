/** RFC 6052 embedding in its three forms: words of a big-endian machine, words of a
    little-endian machine, and bytes. */
module AddressForms {
  import opened Wrappers
  import opened Rfc6052
  import opened Checksum
  import A = AddressBytes

  type Octets = s: seq<bv8> | |s| == 16 witness seq(16, i => 0)
  type Octets4 = s: seq<bv8> | |s| == 4 witness [0, 0, 0, 0]

  datatype Words = Words(w0: bv32, w1: bv32, w2: bv32, w3: bv32)

  // ------------------------------------------------------------ bytes as machine words

  function Or(x: bv32, y: bv32): (r: bv32) { x | y }
  function And(x: bv32, y: bv32): (r: bv32) { x & y }
  function Up8(x: bv32): (r: bv32) { x << 8 }
  function Up16(x: bv32): (r: bv32) { x << 16 }
  function Up24(x: bv32): (r: bv32) { x << 24 }
  function Down8(x: bv32): (r: bv32) { x >> 8 }
  function Down16(x: bv32): (r: bv32) { x >> 16 }
  function Down24(x: bv32): (r: bv32) { x >> 24 }

  function Big(a: bv8, b: bv8, c: bv8, d: bv8): (w: bv32) {
    ((a as bv32) << 24) | ((b as bv32) << 16) | ((c as bv32) << 8) | (d as bv32)
  }

  function Little(a: bv8, b: bv8, c: bv8, d: bv8): (w: bv32) {
    (a as bv32) | ((b as bv32) << 8) | ((c as bv32) << 16) | ((d as bv32) << 24)
  }

  function Word(big: bool, a: bv8, b: bv8, c: bv8, d: bv8): (w: bv32) {
    if big then Big(a, b, c, d) else Little(a, b, c, d)
  }

  /** What a machine of either byte order reads in the 16 bytes. */
  function Load(big: bool, b: Octets): (w: Words) {
    Words(Word(big, b[0], b[1], b[2], b[3]), Word(big, b[4], b[5], b[6], b[7]),
          Word(big, b[8], b[9], b[10], b[11]), Word(big, b[12], b[13], b[14], b[15]))
  }

  function Load4(big: bool, a: Octets4): (w: bv32) {
    Word(big, a[0], a[1], a[2], a[3])
  }

  // ------------------------------------------------------------ bytes

  /** The bytes of section 2.2 of RFC 6052: the address around the reserved octet 8. */
  function Synthesize(len: nat, p: Octets, a: Octets4): (r: Octets)
    requires PrefixLength(len)
  {
    if len == 96 then p[..12] + a
    else if len == 64 then p[..8] + [0, a[0], a[1], a[2], a[3], 0, 0, 0]
    else if len == 56 then p[..7] + [a[0], 0, a[1], a[2], a[3], 0, 0, 0, 0]
    else if len == 48 then p[..6] + [a[0], a[1], 0, a[2], a[3], 0, 0, 0, 0, 0]
    else if len == 40 then p[..5] + [a[0], a[1], a[2], 0, a[3], 0, 0, 0, 0, 0, 0]
    else p[..4] + [a[0], a[1], a[2], a[3], 0, 0, 0, 0, 0, 0, 0, 0]
  }

  /** The prefix has no bits beyond its length. */
  predicate Clean(len: nat, p: Octets)
    requires PrefixLength(len)
  {
    forall i :: len / 8 <= i < 16 ==> p[i] == 0
  }

  // ------------------------------------------------------------ words

  /** `append_to_prefix`, with the expressions of either byte order. */
  function AppendWords(big: bool, len: nat, p: Words, a: bv32): (r: Words)
    requires PrefixLength(len)
  {
    if len == 32 then Words(p.w0, a, 0, 0)
    else if len == 40 then
      if big then Words(p.w0, Or(p.w1, Down8(a)), And(Up16(a), 0x00ff0000), 0)
      else Words(p.w0, Or(p.w1, Up8(a)), And(Down16(a), 0x0000ff00), 0)
    else if len == 48 then
      if big then Words(p.w0, Or(p.w1, Down16(a)), And(Up8(a), 0x00ffff00), 0)
      else Words(p.w0, Or(p.w1, Up16(a)), And(Down8(a), 0x00ffff00), 0)
    else if len == 56 then
      if big then Words(p.w0, Or(p.w1, Down24(a)), And(a, 0x00ffffff), 0)
      else Words(p.w0, Or(p.w1, Up24(a)), And(a, 0xffffff00), 0)
    else if len == 64 then
      if big then Words(p.w0, p.w1, Down8(a), Up24(a))
      else Words(p.w0, p.w1, Up8(a), Down24(a))
    else Words(p.w0, p.w1, p.w2, a)
  }

  // One lemma for each byte order and length: the expressions move whole bytes.

  lemma Big40(p: bv8, a: bv8, b: bv8, c: bv8, d: bv8)
    ensures Or(Big(p, 0, 0, 0), Down8(Big(a, b, c, d))) == Big(p, a, b, c)
    ensures And(Up16(Big(a, b, c, d)), 0x00ff0000) == Big(0, d, 0, 0)
  {
  }

  lemma Big48(p: bv8, q: bv8, a: bv8, b: bv8, c: bv8, d: bv8)
    ensures Or(Big(p, q, 0, 0), Down16(Big(a, b, c, d))) == Big(p, q, a, b)
    ensures And(Up8(Big(a, b, c, d)), 0x00ffff00) == Big(0, c, d, 0)
  {
  }

  lemma Big56(p: bv8, q: bv8, r: bv8, a: bv8, b: bv8, c: bv8, d: bv8)
    ensures Or(Big(p, q, r, 0), Down24(Big(a, b, c, d))) == Big(p, q, r, a)
    ensures And(Big(a, b, c, d), 0x00ffffff) == Big(0, b, c, d)
  {
  }

  lemma Big64(a: bv8, b: bv8, c: bv8, d: bv8)
    ensures Down8(Big(a, b, c, d)) == Big(0, a, b, c)
    ensures Up24(Big(a, b, c, d)) == Big(d, 0, 0, 0)
    ensures Big(0, 0, 0, 0) == 0
  {
  }

  lemma Little40(p: bv8, a: bv8, b: bv8, c: bv8, d: bv8)
    ensures Or(Little(p, 0, 0, 0), Up8(Little(a, b, c, d))) == Little(p, a, b, c)
    ensures And(Down16(Little(a, b, c, d)), 0x0000ff00) == Little(0, d, 0, 0)
  {
  }

  lemma Little48(p: bv8, q: bv8, a: bv8, b: bv8, c: bv8, d: bv8)
    ensures Or(Little(p, q, 0, 0), Up16(Little(a, b, c, d))) == Little(p, q, a, b)
    ensures And(Down8(Little(a, b, c, d)), 0x00ffff00) == Little(0, c, d, 0)
  {
  }

  lemma Little56(p: bv8, q: bv8, r: bv8, a: bv8, b: bv8, c: bv8, d: bv8)
    ensures Or(Little(p, q, r, 0), Up24(Little(a, b, c, d))) == Little(p, q, r, a)
    ensures And(Little(a, b, c, d), 0xffffff00) == Little(0, b, c, d)
  {
  }

  lemma Little64(a: bv8, b: bv8, c: bv8, d: bv8)
    ensures Up8(Little(a, b, c, d)) == Little(0, a, b, c)
    ensures Down24(Little(a, b, c, d)) == Little(d, 0, 0, 0)
    ensures Little(0, 0, 0, 0) == 0
  {
  }

  lemma Agree32(big: bool, p: Octets, a: Octets4)
    requires p[4] == 0 && p[5] == 0 && p[6] == 0 && p[7] == 0
    ensures AppendWords(big, 32, Load(big, p), Load4(big, a)) == Load(big, Synthesize(32, p, a))
  {
    hide Big, Little, Or, And, Up8, Up16, Up24, Down8, Down16, Down24;
    var r := Synthesize(32, p, a);
    if big { Big64(a[0], a[1], a[2], a[3]); } else { Little64(a[0], a[1], a[2], a[3]); }
  }

  lemma Agree40(big: bool, p: Octets, a: Octets4)
    requires p[5] == 0 && p[6] == 0 && p[7] == 0
    ensures AppendWords(big, 40, Load(big, p), Load4(big, a)) == Load(big, Synthesize(40, p, a))
  {
    hide Big, Little, Or, And, Up8, Up16, Up24, Down8, Down16, Down24;
    var r := Synthesize(40, p, a);
    if big { Big64(a[0], a[1], a[2], a[3]); } else { Little64(a[0], a[1], a[2], a[3]); }
    if big { Big40(p[4], a[0], a[1], a[2], a[3]); } else { Little40(p[4], a[0], a[1], a[2], a[3]); }
  }

  lemma Agree48(big: bool, p: Octets, a: Octets4)
    requires p[6] == 0 && p[7] == 0
    ensures AppendWords(big, 48, Load(big, p), Load4(big, a)) == Load(big, Synthesize(48, p, a))
  {
    hide Big, Little, Or, And, Up8, Up16, Up24, Down8, Down16, Down24;
    var r := Synthesize(48, p, a);
    if big { Big64(a[0], a[1], a[2], a[3]); } else { Little64(a[0], a[1], a[2], a[3]); }
    if big { Big48(p[4], p[5], a[0], a[1], a[2], a[3]); } else { Little48(p[4], p[5], a[0], a[1], a[2], a[3]); }
  }

  lemma Agree56(big: bool, p: Octets, a: Octets4)
    requires p[7] == 0
    ensures AppendWords(big, 56, Load(big, p), Load4(big, a)) == Load(big, Synthesize(56, p, a))
  {
    hide Big, Little, Or, And, Up8, Up16, Up24, Down8, Down16, Down24;
    var r := Synthesize(56, p, a);
    if big { Big64(a[0], a[1], a[2], a[3]); } else { Little64(a[0], a[1], a[2], a[3]); }
    if big { Big56(p[4], p[5], p[6], a[0], a[1], a[2], a[3]); } else { Little56(p[4], p[5], p[6], a[0], a[1], a[2], a[3]); }
  }

  lemma Agree64(big: bool, p: Octets, a: Octets4)
    ensures AppendWords(big, 64, Load(big, p), Load4(big, a)) == Load(big, Synthesize(64, p, a))
  {
    hide Big, Little, Or, And, Up8, Up16, Up24, Down8, Down16, Down24;
    var r := Synthesize(64, p, a);
    if big { Big64(a[0], a[1], a[2], a[3]); } else { Little64(a[0], a[1], a[2], a[3]); }
  }

  lemma Agree96(big: bool, p: Octets, a: Octets4)
    ensures AppendWords(big, 96, Load(big, p), Load4(big, a)) == Load(big, Synthesize(96, p, a))
  {
    hide Big, Little, Or, And, Up8, Up16, Up24, Down8, Down16, Down24;
    var r := Synthesize(96, p, a);
  }

  /** Both byte orders store the same sixteen bytes, and they are the helper's bytes. */
  lemma FormsAgree(big: bool, len: nat, p: Octets, a: Octets4)
    requires PrefixLength(len) && Clean(len, p)
    ensures AppendWords(big, len, Load(big, p), Load4(big, a)) == Load(big, Synthesize(len, p, a))
  {
    hide AppendWords, Load, Load4, Synthesize;
    if len == 32 { Agree32(big, p, a); }
    else if len == 40 { Agree40(big, p, a); }
    else if len == 48 { Agree48(big, p, a); }
    else if len == 56 { Agree56(big, p, a); }
    else if len == 64 { Agree64(big, p, a); }
    else { Agree96(big, p, a); }
  }

  // ------------------------------------------------------------ extraction

  /** `extract_from_prefix`, with the expressions of either byte order: words where it reads
      words, and the single octets and the half word it reads beside them. */
  function ExtractWords(big: bool, len: nat, b: Octets): (r: Option<bv32>)
    requires PrefixLength(len)
  {
    var w := Load(big, b);
    if len == 32 then
      if w.w2 != 0 || w.w3 != 0 then None else Some(w.w1)
    else if len == 40 then
      if And(w.w2, Word(big, 0xff, 0x00, 0xff, 0xff)) != 0 || w.w3 != 0 then None
      else if big then Some(Or(Up8(w.w1), b[9] as bv32))
      else Some(Or(Down8(w.w1), Up16(w.w2)))
    else if len == 48 then
      if And(w.w2, Word(big, 0xff, 0x00, 0x00, 0xff)) != 0 || w.w3 != 0 then None
      else if big then Some(Or(Up16(Half(big, b[6], b[7])), Down8(w.w2)))
      else Some(Or(Half(big, b[6], b[7]), Up8(w.w2)))
    else if len == 56 then
      if b[8] != 0 || w.w3 != 0 then None
      else if big then Some(Or(Up24(b[7] as bv32), w.w2))
      else Some(Or(b[7] as bv32, w.w2))
    else if len == 64 then
      if b[8] != 0 || And(w.w3, Word(big, 0x00, 0xff, 0xff, 0xff)) != 0 then None
      else if big then Some(Or(Up8(w.w2), b[12] as bv32))
      else Some(Or(Down8(w.w2), Up24(w.w3)))
    else Some(w.w3)
  }

  function Half(big: bool, a: bv8, b: bv8): (h: bv32) {
    if big then ((a as bv32) << 8) | (b as bv32) else (a as bv32) | ((b as bv32) << 8)
  }

  /** What is read byte by byte. */
  function ExtractOctets(len: nat, b: Octets): (r: Option<Octets4>)
    requires PrefixLength(len)
  {
    if len == 96 then Some([b[12], b[13], b[14], b[15]])
    else if b[8] != 0 || b[13] != 0 || b[14] != 0 || b[15] != 0 then None
    else if len == 64 then Some([b[9], b[10], b[11], b[12]])
    else if b[12] != 0 then None
    else if len == 56 then Some([b[7], b[9], b[10], b[11]])
    else if b[11] != 0 then None
    else if len == 48 then Some([b[6], b[7], b[9], b[10]])
    else if b[10] != 0 then None
    else if len == 40 then Some([b[5], b[6], b[7], b[9]])
    else if b[9] != 0 then None
    else Some([b[4], b[5], b[6], b[7]])
  }

  lemma BigMasks(a: bv8, b: bv8, c: bv8, d: bv8)
    ensures And(Big(a, b, c, d), Big(0xff, 0x00, 0xff, 0xff)) == 0 <==> a == 0 && c == 0 && d == 0
    ensures And(Big(a, b, c, d), Big(0xff, 0x00, 0x00, 0xff)) == 0 <==> a == 0 && d == 0
    ensures And(Big(a, b, c, d), Big(0x00, 0xff, 0xff, 0xff)) == 0 <==> b == 0 && c == 0 && d == 0
    ensures Big(a, b, c, d) == 0 <==> a == 0 && b == 0 && c == 0 && d == 0
  {
    BigMask1(a, b, c, d);
    BigMask2(a, b, c, d);
    BigMask3(a, b, c, d);
    BigMask4(a, b, c, d);
    hide And, Big;
  }

  lemma BigMask1(a: bv8, b: bv8, c: bv8, d: bv8)
    ensures And(Big(a, b, c, d), Big(0xff, 0x00, 0xff, 0xff)) == 0 <==> a == 0 && c == 0 && d == 0
  {
  }

  lemma BigMask2(a: bv8, b: bv8, c: bv8, d: bv8)
    ensures And(Big(a, b, c, d), Big(0xff, 0x00, 0x00, 0xff)) == 0 <==> a == 0 && d == 0
  {
  }

  lemma BigMask3(a: bv8, b: bv8, c: bv8, d: bv8)
    ensures And(Big(a, b, c, d), Big(0x00, 0xff, 0xff, 0xff)) == 0 <==> b == 0 && c == 0 && d == 0
  {
  }

  lemma BigMask4(a: bv8, b: bv8, c: bv8, d: bv8)
    ensures Big(a, b, c, d) == 0 <==> a == 0 && b == 0 && c == 0 && d == 0
  {
  }

  lemma BigShift(p: bv8, a: bv8, b: bv8, c: bv8, d: bv8)
    ensures Or(Up8(Big(p, a, b, c)), d as bv32) == Big(a, b, c, d)
  {
  }

  lemma BigHalf(a: bv8, b: bv8, c: bv8, d: bv8)
    ensures Or(Up16(Half(true, a, b)), Down8(Big(0, c, d, 0))) == Big(a, b, c, d)
  {
  }

  lemma BigTop(a: bv8, b: bv8, c: bv8, d: bv8)
    ensures Or(Up24(a as bv32), Big(0, b, c, d)) == Big(a, b, c, d)
  {
  }

  lemma LittleMasks(a: bv8, b: bv8, c: bv8, d: bv8)
    ensures And(Little(a, b, c, d), Little(0xff, 0x00, 0xff, 0xff)) == 0 <==> a == 0 && c == 0 && d == 0
    ensures And(Little(a, b, c, d), Little(0xff, 0x00, 0x00, 0xff)) == 0 <==> a == 0 && d == 0
    ensures And(Little(a, b, c, d), Little(0x00, 0xff, 0xff, 0xff)) == 0 <==> b == 0 && c == 0 && d == 0
    ensures Little(a, b, c, d) == 0 <==> a == 0 && b == 0 && c == 0 && d == 0
  {
    LittleMask1(a, b, c, d);
    LittleMask2(a, b, c, d);
    LittleMask3(a, b, c, d);
    LittleMask4(a, b, c, d);
    hide And, Little;
  }

  lemma LittleMask1(a: bv8, b: bv8, c: bv8, d: bv8)
    ensures And(Little(a, b, c, d), Little(0xff, 0x00, 0xff, 0xff)) == 0 <==> a == 0 && c == 0 && d == 0
  {
  }

  lemma LittleMask2(a: bv8, b: bv8, c: bv8, d: bv8)
    ensures And(Little(a, b, c, d), Little(0xff, 0x00, 0x00, 0xff)) == 0 <==> a == 0 && d == 0
  {
  }

  lemma LittleMask3(a: bv8, b: bv8, c: bv8, d: bv8)
    ensures And(Little(a, b, c, d), Little(0x00, 0xff, 0xff, 0xff)) == 0 <==> b == 0 && c == 0 && d == 0
  {
  }

  lemma LittleMask4(a: bv8, b: bv8, c: bv8, d: bv8)
    ensures Little(a, b, c, d) == 0 <==> a == 0 && b == 0 && c == 0 && d == 0
  {
  }

  lemma LittleShift(p: bv8, a: bv8, b: bv8, c: bv8, d: bv8)
    ensures Or(Down8(Little(p, a, b, c)), Up16(Little(0, d, 0, 0))) == Little(a, b, c, d)
    ensures Or(Down8(Little(p, a, b, c)), Up24(Little(d, 0, 0, 0))) == Little(a, b, c, d)
  {
  }

  lemma LittleHalf(a: bv8, b: bv8, c: bv8, d: bv8)
    ensures Or(Half(false, a, b), Up8(Little(0, c, d, 0))) == Little(a, b, c, d)
  {
  }

  lemma LittleTop(a: bv8, b: bv8, c: bv8, d: bv8)
    ensures Or(a as bv32, Little(0, b, c, d)) == Little(a, b, c, d)
  {
  }

  lemma BigReads32(b: Octets)
    ensures ExtractWords(true, 32, b) ==
      match ExtractOctets(32, b) case None => None case Some(a) => Some(Load4(true, a))
  {
    hide Big, Little, Half, Or, And, Up8, Up16, Up24, Down8, Down16, Down24;
    BigMasks(b[8], b[9], b[10], b[11]);
    BigMasks(b[12], b[13], b[14], b[15]);
  }

  lemma BigReads40(b: Octets)
    ensures ExtractWords(true, 40, b) ==
      match ExtractOctets(40, b) case None => None case Some(a) => Some(Load4(true, a))
  {
    hide Big, Little, Half, Or, And, Up8, Up16, Up24, Down8, Down16, Down24;
    BigMasks(b[8], b[9], b[10], b[11]);
    BigMasks(b[12], b[13], b[14], b[15]);
    BigShift(b[4], b[5], b[6], b[7], b[9]);
  }

  lemma BigReads48(b: Octets)
    ensures ExtractWords(true, 48, b) ==
      match ExtractOctets(48, b) case None => None case Some(a) => Some(Load4(true, a))
  {
    hide Big, Little, Half, Or, And, Up8, Up16, Up24, Down8, Down16, Down24;
    BigMasks(b[8], b[9], b[10], b[11]);
    BigMasks(b[12], b[13], b[14], b[15]);
    BigHalf(b[6], b[7], b[9], b[10]);
  }

  lemma BigReads56(b: Octets)
    ensures ExtractWords(true, 56, b) ==
      match ExtractOctets(56, b) case None => None case Some(a) => Some(Load4(true, a))
  {
    hide Big, Little, Half, Or, And, Up8, Up16, Up24, Down8, Down16, Down24;
    BigMasks(b[8], b[9], b[10], b[11]);
    BigMasks(b[12], b[13], b[14], b[15]);
    BigTop(b[7], b[9], b[10], b[11]);
  }

  lemma BigReads64(b: Octets)
    ensures ExtractWords(true, 64, b) ==
      match ExtractOctets(64, b) case None => None case Some(a) => Some(Load4(true, a))
  {
    hide Big, Little, Half, Or, And, Up8, Up16, Up24, Down8, Down16, Down24;
    BigMasks(b[8], b[9], b[10], b[11]);
    BigMasks(b[12], b[13], b[14], b[15]);
    BigShift(b[8], b[9], b[10], b[11], b[12]);
  }

  lemma LittleReads32(b: Octets)
    ensures ExtractWords(false, 32, b) ==
      match ExtractOctets(32, b) case None => None case Some(a) => Some(Load4(false, a))
  {
    hide Big, Little, Half, Or, And, Up8, Up16, Up24, Down8, Down16, Down24;
    LittleMasks(b[8], b[9], b[10], b[11]);
    LittleMasks(b[12], b[13], b[14], b[15]);
  }

  lemma LittleReads40(b: Octets)
    ensures ExtractWords(false, 40, b) ==
      match ExtractOctets(40, b) case None => None case Some(a) => Some(Load4(false, a))
  {
    hide Big, Little, Half, Or, And, Up8, Up16, Up24, Down8, Down16, Down24;
    LittleMasks(b[8], b[9], b[10], b[11]);
    LittleMasks(b[12], b[13], b[14], b[15]);
    LittleShift(b[4], b[5], b[6], b[7], b[9]);
  }

  lemma LittleReads48(b: Octets)
    ensures ExtractWords(false, 48, b) ==
      match ExtractOctets(48, b) case None => None case Some(a) => Some(Load4(false, a))
  {
    hide Big, Little, Half, Or, And, Up8, Up16, Up24, Down8, Down16, Down24;
    LittleMasks(b[8], b[9], b[10], b[11]);
    LittleMasks(b[12], b[13], b[14], b[15]);
    LittleHalf(b[6], b[7], b[9], b[10]);
  }

  lemma LittleReads56(b: Octets)
    ensures ExtractWords(false, 56, b) ==
      match ExtractOctets(56, b) case None => None case Some(a) => Some(Load4(false, a))
  {
    hide Big, Little, Half, Or, And, Up8, Up16, Up24, Down8, Down16, Down24;
    LittleMasks(b[8], b[9], b[10], b[11]);
    LittleMasks(b[12], b[13], b[14], b[15]);
    LittleTop(b[7], b[9], b[10], b[11]);
  }

  lemma LittleReads64(b: Octets)
    ensures ExtractWords(false, 64, b) ==
      match ExtractOctets(64, b) case None => None case Some(a) => Some(Load4(false, a))
  {
    hide Big, Little, Half, Or, And, Up8, Up16, Up24, Down8, Down16, Down24;
    LittleMasks(b[8], b[9], b[10], b[11]);
    LittleMasks(b[12], b[13], b[14], b[15]);
    LittleShift(b[8], b[9], b[10], b[11], b[12]);
  }

  /** Both byte orders accept the same addresses and read the same four bytes. */
  lemma ExtractFormsAgree(big: bool, len: nat, b: Octets)
    requires PrefixLength(len)
    ensures ExtractWords(big, len, b) ==
      match ExtractOctets(len, b) case None => None case Some(a) => Some(Load4(big, a))
  {
    if len == 96 {
    } else if big {
      hide ExtractWords, ExtractOctets, Load4;
      if len == 32 { BigReads32(b); }
      else if len == 40 { BigReads40(b); }
      else if len == 48 { BigReads48(b); }
      else if len == 56 { BigReads56(b); }
      else { BigReads64(b); }
    } else {
      hide ExtractWords, ExtractOctets, Load4;
      if len == 32 { LittleReads32(b); }
      else if len == 40 { LittleReads40(b); }
      else if len == 48 { LittleReads48(b); }
      else if len == 56 { LittleReads56(b); }
      else { LittleReads64(b); }
    }
  }

  // ------------------------------------------------------------ as numbers

  function N(b: bv8): (n: Byte) {
    b as nat
  }

  function Ns(s: seq<bv8>): (r: seq<Byte>)
    ensures |r| == |s| && forall i :: 0 <= i < |s| ==> r[i] == N(s[i])
  {
    seq(|s|, i requires 0 <= i < |s| => N(s[i]))
  }

  lemma NZero()
    ensures N(0) == 0
    ensures forall b: bv8 :: N(b) == 0 ==> b == 0
  {
  }

  lemma TailZero(b: Octets, k: nat)
    requires k <= 16
    ensures AllZero(Ns(b)[k..]) <==> forall i :: k <= i < 16 ==> b[i] == 0
  {
    hide N;
    NZero();
    var t := Ns(b);
    if AllZero(t[k..]) {
      forall i | k <= i < 16 ensures b[i] == 0 {
        assert t[k..][i - k] == t[i];
      }
    }
  }

  lemma Writes32(p: Octets, a: Octets4)
    ensures Ns(Synthesize(32, p, a)) == A.Synthesize(32, Ns(p), Ns(a))
  {
    hide N;
    NZero();
  }

  lemma Writes40(p: Octets, a: Octets4)
    ensures Ns(Synthesize(40, p, a)) == A.Synthesize(40, Ns(p), Ns(a))
  {
    hide N;
    NZero();
  }

  lemma Writes48(p: Octets, a: Octets4)
    ensures Ns(Synthesize(48, p, a)) == A.Synthesize(48, Ns(p), Ns(a))
  {
    hide N;
    NZero();
  }

  lemma Writes56(p: Octets, a: Octets4)
    ensures Ns(Synthesize(56, p, a)) == A.Synthesize(56, Ns(p), Ns(a))
  {
    hide N;
    NZero();
  }

  lemma Writes64(p: Octets, a: Octets4)
    ensures Ns(Synthesize(64, p, a)) == A.Synthesize(64, Ns(p), Ns(a))
  {
    hide N;
    NZero();
  }

  lemma Writes96(p: Octets, a: Octets4)
    ensures Ns(Synthesize(96, p, a)) == A.Synthesize(96, Ns(p), Ns(a))
  {
    hide N;
    NZero();
  }

  lemma Reads32(b: Octets)
    ensures A.ExtractBytes(32, Ns(b)) ==
      match ExtractOctets(32, b) case None => None case Some(a) => Some(Ns(a))
  {
    hide N, AllZero;
    NZero();
    var t := Ns(b);
    assert AllZero(t[9..]) <==> b[9] == 0 && b[10] == 0 && b[11] == 0 && b[12] == 0 && b[13] == 0 && b[14] == 0 && b[15] == 0 by { TailZero(b, 9); }
    assert t[4..8] + t[9..9] == Ns([b[4], b[5], b[6], b[7]]);
  }

  lemma Reads40(b: Octets)
    ensures A.ExtractBytes(40, Ns(b)) ==
      match ExtractOctets(40, b) case None => None case Some(a) => Some(Ns(a))
  {
    hide N, AllZero;
    NZero();
    var t := Ns(b);
    assert AllZero(t[10..]) <==> b[10] == 0 && b[11] == 0 && b[12] == 0 && b[13] == 0 && b[14] == 0 && b[15] == 0 by { TailZero(b, 10); }
    assert t[5..8] + t[9..10] == Ns([b[5], b[6], b[7], b[9]]);
  }

  lemma Reads48(b: Octets)
    ensures A.ExtractBytes(48, Ns(b)) ==
      match ExtractOctets(48, b) case None => None case Some(a) => Some(Ns(a))
  {
    hide N, AllZero;
    NZero();
    var t := Ns(b);
    assert AllZero(t[11..]) <==> b[11] == 0 && b[12] == 0 && b[13] == 0 && b[14] == 0 && b[15] == 0 by { TailZero(b, 11); }
    assert t[6..8] + t[9..11] == Ns([b[6], b[7], b[9], b[10]]);
  }

  lemma Reads56(b: Octets)
    ensures A.ExtractBytes(56, Ns(b)) ==
      match ExtractOctets(56, b) case None => None case Some(a) => Some(Ns(a))
  {
    hide N, AllZero;
    NZero();
    var t := Ns(b);
    assert AllZero(t[12..]) <==> b[12] == 0 && b[13] == 0 && b[14] == 0 && b[15] == 0 by { TailZero(b, 12); }
    assert t[7..8] + t[9..12] == Ns([b[7], b[9], b[10], b[11]]);
  }

  lemma Reads64(b: Octets)
    ensures A.ExtractBytes(64, Ns(b)) ==
      match ExtractOctets(64, b) case None => None case Some(a) => Some(Ns(a))
  {
    hide N, AllZero;
    NZero();
    var t := Ns(b);
    assert AllZero(t[13..]) <==> b[13] == 0 && b[14] == 0 && b[15] == 0 by { TailZero(b, 13); }
    assert t[8..8] + t[9..13] == Ns([b[9], b[10], b[11], b[12]]);
  }

  lemma Reads96(b: Octets)
    ensures A.ExtractBytes(96, Ns(b)) ==
      match ExtractOctets(96, b) case None => None case Some(a) => Some(Ns(a))
  {
    hide N;
    NZero();
    assert Ns(b)[12..16] == Ns([b[12], b[13], b[14], b[15]]);
  }

  lemma SynthesizeAsNumbers(len: nat, p: Octets, a: Octets4)
    requires PrefixLength(len)
    ensures Ns(Synthesize(len, p, a)) == A.Synthesize(len, Ns(p), Ns(a))
  {
    hide Synthesize, A.Synthesize;
    if len == 32 { Writes32(p, a); }
    else if len == 40 { Writes40(p, a); }
    else if len == 48 { Writes48(p, a); }
    else if len == 56 { Writes56(p, a); }
    else if len == 64 { Writes64(p, a); }
    else { Writes96(p, a); }
  }

  lemma ExtractAsNumbers(len: nat, b: Octets)
    requires PrefixLength(len)
    ensures A.ExtractBytes(len, Ns(b)) ==
      match ExtractOctets(len, b) case None => None case Some(a) => Some(Ns(a))
  {
    hide ExtractOctets, A.ExtractBytes;
    if len == 32 { Reads32(b); }
    else if len == 40 { Reads40(b); }
    else if len == 48 { Reads48(b); }
    else if len == 56 { Reads56(b); }
    else if len == 64 { Reads64(b); }
    else { Reads96(b); }
  }

  // ------------------------------------------------------------ the three forms together

  lemma NInjective(s: seq<bv8>, t: seq<bv8>)
    requires Ns(s) == Ns(t)
    ensures s == t
  {
    forall i | 0 <= i < |s| ensures s[i] == t[i] {
      assert Ns(s)[i] == Ns(t)[i];
    }
  }

  lemma OctetsRoundTrip(len: nat, b: Octets, a: Octets4)
    requires PrefixLength(len)
    ensures ExtractOctets(len, b) == Some(a) <==> b == Synthesize(len, b, a)
  {
    hide Synthesize, ExtractOctets, A.Synthesize, A.ExtractBytes, Ns, N;
    ExtractAsNumbers(len, b);
    SynthesizeAsNumbers(len, b, a);
    A.ExtractIffSynthesized(len, Ns(b), Ns(a));
    if Ns(b) == Ns(Synthesize(len, b, a)) {
      NInjective(b, Synthesize(len, b, a));
    }
    if ExtractOctets(len, b).Some? && Ns(ExtractOctets(len, b).value) == Ns(a) {
      NInjective(ExtractOctets(len, b).value, a);
    }
  }

  lemma OnlyPrefixMatters(len: nat, p: Octets, b: Octets, a: Octets4)
    requires PrefixLength(len) && p[..len / 8] == b[..len / 8]
    ensures Synthesize(len, p, a) == Synthesize(len, b, a)
  {
  }

  lemma CleanIsCleared(len: nat, p: Octets)
    requires PrefixLength(len) && Clean(len, p)
    ensures A.Cleared(len, Ns(p)) == Ns(p)
  {
    hide N;
    NZero();
  }

  /** On a machine of either byte order, appending an address to a clean prefix stores the
      bytes of section 2.2 of RFC 6052, the number they spell is the prefix plus the embedded
      address, and extraction gives the address back. */
  lemma AppendThenExtract(big: bool, len: nat, p: Octets, a: Octets4)
    requires PrefixLength(len) && Clean(len, p)
    ensures var r := Synthesize(len, p, a);
      && AppendWords(big, len, Load(big, p), Load4(big, a)) == Load(big, r)
      && ExtractWords(big, len, r) == Some(Load4(big, a))
      && A.Num(Ns(a)) < 0x1_0000_0000 && A.Num(Ns(r)) == A.Num(Ns(p)) + Offset(len, A.Num(Ns(a)))
  {
    hide Clean, AppendWords, ExtractWords, ExtractOctets, Load, Load4, A.Num, A.Synthesize, A.Cleared, Offset, Ns;
    var r := Synthesize(len, p, a);
    FormsAgree(big, len, p, a);
    assert r[..len / 8] == p[..len / 8];
    OnlyPrefixMatters(len, p, r, a);
    hide Synthesize;
    OctetsRoundTrip(len, r, a);
    ExtractFormsAgree(big, len, r);
    SynthesizeAsNumbers(len, p, a);
    A.SynthesizeIsAppend(len, Ns(p), Ns(a));
    CleanIsCleared(len, p);
  }

  /** Whatever is extracted under a prefix appends to the identical address again. */
  lemma ExtractThenAppend(big: bool, len: nat, p: Octets, b: Octets)
    requires PrefixLength(len) && Clean(len, p) && p[..len / 8] == b[..len / 8]
    requires ExtractWords(big, len, b).Some?
    ensures AppendWords(big, len, Load(big, p), ExtractWords(big, len, b).value) == Load(big, b)
  {
    hide Clean, AppendWords, ExtractWords, ExtractOctets, Load, Load4, Synthesize;
    ExtractFormsAgree(big, len, b);
    var a := ExtractOctets(len, b).value;
    OctetsRoundTrip(len, b, a);
    OnlyPrefixMatters(len, p, b, a);
    FormsAgree(big, len, p, a);
  }
}
