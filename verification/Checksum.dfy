/** One's-complement checksums (RFC 1071) as the program computes them on a
    little-endian host, with wide accumulators and deferred carries. */
module Checksum {

  type Byte = x: nat | x < 0x100
  type U16 = x: nat | x < 0x1_0000

  predicate AllZero(b: seq<Byte>) {
    forall i :: 0 <= i < |b| ==> b[i] == 0
  }

  function Zeros(n: nat): (z: seq<Byte>)
    ensures |z| == n && forall i :: 0 <= i < n ==> z[i] == 0
  {
    seq(n, i => 0)
  }

  /** `memcpy` of two bytes into a uint16_t. */
  function Word(lo: Byte, hi: Byte): (w: U16) {
    lo + 0x100 * hi
  }

  /** The plain sum of the 16-bit words of b; a last odd byte is padded with zero. */
  function Sum16(b: seq<Byte>): (n: nat)
    decreases |b|
  {
    if |b| == 0 then 0
    else if |b| == 1 then b[0]
    else Word(b[0], b[1]) + Sum16(b[2..])
  }

  // ------------------------------------------------------------ reference

  /** 16-bit one's-complement addition: the carry comes back in at the low end. */
  function Plus(x: U16, y: U16): (r: U16) {
    if x + y >= 0x1_0000 then x + y - 0xffff else x + y
  }

  function Complement(x: U16): (r: U16) {
    0xffff - x
  }

  /** The one's-complement sum of section 1 of RFC 1071, one word at a time. */
  function OnesSum(b: seq<Byte>): (r: U16)
    decreases |b|
  {
    if |b| == 0 then 0
    else if |b| == 1 then b[0]
    else Plus(Word(b[0], b[1]), OnesSum(b[2..]))
  }

  /** n modulo 65535, as a nonzero 16-bit number. */
  function Norm(n: nat): (r: U16)
    ensures 1 <= r
    ensures (n - r) % 0xffff == 0
  {
    if n % 0xffff == 0 then 0xffff else n % 0xffff
  }

  predicate Congruent(a: int, b: int) {
    (a - b) % 0xffff == 0
  }

  lemma CongruentTrans(a: int, b: int, c: int)
    requires Congruent(a, b) && Congruent(b, c)
    ensures Congruent(a, c) && Congruent(c, a)
  {
  }

  /** Two numbers congruent to a third are congruent. */
  lemma CongruentVia(m: int, a: int, b: int)
    requires Congruent(m, a) && Congruent(m, b)
    ensures Congruent(a, b) && Congruent(b, a)
  {
  }

  lemma CongruentSelf(a: int)
    ensures Congruent(a, a)
  {
  }

  lemma ComplementIsNegation(x: U16)
    ensures Congruent(Complement(x), 0 - x)
  {
  }

  lemma CongruentSum(a: int, b: int, c: int, d: int)
    requires Congruent(a, b) && Congruent(c, d)
    ensures Congruent(a + c, b + d) && Congruent(a - c, b - d)
  {
  }

  lemma NormUnique(n: nat, r: nat)
    requires 1 <= r <= 0xffff && Congruent(n, r)
    ensures r == Norm(n)
  {
  }

  /** Deferring the carries changes nothing: the sum modulo 65535 decides the result. */
  lemma {:induction false} OnesSumIsNorm(b: seq<Byte>)
    ensures OnesSum(b) == if Sum16(b) == 0 then 0 else Norm(Sum16(b))
    decreases |b|
  {
    if |b| >= 2 {
      OnesSumIsNorm(b[2..]);
      PlusIsNorm(Word(b[0], b[1]), Sum16(b[2..]));
    }
  }

  lemma PlusIsNorm(w: U16, n: nat)
    ensures Plus(w, if n == 0 then 0 else Norm(n)) == if w + n == 0 then 0 else Norm(w + n)
  {
    var r := Plus(w, if n == 0 then 0 else Norm(n));
    if w + n > 0 {
      assert 1 <= r;
      assert Congruent(w + n, r);
      NormUnique(w + n, r);
    }
  }

  lemma {:induction false} SumSplit(x: seq<Byte>, y: seq<Byte>)
    requires |x| % 2 == 0
    ensures Sum16(x + y) == Sum16(x) + Sum16(y)
    decreases |x|
  {
    if x == [] {
      assert x + y == y;
    } else {
      SumSplit(x[2..], y);
      assert (x + y)[2..] == x[2..] + y;
    }
  }

  // ------------------------------------------------------------ folding

  /** One `(sum & 0xffff) + (sum >> 16)`. */
  function Fold16(n: nat): (r: nat) {
    n % 0x1_0000 + n / 0x1_0000
  }

  function Fold32(n: nat): (r: nat) {
    n % 0x1_0000_0000 + n / 0x1_0000_0000
  }

  lemma Fold16Keeps(n: nat)
    ensures Congruent(n, Fold16(n)) && (Fold16(n) == 0 <==> n == 0)
    ensures n > 0xffff ==> Fold16(n) < n
  {
    assert n - Fold16(n) == 0xffff * (n / 0x1_0000);
  }

  lemma Fold32Keeps(n: nat)
    ensures Congruent(n, Fold32(n)) && (Fold32(n) == 0 <==> n == 0)
  {
    assert n - Fold32(n) == 0xffff * (0x1_0001 * (n / 0x1_0000_0000));
  }

  /** The 32-bit and 64-bit words that `memcpy` loads are congruent to the sums of their halves. */
  function Load32(b: seq<Byte>): (w: nat)
    requires |b| == 4
    ensures w < 0x1_0000_0000
  {
    Word(b[0], b[1]) + 0x1_0000 * Word(b[2], b[3])
  }

  function Load64(b: seq<Byte>): (w: nat)
    requires |b| == 8
    ensures w < 0x1_0000_0000_0000_0000
  {
    Load32(b[..4]) + 0x1_0000_0000 * Load32(b[4..])
  }

  /** Reading two words at once counts the second one 65536 times, that is 65535 times too often. */
  lemma Load32Sum(b: seq<Byte>)
    requires |b| == 4
    ensures Load32(b) == Sum16(b) + 0xffff * Word(b[2], b[3]) && Sum16(b) >= Word(b[2], b[3])
  {
    var t := b[2..];
    assert t[2..] == [] && Sum16(t) == Word(b[2], b[3]) + Sum16(t[2..]);
    assert Sum16(b) == Word(b[0], b[1]) + Word(b[2], b[3]);
  }

  function Excess64(b: seq<Byte>): (n: nat)
    requires |b| == 8
  {
    Word(b[2], b[3]) + Word(b[6], b[7]) + 0x1_0001 * Load32(b[4..])
  }

  lemma Load64Sum(b: seq<Byte>)
    requires |b| == 8
    ensures Load64(b) == Sum16(b) + 0xffff * Excess64(b)
  {
    hide Load32, Sum16, Word;
    Load32Sum(b[..4]);
    Load32Sum(b[4..]);
    assert b == b[..4] + b[4..];
    SumSplit(b[..4], b[4..]);
  }

  lemma Multiple(a: int, b: int, k: int)
    requires a == b + 0xffff * k
    ensures Congruent(a, b)
  {
  }

  /** `sum += word; if (sum < word) sum++` on uint64_t: end-around carry at 64 bits. */
  method AddCarry64(sum: nat, word: nat) returns (r: nat)
    requires 0 < sum < 0x1_0000_0000_0000_0000 && word < 0x1_0000_0000_0000_0000
    ensures 0 < r < 0x1_0000_0000_0000_0000 && Congruent(r, sum + word)
  {
    r := (sum + word) % 0x1_0000_0000_0000_0000;
    if r < word {
      r := r + 1;
      assert sum + word - r == 0xffff * 0x1_0001_0001_0001;
    } else {
      assert r == sum + word || (r == sum + word - 0x1_0000_0000_0000_0000 && r >= word);
    }
  }

  /** `while (sum > 0xffff) sum = (sum & 0xffff) + (sum >> 16)` */
  method FoldDown(n: nat) returns (r: U16)
    ensures Congruent(n, r) && (r == 0 <==> n == 0)
  {
    var sum := n;
    while sum > 0xffff
      invariant Congruent(n, sum) && (sum == 0 <==> n == 0)
    {
      Fold16Keeps(sum);
      CongruentTrans(n, sum, Fold16(sum));
      sum := Fold16(sum);
    }
    r := sum;
  }

  /** The value of `ip_checksum`. */
  function CkSum(b: seq<Byte>): (r: U16) {
    Complement(Norm(Sum16(b)))
  }

  /** First loop of `ip_checksum`: eight bytes at a time. */
  method SumWords(d: seq<Byte>) returns (sum: nat, p: nat)
    ensures p % 8 == 0 && p <= |d| < p + 8
    ensures 0 < sum < 0x1_0000_0000_0000_0000 && Congruent(sum, Sum16(d[..p]))
  {
    hide Sum16, Norm, Congruent, Load64, Excess64;
    sum, p := 0xffff, 0;
    var c := |d|;
    CongruentZero();
    while c >= 8
      invariant 0 <= c && p + c == |d| && p % 8 == 0
      invariant 0 < sum < 0x1_0000_0000_0000_0000
      invariant Congruent(sum, Sum16(d[..p]))
    {
      var word := Load64(d[p..p + 8]);
      Load64Sum(d[p..p + 8]);
      StepSum(d, p, 8, sum, word, Excess64(d[p..p + 8]));
      var s := AddCarry64(sum, word);
      CongruentTrans(s, sum + word, Sum16(d[..p + 8]));
      sum, p, c := s, p + 8, c - 8;
    }
  }

  /** The four-, two- and one-byte steps of `ip_checksum`. */
  method SumTail(d: seq<Byte>, sum0: nat, p0: nat) returns (sum: nat)
    requires p0 % 2 == 0 && p0 <= |d| < p0 + 8
    requires 0 < sum0 && Congruent(sum0, Sum16(d[..p0]))
    ensures 0 < sum && Congruent(sum, Sum16(d))
  {
    hide Sum16, Norm, Congruent, Load32, Word;
    sum := sum0;
    var p := p0;
    if |d| - p >= 4 {
      sum := sum + Load32(d[p..p + 4]);
      Load32Sum(d[p..p + 4]);
      StepSum(d, p, 4, sum0, Load32(d[p..p + 4]), Word(d[p + 2], d[p + 3]));
      p := p + 4;
    }
    sum := SumLast(d, sum, p);
  }

  method SumLast(d: seq<Byte>, sum0: nat, p0: nat) returns (sum: nat)
    requires p0 % 2 == 0 && p0 <= |d| < p0 + 4
    requires 0 < sum0 && Congruent(sum0, Sum16(d[..p0]))
    ensures 0 < sum && Congruent(sum, Sum16(d))
  {
    hide Sum16, Norm, Congruent, Word;
    sum := sum0;
    var p := p0;
    if |d| - p >= 2 {
      TwoBytes(d[p..p + 2]);
      StepSum(d, p, 2, sum, Word(d[p], d[p + 1]), 0);
      sum, p := sum + Word(d[p], d[p + 1]), p + 2;
    }
    if |d| - p != 0 {
      OneByte(d[p..p + 1]);
      StepSum(d, p, 1, sum, d[p], 0);
      sum, p := sum + d[p], p + 1;
    }
    assert d[..p] == d;
  }

  /** `ip_checksum`, for every byte string: the wide accumulator loses no carry. */
  method IpChecksum(d: seq<Byte>) returns (r: U16)
    ensures r == CkSum(d)
  {
    hide Sum16, Norm, Congruent;
    var sum, p := SumWords(d);
    sum := FoldTwice(sum, d[..p]);
    sum := SumTail(d, sum, p);
    var f := FoldDown(sum);
    CongruentVia(sum, f, Sum16(d));
    NormUnique(Sum16(d), f);
    r := Complement(f);
  }

  lemma CongruentZero()
    ensures Congruent(0xffff, Sum16([]))
  {
  }

  lemma TwoBytes(b: seq<Byte>)
    requires |b| == 2
    ensures Word(b[0], b[1]) == Sum16(b)
  {
    assert b[2..] == [];
  }

  lemma OneByte(b: seq<Byte>)
    requires |b| == 1
    ensures b[0] == Sum16(b)
  {
  }

  lemma StepSum(d: seq<Byte>, p: nat, k: nat, sum: nat, word: nat, excess: nat)
    requires p + k <= |d| && p % 2 == 0
    requires Congruent(sum, Sum16(d[..p])) && word == Sum16(d[p..p + k]) + 0xffff * excess
    ensures Congruent(sum + word, Sum16(d[..p + k]))
  {
    hide Sum16, Congruent;
    assert d[..p + k] == d[..p] + d[p..p + k];
    SumSplit(d[..p], d[p..p + k]);
    Multiple(word, Sum16(d[p..p + k]), excess);
    CongruentSum(sum, Sum16(d[..p]), word, Sum16(d[p..p + k]));
  }

  method FoldTwice(n: nat, ghost done: seq<Byte>) returns (r: nat)
    requires 0 < n < 0x1_0000_0000_0000_0000 && Congruent(n, Sum16(done))
    ensures 0 < r <= 0x1_0000_0000 && Congruent(r, Sum16(done))
  {
    Fold32Keeps(n);
    Fold32Keeps(Fold32(n));
    CongruentTrans(n, Fold32(n), Fold32(Fold32(n)));
    r := Fold32(Fold32(n));
    CongruentVia(n, r, Sum16(done));
  }

  /** The result is the complement of the RFC 1071 sum, except that the program counts
      from negative zero: it differs exactly on data that is all zero. */
  lemma ChecksumIsRfc1071(b: seq<Byte>)
    ensures CkSum(b) == Complement(OnesSum(b)) <==> Sum16(b) != 0
    ensures Sum16(b) == 0 <==> forall i :: 0 <= i < |b| ==> b[i] == 0
  {
    OnesSumIsNorm(b);
    ZeroSum(b);
  }

  /** On zeros the two differ, whatever their number. */
  lemma ZerosExample(n: nat)
    ensures CkSum(Zeros(n)) == 0 && Complement(OnesSum(Zeros(n))) == 0xffff
  {
    hide Sum16, OnesSum;
    ZeroSum(Zeros(n));
    OnesSumIsNorm(Zeros(n));
  }

  lemma ZeroTail(b: seq<Byte>)
    requires |b| >= 2
    ensures AllZero(b) <==> b[0] == 0 && b[1] == 0 && AllZero(b[2..])
  {
    assert forall i :: 2 <= i < |b| ==> b[i] == b[2..][i - 2];
  }

  lemma {:induction false} ZeroSum(b: seq<Byte>)
    ensures Sum16(b) == 0 <==> AllZero(b)
    decreases |b|
  {
    if |b| >= 2 {
      hide AllZero;
      ZeroTail(b);
      ZeroSum(b[2..]);
    }
  }

  /** `ones_add` */
  function OnesAdd(a: U16, b: U16): (r: U16) {
    var sum := Complement(a) + Complement(b);
    Complement(sum % 0x1_0000 + sum / 0x1_0000)
  }

  /** Adding checksums is adding the complements of the sums behind them. */
  lemma OnesAddCongruent(a: U16, b: U16)
    ensures Congruent(OnesAdd(a, b), a + b)
    ensures a < 0xffff || b < 0xffff ==> OnesAdd(a, b) < 0xffff
    ensures OnesAdd(a, b) == Complement(Plus(Complement(a), Complement(b)))
  {
  }

  /** The checksum of a message is `ones_add` of the checksums of an even-length prefix and the rest. */
  lemma ChecksumOfParts(x: seq<Byte>, y: seq<Byte>)
    requires |x| % 2 == 0
    ensures OnesAdd(CkSum(x), CkSum(y)) == CkSum(x + y)
  {
    hide Sum16, Norm, OnesAdd, Congruent;
    SumSplit(x, y);
    var m, n := Sum16(x), Sum16(y);
    var r := Plus(Norm(m), Norm(n));
    OnesAddCongruent(Complement(Norm(m)), Complement(Norm(n)));
    NormCongruent(m);
    NormCongruent(n);
    CongruentSum(m, Norm(m), n, Norm(n));
    PlusCongruent(Norm(m), Norm(n));
    CongruentTrans(m + n, Norm(m) + Norm(n), r);
    NormUnique(m + n, r);
  }

  lemma NormCongruent(n: nat)
    ensures Congruent(n, Norm(n))
  {
  }

  lemma PlusCongruent(x: U16, y: U16)
    ensures Congruent(x + y, Plus(x, y)) && (x + y > 0 ==> Plus(x, y) > 0)
  {
  }

  function HeaderSum(h: seq<Byte>): (n: nat)
    requires |h| == 20
    ensures n <= 5 * 0xffff_ffff
  {
    Load32(h[0..4]) + Load32(h[4..8]) + Load32(h[8..12]) + Load32(h[12..16]) + Load32(h[16..20])
  }

  /** `ip4_header_checksum`: five words and three fixed folds. */
  method Ip4HeaderChecksum(h: seq<Byte>) returns (r: U16)
    requires |h| == 20
    ensures r == Complement(OnesSum(h))
    ensures r == CkSum(h) <==> exists i :: 0 <= i < 20 && h[i] != 0
  {
    hide Sum16, OnesSum, Congruent, Norm, HeaderSum, HighWords, Fold16, Fold32;
    var sum := HeaderSum(h);
    FiveWords(h);
    Multiple(sum, Sum16(h), HighWords(h));
    ThreeFolds(sum);
    Fold32Keeps(sum);
    Fold16Keeps(Fold32(sum));
    Fold16Keeps(Fold16(Fold32(sum)));
    CongruentTrans(sum, Fold32(sum), Fold16(Fold32(sum)));
    CongruentTrans(sum, Fold16(Fold32(sum)), Fold16(Fold16(Fold32(sum))));
    OnesSumIsNorm(h);
    ChecksumIsRfc1071(h);
    var f := Fold16(Fold16(Fold32(sum)));
    CongruentVia(sum, f, Sum16(h));
    if Sum16(h) != 0 {
      NormUnique(Sum16(h), f);
    }
    r := Complement(f);
  }

  /** After the first fold at most 4 is carried over, so two 16-bit folds are enough. */
  lemma ThreeFolds(sum: nat)
    requires sum <= 10 * 0xffff_ffff
    ensures Fold16(Fold16(Fold32(sum))) <= 0xffff
    ensures Fold16(Fold16(Fold32(sum))) == 0 <==> sum == 0
  {
    var a := Fold32(sum);
    assert a <= 0xffff_ffff + 9;
    assert Fold16(a) <= 2 * 0xffff + 1;
  }

  /** The words counted 65535 times too often when a header is read in fives. */
  function HighWords(h: seq<Byte>): (n: nat)
    requires |h| == 20
  {
    Word(h[2], h[3]) + Word(h[6], h[7]) + Word(h[10], h[11]) + Word(h[14], h[15]) + Word(h[18], h[19])
  }

  lemma FiveWords(h: seq<Byte>)
    requires |h| == 20
    ensures HeaderSum(h) == Sum16(h) + 0xffff * HighWords(h) && Sum16(h) >= HighWords(h)
  {
    hide Sum16, Load32, Word;
    Load32Sum(h[0..4]);
    Load32Sum(h[4..8]);
    Load32Sum(h[8..12]);
    Load32Sum(h[12..16]);
    Load32Sum(h[16..20]);
    assert h == h[0..4] + (h[4..8] + (h[8..12] + (h[12..16] + h[16..20])));
    SumSplit(h[12..16], h[16..20]);
    SumSplit(h[8..12], h[12..16] + h[16..20]);
    SumSplit(h[4..8], h[8..12] + (h[12..16] + h[16..20]));
    SumSplit(h[0..4], h[4..8] + (h[8..12] + (h[12..16] + h[16..20])));
  }
}
