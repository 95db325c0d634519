/** Explicit address mappings as the program computes them: an IPv6 address is four words
    of 32 bits, and the IPv4 suffix is shifted across two of them in a 64-bit window. */
module AddressWords {
  import opened Bits
  import opened AddressTables
  import opened Translate

  type Word = x: nat | x < 0x1_0000_0000

  /** The address four words spell, the first one on top. */
  function Four(w0: Word, w1: Word, w2: Word, w3: Word): (v: nat) {
    Shl(Shl(Shl(w0, 32) + w1, 32) + w2, 32) + w3
  }

  /** `x | y`, one bit at a time. */
  function Or(x: nat, y: nat): (r: nat)
    decreases x + y
  {
    if x == 0 then y
    else if y == 0 then x
    else 2 * Or(x / 2, y / 2) + (if x % 2 == 1 || y % 2 == 1 then 1 else 0)
  }

  lemma {:induction false} OrDisjoint(x: nat, y: nat, k: nat)
    requires Aligned(x, k) && y < Pow2(k)
    ensures Or(x, y) == x + y
    decreases k
  {
    if k == 0 || x == 0 || y == 0 {
    } else {
      OrDisjoint(x / 2, y / 2, k - 1);
    }
  }

  lemma {:induction false} ShlAdd(a: nat, b: nat, n: nat)
    ensures Shl(a + b, n) == Shl(a, n) + Shl(b, n)
  {
    if n == 0 {
    } else {
      ShlAdd(a, b, n - 1);
    }
  }

  lemma {:induction false} ShlShl(a: nat, m: nat, n: nat)
    ensures Shl(Shl(a, m), n) == Shl(a, m + n)
  {
    if n == 0 {
    } else {
      ShlShl(a, m, n - 1);
    }
  }

  /** Shifting left by at least k leaves k zeros. */
  lemma ShlLow(a: nat, n: nat, k: nat)
    requires k <= n
    ensures Low(Shl(a, n), k) == 0 && Shr(Shl(a, n), k) == Shl(a, n - k)
  {
    hide Shl, Shr, Low;
    ShlShl(a, n - k, k);
    assert 0 < Pow2(k);
    JoinParts(Shl(a, n - k), 0, k);
  }

  lemma {:induction false} AlignedJoin(c: nat, w: nat, n: nat, k: nat)
    requires w < Pow2(n) && Aligned(Shl(c, n) + w, k)
    ensures k <= n ==> Aligned(w, k)
    ensures k >= n ==> w == 0 && Aligned(c, k - n)
    decreases n
  {
    if n == 0 || k == 0 {
    } else {
      var v := Shl(c, n) + w;
      assert v / 2 == Shl(c, n - 1) + w / 2 && v % 2 == w % 2;
      AlignedJoin(c, w / 2, n - 1, k - 1);
    }
  }

  // ------------------------------------------------------------ the window

  lemma WordBound(w: Word)
    ensures w < Pow2(32)
  {
    Pow2Values();
  }

  /** The words below an alignment are zero, and the word it falls in has its low bits clear. */
  lemma AlignedWords(w0: Word, w1: Word, w2: Word, w3: Word, k: nat)
    requires Aligned(Four(w0, w1, w2, w3), k) && k <= 128
    ensures k <= 32 ==> Aligned(w3, k)
    ensures 32 <= k <= 64 ==> w3 == 0 && Aligned(w2, k - 32)
    ensures 64 <= k <= 96 ==> w3 == 0 && w2 == 0 && Aligned(w1, k - 64)
    ensures 96 <= k ==> w3 == 0 && w2 == 0 && w1 == 0 && Aligned(w0, k - 96)
  {
    hide Shl, Aligned, Pow2;
    WordBound(w3);
    AlignedJoin(Shl(Shl(w0, 32) + w1, 32) + w2, w3, 32, k);
    if k >= 32 {
      WordBound(w2);
      AlignedJoin(Shl(w0, 32) + w1, w2, 32, k - 32);
      if k >= 64 {
        WordBound(w1);
        AlignedJoin(w0, w1, 32, k - 64);
      }
    }
  }

  /** Adding to a word, or to two neighbours, adds a shifted number to the address. */
  lemma AddWindow(w0: Word, w1: Word, w2: Word, w3: Word, hi: nat, lo: nat)
    ensures w3 + hi < 0x1_0000_0000 ==> Four(w0, w1, w2, w3 + hi) == Four(w0, w1, w2, w3) + hi
    ensures w2 + hi < 0x1_0000_0000 && w3 + lo < 0x1_0000_0000 ==>
      Four(w0, w1, w2 + hi, w3 + lo) == Four(w0, w1, w2, w3) + (Shl(hi, 32) + lo)
    ensures w1 + hi < 0x1_0000_0000 && w2 + lo < 0x1_0000_0000 ==>
      Four(w0, w1 + hi, w2 + lo, w3) == Four(w0, w1, w2, w3) + Shl(Shl(hi, 32) + lo, 32)
    ensures w0 + hi < 0x1_0000_0000 && w1 + lo < 0x1_0000_0000 ==>
      Four(w0 + hi, w1 + lo, w2, w3) == Four(w0, w1, w2, w3) + Shl(Shl(hi, 32) + lo, 64)
  {
    hide Shl;
    ShlAdd(Shl(Shl(w0, 32) + w1, 32) + w2, hi, 32);
    ShlAdd(w0, hi, 32);
    ShlAdd(Shl(w0, 32) + w1, hi, 32);
    ShlAdd(Shl(w0, 32) + w1, Shl(hi, 32) + lo, 32);
    ShlAdd(Shl(Shl(w0, 32) + w1, 32) + w2, Shl(hi, 32) + lo, 32);
    ShlAdd(Shl(Shl(w0, 32) + w1, 32) + w2, Shl(Shl(hi, 32) + lo, 32), 32);
    ShlShl(Shl(hi, 32) + lo, 32, 32);
  }

  /** What the window contributes at each word is the suffix at its place in the address. */
  lemma WindowIsSuffix(suffix: nat, bits: nat, pos: nat)
    requires 0 < bits <= 32 && pos + bits <= 128 && suffix < Pow2(bits)
    ensures var (word, off) := (pos / 32, pos % 32);
      var shifted := Shl(suffix, 64 - off - bits);
      && word <= 3 && shifted == Shl(Shr(shifted, 32), 32) + Low(shifted, 32)
      && Shr(shifted, 32) < Pow2(32 - off)
      && (off + bits <= 32 ==> Low(shifted, 32) == 0)
      && (word == 3 ==> Shr(shifted, 32) == Shl(suffix, 128 - pos - bits))
      && (word < 3 ==> Shl(shifted, 64 - 32 * word) == Shl(suffix, 128 - pos - bits))
  {
    hide Shl, Shr, Low, Pow2;
    var word, off := pos / 32, pos % 32;
    var shifted := Shl(suffix, 64 - off - bits);
    PartsJoin(shifted, 32);
    ShlBound(suffix, bits, 64 - off - bits);
    ShrBound(shifted, 32 - off, 32);
    if off + bits <= 32 {
      ShlLow(suffix, 64 - off - bits, 32);
    }
    if word < 3 {
      ShlShl(suffix, 64 - off - bits, 64 - 32 * word);
    }
  }

  /** What follows from an aligned prefix: the bits the window is put into are clear. */
  lemma RoomForWindow(ws: seq<Word>, pos: nat)
    requires |ws| == 4 && pos < 128 && Aligned(Four(ws[0], ws[1], ws[2], ws[3]), 128 - pos)
    ensures Aligned(ws[pos / 32], 32 - pos % 32)
    ensures pos / 32 < 3 ==> ws[pos / 32 + 1] == 0
  {
    hide Shl, Aligned;
    AlignedWords(ws[0], ws[1], ws[2], ws[3], 128 - pos);
  }

  lemma LowIsWord(x: nat)
    ensures Low(x, 32) < 0x1_0000_0000
  {
    Pow2Values();
  }

  lemma BlockAbove(w: Word, x: nat, k: nat)
    requires Aligned(w, k) && x < Pow2(k) && k <= 32
    ensures Or(w, x) == w + x < 0x1_0000_0000
  {
    OrDisjoint(w, x, k);
    WordBound(w);
    hide Aligned, Pow2, Or;
    BlockFits(w, k, 32);
    Pow2Values();
  }

  lemma OrZero(x: nat)
    ensures Or(0, x) == x
  {
  }

  /** The words after the window of a suffix has been put into them. */
  function Embedded(ws: seq<nat>, suffix: nat, bits: nat, pos: nat): (r: seq<nat>)
    requires |ws| == 4 && bits <= 32 && pos + bits <= 128
  {
    if pos + bits == 128 then ws[3 := Or(ws[3], suffix)]
    else if bits > 0 then
      var (word, off) := (pos / 32, pos % 32);
      var shifted := Shl(suffix, 64 - off - bits);
      var hi := ws[word := Or(ws[word], Shr(shifted, 32))];
      if off + bits > 32 then hi[word + 1 := Or(ws[word + 1], Low(shifted, 32))] else hi
    else ws
  }

  lemma EmbeddedValue(ws: seq<Word>, suffix: nat, bits: nat, pos: nat)
    requires |ws| == 4 && 0 < bits <= 32 && pos + bits <= 128 && suffix < Pow2(bits)
    requires Aligned(Four(ws[0], ws[1], ws[2], ws[3]), 128 - pos)
    ensures var r := Embedded(ws, suffix, bits, pos);
      && (forall i :: 0 <= i < 4 ==> r[i] < 0x1_0000_0000)
      && Four(r[0], r[1], r[2], r[3]) == Four(ws[0], ws[1], ws[2], ws[3]) + Shl(suffix, 128 - pos - bits)
  {
    hide Shl, Shr, Low, Pow2, Aligned, Or, Four;
    var word, off := pos / 32, pos % 32;
    var shifted := Shl(suffix, 64 - off - bits);
    var hi, lo := Shr(shifted, 32), Low(shifted, 32);
    RoomForWindow(ws, pos);
    WindowIsSuffix(suffix, bits, pos);
    LowIsWord(shifted);
    BlockAbove(ws[word], hi, 32 - off);
    OrZero(lo);
    AddWindow(ws[0], ws[1], ws[2], ws[3], hi, lo);
    if pos + bits == 128 {
      ShlNothing(suffix);
      BlockAbove(ws[3], suffix, 128 - pos);
      AddWindow(ws[0], ws[1], ws[2], ws[3], suffix, 0);
    }
  }

  lemma ShlNothing(x: nat)
    ensures Shl(x, 0) == x && Shr(x, 0) == x && Low(x, 0) == 0
  {
  }

  /** The address of a static map's IPv6 side for a: the equal-width fast path and the
      general shift are two ways to the same sum. */
  method EmbedSuffix(m: Mapping, a: Ip4, addr6: array<Word>)
    requires m.Static? && Admitted(m) && addr6.Length == 4
    requires Four(addr6[0], addr6[1], addr6[2], addr6[3]) == m.a6
    modifies addr6
    ensures Four(addr6[0], addr6[1], addr6[2], addr6[3]) == Embed(m, a)
  {
    hide Shl, Shr, Low, Pow2, Aligned, Or, Four;
    var bits := 32 - m.l4;
    var suffix := Low(a, bits);
    ghost var before := addr6[..];
    if bits > 0 {
      EmbeddedValue(before, suffix, bits, m.l6);
    } else {
      NothingToEmbed(m, a);
    }
    if m.l6 + bits == 128 {
      if bits == 0 { NoSuffix(addr6[3], a); }
      addr6[3] := Or(addr6[3], suffix);
    } else if bits > 0 {
      var word, off := m.l6 / 32, m.l6 % 32;
      var shifted := Shl(suffix, 64 - off - bits);
      addr6[word] := Or(addr6[word], Shr(shifted, 32));
      if off + bits > 32 {
        addr6[word + 1] := Or(addr6[word + 1], Low(shifted, 32));
      }
    }
    assert addr6[..] == if bits > 0 then Embedded(before, suffix, bits, m.l6) else before;
    assert addr6[..][0] == addr6[0] && addr6[..][1] == addr6[1] && addr6[..][2] == addr6[2] && addr6[..][3] == addr6[3];
  }

  lemma NoSuffix(w: nat, a: nat)
    ensures Low(a, 0) == 0 && Or(w, 0) == w
  {
  }

  lemma NothingToEmbed(m: Mapping, a: Ip4)
    requires m.Static? && Admitted(m) && HostBits(m) == 0
    ensures Embed(m, a) == m.a6
  {
    hide Pow2, Aligned;
    ShlZero(Spare(m));
  }

  lemma {:induction false} ShlZero(n: nat)
    ensures Shl(0, n) == 0
  {
    if n > 0 { ShlZero(n - 1); }
  }

  // ------------------------------------------------------------ reading the suffix back

  /** The two words at j, as one number: the address shifted right, its upper words cut off. */
  lemma WindowOf(ws: seq<Word>, j: nat)
    requires |ws| == 4 && j < 3
    ensures Low(Shr(Four(ws[0], ws[1], ws[2], ws[3]), 64 - 32 * j), 64) == Shl(ws[j], 32) + ws[j + 1]
  {
    hide Shl, Shr, Low, Pow2;
    forall i | 0 <= i < 4 ensures ws[i] < Pow2(32) { WordBound(ws[i]); }
    var a1 := Shl(ws[0], 32) + ws[1];
    var a2 := Shl(a1, 32) + ws[2];
    JoinParts(a2, ws[3], 32);
    JoinParts(a1, ws[2], 32);
    ShrShr(Shl(a2, 32) + ws[3], 32, 32);
    ShrZero(Shl(a2, 32) + ws[3]);
    if j == 0 {
      LowOfTwo(0, ws[0], ws[1]);
      ShlZero(32);
    } else if j == 1 {
      LowOfTwo(ws[0], ws[1], ws[2]);
    } else {
      LowOfTwo(a1, ws[2], ws[3]);
    }
  }

  lemma ShrZero(x: nat)
    ensures Shr(x, 0) == x
  {
  }

  lemma LowOfTwo(c: nat, x: Word, y: Word)
    ensures Low(Shl(Shl(c, 32) + x, 32) + y, 64) == Shl(x, 32) + y
  {
    hide Shl, Shr, Low, Pow2;
    WordBound(x);
    WordBound(y);
    JoinBound(x, 32, y, 32);
    ShlAdd(Shl(c, 32), x, 32);
    ShlShl(c, 32, 32);
    JoinParts(c, Shl(x, 32) + y, 64);
  }

  /** Bits n up to n + m of a number below k >= n + m depend only on its k low bits. */
  lemma BitsOfLow(b: nat, k: nat, n: nat, m: nat)
    requires n + m <= k
    ensures Low(Shr(Low(b, k), n), m) == Low(Shr(b, n), m)
  {
    hide Shl, Shr, Low;
    ShrOfLow(b, k - n, n);
    LowOfLow(Shr(b, n), k - n, m);
  }

  lemma {:induction false} LowOfLow(b: nat, k: nat, m: nat)
    requires m <= k
    ensures Low(Low(b, k), m) == Low(b, m)
    decreases m
  {
    if m == 0 {
    } else {
      LowOfLow(b / 2, k - 1, m - 1);
      assert Low(b, k) / 2 == Low(b / 2, k - 1) && Low(b, k) % 2 == b % 2;
    }
  }

  /** The bits right after the prefix of m, wherever they fall. */
  lemma SuffixBits(m: Mapping, b: Ip6)
    requires m.Static? && Admitted(m)
    ensures Suffix(m, b) == Low(Shr(b, Spare(m)), HostBits(m))
  {
    hide Shr, Low, Pow2;
    ShrOfLow(b, HostBits(m), Spare(m));
  }

  /** Dropping the second word of the window changes nothing above it. */
  lemma UpperWordOnly(hi: Word, lo: Word, n: nat)
    requires n >= 32
    ensures Shr(Shl(hi, 32) + lo, n) == Shr(Shl(hi, 32), n)
  {
    hide Shl, Shr, Low, Pow2;
    WordBound(lo);
    JoinParts(hi, lo, 32);
    assert 0 < Pow2(32);
    JoinParts(hi, 0, 32);
    ShrShr(Shl(hi, 32) + lo, 32, n - 32);
    ShrShr(Shl(hi, 32), 32, n - 32);
  }

  lemma WindowHasSuffix(ws: seq<Word>, bits: nat, pos: nat)
    requires |ws| == 4 && 0 < bits <= 32 && pos + bits <= 128
    ensures var (word, off) := (pos / 32, pos % 32);
      var raw := Shl(ws[word], 32) + (if off + bits > 32 then ws[word + 1] else 0);
      Low(Shr(raw, 64 - off - bits), bits) == Low(Shr(Four(ws[0], ws[1], ws[2], ws[3]), 128 - pos - bits), bits)
  {
    hide Shl, Shr, Low, Pow2, Four;
    var b := Four(ws[0], ws[1], ws[2], ws[3]);
    var word, off := pos / 32, pos % 32;
    if word < 3 {
      var v := Shr(b, 64 - 32 * word);
      var window := Shl(ws[word], 32) + ws[word + 1];
      WindowOf(ws, word);
      BitsOfLow(v, 64, 64 - off - bits, bits);
      ShrShr(b, 64 - 32 * word, 64 - off - bits);
      if off + bits <= 32 {
        UpperWordOnly(ws[word], ws[word + 1], 64 - off - bits);
      }
    } else {
      LastWord(ws);
      BitsOfLow(b, 32, 32 - off - bits, bits);
      ShlLow(ws[3], 32, 32);
      ShlNothing(ws[3]);
      ShrShr(Shl(ws[3], 32), 32, 32 - off - bits);
    }
  }

  lemma LastWord(ws: seq<Word>)
    requires |ws| == 4
    ensures Low(Four(ws[0], ws[1], ws[2], ws[3]), 32) == ws[3]
  {
    hide Shl, Shr, Low, Pow2;
    WordBound(ws[3]);
    JoinParts(Shl(Shl(ws[0], 32) + ws[1], 32) + ws[2], ws[3], 32);
  }

  /** The IPv4 address a static map gives for the words of an IPv6 address. */
  method ExtractSuffix(m: Mapping, addr6: array<Word>) returns (a: Ip4)
    requires m.Static? && Admitted(m) && addr6.Length == 4
    requires Four(addr6[0], addr6[1], addr6[2], addr6[3]) < 0x1_0000_0000_0000_0000_0000_0000_0000_0000
    ensures a == ExtractStatic(m, Four(addr6[0], addr6[1], addr6[2], addr6[3]))
  {
    hide Shl, Shr, Low, Pow2, Aligned, Or, Four;
    var bits := 32 - m.l4;
    ghost var b := Four(addr6[0], addr6[1], addr6[2], addr6[3]);
    var suffix := 0;
    SuffixBits(m, b);
    LastWord(addr6[..]);
    if m.l6 + bits == 128 {
      suffix := Low(addr6[3], bits);
      LowOfLow(b, 32, bits);
      ShrZero(b);
    } else if bits > 0 {
      var word, off := m.l6 / 32, m.l6 % 32;
      var raw := Shl(addr6[word], 32) + (if off + bits > 32 then addr6[word + 1] else 0);
      suffix := Low(Shr(raw, 64 - off - bits), bits);
      WindowHasSuffix(addr6[..], bits, m.l6);
    } else {
      ShlNothing(Shr(b, Spare(m)));
    }
    SuffixFits(m, suffix);
    OrDisjoint(m.a4, suffix, bits);
    a := Or(m.a4, suffix);
  }
}
