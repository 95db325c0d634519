/** The ingress classifier: which flow and which fragmented datagram a packet belongs to. */
module Flow {
  import opened Wrappers
  import opened Checksum

  /** What the dispatcher needs to know of a packet. */
  datatype FlowPacket = FlowPacket(
    fragmentKey: seq<Byte>, flowHash: nat, fragmentHash: nat, fragmented: bool, first: bool, transport: bool)

  // ------------------------------------------------------------ hashing

  function Mix(h: bv32, b: Byte): (r: bv32) {
    (h ^ (b as bv32)) * 16777619
  }

  function Scramble(h: bv32): (r: nat) {
    var a := (h ^ (h >> 16)) * 0x7feb352d;
    (a ^ (a >> 15)) as nat
  }

  function Fnv(s: seq<Byte>): (h: bv32) {
    if s == [] then 2166136261 else Mix(Fnv(s[..|s| - 1]), s[|s| - 1])
  }

  function Hash(s: seq<Byte>): (h: nat) {
    Scramble(Fnv(s))
  }

  method HashBytes(s: seq<Byte>) returns (h: nat)
    ensures h == Hash(s)
  {
    hide Mix, Scramble;
    var x := 2166136261;
    var i := 0;
    while i < |s|
      invariant 0 <= i <= |s|
      invariant x == Fnv(s[..i])
    {
      x := Mix(x, s[i]);
      assert s[..i + 1][..i] == s[..i];
      i := i + 1;
    }
    assert s[..i] == s;
    h := Scramble(x);
  }

  // ------------------------------------------------------------ headers

  function Be16(p: seq<Byte>, i: nat): (v: U16)
    requires i + 1 < |p|
  {
    var hi: int, lo: int := p[i], p[i + 1];
    hi * 256 + lo
  }

  /** The outermost header: addresses padded to 16 bytes, and n bytes of packet in all, of
      which the transport header starts at off. */
  datatype Head = Head(family: Byte, src: seq<Byte>, dst: seq<Byte>, off: nat, proto: Byte, n: nat,
                       fragment: FragmentField)

  datatype FragmentField = FragmentField(fragmented: bool, first: bool, id: seq<Byte>, proto: Byte)

  const WHOLE := FragmentField(false, true, [0, 0, 0, 0], 0)

  function Head4(p: seq<Byte>, quoted: bool): (r: Option<Head>)
    requires |p| > 0
    ensures r.Some? ==> |r.value.src| == |r.value.dst| == 16 && |r.value.fragment.id| == 4
    ensures r.Some? ==> r.value.off <= r.value.n <= |p|
  {
    if |p| < 20 then None
    else
      var off := (p[0] % 16) * 4;
      if off < 20 || off > |p| then None
      else
        var total := Be16(p, 2);
        if total < off || (!quoted && total != |p|) then None
        else
          var n := if total < |p| then total else |p|;
          var frag := Be16(p, 6);
          if frag >= 0x8000 then None
          else
            var fragmented := frag % 0x4000 != 0;
            if fragmented && (frag >= 0x4000 || ((frag / 0x2000) % 2 == 1 && (n - off) % 8 != 0)) then None
            else
              var id := if fragmented then p[4..6] + [0, 0] else [0, 0, 0, 0];
              var proto: Byte := p[9];
              Some(Head(4, p[12..16] + Zeros(12), p[16..20] + Zeros(12), off, proto, n,
                        FragmentField(fragmented, frag % 0x2000 == 0, id, if fragmented then proto else 0)))
  }

  predicate Extension(proto: Byte) {
    proto == 0 || proto == 43 || proto == 60 || proto == 51 || proto == 44
  }

  /** The fragment header at off, if it is one the classifier accepts. */
  function FragmentHeader(p: seq<Byte>, n: nat, off: nat): (r: Option<FragmentField>)
    requires off + 8 <= n <= |p|
    ensures r.Some? ==> |r.value.id| == 4
  {
    var frag := Be16(p, off + 2);
    if p[off + 1] != 0 || (frag / 2) % 4 != 0 then None
    else
      var fragmented := frag / 8 != 0 || frag % 2 == 1;
      if fragmented && frag % 2 == 1 && (n - off - 8) % 8 != 0 then None
      else if fragmented then Some(FragmentField(true, frag / 8 == 0, p[off + 4..off + 8], p[off]))
      else Some(WHOLE)
  }

  function ExtensionLength(p: seq<Byte>, off: nat, proto: Byte): (len: nat)
    requires off + 2 <= |p|
    ensures len >= 8
  {
    var units: nat := p[off + 1];
    if proto == 44 then 8
    else if proto == 51 then (units + 2) * 4
    else (units + 1) * 8
  }

  /** The extension headers from off on: where they end, what follows, and the fragment field. */
  function Walk(p: seq<Byte>, n: nat, off: nat, proto: Byte, count: nat, frag: Option<FragmentField>)
    : (r: Option<(nat, Byte, FragmentField)>)
    requires off <= n <= |p| && count <= 8
    requires frag.Some? ==> |frag.value.id| == 4
    ensures r.Some? ==> off <= r.value.0 <= n && |r.value.2.id| == 4
    decreases 8 - count
  {
    if !Extension(proto) then Some((off, proto, frag.GetOr(WHOLE)))
    else if count == 8 || off > 296 || off + 2 > n then None
    else if proto == 44 && (frag.Some? || off + 8 > n || FragmentHeader(p, n, off) == None) then None
    else
      var frag' := if proto == 44 then FragmentHeader(p, n, off) else frag;
      var len := ExtensionLength(p, off, proto);
      if len > n - off || off + len > 296 then None
      else if !frag'.GetOr(WHOLE).first then Some((off + len, p[off], frag'.GetOr(WHOLE)))
      else Walk(p, n, off + len, p[off], count + 1, frag')
  }

  function Head6(p: seq<Byte>, quoted: bool): (r: Option<Head>)
    requires |p| > 0
    ensures r.Some? ==> |r.value.src| == |r.value.dst| == 16 && |r.value.fragment.id| == 4
    ensures r.Some? ==> r.value.off <= r.value.n <= |p|
  {
    if |p| < 40 then None
    else
      var total := 40 + Be16(p, 4);
      if Be16(p, 4) == 0 || (!quoted && total != |p|) then None
      else
        var n := if total < |p| then total else |p|;
        match Walk(p, n, 40, p[6], 0, None)
        case None => None
        case Some((off, proto, frag)) => Some(Head(6, p[8..24], p[24..40], off, proto, n, frag))
  }

  function HeadOf(p: seq<Byte>, quoted: bool): (r: Option<Head>)
    ensures r.Some? ==> |r.value.src| == |r.value.dst| == 16 && |r.value.fragment.id| == 4
    ensures r.Some? ==> r.value.off <= r.value.n <= |p|
  {
    if p == [] then None
    else if p[0] / 16 == 4 then Head4(p, quoted)
    else if p[0] / 16 == 6 then Head6(p, quoted)
    else None
  }

  // ------------------------------------------------------------ the classification

  /** Protocols whose header starts with two port numbers. */
  predicate HasPorts(proto: Byte) {
    proto == 6 || proto == 17 || proto == 33 || proto == 132 || proto == 136
  }

  predicate IsEcho(proto: Byte, kind: Byte) {
    (proto == 1 && (kind == 0 || kind == 8)) || (proto == 58 && (kind == 128 || kind == 129))
  }

  predicate IsError(proto: Byte, kind: Byte) {
    (proto == 1 && (kind == 3 || kind == 11 || kind == 12)) || (proto == 58 && kind < 128)
  }

  /** memcmp(a, b) <= 0. */
  predicate NotAfter(a: seq<Byte>, b: seq<Byte>)
    requires |a| == |b|
  {
    a == [] || a[0] < b[0] || (a[0] == b[0] && NotAfter(a[1..], b[1..]))
  }

  /** The flow key: the two ends in one fixed order. */
  function FlowKey(family: Byte, proto: Byte, src: seq<Byte>, dst: seq<Byte>): (k: seq<Byte>)
    requires |src| == |dst|
  {
    [family, proto] + if NotAfter(src, dst) then src + dst else dst + src
  }

  function FragmentKey(h: Head): (k: seq<Byte>) {
    if h.fragment.fragmented
    then [h.family, h.fragment.proto] + h.src + h.dst + h.fragment.id + [0, 0]
    else Zeros(40)
  }

  /** The two bytes that tell the two ends of the flow apart, or nothing if the packet is malformed. */
  function Ends(p: seq<Byte>, h: Head): (r: Option<(seq<Byte>, seq<Byte>, bool)>)
    requires h.off <= h.n <= |p|
    ensures r.Some? ==> |r.value.0| == |r.value.1| == 2
  {
    if HasPorts(h.proto) then
      if h.off + 4 > h.n then None
      else Some((p[h.off..h.off + 2], p[h.off + 2..h.off + 4], true))
    else if (h.proto == 1 || h.proto == 58) && h.off + 8 <= h.n && IsEcho(h.proto, p[h.off]) then
      Some((p[h.off + 4..h.off + 6], p[h.off + 4..h.off + 6], true))
    else Some(([0, 0], [0, 0], false))
  }

  /** What a packet that an ICMP error quotes is classified as, if that decides the error's flow. */
  function Quoted(p: seq<Byte>, h: Head, quoted: bool): (r: Option<nat>)
    requires h.off <= h.n <= |p|
    decreases if quoted then 0 else 1, 0
  {
    if !quoted && (h.proto == 1 || h.proto == 58) && h.off + 8 <= h.n && IsError(h.proto, p[h.off]) then
      match Parse(p[h.off + 8..h.n], true)
      case None => None
      case Some(q) => if q.transport && (!q.fragmented || q.first) then Some(q.flowHash) else None
    else None
  }

  function Parse(p: seq<Byte>, quoted: bool): (r: Option<FlowPacket>)
    decreases if quoted then 0 else 1, 1
  {
    match HeadOf(p, quoted)
    case None => None
    case Some(h) =>
      var key := FragmentKey(h);
      var frag := if h.fragment.fragmented then Hash(key) else 0;
      var base := FlowPacket(key, 0, frag, h.fragment.fragmented, h.fragment.first, false);
      if h.fragment.fragmented && !h.fragment.first then Some(base)
      else
        match Quoted(p, h, quoted)
        case Some(hash) => Some(base.(flowHash := hash, transport := true))
        case None =>
          match Ends(p, h)
          case None => None
          case Some((s, d, transport)) =>
            Some(base.(flowHash := Hash(FlowKey(h.family, h.proto, h.src + s, h.dst + d)), transport := transport))
  }

  /** The parser as the program runs it: cursors off, proto and count advance over the
      extension headers, and an error message sends it into the packet it quotes. */
  method FlowParse(p: seq<Byte>, quoted: bool) returns (r: Option<FlowPacket>)
    ensures r == Parse(p, quoted)
    decreases !quoted
  {
    hide HeadOf, Hash, FlowKey, FragmentKey;
    var parsed := ParseHead(p, quoted);
    if parsed == None { return None; }
    var h := parsed.value;
    var out := FlowPacket(FragmentKey(h), 0, 0, h.fragment.fragmented, h.fragment.first, false);
    if h.fragment.fragmented {
      var hash := HashBytes(out.fragmentKey);
      out := out.(fragmentHash := hash);
      if !h.fragment.first { return Some(out); }
    }
    var src, dst := [0, 0], [0, 0];
    if HasPorts(h.proto) {
      if h.off + 4 > h.n { return None; }
      src, dst := p[h.off..h.off + 2], p[h.off + 2..h.off + 4];
      out := out.(transport := true);
    } else if (h.proto == 1 || h.proto == 58) && h.off + 8 <= h.n {
      if !quoted && IsError(h.proto, p[h.off]) {
        var q := FlowParse(p[h.off + 8..h.n], true);
        if q.Some? && q.value.transport && (!q.value.fragmented || q.value.first) {
          return Some(out.(flowHash := q.value.flowHash, transport := true));
        }
      }
      if IsEcho(h.proto, p[h.off]) {
        src, dst := p[h.off + 4..h.off + 6], p[h.off + 4..h.off + 6];
        out := out.(transport := true);
      }
    }
    var flow := HashBytes(FlowKey(h.family, h.proto, h.src + src, h.dst + dst));
    return Some(out.(flowHash := flow));
  }

  method ParseHead(p: seq<Byte>, quoted: bool) returns (r: Option<Head>)
    ensures r == HeadOf(p, quoted)
  {
    hide Walk;
    if p == [] { return None; }
    if p[0] / 16 == 4 {
      return Head4(p, quoted);
    } else if p[0] / 16 == 6 {
      if |p| < 40 { return None; }
      var total := 40 + Be16(p, 4);
      if Be16(p, 4) == 0 || (!quoted && total != |p|) { return None; }
      var n := if total < |p| then total else |p|;
      var w := WalkLoop(p, n);
      if w == None { return None; }
      return Some(Head(6, p[8..24], p[24..40], w.value.0, w.value.1, n, w.value.2));
    }
    return None;
  }

  method WalkLoop(p: seq<Byte>, n: nat) returns (r: Option<(nat, Byte, FragmentField)>)
    requires 40 <= n <= |p|
    ensures r == Walk(p, n, 40, p[6], 0, None)
  {
    hide FragmentHeader;
    var off, proto, count, seen, field := 40, p[6], 0, false, WHOLE;
    while Extension(proto)
      invariant 40 <= off <= n && count <= 8 && |field.id| == 4 && field.first
      invariant !seen ==> field == WHOLE
      invariant Walk(p, n, 40, p[6], 0, None) == Walk(p, n, off, proto, count, if seen then Some(field) else None)
      decreases 8 - count
    {
      if count == 8 || off > 296 || off + 2 > n { return None; }
      var next := p[off];
      if proto == 44 {
        if seen || off + 8 > n { return None; }
        var f := FragmentHeader(p, n, off);
        if f == None { return None; }
        seen, field := true, f.value;
      }
      var len := ExtensionLength(p, off, proto);
      if len > n - off || off + len > 296 { return None; }
      off, proto := off + len, next;
      if !field.first { return Some((off, proto, field)); }
      count := count + 1;
    }
    return Some((off, proto, field));
  }

  // ------------------------------------------------------------ both directions of a flow

  lemma {:induction false} OrderIsTotal(a: seq<Byte>, b: seq<Byte>)
    requires |a| == |b|
    ensures NotAfter(a, b) || NotAfter(b, a)
    ensures NotAfter(a, b) && NotAfter(b, a) ==> a == b
  {
    if a == [] {
    } else {
      OrderIsTotal(a[1..], b[1..]);
      assert a == [a[0]] + a[1..] && b == [b[0]] + b[1..];
    }
  }

  /** The key does not say which end sent the packet. */
  lemma FlowKeySymmetric(family: Byte, proto: Byte, a: seq<Byte>, b: seq<Byte>)
    requires |a| == |b|
    ensures FlowKey(family, proto, a, b) == FlowKey(family, proto, b, a)
  {
    hide NotAfter;
    OrderIsTotal(a, b);
  }

  /** Where byte i of a packet comes from when the two ends change places. */
  function Mirror(h: Head, i: nat): (j: nat) {
    var (at, len) := if h.family == 4 then (12, 4) else (8, 16);
    if at <= i < at + len then i + len
    else if at + len <= i < at + 2 * len then i - len
    else if HasPorts(h.proto) && h.off <= i < h.off + 2 then i + 2
    else if HasPorts(h.proto) && h.off + 2 <= i < h.off + 4 then i - 2
    else i
  }

  function Answer(kind: Byte): (r: Byte) {
    if kind == 8 then 0 else if kind == 0 then 8 else if kind == 128 then 129 else if kind == 129 then 128 else kind
  }

  /** The packet is classified by its own ports or echo identifier. */
  predicate Addressed(p: seq<Byte>, h: Head)
    requires h.off <= h.n <= |p|
  {
    || (HasPorts(h.proto) && h.off + 4 <= h.n)
    || ((h.proto == 1 || h.proto == 58) && h.off + 8 <= h.n && IsEcho(h.proto, p[h.off]))
  }

  lemma HeadStarts(p: seq<Byte>, quoted: bool)
    requires HeadOf(p, quoted).Some?
    ensures var h := HeadOf(p, quoted).value;
      (h.family == 4 && 20 <= h.off) || (h.family == 6 && 40 <= h.off)
  {
    hide Walk;
  }

  /** The same packet sent the other way: addresses and ports exchanged, echo request for reply. */
  function Reversed(p: seq<Byte>, h: Head): (q: seq<Byte>)
    requires HeadOf(p, false) == Some(h) && Addressed(p, h)
    ensures |q| == |p|
  {
    HeadStarts(p, false);
    var q := seq(|p|, i requires 0 <= i < |p| => p[Mirror(h, i)]);
    if HasPorts(h.proto) then q else q[h.off := Answer(p[h.off])]
  }

  /** Walks over packets that agree up to where the first ends, with any amount of packet
      behind that, agree, unless a fragment is found: its length is checked. */
  lemma {:induction false} WalkAgrees(p: seq<Byte>, q: seq<Byte>, n: nat, m: nat, off: nat, proto: Byte,
                                      count: nat, frag: Option<FragmentField>)
    requires off <= n <= |p| && off <= m <= |q| && count <= 8
    requires frag.Some? ==> |frag.value.id| == 4
    requires Walk(p, n, off, proto, count, frag).Some?
    requires var w := Walk(p, n, off, proto, count, frag).value;
      && w.0 <= m
      && (forall i :: off <= i < w.0 ==> p[i] == q[i])
      && (n == m || !w.2.fragmented)
    ensures Walk(q, m, off, proto, count, frag) == Walk(p, n, off, proto, count, frag)
    decreases 8 - count
  {
    hide FragmentHeader, ExtensionLength, Walk, Extension;
    WalkUnfolds(p, n, off, proto, count, frag);
    WalkUnfolds(q, m, off, proto, count, frag);
    if Extension(proto) {
      var frag' := if proto == 44 then FragmentHeader(p, n, off) else frag;
      StepAgrees(p, q, n, m, off, proto, count, frag);
      if frag'.GetOr(WHOLE).first {
        WalkAgrees(p, q, n, m, off + ExtensionLength(p, off, proto), p[off], count + 1, frag');
      }
    }
  }

  /** The header at off can be stepped over. */
  predicate CanStep(p: seq<Byte>, n: nat, off: nat, proto: Byte, count: nat, frag: Option<FragmentField>)
    requires off <= n <= |p|
  {
    && count < 8 && off <= 296 && off + 2 <= n
    && (proto == 44 ==> frag == None && off + 8 <= n && FragmentHeader(p, n, off).Some?)
    && ExtensionLength(p, off, proto) <= n - off && off + ExtensionLength(p, off, proto) <= 296
  }

  lemma WalkUnfolds(p: seq<Byte>, n: nat, off: nat, proto: Byte, count: nat, frag: Option<FragmentField>)
    requires off <= n <= |p| && count <= 8
    requires frag.Some? ==> |frag.value.id| == 4
    ensures !Extension(proto) ==> Walk(p, n, off, proto, count, frag) == Some((off, proto, frag.GetOr(WHOLE)))
    ensures Extension(proto) ==>
      Walk(p, n, off, proto, count, frag) ==
        if !CanStep(p, n, off, proto, count, frag) then None
        else
          var frag' := if proto == 44 then FragmentHeader(p, n, off) else frag;
          var off' := off + ExtensionLength(p, off, proto);
          if !frag'.GetOr(WHOLE).first then Some((off', p[off], frag'.GetOr(WHOLE)))
          else Walk(p, n, off', p[off], count + 1, frag')
  {
    hide FragmentHeader, ExtensionLength, Extension;
  }

  lemma StepAgrees(p: seq<Byte>, q: seq<Byte>, n: nat, m: nat, off: nat, proto: Byte,
                   count: nat, frag: Option<FragmentField>)
    requires off <= n <= |p| && off <= m <= |q| && count <= 8 && Extension(proto)
    requires frag.Some? ==> |frag.value.id| == 4
    requires Walk(p, n, off, proto, count, frag).Some?
    requires var w := Walk(p, n, off, proto, count, frag).value;
      && w.0 <= m
      && (forall i :: off <= i < w.0 ==> p[i] == q[i])
      && (n == m || !w.2.fragmented)
    ensures CanStep(p, n, off, proto, count, frag) && CanStep(q, m, off, proto, count, frag)
    ensures off + ExtensionLength(p, off, proto) <= Walk(p, n, off, proto, count, frag).value.0
    ensures q[off] == p[off]
    ensures ExtensionLength(q, off, proto) == ExtensionLength(p, off, proto)
    ensures proto == 44 ==> FragmentHeader(q, m, off) == FragmentHeader(p, n, off)
  {
    hide FragmentHeader, Walk, Extension;
    WalkUnfolds(p, n, off, proto, count, frag);
    WalkKeepsField(p, n, off, proto, count, frag);
    var w := Walk(p, n, off, proto, count, frag).value;
    assert off + ExtensionLength(p, off, proto) <= w.0;
    assert q[off + 1] == p[off + 1];
    if proto == 44 {
      FieldAgrees(p, q, n, m, off);
    }
  }

  lemma FieldAgrees(p: seq<Byte>, q: seq<Byte>, n: nat, m: nat, off: nat)
    requires off + 8 <= n <= |p| && off + 8 <= m <= |q|
    requires forall i :: off <= i < off + 8 ==> p[i] == q[i]
    requires FragmentHeader(p, n, off).Some?
    requires n == m || !FragmentHeader(p, n, off).value.fragmented
    ensures FragmentHeader(q, m, off) == FragmentHeader(p, n, off)
  {
    assert p[off + 4..off + 8] == q[off + 4..off + 8];
  }

  /** The fragment field of a walk is that of the only fragment header it met. */
  lemma {:induction false} WalkKeepsField(p: seq<Byte>, n: nat, off: nat, proto: Byte, count: nat,
                                          frag: Option<FragmentField>)
    requires off <= n <= |p| && count <= 8
    requires frag.Some? ==> |frag.value.id| == 4
    requires Walk(p, n, off, proto, count, frag).Some?
    ensures frag.Some? ==> Walk(p, n, off, proto, count, frag).value.2 == frag.value
    ensures proto == 44 ==> off + 8 <= n && FragmentHeader(p, n, off) == Some(Walk(p, n, off, proto, count, frag).value.2)
    decreases 8 - count
  {
    hide FragmentHeader;
    if Extension(proto) {
      var frag' := if proto == 44 then FragmentHeader(p, n, off) else frag;
      var len := ExtensionLength(p, off, proto);
      if frag'.GetOr(WHOLE).first {
        WalkKeepsField(p, n, off + len, p[off], count + 1, frag');
      }
    }
  }

  /** What Reversed keeps: everything outside the addresses and the ports. */
  lemma ReversedHead4(p: seq<Byte>, h: Head)
    requires HeadOf(p, false) == Some(h) && Addressed(p, h) && h.family == 4
    ensures HeadOf(Reversed(p, h), false) == Some(h.(src := h.dst, dst := h.src))
  {
    hide Walk;
    HeadStarts(p, false);
    var q := Reversed(p, h);
    assert forall i :: 0 <= i < 12 ==> q[i] == p[i];
    assert q[12..16] == p[16..20] && q[16..20] == p[12..16] && q[4..6] == p[4..6];
    assert Be16(q, 2) == Be16(p, 2) && Be16(q, 6) == Be16(p, 6);
  }

  lemma ReversedHead6(p: seq<Byte>, h: Head)
    requires HeadOf(p, false) == Some(h) && Addressed(p, h) && h.family == 6
    ensures HeadOf(Reversed(p, h), false) == Some(h.(src := h.dst, dst := h.src))
  {
    hide Walk, Extension;
    HeadStarts(p, false);
    var q := Reversed(p, h);
    assert forall i :: 0 <= i < 8 ==> q[i] == p[i];
    assert forall i :: 40 <= i < h.off ==> q[i] == p[i];
    assert q[8..24] == p[24..40] && q[24..40] == p[8..24];
    assert Be16(q, 4) == Be16(p, 4);
    WalkAgrees(p, q, h.n, h.n, 40, p[6], 0, None);
  }

  lemma ReversedEnds(p: seq<Byte>, h: Head)
    requires HeadOf(p, false) == Some(h) && Addressed(p, h)
    ensures var (q, h') := (Reversed(p, h), h.(src := h.dst, dst := h.src));
      && Ends(p, h).Some? && Ends(q, h') == Some((Ends(p, h).value.1, Ends(p, h).value.0, true))
      && Quoted(p, h, false) == None && Quoted(q, h', false) == None
  {
    hide HeadOf, Parse;
    HeadStarts(p, false);
    var q := Reversed(p, h);
    ReversedWords(p, h);
    hide Reversed;
  }

  lemma ReversedByte(p: seq<Byte>, h: Head, i: nat)
    requires HeadOf(p, false) == Some(h) && Addressed(p, h) && h.off <= i < |p|
    ensures (HasPorts(h.proto) || i != h.off) ==> Mirror(h, i) < |p| && Reversed(p, h)[i] == p[Mirror(h, i)]
    ensures HasPorts(h.proto) ==>
      Mirror(h, i) == if i < h.off + 2 then i + 2 else if i < h.off + 4 then i - 2 else i
    ensures !HasPorts(h.proto) ==> Mirror(h, i) == i
  {
    hide HeadOf, Parse, Walk;
    HeadStarts(p, false);
  }

  lemma WordAt(p: seq<Byte>, at: nat)
    requires at + 2 <= |p|
    ensures p[at..at + 2] == [p[at], p[at + 1]]
  {
  }

  lemma ReversedWords(p: seq<Byte>, h: Head)
    requires HeadOf(p, false) == Some(h) && Addressed(p, h)
    ensures h.off <= h.n <= |p|
    ensures var q := Reversed(p, h);
      && |q| == |p|
      && (HasPorts(h.proto) ==>
            q[h.off..h.off + 2] == p[h.off + 2..h.off + 4] && q[h.off + 2..h.off + 4] == p[h.off..h.off + 2])
      && (!HasPorts(h.proto) ==> q[h.off + 4..h.off + 6] == p[h.off + 4..h.off + 6])
  {
    hide HeadOf, Parse, Walk, Reversed, Mirror;
    var q := Reversed(p, h);
    if HasPorts(h.proto) {
      ReversedByte(p, h, h.off);
      ReversedByte(p, h, h.off + 1);
      ReversedByte(p, h, h.off + 2);
      ReversedByte(p, h, h.off + 3);
      WordAt(q, h.off);
      WordAt(q, h.off + 2);
      WordAt(p, h.off);
      WordAt(p, h.off + 2);
    } else {
      ReversedByte(p, h, h.off + 4);
      ReversedByte(p, h, h.off + 5);
      WordAt(q, h.off + 4);
      WordAt(p, h.off + 4);
    }
  }

  /** Both directions of a flow get one hash: a packet with ports and its mirror image, an
      echo request and its reply. The mirror image is itself well formed. */
  lemma ReversedSharesFlow(p: seq<Byte>, h: Head)
    requires HeadOf(p, false) == Some(h) && Addressed(p, h)
    requires h.fragment.first
    ensures var (a, b) := (Parse(p, false), Parse(Reversed(p, h), false));
      && a.Some? && b.Some?
      && a.value.transport && b.value.transport
      && a.value.flowHash == b.value.flowHash
  {
    hide HeadOf, Ends, Quoted, FlowKey, Hash, FragmentKey, Reversed;
    var q := Reversed(p, h);
    assert HeadOf(q, false) == Some(h.(src := h.dst, dst := h.src)) by {
      HeadStarts(p, false);
      if h.family == 4 { ReversedHead4(p, h); } else { ReversedHead6(p, h); }
    }
    ReversedEnds(p, h);
    assert Ends(p, h).value.2 by { AddressedHasTransport(p, h); }
    var (s, d, _) := Ends(p, h).value;
    FlowKeySymmetric(h.family, h.proto, h.src + s, h.dst + d);
  }

  lemma AddressedHasTransport(p: seq<Byte>, h: Head)
    requires h.off <= h.n <= |p| && Addressed(p, h)
    ensures Ends(p, h).Some? && Ends(p, h).value.2
    ensures Quoted(p, h, false) == None && Quoted(p, h, true) == None
  {
    hide Parse;
  }

  // ------------------------------------------------------------ errors follow the flow they quote

  lemma QuotedHead(p: seq<Byte>, m: nat, h: Head)
    requires HeadOf(p, false) == Some(h) && !h.fragment.fragmented && h.off <= m <= |p|
    ensures HeadOf(p[..m], true) == Some(h.(n := m))
  {
    hide Walk, Extension;
    HeadStarts(p, false);
    var q := p[..m];
    assert Be16(q, 2) == Be16(p, 2) && Be16(q, 4) == Be16(p, 4) && Be16(q, 6) == Be16(p, 6);
    if h.family == 4 {
      assert q[12..16] == p[12..16] && q[16..20] == p[16..20];
    } else {
      assert q[8..24] == p[8..24] && q[24..40] == p[24..40];
      WalkAgrees(p, q, h.n, m, 40, p[6], 0, None);
    }
  }

  /** A quote that keeps the ports or the identifier of a whole packet is classified as the packet is. */
  lemma QuoteSharesFlow(p: seq<Byte>, m: nat, h: Head)
    requires HeadOf(p, false) == Some(h) && !h.fragment.fragmented && h.fragment.first
    requires h.off <= m <= |p| && Addressed(p[..m], h.(n := m))
    ensures Parse(p, false).Some? && Parse(p[..m], true) == Parse(p, false)
    ensures Parse(p, false).value.transport && !Parse(p, false).value.fragmented
  {
    hide HeadOf, Ends, Quoted, FlowKey, Hash, FragmentKey, Extension, Walk;
    QuotedHead(p, m, h);
    var h' := h.(n := m);
    assert HeadOf(p[..m], true) == Some(h');
    WholePacket(p, h);
    assert Ends(p[..m], h') == Ends(p, h) by { QuotedEnds(p, m, h); }
    AddressedHasTransport(p[..m], h');
    AddressedHasTransport(p, h);
    assert FragmentKey(h') == FragmentKey(h) by { SameFragmentKey(h, m); }
  }

  lemma SameFragmentKey(h: Head, m: nat)
    ensures FragmentKey(h.(n := m)) == FragmentKey(h)
  {
  }

  lemma WholePacket(p: seq<Byte>, h: Head)
    requires HeadOf(p, false) == Some(h)
    ensures h.n == |p|
  {
    hide Walk;
  }

  lemma QuotedEnds(p: seq<Byte>, m: nat, h: Head)
    requires h.off <= m <= |p| == h.n && Addressed(p[..m], h.(n := m))
    ensures Addressed(p, h) && Ends(p[..m], h.(n := m)) == Ends(p, h)
  {
    if HasPorts(h.proto) {
      assert p[..m][h.off..h.off + 2] == p[h.off..h.off + 2];
      assert p[..m][h.off + 2..h.off + 4] == p[h.off + 2..h.off + 4];
    } else {
      assert p[..m][h.off + 4..h.off + 6] == p[h.off + 4..h.off + 6];
    }
  }

  /** An ICMP error e about packet p goes where p goes, however little of p beyond its ports it quotes. */
  lemma ErrorFollowsFlow(e: seq<Byte>, he: Head, p: seq<Byte>, h: Head, m: nat)
    requires HeadOf(e, false) == Some(he) && he.fragment.first
    requires (he.proto == 1 || he.proto == 58) && he.off + 8 <= he.n && IsError(he.proto, e[he.off])
    requires HeadOf(p, false) == Some(h) && !h.fragment.fragmented && h.fragment.first
    requires h.off <= m <= |p| && Addressed(p[..m], h.(n := m))
    requires e[he.off + 8..he.n] == p[..m]
    ensures Parse(e, false).Some? && Parse(p, false).Some? && Parse(e, false).value.transport
    ensures Parse(e, false).value.flowHash == Parse(p, false).value.flowHash
  {
    hide HeadOf, Ends, FlowKey, Hash, FragmentKey;
    QuoteSharesFlow(p, m, h);
    assert Quoted(e, he, false) == Some(Parse(p, false).value.flowHash);
  }
}
