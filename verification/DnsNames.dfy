/** Domain names on the wire: printing, reading, skipping and comparing them. */
module DnsNames {
  import opened Wrappers
  import opened Checksum

  type Bytes = seq<Byte>

  const DOT: Byte := 46
  const NAME_BUFFER: nat := 256

  /** Where the first label of a dotted name ends. */
  function LabelEnd(d: Bytes): (n: nat)
    ensures n <= |d| && DOT !in d[..n] && (n < |d| ==> d[n] == DOT)
  {
    if d == [] || d[0] == DOT then 0
    else
      var n := 1 + LabelEnd(d[1..]);
      assert d[..n] == [d[0]] + d[1..][..n - 1];
      n
  }

  /** What follows the first label and its dot. */
  function AfterLabel(d: Bytes): (r: Bytes)
    requires d != []
    ensures |r| < |d|
  {
    var n := LabelEnd(d);
    if n < |d| then d[n + 1..] else []
  }

  // ------------------------------------------------------------ encoding

  /** `encode_dns_name`, pos bytes having been written already. */
  function Encode(d: Bytes, pos: nat): (r: Option<Bytes>)
    ensures r.Some? ==> 0 < |r.value| <= |d| + 2 && (pos < 255 ==> pos + |r.value| <= 255)
    decreases |d|
  {
    if d == [] then Some([0])
    else
      var n := LabelEnd(d);
      if n == 0 || n > 63 || pos + 1 + n >= 255 then None
      else
        var len: Byte := n;
        match Encode(AfterLabel(d), pos + 1 + n)
        case None => None
        case Some(r) => Some([len] + d[..n] + r)
  }

  method EncodeDnsName(domain: Bytes, qname: array<Byte>) returns (ok: bool, qpos: nat)
    requires qname.Length == NAME_BUFFER
    modifies qname
    ensures ok <==> Encode(domain, 0).Some?
    ensures ok ==> qpos <= qname.Length && qname[..qpos] == Encode(domain, 0).value
  {
    hide Encode, LabelEnd, AfterLabel;
    var pos, rest := 0, domain;
    while rest != []
      invariant pos < 255
      invariant Encode(domain, 0).Some? <==> Encode(rest, pos).Some?
      invariant Encode(rest, pos).Some? ==> Encode(domain, 0).value == qname[..pos] + Encode(rest, pos).value
      decreases |rest|
    {
      EncodeStep(rest, pos);
      var len := LabelEnd(rest);
      if len == 0 || len > 63 || pos + 1 + len >= 255 { return false, 0; }
      ghost var before := qname[..pos];
      qname[pos] := len;
      pos := pos + 1;
      CopyLabel(qname, pos, rest, len);
      assert qname[..pos + len] == before + ([len] + rest[..len]);
      pos := pos + len;
      rest := AfterLabel(rest);
    }
    EncodeEnd(pos);
    ghost var before := qname[..pos];
    qname[pos] := 0;
    assert qname[..pos + 1] == before + [0];
    return true, pos + 1;
  }

  lemma EncodeStep(d: Bytes, pos: nat)
    requires d != []
    ensures var n := LabelEnd(d);
      if n == 0 || n > 63 || pos + 1 + n >= 255 then Encode(d, pos) == None
      else Encode(d, pos) == match Encode(AfterLabel(d), pos + 1 + n)
                             case None => None
                             case Some(r) => Some([n] + d[..n] + r)
  {
    hide LabelEnd, AfterLabel;
  }

  lemma EncodeEnd(pos: nat)
    ensures Encode([], pos) == Some([0])
  {
  }

  method CopyLabel(qname: array<Byte>, pos: nat, from: Bytes, len: nat)
    requires len <= |from| && pos + len <= qname.Length
    modifies qname
    ensures qname[..pos] == old(qname[..pos]) && qname[pos..pos + len] == from[..len]
  {
    var i := 0;
    while i < len
      invariant 0 <= i <= len
      invariant qname[..pos] == old(qname[..pos]) && qname[pos..pos + i] == from[..i]
    {
      qname[pos + i] := from[i];
      assert qname[pos..pos + i + 1] == qname[pos..pos + i] + [from[i]];
      assert from[..i + 1] == from[..i] + [from[i]];
      i := i + 1;
    }
  }

  // ------------------------------------------------------------ decoding

  /** `decode_qname` from pos on, with the name printed so far and a buffer of size bytes:
      the name and the position behind it. */
  function Decode(pkt: Bytes, pos: nat, name: Bytes, size: nat): (r: Option<(Bytes, nat)>)
    decreases |pkt| - pos
  {
    if pos >= |pkt| then None
    else
      var len := pkt[pos];
      if len == 0 then Some((name, pos + 1))
      else if len / 64 != 0 || pos + 1 + len > |pkt| then None
      else if name != [] && |name| + 1 >= size then None
      else
        var name := if name != [] then name + [DOT] else name;
        if |name| + len >= size then None
        else Decode(pkt, pos + 1 + len, name + pkt[pos + 1..pos + 1 + len], size)
  }

  method DecodeQname(pkt: Bytes, offset: nat, size: nat) returns (r: Option<(Bytes, nat)>)
    ensures r == Decode(pkt, offset, [], size)
  {
    var pos, name := offset, [];
    while pos < |pkt|
      invariant Decode(pkt, offset, [], size) == Decode(pkt, pos, name, size)
      decreases |pkt| - pos
    {
      var len := pkt[pos];
      if len == 0 { return Some((name, pos + 1)); }
      if len / 64 != 0 || pos + 1 + len > |pkt| { return None; }
      if name != [] && |name| + 1 >= size { return None; }
      ghost var was := name;
      if name != [] { name := name + [DOT]; }
      if |name| + len >= size { return None; }
      name := name + pkt[pos + 1..pos + 1 + len];
      pos := pos + 1 + len;
    }
    return None;
  }

  /** The name without the dot that may end it. */
  function Trim(d: Bytes): (r: Bytes) {
    if d != [] && d[|d| - 1] == DOT then d[..|d| - 1] else d
  }

  function Dotted(name: Bytes, d: Bytes): (r: Bytes) {
    if name == [] then Trim(d) else if d == [] then name else name + [DOT] + Trim(d)
  }

  lemma TrimSplit(d: Bytes)
    requires d != [] && LabelEnd(d) > 0
    ensures var (n, rest) := (LabelEnd(d), AfterLabel(d));
      Trim(d) == if rest == [] then d[..n] else d[..n] + [DOT] + Trim(rest)
  {
    hide LabelEnd;
    var n, rest := LabelEnd(d), AfterLabel(d);
    if n == |d| {
      assert d[..n] == d;
      assert d[n - 1] in d[..n];
    } else {
      assert d == d[..n] + [DOT] + rest;
      if rest != [] {
        assert rest[|rest| - 1] == d[|d| - 1];
      }
    }
  }

  /** Taking the first label off commutes with dropping the last dot. */
  lemma TrimLabel(name: Bytes, d: Bytes)
    requires d != [] && LabelEnd(d) > 0
    ensures var n := LabelEnd(d);
      Dotted(name, d) == Dotted((if name == [] then [] else name + [DOT]) + d[..n], AfterLabel(d))
  {
    hide LabelEnd, AfterLabel, Trim;
    TrimSplit(d);
    var n, rest := LabelEnd(d), AfterLabel(d);
    if name == [] {
      assert [] + d[..n] == d[..n];
    } else {
      assert name + [DOT] + (d[..n] + [DOT] + Trim(rest)) == name + [DOT] + d[..n] + [DOT] + Trim(rest);
    }
  }

  predicate StandsAt(pkt: Bytes, at: nat, q: Bytes) {
    at + |q| <= |pkt| && pkt[at..at + |q|] == q
  }

  /** A name that can be written is read back as it was, up to a final dot. */
  lemma {:induction false} DecodeEncoded(d: Bytes, pos: nat, name: Bytes, pkt: Bytes, at: nat)
    requires Encode(d, pos).Some? && StandsAt(pkt, at, Encode(d, pos).value)
    requires |name| == if pos == 0 then 0 else pos - 1
    requires name == [] <==> pos == 0
    ensures Decode(pkt, at, name, NAME_BUFFER) == Some((Dotted(name, d), at + |Encode(d, pos).value|))
    decreases |d|
  {
    hide Encode, LabelEnd, AfterLabel, Trim, Dotted;
    var q := Encode(d, pos).value;
    if d == [] {
      EncodeEnd(pos);
      assert pkt[at] == q[0];
      DottedEmpty(name);
    } else {
      EncodeStep(d, pos);
      var n := LabelEnd(d);
      var r := Encode(AfterLabel(d), pos + 1 + n).value;
      HeadOfName(pkt, at, n, d[..n], r);
      var name' := (if name == [] then [] else name + [DOT]) + d[..n];
      DecodeEncoded(AfterLabel(d), pos + 1 + n, name', pkt, at + 1 + n);
      TrimLabel(name, d);
    }
  }

  lemma DottedEmpty(name: Bytes)
    ensures Dotted(name, []) == name
  {
  }

  /** The parts of a label and what follows it, where they stand. */
  lemma HeadOfName(pkt: Bytes, at: nat, len: Byte, label_: Bytes, rest: Bytes)
    requires |label_| == len && StandsAt(pkt, at, [len] + label_ + rest)
    ensures at + 1 + len <= |pkt| && pkt[at] == len && pkt[at + 1..at + 1 + len] == label_
    ensures StandsAt(pkt, at + 1 + len, rest)
  {
    var q := [len] + label_ + rest;
    var s := pkt[at..at + |q|];
    assert s[0] == len;
    assert s[1..1 + len] == label_ && s[1 + len..] == rest;
    var label', tail := pkt[at + 1..at + 1 + len], s[1..1 + len];
    forall i | 0 <= i < len ensures label'[i] == tail[i] {
      assert pkt[at + 1 + i] == s[1 + i];
    }
    assert pkt[at + 1 + len..at + |q|] == s[1 + len..];
  }

  // ------------------------------------------------------------ skipping

  /** `skip_dns_name`: where the name at pos ends, length bytes of it having been counted. */
  function Skip(resp: Bytes, pos: nat, length: nat): (r: Option<nat>)
    ensures r.Some? ==> pos < r.value <= |resp|
    decreases |resp| - pos
  {
    if pos >= |resp| then None
    else
      var b := resp[pos];
      if b == 0 then Some(pos + 1)
      else if b / 64 == 3 then (if pos + 1 < |resp| then Some(pos + 2) else None)
      else if b / 64 != 0 || pos + 1 + b > |resp| || length + b + 1 > 255 then None
      else Skip(resp, pos + 1 + b, length + b + 1)
  }

  method SkipDnsName(resp: Bytes, start: nat) returns (r: Option<nat>)
    ensures r == Skip(resp, start, 0)
  {
    var pos, length: nat := start, 0;
    while pos < |resp|
      invariant Skip(resp, start, 0) == Skip(resp, pos, length)
      decreases |resp| - pos
    {
      var b: nat := resp[pos];
      pos := pos + 1;
      if b == 0 { return Some(pos); }
      if b / 64 == 3 {
        if pos < |resp| { return Some(pos + 1); }
        return None;
      }
      if b / 64 != 0 || pos + b > |resp| { return None; }
      length := length + b + 1;
      if length > 255 { return None; }
      pos := pos + b;
    }
    return None;
  }

  /** Every name that can be written is skipped to its end. */
  lemma {:induction false} SkipEncoded(d: Bytes, pos: nat, resp: Bytes, at: nat)
    requires Encode(d, pos).Some? && StandsAt(resp, at, Encode(d, pos).value) && pos < 255
    ensures Skip(resp, at, pos) == Some(at + |Encode(d, pos).value|)
    decreases |d|
  {
    hide Encode, LabelEnd, AfterLabel;
    if d == [] {
      EncodeEnd(pos);
      assert resp[at] == Encode(d, pos).value[0];
    } else {
      EncodeStep(d, pos);
      var n := LabelEnd(d);
      HeadOfName(resp, at, n, d[..n], Encode(AfterLabel(d), pos + 1 + n).value);
      SkipEncoded(AfterLabel(d), pos + 1 + n, resp, at + 1 + n);
    }
  }

  // ------------------------------------------------------------ comparing

  function Lower(c: Byte): (l: Byte) {
    if 65 <= c <= 90 then c + 32 else c
  }

  predicate SameText(a: Bytes, b: Bytes) {
    |a| == |b| && forall i :: 0 <= i < |a| ==> Lower(a[i]) == Lower(b[i])
  }

  /** The walk over the question's labels beside the expected name: where the walk stops, and
      what is left of the name. */
  function Match(resp: Bytes, pos: nat, cur: Bytes): (r: Option<(nat, Bytes)>)
    ensures r.Some? ==> r.value.0 >= pos
    decreases |resp| - pos
  {
    if pos >= |resp| || resp[pos] == 0 then Some((pos, cur))
    else
      var len := resp[pos];
      if len / 64 != 0 || pos + 1 + len > |resp| then None
      else
        var n := LabelEnd(cur);
        if n == 0 || n != len || !SameText(resp[pos + 1..pos + 1 + len], cur[..n]) then None
        else Match(resp, pos + 1 + len, AfterLabel(cur))
  }

  /** The bytes from at on are q, but for the case of letters. */
  predicate ReadsAt(resp: Bytes, at: nat, q: Bytes) {
    at + |q| <= |resp| && SameText(resp[at..at + |q|], q)
  }

  /** The walk stopped at the end of the name in the packet, with nothing left but a dot. */
  predicate Accepted(resp: Bytes, m: Option<(nat, Bytes)>) {
    m.Some? && m.value.0 < |resp| && resp[m.value.0] == 0 && (m.value.1 == [] || m.value.1 == [DOT])
  }

  lemma SameTextJoin(a: Bytes, b: Bytes, c: Bytes, d: Bytes)
    requires |a| == |c|
    ensures SameText(a + b, c + d) <==> SameText(a, c) && SameText(b, d)
  {
    if SameText(a + b, c + d) {
      forall i | 0 <= i < |a| ensures Lower(a[i]) == Lower(c[i]) {
        assert (a + b)[i] == a[i] && (c + d)[i] == c[i];
      }
      forall i | 0 <= i < |b| ensures Lower(b[i]) == Lower(d[i]) {
        assert (a + b)[|a| + i] == b[i] && (c + d)[|a| + i] == d[i];
      }
    }
  }

  lemma ReadsHead(resp: Bytes, at: nat, len: Byte, name: Bytes, rest: Bytes)
    requires |name| == len <= 63
    ensures ReadsAt(resp, at, [len] + name + rest) <==>
      at + 1 + len <= |resp| && resp[at] == len && SameText(resp[at + 1..at + 1 + len], name)
      && ReadsAt(resp, at + 1 + len, rest)
  {
    var q := [len] + name + rest;
    if at + |q| <= |resp| {
      var x, y, z := resp[at..at + 1], resp[at + 1..at + 1 + len], resp[at + 1 + len..at + |q|];
      assert resp[at..at + |q|] == x + y + z;
      SameTextJoin(x + y, z, [len] + name, rest);
      SameTextJoin(x, y, [len], name);
    }
  }

  /** One label of the expected name beside one of the question. */
  lemma MatchStep(resp: Bytes, at: nat, d: Bytes)
    requires 0 < LabelEnd(d) <= 63
    ensures var n := LabelEnd(d);
      Match(resp, at, d) ==
        if at >= |resp| || resp[at] == 0 then Some((at, d))
        else if resp[at] != n || at + 1 + n > |resp| || !SameText(resp[at + 1..at + 1 + n], d[..n]) then None
        else Match(resp, at + 1 + n, AfterLabel(d))
  {
    hide LabelEnd, AfterLabel, SameText;
  }

  lemma AcceptedNothing(pos: nat, resp: Bytes, at: nat)
    ensures Encode([], pos) == Some([0])
    ensures Accepted(resp, Match(resp, at, [])) <==> ReadsAt(resp, at, [0])
    ensures Accepted(resp, Match(resp, at, [])) ==> Match(resp, at, []) == Some((at, []))
  {
    hide LabelEnd, AfterLabel;
    EncodeEnd(pos);
    NoLabel();
    assert at < |resp| ==> resp[at..at + 1] == [resp[at]];
  }

  /** A question is accepted exactly when it asks for the expected name, up to letter case. */
  lemma {:induction false} AcceptedIffName(d: Bytes, pos: nat, resp: Bytes, at: nat)
    requires Encode(d, pos).Some?
    ensures Accepted(resp, Match(resp, at, d)) <==> ReadsAt(resp, at, Encode(d, pos).value)
    ensures Accepted(resp, Match(resp, at, d)) ==>
      Match(resp, at, d) == Some((at + |Encode(d, pos).value| - 1, []))
    decreases |d|
  {
    hide Encode, LabelEnd, AfterLabel, Match, ReadsAt, SameText;
    if d == [] {
      AcceptedNothing(pos, resp, at);
    } else {
      EncodeStep(d, pos);
      var n := LabelEnd(d);
      var r := Encode(AfterLabel(d), pos + 1 + n).value;
      assert d != [DOT] by { DotIsNoLabel(); }
      MatchStep(resp, at, d);
      ReadsHead(resp, at, n, d[..n], r);
      AcceptedIffName(AfterLabel(d), pos + 1 + n, resp, at + 1 + n);
    }
  }

  lemma NoLabel()
    ensures LabelEnd([]) == 0
  {
  }

  lemma DotIsNoLabel()
    ensures LabelEnd([DOT]) == 0
  {
  }
}
