/** The DNS64 answer one end builds and the other end reads the NAT64 prefix from. */
module DnsReply {
  import opened Wrappers
  import opened Rfc6052
  import opened Checksum
  import opened DnsNames
  import opened Pref64
  import A = AddressBytes

  // ------------------------------------------------------------ building

  /** QR set, the recursion bit copied, one question, no authority or additional records. */
  function Header(req: Bytes, rcode: nat, added: nat): (h: Bytes)
    requires |req| >= 12
    ensures |h| == 12
  {
    [req[0], req[1], 128 + req[2] % 2, 128 + rcode % 16, 0, 1, (added / 256) % 256, added % 256, 0, 0, 0, 0]
  }

  function Record(rtype: nat, data: Bytes): (r: Bytes)
    requires |data| < 256
    ensures |r| == 12 + |data|
  {
    [0xc0, 0x0c, (rtype / 256) % 256, rtype % 256, 0, 1, 0, 0, 0, 0x3c, 0, |data|] + data
  }

  function DataLength(rtype: nat): (n: nat) {
    if rtype == 28 then 16 else 4
  }

  /** The data of one answer, or nothing when the prefix has no length RFC 6052 knows. */
  function Data(p: Prefix, rtype: nat, a: Bytes): (r: Option<Bytes>)
    requires |p.bytes| == 16 && |a| == 4
    ensures r.Some? ==> |r.value| == DataLength(rtype)
  {
    if rtype != 28 then Some(a)
    else if PrefixLength(p.len) then Some(A.Synthesize(p.len, p.bytes, a))
    else None
  }

  /** The answers that fit in room bytes, and how many they are. */
  function Answers(list: seq<Bytes>, p: Prefix, rtype: nat, room: nat): (r: (Bytes, nat))
    requires |p.bytes| == 16 && forall a :: a in list ==> |a| == 4
    ensures r.1 <= |list| && |r.0| <= room
  {
    if list == [] || 12 + DataLength(rtype) > room then ([], 0)
    else
      match Data(p, rtype, list[0])
      case None => Answers(list[1..], p, rtype, room)
      case Some(data) =>
        var (rest, n) := Answers(list[1..], p, rtype, room - 12 - |data|);
        (Record(rtype, data) + rest, n + 1)
  }

  /** `build_dns64_reply`: the reply, or nothing when the buffer cannot hold the question. */
  function Build(req: Bytes, qsec: nat, p: Prefix, rtype: nat, list: seq<Bytes>, rcode: nat, capacity: nat): (r: Bytes)
    requires |p.bytes| == 16 && (forall a :: a in list ==> |a| == 4) && |req| >= 12 + qsec
    ensures |r| <= capacity
  {
    if 12 + qsec > capacity then []
    else
      var (answers, added) := Answers(list, p, rtype, capacity - 12 - qsec);
      Header(req, rcode, added) + req[12..12 + qsec] + answers
  }

  method CopyBytes(resp: array<Byte>, pos: nat, src: Bytes)
    requires pos + |src| <= resp.Length
    modifies resp
    ensures resp[..pos] == old(resp[..pos]) && resp[pos..pos + |src|] == src
    ensures resp[..pos + |src|] == old(resp[..pos]) + src
  {
    var i := 0;
    while i < |src|
      invariant 0 <= i <= |src|
      invariant resp[..pos] == old(resp[..pos]) && resp[pos..pos + i] == src[..i]
    {
      resp[pos + i] := src[i];
      assert resp[pos..pos + i + 1] == resp[pos..pos + i] + [src[i]];
      i := i + 1;
    }
    assert resp[..pos + i] == resp[..pos] + resp[pos..pos + i];
  }

  lemma AnswersStep(list: seq<Bytes>, i: nat, p: Prefix, rtype: nat, room: nat)
    requires |p.bytes| == 16 && i <= |list| && forall a :: a in list ==> |a| == 4
    ensures i == |list| || 12 + DataLength(rtype) > room ==> Answers(list[i..], p, rtype, room) == ([], 0)
    ensures i < |list| && 12 + DataLength(rtype) <= room ==>
      Answers(list[i..], p, rtype, room) ==
        match Data(p, rtype, list[i])
        case None => Answers(list[i + 1..], p, rtype, room)
        case Some(data) =>
          var (rest, n) := Answers(list[i + 1..], p, rtype, room - 12 - |data|);
          (Record(rtype, data) + rest, n + 1)
  {
    hide Data, Record;
    if i < |list| {
      assert list[i..][0] == list[i] && list[i..][1..] == list[i + 1..];
    }
  }

  /** The header with no answers yet, and the question copied from the request. */
  method WriteQuestion(req: Bytes, qsec: nat, rcode: nat, resp: array<Byte>)
    requires |req| >= 12 + qsec && 12 + qsec <= resp.Length
    modifies resp
    ensures resp[..12 + qsec] == Header(req, rcode, 0) + req[12..12 + qsec]
  {
    CopyBytes(resp, 0, Zeros(12));
    resp[0], resp[1] := req[0], req[1];
    resp[2], resp[3] := 128 + req[2] % 2, 128 + rcode % 16;
    resp[5] := 1;
    assert resp[..12] == Header(req, rcode, 0);
    CopyBytes(resp, 12, req[12..12 + qsec]);
  }

  lemma Regroup(a: Bytes, b: Bytes, c: Bytes, d: Bytes)
    ensures a + b + c == a + (b + c) && b + (c + d) == b + c + d
  {
  }

  method WriteRecord(rtype: nat, data: Bytes, resp: array<Byte>, at: nat) returns (pos: nat)
    requires at + 12 + |data| <= resp.Length && |data| < 256
    modifies resp
    ensures pos == at + 12 + |data| && resp[..pos] == old(resp[..at]) + Record(rtype, data)
  {
    hide Record;
    var record := Record(rtype, data);
    CopyBytes(resp, at, record);
    pos := at + 12 + |data|;
  }

  method WriteAnswers(start: nat, p: Prefix, rtype: nat, list: seq<Bytes>, resp: array<Byte>)
    returns (pos: nat, added: nat)
    requires |p.bytes| == 16 && (forall a :: a in list ==> |a| == 4) && start <= resp.Length
    modifies resp
    ensures start <= pos <= resp.Length
    ensures resp[..pos] == old(resp[..start]) + Answers(list, p, rtype, resp.Length - start).0
    ensures added == Answers(list, p, rtype, resp.Length - start).1
  {
    hide Answers, Record, Data;
    var i := 0;
    pos, added := start, 0;
    ghost var first, done := resp[..start], [];
    assert list[0..] == list;
    assert done + Answers(list, p, rtype, resp.Length - start).0 == Answers(list, p, rtype, resp.Length - start).0;
    while i < |list|
      invariant 0 <= i <= |list| && pos <= resp.Length && pos == start + |done|
      invariant resp[..pos] == first + done
      invariant Answers(list, p, rtype, resp.Length - start).0 == done + Answers(list[i..], p, rtype, resp.Length - pos).0
      invariant Answers(list, p, rtype, resp.Length - start).1 == added + Answers(list[i..], p, rtype, resp.Length - pos).1
    {
      AnswersStep(list, i, p, rtype, resp.Length - pos);
      if pos + 12 + DataLength(rtype) > resp.Length { break; }
      var data := Data(p, rtype, list[i]);
      if data.Some? {
        ghost var record := Record(rtype, data.value);
        Regroup(first, done, record, Answers(list[i + 1..], p, rtype, resp.Length - pos - 12 - |data.value|).0);
        pos := WriteRecord(rtype, data.value, resp, pos);
        done := done + record;
        added := added + 1;
      }
      i := i + 1;
    }
    AnswersStep(list, i, p, rtype, resp.Length - pos);
  }

  method BuildDns64Reply(req: Bytes, qsec: nat, p: Prefix, rtype: nat, list: seq<Bytes>, rcode: nat, resp: array<Byte>)
    returns (len: nat)
    requires |p.bytes| == 16 && (forall a :: a in list ==> |a| == 4) && |req| >= 12 + qsec
    modifies resp
    ensures len <= resp.Length && resp[..len] == Build(req, qsec, p, rtype, list, rcode, resp.Length)
  {
    hide Answers, Header;
    if 12 + qsec > resp.Length { return 0; }
    WriteQuestion(req, qsec, rcode, resp);
    var pos, added := WriteAnswers(12 + qsec, p, rtype, list, resp);
    resp[6], resp[7] := (added / 256) % 256, added % 256;
    FinishHeader(req, qsec, rcode, added, Answers(list, p, rtype, resp.Length - 12 - qsec).0, resp[..pos]);
    return pos;
  }

  lemma FinishHeader(req: Bytes, qsec: nat, rcode: nat, added: nat, done: Bytes, r: Bytes)
    requires |req| >= 12 + qsec && |r| == 12 + qsec + |done|
    requires r == (Header(req, rcode, 0) + req[12..12 + qsec] + done)[6 := (added / 256) % 256][7 := added % 256]
    ensures r == Header(req, rcode, added) + req[12..12 + qsec] + done
  {
  }

  // ------------------------------------------------------------ parsing

  datatype Result = Failed | Truncated | Found(prefix: Prefix)

  function Be16(resp: Bytes, i: nat): (v: nat)
    requires i + 1 < |resp|
  {
    var hi: nat, lo: nat := resp[i], resp[i + 1];
    hi * 256 + lo
  }

  /** n further questions, each a name and four bytes. */
  function SkipQuestions(resp: Bytes, pos: nat, n: nat): (r: Option<nat>)
    decreases n
  {
    if n == 0 then Some(pos)
    else
      match Skip(resp, pos, 0)
      case None => None
      case Some(next) => if next + 4 > |resp| then None else SkipQuestions(resp, next + 4, n - 1)
  }

  /** The first prefix that an AAAA answer reveals, of at most n answers. */
  function Scan(resp: Bytes, pos: nat, n: nat): (r: Option<Prefix>)
    decreases n
  {
    if n == 0 || pos >= |resp| then None
    else
      match Skip(resp, pos, 0)
      case None => None
      case Some(at) =>
        if at + 10 > |resp| || at + 10 + Be16(resp, at + 8) > |resp| then None
        else
          var len := Be16(resp, at + 8);
          var found :=
            if Be16(resp, at) == 28 && Be16(resp, at + 2) == 1 && len == 16
            then ExtractPref64(resp[at + 10..at + 26]) else None;
          if found.Some? then found else Scan(resp, at + 10 + len, n - 1)
  }

  /** `parse_dns_response` */
  function Parse(resp: Bytes, id: nat, domain: Bytes): (r: Result) {
    if |resp| < 12 || Be16(resp, 0) != id || resp[2] / 128 == 0 then Failed
    else if (resp[2] / 2) % 2 == 1 then Truncated
    else if resp[3] % 16 != 0 || Be16(resp, 4) < 1 || Be16(resp, 6) < 1 then Failed
    else
      var m := Match(resp, 12, domain);
      if !Accepted(resp, m) then Failed
      else
        var pos := m.value.0 + 1;
        if pos + 4 > |resp| || Be16(resp, pos) != 28 || Be16(resp, pos + 2) != 1 then Failed
        else
          match SkipQuestions(resp, pos + 4, Be16(resp, 4) - 1)
          case None => Failed
          case Some(start) =>
            match Scan(resp, start, Be16(resp, 6))
            case None => Failed
            case Some(p) => Found(p)
  }

  method MatchQuestion(resp: Bytes, domain: Bytes) returns (r: Option<(nat, Bytes)>)
    ensures r == Match(resp, 12, domain)
  {
    hide LabelEnd, AfterLabel;
    var pos, cur := 12, domain;
    while pos < |resp| && resp[pos] != 0
      invariant Match(resp, 12, domain) == Match(resp, pos, cur)
      decreases |resp| - pos
    {
      if resp[pos] / 64 != 0 { return None; }
      var len := resp[pos];
      pos := pos + 1;
      if pos + len > |resp| { return None; }
      var n := LabelEnd(cur);
      if n == 0 || n != len || !SameText(resp[pos..pos + len], cur[..n]) { return None; }
      pos := pos + len;
      cur := AfterLabel(cur);
    }
    return Some((pos, cur));
  }

  method ScanAnswers(resp: Bytes, start: nat, count: nat) returns (r: Option<Prefix>)
    ensures r == Scan(resp, start, count)
  {
    hide ExtractPref64, Skip;
    var pos: nat, i := start, 0;
    while i < count && pos < |resp|
      invariant 0 <= i <= count && Scan(resp, start, count) == Scan(resp, pos, count - i)
    {
      var next := SkipDnsName(resp, pos);
      if next == None { return None; }
      pos := next.value;
      if pos + 10 > |resp| { break; }
      var kind, class_, len := Be16(resp, pos), Be16(resp, pos + 2), Be16(resp, pos + 8);
      pos := pos + 10;
      if pos + len > |resp| { break; }
      if kind == 28 && class_ == 1 && len == 16 {
        var found := ExtractPref64(resp[pos..pos + 16]);
        if found.Some? { return found; }
      }
      pos := pos + len;
      i := i + 1;
    }
    return None;
  }

  method ParseDnsResponse(resp: Bytes, id: nat, domain: Bytes) returns (r: Result)
    ensures r == Parse(resp, id, domain)
  {
    hide Match, Scan, Skip;
    if |resp| < 12 { return Failed; }
    if Be16(resp, 0) != id { return Failed; }
    if resp[2] / 128 == 0 { return Failed; }
    if (resp[2] / 2) % 2 == 1 { return Truncated; }
    if resp[3] % 16 != 0 { return Failed; }
    var qdcount, ancount := Be16(resp, 4), Be16(resp, 6);
    if qdcount < 1 || ancount < 1 { return Failed; }
    var m := MatchQuestion(resp, domain);
    if m == None { return Failed; }
    var (pos, cur) := m.value;
    if pos >= |resp| || resp[pos] != 0 { return Failed; }
    pos := pos + 1;
    if cur != [] && cur != [DOT] { return Failed; }
    if pos + 4 > |resp| { return Failed; }
    var qtype, qclass := Be16(resp, pos), Be16(resp, pos + 2);
    pos := pos + 4;
    if qtype != 28 || qclass != 1 { return Failed; }
    var q := 1;
    ghost var first := pos;
    while q < qdcount
      invariant 1 <= q <= qdcount
      invariant SkipQuestions(resp, first, qdcount - 1) == SkipQuestions(resp, pos, qdcount - q)
    {
      var next := SkipDnsName(resp, pos);
      if next == None { return Failed; }
      pos := next.value;
      if pos + 4 > |resp| { return Failed; }
      pos := pos + 4;
      q := q + 1;
    }
    var found := ScanAnswers(resp, pos, ancount);
    if found == None { return Failed; }
    return Found(found.value);
  }

  // ------------------------------------------------------------ end to end

  /** The fields of one record, where it stands behind pre. */
  lemma RecordFields(pre: Bytes, data: Bytes, rest: Bytes)
    requires |data| == 16
    ensures var (r, at) := (pre + (Record(28, data) + rest), |pre| + 2);
      && |r| == |pre| + 28 + |rest| && r[|pre|] == 0xc0
      && Be16(r, at) == 28 && Be16(r, at + 2) == 1 && Be16(r, at + 8) == 16 && r[at + 10..at + 26] == data
  {
    var r, rec := pre + (Record(28, data) + rest), Record(28, data);
    assert forall i :: 0 <= i < 28 ==> r[|pre| + i] == rec[i];
    assert r[|pre| + 12..|pre| + 28] == data;
  }

  lemma ScanRecord(pre: Bytes, data: Bytes, rest: Bytes, n: nat)
    requires n > 0 && |data| == 16
    ensures var r := pre + (Record(28, data) + rest);
      Scan(r, |pre|, n) == if ExtractPref64(data).Some? then ExtractPref64(data) else Scan(r, |pre| + 28, n - 1)
  {
    hide ExtractPref64, Record;
    RecordFields(pre, data, rest);
  }

  lemma ScanNothing(resp: Bytes, pos: nat)
    ensures Scan(resp, pos, 0) == None
  {
  }

  /** Scanning what was built stops at the first answer if the prefix is usable, and finds
      nothing in any of them if it is not. */
  lemma {:induction false} ScanBuilt(pre: Bytes, list: seq<Bytes>, p: Prefix, room: nat)
    requires PrefixLength(p.len) && |p.bytes| == 16 && p.bytes == A.Cleared(p.len, p.bytes)
    requires forall a :: a in list ==> WellKnown(a)
    ensures forall a :: a in list ==> |a| == 4
    ensures var (answers, n) := Answers(list, p, 28, room);
      Scan(pre + answers, |pre|, n) == if n == 0 || !Usable(p) then None else Some(p)
    decreases |list|
  {
    hide Usable, ExtractPref64, Record, Scan, A.Synthesize, A.Cleared, Answers;
    assert forall a :: a in list ==> |a| == 4;
    assert list[0..] == list;
    AnswersStep(list, 0, p, 28, room);
    ScanNothing(pre + Answers(list, p, 28, room).0, |pre|);
    if list != [] && 28 <= room {
      var data := A.Synthesize(p.len, p.bytes, list[0]);
      var (rest, n) := Answers(list[1..], p, 28, room - 28);
      DiscoveryFindsPrefix(p, list[0]);
      ScanRecord(pre, data, rest, n + 1);
      ScanBuilt(pre + Record(28, data), list[1..], p, room - 28);
      assert pre + Record(28, data) + rest == pre + (Record(28, data) + rest);
    }
  }

  lemma SameTextSelf(s: Bytes)
    ensures SameText(s, s)
  {
  }

  /** What the parser looks at in front of the answers. */
  lemma ReplyFields(req: Bytes, q: Bytes, added: nat, answers: Bytes)
    requires |req| >= 12 + |q| + 4 && added < 0x1_0000
    requires req[12..12 + |q|] == q && req[12 + |q|..16 + |q|] == [0, 28, 0, 1]
    ensures var (r, e) := (Header(req, 0, added) + req[12..16 + |q|] + answers, 12 + |q|);
      && |r| == e + 4 + |answers| && Be16(r, 0) == Be16(req, 0) && r[2] / 128 == 1 && (r[2] / 2) % 2 == 0
      && r[3] % 16 == 0 && Be16(r, 4) == 1 && Be16(r, 6) == added
      && StandsAt(r, 12, q) && Be16(r, e) == 28 && Be16(r, e + 2) == 1
      && r[..e + 4] + answers == r
  {
    var r := Header(req, 0, added) + req[12..16 + |q|] + answers;
    var section := req[12..16 + |q|];
    assert section[..|q|] == q && section[|q|..] == [0, 28, 0, 1];
    assert r[12..16 + |q|] == section;
    assert r[12..12 + |q|] == section[..|q|];
    assert r[12 + |q|..16 + |q|] == section[|q|..];
    assert forall i :: 0 <= i < 4 ==> r[12 + |q| + i] == [0, 28, 0, 1][i];
    assert r[6] == added / 256 && r[7] == added % 256;
  }

  lemma ParseOneQuestion(r: Bytes, id: nat, domain: Bytes, e: nat, added: nat)
    requires |r| >= 12 && Be16(r, 0) == id && r[2] / 128 == 1 && (r[2] / 2) % 2 == 0 && r[3] % 16 == 0
    requires Be16(r, 4) == 1 && Be16(r, 6) == added > 0
    requires Accepted(r, Match(r, 12, domain)) && Match(r, 12, domain).value.0 == e - 1
    requires 0 < e && e + 4 <= |r| && Be16(r, e) == 28 && Be16(r, e + 2) == 1
    ensures Parse(r, id, domain) ==
      match Scan(r, e + 4, added) case None => Failed case Some(p) => Found(p)
  {
    hide Match, Scan;
  }

  /** Whoever asks a DNS64 server for the AAAA records of any name that can be written, and
      is answered with the well-known addresses, reads exactly the server's prefix and
      length out of the reply if the prefix is usable, and nothing if it is not. */
  lemma ReplyRevealsPrefix(domain: Bytes, req: Bytes, p: Prefix, list: seq<Bytes>, capacity: nat)
    requires Encode(domain, 0).Some?
    requires var q := Encode(domain, 0).value;
      && |req| >= 16 + |q| && req[12..12 + |q|] == q && req[12 + |q|..16 + |q|] == [0, 28, 0, 1]
      && capacity >= 16 + |q| + 28
    requires PrefixLength(p.len) && |p.bytes| == 16 && p.bytes == A.Cleared(p.len, p.bytes)
    requires list != [] && |list| < 0x1_0000 && forall a :: a in list ==> WellKnown(a)
    ensures forall a :: a in list ==> |a| == 4
    ensures var q := Encode(domain, 0).value;
      Parse(Build(req, |q| + 4, p, 28, list, 0, capacity), Be16(req, 0), domain)
      == if Usable(p) then Found(p) else Failed
  {
    hide Encode, Match, Scan, Usable, Record, Header, A.Cleared, A.Synthesize, SameText;
    var q := Encode(domain, 0).value;
    assert forall a :: a in list ==> |a| == 4;
    var (answers, added) := Answers(list, p, 28, capacity - 16 - |q|);
    assert added > 0;
    hide Answers;
    var r := Header(req, 0, added) + req[12..16 + |q|] + answers;
    assert r == Build(req, |q| + 4, p, 28, list, 0, capacity);
    ReplyFields(req, q, added, answers);
    SameTextSelf(q);
    AcceptedIffName(domain, 0, r, 12);
    hide Build;
    ParseOneQuestion(r, Be16(req, 0), domain, 12 + |q|, added);
    hide Parse;
    ScanBuilt(r[..16 + |q|], list, p, capacity - 16 - |q|);
  }
}
