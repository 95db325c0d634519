/** What the reader of DNS64 answers accepts, byte by byte. */
module DnsBytes {
  import opened Wrappers
  import opened Checksum
  import opened DnsNames
  import opened Rfc6052
  import opened Pref64
  import opened DnsReply
  import A = AddressBytes

  // ------------------------------------------------------------ names

  /** A label from s to t, of 1 to 63 bytes behind its length. */
  predicate LabelAt(resp: Bytes, s: nat, t: nat) {
    s < t <= |resp| && 1 <= resp[s] <= 63 && t == s + 1 + resp[s]
  }

  /** Label after label, no more than 255 bytes in all with their lengths. */
  ghost predicate Labels(resp: Bytes, stops: seq<nat>, before: nat) {
    && stops != []
    && (forall i :: 0 <= i < |stops| - 1 ==> LabelAt(resp, stops[i], stops[i + 1]))
    && (forall i :: 0 < i < |stops| ==> before + stops[i] - stops[0] <= 255)
  }

  /** The name ends before position end, with a zero byte or a compression pointer. */
  predicate EndsAt(resp: Bytes, last: nat, end: nat) {
    && last < end <= |resp|
    && ((resp[last] == 0 && end == last + 1) || (resp[last] >= 192 && end == last + 2))
  }

  ghost predicate Name(resp: Bytes, stops: seq<nat>, before: nat, end: nat) {
    Labels(resp, stops, before) && EndsAt(resp, stops[|stops| - 1], end)
  }

  lemma NameTail(resp: Bytes, stops: seq<nat>, before: nat, end: nat)
    requires |stops| >= 2 && stops[1] > stops[0]
    ensures Name(resp, stops, before, end) <==>
      && LabelAt(resp, stops[0], stops[1]) && before + stops[1] - stops[0] <= 255
      && Name(resp, stops[1..], before + (stops[1] - stops[0]), end)
  {
    hide EndsAt, LabelAt;
    var t := stops[1..];
    assert forall i :: 1 <= i < |stops| ==> t[i - 1] == stops[i];
  }

  lemma SkipStep(resp: Bytes, pos: nat, before: nat)
    requires pos < |resp| && 1 <= resp[pos] <= 63 && pos + 1 + resp[pos] <= |resp| && before + resp[pos] + 1 <= 255
    ensures Skip(resp, pos, before) == Skip(resp, pos + 1 + resp[pos], before + resp[pos] + 1)
  {
  }

  /** A skipped name is such a list of labels. */
  lemma {:induction false} SkippedIsName(resp: Bytes, pos: nat, before: nat) returns (stops: seq<nat>)
    requires Skip(resp, pos, before).Some?
    ensures stops != [] && Name(resp, stops, before, Skip(resp, pos, before).value) && stops[0] == pos
    decreases |resp| - pos
  {
    var b := resp[pos];
    if b == 0 || b >= 192 {
      stops := [pos];
    } else {
      hide Skip;
      assert 1 <= b <= 63 && pos + 1 + b <= |resp| && before + b + 1 <= 255 by { SkipLabel(resp, pos, before); }
      SkipStep(resp, pos, before);
      var rest := SkippedIsName(resp, pos + 1 + b, before + b + 1);
      stops := [pos] + rest;
      assert stops[1..] == rest;
      NameTail(resp, stops, before, Skip(resp, pos, before).value);
    }
  }

  lemma SkipLabel(resp: Bytes, pos: nat, before: nat)
    requires Skip(resp, pos, before).Some?
    ensures pos < |resp|
    ensures 0 < resp[pos] < 192 ==> resp[pos] <= 63 && pos + 1 + resp[pos] <= |resp| && before + resp[pos] + 1 <= 255
  {
  }

  /** And every such list is skipped to its end. */
  lemma {:induction false} NameIsSkipped(resp: Bytes, stops: seq<nat>, before: nat, end: nat)
    requires Name(resp, stops, before, end)
    ensures Skip(resp, stops[0], before) == Some(end)
    decreases |stops|
  {
    if |stops| == 1 {
    } else {
      hide Skip;
      NameTail(resp, stops, before, end);
      SkipStep(resp, stops[0], before);
      NameIsSkipped(resp, stops[1..], before + (stops[1] - stops[0]), end);
    }
  }

  /** There is a name from pos to end. */
  ghost predicate NameAt(resp: Bytes, pos: nat, end: nat) {
    exists stops: seq<nat> :: stops != [] && Name(resp, stops, 0, end) && stops[0] == pos
  }

  lemma SkipIffName(resp: Bytes, pos: nat, end: nat)
    ensures Skip(resp, pos, 0) == Some(end) <==> NameAt(resp, pos, end)
  {
    hide Skip, Name;
    if Skip(resp, pos, 0) == Some(end) {
      var stops := SkippedIsName(resp, pos, 0);
    }
    if NameAt(resp, pos, end) {
      var stops: seq<nat> :| stops != [] && Name(resp, stops, 0, end) && stops[0] == pos;
      NameIsSkipped(resp, stops, 0, end);
    }
  }

  // ------------------------------------------------------------ questions and records

  function Two(resp: Bytes, i: nat): (n: nat)
    requires i + 2 <= |resp|
  {
    var hi: int, lo: int := resp[i], resp[i + 1];
    0x100 * hi + lo
  }

  /** A question from s to t: a name, and four bytes. */
  ghost predicate QuestionAt(resp: Bytes, s: nat, t: nat) {
    4 <= t <= |resp| && NameAt(resp, s, t - 4)
  }

  ghost predicate Questions(resp: Bytes, stops: seq<nat>) {
    stops != [] && forall i :: 0 <= i < |stops| - 1 ==> QuestionAt(resp, stops[i], stops[i + 1])
  }

  lemma {:induction false} QuestionsSkipped(resp: Bytes, stops: seq<nat>)
    requires Questions(resp, stops)
    ensures SkipQuestions(resp, stops[0], |stops| - 1) == Some(stops[|stops| - 1])
    decreases |stops|
  {
    if |stops| > 1 {
      hide Skip, NameAt;
      assert QuestionAt(resp, stops[0], stops[1]);
      SkipIffName(resp, stops[0], stops[1] - 4);
      var t := stops[1..];
      assert forall i :: 1 <= i < |stops| ==> t[i - 1] == stops[i];
      QuestionsSkipped(resp, t);
    }
  }

  lemma {:induction false} SkippedAreQuestions(resp: Bytes, pos: nat, n: nat) returns (stops: seq<nat>)
    requires SkipQuestions(resp, pos, n).Some?
    ensures Questions(resp, stops) && |stops| == n + 1 && stops[0] == pos
    ensures stops[n] == SkipQuestions(resp, pos, n).value
    decreases n
  {
    if n == 0 {
      stops := [pos];
    } else {
      hide Skip, NameAt;
      var next := Skip(resp, pos, 0).value;
      SkipIffName(resp, pos, next);
      var rest := SkippedAreQuestions(resp, next + 4, n - 1);
      stops := [pos] + rest;
      assert forall i :: 1 <= i < |stops| ==> rest[i - 1] == stops[i];
      assert QuestionAt(resp, stops[0], stops[1]);
    }
  }

  /** A record whose name ends at f and whose data, after ten bytes, end at t. */
  ghost predicate RecordAt(resp: Bytes, s: nat, f: nat, t: nat) {
    NameAt(resp, s, f) && f + 10 <= |resp| && t == f + 10 + Two(resp, f + 8) <= |resp|
  }

  /** The prefix that the record's data reveal, if it is an IPv6 address of class IN. */
  function Revealed(resp: Bytes, f: nat): (p: Option<Prefix>)
    requires f + 10 <= |resp| && f + 10 + Two(resp, f + 8) <= |resp|
  {
    if Two(resp, f) == 28 && Two(resp, f + 2) == 1 && Two(resp, f + 8) == 16
    then ExtractPref64(resp[f + 10..f + 26]) else None
  }

  /** Record after record, where their names end, and nothing revealed by any but the last. */
  ghost predicate Records(resp: Bytes, stops: seq<nat>, fields: seq<nat>) {
    && |stops| == |fields| + 1
    && (forall i :: 0 <= i < |fields| ==> RecordAt(resp, stops[i], fields[i], stops[i + 1]))
    && (forall i :: 0 <= i < |fields| - 1 ==> RecordAt(resp, stops[i], fields[i], stops[i + 1]) && Revealed(resp, fields[i]) == None)
  }

  lemma RecordsTail(resp: Bytes, stops: seq<nat>, fields: seq<nat>)
    requires |stops| == |fields| + 1 && |fields| >= 2
    ensures Records(resp, stops, fields) <==>
      && RecordAt(resp, stops[0], fields[0], stops[1]) && Revealed(resp, fields[0]) == None
      && Records(resp, stops[1..], fields[1..])
  {
    hide NameAt, Revealed;
    var s, f := stops[1..], fields[1..];
    assert forall i :: 1 <= i < |stops| ==> s[i - 1] == stops[i];
    assert forall i :: 1 <= i < |fields| ==> f[i - 1] == fields[i];
    if Records(resp, stops, fields) {
      assert RecordAt(resp, stops[0], fields[0], stops[0 + 1]);
      forall i | 0 <= i < |f| ensures RecordAt(resp, s[i], f[i], s[i + 1]) {
        assert RecordAt(resp, stops[i + 1], fields[i + 1], stops[i + 1 + 1]);
      }
    } else if RecordAt(resp, stops[0], fields[0], stops[1]) && Revealed(resp, fields[0]) == None && Records(resp, s, f) {
      forall i | 0 <= i < |fields| ensures RecordAt(resp, stops[i], fields[i], stops[i + 1]) {
        if i > 0 { assert RecordAt(resp, s[i - 1], f[i - 1], s[i - 1 + 1]); }
      }
    }
  }

  lemma ScanStep(resp: Bytes, s: nat, f: nat, t: nat, n: nat)
    requires RecordAt(resp, s, f, t) && n > 0
    ensures Scan(resp, s, n) == if Revealed(resp, f).Some? then Revealed(resp, f) else Scan(resp, t, n - 1)
  {
    hide Skip, ExtractPref64, NameAt;
    SkipIffName(resp, s, f);
    assert Skip(resp, s, 0).Some?;
    assert Be16(resp, f) == Two(resp, f) && Be16(resp, f + 2) == Two(resp, f + 2) && Be16(resp, f + 8) == Two(resp, f + 8);
  }

  lemma ScanReads(resp: Bytes, s: nat, n: nat) returns (f: nat, t: nat)
    requires Scan(resp, s, n).Some?
    ensures n > 0 && RecordAt(resp, s, f, t)
  {
    hide Skip, ExtractPref64, NameAt;
    f := Skip(resp, s, 0).value;
    t := f + 10 + Two(resp, f + 8);
    SkipIffName(resp, s, f);
  }

  /** One of the first n records reveals p, and none before it reveals anything. */
  ghost predicate Reveals(resp: Bytes, start: nat, n: nat, p: Prefix) {
    exists stops, fields :: RecordsReveal(resp, stops, fields, start, n, p)
  }

  ghost predicate RecordsReveal(resp: Bytes, stops: seq<nat>, fields: seq<nat>, start: nat, n: nat, p: Prefix) {
    && 1 <= |fields| <= n && Records(resp, stops, fields) && stops[0] == start
    && RecordAt(resp, stops[|fields| - 1], fields[|fields| - 1], stops[|fields| - 1 + 1])
    && Revealed(resp, fields[|fields| - 1]) == Some(p)
  }

  lemma {:induction false} ScanReveals(resp: Bytes, start: nat, n: nat) returns (stops: seq<nat>, fields: seq<nat>)
    requires Scan(resp, start, n).Some?
    ensures RecordsReveal(resp, stops, fields, start, n, Scan(resp, start, n).value)
    decreases n
  {
    hide Scan, RecordAt, Revealed;
    var f, t := ScanReads(resp, start, n);
    ScanStep(resp, start, f, t, n);
    RecordBounds(resp, start, f, t);
    if Revealed(resp, f).Some? {
      stops, fields := [start, t], [f];
      assert RecordAt(resp, stops[0], fields[0], stops[0 + 1]);
    } else {
      var s', f' := ScanReveals(resp, t, n - 1);
      stops, fields := [start] + s', [f] + f';
      assert stops[1..] == s' && fields[1..] == f';
      RecordsTail(resp, stops, fields);
      var k := |fields| - 1;
      assert stops[k] == s'[k - 1] && fields[k] == f'[k - 1] && stops[k + 1] == s'[k - 1 + 1];
    }
  }

  lemma RecordBounds(resp: Bytes, s: nat, f: nat, t: nat)
    requires RecordAt(resp, s, f, t)
    ensures f + 10 <= |resp| && f + 10 + Two(resp, f + 8) <= |resp|
  {
  }

  lemma {:induction false} RevealedIsScanned(resp: Bytes, stops: seq<nat>, fields: seq<nat>, start: nat, n: nat, p: Prefix)
    requires RecordsReveal(resp, stops, fields, start, n, p)
    ensures Scan(resp, start, n) == Some(p)
    decreases |fields|
  {
    hide Scan, RecordAt, Revealed;
    assert RecordAt(resp, stops[0], fields[0], stops[0 + 1]);
    ScanStep(resp, start, fields[0], stops[1], n);
    if |fields| > 1 {
      RecordsTail(resp, stops, fields);
      var k := |fields| - 1;
      assert stops[1..][k - 1] == stops[k] && fields[1..][k - 1] == fields[k] && stops[1..][k - 1 + 1] == stops[k + 1];
      RevealedIsScanned(resp, stops[1..], fields[1..], stops[1], n - 1, p);
    }
  }

  lemma ScanIffReveals(resp: Bytes, start: nat, n: nat, p: Prefix)
    ensures Scan(resp, start, n) == Some(p) <==> Reveals(resp, start, n, p)
  {
    hide Scan, RecordsReveal;
    if Scan(resp, start, n) == Some(p) {
      var stops, fields := ScanReveals(resp, start, n);
    }
    if Reveals(resp, start, n, p) {
      var stops, fields :| RecordsReveal(resp, stops, fields, start, n, p);
      RevealedIsScanned(resp, stops, fields, start, n, p);
    }
  }

  // ------------------------------------------------------------ the reply

  /** A response with the expected identification. */
  predicate Answering(resp: Bytes, id: nat) {
    |resp| >= 12 && Two(resp, 0) == id && resp[2] >= 128
  }

  /** TC: the answer did not fit. */
  predicate TooLong(resp: Bytes)
    requires |resp| >= 12
  {
    resp[2] / 2 % 2 == 1
  }

  /** Without error, asked and answered, and the question is for the AAAA records of the name. */
  ghost predicate Asked(resp: Bytes, name: Bytes)
    requires |resp| >= 12
  {
    && resp[3] % 16 == 0 && Two(resp, 4) >= 1 && Two(resp, 6) >= 1
    && ReadsAt(resp, 12, name) && 16 + |name| <= |resp|
    && resp[12 + |name|..16 + |name|] == [0, 28, 0, 1]
  }

  /** Behind the further questions one of the answers reveals p. */
  ghost predicate Answered(resp: Bytes, start: nat, p: Prefix)
    requires |resp| >= 12
  {
    exists stops :: Questions(resp, stops) && |stops| == Two(resp, 4) && stops[0] == start
                    && Reveals(resp, stops[|stops| - 1], Two(resp, 6), p)
  }

  lemma AnsweredIff(resp: Bytes, start: nat, p: Prefix)
    requires |resp| >= 12 && Two(resp, 4) >= 1
    ensures Answered(resp, start, p) <==>
      var q := SkipQuestions(resp, start, Two(resp, 4) - 1); q.Some? && Scan(resp, q.value, Two(resp, 6)) == Some(p)
  {
    hide Questions, Scan, SkipQuestions, Reveals;
    var n := Two(resp, 4) - 1;
    if SkipQuestions(resp, start, n).Some? {
      var stops := SkippedAreQuestions(resp, start, n);
      ScanIffReveals(resp, stops[n], Two(resp, 6), p);
    }
    if Answered(resp, start, p) {
      var stops :| Questions(resp, stops) && |stops| == n + 1 && stops[0] == start
                   && Reveals(resp, stops[|stops| - 1], Two(resp, 6), p);
      QuestionsSkipped(resp, stops);
      ScanIffReveals(resp, stops[n], Two(resp, 6), p);
    }
  }

  lemma AskedIff(resp: Bytes, domain: Bytes)
    requires Encode(domain, 0).Some? && |resp| >= 12
    ensures var name := Encode(domain, 0).value;
      Asked(resp, name) <==>
        && resp[3] % 16 == 0 && Be16(resp, 4) >= 1 && Be16(resp, 6) >= 1
        && Accepted(resp, Match(resp, 12, domain))
        && var pos := Match(resp, 12, domain).value.0 + 1;
        && pos == 12 + |name| && pos + 4 <= |resp| && Be16(resp, pos) == 28 && Be16(resp, pos + 2) == 1
  {
    hide Match, ReadsAt, Encode;
    AcceptedIffName(domain, 0, resp, 12);
    var e := 12 + |Encode(domain, 0).value|;
    if e + 4 <= |resp| {
      FourBytes(resp, e);
    }
  }

  lemma FourBytes(resp: Bytes, e: nat)
    requires e + 4 <= |resp|
    ensures resp[e..e + 4] == [0, 28, 0, 1] <==> Be16(resp, e) == 28 && Be16(resp, e + 2) == 1
  {
    var t := resp[e..e + 4];
    assert t[0] == resp[e] && t[1] == resp[e + 1] && t[2] == resp[e + 2] && t[3] == resp[e + 3];
    assert t == [t[0], t[1], t[2], t[3]];
  }

  lemma ParseAsked(resp: Bytes, id: nat, domain: Bytes)
    requires Encode(domain, 0).Some? && Answering(resp, id) && !TooLong(resp)
    ensures var name := Encode(domain, 0).value;
      if !Asked(resp, name) then Parse(resp, id, domain) == Failed
      else
        && Two(resp, 4) >= 1
        && var q := SkipQuestions(resp, 16 + |name|, Two(resp, 4) - 1);
        && Parse(resp, id, domain) ==
             if q == None || Scan(resp, q.value, Two(resp, 6)) == None then Failed
             else Found(Scan(resp, q.value, Two(resp, 6)).value)
  {
    hide Match, Encode, Scan, SkipQuestions, Asked, Accepted;
    AskedIff(resp, domain);
    AcceptedIffName(domain, 0, resp, 12);
    assert Be16(resp, 4) == Two(resp, 4) && Be16(resp, 6) == Two(resp, 6) && Be16(resp, 0) == Two(resp, 0);
  }

  /** What becomes of a reply. It is truncated exactly if it answers the request and says so; a
      prefix is found exactly if it answers, is not truncated, repeats the question and reveals
      it; and anything else, with another identification, an error or another question, fails. */
  lemma ReplyOutcome(resp: Bytes, id: nat, domain: Bytes)
    requires Encode(domain, 0).Some?
    ensures Parse(resp, id, domain) == Truncated <==> Answering(resp, id) && TooLong(resp)
    ensures forall p :: Parse(resp, id, domain) == Found(p) <==>
      var name := Encode(domain, 0).value;
      Answering(resp, id) && !TooLong(resp) && Asked(resp, name) && Answered(resp, 16 + |name|, p)
  {
    hide Encode, Scan, SkipQuestions, Asked, Answered;
    ParseStarts(resp, id, domain);
    hide Parse;
    if Answering(resp, id) && !TooLong(resp) {
      ParseAsked(resp, id, domain);
      var start := 16 + |Encode(domain, 0).value|;
      forall p ensures Parse(resp, id, domain) == Found(p) <==> Asked(resp, Encode(domain, 0).value) && Answered(resp, start, p) {
        if Asked(resp, Encode(domain, 0).value) {
          AnsweredIff(resp, start, p);
        }
      }
    }
  }

  lemma ParseStarts(resp: Bytes, id: nat, domain: Bytes)
    ensures !Answering(resp, id) ==> Parse(resp, id, domain) == Failed
    ensures Answering(resp, id) ==> (Parse(resp, id, domain) == Truncated <==> TooLong(resp))
  {
    hide Match, Scan, SkipQuestions, Accepted;
  }

  // ------------------------------------------------------------ what can be asked for

  /** Labels of 1 to 63 bytes between dots. */
  ghost predicate LabelsFit(d: Bytes)
    decreases |d|
  {
    d == [] || (1 <= LabelEnd(d) <= 63 && LabelsFit(AfterLabel(d)))
  }

  /** A name can be written exactly if its labels fit and it has at most 253 bytes without final dot. */
  lemma {:induction false} WritableIff(d: Bytes, pos: nat)
    requires pos < 255
    ensures Encode(d, pos).Some? <==> LabelsFit(d) && (d == [] || pos + |Trim(d)| <= 253)
    decreases |d|
  {
    hide Encode, LabelEnd, Trim;
    if d == [] {
      EncodeEnd(pos);
    } else {
      EncodeStep(d, pos);
      if LabelEnd(d) > 0 {
        TrimSplit(d);
        if pos + 1 + LabelEnd(d) < 255 {
          WritableIff(AfterLabel(d), pos + 1 + LabelEnd(d));
        }
      }
    }
  }

  /** a.bc is written 1 a 2 b c 0. */
  lemma NameExample()
    ensures Encode([97, 46, 98, 99], 0) == Some([1, 97, 2, 98, 99, 0])
  {
    hide Encode;
    var d: Bytes := [97, 46, 98, 99];
    var e := d[2..];
    assert d[1..][0] == 46 && e[1..] == [99] && [99][1..] == [];
    assert LabelEnd([99]) == 1 && LabelEnd(e) == 2 && LabelEnd(d) == 1;
    assert AfterLabel(d) == e && AfterLabel(e) == [] && d[..1] == [97] && e[..2] == [98, 99];
    EncodeEnd(5);
    EncodeStep(e, 2);
    assert Encode(e, 2) == Some([2] + [98, 99] + [0]);
    EncodeStep(d, 0);
    assert [1] + [97] + ([2] + [98, 99] + [0]) == [1, 97, 2, 98, 99, 0];
  }

  /** Letters are compared without regard to case, everything else exactly. */
  lemma LettersAlike(c: Byte, d: Byte)
    ensures SameText([c], [d]) <==> c == d || (65 <= c <= 90 && d == c + 32) || (65 <= d <= 90 && c == d + 32)
  {
    assert [c][0] == c && [d][0] == d;
  }

  // ------------------------------------------------------------ the reply that is built

  /** The data of the answer for address a: the address itself, or for AAAA the synthesized one. */
  function DataFor(p: Prefix, rtype: nat, a: Bytes): (d: Bytes)
    requires |p.bytes| == 16 && |a| == 4 && PrefixLength(p.len)
  {
    if rtype == 28 then A.Synthesize(p.len, p.bytes, a) else a
  }

  /** An answer: the name of the question, type, class IN, one minute, and the data. */
  ghost predicate IsAnswer(r: Bytes, rtype: nat, data: Bytes) {
    && |r| == 12 + |data| && r[..2] == [0xc0, 0x0c] && Two(r, 2) == rtype && Two(r, 4) == 1
    && Two(r, 6) == 0 && Two(r, 8) == 60 && Two(r, 10) == |data| && r[12..] == data
  }

  lemma RecordIsAnswer(rtype: nat, data: Bytes)
    requires rtype < 0x1_0000 && |data| < 0x100
    ensures IsAnswer(Record(rtype, data), rtype, data)
  {
    assert rtype / 256 % 256 == rtype / 256;
  }

  /** n answers, one after the other, for the first n addresses. */
  ghost predicate AreAnswers(bytes: Bytes, list: seq<Bytes>, p: Prefix, rtype: nat, n: nat)
    requires |p.bytes| == 16 && PrefixLength(p.len) && n <= |list| && forall a :: a in list ==> |a| == 4
    decreases n
  {
    if n == 0 then bytes == []
    else
      var size := if rtype == 28 then 28 else 16;
      && |bytes| >= size && IsAnswer(bytes[..size], rtype, DataFor(p, rtype, list[0]))
      && AreAnswers(bytes[size..], list[1..], p, rtype, n - 1)
  }

  /** As many as fit. */
  lemma {:induction false} AnswersFit(list: seq<Bytes>, p: Prefix, rtype: nat, room: nat)
    requires |p.bytes| == 16 && PrefixLength(p.len) && rtype < 0x1_0000 && forall a :: a in list ==> |a| == 4
    ensures var (bytes, n) := Answers(list, p, rtype, room);
      && AreAnswers(bytes, list, p, rtype, n)
      && (if rtype == 28 then |bytes| == 28 * n && (n == |list| || room < 28 * (n + 1))
          else |bytes| == 16 * n && (n == |list| || room < 16 * (n + 1)))
    decreases |list|
  {
    hide Answers, Record, IsAnswer, A.Synthesize;
    assert list[0..] == list;
    AnswersStep(list, 0, p, rtype, room);
    if list != [] && 12 + DataLength(rtype) <= room {
      var data := DataFor(p, rtype, list[0]);
      AnswersFit(list[1..], p, rtype, room - 12 - |data|);
      RecordIsAnswer(rtype, data);
      var (bytes, n) := Answers(list, p, rtype, room);
      var rest := Answers(list[1..], p, rtype, room - 12 - |data|).0;
      assert bytes[..12 + |data|] == Record(rtype, data) && bytes[12 + |data|..] == rest;
    }
  }

  /** The reply repeats identification, question and the wish for recursion, says that it is a
      response and that recursion is available, and counts its answers. */
  lemma BuiltReply(req: Bytes, qsec: nat, p: Prefix, rtype: nat, list: seq<Bytes>, rcode: nat, capacity: nat)
    requires |p.bytes| == 16 && PrefixLength(p.len) && (forall a :: a in list ==> |a| == 4) && |req| >= 12 + qsec
    requires 12 + qsec <= capacity && |list| < 0x1_0000 && rcode < 16 && rtype < 0x1_0000
    ensures var r := Build(req, qsec, p, rtype, list, rcode, capacity);
      && 12 + qsec <= |r| <= capacity && Two(r, 6) <= |list|
      && r[..2] == req[..2] && r[2] == 128 + req[2] % 2 && r[3] == 128 + rcode
      && Two(r, 4) == 1 && Two(r, 8) == 0 && Two(r, 10) == 0 && r[12..12 + qsec] == req[12..12 + qsec]
      && AreAnswers(r[12 + qsec..], list, p, rtype, Two(r, 6))
      && (Two(r, 6) == |list| || capacity < |r| + if rtype == 28 then 28 else 16)
  {
    hide Answers, AreAnswers;
    AnswersFit(list, p, rtype, capacity - 12 - qsec);
    var (bytes, n) := Answers(list, p, rtype, capacity - 12 - qsec);
    var r := Build(req, qsec, p, rtype, list, rcode, capacity);
    assert r[12 + qsec..] == bytes;
    assert n / 256 % 256 == n / 256;
    assert Two(r, 6) == n;
  }
}
