/** Segmentation offload: the datagrams that leave when an aggregate is handed to the
    kernel, in one piece or split into head and tail, against those of the software loop. */
module Segments {
  import opened Bits
  import opened Checksum
  import opened Wrappers

  const IP4_HEADER := 20
  const DF_LIMIT := 1260

  /** The TCP flags that segmentation treats specially, and the others. */
  datatype Flags = Flags(fin: bool, psh: bool, cwr: bool, rest: nat) {
    function NotLast(): Flags { this.(fin := false, psh := false) }
    function NotFirst(): Flags { this.(cwr := false) }
  }

  /** A datagram on the wire; id is its IPv4 identification when it may be fragmented (DF clear). */
  datatype Seg = Seg(sequence: nat, payload: seq<Byte>, flags: Flags, df: bool, id: nat)

  /** Sequence numbers are 32 bits, identifications 16. */
  function Seq32(n: nat): nat { n % 0x1_0000_0000 }
  function Id16(n: nat): nat { n % 0x1_0000 }

  /** DF is set on datagrams longer than 1260 bytes (section 5.1 of RFC 7915). */
  predicate Atomic(header: nat, len: nat) {
    header + len > DF_LIMIT
  }

  // ------------------------------------------------------------ the software loop

  /** What is to be sent: header is the length of the IPv4 and transport headers. */
  datatype Job = Job(payload: seq<Byte>, mss: nat, sequence: nat, flags: Flags)

  function PieceLen(j: Job, offset: nat): (n: nat)
    requires offset <= |j.payload|
    ensures offset + n <= |j.payload|
    ensures j.mss > 0 && offset < |j.payload| ==> n > 0
  {
    Min(|j.payload| - offset, j.mss)
  }

  /** The datagram that starts at offset: FIN and PSH for the last, CWR for the first. */
  function Piece(j: Job, offset: nat, df: bool, id: nat): (seg: Seg)
    requires offset <= |j.payload|
  {
    var n := PieceLen(j, offset);
    var f := if offset + n == |j.payload| then j.flags else j.flags.NotLast();
    Seg(Seq32(j.sequence + offset), j.payload[offset..offset + n],
        if offset > 0 then f.NotFirst() else f, df, if df then 0 else Id16(id))
  }

  /** The datagrams of the payload from offset on, with identifications from id on. */
  function Software(j: Job, header: nat, offset: nat, id: nat): (r: seq<Seg>)
    requires j.mss > 0 && offset <= |j.payload|
    decreases |j.payload| - offset
  {
    var n := PieceLen(j, offset);
    var df := Atomic(header, n);
    if offset + n == |j.payload| then [Piece(j, offset, df, id)]
    else [Piece(j, offset, df, id)] + Software(j, header, offset + n, if df then id else id + 1)
  }

  /** The body of the loop: one datagram, built field by field. */
  method BuildPiece(j: Job, header: nat, offset: nat, nextId: nat) returns (seg: Seg, n: nat, id: nat)
    requires offset <= |j.payload|
    ensures n == PieceLen(j, offset) && seg == Piece(j, offset, Atomic(header, n), nextId)
    ensures id == if Atomic(header, n) then nextId else nextId + 1
  {
    n := |j.payload| - offset;
    if n > j.mss {
      n := j.mss;
    }
    var isLast := offset + n == |j.payload|;
    var f := j.flags;
    if !isLast {
      f := f.NotLast();
    }
    if offset > 0 {
      f := f.NotFirst();
    }
    if header + n <= DF_LIMIT {
      seg, id := Seg(Seq32(j.sequence + offset), j.payload[offset..offset + n], f, false, Id16(nextId)), nextId + 1;
    } else {
      seg, id := Seg(Seq32(j.sequence + offset), j.payload[offset..offset + n], f, true, 0), nextId;
    }
  }

  /** The loop of `gso_software_segment_and_send_6to4` and of its UDP counterpart. */
  method SegmentInSoftware(j: Job, header: nat, firstId: nat) returns (sent: seq<Seg>)
    requires j.mss > 0
    ensures sent == Software(j, header, 0, firstId)
  {
    hide Software, Piece, Atomic;
    var offset, nextId := 0, firstId;
    sent := [];
    while true
      invariant 0 <= offset <= |j.payload|
      invariant offset == 0 || offset < |j.payload|
      invariant Software(j, header, 0, firstId) == sent + Software(j, header, offset, nextId)
      decreases |j.payload| - offset
    {
      SoftwareStep(j, header, offset, nextId, sent);
      var seg, n;
      seg, n, nextId := BuildPiece(j, header, offset, nextId);
      sent := sent + [seg];
      offset := offset + n;
      if offset >= |j.payload| {
        return;
      }
    }
  }

  lemma SoftwareStep(j: Job, header: nat, offset: nat, id: nat, sent: seq<Seg>)
    requires j.mss > 0 && offset <= |j.payload|
    ensures var n := PieceLen(j, offset);
            var df := Atomic(header, n);
            sent + Software(j, header, offset, id) ==
              if offset + n == |j.payload| then sent + [Piece(j, offset, df, id)]
              else sent + [Piece(j, offset, df, id)] + Software(j, header, offset + n, if df then id else id + 1)
  {
    hide Piece;
  }

  function Payloads(s: seq<Seg>): (r: seq<Byte>) {
    if s == [] then [] else s[0].payload + Payloads(s[1..])
  }

  lemma PieceCarries(j: Job, offset: nat, df: bool, id: nat)
    requires offset <= |j.payload|
    ensures Piece(j, offset, df, id).payload == j.payload[offset..offset + PieceLen(j, offset)]
  {
  }

  /** The datagrams carry the payload, in order. */
  lemma {:induction false} SoftwareCarriesPayload(j: Job, header: nat, offset: nat, id: nat)
    requires j.mss > 0 && offset <= |j.payload|
    ensures Payloads(Software(j, header, offset, id)) == j.payload[offset..]
    decreases |j.payload| - offset
  {
    hide Piece;
    var s := Software(j, header, offset, id);
    var n := PieceLen(j, offset);
    PieceCarries(j, offset, Atomic(header, n), id);
    if offset + n == |j.payload| {
      assert s[1..] == [];
    } else {
      var id' := if Atomic(header, n) then id else id + 1;
      SoftwareCarriesPayload(j, header, offset + n, id');
      assert s[1..] == Software(j, header, offset + n, id');
      assert j.payload[offset..] == j.payload[offset..offset + n] + j.payload[offset + n..];
    }
  }

  /** FIN and PSH travel on the last datagram only and CWR on the first only, no other
      flag changes, and DF is set exactly above the limit. */
  ghost predicate WellFlagged(s: seq<Seg>, flags: Flags, header: nat, first: bool) {
    && s != []
    && (forall i :: 0 <= i < |s| ==>
          s[i].flags == Flags(flags.fin && i == |s| - 1, flags.psh && i == |s| - 1, flags.cwr && first && i == 0, flags.rest))
    && (forall i :: 0 <= i < |s| ==> s[i].df == Atomic(header, |s[i].payload|))
  }

  lemma {:induction false} SoftwareIsWellFlagged(j: Job, header: nat, offset: nat, id: nat)
    requires j.mss > 0 && offset <= |j.payload|
    ensures WellFlagged(Software(j, header, offset, id), j.flags, header, offset == 0)
    decreases |j.payload| - offset
  {
    var s := Software(j, header, offset, id);
    var n := PieceLen(j, offset);
    if offset + n < |j.payload| {
      var id' := if Atomic(header, n) then id else id + 1;
      var t := Software(j, header, offset + n, id');
      SoftwareIsWellFlagged(j, header, offset + n, id');
      FlaggedCons(s[0], t, j.flags, header, offset == 0);
    }
  }

  lemma FlaggedCons(h: Seg, t: seq<Seg>, flags: Flags, header: nat, first: bool)
    requires WellFlagged(t, flags, header, false)
    requires h.flags == (if first then flags.NotLast() else flags.NotLast().NotFirst()) && h.df == Atomic(header, |h.payload|)
    ensures WellFlagged([h] + t, flags, header, first)
  {
    var s := [h] + t;
    assert forall i :: 1 <= i < |s| ==> s[i] == t[i - 1];
  }

  // ------------------------------------------------------------ identifications

  /** How many datagrams need an identification. */
  function Df0Count(s: seq<Seg>): (n: nat) {
    if s == [] then 0 else (if s[0].df then 0 else 1) + Df0Count(s[1..])
  }

  /** `gso_df0_segments` */
  function Df0Segments(payloadLen: nat, mss: nat, header: nat): (n: nat)
    requires mss > 0
  {
    if payloadLen == 0 then 1
    else if header + mss <= DF_LIMIT then (payloadLen + mss - 1) / mss
    else
      var tail := payloadLen % mss;
      if tail > 0 && header + tail <= DF_LIMIT then 1 else 0
  }

  /** seg carries the block from at on; next is the next identification. */
  ghost predicate IsSegment(j: Job, header: nat, at: nat, next: nat, seg: Seg)
    requires at <= |j.payload|
  {
    && seg.sequence == (j.sequence + at) % 0x1_0000_0000
    && seg.payload == j.payload[at..Min(|j.payload|, at + j.mss)]
    && (seg.df <==> header + |seg.payload| > 1260)
    && seg.id == (if seg.df then 0 else next % 0x1_0000)
  }

  lemma FirstSegment(j: Job, header: nat, offset: nat, id: nat)
    requires j.mss > 0 && offset <= |j.payload|
    ensures var s := Software(j, header, offset, id);
            && s != [] && IsSegment(j, header, offset, id, s[0])
            && (|s| == 1 <==> offset + j.mss >= |j.payload|)
            && (|s| > 1 ==> s[1..] == Software(j, header, offset + j.mss, if s[0].df then id else id + 1))
  {
    hide Piece;
    PieceIs(j, header, offset, id);
  }

  lemma PieceIs(j: Job, header: nat, offset: nat, id: nat)
    requires j.mss > 0 && offset <= |j.payload|
    ensures var p := Piece(j, offset, Atomic(header, PieceLen(j, offset)), id);
            IsSegment(j, header, offset, id, p) && p.df == Atomic(header, PieceLen(j, offset))
  {
  }

  /** The i-th datagram carries the i-th block of mss bytes, its place in the stream modulo 2^32,
      DF exactly above 1260 bytes, and otherwise the next identification modulo 2^16. */
  lemma {:induction false} SegmentAt(j: Job, header: nat, offset: nat, id: nat, i: nat)
    requires j.mss > 0 && offset <= |j.payload| && i < |Software(j, header, offset, id)|
    ensures offset + i * j.mss <= |j.payload|
    ensures var s := Software(j, header, offset, id);
            && IsSegment(j, header, offset + i * j.mss, id + Df0Count(s[..i]), s[i])
            && (i == |s| - 1 <==> offset + (i + 1) * j.mss >= |j.payload|)
    decreases i
  {
    hide Software, IsSegment;
    var s := Software(j, header, offset, id);
    FirstSegment(j, header, offset, id);
    BlockStep(i, j.mss);
    if i > 0 {
      var t := s[1..];
      SegmentAt(j, header, offset + j.mss, if s[0].df then id else id + 1, i - 1);
      BlockStep(i - 1, j.mss);
      assert s[..i][0] == s[0] && s[..i][1..] == t[..i - 1];
    }
  }

  lemma BlockStep(i: nat, mss: nat)
    ensures (i + 1) * mss == i * mss + mss
    ensures i == 0 ==> i * mss == 0
    ensures i > 0 ==> i * mss == (i - 1) * mss + mss
  {
  }

  lemma DivStep(n: nat, d: nat)
    requires d > 0 && n >= d
    ensures n / d == 1 + (n - d) / d && n % d == (n - d) % d
  {
    var q, r := (n - d) / d, (n - d) % d;
    assert n == d * (q + 1) + r;
    DivModIs(n, d, q + 1, r);
  }

  /** The IDs reserved in advance are exactly as many as the loop will use. */
  lemma {:induction false} ReservedEqualsUsed(j: Job, header: nat, offset: nat, id: nat)
    requires j.mss > 0 && offset <= |j.payload| && header < DF_LIMIT
    requires offset < |j.payload| || offset == 0
    ensures Df0Count(Software(j, header, offset, id)) == Df0Segments(|j.payload| - offset, j.mss, header)
    decreases |j.payload| - offset
  {
    hide Df0Segments, Piece;
    var s := Software(j, header, offset, id);
    var left := |j.payload| - offset;
    if left <= j.mss {
      assert s[1..] == [];
      Df0Last(left, j.mss, header);
    } else {
      var id' := if Atomic(header, j.mss) then id else id + 1;
      assert s[1..] == Software(j, header, offset + j.mss, id');
      ReservedEqualsUsed(j, header, offset + j.mss, id');
      Df0Step(left, j.mss, header);
    }
    PieceDf(j, offset, Atomic(header, PieceLen(j, offset)), id);
  }

  lemma PieceDf(j: Job, offset: nat, df: bool, id: nat)
    requires offset <= |j.payload|
    ensures Piece(j, offset, df, id).df == df
  {
  }

  lemma Df0Last(left: nat, mss: nat, header: nat)
    requires mss > 0 && left <= mss && header < DF_LIMIT
    ensures Df0Segments(left, mss, header) == if Atomic(header, left) then 0 else 1
  {
    SmallDiv(left, mss);
  }

  lemma Df0Step(left: nat, mss: nat, header: nat)
    requires mss > 0 && left > mss && header < DF_LIMIT
    ensures Df0Segments(left, mss, header) == (if Atomic(header, mss) then 0 else 1) + Df0Segments(left - mss, mss, header)
  {
    DivStep(left + mss - 1, mss);
    DivStep(left, mss);
  }

  lemma SmallDiv(n: nat, d: nat)
    requires d > 0 && n <= d
    ensures n > 0 ==> (n + d - 1) / d == 1
    ensures n < d ==> n % d == n
    ensures n == d ==> n % d == 0
  {
    if n > 0 {
      DivModIs(n + d - 1, d, 1, n - 1);
    }
    if n == d {
      DivModIs(n, d, 1, 0);
    } else {
      DivModIs(n, d, 0, n);
    }
  }

  // ------------------------------------------------------------ the kernel's rule

  /** One write to the device: an aggregate to be cut at its mss, or with mss 0 one datagram. */
  datatype Write = Write(job: Job, df: bool, id: nat)

  /** How the kernel cuts an aggregate: sequence and identification advance, FIN and PSH
      stay for the last segment, CWR for the first. */
  function Cut(j: Job, df: bool, offset: nat, id: nat): (r: seq<Seg>)
    requires j.mss > 0 && offset <= |j.payload|
    decreases |j.payload| - offset
  {
    var n := PieceLen(j, offset);
    if offset + n == |j.payload| then [Piece(j, offset, df, id)]
    else [Piece(j, offset, df, id)] + Cut(j, df, offset + n, id + 1)
  }

  function OnWire(w: Write): (r: seq<Seg>) {
    if w.job.mss == 0 then
      [Seg(Seq32(w.job.sequence), w.job.payload, w.job.flags, w.df, if w.df then 0 else Id16(w.id))]
    else Cut(w.job, w.df, 0, w.id)
  }

  function AllOnWire(ws: seq<Write>): (r: seq<Seg>) {
    if ws == [] then [] else OnWire(ws[0]) + AllOnWire(ws[1..])
  }

  /** `gso_normalize_tcp_output`: a single segment is not submitted for segmentation. */
  function Normalized(j: Job): (r: Job) {
    if |j.payload| <= j.mss then j.(mss := 0) else j
  }

  /** Not submitting it changes nothing on the wire. */
  lemma NormalizedSame(j: Job, df: bool, id: nat)
    requires j.mss > 0
    ensures OnWire(Write(Normalized(j), df, id)) == Cut(j, df, 0, id)
  {
    assert j.payload[0..|j.payload|] == j.payload;
  }

  lemma OneWrite(w: Write)
    ensures AllOnWire([w]) == OnWire(w)
  {
    assert AllOnWire([w][1..]) == [];
  }

  lemma TwoWrites(v: Write, w: Write)
    ensures AllOnWire([v, w]) == OnWire(v) + OnWire(w)
  {
    assert [v, w][1..] == [w];
    OneWrite(w);
  }

  lemma {:induction false} CutIgnoresId(j: Job, offset: nat, id: nat, id': nat)
    requires j.mss > 0 && offset <= |j.payload|
    ensures Cut(j, true, offset, id) == Cut(j, true, offset, id')
    decreases |j.payload| - offset
  {
    var n := PieceLen(j, offset);
    if offset + n < |j.payload| {
      CutIgnoresId(j, offset + n, id + 1, id' + 1);
    }
  }

  // ------------------------------------------------------------ uniform aggregates

  /** From offset on, all datagrams agree with the one DF setting. */
  ghost predicate AgreeOnDf(j: Job, header: nat, offset: nat, df: bool)
    requires j.mss > 0 && offset <= |j.payload|
    decreases |j.payload| - offset
  {
    var n := PieceLen(j, offset);
    && df == Atomic(header, n)
    && (offset + n == |j.payload| || AgreeOnDf(j, header, offset + n, df))
  }

  /** Then cutting one aggregate gives what the software loop gives, identifications included. */
  lemma {:induction false} UniformIsSoftware(j: Job, header: nat, df: bool, offset: nat, id: nat)
    requires j.mss > 0 && offset <= |j.payload| && AgreeOnDf(j, header, offset, df)
    ensures Cut(j, df, offset, id) == Software(j, header, offset, id)
    decreases |j.payload| - offset
  {
    hide Piece;
    var n := PieceLen(j, offset);
    if offset + n < |j.payload| {
      if df {
        UniformIsSoftware(j, header, df, offset + n, id);
        CutIgnoresId(j, offset + n, id + 1, id);
      } else {
        UniformIsSoftware(j, header, df, offset + n, id + 1);
      }
    }
  }

  /** The test of the fast paths: the longest datagram decides, unless a short tail disagrees. */
  lemma {:induction false} AgreeIff(j: Job, header: nat, offset: nat, df: bool)
    requires j.mss > 0 && offset <= |j.payload| && (offset < |j.payload| || offset == 0)
    ensures var left := |j.payload| - offset;
            AgreeOnDf(j, header, offset, df) <==>
              ((left >= j.mss ==> df == Atomic(header, j.mss)) &&
               (left % j.mss > 0 || left == 0 ==> df == Atomic(header, left % j.mss)))
    decreases |j.payload| - offset
  {
    var left := |j.payload| - offset;
    if left <= j.mss {
      SmallDiv(left, j.mss);
    } else {
      DivStep(left, j.mss);
      if left - j.mss < j.mss {
        SmallDiv(left - j.mss, j.mss);
      }
      AgreeIff(j, header, offset + j.mss, df);
    }
  }

  // ------------------------------------------------------------ the split

  function Head(j: Job, len: nat): (r: Job)
    requires len <= |j.payload|
  {
    Job(j.payload[..len], j.mss, j.sequence, j.flags.NotLast())
  }

  function Rest(j: Job, len: nat): (r: Job)
    requires len <= |j.payload|
  {
    Job(j.payload[len..], 0, j.sequence + len, j.flags.NotFirst())
  }

  /** A full segment of the head is the segment of the whole. */
  lemma HeadPiece(j: Job, len: nat, offset: nat, id: nat)
    requires j.mss > 0 && offset + j.mss <= len < |j.payload|
    ensures Piece(Head(j, len), offset, true, id) == Piece(j, offset, true, id)
    ensures PieceLen(Head(j, len), offset) == j.mss == PieceLen(j, offset)
  {
    assert j.payload[..len][offset..offset + j.mss] == j.payload[offset..offset + j.mss];
  }

  lemma TailPiece(j: Job, len: nat, id: nat)
    requires j.mss > 0 && 0 < len < |j.payload| <= len + j.mss
    ensures [Piece(j, len, false, id)] == OnWire(Write(Rest(j, len), false, id))
  {
    assert j.payload[len..len + PieceLen(j, len)] == j.payload[len..];
  }

  /** Full segments cut from the head, then the short tail: the software loop's datagrams. */
  lemma {:induction false} SplitIsSoftware(j: Job, header: nat, offset: nat, full: nat, len: nat, id: nat)
    requires j.mss > 0 && full >= 1 && len == offset + full * j.mss && len < |j.payload| < len + j.mss
    requires Atomic(header, j.mss) && !Atomic(header, |j.payload| - len)
    ensures Software(j, header, offset, id) ==
      Cut(Head(j, len), true, offset, 0) + OnWire(Write(Rest(j, len), false, id))
    decreases full
  {
    hide Piece, OnWire, Head, Rest;
    FullBlocks(full, j.mss);
    HeadPiece(j, len, offset, 0);
    HeadPiece(j, len, offset, id);
    PieceIgnoresId(j, offset, 0, id);
    HeadIs(j, len);
    if full == 1 {
      TailPiece(j, len, id);
      assert offset + j.mss == len;
    } else {
      SplitIsSoftware(j, header, offset + j.mss, full - 1, len, id);
      CutIgnoresId(Head(j, len), offset + j.mss, 1, 0);
    }
  }

  lemma HeadIs(j: Job, len: nat)
    requires len <= |j.payload|
    ensures Head(j, len).mss == j.mss && |Head(j, len).payload| == len
  {
  }

  lemma PieceIgnoresId(j: Job, offset: nat, id: nat, id': nat)
    requires offset <= |j.payload|
    ensures Piece(j, offset, true, id) == Piece(j, offset, true, id')
  {
  }

  lemma FullBlocks(full: nat, mss: nat)
    requires full >= 1
    ensures full * mss >= mss && full * mss == mss + (full - 1) * mss
    ensures full >= 2 ==> full * mss >= 2 * mss
  {
    assert full * mss == mss + (full - 1) * mss;
    if full >= 2 {
      assert (full - 1) * mss == mss + (full - 2) * mss;
    }
  }

  // ------------------------------------------------------------ the fast paths

  lemma TailSize(len: nat, mss: nat)
    requires mss > 0
    ensures len == len / mss * mss + len % mss && len / mss * mss <= len
    ensures len % mss < mss
    ensures len / mss > 0 <==> len >= mss
    ensures len < mss ==> len % mss == len
    ensures len == mss ==> len % mss == 0
  {
    assert len == mss * (len / mss) + len % mss;
    if len < mss {
      DivModIs(len, mss, 0, len);
    } else {
      DivStep(len, mss);
      if len == mss {
        SmallDiv(len, mss);
      }
    }
  }

  /** The two writes of a split aggregate put on the wire what the software loop sends. */
  lemma SplitWrites(j: Job, header: nat, nextId: nat)
    requires j.mss > 0 && header + j.mss > DF_LIMIT && |j.payload| > j.mss
    requires 0 < |j.payload| % j.mss && header + |j.payload| % j.mss <= DF_LIMIT
    ensures var len := |j.payload| / j.mss * j.mss;
      && len < |j.payload|
      && AllOnWire([Write(Normalized(Head(j, len)), true, 0), Write(Rest(j, len), false, nextId)])
         == Software(j, header, 0, nextId)
  {
    hide Software, Cut, AgreeOnDf, OnWire, AllOnWire;
    TailSize(|j.payload|, j.mss);
    var len := |j.payload| / j.mss * j.mss;
    NormalizedSame(Head(j, len), true, 0);
    SplitIsSoftware(j, header, 0, |j.payload| / j.mss, len, nextId);
    TwoWrites(Write(Normalized(Head(j, len)), true, 0), Write(Rest(j, len), false, nextId));
  }

  /** So does the one write of an aggregate whose datagrams agree on DF. */
  lemma UniformWrite(j: Job, header: nat, df: bool, nextId: nat)
    requires j.mss > 0 && AgreeOnDf(j, header, 0, df)
    ensures AllOnWire([Write(Normalized(j), df, if df then 0 else nextId)]) == Software(j, header, 0, nextId)
  {
    hide Software, Cut, AgreeOnDf, OnWire, AllOnWire;
    var w := Write(Normalized(j), df, if df then 0 else nextId);
    UniformIsSoftware(j, header, df, 0, nextId);
    NormalizedSame(j, df, w.id);
    if df {
      CutIgnoresId(j, 0, 0, nextId);
    }
    OneWrite(w);
  }

  /** `gso_translate_tcp_6to4` from the split decision on: whatever it hands to the device,
      the datagrams on the wire are those of the software loop, with the same sequence
      numbers, payloads, flags, DF bits and identifications. */
  method TranslateTcp6to4(j: Job, tcpHeader: nat, nextId: nat) returns (writes: seq<Write>, idsUsed: nat)
    requires j.mss > 0
    ensures AllOnWire(writes) == Software(j, 20 + tcpHeader, 0, nextId)
    ensures 20 + tcpHeader < 1260 ==> idsUsed == Df0Segments(|j.payload|, j.mss, 20 + tcpHeader)
  {
    hide Software, AgreeOnDf, AllOnWire, Normalized;
    var header := IP4_HEADER + tcpHeader;
    var full := header + j.mss;
    var tail := |j.payload| % j.mss;
    var tailLen := if tail > 0 then header + tail else full;
    TailSize(|j.payload|, j.mss);
    if full > DF_LIMIT && tail > 0 && tailLen <= DF_LIMIT && |j.payload| > j.mss {
      var len := |j.payload| / j.mss * j.mss;
      SplitWrites(j, header, nextId);
      return [Write(Normalized(Head(j, len)), true, 0), Write(Rest(j, len), false, nextId)], 1;
    }
    var maxSeg := header + Min(|j.payload|, j.mss);
    var df := maxSeg > DF_LIMIT;
    idsUsed := if df then 0 else if |j.payload| > 0 then (|j.payload| + j.mss - 1) / j.mss else 1;
    if header < DF_LIMIT {
      IdsOfUniform(|j.payload|, j.mss, header);
    }
    AgreeIff(j, header, 0, df);
    UniformWrite(j, header, df, nextId);
    writes := [Write(Normalized(j), df, if df then 0 else nextId)];
  }

  lemma IdsOfUniform(len: nat, mss: nat, header: nat)
    requires mss > 0 && header < DF_LIMIT
    requires !(header + mss > DF_LIMIT && len % mss > 0 && header + len % mss <= DF_LIMIT && len > mss)
    ensures Df0Segments(len, mss, header) ==
      if header + Min(len, mss) > DF_LIMIT then 0 else if len > 0 then (len + mss - 1) / mss else 1
  {
    if len <= mss {
      SmallDiv(len, mss);
    }
  }

  /** Some datagrams of the job need DF set and some need it clear. */
  ghost predicate Disagree(j: Job, header: nat)
    requires j.mss > 0
  {
    !AgreeOnDf(j, header, 0, true) && !AgreeOnDf(j, header, 0, false)
  }

  /** `gso_translate_udp_6to4`: one aggregate, unless its datagrams disagree on DF or the
      device cannot segment UDP; then the software loop. */
  method TranslateUdp6to4(j: Job, hasUso: bool, nextId: nat)
    returns (writes: seq<Write>, inSoftware: bool, idsUsed: nat)
    requires j.mss > 0
    ensures !inSoftware ==> AllOnWire(writes) == Software(j, 20 + 8, 0, nextId)
    ensures !inSoftware ==> idsUsed == Df0Segments(|j.payload|, j.mss, 20 + 8)
    ensures inSoftware <==>
      (!hasUso || 20 + 8 + |j.payload| > 65535 || Disagree(j, 20 + 8))
  {
    hide Software, Cut, AgreeOnDf, OnWire, AllOnWire;
    var header := IP4_HEADER + 8;
    var full := |j.payload| / j.mss;
    var tail := |j.payload| % j.mss;
    TailSize(|j.payload|, j.mss);
    var maxLen := header + (if full > 0 then j.mss else |j.payload|);
    var tailLen := header + tail;
    var mixed := full > 0 && tail > 0 && ((maxLen <= DF_LIMIT) != (tailLen <= DF_LIMIT));
    AgreeIff(j, header, 0, true);
    AgreeIff(j, header, 0, false);
    var df := maxLen > DF_LIMIT;
    assert AgreeOnDf(j, header, 0, df) <==> !mixed;
    assert Disagree(j, header) <==> mixed;
    writes := [];
    idsUsed := if df then 0 else if |j.payload| > 0 then (|j.payload| + j.mss - 1) / j.mss else 1;
    inSoftware := !hasUso || header + |j.payload| > 65535 || mixed;
    if inSoftware {
      return;
    }
    IdsOfUniform(|j.payload|, j.mss, header);
    var w := Write(j, df, if df then 0 else nextId);
    UniformIsSoftware(j, header, df, 0, nextId);
    WireOfAggregate(w);
    if df {
      CutIgnoresId(j, 0, 0, nextId);
    }
    writes := [w];
    OneWrite(w);
  }

  lemma WireOfAggregate(w: Write)
    requires w.job.mss > 0
    ensures OnWire(w) == Cut(w.job, w.df, 0, w.id)
  {
  }
}
