/** UDP packets over IPv4 from 192.0.2.1, ports 4097 and 4098, to 198.51.100.1, port 53, that
    send the dispatcher down the runs of DispatchExample. */
module DispatchPackets {
  import opened Wrappers
  import opened Checksum
  import opened Flow
  import opened DispatchState
  import opened DispatchSteps
  import opened DispatchRuns
  import opened DispatchTraces
  import opened DispatchExample

  const SOURCE: seq<Byte> := [192, 0, 2, 1]
  const TARGET: seq<Byte> := [198, 51, 100, 1]

  /** The first fragment of datagram 1: eight bytes of UDP header, with more to come. */
  function First(port: Byte): (p: seq<Byte>) {
    [0x45, 0, 0, 28, 0, 1, 0x20, 0, 64, 17, 110, 154] + SOURCE + TARGET + [16, port, 0, 53, 0, 16, 0, 0]
  }

  /** The other eight bytes of the datagram. */
  function Later(): (p: seq<Byte>) {
    [0x45, 0, 0, 28, 0, 1, 0, 1, 64, 17, 142, 153] + SOURCE + TARGET + [104, 101, 108, 108, 111, 46, 46, 46]
  }

  /** An empty datagram in one piece. */
  function Whole(): (p: seq<Byte>) {
    [0x45, 0, 0, 28, 0, 2, 0, 0, 64, 17, 142, 153] + SOURCE + TARGET + [16, 1, 0, 53, 0, 8, 0, 0]
  }

  /** The first fragment of datagram 448. */
  function Other(): (p: seq<Byte>) {
    [0x45, 0, 0, 28, 1, 192, 0x20, 0, 64, 17, 108, 219] + SOURCE + TARGET + [16, 1, 0, 53, 0, 16, 0, 0]
  }

  // ------------------------------------------------------------ hashes

  function Mix4(h: bv32, a: Byte, b: Byte, c: Byte, d: Byte): (r: bv32) {
    Mix(Mix(Mix(Mix(h, a), b), c), d)
  }

  /** An address padded to 16 bytes. */
  function MixAddress(h: bv32, a: Byte, b: Byte, c: Byte, d: Byte): (r: bv32) {
    Mix4(Mix4(Mix4(Mix4(h, a, b, c, d), 0, 0, 0, 0), 0, 0, 0, 0), 0, 0, 0, 0)
  }

  /** The two addresses of the packets, and a port behind each. */
  function MixFlow(h: bv32, port: Byte): (r: bv32) {
    Mix(Mix(MixAddress(Mix(Mix(MixAddress(h, 192, 0, 2, 1), 16), port), 198, 51, 100, 1), 0), 53)
  }

  /** The two addresses, and an identification of two bytes behind both. */
  function MixDatagram(h: bv32, hi: Byte, lo: Byte): (r: bv32) {
    Mix(Mix(Mix4(MixAddress(MixAddress(h, 192, 0, 2, 1), 198, 51, 100, 1), hi, lo, 0, 0), 0), 0)
  }

  lemma FnvNext(s: seq<Byte>, b: Byte)
    ensures Fnv(s + [b]) == Mix(Fnv(s), b)
  {
    assert (s + [b])[..|s|] == s;
  }

  lemma FnvNext4(s: seq<Byte>, a: Byte, b: Byte, c: Byte, d: Byte)
    ensures Fnv(s + [a, b, c, d]) == Mix4(Fnv(s), a, b, c, d)
  {
    hide Fnv, Mix;
    FnvNext(s, a);
    FnvNext(s + [a], b);
    FnvNext(s + [a] + [b], c);
    FnvNext(s + [a] + [b] + [c], d);
    assert s + [a, b, c, d] == s + [a] + [b] + [c] + [d];
  }

  lemma FnvAddress(s: seq<Byte>, a: Byte, b: Byte, c: Byte, d: Byte)
    ensures Fnv(s + ([a, b, c, d] + Zeros(12))) == MixAddress(Fnv(s), a, b, c, d)
  {
    hide Fnv, Mix, Mix4;
    FnvNext4(s, a, b, c, d);
    var z: seq<Byte>, t := [0, 0, 0, 0], s + [a, b, c, d];
    FnvNext4(t, 0, 0, 0, 0);
    FnvNext4(t + z, 0, 0, 0, 0);
    FnvNext4(t + z + z, 0, 0, 0, 0);
    assert s + ([a, b, c, d] + Zeros(12)) == t + z + z + z;
  }

  lemma KeyStarts()
    ensures Fnv([4, 17]) == 1751946086
  {
    hide Fnv;
    FnvNext([], 4);
    FnvNext([4], 17);
    assert [] + [4] == [4] && [4] + [17] == [4, 17];
    assert Fnv([]) == 2166136261 by { FnvEmpty(); }
  }

  lemma FnvEmpty()
    ensures Fnv([]) == 2166136261
  {
  }

  lemma Flow4097()
    ensures MixFlow(1751946086, 1) == 2363236391
  {
    assert MixAddress(1751946086, 192, 0, 2, 1) == 1622911511;
    assert Mix(Mix(1622911511, 16), 1) == 2030965068;
  }

  lemma Flow4098()
    ensures MixFlow(1751946086, 2) == 4273981126
  {
    assert MixAddress(1751946086, 192, 0, 2, 1) == 1622911511;
    assert Mix(Mix(1622911511, 16), 2) == 2081297925;
  }

  lemma Datagrams()
    ensures MixDatagram(1751946086, 0, 1) == 222352764 && MixDatagram(1751946086, 1, 192) == 23336454
  {
    assert MixAddress(1751946086, 192, 0, 2, 1) == 1622911511;
    assert MixAddress(1622911511, 198, 51, 100, 1) == 2255731959;
  }

  lemma Scrambled()
    ensures Scramble(2363236391) == 3254967065 && Scramble(4273981126) == 1012957828
    ensures Scramble(222352764) == 71198448 && Scramble(23336454) == 207978224
  {
  }

  /** The key of the flow from port 4096 + port. */
  function Key(port: Byte): (k: seq<Byte>) {
    FlowKey(4, 17, SOURCE + Zeros(12) + [16, port], TARGET + Zeros(12) + [0, 53])
  }

  /** The key of the datagram with identification 256 * hi + lo. */
  function DatagramKey(hi: Byte, lo: Byte): (k: seq<Byte>) {
    [4, 17] + (SOURCE + Zeros(12)) + (TARGET + Zeros(12)) + [hi, lo, 0, 0] + [0, 0]
  }

  /** The two flows fall to different buckets, the two datagrams to one entry. */
  lemma KeyHashes()
    ensures Hash(Key(1)) % BUCKETS == 56089 && Hash(Key(2)) % BUCKETS == 33412
    ensures Hash(DatagramKey(0, 1)) % ENTRIES == 752 && Hash(DatagramKey(1, 192)) % ENTRIES == 752
  {
    hide Fnv, Mix, MixFlow, MixDatagram, Scramble, Key, DatagramKey;
    KeyStarts();
    Flow4097();
    Flow4098();
    Datagrams();
    Scrambled();
    KeyHash(1);
    KeyHash(2);
    DatagramHash(0, 1);
    DatagramHash(1, 192);
  }

  lemma KeyHash(port: Byte)
    ensures Fnv(Key(port)) == MixFlow(Fnv([4, 17]), port)
  {
    hide Fnv, Mix, MixAddress, NotAfter;
    var s, t := SOURCE + Zeros(12), TARGET + Zeros(12);
    var k := [4, 17] + s;
    FnvAddress([4, 17], 192, 0, 2, 1);
    FnvNext(k, 16);
    FnvNext(k + [16], port);
    k := k + [16] + [port];
    FnvAddress(k, 198, 51, 100, 1);
    FnvNext(k + t, 0);
    FnvNext(k + t + [0], 53);
    assert NotAfter(s + [16, port], t + [0, 53]) by { SourceFirst(s + [16, port], t + [0, 53]); }
    assert Key(port) == k + t + [0] + [53];
  }

  lemma SourceFirst(s: seq<Byte>, t: seq<Byte>)
    requires |s| == |t| > 0 && s[0] < t[0]
    ensures NotAfter(s, t)
  {
  }

  lemma DatagramHash(hi: Byte, lo: Byte)
    ensures Fnv(DatagramKey(hi, lo)) == MixDatagram(Fnv([4, 17]), hi, lo)
  {
    hide Fnv, Mix, Mix4, MixAddress;
    var s, t := SOURCE + Zeros(12), TARGET + Zeros(12);
    var k := [4, 17] + s + t;
    FnvAddress([4, 17], 192, 0, 2, 1);
    FnvAddress([4, 17] + s, 198, 51, 100, 1);
    FnvNext4(k, hi, lo, 0, 0);
    k := k + [hi, lo, 0, 0];
    FnvNext(k, 0);
    FnvNext(k + [0], 0);
    assert DatagramKey(hi, lo) == k + [0] + [0];
  }

  // ------------------------------------------------------------ what the classifier makes of them

  function FirstRead(port: Byte): (p: FlowPacket) {
    FlowPacket(DatagramKey(0, 1), Hash(Key(port)), Hash(DatagramKey(0, 1)), true, true, true)
  }

  function LaterRead(): (p: FlowPacket) {
    FlowPacket(DatagramKey(0, 1), 0, Hash(DatagramKey(0, 1)), true, false, false)
  }

  function WholeRead(): (p: FlowPacket) {
    FlowPacket(Zeros(40), Hash(Key(1)), 0, false, true, true)
  }

  /** The header of a packet of 28 bytes from the source to the target. */
  lemma HeadRead(p: seq<Byte>)
    requires |p| == 28 && p[0] == 0x45 && Be16(p, 2) == 28 && p[9] == 17 && p[12..16] == SOURCE && p[16..20] == TARGET
    requires Be16(p, 6) == 0 || Be16(p, 6) == 1 || Be16(p, 6) == 0x2000
    ensures HeadOf(p, false) == Some(Head(4, SOURCE + Zeros(12), TARGET + Zeros(12), 20, 17, 28,
      if Be16(p, 6) == 0 then WHOLE else FragmentField(true, Be16(p, 6) != 1, p[4..6] + [0, 0], 17)))
  {
  }

  lemma FirstParsed(p: seq<Byte>, port: Byte)
    requires p == First(port)
    ensures Reads(p, FirstRead(port))
  {
    hide Hash, NotAfter, FlowKey, HeadOf;
    assert p[12..16] == SOURCE && p[16..20] == TARGET && p[4..6] + [0, 0] == [0, 1, 0, 0];
    HeadRead(p);
    assert p[20..22] == [16, port] && p[22..24] == [0, 53];
  }

  function OtherRead(): (p: FlowPacket) {
    FlowPacket(DatagramKey(1, 192), Hash(Key(1)), Hash(DatagramKey(1, 192)), true, true, true)
  }

  lemma OtherParsed(p: seq<Byte>)
    requires p == Other()
    ensures Reads(p, OtherRead())
  {
    hide Hash, NotAfter, FlowKey, HeadOf;
    assert p[12..16] == SOURCE && p[16..20] == TARGET && p[4..6] + [0, 0] == [1, 192, 0, 0];
    HeadRead(p);
    assert p[20..22] == [16, 1] && p[22..24] == [0, 53];
  }

  lemma LaterParsed(p: seq<Byte>)
    requires p == Later()
    ensures Reads(p, LaterRead())
  {
    hide Hash, NotAfter, FlowKey, HeadOf;
    assert p[12..16] == SOURCE && p[16..20] == TARGET && p[4..6] + [0, 0] == [0, 1, 0, 0];
    HeadRead(p);
  }

  lemma WholeParsed(p: seq<Byte>)
    requires p == Whole()
    ensures Reads(p, WholeRead())
  {
    hide Hash, NotAfter, FlowKey, HeadOf;
    assert p[12..16] == SOURCE && p[16..20] == TARGET;
    HeadRead(p);
    assert p[20..22] == [16, 1] && p[22..24] == [0, 53];
  }

  // ------------------------------------------------------------ the runs

  /** What the runs require of the packets. */
  lemma PacketsFit()
    ensures Torn(LaterRead(), FirstRead(1), FirstRead(2)) && Beside(WholeRead(), FirstRead(1))
    ensures EntryOf(OtherRead()) == EntryOf(FirstRead(1)) && OtherRead().fragmentKey != FirstRead(1).fragmentKey
  {
    hide Hash, FlowKey, Key;
    KeyHashes();
    assert DatagramKey(0, 1)[34] != DatagramKey(1, 192)[34];
  }

  /** The later fragment of datagram 1, 511 empty datagrams, and its first fragment twice, from
      port 4097 and from port 4098, leave the later fragment stuck. */
  lemma StuckExample(l: seq<Byte>, w: seq<Byte>, f: seq<Byte>, g: seq<Byte>)
    returns (states: seq<State>, events: seq<Event>, e: nat)
    requires l == Later() && w == Whole() && f == First(1) && g == First(2)
    ensures IsRun(states, events) && states[0] == Start(2, 0) && Stuck(states[|events|], e)
    ensures events == [Arrival(l, 0)] + seq(SLOTS - 1, i => Arrival(w, 0)) + [Arrival(f, 0), Arrival(g, 0)]
  {
    hide Parse, IsRun, Start, Stuck, First, Later, Whole, LaterRead, WholeRead, FirstRead, Arrival, Reads, Torn, Beside;
    LaterParsed(l);
    WholeParsed(w);
    FirstParsed(f, 1);
    FirstParsed(g, 2);
    PacketsFit();
    states, events := StuckIsReached(l, LaterRead(), w, WholeRead(), f, FirstRead(1), g, FirstRead(2));
    e := EntryOf(LaterRead());
  }

  /** Datagram 1 is forwarded, and dropped when it is sent again 30 seconds later. */
  lemma TwiceExample(f: seq<Byte>, l: seq<Byte>)
    returns (states: seq<State>, events: seq<Event>, s: State, t: State)
    requires f == First(1) && l == Later()
    ensures Leads(states, events, t) && |states| == 5 && states[2] == s
    ensures events == [Arrival(f, 0), Arrival(l, 0), Arrival(f, 30), Arrival(l, 30)]
    ensures s.fate == [Kept(Ring(0, 0)), Kept(Ring(0, 1))] && |s.free| == SLOTS - 2
    ensures t.fate == s.fate + [Dropped, Dropped]
  {
    hide Parse, Leads, First, Later, FirstRead, LaterRead, Arrival, Reads;
    LaterParsed(l);
    FirstParsed(f, 1);
    FragmentsRead();
    states, events, s, t := SecondCopyIsDropped(f, FirstRead(1), l, LaterRead(), 30);
  }

  /** Datagram 448 falls to the entry of datagram 1 and is dropped, though nothing waits. */
  lemma OtherExample(f: seq<Byte>, l: seq<Byte>, g: seq<Byte>, now: nat)
    returns (states: seq<State>, events: seq<Event>, s: State, t: State)
    requires f == First(1) && l == Later() && g == Other()
    ensures Leads(states, events, t) && |states| == 4 && states[2] == s
    ensures events == [Arrival(f, 0), Arrival(l, 0), Arrival(g, now)]
    ensures s.fate == [Kept(Ring(0, 0)), Kept(Ring(0, 1))] && |s.free| == SLOTS - 2
    ensures t.fate == s.fate + [Dropped]
  {
    hide Parse, Leads, First, Later, Other, LaterRead, FirstRead, OtherRead, Arrival, Reads, Torn, Beside;
    LaterParsed(l);
    FirstParsed(f, 1);
    OtherParsed(g);
    PacketsFit();
    FragmentsRead();
    states, events, s, t := OtherIsDropped(f, FirstRead(1), l, LaterRead(), g, OtherRead(), now);
  }

  lemma FragmentsRead()
    ensures var (f, l) := (FirstRead(1), LaterRead());
            && f.fragmented && f.first && l.fragmented && !l.first && OtherRead().fragmented
            && l.fragmentKey == f.fragmentKey && EntryOf(l) == EntryOf(f)
  {
    hide Hash, DatagramKey;
  }
}
