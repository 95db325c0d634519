/** Runs of the dispatcher from its start over packets as they are received. One leaves a
    packet stuck: a later fragment waits, whole packets use up the slots, the first fragment
    is dropped for want of one and binds its entry all the same, and a first fragment of a
    flow with another worker refuses it. Others send two datagrams to one entry. */
module DispatchExample {
  import opened Wrappers
  import opened Lists
  import opened Checksum
  import opened Flow
  import opened DispatchState
  import opened DispatchPlaces
  import opened DispatchSteps
  import opened DispatchRuns
  import opened DispatchTraces
  import L = FrameLifetime

  /** The classifier takes packet x for p, and the packet fits the receive buffer. */
  ghost predicate Reads(x: seq<Byte>, p: FlowPacket) {
    Parse(x, false) == Some(p) && 0 < |x| <= CAPACITY - HEADROOM
  }

  function Arrival(x: seq<Byte>, now: nat): (e: Event) {
    SubmitEvent(Parse(x, false), |x|, now)
  }

  /** A later fragment, and two first fragments of its datagram whose flows fall to different buckets. */
  ghost predicate Torn(l: FlowPacket, f: FlowPacket, g: FlowPacket) {
    && l.fragmented && !l.first && !l.transport
    && f.fragmented && f.first && f.transport && g.fragmented && g.first && g.transport
    && l.fragmentKey == f.fragmentKey == g.fragmentKey && EntryOf(l) == EntryOf(f) == EntryOf(g)
    && Bucket(f) != Bucket(g)
  }

  /** A whole packet of the flow of f. */
  predicate Beside(w: FlowPacket, f: FlowPacket) {
    !w.fragmented && w.transport && Bucket(w) == Bucket(f)
  }

  /** Every slot on the free stack is there once, and its frame has never been used. */
  ghost predicate Unused(free: seq<nat>, pool: L.Pool) {
    && NoDup(free) && !pool.stopping
    && (forall k :: 0 <= k < |free| ==> free[k] < |pool.frames| && Blank(pool.frames[free[k]]))
  }

  predicate Blank(f: L.Frame) {
    f.state == L.Free && f.generation == 0
  }

  /** A fragment of the datagram of f waits, k slots are left, and the bucket of g has no worker yet. */
  ghost predicate Filling(s: State, k: nat, f: FlowPacket, g: FlowPacket) {
    && Inv(s) && s.workers == 2 && s.header == 0 && !s.stopped
    && |s.free| == k && Unused(s.free, s.pool)
    && |s.entries| == |s.chains| == ENTRIES && s.chains[EntryOf(f)] != [] && |s.flow| == BUCKETS
    && s.entries[EntryOf(f)] == Entry(true, f.fragmentKey, Unresolved, 0, HOLD_SECONDS)
    && ((s.flow[Bucket(f)] == 0 && s.nextQueue == 0) || (s.flow[Bucket(f)] == 1 && s.nextQueue == 1))
    && s.flow[Bucket(g)] == 0
  }

  predicate FirstBound(s: State, f: FlowPacket) {
    |s.flow| == BUCKETS && s.flow[Bucket(f)] == 1
  }

  // ------------------------------------------------------------ one submission

  lemma DecidedBinds(s: State, p: FlowPacket, now: nat)
    requires Inv(s)
    ensures |s.flow| == BUCKETS && s.workers > 0
    ensures var (t, b) := (Decided(s, p, now).0, BindFlow(s, p));
            && t.flow == b.flow && t.nextQueue == b.nextQueue && t.free == s.free && t.pool == s.pool
            && t.stopped == s.stopped && t.workers == s.workers && t.header == s.header
  {
    hide PlacesOk, FatesOk, Steered, InOrder, Counted, PoolOk, EntryOk, Judge;
    LogKeeps(s, Some(p));
    BindKeeps(s.(log := s.log + [Some(p)]), p);
  }

  /** A packet that is kept takes the top slot. */
  lemma StoreTakes(t: State, length: nat, v: Verdict)
    requires |t.length| == |t.place| == SLOTS && t.header <= HEADROOM
    requires t.free != [] && t.free[|t.free| - 1] < SLOTS && Unused(t.free, t.pool) && !t.stopped
    requires v.Hold? ==> v.entry < |t.chains| && |t.free| > RESERVE
    requires v.Send? ==> v.queue < |t.sent| && v.flush == None
    requires !v.Refuse?
    ensures var u := Store(t, length, v);
            && u.free == t.free[..|t.free| - 1] && Unused(u.free, u.pool)
            && u.flow == t.flow && u.nextQueue == t.nextQueue && u.entries == t.entries
            && u.workers == t.workers && u.header == t.header && u.stopped == t.stopped && |u.chains| == |t.chains|
            && (v.Send? ==> u.chains == t.chains)
            && (v.Hold? ==> u.chains[v.entry] != [])
  {
    hide NoDup;
    var slot := t.free[|t.free| - 1];
    InitNoDup(t.free);
    assert Blank(t.pool.frames[slot]);
  }

  lemma InitNoDup(s: seq<nat>)
    requires NoDup(s) && s != []
    ensures NoDup(s[..|s| - 1]) && s[|s| - 1] !in s[..|s| - 1]
  {
  }

  /** A packet for which there is no slot leaves no trace but its verdict. */
  lemma StoreDrops(t: State, length: nat, v: Verdict)
    requires |t.length| == |t.place| == SLOTS && t.header <= HEADROOM && t.free == []
    requires v.Hold? ==> v.entry < |t.chains|
    requires v.Send? ==> v.queue < |t.sent| && (v.flush.Some? ==> v.flush.value < |t.chains|)
    ensures Store(t, length, v) == Drop(t)
  {
  }

  /** What the run needs to know of the start. */
  ghost predicate Untouched(s: State, f: FlowPacket, g: FlowPacket) {
    && s.workers == 2 && s.header == 0 && !s.stopped && |s.free| == SLOTS && s.nextQueue == 0 && Unused(s.free, s.pool)
    && |s.entries| == |s.chains| == ENTRIES && |s.flow| == BUCKETS && s.flow[Bucket(f)] == s.flow[Bucket(g)] == 0
    && s.entries[EntryOf(f)] == Entry(false, Zeros(40), Unresolved, 0, 0) && s.chains[EntryOf(f)] == []
  }

  lemma StartIs(f: FlowPacket, g: FlowPacket)
    ensures Untouched(Start(2, 0), f, g)
  {
  }

  lemma LaterIsHeld(s: State, l: FlowPacket, n: nat, f: FlowPacket, g: FlowPacket)
    requires Inv(s) && Untouched(s, f, g) && Torn(l, f, g) && 0 < n <= CAPACITY - HEADROOM
    ensures Filling(Submit(s, Some(l), n, 0), SLOTS - 1, f, g)
  {
    hide Inv, Core, Decided, BindFlow, FlowQueue, Decide, VerdictOk, Store, Unused, Submit;
    SubmitKeeps(s, Some(l), n, 0);
    SubmitStores(s, l, n, 0);
    DecidedGrows(s, l, 0);
    DecidedBinds(s, l, 0);
    var (t, v) := Decided(s, l, 0);
    UnboundStays(s, l);
    StoreTakes(t, n, v);
  }

  lemma UnboundStays(s: State, l: FlowPacket)
    requires |s.flow| == BUCKETS && s.workers > 0 && !l.transport
    ensures BindFlow(s, l) == s
  {
  }

  lemma WholeBinds(s: State, w: FlowPacket, b: nat)
    requires |s.flow| == BUCKETS && s.workers == 2 && w.transport && Bucket(w) != b && b < BUCKETS
    requires (s.flow[Bucket(w)] == 0 && s.nextQueue == 0) || (s.flow[Bucket(w)] == 1 && s.nextQueue == 1)
    ensures var t := BindFlow(s, w);
            t.flow[Bucket(w)] == 1 && t.nextQueue == 1 && |t.flow| == BUCKETS && t.flow[b] == s.flow[b]
  {
  }

  lemma WholeTakesSlot(s: State, k: nat, w: FlowPacket, n: nat, f: FlowPacket, g: FlowPacket)
    requires Filling(s, k + 1, f, g) && Beside(w, f) && Bucket(f) != Bucket(g) && 0 < n <= CAPACITY - HEADROOM
    ensures Filling(Submit(s, Some(w), n, 0), k, f, g) && FirstBound(Submit(s, Some(w), n, 0), f)
  {
    hide Inv, Core, Decided, BindFlow, FlowQueue, Decide, VerdictOk, Store, Unused, Submit, Judge;
    SubmitKeeps(s, Some(w), n, 0);
    SubmitStores(s, w, n, 0);
    DecidedGrows(s, w, 0);
    DecidedBinds(s, w, 0);
    WholeBinds(s, w, Bucket(g));
    var (t, v) := Decided(s, w, 0);
    assert t.entries[EntryOf(f)] == s.entries[EntryOf(f)];
    StoreTakes(t, n, v);
  }

  // ------------------------------------------------------------ the run

  /** A run from the start to s. */
  ghost predicate Leads(states: seq<State>, events: seq<Event>, s: State) {
    IsRun(states, events) && states[0] == Start(2, 0) && states[|events|] == s
  }

  lemma OneMore(states: seq<State>, events: seq<Event>, s: State, e: Event, t: State)
    requires Leads(states, events, s) && Follows(s, e, t)
    ensures Leads(states + [t], events + [e], t)
  {
    hide Follows, Start, Inv;
    var states', events' := states + [t], events + [e];
    forall i | 0 <= i < |events'| ensures Follows(states'[i], events'[i], states'[i + 1]) {
      if i < |events| {
        assert Follows(states[i], events[i], states[i + 1]);
        assert states'[i] == states[i] && states'[i + 1] == states[i + 1] && events'[i] == events[i];
      }
    }
  }

  lemma ArrivalFollows(s: State, x: seq<Byte>, p: FlowPacket, now: nat)
    requires Inv(s) && s.header == 0 && Reads(x, p)
    ensures Legal(s, Arrival(x, now)) && Step(s, Arrival(x, now)) == Submit(s, Some(p), |x|, now)
    ensures Follows(s, Arrival(x, now), Submit(s, Some(p), |x|, now))
  {
    hide Inv, Submit, Parse;
  }

  lemma {:induction false} SlotsRunOut(states: seq<State>, events: seq<Event>, s: State, k: nat,
                                       x: seq<Byte>, w: FlowPacket, f: FlowPacket, g: FlowPacket)
    returns (states': seq<State>, events': seq<Event>, s': State)
    requires Leads(states, events, s) && Filling(s, k, f, g) && (k > 0 || FirstBound(s, f))
    requires Reads(x, w) && Beside(w, f) && Bucket(f) != Bucket(g)
    ensures Leads(states', events', s') && Filling(s', 0, f, g) && FirstBound(s', f)
    ensures |events'| == |events| + k && events' == events + seq(k, i => Arrival(x, 0))
    decreases k
  {
    hide Inv, Submit, Leads, Follows, Filling, FirstBound, Parse, Arrival, Bucket;
    if k == 0 {
      states', events', s' := states, events, s;
    } else {
      FillingParts(s, k, f, g);
      var t := Submit(s, Some(w), |x|, 0);
      WholeTakesSlot(s, k - 1, w, |x|, f, g);
      ArrivalFollows(s, x, w, 0);
      OneMore(states, events, s, Arrival(x, 0), t);
      states', events', s' := SlotsRunOut(states + [t], events + [Arrival(x, 0)], t, k - 1, x, w, f, g);
    }
  }

  lemma FillingParts(s: State, k: nat, f: FlowPacket, g: FlowPacket)
    requires Filling(s, k, f, g)
    ensures Inv(s) && s.header == 0
  {
    hide Inv, Unused;
  }

  // ------------------------------------------------------------ the two first fragments

  /** The first fragment finds no slot; its entry is bound all the same. */
  lemma FirstIsDropped(s: State, l: FlowPacket, f: FlowPacket, n: nat, g: FlowPacket)
    requires Filling(s, 0, f, g) && FirstBound(s, f) && Torn(l, f, g) && 0 < n <= CAPACITY - HEADROOM
    ensures var t := Submit(s, Some(f), n, 0);
            && Inv(t) && t.header == 0 && t.workers == 2 && |t.entries| == |t.chains| == ENTRIES && |t.flow| == BUCKETS
            && t.entries[EntryOf(f)] == Entry(true, f.fragmentKey, Bound, 0, HOLD_SECONDS) && t.chains[EntryOf(f)] != []
            && t.flow[Bucket(g)] == 0 && t.nextQueue == 1
  {
    hide Inv, Core, Decided, BindFlow, FlowQueue, Decide, VerdictOk, Store, Unused, Submit;
    SubmitKeeps(s, Some(f), n, 0);
    SubmitStores(s, f, n, 0);
    DecidedGrows(s, f, 0);
    DecidedBinds(s, f, 0);
    FirstQueue(s, f);
    var (t, v) := Decided(s, f, 0);
    StoreDrops(t, n, v);
  }

  lemma FirstQueue(s: State, f: FlowPacket)
    requires |s.flow| == BUCKETS && s.workers == 2 && f.transport && s.flow[Bucket(f)] == 1
    ensures BindFlow(s, f) == s && FlowQueue(s, f) == 0
  {
  }

  lemma OtherQueue(s: State, g: FlowPacket)
    requires |s.flow| == BUCKETS && s.workers == 2 && g.transport && s.flow[Bucket(g)] == 0 && s.nextQueue == 1
    ensures FlowQueue(BindFlow(s, g), g) == 1
  {
  }

  /** The entry is reached: for any such four packets a run from the start ends with a packet
      stuck in its entry. The events are the later fragment, 511 whole packets and the two
      first fragments, all within one second. */
  lemma StuckIsReached(x: seq<Byte>, l: FlowPacket, y: seq<Byte>, w: FlowPacket,
                       z: seq<Byte>, f: FlowPacket, u: seq<Byte>, g: FlowPacket)
    returns (states: seq<State>, events: seq<Event>)
    requires Reads(x, l) && Reads(y, w) && Reads(z, f) && Reads(u, g) && Torn(l, f, g) && Beside(w, f)
    ensures IsRun(states, events) && states[0] == Start(2, 0) && Stuck(states[|events|], EntryOf(l))
    ensures events == [Arrival(x, 0)] + seq(SLOTS - 1, i => Arrival(y, 0)) + [Arrival(z, 0), Arrival(u, 0)]
  {
    hide Inv, Submit, Follows, Filling, FirstBound, Start, Strands, Parse, Arrival, EntryOf, Bucket, Step;
    var s0 := Start(2, 0);
    StartInv(2, 0);
    StartIs(f, g);
    LaterIsHeld(s0, l, |x|, f, g);
    var s1 := Submit(s0, Some(l), |x|, 0);
    ArrivalFollows(s0, x, l, 0);
    OneMore([s0], [], s0, Arrival(x, 0), s1);
    var s2;
    states, events, s2 := SlotsRunOut([s0] + [s1], [] + [Arrival(x, 0)], s1, SLOTS - 1, y, w, f, g);
    LastTwo(s2, l, z, f, u, g);
    var s3 := Submit(s2, Some(f), |z|, 0);
    OneMore(states, events, s2, Arrival(z, 0), s3);
    var s4 := Step(s3, Arrival(u, 0));
    OneMore(states + [s3], events + [Arrival(z, 0)], s3, Arrival(u, 0), s4);
    states, events := states + [s3] + [s4], events + [Arrival(z, 0)] + [Arrival(u, 0)];
  }

  lemma LastTwo(s: State, l: FlowPacket, z: seq<Byte>, f: FlowPacket, u: seq<Byte>, g: FlowPacket)
    requires Filling(s, 0, f, g) && FirstBound(s, f) && Torn(l, f, g) && Reads(z, f) && Reads(u, g)
    ensures Inv(s) && s.header == 0
    ensures var t := Submit(s, Some(f), |z|, 0);
            && Follows(s, Arrival(z, 0), t)
            && Inv(t) && Legal(t, Arrival(u, 0)) && Follows(t, Arrival(u, 0), Step(t, Arrival(u, 0)))
            && Stuck(Step(t, Arrival(u, 0)), EntryOf(l))
  {
    hide Inv, Submit, Stuck, BindFlow, FlowQueue, Parse;
    var t := Submit(s, Some(f), |z|, 0);
    FirstIsDropped(s, l, f, |z|, g);
    ArrivalFollows(s, z, f, 0);
    ArrivalFollows(t, u, g, 0);
    OtherQueue(t, g);
    assert Strands(t, Arrival(u, 0), EntryOf(f));
    StuckExactly(t, Arrival(u, 0), EntryOf(f));
  }

  // ------------------------------------------------------------ two datagrams in one entry

  /** A packet sent to a worker while nothing waits in its entry. */
  lemma StoreSends(t: State, length: nat, queue: nat, e: nat)
    requires |t.length| == |t.place| == SLOTS && t.header <= HEADROOM
    requires t.free != [] && t.free[|t.free| - 1] < SLOTS && Unused(t.free, t.pool) && !t.stopped
    requires queue < |t.sent| && e < |t.chains| && t.chains[e] == []
    ensures var u := Store(t, length, Send(queue, Some(e)));
            && u.free == t.free[..|t.free| - 1] && Unused(u.free, u.pool)
            && u.entries == t.entries && u.header == t.header && u.stopped == t.stopped && u.workers == t.workers
            && u.chains == t.chains && |u.sent| == |t.sent| && |u.sent[queue]| == |t.sent[queue]| + 1
            && |u.fate| == |t.fate| + 1 && u.fate[|t.fate|] == Kept(Ring(queue, |t.sent[queue]|))
            && forall i :: 0 <= i < |t.fate| && t.fate[i].Kept? && t.fate[i].loc.Ring? ==> u.fate[i] == t.fate[i]
  {
    hide NoDup;
    InitNoDup(t.free);
    assert Blank(t.pool.frames[t.free[|t.free| - 1]]);
  }

  /** The entry of f is bound to worker 0 with nothing held back, and k slots are left. */
  ghost predicate Serving(s: State, k: nat, f: FlowPacket) {
    && Inv(s) && s.workers == 2 && s.header == 0 && !s.stopped && |s.free| == k && Unused(s.free, s.pool)
    && |s.entries| == |s.chains| == ENTRIES && s.chains[EntryOf(f)] == []
    && s.entries[EntryOf(f)] == Entry(true, f.fragmentKey, Bound, 0, HOLD_SECONDS)
  }

  lemma FirstQueued(s: State, f: FlowPacket)
    requires |s.flow| == BUCKETS && s.workers == 2 && s.flow[Bucket(f)] == 0 && s.nextQueue == 0
    ensures FlowQueue(BindFlow(s, f), f) == 0
  {
  }

  lemma FirstOpens(s: State, f: FlowPacket, n: nat)
    requires Inv(s) && Untouched(s, f, f) && f.fragmented && f.first && 0 < n <= CAPACITY - HEADROOM
    requires s.fate == [] && |s.sent| == 2 && s.sent[0] == []
    ensures var t := Submit(s, Some(f), n, 0);
            Serving(t, SLOTS - 1, f) && t.fate == [Kept(Ring(0, 0))] && |t.sent| == 2 && |t.sent[0]| == 1
  {
    hide Inv, Core, Decided, BindFlow, FlowQueue, Decide, VerdictOk, Store, Unused, Submit;
    SubmitKeeps(s, Some(f), n, 0);
    SubmitStores(s, f, n, 0);
    DecidedGrows(s, f, 0);
    DecidedBinds(s, f, 0);
    DecidedFate(s, f, 0);
    FirstQueued(s, f);
    StoreSends(Decided(s, f, 0).0, n, 0, EntryOf(f));
  }

  lemma LaterFollows(s: State, l: FlowPacket, n: nat, f: FlowPacket)
    requires Serving(s, SLOTS - 1, f) && l.fragmented && !l.first && 0 < n <= CAPACITY - HEADROOM
    requires l.fragmentKey == f.fragmentKey && EntryOf(l) == EntryOf(f)
    requires s.fate == [Kept(Ring(0, 0))] && |s.sent| == 2 && |s.sent[0]| == 1
    ensures var t := Submit(s, Some(l), n, 0);
            Serving(t, SLOTS - 2, f) && t.fate == [Kept(Ring(0, 0)), Kept(Ring(0, 1))]
  {
    hide Inv, Core, Decided, BindFlow, FlowQueue, Decide, VerdictOk, Store, Unused, Submit;
    SubmitKeeps(s, Some(l), n, 0);
    SubmitStores(s, l, n, 0);
    DecidedGrows(s, l, 0);
    DecidedBinds(s, l, 0);
    DecidedFate(s, l, 0);
    StoreSends(Decided(s, l, 0).0, n, 0, EntryOf(l));
  }

  /** A datagram in two fragments is forwarded: nothing is held back, and 510 slots are free. */
  lemma Forwarded(z: seq<Byte>, f: FlowPacket, x: seq<Byte>, l: FlowPacket)
    returns (states: seq<State>, events: seq<Event>, s: State)
    requires Reads(z, f) && Reads(x, l) && f.fragmented && f.first && l.fragmented && !l.first
    requires l.fragmentKey == f.fragmentKey && EntryOf(l) == EntryOf(f)
    ensures Leads(states, events, s) && |states| == 3 && states[2] == s && events == [Arrival(z, 0), Arrival(x, 0)]
    ensures Serving(s, SLOTS - 2, f) && s.fate == [Kept(Ring(0, 0)), Kept(Ring(0, 1))]
  {
    hide Inv, Submit, Follows, Start, Parse, Arrival, EntryOf, Step, Unused, Untouched;
    var s0 := Start(2, 0);
    StartInv(2, 0);
    StartIs(f, f);
    StartQueues();
    assert s0.header == 0 by { UntouchedHeader(s0, f); }
    FirstOpens(s0, f, |z|);
    ArrivalFollows(s0, z, f, 0);
    var s1 := Submit(s0, Some(f), |z|, 0);
    OneMore([s0], [], s0, Arrival(z, 0), s1);
    LaterFollows(s1, l, |x|, f);
    ArrivalFollows(s1, x, l, 0);
    s := Submit(s1, Some(l), |x|, 0);
    OneMore([s0] + [s1], [] + [Arrival(z, 0)], s1, Arrival(x, 0), s);
    states, events := [s0] + [s1] + [s], [] + [Arrival(z, 0)] + [Arrival(x, 0)];
  }

  /** From 30 seconds later on the same two fragments are dropped. */
  lemma SecondCopyIsDropped(z: seq<Byte>, f: FlowPacket, x: seq<Byte>, l: FlowPacket, now: nat)
    returns (states: seq<State>, events: seq<Event>, s: State, t: State)
    requires Reads(z, f) && Reads(x, l) && f.fragmented && f.first && l.fragmented && !l.first
    requires l.fragmentKey == f.fragmentKey && EntryOf(l) == EntryOf(f) && now >= HOLD_SECONDS
    ensures Leads(states, events, t) && |states| == 5 && states[2] == s
    ensures events == [Arrival(z, 0), Arrival(x, 0), Arrival(z, now), Arrival(x, now)]
    ensures Serving(s, SLOTS - 2, f) && s.fate == [Kept(Ring(0, 0)), Kept(Ring(0, 1))]
    ensures t.fate == s.fate + [Dropped, Dropped]
  {
    hide Follows, Start, Parse, Arrival, EntryOf, Step, Serving, Leads;
    states, events, s := Forwarded(z, f, x, l);
    states, events, t := EntryIsTaken(states, events, s, s, f, z, f, now);
    states, events, t := EntryIsTaken(states, events, s, t, f, x, l, now);
  }

  /** A fragment of another datagram with the same entry is dropped at any time. */
  lemma OtherIsDropped(z: seq<Byte>, f: FlowPacket, x: seq<Byte>, l: FlowPacket, y: seq<Byte>, g: FlowPacket, now: nat)
    returns (states: seq<State>, events: seq<Event>, s: State, t: State)
    requires Reads(z, f) && Reads(x, l) && f.fragmented && f.first && l.fragmented && !l.first
    requires l.fragmentKey == f.fragmentKey && EntryOf(l) == EntryOf(f)
    requires Reads(y, g) && g.fragmented && g.fragmentKey != f.fragmentKey && EntryOf(g) == EntryOf(f)
    ensures Leads(states, events, t) && |states| == 4 && states[2] == s
    ensures events == [Arrival(z, 0), Arrival(x, 0), Arrival(y, now)]
    ensures Serving(s, SLOTS - 2, f) && s.fate == [Kept(Ring(0, 0)), Kept(Ring(0, 1))]
    ensures t.fate == s.fate + [Dropped]
  {
    hide Follows, Start, Parse, Arrival, EntryOf, Step, Serving, Leads;
    states, events, s := Forwarded(z, f, x, l);
    states, events, t := EntryIsTaken(states, events, s, s, f, y, g, now);
  }

  lemma GrowsHeader(s: State, t: State)
    requires Grows(s, t)
    ensures t.header == s.header
  {
  }

  lemma StartQueues()
    ensures var s := Start(2, 0); s.fate == [] && |s.sent| == 2 && s.sent[0] == []
  {
  }

  lemma UntouchedHeader(s: State, f: FlowPacket)
    requires Untouched(s, f, f)
    ensures s.header == 0
  {
  }

  /** One more fragment for the entry of f, which state 2 has bound: late, or of another datagram. */
  lemma EntryIsTaken(states: seq<State>, events: seq<Event>, r: State, s: State, f: FlowPacket,
                     z: seq<Byte>, p: FlowPacket, now: nat)
    returns (states': seq<State>, events': seq<Event>, t: State)
    requires Leads(states, events, s) && |states| == |events| + 1 > 2 && states[2] == r && Serving(r, SLOTS - 2, f)
    requires Reads(z, p) && p.fragmented && EntryOf(p) == EntryOf(f)
    requires p.fragmentKey != f.fragmentKey || now >= HOLD_SECONDS
    ensures Leads(states', events', t) && events' == events + [Arrival(z, now)] && states' == states + [t]
    ensures t.fate == s.fate + [Dropped]
  {
    hide Inv, Submit, Follows, Start, EntryOf, Step, Unused;
    RunKeepsInv(states, events, |events|);
    RunGrows(states, events, 2, |events|);
    assert s.header == 0 by { GrowsHeader(r, s); }
    ArrivalFollows(s, z, p, now);
    t := Submit(s, Some(p), |z|, now);
    OneMore(states, events, s, Arrival(z, now), t);
    states', events' := states + [t], events + [Arrival(z, now)];
    EntryIsNeverReused(states', events', 2, |events|, EntryOf(p));
  }
}
