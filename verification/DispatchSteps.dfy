/** What the dispatcher keeps true, and that each of its steps does keep it true. */
module DispatchSteps {
  import opened Wrappers
  import opened Flow
  import opened DispatchState
  import opened DispatchPlaces
  import L = FrameLifetime

  // ------------------------------------------------------------ the invariant

  predicate Leading(p: FlowPacket) {
    !p.fragmented || p.first
  }

  predicate TablesOk(workers: nat, flow: seq<nat>, entries: seq<Entry>, chains: ItemLists) {
    && |flow| == BUCKETS && |entries| == |chains| == ENTRIES
    && (forall b :: 0 <= b < BUCKETS ==> flow[b] <= workers)
    && (forall e :: 0 <= e < ENTRIES ==> EntryOk(workers, entries[e], chains[e]))
  }

  predicate EntryOk(workers: nat, f: Entry, chain: seq<Item>) {
    && (f.resolved == Bound ==> f.queue < workers)
    && (!f.used ==> chain == [] && f.resolved == Unresolved)
    && |chain| <= CHAIN_LIMIT
  }

  /** Packet p may be at loc: in its flow's worker queue, its datagram's worker queue, or
      held by its datagram's entry. */
  predicate Right(flow: seq<nat>, entries: seq<Entry>, p: FlowPacket, loc: Loc)
    requires |flow| == BUCKETS && |entries| == ENTRIES
  {
    var f := entries[EntryOf(p)];
    match loc
    case Ring(w, _) =>
      && (Leading(p) ==> if p.transport then flow[Bucket(p)] == w + 1 else w == 0)
      && (p.fragmented ==> f.used && f.key == p.fragmentKey && f.resolved != Unresolved && f.queue == w)
    case Chain(e, _) =>
      p.fragmented && !p.first && EntryOf(p) == e && f.used && f.key == p.fragmentKey
  }

  ghost predicate Steered(flow: seq<nat>, entries: seq<Entry>, sent: ItemLists, chains: ItemLists, log: seq<Option<FlowPacket>>)
    requires |flow| == BUCKETS && |entries| == ENTRIES
  {
    forall loc :: LocIn(sent, chains, loc) ==>
      var id := ItemAt(sent, chains, loc).id;
      id < |log| && log[id].Some? && Right(flow, entries, log[id].value, loc)
  }

  predicate WholeAt(log: seq<Option<FlowPacket>>, id: nat) {
    id < |log| && log[id].Some? && !log[id].value.fragmented
  }

  /** An unfragmented packet stands behind everything queued before it was submitted. */
  ghost predicate InOrder(sent: ItemLists, log: seq<Option<FlowPacket>>) {
    forall w, k, l :: 0 <= w < |sent| && 0 <= k < l < |sent[w]| && WholeAt(log, sent[w][l].id) ==>
      sent[w][k].id < sent[w][l].id
  }

  ghost predicate Counted(s: State) {
    && |s.free| + |s.out| + Total(s.sent) - Sum(s.got) + Total(s.chains) == SLOTS
    && s.drops + Total(s.sent) + Total(s.chains) == |s.fate|
    && Total(s.chains) <= SLOTS - RESERVE
  }

  function StateOf(p: Place): L.FrameState {
    match p
    case Stack(_) => L.Free
    case Queued(_) => L.Received
    case Out => L.Translating
  }

  ghost predicate PoolOk(pool: L.Pool, place: seq<Place>, stopped: bool) {
    && L.Sound(pool) && |pool.frames| == |place| == SLOTS && !pool.closed && pool.stopping == stopped
    && (forall t :: 0 <= t < SLOTS ==> pool.frames[t].capacity == CAPACITY && pool.frames[t].state == StateOf(place[t]))
  }

  predicate Shape(s: State) {
    && 0 < s.workers <= MAX_WORKERS && s.header <= HEADROOM && |s.sent| == s.workers && |s.length| == SLOTS
    && s.nextQueue < 0x1_0000_0000
  }

  /** Everything but the length of the log. */
  ghost predicate Core(s: State) {
    && Shape(s)
    && TablesOk(s.workers, s.flow, s.entries, s.chains)
    && PlacesOk(s.free, s.out, s.place, s.sent, s.got, s.chains)
    && FatesOk(s.fate, s.sent, s.chains)
    && Steered(s.flow, s.entries, s.sent, s.chains, s.log)
    && InOrder(s.sent, s.log)
    && Counted(s)
    && PoolOk(s.pool, s.place, s.stopped)
  }

  ghost predicate Inv(s: State) {
    Core(s) && |s.log| == |s.fate|
  }

  // ------------------------------------------------------------ deciding

  lemma LogKeeps(s: State, p: Option<FlowPacket>)
    requires Inv(s)
    ensures Core(s.(log := s.log + [p]))
  {
    hide PlacesOk, EntryOk, PoolOk, Right;
    var log' := s.log + [p];
    forall loc | LocIn(s.sent, s.chains, loc)
      ensures var id := ItemAt(s.sent, s.chains, loc).id;
        id < |log'| && log'[id].Some? && Right(s.flow, s.entries, log'[id].value, loc)
    {
    }
    forall w, k, l | 0 <= w < |s.sent| && 0 <= k < l < |s.sent[w]| && WholeAt(log', s.sent[w][l].id)
      ensures s.sent[w][k].id < s.sent[w][l].id
    {
      assert LocIn(s.sent, s.chains, Ring(w, l));
    }
  }

  /** Binding a bucket moves no packet that is queued already. */
  lemma BindKeeps(s: State, p: FlowPacket)
    requires Core(s)
    ensures Core(BindFlow(s, p)) && 0 <= FlowQueue(BindFlow(s, p), p) < s.workers
    ensures p.transport ==> BindFlow(s, p).flow[Bucket(p)] > 0
  {
    hide PlacesOk, FatesOk, InOrder, PoolOk, EntryOk;
    var t := BindFlow(s, p);
    assert Counted(t);
    forall loc | LocIn(s.sent, s.chains, loc)
      ensures var id := ItemAt(s.sent, s.chains, loc).id;
        id < |s.log| && s.log[id].Some? && Right(t.flow, s.entries, s.log[id].value, loc)
    {
    }
  }

  /** What a verdict about p may be. */
  ghost predicate VerdictOk(s: State, p: FlowPacket, v: Verdict)
    requires |s.flow| == BUCKETS && |s.entries| == |s.chains| == ENTRIES
  {
    match v
    case Refuse => true
    case Hold(e) => e < ENTRIES && Right(s.flow, s.entries, p, Chain(e, 0)) && |s.chains[e]| < CHAIN_LIMIT
    case Send(q, flush) =>
      && q < s.workers && Right(s.flow, s.entries, p, Ring(q, 0))
      && (p.fragmented <==> flush.Some?)
      && (flush.Some? ==> flush.value < ENTRIES && s.entries[flush.value].used
                          && s.entries[flush.value].resolved == Bound && s.entries[flush.value].queue == q)
  }

  lemma JudgeFacts(f: Entry, held: nat, e: nat, p: FlowPacket, queue: nat, now: nat)
    ensures var (g, v) := Judge(f, held, e, p, queue, now);
      && g.used
      && (f.used ==> g.key == f.key)
      && (f.resolved != Unresolved ==> g.queue == f.queue && g.resolved != Unresolved)
      && (f.resolved == Unresolved ==> g.resolved != Refused)
      && (g.resolved == Bound ==> g.queue == queue || (f.resolved == Bound && g.queue == f.queue))
      && (v.Hold? ==> v.entry == e && g.key == p.fragmentKey && !p.first && held != CHAIN_LIMIT)
      && (v.Send? ==> v.flush == Some(e) && g.key == p.fragmentKey && g.resolved == Bound && v.queue == g.queue
                      && (p.first ==> v.queue == queue))
  {
  }

  lemma DecideKeeps(s: State, p: FlowPacket, now: nat)
    requires Core(s) && 0 <= FlowQueue(s, p) < s.workers
    ensures Core(Decide(s, p, now).0) && VerdictOk(Decide(s, p, now).0, p, Decide(s, p, now).1)
  {
    hide PlacesOk, FatesOk, InOrder, PoolOk, Judge;
    var (t, v) := Decide(s, p, now);
    assert Counted(t);
    if p.fragmented {
      var e := EntryOf(p);
      JudgeFacts(s.entries[e], |s.chains[e]|, e, p, FlowQueue(s, p), now);
      forall loc | LocIn(s.sent, s.chains, loc)
        ensures var id := ItemAt(s.sent, s.chains, loc).id;
          id < |s.log| && s.log[id].Some? && Right(t.flow, t.entries, s.log[id].value, loc)
      {
      }
      assert EntryOk(s.workers, s.entries[e], s.chains[e]);
      assert EntryOk(s.workers, t.entries[e], s.chains[e]);
    }
  }

  lemma DropKeeps(s: State)
    requires Core(s)
    ensures Core(Drop(s))
  {
    hide PlacesOk, TablesOk, InOrder, PoolOk, FatesOk, Right;
    FatesDrop(s.fate, s.sent, s.chains);
  }

  // ------------------------------------------------------------ frames

  lemma PoolClaims(pool: L.Pool, place: seq<Place>, stopped: bool, slot: nat, n: nat, loc: Loc)
    requires PoolOk(pool, place, stopped) && slot < SLOTS && place[slot].Stack? && n <= CAPACITY
    requires L.Acquire(pool, slot).1 == L.Done
    ensures var q := L.Acquire(pool, slot).0;
      PoolOk(L.Fill(q, TokenOf(q, slot), n), place[slot := Queued(loc)], stopped)
  {
    hide L.Sound;
    var q := L.Acquire(pool, slot).0;
    L.StepKeepsSound(pool, L.AcquireCall(slot));
    L.StepKeepsSound(q, L.FillCall(TokenOf(q, slot), n));
  }

  lemma PoolTakes(pool: L.Pool, place: seq<Place>, stopped: bool, slot: nat)
    requires PoolOk(pool, place, stopped) && slot < SLOTS && place[slot].Queued?
    ensures L.Transition(pool, TokenOf(pool, slot), L.Translating).1 == L.Done
    ensures PoolOk(L.Transition(pool, TokenOf(pool, slot), L.Translating).0, place[slot := Out], stopped)
  {
    L.StepKeepsSound(pool, L.TransitionCall(TokenOf(pool, slot), L.Translating));
    assert L.SoundFrame(pool.closed, pool.frames[slot]);
    hide L.Sound;
  }

  lemma PoolReleases(pool: L.Pool, place: seq<Place>, stopped: bool, slot: nat, i: nat)
    requires PoolOk(pool, place, stopped) && slot < SLOTS && !place[slot].Stack?
    ensures L.Transition(pool, TokenOf(pool, slot), L.Free).1 == L.Done
    ensures L.Transition(pool, TokenOf(pool, slot), L.Free).0 ==
            pool.(frames := pool.frames[slot := L.Enter(pool.frames[slot], L.Free)])
    ensures PoolOk(L.Transition(pool, TokenOf(pool, slot), L.Free).0, place[slot := Stack(i)], stopped)
  {
    L.StepKeepsSound(pool, L.TransitionCall(TokenOf(pool, slot), L.Free));
    assert L.SoundFrame(pool.closed, pool.frames[slot]);
    hide L.Sound;
  }

  lemma PoolMoves(pool: L.Pool, place: seq<Place>, stopped: bool, place': seq<Place>)
    requires PoolOk(pool, place, stopped) && |place'| == SLOTS
    requires forall t :: 0 <= t < SLOTS ==> StateOf(place'[t]) == StateOf(place[t])
    ensures PoolOk(pool, place', stopped)
  {
  }

  lemma PoolRetires(pool: L.Pool, place: seq<Place>, stopped: bool, e: nat, n: nat)
    requires PoolOk(pool, place, stopped)
    ensures PoolOk(pool.(frames := FreeChain(pool.frames, place, e)), StackAll(place, e, n), stopped)
  {
    var frames' := FreeChain(pool.frames, place, e);
    forall i | 0 <= i < SLOTS ensures L.SoundFrame(pool.closed, frames'[i]) {
      assert L.SoundFrame(pool.closed, pool.frames[i]);
    }
  }

  // ------------------------------------------------------------ storing

  lemma SteeredPushRing(flow: seq<nat>, entries: seq<Entry>, sent: ItemLists, chains: ItemLists,
                        log: seq<Option<FlowPacket>>, q: nat, item: Item)
    requires |flow| == BUCKETS && |entries| == ENTRIES && Steered(flow, entries, sent, chains, log) && q < |sent|
    requires item.id < |log| && log[item.id].Some? && Right(flow, entries, log[item.id].value, Ring(q, 0))
    ensures Steered(flow, entries, sent[q := sent[q] + [item]], chains, log)
  {
    var sent': ItemLists := sent[q := sent[q] + [item]];
    forall loc | LocIn(sent', chains, loc)
      ensures var id := ItemAt(sent', chains, loc).id;
        id < |log| && log[id].Some? && Right(flow, entries, log[id].value, loc)
    {
      if loc != Ring(q, |sent[q]|) {
        assert LocIn(sent, chains, loc);
      }
    }
  }

  lemma SteeredPushChain(flow: seq<nat>, entries: seq<Entry>, sent: ItemLists, chains: ItemLists,
                         log: seq<Option<FlowPacket>>, e: nat, item: Item)
    requires |flow| == BUCKETS && |entries| == ENTRIES && Steered(flow, entries, sent, chains, log) && e < |chains|
    requires item.id < |log| && log[item.id].Some? && Right(flow, entries, log[item.id].value, Chain(e, 0))
    ensures Steered(flow, entries, sent, chains[e := chains[e] + [item]], log)
  {
    var chains' := chains[e := chains[e] + [item]];
    forall loc | LocIn(sent, chains', loc)
      ensures var id := ItemAt(sent, chains', loc).id;
        id < |log| && log[id].Some? && Right(flow, entries, log[id].value, loc)
    {
      if loc != Chain(e, |chains[e]|) {
        assert LocIn(sent, chains, loc);
      }
    }
  }

  lemma SteeredFlush(flow: seq<nat>, entries: seq<Entry>, sent: ItemLists, chains: ItemLists,
                     log: seq<Option<FlowPacket>>, e: nat, q: nat)
    requires |flow| == BUCKETS && |entries| == ENTRIES && Steered(flow, entries, sent, chains, log)
    requires q < |sent| && e < |chains| && e < ENTRIES
    requires entries[e].used && entries[e].resolved != Unresolved && entries[e].queue == q
    ensures Steered(flow, entries, sent[q := sent[q] + chains[e]], chains[e := []], log)
  {
    var sent', chains' := sent[q := sent[q] + chains[e]], chains[e := []];
    forall loc | LocIn(sent', chains', loc)
      ensures var id := ItemAt(sent', chains', loc).id;
        id < |log| && log[id].Some? && Right(flow, entries, log[id].value, loc)
    {
      if loc.Ring? && loc.worker == q && loc.pos >= |sent[q]| {
        assert LocIn(sent, chains, Chain(e, loc.pos - |sent[q]|));
      } else {
        assert LocIn(sent, chains, loc);
      }
    }
  }

  lemma OrderPush(fate: seq<Fate>, sent: ItemLists, chains: ItemLists, log: seq<Option<FlowPacket>>, q: nat, slot: nat)
    requires FatesOk(fate, sent, chains) && InOrder(sent, log) && q < |sent|
    ensures InOrder(sent[q := sent[q] + [Item(slot, |fate|)]], log)
  {
    var sent': ItemLists := sent[q := sent[q] + [Item(slot, |fate|)]];
    forall w: nat, k: nat, l: nat | w < |sent'| && k < l < |sent'[w]| && WholeAt(log, sent'[w][l].id)
      ensures sent'[w][k].id < sent'[w][l].id
    {
      assert LocIn(sent, chains, Ring(w, k));
    }
  }

  lemma OrderFlush(flow: seq<nat>, entries: seq<Entry>, sent: ItemLists, chains: ItemLists, log: seq<Option<FlowPacket>>,
                   e: nat, q: nat)
    requires |flow| == BUCKETS && |entries| == ENTRIES && Steered(flow, entries, sent, chains, log)
    requires InOrder(sent, log) && q < |sent| && e < |chains|
    ensures InOrder(sent[q := sent[q] + chains[e]], log)
  {
    var sent': ItemLists := sent[q := sent[q] + chains[e]];
    forall w: nat, k: nat, l: nat | w < |sent'| && k < l < |sent'[w]| && WholeAt(log, sent'[w][l].id)
      ensures sent'[w][k].id < sent'[w][l].id
    {
      if w == q && l >= |sent[q]| {
        assert LocIn(sent, chains, Chain(e, l - |sent[q]|));
      }
    }
  }

  /** A slot can be had for a packet of this length. */
  ghost predicate Ready(s: State, length: nat) {
    && Core(s) && s.free != [] && s.free[|s.free| - 1] < SLOTS && length + HEADROOM - s.header <= CAPACITY
    && L.Acquire(s.pool, s.free[|s.free| - 1]).1 == L.Done
  }

  lemma SendKeeps(s: State, length: nat, q: nat, p: FlowPacket)
    requires Ready(s, length) && |s.log| == |s.fate| + 1 && s.log[|s.fate|] == Some(p)
    requires q < s.workers && Right(s.flow, s.entries, p, Ring(q, 0))
    ensures Inv(Enqueue(Claim(s, length), s.free[|s.free| - 1], q))
  {
    hide PlacesOk, FatesOk, InOrder, Steered, PoolOk, Right, EntryOk;
    var slot := s.free[|s.free| - 1];
    PlacesPushRing(s.free, s.out, s.place, s.sent, s.got, s.chains, q, |s.fate|);
    FatesPushRing(s.fate, s.sent, s.chains, q, slot);
    SteeredPushRing(s.flow, s.entries, s.sent, s.chains, s.log, q, Item(slot, |s.fate|));
    OrderPush(s.fate, s.sent, s.chains, s.log, q, slot);
    TotalUpdate(s.sent, q, s.sent[q] + [Item(slot, |s.fate|)]);
    assert s.place[slot].Stack? by { TopIsStacked(s); }
    PoolClaims(s.pool, s.place, s.stopped, slot, length + HEADROOM - s.header, Ring(q, |s.sent[q]|));
  }

  lemma TopIsStacked(s: State)
    requires PlacesOk(s.free, s.out, s.place, s.sent, s.got, s.chains) && s.free != []
    ensures s.free[|s.free| - 1] < SLOTS == |s.place| && s.place[s.free[|s.free| - 1]].Stack?
  {
  }

  lemma HoldKeeps(s: State, length: nat, e: nat, p: FlowPacket)
    requires Ready(s, length) && |s.log| == |s.fate| + 1 && s.log[|s.fate|] == Some(p) && |s.free| > RESERVE
    requires e < ENTRIES && Right(s.flow, s.entries, p, Chain(e, 0)) && |s.chains[e]| < CHAIN_LIMIT
    ensures Inv(Append(Claim(s, length), s.free[|s.free| - 1], e))
  {
    hide PlacesOk, FatesOk, InOrder, Steered, PoolOk;
    var slot := s.free[|s.free| - 1];
    PlacesPushChain(s.free, s.out, s.place, s.sent, s.got, s.chains, e, |s.fate|);
    FatesPushChain(s.fate, s.sent, s.chains, e, slot);
    SteeredPushChain(s.flow, s.entries, s.sent, s.chains, s.log, e, Item(slot, |s.fate|));
    TotalUpdate(s.chains, e, s.chains[e] + [Item(slot, |s.fate|)]);
    assert s.place[slot].Stack? by { TopIsStacked(s); }
    PoolClaims(s.pool, s.place, s.stopped, slot, length + HEADROOM - s.header, Chain(e, |s.chains[e]|));
    assert Sum(s.got) <= Total(s.sent) by { SentCoversTaken(s); }
    assert EntryOk(s.workers, s.entries[e], s.chains[e]);
  }

  lemma SentCoversTaken(s: State)
    requires PlacesOk(s.free, s.out, s.place, s.sent, s.got, s.chains)
    ensures Sum(s.got) <= Total(s.sent)
    ensures forall w :: 0 <= w < |s.sent| ==> |s.sent[w]| - s.got[w] <= Total(s.sent) - Sum(s.got)
  {
    TakenWithinSent(s.sent, s.got);
  }

  lemma FlushKeeps(s: State, e: nat, q: nat)
    requires Inv(s) && e < ENTRIES && q < s.workers
    requires s.entries[e].used && s.entries[e].resolved == Bound && s.entries[e].queue == q
    ensures Inv(Flush(s, e, q))
  {
    hide PlacesOk, FatesOk, InOrder, Steered, PoolOk;
    PlacesFlush(s.free, s.out, s.place, s.sent, s.got, s.chains, e, q);
    FatesFlush(s.fate, s.sent, s.chains, e, q);
    SteeredFlush(s.flow, s.entries, s.sent, s.chains, s.log, e, q);
    OrderFlush(s.flow, s.entries, s.sent, s.chains, s.log, e, q);
    TotalUpdate(s.sent, q, s.sent[q] + s.chains[e]);
    TotalUpdate(s.chains, e, []);
    var t := Flush(s, e, q);
    assert |s.place| == SLOTS by { PlacesLength(s); }
    PoolMoves(s.pool, s.place, s.stopped, t.place);
  }

  lemma PlacesLength(s: State)
    requires PlacesOk(s.free, s.out, s.place, s.sent, s.got, s.chains)
    ensures |s.place| == SLOTS && |s.got| == |s.sent|
  {
  }
}
