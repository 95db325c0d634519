/** What becomes of each packet that is submitted. */
module DispatchOutcomes {
  import opened Wrappers
  import opened Lists
  import opened Flow
  import opened DispatchState
  import opened DispatchPlaces
  import opened DispatchSteps
  import opened DispatchRuns
  import opened DispatchTraces
  import L = FrameLifetime

  /** The slot on top of the stack can be had. */
  ghost predicate HasSlot(s: State) {
    && !s.stopped && s.free != []
    && s.free[|s.free| - 1] < |s.pool.frames| && s.pool.frames[s.free[|s.free| - 1]].generation < 0xffff_ffff_ffff_ffff
  }

  /** The worker of the packet's flow: the one its bucket has, or the next in turn; the
      first if the packet has neither ports nor an echo identifier. */
  function WorkerFor(s: State, p: FlowPacket): (q: int)
    requires |s.flow| == 65536 && s.workers > 0
  {
    var bound: int := s.flow[p.flowHash % 65536];
    if !p.transport then 0 else if bound == 0 then s.nextQueue % s.workers else bound - 1
  }

  ghost predicate Queued(s: State, q: int, r: Fate) {
    0 <= q < |s.sent| && r == Kept(Ring(q, |s.sent[q]|))
  }

  /** What becomes of a fragment, by the entry of its datagram: dropped if the entry is another
      datagram's, refused, or past its 30 seconds; a first fragment goes to the worker of its flow,
      unless the entry has another; a later one follows it, or waits, one of eight at most, while
      more than 32 slots are left. */
  ghost predicate FragmentFate(s: State, p: FlowPacket, now: nat, f: Entry, held: nat, r: Fate)
    requires |s.flow| == 65536 && s.workers > 0
  {
    if f.used && (f.key != p.fragmentKey || f.resolved == Refused || now >= f.deadline) then r == Dropped
    else if p.first then
      if f.used && f.resolved == Bound && f.queue != WorkerFor(s, p) then r == Dropped
      else if HasSlot(s) then Queued(s, WorkerFor(s, p), r) else r == Dropped
    else if f.used && f.resolved == Bound then
      if HasSlot(s) then Queued(s, f.queue, r) else r == Dropped
    else if held < 8 && HasSlot(s) && |s.free| > 32 then r == Kept(Chain(p.fragmentHash % 1024, held))
    else r == Dropped
  }

  /** What becomes of a packet. */
  ghost predicate FateIs(s: State, p: FlowPacket, now: nat, r: Fate)
    requires |s.flow| == 65536 && s.workers > 0 && |s.entries| == |s.chains| == 1024
  {
    if p.fragmented then
      FragmentFate(s, p, now, s.entries[p.fragmentHash % 1024], |s.chains[p.fragmentHash % 1024]|, r)
    else if HasSlot(s) then Queued(s, WorkerFor(s, p), r) else r == Dropped
  }

  lemma SlotIff(s: State)
    requires PoolOk(s.pool, s.place, s.stopped) && PlacesOk(s.free, s.out, s.place, s.sent, s.got, s.chains)
    ensures s.free != [] ==>
      s.free[|s.free| - 1] < |s.pool.frames|
      && (!s.stopped ==> (L.Acquire(s.pool, s.free[|s.free| - 1]).1 == L.Done <==> HasSlot(s)))
  {
  }

  /** The fate that a verdict leads to. */
  ghost predicate VerdictFate(s: State, v: Verdict, r: Fate) {
    match v
    case Refuse => r == Dropped
    case Hold(e) => e < |s.chains| && (if HasSlot(s) && |s.free| > 32 then r == Kept(Chain(e, |s.chains[e]|)) else r == Dropped)
    case Send(q, _) => if HasSlot(s) then Queued(s, q, r) else r == Dropped
  }

  lemma StoreFate(t: State, length: nat, v: Verdict)
    requires PoolOk(t.pool, t.place, t.stopped) && PlacesOk(t.free, t.out, t.place, t.sent, t.got, t.chains)
    requires |t.length| == |t.place| == SLOTS && t.header <= HEADROOM
    requires t.free != [] ==> t.free[|t.free| - 1] < SLOTS
    requires v.Hold? ==> v.entry < |t.chains|
    requires v.Send? ==> v.queue < |t.sent| && (v.flush.Some? ==> v.flush.value < |t.chains|)
    ensures var u := Store(t, length, v); |u.fate| == |t.fate| + 1 && VerdictFate(t, v, u.fate[|t.fate|])
  {
    hide PoolOk, PlacesOk, L.Fill, MoveAll, L.Acquire;
    SlotIff(t);
  }

  lemma WorkerIs(s: State, p: FlowPacket)
    requires |s.flow| == BUCKETS && s.workers > 0
    ensures FlowQueue(BindFlow(s, p), p) == WorkerFor(s, p)
  {
  }

  lemma JudgedFate(s: State, p: FlowPacket, now: nat, f: Entry, held: nat, r: Fate)
    requires |s.flow| == BUCKETS && s.workers > 0 && WorkerFor(s, p) >= 0
    requires !f.used ==> held == 0 && f.resolved == Unresolved
    requires VerdictFate(s, Judge(f, held, EntryOf(p), p, WorkerFor(s, p), now).1, r)
    requires EntryOf(p) < |s.chains| && held == |s.chains[EntryOf(p)]| <= 8
    ensures FragmentFate(s, p, now, f, held, r)
  {
    hide HasSlot, WorkerFor, Queued;
  }

  /** Each packet that reaches the table has exactly this fate. */
  lemma SubmitFate(s: State, p: FlowPacket, length: nat, now: nat)
    requires Inv(s) && length + HEADROOM - s.header <= CAPACITY && length > s.header
    ensures |s.flow| == 65536 && s.workers > 0 && |s.entries| == |s.chains| == 1024
    ensures var t := Submit(s, Some(p), length, now);
      |t.fate| == |s.fate| + 1 && FateIs(s, p, now, t.fate[|s.fate|])
  {
    hide Inv, Core, Decided, BindFlow, FlowQueue, Decide, VerdictOk, Store, Submit, Judge, HasSlot, FragmentFate, WorkerFor,
         PlacesOk, PoolOk, VerdictFate;
    SubmitStores(s, p, length, now);
    DecidedGrows(s, p, now);
    DecidedFate(s, p, now);
    DecidedSame(s, p, now);
    var (t, v) := Decided(s, p, now);
    StoreFate(t, length, v);
    WorkerIs(s, p);
    var r := Store(t, length, v).fate[|t.fate|];
    SameFate(s, t, v, r);
    if p.fragmented {
      UnusedIsEmpty(s, EntryOf(p));
      HeldInBounds(s, EntryOf(p));
      JudgedFate(s, p, now, s.entries[EntryOf(p)], |s.chains[EntryOf(p)]|, r);
    } else {
      PlainFate(s, p, now, v, r);
    }
  }

  lemma HeldInBounds(s: State, e: nat)
    requires Inv(s) && e < ENTRIES
    ensures |s.chains| == ENTRIES && |s.chains[e]| <= 8
  {
    hide FatesOk, Steered, InOrder, PoolOk, PlacesOk;
    assert EntryOk(s.workers, s.entries[e], s.chains[e]);
  }

  lemma DecidedSame(s: State, p: FlowPacket, now: nat)
    requires Inv(s)
    ensures var t := Decided(s, p, now).0;
      && t.free == s.free && t.pool == s.pool && t.stopped == s.stopped && t.sent == s.sent && t.chains == s.chains
      && t.header <= HEADROOM && PoolOk(t.pool, t.place, t.stopped) && PlacesOk(t.free, t.out, t.place, t.sent, t.got, t.chains)
    ensures !p.fragmented ==> FlowQueue(BindFlow(s, p), p) >= 0 && Decided(s, p, now).1 == Send(FlowQueue(BindFlow(s, p), p), None)
  {
    hide PlacesOk, FatesOk, Steered, InOrder, Counted, PoolOk, EntryOk, Judge;
    LogKeeps(s, Some(p));
    BindKeeps(s.(log := s.log + [Some(p)]), p);
  }

  lemma SameFate(s: State, t: State, v: Verdict, r: Fate)
    requires VerdictFate(t, v, r) && t.free == s.free && t.pool == s.pool && t.stopped == s.stopped
    requires t.sent == s.sent && t.chains == s.chains
    ensures VerdictFate(s, v, r)
  {
  }

  lemma PlainFate(s: State, p: FlowPacket, now: nat, v: Verdict, r: Fate)
    requires |s.flow| == BUCKETS && s.workers > 0 && |s.entries| == |s.chains| == ENTRIES && WorkerFor(s, p) >= 0
    requires !p.fragmented && v == Send(WorkerFor(s, p), None) && VerdictFate(s, v, r)
    ensures FateIs(s, p, now, r)
  {
    hide HasSlot, WorkerFor;
  }

  /** What is no packet to the classifier, or is empty, is dropped and changes no table. */
  lemma RefusedFate(s: State, parsed: Option<FlowPacket>, length: int, now: nat)
    requires Inv(s) && length + HEADROOM - s.header <= CAPACITY && !(parsed.Some? && length > s.header)
    ensures var t := Submit(s, parsed, length, now);
      && t.fate == s.fate + [Dropped] && t.flow == s.flow && t.entries == s.entries && t.sent == s.sent && t.chains == s.chains
  {
    hide Inv, Core, BindFlow, Decide, Store;
  }

  /** The entry of a fragment's datagram afterwards: opened for 30 seconds if it was not in use;
      bound by a first fragment, or refused by it if it is bound to another worker. */
  ghost predicate EntryAfter(s: State, p: FlowPacket, now: nat, f: Entry, g: Entry)
    requires |s.flow| == 65536 && s.workers > 0
  {
    && g.used && g.key == (if f.used then f.key else p.fragmentKey)
    && g.deadline == (if f.used then f.deadline else now + 30)
    && if (f.used && (f.key != p.fragmentKey || f.resolved == Refused || now >= f.deadline)) || !p.first then
         g.resolved == f.resolved && g.queue == f.queue
       else if f.used && f.resolved == Bound && f.queue != WorkerFor(s, p) then g.resolved == Refused
       else g.resolved == Bound && g.queue == WorkerFor(s, p)
  }

  lemma JudgedEntry(s: State, p: FlowPacket, now: nat, f: Entry, held: nat)
    requires |s.flow| == BUCKETS && s.workers > 0 && WorkerFor(s, p) >= 0 && (!f.used ==> f.resolved == Unresolved)
    ensures EntryAfter(s, p, now, f, Judge(f, held, EntryOf(p), p, WorkerFor(s, p), now).0)
  {
    hide WorkerFor;
  }

  lemma SubmitEntry(s: State, p: FlowPacket, length: nat, now: nat)
    requires Inv(s) && length + HEADROOM - s.header <= CAPACITY && length > s.header && p.fragmented
    ensures |s.flow| == 65536 && s.workers > 0 && |s.entries| == 1024 && |Submit(s, Some(p), length, now).entries| == 1024
    ensures var t := Submit(s, Some(p), length, now);
      && EntryAfter(s, p, now, s.entries[p.fragmentHash % 1024], t.entries[p.fragmentHash % 1024])
      && forall e :: 0 <= e < 1024 && e != p.fragmentHash % 1024 ==> t.entries[e] == s.entries[e]
  {
    hide Inv, Core, Decided, BindFlow, FlowQueue, Decide, VerdictOk, Store, Submit, Judge, WorkerFor, EntryAfter;
    SubmitStores(s, p, length, now);
    DecidedGrows(s, p, now);
    var (t, v) := Decided(s, p, now);
    assert t.header <= HEADROOM by { InvHeader(s); }
    StoreGrows(t, length, v);
    WorkerIs(s, p);
    UnusedIsEmpty(s, EntryOf(p));
    JudgedEntry(s, p, now, s.entries[EntryOf(p)], |s.chains[EntryOf(p)]|);
  }

  /** A packet that is kept lies in the slot from the top of the stack: length bytes, behind
      64 bytes less those of the device header. */
  lemma KeptInSlot(t: State, length: nat, v: Verdict)
    requires PoolOk(t.pool, t.place, t.stopped) && PlacesOk(t.free, t.out, t.place, t.sent, t.got, t.chains)
    requires |t.length| == |t.place| == SLOTS && t.header <= HEADROOM && length + HEADROOM - t.header <= CAPACITY
    requires t.free != [] && t.free[|t.free| - 1] < SLOTS
    requires v.Hold? ==> v.entry < |t.chains|
    requires v.Send? ==> v.queue < |t.sent| && (v.flush.Some? ==> v.flush.value < |t.chains|)
    ensures var (u, slot) := (Store(t, length, v), t.free[|t.free| - 1]);
      |u.fate| == |t.fate| + 1 && u.fate[|t.fate|] != Dropped ==>
        && u.free == t.free[..|t.free| - 1] && u.length == t.length[slot := length]
        && |u.pool.frames| == 512 && u.pool.frames[slot].state == L.Received
        && u.pool.frames[slot].offset == 0 && u.pool.frames[slot].length == length + 64 - t.header
  {
    hide MoveAll, PlacesOk;
    TopIsStacked(t);
  }

  /** The chain that waited for a first fragment follows it into the queue. */
  lemma ChainFollows(t: State, length: nat, q: nat, e: nat)
    requires PoolOk(t.pool, t.place, t.stopped) && PlacesOk(t.free, t.out, t.place, t.sent, t.got, t.chains)
    requires |t.length| == |t.place| == SLOTS && t.header <= HEADROOM && HasSlot(t) && t.free[|t.free| - 1] < SLOTS
    requires q < |t.sent| && e < |t.chains|
    ensures var u := Store(t, length, Send(q, Some(e)));
      && |u.sent| == |t.sent| && |u.chains| == |t.chains|
      && u.sent[q] == t.sent[q] + [Item(t.free[|t.free| - 1], |t.fate|)] + t.chains[e] && u.chains[e] == []
      && (forall w :: 0 <= w < |t.sent| && w != q ==> u.sent[w] == t.sent[w])
      && (forall f :: 0 <= f < |t.chains| && f != e ==> u.chains[f] == t.chains[f])
  {
    hide MoveAll, MoveFates, PlacesOk, PoolOk, L.Acquire, L.Fill;
    SlotIff(t);
  }

  /** The dispatcher at the start: 512 free frames of 65,652 bytes, 65,536 buckets without
      worker, 1,024 entries that are not in use, and at most eight workers with nothing to do. */
  lemma StartIsEmpty(workers: nat, header: nat)
    requires 0 < workers <= 8 && header <= 64
    ensures var s := Start(workers, header);
      && s.workers == workers == |s.sent| == |s.got| && s.header == header && !s.stopped
      && |s.free| == |s.pool.frames| == 512 && |s.flow| == 65536 && |s.entries| == |s.chains| == 1024
      && (forall t :: 0 <= t < 512 ==> s.pool.frames[t] == L.Frame(65652, 0, 0, 0, L.Free))
      && (forall b :: 0 <= b < 65536 ==> s.flow[b] == 0)
      && (forall e :: 0 <= e < 1024 ==> !s.entries[e].used && s.chains[e] == [])
      && (forall w :: 0 <= w < workers ==> s.sent[w] == [] && s.got[w] == 0)
      && s.fate == [] && s.log == [] && s.drops == 0
  {
  }
}
