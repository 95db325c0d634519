/** The dispatcher's state and its steps, one lock region each. Queues and fragment chains
    are histories and lists of items here; DispatchTable keeps them in rings and links. */
module DispatchState {
  import opened Wrappers
  import opened Flow
  import L = FrameLifetime

  const SLOTS: nat := 512
  const ENTRIES: nat := 1024
  const BUCKETS: nat := 65536
  const RESERVE: nat := 32
  const CHAIN_LIMIT: nat := 8
  const MAX_WORKERS: nat := 8
  const HEADROOM: nat := 64
  const CAPACITY: nat := 65652
  const HOLD_SECONDS: nat := 30

  /** A queued packet: the slot that stores it, and its number in the order of submission. */
  datatype Item = Item(slot: nat, id: nat)

  datatype Resolved = Unresolved | Bound | Refused

  datatype Entry = Entry(used: bool, key: seq<nat>, resolved: Resolved, queue: nat, deadline: nat)

  /** A position in a worker's queue history, or in an entry's chain. */
  datatype Loc = Ring(worker: nat, pos: nat) | Chain(entry: nat, pos: nat)

  /** Where a slot is: on the free stack, queued somewhere, or out with a worker. */
  datatype Place = Stack(pos: nat) | Queued(loc: Loc) | Out

  /** What became of a submitted packet. */
  datatype Fate = Dropped | Kept(loc: Loc)

  /** sent is everything ever queued for each worker, got how much of it the worker has
      taken, and chains the fragments each entry holds back. */
  datatype State = State(
    workers: nat, header: nat, stopped: bool,
    free: seq<nat>, flow: seq<nat>, nextQueue: nat, entries: seq<Entry>,
    sent: seq<seq<Item>>, got: seq<nat>, chains: seq<seq<Item>>, out: set<nat>, place: seq<Place>,
    length: seq<int>, pool: L.Pool,
    log: seq<Option<FlowPacket>>, fate: seq<Fate>, drops: nat)

  // ------------------------------------------------------------ reading the state

  predicate LocIn(sent: seq<seq<Item>>, chains: seq<seq<Item>>, loc: Loc) {
    match loc
    case Ring(w, k) => w < |sent| && k < |sent[w]|
    case Chain(e, k) => e < |chains| && k < |chains[e]|
  }

  function ItemAt(sent: seq<seq<Item>>, chains: seq<seq<Item>>, loc: Loc): (i: Item)
    requires LocIn(sent, chains, loc)
  {
    match loc
    case Ring(w, k) => sent[w][k]
    case Chain(e, k) => chains[e][k]
  }

  /** Not taken by a worker yet. */
  predicate Pending(got: seq<nat>, loc: Loc) {
    loc.Ring? ==> loc.worker < |got| && loc.pos >= got[loc.worker]
  }

  function Bucket(p: FlowPacket): (b: nat)
    ensures b < BUCKETS
  {
    p.flowHash % BUCKETS
  }

  function EntryOf(p: FlowPacket): (e: nat)
    ensures e < ENTRIES
  {
    p.fragmentHash % ENTRIES
  }

  function Total(s: seq<seq<Item>>): (n: nat) {
    if s == [] then 0 else Total(s[..|s| - 1]) + |s[|s| - 1]|
  }

  function Sum(s: seq<nat>): (n: nat) {
    if s == [] then 0 else Sum(s[..|s| - 1]) + s[|s| - 1]
  }

  // ------------------------------------------------------------ submitting

  /** What is decided about a packet before a slot is looked for. */
  datatype Verdict = Refuse | Hold(entry: nat) | Send(queue: nat, flush: Option<nat>)

  /** The flow table: a bucket gets the next worker in turn the first time it is met. */
  function BindFlow(s: State, p: FlowPacket): (r: State)
    requires |s.flow| == BUCKETS && s.workers > 0
  {
    if p.transport && s.flow[Bucket(p)] == 0
    then s.(flow := s.flow[Bucket(p) := 1 + s.nextQueue % s.workers], nextQueue := (s.nextQueue + 1) % 0x1_0000_0000)
    else s
  }

  function FlowQueue(s: State, p: FlowPacket): (q: int)
    requires |s.flow| == BUCKETS
  {
    var bound: int := s.flow[Bucket(p)];
    if p.transport then bound - 1 else 0
  }

  function OpenEntry(f: Entry, p: FlowPacket, now: nat): (r: Entry) {
    if f.used then f else Entry(true, p.fragmentKey, f.resolved, f.queue, now + HOLD_SECONDS)
  }

  predicate EntryRefuses(f: Entry, held: nat, p: FlowPacket, now: nat) {
    || f.key != p.fragmentKey || f.resolved == Refused || now >= f.deadline
    || (f.resolved == Unresolved && !p.first && held == CHAIN_LIMIT)
  }

  /** The fragment table's part: entry e afterwards, and the verdict. */
  function Judge(f: Entry, held: nat, e: nat, p: FlowPacket, queue: nat, now: nat): (r: (Entry, Verdict)) {
    var f := OpenEntry(f, p, now);
    if EntryRefuses(f, held, p, now) then (f, Refuse)
    else if p.first then
      if f.resolved != Unresolved && f.queue != queue then (f.(resolved := Refused), Refuse)
      else (f.(resolved := Bound, queue := queue), Send(queue, Some(e)))
    else if f.resolved != Unresolved then (f, Send(f.queue, Some(e)))
    else (f, Hold(e))
  }

  function Decide(s: State, p: FlowPacket, now: nat): (r: (State, Verdict))
    requires |s.flow| == BUCKETS && |s.entries| == |s.chains| == ENTRIES
    requires FlowQueue(s, p) >= 0
  {
    var queue: nat := FlowQueue(s, p);
    if !p.fragmented then (s, Send(queue, None))
    else
      var e := EntryOf(p);
      var (f, v) := Judge(s.entries[e], |s.chains[e]|, e, p, queue, now);
      (s.(entries := s.entries[e := f]), v)
  }

  function Drop(s: State): (r: State) {
    s.(fate := s.fate + [Dropped], drops := s.drops + 1)
  }

  /** Pop a slot and fill it: the frame becomes received, length bytes behind the headroom. */
  function Claim(s: State, length: nat): (r: State)
    requires s.free != [] && |s.length| == |s.place| == SLOTS && s.free[|s.free| - 1] < SLOTS
    requires s.header <= HEADROOM
  {
    var slot := s.free[|s.free| - 1];
    var pool := L.Acquire(s.pool, slot).0;
    s.(free := s.free[..|s.free| - 1],
       pool := L.Fill(pool, TokenOf(pool, slot), length + HEADROOM - s.header),
       length := s.length[slot := length])
  }

  /** The token of a slot's present generation: what the dispatcher keeps for the slot. */
  function TokenOf(pool: L.Pool, slot: nat): (t: L.Token) {
    L.Token(slot, if slot < |pool.frames| then pool.frames[slot].generation else 0, pool.identity)
  }

  function Move(place: Place, entry: nat, worker: nat, base: nat): (r: Place) {
    if place.Queued? && place.loc.Chain? && place.loc.entry == entry
    then Queued(Ring(worker, base + place.loc.pos)) else place
  }

  /** The places once entry's chain stands in the worker's queue, from position base. */
  function MoveAll(place: seq<Place>, entry: nat, worker: nat, base: nat): (r: seq<Place>)
    ensures |r| == |place|
  {
    seq(|place|, i requires 0 <= i < |place| => Move(place[i], entry, worker, base))
  }

  function MoveFate(fate: Fate, entry: nat, worker: nat, base: nat): (r: Fate) {
    if fate.Kept? && fate.loc.Chain? && fate.loc.entry == entry
    then Kept(Ring(worker, base + fate.loc.pos)) else fate
  }

  function MoveFates(fate: seq<Fate>, entry: nat, worker: nat, base: nat): (r: seq<Fate>)
    ensures |r| == |fate|
  {
    seq(|fate|, i requires 0 <= i < |fate| => MoveFate(fate[i], entry, worker, base))
  }

  /** Queue slot, just claimed, for a worker. */
  function Enqueue(s: State, slot: nat, q: nat): (r: State)
    requires q < |s.sent| && slot < |s.place|
  {
    s.(sent := s.sent[q := s.sent[q] + [Item(slot, |s.fate|)]],
       place := s.place[slot := Queued(Ring(q, |s.sent[q]|))],
       fate := s.fate + [Kept(Ring(q, |s.sent[q]|))])
  }

  /** Queue a whole chain behind what is queued already. */
  function Flush(s: State, e: nat, q: nat): (r: State)
    requires q < |s.sent| && e < |s.chains|
  {
    var base := |s.sent[q]|;
    s.(sent := s.sent[q := s.sent[q] + s.chains[e]],
       chains := s.chains[e := []],
       place := MoveAll(s.place, e, q, base),
       fate := MoveFates(s.fate, e, q, base))
  }

  function Append(s: State, slot: nat, e: nat): (r: State)
    requires e < |s.chains| && slot < |s.place|
  {
    s.(chains := s.chains[e := s.chains[e] + [Item(slot, |s.fate|)]],
       place := s.place[slot := Queued(Chain(e, |s.chains[e]|))],
       fate := s.fate + [Kept(Chain(e, |s.chains[e]|))])
  }

  /** The packet goes where the verdict sends it, if a slot can be had. */
  function Store(s: State, length: nat, v: Verdict): (r: State)
    requires |s.length| == |s.place| == SLOTS && s.header <= HEADROOM
    requires s.free != [] ==> s.free[|s.free| - 1] < SLOTS
    requires v.Hold? ==> v.entry < |s.chains|
    requires v.Send? ==> v.queue < |s.sent| && (v.flush.Some? ==> v.flush.value < |s.chains|)
  {
    if v.Refuse? || s.stopped || s.free == [] || (v.Hold? && |s.free| <= RESERVE) then Drop(s)
    else
      var slot := s.free[|s.free| - 1];
      if L.Acquire(s.pool, slot).1 != L.Done then Drop(s)
      else
        var t := Claim(s, length);
        match v
        case Hold(e) => Append(t, slot, e)
        case Send(q, flush) =>
          var t := Enqueue(t, slot, q);
          if flush.Some? then Flush(t, flush.value, q) else t
  }

  // ------------------------------------------------------------ taking, releasing, expiring

  function Take(s: State, w: nat): (r: (State, Option<Item>))
    requires w < |s.sent| == |s.got|
    requires s.got[w] < |s.sent[w]| ==> s.sent[w][s.got[w]].slot < |s.place|
  {
    if s.got[w] >= |s.sent[w]| then (s, None)
    else
      var item := s.sent[w][s.got[w]];
      (s.(got := s.got[w := s.got[w] + 1],
          out := s.out + {item.slot},
          place := s.place[item.slot := Out],
          pool := L.Transition(s.pool, TokenOf(s.pool, item.slot), L.Translating).0),
       Some(item))
  }

  function Release(s: State, slot: nat): (r: State)
    requires slot < |s.place|
  {
    s.(free := s.free + [slot],
       out := s.out - {slot},
       place := s.place[slot := Stack(|s.free|)],
       pool := L.Transition(s.pool, TokenOf(s.pool, slot), L.Free).0)
  }

  function SlotsOf(chain: seq<Item>): (r: seq<nat>)
    ensures |r| == |chain|
    ensures forall k :: 0 <= k < |chain| ==> r[k] == chain[k].slot
  {
    if chain == [] then [] else SlotsOf(chain[..|chain| - 1]) + [chain[|chain| - 1].slot]
  }

  predicate InChain(place: Place, e: nat) {
    place.Queued? && place.loc.Chain? && place.loc.entry == e
  }

  /** The places once entry e's chain lies on the free stack, from position base. */
  function StackAll(place: seq<Place>, e: nat, base: nat): (r: seq<Place>)
    ensures |r| == |place|
  {
    seq(|place|, i requires 0 <= i < |place| =>
      if InChain(place[i], e) then Stack(base + place[i].loc.pos) else place[i])
  }

  function DropAll(fate: seq<Fate>, e: nat): (r: seq<Fate>)
    ensures |r| == |fate|
  {
    seq(|fate|, i requires 0 <= i < |fate| =>
      if fate[i].Kept? && fate[i].loc.Chain? && fate[i].loc.entry == e then Dropped else fate[i])
  }

  function FreeChain(frames: seq<L.Frame>, place: seq<Place>, e: nat): (r: seq<L.Frame>)
    requires |frames| == |place|
    ensures |r| == |frames|
  {
    seq(|frames|, i requires 0 <= i < |frames| =>
      if InChain(place[i], e) then L.Enter(frames[i], L.Free) else frames[i])
  }

  /** An entry that has waited too long is emptied and refused for good. */
  function Retire(s: State, e: nat): (r: State)
    requires e < |s.entries| == |s.chains| && |s.pool.frames| == |s.place|
  {
    var n := |s.free|;
    s.(free := s.free + SlotsOf(s.chains[e]),
       entries := s.entries[e := s.entries[e].(resolved := Refused)],
       chains := s.chains[e := []],
       place := StackAll(s.place, e, n),
       fate := DropAll(s.fate, e),
       pool := s.pool.(frames := FreeChain(s.pool.frames, s.place, e)),
       drops := s.drops + |s.chains[e]|)
  }

  predicate Overdue(f: Entry, now: nat) {
    f.used && f.resolved != Refused && now >= f.deadline
  }

  /** The sweep over the first n entries. */
  function Expire(s: State, now: nat, n: nat): (r: State)
    requires n <= |s.entries| == |s.chains| && |s.pool.frames| == |s.place|
    ensures |r.entries| == |r.chains| == |s.entries| && |r.pool.frames| == |r.place|
  {
    if n == 0 then s
    else
      var t := Expire(s, now, n - 1);
      if Overdue(t.entries[n - 1], now) then Retire(t, n - 1) else t
  }

  function Stop(s: State): (r: State) {
    s.(stopped := true, pool := s.pool.(stopping := true))
  }
}
