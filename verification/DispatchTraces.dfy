/** Whole runs of the dispatcher: what stays as it is once it is decided, what a worker has
    been given, and what becomes of fragments that are held back. */
module DispatchTraces {
  import opened Wrappers
  import opened Flow
  import opened DispatchState
  import opened DispatchPlaces
  import opened DispatchSteps
  import opened DispatchRuns
  import L = FrameLifetime

  // ------------------------------------------------------------ decisions are kept

  /** A bucket that has a worker keeps it. */
  ghost predicate FlowKept(f: seq<nat>, g: seq<nat>) {
    |f| == |g| && forall b :: 0 <= b < |f| && f[b] != 0 ==> g[b] == f[b]
  }

  /** An entry in use keeps its datagram and deadline, a worker once chosen, and refusal for good. */
  predicate EntryKept(f: Entry, g: Entry) {
    && (f.used ==> g.used && g.key == f.key && g.deadline == f.deadline)
    && (f.resolved != Unresolved ==> g.resolved != Unresolved && g.queue == f.queue)
    && (f.resolved == Refused ==> g.resolved == Refused)
  }

  ghost predicate EntriesKept(f: seq<Entry>, g: seq<Entry>) {
    |f| == |g| && forall e :: 0 <= e < |f| ==> EntryKept(f[e], g[e])
  }

  /** Queue histories only grow at the end. */
  ghost predicate SentKept(f: ItemLists, g: ItemLists) {
    |f| == |g| && forall w :: 0 <= w < |f| ==> f[w] <= g[w]
  }

  ghost predicate Grows(s: State, t: State) {
    && t.workers == s.workers && t.header == s.header
    && FlowKept(s.flow, t.flow) && EntriesKept(s.entries, t.entries) && SentKept(s.sent, t.sent)
    && s.log <= t.log
  }

  lemma GrowsTransitive(s: State, t: State, u: State)
    requires Grows(s, t) && Grows(t, u)
    ensures Grows(s, u)
  {
    hide EntryKept;
    forall e | 0 <= e < |s.entries| ensures EntryKept(s.entries[e], u.entries[e]) {
      EntryKeptTransitive(s.entries[e], t.entries[e], u.entries[e]);
    }
    forall w | 0 <= w < |s.sent| ensures s.sent[w] <= u.sent[w] {
      assert s.sent[w] <= t.sent[w] && t.sent[w] <= u.sent[w];
    }
  }

  lemma EntryKeptTransitive(f: Entry, g: Entry, h: Entry)
    requires EntryKept(f, g) && EntryKept(g, h)
    ensures EntryKept(f, h)
  {
  }

  lemma EntryKeptSelf(f: Entry)
    ensures EntryKept(f, f)
  {
  }

  lemma JudgeKept(f: Entry, held: nat, e: nat, p: FlowPacket, queue: nat, now: nat)
    ensures EntryKept(f, Judge(f, held, e, p, queue, now).0)
  {
  }

  lemma DecideGrows(s: State, p: FlowPacket, now: nat)
    requires |s.flow| == BUCKETS && s.workers > 0 && |s.entries| == |s.chains| == ENTRIES
    requires FlowQueue(BindFlow(s, p), p) >= 0
    ensures Grows(s, Decide(BindFlow(s, p), p, now).0)
    ensures Decide(BindFlow(s, p), p, now).0.chains == s.chains
    ensures var t := Decide(BindFlow(s, p), p, now).0;
      forall e :: 0 <= e < ENTRIES && !(p.fragmented && EntryOf(p) == e) ==> t.entries[e] == s.entries[e]
    ensures p.fragmented ==>
      var t := Decide(BindFlow(s, p), p, now).0;
      && t.entries[EntryOf(p)] == Judge(s.entries[EntryOf(p)], |s.chains[EntryOf(p)]|, EntryOf(p), p,
                                        FlowQueue(BindFlow(s, p), p), now).0
      && Decide(BindFlow(s, p), p, now).1 == Judge(s.entries[EntryOf(p)], |s.chains[EntryOf(p)]|, EntryOf(p), p,
                                                   FlowQueue(BindFlow(s, p), p), now).1
  {
    hide Judge, EntryKept;
    forall e | 0 <= e < ENTRIES ensures EntryKept(s.entries[e], Decide(BindFlow(s, p), p, now).0.entries[e]) {
      EntryKeptSelf(s.entries[e]);
      JudgeKept(s.entries[e], |s.chains[e]|, e, p, FlowQueue(BindFlow(s, p), p), now);
    }
  }

  lemma StoreGrows(s: State, length: nat, v: Verdict)
    requires |s.length| == |s.place| == SLOTS && s.header <= HEADROOM
    requires s.free != [] ==> s.free[|s.free| - 1] < SLOTS
    requires v.Hold? ==> v.entry < |s.chains|
    requires v.Send? ==> v.queue < |s.sent| && (v.flush.Some? ==> v.flush.value < |s.chains|)
    ensures Grows(s, Store(s, length, v)) && Store(s, length, v).entries == s.entries && Store(s, length, v).got == s.got
    ensures forall e :: 0 <= e < |s.chains| && v != Hold(e) && !(v.Send? && v.flush == Some(e)) ==>
      Store(s, length, v).chains[e] == s.chains[e]
    ensures |Store(s, length, v).chains| == |s.chains|
  {
    hide EntryKept, L.Acquire, L.Fill, MoveAll, MoveFates;
    forall e | 0 <= e < |s.entries| ensures EntryKept(s.entries[e], s.entries[e]) {
      EntryKeptSelf(s.entries[e]);
    }
  }

  lemma RetireGrows(s: State, e: nat)
    requires e < |s.entries| == |s.chains| && |s.pool.frames| == |s.place|
    ensures Grows(s, Retire(s, e))
  {
    hide StackAll, DropAll, FreeChain;
  }

  lemma LogGrows(s: State, p: Option<FlowPacket>)
    ensures Grows(s, s.(log := s.log + [p])) && Grows(s, Drop(s))
  {
    forall e | 0 <= e < |s.entries| ensures EntryKept(s.entries[e], s.entries[e]) {
      EntryKeptSelf(s.entries[e]);
    }
  }

  /** The state in which the packet is stored or dropped: everything decided, nothing moved. */
  ghost function Decided(s: State, p: FlowPacket, now: nat): (r: (State, Verdict))
    requires Inv(s)
    ensures Core(r.0) && VerdictOk(r.0, p, r.1) && |r.0.log| == |r.0.fate| + 1 && r.0.log[|r.0.fate|] == Some(p)
    ensures r.0.header == s.header
  {
    LogKeeps(s, Some(p));
    var t := s.(log := s.log + [Some(p)]);
    BindKeeps(t, p);
    BindFrame(t, p);
    DecideKeeps(BindFlow(t, p), p, now);
    DecideFrame(BindFlow(t, p), p, now);
    Decide(BindFlow(t, p), p, now)
  }

  lemma SubmitStores(s: State, p: FlowPacket, length: nat, now: nat)
    requires Inv(s) && length + HEADROOM - s.header <= CAPACITY && length > s.header
    ensures var (t, v) := Decided(s, p, now);
      && |t.place| == |t.length| == SLOTS && (t.free != [] ==> t.free[|t.free| - 1] < SLOTS)
      && (v.Hold? ==> v.entry < |t.chains|)
      && (v.Send? ==> v.queue < |t.sent| && (v.flush.Some? ==> v.flush.value < |t.chains|))
      && Submit(s, Some(p), length, now) == Store(t, length, v)
  {
    hide PlacesOk, FatesOk, Steered, InOrder, Counted, PoolOk, EntryOk, BindFlow, FlowQueue, Decide, Store, Right;
    var (t, v) := Decided(s, p, now);
    StoreKeeps(t, length, p, v);
  }

  lemma DecidedGrows(s: State, p: FlowPacket, now: nat)
    requires Inv(s)
    ensures Grows(s, Decided(s, p, now).0) && Decided(s, p, now).0.chains == s.chains
    ensures Decided(s, p, now).0.got == s.got && Decided(s, p, now).0.sent == s.sent
    ensures |s.entries| == |s.chains| == ENTRIES && |Decided(s, p, now).0.entries| == ENTRIES
    ensures |s.flow| == BUCKETS && s.workers > 0 && FlowQueue(BindFlow(s, p), p) >= 0
    ensures p.fragmented ==>
      Judge(s.entries[EntryOf(p)], |s.chains[EntryOf(p)]|, EntryOf(p), p, FlowQueue(BindFlow(s, p), p), now)
      == (Decided(s, p, now).0.entries[EntryOf(p)], Decided(s, p, now).1)
    ensures !p.fragmented ==> Decided(s, p, now).1.Send? && Decided(s, p, now).1.flush == None
    ensures forall e :: 0 <= e < |s.entries| && !(p.fragmented && EntryOf(p) == e) ==>
      Decided(s, p, now).0.entries[e] == s.entries[e]
  {
    hide PlacesOk, FatesOk, Steered, InOrder, Counted, PoolOk, EntryOk, Judge, FlowKept, EntriesKept, SentKept, VerdictOk;
    LogKeeps(s, Some(p));
    var t := s.(log := s.log + [Some(p)]);
    LogGrows(s, Some(p));
    BindKeeps(t, p);
    BindFrame(t, p);
    DecideGrows(t, p, now);
    DecideFrame(BindFlow(t, p), p, now);
    GrowsTransitive(s, t, Decided(s, p, now).0);
    assert BindFlow(t, p).flow == BindFlow(s, p).flow;
  }

  lemma SubmitGrows(s: State, parsed: Option<FlowPacket>, length: int, now: nat)
    requires Inv(s) && length + HEADROOM - s.header <= CAPACITY
    ensures Grows(s, Submit(s, parsed, length, now)) && Submit(s, parsed, length, now).got == s.got
  {
    hide Inv, Grows, Decided, VerdictOk, Core, Store;
    var p := if length - s.header <= 0 then None else parsed;
    if p == None {
      var t := s.(log := s.log + [p]);
      LogGrows(s, p);
      LogGrows(t, p);
      GrowsTransitive(s, t, Drop(t));
      assert Submit(s, parsed, length, now) == Drop(t) && Drop(t).got == s.got;
    } else {
      var (t, v) := Decided(s, p.value, now);
      DecidedGrows(s, p.value, now);
      SubmitStores(s, p.value, length, now);
      assert t.header <= HEADROOM by { InvHeader(s); }
      StoreGrows(t, length, v);
      GrowsTransitive(s, t, Store(t, length, v));
    }
  }

  lemma InvHeader(s: State)
    requires Inv(s)
    ensures s.header <= HEADROOM
  {
  }

  lemma {:induction false} ExpireGrows(s: State, now: nat, n: nat)
    requires Inv(s) && n <= ENTRIES
    ensures |s.entries| == |s.chains| == ENTRIES && |s.pool.frames| == |s.place|
    ensures Grows(s, Expire(s, now, n)) && Expire(s, now, n).got == s.got
  {
    hide PlacesOk, FatesOk, InOrder, Steered, PoolOk, EntryOk, Counted, Retire, Grows;
    ExpireKeeps(s, now, n);
    if n == 0 {
      GrowsSelf(s);
    } else {
      ExpireGrows(s, now, n - 1);
      var t := Expire(s, now, n - 1);
      ExpireKeeps(s, now, n - 1);
      if Overdue(t.entries[n - 1], now) {
        RetireGrows(t, n - 1);
        GrowsTransitive(s, t, Retire(t, n - 1));
        assert Retire(t, n - 1).got == t.got by { RetireFrame(t, n - 1); }
      }
    }
  }

  lemma RetireFrame(s: State, e: nat)
    requires e < |s.entries| == |s.chains| && |s.pool.frames| == |s.place|
    ensures var t := Retire(s, e); t.got == s.got && t.chains == s.chains[e := []]
    ensures var t := Retire(s, e); t.entries == s.entries[e := s.entries[e].(resolved := Refused)]
  {
  }

  lemma GrowsSelf(s: State)
    ensures Grows(s, s)
  {
    forall e | 0 <= e < |s.entries| ensures EntryKept(s.entries[e], s.entries[e]) {
      EntryKeptSelf(s.entries[e]);
    }
  }

  lemma SameTablesGrow(s: State, t: State)
    requires t == s.(free := t.free, out := t.out, place := t.place, pool := t.pool, got := t.got, stopped := t.stopped)
    ensures Grows(s, t)
  {
    hide EntryKept;
    forall e | 0 <= e < |s.entries| ensures EntryKept(s.entries[e], t.entries[e]) {
      EntryKeptSelf(s.entries[e]);
    }
  }

  /** What the step hands to worker w. */
  ghost function GivenTo(s: State, e: Event, w: nat): (r: seq<Item>)
    requires Inv(s) && Legal(s, e)
  {
    if e == TakeEvent(w) && s.got[w] < |s.sent[w]| then [s.sent[w][s.got[w]]] else []
  }

  lemma StepGrows(s: State, e: Event)
    requires Inv(s) && Legal(s, e)
    ensures Grows(s, Step(s, e))
  {
    hide Inv, Submit, Grows, Expire, Take, Release, Stop;
    match e
    case SubmitEvent(p, length, now) => SubmitGrows(s, p, length, now);
    case TakeEvent(w) => TakeKeeps(s, w); TakeFrame(s, w);
    case ReleaseEvent(slot) => ReleaseKeeps(s, slot); ReleaseFrame(s, slot);
    case ExpireEvent(now) => ExpireKeeps(s, now, ENTRIES); ExpireGrows(s, now, ENTRIES);
    case StopEvent => StopFrame(s);
  }

  lemma TakeFrame(s: State, w: nat)
    requires w < |s.sent| == |s.got|
    requires s.got[w] < |s.sent[w]| ==> s.sent[w][s.got[w]].slot < |s.place|
    ensures Grows(s, Take(s, w).0) && |Take(s, w).0.got| == |s.got| && Take(s, w).0.chains == s.chains
    ensures forall v :: 0 <= v < |s.got| ==>
      Take(s, w).0.got[v] == s.got[v] + if v == w && s.got[w] < |s.sent[w]| then 1 else 0
  {
    hide Grows, L.Transition;
    SameTablesGrow(s, Take(s, w).0);
  }

  lemma ReleaseFrame(s: State, slot: nat)
    requires slot < |s.place|
    ensures Grows(s, Release(s, slot)) && Release(s, slot).got == s.got && Release(s, slot).chains == s.chains
  {
    hide Grows, L.Transition;
    SameTablesGrow(s, Release(s, slot));
  }

  lemma StopFrame(s: State)
    ensures Grows(s, Stop(s)) && Stop(s).got == s.got && Stop(s).chains == s.chains
  {
    hide Grows;
    SameTablesGrow(s, Stop(s));
  }

  lemma StepTakes(s: State, e: Event, w: nat)
    requires Inv(s) && Legal(s, e) && w < s.workers
    ensures |Step(s, e).got| == |s.got| == s.workers
    ensures Step(s, e).got[w] == s.got[w] + |GivenTo(s, e, w)|
  {
    hide FatesOk, Steered, InOrder, Counted, PoolOk, EntryOk, Submit, Grows, Expire, Take, Release, Stop;
    match e
    case SubmitEvent(p, length, now) => SubmitGrows(s, p, length, now);
    case TakeEvent(v) => TakeKeeps(s, v); TakeFrame(s, v);
    case ReleaseEvent(slot) => ReleaseKeeps(s, slot); ReleaseFrame(s, slot);
    case ExpireEvent(now) => ExpireKeeps(s, now, ENTRIES); ExpireGrows(s, now, ENTRIES);
    case StopEvent => StopFrame(s);
  }

  // ------------------------------------------------------------ runs

  /** Flow bindings, fragment bindings, refusals and queue histories all survive any run. */
  lemma {:induction false} RunGrows(states: seq<State>, events: seq<Event>, i: nat, n: nat)
    requires IsRun(states, events) && i <= n <= |events|
    ensures Grows(states[i], states[n])
    decreases n
  {
    hide Inv, Step, Grows, Legal;
    if i == n {
      GrowsSelf(states[i]);
    } else {
      RunGrows(states, events, i, n - 1);
      RunKeepsInv(states, events, n - 1);
      assert Follows(states[n - 1], events[n - 1], states[n]);
      StepGrows(states[n - 1], events[n - 1]);
      GrowsTransitive(states[i], states[n - 1], states[n]);
    }
  }

  /** Everything worker w is handed in the first n steps, in order. */
  ghost function Delivered(states: seq<State>, events: seq<Event>, n: nat, w: nat): (r: seq<Item>)
    requires IsRun(states, events) && n <= |events|
  {
    if n == 0 then []
    else
      RunKeepsInv(states, events, n - 1);
      assert Follows(states[n - 1], events[n - 1], states[n]);
      Delivered(states, events, n - 1, w) + GivenTo(states[n - 1], events[n - 1], w)
  }

  /** A worker is handed exactly its queue history, from the front, with nothing left out. */
  lemma {:induction false} DeliveryIsTheQueue(states: seq<State>, events: seq<Event>, n: nat, w: nat)
    requires IsRun(states, events) && n <= |events| && w < states[0].workers
    ensures |states[n].got| == |states[n].sent| == |states[0].got| == states[0].workers
    ensures states[0].got[w] <= states[n].got[w] <= |states[n].sent[w]|
    ensures Delivered(states, events, n, w) == states[n].sent[w][states[0].got[w]..states[n].got[w]]
  {
    hide Step, Grows, Legal, GivenTo, Inv;
    RunKeepsInv(states, events, 0);
    RunKeepsInv(states, events, n);
    GotFacts(states[n]);
    GotFacts(states[0]);
    if n == 0 {
    } else {
      DeliveryIsTheQueue(states, events, n - 1, w);
      var s, t := states[n - 1], states[n];
      RunKeepsInv(states, events, n - 1);
      GotFacts(s);
      assert Follows(s, events[n - 1], t);
      RunGrows(states, events, 0, n - 1);
      assert w < s.workers by { GrowsFacts(states[0], s); }
      StepGrows(s, events[n - 1]);
      GrowsFacts(s, t);
      StepTakes(s, events[n - 1], w);
      GivenIsNext(s, events[n - 1], w);
      assert s.sent[w] <= t.sent[w];
      var a, b, c := states[0].got[w], s.got[w], t.got[w];
      assert t.sent[w][a..c] == t.sent[w][a..b] + t.sent[w][b..c];
      assert t.sent[w][a..b] == s.sent[w][a..b];
      assert t.sent[w][b..c] == s.sent[w][b..c];
    }
  }

  lemma GotFacts(s: State)
    requires Inv(s)
    ensures |s.got| == |s.sent| == s.workers
    ensures forall w :: 0 <= w < |s.sent| ==> s.got[w] <= |s.sent[w]|
  {
    hide FatesOk, Steered, InOrder, Counted, PoolOk, EntryOk;
  }

  lemma GrowsFacts(s: State, t: State)
    requires Grows(s, t)
    ensures t.workers == s.workers && |t.sent| == |s.sent| && forall w :: 0 <= w < |s.sent| ==> s.sent[w] <= t.sent[w]
  {
  }

  lemma GivenIsNext(s: State, e: Event, w: nat)
    requires Inv(s) && Legal(s, e) && w < s.workers
    ensures |s.got| == |s.sent| == s.workers && s.got[w] + |GivenTo(s, e, w)| <= |s.sent[w]|
    ensures GivenTo(s, e, w) == s.sent[w][s.got[w]..s.got[w] + |GivenTo(s, e, w)|]
  {
    hide FatesOk, Steered, InOrder, Counted, PoolOk, EntryOk;
  }

  lemma {:induction false} GotGrows(states: seq<State>, events: seq<Event>, i: nat, n: nat, w: nat)
    requires IsRun(states, events) && i <= n <= |events| && w < states[i].workers
    ensures |states[n].got| == |states[i].got| == states[n].workers == states[i].workers
    ensures states[i].got[w] <= states[n].got[w]
    decreases n
  {
    hide Step, Grows, Legal, GivenTo, Inv;
    RunKeepsInv(states, events, i);
    RunKeepsInv(states, events, n);
    GotFacts(states[i]);
    GotFacts(states[n]);
    if i < n {
      GotGrows(states, events, i, n - 1, w);
      RunKeepsInv(states, events, n - 1);
      assert Follows(states[n - 1], events[n - 1], states[n]);
      StepGrows(states[n - 1], events[n - 1]);
      GrowsFacts(states[n - 1], states[n]);
      StepTakes(states[n - 1], events[n - 1], w);
    }
  }

  /** In state s worker w is about to take packet p, which was submitted as number id. */
  ghost predicate Takes(s: State, w: nat, p: FlowPacket, id: nat) {
    && w < |s.got| && w < |s.sent| && s.got[w] < |s.sent[w]| && s.sent[w][s.got[w]].id == id
    && id < |s.log| && s.log[id] == Some(p)
  }

  /** The whole packets of a flow are taken by one worker, in the order of submission. */
  lemma FlowTakenInOrder(states: seq<State>, events: seq<Event>, i: nat, p: FlowPacket, w: nat, x: nat,
                         j: nat, q: FlowPacket, v: nat, y: nat)
    requires IsRun(states, events) && i < j < |events| && events[i] == TakeEvent(w) && events[j] == TakeEvent(v)
    requires Takes(states[i], w, p, x) && Takes(states[j], v, q, y)
    requires p.transport && q.transport && Bucket(p) == Bucket(q) && !p.fragmented && !q.fragmented
    requires Leading(p) && Leading(q)
    ensures w == v && x < y
  {
    hide Inv, Step, Follows, Grows, Legal, Bucket;
    RunKeepsInv(states, events, i);
    RunKeepsInv(states, events, j);
    RunGrows(states, events, i, j);
    StillSent(states[i], states[j], w, p, x);
    assert SentPacket(states[j], v, states[j].got[v], q);
    FlowKeepsWorkerAndOrder(states[j], w, states[i].got[w], p, v, states[j].got[v], q);
    GotFacts(states[i]);
    GotGrows(states, events, i + 1, j, w) by { TakeAdvances(states, events, i, w); }
    TakeAdvances(states, events, i, w);
  }

  lemma StillSent(s: State, t: State, w: nat, p: FlowPacket, x: nat)
    requires Inv(t) && Grows(s, t) && Takes(s, w, p, x)
    ensures SentPacket(t, w, s.got[w], p) && t.sent[w][s.got[w]].id == x
  {
    hide Inv, FlowKept, EntriesKept;
  }

  lemma TakeAdvances(states: seq<State>, events: seq<Event>, i: nat, w: nat)
    requires IsRun(states, events) && i < |events| && events[i] == TakeEvent(w) && w < states[i].workers
    requires |states[i].got| == |states[i].sent| == states[i].workers && states[i].got[w] < |states[i].sent[w]|
    ensures states[i + 1].workers == |states[i + 1].got| == states[i].workers
    ensures states[i + 1].got[w] == states[i].got[w] + 1
  {
    hide Inv, Step, Grows, Legal;
    RunKeepsInv(states, events, i);
    RunKeepsInv(states, events, i + 1);
    assert Follows(states[i], events[i], states[i + 1]);
    StepGrows(states[i], events[i]);
    GrowsFacts(states[i], states[i + 1]);
    StepTakes(states[i], events[i], w);
  }

  // ------------------------------------------------------------ fragments held back

  lemma RefusedIsDropped(s: State, p: FlowPacket, length: int, now: nat)
    requires Inv(s) && length + HEADROOM - s.header <= CAPACITY
    requires p.fragmented && |s.entries| == ENTRIES
    requires var f := s.entries[EntryOf(p)];
      f.used && (f.key != p.fragmentKey || f.resolved == Refused || now >= f.deadline)
    ensures Submit(s, Some(p), length, now).fate == s.fate + [Dropped]
  {
    hide PlacesOk, FatesOk, Steered, InOrder, Counted, PoolOk, EntryOk, Decided, BindFlow, FlowQueue, Decide, EntryKept;
    if length > s.header {
      SubmitStores(s, p, length, now);
      DecidedGrows(s, p, now);
      assert Decided(s, p, now).0.fate == s.fate by { DecidedFate(s, p, now); }
    } else {
      assert Submit(s, Some(p), length, now) == Drop(s.(log := s.log + [None]));
    }
  }

  lemma DecidedFate(s: State, p: FlowPacket, now: nat)
    requires Inv(s)
    ensures Decided(s, p, now).0.fate == s.fate
  {
    hide PlacesOk, FatesOk, Steered, InOrder, Counted, PoolOk, EntryOk, Judge;
    LogKeeps(s, Some(p));
    var t := s.(log := s.log + [Some(p)]);
    BindKeeps(t, p);
    BindFrame(t, p);
    DecideFrame(BindFlow(t, p), p, now);
  }

  /** A fragment entry serves one datagram and is never given to another: once it is in
      use, in every later state of every run, a fragment that falls to it and belongs to
      another datagram, or arrives past the deadline set then, is dropped. */
  lemma EntryIsNeverReused(states: seq<State>, events: seq<Event>, i: nat, n: nat, e: nat)
    requires IsRun(states, events) && i <= n < |events|
    requires e < |states[i].entries| && states[i].entries[e].used
    requires events[n].SubmitEvent? && events[n].parsed.Some?
    requires events[n].parsed.value.fragmented && EntryOf(events[n].parsed.value) == e
    requires var f := states[i].entries[e];
      || f.key != events[n].parsed.value.fragmentKey || f.resolved == Refused || events[n].now >= f.deadline
    ensures states[n + 1].fate == states[n].fate + [Dropped]
  {
    hide Inv, Submit, Legal;
    RunKeepsInv(states, events, n);
    RunGrows(states, events, i, n);
    assert Follows(states[n], events[n], states[n + 1]);
    assert EntryKept(states[i].entries[e], states[n].entries[e]);
    assert |states[n].entries| == ENTRIES by { InvEntries(states[n]); }
    assert events[n].length + HEADROOM - states[n].header <= CAPACITY by { LegalLength(states[n], events[n]); }
    RefusedIsDropped(states[n], events[n].parsed.value, events[n].length, events[n].now);
  }

  lemma LegalLength(s: State, e: Event)
    requires Legal(s, e) && e.SubmitEvent?
    ensures e.length + HEADROOM - s.header <= CAPACITY
  {
  }

  lemma InvEntries(s: State)
    requires Inv(s)
    ensures |s.entries| == |s.chains| == ENTRIES
  {
    hide PlacesOk, FatesOk, Steered, InOrder, Counted, PoolOk, EntryOk;
  }

  /** What a sweep does to each entry. */
  lemma {:induction false} ExpireEach(s: State, now: nat, n: nat, e: nat)
    requires Inv(s) && n <= ENTRIES && e < ENTRIES
    ensures |s.entries| == |s.chains| == ENTRIES && |s.pool.frames| == |s.place|
    ensures var (t, gone) := (Expire(s, now, n), e < n && Overdue(s.entries[e], now));
      && t.chains[e] == (if gone then [] else s.chains[e])
      && t.entries[e] == if gone then s.entries[e].(resolved := Refused) else s.entries[e]
  {
    hide Inv, Retire;
    ExpireKeeps(s, now, n);
    if n == 0 {
    } else {
      ExpireEach(s, now, n - 1, e);
      ExpireEach(s, now, n - 1, n - 1);
      ExpireKeeps(s, now, n - 1);
      var t := Expire(s, now, n - 1);
      if Overdue(t.entries[n - 1], now) {
        RetireFrame(t, n - 1);
      }
    }
  }

  /** Packets held by an entry that is refused already. */
  ghost predicate Stuck(s: State, e: nat) {
    e < |s.entries| && e < |s.chains| && s.entries[e].resolved == Refused && s.chains[e] != []
  }

  /** The sweep drops everything whose deadline has passed, except what is stuck. */
  lemma SweepClears(s: State, now: nat, e: nat)
    requires Inv(s) && e < ENTRIES
    ensures |s.entries| == |s.chains| == ENTRIES && |s.pool.frames| == |s.place|
    ensures s.entries[e].used && now >= s.entries[e].deadline ==>
      (Expire(s, now, ENTRIES).chains[e] == [] <==> !Stuck(s, e))
  {
    hide Inv, Expire;
    ExpireEach(s, now, ENTRIES, e);
  }

  /** The second leading fragment that makes an entry stuck: it belongs to the datagram whose
      packets wait there although it is bound, and its flow has another worker. */
  ghost predicate Strands(s: State, ev: Event, e: nat)
    requires Inv(s)
  {
    && ev.SubmitEvent? && ev.parsed.Some? && ev.length > s.header
    && |s.entries| == |s.chains| == ENTRIES && |s.flow| == BUCKETS && s.workers > 0
    && var (p, f) := (ev.parsed.value, s.entries[EntryOf(ev.parsed.value)]);
    && p.fragmented && p.first && EntryOf(p) == e && s.chains[e] != []
    && f.resolved == Bound && f.key == p.fragmentKey && ev.now < f.deadline
    && f.queue != FlowQueue(BindFlow(s, p), p)
  }

  lemma UnusedIsEmpty(s: State, e: nat)
    requires Inv(s) && e < ENTRIES
    ensures |s.entries| == |s.chains| == ENTRIES
    ensures !s.entries[e].used ==> s.chains[e] == [] && s.entries[e].resolved == Unresolved
  {
    hide PlacesOk, FatesOk, Steered, InOrder, Counted, PoolOk;
    assert EntryOk(s.workers, s.entries[e], s.chains[e]);
  }

  lemma SubmitStrands(s: State, p: FlowPacket, length: nat, now: nat, e: nat)
    requires Inv(s) && length + HEADROOM - s.header <= CAPACITY && length > s.header && e < ENTRIES
    ensures |s.chains| == ENTRIES && |Submit(s, Some(p), length, now).chains| == ENTRIES
    ensures Stuck(s, e) ==> Submit(s, Some(p), length, now).chains[e] == s.chains[e]
    ensures Stuck(Submit(s, Some(p), length, now), e) <==>
      Stuck(s, e) || Strands(s, SubmitEvent(Some(p), length, now), e)
  {
    hide Inv, Core, Decided, BindFlow, FlowQueue, Decide, EntryKept, FlowKept, EntriesKept, SentKept, VerdictOk, Store;
    UnusedIsEmpty(s, e);
    SubmitStores(s, p, length, now);
    DecidedGrows(s, p, now);
    var (t, v) := Decided(s, p, now);
    InvHeader(s);
    StoreGrows(t, length, v);
  }

  /** An entry becomes stuck in that one way only, and what is stuck stays: no later step of
      the dispatcher forwards or frees it. */
  lemma StuckExactly(s: State, ev: Event, e: nat)
    requires Inv(s) && Legal(s, ev) && e < ENTRIES
    ensures Stuck(Step(s, ev), e) <==> Stuck(s, e) || Strands(s, ev, e)
    ensures Stuck(s, e) ==> e < |Step(s, ev).chains| && Step(s, ev).chains[e] == s.chains[e]
  {
    hide Inv, Expire, Take, Release, Stop, Submit;
    UnusedIsEmpty(s, e);
    match ev
    case SubmitEvent(parsed, length, now) =>
      if parsed.Some? && length > s.header {
        SubmitStrands(s, parsed.value, length, now, e);
      } else {
        NothingDecided(s, parsed, length, now);
      }
    case TakeEvent(w) => TakeKeeps(s, w); TakeFrame(s, w); TakeTables(s, w);
    case ReleaseEvent(slot) => ReleaseKeeps(s, slot); ReleaseFrame(s, slot); ReleaseTables(s, slot);
    case ExpireEvent(now) => ExpireKeeps(s, now, ENTRIES); ExpireEach(s, now, ENTRIES, e);
    case StopEvent => StopFrame(s); assert Stop(s).entries == s.entries by { StopTables(s); }
  }

  lemma NothingDecided(s: State, parsed: Option<FlowPacket>, length: int, now: nat)
    requires Inv(s) && length + HEADROOM - s.header <= CAPACITY && !(parsed.Some? && length > s.header)
    ensures var t := Submit(s, parsed, length, now); t.entries == s.entries && t.chains == s.chains
  {
    hide Inv, Core, BindFlow, Decide, Store;
  }

  lemma TakeTables(s: State, w: nat)
    requires w < |s.sent| == |s.got|
    requires s.got[w] < |s.sent[w]| ==> s.sent[w][s.got[w]].slot < |s.place|
    ensures Take(s, w).0.entries == s.entries
  {
  }

  lemma ReleaseTables(s: State, slot: nat)
    requires slot < |s.place|
    ensures Release(s, slot).entries == s.entries
  {
  }

  lemma StopTables(s: State)
    ensures Stop(s).entries == s.entries
  {
  }

  lemma {:induction false} StuckForGood(states: seq<State>, events: seq<Event>, i: nat, n: nat, e: nat)
    requires IsRun(states, events) && i <= n <= |events| && e < ENTRIES && Stuck(states[i], e)
    ensures Stuck(states[n], e) && states[n].chains[e] == states[i].chains[e]
    decreases n
  {
    hide Inv, Step, Legal, Strands;
    if i == n {
    } else {
      StuckForGood(states, events, i, n - 1, e);
      RunKeepsInv(states, events, n - 1);
      assert Follows(states[n - 1], events[n - 1], states[n]);
      StuckExactly(states[n - 1], events[n - 1], e);
    }
  }
}
