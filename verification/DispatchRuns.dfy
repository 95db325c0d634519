/** Runs of the dispatcher: submissions, takes, releases and sweeps in any order. */
module DispatchRuns {
  import opened Wrappers
  import opened Lists
  import opened Checksum
  import opened Flow
  import opened DispatchState
  import opened DispatchPlaces
  import opened DispatchSteps
  import L = FrameLifetime

  // ------------------------------------------------------------ one step

  lemma StoreKeeps(s: State, length: nat, p: FlowPacket, v: Verdict)
    requires Core(s) && |s.log| == |s.fate| + 1 && s.log[|s.fate|] == Some(p) && VerdictOk(s, p, v)
    requires length + HEADROOM - s.header <= CAPACITY
    ensures |s.length| == |s.place| == SLOTS && (s.free != [] ==> s.free[|s.free| - 1] < SLOTS)
    ensures Inv(Store(s, length, v))
  {
    hide PlacesOk, FatesOk, InOrder, Steered, TablesOk, PoolOk, Counted, Right, Claim, Append, Enqueue, Flush, L.Acquire;
    assert TablesOk(s.workers, s.flow, s.entries, s.chains);
    PlacesLength(s);
    if s.free != [] { TopIsStacked(s); }
    DropKeeps(s);
    if !(v.Refuse? || s.stopped || s.free == [] || (v.Hold? && |s.free| <= RESERVE)) {
      var slot := s.free[|s.free| - 1];
      if L.Acquire(s.pool, slot).1 == L.Done {
        match v {
          case Hold(e) => HoldKeeps(s, length, e, p);
          case Send(q, flush) =>
            SendKeeps(s, length, q, p);
            if flush.Some? {
              assert |Claim(s, length).sent| == |s.sent| && |Claim(s, length).place| == |s.place| by { ClaimFrame(s, length); }
              var t := Enqueue(Claim(s, length), slot, q);
              assert t.entries == s.entries && t.workers == s.workers by { EnqueueFrame(s, length, q); }
              FlushKeeps(t, flush.value, q);
            }
        }
      }
    }
  }

  lemma ClaimFrame(s: State, length: nat)
    requires s.free != [] && |s.length| == |s.place| == SLOTS && s.free[|s.free| - 1] < SLOTS && s.header <= HEADROOM
    ensures var t := Claim(s, length);
      t.sent == s.sent && t.place == s.place && t.chains == s.chains && t.fate == s.fate
  {
  }

  lemma EnqueueFrame(s: State, length: nat, q: nat)
    requires s.free != [] && |s.length| == |s.place| == SLOTS && s.free[|s.free| - 1] < SLOTS && s.header <= HEADROOM
    requires q < |s.sent|
    ensures var t := Enqueue(Claim(s, length), s.free[|s.free| - 1], q);
      t.entries == s.entries && t.workers == s.workers && t.flow == s.flow && t.log == s.log
  {
  }

  /** A packet read from the device: length bytes, header of them in front of the packet. */
  function Submit(s: State, parsed: Option<FlowPacket>, length: int, now: nat): (r: State)
    requires Inv(s) && length + HEADROOM - s.header <= CAPACITY
  {
    var p := if length - s.header <= 0 then None else parsed;
    LogKeeps(s, p);
    var s := s.(log := s.log + [p]);
    match p
    case None => Drop(s)
    case Some(p) =>
      BindKeeps(s, p);
      var s := BindFlow(s, p);
      DecideKeeps(s, p, now);
      var (s, v) := Decide(s, p, now);
      StoreKeeps(s, length, p, v);
      Store(s, length, v)
  }

  lemma SubmitKeeps(s: State, parsed: Option<FlowPacket>, length: int, now: nat)
    requires Inv(s) && length + HEADROOM - s.header <= CAPACITY
    ensures Inv(Submit(s, parsed, length, now))
  {
    hide PlacesOk, FatesOk, Steered, InOrder, Counted, PoolOk, EntryOk, BindFlow, FlowQueue, Decide, Store, VerdictOk;
    var p := if length - s.header <= 0 then None else parsed;
    LogKeeps(s, p);
    var t := s.(log := s.log + [p]);
    if p == None {
      DropKeeps(t);
    } else {
      BindKeeps(t, p.value);
      var u := BindFlow(t, p.value);
      assert u.log == t.log && u.fate == t.fate && u.header == t.header && u.workers == t.workers by {
        BindFrame(t, p.value);
      }
      DecideKeeps(u, p.value, now);
      var (x, v) := Decide(u, p.value, now);
      assert x.log == u.log && x.fate == u.fate && x.header == u.header by { DecideFrame(u, p.value, now); }
      StoreKeeps(x, length, p.value, v);
    }
  }

  lemma BindFrame(s: State, p: FlowPacket)
    requires |s.flow| == BUCKETS && s.workers > 0
    ensures var t := BindFlow(s, p);
      t.log == s.log && t.fate == s.fate && t.header == s.header && t.sent == s.sent && t.got == s.got &&
      t.workers == s.workers
  {
  }

  lemma DecideFrame(s: State, p: FlowPacket, now: nat)
    requires |s.flow| == BUCKETS && |s.entries| == |s.chains| == ENTRIES && FlowQueue(s, p) >= 0
    ensures var t := Decide(s, p, now).0;
      t.log == s.log && t.fate == s.fate && t.header == s.header && t.sent == s.sent && t.got == s.got && t.flow == s.flow
  {
    hide Judge;
  }

  lemma TakeKeeps(s: State, w: nat)
    requires Inv(s) && w < s.workers
    ensures w < |s.got| == |s.sent| && (s.got[w] < |s.sent[w]| ==> s.sent[w][s.got[w]].slot < |s.place|)
    ensures Inv(Take(s, w).0)
  {
    hide PlacesOk, FatesOk, InOrder, Steered, TablesOk, PoolOk, L.Transition;
    PlacesLength(s);
    if s.got[w] < |s.sent[w]| {
      PlacesTake(s.free, s.out, s.place, s.sent, s.got, s.chains, w);
      PoolTakes(s.pool, s.place, s.stopped, s.sent[w][s.got[w]].slot);
      SumUpdate(s.got, w, s.got[w] + 1);
    }
  }

  lemma ReleaseKeeps(s: State, slot: nat)
    requires Inv(s) && slot in s.out
    ensures slot < |s.place| && Inv(Release(s, slot))
  {
    hide PlacesOk, FatesOk, InOrder, Steered, TablesOk, PoolOk, L.Transition;
    PlacesRelease(s.free, s.out, s.place, s.sent, s.got, s.chains, slot);
    PlacesLength(s);
    PoolReleases(s.pool, s.place, s.stopped, slot, |s.free|);
  }

  lemma SteeredRetire(s: State, e: nat)
    requires |s.flow| == BUCKETS && |s.entries| == |s.chains| == ENTRIES && e < ENTRIES
    requires Steered(s.flow, s.entries, s.sent, s.chains, s.log)
    ensures Steered(s.flow, s.entries[e := s.entries[e].(resolved := Refused)], s.sent, s.chains[e := []], s.log)
  {
    var entries', chains' := s.entries[e := s.entries[e].(resolved := Refused)], s.chains[e := []];
    forall loc | LocIn(s.sent, chains', loc)
      ensures var id := ItemAt(s.sent, chains', loc).id;
        id < |s.log| && s.log[id].Some? && Right(s.flow, entries', s.log[id].value, loc)
    {
      assert LocIn(s.sent, s.chains, loc);
    }
  }

  lemma RetireKeeps(s: State, e: nat)
    requires Inv(s) && e < ENTRIES && s.entries[e].used
    ensures |s.pool.frames| == |s.place| && Inv(Retire(s, e))
  {
    hide PlacesOk, FatesOk, InOrder, Steered, PoolOk;
    PlacesRetire(s.free, s.out, s.place, s.sent, s.got, s.chains, e);
    FatesRetire(s.fate, s.sent, s.chains, e);
    SteeredRetire(s, e);
    TotalUpdate(s.chains, e, []);
    assert |s.pool.frames| == |s.place| by { PoolLength(s); }
    PoolRetires(s.pool, s.place, s.stopped, e, |s.free|);
  }

  lemma PoolLength(s: State)
    requires PoolOk(s.pool, s.place, s.stopped)
    ensures |s.pool.frames| == |s.place| == SLOTS
  {
  }

  lemma {:induction false} ExpireKeeps(s: State, now: nat, n: nat)
    requires Inv(s) && n <= ENTRIES
    ensures |s.entries| == |s.chains| == ENTRIES && |s.pool.frames| == |s.place|
    ensures Inv(Expire(s, now, n))
  {
    hide PlacesOk, FatesOk, InOrder, Steered, PoolOk, EntryOk, Counted, Retire;
    PoolLength(s);
    if n == 0 {
    } else {
      ExpireKeeps(s, now, n - 1);
      var t := Expire(s, now, n - 1);
      if Overdue(t.entries[n - 1], now) {
        RetireKeeps(t, n - 1);
      }
    }
  }

  lemma StopKeeps(s: State)
    requires Inv(s)
    ensures Inv(Stop(s))
  {
    hide PlacesOk, FatesOk, InOrder, Steered, TablesOk;
    L.StepKeepsSound(s.pool, L.StopCall);
  }

  // ------------------------------------------------------------ runs

  datatype Event =
    | SubmitEvent(parsed: Option<FlowPacket>, length: int, now: nat)
    | TakeEvent(worker: nat)
    | ReleaseEvent(slot: nat)
    | ExpireEvent(now: nat)
    | StopEvent

  /** What fits the receive buffer is submitted, workers take for themselves, and only a slot
      that was taken is released. */
  ghost predicate Legal(s: State, e: Event) {
    match e
    case SubmitEvent(_, length, _) => length + HEADROOM - s.header <= CAPACITY
    case TakeEvent(w) => w < s.workers
    case ReleaseEvent(slot) => slot in s.out
    case _ => true
  }

  ghost function Step(s: State, e: Event): (t: State)
    requires Inv(s) && Legal(s, e)
  {
    match e
    case SubmitEvent(p, length, now) => Submit(s, p, length, now)
    case TakeEvent(w) => TakeKeeps(s, w); Take(s, w).0
    case ReleaseEvent(slot) => ReleaseKeeps(s, slot); Release(s, slot)
    case ExpireEvent(now) => ExpireKeeps(s, now, ENTRIES); Expire(s, now, ENTRIES)
    case StopEvent => Stop(s)
  }

  lemma StepKeepsInv(s: State, e: Event)
    requires Inv(s) && Legal(s, e)
    ensures Inv(Step(s, e))
  {
    hide Inv, Submit, Take, Release, Expire, Stop;
    match e
    case SubmitEvent(p, length, now) => SubmitKeeps(s, p, length, now);
    case TakeEvent(w) => TakeKeeps(s, w);
    case ReleaseEvent(slot) => ReleaseKeeps(s, slot);
    case ExpireEvent(now) => ExpireKeeps(s, now, ENTRIES);
    case StopEvent => StopKeeps(s);
  }

  ghost predicate Follows(s: State, e: Event, t: State) {
    Inv(s) ==> Legal(s, e) && t == Step(s, e)
  }

  ghost predicate IsRun(states: seq<State>, events: seq<Event>) {
    && |states| == |events| + 1
    && Inv(states[0])
    && forall i :: 0 <= i < |events| ==> Follows(states[i], events[i], states[i + 1])
  }

  /** Every state of every run satisfies the invariant. */
  lemma {:induction false} RunKeepsInv(states: seq<State>, events: seq<Event>, n: nat)
    requires IsRun(states, events) && n <= |events|
    ensures Inv(states[n])
  {
    hide Inv, Step, Legal;
    if n == 0 {
    } else {
      RunKeepsInv(states, events, n - 1);
      assert Follows(states[n - 1], events[n - 1], states[n]);
      StepKeepsInv(states[n - 1], events[n - 1]);
    }
  }

  // ------------------------------------------------------------ the beginning

  function Start(workers: nat, header: nat): (s: State)
    requires 0 < workers <= MAX_WORKERS && header <= HEADROOM
  {
    State(workers, header, false,
          seq(SLOTS, i => i), seq(BUCKETS, i => 0), 0,
          seq(ENTRIES, i => Entry(false, Zeros(40), Unresolved, 0, 0)),
          seq(workers, i => []), seq(workers, i => 0), seq(ENTRIES, i => []), {},
          seq(SLOTS, i requires 0 <= i => Stack(i)), seq(SLOTS, i => 0),
          L.Pool(seq(SLOTS, i => L.Frame(CAPACITY, 0, 0, 0, L.Free)), 1, false, false),
          [], [], 0)
  }

  lemma {:induction false} TotalOfEmpty(s: ItemLists)
    requires forall i :: 0 <= i < |s| ==> s[i] == []
    ensures Total(s) == 0
  {
    if s != [] {
      TotalOfEmpty(s[..|s| - 1]);
    }
  }

  lemma {:induction false} SumOfZeros(s: seq<nat>)
    requires forall i :: 0 <= i < |s| ==> s[i] == 0
    ensures Sum(s) == 0
  {
    if s != [] {
      SumOfZeros(s[..|s| - 1]);
    }
  }

  lemma StartInv(workers: nat, header: nat)
    requires 0 < workers <= MAX_WORKERS && header <= HEADROOM
    ensures Inv(Start(workers, header))
  {
    var s := Start(workers, header);
    TotalOfEmpty(s.sent);
    TotalOfEmpty(s.chains);
    SumOfZeros(s.got);
    assert forall i :: 0 <= i < SLOTS ==> L.SoundFrame(false, s.pool.frames[i]);
    hide Total, Sum;
    assert Counted(s);
    assert PlacesOk(s.free, s.out, s.place, s.sent, s.got, s.chains);
  }

  // ------------------------------------------------------------ what an invariant state means

  /** Every slot is in exactly one place: once on the free stack, once in one queue or chain,
      or out with a worker. */
  lemma SlotsPartitioned(s: State, t: nat)
    requires Inv(s) && t < SLOTS
    ensures NoDup(s.free)
    ensures t in s.free <==> s.place[t].Stack?
    ensures t in s.out <==> s.place[t] == Out
    ensures s.place[t].Queued? <==>
      exists loc :: LocIn(s.sent, s.chains, loc) && Pending(s.got, loc) && ItemAt(s.sent, s.chains, loc).slot == t
    ensures forall l1, l2 ::
      (LocIn(s.sent, s.chains, l1) && Pending(s.got, l1) && ItemAt(s.sent, s.chains, l1).slot == t
       && LocIn(s.sent, s.chains, l2) && Pending(s.got, l2) && ItemAt(s.sent, s.chains, l2).slot == t) ==> l1 == l2
    ensures s.pool.frames[t].state == StateOf(s.place[t])
  {
    hide FatesOk, Steered, InOrder, Counted, TablesOk, L.Sound;
    assert PlaceOk(s.free, s.out, s.place[t], t, s.sent, s.got, s.chains);
  }

  /** No packet is lost or doubled: each one submitted was dropped, or stands at exactly one
      position of one queue or chain; and the counters add up. */
  lemma PacketsAccounted(s: State, id: nat)
    requires Inv(s) && id < |s.log|
    ensures s.fate[id] == Dropped <==> forall loc ::
      LocIn(s.sent, s.chains, loc) ==> ItemAt(s.sent, s.chains, loc).id != id
    ensures forall l1, l2 ::
      (LocIn(s.sent, s.chains, l1) && ItemAt(s.sent, s.chains, l1).id == id
       && LocIn(s.sent, s.chains, l2) && ItemAt(s.sent, s.chains, l2).id == id) ==> l1 == l2
    ensures |s.log| == s.drops + Sum(s.got) + (Total(s.sent) - Sum(s.got)) + Total(s.chains)
    ensures |s.free| + |s.out| + (Total(s.sent) - Sum(s.got)) + Total(s.chains) == SLOTS
  {
    hide PlacesOk, Steered, InOrder, TablesOk, PoolOk;
    if s.fate[id] != Dropped {
      assert LocIn(s.sent, s.chains, s.fate[id].loc);
    }
  }

  /** A ring never holds more than there are slots, an entry never more than eight packets,
      and packets that wait for their first fragment never use the last 32 slots. */
  lemma BoundsHold(s: State)
    requires Inv(s)
    ensures forall w :: 0 <= w < s.workers ==> 0 <= |s.sent[w]| - s.got[w] <= SLOTS
    ensures forall e :: 0 <= e < ENTRIES ==> |s.chains[e]| <= CHAIN_LIMIT
    ensures Total(s.chains) <= SLOTS - RESERVE
  {
    hide FatesOk, Steered, InOrder, PoolOk;
    SentCoversTaken(s);
    assert forall e :: 0 <= e < ENTRIES ==> EntryOk(s.workers, s.entries[e], s.chains[e]);
  }

  /** The packet at position k of worker w's history. */
  ghost predicate SentPacket(s: State, w: nat, k: nat, p: FlowPacket)
    requires Inv(s)
  {
    w < |s.sent| && k < |s.sent[w]| && s.sent[w][k].id < |s.log| && s.log[s.sent[w][k].id] == Some(p)
  }

  /** Whole packets of one flow, in both directions since the hash does not tell them apart,
      are queued for one worker, and in the order in which they were submitted. */
  lemma FlowKeepsWorkerAndOrder(s: State, w: nat, k: nat, p: FlowPacket, v: nat, l: nat, q: FlowPacket)
    requires Inv(s) && SentPacket(s, w, k, p) && SentPacket(s, v, l, q)
    requires p.transport && q.transport && Bucket(p) == Bucket(q)
    requires Leading(p) && Leading(q)
    ensures w == v
    ensures !p.fragmented && !q.fragmented ==> (k < l <==> s.sent[w][k].id < s.sent[w][l].id)
  {
    hide PlacesOk, PoolOk, FatesOk, Counted;
    assert LocIn(s.sent, s.chains, Ring(w, k)) && LocIn(s.sent, s.chains, Ring(v, l));
  }

  lemma TransportLeads(p: seq<Byte>)
    ensures Parse(p, false).Some? && Parse(p, false).value.transport ==> Leading(Parse(p, false).value)
  {
    hide HeadOf, Ends, Quoted, FlowKey, Hash, FragmentKey;
  }

  /** A packet with ports or an echo identifier and its mirror image go to one worker. */
  lemma MirrorSharesWorker(s: State, p: seq<Byte>, h: Head, w: nat, k: nat, v: nat, l: nat)
    requires HeadOf(p, false) == Some(h) && Addressed(p, h) && h.fragment.first
    requires Inv(s) && Parse(p, false).Some? && Parse(Reversed(p, h), false).Some?
    requires SentPacket(s, w, k, Parse(p, false).value) && SentPacket(s, v, l, Parse(Reversed(p, h), false).value)
    ensures w == v
  {
    hide HeadOf, Parse, Reversed, Addressed, Inv;
    ReversedSharesFlow(p, h);
    TransportLeads(p);
    TransportLeads(Reversed(p, h));
    FlowKeepsWorkerAndOrder(s, w, k, Parse(p, false).value, v, l, Parse(Reversed(p, h), false).value);
  }

  /** An ICMP error goes to the worker of the packets it quotes. */
  lemma ErrorSharesWorker(s: State, e: seq<Byte>, he: Head, p: seq<Byte>, h: Head, m: nat, w: nat, k: nat, v: nat, l: nat)
    requires HeadOf(e, false) == Some(he) && he.fragment.first
    requires (he.proto == 1 || he.proto == 58) && he.off + 8 <= he.n && IsError(he.proto, e[he.off])
    requires HeadOf(p, false) == Some(h) && !h.fragment.fragmented && h.fragment.first
    requires h.off <= m <= |p| && Addressed(p[..m], h.(n := m)) && e[he.off + 8..he.n] == p[..m]
    requires Inv(s) && Parse(e, false).Some? && Parse(p, false).Some?
    requires SentPacket(s, w, k, Parse(p, false).value) && SentPacket(s, v, l, Parse(e, false).value)
    ensures w == v
  {
    hide HeadOf, Parse, Addressed, Inv;
    QuoteSharesFlow(p, m, h);
    ErrorFollowsFlow(e, he, p, h, m);
    TransportLeads(p);
    TransportLeads(e);
    FlowKeepsWorkerAndOrder(s, w, k, Parse(p, false).value, v, l, Parse(e, false).value);
  }

  /** All fragments of one datagram are queued for one worker, the one of its flow. */
  lemma DatagramKeepsWorker(s: State, w: nat, k: nat, p: FlowPacket, v: nat, l: nat, q: FlowPacket)
    requires Inv(s) && SentPacket(s, w, k, p) && SentPacket(s, v, l, q)
    requires p.fragmented && q.fragmented && EntryOf(p) == EntryOf(q)
    ensures w == v && p.fragmentKey == q.fragmentKey
    ensures p.first && p.transport ==> s.flow[Bucket(p)] == v + 1
  {
    hide PlacesOk, PoolOk, FatesOk, Counted;
    assert LocIn(s.sent, s.chains, Ring(w, k)) && LocIn(s.sent, s.chains, Ring(v, l));
  }
}
