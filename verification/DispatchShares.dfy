/** How flows are shared out: the k-th bucket that is met gets worker k modulo their number. */
module DispatchShares {
  import opened Bits
  import opened Wrappers
  import opened Lists
  import opened Flow
  import opened DispatchState
  import opened DispatchPlaces
  import opened DispatchSteps
  import opened DispatchRuns
  import opened DispatchTraces

  // ------------------------------------------------------------ one step

  /** A packet with ports or an echo identifier that is not empty. */
  predicate Meets(header: nat, e: Event) {
    e.SubmitEvent? && e.parsed.Some? && e.length > header && e.parsed.value.transport
  }

  /** The bucket it falls to. */
  function BucketMet(e: Event): (b: nat)
    requires e.SubmitEvent? && e.parsed.Some?
  {
    e.parsed.value.flowHash % 65536
  }

  lemma StoreFlow(s: State, length: nat, v: Verdict)
    requires |s.length| == |s.place| == SLOTS && s.header <= HEADROOM
    requires s.free != [] ==> s.free[|s.free| - 1] < SLOTS
    requires v.Hold? ==> v.entry < |s.chains|
    requires v.Send? ==> v.queue < |s.sent| && (v.flush.Some? ==> v.flush.value < |s.chains|)
    ensures var t := Store(s, length, v); t.flow == s.flow && t.nextQueue == s.nextQueue
  {
  }

  lemma DecidedFlow(s: State, p: FlowPacket, now: nat)
    requires Inv(s)
    ensures |s.flow| == BUCKETS && s.workers > 0
    ensures var (t, b) := (Decided(s, p, now).0, BindFlow(s, p));
            t.flow == b.flow && t.nextQueue == b.nextQueue
  {
    hide PlacesOk, FatesOk, Steered, InOrder, Counted, PoolOk, EntryOk, Judge;
    LogKeeps(s, Some(p));
    BindKeeps(s.(log := s.log + [Some(p)]), p);
  }

  lemma SubmitFlow(s: State, parsed: Option<FlowPacket>, length: int, now: nat)
    requires Inv(s) && length + HEADROOM - s.header <= CAPACITY
    ensures |s.flow| == BUCKETS && s.workers > 0
    ensures var (t, b) := (Submit(s, parsed, length, now),
                           if parsed.Some? && length > s.header then BindFlow(s, parsed.value) else s);
            t.flow == b.flow && t.nextQueue == b.nextQueue
  {
    hide Inv, Core, Decided, VerdictOk, Store, BindFlow;
    FlowShape(s);
    if parsed.Some? && length > s.header {
      var (t, v) := Decided(s, parsed.value, now);
      SubmitStores(s, parsed.value, length, now);
      DecidedFlow(s, parsed.value, now);
      InvHeader(s);
      StoreFlow(t, length, v);
    } else {
      assert Submit(s, parsed, length, now) == Drop(s.(log := s.log + [None]));
    }
  }

  lemma FlowShape(s: State)
    requires Inv(s)
    ensures |s.flow| == BUCKETS && s.workers > 0
  {
    hide PlacesOk, FatesOk, Steered, InOrder, Counted, PoolOk, EntryOk;
  }

  lemma {:induction false} ExpireFlow(s: State, now: nat, n: nat)
    requires Inv(s) && n <= ENTRIES
    ensures |s.entries| == |s.chains| == ENTRIES && |s.pool.frames| == |s.place|
    ensures var t := Expire(s, now, n); t.flow == s.flow && t.nextQueue == s.nextQueue
  {
    hide Inv, Retire;
    ExpireKeeps(s, now, n);
    if n > 0 {
      ExpireFlow(s, now, n - 1);
      ExpireKeeps(s, now, n - 1);
      var t := Expire(s, now, n - 1);
      if Overdue(t.entries[n - 1], now) {
        RetireFlow(t, n - 1);
      }
    }
  }

  lemma RetireFlow(s: State, e: nat)
    requires e < |s.entries| == |s.chains| && |s.pool.frames| == |s.place|
    ensures var t := Retire(s, e); t.flow == s.flow && t.nextQueue == s.nextQueue
  {
  }

  /** The flow table changes when a packet meets a bucket that has no worker yet, and only there. */
  ghost predicate Binds(s: State, e: Event, t: State) {
    && |s.flow| == |t.flow| == 65536 && t.workers == s.workers > 0 && t.header == s.header
    && if Meets(s.header, e) && s.flow[BucketMet(e)] == 0
       then t.nextQueue == (s.nextQueue + 1) % 0x1_0000_0000 && t.flow[BucketMet(e)] == 1 + s.nextQueue % s.workers
            && forall b :: 0 <= b < 65536 && b != BucketMet(e) ==> t.flow[b] == s.flow[b]
       else t.nextQueue == s.nextQueue && t.flow == s.flow
  }

  lemma StepBinds(s: State, e: Event)
    requires Inv(s) && Legal(s, e)
    ensures Binds(s, e, Step(s, e))
  {
    hide Inv, Submit, Expire, Take, Release, Stop, Grows;
    FlowShape(s);
    StepGrows(s, e);
    SameShape(s, Step(s, e));
    match e
    case SubmitEvent(p, length, now) => SubmitFlow(s, p, length, now);
    case TakeEvent(w) => TakeKeeps(s, w); TakeFlow(s, w);
    case ReleaseEvent(slot) => ReleaseKeeps(s, slot); ReleaseFlow(s, slot);
    case ExpireEvent(now) => ExpireKeeps(s, now, ENTRIES); ExpireFlow(s, now, ENTRIES);
    case StopEvent => StopFlow(s);
  }

  lemma SameShape(s: State, t: State)
    requires Grows(s, t)
    ensures t.workers == s.workers && t.header == s.header
  {
  }

  lemma TakeFlow(s: State, w: nat)
    requires w < |s.sent| == |s.got|
    requires s.got[w] < |s.sent[w]| ==> s.sent[w][s.got[w]].slot < |s.place|
    ensures Take(s, w).0.flow == s.flow && Take(s, w).0.nextQueue == s.nextQueue
  {
  }

  lemma ReleaseFlow(s: State, slot: nat)
    requires slot < |s.place|
    ensures Release(s, slot).flow == s.flow && Release(s, slot).nextQueue == s.nextQueue
  {
  }

  lemma StopFlow(s: State)
    ensures Stop(s).flow == s.flow && Stop(s).nextQueue == s.nextQueue
  {
  }

  // ------------------------------------------------------------ runs

  /** The buckets in the order in which they are first met. */
  ghost function FirstMet(header: nat, events: seq<Event>): (o: seq<nat>)
    ensures forall k :: 0 <= k < |o| ==> o[k] < 65536
    ensures forall k, l :: 0 <= k < l < |o| ==> o[k] != o[l]
  {
    if events == [] then []
    else
      var o, e := FirstMet(header, events[..|events| - 1]), events[|events| - 1];
      if Meets(header, e) && BucketMet(e) !in o then o + [BucketMet(e)] else o
  }

  /** The state of the flow table once the buckets of o have been met, in this order. */
  ghost predicate SharedOut(s: State, o: seq<nat>) {
    && |s.flow| == 65536 && s.workers > 0
    && s.nextQueue == |o| % 0x1_0000_0000
    && (forall b :: 0 <= b < 65536 ==> (s.flow[b] != 0 <==> b in o))
    && (forall k :: 0 <= k < |o| ==> o[k] < 65536 && s.flow[o[k]] == 1 + k % s.workers)
  }

  lemma {:induction false} NoMoreThan(o: seq<nat>, n: nat)
    requires forall k :: 0 <= k < |o| ==> o[k] < n
    requires forall k, l :: 0 <= k < l < |o| ==> o[k] != o[l]
    ensures |o| <= n
    decreases n
  {
    if o != [] {
      assert o[0] < n;
      if k :| 0 <= k < |o| && o[k] == n - 1 {
        NoMoreThan(o[..k] + o[k + 1..], n - 1);
      } else {
        NoMoreThan(o, n - 1);
      }
    }
  }

  lemma NextShare(flow: seq<nat>, o: seq<nat>, b: nat, turn: nat -> nat)
    requires b < |flow| && b !in o && forall k :: 0 <= k < |o| ==> o[k] < |flow| && flow[o[k]] == 1 + turn(k)
    ensures var (f, o') := (flow[b := 1 + turn(|o|)], o + [b]);
            forall k :: 0 <= k < |o'| ==> o'[k] < |f| && f[o'[k]] == 1 + turn(k)
  {
    var f, o' := flow[b := 1 + turn(|o|)], o + [b];
    forall k | 0 <= k < |o'| ensures o'[k] < |f| && f[o'[k]] == 1 + turn(k) {
      assert k < |o| ==> o[k] in o;
    }
  }

  lemma NextMet(flow: seq<nat>, o: seq<nat>, b: nat, v: nat)
    requires b < |flow| && v > 0 && forall c :: 0 <= c < |flow| ==> (flow[c] != 0 <==> c in o)
    ensures forall c :: 0 <= c < |flow| ==> (flow[b := v][c] != 0 <==> c in o + [b])
  {
  }

  lemma SharedStep(s: State, e: Event, t: State, header: nat, o: seq<nat>)
    requires SharedOut(s, o) && Binds(s, e, t) && s.header == header && |o| <= 65536
    ensures SharedOut(t, if Meets(header, e) && BucketMet(e) !in o then o + [BucketMet(e)] else o)
  {
    if Meets(header, e) && BucketMet(e) !in o {
      var b := BucketMet(e);
      assert s.flow[b] == 0;
      assert t.flow == s.flow[b := 1 + |o| % s.workers];
      NextMet(s.flow, o, b, 1 + |o| % s.workers);
      NextShare(s.flow, o, b, (k: nat) => k % s.workers);
    }
  }

  /** In every run from the start, a bucket has a worker exactly if a packet has met it, and the
      k-th bucket to be met has worker k modulo the number of workers. */
  lemma {:induction false} RunSharesOut(states: seq<State>, events: seq<Event>, n: nat, workers: nat, header: nat)
    requires 0 < workers <= MAX_WORKERS && header <= HEADROOM
    requires IsRun(states, events) && n <= |events| && states[0] == Start(workers, header)
    ensures states[n].workers == workers && states[n].header == header
    ensures SharedOut(states[n], FirstMet(header, events[..n]))
    decreases n
  {
    hide Inv, Step, Start, SharedOut, Legal, Binds;
    if n == 0 {
      StartShared(workers, header);
    } else {
      RunSharesOut(states, events, n - 1, workers, header);
      RunKeepsInv(states, events, n - 1);
      assert Follows(states[n - 1], events[n - 1], states[n]);
      StepBinds(states[n - 1], events[n - 1]);
      BindsShape(states[n - 1], events[n - 1], states[n]);
      assert events[..n][..n - 1] == events[..n - 1];
      var o := FirstMet(header, events[..n - 1]);
      NoMoreThan(o, 65536);
      SharedStep(states[n - 1], events[n - 1], states[n], header, o);
    }
  }

  lemma BindsShape(s: State, e: Event, t: State)
    requires Binds(s, e, t)
    ensures t.workers == s.workers && t.header == s.header
  {
  }

  lemma StartShared(workers: nat, header: nat)
    requires 0 < workers <= MAX_WORKERS && header <= HEADROOM
    ensures var s := Start(workers, header); s.workers == workers && s.header == header && SharedOut(s, [])
  {
  }

  // ------------------------------------------------------------ what that means

  /** A packet with ports is queued for the worker whose turn it was when its bucket was first
      met, and one that has neither ports nor an echo identifier for worker 0. */
  lemma QueuedByTurn(s: State, o: seq<nat>, w: nat, k: nat, p: FlowPacket)
    requires Inv(s) && SharedOut(s, o) && SentPacket(s, w, k, p) && Leading(p)
    ensures p.transport ==> exists i :: 0 <= i < |o| && o[i] == p.flowHash % 65536 && w == i % s.workers
    ensures !p.transport ==> w == 0
  {
    hide PlacesOk, PoolOk, FatesOk, Counted, InOrder;
    assert LocIn(s.sent, s.chains, Ring(w, k));
  }

  /** The buckets of worker w. */
  ghost function ShareOf(s: State, w: nat): (r: set<nat>)
    requires |s.flow| == 65536
  {
    set b | 0 <= b < 65536 && s.flow[b] == w + 1
  }

  function TurnAt(k: nat, workers: nat): (w: nat)
    requires workers > 0
  {
    k % workers
  }

  /** How many of n turns are worker w's. */
  function Turns(n: nat, workers: nat, w: nat): (r: nat)
    requires workers > 0
  {
    if n == 0 then 0 else Turns(n - 1, workers, w) + if TurnAt(n - 1, workers) == w then 1 else 0
  }

  ghost function FirstOf(s: State, o: seq<nat>, n: nat, w: nat): (r: set<nat>)
    requires |s.flow| == 65536 && n <= |o|
  {
    set b | b in o[..n] && b < 65536 && s.flow[b] == w + 1
  }

  lemma {:induction false} SharesAreTurns(s: State, o: seq<nat>, n: nat, w: nat)
    requires |s.flow| == 65536 && s.workers > 0 && n <= |o| && forall k, l :: 0 <= k < l < |o| ==> o[k] != o[l]
    requires forall k :: 0 <= k < |o| ==> o[k] < 65536 && s.flow[o[k]] == 1 + TurnAt(k, s.workers)
    ensures |FirstOf(s, o, n, w)| == Turns(n, s.workers, w)
  {
    hide TurnAt;
    if n == 0 {
      assert FirstOf(s, o, 0, w) == {};
    } else {
      SharesAreTurns(s, o, n - 1, w);
      var b := o[n - 1];
      var before, after := FirstOf(s, o, n - 1, w), FirstOf(s, o, n, w);
      assert forall x :: x in o[..n] <==> x in o[..n - 1] || x == b;
      assert b !in before;
      assert after == if s.flow[b] == w + 1 then before + {b} else before;
    }
  }

  lemma NextTurn(n: nat, workers: nat)
    requires workers > 0
    ensures TurnAt(n, workers) < workers
    ensures TurnAt(n + 1, workers) == if TurnAt(n, workers) + 1 == workers then 0 else TurnAt(n, workers) + 1
  {
    var q, r := n / workers, n % workers;
    assert n == workers * q + r;
    if r + 1 == workers {
      assert n + 1 == workers * (q + 1) + 0;
      DivModIs(n + 1, workers, q + 1, 0);
    } else {
      DivModIs(n + 1, workers, q, r + 1);
    }
  }

  lemma FirstTurn(workers: nat)
    requires workers > 0
    ensures TurnAt(0, workers) == 0
  {
  }

  lemma {:induction false} TurnsAreFair(n: nat, workers: nat) returns (q: nat)
    requires workers > 0
    ensures forall w :: 0 <= w < workers ==> Turns(n, workers, w) == q + if w < TurnAt(n, workers) then 1 else 0
  {
    hide TurnAt;
    if n == 0 {
      q := 0;
      FirstTurn(workers);
    } else {
      q := TurnsAreFair(n - 1, workers);
      NextTurn(n - 1, workers);
      q := if TurnAt(n, workers) == 0 then q + 1 else q;
    }
  }

  /** In every run from the start, the numbers of buckets of any two workers differ by at most one. */
  lemma SharesAreFair(states: seq<State>, events: seq<Event>, n: nat, workers: nat, header: nat, v: nat, w: nat)
    requires 0 < workers <= MAX_WORKERS && header <= HEADROOM && v < workers && w < workers
    requires IsRun(states, events) && n <= |events| && states[0] == Start(workers, header)
    ensures |states[n].flow| == 65536
    ensures |ShareOf(states[n], v)| <= |ShareOf(states[n], w)| + 1
  {
    hide Inv, Start;
    RunSharesOut(states, events, n, workers, header);
    var s, o := states[n], FirstMet(header, events[..n]);
    SharesAreTurns(s, o, |o|, v);
    SharesAreTurns(s, o, |o|, w);
    assert o[..|o|] == o;
    assert ShareOf(s, v) == FirstOf(s, o, |o|, v);
    assert ShareOf(s, w) == FirstOf(s, o, |o|, w);
    var q := TurnsAreFair(|o|, workers);
  }
}
