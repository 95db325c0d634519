/** The dispatcher as the program keeps it: a stack of free slots, a ring for each worker,
    fragments held in linked chains, and the frames themselves. Each method is one lock
    region, proved to take the step of the same name in DispatchRuns. */
module DispatchTable {
  import opened Wrappers
  import opened Lists
  import opened Checksum
  import opened Flow
  import opened DispatchState
  import opened DispatchPlaces
  import opened DispatchSteps
  import opened DispatchRuns
  import opened DispatchRings
  import opened DispatchLinks
  import opened FramePool
  import L = FrameLifetime

  /** The token kept for a slot in use is its frame's present one. */
  ghost predicate TokensMatch(tokens: seq<L.Token>, place: seq<Place>, pool: L.Pool) {
    |tokens| == |place| == SLOTS && forall t :: 0 <= t < SLOTS && !place[t].Stack? ==> tokens[t] == TokenOf(pool, t)
  }

  lemma ChainsDistinct(s: State)
    requires PlacesOk(s.free, s.out, s.place, s.sent, s.got, s.chains)
    ensures SlotsDistinct(s.chains)
    ensures forall t :: 0 <= t < SLOTS && !s.place[t].Queued? ==> NotHeld(s.chains, t)
  {
    forall e, j | 0 <= e < |s.chains| && 0 <= j < |s.chains[e]|
      ensures s.chains[e][j].slot < SLOTS && s.place[s.chains[e][j].slot] == Queued(Chain(e, j))
    {
      assert LocIn(s.sent, s.chains, Chain(e, j));
    }
  }

  /** How many frames from i on are in use. */
  ghost function BusyFrom(frames: seq<L.Frame>, i: nat): (n: nat)
    requires i <= |frames|
    ensures n <= |frames| - i
    decreases |frames| - i
  {
    if i == |frames| then 0 else (if frames[i].state == L.Free then 0 else 1) + BusyFrom(frames, i + 1)
  }

  lemma HeadIsListed(s: seq<nat>)
    ensures s == [] || s[0] in s
  {
  }

  lemma {:induction false} FreeAndBusy(frames: seq<L.Frame>, free: seq<nat>, i: nat)
    requires i <= |frames| && NoDup(free)
    requires forall t :: t in free <==> i <= t < |frames| && frames[t].state == L.Free
    ensures |free| + BusyFrom(frames, i) == |frames| - i
    decreases |frames| - i
  {
    if i == |frames| {
      HeadIsListed(free);
    } else if frames[i].state == L.Free {
      RemoveNoDup(free, i);
      FreeAndBusy(frames, Remove(free, i), i + 1);
    } else {
      FreeAndBusy(frames, free, i + 1);
    }
  }

  /** Every slot that is not on the free stack has a frame in use, and nothing else has. */
  lemma BusyIsRest(s: State)
    requires Inv(s)
    ensures |s.pool.frames| == SLOTS && |s.free| + BusyFrom(s.pool.frames, 0) == SLOTS
    ensures |s.free| + |s.out| + (Total(s.sent) - Sum(s.got)) + Total(s.chains) == SLOTS
    ensures |s.log| == s.drops + Total(s.sent) + Total(s.chains)
  {
    hide FatesOk, Steered, InOrder, TablesOk, BusyFrom, Remove, L.Sound, Total, Sum;
    forall t ensures t in s.free <==> 0 <= t < SLOTS && s.pool.frames[t].state == L.Free {
      if 0 <= t < SLOTS {
        assert PlaceOk(s.free, s.out, s.place[t], t, s.sent, s.got, s.chains);
      }
    }
    FreeAndBusy(s.pool.frames, s.free, 0);
  }

  lemma NoneBusyAtEnd(frames: seq<L.Frame>)
    ensures BusyFrom(frames, |frames|) == 0
  {
  }

  lemma FreeAllNone(p: L.Pool)
    ensures L.FreeAll(p, 0) == p
  {
  }

  lemma InvPool(s: State)
    requires Inv(s)
    ensures L.Sound(s.pool) && |s.pool.frames| == SLOTS && s.pool.stopping == s.stopped
    ensures forall t :: 0 <= t < SLOTS ==> !L.WithKernel(s.pool.frames[t])
  {
    hide PlacesOk, FatesOk, Steered, InOrder, Counted, TablesOk, L.Sound;
  }

  lemma FreeAllNext(s: State, kept: seq<L.Token>, i: nat)
    requires Inv(s) && TokensMatch(kept, s.place, s.pool) && i < SLOTS
    ensures |s.pool.frames| == SLOTS
    ensures var q := L.FreeAll(s.pool, i);
      && |q.frames| == SLOTS && q.frames[i] == s.pool.frames[i]
      && L.FreeAll(s.pool, i + 1) ==
         (if s.pool.frames[i].state == L.Free then q else L.Transition(q, kept[i], L.Free).0)
    ensures BusyFrom(s.pool.frames, i) ==
      (if s.pool.frames[i].state == L.Free then 0 else 1) + BusyFrom(s.pool.frames, i + 1)
  {
    hide PlacesOk, FatesOk, Steered, InOrder, Counted, TablesOk, L.Transition;
    assert forall t :: 0 <= t < SLOTS ==> L.SoundFrame(s.pool.closed, s.pool.frames[t]);
    L.FreeAllFrees(s.pool, i);
  }

  /** The frames once those of the chain's slots have been freed, one after the other. */
  ghost function FreeItems(frames: seq<L.Frame>, chain: seq<Item>): (r: seq<L.Frame>)
    requires forall k :: 0 <= k < |chain| ==> chain[k].slot < |frames|
    ensures |r| == |frames|
  {
    if chain == [] then frames
    else
      var n := |chain| - 1;
      var r := FreeItems(frames, chain[..n]);
      r[chain[n].slot := L.Enter(r[chain[n].slot], L.Free)]
  }

  /** A frame is freed once if its slot is in the chain, and untouched if not. */
  lemma FreeItemsStep(frames: seq<L.Frame>, chain: seq<Item>)
    requires chain != [] && forall k :: 0 <= k < |chain| ==> chain[k].slot < |frames|
    ensures var (n, slot) := (|chain| - 1, chain[|chain| - 1].slot);
      && (forall k :: 0 <= k < n ==> chain[..n][k] == chain[k])
      && FreeItems(frames, chain) ==
         FreeItems(frames, chain[..n])[slot := L.Enter(FreeItems(frames, chain[..n])[slot], L.Free)]
  {
  }

  lemma {:induction false} FreeItemsAt(frames: seq<L.Frame>, chain: seq<Item>, t: nat)
    requires forall k :: 0 <= k < |chain| ==> chain[k].slot < |frames|
    requires forall j, k :: 0 <= j < |chain| && 0 <= k < |chain| && chain[j].slot == chain[k].slot ==> j == k
    requires t < |frames|
    ensures (forall k :: 0 <= k < |chain| ==> chain[k].slot != t) ==> FreeItems(frames, chain)[t] == frames[t]
    ensures (exists k :: 0 <= k < |chain| && chain[k].slot == t) ==>
      FreeItems(frames, chain)[t] == L.Enter(frames[t], L.Free)
  {
    if chain == [] {
    } else {
      hide FreeItems, L.Enter;
      var n := |chain| - 1;
      FreeItemsStep(frames, chain);
      FreeItemsAt(frames, chain[..n], t);
      if k :| 0 <= k < |chain| && chain[k].slot == t {
        if k < n {
          assert chain[..n][k].slot == t && chain[n].slot != t;
        } else {
          assert forall j :: 0 <= j < n ==> chain[..n][j].slot != t;
        }
      }
    }
  }

  lemma FreeItemsIsFreeChain(s: State, e: nat)
    requires PlacesOk(s.free, s.out, s.place, s.sent, s.got, s.chains) && e < |s.chains| && |s.pool.frames| == SLOTS
    ensures forall k :: 0 <= k < |s.chains[e]| ==> s.chains[e][k].slot < SLOTS
    ensures FreeItems(s.pool.frames, s.chains[e]) == FreeChain(s.pool.frames, s.place, e)
  {
    ChainsDistinct(s);
    var chain, r := s.chains[e], FreeItems(s.pool.frames, s.chains[e]);
    forall t | 0 <= t < SLOTS ensures r[t] == FreeChain(s.pool.frames, s.place, e)[t] {
      FreeItemsAt(s.pool.frames, chain, t);
      if InChain(s.place[t], e) {
        assert PlaceOk(s.free, s.out, s.place[t], t, s.sent, s.got, s.chains);
        assert chain[s.place[t].loc.pos].slot == t;
      } else {
        forall k | 0 <= k < |chain| ensures chain[k].slot != t {
          assert LocIn(s.sent, s.chains, Chain(e, k));
        }
      }
    }
  }

  /** The k-th frame of the chain can still be freed after those before it. */
  lemma NextIsFreed(s: State, kept: seq<L.Token>, e: nat, k: nat)
    requires Inv(s) && e < |s.chains| && k < |s.chains[e]| && TokensMatch(kept, s.place, s.pool)
    ensures |s.pool.frames| == SLOTS && forall j :: 0 <= j < |s.chains[e]| ==> s.chains[e][j].slot < SLOTS
    ensures var (chain, slot) := (s.chains[e], s.chains[e][k].slot);
      L.Transition(s.pool.(frames := FreeItems(s.pool.frames, chain[..k])), kept[slot], L.Free).0
      == s.pool.(frames := FreeItems(s.pool.frames, chain[..k + 1]))
  {
    hide FatesOk, Steered, InOrder, Counted, TablesOk;
    ChainsDistinct(s);
    var chain, slot := s.chains[e], s.chains[e][k].slot;
    assert LocIn(s.sent, s.chains, Chain(e, k));
    assert s.place[slot] == Queued(Chain(e, k));
    assert L.SoundFrame(s.pool.closed, s.pool.frames[slot]);
    hide L.Sound, PlacesOk;
    assert forall j :: 0 <= j < k ==> chain[..k][j] == chain[j];
    FreeItemsAt(s.pool.frames, chain[..k], slot);
    assert chain[..k + 1][..k] == chain[..k];
  }

  lemma NothingFreed(frames: seq<L.Frame>, chain: seq<Item>)
    ensures FreeItems(frames, chain[..0]) == frames && SlotsOf(chain[..0]) == []
  {
  }

  lemma SlotsOfGrows(chain: seq<Item>, k: nat)
    requires k < |chain|
    ensures SlotsOf(chain[..k + 1]) == SlotsOf(chain[..k]) + [chain[k].slot]
  {
    assert chain[..k + 1][..k] == chain[..k];
  }

  lemma RetiredTokens(s: State, kept: seq<L.Token>, e: nat)
    requires e < |s.entries| == |s.chains| && |s.pool.frames| == |s.place| && TokensMatch(kept, s.place, s.pool)
    ensures TokensMatch(kept, Retire(s, e).place, Retire(s, e).pool)
  {
  }

  lemma ExpireNone(s: State, now: nat)
    requires |s.entries| == |s.chains| && |s.pool.frames| == |s.place|
    ensures Expire(s, now, 0) == s
  {
  }

  lemma ExpireNext(s: State, now: nat, e: nat)
    requires Inv(s) && e < ENTRIES
    ensures |s.entries| == |s.chains| == ENTRIES && |s.pool.frames| == |s.place|
    ensures var t := Expire(s, now, e);
      Expire(s, now, e + 1) == if Overdue(t.entries[e], now) then Retire(t, e) else t
  {
    hide PlacesOk, FatesOk, Steered, InOrder, Counted, EntryOk, L.Sound, Retire;
    ExpireKeeps(s, now, e);
  }

  lemma RetireFits(s: State, e: nat)
    requires Inv(s) && e < ENTRIES
    ensures e < |s.entries| == |s.chains| && |s.free| + |s.chains[e]| <= SLOTS && |s.pool.frames| == |s.place| == SLOTS
  {
    hide FatesOk, Steered, InOrder, EntryOk, L.Sound;
    SentCoversTaken(s);
    PartOfTotal(s.chains, e);
  }

  lemma ClaimFields(s: State, len: nat)
    requires s.free != [] && |s.length| == |s.place| == SLOTS && s.free[|s.free| - 1] < SLOTS && s.header <= HEADROOM
    ensures var (t, slot) := (Claim(s, len), s.free[|s.free| - 1]);
      && t == s.(free := t.free, pool := t.pool, length := t.length)
      && t.free == s.free[..|s.free| - 1] && t.length == s.length[slot := len]
      && t.pool == L.Fill(L.Acquire(s.pool, slot).0, TokenOf(L.Acquire(s.pool, slot).0, slot), len + HEADROOM - s.header)
  {
    hide L.Acquire, L.Fill;
  }

  lemma ClaimedTokens(s: State, kept: seq<L.Token>, slot: nat, len: nat)
    requires |s.length| == |s.place| == SLOTS && s.header <= HEADROOM
    requires s.free != [] && s.free[|s.free| - 1] == slot < SLOTS && s.place[slot].Stack?
    requires L.Acquire(s.pool, slot).1 == L.Done && TokensMatch(kept, s.place, s.pool)
    ensures TokensMatch(kept[slot := TokenOf(Claim(s, len).pool, slot)], s.place, Claim(s, len).pool)
  {
  }

  lemma QueueGrows(sent: ItemLists, q: nat, chain: seq<Item>, k: nat)
    requires q < |sent| && k < |chain|
    ensures var now := sent[q := sent[q] + chain[..k]];
      now[q := now[q] + [chain[k]]] == sent[q := sent[q] + chain[..k + 1]]
  {
    assert chain[..k + 1] == chain[..k] + [chain[k]];
    assert sent[q] + chain[..k] + [chain[k]] == sent[q] + chain[..k + 1];
  }

  lemma HoldNeedsUsed(s: State, p: FlowPacket, e: nat)
    requires |s.flow| == BUCKETS && |s.entries| == |s.chains| == ENTRIES && VerdictOk(s, p, Hold(e))
    ensures e < ENTRIES && s.entries[e].used
  {
  }

  lemma FlushFields(s: State, e: nat, q: nat)
    requires q < |s.sent| && e < |s.chains|
    ensures var t := Flush(s, e, q);
      && t == s.(sent := t.sent, chains := t.chains, place := t.place, fate := t.fate)
      && t.sent == s.sent[q := s.sent[q] + s.chains[e]] && t.chains == s.chains[e := []]
  {
  }

  lemma MovedTokens(s: State, kept: seq<L.Token>, e: nat, q: nat)
    requires q < |s.sent| && e < |s.chains| && TokensMatch(kept, s.place, s.pool)
    ensures TokensMatch(kept, Flush(s, e, q).place, Flush(s, e, q).pool)
  {
  }

  /** While a slot is free no ring is full. */
  lemma RingRoom(s: State)
    requires Core(s) && s.free != []
    ensures forall q :: 0 <= q < s.workers ==> |s.sent[q]| < s.got[q] + SLOTS
    ensures |s.got| == |s.sent| == s.workers
  {
    hide FatesOk, Steered, InOrder, PoolOk, EntryOk;
    SentCoversTaken(s);
  }

  /** The chain fits behind the queue: both are made of slots, and there are no more than a ring holds. */
  lemma FlushFits(s: State, e: nat, q: nat)
    requires Inv(s) && e < ENTRIES && q < s.workers
    ensures q < |s.sent| == |s.got| && e < |s.chains| == |s.entries|
    ensures |s.sent[q]| + |s.chains[e]| <= s.got[q] + SLOTS
  {
    hide FatesOk, Steered, InOrder, PoolOk, EntryOk;
    SentCoversTaken(s);
    PartOfTotal(s.chains, e);
  }

  lemma StartFacts(workers: nat, header: nat)
    requires 0 < workers <= MAX_WORKERS && header <= HEADROOM
    ensures var s := Start(workers, header);
      && s.workers == workers && s.header == header && !s.stopped && s.nextQueue == 0 && s.drops == 0
      && |s.free| == SLOTS && (forall i :: 0 <= i < SLOTS ==> s.free[i] == i)
      && |s.flow| == BUCKETS && (forall i :: 0 <= i < BUCKETS ==> s.flow[i] == 0)
      && |s.entries| == |s.chains| == ENTRIES
      && (forall e :: 0 <= e < ENTRIES ==> s.entries[e] == Entry(false, Zeros(40), Unresolved, 0, 0) && s.chains[e] == [])
      && |s.sent| == |s.got| == workers && (forall w :: 0 <= w < workers ==> s.sent[w] == [] && s.got[w] == 0)
      && |s.place| == |s.length| == SLOTS && (forall t :: 0 <= t < SLOTS ==> s.place[t].Stack? && s.length[t] == 0)
      && s.pool.identity == 1 && !s.pool.stopping && !s.pool.closed && |s.pool.frames| == SLOTS
      && (forall t :: 0 <= t < SLOTS ==> s.pool.frames[t] == L.Frame(CAPACITY, 0, 0, 0, L.Free))
  {
  }

  class Dispatch {
    const workers: nat
    const header: nat
    const freeSlots: array<nat>
    const flowQueues: array<nat>
    const rings: Rings
    const links: Links
    const pool: Frames
    var length: seq<int>
    var tokens: seq<L.Token>
    var freeCount: nat
    var nextQueue: nat
    var stopping: bool
    var drops: nat
    var lastExpire: nat
    ghost var s: State

    ghost predicate Shapes() {
      && freeSlots.Length == pool.frame.Length == SLOTS
      && flowQueues.Length == BUCKETS && links.fragments.Length == ENTRIES && links.next.Length == SLOTS
      && rings.Shape() && rings.workers == workers
      && 0 < workers <= MAX_WORKERS && header <= HEADROOM
    }

    ghost predicate PlainRep()
      requires Shapes()
      reads this, freeSlots, flowQueues, pool, pool.frame
    {
      && s.workers == workers && s.header == header && s.stopped == stopping
      && freeCount <= SLOTS && freeSlots[..freeCount] == s.free
      && flowQueues[..] == s.flow && nextQueue == s.nextQueue
      && length == s.length && pool.Value() == s.pool && drops == s.drops
    }

    ghost predicate Rep()
      reads this, freeSlots, flowQueues, pool, pool.frame
      reads rings.head, rings.tail, rings.count, rings.queues, links.fragments, links.next
    {
      && Shapes() && PlainRep()
      && rings.Hold(s.sent, s.got) && links.Hold(s.entries, s.chains) && TokensMatch(tokens, s.place, s.pool)
    }

    ghost predicate Valid()
      reads this, freeSlots, flowQueues, pool, pool.frame
      reads rings.head, rings.tail, rings.count, rings.queues, links.fragments, links.next
    {
      Rep() && Inv(s)
    }

    lemma StartRep(n: nat)
      requires Shapes() && n == workers && s == Start(n, header)
      requires freeCount == SLOTS && nextQueue == drops == 0 && !stopping
      requires forall i :: 0 <= i < SLOTS ==> freeSlots[i] == i
      requires forall i :: 0 <= i < BUCKETS ==> flowQueues[i] == 0
      requires |length| == |tokens| == SLOTS && forall i :: 0 <= i < SLOTS ==> length[i] == 0
      requires forall i :: 0 <= i < SLOTS ==> pool.frame[i] == L.Frame(CAPACITY, 0, 0, 0, L.Free)
      requires !pool.stopping && !pool.backendClosed && pool.identity == 1
      requires forall w :: 0 <= w < MAX_WORKERS ==> rings.head[w] == 0
      requires forall w :: 0 <= w < MAX_WORKERS ==> rings.tail[w] == 0
      requires forall w :: 0 <= w < MAX_WORKERS ==> rings.count[w] == 0
      requires forall e :: 0 <= e < ENTRIES ==>
        links.fragments[e] == FragmentEntry(false, Zeros(40), Unresolved, 0, 0, 0, 0, 0)
      ensures Rep()
    {
      hide Start, AllHold, Zeros;
      StartFacts(n, header);
      assert freeSlots[..freeCount] == s.free;
      assert pool.frame[..] == s.pool.frames;
      assert flowQueues[..] == s.flow && length == s.length;
      links.StartHolds(s.entries, s.chains);
    }

    constructor (workerCount: nat, headerSize: nat)
      requires 0 < workerCount <= MAX_WORKERS && headerSize <= HEADROOM
      ensures Valid() && s == Start(workerCount, headerSize)
    {
      hide Inv, Start, L.Sound, L.AllFree, AllHold, Zeros, TokensMatch;
      workers, header := workerCount, headerSize;
      rings := new Rings(workerCount);
      links := new Links();
      pool := new Frames(seq(SLOTS, i => CAPACITY), 1);
      tokens := seq(SLOTS, _ => L.Token(0, 0, 0));
      flowQueues := new nat[BUCKETS](_ => 0);
      length := seq(SLOTS, _ => 0);
      freeSlots := new nat[SLOTS](i => i);
      freeCount, nextQueue, stopping, drops, lastExpire := SLOTS, 0, false, 0, 0;
      s := Start(workerCount, headerSize);
      new;
      StartRep(workerCount);
      StartInv(workerCount, headerSize);
    }

    /** The program refuses no workers and more than eight. */
    static method Init(workerCount: nat, headerSize: nat) returns (d: Dispatch?)
      requires headerSize <= HEADROOM
      ensures d == null <==> workerCount == 0 || workerCount > MAX_WORKERS
      ensures d != null ==> fresh(d) && d.Valid() && d.s == Start(workerCount, headerSize)
    {
      hide Inv, Start;
      if workerCount == 0 || workerCount > MAX_WORKERS { return null; }
      d := new Dispatch(workerCount, headerSize);
    }

    // ---------------------------------------------------------- one packet

    /** Put a claimed slot behind the queue of worker q. */
    method SendSlot(slot: nat, q: nat)
      requires Rep() && q < workers && slot < SLOTS && |s.sent[q]| < s.got[q] + SLOTS
      requires |tokens| == SLOTS && tokens[slot] == TokenOf(s.pool, slot)
      modifies this`s, rings.tail, rings.count, rings.queues
      ensures Rep() && s == Enqueue(old(s), slot, q)
    {
      hide AllHold;
      rings.Push(slot, q, s.sent, s.got, Item(slot, |s.fate|));
      s := Enqueue(s, slot, q);
    }

    /** Hold a claimed slot in entry e. */
    method HoldSlot(slot: nat, e: nat)
      requires Rep() && e < ENTRIES == |s.entries| == |s.chains| && slot < SLOTS && s.entries[e].used
      requires tokens[slot] == TokenOf(s.pool, slot) && links.next[slot] == -1
      requires NotHeld(s.chains, slot) && SlotsDistinct(s.chains)
      modifies this`s, links.fragments, links.next
      ensures Rep() && s == Append(old(s), slot, e)
    {
      hide AllHold, NotHeld, SlotsDistinct;
      links.Append(e, slot, s.entries, s.chains, Item(slot, |s.fate|));
      s := Append(s, slot, e);
    }

    /** Acquire slot's frame and state that len bytes are in it, behind the headroom. */
    method FillFrame(slot: nat, len: nat) returns (ok: bool, t: L.Token)
      requires Shapes() && pool.Value() == s.pool && slot < SLOTS && s.place != []
      requires PoolOk(s.pool, s.place, s.stopped) && s.place[slot].Stack? && len + HEADROOM - header <= CAPACITY
      modifies pool.frame
      ensures ok <==> L.Acquire(s.pool, slot).1 == L.Done
      ensures !ok ==> pool.Value() == s.pool
      ensures ok ==>
        pool.Value() == L.Fill(L.Acquire(s.pool, slot).0, TokenOf(L.Acquire(s.pool, slot).0, slot), len + HEADROOM - header)
      ensures ok ==> t == TokenOf(pool.Value(), slot)
    {
      hide L.Sound;
      var r;
      r, t := pool.Acquire(slot);
      if r != L.Done { return false, t; }
      pool.frame[slot] := pool.frame[slot].(length := len + HEADROOM - header);
      ghost var q := L.Acquire(s.pool, slot).0;
      assert pool.frame[..] == L.Fill(q, TokenOf(q, slot), len + HEADROOM - header).frames;
      return true, t;
    }

    /** Pop a slot and make it a received frame; on failure nothing has happened. */
    method ClaimSlot(len: nat) returns (ok: bool, slot: nat)
      requires Rep() && s.free != [] && PoolOk(s.pool, s.place, s.stopped) && len + HEADROOM - header <= CAPACITY
      requires s.free[|s.free| - 1] < SLOTS == |s.place| == |s.length| && s.place[s.free[|s.free| - 1]].Stack?
      requires NotHeld(s.chains, s.free[|s.free| - 1])
      modifies this`s, this`freeCount, this`length, this`tokens, pool.frame, links.next
      ensures Rep() && slot == old(s.free[|s.free| - 1])
      ensures ok <==> L.Acquire(old(s.pool), slot).1 == L.Done
      ensures !ok ==> s == old(s)
      ensures ok ==> s == Claim(old(s), len) && links.next[slot] == -1
      ensures ok ==> |tokens| == SLOTS && tokens[slot] == TokenOf(s.pool, slot)
    {
      hide PoolOk, NotHeld, TokensMatch, AllHold, L.Acquire, L.Fill, Claim;
      slot := freeSlots[freeCount - 1];
      var t;
      ok, t := FillFrame(slot, len);
      if ok {
        links.ClearLink(slot, s.entries, s.chains);
        NoteClaim(slot, len, t);
      }
    }

    /** The bookkeeping of a claimed slot. */
    method NoteClaim(slot: nat, len: nat, t: L.Token)
      requires Shapes() && s.workers == workers && s.header == header && s.stopped == stopping
      requires s.free != [] && s.free[|s.free| - 1] == slot < SLOTS == |s.place| == |s.length| && s.place[slot].Stack?
      requires freeCount <= SLOTS && freeSlots[..freeCount] == s.free
      requires flowQueues[..] == s.flow && nextQueue == s.nextQueue && length == s.length && drops == s.drops
      requires rings.Hold(s.sent, s.got) && links.Hold(s.entries, s.chains) && TokensMatch(tokens, s.place, s.pool)
      requires L.Acquire(s.pool, slot).1 == L.Done && t == TokenOf(pool.Value(), slot)
      requires pool.Value() ==
               L.Fill(L.Acquire(s.pool, slot).0, TokenOf(L.Acquire(s.pool, slot).0, slot), len + HEADROOM - header)
      modifies this`s, this`freeCount, this`length, this`tokens
      ensures Rep() && s == Claim(old(s), len)
      ensures |tokens| == SLOTS && tokens[slot] == TokenOf(s.pool, slot)
    {
      hide TokensMatch, AllHold, L.Acquire, L.Fill, Claim, TokenOf;
      assert |tokens| == SLOTS by { TokensLength(); }
      ClaimFields(s, len);
      ClaimedTokens(s, tokens, slot, len);
      freeCount, tokens, length, s := freeCount - 1, tokens[slot := t], length[slot := len], Claim(s, len);
    }

    lemma TokensLength()
      requires TokensMatch(tokens, s.place, s.pool)
      ensures |tokens| == |s.place| == SLOTS
    {
    }

    /** Queue everything entry e holds, first to last. */
    method FlushEntry(e: nat, q: nat)
      requires Valid() && e < ENTRIES == |s.entries| == |s.chains| && q < workers && s.entries[e].used
      modifies this`s, rings.tail, rings.count, rings.queues, links.fragments
      ensures Rep() && s == Flush(old(s), e, q)
    {
      hide Inv, AllHold, TokensMatch, Flush, EntryHolds;
      FlushFits(s, e, q);
      links.HoldAt(e, s.entries, s.chains);
      ghost var chain, sent := s.chains[e], s.sent;
      ghost var k := 0;
      var held := links.fragments[e].first;
      assert sent[q] + chain[..0] == sent[q];
      assert sent[q := sent[q] + chain[..0]] == sent;
      assert held == if 0 < |chain| then chain[0].slot else -1;
      hide Linked;
      while held >= 0
        invariant 0 <= k <= |chain| && held == if k < |chain| then chain[k].slot else -1
        invariant rings.Hold(sent[q := sent[q] + chain[..k]], s.got)
        modifies rings.tail, rings.count, rings.queues
        decreases |chain| - k
      {
        LinkedNext(links.fragments[e].first, links.fragments[e].last, chain, links.next[..], k);
        rings.Push(held, q, sent[q := sent[q] + chain[..k]], s.got, chain[k]);
        QueueGrows(sent, q, chain, k);
        held := links.next[held];
        k := k + 1;
      }
      assert chain[..k] == chain;
      links.Clear(e, links.fragments[e].resolved, s.entries, s.chains);
      assert s.entries[e := s.entries[e].(resolved := s.entries[e].resolved)] == s.entries;
      MovedTokens(s, tokens, e, q);
      FlushFields(s, e, q);
      s := Flush(s, e, q);
    }

    /** A claimed slot goes where the verdict sends it. */
    method PlaceSlot(slot: nat, v: Verdict, ghost before: State, ghost len: nat, ghost p: FlowPacket)
      requires Rep() && Ready(before, len) && slot == before.free[|before.free| - 1] && !v.Refuse?
      requires |before.log| == |before.fate| + 1 && before.log[|before.fate|] == Some(p) && VerdictOk(before, p, v)
      requires |before.place| == |before.length| == SLOTS
      requires s == Claim(before, len) && links.next[slot] == -1
      requires |tokens| == SLOTS && tokens[slot] == TokenOf(s.pool, slot)
      modifies this`s, links.next, links.fragments, rings.tail, rings.count, rings.queues
      ensures Rep()
      ensures slot < |old(s).place|
      ensures v.Hold? ==> v.entry < |old(s).chains| && s == Append(old(s), slot, v.entry)
      ensures v.Send? ==> v.queue < |old(s).sent|
      ensures v.Send? && v.flush == None ==> s == Enqueue(old(s), slot, v.queue)
      ensures v.Send? && v.flush.Some? ==> v.flush.value < |old(s).chains|
      ensures v.Send? && v.flush.Some? ==> s == Flush(Enqueue(old(s), slot, v.queue), v.flush.value, v.queue)
    {
      hide PlacesOk, FatesOk, InOrder, Steered, EntryOk, PoolOk, Counted, Right, AllHold, TokensMatch, L.Acquire;
      hide Claim, Append, Enqueue, Flush, NotHeld, SlotsDistinct, PlainRep;
      ClaimFields(before, len);
      match v {
        case Hold(e) =>
          TopIsStacked(before);
          ChainsDistinct(before);
          HoldNeedsUsed(before, p, e);
          HoldSlot(slot, e);
        case Send(q, flush) =>
          RingRoom(before);
          SendKeeps(before, len, q, p);
          EnqueueFrame(before, len, q);
          SendSlot(slot, q);
          if flush.Some? {
            FlushEntry(flush.value, q);
          }
      }
    }

    /** The packet goes where the verdict sends it, if a slot can be had. */
    method StoreFrame(len: nat, v: Verdict, ghost p: FlowPacket)
      requires Rep() && Core(s) && |s.log| == |s.fate| + 1 && s.log[|s.fate|] == Some(p) && VerdictOk(s, p, v)
      requires len + HEADROOM - header <= CAPACITY
      requires |s.length| == |s.place| == SLOTS && (s.free != [] ==> s.free[|s.free| - 1] < SLOTS)
      modifies this`s, this`freeCount, this`length, this`tokens, this`drops, pool.frame
      modifies links.next, links.fragments, rings.tail, rings.count, rings.queues
      ensures Rep() && s == Store(old(s), len, v)
    {
      hide PlacesOk, FatesOk, InOrder, Steered, EntryOk, PoolOk, Counted, Right, AllHold, TokensMatch, L.Acquire;
      hide Claim, Append, Enqueue, Flush, NotHeld, SlotsDistinct;
      if v.Refuse? || stopping || freeCount == 0 || (v.Hold? && freeCount <= RESERVE) {
        DropFrame();
        return;
      }
      TopIsStacked(s);
      ChainsDistinct(s);
      var ok, slot := ClaimSlot(len);
      if ok {
        PlaceSlot(slot, v, old(s), len, p);
      } else {
        DropFrame();
      }
    }

    method DropFrame()
      requires Rep()
      modifies this`s, this`drops
      ensures Rep() && s == Drop(old(s))
    {
      hide AllHold, TokensMatch;
      drops, s := drops + 1, Drop(s);
    }

    /** The worker of the packet's flow; a flow met for the first time gets the next one. */
    method BindQueue(p: FlowPacket) returns (queue: int)
      requires Rep() && |s.flow| == BUCKETS && s.workers > 0
      modifies this`s, this`nextQueue, flowQueues
      ensures Rep() && s == BindFlow(old(s), p) && queue == FlowQueue(s, p)
    {
      hide AllHold, TokensMatch;
      queue := 0;
      var bucket := p.flowHash % BUCKETS;
      if p.transport {
        if flowQueues[bucket] == 0 {
          flowQueues[bucket] := 1 + nextQueue % workers;
          nextQueue, s := (nextQueue + 1) % 0x1_0000_0000, BindFlow(s, p);
          assert flowQueues[..] == s.flow;
        }
        queue := flowQueues[bucket] - 1;
      }
    }

    method DecidePacket(p: FlowPacket, queue: nat, now: nat) returns (v: Verdict)
      requires Rep() && |s.flow| == BUCKETS && |s.entries| == |s.chains| == ENTRIES && queue == FlowQueue(s, p)
      requires !s.entries[EntryOf(p)].used ==> s.chains[EntryOf(p)] == []
      modifies this`s, links.fragments
      ensures Rep() && (s, v) == Decide(old(s), p, now)
    {
      hide AllHold, TokensMatch, Judge;
      v := Send(queue, None);
      if p.fragmented {
        v := links.JudgeFragment(EntryOf(p), p, queue, now, s.entries, s.chains);
      }
      s := Decide(s, p, now).0;
    }

    lemma EmptyUnlessUsed(t: State)
      requires Core(t)
      ensures |t.flow| == BUCKETS && |t.entries| == |t.chains| == ENTRIES && t.workers > 0
      ensures forall e :: 0 <= e < ENTRIES && !t.entries[e].used ==> t.chains[e] == []
    {
      hide PlacesOk, FatesOk, Steered, InOrder, Counted, PoolOk;
      forall e | 0 <= e < ENTRIES && !t.entries[e].used ensures t.chains[e] == [] {
        assert EntryOk(t.workers, t.entries[e], t.chains[e]);
      }
    }

    /** A packet the classifier accepts. */
    method Process(p: FlowPacket, len: nat, now: nat)
      requires Rep() && Core(s) && |s.log| == |s.fate| + 1 && s.log[|s.fate|] == Some(p)
      requires len + HEADROOM - header <= CAPACITY
      modifies this`s, this`nextQueue, this`freeCount, this`length, this`tokens, this`drops, flowQueues, pool.frame
      modifies links.next, links.fragments, rings.tail, rings.count, rings.queues
      ensures Rep() && |old(s).flow| == BUCKETS && old(s).workers > 0
      ensures var t := BindFlow(old(s), p);
        && |t.flow| == BUCKETS && |t.entries| == |t.chains| == ENTRIES && FlowQueue(t, p) >= 0
        && var (u, v) := Decide(t, p, now);
           && Core(u) && VerdictOk(u, p, v) && u.header <= HEADROOM
           && |u.length| == |u.place| == SLOTS && (u.free != [] ==> u.free[|u.free| - 1] < SLOTS)
           && (v.Hold? ==> v.entry < |u.chains|)
           && (v.Send? ==> v.queue < |u.sent| && (v.flush.Some? ==> v.flush.value < |u.chains|))
           && s == Store(u, len, v)
    {
      hide Core, BindFlow, Decide, Store, FlowQueue, AllHold, TokensMatch, VerdictOk;
      EmptyUnlessUsed(s);
      BindKeeps(s, p);
      BindFrame(s, p);
      var queue := BindQueue(p);
      EmptyUnlessUsed(s);
      DecideKeeps(s, p, now);
      DecideFrame(s, p, now);
      var v := DecidePacket(p, queue, now);
      StoreKeeps(s, len, p, v);
      VerdictBounds(s, p, v);
      StoreFrame(len, v, p);
    }

    lemma VerdictBounds(u: State, p: FlowPacket, v: Verdict)
      requires Core(u) && VerdictOk(u, p, v)
      ensures u.header <= HEADROOM
      ensures v.Hold? ==> v.entry < |u.chains|
      ensures v.Send? ==> v.queue < |u.sent| && (v.flush.Some? ==> v.flush.value < |u.chains|)
    {
      hide PlacesOk, FatesOk, Steered, InOrder, Counted, PoolOk, EntryOk, Right;
    }

    lemma LogLength(t: State)
      requires Inv(t)
      ensures |t.log| == |t.fate|
    {
    }

    /** One packet read from the device; len counts the offload header in front of it. */
    method Submit(parsed: Option<FlowPacket>, len: int, now: nat)
      requires Valid() && len + HEADROOM - header <= CAPACITY
      modifies this`s, this`nextQueue, this`freeCount, this`length, this`tokens, this`drops, flowQueues, pool.frame
      modifies links.next, links.fragments, rings.tail, rings.count, rings.queues
      ensures Valid() && s == DispatchRuns.Submit(old(s), parsed, len, now)
    {
      hide Inv, Core, BindFlow, Decide, Store, FlowQueue, AllHold, TokensMatch, VerdictOk;
      SubmitKeeps(s, parsed, len, now);
      LogLength(s);
      var p := if len - header <= 0 then None else parsed;
      LogKeeps(s, p);
      s := s.(log := s.log + [p]);
      if p == None {
        DropFrame();
      } else {
        Process(p.value, len, now);
      }
    }

    // ---------------------------------------------------------- taking and releasing

    /** Worker w's next packet, or -1. */
    method Take(w: nat) returns (slot: int, len: int)
      requires Valid() && w < workers
      modifies this`s, pool.frame, rings.head, rings.count
      ensures Valid() && |old(s).got| == |old(s).sent| == workers
      ensures old(s.got[w] < |s.sent[w]| ==> s.sent[w][s.got[w]].slot < |s.place| == |s.length|)
      ensures s == DispatchState.Take(old(s), w).0
      ensures match DispatchState.Take(old(s), w).1
              case None => slot == -1
              case Some(item) => slot == item.slot && len == old(s).length[slot]
    {
      hide Inv, AllHold, TokensMatch, L.Transition;
      TakeKeeps(s, w);
      TakeFacts(w);
      slot, len := -1, 0;
      if rings.count[w] > 0 {
        var t := rings.Pop(w, s.sent, s.got);
        slot, len := t, length[t];
        var _ := pool.Transition(tokens[t], L.Translating);
        TakenTokens(s, tokens, w);
        s := DispatchState.Take(s, w).0;
      }
    }

    lemma TakeFacts(w: nat)
      requires Valid() && w < workers
      ensures |s.got| == |s.sent| == workers && |s.length| == |s.place| == |tokens| == SLOTS
      ensures rings.count[w] == |s.sent[w]| - s.got[w]
      ensures s.got[w] < |s.sent[w]| ==>
        var slot := s.sent[w][s.got[w]].slot; slot < SLOTS && tokens[slot] == TokenOf(s.pool, slot)
    {
      hide FatesOk, Steered, InOrder, Counted, PoolOk, EntryOk, AllHold;
      assert rings.RingHolds(s.sent, s.got, w);
      if s.got[w] < |s.sent[w]| {
        PlacesTake(s.free, s.out, s.place, s.sent, s.got, s.chains, w);
      }
    }

    lemma TakenTokens(t: State, kept: seq<L.Token>, w: nat)
      requires Inv(t) && w < t.workers && TokensMatch(kept, t.place, t.pool)
      ensures w < |t.got| == |t.sent| && (t.got[w] < |t.sent[w]| ==> t.sent[w][t.got[w]].slot < |t.place|)
      ensures var u := DispatchState.Take(t, w).0; TokensMatch(kept, u.place, u.pool)
    {
      hide FatesOk, Steered, InOrder, Counted, TablesOk;
      if t.got[w] < |t.sent[w]| {
        PlacesTake(t.free, t.out, t.place, t.sent, t.got, t.chains, w);
      }
    }

    /** Free a slot's frame and push the slot. */
    method FreeLocked(slot: nat)
      requires Shapes() && freeCount < SLOTS && slot < |tokens|
      modifies this`freeCount, freeSlots, pool.frame
      ensures freeCount == old(freeCount) + 1 && freeSlots[..freeCount] == old(freeSlots[..freeCount]) + [slot]
      ensures pool.Value() == L.Transition(old(pool.Value()), tokens[slot], L.Free).0
    {
      hide L.Transition;
      var _ := pool.Transition(tokens[slot], L.Free);
      freeSlots[freeCount] := slot;
      freeCount := freeCount + 1;
    }

    lemma ReleaseFacts(slot: nat)
      requires Valid() && slot in s.out
      ensures freeCount < SLOTS && slot < |s.place| == |tokens| == SLOTS && tokens[slot] == TokenOf(s.pool, slot)
      ensures var u := Release(s, slot); TokensMatch(tokens, u.place, u.pool)
    {
      hide FatesOk, Steered, InOrder, EntryOk, AllHold;
      SentCoversTaken(s);
    }

    /** A worker gives back a slot it took. */
    method ReleaseSlot(slot: nat)
      requires Valid() && slot in s.out
      modifies this`s, this`freeCount, freeSlots, pool.frame
      ensures Valid() && slot < |old(s).place| && s == Release(old(s), slot)
    {
      hide Inv, AllHold, TokensMatch, L.Transition;
      ReleaseKeeps(s, slot);
      ReleaseFacts(slot);
      FreeLocked(slot);
      s := Release(s, slot);
    }

    method Stop()
      requires Valid()
      modifies this`s, this`stopping, pool
      ensures Valid() && s == DispatchState.Stop(old(s))
    {
      hide Inv, AllHold, TokensMatch;
      StopKeeps(s);
      pool.Stop();
      StoppedTokens(s, tokens);
      stopping, s := true, DispatchState.Stop(s);
    }

    lemma StoppedTokens(t: State, kept: seq<L.Token>)
      requires TokensMatch(kept, t.place, t.pool)
      ensures TokensMatch(kept, DispatchState.Stop(t).place, DispatchState.Stop(t).pool)
    {
    }

    // ---------------------------------------------------------- the sweep

    /** Walk entry e's chain and free every slot in it. */
    method FreeHeld(e: nat)
      requires Valid() && e < ENTRIES == |s.entries| == |s.chains| && s.entries[e].used && |tokens| == SLOTS
      requires |s.free| + |s.chains[e]| <= SLOTS == |s.pool.frames|
      requires forall k :: 0 <= k < |s.chains[e]| ==> s.chains[e][k].slot < SLOTS
      modifies this`freeCount, this`drops, freeSlots, pool.frame
      ensures freeCount == |s.free| + |s.chains[e]| && freeSlots[..freeCount] == s.free + SlotsOf(s.chains[e])
      ensures pool.Value() == s.pool.(frames := FreeItems(s.pool.frames, s.chains[e]))
      ensures drops == s.drops + |s.chains[e]|
    {
      hide Inv, AllHold, TokensMatch, L.Transition, FreeItems, Linked, SlotsOf, Rings.RingHolds;
      links.HoldAt(e, s.entries, s.chains);
      ghost var chain, k, first, last, nexts :=
        s.chains[e], 0, links.fragments[e].first, links.fragments[e].last, links.next[..];
      var slot := links.fragments[e].first;
      LinkedFirst(first, last, chain, nexts);
      NothingFreed(s.pool.frames, chain);
      while slot >= 0
        invariant 0 <= k <= |chain| && slot == if k < |chain| then chain[k].slot else -1
        invariant freeCount == |s.free| + k && freeSlots[..freeCount] == s.free + SlotsOf(chain[..k])
        invariant pool.Value() == s.pool.(frames := FreeItems(s.pool.frames, chain[..k]))
        invariant drops == s.drops + k
        decreases |chain| - k
      {
        LinkedNext(first, last, chain, nexts, k);
        NextIsFreed(s, tokens, e, k);
        SlotsOfGrows(chain, k);
        var next := links.next[slot];
        drops := drops + 1;
        FreeLocked(slot);
        slot := next;
        k := k + 1;
      }
      assert chain[..k] == chain;
    }

    /** Free everything entry e holds, first to last, and refuse it for good. */
    method RetireEntry(e: nat)
      requires Valid() && e < ENTRIES && |s.entries| == ENTRIES && s.entries[e].used
      modifies this`s, this`freeCount, this`drops, freeSlots, pool.frame, links.fragments
      ensures Valid() && |old(s).pool.frames| == |old(s).place| && e < |old(s).chains| == ENTRIES
      ensures s == Retire(old(s), e)
    {
      hide Inv, AllHold, TokensMatch, Retire, FreeItems, FreeChain, PlacesOk, Rings.RingHolds;
      RetireFits(s, e);
      RetireKeeps(s, e);
      TokensLength();
      InvPlaces(s);
      FreeItemsIsFreeChain(s, e);
      FreeHeld(e);
      links.Clear(e, Refused, s.entries, s.chains);
      RetiredTokens(s, tokens, e);
      RetiredFields(s, e);
      s := Retire(s, e);
    }

    lemma RetiredFields(t: State, e: nat)
      requires e < |t.entries| == |t.chains| && |t.pool.frames| == |t.place|
      ensures var u := Retire(t, e);
        && u == t.(free := u.free, entries := u.entries, chains := u.chains, place := u.place, fate := u.fate,
                   pool := u.pool, drops := u.drops)
        && u.free == t.free + SlotsOf(t.chains[e]) && u.entries == t.entries[e := t.entries[e].(resolved := Refused)]
        && u.chains == t.chains[e := []] && u.drops == t.drops + |t.chains[e]|
        && u.pool == t.pool.(frames := FreeChain(t.pool.frames, t.place, e))
    {
      hide FreeChain, StackAll, DropAll;
    }

    lemma InvPlaces(t: State)
      requires Inv(t)
      ensures PlacesOk(t.free, t.out, t.place, t.sent, t.got, t.chains)
    {
    }

    lemma EntryAt(e: nat)
      requires Valid() && e < ENTRIES
      ensures |s.entries| == |s.chains| == ENTRIES && SameEntry(links.fragments[e], s.entries[e])
    {
      hide Inv, TokensMatch, Linked;
      links.HoldAt(e, s.entries, s.chains);
    }

    /** The sweep, at most once for each reading of the clock. */
    method ExpireHeld(now: nat)
      requires Valid()
      modifies this`s, this`lastExpire, this`freeCount, this`drops, freeSlots, pool.frame, links.fragments
      ensures Valid() && lastExpire == now && |old(s).entries| == |old(s).chains| == ENTRIES
      ensures |old(s).pool.frames| == |old(s).place|
      ensures s == if now == old(lastExpire) then old(s) else Expire(old(s), now, ENTRIES)
    {
      hide Inv, AllHold, TokensMatch, Retire, Rings.RingHolds, Expire;
      ExpireKeeps(s, now, 0);
      if now == lastExpire { return; }
      lastExpire := now;
      var e := 0;
      ghost var base := s;
      ExpireNone(s, now);
      while e < ENTRIES
        invariant 0 <= e <= ENTRIES && Valid() && lastExpire == now
        invariant |base.entries| == |base.chains| == ENTRIES && |base.pool.frames| == |base.place|
        invariant s == Expire(base, now, e)
      {
        ExpireKeeps(base, now, e);
        EntryAt(e);
        var f := links.fragments[e];
        if f.used && f.resolved != Refused && now >= f.deadline {
          RetireEntry(e);
        }
        ExpireNext(base, now, e);
        e := e + 1;
      }
    }

    // ---------------------------------------------------------- the end

    /** After every worker has stopped: what is still in use is dropped and freed, and the
        backend is declared closed. The storage may then be unmapped. If no worker kept a
        slot, every packet submitted has been either delivered or dropped. */
    method Destroy()
      requires Valid() && stopping
      modifies this`freeCount, this`drops, freeSlots, pool, pool.frame
      ensures L.CanUnmap(pool.Value())
      ensures drops == old(drops) + SLOTS - old(freeCount) && freeCount == SLOTS
      ensures s.out == {} ==> |s.log| == drops + Sum(s.got)
    {
      hide Inv, AllHold, TokensMatch, Rings.RingHolds, L.FreeAll, L.Transition, BusyFrom, L.Sound;
      TokensLength();
      BusyIsRest(s);
      InvPool(s);
      L.DrainAllowsUnmap(s.pool);
      FreeAllNone(s.pool);
      var i := 0;
      while i < SLOTS
        invariant 0 <= i <= SLOTS
        invariant pool.Value() == L.FreeAll(s.pool, i)
        invariant freeCount + BusyFrom(s.pool.frames, i) == SLOTS && drops == s.drops + freeCount - |s.free|
      {
        FreeAllNext(s, tokens, i);
        if pool.frame[i].state != L.Free {
          drops := drops + 1;
          FreeLocked(i);
        }
        i := i + 1;
      }
      assert BusyFrom(s.pool.frames, SLOTS) == 0 by { NoneBusyAtEnd(s.pool.frames); }
      var _ := pool.BackendClosed();
    }
  }
}
