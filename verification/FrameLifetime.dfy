/** Frame ownership. A frame has one owner at a time, known by a token; the token carries
    the frame's generation, so it stops working the moment the frame is handed out again. */
module FrameLifetime {

  datatype FrameState = Free | RxPosted | Received | Translating | PendingTx | TxSubmitted | Completed

  datatype Frame = Frame(capacity: nat, offset: nat, length: nat, generation: nat, state: FrameState)

  datatype Token = Token(slot: nat, generation: nat, identity: nat)

  datatype Pool = Pool(frames: seq<Frame>, identity: nat, stopping: bool, closed: bool)

  /** What a call reports: success, or the error it sets. */
  datatype Reply = Done | Stale | Busy | Invalid | Overflow | Shutdown | NoSpace

  const LAST_GENERATION: nat := 0xffff_ffff_ffff_ffff

  // ------------------------------------------------------------ one call

  predicate Geometry(f: Frame) {
    f.offset <= f.capacity && f.length <= f.capacity - f.offset
  }

  /** The token finds its frame. */
  predicate Known(p: Pool, t: Token) {
    && t.identity == p.identity && t.slot < |p.frames|
    && t.generation != 0 && p.frames[t.slot].generation == t.generation
  }

  function Acquire(p: Pool, slot: nat): (r: (Pool, Reply)) {
    if slot >= |p.frames| then (p, Invalid)
    else if p.stopping then (p, Shutdown)
    else
      var f := p.frames[slot];
      if f.state != Free then (p, Busy)
      else if f.generation >= LAST_GENERATION then (p, Overflow)
      else (p.(frames := p.frames[slot := Frame(f.capacity, 0, 0, f.generation + 1, Received)]), Done)
  }

  /** The moves of a frame from one owner to the next. */
  predicate Allowed(p: Pool, f: Frame, to: FrameState) {
    match to
    case RxPosted => f.state == Received && !p.stopping && f.length == 0
    case Received => f.state == RxPosted
    case Translating => f.state == Received
    case PendingTx => f.state == Translating
    case TxSubmitted => (f.state == Translating || f.state == PendingTx) && !p.closed && f.length > 0
    case Completed => f.state == TxSubmitted
    case Free => f.state == Received || f.state == Translating || f.state == PendingTx || f.state == Completed
  }

  function Enter(f: Frame, to: FrameState): Frame {
    if to == Free then f.(state := Free, length := 0, offset := 0) else f.(state := to)
  }

  function Transition(p: Pool, t: Token, to: FrameState): (r: (Pool, Reply)) {
    if !Known(p, t) then (p, Stale)
    else
      var f := p.frames[t.slot];
      if !Allowed(p, f, to) then (p, Busy)
      else if to != Free && !Geometry(f) then (p, Invalid)
      else (p.(frames := p.frames[t.slot := Enter(f, to)]), Done)
  }

  function Prepend(p: Pool, t: Token, bytes: nat): (r: (Pool, Reply)) {
    if !Known(p, t) then (p, Stale)
    else
      var f := p.frames[t.slot];
      if f.state != Translating then (p, Busy)
      else if !Geometry(f) then (p, Invalid)
      else if bytes > f.offset then (p, NoSpace)
      else (p.(frames := p.frames[t.slot := f.(offset := f.offset - bytes, length := f.length + bytes)]), Done)
  }

  function Rollback(p: Pool, t: Token): (r: (Pool, Reply)) {
    if !Known(p, t) then (p, Stale)
    else
      var f := p.frames[t.slot];
      if f.state == RxPosted then (p.(frames := p.frames[t.slot := f.(state := Received)]), Done)
      else if f.state == TxSubmitted then (p.(frames := p.frames[t.slot := f.(state := PendingTx)]), Done)
      else (p, Busy)
  }

  /** The owner of a received frame states how much of it is in use. */
  function Fill(p: Pool, t: Token, length: nat): (r: Pool) {
    if Known(p, t) && p.frames[t.slot].state == Received && length <= p.frames[t.slot].capacity - p.frames[t.slot].offset
    then p.(frames := p.frames[t.slot := p.frames[t.slot].(length := length)])
    else p
  }

  predicate WithKernel(f: Frame) {
    f.state == RxPosted || f.state == TxSubmitted
  }

  function Returned(frames: seq<Frame>): (r: seq<Frame>)
    ensures |r| == |frames|
    ensures forall i :: 0 <= i < |frames| ==>
      r[i] == if WithKernel(frames[i]) then frames[i].(state := Completed) else frames[i]
  {
    if frames == [] then []
    else
      var f := frames[|frames| - 1];
      Returned(frames[..|frames| - 1]) + [if WithKernel(f) then f.(state := Completed) else f]
  }

  function Close(p: Pool): (r: (Pool, Reply)) {
    if !p.stopping then (p, Invalid)
    else (p.(closed := true, frames := Returned(p.frames)), Done)
  }

  predicate AllFree(p: Pool) {
    forall i :: 0 <= i < |p.frames| ==> p.frames[i].state == Free
  }

  predicate CanUnmap(p: Pool) {
    p.closed && AllFree(p)
  }

  /** The way of a frame: received by hand or posted, translated, sent or kept for later, and freed;
      what the kernel holds comes back first. */
  predicate Edge(a: FrameState, b: FrameState) {
    || (a == Received && (b == RxPosted || b == Translating || b == Free))
    || (a == RxPosted && b == Received)
    || (a == Translating && (b == PendingTx || b == TxSubmitted || b == Free))
    || (a == PendingTx && (b == TxSubmitted || b == Free))
    || (a == TxSubmitted && b == Completed)
    || (a == Completed && b == Free)
  }

  /** A frame moves along exactly these edges, with the token of its present generation; it is
      posted empty and while the pool runs, and submitted with data and until the backend is closed. */
  lemma MovesAlongEdges(p: Pool, t: Token, to: FrameState)
    requires t.slot < |p.frames| ==> p.frames[t.slot].offset + p.frames[t.slot].length <= p.frames[t.slot].capacity
    ensures Transition(p, t, to).1 == Done <==>
      && t.identity == p.identity && t.slot < |p.frames| && 0 < t.generation == p.frames[t.slot].generation
      && Edge(p.frames[t.slot].state, to)
      && (to == RxPosted ==> p.frames[t.slot].length == 0 && !p.stopping)
      && (to == TxSubmitted ==> p.frames[t.slot].length > 0 && !p.closed)
  {
  }

  /** A free frame can be had while the pool runs, until its generations are used up; it is empty. */
  lemma AcquireRule(p: Pool, slot: nat)
    ensures Acquire(p, slot).1 == Done <==>
      slot < |p.frames| && !p.stopping && p.frames[slot].state == Free && p.frames[slot].generation < 0xffff_ffff_ffff_ffff
    ensures Acquire(p, slot).1 == Done ==>
      Acquire(p, slot).0 == p.(frames := p.frames[slot := Frame(p.frames[slot].capacity, 0, 0, p.frames[slot].generation + 1, Received)])
    ensures Acquire(p, slot).1 != Done ==> Acquire(p, slot).0 == p
  {
  }

  /** Room in front of the data is used up from the back, so the data end where they did;
      nothing changes if there is not enough. */
  lemma PrependRule(p: Pool, t: Token, bytes: nat)
    ensures var (q, r) := Prepend(p, t, bytes);
      if r == Done then
        && t.slot < |p.frames| && |q.frames| == |p.frames| && p.frames[t.slot].state == Translating && bytes <= p.frames[t.slot].offset
        && var (f, g) := (p.frames[t.slot], q.frames[t.slot]);
        && q == p.(frames := p.frames[t.slot := g]) && g == f.(offset := g.offset, length := g.length)
        && g.offset + bytes == f.offset && g.offset + g.length == f.offset + f.length
      else q == p
  {
  }

  // ------------------------------------------------------------ any run of calls

  datatype Call =
    | AcquireCall(slot: nat)
    | TransitionCall(token: Token, to: FrameState)
    | PrependCall(token: Token, bytes: nat)
    | RollbackCall(token: Token)
    | FillCall(token: Token, length: nat)
    | StopCall
    | CloseCall
  {
    /** The call is made with token t. */
    predicate Carries(t: Token) {
      (TransitionCall? || PrependCall? || RollbackCall? || FillCall?) && token == t
    }
  }

  function Step(p: Pool, c: Call): (q: Pool) {
    match c
    case AcquireCall(slot) => Acquire(p, slot).0
    case TransitionCall(t, to) => Transition(p, t, to).0
    case PrependCall(t, n) => Prepend(p, t, n).0
    case RollbackCall(t) => Rollback(p, t).0
    case FillCall(t, n) => Fill(p, t, n)
    case StopCall => p.(stopping := true)
    case CloseCall => Close(p).0
  }

  function Run(p: Pool, calls: seq<Call>): (q: Pool)
    decreases calls
  {
    if calls == [] then p else Run(Step(p, calls[0]), calls[1..])
  }

  /** The tokens a run hands out, in order. */
  function Issued(p: Pool, calls: seq<Call>): (ts: seq<Token>)
    decreases calls
  {
    if calls == [] then []
    else
      (if calls[0].AcquireCall? && Acquire(p, calls[0].slot).1 == Done
       then [Token(calls[0].slot, p.frames[calls[0].slot].generation + 1, p.identity)] else [])
      + Issued(Step(p, calls[0]), calls[1..])
  }

  /** The calls of a run that are not made with t. */
  function Without(calls: seq<Call>, t: Token): (r: seq<Call>) {
    if calls == [] then []
    else if calls[0].Carries(t) then Without(calls[1..], t)
    else [calls[0]] + Without(calls[1..], t)
  }

  predicate Live(p: Pool, t: Token) {
    Known(p, t) && p.frames[t.slot].state != Free
  }

  /** The frame t was issued for has been freed since, and perhaps issued again. */
  predicate Dead(p: Pool, t: Token) {
    && t.identity == p.identity && t.slot < |p.frames|
    && (t.generation < p.frames[t.slot].generation
        || (t.generation == p.frames[t.slot].generation && p.frames[t.slot].state == Free))
  }

  // ------------------------------------------------------------ tokens

  lemma FreeingKills(p: Pool, t: Token)
    requires Transition(p, t, Free).1 == Done
    ensures Live(p, t) && Dead(Transition(p, t, Free).0, t)
  {
  }

  lemma DeadStaysDead(p: Pool, c: Call, t: Token)
    requires Dead(p, t)
    ensures Dead(Step(p, c), t)
    ensures c.Carries(t) ==> Step(p, c) == p
  {
  }

  /** Once a token's frame has been freed, the calls made with that token can be struck
      from any run without changing any frame. */
  lemma {:induction false} DeadTokenIsInert(p: Pool, calls: seq<Call>, t: Token)
    requires Dead(p, t)
    ensures Run(p, calls) == Run(p, Without(calls, t))
    ensures Dead(Run(p, calls), t)
    decreases calls
  {
    hide Dead, Step;
    if calls == [] {
    } else {
      DeadStaysDead(p, calls[0], t);
      DeadTokenIsInert(Step(p, calls[0]), calls[1..], t);
      if !calls[0].Carries(t) {
        assert Without(calls, t)[1..] == Without(calls[1..], t);
      }
    }
  }

  /** So freeing a frame is the end of its token. */
  lemma FreedTokenIsInert(p: Pool, t: Token, calls: seq<Call>)
    requires Transition(p, t, Free).1 == Done
    ensures var q := Transition(p, t, Free).0;
            Live(p, t) && Run(q, calls) == Run(q, Without(calls, t)) && Dead(Run(q, calls), t)
  {
    hide Dead, Step, Transition;
    FreeingKills(p, t);
    DeadTokenIsInert(Transition(p, t, Free).0, calls, t);
  }

  /** t was handed out by this pool at some time: its generation has been reached. */
  predicate Past(p: Pool, t: Token) {
    && t.identity == p.identity && t.slot < |p.frames|
    && 0 < t.generation <= p.frames[t.slot].generation
  }

  lemma PastStays(p: Pool, c: Call, t: Token)
    requires Past(p, t)
    ensures Past(Step(p, c), t)
    ensures Live(Step(p, c), t) ==> Live(p, t)
  {
  }

  lemma {:induction false} PastStaysOverRun(p: Pool, calls: seq<Call>, t: Token)
    requires Past(p, t)
    ensures Past(Run(p, calls), t)
    ensures t !in Issued(p, calls)
    ensures Live(Run(p, calls), t) ==> Live(p, t)
    decreases calls
  {
    hide Past, Live, Step;
    if calls == [] {
    } else {
      PastStays(p, calls[0], t);
      PastStaysOverRun(Step(p, calls[0]), calls[1..], t);
      if calls[0].AcquireCall? && Acquire(p, calls[0].slot).1 == Done {
        NewIsNotPast(p, calls[0].slot, t);
      }
    }
  }

  lemma NewIsNotPast(p: Pool, slot: nat, t: Token)
    requires Past(p, t) && Acquire(p, slot).1 == Done
    ensures t != Token(slot, p.frames[slot].generation + 1, p.identity)
  {
  }

  lemma IssuedIsLive(p: Pool, slot: nat)
    requires Acquire(p, slot).1 == Done
    ensures var t := Token(slot, p.frames[slot].generation + 1, p.identity);
      Past(Acquire(p, slot).0, t) && Live(Acquire(p, slot).0, t)
  {
  }

  /** A run never hands out the same token twice. */
  lemma {:induction false} TokensAreFresh(p: Pool, calls: seq<Call>)
    ensures forall i, j :: 0 <= i < j < |Issued(p, calls)| ==> Issued(p, calls)[i] != Issued(p, calls)[j]
    decreases calls
  {
    hide Past, Live, Step;
    if calls == [] {
    } else {
      var rest := Issued(Step(p, calls[0]), calls[1..]);
      TokensAreFresh(Step(p, calls[0]), calls[1..]);
      if calls[0].AcquireCall? && Acquire(p, calls[0].slot).1 == Done {
        var t := Token(calls[0].slot, p.frames[calls[0].slot].generation + 1, p.identity);
        assert Step(p, calls[0]) == Acquire(p, calls[0].slot).0 by { StepOfAcquire(p, calls[0].slot); }
        IssuedIsLive(p, calls[0].slot);
        PastStaysOverRun(Step(p, calls[0]), calls[1..], t);
        assert Issued(p, calls) == [t] + rest;
      } else {
        assert Issued(p, calls) == rest;
      }
    }
  }

  lemma StepOfAcquire(p: Pool, slot: nat)
    ensures Step(p, AcquireCall(slot)) == Acquire(p, slot).0
  {
  }

  /** A step can only make live a token that it issues itself. */
  lemma LiveComesFromIssue(p: Pool, c: Call, t: Token)
    requires Live(Step(p, c), t)
    ensures Live(p, t) || (c.AcquireCall? && Acquire(p, c.slot).1 == Done
                           && t == Token(c.slot, p.frames[c.slot].generation + 1, p.identity))
  {
  }

  lemma {:induction false} LiveWasIssued(p: Pool, calls: seq<Call>, t: Token)
    requires Live(Run(p, calls), t)
    ensures Live(p, t) || t in Issued(p, calls)
    decreases calls
  {
    hide Live, Step, Acquire;
    if calls == [] {
    } else {
      LiveWasIssued(Step(p, calls[0]), calls[1..], t);
      if Live(Step(p, calls[0]), t) {
        LiveComesFromIssue(p, calls[0], t);
      }
    }
  }

  lemma BusyHasToken(p: Pool, slot: nat)
    requires slot < |p.frames| && p.frames[slot].state != Free && p.frames[slot].generation != 0
    ensures Live(p, Token(slot, p.frames[slot].generation, p.identity))
  {
  }

  // ------------------------------------------------------------ what every call keeps

  /** Frames stay inside their storage, the kernel holds only posted empty frames and
      submitted nonempty ones, and holds none once the backend is closed. */
  ghost predicate Sound(p: Pool) {
    && (p.closed ==> p.stopping)
    && forall i :: 0 <= i < |p.frames| ==> SoundFrame(p.closed, p.frames[i])
  }

  predicate SoundFrame(closed: bool, f: Frame) {
    && Geometry(f)
    && f.generation <= LAST_GENERATION
    && (f.generation == 0 ==> f.state == Free)
    && (f.state == Free ==> f.length == 0 && f.offset == 0)
    && (f.state == RxPosted ==> f.length == 0)
    && (f.state == TxSubmitted ==> f.length > 0)
    && (closed ==> !WithKernel(f))
  }

  lemma StepKeepsSound(p: Pool, c: Call)
    requires Sound(p)
    ensures Sound(Step(p, c))
    ensures |Step(p, c).frames| == |p.frames| && Step(p, c).identity == p.identity
    ensures p.stopping ==> Step(p, c).stopping
    ensures p.closed ==> Step(p, c).closed
  {
    if c.StopCall? || c.CloseCall? {
      var q := Step(p, c);
      forall i | 0 <= i < |q.frames| ensures SoundFrame(q.closed, q.frames[i]) {
        assert SoundFrame(p.closed, p.frames[i]);
      }
    } else {
      var slot := if c.AcquireCall? then c.slot else c.token.slot;
      OnlyThisFrame(p, c, slot);
      if slot < |p.frames| && Step(p, c) != p {
        FrameStaysSound(p, c, slot);
      }
      hide Step;
      OneFrameSound(p, Step(p, c), slot);
    }
  }

  lemma OnlyThisFrame(p: Pool, c: Call, slot: nat)
    requires !c.StopCall? && !c.CloseCall? && slot == if c.AcquireCall? then c.slot else c.token.slot
    ensures var q := Step(p, c);
            && q == p.(frames := q.frames) && |q.frames| == |p.frames|
            && (forall i :: 0 <= i < |p.frames| && i != slot ==> q.frames[i] == p.frames[i])
  {
    hide Geometry, Allowed, Enter;
  }

  lemma FrameStaysSound(p: Pool, c: Call, slot: nat)
    requires !c.StopCall? && !c.CloseCall? && slot == if c.AcquireCall? then c.slot else c.token.slot
    requires slot < |p.frames| && |Step(p, c).frames| == |p.frames| && SoundFrame(p.closed, p.frames[slot])
    requires p.closed ==> p.stopping
    ensures SoundFrame(p.closed, Step(p, c).frames[slot])
  {
  }

  /** A call that touches one frame at most need only keep that frame sound. */
  lemma OneFrameSound(p: Pool, q: Pool, slot: nat)
    requires Sound(p) && q == p.(frames := q.frames) && |q.frames| == |p.frames|
    requires forall i :: 0 <= i < |p.frames| && i != slot ==> q.frames[i] == p.frames[i]
    requires slot < |p.frames| && SoundFrame(p.closed, p.frames[slot]) ==> SoundFrame(p.closed, q.frames[slot])
    ensures Sound(q)
  {
  }

  lemma {:induction false} RunKeepsSound(p: Pool, calls: seq<Call>)
    requires Sound(p)
    ensures Sound(Run(p, calls))
    ensures p.stopping ==> Run(p, calls).stopping
    ensures p.closed ==> Run(p, calls).closed
    decreases calls
  {
    hide Sound, Step;
    if calls == [] {
    } else {
      StepKeepsSound(p, calls[0]);
      RunKeepsSound(Step(p, calls[0]), calls[1..]);
    }
  }

  /** After any run from a new pool, a slot is in use exactly when one of the tokens the
      run issued is live for it, and then that token is the only one. */
  lemma OneOwner(p: Pool, calls: seq<Call>, slot: nat)
    requires Sound(p) && AllFree(p) && slot < |p.frames|
    ensures |Run(p, calls).frames| == |p.frames|
    ensures Run(p, calls).frames[slot].state != Free <==>
            exists t :: t in Issued(p, calls) && t.slot == slot && Live(Run(p, calls), t)
    ensures forall t, u :: Live(Run(p, calls), t) && Live(Run(p, calls), u) && t.slot == slot == u.slot ==> t == u
  {
    hide Issued, Run, Step;
    var q := Run(p, calls);
    RunKeepsSound(p, calls);
    RunKeepsShape(p, calls);
    if q.frames[slot].state != Free {
      assert SoundFrame(q.closed, q.frames[slot]);
      BusyHasToken(q, slot);
      LiveWasIssued(p, calls, Token(slot, q.frames[slot].generation, q.identity));
    }
  }

  lemma StepKeepsShape(p: Pool, c: Call)
    ensures |Step(p, c).frames| == |p.frames| && Step(p, c).identity == p.identity
  {
  }

  lemma {:induction false} RunKeepsShape(p: Pool, calls: seq<Call>)
    ensures |Run(p, calls).frames| == |p.frames| && Run(p, calls).identity == p.identity
    decreases calls
  {
    hide Step;
    if calls == [] {
    } else {
      StepKeepsShape(p, calls[0]);
      RunKeepsShape(Step(p, calls[0]), calls[1..]);
    }
  }

  /** When the storage may be unmapped, nothing can change a frame any more. */
  lemma UnmapIsFinal(p: Pool, c: Call)
    requires Sound(p) && CanUnmap(p)
    ensures Step(p, c) == p
    ensures c.AcquireCall? ==> Acquire(p, c.slot).1 != Done
    ensures c.TransitionCall? ==> Transition(p, c.token, c.to).1 != Done
  {
    if c.CloseCall? {
      assert Returned(p.frames) == p.frames;
    }
  }

  lemma {:induction false} UnmapIsFinalOverRun(p: Pool, calls: seq<Call>)
    requires Sound(p) && CanUnmap(p)
    ensures Run(p, calls) == p && Issued(p, calls) == []
    decreases calls
  {
    hide Sound, CanUnmap, Step;
    if calls == [] {
    } else {
      UnmapIsFinal(p, calls[0]);
      UnmapIsFinalOverRun(Step(p, calls[0]), calls[1..]);
    }
  }

  /** Taking a submission back restores the frame, unless the frame was submitted straight
      from translation: then it is left waiting to be sent. */
  lemma RollbackUndoes(p: Pool, t: Token, to: FrameState)
    requires Transition(p, t, to).1 == Done && (to == RxPosted || to == TxSubmitted)
    ensures Rollback(Transition(p, t, to).0, t).1 == Done
    ensures Rollback(Transition(p, t, to).0, t).0 == p <==> !(to == TxSubmitted && p.frames[t.slot].state == Translating)
  {
    var q := Rollback(Transition(p, t, to).0, t).0;
    var f := p.frames[t.slot];
    assert q.frames[t.slot] == f.(state := if to == RxPosted then Received else PendingTx);
    if !(to == TxSubmitted && f.state == Translating) {
      assert q.frames == p.frames;
    }
  }

  function OneFrame(): Pool {
    Pool([Frame(2048, 0, 0, 0, Free)], 1, false, false)
  }

  /** It happens: a frame received, filled, under translation, submitted and taken back. */
  lemma RollbackExample()
    ensures var t := Token(0, 1, 1);
            var p := Run(OneFrame(), [AcquireCall(0), FillCall(t, 100), TransitionCall(t, Translating)]);
            && |p.frames| == 1 && p.frames[0].state == Translating
            && Transition(p, t, TxSubmitted).1 == Done
            && Rollback(Transition(p, t, TxSubmitted).0, t).1 == Done
            && Rollback(Transition(p, t, TxSubmitted).0, t).0.frames == [p.frames[0].(state := PendingTx)]
  {
    var t := Token(0, 1, 1);
    var calls := [AcquireCall(0), FillCall(t, 100), TransitionCall(t, Translating)];
    assert calls[1..] == [FillCall(t, 100), TransitionCall(t, Translating)];
    assert calls[1..][1..] == [TransitionCall(t, Translating)];
    assert calls[1..][1..][1..] == [];
    var p1 := Step(OneFrame(), calls[0]);
    var p2 := Step(p1, calls[1]);
    var p3 := Step(p2, calls[2]);
    assert Run(OneFrame(), calls) == Run(p1, calls[1..]) == Run(p2, calls[1..][1..]) == Run(p3, []);
  }

  // ------------------------------------------------------------ draining

  /** Freeing every frame in turn, each with the token of its present generation. */
  function FreeAll(p: Pool, n: nat): (q: Pool)
    requires n <= |p.frames|
    ensures |q.frames| == |p.frames|
  {
    if n == 0 then p
    else
      var q := FreeAll(p, n - 1);
      if q.frames[n - 1].state == Free then q
      else Transition(q, Token(n - 1, q.frames[n - 1].generation, q.identity), Free).0
  }

  lemma {:induction false} FreeAllFrees(p: Pool, n: nat)
    requires n <= |p.frames|
    requires forall i :: 0 <= i < |p.frames| ==> !WithKernel(p.frames[i])
    requires forall i :: 0 <= i < |p.frames| && p.frames[i].generation == 0 ==> p.frames[i].state == Free
    ensures var q := FreeAll(p, n);
      && (forall i :: 0 <= i < n ==> q.frames[i].state == Free)
      && (forall i :: n <= i < |p.frames| ==> q.frames[i] == p.frames[i])
      && q.stopping == p.stopping && q.closed == p.closed && q.identity == p.identity
  {
    if n == 0 {
    } else {
      FreeAllFrees(p, n - 1);
      var q := FreeAll(p, n - 1);
      assert q.frames[n - 1] == p.frames[n - 1];
    }
  }

  /** Once the pool is stopped and the kernel holds no frame, freeing what is in use and
      closing the backend leaves storage that may be unmapped; so does closing first. */
  lemma DrainAllowsUnmap(p: Pool)
    requires Sound(p) && p.stopping
    ensures CanUnmap(FreeAll(Close(p).0, |p.frames|))
    ensures (forall i :: 0 <= i < |p.frames| ==> !WithKernel(p.frames[i])) ==>
      CanUnmap(Close(FreeAll(p, |p.frames|)).0)
  {
    hide FreeAll, Transition;
    var c := Close(p).0;
    assert forall i :: 0 <= i < |p.frames| ==> SoundFrame(p.closed, p.frames[i]);
    assert forall i :: 0 <= i < |p.frames| ==> !WithKernel(c.frames[i]);
    FreeAllFrees(c, |p.frames|);
    if forall i :: 0 <= i < |p.frames| ==> !WithKernel(p.frames[i]) {
      FreeAllFrees(p, |p.frames|);
    }
  }
}
