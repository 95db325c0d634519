/** The frame pool as the program keeps it: an array of frames updated in place. Each
    method is proved to take the step of the same name in FrameLifetime. */
module FramePool {
  import opened FrameLifetime

  class Frames {
    const frame: array<Frame>
    const identity: nat
    var stopping: bool
    var backendClosed: bool

    ghost function Value(): (p: Pool)
      reads this, frame
    {
      Pool(frame[..], identity, stopping, backendClosed)
    }

    constructor (capacities: seq<nat>, poolIdentity: nat)
      requires capacities != [] && poolIdentity != 0
      requires forall i :: 0 <= i < |capacities| ==> capacities[i] != 0
      ensures fresh(frame) && frame.Length == |capacities| && identity == poolIdentity
      ensures Sound(Value()) && AllFree(Value()) && !stopping
      ensures forall i :: 0 <= i < frame.Length ==> frame[i] == Frame(capacities[i], 0, 0, 0, Free)
    {
      identity := poolIdentity;
      frame := new Frame[|capacities|](i requires 0 <= i < |capacities| => Frame(capacities[i], 0, 0, 0, Free));
      stopping, backendClosed := false, false;
    }

    method Lookup(t: Token) returns (found: bool)
      ensures found == Known(Value(), t)
    {
      found := !(t.identity != identity || t.slot >= frame.Length || t.generation == 0
                 || frame[t.slot].generation != t.generation);
    }

    method Acquire(slot: nat) returns (r: Reply, t: Token)
      modifies frame
      ensures (Value(), r) == FrameLifetime.Acquire(old(Value()), slot)
      ensures r == Done ==> t == Token(slot, old(frame[slot].generation) + 1, identity)
    {
      t := Token(slot, 0, identity);
      if slot >= frame.Length { return Invalid, t; }
      if stopping { return Shutdown, t; }
      if frame[slot].state != Free { return Busy, t; }
      if frame[slot].generation >= LAST_GENERATION { return Overflow, t; }
      frame[slot] := frame[slot].(generation := frame[slot].generation + 1);
      frame[slot] := frame[slot].(offset := 0, length := 0);
      frame[slot] := frame[slot].(state := Received);
      assert frame[..] == old(frame[..])[slot := frame[slot]];
      return Done, Token(slot, frame[slot].generation, identity);
    }

    method Transition(t: Token, to: FrameState) returns (r: Reply)
      modifies frame
      ensures (Value(), r) == FrameLifetime.Transition(old(Value()), t, to)
    {
      var found := Lookup(t);
      if !found { return Stale; }
      var f := frame[t.slot];
      var allowed := false;
      match to {
        case RxPosted => allowed := f.state == Received && !stopping && f.length == 0;
        case Received => allowed := f.state == RxPosted;
        case Translating => allowed := f.state == Received;
        case PendingTx => allowed := f.state == Translating;
        case TxSubmitted =>
          allowed := (f.state == Translating || f.state == PendingTx) && !backendClosed && f.length > 0;
        case Completed => allowed := f.state == TxSubmitted;
        case Free =>
          allowed := f.state == Received || f.state == Translating || f.state == PendingTx || f.state == Completed;
      }
      if !allowed { return Busy; }
      if to != Free && !Geometry(f) { return Invalid; }
      frame[t.slot] := f.(state := to);
      if to == Free {
        frame[t.slot] := frame[t.slot].(length := 0, offset := 0);
      }
      assert frame[..] == old(frame[..])[t.slot := frame[t.slot]];
      return Done;
    }

    method Prepend(t: Token, bytes: nat) returns (r: Reply)
      modifies frame
      ensures (Value(), r) == FrameLifetime.Prepend(old(Value()), t, bytes)
    {
      var found := Lookup(t);
      if !found { return Stale; }
      var f := frame[t.slot];
      if f.state != Translating { return Busy; }
      if !Geometry(f) { return Invalid; }
      if bytes > f.offset { return NoSpace; }
      frame[t.slot] := f.(offset := f.offset - bytes, length := f.length + bytes);
      return Done;
    }

    method UnpublishedRollback(t: Token) returns (r: Reply)
      modifies frame
      ensures (Value(), r) == FrameLifetime.Rollback(old(Value()), t)
    {
      var found := Lookup(t);
      if !found { return Stale; }
      var f := frame[t.slot];
      if f.state == RxPosted {
        frame[t.slot] := f.(state := Received);
      } else if f.state == TxSubmitted {
        frame[t.slot] := f.(state := PendingTx);
      } else {
        return Busy;
      }
      return Done;
    }

    method Stop()
      modifies this
      ensures Value() == old(Value()).(stopping := true)
    {
      stopping := true;
    }

    method BackendClosed() returns (r: Reply)
      modifies this, frame
      ensures (Value(), r) == Close(old(Value()))
    {
      if !stopping { return Invalid; }
      backendClosed := true;
      var i := 0;
      while i < frame.Length
        invariant 0 <= i <= frame.Length
        invariant stopping && backendClosed
        invariant forall k :: 0 <= k < i ==>
          frame[k] == if WithKernel(old(frame[k])) then old(frame[k]).(state := Completed) else old(frame[k])
        invariant forall k :: i <= k < frame.Length ==> frame[k] == old(frame[k])
      {
        if frame[i].state == RxPosted || frame[i].state == TxSubmitted {
          frame[i] := frame[i].(state := Completed);
        }
        i := i + 1;
      }
      assert frame[..] == Returned(old(frame[..]));
      return Done;
    }

    method MayUnmap() returns (r: bool)
      ensures r == CanUnmap(Value())
    {
      if !backendClosed { return false; }
      var i := 0;
      while i < frame.Length
        invariant 0 <= i <= frame.Length
        invariant forall k :: 0 <= k < i ==> frame[k].state == Free
      {
        if frame[i].state != Free {
          assert Value().frames[i].state != Free;
          return false;
        }
        i := i + 1;
      }
      return true;
    }
  }
}
