/** Every slot is in exactly one place, and every packet has exactly one fate: how each
    step moves the slots and packets without losing or doubling any. */
module DispatchPlaces {
  import opened DispatchState

  type ItemLists = seq<seq<Item>>

  // ------------------------------------------------------------ the two correspondences

  /** Slots and places agree in both directions. */
  ghost predicate PlacesOk(free: seq<nat>, out: set<nat>, place: seq<Place>, sent: ItemLists, got: seq<nat>, chains: ItemLists) {
    && |place| == SLOTS
    && |got| == |sent|
    && (forall w :: 0 <= w < |sent| ==> got[w] <= |sent[w]|)
    && (forall i :: 0 <= i < |free| ==> free[i] < SLOTS && place[free[i]] == Stack(i))
    && (forall t :: t in out ==> t < SLOTS && place[t] == Out)
    && (forall loc :: LocIn(sent, chains, loc) && Pending(got, loc) ==>
          ItemAt(sent, chains, loc).slot < SLOTS && place[ItemAt(sent, chains, loc).slot] == Queued(loc))
    && (forall t :: 0 <= t < SLOTS ==> PlaceOk(free, out, place[t], t, sent, got, chains))
  }

  /** Place p really holds slot t. */
  ghost predicate PlaceOk(free: seq<nat>, out: set<nat>, p: Place, t: nat, sent: ItemLists, got: seq<nat>, chains: ItemLists) {
    match p
    case Stack(i) => i < |free| && free[i] == t
    case Out => t in out
    case Queued(loc) => LocIn(sent, chains, loc) && Pending(got, loc) && ItemAt(sent, chains, loc).slot == t
  }

  /** Packets and fates agree in both directions, delivered packets included. */
  ghost predicate FatesOk(fate: seq<Fate>, sent: ItemLists, chains: ItemLists) {
    && (forall loc :: LocIn(sent, chains, loc) ==>
          ItemAt(sent, chains, loc).id < |fate| && fate[ItemAt(sent, chains, loc).id] == Kept(loc))
    && (forall i :: 0 <= i < |fate| && fate[i].Kept? ==>
          LocIn(sent, chains, fate[i].loc) && ItemAt(sent, chains, fate[i].loc).id == i)
  }

  // ------------------------------------------------------------ places

  lemma PlacesPushRing(free: seq<nat>, out: set<nat>, place: seq<Place>, sent: ItemLists, got: seq<nat>, chains: ItemLists,
                       q: nat, id: nat)
    requires PlacesOk(free, out, place, sent, got, chains) && free != [] && q < |sent|
    ensures free[|free| - 1] < SLOTS
    ensures var slot := free[|free| - 1];
      PlacesOk(free[..|free| - 1], out, place[slot := Queued(Ring(q, |sent[q]|))],
               sent[q := sent[q] + [Item(slot, id)]], got, chains)
  {
    var slot := free[|free| - 1];
    var free', sent' := free[..|free| - 1], sent[q := sent[q] + [Item(slot, id)]];
    var place' := place[slot := Queued(Ring(q, |sent[q]|))];
    forall loc | LocIn(sent', chains, loc) && Pending(got, loc)
      ensures ItemAt(sent', chains, loc).slot < SLOTS && place'[ItemAt(sent', chains, loc).slot] == Queued(loc)
    {
      if loc != Ring(q, |sent[q]|) {
        assert LocIn(sent, chains, loc);
      }
    }
    forall t | 0 <= t < SLOTS ensures PlaceOk(free', out, place'[t], t, sent', got, chains) {
      assert PlaceOk(free, out, place[t], t, sent, got, chains);
    }
  }

  lemma PlacesPushChain(free: seq<nat>, out: set<nat>, place: seq<Place>, sent: ItemLists, got: seq<nat>, chains: ItemLists,
                        e: nat, id: nat)
    requires PlacesOk(free, out, place, sent, got, chains) && free != [] && e < |chains|
    ensures free[|free| - 1] < SLOTS
    ensures var slot := free[|free| - 1];
      PlacesOk(free[..|free| - 1], out, place[slot := Queued(Chain(e, |chains[e]|))],
               sent, got, chains[e := chains[e] + [Item(slot, id)]])
  {
    var slot := free[|free| - 1];
    var free', chains' := free[..|free| - 1], chains[e := chains[e] + [Item(slot, id)]];
    var place' := place[slot := Queued(Chain(e, |chains[e]|))];
    forall loc | LocIn(sent, chains', loc) && Pending(got, loc)
      ensures ItemAt(sent, chains', loc).slot < SLOTS && place'[ItemAt(sent, chains', loc).slot] == Queued(loc)
    {
      if loc != Chain(e, |chains[e]|) {
        assert LocIn(sent, chains, loc);
      }
    }
    forall t | 0 <= t < SLOTS ensures PlaceOk(free', out, place'[t], t, sent, got, chains') {
      assert PlaceOk(free, out, place[t], t, sent, got, chains);
    }
  }

  lemma PlacesFlush(free: seq<nat>, out: set<nat>, place: seq<Place>, sent: ItemLists, got: seq<nat>, chains: ItemLists,
                    e: nat, q: nat)
    requires PlacesOk(free, out, place, sent, got, chains) && e < |chains| && q < |sent|
    ensures PlacesOk(free, out, MoveAll(place, e, q, |sent[q]|), sent[q := sent[q] + chains[e]], got, chains[e := []])
  {
    var sent', chains' := sent[q := sent[q] + chains[e]], chains[e := []];
    var place' := MoveAll(place, e, q, |sent[q]|);
    forall loc | LocIn(sent', chains', loc) && Pending(got, loc)
      ensures ItemAt(sent', chains', loc).slot < SLOTS && place'[ItemAt(sent', chains', loc).slot] == Queued(loc)
    {
      if loc.Ring? && loc.worker == q && loc.pos >= |sent[q]| {
        assert LocIn(sent, chains, Chain(e, loc.pos - |sent[q]|));
      } else {
        assert LocIn(sent, chains, loc);
      }
    }
    forall t | 0 <= t < SLOTS ensures PlaceOk(free, out, place'[t], t, sent', got, chains') {
      assert PlaceOk(free, out, place[t], t, sent, got, chains);
    }
  }

  lemma PlacesTake(free: seq<nat>, out: set<nat>, place: seq<Place>, sent: ItemLists, got: seq<nat>, chains: ItemLists, w: nat)
    requires PlacesOk(free, out, place, sent, got, chains) && w < |sent| && got[w] < |sent[w]|
    ensures sent[w][got[w]].slot < SLOTS && place[sent[w][got[w]].slot] == Queued(Ring(w, got[w]))
    ensures sent[w][got[w]].slot !in out
    ensures var slot := sent[w][got[w]].slot;
      PlacesOk(free, out + {slot}, place[slot := Out], sent, got[w := got[w] + 1], chains)
  {
    var slot := sent[w][got[w]].slot;
    assert LocIn(sent, chains, Ring(w, got[w]));
    var got', place' := got[w := got[w] + 1], place[slot := Out];
    forall loc | LocIn(sent, chains, loc) && Pending(got', loc)
      ensures ItemAt(sent, chains, loc).slot < SLOTS && place'[ItemAt(sent, chains, loc).slot] == Queued(loc)
    {
      assert Pending(got, loc);
    }
    forall t | 0 <= t < SLOTS ensures PlaceOk(free, out + {slot}, place'[t], t, sent, got', chains) {
      assert PlaceOk(free, out, place[t], t, sent, got, chains);
    }
  }

  lemma PlacesRelease(free: seq<nat>, out: set<nat>, place: seq<Place>, sent: ItemLists, got: seq<nat>, chains: ItemLists,
                      slot: nat)
    requires PlacesOk(free, out, place, sent, got, chains) && slot in out
    ensures slot < SLOTS && place[slot] == Out &&
      PlacesOk(free + [slot], out - {slot}, place[slot := Stack(|free|)], sent, got, chains)
  {
    var free', place' := free + [slot], place[slot := Stack(|free|)];
    forall loc | LocIn(sent, chains, loc) && Pending(got, loc)
      ensures place'[ItemAt(sent, chains, loc).slot] == Queued(loc)
    {
      assert place[ItemAt(sent, chains, loc).slot] == Queued(loc);
    }
    forall t | 0 <= t < SLOTS ensures PlaceOk(free', out - {slot}, place'[t], t, sent, got, chains) {
      assert PlaceOk(free, out, place[t], t, sent, got, chains);
    }
  }

  lemma PlacesRetire(free: seq<nat>, out: set<nat>, place: seq<Place>, sent: ItemLists, got: seq<nat>, chains: ItemLists, e: nat)
    requires PlacesOk(free, out, place, sent, got, chains) && e < |chains|
    ensures PlacesOk(free + SlotsOf(chains[e]), out, StackAll(place, e, |free|), sent, got, chains[e := []])
  {
    var free', chains' := free + SlotsOf(chains[e]), chains[e := []];
    var place' := StackAll(place, e, |free|);
    forall i | 0 <= i < |free'| ensures free'[i] < SLOTS && place'[free'[i]] == Stack(i) {
      if i >= |free| {
        assert LocIn(sent, chains, Chain(e, i - |free|));
      }
    }
    forall loc | LocIn(sent, chains', loc) && Pending(got, loc)
      ensures place'[ItemAt(sent, chains', loc).slot] == Queued(loc)
    {
      assert LocIn(sent, chains, loc);
    }
    forall t | 0 <= t < SLOTS ensures PlaceOk(free', out, place'[t], t, sent, got, chains') {
      assert PlaceOk(free, out, place[t], t, sent, got, chains);
    }
  }

  // ------------------------------------------------------------ fates

  lemma FatesDrop(fate: seq<Fate>, sent: ItemLists, chains: ItemLists)
    requires FatesOk(fate, sent, chains)
    ensures FatesOk(fate + [Dropped], sent, chains)
  {
  }

  lemma FatesPushRing(fate: seq<Fate>, sent: ItemLists, chains: ItemLists, q: nat, slot: nat)
    requires FatesOk(fate, sent, chains) && q < |sent|
    ensures FatesOk(fate + [Kept(Ring(q, |sent[q]|))], sent[q := sent[q] + [Item(slot, |fate|)]], chains)
  {
    var fate', sent' := fate + [Kept(Ring(q, |sent[q]|))], sent[q := sent[q] + [Item(slot, |fate|)]];
    forall loc | LocIn(sent', chains, loc)
      ensures ItemAt(sent', chains, loc).id < |fate'| && fate'[ItemAt(sent', chains, loc).id] == Kept(loc)
    {
      if loc != Ring(q, |sent[q]|) {
        assert LocIn(sent, chains, loc);
      }
    }
    forall i | 0 <= i < |fate'| && fate'[i].Kept?
      ensures LocIn(sent', chains, fate'[i].loc) && ItemAt(sent', chains, fate'[i].loc).id == i
    {
      if i < |fate| {
        assert LocIn(sent, chains, fate[i].loc);
      }
    }
  }

  lemma FatesPushChain(fate: seq<Fate>, sent: ItemLists, chains: ItemLists, e: nat, slot: nat)
    requires FatesOk(fate, sent, chains) && e < |chains|
    ensures FatesOk(fate + [Kept(Chain(e, |chains[e]|))], sent, chains[e := chains[e] + [Item(slot, |fate|)]])
  {
    var fate', chains' := fate + [Kept(Chain(e, |chains[e]|))], chains[e := chains[e] + [Item(slot, |fate|)]];
    forall loc | LocIn(sent, chains', loc)
      ensures ItemAt(sent, chains', loc).id < |fate'| && fate'[ItemAt(sent, chains', loc).id] == Kept(loc)
    {
      if loc != Chain(e, |chains[e]|) {
        assert LocIn(sent, chains, loc);
      }
    }
    forall i | 0 <= i < |fate'| && fate'[i].Kept?
      ensures LocIn(sent, chains', fate'[i].loc) && ItemAt(sent, chains', fate'[i].loc).id == i
    {
      if i < |fate| {
        assert LocIn(sent, chains, fate[i].loc);
      }
    }
  }

  lemma FatesFlush(fate: seq<Fate>, sent: ItemLists, chains: ItemLists, e: nat, q: nat)
    requires FatesOk(fate, sent, chains) && e < |chains| && q < |sent|
    ensures FatesOk(MoveFates(fate, e, q, |sent[q]|),
                    sent[q := sent[q] + chains[e]], chains[e := []])
  {
    var sent', chains' := sent[q := sent[q] + chains[e]], chains[e := []];
    var fate' := MoveFates(fate, e, q, |sent[q]|);
    forall loc | LocIn(sent', chains', loc)
      ensures ItemAt(sent', chains', loc).id < |fate'| && fate'[ItemAt(sent', chains', loc).id] == Kept(loc)
    {
      if loc.Ring? && loc.worker == q && loc.pos >= |sent[q]| {
        assert LocIn(sent, chains, Chain(e, loc.pos - |sent[q]|));
      } else {
        assert LocIn(sent, chains, loc);
      }
    }
    forall i | 0 <= i < |fate'| && fate'[i].Kept?
      ensures LocIn(sent', chains', fate'[i].loc) && ItemAt(sent', chains', fate'[i].loc).id == i
    {
      assert LocIn(sent, chains, fate[i].loc);
    }
  }

  lemma FatesRetire(fate: seq<Fate>, sent: ItemLists, chains: ItemLists, e: nat)
    requires FatesOk(fate, sent, chains) && e < |chains|
    ensures FatesOk(DropAll(fate, e), sent, chains[e := []])
  {
    var chains' := chains[e := []];
    forall loc | LocIn(sent, chains', loc) ensures LocIn(sent, chains, loc) {
    }
  }

  // ------------------------------------------------------------ sizes

  lemma {:induction false} TotalUpdate(s: ItemLists, i: nat, x: seq<Item>)
    requires i < |s|
    ensures Total(s[i := x]) == Total(s) - |s[i]| + |x|
  {
    var n := |s| - 1;
    if i == n {
      assert s[i := x][..n] == s[..n];
    } else {
      TotalUpdate(s[..n], i, x);
      assert s[i := x][..n] == s[..n][i := x];
    }
  }

  lemma {:induction false} SumUpdate(s: seq<nat>, i: nat, x: nat)
    requires i < |s|
    ensures Sum(s[i := x]) == Sum(s) - s[i] + x
  {
    var n := |s| - 1;
    if i == n {
      assert s[i := x][..n] == s[..n];
    } else {
      SumUpdate(s[..n], i, x);
      assert s[i := x][..n] == s[..n][i := x];
    }
  }

  lemma {:induction false} PartOfTotal(s: ItemLists, i: nat)
    requires i < |s|
    ensures |s[i]| <= Total(s)
  {
    var n := |s| - 1;
    if i < n {
      PartOfTotal(s[..n], i);
    }
  }

  lemma {:induction false} TakenWithinSent(sent: ItemLists, got: seq<nat>)
    requires |got| == |sent| && forall w :: 0 <= w < |sent| ==> got[w] <= |sent[w]|
    ensures Sum(got) <= Total(sent)
    ensures forall w :: 0 <= w < |sent| ==> |sent[w]| - got[w] <= Total(sent) - Sum(got)
  {
    if sent == [] {
    } else {
      var n := |sent| - 1;
      assert forall w :: 0 <= w < n ==> sent[..n][w] == sent[w] && got[..n][w] == got[w];
      TakenWithinSent(sent[..n], got[..n]);
    }
  }
}
