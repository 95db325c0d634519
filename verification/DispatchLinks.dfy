/** The fragment table as the program keeps it: entries that point into chains of slots,
    threaded through one array of links. */
module DispatchLinks {
  import opened Wrappers
  import opened Checksum
  import opened Flow
  import opened DispatchState
  import opened DispatchPlaces

  /** A table entry; the slots it holds are reached from first through the links. */
  datatype FragmentEntry = FragmentEntry(
    used: bool, key: seq<nat>, resolved: Resolved, queue: nat, count: nat, first: int, last: int, deadline: nat)

  /** first leads along next through exactly the chain, in order, to last and then to -1. */
  ghost predicate Linked(first: int, last: int, chain: seq<Item>, next: seq<int>) {
    && (chain == [] ==> first == -1 && last == -1)
    && (chain != [] ==> first == chain[0].slot && last == chain[|chain| - 1].slot)
    && (forall k: nat :: k < |chain| ==> LinkAt(chain, next, k))
  }

  /** The link of item k leads to item k + 1, or nowhere if it is the last. */
  predicate LinkAt(chain: seq<Item>, next: seq<int>, k: nat)
    requires k < |chain|
  {
    chain[k].slot < |next| && next[chain[k].slot] == if k + 1 < |chain| then chain[k + 1].slot else -1
  }

  predicate SameEntry(r: FragmentEntry, f: Entry) {
    r.used == f.used && r.key == f.key && r.resolved == f.resolved && r.queue == f.queue && r.deadline == f.deadline
  }

  ghost predicate EntryHolds(r: FragmentEntry, f: Entry, chain: seq<Item>, next: seq<int>) {
    SameEntry(r, f) && r.count == |chain| && (r.used ==> Linked(r.first, r.last, chain, next))
  }

  ghost predicate AllHold(fragments: seq<FragmentEntry>, next: seq<int>, entries: seq<Entry>, chains: ItemLists) {
    && |fragments| == |entries| == |chains| == ENTRIES && |next| == SLOTS
    && forall e :: 0 <= e < ENTRIES ==> EntryHolds(fragments[e], entries[e], chains[e], next)
  }

  /** No slot is held twice. */
  ghost predicate SlotsDistinct(chains: ItemLists) {
    && (forall e, j :: 0 <= e < |chains| && 0 <= j < |chains[e]| ==> chains[e][j].slot < SLOTS)
    && forall e, j, f, k ::
         (0 <= e < |chains| && 0 <= j < |chains[e]| && 0 <= f < |chains| && 0 <= k < |chains[f]|
          && chains[e][j].slot == chains[f][k].slot) ==> e == f && j == k
  }

  ghost predicate NotHeld(chains: ItemLists, slot: nat) {
    forall e, j :: 0 <= e < |chains| && 0 <= j < |chains[e]| ==> chains[e][j].slot != slot
  }

  lemma LinkedElsewhere(first: int, last: int, chain: seq<Item>, next: seq<int>, slot: nat, v: int)
    requires Linked(first, last, chain, next) && slot < |next|
    requires forall k :: 0 <= k < |chain| ==> chain[k].slot != slot
    ensures Linked(first, last, chain, next[slot := v])
  {
    var next' := next[slot := v];
    forall k: nat | k < |chain| ensures LinkAt(chain, next', k) {
      assert LinkAt(chain, next, k);
    }
  }

  lemma LinkedAppend(first: int, last: int, chain: seq<Item>, next: seq<int>, item: Item)
    requires Linked(first, last, chain, next) && item.slot < |next| && next[item.slot] == -1
    requires forall k :: 0 <= k < |chain| ==> chain[k].slot != item.slot
    requires forall j, k :: 0 <= j < |chain| && 0 <= k < |chain| && chain[j].slot == chain[k].slot ==> j == k
    ensures last >= 0 <==> chain != []
    ensures last >= 0 ==> last < |next| && Linked(first, item.slot, chain + [item], next[last := item.slot])
    ensures last < 0 ==> Linked(item.slot, item.slot, chain + [item], next)
  {
    assert chain != [] ==> LinkAt(chain, next, |chain| - 1);
    var next' := if last >= 0 then next[last := item.slot] else next;
    forall k: nat | k < |chain| + 1 ensures LinkAt(chain + [item], next', k) {
      if k < |chain| {
        assert LinkAt(chain, next, k);
      }
    }
  }

  lemma LinkedFirst(first: int, last: int, chain: seq<Item>, next: seq<int>)
    requires Linked(first, last, chain, next)
    ensures first == if 0 < |chain| then chain[0].slot else -1
  {
  }

  lemma LinkedNext(first: int, last: int, chain: seq<Item>, next: seq<int>, k: nat)
    requires Linked(first, last, chain, next) && k < |chain|
    ensures chain[k].slot < |next|
    ensures k + 1 < |chain| ==> next[chain[k].slot] == chain[k + 1].slot
    ensures k + 1 == |chain| ==> next[chain[k].slot] == -1
  {
    assert LinkAt(chain, next, k);
  }

  lemma HoldElsewhere(r: FragmentEntry, f: Entry, chain: seq<Item>, next: seq<int>, slot: nat, v: int)
    requires EntryHolds(r, f, chain, next) && slot < |next|
    requires forall k :: 0 <= k < |chain| ==> chain[k].slot != slot
    ensures EntryHolds(r, f, chain, next[slot := v])
  {
    hide Linked;
    if r.used {
      LinkedElsewhere(r.first, r.last, chain, next, slot, v);
    }
  }

  class Links {
    const fragments: array<FragmentEntry>
    const next: array<int>

    ghost predicate Hold(entries: seq<Entry>, chains: ItemLists)
      reads fragments, next
    {
      AllHold(fragments[..], next[..], entries, chains)
    }

    constructor ()
      ensures fresh(fragments) && fresh(next) && fragments.Length == ENTRIES && next.Length == SLOTS
      ensures forall e :: 0 <= e < ENTRIES ==> fragments[e] == FragmentEntry(false, Zeros(40), Unresolved, 0, 0, 0, 0, 0)
    {
      hide Zeros;
      next := new int[SLOTS](_ => 0);
      fragments := new FragmentEntry[ENTRIES](_ => FragmentEntry(false, Zeros(40), Unresolved, 0, 0, 0, 0, 0));
    }

    lemma StartHolds(entries: seq<Entry>, chains: ItemLists)
      requires fragments.Length == ENTRIES && next.Length == SLOTS && |entries| == |chains| == ENTRIES
      requires forall e :: 0 <= e < ENTRIES ==> fragments[e] == FragmentEntry(false, Zeros(40), Unresolved, 0, 0, 0, 0, 0)
      requires forall e :: 0 <= e < ENTRIES ==> entries[e] == Entry(false, Zeros(40), Unresolved, 0, 0) && chains[e] == []
      ensures Hold(entries, chains)
    {
    }

    /** The slot is about to be queued or held: nothing follows it. */
    method ClearLink(slot: nat, ghost entries: seq<Entry>, ghost chains: ItemLists)
      requires Hold(entries, chains) && slot < SLOTS && NotHeld(chains, slot)
      modifies next
      ensures Hold(entries, chains) && next[slot] == -1
    {
      hide EntryHolds;
      next[slot] := -1;
      forall e | 0 <= e < ENTRIES ensures EntryHolds(fragments[e], entries[e], chains[e], next[..]) {
        HoldElsewhere(fragments[e], entries[e], chains[e], old(next[..]), slot, -1);
        assert next[..] == old(next[..])[slot := -1];
      }
    }

    /** Hold a slot behind the others of entry e. */
    method Append(e: nat, slot: nat, ghost entries: seq<Entry>, ghost chains: ItemLists, ghost item: Item)
      requires Hold(entries, chains) && e < ENTRIES && slot < SLOTS && item.slot == slot
      requires entries[e].used && NotHeld(chains, slot) && SlotsDistinct(chains) && next[slot] == -1
      modifies fragments, next
      ensures Hold(entries, chains[e := chains[e] + [item]])
    {
      hide EntryHolds, Linked;
      var f := fragments[e];
      assert EntryHolds(f, entries[e], chains[e], next[..]);
      assert SameEntry(f, entries[e]) && f.count == |chains[e]| && Linked(f.first, f.last, chains[e], next[..]) by {
        EntryHoldsFacts(f, entries[e], chains[e], next[..]);
      }
      LinkedAppend(f.first, f.last, chains[e], next[..], item);
      if f.last >= 0 {
        next[f.last] := slot;
      } else {
        f := f.(first := slot);
      }
      f := f.(last := slot, count := f.count + 1);
      fragments[e] := f;
      ghost var chains' := chains[e := chains[e] + [item]];
      ghost var last := old(fragments[e]).last;
      assert next[..] == if last >= 0 then old(next[..])[last := slot] else old(next[..]);
      MakesEntryHold(f, entries[e], chains'[e], next[..]);
      forall g | 0 <= g < ENTRIES ensures EntryHolds(fragments[g], entries[g], chains'[g], next[..]) {
        if g != e {
          assert EntryHolds(fragments[g], entries[g], chains[g], old(next[..]));
          if last >= 0 {
            LastIsHeld(old(fragments[e]), chains[e], old(next[..]));
            HoldElsewhere(fragments[g], entries[g], chains[g], old(next[..]), last, slot);
          }
        }
      }
    }

    lemma EntryHoldsFacts(r: FragmentEntry, f: Entry, chain: seq<Item>, nexts: seq<int>)
      requires EntryHolds(r, f, chain, nexts) && f.used
      ensures SameEntry(r, f) && r.count == |chain| && Linked(r.first, r.last, chain, nexts)
    {
    }

    lemma MakesEntryHold(r: FragmentEntry, f: Entry, chain: seq<Item>, nexts: seq<int>)
      requires SameEntry(r, f) && r.count == |chain| && Linked(r.first, r.last, chain, nexts)
      ensures EntryHolds(r, f, chain, nexts)
    {
    }

    lemma LastIsHeld(r: FragmentEntry, chain: seq<Item>, nexts: seq<int>)
      requires Linked(r.first, r.last, chain, nexts) && r.last >= 0
      ensures chain != [] && chain[|chain| - 1].slot == r.last
    {
    }

    lemma HoldAt(e: nat, entries: seq<Entry>, chains: ItemLists)
      requires Hold(entries, chains) && e < ENTRIES
      ensures SameEntry(fragments[e], entries[e]) && fragments[e].count == |chains[e]|
      ensures entries[e].used ==> Linked(fragments[e].first, fragments[e].last, chains[e], next[..])
    {
      hide Linked;
      assert EntryHolds(fragments[e], entries[e], chains[e], next[..]);
    }

    /** Write entry e. */
    method Put(e: nat, f: FragmentEntry, ghost entries: seq<Entry>, ghost chains: ItemLists,
               ghost entry: Entry, ghost chain: seq<Item>)
      requires Hold(entries, chains) && e < ENTRIES && EntryHolds(f, entry, chain, next[..])
      modifies fragments
      ensures Hold(entries[e := entry], chains[e := chain])
    {
      hide EntryHolds;
      fragments[e] := f;
    }

    /** Decide about a fragment, opening the entry if it has never been used. */
    method JudgeFragment(e: nat, p: FlowPacket, queue: nat, now: nat, ghost entries: seq<Entry>, ghost chains: ItemLists)
      returns (v: Verdict)
      requires Hold(entries, chains) && e < ENTRIES && (!entries[e].used ==> chains[e] == [])
      modifies fragments
      ensures v == Judge(entries[e], |chains[e]|, e, p, queue, now).1
      ensures Hold(entries[e := Judge(entries[e], |chains[e]|, e, p, queue, now).0], chains)
    {
      HoldAt(e, entries, chains);
      var f := fragments[e];
      if !f.used {
        f := f.(used := true, key := p.fragmentKey, first := -1, last := -1, deadline := now + HOLD_SECONDS);
      }
      if f.key != p.fragmentKey || f.resolved == Refused || now >= f.deadline
         || (f.resolved == Unresolved && !p.first && f.count == CHAIN_LIMIT) {
        v := Refuse;
      } else if p.first {
        if f.resolved != Unresolved && f.queue != queue {
          f := f.(resolved := Refused);
          v := Refuse;
        } else {
          f := f.(resolved := Bound, queue := queue);
          v := Send(queue, Some(e));
        }
      } else if f.resolved != Unresolved {
        v := Send(f.queue, Some(e));
      } else {
        v := Verdict.Hold(e);
      }
      Put(e, f, entries, chains, Judge(entries[e], |chains[e]|, e, p, queue, now).0, chains[e]);
      assert chains[e := chains[e]] == chains;
    }

    /** Let go of everything entry e holds. */
    method Clear(e: nat, resolved: Resolved, ghost entries: seq<Entry>, ghost chains: ItemLists)
      requires Hold(entries, chains) && e < ENTRIES
      modifies fragments
      ensures Hold(entries[e := entries[e].(resolved := resolved)], chains[e := []])
    {
      HoldAt(e, entries, chains);
      Put(e, fragments[e].(resolved := resolved, first := -1, last := -1, count := 0), entries, chains,
          entries[e].(resolved := resolved), []);
    }
  }
}
