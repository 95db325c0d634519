/** The workers' queues as the program keeps them: one ring of cells per worker, with
    cursors that wrap at the machine word. */
module DispatchRings {
  import opened DispatchState
  import opened DispatchPlaces

  const WORD: nat := 0x1_0000_0000

  /** Positions less than a ring apart are in different cells. */
  lemma CellsDiffer(j: nat, k: nat)
    requires k < j < k + SLOTS
    ensures j % SLOTS != k % SLOTS
  {
  }

  lemma CellOfSum(m: nat, r: nat)
    ensures (m * SLOTS + r) % SLOTS == r % SLOTS
  {
  }

  /** A cursor that has wrapped still points at the right cell. */
  lemma WordKeepsCell(k: nat)
    ensures (k % WORD) % SLOTS == k % SLOTS
  {
    var m, r := k / WORD * 8388608, k % WORD;
    assert k == m * SLOTS + r;
    CellOfSum(m, r);
  }

  class Rings {
    const workers: nat
    const head: array<nat>
    const tail: array<nat>
    const count: array<nat>
    const queues: array2<nat>

    ghost predicate Shape() {
      && workers <= MAX_WORKERS
      && head.Length == tail.Length == count.Length == queues.Length0 == MAX_WORKERS && queues.Length1 == SLOTS
      && head != tail && head != count && tail != count
    }

    /** Ring w holds the slots in sent[w] from position got[w] on, each in the cell of its
        position, however far the cursors have wrapped. */
    ghost predicate RingHolds(sent: ItemLists, got: seq<nat>, w: nat)
      requires Shape() && w < workers == |sent| == |got|
      reads head, tail, count, queues
    {
      var (n, g) := (|sent[w]|, got[w]);
      && g <= n <= g + SLOTS && count[w] == n - g && head[w] == g % WORD && tail[w] == n % WORD
      && forall k :: g <= k < n ==> queues[w, k % SLOTS] == sent[w][k].slot
    }

    ghost predicate Hold(sent: ItemLists, got: seq<nat>)
      reads head, tail, count, queues
    {
      Shape() && |sent| == |got| == workers && forall w :: 0 <= w < workers ==> RingHolds(sent, got, w)
    }

    constructor (workerCount: nat)
      requires workerCount <= MAX_WORKERS
      ensures workers == workerCount && Shape()
      ensures fresh(head) && fresh(tail) && fresh(count) && fresh(queues)
      ensures forall w :: 0 <= w < MAX_WORKERS ==> head[w] == 0
      ensures forall w :: 0 <= w < MAX_WORKERS ==> tail[w] == 0
      ensures forall w :: 0 <= w < MAX_WORKERS ==> count[w] == 0
    {
      workers := workerCount;
      head := new nat[MAX_WORKERS](_ => 0);
      tail := new nat[MAX_WORKERS](_ => 0);
      count := new nat[MAX_WORKERS](_ => 0);
      queues := new nat[MAX_WORKERS, SLOTS]((_, _) => 0);
    }

    /** Write the cell at the tail and move the tail on. */
    method WriteTail(slot: nat, q: nat, ghost n: nat)
      requires Shape() && q < workers && tail[q] == n % WORD
      modifies tail, count, queues
      ensures tail[q] == (n + 1) % WORD && count[q] == old(count[q]) + 1 && queues[q, n % SLOTS] == slot
      ensures forall w :: 0 <= w < MAX_WORKERS && w != q ==> tail[w] == old(tail[w])
      ensures forall w :: 0 <= w < MAX_WORKERS && w != q ==> count[w] == old(count[w])
      ensures forall w, j :: 0 <= w < MAX_WORKERS && 0 <= j < SLOTS && (w != q || j != n % SLOTS) ==>
        queues[w, j] == old(queues[w, j])
    {
      WordKeepsCell(n);
      queues[q, tail[q] % SLOTS] := slot;
      tail[q] := (tail[q] + 1) % WORD;
      count[q] := count[q] + 1;
    }

    /** The slot goes into the next cell, which never holds another slot that is still queued. */
    method Push(slot: nat, q: nat, ghost sent: ItemLists, ghost got: seq<nat>, ghost item: Item)
      requires Hold(sent, got) && q < workers && item.slot == slot
      requires |sent[q]| < got[q] + SLOTS
      modifies tail, count, queues
      ensures Hold(sent[q := sent[q] + [item]], got)
    {
      assert RingHolds(sent, got, q);
      ghost var n := |sent[q]|;
      WriteTail(slot, q, n);
      ghost var sent' := sent[q := sent[q] + [item]];
      forall w | 0 <= w < workers ensures RingHolds(sent', got, w) {
        assert old(RingHolds(sent, got, w));
        if w == q {
          forall k | got[q] <= k < n + 1 ensures queues[q, k % SLOTS] == sent'[q][k].slot {
            if k < n { CellsDiffer(n, k); }
          }
        } else {
          assert sent'[w] == sent[w];
        }
      }
    }

    /** Read the cell at the head and move the head on. */
    method ReadHead(w: nat, ghost g: nat) returns (slot: nat)
      requires Shape() && w < workers && head[w] == g % WORD && count[w] > 0
      modifies head, count
      ensures head[w] == (g + 1) % WORD && count[w] == old(count[w]) - 1 && slot == queues[w, g % SLOTS]
      ensures forall v :: 0 <= v < MAX_WORKERS && v != w ==> head[v] == old(head[v])
      ensures forall v :: 0 <= v < MAX_WORKERS && v != w ==> count[v] == old(count[v])
    {
      WordKeepsCell(g);
      slot := queues[w, head[w] % SLOTS];
      head[w] := (head[w] + 1) % WORD;
      count[w] := count[w] - 1;
    }

    /** The oldest slot the worker has not taken. */
    method Pop(w: nat, ghost sent: ItemLists, ghost got: seq<nat>) returns (slot: nat)
      requires Hold(sent, got) && w < workers && count[w] > 0
      modifies head, count
      ensures got[w] < |sent[w]| && slot == sent[w][got[w]].slot
      ensures Hold(sent, got[w := got[w] + 1])
    {
      assert RingHolds(sent, got, w);
      slot := ReadHead(w, got[w]);
      ghost var got' := got[w := got[w] + 1];
      forall v | 0 <= v < workers ensures RingHolds(sent, got', v) {
        assert old(RingHolds(sent, got, v));
      }
    }
  }
}
