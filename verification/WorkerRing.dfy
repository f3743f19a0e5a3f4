/** The growing ring buffer a manager keeps its workers in (service/mgr/worker_info.go): it refines a bag. */
module WorkerRing {
  import opened Common

  /** A worker context; workers are told apart by identity. */
  type Worker = nat

  /** How often a worker is in the slots. */
  function Count(slots: seq<Option<Worker>>, w: Worker): nat {
    multiset(slots)[Some(w)]
  }

  /** Writing one slot changes the bag by what was and what is in that slot. */
  lemma CountUpdate(slots: seq<Option<Worker>>, k: nat, slot: Option<Worker>, w: Worker)
    requires k < |slots|
    ensures Count(slots[k := slot], w) + (if slots[k] == Some(w) then 1 else 0) ==
              Count(slots, w) + (if slot == Some(w) then 1 else 0)
  {
    var rest := slots[..k] + slots[k + 1..];
    CountSplit(slots, k, w);
    CountSplit(slots[k := slot], k, w);
    assert slots[k := slot][..k] == slots[..k] && slots[k := slot][k + 1..] == slots[k + 1..];
  }

  lemma CountSplit(slots: seq<Option<Worker>>, k: nat, w: Worker)
    requires k < |slots|
    ensures Count(slots, w) ==
              Count(slots[..k], w) + (if slots[k] == Some(w) then 1 else 0) + Count(slots[k + 1..], w)
  {
    assert slots == slots[..k] + [slots[k]] + slots[k + 1..];
  }

  /** A ring with the old slots in front, the worker behind them, and free slots for the rest. */
  lemma CountGrown(slots: seq<Option<Worker>>, n: nat, grown: seq<Option<Worker>>, w: Worker, v: Worker)
    requires n == |slots| < |grown| && grown[n] == Some(w)
    requires forall k :: 0 <= k < n ==> grown[k] == slots[k]
    requires forall k :: n < k < |grown| ==> grown[k].None?
    ensures Count(grown, v) == Count(slots, v) + if v == w then 1 else 0
  {
    CountSplit(grown, n, v);
    assert grown[..n] == slots;
    assert Some(v) !in grown[n + 1..];
  }

  /** Indices wrap around once at most. */
  lemma Wraps(x: nat, n: nat)
    requires x < 2 * n
    ensures x % n == if x < n then x else x - n
  {
    if x >= n {
      assert x == n + (x - n);
    }
  }

  class Manager {
    var workers: array<Option<Worker>>
    var workersIndex: nat

    ghost predicate Valid()
      reads this, workers
    {
      workersIndex < workers.Length
    }

    /** The bag of workers: how often each one is registered. */
    ghost function Running(w: Worker): nat
      reads this, workers
    {
      Count(workers[..], w)
    }

    constructor ()
      ensures Valid() && fresh(workers) && forall v: Worker :: Running(v) == 0
    {
      workers := new Option<Worker>[4](_ => None);
      workersIndex := 0;
      new;
      assert forall v: Worker :: Some(v) !in workers[..];
    }

    method Put(k: nat, slot: Option<Worker>)
      requires k < workers.Length
      modifies workers
      ensures workers[..] == old(workers[..])[k := slot]
      ensures forall v: Worker :: Running(v) + (if old(workers[k]) == Some(v) then 1 else 0) ==
                          old(Running(v)) + if slot == Some(v) then 1 else 0
    {
      forall v: Worker {
        CountUpdate(workers[..], k, slot, v);
      }
      workers[k] := slot;
    }

    /** registerWorker: adds the worker once, keeps all others, and grows exactly when no slot is free. */
    method RegisterWorker(w: Worker)
      requires Valid()
      modifies this, workers
      ensures Valid() && (workers == old(workers) || fresh(workers))
      ensures forall v: Worker :: Running(v) == old(Running(v)) + if v == w then 1 else 0
      ensures workers.Length == old(if HasFree() then workers.Length else 4 * workers.Length)
    {
      var found := FindFree();
      if found {
        Put(workersIndex, Some(w));
      } else {
        Grow(w);
      }
    }

    ghost predicate HasFree()
      reads this, workers
    {
      exists k :: 0 <= k < workers.Length && workers[k].None?
    }

    /** Iterates forwards over the ring until the index is at a free slot, or all slots were checked. */
    method FindFree() returns (found: bool)
      requires Valid()
      modifies this`workersIndex
      ensures Valid() && (found <==> HasFree())
      ensures found ==> workers[workersIndex].None?
    {
      var n := workers.Length;
      Wraps(workersIndex + n - 1, n);
      var end := (workersIndex - 1 + n) % n;
      ghost var start := workersIndex;
      ghost var seen := 0;
      while true
        invariant workersIndex < n && seen < n && start < n
        invariant workersIndex == (if start + seen < n then start + seen else start + seen - n)
        invariant end == (if start == 0 then n - 1 else start - 1)
        invariant forall k :: 0 <= k < n && (start <= k < start + seen || start <= k + n < start + seen) ==>
                    workers[k].Some?
        decreases n - seen
      {
        if workers[workersIndex].None? {
          return true;
        }
        if workersIndex == end {
          return false;
        }
        Wraps(workersIndex + 1, n);
        workersIndex := (workersIndex + 1) % n;
        seen := seen + 1;
      }
    }

    /** The ring is copied into one of four times its size, with the new entry behind the others. */
    method Grow(w: Worker)
      requires Valid()
      modifies this
      ensures Valid() && fresh(workers) && workers.Length == 4 * old(workers.Length)
      ensures forall v: Worker :: Running(v) == old(Running(v)) + if v == w then 1 else 0
    {
      var n := workers.Length;
      ghost var before := workers[..];
      var newRingBuf := new Option<Worker>[n * 4](_ => None);
      forall k | 0 <= k < n {
        newRingBuf[k] := workers[k];
      }
      workersIndex := n;
      newRingBuf[workersIndex] := Some(w);
      workersIndex := workersIndex + 1;
      workers := newRingBuf;
      forall v: Worker ensures Running(v) == Count(before, v) + if v == w then 1 else 0 {
        CountGrown(before, n, workers[..], w, v);
      }
    }

    /** unregisterWorker: one occurrence goes, wherever it is in the ring, and all others stay. */
    method UnregisterWorker(w: Worker)
      requires Valid()
      modifies workers
      ensures Valid()
      ensures forall v: Worker :: Running(v) == old(Running(v)) - if v == w && old(Running(w)) > 0 then 1 else 0
    {
      var i := FindBackwards(w);
      if i.Some? {
        Put(i.value, None);
      } else {
        assert Some(w) !in workers[..];
      }
    }

    /** Iterates backwards over the ring until the entry is found or all slots were checked. */
    method FindBackwards(w: Worker) returns (found: Option<nat>)
      requires Valid()
      ensures found.Some? ==> found.value < workers.Length && workers[found.value] == Some(w)
      ensures found.None? ==> forall k :: 0 <= k < workers.Length ==> workers[k] != Some(w)
    {
      var n := workers.Length;
      var i := workersIndex;
      Wraps(i + 1, n);
      var end := (i + 1) % n;
      ghost var seen := 0;
      while true
        invariant i < n && seen < n
        invariant i == (if seen <= workersIndex then workersIndex - seen else workersIndex + n - seen)
        invariant end == (if workersIndex == n - 1 then 0 else workersIndex + 1)
        invariant forall k :: 0 <= k < n && (workersIndex - seen < k <= workersIndex || workersIndex + n - seen < k)
                    ==> workers[k] != Some(w)
        decreases n - seen
      {
        if workers[i] == Some(w) {
          return Some(i);
        }
        if i == end {
          return None;
        }
        Wraps(i + n - 1, n);
        i := (i - 1 + n) % n;
        seen := seen + 1;
      }
    }
  }
}
