// The completion queues: __fill_cq_result_for_FTL writes one entry after the other into a
// circular buffer and flips the phase bit on every lap (NVM Express Base Specification 1.4,
// section 4.6).
module CompletionQueue {
  import opened MixedRadix

  datatype Cqe = Cqe(commandId: nat, sqId: nat, sqHead: nat, result0: nat, result1: nat, status: nat)

  // The lowest bit of the status word.
  function Phase(e: Cqe): nat {
    e.status % 2
  }

  // The phase of the n-th entry: 1 on the first lap, then alternating.
  function PhaseOf(n: nat, size: nat): nat
    requires 0 < size
  {
    1 - n / size % 2
  }

  // The buffer after the entries of log were posted: slots not reached yet carry phase 0, as
  // the host leaves them.
  ghost predicate Holds(slots: seq<Cqe>, log: seq<Cqe>) {
    && 0 < |slots|
    && (forall n: nat :: n < |log| ==> Phase(log[n]) == PhaseOf(n, |slots|))
    && (forall n: nat :: n < |log| <= n + |slots| ==> slots[n % |slots|] == log[n])
    && (forall i: nat :: |log| <= i < |slots| ==> Phase(slots[i]) == 0)
  }

  lemma DivMod(n: nat, size: nat, lap: nat, i: nat)
    requires n == lap * size + i && i < size
    ensures n / size == lap && n % size == i
  {
    MixDivMod(lap, i, size);
  }

  lemma NextLap(n: nat, size: nat)
    requires 0 < size
    ensures (n + size) % size == n % size && (n + size) / size == n / size + 1
    ensures PhaseOf(n + size, size) != PhaseOf(n, size)
  {
    Euclid(n, size);
    DivMod(n + size, size, n / size + 1, n % size);
  }

  lemma Succ(n: nat, size: nat)
    requires 0 < size
    ensures if n % size + 1 == size then (n + 1) % size == 0 && (n + 1) / size == n / size + 1
            else (n + 1) % size == n % size + 1 && (n + 1) / size == n / size
  {
    Euclid(n, size);
    if n % size + 1 == size {
      DivMod(n + 1, size, n / size + 1, 0);
    } else {
      DivMod(n + 1, size, n / size, n % size + 1);
    }
  }

  // Two entries of the last lap never share a slot.
  lemma SameSlot(m: nat, n: nat, size: nat)
    requires 0 < size && m <= n < m + size && m % size == n % size
    ensures m == n
  {
    Euclid(m, size);
    Euclid(n, size);
    MulLe(m / size + 1, n / size, size);
    MulLe(n / size + 1, m / size, size);
  }

  lemma PostKeeps(slots: seq<Cqe>, log: seq<Cqe>, e: Cqe)
    requires Holds(slots, log) && Phase(e) == PhaseOf(|log|, |slots|)
    ensures Holds(slots[|log| % |slots| := e], log + [e])
  {
    var size, at := |slots|, |log| % |slots|;
    var after := slots[at := e];
    forall n: nat | n < |log| + 1 <= n + size ensures after[n % size] == (log + [e])[n] {
      if n < |log| && n % size == at { SameSlot(n, |log|, size); }
    }
    forall i: nat | |log| + 1 <= i < size ensures Phase(after[i]) == 0 {
      DivMod(|log|, size, 0, |log|);
    }
  }

  // A host that has read the first `read` entries, none of which was overtaken, finds the phase
  // it waits for in the next slot exactly when a new entry was posted, and then finds that entry.
  lemma PhaseTellsNew(slots: seq<Cqe>, log: seq<Cqe>, read: nat)
    requires Holds(slots, log) && read <= |log| <= read + |slots|
    ensures Phase(slots[read % |slots|]) == PhaseOf(read, |slots|) <==> read < |log|
    ensures read < |log| ==> slots[read % |slots|] == log[read]
  {
    var size := |slots|;
    if read == |log| {
      if read < size {
        DivMod(read, size, 0, read);
      } else {
        NextLap(read - size, size);
        assert slots[(read - size) % size] == log[read - size];
      }
    }
  }

  class Cq {
    const slots: array<Cqe>
    var cqHead: nat
    var phase: nat
    var interruptReady: bool
    ghost var log: seq<Cqe>

    ghost predicate Valid()
      reads this, slots
    {
      && Holds(slots[..], log)
      && cqHead == |log| % slots.Length
      && phase == PhaseOf(|log|, slots.Length)
    }

    // __nvmev_admin_create_cq
    constructor (queueSize: nat, blank: Cqe)
      requires 0 < queueSize && Phase(blank) == 0
      ensures Valid() && fresh(slots) && slots.Length == queueSize && log == [] && !interruptReady
    {
      slots := new Cqe[queueSize](_ => blank);
      cqHead, phase, interruptReady, log := 0, 1, false, [];
      DivMod(0, queueSize, 0, 0);
    }

    // __fill_cq_result_for_FTL
    method Fill(commandId: nat, sqId: nat, sqHead: nat, result0: nat, result1: nat, status: nat)
      requires Valid()
      modifies this, slots
      ensures Valid() && interruptReady
      ensures log == old(log) +
                [Cqe(commandId, sqId, sqHead, result0, result1, PhaseOf(|old(log)|, slots.Length) + 2 * status)]
    {
      ghost var e := Cqe(commandId, sqId, sqHead, result0, result1, phase + 2 * status);
      PostKeeps(slots[..], log, e);
      Succ(|log|, slots.Length);
      var head := cqHead;
      slots[head] := Cqe(commandId, sqId, sqHead, result0, result1, phase + 2 * status);
      head := head + 1;
      if head == slots.Length {
        head := 0;
        phase := 1 - phase;
      }
      cqHead := head;
      interruptReady := true;
      log := log + [e];
    }
  }
}
