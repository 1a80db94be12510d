// The single-producer single-consumer rings between a dispatcher and an FTL thread.  Every
// cell carries its own flag, the producer owns the tail index and the consumer the head index.
module RingOrder {
  datatype Cell<T> = Cell(full: bool, entry: T)

  // Cell k counted from head in a ring of n cells.
  function At(head: nat, k: nat, n: nat): nat {
    if head + k < n then head + k else head + k - n
  }

  // One past an index, as both sides compute it.
  function Bump(i: nat, n: nat): nat {
    if i + 1 >= n then 0 else i + 1
  }

  // The full cells are the circular segment from head to tail and hold q, oldest first.
  ghost predicate Holds<T>(cells: seq<Cell<T>>, head: nat, tail: nat, q: seq<T>) {
    && head < |cells| && |q| <= |cells|
    && tail == At(head, |q|, |cells|)
    && (forall k :: 0 <= k < |cells| ==> (cells[At(head, k, |cells|)].full <==> k < |q|))
    && (forall k :: 0 <= k < |q| ==> cells[At(head, k, |cells|)].entry == q[k])
  }

  // What the producer does: fill the cell at the tail and move on.
  function Write<T>(cells: seq<Cell<T>>, tail: nat, x: T): seq<Cell<T>>
    requires tail < |cells|
  {
    cells[tail := Cell(true, x)]
  }

  function Clear<T>(cells: seq<Cell<T>>, head: nat): seq<Cell<T>>
    requires head < |cells|
  {
    cells[head := cells[head].(full := false)]
  }

  // The flag the consumer looks at tells exactly whether something is there, and the flag the
  // producer looks at whether there is room.
  lemma FlagsTell<T>(cells: seq<Cell<T>>, head: nat, tail: nat, q: seq<T>)
    requires Holds(cells, head, tail, q)
    ensures cells[head].full <==> q != []
    ensures q != [] ==> cells[head].entry == q[0]
    ensures tail < |cells| && (cells[tail].full <==> |q| == |cells|)
  {
    var n := |cells|;
    assert At(head, 0, n) == head;
    if |q| < n {
      assert At(head, |q|, n) == tail;
    } else {
      assert tail == head;
    }
  }

  lemma WriteAppends<T>(cells: seq<Cell<T>>, head: nat, tail: nat, q: seq<T>, x: T)
    requires Holds(cells, head, tail, q) && |q| < |cells|
    ensures Holds(Write(cells, tail, x), head, Bump(tail, |cells|), q + [x])
  {
    var n := |cells|;
    forall k | 0 <= k < n && k != |q| ensures Write(cells, tail, x)[At(head, k, n)] == cells[At(head, k, n)] {
      assert At(head, k, n) != tail;
    }
  }

  lemma ClearRemoves<T>(cells: seq<Cell<T>>, head: nat, tail: nat, q: seq<T>)
    requires Holds(cells, head, tail, q) && q != []
    ensures Holds(Clear(cells, head), Bump(head, |cells|), tail, q[1..])
  {
    var n := |cells|;
    var h := Bump(head, n);
    var after := Clear(cells, head);
    forall k | 0 <= k < n
      ensures after[At(h, k, n)].full <==> k < |q| - 1
      ensures after[At(h, k, n)].entry == cells[At(h, k, n)].entry
    {
      if k + 1 < n {
        assert At(h, k, n) == At(head, k + 1, n) != head;
      } else {
        assert At(h, k, n) == head;
      }
    }
    forall k | 0 <= k < |q| - 1 ensures after[At(h, k, n)].entry == q[1..][k] {
      assert At(h, k, n) == At(head, k + 1, n);
    }
  }

  // The producer does not look whether the cell is free (the check is an assertion that is
  // compiled out).  Its write appends to the queue exactly when the ring is not full; on a full
  // ring the oldest unread entry is gone.
  lemma WriteAppendsIffRoom<T>(cells: seq<Cell<T>>, head: nat, tail: nat, q: seq<T>, x: T)
    requires Holds(cells, head, tail, q)
    ensures Holds(Write(cells, tail, x), head, Bump(tail, |cells|), q + [x]) <==> |q| < |cells|
    ensures |q| == |cells| ==> Write(cells, tail, x)[head].entry == x
  {
    FlagsTell(cells, head, tail, q);
    if |q| < |cells| {
      WriteAppends(cells, head, tail, q, x);
    } else {
      assert tail == head;
    }
  }
}

module FlagRing {
  import opened RingOrder

  class Ring<T> {
    const cells: array<Cell<T>>
    var head: nat
    var tail: nat
    ghost var queue: seq<T>

    ghost predicate Valid()
      reads this, cells
    {
      Holds(cells[..], head, tail, queue)
    }

    constructor (size: nat, blank: T)
      requires 0 < size
      ensures Valid() && fresh(cells) && cells.Length == size && queue == []
    {
      head, tail, queue := 0, 0, [];
      cells := new Cell<T>[size](_ => Cell(false, blank));
    }

    // __enqueue_io_req_to_ftl: whether there is room is only looked at by an assertion that is
    // compiled out.  With room the entry is appended; without, it replaces the oldest unread one.
    method Enqueue(x: T)
      requires Valid()
      modifies this`tail, this`queue, cells
      ensures |old(queue)| < cells.Length ==> Valid() && queue == old(queue) + [x] && !old(cells[tail].full)
      ensures |old(queue)| == cells.Length ==> old(cells[tail].full) && old(tail) == head && cells[head].entry == x
      ensures old(tail) < cells.Length && cells[..] == Write(old(cells[..]), old(tail), x)
      ensures tail == Bump(old(tail), cells.Length)
    {
      FlagsTell(cells[..], head, tail, queue);
      ghost var was := cells[..];
      if |queue| < cells.Length {
        WriteAppends(was, head, tail, queue, x);
      }
      cells[tail] := Cell(true, x);
      assert cells[..] == Write(was, tail, x);
      tail := Bump(tail, cells.Length);
      queue := queue + [x];
    }

    // check_resp_to_dispatcher: nothing is written over a cell still in use.
    method TryEnqueue(x: T) returns (ok: bool)
      requires Valid()
      modifies this`tail, this`queue, cells
      ensures Valid() && (ok <==> |old(queue)| < cells.Length)
      ensures queue == if ok then old(queue) + [x] else old(queue)
    {
      FlagsTell(cells[..], head, tail, queue);
      ok := !cells[tail].full;
      if ok {
        Enqueue(x);
      }
    }

    // The consumer's side: look at the flag, read, clear the flag.
    method TryDequeue() returns (got: bool, x: T)
      requires Valid()
      modifies this`head, this`queue, cells
      ensures Valid() && (got <==> old(queue) != [])
      ensures got ==> x == old(queue)[0] && queue == old(queue)[1..]
      ensures !got ==> queue == old(queue)
    {
      FlagsTell(cells[..], head, tail, queue);
      got, x := cells[head].full, cells[head].entry;
      if got {
        ClearRemoves(cells[..], head, tail, queue);
        cells[head] := cells[head].(full := false);
        head := Bump(head, cells.Length);
        queue := queue[1..];
      }
    }
  }
}
