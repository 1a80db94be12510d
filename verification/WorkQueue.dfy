// The work queue of an I/O worker (io.c): one fixed array whose entries are chained by index
// into a free chain and an I/O chain that is kept almost sorted by target time.
module Chains {
  import opened Collections

  // The links lead through q in order and end with -1.
  ghost predicate Linked(next: seq<int>, q: seq<nat>) {
    && q != [] && (forall i :: 0 <= i < |q| ==> q[i] < |next|)
    && (forall i :: 0 <= i < |q| - 1 ==> next[q[i]] == q[i + 1])
    && next[q[|q| - 1]] == -1
  }

  // And back again.
  ghost predicate LinkedBack(prev: seq<int>, q: seq<nat>) {
    && q != [] && (forall i :: 0 <= i < |q| ==> q[i] < |prev|)
    && (forall i :: 0 < i < |q| ==> prev[q[i]] == q[i - 1])
    && prev[q[0]] == -1
  }

  ghost predicate Apart(a: seq<nat>, b: seq<nat>) {
    NoDup(a) && NoDup(b) && forall x :: x in a ==> x !in b
  }

  lemma ApartNoDup(a: seq<nat>, b: seq<nat>)
    requires Apart(a, b)
    ensures NoDup(a) && NoDup(b)
  {
  }

  // A changed link outside the chain does not matter to it.
  lemma LinkedElsewhere(next: seq<int>, q: seq<nat>, x: nat, v: int)
    requires x < |next| && x !in q
    ensures Linked(next, q) ==> Linked(next[x := v], q)
    ensures LinkedBack(next, q) ==> LinkedBack(next[x := v], q)
  {
    assert forall i :: 0 <= i < |q| ==> q[i] in q;
  }

  lemma LinkedRest(next: seq<int>, q: seq<nat>)
    requires Linked(next, q) && |q| > 1
    ensures Linked(next, q[1..]) && next[q[0]] == q[1]
  {
  }

  // ----- Insertion into the I/O chain -----

  function InsertAt(q: seq<nat>, p: nat, e: nat): seq<nat>
    requires p <= |q|
  {
    q[..p] + [e] + q[p..]
  }

  lemma InsertAtApart(q: seq<nat>, p: nat, e: nat)
    requires p <= |q| && NoDup(q) && e !in q
    ensures NoDup(InsertAt(q, p, e)) && forall x :: x in InsertAt(q, p, e) <==> x == e || x in q
  {
    InsertAtIndex(q, p, e);
    hide InsertAt;
    var r := InsertAt(q, p, e);
    assert r[p] == e;
    forall x | x in q ensures x in r {
      var i :| 0 <= i < |q| && q[i] == x;
      assert r[if i < p then i else i + 1] == x;
    }
    forall i, j | 0 <= i < j < |r| ensures r[i] != r[j] {
      assert i != p ==> r[i] in q;
      assert j != p ==> r[j] in q;
    }
  }

  lemma InsertAtIndex(q: seq<nat>, p: nat, e: nat)
    requires p <= |q|
    ensures |InsertAt(q, p, e)| == |q| + 1
    ensures forall i :: 0 <= i <= |q| ==> InsertAt(q, p, e)[i] == if i < p then q[i] else if i == p then e else q[i - 1]
  {
  }

  // The links after insertion behind position p - 1, and in front of position p.
  function Next2(next: seq<int>, q: seq<nat>, p: nat, e: nat): (r: seq<int>)
    requires p <= |q| && e < |next| && forall i :: 0 <= i < |q| ==> q[i] < |next|
    ensures |r| == |next|
  {
    var n1 := next[e := if p < |q| then q[p] else -1];
    if p > 0 then n1[q[p - 1] := e] else n1
  }

  function Prev2(prev: seq<int>, q: seq<nat>, p: nat, e: nat): (r: seq<int>)
    requires p <= |q| && e < |prev| && forall i :: 0 <= i < |q| ==> q[i] < |prev|
    ensures |r| == |prev|
  {
    var p1 := prev[e := if p > 0 then q[p - 1] else -1];
    if p < |q| then p1[q[p] := e] else p1
  }

  lemma InsertLinked(next: seq<int>, q: seq<nat>, p: nat, e: nat)
    requires Linked(next, q) && NoDup(q) && p <= |q| && e < |next| && e !in q
    ensures Linked(Next2(next, q, p, e), InsertAt(q, p, e))
  {
    InsertAtIndex(q, p, e);
    var r, n := InsertAt(q, p, e), Next2(next, q, p, e);
    forall i | 0 <= i < |q| ensures q[i] != e && (i != p - 1 ==> n[q[i]] == next[q[i]]) {
      assert q[i] in q;
    }
    forall i | 0 <= i < |r| - 1 ensures n[r[i]] == r[i + 1] {
      if i > p { assert r[i] == q[i - 1] && r[i + 1] == q[i - 1 + 1]; }
      if i < p - 1 { assert r[i] == q[i] && r[i + 1] == q[i + 1]; }
    }
  }

  lemma InsertLinkedBack(prev: seq<int>, q: seq<nat>, p: nat, e: nat)
    requires LinkedBack(prev, q) && NoDup(q) && p <= |q| && e < |prev| && e !in q
    ensures LinkedBack(Prev2(prev, q, p, e), InsertAt(q, p, e))
  {
    InsertAtIndex(q, p, e);
    var r, n := InsertAt(q, p, e), Prev2(prev, q, p, e);
    forall i | 0 <= i < |q| ensures q[i] != e && (i != p ==> n[q[i]] == prev[q[i]]) {
      assert q[i] in q;
    }
    forall i | 0 < i < |r| ensures n[r[i]] == r[i - 1] {
      if i > p + 1 { assert r[i] == q[i - 1] && r[i - 1] == q[i - 1 - 1]; }
      if i < p { assert r[i] == q[i] && r[i - 1] == q[i - 1]; }
    }
  }

  // ----- Reclaiming a prefix -----

  lemma CutLinked(next: seq<int>, q: seq<nat>, m: nat)
    requires Linked(next, q) && NoDup(q) && 0 < m <= |q|
    ensures Linked(next[q[m - 1] := -1], q[..m])
    ensures m < |q| ==> Linked(next[q[m - 1] := -1], q[m..]) && next[q[m - 1]] == q[m]
    ensures m == |q| ==> next[q[m - 1]] == -1
  {
  }

  lemma JoinLinked(next: seq<int>, a: seq<nat>, b: seq<nat>)
    requires Linked(next, a) && Linked(next, b) && Apart(a, b)
    ensures Linked(next[a[|a| - 1] := b[0]], a + b)
  {
    var n', c := next[a[|a| - 1] := b[0]], a + b;
    assert forall i :: 0 <= i < |b| ==> b[i] in b;
    assert forall i :: 0 <= i < |a| ==> a[i] in a;
    forall i | 0 <= i < |c| - 1 ensures n'[c[i]] == c[i + 1] {
      if i >= |a| { assert c[i] == b[i - |a|] && c[i + 1] == b[i - |a| + 1]; }
    }
    assert c[|c| - 1] == b[|b| - 1];
  }

  // ----- The order by target time -----

  // An entry still ahead of the clock is followed only by entries that are due no earlier.
  ghost predicate Ordered(target: seq<nat>, q: seq<nat>, latest: nat) {
    && (forall i :: 0 <= i < |q| ==> q[i] < |target|)
    && (forall i, j :: 0 <= i < j < |q| && target[q[i]] > latest ==> target[q[i]] <= target[q[j]])
  }

  // Time passing does no harm.
  lemma OrderedLater(target: seq<nat>, q: seq<nat>, latest: nat, later: nat)
    requires Ordered(target, q, latest) && latest <= later
    ensures Ordered(target, q, later)
  {
  }

  lemma OrderedElsewhere(target: seq<nat>, q: seq<nat>, latest: nat, e: nat, t: nat)
    requires Ordered(target, q, latest) && e < |target| && e !in q
    ensures Ordered(target[e := t], q, latest)
  {
    assert forall i :: 0 <= i < |q| ==> q[i] in q;
  }

  // A scan that stops at the first entry not due yet has seen all that are.
  lemma DueComeFirst(target: seq<nat>, q: seq<nat>, latest: nat, now: nat, i: nat, j: nat)
    requires Ordered(target, q, latest) && latest <= now && i < j < |q| && target[q[i]] > now
    ensures target[q[j]] > now
  {
  }

  // Where __insert_req_sorted stops when it searches from the end.
  ghost predicate StopsAt(target: seq<nat>, q: seq<nat>, latest: nat, t: nat, p: nat) {
    && p <= |q| && (forall i :: 0 <= i < |q| ==> q[i] < |target|)
    && (forall i :: p <= i < |q| ==> target[q[i]] > latest && target[q[i]] > t)
    && (p > 0 ==> target[q[p - 1]] <= latest || target[q[p - 1]] <= t)
  }

  lemma InsertOrdered(target: seq<nat>, q: seq<nat>, latest: nat, p: nat, e: nat)
    requires Ordered(target, q, latest) && e < |target| && StopsAt(target, q, latest, target[e], p)
    ensures Ordered(target, InsertAt(q, p, e), latest)
  {
    InsertAtIndex(q, p, e);
    var r := InsertAt(q, p, e);
    forall i, j | 0 <= i < j < |r| && target[r[i]] > latest ensures target[r[i]] <= target[r[j]] {
      if j == p && i < p - 1 { assert r[i] == q[i]; }
    }
  }
}

module WorkQueue {
  import opened Wrappers
  import opened Collections
  import opened Chains

  function FirstNext(i: nat, size: nat): int {
    if i + 1 == size then -1 else i + 1
  }

  function FirstPrev(i: nat): int {
    i - 1
  }

  class Worker {
    const next: array<int>
    const prev: array<int>
    const target: array<nat>
    const isDone: array<bool>      // is_completed and is_copied
    var freeSeq: int
    var freeSeqEnd: int
    var ioSeq: int
    var ioSeqEnd: int
    var latest: nat
    ghost var freeq: seq<nat>
    ghost var ioq: seq<nat>

    ghost predicate Arrays()
      reads this
    {
      && 0 < next.Length == prev.Length == target.Length == isDone.Length && next != prev
    }

    // The chains share out all entries but those in `out`.
    ghost predicate Shape(out: set<nat>)
      reads this, next, prev
    {
      && Arrays()
      && Apart(freeq, ioq) && |freeq| + |ioq| + |out| == next.Length
      && (forall x :: x in out ==> x < next.Length && x !in freeq && x !in ioq)
      && Linked(next[..], freeq) && freeSeq == freeq[0] && freeSeqEnd == freeq[|freeq| - 1]
      && (if ioq == [] then ioSeq == -1
          else Linked(next[..], ioq) && LinkedBack(prev[..], ioq) && ioSeq == ioq[0] && ioSeqEnd == ioq[|ioq| - 1])
    }

    ghost predicate Valid()
      reads this, next, prev, target
    {
      Shape({}) && Ordered(target[..], ioq, latest)
    }

    // NVMEV_IO_WORKER_INIT
    constructor (size: nat)
      requires 0 < size
      ensures Valid() && ioq == [] && |freeq| == size && next.Length == size && latest == 0
      ensures fresh(next) && fresh(prev) && fresh(target) && fresh(isDone)
    {
      next := new int[size](i requires 0 <= i => FirstNext(i, size));
      prev := new int[size](i requires 0 <= i => FirstPrev(i));
      target := new nat[size](_ => 0);
      isDone := new bool[size](_ => false);
      freeSeq, freeSeqEnd, ioSeq, ioSeqEnd, latest := 0, size - 1, -1, -1, 0;
      freeq, ioq := seq(size, i => i), [];
    }

    // The worker reads the clock.
    method Advance(now: nat)
      requires Valid() && latest <= now
      modifies this`latest
      ensures Valid() && latest == now
    {
      OrderedLater(target[..], ioq, latest, now);
      latest := now;
    }

    // __allocate_work_queue_entry: the last free entry is never handed out.
    method Allocate() returns (r: Option<nat>)
      requires Shape({})
      modifies this`freeSeq, this`freeq
      ensures |old(freeq)| > 0 && old(freeq[0]) < next.Length
      ensures r.None? ==> Shape({}) && freeq == old(freeq) && |freeq| == 1
      ensures r.Some? ==> |old(freeq)| > 1 && r.value == old(freeq[0]) && freeq == old(freeq[1..]) && Shape({r.value})
    {
      var e := freeSeq;
      assert |freeq| > 1 ==> next[freeq[0]] == freeq[1];
      if next[e] == -1 {
        return None;
      }
      LinkedRest(next[..], freeq);
      assert freeq == [freeq[0]] + freeq[1..];
      freeSeq := next[e];
      freeq := freeq[1..];
      r := Some(e);
    }

    // The search of __insert_req_sorted, from the end of the chain; p is the place found.
    method Search(t: nat, ghost out: set<nat>) returns (curr: int, ghost p: nat)
      requires Shape(out) && ioq != [] && Ordered(target[..], ioq, latest)
      ensures StopsAt(target[..], ioq, latest, t, p) && p <= |ioq| && curr == if p == 0 then -1 else ioq[p - 1]
    {
      curr := ioSeqEnd;
      p := |ioq|;
      while curr != -1
        invariant p <= |ioq| && curr == if p == 0 then -1 else ioq[p - 1]
        invariant forall i :: p <= i < |ioq| ==> target[ioq[i]] > latest && target[ioq[i]] > t
        decreases p
      {
        if target[curr] <= latest || target[curr] <= t {
          break;
        }
        curr := prev[curr];
        p := p - 1;
      }
    }

    // The linking of __insert_req_sorted: at the head, at the tail, or in between.
    method Link(e: nat, curr: int, ghost p: nat)
      requires Shape({e}) && ioq != [] && p <= |ioq| && curr == (if p == 0 then -1 else ioq[p - 1])
      requires next[e] == -1 && prev[e] == -1
      modifies this`ioSeq, this`ioSeqEnd, this`ioq, next, prev
      ensures Shape({}) && ioq == InsertAt(old(ioq), p, e) && freeq == old(freeq)
    {
      ghost var n0, p0, q0 := next[..], prev[..], ioq;
      LinkBody(e, curr, p, n0, p0);
      InsertLinked(n0, q0, p, e);
      InsertLinkedBack(p0, q0, p, e);
      InsertAtApart(q0, p, e);
      InsertAtIndex(q0, p, e);
      FreeUnchanged(n0, freeq, q0, p, e);
    }

    method LinkBody(e: nat, curr: int, ghost p: nat, ghost n0: seq<int>, ghost p0: seq<int>)
      requires Arrays() && ioq != [] && p <= |ioq| && curr == (if p == 0 then -1 else ioq[p - 1])
      requires n0 == next[..] && p0 == prev[..] && Linked(n0, ioq) && LinkedBack(p0, ioq) && NoDup(ioq)
      requires e < next.Length && e !in ioq && next[e] == -1 && prev[e] == -1
      requires ioSeq == ioq[0] && ioSeqEnd == ioq[|ioq| - 1]
      modifies this`ioSeq, this`ioSeqEnd, this`ioq, next, prev
      ensures next[..] == Next2(n0, old(ioq), p, e) && prev[..] == Prev2(p0, old(ioq), p, e)
      ensures ioSeq == (if p == 0 then e else old(ioSeq)) && ioSeqEnd == (if p == |old(ioq)| then e else old(ioSeqEnd))
      ensures ioq == InsertAt(old(ioq), p, e)
    {
      assert forall i :: 0 <= i < |ioq| ==> ioq[i] in ioq;
      assert p > 0 ==> next[ioq[p - 1]] == if p < |ioq| then ioq[p] else -1;
      if curr == -1 {
        prev[ioSeq] := e;
        next[e] := ioSeq;
        ioSeq := e;
      } else if next[curr] == -1 {
        prev[e] := curr;
        ioSeqEnd := e;
        next[curr] := e;
      } else {
        prev[e] := curr;
        next[e] := next[curr];
        prev[next[e]] := e;
        next[curr] := e;
      }
      ioq := InsertAt(ioq, p, e);
    }

    // Setting up a work entry and queueing it (__enqueue_io_req, schedule_internal_operation and
    // __insert_req_sorted).  Nothing is queued if only one free entry is left; otherwise the entry
    // goes right behind the last one that is due or ends no later.
    method Enqueue(t: nat) returns (ok: bool, ghost p: nat)
      requires Valid()
      modifies this`freeSeq, this`ioSeq, this`ioSeqEnd, this`freeq, this`ioq, next, prev, target, isDone
      ensures Valid() && (ok <==> |old(freeq)| > 1) && p <= |old(ioq)|
      ensures !ok ==> freeq == old(freeq) && ioq == old(ioq)
      ensures ok ==> freeq == old(freeq[1..]) && ioq == InsertAt(old(ioq), p, old(freeq[0]))
      ensures old(freeq[0]) < next.Length
      ensures target[..] == if ok then old(target[..])[old(freeq[0]) := t] else old(target[..])
      ensures isDone[..] == if ok then old(isDone[..])[old(freeq[0]) := false] else old(isDone[..])
      ensures ok ==> forall i :: p <= i < |old(ioq)| ==>
                old(ioq[i]) < target.Length && target[old(ioq[i])] > latest && target[old(ioq[i])] > t
      ensures ok && p > 0 ==>
                old(ioq[p - 1]) < target.Length && (target[old(ioq[p - 1])] <= latest || target[old(ioq[p - 1])] <= t)
    {
      hide Linked, LinkedBack, Ordered, Apart, StopsAt;
      p := 0;
      var r := Allocate();
      if r == None {
        return false, p;
      }
      var e := r.value;
      ok := true;
      SetUp(e, t);
      if ioSeq == -1 {
        ApartNoDup(freeq, ioq);
        SingleLinked(next[..], prev[..], freeq, target[..], latest, e);
        ioSeq, ioSeqEnd := e, e;
        ioq := [e];
      } else {
        var curr;
        curr, p := Search(t, {e});
        InsertOrdered(target[..], ioq, latest, p, e);
        Link(e, curr, p);
      }
    }

    method SetUp(e: nat, t: nat)
      requires Shape({e}) && Ordered(target[..], ioq, latest)
      modifies next, prev, target, isDone
      ensures Shape({e}) && Ordered(target[..], ioq, latest)
      ensures target[e] == t && next[e] == -1 && prev[e] == -1 && !isDone[e]
      ensures target[..] == old(target[..])[e := t] && isDone[..] == old(isDone[..])[e := false]
    {
      ghost var n0, p0, t0 := next[..], prev[..], target[..];
      LinkedElsewhere(n0, freeq, e, -1);
      if ioq != [] {
        LinkedElsewhere(n0, ioq, e, -1);
        LinkedElsewhere(p0, ioq, e, -1);
      }
      OrderedElsewhere(t0, ioq, latest, e, t);
      hide Linked, LinkedBack, Ordered, Apart;
      SetEntry(e, t);
    }

    method SetEntry(e: nat, t: nat)
      requires Arrays() && e < next.Length
      modifies next, prev, target, isDone
      ensures next[..] == old(next[..])[e := -1] && prev[..] == old(prev[..])[e := -1]
      ensures target[..] == old(target[..])[e := t] && isDone[..] == old(isDone[..])[e := false]
    {
      target[e] := t;
      isDone[e] := false;
      prev[e] := -1;
      next[e] := -1;
    }

    predicate Reclaimable(e: nat)
      requires e < target.Length == isDone.Length
      reads this, target, isDone
    {
      isDone[e] && target[e] <= latest
    }

    // __reclaim_completed_reqs for one worker: the entries at the head that are over go to the
    // end of the free chain.
    method Reclaim() returns (ghost m: nat)
      requires Valid()
      modifies this`freeSeqEnd, this`ioSeq, this`freeq, this`ioq, next, prev
      ensures Valid() && m <= |old(ioq)| && ioq == old(ioq[m..]) && freeq == old(freeq + ioq[..m])
      ensures forall i :: 0 <= i < m ==> old(ioq[i]) < target.Length && Reclaimable(old(ioq[i]))
      ensures m < |old(ioq)| ==> !Reclaimable(old(ioq[m]))
    {
      var first := ioSeq;
      var curr, last := first, -1;
      m := 0;
      while curr != -1
        invariant m <= |ioq| && curr == (if m < |ioq| then ioq[m] else -1)
        invariant last == if m == 0 then -1 else ioq[m - 1]
        invariant forall i :: 0 <= i < m ==> ioq[i] < target.Length && Reclaimable(ioq[i])
        decreases |ioq| - m
      {
        if isDone[curr] && target[curr] <= latest {
          last := curr;
          curr := next[curr];
          m := m + 1;
        } else {
          break;
        }
      }
      if last != -1 {
        Release(first, last, m);
      }
    }

    method Release(first: int, last: int, ghost m: nat)
      requires Valid() && 0 < m <= |ioq| && first == ioq[0] && last == ioq[m - 1]
      modifies this`freeSeqEnd, this`ioSeq, this`freeq, this`ioq, next, prev
      ensures Valid() && ioq == old(ioq[m..]) && freeq == old(freeq + ioq[..m])
    {
      hide Linked, LinkedBack, Ordered, Apart;
      ghost var n0, p0, f0, q0 := next[..], prev[..], freeq, ioq;
      FreeJoined(n0, f0, q0, m);
      OrderedRest(target[..], q0, latest, m);
      if m < |q0| { BackCut(p0, f0, q0, m, freeSeqEnd); }
      assert next[last] == n0[q0[m - 1]];
      ReleaseBody(first, last, m);
      ioq := q0[m..];
      freeq := f0 + q0[..m];
    }

    method ReleaseBody(first: int, last: int, ghost m: nat)
      requires Shape({}) && 0 < m <= |ioq| && first == ioq[0] && last == ioq[m - 1]
      requires next[last] == if m == |ioq| then -1 else ioq[m]
      modifies this`freeSeqEnd, this`ioSeq, next, prev
      ensures ioSeq == (if m == |ioq| then -1 else ioq[m]) && freeSeqEnd == last
      ensures next[..] == old(next[..])[last := -1][old(freeSeqEnd) := first]
      ensures prev[..] == (if m == |ioq| then old(prev[..]) else old(prev[..])[ioq[m] := -1])[first := old(freeSeqEnd)]
    {
      assert freeSeqEnd in freeq && last in ioq && first in ioq;
      ioSeq := next[last];
      if next[last] != -1 {
        prev[next[last]] := -1;
      }
      next[last] := -1;
      prev[first] := freeSeqEnd;
      next[freeSeqEnd] := first;
      freeSeqEnd := last;
    }
  }

  lemma SingleLinked(next: seq<int>, prev: seq<int>, freeq: seq<nat>, target: seq<nat>, latest: nat, e: nat)
    requires e < |next| == |prev| == |target| && next[e] == -1 && prev[e] == -1 && e !in freeq && NoDup(freeq)
    ensures Linked(next, [e]) && LinkedBack(prev, [e]) && Apart(freeq, [e]) && Ordered(target, [e], latest)
  {
  }

  lemma FreeJoined(next: seq<int>, freeq: seq<nat>, q: seq<nat>, m: nat)
    requires Linked(next, freeq) && Linked(next, q) && Apart(freeq, q) && 0 < m <= |q|
    ensures freeq != [] && q[m - 1] < |next| && q[0] < |next| && freeq[|freeq| - 1] < |next|
    ensures var n1 := next[q[m - 1] := -1]; var n2 := n1[freeq[|freeq| - 1] := q[0]];
      && Linked(n2, freeq + q[..m])
      && (if m == |q| then next[q[m - 1]] == -1 else next[q[m - 1]] == q[m] && Linked(n2, q[m..]))
    ensures Apart(freeq + q[..m], q[m..]) && NoDup(q)
  {
    var n1 := next[q[m - 1] := -1];
    assert q == q[..m] + q[m..];
    assert q[m - 1] in q && freeq[|freeq| - 1] in freeq;
    CutLinked(next, q, m);
    LinkedElsewhere(next, freeq, q[m - 1], -1);
    assert Apart(freeq, q[..m]) && Apart(freeq, q[m..]) && Apart(q[..m], q[m..]);
    NoDupConcat(freeq, q[..m]);
    JoinLinked(n1, freeq, q[..m]);
    if m < |q| { LinkedElsewhere(n1, q[m..], freeq[|freeq| - 1], q[0]); }
  }

  lemma BackCut(prev: seq<int>, freeq: seq<nat>, q: seq<nat>, m: nat, v: int)
    requires LinkedBack(prev, q) && NoDup(q) && 0 < m < |q|
    ensures LinkedBack(prev[q[m] := -1][q[0] := v], q[m..])
  {
    var n := prev[q[m] := -1][q[0] := v];
    forall i | 0 < i < |q| - m ensures n[q[m..][i]] == q[m..][i - 1] {
      assert prev[q[m + i]] == q[m + i - 1];
    }
  }

  lemma OrderedRest(target: seq<nat>, q: seq<nat>, latest: nat, m: nat)
    requires Ordered(target, q, latest) && m <= |q|
    ensures Ordered(target, q[m..], latest)
  {
  }

  lemma FreeUnchanged(next: seq<int>, freeq: seq<nat>, q: seq<nat>, p: nat, e: nat)
    requires Linked(next, freeq) && Linked(next, q) && Apart(freeq, q) && e < |next| && e !in freeq && p <= |q|
    ensures Linked(Next2(next, q, p, e), freeq)
  {
    assert forall i :: 0 <= i < |q| ==> q[i] in q;
    assert forall i :: 0 <= i < |freeq| ==> freeq[i] in freeq;
  }
}
