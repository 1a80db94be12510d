// The order of a binary heap stored from index 1 on, as a property of its sequence of keys
// (smallest key first).  One slot may be a hole whose element is still to be placed.
module HeapOrder {

  ghost predicate Ordered(k: seq<int>) {
    forall j :: 2 <= j < |k| ==> k[j / 2] <= k[j]
  }

  // In order everywhere but at slot i, and across it.
  ghost predicate OrderedAround(k: seq<int>, i: nat) {
    && (forall j :: 2 <= j < |k| && j != i && j / 2 != i ==> k[j / 2] <= k[j])
    && (forall j :: 2 <= j < |k| && j / 2 == i && 1 <= i / 2 ==> k[i / 2] <= k[j])
  }

  ghost predicate AboveChildren(k: seq<int>, p: int, i: nat) {
    forall j :: 2 <= j < |k| && j / 2 == i ==> p <= k[j]
  }

  ghost predicate BelowParent(k: seq<int>, p: int, i: nat) {
    2 <= i < |k| ==> k[i / 2] <= p
  }

  // Filling the hole.
  lemma Placed(k: seq<int>, i: nat, p: int)
    requires 1 <= i < |k| && OrderedAround(k, i) && AboveChildren(k, p, i) && BelowParent(k, p, i)
    ensures Ordered(k[i := p])
  {
  }

  // Moving the parent down into the hole.
  lemma Up(k: seq<int>, i: nat, p: int)
    requires 2 <= i < |k| && OrderedAround(k, i) && p < k[i / 2]
    ensures OrderedAround(k[i := k[i / 2]], i / 2) && AboveChildren(k[i := k[i / 2]], p, i / 2)
  {
  }

  // Moving the smaller child c up into the hole.
  lemma Down(k: seq<int>, i: nat, c: nat, p: int)
    requires 1 <= i < c < |k| && c / 2 == i && OrderedAround(k, i) && k[c] < p
    requires forall j :: 2 <= j < |k| && j / 2 == i ==> k[c] <= k[j]
    ensures OrderedAround(k[i := k[c]], c) && BelowParent(k[i := k[c]], p, c)
  {
  }

  lemma BelowRoot(k: seq<int>, i: nat, p: int)
    requires 2 <= i < |k| ==> k[i / 2] <= p
    ensures BelowParent(k, p, i)
  {
  }

  lemma AboveLeast(k: seq<int>, i: nat, c: nat, p: int)
    requires c == 0 <==> 2 * i >= |k|
    requires c != 0 ==> i < c < |k| && p <= k[c] && forall j :: 2 <= j < |k| && j / 2 == i ==> k[c] <= k[j]
    ensures AboveChildren(k, p, i)
  {
  }

  lemma Appended(k: seq<int>, p: int)
    requires |k| >= 1 && Ordered(k)
    ensures OrderedAround(k + [p], |k|) && AboveChildren(k + [p], p, |k|)
  {
  }

  // Moving the last key to slot i.
  lemma Shortened(k: seq<int>, i: nat)
    requires Ordered(k) && 1 <= i < |k| - 1
    ensures OrderedAround(k[..|k| - 1][i := k[|k| - 1]], i)
    ensures i == 1 ==> BelowParent(k[..|k| - 1][i := k[|k| - 1]], k[|k| - 1], i)
  {
  }

  lemma AroundIgnoresHole(k: seq<int>, i: nat, q: int, p: int)
    requires 1 <= i < |k| && OrderedAround(k, i)
    ensures OrderedAround(k[i := q], i)
    ensures AboveChildren(k, p, i) ==> AboveChildren(k[i := q], p, i)
    ensures BelowParent(k, p, i) ==> BelowParent(k[i := q], p, i)
  {
  }

  lemma ShortenedUpDown(k: seq<int>, i: nat)
    requires Ordered(k) && 1 <= i < |k| - 1
    ensures var p, t := k[|k| - 1], k[..|k| - 1][i := k[|k| - 1]];
      (p < k[i] ==> AboveChildren(t, p, i)) && (k[i] <= p ==> BelowParent(t, p, i))
  {
  }

  lemma DroppedLast(k: seq<int>)
    requires Ordered(k) && |k| >= 1
    ensures Ordered(k[..|k| - 1])
  {
  }

  // subtree_is_valid: the recursive check of the subtree at a slot.
  predicate SubtreeIsValid(k: seq<int>, i: nat)
    requires 1 <= i
    decreases |k| - i
  {
    && (2 * i < |k| ==> k[i] <= k[2 * i] && SubtreeIsValid(k, 2 * i))
    && (2 * i + 1 < |k| ==> k[i] <= k[2 * i + 1] && SubtreeIsValid(k, 2 * i + 1))
  }

  // Checked from the root, it accepts exactly the heaps.
  lemma SubtreeSound(k: seq<int>)
    ensures SubtreeIsValid(k, 1) <==> Ordered(k)
  {
    if Ordered(k) { OrderedSubtree(k, 1); }
    if SubtreeIsValid(k, 1) {
      forall j | 2 <= j < |k| ensures k[j / 2] <= k[j] {
        SubtreeReaches(k, j / 2);
        assert j == 2 * (j / 2) || j == 2 * (j / 2) + 1;
      }
    }
  }

  lemma {:induction false} OrderedSubtree(k: seq<int>, i: nat)
    requires Ordered(k) && 1 <= i
    ensures SubtreeIsValid(k, i)
    decreases |k| - i
  {
    if 2 * i < |k| {
      assert (2 * i) / 2 == i;
      OrderedSubtree(k, 2 * i);
    }
    if 2 * i + 1 < |k| {
      assert (2 * i + 1) / 2 == i;
      OrderedSubtree(k, 2 * i + 1);
    }
  }

  lemma {:induction false} SubtreeReaches(k: seq<int>, j: nat)
    requires SubtreeIsValid(k, 1) && 1 <= j < |k|
    ensures SubtreeIsValid(k, j)
  {
    if j <= 1 {
    } else {
      SubtreeReaches(k, j / 2);
      assert j == 2 * (j / 2) || j == 2 * (j / 2) + 1;
    }
  }

  lemma {:induction false} RootIsLeast(k: seq<int>, j: nat)
    requires Ordered(k) && 1 <= j < |k|
    ensures k[1] <= k[j]
  {
    if j <= 1 {
    } else {
      RootIsLeast(k, j / 2);
    }
  }

  lemma OrderedIsAround(k: seq<int>, i: nat, p: int)
    requires Ordered(k) && 1 <= i < |k|
    ensures OrderedAround(k, i)
    ensures p <= k[i] ==> AboveChildren(k, p, i)
    ensures k[i] <= p ==> BelowParent(k, p, i)
  {
  }
}

// The positional binary heap of pqueue.c, as conv_ftl.c uses it: the elements are lines,
// the priority of a line is its valid page count (fewest first) and every line records its
// position in the heap, 0 when it is not in it.
module VictimQueue {
  import opened Wrappers
  import opened Collections
  import opened HeapOrder

  ghost function KeysOf(heap: seq<nat>, pri: seq<int>): (k: seq<int>)
    ensures |k| == |heap|
  {
    seq(|heap|, j requires 0 <= j < |heap| => if 1 <= j && heap[j] < |pri| then pri[heap[j]] else 0)
  }

  class PQueue {
    const d: array<nat>     // the heap; element 0 is unused
    const pri: array<int>   // line -> valid page count
    const pos: array<nat>   // line -> position
    var size: nat           // one past the last element

    ghost predicate Shape()
      reads this
    {
      && d != pos
      && pri.Length == pos.Length && d.Length == pos.Length + 1
      && 1 <= size <= d.Length
    }

    // Heap and positions agree; the slot of the heap at `hole` and the lines `outs` are exempt.
    ghost predicate Consistent(hole: nat, outs: set<int>)
      reads this, d, pos
      requires Shape()
    {
      && (forall i :: 1 <= i < size && i != hole ==> d[i] < pos.Length && d[i] !in outs && pos[d[i]] == i)
      && (forall x :: 0 <= x < pos.Length && x !in outs ==>
            pos[x] < size && (pos[x] != 0 ==> pos[x] != hole && d[pos[x]] == x))
    }

    ghost function Keys(): (k: seq<int>)
      reads this, d, pri
      requires Shape()
      ensures |k| == size
    {
      KeysOf(d[..size], pri[..])
    }

    // A valid heap, except that the line `out` has left it with a stale position.
    ghost predicate ValidBut(out: int)
      reads this, d, pri, pos
    {
      Shape() && Consistent(0, {out}) && Ordered(Keys())
    }

    ghost predicate Valid()
      reads this, d, pri, pos
    {
      ValidBut(-1)
    }

    ghost predicate In(x: nat)
      reads pos
    {
      x < pos.Length && pos[x] != 0
    }

    ghost function Elems(): set<nat>
      reads pos
    {
      set x: nat | x < pos.Length && pos[x] != 0
    }

    constructor (pri: array<int>, pos: array<nat>)
      requires pri.Length == pos.Length
      requires forall x :: 0 <= x < pos.Length ==> pos[x] == 0
      ensures this.pri == pri && this.pos == pos
      ensures fresh(this) && fresh(d)
      ensures Valid() && Elems() == {} && size == 1
    {
      this.pri, this.pos := pri, pos;
      d := new nat[pos.Length + 1];
      size := 1;
    }

    // The lines other than the moving one and `out` are in the heap now iff they were in
    // the state with positions p0.
    ghost predicate SameMembers(p0: seq<nat>, outs: set<int>)
      reads pos
    {
      |p0| == pos.Length && forall x :: 0 <= x < pos.Length && x !in outs ==> ((pos[x] != 0) <==> (p0[x] != 0))
    }

    // q->d[to] = q->d[from]; q->setpos(q->d[to], to)
    method Shift(from: nat, to: nat, ghost outs: set<int>, ghost p0: seq<nat>)
      requires Shape() && 1 <= from < size && 1 <= to < size && from != to
      requires Consistent(to, outs) && SameMembers(p0, outs)
      modifies d, pos
      ensures Consistent(from, outs) && SameMembers(p0, outs)
      ensures Keys() == old(Keys())[to := old(Keys())[from]]
    {
      d[to] := d[from];
      pos[d[to]] := to;
    }

    // q->d[i] = moving_node; q->setpos(moving_node, i)
    method Settle(i: nat, moving: nat, ghost out: int, ghost p0: seq<nat>)
      requires Shape() && 1 <= i < size && moving < pos.Length && moving != out
      requires Consistent(i, {out, moving}) && SameMembers(p0, {out, moving})
      modifies d, pos
      ensures Consistent(0, {out}) && pos[moving] == i && SameMembers(p0[moving := i], {out})
      ensures Keys() == old(Keys())[i := pri[moving]]
    {
      d[i] := moving;
      pos[moving] := i;
    }

    method BubbleUp(i0: nat, ghost out: int)
      requires Shape() && 1 <= i0 < size && d[i0] < pos.Length && d[i0] != out
      requires Consistent(i0, {out, d[i0]})
      requires OrderedAround(Keys(), i0) && AboveChildren(Keys(), pri[d[i0]], i0)
      modifies d, pos
      ensures ValidBut(out)
      ensures pos[old(d[i0])] != 0 && SameMembers(old(pos[..])[old(d[i0]) := 1], {out})
    {
      hide Consistent, KeysOf, OrderedAround, AboveChildren, BelowParent, Ordered;
      var i := i0;
      var moving := d[i];
      var movingPri := pri[moving];
      ghost var outs: set<int> := {out, moving};
      while i > 1 && Pri(i / 2, i, outs) > movingPri
        invariant 1 <= i <= i0
        invariant Consistent(i, outs) && SameMembers(old(pos[..]), outs)
        invariant OrderedAround(Keys(), i) && AboveChildren(Keys(), movingPri, i)
      {
        Up(Keys(), i, movingPri);
        Shift(i / 2, i, outs, old(pos[..]));
        i := i / 2;
      }
      BelowRoot(Keys(), i, movingPri);
      Placed(Keys(), i, movingPri);
      Settle(i, moving, out, old(pos[..]));
    }

    // q->getpri(q->d[j])
    function Pri(j: nat, ghost hole: nat, ghost outs: set<int>): (p: int)
      requires Shape() && 1 <= j < size && j != hole && Consistent(hole, outs)
      reads this, d, pos, pri
      ensures p == Keys()[j]
    {
      pri[d[j]]
    }

    // maxchild: the child with the smaller key, the left one on a tie; 0 for a leaf.
    method MaxChild(i: nat, ghost outs: set<int>) returns (c: nat)
      requires Shape() && 1 <= i && Consistent(i, outs)
      ensures c == 0 <==> 2 * i >= size
      ensures c != 0 ==> i < c < size && c / 2 == i
      ensures c != 0 ==> forall j :: 2 <= j < size && j / 2 == i ==> Keys()[c] <= Keys()[j]
      ensures c != 0 && c != 2 * i ==> Keys()[c] < Keys()[2 * i]
    {
      hide Consistent, KeysOf;
      c := 2 * i;
      if c >= size {
        return 0;
      }
      if c + 1 < size && Pri(c, i, outs) > Pri(c + 1, i, outs) {
        c := c + 1;
      }
    }

    method PercolateDown(i0: nat, ghost out: int)
      requires Shape() && 1 <= i0 < size && d[i0] < pos.Length && d[i0] != out
      requires Consistent(i0, {out, d[i0]})
      requires OrderedAround(Keys(), i0) && BelowParent(Keys(), pri[d[i0]], i0)
      modifies d, pos
      ensures ValidBut(out)
      ensures pos[old(d[i0])] != 0 && SameMembers(old(pos[..])[old(d[i0]) := 1], {out})
    {
      hide Consistent, KeysOf, OrderedAround, AboveChildren, BelowParent, Ordered;
      var i := i0;
      var moving := d[i];
      var movingPri := pri[moving];
      ghost var outs: set<int> := {out, moving};
      var c := MaxChild(i, outs);
      while c != 0 && movingPri > Pri(c, i, outs)
        invariant 1 <= i < size
        invariant Consistent(i, outs) && SameMembers(old(pos[..]), outs)
        invariant OrderedAround(Keys(), i) && BelowParent(Keys(), movingPri, i)
        invariant c == 0 <==> 2 * i >= size
        invariant c != 0 ==> i < c < size && c / 2 == i
        invariant c != 0 ==> forall j :: 2 <= j < size && j / 2 == i ==> Keys()[c] <= Keys()[j]
        decreases size - i
      {
        Down(Keys(), i, c, movingPri);
        Shift(c, i, outs, old(pos[..]));
        i := c;
        c := MaxChild(i, outs);
      }
      AboveLeast(Keys(), i, c, movingPri);
      Placed(Keys(), i, movingPri);
      Settle(i, moving, out, old(pos[..]));
    }

    // A line that is not in the heap finds a slot: the heap never overflows.
    lemma RoomFor(x: nat)
      requires Valid() && x < pos.Length && !In(x)
      ensures size < d.Length
    {
      var heap := d[1..size];
      forall i, j | 0 <= i < j < |heap| ensures heap[i] != heap[j] {
        assert heap[i] == d[i + 1] && heap[j] == d[j + 1];
      }
      NoDupSize(heap);
      forall y | y in heap ensures y in Below(pos.Length) - {x} {
        var i :| 0 <= i < |heap| && heap[i] == y;
        assert d[i + 1] == y;
      }
      SubsetSize(Collections.Elems(heap), Below(pos.Length) - {x});
    }

    // pqueue_insert
    method Insert(x: nat)
      requires Valid() && x < pos.Length && !In(x)
      modifies this`size, d, pos
      ensures Valid() && size == old(size) + 1
      ensures Elems() == old(Elems()) + {x}
    {
      hide OrderedAround, AboveChildren, BelowParent, Ordered;
      RoomFor(x);
      ghost var k, p0 := Keys(), pos[..];
      var i := size;
      Append(x);
      Appended(k, pri[x]);
      BubbleUp(i, -1);
      MembersAre(p0[x := 1]);
    }

    method Append(x: nat)
      requires Shape() && Consistent(0, {-1}) && x < pos.Length && !In(x) && size < d.Length
      modifies this`size, d
      ensures Shape() && size == old(size) + 1 && d[old(size)] == x
      ensures var outs: set<int> := {-1, x as int}; Consistent(old(size), outs)
      ensures Keys() == old(Keys()) + [pri[x]]
    {
      d[size] := x;
      size := size + 1;
    }

    // pqueue_change_priority: a smaller key moves up, any other down.
    method ChangePriority(newPri: int, x: nat)
      requires Valid() && In(x)
      modifies d, pos, pri
      ensures Valid() && pri[x] == newPri
      ensures forall y :: 0 <= y < pri.Length && y != x ==> pri[y] == old(pri[y])
      ensures Elems() == old(Elems())
    {
      var oldPri := pri[x];
      ghost var k := Keys();
      var posn := pos[x];
      pri[x] := newPri;
      ghost var outs: set<int> := {-1, x as int};
      assert Keys() == k[posn := newPri] && Consistent(posn, outs);
      OrderedIsAround(k, posn, newPri);
      AroundIgnoresHole(k, posn, newPri, newPri);
      if oldPri > newPri {
        BubbleUp(posn, -1);
      } else {
        PercolateDown(posn, -1);
      }
      MembersAre(old(pos[..])[x := 1]);
    }

    // The heap holds exactly the lines with a nonzero entry in p0.
    lemma MembersAre(p0: seq<nat>)
      requires SameMembers(p0, {-1})
      ensures Elems() == set x: nat | x < |p0| && p0[x] != 0
    {
    }

    // pqueue_peek
    method Peek() returns (head: Option<nat>)
      requires Valid()
      ensures head.None? <==> Elems() == {}
      ensures head.Some? ==> head.value == d[1] && head.value in Elems() &&
                             forall y :: y in Elems() ==> pri[head.value] <= pri[y]
    {
      if size == 1 {
        head := None;
      } else {
        head := Some(d[1]);
        RootMinimal();
      }
    }

    lemma RootMinimal()
      requires Valid() && size > 1
      ensures d[1] < pos.Length && d[1] in Elems()
      ensures forall y :: y in Elems() ==> pri[d[1]] <= pri[y]
    {
      forall y | y in Elems() ensures pri[d[1]] <= pri[y] {
        RootIsLeast(Keys(), pos[y]);
      }
    }

    // pqueue_pop: the caller still has to reset the position of the line taken out.
    method Pop() returns (head: Option<nat>)
      requires Valid()
      modifies this`size, d, pos
      ensures head.None? <==> old(Elems()) == {}
      ensures head.None? ==> Valid() && Elems() == old(Elems())
      ensures head.Some? ==>
        && head.value == old(d[1]) && head.value in old(Elems())
        && (forall y :: y in old(Elems()) ==> pri[head.value] <= pri[y])
        && ValidBut(head.value) && Elems() - {head.value} == old(Elems()) - {head.value}
    {
      if size == 1 {
        return None;
      }
      RootMinimal();
      head := Some(d[1]);
      DropRoot(d[1]);
    }

    // The last element takes the place of the first and moves down from there.
    method DropRoot(x: nat)
      requires Valid() && size > 1 && x == d[1]
      modifies this`size, d, pos
      ensures ValidBut(x) && Elems() - {x} == old(Elems()) - {x}
    {
      hide OrderedAround, AboveChildren, BelowParent, Ordered;
      ghost var k := Keys();
      size := size - 1;
      d[1] := d[size];
      if size == 1 {
        DroppedLast(k);
        assert Keys() == k[..size];
        pos[x] := 1;
      } else {
        assert Keys() == k[..size][1 := k[size]];
        Shortened(k, 1);
        PercolateDown(1, x);
      }
    }

    // victim_line->pos = 0, after the line has left the heap.
    method ResetPos(x: nat)
      requires ValidBut(x) && x < pos.Length
      modifies pos
      ensures Valid() && Elems() == old(Elems()) - {x}
    {
      hide Ordered, KeysOf;
      pos[x] := 0;
    }

    // pqueue_remove: the last element takes the place of x and moves up or down from there.
    method Remove(x: nat)
      requires Valid() && In(x)
      modifies this`size, d, pos
      ensures ValidBut(x) && Elems() - {x} == old(Elems()) - {x}
    {
      hide OrderedAround, AboveChildren, BelowParent, Ordered;
      ghost var k, p0 := Keys(), pos[..];
      var posn := pos[x];
      size := size - 1;
      d[posn] := d[size];
      if posn == size {
        DroppedLast(k);
        assert Keys() == k[..size];
        assert d[posn] == x;
        pos[x] := posn;
      } else {
        assert Keys() == k[..size][posn := k[size]];
        Shortened(k, posn);
        ShortenedUpDown(k, posn);
        if pri[x] > pri[d[posn]] {
          BubbleUp(posn, x);
        } else {
          PercolateDown(posn, x);
        }
      }
    }
  }
}
