// The earliest-fit scheduler of sgx_ftl.cpp: per LUN, a list of free time intervals.
module TimeSlots {

  const MAX: nat := 0xFFFF_FFFF_FFFF_FFFF

  // uint64_t subtraction
  function Sub64(a: nat, b: nat): nat
    requires a <= MAX && b <= MAX
  {
    if a >= b then a - b else a + (MAX + 1) - b
  }

  // time_slot: free from start to end, end excluded
  datatype Slot = Slot(start: nat, end: nat)

  // ----- What a list of slots means -----

  predicate FreeAt(slots: seq<Slot>, t: nat) {
    exists i :: 0 <= i < |slots| && slots[i].start <= t < slots[i].end
  }

  // An operation of length opLat can start at s.
  ghost predicate Feasible(slots: seq<Slot>, s: nat, opLat: nat) {
    forall t: nat :: s <= t < s + opLat ==> FreeAt(slots, t)
  }

  // Nonempty slots, in order, no two of them touching.
  ghost predicate Separated(slots: seq<Slot>) {
    && (forall i :: 0 <= i < |slots| ==> slots[i].start < slots[i].end)
    && (forall i, j :: 0 <= i < j < |slots| ==> slots[i].end < slots[j].start)
  }

  // The future is free.
  ghost predicate WellFormed(slots: seq<Slot>) {
    Separated(slots) && slots != [] && slots[|slots| - 1].end == MAX
  }

  // [st, st + opLat) is the earliest free stretch at or after stime.
  ghost predicate IsEarliest(slots: seq<Slot>, stime: nat, opLat: nat, st: nat) {
    && stime <= st && Feasible(slots, st, opLat)
    && forall s: nat :: stime <= s < st ==> !Feasible(slots, s, opLat)
  }

  // Booking [st, st + opLat) takes exactly that stretch off the free time.
  ghost predicate Booked(before: seq<Slot>, after: seq<Slot>, st: nat, opLat: nat) {
    forall t: nat :: FreeAt(after, t) <==> FreeAt(before, t) && !(st <= t < st + opLat)
  }

  // The same for the times from a given one on.
  ghost predicate BookedFrom(before: seq<Slot>, after: seq<Slot>, st: nat, opLat: nat, from: nat) {
    forall t: nat :: from <= t ==> (FreeAt(after, t) <==> FreeAt(before, t) && !(st <= t < st + opLat))
  }

  // ----- advance_time_slot -----

  // std::upper_bound: the number of slots that start at or before stime.
  function UpperBound(slots: seq<Slot>, stime: nat): (n: nat)
    ensures n <= |slots|
  {
    if slots != [] && slots[0].start <= stime then 1 + UpperBound(slots[1..], stime) else 0
  }

  // The scan for a long enough slot from index i on, with the unsigned comparison of the code.
  function Scan(slots: seq<Slot>, i: nat, opLat: nat): (j: nat)
    requires i <= |slots| && opLat <= MAX && forall k :: 0 <= k < |slots| ==> slots[k].end <= MAX
    ensures i <= j <= |slots|
    ensures j < |slots| ==> !(Sub64(slots[j].end, opLat) < slots[j].start)
    ensures forall k :: i <= k < j ==> Sub64(slots[k].end, opLat) < slots[k].start
    decreases |slots| - i
  {
    if i < |slots| && Sub64(slots[i].end, opLat) < slots[i].start then Scan(slots, i + 1, opLat) else i
  }

  // Splitting slot p at [stime, stime + opLat).
  function Carve(slots: seq<Slot>, p: nat, stime: nat, opLat: nat): seq<Slot>
    requires p < |slots|
  {
    var s := slots[p];
    var front := if s.start == stime then [] else [Slot(s.start, stime)];
    var back := if s.end == stime + opLat then [] else [Slot(stime + opLat, s.end)];
    slots[..p] + front + back + slots[p + 1..]
  }

  // Taking opLat off the front of slot j.
  function Shorten(slots: seq<Slot>, j: nat, opLat: nat): seq<Slot>
    requires j < |slots|
  {
    var s := slots[j];
    if s.start + opLat == s.end then slots[..j] + slots[j + 1..]
    else slots[j := Slot(s.start + opLat, s.end)]
  }

  // Dropping the slots that lie in the past.
  function Flush(slots: seq<Slot>, stime: nat): seq<Slot> {
    if slots != [] && slots[0].end < stime then Flush(slots[1..], stime) else slots
  }

  // What the code demands: a positive latency, and a clock far from the end of time.
  ghost predicate Request(slots: seq<Slot>, stime: nat, opLat: nat) {
    && WellFormed(slots)
    && opLat >= 1 && stime + opLat < MAX && slots[|slots| - 1].start + opLat < MAX
  }

  // The slot before the upper bound holds the whole operation.
  predicate FitsNow(slots: seq<Slot>, stime: nat, opLat: nat) {
    var it := UpperBound(slots, stime);
    it > 0 && slots[it - 1].end >= stime + opLat
  }

  datatype Result = Result(slots: seq<Slot>, lat: nat)

  // advance_time_slot without its flush, as a function of the list.
  function Step(slots: seq<Slot>, stime: nat, opLat: nat): Result
    requires opLat <= MAX && forall k :: 0 <= k < |slots| ==> slots[k].end <= MAX
    requires FitsNow(slots, stime, opLat) || Scan(slots, UpperBound(slots, stime), opLat) < |slots|
    requires forall k :: UpperBound(slots, stime) <= k < |slots| ==> slots[k].start >= stime
  {
    var it := UpperBound(slots, stime);
    if FitsNow(slots, stime, opLat) then Result(Carve(slots, it - 1, stime, opLat), opLat)
    else
      var j := Scan(slots, it, opLat);
      Result(Shorten(slots, j, opLat), slots[j].start + opLat - stime)
  }

  // The time at which the operation of a request starts.
  function StartOf(r: Result, stime: nat, opLat: nat): int {
    stime + r.lat - opLat
  }

  // The unsigned subtraction wraps on the first slot it looks at.
  predicate Wraps(slots: seq<Slot>, stime: nat, opLat: nat) {
    var it := UpperBound(slots, stime);
    !FitsNow(slots, stime, opLat) && it < |slots| && slots[it].end < opLat
  }

  // ----- Facts -----

  lemma {:induction false} UpperBoundSplits(slots: seq<Slot>, stime: nat)
    requires Separated(slots)
    ensures var n := UpperBound(slots, stime);
      && (forall i :: 0 <= i < n ==> slots[i].start <= stime)
      && (forall i :: n <= i < |slots| ==> slots[i].start > stime)
  {
    if slots == [] || stime < slots[0].start {
    } else {
      UpperBoundSplits(slots[1..], stime);
    }
  }

  lemma StepDefined(slots: seq<Slot>, stime: nat, opLat: nat)
    requires Request(slots, stime, opLat)
    ensures forall k :: 0 <= k < |slots| ==> slots[k].end <= MAX
    ensures FitsNow(slots, stime, opLat) || Scan(slots, UpperBound(slots, stime), opLat) < |slots|
    ensures forall k :: UpperBound(slots, stime) <= k < |slots| ==> slots[k].start > stime
  {
    UpperBoundSplits(slots, stime);
    var last := |slots| - 1;
    forall k | 0 <= k < last ensures slots[k].end <= MAX { assert slots[k].end < slots[last].start; }
  }

  // ----- The two ways of placing an operation -----

  lemma FreeConcat(a: seq<Slot>, b: seq<Slot>, t: nat)
    ensures FreeAt(a + b, t) <==> FreeAt(a, t) || FreeAt(b, t)
  {
    if FreeAt(a, t) {
      var i :| 0 <= i < |a| && a[i].start <= t < a[i].end;
      assert (a + b)[i] == a[i];
    }
    if FreeAt(b, t) {
      var i :| 0 <= i < |b| && b[i].start <= t < b[i].end;
      assert (a + b)[|a| + i] == b[i];
    }
  }

  // Replacing slot p by the pieces of it in mid.
  lemma FreeReplaced(slots: seq<Slot>, p: nat, mid: seq<Slot>, t: nat)
    requires Separated(slots) && p < |slots|
    ensures var after := slots[..p] + mid + slots[p + 1..];
      && (slots[p].start <= t < slots[p].end ==> FreeAt(slots, t) && (FreeAt(after, t) <==> FreeAt(mid, t)))
      && (!(slots[p].start <= t < slots[p].end) ==> (FreeAt(after, t) <==> FreeAt(slots, t) || FreeAt(mid, t)))
  {
    var pre, post := slots[..p], slots[p + 1..];
    assert slots == (pre + [slots[p]]) + post;
    FreeConcat(pre + [slots[p]], post, t);
    FreeConcat(pre, [slots[p]], t);
    FreeConcat(pre + mid, post, t);
    FreeConcat(pre, mid, t);
    FreeOne(slots[p], t);
  }

  lemma FreeOne(s: Slot, t: nat)
    ensures FreeAt([s], t) <==> s.start <= t < s.end
  {
    assert [s][0] == s;
  }

  lemma CarveBooks(slots: seq<Slot>, p: nat, stime: nat, opLat: nat)
    requires WellFormed(slots) && p < |slots| && opLat >= 1
    requires slots[p].start <= stime && stime + opLat <= slots[p].end && stime + opLat < MAX
    ensures WellFormed(Carve(slots, p, stime, opLat))
    ensures Booked(slots, Carve(slots, p, stime, opLat), stime, opLat)
  {
    forall t: nat
      ensures FreeAt(Carve(slots, p, stime, opLat), t) <==> FreeAt(slots, t) && !(stime <= t < stime + opLat)
    {
      CarveFree(slots, p, stime, opLat, t);
    }
    CarveWellFormed(slots, p, stime, opLat);
  }

  lemma CarveFree(slots: seq<Slot>, p: nat, stime: nat, opLat: nat, t: nat)
    requires Separated(slots) && p < |slots|
    requires slots[p].start <= stime && stime + opLat <= slots[p].end
    ensures FreeAt(Carve(slots, p, stime, opLat), t) <==> FreeAt(slots, t) && !(stime <= t < stime + opLat)
  {
    var s := slots[p];
    var front := if s.start == stime then [] else [Slot(s.start, stime)];
    var back := if s.end == stime + opLat then [] else [Slot(stime + opLat, s.end)];
    assert Carve(slots, p, stime, opLat) == slots[..p] + (front + back) + slots[p + 1..];
    hide FreeAt;
    FreeReplaced(slots, p, front + back, t);
    FreeConcat(front, back, t);
    FreeOne(Slot(s.start, stime), t);
    FreeOne(Slot(stime + opLat, s.end), t);
    FreeNone(t);
  }

  lemma FreeNone(t: nat)
    ensures !FreeAt([], t)
  {
  }

  lemma SeparatedSlot(slots: seq<Slot>, p: nat)
    requires Separated(slots) && p < |slots|
    ensures slots[p].start < slots[p].end
  {
  }

  lemma CarveParts(slots: seq<Slot>, p: nat, stime: nat, opLat: nat, front: seq<Slot>, back: seq<Slot>)
    requires p < |slots| && slots[p].start <= stime && stime + opLat <= slots[p].end
    requires front == if slots[p].start == stime then [] else [Slot(slots[p].start, stime)]
    requires back == if slots[p].end == stime + opLat then [] else [Slot(stime + opLat, slots[p].end)]
    ensures Carve(slots, p, stime, opLat) == slots[..p] + (front + back) + slots[p + 1..]
  {
  }

  lemma PieceSeparated(s: Slot, front: seq<Slot>, back: seq<Slot>, stime: nat, opLat: nat)
    requires s.start <= stime && stime + opLat <= s.end && opLat >= 1
    requires front == if s.start == stime then [] else [Slot(s.start, stime)]
    requires back == if s.end == stime + opLat then [] else [Slot(stime + opLat, s.end)]
    ensures Separated(front + back)
  {
  }

  lemma CarveWellFormed(slots: seq<Slot>, p: nat, stime: nat, opLat: nat)
    requires WellFormed(slots) && p < |slots| && opLat >= 1
    requires slots[p].start <= stime && stime + opLat <= slots[p].end && stime + opLat < MAX
    ensures WellFormed(Carve(slots, p, stime, opLat))
  {
    hide Separated, Carve;
    var s := slots[p];
    var front := if s.start == stime then [] else [Slot(s.start, stime)];
    var back := if s.end == stime + opLat then [] else [Slot(stime + opLat, s.end)];
    var r := slots[..p] + (front + back) + slots[p + 1..];
    CarveParts(slots, p, stime, opLat, front, back);
    SeparatedSlot(slots, p);
    PieceSeparated(s, front, back, stime, opLat);
    SeparatedReplaced(slots, p, front + back);
    assert r[|r| - 1] == if p == |slots| - 1 then Slot(stime + opLat, s.end) else slots[|slots| - 1];
  }

  // Replacing slot p by separated pieces of it keeps the list separated.
  lemma SeparatedReplaced(slots: seq<Slot>, p: nat, mid: seq<Slot>)
    requires Separated(slots) && p < |slots| && Separated(mid)
    requires forall i :: 0 <= i < |mid| ==> slots[p].start <= mid[i].start && mid[i].end <= slots[p].end
    ensures Separated(slots[..p] + mid + slots[p + 1..])
  {
    var pre, post := slots[..p], slots[p + 1..];
    var r := pre + mid + post;
    var n, m := |pre|, |mid|;
    forall i | 0 <= i < |r|
      ensures r[i] == if i < n then slots[i] else if i < n + m then mid[i - n] else slots[i - m + 1]
    {
    }
  }

  lemma ShortenBooks(slots: seq<Slot>, j: nat, opLat: nat)
    requires WellFormed(slots) && j < |slots| && opLat >= 1
    requires slots[j].start + opLat <= slots[j].end && slots[j].start + opLat < MAX
    ensures WellFormed(Shorten(slots, j, opLat))
    ensures Booked(slots, Shorten(slots, j, opLat), slots[j].start, opLat)
  {
    assert Shorten(slots, j, opLat) == Carve(slots, j, slots[j].start, opLat);
    CarveBooks(slots, j, slots[j].start, opLat);
  }

  // ----- Earliest fit -----

  lemma EndNotFree(slots: seq<Slot>, i: nat)
    requires Separated(slots) && i < |slots|
    ensures !FreeAt(slots, slots[i].end)
  {
  }

  // A stretch of free time lies in one slot.
  lemma {:induction false} FeasibleInOneSlot(slots: seq<Slot>, s: nat, opLat: nat)
    requires Separated(slots) && opLat >= 1
    ensures Feasible(slots, s, opLat) <==>
            exists i :: 0 <= i < |slots| && slots[i].start <= s && s + opLat <= slots[i].end
    decreases opLat
  {
    if Feasible(slots, s, opLat) {
      assert FreeAt(slots, s);
      var i :| 0 <= i < |slots| && slots[i].start <= s < slots[i].end;
      EndNotFree(slots, i);
    }
    if i :| 0 <= i < |slots| && slots[i].start <= s && s + opLat <= slots[i].end {
      forall t: nat | s <= t < s + opLat ensures FreeAt(slots, t) { }
    }
  }

  // Unless the subtraction wraps, the code books the earliest feasible stretch, and exactly it.
  lemma StepIsEarliestFit(slots: seq<Slot>, stime: nat, opLat: nat)
    requires Request(slots, stime, opLat) && !Wraps(slots, stime, opLat)
    ensures StepOk(slots, stime, opLat)
  {
    StepDefined(slots, stime, opLat);
    UpperBoundSplits(slots, stime);
    var it := UpperBound(slots, stime);
    hide WellFormed, IsEarliest, Booked, Carve, Shorten, UpperBound, Scan;
    if FitsNow(slots, stime, opLat) {
      FitsEarliest(slots, stime, opLat, it - 1);
    } else {
      ScanEarliest(slots, stime, opLat, it);
    }
  }

  lemma FitsEarliest(slots: seq<Slot>, stime: nat, opLat: nat, p: nat)
    requires WellFormed(slots) && p < |slots| && opLat >= 1 && stime + opLat < MAX
    requires slots[p].start <= stime && stime + opLat <= slots[p].end
    ensures WellFormed(Carve(slots, p, stime, opLat)) && IsEarliest(slots, stime, opLat, stime)
    ensures Booked(slots, Carve(slots, p, stime, opLat), stime, opLat)
  {
    CarveBooks(slots, p, stime, opLat);
    FeasibleInOneSlot(slots, stime, opLat);
  }

  lemma ScanEarliest(slots: seq<Slot>, stime: nat, opLat: nat, it: nat)
    requires Request(slots, stime, opLat) && !Wraps(slots, stime, opLat) && !FitsNow(slots, stime, opLat)
    requires it == UpperBound(slots, stime)
    ensures var j := Scan(slots, it, opLat);
      && j < |slots| && WellFormed(Shorten(slots, j, opLat)) && IsEarliest(slots, stime, opLat, slots[j].start)
      && Booked(slots, Shorten(slots, j, opLat), slots[j].start, opLat)
  {
    hide IsEarliest, Booked, Carve, Shorten;
    StepDefined(slots, stime, opLat);
    UpperBoundSplits(slots, stime);
    var j := Scan(slots, it, opLat);
    NoWrapLater(slots, it, opLat);
    ShortenBooks(slots, j, opLat);
    FirstFit(slots, stime, opLat, it, j);
  }

  // If the first slot ends late enough, so do all after it, and the comparison is the intended one.
  lemma NoWrapLater(slots: seq<Slot>, it: nat, opLat: nat)
    requires WellFormed(slots) && it < |slots| && slots[it].end >= opLat && opLat <= MAX
    requires forall k :: 0 <= k < |slots| ==> slots[k].end <= MAX
    ensures forall k :: it <= k < |slots| ==>
              (Sub64(slots[k].end, opLat) < slots[k].start <==> slots[k].end < slots[k].start + opLat)
  {
    forall k | it < k < |slots| ensures slots[k].end >= opLat { assert slots[it].end < slots[k].start; }
  }

  ghost predicate StepOk(slots: seq<Slot>, stime: nat, opLat: nat)
    requires Request(slots, stime, opLat)
  {
    StepDefined(slots, stime, opLat);
    var r := Step(slots, stime, opLat);
    var st := StartOf(r, stime, opLat);
    WellFormed(r.slots) && st >= 0 && IsEarliest(slots, stime, opLat, st) && Booked(slots, r.slots, st, opLat)
  }

  lemma FirstFit(slots: seq<Slot>, stime: nat, opLat: nat, it: nat, j: nat)
    requires Separated(slots) && opLat >= 1 && it <= j < |slots|
    requires forall i :: 0 <= i < it ==> slots[i].start <= stime
    requires forall i :: it <= i < |slots| ==> slots[i].start > stime
    requires it > 0 ==> slots[it - 1].end < stime + opLat
    requires forall k :: it <= k < j ==> slots[k].end < slots[k].start + opLat
    requires slots[j].start + opLat <= slots[j].end
    ensures IsEarliest(slots, stime, opLat, slots[j].start)
  {
    FeasibleInOneSlot(slots, slots[j].start, opLat);
    forall s: nat | stime <= s < slots[j].start ensures !Feasible(slots, s, opLat) {
      FeasibleInOneSlot(slots, s, opLat);
    }
  }

  // When it does wrap, the code books time that is not free.
  lemma WrapOverbooks(slots: seq<Slot>, stime: nat, opLat: nat)
    requires Request(slots, stime, opLat) && Wraps(slots, stime, opLat)
    ensures StepDefinedAt(slots, stime, opLat)
    ensures var st := StartOf(Step(slots, stime, opLat), stime, opLat); st >= stime && !Feasible(slots, st, opLat)
    ensures !StepOk(slots, stime, opLat)
  {
    StepDefined(slots, stime, opLat);
    UpperBoundSplits(slots, stime);
    var it := UpperBound(slots, stime);
    var st := slots[it].start;
    assert Scan(slots, it, opLat) == it;
    FeasibleInOneSlot(slots, st, opLat);
    if i :| 0 <= i < |slots| && slots[i].start <= st && st + opLat <= slots[i].end {
      assert false;
    }
  }

  // Slot i is the first to begin after the time.
  ghost predicate FirstAfter(slots: seq<Slot>, stime: nat, i: nat) {
    i < |slots| && slots[i].start > stime && forall k :: 0 <= k < i ==> slots[k].start <= stime
  }

  // It takes the first slot that begins after the clock, however short, and leaves it ending before
  // it begins.
  lemma WrapTakesFirst(slots: seq<Slot>, stime: nat, opLat: nat) returns (i: nat)
    requires Request(slots, stime, opLat) && Wraps(slots, stime, opLat)
    ensures StepDefinedAt(slots, stime, opLat) && FirstAfter(slots, stime, i) && slots[i].end < opLat
    ensures var r := Step(slots, stime, opLat);
      && StartOf(r, stime, opLat) == slots[i].start
      && r.slots == slots[i := Slot(slots[i].start + opLat, slots[i].end)]
  {
    StepDefined(slots, stime, opLat);
    UpperBoundSplits(slots, stime);
    i := UpperBound(slots, stime);
    assert Scan(slots, i, opLat) == i;
  }

  // So the scheduler is right exactly when the subtraction does not wrap.
  lemma EarliestFitIffNoWrap(slots: seq<Slot>, stime: nat, opLat: nat)
    requires Request(slots, stime, opLat)
    ensures StepOk(slots, stime, opLat) <==> !Wraps(slots, stime, opLat)
  {
    if Wraps(slots, stime, opLat) {
      WrapOverbooks(slots, stime, opLat);
    } else {
      StepIsEarliestFit(slots, stime, opLat);
    }
  }

  // A clock that has passed the operation's latency is enough.
  lemma LateClockNeverWraps(slots: seq<Slot>, stime: nat, opLat: nat)
    requires Request(slots, stime, opLat) && stime + 2 >= opLat
    ensures !Wraps(slots, stime, opLat)
  {
    UpperBoundSplits(slots, stime);
  }

  // Two reads of 40 us at 100 us and 150 us, then an erase that collection issues at time 0: the
  // erase is booked over the second read.
  lemma WrapExample()
    ensures StepDefinedAt([Slot(0, MAX)], 100_000, 40_000)
    ensures var one := Step([Slot(0, MAX)], 100_000, 40_000).slots;
      StepDefinedAt(one, 150_000, 40_000) &&
      var two := Step(one, 150_000, 40_000).slots;
      Request(two, 0, 2_000_000) && StepDefinedAt(two, 0, 2_000_000) &&
      var r := Step(two, 0, 2_000_000);
      StartOf(r, 0, 2_000_000) == 140_000 && !Feasible(two, 140_000, 2_000_000)
  {
    hide Step, StepDefinedAt, Request, Feasible;
    FirstRead();
    SecondRead();
    LateErase();
  }

  const ONE_READ := [Slot(0, 100_000), Slot(140_000, MAX)]
  const TWO_READS := [Slot(0, 100_000), Slot(140_000, 150_000), Slot(190_000, MAX)]

  lemma FirstRead()
    ensures StepDefinedAt([Slot(0, MAX)], 100_000, 40_000)
    ensures Step([Slot(0, MAX)], 100_000, 40_000).slots == ONE_READ
  {
    var zero := [Slot(0, MAX)];
    assert zero[1..] == [];
    assert UpperBound(zero, 100_000) == 1;
    assert Carve(zero, 0, 100_000, 40_000) == ONE_READ;
  }

  lemma SecondRead()
    ensures StepDefinedAt(ONE_READ, 150_000, 40_000)
    ensures Step(ONE_READ, 150_000, 40_000).slots == TWO_READS
  {
    assert ONE_READ[1..] == [Slot(140_000, MAX)];
    assert ONE_READ[1..][1..] == [];
    assert UpperBound(ONE_READ, 150_000) == 2;
    assert Carve(ONE_READ, 1, 150_000, 40_000) == TWO_READS;
  }

  lemma LateErase()
    ensures Request(TWO_READS, 0, 2_000_000) && StepDefinedAt(TWO_READS, 0, 2_000_000)
    ensures StartOf(Step(TWO_READS, 0, 2_000_000), 0, 2_000_000) == 140_000
    ensures !Feasible(TWO_READS, 140_000, 2_000_000)
  {
    hide Feasible;
    assert TWO_READS[1..] == [Slot(140_000, 150_000), Slot(190_000, MAX)];
    assert UpperBound(TWO_READS, 0) == 1;
    WrapOverbooks(TWO_READS, 0, 2_000_000);
    assert Scan(TWO_READS, 1, 2_000_000) == 1;
  }

  // ----- Flushing -----

  lemma {:induction false} FlushDrops(slots: seq<Slot>, stime: nat) returns (k: nat)
    ensures k <= |slots| && Flush(slots, stime) == slots[k..]
    ensures forall i :: 0 <= i < k ==> slots[i].end < stime
    ensures k < |slots| ==> stime <= slots[k].end
  {
    if slots != [] && slots[0].end < stime {
      var k' := FlushDrops(slots[1..], stime);
      k := k' + 1;
      assert slots[1..][k'..] == slots[k..];
    } else {
      k := 0;
    }
  }

  lemma FlushKeeps(slots: seq<Slot>, stime: nat)
    requires WellFormed(slots) && stime <= MAX
    ensures WellFormed(Flush(slots, stime))
    ensures Flush(slots, stime)[|Flush(slots, stime)| - 1] == slots[|slots| - 1]
    ensures forall s :: s in Flush(slots, stime) <==> s in slots && stime <= s.end
    ensures forall t: nat :: FreeAt(Flush(slots, stime), t) ==> FreeAt(slots, t)
    ensures forall t: nat :: stime <= t && FreeAt(slots, t) ==> FreeAt(Flush(slots, stime), t)
  {
    var k := FlushDrops(slots, stime);
    hide Flush;
    DropKeeps(slots, k, stime);
    DropExactly(slots, k, stime);
  }

  lemma DropExactly(slots: seq<Slot>, k: nat, stime: nat)
    requires Separated(slots) && k <= |slots| && forall i :: 0 <= i < k ==> slots[i].end < stime
    requires k < |slots| ==> stime <= slots[k].end
    ensures forall s :: s in slots[k..] <==> s in slots && stime <= s.end
  {
    forall s | s in slots && stime <= s.end ensures s in slots[k..] {
      var i :| 0 <= i < |slots| && slots[i] == s;
      assert slots[k..][i - k] == s;
    }
    forall s | s in slots[k..] ensures stime <= s.end {
      var i :| k <= i < |slots| && slots[i] == s;
      if i > k { assert slots[k].end < slots[i].start < slots[i].end; }
    }
  }

  lemma DropKeeps(slots: seq<Slot>, k: nat, stime: nat)
    requires WellFormed(slots) && stime <= MAX && k <= |slots| && forall i :: 0 <= i < k ==> slots[i].end < stime
    ensures k < |slots| && WellFormed(slots[k..])
    ensures forall t: nat :: FreeAt(slots[k..], t) ==> FreeAt(slots, t)
    ensures forall t: nat :: stime <= t && FreeAt(slots, t) ==> FreeAt(slots[k..], t)
  {
    assert k < |slots|;
    forall t: nat | FreeAt(slots[k..], t) ensures FreeAt(slots, t) {
      var i :| 0 <= i < |slots[k..]| && slots[k..][i].start <= t < slots[k..][i].end;
      assert slots[k + i] == slots[k..][i];
    }
    forall t: nat | stime <= t && FreeAt(slots, t) ensures FreeAt(slots[k..], t) {
      var i :| 0 <= i < |slots| && slots[i].start <= t < slots[i].end;
      assert slots[k..][i - k] == slots[i];
    }
  }

  lemma {:induction false} UpperBoundDrop(slots: seq<Slot>, k: nat, stime: nat)
    requires Separated(slots) && k <= |slots| && forall i :: 0 <= i < k ==> slots[i].end < stime
    ensures UpperBound(slots, stime) == k + UpperBound(slots[k..], stime)
  {
    if k > 0 {
      assert slots[0].start <= stime;
      UpperBoundDrop(slots[1..], k - 1, stime);
      assert slots[1..][k - 1..] == slots[k..];
    } else {
      assert slots[0..] == slots;
    }
  }

  // Flushing at a time never changes the answer to a request at that time or later.
  lemma FlushInvisible(slots: seq<Slot>, stime: nat, later: nat, opLat: nat)
    requires Request(slots, later, opLat) && stime <= later
    ensures Request(Flush(slots, stime), later, opLat)
    ensures StepDefinedAt(slots, later, opLat) && StepDefinedAt(Flush(slots, stime), later, opLat)
    ensures Step(Flush(slots, stime), later, opLat).lat == Step(slots, later, opLat).lat
    ensures Wraps(Flush(slots, stime), later, opLat) <==> Wraps(slots, later, opLat)
  {
    hide Flush, Step, UpperBound, Scan, FitsNow, Wraps;
    FlushRequest(slots, stime, later, opLat);
    var k := FlushDrops(slots, stime);
    StepDefined(slots, later, opLat);
    StepDefined(slots[k..], later, opLat);
    DropInvisible(slots, k, later, opLat);
  }

  lemma FlushRequest(slots: seq<Slot>, stime: nat, later: nat, opLat: nat)
    requires Request(slots, later, opLat) && stime <= later
    ensures Request(Flush(slots, stime), later, opLat)
  {
    hide Flush, WellFormed;
    FlushKeeps(slots, stime);
    assert Flush(slots, stime) != [] by { NotEmpty(Flush(slots, stime)); }
  }

  lemma NotEmpty(slots: seq<Slot>)
    requires WellFormed(slots)
    ensures slots != []
  {
  }

  lemma DropInvisible(slots: seq<Slot>, k: nat, later: nat, opLat: nat)
    requires k <= |slots| && Separated(slots) && forall i :: 0 <= i < k ==> slots[i].end < later
    requires StepDefinedAt(slots, later, opLat) && StepDefinedAt(slots[k..], later, opLat)
    ensures Step(slots[k..], later, opLat).lat == Step(slots, later, opLat).lat
    ensures Wraps(slots[k..], later, opLat) <==> Wraps(slots, later, opLat)
  {
    hide UpperBound, Scan, Step, FitsNow, Wraps, Separated;
    UpperBoundDrop(slots, k, later);
    ScanDrop(slots, k, UpperBound(slots[k..], later), opLat);
    DropFits(slots, k, later, opLat);
    StepLat(slots, later, opLat);
    StepLat(slots[k..], later, opLat);
  }

  lemma StepLat(slots: seq<Slot>, later: nat, opLat: nat)
    requires StepDefinedAt(slots, later, opLat)
    ensures var j := Scan(slots, UpperBound(slots, later), opLat);
      if FitsNow(slots, later, opLat) then Step(slots, later, opLat).lat == opLat
      else j < |slots| && Step(slots, later, opLat).lat == slots[j].start + opLat - later
  {
  }

  lemma DropFits(slots: seq<Slot>, k: nat, later: nat, opLat: nat)
    requires k <= |slots| && forall i :: 0 <= i < k ==> slots[i].end < later
    requires UpperBound(slots, later) == k + UpperBound(slots[k..], later)
    ensures FitsNow(slots[k..], later, opLat) <==> FitsNow(slots, later, opLat)
    ensures Wraps(slots[k..], later, opLat) <==> Wraps(slots, later, opLat)
  {
    hide UpperBound;
    var n := UpperBound(slots[k..], later);
    if n > 0 { assert slots[k..][n - 1] == slots[k + n - 1]; }
  }

  ghost predicate StepDefinedAt(slots: seq<Slot>, stime: nat, opLat: nat) {
    && opLat <= MAX && (forall k :: 0 <= k < |slots| ==> slots[k].end <= MAX)
    && (FitsNow(slots, stime, opLat) || Scan(slots, UpperBound(slots, stime), opLat) < |slots|)
    && (forall k :: UpperBound(slots, stime) <= k < |slots| ==> slots[k].start >= stime)
  }

  lemma {:induction false} ScanDrop(slots: seq<Slot>, k: nat, i: nat, opLat: nat)
    requires k <= |slots| && i <= |slots[k..]| && opLat <= MAX && forall j :: 0 <= j < |slots| ==> slots[j].end <= MAX
    ensures Scan(slots, k + i, opLat) == k + Scan(slots[k..], i, opLat)
    decreases |slots| - i
  {
    if |slots| <= k + i || slots[k + i].start <= Sub64(slots[k + i].end, opLat) {
    } else {
      ScanDrop(slots, k, i + 1, opLat);
    }
  }

  // ----- The list of one LUN -----

  class LunSlots {
    var slots: seq<Slot>
    ghost var bookings: seq<(nat, nat)>   // (start, length) of every operation so far

    ghost predicate Valid()
      reads this
    {
      WellFormed(slots) && NoDoubleBooking(slots, bookings)
    }

    // SGX_init_lun
    constructor ()
      ensures Valid() && slots == [Slot(0, MAX)] && bookings == []
    {
      slots, bookings := [Slot(0, MAX)], [];
    }

    // advance_time_slot
    method AdvanceTimeSlot(stime: nat, opLat: nat, flush: bool) returns (lat: nat)
      requires Valid() && Request(slots, stime, opLat)
      modifies this
      ensures lat >= opLat && bookings == old(bookings) + [(stime + lat - opLat, opLat)]
      ensures !Wraps(old(slots), stime, opLat) ==> Valid()
      ensures !Wraps(old(slots), stime, opLat) ==> IsEarliest(old(slots), stime, opLat, stime + lat - opLat)
      ensures !Wraps(old(slots), stime, opLat) ==>
        BookedFrom(old(slots), slots, stime + lat - opLat, opLat, if flush then stime else 0)
      ensures StepDefinedAt(old(slots), stime, opLat)
      ensures var r := Step(old(slots), stime, opLat);
        lat == r.lat && slots == if flush then Flush(r.slots, stime) else r.slots
      ensures Wraps(old(slots), stime, opLat) ==> !Feasible(old(slots), stime + lat - opLat, opLat)
    {
      hide IsEarliest, Feasible, WellFormed, FreeAt, NoDoubleBooking, Step, StepDefinedAt, Flush, Wraps, BookedFrom;
      if Wraps(slots, stime, opLat) {
        WrapOverbooks(slots, stime, opLat);
      } else {
        BookingKeeps(slots, bookings, stime, opLat, flush);
      }
      lat := Place(stime, opLat);
      bookings := bookings + [(stime + lat - opLat, opLat)];
      if flush {
        DropPast(stime);
      }
    }

    // std::upper_bound
    method FindUpper(stime: nat) returns (it: nat)
      ensures it == UpperBound(slots, stime) && it <= |slots|
    {
      it := 0;
      while it < |slots| && slots[it].start <= stime
        invariant it <= |slots|
        invariant UpperBound(slots, stime) == it + UpperBound(slots[it..], stime)
      {
        it := it + 1;
      }
    }

    // The part up to the flush.
    method Place(stime: nat, opLat: nat) returns (lat: nat)
      requires StepDefinedAt(slots, stime, opLat)
      modifies this`slots
      ensures slots == Step(old(slots), stime, opLat).slots && lat == Step(old(slots), stime, opLat).lat
    {
      hide Carve, Shorten, UpperBound;
      ghost var n := UpperBound(slots, stime);
      var it := FindUpper(stime);
      if it != 0 && slots[it - 1].end >= stime + opLat {
        lat := opLat;
        slots := Carve(slots, it - 1, stime, opLat);
      } else {
        while it < |slots| && Sub64(slots[it].end, opLat) < slots[it].start
          invariant n <= it <= |slots|
          invariant Scan(slots, n, opLat) == Scan(slots, it, opLat)
        {
          it := it + 1;
        }
        lat := slots[it].start + opLat - stime;
        slots := Shorten(slots, it, opLat);
      }
    }

    // The flush.
    method DropPast(stime: nat)
      modifies this`slots
      ensures slots == Flush(old(slots), stime)
    {
      while slots != [] && slots[0].end < stime
        invariant Flush(slots, stime) == Flush(old(slots), stime)
        decreases |slots|
      {
        slots := slots[1..];
      }
    }
  }

  lemma StepFacts(slots: seq<Slot>, stime: nat, opLat: nat)
    requires Request(slots, stime, opLat) && !Wraps(slots, stime, opLat)
    ensures StepDefinedAt(slots, stime, opLat) && opLat >= 1 && stime <= MAX
    ensures var r := Step(slots, stime, opLat); var st := StartOf(r, stime, opLat);
      && st >= stime && WellFormed(r.slots) && Feasible(slots, st, opLat)
      && IsEarliest(slots, stime, opLat, st) && Booked(slots, r.slots, st, opLat)
  {
    StepIsEarliestFit(slots, stime, opLat);
    StepDefined(slots, stime, opLat);
  }

  ghost predicate NotFree(slots: seq<Slot>, b: (nat, nat)) {
    forall t: nat :: b.0 <= t < b.0 + b.1 ==> !FreeAt(slots, t)
  }

  ghost predicate Disjoint(a: (nat, nat), b: (nat, nat)) {
    a.0 + a.1 <= b.0 || b.0 + b.1 <= a.0
  }

  // No booking overlaps another or any free time.
  ghost predicate NoDoubleBooking(slots: seq<Slot>, bookings: seq<(nat, nat)>) {
    && (forall b :: 0 <= b < |bookings| ==> NotFree(slots, bookings[b]) && bookings[b].1 >= 1)
    && (forall a, b :: 0 <= a < b < |bookings| ==> Disjoint(bookings[a], bookings[b]))
  }

  lemma BookingAdded(before: seq<Slot>, after: seq<Slot>, bookings: seq<(nat, nat)>, st: nat, opLat: nat)
    requires Feasible(before, st, opLat) && Booked(before, after, st, opLat) && opLat >= 1
    requires NoDoubleBooking(before, bookings)
    ensures NoDoubleBooking(after, bookings + [(st, opLat)])
  {
    forall b | 0 <= b < |bookings| ensures Disjoint(bookings[b], (st, opLat)) && NotFree(after, bookings[b]) {
      var x := bookings[b];
      assert FreeAt(before, st) && !FreeAt(before, x.0);
    }
  }

  // A booking without a wrap, and the flush behind it.
  lemma BookingKeeps(slots: seq<Slot>, bookings: seq<(nat, nat)>, stime: nat, opLat: nat, flush: bool)
    requires Request(slots, stime, opLat) && !Wraps(slots, stime, opLat) && NoDoubleBooking(slots, bookings)
    ensures StepDefinedAt(slots, stime, opLat)
    ensures var r := Step(slots, stime, opLat); var after := if flush then Flush(r.slots, stime) else r.slots;
      && r.lat >= opLat && WellFormed(after)
      && NoDoubleBooking(after, bookings + [(stime + r.lat - opLat, opLat)])
      && IsEarliest(slots, stime, opLat, stime + r.lat - opLat)
      && BookedFrom(slots, after, stime + r.lat - opLat, opLat, if flush then stime else 0)
  {
    hide IsEarliest, Feasible, WellFormed, FreeAt, NoDoubleBooking, Step, StepDefinedAt, Flush;
    StepFacts(slots, stime, opLat);
    var r := Step(slots, stime, opLat);
    var st := stime + r.lat - opLat;
    BookingAdded(slots, r.slots, bookings, st, opLat);
    if flush {
      FlushKeeps(r.slots, stime);
      LessFree(r.slots, Flush(r.slots, stime), bookings + [(st, opLat)]);
    }
  }

  lemma LessFree(slots: seq<Slot>, after: seq<Slot>, bookings: seq<(nat, nat)>)
    requires NoDoubleBooking(slots, bookings)
    requires forall t: nat :: FreeAt(after, t) ==> FreeAt(slots, t)
    ensures NoDoubleBooking(after, bookings)
  {
  }
}
