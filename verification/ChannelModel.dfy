// The bandwidth model of channel_model.c: a ring of credits, one entry for each 4000 ns of
// time from now on.
module CreditRing {
  import opened MixedRadix

  const NR_CREDIT_ENTRIES: nat := 1024 * 96
  const UNIT_TIME_INTERVAL: nat := 4000
  const UNIT_XFER_SIZE: nat := 128
  const UNIT_XFER_CREDITS: nat := 1

  // Assigning to a uint32_t.
  function Trunc32(x: nat): nat {
    x % 0x1_0000_0000
  }

  // The ring read from head on: entry k is the credit left in the k-th interval from now.
  // cur is the absolute number of the current interval, and charged(b) is the ghost total of
  // credits ever taken in the absolute interval b.
  ghost predicate Good(maxCredits: nat, cur: nat, validLen: nat, a: seq<nat>, charged: nat -> nat) {
    && |a| == NR_CREDIT_ENTRIES && validLen <= NR_CREDIT_ENTRIES
    && (forall k :: 0 <= k < |a| ==> a[k] <= maxCredits)
    && (forall k :: validLen <= k < |a| ==> a[k] == maxCredits)
    && (forall k: nat :: k < |a| ==> charged(cur + k) + a[k] <= maxCredits)
    && (forall b: nat :: cur + |a| <= b ==> charged(b) == 0)
    && (forall b: nat :: charged(b) <= maxCredits)
  }

  lemma GoodShape(maxCredits: nat, cur: nat, validLen: nat, a: seq<nat>, charged: nat -> nat)
    requires Good(maxCredits, cur, validLen, a, charged)
    ensures |a| == NR_CREDIT_ENTRIES && validLen <= NR_CREDIT_ENTRIES
  {
  }

  lemma FreshIsGood(maxCredits: nat, a: seq<nat>, charged: nat -> nat)
    requires |a| == NR_CREDIT_ENTRIES && (forall k :: 0 <= k < |a| ==> a[k] == maxCredits)
    requires forall b: nat :: charged(b) == 0
    ensures Good(maxCredits, 0, 0, a, charged)
  {
  }

  // ----- Moving on in time -----

  // How far the head moves when the clock goes from interval cur to interval now: the
  // difference is cut to 32 bits and to the part of the ring that is in use.
  function HeadShift(cur: nat, now: nat, validLen: nat): (offs: nat)
    requires cur <= now
    ensures offs <= validLen
  {
    var d := Trunc32(now - cur);
    if d < validLen then d else validLen
  }

  // The first offs entries leave the window, fresh ones enter at its end.
  function Slid(a: seq<nat>, offs: nat, maxCredits: nat): (r: seq<nat>)
    requires offs <= |a|
    ensures |r| == |a|
  {
    a[offs..] + seq(offs, _ => maxCredits)
  }

  lemma SlideKeepsLimit(maxCredits: nat, cur: nat, now: nat, validLen: nat, a: seq<nat>, charged: nat -> nat)
    requires Good(maxCredits, cur, validLen, a, charged) && cur <= now
    ensures var offs := HeadShift(cur, now, validLen);
      Good(maxCredits, now, validLen - offs, Slid(a, offs, maxCredits), charged)
  {
    var offs := HeadShift(cur, now, validLen);
    var r := Slid(a, offs, maxCredits);
    var d := now - cur;
    forall k: nat | k < |r| ensures charged(now + k) + r[k] <= maxCredits {
      if d == offs {
        if offs + k < |a| { assert charged(cur + (offs + k)) + a[offs + k] <= maxCredits; }
      } else if d + k < |a| {
        assert d >= validLen;
        assert charged(cur + (d + k)) + a[d + k] <= maxCredits;
      }
    }
  }

  // ----- Charging a request -----

  // Taking `credits` from interval k on, each interval drained before the next is touched;
  // what does not fit in the ring is dropped.  `last` is the last interval touched.
  datatype Charge = Charge(a: seq<nat>, last: nat, lost: nat)

  function TakeFrom(a: seq<nat>, k: nat, credits: nat): (r: Charge)
    requires k < |a|
    ensures |r.a| == |a| && k <= r.last < |a|
    ensures forall j :: 0 <= j < |a| ==> r.a[j] <= a[j]
    ensures forall j :: 0 <= j < k || r.last < j < |a| ==> r.a[j] == a[j]
    ensures forall j :: k <= j < r.last ==> r.a[j] == 0
    ensures r.lost > 0 ==> r.last == |a| - 1 && r.a[r.last] == 0
    ensures r.last > k ==> r.a[r.last] < a[r.last] || a[r.last] == 0
    decreases |a| - k
  {
    if credits <= a[k] then Charge(a[k := a[k] - credits], k, 0)
    else if k + 1 < |a| then TakeFrom(a[k := 0], k + 1, credits - a[k])
    else Charge(a[k := 0], k, credits - a[k])
  }

  // One entry at a time.
  lemma TakeUnfolds(a: seq<nat>, k: nat, credits: nat)
    requires k < |a|
    ensures var got := if credits <= a[k] then credits else a[k]; var rest := a[k := a[k] - got];
      TakeFrom(a, k, credits) ==
        if credits == got || k + 1 == |a| then Charge(rest, k, credits - got) else TakeFrom(rest, k + 1, credits - got)
  {
  }

  function Sum(a: seq<nat>): nat {
    if a == [] then 0 else Sum(a[..|a| - 1]) + a[|a| - 1]
  }

  lemma {:induction false} SumUpdate(a: seq<nat>, k: nat, v: nat)
    requires k < |a|
    ensures Sum(a[k := v]) + a[k] == Sum(a) + v
  {
    var n := |a| - 1;
    if k == n {
      assert a[k := v][..n] == a[..n];
    } else {
      SumUpdate(a[..n], k, v);
      assert a[k := v][..n] == a[..n][k := v];
    }
  }

  // Exactly the credits asked for leave the ring, but for those reported lost.
  lemma {:induction false} TakeExactly(a: seq<nat>, k: nat, credits: nat)
    requires k < |a|
    ensures var r := TakeFrom(a, k, credits); Sum(r.a) + credits == Sum(a) + r.lost
    decreases |a| - k
  {
    if credits <= a[k] {
      SumUpdate(a, k, a[k] - credits);
    } else {
      SumUpdate(a, k, 0);
      if k + 1 < |a| { TakeExactly(a[k := 0], k + 1, credits - a[k]); }
    }
  }

  // The running totals after a charge.
  ghost function Recharged(charged: nat -> nat, cur: nat, before: seq<nat>, after: seq<nat>): nat -> nat
    requires |after| == |before| && forall k :: 0 <= k < |before| ==> after[k] <= before[k]
  {
    (b: nat) => if cur <= b < cur + |before| then charged(b) + (before[b - cur] - after[b - cur]) else charged(b)
  }

  lemma ChargeKeepsLimit(maxCredits: nat, cur: nat, validLen: nat, a: seq<nat>, charged: nat -> nat, k: nat,
                         credits: nat)
    requires Good(maxCredits, cur, validLen, a, charged) && k < |a|
    ensures var r := TakeFrom(a, k, credits);
      Good(maxCredits, cur, if r.last + 1 > validLen then r.last + 1 else validLen, r.a,
           Recharged(charged, cur, a, r.a))
  {
    var r := TakeFrom(a, k, credits);
    var c := Recharged(charged, cur, a, r.a);
    forall j: nat | j < |a| ensures c(cur + j) + r.a[j] <= maxCredits {
      assert charged(cur + j) + a[j] <= maxCredits;
    }
    forall b: nat ensures c(b) <= maxCredits {
      if cur <= b < cur + |a| { assert charged(cur + (b - cur)) + a[b - cur] <= maxCredits; }
    }
  }

  // ----- How long a request takes -----

  // So many transfer units hold `length` bytes, and one fewer does not.
  ghost predicate Covers(units: nat, length: nat) {
    length <= units * 128 && (units > 0 ==> (units - 1) * 128 < length)
  }

  // Intervals waited beyond those that the transfer fills anyway.
  function Beyond(waited: nat, filled: nat): (n: nat)
    ensures waited <= filled ==> n == 0
    ensures waited > filled ==> n + filled == waited
  {
    if waited > filled then waited - filled else 0
  }

  // What a request for `length` bytes from interval k on makes of the ring, and how long it takes,
  // where nothing is cut to 32 bits.
  ghost predicate Served(a: seq<nat>, k: nat, length: nat, xferLat: nat, maxCredits: nat, after: seq<nat>, lat: int)
    requires k < |a| && 1 <= maxCredits
  {
    forall units: nat | Covers(units, length) && units < 0x1_0000_0000 && xferLat * units < 0x1_0000_0000 ::
      var t := TakeFrom(a, k, units);
      after == t.a && lat == xferLat * units + Beyond(t.last - k, units / maxCredits) * 4000
  }

  lemma CoversUnique(u: nat, v: nat, length: nat)
    requires Covers(u, length) && Covers(v, length)
    ensures u == v
  {
  }

  // Drained intervals are passed by.
  lemma {:induction false} DrainedIsPassed(a: seq<nat>, k: nat, n: nat, credits: nat)
    requires k + n < |a| && 0 < credits && forall j :: k <= j < k + n ==> a[j] == 0
    ensures TakeFrom(a, k, credits).last >= k + n
    decreases n
  {
    if n == 0 {
    } else {
      assert a[k := 0] == a;
      DrainedIsPassed(a, k + 1, n - 1, credits);
    }
  }

  // So a request behind n drained intervals waits for them, but for the ones it fills itself.
  lemma DrainedWaits(a: seq<nat>, k: nat, length: nat, xferLat: nat, maxCredits: nat, after: seq<nat>, lat: int,
                     units: nat, n: nat)
    requires k + n < |a| && 1 <= maxCredits && Served(a, k, length, xferLat, maxCredits, after, lat)
    requires Covers(units, length) && units < 0x1_0000_0000 && xferLat * units < 0x1_0000_0000 && 0 < length
    requires forall j :: k <= j < k + n ==> a[j] == 0
    ensures lat >= (n - units / maxCredits) * 4000
  {
    DrainedIsPassed(a, k, n, units);
    var t := TakeFrom(a, k, units);
    Monotone(Beyond(t.last - k, units / maxCredits), n - units / maxCredits);
  }

  lemma Monotone(x: int, y: int)
    requires x >= y
    ensures x * 4000 >= y * 4000
  {
  }

  // From untouched intervals a request takes max_credits each.
  lemma {:induction false} FullIntervals(a: seq<nat>, k: nat, credits: nat, maxCredits: nat, n: nat)
    requires k < |a| && forall j :: k <= j < |a| ==> a[j] == maxCredits
    requires credits < (n + 1) * maxCredits
    ensures TakeFrom(a, k, credits).last - k <= n
    decreases n
  {
    hide TakeFrom;
    TakeUnfolds(a, k, credits);
    if credits <= a[k] || k + 1 == |a| {
    } else {
      Distribute(n, 1, maxCredits);
      FullIntervals(a[k := a[k] - a[k]], k + 1, credits - maxCredits, maxCredits, n - 1);
    }
  }

  // And so an idle channel adds nothing to the time of the transfer.
  lemma IdleTakes(a: seq<nat>, k: nat, length: nat, xferLat: nat, maxCredits: nat, after: seq<nat>, lat: int,
                  units: nat)
    requires k < |a| && 1 <= maxCredits && Served(a, k, length, xferLat, maxCredits, after, lat)
    requires Covers(units, length) && units < 0x1_0000_0000 && xferLat * units < 0x1_0000_0000
    requires forall j :: k <= j < |a| ==> a[j] == maxCredits
    ensures lat == xferLat * units
  {
    var n := units / maxCredits;
    Euclid(units, maxCredits);
    Distribute(n, 1, maxCredits);
    FullIntervals(a, k, units, maxCredits, n);
  }
}

module ChannelModel {
  import opened CreditRing

  // Index i of a ring of n entries, for i below 2 n.
  function Wrap(i: nat, n: nat): nat {
    if i < n then i else i - n
  }

  lemma WrapIsMod(i: nat, n: nat)
    requires 0 < n && i < 2 * n
    ensures Wrap(i, n) == i % n
  {
  }

  // The ring read from head on.
  ghost function Rotate(ring: seq<nat>, head: nat): (r: seq<nat>)
    requires head < |ring|
    ensures |r| == |ring|
  {
    seq(|ring|, k requires 0 <= k < |ring| => ring[Wrap(head + k, |ring|)])
  }

  lemma RotateUpdate(ring: seq<nat>, head: nat, k: nat, v: nat)
    requires head < |ring| && k < |ring|
    ensures Rotate(ring[Wrap(head + k, |ring|) := v], head) == Rotate(ring, head)[k := v]
  {
    var after := ring[Wrap(head + k, |ring|) := v];
    forall j | 0 <= j < |ring| ensures Rotate(after, head)[j] == Rotate(ring, head)[k := v][j] {
      assert Wrap(head + j, |ring|) == Wrap(head + k, |ring|) <==> j == k;
    }
    assert |Rotate(after, head)| == |Rotate(ring, head)[k := v]|;
  }

  // Entry i lies among the first offs entries counted from head.
  predicate InWindow(i: nat, head: nat, offs: nat, n: nat) {
    head <= i < head + offs || i + n < head + offs
  }

  // Refilling the first offs entries and moving the head past them.
  lemma RotateSlide(ring: seq<nat>, after: seq<nat>, head: nat, offs: nat, v: nat)
    requires head < |ring| == |after| && offs <= |ring|
    requires forall i :: 0 <= i < |ring| ==> after[i] == if InWindow(i, head, offs, |ring|) then v else ring[i]
    ensures Wrap(head + offs, |ring|) < |ring|
    ensures Rotate(after, Wrap(head + offs, |ring|)) == Slid(Rotate(ring, head), offs, v)
  {
    var n := |ring|;
    var h := Wrap(head + offs, n);
    forall k | 0 <= k < n ensures Rotate(after, h)[k] == Slid(Rotate(ring, head), offs, v)[k] {
      var j := if k < n - offs then k + offs else k + offs - n;
      assert Wrap(h + k, n) == Wrap(head + j, n);
    }
    assert |Rotate(after, h)| == |Slid(Rotate(ring, head), offs, v)|;
  }

  class Channel {
    const availCredits: array<nat>
    const maxCredits: nat
    const commandCredits: nat
    const xferLat: nat
    var head: nat
    var validLen: nat
    var curTime: nat
    ghost var charged: nat -> nat   // credits taken so far in each absolute interval

    ghost function Credits(): seq<nat>
      requires head < availCredits.Length
      reads this, availCredits
    {
      Rotate(availCredits[..], head)
    }

    // max_credits fits the one-byte credit_t, and no interval has been charged beyond it.
    ghost predicate Valid()
      reads this, availCredits
    {
      && availCredits.Length == NR_CREDIT_ENTRIES && head < NR_CREDIT_ENTRIES
      && 1 <= maxCredits <= 255 && commandCredits == 0
      && Good(maxCredits, curTime / UNIT_TIME_INTERVAL, validLen, Credits(), charged)
    }

    // chmodel_init
    constructor (maxCredits: nat, xferLat: nat)
      requires 1 <= maxCredits <= 255
      ensures Valid() && this.maxCredits == maxCredits && fresh(availCredits)
      ensures curTime == 0 && forall b: nat :: charged(b) == 0
    {
      head, validLen, curTime := 0, 0, 0;
      this.maxCredits, commandCredits, this.xferLat := maxCredits, 0, xferLat;
      availCredits := new nat[NR_CREDIT_ENTRIES];
      charged := (b: nat) => 0;
      new;
      Memset(0, NR_CREDIT_ENTRIES);
      forall k | 0 <= k < NR_CREDIT_ENTRIES ensures Credits()[k] == maxCredits {
        assert Credits()[k] == availCredits[Wrap(head + k, NR_CREDIT_ENTRIES)];
      }
      FreshIsGood(maxCredits, Credits(), charged);
    }

    // MEMSET(&avail_credits[from], max_credits, length)
    method Memset(from: nat, length: nat)
      requires from + length <= availCredits.Length
      modifies availCredits
      ensures forall i :: 0 <= i < availCredits.Length ==>
                availCredits[i] == if from <= i < from + length then maxCredits else old(availCredits[i])
    {
      for i := 0 to length
        invariant forall j :: 0 <= j < availCredits.Length ==>
                    availCredits[j] == if from <= j < from + i then maxCredits else old(availCredits[j])
      {
        availCredits[from + i] := maxCredits;
      }
    }

    // The entries the head is about to pass are filled up again.
    method Refill(offs: nat)
      requires head < availCredits.Length && offs <= availCredits.Length == NR_CREDIT_ENTRIES
      modifies availCredits
      ensures forall i :: 0 <= i < availCredits.Length ==>
                availCredits[i] ==
                if InWindow(i, head, offs, availCredits.Length) then maxCredits else old(availCredits[i])
    {
      if head + offs >= NR_CREDIT_ENTRIES {
        Memset(head, NR_CREDIT_ENTRIES - head);
        Memset(0, offs - (NR_CREDIT_ENTRIES - head));
      } else {
        Memset(head, offs);
      }
    }

    // The first part of chmodel_request: the head follows the clock.
    method MoveHead(now: nat)
      requires Valid() && curTime <= now
      modifies this`head, this`validLen, this`curTime, availCredits
      ensures Valid() && curTime == now && charged == old(charged)
      ensures var offs := HeadShift(old(curTime) / UNIT_TIME_INTERVAL, now / UNIT_TIME_INTERVAL, old(validLen));
        validLen == old(validLen) - offs && Credits() == Slid(old(Credits()), offs, maxCredits)
    {
      hide Good, HeadShift, Slid, Rotate;
      ghost var ring := availCredits[..];
      var from, to := curTime / UNIT_TIME_INTERVAL, now / UNIT_TIME_INTERVAL;
      GoodShape(maxCredits, from, validLen, Credits(), charged);
      SlideKeepsLimit(maxCredits, from, to, validLen, Credits(), charged);
      var offs := HeadShift(from, to, validLen);
      Refill(offs);
      RotateSlide(ring, availCredits[..], head, offs, maxCredits);
      WrapIsMod(head + offs, NR_CREDIT_ENTRIES);
      head := (head + offs) % NR_CREDIT_ENTRIES;
      curTime := now;
      validLen := validLen - offs;
      assert validLen <= NR_CREDIT_ENTRIES;
    }

    // The ring after the head has moved.
    ghost function SlidCredits(now: nat): (a: seq<nat>)
      requires Valid() && curTime <= now
      reads this, availCredits
      ensures |a| == NR_CREDIT_ENTRIES
      ensures
        a == Slid(Credits(), HeadShift(curTime / UNIT_TIME_INTERVAL, now / UNIT_TIME_INTERVAL, validLen), maxCredits)
    {
      Slid(Credits(), HeadShift(curTime / UNIT_TIME_INTERVAL, now / UNIT_TIME_INTERVAL, validLen), maxCredits)
    }

    // chmodel_request: when the transfer of `length` bytes asked for at requestTime is over.
    method Request(now: nat, requestTime: nat, length: nat) returns (done: nat)
      requires Valid() && curTime <= now
      modifies this, availCredits
      ensures Valid() && curTime == now
      ensures done >= requestTime
      ensures var slid := old(SlidCredits(now));
        if requestTime < now || RequestOffs(now, requestTime) >= NR_CREDIT_ENTRIES then
          done == requestTime && Credits() == slid && charged == old(charged)
        else
          var t := TakeFrom(slid, RequestOffs(now, requestTime), CreditsFor(length));
          && Credits() == t.a
          && charged == Recharged(old(charged), now / UNIT_TIME_INTERVAL, slid, t.a)
          && done == requestTime + TotalLatency(RequestOffs(now, requestTime), t.last, length)
      ensures now <= requestTime && requestTime / 4000 - now / 4000 < NR_CREDIT_ENTRIES ==>
        Served(old(SlidCredits(now)), requestTime / 4000 - now / 4000, length, xferLat, maxCredits, Credits(),
               done - requestTime)
      ensures requestTime < now || NR_CREDIT_ENTRIES <= requestTime / 4000 - now / 4000 < 0x1_0000_0000 ==>
        done == requestTime
    {
      hide Served, TakeFrom, Rotate, Slid, HeadShift, Good, Recharged;
      OffsIs(now, requestTime);
      if now <= requestTime && requestTime / 4000 - now / 4000 < NR_CREDIT_ENTRIES {
        ghost var slid := SlidCredits(now);
        IsServed(slid, requestTime / 4000 - now / 4000, length);
      }
      MoveHead(now);
      if requestTime < now {
        return requestTime;
      }
      var offs := RequestOffs(now, requestTime);
      if offs >= NR_CREDIT_ENTRIES {
        return requestTime;
      }
      var last := Consume(offs, CreditsFor(length));
      done := requestTime + TotalLatency(offs, last, length);
    }

    // request_time_offs, cut to 32 bits.
    function RequestOffs(now: nat, requestTime: nat): nat
      requires now <= requestTime
    {
      Trunc32(requestTime / UNIT_TIME_INTERVAL - now / UNIT_TIME_INTERVAL)
    }

    function Units(length: nat): nat {
      Trunc32((length + UNIT_XFER_SIZE - 1) / UNIT_XFER_SIZE)
    }

    function CreditsFor(length: nat): nat {
      Trunc32(Trunc32(Units(length) * UNIT_XFER_CREDITS) + commandCredits)
    }

    // The transfer itself plus the intervals waited beyond those it fills anyway.
    function TotalLatency(first: nat, last: nat, length: nat): nat
      requires first <= last && 1 <= maxCredits
    {
      var delay := last - first;
      var defaultDelay := CreditsFor(length) / maxCredits;
      Trunc32(xferLat * Units(length)) + (if delay > defaultDelay then delay - defaultDelay else 0) * UNIT_TIME_INTERVAL
    }

    lemma IsServed(a: seq<nat>, k: nat, length: nat)
      requires Valid() && k < |a|
      ensures var t := TakeFrom(a, k, CreditsFor(length));
        Served(a, k, length, xferLat, maxCredits, t.a, TotalLatency(k, t.last, length))
    {
      hide TakeFrom, Good, Rotate;
      var t := TakeFrom(a, k, CreditsFor(length));
      forall units: nat | Covers(units, length) && units < 0x1_0000_0000 && xferLat * units < 0x1_0000_0000
        ensures Units(length) == units && CreditsFor(length) == units && Trunc32(xferLat * units) == xferLat * units
      {
        UnitsCover(length, units);
      }
    }

    lemma OffsIs(now: nat, requestTime: nat)
      ensures now <= requestTime && requestTime / 4000 - now / 4000 < 0x1_0000_0000 ==>
        0 <= requestTime / 4000 - now / 4000 == RequestOffs(now, requestTime)
    {
    }

    lemma UnitsCover(length: nat, units: nat)
      requires Covers(units, length) && units < 0x1_0000_0000
      ensures Units(length) == units
    {
    }

    // The consuming loop, and valid_len after it.
    method Consume(offs: nat, credits: nat) returns (last: nat)
      requires Valid() && offs < NR_CREDIT_ENTRIES
      modifies this`validLen, this`charged, availCredits
      ensures Valid()
      ensures var t := TakeFrom(old(Credits()), offs, credits);
        && last == t.last && Credits() == t.a
        && charged == Recharged(old(charged), curTime / UNIT_TIME_INTERVAL, old(Credits()), t.a)
    {
      hide Good, TakeFrom, Rotate;
      ghost var a0 := Credits();
      GoodShape(maxCredits, curTime / UNIT_TIME_INTERVAL, validLen, a0, charged);
      ghost var t := TakeFrom(a0, offs, credits);
      ChargeKeepsLimit(maxCredits, curTime / UNIT_TIME_INTERVAL, validLen, a0, charged, offs, credits);
      var pos := TakeLoop(offs, credits);
      last := if pos >= head then pos - head else NR_CREDIT_ENTRIES - (head - pos);
      var validLength := if pos >= head then pos - head + 1 else NR_CREDIT_ENTRIES - (head - pos - 1);
      if validLength > validLen {
        validLen := validLength;
      }
      charged := Recharged(charged, curTime / UNIT_TIME_INTERVAL, a0, t.a);
    }

    // One turn of the loop: entry k gives what it can.
    method TakeStep(ghost k: nat, pos: nat, remaining: nat) returns (left: nat)
      requires availCredits.Length == NR_CREDIT_ENTRIES && head < NR_CREDIT_ENTRIES && k < NR_CREDIT_ENTRIES
      requires pos == Wrap(head + k, NR_CREDIT_ENTRIES)
      modifies availCredits
      ensures Credits()[k] == old(Credits()[k]) - (remaining - left)
      ensures left == if remaining <= old(Credits()[k]) then 0 else remaining - old(Credits()[k])
      ensures Credits() == old(Credits())[k := old(Credits()[k]) - (remaining - left)]
    {
      RotateUpdate(availCredits[..], head, k,
                   if remaining <= availCredits[pos] then availCredits[pos] - remaining else 0);
      ghost var ring := availCredits[..];
      var consumed := if remaining <= availCredits[pos] then remaining else availCredits[pos];
      availCredits[pos] := availCredits[pos] - consumed;
      left := remaining - consumed;
      assert availCredits[..] == ring[pos := ring[pos] - consumed];
    }

    method TakeLoop(offs: nat, credits: nat) returns (pos: nat)
      requires availCredits.Length == NR_CREDIT_ENTRIES && head < NR_CREDIT_ENTRIES && offs < NR_CREDIT_ENTRIES
      modifies availCredits
      ensures var t := TakeFrom(old(Credits()), offs, credits);
        Credits() == t.a && pos == Wrap(head + t.last, NR_CREDIT_ENTRIES)
    {
      hide Rotate, TakeFrom;
      ghost var t := TakeFrom(Credits(), offs, credits);
      ghost var k := offs;
      WrapIsMod(head + offs, NR_CREDIT_ENTRIES);
      pos := (head + offs) % NR_CREDIT_ENTRIES;
      var remaining := credits;
      while true
        invariant k < NR_CREDIT_ENTRIES && pos == Wrap(head + k, NR_CREDIT_ENTRIES)
        invariant TakeFrom(Credits(), k, remaining) == t
        decreases NR_CREDIT_ENTRIES - k
      {
        TakeUnfolds(Credits(), k, remaining);
        remaining := TakeStep(k, pos, remaining);
        if remaining == 0 {
          break;
        }
        WrapIsMod(pos + 1, NR_CREDIT_ENTRIES);
        var nextPos := (pos + 1) % NR_CREDIT_ENTRIES;
        if nextPos == head {
          break;
        }
        pos := nextPos;
        k := k + 1;
      }
    }
  }
}
