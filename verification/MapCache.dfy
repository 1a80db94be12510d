// The cache of mapping-table pages inside the enclave (sgx_ftl.cpp): a write-back LRU cache
// whose slots are kept on a free stack and carry the time at which their last flash operation
// ends.
module LruSpec {
  import opened Wrappers
  import opened Collections

  datatype Access = Access(page: nat, dirty: bool)

  // The cached pages, most recently used first, and those among them that differ from flash.
  datatype Lru = Lru(pages: seq<nat>, dirty: set<nat>)

  const EMPTY := Lru([], {})

  // The page that has to go when `page` is wanted.
  function Victim(c: Lru, cap: nat, page: nat): Option<nat> {
    if page in c.pages || |c.pages| < cap || c.pages == [] then None else Some(c.pages[|c.pages| - 1])
  }

  function Touch(c: Lru, cap: nat, a: Access): Lru {
    var d := if a.dirty then {a.page} else {};
    if a.page in c.pages then
      Lru([a.page] + Remove(c.pages, a.page), c.dirty + d)
    else
      match Victim(c, cap, a.page)
      case None => Lru([a.page] + c.pages, c.dirty + d)
      case Some(v) => Lru([a.page] + c.pages[..|c.pages| - 1], c.dirty - {v} + d)
  }

  function Run(h: seq<Access>, cap: nat): Lru {
    if h == [] then EMPTY else Touch(Run(h[..|h| - 1], cap), cap, h[|h| - 1])
  }

  // ----- The cache holds the most recently used pages -----

  // All pages ever used, by their last use.
  function Recency(h: seq<Access>): seq<nat> {
    if h == [] then []
    else var p := h[|h| - 1].page; [p] + Remove(Recency(h[..|h| - 1]), p)
  }

  function Take(s: seq<nat>, n: nat): seq<nat> {
    if s == [] || n == 0 then [] else [s[0]] + Take(s[1..], n - 1)
  }

  lemma {:induction false} TakeIsPrefix(s: seq<nat>, n: nat)
    ensures Take(s, n) == if |s| <= n then s else s[..n]
  {
    if s == [] || n == 0 {
    } else {
      TakeIsPrefix(s[1..], n - 1);
      assert s == [s[0]] + s[1..];
    }
  }

  lemma {:induction false} RecencyNoDup(h: seq<Access>)
    ensures NoDup(Recency(h))
    ensures forall p :: p in Recency(h) <==> exists i :: 0 <= i < |h| && h[i].page == p
  {
    if h == [] {
    } else {
      var g := h[..|h| - 1];
      RecencyNoDup(g);
      RemoveElems(Recency(g), h[|h| - 1].page);
      forall p ensures p in Recency(h) <==> exists i :: 0 <= i < |h| && h[i].page == p {
        if p in Recency(h) && p != h[|h| - 1].page {
          var i :| 0 <= i < |g| && g[i].page == p;
          assert h[i].page == p;
        }
        if i :| 0 <= i < |h| && h[i].page == p && i < |g| {
          assert g[i].page == p;
        }
      }
    }
  }

  // Since some use of page a, page b was not used.
  ghost predicate UsedLater(h: seq<Access>, a: nat, b: nat) {
    exists m: nat :: m < |h| && h[m].page == a && NotSince(h, m, b)
  }

  ghost predicate NotSince(h: seq<Access>, m: nat, b: nat) {
    forall n :: m <= n < |h| ==> h[n].page != b
  }

  // The order is that of the last uses.
  lemma {:induction false} RecencyOrder(h: seq<Access>, i: nat, j: nat)
    requires i < j < |Recency(h)|
    ensures UsedLater(h, Recency(h)[i], Recency(h)[j])
  {
    var g, p, r := h[..|h| - 1], h[|h| - 1].page, Recency(h);
    RecencyNoDup(h);
    RecencyNoDup(g);
    assert r[0] == p && r[j] != r[0];
    if i == 0 {
      assert NotSince(h, |h| - 1, r[j]);
    } else {
      var k, l := RemoveOrder(Recency(g), p, i - 1, j - 1);
      RecencyOrder(g, k, l);
      var m: nat :| m < |g| && g[m].page == r[i] && NotSince(g, m, r[j]);
      assert h[m].page == r[i];
      forall n | m <= n < |h| ensures h[n].page != r[j] {
        if n < |g| { assert g[n] == h[n]; }
      }
      assert NotSince(h, m, r[j]);
    }
  }

  // Taking a page out leaves the others in their order.
  lemma {:induction false} RemoveOrder(s: seq<nat>, p: nat, i: nat, j: nat) returns (k: nat, l: nat)
    requires i < j < |Remove(s, p)|
    ensures k < l < |s| && s[k] == Remove(s, p)[i] && s[l] == Remove(s, p)[j]
  {
    k, l := i, j;
    if s[0] == p {
      k, l := i + 1, j + 1;
    } else if i > 0 {
      k, l := RemoveOrder(s[1..], p, i - 1, j - 1);
      k, l := k + 1, l + 1;
    } else {
      l := RemoveAt(s[1..], p, j - 1);
      l := l + 1;
    }
  }

  lemma {:induction false} RemoveAt(s: seq<nat>, p: nat, j: nat) returns (l: nat)
    requires j < |Remove(s, p)|
    ensures l < |s| && s[l] == Remove(s, p)[j]
  {
    if s[0] == p {
      l := j + 1;
    } else if j == 0 {
      l := 0;
    } else {
      l := RemoveAt(s[1..], p, j - 1);
      l := l + 1;
    }
  }

  lemma Cons(x: nat, t: seq<nat>, p: nat, n: nat)
    ensures Take([x] + t, n + 1) == [x] + Take(t, n)
    ensures Remove([x] + t, p) == if x == p then t else [x] + Remove(t, p)
  {
    assert ([x] + t)[1..] == t;
  }

  // Removing a page from the first n, or one that is not among them.
  lemma {:induction false} RemoveTake(s: seq<nat>, p: nat, n: nat)
    requires NoDup(s) && 1 <= n
    ensures Take(Remove(s, p), n - 1) == if p in Take(s, n) then Remove(Take(s, n), p) else Take(s, n - 1)
  {
    hide Take, Remove;
    if s == [] {
      TakeNone(p, n);
    } else {
      var x, t := s[0], s[1..];
      assert s == [x] + t;
      TakeNone(p, n);
      RemoveTakeCons(x, t, p, n);
      if x != p && n >= 2 {
        RemoveTake(t, p, n - 1);
      }
    }
  }

  lemma TakeNone(p: nat, n: nat)
    ensures Take([], n) == [] && Remove<nat>([], p) == []
    ensures forall s: seq<nat> :: Take(s, 0) == []
  {
  }

  lemma RemoveTakeCons(x: nat, t: seq<nat>, p: nat, n: nat)
    requires 1 <= n
    ensures Take([x] + t, n) == [x] + Take(t, n - 1)
    ensures Remove(Take([x] + t, n), p) == if x == p then Take(t, n - 1) else [x] + Remove(Take(t, n - 1), p)
    ensures Take(Remove([x] + t, p), n - 1) ==
            if x == p then Take(t, n - 1) else if n == 1 then [] else [x] + Take(Remove(t, p), n - 2)
    ensures Take([x] + t, n - 1) == if n == 1 then [] else [x] + Take(t, n - 2)
  {
    Cons(x, t, p, n - 1);
    Cons(x, Take(t, n - 1), p, 0);
    if n >= 2 {
      Cons(x, t, p, n - 2);
      Cons(x, Remove(t, p), p, n - 2);
    }
  }

  // The LRU law: whatever the accesses were, the cache holds the cap pages used last, in the
  // order of their last use.
  lemma {:induction false} HoldsMostRecent(h: seq<Access>, cap: nat)
    requires 1 <= cap
    ensures Run(h, cap).pages == Take(Recency(h), cap)
  {
    if h == [] {
    } else {
      var g, a := h[..|h| - 1], h[|h| - 1];
      HoldsMostRecent(g, cap);
      RecencyNoDup(g);
      RemoveTake(Recency(g), a.page, cap);
      TouchTakes(Run(g, cap), Recency(g), cap, a);
    }
  }

  lemma TouchTakes(c: Lru, r: seq<nat>, cap: nat, a: Access)
    requires 1 <= cap && c.pages == Take(r, cap)
    ensures Touch(c, cap, a).pages ==
            [a.page] + if a.page in c.pages then Remove(c.pages, a.page) else Take(r, cap - 1)
  {
    TakeIsPrefix(r, cap);
    TakeIsPrefix(r, cap - 1);
  }

  // A larger cache holds everything a smaller one does.
  lemma LargerHoldsMore(h: seq<Access>, cap: nat, more: nat)
    requires 1 <= cap <= more
    ensures Run(h, cap).pages <= Run(h, more).pages
  {
    HoldsMostRecent(h, cap);
    HoldsMostRecent(h, more);
    TakeIsPrefix(Recency(h), cap);
    TakeIsPrefix(Recency(h), more);
  }

  // ----- No update is lost -----

  // The page the last access of h makes the cache write back.
  function WrittenBack(h: seq<Access>, cap: nat): Option<nat>
    requires h != []
  {
    var c := Run(h[..|h| - 1], cap);
    match Victim(c, cap, h[|h| - 1].page)
    case None => None
    case Some(v) => if v in c.dirty then Some(v) else None
  }

  // The page was changed after it was last written back, if it ever was.
  function Unsaved(h: seq<Access>, cap: nat, page: nat): bool {
    if h == [] then false
    else if h[|h| - 1] == Access(page, true) then true
    else if WrittenBack(h, cap) == Some(page) then false
    else Unsaved(h[..|h| - 1], cap, page)
  }

  lemma RunNoDup(h: seq<Access>, cap: nat)
    requires 1 <= cap
    ensures NoDup(Run(h, cap).pages)
  {
    HoldsMostRecent(h, cap);
    RecencyNoDup(h);
    TakeIsPrefix(Recency(h), cap);
  }

  lemma LastOnce(pages: seq<nat>)
    requires NoDup(pages) && pages != []
    ensures forall p :: p in pages[..|pages| - 1] <==> p in pages && p != pages[|pages| - 1]
  {
    var n := |pages| - 1;
    assert pages == pages[..n] + [pages[n]];
    forall p | p in pages[..n] ensures p != pages[n] {
    }
  }

  // One access makes a page dirty or, if it is the victim, clean, and keeps dirty pages cached.
  lemma TouchDirty(c: Lru, cap: nat, a: Access, page: nat)
    requires NoDup(c.pages) && (page in c.dirty ==> page in c.pages)
    ensures page in Touch(c, cap, a).dirty <==>
            a == Access(page, true) || (page in c.dirty && Victim(c, cap, a.page) != Some(page))
    ensures page in Touch(c, cap, a).dirty ==> page in Touch(c, cap, a).pages
  {
    hide NoDup, Remove;
    RemoveElems(c.pages, a.page);
    if c.pages != [] { LastOnce(c.pages); }
  }

  // A page is marked dirty exactly if flash does not have its last change, and such a page is
  // always in the cache.
  lemma {:induction false} DirtyIffUnsaved(h: seq<Access>, cap: nat, page: nat)
    requires 1 <= cap
    ensures page in Run(h, cap).dirty <==> Unsaved(h, cap, page)
    ensures page in Run(h, cap).dirty ==> page in Run(h, cap).pages
  {
    hide Touch, NoDup;
    if h == [] {
    } else {
      var g, a := h[..|h| - 1], h[|h| - 1];
      DirtyIffUnsaved(g, cap, page);
      RunNoDup(g, cap);
      TouchDirty(Run(g, cap), cap, a, page);
    }
  }
}

module MapCache {
  import opened Wrappers
  import opened Collections
  import opened LruSpec

  // A flash operation of the cache on one of its slots.
  datatype FlashOp = FlashOp(page: nat, slot: nat, isWrite: bool, start: nat, end: nat)

  // Operations on one slot follow each other in time and are over when the slot is available.
  ghost predicate InTurn(log: seq<FlashOp>, avail: seq<nat>) {
    && (forall i :: 0 <= i < |log| ==> log[i].slot < |avail| && log[i].start <= log[i].end <= avail[log[i].slot])
    && (forall i, j :: 0 <= i < j < |log| && log[i].slot == log[j].slot ==> log[i].end <= log[j].start)
  }

  lemma InTurnAppend(log: seq<FlashOp>, avail: seq<nat>, op: FlashOp)
    requires InTurn(log, avail) && op.slot < |avail| && avail[op.slot] <= op.start <= op.end
    ensures InTurn(log + [op], avail[op.slot := op.end])
  {
  }

  lemma InTurnLater(log: seq<FlashOp>, avail: seq<nat>, slot: nat, t: nat)
    requires InTurn(log, avail) && slot < |avail| && avail[slot] <= t
    ensures InTurn(log, avail[slot := t])
  {
  }

  function Later(a: nat, b: nat): (t: nat)
    ensures a <= t && b <= t && (t == a || t == b)
  {
    if a < b then b else a
  }

  // What one operation on a slot does, if it is run at all: it starts when both the request and
  // the slot are ready.
  datatype Plan = Plan(ops: seq<FlashOp>, avail: seq<nat>, end: nat)

  function Operate(avail: seq<nat>, page: nat, slot: nat, isWrite: bool, run: bool, t: nat, lat: nat): Plan
    requires slot < |avail|
  {
    var start := if t < avail[slot] then avail[slot] else t;
    var end := if run then start + lat else start;
    Plan(if run then [FlashOp(page, slot, isWrite, start, end)] else [], avail[slot := end], end)
  }

  // Bringing a page in: the page that has to go is written back if need be, then the new one is
  // read into the same slot.
  function Bring(avail: seq<nat>, page: nat, slot: nat, victim: Option<nat>, save: bool, warmup: bool, t: nat,
                 writeLat: nat, readLat: nat): Plan
    requires slot < |avail|
  {
    var w := if victim.None? then Plan([], avail, t)
             else Operate(avail, victim.value, slot, true, save && !warmup, t, writeLat);
    var r := Operate(w.avail, page, slot, false, !warmup, w.end, readLat);
    Plan(w.ops + r.ops, r.avail, r.end)
  }

  // A dirty page that goes is written back exactly once, and that is over before the slot is
  // filled again; no slot ever becomes available earlier than it was.
  lemma BringInTurn(log: seq<FlashOp>, avail: seq<nat>, page: nat, slot: nat, victim: Option<nat>, save: bool,
                    warmup: bool, t: nat, writeLat: nat, readLat: nat)
    requires InTurn(log, avail) && slot < |avail|
    ensures var b := Bring(avail, page, slot, victim, save, warmup, t, writeLat, readLat);
      && InTurn(log + b.ops, b.avail) && t <= b.end == b.avail[slot]
      && |b.avail| == |avail| && (forall i :: 0 <= i < |avail| ==> avail[i] <= b.avail[i])
      && (forall i :: 0 <= i < |b.ops| ==> b.ops[i].slot == slot && t <= b.ops[i].start)
      && |b.ops| == (if warmup then 0 else if victim.Some? && save then 2 else 1)
      && (|b.ops| == 2 ==> b.ops[0].isWrite && b.ops[0].page == victim.value && b.ops[0].end <= b.ops[1].start)
      && (!warmup ==> !b.ops[|b.ops| - 1].isWrite && b.ops[|b.ops| - 1].page == page)
  {
    hide InTurn, Operate;
    var w := if victim.None? then Plan([], avail, t)
             else Operate(avail, victim.value, slot, true, save && !warmup, t, writeLat);
    OperateInTurn(log, avail, if victim.Some? then victim.value else 0, slot, true, save && !warmup, t, writeLat);
    assert victim.None? ==> log + w.ops == log;
    var r := Operate(w.avail, page, slot, false, !warmup, w.end, readLat);
    OperateInTurn(log + w.ops, w.avail, page, slot, false, !warmup, w.end, readLat);
    assert log + w.ops + r.ops == log + (w.ops + r.ops);
  }

  // One operation: from when both the request and the slot are ready, for as long as flash takes.
  lemma OperateTakes(avail: seq<nat>, page: nat, slot: nat, isWrite: bool, run: bool, t: nat, lat: nat)
    requires slot < |avail|
    ensures var o := Operate(avail, page, slot, isWrite, run, t, lat);
      var start := Later(t, avail[slot]);
      && o.end == start + (if run then lat else 0) && o.avail == avail[slot := o.end]
      && o.ops == if run then [FlashOp(page, slot, isWrite, start, o.end)] else []
  {
  }

  // How long it all takes: the request waits for the slot, then for the write-back if there is one,
  // then for the read; while warming up only for the slot.
  lemma BringTakes(avail: seq<nat>, page: nat, slot: nat, victim: Option<nat>, save: bool, warmup: bool, t: nat,
                   writeLat: nat, readLat: nat)
    requires slot < |avail|
    ensures var b := Bring(avail, page, slot, victim, save, warmup, t, writeLat, readLat);
      var start := Later(t, avail[slot]);
      && b.avail == avail[slot := b.end]
      && (warmup ==> b.end == start && b.ops == [])
      && (!warmup && victim.Some? && save ==>
            && b.end == start + writeLat + readLat
            && b.ops == [FlashOp(victim.value, slot, true, start, start + writeLat),
                         FlashOp(page, slot, false, start + writeLat, b.end)])
      && (!warmup && !(victim.Some? && save) ==>
            b.end == start + readLat && b.ops == [FlashOp(page, slot, false, start, b.end)])
  {
  }

  lemma OperateInTurn(log: seq<FlashOp>, avail: seq<nat>, page: nat, slot: nat, isWrite: bool, run: bool, t: nat,
                      lat: nat)
    requires InTurn(log, avail) && slot < |avail|
    ensures var o := Operate(avail, page, slot, isWrite, run, t, lat);
      && InTurn(log + o.ops, o.avail) && t <= o.end == o.avail[slot]
      && |o.avail| == |avail| && (forall i :: 0 <= i < |avail| ==> avail[i] <= o.avail[i])
      && |o.ops| == (if run then 1 else 0)
      && (run ==> o.ops[0].page == page && o.ops[0].slot == slot && o.ops[0].isWrite == isWrite
                  && t <= o.ops[0].start && o.ops[0].end == o.end && avail[slot] <= o.ops[0].start)
  {
    var o := Operate(avail, page, slot, isWrite, run, t, lat);
    if run {
      InTurnAppend(log, avail, o.ops[0]);
    } else {
      InTurnLater(log, avail, slot, o.end);
      assert log + o.ops == log;
    }
  }

  // Cached pages and the free stack share out the slots.
  ghost predicate Slots(list: seq<nat>, cache: map<nat, nat>, free: seq<nat>, n: nat) {
    && NoDup(list) && (forall p :: p in cache <==> p in list)
    && (forall p :: p in cache ==> cache[p] < n && cache[p] !in free)
    && (forall p, q :: p in cache && q in cache && cache[p] == cache[q] ==> p == q)
    && NoDup(free) && (forall x :: x in free ==> x < n)
    && |list| + |free| == n
  }

  ghost function Used(list: seq<nat>, cache: map<nat, nat>): (r: seq<nat>)
    requires forall i :: 0 <= i < |list| ==> list[i] in cache
    ensures |r| == |list| && forall i :: 0 <= i < |list| ==> r[i] == cache[list[i]]
  {
    seq(|list|, i requires 0 <= i < |list| => cache[list[i]])
  }

  lemma AllSlots(list: seq<nat>, cache: map<nat, nat>, free: seq<nat>, n: nat)
    requires Slots(list, cache, free, n)
    ensures NoDup(Used(list, cache) + free) && Elems(Used(list, cache) + free) <= Below(n)
  {
    var all := Used(list, cache) + free;
    forall i | 0 <= i < |all| ensures all[i] < n && (i >= |list| ==> all[i] in free) {
      if i < |list| { assert list[i] in cache; } else { assert all[i] == free[i - |list|] && all[i] in free; }
    }
    forall i, j | 0 <= i < j < |all| ensures all[i] != all[j] {
      if i < |list| { assert list[i] in cache; }
      if j < |list| { assert list[j] in cache; }
    }
  }

  // So every slot is in exactly one place.
  lemma SlotsPartition(list: seq<nat>, cache: map<nat, nat>, free: seq<nat>, n: nat, slot: nat)
    requires Slots(list, cache, free, n) && slot < n
    ensures slot in free <==> !exists p :: p in cache && cache[p] == slot
  {
    AllSlots(list, cache, free, n);
    var used := Used(list, cache);
    NoDupSize(used + free);
    SubsetEqual(Elems(used + free), Below(n));
    assert slot in Elems(used + free);
    if slot !in free {
      var i :| 0 <= i < |used| && used[i] == slot;
      assert list[i] in cache && cache[list[i]] == slot;
    }
  }

  // Using a cached page only reorders the list.
  lemma SlotsMoved(list: seq<nat>, cache: map<nat, nat>, free: seq<nat>, n: nat, page: nat)
    requires Slots(list, cache, free, n) && page in cache
    ensures Slots([page] + Remove(list, page), cache, free, n)
  {
    RemoveElems(list, page);
  }

  lemma SlotsPopped(list: seq<nat>, cache: map<nat, nat>, free: seq<nat>, n: nat)
    requires Slots(list, cache, free, n) && list != []
    ensures list[|list| - 1] in cache
    ensures var v := list[|list| - 1]; Slots(list[..|list| - 1], cache - {v}, free + [cache[v]], n)
  {
    var v, rest := list[|list| - 1], list[..|list| - 1];
    assert list == rest + [v];
    assert v in list;
  }

  lemma SlotsPut(list: seq<nat>, cache: map<nat, nat>, free: seq<nat>, n: nat, page: nat)
    requires Slots(list, cache, free, n) && free != [] && page !in cache
    ensures var slot := free[|free| - 1]; Slots([page] + list, cache[page := slot], free[..|free| - 1], n)
  {
    var slot, rest := free[|free| - 1], free[..|free| - 1];
    assert free == rest + [slot];
    assert slot in free && forall x :: x in rest ==> x in free;
  }

  // The cached pages whose slot is marked.
  ghost function DirtyPages(cache: map<nat, nat>, dirty: seq<bool>): set<nat>
    requires forall p :: p in cache ==> cache[p] < |dirty|
  {
    set p | p in cache && dirty[cache[p]]
  }

  lemma SlotsFacts(list: seq<nat>, cache: map<nat, nat>, free: seq<nat>, n: nat)
    requires Slots(list, cache, free, n)
    ensures forall p :: p in cache ==> cache[p] < n
    ensures forall p :: p in cache <==> p in list
    ensures |list| + |free| == n && (forall x :: x in free ==> x < n)
  {
  }

  lemma DirtyHit(list: seq<nat>, cache: map<nat, nat>, free: seq<nat>, dirty: seq<bool>, page: nat, d: bool)
    requires Slots(list, cache, free, |dirty|) && page in cache
    ensures DirtyPages(cache, dirty[cache[page] := dirty[cache[page]] || d]) ==
            DirtyPages(cache, dirty) + if d then {page} else {}
  {
  }

  lemma DirtyPopped(list: seq<nat>, cache: map<nat, nat>, free: seq<nat>, dirty: seq<bool>, v: nat)
    requires Slots(list, cache, free, |dirty|) && v in cache
    ensures DirtyPages(cache - {v}, dirty[cache[v] := false]) == DirtyPages(cache, dirty) - {v}
    ensures v in DirtyPages(cache, dirty) <==> dirty[cache[v]]
  {
  }

  lemma DirtyPut(list: seq<nat>, cache: map<nat, nat>, free: seq<nat>, dirty: seq<bool>, page: nat, slot: nat, d: bool)
    requires Slots(list, cache, free, |dirty|) && page !in cache && slot in free
    ensures (var after := cache[page := slot]; forall p :: p in after ==> after[p] < |dirty|)
    ensures DirtyPages(cache[page := slot], dirty[slot := d]) == DirtyPages(cache, dirty) + if d then {page} else {}
  {
  }

  lemma RunNext(h: seq<Access>, cap: nat, a: Access)
    ensures Run(h + [a], cap) == Touch(Run(h, cap), cap, a)
  {
    assert (h + [a])[..|h|] == h;
  }

  class SgxCache {
    var sgxList: seq<nat>            // SGXlist, most recently used page first
    var sgxCache: map<nat, nat>      // SGXcache: the slot of each cached page
    const dirty: array<bool>
    const availTime: array<nat>
    const freeId: array<nat>         // the free stack lies in freeId[1 .. freeCnt]
    var freeCnt: nat
    ghost var log: seq<FlashOp>
    ghost var history: seq<Access>   // every access so far

    ghost function Free(): seq<nat>
      requires freeCnt < freeId.Length
      reads this, freeId
    {
      freeId[1..freeCnt + 1]
    }

    ghost predicate Consistent()
      reads this, dirty, availTime, freeId
    {
      && 1 <= dirty.Length == availTime.Length && freeId.Length == dirty.Length + 1 && freeCnt < freeId.Length
      && Slots(sgxList, sgxCache, Free(), dirty.Length)
      && InTurn(log, availTime[..])
    }

    // Between two accesses the cache is what the specification makes of all of them.
    ghost predicate Valid()
      reads this, dirty, availTime, freeId
    {
      Consistent() && Contents() == Run(history, dirty.Length)
    }

    // What the cache is, seen from outside.
    ghost function Contents(): Lru
      requires Consistent()
      reads this, dirty, availTime, freeId
    {
      Lru(sgxList, DirtyPages(sgxCache, dirty[..]))
    }

    constructor (slots: nat, ids: seq<nat>)
      requires 1 <= slots == |ids| && NoDup(ids) && forall x :: x in ids ==> x < slots
      ensures Valid() && Contents() == EMPTY && dirty.Length == slots && log == [] && history == []
      ensures fresh(dirty) && fresh(availTime) && fresh(freeId)
    {
      sgxList, sgxCache, log, history := [], map[], [], [];
      dirty := new bool[slots](_ => false);
      availTime := new nat[slots](_ => 0);
      freeId := new nat[slots + 1](i requires 0 <= i <= slots => if i == 0 then 0 else ids[i - 1]);
      freeCnt := slots;
      new;
      assert Free() == ids;
    }

    // The slot of the page used longest ago, and whether it is marked dirty.
    ghost function Oldest(): Option<(nat, bool)>
      reads this, dirty
    {
      if sgxList != [] && sgxList[|sgxList| - 1] in sgxCache && sgxCache[sgxList[|sgxList| - 1]] < dirty.Length then
        var slot := sgxCache[sgxList[|sgxList| - 1]];
        Some((slot, dirty[slot]))
      else None
    }

    // hit_in_SGX_FTL_cache
    method Hit(page: nat, endTime: nat, isDirty: bool) returns (hit: bool, end: nat)
      requires Consistent()
      modifies this`sgxList, dirty
      ensures Consistent() && (hit <==> page in old(sgxList))
      ensures hit ==> Contents() == Touch(old(Contents()), dirty.Length, Access(page, isDirty))
      ensures hit ==> page in sgxCache && sgxCache[page] < availTime.Length
      ensures hit ==> end == Later(endTime, availTime[sgxCache[page]])
      ensures !hit ==> Contents() == old(Contents()) && end == endTime && Oldest() == old(Oldest())
    {
      hide Slots, InTurn, DirtyPages;
      SlotsFacts(sgxList, sgxCache, Free(), dirty.Length);
      hit, end := page in sgxCache, endTime;
      if hit {
        DirtyHit(sgxList, sgxCache, Free(), dirty[..], page, isDirty);
        ghost var marks := dirty[..];
        SlotsMoved(sgxList, sgxCache, Free(), dirty.Length, page);
        sgxList := [page] + Remove(sgxList, page);
        var slot := sgxCache[page];
        dirty[slot] := dirty[slot] || isDirty;
        assert dirty[..] == marks[slot := marks[slot] || isDirty];
        if end < availTime[slot] {
          end := availTime[slot];
        }
      }
    }

    // The flash operation of a slot, as both pop_SGX_FTL_cache and put_SGX_FTL_cache wait for it.
    method Flash(page: nat, slot: nat, isWrite: bool, run: bool, endTime: nat, lat: nat) returns (end: nat)
      requires slot < availTime.Length && InTurn(log, availTime[..])
      modifies this`log, availTime
      ensures var o := Operate(old(availTime[..]), page, slot, isWrite, run, endTime, lat);
        && end == o.end && availTime[..] == o.avail && log == old(log) + o.ops && InTurn(log, availTime[..])
    {
      ghost var avail := availTime[..];
      OperateInTurn(log, avail, page, slot, isWrite, run, endTime, lat);
      end := endTime;
      if end < availTime[slot] {
        end := availTime[slot];
      }
      ghost var start := end;
      if run {
        end := end + lat;
        log := log + [FlashOp(page, slot, isWrite, start, end)];
      }
      availTime[slot] := end;
      assert availTime[..] == avail[slot := end];
    }

    // The victim leaves the list and the map, its slot goes on the free stack.
    method Unlink(victim: nat, slot: nat)
      requires sgxList != [] && freeCnt + 1 < freeId.Length
      modifies this`sgxList, this`sgxCache, this`freeCnt, freeId
      ensures sgxList == old(sgxList[..|sgxList| - 1]) && sgxCache == old(sgxCache) - {victim}
      ensures freeCnt == old(freeCnt) + 1 && Free() == old(Free()) + [slot]
    {
      sgxList := sgxList[..|sgxList| - 1];
      sgxCache := sgxCache - {victim};
      freeCnt := freeCnt + 1;
      freeId[freeCnt] := slot;
    }

    // pop_SGX_FTL_cache: the page used longest ago leaves its slot, and flash gets it if it was
    // changed.  writeLat is how long that takes.
    method Pop(endTime: nat, warmup: bool, writeLat: nat) returns (end: nat)
      requires Consistent() && sgxList != []
      modifies this`sgxList, this`sgxCache, this`freeCnt, this`log, dirty, availTime, freeId
      ensures Consistent() && freeCnt == old(freeCnt) + 1
      ensures old(sgxList[|sgxList| - 1]) in old(sgxCache)
      ensures var v := old(sgxList[|sgxList| - 1]); var slot := old(sgxCache[v]);
        && Contents() == Lru(old(sgxList[..|sgxList| - 1]), old(Contents()).dirty - {v})
        && sgxCache == old(sgxCache) - {v} && freeId[freeCnt] == slot < |old(availTime[..])|
        && var o := Operate(old(availTime[..]), v, slot, true, v in old(Contents()).dirty && !warmup, endTime,
                            writeLat);
           end == o.end && availTime[..] == o.avail && log == old(log) + o.ops
      ensures old(Oldest()).Some? && old(Oldest()).value.0 == freeId[freeCnt]
      ensures availTime[..] == old(availTime[..])[freeId[freeCnt] := end]
      ensures end == Later(endTime, old(availTime[..])[freeId[freeCnt]]) +
        if old(Oldest()).value.1 && !warmup then writeLat else 0
    {
      hide Slots, InTurn, DirtyPages, Operate;
      SlotsPopped(sgxList, sgxCache, Free(), dirty.Length);
      SlotsFacts(sgxList, sgxCache, Free(), dirty.Length);
      var victim := sgxList[|sgxList| - 1];
      var slot := sgxCache[victim];
      DirtyPopped(sgxList, sgxCache, Free(), dirty[..], victim);
      OperateTakes(availTime[..], victim, slot, true, dirty[slot] && !warmup, endTime, writeLat);
      ghost var marks := dirty[..];
      Unlink(victim, slot);
      end := Flash(victim, slot, true, dirty[slot] && !warmup, endTime, writeLat);
      dirty[slot] := false;
      assert dirty[..] == marks[slot := false];
    }

    // put_SGX_FTL_cache
    method Put(page: nat, endTime: nat, isDirty: bool, warmup: bool, writeLat: nat, readLat: nat) returns (end: nat)
      requires Consistent() && page !in sgxList
      modifies this`sgxList, this`sgxCache, this`freeCnt, this`log, dirty, availTime, freeId
      ensures Consistent() && Contents() == Touch(old(Contents()), dirty.Length, Access(page, isDirty))
      ensures page in sgxCache && sgxCache[page] < |old(availTime[..])| == availTime.Length
      ensures var victim := Victim(old(Contents()), dirty.Length, page);
        && (victim.Some? ==> victim.value in old(sgxCache) && old(sgxCache)[victim.value] == sgxCache[page])
        && var b := Bring(old(availTime[..]), page, sgxCache[page], victim,
                          victim.Some? && victim.value in old(Contents()).dirty, warmup, endTime, writeLat, readLat);
           end == b.end && availTime[..] == b.avail && log == old(log) + b.ops
      ensures if old(freeCnt) > 0 then sgxCache[page] == old(freeId[freeCnt])
              else old(Oldest()).Some? && sgxCache[page] == old(Oldest()).value.0
      ensures availTime[..] == old(availTime[..])[sgxCache[page] := end]
      ensures end == Later(endTime, old(availTime[..])[sgxCache[page]]) +
        if warmup then 0
        else if old(freeCnt) == 0 && old(Oldest()) == Some((sgxCache[page], true)) then writeLat + readLat
        else readLat
    {
      hide Slots, InTurn, DirtyPages, Operate;
      end := endTime;
      SlotsFacts(sgxList, sgxCache, Free(), dirty.Length);
      if freeCnt == 0 {
        end := Pop(end, warmup, writeLat);
      }
      end := Fill(page, end, isDirty, warmup, readLat);
    }

    // The second half: the page takes the slot on top of the free stack.
    method Fill(page: nat, endTime: nat, isDirty: bool, warmup: bool, readLat: nat) returns (end: nat)
      requires Consistent() && page !in sgxList && freeCnt > 0
      modifies this`sgxList, this`sgxCache, this`freeCnt, this`log, dirty, availTime
      ensures Consistent() && sgxList == [page] + old(sgxList)
      ensures Contents().dirty == old(Contents()).dirty + if isDirty then {page} else {}
      ensures freeId[old(freeCnt)] < |old(availTime[..])| && sgxCache == old(sgxCache)[page := freeId[old(freeCnt)]]
      ensures var o := Operate(old(availTime[..]), page, sgxCache[page], false, !warmup, endTime, readLat);
        end == o.end && availTime[..] == o.avail && log == old(log) + o.ops
      ensures availTime[..] == old(availTime[..])[sgxCache[page] := end]
      ensures end == Later(endTime, old(availTime[..])[sgxCache[page]]) + if warmup then 0 else readLat
    {
      hide Slots, InTurn, DirtyPages, Operate;
      SlotsFacts(sgxList, sgxCache, Free(), dirty.Length);
      SlotsPut(sgxList, sgxCache, Free(), dirty.Length, page);
      var slot := freeId[freeCnt];
      assert Free()[|Free()| - 1] == slot;
      assert slot in Free();
      OperateTakes(availTime[..], page, slot, false, !warmup, endTime, readLat);
      DirtyPut(sgxList, sgxCache, Free(), dirty[..], page, slot, isDirty);
      ghost var marks, free := dirty[..], Free();
      freeCnt := freeCnt - 1;
      assert Free() == free[..|free| - 1];
      sgxList := [page] + sgxList;
      sgxCache := sgxCache[page := slot];
      dirty[slot] := isDirty;
      assert dirty[..] == marks[slot := isDirty];
      end := Flash(page, slot, false, !warmup, endTime, readLat);
    }

    // get_FTL_page: the latency of looking up a logical page; writeLat and readLat are what the
    // flash takes if it is needed.  A hit waits for the slot, a miss for the slot it gets, for the
    // write-back if the page there is dirty, and for the read.
    method GetFtlPage(lpn: nat, startTime: nat, isDirty: bool, warmup: bool, writeLat: nat, readLat: nat)
      returns (lat: nat)
      requires Valid()
      modifies this, dirty, availTime, freeId
      ensures Valid() && history == old(history) + [Access(lpn / 1024, isDirty)]
      ensures Contents() == Touch(old(Contents()), dirty.Length, Access(lpn / 1024, isDirty))
      ensures lpn / 1024 in sgxCache && sgxCache[lpn / 1024] < availTime.Length
      ensures forall i :: 0 <= i < availTime.Length ==> old(availTime[i]) <= availTime[i]
      ensures lpn / 1024 in old(sgxList) ==> log == old(log) && availTime[..] == old(availTime[..])
      ensures lpn / 1024 in old(sgxList) ==> lat == Later(startTime, availTime[sgxCache[lpn / 1024]]) - startTime
      ensures lpn / 1024 !in old(sgxList) ==>
        var victim := Victim(old(Contents()), dirty.Length, lpn / 1024);
        var b := Bring(old(availTime[..]), lpn / 1024, sgxCache[lpn / 1024], victim,
                       victim.Some? && victim.value in old(Contents()).dirty, warmup, startTime, writeLat, readLat);
        log == old(log) + b.ops && availTime[..] == b.avail && lat == b.end - startTime
      ensures lpn / 1024 !in old(sgxList) ==>
        && availTime[..] == old(availTime[..])[sgxCache[lpn / 1024] := startTime + lat]
        && startTime + lat == Later(startTime, old(availTime[..])[sgxCache[lpn / 1024]]) +
           if warmup then 0
           else if old(freeCnt) == 0 && old(Oldest()) == Some((sgxCache[lpn / 1024], true)) then writeLat + readLat
           else readLat
    {
      hide Slots, InTurn, DirtyPages, Operate, Bring, Touch, Run, Victim;
      ghost var was, avail := log, availTime[..];
      var page := lpn / 1024;
      var hit, end := Hit(page, startTime, isDirty);
      if !hit {
        ghost var victim := Victim(Contents(), dirty.Length, page);
        ghost var save := victim.Some? && victim.value in Contents().dirty;
        end := Put(page, end, isDirty, warmup, writeLat, readLat);
        BringInTurn(was, avail, page, sgxCache[page], victim, save, warmup, startTime, writeLat, readLat);
      }
      lat := end - startTime;
      RunNext(history, dirty.Length, Access(page, isDirty));
      history := history + [Access(page, isDirty)];
    }

    // The LRU law, of the class: the list holds the pages used last, by their last use.
    lemma ListIsMostRecent()
      requires Valid()
      ensures sgxList == Take(Recency(history), dirty.Length)
    {
      HoldsMostRecent(history, dirty.Length);
    }

    // A cached page is marked exactly if flash does not have its last change, and a page whose
    // last change flash does not have is cached.
    lemma MarkedIffUnsaved(page: nat)
      requires Valid()
      ensures page in sgxCache ==> sgxCache[page] < dirty.Length
      ensures Unsaved(history, dirty.Length, page) <==> page in sgxCache && dirty[sgxCache[page]]
    {
      DirtyIffUnsaved(history, dirty.Length, page);
      assert page in DirtyPages(sgxCache, dirty[..]) <==> page in sgxCache && dirty[sgxCache[page]];
    }
  }
}
