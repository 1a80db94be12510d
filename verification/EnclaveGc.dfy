// Garbage collection of the enclave FTL (sgx_ftl.cpp) at the level of lines: which lines are
// free, full or victims, how many valid and invalid pages they hold, and which line holds each
// logical page.  There is one write pointer, for the host's pages and for copied ones alike.
module LineCounts {
  import opened Collections
  import opened MixedRadix

  // The logical pages a line holds.
  ghost function PagesOn(at: map<nat, nat>, l: nat): set<nat> {
    set p | p in at && at[p] == l
  }

  lemma PagesSet(at: map<nat, nat>, p: nat, to: nat, l: nat)
    requires p !in at
    ensures PagesOn(at[p := to], l) == if l == to then PagesOn(at, l) + {p} else PagesOn(at, l)
    ensures |PagesOn(at[p := to], l)| == |PagesOn(at, l)| + if l == to then 1 else 0
  {
    var after := at[p := to];
    assert PagesOn(after, l) == if l == to then PagesOn(at, l) + {p} else PagesOn(at, l);
  }

  // Moving a page away from a line that is not looked at.
  lemma PagesMove(at: map<nat, nat>, p: nat, to: nat, l: nat)
    requires p in at && at[p] != l
    ensures PagesOn(at[p := to], l) == if l == to then PagesOn(at, l) + {p} else PagesOn(at, l)
    ensures |PagesOn(at[p := to], l)| == |PagesOn(at, l)| + if l == to then 1 else 0
  {
    var after := at[p := to];
    assert PagesOn(after, l) == if l == to then PagesOn(at, l) + {p} else PagesOn(at, l);
  }

  lemma PagesDrop(at: map<nat, nat>, p: nat, l: nat)
    requires p in at
    ensures PagesOn(at - {p}, l) == PagesOn(at, l) - {p}
    ensures |PagesOn(at - {p}, l)| == |PagesOn(at, l)| - if l == at[p] then 1 else 0
  {
    assert p in PagesOn(at, l) <==> l == at[p];
  }

  ghost function PagesOnAll(at: map<nat, nat>, lines: seq<nat>): set<nat> {
    set p | p in at && at[p] in lines
  }

  lemma PagesOnCons(at: map<nat, nat>, l: nat, rest: seq<nat>)
    requires l !in rest
    ensures |PagesOnAll(at, [l] + rest)| == |PagesOnAll(at, rest)| + |PagesOn(at, l)|
  {
    assert PagesOnAll(at, [l] + rest) == PagesOnAll(at, rest) + PagesOn(at, l);
    assert PagesOnAll(at, rest) !! PagesOn(at, l);
  }

  // Lines that hold n pages each hold n times their number together.
  lemma {:induction false} HoldTogether(at: map<nat, nat>, lines: seq<nat>, n: nat)
    requires NoDup(lines) && forall l :: l in lines ==> |PagesOn(at, l)| == n
    ensures |PagesOnAll(at, lines)| == |lines| * n
  {
    if lines == [] {
      assert PagesOnAll(at, lines) == {};
    } else {
      var rest := lines[1..];
      assert lines == [lines[0]] + rest;
      assert lines[0] !in rest;
      HoldTogether(at, rest, n);
      PagesOnCons(at, lines[0], rest);
      MulNext(|rest|, n);
    }
  }

  lemma MulNext(a: nat, n: nat)
    ensures (a + 1) * n == a * n + n
  {
  }

  // Where the lines are: held is the line being collected, if there is one.
  ghost predicate Shared(free: seq<nat>, full: seq<nat>, victims: seq<nat>, cur: nat, held: set<nat>, lines: nat) {
    && NoDup(free) && NoDup(full) && NoDup(victims) && cur < lines
    && (forall l :: l in free ==> l < lines && l !in full && l !in victims && l !in held && l != cur)
    && (forall l :: l in full ==> l < lines && l !in victims && l !in held && l != cur)
    && (forall l :: l in victims ==> l < lines && l !in held && l != cur)
    && (forall l :: l in held ==> l < lines && l != cur)
    && |free| + |full| + |victims| + 1 + |held| == lines
  }

  // Full iff all pages are valid; a victim has an invalid page; the current line is partly used.
  ghost predicate Filled(free: seq<nat>, full: seq<nat>, victims: seq<nat>, cur: nat, used: nat, vpc: seq<nat>,
                         ipc: seq<nat>, pages: nat)
  {
    && used < pages
    && (forall l :: l in free ==> l < |vpc| && l < |ipc| && vpc[l] == 0 && ipc[l] == 0)
    && (forall l :: l in full ==> l < |vpc| && l < |ipc| && vpc[l] == pages && ipc[l] == 0)
    && (forall l :: l in victims ==> l < |vpc| && l < |ipc| && vpc[l] + ipc[l] == pages && ipc[l] > 0)
    && cur < |vpc| && cur < |ipc| && vpc[cur] + ipc[cur] == used
  }

  ghost predicate Counted(at: map<nat, nat>, vpc: seq<nat>, held: set<nat>) {
    && (forall p :: p in at ==> at[p] < |vpc|)
    && (forall l: nat :: l < |vpc| && l !in held ==> vpc[l] == |PagesOn(at, l)|)
  }

  // The pages that can still be written before a line has to be freed.
  function Room(freeCnt: nat, used: nat, pages: nat): int {
    freeCnt * pages + pages - used
  }

  lemma RoomBounds(freeCnt: nat, used: nat, pages: nat)
    requires used < pages
    ensures Room(freeCnt, used, pages) == 1 <==> freeCnt == 0 && used + 1 == pages
    ensures Room(freeCnt, used, pages) >= 1
  {
    MulLe(1, freeCnt, pages);
  }

  lemma RoomMeansLines(n: nat, freeCnt: nat, used: nat, pages: nat)
    requires used < pages && Room(freeCnt, used, pages) > n * pages
    ensures freeCnt >= n
  {
    MulLe(freeCnt + 1, n, pages);
    MulNext(freeCnt, pages);
  }

  lemma RoomAtMost(freeCnt: nat, used: nat, pages: nat, lines: nat)
    requires freeCnt + 1 <= lines
    ensures Room(freeCnt, used, pages) <= lines * pages
  {
    MulLe(freeCnt + 1, lines, pages);
    MulNext(freeCnt, pages);
  }

  lemma LinesMeanRoom(n: nat, freeCnt: nat, used: nat, pages: nat)
    requires used < pages && freeCnt >= n
    ensures Room(freeCnt, used, pages) > n * pages
  {
    MulLe(n, freeCnt, pages);
  }

  // Without a victim all lines but the free ones and the current one are full of valid pages.
  lemma NoVictim(free: seq<nat>, full: seq<nat>, cur: nat, used: nat, vpc: seq<nat>, ipc: seq<nat>, pages: nat,
                 at: map<nat, nat>, lines: nat)
    requires Shared(free, full, [], cur, {}, lines) && Filled(free, full, [], cur, used, vpc, ipc, pages)
    requires Counted(at, vpc, {})
    ensures |full| == lines - 1 - |free| && |at.Keys| >= (lines - 1 - |free|) * pages
  {
    HoldTogether(at, full, pages);
    SubsetSize(PagesOnAll(at, full), at.Keys);
  }

  // Above a threshold that the number of logical pages leaves room for, there is a victim.
  lemma VictimLeft(free: seq<nat>, full: seq<nat>, victims: seq<nat>, cur: nat, used: nat, vpc: seq<nat>, ipc: seq<nat>,
                   pages: nat, at: map<nat, nat>, lines: nat, hostPages: nat, thres: nat)
    requires Shared(free, full, victims, cur, {}, lines) && Filled(free, full, victims, cur, used, vpc, ipc, pages)
    requires Counted(at, vpc, {}) && (forall p :: p in at ==> p < hostPages)
    requires |free| <= thres < lines && hostPages < (lines - 1 - thres) * pages
    ensures victims != []
  {
    hide Shared, Filled, Counted;
    if victims == [] {
      NoVictim(free, full, cur, used, vpc, ipc, pages, at, lines);
      SubsetSize(at.Keys, Below(hostPages));
      MulLe(lines - 1 - thres, lines - 1 - |free|, pages);
    }
  }

  lemma FreeCount(free: seq<nat>, full: seq<nat>, victims: seq<nat>, cur: nat, held: set<nat>, lines: nat)
    requires Shared(free, full, victims, cur, held, lines)
    ensures |free| + 1 <= lines
  {
  }

  // The pages a, a + 1, ..., b - 1.
  ghost function Span(a: nat, b: nat): set<nat> {
    Below(b) - Below(a)
  }

  lemma SpanNext(a: nat, b: nat)
    requires a <= b
    ensures Span(a, a) == {} && Span(a, b + 1) == Span(a, b) + {b}
  {
  }

  // ----- One page written -----

  lemma CountedWrite(at: map<nat, nat>, vpc: seq<nat>, held: set<nat>, p: nat, to: nat)
    requires Counted(at, vpc, held) && to < |vpc| && to !in held && (p in at ==> at[p] in held)
    ensures Counted(at[p := to], vpc[to := vpc[to] + 1], held)
  {
    forall l: nat | l < |vpc| && l !in held ensures vpc[to := vpc[to] + 1][l] == |PagesOn(at[p := to], l)| {
      if p in at { PagesMove(at, p, to, l); } else { PagesSet(at, p, to, l); }
    }
  }

  // The current line is used up: it joins the full lines or the victims and a free line is taken.
  lemma SharedAdvance(free: seq<nat>, full: seq<nat>, victims: seq<nat>, cur: nat, held: set<nat>, lines: nat)
    requires Shared(free, full, victims, cur, held, lines) && free != []
    ensures Shared(free[1..], full + [cur], victims, free[0], held, lines)
    ensures Shared(free[1..], full, victims + [cur], free[0], held, lines)
  {
    assert free == [free[0]] + free[1..];
    assert free[0] in free && free[0] !in free[1..];
    assert forall l :: l in free[1..] ==> l in free;
    assert forall l :: l in full + [cur] <==> l in full || l == cur;
    assert forall l :: l in victims + [cur] <==> l in victims || l == cur;
    NoDupConcat(full, [cur]);
    NoDupConcat(victims, [cur]);
  }

  lemma FilledWrite(free: seq<nat>, full: seq<nat>, victims: seq<nat>, cur: nat, used: nat, vpc: seq<nat>,
                    ipc: seq<nat>, pages: nat, held: set<nat>, lines: nat)
    requires Filled(free, full, victims, cur, used, vpc, ipc, pages) && Shared(free, full, victims, cur, held, lines)
    ensures var vpc' := vpc[cur := vpc[cur] + 1];
      && (used + 1 < pages ==> Filled(free, full, victims, cur, used + 1, vpc', ipc, pages))
      && (used + 1 == pages && free != [] ==>
            if vpc'[cur] == pages then Filled(free[1..], full + [cur], victims, free[0], 0, vpc', ipc, pages)
            else Filled(free[1..], full, victims + [cur], free[0], 0, vpc', ipc, pages))
  {
    if free != [] {
      assert free == [free[0]] + free[1..];
      assert free[0] in free && forall l :: l in free[1..] ==> l in free;
    }
  }

  // ----- A page invalidated -----

  lemma CountedDrop(at: map<nat, nat>, vpc: seq<nat>, held: set<nat>, p: nat)
    requires Counted(at, vpc, held) && p in at && at[p] !in held
    ensures at[p] < |vpc| && vpc[at[p]] > 0 && Counted(at - {p}, vpc[at[p] := vpc[at[p]] - 1], held)
  {
    assert p in PagesOn(at, at[p]);
    forall l: nat | l < |vpc| && l !in held
      ensures vpc[at[p] := vpc[at[p]] - 1][l] == |PagesOn(at - {p}, l)|
    {
      PagesDrop(at, p, l);
    }
  }

  lemma SharedToVictim(free: seq<nat>, full: seq<nat>, victims: seq<nat>, cur: nat, held: set<nat>, lines: nat, l: nat)
    requires Shared(free, full, victims, cur, held, lines) && l in full
    ensures Shared(free, Remove(full, l), victims + [l], cur, held, lines)
  {
    RemoveElems(full, l);
  }

  lemma FilledInvalid(free: seq<nat>, full: seq<nat>, victims: seq<nat>, cur: nat, used: nat, vpc: seq<nat>,
                      ipc: seq<nat>, pages: nat, held: set<nat>, lines: nat, l: nat)
    requires Filled(free, full, victims, cur, used, vpc, ipc, pages) && Shared(free, full, victims, cur, held, lines)
    requires l < |vpc| && l < |ipc| && vpc[l] > 0 && l !in held
    ensures var vpc', ipc' := vpc[l := vpc[l] - 1], ipc[l := ipc[l] + 1];
      if l in full then Filled(free, Remove(full, l), victims + [l], cur, used, vpc', ipc', pages)
      else Filled(free, full, victims, cur, used, vpc', ipc', pages)
  {
    RemoveElems(full, l);
  }

  // A line with all its pages valid is on the full list, and only such lines are.
  lemma FullIff(free: seq<nat>, full: seq<nat>, victims: seq<nat>, cur: nat, used: nat, vpc: seq<nat>, ipc: seq<nat>,
                pages: nat, l: nat)
    requires Filled(free, full, victims, cur, used, vpc, ipc, pages) && pages > 0
    requires l in free || l in full || l in victims || l == cur
    ensures vpc[l] == pages <==> l in full
  {
  }

  // What mark_page_invalid asserts of a line with a valid page.
  lemma LineBounds(free: seq<nat>, full: seq<nat>, victims: seq<nat>, cur: nat, used: nat, vpc: seq<nat>,
                   ipc: seq<nat>, pages: nat, l: nat)
    requires Filled(free, full, victims, cur, used, vpc, ipc, pages) && l < |vpc| && l < |ipc| && vpc[l] > 0
    requires l in free || l in full || l in victims || l == cur
    ensures ipc[l] < pages && vpc[l] <= pages && (vpc[l] == pages ==> ipc[l] == 0)
  {
  }

  // ----- Collecting a line -----

  lemma SharedHold(free: seq<nat>, full: seq<nat>, victims: seq<nat>, cur: nat, lines: nat, l: nat)
    requires Shared(free, full, victims, cur, {}, lines) && l in victims
    ensures Shared(free, full, Remove(victims, l), cur, {l}, lines)
  {
    RemoveElems(victims, l);
  }

  // Taking a victim off its list to collect it: fewer than a line's worth of pages are valid.
  lemma HoldVictim(free: seq<nat>, full: seq<nat>, victims: seq<nat>, cur: nat, used: nat, vpc: seq<nat>,
                   ipc: seq<nat>, pages: nat, at: map<nat, nat>, lines: nat, l: nat)
    requires Shared(free, full, victims, cur, {}, lines) && Filled(free, full, victims, cur, used, vpc, ipc, pages)
    requires Counted(at, vpc, {}) && l in victims
    ensures Shared(free, full, Remove(victims, l), cur, {l}, lines)
    ensures Filled(free, full, Remove(victims, l), cur, used, vpc, ipc, pages) && Counted(at, vpc, {l})
    ensures l < |vpc| && |PagesOn(at, l)| == vpc[l] < pages
  {
    SharedHold(free, full, victims, cur, lines, l);
    RemoveElems(victims, l);
  }

  lemma VictimsInRange(free: seq<nat>, full: seq<nat>, victims: seq<nat>, cur: nat, held: set<nat>, lines: nat)
    requires Shared(free, full, victims, cur, held, lines)
    ensures forall l :: l in victims ==> l < lines
  {
  }

  lemma VictimsSplit(free: seq<nat>, full: seq<nat>, victims: seq<nat>, cur: nat, used: nat, vpc: seq<nat>,
                     ipc: seq<nat>, pages: nat)
    requires Filled(free, full, victims, cur, used, vpc, ipc, pages)
    ensures forall l :: l in victims ==> l < |vpc| && l < |ipc| && vpc[l] + ipc[l] == pages
  {
  }

  lemma SharedFree(free: seq<nat>, full: seq<nat>, victims: seq<nat>, cur: nat, lines: nat, l: nat)
    requires Shared(free, full, victims, cur, {l}, lines)
    ensures Shared(free + [l], full, victims, cur, {}, lines)
  {
  }

  // No victim has fewer valid pages than l.
  ghost predicate Fewest(vpc: seq<nat>, victims: seq<nat>, l: nat) {
    l < |vpc| && forall u :: u in victims && u < |vpc| ==> vpc[l] <= vpc[u]
  }

  // Every line is somewhere.
  lemma SomeRole(free: seq<nat>, full: seq<nat>, victims: seq<nat>, cur: nat, held: set<nat>, lines: nat, l: nat)
    requires Shared(free, full, victims, cur, held, lines) && l < lines
    ensures l in free || l in full || l in victims || l == cur || l in held
  {
    var all := free + full + victims + [cur];
    AllDistinct(free, full, victims, cur, held, lines);
    NoDupSize(all);
    forall x | x in Elems(all) + held ensures x in Below(lines) {
      assert x in free || x in full || x in victims || x == cur || x in held;
    }
    assert Elems(all) !! held;
    SubsetEqual(Elems(all) + held, Below(lines));
    assert l in Elems(all) + held;
  }

  lemma AllDistinct(free: seq<nat>, full: seq<nat>, victims: seq<nat>, cur: nat, held: set<nat>, lines: nat)
    requires Shared(free, full, victims, cur, held, lines)
    ensures NoDup(free + full + victims + [cur])
  {
    NoDupConcat(free, full);
    NoDupConcat(free + full, victims);
    NoDupConcat(free + full + victims, [cur]);
  }
}

module EnclaveGc {
  import opened Wrappers
  import opened Collections
  import opened MixedRadix
  import opened LineCounts
  import Split

  class EnclaveFtl {
    const lines: nat           // tt_lines
    const pages: nat           // pgs_per_line_FTL
    const thresHigh: nat       // gc_thres_lines_high
    const thres: nat           // gc_thres_lines
    const hostPages: nat       // tt_host_lpn
    const vpc: array<nat>
    const ipc: array<nat>
    var free: seq<nat>
    var full: seq<nat>
    var victims: seq<nat>
    var cur: nat
    var used: nat
    var at: map<nat, nat>      // maptbl, as far as the line

    ghost predicate Shape(held: set<nat>)
      reads this, vpc, ipc
    {
      && vpc.Length == ipc.Length == lines && vpc != ipc && used < pages
      && Shared(free, full, victims, cur, held, lines)
      && Filled(free, full, victims, cur, used, vpc[..], ipc[..], pages)
      && Counted(at, vpc[..], held)
      && forall p :: p in at ==> p < hostPages
    }

    // The host's pages leave enough lines over for a victim whenever the high threshold is
    // reached, and one line more than the threshold can be consumed.
    predicate Sized() {
      1 <= thresHigh && thresHigh + 1 <= lines && hostPages < (lines - 1 - thresHigh) * pages
    }

    // Between two requests a free line is left.
    ghost predicate Valid()
      reads this, vpc, ipc
    {
      Shape({}) && Sized() && free != []
    }

    ghost function Left(): int
      reads this
    {
      Room(|free|, used, pages)
    }

    // ssd_init_lines and ssd_init_write_pointer
    constructor (lines: nat, pages: nat, thresHigh: nat, thres: nat, hostPages: nat)
      requires 2 <= lines && 1 <= pages && 1 <= thresHigh && thresHigh + 1 <= lines
      requires hostPages < (lines - 1 - thresHigh) * pages
      ensures Valid() && at == map[] && this.lines == lines && this.pages == pages && this.hostPages == hostPages
      ensures this.thresHigh == thresHigh && this.thres == thres && fresh(vpc) && fresh(ipc)
      ensures |free| == lines - 1 && used == 0
    {
      this.lines, this.pages, this.thresHigh, this.thres, this.hostPages := lines, pages, thresHigh, thres, hostPages;
      vpc := new nat[lines](_ => 0);
      ipc := new nat[lines](_ => 0);
      free := seq(lines - 1, i => i + 1);
      full, victims, cur, used, at := [], [], 0, 0, map[];
      new;
      forall l: nat | l < lines ensures PagesOn(at, l) == {} {
      }
    }

    // get_next_free_line; its assertion is the precondition.
    method GetNextFreeLine() returns (l: nat)
      requires free != []
      modifies this`free
      ensures l == old(free[0]) && free == old(free[1..])
    {
      l := free[0];
      free := free[1..];
    }

    // ssd_advance_write_pointer, counting only the pages of the line
    method AdvanceWritePointer()
      requires used < pages && cur < vpc.Length && (used + 1 == pages ==> free != [])
      requires cur < ipc.Length && vpc[cur] + ipc[cur] == used + 1
      modifies this`used, this`cur, this`free, this`full, this`victims
      ensures old(used) + 1 < pages ==>
        used == old(used) + 1 && cur == old(cur) && free == old(free) && full == old(full) && victims == old(victims)
      ensures old(used) + 1 == pages ==>
        && used == 0 && cur == old(free[0]) && free == old(free[1..])
        && (if vpc[old(cur)] == pages then full == old(full) + [old(cur)] && victims == old(victims)
            else full == old(full) && victims == old(victims) + [old(cur)])
    {
      used := used + 1;
      if used == pages {
        used := 0;
        if vpc[cur] == pages {
          assert ipc[cur] == 0;
          full := full + [cur];
        } else {
          assert vpc[cur] < pages && ipc[cur] > 0;
          victims := victims + [cur];
        }
        cur := GetNextFreeLine();
      }
    }

    // The new page of a write: get_new_page, set_maptbl_ent, mark_page_valid and
    // ssd_advance_write_pointer.  A page that is copied still counts on the line it leaves.
    method WritePage(lpn: nat, ghost held: set<nat>)
      requires Shape(held) && lpn < hostPages && (lpn in at ==> at[lpn] in held) && Left() >= 2
      modifies this`used, this`cur, this`free, this`full, this`victims, this`at, vpc
      ensures Shape(held) && at == old(at)[lpn := old(cur)] && Left() == old(Left()) - 1
      ensures forall l :: l in held ==> l < lines && vpc[l] == old(vpc[l])
    {
      hide Filled, Counted;
      ghost var vpc0 := vpc[..];
      RoomBounds(|free|, used, pages);
      CountedWrite(at, vpc0, held, lpn, cur);
      FilledWrite(free, full, victims, cur, used, vpc0, ipc[..], pages, held, lines);
      if free != [] { SharedAdvance(free, full, victims, cur, held, lines); }
      WritePageBody(lpn, vpc0);
      if |free| < |old(free)| { MulNext(|free|, pages); }
    }

    method WritePageBody(lpn: nat, ghost vpc0: seq<nat>)
      requires used < pages && cur < vpc.Length && (used + 1 == pages ==> free != []) && vpc0 == vpc[..]
      requires vpc != ipc && cur < ipc.Length && vpc[cur] + ipc[cur] == used
      modifies this`used, this`cur, this`free, this`full, this`victims, this`at, vpc
      ensures at == old(at)[lpn := old(cur)] && vpc[..] == vpc0[old(cur) := vpc0[old(cur)] + 1]
      ensures old(used) + 1 < pages ==>
        used == old(used) + 1 && cur == old(cur) && free == old(free) && full == old(full) && victims == old(victims)
      ensures old(used) + 1 == pages ==>
        && used == 0 && cur == old(free[0]) && free == old(free[1..])
        && (if vpc0[old(cur)] + 1 == pages then full == old(full) + [old(cur)] && victims == old(victims)
            else full == old(full) && victims == old(victims) + [old(cur)])
    {
      at := at[lpn := cur];
      assert vpc[cur] < pages;
      vpc[cur] := vpc[cur] + 1;
      AdvanceWritePointer();
    }

    // mark_page_invalid for the page a host write replaces; its map entry is about to be set again.
    method MarkPageInvalid(lpn: nat)
      requires Shape({}) && pages > 0 && lpn in at
      modifies this`full, this`victims, this`at, vpc, ipc
      ensures Shape({}) && at == old(at) - {lpn} && Left() == old(Left())
    {
      hide Shared, Filled, Counted;
      ghost var vpc0, ipc0 := vpc[..], ipc[..];
      var l := at[lpn];
      CountedDrop(at, vpc0, {}, lpn);
      SomeRole(free, full, victims, cur, {}, lines, l);
      FullIff(free, full, victims, cur, used, vpc0, ipc0, pages, l);
      FilledInvalid(free, full, victims, cur, used, vpc0, ipc0, pages, {}, lines, l);
      if l in full { SharedToVictim(free, full, victims, cur, {}, lines, l); }
      LineBounds(free, full, victims, cur, used, vpc0, ipc0, pages, l);
      InvalidateOn(l);
      at := at - {lpn};
    }

    method InvalidateOn(l: nat)
      requires l < vpc.Length == ipc.Length && vpc != ipc
      requires ipc[l] < pages && 0 < vpc[l] <= pages && (vpc[l] == pages ==> ipc[l] == 0)
      modifies this`full, this`victims, vpc, ipc
      ensures vpc[..] == old(vpc[..])[l := old(vpc[l]) - 1] && ipc[..] == old(ipc[..])[l := old(ipc[l]) + 1]
      ensures if old(vpc[l]) == pages then full == Remove(old(full), l) && victims == old(victims) + [l]
              else full == old(full) && victims == old(victims)
    {
      var wasFull := vpc[l] == pages;
      ipc[l] := ipc[l] + 1;
      vpc[l] := vpc[l] - 1;
      if wasFull {
        full := Remove(full, l);
        victims := victims + [l];
      }
    }

    // select_victim_line: the line with the fewest valid pages; unless forced, only if at least
    // an eighth of it is invalid.
    method SelectVictimLine(force: bool) returns (r: Option<nat>)
      requires vpc.Length == ipc.Length
      requires forall l :: l in victims ==> l < vpc.Length && vpc[l] + ipc[l] == pages
      modifies this`victims
      ensures r.Some? ==> r.value in old(victims) && victims == Remove(old(victims), r.value)
      ensures r.Some? ==> forall l :: l in old(victims) ==> l < vpc.Length && vpc[r.value] <= vpc[l]
      ensures r.Some? ==> Fewest(vpc[..], old(victims), r.value)
      ensures r.None? ==> victims == old(victims)
      ensures r.None? <==> old(victims) == [] || (!force && forall l :: l in old(victims) ==> ipc[l] < pages / 8)
    {
      r := None;
      for i := 0 to |victims|
        invariant r.Some? ==> r.value in victims
        invariant r.None? <==> i == 0
        invariant forall j :: 0 <= j < i ==> victims[j] in victims && r.Some? && vpc[r.value] <= vpc[victims[j]]
      {
        assert victims[i] in victims;
        if r == None || vpc[victims[i]] < vpc[r.value] {
          r := Some(victims[i]);
        }
      }
      if r == None {
        return;
      }
      assert victims != [] && forall l :: l in victims ==> ipc[l] <= ipc[r.value];
      if !force && ipc[r.value] < pages / 8 {
        return None;
      }
      victims := Remove(victims, r.value);
    }

    // gc_write_page
    method CopyPage(lpn: nat, victim: nat)
      requires Shape({victim}) && lpn in at && at[lpn] == victim && Left() >= 2
      modifies this`used, this`cur, this`free, this`full, this`victims, this`at, vpc
      ensures Shape({victim}) && at.Keys == old(at).Keys && Left() == old(Left()) - 1
      ensures PagesOn(at, victim) == old(PagesOn(at, victim)) - {lpn}
    {
      ghost var to := cur;
      assert to != victim;
      WritePage(lpn, {victim});
    }

    // mark_line_free
    method MarkLineFree(l: nat)
      requires Shape({l}) && PagesOn(at, l) == {}
      modifies this`free, vpc, ipc
      ensures Shape({}) && Left() == old(Left()) + pages && free == old(free) + [l]
      ensures at == old(at) && l < lines && vpc[l] == 0 && ipc[l] == 0
    {
      SharedFree(free, full, victims, cur, lines, l);
      MulNext(|free|, pages);
      vpc[l] := 0;
      ipc[l] := 0;
      free := free + [l];
    }

    // __do_gc: the valid pages of the line are written again, in whatever order its blocks are
    // visited, and the line is freed.
    method Collect(victim: nat)
      requires Shape({victim}) && free != [] && |PagesOn(at, victim)| < pages
      modifies this, vpc, ipc
      ensures Shape({}) && at.Keys == old(at).Keys && Left() == old(Left()) - |old(PagesOn(at, victim))| + pages
      ensures free != [] && free[|free| - 1] == victim && victim < lines && vpc[victim] == 0 && ipc[victim] == 0
      ensures PagesOn(at, victim) == {}
    {
      var todo := set p | p in at && at[p] == victim;
      ghost var valid := PagesOn(at, victim);
      LinesMeanRoom(1, |free|, used, pages);
      assert todo == valid;
      hide Shared, Filled, Counted, PagesOn;
      while todo != {}
        invariant Shape({victim}) && at.Keys == old(at).Keys
        invariant todo == PagesOn(at, victim) && todo <= valid
        invariant Left() == old(Left()) - |valid| + |todo|
        decreases |todo|
      {
        var lpn :| lpn in todo;
        PagesOnIs(at, victim, lpn);
        CopyPage(lpn, victim);
        todo := todo - {lpn};
      }
      MarkLineFree(victim);
    }

    // do_gc: afterwards at least as many lines are free as before, and more pages can be written.
    method DoGc(force: bool) returns (r: int)
      requires Shape({}) && free != []
      modifies this, vpc, ipc
      ensures Shape({}) && at.Keys == old(at).Keys && |free| >= |old(free)|
      ensures r == 0 || r == -1
      ensures r == 0 ==> Left() > old(Left()) && free != [] && free[|free| - 1] < |old(vpc[..])|
      ensures r == 0 ==>
        && free[|free| - 1] in old(victims)
        && Fewest(old(vpc[..]), old(victims), free[|free| - 1])
        && Left() == old(Left()) + pages - old(vpc[..])[free[|free| - 1]]
      ensures r == -1 ==>
        && free == old(free) && full == old(full) && victims == old(victims) && cur == old(cur) && used == old(used)
        && at == old(at) && vpc[..] == old(vpc[..]) && ipc[..] == old(ipc[..])
      ensures r == -1 <==>
        || old(victims) == []
        || (!force && forall l :: l in old(victims) && l < |old(ipc[..])| ==> old(ipc[..])[l] < pages / 8)
    {
      hide Shared, Filled, Counted, PagesOn, Fewest;
      VictimsInRange(free, full, victims, cur, {}, lines);
      VictimsSplit(free, full, victims, cur, used, vpc[..], ipc[..], pages);
      ghost var vs := victims;
      var v := SelectVictimLine(force);
      if v == None {
        return -1;
      }
      assert Fewest(vpc[..], vs, v.value);
      HoldVictim(free, full, vs, cur, used, vpc[..], ipc[..], pages, at, lines, v.value);
      LinesMeanRoom(|free|, |free|, used, pages);
      Collect(v.value);
      RoomMeansLines(|old(free)|, |free|, used, pages);
      r := 0;
    }

    // One turn of the loop at the start of ssd_write: there is a victim, and collecting it gains
    // pages.
    method GcOnce() returns (r: int)
      requires Valid() && |free| <= thresHigh
      modifies this, vpc, ipc
      ensures Valid() && r == 0 && Left() > old(Left()) && at.Keys == old(at).Keys
    {
      hide Shared, Filled, Counted;
      VictimLeft(free, full, victims, cur, used, vpc[..], ipc[..], pages, at, lines, hostPages, thresHigh);
      r := DoGc(true);
    }

    // The loop at the start of ssd_write ends, with more lines free than the threshold.
    method ForegroundGc()
      requires Valid()
      modifies this, vpc, ipc
      ensures Valid() && |free| > thresHigh && at.Keys == old(at).Keys
      ensures |old(free)| > thresHigh ==>
        && free == old(free) && full == old(full) && victims == old(victims) && cur == old(cur) && used == old(used)
        && at == old(at) && vpc[..] == old(vpc[..]) && ipc[..] == old(ipc[..])
    {
      hide Shared, Filled, Counted, Room;
      while |free| <= thresHigh
        invariant Valid() && at.Keys == old(at).Keys
        invariant |old(free)| > thresHigh ==>
          && free == old(free) && full == old(full) && victims == old(victims) && cur == old(cur) && used == old(used)
          && at == old(at) && vpc[..] == old(vpc[..]) && ipc[..] == old(ipc[..])
        decreases lines * pages - Left()
      {
        FreeCount(free, full, victims, cur, {}, lines);
        RoomAtMost(|free|, used, pages, lines);
        var r := GcOnce();
        if r == -1 {
          break;
        }
      }
    }

    // One page of a host write: the old page first, then the new one.
    method WriteLpn(lpn: nat)
      requires Shape({}) && lpn < hostPages && Left() >= 2
      modifies this, vpc, ipc
      ensures Shape({}) && Left() == old(Left()) - 1 && at.Keys == old(at).Keys + {lpn}
    {
      hide Shared, Filled, Counted, Room;
      if lpn in at {
        MarkPageInvalid(lpn);
      }
      WritePage(lpn, {});
    }

    // ssd_write: the request covers the pages from startLpn to endLpn, at most a line of them.
    // get_next_free_line never comes away empty-handed.
    method SsdWrite(startLpn: nat, endLpn: nat)
      requires Valid() && startLpn <= endLpn < hostPages && endLpn - startLpn < pages
      modifies this, vpc, ipc
      ensures Valid() && at.Keys == old(at).Keys + Span(startLpn, endLpn + 1)
    {
      hide Shared, Filled, Counted, Span, Room;
      SpanNext(startLpn, startLpn);
      ForegroundGc();
      LinesMeanRoom(2, |free|, used, pages);
      ghost var room, keys := Left(), at.Keys;
      for lpn := startLpn to endLpn + 1
        invariant Shape({}) && Left() == room - (lpn - startLpn)
        invariant at.Keys == keys + Span(startLpn, lpn)
      {
        SpanNext(startLpn, lpn);
        WriteLpn(lpn);
      }
      RoomMeansLines(1, |free|, used, pages);
    }

    // ssd_warm_up, before the first request: half of what the host may use of this thread's pages
    // is written, and the FTL is ready for requests.  No page is mapped yet when its turn comes, as
    // the code asserts.
    method WarmUp(c: Split.Config)
      requires Valid() && at == map[] && |free| == lines - 1 && used == 0
      requires Split.PageUnits(c) && 2 * Split.Single(c) <= hostPages
      modifies this, vpc, ipc
      ensures Valid() && at.Keys == WarmPages(c, Split.WarmUpPages(c, hostPages))
    {
      hide Shared, Filled, Counted, Room, WarmPages, Split.WarmUpPages, Split.WarmUpLpn, Split.PageUnits;
      var n := Split.WarmUpPages(c, hostPages);
      Split.WarmUpFewer(c, hostPages);
      WarmUpRoom(lines, pages, thresHigh, hostPages, |free|);
      WarmNone(c);
      for i := 0 to n
        invariant Shape({}) && Left() == lines * pages - i
        invariant at.Keys == WarmPages(c, i)
      {
        var lpn := Split.WarmUpLpn(c, i);
        Split.WarmUpFits(c, hostPages, i);
        WarmNext(c, i);
        assert lpn !in at;
        WritePage(lpn, {});
      }
      RoomMeansLines(1, |free|, used, pages);
    }

    // Some victim is worth collecting: at least an eighth of it is invalid.
    ghost predicate WorthIt()
      reads this, ipc
    {
      exists l :: l in victims && l < ipc.Length && ipc[l] >= pages / 8
    }

    // The collection in the background after a request (check_req_from_dispatcher): at or below
    // the threshold, one victim if one is worth it.
    method BackgroundGc()
      requires Valid()
      modifies this, vpc, ipc
      ensures Valid() && at.Keys == old(at).Keys && |free| >= |old(free)|
      ensures |old(free)| <= thres && old(WorthIt()) ==> Left() > old(Left())
      ensures |old(free)| > thres || !old(WorthIt()) ==>
        && free == old(free) && full == old(full) && victims == old(victims) && cur == old(cur) && used == old(used)
        && at == old(at) && vpc[..] == old(vpc[..]) && ipc[..] == old(ipc[..])
    {
      if |free| <= thres {
        var r := DoGc(false);
      }
    }
  }

  // The first n pages of the warm-up.
  ghost function WarmPages(c: Split.Config, n: nat): set<nat>
    requires Split.PageUnits(c)
  {
    set i: nat | i < n :: Split.WarmUpLpn(c, i)
  }

  lemma WarmNone(c: Split.Config)
    requires Split.PageUnits(c)
    ensures WarmPages(c, 0) == {}
  {
  }

  lemma WarmNext(c: Split.Config, n: nat)
    requires Split.PageUnits(c)
    ensures Split.WarmUpLpn(c, n) !in WarmPages(c, n)
    ensures WarmPages(c, n + 1) == WarmPages(c, n) + {Split.WarmUpLpn(c, n)}
  {
    hide Split.WarmUpLpn, Split.PageUnits;
    forall i: nat | i < n ensures Split.WarmUpLpn(c, i) != Split.WarmUpLpn(c, n) {
      Split.WarmUpAscends(c, i, n);
    }
  }

  lemma WarmUpRoom(lines: nat, pages: nat, thresHigh: nat, hostPages: nat, freeCnt: nat)
    requires 1 <= thresHigh && thresHigh + 1 <= lines && freeCnt + 1 == lines
    requires hostPages < (lines - 1 - thresHigh) * pages
    ensures Room(freeCnt, 0, pages) == lines * pages && lines * pages - hostPages > pages && pages >= 1
  {
    MulNext(freeCnt, pages);
    MulLe(lines - 1 - thresHigh, lines - 2, pages);
    MulNext(lines - 2, pages);
  }

  lemma PagesOnIs(at: map<nat, nat>, l: nat, p: nat)
    ensures p in PagesOn(at, l) <==> p in at && at[p] == l
  {
  }
}
