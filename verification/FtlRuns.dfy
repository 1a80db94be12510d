// Host writes with foreground garbage collection: one write keeps the invariant and the
// page budget, and so no run of writes ever finds the free list empty.
module FtlRuns {
  import opened Wrappers
  import opened Collections
  import opened FtlModel

  // conv_init_params: both collection thresholds are two lines.
  const GC_THRES_LINES_HIGH := 2

  ghost predicate CanWrite<D>(c: Config, s: State<D>, lpn: nat) {
    && CanPlace(c, s, UserIo, lpn)
    && (s.maptbl[lpn].Some? ==> InBounds(s, s.maptbl[lpn].value))
  }

  // The state after the page has been written and one credit consumed.
  ghost function WritePage<D>(c: Config, s: State<D>, lpn: nat, d: D): State<D>
    requires CanWrite(c, s, lpn)
  {
    var s1 := if s.maptbl[lpn].Some? then Invalidate(c, s, lpn) else s;
    var s2 := Place(c, s1, UserIo, lpn, d);
    s2.(credits := s2.credits - 1)
  }

  // select_victim_line with force set: a line with the fewest valid pages.
  ghost predicate IsVictim<D>(s: State<D>, v: nat) {
    v in s.victims && v < |s.vpc| && forall u :: u in s.victims && u < |s.vpc| ==> s.vpc[v] <= s.vpc[u]
  }

  // foreground_gc: collect one line when at most two lines are free and there is a victim.
  ghost predicate ForegroundGc<D>(c: Config, s: State<D>, t: State<D>) {
    if |s.free| <= GC_THRES_LINES_HIGH && s.victims != {} then
      exists v :: IsVictim(s, v) && Collected(c, s, v, t)
    else t == s
  }

  // check_and_refill_write_credit: the credits come from the last collection, whether or not
  // one has run now.
  ghost predicate RefillCredits<D>(c: Config, s: State<D>, t: State<D>) {
    if s.credits <= 0 then
      ForegroundGc(c, s, t.(credits := t.credits - t.refill))
    else t == s
  }

  // One iteration of the loop in conv_write.
  ghost predicate HostWrite<D>(c: Config, s: State<D>, lpn: nat, d: D, t: State<D>) {
    CanWrite(c, s, lpn) && RefillCredits(c, WritePage(c, s, lpn, d), t)
  }

  // Enough lines for both pointers, and the page budget that keeps collection ahead of writing.
  ghost predicate Good<D>(c: Config, s: State<D>) {
    && c.T >= 5 && c.P >= 2
    && Inv(c, s, -1, {})
    && 1 <= s.credits <= c.P && 1 <= s.refill <= c.P
    && FreePages(c, s) >= 2 * c.P + s.credits
  }

  // ----- Pages in a number of lines -----

  function PagesOf(c: Config, lines: nat): nat {
    lines * c.P
  }

  lemma MulSteps(c: Config)
    ensures PagesOf(c, 0) == 0
    ensures forall n: nat :: PagesOf(c, n + 1) == PagesOf(c, n) + c.P
  {
    forall n: nat ensures PagesOf(c, n + 1) == PagesOf(c, n) + c.P {
      assert (n + 1) * c.P == n * c.P + c.P;
    }
  }

  lemma MulMonotone(c: Config, a: nat, b: nat)
    requires a <= b
    ensures PagesOf(c, a) <= PagesOf(c, b)
  {
  }

  lemma MulStrict(c: Config, a: nat, b: nat)
    requires c.P >= 1 && a < b
    ensures PagesOf(c, a) < PagesOf(c, b)
  {
    MulMonotone(c, a + 1, b);
    assert (a + 1) * c.P == a * c.P + c.P;
  }

  // ----- Enough invalid pages: a victim exists whenever one is needed -----

  // The logical pages stored on line l.
  ghost function StoredOn<D>(s: State<D>, l: nat): set<nat> {
    set i: nat | i < |s.maptbl| && s.maptbl[i].Some? && s.maptbl[i].value.line == l
  }

  // The logical pages stored on the first n pages of a line.
  ghost function StoredBelow<D>(s: State<D>, l: nat, n: nat): set<nat> {
    set i: nat | i in StoredOn(s, l) && s.maptbl[i].value.ord < n
  }

  lemma StoredNext<D>(c: Config, s: State<D>, l: nat, n: nat) returns (i0: nat)
    requires Inv(c, s, -1, {}) && l < c.T && AllAre(s.status[l], Valid) && n < c.P
    ensures i0 !in StoredBelow(s, l, n) && StoredBelow(s, l, n + 1) == StoredBelow(s, l, n) + {i0}
  {
    assert RmapOk(c, s, Page(l, n));
    i0 := s.rmap[l][n];
    forall i | i in StoredBelow(s, l, n + 1) ensures i in StoredBelow(s, l, n) || i == i0 {
      assert MappedOk(c, s, -1, {}, i);
    }
  }

  lemma {:induction false} FullLineStores<D>(c: Config, s: State<D>, l: nat, n: nat)
    requires Inv(c, s, -1, {}) && l < c.T && AllAre(s.status[l], Valid) && n <= c.P
    ensures |StoredBelow(s, l, n)| == n
  {
    hide Inv, AllAre;
    if n > 0 {
      hide StoredBelow;
      FullLineStores(c, s, l, n - 1);
      var i0 := StoredNext(c, s, l, n - 1);
    } else {
      assert StoredBelow(s, l, n) == {};
    }
  }

  lemma {:induction false} FullLinesStore<D>(c: Config, s: State<D>, lines: seq<nat>)
    requires Inv(c, s, -1, {}) && NoDup(lines)
    requires forall l :: l in lines ==> l < c.T && AllAre(s.status[l], Valid)
    ensures |StoredOnAny(s, lines)| == PagesOf(c, |lines|)
  {
    hide Inv, Core, AllAre, PagesOf;
    MulSteps(c);
    if lines == [] {
      assert StoredOnAny(s, lines) == {};
    } else {
      var l, rest := lines[0], lines[1..];
      assert lines == [l] + rest && l !in rest;
      assert l in lines && forall k :: k in rest ==> k in lines;
      FullLinesStore(c, s, rest);
      FullLineStores(c, s, l, c.P);
      AddLine(c, s, l, rest);
    }
  }

  ghost function StoredOnAny<D>(s: State<D>, lines: seq<nat>): set<nat> {
    set i: nat | i < |s.maptbl| && s.maptbl[i].Some? && s.maptbl[i].value.line in lines
  }

  lemma AddLine<D>(c: Config, s: State<D>, l: nat, rest: seq<nat>)
    requires Inv(c, s, -1, {}) && l !in rest
    ensures |StoredOnAny(s, [l] + rest)| == |StoredOnAny(s, rest)| + |StoredBelow(s, l, c.P)|
  {
    var a := StoredOnAny(s, rest);
    var b := StoredBelow(s, l, c.P);
    forall i | i in StoredOnAny(s, [l] + rest) ensures i in a || i in b {
      assert MappedOk(c, s, -1, {}, i);
    }
    assert StoredOnAny(s, [l] + rest) == a + b && a !! b;
  }

  // free + full + victims + the two open lines are all lines.
  lemma LineCount<D>(c: Config, s: State<D>)
    requires Shape(c, s) && Roles(c, s, -1)
    ensures |s.free| + |s.full| + |s.victims| + 2 == c.T
  {
    NoDupSize(s.free);
    NoDupSize(s.full);
    LineParts(c, s);
    var a, b, v, w := Elems(s.free), Elems(s.full), s.victims, {s.wp.line, s.gcWp.line};
    assert |a + b + v + w| == |a + b + v| + |w|;
    assert |a + b + v| == |a + b| + |v|;
    assert |a + b| == |a| + |b|;
  }

  lemma LineParts<D>(c: Config, s: State<D>)
    requires Shape(c, s) && Roles(c, s, -1)
    ensures var a, b, v, w := Elems(s.free), Elems(s.full), s.victims, {s.wp.line, s.gcWp.line};
      a + b + v + w == Below(c.T) && a !! b && (a + b) !! v && (a + b + v) !! w
  {
    var a, b, v, w := Elems(s.free), Elems(s.full), s.victims, {s.wp.line, s.gcWp.line};
    forall l: nat ensures l in a + b + v + w <==> l in Below(c.T) { }
  }

  // The condition under which collection keeps up: four lines' worth of pages are spare.
  ghost predicate Spare<D>(c: Config, s: State<D>, more: set<nat>) {
    c.T >= 5 && |Mapped(s) + more| <= PagesOf(c, c.T - 4)
  }

  // Full lines hold only mapped pages, so there are at most as many as fit.
  lemma FullLinesFit<D>(c: Config, s: State<D>)
    requires Inv(c, s, -1, {})
    ensures PagesOf(c, |s.full|) == |StoredOnAny(s, s.full)| <= |Mapped(s)|
    ensures StoredOnAny(s, s.full) <= Mapped(s)
    ensures |s.free| + |s.full| + |s.victims| + 2 == c.T
  {
    FullLinesAreValid(c, s);
    hide Inv, Core, AllAre, PagesOf, Roles, Shape;
    LineCount(c, s);
    FullLinesStore(c, s, s.full);
    SubsetSize(StoredOnAny(s, s.full), Mapped(s));
  }

  // The page in front of the host pointer, if the line has one, holds a logical page.
  ghost predicate LastIsMapped<D>(s: State<D>) {
    s.wp.ord == 0 || Some(Page(s.wp.line, s.wp.ord - 1)) in s.maptbl
  }

  // With at most two lines free there is a victim, but for one situation: the spare pages are
  // used up, all logical pages are on full lines, and the host has just opened a line.
  lemma VictimExists<D>(c: Config, s: State<D>)
    requires c.P >= 1 && Inv(c, s, -1, {}) && Spare(c, s, {}) && LastIsMapped(s)
    requires |s.free| <= GC_THRES_LINES_HIGH
    ensures s.victims == {} ==>
      |Mapped(s)| == PagesOf(c, c.T - 4) && |s.free| == GC_THRES_LINES_HIGH && s.wp.ord == 0
  {
    hide Inv, Core, PagesOf, Mapped, StoredOnAny;
    FullLinesFit(c, s);
    assert Mapped(s) + {} == Mapped(s);
    if s.victims == {} {
      if c.T - 4 < |s.full| { MulStrict(c, c.T - 4, |s.full|); }
      SubsetEqual(StoredOnAny(s, s.full), Mapped(s));
      if s.wp.ord != 0 { HostLineStores(c, s); }
    }
  }

  lemma HostLineStores<D>(c: Config, s: State<D>)
    requires Inv(c, s, -1, {}) && LastIsMapped(s) && s.wp.ord != 0
    ensures StoredOnAny(s, s.full) != Mapped(s)
  {
    var i: nat :| i < |s.maptbl| && s.maptbl[i] == Some(Page(s.wp.line, s.wp.ord - 1));
    assert i in Mapped(s);
  }

  lemma FullLinesAreValid<D>(c: Config, s: State<D>)
    requires Inv(c, s, -1, {})
    ensures Shape(c, s) && Roles(c, s, -1) && NoDup(s.full)
    ensures forall l :: l in s.full ==> l < c.T && AllAre(s.status[l], Valid)
  {
  }

  // ----- One host write -----

  lemma CanWriteOk<D>(c: Config, s: State<D>, lpn: nat)
    requires Good(c, s) && lpn < |s.maptbl|
    ensures CanWrite(c, s, lpn)
  {
    hide Inv, Core;
    InvInBounds(c, s, -1, {});
    Room(c, s);
  }

  lemma Room<D>(c: Config, s: State<D>)
    requires Good(c, s)
    ensures s.free != [] && s.wp.ord < c.P && s.gcWp.ord < c.P
  {
  }

  lemma WritePageOk<D>(c: Config, s: State<D>, lpn: nat, d: D)
    requires Inv(c, s, -1, {}) && CanWrite(c, s, lpn)
    ensures var t := WritePage(c, s, lpn, d);
      && Inv(c, t, -1, {}) && FreePages(c, t) == FreePages(c, s) - 1
      && t.credits == s.credits - 1 && t.refill == s.refill
      && View(t) == View(s)[lpn := Some(d)]
  {
    hide Inv, Core, MappedOk, View, Place;
    if s.maptbl[lpn].Some? {
      UnmapInv(c, s, lpn);
      var s1, u := Invalidate(c, s, lpn), Unmap(c, s, lpn);
      assert u.maptbl[lpn := Some(s1.wp)] == s1.maptbl[lpn := Some(s1.wp)];
      PlaceAlike(c, s1, u, UserIo, lpn, d);
      PlaceOk(c, u, lpn, d);
      UnmapView(c, s, lpn, d);
    } else {
      PlaceOk(c, s, lpn, d);
    }
  }

  // The page that held the old payload is invalid afterwards, and no logical page is recorded for
  // it; the page under the host's pointer is valid, recorded for lpn and holds the new one.
  lemma WriteMoves<D>(c: Config, s: State<D>, lpn: nat, d: D)
    requires Inv(c, s, -1, {}) && CanWrite(c, s, lpn)
    ensures InBounds(s, s.wp) && (s.maptbl[lpn].Some? ==> InBounds(s, s.maptbl[lpn].value))
    ensures var t := WritePage(c, s, lpn, d);
      && InBounds(t, s.wp) && t.maptbl == s.maptbl[lpn := Some(s.wp)]
      && Cell(t.status, s.wp) == Valid && Cell(t.rmap, s.wp) == lpn && Cell(t.data, s.wp) == d
      && (s.maptbl[lpn].Some? ==>
            && InBounds(t, s.maptbl[lpn].value)
            && Cell(t.status, s.maptbl[lpn].value) == Invalid && Cell(t.rmap, s.maptbl[lpn].value) == INVALID_LPN)
  {
    hide Inv, Core;
    InvInBounds(c, s, -1, {});
    var s1 := if s.maptbl[lpn].Some? then Invalidate(c, s, lpn) else s;
    if s.maptbl[lpn].Some? { OldElsewhere(c, s, lpn); }
    PlaceTables(c, s1, UserIo, lpn, d);
    PlaceCells(c, s1, lpn, d);
  }

  lemma OldElsewhere<D>(c: Config, s: State<D>, lpn: nat)
    requires Inv(c, s, -1, {}) && lpn < |s.maptbl| && s.maptbl[lpn].Some? && InBounds(s, s.maptbl[lpn].value)
    ensures s.maptbl[lpn].value != s.wp
  {
    assert MappedOk(c, s, -1, {}, lpn);
  }

  // A page written changes its own cells only.
  lemma PlaceCells<D>(c: Config, s: State<D>, lpn: nat, d: D)
    requires CanPlace(c, s, UserIo, lpn)
    ensures var t := Place(c, s, UserIo, lpn, d);
      && t.status == SetCell(s.status, s.wp, Valid) && t.rmap == SetCell(s.rmap, s.wp, lpn)
      && |t.vpc| == |s.vpc| && t.ipc == s.ipc
  {
  }

  lemma WriteMapped<D>(c: Config, s: State<D>, lpn: nat, d: D)
    requires CanWrite(c, s, lpn)
    ensures Mapped(WritePage(c, s, lpn, d)) == Mapped(s) + {lpn}
  {
    var s1 := if s.maptbl[lpn].Some? then Invalidate(c, s, lpn) else s;
    PlaceTables(c, s1, UserIo, lpn, d);
    assert WritePage(c, s, lpn, d).maptbl == s.maptbl[lpn := Some(s.wp)];
  }

  // The page written last is the one in front of the host pointer.
  lemma WriteLeavesMapped<D>(c: Config, s: State<D>, lpn: nat, d: D)
    requires CanWrite(c, s, lpn)
    ensures LastIsMapped(WritePage(c, s, lpn, d))
  {
    var s1 := if s.maptbl[lpn].Some? then Invalidate(c, s, lpn) else s;
    PlaceTables(c, s1, UserIo, lpn, d);
    var t := WritePage(c, s, lpn, d);
    assert t.maptbl[lpn] == Some(s.wp);
  }

  lemma UnmapView<D>(c: Config, s: State<D>, lpn: nat, d: D)
    requires CanWrite(c, s, lpn) && s.maptbl[lpn].Some?
    ensures View(Unmap(c, s, lpn))[lpn := Some(d)] == View(s)[lpn := Some(d)]
  {
    assert Unmap(c, s, lpn).maptbl == s.maptbl[lpn := None] && Unmap(c, s, lpn).data == s.data;
  }

  // Writing an unmapped page and consuming the credit.
  lemma PlaceOk<D>(c: Config, u: State<D>, lpn: nat, d: D)
    requires Inv(c, u, -1, {}) && CanPlace(c, u, UserIo, lpn) && u.maptbl[lpn].None?
    ensures var p := Place(c, u, UserIo, lpn, d); var t := p.(credits := p.credits - 1);
      && Inv(c, t, -1, {}) && FreePages(c, t) == FreePages(c, u) - 1
      && t.credits == u.credits - 1 && t.refill == u.refill
      && View(t) == View(u)[lpn := Some(d)]
  {
    hide Inv, Core, Place, View;
    PlaceCore(c, u, -1, {}, UserIo, lpn, d);
    PlaceView(c, u, -1, {}, UserIo, lpn, d);
    var p := Place(c, u, UserIo, lpn, d);
    CreditsFrame(c, p, p.(credits := p.credits - 1));
  }

  // One page write keeps the invariant and the budget, and changes the host view only at lpn.
  lemma HostWriteOk<D>(c: Config, s: State<D>, lpn: nat, d: D, t: State<D>)
    requires Good(c, s) && lpn < |s.maptbl| && Spare(c, s, {lpn})
    requires HostWrite(c, s, lpn, d, t)
    ensures Good(c, t)
    ensures View(t) == View(s)[lpn := Some(d)]
    ensures Mapped(t) == Mapped(s) + {lpn}
  {
    hide Inv, Core, View;
    WritePageOk(c, s, lpn, d);
    WriteMapped(c, s, lpn, d);
    WriteLeavesMapped(c, s, lpn, d);
    assert Mapped(WritePage(c, s, lpn, d)) + {} == Mapped(s) + {lpn};
    RefillOk(c, WritePage(c, s, lpn, d), t);
  }

  // Before and after a write, up to the credits: what foreground collection starts from.
  ghost predicate Paid<D>(c: Config, s: State<D>) {
    && c.T >= 5 && c.P >= 2
    && Inv(c, s, -1, {}) && LastIsMapped(s)
    && 0 <= s.credits <= c.P && 1 <= s.refill <= c.P
    && FreePages(c, s) >= 2 * c.P + s.credits
  }

  lemma RefillOk<D>(c: Config, s: State<D>, t: State<D>)
    requires Paid(c, s) && Spare(c, s, {})
    requires RefillCredits(c, s, t)
    ensures Good(c, t)
    ensures View(t) == View(s)
    ensures Mapped(t) == Mapped(s)
  {
    hide Inv, Core, View, ForegroundGc;
    if s.credits <= 0 {
      var g := t.(credits := t.credits - t.refill);
      ForegroundGcOk(c, s, g);
      CreditsFrame(c, g, t);
    }
  }

  // Collection leaves at least as much room as the credits it hands out.
  lemma ForegroundGcOk<D>(c: Config, s: State<D>, g: State<D>)
    requires Paid(c, s) && Spare(c, s, {}) && s.credits == 0
    requires ForegroundGc(c, s, g)
    ensures Inv(c, g, -1, {}) && g.credits == 0 && 1 <= g.refill <= c.P
    ensures FreePages(c, g) >= 2 * c.P + g.refill
    ensures View(g) == View(s)
    ensures Mapped(g) == Mapped(s)
  {
    hide Inv, Core, View, Elsewhere, MovedOff, LastIsMapped;
    if |s.free| <= GC_THRES_LINES_HIGH && s.victims != {} {
      var v :| IsVictim(s, v) && Collected(c, s, v, g);
      CollectBeginOk(c, s, v);
      VictimGain(c, s, v);
      SameViewSameMapped(c, s, g);
    } else if |s.free| <= GC_THRES_LINES_HIGH {
      VictimExists(c, s);
      OpenLines(c, s);
    } else {
      OpenLines(c, s);
      MulMonotone(c, 3, |s.free|);
    }
  }

  lemma OpenLines<D>(c: Config, s: State<D>)
    requires Inv(c, s, -1, {})
    ensures s.wp.ord < c.P && s.gcWp.ord < c.P
  {
  }

  lemma VictimGain<D>(c: Config, s: State<D>, v: nat)
    requires Inv(c, s, -1, {}) && v in s.victims
    ensures 1 <= s.ipc[v] <= c.P
  {
    OrdsBound(s.status[v], Invalid);
  }

  lemma CreditsFrame<D>(c: Config, s: State<D>, t: State<D>)
    requires Inv(c, s, -1, {}) && t == s.(credits := t.credits)
    ensures Inv(c, t, -1, {}) && FreePages(c, t) == FreePages(c, s)
    ensures View(t) == View(s) && Mapped(t) == Mapped(s)
  {
    InvInBounds(c, s, -1, {});
    MappingFrame(c, s, t, -1, {});
  }

  lemma SameViewSameMapped<D>(c: Config, s: State<D>, t: State<D>)
    requires Inv(c, s, -1, {}) && Inv(c, t, -1, {}) && View(t) == View(s)
    ensures Mapped(t) == Mapped(s)
  {
    hide Inv, Core;
    InvInBounds(c, s, -1, {});
    InvInBounds(c, t, -1, {});
    assert |View(s)| == |View(t)|;
    forall i: nat | i < |s.maptbl| ensures s.maptbl[i].Some? <==> t.maptbl[i].Some? {
      assert View(t)[i] == View(s)[i];
    }
  }

  // ----- Runs -----

  // conv_init_ftl: nothing mapped, every page free, lines 0 and 1 open, the others on the
  // free list in order, one line's worth of credits.
  function Init<D>(c: Config, lpns: nat, d0: D): State<D>
    requires c.T >= 2
  {
    State(
      seq(lpns, _ => None),
      seq(c.T, _ => seq(c.P, _ => Free)),
      seq(c.T, _ => seq(c.P, _ => INVALID_LPN)),
      seq(c.T, _ => seq(c.P, _ => d0)),
      seq(c.T, _ => 0), seq(c.T, _ => 0),
      seq(c.T - 2, i => i + 2), [], {},
      Page(0, 0), Page(1, 0), c.P, c.P)
  }

  lemma InitRoles<D>(c: Config, lpns: nat, d0: D)
    requires c.T >= 2 && c.P >= 1
    ensures Shape(c, Init(c, lpns, d0)) && Roles(c, Init(c, lpns, d0), -1)
  {
    var s := Init(c, lpns, d0);
    assert forall i :: 0 <= i < c.T - 2 ==> s.free[i] == i + 2;
    forall l: nat | 2 <= l < c.T ensures l in s.free {
      assert s.free[l - 2] == l;
    }
  }

  lemma InitGood<D>(c: Config, lpns: nat, d0: D)
    requires c.T >= 5 && c.P >= 2
    ensures Good(c, Init(c, lpns, d0))
    ensures View(Init(c, lpns, d0)) == seq(lpns, _ => None)
    ensures Mapped(Init(c, lpns, d0)) == {}
  {
    var s := Init(c, lpns, d0);
    InitRoles(c, lpns, d0);
    var row: seq<Status> := seq(c.P, _ => Free);
    assert Ords(row, Valid) == {} && Ords(row, Invalid) == {};
    assert forall l :: 0 <= l < c.T ==> s.status[l] == row;
    MulMonotone(c, 3, c.T - 2);
  }

  // What the host has written: the last payload of each logical page.
  function Replay<D>(lpns: nat, ops: seq<(nat, D)>): (view: seq<Option<D>>)
    requires forall i :: 0 <= i < |ops| ==> ops[i].0 < lpns
    ensures |view| == lpns
  {
    if ops == [] then seq(lpns, _ => None)
    else
      var last := |ops| - 1;
      Replay(lpns, ops[..last])[ops[last].0 := Some(ops[last].1)]
  }

  // Replay really is "the last write wins".
  lemma {:induction false} ReplayLastWrite<D>(lpns: nat, ops: seq<(nat, D)>, lpn: nat)
    requires forall i :: 0 <= i < |ops| ==> ops[i].0 < lpns
    requires lpn < lpns
    ensures Replay(lpns, ops)[lpn].None? <==> forall i :: 0 <= i < |ops| ==> ops[i].0 != lpn
    ensures forall i :: 0 <= i < |ops| && ops[i].0 == lpn && (forall j :: i < j < |ops| ==> ops[j].0 != lpn) ==>
              Replay(lpns, ops)[lpn] == Some(ops[i].1)
  {
    if ops == [] {
    } else {
      var n := |ops| - 1;
      var before := ops[..n];
      ReplayLastWrite(lpns, before, lpn);
      assert forall i :: 0 <= i < n ==> ops[i] == before[i];
      forall i | 0 <= i < |ops| && ops[i].0 == lpn && (forall j :: i < j < |ops| ==> ops[j].0 != lpn)
        ensures Replay(lpns, ops)[lpn] == Some(ops[i].1)
      {
        if i < n { assert ops[n].0 != lpn && before[i].0 == lpn; }
      }
    }
  }

  ghost function Lpns<D>(ops: seq<(nat, D)>): set<nat> {
    set i | 0 <= i < |ops| :: ops[i].0
  }

  ghost predicate IsRun<D>(c: Config, lpns: nat, d0: D, ss: seq<State<D>>, ops: seq<(nat, D)>) {
    && c.T >= 2
    && |ss| == |ops| + 1 && ss[0] == Init(c, lpns, d0)
    && forall i :: 0 <= i < |ops| ==> HostWrite(c, ss[i], ops[i].0, ops[i].1, ss[i + 1])
  }

  // No run of host writes that touches no more than T - 4 lines' worth of logical pages ever
  // runs out of free lines, and after it every logical page reads back its last write.
  lemma {:induction false} NeverStarves<D>(c: Config, lpns: nat, d0: D, ss: seq<State<D>>, ops: seq<(nat, D)>)
    requires c.T >= 5 && c.P >= 2
    requires forall i :: 0 <= i < |ops| ==> ops[i].0 < lpns
    requires |Lpns(ops)| <= PagesOf(c, c.T - 4)
    requires IsRun(c, lpns, d0, ss, ops)
    ensures var t := ss[|ops|];
      && Good(c, t)
      && (forall lpn: nat :: lpn < lpns ==> CanWrite(c, t, lpn))
      && View(t) == Replay(lpns, ops)
      && Mapped(t) == Lpns(ops)
  {
    hide Good, HostWrite, View, PagesOf, CanWrite, Mapped, Init, Lpns, Replay, IsRun;
    var n := |ops|;
    if n == 0 {
      RunStart(c, lpns, d0, ss, ops);
      InitGood(c, lpns, d0);
      InitLength(c, lpns, d0);
    } else {
      var before, last := ops[..n - 1], ops[n - 1];
      RunPrefix(c, lpns, d0, ss, ops);
      LpnsStep(before, last);
      SubsetSize(Lpns(before), Lpns(ops));
      NeverStarves(c, lpns, d0, ss[..n], before);
      ViewLength(ss[n - 1]);
      HostWriteOk(c, ss[n - 1], last.0, last.1, ss[n]);
    }
    ViewLength(ss[n]);
    AnyCanWrite(c, ss[n], lpns);
  }

  lemma RunStart<D>(c: Config, lpns: nat, d0: D, ss: seq<State<D>>, ops: seq<(nat, D)>)
    requires IsRun(c, lpns, d0, ss, ops) && ops == []
    ensures |ss| == 1 && ss[0] == Init(c, lpns, d0) && Lpns(ops) == {} && Replay(lpns, ops) == seq(lpns, _ => None)
  {
  }

  lemma RunPrefix<D>(c: Config, lpns: nat, d0: D, ss: seq<State<D>>, ops: seq<(nat, D)>)
    requires IsRun(c, lpns, d0, ss, ops) && ops != [] && forall i :: 0 <= i < |ops| ==> ops[i].0 < lpns
    ensures var n := |ops|; var before, last := ops[..n - 1], ops[n - 1];
      && |ss| == n + 1 && IsRun(c, lpns, d0, ss[..n], before) && ss[..n][n - 1] == ss[n - 1]
      && ops == before + [last] && HostWrite(c, ss[n - 1], last.0, last.1, ss[n])
      && Replay(lpns, ops) == Replay(lpns, before)[last.0 := Some(last.1)]
  {
    hide HostWrite, Init;
    var n := |ops|;
    assert forall i :: 0 <= i < n ==> HostWrite(c, ss[i], ops[i].0, ops[i].1, ss[i + 1]);
    forall i | 0 <= i < n - 1 ensures HostWrite(c, ss[..n][i], ops[..n - 1][i].0, ops[..n - 1][i].1, ss[..n][i + 1]) {
      assert HostWrite(c, ss[i], ops[i].0, ops[i].1, ss[i + 1]);
    }
  }

  lemma InitLength<D>(c: Config, lpns: nat, d0: D)
    requires c.T >= 2
    ensures |Init(c, lpns, d0).maptbl| == lpns
  {
  }

  lemma ViewLength<D>(s: State<D>)
    ensures |View(s)| == |s.maptbl|
  {
  }

  lemma LpnsStep<D>(before: seq<(nat, D)>, last: (nat, D))
    ensures Lpns(before + [last]) == Lpns(before) + {last.0}
  {
    var ops := before + [last];
    forall l: nat | l in Lpns(before) + {last.0} ensures l in Lpns(ops) {
      if l in Lpns(before) {
        var i :| 0 <= i < |before| && before[i].0 == l;
        assert ops[i].0 == l;
      } else {
        assert ops[|before|].0 == l;
      }
    }
  }

  lemma AnyCanWrite<D>(c: Config, s: State<D>, lpns: nat)
    requires Good(c, s) && |s.maptbl| >= lpns
    ensures forall lpn: nat :: lpn < lpns ==> CanWrite(c, s, lpn)
  {
    forall lpn: nat | lpn < lpns ensures CanWrite(c, s, lpn) {
      CanWriteOk(c, s, lpn);
    }
  }
}
