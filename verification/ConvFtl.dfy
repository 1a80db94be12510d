// conv_ftl.c as a class: the mapping tables, the page states, the line lists, the victim
// heap, the two write pointers and the write credits, updated in place.  Every method is
// tied to a step of FtlModel through the abstraction S().
module ConvFtl {
  import opened Wrappers
  import opened Collections
  import opened Geometry
  import opened FtlModel
  import opened FtlRuns
  import opened VictimQueue
  import opened GcOrder
  import opened BlockCounts

  // wp.curline is the line with id blk.
  datatype WritePointer = WritePointer(ch: nat, lun: nat, pg: nat, blk: nat)

  ghost function RowsOf<A>(a: seq<A>, lay: seq<seq<nat>>): seq<seq<A>>
    requires forall l, o :: 0 <= l < |lay| && 0 <= o < |lay[l]| ==> lay[l][o] < |a|
  {
    seq(|lay|, l requires 0 <= l < |lay| => RowOf(a, lay[l]))
  }

  ghost function RowOf<A>(a: seq<A>, row: seq<nat>): seq<A>
    requires forall o :: 0 <= o < |row| ==> row[o] < |a|
  {
    seq(|row|, o requires 0 <= o < |row| => a[row[o]])
  }

  // Writing one page entry changes one cell.
  lemma RowsUpdate<A>(a: seq<A>, lay: seq<seq<nat>>, lines: nat, pages: nat, p: Page, v: A)
    requires LayoutOk(lay, lines, pages, |a|) && p.line < lines && p.ord < pages
    ensures |RowsOf(a, lay)| == lines && |RowsOf(a, lay)[p.line]| == pages
    ensures RowsOf(a[lay[p.line][p.ord] := v], lay) == SetCell(RowsOf(a, lay), p, v)
    ensures Cell(RowsOf(a, lay), p) == a[lay[p.line][p.ord]]
  {
    var n, b := lay[p.line][p.ord], a[lay[p.line][p.ord] := v];
    var r, t := RowsOf(b, lay), SetCell(RowsOf(a, lay), p, v);
    forall l | 0 <= l < lines ensures r[l] == t[l] {
      forall o | 0 <= o < pages ensures r[l][o] == t[l][o] {
        assert r[l][o] == b[lay[l][o]];
      }
      assert |r[l]| == |t[l]|;
    }
  }

  lemma ConstantRows<A>(a: seq<A>, lay: seq<seq<nat>>, v: A, lines: nat, pages: nat)
    requires LayoutOk(lay, lines, pages, |a|) && forall i :: 0 <= i < |a| ==> a[i] == v
    ensures RowsOf(a, lay) == seq(lines, _ => seq(pages, _ => v))
  {
    forall l | 0 <= l < lines ensures RowsOf(a, lay)[l] == seq(pages, _ => v) {
    }
  }

  // Before the write pointers are prepared, all lines are free.
  ghost function Blank<D>(c: Config, lpns: nat, d0: D): State<D>
    requires c.T >= 2
  {
    Init(c, lpns, d0).(free := seq(c.T, i => i), wp := Page(0, 0), gcWp := Page(0, 0))
  }

  lemma InitFromBlank<D>(c: Config, lpns: nat, d0: D)
    requires c.T >= 2
    ensures var b := Blank(c, lpns, d0); var s1 := SetWp(b, UserIo, Page(b.free[0], 0)).(free := b.free[1..]);
      SetWp(s1, GcIo, Page(s1.free[0], 0)).(free := s1.free[1..]) == Init(c, lpns, d0)
  {
    assert seq(c.T, i => i)[1..][1..] == seq(c.T - 2, i => i + 2);
  }

  lemma FullLine<D>(c: Config, s: State<D>, l: nat)
    requires Inv(c, s, -1, {}) && l < c.T
    ensures l < |s.vpc| && NoDup(s.full)
    ensures s.vpc[l] == c.P ==> l in s.full && l !in s.victims
  {
    FullIffAllValid(c, s, l);
  }

  // The counters of a line with a valid page, as mark_page_invalid asserts them.
  lemma ValidPageBounds<D>(c: Config, s: State<D>, p: Page)
    requires Inv(c, s, -1, {}) && InStatus(s, p) && Cell(s.status, p) == Status.Valid
    ensures p.line < |s.ipc| && 0 <= s.ipc[p.line] < c.P && 0 < s.vpc[p.line] <= c.P
    ensures s.vpc[p.line] == c.P ==> s.ipc[p.line] == 0
  {
    var row := s.status[p.line];
    assert p.ord in Ords(row, Status.Valid);
    OrdsBound(row, Status.Valid);
    OrdsBound(row, Invalid);
    if s.vpc[p.line] == c.P { assert Ords(row, Invalid) == {}; }
  }

  // The open line is not a victim, it counts the pages before the pointer and the page under the
  // pointer is free; the first free line exists.
  ghost predicate PointerOk<D>(c: Config, s: State<D>, io: IoType) {
    var p := Wp(s, io);
    && p.line !in s.victims && (s.free != [] ==> s.free[0] < c.T)
    && InStatus(s, p) && Cell(s.status, p) == Free
    && 0 <= s.vpc[p.line] && 0 <= s.ipc[p.line] && s.vpc[p.line] + s.ipc[p.line] == p.ord < c.P
  }

  // The open line counts its pages up to the one under the pointer.
  ghost predicate LineFilled<D>(s: State<D>, io: IoType) {
    var l := Wp(s, io).line;
    l < |s.vpc| && l < |s.ipc| && 0 <= s.vpc[l] && 0 <= s.ipc[l] && s.vpc[l] + s.ipc[l] == Wp(s, io).ord + 1
  }

  lemma InstallFills<D>(c: Config, s: State<D>, io: IoType, lpn: nat, d: D)
    requires lpn < |s.maptbl| && InBounds(s, Wp(s, io)) && PointerOk(c, s, io)
    ensures LineFilled(Install(s, io, lpn, d), io)
  {
  }

  lemma FilledCount(row: seq<Status>, n: nat)
    requires FilledUpTo(row, n) && n <= |row|
    ensures |Ords(row, Status.Valid)| + |Ords(row, Invalid)| == n
  {
    assert Ords(row, Status.Valid) + Ords(row, Invalid) == Below(n);
  }

  lemma InvPointerOk<D>(c: Config, s: State<D>, x: int, todo: set<nat>, io: IoType)
    requires Inv(c, s, x, todo)
    ensures PointerOk(c, s, io)
  {
    if s.free != [] { assert s.free[0] in s.free; }
    FilledCount(s.status[Wp(s, io).line], Wp(s, io).ord);
  }

  // A page not visited yet is not free, and valid exactly when it is still to be copied.
  ghost predicate Pending<D>(s: State<D>, v: nat, todo: set<nat>, o: nat) {
    && v < |s.status| && o < |s.status[v]| && s.status[v][o] != Free
    && (s.status[v][o] == Status.Valid <==> o in todo)
  }

  lemma FlashIsPage(g: Geo, ppa: Ppa, i: nat)
    requires g.Valid()
    ensures PageOf(g, Ppa(ppa.ch, ppa.lun, ppa.blk, ppa.pg + i)) == Page(ppa.blk, FlashOrd(g, CoordOf(ppa), i))
  {
  }

  ghost predicate NotValid<D>(s: State<D>, v: nat, o: nat) {
    v < |s.status| && o < |s.status[v]| && s.status[v][o] != Status.Valid
  }

  ghost predicate NotFree<D>(s: State<D>, v: nat, o: nat) {
    v < |s.status| && o < |s.status[v]| && s.status[v][o] != Free
  }

  lemma PendingNotFree<D>(g: Geo, s: State<D>, v: nat, todo: set<nat>, c: Coord)
    requires g.Valid()
    requires forall i :: 0 <= i < g.pgsPerFlashpg ==> Pending(s, v, todo, FlashOrd(g, c, i))
    ensures forall i :: 0 <= i < g.pgsPerFlashpg ==> NotFree(s, v, FlashOrd(g, c, i))
  {
    hide FlashOrd;
  }

  lemma NothingPending<D>(g: Geo, s: State<D>, v: nat, todo: set<nat>, c: Coord)
    requires g.Valid()
    requires forall i :: 0 <= i < g.pgsPerFlashpg ==> Pending(s, v, todo, FlashOrd(g, c, i))
    requires forall i :: 0 <= i < g.pgsPerFlashpg ==> NotValid(s, v, FlashOrd(g, c, i))
    ensures todo - Flash(g, c, g.pgsPerFlashpg) == todo
  {
    hide FlashOrd;
  }

  lemma FlashFits(g: Geo, f: nat)
    requires g.Valid() && f < g.flashpgsPerBlk
    ensures f * g.pgsPerFlashpg + g.pgsPerFlashpg <= g.PgsPerBlk()
    ensures f * g.pgsPerFlashpg < g.PgsPerBlk()
  {
    assert (f + 1) * g.pgsPerFlashpg <= g.flashpgsPerBlk * g.pgsPerFlashpg;
  }

  ghost predicate NoneFree(row: seq<Status>) {
    forall o :: 0 <= o < |row| ==> row[o] != Free
  }

  lemma PendingAll<D>(g: Geo, s: State<D>, v: nat, row0: seq<Status>, f: nat, ch: nat, lun: nat)
    requires g.Valid() && |row0| == g.PgsPerLine() && NoneFree(row0)
    requires f < g.flashpgsPerBlk && ch < g.nchs && lun < g.lunsPerCh
    requires v < |s.status| && s.status[v] == RowAt(g, row0, f, ch, lun)
    ensures forall i :: 0 <= i < g.pgsPerFlashpg ==>
              Pending(s, v, TodoAt(g, row0, f, ch, lun), FlashOrd(g, Coord(ch, lun, f * g.pgsPerFlashpg), i))
  {
    forall i | 0 <= i < g.pgsPerFlashpg
      ensures Pending(s, v, TodoAt(g, row0, f, ch, lun), FlashOrd(g, Coord(ch, lun, f * g.pgsPerFlashpg), i))
    {
      FlashPending(g, row0, f, ch, lun, i);
    }
  }

  lemma RowAtLength(g: Geo, row0: seq<Status>, f: nat, ch: nat, lun: nat)
    requires g.Valid()
    ensures |RowAt(g, row0, f, ch, lun)| == |row0|
  {
  }

  lemma CollectingRole<D>(c: Config, s0: State<D>, v: nat, s: State<D>, todo: set<nat>)
    requires Collecting(c, s0, v, s, todo)
    ensures v !in s.victims && v < c.T
  {
  }

  lemma VictimLine<D>(c: Config, s: State<D>, v: nat)
    requires Inv(c, s, -1, {}) && v in s.victims
    ensures v < c.T && |s.status| == |s.ipc| == c.T && |s.status[v]| == c.P && NoneFree(s.status[v])
  {
  }

  lemma PaidAfter<D>(c: Config, s: State<D>, lpn: nat, d: D)
    requires Good(c, s) && CanWrite(c, s, lpn)
    ensures Paid(c, WritePage(c, s, lpn, d))
  {
    hide Inv, Core, WritePage, CanWrite, LastIsMapped;
    WritePageOk(c, s, lpn, d);
    WriteLeavesMapped(c, s, lpn, d);
  }

  lemma VictimsHaveRoom<D>(c: Config, s: State<D>)
    requires Paid(c, s)
    ensures forall v :: v in s.victims ==> HasRoom(c, s, v)
  {
    hide Inv, Core;
    forall v | v in s.victims ensures HasRoom(c, s, v) {
      BudgetHasRoom(c, s, v);
    }
  }

  // After the old page has been retired there is still a page to write to.
  lemma RetiredPointerOk<D>(c: Config, s: State<D>, lpn: nat)
    requires Good(c, s) && CanWrite(c, s, lpn)
    ensures var t := if s.maptbl[lpn].Some? then Invalidate(c, s, lpn) else s;
      CanPlace(c, t, UserIo, lpn) && PointerOk(c, t, UserIo)
  {
    if s.maptbl[lpn].Some? {
      UnmapInv(c, s, lpn);
      InvPointerOk(c, Unmap(c, s, lpn), -1, {}, UserIo);
    } else {
      InvPointerOk(c, s, -1, {}, UserIo);
    }
  }

  // The first page of a line.
  lemma FirstPage(g: Geo)
    requires g.Valid()
    ensures Ord(g, Coord(0, 0, 0)) == 0 && ValidCoord(g, Coord(0, 0, 0))
  {
  }

  lemma SameBlock(g: Geo, p: Ppa, q: Ppa)
    requires p == q.(pg := p.pg)
    ensures BlkIdx(g, p) == BlkIdx(g, q)
  {
  }

  function PageOf(g: Geo, p: Ppa): Page
    requires g.pgsPerOneshotpg >= 1
  {
    Page(p.blk, Ord(g, CoordOf(p)))
  }

  ghost function MapOf(g: Geo, m: seq<Option<Ppa>>): seq<Option<Page>>
    requires g.pgsPerOneshotpg >= 1
  {
    seq(|m|, i requires 0 <= i < |m| => match m[i] case None => None case Some(p) => Some(PageOf(g, p)))
  }

  function PpaUnder(w: WritePointer): Ppa {
    Ppa(w.ch, w.lun, w.blk, w.pg)
  }

  // Counters, all at zero.
  method Zeros(n: nat) returns (a: array<int>)
    ensures fresh(a) && a.Length == n && forall i :: 0 <= i < n ==> a[i] == 0
  {
    a := new int[n](_ => 0);
  }

  method BlankBlocks(g: Geo) returns (v: array<int>, i: array<int>, e: array<int>)
    ensures fresh(v) && fresh(i) && fresh(e) && v != i && v != e && i != e
    ensures v.Length == i.Length == e.Length == g.TtBlks()
    ensures forall b :: 0 <= b < g.TtBlks() ==> v[b] == 0 && i[b] == 0 && e[b] == 0
  {
    v := Zeros(g.TtBlks());
    i := Zeros(g.TtBlks());
    e := Zeros(g.TtBlks());
  }

  // conv_init_ftl
  method ConvInitFtl<D>(g: Geo, ghost d0: D) returns (f: ConvFtl<D>)
    requires g.Valid() && g.TtLines() >= 2
    ensures fresh(f) && f.g == g && f.Valid()
    ensures f.S() == Init(f.C(), g.TtPgs(), d0)
  {
    f := new ConvFtl(g, d0);
    f.PrepareWritePointer(UserIo);
    f.PrepareWritePointer(GcIo);
    InitFromBlank(f.C(), g.TtPgs(), d0);
  }

  class ConvFtl<D> {
    const g: Geo
    ghost const lay: seq<seq<nat>>
    const maptbl: array<Option<Ppa>>
    const rmap: array<int>
    const status: array<Status>
    const vpc: array<int>
    const ipc: array<int>
    const blkVpc: array<int>
    const blkIpc: array<int>
    const blkEraseCnt: array<int>
    const pos: array<nat>
    const victimLinePq: PQueue
    var freeLineList: seq<nat>
    var fullLineList: seq<nat>
    var freeLineCnt: int
    var fullLineCnt: int
    var victimLineCnt: int
    var wp: WritePointer
    var gcWp: WritePointer
    var writeCredits: int
    var creditsToRefill: int
    ghost var data: seq<seq<D>>   // what is stored in each physical page

    ghost function C(): Config {
      Config(g.TtLines(), g.PgsPerLine())
    }

    ghost predicate Wired() {
      && g.Valid() && lay == Layout(g)
      && maptbl.Length == rmap.Length == status.Length == g.TtPgs()
      && vpc.Length == ipc.Length == pos.Length == g.TtLines()
      && blkVpc.Length == blkIpc.Length == blkEraseCnt.Length == g.TtBlks()
      && rmap != vpc && rmap != ipc && vpc != ipc
      && blkVpc != rmap && blkVpc != vpc && blkVpc != ipc
      && blkIpc != rmap && blkIpc != vpc && blkIpc != ipc && blkIpc != blkVpc
      && blkEraseCnt !in {rmap, vpc, ipc, blkVpc, blkIpc}
      && victimLinePq.pri == vpc && victimLinePq.pos == pos
      && victimLinePq.d != pos
    }

    ghost function Repr(): set<object> {
      {this, maptbl, rmap, status, vpc, ipc, blkVpc, blkIpc, blkEraseCnt, pos, victimLinePq, victimLinePq.d}
    }

    ghost predicate Valid()
      reads Repr()
    {
      && Wired()
      && LayoutOk(lay, g.TtLines(), g.PgsPerLine(), g.TtPgs())
      && victimLinePq.Valid()
      && (forall i :: 0 <= i < maptbl.Length && maptbl[i].Some? ==> ValidPpa(g, maptbl[i].value))
      && ValidPpa(g, PpaUnder(wp)) && ValidPpa(g, PpaUnder(gcWp))
      && freeLineCnt == |freeLineList| && fullLineCnt == |fullLineList|
      && victimLineCnt == |victimLinePq.Elems()|
      && BlocksOk(g, status[..], blkVpc[..], blkIpc[..])
    }

    // The abstract state.
    ghost function S(): State<D>
      requires Valid()
      reads Repr()
    {
      State(
        MapOf(g, maptbl[..]), RowsOf(status[..], lay), RowsOf(rmap[..], lay), data,
        vpc[..], ipc[..], freeLineList, fullLineList, victimLinePq.Elems(),
        PageOf(g, PpaUnder(wp)), PageOf(g, PpaUnder(gcWp)), writeCredits, creditsToRefill)
    }

    // init_maptbl, init_rmap, init_lines and init_write_flow_control
    constructor (g: Geo, ghost d0: D)
      requires g.Valid() && g.TtLines() >= 2
      ensures this.g == g
      ensures fresh(maptbl) && fresh(rmap) && fresh(status) && fresh(vpc) && fresh(ipc) && fresh(pos)
      ensures fresh(blkVpc) && fresh(blkIpc) && fresh(blkEraseCnt)
      ensures fresh(victimLinePq) && fresh(victimLinePq.d)
      ensures Valid() && S() == Blank(C(), g.TtPgs(), d0)
    {
      hide Layout, LayoutOk, PQueue.Valid, Ppa2PgIdx, RowsOf, PQueue.Elems, BlocksOk, Geo.TtBlks, Geo.TtPgs,
        Geo.PgsPerLine, Valid, S, Blank, Geo.Valid;
      var ttPgs, ttLines := g.TtPgs(), g.TtLines();
      this.g := g;
      lay := Layout(g);
      maptbl := new Option<Ppa>[ttPgs](_ => None);
      rmap := new int[ttPgs](_ => INVALID_LPN);
      status := new Status[ttPgs](_ => Free);
      var vpc0 := Zeros(ttLines);
      var pos0 := new nat[ttLines](_ => 0);
      vpc, pos := vpc0, pos0;
      var ipc0 := Zeros(ttLines);
      var blkVpc0, blkIpc0, blkEraseCnt0 := BlankBlocks(g);
      ipc, blkVpc, blkIpc, blkEraseCnt := ipc0, blkVpc0, blkIpc0, blkEraseCnt0;
      victimLinePq := new PQueue(vpc0, pos0);
      freeLineList := seq(ttLines, i => i);
      fullLineList := [];
      freeLineCnt, fullLineCnt, victimLineCnt := ttLines, 0, 0;
      wp, gcWp := WritePointer(0, 0, 0, 0), WritePointer(0, 0, 0, 0);
      writeCredits, creditsToRefill := g.PgsPerLine(), g.PgsPerLine();
      data := seq(ttLines, _ => seq(g.PgsPerLine(), _ => d0));
      new;
      AllBlank(d0);
    }

    lemma AllBlank(d0: D)
      requires Wired() && g.TtLines() >= 2 && victimLinePq.Valid() && victimLinePq.Elems() == {}
      requires forall i :: 0 <= i < g.TtPgs() ==> maptbl[i] == None && rmap[i] == INVALID_LPN && status[i] == Free
      requires forall l :: 0 <= l < g.TtLines() ==> vpc[l] == 0 && ipc[l] == 0
      requires forall b :: 0 <= b < g.TtBlks() ==> blkVpc[b] == 0 && blkIpc[b] == 0
      requires freeLineList == seq(g.TtLines(), i => i) && fullLineList == []
      requires freeLineCnt == g.TtLines() && fullLineCnt == 0 && victimLineCnt == 0
      requires wp == WritePointer(0, 0, 0, 0) && gcWp == WritePointer(0, 0, 0, 0)
      requires writeCredits == g.PgsPerLine() && creditsToRefill == g.PgsPerLine()
      requires data == seq(g.TtLines(), _ => seq(g.PgsPerLine(), _ => d0))
      ensures Valid() && S() == Blank(C(), g.TtPgs(), d0)
    {
      hide Layout, LayoutOk, PQueue.Valid, Ppa2PgIdx, RowsOf, PQueue.Elems, BlocksOk;
      LayoutIsOk(g);
      ConstantRows(status[..], lay, Free, g.TtLines(), g.PgsPerLine());
      ConstantRows(rmap[..], lay, INVALID_LPN, g.TtLines(), g.PgsPerLine());
      assert MapOf(g, maptbl[..]) == seq(g.TtPgs(), _ => None);
      BlankBlocksCounted(g, status[..], blkVpc[..], blkIpc[..]);
      FirstPage(g);
    }

    // prepare_write_pointer
    method PrepareWritePointer(io: IoType)
      requires Valid() && freeLineList != [] && freeLineList[0] < g.TtLines()
      modifies this
      ensures Valid()
      ensures S() == SetWp(old(S()), io, Page(old(freeLineList)[0], 0)).(free := old(freeLineList)[1..])
    {
      var curline := GetNextFreeLine();
      FirstPage(g);
      var w := WritePointer(0, 0, 0, curline.value);
      if io == UserIo { wp := w; } else { gcWp := w; }
    }

    function GetWp(io: IoType): WritePointer
      reads this
    {
      match io case UserIo => wp case GcIo => gcWp
    }

    // get_next_free_line
    method GetNextFreeLine() returns (line: Option<nat>)
      requires Valid()
      modifies this`freeLineList, this`freeLineCnt
      ensures Valid()
      ensures line.None? <==> old(S()).free == []
      ensures line.None? ==> S() == old(S())
      ensures line.Some? ==> line.value == old(S()).free[0] && S() == old(S()).(free := old(S()).free[1..])
    {
      if freeLineList == [] {
        return None;
      }
      line := Some(freeLineList[0]);
      freeLineList := freeLineList[1..];
      freeLineCnt := freeLineCnt - 1;
    }

    // line->vpc = v for a line outside the heap
    method SetVpc(line: nat, v: int)
      requires Valid() && line < vpc.Length && line !in victimLinePq.Elems()
      modifies vpc
      ensures Valid() && vpc[..] == old(vpc[..])[line := v]
      ensures S() == old(S()).(vpc := old(S()).vpc[line := v])
    {
      ghost var k := victimLinePq.Keys();
      vpc[line] := v;
      assert victimLinePq.Keys() == k;
    }

    // mark_page_valid, with its assertions as conditions on the caller
    method MarkPageValid(ppa: Ppa)
      requires Valid() && ValidPpa(g, ppa) && ppa.blk !in S().victims
      requires GetStatus(ppa) == Free && 0 <= S().vpc[ppa.blk] < C().P
      modifies status, blkVpc, blkIpc, vpc
      ensures Valid()
      ensures InStatus(old(S()), PageOf(g, ppa))
      ensures S() == MarkValid(old(S()), PageOf(g, ppa))
    {
      SetStatus(ppa, Status.Valid);
      SetVpc(ppa.blk, vpc[ppa.blk] + 1);
    }

    // pg->status = st and the counters of the block, inside the ranges the code asserts.  A free
    // page turns valid, a valid one invalid.
    method SetStatus(ppa: Ppa, st: Status)
      requires Valid() && ValidPpa(g, ppa)
      requires (GetStatus(ppa) == Free && st == Status.Valid) || (GetStatus(ppa) == Status.Valid && st == Invalid)
      modifies status, blkVpc, blkIpc
      ensures Valid()
      ensures InStatus(old(S()), PageOf(g, ppa))
      ensures S() == old(S()).(status := SetCell(old(S()).status, PageOf(g, ppa), st))
    {
      hide BlocksOk, BlkIdx, Ppa2PgIdx, Layout, PQueue.Valid;
      LayoutAt(g, ppa);
      RowsUpdate(status[..], lay, g.TtLines(), g.PgsPerLine(), PageOf(g, ppa), st);
      SetPage(ppa, st);
    }

    method SetPage(ppa: Ppa, st: Status)
      requires Wired() && ValidPpa(g, ppa) && BlocksOk(g, status[..], blkVpc[..], blkIpc[..])
      requires Ppa2PgIdx(g, ppa) < status.Length
      requires var was := status[Ppa2PgIdx(g, ppa)];
        (was == Free && st == Status.Valid) || (was == Status.Valid && st == Invalid)
      modifies status, blkVpc, blkIpc
      ensures status[..] == old(status[..])[Ppa2PgIdx(g, ppa) := st]
      ensures BlocksOk(g, status[..], blkVpc[..], blkIpc[..])
    {
      hide BlocksOk, BlkIdx, Ppa2PgIdx, Layout, PQueue.Valid, Geo.PgsPerBlk, Geo.TtPgs, Geo.TtBlks;
      BlkIdxOk(g, ppa);
      var n, b := Ppa2PgIdx(g, ppa), BlkIdx(g, ppa);
      ghost var rows, v, i := status[..], blkVpc[..], blkIpc[..];
      status[n] := st;
      assert status[..] == rows[n := st];
      if st == Status.Valid {
        FreePageCounted(g, rows, v, i, ppa);
        assert 0 <= blkVpc[b] < g.PgsPerBlk();
        blkVpc[b] := blkVpc[b] + 1;
        assert blkVpc[..] == v[b := v[b] + 1];
      } else {
        ValidPageCounted(g, rows, v, i, ppa);
        assert 0 <= blkIpc[b] < g.PgsPerBlk();
        blkIpc[b] := blkIpc[b] + 1;
        assert 0 < blkVpc[b] <= g.PgsPerBlk();
        blkVpc[b] := blkVpc[b] - 1;
        assert blkVpc[..] == v[b := v[b] - 1] && blkIpc[..] == i[b := i[b] + 1];
      }
    }

    // What the counters of a block count, in every valid state, also while its line is being
    // collected.
    lemma BlockCounted(ppa: Ppa)
      requires Valid() && ValidPpa(g, ppa)
      ensures BlkIdx(g, ppa) < g.TtBlks()
      ensures blkVpc[BlkIdx(g, ppa)] == |PagesInState(ppa, Status.Valid)|
      ensures blkIpc[BlkIdx(g, ppa)] == |PagesInState(ppa, Invalid)|
    {
      hide Ppa2PgIdx, BlkIdx, Layout, LayoutOk, PQueue.Valid, Geo.PgsPerBlk, Geo.TtBlks, BlockRow;
      BlkIdxOk(g, ppa);
      assert BlockOk(g, status[..], blkVpc[BlkIdx(g, ppa)], blkIpc[BlkIdx(g, ppa)], BlkIdx(g, ppa));
      SamePages(ppa, Status.Valid);
      SamePages(ppa, Invalid);
    }

    ghost function PagesInState(ppa: Ppa, st: Status): set<nat>
      requires Valid() && ValidPpa(g, ppa)
      reads Repr()
    {
      set pg: nat | pg < g.PgsPerBlk() && GetStatus(Ppa(ppa.ch, ppa.lun, ppa.blk, pg)) == st
    }

    lemma SamePages(ppa: Ppa, st: Status)
      requires Valid() && ValidPpa(g, ppa)
      ensures PagesInState(ppa, st) == Ords(BlockRow(g, status[..], BlkIdx(g, ppa)), st)
    {
      hide Ppa2PgIdx, BlkIdx, Layout, LayoutOk, PQueue.Valid, Geo.PgsPerBlk, BlockRow, BlocksOk;
      BlockRowLength(g, status[..], BlkIdx(g, ppa));
      forall pg: nat | pg < g.PgsPerBlk()
        ensures BlockRow(g, status[..], BlkIdx(g, ppa))[pg] == GetStatus(Ppa(ppa.ch, ppa.lun, ppa.blk, pg))
      {
        var q := Ppa(ppa.ch, ppa.lun, ppa.blk, pg);
        LayoutAt(g, q);
        assert BlkIdx(g, q) == BlkIdx(g, ppa) by { SameBlock(g, q, ppa); }
        BlockRowUpdate(g, status[..], q, Free, BlkIdx(g, ppa));
      }
    }

    // set_rmap_ent
    method SetRmapEnt(lpn: int, ppa: Ppa)
      requires Valid() && ValidPpa(g, ppa)
      modifies rmap
      ensures Valid()
      ensures ppa.blk < |old(S()).rmap| && PageOf(g, ppa).ord < |old(S()).rmap[ppa.blk]|
      ensures S() == old(S()).(rmap := SetCell(old(S()).rmap, PageOf(g, ppa), lpn))
    {
      LayoutAt(g, ppa);
      RowsUpdate(rmap[..], lay, g.TtLines(), g.PgsPerLine(), PageOf(g, ppa), lpn);
      rmap[Ppa2PgIdx(g, ppa)] := lpn;
    }

    // get_rmap_ent
    function GetRmapEnt(ppa: Ppa): (lpn: int)
      requires Valid() && ValidPpa(g, ppa)
      reads Repr()
      ensures ppa.blk < |S().rmap| && PageOf(g, ppa).ord < |S().rmap[ppa.blk]|
      ensures lpn == Cell(S().rmap, PageOf(g, ppa))
    {
      LayoutAt(g, ppa);
      RowsUpdate(rmap[..], lay, g.TtLines(), g.PgsPerLine(), PageOf(g, ppa), 0);
      rmap[Ppa2PgIdx(g, ppa)]
    }

    // pg->status
    function GetStatus(ppa: Ppa): (st: Status)
      requires Valid() && ValidPpa(g, ppa)
      reads Repr()
      ensures InStatus(S(), PageOf(g, ppa))
      ensures st == Cell(S().status, PageOf(g, ppa))
    {
      LayoutAt(g, ppa);
      RowsUpdate(status[..], lay, g.TtLines(), g.PgsPerLine(), PageOf(g, ppa), Free);
      status[Ppa2PgIdx(g, ppa)]
    }

    // set_maptbl_ent
    method SetMaptblEnt(lpn: nat, ppa: Ppa)
      requires Valid() && lpn < maptbl.Length && ValidPpa(g, ppa)
      modifies maptbl
      ensures Valid()
      ensures S() == old(S()).(maptbl := old(S()).maptbl[lpn := Some(PageOf(g, ppa))])
    {
      ghost var m := maptbl[..];
      maptbl[lpn] := Some(ppa);
      assert maptbl[..] == m[lpn := Some(ppa)];
      assert MapOf(g, maptbl[..]) == MapOf(g, m)[lpn := Some(PageOf(g, ppa))];
    }

    // The valid page count of a line drops; in the heap the line moves with it.
    method DropVpc(line: nat)
      requires Valid() && line < vpc.Length
      modifies vpc, pos, victimLinePq.d
      ensures Valid()
      ensures S() == old(S()).(vpc := old(S()).vpc[line := old(S()).vpc[line] - 1])
    {
      ghost var v := vpc[..];
      if pos[line] != 0 {
        victimLinePq.ChangePriority(vpc[line] - 1, line);
        assert vpc[..] == v[line := v[line] - 1];
      } else {
        SetVpc(line, vpc[line] - 1);
      }
    }

    // A full line with its first invalid page becomes a victim.
    method FullToVictim(line: nat)
      requires Valid() && line < vpc.Length
      requires line in fullLineList && NoDup(fullLineList) && line !in S().victims
      modifies this`fullLineList, this`fullLineCnt, this`victimLineCnt
      modifies pos, victimLinePq`size, victimLinePq.d
      ensures Valid()
      ensures S() == old(S()).(full := Remove(old(S()).full, line), victims := old(S()).victims + {line})
    {
      hide BlocksOk, LayoutOk, Remove, Ord, Ppa2PgIdx;
      RemoveElems(fullLineList, line);
      fullLineList := Remove(fullLineList, line);
      fullLineCnt := fullLineCnt - 1;
      victimLinePq.Insert(line);
      victimLineCnt := victimLineCnt + 1;
    }

    method RaiseIpc(line: nat)
      requires Valid() && line < ipc.Length
      modifies ipc
      ensures Valid()
      ensures S() == old(S()).(ipc := old(S()).ipc[line := old(S()).ipc[line] + 1])
    {
      ipc[line] := ipc[line] + 1;
    }

    lemma InvalidFacts(ppa: Ppa)
      requires Valid() && ValidPpa(g, ppa) && Inv(C(), S(), -1, {})
      requires GetStatus(ppa) == Status.Valid
      ensures ppa.blk < vpc.Length == ipc.Length == |S().vpc| == |S().ipc| && PageOf(g, ppa).line == ppa.blk
      ensures fullLineList == S().full && C().P == g.PgsPerLine()
      ensures 0 <= S().ipc[ppa.blk] < g.PgsPerLine() && 0 < S().vpc[ppa.blk] <= g.PgsPerLine()
      ensures S().vpc[ppa.blk] == g.PgsPerLine() ==>
        ppa.blk in fullLineList && NoDup(fullLineList) && ppa.blk !in S().victims && S().ipc[ppa.blk] == 0
    {
      FullLine(C(), S(), ppa.blk);
      ValidPageBounds(C(), S(), PageOf(g, ppa));
    }

    // mark_page_invalid
    method MarkPageInvalid(ppa: Ppa)
      requires Valid() && ValidPpa(g, ppa) && Inv(C(), S(), -1, {})
      requires GetStatus(ppa) == Status.Valid
      modifies this`fullLineList, this`fullLineCnt, this`victimLineCnt, status, blkVpc, blkIpc, vpc, ipc, pos
      modifies victimLinePq`size, victimLinePq.d
      ensures Valid()
      ensures InStatus(old(S()), PageOf(g, ppa))
      ensures S() == MarkInvalid(C(), old(S()), PageOf(g, ppa))
    {
      hide Valid, S, Inv;
      InvalidFacts(ppa);
      var line := ppa.blk;
      SetStatus(ppa, Invalid);
      assert 0 <= S().ipc[line] < g.PgsPerLine();
      var wasFullLine := Vpc(line) == g.PgsPerLine();
      if wasFullLine {
        assert S().ipc[line] == 0;
      }
      RaiseIpc(line);
      assert 0 < S().vpc[line] <= g.PgsPerLine();
      DropVpc(line);
      if wasFullLine {
        FullToVictim(line);
      }
    }

    function Vpc(line: nat): (v: int)
      requires Valid() && line < |S().vpc|
      reads Repr()
      ensures v == S().vpc[line]
    {
      vpc[line]
    }

    method PutWp(io: IoType, w: WritePointer)
      requires Valid() && ValidPpa(g, PpaUnder(w))
      modifies this`wp, this`gcWp
      ensures Valid()
      ensures S() == SetWp(old(S()), io, PageOf(g, PpaUnder(w)))
    {
      if io == UserIo { wp := w; } else { gcWp := w; }
    }

    lemma WpIs(io: IoType)
      requires Valid()
      ensures Wp(S(), io) == PageOf(g, PpaUnder(GetWp(io))) && ValidPpa(g, PpaUnder(GetWp(io)))
      ensures |S().vpc| == g.TtLines() == vpc.Length && g.Valid()
    {
    }

    // Where a write pointer stands: so many steps of the walk into its line.
    lemma PointerOnWalk(io: IoType)
      requires Valid()
      ensures Walk(g, Wp(S(), io).ord) == Some(CoordOf(PpaUnder(GetWp(io)))) && Wp(S(), io).line == GetWp(io).blk
    {
      hide S, Walk, Ord;
      WpIs(io);
      OrdIsWalk(g, CoordOf(PpaUnder(GetWp(io))));
    }

    // A used-up line goes to the full list or to the victim heap; the code asserts the counters.
    method RetireLine(line: nat)
      requires Valid() && line < vpc.Length && line !in S().victims
      requires if S().vpc[line] == C().P then S().ipc[line] == 0 else 0 <= S().vpc[line] < C().P && S().ipc[line] > 0
      modifies this`fullLineList, this`fullLineCnt, this`victimLineCnt
      modifies pos, victimLinePq`size, victimLinePq.d
      ensures Valid()
      ensures S() == if old(S()).vpc[line] == C().P then old(S()).(full := old(S()).full + [line])
                     else old(S()).(victims := old(S()).victims + {line})
    {
      if vpc[line] == g.PgsPerLine() {
        fullLineList := fullLineList + [line];
        fullLineCnt := fullLineCnt + 1;
      } else {
        victimLinePq.Insert(line);
        victimLineCnt := victimLineCnt + 1;
      }
    }

    lemma RetireFacts(io: IoType)
      requires Valid() && LineFilled(S(), io) && Wp(S(), io).ord + 1 == C().P
      ensures Wp(S(), io).line < vpc.Length && Wp(S(), io).line < |S().vpc| && Wp(S(), io).line < |S().ipc|
      ensures S().vpc[Wp(S(), io).line] == C().P ==> S().ipc[Wp(S(), io).line] == 0
      ensures S().vpc[Wp(S(), io).line] != C().P ==>
        0 <= S().vpc[Wp(S(), io).line] < C().P && S().ipc[Wp(S(), io).line] > 0
    {
    }

    // advance_write_pointer
    method AdvanceWritePointer(io: IoType)
      requires Valid() && Wp(S(), io).line < |S().vpc|
      requires Wp(S(), io).ord + 1 == C().P ==>
                 Wp(S(), io).line !in S().victims && S().free != [] && S().free[0] < C().T
      requires LineFilled(S(), io)
      modifies this`wp, this`gcWp, this`freeLineList, this`freeLineCnt
      modifies this`fullLineList, this`fullLineCnt, this`victimLineCnt
      modifies pos, victimLinePq`size, victimLinePq.d
      ensures Valid()
      ensures S() == Advance(C(), old(S()), io)
    {
      hide Valid, S, Ord, Geo.PgsPerLine, Geo.PgsPerBlk, Ppa2PgIdx, Next;
      WpIs(io);
      var wpp := GetWp(io);
      NextIsSuccessor(g, CoordOf(PpaUnder(wpp)));
      FirstPage(g);
      var next := Next(g, CoordOf(PpaUnder(wpp)));
      if next.Some? {
        PutWp(io, WritePointer(next.value.ch, next.value.lun, next.value.pg, wpp.blk));
      } else {
        RetireFacts(io);
        RetireLine(wpp.blk);
        var curline := GetNextFreeLine();
        PutWp(io, WritePointer(0, 0, 0, curline.value));
      }
    }

    // get_new_page
    function GetNewPage(io: IoType): Ppa
      reads this
    {
      PpaUnder(GetWp(io))
    }

    // set_maptbl_ent, set_rmap_ent and mark_page_valid for the page a write pointer stands at.
    method InstallPage(io: IoType, lpn: nat, ghost d: D) returns (ppa: Ppa)
      requires Valid() && lpn < |S().maptbl| && InBounds(S(), Wp(S(), io)) && PointerOk(C(), S(), io)
      modifies this`data, maptbl, rmap, status, blkVpc, blkIpc, vpc
      ensures Valid()
      ensures PageOf(g, ppa) == Wp(old(S()), io)
      ensures S() == Install(old(S()), io, lpn, d)
    {
      hide Valid, S;
      MapLength();
      WpIs(io);
      ppa := GetNewPage(io);
      SetMaptblEnt(lpn, ppa);
      SetRmapEnt(lpn, ppa);
      MarkPageValid(ppa);
      SetData(ppa, d);
    }

    // A page written through a write pointer, as conv_write and gc_write_page both do.
    method WriteThrough(io: IoType, lpn: nat, ghost d: D) returns (ppa: Ppa)
      requires Valid() && CanPlace(C(), S(), io, lpn) && PointerOk(C(), S(), io)
      modifies this, maptbl, rmap, status, vpc, blkVpc, blkIpc, pos, victimLinePq`size, victimLinePq.d
      ensures Valid()
      ensures PageOf(g, ppa) == Wp(old(S()), io)
      ensures S() == Place(C(), old(S()), io, lpn, d)
    {
      hide Valid, S, Advance;
      InstallFills(C(), S(), io, lpn, d);
      ppa := InstallPage(io, lpn, d);
      AdvanceWritePointer(io);
    }

    lemma MapLength()
      requires Valid()
      ensures |S().maptbl| == maptbl.Length
    {
    }

    ghost method SetData(ppa: Ppa, d: D)
      requires Valid() && InBounds(S(), PageOf(g, ppa))
      modifies this`data
      ensures Valid()
      ensures S() == old(S()).(data := SetCell(old(S()).data, PageOf(g, ppa), d))
    {
      data := SetCell(data, PageOf(g, ppa), d);
    }

    // gc_write_page
    method GcWritePage(oldPpa: Ppa)
      requires Valid() && ValidPpa(g, oldPpa)
      requires CanMove(C(), S(), oldPpa.blk, PageOf(g, oldPpa).ord) && PointerOk(C(), S(), GcIo)
      modifies this, maptbl, rmap, status, vpc, blkVpc, blkIpc, pos, victimLinePq`size, victimLinePq.d
      ensures Valid()
      ensures S() == CollectMove(C(), old(S()), oldPpa.blk, PageOf(g, oldPpa).ord)
    {
      hide Valid, S, Place;
      ghost var d := Cell(S().data, PageOf(g, oldPpa));
      var lpn := GetRmapEnt(oldPpa);
      var newPpa := WriteThrough(GcIo, lpn, d);
    }

    // select_victim_line: the line with the fewest valid pages, unless collection is not
    // forced and even that line holds too many.
    method SelectVictimLine(force: bool) returns (victim: Option<nat>)
      requires Valid()
      modifies this`victimLineCnt, pos, victimLinePq`size, victimLinePq.d
      ensures Valid()
      ensures victim.None? ==> S() == old(S())
      ensures victim.None? <==>
        (old(S()).victims == {} ||
         (!force && forall u :: u in old(S()).victims && u < |old(S()).vpc| ==> old(S()).vpc[u] > C().P / 8))
      ensures victim.Some? ==>
        IsVictim(old(S()), victim.value) && S() == old(S()).(victims := old(S()).victims - {victim.value})
    {
      victim := victimLinePq.Peek();
      if victim.None? {
        return;
      }
      if !force && vpc[victim.value] > g.PgsPerLine() / 8 {
        return None;
      }
      TakeVictim(victim.value);
    }

    method TakeVictim(line: nat)
      requires Valid() && S().victims != {} && victimLinePq.d.Length > 1 && line == victimLinePq.d[1]
      modifies this`victimLineCnt, pos, victimLinePq`size, victimLinePq.d
      ensures Valid()
      ensures S() == old(S()).(victims := old(S()).victims - {line})
    {
      ghost var e := victimLinePq.Elems();
      var head := victimLinePq.Pop();
      victimLinePq.ResetPos(line);
      assert victimLinePq.Elems() == e - {line};
      victimLineCnt := victimLineCnt - 1;
    }

    // The states line by line.
    ghost function StatusRows(): (rows: seq<seq<Status>>)
      requires Wired() && LayoutOk(lay, g.TtLines(), g.PgsPerLine(), g.TtPgs())
      reads status
      ensures |rows| == g.TtLines() && forall l :: 0 <= l < |rows| ==> |rows[l]| == g.PgsPerLine()
    {
      RowsOf(status[..], lay)
    }

    // One turn of the loop of mark_block_free.
    method ResetPage(ppa: Ppa)
      requires Wired() && LayoutOk(lay, g.TtLines(), g.PgsPerLine(), g.TtPgs()) && ValidPpa(g, ppa)
      modifies status
      ensures Ord(g, CoordOf(ppa)) < g.PgsPerLine()
      ensures StatusRows() == SetCell(old(StatusRows()), PageOf(g, ppa), Free)
      ensures BlockFreed(old(status[..]), ppa)
    {
      hide BlkIdx, Ppa2PgIdx, Layout, Geo.PgsPerBlk, Geo.PgsPerLine, BlockRow, Ord, Geo.TtPgs;
      OrdOk(g, CoordOf(ppa));
      LayoutAt(g, ppa);
      ghost var was, n := status[..], Ppa2PgIdx(g, ppa);
      RowsUpdate(was, lay, g.TtLines(), g.PgsPerLine(), PageOf(g, ppa), Free);
      status[Ppa2PgIdx(g, ppa)] := Free;
      assert status[..] == was[n := Free];
      forall b: nat ensures BlockFreedAt(was, ppa, b) {
        BlockRowUpdate(g, was, ppa, Free, b);
      }
    }

    // Of the states, one page of the block of ppa has become free.
    ghost predicate BlockFreed(was: seq<Status>, ppa: Ppa)
      reads status
    {
      forall b: nat :: BlockFreedAt(was, ppa, b)
    }

    ghost predicate BlockFreedAt(was: seq<Status>, ppa: Ppa, b: nat)
      reads status
    {
      && (b == BlkIdx(g, ppa) ==> ppa.pg < |BlockRow(g, was, b)|)
      && BlockRow(g, status[..], b) ==
         if b == BlkIdx(g, ppa) then BlockRow(g, was, b)[ppa.pg := Free] else BlockRow(g, was, b)
    }

    // n pages of the block of ppa are free, the other blocks are as they were.
    ghost predicate BlockResetTo(was: seq<Status>, ppa: Ppa, n: nat)
      reads status
    {
      && |BlockRow(g, status[..], BlkIdx(g, ppa))| == g.PgsPerBlk()
      && (forall k :: 0 <= k < n && k < g.PgsPerBlk() ==> BlockRow(g, status[..], BlkIdx(g, ppa))[k] == Free)
      && forall b: nat :: b != BlkIdx(g, ppa) ==> BlockRow(g, status[..], b) == BlockRow(g, was, b)
    }

    lemma ResetOne(was: seq<Status>, mid: seq<Status>, ppa: Ppa, i: nat, now: seq<Status>)
      requires now == status[..] && i < g.PgsPerBlk()
      requires BlockFreed(mid, Ppa(ppa.ch, ppa.lun, ppa.blk, i))
      requires |BlockRow(g, mid, BlkIdx(g, ppa))| == g.PgsPerBlk()
      requires forall k :: 0 <= k < i && k < g.PgsPerBlk() ==> BlockRow(g, mid, BlkIdx(g, ppa))[k] == Free
      requires forall b: nat :: b != BlkIdx(g, ppa) ==> BlockRow(g, mid, b) == BlockRow(g, was, b)
      ensures BlockResetTo(was, ppa, i + 1)
    {
      hide BlockRow, Geo.PgsPerBlk;
      var q := Ppa(ppa.ch, ppa.lun, ppa.blk, i);
      assert BlkIdx(g, q) == BlkIdx(g, ppa);
      assert BlockFreedAt(mid, q, BlkIdx(g, ppa));
      forall b: nat | b != BlkIdx(g, ppa) ensures BlockRow(g, status[..], b) == BlockRow(g, was, b) {
        assert BlockFreedAt(mid, q, b);
      }
    }

    // The loop of mark_block_free over the pages.
    method ResetPages(ppa: Ppa)
      requires Wired() && LayoutOk(lay, g.TtLines(), g.PgsPerLine(), g.TtPgs()) && ValidPpa(g, ppa)
      modifies status
      ensures var rows := old(StatusRows());
        StatusRows() == rows[ppa.blk := EraseBlock(g, rows[ppa.blk], ppa.ch, ppa.lun, g.PgsPerBlk())]
      ensures BlockResetTo(old(status[..]), ppa, g.PgsPerBlk())
    {
      hide BlkIdx, Ppa2PgIdx, Layout, LayoutOk, StatusRows, Geo.PgsPerBlk, Geo.PgsPerLine, EraseBlock, BlockRow, Ord,
        Geo.TtPgs, BlockFreed;
      ghost var was := status[..];
      ghost var rows := StatusRows();
      ghost var row := rows[ppa.blk];
      EraseStep(g, row, ppa.ch, ppa.lun, 0);
      assert rows[ppa.blk := row] == rows;
      BlockRowLength(g, was, BlkIdx(g, ppa));
      for i := 0 to g.PgsPerBlk()
        invariant StatusRows() == rows[ppa.blk := EraseBlock(g, row, ppa.ch, ppa.lun, i)]
        invariant BlockResetTo(was, ppa, i)
      {
        EraseStep(g, row, ppa.ch, ppa.lun, i);
        ghost var mid := status[..];
        ResetPage(Ppa(ppa.ch, ppa.lun, ppa.blk, i));
        ResetOne(was, mid, ppa, i, status[..]);
      }
    }

    // mark_block_free
    method MarkBlockFree(ppa: Ppa)
      requires Valid() && ValidPpa(g, ppa)
      modifies status, blkVpc, blkIpc, blkEraseCnt
      ensures Valid() && ppa.blk < |old(S()).status|
      ensures S() == Erase(old(S()), ppa.blk, EraseBlock(g, old(S()).status[ppa.blk], ppa.ch, ppa.lun, g.PgsPerBlk()))
      ensures BlkIdx(g, ppa) < |old(blkEraseCnt[..])|
      ensures blkEraseCnt[..] == old(blkEraseCnt[..])[BlkIdx(g, ppa) := old(blkEraseCnt[..])[BlkIdx(g, ppa)] + 1]
    {
      hide BlocksOk, BlkIdx, Ppa2PgIdx, Layout, PQueue.Valid, Geo.PgsPerBlk, Geo.PgsPerLine, EraseBlock, RowsOf, Ord,
        BlockRow;
      BlkIdxOk(g, ppa);
      var b := BlkIdx(g, ppa);
      ghost var rows, v, i := status[..], blkVpc[..], blkIpc[..];
      ResetPages(ppa);
      ErasedBlockCounted(g, rows, status[..], v, i, b);
      blkIpc[b] := 0;
      blkVpc[b] := 0;
      assert blkVpc[..] == v[b := 0] && blkIpc[..] == i[b := 0];
      blkEraseCnt[b] := blkEraseCnt[b] + 1;
    }

    lemma RowLength(l: nat)
      requires Valid() && l < g.TtLines()
      ensures g.Valid() && l < |S().status| && |S().status[l]| == g.PgsPerLine() && g.PgsPerBlk() >= 1
    {
    }

    // mark_line_free
    method MarkLineFree(line: nat)
      requires Valid() && line < g.TtLines() && line !in S().victims
      modifies this`freeLineList, this`freeLineCnt, vpc, ipc
      ensures Valid() && line < |old(S()).vpc| && line < |old(S()).ipc|
      ensures S() == CollectEnd(old(S()), line)
    {
      ipc[line] := 0;
      SetVpc(line, 0);
      freeLineList := freeLineList + [line];
      freeLineCnt := freeLineCnt + 1;
    }

    // One page of the copy loop: a valid page moves, any other was not to be copied anyway.
    method CleanOnePage(ppa: Ppa, ghost s0: State<D>, ghost todo: set<nat>)
      requires Valid() && ValidPpa(g, ppa)
      requires Collecting(C(), s0, ppa.blk, S(), todo) && HasRoom(C(), s0, ppa.blk)
      requires Pending(S(), ppa.blk, todo, PageOf(g, ppa).ord)
      modifies this, maptbl, rmap, status, vpc, blkVpc, blkIpc, pos, victimLinePq`size, victimLinePq.d
      ensures Valid()
      ensures Collecting(C(), s0, ppa.blk, S(), todo - {PageOf(g, ppa).ord})
      ensures ppa.blk < |S().status| && S().status[ppa.blk] == old(S()).status[ppa.blk]
    {
      hide Valid, S, Inv, Core, CanMove, CollectMove, Ord;
      ghost var o := PageOf(g, ppa).ord;
      if GetStatus(ppa) == Status.Valid {
        CollectMoveOk(C(), s0, ppa.blk, S(), todo, o);
        InvPointerOk(C(), S(), ppa.blk, todo, GcIo);
        MoveKeepsRow(C(), S(), ppa.blk, todo, o);
        GcWritePage(ppa);
      } else {
        assert todo - {o} == todo;
      }
    }

    // The state of page i of a flash page.
    function FlashStatus(ppa: Ppa, i: nat): (st: Status)
      requires Valid() && ValidPpa(g, ppa) && ppa.pg + i < g.PgsPerBlk()
      reads Repr()
      ensures NotFree(S(), ppa.blk, FlashOrd(g, CoordOf(ppa), i)) ==> st != Free
      ensures st != Status.Valid ==> NotValid(S(), ppa.blk, FlashOrd(g, CoordOf(ppa), i))
    {
      FlashIsPage(g, ppa, i);
      GetStatus(Ppa(ppa.ch, ppa.lun, ppa.blk, ppa.pg + i))
    }

    // The first loop of clean_one_flashpg: how many pages of the flash page are valid.  None is
    // free, as the code asserts.
    method CountValid(ppa: Ppa) returns (cnt: int)
      requires Valid() && ValidPpa(g, ppa) && ppa.pg + g.pgsPerFlashpg <= g.PgsPerBlk()
      requires forall i :: 0 <= i < g.pgsPerFlashpg ==> NotFree(S(), ppa.blk, FlashOrd(g, CoordOf(ppa), i))
      ensures cnt >= 0
      ensures cnt == 0 ==> forall i :: 0 <= i < g.pgsPerFlashpg ==> NotValid(S(), ppa.blk, FlashOrd(g, CoordOf(ppa), i))
    {
      hide S, NotFree, NotValid, FlashStatus, Flash, FlashOrd, Ord, Geo.PgsPerBlk;
      cnt := 0;
      for i := 0 to g.pgsPerFlashpg
        invariant cnt >= 0
        invariant cnt == 0 ==> forall j :: 0 <= j < i ==> NotValid(S(), ppa.blk, FlashOrd(g, CoordOf(ppa), j))
      {
        var st := FlashStatus(ppa, i);
        assert st != Free;
        if st == Status.Valid {
          cnt := cnt + 1;
        }
      }
    }

    // The second loop of clean_one_flashpg: copy the valid pages.
    method CopyFlashPg(ppa: Ppa, ghost s0: State<D>, ghost todo: set<nat>)
      requires FlashPgOk(ppa, s0, todo)
      modifies this, maptbl, rmap, status, vpc, blkVpc, blkIpc, pos, victimLinePq`size, victimLinePq.d
      ensures FlashPgDone(ppa, s0, todo, old(S()).status)
    {
      hide Valid, S, Collecting, Flash, FlashOrd, Ord, Geo.PgsPerBlk;
      RowLength(ppa.blk);
      ghost var c, rows := CoordOf(ppa), S().status;
      FlashStep(g, c, 0);
      assert todo - Flash(g, c, 0) == todo;
      for i := 0 to g.pgsPerFlashpg
        invariant Valid()
        invariant Collecting(C(), s0, ppa.blk, S(), todo - Flash(g, c, i))
        invariant ppa.blk < |S().status| && S().status[ppa.blk] == rows[ppa.blk]
      {
        FlashStep(g, c, i);
        FlashIsPage(g, ppa, i);
        FlashFresh(g, c, i);
        CleanOnePage(Ppa(ppa.ch, ppa.lun, ppa.blk, ppa.pg + i), s0, todo - Flash(g, c, i));
        assert todo - Flash(g, c, i) - {FlashOrd(g, c, i)} == todo - Flash(g, c, i + 1);
      }
    }

    // The pages of the flash page at ppa are still to be visited.
    ghost predicate FlashPgOk(ppa: Ppa, s0: State<D>, todo: set<nat>)
      reads Repr()
    {
      && Valid() && ValidPpa(g, ppa) && ppa.pg + g.pgsPerFlashpg <= g.PgsPerBlk()
      && Collecting(C(), s0, ppa.blk, S(), todo) && HasRoom(C(), s0, ppa.blk)
      && forall i :: 0 <= i < g.pgsPerFlashpg ==> Pending(S(), ppa.blk, todo, FlashOrd(g, CoordOf(ppa), i))
    }

    // They have been copied; the states of the line's own pages stayed what they were in rows.
    ghost predicate FlashPgDone(ppa: Ppa, s0: State<D>, todo: set<nat>, rows: seq<seq<Status>>)
      reads Repr()
    {
      && Valid() 
      && Collecting(C(), s0, ppa.blk, S(), todo - Flash(g, CoordOf(ppa), g.pgsPerFlashpg))
      && ppa.blk < |S().status| && ppa.blk < |rows| && S().status[ppa.blk] == rows[ppa.blk]
    }

    // clean_one_flashpg
    method CleanOneFlashPg(ppa: Ppa, ghost s0: State<D>, ghost todo: set<nat>)
      requires FlashPgOk(ppa, s0, todo)
      modifies this, maptbl, rmap, status, vpc, blkVpc, blkIpc, pos, victimLinePq`size, victimLinePq.d
      ensures FlashPgDone(ppa, s0, todo, old(S()).status)
    {
      hide Inv;
      RowLength(ppa.blk);
      ghost var rows := S().status;
      PendingNotFree(g, S(), ppa.blk, todo, CoordOf(ppa));
      var cnt := CountValid(ppa);
      if cnt <= 0 {
        NothingPending(g, S(), ppa.blk, todo, CoordOf(ppa));
        return;
      }
      assert S().status == rows;
      CopyFlashPg(ppa, s0, todo);
    }

    // Line v is being collected out of state s0, in which its page states were row0: `todo`
    // is still to be copied, and the page states are now `row`.
    ghost predicate GcState(s0: State<D>, v: nat, row0: seq<Status>, todo: set<nat>, row: seq<Status>)
      reads Repr()
    {
      && Valid() && v < g.TtLines() && |row0| == g.PgsPerLine()
      && HasRoom(C(), s0, v) && NoneFree(row0)
      && Collecting(C(), s0, v, S(), todo)
      && v < |S().status| && S().status[v] == row
    }

    // The loops of do_gc stand at flash page f, channel ch and LUN lun.
    ghost predicate GcAt(s0: State<D>, v: nat, row0: seq<Status>, f: nat, ch: nat, lun: nat)
      reads Repr()
    {
      g.Valid() && GcState(s0, v, row0, TodoAt(g, row0, f, ch, lun), RowAt(g, row0, f, ch, lun))
    }

    // The innermost body of do_gc.
    method GcOneFlashPg(ghost s0: State<D>, v: nat, ghost row0: seq<Status>, f: nat, ch: nat, lun: nat)
      requires GcAt(s0, v, row0, f, ch, lun)
      requires f < g.flashpgsPerBlk && ch < g.nchs && lun < g.lunsPerCh
      modifies this, maptbl, rmap, status, vpc, blkVpc, blkIpc, blkEraseCnt, pos, victimLinePq`size, victimLinePq.d
      ensures GcAt(s0, v, row0, f, ch, lun + 1)
    {
      hide GcState, S, TodoAt, RowAt, Flash, FlashOrd, Geo.PgsPerLine, Geo.PgsPerBlk;
      GcStateLength(s0, v, row0, TodoAt(g, row0, f, ch, lun), RowAt(g, row0, f, ch, lun));
      NextLun(g, row0, f, ch, lun);
      RowNextLun(g, row0, f, ch, lun);
      var ppa := Ppa(ch, lun, v, f * g.pgsPerFlashpg);
      GcClean(s0, ppa, row0, f);
      if f + 1 == g.flashpgsPerBlk {
        GcErase(s0, ppa, row0, f);
      }
    }

    lemma GcStateLength(s0: State<D>, v: nat, row0: seq<Status>, todo: set<nat>, row: seq<Status>)
      requires GcState(s0, v, row0, todo, row)
      ensures g.Valid() && v < g.TtLines() && |row0| == g.PgsPerLine()
    {
    }

    method GcClean(ghost s0: State<D>, ppa: Ppa, ghost row0: seq<Status>, ghost f: nat)
      requires GcAt(s0, ppa.blk, row0, f, ppa.ch, ppa.lun)
      requires f < g.flashpgsPerBlk && ppa.ch < g.nchs && ppa.lun < g.lunsPerCh && ppa.pg == f * g.pgsPerFlashpg
      modifies this, maptbl, rmap, status, vpc, blkVpc, blkIpc, pos, victimLinePq`size, victimLinePq.d
      ensures g.Valid()
      ensures GcState(s0, ppa.blk, row0, TodoAt(g, row0, f, ppa.ch, ppa.lun) - Flash(g, CoordOf(ppa), g.pgsPerFlashpg),
                      RowAt(g, row0, f, ppa.ch, ppa.lun))
    {
      hide Valid, S, Collecting, TodoAt, RowAt, Flash, FlashOrd, Geo.PgsPerLine, Geo.PgsPerBlk;
      FlashFits(g, f);
      PendingAll(g, S(), ppa.blk, row0, f, ppa.ch, ppa.lun);
      CleanOneFlashPg(ppa, s0, TodoAt(g, row0, f, ppa.ch, ppa.lun));
    }

    // After its last flash page the block of ppa is erased.
    method GcErase(ghost s0: State<D>, ppa: Ppa, ghost row0: seq<Status>, ghost f: nat)
      requires g.Valid() && ValidPpa(g, ppa) && f + 1 == g.flashpgsPerBlk && |row0| == g.PgsPerLine()
      requires GcState(s0, ppa.blk, row0, TodoAt(g, row0, f, ppa.ch, ppa.lun + 1), RowAt(g, row0, f, ppa.ch, ppa.lun))
      modifies status, blkVpc, blkIpc, blkEraseCnt
      ensures GcAt(s0, ppa.blk, row0, f, ppa.ch, ppa.lun + 1)
    {
      hide Valid, S, Collecting, TodoAt, RowAt, Flash, FlashOrd, Geo.PgsPerLine, Geo.PgsPerBlk;
      ghost var todo, row := TodoAt(g, row0, f, ppa.ch, ppa.lun + 1), RowAt(g, row0, f, ppa.ch, ppa.lun + 1);
      TodoIntact(g, row0, f, ppa.ch, ppa.lun + 1);
      RowNextLun(g, row0, f, ppa.ch, ppa.lun);
      RowAtLength(g, row0, f, ppa.ch, ppa.lun + 1);
      CollectEraseOk(C(), s0, ppa.blk, S(), todo, row);
      MarkBlockFree(ppa);
    }

    lemma GcBoundary(s0: State<D>, v: nat, row0: seq<Status>, f: nat, ch: nat)
      requires g.Valid() && f < g.flashpgsPerBlk
      ensures GcAt(s0, v, row0, f, ch, g.lunsPerCh) ==> GcAt(s0, v, row0, f, ch + 1, 0)
      ensures GcAt(s0, v, row0, f, g.nchs, 0) ==> GcAt(s0, v, row0, f + 1, 0, 0)
    {
      hide TodoAt, RowAt, Collecting, Valid, S;
      if |row0| == g.PgsPerLine() {
        NextChannel(g, row0, f, ch);
        NextFlash(g, row0, f);
      }
    }

    // The copy loops of do_gc.
    method CopyBack(ghost s0: State<D>, v: nat, ghost row0: seq<Status>)
      requires g.Valid() && GcAt(s0, v, row0, 0, 0, 0)
      modifies this, maptbl, rmap, status, vpc, blkVpc, blkIpc, blkEraseCnt, pos, victimLinePq`size, victimLinePq.d
      ensures GcAt(s0, v, row0, g.flashpgsPerBlk, 0, 0)
    {
      hide GcAt, Geo.PgsPerBlk;
      for f := 0 to g.flashpgsPerBlk
        invariant GcAt(s0, v, row0, f, 0, 0)
      {
        for ch := 0 to g.nchs
          invariant GcAt(s0, v, row0, f, ch, 0)
        {
          for lun := 0 to g.lunsPerCh
            invariant GcAt(s0, v, row0, f, ch, lun)
          {
            GcOneFlashPg(s0, v, row0, f, ch, lun);
          }
          GcBoundary(s0, v, row0, f, ch);
        }
        GcBoundary(s0, v, row0, f, 0);
      }
    }

    // do_gc
    method DoGc(force: bool) returns (r: int)
      requires Valid() && Inv(C(), S(), -1, {})
      requires forall v :: v in S().victims ==> HasRoom(C(), S(), v)
      modifies this, maptbl, rmap, status, vpc, ipc, blkVpc, blkIpc, blkEraseCnt, pos
      modifies victimLinePq`size, victimLinePq.d
      ensures Valid()
      ensures r == -1 || r == 0
      ensures r == -1 ==> S() == old(S())
      ensures r == -1 <==>
        (old(S()).victims == {} ||
         (!force && forall u :: u in old(S()).victims && u < |old(S()).vpc| ==> old(S()).vpc[u] > C().P / 8))
      ensures r == 0 ==> exists v :: IsVictim(old(S()), v) && Collected(C(), old(S()), v, S())
    {
      hide Valid, S, Inv, Collected, Core;
      ghost var s0 := S();
      var victim := SelectVictimLine(force);
      if victim.None? {
        return -1;
      }
      CollectVictim(s0, victim.value);
      r := 0;
    }

    // do_gc from the choice of the victim on.
    method CollectVictim(ghost s0: State<D>, v: nat)
      requires Valid() && Inv(C(), s0, -1, {}) && HasRoom(C(), s0, v)
      requires v in s0.victims && S() == s0.(victims := s0.victims - {v})
      modifies this, maptbl, rmap, status, vpc, ipc, blkVpc, blkIpc, blkEraseCnt, pos
      modifies victimLinePq`size, victimLinePq.d
      ensures Valid() && Collected(C(), s0, v, S())
    {
      ghost var row0 := StartGc(s0, v);
      CopyBack(s0, v, row0);
      GcFinish(s0, v, row0);
    }

    // credits_to_refill is the number of invalid pages of the victim.
    method StartGc(ghost s0: State<D>, v: nat) returns (ghost row0: seq<Status>)
      requires Valid() && Inv(C(), s0, -1, {}) && HasRoom(C(), s0, v)
      requires v in s0.victims && S() == s0.(victims := s0.victims - {v})
      modifies this`creditsToRefill
      ensures GcAt(s0, v, row0, 0, 0, 0)
    {
      hide Core, Mapping, Counts, Rows, Collecting, TodoAt, RowAt;
      VictimLine(C(), s0, v);
      CollectBeginOk(C(), s0, v);
      row0 := s0.status[v];
      creditsToRefill := ipc[v];
      assert S() == CollectBegin(s0, v);
      Start(g, row0);
    }

    // After the copy loops: mark_line_free.
    method GcFinish(ghost s0: State<D>, v: nat, ghost row0: seq<Status>)
      requires GcAt(s0, v, row0, g.flashpgsPerBlk, 0, 0)
      modifies this`freeLineList, this`freeLineCnt, vpc, ipc
      ensures Valid() && Collected(C(), s0, v, S())
    {
      hide Valid, S, Inv, Core, TodoAt, RowAt, View;
      Finish(g, row0);
      CollectEndOk(C(), s0, v, S());
      CollectingRole(C(), s0, v, S(), {});
      MarkLineFree(v);
    }

    // should_gc_high
    predicate ShouldGcHigh()
      reads this
    {
      freeLineCnt <= GC_THRES_LINES_HIGH
    }

    // foreground_gc
    method ForegroundGc()
      requires Valid() && Paid(C(), S())
      modifies this, maptbl, rmap, status, vpc, ipc, blkVpc, blkIpc, blkEraseCnt, pos
      modifies victimLinePq`size, victimLinePq.d
      ensures Valid() && FtlRuns.ForegroundGc(C(), old(S()), S())
    {
      FreeCount();
      VictimsHaveRoom(C(), S());
      hide Valid, S, Inv, Collected;
      if ShouldGcHigh() {
        var r := DoGc(true);
      }
    }

    lemma FreeCount()
      requires Valid()
      ensures freeLineCnt == |S().free| && writeCredits == S().credits && creditsToRefill == S().refill
      ensures maptbl.Length == |S().maptbl|
    {
    }

    // check_and_refill_write_credit
    method CheckAndRefillWriteCredit()
      requires Valid() && Paid(C(), S())
      modifies this, maptbl, rmap, status, vpc, ipc, blkVpc, blkIpc, blkEraseCnt, pos
      modifies victimLinePq`size, victimLinePq.d
      ensures Valid() && RefillCredits(C(), old(S()), S())
    {
      hide Valid, S, Paid, FtlRuns.ForegroundGc;
      ghost var s0 := S();
      FreeCount();
      if writeCredits <= 0 {
        ForegroundGc();
        ghost var g1 := S();
        FreeCount();
        AddCredits(creditsToRefill);
        assert S().(credits := S().credits - S().refill) == g1;
      }
    }

    // write_credits += n, also consume_write_credit for n = -1
    method AddCredits(n: int)
      requires Valid()
      modifies this`writeCredits
      ensures Valid() && S() == old(S()).(credits := old(S()).credits + n)
    {
      writeCredits := writeCredits + n;
    }

    // The first half of the loop body of conv_write: the page an earlier write of lpn is in.
    method RetireOldPage(lpn: nat)
      requires Valid() && Good(C(), S()) && CanWrite(C(), S(), lpn)
      modifies this`fullLineList, this`fullLineCnt, this`victimLineCnt, status, blkVpc, blkIpc, rmap, vpc, ipc, pos
      modifies victimLinePq`size, victimLinePq.d
      ensures Valid()
      ensures S() == if old(S()).maptbl[lpn].Some? then Invalidate(C(), old(S()), lpn) else old(S())
    {
      MapEntry(lpn);
      hide Valid, S, Inv, MarkInvalid;
      var ppa := maptbl[lpn];
      if ppa.Some? {
        MarkPageInvalid(ppa.value);
        SetRmapEnt(INVALID_LPN, ppa.value);
      }
    }

    lemma MapEntry(lpn: nat)
      requires Valid() && lpn < |S().maptbl|
      ensures lpn < maptbl.Length && (maptbl[lpn].Some? <==> S().maptbl[lpn].Some?)
      ensures maptbl[lpn].Some? ==>
        ValidPpa(g, maptbl[lpn].value) && S().maptbl[lpn] == Some(PageOf(g, maptbl[lpn].value))
    {
    }

    // What conv_read looks up for one page: nothing for a page never written, else the page that
    // holds what the host wrote last.
    method ReadLpn(lpn: nat) returns (ppa: Option<Ppa>, ghost d: Option<D>)
      requires Valid() && Inv(C(), S(), -1, {}) && lpn < |S().maptbl|
      ensures d == View(S())[lpn] && (ppa.Some? <==> d.Some?)
      ensures ppa.Some? ==> ValidPpa(g, ppa.value) && S().maptbl[lpn] == Some(PageOf(g, ppa.value))
    {
      ppa := maptbl[lpn];
      d := View(S())[lpn];
      if ppa.Some? {
        assert MappedOk(C(), S(), -1, {}, lpn);
      }
    }

    // One iteration of the loop of conv_write.
    method WriteLpn(lpn: nat, ghost d: D)
      requires Valid() && Good(C(), S()) && lpn < |S().maptbl| && Spare(C(), S(), {lpn})
      modifies this, maptbl, rmap, status, vpc, ipc, blkVpc, blkIpc, blkEraseCnt, pos
      modifies victimLinePq`size, victimLinePq.d
      ensures Valid() && HostWrite(C(), old(S()), lpn, d, S())
    {
      hide Valid, S, Inv, Core, Invalidate, Place;
      ghost var s0 := S();
      CanWriteOk(C(), s0, lpn);
      WritePageOk(C(), s0, lpn, d);
      PaidAfter(C(), s0, lpn, d);
      RetiredPointerOk(C(), s0, lpn);
      RetireOldPage(lpn);
      var ppa := WriteThrough(UserIo, lpn, d);
      AddCredits(-1);
      CheckAndRefillWriteCredit();
    }
  }
}
