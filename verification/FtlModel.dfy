// The conventional FTL as a value: what conv_ftl.c keeps in its tables, lists and
// counters, the elementary steps it takes, and the invariant they keep.
//
// A physical page is addressed by its line and by its ordinal in the order in which
// the write pointer fills a line.  Module Geometry relates that pair to the channel,
// LUN, block and page numbers of the code.
module FtlModel {
  import opened Wrappers
  import opened Collections

  datatype Status = Free | Invalid | Valid

  datatype Page = Page(line: nat, ord: nat)

  // The two write pointers of conv_ftl.h: host writes and garbage collection.
  datatype IoType = UserIo | GcIo

  // T lines of P pages each.
  datatype Config = Config(T: nat, P: nat)

  datatype State<D> = State(
    maptbl: seq<Option<Page>>,
    status: seq<seq<Status>>,
    rmap: seq<seq<int>>,
    data: seq<seq<D>>,
    vpc: seq<int>,
    ipc: seq<int>,
    free: seq<nat>,
    full: seq<nat>,
    victims: set<nat>,
    wp: Page,
    gcWp: Page,
    credits: int,
    refill: int)

  const INVALID_LPN: int := -1

  // ----- Vocabulary -----

  ghost function Ords(row: seq<Status>, st: Status): set<nat> {
    set o: nat | o < |row| && row[o] == st
  }

  // What a host read of each logical page returns.
  ghost function View<D>(s: State<D>): seq<Option<D>> {
    seq(|s.maptbl|, i requires 0 <= i < |s.maptbl| => ReadAt(s, s.maptbl[i]))
  }

  ghost function ReadAt<D>(s: State<D>, e: Option<Page>): Option<D> {
    if e.Some? && e.value.line < |s.data| && e.value.ord < |s.data[e.value.line]|
    then Some(Cell(s.data, e.value)) else None
  }

  ghost function Mapped<D>(s: State<D>): set<nat> {
    set i: nat | i < |s.maptbl| && s.maptbl[i].Some?
  }

  // Pages still free: whole lines on the free list and the rest of the two open lines.
  ghost function FreePages<D>(c: Config, s: State<D>): int {
    |s.free| * c.P + (c.P - s.wp.ord) + (c.P - s.gcWp.ord)
  }

  function Wp<D>(s: State<D>, io: IoType): Page {
    match io case UserIo => s.wp case GcIo => s.gcWp
  }

  function SetWp<D>(s: State<D>, io: IoType, p: Page): State<D> {
    match io case UserIo => s.(wp := p) case GcIo => s.(gcWp := p)
  }

  function Cell<A>(rows: seq<seq<A>>, p: Page): A
    requires p.line < |rows| && p.ord < |rows[p.line]|
  {
    rows[p.line][p.ord]
  }

  function SetCell<A>(rows: seq<seq<A>>, p: Page, a: A): seq<seq<A>>
    requires p.line < |rows| && p.ord < |rows[p.line]|
  {
    rows[p.line := rows[p.line][p.ord := a]]
  }

  // ----- The invariant -----
  //
  // x is the line under collection, or -1; todo holds the ordinals of x whose valid
  // pages have not been copied yet.

  ghost predicate Shape<D>(c: Config, s: State<D>) {
    && c.P >= 1
    && |s.status| == |s.rmap| == |s.data| == |s.vpc| == |s.ipc| == c.T
    && (forall l :: 0 <= l < c.T ==> |s.status[l]| == c.P)
    && (forall l :: 0 <= l < c.T ==> |s.rmap[l]| == c.P)
    && (forall l :: 0 <= l < c.T ==> |s.data[l]| == c.P)
    && s.wp.line < c.T && s.wp.ord <= c.P
    && s.gcWp.line < c.T && s.gcWp.ord <= c.P
    && s.wp.line != s.gcWp.line
  }

  // Every line plays exactly one role.
  ghost predicate Roles<D>(c: Config, s: State<D>, x: int) {
    && -1 <= x < c.T
    && NoDup(s.free) && NoDup(s.full)
    && x != s.wp.line && x != s.gcWp.line
    && (forall l :: l in s.free ==>
          l < c.T && l !in s.full && l !in s.victims && l != s.wp.line && l != s.gcWp.line && l != x)
    && (forall l :: l in s.full ==>
          l < c.T && l !in s.victims && l != s.wp.line && l != s.gcWp.line && l != x)
    && (forall l :: l in s.victims ==> l < c.T && l != s.wp.line && l != s.gcWp.line && l != x)
    && (forall l: nat :: l < c.T ==>
          l in s.free || l in s.full || l in s.victims || l == s.wp.line || l == s.gcWp.line || l == x)
  }

  ghost predicate AllAre(row: seq<Status>, st: Status) {
    forall o :: 0 <= o < |row| ==> row[o] == st
  }

  ghost predicate FilledUpTo(row: seq<Status>, n: nat) {
    forall o :: 0 <= o < |row| ==> (row[o] == Free <==> n <= o)
  }

  // What a line holds, by its role.
  ghost predicate Rows<D>(c: Config, s: State<D>)
    requires Shape(c, s)
  {
    && (forall l: nat :: l in s.free && l < c.T ==> AllAre(s.status[l], Free))
    && (forall l: nat :: l in s.full && l < c.T ==> AllAre(s.status[l], Valid))
    && (forall l: nat :: l in s.victims && l < c.T ==> FilledUpTo(s.status[l], c.P) && s.ipc[l] >= 1)
    && FilledUpTo(s.status[s.wp.line], s.wp.ord)
    && FilledUpTo(s.status[s.gcWp.line], s.gcWp.ord)
  }

  // The line counters are the numbers of valid and invalid pages.
  ghost predicate Counts<D>(c: Config, s: State<D>, x: int)
    requires Shape(c, s)
  {
    forall l: nat :: l < c.T && l != x ==>
      s.vpc[l] == |Ords(s.status[l], Valid)| && s.ipc[l] == |Ords(s.status[l], Invalid)|
  }

  ghost predicate Live(x: int, todo: set<nat>, p: Page) {
    p.line == x ==> p.ord in todo
  }

  // maptbl and rmap are inverse to each other on the live valid pages.
  ghost predicate Mapping<D>(c: Config, s: State<D>, x: int, todo: set<nat>)
    requires Shape(c, s)
  {
    && (forall i: nat :: i < |s.maptbl| && s.maptbl[i].Some? ==> MappedOk(c, s, x, todo, i))
    && (forall l: nat, o: nat :: l < c.T && o < c.P && s.status[l][o] == Valid && Live(x, todo, Page(l, o)) ==>
          RmapOk(c, s, Page(l, o)))
  }

  ghost predicate MappedOk<D>(c: Config, s: State<D>, x: int, todo: set<nat>, i: nat)
    requires Shape(c, s) && i < |s.maptbl| && s.maptbl[i].Some?
  {
    var p := s.maptbl[i].value;
    p.line < c.T && p.ord < c.P && Cell(s.status, p) == Valid && Cell(s.rmap, p) == i && Live(x, todo, p)
  }

  ghost predicate RmapOk<D>(c: Config, s: State<D>, p: Page)
    requires Shape(c, s) && p.line < c.T && p.ord < c.P
  {
    0 <= Cell(s.rmap, p) < |s.maptbl| && s.maptbl[Cell(s.rmap, p)] == Some(p)
  }

  ghost predicate Todo<D>(c: Config, s: State<D>, x: int, todo: set<nat>)
    requires Shape(c, s)
  {
    if x < 0 then todo == {} else
    x < c.T && forall o :: o in todo ==> o < c.P && s.status[x][o] == Valid
  }

  ghost predicate Core<D>(c: Config, s: State<D>, x: int, todo: set<nat>) {
    && Shape(c, s) && Roles(c, s, x) && Rows(c, s) && Counts(c, s, x)
    && Mapping(c, s, x, todo) && Todo(c, s, x, todo)
  }

  // ----- The steps -----

  predicate InBounds<D>(s: State<D>, p: Page) {
    && p.line < |s.status| && p.ord < |s.status[p.line]|
    && p.line < |s.rmap| && p.ord < |s.rmap[p.line]|
    && p.line < |s.data| && p.ord < |s.data[p.line]|
    && p.line < |s.vpc| && p.line < |s.ipc|
  }

  predicate InStatus<D>(s: State<D>, p: Page) {
    && p.line < |s.status| && p.ord < |s.status[p.line]|
    && p.line < |s.vpc| && p.line < |s.ipc|
  }

  // mark_page_valid
  function MarkValid<D>(s: State<D>, p: Page): State<D>
    requires InStatus(s, p)
  {
    s.(status := SetCell(s.status, p, Valid), vpc := s.vpc[p.line := s.vpc[p.line] + 1])
  }

  // mark_page_invalid: a line that was full becomes a victim.
  function MarkInvalid<D>(c: Config, s: State<D>, p: Page): State<D>
    requires InStatus(s, p)
  {
    var wasFull := s.vpc[p.line] == c.P;
    s.(status := SetCell(s.status, p, Invalid),
       vpc := s.vpc[p.line := s.vpc[p.line] - 1],
       ipc := s.ipc[p.line := s.ipc[p.line] + 1],
       full := if wasFull then Remove(s.full, p.line) else s.full,
       victims := if wasFull then s.victims + {p.line} else s.victims)
  }

  // Retiring the page that lpn maps to: mark_page_invalid, and the reverse mapping cleared.
  function Invalidate<D>(c: Config, s: State<D>, lpn: nat): State<D>
    requires lpn < |s.maptbl| && s.maptbl[lpn].Some? && InBounds(s, s.maptbl[lpn].value)
  {
    var p := s.maptbl[lpn].value;
    MarkInvalid(c, s, p).(rmap := SetCell(s.rmap, p, INVALID_LPN))
  }

  // One page write through a write pointer: set_maptbl_ent, set_rmap_ent and
  // mark_page_valid at the page get_new_page returns.  The payload is ghost data of the model.
  function Install<D>(s: State<D>, io: IoType, lpn: nat, d: D): State<D>
    requires lpn < |s.maptbl| && InBounds(s, Wp(s, io))
  {
    var p := Wp(s, io);
    MarkValid(s, p).(maptbl := s.maptbl[lpn := Some(p)], rmap := SetCell(s.rmap, p, lpn), data := SetCell(s.data, p, d))
  }

  // advance_write_pointer: the next page of the line, or retire the line and open a free one.
  function Advance<D>(c: Config, s: State<D>, io: IoType): State<D>
    requires Wp(s, io).line < |s.vpc|
    requires Wp(s, io).ord + 1 == c.P ==> s.free != []
  {
    var p := Wp(s, io);
    if p.ord + 1 != c.P then SetWp(s, io, Page(p.line, p.ord + 1))
    else
      var s1 := if s.vpc[p.line] == c.P then s.(full := s.full + [p.line])
                else s.(victims := s.victims + {p.line});
      SetWp(s1.(free := s.free[1..]), io, Page(s.free[0], 0))
  }

  // ----- Facts about rows, lists and cardinalities -----

  lemma OrdsBound(row: seq<Status>, st: Status)
    ensures |Ords(row, st)| <= |row|
    ensures |Ords(row, st)| == |row| <==> AllAre(row, st)
  {
    var all := Below(|row|);
    SubsetSize(Ords(row, st), all);
    if |Ords(row, st)| == |row| {
      SubsetEqual(Ords(row, st), all);
      forall o: nat | o < |row| ensures row[o] == st { assert o in all; }
    }
    if AllAre(row, st) { assert Ords(row, st) == all; }
  }

  // Changing one entry of a row moves one ordinal from its old class to its new one.
  lemma OrdsUpdate(row: seq<Status>, o: nat, st: Status, q: Status)
    requires o < |row|
    ensures Ords(row[o := st], q) == if q == st then Ords(row, q) + {o} else Ords(row, q) - {o}
  {
  }

  lemma OrdsUpdateSize(row: seq<Status>, o: nat, st: Status, q: Status)
    requires o < |row|
    ensures |Ords(row[o := st], q)| ==
      |Ords(row, q)| + (if q == st && row[o] != st then 1 else if q != st && row[o] == q then -1 else 0)
  {
    OrdsUpdate(row, o, st, q);
    var a := Ords(row, q);
    assert o in a <==> row[o] == q;
    assert |a + {o}| == if o in a then |a| else |a| + 1;
    assert |a - {o}| == if o in a then |a| - 1 else |a|;
  }

  // ----- One page written through either write pointer -----

  // The page under the pointer exists, and if it is the last of its line there is a free
  // line to go on with.
  predicate CanPlace<D>(c: Config, s: State<D>, io: IoType, lpn: nat) {
    lpn < |s.maptbl| && InBounds(s, Wp(s, io)) && (Wp(s, io).ord + 1 == c.P ==> s.free != [])
  }

  function Place<D>(c: Config, s: State<D>, io: IoType, lpn: nat, d: D): State<D>
    requires CanPlace(c, s, io, lpn)
  {
    Advance(c, Install(s, io, lpn, d), io)
  }

  // Place in two halves: fill the page under the pointer, then turn to a new line if the
  // line is used up.
  function Fill<D>(s: State<D>, io: IoType, lpn: nat, d: D): State<D>
    requires lpn < |s.maptbl| && InBounds(s, Wp(s, io))
  {
    SetWp(Install(s, io, lpn, d), io, Page(Wp(s, io).line, Wp(s, io).ord + 1))
  }

  function Turn<D>(c: Config, s: State<D>, io: IoType): State<D>
    requires Wp(s, io).line < |s.vpc| && s.free != []
  {
    var l := Wp(s, io).line;
    var s1 := if s.vpc[l] == c.P then s.(full := s.full + [l]) else s.(victims := s.victims + {l});
    SetWp(s1.(free := s.free[1..]), io, Page(s.free[0], 0))
  }

  lemma PlaceIsFillTurn<D>(c: Config, s: State<D>, io: IoType, lpn: nat, d: D)
    requires CanPlace(c, s, io, lpn)
    ensures Place(c, s, io, lpn, d) ==
      var s1 := Fill(s, io, lpn, d); if Wp(s1, io).ord == c.P then Turn(c, s1, io) else s1
  {
  }

  ghost predicate CanFill<D>(c: Config, s: State<D>, x: int, todo: set<nat>, io: IoType, lpn: nat) {
    && Core(c, s, x, todo)
    && lpn < |s.maptbl| && s.maptbl[lpn].None?
    && Wp(s, io).ord < c.P
  }

  lemma FillRows<D>(c: Config, s: State<D>, x: int, todo: set<nat>, io: IoType, lpn: nat, d: D)
    requires CanFill(c, s, x, todo, io, lpn)
    ensures Shape(c, Fill(s, io, lpn, d))
    ensures Roles(c, Fill(s, io, lpn, d), x)
    ensures Rows(c, Fill(s, io, lpn, d))
  {
  }

  lemma FillCounts<D>(c: Config, s: State<D>, x: int, todo: set<nat>, io: IoType, lpn: nat, d: D)
    requires CanFill(c, s, x, todo, io, lpn)
    requires Shape(c, Fill(s, io, lpn, d))
    ensures Counts(c, Fill(s, io, lpn, d), x)
  {
    var p := Wp(s, io);
    OrdsUpdateSize(s.status[p.line], p.ord, Valid, Valid);
    OrdsUpdateSize(s.status[p.line], p.ord, Valid, Invalid);
  }

  lemma FillMapping<D>(c: Config, s: State<D>, x: int, todo: set<nat>, io: IoType, lpn: nat, d: D)
    requires CanFill(c, s, x, todo, io, lpn)
    requires Shape(c, Fill(s, io, lpn, d))
    ensures Mapping(c, Fill(s, io, lpn, d), x, todo)
    ensures Todo(c, Fill(s, io, lpn, d), x, todo)
  {
    var p := Wp(s, io);
    assert Cell(s.status, p) == Free;
    var t := Fill(s, io, lpn, d);
    forall i: nat | i < |t.maptbl| && t.maptbl[i].Some? ensures MappedOk(c, t, x, todo, i) {
      if i != lpn { assert MappedOk(c, s, x, todo, i); }
    }
    forall l: nat, o: nat | l < c.T && o < c.P && t.status[l][o] == Valid && Live(x, todo, Page(l, o))
      ensures RmapOk(c, t, Page(l, o))
    {
      if Page(l, o) != p { assert RmapOk(c, s, Page(l, o)); }
    }
  }

  lemma TurnRows<D>(c: Config, s: State<D>, x: int, todo: set<nat>, io: IoType)
    requires Core(c, s, x, todo) && s.free != [] && Wp(s, io).ord == c.P
    requires Shape(c, Turn(c, s, io))
    ensures Rows(c, Turn(c, s, io))
  {
    RetiredLine(c, s, io);
    assert s.free[0] in s.free;
    assert forall l :: l in Turn(c, s, io).free ==> l in s.free;
  }

  // The mapping does not depend on the lists or the pointers.
  lemma MappingFrame<D>(c: Config, s: State<D>, t: State<D>, x: int, todo: set<nat>)
    requires Shape(c, s) && Shape(c, t) && Mapping(c, s, x, todo)
    requires t.maptbl == s.maptbl && t.status == s.status && t.rmap == s.rmap
    ensures Mapping(c, t, x, todo)
  {
    forall i: nat | i < |t.maptbl| && t.maptbl[i].Some? ensures MappedOk(c, t, x, todo, i) {
      assert MappedOk(c, s, x, todo, i);
    }
    forall l: nat, o: nat | l < c.T && o < c.P && t.status[l][o] == Valid && Live(x, todo, Page(l, o))
      ensures RmapOk(c, t, Page(l, o))
    {
      assert RmapOk(c, s, Page(l, o));
    }
  }

  lemma TurnCore<D>(c: Config, s: State<D>, x: int, todo: set<nat>, io: IoType)
    requires Core(c, s, x, todo) && s.free != [] && Wp(s, io).ord == c.P
    ensures Core(c, Turn(c, s, io), x, todo)
  {
    TurnRoles(c, s, x, io);
    TurnRows(c, s, x, todo, io);
    MappingFrame(c, s, Turn(c, s, io), x, todo);
  }

  lemma RetiredLine<D>(c: Config, s: State<D>, io: IoType)
    requires Shape(c, s) && Rows(c, s) && Wp(s, io).ord == c.P
    requires var l := Wp(s, io).line; s.vpc[l] == |Ords(s.status[l], Valid)| && s.ipc[l] == |Ords(s.status[l], Invalid)|
    ensures var l := Wp(s, io).line;
      if s.vpc[l] == c.P then AllAre(s.status[l], Valid) else s.ipc[l] >= 1
  {
    var row := s.status[Wp(s, io).line];
    OrdsBound(row, Valid);
    if !AllAre(row, Valid) {
      var o :| 0 <= o < |row| && row[o] != Valid;
      assert o in Ords(row, Invalid);
    }
  }

  lemma TurnRoles<D>(c: Config, s: State<D>, x: int, io: IoType)
    requires Shape(c, s) && Roles(c, s, x) && s.free != []
    ensures Shape(c, Turn(c, s, io)) && Roles(c, Turn(c, s, io), x)
  {
    var t := Turn(c, s, io);
    var l := Wp(s, io).line;
    var f := s.free[0];
    assert f in s.free && l !in s.full;
    assert forall y :: y in t.free <==> y in s.free && y != f by {
      assert s.free == [f] + t.free;
    }
    if s.vpc[l] == c.P {
      assert forall y :: y in t.full <==> y in s.full || y == l;
      assert t.victims == s.victims;
    } else {
      assert t.full == s.full;
      assert forall y :: y in t.victims <==> y in s.victims || y == l;
    }
    match io
    case UserIo => assert t.wp.line == f && t.gcWp == s.gcWp;
    case GcIo => assert t.gcWp.line == f && t.wp == s.wp;
  }

  lemma FillCore<D>(c: Config, s: State<D>, x: int, todo: set<nat>, io: IoType, lpn: nat, d: D)
    requires CanFill(c, s, x, todo, io, lpn)
    ensures Core(c, Fill(s, io, lpn, d), x, todo)
    ensures s.wp.ord < c.P && s.gcWp.ord < c.P ==> FreePages(c, Fill(s, io, lpn, d)) == FreePages(c, s) - 1
  {
    FillRows(c, s, x, todo, io, lpn, d);
    FillCounts(c, s, x, todo, io, lpn, d);
    FillMapping(c, s, x, todo, io, lpn, d);
  }

  // A state between two page writes: both open lines have room.
  ghost predicate Inv<D>(c: Config, s: State<D>, x: int, todo: set<nat>) {
    Core(c, s, x, todo) && s.wp.ord < c.P && s.gcWp.ord < c.P
  }

  lemma TurnFreePages<D>(c: Config, s: State<D>, io: IoType)
    requires Wp(s, io).line < |s.vpc| && s.free != [] && Wp(s, io).ord == c.P
    ensures FreePages(c, Turn(c, s, io)) == FreePages(c, s)
  {
    assert |s.free| * c.P == (|s.free| - 1) * c.P + c.P;
  }

  lemma PlaceCore<D>(c: Config, s: State<D>, x: int, todo: set<nat>, io: IoType, lpn: nat, d: D)
    requires Inv(c, s, x, todo) && CanPlace(c, s, io, lpn) && s.maptbl[lpn].None?
    ensures var t := Place(c, s, io, lpn, d);
      && Inv(c, t, x, todo)
      && FreePages(c, t) == FreePages(c, s) - 1
      && t.credits == s.credits && t.refill == s.refill
  {
    PlaceIsFillTurn(c, s, io, lpn, d);
    FillCore(c, s, x, todo, io, lpn, d);
    var s1 := Fill(s, io, lpn, d);
    if Wp(s1, io).ord == c.P {
      TurnCore(c, s1, x, todo, io);
      TurnFreePages(c, s1, io);
    }
  }

  lemma PlaceTables<D>(c: Config, s: State<D>, io: IoType, lpn: nat, d: D)
    requires CanPlace(c, s, io, lpn)
    ensures var t := Place(c, s, io, lpn, d);
      t.maptbl == s.maptbl[lpn := Some(Wp(s, io))] && t.data == SetCell(s.data, Wp(s, io), d)
  {
  }

  // Writing a page changes what the host reads at that logical page and nowhere else.
  lemma PlaceView<D>(c: Config, s: State<D>, x: int, todo: set<nat>, io: IoType, lpn: nat, d: D)
    requires Inv(c, s, x, todo) && CanPlace(c, s, io, lpn) && s.maptbl[lpn].None?
    ensures View(Place(c, s, io, lpn, d)) == View(s)[lpn := Some(d)]
  {
    var p := Wp(s, io);
    PlaceTables(c, s, io, lpn, d);
    var maptbl, data := Place(c, s, io, lpn, d).maptbl, Place(c, s, io, lpn, d).data;
    forall i | 0 <= i < |maptbl| && maptbl[i].Some?
      ensures var q := maptbl[i].value; 
        && q.line < |data| && q.ord < |data[q.line]| 
        && Cell(data, q) == if i == lpn then d else Cell(s.data, q)
      ensures s.maptbl[i].Some? ==> InBounds(s, s.maptbl[i].value)
    {
      if i != lpn {
        assert MappedOk(c, s, x, todo, i);
        assert maptbl[i].value != p;
      }
    }
    forall i | 0 <= i < |s.maptbl| && s.maptbl[i].Some? ensures InBounds(s, s.maptbl[i].value) {
      assert i != lpn && maptbl[i].Some?;
    }
  }

  // ----- Taking a logical page off its old physical page -----

  // A host overwrite: the old page turns invalid.  The mapping entry is cleared here
  // only for the argument; the code overwrites it at once.
  ghost function Unmap<D>(c: Config, s: State<D>, lpn: nat): State<D>
    requires lpn < |s.maptbl| && s.maptbl[lpn].Some? && InBounds(s, s.maptbl[lpn].value)
  {
    Invalidate(c, s, lpn).(maptbl := s.maptbl[lpn := None])
  }

  lemma UnmapRoles<D>(c: Config, s: State<D>, lpn: nat)
    requires Inv(c, s, -1, {}) && lpn < |s.maptbl| && s.maptbl[lpn].Some?
    ensures MappedOk(c, s, -1, {}, lpn) && Shape(c, Unmap(c, s, lpn)) && Roles(c, Unmap(c, s, lpn), -1)
  {
    assert MappedOk(c, s, -1, {}, lpn);
    var l := s.maptbl[lpn].value.line;
    FullIffAllValid(c, s, l);
    RemoveElems(s.full, l);
  }

  // Outside collection, a line counts P valid pages exactly when it is on the full list.
  lemma FullIffAllValid<D>(c: Config, s: State<D>, l: nat)
    requires Inv(c, s, -1, {}) && l < c.T
    ensures s.vpc[l] == c.P <==> l in s.full
  {
    OrdsBound(s.status[l], Valid);
    if l in s.victims {
      assert |Ords(s.status[l], Invalid)| >= 1;
      var o :| o in Ords(s.status[l], Invalid);
    }
    if l in s.free { assert s.status[l][0] == Free; }
    if l == s.wp.line { assert s.status[l][s.wp.ord] == Free; }
    if l == s.gcWp.line { assert s.status[l][s.gcWp.ord] == Free; }
  }

  lemma UnmapRows<D>(c: Config, s: State<D>, lpn: nat)
    requires Inv(c, s, -1, {}) && lpn < |s.maptbl| && s.maptbl[lpn].Some?
    requires MappedOk(c, s, -1, {}, lpn) && Shape(c, Unmap(c, s, lpn))
    ensures Rows(c, Unmap(c, s, lpn))
  {
    var p := s.maptbl[lpn].value;
    FullIffAllValid(c, s, p.line);
    RemoveElems(s.full, p.line);
    OrdsBound(s.status[p.line], Invalid);
  }

  lemma UnmapCounts<D>(c: Config, s: State<D>, lpn: nat)
    requires Inv(c, s, -1, {}) && lpn < |s.maptbl| && s.maptbl[lpn].Some?
    requires MappedOk(c, s, -1, {}, lpn) && Shape(c, Unmap(c, s, lpn))
    ensures Counts(c, Unmap(c, s, lpn), -1)
  {
    var p := s.maptbl[lpn].value;
    OrdsUpdateSize(s.status[p.line], p.ord, Invalid, Valid);
    OrdsUpdateSize(s.status[p.line], p.ord, Invalid, Invalid);
  }

  lemma UnmapMapping<D>(c: Config, s: State<D>, lpn: nat)
    requires Inv(c, s, -1, {}) && lpn < |s.maptbl| && s.maptbl[lpn].Some?
    requires MappedOk(c, s, -1, {}, lpn) && Shape(c, Unmap(c, s, lpn))
    ensures Mapping(c, Unmap(c, s, lpn), -1, {})
  {
    var p := s.maptbl[lpn].value;
    var t := Unmap(c, s, lpn);
    forall i: nat | i < |t.maptbl| && t.maptbl[i].Some? ensures MappedOk(c, t, -1, {}, i) {
      assert MappedOk(c, s, -1, {}, i);
    }
    forall l: nat, o: nat | l < c.T && o < c.P && t.status[l][o] == Valid && Live(-1, {}, Page(l, o))
      ensures RmapOk(c, t, Page(l, o))
    {
      assert Page(l, o) != p;
      assert s.status[l][o] == Valid;
      assert RmapOk(c, s, Page(l, o));
    }
  }

  lemma UnmapInv<D>(c: Config, s: State<D>, lpn: nat)
    requires Inv(c, s, -1, {}) && lpn < |s.maptbl| && s.maptbl[lpn].Some?
    ensures MappedOk(c, s, -1, {}, lpn)
    ensures var t := Unmap(c, s, lpn);
      && Inv(c, t, -1, {}) && FreePages(c, t) == FreePages(c, s)
      && t.credits == s.credits && t.refill == s.refill && t.data == s.data
  {
    UnmapRoles(c, s, lpn);
    UnmapRows(c, s, lpn);
    UnmapCounts(c, s, lpn);
    UnmapMapping(c, s, lpn);
  }

  // ----- Collecting one line -----

  // select_victim_line took v off the victim queue and do_gc noted its invalid pages.
  function CollectBegin<D>(s: State<D>, v: nat): State<D>
    requires v < |s.ipc|
  {
    s.(victims := s.victims - {v}, refill := s.ipc[v])
  }

  // gc_write_page for the valid page of line v at ordinal o.
  function CollectMove<D>(c: Config, s: State<D>, v: nat, o: nat): State<D>
    requires CanMove(c, s, v, o)
  {
    Place(c, s, GcIo, s.rmap[v][o], s.data[v][o])
  }

  predicate CanMove<D>(c: Config, s: State<D>, v: nat, o: nat) {
    InBounds(s, Page(v, o)) && 0 <= s.rmap[v][o] && CanPlace(c, s, GcIo, s.rmap[v][o])
  }

  // mark_line_free.
  function CollectEnd<D>(s: State<D>, v: nat): State<D>
    requires v < |s.ipc| && v < |s.vpc|
  {
    s.(free := s.free + [v], vpc := s.vpc[v := 0], ipc := s.ipc[v := 0])
  }

  // Midway through collecting v out of state s0: todo are the pages still to copy.
  ghost predicate Collecting<D>(c: Config, s0: State<D>, v: nat, s: State<D>, todo: set<nat>) {
    && Inv(c, s0, -1, {}) && v in s0.victims
    && Inv(c, s, v, todo)
    && View(s) == View(s0)
    && FreePages(c, s) - |todo| == FreePages(c, s0) - s0.vpc[v]
    && s.credits == s0.credits && s.refill == s0.ipc[v] && s.wp == s0.wp
    && Elsewhere(s0, v, s)
  }

  // Logical pages that were not stored on v stay where they were.
  ghost predicate Elsewhere<D>(s0: State<D>, v: nat, t: State<D>) {
    |t.maptbl| == |s0.maptbl| &&
    forall i :: 0 <= i < |s0.maptbl| && s0.maptbl[i].Some? && s0.maptbl[i].value.line != v ==>
      t.maptbl[i] == s0.maptbl[i]
  }

  ghost predicate MovedOff<D>(v: nat, t: State<D>) {
    forall i :: 0 <= i < |t.maptbl| && t.maptbl[i].Some? ==> t.maptbl[i].value.line != v
  }

  // What a whole collection of v does: the host view, the credits and every page outside
  // v stay, the invalid pages of v are won back, v is the last free line.
  ghost predicate Collected<D>(c: Config, s0: State<D>, v: nat, t: State<D>) {
    && Inv(c, s0, -1, {}) && v in s0.victims
    && Inv(c, t, -1, {})
    && View(t) == View(s0)
    && FreePages(c, t) == FreePages(c, s0) + s0.ipc[v]
    && t.credits == s0.credits && t.refill == s0.ipc[v] && t.wp == s0.wp
    && Elsewhere(s0, v, t) && MovedOff(v, t)
    && t.free != [] && t.free[|t.free| - 1] == v
  }

  lemma InvInBounds<D>(c: Config, s: State<D>, x: int, todo: set<nat>)
    requires Inv(c, s, x, todo)
    ensures InBounds(s, s.wp) && InBounds(s, s.gcWp)
    ensures forall i :: 0 <= i < |s.maptbl| && s.maptbl[i].Some? ==> InBounds(s, s.maptbl[i].value)
  {
    forall i | 0 <= i < |s.maptbl| && s.maptbl[i].Some? ensures InBounds(s, s.maptbl[i].value) {
      assert MappedOk(c, s, x, todo, i);
    }
  }

  lemma BeginInv<D>(c: Config, s: State<D>, v: nat)
    requires Inv(c, s, -1, {}) && v in s.victims
    ensures Inv(c, CollectBegin(s, v), v, Ords(s.status[v], Valid))
  {
    var t := CollectBegin(s, v);
    var todo := Ords(s.status[v], Valid);
    assert Shape(c, t) && Roles(c, t, v) && Rows(c, t) && Counts(c, t, v);
    MappingMonotone(c, s, t, -1, {}, v, todo);
  }

  // Starting to track a line, or narrowing to what is still live on it.
  lemma MappingMonotone<D>(c: Config, s: State<D>, t: State<D>, x: int, todo: set<nat>, y: int, rest: set<nat>)
    requires Shape(c, s) && Shape(c, t) && Mapping(c, s, x, todo)
    requires t.maptbl == s.maptbl && t.rmap == s.rmap
    requires forall l: nat, o: nat :: l < c.T && o < c.P && s.status[l][o] == Valid && Live(x, todo, Page(l, o)) ==>
               t.status[l][o] == Valid && Live(y, rest, Page(l, o))
    requires forall l: nat, o: nat :: l < c.T && o < c.P && t.status[l][o] == Valid && Live(y, rest, Page(l, o)) ==>
               s.status[l][o] == Valid && Live(x, todo, Page(l, o))
    ensures Mapping(c, t, y, rest)
  {
    forall i: nat | i < |t.maptbl| && t.maptbl[i].Some? ensures MappedOk(c, t, y, rest, i) {
      assert MappedOk(c, s, x, todo, i);
    }
    forall l: nat, o: nat | l < c.T && o < c.P && t.status[l][o] == Valid && Live(y, rest, Page(l, o))
      ensures RmapOk(c, t, Page(l, o))
    {
      assert RmapOk(c, s, Page(l, o));
    }
  }

  lemma CollectBeginOk<D>(c: Config, s: State<D>, v: nat)
    requires Inv(c, s, -1, {}) && v in s.victims
    ensures Collecting(c, s, v, CollectBegin(s, v), Ords(s.status[v], Valid))
    ensures 0 <= s.vpc[v] < c.P && s.vpc[v] + s.ipc[v] == c.P
  {
    BeginInv(c, s, v);
    InvInBounds(c, s, -1, {});
    FilledSplit(s.status[v]);
  }

  lemma FilledSplit(row: seq<Status>)
    requires FilledUpTo(row, |row|)
    ensures |Ords(row, Valid)| + |Ords(row, Invalid)| == |row|
  {
    assert Ords(row, Valid) + Ords(row, Invalid) == Below(|row|);
  }

  // The page taken off the collected line, as an intermediate state for the argument.
  ghost function Lift<D>(s: State<D>, lpn: nat): State<D>
    requires lpn < |s.maptbl|
  {
    s.(maptbl := s.maptbl[lpn := None])
  }

  lemma LiftInv<D>(c: Config, s: State<D>, v: nat, todo: set<nat>, o: nat)
    requires Inv(c, s, v, todo) && o in todo
    ensures v < c.T && o < c.P && RmapOk(c, s, Page(v, o))
    ensures Inv(c, Lift(s, s.rmap[v][o]), v, todo - {o})
  {
    assert RmapOk(c, s, Page(v, o));
    var lpn := s.rmap[v][o];
    var t := Lift(s, lpn);
    var rest := todo - {o};
    forall i: nat | i < |t.maptbl| && t.maptbl[i].Some? ensures MappedOk(c, t, v, rest, i) {
      assert MappedOk(c, s, v, todo, i);
    }
    forall l: nat, q: nat | l < c.T && q < c.P && t.status[l][q] == Valid && Live(v, rest, Page(l, q))
      ensures RmapOk(c, t, Page(l, q))
    {
      assert Page(l, q) != Page(v, o);
      assert RmapOk(c, s, Page(l, q));
    }
  }

  // The pages the copy pointer can still be moved to.
  ghost function CopyRoom<D>(c: Config, s: State<D>): int {
    |s.free| * c.P + (c.P - s.gcWp.ord)
  }

  // More of them than v has valid pages.
  ghost predicate HasRoom<D>(c: Config, s: State<D>, v: nat) {
    v < |s.vpc| && s.vpc[v] < CopyRoom(c, s)
  }

  // A page can be copied exactly while the copy pointer has a page to go on to afterwards.
  lemma RoomToMove<D>(c: Config, s0: State<D>, v: nat, s: State<D>, todo: set<nat>, o: nat)
    requires Collecting(c, s0, v, s, todo) && o in todo
    ensures CanMove(c, s, v, o) <==> CopyRoom(c, s) >= 2
    ensures v < |s0.vpc| && CopyRoom(c, s) - |todo| == CopyRoom(c, s0) - s0.vpc[v]
  {
    hide Inv, Core, FreePages, CopyRoom;
    TodoPage(c, s, v, todo, o);
    InvInBounds(c, s, v, todo);
    CollectBeginOk(c, s0, v);
    VictimBounds(c, s0, v);
    FreeLinesRoom(c, s);
    FreeLinesRoom(c, s0);
  }

  lemma VictimBounds<D>(c: Config, s: State<D>, v: nat)
    requires Inv(c, s, -1, {}) && v in s.victims
    ensures v < c.T == |s.vpc| == |s.ipc| && c.P >= 1 && s.gcWp.ord < c.P && s.wp.ord < c.P
  {
  }

  lemma FreeLinesRoom<D>(c: Config, s: State<D>)
    requires c.P >= 1 && s.gcWp.ord < c.P
    ensures CopyRoom(c, s) >= 2 <==> s.gcWp.ord + 1 < c.P || s.free != []
    ensures FreePages(c, s) == CopyRoom(c, s) + c.P - s.wp.ord
  {
    if s.free != [] {
      assert |s.free| * c.P == (|s.free| - 1) * c.P + c.P;
    }
  }

  // While pages are left to copy, the copy pointer never runs dry.
  lemma RoomToCopy<D>(c: Config, s0: State<D>, v: nat, s: State<D>, todo: set<nat>, o: nat)
    requires Collecting(c, s0, v, s, todo) && o in todo
    requires HasRoom(c, s0, v)
    ensures CanMove(c, s, v, o)
  {
    hide Inv, Core;
    RoomToMove(c, s0, v, s, todo, o);
    assert |todo| >= 1;
  }

  // Two lines' worth of free pages are room enough for any victim.
  lemma BudgetHasRoom<D>(c: Config, s: State<D>, v: nat)
    requires Inv(c, s, -1, {}) && v in s.victims && FreePages(c, s) >= 2 * c.P
    ensures HasRoom(c, s, v)
  {
    CollectBeginOk(c, s, v);
  }

  lemma TodoPage<D>(c: Config, s: State<D>, v: nat, todo: set<nat>, o: nat)
    requires Inv(c, s, v, todo) && o in todo
    ensures v < c.T && o < c.P && InBounds(s, Page(v, o)) && RmapOk(c, s, Page(v, o))
    ensures s.wp.ord < c.P && s.gcWp.ord < c.P
  {
    assert s.status[v][o] == Valid && Live(v, todo, Page(v, o));
  }

  lemma MoveInv<D>(c: Config, s: State<D>, v: nat, todo: set<nat>, o: nat)
    requires Inv(c, s, v, todo) && o in todo && CanMove(c, s, v, o)
    ensures var t := CollectMove(c, s, v, o);
      && Inv(c, t, v, todo - {o}) && FreePages(c, t) == FreePages(c, s) - 1
      && t.credits == s.credits && t.refill == s.refill && t.wp == s.wp
  {
    hide Inv, Core, RmapOk;
    LiftInv(c, s, v, todo, o);
    var lpn, d := s.rmap[v][o], s.data[v][o];
    MoveIsPlace(c, s, lpn, d);
    PlaceCore(c, Lift(s, lpn), v, todo - {o}, GcIo, lpn, d);
    PlaceKeepsHostPointer(c, s, lpn, d);
  }

  lemma LiftView<D>(c: Config, s: State<D>, v: nat, o: nat)
    requires v < |s.rmap| && o < |s.rmap[v]| && v < |s.data| && o < |s.data[v]|
    requires 0 <= s.rmap[v][o] < |s.maptbl| && s.maptbl[s.rmap[v][o]] == Some(Page(v, o))
    ensures View(Lift(s, s.rmap[v][o]))[s.rmap[v][o] := Some(s.data[v][o])] == View(s)
  {
  }

  // Copying a page keeps what the host reads: the copy carries the payload along.
  lemma MoveView<D>(c: Config, s: State<D>, v: nat, todo: set<nat>, o: nat)
    requires Inv(c, s, v, todo) && o in todo && CanMove(c, s, v, o)
    ensures View(CollectMove(c, s, v, o)) == View(s)
  {
    hide Inv, View, Place;
    LiftInv(c, s, v, todo, o);
    var lpn, d := s.rmap[v][o], s.data[v][o];
    MoveIsPlace(c, s, lpn, d);
    LiftView(c, s, v, o);
    PlaceView(c, Lift(s, lpn), v, todo - {o}, GcIo, lpn, d);
  }

  lemma MoveIsPlace<D>(c: Config, s: State<D>, lpn: nat, d: D)
    requires CanPlace(c, s, GcIo, lpn)
    ensures Place(c, Lift(s, lpn), GcIo, lpn, d) == Place(c, s, GcIo, lpn, d)
  {
    assert s.maptbl[lpn := None][lpn := Some(s.gcWp)] == s.maptbl[lpn := Some(s.gcWp)];
    PlaceAlike(c, s, Lift(s, lpn), GcIo, lpn, d);
  }

  lemma PlaceKeepsHostPointer<D>(c: Config, s: State<D>, lpn: nat, d: D)
    requires CanPlace(c, s, GcIo, lpn)
    ensures var t := Place(c, s, GcIo, lpn, d); t.wp == s.wp && t.credits == s.credits && t.refill == s.refill
  {
  }

  // The pages of v themselves are not touched: the code leaves their states and reverse map stale,
  // and their payloads stay.
  lemma MoveKeepsRow<D>(c: Config, s: State<D>, v: nat, todo: set<nat>, o: nat)
    requires Inv(c, s, v, todo) && o in todo && CanMove(c, s, v, o)
    ensures v < |s.status| && CollectMove(c, s, v, o).status == SetCell(s.status, s.gcWp, Valid)
    ensures v < |CollectMove(c, s, v, o).status| && CollectMove(c, s, v, o).status[v] == s.status[v]
    ensures v < |CollectMove(c, s, v, o).data| == |s.data| && CollectMove(c, s, v, o).data[v] == s.data[v]
    ensures v < |CollectMove(c, s, v, o).rmap| == |s.rmap| && CollectMove(c, s, v, o).rmap[v] == s.rmap[v]
  {
  }

  lemma MoveLeavesOthers<D>(c: Config, s0: State<D>, v: nat, s: State<D>, todo: set<nat>, o: nat)
    requires Collecting(c, s0, v, s, todo) && o in todo && CanMove(c, s, v, o)
    ensures Elsewhere(s0, v, CollectMove(c, s, v, o))
  {
    var lpn := s.rmap[v][o];
    PlaceTables(c, s, GcIo, lpn, s.data[v][o]);
    assert RmapOk(c, s, Page(v, o));
    forall i | 0 <= i < |s0.maptbl| && s0.maptbl[i].Some? && s0.maptbl[i].value.line != v
      ensures CollectMove(c, s, v, o).maptbl[i] == s0.maptbl[i]
    {
      assert s.maptbl[i] == s0.maptbl[i];
      assert i != lpn;
    }
  }

  lemma CollectMoveKeeps<D>(c: Config, s0: State<D>, v: nat, s: State<D>, todo: set<nat>, o: nat)
    requires Collecting(c, s0, v, s, todo) && o in todo && CanMove(c, s, v, o)
    ensures Collecting(c, s0, v, CollectMove(c, s, v, o), todo - {o})
  {
    hide Inv, Core, CanMove, CollectMove, View, Elsewhere;
    MoveInv(c, s, v, todo, o);
    MoveView(c, s, v, todo, o);
    MoveLeavesOthers(c, s0, v, s, todo, o);
  }

  lemma CollectMoveOk<D>(c: Config, s0: State<D>, v: nat, s: State<D>, todo: set<nat>, o: nat)
    requires Collecting(c, s0, v, s, todo) && o in todo
    requires HasRoom(c, s0, v)
    ensures CanMove(c, s, v, o)
    ensures Collecting(c, s0, v, CollectMove(c, s, v, o), todo - {o})
  {
    hide Inv, Core, CanMove, CollectMove, View, Elsewhere;
    RoomToCopy(c, s0, v, s, todo, o);
    CollectMoveKeeps(c, s0, v, s, todo, o);
  }

  // Place overwrites the mapping entry, so what stood there before does not matter.
  lemma PlaceAlike<D>(c: Config, s: State<D>, u: State<D>, io: IoType, lpn: nat, d: D)
    requires CanPlace(c, s, io, lpn)
    requires lpn < |u.maptbl| && u.maptbl[lpn := Some(Wp(s, io))] == s.maptbl[lpn := Some(Wp(s, io))]
    requires u == s.(maptbl := u.maptbl)
    ensures Place(c, u, io, lpn, d) == Place(c, s, io, lpn, d)
  {
  }

  // Erasing blocks of v that hold nothing left to copy.
  function Erase<D>(s: State<D>, v: nat, row: seq<Status>): State<D>
    requires v < |s.status|
  {
    s.(status := s.status[v := row])
  }

  lemma EraseInv<D>(c: Config, s: State<D>, v: nat, todo: set<nat>, row: seq<Status>)
    requires Inv(c, s, v, todo)
    requires |row| == c.P && forall o :: o in todo ==> o < c.P && row[o] == Valid
    ensures Inv(c, Erase(s, v, row), v, todo)
  {
    var t := Erase(s, v, row);
    assert Shape(c, t);
    assert Roles(c, t, v);
    assert Rows(c, t) && Counts(c, t, v);
    MappingMonotone(c, s, t, v, todo, v, todo);
  }

  lemma CollectEraseOk<D>(c: Config, s0: State<D>, v: nat, s: State<D>, todo: set<nat>, row: seq<Status>)
    requires Collecting(c, s0, v, s, todo)
    requires |row| == c.P && forall o :: o in todo ==> o < c.P && row[o] == Valid
    ensures v < c.T && Collecting(c, s0, v, Erase(s, v, row), todo)
  {
    EraseInv(c, s, v, todo, row);
  }

  lemma EndRows<D>(c: Config, s: State<D>, v: nat)
    requires Inv(c, s, v, {}) && AllAre(s.status[v], Free)
    ensures Shape(c, CollectEnd(s, v)) && Rows(c, CollectEnd(s, v)) && Counts(c, CollectEnd(s, v), -1)
  {
    hide Mapping, Todo;
    assert Ords(s.status[v], Valid) == {} && Ords(s.status[v], Invalid) == {};
  }

  lemma EndInv<D>(c: Config, s: State<D>, v: nat)
    requires Inv(c, s, v, {}) && AllAre(s.status[v], Free)
    ensures Inv(c, CollectEnd(s, v), -1, {})
    ensures FreePages(c, CollectEnd(s, v)) == FreePages(c, s) + c.P
  {
    hide Rows, Counts;
    EndRoles(c, s, v);
    EndRows(c, s, v);
    assert (|s.free| + 1) * c.P == |s.free| * c.P + c.P;
    MappingMonotone(c, s, CollectEnd(s, v), v, {}, -1, {});
  }

  lemma EndRoles<D>(c: Config, s: State<D>, v: nat)
    requires Shape(c, s) && Roles(c, s, v)
    ensures Roles(c, CollectEnd(s, v), -1)
  {
    assert v !in s.free && v !in s.full && v !in s.victims;
    assert forall l :: l in CollectEnd(s, v).free <==> l in s.free || l == v;
  }

  lemma CollectedLine<D>(c: Config, u: State<D>, v: nat)
    requires Inv(c, u, v, {})
    ensures v < c.T == |u.status| == |u.ipc| == |u.vpc|
  {
  }

  lemma EndMoved<D>(c: Config, s: State<D>, v: nat)
    requires Inv(c, s, v, {})
    ensures MovedOff(v, s)
  {
    forall i: nat | i < |s.maptbl| && s.maptbl[i].Some? ensures s.maptbl[i].value.line != v {
      assert MappedOk(c, s, v, {}, i);
    }
  }

  lemma CollectEndOk<D>(c: Config, s0: State<D>, v: nat, s: State<D>)
    requires Collecting(c, s0, v, s, {}) && AllAre(s.status[v], Free)
    ensures v < c.T && Collected(c, s0, v, CollectEnd(s, v))
  {
    hide Core, Rows, Counts, Mapping;
    CollectBeginOk(c, s0, v);
    CollectedLine(c, s, v);
    EndInv(c, s, v);
    EndMoved(c, s, v);
  }

  // ----- What the invariant means -----

  // maptbl is injective, rmap undoes it, and every valid page is the image of its rmap entry.
  lemma MappingOneToOne<D>(c: Config, s: State<D>)
    requires Inv(c, s, -1, {})
    ensures forall i, j :: 0 <= i < j < |s.maptbl| && s.maptbl[i].Some? ==> s.maptbl[i] != s.maptbl[j]
    ensures forall i: nat | i < |s.maptbl| && s.maptbl[i].Some? :: IsImage(c, s, s.maptbl[i].value, i)
    ensures forall l: nat, o: nat | l < c.T && o < c.P && s.status[l][o] == Valid ::
              s.rmap[l][o] >= 0 && IsImage(c, s, Page(l, o), s.rmap[l][o])
  {
    forall i: nat | i < |s.maptbl| && s.maptbl[i].Some? ensures IsImage(c, s, s.maptbl[i].value, i) {
      assert MappedOk(c, s, -1, {}, i);
    }
    forall i, j | 0 <= i < j < |s.maptbl| && s.maptbl[i].Some? ensures s.maptbl[i] != s.maptbl[j] {
      assert IsImage(c, s, s.maptbl[i].value, i);
      if s.maptbl[j].Some? { assert IsImage(c, s, s.maptbl[j].value, j); }
    }
    forall l: nat, o: nat | l < c.T && o < c.P && s.status[l][o] == Valid
      ensures s.rmap[l][o] >= 0 && IsImage(c, s, Page(l, o), s.rmap[l][o])
    {
      assert RmapOk(c, s, Page(l, o));
    }
  }

  // Page p is valid and is the page of logical page i, both ways.
  ghost predicate IsImage<D>(c: Config, s: State<D>, p: Page, i: nat)
    requires Shape(c, s)
  {
    && p.line < c.T && p.ord < c.P && i < |s.maptbl|
    && s.maptbl[i] == Some(p) && Cell(s.rmap, p) == i && Cell(s.status, p) == Valid
  }

  // Between collections each line is free, full, a victim or open for one of the two write
  // pointers; its counters are its numbers of valid and invalid pages; it is full exactly if all
  // its pages are valid, and a victim has an invalid page and no free one.
  lemma EveryLineAccounted<D>(c: Config, s: State<D>, l: nat)
    requires Inv(c, s, -1, {}) && l < c.T
    ensures (l in s.free) || (l in s.full) || (l in s.victims) || l == s.wp.line || l == s.gcWp.line
    ensures l in s.free ==> l !in s.full && l !in s.victims && l != s.wp.line && l != s.gcWp.line
    ensures l in s.full ==> l !in s.victims && l != s.wp.line && l != s.gcWp.line
    ensures l in s.victims ==> l != s.wp.line && l != s.gcWp.line
    ensures s.vpc[l] == |Ords(s.status[l], Valid)| && s.ipc[l] == |Ords(s.status[l], Invalid)|
    ensures l in s.full <==> s.vpc[l] == c.P
    ensures l in s.victims ==> s.ipc[l] >= 1 && s.vpc[l] + s.ipc[l] == c.P
  {
    FullIffAllValid(c, s, l);
    if l in s.victims { FilledSplit(s.status[l]); }
  }
}
