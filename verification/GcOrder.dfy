// The order in which do_gc visits a line: flash page by flash page, and within one by
// channel and LUN; a block is erased right after its last flash page.
module GcOrder {
  import opened MixedRadix
  import opened Geometry
  import opened FtlModel

  // The page at c has been visited when the loops stand at flash page f, channel ch, LUN lun.
  predicate Before(g: Geo, c: Coord, f: nat, ch: nat, lun: nat)
    requires g.pgsPerFlashpg >= 1
  {
    var cf := c.pg / g.pgsPerFlashpg;
    cf < f || (cf == f && BlockBefore(c, ch, lun))
  }

  predicate BlockBefore(c: Coord, ch: nat, lun: nat) {
    c.ch < ch || (c.ch == ch && c.lun < lun)
  }

  // The block of c has been erased.
  predicate Erased(g: Geo, c: Coord, f: nat, ch: nat, lun: nat) {
    f >= g.flashpgsPerBlk || (f + 1 == g.flashpgsPerBlk && BlockBefore(c, ch, lun))
  }

  // The valid pages still to be copied, of a line that started out as row0.
  ghost function TodoAt(g: Geo, row0: seq<Status>, f: nat, ch: nat, lun: nat): set<nat>
    requires g.Valid()
  {
    set o: nat | o < |row0| && row0[o] == Status.Valid && !Before(g, CoordAt(g, o), f, ch, lun)
  }

  // The page states of the line.
  ghost function RowAt(g: Geo, row0: seq<Status>, f: nat, ch: nat, lun: nat): seq<Status>
    requires g.Valid()
  {
    seq(|row0|, o requires 0 <= o < |row0| => if Erased(g, CoordAt(g, o), f, ch, lun) then Free else row0[o])
  }

  // The first n pages from coordinate c on in its block.
  ghost function Flash(g: Geo, c: Coord, n: nat): set<nat>
    requires g.Valid()
  {
    set i: nat | i < n :: FlashOrd(g, c, i)
  }

  function FlashOrd(g: Geo, c: Coord, i: nat): nat
    requires g.Valid()
  {
    Ord(g, Coord(c.ch, c.lun, c.pg + i))
  }

  // ----- Loop boundaries -----

  lemma CoordAtValid(g: Geo)
    requires g.Valid()
    ensures forall o: nat {:trigger CoordAt(g, o)} :: o < g.PgsPerLine() ==>
              ValidCoord(g, CoordAt(g, o)) && Ord(g, CoordAt(g, o)) == o
              && CoordAt(g, o).pg / g.pgsPerFlashpg < g.flashpgsPerBlk
  {
    forall o: nat {:trigger CoordAt(g, o)} | o < g.PgsPerLine()
      ensures ValidCoord(g, CoordAt(g, o)) && Ord(g, CoordAt(g, o)) == o
              && CoordAt(g, o).pg / g.pgsPerFlashpg < g.flashpgsPerBlk
    {
      OrdOnto(g, o);
      MixSurjective(CoordAt(g, o).pg, g.pgsPerFlashpg, g.flashpgsPerBlk);
    }
  }

  lemma Start(g: Geo, row0: seq<Status>)
    requires g.Valid() && |row0| == g.PgsPerLine()
    ensures TodoAt(g, row0, 0, 0, 0) == Ords(row0, Status.Valid)
    ensures RowAt(g, row0, 0, 0, 0) == row0
  {
  }

  lemma NextChannel(g: Geo, row0: seq<Status>, f: nat, ch: nat)
    requires g.Valid() && |row0| == g.PgsPerLine()
    ensures TodoAt(g, row0, f, ch, g.lunsPerCh) == TodoAt(g, row0, f, ch + 1, 0)
    ensures RowAt(g, row0, f, ch, g.lunsPerCh) == RowAt(g, row0, f, ch + 1, 0)
  {
    CoordAtValid(g);
    hide CoordAt, ValidPpa;
  }

  lemma NextFlash(g: Geo, row0: seq<Status>, f: nat)
    requires g.Valid() && |row0| == g.PgsPerLine() && f < g.flashpgsPerBlk
    ensures TodoAt(g, row0, f, g.nchs, 0) == TodoAt(g, row0, f + 1, 0, 0)
    ensures RowAt(g, row0, f, g.nchs, 0) == RowAt(g, row0, f + 1, 0, 0)
  {
    CoordAtValid(g);
    hide CoordAt;
  }

  lemma Finish(g: Geo, row0: seq<Status>)
    requires g.Valid() && |row0| == g.PgsPerLine()
    ensures TodoAt(g, row0, g.flashpgsPerBlk, 0, 0) == {}
    ensures AllAre(RowAt(g, row0, g.flashpgsPerBlk, 0, 0), Free)
  {
    CoordAtValid(g);
    hide CoordAt;
  }

  // ----- One flash page -----

  lemma FlashPage(g: Geo, f: nat, i: nat)
    requires g.Valid() && f < g.flashpgsPerBlk && i < g.pgsPerFlashpg
    ensures f * g.pgsPerFlashpg + i < g.PgsPerBlk()
    ensures (f * g.pgsPerFlashpg + i) / g.pgsPerFlashpg == f
  {
    MixBound(f, i, g.pgsPerFlashpg, g.flashpgsPerBlk);
    MixDivMod(f, i, g.pgsPerFlashpg);
  }

  // Visiting a flash page takes exactly its pages off the list.
  lemma NextLun(g: Geo, row0: seq<Status>, f: nat, ch: nat, lun: nat)
    requires g.Valid() && |row0| == g.PgsPerLine()
    requires f < g.flashpgsPerBlk && ch < g.nchs && lun < g.lunsPerCh
    ensures var c := Coord(ch, lun, f * g.pgsPerFlashpg);
      TodoAt(g, row0, f, ch, lun + 1) == TodoAt(g, row0, f, ch, lun) - Flash(g, c, g.pgsPerFlashpg)
  {
    var c := Coord(ch, lun, f * g.pgsPerFlashpg);
    var t0, t1, fl := TodoAt(g, row0, f, ch, lun), TodoAt(g, row0, f, ch, lun + 1), Flash(g, c, g.pgsPerFlashpg);
    forall o | o in t0 ensures o in t1 <==> o !in fl {
      FlashMember(g, f, ch, lun, o);
    }
    CoordAtValid(g);
    assert t1 <= t0;
  }

  lemma FlashMember(g: Geo, f: nat, ch: nat, lun: nat, o: nat)
    requires g.Valid() && o < g.PgsPerLine()
    requires f < g.flashpgsPerBlk && ch < g.nchs && lun < g.lunsPerCh
    ensures var x := CoordAt(g, o);
      o in Flash(g, Coord(ch, lun, f * g.pgsPerFlashpg), g.pgsPerFlashpg) <==>
      x.pg / g.pgsPerFlashpg == f && x.ch == ch && x.lun == lun
  {
    var x, pf := CoordAt(g, o), g.pgsPerFlashpg;
    var c := Coord(ch, lun, f * pf);
    OrdOnto(g, o);
    MixSurjective(x.pg, pf, g.flashpgsPerBlk);
    hide Ord, CoordAt, Geo.PgsPerBlk, Geo.PgsPerLine;
    if x.pg / pf == f && x.ch == ch && x.lun == lun {
      assert x == Coord(ch, lun, c.pg + x.pg % pf);
      assert o == FlashOrd(g, c, x.pg % pf);
    }
    if o in Flash(g, c, pf) {
      var i: nat :| i < pf && o == FlashOrd(g, c, i);
      FlashPage(g, f, i);
      OrdOk(g, Coord(ch, lun, f * pf + i));
    }
  }

  // The row after the block (ch, lun) has been erased.
  ghost function EraseBlock(g: Geo, row: seq<Status>, ch: nat, lun: nat, n: nat): seq<Status>
    requires g.Valid()
  {
    seq(|row|, o requires 0 <= o < |row| =>
      var c := CoordAt(g, o); if c.ch == ch && c.lun == lun && c.pg < n then Free else row[o])
  }

  lemma RowNextLun(g: Geo, row0: seq<Status>, f: nat, ch: nat, lun: nat)
    requires g.Valid() && |row0| == g.PgsPerLine() && f < g.flashpgsPerBlk
    ensures RowAt(g, row0, f, ch, lun + 1) ==
      if f + 1 == g.flashpgsPerBlk then EraseBlock(g, RowAt(g, row0, f, ch, lun), ch, lun, g.PgsPerBlk())
      else RowAt(g, row0, f, ch, lun)
  {
    CoordAtValid(g);
    hide CoordAt;
  }

  // Nothing still to be copied has been erased, and the pages of the flash page are as they were.
  lemma TodoIntact(g: Geo, row0: seq<Status>, f: nat, ch: nat, lun: nat)
    requires g.Valid() && |row0| == g.PgsPerLine() && f < g.flashpgsPerBlk
    ensures forall o :: o in TodoAt(g, row0, f, ch, lun) ==> o < |row0| && RowAt(g, row0, f, ch, lun)[o] == Status.Valid
  {
    CoordAtValid(g);
    hide CoordAt;
  }

  lemma FlashPending(g: Geo, row0: seq<Status>, f: nat, ch: nat, lun: nat, i: nat)
    requires g.Valid() && |row0| == g.PgsPerLine()
    requires f < g.flashpgsPerBlk && ch < g.nchs && lun < g.lunsPerCh && i < g.pgsPerFlashpg
    ensures var o := FlashOrd(g, Coord(ch, lun, f * g.pgsPerFlashpg), i);
      && o < |row0| && RowAt(g, row0, f, ch, lun)[o] == row0[o]
      && (row0[o] == Status.Valid <==> o in TodoAt(g, row0, f, ch, lun))
  {
    FlashPage(g, f, i);
    OrdOk(g, Coord(ch, lun, f * g.pgsPerFlashpg + i));
  }

  lemma EraseStep(g: Geo, row: seq<Status>, ch: nat, lun: nat, n: nat)
    requires g.Valid() && |row| == g.PgsPerLine() && ValidCoord(g, Coord(ch, lun, n))
    ensures Ord(g, Coord(ch, lun, n)) < |row|
    ensures EraseBlock(g, row, ch, lun, n + 1) == EraseBlock(g, row, ch, lun, n)[Ord(g, Coord(ch, lun, n)) := Free]
    ensures EraseBlock(g, row, ch, lun, 0) == row
  {
    CoordAtValid(g);
    OrdOk(g, Coord(ch, lun, n));
    hide CoordAt, Ord, Geo.PgsPerLine, Geo.PgsPerBlk;
  }

  lemma FlashStep(g: Geo, c: Coord, i: nat)
    requires g.Valid()
    ensures Flash(g, c, i + 1) == Flash(g, c, i) + {FlashOrd(g, c, i)}
    ensures Flash(g, c, 0) == {}
  {
    hide FlashOrd;
    forall o: nat | o in Flash(g, c, i) + {FlashOrd(g, c, i)} ensures o in Flash(g, c, i + 1) {
      if o in Flash(g, c, i) {
        var j: nat :| j < i && o == FlashOrd(g, c, j);
        assert j < i + 1;
      }
    }
  }

  // A later page of the flash page is not among the earlier ones.
  lemma FlashFresh(g: Geo, c: Coord, i: nat)
    requires g.Valid() && ValidCoord(g, Coord(c.ch, c.lun, c.pg + i))
    ensures FlashOrd(g, c, i) !in Flash(g, c, i) && FlashOrd(g, c, i) < g.PgsPerLine()
  {
    OrdOk(g, Coord(c.ch, c.lun, c.pg + i));
    hide Ord, CoordAt;
    if FlashOrd(g, c, i) in Flash(g, c, i) {
      var j: nat :| j < i && FlashOrd(g, c, i) == FlashOrd(g, c, j);
      OrdOk(g, Coord(c.ch, c.lun, c.pg + j));
    }
  }
}
