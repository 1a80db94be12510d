// Mixed-radix numbers: hi * radix + lo with lo < radix.
module MixedRadix {

  function Mix(hi: nat, lo: nat, radix: nat): nat {
    hi * radix + lo
  }

  lemma MixNext(hi: nat, lo: nat, radix: nat)
    requires lo < radix
    ensures Mix(hi, lo, radix) + 1 == if lo + 1 < radix then Mix(hi, lo + 1, radix) else Mix(hi + 1, 0, radix)
  {
    assert (hi + 1) * radix == hi * radix + radix;
  }

  function Hi(n: nat, radix: nat): nat
    requires radix >= 1
  {
    n / radix
  }

  function Lo(n: nat, radix: nat): nat
    requires radix >= 1
  {
    n % radix
  }

  lemma MixBound(hi: nat, lo: nat, radix: nat, top: nat)
    requires lo < radix && hi < top
    ensures Mix(hi, lo, radix) < top * radix
  {
    assert (hi + 1) * radix <= top * radix;
    assert (hi + 1) * radix == hi * radix + radix;
  }

  lemma MixInjective(hi: nat, lo: nat, hi': nat, lo': nat, radix: nat)
    requires lo < radix && lo' < radix
    requires Mix(hi, lo, radix) == Mix(hi', lo', radix)
    ensures hi == hi' && lo == lo'
  {
    if hi < hi' { MixBound(hi, lo, radix, hi'); }
    if hi' < hi { MixBound(hi', lo', radix, hi); }
  }

  lemma MixSurjective(n: nat, radix: nat, top: nat)
    requires n < top * radix
    ensures radix > 0 && n / radix < top && n % radix < radix
    ensures Mix(n / radix, n % radix, radix) == n
  {
    assert radix != 0;
    Euclid(n, radix);
    MulLe(top, n / radix, radix);
  }

  lemma MulLe(a: nat, b: nat, r: nat)
    ensures a <= b ==> a * r <= b * r
  {
  }

  lemma Euclid(n: nat, radix: nat)
    requires radix > 0
    ensures n == (n / radix) * radix + n % radix
  {
  }

  lemma MixDivMod(hi: nat, lo: nat, radix: nat)
    requires lo < radix
    ensures Mix(hi, lo, radix) / radix == hi && Mix(hi, lo, radix) % radix == lo
  {
    var n := Mix(hi, lo, radix);
    Euclid(n, radix);
    MixInjective(hi, lo, n / radix, n % radix, radix);
  }

  lemma Distribute(x: int, y: int, z: int)
    ensures (x + y) * z == x * z + y * z
  {
  }
}

// The physical geometry of ssd.c with one plane per LUN, the page numbering of
// conv_ftl.c and the order in which a write pointer visits the pages of a line.
module Geometry {
  import opened Wrappers
  import opened MixedRadix

  // The parameters ssd_init_params chooses; the rest of ssdparams is derived.
  datatype Geo = Geo(
    nchs: nat,               // channels
    lunsPerCh: nat,
    blksPerPl: nat,
    pgsPerOneshotpg: nat,
    oneshotpgsPerBlk: nat,
    pgsPerFlashpg: nat,
    flashpgsPerBlk: nat)
  {
    ghost predicate Valid() {
      && nchs >= 1 && lunsPerCh >= 1 && blksPerPl >= 1
      && pgsPerOneshotpg >= 1 && oneshotpgsPerBlk >= 1
      && pgsPerFlashpg >= 1 && flashpgsPerBlk >= 1
      && flashpgsPerBlk * pgsPerFlashpg == PgsPerBlk() >= 1
    }

    function PgsPerBlk(): nat { oneshotpgsPerBlk * pgsPerOneshotpg }
    function PgsPerPl(): nat { blksPerPl * PgsPerBlk() }
    function PgsPerLun(): nat { PgsPerPl() }
    function PgsPerCh(): nat { lunsPerCh * PgsPerLun() }
    function TtPgs(): nat { nchs * PgsPerCh() }
    function TtLuns(): nat { lunsPerCh * nchs }
    function PgsPerLine(): nat { TtLuns() * PgsPerBlk() }
    function TtLines(): nat { blksPerPl }
    function TtBlks(): nat { (nchs * lunsPerCh) * blksPerPl }
  }

  // A physical page address; pl is always 0.
  datatype Ppa = Ppa(ch: nat, lun: nat, blk: nat, pg: nat)

  // valid_ppa
  predicate ValidPpa(g: Geo, p: Ppa) {
    p.ch < g.nchs && p.lun < g.lunsPerCh && p.blk < g.blksPerPl && p.pg < g.PgsPerBlk()
  }

  // The place of a page within its line.
  datatype Coord = Coord(ch: nat, lun: nat, pg: nat)

  predicate ValidCoord(g: Geo, c: Coord) {
    c.ch < g.nchs && c.lun < g.lunsPerCh && c.pg < g.PgsPerBlk()
  }

  // ----- Page numbers -----

  // ppa2pgidx
  function Ppa2PgIdx(g: Geo, p: Ppa): nat {
    p.ch * g.PgsPerCh() + p.lun * g.PgsPerLun() + p.blk * g.PgsPerBlk() + p.pg
  }

  function PgIdx2Ppa(g: Geo, n: nat): Ppa
    requires g.Valid()
  {
    var rest := Hi(n, g.PgsPerBlk());
    var luns := Hi(rest, g.blksPerPl);
    Ppa(Hi(luns, g.lunsPerCh), Lo(luns, g.lunsPerCh), Lo(rest, g.blksPerPl), Lo(n, g.PgsPerBlk()))
  }

  lemma PgIdxNested(g: Geo, p: Ppa)
    ensures Ppa2PgIdx(g, p) ==
      Mix(Mix(Mix(p.ch, p.lun, g.lunsPerCh), p.blk, g.blksPerPl), p.pg, g.PgsPerBlk())
  {
    var b, n, l := g.PgsPerBlk(), g.blksPerPl, g.lunsPerCh;
    calc {
      ((p.ch * l + p.lun) * n + p.blk) * b + p.pg;
      { Distribute((p.ch * l + p.lun) * n, p.blk, b); }
      ((p.ch * l + p.lun) * n) * b + p.blk * b + p.pg;
      { Associate(p.ch * l + p.lun, n, b); }
      (p.ch * l + p.lun) * (n * b) + p.blk * b + p.pg;
      { Distribute(p.ch * l, p.lun, n * b); }
      (p.ch * l) * (n * b) + p.lun * (n * b) + p.blk * b + p.pg;
      { Associate(p.ch, l, n * b); }
      p.ch * (l * (n * b)) + p.lun * (n * b) + p.blk * b + p.pg;
    }
  }

  lemma Associate(x: int, y: int, z: int)
    ensures (x * y) * z == x * (y * z)
  {
  }

  lemma TotalPages(g: Geo)
    ensures g.TtPgs() == (g.nchs * g.lunsPerCh) * g.blksPerPl * g.PgsPerBlk()
    ensures g.TtPgs() == g.TtLines() * g.PgsPerLine()
  {
    var b, n, l, c := g.PgsPerBlk(), g.blksPerPl, g.lunsPerCh, g.nchs;
    Associate(c, l, n * b);
    Associate(c * l, n, b);
    calc {
      (c * l) * (n * b);
      { Associate(c * l, n, b); }
      ((c * l) * n) * b;
      { assert (c * l) * n == n * (l * c); }
      (n * (l * c)) * b;
      { Associate(n, l * c, b); }
      n * ((l * c) * b);
    }
  }

  // ppa2pgidx numbers the valid addresses 0 .. tt_pgs - 1, each once.
  lemma PgIdxBijection(g: Geo)
    requires g.Valid()
    ensures forall p :: ValidPpa(g, p) ==> Ppa2PgIdx(g, p) < g.TtPgs() && PgIdx2Ppa(g, Ppa2PgIdx(g, p)) == p
    ensures forall n: nat :: n < g.TtPgs() ==> ValidPpa(g, PgIdx2Ppa(g, n)) && Ppa2PgIdx(g, PgIdx2Ppa(g, n)) == n
  {
    forall p | ValidPpa(g, p)
      ensures Ppa2PgIdx(g, p) < g.TtPgs() && PgIdx2Ppa(g, Ppa2PgIdx(g, p)) == p
    {
      PgIdxOk(g, p);
    }
    forall n: nat | n < g.TtPgs()
      ensures ValidPpa(g, PgIdx2Ppa(g, n)) && Ppa2PgIdx(g, PgIdx2Ppa(g, n)) == n
    {
      PgIdxOnto(g, n);
    }
  }

  lemma PgIdxOk(g: Geo, p: Ppa)
    requires g.Valid() && ValidPpa(g, p)
    ensures Ppa2PgIdx(g, p) < g.TtPgs() && PgIdx2Ppa(g, Ppa2PgIdx(g, p)) == p
  {
    PgIdxNested(g, p);
    TotalPages(g);
    var x := Mix(p.ch, p.lun, g.lunsPerCh);
    var y := Mix(x, p.blk, g.blksPerPl);
    MixBound(p.ch, p.lun, g.lunsPerCh, g.nchs);
    MixBound(x, p.blk, g.blksPerPl, g.nchs * g.lunsPerCh);
    MixBound(y, p.pg, g.PgsPerBlk(), (g.nchs * g.lunsPerCh) * g.blksPerPl);
    MixDivMod(p.ch, p.lun, g.lunsPerCh);
    MixDivMod(x, p.blk, g.blksPerPl);
    MixDivMod(y, p.pg, g.PgsPerBlk());
  }

  lemma PgIdxOnto(g: Geo, n: nat)
    requires g.Valid() && n < g.TtPgs()
    ensures ValidPpa(g, PgIdx2Ppa(g, n)) && Ppa2PgIdx(g, PgIdx2Ppa(g, n)) == n
  {
    TotalPages(g);
    var y := n / g.PgsPerBlk();
    MixSurjective(n, g.PgsPerBlk(), (g.nchs * g.lunsPerCh) * g.blksPerPl);
    MixSurjective(y, g.blksPerPl, g.nchs * g.lunsPerCh);
    MixSurjective(y / g.blksPerPl, g.lunsPerCh, g.nchs);
    PgIdxNested(g, PgIdx2Ppa(g, n));
  }

  // One page on is one number on, and a block, a LUN and a channel are laid out without gaps.
  lemma PgIdxStrides(g: Geo, p: Ppa)
    ensures Ppa2PgIdx(g, Ppa(0, 0, 0, 0)) == 0
    ensures Ppa2PgIdx(g, p.(pg := p.pg + 1)) == Ppa2PgIdx(g, p) + 1
    ensures Ppa2PgIdx(g, p.(blk := p.blk + 1)) == Ppa2PgIdx(g, p) + g.oneshotpgsPerBlk * g.pgsPerOneshotpg
    ensures Ppa2PgIdx(g, p.(lun := p.lun + 1)) == Ppa2PgIdx(g, p) + g.blksPerPl * g.PgsPerBlk()
    ensures Ppa2PgIdx(g, p.(ch := p.ch + 1)) == Ppa2PgIdx(g, p) + g.lunsPerCh * (g.blksPerPl * g.PgsPerBlk())
  {
    Distribute(p.blk, 1, g.PgsPerBlk());
    Distribute(p.lun, 1, g.PgsPerLun());
    Distribute(p.ch, 1, g.PgsPerCh());
  }

  // The block of a page, all blocks numbered in the order of their pages: get_blk.
  function BlkIdx(g: Geo, p: Ppa): nat {
    Mix(Mix(p.ch, p.lun, g.lunsPerCh), p.blk, g.blksPerPl)
  }

  lemma BlkIdxOk(g: Geo, p: Ppa)
    requires g.Valid() && ValidPpa(g, p)
    ensures BlkIdx(g, p) < g.TtBlks() && Ppa2PgIdx(g, p) == Mix(BlkIdx(g, p), p.pg, g.PgsPerBlk())
  {
    PgIdxNested(g, p);
    MixBound(p.ch, p.lun, g.lunsPerCh, g.nchs);
    MixBound(Mix(p.ch, p.lun, g.lunsPerCh), p.blk, g.blksPerPl, g.nchs * g.lunsPerCh);
  }

  // ----- The order of the write pointer -----

  // Pages of a oneshot page first, then channels, then LUNs, then wordlines.
  function Ord(g: Geo, c: Coord): nat
    requires g.pgsPerOneshotpg >= 1
  {
    Mix(Mix(Mix(c.pg / g.pgsPerOneshotpg, c.lun, g.lunsPerCh), c.ch, g.nchs),
        c.pg % g.pgsPerOneshotpg, g.pgsPerOneshotpg)
  }

  function CoordAt(g: Geo, o: nat): Coord
    requires g.Valid()
  {
    var pgLow, rest := o % g.pgsPerOneshotpg, o / g.pgsPerOneshotpg;
    var ch, rest2 := rest % g.nchs, rest / g.nchs;
    Coord(ch, rest2 % g.lunsPerCh, Mix(rest2 / g.lunsPerCh, pgLow, g.pgsPerOneshotpg))
  }

  lemma LinePages(g: Geo)
    ensures g.PgsPerLine() == ((g.oneshotpgsPerBlk * g.lunsPerCh) * g.nchs) * g.pgsPerOneshotpg
  {
    var os, w, l, c := g.pgsPerOneshotpg, g.oneshotpgsPerBlk, g.lunsPerCh, g.nchs;
    Associate(l * c, w, os);
    assert (l * c) * w == w * (l * c);
    Associate(w, l, c);
  }

  lemma OrdOk(g: Geo, c: Coord)
    requires g.Valid() && ValidCoord(g, c)
    ensures Ord(g, c) < g.PgsPerLine() && CoordAt(g, Ord(g, c)) == c
  {
    LinePages(g);
    var os := g.pgsPerOneshotpg;
    MixSurjective(c.pg, os, g.oneshotpgsPerBlk);
    var w := c.pg / os;
    var x := Mix(w, c.lun, g.lunsPerCh);
    var y := Mix(x, c.ch, g.nchs);
    MixBound(w, c.lun, g.lunsPerCh, g.oneshotpgsPerBlk);
    MixBound(x, c.ch, g.nchs, g.oneshotpgsPerBlk * g.lunsPerCh);
    MixBound(y, c.pg % os, os, (g.oneshotpgsPerBlk * g.lunsPerCh) * g.nchs);
    MixDivMod(w, c.lun, g.lunsPerCh);
    MixDivMod(x, c.ch, g.nchs);
    MixDivMod(y, c.pg % os, os);
  }

  lemma OrdOnto(g: Geo, o: nat)
    requires g.Valid() && o < g.PgsPerLine()
    ensures ValidCoord(g, CoordAt(g, o)) && Ord(g, CoordAt(g, o)) == o
  {
    LinePages(g);
    hide Mix;
    var os := g.pgsPerOneshotpg;
    MixSurjective(o, os, (g.oneshotpgsPerBlk * g.lunsPerCh) * g.nchs);
    MixSurjective(o / os, g.nchs, g.oneshotpgsPerBlk * g.lunsPerCh);
    MixSurjective(o / os / g.nchs, g.lunsPerCh, g.oneshotpgsPerBlk);
    var w := o / os / g.nchs / g.lunsPerCh;
    MixBound(w, o % os, os, g.oneshotpgsPerBlk);
    MixDivMod(w, o % os, os);
  }

  // advance_write_pointer on the coordinates: the next page of the line, or None when the
  // line is used up.
  function Next(g: Geo, c: Coord): Option<Coord>
    requires g.pgsPerOneshotpg >= 1
  {
    var os := g.pgsPerOneshotpg;
    var pg := c.pg + 1;
    if pg % os != 0 then Some(Coord(c.ch, c.lun, pg))
    else
      var pg := pg - os;
      if c.ch + 1 != g.nchs then Some(Coord(c.ch + 1, c.lun, pg))
      else if c.lun + 1 != g.lunsPerCh then Some(Coord(0, c.lun + 1, pg))
      else
        var pg := pg + os;
        if pg != g.PgsPerBlk() then Some(Coord(0, 0, pg)) else None
  }

  // One step of the write pointer is one step of the ordinal, and it ends after the last page.
  lemma NextIsSuccessor(g: Geo, c: Coord)
    requires g.Valid() && ValidCoord(g, c)
    ensures Next(g, c).None? <==> Ord(g, c) + 1 == g.PgsPerLine()
    ensures Next(g, c).Some? ==> ValidCoord(g, Next(g, c).value) && Ord(g, Next(g, c).value) == Ord(g, c) + 1
  {
    NextByCases(g, c);
    if Next(g, c).Some? { OrdOk(g, Next(g, c).value); }
  }

  lemma NextByCases(g: Geo, c: Coord)
    requires g.Valid() && ValidCoord(g, c)
    ensures Next(g, c).None? ==> Ord(g, c) + 1 == g.PgsPerLine()
    ensures Next(g, c).Some? ==> ValidCoord(g, Next(g, c).value) && Ord(g, Next(g, c).value) == Ord(g, c) + 1
  {
    hide Mix;
    var os, l, n := g.pgsPerOneshotpg, g.lunsPerCh, g.nchs;
    MixSurjective(c.pg, os, g.oneshotpgsPerBlk);
    var w, r := c.pg / os, c.pg % os;
    var x := Mix(w, c.lun, l);
    var y := Mix(x, c.ch, n);
    MixNext(w, r, os);
    MixNext(y, r, os);
    MixNext(x, c.ch, n);
    MixNext(w, c.lun, l);
    if r + 1 < os {
      MixDivMod(w, r + 1, os);
      MixBound(w, r + 1, os, g.oneshotpgsPerBlk);
    } else {
      MixDivMod(w + 1, 0, os);
      MixDivMod(w, 0, os);
      Wordline(g, c.pg, w);
      if w + 1 == g.oneshotpgsPerBlk { LastPage(g); }
    }
  }

  // The first page of wordline w and of the next one, when pg is the last page of w.
  lemma Wordline(g: Geo, pg: nat, w: nat)
    requires g.Valid() && w < g.oneshotpgsPerBlk && pg == Mix(w, g.pgsPerOneshotpg - 1, g.pgsPerOneshotpg)
    ensures pg + 1 - g.pgsPerOneshotpg == Mix(w, 0, g.pgsPerOneshotpg) < g.PgsPerBlk()
    ensures pg + 1 == Mix(w + 1, 0, g.pgsPerOneshotpg)
    ensures pg + 1 != g.PgsPerBlk() <==> w + 1 != g.oneshotpgsPerBlk
    ensures w + 1 != g.oneshotpgsPerBlk ==> pg + 1 < g.PgsPerBlk()
  {
    var os := g.pgsPerOneshotpg;
    MixNext(w, os - 1, os);
    MixBound(w, 0, os, g.oneshotpgsPerBlk);
    if w + 1 < g.oneshotpgsPerBlk {
      MixBound(w + 1, 0, os, g.oneshotpgsPerBlk);
    }
  }

  lemma LastPage(g: Geo)
    ensures Mix(Mix(Mix(g.oneshotpgsPerBlk, 0, g.lunsPerCh), 0, g.nchs), 0, g.pgsPerOneshotpg) == g.PgsPerLine()
  {
    LinePages(g);
  }

  // ----- Lines laid out in page-number space -----

  function CoordOf(p: Ppa): Coord {
    Coord(p.ch, p.lun, p.pg)
  }

  function PpaAt(g: Geo, line: nat, o: nat): Ppa
    requires g.Valid()
  {
    var c := CoordAt(g, o);
    Ppa(c.ch, c.lun, line, c.pg)
  }

  // The page number of the o-th page of each line.
  ghost function Layout(g: Geo): (lay: seq<seq<nat>>)
    requires g.Valid()
  {
    seq(g.TtLines(), l requires 0 <= l < g.TtLines() => LineLayout(g, l))
  }

  ghost function LineLayout(g: Geo, l: nat): (row: seq<nat>)
    requires g.Valid()
    ensures |row| == g.PgsPerLine()
    ensures forall o :: 0 <= o < g.PgsPerLine() ==> row[o] == Ppa2PgIdx(g, PpaAt(g, l, o))
  {
    seq(g.PgsPerLine(), o requires 0 <= o < g.PgsPerLine() => Ppa2PgIdx(g, PpaAt(g, l, o)))
  }

  // lay maps the pages of `lines` lines of `pages` pages each into 0 .. total - 1, no two alike.
  ghost predicate LayoutOk(lay: seq<seq<nat>>, lines: nat, pages: nat, total: nat) {
    && |lay| == lines
    && (forall l :: 0 <= l < lines ==> |lay[l]| == pages)
    && (forall l, o :: 0 <= l < lines && 0 <= o < pages ==> lay[l][o] < total)
    && (forall l, o, m, p ::
          (0 <= l < lines && 0 <= o < pages && 0 <= m < lines && 0 <= p < pages && lay[l][o] == lay[m][p]) ==>
            l == m && o == p)
  }

  lemma LayoutIsOk(g: Geo)
    requires g.Valid()
    ensures LayoutOk(Layout(g), g.TtLines(), g.PgsPerLine(), g.TtPgs())
  {
    var lay := Layout(g);
    forall l: nat, o: nat | l < g.TtLines() && o < g.PgsPerLine() ensures lay[l][o] < g.TtPgs() {
      PlaceOnLine(g, l, o);
    }
    forall l: nat, o: nat, m: nat, p: nat
      | l < g.TtLines() && o < g.PgsPerLine() && m < g.TtLines() && p < g.PgsPerLine() && lay[l][o] == lay[m][p]
      ensures l == m && o == p
    {
      PlaceOnLine(g, l, o);
      PlaceOnLine(g, m, p);
    }
  }

  lemma PlaceOnLine(g: Geo, l: nat, o: nat)
    requires g.Valid() && l < g.TtLines() && o < g.PgsPerLine()
    ensures var p := PpaAt(g, l, o);
      ValidPpa(g, p) && Ppa2PgIdx(g, p) < g.TtPgs() && PgIdx2Ppa(g, Ppa2PgIdx(g, p)) == p && Ord(g, CoordOf(p)) == o
  {
    OrdOnto(g, o);
    PgIdxOk(g, PpaAt(g, l, o));
  }

  // An address lies in its line at its ordinal.
  lemma LayoutAt(g: Geo, p: Ppa)
    requires g.Valid() && ValidPpa(g, p)
    ensures p.blk < |Layout(g)| && Ord(g, CoordOf(p)) < |Layout(g)[p.blk]|
    ensures Layout(g)[p.blk][Ord(g, CoordOf(p))] == Ppa2PgIdx(g, p) < g.TtPgs()
  {
    OrdOk(g, CoordOf(p));
    PgIdxOk(g, p);
  }

  // Starting from the first page, n steps of the write pointer reach the page with ordinal n:
  // every page of the line is visited once, and then the line is used up.
  ghost function Walk(g: Geo, n: nat): Option<Coord>
    requires g.Valid()
  {
    if n == 0 then Some(Coord(0, 0, 0))
    else match Walk(g, n - 1) case Some(c) => Next(g, c) case None => None
  }

  lemma {:induction false} WalkVisitsLine(g: Geo, n: nat)
    requires g.Valid() && n <= g.PgsPerLine()
    ensures Walk(g, n) == if n < g.PgsPerLine() then Some(CoordAt(g, n)) else None
  {
    if n == 0 {
      OrdOk(g, Coord(0, 0, 0));
      assert Ord(g, Coord(0, 0, 0)) == 0;
    } else {
      WalkVisitsLine(g, n - 1);
      OrdOnto(g, n - 1);
      NextIsSuccessor(g, CoordAt(g, n - 1));
      if n < g.PgsPerLine() { OrdOk(g, Next(g, CoordAt(g, n - 1)).value); }
    }
  }

  // What the walk visits, step by step: all pages of a oneshot page, then the next channel, then
  // the next LUN, then the next wordline.
  lemma WalkOrder(g: Geo, w: nat, l: nat, ch: nat, r: nat)
    requires g.Valid()
    requires w < g.oneshotpgsPerBlk && l < g.lunsPerCh && ch < g.nchs && r < g.pgsPerOneshotpg
    ensures var n := ((w * g.lunsPerCh + l) * g.nchs + ch) * g.pgsPerOneshotpg + r;
      n < g.PgsPerLine() && Walk(g, n) == Some(Coord(ch, l, w * g.pgsPerOneshotpg + r))
  {
    var c := Coord(ch, l, Mix(w, r, g.pgsPerOneshotpg));
    MixDivMod(w, r, g.pgsPerOneshotpg);
    MixBound(w, r, g.pgsPerOneshotpg, g.oneshotpgsPerBlk);
    OrdOk(g, c);
    WalkVisitsLine(g, Ord(g, c));
  }

  // After its last page the line is used up.
  lemma WalkEnds(g: Geo)
    requires g.Valid()
    ensures Walk(g, ((g.oneshotpgsPerBlk * g.lunsPerCh) * g.nchs) * g.pgsPerOneshotpg) == None
  {
    LinePages(g);
    WalkVisitsLine(g, g.PgsPerLine());
  }

  // Striping: from the k-th stripe boundary on, one oneshot page of every channel in turn is
  // visited, all on the same LUN number and the same wordline.
  lemma WalkStripes(g: Geo, k: nat, i: nat)
    requires g.Valid() && k < g.oneshotpgsPerBlk * g.lunsPerCh && i < g.nchs * g.pgsPerOneshotpg
    ensures 1 <= g.pgsPerOneshotpg && 1 <= g.lunsPerCh && Hi(i, g.pgsPerOneshotpg) < g.nchs
    ensures var os, w, l := g.pgsPerOneshotpg, Hi(k, g.lunsPerCh), Lo(k, g.lunsPerCh);
      Walk(g, Mix(k, i, g.nchs * os)) == Some(Coord(Hi(i, os), l, Mix(w, Lo(i, os), os)))
  {
    hide Walk, Geo.Valid;
    var os := g.pgsPerOneshotpg;
    AtLeastOne(g);
    MixSurjective(k, g.lunsPerCh, g.oneshotpgsPerBlk);
    MixSurjective(i, os, g.nchs);
    StripeIndex(k, g.nchs, os, i);
    var w, l, ch, r := k / g.lunsPerCh, k % g.lunsPerCh, i / os, i % os;
    WalkOrder(g, w, l, ch, r);
  }

  lemma AtLeastOne(g: Geo)
    requires g.Valid()
    ensures 1 <= g.pgsPerOneshotpg && 1 <= g.lunsPerCh
  {
  }

  lemma StripeIndex(k: nat, n: nat, os: nat, i: nat)
    requires 1 <= os
    ensures k * (n * os) + i == (k * n + i / os) * os + i % os
  {
    Associate(k, n, os);
    Euclid(i, os);
    Distribute(k * n, i / os, os);
  }

  // The ordinal of a page is the number of steps the walk takes to it.
  lemma OrdIsWalk(g: Geo, c: Coord)
    requires g.Valid() && ValidCoord(g, c)
    ensures Walk(g, Ord(g, c)) == Some(c)
  {
    OrdOk(g, c);
    WalkVisitsLine(g, Ord(g, c));
  }
}
