// How the block addresses are shared between the two FTL threads: the address space is cut into
// units, of which every (1 + splitRatio)-th belongs to thread 0 and the others to thread 1
// (io.c, main.c and the warm-up in sgx_ftl.cpp).
module Split {
  import opened MixedRadix

  datatype Config = Config(units: nat, ratio: nat)   // FTL_split_units and split_ratio

  predicate Ok(c: Config) {
    0 < c.units && 0 < c.ratio
  }

  // The place of a block's unit in its period, and of the block in its unit.
  function Digit(c: Config, x: nat): (w: nat)
    requires Ok(c)
    ensures w <= c.ratio
  {
    x / c.units % (1 + c.ratio)
  }

  function Offs(c: Config, x: nat): (o: nat)
    requires Ok(c)
    ensures o < c.units
  {
    x % c.units
  }

  // Which thread a block belongs to.
  function Owner(c: Config, x: nat): nat
    requires Ok(c)
  {
    if Digit(c, x) == 0 then 0 else 1
  }

  // seg_units: how many blocks in a row belong to a thread.
  function SegUnits(c: Config, f: nat): nat {
    if f == 0 then c.units else c.ratio * c.units
  }

  function Other(f: nat): nat {
    if f == 0 then 1 else 0
  }

  // How many units from that of x on belong to the thread of x.
  function UnitsLeft(c: Config, x: nat): (n: nat)
    requires Ok(c)
    ensures n >= 1
  {
    if Digit(c, x) == 0 then 1 else 1 + c.ratio - Digit(c, x)
  }

  // How many blocks from x on belong to the thread of x.
  function Rest(c: Config, x: nat): nat
    requires Ok(c)
  {
    MulLe(1, UnitsLeft(c, x), c.units);
    UnitsLeft(c, x) * c.units - Offs(c, x)
  }

  // x is the first block of a stretch of its thread.
  predicate AtBoundary(c: Config, x: nat)
    requires Ok(c)
  {
    Offs(c, x) == 0 && Digit(c, x) <= 1
  }

  // ----- The shape of the address space -----

  lemma UnitAt(u: nat, m: nat, units: nat)
    requires 0 < units
    ensures (u * units + m) / units == u + m / units && (u * units + m) % units == m % units
  {
    Euclid(m, units);
    MixDivMod(u + m / units, m % units, units);
    Distribute(u, m / units, units);
  }

  lemma DigitAt(t: nat, w: nat, radix: nat)
    requires w < radix
    ensures (t * radix + w) % radix == w
  {
    MixDivMod(t, w, radix);
  }

  lemma DivBelow(m: nat, n: nat, units: nat)
    requires 0 < units
    ensures m < n * units <==> m / units < n
  {
    Euclid(m, units);
    MulLe(n, m / units, units);
    MulLe(m / units + 1, n, units);
    Distribute(m / units, 1, units);
  }

  // How many units further a block k behind x lies.
  function Ahead(c: Config, x: nat, k: nat): nat
    requires Ok(c)
  {
    (Offs(c, x) + k) / c.units
  }

  lemma DigitAhead(c: Config, x: nat, k: nat)
    requires Ok(c)
    ensures var a := Ahead(c, x, k);
      && (Digit(c, x) + a <= c.ratio ==> Digit(c, x + k) == Digit(c, x) + a)
      && (Digit(c, x) + a == 1 + c.ratio ==> Digit(c, x + k) == 0)
      && Offs(c, x + k) == (Offs(c, x) + k) % c.units
  {
    var u, radix, a := x / c.units, 1 + c.ratio, Ahead(c, x, k);
    var w := u % radix;
    Euclid(x, c.units);
    UnitAt(u, x % c.units + k, c.units);
    Euclid(u, radix);
    if w + a < radix { DigitAt(u / radix, w + a, radix); }
    if w + a == radix {
      DigitAt(u / radix + 1, 0, radix);
      Distribute(u / radix, 1, radix);
    }
  }

  lemma RestAhead(c: Config, x: nat, k: nat)
    requires Ok(c)
    ensures 0 < Rest(c, x)
    ensures k < Rest(c, x) ==> Ahead(c, x, k) < UnitsLeft(c, x)
    ensures k == Rest(c, x) ==> Ahead(c, x, k) == UnitsLeft(c, x) && (Offs(c, x) + k) % c.units == 0
  {
    hide Offs, UnitsLeft;
    var n := UnitsLeft(c, x);
    MulLe(1, n, c.units);
    if k == Rest(c, x) {
      UnitAt(n, 0, c.units);
    } else {
      DivBelow(Offs(c, x) + k, n, c.units);
    }
  }

  // Thread of x exactly up to Rest(x), where the other thread's next stretch begins.
  lemma RestIsOwn(c: Config, x: nat, k: nat)
    requires Ok(c) && k <= Rest(c, x)
    ensures 0 < Rest(c, x)
    ensures k < Rest(c, x) ==> Owner(c, x + k) == Owner(c, x)
    ensures k == Rest(c, x) ==> Owner(c, x + k) == Other(Owner(c, x)) && AtBoundary(c, x + k)
  {
    hide Digit, Offs, Rest, Ahead;
    RestAhead(c, x, k);
    DigitAhead(c, x, k);
  }

  lemma BoundaryRest(c: Config, x: nat)
    requires Ok(c)
    ensures Rest(c, x) <= SegUnits(c, Owner(c, x))
    ensures AtBoundary(c, x) <==> Rest(c, x) == SegUnits(c, Owner(c, x))
  {
    hide Digit, Offs;
    var w := Digit(c, x);
    if w >= 1 {
      MulLe(1 + c.ratio - w, c.ratio, c.units);
      if w >= 2 {
        MulLe(1 + c.ratio - w, c.ratio - 1, c.units);
        Distribute(c.ratio - 1, 1, c.units);
      }
    }
  }

  // ----- Splitting a request -----

  datatype Piece = Piece(ftl: nat, slpa: nat, nlb: nat)

  function Min(a: nat, b: nat): nat {
    if a <= b then a else b
  }

  function Pieces(c: Config, f: nat, slpa: nat, nlb: nat): seq<Piece>
    requires Ok(c)
    decreases nlb
  {
    if nlb == 0 then [] else
    var cur := Min(nlb, SegUnits(c, f));
    if cur == 0 then [] else [Piece(f, slpa, cur)] + Pieces(c, Other(f), slpa + cur, nlb - cur)
  }

  lemma OwnerIs(c: Config, x: nat)
    requires Ok(c)
    ensures Owner(c, x) <= 1
  {
  }

  lemma PiecesNext(c: Config, f: nat, slpa: nat, nlb: nat, before: seq<Piece>)
    requires Ok(c) && nlb > 0
    ensures Min(nlb, SegUnits(c, f)) > 0
    ensures var cur := Min(nlb, SegUnits(c, f));
      before + Pieces(c, f, slpa, nlb) == before + [Piece(f, slpa, cur)] + Pieces(c, Other(f), slpa + cur, nlb - cur)
  {
    MulLe(1, c.ratio, c.units);
  }

  lemma PiecesNone(c: Config, f: nat, slpa: nat, before: seq<Piece>)
    requires Ok(c)
    ensures before + Pieces(c, f, slpa, 0) == before
  {
  }

  // The loop of enqueue_io_req_to_ftl for two threads.
  method SplitRequest(c: Config, slba: nat, nlb: nat) returns (ps: seq<Piece>)
    requires Ok(c)
    ensures ps == Pieces(c, Owner(c, slba), slba, nlb)
  {
    hide Owner, Pieces;
    var slpa, left: nat, f: nat := slba, nlb, Owner(c, slba);
    ps := [];
    OwnerIs(c, slba);
    while left > 0
      invariant 0 <= left && f <= 1 && slba <= slpa
      invariant ps + Pieces(c, f, slpa, left) == Pieces(c, Owner(c, slba), slba, nlb)
    {
      PiecesNext(c, f, slpa, left, ps);
      var cur := Min(left, SegUnits(c, f));
      ps := ps + [Piece(f, slpa, cur)];
      slpa := slpa + cur;
      left := left - cur;
      f := f + 1;
      if f >= 2 {
        f := 0;
      }
    }
    PiecesNone(c, f, slpa, ps);
  }

  // All blocks of a piece belong to the thread it is sent to.
  ghost predicate Owned(c: Config, p: Piece)
    requires Ok(c)
  {
    forall x: nat :: p.slpa <= x < p.slpa + p.nlb ==> Owner(c, x) == p.ftl
  }

  lemma {:induction false} BoundaryOwned(c: Config, slpa: nat, nlb: nat)
    requires Ok(c) && AtBoundary(c, slpa)
    ensures forall p :: p in Pieces(c, Owner(c, slpa), slpa, nlb) ==> Owned(c, p)
    decreases nlb
  {
    hide Owner, Rest, AtBoundary, SegUnits;
    if nlb == 0 {
    } else {
      var f := Owner(c, slpa);
      BoundaryRest(c, slpa);
      RestIsOwn(c, slpa, Rest(c, slpa));
      var cur := Min(nlb, SegUnits(c, f));
      forall x: nat | slpa <= x < slpa + cur ensures Owner(c, x) == f {
        RestIsOwn(c, slpa, x - slpa);
      }
      assert Owned(c, Piece(f, slpa, cur));
      if cur < nlb {
        BoundaryOwned(c, slpa + cur, nlb - cur);
      }
    }
  }

  // Every piece of a request stays with the thread it belongs to exactly if the request starts at
  // a boundary or does not reach the next one.
  lemma PiecesOwnedIff(c: Config, slba: nat, nlb: nat)
    requires Ok(c)
    ensures (forall p :: p in Pieces(c, Owner(c, slba), slba, nlb) ==> Owned(c, p)) <==>
            AtBoundary(c, slba) || nlb <= Rest(c, slba)
  {
    var f, rest := Owner(c, slba), Rest(c, slba);
    var ps := Pieces(c, f, slba, nlb);
    BoundaryRest(c, slba);
    RestIsOwn(c, slba, rest);
    if AtBoundary(c, slba) {
      BoundaryOwned(c, slba, nlb);
    } else if nlb > 0 {
      var cur := Min(nlb, SegUnits(c, f));
      assert ps[0] == Piece(f, slba, cur);
      if nlb <= rest {
        forall x: nat | slba <= x < slba + nlb ensures Owner(c, x) == f {
          RestIsOwn(c, slba, x - slba);
        }
        assert ps == [Piece(f, slba, nlb)];
      } else {
        assert Owner(c, ps[0].slpa + rest) != ps[0].ftl;
        assert !Owned(c, ps[0]);
      }
    }
  }

  // ----- The warm-up of thread 1 -----

  // What the warm-up divides by: a page is 8 blocks, and FTL_split_units a multiple of 8.
  function Single(c: Config): nat {
    c.units / 8
  }

  predicate PageUnits(c: Config) {
    Ok(c) && c.units % 8 == 0
  }

  lemma DivUnit(c: Config)
    requires PageUnits(c)
    ensures 0 < Single(c) && c.units == 8 * Single(c) && 0 < Single(c) * c.ratio
    ensures Single(c) * (1 + c.ratio) == Single(c) * c.ratio + Single(c)
  {
    MulLe(1, c.ratio, Single(c));
    Distribute(1, c.ratio, Single(c));
  }

  // The i-th page that ssd_warm_up fills.
  function WarmUpLpn(c: Config, i: nat): nat
    requires PageUnits(c)
  {
    DivUnit(c);
    i / (Single(c) * c.ratio) * (Single(c) * (1 + c.ratio)) + Single(c) + i % (Single(c) * c.ratio)
  }

  lemma Scale(a: nat, b: nat)
    requires 0 < b
    ensures a * 8 / (8 * b) == a / b
  {
    Euclid(a, b);
    MixDivMod(a / b, a % b * 8, 8 * b);
    Eight(a / b, b);
  }

  lemma Eight(q: nat, b: nat)
    ensures q * (8 * b) == q * b * 8
  {
  }

  // The unit a page lies in, from its place in the period.
  lemma PageDigit(c: Config, t: nat, q: nat)
    requires PageUnits(c) && q < Single(c) * (1 + c.ratio)
    ensures var lpn := t * (Single(c) * (1 + c.ratio)) + q;
      lpn * 8 / c.units % (1 + c.ratio) == q / Single(c)
  {
    DivUnit(c);
    var n, radix := Single(c), 1 + c.ratio;
    var lpn := t * (n * radix) + q;
    Scale(lpn, n);
    Regroup(t, n, radix);
    UnitAt(t * radix, q, n);
    DivBelow(q, radix, n);
    DigitAt(t, q / n, radix);
  }

  lemma Regroup(t: nat, n: nat, radix: nat)
    ensures t * (n * radix) == t * radix * n
  {
  }

  // What the warm-up asserts of each page: it belongs to thread 1.
  lemma WarmUpOwned(c: Config, i: nat)
    requires PageUnits(c)
    ensures WarmUpLpn(c, i) * 8 / c.units % (1 + c.ratio) > 0
    ensures Owner(c, WarmUpLpn(c, i) * 8) == 1
  {
    DivUnit(c);
    var n, pid := Single(c), i % (Single(c) * c.ratio);
    PageDigit(c, i / (n * c.ratio), n + pid);
    DivBelow(n + pid, 1, n);
  }

  // No page is filled twice: the pages are visited in ascending order.
  lemma WarmUpAscends(c: Config, i: nat, j: nat)
    requires PageUnits(c) && i < j
    ensures WarmUpLpn(c, i) < WarmUpLpn(c, j)
  {
    DivUnit(c);
    var d, g := Single(c) * c.ratio, Single(c) * (1 + c.ratio);
    Euclid(i, d);
    Euclid(j, d);
    MulLe(j / d + 1, i / d, d);
    Distribute(j / d, 1, d);
    MulLe(i / d + 1, j / d, g);
    Distribute(i / d, 1, g);
  }

  // How many pages ssd_warm_up fills: half of thread 1's share of the host's pages.
  function WarmUpPages(c: Config, hostPages: nat): nat {
    hostPages * 50 / 100 * c.ratio / (1 + c.ratio)
  }

  // That share to the page: ratio of every 1 + ratio pages, rounded down.
  lemma WarmUpShare(c: Config, hostPages: nat)
    ensures var n := WarmUpPages(c, hostPages);
      n * (1 + c.ratio) <= (hostPages / 2) * c.ratio < (n + 1) * (1 + c.ratio)
  {
    var h, n := hostPages * 50 / 100, WarmUpPages(c, hostPages);
    assert h == hostPages / 2;
    Euclid(h * c.ratio, 1 + c.ratio);
    Distribute(n, 1, 1 + c.ratio);
  }

  lemma WarmUpFewer(c: Config, hostPages: nat)
    ensures WarmUpPages(c, hostPages) <= hostPages
    ensures WarmUpPages(c, hostPages) * (1 + c.ratio) <= (hostPages / 2) * c.ratio
  {
    var h := hostPages * 50 / 100;
    assert h == hostPages / 2;
    Euclid(h * c.ratio, 1 + c.ratio);
    var n := WarmUpPages(c, hostPages);
    assert n * (1 + c.ratio) == n * c.ratio + n;
    if n > h {
      MulLe(h, n, c.ratio);
    }
  }

  // They lie within the host's pages if two pieces of thread 0 do.
  lemma WarmUpFits(c: Config, hostPages: nat, i: nat)
    requires PageUnits(c) && 2 * Single(c) <= hostPages && i < WarmUpPages(c, hostPages)
    ensures WarmUpLpn(c, i) < hostPages
  {
    hide WarmUpPages, Single, WarmUpLpn;
    WarmUpFewer(c, hostPages);
    var q := WarmUpSum(c, i);
    WarmUpBound(i, q, Single(c), c.ratio, hostPages / 2, WarmUpPages(c, hostPages));
    TwoHalves(i + q * Single(c), Single(c), hostPages);
  }

  lemma TwoHalves(a: nat, b: nat, n: nat)
    requires a < n / 2 && 2 * b <= n
    ensures a + b < n
  {
  }

  // Page i lies one unit of thread 0 behind for each period passed, and one more.
  lemma WarmUpSum(c: Config, i: nat) returns (q: nat)
    requires PageUnits(c)
    ensures 1 <= c.ratio && q * (Single(c) * c.ratio) <= i
    ensures WarmUpLpn(c, i) == i + q * Single(c) + Single(c)
  {
    hide Single;
    DivUnit(c);
    var d := Single(c) * c.ratio;
    q := i / d;
    Euclid(i, d);
    Spread(q, d, Single(c));
  }

  lemma Spread(q: nat, a: nat, b: nat)
    ensures q * (a + b) == q * a + q * b
  {
  }

  lemma WarmUpBound(i: nat, q: nat, s: nat, r: nat, half: nat, n: nat)
    requires i < n && n * (1 + r) <= half * r && q * (s * r) <= i && 1 <= r
    ensures i + q * s < half
  {
    Associate(q, s, r);
    MulLe(i + 1, n, 1 + r);
    Spread(i + 1, 1, r);
    Distribute(i, q * s, r);
    Distribute(i, 1, r);
    MulLe(half, i + q * s, r);
  }

  lemma Associate(x: nat, y: nat, z: nat)
    ensures (x * y) * z == x * (y * z)
  {
  }

  // And no page of thread 1 is left out on the way.
  lemma WarmUpReaches(c: Config, lpn: nat)
    requires PageUnits(c) && Owner(c, lpn * 8) == 1
    ensures exists i: nat :: WarmUpLpn(c, i) == lpn
  {
    DivUnit(c);
    var n, d, g := Single(c), Single(c) * c.ratio, Single(c) * (1 + c.ratio);
    var t, q := lpn / g, lpn % g;
    Euclid(lpn, g);
    PageDigit(c, t, q);
    DivBelow(q, 1, n);
    var i := t * d + (q - n);
    MixDivMod(t, q - n, d);
    assert WarmUpLpn(c, i) == lpn;
  }
}
