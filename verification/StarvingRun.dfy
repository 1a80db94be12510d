// How to starve the collector with one logical page more than T - 4 lines hold, on the machine
// of line counts.  T - 5 lines are filled and left alone; the other five hold P + 1 pages:
//
// * A line with P - 1 valid pages is collected, so one credit is handed out at a time.
// * Overwriting pages of the two open lines only, no victim arises for a whole line, and the
//   credits are refilled without a collection: the budget falls to about P pages.
// * From then on the best victim is kept at one page until the copy pointer stands two pages
//   before its end (Rounds), and then at two pages with no line free (Starved).
module StarvingRun {
  import opened FtlModel
  import opened FtlRuns
  import opened LineMachine

  // n pages of one of the open lines, or new ones, written without filling the host line.
  function Burnt(a: Lines, p: Spot, n: nat): Lines
    requires p == OnCopy ==> n <= a.gpc
  {
    a.(wp := Page(a.wp.line, a.wp.ord + n),
       wpc := if p == OnHost then a.wpc else a.wpc + n,
       gpc := if p == OnCopy then a.gpc - n else a.gpc,
       used := if p == Nowhere then a.used + n else a.used,
       credits := a.credits - n)
  }

  predicate CanBurn(c: Config, a: Lines, p: Spot, n: nat) {
    && (p == OnHost || p == OnCopy || p == Nowhere)
    && (p == OnHost ==> a.wpc > 0) && (p == OnCopy ==> n <= a.gpc)
    && a.wp.ord + n < c.P
  }

  lemma {:induction false} Burn(c: Config, s: Lines, a: Lines, p: Spot, n: nat) returns (b: Lines)
    requires Leads(c, s, a) && CanBurn(c, a, p, n) && n <= a.credits
    ensures b == Burnt(a, p, n) && Leads(c, s, b)
  {
    hide Leads;
    if n == 0 {
      b := a;
    } else {
      b := Burn(c, s, a, p, n - 1);
      b := Do(c, s, b, Write(p));
    }
  }

  // The same with one credit at a time and no victim to collect.
  lemma {:induction false} BurnSingly(c: Config, s: Lines, a: Lines, p: Spot, n: nat) returns (b: Lines)
    requires Leads(c, s, a) && CanBurn(c, a, p, n) && a.credits == a.refill == 1 && a.victims == map[]
    ensures b == Burnt(a, p, n).(credits := 1) && Leads(c, s, b)
  {
    hide Leads;
    if n == 0 {
      b := a;
    } else {
      b := BurnSingly(c, s, a, p, n - 1);
      b := Do(c, s, b, Write(p));
      b := Do(c, s, b, Refill);
    }
  }

  lemma Do(c: Config, s: Lines, a: Lines, e: Event) returns (b: Lines)
    requires Leads(c, s, a) && Can(c, a, e)
    ensures b == After(c, a, e) && Leads(c, s, b)
  {
    hide Leads, Can, After;
    b := After(c, a, e);
    Once(c, a, e);
    Then(c, s, a, b);
  }

  predicate Five(c: Config, w: nat, g: nat, p: nat, q: nat, r: nat) {
    && w < c.T && g < c.T && p < c.T && q < c.T && r < c.T
    && w != g && w != p && w != q && w != r && g != p && g != q && g != r
    && p != q && p != r && q != r
  }

  // Two empty open lines, three free ones, all others full.
  function Opened(c: Config, w: nat, g: nat, p: nat, q: nat, r: nat, used: nat): Lines
  {
    Lines([p, q, r], Page(w, 0), 0, Page(g, 0), 0, map[], c.P, c.P, used)
  }

  // A line with P - 1 valid pages has been collected.
  function OneCredit(c: Config, w: nat, g: nat, p: nat, q: nat, r: nat, used: nat): Lines
    requires c.P >= 5
  {
    Lines([q, r, w], Page(p, 0), 0, Page(g, c.P - 1), c.P - 1, map[], 1, 1, used + c.P - 1)
  }

  lemma ToOneCredit(c: Config, s: Lines, w: nat, g: nat, p: nat, q: nat, r: nat, used: nat)
    requires c.P >= 5 && Five(c, w, g, p, q, r)
    requires Leads(c, s, Opened(c, w, g, p, q, r, used))
    ensures Leads(c, s, OneCredit(c, w, g, p, q, r, used))
  {
    hide Leads;
    var a := Burn(c, s, Opened(c, w, g, p, q, r, used), Nowhere, c.P - 1);
    a := Do(c, s, a, Write(OnHost));
    assert a.victims == map[w := c.P - 1];
    a := Do(c, s, a, Collect(w));
    assert a == OneCredit(c, w, g, p, q, r, used);
  }

  // A line filled from the copy line, another one opened.
  function Drained(c: Config, w: nat, g: nat, p: nat, q: nat, r: nat, used: nat): Lines
    requires c.P >= 5
  {
    Lines([r, w], Page(q, c.P - 2), 1, Page(g, c.P - 1), 0, map[], 1, 1, used + c.P + 1)
  }

  lemma ToDrained(c: Config, s: Lines, w: nat, g: nat, p: nat, q: nat, r: nat, used: nat)
    requires c.P >= 5 && Five(c, w, g, p, q, r)
    requires Leads(c, s, OneCredit(c, w, g, p, q, r, used))
    ensures Leads(c, s, Drained(c, w, g, p, q, r, used))
  {
    hide Leads;
    var a := BurnSingly(c, s, OneCredit(c, w, g, p, q, r, used), Nowhere, 2);
    a := BurnSingly(c, s, a, OnCopy, c.P - 3);
    a := Do(c, s, a, Write(OnCopy));
    a := Do(c, s, a, Refill);
    a := Do(c, s, a, Write(OnCopy));
    a := Do(c, s, a, Refill);
    a := BurnSingly(c, s, a, OnHost, c.P - 3);
    assert a == Drained(c, w, g, p, q, r, used);
  }

  // Two collections, of P - 1 pages and of one page; one victim is left, with two.
  function TwoLeft(c: Config, w: nat, g: nat, p: nat, q: nat, r: nat, used: nat): Lines
    requires c.P >= 5
  {
    Lines([p, g], Page(w, 0), 0, Page(r, c.P - 1), c.P - 1, map[q := 2], c.P - 1, c.P - 1, used + c.P + 1)
  }

  lemma ToTwoLeft(c: Config, s: Lines, w: nat, g: nat, p: nat, q: nat, r: nat, used: nat)
    requires c.P >= 5 && Five(c, w, g, p, q, r)
    requires Leads(c, s, Drained(c, w, g, p, q, r, used))
    ensures Leads(c, s, TwoLeft(c, w, g, p, q, r, used))
  {
    hide Leads;
    var a := Do(c, s, Drained(c, w, g, p, q, r, used), Write(OnFull(p)));
    assert a.victims == map[p := c.P - 1];
    a := Do(c, s, a, Collect(p));
    assert a.victims == map[g := 1];
    a := Do(c, s, a, Write(OnHost));
    assert a.victims == map[g := 1, q := 2];
    a := Do(c, s, a, Collect(g));
    assert a.victims == map[q := 2];
    assert a == TwoLeft(c, w, g, p, q, r, used);
  }

  // The last collection that wins a whole line; nothing is left to collect.
  function Cheap(c: Config, w: nat, g: nat, p: nat, q: nat, r: nat, used: nat): Lines
    requires c.P >= 5
  {
    Lines([p, g, q], Page(w, c.P - 1), c.P - 1, Page(r, c.P - 1), 2, map[], c.P, c.P, used + c.P + 1)
  }

  lemma ToCheap(c: Config, s: Lines, w: nat, g: nat, p: nat, q: nat, r: nat, used: nat)
    requires c.P >= 5 && Five(c, w, g, p, q, r)
    requires Leads(c, s, TwoLeft(c, w, g, p, q, r, used))
    ensures Leads(c, s, Cheap(c, w, g, p, q, r, used))
  {
    hide Leads;
    var a := Do(c, s, TwoLeft(c, w, g, p, q, r, used), Write(OnVictim(q)));
    a := Do(c, s, a, Write(OnVictim(q)));
    a := Burn(c, s, a, OnCopy, c.P - 3);
    assert a.victims == map[q := 0];
    a := Do(c, s, a, Collect(q));
    assert a == Cheap(c, w, g, p, q, r, used);
  }

  // P more credits without a collection.
  function Unpaid(c: Config, w: nat, g: nat, p: nat, q: nat, r: nat, used: nat): Lines
    requires c.P >= 5
  {
    Lines([g, q], Page(p, c.P - 1), 1, Page(r, c.P - 1), 0, map[], c.P, c.P, used + c.P + 1)
  }

  lemma ToUnpaid(c: Config, s: Lines, w: nat, g: nat, p: nat, q: nat, r: nat, used: nat)
    requires c.P >= 5 && Five(c, w, g, p, q, r)
    requires Leads(c, s, Cheap(c, w, g, p, q, r, used))
    ensures Leads(c, s, Unpaid(c, w, g, p, q, r, used))
  {
    hide Leads;
    var a := Do(c, s, Cheap(c, w, g, p, q, r, used), Write(OnCopy));
    a := Do(c, s, a, Write(OnCopy));
    a := Burn(c, s, a, OnHost, c.P - 2);
    a := Do(c, s, a, Refill);
    assert a == Unpaid(c, w, g, p, q, r, used);
  }

  // k rounds on: one line free, the copy pointer at page k, the best victim the host line to be.
  function Round(c: Config, k: nat, f: nat, h: nat, g: nat, x: nat, y: nat, used: nat): Lines
    requires c.P >= 5 && 1 <= k <= c.P - 2
  {
    Lines([f], Page(h, c.P - 1 - k), 1, Page(g, k), 1, map[x := 2, y := c.P - 3], c.P - 1, c.P - 1, used)
  }

  lemma ToFirstRound(c: Config, s: Lines, w: nat, g: nat, p: nat, q: nat, r: nat, used: nat)
    requires c.P >= 5 && Five(c, w, g, p, q, r)
    requires Leads(c, s, Unpaid(c, w, g, p, q, r, used))
    ensures Leads(c, s, Round(c, 1, r, p, q, g, w, used + c.P + 1))
  {
    hide Leads;
    var a := Do(c, s, Unpaid(c, w, g, p, q, r, used), Write(OnHost));
    assert a.victims == map[p := 1];
    a := Do(c, s, a, Write(OnFull(w)));
    assert a.victims == map[p := 1, w := c.P - 1];
    a := Burn(c, s, a, OnHost, c.P - 2);
    a := Do(c, s, a, Collect(p));
    assert a.victims == map[r := 1, w := c.P - 1];
    ToFirstRoundEnd(c, s, w, g, p, q, r, a, used);
  }

  lemma ToFirstRoundEnd(c: Config, s: Lines, w: nat, g: nat, p: nat, q: nat, r: nat, a0: Lines, used: nat)
    requires c.P >= 5 && Five(c, w, g, p, q, r) && Leads(c, s, a0)
    requires a0 == Lines([p], Page(g, c.P - 1), 1, Page(q, 0), 0, map[r := 1, w := c.P - 1],
                         c.P - 1, c.P - 1, used + c.P + 1)
    ensures Leads(c, s, Round(c, 1, r, p, q, g, w, used + c.P + 1))
  {
    hide Leads;
    var a := Do(c, s, a0, Write(OnVictim(w)));
    assert a.victims == map[r := 1, w := c.P - 2, g := 2];
    a := Do(c, s, a, Write(OnVictim(w)));
    assert a.victims == map[r := 1, w := c.P - 3, g := 2];
    a := Burn(c, s, a, OnHost, c.P - 3);
    a := Do(c, s, a, Collect(r));
    assert a.victims == map[g := 2, w := c.P - 3];
    assert a == Round(c, 1, r, p, q, g, w, used + c.P + 1);
  }

  // One round: the host line is closed with one valid page and collected.
  lemma NextRound(c: Config, s: Lines, k: nat, f: nat, h: nat, g: nat, x: nat, y: nat, used: nat)
    requires c.P >= 5 && 1 <= k <= c.P - 3 && Five(c, f, h, g, x, y)
    requires Leads(c, s, Round(c, k, f, h, g, x, y, used))
    ensures Leads(c, s, Round(c, k + 1, h, f, g, x, y, used))
  {
    hide Leads;
    var a := Burn(c, s, Round(c, k, f, h, g, x, y, used), OnHost, k);
    a := Do(c, s, a, Write(OnHost));
    assert a.victims == map[h := 1, x := 2, y := c.P - 3];
    a := Do(c, s, a, Write(OnCopy));
    a := Burn(c, s, a, OnHost, c.P - 3 - k);
    a := Do(c, s, a, Collect(h));
    assert a.victims == map[x := 2, y := c.P - 3];
    assert a == Round(c, k + 1, h, f, g, x, y, used);
  }

  lemma {:induction false} Rounds(c: Config, s: Lines, k: nat, f: nat, h: nat, g: nat, x: nat, y: nat, used: nat)
    returns (e: nat, i: nat)
    requires c.P >= 5 && 1 <= k <= c.P - 2 && Five(c, f, h, g, x, y)
    requires Leads(c, s, Round(c, k, f, h, g, x, y, used))
    ensures Five(c, e, i, g, x, y) && Leads(c, s, Round(c, c.P - 2, e, i, g, x, y, used))
    decreases c.P - k
  {
    hide Leads;
    if k == c.P - 2 {
      e, i := f, h;
    } else {
      NextRound(c, s, k, f, h, g, x, y, used);
      e, i := Rounds(c, s, k + 1, h, f, g, x, y, used);
    }
  }

  // The credits are used up, no line is free, every victim holds at least two pages and the copy
  // pointer has only two left.
  predicate Starved(c: Config, a: Lines) {
    && a.credits == 0 && a.free == [] && a.gcWp.ord + 2 == c.P && a.victims != map[]
    && forall v :: v in a.victims ==> a.victims[v] >= 2
  }

  lemma ToStarved(c: Config, s: Lines, f: nat, h: nat, g: nat, x: nat, y: nat, used: nat) returns (b: Lines)
    requires c.P >= 5 && Five(c, f, h, g, x, y)
    requires Leads(c, s, Round(c, c.P - 2, f, h, g, x, y, used))
    ensures Leads(c, s, b) && Starved(c, b) && b.used == used
  {
    hide Leads;
    b := Do(c, s, Round(c, c.P - 2, f, h, g, x, y, used), Write(OnCopy));
    b := Burn(c, s, b, OnHost, c.P - 3);
    b := Do(c, s, b, Write(OnHost));
    assert h in b.victims;
  }

  lemma FromOpened(c: Config, s: Lines, w: nat, g: nat, p: nat, q: nat, r: nat, used: nat) returns (b: Lines)
    requires c.P >= 5 && Five(c, w, g, p, q, r)
    requires Leads(c, s, Opened(c, w, g, p, q, r, used))
    ensures Leads(c, s, b) && Starved(c, b) && b.used == used + c.P + 1
  {
    hide *;
    ToOneCredit(c, s, w, g, p, q, r, used);
    ToDrained(c, s, w, g, p, q, r, used);
    ToTwoLeft(c, s, w, g, p, q, r, used);
    ToCheap(c, s, w, g, p, q, r, used);
    ToUnpaid(c, s, w, g, p, q, r, used);
    ToFirstRound(c, s, w, g, p, q, r, used);
    Shuffled(c, w, g, p, q, r);
    var e, i := Rounds(c, s, 1, r, p, q, g, w, used + c.P + 1);
    b := ToStarved(c, s, e, i, q, g, w, used + c.P + 1);
  }

  lemma Shuffled(c: Config, w: nat, g: nat, p: nat, q: nat, r: nat)
    requires Five(c, w, g, p, q, r)
    ensures Five(c, r, p, q, g, w)
  {
  }

  // ----- Filling lines with new pages -----

  // What the initial state of the FTL shows.
  function Start(c: Config): Lines
    requires c.T >= 5
  {
    Lines(seq(c.T - 2, i => i + 2), Page(0, 0), 0, Page(1, 0), 0, map[], c.P, c.P, 0)
  }

  function HostAfter(m: nat): nat {
    if m == 0 then 0 else m + 1
  }

  // m lines filled.
  function FilledLines(c: Config, m: nat): Lines
    requires c.T >= 5 && m <= c.T - 2
  {
    Lines(Start(c).free[m..], Page(HostAfter(m), 0), 0, Page(1, 0), 0, map[], c.P, c.P, m * c.P)
  }

  lemma {:induction false} FillLines(c: Config, m: nat)
    requires c.T >= 5 && c.P >= 2 && m <= c.T - 2
    ensures Leads(c, Start(c), FilledLines(c, m))
  {
    hide Leads;
    if m == 0 {
      Stay(c, Start(c));
      assert FilledLines(c, 0) == Start(c);
    } else {
      FillLines(c, m - 1);
      var a := Burn(c, Start(c), FilledLines(c, m - 1), Nowhere, c.P - 1);
      a := Do(c, Start(c), a, Write(Nowhere));
      a := Do(c, Start(c), a, Refill);
      assert (m - 1) * c.P + c.P == m * c.P;
      assert a.free == Start(c).free[m..];
      assert a == FilledLines(c, m);
    }
  }

  // One logical page more than T - 4 lines hold is enough to starve the collector.
  lemma StarvingTrace(c: Config) returns (b: Lines)
    requires c.T >= 5 && c.P >= 5
    ensures Leads(c, Start(c), b) && Starved(c, b) && b.used == PagesOf(c, c.T - 4) + 1
  {
    hide Leads;
    var m, h := c.T - 5, HostAfter(c.T - 5);
    FillLines(c, m);
    assert Start(c).free[m..] == [m + 2, m + 3, m + 4];
    b := FromOpened(c, Start(c), h, 1, m + 2, m + 3, m + 4, m * c.P);
    assert m * c.P + c.P == (c.T - 4) * c.P;
  }

  // New pages only, until the host line needs another one and none is free.
  lemma FullTrace(c: Config) returns (b: Lines)
    requires c.T >= 5 && c.P >= 2
    ensures Leads(c, Start(c), b) && b.credits > 0 && b.used == PagesOf(c, c.T - 1) - 1
    ensures b.free == [] && b.wp.ord + 1 == c.P
  {
    hide Leads;
    FillLines(c, c.T - 2);
    b := Burn(c, Start(c), FilledLines(c, c.T - 2), Nowhere, c.P - 1);
    assert (c.T - 2) * c.P + c.P == (c.T - 1) * c.P;
  }
}
