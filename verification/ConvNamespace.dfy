// conv_write over a namespace: logical pages are dealt out over the partitions in turn, each
// partition being one FTL instance of its own.
module ConvNamespace {
  import opened Wrappers
  import opened Collections
  import opened MixedRadix
  import opened Geometry
  import opened FtlModel
  import opened FtlRuns
  import opened ConvFtl

  // ----- The host's logical pages and the partitions' -----

  predicate InRange<D>(views: seq<seq<Option<D>>>, lpn: nat) {
    |views| > 0 && lpn / |views| < |views[lpn % |views|]|
  }

  function HostRead<D>(views: seq<seq<Option<D>>>, lpn: nat): Option<D>
    requires InRange(views, lpn)
  {
    views[lpn % |views|][lpn / |views|]
  }

  function HostPut<D>(views: seq<seq<Option<D>>>, lpn: nat, d: D): seq<seq<Option<D>>>
    requires InRange(views, lpn)
  {
    var p := lpn % |views|;
    views[p := views[p][lpn / |views| := Some(d)]]
  }

  // The pages go round the partitions, so page k of partition p is logical page k * n + p.
  lemma DealtOut<D>(views: seq<seq<Option<D>>>, p: nat, k: nat)
    requires p < |views| && k < |views[p]|
    ensures InRange(views, k * |views| + p) && HostRead(views, k * |views| + p) == views[p][k]
  {
    MixDivMod(k, p, |views|);
  }

  // No two logical pages share a place: a write is seen at its own page only.
  lemma PutThenRead<D>(views: seq<seq<Option<D>>>, lpn: nat, d: D, m: nat)
    requires InRange(views, lpn) && InRange(views, m)
    ensures InRange(HostPut(views, lpn, d), m)
    ensures HostRead(HostPut(views, lpn, d), m) == if m == lpn then Some(d) else HostRead(views, m)
  {
    var n := |views|;
    DivModUnique(lpn, m, n);
  }

  lemma DivModUnique(a: nat, b: nat, n: nat)
    requires n > 0
    ensures a % n == b % n && a / n == b / n ==> a == b
  {
    assert a == (a / n) * n + a % n;
    assert b == (b / n) * n + b % n;
  }

  // What a run of consecutive writes leaves behind.
  ghost predicate Written<D>(before: seq<seq<Option<D>>>, after: seq<seq<Option<D>>>, start: nat, ds: seq<D>, k: nat) {
    && |after| == |before| && (forall p :: 0 <= p < |before| ==> |after[p]| == |before[p]|)
    && forall m: nat :: InRange(before, m) ==> 
         InRange(after, m) &&
         HostRead(after, m) ==
         if start <= m < start + k && m - start < |ds| then Some(ds[m - start]) else HostRead(before, m)
  }

  lemma WrittenStep<D>(before: seq<seq<Option<D>>>, after: seq<seq<Option<D>>>, start: nat, ds: seq<D>, k: nat)
    requires Written(before, after, start, ds, k) && k < |ds| && InRange(before, start + k)
    ensures InRange(after, start + k)
    ensures Written(before, HostPut(after, start + k, ds[k]), start, ds, k + 1)
  {
    var next := HostPut(after, start + k, ds[k]);
    forall m: nat | InRange(before, m)
      ensures InRange(next, m)
      ensures HostRead(next, m) ==
        if start <= m < start + (k + 1) && m - start < |ds| then Some(ds[m - start]) else HostRead(before, m)
    {
      PutThenRead(after, start + k, ds[k], m);
    }
  }

  // ----- The loop of conv_write, on the states of the partitions -----

  ghost function Views<D>(parts: seq<State<D>>): (v: seq<seq<Option<D>>>) {
    seq(|parts|, p requires 0 <= p < |parts| => View(parts[p]))
  }

  // One iteration: the partition of lpn takes the write, the others stay.
  ghost predicate PartWrite<D>(c: Config, before: seq<State<D>>, lpn: nat, d: D, after: seq<State<D>>) {
    var n := |before|;
    && n > 0 && |after| == n
    && HostWrite(c, before[lpn % n], lpn / n, d, after[lpn % n])
    && after == before[lpn % n := after[lpn % n]]
  }

  ghost predicate AllGood<D>(c: Config, parts: seq<State<D>>, ttPgs: nat) {
    && |parts| > 0 && forall p :: 0 <= p < |parts| ==> Good(c, parts[p]) && |parts[p].maptbl| == ttPgs
  }

  // The local pages of partition p that the writes touch.
  ghost function Locals(start: nat, k: nat, n: nat, p: nat): set<nat>
    requires n > 0
  {
    set m: nat | start <= m < start + k && m % n == p :: m / n
  }

  // conv_write refuses a request that reaches past the partitions; otherwise it writes the
  // pages one by one.
  ghost predicate ConvWrite<D>(c: Config, ss: seq<seq<State<D>>>, start: nat, ds: seq<D>, ttPgs: nat) {
    && |ds| > 0 && |ss| > 0 && |ss[0]| > 0
    && if (start + |ds| - 1) / |ss[0]| >= ttPgs then |ss| == 1
       else |ss| == |ds| + 1 && forall k :: 0 <= k < |ds| ==> PartWrite(c, ss[k], start + k, ds[k], ss[k + 1])
  }

  lemma PartWriteOk<D>(c: Config, before: seq<State<D>>, lpn: nat, d: D, after: seq<State<D>>, ttPgs: nat)
    requires AllGood(c, before, ttPgs) && PartWrite(c, before, lpn, d, after)
    requires lpn / |before| < ttPgs && Spare(c, before[lpn % |before|], {lpn / |before|})
    ensures AllGood(c, after, ttPgs)
    ensures InRange(Views(before), lpn) && Views(after) == HostPut(Views(before), lpn, d)
    ensures forall p :: 0 <= p < |before| ==>
              Mapped(after[p]) ==
              if p == lpn % |before| then Mapped(before[p]) + {lpn / |before|} else Mapped(before[p])
  {
    hide Good, HostWrite, View, Spare, Mapped;
    var p := lpn % |before|;
    HostWriteOk(c, before[p], lpn / |before|, d, after[p]);
    ViewLength(before[p]);
    ViewLength(after[p]);
  }

  // A whole host write: every partition stays good, every page written reads back its new
  // payload and every other page what it held before; a refused request changes nothing.
  lemma ConvWriteOk<D>(c: Config, ss: seq<seq<State<D>>>, start: nat, ds: seq<D>, ttPgs: nat)
    requires ConvWrite(c, ss, start, ds, ttPgs) && AllGood(c, ss[0], ttPgs)
    requires forall p :: 0 <= p < |ss[0]| ==> Spare(c, ss[0][p], Locals(start, |ds|, |ss[0]|, p))
    ensures |ss| == 1 <==> (start + |ds| - 1) / |ss[0]| >= ttPgs
    ensures |ss| > 1 ==> AllGood(c, ss[|ds|], ttPgs)
    ensures |ss| > 1 ==> Written(Views(ss[0]), Views(ss[|ds|]), start, ds, |ds|)
  {
    if |ss| > 1 { ConvWritePrefix(c, ss, start, ds, ttPgs, |ds|); }
  }

  lemma {:induction false} ConvWritePrefix<D>(c: Config, ss: seq<seq<State<D>>>, start: nat, ds: seq<D>, ttPgs: nat,
                                              k: nat)
    requires ConvWrite(c, ss, start, ds, ttPgs) && |ss| > 1 && k <= |ds|
    requires AllGood(c, ss[0], ttPgs)
    requires forall p :: 0 <= p < |ss[0]| ==> Spare(c, ss[0][p], Locals(start, |ds|, |ss[0]|, p))
    ensures AllGood(c, ss[k], ttPgs) && |ss[k]| == |ss[0]|
    ensures Written(Views(ss[0]), Views(ss[k]), start, ds, k)
    ensures forall p :: 0 <= p < |ss[0]| ==> Mapped(ss[k][p]) == Mapped(ss[0][p]) + Locals(start, k, |ss[0]|, p)
  {
    hide Good, View, Mapped, Spare, Written, HostWrite;
    var n := |ss[0]|;
    if k == 0 {
      WrittenNothing(Views(ss[0]), start, ds);
      forall p | 0 <= p < n ensures Mapped(ss[0][p]) == Mapped(ss[0][p]) + Locals(start, 0, n, p) {
        assert Locals(start, 0, n, p) == {};
      }
    } else {
      ConvWritePrefix(c, ss, start, ds, ttPgs, k - 1);
      var lpn := start + (k - 1);
      assert PartWrite(c, ss[k - 1], start + (k - 1), ds[k - 1], ss[k]);
      DivMonotone(lpn, start + |ds| - 1, n);
      SpareStep(c, ss[0][lpn % n], ss[k - 1][lpn % n], start, k - 1, |ds|, n, lpn % n);
      PartWriteOk(c, ss[k - 1], lpn, ds[k - 1], ss[k], ttPgs);
      InRangeViews(c, ss[0], lpn, ttPgs);
      WrittenStep(Views(ss[0]), Views(ss[k - 1]), start, ds, k - 1);
      forall p | 0 <= p < n ensures Mapped(ss[k][p]) == Mapped(ss[0][p]) + Locals(start, k, n, p) {
        LocalsStep(start, k - 1, n, p);
      }
    }
  }

  lemma DivMonotone(a: nat, b: nat, n: nat)
    requires a <= b && n > 0
    ensures a / n <= b / n
  {
    var x, y := a / n, b / n;
    Euclid(a, n);
    Euclid(b, n);
    MulLe(y + 1, x, n);
    assert (y + 1) * n == y * n + n;
  }

  lemma InRangeViews<D>(c: Config, parts: seq<State<D>>, lpn: nat, ttPgs: nat)
    requires AllGood(c, parts, ttPgs) && lpn / |parts| < ttPgs
    ensures InRange(Views(parts), lpn)
  {
    ViewLength(parts[lpn % |parts|]);
  }

  lemma WrittenNothing<D>(v: seq<seq<Option<D>>>, start: nat, ds: seq<D>)
    ensures Written(v, v, start, ds, 0)
  {
  }

  lemma LocalsStep(start: nat, k: nat, n: nat, p: nat)
    requires n > 0
    ensures Locals(start, k + 1, n, p) ==
            if (start + k) % n == p then Locals(start, k, n, p) + {(start + k) / n} else Locals(start, k, n, p)
  {
    var a, b := Locals(start, k, n, p), Locals(start, k + 1, n, p);
    forall l | l in a ensures l in b {
      var m: nat :| start <= m < start + k && m % n == p && l == m / n;
      assert start <= m < start + (k + 1);
    }
    if (start + k) % n == p {
      assert (start + k) / n in b;
    }
  }

  lemma SpareStep<D>(c: Config, s0: State<D>, s: State<D>, start: nat, k: nat, len: nat, n: nat, p: nat)
    requires n > 0 && k < len && (start + k) % n == p
    requires Spare(c, s0, Locals(start, len, n, p)) && Mapped(s) == Mapped(s0) + Locals(start, k, n, p)
    ensures Spare(c, s, {(start + k) / n})
  {
    var all := Locals(start, len, n, p);
    forall l | l in Locals(start, k, n, p) ensures l in all {
      var m: nat :| start <= m < start + k && m % n == p && l == m / n;
      assert start <= m < start + len;
    }
    assert (start + k) / n in all by {
      assert start <= start + k < start + len;
    }
    SubsetSize(Mapped(s) + {(start + k) / n}, Mapped(s0) + all);
  }

  // The namespace is sized at 100 / 107 of the flash (OP_AREA_PERCENT 0.07): from 62 lines on
  // that alone leaves four lines spare, so a host that stays inside it never starves the FTL.
  lemma OverProvisioningSuffices<D>(c: Config, s: State<D>, lpns: nat, more: set<nat>)
    requires c.T >= 62 && c.P >= 1 && lpns * 107 <= (c.T * c.P) * 100
    requires Mapped(s) + more <= Below(lpns)
    ensures Spare(c, s, more)
  {
    SubsetSize(Mapped(s) + more, Below(lpns));
    FourLines(c.T, c.P, lpns);
  }

  lemma FourLines(t: nat, p: nat, k: nat)
    requires t >= 62 && p >= 1 && k * 107 <= (t * p) * 100
    ensures k < (t - 4) * p
  {
    var n := t * p;
    assert (t - 4) * p == n - 4 * p;
    MulLe(62, t, p);
  }
}
