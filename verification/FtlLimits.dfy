// How many logical pages the FTL can serve: exactly T - 4 lines' worth.  Within that number no
// run of host writes starves it (FtlRuns.NeverStarves); with one more there is a run that does,
// whatever order the pages of a line are copied in.  The range check of conv_write (lpn <
// tt_pgs) is far above it.
module FtlLimits {
  import opened Wrappers
  import opened Collections
  import opened FtlModel
  import opened FtlRuns
  import opened FtlCollection
  import opened LineCountsOf
  import opened StarvingRun
  import LM = LineMachine

  // A run of the write loop that copies the pages of a line in the given order.
  ghost predicate IsCodeRun<D>(c: Config, order: seq<nat>, lpns: nat, d0: D, ss: seq<State<D>>, ops: seq<(nat, D)>) {
    && c.T >= 2
    && |ss| == |ops| + 1 && ss[0] == Init(c, lpns, d0)
    && (forall i :: 0 <= i < |ops| ==> ops[i].0 < lpns)
    && forall i :: 0 <= i < |ops| ==> CodeWrite(c, order, ss[i], ops[i].0, ops[i].1, ss[i + 1])
  }

  // Whenever a victim has to be chosen there is only one with the fewest valid pages.
  ghost predicate NoTies<D>(c: Config, ss: seq<State<D>>, ops: seq<(nat, D)>) {
    |ops| <= |ss| && forall i :: 0 <= i < |ops| ==> NoTie(c, ss[i], ops[i].0, ops[i].1)
  }

  ghost predicate NoTie<D>(c: Config, s: State<D>, lpn: nat, d: D) {
    CanWrite(c, s, lpn) ==> Forced(WritePage(c, s, lpn, d))
  }

  ghost predicate Forced<D>(u: State<D>) {
    u.credits <= 0 && |u.free| <= GC_THRES_LINES_HIGH ==>
      forall v, w :: IsVictim(u, v) && IsVictim(u, w) ==> v == w
  }

  lemma {:induction false} CodeRunIsRun<D>(c: Config, order: seq<nat>, lpns: nat, d0: D,
                                           ss: seq<State<D>>, ops: seq<(nat, D)>)
    requires c.T >= 5 && c.P >= 2 && IsOrder(c, order) && IsCodeRun(c, order, lpns, d0, ss, ops)
    ensures IsRun(c, lpns, d0, ss, ops) && Inv(c, ss[|ops|], -1, {})
  {
    hide CodeWrite, Inv, Init, HostWrite;
    var n := |ops|;
    if n == 0 {
      InitGood(c, lpns, d0);
    } else {
      assert CodeWrite(c, order, ss[n - 1], ops[n - 1].0, ops[n - 1].1, ss[n]);
      CodeRunPrefix(c, order, lpns, d0, ss, ops);
      CodeRunIsRun(c, order, lpns, d0, ss[..n], ops[..n - 1]);
      CodeWriteIsHostWrite(c, order, ss[n - 1], ops[n - 1].0, ops[n - 1].1, ss[n]);
      RunGrows(c, lpns, d0, ss, ops);
    }
  }

  lemma CodeRunPrefix<D>(c: Config, order: seq<nat>, lpns: nat, d0: D, ss: seq<State<D>>, ops: seq<(nat, D)>)
    requires IsCodeRun(c, order, lpns, d0, ss, ops) && ops != []
    ensures IsCodeRun(c, order, lpns, d0, ss[..|ops|], ops[..|ops| - 1])
  {
    hide CodeWrite, Init;
    var n := |ops|;
    forall i | 0 <= i < n - 1
      ensures CodeWrite(c, order, ss[..n][i], ops[..n - 1][i].0, ops[..n - 1][i].1, ss[..n][i + 1])
    {
      assert CodeWrite(c, order, ss[i], ops[i].0, ops[i].1, ss[i + 1]);
    }
  }

  lemma RunGrows<D>(c: Config, lpns: nat, d0: D, ss: seq<State<D>>, ops: seq<(nat, D)>)
    requires ops != [] && |ss| == |ops| + 1 && IsRun(c, lpns, d0, ss[..|ops|], ops[..|ops| - 1])
    requires var n := |ops|; HostWrite(c, ss[n - 1], ops[n - 1].0, ops[n - 1].1, ss[n])
    ensures IsRun(c, lpns, d0, ss, ops)
  {
    hide HostWrite, Init;
    var n := |ops|;
    forall i | 0 <= i < n ensures HostWrite(c, ss[i], ops[i].0, ops[i].1, ss[i + 1]) {
      if i < n - 1 {
        assert HostWrite(c, ss[..n][i], ops[..n - 1][i].0, ops[..n - 1][i].1, ss[..n][i + 1]);
      }
    }
  }

  // ----- From the machine of line counts to runs -----

  // The run has come to where the machine stands.  With no credits left the last write, of lpn,
  // still has its refill before it.
  ghost predicate Reached<D>(c: Config, order: seq<nat>, lpns: nat, d0: D,
                             ss: seq<State<D>>, ops: seq<(nat, D)>, lpn: nat, a: LM.Lines) {
    && IsCodeRun(c, order, lpns, d0, ss, ops) && NoTies(c, ss, ops) && |ss[|ops|].maptbl| == lpns
    && if a.credits > 0 then AtWrite(c, ss[|ops|], ops, a)
       else lpn < lpns && CanWrite(c, ss[|ops|], lpn) && AtRefill(c, ss[|ops|], ops, lpn, d0, a)
  }

  ghost predicate AtWrite<D>(c: Config, s: State<D>, ops: seq<(nat, D)>, a: LM.Lines) {
    StandsFor(c, s, a) && Lpns(ops) == Below(a.used)
  }

  ghost predicate AtRefill<D>(c: Config, s: State<D>, ops: seq<(nat, D)>, lpn: nat, d0: D, a: LM.Lines)
    requires CanWrite(c, s, lpn)
  {
    StandsFor(c, WritePage(c, s, lpn, d0), a) && Lpns(ops) + {lpn} == Below(a.used) && a.credits == 0
  }

  lemma StartReached<D>(c: Config, order: seq<nat>, lpns: nat, d0: D)
    requires c.T >= 5 && c.P >= 2
    ensures Reached(c, order, lpns, d0, [Init(c, lpns, d0)], [], 0, Start(c))
  {
    hide Inv;
    var s := Init(c, lpns, d0);
    InitGood(c, lpns, d0);
    assert Lpns<D>([]) == {};
  }

  lemma WriteReached<D>(c: Config, order: seq<nat>, lpns: nat, d0: D,
                        ss: seq<State<D>>, ops: seq<(nat, D)>, lpn0: nat, a: LM.Lines, p: LM.Spot)
    returns (ss1: seq<State<D>>, ops1: seq<(nat, D)>, lpn: nat)
    requires Reached(c, order, lpns, d0, ss, ops, lpn0, a) && LM.Can(c, a, LM.Write(p))
    requires LM.WriteTo(c, a, p).used <= lpns
    ensures Reached(c, order, lpns, d0, ss1, ops1, lpn, LM.WriteTo(c, a, p))
  {
    hide StandsFor, Init, WritePage, CanWrite, LM.WriteTo, LM.CanWriteTo, CodeWrite, Lpns;
    var s := ss[|ops|];
    WriteUsed(c, a, p);
    lpn := WriteShows(c, s, a, p, d0);
    var b, u := LM.WriteTo(c, a, p), WritePage(c, s, lpn, d0);
    ss1, ops1 := ss, ops;
    if b.credits > 0 {
      ShownCredits(c, u, b);
      CodeWriteFrom(c, order, s, lpn, d0, u);
      ss1, ops1 := ss + [u], ops + [(lpn, d0)];
      CodeRunGrows(c, order, lpns, d0, ss, ops, lpn, u);
      LpnsStep(ops, (lpn, d0));
    }
  }

  lemma WriteUsed(c: Config, a: LM.Lines, p: LM.Spot)
    requires LM.Can(c, a, LM.Write(p))
    ensures LM.CanWriteTo(c, a, p) && a.used <= LM.WriteTo(c, a, p).used
    ensures p == LM.Nowhere ==> a.used < LM.WriteTo(c, a, p).used
    ensures LM.WriteTo(c, a, p).credits == a.credits - 1 >= 0
  {
  }

  lemma ShownCredits<D>(c: Config, s: State<D>, a: LM.Lines)
    requires StandsFor(c, s, a)
    ensures s.credits == a.credits && s.refill == a.refill && s.free == a.free
    ensures s.victims == {} <==> a.victims == map[]
  {
    if s.victims != {} {
      var v :| v in s.victims;
      assert v in a.victims;
    }
    if a.victims != map[] {
      var v :| v in a.victims;
      assert v in s.victims;
    }
  }

  lemma CodeRunGrows<D>(c: Config, order: seq<nat>, lpns: nat, d0: D,
                        ss: seq<State<D>>, ops: seq<(nat, D)>, lpn: nat, t: State<D>)
    requires IsCodeRun(c, order, lpns, d0, ss, ops) && lpn < lpns && CodeWrite(c, order, ss[|ops|], lpn, d0, t)
    requires NoTies(c, ss, ops) && NoTie(c, ss[|ops|], lpn, d0)
    ensures IsCodeRun(c, order, lpns, d0, ss + [t], ops + [(lpn, d0)])
    ensures NoTies(c, ss + [t], ops + [(lpn, d0)])
  {
    hide CodeWrite, NoTie, Init;
    var ts, os := ss + [t], ops + [(lpn, d0)];
    forall i | 0 <= i < |os|
      ensures CodeWrite(c, order, ts[i], os[i].0, os[i].1, ts[i + 1]) && NoTie(c, ts[i], os[i].0, os[i].1)
    {
      if i < |ops| {
        assert CodeWrite(c, order, ss[i], ops[i].0, ops[i].1, ss[i + 1]) && NoTie(c, ss[i], ops[i].0, ops[i].1);
      }
    }
  }

  lemma RefillReached<D>(c: Config, order: seq<nat>, lpns: nat, d0: D,
                         ss: seq<State<D>>, ops: seq<(nat, D)>, lpn: nat, a: LM.Lines, e: LM.Event)
    returns (ss1: seq<State<D>>, ops1: seq<(nat, D)>)
    requires IsOrder(c, order) && Reached(c, order, lpns, d0, ss, ops, lpn, a)
    requires LM.Can(c, a, e) && !e.Write? && LM.After(c, a, e).credits > 0
    ensures Reached(c, order, lpns, d0, ss1, ops1, lpn, LM.After(c, a, e))
  {
    hide StandsFor, Init, WritePage, CanWrite, LM.AfterCollect, LM.CanCollect, CodeWrite, CodeRefill, Lpns, IsOrder;
    var s := ss[|ops|];
    var u := WritePage(c, s, lpn, d0);
    var t := RefillShows(c, order, u, a, e);
    WrittenLength(c, s, lpn, d0);
    CodeWriteFrom(c, order, s, lpn, d0, t);
    ss1, ops1 := ss + [t], ops + [(lpn, d0)];
    CodeRunGrows(c, order, lpns, d0, ss, ops, lpn, t);
    LpnsStep(ops, (lpn, d0));
  }

  lemma CodeWriteFrom<D>(c: Config, order: seq<nat>, s: State<D>, lpn: nat, d: D, t: State<D>)
    requires CanWrite(c, s, lpn) && CodeRefill(c, order, WritePage(c, s, lpn, d), t)
    ensures CodeWrite(c, order, s, lpn, d, t)
  {
  }

  lemma WrittenLength<D>(c: Config, s: State<D>, lpn: nat, d: D)
    requires CanWrite(c, s, lpn)
    ensures |WritePage(c, s, lpn, d).maptbl| == |s.maptbl|
  {
    var s1 := if s.maptbl[lpn].Some? then Invalidate(c, s, lpn) else s;
    PlaceTables(c, s1, UserIo, lpn, d);
  }

  lemma RefillShows<D>(c: Config, order: seq<nat>, u: State<D>, a: LM.Lines, e: LM.Event) returns (t: State<D>)
    requires IsOrder(c, order) && StandsFor(c, u, a) && LM.Can(c, a, e) && !e.Write?
    ensures CodeRefill(c, order, u, t) && StandsFor(c, t, LM.After(c, a, e)) && LM.After(c, a, e).used == a.used
    ensures |t.maptbl| == |u.maptbl| && Forced(u)
  {
    hide StandsFor, LM.AfterCollect, LM.CanCollect, Collection, Collected, IsOrder, IsVictim;
    ShownCredits(c, u, a);
    match e {
      case Collect(v) =>
        var g := CollectShows(c, u, a, v, order);
        CanCollectVictim(c, u, a, v);
        CollectUsed(c, a, v);
        CollectCredits(c, a, v);
        CollectedLength(c, u, v, g);
        VictimIn(u, v);
        t := g.(credits := g.credits + g.refill);
        assert t.(credits := t.credits - t.refill) == g;
      case Refill =>
        t := u.(credits := u.credits + u.refill);
        RefillStandsFor(c, u, a);
        RefillForced(u);
    }
  }

  lemma RefillForced<D>(u: State<D>)
    requires u.victims == {} || |u.free| > GC_THRES_LINES_HIGH
    ensures Forced(u)
  {
  }

  lemma CollectCredits(c: Config, a: LM.Lines, v: nat)
    requires LM.CanCollect(c, a, v)
    ensures |a.free| <= GC_THRES_LINES_HIGH && a.victims != map[]
  {
  }

  lemma CollectedLength<D>(c: Config, s: State<D>, v: nat, t: State<D>)
    requires Collected(c, s, v, t)
    ensures |t.maptbl| == |s.maptbl|
  {
    ViewLength(s);
    ViewLength(t);
  }

  lemma RefillStandsFor<D>(c: Config, u: State<D>, a: LM.Lines)
    requires StandsFor(c, u, a)
    ensures StandsFor(c, u.(credits := u.credits + u.refill), a.(credits := a.credits + a.refill))
  {
    hide Inv, Mapped;
    CreditsFrame(c, u, u.(credits := u.credits + u.refill));
  }

  // ----- Following a whole trace -----

  // The machine never gives out fewer credits than one.
  lemma AfterKeeps(c: Config, a: LM.Lines, e: LM.Event)
    requires LM.Can(c, a, e) && a.credits >= 0 && a.refill >= 1
    ensures var b := LM.After(c, a, e); 
      b.refill >= 1 && b.credits >= 0 && b.used >= a.used && (!e.Write? ==> b.credits > 0)
  {
  }

  lemma {:induction false} TraceUsed(c: Config, a: LM.Lines, es: seq<LM.Event>, b: LM.Lines)
    requires LM.Trace(c, a, es, b) && a.credits >= 0 && a.refill >= 1
    ensures a.used <= b.used
    decreases |es|
  {
    hide LM.Can, LM.After;
    if es == [] {
    } else {
      AfterKeeps(c, a, es[0]);
      TraceUsed(c, LM.After(c, a, es[0]), es[1..], b);
    }
  }

  lemma {:induction false} Follow<D>(c: Config, order: seq<nat>, lpns: nat, d0: D, ss: seq<State<D>>,
                                     ops: seq<(nat, D)>, lpn: nat, a: LM.Lines, es: seq<LM.Event>, b: LM.Lines)
    returns (ss1: seq<State<D>>, ops1: seq<(nat, D)>, lpn1: nat)
    requires IsOrder(c, order) && Reached(c, order, lpns, d0, ss, ops, lpn, a)
    requires LM.Trace(c, a, es, b) && a.credits >= 0 && a.refill >= 1 && b.used <= lpns
    ensures Reached(c, order, lpns, d0, ss1, ops1, lpn1, b)
    decreases |es|
  {
    hide LM.After, Reached, IsOrder;
    if es == [] {
      ss1, ops1, lpn1 := ss, ops, lpn;
    } else {
      var a1 := LM.After(c, a, es[0]);
      AfterKeeps(c, a, es[0]);
      TraceUsed(c, a1, es[1..], b);
      ss1, ops1, lpn1 := FollowOne(c, order, lpns, d0, ss, ops, lpn, a, es[0]);
      ss1, ops1, lpn1 := Follow(c, order, lpns, d0, ss1, ops1, lpn1, a1, es[1..], b);
    }
  }

  lemma FollowOne<D>(c: Config, order: seq<nat>, lpns: nat, d0: D, ss: seq<State<D>>,
                     ops: seq<(nat, D)>, lpn: nat, a: LM.Lines, e: LM.Event)
    returns (ss1: seq<State<D>>, ops1: seq<(nat, D)>, lpn1: nat)
    requires IsOrder(c, order) && Reached(c, order, lpns, d0, ss, ops, lpn, a)
    requires LM.Can(c, a, e) && a.credits >= 0 && a.refill >= 1 && LM.After(c, a, e).used <= lpns
    ensures Reached(c, order, lpns, d0, ss1, ops1, lpn1, LM.After(c, a, e))
  {
    hide Reached, IsOrder, LM.WriteTo;
    match e {
      case Write(p) =>
        ss1, ops1, lpn1 := WriteReached(c, order, lpns, d0, ss, ops, lpn, a, p);
      case _ =>
        AfterKeeps(c, a, e);
        lpn1 := lpn;
        ss1, ops1 := RefillReached(c, order, lpns, d0, ss, ops, lpn, a, e);
    }
  }

  // ----- Where the limit lies -----

  // The page gets written, but the collection that has to follow does not run through, whichever
  // victim is taken: get_next_free_line returns NULL to the copy pointer.
  ghost predicate Starves<D>(c: Config, order: seq<nat>, s: State<D>, lpn: nat, d: D) {
    && CanWrite(c, s, lpn)
    && var u := WritePage(c, s, lpn, d);
       u.credits <= 0 && |u.free| <= GC_THRES_LINES_HIGH && u.victims != {} &&
       forall v :: v in u.victims ==> v < |u.status| == |u.ipc| == |u.vpc| && Collection(c, u, v, order).None?
  }

  lemma StarvedShows<D>(c: Config, order: seq<nat>, u: State<D>, a: LM.Lines)
    requires StandsFor(c, u, a) && Starved(c, a) && IsOrder(c, order)
    ensures u.credits == 0 && u.free == [] && u.victims != {}
    ensures forall v :: v in u.victims ==> v < |u.status| == |u.ipc| == |u.vpc| && Collection(c, u, v, order).None?
  {
    hide Inv, Collection, Mapped, IsOrder, Collected;
    ShownCredits(c, u, a);
    assert |u.free| * c.P == 0;
    forall v | v in u.victims
      ensures v < |u.status| == |u.ipc| == |u.vpc| && Collection(c, u, v, order).None?
    {
      CollectionIff(c, u, v, order);
    }
  }

  // With one logical page more than T - 4 lines hold, whatever the copying order, there is a run
  // at the end of which the FTL starves.
  lemma OnePageTooMany<D>(c: Config, order: seq<nat>, lpns: nat, d0: D)
    returns (ss: seq<State<D>>, ops: seq<(nat, D)>, lpn: nat)
    requires c.T >= 5 && c.P >= 5 && IsOrder(c, order) && lpns > PagesOf(c, c.T - 4)
    ensures IsCodeRun(c, order, lpns, d0, ss, ops) && IsRun(c, lpns, d0, ss, ops) && NoTies(c, ss, ops)
    ensures lpn < lpns && Lpns(ops) + {lpn} == Below(PagesOf(c, c.T - 4) + 1)
    ensures Starves(c, order, ss[|ops|], lpn, d0)
  {
    hide IsOrder, LM.Trace, IsRun, Collection, StandsFor, CanWrite, WritePage;
    var b := StarvingTrace(c);
    var es :| LM.Trace(c, Start(c), es, b);
    StartReached(c, order, lpns, d0);
    ss, ops, lpn := Follow(c, order, lpns, d0, [Init(c, lpns, d0)], [], 0, Start(c), es, b);
    StarvedShows(c, order, WritePage(c, ss[|ops|], lpn, d0), b);
    CodeRunIsRun(c, order, lpns, d0, ss, ops);
  }

  // The range check of conv_write leaves the pages of all T lines to the host.  Writing new pages
  // only, up to one short of T - 1 lines, leaves a state in which no page can be written.
  lemma RangeCheckIsNotEnough<D>(c: Config, order: seq<nat>, d0: D)
    returns (ss: seq<State<D>>, ops: seq<(nat, D)>)
    requires c.T >= 5 && c.P >= 2 && IsOrder(c, order)
    ensures IsCodeRun(c, order, c.T * c.P, d0, ss, ops) && IsRun(c, c.T * c.P, d0, ss, ops)
    ensures Lpns(ops) == Below((c.T - 1) * c.P - 1)
    ensures forall lpn :: !CanWrite(c, ss[|ops|], lpn)
  {
    hide IsOrder, LM.Trace, IsRun, Inv, Mapped;
    MulStrict(c, c.T - 1, c.T);
    var b := FullTrace(c);
    var es :| LM.Trace(c, Start(c), es, b);
    StartReached(c, order, c.T * c.P, d0);
    var lpn: nat;
    ss, ops, lpn := Follow(c, order, c.T * c.P, d0, [Init(c, c.T * c.P, d0)], [], 0, Start(c), es, b);
    CodeRunIsRun(c, order, c.T * c.P, d0, ss, ops);
  }

  // ----- The exact limit -----

  ghost predicate GoesOn<D(!new)>(c: Config, order: seq<nat>, s: State<D>, lpn: nat, d: D) {
    exists t :: CodeWrite(c, order, s, lpn, d, t)
  }

  // A run, and one more write, within m logical pages.
  ghost predicate Within<D>(c: Config, order: seq<nat>, lpns: nat, d0: D, m: nat,
                            ss: seq<State<D>>, ops: seq<(nat, D)>, lpn: nat) {
    IsCodeRun(c, order, lpns, d0, ss, ops) && lpn < lpns && |Lpns(ops) + {lpn}| <= m
  }

  lemma GoesOnWithin<D(!new)>(c: Config, order: seq<nat>, lpns: nat, d0: D, m: nat,
                              ss: seq<State<D>>, ops: seq<(nat, D)>, lpn: nat, d: D)
    requires c.T >= 5 && c.P >= 2 && IsOrder(c, order) && m <= PagesOf(c, c.T - 4)
    requires Within(c, order, lpns, d0, m, ss, ops, lpn)
    ensures GoesOn(c, order, ss[|ops|], lpn, d)
  {
    hide IsOrder, IsRun, Good, CanWrite, View, Mapped, Replay, CodeWrite;
    CodeRunIsRun(c, order, lpns, d0, ss, ops);
    SubsetSize(Lpns(ops), Lpns(ops) + {lpn});
    NeverStarves(c, lpns, d0, ss, ops);
    RunLength(c, lpns, d0, ss, ops);
    var t := WriteGoesThrough(c, order, ss[|ops|], lpn, d);
  }

  lemma RunLength<D>(c: Config, lpns: nat, d0: D, ss: seq<State<D>>, ops: seq<(nat, D)>)
    requires |ss| == |ops| + 1 && (forall i :: 0 <= i < |ops| ==> ops[i].0 < lpns)
    requires View(ss[|ops|]) == Replay(lpns, ops)
    ensures |ss[|ops|].maptbl| == lpns
  {
    ViewLength(ss[|ops|]);
  }

  lemma StarvedEnds<D(!new)>(c: Config, order: seq<nat>, s: State<D>, lpn: nat, d: D)
    requires Starves(c, order, s, lpn, d)
    ensures !GoesOn(c, order, s, lpn, d)
  {
    hide WritePage, CanWrite, Collection;
    forall t ensures !CodeWrite(c, order, s, lpn, d, t) { }
  }

  // Every run within m logical pages can go on with every further write within them if and only
  // if m pages fit on T - 4 lines.
  lemma LimitIff<D(!new)>(c: Config, order: seq<nat>, lpns: nat, d0: D, m: nat)
    requires c.T >= 5 && c.P >= 5 && IsOrder(c, order) && m <= lpns
    ensures m <= PagesOf(c, c.T - 4) <==>
      forall ss: seq<State<D>>, ops, lpn, d | Within(c, order, lpns, d0, m, ss, ops, lpn) ::
        GoesOn(c, order, ss[|ops|], lpn, d)
  {
    hide IsOrder, GoesOn, Starves, IsRun, PagesOf, Lpns, Init, CodeWrite;
    if m <= PagesOf(c, c.T - 4) {
      forall ss: seq<State<D>>, ops, lpn, d | Within(c, order, lpns, d0, m, ss, ops, lpn)
        ensures |ss| == |ops| + 1 && GoesOn(c, order, ss[|ops|], lpn, d)
      {
        GoesOnWithin(c, order, lpns, d0, m, ss, ops, lpn, d);
      }
    } else {
      var ss, ops, lpn := OnePageTooMany(c, order, lpns, d0);
      StarvedEnds(c, order, ss[|ops|], lpn, d0);
      OneTooManyWithin(c, order, lpns, d0, m, ss, ops, lpn);
    }
  }

  lemma OneTooManyWithin<D>(c: Config, order: seq<nat>, lpns: nat, d0: D, m: nat,
                            ss: seq<State<D>>, ops: seq<(nat, D)>, lpn: nat)
    requires c.T >= 5 && m > PagesOf(c, c.T - 4) && IsCodeRun(c, order, lpns, d0, ss, ops) && lpn < lpns
    requires Lpns(ops) + {lpn} == Below(PagesOf(c, c.T - 4) + 1)
    ensures Within(c, order, lpns, d0, m, ss, ops, lpn)
  {
  }
}
