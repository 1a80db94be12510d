// Two things the protocol of DispatcherModel needs to get anywhere: rings large enough for what
// the queue depths admit never fill, and then every accepted command can be completed from every
// state.
module DispatcherProgress {
  import opened Wrappers
  import opened Collections
  import opened MixedRadix
  import opened DispatcherModel
  import opened Dispatcher

  // ----- A static bound on what a ring holds -----

  // The dispatcher of a queue pair.
  function DispatcherOf(c: Config, q: nat): nat
    requires Ok(c)
  {
    q % c.dispatchers
  }

  // The depths of the queue pairs of dispatcher d among the first n.
  function Slots(c: Config, d: nat, n: nat): nat
    requires Ok(c) && n <= |c.depth|
  {
    if n == 0 then 0
    else Slots(c, d, n - 1) + if DispatcherOf(c, n - 1) == d then c.depth[n - 1] else 0
  }

  // With m pieces per command at most, each ring takes all that the queue pairs of its dispatcher
  // can have under way.
  ghost predicate Roomy(c: Config, m: nat)
    requires Ok(c)
  {
    forall d: nat :: d < c.dispatchers ==>
      m * Slots(c, d, |c.depth|) <= c.inSize && m * Slots(c, d, |c.depth|) <= c.outSize
  }

  // Pieces other than the last of a command are of seg blocks at least.
  ghost predicate Coarse(c: Config, seg: nat) {
    0 < seg && forall f :: 0 <= f < |c.segUnits| ==> seg <= c.segUnits[f]
  }

  ghost function PiecesOf(subs: seq<Sub>, j: nat): set<nat> {
    set i: nat | i < |subs| && subs[i].owner == j
  }

  // Command j is made, or being made, of m pieces at most.
  ghost predicate FewPieces(subs: seq<Sub>, j: nat, a: Accepted, pc: Pc, m: nat, seg: nat) {
    && a.nlb <= m * seg
    && if pc.Splitting? && pc.owner == j then a.slba + |PiecesOf(subs, j)| * seg <= pc.slpa
       else |PiecesOf(subs, j)| <= m
  }

  ghost predicate Few(c: Config, s: State, m: nat, seg: nat)
    requires Ok(c)
  {
    |s.disp| == c.dispatchers &&
    forall j :: 0 <= j < |s.cmds| ==>
      FewPieces(s.subs, j, s.cmds[j], s.disp[s.cmds[j].q % c.dispatchers], m, seg)
  }

  // The host's side of Allowed: it keeps to its queue depth, to unique identifiers and to the
  // request size, and nothing is asked of the rings.
  ghost predicate HostOk(c: Config, s: State, a: Action, m: nat, seg: nat)
    requires Ok(c)
  {
    match a
    case AcceptCmd(q, cid, _, _, nlb, _) =>
      && q < |c.depth| && cid < 65536 && 0 < nlb <= m * seg
      && q % c.dispatchers < |s.disp| && s.disp[q % c.dispatchers].Idle?
      && |Outstanding(s.cmds, s.posted, q)| < c.depth[q]
      && forall j :: j in Outstanding(s.cmds, s.posted, q) ==> s.cmds[j].cid != cid
    case EnqueueNext(d) => d < |s.disp| && s.disp[d].Splitting?
    case _ => Allowed(c, s, a)
  }

  lemma InitFew(c: Config, m: nat, seg: nat)
    requires Ok(c)
    ensures Few(c, Init(c), m, seg)
  {
  }

  lemma PiecesMore(subs: seq<Sub>, x: Sub, j: nat)
    ensures PiecesOf(subs + [x], j) == if x.owner == j then PiecesOf(subs, j) + {|subs|} else PiecesOf(subs, j)
    ensures |PiecesOf(subs + [x], j)| == |PiecesOf(subs, j)| + if x.owner == j then 1 else 0
  {
    assert PiecesOf(subs + [x], j) == if x.owner == j then PiecesOf(subs, j) + {|subs|} else PiecesOf(subs, j);
  }

  lemma AcceptFew(c: Config, s: State, q: nat, cid: nat, sqEntry: nat, slba: nat, nlb: nat, now: nat, m: nat, seg: nat)
    requires Ok(c) && Inv(c, s) && Few(c, s, m, seg) && HostOk(c, s, AcceptCmd(q, cid, sqEntry, slba, nlb, now), m, seg)
    requires AssertsHold(c, s, AcceptCmd(q, cid, sqEntry, slba, nlb, now))
    ensures Few(c, Accept(c, s, q, cid, sqEntry, slba, nlb, now), m, seg)
  {
    hide FewPieces;
    var t := Accept(c, s, q, cid, sqEntry, slba, nlb, now);
    assert PiecesOf(s.subs, |s.cmds|) == {};
    forall j | 0 <= j < |t.cmds|
      ensures FewPieces(t.subs, j, t.cmds[j], t.disp[t.cmds[j].q % c.dispatchers], m, seg)
    {
      if j < |s.cmds| {
        var d := s.cmds[j].q % c.dispatchers;
        assert FewPieces(s.subs, j, s.cmds[j], s.disp[d], m, seg);
        FewElsewhere(s.subs, j, s.cmds[j], s.disp[d], t.disp[d], m, seg);
      } else {
        FewAtFirst(s.subs, j, t.cmds[j], t.disp[q % c.dispatchers], m, seg);
      }
    }
  }

  lemma FewElsewhere(subs: seq<Sub>, j: nat, a: Accepted, pc: Pc, now: Pc, m: nat, seg: nat)
    requires FewPieces(subs, j, a, pc, m, seg)
    requires now == pc || (pc.Idle? && now.Splitting? && now.owner != j)
    ensures FewPieces(subs, j, a, now, m, seg)
  {
  }

  lemma FewAtFirst(subs: seq<Sub>, j: nat, a: Accepted, pc: Pc, m: nat, seg: nat)
    requires PiecesOf(subs, j) == {} && a.nlb <= m * seg
    requires pc.Splitting? && pc.owner == j && pc.slpa == a.slba
    ensures FewPieces(subs, j, a, pc, m, seg)
  {
  }

  // A command being split has room for one more piece.
  lemma OneMore(n: nat, m: nat, seg: nat, done: nat, len: nat)
    requires n * seg <= done < len <= m * seg
    ensures n + 1 <= m
  {
    MulLe(m, n, seg);
  }

  lemma NextPiece(subs: seq<Sub>, a: Accepted, pc: Pc, x: Sub, next: Pc, m: nat, seg: nat, unit: nat)
    requires pc.Splitting? && FewPieces(subs, pc.owner, a, pc, m, seg) && seg <= unit && 0 < pc.nlb
    requires pc.slpa + pc.nlb == a.slba + a.nlb && a.slba <= pc.slpa
    requires x.owner == pc.owner && x.nlb == if pc.nlb <= unit then pc.nlb else unit
    requires if pc.nlb == x.nlb then next.Idle?
             else next.Splitting? && next.owner == pc.owner && next.slpa == pc.slpa + x.nlb
    ensures FewPieces(subs + [x], pc.owner, a, next, m, seg)
    ensures |PiecesOf(subs, pc.owner)| < m
  {
    var n := |PiecesOf(subs, pc.owner)|;
    PiecesMore(subs, x, pc.owner);
    OneMore(n, m, seg, pc.slpa - a.slba, a.nlb);
    MulNext(n, seg);
  }

  lemma MulNext(n: nat, k: nat)
    ensures (n + 1) * k == n * k + k
  {
  }

  lemma PcFacts(c: Config, s: State, d: nat)
    requires Ok(c) && Inv(c, s) && d < |s.disp| && s.disp[d].Splitting?
    ensures |s.disp| == c.dispatchers
    ensures var pc := s.disp[d];
      && pc.owner < |s.cmds| == |s.posted| && s.posted[pc.owner].None?
      && s.cmds[pc.owner].q % c.dispatchers == d && 0 < pc.nlb && pc.ftl < c.workers
      && pc.slpa + pc.nlb == s.cmds[pc.owner].slba + s.cmds[pc.owner].nlb && s.cmds[pc.owner].slba <= pc.slpa
  {
    assert PcOk(c, s.disp[d], d, s.cmds, s.posted);
    var j := s.disp[d].owner;
    assert Tiles(s.subs, j, s.cmds[j].slba, Reached(s.cmds[j], j, s.disp[s.cmds[j].q % c.dispatchers]));
    TilesCover(s.subs, j, s.cmds[j].slba, s.disp[d].slpa);
  }

  lemma EnqueueFew(c: Config, s: State, d: nat, m: nat, seg: nat)
    requires Ok(c) && Inv(c, s) && Few(c, s, m, seg) && Coarse(c, seg) && d < |s.disp| && s.disp[d].Splitting?
    ensures s.disp[d].ftl < |c.segUnits| && s.disp[d].owner < |s.cmds|
    ensures |PiecesOf(s.subs, s.disp[d].owner)| < m
    ensures Few(c, Enqueue(c, s, d), m, seg)
  {
    hide FewPieces, Inv;
    PcFacts(c, s, d);
    var t, pc := Enqueue(c, s, d), s.disp[d];
    var x := t.subs[|s.subs|];
    assert FewPieces(s.subs, pc.owner, s.cmds[pc.owner], pc, m, seg);
    NextPiece(s.subs, s.cmds[pc.owner], pc, x, t.disp[d], m, seg, c.segUnits[pc.ftl]);
    forall j | 0 <= j < |t.cmds|
      ensures FewPieces(t.subs, j, t.cmds[j], t.disp[t.cmds[j].q % c.dispatchers], m, seg)
    {
      if j != pc.owner {
        assert FewPieces(s.subs, j, s.cmds[j], s.disp[s.cmds[j].q % c.dispatchers], m, seg);
        OtherPiece(s.subs, j, s.cmds[j], s.disp[s.cmds[j].q % c.dispatchers],
                   t.disp[t.cmds[j].q % c.dispatchers], x, m, seg);
      }
    }
  }

  lemma OtherPiece(subs: seq<Sub>, j: nat, a: Accepted, pc: Pc, now: Pc, x: Sub, m: nat, seg: nat)
    requires FewPieces(subs, j, a, pc, m, seg) && x.owner != j
    requires now == pc || (pc.Splitting? && pc.owner != j && (now.Splitting? ==> now.owner != j))
    ensures FewPieces(subs + [x], j, a, now, m, seg)
  {
    PiecesMore(subs, x, j);
  }

  // Every step keeps the bound on the pieces.
  lemma StepFew(c: Config, s: State, a: Action, m: nat, seg: nat)
    requires Ok(c) && Inv(c, s) && Few(c, s, m, seg) && Coarse(c, seg) && HostOk(c, s, a, m, seg)
    requires AssertsHold(c, s, a)
    ensures Few(c, Apply(c, s, a), m, seg)
  {
    hide Inv, FewPieces;
    match a
    case AcceptCmd(q, cid, sqEntry, slba, nlb, now) => AcceptFew(c, s, q, cid, sqEntry, slba, nlb, now, m, seg);
    case EnqueueNext(d) => EnqueueFew(c, s, d, m, seg);
    case _ =>
  }

  // ----- How many commands and pieces a dispatcher can have under way -----

  lemma {:induction false} InjectiveImage(s: set<nat>, f: map<nat, nat>)
    requires s <= f.Keys && forall x, y :: x in s && y in s && f[x] == f[y] ==> x == y
    ensures |Image(s, f)| == |s|
    decreases |s|
  {
    if s == {} {
      assert Image(s, f) == {};
    } else {
      var x :| x in s;
      InjectiveImage(s - {x}, f);
      assert Image(s, f) == Image(s - {x}, f) + {f[x]};
    }
  }

  // A queue pair has at most as many commands outstanding as it is deep.
  lemma OutstandingFit(c: Config, s: State, q: nat)
    requires Ok(c) && Inv(c, s) && q < |c.depth|
    ensures |Outstanding(s.cmds, s.posted, q)| <= c.depth[q]
  {
    hide Lines, Splits, Logs, Pools, Rooms, Kept, Lists, Counts;
    var out := Outstanding(s.cmds, s.posted, q);
    var idOf := map j: nat | j in out :: s.cmds[j].id;
    var ids := Below(c.depth[q] + 1) - {0};
    forall j | j in out ensures (q, s.cmds[j].id) in s.reqs && s.reqs[(q, s.cmds[j].id)].owner == j {
    }
    InjectiveImage(out, idOf);
    SubsetSize(Image(out, idOf), ids);
  }

  // The outstanding commands of dispatcher d from the first n queue pairs.
  ghost function Under(c: Config, s: State, d: nat, n: nat): set<nat>
    requires Ok(c)
  {
    set j: nat | j < |s.cmds| && j < |s.posted| && s.posted[j].None? && s.cmds[j].q < n
                 && DispatcherOf(c, s.cmds[j].q) == d
  }

  lemma UnderNext(c: Config, s: State, d: nat, n: nat)
    requires Ok(c)
    ensures |Under(c, s, d, n + 1)| <= |Under(c, s, d, n)| + |Outstanding(s.cmds, s.posted, n)|
    ensures DispatcherOf(c, n) != d ==> Under(c, s, d, n + 1) == Under(c, s, d, n)
  {
    hide DispatcherOf;
    SubsetSize(Under(c, s, d, n + 1), Under(c, s, d, n) + Outstanding(s.cmds, s.posted, n));
  }

  lemma {:induction false} UnderFits(c: Config, s: State, d: nat, n: nat)
    requires Ok(c) && Inv(c, s) && n <= |c.depth|
    ensures |Under(c, s, d, n)| <= Slots(c, d, n)
  {
    hide Inv, DispatcherOf, Outstanding;
    if n == 0 {
      assert Under(c, s, d, n) == {};
    } else {
      hide Under;
      UnderFits(c, s, d, n - 1);
      OutstandingFit(c, s, n - 1);
      UnderNext(c, s, d, n - 1);
    }
  }

  // The pieces on their way that belong to the commands in js.
  ghost function LiveIn(subs: seq<Sub>, results: seq<Option<nat>>, js: set<nat>): set<nat> {
    set i: nat | i < |subs| && i < |results| && results[i].None? && subs[i].owner in js
  }

  lemma {:induction false} LiveBound(subs: seq<Sub>, results: seq<Option<nat>>, js: set<nat>, m: nat)
    requires forall j :: j in js ==> |PiecesOf(subs, j)| <= m
    ensures |LiveIn(subs, results, js)| <= m * |js|
    decreases |js|
  {
    if js == {} {
      assert LiveIn(subs, results, js) == {};
    } else {
      var j :| j in js;
      LiveBound(subs, results, js - {j}, m);
      LiveOne(subs, results, js, j);
      MulNext(|js - {j}|, m);
    }
  }

  lemma LiveOne(subs: seq<Sub>, results: seq<Option<nat>>, js: set<nat>, j: nat)
    requires j in js
    ensures |LiveIn(subs, results, js)| <= |LiveIn(subs, results, js - {j})| + |PiecesOf(subs, j)|
    ensures |js| == |js - {j}| + 1
  {
    SubsetSize(LiveIn(subs, results, js), LiveIn(subs, results, js - {j}) + PiecesOf(subs, j));
  }

  ghost function Serials(line: seq<Cmd>): set<nat> {
    set k | 0 <= k < |line| :: line[k].serial
  }

  lemma SerialsLast(line: seq<Cmd>, x: Cmd)
    ensures Serials(line + [x]) == Serials(line) + {x.serial}
  {
    forall i | i in Serials(line) ensures i in Serials(line + [x]) {
      var k :| 0 <= k < |line| && line[k].serial == i;
      assert (line + [x])[k].serial == i;
    }
    assert (line + [x])[|line|].serial == x.serial;
  }

  ghost predicate Rising(line: seq<Cmd>) {
    forall k, l :: 0 <= k < l < |line| ==> line[k].serial < line[l].serial
  }

  lemma RisingLast(line: seq<Cmd>, x: Cmd)
    requires Rising(line + [x])
    ensures Rising(line) && x.serial !in Serials(line)
  {
    forall k, l | 0 <= k < l < |line| ensures line[k].serial < line[l].serial {
      assert (line + [x])[k].serial < (line + [x])[l].serial;
    }
    forall k | 0 <= k < |line| ensures line[k].serial != x.serial {
      assert (line + [x])[k].serial < (line + [x])[|line|].serial;
    }
  }

  lemma {:induction false} SerialsSize(line: seq<Cmd>)
    requires Rising(line)
    ensures |Serials(line)| == |line|
  {
    if line == [] {
      assert Serials(line) == {};
    } else {
      hide Rising, Serials;
      var n := |line| - 1;
      assert line == line[..n] + [line[n]];
      RisingLast(line[..n], line[n]);
      SerialsLast(line[..n], line[n]);
      SerialsSize(line[..n]);
    }
  }

  // What a line holds belongs to commands under way.
  lemma LineIsLive(c: Config, s: State, k: Key)
    requires Ok(c) && Inv(c, s) && k in s.pipes
    ensures k.0 < c.dispatchers && k.1 < c.workers
    ensures |Line(s.pipes[k])| <= |LiveIn(s.subs, s.results, Under(c, s, k.0, |c.depth|))|
  {
    var line, js := Line(s.pipes[k]), Under(c, s, k.0, |c.depth|);
    assert LineOk(c, line, k.0, k.1, s.cmds, s.subs, s.results);
    SerialsSize(line);
    forall i | i in Serials(line) ensures i in LiveIn(s.subs, s.results, js) {
      var j := s.subs[i].owner;
      assert i in LiveOf(s.subs, s.results, j);
      assert (s.cmds[j].q, s.cmds[j].id) in s.reqs;
    }
    SubsetSize(Serials(line), LiveIn(s.subs, s.results, js));
  }

  lemma FewBound(c: Config, s: State, d: nat, m: nat, seg: nat)
    requires Ok(c) && Inv(c, s) && Few(c, s, m, seg) && Coarse(c, seg)
    ensures forall j :: j in Under(c, s, d, |c.depth|) ==> |PiecesOf(s.subs, j)| <= m
  {
    hide Inv, FewPieces;
    forall j | j in Under(c, s, d, |c.depth|) ensures |PiecesOf(s.subs, j)| <= m {
      var e := s.cmds[j].q % c.dispatchers;
      assert FewPieces(s.subs, j, s.cmds[j], s.disp[e], m, seg);
      if s.disp[e].Splitting? && s.disp[e].owner == j {
        EnqueueFew(c, s, e, m, seg);
      } else {
        FewAtRest(s.subs, j, s.cmds[j], s.disp[e], m, seg);
      }
    }
  }

  lemma FewAtRest(subs: seq<Sub>, j: nat, a: Accepted, pc: Pc, m: nat, seg: nat)
    requires FewPieces(subs, j, a, pc, m, seg) && !(pc.Splitting? && pc.owner == j)
    ensures |PiecesOf(subs, j)| <= m
  {
  }

  // The bound on a ring, and one less while its dispatcher has a piece to hand out.
  lemma LineFits(c: Config, s: State, k: Key, m: nat, seg: nat)
    requires Ok(c) && Inv(c, s) && Few(c, s, m, seg) && Coarse(c, seg) && k in s.pipes
    ensures k.0 < c.dispatchers == |s.disp|
    ensures |Line(s.pipes[k])| <= m * Slots(c, k.0, |c.depth|)
    ensures s.disp[k.0].Splitting? ==> |Line(s.pipes[k])| < m * Slots(c, k.0, |c.depth|)
  {
    hide Inv, Few, Coarse, Line, LiveIn, Under;
    var js := Under(c, s, k.0, |c.depth|);
    LineIsLive(c, s, k);
    UnderFits(c, s, k.0, |c.depth|);
    FewBound(c, s, k.0, m, seg);
    FewDispatchers(c, s, m, seg);
    MulUp(m, |js|, Slots(c, k.0, |c.depth|));
    if s.disp[k.0].Splitting? {
      SplittingFits(c, s, k.0, m, seg);
    } else {
      LiveBound(s.subs, s.results, js, m);
    }
  }

  lemma FewDispatchers(c: Config, s: State, m: nat, seg: nat)
    requires Ok(c) && Few(c, s, m, seg)
    ensures |s.disp| == c.dispatchers
  {
  }

  lemma MulUp(m: nat, a: nat, b: nat)
    requires a <= b
    ensures m * a <= m * b
  {
  }

  lemma SplittingFits(c: Config, s: State, d: nat, m: nat, seg: nat)
    requires Ok(c) && Inv(c, s) && Few(c, s, m, seg) && Coarse(c, seg) && d < |s.disp| && s.disp[d].Splitting?
    ensures var js := Under(c, s, d, |c.depth|); |LiveIn(s.subs, s.results, js)| < m * |js|
  {
    hide Inv, Few, Coarse, LiveIn, Enqueue, Under, PiecesOf;
    var js := Under(c, s, d, |c.depth|);
    EnqueueFew(c, s, d, m, seg);
    FewBound(c, s, d, m, seg);
    SplitIsUnder(c, s, d);
    var j := s.disp[d].owner;
    LiveBound(s.subs, s.results, js - {j}, m);
    LiveOne(s.subs, s.results, js, j);
    MulNext(|js - {j}|, m);
  }

  lemma SplitIsUnder(c: Config, s: State, d: nat)
    requires Ok(c) && Inv(c, s) && d < |s.disp| && s.disp[d].Splitting?
    ensures s.disp[d].owner in Under(c, s, d, |c.depth|)
  {
    PcFacts(c, s, d);
    var j := s.disp[d].owner;
    assert (s.cmds[j].q, s.cmds[j].id) in s.reqs;
  }

  // So the host's side is all that decides whether a step may be taken.
  lemma HostDecides(c: Config, s: State, a: Action, m: nat, seg: nat)
    requires Ok(c) && Inv(c, s) && Few(c, s, m, seg) && Coarse(c, seg) && Roomy(c, m) && HostOk(c, s, a, m, seg)
    ensures Allowed(c, s, a)
  {
    hide Inv, Few, Coarse;
    if a.EnqueueNext? {
      PcFacts(c, s, a.d);
      var k: Key := (a.d, s.disp[a.d].ftl);
      PipeThere(c, s, k);
      LineFits(c, s, k, m, seg);
    }
  }

  lemma PipeThere(c: Config, s: State, k: Key)
    requires Ok(c) && Inv(c, s) && k.0 < c.dispatchers && k.1 < c.workers
    ensures k in s.pipes
  {
  }

  ghost predicate HostRun(c: Config, s: State, acts: seq<Action>, m: nat, seg: nat)
    requires Ok(c)
    decreases acts
  {
    acts == [] ||
    (HostOk(c, s, acts[0], m, seg) &&
     (AssertsHold(c, s, acts[0]) ==> HostRun(c, Apply(c, s, acts[0]), acts[1..], m, seg)))
  }

  // With rings sized by the queue depths and the request size no ring ever fills: whatever the
  // host does within its limits, every run is one of those RunsAreSafe speaks of.
  lemma {:induction false} RingsNeverFill(c: Config, s: State, acts: seq<Action>, m: nat, seg: nat)
    requires Ok(c) && Inv(c, s) && Few(c, s, m, seg) && Coarse(c, seg) && Roomy(c, m) && HostRun(c, s, acts, m, seg)
    ensures RunAllowed(c, s, acts) && After(c, s, acts).Some?
    ensures Inv(c, After(c, s, acts).value) && Few(c, After(c, s, acts).value, m, seg)
    decreases acts
  {
    hide Inv, Few, Coarse, Roomy, Allowed, AssertsHold, Apply, HostOk;
    if acts == [] {
    } else {
      HostDecides(c, s, acts[0], m, seg);
      StepOk(c, s, acts[0]);
      StepFew(c, s, acts[0], m, seg);
      RingsNeverFill(c, Apply(c, s, acts[0]), acts[1..], m, seg);
    }
  }

  // ----- Every command can be completed -----

  lemma PrependStep(c: Config, s: State, a: Action, acts: seq<Action>, t: State)
    requires Ok(c) && Allowed(c, s, a) && AssertsHold(c, s, a)
    requires RunAllowed(c, Apply(c, s, a), acts) && After(c, Apply(c, s, a), acts) == Some(t)
    ensures RunAllowed(c, s, [a] + acts) && After(c, s, [a] + acts) == Some(t)
  {
    hide Allowed, AssertsHold, Apply;
    assert ([a] + acts)[1..] == acts;
  }

  lemma {:induction false} RunConcat(c: Config, s: State, acts: seq<Action>, mid: State, more: seq<Action>, t: State)
    requires Ok(c) && RunAllowed(c, s, acts) && After(c, s, acts) == Some(mid)
    requires RunAllowed(c, mid, more) && After(c, mid, more) == Some(t)
    ensures RunAllowed(c, s, acts + more) && After(c, s, acts + more) == Some(t)
    decreases acts
  {
    hide Allowed, AssertsHold, Apply;
    if acts == [] {
      assert acts + more == more;
    } else {
      RunConcat(c, Apply(c, s, acts[0]), acts[1..], mid, more, t);
      assert (acts + more)[1..] == acts[1..] + more;
    }
  }

  // A state of the protocol with rings that suffice.
  ghost predicate Fine(c: Config, s: State, m: nat, seg: nat) {
    Ok(c) && Inv(c, s) && Few(c, s, m, seg) && Coarse(c, seg) && Roomy(c, m)
  }

  // The FTL threads only move pieces along; whatever concerns the host stays.
  ghost predicate OnlyMoved(s: State, t: State) {
    && t.tag == s.tag && t.reqs == s.reqs && t.free == s.free && t.done == s.done && t.cq == s.cq && t.disp == s.disp
    && t.cmds == s.cmds && t.posted == s.posted && t.subs == s.subs && t.results == s.results
  }

  // Thread f has returned a piece to some dispatcher.
  ghost predicate Returned(c: Config, s: State, f: nat) {
    exists d: nat :: d < c.dispatchers && PipeAt(s.pipes, (d, f)).outq != []
  }

  // How many steps thread f may take until it returns a piece: it comes to the list of
  // dispatcher d in this round if something is on it or will be put there, else in the next.
  ghost function Rounds(c: Config, turn: Turn, p: Pipe, d: nat): int {
    var n := c.dispatchers;
    var pos := match turn case Taking(e) => e case Draining(e) => n + e;
    var ahead := p.pq != [] || (turn.Taking? && turn.d <= d);
    if ahead then 2 * n - pos else 4 * n - pos
  }

  lemma ThreadFacts(c: Config, s: State, f: nat, d: nat)
    requires Ok(c) && Inv(c, s) && f < c.workers && d < c.dispatchers
    ensures |s.turn| == |s.pool| == c.workers && s.turn[f].d < c.dispatchers
    ensures s.turn[f].Draining? && PipeAt(s.pipes, (d, f)).pq != [] ==> s.turn[f].d <= d
  {
    assert PoolOk(c, s.pool[f], s.turn[f], s.pipes, f);
  }

  // The next step of a thread.
  function NextOf(turn: Turn, f: nat): Action {
    if turn.Taking? then TakeNext(f, 0) else DrainNext(f)
  }

  lemma ThreadStep(c: Config, s: State, f: nat, d: nat, m: nat, seg: nat) returns (a: Action, t: State)
    requires Fine(c, s, m, seg) && f < c.workers && d < c.dispatchers && !Returned(c, s, f)
    requires PipeAt(s.pipes, (d, f)).pq != [] || PipeAt(s.pipes, (d, f)).inq != []
    ensures Allowed(c, s, a) && AssertsHold(c, s, a) && t == Apply(c, s, a)
    ensures Fine(c, t, m, seg) && OnlyMoved(s, t)
    ensures |t.turn| == |s.turn| == c.workers
    ensures Returned(c, t, f) ||
      ((PipeAt(t.pipes, (d, f)).pq != [] || PipeAt(t.pipes, (d, f)).inq != []) &&
       0 <= Rounds(c, t.turn[f], PipeAt(t.pipes, (d, f)), d) < Rounds(c, s.turn[f], PipeAt(s.pipes, (d, f)), d))
  {
    hide Inv, Few, Coarse, Roomy;
    ThreadFacts(c, s, f, d);
    a := NextOf(s.turn[f], f);
    StepOk(c, s, a);
    StepFew(c, s, a, m, seg);
    t := Apply(c, s, a);
    ThreadFacts(c, t, f, d);
    ThreadMoves(c, s, f, d);
  }

  lemma ThreadMoves(c: Config, s: State, f: nat, d: nat)
    requires Ok(c) && f < c.workers == |s.turn| == |s.pool| && d < c.dispatchers && !Returned(c, s, f)
    requires AssertsHold(c, s, NextOf(s.turn[f], f)) && s.turn[f].d < c.dispatchers
    requires s.turn[f].Draining? && PipeAt(s.pipes, (d, f)).pq != [] ==> s.turn[f].d <= d
    requires PipeAt(s.pipes, (d, f)).pq != [] || PipeAt(s.pipes, (d, f)).inq != []
    ensures var t := Apply(c, s, NextOf(s.turn[f], f));
      && OnlyMoved(s, t) && |t.turn| == c.workers && t.turn[f].d < c.dispatchers
      && (Returned(c, t, f) ||
          ((PipeAt(t.pipes, (d, f)).pq != [] || PipeAt(t.pipes, (d, f)).inq != []) &&
           Rounds(c, t.turn[f], PipeAt(t.pipes, (d, f)), d) < Rounds(c, s.turn[f], PipeAt(s.pipes, (d, f)), d)))
  {
    var t := Apply(c, s, NextOf(s.turn[f], f));
    var e := s.turn[f].d;
    assert PipeAt(s.pipes, (e, f)).outq == [];
    if s.turn[f].Draining? && PipeAt(s.pipes, (e, f)).pq != [] {
      assert PipeAt(t.pipes, (e, f)).outq != [];
    }
  }

  // Left alone, a thread that has something to do returns a piece.
  lemma {:induction false} ThreadReturns(c: Config, s: State, f: nat, d: nat, m: nat, seg: nat)
    returns (acts: seq<Action>, t: State)
    requires Fine(c, s, m, seg) && f < c.workers && d < c.dispatchers && |s.turn| == c.workers
    requires Returned(c, s, f) || PipeAt(s.pipes, (d, f)).pq != [] || PipeAt(s.pipes, (d, f)).inq != []
    ensures RunAllowed(c, s, acts) && After(c, s, acts) == Some(t)
    ensures Fine(c, t, m, seg) && OnlyMoved(s, t) && Returned(c, t, f)
    decreases if Returned(c, s, f) then 0 else 1, Rounds(c, s.turn[f], PipeAt(s.pipes, (d, f)), d)
  {
    hide Fine, Returned, Rounds, Allowed, AssertsHold, Apply;
    FineIsOk(c, s, m, seg);
    if Returned(c, s, f) {
      acts, t := [], s;
      NoSteps(c, s);
    } else {
      var a, u := ThreadStep(c, s, f, d, m, seg);
      acts, t := ThreadReturns(c, u, f, d, m, seg);
      PrependStep(c, s, a, acts, t);
      acts := [a] + acts;
    }
  }

  lemma FineIsOk(c: Config, s: State, m: nat, seg: nat)
    requires Fine(c, s, m, seg)
    ensures Ok(c) && Inv(c, s) && Few(c, s, m, seg) && |s.disp| == |s.done| == c.dispatchers
    ensures |s.turn| == c.workers && |s.posted| == |s.cmds| && |s.results| == |s.subs|
  {
  }

  // ----- What is left to do -----

  function LeftOf(pc: Pc): nat {
    if pc.Splitting? then pc.nlb else 0
  }

  // The blocks not yet handed out.
  function Unsplit(disp: seq<Pc>): nat {
    if disp == [] then 0 else Unsplit(disp[..|disp| - 1]) + LeftOf(disp[|disp| - 1])
  }

  lemma {:induction false} UnsplitSet(disp: seq<Pc>, d: nat, pc: Pc)
    requires d < |disp|
    ensures Unsplit(disp[d := pc]) == Unsplit(disp) - LeftOf(disp[d]) + LeftOf(pc)
  {
    var n := |disp| - 1;
    if d == n {
      assert disp[d := pc][..n] == disp[..n];
    } else {
      UnsplitSet(disp[..n], d, pc);
      assert disp[d := pc][..n] == disp[..n][d := pc];
    }
  }

  // The entries still open.
  ghost function Open(xs: seq<Option<nat>>): set<nat> {
    set i: nat | i < |xs| && xs[i].None?
  }

  lemma OpenSet(xs: seq<Option<nat>>, i: nat, v: nat)
    requires i < |xs| && xs[i].None?
    ensures |Open(xs[i := Some(v)])| < |Open(xs)|
  {
    assert Open(xs[i := Some(v)]) == Open(xs) - {i};
  }

  // A step of a dispatcher, if there is one it can take.
  ghost predicate HasStep(c: Config, s: State, a: Action)
    requires Ok(c)
  {
    Allowed(c, s, a) && (a.EnqueueNext? || a.DequeueFrom? || a.CompleteFirst?)
  }

  lemma StepShrinks(c: Config, s: State, a: Action)
    requires Ok(c) && Inv(c, s) && HasStep(c, s, a)
    ensures AssertsHold(c, s, a) && Apply(c, s, a).cmds == s.cmds
    ensures var t := Apply(c, s, a);
      match a
      case EnqueueNext(_) => Unsplit(t.disp) < Unsplit(s.disp)
      case DequeueFrom(_, _) => t.disp == s.disp && |Open(t.results)| < |Open(s.results)| && t.posted == s.posted
      case _ => t.disp == s.disp && t.results == s.results && |Open(t.posted)| < |Open(s.posted)|
  {
    hide Inv;
    StepOk(c, s, a);
    match a
    case EnqueueNext(d) =>
      PcFacts(c, s, d);
      UnsplitSet(s.disp, d, Apply(c, s, a).disp[d]);
    case DequeueFrom(d, f) =>
      FrontIsOpen(c, s, d, f);
      var cmd := s.pipes[(d, f)].outq[0];
      OpenSet(s.results, cmd.serial, cmd.nsecs);
    case CompleteFirst(d, now) =>
      FirstIsOpen(c, s, d);
      OpenSet(s.posted, s.reqs[s.done[d][0]].owner, now);
  }

  lemma FrontIsOpen(c: Config, s: State, d: nat, f: nat)
    requires Ok(c) && Inv(c, s) && PipeAt(s.pipes, (d, f)).outq != []
    ensures (d, f) in s.pipes && s.pipes[(d, f)].outq[0].serial < |s.results|
    ensures s.results[s.pipes[(d, f)].outq[0].serial].None?
  {
    var line := Line(s.pipes[(d, f)]);
    assert LineOk(c, line, d, f, s.cmds, s.subs, s.results);
    assert line[0] == s.pipes[(d, f)].outq[0];
  }

  lemma FirstIsOpen(c: Config, s: State, d: nat)
    requires Ok(c) && Inv(c, s) && d < |s.done| && s.done[d] != []
    ensures s.done[d][0] in s.reqs && s.reqs[s.done[d][0]].owner < |s.posted|
    ensures s.posted[s.reqs[s.done[d][0]].owner].None?
  {
    var k := s.done[d][0];
    assert k in s.done[d];
    assert Waiting(s.reqs[k], s.disp[d], k);
  }

  // While a command is not posted, some dispatcher can take a step, or some thread has a piece.
  lemma WorkLeft(c: Config, s: State, m: nat, seg: nat, j: nat)
    returns (a: Option<Action>, d: nat, f: nat)
    requires Fine(c, s, m, seg) && j < |s.cmds| && j < |s.posted| && s.posted[j].None?
    ensures a.Some? ==> HasStep(c, s, a.value)
    ensures a.None? ==>
      && d < c.dispatchers && f < c.workers
      && (PipeAt(s.pipes, (d, f)).pq != [] || PipeAt(s.pipes, (d, f)).inq != [])
      && forall e: nat :: e < |s.disp| ==> s.disp[e].Idle?
  {
    hide Inv, Few, Coarse, Roomy;
    FineIsOk(c, s, m, seg);
    d, f := 0, 0;
    if e: nat :| e < |s.disp| && s.disp[e].Splitting? {
      a := Some(EnqueueNext(e));
      HostDecides(c, s, a.value, m, seg);
    } else {
      NothingLost(c, s, j);
      d := s.cmds[j].q % c.dispatchers;
      assert s.disp[d].Idle?;
      if s.done[d] != [] {
        a := Some(CompleteFirst(d, ReqAt(s.reqs, s.done[d][0]).nsecsEnd));
      } else {
        var i: nat, g: nat :| i < |s.subs| && s.subs[i].owner == j && (d, g) in s.pipes
                              && HasSerial(Line(s.pipes[(d, g)]), i);
        f := g;
        PipeKeys(c, s, (d, f));
        if s.pipes[(d, f)].outq != [] {
          a := Some(DequeueFrom(d, f));
        } else {
          a := None;
        }
      }
    }
  }

  lemma PipeKeys(c: Config, s: State, k: Key)
    requires Ok(c) && Inv(c, s) && k in s.pipes
    ensures k.0 < c.dispatchers && k.1 < c.workers
  {
  }

  // A step of a dispatcher brings the end nearer.
  lemma DispatcherStep(c: Config, s: State, a: Action, m: nat, seg: nat) returns (t: State)
    requires Fine(c, s, m, seg) && HasStep(c, s, a)
    ensures Allowed(c, s, a) && AssertsHold(c, s, a) && t == Apply(c, s, a) && Fine(c, t, m, seg) && t.cmds == s.cmds
    ensures Nearer(s, t)
  {
    hide Inv, Few, Coarse, Roomy;
    StepShrinks(c, s, a);
    StepOk(c, s, a);
    StepFew(c, s, a, m, seg);
    t := Apply(c, s, a);
  }

  ghost predicate Nearer(s: State, t: State) {
    || Unsplit(t.disp) < Unsplit(s.disp)
    || (Unsplit(t.disp) == Unsplit(s.disp) &&
        (|Open(t.results)| < |Open(s.results)| ||
         (|Open(t.results)| == |Open(s.results)| && |Open(t.posted)| < |Open(s.posted)|)))
  }

  lemma TakeBack(c: Config, s: State, u: State, f: nat) returns (b: Action)
    requires Ok(c) && Inv(c, u) && f < c.workers && OnlyMoved(s, u) && Returned(c, u, f)
    requires forall e: nat :: e < |s.disp| ==> s.disp[e].Idle?
    ensures HasStep(c, u, b) && b.DequeueFrom?
    ensures u.disp == s.disp && u.results == s.results && u.posted == s.posted && u.cmds == s.cmds
  {
    var d: nat :| d < c.dispatchers && PipeAt(u.pipes, (d, f)).outq != [];
    b := DequeueFrom(d, f);
  }

  // While a command is not posted, some steps bring the end nearer.
  lemma Onward(c: Config, s: State, m: nat, seg: nat, j: nat) returns (acts: seq<Action>, t: State)
    requires Fine(c, s, m, seg) && j < |s.cmds| && j < |s.posted| && s.posted[j].None?
    ensures RunAllowed(c, s, acts) && After(c, s, acts) == Some(t)
    ensures Fine(c, t, m, seg) && t.cmds == s.cmds && Nearer(s, t)
  {
    hide Fine, HasStep, Allowed, AssertsHold, Apply, OnlyMoved, Returned, Unsplit, Open, RunAllowed, After;
    FineIsOk(c, s, m, seg);
    var a, d, f := WorkLeft(c, s, m, seg, j);
    if a.Some? {
      t := DispatcherStep(c, s, a.value, m, seg);
      NoSteps(c, t);
      PrependStep(c, s, a.value, [], t);
      acts := [a.value] + [];
    } else {
      var first, u := ThreadReturns(c, s, f, d, m, seg);
      FineIsOk(c, u, m, seg);
      var b := TakeBack(c, s, u, f);
      t := DispatcherStep(c, u, b, m, seg);
      NoSteps(c, t);
      PrependStep(c, u, b, [], t);
      RunConcat(c, s, first, u, [b] + [], t);
      acts := first + ([b] + []);
      NearerSame(s, u, t);
    }
  }

  lemma NearerSame(s: State, u: State, t: State)
    requires Nearer(u, t) && u.disp == s.disp && u.results == s.results && u.posted == s.posted
    ensures Nearer(s, t)
  {
  }

  // From every such state there is a run, without a new command, after which every command that
  // was accepted has been posted.
  lemma {:induction false} AllPosted(c: Config, s: State, m: nat, seg: nat) returns (acts: seq<Action>, t: State)
    requires Fine(c, s, m, seg)
    ensures Ok(c) && RunAllowed(c, s, acts) && After(c, s, acts) == Some(t)
    ensures Fine(c, t, m, seg) && t.cmds == s.cmds && |t.posted| == |t.cmds|
    ensures forall j :: 0 <= j < |t.posted| ==> t.posted[j].Some?
    decreases Unsplit(s.disp), |Open(s.results)|, |Open(s.posted)|
  {
    hide Fine, RunAllowed, After, Unsplit, Open;
    FineIsOk(c, s, m, seg);
    if j: nat :| j < |s.posted| && s.posted[j].None? {
      var first, u := Onward(c, s, m, seg, j);
      acts, t := AllPosted(c, u, m, seg);
      RunConcat(c, s, first, u, acts, t);
      acts := first + acts;
    } else {
      acts, t := [], s;
      NoSteps(c, s);
    }
  }

  // So however the steps of a run were interleaved, it can be continued, without a new command,
  // until every command accepted so far has its completion entry.
  lemma EveryCommandCompletes(c: Config, acts: seq<Action>, m: nat, seg: nat) returns (more: seq<Action>, t: State)
    requires Ok(c) && Coarse(c, seg) && Roomy(c, m) && HostRun(c, Init(c), acts, m, seg)
    ensures RunAllowed(c, Init(c), acts + more) && After(c, Init(c), acts + more) == Some(t)
    ensures After(c, Init(c), acts).Some? && t.cmds == After(c, Init(c), acts).value.cmds
    ensures forall j :: 0 <= j < |t.cmds| ==> t.cmds[j].q < |t.cq| && HasOwner(t.cq[t.cmds[j].q], j)
  {
    hide Inv, Few, Coarse, Roomy, HostRun, RunAllowed, After, Init;
    InitOk(c);
    InitFew(c, m, seg);
    RingsNeverFill(c, Init(c), acts, m, seg);
    var s := After(c, Init(c), acts).value;
    more, t := AllPosted(c, s, m, seg);
    RunConcat(c, Init(c), acts, s, more, t);
    FineIsOk(c, t, m, seg);
    forall j | 0 <= j < |t.cmds| ensures t.cmds[j].q < |t.cq| && HasOwner(t.cq[t.cmds[j].q], j) {
      ExactlyOnce(c, t, j);
    }
  }
}
