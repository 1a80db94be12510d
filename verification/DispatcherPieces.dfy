// What the FTL threads are told and when they are done: the entries on the rings are the pieces
// that splitting a command yields, each with its thread, and carry the start of their command and
// then the time it ended.
module DispatcherPieces {
  import opened Wrappers
  import opened Collections
  import opened DispatcherModel
  import opened Dispatcher
  import opened DispatcherTimes
  import opened MixedRadix
  import S = Split

  // ----- Which pieces a command is split into -----

  // The thread after f.
  function After1(c: Config, f: nat): nat {
    if f + 1 >= c.workers then 0 else f + 1
  }

  // The pieces of nlb blocks from slpa on, the first of them for thread f.
  function Parts(c: Config, f: nat, slpa: nat, nlb: nat): seq<S.Piece>
    requires Ok(c) && f < c.workers
    decreases nlb
  {
    if nlb == 0 then []
    else
      var cur := S.Min(nlb, c.segUnits[f]);
      [S.Piece(f, slpa, cur)] + Parts(c, After1(c, f), slpa + cur, nlb - cur)
  }

  lemma PartsNext(c: Config, f: nat, slpa: nat, nlb: nat)
    requires Ok(c) && f < c.workers && 0 < nlb
    ensures var cur := S.Min(nlb, c.segUnits[f]);
      && 0 < cur && After1(c, f) < c.workers
      && Parts(c, f, slpa, nlb) == [S.Piece(f, slpa, cur)] + Parts(c, After1(c, f), slpa + cur, nlb - cur)
      && (Parts(c, After1(c, f), slpa + cur, nlb - cur) == [] <==> cur == nlb)
  {
  }

  // The threads take turns, every piece but the last is a whole segment of its thread, and each
  // begins where the one before it ends.
  lemma {:induction false} PartsTakeTurns(c: Config, f: nat, slpa: nat, nlb: nat, k: nat)
    requires Ok(c) && f < c.workers && k < |Parts(c, f, slpa, nlb)|
    ensures var ps := Parts(c, f, slpa, nlb); var p := ps[k];
      && p.ftl < c.workers && p.ftl == (f + k) % c.workers && 0 < p.nlb <= c.segUnits[p.ftl]
      && (k == 0 ==> p.slpa == slpa)
      && (k + 1 < |ps| ==> p.nlb == c.segUnits[p.ftl] && ps[k + 1].slpa == p.slpa + p.nlb)
      && (k + 1 == |ps| ==> p.slpa + p.nlb == slpa + nlb)
    decreases nlb
  {
    assert 0 < nlb;
    PartsNext(c, f, slpa, nlb);
    var cur, g := S.Min(nlb, c.segUnits[f]), After1(c, f);
    var rest := Parts(c, g, slpa + cur, nlb - cur);
    hide Parts, After1;
    if k > 0 {
      PartsTakeTurns(c, g, slpa + cur, nlb - cur, k - 1);
      TurnMod(c, f, k);
    } else if rest == [] {
      InRange(f, c.workers);
    } else {
      PartsTakeTurns(c, g, slpa + cur, nlb - cur, 0);
      InRange(f, c.workers);
    }
  }

  lemma InRange(f: nat, n: nat)
    requires f < n
    ensures f % n == f
  {
  }

  lemma TurnMod(c: Config, f: nat, k: nat)
    requires Ok(c) && f < c.workers && 0 < k
    ensures (After1(c, f) + (k - 1)) % c.workers == (f + k) % c.workers
  {
    if f + 1 >= c.workers {
      AddOnce(k - 1, c.workers);
    }
  }

  lemma AddOnce(a: nat, n: nat)
    requires 0 < n
    ensures (a + n) % n == a % n
  {
    Euclid(a, n);
    MixDivMod(a / n + 1, a % n, n);
    Distribute(a / n, 1, n);
  }

  // The parameters main.c sets up for two threads.
  predicate TwoThreads(c: Config) {
    && c.workers == 2 && |c.segUnits| == 2 && 0 < c.splitUnits && 0 < c.splitRatio
    && c.segUnits[0] == c.splitUnits && c.segUnits[1] == c.splitRatio * c.splitUnits
  }

  function SplitOf(c: Config): S.Config {
    S.Config(c.splitUnits, c.splitRatio)
  }

  // With them the pieces are those of the splitting loop, and the first goes to the owner of the
  // first block.
  lemma FirstIsOwner(c: Config, slba: nat)
    requires Ok(c) && TwoThreads(c)
    ensures FirstFtl(c, slba) == S.Owner(SplitOf(c), slba)
  {
  }

  lemma {:induction false} PartsAreSplit(c: Config, f: nat, slpa: nat, nlb: nat)
    requires Ok(c) && TwoThreads(c) && f < 2
    ensures Parts(c, f, slpa, nlb) == S.Pieces(SplitOf(c), f, slpa, nlb)
    decreases nlb
  {
    if nlb == 0 {
    } else {
      var cur := S.Min(nlb, c.segUnits[f]);
      PartsAreSplit(c, S.Other(f), slpa + cur, nlb - cur);
    }
  }

  // ----- The pieces made so far -----

  function SoFar(subs: seq<Sub>, j: nat): seq<S.Piece> {
    if subs == [] then []
    else
      var n := |subs| - 1;
      SoFar(subs[..n], j) + if subs[n].owner == j then [S.Piece(subs[n].ftl, subs[n].slpa, subs[n].nlb)] else []
  }

  lemma SoFarMore(subs: seq<Sub>, x: Sub, j: nat)
    ensures SoFar(subs + [x], j) ==
            SoFar(subs, j) + if x.owner == j then [S.Piece(x.ftl, x.slpa, x.nlb)] else []
  {
    assert (subs + [x])[..|subs|] == subs;
  }

  lemma {:induction false} SoFarNone(subs: seq<Sub>, j: nat)
    requires forall i :: 0 <= i < |subs| ==> subs[i].owner != j
    ensures SoFar(subs, j) == []
  {
    if subs == [] {
    } else {
      SoFarNone(subs[..|subs| - 1], j);
    }
  }

  // Every sub-command of j is among its pieces.
  lemma {:induction false} SoFarHas(subs: seq<Sub>, j: nat, i: nat)
    requires i < |subs| && subs[i].owner == j
    ensures S.Piece(subs[i].ftl, subs[i].slpa, subs[i].nlb) in SoFar(subs, j)
  {
    var n := |subs| - 1;
    if i == n {
    } else {
      SoFarHas(subs[..n], j, i);
    }
  }

  // What the dispatcher has still to make of command j.
  function ToCome(c: Config, j: nat, pc: Pc): seq<S.Piece>
    requires Ok(c) && (pc.Splitting? ==> pc.ftl < c.workers)
  {
    if pc.Splitting? && pc.owner == j then Parts(c, pc.ftl, pc.slpa, pc.nlb) else []
  }

  // The pieces of command j, made and to come, are those of its blocks.
  ghost predicate Planned(c: Config, subs: seq<Sub>, j: nat, a: Accepted, pc: Pc)
    requires Ok(c)
  {
    && (pc.Splitting? ==> pc.ftl < c.workers) && FirstFtl(c, a.slba) < c.workers
    && SoFar(subs, j) + ToCome(c, j, pc) == Parts(c, FirstFtl(c, a.slba), a.slba, a.nlb)
  }

  ghost predicate AllPlanned(c: Config, s: State)
    requires Ok(c)
  {
    && |s.disp| == c.dispatchers
    && forall j :: 0 <= j < |s.cmds| ==> Planned(c, s.subs, j, s.cmds[j], s.disp[s.cmds[j].q % c.dispatchers])
  }

  lemma InitPlanned(c: Config)
    requires Ok(c)
    ensures AllPlanned(c, Init(c))
  {
  }

  lemma AcceptFacts(c: Config, s: State, q: nat, cid: nat, sqEntry: nat, slba: nat, nlb: nat, now: nat)
    requires Ok(c) && Allowed(c, s, AcceptCmd(q, cid, sqEntry, slba, nlb, now))
    requires AssertsHold(c, s, AcceptCmd(q, cid, sqEntry, slba, nlb, now))
    ensures q < |s.free| && s.free[q] != [] && q % c.dispatchers < |s.disp| && s.disp[q % c.dispatchers].Idle?
    ensures FirstFtl(c, slba) < c.workers
  {
  }

  lemma AcceptPlanned(c: Config, s: State, q: nat, cid: nat, sqEntry: nat, slba: nat, nlb: nat, now: nat)
    requires Ok(c) && Inv(c, s) && AllPlanned(c, s) && Allowed(c, s, AcceptCmd(q, cid, sqEntry, slba, nlb, now))
    requires AssertsHold(c, s, AcceptCmd(q, cid, sqEntry, slba, nlb, now))
    ensures AllPlanned(c, Accept(c, s, q, cid, sqEntry, slba, nlb, now))
  {
    hide Planned, Inv, AssertsHold, FirstFtl, Parts;
    AcceptFacts(c, s, q, cid, sqEntry, slba, nlb, now);
    var t := Accept(c, s, q, cid, sqEntry, slba, nlb, now);
    SubsOwned(c, s);
    SoFarNone(s.subs, |s.cmds|);
    forall j | 0 <= j < |t.cmds| ensures Planned(c, t.subs, j, t.cmds[j], t.disp[t.cmds[j].q % c.dispatchers]) {
      if j < |s.cmds| {
        var d := s.cmds[j].q % c.dispatchers;
        assert Planned(c, s.subs, j, s.cmds[j], s.disp[d]);
        PlannedElsewhere(c, s.subs, j, s.cmds[j], s.disp[d], t.disp[d]);
      } else {
        PlannedAtFirst(c, s.subs, j, t.cmds[j], t.disp[q % c.dispatchers]);
      }
    }
  }

  lemma SubsOwned(c: Config, s: State)
    requires Ok(c) && Inv(c, s)
    ensures |s.results| == |s.subs| && forall i :: 0 <= i < |s.subs| ==> s.subs[i].owner < |s.cmds|
  {
  }

  lemma PlannedElsewhere(c: Config, subs: seq<Sub>, j: nat, a: Accepted, pc: Pc, now: Pc)
    requires Ok(c) && Planned(c, subs, j, a, pc)
    requires now == pc || (pc.Idle? && now.Splitting? && now.owner != j && now.ftl < c.workers)
    ensures Planned(c, subs, j, a, now)
  {
  }

  lemma PlannedAtFirst(c: Config, subs: seq<Sub>, j: nat, a: Accepted, pc: Pc)
    requires Ok(c) && SoFar(subs, j) == []
    requires pc.Splitting? && pc.owner == j && pc.slpa == a.slba && pc.nlb == a.nlb && pc.ftl == FirstFtl(c, a.slba)
    ensures Planned(c, subs, j, a, pc)
  {
  }

  // Handing out one piece.
  lemma PlannedNext(c: Config, subs: seq<Sub>, a: Accepted, pc: Pc, x: Sub, next: Pc)
    requires Ok(c) && pc.Splitting? && Planned(c, subs, pc.owner, a, pc) && 0 < pc.nlb
    requires x == Sub(pc.owner, pc.ftl, pc.slpa, S.Min(pc.nlb, c.segUnits[pc.ftl]))
    requires if pc.nlb == x.nlb then next.Idle?
             else next.Splitting? && next.owner == pc.owner && next.slpa == pc.slpa + x.nlb
                  && next.nlb == pc.nlb - x.nlb && next.ftl == After1(c, pc.ftl)
    ensures Planned(c, subs + [x], pc.owner, a, next)
  {
    hide SoFar, Parts, After1, FirstFtl;
    SoFarMore(subs, x, pc.owner);
    PartsNext(c, pc.ftl, pc.slpa, pc.nlb);
  }

  lemma PlannedOther(c: Config, subs: seq<Sub>, j: nat, a: Accepted, pc: Pc, now: Pc, x: Sub)
    requires Ok(c) && Planned(c, subs, j, a, pc) && x.owner != j
    requires now == pc || (pc.Splitting? && pc.owner != j && (now.Splitting? ==> now.owner != j && now.ftl < c.workers))
    ensures Planned(c, subs + [x], j, a, now)
  {
    SoFarMore(subs, x, j);
  }

  lemma EnqueuePlanned(c: Config, s: State, d: nat)
    requires Ok(c) && Inv(c, s) && AllPlanned(c, s) && d < |s.disp| && s.disp[d].Splitting?
    ensures s.disp[d].ftl < |c.segUnits|
    ensures AllPlanned(c, Enqueue(c, s, d))
  {
    hide Planned, Inv;
    SplitFacts(c, s, d);
    var t, pc := Enqueue(c, s, d), s.disp[d];
    var x := t.subs[|s.subs|];
    assert Planned(c, s.subs, pc.owner, s.cmds[pc.owner], pc);
    PlannedNext(c, s.subs, s.cmds[pc.owner], pc, x, t.disp[d]);
    forall j | 0 <= j < |t.cmds| ensures Planned(c, t.subs, j, t.cmds[j], t.disp[t.cmds[j].q % c.dispatchers]) {
      if j != pc.owner {
        assert Planned(c, s.subs, j, s.cmds[j], s.disp[s.cmds[j].q % c.dispatchers]);
        PlannedOther(c, s.subs, j, s.cmds[j], s.disp[s.cmds[j].q % c.dispatchers],
                     t.disp[t.cmds[j].q % c.dispatchers], x);
      }
    }
  }

  lemma SplitFacts(c: Config, s: State, d: nat)
    requires Ok(c) && Inv(c, s) && d < |s.disp| && s.disp[d].Splitting?
    ensures |s.disp| == c.dispatchers
    ensures var pc := s.disp[d];
      && pc.owner < |s.cmds| && s.cmds[pc.owner].q % c.dispatchers == d && 0 < pc.nlb && pc.ftl < c.workers
  {
    assert PcOk(c, s.disp[d], d, s.cmds, s.posted);
  }

  lemma StepPlanned(c: Config, s: State, a: Action)
    requires Ok(c) && Inv(c, s) && AllPlanned(c, s) && Allowed(c, s, a) && AssertsHold(c, s, a)
    ensures AllPlanned(c, Apply(c, s, a))
  {
    hide Inv, Planned;
    match a
    case AcceptCmd(q, cid, sqEntry, slba, nlb, now) => AcceptPlanned(c, s, q, cid, sqEntry, slba, nlb, now);
    case EnqueueNext(d) => EnqueuePlanned(c, s, d);
    case _ =>
  }

  // ----- What holds over every run -----

  ghost predicate Told(c: Config, s: State)
    requires Ok(c)
  {
    Inv(c, s) && AllPlanned(c, s) && Times(s)
  }

  lemma {:induction false} RunsAreTold(c: Config, s: State, acts: seq<Action>)
    requires Ok(c) && Told(c, s) && RunAllowed(c, s, acts)
    ensures After(c, s, acts).Some? && Told(c, After(c, s, acts).value)
    decreases acts
  {
    hide Inv, AllPlanned, Times, Allowed, AssertsHold, Apply;
    if acts == [] {
    } else {
      StepOk(c, s, acts[0]);
      StepPlanned(c, s, acts[0]);
      StepTimes(c, s, acts[0]);
      RunsAreTold(c, Apply(c, s, acts[0]), acts[1..]);
    }
  }

  lemma EveryRunTold(c: Config, acts: seq<Action>)
    requires Ok(c) && RunAllowed(c, Init(c), acts)
    ensures After(c, Init(c), acts).Some? && Told(c, After(c, Init(c), acts).value)
  {
    hide Inv, AllPlanned, Times, RunAllowed, After;
    InitOk(c);
    InitPlanned(c);
    InitTimes(c);
    RunsAreTold(c, Init(c), acts);
  }

  // The dispatcher of command j is done with splitting it.
  predicate IsSplit(c: Config, s: State, j: nat)
    requires Ok(c) && |s.disp| == c.dispatchers && j < |s.cmds|
  {
    var pc := s.disp[s.cmds[j].q % c.dispatchers];
    pc.Splitting? ==> pc.owner != j
  }

  // With the parameters of two threads a command that is split went out as the pieces the address
  // space asks for, starting with the owner of its first block.
  lemma PiecesAsSplit(c: Config, s: State, j: nat)
    requires Ok(c) && TwoThreads(c) && Told(c, s) && j < |s.cmds| && IsSplit(c, s, j)
    ensures var b, x := SplitOf(c), s.cmds[j];
      SoFar(s.subs, j) == S.Pieces(b, S.Owner(b, x.slba), x.slba, x.nlb)
  {
    hide Inv, Times;
    var x := s.cmds[j];
    assert Planned(c, s.subs, j, x, s.disp[x.q % c.dispatchers]);
    FirstIsOwner(c, x.slba);
    PartsAreSplit(c, FirstFtl(c, x.slba), x.slba, x.nlb);
  }

  // What a thread finds on its ring: one of the pieces its command splits into, the piece's own
  // thread, and the time the command was accepted.
  lemma EntryIsPiece(c: Config, s: State, d: nat, f: nat, k: nat)
    requires Ok(c) && Told(c, s) && (d, f) in s.pipes && k < |s.pipes[(d, f)].inq|
    ensures var x := s.pipes[(d, f)].inq[k];
      && x.serial < |s.subs| && s.subs[x.serial].owner < |s.cmds|
      && var a := s.cmds[s.subs[x.serial].owner];
         && FirstFtl(c, a.slba) < c.workers
         && S.Piece(f, x.slpa, x.nlb) in Parts(c, FirstFtl(c, a.slba), a.slba, a.nlb)
         && x.q == a.q && x.q % c.dispatchers == d && x.cid == a.cid && x.sqEntry == a.sqEntry && x.nsecs == a.start
  {
    var p := s.pipes[(d, f)];
    var x, n := p.inq[k], |p.outq| + |p.pq|;
    assert LineOk(c, Line(p), d, f, s.cmds, s.subs, s.results);
    assert Line(p)[n + k] == x;
    assert Carries(s.cmds, s.subs, x) && Travels(c, s.cmds, s.subs, x.serial, d, f);
    assert x in p.inq && PipeTimes(s.cmds, s.subs, s.lats, p);
    var j := s.subs[x.serial].owner;
    assert Planned(c, s.subs, j, s.cmds[j], s.disp[s.cmds[j].q % c.dispatchers]);
    SoFarHas(s.subs, j, x.serial);
  }

  // Every piece that is not back is on the line of its thread, with its blocks.
  lemma PieceOnLine(c: Config, s: State, i: nat)
    requires Ok(c) && Inv(c, s) && IsLive(s.results, i)
    ensures i < |s.subs| && s.subs[i].owner < |s.cmds|
    ensures var k: Key := (s.cmds[s.subs[i].owner].q % c.dispatchers, s.subs[i].ftl);
      k in s.pipes &&
      exists n :: 0 <= n < |Line(s.pipes[k])| && Line(s.pipes[k])[n].serial == i
                  && Line(s.pipes[k])[n].slpa == s.subs[i].slpa && Line(s.pipes[k])[n].nlb == s.subs[i].nlb
  {
    hide Owners, Counts, Lists, Kept, Splits, Logs, Pools, Rooms, Line;
    var k: Key := (s.cmds[s.subs[i].owner].q % c.dispatchers, s.subs[i].ftl);
    var line := Line(s.pipes[k]);
    assert LineOk(c, line, k.0, k.1, s.cmds, s.subs, s.results);
    assert Travels(c, s.cmds, s.subs, i, k.0, k.1);
    var n :| 0 <= n < |line| && line[n].serial == i;
    assert Carries(s.cmds, s.subs, line[n]);
  }

  // Each block of a command that is split is in exactly one entry ever put on a ring: that of one
  // piece, which is on the line of its thread until it is back.
  lemma BlocksHandedOut(c: Config, s: State, j: nat, lba: nat)
    requires Ok(c) && Told(c, s) && j < |s.cmds| && IsSplit(c, s, j)
    ensures s.cmds[j].slba <= lba < s.cmds[j].slba + s.cmds[j].nlb <==> Covered(s.subs, j, lba)
    ensures forall h, i | 0 <= h < i < |s.subs| && s.subs[h].owner == j && s.subs[i].owner == j ::
              Within(s.subs[h], lba) ==> !Within(s.subs[i], lba)
  {
    hide AllPlanned, Times;
    PiecesCover(c, s, j);
    TilesCover(s.subs, j, s.cmds[j].slba, s.cmds[j].slba + s.cmds[j].nlb);
  }

  // A posted command is not answered before any of its pieces ends: before its start and the
  // latency worked out for that piece.
  lemma AnsweredAfterPieces(c: Config, s: State, j: nat, i: nat)
    requires Ok(c) && Told(c, s) && j < |s.cmds| && i < |s.subs| && s.subs[i].owner == j
    requires |s.posted| == |s.cmds| && s.posted[j].Some?
    ensures i < |s.results| && i in s.lats && s.results[i] == Some(s.cmds[j].start + s.lats[i])
    ensures s.posted[j].value >= s.cmds[j].start + s.lats[i]
  {
    hide AllPlanned;
    assert LiveOf(s.subs, s.results, j) == {};
    assert i !in LiveOf(s.subs, s.results, j);
    assert EndsBy(s.subs, s.results, j, s.posted[j].value);
  }

  lemma HasPiece(c: Config, s: State, j: nat) returns (i: nat)
    requires Ok(c) && Told(c, s) && j < |s.cmds| && IsSplit(c, s, j)
    ensures i < |s.subs| && s.subs[i].owner == j
  {
    hide AllPlanned, Times;
    assert 0 < s.cmds[j].nlb;
    BlocksHandedOut(c, s, j, s.cmds[j].slba);
    i :| i < |s.subs| && s.subs[i].owner == j && Within(s.subs[i], s.cmds[j].slba);
  }

  lemma BackAt(c: Config, s: State, j: nat, i: nat)
    requires Ok(c) && Told(c, s) && LiveOf(s.subs, s.results, j) == {} && i < |s.subs| && s.subs[i].owner == j
    ensures j < |s.cmds| && i in s.lats && Back(s.subs, s.results, j, i, s.cmds[j].start + s.lats[i])
  {
    hide AllPlanned;
    assert |s.results| == |s.subs|;
    assert i !in LiveOf(s.subs, s.results, j);
  }

  lemma RequestOf(c: Config, s: State, j: nat)
    requires Ok(c) && Told(c, s) && j < |s.cmds| && |s.posted| == |s.cmds| && s.posted[j].None?
    ensures var k: Key := (s.cmds[j].q, s.cmds[j].id);
      k in s.reqs && s.reqs[k].owner == j && ReqTimes(s.reqs[k], s.cmds, s.subs, s.results)
  {
    hide AllPlanned, ReqTimes;
    var k: Key := (s.cmds[j].q, s.cmds[j].id);
    assert k in s.reqs && s.reqs[k].isFlight && s.reqs[k].owner == j;
  }

  // Piece i of command j ends at t.
  ghost predicate PieceEnds(s: State, j: nat, i: nat, t: nat) {
    i < |s.subs| && s.subs[i].owner == j && j < |s.cmds| && i in s.lats && t == s.cmds[j].start + s.lats[i]
  }

  lemma EndsSomewhere(subs: seq<Sub>, results: seq<Option<nat>>, j: nat, start: nat, end: nat, i0: nat, t: nat)
    returns (i: nat)
    requires LatestBack(subs, results, j, start, end) && Back(subs, results, j, i0, t) && start <= t
    ensures Back(subs, results, j, i, end)
  {
    if end == start {
      i := i0;
    } else {
      i :| Back(subs, results, j, i, end);
    }
  }

  // A command waits for nothing but its pieces: with all of them back its request ends with the
  // last of them, and its dispatcher may post it from then on.
  lemma EndsWithLast(c: Config, s: State, j: nat)
    requires Ok(c) && Told(c, s) && j < |s.cmds| && IsSplit(c, s, j) && |s.posted| == |s.cmds| && s.posted[j].None?
    requires LiveOf(s.subs, s.results, j) == {}
    ensures var k: Key := (s.cmds[j].q, s.cmds[j].id);
      && k in s.reqs && s.reqs[k].owner == j
      && (exists i: nat :: PieceEnds(s, j, i, s.reqs[k].nsecsEnd))
      && (forall i, t: nat :: PieceEnds(s, j, i, t) ==> t <= s.reqs[k].nsecsEnd)
  {
    hide Told, IsSplit;
    var k: Key := (s.cmds[j].q, s.cmds[j].id);
    RequestOf(c, s, j);
    var end := s.reqs[k].nsecsEnd;
    var i0 := HasPiece(c, s, j);
    BackAt(c, s, j, i0);
    var i := EndsSomewhere(s.subs, s.results, j, s.cmds[j].start, end, i0, s.cmds[j].start + s.lats[i0]);
    BackAt(c, s, j, i);
    assert PieceEnds(s, j, i, end);
    forall h, t: nat | PieceEnds(s, j, h, t) ensures t <= end {
      BackAt(c, s, j, h);
    }
  }

  // No piece is taken twice, and it keeps the latency it was taken with.
  lemma TakenOnce(c: Config, s: State, f: nat, lat: nat)
    requires Ok(c) && Times(s) && AssertsHold(c, s, TakeNext(f, lat))
    requires PipeAt(s.pipes, (s.turn[f].d, f)).inq != []
    ensures PipeAt(s.pipes, (s.turn[f].d, f)).inq[0].serial !in s.lats
    ensures Take(c, s, f, lat).lats == s.lats[PipeAt(s.pipes, (s.turn[f].d, f)).inq[0].serial := lat]
  {
    hide PipeTimes, Returned, ReqsTimed;
    FirstStarts(s.cmds, s.subs, s.lats, s.pipes[(s.turn[f].d, f)]);
  }
}
