// When the pieces of a command end and when the command is answered: an entry carries the start
// of its command until a thread takes it, and that plus the latency worked out for it from then
// on; a request ends with the last of its pieces.
module DispatcherTimes {
  import opened Wrappers
  import opened Collections
  import opened DispatcherModel
  import opened Dispatcher

  ghost predicate Made(cmds: seq<Accepted>, subs: seq<Sub>, i: nat) {
    i < |subs| && subs[i].owner < |cmds|
  }

  // Sub-command i ends its latency after its command was accepted.
  ghost predicate EndsAt(cmds: seq<Accepted>, subs: seq<Sub>, lats: map<nat, nat>, i: nat, t: nat) {
    Made(cmds, subs, i) && i in lats && t == cmds[subs[i].owner].start + lats[i]
  }

  // No thread has taken sub-command i, which starts with its command.
  ghost predicate StartsAt(cmds: seq<Accepted>, subs: seq<Sub>, lats: map<nat, nat>, i: nat, t: nat) {
    Made(cmds, subs, i) && i !in lats && t == cmds[subs[i].owner].start
  }

  ghost predicate PipeTimes(cmds: seq<Accepted>, subs: seq<Sub>, lats: map<nat, nat>, p: Pipe) {
    && (forall x :: x in p.inq ==> StartsAt(cmds, subs, lats, x.serial, x.nsecs))
    && (forall x :: x in p.pq ==> EndsAt(cmds, subs, lats, x.cmd.serial, x.cmd.nsecs))
    && (forall x :: x in p.outq ==> EndsAt(cmds, subs, lats, x.serial, x.nsecs))
  }

  ghost predicate AllPipes(cmds: seq<Accepted>, subs: seq<Sub>, lats: map<nat, nat>, pipes: map<Key, Pipe>) {
    forall k: Key :: k in pipes ==> PipeTimes(cmds, subs, lats, pipes[k])
  }

  ghost predicate Returned(cmds: seq<Accepted>, subs: seq<Sub>, results: seq<Option<nat>>, lats: map<nat, nat>) {
    && (forall i :: i in lats ==> i < |subs|)
    && (forall i :: 0 <= i < |results| && results[i].Some? ==> EndsAt(cmds, subs, lats, i, results[i].value))
  }

  ghost predicate Back(subs: seq<Sub>, results: seq<Option<nat>>, j: nat, i: nat, t: nat) {
    i < |subs| && i < |results| && subs[i].owner == j && results[i] == Some(t)
  }

  // t is the end of some piece of command j that is back, or its start, and no piece that is back
  // ended later.
  ghost predicate LatestBack(subs: seq<Sub>, results: seq<Option<nat>>, j: nat, start: nat, t: nat) {
    && (t == start || exists i: nat :: Back(subs, results, j, i, t))
    && start <= t && EndsBy(subs, results, j, t)
  }

  ghost predicate ReqsTimed(reqs: map<Key, Req>, cmds: seq<Accepted>, subs: seq<Sub>, results: seq<Option<nat>>) {
    forall k: Key :: k in reqs && reqs[k].isFlight ==> ReqTimes(reqs[k], cmds, subs, results)
  }

  ghost predicate ReqTimes(req: Req, cmds: seq<Accepted>, subs: seq<Sub>, results: seq<Option<nat>>) {
    && req.owner < |cmds| && req.nsecsStart == cmds[req.owner].start
    && LatestBack(subs, results, req.owner, cmds[req.owner].start, req.nsecsEnd)
  }

  ghost predicate Times(s: State) {
    && AllPipes(s.cmds, s.subs, s.lats, s.pipes)
    && Returned(s.cmds, s.subs, s.results, s.lats)
    && ReqsTimed(s.reqs, s.cmds, s.subs, s.results)
  }

  // ----- Every step keeps the times -----

  lemma InitTimes(c: Config)
    requires Ok(c)
    ensures Times(Init(c))
  {
  }

  // More commands and sub-commands change nothing for those already there.
  lemma MoreMade(cmds: seq<Accepted>, subs: seq<Sub>, lats: map<nat, nat>, pipes: map<Key, Pipe>,
                 results: seq<Option<nat>>, cmds': seq<Accepted>, subs': seq<Sub>)
    requires cmds <= cmds' && subs <= subs' && AllPipes(cmds, subs, lats, pipes) && Returned(cmds, subs, results, lats)
    ensures AllPipes(cmds', subs', lats, pipes) && Returned(cmds', subs', results, lats)
  {
    forall k: Key | k in pipes ensures PipeTimes(cmds', subs', lats, pipes[k]) {
      assert PipeTimes(cmds, subs, lats, pipes[k]);
    }
  }

  lemma ReqMoreCmds(req: Req, cmds: seq<Accepted>, subs: seq<Sub>, results: seq<Option<nat>>, a: Accepted)
    requires ReqTimes(req, cmds, subs, results)
    ensures ReqTimes(req, cmds + [a], subs, results)
  {
  }

  lemma AcceptTimes(c: Config, s: State, q: nat, cid: nat, sqEntry: nat, slba: nat, nlb: nat, now: nat)
    requires Ok(c) && Inv(c, s) && Times(s) && AssertsHold(c, s, AcceptCmd(q, cid, sqEntry, slba, nlb, now))
    ensures Times(Accept(c, s, q, cid, sqEntry, slba, nlb, now))
  {
    hide Inv, ReqTimes, AllPipes, Returned;
    var t := Accept(c, s, q, cid, sqEntry, slba, nlb, now);
    SubsMade(c, s);
    MoreMade(s.cmds, s.subs, s.lats, s.pipes, s.results, t.cmds, t.subs);
    forall k: Key | k in t.reqs && t.reqs[k].isFlight ensures ReqTimes(t.reqs[k], t.cmds, t.subs, t.results) {
      if k == (q, s.free[q][0]) {
        NoneBack(t.reqs[k], t.cmds, t.subs, t.results);
      } else {
        ReqMoreCmds(s.reqs[k], s.cmds, s.subs, s.results, t.cmds[|s.cmds|]);
      }
    }
  }

  lemma NoneBack(req: Req, cmds: seq<Accepted>, subs: seq<Sub>, results: seq<Option<nat>>)
    requires req.owner < |cmds| && req.nsecsStart == req.nsecsEnd == cmds[req.owner].start
    requires forall i :: 0 <= i < |subs| ==> subs[i].owner != req.owner
    ensures ReqTimes(req, cmds, subs, results)
  {
  }

  lemma SubsMade(c: Config, s: State)
    requires Ok(c) && Inv(c, s)
    ensures |s.results| == |s.subs| && forall i :: 0 <= i < |s.subs| ==> s.subs[i].owner < |s.cmds|
  {
  }

  lemma ReqMoreSubs(req: Req, cmds: seq<Accepted>, subs: seq<Sub>, results: seq<Option<nat>>, x: Sub, remaining: int)
    requires ReqTimes(req, cmds, subs, results) && |results| == |subs|
    ensures ReqTimes(req.(remaining := remaining), cmds, subs + [x], results + [None])
  {
    var end, j := req.nsecsEnd, req.owner;
    if i: nat :| Back(subs, results, j, i, end) {
      assert Back(subs + [x], results + [None], j, i, end);
    }
  }

  lemma PipeGains(cmds: seq<Accepted>, subs: seq<Sub>, lats: map<nat, nat>, p: Pipe, x: Cmd)
    requires PipeTimes(cmds, subs, lats, p) && StartsAt(cmds, subs, lats, x.serial, x.nsecs)
    ensures PipeTimes(cmds, subs, lats, p.(inq := p.inq + [x]))
  {
  }

  lemma EnqueueTimes(c: Config, s: State, d: nat)
    requires Ok(c) && Inv(c, s) && Times(s) && Allowed(c, s, EnqueueNext(d)) && AssertsHold(c, s, EnqueueNext(d))
    ensures Times(Enqueue(c, s, d))
  {
    hide Inv, ReqTimes, PipeTimes, Returned, LatestBack;
    EnqueueFacts(c, s, d);
    var t, pc := Enqueue(c, s, d), s.disp[d];
    var k0: Key, kp: Key := (pc.q, pc.id), (d, pc.ftl);
    var x, y := t.subs[|s.subs|], t.pipes[kp].inq[|s.pipes[kp].inq|];
    SubsMade(c, s);
    MoreMade(s.cmds, s.subs, s.lats, s.pipes, s.results, t.cmds, t.subs);
    FreshStart(s, k0, x, y);
    PipeGains(t.cmds, t.subs, t.lats, s.pipes[kp], y);
    ReturnedMore(t.cmds, t.subs, s.results, t.lats);
    forall k: Key | k in t.reqs && t.reqs[k].isFlight ensures ReqTimes(t.reqs[k], t.cmds, t.subs, t.results) {
      ReqMoreSubs(s.reqs[k], s.cmds, s.subs, s.results, x, t.reqs[k].remaining);
    }
  }

  lemma EnqueueFacts(c: Config, s: State, d: nat)
    requires Ok(c) && Inv(c, s) && Allowed(c, s, EnqueueNext(d)) && AssertsHold(c, s, EnqueueNext(d))
    ensures var pc := s.disp[d]; var k := (pc.q, pc.id);
      k in s.reqs && s.reqs[k].isFlight && s.reqs[k].owner == pc.owner
  {
    EnqueueAsserts(c, s, d);
  }

  lemma FreshStart(s: State, k: Key, x: Sub, y: Cmd)
    requires Returned(s.cmds, s.subs, s.results, s.lats)
    requires k in s.reqs && s.reqs[k].isFlight && ReqTimes(s.reqs[k], s.cmds, s.subs, s.results)
    requires x.owner == s.reqs[k].owner && y.serial == |s.subs| && y.nsecs == s.reqs[k].nsecsStart
    ensures StartsAt(s.cmds, s.subs + [x], s.lats, y.serial, y.nsecs)
  {
  }

  lemma ReturnedMore(cmds: seq<Accepted>, subs: seq<Sub>, results: seq<Option<nat>>, lats: map<nat, nat>)
    requires Returned(cmds, subs, results, lats)
    ensures Returned(cmds, subs, results + [None], lats)
  {
  }

  // Working out the latency of sub-command i, which no other entry stands for.
  lemma LatElsewhere(cmds: seq<Accepted>, subs: seq<Sub>, lats: map<nat, nat>, p: Pipe, i: nat, lat: nat)
    requires PipeTimes(cmds, subs, lats, p) && i !in lats
    requires forall x :: x in p.inq ==> x.serial != i
    ensures PipeTimes(cmds, subs, lats[i := lat], p)
  {
  }

  lemma LatReturned(cmds: seq<Accepted>, subs: seq<Sub>, results: seq<Option<nat>>, lats: map<nat, nat>, i: nat,
                    lat: nat)
    requires Returned(cmds, subs, results, lats) && i < |subs| && i !in lats
    ensures Returned(cmds, subs, results, lats[i := lat])
  {
  }

  lemma PipeTakes(cmds: seq<Accepted>, subs: seq<Sub>, lats: map<nat, nat>, p: Pipe, slot: nat, lat: nat)
    requires PipeTimes(cmds, subs, lats, p) && p.inq != []
    requires forall x :: x in p.inq[1..] ==> x.serial != p.inq[0].serial
    ensures var x := p.inq[0];
      PipeTimes(cmds, subs, lats[x.serial := lat],
                p.(inq := p.inq[1..], pq := [Flight(slot, x.(nsecs := x.nsecs + lat))] + p.pq))
  {
    var x := p.inq[0];
    var lats' := lats[x.serial := lat];
    assert StartsAt(cmds, subs, lats, x.serial, x.nsecs);
    LatElsewhere(cmds, subs, lats, p.(inq := p.inq[1..]), x.serial, lat);
    assert EndsAt(cmds, subs, lats', x.serial, x.nsecs + lat);
  }

  lemma InLine(p: Pipe, i: nat)
    requires i < |p.inq|
    ensures |p.outq| + |p.pq| + i < |Line(p)| && Line(p)[|p.outq| + |p.pq| + i] == p.inq[i]
  {
  }

  // The next entry for a thread stands for a sub-command no other entry on its way to a thread
  // stands for.
  lemma ApartInLine(c: Config, s: State, k: Key)
    requires Ok(c) && Inv(c, s) && k in s.pipes && s.pipes[k].inq != []
    ensures forall x :: x in s.pipes[k].inq[1..] ==> x.serial != s.pipes[k].inq[0].serial
  {
    hide Inv, Line;
    var p := s.pipes[k];
    LineOf(c, s, k);
    InLine(p, 0);
    forall x | x in p.inq[1..] ensures x.serial != p.inq[0].serial {
      var i :| 0 < i < |p.inq| && p.inq[i] == x;
      InLine(p, i);
    }
  }

  lemma ApartElsewhere(c: Config, s: State, k0: Key, k: Key)
    requires Ok(c) && Inv(c, s) && k0 in s.pipes && s.pipes[k0].inq != [] && k in s.pipes && k != k0
    ensures forall x :: x in s.pipes[k].inq ==> x.serial != s.pipes[k0].inq[0].serial
  {
    hide Inv, Line;
    var p0, p := s.pipes[k0], s.pipes[k];
    LineOf(c, s, k0);
    LineOf(c, s, k);
    InLine(p0, 0);
    forall x | x in p.inq ensures x.serial != p0.inq[0].serial {
      var i :| 0 <= i < |p.inq| && p.inq[i] == x;
      InLine(p, i);
    }
  }

  lemma LineOf(c: Config, s: State, k: Key)
    requires Ok(c) && Inv(c, s) && k in s.pipes
    ensures var line := Line(s.pipes[k]);
      && (forall i :: 0 <= i < |line| ==> Travels(c, s.cmds, s.subs, line[i].serial, k.0, k.1))
      && (forall i, j :: 0 <= i < j < |line| ==> line[i].serial < line[j].serial)
  {
    assert LineOk(c, Line(s.pipes[k]), k.0, k.1, s.cmds, s.subs, s.results);
  }

  lemma TakeTimes(c: Config, s: State, f: nat, lat: nat)
    requires Ok(c) && Inv(c, s) && Times(s) && Allowed(c, s, TakeNext(f, lat)) && AssertsHold(c, s, TakeNext(f, lat))
    ensures Times(Take(c, s, f, lat))
  {
    hide Inv, ReqsTimed, PipeTimes, Returned;
    var t := Take(c, s, f, lat);
    var k0: Key := (s.turn[f].d, f);
    var p := PipeAt(s.pipes, k0);
    if p.inq != [] {
      var i := p.inq[0].serial;
      ApartInLine(c, s, k0);
      FirstStarts(s.cmds, s.subs, s.lats, p);
      PipeTakes(s.cmds, s.subs, s.lats, p, s.pool[f][0], lat);
      LatReturned(s.cmds, s.subs, s.results, s.lats, i, lat);
      forall k: Key | k in t.pipes ensures PipeTimes(t.cmds, t.subs, t.lats, t.pipes[k]) {
        if k != k0 {
          ApartElsewhere(c, s, k0, k);
          LatElsewhere(s.cmds, s.subs, s.lats, s.pipes[k], i, lat);
        }
      }
    }
  }

  lemma FirstStarts(cmds: seq<Accepted>, subs: seq<Sub>, lats: map<nat, nat>, p: Pipe)
    requires PipeTimes(cmds, subs, lats, p) && p.inq != []
    ensures p.inq[0].serial < |subs| && p.inq[0].serial !in lats
  {
    assert p.inq[0] in p.inq;
  }

  lemma PipeDrains(cmds: seq<Accepted>, subs: seq<Sub>, lats: map<nat, nat>, p: Pipe)
    requires PipeTimes(cmds, subs, lats, p) && p.pq != []
    ensures PipeTimes(cmds, subs, lats, p.(pq := p.pq[1..], outq := p.outq + [p.pq[0].cmd]))
  {
    assert p.pq[0] in p.pq;
  }

  lemma DrainTimes(c: Config, s: State, f: nat)
    requires Ok(c) && Times(s) && AssertsHold(c, s, DrainNext(f))
    ensures Times(Drain(c, s, f))
  {
    hide ReqsTimed, PipeTimes, Returned;
    var p := PipeAt(s.pipes, (s.turn[f].d, f));
    if p.pq != [] { PipeDrains(s.cmds, s.subs, s.lats, p); }
  }

  lemma FirstEnds(cmds: seq<Accepted>, subs: seq<Sub>, lats: map<nat, nat>, p: Pipe)
    requires PipeTimes(cmds, subs, lats, p) && p.outq != []
    ensures EndsAt(cmds, subs, lats, p.outq[0].serial, p.outq[0].nsecs)
    ensures PipeTimes(cmds, subs, lats, p.(outq := p.outq[1..]))
  {
    assert p.outq[0] in p.outq;
  }

  lemma ReturnedOneMore(cmds: seq<Accepted>, subs: seq<Sub>, results: seq<Option<nat>>, lats: map<nat, nat>, i: nat,
                        t: nat)
    requires Returned(cmds, subs, results, lats) && i < |results| && EndsAt(cmds, subs, lats, i, t)
    ensures Returned(cmds, subs, results[i := Some(t)], lats)
  {
  }

  lemma OneOwner(c: Config, s: State, k: Key, l: Key)
    requires Ok(c) && Inv(c, s) && k in s.reqs && l in s.reqs && s.reqs[k].isFlight && s.reqs[l].isFlight
    requires s.reqs[k].owner == s.reqs[l].owner
    ensures k == l
  {
  }

  lemma ReqOneMore(req: Req, cmds: seq<Accepted>, subs: seq<Sub>, results: seq<Option<nat>>, lats: map<nat, nat>,
                   i: nat, v: nat, after: Req)
    requires ReqTimes(req, cmds, subs, results) && i < |subs| == |results| && results[i].None?
    requires EndsAt(cmds, subs, lats, i, v)
    requires after.owner == req.owner && after.nsecsStart == req.nsecsStart
    requires after.nsecsEnd == if subs[i].owner == req.owner && v > req.nsecsEnd then v else req.nsecsEnd
    ensures ReqTimes(after, cmds, subs, results[i := Some(v)])
  {
    var j, t, results' := req.owner, req.nsecsEnd, results[i := Some(v)];
    if subs[i].owner == j && v > t {
      assert Back(subs, results', j, i, v);
    } else if h: nat :| Back(subs, results, j, h, t) {
      assert Back(subs, results', j, h, t);
    }
  }

  lemma DequeueTimes(c: Config, s: State, d: nat, f: nat)
    requires Ok(c) && Inv(c, s) && Times(s) && Allowed(c, s, DequeueFrom(d, f))
    requires AssertsHold(c, s, DequeueFrom(d, f))
    ensures Times(Dequeue(c, s, d, f))
  {
    hide Inv, PipeTimes, Returned, ReqTimes, Push, EndsAt;
    DequeueAsserts(c, s, d, f);
    var t, p := Dequeue(c, s, d, f), s.pipes[(d, f)];
    var x := p.outq[0];
    var k0: Key := (x.q, TagAt(s.tag, (x.q, x.cid)));
    FirstEnds(s.cmds, s.subs, s.lats, p);
    ReturnedOneMore(s.cmds, s.subs, s.results, s.lats, x.serial, x.nsecs);
    forall k: Key | k in t.reqs && t.reqs[k].isFlight ensures ReqTimes(t.reqs[k], t.cmds, t.subs, t.results) {
      if s.reqs[k].owner == s.reqs[k0].owner { OneOwner(c, s, k, k0); }
      ReqOneMore(s.reqs[k], s.cmds, s.subs, s.results, s.lats, x.serial, x.nsecs, t.reqs[k]);
    }
  }

  lemma CompleteTimes(c: Config, s: State, d: nat, now: nat)
    requires Ok(c) && Times(s) && AssertsHold(c, s, CompleteFirst(d, now))
    ensures Times(Complete(c, s, d, now))
  {
    hide PipeTimes, Returned, ReqTimes;
    var t := Complete(c, s, d, now);
    forall k: Key | k in t.reqs && t.reqs[k].isFlight ensures ReqTimes(t.reqs[k], t.cmds, t.subs, t.results) {
      assert ReqTimes(s.reqs[k], s.cmds, s.subs, s.results);
    }
  }

  lemma StepTimes(c: Config, s: State, a: Action)
    requires Ok(c) && Inv(c, s) && Times(s) && Allowed(c, s, a) && AssertsHold(c, s, a)
    ensures Times(Apply(c, s, a))
  {
    hide Inv, Times;
    match a
    case AcceptCmd(q, cid, sqEntry, slba, nlb, now) => AcceptTimes(c, s, q, cid, sqEntry, slba, nlb, now);
    case EnqueueNext(d) => EnqueueTimes(c, s, d);
    case DequeueFrom(d, f) => DequeueTimes(c, s, d, f);
    case CompleteFirst(d, now) => CompleteTimes(c, s, d, now);
    case TakeNext(f, lat) => TakeTimes(c, s, f, lat);
    case DrainNext(f) => DrainTimes(c, s, f);
  }
}
