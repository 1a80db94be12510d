// What every step of the dispatcher protocol keeps, and what follows for whole runs.
module Dispatcher {
  import opened Wrappers
  import opened Collections
  import opened DispatcherModel

  // ----- The invariant, by the parts of the state it speaks of -----

  // The entries between dispatcher d and thread f, oldest first.
  ghost function Line(p: Pipe): seq<Cmd> {
    p.outq + Cmds(p.pq) + p.inq
  }

  ghost function Cmds(pq: seq<Flight>): (r: seq<Cmd>)
    ensures |r| == |pq|
  {
    seq(|pq|, i requires 0 <= i < |pq| => pq[i].cmd)
  }

  ghost predicate IsLive(results: seq<Option<nat>>, i: nat) {
    i < |results| && results[i].None?
  }

  // Sub-command i travels between dispatcher d and thread f.
  ghost predicate Travels(c: Config, cmds: seq<Accepted>, subs: seq<Sub>, i: nat, d: nat, f: nat)
    requires Ok(c)
  {
    && i < |subs| && subs[i].owner < |cmds|
    && cmds[subs[i].owner].q % c.dispatchers == d && subs[i].ftl == f
  }

  // x carries the identity and the blocks of its sub-command, and the identity of the command that
  // one is a piece of.
  ghost predicate Carries(cmds: seq<Accepted>, subs: seq<Sub>, x: Cmd) {
    && x.serial < |subs| && subs[x.serial].owner < |cmds|
    && x.q == cmds[subs[x.serial].owner].q && x.cid == cmds[subs[x.serial].owner].cid
    && x.sqEntry == cmds[subs[x.serial].owner].sqEntry
    && x.slpa == subs[x.serial].slpa && x.nlb == subs[x.serial].nlb
  }

  ghost predicate HasSerial(line: seq<Cmd>, i: nat) {
    exists k :: 0 <= k < |line| && line[k].serial == i
  }

  // The line holds exactly the live sub-commands that travel it, in the order they were made.
  ghost predicate LineOk(c: Config, line: seq<Cmd>, d: nat, f: nat, cmds: seq<Accepted>, subs: seq<Sub>,
                         results: seq<Option<nat>>)
    requires Ok(c)
  {
    && (forall k :: 0 <= k < |line| ==> Carries(cmds, subs, line[k]) && IsLive(results, line[k].serial)
                                        && Travels(c, cmds, subs, line[k].serial, d, f))
    && (forall k, l :: 0 <= k < l < |line| ==> line[k].serial < line[l].serial)
    && (forall i: nat :: IsLive(results, i) && Travels(c, cmds, subs, i, d, f) ==> HasSerial(line, i))
  }

  ghost predicate Lines(c: Config, pipes: map<Key, Pipe>, cmds: seq<Accepted>, subs: seq<Sub>,
                        results: seq<Option<nat>>)
    requires Ok(c)
  {
    && |results| == |subs|
    && (forall k: Key :: k in pipes <==> k.0 < c.dispatchers && k.1 < c.workers)
    && (forall i :: 0 <= i < |subs| ==> subs[i].owner < |cmds| && subs[i].ftl < c.workers)
    && (forall k: Key :: k in pipes ==> LineOk(c, Line(pipes[k]), k.0, k.1, cmds, subs, results))
  }

  // Requests in flight and commands not posted yet correspond one to one, and the tag mapper
  // is the inverse of the command identifiers in use.
  ghost predicate Owners(c: Config, tag: map<Key, nat>, reqs: map<Key, Req>, cmds: seq<Accepted>,
                         posted: seq<Option<nat>>)
  {
    && |posted| == |cmds|
    && (forall k: Key :: k in reqs <==> k.0 < |c.depth| && 1 <= k.1 <= c.depth[k.0])
    && (forall j :: 0 <= j < |cmds| ==> (cmds[j].q, cmds[j].id) in reqs)
    && (forall j :: 0 <= j < |cmds| && posted[j].None? ==>
          && reqs[(cmds[j].q, cmds[j].id)].isFlight && reqs[(cmds[j].q, cmds[j].id)].owner == j
          && reqs[(cmds[j].q, cmds[j].id)].commandId == cmds[j].cid
          && TagAt(tag, (cmds[j].q, cmds[j].cid)) == cmds[j].id)
    && (forall k: Key :: k in reqs && reqs[k].isFlight ==>
          && reqs[k].owner < |cmds| && posted[reqs[k].owner].None?
          && (cmds[reqs[k].owner].q, cmds[reqs[k].owner].id) == k)
    && (forall k: Key :: k in tag && tag[k] != 0 ==> TagInUse(reqs, k, tag[k]))
  }

  ghost predicate TagInUse(reqs: map<Key, Req>, k: Key, id: nat) {
    (k.0, id) in reqs && reqs[(k.0, id)].isFlight && reqs[(k.0, id)].commandId == k.1
  }

  // The pieces of command j that have not come back.
  ghost function LiveOf(subs: seq<Sub>, results: seq<Option<nat>>, j: nat): set<nat> {
    set i: nat | i < |subs| && i < |results| && subs[i].owner == j && results[i].None?
  }

  // No piece of command j that came back ended after t.
  ghost predicate EndsBy(subs: seq<Sub>, results: seq<Option<nat>>, j: nat, t: nat) {
    forall i :: 0 <= i < |subs| && i < |results| && subs[i].owner == j && results[i].Some? ==> results[i].value <= t
  }

  // remaining_req counts the pieces on their way, nsecs_end is late enough for those that came
  // back, and a posted command has none left.
  ghost predicate Counts(reqs: map<Key, Req>, posted: seq<Option<nat>>, subs: seq<Sub>, results: seq<Option<nat>>) {
    && (forall k: Key :: k in reqs && reqs[k].isFlight ==>
          && reqs[k].remaining == |LiveOf(subs, results, reqs[k].owner)|
          && EndsBy(subs, results, reqs[k].owner, reqs[k].nsecsEnd))
    && (forall k: Key :: k in reqs && !reqs[k].isFlight ==> reqs[k].remaining == 0)
    && (forall j :: 0 <= j < |posted| && posted[j].Some? ==>
          LiveOf(subs, results, j) == {} && EndsBy(subs, results, j, posted[j].value))
  }

  // Request k is the one being split.
  predicate BeingSplit(pc: Pc, k: Key) {
    pc.Splitting? && (pc.q, pc.id) == k
  }

  // All pieces of request k are back and it is to be posted.
  predicate Waiting(req: Req, pc: Pc, k: Key) {
    req.isFlight && req.remaining == 0 && !BeingSplit(pc, k)
  }

  // free_req_list holds the requests not in flight and completed_list those waiting.
  ghost predicate Lists(c: Config, free: seq<seq<nat>>, done: seq<seq<Key>>, reqs: map<Key, Req>, disp: seq<Pc>)
    requires Ok(c)
  {
    && |free| == |c.depth| && |done| == |disp| == c.dispatchers
    && (forall q :: 0 <= q < |free| ==> NoDup(free[q]))
    && (forall q: nat, id: nat :: q < |free| ==> (id in free[q] <==> (q, id) in reqs && !reqs[(q, id)].isFlight))
    && (forall d :: 0 <= d < |done| ==> NoDup(done[d]))
    && (forall d: nat, k: Key :: d < |done| ==>
          (k in done[d] <==> k in reqs && k.0 % c.dispatchers == d && Waiting(reqs[k], disp[d], k)))
  }

  // The result kept for a request that waits names the command it was accepted for.
  ghost predicate Kept(c: Config, reqs: map<Key, Req>, disp: seq<Pc>, cmds: seq<Accepted>)
    requires Ok(c) && |disp| == c.dispatchers
  {
    forall k: Key :: k in reqs && Waiting(reqs[k], disp[k.0 % c.dispatchers], k) && reqs[k].owner < |cmds| ==>
      Names(reqs[k].ioCmd, cmds[reqs[k].owner])
  }

  predicate Names(x: Cmd, a: Accepted) {
    x.q == a.q && x.cid == a.cid && x.sqEntry == a.sqEntry
  }

  // The pieces made of command j so far follow each other from a to b without a gap.
  ghost predicate Tiles(subs: seq<Sub>, j: nat, a: nat, b: nat) {
    if subs == [] then a == b
    else
      var n := |subs| - 1;
      if subs[n].owner == j then
        0 < subs[n].nlb && subs[n].slpa + subs[n].nlb == b && Tiles(subs[..n], j, a, subs[n].slpa)
      else Tiles(subs[..n], j, a, b)
  }

  // How far the splitting of command j has come.
  ghost function Reached(a: Accepted, j: nat, pc: Pc): nat {
    if pc.Splitting? && pc.owner == j then pc.slpa else a.slba + a.nlb
  }

  ghost predicate PcOk(c: Config, pc: Pc, d: nat, cmds: seq<Accepted>, posted: seq<Option<nat>>)
    requires Ok(c)
  {
    pc.Splitting? ==>
      && pc.owner < |cmds| && pc.owner < |posted| && posted[pc.owner].None?
      && cmds[pc.owner].q == pc.q && cmds[pc.owner].id == pc.id && cmds[pc.owner].sqEntry == pc.sqEntry
      && pc.q % c.dispatchers == d && 0 < pc.nlb && pc.ftl < c.workers
      && pc.slpa + pc.nlb == cmds[pc.owner].slba + cmds[pc.owner].nlb
  }

  ghost predicate Splits(c: Config, disp: seq<Pc>, cmds: seq<Accepted>, posted: seq<Option<nat>>, subs: seq<Sub>)
    requires Ok(c)
  {
    && |disp| == c.dispatchers
    && (forall i :: 0 <= i < |subs| ==> subs[i].owner < |cmds|)
    && (forall d :: 0 <= d < |disp| ==> PcOk(c, disp[d], d, cmds, posted))
    && (forall j :: 0 <= j < |cmds| ==>
          0 < cmds[j].nlb && Tiles(subs, j, cmds[j].slba, Reached(cmds[j], j, disp[cmds[j].q % c.dispatchers])))
  }

  ghost predicate HasOwner(log: seq<Entry>, j: nat) {
    exists n :: 0 <= n < |log| && log[n].owner == j
  }

  ghost predicate LogOk(log: seq<Entry>, q: nat, cmds: seq<Accepted>, posted: seq<Option<nat>>) {
    && (forall n :: 0 <= n < |log| ==>
          && log[n].owner < |cmds| && log[n].owner < |posted| && posted[log[n].owner].Some?
          && cmds[log[n].owner].q == q && cmds[log[n].owner].cid == log[n].cid
          && cmds[log[n].owner].sqEntry == log[n].sqEntry)
    && (forall m, n :: 0 <= m < n < |log| ==> log[m].owner != log[n].owner)
    && (forall j :: 0 <= j < |cmds| && j < |posted| && posted[j].Some? && cmds[j].q == q ==> HasOwner(log, j))
  }

  // Each completion queue has exactly one entry for every command of its queue pair that is over.
  ghost predicate Logs(c: Config, cq: seq<seq<Entry>>, cmds: seq<Accepted>, posted: seq<Option<nat>>) {
    && |cq| == |c.depth| && |posted| == |cmds|
    && (forall q :: 0 <= q < |cq| ==> LogOk(cq[q], q, cmds, posted))
  }

  ghost predicate InFlight(pipes: map<Key, Pipe>, f: nat, n: nat, slot: nat) {
    exists d: nat :: d < n && PipeAt(pipes, (d, f)).pq != [] && PipeAt(pipes, (d, f)).pq[0].slot == slot
  }

  // The pool of thread f and its lists of finished requests share out the slots, and the lists
  // it has not come to in this round, or has already emptied, are empty.
  ghost predicate PoolOk(c: Config, pool: seq<nat>, turn: Turn, pipes: map<Key, Pipe>, f: nat) {
    && turn.d < c.dispatchers
    && NoDup(pool) && (forall x :: x in pool ==> x < c.poolSize)
    && (forall d: nat :: d < c.dispatchers ==>
          && |PipeAt(pipes, (d, f)).pq| <= 1
          && ((if turn.Taking? then turn.d <= d else d < turn.d) ==> PipeAt(pipes, (d, f)).pq == [])
          && (PipeAt(pipes, (d, f)).pq != [] ==>
                PipeAt(pipes, (d, f)).pq[0].slot < c.poolSize && PipeAt(pipes, (d, f)).pq[0].slot !in pool))
    && (forall d: nat, e: nat ::
          d < e < c.dispatchers && PipeAt(pipes, (d, f)).pq != [] && PipeAt(pipes, (e, f)).pq != [] ==>
          PipeAt(pipes, (d, f)).pq[0].slot != PipeAt(pipes, (e, f)).pq[0].slot)
    && (forall x: nat :: x < c.poolSize ==> x in pool || InFlight(pipes, f, c.dispatchers, x))
  }

  ghost predicate Pools(c: Config, pool: seq<seq<nat>>, turn: seq<Turn>, pipes: map<Key, Pipe>) {
    && |pool| == |turn| == c.workers
    && (forall f :: 0 <= f < |pool| ==> PoolOk(c, pool[f], turn[f], pipes, f))
  }

  // No ring holds more than its cells.
  ghost predicate Rooms(c: Config, pipes: map<Key, Pipe>) {
    forall k: Key :: k in pipes ==> |pipes[k].inq| <= c.inSize && |pipes[k].outq| <= c.outSize
  }

  ghost predicate Inv(c: Config, s: State)
    requires Ok(c)
  {
    && Lines(c, s.pipes, s.cmds, s.subs, s.results)
    && Owners(c, s.tag, s.reqs, s.cmds, s.posted)
    && Counts(s.reqs, s.posted, s.subs, s.results)
    && Lists(c, s.free, s.done, s.reqs, s.disp)
    && Kept(c, s.reqs, s.disp, s.cmds)
    && Splits(c, s.disp, s.cmds, s.posted, s.subs)
    && Logs(c, s.cq, s.cmds, s.posted)
    && Pools(c, s.pool, s.turn, s.pipes)
    && Rooms(c, s.pipes)
  }

  // ----- Accepting a command -----

  lemma LinesMoreCmds(c: Config, pipes: map<Key, Pipe>, cmds: seq<Accepted>, subs: seq<Sub>, results: seq<Option<nat>>,
                      a: Accepted)
    requires Ok(c) && Lines(c, pipes, cmds, subs, results)
    ensures Lines(c, pipes, cmds + [a], subs, results)
  {
    forall k: Key | k in pipes ensures LineOk(c, Line(pipes[k]), k.0, k.1, cmds + [a], subs, results) {
      assert LineOk(c, Line(pipes[k]), k.0, k.1, cmds, subs, results);
      LineMoreCmds(c, Line(pipes[k]), k.0, k.1, cmds, subs, results, a);
    }
  }

  lemma LineMoreCmds(c: Config, line: seq<Cmd>, d: nat, f: nat, cmds: seq<Accepted>, subs: seq<Sub>,
                     results: seq<Option<nat>>, a: Accepted)
    requires Ok(c) && LineOk(c, line, d, f, cmds, subs, results)
    requires |results| == |subs| && forall i :: 0 <= i < |subs| ==> subs[i].owner < |cmds|
    ensures LineOk(c, line, d, f, cmds + [a], subs, results)
  {
    forall i: nat | IsLive(results, i) && Travels(c, cmds + [a], subs, i, d, f) ensures HasSerial(line, i) {
      assert Travels(c, cmds, subs, i, d, f);
    }
  }

  // A tag in use is the request of an outstanding command with that identifier.
  lemma TagOwner(c: Config, tag: map<Key, nat>, reqs: map<Key, Req>, cmds: seq<Accepted>, posted: seq<Option<nat>>,
                 q: nat, cid: nat) returns (j: nat)
    requires Owners(c, tag, reqs, cmds, posted) && TagAt(tag, (q, cid)) != 0
    ensures j in Outstanding(cmds, posted, q) && cmds[j].cid == cid && cmds[j].id == TagAt(tag, (q, cid))
    ensures (q, cmds[j].id) in reqs && reqs[(q, cmds[j].id)].isFlight && reqs[(q, cmds[j].id)].owner == j
  {
    assert TagInUse(reqs, (q, cid), tag[(q, cid)]);
    j := reqs[(q, tag[(q, cid)])].owner;
    assert (cmds[j].q, cmds[j].id) == (q, tag[(q, cid)]);
  }

  lemma TagFree(c: Config, tag: map<Key, nat>, reqs: map<Key, Req>, cmds: seq<Accepted>, posted: seq<Option<nat>>,
                q: nat, cid: nat)
    requires Owners(c, tag, reqs, cmds, posted)
    requires forall j :: j in Outstanding(cmds, posted, q) ==> cmds[j].cid != cid
    ensures TagAt(tag, (q, cid)) == 0
  {
    if TagAt(tag, (q, cid)) != 0 {
      var j := TagOwner(c, tag, reqs, cmds, posted, q, cid);
    }
  }

  ghost function Image(s: set<nat>, f: map<nat, nat>): set<nat>
    requires s <= f.Keys
  {
    set x | x in s :: f[x]
  }

  lemma {:induction false} ImageSize(s: set<nat>, f: map<nat, nat>)
    requires s <= f.Keys
    ensures |Image(s, f)| <= |s|
  {
    if s != {} {
      var y :| y in s;
      ImageSize(s - {y}, f);
      assert Image(s, f) == Image(s - {y}, f) + {f[y]};
    } else {
      assert Image(s, f) == {};
    }
  }

  // A queue pair without a free request has as many commands outstanding as it is deep.
  lemma NoneFree(c: Config, s: State, q: nat)
    requires Ok(c) && Owners(c, s.tag, s.reqs, s.cmds, s.posted) && Lists(c, s.free, s.done, s.reqs, s.disp)
    requires q < |c.depth| && s.free[q] == []
    ensures |Outstanding(s.cmds, s.posted, q)| >= c.depth[q]
  {
    var out := Outstanding(s.cmds, s.posted, q);
    var idOf := map j: nat | j in out :: s.cmds[j].id;
    var ids := Below(c.depth[q] + 1) - {0};
    forall id | id in ids ensures id in Image(out, idOf) {
      assert id !in s.free[q] && (q, id) in s.reqs;
      var j := s.reqs[(q, id)].owner;
      assert (s.cmds[j].q, s.cmds[j].id) == (q, id);
      assert j in out && idOf[j] == id;
    }
    ImageSize(out, idOf);
    SubsetSize(ids, Image(out, idOf));
  }

  lemma OwnersAccept(c: Config, tag: map<Key, nat>, reqs: map<Key, Req>, cmds: seq<Accepted>, posted: seq<Option<nat>>,
                     a: Accepted, req: Req)
    requires Owners(c, tag, reqs, cmds, posted)
    requires (a.q, a.id) in reqs && !reqs[(a.q, a.id)].isFlight && TagAt(tag, (a.q, a.cid)) == 0
    requires req.isFlight && req.owner == |cmds| && req.commandId == a.cid
    ensures Owners(c, tag[(a.q, a.cid) := a.id], reqs[(a.q, a.id) := req], cmds + [a], posted + [None])
  {
    var t, r := tag[(a.q, a.cid) := a.id], reqs[(a.q, a.id) := req];
    forall k: Key | k in t && t[k] != 0 ensures TagInUse(r, k, t[k]) {
      if k != (a.q, a.cid) { assert TagInUse(reqs, k, tag[k]); }
    }
    forall j | 0 <= j < |cmds| && posted[j].None?
      ensures (cmds[j].q, cmds[j].id) != (a.q, a.id) && (cmds[j].q, cmds[j].cid) != (a.q, a.cid)
    {
    }
  }

  lemma CountsAccept(c: Config, reqs: map<Key, Req>, cmds: seq<Accepted>, posted: seq<Option<nat>>, subs: seq<Sub>,
                     results: seq<Option<nat>>, k: Key, req: Req)
    requires Counts(reqs, posted, subs, results) && |posted| == |cmds|
    requires forall i :: 0 <= i < |subs| ==> subs[i].owner < |cmds|
    requires k in reqs && !reqs[k].isFlight && req.owner == |cmds| && req.remaining == reqs[k].remaining && req.isFlight
    ensures Counts(reqs[k := req], posted + [None], subs, results)
  {
    assert LiveOf(subs, results, |cmds|) == {};
  }

  lemma {:induction false} TilesNone(subs: seq<Sub>, j: nat, a: nat)
    requires forall i :: 0 <= i < |subs| ==> subs[i].owner != j
    ensures Tiles(subs, j, a, a)
  {
    if subs == [] {
    } else {
      TilesNone(subs[..|subs| - 1], j, a);
    }
  }

  lemma TailElems<A>(list: seq<A>)
    requires list != [] && NoDup(list)
    ensures NoDup(list[1..]) && forall i :: i in list[1..] <==> i in list && i != list[0]
  {
    assert list == [list[0]] + list[1..];
  }

  lemma ListsAccept(c: Config, free: seq<seq<nat>>, done: seq<seq<Key>>, reqs: map<Key, Req>, disp: seq<Pc>,
                    q: nat, req: Req, pc: Pc)
    requires Ok(c) && Lists(c, free, done, reqs, disp) && q < |free| && free[q] != []
    requires disp[q % c.dispatchers].Idle? && pc.Splitting? && pc.q == q && pc.id == free[q][0] && req.isFlight
    ensures Lists(c, free[q := free[q][1..]], done, reqs[(q, free[q][0]) := req], disp[q % c.dispatchers := pc])
  {
    var id := free[q][0];
    assert id in free[q];
    TailElems(free[q]);
    var free', disp' := free[q := free[q][1..]], disp[q % c.dispatchers := pc];
    var reqs' := reqs[(q, id) := req];
    forall d: nat, k: Key | d < |done|
      ensures k in done[d] <==> k in reqs' && k.0 % c.dispatchers == d && Waiting(reqs'[k], disp'[d], k)
    {
      assert k in done[d] <==> k in reqs && k.0 % c.dispatchers == d && Waiting(reqs[k], disp[d], k);
    }
  }

  lemma KeptAccept(c: Config, reqs: map<Key, Req>, disp: seq<Pc>, cmds: seq<Accepted>, k: Key, req: Req, pc: Pc,
                   a: Accepted)
    requires Ok(c) && |disp| == c.dispatchers && Kept(c, reqs, disp, cmds)
    requires disp[k.0 % c.dispatchers].Idle? && BeingSplit(pc, k)
    requires forall i: Key :: i in reqs && reqs[i].isFlight ==> reqs[i].owner < |cmds|
    ensures Kept(c, reqs[k := req], disp[k.0 % c.dispatchers := pc], cmds + [a])
  {
    var reqs', disp' := reqs[k := req], disp[k.0 % c.dispatchers := pc];
    forall i: Key | i in reqs' && Waiting(reqs'[i], disp'[i.0 % c.dispatchers], i) && reqs'[i].owner < |cmds + [a]|
      ensures Names(reqs'[i].ioCmd, (cmds + [a])[reqs'[i].owner])
    {
      assert i != k && Waiting(reqs[i], disp[i.0 % c.dispatchers], i);
    }
  }

  lemma SplitsAccept(c: Config, disp: seq<Pc>, cmds: seq<Accepted>, posted: seq<Option<nat>>, subs: seq<Sub>, pc: Pc,
                     a: Accepted)
    requires Ok(c) && Splits(c, disp, cmds, posted, subs) && |posted| == |cmds|
    requires a.q % c.dispatchers < |disp| && disp[a.q % c.dispatchers].Idle? && 0 < a.nlb
    requires pc.Splitting? && pc.owner == |cmds| && pc.q == a.q && pc.id == a.id && pc.sqEntry == a.sqEntry
    requires pc.slpa == a.slba && pc.nlb == a.nlb && pc.ftl < c.workers
    ensures Splits(c, disp[a.q % c.dispatchers := pc], cmds + [a], posted + [None], subs)
  {
    var disp' := disp[a.q % c.dispatchers := pc];
    TilesNone(subs, |cmds|, a.slba);
    forall d | 0 <= d < |disp| ensures PcOk(c, disp'[d], d, cmds + [a], posted + [None]) {
      if d != a.q % c.dispatchers { assert PcOk(c, disp[d], d, cmds, posted); }
    }
  }

  lemma LogsAccept(c: Config, cq: seq<seq<Entry>>, cmds: seq<Accepted>, posted: seq<Option<nat>>, a: Accepted)
    requires Logs(c, cq, cmds, posted)
    ensures Logs(c, cq, cmds + [a], posted + [None])
  {
    forall q | 0 <= q < |cq| ensures LogOk(cq[q], q, cmds + [a], posted + [None]) {
      assert LogOk(cq[q], q, cmds, posted);
    }
  }

  lemma AcceptOk(c: Config, s: State, q: nat, cid: nat, sqEntry: nat, slba: nat, nlb: nat, now: nat)
    requires Ok(c) && Inv(c, s)
    requires Allowed(c, s, AcceptCmd(q, cid, sqEntry, slba, nlb, now))
    ensures AssertsHold(c, s, AcceptCmd(q, cid, sqEntry, slba, nlb, now))
    ensures Inv(c, Accept(c, s, q, cid, sqEntry, slba, nlb, now))
  {
    if s.free[q] == [] { NoneFree(c, s, q); }
    TagFree(c, s.tag, s.reqs, s.cmds, s.posted, q, cid);
    var id := s.free[q][0];
    assert id in s.free[q];
    assert AssertsHold(c, s, AcceptCmd(q, cid, sqEntry, slba, nlb, now));
    hide Lines, Splits, Logs, Pools, Rooms, Kept, Lists;
    var a := Accepted(q, cid, sqEntry, id, slba, nlb, now);
    var t := Accept(c, s, q, cid, sqEntry, slba, nlb, now);
    var req, pc := t.reqs[(q, id)], t.disp[q % c.dispatchers];
    LinesOwned(c, s.pipes, s.cmds, s.subs, s.results);
    LinesMoreCmds(c, s.pipes, s.cmds, s.subs, s.results, a);
    OwnersAccept(c, s.tag, s.reqs, s.cmds, s.posted, a, req);
    CountsAccept(c, s.reqs, s.cmds, s.posted, s.subs, s.results, (q, id), req);
    ListsAccept(c, s.free, s.done, s.reqs, s.disp, q, req, pc);
    KeptAccept(c, s.reqs, s.disp, s.cmds, (q, id), req, pc, a);
    SplitsAccept(c, s.disp, s.cmds, s.posted, s.subs, pc, a);
    LogsAccept(c, s.cq, s.cmds, s.posted, a);
  }

  lemma LinesOwned(c: Config, pipes: map<Key, Pipe>, cmds: seq<Accepted>, subs: seq<Sub>, results: seq<Option<nat>>)
    requires Ok(c) && Lines(c, pipes, cmds, subs, results)
    ensures |results| == |subs| && forall i :: 0 <= i < |subs| ==> subs[i].owner < |cmds|
  {
  }

  // ----- Handing a piece to an FTL thread -----

  lemma LineMoreSubs(c: Config, line: seq<Cmd>, d: nat, f: nat, cmds: seq<Accepted>, subs: seq<Sub>,
                     results: seq<Option<nat>>, x: Sub)
    requires Ok(c) && LineOk(c, line, d, f, cmds, subs, results) && |results| == |subs| && x.owner < |cmds|
    requires !Travels(c, cmds, subs + [x], |subs|, d, f)
    ensures LineOk(c, line, d, f, cmds, subs + [x], results + [None])
  {
    forall i: nat | IsLive(results + [None], i) && Travels(c, cmds, subs + [x], i, d, f) ensures HasSerial(line, i) {
      assert IsLive(results, i) && Travels(c, cmds, subs, i, d, f);
    }
  }

  lemma LineAppend(c: Config, line: seq<Cmd>, d: nat, f: nat, cmds: seq<Accepted>, subs: seq<Sub>,
                   results: seq<Option<nat>>, x: Sub, cmd: Cmd)
    requires Ok(c) && LineOk(c, line, d, f, cmds, subs, results) && |results| == |subs|
    requires cmd.serial == |subs| && Carries(cmds, subs + [x], cmd) && Travels(c, cmds, subs + [x], |subs|, d, f)
    ensures LineOk(c, line + [cmd], d, f, cmds, subs + [x], results + [None])
  {
    var after := line + [cmd];
    forall i: nat | IsLive(results + [None], i) && Travels(c, cmds, subs + [x], i, d, f) ensures HasSerial(after, i) {
      if i == |subs| {
        assert after[|line|].serial == i;
      } else {
        assert IsLive(results, i) && Travels(c, cmds, subs, i, d, f);
        var k :| 0 <= k < |line| && line[k].serial == i;
        assert after[k].serial == i;
      }
    }
  }

  lemma LinesEnqueue(c: Config, pipes: map<Key, Pipe>, cmds: seq<Accepted>, subs: seq<Sub>, results: seq<Option<nat>>,
                     k: Key, x: Sub, cmd: Cmd)
    requires Ok(c) && Lines(c, pipes, cmds, subs, results) && k in pipes
    requires cmd.serial == |subs| && Carries(cmds, subs + [x], cmd) && Travels(c, cmds, subs + [x], |subs|, k.0, k.1)
    ensures Lines(c, pipes[k := pipes[k].(inq := pipes[k].inq + [cmd])], cmds, subs + [x], results + [None])
  {
    var pipes' := pipes[k := pipes[k].(inq := pipes[k].inq + [cmd])];
    forall i: Key | i in pipes' ensures LineOk(c, Line(pipes'[i]), i.0, i.1, cmds, subs + [x], results + [None]) {
      assert LineOk(c, Line(pipes[i]), i.0, i.1, cmds, subs, results);
      if i == k {
        assert Line(pipes'[i]) == Line(pipes[i]) + [cmd];
        LineAppend(c, Line(pipes[i]), i.0, i.1, cmds, subs, results, x, cmd);
      } else {
        LineMoreSubs(c, Line(pipes[i]), i.0, i.1, cmds, subs, results, x);
      }
    }
  }

  // A request keeps its owner while its other fields change.
  lemma OwnersTouch(c: Config, tag: map<Key, nat>, reqs: map<Key, Req>, cmds: seq<Accepted>, posted: seq<Option<nat>>,
                    k: Key, req: Req)
    requires Owners(c, tag, reqs, cmds, posted) && k in reqs
    requires req.isFlight == reqs[k].isFlight && req.owner == reqs[k].owner && req.commandId == reqs[k].commandId
    ensures Owners(c, tag, reqs[k := req], cmds, posted)
  {
    var r := reqs[k := req];
    forall i: Key | i in tag && tag[i] != 0 ensures TagInUse(r, i, tag[i]) {
      assert TagInUse(reqs, i, tag[i]);
    }
  }

  lemma LiveMore(subs: seq<Sub>, results: seq<Option<nat>>, x: Sub, j: nat)
    requires |results| == |subs|
    ensures LiveOf(subs + [x], results + [None], j) ==
            if j == x.owner then LiveOf(subs, results, j) + {|subs|} else LiveOf(subs, results, j)
    ensures |LiveOf(subs + [x], results + [None], j)| == |LiveOf(subs, results, j)| + if j == x.owner then 1 else 0
  {
    assert |subs| !in LiveOf(subs, results, j);
  }

  lemma CountsEnqueue(reqs: map<Key, Req>, posted: seq<Option<nat>>, subs: seq<Sub>, results: seq<Option<nat>>,
                      k: Key, x: Sub)
    requires Counts(reqs, posted, subs, results) && |results| == |subs|
    requires k in reqs && reqs[k].isFlight && reqs[k].owner == x.owner < |posted| && posted[x.owner].None?
    requires forall i: Key :: i in reqs && reqs[i].isFlight && reqs[i].owner == x.owner ==> i == k
    ensures Counts(reqs[k := reqs[k].(remaining := reqs[k].remaining + 1)], posted, subs + [x], results + [None])
  {
    var r := reqs[k := reqs[k].(remaining := reqs[k].remaining + 1)];
    forall i: Key | i in r && r[i].isFlight
      ensures r[i].remaining == |LiveOf(subs + [x], results + [None], r[i].owner)|
      ensures EndsBy(subs + [x], results + [None], r[i].owner, r[i].nsecsEnd)
    {
      LiveMore(subs, results, x, r[i].owner);
      assert EndsBy(subs, results, reqs[i].owner, reqs[i].nsecsEnd);
    }
    forall j | 0 <= j < |posted| && posted[j].Some?
      ensures LiveOf(subs + [x], results + [None], j) == {} && EndsBy(subs + [x], results + [None], j, posted[j].value)
    {
      LiveMore(subs, results, x, j);
      assert EndsBy(subs, results, j, posted[j].value);
    }
  }

  // Work on a request that is being split does not put it on or take it off any list.
  lemma ListsEnqueue(c: Config, free: seq<seq<nat>>, done: seq<seq<Key>>, reqs: map<Key, Req>, disp: seq<Pc>,
                     d: nat, req: Req, pc: Pc)
    requires Ok(c) && Lists(c, free, done, reqs, disp) && d < |disp| && disp[d].Splitting?
    requires disp[d].q % c.dispatchers == d
    requires var k := (disp[d].q, disp[d].id); k in reqs && reqs[k].isFlight && (pc.Idle? || BeingSplit(pc, k))
    requires req.isFlight && req.remaining > 0
    ensures Lists(c, free, done, reqs[(disp[d].q, disp[d].id) := req], disp[d := pc])
  {
    var k0 := (disp[d].q, disp[d].id);
    var reqs', disp' := reqs[k0 := req], disp[d := pc];
    forall e: nat, k: Key | e < |done|
      ensures k in done[e] <==> k in reqs' && k.0 % c.dispatchers == e && Waiting(reqs'[k], disp'[e], k)
    {
      assert k in done[e] <==> k in reqs && k.0 % c.dispatchers == e && Waiting(reqs[k], disp[e], k);
    }
  }

  lemma KeptEnqueue(c: Config, reqs: map<Key, Req>, disp: seq<Pc>, cmds: seq<Accepted>, d: nat, req: Req, pc: Pc)
    requires Ok(c) && |disp| == c.dispatchers && Kept(c, reqs, disp, cmds)
    requires d < |disp| && disp[d].Splitting? && disp[d].q % c.dispatchers == d && req.remaining > 0
    requires pc.Idle? || BeingSplit(pc, (disp[d].q, disp[d].id))
    ensures Kept(c, reqs[(disp[d].q, disp[d].id) := req], disp[d := pc], cmds)
  {
    var k := (disp[d].q, disp[d].id);
    var reqs', disp' := reqs[k := req], disp[d := pc];
    forall i: Key | i in reqs' && Waiting(reqs'[i], disp'[i.0 % c.dispatchers], i) && reqs'[i].owner < |cmds|
      ensures Names(reqs'[i].ioCmd, cmds[reqs'[i].owner])
    {
      assert i != k && Waiting(reqs[i], disp[i.0 % c.dispatchers], i);
    }
  }

  lemma TilesMore(subs: seq<Sub>, x: Sub, j: nat, a: nat)
    ensures x.owner != j ==> forall b: nat :: Tiles(subs + [x], j, a, b) <==> Tiles(subs, j, a, b)
    ensures x.owner == j && 0 < x.nlb && Tiles(subs, j, a, x.slpa) ==> Tiles(subs + [x], j, a, x.slpa + x.nlb)
  {
    assert (subs + [x])[..|subs|] == subs;
  }

  lemma SplitsEnqueue(c: Config, disp: seq<Pc>, cmds: seq<Accepted>, posted: seq<Option<nat>>, subs: seq<Sub>, d: nat,
                      x: Sub, pc: Pc)
    requires Ok(c) && Splits(c, disp, cmds, posted, subs) && d < |disp| && disp[d].Splitting?
    requires x.owner == disp[d].owner && x.slpa == disp[d].slpa && 0 < x.nlb <= disp[d].nlb
    requires if x.nlb == disp[d].nlb then pc.Idle? else
               && pc.Splitting? && pc.ftl < c.workers
               && pc == disp[d].(slpa := x.slpa + x.nlb, nlb := disp[d].nlb - x.nlb, ftl := pc.ftl)
    ensures Splits(c, disp[d := pc], cmds, posted, subs + [x])
  {
    var disp' := disp[d := pc];
    assert PcOk(c, disp[d], d, cmds, posted);
    forall j | 0 <= j < |cmds|
      ensures Tiles(subs + [x], j, cmds[j].slba, Reached(cmds[j], j, disp'[cmds[j].q % c.dispatchers]))
    {
      TilesMore(subs, x, j, cmds[j].slba);
      assert Tiles(subs, j, cmds[j].slba, Reached(cmds[j], j, disp[cmds[j].q % c.dispatchers]));
    }
    forall e | 0 <= e < |disp| ensures PcOk(c, disp'[e], e, cmds, posted) {
      assert PcOk(c, disp[e], e, cmds, posted);
    }
  }

  // The pools do not depend on the rings.
  lemma PoolsFrame(c: Config, pool: seq<seq<nat>>, turn: seq<Turn>, pipes: map<Key, Pipe>, after: map<Key, Pipe>)
    requires Pools(c, pool, turn, pipes)
    requires forall k: Key :: PipeAt(after, k).pq == PipeAt(pipes, k).pq
    ensures Pools(c, pool, turn, after)
  {
    forall f | 0 <= f < |pool| ensures PoolOk(c, pool[f], turn[f], after, f) {
      assert PoolOk(c, pool[f], turn[f], pipes, f);
      forall x: nat | x < c.poolSize && InFlight(pipes, f, c.dispatchers, x)
        ensures InFlight(after, f, c.dispatchers, x)
      {
        var d: nat :| d < c.dispatchers && PipeAt(pipes, (d, f)).pq != [] && PipeAt(pipes, (d, f)).pq[0].slot == x;
        assert PipeAt(after, (d, f)).pq != [];
      }
    }
  }

  lemma RoomsSet(c: Config, pipes: map<Key, Pipe>, k: Key, p: Pipe)
    requires Rooms(c, pipes) && |p.inq| <= c.inSize && |p.outq| <= c.outSize
    ensures Rooms(c, pipes[k := p])
  {
  }

  lemma RoomsGet(c: Config, pipes: map<Key, Pipe>, k: Key)
    requires Rooms(c, pipes) && k in pipes
    ensures |pipes[k].inq| <= c.inSize && |pipes[k].outq| <= c.outSize
  {
  }

  lemma EnqueueAsserts(c: Config, s: State, d: nat)
    requires Ok(c) && Inv(c, s) && Allowed(c, s, EnqueueNext(d))
    ensures AssertsHold(c, s, EnqueueNext(d))
    ensures var pc := s.disp[d]; var k := (pc.q, pc.id);
      && PcOk(c, pc, d, s.cmds, s.posted) && s.reqs[k].isFlight && s.reqs[k].owner == pc.owner
      && s.reqs[k].commandId == s.cmds[pc.owner].cid && s.reqs[k].remaining >= 0 && |s.disp| == c.dispatchers
  {
    assert PcOk(c, s.disp[d], d, s.cmds, s.posted);
  }

  lemma OwnersUnique(c: Config, tag: map<Key, nat>, reqs: map<Key, Req>, cmds: seq<Accepted>, posted: seq<Option<nat>>,
                     k: Key)
    requires Owners(c, tag, reqs, cmds, posted) && k in reqs && reqs[k].isFlight
    ensures reqs[k].owner < |posted| == |cmds| && posted[reqs[k].owner].None?
    ensures forall i: Key :: i in reqs && reqs[i].isFlight && reqs[i].owner == reqs[k].owner ==> i == k
  {
  }

  lemma EnqueueOk(c: Config, s: State, d: nat)
    requires Ok(c) && Inv(c, s) && Allowed(c, s, EnqueueNext(d))
    ensures AssertsHold(c, s, EnqueueNext(d)) && Inv(c, Enqueue(c, s, d))
  {
    hide Lines, Owners, Splits, Logs, Pools, Rooms, Kept, Lists, Counts;
    EnqueueAsserts(c, s, d);
    EnqueueStep(c, s, d);
  }

  lemma EnqueueStep(c: Config, s: State, d: nat)
    requires Ok(c) && Inv(c, s) && AssertsHold(c, s, EnqueueNext(d))
    requires |s.pipes[(d, s.disp[d].ftl)].inq| < c.inSize
    requires var pc := s.disp[d]; var k := (pc.q, pc.id);
      && PcOk(c, pc, d, s.cmds, s.posted) && s.reqs[k].isFlight && s.reqs[k].owner == pc.owner
      && s.reqs[k].commandId == s.cmds[pc.owner].cid && s.reqs[k].remaining >= 0 && |s.disp| == c.dispatchers
    ensures Inv(c, Enqueue(c, s, d))
  {
    hide Lines, Owners, Splits, Logs, Pools, Rooms, Kept, Lists, Counts;
    var t := Enqueue(c, s, d);
    var pc := s.disp[d];
    var k, p := (pc.q, pc.id), s.pipes[(d, pc.ftl)];
    var x := t.subs[|s.subs|];
    LinesOwned(c, s.pipes, s.cmds, s.subs, s.results);
    LinesEnqueue(c, s.pipes, s.cmds, s.subs, s.results, (d, pc.ftl), x, t.pipes[(d, pc.ftl)].inq[|p.inq|]);
    OwnersTouch(c, s.tag, s.reqs, s.cmds, s.posted, k, t.reqs[k]);
    OwnersUnique(c, s.tag, s.reqs, s.cmds, s.posted, k);
    CountsEnqueue(s.reqs, s.posted, s.subs, s.results, k, x);
    ListsEnqueue(c, s.free, s.done, s.reqs, s.disp, d, t.reqs[k], t.disp[d]);
    KeptEnqueue(c, s.reqs, s.disp, s.cmds, d, t.reqs[k], t.disp[d]);
    SplitsEnqueue(c, s.disp, s.cmds, s.posted, s.subs, d, x, t.disp[d]);
    PoolsFrame(c, s.pool, s.turn, s.pipes, t.pipes);
    RoomsGet(c, s.pipes, (d, pc.ftl));
    RoomsSet(c, s.pipes, (d, pc.ftl), t.pipes[(d, pc.ftl)]);
  }

  // ----- Taking back a piece -----

  lemma LineTail(c: Config, line: seq<Cmd>, d: nat, f: nat, cmds: seq<Accepted>, subs: seq<Sub>,
                 results: seq<Option<nat>>, v: nat)
    requires Ok(c) && LineOk(c, line, d, f, cmds, subs, results) && line != []
    ensures line[0].serial < |results|
    ensures LineOk(c, line[1..], d, f, cmds, subs, results[line[0].serial := Some(v)])
  {
    var i0 := line[0].serial;
    assert IsLive(results, i0);
    var after := results[i0 := Some(v)];
    forall i: nat | IsLive(after, i) && Travels(c, cmds, subs, i, d, f) ensures HasSerial(line[1..], i) {
      assert IsLive(results, i);
      var k :| 0 <= k < |line| && line[k].serial == i;
      assert line[1..][k - 1].serial == i;
    }
  }

  lemma LineElsewhere(c: Config, line: seq<Cmd>, d: nat, f: nat, cmds: seq<Accepted>, subs: seq<Sub>,
                      results: seq<Option<nat>>, i0: nat, v: nat)
    requires Ok(c) && LineOk(c, line, d, f, cmds, subs, results) && i0 < |results|
    requires !Travels(c, cmds, subs, i0, d, f)
    ensures LineOk(c, line, d, f, cmds, subs, results[i0 := Some(v)])
  {
    var after := results[i0 := Some(v)];
    forall i: nat | IsLive(after, i) && Travels(c, cmds, subs, i, d, f) ensures HasSerial(line, i) {
      assert IsLive(results, i);
    }
  }

  lemma OnlyThere(c: Config, line: seq<Cmd>, d: nat, f: nat, cmds: seq<Accepted>, subs: seq<Sub>,
                  results: seq<Option<nat>>)
    requires Ok(c) && LineOk(c, line, d, f, cmds, subs, results) && line != []
    ensures forall e: nat, g: nat :: (e, g) != (d, f) ==> !Travels(c, cmds, subs, line[0].serial, e, g)
  {
  }

  lemma LinesDequeue(c: Config, pipes: map<Key, Pipe>, cmds: seq<Accepted>, subs: seq<Sub>, results: seq<Option<nat>>,
                     k: Key, v: nat)
    requires Ok(c) && Lines(c, pipes, cmds, subs, results) && k in pipes && pipes[k].outq != []
    ensures pipes[k].outq[0].serial < |results|
    ensures Lines(c, pipes[k := pipes[k].(outq := pipes[k].outq[1..])], cmds, subs,
                  results[pipes[k].outq[0].serial := Some(v)])
  {
    hide LineOk, Travels;
    var p := pipes[k];
    var pipes' := pipes[k := p.(outq := p.outq[1..])];
    var i0 := p.outq[0].serial;
    assert LineOk(c, Line(p), k.0, k.1, cmds, subs, results);
    assert Line(p)[0] == p.outq[0];
    OnlyThere(c, Line(p), k.0, k.1, cmds, subs, results);
    LineTail(c, Line(p), k.0, k.1, cmds, subs, results, v);
    forall i: Key | i in pipes' ensures LineOk(c, Line(pipes'[i]), i.0, i.1, cmds, subs, results[i0 := Some(v)]) {
      assert LineOk(c, Line(pipes[i]), i.0, i.1, cmds, subs, results);
      if i == k {
        assert Line(pipes'[i]) == Line(p)[1..];
      } else {
        LineElsewhere(c, Line(pipes[i]), i.0, i.1, cmds, subs, results, i0, v);
      }
    }
  }

  lemma LiveLess(subs: seq<Sub>, results: seq<Option<nat>>, i: nat, v: nat, j: nat)
    requires i < |subs| == |results| && results[i].None?
    ensures LiveOf(subs, results[i := Some(v)], j) ==
            if j == subs[i].owner then LiveOf(subs, results, j) - {i} else LiveOf(subs, results, j)
    ensures |LiveOf(subs, results[i := Some(v)], j)| == |LiveOf(subs, results, j)| - if j == subs[i].owner then 1 else 0
  {
  }

  lemma CountsDequeue(reqs: map<Key, Req>, posted: seq<Option<nat>>, subs: seq<Sub>, results: seq<Option<nat>>,
                      k: Key, i: nat, v: nat, req: Req)
    requires Counts(reqs, posted, subs, results) && i < |subs| == |results| && results[i].None?
    requires k in reqs && reqs[k].isFlight && reqs[k].owner == subs[i].owner < |posted|
    requires forall m: Key :: m in reqs && reqs[m].isFlight && reqs[m].owner == subs[i].owner ==> m == k
    requires req.isFlight && req.owner == reqs[k].owner && req.remaining == reqs[k].remaining - 1
    requires req.nsecsEnd == if v > reqs[k].nsecsEnd then v else reqs[k].nsecsEnd
    ensures Counts(reqs[k := req], posted, subs, results[i := Some(v)])
  {
    var r, after := reqs[k := req], results[i := Some(v)];
    forall m: Key | m in r && r[m].isFlight
      ensures r[m].remaining == |LiveOf(subs, after, r[m].owner)| && EndsBy(subs, after, r[m].owner, r[m].nsecsEnd)
    {
      LiveLess(subs, results, i, v, r[m].owner);
      assert EndsBy(subs, results, reqs[m].owner, reqs[m].nsecsEnd);
    }
    forall j | 0 <= j < |posted| && posted[j].Some?
      ensures LiveOf(subs, after, j) == {} && EndsBy(subs, after, j, posted[j].value)
    {
      LiveLess(subs, results, i, v, j);
      assert i !in LiveOf(subs, results, j);
      assert EndsBy(subs, results, j, posted[j].value);
    }
  }

  // push_completed_req adds the request and nothing else.
  lemma {:induction false} PushElems(reqs: map<Key, Req>, list: seq<Key>, k: Key, end: nat)
    requires NoDup(list) && k !in list
    ensures NoDup(Push(reqs, list, k, end))
    ensures forall x: Key :: x in Push(reqs, list, k, end) <==> x == k || x in list
  {
    if list != [] {
      assert list == [list[0]] + list[1..];
      if end <= ReqAt(reqs, list[0]).nsecsEnd {
        assert Push(reqs, list, k, end)[2..] == list[1..];
      } else {
        PushElems(reqs, list[1..], k, end);
        assert list[0] !in list[1..];
        assert list[0] !in Push(reqs, list[1..], k, end);
      }
    }
  }

  lemma ListsDequeue(c: Config, free: seq<seq<nat>>, done: seq<seq<Key>>, reqs: map<Key, Req>, disp: seq<Pc>,
                     d: nat, k: Key, req: Req, end: nat)
    requires Ok(c) && Lists(c, free, done, reqs, disp) && d < |disp| && disp[d].Idle? && k.0 % c.dispatchers == d
    requires k in reqs && reqs[k].isFlight && reqs[k].remaining > 0 && req.isFlight && req.remaining >= 0
    ensures Lists(c, free, if req.remaining == 0 then done[d := Push(reqs, done[d], k, end)] else done,
                  reqs[k := req], disp)
  {
    var reqs' := reqs[k := req];
    var done' := if req.remaining == 0 then done[d := Push(reqs, done[d], k, end)] else done;
    assert k !in done[d];
    PushElems(reqs, done[d], k, end);
    forall e: nat, i: Key | e < |done|
      ensures i in done'[e] <==> i in reqs' && i.0 % c.dispatchers == e && Waiting(reqs'[i], disp[e], i)
    {
      assert i in done[e] <==> i in reqs && i.0 % c.dispatchers == e && Waiting(reqs[i], disp[e], i);
    }
  }

  lemma KeptDequeue(c: Config, reqs: map<Key, Req>, disp: seq<Pc>, cmds: seq<Accepted>, k: Key, req: Req)
    requires Ok(c) && |disp| == c.dispatchers && Kept(c, reqs, disp, cmds)
    requires req.owner < |cmds| && (req.remaining == 0 ==> Names(req.ioCmd, cmds[req.owner]))
    ensures Kept(c, reqs[k := req], disp, cmds)
  {
  }

  // The first entry of a return ring leads back to a request in flight with a piece missing.
  lemma DequeueAsserts(c: Config, s: State, d: nat, f: nat)
    requires Ok(c) && Inv(c, s) && Allowed(c, s, DequeueFrom(d, f))
    ensures AssertsHold(c, s, DequeueFrom(d, f)) && |s.disp| == c.dispatchers
    ensures var cmd := s.pipes[(d, f)].outq[0]; var k := (cmd.q, TagAt(s.tag, (cmd.q, cmd.cid)));
      && k in s.reqs && s.reqs[k].isFlight && s.reqs[k].owner < |s.cmds| && Names(cmd, s.cmds[s.reqs[k].owner])
      && cmd.serial < |s.subs| == |s.results| && s.results[cmd.serial].None?
      && s.subs[cmd.serial].owner == s.reqs[k].owner
  {
    var line := Line(s.pipes[(d, f)]);
    var cmd := s.pipes[(d, f)].outq[0];
    assert LineOk(c, line, d, f, s.cmds, s.subs, s.results);
    assert line[0] == cmd;
    assert Carries(s.cmds, s.subs, cmd) && IsLive(s.results, cmd.serial)
        && Travels(c, s.cmds, s.subs, cmd.serial, d, f);
    var j := s.subs[cmd.serial].owner;
    assert cmd.serial in LiveOf(s.subs, s.results, j);
    assert s.posted[j].None?;
    var k := (s.cmds[j].q, s.cmds[j].id);
    assert k in s.reqs && s.reqs[k].isFlight && s.reqs[k].owner == j;
    assert s.reqs[k].remaining == |LiveOf(s.subs, s.results, j)|;
  }

  lemma DequeueOk(c: Config, s: State, d: nat, f: nat)
    requires Ok(c) && Inv(c, s) && Allowed(c, s, DequeueFrom(d, f))
    ensures AssertsHold(c, s, DequeueFrom(d, f)) && Inv(c, Dequeue(c, s, d, f))
  {
    hide Lines, Owners, Splits, Logs, Pools, Rooms, Kept, Lists, Counts, Push;
    DequeueAsserts(c, s, d, f);
    var t := Dequeue(c, s, d, f);
    var p := s.pipes[(d, f)];
    var cmd := p.outq[0];
    var k := (cmd.q, TagAt(s.tag, (cmd.q, cmd.cid)));
    LinesDequeue(c, s.pipes, s.cmds, s.subs, s.results, (d, f), cmd.nsecs);
    OwnersTouch(c, s.tag, s.reqs, s.cmds, s.posted, k, t.reqs[k]);
    OwnersUnique(c, s.tag, s.reqs, s.cmds, s.posted, k);
    CountsDequeue(s.reqs, s.posted, s.subs, s.results, k, cmd.serial, cmd.nsecs, t.reqs[k]);
    ListsDequeue(c, s.free, s.done, s.reqs, s.disp, d, k, t.reqs[k], t.reqs[k].nsecsEnd);
    KeptDequeue(c, s.reqs, s.disp, s.cmds, k, t.reqs[k]);
    PoolsFrame(c, s.pool, s.turn, s.pipes, t.pipes);
    RoomsGet(c, s.pipes, (d, f));
    RoomsSet(c, s.pipes, (d, f), t.pipes[(d, f)]);
  }

  // ----- Posting a completion -----

  lemma OwnersComplete(c: Config, tag: map<Key, nat>, reqs: map<Key, Req>, cmds: seq<Accepted>,
                       posted: seq<Option<nat>>, k: Key, now: nat)
    requires Owners(c, tag, reqs, cmds, posted) && k in reqs && reqs[k].isFlight
    ensures reqs[k].owner < |cmds|
    ensures Owners(c, tag[(k.0, cmds[reqs[k].owner].cid) := 0], reqs[k := reqs[k].(isFlight := false)], cmds,
                   posted[reqs[k].owner := Some(now)])
  {
    var j := reqs[k].owner;
    assert (cmds[j].q, cmds[j].id) == k;
    var key := (k.0, cmds[j].cid);
    var t, r, p := tag[key := 0], reqs[k := reqs[k].(isFlight := false)], posted[j := Some(now)];
    forall i: Key | i in t && t[i] != 0 ensures TagInUse(r, i, t[i]) {
      assert TagInUse(reqs, i, tag[i]);
      assert (i.0, tag[i]) != k;
    }
    forall m | 0 <= m < |cmds| && p[m].None?
      ensures (cmds[m].q, cmds[m].id) != k && (cmds[m].q, cmds[m].cid) != key
    {
      assert reqs[(cmds[m].q, cmds[m].id)].owner == m;
    }
  }

  lemma CountsComplete(reqs: map<Key, Req>, posted: seq<Option<nat>>, subs: seq<Sub>, results: seq<Option<nat>>,
                       k: Key, now: nat)
    requires Counts(reqs, posted, subs, results) && k in reqs && reqs[k].isFlight && reqs[k].owner < |posted|
    requires reqs[k].remaining == 0 && reqs[k].nsecsEnd <= now
    ensures Counts(reqs[k := reqs[k].(isFlight := false)], posted[reqs[k].owner := Some(now)], subs, results)
  {
    assert EndsBy(subs, results, reqs[k].owner, reqs[k].nsecsEnd);
    assert LiveOf(subs, results, reqs[k].owner) == {};
  }

  lemma ListsComplete(c: Config, free: seq<seq<nat>>, done: seq<seq<Key>>, reqs: map<Key, Req>, disp: seq<Pc>,
                      d: nat, req: Req)
    requires Ok(c) && Lists(c, free, done, reqs, disp) && d < |done| && done[d] != [] && !req.isFlight
    requires done[d][0].0 < |free|
    ensures Lists(c, free[done[d][0].0 := free[done[d][0].0] + [done[d][0].1]], done[d := done[d][1..]],
                  reqs[done[d][0] := req], disp)
  {
    var k: Key := done[d][0];
    var free', done', reqs' := free[k.0 := free[k.0] + [k.1]], done[d := done[d][1..]], reqs[k := req];
    FirstWaits(c, free, done, reqs, disp, d);
    TailElems(done[d]);
    forall e: nat, i: Key | e < |done|
      ensures i in done'[e] <==> i in reqs' && i.0 % c.dispatchers == e && Waiting(reqs'[i], disp[e], i)
    {
      assert i in done[e] <==> i in reqs && i.0 % c.dispatchers == e && Waiting(reqs[i], disp[e], i);
    }
    forall q: nat, id: nat | q < |free| ensures id in free'[q] <==> (q, id) in reqs' && !reqs'[(q, id)].isFlight {
      assert id in free[q] <==> (q, id) in reqs && !reqs[(q, id)].isFlight;
    }
  }

  lemma FirstWaits(c: Config, free: seq<seq<nat>>, done: seq<seq<Key>>, reqs: map<Key, Req>, disp: seq<Pc>, d: nat)
    requires Ok(c) && Lists(c, free, done, reqs, disp) && d < |done| && done[d] != [] && done[d][0].0 < |free|
    ensures done[d][0] in reqs && done[d][0].0 % c.dispatchers == d && done[d][0].1 !in free[done[d][0].0]
  {
    var k: Key := done[d][0];
    assert k in done[d];
    assert Waiting(reqs[k], disp[d], k);
  }

  lemma SplitsComplete(c: Config, disp: seq<Pc>, cmds: seq<Accepted>, posted: seq<Option<nat>>, subs: seq<Sub>,
                       j: nat, now: nat)
    requires Ok(c) && Splits(c, disp, cmds, posted, subs) && j < |cmds| == |posted|
    requires disp[cmds[j].q % c.dispatchers].Idle?
    ensures Splits(c, disp, cmds, posted[j := Some(now)], subs)
  {
    forall d | 0 <= d < |disp| ensures PcOk(c, disp[d], d, cmds, posted[j := Some(now)]) {
      assert PcOk(c, disp[d], d, cmds, posted);
    }
  }

  lemma LogComplete(log: seq<Entry>, q: nat, cmds: seq<Accepted>, posted: seq<Option<nat>>, j: nat, now: nat)
    requires LogOk(log, q, cmds, posted) && j < |cmds| == |posted| && posted[j].None?
    ensures cmds[j].q != q ==> LogOk(log, q, cmds, posted[j := Some(now)])
    ensures cmds[j].q == q ==> LogOk(log + [Entry(j, cmds[j].cid, cmds[j].sqEntry)], q, cmds, posted[j := Some(now)])
  {
    var log' := log + [Entry(j, cmds[j].cid, cmds[j].sqEntry)];
    forall i | 0 <= i < |cmds| && posted[j := Some(now)][i].Some? && cmds[i].q == q
      ensures i != j ==> HasOwner(log, i)
      ensures HasOwner(log', i)
    {
      if i == j {
        assert log'[|log|].owner == i;
      } else {
        var n :| 0 <= n < |log| && log[n].owner == i;
        assert log'[n].owner == i;
      }
    }
  }

  lemma LogsComplete(c: Config, cq: seq<seq<Entry>>, cmds: seq<Accepted>, posted: seq<Option<nat>>, j: nat, now: nat)
    requires Logs(c, cq, cmds, posted) && j < |cmds| && posted[j].None? && cmds[j].q < |cq|
    ensures Logs(c, cq[cmds[j].q := cq[cmds[j].q] + [Entry(j, cmds[j].cid, cmds[j].sqEntry)]], cmds,
                 posted[j := Some(now)])
  {
    var cq' := cq[cmds[j].q := cq[cmds[j].q] + [Entry(j, cmds[j].cid, cmds[j].sqEntry)]];
    forall q | 0 <= q < |cq| ensures LogOk(cq'[q], q, cmds, posted[j := Some(now)]) {
      LogComplete(cq[q], q, cmds, posted, j, now);
    }
  }

  lemma KeptComplete(c: Config, reqs: map<Key, Req>, disp: seq<Pc>, cmds: seq<Accepted>, k: Key, req: Req)
    requires Ok(c) && |disp| == c.dispatchers && Kept(c, reqs, disp, cmds) && !req.isFlight
    ensures Kept(c, reqs[k := req], disp, cmds)
  {
  }

  lemma CompleteAsserts(c: Config, s: State, d: nat, now: nat)
    requires Ok(c) && Inv(c, s) && Allowed(c, s, CompleteFirst(d, now))
    ensures AssertsHold(c, s, CompleteFirst(d, now)) && |s.disp| == c.dispatchers && |s.posted| == |s.cmds|
    ensures var k: Key := s.done[d][0]; var req := s.reqs[k];
      && req.isFlight && req.remaining == 0 && req.owner < |s.cmds| && Names(req.ioCmd, s.cmds[req.owner])
      && s.posted[req.owner].None? && s.cmds[req.owner].q == k.0 && k.0 % c.dispatchers == d
  {
    var k: Key := s.done[d][0];
    assert k in s.done[d];
    assert Waiting(s.reqs[k], s.disp[k.0 % c.dispatchers], k);
    assert (s.cmds[s.reqs[k].owner].q, s.cmds[s.reqs[k].owner].id) == k;
  }

  lemma CompleteOk(c: Config, s: State, d: nat, now: nat)
    requires Ok(c) && Inv(c, s) && Allowed(c, s, CompleteFirst(d, now))
    ensures AssertsHold(c, s, CompleteFirst(d, now)) && Inv(c, Complete(c, s, d, now))
  {
    hide Lines, Owners, Splits, Logs, Pools, Rooms, Kept, Lists, Counts;
    CompleteAsserts(c, s, d, now);
    var t := Complete(c, s, d, now);
    var k: Key := s.done[d][0];
    var j := s.reqs[k].owner;
    OwnersComplete(c, s.tag, s.reqs, s.cmds, s.posted, k, now);
    CountsComplete(s.reqs, s.posted, s.subs, s.results, k, now);
    ListsComplete(c, s.free, s.done, s.reqs, s.disp, d, t.reqs[k]);
    KeptComplete(c, s.reqs, s.disp, s.cmds, k, t.reqs[k]);
    SplitsComplete(c, s.disp, s.cmds, s.posted, s.subs, j, now);
    LogsComplete(c, s.cq, s.cmds, s.posted, j, now);
  }

  // ----- The FTL thread -----

  // The same entries with other end times.
  predicate Retimed(x: Cmd, y: Cmd) {
    y == x.(nsecs := y.nsecs)
  }

  ghost predicate AllRetimed(line: seq<Cmd>, after: seq<Cmd>) {
    |after| == |line| && forall k :: 0 <= k < |line| ==> Retimed(line[k], after[k])
  }

  lemma LineRetimed(c: Config, line: seq<Cmd>, after: seq<Cmd>, d: nat, f: nat, cmds: seq<Accepted>, subs: seq<Sub>,
                    results: seq<Option<nat>>)
    requires Ok(c) && LineOk(c, line, d, f, cmds, subs, results) && AllRetimed(line, after)
    ensures LineOk(c, after, d, f, cmds, subs, results)
  {
    forall i: nat | IsLive(results, i) && Travels(c, cmds, subs, i, d, f) ensures HasSerial(after, i) {
      var k :| 0 <= k < |line| && line[k].serial == i;
      assert Retimed(line[k], after[k]);
      assert after[k].serial == i;
    }
  }

  lemma LinesSet(c: Config, pipes: map<Key, Pipe>, cmds: seq<Accepted>, subs: seq<Sub>, results: seq<Option<nat>>,
                 k: Key, p: Pipe)
    requires Ok(c) && Lines(c, pipes, cmds, subs, results) && k in pipes && AllRetimed(Line(pipes[k]), Line(p))
    ensures Lines(c, pipes[k := p], cmds, subs, results)
  {
    assert LineOk(c, Line(pipes[k]), k.0, k.1, cmds, subs, results);
    LineRetimed(c, Line(pipes[k]), Line(p), k.0, k.1, cmds, subs, results);
  }

  lemma TakeLine(p: Pipe, flight: Flight)
    requires p.inq != [] && p.pq == [] && Retimed(p.inq[0], flight.cmd)
    ensures AllRetimed(Line(p), Line(p.(inq := p.inq[1..], pq := [flight] + p.pq)))
  {
    var after := p.(inq := p.inq[1..], pq := [flight] + p.pq);
    assert Line(p) == p.outq + p.inq;
    assert Line(after) == p.outq + [flight.cmd] + p.inq[1..];
    forall i | 0 <= i < |Line(p)| ensures Retimed(Line(p)[i], Line(after)[i]) {
      if i != |p.outq| { assert Line(after)[i] == Line(p)[i]; }
    }
  }

  lemma DrainLine(p: Pipe)
    requires |p.pq| == 1
    ensures Line(p.(pq := p.pq[1..], outq := p.outq + [p.pq[0].cmd])) == Line(p)
  {
    assert Cmds(p.pq) == [p.pq[0].cmd];
    assert Cmds(p.pq[1..]) == [];
  }

  ghost function SlotsBefore(pipes: map<Key, Pipe>, f: nat, n: nat): set<nat> {
    set d: nat | d < n && PipeAt(pipes, (d, f)).pq != [] :: PipeAt(pipes, (d, f)).pq[0].slot
  }

  lemma {:induction false} SlotsFew(pipes: map<Key, Pipe>, f: nat, n: nat)
    ensures |SlotsBefore(pipes, f, n)| <= n
  {
    if n == 0 {
      assert SlotsBefore(pipes, f, n) == {};
    } else {
      SlotsFew(pipes, f, n - 1);
      var p := PipeAt(pipes, (n - 1, f));
      assert SlotsBefore(pipes, f, n) ==
             SlotsBefore(pipes, f, n - 1) + if p.pq != [] then {p.pq[0].slot} else {};
    }
  }

  // While a round is still taking requests, each dispatcher before the current one holds at most
  // one slot, so the pool is not empty.
  lemma PoolNeverEmpty(c: Config, pool: seq<nat>, turn: Turn, pipes: map<Key, Pipe>, f: nat)
    requires Ok(c) && PoolOk(c, pool, turn, pipes, f) && turn.Taking?
    ensures pool != []
  {
    if pool == [] {
      forall x | x in Below(c.poolSize) ensures x in SlotsBefore(pipes, f, turn.d) {
        assert InFlight(pipes, f, c.dispatchers, x);
      }
      SubsetSize(Below(c.poolSize), SlotsBefore(pipes, f, turn.d));
      SlotsFew(pipes, f, turn.d);
    }
  }

  // Other threads' pools do not notice.
  lemma PoolElsewhere(c: Config, pool: seq<nat>, turn: Turn, pipes: map<Key, Pipe>, after: map<Key, Pipe>, f: nat)
    requires PoolOk(c, pool, turn, pipes, f)
    requires forall d: nat :: PipeAt(after, (d, f)).pq == PipeAt(pipes, (d, f)).pq
    ensures PoolOk(c, pool, turn, after, f)
  {
    forall x: nat | x < c.poolSize && InFlight(pipes, f, c.dispatchers, x)
      ensures InFlight(after, f, c.dispatchers, x)
    {
      var d: nat :| d < c.dispatchers && PipeAt(pipes, (d, f)).pq != [] && PipeAt(pipes, (d, f)).pq[0].slot == x;
      assert PipeAt(after, (d, f)).pq != [];
    }
  }

  lemma PoolTake(c: Config, pool: seq<nat>, turn: Turn, pipes: map<Key, Pipe>, f: nat, flight: Flight, p: Pipe)
    requires Ok(c) && PoolOk(c, pool, turn, pipes, f) && turn.Taking? && pool != []
    requires (turn.d, f) in pipes && flight.slot == pool[0] && p.pq == [flight]
    ensures PoolOk(c, pool[1..], NextTurn(c, turn), pipes[(turn.d, f) := p], f)
  {
    var after := pipes[(turn.d, f) := p];
    assert pool == [pool[0]] + pool[1..];
    assert pool[0] in pool;
    forall d: nat | d < c.dispatchers
      ensures |PipeAt(after, (d, f)).pq| <= 1
      ensures PipeAt(after, (d, f)).pq != [] ==>
                PipeAt(after, (d, f)).pq[0].slot < c.poolSize && PipeAt(after, (d, f)).pq[0].slot !in pool[1..]
    {
      assert PipeAt(after, (d, f)) == if d == turn.d then p else PipeAt(pipes, (d, f));
    }
    forall x: nat | x < c.poolSize ensures x in pool[1..] || InFlight(after, f, c.dispatchers, x) {
      if x == pool[0] {
        assert PipeAt(after, (turn.d, f)).pq[0].slot == x;
      } else if x !in pool {
        var d: nat :| d < c.dispatchers && PipeAt(pipes, (d, f)).pq != [] && PipeAt(pipes, (d, f)).pq[0].slot == x;
        assert PipeAt(after, (d, f)).pq[0].slot == x;
      }
    }
    forall x | x in pool[1..] ensures x < c.poolSize {
      assert x in pool;
    }
  }

  lemma PoolDrain(c: Config, pool: seq<nat>, turn: Turn, pipes: map<Key, Pipe>, f: nat, p: Pipe)
    requires Ok(c) && PoolOk(c, pool, turn, pipes, f) && turn.Draining?
    requires (turn.d, f) in pipes && pipes[(turn.d, f)].pq != [] && p.pq == []
    ensures PoolOk(c, [pipes[(turn.d, f)].pq[0].slot] + pool, turn, pipes[(turn.d, f) := p], f)
  {
    var slot := pipes[(turn.d, f)].pq[0].slot;
    assert PipeAt(pipes, (turn.d, f)).pq != [];
    var after, pool' := pipes[(turn.d, f) := p], [slot] + pool;
    forall x: nat | x < c.poolSize ensures x in pool' || InFlight(after, f, c.dispatchers, x) {
      if x in pool { assert x in pool'; } else {
        var d: nat :| d < c.dispatchers && PipeAt(pipes, (d, f)).pq != [] && PipeAt(pipes, (d, f)).pq[0].slot == x;
        if d == turn.d { assert pool'[0] == x; } else { assert PipeAt(after, (d, f)).pq[0].slot == x; }
      }
    }
  }

  lemma PoolTurn(c: Config, pool: seq<nat>, turn: Turn, pipes: map<Key, Pipe>, f: nat)
    requires Ok(c) && PoolOk(c, pool, turn, pipes, f)
    requires turn.Draining? ==> PipeAt(pipes, (turn.d, f)).pq == []
    ensures PoolOk(c, pool, NextTurn(c, turn), pipes, f)
  {
  }

  lemma PoolsSet(c: Config, pool: seq<seq<nat>>, turn: seq<Turn>, pipes: map<Key, Pipe>, f: nat, pool': seq<nat>,
                 turn': Turn, d: nat, p: Pipe)
    requires Ok(c) && Pools(c, pool, turn, pipes) && f < |pool|
    requires PoolOk(c, pool', turn', pipes[(d, f) := p], f)
    ensures Pools(c, pool[f := pool'], turn[f := turn'], pipes[(d, f) := p])
  {
    var after, pools, turns := pipes[(d, f) := p], pool[f := pool'], turn[f := turn'];
    forall g | 0 <= g < |pool| ensures PoolOk(c, pools[g], turns[g], after, g) {
      if g != f { PoolElsewhere(c, pool[g], turn[g], pipes, after, g); }
    }
  }

  lemma PoolsTurn(c: Config, pool: seq<seq<nat>>, turn: seq<Turn>, pipes: map<Key, Pipe>, f: nat)
    requires Ok(c) && Pools(c, pool, turn, pipes) && f < |pool|
    requires turn[f].Draining? ==> PipeAt(pipes, (turn[f].d, f)).pq == []
    ensures Pools(c, pool, turn[f := NextTurn(c, turn[f])], pipes)
  {
    PoolTurn(c, pool[f], turn[f], pipes, f);
  }

  lemma ThreadAsserts(c: Config, s: State, f: nat)
    requires Ok(c) && Inv(c, s) && f < |s.turn|
    ensures f < |s.pool| && PoolOk(c, s.pool[f], s.turn[f], s.pipes, f) && (s.turn[f].d, f) in s.pipes
    ensures s.turn[f].Taking? ==> s.pool[f] != [] && s.pipes[(s.turn[f].d, f)].pq == []
    ensures |s.pipes[(s.turn[f].d, f)].pq| <= 1
  {
    var d := s.turn[f].d;
    assert PoolOk(c, s.pool[f], s.turn[f], s.pipes, f);
    assert (d, f) in s.pipes;
    assert PipeAt(s.pipes, (d, f)) == s.pipes[(d, f)];
    if s.turn[f].Taking? { PoolNeverEmpty(c, s.pool[f], s.turn[f], s.pipes, f); }
  }

  lemma TakeOk(c: Config, s: State, f: nat, lat: nat)
    requires Ok(c) && Inv(c, s) && Allowed(c, s, TakeNext(f, lat))
    ensures AssertsHold(c, s, TakeNext(f, lat)) && Inv(c, Take(c, s, f, lat))
  {
    hide Lines, Owners, Splits, Logs, Pools, Rooms, Kept, Lists, Counts, PoolOk, Line;
    ThreadAsserts(c, s, f);
    var d := s.turn[f].d;
    var p := s.pipes[(d, f)];
    if p.inq == [] {
      PoolsTurn(c, s.pool, s.turn, s.pipes, f);
    } else {
      var t := Take(c, s, f, lat);
      var flight := t.pipes[(d, f)].pq[0];
      TakeLine(p, flight);
      LinesSet(c, s.pipes, s.cmds, s.subs, s.results, (d, f), t.pipes[(d, f)]);
      PoolTake(c, s.pool[f], s.turn[f], s.pipes, f, flight, t.pipes[(d, f)]);
      PoolsSet(c, s.pool, s.turn, s.pipes, f, s.pool[f][1..], NextTurn(c, s.turn[f]), d, t.pipes[(d, f)]);
      RoomsGet(c, s.pipes, (d, f));
      RoomsSet(c, s.pipes, (d, f), t.pipes[(d, f)]);
    }
  }

  lemma DrainOk(c: Config, s: State, f: nat)
    requires Ok(c) && Inv(c, s) && Allowed(c, s, DrainNext(f))
    ensures AssertsHold(c, s, DrainNext(f)) && Inv(c, Drain(c, s, f))
  {
    hide Lines, Owners, Splits, Logs, Pools, Rooms, Kept, Lists, Counts, PoolOk, Line;
    ThreadAsserts(c, s, f);
    var d := s.turn[f].d;
    var p := s.pipes[(d, f)];
    if p.pq == [] {
      PoolsTurn(c, s.pool, s.turn, s.pipes, f);
    } else if |p.outq| < c.outSize {
      var t := Drain(c, s, f);
      DrainLine(p);
      assert AllRetimed(Line(p), Line(p));
      LinesSet(c, s.pipes, s.cmds, s.subs, s.results, (d, f), t.pipes[(d, f)]);
      PoolDrain(c, s.pool[f], s.turn[f], s.pipes, f, t.pipes[(d, f)]);
      PoolsSet(c, s.pool, s.turn, s.pipes, f, t.pool[f], s.turn[f], d, t.pipes[(d, f)]);
      RoomsGet(c, s.pipes, (d, f));
      RoomsSet(c, s.pipes, (d, f), t.pipes[(d, f)]);
      assert t.turn == s.turn[f := s.turn[f]];
    }
  }

  // ----- Whole runs -----

  lemma StepOk(c: Config, s: State, a: Action)
    requires Ok(c) && Inv(c, s) && Allowed(c, s, a)
    ensures AssertsHold(c, s, a) && Inv(c, Apply(c, s, a))
  {
    hide Inv;
    match a
    case AcceptCmd(q, cid, sqEntry, slba, nlb, now) => AcceptOk(c, s, q, cid, sqEntry, slba, nlb, now);
    case EnqueueNext(d) => EnqueueOk(c, s, d);
    case DequeueFrom(d, f) => DequeueOk(c, s, d, f);
    case CompleteFirst(d, now) => CompleteOk(c, s, d, now);
    case TakeNext(f, lat) => TakeOk(c, s, f, lat);
    case DrainNext(f) => DrainOk(c, s, f);
  }

  lemma InitPools(c: Config)
    requires Ok(c)
    ensures Pools(c, Init(c).pool, Init(c).turn, Init(c).pipes)
  {
    hide InitReqs, InitPipes, UpFrom;
    var s := Init(c);
    forall f | 0 <= f < c.workers ensures PoolOk(c, s.pool[f], s.turn[f], s.pipes, f) {
      forall x: nat | x < c.poolSize ensures x in s.pool[f] {
        assert s.pool[f][x] == x;
      }
    }
  }

  lemma InitLines(c: Config)
    requires Ok(c)
    ensures Lines(c, Init(c).pipes, [], [], []) && Rooms(c, Init(c).pipes)
  {
    hide InitReqs, InitPipes, UpFrom, LineOk, Line;
    EmptyLine();
    var pipes := Init(c).pipes;
    forall k: Key | k in pipes ensures LineOk(c, Line(pipes[k]), k.0, k.1, [], [], []) {
      NothingTravels(c, k.0, k.1);
    }
  }

  lemma EmptyLine()
    ensures Line(NO_PIPE) == []
  {
  }

  lemma NothingTravels(c: Config, d: nat, f: nat)
    requires Ok(c)
    ensures LineOk(c, [], d, f, [], [], [])
  {
  }

  lemma InitLists(c: Config)
    requires Ok(c)
    ensures Lists(c, Init(c).free, Init(c).done, Init(c).reqs, Init(c).disp)
  {
    hide InitReqs, InitPipes, UpFrom;
    var s := Init(c);
    forall q: nat, id: nat | q < |s.free| ensures id in s.free[q] <==> (q, id) in s.reqs {
      if 1 <= id <= c.depth[q] { assert s.free[q][id - 1] == id; }
    }
  }

  lemma InitOk(c: Config)
    requires Ok(c)
    ensures Inv(c, Init(c))
  {
    hide Pools, Lines, Lists, Rooms, InitReqs, InitPipes, UpFrom;
    InitPools(c);
    InitLines(c);
    InitLists(c);
  }

  // Every step of acts may be taken when it is its turn.
  ghost predicate RunAllowed(c: Config, s: State, acts: seq<Action>)
    requires Ok(c)
    decreases acts
  {
    acts == [] ||
    (Allowed(c, s, acts[0]) && (AssertsHold(c, s, acts[0]) ==> RunAllowed(c, Apply(c, s, acts[0]), acts[1..])))
  }

  // The state a run leads to, unless it violates an assertion on the way.
  ghost function After(c: Config, s: State, acts: seq<Action>): Option<State>
    requires Ok(c)
    decreases acts
  {
    if acts == [] then Some(s)
    else if AssertsHold(c, s, acts[0]) then After(c, Apply(c, s, acts[0]), acts[1..])
    else None
  }

  // However the steps of the dispatchers and FTL threads are interleaved, none of the assertions
  // of the code is ever violated, and the invariant holds throughout.
  lemma {:induction false} RunsAreSafe(c: Config, s: State, acts: seq<Action>)
    requires Ok(c) && Inv(c, s) && RunAllowed(c, s, acts)
    ensures After(c, s, acts).Some? && Inv(c, After(c, s, acts).value)
    decreases acts
  {
    hide Inv, Allowed, AssertsHold, Apply;
    if acts == [] {
    } else {
      StepOk(c, s, acts[0]);
      RunsAreSafe(c, Apply(c, s, acts[0]), acts[1..]);
    }
  }

  lemma EveryRun(c: Config, acts: seq<Action>)
    requires Ok(c) && RunAllowed(c, Init(c), acts)
    ensures After(c, Init(c), acts).Some? && Inv(c, After(c, Init(c), acts).value)
  {
    hide Inv, RunAllowed, After;
    InitOk(c);
    RunsAreSafe(c, Init(c), acts);
  }

  // ----- What the invariant means -----

  // A command has one completion entry, in its own queue, if it is over, and none before.  By
  // then every piece of it has come back, and the entry is not posted before the last of them
  // has ended.
  lemma ExactlyOnce(c: Config, s: State, j: nat)
    requires Ok(c) && Inv(c, s) && j < |s.cmds|
    ensures |s.posted| == |s.cmds| && |s.results| == |s.subs| && |s.cq| == |c.depth| && s.cmds[j].q < |s.cq|
    ensures forall q, m, n :: 0 <= q < |s.cq| && 0 <= m < n < |s.cq[q]| ==> s.cq[q][m].owner != s.cq[q][n].owner
    ensures forall q, n :: 0 <= q < |s.cq| && 0 <= n < |s.cq[q]| && s.cq[q][n].owner == j ==>
              q == s.cmds[j].q && s.cq[q][n].cid == s.cmds[j].cid && s.posted[j].Some?
    ensures s.posted[j].Some? <==> HasOwner(s.cq[s.cmds[j].q], j)
    ensures s.posted[j].Some? ==> forall i :: 0 <= i < |s.subs| && s.subs[i].owner == j ==>
              s.results[i].Some? && s.results[i].value <= s.posted[j].value
  {
    assert (s.cmds[j].q, s.cmds[j].id) in s.reqs;
    assert LogOk(s.cq[s.cmds[j].q], s.cmds[j].q, s.cmds, s.posted);
    forall q, m, n | 0 <= q < |s.cq| && 0 <= m < n < |s.cq[q]| ensures s.cq[q][m].owner != s.cq[q][n].owner {
      assert LogOk(s.cq[q], q, s.cmds, s.posted);
    }
    forall q, n | 0 <= q < |s.cq| && 0 <= n < |s.cq[q]| && s.cq[q][n].owner == j
      ensures q == s.cmds[j].q && s.cq[q][n].cid == s.cmds[j].cid && s.posted[j].Some?
    {
      assert LogOk(s.cq[q], q, s.cmds, s.posted);
    }
    if s.posted[j].Some? {
      assert LiveOf(s.subs, s.results, j) == {} && EndsBy(s.subs, s.results, j, s.posted[j].value);
      forall i | 0 <= i < |s.subs| && s.subs[i].owner == j ensures s.results[i].Some? {
        assert i !in LiveOf(s.subs, s.results, j);
      }
    }
  }

  // tag_mapper[cid] is set exactly while a command with that identifier is outstanding, and then
  // names its request.
  lemma TagIffOutstanding(c: Config, s: State, q: nat, cid: nat)
    requires Ok(c) && Inv(c, s)
    ensures TagAt(s.tag, (q, cid)) != 0 <==> exists j :: j in Outstanding(s.cmds, s.posted, q) && s.cmds[j].cid == cid
    ensures forall j :: j in Outstanding(s.cmds, s.posted, q) && s.cmds[j].cid == cid ==>
              s.cmds[j].id == TagAt(s.tag, (q, cid))
  {
    if TagAt(s.tag, (q, cid)) != 0 {
      var j := TagOwner(c, s.tag, s.reqs, s.cmds, s.posted, q, cid);
    }
    forall j | j in Outstanding(s.cmds, s.posted, q) ensures (s.cmds[j].q, s.cmds[j].id) in s.reqs {
    }
  }

  // The request numbers 1 .. queue_size are shared out between the free list and the commands
  // that are outstanding, each of which has one of its own.
  lemma RequestsPartition(c: Config, s: State, q: nat, id: nat)
    requires Ok(c) && Inv(c, s) && q < |c.depth| && 1 <= id <= c.depth[q]
    ensures q < |s.free| && NoDup(s.free[q])
    ensures id in s.free[q] <==> !exists j :: j in Outstanding(s.cmds, s.posted, q) && s.cmds[j].id == id
    ensures forall i, j | i in Outstanding(s.cmds, s.posted, q) && j in Outstanding(s.cmds, s.posted, q) ::
              s.cmds[i].id == s.cmds[j].id ==> i == j
  {
    assert (q, id) in s.reqs;
    if s.reqs[(q, id)].isFlight {
      var j := s.reqs[(q, id)].owner;
      assert (s.cmds[j].q, s.cmds[j].id) == (q, id);
      assert j in Outstanding(s.cmds, s.posted, q);
    }
    forall j | j in Outstanding(s.cmds, s.posted, q)
      ensures (q, s.cmds[j].id) in s.reqs && s.reqs[(q, s.cmds[j].id)].isFlight && s.reqs[(q, s.cmds[j].id)].owner == j
    {
      assert (s.cmds[j].q, s.cmds[j].id) in s.reqs;
    }
  }

  // remaining_req is the number of pieces that are on their way.
  lemma RemainingCounts(c: Config, s: State, j: nat)
    requires Ok(c) && Inv(c, s) && j < |s.cmds| && s.posted[j].None?
    ensures (s.cmds[j].q, s.cmds[j].id) in s.reqs
    ensures s.reqs[(s.cmds[j].q, s.cmds[j].id)].remaining == |LiveOf(s.subs, s.results, j)|
  {
    assert (s.cmds[j].q, s.cmds[j].id) in s.reqs;
  }

  // No command is forgotten: until it is posted it is being split, or a piece of it is on its
  // way, or it waits in the list its dispatcher posts from.
  lemma NothingLost(c: Config, s: State, j: nat)
    requires Ok(c) && Inv(c, s) && j < |s.cmds| && s.posted[j].None?
    ensures var d, k := s.cmds[j].q % c.dispatchers, (s.cmds[j].q, s.cmds[j].id);
      d < |s.disp| == |s.done| &&
      (BeingSplit(s.disp[d], k) || k in s.done[d] ||
       exists i: nat, f: nat ::
         i < |s.subs| && s.subs[i].owner == j && (d, f) in s.pipes && HasSerial(Line(s.pipes[(d, f)]), i))
  {
    var d, k := s.cmds[j].q % c.dispatchers, (s.cmds[j].q, s.cmds[j].id);
    RemainingCounts(c, s, j);
    if s.reqs[k].remaining != 0 {
      var i :| i in LiveOf(s.subs, s.results, j);
      var f := s.subs[i].ftl;
      assert (d, f) in s.pipes;
      assert LineOk(c, Line(s.pipes[(d, f)]), d, f, s.cmds, s.subs, s.results);
      assert IsLive(s.results, i) && Travels(c, s.cmds, s.subs, i, d, f);
    } else if !BeingSplit(s.disp[d], k) {
      assert Waiting(s.reqs[k], s.disp[d], k);
    }
  }

  // Each FTL thread hands the pieces of a dispatcher back in the order they were handed out: what
  // is returned next is the oldest one on its way.
  lemma OldestReturnsFirst(c: Config, s: State, d: nat, f: nat, i: nat)
    requires Ok(c) && Inv(c, s) && (d, f) in s.pipes && s.pipes[(d, f)].outq != []
    requires IsLive(s.results, i) && Travels(c, s.cmds, s.subs, i, d, f)
    ensures s.pipes[(d, f)].outq[0].serial <= i
  {
    var line := Line(s.pipes[(d, f)]);
    assert LineOk(c, line, d, f, s.cmds, s.subs, s.results);
    assert line[0] == s.pipes[(d, f)].outq[0];
    assert HasSerial(line, i);
  }

  ghost predicate Within(x: Sub, lba: nat) {
    x.slpa <= lba < x.slpa + x.nlb
  }

  ghost predicate Covered(subs: seq<Sub>, j: nat, lba: nat) {
    exists i :: 0 <= i < |subs| && subs[i].owner == j && Within(subs[i], lba)
  }

  // Once a command is split, each of its blocks is in exactly one of its pieces, and no piece
  // reaches beyond it.
  lemma {:induction false} TilesCover(subs: seq<Sub>, j: nat, a: nat, b: nat)
    requires Tiles(subs, j, a, b)
    ensures a <= b
    ensures forall lba: nat :: a <= lba < b <==> Covered(subs, j, lba)
    ensures forall h, i, lba: nat | 0 <= h < i < |subs| && subs[h].owner == j && subs[i].owner == j ::
              Within(subs[h], lba) ==> !Within(subs[i], lba)
  {
    if subs != [] {
      var n := |subs| - 1;
      var b' := if subs[n].owner == j then subs[n].slpa else b;
      TilesCover(subs[..n], j, a, b');
      forall i, lba: nat | 0 <= i < n && subs[i].owner == j && Within(subs[i], lba) ensures a <= lba < b' {
        assert subs[..n][i].owner == j && Within(subs[..n][i], lba);
        assert Covered(subs[..n], j, lba);
      }
      forall lba: nat | a <= lba < b ensures Covered(subs, j, lba) {
        if lba < b' {
          assert Covered(subs[..n], j, lba);
          var i :| 0 <= i < |subs[..n]| && subs[..n][i].owner == j && Within(subs[..n][i], lba);
          assert subs[i].owner == j && Within(subs[i], lba);
        } else {
          assert Within(subs[n], lba);
        }
      }
      forall h, i, lba: nat | 0 <= h < i < |subs| && subs[h].owner == j && subs[i].owner == j && Within(subs[h], lba)
        ensures !Within(subs[i], lba)
      {
        if i < n { assert subs[..n][h] == subs[h] && subs[..n][i] == subs[i]; }
      }
    }
  }

  lemma PiecesCover(c: Config, s: State, j: nat)
    requires Ok(c) && Inv(c, s) && j < |s.cmds|
    requires |s.disp| == c.dispatchers
    requires var pc := s.disp[s.cmds[j].q % c.dispatchers]; pc.Splitting? ==> pc.owner != j
    ensures Tiles(s.subs, j, s.cmds[j].slba, s.cmds[j].slba + s.cmds[j].nlb)
  {
    assert Tiles(s.subs, j, s.cmds[j].slba, Reached(s.cmds[j], j, s.disp[s.cmds[j].q % c.dispatchers]));
  }

  // ----- The order of the completed list -----

  // push_completed_req on the end times alone.
  function Insert(ends: seq<nat>, e: nat): seq<nat> {
    if ends == [] then [e]
    else if e <= ends[0] then [ends[0], e] + ends[1..]
    else [ends[0]] + Insert(ends[1..], e)
  }

  ghost function Ends(reqs: map<Key, Req>, list: seq<Key>): seq<nat> {
    seq(|list|, i requires 0 <= i < |list| => ReqAt(reqs, list[i]).nsecsEnd)
  }

  lemma {:induction false} PushInserts(reqs: map<Key, Req>, list: seq<Key>, k: Key)
    ensures Ends(reqs, Push(reqs, list, k, ReqAt(reqs, k).nsecsEnd)) ==
            Insert(Ends(reqs, list), ReqAt(reqs, k).nsecsEnd)
  {
    var e := ReqAt(reqs, k).nsecsEnd;
    if list == [] {
    } else {
      assert Ends(reqs, list)[1..] == Ends(reqs, list[1..]);
      if e > ReqAt(reqs, list[0]).nsecsEnd { PushInserts(reqs, list[1..], k); }
    }
  }

  ghost predicate Ascending(s: seq<nat>) {
    forall i, j :: 0 <= i < j < |s| ==> s[i] <= s[j]
  }

  lemma {:induction false} InsertElems(ends: seq<nat>, e: nat)
    ensures multiset(Insert(ends, e)) == multiset(ends) + multiset{e}
    ensures forall x :: x in Insert(ends, e) <==> x == e || x in ends
  {
    if ends == [] {
    } else {
      assert ends == [ends[0]] + ends[1..];
      if e > ends[0] { InsertElems(ends[1..], e); }
    }
  }

  lemma ConsAscending(x: nat, t: seq<nat>)
    ensures Ascending([x] + t) <==> Ascending(t) && forall y :: y in t ==> x <= y
  {
    var r := [x] + t;
    assert forall i :: 0 <= i < |t| ==> t[i] == r[i + 1];
    if Ascending(r) {
      forall y | y in t ensures x <= y {
        var i :| 0 <= i < |t| && t[i] == y;
        assert r[0] <= r[i + 1];
      }
      forall i, j | 0 <= i < j < |t| ensures t[i] <= t[j] {
        assert r[i + 1] <= r[j + 1];
      }
    } else if Ascending(t) && forall y :: y in t ==> x <= y {
      forall i, j | 0 <= i < j < |r| ensures r[i] <= r[j] {
        assert r[j] == t[j - 1] && r[j] in t;
      }
    }
  }

  predicate AllBefore(ends: seq<nat>, e: nat) {
    forall x :: x in ends ==> x < e
  }

  lemma ConsBefore(x: nat, t: seq<nat>, e: nat)
    ensures AllBefore([x] + t, e) <==> x < e && AllBefore(t, e)
    ensures e in [x] + t <==> e == x || e in t
  {
    assert x in [x] + t;
    assert forall y :: y in t ==> y in [x] + t;
  }

  // Inserted right behind the first element, which is no smaller.
  lemma InsertSecond(first: nat, rest: seq<nat>, e: nat)
    requires Ascending([first] + rest) && e <= first
    ensures Ascending([first] + ([e] + rest)) <==> e == first
    ensures e in rest ==> e == first
  {
    ConsAscending(first, rest);
    ConsAscending(e, rest);
    ConsAscending(first, [e] + rest);
    assert e in [e] + rest;
  }

  // The list is meant to stay sorted by end time.  It does exactly if the new request ends
  // later than all others or at the same time as one of them.
  lemma {:induction false} InsertSortedIff(ends: seq<nat>, e: nat)
    requires Ascending(ends)
    ensures Ascending(Insert(ends, e)) <==> e in ends || AllBefore(ends, e)
  {
    if ends == [] {
      assert AllBefore(ends, e);
    } else {
      hide Ascending, AllBefore;
      var first, rest := ends[0], ends[1..];
      assert ends == [first] + rest;
      ConsBefore(first, rest, e);
      if e <= first {
        InsertSecond(first, rest, e);
        assert Insert(ends, e) == [first] + ([e] + rest);
      } else {
        InsertLater(first, rest, e);
        InsertSortedIff(rest, e);
        assert Insert(ends, e) == [first] + Insert(rest, e);
      }
    }
  }

  lemma InsertLater(first: nat, rest: seq<nat>, e: nat)
    requires Ascending([first] + rest) && first < e
    ensures Ascending(rest) && (Ascending([first] + Insert(rest, e)) <==> Ascending(Insert(rest, e)))
  {
    hide Ascending;
    ConsAscending(first, rest);
    InsertElems(rest, e);
    ConsAscending(first, Insert(rest, e));
  }

  // One step more at the end of a run.
  lemma {:induction false} RunExtends(c: Config, s: State, acts: seq<Action>, mid: State, a: Action)
    requires Ok(c) && RunAllowed(c, s, acts) && After(c, s, acts) == Some(mid)
    requires Allowed(c, mid, a) && AssertsHold(c, mid, a)
    ensures RunAllowed(c, s, acts + [a]) && After(c, s, acts + [a]) == Some(Apply(c, mid, a))
    decreases acts
  {
    hide Allowed, AssertsHold, Apply;
    if acts == [] {
      assert acts + [a] == [a] && [a][1..] == [];
    } else {
      RunExtends(c, Apply(c, s, acts[0]), acts[1..], mid, a);
      assert (acts + [a])[1..] == acts[1..] + [a];
    }
  }

  // One queue pair, one dispatcher, one FTL thread.
  const SMALL := Config(1, 1, [2], 2, 2, 1, 8, 1, [8])

  lemma NoSteps(c: Config, s: State)
    requires Ok(c)
    ensures RunAllowed(c, s, []) && After(c, s, []) == Some(s)
  {
  }

  ghost predicate Ran(acts: seq<Action>, s: State) {
    Ok(SMALL) && RunAllowed(SMALL, Init(SMALL), acts) && After(SMALL, Init(SMALL), acts) == Some(s) && Inv(SMALL, s)
  }

  lemma Go(acts: seq<Action>, s: State, a: Action) returns (more: seq<Action>, t: State)
    requires Ran(acts, s) && Allowed(SMALL, s, a)
    ensures AssertsHold(SMALL, s, a) && t == Apply(SMALL, s, a) && Ran(more, t)
  {
    hide Inv, RunAllowed, After, Allowed, AssertsHold, Apply, Init;
    StepOk(SMALL, s, a);
    RunExtends(SMALL, Init(SMALL), acts, s, a);
    more, t := acts + [a], Apply(SMALL, s, a);
  }

  const CMD_ONE := Cmd(0, 0, 0, 0, 1, 0, 0)
  const CMD_TWO := Cmd(0, 1, 1, 0, 1, 0, 1)
  const REQ_ONE := Req(true, 0, 1, 0, 0, NO_CMD, 0)
  const REQ_TWO := Req(true, 1, 1, 0, 0, NO_CMD, 1)

  ghost predicate Threads(s: State, turn: Turn, inq: seq<Cmd>, pq: seq<Flight>, outq: seq<Cmd>) {
    && |s.disp| == |s.turn| == |s.pool| == |s.done| == 1 && s.disp[0] == Idle && s.turn[0] == turn
    && (pq == [] ==> s.pool[0] == [0])
    && (0, 0) in s.pipes && s.pipes[(0, 0)] == Pipe(inq, pq, outq)
  }

  // The first command of one block has been handed to the thread.
  ghost predicate OneIn(s: State) {
    && Threads(s, Taking(0), [CMD_ONE], [], []) && s.done[0] == []
    && |s.free| == 1 && s.free[0] == [2] && TagAt(s.tag, (0, 0)) == 1 && TagAt(s.tag, (0, 1)) == 0
    && (0, 1) in s.reqs && (0, 2) in s.reqs && s.reqs[(0, 1)] == REQ_ONE && s.reqs[(0, 2)] == NO_REQ
    && s.cmds == [Accepted(0, 0, 0, 1, 0, 1, 0)] && s.posted == [None] && |s.subs| == |s.results| == 1
  }

  // Both have; done and the two requests tell how far they have come.
  ghost predicate TwoIn(s: State, done: seq<Key>, one: Req, two: Req, subs: nat) {
    && |s.done| == 1 && s.done[0] == done && TagAt(s.tag, (0, 0)) == 1 && TagAt(s.tag, (0, 1)) == 2
    && (0, 1) in s.reqs && (0, 2) in s.reqs && s.reqs[(0, 1)] == one && s.reqs[(0, 2)] == two
    && |s.subs| == |s.results| == subs
  }

  // The first command is being split.
  ghost predicate OneAccepted(s: State) {
    && |s.disp| == |s.turn| == |s.pool| == |s.done| == |s.free| == 1
    && s.disp[0] == Splitting(0, 1, 0, 0, 1, 0, 0) && s.turn[0] == Taking(0) && s.pool[0] == [0]
    && (0, 0) in s.pipes && s.pipes[(0, 0)] == NO_PIPE && s.done[0] == []
    && s.free[0] == [2] && TagAt(s.tag, (0, 0)) == 1 && TagAt(s.tag, (0, 1)) == 0
    && (0, 1) in s.reqs && (0, 2) in s.reqs
    && s.reqs[(0, 1)] == REQ_ONE.(remaining := 0) && s.reqs[(0, 2)] == NO_REQ
    && s.cmds == [Accepted(0, 0, 0, 1, 0, 1, 0)] && s.posted == [None] && |s.subs| == |s.results| == 0
  }

  ghost predicate NoneAccepted(s: State) {
    && |s.disp| == |s.turn| == |s.pool| == |s.done| == |s.free| == 1
    && s.disp[0] == Idle && s.turn[0] == Taking(0) && s.pool[0] == [0]
    && (0, 0) in s.pipes && s.pipes[(0, 0)] == NO_PIPE && s.done[0] == []
    && s.free[0] == [1, 2] && s.tag == map[]
    && (0, 1) in s.reqs && (0, 2) in s.reqs && s.reqs[(0, 1)] == NO_REQ && s.reqs[(0, 2)] == NO_REQ
    && s.cmds == [] && s.posted == [] && s.subs == [] && s.results == []
  }

  lemma InitSmall() returns (s: State)
    ensures s == Init(SMALL) && NoneAccepted(s)
  {
    hide InitPipes, InitReqs;
    s := Init(SMALL);
    assert UpFrom(1, 2) == [1, 2] && UpFrom(0, 1) == [0];
    var k: Key := (0, 0);
    assert k in InitPipes(1, 1) && InitPipes(1, 1)[k] == NO_PIPE;
  }

  lemma FirstAccepted() returns (acts: seq<Action>, s: State)
    ensures Ran(acts, s) && OneAccepted(s)
  {
    hide Ran, Init;
    acts := [];
    s := InitSmall();
    StartRan();
    assert [1, 2][1..] == [2];
    acts, s := Go(acts, s, AcceptCmd(0, 0, 0, 0, 1, 0));
  }

  lemma StartRan()
    ensures Ran([], Init(SMALL))
  {
    hide Inv, Init, RunAllowed, After;
    InitOk(SMALL);
    NoSteps(SMALL, Init(SMALL));
  }

  lemma OneHandedOut() returns (acts: seq<Action>, s: State)
    ensures Ran(acts, s) && OneIn(s)
  {
    hide Ran, Init;
    acts, s := FirstAccepted();
    acts, s := Go(acts, s, EnqueueNext(0));
  }

  // The second command is being split.
  ghost predicate TwoAccepted(s: State) {
    && |s.disp| == 1 && s.disp[0] == Splitting(0, 2, 1, 0, 1, 0, 1)
    && |s.turn| == |s.pool| == 1 && s.turn[0] == Taking(0) && s.pool[0] == [0]
    && (0, 0) in s.pipes && s.pipes[(0, 0)] == Pipe([CMD_ONE], [], [])
    && TwoIn(s, [], REQ_ONE, REQ_TWO.(remaining := 0), 1)
  }

  lemma SecondAccepted() returns (acts: seq<Action>, s: State)
    ensures Ran(acts, s) && TwoAccepted(s)
  {
    hide Ran, Init;
    acts, s := OneHandedOut();
    assert Outstanding(s.cmds, s.posted, 0) == {0};
    acts, s := Go(acts, s, AcceptCmd(0, 1, 1, 0, 1, 0));
  }

  lemma TwoHandedOut() returns (acts: seq<Action>, s: State)
    ensures Ran(acts, s) && Threads(s, Taking(0), [CMD_ONE, CMD_TWO], [], []) && TwoIn(s, [], REQ_ONE, REQ_TWO, 2)
  {
    hide Ran, Init;
    acts, s := SecondAccepted();
    acts, s := Go(acts, s, EnqueueNext(0));
    assert [CMD_ONE] + [CMD_TWO] == [CMD_ONE, CMD_TWO];
  }

  // The thread returns the first as ending at 10.
  lemma OneReturned() returns (acts: seq<Action>, s: State)
    ensures Ran(acts, s) && Threads(s, Taking(0), [CMD_TWO], [], [CMD_ONE.(nsecs := 10)])
    ensures TwoIn(s, [], REQ_ONE, REQ_TWO, 2)
  {
    hide Ran;
    acts, s := TwoHandedOut();
    assert [CMD_ONE, CMD_TWO][1..] == [CMD_TWO] && [0][1..] == [];
    acts, s := Go(acts, s, TakeNext(0, 10));
    acts, s := Go(acts, s, DrainNext(0));
    acts, s := Go(acts, s, DrainNext(0));
  }

  // And the second as ending at 5.
  lemma TwoReturned() returns (acts: seq<Action>, s: State)
    ensures Ran(acts, s)
    ensures Threads(s, Draining(0), [], [], [CMD_ONE.(nsecs := 10), CMD_TWO.(nsecs := 5)])
    ensures TwoIn(s, [], REQ_ONE, REQ_TWO, 2)
  {
    hide Ran;
    acts, s := OneReturned();
    assert [CMD_TWO][1..] == [] && [0][1..] == [];
    acts, s := Go(acts, s, TakeNext(0, 5));
    acts, s := Go(acts, s, DrainNext(0));
    assert [CMD_ONE.(nsecs := 10)] + [CMD_TWO.(nsecs := 5)] == [CMD_ONE.(nsecs := 10), CMD_TWO.(nsecs := 5)];
  }

  // The completed list is left in the order 10, 5: the second is not posted before the first.
  lemma UnsortedRun() returns (acts: seq<Action>, s: State)
    ensures Ok(SMALL) && RunAllowed(SMALL, Init(SMALL), acts) && After(SMALL, Init(SMALL), acts) == Some(s)
    ensures |s.done| == 1 && Ends(s.reqs, s.done[0]) == [10, 5] && !Ascending([10, 5])
    ensures Insert([10], 5) == [10, 5]
  {
    hide Inv, RunAllowed, After, Init;
    acts, s := TwoReturned();
    acts, s := Go(acts, s, DequeueFrom(0, 0));
    assert s.done[0] == [(0, 1)];
    acts, s := Go(acts, s, DequeueFrom(0, 0));
    assert s.done[0] == [(0, 1), (0, 2)];
    assert [10, 5][0] > [10, 5][1];
  }
}
