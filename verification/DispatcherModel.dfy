// The protocol between the dispatchers of io.c and the FTL threads of sgx_ftl.cpp, as a state
// machine whose steps are the stretches of code between two accesses to a shared flag.
//
// Queue pairs are numbered from 0 here (sqid - 1 in the code) and an SQ uses the CQ of the same
// number.  Dispatcher d serves the queue pairs q with q % dispatchers == d.  Each pair of a
// dispatcher and an FTL thread shares a ring in each direction; a ring is its queue of unread
// entries (see FlagRing for the cells and flags).
module DispatcherModel {
  import opened Wrappers

  datatype Config = Config(
    dispatchers: nat, workers: nat,
    depth: seq<nat>,        // queue_size of each queue pair
    inSize: nat, outSize: nat, poolSize: nat,
    splitUnits: nat, splitRatio: nat, segUnits: seq<nat>)

  // tag_mapper holds 16-bit request numbers, so a queue has fewer than 65536 of them.
  predicate Ok(c: Config) {
    && 1 <= c.dispatchers <= c.poolSize && 1 <= c.workers == |c.segUnits|
    && 0 < c.inSize && 0 < c.outSize && 0 < c.splitUnits
    && (forall f :: 0 <= f < |c.segUnits| ==> 0 < c.segUnits[f])
    && (forall q :: 0 <= q < |c.depth| ==> 0 < c.depth[q] < 65536)
  }

  type Key = (nat, nat)

  // nvmev_io_cmd; serial is the number of the sub-command, which the code does not carry.
  datatype Cmd = Cmd(q: nat, cid: nat, sqEntry: nat, slpa: nat, nlb: nat, nsecs: nat, serial: nat)

  const NO_CMD := Cmd(0, 0, 0, 0, 0, 0, 0)

  // nvmev_internal_request; owner is the number of the accepted command it stands for.
  datatype Req = Req(isFlight: bool, commandId: nat, remaining: int, nsecsStart: nat, nsecsEnd: nat, ioCmd: Cmd,
                     owner: nat)

  const NO_REQ := Req(false, 0, 0, 0, 0, NO_CMD, 0)

  // nvmev_flight_io: slot is its place in the pool.
  datatype Flight = Flight(slot: nat, cmd: Cmd)

  // Everything between dispatcher d and FTL thread f.
  datatype Pipe = Pipe(inq: seq<Cmd>, pq: seq<Flight>, outq: seq<Cmd>)

  const NO_PIPE := Pipe([], [], [])

  // What a dispatcher is doing: splitting a command, of which [slpa, slpa + nlb) is left, or not.
  datatype Pc = Idle | Splitting(q: nat, id: nat, sqEntry: nat, slpa: nat, nlb: nat, ftl: nat, owner: nat)

  // Where an FTL thread is in its round.
  datatype Turn = Taking(d: nat) | Draining(d: nat)

  // A command taken from a submission queue, and the sub-commands made of it.
  datatype Accepted = Accepted(q: nat, cid: nat, sqEntry: nat, id: nat, slba: nat, nlb: nat, start: nat)

  datatype Sub = Sub(owner: nat, ftl: nat, slpa: nat, nlb: nat)

  // A completion queue entry, with the command it is for.
  datatype Entry = Entry(owner: nat, cid: nat, sqEntry: nat)

  datatype State = State(
    tag: map<Key, nat>,            // tag_mapper[q][cid], 0 where nothing was stored
    reqs: map<Key, Req>,           // internal_req[q][id]
    free: seq<seq<nat>>,           // free_req_list of each queue pair
    done: seq<seq<Key>>,           // completed_list of each dispatcher
    cq: seq<seq<Entry>>,           // everything posted to each completion queue
    disp: seq<Pc>,
    pipes: map<Key, Pipe>,
    turn: seq<Turn>, pool: seq<seq<nat>>,
    cmds: seq<Accepted>, posted: seq<Option<nat>>,    // every command, and when it was posted
    subs: seq<Sub>, results: seq<Option<nat>>,        // every sub-command, and what it returned
    lats: map<nat, nat>)                              // the latency worked out for a sub-command

  function TagAt(tag: map<Key, nat>, k: Key): nat {
    if k in tag then tag[k] else 0
  }

  function ReqAt(reqs: map<Key, Req>, k: Key): Req {
    if k in reqs then reqs[k] else NO_REQ
  }

  function PipeAt(pipes: map<Key, Pipe>, k: Key): Pipe {
    if k in pipes then pipes[k] else NO_PIPE
  }

  // ----- The dispatcher -----

  // Which FTL thread gets the first piece.
  function FirstFtl(c: Config, slba: nat): nat
    requires 0 < c.splitUnits
  {
    if c.workers == 1 then 0
    else if slba / c.splitUnits % (1 + c.splitRatio) == 0 then 0 else 1
  }

  // enqueue_io_req_to_ftl up to the splitting loop.
  function Accept(c: Config, s: State, q: nat, cid: nat, sqEntry: nat, slba: nat, nlb: nat, now: nat): State
    requires Ok(c) && q < |s.free| && s.free[q] != [] && q % c.dispatchers < |s.disp|
  {
    var id := s.free[q][0];
    var j := |s.cmds|;
    var req := ReqAt(s.reqs, (q, id)).(
      isFlight := true, commandId := cid, nsecsStart := now, nsecsEnd := now, owner := j);
    s.(free := s.free[q := s.free[q][1..]],
       tag := s.tag[(q, cid) := id],
       reqs := s.reqs[(q, id) := req],
       disp := s.disp[q % c.dispatchers := Splitting(q, id, sqEntry, slba, nlb, FirstFtl(c, slba), j)],
       cmds := s.cmds + [Accepted(q, cid, sqEntry, id, slba, nlb, now)],
       posted := s.posted + [None])
  }

  // One turn of the splitting loop with __enqueue_io_req_to_ftl.
  function Enqueue(c: Config, s: State, d: nat): State
    requires d < |s.disp| && s.disp[d].Splitting? && s.disp[d].ftl < |c.segUnits|
  {
    var pc := s.disp[d];
    var cur := if pc.nlb <= c.segUnits[pc.ftl] then pc.nlb else c.segUnits[pc.ftl];
    var req := ReqAt(s.reqs, (pc.q, pc.id));
    var p := PipeAt(s.pipes, (d, pc.ftl));
    var cmd := Cmd(pc.q, req.commandId, pc.sqEntry, pc.slpa, cur, req.nsecsStart, |s.subs|);
    var next := if pc.ftl + 1 >= c.workers then 0 else pc.ftl + 1;
    s.(reqs := s.reqs[(pc.q, pc.id) := req.(remaining := req.remaining + 1)],
       pipes := s.pipes[(d, pc.ftl) := p.(inq := p.inq + [cmd])],
       disp := s.disp[d := if pc.nlb == cur then Idle
                           else pc.(slpa := pc.slpa + cur, nlb := pc.nlb - cur, ftl := next)],
       subs := s.subs + [Sub(pc.owner, pc.ftl, pc.slpa, cur)],
       results := s.results + [None])
  }

  // push_completed_req: right behind the first entry that ends no earlier, else at the end.
  function Push(reqs: map<Key, Req>, list: seq<Key>, k: Key, end: nat): seq<Key> {
    if list == [] then [k]
    else if end <= ReqAt(reqs, list[0]).nsecsEnd then [list[0], k] + list[1..]
    else [list[0]] + Push(reqs, list[1..], k, end)
  }

  // One turn of the first loop of __dequeue_io_req_from_ftl.
  function Dequeue(c: Config, s: State, d: nat, f: nat): State
    requires d < |s.done| && PipeAt(s.pipes, (d, f)).outq != []
    requires PipeAt(s.pipes, (d, f)).outq[0].serial < |s.results|
  {
    var p := PipeAt(s.pipes, (d, f));
    var cmd := p.outq[0];
    var k := (cmd.q, TagAt(s.tag, (cmd.q, cmd.cid)));
    var req := ReqAt(s.reqs, k);
    var end := if cmd.nsecs > req.nsecsEnd then cmd.nsecs else req.nsecsEnd;
    var last := req.remaining - 1 == 0;
    var after := req.(remaining := req.remaining - 1, nsecsEnd := end, ioCmd := if last then cmd else req.ioCmd);
    s.(reqs := s.reqs[k := after],
       done := if last then s.done[d := Push(s.reqs, s.done[d], k, end)] else s.done,
       pipes := s.pipes[(d, f) := p.(outq := p.outq[1..])],
       results := s.results[cmd.serial := Some(cmd.nsecs)])
  }

  // One turn of its second loop: the first completed request is posted and given back.
  function Complete(c: Config, s: State, d: nat, now: nat): State
    requires d < |s.done| && s.done[d] != []
    requires ReqAt(s.reqs, s.done[d][0]).ioCmd.q < |s.cq| == |s.free|
    requires ReqAt(s.reqs, s.done[d][0]).owner < |s.posted|
  {
    var k := s.done[d][0];
    var req := ReqAt(s.reqs, k);
    var cmd := req.ioCmd;
    s.(cq := s.cq[cmd.q := s.cq[cmd.q] + [Entry(req.owner, cmd.cid, cmd.sqEntry)]],
       done := s.done[d := s.done[d][1..]],
       tag := s.tag[(cmd.q, cmd.cid) := 0],
       free := s.free[cmd.q := s.free[cmd.q] + [k.1]],
       reqs := s.reqs[k := req.(isFlight := false)],
       posted := s.posted[req.owner := Some(now)])
  }

  // ----- The FTL thread -----

  function NextTurn(c: Config, t: Turn): Turn {
    match t
    case Taking(d) => if d + 1 >= c.dispatchers then Draining(0) else Taking(d + 1)
    case Draining(d) => if d + 1 >= c.dispatchers then Taking(0) else Draining(d + 1)
  }

  // check_req_from_dispatcher for one dispatcher; lat is the latency the FTL works out.
  function Take(c: Config, s: State, f: nat, lat: nat): State
    requires f < |s.turn| && f < |s.pool| && s.turn[f].Taking?
    requires PipeAt(s.pipes, (s.turn[f].d, f)).inq != [] ==> s.pool[f] != []
  {
    var d := s.turn[f].d;
    var p := PipeAt(s.pipes, (d, f));
    var t := s.(turn := s.turn[f := NextTurn(c, s.turn[f])]);
    if p.inq == [] then t else
    var cmd := p.inq[0];
    var flight := Flight(s.pool[f][0], cmd.(nsecs := cmd.nsecs + lat));
    t.(pool := s.pool[f := s.pool[f][1..]],
       lats := s.lats[cmd.serial := lat],
       pipes := s.pipes[(d, f) := p.(inq := p.inq[1..], pq := [flight] + p.pq)])
  }

  // check_resp_to_dispatcher: one turn of the loop over the finished requests of a dispatcher.
  // While the ring is full it turns without doing anything.
  function Drain(c: Config, s: State, f: nat): State
    requires f < |s.turn| && f < |s.pool| && s.turn[f].Draining?
  {
    var d := s.turn[f].d;
    var p := PipeAt(s.pipes, (d, f));
    if p.pq == [] then s.(turn := s.turn[f := NextTurn(c, s.turn[f])])
    else if |p.outq| >= c.outSize then s
    else
      s.(pool := s.pool[f := [p.pq[0].slot] + s.pool[f]],
         pipes := s.pipes[(d, f) := p.(pq := p.pq[1..], outq := p.outq + [p.pq[0].cmd])])
  }

  // ----- Runs -----

  datatype Action =
    | AcceptCmd(q: nat, cid: nat, sqEntry: nat, slba: nat, nlb: nat, now: nat)
    | EnqueueNext(d: nat)
    | DequeueFrom(d: nat, f: nat)
    | CompleteFirst(d: nat, now: nat)
    | TakeNext(f: nat, lat: nat)
    | DrainNext(f: nat)

  // The commands of a queue pair that were accepted and not posted yet.
  ghost function Outstanding(cmds: seq<Accepted>, posted: seq<Option<nat>>, q: nat): set<nat> {
    set j: nat | j < |cmds| && j < |posted| && cmds[j].q == q && posted[j].None?
  }

  // What decides whether a step may be taken: the host keeps to its queue depth and does not use
  // a command identifier twice at a time, and neither side of a ring lags by a whole ring.
  ghost predicate Allowed(c: Config, s: State, a: Action)
    requires Ok(c)
  {
    match a
    case AcceptCmd(q, cid, _, _, nlb, _) =>
      && q < |c.depth| && cid < 65536 && 0 < nlb
      && q % c.dispatchers < |s.disp| && s.disp[q % c.dispatchers].Idle?
      && |Outstanding(s.cmds, s.posted, q)| < c.depth[q]
      && forall j :: j in Outstanding(s.cmds, s.posted, q) ==> s.cmds[j].cid != cid
    case EnqueueNext(d) =>
      && d < |s.disp| && s.disp[d].Splitting?
      && |PipeAt(s.pipes, (d, s.disp[d].ftl)).inq| < c.inSize
    case DequeueFrom(d, f) =>
      d < |s.disp| && f < c.workers && s.disp[d].Idle? && PipeAt(s.pipes, (d, f)).outq != []
    case CompleteFirst(d, now) =>
      && d < |s.disp| && d < |s.done| && s.disp[d].Idle? && s.done[d] != []
      && ReqAt(s.reqs, s.done[d][0]).nsecsEnd <= now
    case TakeNext(f, _) => f < |s.turn| && s.turn[f].Taking?
    case DrainNext(f) => f < |s.turn| && s.turn[f].Draining?
  }

  // The assertions the code states at these places (they are compiled out), and that what it
  // indexes is there.
  ghost predicate AssertsHold(c: Config, s: State, a: Action)
    requires Ok(c)
  {
    match a
    case AcceptCmd(q, cid, _, _, _, _) =>
      && q < |s.free| && s.free[q] != [] && q % c.dispatchers < |s.disp|
      && TagAt(s.tag, (q, cid)) == 0
      && s.free[q][0] != 0 && (q, s.free[q][0]) in s.reqs
      && !s.reqs[(q, s.free[q][0])].isFlight && s.reqs[(q, s.free[q][0])].remaining == 0
    case EnqueueNext(d) =>
      && d < |s.disp| && s.disp[d].Splitting? && s.disp[d].ftl < |c.segUnits|
      && (s.disp[d].q, s.disp[d].id) in s.reqs && (d, s.disp[d].ftl) in s.pipes
      && s.disp[d].q % c.dispatchers == d
    case DequeueFrom(d, f) =>
      && d < |s.done| && (d, f) in s.pipes && s.pipes[(d, f)].outq != []
      && s.pipes[(d, f)].outq[0].serial < |s.results|
      && var cmd := s.pipes[(d, f)].outq[0];
         && cmd.q % c.dispatchers == d
         && TagAt(s.tag, (cmd.q, cmd.cid)) != 0 && (cmd.q, TagAt(s.tag, (cmd.q, cmd.cid))) in s.reqs
         && ReqAt(s.reqs, (cmd.q, TagAt(s.tag, (cmd.q, cmd.cid)))).remaining > 0
    case CompleteFirst(d, _) =>
      && d < |s.done| && s.done[d] != [] && s.done[d][0] in s.reqs
      && s.reqs[s.done[d][0]].ioCmd.q < |s.cq| == |s.free|
      && s.reqs[s.done[d][0]].owner < |s.posted|
    case TakeNext(f, _) =>
      && f < |s.turn| && f < |s.pool| && s.turn[f].Taking?
      && (PipeAt(s.pipes, (s.turn[f].d, f)).inq != [] ==> s.pool[f] != [])
    case DrainNext(f) =>
      f < |s.turn| && f < |s.pool| && s.turn[f].Draining?
  }

  ghost function Apply(c: Config, s: State, a: Action): State
    requires Ok(c) && AssertsHold(c, s, a)
  {
    match a
    case AcceptCmd(q, cid, sqEntry, slba, nlb, now) => Accept(c, s, q, cid, sqEntry, slba, nlb, now)
    case EnqueueNext(d) => Enqueue(c, s, d)
    case DequeueFrom(d, f) => Dequeue(c, s, d, f)
    case CompleteFirst(d, now) => Complete(c, s, d, now)
    case TakeNext(f, lat) => Take(c, s, f, lat)
    case DrainNext(f) => Drain(c, s, f)
  }

  // Requests 1 .. queue_size of every queue pair.  The array of the code ends before the last of
  // them, which is handed out all the same; here it has its place.
  ghost function InitReqs(depth: seq<nat>): (r: map<Key, Req>)
    ensures forall k: Key :: k in r <==> k.0 < |depth| && 1 <= k.1 <= depth[k.0]
    ensures forall k: Key :: k in r ==> r[k] == NO_REQ
  {
    map q: nat, id: nat | q < |depth| && 1 <= id <= depth[q] :: (q, id) := NO_REQ
  }

  ghost function InitPipes(dispatchers: nat, workers: nat): (r: map<Key, Pipe>)
    ensures forall k: Key :: k in r <==> k.0 < dispatchers && k.1 < workers
    ensures forall k: Key :: k in r ==> r[k] == NO_PIPE
  {
    map d: nat, f: nat | d < dispatchers && f < workers :: (d, f) := NO_PIPE
  }

  function UpFrom(from: nat, n: nat): (r: seq<nat>)
    ensures |r| == n && forall i :: 0 <= i < n ==> r[i] == from + i
  {
    seq(n, i => from + i)
  }

  // What the queue creation of admin.c and the set-up of the threads leave behind.
  ghost function Init(c: Config): State {
    State(
      map[], InitReqs(c.depth),
      seq(|c.depth|, q requires 0 <= q < |c.depth| => UpFrom(1, c.depth[q])),
      seq(c.dispatchers, _ => []), seq(|c.depth|, _ => []),
      seq(c.dispatchers, _ => Idle),
      InitPipes(c.dispatchers, c.workers),
      seq(c.workers, _ => Taking(0)), seq(c.workers, _ => UpFrom(0, c.poolSize)),
      [], [], [], [], map[])
  }
}
