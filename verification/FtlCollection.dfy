// A collection as do_gc performs it: the pages of the victim in a fixed order, each valid one
// copied through the copy pointer.  It runs through exactly if the copy pointer has room for
// more pages than the victim has valid ones; otherwise get_next_free_line finds no line.
module FtlCollection {
  import opened Wrappers
  import opened Collections
  import opened FtlModel
  import opened FtlRuns

  predicate SameShape<D>(s: State<D>, t: State<D>) {
    && |t.vpc| == |s.vpc| && |t.ipc| == |s.ipc| && |t.status| == |s.status|
    && forall l :: 0 <= l < |s.status| ==> |t.status[l]| == |s.status[l]|
  }

  predicate IsValidPage<D>(s: State<D>, v: nat, o: nat) {
    v < |s.status| && o < |s.status[v]| && s.status[v][o] == Valid
  }

  // Nothing if a page cannot be copied because no free line is left.
  function CopyLine<D>(c: Config, s: State<D>, v: nat, order: seq<nat>): (u: Option<State<D>>)
    ensures u.Some? ==> SameShape(s, u.value)
    decreases |order|
  {
    if order == [] then Some(s)
    else if !IsValidPage(s, v, order[0]) then CopyLine(c, s, v, order[1..])
    else if CanMove(c, s, v, order[0]) then CopyLine(c, CollectMove(c, s, v, order[0]), v, order[1..])
    else None
  }

  // The erased victim.
  function ErasedRow(c: Config): seq<Status> {
    seq(c.P, _ => Free)
  }

  function Collection<D>(c: Config, s: State<D>, v: nat, order: seq<nat>): Option<State<D>>
    requires v < |s.status| == |s.ipc| == |s.vpc|
  {
    match CopyLine(c, CollectBegin(s, v), v, order)
    case None => None
    case Some(u) => Some(CollectEnd(Erase(u, v, ErasedRow(c)), v))
  }

  // The order visits every page of a line once.
  ghost predicate IsOrder(c: Config, order: seq<nat>) {
    NoDup(order) && Elems(order) == Below(c.P)
  }

  // What is left to copy of v is what the order has still to visit.
  ghost predicate Visits<D>(s: State<D>, v: nat, todo: set<nat>, order: seq<nat>) {
    && NoDup(order) && (forall o :: o in todo ==> o in order)
    && forall o :: o in order ==> (IsValidPage(s, v, o) <==> o in todo)
  }

  lemma VisitsMove<D>(c: Config, s: State<D>, v: nat, todo: set<nat>, order: seq<nat>)
    requires Inv(c, s, v, todo) && order != [] && Visits(s, v, todo, order)
    requires order[0] in todo && CanMove(c, s, v, order[0])
    ensures Visits(CollectMove(c, s, v, order[0]), v, todo - {order[0]}, order[1..])
  {
    MoveKeepsRow(c, s, v, todo, order[0]);
    assert order == [order[0]] + order[1..];
  }

  lemma VisitsSkip<D>(s: State<D>, v: nat, todo: set<nat>, order: seq<nat>)
    requires order != [] && Visits(s, v, todo, order) && !IsValidPage(s, v, order[0])
    ensures Visits(s, v, todo, order[1..])
  {
    assert order == [order[0]] + order[1..];
  }

  lemma CopyFirst<D>(c: Config, s0: State<D>, v: nat, s: State<D>, todo: set<nat>, order: seq<nat>)
    requires Collecting(c, s0, v, s, todo) && Visits(s, v, todo, order)
    requires order != [] && IsValidPage(s, v, order[0])
    ensures order[0] in todo
    ensures HasRoom(c, s0, v) ==> CanMove(c, s, v, order[0])
    ensures CanMove(c, s, v, order[0]) ==>
      var t, rest := CollectMove(c, s, v, order[0]), todo - {order[0]};
      Collecting(c, s0, v, t, rest) && Visits(t, v, rest, order[1..]) && (HasRoom(c, s0, v) || rest != {})
  {
    hide Inv, Core, CanMove, CollectMove, View, Elsewhere, FreePages, CopyRoom;
    RoomToMove(c, s0, v, s, todo, order[0]);
    assert |todo - {order[0]}| == |todo| - 1;
    if CanMove(c, s, v, order[0]) {
      CollectMoveKeeps(c, s0, v, s, todo, order[0]);
      VisitsMove(c, s, v, todo, order);
    }
  }

  lemma {:induction false} CopyLineIff<D>(c: Config, s0: State<D>, v: nat, s: State<D>, todo: set<nat>, order: seq<nat>)
    requires Collecting(c, s0, v, s, todo) && Visits(s, v, todo, order)
    ensures CopyLine(c, s, v, order).Some? <==> todo == {} || HasRoom(c, s0, v)
    ensures CopyLine(c, s, v, order).Some? ==> Collecting(c, s0, v, CopyLine(c, s, v, order).value, {})
    decreases |order|
  {
    hide Collecting, Inv, CanMove, CollectMove, HasRoom;
    if order == [] {
      assert todo == {};
    } else if !IsValidPage(s, v, order[0]) {
      VisitsSkip(s, v, todo, order);
      CopyLineIff(c, s0, v, s, todo, order[1..]);
    } else {
      CopyFirst(c, s0, v, s, todo, order);
      if CanMove(c, s, v, order[0]) {
        var rest := todo - {order[0]};
        CopyLineIff(c, s0, v, CollectMove(c, s, v, order[0]), rest, order[1..]);
      }
    }
  }

  lemma StartVisits<D>(c: Config, s: State<D>, v: nat, order: seq<nat>)
    requires Inv(c, s, -1, {}) && v in s.victims && IsOrder(c, order)
    ensures v < |s.status| == |s.ipc| == |s.vpc| == c.T && |s.status[v]| == c.P
    ensures Visits(CollectBegin(s, v), v, Ords(s.status[v], Valid), order)
    ensures s.vpc[v] == |Ords(s.status[v], Valid)|
  {
    forall o ensures o in order <==> o in Elems(order) { }
    forall o | o in Ords(s.status[v], Valid) ensures o in order {
      assert o in Below(c.P);
    }
  }

  lemma CollectionEnds<D>(c: Config, s: State<D>, v: nat, u: State<D>)
    requires Collecting(c, s, v, u, {})
    ensures v < c.T == |u.status| && v < |u.ipc| && v < |u.vpc|
    ensures Collected(c, s, v, CollectEnd(Erase(u, v, ErasedRow(c)), v))
  {
    hide Inv, Core, View, Elsewhere;
    CollectEraseOk(c, s, v, u, {}, ErasedRow(c));
    CollectedLine(c, u, v);
    CollectEndOk(c, s, v, Erase(u, v, ErasedRow(c)));
  }

  // In whatever order the pages are visited, the collection of a victim runs through exactly if
  // the copy pointer has room for its valid pages and one more; then it does what a collection
  // has to do.
  lemma CollectionIff<D>(c: Config, s: State<D>, v: nat, order: seq<nat>)
    requires Inv(c, s, -1, {}) && v in s.victims && IsOrder(c, order)
    ensures v < |s.status| == |s.ipc| == |s.vpc|
    ensures Collection(c, s, v, order).Some? <==> s.vpc[v] == 0 || HasRoom(c, s, v)
    ensures Collection(c, s, v, order).Some? ==> Collected(c, s, v, Collection(c, s, v, order).value)
  {
    hide Inv, Core, Visits, Collected, CollectEnd, Erase, CopyLine;
    StartVisits(c, s, v, order);
    CollectBeginOk(c, s, v);
    var u := CopyLine(c, CollectBegin(s, v), v, order);
    CopyLineIff(c, s, v, CollectBegin(s, v), Ords(s.status[v], Valid), order);
    if u.Some? { CollectionEnds(c, s, v, u.value); }
  }

  // ----- Host writes with the collection performed in this way -----

  ghost predicate Collects<D>(c: Config, s: State<D>, v: nat, order: seq<nat>, t: State<D>) {
    v < |s.status| == |s.ipc| == |s.vpc| && Collection(c, s, v, order) == Some(t)
  }

  // check_and_refill_write_credit
  ghost predicate CodeRefill<D>(c: Config, order: seq<nat>, s: State<D>, t: State<D>) {
    if s.credits > 0 then t == s
    else if |s.free| <= GC_THRES_LINES_HIGH && s.victims != {} then
      exists v :: IsVictim(s, v) && Collects(c, s, v, order, t.(credits := t.credits - t.refill))
    else t == s.(credits := s.credits + s.refill)
  }

  // One iteration of the loop in conv_write.
  ghost predicate CodeWrite<D>(c: Config, order: seq<nat>, s: State<D>, lpn: nat, d: D, t: State<D>) {
    CanWrite(c, s, lpn) && CodeRefill(c, order, WritePage(c, s, lpn, d), t)
  }

  lemma CollectedMapped<D>(c: Config, s: State<D>, v: nat, t: State<D>)
    requires Collected(c, s, v, t)
    ensures Inv(c, t, -1, {}) && Mapped(t) == Mapped(s)
  {
    SameViewSameMapped(c, s, t);
  }

  lemma CodeWriteIsHostWrite<D>(c: Config, order: seq<nat>, s: State<D>, lpn: nat, d: D, t: State<D>)
    requires Inv(c, s, -1, {}) && IsOrder(c, order) && CodeWrite(c, order, s, lpn, d, t)
    ensures HostWrite(c, s, lpn, d, t)
    ensures Inv(c, t, -1, {})
  {
    hide Inv, Core, WritePage, View, Collected, HasRoom, CanWrite, Collection, IsVictim;
    WritePageOk(c, s, lpn, d);
    var u, g := WritePage(c, s, lpn, d), t.(credits := t.credits - t.refill);
    if u.credits <= 0 && |u.free| <= GC_THRES_LINES_HIGH && u.victims != {} {
      var v :| IsVictim(u, v) && Collects(c, u, v, order, g);
      VictimIn(u, v);
      CollectionIff(c, u, v, order);
      CollectedMapped(c, u, v, g);
      CreditsFrame(c, g, t);
    } else {
      CreditsFrame(c, u, t);
      assert u.credits <= 0 ==> g == u;
    }
  }

  lemma VictimIn<D>(s: State<D>, v: nat)
    requires IsVictim(s, v)
    ensures v in s.victims
  {
  }

  // A victim with the fewest valid pages.
  lemma {:induction false} LeastVictim<D>(s: State<D>, rest: set<nat>) returns (v: nat)
    requires rest != {} && forall u :: u in rest ==> u < |s.vpc|
    ensures v in rest && forall u :: u in rest ==> s.vpc[v] <= s.vpc[u]
    decreases |rest|
  {
    v :| v in rest;
    if rest == {v} {
    } else {
      var w := LeastVictim(s, rest - {v});
      if s.vpc[w] < s.vpc[v] { v := w; }
    }
  }

  // Within the page limit the next write always goes through.
  lemma WriteGoesThrough<D>(c: Config, order: seq<nat>, s: State<D>, lpn: nat, d: D) returns (t: State<D>)
    requires Good(c, s) && lpn < |s.maptbl| && IsOrder(c, order)
    ensures CodeWrite(c, order, s, lpn, d, t)
  {
    hide Inv, Core, WritePage, View, Elsewhere, MovedOff, CanWrite, Collection, HasRoom, Collected;
    CanWriteOk(c, s, lpn);
    WritePageOk(c, s, lpn, d);
    var u := WritePage(c, s, lpn, d);
    if u.credits > 0 {
      t := u;
    } else if |u.free| <= GC_THRES_LINES_HIGH && u.victims != {} {
      var v := CollectWithinBudget(c, order, u);
      var g := Collection(c, u, v, order).value;
      t := g.(credits := g.credits + g.refill);
      assert t.(credits := t.credits - t.refill) == g;
    } else {
      t := u.(credits := u.credits + u.refill);
    }
  }

  lemma CollectWithinBudget<D>(c: Config, order: seq<nat>, s: State<D>) returns (v: nat)
    requires Inv(c, s, -1, {}) && s.victims != {} && FreePages(c, s) >= 2 * c.P && IsOrder(c, order)
    ensures IsVictim(s, v) && v < |s.status| == |s.ipc| == |s.vpc| && Collection(c, s, v, order).Some?
  {
    hide Core, Collection, Collected, HasRoom, FreePages;
    VictimsCounted(c, s);
    v := LeastVictim(s, s.victims);
    BudgetHasRoom(c, s, v);
    CollectionIff(c, s, v, order);
  }

  lemma VictimsCounted<D>(c: Config, s: State<D>)
    requires Inv(c, s, -1, {})
    ensures forall v :: v in s.victims ==> v < |s.vpc|
  {
  }
}
