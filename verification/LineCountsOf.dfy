// The machine of line counts simulates the FTL: each of its events is a step of the FTL, with
// some logical page chosen to overwrite.
module LineCountsOf {
  import opened Wrappers
  import opened Collections
  import opened FtlModel
  import opened FtlRuns
  import opened FtlCollection
  import LM = LineMachine

  ghost predicate Shows<D>(s: State<D>, a: LM.Lines) {
    && s.free == a.free && s.wp == a.wp && s.gcWp == a.gcWp
    && s.wp.line < |s.vpc| && s.vpc[s.wp.line] == a.wpc
    && s.gcWp.line < |s.vpc| && s.vpc[s.gcWp.line] == a.gpc
    && (forall l :: l in s.victims <==> l in a.victims)
    && (forall l :: l in a.victims ==> l < |s.vpc| && s.vpc[l] == a.victims[l])
    && s.credits == a.credits && s.refill == a.refill
  }

  // ----- Writing a page through a pointer -----

  function Put(c: Config, a: LM.Lines, io: IoType): LM.Lines
    requires (match io case UserIo => a.wp case GcIo => a.gcWp).ord + 1 == c.P ==> a.free != []
  {
    match io
    case UserIo => LM.PutHost(c, a)
    case GcIo => LM.PutCopy(c, a)
  }

  // A free line holds no valid page, the open lines are no victims.
  ghost predicate Apart<D>(c: Config, s: State<D>) {
    && s.wp.line < |s.vpc| && s.gcWp.line < |s.vpc| && s.wp.line != s.gcWp.line
    && s.wp.line !in s.victims && s.gcWp.line !in s.victims
    && (s.free != [] ==>
          s.free[0] < |s.vpc| && s.vpc[s.free[0]] == 0 && s.free[0] !in s.victims &&
          s.free[0] != s.wp.line && s.free[0] != s.gcWp.line)
  }

  lemma LinesApart<D>(c: Config, s: State<D>, x: int, todo: set<nat>)
    requires Inv(c, s, x, todo)
    ensures Apart(c, s)
  {
    if s.free != [] {
      assert s.free[0] in s.free;
      assert Ords(s.status[s.free[0]], Valid) == {};
    }
  }

  lemma PlaceShows<D>(c: Config, s: State<D>, io: IoType, lpn: nat, d: D, a: LM.Lines)
    requires Apart(c, s) && Shows(s, a) && CanPlace(c, s, io, lpn)
    ensures Shows(Place(c, s, io, lpn, d), Put(c, a, io))
  {
  }

  // ----- A host write -----

  function LineOf(a: LM.Lines, p: LM.Spot): nat
    requires p != LM.Nowhere
  {
    match p
    case OnHost => a.wp.line
    case OnCopy => a.gcWp.line
    case OnVictim(l) => l
    case OnFull(l) => l
  }

  // A line that counts a valid page holds a logical page.
  lemma LogicalPageOn<D>(c: Config, s: State<D>, l: nat) returns (lpn: nat)
    requires Inv(c, s, -1, {}) && l < c.T && l < |s.vpc| && s.vpc[l] > 0
    ensures lpn < |s.maptbl| && s.maptbl[lpn].Some? && s.maptbl[lpn].value.line == l
  {
    var o :| o in Ords(s.status[l], Valid);
    assert RmapOk(c, s, Page(l, o));
    lpn := s.rmap[l][o];
  }

  lemma LineCounted<D>(c: Config, s: State<D>, a: LM.Lines, p: LM.Spot)
    requires Inv(c, s, -1, {}) && Shows(s, a) && LM.CanTake(c, a, p) && p != LM.Nowhere
    ensures var l := LineOf(a, p); l < c.T == |s.vpc| && s.vpc[l] > 0 && (s.vpc[l] == c.P <==> p.OnFull?)
  {
    FullIffAllValid(c, s, LineOf(a, p));
  }

  lemma InvalidateCounts<D>(c: Config, s: State<D>, lpn: nat)
    requires lpn < |s.maptbl| && s.maptbl[lpn].Some? && InBounds(s, s.maptbl[lpn].value)
    ensures var t, l := Invalidate(c, s, lpn), s.maptbl[lpn].value.line;
      && t.vpc == s.vpc[l := s.vpc[l] - 1] && t.free == s.free && t.wp == s.wp && t.gcWp == s.gcWp
      && t.victims == (if s.vpc[l] == c.P then s.victims + {l} else s.victims)
      && t.credits == s.credits && t.refill == s.refill && t.maptbl == s.maptbl
  {
  }

  lemma InvalidateShows<D>(c: Config, s: State<D>, a: LM.Lines, p: LM.Spot, lpn: nat)
    requires Inv(c, s, -1, {}) && Shows(s, a) && LM.CanTake(c, a, p) && p != LM.Nowhere && c.P >= 1
    requires lpn < |s.maptbl| && s.maptbl[lpn].Some? && s.maptbl[lpn].value.line == LineOf(a, p)
    requires InBounds(s, s.maptbl[lpn].value)
    ensures Shows(Invalidate(c, s, lpn), LM.Take(c, a, p))
    ensures Apart(c, Invalidate(c, s, lpn))
  {
    hide Inv, Invalidate;
    LineCounted(c, s, a, p);
    LinesApart(c, s, -1, {});
    InvalidateCounts(c, s, lpn);
  }

  // The machine stands for s: its counts are those of s, and the first `used` logical pages are
  // the mapped ones.
  ghost predicate StandsFor<D>(c: Config, s: State<D>, a: LM.Lines) {
    Inv(c, s, -1, {}) && Shows(s, a) && Mapped(s) == Below(a.used)
  }

  lemma ChoosePage<D>(c: Config, s: State<D>, a: LM.Lines, p: LM.Spot) returns (lpn: nat)
    requires StandsFor(c, s, a) && LM.CanTake(c, a, p) && (p == LM.Nowhere ==> a.used < |s.maptbl|)
    ensures lpn < |s.maptbl|
    ensures if p == LM.Nowhere then lpn == a.used && s.maptbl[lpn].None?
            else s.maptbl[lpn].Some? && s.maptbl[lpn].value.line == LineOf(a, p) && lpn in Mapped(s)
  {
    if p == LM.Nowhere {
      lpn := a.used;
      assert lpn !in Mapped(s);
    } else {
      LineCounted(c, s, a, p);
      lpn := LogicalPageOn(c, s, LineOf(a, p));
    }
  }

  // A host write of the machine is one of the FTL, up to the refill of the credits.
  lemma WriteShows<D>(c: Config, s: State<D>, a: LM.Lines, p: LM.Spot, d: D) returns (lpn: nat)
    requires StandsFor(c, s, a) && LM.CanWriteTo(c, a, p) && (p == LM.Nowhere ==> a.used < |s.maptbl|)
    ensures CanWrite(c, s, lpn) && StandsFor(c, WritePage(c, s, lpn, d), LM.WriteTo(c, a, p))
    ensures Below(LM.WriteTo(c, a, p).used) == Below(a.used) + {lpn}
    ensures |WritePage(c, s, lpn, d).maptbl| == |s.maptbl|
  {
    hide Inv, Core, Invalidate, LM.Take, LM.PutHost, LM.CanTake, LineOf, Mapped, Place;
    lpn := ChoosePage(c, s, a, p);
    InvInBounds(c, s, -1, {});
    var s1 := s;
    LinesApart(c, s, -1, {});
    if p != LM.Nowhere {
      InvalidateShows(c, s, a, p, lpn);
      InvalidateKeepsBounds(c, s, lpn);
      s1 := Invalidate(c, s, lpn);
    }
    TakeUsed(c, a, p);
    PlaceShows(c, s1, UserIo, lpn, d, LM.Take(c, a, p));
    WritePageOk(c, s, lpn, d);
    WriteMapped(c, s, lpn, d);
    PlaceTables(c, s1, UserIo, lpn, d);
  }

  lemma InvalidateKeepsBounds<D>(c: Config, s: State<D>, lpn: nat)
    requires lpn < |s.maptbl| && s.maptbl[lpn].Some? && InBounds(s, s.maptbl[lpn].value) && InBounds(s, s.wp)
    ensures var t := Invalidate(c, s, lpn);
      InBounds(t, t.wp) && t.wp == s.wp && t.free == s.free && t.maptbl == s.maptbl
  {
  }

  lemma TakeUsed(c: Config, a: LM.Lines, p: LM.Spot)
    requires LM.CanWriteTo(c, a, p)
    ensures LM.WriteTo(c, a, p).used == if p == LM.Nowhere then a.used + 1 else a.used
    ensures LM.Take(c, a, p).wp == a.wp && LM.Take(c, a, p).free == a.free
    ensures p == LM.Nowhere ==> LM.Take(c, a, p) == a.(used := a.used + 1)
    ensures LM.WriteTo(c, a, p) == (var b := LM.PutHost(c, LM.Take(c, a, p)); b.(credits := b.credits - 1))
  {
  }

  // ----- A collection -----

  // What the copying of n pages leaves, seen from where it started.
  lemma {:induction false} CopiesShow<D>(c: Config, v: nat, s: State<D>, todo: set<nat>, order: seq<nat>,
                                         a: LM.Lines, n: nat)
    requires Inv(c, s, v, todo) && Visits(s, v, todo, order) && CopyLine(c, s, v, order).Some?
    requires LM.PutCopies.requires(c, a, n + |todo|) && Shows(s, LM.PutCopies(c, a, n))
    ensures Shows(CopyLine(c, s, v, order).value, LM.PutCopies(c, a, n + |todo|))
    decreases |order|
  {
    hide Inv, Shows, LM.PutCopies, CanMove, CollectMove;
    if order == [] {
      assert todo == {};
    } else if !IsValidPage(s, v, order[0]) {
      VisitsSkip(s, v, todo, order);
      CopiesShow(c, v, s, todo, order[1..], a, n);
    } else {
      var o := order[0];
      assert o in order && o in todo && |todo - {o}| == |todo| - 1;
      VisitsMove(c, s, v, todo, order);
      MoveInv(c, s, v, todo, o);
      MoveShows(c, s, v, todo, o, a, n);
      CopiesShow(c, v, CollectMove(c, s, v, o), todo - {o}, order[1..], a, n + 1);
    }
  }

  lemma MoveShows<D>(c: Config, s: State<D>, v: nat, todo: set<nat>, o: nat, a: LM.Lines, n: nat)
    requires Inv(c, s, v, todo) && o in todo && CanMove(c, s, v, o)
    requires LM.PutCopies.requires(c, a, n + 1) && Shows(s, LM.PutCopies(c, a, n))
    ensures Shows(CollectMove(c, s, v, o), LM.PutCopies(c, a, n + 1))
  {
    hide Inv, Shows, LM.PutCopies, LM.PutCopy, Place;
    LM.PutCopiesStep(c, a, n);
    LinesApart(c, s, v, todo);
    PlaceShows(c, s, GcIo, s.rmap[v][o], s.data[v][o], LM.PutCopies(c, a, n));
  }

  lemma CanCollectVictim<D>(c: Config, s: State<D>, a: LM.Lines, v: nat)
    requires StandsFor(c, s, a) && LM.CanCollect(c, a, v)
    ensures v in s.victims && v < |s.vpc| && s.vpc[v] == a.victims[v]
    ensures IsVictim(s, v) && forall u :: IsVictim(s, u) ==> u == v
    ensures HasRoom(c, s, v)
  {
    hide Inv, Core, Mapped;
    if s.free != [] {
      assert |s.free| * c.P == (|s.free| - 1) * c.P + c.P;
    }
  }

  // A collection of the machine is the one do_gc performs.
  lemma CollectShows<D>(c: Config, s: State<D>, a: LM.Lines, v: nat, order: seq<nat>) returns (t: State<D>)
    requires StandsFor(c, s, a) && LM.CanCollect(c, a, v) && IsOrder(c, order)
    ensures IsVictim(s, v) && v < |s.status| == |s.ipc| == |s.vpc|
    ensures Collection(c, s, v, order) == Some(t) && Collected(c, s, v, t)
    ensures StandsFor(c, t.(credits := t.credits + t.refill), LM.AfterCollect(c, a, v))
  {
    hide Inv, Core, Shows, Collection, CopyLine, LM.PutCopies, Collected, Mapped, View, Elsewhere, MovedOff, HasRoom,
      LM.CanCollect, LM.AfterCollect, IsVictim;
    CanCollectVictim(c, s, a, v);
    CollectionIff(c, s, v, order);
    t := Collection(c, s, v, order).value;
    CollectionShows(c, s, a, v, order);
    CollectedMapped(c, s, v, t);
    CreditsFrame(c, t, t.(credits := t.credits + t.refill));
    CollectUsed(c, a, v);
  }

  lemma CollectUsed(c: Config, a: LM.Lines, v: nat)
    requires LM.CanCollect(c, a, v)
    ensures LM.AfterCollect(c, a, v).used == a.used
  {
  }

  lemma EndShows<D>(c: Config, u: State<D>, v: nat, b: LM.Lines)
    requires Inv(c, u, v, {}) && Shows(u, b) && v < |u.vpc| == |u.ipc| == |u.status|
    ensures var t := CollectEnd(Erase(u, v, ErasedRow(c)), v);
      Shows(t.(credits := t.credits + t.refill), b.(free := b.free + [v], credits := b.credits + b.refill))
  {
    assert v !in u.victims && v != u.wp.line && v != u.gcWp.line;
  }

  lemma AfterCollectIs(c: Config, a: LM.Lines, v: nat)
    requires LM.CanCollect(c, a, v)
    ensures var a1 := a.(victims := a.victims - {v}, refill := c.P - a.victims[v]);
      var b := LM.PutCopies(c, a1, a.victims[v]);
      LM.AfterCollect(c, a, v) == b.(free := b.free + [v], credits := b.credits + b.refill)
  {
  }

  lemma CollectionShows<D>(c: Config, s: State<D>, a: LM.Lines, v: nat, order: seq<nat>)
    requires StandsFor(c, s, a) && LM.CanCollect(c, a, v) && IsOrder(c, order)
    requires v < |s.status| == |s.ipc| == |s.vpc| && Collection(c, s, v, order).Some?
    ensures var t := Collection(c, s, v, order).value; 
      Shows(t.(credits := t.credits + t.refill), LM.AfterCollect(c, a, v))
  {
    hide Inv, Core, CopyLine, LM.PutCopies, Mapped, Visits, IsOrder, LM.AfterCollect, CollectEnd, Erase, View,
      Elsewhere;
    CanCollectVictim(c, s, a, v);
    StartVisits(c, s, v, order);
    CollectBeginOk(c, s, v);
    var s1, n := CollectBegin(s, v), a.victims[v];
    var a1 := a.(victims := a.victims - {v}, refill := c.P - n);
    LM.PutNoCopies(c, a1);
    CopiesShow(c, v, s1, Ords(s.status[v], Valid), order, a1, 0);
    CopyLineIff(c, s, v, s1, Ords(s.status[v], Valid), order);
    EndShows(c, CopyLine(c, s1, v, order).value, v, LM.PutCopies(c, a1, n));
    AfterCollectIs(c, a, v);
  }
}
