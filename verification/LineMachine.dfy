// The FTL reduced to counts: how far the two open lines are filled and how many of their pages
// are valid, and how many pages of each victim are.  All other closed lines are full.  A run of
// this machine tells which lines to overwrite; module FtlLimits turns it into a run of the FTL.
module LineMachine {
  import opened FtlModel
  import opened FtlRuns

  datatype Lines = Lines(
    free: seq<nat>,
    wp: Page,
    wpc: nat,
    gcWp: Page,
    gpc: nat,
    victims: map<nat, nat>,
    credits: int,
    refill: int,
    used: nat)

  // Where the page that a host write replaces is.
  datatype Spot = Nowhere | OnHost | OnCopy | OnVictim(line: nat) | OnFull(line: nat)

  // Write: one page of the host.  Refill: the credits are used up; collect a victim or not.
  datatype Event = Write(spot: Spot) | Collect(line: nat) | Refill

  predicate CanTake(c: Config, a: Lines, p: Spot) {
    match p
    case Nowhere => true
    case OnHost => a.wpc > 0
    case OnCopy => a.gpc > 0
    case OnVictim(l) => l in a.victims && a.victims[l] > 0
    case OnFull(l) => l < c.T && l !in a.free && l != a.wp.line && l != a.gcWp.line && l !in a.victims
  }

  function Take(c: Config, a: Lines, p: Spot): Lines
    requires c.P >= 1 && CanTake(c, a, p)
  {
    match p
    case Nowhere => a.(used := a.used + 1)
    case OnHost => a.(wpc := a.wpc - 1)
    case OnCopy => a.(gpc := a.gpc - 1)
    case OnVictim(l) => a.(victims := a.victims[l := a.victims[l] - 1])
    case OnFull(l) => a.(victims := a.victims[l := c.P - 1])
  }

  function Retire(c: Config, a: Lines, line: nat, count: nat): Lines {
    if count == c.P then a else a.(victims := a.victims[line := count])
  }

  function PutHost(c: Config, a: Lines): Lines
    requires a.wp.ord + 1 == c.P ==> a.free != []
  {
    if a.wp.ord + 1 != c.P then a.(wp := Page(a.wp.line, a.wp.ord + 1), wpc := a.wpc + 1)
    else Retire(c, a, a.wp.line, a.wpc + 1).(wp := Page(a.free[0], 0), wpc := 0, free := a.free[1..])
  }

  function PutCopy(c: Config, a: Lines): Lines
    requires a.gcWp.ord + 1 == c.P ==> a.free != []
  {
    if a.gcWp.ord + 1 != c.P then a.(gcWp := Page(a.gcWp.line, a.gcWp.ord + 1), gpc := a.gpc + 1)
    else Retire(c, a, a.gcWp.line, a.gpc + 1).(gcWp := Page(a.free[0], 0), gpc := 0, free := a.free[1..])
  }

  predicate CanWriteTo(c: Config, a: Lines, p: Spot) {
    c.P >= 1 && CanTake(c, a, p) && (a.wp.ord + 1 == c.P ==> a.free != [])
  }

  function WriteTo(c: Config, a: Lines, p: Spot): Lines
    requires CanWriteTo(c, a, p)
  {
    var b := PutHost(c, Take(c, a, p));
    b.(credits := b.credits - 1)
  }

  // n pages through the copy pointer, which turns to a new line at most once.
  function PutCopies(c: Config, a: Lines, n: nat): Lines
    requires n < c.P && a.gcWp.ord < c.P
    requires a.gcWp.ord + n >= c.P ==> a.free != []
  {
    var room := c.P - a.gcWp.ord;
    if n < room then a.(gcWp := Page(a.gcWp.line, a.gcWp.ord + n), gpc := a.gpc + n)
    else
      Retire(c, a, a.gcWp.line, a.gpc + room).(
        gcWp := Page(a.free[0], n - room), gpc := n - room, free := a.free[1..])
  }

  lemma PutCopiesStep(c: Config, a: Lines, n: nat)
    requires n + 1 < c.P && a.gcWp.ord < c.P
    requires a.gcWp.ord + n + 1 >= c.P ==> a.free != []
    ensures var b := PutCopies(c, a, n); b.gcWp.ord + 1 == c.P ==> b.free != []
    ensures PutCopies(c, a, n + 1) == PutCopy(c, PutCopies(c, a, n))
  {
  }

  lemma PutNoCopies(c: Config, a: Lines)
    requires a.gcWp.ord < c.P
    ensures PutCopies(c, a, 0) == a
  {
  }

  // v is the only line the code can choose.
  predicate CanCollect(c: Config, a: Lines, v: nat) {
    && |a.free| <= GC_THRES_LINES_HIGH
    && v in a.victims && (forall u :: u in a.victims && u != v ==> a.victims[v] < a.victims[u])
    && a.victims[v] < c.P && a.gcWp.ord < c.P
    && (a.gcWp.ord + a.victims[v] >= c.P ==> a.free != [])
  }

  function AfterCollect(c: Config, a: Lines, v: nat): Lines
    requires CanCollect(c, a, v)
  {
    var n := a.victims[v];
    var b := PutCopies(c, a.(victims := a.victims - {v}), n);
    b.(free := b.free + [v], refill := c.P - n, credits := a.credits + c.P - n)
  }

  predicate Can(c: Config, a: Lines, e: Event) {
    match e
    case Write(p) => a.credits > 0 && CanWriteTo(c, a, p)
    case Collect(v) => a.credits == 0 && CanCollect(c, a, v)
    case Refill => a.credits == 0 && (a.victims == map[] || |a.free| > GC_THRES_LINES_HIGH)
  }

  function After(c: Config, a: Lines, e: Event): Lines
    requires Can(c, a, e)
  {
    match e
    case Write(p) => WriteTo(c, a, p)
    case Collect(v) => AfterCollect(c, a, v)
    case Refill => a.(credits := a.credits + a.refill)
  }

  // The events es lead from a to b.
  predicate Trace(c: Config, a: Lines, es: seq<Event>, b: Lines)
    decreases |es|
  {
    if es == [] then a == b
    else Can(c, a, es[0]) && Trace(c, After(c, a, es[0]), es[1..], b)
  }

  ghost predicate Leads(c: Config, a: Lines, b: Lines) {
    exists es :: Trace(c, a, es, b)
  }

  lemma {:induction false} TraceConcat(c: Config, a: Lines, es: seq<Event>, b: Lines, fs: seq<Event>, d: Lines)
    requires Trace(c, a, es, b) && Trace(c, b, fs, d)
    ensures Trace(c, a, es + fs, d)
    decreases |es|
  {
    hide Can, After;
    if es == [] {
      assert es + fs == fs;
    } else {
      TraceConcat(c, After(c, a, es[0]), es[1..], b, fs, d);
      assert (es + fs)[1..] == es[1..] + fs;
    }
  }

  lemma Then(c: Config, a: Lines, b: Lines, d: Lines)
    requires Leads(c, a, b) && Leads(c, b, d)
    ensures Leads(c, a, d)
  {
    hide Trace;
    var es :| Trace(c, a, es, b);
    var fs :| Trace(c, b, fs, d);
    TraceConcat(c, a, es, b, fs, d);
  }

  lemma Once(c: Config, a: Lines, e: Event)
    requires Can(c, a, e)
    ensures Leads(c, a, After(c, a, e))
  {
    hide Can, After;
    assert Trace(c, a, [e], After(c, a, e)) by {
      assert [e][1..] == [];
    }
  }

  lemma Stay(c: Config, a: Lines)
    ensures Leads(c, a, a)
  {
    assert Trace(c, a, [], a);
  }
}
