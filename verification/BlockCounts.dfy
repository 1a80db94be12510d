// The page counters a flash block keeps beside those of its line (conv_ftl.c).  They change
// together with the page states, so that, unlike the counters of a line, they are exact even
// while the line is being collected.
module BlockCounts {
  import opened MixedRadix
  import opened Geometry
  import opened FtlModel

  // The states of the pages of block b, out of those of all pages.
  ghost function BlockRow(g: Geo, status: seq<Status>, b: nat): seq<Status> {
    seq(g.PgsPerBlk(), i requires 0 <= i < g.PgsPerBlk() =>
      if Mix(b, i, g.PgsPerBlk()) < |status| then status[Mix(b, i, g.PgsPerBlk())] else Free)
  }

  lemma BlockRowLength(g: Geo, status: seq<Status>, b: nat)
    ensures |BlockRow(g, status, b)| == g.PgsPerBlk()
  {
  }

  ghost predicate BlockOk(g: Geo, status: seq<Status>, vpc: int, ipc: int, b: nat) {
    vpc == |Ords(BlockRow(g, status, b), Valid)| && ipc == |Ords(BlockRow(g, status, b), Invalid)|
  }

  // Every block counts its valid and its invalid pages.
  ghost predicate BlocksOk(g: Geo, status: seq<Status>, vpc: seq<int>, ipc: seq<int>) {
    |vpc| == |ipc| && forall b: nat :: b < |vpc| ==> BlockOk(g, status, vpc[b], ipc[b], b)
  }

  lemma BlockRowUpdate(g: Geo, status: seq<Status>, p: Ppa, st: Status, b: nat)
    requires g.Valid() && ValidPpa(g, p) && Ppa2PgIdx(g, p) < |status|
    ensures |BlockRow(g, status, b)| == g.PgsPerBlk()
    ensures BlkIdx(g, p) == b ==> BlockRow(g, status, b)[p.pg] == status[Ppa2PgIdx(g, p)]
    ensures BlockRow(g, status[Ppa2PgIdx(g, p) := st], b) ==
      if b == BlkIdx(g, p) then BlockRow(g, status, b)[p.pg := st] else BlockRow(g, status, b)
  {
    BlkIdxOk(g, p);
    hide Ppa2PgIdx, BlkIdx, Geo.PgsPerBlk, Mix;
    var n, pb := Ppa2PgIdx(g, p), g.PgsPerBlk();
    var t := BlockRow(g, status[n := st], b);
    forall i: nat | i < pb ensures Mix(b, i, pb) == n <==> b == BlkIdx(g, p) && i == p.pg {
      if Mix(b, i, pb) == n { MixInjective(b, i, BlkIdx(g, p), p.pg, pb); }
    }
  }

  // What mark_page_valid may assert of the counters of the block.
  lemma FreePageCounted(g: Geo, status: seq<Status>, vpc: seq<int>, ipc: seq<int>, p: Ppa)
    requires g.Valid() && ValidPpa(g, p) && Ppa2PgIdx(g, p) < |status| && BlkIdx(g, p) < |vpc|
    requires BlocksOk(g, status, vpc, ipc) && status[Ppa2PgIdx(g, p)] == Free
    ensures 0 <= vpc[BlkIdx(g, p)] < g.PgsPerBlk()
    ensures var b := BlkIdx(g, p); BlocksOk(g, status[Ppa2PgIdx(g, p) := Valid], vpc[b := vpc[b] + 1], ipc)
  {
    hide Ppa2PgIdx, BlkIdx, Geo.PgsPerBlk, BlockRow, Ords;
    var b0, n := BlkIdx(g, p), Ppa2PgIdx(g, p);
    var row := BlockRow(g, status, b0);
    BlockRowUpdate(g, status, p, Valid, b0);
    OrdsUpdateSize(row, p.pg, Valid, Valid);
    OrdsUpdateSize(row, p.pg, Valid, Invalid);
    OrdsBound(row[p.pg := Valid], Valid);
    forall b: nat | b < |vpc| && b != b0 ensures BlockOk(g, status[n := Valid], vpc[b], ipc[b], b) {
      BlockRowUpdate(g, status, p, Valid, b);
      assert BlockOk(g, status, vpc[b], ipc[b], b);
    }
  }

  // What mark_page_invalid may assert of them.
  lemma ValidPageCounted(g: Geo, status: seq<Status>, vpc: seq<int>, ipc: seq<int>, p: Ppa)
    requires g.Valid() && ValidPpa(g, p) && Ppa2PgIdx(g, p) < |status| && BlkIdx(g, p) < |vpc|
    requires BlocksOk(g, status, vpc, ipc) && status[Ppa2PgIdx(g, p)] == Valid
    ensures 0 <= ipc[BlkIdx(g, p)] < g.PgsPerBlk() && 0 < vpc[BlkIdx(g, p)] <= g.PgsPerBlk()
    ensures var b := BlkIdx(g, p);
      BlocksOk(g, status[Ppa2PgIdx(g, p) := Invalid], vpc[b := vpc[b] - 1], ipc[b := ipc[b] + 1])
  {
    hide Ppa2PgIdx, BlkIdx, Geo.PgsPerBlk, BlockRow, Ords;
    var b0, n := BlkIdx(g, p), Ppa2PgIdx(g, p);
    var row := BlockRow(g, status, b0);
    BlockRowUpdate(g, status, p, Invalid, b0);
    OrdsUpdateSize(row, p.pg, Invalid, Valid);
    OrdsUpdateSize(row, p.pg, Invalid, Invalid);
    OrdsBound(row, Valid);
    OrdsBound(row[p.pg := Invalid], Invalid);
    forall b: nat | b < |vpc| && b != b0 ensures BlockOk(g, status[n := Invalid], vpc[b], ipc[b], b) {
      BlockRowUpdate(g, status, p, Invalid, b);
      assert BlockOk(g, status, vpc[b], ipc[b], b);
    }
  }

  // The block b0 is the only one in which the states differ, and all its pages are free.
  lemma ErasedBlockCounted(g: Geo, s: seq<Status>, t: seq<Status>, vpc: seq<int>, ipc: seq<int>, b0: nat)
    requires BlocksOk(g, s, vpc, ipc) && b0 < |vpc|
    requires AllAre(BlockRow(g, t, b0), Free)
    requires forall b: nat :: b < |vpc| && b != b0 ==> BlockRow(g, t, b) == BlockRow(g, s, b)
    ensures BlocksOk(g, t, vpc[b0 := 0], ipc[b0 := 0])
  {
    hide BlockRow;
    assert Ords(BlockRow(g, t, b0), Valid) == {} && Ords(BlockRow(g, t, b0), Invalid) == {};
    forall b: nat | b < |vpc| && b != b0 ensures BlockOk(g, t, vpc[b], ipc[b], b) {
      assert BlockOk(g, s, vpc[b], ipc[b], b);
    }
  }

  lemma BlankBlocksCounted(g: Geo, status: seq<Status>, vpc: seq<int>, ipc: seq<int>)
    requires AllAre(status, Free) && |vpc| == |ipc|
    requires forall b: nat :: b < |vpc| ==> vpc[b] == 0 && ipc[b] == 0
    ensures BlocksOk(g, status, vpc, ipc)
  {
    forall b: nat | b < |vpc| ensures BlockOk(g, status, vpc[b], ipc[b], b) {
      assert Ords(BlockRow(g, status, b), Valid) == {} && Ords(BlockRow(g, status, b), Invalid) == {};
    }
  }
}
