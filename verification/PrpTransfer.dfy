// Moving the data of a command between its PRP pages and the storage area (io.c): page by page,
// or with physically consecutive pages merged into one DMA transfer.  PRP entries are as in the
// NVM Express Base Specification 1.4, section 4.3.
module PrpTransfer {
  const PAGE_SIZE: nat := 4096

  // Entries of the array in which the DMA variant collects the addresses.
  const MAX_PRPS: nat := 512

  datatype Prp = Prp(prp1: nat, prp2: nat, list: seq<nat>)

  // Copying len bytes between the storage area at dev and physical memory at phys.
  datatype Copy = Copy(dev: nat, phys: nat, len: nat)

  function Min(a: nat, b: nat): nat {
    if a <= b then a else b
  }

  // What of the remaining bytes one page takes.
  function Chunk(paddr: nat, remaining: nat): (r: nat)
    ensures r <= remaining && (remaining > 0 ==> r > 0)
  {
    var io := Min(remaining, PAGE_SIZE);
    var offs := paddr % PAGE_SIZE;
    if offs != 0 && io + offs > PAGE_SIZE then PAGE_SIZE - offs else io
  }

  // Whether the second entry leads to a list.
  predicate UsesList(p: Prp, length: nat) {
    length - Chunk(p.prp1, length) > PAGE_SIZE
  }

  // The k-th page address, counted from 1.
  function Entry(p: Prp, length: nat, k: nat): nat {
    if k <= 1 then p.prp1
    else if k == 2 && !UsesList(p, length) then p.prp2
    else if k - 2 < |p.list| then p.list[k - 2] else 0
  }

  // The pages from the k-th on that the remaining bytes take.
  function Count(p: Prp, length: nat, k: nat, remaining: nat): nat
    decreases remaining
  {
    if remaining == 0 then 0 else 1 + Count(p, length, k + 1, remaining - Chunk(Entry(p, length, k), remaining))
  }

  // The entries that are needed are there.
  predicate Fits(p: Prp, length: nat) {
    Count(p, length, 1, length) - 1 <= if UsesList(p, length) then |p.list| else 1
  }

  // Only the first page may be entered in the middle.
  ghost predicate Aligned(p: Prp, length: nat) {
    forall k :: 2 <= k <= Count(p, length, 1, length) ==> Entry(p, length, k) % PAGE_SIZE == 0
  }

  // The page by page walk.
  function Walk(p: Prp, length: nat, k: nat, dev: nat, remaining: nat): seq<Copy>
    decreases remaining
  {
    if remaining == 0 then []
    else
      var c := Chunk(Entry(p, length, k), remaining);
      [Copy(dev, Entry(p, length, k), c)] + Walk(p, length, k + 1, dev + c, remaining - c)
  }

  // Which byte of the storage area meets which byte of memory, in order.
  function Pairs(dev: nat, phys: nat, len: nat): seq<(nat, nat)> {
    seq(len, i => (dev + i, phys + i))
  }

  function Bytes(cs: seq<Copy>): seq<(nat, nat)> {
    if cs == [] then [] else Pairs(cs[0].dev, cs[0].phys, cs[0].len) + Bytes(cs[1..])
  }

  lemma {:induction false} BytesConcat(a: seq<Copy>, b: seq<Copy>)
    ensures Bytes(a + b) == Bytes(a) + Bytes(b)
  {
    if a == [] {
      assert a + b == b;
    } else {
      assert (a + b)[1..] == a[1..] + b;
      BytesConcat(a[1..], b);
    }
  }

  lemma BytesOne(c: Copy)
    ensures Bytes([c]) == Pairs(c.dev, c.phys, c.len)
  {
    assert [c][1..] == [];
  }

  lemma PairsJoin(dev: nat, phys: nat, a: nat, b: nat)
    ensures Pairs(dev, phys, a) + Pairs(dev + a, phys + a, b) == Pairs(dev, phys, a + b)
  {
  }

  // The walk moves each byte of the request once, in the order of the storage area.
  lemma {:induction false} WalkCovers(p: Prp, length: nat, k: nat, dev: nat, remaining: nat)
    ensures var b := Bytes(Walk(p, length, k, dev, remaining));
      |b| == remaining && forall i :: 0 <= i < remaining ==> b[i].0 == dev + i
    decreases remaining
  {
    if remaining == 0 {
    } else {
      var c := Chunk(Entry(p, length, k), remaining);
      WalkCovers(p, length, k + 1, dev + c, remaining - c);
      assert Walk(p, length, k, dev, remaining)[1..] == Walk(p, length, k + 1, dev + c, remaining - c);
    }
  }

  // Each copy starts at its own entry, ends no later than the page it starts in, and fills that
  // page unless it is the last; the copies follow each other in the storage area.
  lemma {:induction false} WalkFollowsPages(p: Prp, length: nat, k: nat, dev: nat, remaining: nat, n: nat)
    requires n < |Walk(p, length, k, dev, remaining)|
    ensures var w := Walk(p, length, k, dev, remaining); var c := w[n];
      && c.phys == Entry(p, length, k + n) && 0 < c.len && c.phys % PAGE_SIZE + c.len <= PAGE_SIZE
      && (n == 0 ==> c.dev == dev)
      && (n + 1 < |w| ==> c.phys % PAGE_SIZE + c.len == PAGE_SIZE && w[n + 1].dev == c.dev + c.len)
      && (n + 1 == |w| ==> c.dev + c.len == dev + remaining)
    decreases remaining
  {
    var c := Chunk(Entry(p, length, k), remaining);
    var rest := Walk(p, length, k + 1, dev + c, remaining - c);
    assert Walk(p, length, k, dev, remaining) == [Copy(dev, Entry(p, length, k), c)] + rest;
    if n > 0 {
      WalkFollowsPages(p, length, k + 1, dev + c, remaining - c, n - 1);
    } else if rest != [] {
      WalkFollowsPages(p, length, k + 1, dev + c, remaining - c, 0);
    }
  }

  // ----- Where each byte belongs -----

  // The q-th page behind the first one of a command: the second entry is that page itself if no
  // more than a page is left for it, and the address of a list of pages otherwise.
  function PageBehind(p: Prp, length: nat, q: nat): nat {
    if length <= 2 * PAGE_SIZE - p.prp1 % PAGE_SIZE then p.prp2
    else if q < |p.list| then p.list[q] else 0
  }

  // Where byte i of a command lies in memory.
  function ByteAt(p: Prp, length: nat, i: nat): nat {
    var first := PAGE_SIZE - p.prp1 % PAGE_SIZE;
    if i < first then p.prp1 + i
    else PageBehind(p, length, (i - first) / PAGE_SIZE) + (i - first) % PAGE_SIZE
  }

  // The pages from the k-th on are entered at their beginning.
  lemma {:induction false} WholePages(p: Prp, length: nat, k: nat, dev: nat, remaining: nat, i: nat)
    requires i < remaining
    requires forall j: nat :: k <= j < k + Count(p, length, k, remaining) ==> Entry(p, length, j) % PAGE_SIZE == 0
    ensures |Bytes(Walk(p, length, k, dev, remaining))| == remaining
    ensures Bytes(Walk(p, length, k, dev, remaining))[i] ==
            (dev + i, Entry(p, length, k + i / PAGE_SIZE) + i % PAGE_SIZE)
    decreases remaining
  {
    WalkCovers(p, length, k, dev, remaining);
    WalkStep(p, length, k, dev, remaining);
    CountStep(p, length, k, remaining);
    assert Entry(p, length, k) % PAGE_SIZE == 0;
    var c := Chunk(Entry(p, length, k), remaining);
    if i >= PAGE_SIZE {
      WholePages(p, length, k + 1, dev + c, remaining - c, i - c);
    }
  }

  // The walk takes each byte of the request to where it belongs.
  lemma WalkMovesBytes(p: Prp, offset: nat, length: nat, i: nat)
    requires Aligned(p, length) && i < length
    ensures |Bytes(Walk(p, length, 1, offset, length))| == length
    ensures Bytes(Walk(p, length, 1, offset, length))[i] == (offset + i, ByteAt(p, length, i))
  {
    WalkCovers(p, length, 1, offset, length);
    WalkStep(p, length, 1, offset, length);
    CountStep(p, length, 1, length);
    var c := Chunk(p.prp1, length);
    if i >= c {
      WholePages(p, length, 2, offset + c, length - c, i - c);
    }
  }

  lemma WalkStep(p: Prp, length: nat, k: nat, dev: nat, remaining: nat)
    requires remaining > 0
    ensures var c := Chunk(Entry(p, length, k), remaining);
      Bytes(Walk(p, length, k, dev, remaining)) ==
      Pairs(dev, Entry(p, length, k), c) + Bytes(Walk(p, length, k + 1, dev + c, remaining - c))
  {
    var c := Chunk(Entry(p, length, k), remaining);
    assert Walk(p, length, k, dev, remaining)[1..] == Walk(p, length, k + 1, dev + c, remaining - c);
  }

  // A page that continues the run lengthens it, as far as bytes are left.
  lemma RunGrows(p: Prp, length: nat, k: nat, dev: nat, remaining: nat, paddr: nat, size: nat)
    requires size < remaining && Entry(p, length, k) == paddr + size && Entry(p, length, k) % PAGE_SIZE == 0
    ensures var more := Min(remaining, size + PAGE_SIZE);
      Pairs(dev, paddr, size) + Bytes(Walk(p, length, k, dev + size, remaining - size)) ==
      Pairs(dev, paddr, more) + Bytes(Walk(p, length, k + 1, dev + more, remaining - more))
    ensures Count(p, length, k, remaining - size) ==
            1 + Count(p, length, k + 1, remaining - Min(remaining, size + PAGE_SIZE))
  {
    WalkStep(p, length, k, dev + size, remaining - size);
    PairsJoin(dev, paddr, size, Min(remaining - size, PAGE_SIZE));
  }

  lemma CountStep(p: Prp, length: nat, k: nat, remaining: nat)
    ensures remaining == 0 ==> Count(p, length, k, remaining) == 0
    ensures remaining > 0 ==> Count(p, length, k, remaining) ==
                              1 + Count(p, length, k + 1, remaining - Chunk(Entry(p, length, k), remaining))
  {
  }

  lemma WalkNext(p: Prp, length: nat, k: nat, dev: nat, remaining: nat, before: seq<Copy>)
    ensures remaining == 0 ==> before + Walk(p, length, k, dev, remaining) == before
    ensures remaining > 0 ==> var c := Chunk(Entry(p, length, k), remaining);
      before + Walk(p, length, k, dev, remaining) ==
      before + [Copy(dev, Entry(p, length, k), c)] + Walk(p, length, k + 1, dev + c, remaining - c)
  {
  }

  // __do_perform_io: the copies it makes for a command of `length` bytes at `offset`, and how many
  // bytes it says it moved.
  method PerformIo(p: Prp, offset: nat, length: nat, storageSize: nat) returns (copies: seq<Copy>, done: nat)
    requires offset + length <= storageSize ==> Fits(p, length)
    ensures copies == if offset + length > storageSize then [] else Walk(p, length, 1, offset, length)
    ensures done == if offset + length > storageSize then 0 else length
  {
    hide Walk, Count;
    if offset + length > storageSize {
      return [], 0;
    }
    done := length;
    var remaining: nat, dev: nat, prpOffs: nat, prp2Offs: nat := length, offset, 0, 0;
    var listed := false;
    copies := [];
    WalkNext(p, length, 1, offset, length, []);
    while remaining > 0
      invariant remaining <= length && prpOffs + Count(p, length, prpOffs + 1, remaining) == Count(p, length, 1, length)
      invariant copies + Walk(p, length, prpOffs + 1, dev, remaining) == Walk(p, length, 1, offset, length)
      invariant prpOffs == 0 ==> remaining == length
      invariant prpOffs == 1 ==> remaining == length - Chunk(p.prp1, length)
      invariant prpOffs >= 2 ==> listed == UsesList(p, length) && (listed ==> prp2Offs == prpOffs - 1)
      invariant prpOffs >= 2 && !listed ==> remaining == 0
      invariant prpOffs < 2 ==> prp2Offs == 0 && !listed
    {
      CountStep(p, length, prpOffs + 1, remaining);
      WalkNext(p, length, prpOffs + 1, dev, remaining, copies);
      var paddr: nat;
      prpOffs := prpOffs + 1;
      if prpOffs == 1 {
        paddr := p.prp1;
      } else if prpOffs == 2 {
        paddr := p.prp2;
        if remaining > PAGE_SIZE {
          listed := true;
          paddr := p.list[prp2Offs];
          prp2Offs := prp2Offs + 1;
        }
      } else {
        paddr := p.list[prp2Offs];
        prp2Offs := prp2Offs + 1;
      }
      assert paddr == Entry(p, length, prpOffs);
      var ioSize: nat := Min(remaining, PAGE_SIZE);
      var memOffs := paddr % PAGE_SIZE;
      if memOffs != 0 && ioSize + memOffs > PAGE_SIZE {
        ioSize := PAGE_SIZE - memOffs;
      }
      copies := copies + [Copy(dev, paddr, ioSize)];
      remaining := remaining - ioSize;
      dev := dev + ioSize;
      CountStep(p, length, prpOffs + 1, remaining);
    }
    WalkNext(p, length, prpOffs + 1, dev, 0, copies);
  }

  // The first loop of __do_perform_io_using_dma, which only collects the addresses.
  method CollectPrps(p: Prp, length: nat) returns (paddrs: seq<nat>)
    requires Fits(p, length) && Count(p, length, 1, length) <= MAX_PRPS
    ensures |paddrs| == Count(p, length, 1, length) + 1 <= MAX_PRPS + 1
    ensures forall k :: 1 <= k < |paddrs| ==> paddrs[k] == Entry(p, length, k)
  {
    hide Count;
    var remaining: nat, prpOffs: nat, prp2Offs: nat := length, 0, 0;
    var listed := false;
    paddrs := [0];
    while remaining > 0
      invariant remaining <= length && prpOffs + Count(p, length, prpOffs + 1, remaining) == Count(p, length, 1, length)
      invariant |paddrs| == prpOffs + 1 && forall k :: 1 <= k <= prpOffs ==> paddrs[k] == Entry(p, length, k)
      invariant prpOffs == 0 ==> remaining == length
      invariant prpOffs == 1 ==> remaining == length - Chunk(p.prp1, length)
      invariant prpOffs >= 2 ==> listed == UsesList(p, length) && (listed ==> prp2Offs == prpOffs - 1)
      invariant prpOffs >= 2 && !listed ==> remaining == 0
      invariant prpOffs < 2 ==> prp2Offs == 0 && !listed
    {
      CountStep(p, length, prpOffs + 1, remaining);
      var paddr: nat;
      prpOffs := prpOffs + 1;
      if prpOffs == 1 {
        paddr := p.prp1;
      } else if prpOffs == 2 {
        paddr := p.prp2;
        if remaining > PAGE_SIZE {
          listed := true;
          paddr := p.list[prp2Offs];
          prp2Offs := prp2Offs + 1;
        }
      } else {
        paddr := p.list[prp2Offs];
        prp2Offs := prp2Offs + 1;
      }
      assert paddr == Entry(p, length, prpOffs);
      paddrs := paddrs + [paddr];
      var ioSize: nat := Min(remaining, PAGE_SIZE);
      var memOffs := paddr % PAGE_SIZE;
      if memOffs != 0 && ioSize + memOffs > PAGE_SIZE {
        ioSize := PAGE_SIZE - memOffs;
      }
      remaining := remaining - ioSize;
      CountStep(p, length, prpOffs + 1, remaining);
    }
    CountStep(p, length, prpOffs + 1, 0);
  }

  lemma BytesNone(p: Prp, length: nat, k: nat, dev: nat)
    ensures Bytes([]) == [] && Bytes(Walk(p, length, k, dev, 0)) == []
  {
  }

  lemma ChunkWhole(paddr: nat, remaining: nat)
    ensures paddr % PAGE_SIZE == 0 && Chunk(paddr, remaining) < remaining ==> Chunk(paddr, remaining) == PAGE_SIZE
  {
  }

  lemma AlignedAt(p: Prp, length: nat, k: nat)
    requires Aligned(p, length) && 2 <= k <= Count(p, length, 1, length)
    ensures Entry(p, length, k) % PAGE_SIZE == 0
  {
  }

  // __do_perform_io_using_dma moves exactly the bytes the page by page walk moves, in the same
  // order.
  method PerformIoUsingDma(p: Prp, offset: nat, length: nat) returns (copies: seq<Copy>)
    requires Fits(p, length) && Aligned(p, length) && Count(p, length, 1, length) <= MAX_PRPS
    ensures Bytes(copies) == Bytes(Walk(p, length, 1, offset, length))
  {
    hide Bytes, Walk, Count, Entry, Aligned, Fits, Pairs;
    var paddrs := CollectPrps(p, length);
    var remaining: nat, dev: nat, prpOffs: nat := length, offset, 1;
    copies := [];
    BytesNone(p, length, 1, offset);
    while remaining > 0
      invariant remaining <= length && 1 <= prpOffs
      invariant prpOffs - 1 + Count(p, length, prpOffs, remaining) == Count(p, length, 1, length)
      invariant Bytes(copies) + Bytes(Walk(p, length, prpOffs, dev, remaining)) ==
                Bytes(Walk(p, length, 1, offset, length))
    {
      CountStep(p, length, prpOffs, remaining);
      var paddr := paddrs[prpOffs];
      var ioSize;
      ioSize, prpOffs := MergeRun(p, length, paddrs, prpOffs, dev, remaining);
      BytesConcat(copies, [Copy(dev, paddr, ioSize)]);
      BytesOne(Copy(dev, paddr, ioSize));
      copies := copies + [Copy(dev, paddr, ioSize)];
      remaining := remaining - ioSize;
      dev := dev + ioSize;
    }
    BytesNone(p, length, prpOffs, dev);
  }

  // One turn of its second loop: how many bytes the run of consecutive pages from the k-th on
  // takes, and the page after it.
  method MergeRun(p: Prp, length: nat, paddrs: seq<nat>, k: nat, ghost dev: nat, remaining: nat)
    returns (ioSize: nat, next: nat)
    requires Aligned(p, length) && 1 <= k && 0 < remaining
    requires |paddrs| == Count(p, length, 1, length) + 1
    requires forall i :: 1 <= i < |paddrs| ==> paddrs[i] == Entry(p, length, i)
    requires k - 1 + Count(p, length, k, remaining) == Count(p, length, 1, length)
    ensures 0 < ioSize <= remaining && k < next
    ensures next - 1 + Count(p, length, next, remaining - ioSize) == Count(p, length, 1, length)
    ensures Bytes(Walk(p, length, k, dev, remaining)) ==
            Pairs(dev, Entry(p, length, k), ioSize) + Bytes(Walk(p, length, next, dev + ioSize, remaining - ioSize))
  {
    hide Bytes, Walk, Count, Entry, Aligned, Pairs, Chunk;
    CountStep(p, length, k, remaining);
    var paddr := paddrs[k];
    var pageSize: nat := Chunk(paddr, remaining);
    ChunkWhole(paddr, remaining);
    WalkStep(p, length, k, dev, remaining);
    next := k + 1;
    while next < |paddrs| && paddrs[next] == paddrs[next - 1] + PAGE_SIZE
      invariant k < next <= |paddrs| && 0 < pageSize
      invariant next - 1 + Count(p, length, next, remaining - Min(remaining, pageSize)) == Count(p, length, 1, length)
      invariant Bytes(Walk(p, length, k, dev, remaining)) ==
        Pairs(dev, paddr, Min(remaining, pageSize)) +
        Bytes(Walk(p, length, next, dev + Min(remaining, pageSize), remaining - Min(remaining, pageSize)))
      invariant pageSize < remaining && paddrs[next - 1] % PAGE_SIZE == 0 ==>
                  paddrs[next - 1] + PAGE_SIZE == paddr + pageSize
    {
      CountStep(p, length, next, remaining - Min(remaining, pageSize));
      assert pageSize < remaining;
      AlignedAt(p, length, next);
      RunGrows(p, length, next, dev, remaining, paddr, pageSize);
      pageSize := pageSize + PAGE_SIZE;
      next := next + 1;
    }
    ioSize := Min(remaining, pageSize);
  }
}
