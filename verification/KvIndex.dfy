// The key index of kv_ftl.c: a hash table whose entries chain on through next_slot when their
// home slot is taken (coalesced hashing), and the finite map it stands for.  Keys have one
// fixed length.
module KvTable {
  // mapping_entry; -1 marks a free slot and the end of a chain.
  datatype Entry<K> = Entry(key: K, memOffset: int, nextSlot: int, length: nat)

  // Where a value lies.
  datatype Extent = Extent(offset: nat, length: nat)

  predicate Taken<K>(t: seq<Entry<K>>, s: nat) {
    s < |t| && t[s].memOffset != -1
  }

  // ----- Every chain ends -----

  // Links lead to slots of higher rank, and a free slot has none.
  ghost predicate Ranked<K>(t: seq<Entry<K>>, rank: seq<nat>, top: nat) {
    && |rank| == |t| && (forall s :: 0 <= s < |rank| ==> rank[s] <= top)
    && (forall s :: 0 <= s < |t| ==> t[s].memOffset >= -1 && -1 <= t[s].nextSlot < |t|)
    && (forall s :: 0 <= s < |t| && t[s].nextSlot >= 0 ==> rank[s] < rank[t[s].nextSlot])
    && (forall s :: 0 <= s < |t| && t[s].memOffset == -1 ==> t[s].nextSlot == -1)
  }

  // p follows the links from its first to its last slot.
  ghost predicate Path<K>(t: seq<Entry<K>>, p: seq<nat>) {
    && p != [] && (forall i :: 0 <= i < |p| ==> p[i] < |t|)
    && (forall i :: 0 <= i < |p| - 1 ==> Taken(t, p[i]) && t[p[i]].nextSlot == p[i + 1])
  }

  ghost predicate From(p: seq<nat>, a: nat, b: nat) {
    p != [] && p[0] == a && p[|p| - 1] == b
  }

  ghost predicate Reach<K>(t: seq<Entry<K>>, a: nat, b: nat) {
    exists p :: Path(t, p) && From(p, a, b)
  }

  // Ranks grow along a path, so no slot comes twice: the links have no cycle.
  lemma {:induction false} PathAscends<K>(t: seq<Entry<K>>, rank: seq<nat>, top: nat, p: seq<nat>, i: nat, j: nat)
    requires Ranked(t, rank, top) && Path(t, p) && i < j < |p|
    ensures rank[p[i]] < rank[p[j]] && p[i] != p[j]
  {
    if j <= i + 1 {
    } else {
      PathAscends(t, rank, top, p, i, j - 1);
    }
    assert t[p[j - 1]].nextSlot == p[j - 1 + 1];
  }

  lemma NoCycle<K>(t: seq<Entry<K>>, rank: seq<nat>, top: nat, p: seq<nat>)
    requires Ranked(t, rank, top) && Path(t, p) && |p| > 1
    ensures p[0] != p[|p| - 1]
  {
    PathAscends(t, rank, top, p, 0, |p| - 1);
  }

  // ----- The map -----

  function Home(n: nat, h: nat): nat
    requires 0 < n
  {
    h % n
  }

  // A taken slot holds its key's entry of the map, and each key of the map has one slot.
  ghost predicate Stored<K(!new)>(t: seq<Entry<K>>, m: map<K, Extent>) {
    && (forall s: nat :: Taken(t, s) ==> HoldsOf(t, s, m))
    && (forall r: nat, s: nat :: Taken(t, r) && Taken(t, s) && t[r].key == t[s].key ==> r == s)
    && (forall k :: k in m ==> HasKey(t, k))
  }

  ghost predicate HoldsOf<K>(t: seq<Entry<K>>, s: nat, m: map<K, Extent>)
    requires Taken(t, s)
  {
    t[s].memOffset >= 0 && t[s].key in m && m[t[s].key] == Extent(t[s].memOffset, t[s].length)
  }

  ghost predicate HasKey<K>(t: seq<Entry<K>>, k: K) {
    exists s: nat :: Taken(t, s) && t[s].key == k
  }

  // Every entry is found by following the links from the home slot of its key.
  ghost predicate Found<K>(t: seq<Entry<K>>, hash: K -> nat) {
    0 < |t| && forall s: nat :: Taken(t, s) ==> Reach(t, Home(|t|, hash(t[s].key)), s)
  }

  ghost predicate Refines<K(!new)>(t: seq<Entry<K>>, hash: K -> nat, m: map<K, Extent>) {
    Stored(t, m) && Found(t, hash)
  }

  // ----- Insertion -----

  // The new entry goes to slot; prev, if any, is the end of the chain it continues.
  function Inserted<K>(t: seq<Entry<K>>, slot: nat, prev: int, k: K, e: Extent): seq<Entry<K>>
    requires slot < |t| && -1 <= prev < |t|
  {
    var t1 := t[slot := t[slot].(key := k, memOffset := e.offset, length := e.length)];
    if prev == -1 then t1 else t1[prev := t1[prev].(nextSlot := slot)]
  }

  // The end of a chain: a taken slot from which no link leads to a taken one.
  ghost predicate ChainEnd<K>(t: seq<Entry<K>>, s: nat) {
    Taken(t, s) && (t[s].nextSlot < 0 || !Taken(t, t[s].nextSlot))
  }

  lemma InsertedRanked<K>(t: seq<Entry<K>>, rank: seq<nat>, top: nat, slot: nat, prev: int, k: K, e: Extent)
    requires Ranked(t, rank, top) && slot < |t| && !Taken(t, slot)
    requires prev == -1 || (0 <= prev < |t| && ChainEnd(t, prev))
    ensures |rank| == |t| && Ranked(Inserted(t, slot, prev, k, e), rank[slot := top + 1], top + 1)
  {
  }

  // A path between taken slots does not notice a change of links out of chain ends.
  lemma PathStays<K>(t: seq<Entry<K>>, after: seq<Entry<K>>, p: seq<nat>)
    requires Path(t, p) && Taken(t, p[|p| - 1]) && |after| == |t|
    requires forall s: nat :: Taken(t, s) && !ChainEnd(t, s) ==> Taken(after, s) && after[s].nextSlot == t[s].nextSlot
    ensures Path(after, p)
  {
    forall i | 0 <= i < |p| - 1 ensures Taken(after, p[i]) && after[p[i]].nextSlot == p[i + 1] {
      assert Taken(t, p[i]) && t[p[i]].nextSlot == p[i + 1];
      assert Taken(t, p[i + 1]);
    }
  }

  lemma ReachStays<K>(t: seq<Entry<K>>, after: seq<Entry<K>>, a: nat, b: nat)
    requires Reach(t, a, b) && Taken(t, b) && |after| == |t|
    requires forall s: nat :: Taken(t, s) && !ChainEnd(t, s) ==> Taken(after, s) && after[s].nextSlot == t[s].nextSlot
    ensures Reach(after, a, b)
  {
    var p :| Path(t, p) && From(p, a, b);
    PathStays(t, after, p);
  }

  lemma ReachMore<K>(t: seq<Entry<K>>, a: nat, b: nat, c: nat)
    requires Reach(t, a, b) && Taken(t, b) && t[b].nextSlot == c && c < |t|
    ensures Reach(t, a, c)
  {
    var p :| Path(t, p) && From(p, a, b);
    var q := p + [c];
    forall i | 0 <= i < |q| - 1 ensures Taken(t, q[i]) && t[q[i]].nextSlot == q[i + 1] {
      if i < |p| - 1 { assert t[p[i]].nextSlot == p[i + 1]; }
    }
    assert Path(t, q) && From(q, a, c);
  }

  lemma ReachSelf<K>(t: seq<Entry<K>>, a: nat)
    requires a < |t|
    ensures Reach(t, a, a)
  {
    assert Path(t, [a]) && From([a], a, a);
  }

  lemma InsertStored<K(!new)>(t: seq<Entry<K>>, m: map<K, Extent>, slot: nat, prev: int, k: K, e: Extent)
    requires Stored(t, m) && k !in m && slot < |t| && !Taken(t, slot) && -1 <= prev < |t| && prev != slot
    ensures Stored(Inserted(t, slot, prev, k, e), m[k := e])
  {
    var u, m' := Inserted(t, slot, prev, k, e), m[k := e];
    forall s: nat | Taken(u, s)
      ensures HoldsOf(u, s, m') && (s != slot ==> Taken(t, s) && u[s].key == t[s].key && t[s].key in m)
    {
      if s != slot { assert Taken(t, s) && HoldsOf(t, s, m); }
    }
    forall j | j in m' ensures HasKey(u, j) {
      if j == k {
        assert Taken(u, slot) && u[slot].key == k;
      } else {
        assert HasKey(t, j);
        var s: nat :| Taken(t, s) && t[s].key == j;
        assert Taken(u, s) && u[s].key == j;
      }
    }
  }

  lemma InsertFound<K>(t: seq<Entry<K>>, hash: K -> nat, slot: nat, prev: int, k: K, e: Extent)
    requires Found(t, hash) && slot < |t| && !Taken(t, slot)
    requires if prev == -1 then slot == Home(|t|, hash(k))
             else 0 <= prev < |t| && ChainEnd(t, prev) && Reach(t, Home(|t|, hash(k)), prev)
    ensures Found(Inserted(t, slot, prev, k, e), hash)
  {
    var u := Inserted(t, slot, prev, k, e);
    var home := Home(|t|, hash(k));
    forall s: nat | Taken(u, s) ensures Reach(u, Home(|t|, hash(u[s].key)), s) {
      if s != slot {
        assert Taken(t, s) && t[s].key == u[s].key;
        ReachStays(t, u, Home(|t|, hash(t[s].key)), s);
      } else if prev == -1 {
        ReachSelf(u, slot);
      } else {
        ReachStays(t, u, home, prev);
        ReachMore(u, home, prev, slot);
      }
    }
  }

  // Insertion of a key that is not stored adds it to the map.
  lemma InsertRefines<K(!new)>(t: seq<Entry<K>>, hash: K -> nat, m: map<K, Extent>, slot: nat, prev: int, k: K,
                               e: Extent)
    requires Refines(t, hash, m) && k !in m && slot < |t| && !Taken(t, slot)
    requires if prev == -1 then slot == Home(|t|, hash(k))
             else 0 <= prev < |t| && ChainEnd(t, prev) && Reach(t, Home(|t|, hash(k)), prev)
    ensures Refines(Inserted(t, slot, prev, k, e), hash, m[k := e])
  {
    InsertStored(t, m, slot, prev, k, e);
    InsertFound(t, hash, slot, prev, k, e);
  }

  // ----- Deletion -----

  // delete_mapping_entry wipes the slot, link and all.
  function Wiped<K>(t: seq<Entry<K>>, s: nat): seq<Entry<K>>
    requires s < |t|
  {
    t[s := Entry(t[s].key, -1, -1, t[s].length)]
  }

  lemma WipedRanked<K>(t: seq<Entry<K>>, rank: seq<nat>, top: nat, s: nat)
    requires Ranked(t, rank, top) && s < |t|
    ensures Ranked(Wiped(t, s), rank, top)
  {
  }

  // Some other entry is only found by passing slot s.
  ghost predicate IsPassed<K>(t: seq<Entry<K>>, hash: K -> nat, s: nat) {
    0 < |t| && exists j: nat :: PassedBy(t, hash, s, j)
  }

  ghost predicate PassedBy<K>(t: seq<Entry<K>>, hash: K -> nat, s: nat, j: nat)
    requires 0 < |t|
  {
    Taken(t, j) && j != s && Reach(t, Home(|t|, hash(t[j].key)), s) && Reach(t, s, j)
  }

  // The links of the table after a wipe are links of the table before it.
  lemma PathBefore<K>(t: seq<Entry<K>>, s: nat, p: seq<nat>)
    requires s < |t| && Path(Wiped(t, s), p)
    ensures Path(t, p) && forall i :: 0 <= i < |p| - 1 ==> p[i] != s
  {
    var u := Wiped(t, s);
    forall i | 0 <= i < |p| - 1 ensures Taken(t, p[i]) && t[p[i]].nextSlot == p[i + 1] && p[i] != s {
      assert Taken(u, p[i]) && u[p[i]].nextSlot == p[i + 1];
    }
  }

  // From one slot there is one way on.
  lemma {:induction false} OneWay<K>(t: seq<Entry<K>>, p: seq<nat>, q: seq<nat>, i: nat)
    requires Path(t, p) && Path(t, q) && p[0] == q[0] && i < |p| && i < |q|
    ensures p[i] == q[i]
  {
    if i == 0 {
    } else {
      OneWay(t, p, q, i - 1);
      assert t[p[i - 1]].nextSlot == p[i - 1 + 1];
      assert t[q[i - 1]].nextSlot == q[i - 1 + 1];
    }
  }

  lemma JoinPaths<K>(t: seq<Entry<K>>, p: seq<nat>, q: seq<nat>) returns (r: seq<nat>)
    requires Path(t, p) && Path(t, q) && p[|p| - 1] == q[0]
    ensures Path(t, r) && r == p + q[1..]
  {
    r := p + q[1..];
    forall i | 0 <= i < |r| - 1 ensures Taken(t, r[i]) && t[r[i]].nextSlot == r[i + 1] {
      if i < |p| - 1 {
        assert t[p[i]].nextSlot == p[i + 1];
      } else {
        assert r[i] == q[i - (|p| - 1)] && r[i + 1] == q[i - (|p| - 1) + 1];
      }
    }
  }

  // An entry that is found by passing s is not found any more once s is wiped.
  lemma PassedIsLost<K>(t: seq<Entry<K>>, rank: seq<nat>, top: nat, s: nat, home: nat, j: nat)
    requires Ranked(t, rank, top) && s < |t| && Reach(t, home, s) && Reach(t, s, j) && j != s
    ensures !Reach(Wiped(t, s), home, j)
  {
    if Reach(Wiped(t, s), home, j) {
      var w :| Path(Wiped(t, s), w) && From(w, home, j);
      PathBefore(t, s, w);
      var p :| Path(t, p) && From(p, home, s);
      var q :| Path(t, q) && From(q, s, j);
      var r := JoinPaths(t, p, q);
      var last := |r| - 1;
      assert r[last] == j && r[|p| - 1] == s && |p| - 1 < last;
      if |w| <= |r| {
        OneWay(t, w, r, |w| - 1);
        if |w| - 1 < last { PathAscends(t, rank, top, r, |w| - 1, last); }
        OneWay(t, w, r, |p| - 1);
      } else {
        OneWay(t, w, r, |p| - 1);
      }
      assert false;
    }
  }

  // An entry that is not found by passing s is still found.
  lemma UnpassedStays<K>(t: seq<Entry<K>>, s: nat, home: nat, j: nat)
    requires s < |t| && Reach(t, home, j) && j != s && !(Reach(t, home, s) && Reach(t, s, j))
    ensures Reach(Wiped(t, s), home, j)
  {
    var p :| Path(t, p) && From(p, home, j);
    if i :| 0 <= i < |p| - 1 && p[i] == s {
      var a, b := p[..i + 1], p[i..];
      forall h | 0 <= h < |a| - 1 ensures Taken(t, a[h]) && t[a[h]].nextSlot == a[h + 1] {
        assert t[p[h]].nextSlot == p[h + 1];
      }
      forall h | 0 <= h < |b| - 1 ensures Taken(t, b[h]) && t[b[h]].nextSlot == b[h + 1] {
        assert t[p[i + h]].nextSlot == p[i + h + 1];
      }
      assert Path(t, a) && From(a, home, s) && Path(t, b) && From(b, s, j);
    } else {
      var u := Wiped(t, s);
      forall i | 0 <= i < |p| - 1 ensures Taken(u, p[i]) && u[p[i]].nextSlot == p[i + 1] {
        assert Taken(t, p[i]) && t[p[i]].nextSlot == p[i + 1];
      }
      assert Path(u, p);
    }
  }

  lemma WipeStored<K(!new)>(t: seq<Entry<K>>, m: map<K, Extent>, s: nat)
    requires Stored(t, m) && Taken(t, s)
    ensures Stored(Wiped(t, s), m - {t[s].key})
  {
    var u, m' := Wiped(t, s), m - {t[s].key};
    forall j: nat | Taken(u, j) ensures HoldsOf(u, j, m') && Taken(t, j) && u[j].key == t[j].key {
      assert Taken(t, j) && HoldsOf(t, j, m);
    }
    forall k | k in m' ensures HasKey(u, k) {
      assert HasKey(t, k);
      var j: nat :| Taken(t, j) && t[j].key == k;
      assert Taken(u, j) && u[j].key == k;
    }
  }

  lemma WipeFoundIff<K>(t: seq<Entry<K>>, rank: seq<nat>, top: nat, hash: K -> nat, s: nat)
    requires Found(t, hash) && Ranked(t, rank, top) && Taken(t, s)
    ensures Found(Wiped(t, s), hash) <==> !IsPassed(t, hash, s)
  {
    var u := Wiped(t, s);
    if IsPassed(t, hash, s) {
      var j: nat :| PassedBy(t, hash, s, j);
      PassedIsLost(t, rank, top, s, Home(|t|, hash(t[j].key)), j);
      assert Taken(u, j);
    } else {
      forall j: nat | Taken(u, j) ensures Reach(u, Home(|u|, hash(u[j].key)), j) {
        assert Taken(t, j) && !PassedBy(t, hash, s, j);
        UnpassedStays(t, s, Home(|t|, hash(t[j].key)), j);
      }
    }
  }

  // Deletion removes the key from the map and leaves all others exactly if no other entry is
  // found by passing the slot: chains are not closed again behind it.
  lemma DeleteRefinesIff<K(!new)>(t: seq<Entry<K>>, rank: seq<nat>, top: nat, hash: K -> nat, m: map<K, Extent>, s: nat)
    requires Refines(t, hash, m) && Ranked(t, rank, top) && Taken(t, s)
    ensures Refines(Wiped(t, s), hash, m - {t[s].key}) <==> !IsPassed(t, hash, s)
  {
    WipeStored(t, m, s);
    WipeFoundIff(t, rank, top, hash, s);
  }

  lemma SecondTaken<K>(t: seq<Entry<K>>, p: seq<nat>)
    requires Path(t, p) && |p| > 1 && Taken(t, p[|p| - 1])
    ensures t[p[0]].nextSlot == p[1] && Taken(t, p[1])
  {
  }

  lemma EndReaches<K>(t: seq<Entry<K>>, s: nat, j: nat)
    requires ChainEnd(t, s) && Reach(t, s, j) && Taken(t, j)
    ensures j == s
  {
    var p :| Path(t, p) && From(p, s, j);
    if |p| > 1 { SecondTaken(t, p); }
  }

  // In particular an entry at the end of its chain may be deleted.
  lemma EndIsNotPassed<K>(t: seq<Entry<K>>, hash: K -> nat, s: nat)
    requires ChainEnd(t, s)
    ensures !IsPassed(t, hash, s)
  {
    if IsPassed(t, hash, s) {
      var j: nat :| PassedBy(t, hash, s, j);
      EndReaches(t, s, j);
    }
  }

  // Two keys with the same home slot.
  const EXAMPLE := [Entry(7, 0, 1, 10), Entry(8, 100, -1, 10)]

  const EXAMPLE_MAP := map[7 := Extent(0, 10), 8 := Extent(100, 10)]

  function ExampleHash(k: int): nat {
    0
  }

  lemma ExampleStored()
    ensures Stored(EXAMPLE, EXAMPLE_MAP)
  {
    assert Taken(EXAMPLE, 0) && Taken(EXAMPLE, 1);
    assert HasKey(EXAMPLE, 7) && HasKey(EXAMPLE, 8);
  }

  lemma ExampleFound()
    ensures Found(EXAMPLE, ExampleHash) && Reach(EXAMPLE, 0, 1) && Reach(EXAMPLE, 0, 0)
  {
    ReachSelf(EXAMPLE, 0);
    assert Path(EXAMPLE, [0, 1]) && From([0, 1], 0, 1);
  }

  // Deleting the first one loses the second.
  lemma DeleteExample()
    ensures Refines(EXAMPLE, ExampleHash, EXAMPLE_MAP)
    ensures !Refines(Wiped(EXAMPLE, 0), ExampleHash, EXAMPLE_MAP - {7})
  {
    hide Stored, Found, Reach;
    ExampleStored();
    ExampleFound();
    assert PassedBy(EXAMPLE, ExampleHash, 0, 1);
    DeleteRefinesIff(EXAMPLE, [0, 1], 1, ExampleHash, EXAMPLE_MAP, 0);
  }
}

module KvIndex {
  import opened Wrappers
  import opened KvTable

  // Values up to this long have room for one another.
  const SMALL_LENGTH: nat := 1024

  ghost predicate HasFree<K>(t: seq<Entry<K>>) {
    exists s: nat :: s < |t| && !Taken(t, s)
  }

  // How far a search that goes round the table is from a slot.
  ghost function Ahead(from: nat, to: nat, n: nat): nat
    requires from < n && to < n
  {
    if from <= to then to - from else to + n - from
  }

  // Going round the table from a slot on, the first free one is no earlier than another.
  ghost predicate NoneFreeBefore<K>(t: seq<Entry<K>>, from: nat, to: nat)
    requires from < |t| && to < |t|
  {
    forall s: nat :: s < |t| && Ahead(from, s, |t|) < Ahead(from, to, |t|) ==> Taken(t, s)
  }

  // Changing a length in place changes it in the map.
  lemma UpdateRefines<K(!new)>(t: seq<Entry<K>>, hash: K -> nat, m: map<K, Extent>, s: nat, length: nat)
    requires Refines(t, hash, m) && Taken(t, s)
    ensures t[s].key in m
    ensures Refines(t[s := t[s].(length := length)], hash, m[t[s].key := Extent(m[t[s].key].offset, length)])
  {
    assert HoldsOf(t, s, m);
    UpdateStored(t, m, s, length);
    UpdateFound(t, hash, s, length);
  }

  lemma UpdateFound<K>(t: seq<Entry<K>>, hash: K -> nat, s: nat, length: nat)
    requires Found(t, hash) && Taken(t, s)
    ensures Found(t[s := t[s].(length := length)], hash)
  {
    var u := t[s := t[s].(length := length)];
    forall j: nat | Taken(u, j) ensures Reach(u, Home(|u|, hash(u[j].key)), j) {
      assert Taken(t, j);
      ReachStays(t, u, Home(|t|, hash(t[j].key)), j);
    }
  }

  lemma UpdateStored<K(!new)>(t: seq<Entry<K>>, m: map<K, Extent>, s: nat, length: nat)
    requires Stored(t, m) && Taken(t, s) && t[s].key in m
    ensures Stored(t[s := t[s].(length := length)], m[t[s].key := Extent(m[t[s].key].offset, length)])
  {
    assert HoldsOf(t, s, m);
    var u, m' := t[s := t[s].(length := length)], m[t[s].key := Extent(m[t[s].key].offset, length)];
    forall j: nat | Taken(u, j) ensures HoldsOf(u, j, m') {
      assert Taken(t, j) && HoldsOf(t, j, m);
    }
    forall k | k in m' ensures HasKey(u, k) {
      assert HasKey(t, k);
      var j: nat :| Taken(t, j) && t[j].key == k;
      assert Taken(u, j) && u[j].key == k;
    }
  }

  class Index<K(==, !new)> {
    const table: array<Entry<K>>
    const hash: K -> nat
    ghost var rank: seq<nat>
    ghost var top: nat
    ghost var m: map<K, Extent>

    // Holds whatever is stored and deleted.
    ghost predicate Shape()
      reads this, table
    {
      0 < table.Length && Ranked(table[..], rank, top)
    }

    // Holds as long as no deletion breaks a chain.
    ghost predicate Valid()
      reads this, table
    {
      Shape() && Refines(table[..], hash, m)
    }

    constructor (slots: nat, hash: K -> nat, blank: K)
      requires 0 < slots
      ensures Valid() && fresh(table) && table.Length == slots && this.hash == hash && m == map[]
    {
      table := new Entry<K>[slots](_ => Entry(blank, -1, -1, 0));
      this.hash := hash;
      rank, top, m := seq(slots, _ => 0), 0, map[];
    }

    // get_hash_slot
    function HomeSlot(k: K): (r: nat)
      requires 0 < table.Length
      ensures r < table.Length && r == Home(table.Length, hash(k))
    {
      hash(k) % table.Length
    }

    // The loop that get, update and delete share: the slot of a key, or -1.
    method Locate(k: K) returns (slot: int)
      requires Shape()
      ensures -1 <= slot < table.Length
      ensures slot >= 0 ==> Taken(table[..], slot) && table[slot].key == k
      ensures Valid() ==> (slot >= 0 <==> k in m)
    {
      ghost var t := table[..];
      slot := Home(table.Length, hash(k));
      ghost var target := -1;
      if Valid() && k in m {
        assert HasKey(t, k);
        var s: nat :| Taken(t, s) && t[s].key == k;
        target := s;
      }
      while table[slot].memOffset != -1
        invariant 0 <= slot < table.Length && table[..] == t
        invariant target >= 0 ==> Taken(t, target) && t[target].key == k && Reach(t, slot, target)
        invariant Valid() && k in m ==> target >= 0
        decreases top - rank[slot]
      {
        if table[slot].key == k {
          assert Valid() ==> HoldsOf(t, slot, m);
          return;
        }
        if target >= 0 { NextReaches(t, slot, target); }
        if table[slot].nextSlot == -1 {
          return -1;
        }
        slot := table[slot].nextSlot;
      }
      if target >= 0 { NextReaches(t, slot, target); }
      slot := -1;
    }

    // get_mapping_entry
    method GetMappingEntry(k: K) returns (r: Option<Extent>)
      requires Shape()
      ensures Valid() ==> r == if k in m then Some(m[k]) else None
    {
      var slot := Locate(k);
      if slot >= 0 {
        assert Valid() ==> HoldsOf(table[..], slot, m);
        r := if table[slot].memOffset >= 0 then Some(Extent(table[slot].memOffset, table[slot].length)) else None;
      } else {
        r := None;
      }
    }

    // find_next_slot: the end of the chain, and the first free slot from there on.
    method FindNextSlot(original: nat) returns (slot: nat, prev: nat)
      requires Shape() && Taken(table[..], original) && HasFree(table[..])
      ensures slot < table.Length && !Taken(table[..], slot)
      ensures prev < table.Length && ChainEnd(table[..], prev) && Reach(table[..], original, prev)
      ensures NoneFreeBefore(table[..], prev, slot)
    {
      ghost var t := table[..];
      var tail: int := original;
      prev := original;
      ReachSelf(t, original);
      while tail != -1 && table[tail].memOffset != -1
        invariant -1 <= tail < table.Length && table[..] == t
        invariant Taken(t, prev) && Reach(t, original, prev)
        invariant tail == prev || tail == t[prev].nextSlot
        invariant tail == prev ==> tail == original
        decreases if tail == -1 then 0 else 1 + top - rank[tail]
      {
        if tail != prev { ReachMore(t, original, prev, tail); }
        prev := tail;
        tail := table[tail].nextSlot;
      }
      ghost var free: nat :| free < |t| && !Taken(t, free);
      slot := prev;
      while table[slot].memOffset != -1
        invariant slot < table.Length && table[..] == t && NoneFreeBefore(t, prev, slot)
        decreases Ahead(slot, free, table.Length)
      {
        slot := slot + 1;
        if slot >= table.Length {
          slot := 0;
        }
      }
    }

    // The slot a new key goes to, and the end of the chain it continues, or -1.
    method PlaceFor(k: K) returns (slot: nat, prev: int)
      requires Shape() && HasFree(table[..])
      ensures slot < table.Length && !Taken(table[..], slot)
      ensures if prev == -1 then slot == Home(table.Length, hash(k))
              else 0 <= prev < table.Length && ChainEnd(table[..], prev)
                   && Reach(table[..], Home(table.Length, hash(k)), prev)
                   && NoneFreeBefore(table[..], prev, slot)
    {
      slot, prev := HomeSlot(k), -1;
      if table[slot].memOffset != -1 {
        slot, prev := FindNextSlot(slot);
      }
    }

    // What new_mapping_entry writes, and chain_mapping.
    method Fill(slot: nat, prev: int, k: K, offset: nat, length: nat)
      requires slot < table.Length && -1 <= prev < table.Length
      modifies table
      ensures table[..] == Inserted(old(table[..]), slot, prev, k, Extent(offset, length))
    {
      table[slot] := table[slot].(key := k, memOffset := offset, length := length);
      if prev != -1 {
        table[prev] := table[prev].(nextSlot := slot);
      }
    }

    // new_mapping_entry
    method NewMappingEntry(k: K, offset: nat, length: nat)
      requires Shape() && HasFree(table[..])
      modifies this, table
      ensures Shape() && m == old(m)[k := Extent(offset, length)]
      ensures old(Valid() && k !in m) ==> Valid()
    {
      hide Ranked, Inserted, Refines, ChainEnd, Reach, HasFree, Home;
      var slot, prev := PlaceFor(k);
      ghost var t, e := table[..], Extent(offset, length);
      InsertedRanked(t, rank, top, slot, prev, k, e);
      if Valid() && k !in m { InsertRefines(t, hash, m, slot, prev, k, e); }
      Fill(slot, prev, k, offset, length);
      rank, top, m := rank[slot := top + 1], top + 1, m[k := e];
    }

    // update_mapping_entry: the status is 1 if the key is not stored.
    method UpdateMappingEntry(k: K, length: nat) returns (status: nat)
      requires Shape()
      modifies this`m, table
      ensures Shape()
      ensures old(Valid()) ==> Valid() && (status == 0 <==> k in old(m)) && status <= 1
      ensures old(Valid()) ==> m == if k in old(m) then old(m)[k := Extent(old(m)[k].offset, length)] else old(m)
    {
      var slot := Locate(k);
      if slot < 0 {
        return 1;
      }
      ghost var t := table[..];
      if Valid() { UpdateRefines(t, hash, m, slot, length); }
      table[slot] := table[slot].(length := length);
      assert table[..] == t[slot := t[slot].(length := length)];
      if k in m { m := m[k := Extent(m[k].offset, length)]; }
      status := 0;
    }

    // delete_mapping_entry: whatever is deleted, chains keep ending; the others stay findable
    // exactly if none of them is found by passing the slot.
    method DeleteMappingEntry(k: K) returns (ghost slot: int)
      requires Shape()
      modifies this`m, table
      ensures Shape() && m == old(m) - {k} && -1 <= slot < table.Length
      ensures old(Valid()) ==> (slot >= 0 <==> k in old(m))
      ensures old(Valid()) && slot < 0 ==> Valid()
      ensures old(Valid()) && slot >= 0 ==> (Valid() <==> !IsPassed(old(table[..]), hash, slot))
    {
      hide Ranked, Stored, Found, IsPassed;
      var at := Locate(k);
      slot := at;
      ghost var t := table[..];
      if at >= 0 {
        WipedRanked(t, rank, top, at);
        if Valid() { DeleteRefinesIff(t, rank, top, hash, m, at); }
        table[at] := Entry(table[at].key, -1, -1, table[at].length);
        assert table[..] == Wiped(t, at);
      }
      assert k !in m ==> m - {k} == m;
      m := m - {k};
    }

    // The store command of __do_perform_kv_io as far as the index goes; newOffset is what the
    // allocator returns for a new key.  A stored key keeps its place, and takes over the new length
    // only if both lengths are small.
    method Store(k: K, length: nat, newOffset: nat)
      requires Shape() && (HasFree(table[..]) || (Valid() && k in m))
      modifies this, table
      ensures Shape()
      ensures old(Valid()) ==> Valid() && m.Keys == old(m.Keys) + {k}
      ensures old(Valid()) ==> forall x :: x in old(m) && x != k ==> m[x] == old(m[x])
      ensures old(Valid()) && k !in old(m) ==> m[k].offset == newOffset && m[k].length == length
      ensures old(Valid()) && k in old(m) ==> m[k].offset == old(m[k].offset)
      ensures old(Valid()) && k in old(m) ==>
                m[k].length == if length <= SMALL_LENGTH && old(m[k].length) <= SMALL_LENGTH then length
                               else old(m[k].length)
    {
      var entry := GetMappingEntry(k);
      match entry
      case None =>
        NewMappingEntry(k, newOffset, length);
      case Some(e) =>
        if length != e.length && length <= SMALL_LENGTH && e.length <= SMALL_LENGTH {
          var status := UpdateMappingEntry(k, length);
        }
    }
  }

  // Where a search can go on from a taken slot, and that it cannot end before its target.
  lemma NextReaches<K>(t: seq<Entry<K>>, slot: nat, target: nat)
    requires slot < |t| && Reach(t, slot, target) && Taken(t, target)
    ensures Taken(t, slot)
    ensures slot != target ==> 0 <= t[slot].nextSlot < |t| && Reach(t, t[slot].nextSlot, target)
  {
    var p :| Path(t, p) && From(p, slot, target);
    if |p| > 1 {
      var q := p[1..];
      assert t[p[0]].nextSlot == p[1];
      forall i | 0 <= i < |q| - 1 ensures Taken(t, q[i]) && t[q[i]].nextSlot == q[i + 1] {
        assert t[p[i + 1]].nextSlot == p[i + 1 + 1];
      }
      assert Path(t, q) && From(q, p[1], target);
    }
  }
}
