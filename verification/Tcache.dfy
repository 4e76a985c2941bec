/**
 The magazine layer over a slab: each thread has a loaded magazine and a full or missing
 previous one, and full magazines are shared.  A magazine is the list of its items.
 */
module Tcache {
  import opened Seqs
  import opened Slab

  const MAX_MAG_SIZE := 64

  type Mag = seq<Item>

  /** How often an item occurs in a magazine, and in several. */
  ghost function Occ(m: Mag, x: Item): nat {
    if m == [] then 0 else (if m[0] == x then 1 else 0) + Occ(m[1..], x)
  }

  ghost function OccAll(mags: seq<Mag>, x: Item): nat {
    if mags == [] then 0 else Occ(mags[0], x) + OccAll(mags[1..], x)
  }

  lemma {:induction false} OccUpdate(mags: seq<Mag>, i: nat, m: Mag, x: Item)
    requires i < |mags|
    ensures OccAll(mags[i := m], x) == OccAll(mags, x) - Occ(mags[i], x) + Occ(m, x)
  {
    if i == 0 {
      assert mags[i := m][1..] == mags[1..];
    } else {
      OccUpdate(mags[1..], i - 1, m, x);
      assert mags[i := m][1..] == mags[1..][i - 1 := m];
    }
  }

  lemma {:induction false} OccIn(m: Mag, x: Item)
    ensures x in m <==> Occ(m, x) > 0
    ensures NoDup(m) ==> Occ(m, x) <= 1
  {
    if m != [] {
      OccIn(m[1..], x);
      assert m == [m[0]] + m[1..];
      assert NoDup(m) ==> NoDup(m[1..]) && m[0] !in m[1..];
    }
  }

  lemma {:induction false} OccTwice(m: Mag, i: nat, j: nat)
    requires i < j < |m| && m[i] == m[j]
    ensures Occ(m, m[i]) >= 2
  {
    if i == 0 {
      OccIn(m[1..], m[0]);
      assert m[1..][j - 1] == m[0];
    } else {
      OccTwice(m[1..], i - 1, j - 1);
    }
  }

  lemma {:induction false} OccAtMost(mags: seq<Mag>, i: nat, x: Item)
    requires i < |mags|
    ensures Occ(mags[i], x) <= OccAll(mags, x)
  {
    if i > 0 {
      OccAtMost(mags[1..], i - 1, x);
    }
  }

  lemma {:induction false} OccNone(mags: seq<Mag>, x: Item)
    requires forall i :: 0 <= i < |mags| ==> mags[i] == []
    ensures OccAll(mags, x) == 0
  {
    if mags != [] {
      OccNone(mags[1..], x);
    }
  }

  ghost function Bit(s: set<Item>, x: Item): nat { if x in s then 1 else 0 }

  lemma {:induction false} SetSize(live: set<Item>, items: seq<Item>)
    requires NoDup(items) && forall x :: x in items ==> x !in live
    ensures |live + Elems(items)| == |live| + |items|
  {
    ElemsCard(items);
    assert live !! Elems(items);
  }

  class Cache {
    const node: SlabNode
    const magSize: nat

    var shared: seq<Mag>        // shared_mags
    var magsAllocated: int
    // struct tcache_perthread; [] stands for NULL
    var loaded: seq<Mag>
    var previous: seq<Mag>
    var rounds: seq<nat>

    ghost var inUse: set<Item>

    /** loaded holds exactly rounds items; previous and the shared magazines are full. */
    ghost predicate MagsOk()
      reads this`loaded, this`previous, this`rounds, this`shared
    {
      && 0 < magSize <= MAX_MAG_SIZE && |loaded| == |previous| == |rounds|
      && (forall i :: 0 <= i < |loaded| ==> |loaded[i]| == rounds[i] <= magSize)
      && (forall i :: 0 <= i < |previous| ==> previous[i] == [] || |previous[i]| == magSize)
      && (forall m :: m in shared ==> |m| == magSize)
    }

    /** An item taken from the slab is in use or cached once; one not taken is neither. */
    ghost predicate Tally(x: Item)
      reads this`loaded, this`previous, this`shared, this`inUse, node`live
    {
      OccAll(loaded, x) + OccAll(previous, x) + OccAll(shared, x) + Bit(inUse, x) == Bit(node.live, x)
    }

    ghost predicate Balanced()
      reads this`loaded, this`previous, this`shared, this`inUse, node`live
    {
      forall x :: Tally(x)
    }

    ghost predicate WholeMags()
      reads this`magsAllocated, node`live
    {
      magsAllocated * magSize == |node.live|
    }

    ghost predicate Valid()
      reads this, node
    {
      node.Valid() && MagsOk() && Balanced() && WholeMags()
    }

    /** tcache_create and tcache_init_perthread for each thread. */
    constructor (node: SlabNode, magSize: nat, threads: nat)
      requires node.Valid() && node.live == {} && 0 < magSize <= MAX_MAG_SIZE
      ensures Valid() && this.node == node && this.magSize == magSize && inUse == {} && |loaded| == threads
    {
      this.node, this.magSize := node, magSize;
      shared, magsAllocated := [], 0;
      loaded, previous, rounds := seq(threads, _ => []), seq(threads, _ => []), seq(threads, _ => 0);
      inUse := {};
      new;
      forall x ensures Tally(x) {
        OccNone(loaded, x);
        OccNone(previous, x);
      }
    }

    /** tcache_alloc_mag */
    method AllocMag() returns (m: Mag)
      requires node.Valid() && Balanced() && WholeMags()
      modifies node, this`magsAllocated
      ensures node.Valid() && WholeMags() && |m| == if magSize <= old(node.Room()) then magSize else 0
      ensures forall x :: OccAll(loaded, x) + OccAll(previous, x) + OccAll(shared, x)
                          + Bit(inUse, x) + Occ(m, x) == Bit(node.live, x)
    {
      hide SlabNode.Valid;
      var ok, items := node.TcacheAlloc(magSize);
      if !ok {
        m := [];
        forall x
          ensures OccAll(loaded, x) + OccAll(previous, x) + OccAll(shared, x) + Bit(inUse, x) + Occ(m, x)
               == Bit(node.live, x)
        {
          assert old(Tally(x));
        }
        return;
      }
      SetSize(old(node.live), items);
      assert (magsAllocated + 1) * magSize == magsAllocated * magSize + magSize;
      magsAllocated := magsAllocated + 1;
      forall x
        ensures OccAll(loaded, x) + OccAll(previous, x) + OccAll(shared, x) + Bit(inUse, x) + Occ(items, x)
             == Bit(node.live, x)
      {
        assert old(Tally(x));
        OccIn(items, x);
      }
      return items;
    }

    /** The loaded magazine of thread i is out; the other magazines are in order. */
    ghost predicate MagsOkBut(i: nat)
      reads this`loaded, this`previous, this`rounds, this`shared
    {
      && 0 < magSize <= MAX_MAG_SIZE && i < |loaded| == |previous| == |rounds|
      && (forall j :: 0 <= j < |loaded| && j != i ==> |loaded[j]| == rounds[j] <= magSize)
      && (forall j :: 0 <= j < |previous| ==> previous[j] == [] || |previous[j]| == magSize)
      && (forall m :: m in shared ==> |m| == magSize)
    }

    /** The top of the loaded magazine is handed out. */
    method Pop(i: nat) returns (x: Item)
      requires MagsOkBut(i) && 0 < |loaded[i]| <= magSize && Balanced()
      modifies this`loaded, this`rounds, this`inUse
      ensures MagsOk() && Balanced()
      ensures |loaded| == old(|loaded|) && x !in old(inUse) && inUse == old(inUse) + {x}
    {
      var m := loaded[i];
      x := m[0];
      assert Tally(x);
      OccAtMost(loaded, i, x);
      rounds := rounds[i := |m| - 1];
      loaded := loaded[i := m[1..]];
      inUse := inUse + {x};
      forall y ensures Tally(y) {
        assert old(Tally(y));
        OccUpdate(old(loaded), i, m[1..], y);
      }
    }

    /** The item is put on top of the loaded magazine. */
    method Push(i: nat, x: Item)
      requires MagsOkBut(i) && |loaded[i]| < magSize && Balanced() && x in inUse
      modifies this`loaded, this`rounds, this`inUse
      ensures MagsOk() && Balanced() && |loaded| == old(|loaded|) && inUse == old(inUse) - {x}
    {
      var m := [x] + loaded[i];
      rounds := rounds[i := |m|];
      loaded := loaded[i := m];
      inUse := inUse - {x};
      assert m[1..] == old(loaded[i]);
      forall y ensures Tally(y) {
        assert old(Tally(y));
        OccUpdate(old(loaded), i, m, y);
      }
    }

    /** __tcache_alloc case 1: the previous magazine is loaded. */
    method LoadPrevious(i: nat)
      requires MagsOk() && Balanced() && i < |loaded| && loaded[i] == [] && previous[i] != []
      modifies this`loaded, this`previous
      ensures MagsOkBut(i) && Balanced() && |loaded| == old(|loaded|) && |loaded[i]| == magSize
    {
      var m := previous[i];
      loaded := loaded[i := m];
      previous := previous[i := []];
      forall y ensures Tally(y) {
        assert old(Tally(y));
        OccUpdate(old(loaded), i, m, y);
        OccUpdate(old(previous), i, [], y);
      }
    }

    /** Case 2: a magazine of the shared pool is loaded. */
    method LoadShared(i: nat)
      requires MagsOk() && Balanced() && i < |loaded| && loaded[i] == [] && shared != []
      modifies this`loaded, this`shared
      ensures MagsOkBut(i) && Balanced() && |loaded| == old(|loaded|) && |loaded[i]| == magSize
    {
      var m := shared[0];
      assert m in shared;
      loaded := loaded[i := m];
      shared := shared[1..];
      forall y ensures Tally(y) {
        assert old(Tally(y));
        OccUpdate(old(loaded), i, m, y);
      }
    }

    /** Case 3: a new magazine is filled from the slab and loaded. */
    method LoadNew(i: nat) returns (ok: bool)
      requires Valid() && i < |loaded| && loaded[i] == []
      modifies this`loaded, this`magsAllocated, node
      ensures node.Valid() && Balanced() && WholeMags() && |loaded| == old(|loaded|)
      ensures if ok then MagsOkBut(i) && |loaded[i]| == magSize else MagsOk() && loaded == old(loaded)
      ensures ok <==> magSize <= old(node.Room())
    {
      hide SlabNode.Valid;
      var m := AllocMag();
      ok := m != [];
      loaded := loaded[i := m];
      forall y ensures Tally(y) {
        OccUpdate(old(loaded), i, m, y);
      }
    }

    /** tcache_alloc: an item nobody uses, unless memory has run out. */
    method Alloc(i: nat) returns (r: OptItem)
      requires Valid() && i < |loaded|
      modifies this, node
      ensures Valid() && |loaded| == old(|loaded|)
      ensures r.Got? ==> r.item !in old(inUse) && inUse == old(inUse) + {r.item} && r.item in node.live
      ensures r.NoItem? ==> inUse == old(inUse)
      // it fails exactly when the thread's magazines and the shared pool are empty and the slab cannot fill one
      ensures r.NoItem? <==> old(loaded[i]) == [] && old(previous[i]) == [] && old(shared) == []
                             && old(node.Room()) < magSize
    {
      hide SlabNode.Valid;
      if rounds[i] == 0 {
        if previous[i] != [] {
          LoadPrevious(i);
        } else if shared != [] {
          LoadShared(i);
        } else {
          var ok := LoadNew(i);
          if !ok {
            return NoItem;
          }
        }
      }
      var x := Pop(i);
      assert Tally(x);
      return Got(x);
    }

    /** __tcache_free: the full loaded magazine makes room; a full previous one goes to the shared pool. */
    method Unload(i: nat)
      requires MagsOk() && Balanced() && i < |loaded| && |loaded[i]| == magSize
      modifies this`loaded, this`previous, this`shared
      ensures MagsOkBut(i) && Balanced() && |loaded| == old(|loaded|) && loaded[i] == []
    {
      var m, p := loaded[i], previous[i];
      if p != [] {
        shared := [p] + shared;
        assert shared[1..] == old(shared);
      }
      previous := previous[i := m];
      loaded := loaded[i := []];
      forall y ensures Tally(y) {
        assert old(Tally(y));
        OccUpdate(old(loaded), i, [], y);
        OccUpdate(old(previous), i, m, y);
      }
    }

    /** tcache_free */
    method Free(i: nat, x: Item)
      requires Valid() && i < |loaded| && x in inUse
      modifies this`loaded, this`previous, this`shared, this`rounds, this`inUse
      ensures Valid() && |loaded| == old(|loaded|) && inUse == old(inUse) - {x}
    {
      hide SlabNode.Valid;
      if rounds[i] >= magSize {
        Unload(i);
      }
      Push(i, x);
    }

    /** As Tally, while the magazines out are in none of the lists. */
    ghost predicate TallyWith(x: Item, out: seq<Mag>)
      reads this`loaded, this`previous, this`shared, this`inUse, node`live
    {
      OccAll(loaded, x) + OccAll(previous, x) + OccAll(shared, x) + Bit(inUse, x) + OccAll(out, x) == Bit(node.live, x)
    }

    /** tcache_free_mag: the magazine holds exactly mag_size items of the slab. */
    method FreeMag(m: Mag, ghost rest: seq<Mag>)
      requires node.Valid() && WholeMags() && |m| == magSize
      requires forall x :: TallyWith(x, [m] + rest)
      modifies node, this`magsAllocated
      ensures node.Valid() && WholeMags() && magsAllocated == old(magsAllocated) - 1
      ensures forall x :: TallyWith(x, rest)
    {
      hide SlabNode.Valid;
      ghost var out := [m] + rest;
      assert out[1..] == rest;
      forall x ensures Occ(m, x) <= Bit(node.live, x) { assert TallyWith(x, out); }
      forall a, b | 0 <= a < b < |m| ensures m[a] != m[b] {
        if m[a] == m[b] {
          OccTwice(m, a, b);
        }
      }
      forall x | x in m ensures x in node.live { OccIn(m, x); }
      SetSize(node.live - Elems(m), m);
      assert node.live - Elems(m) + Elems(m) == node.live;
      node.TcacheFree(m);
      assert (magsAllocated - 1) * magSize == magsAllocated * magSize - magSize;
      magsAllocated := magsAllocated - 1;
      forall x ensures TallyWith(x, rest) {
        assert old(TallyWith(x, out));
        OccIn(m, x);
      }
    }

    /** tcache_reclaim: the shared magazines go back to the slab; nothing in use or held by a thread does. */
    method Reclaim()
      requires Valid()
      modifies node, this`shared, this`magsAllocated
      ensures Valid() && shared == [] && magsAllocated == old(magsAllocated) - |old(shared)|
    {
      hide SlabNode.Valid;
      var list := shared;
      shared := [];
      forall x ensures TallyWith(x, list) { assert old(Tally(x)); }
      while list != []
        invariant node.Valid() && MagsOk() && WholeMags() && shared == []
        invariant |list| <= |old(shared)| && magsAllocated == old(magsAllocated) - (|old(shared)| - |list|)
        invariant (forall m :: m in list ==> |m| == magSize) && forall x :: TallyWith(x, list)
        decreases |list|
      {
        assert list == [list[0]] + list[1..] && list[0] in list;
        FreeMag(list[0], list[1..]);
        list := list[1..];
      }
      forall x ensures Tally(x) { assert TallyWith(x, list); }
    }

    /** Items handed out by the cache are disjoint stretches of bytes of the slab's pages. */
    lemma InUseDisjoint(x: Item, y: Item)
      requires Valid() && x in inUse && y in inUse && x != y
      ensures x.off + node.g.size <= node.g.pgsize
      ensures x.page == y.page ==> x.off + node.g.size <= y.off || y.off + node.g.size <= x.off
    {
      assert Tally(x) && Tally(y);
      node.LiveItemsDisjoint(x, y);
    }
  }
}
