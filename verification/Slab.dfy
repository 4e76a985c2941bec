/**
 The slab allocator's per-NUMA-node state: pages carved into equal blocks, the current page
 allocations come from, and the lists of full and partly free pages.
 */
module Slab {
  import opened Seqs

  const THRESH := 4   // SLAB_PARTIAL_THRESH

  /** A block: its page and its byte offset in the page. */
  datatype Item = Item(page: nat, off: nat)

  datatype OptItem = NoItem | Got(item: Item)

  /** The shape of a slab: nr_elems blocks of size bytes from offset on, in a page of pgsize bytes. */
  datatype Geometry = Geometry(size: nat, offset: nat, nr: nat, pgsize: nat)

  function Off(g: Geometry, k: nat): nat { g.offset + k * g.size }

  /** The blocks stay in the page, and a page can be partly free. */
  predicate Fits(g: Geometry) { g.size > 0 && Off(g, g.nr) <= g.pgsize && g.nr > THRESH }

  // ------------------------------------------------------------------ blocks

  lemma MulAtLeast(a: nat, b: nat, c: nat)
    requires a <= b
    ensures a * c <= b * c && (a < b ==> a * c + c <= b * c)
  {
    var d: nat := b - a;
    assert b * c == a * c + d * c;
    if d > 0 {
      assert d * c == (d - 1) * c + c;
    }
  }

  /** Different blocks of a page do not overlap, and each lies in the page. */
  lemma BlocksDisjoint(g: Geometry, j: nat, k: nat)
    requires Fits(g) && j < k < g.nr
    ensures Off(g, j) + g.size <= Off(g, k) && Off(g, k) + g.size <= g.pgsize
  {
    MulAtLeast(j, k, g.size);
    MulAtLeast(k, g.nr, g.size);
  }

  lemma BlockInPage(g: Geometry, k: nat)
    requires Fits(g) && k < g.nr
    ensures Off(g, k) + g.size <= g.pgsize
  {
    MulAtLeast(k, g.nr, g.size);
  }

  /** A page's bookkeeping: item_count, the free list, the blocks carved so far, and the items in use. */
  ghost predicate PageOk(g: Geometry, p: nat, count: nat, free: seq<Item>, carved: seq<Item>, live: set<Item>) {
    && |carved| <= g.nr && count == |free| + g.nr - |carved|
    && (forall k :: 0 <= k < |carved| ==> carved[k] == Item(p, Off(g, k)))
    && NoDup(free) && (forall x :: x in free ==> x in carved)
    && (forall x :: x in live && x.page == p ==> x in carved && x !in free)
    && (forall x :: x in carved && x !in free ==> x in live)
  }

  lemma BlockOf(g: Geometry, p: nat, count: nat, free: seq<Item>, carved: seq<Item>, live: set<Item>,
                x: Item) returns (k: nat)
    requires PageOk(g, p, count, free, carved, live) && x in live && x.page == p
    ensures k < g.nr && x == Item(p, Off(g, k))
  {
    k :| 0 <= k < |carved| && carved[k] == x;
  }

  lemma NewBlock(g: Geometry, p: nat, carved: seq<Item>)
    requires Fits(g) && |carved| < g.nr && forall k :: 0 <= k < |carved| ==> carved[k] == Item(p, Off(g, k))
    ensures Item(p, Off(g, |carved|)) !in carved
  {
    forall k | 0 <= k < |carved| ensures carved[k] != Item(p, Off(g, |carved|)) {
      BlocksDisjoint(g, k, |carved|);
    }
  }

  lemma PageCarve(g: Geometry, p: nat, count: nat, carved: seq<Item>, live: set<Item>)
    requires Fits(g) && PageOk(g, p, count, [], carved, live) && count > 0
    ensures var x := Item(p, Off(g, |carved|));
            x !in live && |carved| < g.nr && PageOk(g, p, count - 1, [], carved + [x], live + {x})
  {
    NewBlock(g, p, carved);
  }

  lemma PagePop(g: Geometry, p: nat, count: nat, free: seq<Item>, carved: seq<Item>, live: set<Item>)
    requires PageOk(g, p, count, free, carved, live) && free != []
    ensures count > 0 && free[0] !in live && free[0].page == p
    ensures PageOk(g, p, count - 1, free[1..], carved, live + {free[0]})
  {
    assert free[0] in carved;
    forall x | x in free[1..] ensures x in free && x != free[0] { }
  }

  lemma PagePush(g: Geometry, p: nat, count: nat, free: seq<Item>, carved: seq<Item>, live: set<Item>, x: Item)
    requires PageOk(g, p, count, free, carved, live) && x in live && x.page == p
    ensures count < g.nr && PageOk(g, p, count + 1, [x] + free, carved, live - {x})
  {
    Pigeon(free, carved, x);
  }

  /** Free blocks are distinct carved ones, so with one in use there are fewer of them. */
  lemma Pigeon(free: seq<Item>, carved: seq<Item>, x: Item)
    requires NoDup(free) && (forall y :: y in free ==> y in carved) && x in carved && x !in free
    ensures |free| < |carved|
  {
    var f, c := Elems(free), Elems(carved);
    ElemsCard(free);
    ElemsCard(carved);
    assert f + {x} <= c;
    SubsetCard(f + {x}, c);
  }

  // ------------------------------------------------------------------ the shapes the program makes

  const PGSIZE_4KB := 4096
  const PGSIZE_2MB := 2097152
  const CACHE_LINE := 64
  const WORD := 8

  function AlignUp(x: nat, a: nat): (r: nat)
    requires a > 0
    ensures x <= r < x + a
  {
    var q := (x + a - 1) / a;
    assert x + a - 1 == q * a + (x + a - 1) % a;
    q * a
  }

  datatype Shape = TooBig | Shape(g: Geometry)

  /** slab_create: sizes above an eighth of a small page use large ones, above an eighth of those are refused. */
  function Create(size: nat, falseOkay: bool, large: bool): Shape
    requires size > 0
  {
    var aligned := AlignUp(size, if falseOkay then WORD else CACHE_LINE);
    if aligned > PGSIZE_2MB / (2 * THRESH) then TooBig else
    var pgsize := if large || aligned > PGSIZE_4KB / (2 * THRESH) then PGSIZE_2MB else PGSIZE_4KB;
    Shape.Shape(Geometry(aligned, 0, pgsize / aligned, pgsize))
  }

  /** Every slab made by slab_create keeps its items in its pages. */
  lemma CreatedSlabsFit(size: nat, falseOkay: bool, large: bool)
    requires size > 0
    ensures var s := Create(size, falseOkay, large); s.Shape? ==> Fits(s.g) && s.g.size >= size && s.g.nr >= 2 * THRESH
  {
    var s := Create(size, falseOkay, large);
    if s.Shape? {
      DivBounds(s.g.pgsize, s.g.size, 2 * THRESH);
    }
  }

  lemma DivBounds(n: nat, d: nat, k: nat)
    requires d > 0 && k * d <= n
    ensures (n / d) * d <= n && n / d >= k
  {
    var q := n / d;
    assert n == q * d + n % d;
    if q < k {
      MulAtLeast(q, k, d);
    }
  }

  /** All blocks lie in the page exactly when the last one ends in it. */
  lemma InPageExactly(g: Geometry)
    requires g.nr > 0
    ensures (forall k :: 0 <= k < g.nr ==> Off(g, k) + g.size <= g.pgsize) <==> Off(g, g.nr) <= g.pgsize
  {
    assert Off(g, g.nr - 1) + g.size == Off(g, g.nr) by { assert g.nr * g.size == (g.nr - 1) * g.size + g.size; }
    forall k | 0 <= k < g.nr ensures Off(g, k) + g.size <= Off(g, g.nr) { MulAtLeast(k, g.nr, g.size); }
  }

  /** The slab of small pages, behind the page table kept at the start of each large page. */
  lemma SmallPageSlabFits()
    ensures Fits(Geometry(PGSIZE_4KB, 512 * 64, (PGSIZE_2MB - 512 * 64) / PGSIZE_4KB, PGSIZE_2MB))
  {
    assert (PGSIZE_2MB - 512 * 64) / PGSIZE_4KB == 504;
  }

  const SLAB_NODE_SIZE := 88  // sizeof(struct slab_node)

  /**
   The slab that holds the slab nodes counts its elements by the unaligned size: block 42 crosses the
   end of the page and the blocks from 43 on start behind it.
   */
  lemma NodeSlabLeavesPage()
    ensures var g := Geometry(AlignUp(SLAB_NODE_SIZE, 16), 0, PGSIZE_4KB / SLAB_NODE_SIZE, PGSIZE_4KB);
            g.size == 96 && g.nr == 46 && !Fits(g)
            && forall k :: 0 <= k < g.nr ==> (Off(g, k) + g.size <= g.pgsize <==> k < 42)
  {
    var g := Geometry(AlignUp(SLAB_NODE_SIZE, 16), 0, PGSIZE_4KB / SLAB_NODE_SIZE, PGSIZE_4KB);
    assert g.size == 96;
  }

  // ------------------------------------------------------------------ the node

  /** struct page, as far as the slab uses it. */
  datatype Page = Page(count: nat, free: seq<Item>)

  /** Every page is consistent, and every item in use belongs to one. */
  ghost predicate PagesOk(g: Geometry, pages: map<nat, Page>, carved: map<nat, seq<Item>>, live: set<Item>) {
    && pages.Keys == carved.Keys
    && (forall p :: p in pages ==> PageOk(g, p, pages[p].count, pages[p].free, carved[p], live))
    && (forall x :: x in live ==> x.page in pages)
  }

  /** A page other than the current one is fully carved, and item_count says which list it is on. */
  ghost predicate ListsOk(g: Geometry, pages: map<nat, Page>, carved: map<nat, seq<Item>>, cur: Opt,
                          full: seq<nat>, partial: seq<nat>)
  {
    && pages.Keys == carved.Keys
    && NoDup(full) && NoDup(partial)
    && (forall p :: p in pages && cur != Some(p) ==>
          |carved[p]| == g.nr && pages[p].count < g.nr
          && (p in full <==> pages[p].count < THRESH) && (p in partial <==> pages[p].count >= THRESH))
    && (forall p :: p in full || p in partial ==> p in pages && cur != Some(p))
    && (cur.Some? ==> cur.t in pages)
  }

  lemma PageUpdate(g: Geometry, pages: map<nat, Page>, carved: map<nat, seq<Item>>, live: set<Item>,
                   p: nat, pg: Page, c: seq<Item>, x: Item, use: bool)
    requires PagesOk(g, pages, carved, live) && p in pages && x.page == p
    requires var live' := if use then live + {x} else live - {x}; PageOk(g, p, pg.count, pg.free, c, live')
    ensures PagesOk(g, pages[p := pg], carved[p := c], if use then live + {x} else live - {x})
  {
    var live' := if use then live + {x} else live - {x};
    forall q | q in pages && q != p ensures PageOk(g, q, pages[q].count, pages[q].free, carved[q], live') {
      assert PageOk(g, q, pages[q].count, pages[q].free, carved[q], live);
      forall y | y in carved[q] ensures y.page == q { }
    }
  }

  ghost function CountOf(pages: map<nat, Page>, p: nat): nat { if p in pages then pages[p].count else 0 }

  /** The free blocks on a list of pages. */
  ghost function CountIn(pages: map<nat, Page>, list: seq<nat>): nat {
    if list == [] then 0 else CountOf(pages, list[0]) + CountIn(pages, list[1..])
  }

  lemma {:induction false} CountSame(pages: map<nat, Page>, p: nat, pg: Page, list: seq<nat>)
    requires p !in list
    ensures CountIn(pages[p := pg], list) == CountIn(pages, list)
  {
    if list != [] {
      CountSame(pages, p, pg, list[1..]);
    }
  }

  class SlabNode {
    const g: Geometry

    var cur: Opt              // cur_pg
    var pgOff: nat
    var full: seq<nat>
    var partial: seq<nat>
    var nrPages: int
    var pages: map<nat, Page>
    var supply: seq<nat>      // pages the page allocator can still hand out

    ghost var carved: map<nat, seq<Item>>
    ghost var live: set<Item>

    ghost predicate BlocksOk()
      reads this`pages, this`carved, this`live
    {
      Fits(g) && PagesOk(g, pages, carved, live)
    }

    ghost predicate PlacesOk()
      reads this`pages, this`carved, this`cur, this`full, this`partial
    {
      ListsOk(g, pages, carved, cur, full, partial)
    }

    /** The shared frontier is that of the current page, for as long as it matters. */
    ghost predicate FrontierOk()
      reads this`carved, this`cur, this`pgOff
    {
      cur.Some? ==> cur.t in carved && (|carved[cur.t]| < g.nr ==> pgOff == Off(g, |carved[cur.t]|))
    }

    ghost predicate SupplyOk()
      reads this`supply, this`pages
    {
      NoDup(supply) && forall p :: p in supply ==> p !in pages
    }

    ghost predicate Valid()
      reads this
    {
      BlocksOk() && PlacesOk() && FrontierOk() && SupplyOk()
    }

    /** All pages, handed out or not. */
    ghost function Pages(): set<nat>
      reads this`pages, this`supply
    {
      pages.Keys + Elems(supply)
    }

    /**
     The blocks that allocations can still reach: those of the current page, of the partly free pages and of
     the pages not yet handed out.  The few free blocks of a page on the full list are not among them.
     */
    ghost function Room(): nat
      reads this`cur, this`pages, this`partial, this`supply
    {
      (if cur.Some? then CountOf(pages, cur.t) else 0) + CountIn(pages, partial) + |supply| * g.nr
    }

    constructor (g: Geometry, supply: seq<nat>)
      requires Fits(g) && NoDup(supply)
      ensures Valid() && live == {} && this.g == g && Pages() == Elems(supply)
    {
      this.g, this.supply := g, supply;
      cur, pgOff, full, partial, nrPages, pages := None, 0, [], [], 0, map[];
      carved, live := map[], {};
      new;
      assert pages.Keys == {};
    }

    method ReusePage()
      requires Valid() && cur == None && partial != []
      modifies this`cur, this`partial
      ensures Valid() && cur.Some? && cur.t in pages && pages[cur.t].count > 0 && Room() == old(Room())
    {
      hide PagesOk, ListsOk;
      PopPartial(g, pages, carved, full, partial);
      cur := Some(partial[0]);
      partial := partial[1..];
    }

    method FreshPage()
      requires Valid() && cur == None && supply != []
      modifies this`cur, this`pages, this`carved, this`supply, this`pgOff
      ensures Valid() && Pages() == old(Pages()) && cur.Some? && cur.t in pages && pages[cur.t].count > 0
      ensures Room() == old(Room())
    {
      hide PagesOk, ListsOk;
      var p := supply[0];
      assert p in supply;
      InPages(g, pages, carved, cur, full, partial);
      CountSame(pages, p, Page(g.nr, []), partial);
      assert |supply| * g.nr == (|supply| - 1) * g.nr + g.nr;
      AddPage(g, pages, carved, live, full, partial, p);
      supply := supply[1..];
      cur, pgOff := Some(p), g.offset;
      pages := pages[p := Page(g.nr, [])];
      carved := carved[p := []];
      assert forall q :: q in old(supply) && q != p <==> q in supply;
    }

    /** __slab_node_get_page: a partly free page, else a fresh one, else none. */
    method GetPage()
      requires Valid() && cur == None
      modifies this`cur, this`partial, this`pages, this`carved, this`supply, this`pgOff
      ensures Valid() && Pages() == old(Pages())
      ensures cur.Some? ==> cur.t in pages && pages[cur.t].count > 0
      ensures cur == None <==> old(partial) == [] && old(supply) == []
      ensures Room() == old(Room())
    {
      if partial != [] {
        ReusePage();
      } else if supply != [] {
        FreshPage();
      }
    }

    /** The current page is used up and goes on the full list. */
    method RetireCur()
      requires Valid() && cur.Some? && cur.t in pages && pages[cur.t].count == 0
      modifies this`cur, this`full
      ensures Valid() && cur == None && Room() == old(Room())
    {
      hide PagesOk, ListsOk;
      RetirePage(g, pages, carved, live, cur.t, full, partial);
      full := [cur.t] + full;
      cur := None;
    }

    /** A block of the current page: the free list first, then the frontier. */
    method TakeBlock() returns (x: Item)
      requires Valid() && cur.Some? && cur.t in pages && pages[cur.t].count > 0
      modifies this`pages, this`carved, this`live, this`pgOff
      ensures Valid() && Pages() == old(Pages()) && x !in old(live) && live == old(live) + {x}
      ensures Room() == old(Room()) - 1
    {
      hide PagesOk, ListsOk;
      var p := cur.t;
      var pg := pages[p];
      InPages(g, pages, carved, cur, full, partial);
      CountSame(pages, p, Page(pg.count - 1, if pg.free != [] then pg.free[1..] else []), partial);
      CurPage(g, pages, carved, live, p, full, partial);
      if pg.free != [] {
        x := pg.free[0];
        PagePop(g, p, pg.count, pg.free, carved[p], live);
        PageUpdate(g, pages, carved, live, p, Page(pg.count - 1, pg.free[1..]), carved[p], x, true);
        CurUpdate(g, pages, carved, p, full, partial, Page(pg.count - 1, pg.free[1..]), carved[p]);
        assert carved[p := carved[p]] == carved;
        pages := pages[p := Page(pg.count - 1, pg.free[1..])];
      } else {
        x := Item(p, pgOff);
        PageCarve(g, p, pg.count, carved[p], live);
        PageUpdate(g, pages, carved, live, p, Page(pg.count - 1, []), carved[p] + [x], x, true);
        CurUpdate(g, pages, carved, p, full, partial, Page(pg.count - 1, []), carved[p] + [x]);
        NextOff(g, |carved[p]|);
        pgOff := pgOff + g.size;
        pages := pages[p := Page(pg.count - 1, [])];
        carved := carved[p := carved[p] + [x]];
      }
      live := live + {x};
      assert pages.Keys == old(pages.Keys);
    }

    /** __slab_node_alloc: a block nobody has, unless memory has run out. */
    method Alloc() returns (r: OptItem)
      requires Valid()
      modifies this`cur, this`full, this`partial, this`pages, this`carved, this`supply, this`pgOff, this`live,
               this`nrPages
      ensures Valid() && Pages() == old(Pages())
      ensures r.Got? ==> r.item !in old(live) && live == old(live) + {r.item}
      ensures r.NoItem? ==> live == old(live) && old(partial) == [] && old(supply) == []
      ensures r.NoItem? <==> old(Room()) == 0
      ensures Room() == old(Room()) - if r.Got? then 1 else 0
    {
      hide BlocksOk, PlacesOk, FrontierOk, SupplyOk;
      CurInPages();
      if cur == None || pages[cur.t].count == 0 {
        if cur.Some? {
          RetireCur();
        }
        GetPage();
        if cur == None {
          return NoItem;
        }
        nrPages := nrPages + 1;
      }
      var x := TakeBlock();
      return Got(x);
    }

    /** The item goes back on its page's free list. */
    method PutBlock(x: Item)
      requires Valid() && x in live && x.page in pages
      requires cur == Some(x.page) || (pages[x.page].count + 1 < g.nr && pages[x.page].count + 1 != THRESH)
      modifies this`pages, this`live
      ensures Valid() && pages.Keys == old(pages.Keys) && live == old(live) - {x}
      ensures pages[x.page].count == old(pages[x.page].count) + 1
    {
      hide PagesOk, ListsOk;
      var p := x.page;
      var pg := pages[p];
      SomePage(g, pages, carved, live, p);
      PagePush(g, p, pg.count, pg.free, carved[p], live, x);
      PageUpdate(g, pages, carved, live, p, Page(pg.count + 1, [x] + pg.free), carved[p], x, false);
      SameList(g, pages, carved, cur, full, partial, p, Page(pg.count + 1, [x] + pg.free));
      assert carved[p := carved[p]] == carved;
      pages := pages[p := Page(pg.count + 1, [x] + pg.free)];
      live := live - {x};
    }

    /** The item that makes a full page worth reusing. */
    method PutOnPartial(x: Item)
      requires Valid() && x in live && x.page in pages && cur != Some(x.page) && pages[x.page].count + 1 == THRESH
      modifies this`pages, this`live, this`full, this`partial
      ensures Valid() && pages.Keys == old(pages.Keys) && live == old(live) - {x}
    {
      hide PagesOk, ListsOk;
      var p := x.page;
      var pg := pages[p];
      SomePage(g, pages, carved, live, p);
      PagePush(g, p, pg.count, pg.free, carved[p], live, x);
      PageUpdate(g, pages, carved, live, p, Page(pg.count + 1, [x] + pg.free), carved[p], x, false);
      ToPartial(g, pages, carved, cur, full, partial, p, Page(pg.count + 1, [x] + pg.free));
      assert carved[p := carved[p]] == carved;
      pages := pages[p := Page(pg.count + 1, [x] + pg.free)];
      live := live - {x};
      full := Without(full, p);
      partial := [p] + partial;
    }

    /** The last item in use of a page: the page goes back to the page allocator. */
    method PutAndRelease(x: Item)
      requires Valid() && x in live && x.page in pages && cur != Some(x.page) && pages[x.page].count + 1 == g.nr
      modifies this`pages, this`live, this`partial, this`carved, this`supply, this`nrPages
      ensures Valid() && live == old(live) - {x} && Pages() == old(Pages()) && x.page !in pages
      ensures forall y :: y in live ==> y.page != x.page
    {
      hide PagesOk, ListsOk, Fits;
      var p := x.page;
      ReleasePage(g, pages, carved, live, cur, full, partial, x);
      assert p !in supply;
      ReturnPage(p);
      pages, nrPages := pages - {p}, nrPages - 1;
      carved, live := carved - {p}, live - {x};
      partial := Without(partial, p);
      assert Pages() == old(Pages());
    }

    method ReturnPage(p: nat)
      requires NoDup(supply) && p !in supply
      modifies this`supply
      ensures NoDup(supply) && forall q :: q in supply <==> q in old(supply) || q == p
    {
      supply := supply + [p];
    }

    /** slab_node_free: a page leaves exactly when it is not the current one and its last item in use is freed. */
    method Free(x: Item)
      requires Valid() && x in live
      modifies this`full, this`partial, this`pages, this`carved, this`supply, this`live, this`nrPages
      ensures Valid() && live == old(live) - {x} && Pages() == old(Pages())
      ensures x.page !in pages <==> cur != Some(x.page) && OnlyOne(old(live), x)
    {
      hide ListsOk, FrontierOk, SupplyOk, PageOk;
      var p := x.page;
      OtherPage(x);
      if cur == Some(p) {
        PutBlock(x);
        return;
      }
      if pages[p].count + 1 == THRESH {
        PutOnPartial(x);
      } else if pages[p].count + 1 == g.nr {
        PutAndRelease(x);
      } else {
        PutBlock(x);
      }
    }

    lemma OtherPage(x: Item)
      requires Valid() && x in live
      ensures x.page in pages && x.page in carved
      ensures cur != Some(x.page) ==>
                pages[x.page].count < g.nr && (OnlyOne(live, x) <==> pages[x.page].count + 1 == g.nr)
    {
      var p := x.page;
      assert PageOk(g, p, pages[p].count, pages[p].free, carved[p], live);
      if cur != Some(p) {
        LastInUse(g, p, pages[p].count, pages[p].free, carved[p], live, x);
      }
    }

    /** slab_tcache_alloc: all the items, or none and nothing stays in use. */
    method TcacheAlloc(nr: nat) returns (ok: bool, items: seq<Item>)
      requires Valid()
      modifies this
      ensures Valid() && Pages() == old(Pages())
      ensures ok ==> |items| == nr && NoDup(items) && (forall x :: x in items ==> x !in old(live))
      ensures ok ==> live == old(live) + Elems(items)
      ensures !ok ==> live == old(live)
      ensures ok <==> nr <= old(Room())
    {
      hide BlocksOk, PlacesOk, FrontierOk, SupplyOk, Room;
      items := [];
      for i := 0 to nr
        invariant Valid() && Pages() == old(Pages()) && |items| == i && NoDup(items) && Room() + i == old(Room())
        invariant forall x :: x in items ==> x !in old(live)
        invariant live == old(live) + Elems(items)
      {
        var r := Alloc();
        if r.NoItem? {
          Rollback(items);
          assert live == old(live);
          return false, items;
        }
        items := items + [r.item];
      }
      return true, items;
    }

    method Rollback(items: seq<Item>)
      requires Valid() && NoDup(items) && forall x :: x in items ==> x in live
      modifies this
      ensures Valid() && Pages() == old(Pages()) && live == old(live) - Elems(items)
    {
      hide BlocksOk, PlacesOk, FrontierOk, SupplyOk;
      var i := |items|;
      while i > 0
        invariant 0 <= i <= |items| && Valid() && Pages() == old(Pages())
        invariant live == old(live) - Elems(items[i..])
      {
        i := i - 1;
        assert items[i] in items && items[i] !in items[i + 1..];
        assert items[i..] == [items[i]] + items[i + 1..];
        Free(items[i]);
      }
      assert items[0..] == items;
    }

    /** slab_tcache_free */
    method TcacheFree(items: seq<Item>)
      requires Valid() && NoDup(items) && forall x :: x in items ==> x in live
      modifies this
      ensures Valid() && Pages() == old(Pages()) && live == old(live) - Elems(items)
    {
      hide BlocksOk, PlacesOk, FrontierOk, SupplyOk;
      for i := 0 to |items|
        invariant Valid() && Pages() == old(Pages()) && live == old(live) - Elems(items[..i])
      {
        assert items[i] in items && items[i] !in items[..i];
        assert items[..i + 1] == items[..i] + [items[i]];
        Free(items[i]);
      }
      assert items[..|items|] == items;
    }

    /** Items in use are disjoint stretches of bytes, each inside its page. */
    lemma LiveItemsDisjoint(x: Item, y: Item)
      requires Valid() && x in live && y in live && x != y
      ensures x.off + g.size <= g.pgsize
      ensures x.page == y.page ==> x.off + g.size <= y.off || y.off + g.size <= x.off
    {
      hide Fits, Off, PlacesOk, FrontierOk, SupplyOk;
      var j := BlockOf(g, x.page, pages[x.page].count, pages[x.page].free, carved[x.page], live, x);
      var k := BlockOf(g, y.page, pages[y.page].count, pages[y.page].free, carved[y.page], live, y);
      BlockInPage(g, j);
      if x.page == y.page && j < k {
        BlocksDisjoint(g, j, k);
      } else if x.page == y.page {
        BlocksDisjoint(g, k, j);
      }
    }

    lemma CurInPages()
      requires Valid()
      ensures cur.Some? ==> cur.t in pages
    {
    }
  }

  /** The current page is on no list, and the lists hold pages that were handed out. */
  lemma InPages(g: Geometry, pages: map<nat, Page>, carved: map<nat, seq<Item>>, cur: Opt, full: seq<nat>,
                partial: seq<nat>)
    requires ListsOk(g, pages, carved, cur, full, partial)
    ensures forall p :: p in partial ==> p in pages && cur != Some(p)
  {
  }

  lemma SomePage(g: Geometry, pages: map<nat, Page>, carved: map<nat, seq<Item>>, live: set<Item>, p: nat)
    requires PagesOk(g, pages, carved, live) && p in pages
    ensures p in carved && PageOk(g, p, pages[p].count, pages[p].free, carved[p], live)
  {
  }

  lemma SameList(g: Geometry, pages: map<nat, Page>, carved: map<nat, seq<Item>>, cur: Opt, full: seq<nat>,
                 partial: seq<nat>, p: nat, pg: Page)
    requires ListsOk(g, pages, carved, cur, full, partial) && p in pages
    requires cur == Some(p) || (pg.count < g.nr && (pg.count < THRESH <==> pages[p].count < THRESH))
    ensures ListsOk(g, pages[p := pg], carved, cur, full, partial)
  {
  }

  lemma ToPartial(g: Geometry, pages: map<nat, Page>, carved: map<nat, seq<Item>>, cur: Opt, full: seq<nat>,
                  partial: seq<nat>, p: nat, pg: Page)
    requires ListsOk(g, pages, carved, cur, full, partial) && p in pages && cur != Some(p) && Fits(g)
    requires pages[p].count < THRESH && pg.count == THRESH
    ensures ListsOk(g, pages[p := pg], carved, cur, Without(full, p), [p] + partial)
  {
    assert p in full && p !in partial;
  }

  /** A page about to be released was on the partial list. */
  lemma OffPartial(g: Geometry, pages: map<nat, Page>, carved: map<nat, seq<Item>>, cur: Opt, full: seq<nat>,
                   partial: seq<nat>, p: nat, pg: Page)
    requires ListsOk(g, pages, carved, cur, full, partial) && p in pages && cur != Some(p) && Fits(g)
    requires pages[p].count + 1 == g.nr
    ensures ListsOk(g, pages - {p}, carved - {p}, cur, full, Without(partial, p))
  {
    assert p in partial && p !in full;
  }

  /** When every block counts as free, no item of the page is in use. */
  lemma AllFree(g: Geometry, p: nat, count: nat, free: seq<Item>, carved: seq<Item>, live: set<Item>)
    requires PageOk(g, p, count, free, carved, live) && count == g.nr
    ensures forall x :: x in live ==> x.page != p
  {
    forall x | x in live && x.page == p ensures false {
      Pigeon(free, carved, x);
    }
  }

  ghost predicate OnlyOne(live: set<Item>, x: Item) {
    forall y :: y in live && y.page == x.page ==> y == x
  }

  /** Of a fully carved page, the blocks not counted as free are the items in use. */
  lemma LastInUse(g: Geometry, p: nat, count: nat, free: seq<Item>, carved: seq<Item>, live: set<Item>, x: Item)
    requires Fits(g) && PageOk(g, p, count, free, carved, live) && |carved| == g.nr && x in live && x.page == p
    ensures OnlyOne(live, x) <==> count + 1 == g.nr
  {
    var f, c := Elems(free), Elems(carved);
    CarvedDistinct(g, p, carved);
    ElemsCard(free);
    ElemsCard(carved);
    if OnlyOne(live, x) {
      forall y | y in c ensures y in f + {x} { assert y.page == p; }
      assert c == f + {x};
    } else {
      var y :| y in live && y.page == x.page && y != x;
      assert f + {x, y} <= c;
      SubsetCard(f + {x, y}, c);
      assert |f + {x, y}| == |f| + 2;
    }
  }

  lemma CarvedDistinct(g: Geometry, p: nat, carved: seq<Item>)
    requires Fits(g) && |carved| <= g.nr && forall k :: 0 <= k < |carved| ==> carved[k] == Item(p, Off(g, k))
    ensures NoDup(carved)
  {
    forall i, j | 0 <= i < j < |carved| ensures carved[i] != carved[j] { BlocksDisjoint(g, i, j); }
  }

  lemma ReleasePage(g: Geometry, pages: map<nat, Page>, carved: map<nat, seq<Item>>, live: set<Item>, cur: Opt,
                    full: seq<nat>, partial: seq<nat>, x: Item)
    requires Fits(g) && PagesOk(g, pages, carved, live) && ListsOk(g, pages, carved, cur, full, partial)
    requires x in live && x.page in pages && cur != Some(x.page) && pages[x.page].count + 1 == g.nr
    ensures PagesOk(g, pages - {x.page}, carved - {x.page}, live - {x})
    ensures ListsOk(g, pages - {x.page}, carved - {x.page}, cur, full, Without(partial, x.page))
    ensures forall y :: y in live - {x} ==> y.page != x.page
  {
    hide PagesOk, ListsOk;
    var p := x.page;
    var pg := Page(pages[p].count + 1, [x] + pages[p].free);
    SomePage(g, pages, carved, live, p);
    PagePush(g, p, pages[p].count, pages[p].free, carved[p], live, x);
    PageUpdate(g, pages, carved, live, p, pg, carved[p], x, false);
    assert carved[p := carved[p]] == carved;
    AllFree(g, p, pg.count, pg.free, carved[p], live - {x});
    RemovePage(g, pages[p := pg], carved, live - {x}, p);
    OffPartial(g, pages, carved, cur, full, partial, p, pg);
    assert pages[p := pg] - {p} == pages - {p};
  }

  lemma RemovePage(g: Geometry, pages: map<nat, Page>, carved: map<nat, seq<Item>>, live: set<Item>, p: nat)
    requires PagesOk(g, pages, carved, live) && forall x :: x in live ==> x.page != p
    ensures PagesOk(g, pages - {p}, carved - {p}, live)
  {
  }

  lemma PopPartial(g: Geometry, pages: map<nat, Page>, carved: map<nat, seq<Item>>, full: seq<nat>, partial: seq<nat>)
    requires ListsOk(g, pages, carved, None, full, partial) && partial != []
    ensures ListsOk(g, pages, carved, Some(partial[0]), full, partial[1..])
    ensures partial[0] in pages && pages[partial[0]].count >= THRESH && |carved[partial[0]]| == g.nr
  {
    var p := partial[0];
    assert p in partial;
    assert forall q :: q in partial && q != p <==> q in partial[1..];
  }

  lemma AddPage(g: Geometry, pages: map<nat, Page>, carved: map<nat, seq<Item>>, live: set<Item>,
                full: seq<nat>, partial: seq<nat>, p: nat)
    requires PagesOk(g, pages, carved, live) && ListsOk(g, pages, carved, None, full, partial) && p !in pages
    ensures PagesOk(g, pages[p := Page(g.nr, [])], carved[p := []], live)
    ensures ListsOk(g, pages[p := Page(g.nr, [])], carved[p := []], Some(p), full, partial)
  {
    assert forall x :: x in live ==> x.page != p;
    var pages', carved' := pages[p := Page(g.nr, [])], carved[p := []];
    forall q | q in pages' ensures PageOk(g, q, pages'[q].count, pages'[q].free, carved'[q], live) {
      assert q != p ==> PageOk(g, q, pages[q].count, pages[q].free, carved[q], live);
    }
  }

  /** A used-up page has no uncarved blocks left. */
  lemma RetirePage(g: Geometry, pages: map<nat, Page>, carved: map<nat, seq<Item>>, live: set<Item>,
                   p: nat, full: seq<nat>, partial: seq<nat>)
    requires PagesOk(g, pages, carved, live) && ListsOk(g, pages, carved, Some(p), full, partial)
    requires Fits(g) && p in pages && pages[p].count == 0
    ensures ListsOk(g, pages, carved, None, [p] + full, partial)
  {
    assert PageOk(g, p, pages[p].count, pages[p].free, carved[p], live);
    assert p !in full && p !in partial;
  }

  lemma CurPage(g: Geometry, pages: map<nat, Page>, carved: map<nat, seq<Item>>, live: set<Item>,
                p: nat, full: seq<nat>, partial: seq<nat>)
    requires PagesOk(g, pages, carved, live) && ListsOk(g, pages, carved, Some(p), full, partial)
    ensures p in pages && p in carved && PageOk(g, p, pages[p].count, pages[p].free, carved[p], live)
  {
  }

  lemma CurUpdate(g: Geometry, pages: map<nat, Page>, carved: map<nat, seq<Item>>, p: nat,
                  full: seq<nat>, partial: seq<nat>, pg: Page, c: seq<Item>)
    requires ListsOk(g, pages, carved, Some(p), full, partial)
    ensures ListsOk(g, pages[p := pg], carved[p := c], Some(p), full, partial)
  {
  }

  lemma NextOff(g: Geometry, k: nat)
    ensures Off(g, k + 1) == Off(g, k) + g.size
  {
  }
}
