/** The addressing of goodmalloc.cpp as written: the byte address of an element is used as an index
    into an int pointer. The index is four times too large, and this says for which lists it still
    lies inside the memory. */
module IntAddressing {
  import opened Bytes
  import opened PageTables
  import opened GoodMalloc

  // How many ints the memory has.
  function IntsOf(numPages: nat): nat {
    numPages * NUM_ELEM_PER_PAGE
  }

  // The number of the cell, counted through the whole memory, that element off lies in.
  function Cell(pages: seq<nat>, off: nat): nat
    requires PageIndex(off) < |pages|
  {
    pages[PageIndex(off)] * NUM_ELEM_PER_PAGE + off % NUM_ELEM_PER_PAGE
  }

  /** The index of a cell is four times its number: inside the memory exactly for its first quarter. */
  lemma {:induction false} CellInsideIff(pages: seq<nat>, off: nat, numPages: nat)
    requires PageIndex(off) < |pages|
    ensures Address(pages, off) == 4 * Cell(pages, off)
    ensures Address(pages, off) < IntsOf(numPages) <==> Cell(pages, off) < 5 * numPages
  {
    PlaceIs(off);
    hide PageIndex, PlaceOnPage;
  }

  lemma {:induction false} PlaceIs(off: nat)
    ensures PlaceOnPage(off) == 4 * (off % NUM_ELEM_PER_PAGE) && PageIndex(off) == off / NUM_ELEM_PER_PAGE
  {
    var q, r := off / NUM_ELEM_PER_PAGE, off % NUM_ELEM_PER_PAGE;
    assert off * SIZEOF_INT == PAGE_SIZE * q + 4 * r;
  }

  // Every element of the list has an index inside the memory.
  ghost predicate AllInside(s: Image, k: Key) {
    && Live(s, k)
    && forall off :: 0 <= off < |s.lists[k]| ==>
         PageIndex(off) < |s.entries[s.listMap[k]].pages| && Address(s.entries[s.listMap[k]].pages, off) < IntsOf(s.numPages)
  }

  // All cells of the list are among the first quarter of the memory.
  ghost predicate InFirstQuarter(s: Image, k: Key) {
    && Live(s, k)
    && forall off :: 0 <= off < |s.lists[k]| ==>
         PageIndex(off) < |s.entries[s.listMap[k]].pages| && Cell(s.entries[s.listMap[k]].pages, off) < 5 * s.numPages
  }

  /** In any store: as written, a live list stays inside the memory if and only if all its cells are in
      the first quarter of it. */
  lemma {:induction false} ListInsideIff(s: Image, k: Key)
    requires StoreOk(s) && k in s.listMap
    ensures AllInside(s, k) <==> InFirstQuarter(s, k)
  {
    ElementFacts(s, k, 0);
    hide StoreOk, PageIndex, Address, Cell;
    var pages := s.entries[s.listMap[k]].pages;
    forall off: nat | PageIndex(off) < |pages|
      ensures Address(pages, off) < IntsOf(s.numPages) <==> Cell(pages, off) < 5 * s.numPages
    {
      CellInsideIff(pages, off, s.numPages);
    }
  }

  // The lowest pages of a store in which all are free are the first ones, in order.
  lemma {:induction false} FirstPages(pages: seq<nat>, free: set<nat>, numPages: nat, i: nat)
    requires Lowest(pages, free) && i < |pages| && (forall p :: p in pages ==> p < numPages)
    requires forall p :: 0 <= p < numPages ==> p in pages || p in free
    ensures pages[i] == i
    decreases i
  {
    if i > 0 {
      FirstPages(pages, free, numPages, i - 1);
    }
    assert pages[i] in pages;
    if pages[i] > i {
      if i in pages {
        var j :| 0 <= j < |pages| && pages[j] == i;
        if j < i {
          FirstPages(pages, free, numPages, j);
        }
      }
      assert false;
    }
  }

  /** The first list of a fresh store: as written, it stays inside the memory if and only if it has at
      most a quarter of the memory's ints. */
  lemma {:induction false} FirstListInsideIff(s: Image, k: Key, size: nat, pages: seq<nat>)
    requires StoreOk(s) && CanCreate(s, k, size, pages)
    requires (forall p :: p in s.freeList <==> 0 <= p < s.numPages) && Lowest(pages, s.freeList - SetOf(pages))
    ensures AllInside(Created(s, k, size, pages), k) <==> size <= 5 * s.numPages
  {
    var c := Created(s, k, size, pages);
    CreateKeeps(s, k, size, pages);
    ListInsideIff(c, k);
    FirstListFacts(s, k, size, pages);
    hide StoreOk, CanCreate, Created, Lowest, AllInside, PagesFor;
    forall off: nat | off < size ensures PageIndex(off) < |pages| && Cell(pages, off) == off {
      hide PageIndex, Cell, InFirstQuarter;
      CellIsItself(pages, s.freeList - SetOf(pages), s.numPages, size, off);
    }
    if size > 5 * s.numPages {
      assert Cell(pages, size - 1) == size - 1;
    }
  }

  // On the first pages, in order, element off lies in cell off.
  lemma {:induction false} CellIsItself(pages: seq<nat>, free: set<nat>, numPages: nat, size: nat, off: nat)
    requires Lowest(pages, free) && |pages| == PagesFor(size) && off < size && (forall p :: p in pages ==> p < numPages)
    requires forall p :: 0 <= p < numPages ==> p in pages || p in free
    ensures PageIndex(off) < |pages| && Cell(pages, off) == off
  {
    hide Lowest, PagesFor;
    InPages(size, off);
    FirstPages(pages, free, numPages, PageIndex(off));
    PlaceIs(off);
  }

  lemma {:induction false} InPages(size: nat, off: nat)
    requires off < size
    ensures PageIndex(off) < PagesFor(size)
  {
  }

  lemma {:induction false} FirstListFacts(s: Image, k: Key, size: nat, pages: seq<nat>)
    requires StoreOk(s) && CanCreate(s, k, size, pages)
    requires forall p :: p in s.freeList <==> 0 <= p < s.numPages
    ensures var c := Created(s, k, size, pages);
            && Live(c, k) && |c.lists[k]| == size && c.entries[c.listMap[k]].pages == pages && c.numPages == s.numPages
    ensures Created(s, k, size, pages).freeList == s.freeList - SetOf(pages)
    ensures |pages| == PagesFor(size) && (forall p :: p in pages ==> p < s.numPages)
    ensures forall p :: 0 <= p < s.numPages ==> p in pages || p in s.freeList - SetOf(pages)
  {
    CreateFacts(s, k, size, pages);
  }

  /** createMem, initScope, createList: when the list fits into the memory at all, its elements can be
      assigned and read as written if and only if it has at most a quarter of the ints. */
  method FirstList(bytes: nat, size: nat, name: string) returns (s: Store, r: int)
    ensures fresh(s) && s.Valid() && bytes <= PAGE_SIZE * s.numPages < bytes + PAGE_SIZE
    ensures r == (if size <= NUM_ELEM_PER_PAGE * s.numPages then 1 else -1)
    ensures r == 1 ==> (AllInside(s.Image(), (0, name)) <==> size <= 5 * s.numPages)
  {
    hide StoreOk, AllInside, CanCreate, Created, Lowest, PagesFor;
    s := new Store(bytes);
    s.InitScope();
    ghost var s0 := s.Image();
    ghost var pages;
    r, pages := s.CreateList(size, name);
    if r == 1 {
      FirstListFacts(s0, (0, name), size, pages);
      FirstListInsideIff(s0, (0, name), size, pages);
    }
  }

  /** The smallest failure: in a memory of one page, 20 ints, element 5 of a list of 20 has index 20. */
  lemma {:induction false} OnePageWitness()
    ensures Address([0], 4) < IntsOf(1) && Address([0], 5) == IntsOf(1) == 20
  {
    assert PageIndex(4) == 0 && PageIndex(5) == 0;
  }
}
