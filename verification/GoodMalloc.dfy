/** The paged list store: lists of ints, kept on pages of a byte memory and found through a symbol
    table. */
module GoodMalloc {
  import opened Bytes
  import opened Finite
  import opened MapOrder
  import opened PageTables

  const NUM_SYM_TABLE_ENTRIES := 100000

  // Whole pages for so many bytes.
  function CeilPages(size: nat): (pages: nat)
    ensures size <= PAGE_SIZE * pages < size + PAGE_SIZE
  {
    (size + PAGE_SIZE - 1) / PAGE_SIZE
  }

  class Store {
    // mem_Block
    const numPages: nat
    const mem: array<byte>
    var freeList: set<nat>      // a min-heap of page numbers
    var numFreePages: nat
    // Sym_Table
    const entries: array<Entry>
    var firstFree: int
    var numFreeEntries: nat
    // globals
    var listMap: map<Key, nat>
    var currScope: int
    var maxPagesUsed: nat

    ghost var chain: seq<nat>                  // the free entries, in order
    ghost var lists: map<Key, seq<int32>>      // the contents of all live lists
    ghost var leaked: set<nat>                 // pages that no operation can reach any more
    ghost var peak: nat                        // the most pages ever in use at once

    ghost function Image(): Image
      reads this, mem, entries
    {
      PageTables.Image(mem[..], entries[..], listMap, firstFree, numFreeEntries, chain, freeList, numFreePages, leaked, numPages, lists)
    }

    ghost predicate Valid()
      reads this, mem, entries
    {
      StoreOk(Image())
    }

    /** createMem: the size is rounded up to whole pages, all of them free. */
    constructor (size: nat)
      ensures Valid() && fresh(mem) && fresh(entries)
      ensures size <= PAGE_SIZE * numPages < size + PAGE_SIZE
      ensures numPages == CeilPages(size) && numFreePages == numPages && numFreeEntries == NUM_SYM_TABLE_ENTRIES
      ensures listMap == map[] && lists == map[] && leaked == {} && currScope == -1
      ensures forall i :: 0 <= i < mem.Length ==> mem[i] == 0
      ensures forall p :: p in freeList <==> 0 <= p < numPages
    {
      numPages := CeilPages(size);
      mem := new byte[MemSize(CeilPages(size))];
      entries := new Entry[NUM_SYM_TABLE_ENTRIES];
      freeList, numFreePages := {}, 0;
      firstFree, numFreeEntries := 0, NUM_SYM_TABLE_ENTRIES;
      listMap, currScope, maxPagesUsed := map[], -1, 0;
      chain, lists, leaked, peak := UpTo(NUM_SYM_TABLE_ENTRIES), map[], {}, 0;
      new;
      InitPages();
      InitEntries();
      hide StoreOk, CeilPages, UpTo;
      FreshStore(Image(), NUM_SYM_TABLE_ENTRIES);
    }

    /** mem_Block::init clears the memory and pushes every page on the free list. */
    method InitPages()
      modifies mem, this`freeList, this`numFreePages
      ensures forall p :: p in freeList <==> 0 <= p < numPages
      ensures numFreePages == numPages == |freeList|
      ensures forall i :: 0 <= i < mem.Length ==> mem[i] == 0
    {
      forall i | 0 <= i < mem.Length {
        mem[i] := 0;
      }
      freeList, numFreePages := {}, numPages;
      for i := 0 to numPages
        modifies this`freeList
        invariant forall p :: p in freeList <==> 0 <= p < i
        invariant |freeList| == i && numFreePages == numPages
      {
        freeList := freeList + {i};
      }
    }

    /** Sym_Table::init links each entry to the next. */
    method InitEntries()
      requires entries.Length == NUM_SYM_TABLE_ENTRIES
      modifies entries
      ensures forall i :: 0 <= i < NUM_SYM_TABLE_ENTRIES ==>
                entries[i] == Entry(if i + 1 < NUM_SYM_TABLE_ENTRIES then i + 1 else NIL, 0, 0, [])
    {
      for i := 0 to NUM_SYM_TABLE_ENTRIES - 1
        invariant forall k :: 0 <= k < i ==> entries[k] == Entry(k + 1, 0, 0, [])
      {
        entries[i] := Entry(i + 1, 0, 0, []);
      }
      entries[NUM_SYM_TABLE_ENTRIES - 1] := Entry(NIL, 0, 0, []);
    }

    /** Take pages off the free list, always the lowest. */
    method AllocatePages(needed: nat) returns (mapping: seq<nat>)
      requires needed <= |freeList|
      modifies this`freeList
      ensures |mapping| == needed && Taken(old(freeList), freeList, mapping)
    {
      mapping := [];
      assert Taken(old(freeList), freeList, []);
      assert Taken(old(freeList), freeList, mapping) ==> |freeList| + |mapping| == |old(freeList)|;
      while |mapping| < needed
        invariant |mapping| <= needed && Taken(old(freeList), freeList, mapping)
      {
        LeastExists(freeList);
        var page :| page in freeList && forall q :: q in freeList ==> page <= q;
        TakeNext(old(freeList), freeList, mapping, page);
        freeList := freeList - {page};
        mapping := mapping + [page];
      }
    }

    /** addEntry: take the first free entry, unless there is none or the name is taken. */
    method AddEntry(k: Key, mapping: seq<nat>, capacity: nat) returns (entryNum: int)
      requires numFreeEntries > 0 ==> 0 <= firstFree < entries.Length
      modifies this`firstFree, this`numFreeEntries, this`listMap, entries
      ensures entryNum == -1 <==> old(numFreeEntries) == 0 || k in old(listMap)
      ensures entryNum == -1 ==> unchanged(this) && unchanged(entries)
      ensures entryNum != -1 ==>
                && entryNum == old(firstFree) && firstFree == old(entries[firstFree].next)
                && numFreeEntries == old(numFreeEntries) - 1 && listMap == old(listMap)[k := entryNum]
                && entries[..] == old(entries[..])[entryNum := Entry(NIL, 0, capacity, mapping)]
    {
      if numFreeEntries == 0 {
        return -1;
      }
      if k in listMap {
        return -1;
      }
      entryNum := firstFree;
      firstFree := entries[firstFree].next;
      numFreeEntries := numFreeEntries - 1;
      listMap := listMap[k := entryNum];
      entries[entryNum] := Entry(NIL, 0, capacity, mapping);
    }

    /** The part of createList after its checks: pages, counters, symbol-table entry. */
    method CommitList(k: Key, size: nat, needed: nat) returns (ghost pages: seq<nat>)
      requires Valid() && k !in listMap && numFreeEntries > 0 && PagesFor(size) == needed <= numFreePages
      modifies this, entries
      ensures Valid() && currScope == old(currScope)
      ensures CanCreate(old(Image()), k, size, pages) && Image() == Created(old(Image()), k, size, pages)
      ensures Lowest(pages, freeList)
      ensures maxPagesUsed == numPages - numFreePages && peak == Max(old(peak), maxPagesUsed)
    {
      hide StoreOk, CanCreate, Created, Taken, SetOf, Distinct, PagesFor;
      ghost var s0 := Image();
      FreeBelow(s0);
      var mapping := AllocatePages(needed);
      CreateFields(s0, k, size, mapping, freeList);
      Register(k, size, mapping, s0);
      pages := mapping;
    }

    // The symbol-table entry of a new list on these pages, and the counters. s0 is the store before.
    method Register(k: Key, size: nat, mapping: seq<nat>, ghost s0: Image)
      requires Image() == s0.(freeList := freeList) && StoreOk(s0) && CanCreate(s0, k, size, mapping)
      requires numFreeEntries > 0 && k !in listMap && 0 <= s0.firstFree < |s0.entries| && s0.chain != []
      requires |mapping| <= numFreePages <= numPages
      requires Created(s0, k, size, mapping) ==
               s0.(entries := s0.entries[s0.firstFree := Entry(NIL, 0, size, mapping)], listMap := s0.listMap[k := s0.firstFree],
                   firstFree := s0.entries[s0.firstFree].next, numFreeEntries := s0.numFreeEntries - 1, chain := s0.chain[1..],
                   freeList := freeList, numFreePages := s0.numFreePages - |mapping|, lists := Created(s0, k, size, mapping).lists)
      modifies entries, this`listMap, this`firstFree, this`numFreeEntries, this`numFreePages, this`maxPagesUsed, this`peak, this`chain, this`lists
      ensures Image() == Created(s0, k, size, mapping)
      ensures maxPagesUsed == numPages - numFreePages && peak == Max(old(peak), maxPagesUsed)
    {
      hide StoreOk, CanCreate, Created;
      var entryNum := AddEntry(k, mapping, size);
      // createList has checked all that addEntry could refuse
      assert entryNum != -1;
      numFreePages := numFreePages - |mapping|;
      maxPagesUsed := numPages - numFreePages;
      peak, chain, lists := Max(peak, maxPagesUsed), chain[1..], Created(s0, k, size, mapping).lists;
    }

    /** createList either creates the list on the lowest free pages, or returns -1 and leaves the
        whole store as it was; which of the two is settled by the three checks. */
    method CreateList(size: nat, name: string) returns (r: int, ghost pages: seq<nat>)
      requires Valid()
      modifies this, entries
      ensures Valid() && currScope == old(currScope)
      ensures r == (if old(numFreeEntries) > 0 && (old(currScope), name) !in old(listMap) && size <= NUM_ELEM_PER_PAGE * old(numFreePages) then 1 else -1)
      ensures r == -1 ==> unchanged(this) && unchanged(entries)
      ensures r == 1 ==>
                && CanCreate(old(Image()), (currScope, name), size, pages)
                && Image() == Created(old(Image()), (currScope, name), size, pages)
                && Lowest(pages, freeList)
      ensures r == 1 ==> numFreePages == old(numFreePages) - |pages| && FewestPages(size, |pages|)
      ensures r == 1 ==> maxPagesUsed == numPages - numFreePages && peak == Max(old(peak), maxPagesUsed)
    {
      r, pages := -1, [];
      if numFreeEntries == 0 {
        return;
      }
      if (currScope, name) in listMap {
        return;
      }
      var needed := PagesFor(size);
      FitsIff(size, numFreePages);
      PagesForIsFewest(size);
      if numFreePages < needed {
        return;
      }
      hide *;
      pages := CommitList((currScope, name), size, needed);
      r := 1;
    }

    /** compute_mem_address, -1 for an offset out of bounds. */
    method ComputeMemAddress(k: Key, off: nat) returns (address: int)
      requires Valid() && k in listMap
      ensures Live(Image(), k)
      ensures off >= |lists[k]| ==> address == -1
      ensures off < |lists[k]| ==>
                && PageIndex(off) < |entries[listMap[k]].pages| && address == Address(entries[listMap[k]].pages, off)
                && address + SIZEOF_INT <= mem.Length && Decode(mem[address..address + SIZEOF_INT]) == lists[k][off]
    {
      hide StoreOk;
      ElementFacts(Image(), k, off);
      var e := listMap[k];
      if off >= entries[e].capacity {
        return -1;
      }
      var pageNum := off * SIZEOF_INT / PAGE_SIZE;
      var offsetWithinPage := off * SIZEOF_INT % PAGE_SIZE;
      address := entries[e].pages[pageNum] * PAGE_SIZE + offsetWithinPage;
      assert mem[..][address..address + SIZEOF_INT] == mem[address..address + SIZEOF_INT];
    }

    // memcpy of one int into the memory
    method WriteInt(address: nat, value: int32)
      requires address + SIZEOF_INT <= mem.Length
      modifies mem
      ensures Wrote(old(mem[..]), mem[..], address, value)
    {
      var bs := Encode(value);
      for i := 0 to SIZEOF_INT
        invariant forall j :: 0 <= j < mem.Length ==> mem[j] == if address <= j < address + i then bs[j - address] else old(mem[j])
      {
        mem[address + i] := bs[i];
      }
      assert mem[..][address..address + SIZEOF_INT] == bs;
    }

    // Both branches of assignVal, for the entry they found.
    method StoreInto(k: Key, off: nat, value: int32)
      requires Valid() && k in listMap && k in lists && off < |lists[k]|
      modifies mem, entries, this`lists
      ensures Valid() && AssignStep(old(Image()), k, off, value, Image())
    {
      hide StoreOk, Wrote, CellOk;
      ghost var s0 := Image();
      var address := ComputeMemAddress(k, off);
      WriteInt(address, value);
      AssignKeeps(s0, k, off, value, mem[..]);
      var e := listMap[k];
      entries[e] := entries[e].(size := entries[e].size + 1);
      lists := lists[k := lists[k][off := value]];
    }

    /** assignVal: one element of the list the name means is set, and all other elements of all
        lists stay; with an unknown name nothing happens. */
    method AssignVal(name: string, off: nat, value: int32)
      requires Valid()
      requires match Resolve(listMap, currScope, name) case Found(k) => k in lists && off < |lists[k]| case NotFound => true
      modifies mem, entries, this`lists
      ensures Valid()
      ensures match Resolve(listMap, currScope, name)
              case Found(k) => AssignStep(old(Image()), k, off, value, Image())
              case NotFound => Image() == old(Image())
    {
      hide StoreOk, AssignStep;
      if (currScope, name) in listMap {
        StoreInto((currScope, name), off, value);
      } else if (0, name) in listMap {
        StoreInto((0, name), off, value);
      }
    }

    /** getVal reads the element that was last assigned; with an unknown name there is no value. */
    method GetVal(name: string, off: nat) returns (found: bool, value: int32)
      requires Valid()
      requires match Resolve(listMap, currScope, name) case Found(k) => k in lists && off < |lists[k]| case NotFound => true
      ensures match Resolve(listMap, currScope, name)
              case Found(k) => found && value == lists[k][off] && GetStep(Image(), k, off, value)
              case NotFound => !found
    {
      hide StoreOk;
      found, value := false, 0;
      if (currScope, name) in listMap {
        var address := ComputeMemAddress((currScope, name), off);
        found, value := true, Decode(mem[address..address + SIZEOF_INT]);
      } else if (0, name) in listMap {
        var address := ComputeMemAddress((0, name), off);
        found, value := true, Decode(mem[address..address + SIZEOF_INT]);
      }
    }

    /** freeList, for a list of the current scope: its pages become free again, its entry becomes
        the first of the free chain. Any other name is ignored. */
    method FreeList(name: string)
      requires Valid()
      modifies entries, this`listMap, this`firstFree, this`numFreeEntries, this`freeList, this`numFreePages, this`chain, this`lists
      ensures Valid()
      ensures (currScope, name) in old(listMap) ==>
                Live(old(Image()), (currScope, name)) && Image() == Removed(old(Image()), (currScope, name), true)
      ensures (currScope, name) !in old(listMap) ==> Image() == old(Image())
    {
      hide StoreOk, Live, Removed, SetOf;
      var k := (currScope, name);
      if k in listMap {
        RemoveFields(Image(), k);
        var e := listMap[k];
        listMap := listMap - {k};
        var pages := entries[e].pages;
        PushPages(pages);
        numFreePages := numFreePages + |pages|;
        entries[e] := Entry(firstFree, 0, 0, []);
        firstFree, numFreeEntries := e, numFreeEntries + 1;
        chain, lists := [e as nat] + chain, lists - {k};
      }
    }

    method PushPages(pages: seq<nat>)
      modifies this`freeList
      ensures freeList == old(freeList) + SetOf(pages)
    {
      for i := 0 to |pages|
        invariant freeList == old(freeList) + SetOf(pages[..i])
      {
        assert pages[..i + 1] == pages[..i] + [pages[i]];
        freeList := freeList + {pages[i]};
      }
      assert pages[..|pages|] == pages;
    }

    /** deleteEntry forgets a list but does not give its pages back. */
    method DeleteEntry(k: Key)
      requires Valid()
      modifies entries, this`listMap, this`firstFree, this`numFreeEntries, this`chain, this`lists, this`leaked
      ensures Valid()
      ensures k in old(listMap) ==> Live(old(Image()), k) && Image() == Removed(old(Image()), k, false)
      ensures k !in old(listMap) ==> Image() == old(Image())
    {
      hide StoreOk;
      if k !in listMap {
        return;
      }
      ElementFacts(Image(), k, 0);
      RemoveKeeps(Image(), k, false);
      var e := listMap[k];
      listMap := listMap - {k};
      leaked := leaked + SetOf(entries[e].pages);
      entries[e] := Entry(firstFree, 0, 0, []);
      firstFree, numFreeEntries := e, numFreeEntries + 1;
      chain, lists := [e as nat] + chain, lists - {k};
    }

    method InitScope()
      requires Valid()
      modifies this`currScope
      ensures Valid() && Image() == old(Image()) && currScope == old(currScope) + 1
    {
      currScope := currScope + 1;
    }

    /** endScope deletes the first list of the scope, in the order of list_map, if there is any, and
        steps back. */
    method EndScope() returns (ghost k: Key)
      requires Valid()
      modifies entries, this`listMap, this`firstFree, this`numFreeEntries, this`chain, this`lists, this`leaked, this`currScope
      ensures Valid() && currScope == old(currScope) - 1
      ensures (exists x :: x in old(listMap) && x.0 == old(currScope)) ==>
                IsFirst(old(listMap).Keys, old(currScope), k) && Live(old(Image()), k) && Image() == Removed(old(Image()), k, false)
      ensures !(exists x :: x in old(listMap) && x.0 == old(currScope)) ==> Image() == old(Image())
    {
      hide StoreOk, Removed, NameLe;
      k := (currScope, "");
      if exists x :: x in listMap && x.0 == currScope {
        FirstExists(listMap.Keys, currScope);
        ghost var first :| IsFirst(listMap.Keys, currScope, first);
        assert first in listMap;
        var x :| x in listMap && IsFirst(listMap.Keys, currScope, x);
        DeleteEntry(x);
        k := x;
      }
      currScope := currScope - 1;
    }
  }

  function Max(a: nat, b: nat): nat {
    if a < b then b else a
  }
}
