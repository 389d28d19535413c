/** The bookkeeping of the paged list store, as invariants over its tables: the chain of free
    symbol-table entries, the ownership of pages, and the data that the lists hold in memory. */
module PageTables {
  import opened Bytes
  import opened Finite

  const NUM_ELEM_PER_PAGE := 20
  const PAGE_SIZE := 80  // NUM_ELEM_PER_PAGE ints
  const NIL := -1        // the end of the free chain

  // Lists are known by scope and name.
  type Key = (int, string)

  // What a name means in a scope: a list of that scope, else a list of scope 0.
  datatype Meaning = Found(key: Key) | NotFound

  function Resolve(listMap: map<Key, nat>, scope: int, name: string): Meaning {
    if (scope, name) in listMap then Found((scope, name))
    else if (0, name) in listMap then Found((0, name))
    else NotFound
  }

  datatype Entry = Entry(next: int, size: nat, capacity: nat, pages: seq<nat>)

  // Pages needed for n ints, rounded up.
  function PagesFor(n: nat): nat {
    (n * SIZEOF_INT + PAGE_SIZE - 1) / PAGE_SIZE
  }

  // So many pages hold n ints, and one page less would not.
  predicate FewestPages(n: nat, pages: int) {
    n <= NUM_ELEM_PER_PAGE * pages < n + NUM_ELEM_PER_PAGE
  }

  lemma {:induction false} PagesForIsFewest(n: nat)
    ensures FewestPages(n, PagesFor(n))
  {
    var p := PagesFor(n);
    assert PAGE_SIZE * p <= n * SIZEOF_INT + PAGE_SIZE - 1 < PAGE_SIZE * p + PAGE_SIZE;
  }

  lemma {:induction false} FitsIff(n: nat, pages: nat)
    ensures PagesFor(n) <= pages <==> n <= NUM_ELEM_PER_PAGE * pages
  {
    hide PagesFor;
    PagesForIsFewest(n);
  }

  ghost predicate Distinct(s: seq<nat>) {
    forall i, j :: 0 <= i < j < |s| ==> s[i] != s[j]
  }

  lemma {:induction false} DistinctTail(s: seq<nat>)
    requires Distinct(s) && s != []
    ensures Distinct(s[1..])
    ensures forall x :: x in s[1..] <==> x in s && x != s[0]
  {
    forall x | x in s && x != s[0] ensures x in s[1..] {
      var i :| 0 <= i < |s| && s[i] == x;
      assert s[1..][i - 1] == x;
    }
  }

  // ---------- the free chain ----------

  function After(chain: seq<nat>, i: nat): int {
    if i + 1 < |chain| then chain[i + 1] else NIL
  }

  // The entries in `chain` are linked through next, from first to NIL.
  ghost predicate Linked(entries: seq<Entry>, first: int, chain: seq<nat>) {
    && first == (if |chain| == 0 then NIL else chain[0])
    && forall i :: 0 <= i < |chain| ==> chain[i] < |entries| && entries[chain[i]].next == After(chain, i)
  }

  lemma {:induction false} LinkedTail(entries: seq<Entry>, first: int, chain: seq<nat>, entry: Entry)
    requires Linked(entries, first, chain) && Distinct(chain) && chain != [] && chain[0] < |entries|
    ensures Linked(entries[chain[0] := entry], entries[chain[0]].next, chain[1..])
  {
    var entries', rest := entries[chain[0] := entry], chain[1..];
    forall i | 0 <= i < |rest|
      ensures rest[i] < |entries'| && entries'[rest[i]].next == After(rest, i)
    {
      assert rest[i] == chain[i + 1] && chain[0] != chain[i + 1];
      assert After(rest, i) == After(chain, i + 1);
    }
  }

  lemma {:induction false} LinkedMore(entries: seq<Entry>, first: int, chain: seq<nat>, e: nat)
    requires Linked(entries, first, chain) && e < |entries| && e !in chain
    ensures Linked(entries[e := Entry(first, 0, 0, [])], e, [e] + chain)
  {
    var entries', more := entries[e := Entry(first, 0, 0, [])], [e] + chain;
    forall i | 0 <= i < |more|
      ensures more[i] < |entries'| && entries'[more[i]].next == After(more, i)
    {
      if i == 0 {
        assert After(more, 0) == first;
      } else {
        assert more[i] == chain[i - 1] && chain[i - 1] in chain;
        assert After(more, i) == After(chain, i - 1);
      }
    }
  }

  ghost predicate InUse(listMap: map<Key, nat>, e: nat) {
    exists k :: k in listMap && listMap[k] == e
  }

  /** The chain is acyclic, as long as the counter says, and holds exactly the entries that no list
      uses, which are blank; and no entry is used by two lists. */
  ghost predicate ChainOk(entries: seq<Entry>, listMap: map<Key, nat>, first: int, numFree: nat, chain: seq<nat>) {
    && Linked(entries, first, chain) && Distinct(chain) && numFree == |chain|
    && (forall e :: 0 <= e < |entries| ==> (e in chain <==> !InUse(listMap, e)))
    && (forall e :: e in chain ==> entries[e] == Entry(entries[e].next, 0, 0, []))
    && (forall k :: k in listMap ==> listMap[k] < |entries|)
    && (forall k, k' :: k in listMap && k' in listMap && listMap[k] == listMap[k'] ==> k == k')
  }

  lemma {:induction false} TakeFirst(entries: seq<Entry>, listMap: map<Key, nat>, first: int, numFree: nat, chain: seq<nat>, k: Key, capacity: nat, pages: seq<nat>)
    requires ChainOk(entries, listMap, first, numFree, chain) && numFree > 0 && k !in listMap
    ensures 0 <= first < |entries| && entries[first].next >= NIL
    ensures var entries' := entries[first := Entry(NIL, 0, capacity, pages)];
            ChainOk(entries', listMap[k := first], entries[first].next, numFree - 1, chain[1..])
  {
    var entries' := entries[first := Entry(NIL, 0, capacity, pages)];
    var listMap' := listMap[k := first];
    assert first == chain[0] && chain[0] in chain && chain[0] < |entries|;
    assert |chain| > 1 ==> chain[1] < |entries|;
    DistinctTail(chain);
    LinkedTail(entries, first, chain, Entry(NIL, 0, capacity, pages));
    forall e | 0 <= e < |entries| ensures InUse(listMap', e) <==> e == first || InUse(listMap, e) {
      if e == first { assert listMap'[k] == e; }
      if x :| x in listMap && listMap[x] == e { assert listMap'[x] == e; }
    }
    forall x | x in listMap ensures listMap[x] != first {
      assert InUse(listMap, listMap[x]);
    }
  }

  lemma {:induction false} GiveBack(entries: seq<Entry>, listMap: map<Key, nat>, first: int, numFree: nat, chain: seq<nat>, k: Key)
    requires ChainOk(entries, listMap, first, numFree, chain) && k in listMap && first >= NIL
    ensures var e := listMap[k];
            ChainOk(entries[e := Entry(first, 0, 0, [])], listMap - {k}, e, numFree + 1, [e] + chain)
  {
    var e := listMap[k];
    var listMap' := listMap - {k};
    assert InUse(listMap, e);
    var chain' := [e] + chain;
    assert chain'[1..] == chain;
    forall x | 0 <= x < |entries| ensures InUse(listMap', x) <==> x != e && InUse(listMap, x) {
      if x != e && InUse(listMap, x) {
        var y :| y in listMap && listMap[y] == x;
        assert y in listMap' && listMap'[y] == x;
      }
    }
    assert forall x :: x in chain' <==> x == e || x in chain;
    var entries' := entries[e := Entry(first, 0, 0, [])];
    LinkedMore(entries, first, chain, e);
    assert Distinct(chain');
  }

  // Counting an assignment in an entry that is in use.
  lemma {:induction false} CountKeepsChain(entries: seq<Entry>, listMap: map<Key, nat>, first: int, numFree: nat, chain: seq<nat>, k: Key, size: nat)
    requires ChainOk(entries, listMap, first, numFree, chain) && k in listMap
    ensures ChainOk(entries[listMap[k] := entries[listMap[k]].(size := size)], listMap, first, numFree, chain)
  {
    assert InUse(listMap, listMap[k]);
  }

  function UpTo(n: nat): seq<nat> {
    seq(n, i => i)
  }

  // A fresh table links every entry to the next.
  lemma {:induction false} FreshChain(entries: seq<Entry>, n: nat)
    requires n > 0 && |entries| == n
    requires forall i :: 0 <= i < n ==> entries[i] == Entry(if i + 1 < n then i + 1 else NIL, 0, 0, [])
    ensures ChainOk(entries, map[], 0, n, UpTo(n))
  {
    var chain := UpTo(n);
    forall e | 0 <= e < n ensures e in chain {
      assert chain[e] == e;
    }
    assert forall i :: 0 <= i < n ==> chain[i] == i && entries[chain[i]].next == After(chain, i);
  }

  // ---------- page ownership ----------

  function PagesOf(entries: seq<Entry>, listMap: map<Key, nat>, k: Key): seq<nat> {
    if k in listMap && listMap[k] < |entries| then entries[listMap[k]].pages else []
  }

  /** Free pages, pages of live lists and leaked pages partition all pages; within the lists no page
      has two owners; and each list has as many pages as its capacity needs. */
  ghost predicate PagesOk(entries: seq<Entry>, listMap: map<Key, nat>, free: set<nat>, leaked: set<nat>, total: nat) {
    && (forall p :: p in free || p in leaked ==> p < total)
    && free !! leaked
    && (forall k :: k in listMap ==> listMap[k] < |entries|)
    && (forall k :: k in listMap ==> ListPagesOk(entries[listMap[k]], free, leaked, total))
    && (forall k, k', p :: k in listMap && k' in listMap && p in PagesOf(entries, listMap, k) && p in PagesOf(entries, listMap, k') ==> k == k')
    && (forall p :: 0 <= p < total ==> p in free || p in leaked || Owned(entries, listMap, p))
  }

  ghost predicate ListPagesOk(e: Entry, free: set<nat>, leaked: set<nat>, total: nat) {
    && Distinct(e.pages) && |e.pages| == PagesFor(e.capacity)
    && forall p :: p in e.pages ==> p < total && p !in free && p !in leaked
  }

  ghost predicate Owned(entries: seq<Entry>, listMap: map<Key, nat>, p: nat) {
    exists k :: k in listMap && p in PagesOf(entries, listMap, k)
  }

  function SetOf(s: seq<nat>): set<nat> {
    set x | x in s
  }

  lemma {:induction false} AllocateKeepsPages(entries: seq<Entry>, listMap: map<Key, nat>, free: set<nat>, leaked: set<nat>, total: nat, k: Key, e: nat, entry: Entry)
    requires PagesOk(entries, listMap, free, leaked, total)
    requires k !in listMap && e < |entries| && !InUse(listMap, e)
    requires SetOf(entry.pages) <= free && Distinct(entry.pages) && |entry.pages| == PagesFor(entry.capacity)
    ensures PagesOk(entries[e := entry], listMap[k := e], free - SetOf(entry.pages), leaked, total)
  {
    var entries', listMap', free' := entries[e := entry], listMap[k := e], free - SetOf(entry.pages);
    forall x | x in listMap ensures listMap[x] != e {
      assert InUse(listMap, listMap[x]);
    }
    assert forall x :: x in listMap ==> PagesOf(entries', listMap', x) == PagesOf(entries, listMap, x);
    assert PagesOf(entries', listMap', k) == entry.pages;
    forall p | 0 <= p < total && p !in free' && p !in leaked ensures Owned(entries', listMap', p) {
      if p in free {
        assert p in PagesOf(entries', listMap', k);
      } else {
        var x :| x in listMap && p in PagesOf(entries, listMap, x);
        assert p in PagesOf(entries', listMap', x);
      }
    }
    forall x, p | x in listMap && p in PagesOf(entries', listMap', x) ensures p !in entry.pages {
      assert ListPagesOk(entries[listMap[x]], free, leaked, total);
    }
    forall x | x in listMap' ensures ListPagesOk(entries'[listMap'[x]], free', leaked, total) {
      if x != k { assert ListPagesOk(entries[listMap[x]], free, leaked, total); }
    }
  }

  // A list goes; its pages are returned, or leaked.
  lemma {:induction false} RemoveKeepsPages(entries: seq<Entry>, listMap: map<Key, nat>, free: set<nat>, leaked: set<nat>, total: nat, k: Key, entry: Entry, back: bool)
    requires PagesOk(entries, listMap, free, leaked, total) && k in listMap
    requires forall x :: x in listMap && listMap[x] == listMap[k] ==> x == k
    ensures var pages := SetOf(entries[listMap[k]].pages);
            PagesOk(entries[listMap[k] := entry], listMap - {k}, if back then free + pages else free, if back then leaked else leaked + pages, total)
  {
    var e := listMap[k];
    var pages := SetOf(entries[e].pages);
    var entries', listMap' := entries[e := entry], listMap - {k};
    var free', leaked' := if back then free + pages else free, if back then leaked else leaked + pages;
    hide Owned, SetOf, ListPagesOk;
    OthersKeepPages(entries, listMap, k, entry);
    assert ListPagesOk(entries[e], free, leaked, total);
    OwnPages(entries[e], free, leaked, total);
    OthersStayOwned(entries, listMap, free, leaked, total, k, entry);
    OthersStayOk(entries, listMap, free, leaked, total, k, back);
  }

  lemma {:induction false} OthersStayOwned(entries: seq<Entry>, listMap: map<Key, nat>, free: set<nat>, leaked: set<nat>, total: nat, k: Key, entry: Entry)
    requires PagesOk(entries, listMap, free, leaked, total) && k in listMap
    requires forall x :: x in listMap && listMap[x] == listMap[k] ==> x == k
    ensures forall p :: 0 <= p < total && p !in free && p !in leaked && p !in SetOf(entries[listMap[k]].pages)
                        ==> Owned(entries[listMap[k] := entry], listMap - {k}, p)
  {
    OthersKeepPages(entries, listMap, k, entry);
    hide Owned, PagesOf, SetOf, ListPagesOk;
    forall p | 0 <= p < total && p !in free && p !in leaked && p !in SetOf(entries[listMap[k]].pages)
      ensures Owned(entries[listMap[k] := entry], listMap - {k}, p)
    {
      OwnedStill(entries, listMap, k, entry, p);
    }
  }

  lemma {:induction false} OthersStayOk(entries: seq<Entry>, listMap: map<Key, nat>, free: set<nat>, leaked: set<nat>, total: nat, k: Key, back: bool)
    requires PagesOk(entries, listMap, free, leaked, total) && k in listMap
    ensures forall x :: x in listMap && x != k ==>
              ListPagesOk(entries[listMap[x]], if back then free + SetOf(entries[listMap[k]].pages) else free,
                          if back then leaked else leaked + SetOf(entries[listMap[k]].pages), total)
  {
    forall x | x in listMap && x != k
      ensures ListPagesOk(entries[listMap[x]], if back then free + SetOf(entries[listMap[k]].pages) else free,
                          if back then leaked else leaked + SetOf(entries[listMap[k]].pages), total)
    {
      hide Owned, PagesOf, SetOf, ListPagesOk;
      OthersAvoid(entries, listMap, free, leaked, total, k, x);
      StaysOk(entries[listMap[x]], entries[listMap[k]].pages, free, leaked, total, back);
    }
  }

  lemma {:induction false} OwnPages(e: Entry, free: set<nat>, leaked: set<nat>, total: nat)
    requires ListPagesOk(e, free, leaked, total)
    ensures SetOf(e.pages) !! free && SetOf(e.pages) !! leaked && forall p :: p in SetOf(e.pages) ==> p < total
  {
  }

  // Pages that are none of this list's may become free, or leak.
  lemma {:induction false} StaysOk(e: Entry, pages: seq<nat>, free: set<nat>, leaked: set<nat>, total: nat, back: bool)
    requires ListPagesOk(e, free, leaked, total) && forall p :: p in e.pages ==> p !in pages
    ensures ListPagesOk(e, if back then free + SetOf(pages) else free, if back then leaked else leaked + SetOf(pages), total)
  {
  }

  // The other lists have the pages they had.
  lemma {:induction false} OthersKeepPages(entries: seq<Entry>, listMap: map<Key, nat>, k: Key, entry: Entry)
    requires k in listMap && listMap[k] < |entries|
    requires forall x :: x in listMap && listMap[x] == listMap[k] ==> x == k
    ensures forall x :: x in listMap && x != k ==> PagesOf(entries[listMap[k] := entry], listMap - {k}, x) == PagesOf(entries, listMap, x)
    ensures PagesOf(entries, listMap, k) == entries[listMap[k]].pages
    ensures forall p :: p in SetOf(entries[listMap[k]].pages) <==> p in entries[listMap[k]].pages
  {
  }

  lemma {:induction false} OwnedStill(entries: seq<Entry>, listMap: map<Key, nat>, k: Key, entry: Entry, p: nat)
    requires k in listMap && listMap[k] < |entries| && Owned(entries, listMap, p) && p !in entries[listMap[k]].pages
    requires forall x :: x in listMap && listMap[x] == listMap[k] ==> x == k
    ensures Owned(entries[listMap[k] := entry], listMap - {k}, p)
  {
    OthersKeepPages(entries, listMap, k, entry);
    var x :| x in listMap && p in PagesOf(entries, listMap, x);
    assert x != k && p in PagesOf(entries[listMap[k] := entry], listMap - {k}, x);
  }

  // No other list has one of the pages of list k.
  lemma {:induction false} OthersAvoid(entries: seq<Entry>, listMap: map<Key, nat>, free: set<nat>, leaked: set<nat>, total: nat, k: Key, x: Key)
    requires PagesOk(entries, listMap, free, leaked, total) && k in listMap && x in listMap && x != k
    ensures ListPagesOk(entries[listMap[x]], free, leaked, total) && ListPagesOk(entries[listMap[k]], free, leaked, total)
    ensures forall p :: p in entries[listMap[x]].pages ==> p !in entries[listMap[k]].pages
  {
    hide Owned, ListPagesOk;
    assert PagesOf(entries, listMap, x) == entries[listMap[x]].pages && PagesOf(entries, listMap, k) == entries[listMap[k]].pages;
  }

  lemma {:induction false} CountKeepsPages(entries: seq<Entry>, listMap: map<Key, nat>, free: set<nat>, leaked: set<nat>, total: nat, e: nat, size: nat)
    requires PagesOk(entries, listMap, free, leaked, total) && e < |entries|
    ensures PagesOk(entries[e := entries[e].(size := size)], listMap, free, leaked, total)
  {
    var entries' := entries[e := entries[e].(size := size)];
    assert forall x :: PagesOf(entries', listMap, x) == PagesOf(entries, listMap, x);
    forall p | 0 <= p < total && Owned(entries, listMap, p) ensures Owned(entries', listMap, p) {
      var x :| x in listMap && p in PagesOf(entries, listMap, x);
      assert p in PagesOf(entries', listMap, x);
    }
    forall x | x in listMap ensures ListPagesOk(entries'[listMap[x]], free, leaked, total) {
      assert ListPagesOk(entries[listMap[x]], free, leaked, total);
    }
  }

  // ---------- address translation and data ----------

  // Which of the list's pages element off is on, and where on that page.
  function PageIndex(off: nat): nat {
    off * SIZEOF_INT / PAGE_SIZE
  }

  function PlaceOnPage(off: nat): (r: nat)
    ensures r <= PAGE_SIZE - SIZEOF_INT
  {
    off * SIZEOF_INT % PAGE_SIZE
  }

  // The byte address of element off of a list with these pages.
  function Address(pages: seq<nat>, off: nat): (a: nat)
    requires PageIndex(off) < |pages|
  {
    pages[PageIndex(off)] * PAGE_SIZE + PlaceOnPage(off)
  }

  // An in-bounds element lies on one of the list's pages, and wholly so.
  lemma {:induction false} AddressInPage(e: Entry, off: nat)
    requires off < e.capacity && |e.pages| == PagesFor(e.capacity)
    ensures PageIndex(off) < |e.pages|
    ensures var p := e.pages[PageIndex(off)];
            p * PAGE_SIZE <= Address(e.pages, off) && Address(e.pages, off) + SIZEOF_INT <= (p + 1) * PAGE_SIZE
  {
  }

  // Two elements on the same page of one list differ in their place on the page.
  lemma {:induction false} SameListApart(pages: seq<nat>, off: nat, off': nat)
    requires Distinct(pages) && off != off'
    requires PageIndex(off) < |pages| && PageIndex(off') < |pages|
    ensures Address(pages, off) + SIZEOF_INT <= Address(pages, off') || Address(pages, off') + SIZEOF_INT <= Address(pages, off)
  {
    var q, q' := PageIndex(off), PageIndex(off');
    if q != q' {
      assert pages[q] != pages[q'];
    }
  }

  lemma {:induction false} DifferentPagesApart(pages: seq<nat>, off: nat, pages': seq<nat>, off': nat)
    requires PageIndex(off) < |pages| && PageIndex(off') < |pages'|
    requires pages[PageIndex(off)] != pages'[PageIndex(off')]
    ensures Address(pages, off) + SIZEOF_INT <= Address(pages', off') || Address(pages', off') + SIZEOF_INT <= Address(pages, off)
  {
    var p, p' := pages[PageIndex(off)], pages'[PageIndex(off')];
    var r, r' := PlaceOnPage(off), PlaceOnPage(off');
    PagesApart(p, r, p', r');
  }

  lemma {:induction false} PagesApart(p: nat, r: nat, p': nat, r': nat)
    requires p != p' && r <= PAGE_SIZE - SIZEOF_INT && r' <= PAGE_SIZE - SIZEOF_INT
    ensures p * PAGE_SIZE + r + SIZEOF_INT <= p' * PAGE_SIZE + r' || p' * PAGE_SIZE + r' + SIZEOF_INT <= p * PAGE_SIZE + r
  {
  }

  /** Translation sends different in-bounds (list, offset) pairs to disjoint ranges of four bytes
      inside the memory. */
  lemma {:induction false} AddressesDisjoint(entries: seq<Entry>, listMap: map<Key, nat>, free: set<nat>, leaked: set<nat>, total: nat,
                                             k: Key, off: nat, k': Key, off': nat)
    requires PagesOk(entries, listMap, free, leaked, total) && k in listMap && k' in listMap
    requires off < entries[listMap[k]].capacity && off' < entries[listMap[k']].capacity
    requires (k, off) != (k', off')
    ensures PageIndex(off) < |PagesOf(entries, listMap, k)| && PageIndex(off') < |PagesOf(entries, listMap, k')|
    ensures var a, a' := Address(PagesOf(entries, listMap, k), off), Address(PagesOf(entries, listMap, k'), off');
            a + SIZEOF_INT <= a' || a' + SIZEOF_INT <= a
  {
    var e, e' := entries[listMap[k]], entries[listMap[k']];
    assert ListPagesOk(e, free, leaked, total) && ListPagesOk(e', free, leaked, total);
    AddressInPage(e, off);
    AddressInPage(e', off');
    assert e.pages == PagesOf(entries, listMap, k) && e'.pages == PagesOf(entries, listMap, k');
    if k == k' {
      SameListApart(e.pages, off, off');
    } else {
      var p, p' := e.pages[PageIndex(off)], e'.pages[PageIndex(off')];
      assert p in PagesOf(entries, listMap, k) && p' in PagesOf(entries, listMap, k');
      DifferentPagesApart(e.pages, off, e'.pages, off');
    }
  }

  lemma {:induction false} AddressInMemory(entries: seq<Entry>, listMap: map<Key, nat>, free: set<nat>, leaked: set<nat>, total: nat, k: Key, off: nat)
    requires PagesOk(entries, listMap, free, leaked, total) && k in listMap && off < entries[listMap[k]].capacity
    ensures PageIndex(off) < |entries[listMap[k]].pages|
    ensures Address(entries[listMap[k]].pages, off) + SIZEOF_INT <= total * PAGE_SIZE
  {
    var e := entries[listMap[k]];
    assert ListPagesOk(e, free, leaked, total);
    AddressInPage(e, off);
    var p := e.pages[PageIndex(off)];
    assert p in e.pages;
  }

  // Element off of a list with these pages holds v.
  ghost predicate CellOk(mem: seq<byte>, pages: seq<nat>, off: nat, v: int32) {
    && PageIndex(off) < |pages|
    && Address(pages, off) + SIZEOF_INT <= |mem|
    && Decode(mem[Address(pages, off)..Address(pages, off) + SIZEOF_INT]) == v
  }

  function MemSize(numPages: nat): nat {
    numPages * PAGE_SIZE
  }

  // The list with these pages holds exactly these values.
  ghost predicate ListOk(mem: seq<byte>, pages: seq<nat>, list: seq<int32>) {
    forall off :: 0 <= off < |list| ==> CellOk(mem, pages, off, list[off])
  }

  /** The lists that the memory represents. */
  ghost predicate DataOk(mem: seq<byte>, entries: seq<Entry>, listMap: map<Key, nat>, lists: map<Key, seq<int32>>) {
    && lists.Keys == listMap.Keys
    && (forall k :: k in listMap ==> listMap[k] < |entries|)
    && (forall k :: k in listMap ==> |lists[k]| == entries[listMap[k]].capacity && ListOk(mem, entries[listMap[k]].pages, lists[k]))
  }

  // Only the four bytes at address a changed, and they now encode v.
  ghost predicate Wrote(mem: seq<byte>, mem': seq<byte>, a: nat, v: int32) {
    && |mem'| == |mem| && a + SIZEOF_INT <= |mem|
    && mem'[a..a + SIZEOF_INT] == Encode(v)
    && forall i :: 0 <= i < |mem| && !(a <= i < a + SIZEOF_INT) ==> mem'[i] == mem[i]
  }

  lemma {:induction false} WriteOneCell(mem: seq<byte>, mem': seq<byte>, entries: seq<Entry>, listMap: map<Key, nat>, free: set<nat>, leaked: set<nat>, total: nat,
                                        k: Key, off: nat, v: int32, k': Key, off': nat, w: int32)
    requires PagesOk(entries, listMap, free, leaked, total) && k in listMap && k' in listMap
    requires off < entries[listMap[k]].capacity && off' < entries[listMap[k']].capacity
    requires PageIndex(off) < |entries[listMap[k]].pages|
    requires Wrote(mem, mem', Address(entries[listMap[k]].pages, off), v)
    requires CellOk(mem, entries[listMap[k']].pages, off', w)
    ensures CellOk(mem', entries[listMap[k']].pages, off', if k' == k && off' == off then v else w)
  {
    if k' == k && off' == off {
      DecodeEncode(v);
    } else {
      AddressesDisjoint(entries, listMap, free, leaked, total, k, off, k', off');
      var a := Address(entries[listMap[k']].pages, off');
      assert mem'[a..a + SIZEOF_INT] == mem[a..a + SIZEOF_INT];
    }
  }

  /** An assignment changes one element of one list and nothing else. */
  lemma {:induction false} WriteKeepsData(mem: seq<byte>, mem': seq<byte>, entries: seq<Entry>, listMap: map<Key, nat>, lists: map<Key, seq<int32>>,
                                          free: set<nat>, leaked: set<nat>, total: nat, k: Key, off: nat, v: int32)
    requires PagesOk(entries, listMap, free, leaked, total) && DataOk(mem, entries, listMap, lists)
    requires k in listMap && off < |lists[k]|
    requires PageIndex(off) < |entries[listMap[k]].pages|
    requires Wrote(mem, mem', Address(entries[listMap[k]].pages, off), v)
    ensures DataOk(mem', entries, listMap, lists[k := lists[k][off := v]])
  {
    var lists' := lists[k := lists[k][off := v]];
    forall x | x in listMap ensures ListOk(mem', entries[listMap[x]].pages, lists'[x]) {
      forall i | 0 <= i < |lists'[x]| ensures CellOk(mem', entries[listMap[x]].pages, i, lists'[x][i]) {
        assert ListOk(mem, entries[listMap[x]].pages, lists[x]);
        WriteOneCell(mem, mem', entries, listMap, free, leaked, total, k, off, v, x, i, lists[x][i]);
      }
    }
  }

  // What n elements on these pages hold at the moment.
  ghost function ReadList(mem: seq<byte>, pages: seq<nat>, n: nat): (list: seq<int32>)
    requires |pages| == PagesFor(n)
    requires forall p :: p in pages ==> (p + 1) * PAGE_SIZE <= |mem|
    ensures |list| == n && ListOk(mem, pages, list)
  {
    seq(n, off requires 0 <= off < n => ReadCell(mem, pages, n, off))
  }

  ghost predicate ReadableAt(mem: seq<byte>, pages: seq<nat>, n: nat, off: nat) {
    PageIndex(off) < |pages| && Address(pages, off) + SIZEOF_INT <= |mem|
  }

  lemma {:induction false} ReadBounds(mem: seq<byte>, pages: seq<nat>, n: nat, off: nat)
    requires |pages| == PagesFor(n) && off < n
    requires forall p :: p in pages ==> (p + 1) * PAGE_SIZE <= |mem|
    ensures ReadableAt(mem, pages, n, off)
  {
    AddressInPage(Entry(NIL, 0, n, pages), off);
    assert pages[PageIndex(off)] in pages;
  }

  ghost function ReadCell(mem: seq<byte>, pages: seq<nat>, n: nat, off: nat): int32
    requires |pages| == PagesFor(n) && off < n
    requires forall p :: p in pages ==> (p + 1) * PAGE_SIZE <= |mem|
    ensures CellOk(mem, pages, off, ReadCell(mem, pages, n, off))
  {
    ReadBounds(mem, pages, n, off);
    Decode(mem[Address(pages, off)..Address(pages, off) + SIZEOF_INT])
  }

  // ---------- the whole store ----------

  /** Everything the store keeps, as one value. `chain`, `lists` and `leaked` are not in the program:
      the free entries in order, the contents of the live lists, and the pages that no operation
      can reach any more. */
  datatype Image = Image(mem: seq<byte>, entries: seq<Entry>, listMap: map<Key, nat>, firstFree: int, numFreeEntries: nat, chain: seq<nat>,
                         freeList: set<nat>, numFreePages: nat, leaked: set<nat>, numPages: nat, lists: map<Key, seq<int32>>)

  ghost predicate StoreOk(s: Image) {
    && |s.mem| == MemSize(s.numPages) && s.numFreePages == |s.freeList|
    && ChainOk(s.entries, s.listMap, s.firstFree, s.numFreeEntries, s.chain)
    && PagesOk(s.entries, s.listMap, s.freeList, s.leaked, s.numPages)
    && DataOk(s.mem, s.entries, s.listMap, s.lists)
  }

  lemma {:induction false} FreshStore(s: Image, n: nat)
    requires |s.mem| == MemSize(s.numPages) && |s.freeList| == s.numFreePages && forall p :: p in s.freeList <==> 0 <= p < s.numPages
    requires n > 0 && |s.entries| == s.numFreeEntries == n && s.firstFree == 0 && s.chain == UpTo(n)
    requires forall i :: 0 <= i < n ==> s.entries[i] == Entry(if i + 1 < n then i + 1 else NIL, 0, 0, [])
    requires s.listMap == map[] && s.lists == map[] && s.leaked == {}
    ensures StoreOk(s)
  {
    FreshChain(s.entries, n);
  }

  lemma {:induction false} SetOfSize(s: seq<nat>)
    requires Distinct(s)
    ensures |SetOf(s)| == |s|
  {
    if s != [] {
      var k := |s| - 1;
      SetOfSize(s[..k]);
      assert s == s[..k] + [s[k]];
      assert SetOf(s) == SetOf(s[..k]) + {s[k]};
    }
  }

  lemma {:induction false} FreeBelow(s: Image)
    requires StoreOk(s)
    ensures s.numFreePages == |s.freeList| <= s.numPages
  {
    BelowCount(s.numPages, s.freeList);
  }

  // These pages lie below all that are still free, and were taken in rising order.
  ghost predicate Lowest(pages: seq<nat>, free: set<nat>) {
    && (forall p, q :: p in pages && q in free ==> p < q)
    && (forall i, j :: 0 <= i < j < |pages| ==> pages[i] < pages[j])
  }

  // One more page is taken off the free list, the lowest there is.
  ghost predicate Taken(free0: set<nat>, free: set<nat>, mapping: seq<nat>) {
    && Distinct(mapping) && SetOf(mapping) <= free0 && free == free0 - SetOf(mapping)
    && |free| + |mapping| == |free0|
    && Lowest(mapping, free)
  }

  lemma {:induction false} TakeNext(free0: set<nat>, free: set<nat>, mapping: seq<nat>, page: nat)
    requires Taken(free0, free, mapping) && IsLeast(page, free)
    ensures Taken(free0, free - {page}, mapping + [page])
  {
    LowestMore(free, mapping, page);
    hide Distinct, SetOf, Lowest;
    NotTaken(free0, free, mapping, page);
    DistinctMore(mapping, page);
    assert SetOf(mapping + [page]) <= free0;
    assert free - {page} == free0 - SetOf(mapping + [page]);
    assert |free - {page}| == |free| - 1;
  }

  lemma {:induction false} LowestMore(free: set<nat>, mapping: seq<nat>, page: nat)
    requires Lowest(mapping, free) && IsLeast(page, free)
    ensures Lowest(mapping + [page], free - {page})
  {
    var more := mapping + [page];
    forall i, j | 0 <= i < j < |more| ensures more[i] < more[j] {
      if j == |mapping| {
        assert mapping[i] in mapping;
      }
    }
  }

  lemma {:induction false} NotTaken(free0: set<nat>, free: set<nat>, mapping: seq<nat>, page: nat)
    requires free == free0 - SetOf(mapping) && page in free
    ensures page !in mapping
  {
  }

  lemma {:induction false} DistinctMore(s: seq<nat>, x: nat)
    requires Distinct(s) && x !in s
    ensures Distinct(s + [x]) && SetOf(s + [x]) == SetOf(s) + {x}
  {
  }

  // A list k of the given size may be created on these pages.
  ghost predicate CanCreate(s: Image, k: Key, size: nat, pages: seq<nat>) {
    && k !in s.listMap && s.numFreeEntries > 0
    && Distinct(pages) && SetOf(pages) <= s.freeList && |pages| == PagesFor(size)
  }

  lemma {:induction false} CreateFacts(s: Image, k: Key, size: nat, pages: seq<nat>)
    requires StoreOk(s) && CanCreate(s, k, size, pages)
    ensures 0 <= s.firstFree < |s.entries| && s.chain != [] && |pages| <= s.numFreePages
    ensures forall p :: p in pages ==> (p + 1) * PAGE_SIZE <= |s.mem|
    ensures |s.freeList - SetOf(pages)| == |s.freeList| - |pages|
  {
    assert s.firstFree == s.chain[0] && s.chain[0] in s.chain;
    SetOfSize(pages);
    assert s.freeList == (s.freeList - SetOf(pages)) + SetOf(pages);
    assert forall p :: p in pages ==> p in SetOf(pages);
  }

  /** The store after createList: the first free entry and the pages are taken, and the list starts
      out with whatever its pages hold. */
  ghost function Created(s: Image, k: Key, size: nat, pages: seq<nat>): Image
    requires StoreOk(s) && CanCreate(s, k, size, pages)
  {
    CreateFacts(s, k, size, pages);
    s.(entries := s.entries[s.firstFree := Entry(NIL, 0, size, pages)], listMap := s.listMap[k := s.firstFree],
       firstFree := s.entries[s.firstFree].next, numFreeEntries := s.numFreeEntries - 1, chain := s.chain[1..],
       freeList := s.freeList - SetOf(pages), numFreePages := s.numFreePages - |pages|,
       lists := s.lists[k := ReadList(s.mem, pages, size)])
  }

  lemma {:induction false} CreateKeeps(s: Image, k: Key, size: nat, pages: seq<nat>)
    requires StoreOk(s) && CanCreate(s, k, size, pages)
    ensures StoreOk(Created(s, k, size, pages))
  {
    TakeFirst(s.entries, s.listMap, s.firstFree, s.numFreeEntries, s.chain, k, size, pages);
    CreateFacts(s, k, size, pages);
    assert s.firstFree == s.chain[0] && s.chain[0] in s.chain;
    AllocateKeepsPages(s.entries, s.listMap, s.freeList, s.leaked, s.numPages, k, s.firstFree, Entry(NIL, 0, size, pages));
    CreateKeepsData(s.mem, s.entries, s.listMap, s.lists, k, s.firstFree, size, pages);
  }

  // The same, field by field, for pages just taken off the free list.
  lemma {:induction false} CreateFields(s: Image, k: Key, size: nat, pages: seq<nat>, free: set<nat>)
    requires StoreOk(s) && k !in s.listMap && s.numFreeEntries > 0
    requires Taken(s.freeList, free, pages) && |pages| == PagesFor(size)
    ensures 0 <= s.firstFree < |s.entries| && s.chain != [] && |pages| <= s.numFreePages <= s.numPages
    ensures CanCreate(s, k, size, pages) && StoreOk(Created(s, k, size, pages))
    ensures Created(s, k, size, pages) ==
            s.(entries := s.entries[s.firstFree := Entry(NIL, 0, size, pages)], listMap := s.listMap[k := s.firstFree],
               firstFree := s.entries[s.firstFree].next, numFreeEntries := s.numFreeEntries - 1, chain := s.chain[1..],
               freeList := free, numFreePages := s.numFreePages - |pages|, lists := Created(s, k, size, pages).lists)
    ensures Lowest(pages, free)
  {
    FreeBelow(s);
    assert CanCreate(s, k, size, pages);
    CreateFacts(s, k, size, pages);
    CreateKeeps(s, k, size, pages);
  }

  lemma {:induction false} CreateKeepsData(mem: seq<byte>, entries: seq<Entry>, listMap: map<Key, nat>, lists: map<Key, seq<int32>>,
                                           k: Key, e: nat, size: nat, pages: seq<nat>)
    requires DataOk(mem, entries, listMap, lists) && k !in listMap && e < |entries| && !InUse(listMap, e)
    requires |pages| == PagesFor(size) && forall p :: p in pages ==> (p + 1) * PAGE_SIZE <= |mem|
    ensures DataOk(mem, entries[e := Entry(NIL, 0, size, pages)], listMap[k := e], lists[k := ReadList(mem, pages, size)])
  {
    forall x | x in listMap ensures listMap[x] != e {
      assert InUse(listMap, listMap[x]);
    }
  }

  ghost predicate Live(s: Image, k: Key) {
    k in s.listMap && k in s.lists && s.listMap[k] < |s.entries|
  }

  /** The store after freeList, which gives the pages back, or after deleteEntry, which does not:
      either way the entry goes to the front of the free chain. */
  ghost function Removed(s: Image, k: Key, back: bool): Image
    requires Live(s, k)
  {
    var e, pages := s.listMap[k], s.entries[s.listMap[k]].pages;
    s.(entries := s.entries[e := Entry(s.firstFree, 0, 0, [])], listMap := s.listMap - {k},
       firstFree := e, numFreeEntries := s.numFreeEntries + 1, chain := [e] + s.chain,
       freeList := if back then s.freeList + SetOf(pages) else s.freeList,
       numFreePages := if back then s.numFreePages + |pages| else s.numFreePages,
       leaked := if back then s.leaked else s.leaked + SetOf(pages),
       lists := s.lists - {k})
  }

  // The fields after freeList, one by one.
  lemma {:induction false} RemoveFields(s: Image, k: Key)
    requires StoreOk(s) && k in s.listMap
    ensures Live(s, k) && s.listMap[k] < |s.entries| && StoreOk(Removed(s, k, true))
    ensures var e, pages := s.listMap[k], s.entries[s.listMap[k]].pages;
            Removed(s, k, true) ==
            s.(entries := s.entries[e := Entry(s.firstFree, 0, 0, [])], listMap := s.listMap - {k},
               firstFree := e, numFreeEntries := s.numFreeEntries + 1, chain := [e] + s.chain,
               freeList := s.freeList + SetOf(pages), numFreePages := s.numFreePages + |pages|, lists := s.lists - {k})
  {
    ElementFacts(s, k, 0);
    RemoveKeeps(s, k, true);
    hide StoreOk, SetOf;
  }

  lemma {:induction false} RemoveKeeps(s: Image, k: Key, back: bool)
    requires StoreOk(s) && Live(s, k)
    ensures StoreOk(Removed(s, k, back))
  {
    var e, pages := s.listMap[k], s.entries[s.listMap[k]].pages;
    GiveBack(s.entries, s.listMap, s.firstFree, s.numFreeEntries, s.chain, k);
    RemoveKeepsPages(s.entries, s.listMap, s.freeList, s.leaked, s.numPages, k, Entry(s.firstFree, 0, 0, []), back);
    assert ListPagesOk(s.entries[e], s.freeList, s.leaked, s.numPages);
    SetOfSize(pages);
    assert |s.freeList + SetOf(pages)| == |s.freeList| + |pages|;
    RemoveKeepsData(s.mem, s.entries, s.listMap, s.lists, k, Entry(s.firstFree, 0, 0, []));
  }

  lemma {:induction false} RemoveKeepsData(mem: seq<byte>, entries: seq<Entry>, listMap: map<Key, nat>, lists: map<Key, seq<int32>>, k: Key, entry: Entry)
    requires DataOk(mem, entries, listMap, lists) && k in listMap
    requires forall x :: x in listMap && listMap[x] == listMap[k] ==> x == k
    ensures DataOk(mem, entries[listMap[k] := entry], listMap - {k}, lists - {k})
  {
  }

  /** The store after assignVal: four bytes of memory and the entry's counter change, and in the
      lists one element. */
  ghost function Assigned(s: Image, k: Key, off: nat, v: int32, mem: seq<byte>): Image
    requires Live(s, k) && off < |s.lists[k]|
  {
    var e := s.listMap[k];
    s.(mem := mem, entries := s.entries[e := s.entries[e].(size := s.entries[e].size + 1)], lists := s.lists[k := s.lists[k][off := v]])
  }

  // assignVal, byte by byte: the int lands at the translated address and nowhere else.
  ghost predicate AssignStep(s: Image, k: Key, off: nat, v: int32, s': Image) {
    && Live(s, k) && off < |s.lists[k]| && PageIndex(off) < |s.entries[s.listMap[k]].pages|
    && Wrote(s.mem, s'.mem, Address(s.entries[s.listMap[k]].pages, off), v)
    && s' == Assigned(s, k, off, v, s'.mem)
  }

  // getVal: what the four bytes at the translated address encode.
  ghost predicate GetStep(s: Image, k: Key, off: nat, v: int32) {
    Live(s, k) && CellOk(s.mem, s.entries[s.listMap[k]].pages, off, v)
  }

  lemma {:induction false} AssignKeeps(s: Image, k: Key, off: nat, v: int32, mem: seq<byte>)
    requires StoreOk(s) && Live(s, k) && off < |s.lists[k]|
    requires PageIndex(off) < |s.entries[s.listMap[k]].pages|
    requires Wrote(s.mem, mem, Address(s.entries[s.listMap[k]].pages, off), v)
    ensures StoreOk(Assigned(s, k, off, v, mem))
  {
    hide ChainOk, PagesOk, DataOk, MemSize, InUse, Distinct, ListPagesOk, Owned, ListOk, CellOk, Address, PageIndex;
    WriteKeepsData(s.mem, mem, s.entries, s.listMap, s.lists, s.freeList, s.leaked, s.numPages, k, off, v);
    CountKeeps(s.(mem := mem, lists := s.lists[k := s.lists[k][off := v]]), k);
  }

  lemma {:induction false} CountKeeps(s: Image, k: Key)
    requires StoreOk(s) && Live(s, k)
    ensures var e := s.listMap[k];
            StoreOk(s.(entries := s.entries[e := s.entries[e].(size := s.entries[e].size + 1)]))
  {
    hide ChainOk, PagesOk, DataOk, MemSize, InUse, Distinct, ListPagesOk, Owned, ListOk, CellOk;
    var e := s.listMap[k];
    var size := s.entries[e].size + 1;
    CountKeepsChain(s.entries, s.listMap, s.firstFree, s.numFreeEntries, s.chain, k, size);
    CountKeepsPages(s.entries, s.listMap, s.freeList, s.leaked, s.numPages, e, size);
    CountKeepsData(s.mem, s.entries, s.listMap, s.lists, e, size);
  }

  lemma {:induction false} CountKeepsData(mem: seq<byte>, entries: seq<Entry>, listMap: map<Key, nat>, lists: map<Key, seq<int32>>, e: nat, size: nat)
    requires DataOk(mem, entries, listMap, lists) && e < |entries|
    ensures DataOk(mem, entries[e := entries[e].(size := size)], listMap, lists)
  {
    var entries' := entries[e := entries[e].(size := size)];
    forall x | x in listMap ensures ListOk(mem, entries'[listMap[x]].pages, lists[x]) {
      assert entries'[listMap[x]].pages == entries[listMap[x]].pages;
    }
  }

  // What the invariant says about one live list and one of its elements.
  lemma {:induction false} ElementFacts(s: Image, k: Key, off: nat)
    requires StoreOk(s) && k in s.listMap
    ensures Live(s, k) && |s.lists[k]| == s.entries[s.listMap[k]].capacity
    ensures off < |s.lists[k]| ==> CellOk(s.mem, s.entries[s.listMap[k]].pages, off, s.lists[k][off])
  {
    assert ListOk(s.mem, s.entries[s.listMap[k]].pages, s.lists[k]);
  }
}
