/** merge_sort, which reads and writes a list only through the paged store and merges by way of a
    temporary list of its own scope. */
module MergeSort {
  import opened Bytes
  import opened PageTables
  import opened GoodMalloc

  // ---------- what is computed ----------

  // On equal heads the right one goes first, as the comparison in the code has it.
  function Merge(a: seq<int32>, b: seq<int32>): seq<int32> {
    if a == [] then b
    else if b == [] then a
    else if a[0] < b[0] then [a[0]] + Merge(a[1..], b)
    else [b[0]] + Merge(a, b[1..])
  }

  function Sort(s: seq<int32>): seq<int32>
    decreases |s|
  {
    if |s| <= 1 then s else Merge(Sort(s[..|s| / 2]), Sort(s[|s| / 2..]))
  }

  ghost predicate Sorted(s: seq<int32>) {
    forall i, j :: 0 <= i < j < |s| ==> s[i] <= s[j]
  }

  lemma {:induction false} MergeKeepsAll(a: seq<int32>, b: seq<int32>)
    ensures multiset(Merge(a, b)) == multiset(a) + multiset(b)
  {
    if a != [] && b != [] {
      if a[0] < b[0] {
        MergeKeepsAll(a[1..], b);
        assert a == [a[0]] + a[1..];
      } else {
        MergeKeepsAll(a, b[1..]);
        assert b == [b[0]] + b[1..];
      }
    }
  }

  lemma {:induction false} MergeSorted(a: seq<int32>, b: seq<int32>)
    requires Sorted(a) && Sorted(b)
    ensures Sorted(Merge(a, b))
  {
    if a != [] && b != [] {
      var head := if a[0] < b[0] then a[0] else b[0];
      var a', b' := if a[0] < b[0] then a[1..] else a, if a[0] < b[0] then b else b[1..];
      MergeSorted(a', b');
      MergeKeepsAll(a', b');
      var rest := Merge(a', b');
      forall i | 0 <= i < |rest| ensures head <= rest[i] {
        assert rest[i] in multiset(rest);
        assert rest[i] in a' || rest[i] in b';
      }
    }
  }

  /** Sort sorts, and loses nothing. */
  lemma {:induction false} SortSorts(s: seq<int32>)
    ensures Sorted(Sort(s)) && multiset(Sort(s)) == multiset(s)
    ensures |Sort(s)| == |s|
    decreases |s|
  {
    if |s| > 1 {
      hide Sorted, Merge;
      var a, b := s[..|s| / 2], s[|s| / 2..];
      assert s == a + b;
      SortSorts(a);
      SortSorts(b);
      MergeSorted(Sort(a), Sort(b));
      MergeKeepsAll(Sort(a), Sort(b));
      SameLength(Sort(s), s);
    }
  }

  lemma {:induction false} SameLength(s: seq<int32>, t: seq<int32>)
    requires multiset(s) == multiset(t)
    ensures |s| == |t|
  {
    assert |multiset(s)| == |s| && |multiset(t)| == |t|;
  }

  // ---------- what else changes in the store: nothing but contents ----------

  /** s' differs from s only in the contents of the lists k and l, and in the assignment counters of
      their entries. */
  ghost predicate SameBut(s: Image, s': Image, k: Key, l: Key) {
    && s' == s.(mem := s'.mem, entries := s'.entries, lists := s'.lists)
    && |s'.mem| == |s.mem| && |s'.entries| == |s.entries|
    && k in s.listMap && k in s.lists && l in s.listMap && l in s.lists
    && (forall e :: 0 <= e < |s.entries| ==> s'.entries[e] ==
                                              if e == s.listMap[k] || e == s.listMap[l] then s.entries[e].(size := s'.entries[e].size) else s.entries[e])
    && s'.lists.Keys == s.lists.Keys
    && (forall x :: x in s.lists && x != k && x != l ==> s'.lists[x] == s.lists[x])
    && |s'.lists[k]| == |s.lists[k]| && |s'.lists[l]| == |s.lists[l]|
  }

  lemma {:induction false} SameButTrans(s: Image, s': Image, s'': Image, k: Key, l: Key)
    requires SameBut(s, s', k, l) && SameBut(s', s'', k, l)
    ensures SameBut(s, s'', k, l)
  {
  }

  lemma {:induction false} SameButRefl(s: Image, k: Key, l: Key)
    requires k in s.listMap && k in s.lists && l in s.listMap && l in s.lists
    ensures SameBut(s, s, k, l)
  {
  }

  lemma {:induction false} AssignedIsSame(s: Image, k: Key, off: nat, v: int32, mem: seq<byte>)
    requires Live(s, k) && off < |s.lists[k]| && |mem| == |s.mem|
    ensures SameBut(s, Assigned(s, k, off, v, mem), k, k)
  {
  }

  // What creating t leaves for freeing it to undo.
  lemma {:induction false} CreatedFacts(s: Image, t: Key, size: nat, pages: seq<nat>, l: Key)
    requires StoreOk(s) && CanCreate(s, t, size, pages) && l in s.listMap
    ensures 0 <= s.firstFree < |s.entries| && s.chain != [] && |pages| <= s.numFreePages
    ensures s.entries[s.firstFree] == Entry(s.entries[s.firstFree].next, 0, 0, [])
    ensures s.listMap[l] < |s.entries| && s.listMap[l] != s.firstFree && l in s.lists
    ensures [s.firstFree as nat] + s.chain[1..] == s.chain
    ensures s.freeList - SetOf(pages) + SetOf(pages) == s.freeList
    ensures t !in s.listMap && t !in s.lists
    ensures Created(s, t, size, pages) ==
            s.(entries := s.entries[s.firstFree := Entry(NIL, 0, size, pages)], listMap := s.listMap[t := s.firstFree],
               firstFree := s.entries[s.firstFree].next, numFreeEntries := s.numFreeEntries - 1, chain := s.chain[1..],
               freeList := s.freeList - SetOf(pages), numFreePages := s.numFreePages - |pages|,
               lists := s.lists[t := Created(s, t, size, pages).lists[t]])
  {
    CreateFacts(s, t, size, pages);
    assert s.firstFree == s.chain[0] && s.chain[0] in s.chain;
    assert InUse(s.listMap, s.listMap[l]);
  }

  /** Freeing a list undoes creating it: pages, symbol-table entries and their chain are exactly as
      before, whatever was written meanwhile into it and into the list l. */
  lemma {:induction false} FreeUndoesCreate(s: Image, t: Key, size: nat, pages: seq<nat>, s': Image, l: Key)
    requires StoreOk(s) && CanCreate(s, t, size, pages) && l in s.listMap
    requires SameBut(Created(s, t, size, pages), s', t, l) && Live(s', t) && l != t
    ensures SameBut(s, Removed(s', t, true), l, l)
    ensures l in s'.lists && Removed(s', t, true).lists[l] == s'.lists[l]
  {
    hide StoreOk, CanCreate, Created, SetOf;
    CreatedFacts(s, t, size, pages, l);
    assert s.listMap[t := s.firstFree] - {t} == s.listMap;
    assert s'.entries[s.firstFree].pages == pages;
  }

  // ---------- the program ----------

  // The temporary of the current scope exists, and `name` means a list of scope 0.
  ghost predicate Ready(s: Store, name: string)
    reads s
  {
    && s.currScope > 0
    && Temp(s) in s.listMap && Temp(s) in s.lists
    && (0, name) in s.listMap && (0, name) in s.lists && (s.currScope, name) !in s.listMap
  }

  ghost function Temp(s: Store): Key
    reads s`currScope
  {
    (s.currScope, "temp")
  }

  lemma {:induction false} AssignStays(s0: Image, s1: Image, k: Key, off: nat, v: int32, mem: seq<byte>)
    requires SameBut(s0, s1, k, k) && Live(s1, k) && off < |s1.lists[k]| && |mem| == |s1.mem|
    ensures SameBut(s0, Assigned(s1, k, off, v, mem), k, k)
    ensures Assigned(s1, k, off, v, mem).lists == s1.lists[k := s1.lists[k][off := v]]
  {
    hide Live, SameBut;
    AssignedIsSame(s1, k, off, v, mem);
    SameButTrans(s0, s1, Assigned(s1, k, off, v, mem), k, k);
  }

  // One element of a list is set.
  method Put(s: Store, name: string, off: nat, v: int32, ghost k: Key, ghost s0: Image)
    requires s.Valid() && Resolve(s.listMap, s.currScope, name) == Found(k) && SameBut(s0, s.Image(), k, k)
    requires k in s.lists && off < |s.lists[k]|
    modifies s.mem, s.entries, s`lists
    ensures s.Valid() && SameBut(s0, s.Image(), k, k)
    ensures s.lists == old(s.lists)[k := old(s.lists)[k][off := v]]
  {
    hide StoreOk, SameBut, Live, Wrote, Address, PageIndex;
    ghost var s1 := s.Image();
    s.AssignVal(name, off, v);
    AssignStays(s0, s1, k, off, v, s.mem[..]);
  }

  // The merge of the two slices starts with v, and goes on with the merge of the slices from i and j.
  ghost predicate HeadTaken(list: seq<int32>, i0: nat, toI: nat, j0: nat, toJ: nat, i: nat, j: nat, v: int32) {
    && i0 < toI <= |list| && j0 < toJ <= |list| && ((i == i0 + 1 && j == j0) || (i == i0 && j == j0 + 1))
    && Merge(list[i0..toI], list[j0..toJ]) == [v] + Merge(list[i..toI], list[j..toJ])
  }

  // The smaller head comes first; of two equal ones that of the second half.
  lemma {:induction false} SmallerHead(list: seq<int32>, i: nat, toI: nat, j: nat, toJ: nat)
    requires i < toI <= |list| && j < toJ <= |list|
    ensures if list[i] < list[j] then HeadTaken(list, i, toI, j, toJ, i + 1, j, list[i])
            else HeadTaken(list, i, toI, j, toJ, i, j + 1, list[j])
  {
    var a, b := list[i..toI], list[j..toJ];
    assert a[1..] == list[i + 1..toI] && b[1..] == list[j + 1..toJ];
  }

  /** One round of the first merge loop: the smaller head is written to cell k of the temporary. */
  method MergeHead(s: Store, name: string, i0: nat, toI: nat, j0: nat, toJ: nat, k: nat, ghost s0: Image)
    returns (i: nat, j: nat, ghost v: int32)
    requires s.Valid() && Ready(s, name) && SameBut(s0, s.Image(), Temp(s), Temp(s))
    requires i0 < toI <= |s.lists[(0, name)]| && j0 < toJ <= |s.lists[(0, name)]| && k < |s.lists[Temp(s)]|
    modifies s.mem, s.entries, s`lists
    ensures s.Valid() && SameBut(s0, s.Image(), Temp(s), Temp(s))
    ensures HeadTaken(old(s.lists)[(0, name)], i0, toI, j0, toJ, i, j, v)
    ensures s.lists == old(s.lists)[Temp(s) := old(s.lists)[Temp(s)][k := v]]
  {
    hide StoreOk, SameBut, HeadTaken;
    ghost var t, list := Temp(s), s.lists[(0, name)];
    SmallerHead(list, i0, toI, j0, toJ);
    var _, val1 := s.GetVal(name, i0);
    var _, val2 := s.GetVal(name, j0);
    if val1 < val2 {
      Put(s, "temp", k, val1, t, s0);
      i, j, v := i0 + 1, j0, val1;
    } else {
      Put(s, "temp", k, val2, t, s0);
      i, j, v := i0, j0 + 1, val2;
    }
  }

  /** The first merge loop: while both halves have elements left. */
  method MergeHeads(s: Store, name: string, start: nat, mid: nat, n: nat) returns (i: nat, j: nat, k: nat)
    requires s.Valid() && Ready(s, name)
    requires mid <= n == |s.lists[Temp(s)]| && start + n <= |s.lists[(0, name)]|
    modifies s.mem, s.entries, s`lists
    ensures s.Valid() && SameBut(old(s.Image()), s.Image(), Temp(s), Temp(s))
    ensures start <= i <= start + mid <= j <= start + n && k == (i - start) + (j - start - mid)
    ensures i == start + mid || j == start + n
    ensures var list := old(s.lists)[(0, name)];
            Temp(s) in s.lists && k <= |s.lists[Temp(s)]| &&
            s.lists[Temp(s)][..k] + Merge(list[i..start + mid], list[j..start + n]) == Merge(list[start..start + mid], list[start + mid..start + n])
  {
    hide StoreOk, SameBut, Merge;
    ghost var s0, t, list := s.Image(), Temp(s), s.lists[(0, name)];
    SameButRefl(s0, t, t);
    i, j, k := start, start + mid, 0;
    while i < start + mid && j < start + n
      invariant start <= i <= start + mid <= j <= start + n && k == (i - start) + (j - start - mid)
      invariant s.Valid() && SameBut(s0, s.Image(), t, t)
      invariant t in s.lists && |s.lists[t]| == n && (0, name) in s.lists && s.lists[(0, name)] == list
      invariant s.lists[t][..k] + Merge(list[i..start + mid], list[j..start + n]) == Merge(list[start..start + mid], list[start + mid..start + n])
    {
      ghost var temp := s.lists[t];
      ghost var v;
      i, j, v := MergeHead(s, name, i, start + mid, j, start + n, k, s0);
      assert s.lists[t][..k + 1] == temp[..k] + [v];
      k := k + 1;
    }
  }

  // One more element behind the part copied so far.
  lemma {:induction false} CopiedOne(temp: seq<int32>, part: seq<int32>, val: int32, k0: nat)
    requires k0 + |part| < |temp|
    ensures var k := k0 + |part|;
            |Splice(temp, k0, part)| == |temp| && Splice(temp, k0, part)[k := val] == Splice(temp, k0, part + [val])
  {
  }

  lemma {:induction false} SpliceNone(temp: seq<int32>, k0: nat)
    requires k0 <= |temp|
    ensures Splice(temp, k0, []) == temp
  {
  }

  /** The second and third merge loops: copy what is left of one half. */
  method CopyRest(s: Store, name: string, from: nat, to: nat, k0: nat) returns (k: nat)
    requires s.Valid() && Ready(s, name)
    requires from <= to <= |s.lists[(0, name)]| && k0 + (to - from) <= |s.lists[Temp(s)]|
    modifies s.mem, s.entries, s`lists
    ensures s.Valid() && SameBut(old(s.Image()), s.Image(), Temp(s), Temp(s))
    ensures k == k0 + (to - from) && Temp(s) in s.lists
    ensures s.lists[Temp(s)] == Splice(old(s.lists)[Temp(s)], k0, old(s.lists)[(0, name)][from..to])
  {
    hide StoreOk, SameBut, Splice;
    ghost var s0, t, list := s.Image(), Temp(s), s.lists[(0, name)];
    ghost var temp := s.lists[t];
    SameButRefl(s0, t, t);
    SpliceNone(temp, k0);
    assert list[from..from] == [];
    var i := from;
    k := k0;
    while i < to
      invariant from <= i <= to && k == k0 + (i - from)
      invariant s.Valid() && SameBut(s0, s.Image(), t, t)
      invariant t in s.lists && (0, name) in s.lists && s.lists[(0, name)] == list
      invariant s.lists[t] == Splice(temp, k0, list[from..i])
    {
      var _, val := s.GetVal(name, i);
      CopiedOne(temp, list[from..i], val, k0);
      Put(s, "temp", k, val, t, s0);
      assert list[from..i] + [val] == list[from..i + 1];
      i, k := i + 1, k + 1;
    }
  }

  /** The last loop: the merged elements go back to where they came from. */
  method CopyBack(s: Store, name: string, start: nat, n: nat)
    requires s.Valid() && Ready(s, name)
    requires n == |s.lists[Temp(s)]| && start + n <= |s.lists[(0, name)]|
    modifies s.mem, s.entries, s`lists
    ensures s.Valid() && SameBut(old(s.Image()), s.Image(), (0, name), (0, name))
    ensures s.lists[(0, name)] == old(s.lists)[(0, name)][..start] + old(s.lists)[Temp(s)] + old(s.lists)[(0, name)][start + n..]
  {
    hide StoreOk, SameBut;
    ghost var s0, t, l := s.Image(), Temp(s), (0, name);
    ghost var temp, list := s.lists[t], s.lists[l];
    SameButRefl(s0, l, l);
    for i := start to start + n
      invariant s.Valid() && SameBut(s0, s.Image(), l, l)
      invariant t in s.lists && s.lists[t] == temp && l in s.lists
      invariant s.lists[l] == list[..start] + temp[..i - start] + list[i..]
    {
      var _, val := s.GetVal("temp", i - start);
      Put(s, name, i, val, l, s0);
      assert s.lists[l] == list[..start] + temp[..i + 1 - start] + list[i + 1..];
    }
  }

  // list with the cells from start on replaced by part.
  ghost function Splice(list: seq<int32>, start: nat, part: seq<int32>): seq<int32>
    requires start + |part| <= |list|
  {
    list[..start] + part + list[start + |part|..]
  }

  // No list lives in a scope above the current one, so nothing there shadows a name.
  ghost predicate NothingAbove(s: Store)
    reads s
  {
    forall k :: k in s.listMap ==> k.0 <= s.currScope
  }

  /** What merge_sort asks for: a list of scope 0 that is not called like the temporary, and room
      for the temporary. */
  ghost predicate CanSort(s: Store, name: string, start: nat, n: nat)
    reads s
  {
    && NothingAbove(s) && name != "temp"
    && (0, name) in s.listMap && (0, name) in s.lists && start + n <= |s.lists[(0, name)]|
    && (n >= 2 ==> s.numFreeEntries >= 1 && n <= NUM_ELEM_PER_PAGE * s.numFreePages)
  }

  /** The three merge loops together fill the temporary with the merge of the two halves. */
  method MergeHalves(s: Store, name: string, start: nat, mid: nat, n: nat)
    requires s.Valid() && Ready(s, name)
    requires mid <= n == |s.lists[Temp(s)]| && start + n <= |s.lists[(0, name)]|
    modifies s.mem, s.entries, s`lists
    ensures s.Valid() && SameBut(old(s.Image()), s.Image(), Temp(s), Temp(s))
    ensures var list := old(s.lists)[(0, name)];
            Temp(s) in s.lists && s.lists[Temp(s)] == Merge(list[start..start + mid], list[start + mid..start + n])
  {
    hide StoreOk, Merge, Splice, SameBut;
    ghost var s0, t, list := s.Image(), Temp(s), s.lists[(0, name)];
    var i, j, k := MergeHeads(s, name, start, mid, n);
    ghost var s1, temp := s.Image(), s.lists[t];
    ghost var a, b := list[i..start + mid], list[j..start + n];
    MergeRest(a, b);
    SameFacts(s0, s1, t, (0, name));
    BothRests(temp, k, a, b);
    k := CopyRest(s, name, i, start + mid, k);
    ghost var s2 := s.Image();
    SameButTrans(s0, s1, s2, t, t);
    SameFacts(s1, s2, t, (0, name));
    k := CopyRest(s, name, j, start + n, k);
    SameButTrans(s0, s2, s.Image(), t, t);
  }

  // Copying both rests behind what is done fills the temporary.
  lemma {:induction false} BothRests(temp: seq<int32>, k: nat, a: seq<int32>, b: seq<int32>)
    requires k + |a| + |b| == |temp|
    ensures |Splice(temp, k, a)| == |temp| && Splice(Splice(temp, k, a), k + |a|, b) == temp[..k] + (a + b)
  {
  }

  // With one half used up, the merge of the rest is the other half.
  lemma {:induction false} MergeRest(a: seq<int32>, b: seq<int32>)
    ensures a == [] || b == [] ==> Merge(a, b) == a + b
  {
  }

  // After createList("temp") in a scope of its own, the loops can run.
  lemma {:induction false} CreatedReady(s: Image, t: Key, l: Key, n: nat, pages: seq<nat>)
    requires StoreOk(s) && CanCreate(s, t, n, pages) && l in s.listMap && l in s.lists && l != t
    ensures var c := Created(s, t, n, pages);
            && t in c.listMap && t in c.lists && |c.lists[t]| == n
            && l in c.listMap && l in c.lists && c.lists[l] == s.lists[l]
            && FewestPages(n, s.numFreePages - c.numFreePages) && c.numPages == s.numPages
            && forall k :: k in c.listMap <==> k == t || k in s.listMap
  {
    CreateFacts(s, t, n, pages);
    PagesForIsFewest(n);
  }

  // list with the runs start..start+mid and start+mid..start+n merged.
  ghost function MergedCells(list: seq<int32>, start: nat, mid: nat, n: nat): seq<int32>
    requires mid <= n && start + n <= |list|
  {
    list[..start] + Merge(list[start..start + mid], list[start + mid..start + n]) + list[start + n..]
  }

  /** Merging two neighbouring halves: create the temporary, merge into it, copy back, free it. The
      list has its cells merged; of everything else in the store nothing has changed. */
  method MergeThroughTemp(s: Store, name: string, start: nat, mid: nat, n: nat)
    requires s.Valid() && CanSort(s, name, start, n) && 2 <= n && mid <= n
    requires s.currScope > 0 && forall k :: k in s.listMap ==> k.0 < s.currScope
    modifies s, s.mem, s.entries
    ensures s.Valid() && s.currScope == old(s.currScope)
    ensures SameBut(old(s.Image()), s.Image(), (0, name), (0, name))
    ensures |s.lists[(0, name)]| == |old(s.lists)[(0, name)]|
    ensures s.lists[(0, name)] == MergedCells(old(s.lists)[(0, name)], start, mid, n)
    ensures FewestPages(n, s.maxPagesUsed - old(s.numPages - s.numFreePages))
    ensures s.peak == Max(old(s.peak), s.maxPagesUsed)
  {
    hide StoreOk, CanCreate, Created, SameBut, Removed, FewestPages, Merge;
    ghost var s0, t, l := s.Image(), Temp(s), (0, name);
    ghost var list := s.lists[l];
    var _, pages := s.CreateList(n, "temp");
    CreatedReady(s0, t, l, n, pages);
    ghost var s1 := s.Image();
    MergeHalves(s, name, start, mid, n);
    ghost var s2 := s.Image();
    SameFacts(s1, s2, t, l);
    CopyBack(s, name, start, n);
    ghost var s3 := s.Image();
    SameFacts(s2, s3, l, t);
    SameButTrans(s1, s2, s3, t, l);
    s.FreeList("temp");
    FreeUndoesCreate(s0, t, n, pages, s3, l);
  }

  lemma {:induction false} SameFacts(s: Image, s': Image, k: Key, l: Key)
    requires SameBut(s, s', k, k) && l in s.listMap && l in s.lists
    ensures k in s'.lists && |s'.lists[k]| == |s.lists[k]| && l in s'.lists && |s'.lists[l]| == |s.lists[l]|
    ensures k != l ==> s'.lists[l] == s.lists[l]
    ensures SameBut(s, s', k, l) && SameBut(s, s', l, k)
    ensures k in s'.listMap && l in s'.listMap
    ensures s'.listMap == s.listMap && s'.numFreePages == s.numFreePages && s'.numPages == s.numPages && s'.numFreeEntries == s.numFreeEntries
  {
  }

  // The cells start..start+n sorted, the others as they were.
  ghost function SortedCells(list: seq<int32>, start: nat, n: nat): seq<int32>
    requires start + n <= |list|
  {
    list[..start] + Sort(list[start..start + n]) + list[start + n..]
  }

  /** Sorting the halves one after the other and merging them sorts the whole. */
  lemma {:induction false} HalvesMakeWhole(list: seq<int32>, start: nat, n: nat)
    requires start + n <= |list| && n >= 2
    ensures var m := n / 2;
            var a := SortedCells(list, start, m);
            && |a| == |list|
            && var b := SortedCells(a, start + m, n - m);
               && |b| == |list|
               && SortedCells(list, start, n) == MergedCells(b, start, m, n)
  {
    hide Sort, MergedCells, SortedCells;
    var m := n / 2;
    var p, x, y, q := list[..start], list[start..start + m], list[start + m..start + n], list[start + n..];
    assert list == p + x + y + q;
    PartsMakeWhole(p, x, y, q);
  }

  lemma {:induction false} PartsMakeWhole(p: seq<int32>, x: seq<int32>, y: seq<int32>, q: seq<int32>)
    requires |x| + |y| >= 2 && |x| == (|x| + |y|) / 2
    ensures var list, start, m, n := p + x + y + q, |p|, |x|, |x| + |y|;
            var a := SortedCells(list, start, m);
            && |a| == |list|
            && var b := SortedCells(a, start + m, n - m);
               && |b| == |list|
               && SortedCells(list, start, n) == MergedCells(b, start, m, n)
  {
    hide Sort, Merge, Sorted;
    SortSorts(x);
    SortSorts(y);
    BothHalves(p, x, y, q);
    hide SortedCells;
    SlicesOf(p, Sort(x), Sort(y), q, p + Sort(x) + Sort(y) + q);
    assert (x + y)[..|x|] == x && (x + y)[|x|..] == y;
    SortUnfolds(x + y);
    CellsBetween(p, x + y, q);
    assert p + (x + y) + q == p + x + y + q;
  }

  // Sorting one half and then the other.
  lemma {:induction false} BothHalves(p: seq<int32>, x: seq<int32>, y: seq<int32>, q: seq<int32>)
    ensures |Sort(x)| == |x|
    ensures var a := SortedCells(p + x + y + q, |p|, |x|);
            a == p + Sort(x) + y + q && SortedCells(a, |p| + |x|, |y|) == p + Sort(x) + Sort(y) + q
  {
    SortSorts(x);
    hide Sort, Sorted, SortedCells;
    assert p + x + y + q == p + x + (y + q);
    CellsBetween(p, x, y + q);
    assert p + Sort(x) + (y + q) == p + Sort(x) + y + q;
    CellsBetween(p + Sort(x), y, q);
  }

  lemma {:induction false} SortUnfolds(s: seq<int32>)
    requires |s| >= 2
    ensures Sort(s) == Merge(Sort(s[..|s| / 2]), Sort(s[|s| / 2..]))
  {
  }

  lemma {:induction false} CellsBetween(p: seq<int32>, x: seq<int32>, q: seq<int32>)
    ensures SortedCells(p + x + q, |p|, |x|) == p + Sort(x) + q
  {
    var list := p + x + q;
    assert list[..|p|] == p && list[|p|..|p| + |x|] == x && list[|p| + |x|..] == q;
  }

  lemma {:induction false} SlicesOf(p: seq<int32>, x: seq<int32>, y: seq<int32>, q: seq<int32>, b: seq<int32>)
    requires b == p + x + y + q
    ensures b[..|p|] == p && b[|p|..|p| + |x|] == x
    ensures b[|p| + |x|..|p| + |x| + |y|] == y && b[|p| + |x| + |y|..] == q
  {
  }

  lemma {:induction false} OneCellIsSorted(list: seq<int32>, start: nat, n: nat)
    requires start + n <= |list| && n <= 1
    ensures SortedCells(list, start, n) == list
  {
    assert list == list[..start] + list[start..start + n] + list[start + n..];
  }

  // The pages that sorting n cells takes: m0 and m are MAX_PAGES_USED, p0 and p the peak, before and after.
  ghost predicate PagesTaken(n: nat, used: int, m0: nat, p0: nat, m: nat, p: nat) {
    if n <= 1 then m == m0 && p == p0 else FewestPages(n, m - used) && p == Max(p0, m)
  }

  // Sorting the halves takes no more pages than merging them.
  lemma {:induction false} LastPeakCounts(used: int, mid: nat, n: nat, m0: nat, p0: nat, m1: nat, p1: nat, m2: nat, p2: nat, m3: nat, p3: nat)
    requires mid <= n && 2 <= n && FewestPages(n, m3 - used) && p3 == Max(p2, m3)
    requires PagesTaken(mid, used, m0, p0, m1, p1) && PagesTaken(n - mid, used, m1, p1, m2, p2)
    ensures PagesTaken(n, used, m0, p0, m3, p3)
  {
  }

  // Nothing lives in the scope that ends, so ending it deletes nothing.
  method Leave(s: Store, ghost scope: int)
    requires s.Valid() && s.currScope == scope + 1 && forall k :: k in s.listMap ==> k.0 <= scope
    modifies s, s.entries
    ensures s.Valid() && s.Image() == old(s.Image()) && s.currScope == scope
    ensures s.maxPagesUsed == old(s.maxPagesUsed) && s.peak == old(s.peak)
  {
    hide StoreOk, Removed;
    var _ := s.EndScope();
  }

  // The given cells are in order, and the same; all others are as they were.
  ghost predicate IsSorted(list: seq<int32>, sorted: seq<int32>, start: nat, n: nat) {
    && |sorted| == |list| && start + n <= |list|
    && sorted[..start] == list[..start] && sorted[start + n..] == list[start + n..]
    && Sorted(sorted[start..start + n]) && multiset(sorted[start..start + n]) == multiset(list[start..start + n])
  }

  /** What the contract of MergeSort says about the cells. */
  lemma {:induction false} SortedCellsAre(list: seq<int32>, start: nat, n: nat)
    requires start + n <= |list|
    ensures IsSorted(list, SortedCells(list, start, n), start, n)
  {
    hide Sort, Sorted;
    var cells := list[start..start + n];
    SortSorts(cells);
    assert SortedCells(list, start, n)[start..start + n] == Sort(cells);
  }

  /** merge_sort sorts the given cells of the list. All other cells and lists, the free pages, the
      free chain of the symbol table and the current scope are as before. For two cells or more,
      maxPagesUsed ends as the pages in use before plus those of one temporary for all n cells, and
      that is the most that was ever in use during the sort. */
  method MergeSort(s: Store, name: string, start: nat, n: nat)
    requires s.Valid() && CanSort(s, name, start, n)
    modifies s, s.mem, s.entries
    ensures s.Valid() && s.currScope == old(s.currScope)
    ensures SameBut(old(s.Image()), s.Image(), (0, name), (0, name))
    ensures s.lists[(0, name)] == SortedCells(old(s.lists)[(0, name)], start, n)
    ensures n >= 2 ==> FewestPages(n, s.maxPagesUsed - old(s.numPages - s.numFreePages))
    ensures n >= 2 ==> s.peak == Max(old(s.peak), s.maxPagesUsed)
    ensures n <= 1 ==> s.maxPagesUsed == old(s.maxPagesUsed) && s.peak == old(s.peak)
    decreases n, 1
  {
    hide StoreOk, SameBut, Merge, SortedCells;
    ghost var l, scope := (0, name), s.currScope;
    s.InitScope();
    if n <= 1 {
      SameButRefl(s.Image(), l, l);
      OneCellIsSorted(s.lists[l], start, n);
    } else {
      ghost var s0 := s.Image();
      SortHalves(s, name, start, n);
      SameFacts(s0, s.Image(), l, l);
    }
    Leave(s, scope);
  }

  // The recursive calls and the merge, in the scope of the call.
  method SortHalves(s: Store, name: string, start: nat, n: nat)
    requires s.Valid() && CanSort(s, name, start, n) && n >= 2
    requires s.currScope > 0 && forall k :: k in s.listMap ==> k.0 < s.currScope
    modifies s, s.mem, s.entries
    ensures s.Valid() && s.currScope == old(s.currScope)
    ensures SameBut(old(s.Image()), s.Image(), (0, name), (0, name))
    ensures s.lists[(0, name)] == SortedCells(old(s.lists)[(0, name)], start, n)
    ensures PagesTaken(n, old(s.numPages - s.numFreePages), old(s.maxPagesUsed), old(s.peak), s.maxPagesUsed, s.peak)
    decreases n, 0
  {
    hide StoreOk, SameBut, FewestPages, MergedCells, SortedCells, Max;
    ghost var s0, l, used, m0, p0 := s.Image(), (0, name), s.numPages - s.numFreePages, s.maxPagesUsed, s.peak;
    var mid := n / 2;
    HalvesMakeWhole(s.lists[l], start, n);
    MergeSort(s, name, start, mid);
    ghost var s1, m1, p1 := s.Image(), s.maxPagesUsed, s.peak;
    SameFacts(s0, s1, l, l);
    MergeSort(s, name, start + mid, n - mid);
    ghost var s2, m2, p2 := s.Image(), s.maxPagesUsed, s.peak;
    SameFacts(s1, s2, l, l);
    SameButTrans(s0, s1, s2, l, l);
    MergeThroughTemp(s, name, start, mid, n);
    SameButTrans(s0, s2, s.Image(), l, l);
    LastPeakCounts(used, mid, n, m0, p0, m1, p1, m2, p2, s.maxPagesUsed, s.peak);
  }
}
