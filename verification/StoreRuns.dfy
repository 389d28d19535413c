/** Whole runs of the paged store, and the plain map of lists that they refine. */
module StoreRuns {
  import opened Bytes
  import opened PageTables
  import opened GoodMalloc
  import opened MapOrder

  datatype Op =
    | Create(size: nat, name: string)
    | Assign(name: string, off: nat, value: int32)
    | Get(name: string, off: nat)
    | Free(name: string)
    | EnterScope
    | LeaveScope

  // What the caller gets to see.
  datatype Out = Returned(r: int) | Value(v: int32) | Nothing

  datatype Config = Config(image: Image, scope: int)

  // In the program an offset out of bounds is not refused but used as the address -1.
  ghost predicate InBounds(c: Config, op: Op) {
    (op.Assign? || op.Get?) ==>
      match Resolve(c.image.listMap, c.scope, op.name)
      case Found(k) => k in c.image.lists && op.off < |c.image.lists[k]|
      case NotFound => true
  }

  /** One call on the concrete store. */
  ghost predicate Next(c: Config, op: Op, out: Out, c': Config)
    requires StoreOk(c.image)
  {
    var s, s' := c.image, c'.image;
    InBounds(c, op) &&
    match op
    case Create(size, name) =>
      var k := (c.scope, name);
      c'.scope == c.scope &&
      (if s.numFreeEntries > 0 && k !in s.listMap && size <= NUM_ELEM_PER_PAGE * s.numFreePages then
         out == Returned(1) && exists pages :: CanCreate(s, k, size, pages) && s' == Created(s, k, size, pages)
       else
         out == Returned(-1) && s' == s)
    case Assign(name, off, v) =>
      c'.scope == c.scope && out == Nothing &&
      (match Resolve(s.listMap, c.scope, name)
       case Found(k) => AssignStep(s, k, off, v, s')
       case NotFound => s' == s)
    case Get(name, off) =>
      c' == c &&
      (match Resolve(s.listMap, c.scope, name)
       case Found(k) => out.Value? && GetStep(s, k, off, out.v)
       case NotFound => out == Nothing)
    case Free(name) =>
      var k := (c.scope, name);
      c'.scope == c.scope && out == Nothing && (if k in s.listMap then Live(s, k) && s' == Removed(s, k, true) else s' == s)
    case EnterScope =>
      s' == s && c'.scope == c.scope + 1 && out == Nothing
    case LeaveScope =>
      c'.scope == c.scope - 1 && out == Nothing &&
      (if exists k :: k in s.listMap && k.0 == c.scope
       then exists k :: IsFirst(s.listMap.Keys, c.scope, k) && Live(s, k) && s' == Removed(s, k, false)
       else s' == s)
  }

  // ---------- the plain map ----------

  /** What a caller thinks of: lists by scope and name, and how much room there is. */
  datatype Plain = Plain(lists: map<Key, seq<int32>>, scope: int, freeEntries: nat, freePages: nat)

  function PlainMeaning(p: Plain, name: string): Meaning {
    if (p.scope, name) in p.lists then Found((p.scope, name))
    else if (0, name) in p.lists then Found((0, name))
    else NotFound
  }

  ghost predicate PlainNext(p: Plain, op: Op, out: Out, p': Plain) {
    match op
    case Create(size, name) =>
      var k := (p.scope, name);
      if p.freeEntries > 0 && k !in p.lists && size <= NUM_ELEM_PER_PAGE * p.freePages then
        && out == Returned(1) && k in p'.lists && |p'.lists[k]| == size
        && p' == Plain(p.lists[k := p'.lists[k]], p.scope, p.freeEntries - 1, p'.freePages) && FewestPages(size, p.freePages - p'.freePages)
      else
        out == Returned(-1) && p' == p
    case Assign(name, off, v) =>
      (match PlainMeaning(p, name)
       case Found(k) => k in p.lists && off < |p.lists[k]| && p' == p.(lists := p.lists[k := p.lists[k][off := v]])
       case NotFound => p' == p) && out == Nothing
    case Get(name, off) =>
      p' == p && (match PlainMeaning(p, name)
                  case Found(k) => k in p.lists && off < |p.lists[k]| && out == Value(p.lists[k][off])
                  case NotFound => out == Nothing)
    case Free(name) =>
      var k := (p.scope, name);
      out == Nothing &&
      if k in p.lists
      then p' == Plain(p.lists - {k}, p.scope, p.freeEntries + 1, p'.freePages) && FewestPages(|p.lists[k]|, p'.freePages - p.freePages)
      else p' == p
    case EnterScope =>
      out == Nothing && p' == p.(scope := p.scope + 1)
    case LeaveScope =>
      // the first list of the scope goes, and its pages with it
      out == Nothing &&
      if exists k :: k in p.lists && k.0 == p.scope
      then exists k :: IsFirst(p.lists.Keys, p.scope, k) && p' == Plain(p.lists - {k}, p.scope - 1, p.freeEntries + 1, p.freePages)
      else p' == p.(scope := p.scope - 1)
  }

  ghost function PlainOf(c: Config): Plain {
    Plain(c.image.lists, c.scope, c.image.numFreeEntries, c.image.numFreePages)
  }

  lemma {:induction false} CreateRefines(c: Config, op: Op, out: Out, c': Config)
    requires StoreOk(c.image) && Next(c, op, out, c') && op.Create?
    ensures StoreOk(c'.image) && PlainNext(PlainOf(c), op, out, PlainOf(c'))
  {
    hide StoreOk, CanCreate, SetOf, PagesFor;
    var s, k := c.image, (c.scope, op.name);
    SameKeys(s);
    if out == Returned(1) {
      var pages :| CanCreate(s, k, op.size, pages) && c'.image == Created(s, k, op.size, pages);
      CreateKeeps(s, k, op.size, pages);
      CreateFacts(s, k, op.size, pages);
      CreateSize(s, k, op.size, pages);
    }
  }

  lemma {:induction false} CreateSize(s: Image, k: Key, size: nat, pages: seq<nat>)
    requires CanCreate(s, k, size, pages)
    ensures FewestPages(size, |pages|)
  {
    PagesForIsFewest(size);
  }

  lemma {:induction false} SameKeys(s: Image)
    requires StoreOk(s)
    ensures s.lists.Keys == s.listMap.Keys
    ensures forall k :: k in s.lists <==> k in s.listMap
  {
  }

  lemma {:induction false} AssignRefines(c: Config, op: Op, out: Out, c': Config)
    requires StoreOk(c.image) && Next(c, op, out, c') && op.Assign?
    ensures StoreOk(c'.image) && PlainNext(PlainOf(c), op, out, PlainOf(c'))
  {
    hide StoreOk, Address, Wrote, CellOk, Live;
    SameKeys(c.image);
    if Resolve(c.image.listMap, c.scope, op.name).Found? {
      AssignKeeps(c.image, Resolve(c.image.listMap, c.scope, op.name).key, op.off, op.value, c'.image.mem);
    }
  }

  lemma {:induction false} GetRefines(c: Config, op: Op, out: Out, c': Config)
    requires StoreOk(c.image) && Next(c, op, out, c') && op.Get?
    ensures StoreOk(c'.image) && PlainNext(PlainOf(c), op, out, PlainOf(c'))
  {
    hide StoreOk, Address;
    SameKeys(c.image);
    if Resolve(c.image.listMap, c.scope, op.name).Found? {
      ElementFacts(c.image, Resolve(c.image.listMap, c.scope, op.name).key, op.off);
    }
  }

  lemma {:induction false} RemoveSize(s: Image, k: Key)
    requires StoreOk(s) && Live(s, k)
    ensures FewestPages(|s.lists[k]|, |s.entries[s.listMap[k]].pages|)
  {
    PagesForIsFewest(|s.lists[k]|);
    assert ListPagesOk(s.entries[s.listMap[k]], s.freeList, s.leaked, s.numPages);
  }

  lemma {:induction false} FreeRefines(c: Config, op: Op, out: Out, c': Config)
    requires StoreOk(c.image) && Next(c, op, out, c') && op.Free?
    ensures StoreOk(c'.image) && PlainNext(PlainOf(c), op, out, PlainOf(c'))
  {
    hide StoreOk, PagesFor;
    SameKeys(c.image);
    var k := (c.scope, op.name);
    if k in c.image.listMap {
      RemoveKeeps(c.image, k, true);
      RemoveSize(c.image, k);
    }
  }

  lemma {:induction false} LeaveRefines(c: Config, op: Op, out: Out, c': Config)
    requires StoreOk(c.image) && Next(c, op, out, c') && op.LeaveScope?
    ensures StoreOk(c'.image) && PlainNext(PlainOf(c), op, out, PlainOf(c'))
  {
    hide StoreOk, SetOf, NameLe;
    SameKeys(c.image);
    var s := c.image;
    if exists k :: k in s.listMap && k.0 == c.scope {
      var k :| IsFirst(s.listMap.Keys, c.scope, k) && Live(s, k) && c'.image == Removed(s, k, false);
      assert s.lists.Keys == s.listMap.Keys;
      RemoveKeeps(s, k, false);
      assert k in s.lists;
    }
  }

  /** Each call on the store is a call on the plain map, and keeps the invariant. */
  lemma {:induction false} StepRefines(c: Config, op: Op, out: Out, c': Config)
    requires StoreOk(c.image) && Next(c, op, out, c')
    ensures StoreOk(c'.image) && PlainNext(PlainOf(c), op, out, PlainOf(c'))
  {
    match op
    case Create(_, _) => CreateRefines(c, op, out, c');
    case Assign(_, _, _) => AssignRefines(c, op, out, c');
    case Get(_, _) => GetRefines(c, op, out, c');
    case Free(_) => FreeRefines(c, op, out, c');
    case EnterScope =>
    case LeaveScope => LeaveRefines(c, op, out, c');
  }

  // The calls are defined on well-formed stores; RunRefines shows that a run meets no others.
  ghost predicate IsRun(cs: seq<Config>, ops: seq<Op>, outs: seq<Out>) {
    && |cs| == |ops| + 1 == |outs| + 1 && StoreOk(cs[0].image)
    && forall i, j :: 0 <= i < |ops| && j == i + 1 && StoreOk(cs[i].image) ==> Next(cs[i], ops[i], outs[i], cs[j])
  }

  lemma {:induction false} RunStaysOk(cs: seq<Config>, ops: seq<Op>, outs: seq<Out>, i: nat)
    requires IsRun(cs, ops, outs) && i < |cs|
    ensures StoreOk(cs[i].image)
  {
    hide StoreOk, Next, PlainNext;
    if i > 0 {
      RunStaysOk(cs, ops, outs, i - 1);
      StepRefines(cs[i - 1], ops[i - 1], outs[i - 1], cs[i]);
    }
  }

  /** Over every run the store refines the plain map: in each state the free pages, the pages of the
      live lists and the leaked pages partition the memory, and every answer is the plain one. */
  lemma {:induction false} RunRefines(cs: seq<Config>, ops: seq<Op>, outs: seq<Out>)
    requires IsRun(cs, ops, outs)
    ensures forall i :: 0 <= i < |cs| ==> StoreOk(cs[i].image)
    ensures forall i, j :: 0 <= i < |ops| && j == i + 1 ==> PlainNext(PlainOf(cs[i]), ops[i], outs[i], PlainOf(cs[j]))
  {
    hide StoreOk, Next, PlainNext;
    forall i | 0 <= i < |cs| ensures StoreOk(cs[i].image) {
      RunStaysOk(cs, ops, outs, i);
    }
    forall i, j | 0 <= i < |ops| && j == i + 1
      ensures PlainNext(PlainOf(cs[i]), ops[i], outs[i], PlainOf(cs[j]))
    {
      StepRefines(cs[i], ops[i], outs[i], cs[j]);
    }
  }

  // The list that leaving the scope deletes, if it deletes one, has elements.
  ghost predicate FirstHasElements(c: Config) {
    exists k :: IsFirst(c.image.listMap.Keys, c.scope, k) && k in c.image.lists && c.image.lists[k] != []
  }

  /** Leaving a scope leaks pages if and only if the first list that still lives there has elements. */
  lemma {:induction false} LeaveLeaksIff(c: Config, op: Op, out: Out, c': Config)
    requires StoreOk(c.image) && Next(c, op, out, c') && op.LeaveScope?
    ensures c'.image.leaked != c.image.leaked <==> FirstHasElements(c)
  {
    hide NameLe, StoreOk, Removed;
    var s := c.image;
    if exists k :: k in s.listMap && k.0 == c.scope {
      var k :| IsFirst(s.listMap.Keys, c.scope, k) && Live(s, k) && c'.image == Removed(s, k, false);
      RemovalLeaksIff(s, k);
      forall l | IsFirst(s.listMap.Keys, c.scope, l) ensures l == k {
        FirstUnique(s.listMap.Keys, c.scope, k, l);
      }
    }
  }

  lemma {:induction false} RemovalLeaksIff(s: Image, k: Key)
    requires StoreOk(s) && Live(s, k)
    ensures Removed(s, k, false).leaked != s.leaked <==> s.lists[k] != []
  {
    RemoveSize(s, k);
    var pages := s.entries[s.listMap[k]].pages;
    assert ListPagesOk(s.entries[s.listMap[k]], s.freeList, s.leaked, s.numPages);
    if pages != [] {
      assert pages[0] in pages && pages[0] in SetOf(pages);
    } else {
      assert SetOf(pages) == {};
      assert s.leaked + SetOf(pages) == s.leaked;
    }
  }

  /** The calls of the class are exactly these steps. */
  method Execute(s: Store, op: Op) returns (out: Out)
    requires s.Valid() && InBounds(Config(s.Image(), s.currScope), op)
    modifies s, s.mem, s.entries
    ensures s.Valid()
    ensures Next(old(Config(s.Image(), s.currScope)), op, out, Config(s.Image(), s.currScope))
  {
    hide StoreOk;
    out := Nothing;
    match op {
      case Create(size, name) =>
        var r, _ := s.CreateList(size, name);
        out := Returned(r);
      case Assign(name, off, v) =>
        s.AssignVal(name, off, v);
      case Get(name, off) =>
        var found, v := s.GetVal(name, off);
        if found {
          out := Value(v);
        }
      case Free(name) =>
        s.FreeList(name);
      case EnterScope =>
        s.InitScope();
      case LeaveScope =>
        var _ := s.EndScope();
    }
  }
}
