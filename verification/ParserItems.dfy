/** What the tokens of a command mean: arguments, patterns and redirections in any order, possibly & at
    the end; and which lists of tokens are refused. */
module ParserItems {
  import opened Parser

  datatype Item = Arg(word: string) | Matches(pattern: string) | Input(file: string) | Output(file: string)

  function Spell(item: Item): seq<string> {
    match item
    case Arg(w) => [w]
    case Matches(p) => [p]
    case Input(f) => ["<", f]
    case Output(f) => [">", f]
  }

  predicate ItemOk(glob: Glob, item: Item) {
    match item
    case Arg(w) => w != "<" && w != ">" && w != "&" && !IsPattern(w)
    case Matches(p) => IsPattern(p) && glob(p).Some?
    case Input(f) => f != "<" && f != ">"
    case Output(f) => f != "<" && f != ">"
  }

  predicate ItemsOk(glob: Glob, items: seq<Item>) {
    forall i :: 0 <= i < |items| ==> ItemOk(glob, items[i])
  }

  function SpellAll(items: seq<Item>): seq<string> {
    if items == [] then [] else Spell(items[0]) + SpellAll(items[1..])
  }

  // ---------- what they mean ----------

  // The arguments in order, with the paths that match a pattern in its place.
  function Args(glob: Glob, items: seq<Item>): seq<string> {
    if items == [] then []
    else
      Args(glob, items[..|items| - 1]) +
      match items[|items| - 1]
      case Arg(w) => [w]
      case Matches(p) => if glob(p).Some? then glob(p).value else []
      case _ => []
  }

  // The last redirection counts, or what was there before.
  ghost predicate InputIs(items: seq<Item>, before: Option<string>, input: Option<string>) {
    || (input == before && forall i :: 0 <= i < |items| ==> !items[i].Input?)
    || (exists i :: 0 <= i < |items| && items[i].Input? && input == Some(items[i].file) && forall k :: i < k < |items| ==> !items[k].Input?)
  }

  ghost predicate OutputIs(items: seq<Item>, before: Option<string>, output: Option<string>) {
    || (output == before && forall i :: 0 <= i < |items| ==> !items[i].Output?)
    || (exists i :: 0 <= i < |items| && items[i].Output? && output == Some(items[i].file) && forall k :: i < k < |items| ==> !items[k].Output?)
  }

  /** Command d is c with the items added. */
  ghost predicate Adds(glob: Glob, c: Command, items: seq<Item>, d: Command) {
    && d.args == c.args + Args(glob, items) && d.background == c.background
    && InputIs(items, c.input, d.input) && OutputIs(items, c.output, d.output)
  }

  function AddOne(glob: Glob, c: Command, item: Item): Command {
    match item
    case Arg(w) => c.(args := c.args + [w])
    case Matches(p) => if glob(p).Some? then c.(args := c.args + glob(p).value) else c
    case Input(f) => c.(input := Some(f))
    case Output(f) => c.(output := Some(f))
  }

  lemma {:induction false} AddsMore(glob: Glob, c: Command, items: seq<Item>, d: Command, item: Item)
    requires Adds(glob, c, items, d)
    ensures Adds(glob, c, items + [item], AddOne(glob, d, item))
  {
    var more, e := items + [item], AddOne(glob, d, item);
    assert more[..|more| - 1] == items;
    assert more[|items|] == item && forall i :: 0 <= i < |items| ==> more[i] == items[i];
    InputMore(items, item, c.input, d.input);
    OutputMore(items, item, c.output, d.output);
  }

  lemma {:induction false} InputMore(items: seq<Item>, item: Item, before: Option<string>, input: Option<string>)
    requires InputIs(items, before, input)
    ensures InputIs(items + [item], before, if item.Input? then Some(item.file) else input)
  {
    var more := items + [item];
    if item.Input? {
      assert more[|items|].Input?;
    } else if i :| 0 <= i < |items| && items[i].Input? && input == Some(items[i].file) && forall k :: i < k < |items| ==> !items[k].Input? {
      assert more[i].Input?;
    }
  }

  lemma {:induction false} OutputMore(items: seq<Item>, item: Item, before: Option<string>, output: Option<string>)
    requires OutputIs(items, before, output)
    ensures OutputIs(items + [item], before, if item.Output? then Some(item.file) else output)
  {
    var more := items + [item];
    if item.Output? {
      assert more[|items|].Output?;
    } else if i :| 0 <= i < |items| && items[i].Output? && output == Some(items[i].file) && forall k :: i < k < |items| ==> !items[k].Output? {
      assert more[i].Output?;
    }
  }

  // ---------- reading them ----------

  // tokens from j on are the items and then rest.
  predicate From(tokens: seq<string>, j: nat, items: seq<Item>, rest: seq<string>) {
    j <= |tokens| && tokens[j..] == SpellAll(items) + rest
  }

  lemma {:induction false} ItemRead(glob: Glob, tokens: seq<string>, j: nat, item: Item, c: Command)
    requires ItemOk(glob, item) && j + |Spell(item)| <= |tokens| && tokens[j..j + |Spell(item)|] == Spell(item)
    ensures Sorted(glob, tokens, j, c) == Sorted(glob, tokens, j + |Spell(item)|, AddOne(glob, c, item))
  {
    var spelled := Spell(item);
    assert tokens[j] == spelled[0];
    assert |spelled| == 2 ==> tokens[j + 1] == spelled[1];
  }

  lemma {:induction false} FromMore(tokens: seq<string>, j: nat, items: seq<Item>, rest: seq<string>)
    requires From(tokens, j, items, rest) && items != []
    ensures var k := j + |Spell(items[0])|; k <= |tokens| && tokens[j..k] == Spell(items[0]) && From(tokens, k, items[1..], rest)
  {
    var first, more := Spell(items[0]), SpellAll(items[1..]) + rest;
    assert tokens[j..] == first + more;
    assert tokens[j..][..|first|] == first && tokens[j..][|first|..] == more;
  }

  /** Reading items adds them to the command, whatever follows. */
  lemma {:induction false} ItemsRead(glob: Glob, tokens: seq<string>, j: nat, done: seq<Item>, items: seq<Item>, rest: seq<string>, c: Command, d: Command)
    returns (e: Command)
    requires From(tokens, j, items, rest) && ItemsOk(glob, items) && Adds(glob, c, done, d)
    ensures |rest| <= |tokens| && Sorted(glob, tokens, j, d) == Sorted(glob, tokens, |tokens| - |rest|, e) && Adds(glob, c, done + items, e)
    decreases |items|
  {
    hide Sorted, Adds, AddOne, Spell, ItemOk;
    if items == [] {
      e := d;
      assert done + items == done;
    } else {
      FromMore(tokens, j, items, rest);
      ItemRead(glob, tokens, j, items[0], d);
      AddsMore(glob, c, done, d, items[0]);
      e := ItemsRead(glob, tokens, j + |Spell(items[0])|, done + [items[0]], items[1..], rest, c, AddOne(glob, d, items[0]));
      assert done + [items[0]] + items[1..] == done + items;
    }
  }

  // ---------- what can follow ----------

  // With what the list ends, or at what the parser stops.
  datatype End = Nothing | Background | Stopped(error: Error)

  predicate IsRedirection(token: string) {
    token == "<" || token == ">"
  }

  predicate EndsWith(glob: Glob, rest: seq<string>, end: End) {
    match end
    case Nothing => rest == []
    case Background => rest == ["&"]
    case Stopped(NotLastAmpersand) => |rest| > 1 && rest[0] == "&"
    case Stopped(BadRedirection) => rest != [] && IsRedirection(rest[0]) && (|rest| > 1 ==> IsRedirection(rest[1]))
    case Stopped(GlobFailed) => rest != [] && !IsRedirection(rest[0]) && rest[0] != "&" && IsPattern(rest[0]) && glob(rest[0]) == None
    case _ => false
  }

  function Ended(c: Command, end: End): Outcome {
    match end
    case Nothing => Outcome(c, None)
    case Background => Outcome(c.(background := true), None)
    case Stopped(e) => Outcome(c, Some(e))
  }

  lemma {:induction false} EndRead(glob: Glob, tokens: seq<string>, j: nat, c: Command, end: End)
    requires j <= |tokens| && EndsWith(glob, tokens[j..], end)
    ensures Sorted(glob, tokens, j, c) == Ended(c, end)
  {
    var rest := tokens[j..];
    assert rest != [] ==> rest[0] == tokens[j];
    assert |rest| > 1 ==> rest[1] == tokens[j + 1];
  }

  /** A list of tokens that is these items and this end gives the command with the items added, and the
      error if it is one. */
  lemma {:induction false} ItemsDecide(glob: Glob, tokens: seq<string>, items: seq<Item>, rest: seq<string>, end: End, c: Command) returns (d: Command)
    requires From(tokens, 0, items, rest) && ItemsOk(glob, items) && EndsWith(glob, rest, end)
    ensures Sorted(glob, tokens, 0, c) == Ended(d, end) && Adds(glob, c, items, d)
  {
    hide Sorted, Adds, EndsWith, Ended, ItemsOk, SpellAll;
    NothingAdded(glob, c);
    d := ItemsRead(glob, tokens, 0, [], items, rest, c, c);
    assert [] + items == items;
    assert tokens[0..] == tokens && tokens[|tokens| - |rest|..] == rest;
    EndRead(glob, tokens, |tokens| - |rest|, d, end);
  }

  lemma {:induction false} NothingAdded(glob: Glob, c: Command)
    ensures Adds(glob, c, [], c)
  {
    assert c.args + [] == c.args;
  }

  // ---------- every list of tokens ----------

  /** Every list of tokens is some items with one of the ends behind them. */
  lemma {:induction false} SomeItems(glob: Glob, tokens: seq<string>, j: nat) returns (items: seq<Item>, rest: seq<string>, end: End)
    requires j <= |tokens|
    ensures From(tokens, j, items, rest) && ItemsOk(glob, items) && EndsWith(glob, rest, end)
    decreases |tokens| - j
  {
    var tail := tokens[j..];
    if end0 :| EndsWith(glob, tail, end0) {
      items, rest, end := [], tail, end0;
    } else {
      var item := ItemAt(glob, tokens, j);
      var more;
      more, rest, end := SomeItems(glob, tokens, j + |Spell(item)|);
      hide Spell, EndsWith, ItemOk;
      items := [item] + more;
      assert items[1..] == more;
      assert tail == Spell(item) + tokens[j + |Spell(item)|..];
      assert Spell(item) + (SpellAll(more) + rest) == SpellAll(items) + rest;
    }
  }

  lemma {:induction false} ItemAt(glob: Glob, tokens: seq<string>, j: nat) returns (item: Item)
    requires j <= |tokens| && forall end :: !EndsWith(glob, tokens[j..], end)
    ensures ItemOk(glob, item) && j + |Spell(item)| <= |tokens| && Spell(item) != [] && tokens[j..j + |Spell(item)|] == Spell(item)
  {
    var rest := tokens[j..];
    assert !EndsWith(glob, rest, Nothing) && !EndsWith(glob, rest, Background) && !EndsWith(glob, rest, Stopped(NotLastAmpersand));
    assert !EndsWith(glob, rest, Stopped(BadRedirection)) && !EndsWith(glob, rest, Stopped(Error.GlobFailed));
    assert rest[0] == tokens[j];
    if IsRedirection(tokens[j]) {
      assert rest[1] == tokens[j + 1];
      item := if tokens[j] == "<" then Input(tokens[j + 1]) else Output(tokens[j + 1]);
    } else {
      assert rest[0] == "&" && |rest| == 1 ==> rest == ["&"];
      item := if IsPattern(tokens[j]) then Matches(tokens[j]) else Arg(tokens[j]);
    }
  }

  // The tokens are items with this end.
  ghost predicate Parses(glob: Glob, tokens: seq<string>, items: seq<Item>, end: End) {
    exists rest :: From(tokens, 0, items, rest) && ItemsOk(glob, items) && EndsWith(glob, rest, end)
  }

  /** Main result 4. The parser refuses a list of tokens, with which error, or accepts it, with or without
      &, according to what follows the longest list of items; the fields are those of the items. */
  lemma {:induction false} SortedDecides(glob: Glob, tokens: seq<string>, c: Command)
    ensures exists items, end, d :: Parses(glob, tokens, items, end) && Adds(glob, c, items, d) && Sorted(glob, tokens, 0, c) == Ended(d, end)
    ensures forall items, end :: Parses(glob, tokens, items, end) ==>
              exists d :: Adds(glob, c, items, d) && Sorted(glob, tokens, 0, c) == Ended(d, end)
  {
    hide Sorted, Adds, EndsWith, Ended, ItemsOk, From;
    forall items, end | Parses(glob, tokens, items, end)
      ensures exists d :: Adds(glob, c, items, d) && Sorted(glob, tokens, 0, c) == Ended(d, end)
    {
      var rest :| From(tokens, 0, items, rest) && ItemsOk(glob, items) && EndsWith(glob, rest, end);
      var d := ItemsDecide(glob, tokens, items, rest, end, c);
    }
    var items, rest, end := SomeItems(glob, tokens, 0);
    assert Parses(glob, tokens, items, end);
  }
}
