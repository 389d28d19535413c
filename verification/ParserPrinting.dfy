/** Printing commands: every pipeline of plain words can be written so that it is parsed back. */
module ParserPrinting {
  import opened Parser
  import opened ParserLexemes
  import opened ParserItems
  import opened ParserPipes
  import opened ParserRoundTrip

  // Without quotes, backslashes, & and wildcards, and not a sign.
  predicate WordOk(w: string) {
    w != "" && w != "<" && w != ">" && '"' !in w && '\\' !in w && '&' !in w && !IsPattern(w)
  }

  predicate CommandOk(c: Command) {
    && (c.args != [] || c.input.Some? || c.output.Some?)
    && (forall i :: 0 <= i < |c.args| ==> WordOk(c.args[i]))
    && (c.input.Some? ==> WordOk(c.input.value)) && (c.output.Some? ==> WordOk(c.output.value))
  }

  predicate NeedsQuotes(w: string) {
    ' ' in w || '<' in w || '>' in w || '|' in w
  }

  function Bares(w: string): seq<Lexeme> {
    if w == "" then [] else [Bare(w[0])] + Bares(w[1..])
  }

  function Printed(w: string): Spelled {
    Spelled(if NeedsQuotes(w) then [Quoted(w)] else Bares(w), 1)
  }

  function PrintedItem(item: Item): seq<Spelled> {
    match item
    case Arg(w) => [Printed(w)]
    case Matches(p) => [Printed(p)]
    case Input(f) => [Spelled([Sign('<')], 1), Printed(f)]
    case Output(f) => [Spelled([Sign('>')], 1), Printed(f)]
  }

  function PrintedItems(items: seq<Item>): seq<Spelled> {
    if items == [] then [] else PrintedItem(items[0]) + PrintedItems(items[1..])
  }

  function ArgItems(args: seq<string>): seq<Item> {
    if args == [] then [] else ArgItems(args[..|args| - 1]) + [Arg(args[|args| - 1])]
  }

  function Redirections(c: Command): seq<Item> {
    (if c.input.Some? then [Input(c.input.value)] else []) + if c.output.Some? then [Output(c.output.value)] else []
  }

  function ItemsOf(c: Command): seq<Item> {
    ArgItems(c.args) + Redirections(c)
  }

  function StageOf(c: Command): Stage {
    Stage(Written(0, PrintedItems(ItemsOf(c)) + if c.background then [Spelled([Sign('&')], 1)] else []), ItemsOf(c), c.background, 1)
  }

  function StagesOf(cmds: seq<Command>): seq<Stage> {
    if cmds == [] then [] else [StageOf(cmds[0])] + StagesOf(cmds[1..])
  }

  function Line(cmds: seq<Command>): string {
    Body(StagesOf(cmds)) + "\n"
  }

  // ---------- one word ----------

  lemma {:induction false} BaresSpell(slash: bool, w: string)
    requires !NeedsQuotes(w) && '"' !in w && '\\' !in w && '&' !in w
    ensures Fit(slash, false, Bares(w)) && MeansAll(Bares(w)) == w && AllSafe(Bares(w))
    ensures forall i :: 0 <= i < |Bares(w)| ==> Bares(w)[i].Bare?
    decreases |w|
  {
    if w != "" {
      assert w == [w[0]] + w[1..];
      BaresSpell(w[0] == '/', w[1..]);
    }
  }

  // What is printed for a word or a sign: safe for the splitter, without &.
  predicate Quiet(p: Spelled) {
    AllSafe(p.lexemes) && '&' !in RawAll(p.lexemes) && p.gap > 0
  }

  lemma {:induction false} BaresQuiet(w: string)
    requires '&' !in w
    ensures '&' !in RawAll(Bares(w))
    decreases |w|
  {
    if w != "" {
      BaresQuiet(w[1..]);
      assert w[0] in w;
    }
  }

  lemma {:induction false} PrintedSpells(w: string)
    requires WordOk(w)
    ensures Spells(Printed(w).lexemes, w) && Quiet(Printed(w))
  {
    if NeedsQuotes(w) {
      assert [Quoted(w)][1..] == [] && w + "" == w;
      assert RawAll([Quoted(w)]) == Quote(w) + "";
    } else {
      BaresSpell(false, w);
      BaresQuiet(w);
    }
  }

  // ---------- several ----------

  predicate AllQuiet(ps: seq<Spelled>) {
    forall i :: 0 <= i < |ps| ==> Quiet(ps[i])
  }

  predicate AllGapped(ps: seq<Spelled>) {
    forall i :: 0 <= i < |ps| ==> ps[i].gap > 0
  }

  lemma {:induction false} SpellsJoin(a: seq<Spelled>, b: seq<Spelled>, s: seq<string>, t: seq<string>)
    requires SpellsAll(a, s) && SpellsAll(b, t) && AllGapped(a)
    ensures SpellsAll(a + b, s + t)
    decreases |a|
  {
    hide Spells;
    if a == [] {
      assert a + b == b && s + t == t;
    } else {
      SpellsJoin(a[1..], b, s[1..], t);
      assert (a + b)[1..] == a[1..] + b && (s + t)[1..] == s[1..] + t;
    }
  }

  lemma {:induction false} OneSpells(p: Spelled, token: string)
    requires Spells(p.lexemes, token)
    ensures SpellsAll([p], [token])
  {
    hide Spells;
    assert [p][1..] == [] && [token][1..] == [];
  }

  lemma {:induction false} SignSpells(c: char)
    requires IsSign(c)
    ensures Spells([Sign(c)], [c]) && AllSafe([Sign(c)]) && RawAll([Sign(c)]) == [c]
  {
    assert [Sign(c)][1..] == [] && [c] + "" == [c];
  }

  predicate PlainItem(item: Item) {
    match item
    case Arg(w) => WordOk(w)
    case Matches(_) => false
    case Input(f) => WordOk(f)
    case Output(f) => WordOk(f)
  }

  lemma {:induction false} ItemSpells(glob: Glob, item: Item)
    requires PlainItem(item)
    ensures SpellsAll(PrintedItem(item), Spell(item)) && AllQuiet(PrintedItem(item)) && ItemOk(glob, item) && PrintedItem(item) != []
  {
    hide Printed, Spells, Quiet, SpellsAll;
    var word := match item { case Arg(w) => w case Matches(p) => p case Input(f) => f case Output(f) => f };
    PrintedSpells(word);
    OneSpells(Printed(word), word);
    if item.Input? || item.Output? {
      var c := if item.Input? then '<' else '>';
      SignSpells(c);
      var sign := Spelled([Sign(c)], 1);
      OneSpells(sign, [c]);
      SpellsJoin([sign], [Printed(word)], [[c]], [word]);
      assert [sign] + [Printed(word)] == PrintedItem(item) && [[c]] + [word] == Spell(item);
      QuietSign(c);
    }
  }

  lemma {:induction false} QuietSign(c: char)
    requires c == '<' || c == '>'
    ensures Quiet(Spelled([Sign(c)], 1))
  {
    SignSpells(c);
  }

  lemma {:induction false} QuietGapped(ps: seq<Spelled>)
    requires AllQuiet(ps)
    ensures AllGapped(ps)
  {
    forall i | 0 <= i < |ps| ensures ps[i].gap > 0 {
      assert Quiet(ps[i]);
    }
  }

  lemma {:induction false} ItemsSpell(glob: Glob, items: seq<Item>)
    requires forall i :: 0 <= i < |items| ==> PlainItem(items[i])
    ensures SpellsAll(PrintedItems(items), SpellAll(items)) && AllQuiet(PrintedItems(items)) && ItemsOk(glob, items)
    ensures items != [] ==> PrintedItems(items) != []
    decreases |items|
  {
    hide PrintedItem, Spell, SpellsAll, Quiet, ItemOk, PlainItem;
    if items == [] {
      NoneSpell();
    } else {
      ItemSpells(glob, items[0]);
      ItemsSpell(glob, items[1..]);
      QuietGapped(PrintedItem(items[0]));
      SpellsJoin(PrintedItem(items[0]), PrintedItems(items[1..]), Spell(items[0]), SpellAll(items[1..]));
      forall i | 0 <= i < |items| ensures ItemOk(glob, items[i]) {
        assert i > 0 ==> items[i] == items[1..][i - 1];
      }
    }
  }

  lemma {:induction false} NoneSpell()
    ensures SpellsAll([], [])
  {
  }

  lemma {:induction false} ArgItemsAre(args: seq<string>)
    ensures |ArgItems(args)| == |args| && forall i :: 0 <= i < |args| ==> ArgItems(args)[i] == Arg(args[i])
  {
    if args != [] {
      ArgItemsAre(args[..|args| - 1]);
    }
  }

  lemma {:induction false} ArgsBack(glob: Glob, args: seq<string>)
    ensures Args(glob, ArgItems(args)) == args
  {
    if args != [] {
      var n := |args| - 1;
      ArgsBack(glob, args[..n]);
      assert ArgItems(args)[..|ArgItems(args)| - 1] == ArgItems(args[..n]);
      assert args == args[..n] + [args[n]];
    }
  }

  lemma {:induction false} ArgsNoMore(glob: Glob, items: seq<Item>, more: seq<Item>)
    requires forall i :: 0 <= i < |more| ==> !more[i].Arg? && !more[i].Matches?
    ensures Args(glob, items + more) == Args(glob, items)
    decreases |more|
  {
    if more == [] {
      assert items + more == items;
    } else {
      assert (items + more)[..|items + more| - 1] == items + more[..|more| - 1];
      ArgsNoMore(glob, items, more[..|more| - 1]);
    }
  }

  // Where the redirections of a command are among its items.
  ghost predicate InputAmong(items: seq<Item>, file: Option<string>) {
    && (forall i :: 0 <= i < |items| && items[i].Input? ==> file == Some(items[i].file))
    && (file.Some? ==> exists i :: 0 <= i < |items| && items[i].Input?)
  }

  ghost predicate OutputAmong(items: seq<Item>, file: Option<string>) {
    && (forall i :: 0 <= i < |items| && items[i].Output? ==> file == Some(items[i].file))
    && (file.Some? ==> exists i :: 0 <= i < |items| && items[i].Output?)
  }

  lemma {:induction false} OnlyOne(items: seq<Item>, input: Option<string>, output: Option<string>, file: Option<string>)
    ensures InputAmong(items, file) && InputIs(items, None, input) ==> input == file
    ensures OutputAmong(items, file) && OutputIs(items, None, output) ==> output == file
  {
  }

  lemma {:induction false} RedirectionsAmong(c: Command)
    ensures InputAmong(ItemsOf(c), c.input) && OutputAmong(ItemsOf(c), c.output)
  {
    var items, n, rs := ItemsOf(c), |c.args|, Redirections(c);
    ArgItemsAre(c.args);
    assert forall i :: 0 <= i < |items| ==> items[i] == if i < n then Arg(c.args[i]) else rs[i - n];
    assert c.input.Some? ==> items[n] == Input(c.input.value);
    assert c.output.Some? ==> items[|items| - 1] == Output(c.output.value);
  }

  /** The items printed for a command add up to the command. */
  lemma {:induction false} ItemsMean(glob: Glob, c: Command, background: bool, d: Command)
    requires Adds(glob, Command([], None, None, background), ItemsOf(c), d)
    ensures d == c.(background := background)
  {
    ArgsBack(glob, c.args);
    ArgsNoMore(glob, ArgItems(c.args), Redirections(c));
    assert [] + c.args == c.args;
    hide Args, InputIs, OutputIs, InputAmong, OutputAmong;
    RedirectionsAmong(c);
    OnlyOne(ItemsOf(c), d.input, d.output, c.input);
    OnlyOne(ItemsOf(c), d.input, d.output, c.output);
  }

  lemma {:induction false} ItemsArePlain(c: Command)
    requires CommandOk(c)
    ensures ItemsOf(c) != [] && forall i :: 0 <= i < |ItemsOf(c)| ==> PlainItem(ItemsOf(c)[i])
  {
    hide WordOk;
    ArgItemsAre(c.args);
    var items, n := ItemsOf(c), |c.args|;
    forall i | 0 <= i < |items| ensures PlainItem(items[i]) {
      if i < n {
        assert items[i] == Arg(c.args[i]);
      } else {
        assert items[i] == Redirections(c)[i - n];
      }
    }
  }

  // ---------- whole commands ----------

  lemma {:induction false} TogetherSafe(ps: seq<Spelled>)
    requires forall i :: 0 <= i < |ps| ==> AllSafe(ps[i].lexemes)
    ensures AllSafe(Together(ps))
    decreases |ps|
  {
    if ps != [] {
      TogetherSafe(ps[1..]);
      GapSafe(ps[0].gap);
      assert AllSafe(ps[0].lexemes);
    }
  }

  lemma {:induction false} GapSafe(k: nat)
    ensures AllSafe(Gap(k)) && '&' !in RawAll(Gap(k))
  {
    if k > 0 {
      GapSafe(k - 1);
      assert Gap(k)[1..] == Gap(k - 1);
    }
  }

  lemma {:induction false} RawAllJoin(a: seq<Lexeme>, b: seq<Lexeme>)
    ensures RawAll(a + b) == RawAll(a) + RawAll(b)
    decreases |a|
  {
    hide Raw;
    if a == [] {
      assert a + b == b && "" + RawAll(b) == RawAll(b);
    } else {
      RawAllJoin(a[1..], b);
      assert (a + b)[1..] == a[1..] + b;
      Regroup(Raw(a[0]), RawAll(a[1..]), RawAll(b));
    }
  }

  lemma {:induction false} TogetherQuiet(ps: seq<Spelled>)
    requires AllQuiet(ps)
    ensures '&' !in RawAll(Together(ps))
    decreases |ps|
  {
    if ps != [] {
      assert Quiet(ps[0]);
      hide RawAll;
      TogetherQuiet(ps[1..]);
      GapSafe(ps[0].gap);
      RawAllJoin(ps[0].lexemes, Gap(ps[0].gap) + Together(ps[1..]));
      RawAllJoin(Gap(ps[0].gap), Together(ps[1..]));
    } else {
      assert RawAll(Together(ps)) == "";
    }
  }

  lemma {:induction false} StagePrinted(glob: Glob, c: Command)
    requires CommandOk(c)
    ensures StageOk(glob, StageOf(c)) && StageOf(c).text.lead == 0
    ensures !c.background ==> '&' !in Text(StageOf(c).text)
  {
    hide PrintedItems, SpellsAll, CommandOk, Quiet, PlainItem, ItemsOk, Together, RawAll, SpellAll;
    var items, ps := ItemsOf(c), PrintedItems(ItemsOf(c));
    ItemsArePlain(c);
    hide ItemsOf;
    ItemsSpell(glob, items);
    QuietGapped(ps);
    var st := StageOf(c);
    assert Gap(0) + Together(st.text.spelled) == Together(st.text.spelled);
    if c.background {
      var amp := Spelled([Sign('&')], 1);
      SignSpells('&');
      OneSpells(amp, "&");
      SpellsJoin(ps, [amp], SpellAll(items), ["&"]);
      assert ["&"] == [['&']];
    } else {
      assert ps + [] == ps && SpellAll(items) + [] == SpellAll(items);
      TogetherQuiet(ps);
    }
    forall i | 0 <= i < |st.text.spelled| ensures AllSafe(st.text.spelled[i].lexemes) {
      if i < |ps| {
        QuietSafe(ps[i]);
      }
    }
    TogetherSafe(st.text.spelled);
  }

  lemma {:induction false} QuietSafe(p: Spelled)
    requires Quiet(p)
    ensures AllSafe(p.lexemes)
  {
  }

  lemma {:induction false} StageAt(cmds: seq<Command>, i: nat)
    requires i < |cmds|
    ensures |StagesOf(cmds)| == |cmds| && StagesOf(cmds)[i] == StageOf(cmds[i])
    decreases |cmds|
  {
    hide StageOf;
    if |cmds| > 1 {
      StageAt(cmds[1..], if i > 0 then i - 1 else 0);
    }
  }

  // A pipeline of plain commands: only the last can be in the background.
  predicate CommandsOk(cmds: seq<Command>) {
    && cmds != [] && (forall i :: 0 <= i < |cmds| ==> CommandOk(cmds[i]))
    && forall i :: 0 <= i < |cmds| - 1 ==> !cmds[i].background
  }

  // Splitting the line and parsing each part gives back just these commands.
  ghost predicate GivesBack(glob: Glob, line: string, cmds: seq<Command>) {
    && line != "" && SplitLine(line).Ok?
    && var parts := SplitLine(line).value;
       |parts| == |cmds| && forall i :: 0 <= i < |cmds| ==> ParseText(glob, parts[i].0, parts[i].1) == Outcome(cmds[i], None)
  }

  /** Main result 6. The line printed for a pipeline of plain commands is split and parsed into these
      commands, with arguments, redirections and background flag, whatever glob does. */
  lemma {:induction false} PrintedLineParses(glob: Glob, cmds: seq<Command>)
    requires CommandsOk(cmds)
    ensures GivesBack(glob, Line(cmds), cmds)
  {
    hide CommandOk, StageOf, StageOk, Body, Text, Adds, ParseText, SplitLine;
    var stages := StagesOf(cmds);
    StageAt(cmds, 0);
    forall i | 0 <= i < |cmds|
      ensures stages[i] == StageOf(cmds[i]) && StageOk(glob, stages[i]) && stages[i].text.lead == 0 && (!cmds[i].background ==> '&' !in Text(stages[i].text))
    {
      StageAt(cmds, i);
      StagePrinted(glob, cmds[i]);
    }
    PipelineParses(glob, stages, false, 0);
    assert Tail(false, 0) == "\n";
    var parts := SplitLine(Line(cmds)).value;
    forall i | 0 <= i < |cmds| ensures ParseText(glob, parts[i].0, parts[i].1) == Outcome(cmds[i], None) {
      assert StageParses(glob, parts[i], stages[i]);
      IsCommand(glob, parts[i], cmds[i]);
    }
  }

  lemma {:induction false} IsCommand(glob: Glob, part: (string, bool), c: Command)
    requires StageParses(glob, part, StageOf(c)) && CommandOk(c) && (!c.background ==> '&' !in Text(StageOf(c).text))
    ensures ParseText(glob, part.0, part.1) == Outcome(c, None)
  {
    hide Adds, ParseText, Text, CommandOk;
    var st := StageOf(c);
    var d: Command :| Adds(glob, Command([], None, None, d.background), st.items, d) && d.background == ('&' in Text(st.text))
                      && ParseText(glob, part.0, part.1) == Outcome(d, None);
    ItemsMean(glob, c, d.background, d);
    if c.background {
      StagePrinted(glob, c);
      StageSpells(glob, st);
      AmpersandShows(st.text, Tokens(st.items, true));
    }
  }

  lemma {:induction false} StageSpells(glob: Glob, st: Stage)
    requires StageOk(glob, st)
    ensures SpellsAll(st.text.spelled, Tokens(st.items, st.amp))
  {
  }
}
