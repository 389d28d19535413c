/** Whatever way a pipeline is written, it is parsed as that pipeline: with any number of blanks, none
    included, around signs and pipes, with quotes and backslashes, and with redirections anywhere. */
module ParserRoundTrip {
  import opened Parser
  import opened ParserLexemes
  import opened ParserItems
  import opened ParserPipes

  // ---------- writing tokens ----------

  // A token as it is written, and the number of blanks behind it.
  datatype Spelled = Spelled(lexemes: seq<Lexeme>, gap: nat)

  predicate IsWord(ls: seq<Lexeme>) {
    ls != [] && forall i :: 0 <= i < |ls| ==> !ls[i].Blank? && !ls[i].Sign?
  }

  predicate IsSignOnly(ls: seq<Lexeme>) {
    |ls| == 1 && ls[0].Sign? && IsSign(ls[0].c)
  }

  function MeansAll(ls: seq<Lexeme>): string {
    if ls == [] then "" else Means(ls[0]) + MeansAll(ls[1..])
  }

  predicate Spells(ls: seq<Lexeme>, token: string) {
    || (IsSignOnly(ls) && token == [ls[0].c])
    || (IsWord(ls) && Fit(false, false, ls) && MeansAll(ls) == token && token != "")
  }

  // A blank is needed between two words, and only there.
  predicate SpellsAll(ps: seq<Spelled>, tokens: seq<string>)
    decreases |ps|
  {
    if ps == [] then tokens == []
    else
      && tokens != [] && Spells(ps[0].lexemes, tokens[0]) && SpellsAll(ps[1..], tokens[1..])
      && (|ps| > 1 && IsWord(ps[0].lexemes) && IsWord(ps[1].lexemes) ==> ps[0].gap > 0)
  }

  function Gap(k: nat): seq<Lexeme> {
    if k == 0 then [] else [Blank] + Gap(k - 1)
  }

  function Together(ps: seq<Spelled>): seq<Lexeme> {
    if ps == [] then [] else ps[0].lexemes + (Gap(ps[0].gap) + Together(ps[1..]))
  }

  // ---------- it fits together ----------

  predicate SlashAfter(slash: bool, ls: seq<Lexeme>) {
    if ls == [] then slash else EndsInSlash(ls[|ls| - 1])
  }

  lemma {:induction false} FitJoin(slash: bool, esc: bool, a: seq<Lexeme>, b: seq<Lexeme>)
    requires Fit(slash, esc, a) && Fit(SlashAfter(slash, a), EndsEscaped(esc, a), b)
    ensures Fit(slash, esc, a + b)
    decreases |a|
  {
    hide Fits, EndsInSlash;
    if a == [] {
      assert a + b == b;
    } else {
      FitJoin(EndsInSlash(a[0]), a[0].Escaped?, a[1..], b);
      assert (a + b)[1..] == a[1..] + b;
    }
  }

  // Blanks and signs can stand anywhere, and anything can stand behind a blank.
  lemma {:induction false} GapFits(slash: bool, esc: bool, k: nat, rest: seq<Lexeme>)
    requires if k > 0 then Fit(false, false, rest) else Fit(slash, esc, rest)
    ensures Fit(slash, esc, Gap(k) + rest)
    decreases k
  {
    if k == 0 {
      assert Gap(k) + rest == rest;
    } else {
      GapFits(false, false, k - 1, rest);
      assert (Gap(k) + rest)[1..] == Gap(k - 1) + rest;
    }
  }

  // The next token may stand directly behind what was written before.
  predicate MayFollow(free: bool, ps: seq<Spelled>) {
    free || ps == [] || IsSignOnly(ps[0].lexemes)
  }

  lemma {:induction false} TogetherFits(slash: bool, esc: bool, ps: seq<Spelled>, tokens: seq<string>)
    requires SpellsAll(ps, tokens) && MayFollow(!slash && !esc, ps)
    ensures Fit(slash, esc, Together(ps))
    decreases |ps|
  {
    if ps != [] {
      var ls, k, more := ps[0].lexemes, ps[0].gap, ps[1..];
      var slash', esc' := SlashAfter(slash, ls), EndsEscaped(esc, ls);
      if IsSignOnly(ls) {
        assert ls[1..] == [];
      }
      hide SpellsAll, Fit, SlashAfter, EndsEscaped;
      NextMayFollow(ps, tokens);
      if k > 0 {
        TogetherFits(false, false, more, tokens[1..]);
      } else {
        SignsEndPlain(slash, esc, ls);
        TogetherFits(slash', esc', more, tokens[1..]);
      }
      GapFits(slash', esc', k, Together(more));
      FitJoin(slash, esc, ls, Gap(k) + Together(more));
    }
  }

  lemma {:induction false} SignsEndPlain(slash: bool, esc: bool, ls: seq<Lexeme>)
    ensures IsSignOnly(ls) ==> !SlashAfter(slash, ls) && !EndsEscaped(esc, ls)
  {
  }

  lemma {:induction false} NextMayFollow(ps: seq<Spelled>, tokens: seq<string>)
    requires SpellsAll(ps, tokens) && ps != []
    ensures tokens != [] && SpellsAll(ps[1..], tokens[1..]) && Spells(ps[0].lexemes, tokens[0])
    ensures MayFollow(ps[0].gap > 0 || IsSignOnly(ps[0].lexemes), ps[1..])
  {
    hide Fit, MeansAll;
    if |ps| > 1 {
      assert ps[1..][0] == ps[1];
      assert SpellsAll(ps[1..], tokens[1..]);
    }
  }

  // ---------- it is read as these tokens ----------

  lemma {:induction false} ReadJoin(r: Reading, a: seq<Lexeme>, b: seq<Lexeme>)
    ensures Read(r, a + b) == Read(Read(r, a), b)
    decreases |a|
  {
    hide ReadOne;
    if a == [] {
      assert a + b == b;
    } else {
      ReadJoin(ReadOne(r, a[0]), a[1..], b);
      assert (a + b)[1..] == a[1..] + b;
    }
  }

  lemma {:induction false} ReadWord(r: Reading, ls: seq<Lexeme>)
    requires forall i :: 0 <= i < |ls| ==> !ls[i].Blank? && !ls[i].Sign?
    ensures Read(r, ls) == r.(temp := r.temp + MeansAll(ls))
    decreases |ls|
  {
    if ls == [] {
      assert r.temp + "" == r.temp;
    } else {
      assert ReadOne(r, ls[0]) == r.(temp := r.temp + Means(ls[0]));
      hide Means, ReadOne;
      ReadWord(r.(temp := r.temp + Means(ls[0])), ls[1..]);
      Regroup(r.temp, Means(ls[0]), MeansAll(ls[1..]));
    }
  }

  lemma {:induction false} ReadGap(r: Reading, k: nat)
    ensures Read(r, Gap(k)) == if k == 0 then r else Reading("", Flush(r.tokens, r.temp))
    decreases k
  {
    if k > 0 {
      assert Gap(k)[1..] == Gap(k - 1);
      ReadGap(ReadOne(r, Blank), k - 1);
    }
  }

  lemma {:induction false} TokenRead(r: Reading, ls: seq<Lexeme>, token: string)
    requires Spells(ls, token) && (r.temp == "" || IsSignOnly(ls))
    ensures var q := Read(r, ls); Flush(q.tokens, q.temp) == Flush(r.tokens, r.temp) + [token] && (q.temp == "" || IsWord(ls))
  {
    hide Fit, MeansAll;
    if IsSignOnly(ls) {
      assert ls[1..] == [];
      assert Read(ReadOne(r, ls[0]), ls[1..]) == ReadOne(r, ls[0]);
    } else {
      ReadWord(r, ls);
      assert "" + token == token;
    }
  }

  lemma {:induction false} TogetherRead(r: Reading, ps: seq<Spelled>, tokens: seq<string>)
    requires SpellsAll(ps, tokens) && MayFollow(r.temp == "", ps)
    ensures var q := Read(r, Together(ps)); Flush(q.tokens, q.temp) == Flush(r.tokens, r.temp) + tokens
    decreases |ps|
  {
    if ps == [] {
      assert Flush(r.tokens, r.temp) + [] == Flush(r.tokens, r.temp);
    } else {
      hide SpellsAll, Read, Spells, Gap;
      var ls, k, more := ps[0].lexemes, ps[0].gap, ps[1..];
      NextMayFollow(ps, tokens);
      TokenRead(r, ls, tokens[0]);
      var r1 := Read(r, ls);
      ReadGap(r1, k);
      var r2 := Read(r1, Gap(k));
      WordIsNoSign(ls);
      TogetherRead(r2, more, tokens[1..]);
      ReadJoin(r, ls, Gap(k) + Together(more));
      ReadJoin(r1, Gap(k), Together(more));
      assert Flush(r.tokens, r.temp) + [tokens[0]] + tokens[1..] == Flush(r.tokens, r.temp) + tokens;
    }
  }

  lemma {:induction false} WordIsNoSign(ls: seq<Lexeme>)
    ensures IsWord(ls) ==> !IsSignOnly(ls)
  {
  }

  // A text: blanks, and then tokens with blanks behind them.
  datatype Written = Written(lead: nat, spelled: seq<Spelled>)

  function Lexemes(w: Written): seq<Lexeme> {
    Gap(w.lead) + Together(w.spelled)
  }

  function Text(w: Written): string {
    RawAll(Lexemes(w))
  }

  /** Main result 1. However tokens are written, with blanks around signs or without, the tokeniser finds
      just these tokens. */
  lemma {:induction false} TextTokens(w: Written, tokens: seq<string>)
    requires SpellsAll(w.spelled, tokens)
    ensures Fit(false, false, Lexemes(w)) && TokensFrom(Text(w), 0, "", []) == Ok(tokens)
  {
    hide Fit, Read, SpellsAll, TokensFrom, RawAll, Together, Gap;
    var start := Reading("", []);
    TogetherFits(false, false, w.spelled, tokens);
    GapFits(false, false, w.lead, Together(w.spelled));
    Answers(Text(w), Lexemes(w), "");
    ReadGap(start, w.lead);
    ReadJoin(start, Gap(w.lead), Together(w.spelled));
    assert Read(start, Gap(w.lead)) == start;
    TogetherRead(start, w.spelled, tokens);
    assert [] + tokens == tokens;
  }

  // ---------- writing commands ----------

  function Tokens(items: seq<Item>, amp: bool): seq<string> {
    SpellAll(items) + if amp then ["&"] else []
  }

  /** The text of a command parses to its items, with the background flag if it was set before or & is at
      the end, without an error. */
  lemma {:induction false} TextParses(glob: Glob, w: Written, items: seq<Item>, amp: bool, background: bool) returns (d: Command)
    requires SpellsAll(w.spelled, Tokens(items, amp)) && ItemsOk(glob, items)
    ensures Adds(glob, Command([], None, None, background), items, d)
    ensures ParseText(glob, Text(w), background) == Outcome(d.(background := background || amp), None)
  {
    hide SpellsAll, Adds, TokensFrom, Sorted, Text, SpellAll, ItemsOk;
    var tokens, rest := Tokens(items, amp), if amp then ["&"] else [];
    TextTokens(w, tokens);
    assert tokens[0..] == SpellAll(items) + rest;
    d := ItemsDecide(glob, tokens, items, rest, if amp then End.Background else End.Nothing, Command([], None, None, background));
    AddsBackground(glob, Command([], None, None, background), items, d);
  }

  lemma {:induction false} AddsBackground(glob: Glob, c: Command, items: seq<Item>, d: Command)
    requires Adds(glob, c, items, d)
    ensures d.background == c.background
  {
  }

  // ---------- what the splitter sees ----------

  // Nothing that the splitter takes for a quote or a pipe and the tokeniser does not.
  predicate Safe(l: Lexeme) {
    match l
    case Bare(c) => c != '|'
    case Escaped(c) => c != '"' && c != '|'
    case Twice(c) => c != '"' && c != '|'
    case _ => true
  }

  function ChunksOf(l: Lexeme): seq<Chunk> {
    match l
    case Bare(c) => [Plain(c)]
    case Escaped(c) => [Plain('\\'), Plain(c)]
    case Twice(c) => [Plain('\\'), Plain(c), Plain('\\')]
    case Quoted(t) => [Chunk.InQuotes(t)]
    case SlashQuoted(t) => [Chunk.InQuotes(t)]
    case Blank => [Plain(' ')]
    case Sign(c) => [Plain(c)]
  }

  function Chunks(ls: seq<Lexeme>): seq<Chunk> {
    if ls == [] then [] else ChunksOf(ls[0]) + Chunks(ls[1..])
  }

  predicate AllSafe(ls: seq<Lexeme>) {
    forall i :: 0 <= i < |ls| ==> Safe(ls[i])
  }

  lemma {:induction false} RawJoin(a: seq<Chunk>, b: seq<Chunk>)
    ensures RawPart(a + b) == RawPart(a) + RawPart(b)
    decreases |a|
  {
    hide RawChunk;
    if a == [] {
      assert a + b == b && "" + RawPart(b) == RawPart(b);
    } else {
      RawJoin(a[1..], b);
      assert (a + b)[1..] == a[1..] + b;
      Regroup(RawChunk(a[0]), RawPart(a[1..]), RawPart(b));
    }
  }

  lemma {:induction false} LexemeChunks(slash: bool, esc: bool, l: Lexeme)
    requires Fits(slash, esc, l) && Safe(l)
    ensures PartOk(ChunksOf(l)) && RawPart(ChunksOf(l)) == Raw(l) && ChunksOf(l) != []
    ensures ChunksOf(l)[0] == Plain(' ') ==> l == Blank
  {
    var ks := ChunksOf(l);
    assert ks[1..] == if |ks| == 1 then [] else if |ks| == 2 then [ks[1]] else [ks[1], ks[2]];
    assert |ks| == 3 ==> [ks[1], ks[2]][1..] == [ks[2]];
    assert RawPart(ks) == RawChunk(ks[0]) + RawPart(ks[1..]);
    if |ks| > 1 {
      assert RawPart([ks[|ks| - 1]]) == RawChunk(ks[|ks| - 1]);
    }
  }

  /** A text is a part for the splitter, and the same text. */
  lemma {:induction false} TextIsPart(slash: bool, esc: bool, ls: seq<Lexeme>)
    requires Fit(slash, esc, ls) && AllSafe(ls)
    ensures PartOk(Chunks(ls)) && RawPart(Chunks(ls)) == RawAll(ls)
    ensures ls != [] ==> Chunks(ls) != [] && (Chunks(ls)[0] == Plain(' ') ==> ls[0] == Blank)
    decreases |ls|
  {
    hide Fits, ChunksOf, Raw, Safe, RawPart, ChunkOk;
    if ls == [] {
      EmptyPart();
    } else {
      LexemeChunks(slash, esc, ls[0]);
      TextIsPart(EndsInSlash(ls[0]), ls[0].Escaped?, ls[1..]);
      RawJoin(ChunksOf(ls[0]), Chunks(ls[1..]));
    }
  }

  lemma {:induction false} EmptyPart()
    ensures RawPart([]) == ""
  {
  }

  // ---------- pipelines ----------

  // One command of a pipeline: how it is written, what it means, and the blanks behind its pipe.
  datatype Stage = Stage(text: Written, items: seq<Item>, amp: bool, blanks: nat)

  predicate StageOk(glob: Glob, st: Stage) {
    && st.text.spelled != [] && SpellsAll(st.text.spelled, Tokens(st.items, st.amp)) && ItemsOk(glob, st.items)
    && AllSafe(Lexemes(st.text))
  }

  // Blanks behind a pipe belong to the pipe.
  predicate PipelineOk(glob: Glob, stages: seq<Stage>) {
    && stages != [] && (forall i :: 0 <= i < |stages| ==> StageOk(glob, stages[i]))
    && forall i :: 0 < i < |stages| ==> stages[i].text.lead == 0
  }

  function CutsOf(stages: seq<Stage>): seq<CutPart> {
    if stages == [] then [] else [CutPart(Chunks(Lexemes(stages[0].text)), stages[0].blanks)] + CutsOf(stages[1..])
  }

  function Texts(stages: seq<Stage>): seq<string> {
    if stages == [] then [] else [Text(stages[0].text)] + Texts(stages[1..])
  }

  // All commands, with the pipes between them.
  function Body(stages: seq<Stage>): string {
    if stages == [] then ""
    else if |stages| == 1 then Text(stages[0].text)
    else Text(stages[0].text) + ("|" + Blanks(stages[0].blanks) + Body(stages[1..]))
  }

  lemma {:induction false} StageIsPart(glob: Glob, st: Stage)
    requires StageOk(glob, st)
    ensures var ks := Chunks(Lexemes(st.text));
            && PartOk(ks) && ks != [] && RawPart(ks) == Text(st.text) && Text(st.text) != ""
            && (st.text.lead == 0 ==> ks[0] != Plain(' '))
  {
    hide ItemsOk, Fit, Tokens, RawAll, Chunks;
    TextTokens(st.text, Tokens(st.items, st.amp));
    TextIsPart(false, false, Lexemes(st.text));
    StartsWithToken(st.text, Tokens(st.items, st.amp));
    PartNotEmpty(Chunks(Lexemes(st.text)));
  }

  lemma {:induction false} StartsWithToken(w: Written, tokens: seq<string>)
    requires w.spelled != [] && SpellsAll(w.spelled, tokens)
    ensures Lexemes(w) != [] && (w.lead == 0 ==> Lexemes(w)[0] != Blank)
  {
    hide Fit, MeansAll;
    assert Spells(w.spelled[0].lexemes, tokens[0]);
    assert Together(w.spelled)[0] == w.spelled[0].lexemes[0];
  }

  // The stages but the last are cut off, whatever is behind the last one.
  lemma {:induction false} BodyCut(glob: Glob, stages: seq<Stage>)
    requires PipelineOk(glob, stages)
    ensures var n := |stages| - 1;
            var cuts, last := CutsOf(stages[..n]), Chunks(Lexemes(stages[n].text));
            && CutsOk(cuts, last) && Body(stages) == RawCuts(cuts) + RawPart(last) && PartTexts(cuts) == Texts(stages[..n])
            && RawPart(last) == Text(stages[n].text) != "" && last != [] && (stages[0].text.lead == 0 ==> !StartsBlank(cuts, last))
    decreases |stages|
  {
    hide StageOk, Chunks, RawPart, Lexemes, Text, PartOk, Blanks;
    var n := |stages| - 1;
    StageIsPart(glob, stages[0]);
    StageIsPart(glob, stages[n]);
    if n == 0 {
      assert stages[..n] == [];
      assert "" + RawPart(Chunks(Lexemes(stages[0].text))) == Text(stages[0].text);
    } else {
      var rest := stages[1..];
      BodyCut(glob, rest);
      assert rest[|rest| - 1] == stages[n] && stages[..n][1..] == rest[..|rest| - 1] && stages[..n][0] == stages[0];
      FirstStage(stages[0], rest, CutsOf(rest[..|rest| - 1]), Chunks(Lexemes(stages[n].text)));
    }
  }

  lemma {:induction false} FirstStage(st: Stage, rest: seq<Stage>, cuts: seq<CutPart>, last: seq<Chunk>)
    requires rest != [] && Body(rest) == RawCuts(cuts) + RawPart(last) && RawPart(Chunks(Lexemes(st.text))) == Text(st.text)
    ensures var all := [CutPart(Chunks(Lexemes(st.text)), st.blanks)] + cuts; Body([st] + rest) == RawCuts(all) + RawPart(last)
  {
    hide Chunks, RawPart, Lexemes, Text, Blanks;
    var first := CutPart(Chunks(Lexemes(st.text)), st.blanks);
    var all, t, b := [first] + cuts, Text(st.text), Blanks(st.blanks);
    assert ([st] + rest)[1..] == rest && all[1..] == cuts;
    assert Body([st] + rest) == t + ("|" + b + Body(rest));
    assert RawCuts(all) == t + ("|" + b) + RawCuts(cuts);
    assert t + ("|" + b + (RawCuts(cuts) + RawPart(last))) == t + ("|" + b) + RawCuts(cuts) + RawPart(last);
  }

  lemma {:induction false} TextsInit(stages: seq<Stage>)
    requires stages != []
    ensures Texts(stages) == Texts(stages[..|stages| - 1]) + [Text(stages[|stages| - 1].text)]
    decreases |stages|
  {
    hide Text;
    var n := |stages| - 1;
    if n == 0 {
      assert stages[1..] == [] && stages[..n] == [];
    } else {
      TextsInit(stages[1..]);
      assert stages[..n][1..] == stages[1..][..n - 1];
    }
  }

  lemma {:induction false} TextAt(stages: seq<Stage>, i: nat)
    requires i < |stages|
    ensures |Texts(stages)| == |stages| && Texts(stages)[i] == Text(stages[i].text)
    decreases |stages|
  {
    hide Text;
    if |stages| > 1 {
      TextAt(stages[1..], if i > 0 then i - 1 else 0);
    }
  }

  // What may stand behind the last command: nothing, or a pipe and k blanks.
  function Tail(dangling: bool, k: nat): string {
    if dangling then "|" + Blanks(k) + "\n" else "\n"
  }

  /** The splitter finds the texts of the commands; a pipe behind the last one is refused if and only if
      it stands directly before the newline. */
  lemma {:induction false} LineSplits(glob: Glob, stages: seq<Stage>, dangling: bool, k: nat)
    requires PipelineOk(glob, stages)
    ensures PipesFrom(Body(stages) + Tail(dangling, k), 0, "", []) == if dangling && k == 0 then Err(NoCommandAfterPipe) else Ok(Texts(stages))
  {
    hide StageOk, PipesFrom, Texts, Text, Body, Chunks, RawPart, Lexemes, CutsOf, RawCuts, CutsOk, PartTexts, Blanks;
    var n, s := |stages| - 1, Body(stages) + Tail(dangling, k);
    BodyCut(glob, stages);
    var cuts, last := CutsOf(stages[..n]), Chunks(Lexemes(stages[n].text));
    TextsInit(stages);
    var tail := Tail(dangling, k);
    assert Body(stages) + tail == RawCuts(cuts) + (RawPart(last) + tail);
    if !dangling {
      LineAnswers(s, cuts, last, "\n", None);
    } else if k == 0 {
      NoBlanks();
      LineAnswers(s, cuts, last, "|\n", Some(NoCommandAfterPipe));
    } else {
      OneCutMore(cuts, last, k);
      LineAnswers(s, cuts + [CutPart(last, k)], [], "\n", None);
    }
  }

  lemma {:induction false} NoBlanks()
    ensures Blanks(0) == "" && "|" + Blanks(0) + "\n" == "|\n"
  {
  }

  // The last part, cut off by a pipe.
  lemma {:induction false} OneCutMore(cuts: seq<CutPart>, last: seq<Chunk>, k: nat)
    requires CutsOk(cuts, last) && last != []
    ensures var all := cuts + [CutPart(last, k)];
            && CutsOk(all, []) && PartTexts(all) == PartTexts(cuts) + [RawPart(last)] && RawPart([]) == ""
            && RawCuts(all) + ("" + "\n") == RawCuts(cuts) + (RawPart(last) + ("|" + Blanks(k) + "\n"))
    decreases |cuts|
  {
    EmptyPart();
    CutsMore(cuts, last, k);
    hide RawPart, Blanks, PartOk, CutsOk, RawCuts, PartTexts;
    RawCutsMore(cuts, CutPart(last, k));
    LineAgain(RawCuts(cuts), RawPart(last), Blanks(k));
  }

  lemma {:induction false} CutsMore(cuts: seq<CutPart>, last: seq<Chunk>, k: nat)
    requires CutsOk(cuts, last) && last != []
    ensures var all := cuts + [CutPart(last, k)]; CutsOk(all, []) && PartTexts(all) == PartTexts(cuts) + [RawPart(last)]
    decreases |cuts|
  {
    hide RawPart;
    var all := cuts + [CutPart(last, k)];
    if cuts == [] {
      assert all[1..] == [];
    } else {
      CutsMore(cuts[1..], last, k);
      assert all[1..] == cuts[1..] + [CutPart(last, k)];
    }
  }

  lemma {:induction false} RawCutsMore(cuts: seq<CutPart>, c: CutPart)
    ensures RawCuts(cuts + [c]) == RawCuts(cuts) + RawCut(c)
    decreases |cuts|
  {
    hide RawCut;
    if cuts == [] {
      assert ([] + [c])[1..] == [];
      assert RawCut(c) + "" == RawCut(c) == "" + RawCut(c);
      assert cuts + [c] == [c];
    } else {
      RawCutsMore(cuts[1..], c);
      assert (cuts + [c])[1..] == cuts[1..] + [c];
      Regroup(RawCut(cuts[0]), RawCuts(cuts[1..]), RawCut(c));
    }
  }

  lemma {:induction false} LineAgain(cuts: string, last: string, blanks: string)
    ensures cuts + (last + ("|" + blanks)) + ("" + "\n") == cuts + (last + ("|" + blanks + "\n"))
  {
    assert "" + "\n" == "\n";
    Regroup(cuts, last + ("|" + blanks), "\n");
    Regroup(last, "|" + blanks, "\n");
  }

  // & stands in a command that is not the last.
  predicate MisplacedAmpersand(stages: seq<Stage>) {
    exists i :: 0 <= i < |stages| - 1 && '&' in Text(stages[i].text)
  }

  // Part i parses to the items of stage i, without an error; it is in the background if & is in it.
  ghost predicate StageParses(glob: Glob, part: (string, bool), st: Stage) {
    exists d: Command :: && Adds(glob, Command([], None, None, d.background), st.items, d) && d.background == ('&' in Text(st.text))
                && ParseText(glob, part.0, part.1) == Outcome(d, None)
  }

  // Splitting the line and parsing each part gives these commands.
  ghost predicate ParsesTo(glob: Glob, line: string, stages: seq<Stage>) {
    && line != "" && SplitLine(line).Ok?
    && var parts := SplitLine(line).value;
       |parts| == |stages| && forall i :: 0 <= i < |stages| ==> StageParses(glob, parts[i], stages[i])
  }

  lemma {:induction false} StageText(glob: Glob, st: Stage, last: bool)
    requires StageOk(glob, st) && (last || '&' !in Text(st.text))
    ensures StageParses(glob, (Text(st.text), last && '&' in Text(st.text)), st)
  {
    hide SpellsAll, Adds, ParseText, Text, ItemsOk, AllSafe;
    var background := last && '&' in Text(st.text);
    if st.amp {
      AmpersandShows(st.text, Tokens(st.items, true));
    }
    var d := TextParses(glob, st.text, st.items, st.amp, background);
    AddsBackground(glob, Command([], None, None, background), st.items, d);
    assert d.(background := background || st.amp) == d;
  }

  // A token & is written with an &.
  lemma {:induction false} AmpersandShows(w: Written, tokens: seq<string>)
    requires SpellsAll(w.spelled, tokens) && tokens != [] && tokens[|tokens| - 1] == "&"
    ensures '&' in Text(w)
  {
    hide SpellsAll, RawAll, Together, Gap;
    AmpersandIn(w.spelled, tokens);
    RawHas(Gap(w.lead), Together(w.spelled), '&');
  }

  lemma {:induction false} RawHas(a: seq<Lexeme>, b: seq<Lexeme>, c: char)
    requires c in RawAll(a) || c in RawAll(b)
    ensures c in RawAll(a + b)
    decreases |a|
  {
    hide Raw;
    if a == [] {
      assert a + b == b;
    } else {
      assert (a + b)[1..] == a[1..] + b;
      if c !in Raw(a[0]) {
        RawHas(a[1..], b, c);
      }
    }
  }

  lemma {:induction false} AmpersandIn(ps: seq<Spelled>, tokens: seq<string>)
    requires SpellsAll(ps, tokens) && tokens != [] && tokens[|tokens| - 1] == "&"
    ensures '&' in RawAll(Together(ps))
    decreases |ps|
  {
    hide Fit, RawAll, MeansAll;
    var ls, rest := ps[0].lexemes, Gap(ps[0].gap) + Together(ps[1..]);
    if |tokens| == 1 {
      SpelledShows(ls, tokens[0]);
    } else {
      AmpersandIn(ps[1..], tokens[1..]);
      RawHas(Gap(ps[0].gap), Together(ps[1..]), '&');
    }
    RawHas(ls, rest, '&');
  }

  lemma {:induction false} SpelledShows(ls: seq<Lexeme>, token: string)
    requires Spells(ls, token) && token == "&"
    ensures '&' in RawAll(ls)
  {
    if IsWord(ls) && MeansAll(ls) == token {
      MeaningShows(ls, '&');
    } else {
      assert RawAll(ls) == Raw(ls[0]) + RawAll(ls[1..]);
    }
  }

  lemma {:induction false} MeaningShows(ls: seq<Lexeme>, c: char)
    requires c in MeansAll(ls)
    ensures c in RawAll(ls)
    decreases |ls|
  {
    assert c in Means(ls[0]) ==> c in Raw(ls[0]);
    hide Means, Raw;
    if c !in Means(ls[0]) {
      MeaningShows(ls[1..], c);
    }
  }

  /** Main result 2. A line that is a pipeline, however written, is split and parsed as just these
      commands, unless & stands in one that is not the last, which is refused. A pipe behind the last
      command is refused if and only if it is the last character before the newline; with blanks behind
      it, it is overlooked, for the test for this case can never succeed. */
  lemma {:induction false} PipelineParses(glob: Glob, stages: seq<Stage>, dangling: bool, k: nat)
    requires PipelineOk(glob, stages)
    ensures var line := Body(stages) + Tail(dangling, k);
            if dangling && k == 0 then SplitLine(line) == Err(NoCommandAfterPipe)
            else if MisplacedAmpersand(stages) then SplitLine(line) == Err(AmpersandNotInLast)
            else ParsesTo(glob, line, stages)
  {
    hide PipesFrom, Text, StageParses, StageOk, Body, Texts;
    var line, texts := Body(stages) + Tail(dangling, k), Texts(stages);
    LineSplits(glob, stages, dangling, k);
    TextAt(stages, 0);
    forall i | 0 <= i < |stages| ensures texts[i] == Text(stages[i].text) {
      TextAt(stages, i);
    }
    if !(dangling && k == 0) && !MisplacedAmpersand(stages) {
      forall i | 0 <= i < |texts| - 1 ensures '&' !in texts[i] {
        assert '&' !in Text(stages[i].text);
      }
      assert Parts(texts).Ok? && |Parts(texts).value| == |stages|;
      forall i | 0 <= i < |stages| ensures StageParses(glob, Parts(texts).value[i], stages[i]) {
        StageText(glob, stages[i], i == |stages| - 1);
      }
      assert line != "" && SplitLine(line) == Parts(texts);
    }
  }
}
