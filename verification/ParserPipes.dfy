/** Where the splitter cuts a line: at each pipe outside quotes; and which lines it refuses. */
module ParserPipes {
  import opened Parser
  import opened ParserLexemes

  // What a part consists of. A backslash means nothing here, except inside quotes.
  datatype Chunk = Plain(c: char) | InQuotes(text: string)

  predicate ChunkOk(k: Chunk) {
    match k
    case Plain(c) => c != '"' && c != '|'
    case InQuotes(t) => QuoteOk(t)
  }

  function RawChunk(k: Chunk): string {
    match k
    case Plain(c) => [c]
    case InQuotes(t) => Quote(t)
  }

  function RawPart(ks: seq<Chunk>): string {
    if ks == [] then "" else RawChunk(ks[0]) + RawPart(ks[1..])
  }

  predicate PartOk(ks: seq<Chunk>) {
    forall i :: 0 <= i < |ks| ==> ChunkOk(ks[i])
  }

  function Blanks(k: nat): (b: string)
    ensures |b| == k && forall i :: 0 <= i < k ==> b[i] == ' '
  {
    if k == 0 then "" else [' '] + Blanks(k - 1)
  }

  // A part with the pipe behind it, and blanks behind the pipe.
  datatype CutPart = CutPart(part: seq<Chunk>, blanks: nat)

  function RawCut(c: CutPart): string {
    RawPart(c.part) + ("|" + Blanks(c.blanks))
  }

  function RawCuts(cuts: seq<CutPart>): string {
    if cuts == [] then "" else RawCut(cuts[0]) + RawCuts(cuts[1..])
  }

  // Parts are not empty, and the blanks behind a pipe are all counted as such.
  predicate CutsOk(cuts: seq<CutPart>, last: seq<Chunk>)
    decreases |cuts|
  {
    if cuts == [] then PartOk(last)
    else PartOk(cuts[0].part) && cuts[0].part != [] && CutsOk(cuts[1..], last) && !StartsBlank(cuts[1..], last)
  }

  predicate StartsBlank(cuts: seq<CutPart>, last: seq<Chunk>) {
    var first := if cuts == [] then last else cuts[0].part;
    first != [] && first[0] == Plain(' ')
  }

  function PartTexts(cuts: seq<CutPart>): seq<string> {
    if cuts == [] then [] else [RawPart(cuts[0].part)] + PartTexts(cuts[1..])
  }

  // ---------- one part ----------

  lemma {:induction false} ChunkCopied(s: string, i: nat, k: Chunk, temp: string, parts: seq<string>)
    requires ChunkOk(k) && Stands(s, i, RawChunk(k)) && i + |RawChunk(k)| < |s|
    ensures PipesFrom(s, i, temp, parts) == PipesFrom(s, i + |RawChunk(k)|, temp + RawChunk(k), parts)
  {
    hide Quote, CloseQuote;
    match k
    case Plain(c) => StandsAt(s, i, RawChunk(k), 0);
    case InQuotes(t) => QuoteInLine(s, i, t);
  }

  lemma {:induction false} QuoteInLine(s: string, i: nat, t: string)
    requires Stands(s, i, Quote(t)) && QuoteOk(t) && i + |Quote(t)| < |s|
    ensures var j := i + 1 + |t|;
            && |Quote(t)| == |t| + 2 && s[i] == '"' && s[j] == '"' && CloseQuote(s, i + 1, |s| - 1) == j && s[i..j + 1] == Quote(t)
  {
    hide Quote, CloseQuote;
    QuoteStands(s, i, t);
    ClosesBehind(s, i, t, |s| - 1);
  }

  /** A part is copied whole: a pipe in quotes does not split. */
  lemma {:induction false} PartCopied(s: string, i: nat, ks: seq<Chunk>, temp: string, parts: seq<string>)
    requires PartOk(ks) && Stands(s, i, RawPart(ks)) && i + |RawPart(ks)| < |s|
    ensures PipesFrom(s, i, temp, parts) == PipesFrom(s, i + |RawPart(ks)|, temp + RawPart(ks), parts)
    decreases |ks|
  {
    hide PipesFrom, ChunkOk, RawChunk;
    if ks == [] {
      assert temp + "" == temp;
    } else {
      var k := ks[0];
      StandsSplit(s, i, RawChunk(k), RawPart(ks[1..]));
      ChunkCopied(s, i, k, temp, parts);
      PartCopied(s, i + |RawChunk(k)|, ks[1..], temp + RawChunk(k), parts);
      assert temp + RawChunk(k) + RawPart(ks[1..]) == temp + RawPart(ks);
    }
  }

  lemma {:induction false} PartNotEmpty(ks: seq<Chunk>)
    ensures RawPart(ks) == "" <==> ks == []
    ensures ks != [] && PartOk(ks) ==> (RawPart(ks)[0] == ' ' <==> ks[0] == Plain(' ')) && RawPart(ks)[0] != '|'
  {
    if ks != [] {
      assert RawPart(ks)[0] == RawChunk(ks[0])[0];
    }
  }

  // ---------- the cuts ----------

  lemma {:induction false} BlanksSkipped(s: string, i: nat, k: nat)
    requires i + 1 + k < |s| && s[i + 1..i + 1 + k] == Blanks(k) && s[i + 1 + k] != ' '
    ensures SkipBlanks(s, i) == i + k
    decreases k
  {
    if k > 0 {
      assert s[i + 1] == s[i + 1..i + 1 + k][0];
      assert s[i + 2..i + 2 + (k - 1)] == s[i + 1..i + 1 + k][1..] == Blanks(k)[1..] == Blanks(k - 1);
      BlanksSkipped(s, i + 1, k - 1);
    }
  }

  lemma {:induction false} CutRead(s: string, i: nat, c: CutPart, parts: seq<string>)
    requires PartOk(c.part) && c.part != [] && Stands(s, i, RawCut(c)) && i + |RawCut(c)| < |s| && s[i + |RawCut(c)|] != ' '
    requires i + |RawPart(c.part)| + 1 != |s| - 1
    ensures PipesFrom(s, i, "", parts) == PipesFrom(s, i + |RawCut(c)|, "", parts + [RawPart(c.part)])
  {
    hide RawPart, CloseQuote;
    var t, p := RawPart(c.part), i + |RawPart(c.part)|;
    StandsSplit(s, i, t, "|" + Blanks(c.blanks));
    PartCopied(s, i, c.part, "", parts);
    assert "" + t == t;
    PartNotEmpty(c.part);
    StandsSplit(s, p, "|", Blanks(c.blanks));
    StandsAt(s, p, "|", 0);
    BlanksSkipped(s, p, c.blanks);
  }

  // From position i on, the line is text.
  predicate Remains(s: string, i: nat, text: string) {
    i <= |s| && s[i..] == text
  }

  lemma {:induction false} RemainsSplit(s: string, i: nat, a: string, b: string)
    requires Remains(s, i, a + b)
    ensures Stands(s, i, a) && Remains(s, i + |a|, b)
    ensures b != "" ==> i + |a| < |s| && s[i + |a|] == b[0]
  {
    assert s[i..][..|a|] == a && s[i..][|a|..] == b;
    assert b != "" ==> s[i..][|a|] == b[0];
  }

  /** Reading the parts, up to what follows the last one. */
  lemma {:induction false} CutsRead(s: string, i: nat, cuts: seq<CutPart>, last: seq<Chunk>, rest: string, parts: seq<string>)
    requires CutsOk(cuts, last) && Remains(s, i, RawCuts(cuts) + (RawPart(last) + rest)) && rest != "" && rest[0] != ' '
    requires cuts != [] && last == [] && |rest| == 1 ==> cuts[|cuts| - 1].blanks > 0
    ensures |rest| <= |s| && Remains(s, |s| - |rest|, rest)
    ensures PipesFrom(s, i, "", parts) == PipesFrom(s, |s| - |rest|, RawPart(last), parts + PartTexts(cuts))
    decreases |cuts|
  {
    hide PipesFrom, RawPart, RawCut, PartOk, Remains, Stands;
    RemainsLength(s, i, RawCuts(cuts) + (RawPart(last) + rest));
    if cuts == [] {
      assert "" + (RawPart(last) + rest) == RawPart(last) + rest && parts + [] == parts;
      LastRead(s, i, last, rest, parts);
    } else {
      var c, more := cuts[0], cuts[1..];
      var tail := RawCuts(more) + (RawPart(last) + rest);
      assert RawCuts(cuts) + (RawPart(last) + rest) == RawCut(c) + tail;
      RemainsSplit(s, i, RawCut(c), tail);
      NotBlankNext(more, last, rest);
      CutLong(c, more, last, rest);
      CutRead(s, i, c, parts);
      CutsRead(s, i + |RawCut(c)|, more, last, rest, parts + [RawPart(c.part)]);
      assert parts + [RawPart(c.part)] + PartTexts(more) == parts + PartTexts(cuts);
    }
  }

  lemma {:induction false} RemainsLength(s: string, i: nat, text: string)
    requires Remains(s, i, text)
    ensures |s| == i + |text|
  {
  }

  lemma {:induction false} LastRead(s: string, i: nat, last: seq<Chunk>, rest: string, parts: seq<string>)
    requires PartOk(last) && Remains(s, i, RawPart(last) + rest) && rest != ""
    ensures |rest| <= |s| && Remains(s, |s| - |rest|, rest)
    ensures PipesFrom(s, i, "", parts) == PipesFrom(s, |s| - |rest|, RawPart(last), parts)
  {
    hide PipesFrom, RawPart, PartOk, Remains, Stands;
    var t := RawPart(last);
    RemainsLength(s, i, t + rest);
    RemainsSplit(s, i, t, rest);
    PartCopied(s, i, last, "", parts);
    assert "" + t == t;
  }

  lemma {:induction false} CutLong(c: CutPart, more: seq<CutPart>, last: seq<Chunk>, rest: string)
    requires CutsOk(more, last) && rest != "" && (last == [] && more == [] && |rest| == 1 ==> c.blanks > 0)
    ensures |RawCut(c)| == |RawPart(c.part)| + 1 + c.blanks
    ensures |RawCut(c)| + |RawCuts(more) + (RawPart(last) + rest)| > |RawPart(c.part)| + 2
  {
    hide RawPart;
    PartNotEmpty(last);
    if more != [] {
      PartNotEmpty(more[0].part);
    }
  }

  lemma {:induction false} NotBlankNext(cuts: seq<CutPart>, last: seq<Chunk>, rest: string)
    requires CutsOk(cuts, last) && !StartsBlank(cuts, last) && rest != "" && rest[0] != ' '
    ensures var all := RawCuts(cuts) + (RawPart(last) + rest); all != "" && all[0] != ' '
  {
    hide RawPart;
    PartNotEmpty(last);
    if cuts != [] {
      PartNotEmpty(cuts[0].part);
    }
  }

  // ---------- how a line ends ----------

  /** What is left of a line behind its parts: the newline, or what the splitter stops at. A pipe with
      only blanks behind it does not stop it. */
  predicate LineEnds(cuts: seq<CutPart>, last: seq<Chunk>, rest: string, e: Option<Error>) {
    match e
    case None => rest == "\n" && (cuts != [] && last == [] ==> cuts[|cuts| - 1].blanks > 0)
    case Some(NoCommandAfterPipe) => rest == "|\n"
    case Some(BadPipe) => last == [] && |rest| > 2 && rest[0] == '|'
    case Some(BadQuotes) => |rest| > 1 && rest[0] == '"' && NoClose(rest[1..|rest| - 1])
    case _ => false
  }

  predicate EndsInNewline(s: string) {
    s != "" && s[|s| - 1] == '\n'
  }

  // The line is these parts and this end.
  predicate LineIs(s: string, cuts: seq<CutPart>, last: seq<Chunk>, rest: string, e: Option<Error>) {
    CutsOk(cuts, last) && s == RawCuts(cuts) + (RawPart(last) + rest) && LineEnds(cuts, last, rest, e)
  }

  function SplitAnswer(cuts: seq<CutPart>, last: seq<Chunk>, e: Option<Error>): Result<seq<string>> {
    if e == None then Ok(Flush(PartTexts(cuts), RawPart(last))) else Err(e.value)
  }

  lemma {:induction false} Inner(s: string, i: nat)
    requires i + 1 < |s|
    ensures s[i..][1..|s| - i - 1] == s[i + 1..|s| - 1]
  {
    assert s[i..][1..] == s[i + 1..];
    assert s[i..][1..|s| - i - 1] == s[i..][1..][..|s| - i - 2];
    assert s[i + 1..|s| - 1] == s[i + 1..][..|s| - i - 2];
  }

  lemma {:induction false} EndSplit(s: string, cuts: seq<CutPart>, last: seq<Chunk>, rest: string, e: Option<Error>, parts: seq<string>)
    requires LineEnds(cuts, last, rest, e) && |rest| <= |s| && Remains(s, |s| - |rest|, rest)
    ensures PipesFrom(s, |s| - |rest|, RawPart(last), parts) == if e == None then Ok(Flush(parts, RawPart(last))) else Err(e.value)
  {
    hide NoClose, CloseQuote;
    var i := |s| - |rest|;
    assert rest != "" && s[i..][0] == s[i];
    PartNotEmpty(last);
    if e == Some(BadQuotes) {
      Inner(s, i);
      StaysOpen(s, i, |s| - 1);
    }
  }

  lemma {:induction false} LineAnswers(s: string, cuts: seq<CutPart>, last: seq<Chunk>, rest: string, e: Option<Error>)
    requires LineIs(s, cuts, last, rest, e)
    ensures s != "" && PipesFrom(s, 0, "", []) == SplitAnswer(cuts, last, e)
  {
    hide PipesFrom, RawPart, CutsOk;
    assert s[0..] == s;
    CutsRead(s, 0, cuts, last, rest, []);
    assert [] + PartTexts(cuts) == PartTexts(cuts);
    EndSplit(s, cuts, last, rest, e, PartTexts(cuts));
  }

  // ---------- every line ----------

  // The same where the first part goes on from before.
  predicate CutsOkFrom(goesOn: bool, cuts: seq<CutPart>, last: seq<Chunk>) {
    if cuts == [] then PartOk(last)
    else PartOk(cuts[0].part) && (goesOn || cuts[0].part != []) && CutsOk(cuts[1..], last) && !StartsBlank(cuts[1..], last)
  }

  datatype Division = Division(cuts: seq<CutPart>, last: seq<Chunk>, rest: string, end: Option<Error>)

  predicate Divides(s: string, i: nat, goesOn: bool, d: Division) {
    && CutsOkFrom(goesOn, d.cuts, d.last) && Remains(s, i, RawCuts(d.cuts) + (RawPart(d.last) + d.rest)) && LineEnds(d.cuts, d.last, d.rest, d.end)
    && (goesOn && d.end == Some(BadPipe) ==> d.cuts != [])
    && (StartsBlank(d.cuts, d.last) ==> i < |s| && s[i] == ' ')
  }

  // One chunk more in front.
  lemma {:induction false} ChunkInFront(s: string, i: nat, goesOn: bool, k: Chunk, d: Division) returns (d': Division)
    requires ChunkOk(k) && Stands(s, i, RawChunk(k)) && Divides(s, i + |RawChunk(k)|, true, d) && (k == Plain(' ') ==> i < |s| && s[i] == ' ')
    ensures Divides(s, i, goesOn, d')
  {
    hide RawChunk, ChunkOk, LineEnds, RawPart, RawCuts, Remains;
    if d.cuts == [] {
      d' := Division([], [k] + d.last, d.rest, d.end);
      LastGrows(d.last, d.rest, d.end, d'.last);
      LastRemains(s, i, k, d.last, d.rest);
    } else {
      var c := CutPart([k] + d.cuts[0].part, d.cuts[0].blanks);
      d' := Division([c] + d.cuts[1..], d.last, d.rest, d.end);
      assert d'.cuts[1..] == d.cuts[1..];
      FirstGrows(d.cuts, d'.cuts, d.last, d.rest, d.end);
      FirstRemains(s, i, k, d.cuts, RawPart(d.last) + d.rest);
    }
  }

  lemma {:induction false} LastRemains(s: string, i: nat, k: Chunk, last: seq<Chunk>, rest: string)
    requires Stands(s, i, RawChunk(k)) && Remains(s, i + |RawChunk(k)|, RawCuts([]) + (RawPart(last) + rest))
    ensures Remains(s, i, RawCuts([]) + (RawPart([k] + last) + rest))
  {
    hide RawChunk;
    assert ([k] + last)[1..] == last;
    assert s[i..] == RawChunk(k) + s[i + |RawChunk(k)|..];
    Regroup(RawChunk(k), RawPart(last), rest);
    assert "" + (RawPart(last) + rest) == RawPart(last) + rest;
    assert "" + (RawPart([k] + last) + rest) == RawPart([k] + last) + rest;
  }

  lemma {:induction false} FirstRemains(s: string, i: nat, k: Chunk, cuts: seq<CutPart>, tail: string)
    requires cuts != [] && Stands(s, i, RawChunk(k)) && Remains(s, i + |RawChunk(k)|, RawCuts(cuts) + tail)
    ensures Remains(s, i, RawCuts([CutPart([k] + cuts[0].part, cuts[0].blanks)] + cuts[1..]) + tail)
  {
    hide RawChunk, Blanks;
    var part := cuts[0].part;
    var c := CutPart([k] + part, cuts[0].blanks);
    assert c.part[1..] == part && ([c] + cuts[1..])[1..] == cuts[1..];
    assert s[i..] == RawChunk(k) + s[i + |RawChunk(k)|..];
    Regroup(RawChunk(k), RawPart(part), "|" + Blanks(c.blanks));
    Regroup(RawChunk(k), RawCut(cuts[0]), RawCuts(cuts[1..]));
    Regroup(RawChunk(k), RawCuts(cuts), tail);
  }

  lemma {:induction false} LastGrows(last: seq<Chunk>, rest: string, e: Option<Error>, last': seq<Chunk>)
    requires LineEnds([], last, rest, e) && e != Some(BadPipe)
    ensures LineEnds([], last', rest, e)
  {
  }

  lemma {:induction false} FirstGrows(cuts: seq<CutPart>, cuts': seq<CutPart>, last: seq<Chunk>, rest: string, e: Option<Error>)
    requires LineEnds(cuts, last, rest, e) && cuts != [] && |cuts'| == |cuts| && cuts'[1..] == cuts[1..] && cuts'[0].blanks == cuts[0].blanks
    ensures LineEnds(cuts', last, rest, e)
  {
    assert |cuts| > 1 ==> cuts'[1..][|cuts| - 2] == cuts[1..][|cuts| - 2];
  }

  lemma {:induction false} SkipsAre(s: string, i: nat)
    requires i < |s|
    ensures var j := SkipBlanks(s, i); s[i + 1..j + 1] == Blanks(j - i) && (j + 1 < |s| ==> s[j + 1] != ' ')
    decreases |s| - i
  {
    var j := SkipBlanks(s, i);
    if j > i {
      SkipsAre(s, i + 1);
      assert s[i + 1..j + 1] == [' '] + s[i + 2..j + 1];
    }
  }

  // A pipe in front, behind a part that goes on from before.
  lemma {:induction false} PipeInFront(s: string, i: nat, d: Division) returns (d': Division)
    requires EndsInNewline(s) && i + 2 < |s| && s[i] == '|'
    requires var j := SkipBlanks(s, i) + 1; j < |s| && s[j] != ' ' && s[i + 1..j] == Blanks(j - i - 1) && Divides(s, j, false, d)
    ensures Divides(s, i, true, d')
  {
    hide SkipBlanks, Blanks, RawPart, LineEnds, PartOk, RawCut, RawCuts;
    var j := SkipBlanks(s, i) + 1;
    var c := CutPart([], j - i - 1);
    d' := Division([c] + d.cuts, d.last, d.rest, d.end);
    EmptyCut(c);
    NothingLeft(s, j, d);
    CutInFront(s, i, j, c, d);
    EndsAsBefore(c, d);
    assert d'.cuts[1..] == d.cuts;
  }

  lemma {:induction false} NothingLeft(s: string, j: nat, d: Division)
    requires Remains(s, j, RawCuts(d.cuts) + (RawPart(d.last) + d.rest)) && LineEnds(d.cuts, d.last, d.rest, d.end)
    ensures d.cuts == [] && d.last == [] && d.end == None ==> j == |s| - 1
  {
    hide NoClose;
    RemainsLength(s, j, RawCuts(d.cuts) + (RawPart(d.last) + d.rest));
  }

  lemma {:induction false} CutInFront(s: string, i: nat, j: nat, c: CutPart, d: Division)
    requires i < j <= |s| && s[i..j] == RawCut(c) && Remains(s, j, RawCuts(d.cuts) + (RawPart(d.last) + d.rest))
    ensures Remains(s, i, RawCuts([c] + d.cuts) + (RawPart(d.last) + d.rest))
  {
    hide RawCut, RawPart;
    var tail := RawPart(d.last) + d.rest;
    assert ([c] + d.cuts)[1..] == d.cuts;
    assert s[i..] == s[i..j] + s[j..];
    assert RawCut(c) + (RawCuts(d.cuts) + tail) == RawCuts([c] + d.cuts) + tail;
  }

  lemma {:induction false} EndsAsBefore(c: CutPart, d: Division)
    requires LineEnds(d.cuts, d.last, d.rest, d.end) && (d.cuts == [] && d.last == [] && d.end == None ==> c.blanks > 0)
    ensures LineEnds([c] + d.cuts, d.last, d.rest, d.end)
  {
    var cuts := [c] + d.cuts;
    assert cuts[|cuts| - 1] == if d.cuts == [] then c else d.cuts[|d.cuts| - 1];
  }

  lemma {:induction false} EmptyCut(c: CutPart)
    requires c.part == []
    ensures RawCut(c) == ['|'] + Blanks(c.blanks) && PartOk(c.part)
  {
    assert "" + ("|" + Blanks(c.blanks)) == "|" + Blanks(c.blanks);
  }

  /** Every line is some parts with one of the ends behind them. */
  lemma {:induction false} LineFrom(s: string, i: nat, goesOn: bool) returns (d: Division)
    requires EndsInNewline(s) && i < |s|
    ensures Divides(s, i, goesOn, d)
    decreases |s| - i
  {
    hide PipesFrom, CutsOkFrom, RawPart, RawCuts;
    var n := |s| - 1;
    if i == n || (s[i] == '"' && CloseQuote(s, i + 1, n) == n) || (s[i] == '|' && (i == n - 1 || !goesOn)) {
      d := StopAt(s, i, goesOn);
    } else if s[i] == '|' {
      SkipsAre(s, i);
      d := LineFrom(s, SkipBlanks(s, i) + 1, false);
      d := PipeInFront(s, i, d);
    } else {
      var k := ChunkAt(s, i);
      d := LineFrom(s, i + |RawChunk(k)|, true);
      d := ChunkInFront(s, i, goesOn, k, d);
    }
  }

  lemma {:induction false} ChunkAt(s: string, i: nat) returns (k: Chunk)
    requires i < |s| - 1 && s[i] != '|' && !(s[i] == '"' && CloseQuote(s, i + 1, |s| - 1) == |s| - 1)
    ensures ChunkOk(k) && Stands(s, i, RawChunk(k)) && RawChunk(k) != "" && i + |RawChunk(k)| < |s| && (k == Plain(' ') ==> s[i] == ' ')
  {
    hide NoClose, CloseQuote;
    if s[i] == '"' {
      ParserLexemes.InQuotes(s, i, |s| - 1);
      k := Chunk.InQuotes(s[i + 1..CloseQuote(s, i + 1, |s| - 1)]);
    } else {
      k := Plain(s[i]);
    }
  }

  lemma {:induction false} StopAt(s: string, i: nat, goesOn: bool) returns (d: Division)
    requires EndsInNewline(s) && i < |s|
    requires i == |s| - 1 || (s[i] == '"' && CloseQuote(s, i + 1, |s| - 1) == |s| - 1) || (s[i] == '|' && (i == |s| - 2 || !goesOn))
    ensures Divides(s, i, goesOn, d)
  {
    hide NoClose, CloseQuote, PartOk, RawCuts, RawPart, LineEnds;
    var e := EndAt(s, i, goesOn);
    d := Division([], [], s[i..], e);
    NoPartsYet(s, i);
  }

  lemma {:induction false} EndAt(s: string, i: nat, goesOn: bool) returns (e: Option<Error>)
    requires EndsInNewline(s) && i < |s|
    requires i == |s| - 1 || (s[i] == '"' && CloseQuote(s, i + 1, |s| - 1) == |s| - 1) || (s[i] == '|' && (i == |s| - 2 || !goesOn))
    ensures LineEnds([], [], s[i..], e) && (e == Some(BadPipe) ==> !goesOn)
  {
    hide NoClose, CloseQuote;
    assert s[i..][0] == s[i];
    if i == |s| - 1 {
      assert s[i..] == [s[i]];
      e := None;
    } else if s[i] == '"' {
      ParserLexemes.InQuotes(s, i, |s| - 1);
      Inner(s, i);
      e := Some(BadQuotes);
    } else if i == |s| - 2 {
      assert s[i..] == [s[i], s[i + 1]];
      e := Some(NoCommandAfterPipe);
    } else {
      e := Some(BadPipe);
    }
  }

  lemma {:induction false} NoPartsYet(s: string, i: nat)
    requires i <= |s|
    ensures Remains(s, i, RawCuts([]) + (RawPart([]) + s[i..])) && PartOk([]) && !StartsBlank([], [])
  {
    assert "" + ("" + s[i..]) == s[i..];
  }

  /** Main result 5. A line is split at every pipe outside quotes, and refused if and only if a pipe
      stands directly before the newline, a part is empty, or a quote stays open. */
  lemma {:induction false} SplitterDecides(s: string)
    requires EndsInNewline(s)
    ensures exists cuts, last, rest, e :: LineIs(s, cuts, last, rest, e)
    ensures forall cuts, last, rest, e :: LineIs(s, cuts, last, rest, e) ==> PipesFrom(s, 0, "", []) == SplitAnswer(cuts, last, e)
  {
    hide PipesFrom, SplitAnswer, CutsOk, RawCuts, RawPart, LineEnds;
    var d := LineFrom(s, 0, false);
    assert s[0..] == s;
    FromStart(s, d);
    forall cuts, last, rest, e | LineIs(s, cuts, last, rest, e) ensures PipesFrom(s, 0, "", []) == SplitAnswer(cuts, last, e) {
      LineAnswers(s, cuts, last, rest, e);
    }
  }

  lemma {:induction false} FromStart(s: string, d: Division)
    requires Divides(s, 0, false, d)
    ensures LineIs(s, d.cuts, d.last, d.rest, d.end)
  {
    assert s[0..] == s;
  }
}
