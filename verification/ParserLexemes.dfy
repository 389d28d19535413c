/** What can stand in the text of a command, and what the tokeniser makes of it: every text is a list of
    lexemes, up to a backslash at its end or a quote that is not closed. */
module ParserLexemes {
  import opened Parser

  datatype Lexeme =
    | Bare(c: char)
    | Escaped(c: char)           // a backslash and c
    | Twice(c: char)             // the same with a backslash behind it, which stands for itself
    | Quoted(text: string)
    | SlashQuoted(text: string)  // quoted right behind a slash: the quotes are kept
    | Blank
    | Sign(c: char)

  predicate IsSign(c: char) {
    c == '<' || c == '>' || c == '&'
  }

  // Text t in quotes.
  function Quote(t: string): string {
    "\"" + t + "\""
  }

  // How it is written.
  function Raw(l: Lexeme): string {
    match l
    case Bare(c) => [c]
    case Escaped(c) => ['\\', c]
    case Twice(c) => ['\\', c, '\\']
    case Quoted(t) => Quote(t)
    case SlashQuoted(t) => Quote(t)
    case Blank => " "
    case Sign(c) => [c]
  }

  // What it contributes to the word it is in.
  function Means(l: Lexeme): string {
    match l
    case Bare(c) => [c]
    case Escaped(c) => [c]
    case Twice(c) => [c, '\\']
    case Quoted(t) => t
    case SlashQuoted(t) => Quote(t)
    case Blank => ""
    case Sign(_) => ""
  }

  // Nothing in t closes a quote opened before it: a quote in t has a backslash before it.
  predicate NoClose(t: string) {
    forall i :: 0 <= i < |t| && t[i] == '"' ==> i > 0 && t[i - 1] == '\\'
  }

  predicate QuoteOk(t: string) {
    NoClose(t) && (t == "" || t[|t| - 1] != '\\')
  }

  // Whether l can stand where a slash stands before it or not, and where the lexeme before is escaped or not.
  predicate Fits(slash: bool, esc: bool, l: Lexeme) {
    match l
    case Bare(c) => c != ' ' && !IsSign(c) && c != '"' && c != '\\'
    case Escaped(_) => !esc
    case Twice(_) => !esc
    case Quoted(t) => QuoteOk(t) && !slash
    case SlashQuoted(t) => QuoteOk(t) && slash
    case Blank => true
    case Sign(c) => IsSign(c)
  }

  predicate EndsInSlash(l: Lexeme) {
    l == Bare('/') || l == Escaped('/')
  }

  predicate Fit(slash: bool, esc: bool, ls: seq<Lexeme>)
    decreases |ls|
  {
    ls == [] || (Fits(slash, esc, ls[0]) && Fit(EndsInSlash(ls[0]), ls[0].Escaped?, ls[1..]))
  }

  function RawAll(ls: seq<Lexeme>): string {
    if ls == [] then "" else Raw(ls[0]) + RawAll(ls[1..])
  }

  // A word in the making, and the tokens before it.
  datatype Reading = Reading(temp: string, tokens: seq<string>)

  function ReadOne(r: Reading, l: Lexeme): Reading {
    match l
    case Blank => Reading("", Flush(r.tokens, r.temp))
    case Sign(c) => Reading("", Flush(r.tokens, r.temp) + [[c]])
    case _ => r.(temp := r.temp + Means(l))
  }

  function Read(r: Reading, ls: seq<Lexeme>): Reading
    decreases |ls|
  {
    if ls == [] then r else Read(ReadOne(r, ls[0]), ls[1..])
  }

  // The tokens of a text: the words between blanks and signs, and the signs.
  function Cut(ls: seq<Lexeme>): seq<string> {
    var r := Read(Reading("", []), ls);
    Flush(r.tokens, r.temp)
  }

  lemma {:induction false} Regroup(a: string, b: string, c: string)
    ensures a + b + c == a + (b + c)
  {
  }

  // ---------- quotes ----------

  lemma {:induction false} CloseQuoteIs(s: string, i: nat, end: nat)
    requires 0 < i <= end <= |s|
    ensures var j := CloseQuote(s, i, end);
            && (forall k :: i <= k < j && s[k] == '"' ==> s[k - 1] == '\\')
            && (j < end ==> s[j] == '"' && s[j - 1] != '\\')
    decreases end - i
  {
    if i < end && (s[i] != '"' || s[i - 1] == '\\') {
      CloseQuoteIs(s, i + 1, end);
    }
  }

  lemma {:induction false} IsQuote(s: string, i: nat, j: nat)
    requires i < j < |s| && s[i] == '"' == s[j]
    ensures s[i..j + 1] == Quote(s[i + 1..j]) && |Quote(s[i + 1..j])| == j + 1 - i
  {
    var t := s[i + 1..j];
    assert s[i..j + 1] == [s[i]] + t + [s[j]];
  }

  // What stands before the closing quote, or before the end if there is none.
  lemma {:induction false} InQuotes(s: string, i: nat, end: nat)
    requires i < end <= |s| && s[i] == '"'
    ensures var j := CloseQuote(s, i + 1, end);
            NoClose(s[i + 1..j]) && (j < end ==> s[j] == '"' && QuoteOk(s[i + 1..j]) && s[i..j + 1] == Quote(s[i + 1..j]))
  {
    hide Quote, CloseQuote;
    CloseQuoteIs(s, i + 1, end);
    var j := CloseQuote(s, i + 1, end);
    if j < end {
      IsQuote(s, i, j);
    }
    var t := s[i + 1..j];
    forall k | 0 <= k < |t| && t[k] == '"' ensures k > 0 && t[k - 1] == '\\' {
      assert s[i + 1 + k] == '"';
    }
    if j < end && t != "" {
      assert t[|t| - 1] == s[j - 1];
    }
  }

  lemma {:induction false} NotClosedIn(s: string, i: nat, t: string)
    requires i + |t| < |s| && s[i + 1..i + 1 + |t|] == t && NoClose(t)
    ensures forall k :: i < k <= i + |t| && s[k] == '"' ==> k > i + 1 && s[k - 1] == '\\'
  {
    forall k | i < k <= i + |t| && s[k] == '"' ensures k > i + 1 && s[k - 1] == '\\' {
      assert t[k - i - 1] == s[k];
      assert k > i + 1 ==> t[k - i - 2] == s[k - 1];
    }
  }

  // The quote closes behind t.
  lemma {:induction false} ClosesBehind(s: string, i: nat, t: string, end: nat)
    requires i + |t| + 1 < end <= |s| && s[i] == '"' && s[i + 1..i + 1 + |t|] == t && s[i + 1 + |t|] == '"' && QuoteOk(t)
    ensures CloseQuote(s, i + 1, end) == i + 1 + |t|
  {
    hide CloseQuote;
    CloseQuoteIs(s, i + 1, end);
    NotClosedIn(s, i, t);
    assert s[i + |t|] != '\\' by {
      assert t != "" ==> s[i + |t|] == t[|t| - 1];
    }
  }

  // It does not close before the end.
  lemma {:induction false} StaysOpen(s: string, i: nat, end: nat)
    requires i < end <= |s| && s[i] == '"' && NoClose(s[i + 1..end])
    ensures CloseQuote(s, i + 1, end) == end
  {
    hide CloseQuote;
    CloseQuoteIs(s, i + 1, end);
    NotClosedIn(s, i, s[i + 1..end]);
  }

  // ---------- reading lexemes ----------

  // What is left to do at position i; behind an escaped character a backslash is not looked for.
  function Rest(s: string, i: nat, esc: bool, r: Reading): Result<seq<string>> {
    if esc then TokensAt(s, i, r.temp, r.tokens) else TokensFrom(s, i, r.temp, r.tokens)
  }

  // Text l stands at position i.
  predicate Stands(s: string, i: nat, text: string) {
    i + |text| <= |s| && s[i..i + |text|] == text
  }

  predicate SlashBefore(s: string, i: nat) {
    0 < i <= |s| && s[i - 1] == '/'
  }

  lemma {:induction false} StandsAt(s: string, i: nat, text: string, k: nat)
    requires Stands(s, i, text) && k < |text|
    ensures s[i + k] == text[k]
  {
    assert s[i..i + |text|][k] == s[i + k];
  }

  lemma {:induction false} LexemeRead(s: string, i: nat, esc: bool, l: Lexeme, r: Reading)
    requires Stands(s, i, Raw(l)) && Fits(SlashBefore(s, i), esc, l)
    ensures Rest(s, i, esc, r) == Rest(s, i + |Raw(l)|, l.Escaped?, ReadOne(r, l))
    ensures SlashBefore(s, i + |Raw(l)|) <==> EndsInSlash(l)
  {
    if l.Escaped? || l.Twice? {
      EscapeRead(s, i, l, r);
    } else if l.Quoted? || l.SlashQuoted? {
      QuotedRead(s, i, esc, l, r);
    } else {
      StandsAt(s, i, Raw(l), 0);
      assert Rest(s, i, esc, r) == TokensAt(s, i, r.temp, r.tokens);
    }
  }

  lemma {:induction false} EscapeRead(s: string, i: nat, l: Lexeme, r: Reading)
    requires Stands(s, i, Raw(l)) && (l.Escaped? || l.Twice?)
    ensures Rest(s, i, false, r) == Rest(s, i + |Raw(l)|, l.Escaped?, ReadOne(r, l))
    ensures SlashBefore(s, i + |Raw(l)|) <==> EndsInSlash(l)
  {
    StandsAt(s, i, Raw(l), 0);
    StandsAt(s, i, Raw(l), 1);
    if l.Twice? {
      StandsAt(s, i, Raw(l), 2);
      assert r.temp + [l.c] + ['\\'] == r.temp + [l.c, '\\'];
      assert TokensAt(s, i + 2, r.temp + [l.c], r.tokens) == TokensFrom(s, i + 3, r.temp + [l.c] + ['\\'], r.tokens);
    }
  }

  lemma {:induction false} QuotedRead(s: string, i: nat, esc: bool, l: Lexeme, r: Reading)
    requires Stands(s, i, Raw(l)) && Fits(SlashBefore(s, i), esc, l) && (l.Quoted? || l.SlashQuoted?)
    ensures Rest(s, i, esc, r) == Rest(s, i + |Raw(l)|, false, ReadOne(r, l))
    ensures !SlashBefore(s, i + |Raw(l)|)
  {
    hide CloseQuote, NoClose, Quote, Stands, TokensFrom, TokensAt;
    QuoteStands(s, i, l.text);
    hide QuoteOk;
    QuoteTokens(s, i, i + 1 + |l.text|, r);
    StartsNoEscape(s, i, esc, r);
  }

  lemma {:induction false} StartsNoEscape(s: string, i: nat, esc: bool, r: Reading)
    requires i < |s| && s[i] != '\\'
    ensures Rest(s, i, esc, r) == TokensAt(s, i, r.temp, r.tokens)
  {
  }

  lemma {:induction false} QuoteTokens(s: string, i: nat, j: nat, r: Reading)
    requires i < j < |s| && s[i] == '"' && CloseQuote(s, i + 1, |s|) == j
    ensures TokensAt(s, i, r.temp, r.tokens) == TokensFrom(s, j + 1, r.temp + if SlashBefore(s, i) then s[i..j + 1] else s[i + 1..j], r.tokens)
  {
    hide CloseQuote;
  }

  // A quote that stands in the text closes at its end.
  lemma {:induction false} QuoteStands(s: string, i: nat, t: string)
    requires Stands(s, i, Quote(t)) && QuoteOk(t)
    ensures |Quote(t)| == |t| + 2
    ensures var j := i + 1 + |t|;
            && j < |s| && s[i] == '"' && s[j] == '"' && CloseQuote(s, i + 1, |s|) == j
            && s[i + 1..j] == t && s[i..j + 1] == Quote(t)
  {
    QuoteSits(s, i, t);
    hide Quote, CloseQuote, Stands;
    ClosesBehind(s, i, t, |s|);
    IsQuote(s, i, i + 1 + |t|);
  }

  lemma {:induction false} QuoteSits(s: string, i: nat, t: string)
    requires Stands(s, i, Quote(t))
    ensures |Quote(t)| == |t| + 2 && i + |t| + 1 < |s| && s[i] == '"' == s[i + |t| + 1] && s[i + 1..i + 1 + |t|] == t
  {
    var raw := Quote(t);
    StandsAt(s, i, raw, 0);
    StandsAt(s, i, raw, |raw| - 1);
    assert forall k :: 0 <= k < |t| ==> raw[k + 1] == t[k];
    forall k | 0 <= k < |t| ensures s[i + 1 + k] == t[k] {
      StandsAt(s, i, raw, k + 1);
    }
  }

  predicate EndsEscaped(esc: bool, ls: seq<Lexeme>) {
    if ls == [] then esc else ls[|ls| - 1].Escaped?
  }

  /** Reading lexemes leads to the position behind them, with the tokens and the word they make. */
  lemma {:induction false} LexemesRead(s: string, i: nat, esc: bool, ls: seq<Lexeme>, r: Reading)
    requires Stands(s, i, RawAll(ls)) && Fit(SlashBefore(s, i), esc, ls)
    ensures Rest(s, i, esc, r) == Rest(s, i + |RawAll(ls)|, EndsEscaped(esc, ls), Read(r, ls))
    decreases |ls|
  {
    hide Raw, ReadOne, Fits, EndsInSlash, Rest, SlashBefore;
    if ls != [] {
      var l := ls[0];
      StandsSplit(s, i, Raw(l), RawAll(ls[1..]));
      LexemeRead(s, i, esc, l, r);
      LexemesRead(s, i + |Raw(l)|, l.Escaped?, ls[1..], ReadOne(r, l));
    }
  }

  lemma {:induction false} StandsSplit(s: string, i: nat, a: string, b: string)
    requires Stands(s, i, a + b)
    ensures Stands(s, i, a) && Stands(s, i + |a|, b)
  {
    assert s[i..i + |a + b|][..|a|] == a && s[i..i + |a + b|][|a|..] == b;
  }

  // ---------- every text ----------

  // What a text can end with that is no lexeme: a backslash, or an open quote.
  predicate Dangling(esc: bool, tail: string) {
    tail == "\\" && !esc
  }

  predicate Open(tail: string) {
    tail != "" && tail[0] == '"' && NoClose(tail[1..])
  }

  /** Every text, from any position on, is a list of lexemes with possibly one of these behind it. */
  lemma {:induction false} Decompose(s: string, i: nat, esc: bool) returns (ls: seq<Lexeme>, tail: string)
    requires i <= |s| && (esc && i < |s| ==> s[i] != '\\')
    ensures Fit(SlashBefore(s, i), esc, ls) && s[i..] == RawAll(ls) + tail
    ensures tail == "" || Dangling(EndsEscaped(esc, ls), tail) || Open(tail)
    decreases |s| - i
  {
    hide Raw, Fits, SlashBefore, EndsInSlash, NoClose, CloseQuote;
    if i == |s| || s[i..] == "\\" {
      ls, tail := [], s[i..];
      assert s[i..] == "\\" ==> s[i..][0] == s[i];
    } else if s[i] == '"' && CloseQuote(s, i + 1, |s|) == |s| {
      InQuotes(s, i, |s|);
      ls, tail := [], s[i..];
      assert tail[1..] == s[i + 1..|s|];
    } else {
      var l := LexemeAt(s, i, esc);
      var next := i + |Raw(l)|;
      var more;
      more, tail := Decompose(s, next, l.Escaped?);
      ls := OneMore(s, i, esc, l, more, tail);
    }
  }

  lemma {:induction false} OneMore(s: string, i: nat, esc: bool, l: Lexeme, more: seq<Lexeme>, tail: string) returns (ls: seq<Lexeme>)
    requires Stands(s, i, Raw(l)) && Fits(SlashBefore(s, i), esc, l) && Fit(EndsInSlash(l), l.Escaped?, more)
    requires s[i + |Raw(l)|..] == RawAll(more) + tail
    ensures ls == [l] + more && Fit(SlashBefore(s, i), esc, ls) && s[i..] == RawAll(ls) + tail
    ensures EndsEscaped(esc, ls) == EndsEscaped(l.Escaped?, more)
  {
    hide Raw, Fits, SlashBefore, EndsInSlash;
    ls := [l] + more;
    assert s[i..] == Raw(l) + s[i + |Raw(l)|..];
    assert ls[1..] == more;
    assert Raw(l) + (RawAll(more) + tail) == RawAll(ls) + tail;
  }

  lemma {:induction false} MoreBehind(s: string, i: nat)
    requires i < |s| && s[i] == '\\' && s[i..] != "\\"
    ensures i + 1 < |s|
  {
    assert s[i..] == [s[i]] + s[i + 1..] && [s[i]] + [] == "\\";
  }

  lemma {:induction false} LexemeAt(s: string, i: nat, esc: bool) returns (l: Lexeme)
    requires i < |s| && s[i..] != "\\" && !(s[i] == '"' && CloseQuote(s, i + 1, |s|) == |s|)
    requires esc ==> s[i] != '\\'
    ensures Raw(l) != "" && Stands(s, i, Raw(l)) && Fits(SlashBefore(s, i), esc, l)
    ensures l.Escaped? && i + 2 < |s| ==> s[i + 2] != '\\'
    ensures l.Escaped? ==> |Raw(l)| == 2
    ensures SlashBefore(s, i + |Raw(l)|) <==> EndsInSlash(l)
  {
    hide NoClose, CloseQuote, Quote;
    if s[i] == '\\' {
      MoreBehind(s, i);
      l := if i + 2 < |s| && s[i + 2] == '\\' then Twice(s[i + 1]) else Escaped(s[i + 1]);
    } else if s[i] == '"' {
      InQuotes(s, i, |s|);
      var j := CloseQuote(s, i + 1, |s|);
      IsQuote(s, i, j);
      l := if SlashBefore(s, i) then SlashQuoted(s[i + 1..j]) else Quoted(s[i + 1..j]);
    } else {
      l := if s[i] == ' ' then Blank else if IsSign(s[i]) then Sign(s[i]) else Bare(s[i]);
    }
  }

  lemma {:induction false} DanglingFails(s: string, i: nat, esc: bool, r: Reading)
    requires i <= |s| && Dangling(esc, s[i..])
    ensures Rest(s, i, esc, r) == Err(EndsWithBackslash)
  {
    assert s[i..][0] == s[i];
  }

  lemma {:induction false} OpenFails(s: string, i: nat, esc: bool, r: Reading)
    requires i <= |s| && Open(s[i..])
    ensures Rest(s, i, esc, r) == Err(BadQuotes)
  {
    assert s[i..][0] == s[i] && s[i..][1..] == s[i + 1..|s|];
    StaysOpen(s, i, |s|);
    assert Rest(s, i, esc, r) == TokensAt(s, i, r.temp, r.tokens);
  }

  // s is written by these lexemes and the tail.
  predicate WrittenBy(s: string, ls: seq<Lexeme>, tail: string) {
    Fit(false, false, ls) && s == RawAll(ls) + tail
  }

  // What the tokeniser answers for it.
  function Answer(ls: seq<Lexeme>, tail: string): Result<seq<string>> {
    if tail == "" then Ok(Cut(ls)) else if tail == "\\" then Err(EndsWithBackslash) else Err(BadQuotes)
  }

  lemma {:induction false} Answers(s: string, ls: seq<Lexeme>, tail: string)
    requires WrittenBy(s, ls, tail) && (tail == "" || Dangling(EndsEscaped(false, ls), tail) || Open(tail))
    ensures TokensFrom(s, 0, "", []) == Answer(ls, tail)
  {
    hide Fit, Read, TokensAt, TokensFrom, Dangling, Open;
    var i, r := |RawAll(ls)|, Read(Reading("", []), ls);
    assert s[0..i] == RawAll(ls) && s[i..] == tail;
    LexemesRead(s, 0, false, ls, Reading("", []));
    if tail == "" {
      RestEnds(s, EndsEscaped(false, ls), r);
    } else if Dangling(EndsEscaped(false, ls), tail) {
      DanglingFails(s, i, EndsEscaped(false, ls), r);
      DanglingIs(EndsEscaped(false, ls), tail);
    } else {
      OpenFails(s, i, EndsEscaped(false, ls), r);
      OpenIs(tail);
    }
  }

  lemma {:induction false} RestEnds(s: string, esc: bool, r: Reading)
    ensures Rest(s, |s|, esc, r) == Ok(Flush(r.tokens, r.temp))
  {
  }

  lemma {:induction false} DanglingIs(esc: bool, tail: string)
    requires Dangling(esc, tail)
    ensures tail == "\\"
  {
  }

  lemma {:induction false} OpenIs(tail: string)
    requires Open(tail)
    ensures tail != "" && tail != "\\"
  {
  }

  /** Main result 3. The tokeniser accepts a text if and only if it is a list of lexemes, and then cuts
      it at blanks and signs; it says that the text ends with a backslash, or that quotes are wrong, if
      and only if that is so. */
  lemma {:induction false} TokeniserDecides(s: string)
    ensures var r := TokensFrom(s, 0, "", []);
            && (r.Ok? <==> exists ls :: WrittenBy(s, ls, ""))
            && (forall ls :: WrittenBy(s, ls, "") ==> r == Ok(Cut(ls)))
            && (r == Err(EndsWithBackslash) <==> exists ls :: WrittenBy(s, ls, "\\") && !EndsEscaped(false, ls))
            && (r == Err(BadQuotes) <==> exists ls, tail :: WrittenBy(s, ls, tail) && Open(tail))
  {
    hide Fit, TokensFrom, TokensAt, Cut, Open;
    var ls0, tail0 := Decompose(s, 0, false);
    assert s[0..] == s;
    Answers(s, ls0, tail0);
    forall ls | WrittenBy(s, ls, "") ensures TokensFrom(s, 0, "", []) == Ok(Cut(ls)) {
      Answers(s, ls, "");
    }
    forall ls | WrittenBy(s, ls, "\\") && !EndsEscaped(false, ls) ensures TokensFrom(s, 0, "", []) == Err(EndsWithBackslash) {
      Answers(s, ls, "\\");
    }
    forall ls, tail | WrittenBy(s, ls, tail) && Open(tail) ensures TokensFrom(s, 0, "", []) == Err(BadQuotes) {
      Answers(s, ls, tail);
      OpenIs(tail);
    }
    if Open(tail0) {
      OpenIs(tail0);
    }
  }
}
