/** The shell's parser.c: a line is split at pipes, each part into tokens, and the tokens into
    arguments, redirections and the background flag. */
module Parser {

  datatype Option<T> = None | Some(value: T)

  datatype Error =
    | BadQuotes
    | NoCommandAfterPipe
    | BadPipe
    | AmpersandNotInLast
    | EndsWithBackslash
    | BadRedirection
    | NotLastAmpersand
    | GlobFailed

  datatype Result<T> = Ok(value: T) | Err(error: Error)

  datatype Command = Command(args: seq<string>, input: Option<string>, output: Option<string>, background: bool)

  // What glob(3) gives for a pattern: the matching paths, or nothing when it fails.
  type Glob = string -> Option<seq<string>>

  // Where the quote opened before i closes, at the latest at end; a quote after a backslash is part of the text.
  function CloseQuote(s: string, i: nat, end: nat): (j: nat)
    requires 0 < i <= end <= |s|
    ensures i <= j <= end
    decreases end - i
  {
    if i < end && (s[i] != '"' || s[i - 1] == '\\') then CloseQuote(s, i + 1, end) else i
  }

  function Flush(tokens: seq<string>, temp: string): seq<string> {
    if temp != "" then tokens + [temp] else tokens
  }

  // ---------- splitting at pipes ----------

  // The last of the blanks that follow position i.
  function SkipBlanks(s: string, i: nat): (j: nat)
    requires i < |s|
    ensures i <= j < |s|
    decreases |s| - i
  {
    if i < |s| - 1 && s[i + 1] == ' ' then SkipBlanks(s, i + 1) else i
  }

  // The loop of tokenise_on_pipe from character i on. The last character, the newline, is not looked at.
  function PipesFrom(s: string, i: nat, temp: string, parts: seq<string>): Result<seq<string>>
    requires s != ""
    decreases |s| - i
  {
    var n := |s| - 1;
    if i >= n then Ok(Flush(parts, temp))
    else if s[i] == '"' then
      var j := CloseQuote(s, i + 1, n);
      if j == n then Err(BadQuotes) else PipesFrom(s, j + 1, temp + s[i..j + 1], parts)
    else if s[i] == '|' then
      if i == n - 1 then Err(NoCommandAfterPipe)
      else if temp == "" then Err(BadPipe)
      else PipesFrom(s, SkipBlanks(s, i) + 1, "", parts + [temp])
    else PipesFrom(s, i + 1, temp + [s[i]], parts)
  }

  // The inner loop of both tokenisers: copy up to the closing quote.
  method CopyQuoted(s: string, from: nat, end: nat, temp0: string) returns (i: nat, temp: string)
    requires 0 < from <= end <= |s|
    ensures i == CloseQuote(s, from, end) && temp == temp0 + s[from..i]
  {
    i, temp := from, temp0;
    while i < end && (s[i] != '"' || s[i - 1] == '\\')
      invariant from <= i <= end && temp == temp0 + s[from..i]
      invariant CloseQuote(s, from, end) == CloseQuote(s, i, end)
    {
      temp := temp + [s[i]];
      i := i + 1;
    }
  }

  // Each part with its background flag: & is only allowed in the last.
  function Parts(parts: seq<string>): Result<seq<(string, bool)>> {
    if exists i :: 0 <= i < |parts| - 1 && '&' in parts[i] then Err(AmpersandNotInLast)
    else Ok(seq(|parts|, i requires 0 <= i < |parts| => (parts[i], i == |parts| - 1 && '&' in parts[i])))
  }

  function SplitLine(s: string): Result<seq<(string, bool)>>
    requires s != ""
  {
    match PipesFrom(s, 0, "", [])
    case Err(e) => Err(e)
    case Ok(parts) => Parts(parts)
  }

  /** The first loop of tokenise_on_pipe. */
  method SplitAtPipes(s: string) returns (r: Result<seq<string>>)
    requires s != ""
    ensures r == PipesFrom(s, 0, "", [])
  {
    hide CloseQuote;
    var n := |s| - 1;
    var parts: seq<string> := [];
    var temp := "";
    var i := 0;
    while i < n
      invariant 0 <= i <= |s|
      invariant PipesFrom(s, 0, "", []) == PipesFrom(s, i, temp, parts)
      decreases |s| - i
    {
      if s[i] == '"' {
        ghost var start, before := i, temp;
        temp := temp + [s[i]];
        i, temp := CopyQuoted(s, i + 1, n, temp);
        if i == n {
          return Err(BadQuotes);
        }
        temp := temp + [s[i]];
        assert temp == before + s[start..i + 1];
      } else if s[i] == '|' {
        if i == n - 1 {
          return Err(NoCommandAfterPipe);
        }
        if temp != "" {
          parts := parts + [temp];
          temp := "";
          ghost var pipe := i;
          while i < n && s[i + 1] == ' '
            invariant pipe <= i <= n && SkipBlanks(s, pipe) == SkipBlanks(s, i)
          {
            i := i + 1;
          }
        } else {
          return Err(BadPipe);
        }
      } else {
        temp := temp + [s[i]];
      }
      i := i + 1;
    }
    r := Ok(Flush(parts, temp));
  }

  /** tokenise_on_pipe: the commands to parse, with the background flags they start with. */
  method TokeniseOnPipe(s: string) returns (r: Result<seq<(string, bool)>>)
    requires s != ""
    ensures r == SplitLine(s)
  {
    hide PipesFrom;
    var split := SplitAtPipes(s);
    if split.Err? {
      return Err(split.error);
    }
    var parts := split.value;
    var background := false;
    for i := 0 to |parts|
      invariant forall j :: 0 <= j < i && j < |parts| - 1 ==> '&' !in parts[j]
      invariant background <==> i == |parts| && parts != [] && '&' in parts[|parts| - 1]
    {
      if '&' in parts[i] {
        if i != |parts| - 1 {
          return Err(AmpersandNotInLast);
        }
        background := true;
      }
    }
    var cmds: seq<(string, bool)> := [];
    for i := 0 to |parts|
      invariant |cmds| == i
      invariant forall j :: 0 <= j < i ==> cmds[j] == (parts[j], j == |parts| - 1 && '&' in parts[j])
    {
      cmds := cmds + [(parts[i], background && i == |parts| - 1)];
    }
    assert cmds == Parts(parts).value;
    r := Ok(cmds);
  }

  // ---------- tokens ----------

  // The loop of cmd_parse from character i on.
  function TokensFrom(s: string, i: nat, temp: string, tokens: seq<string>): Result<seq<string>>
    decreases |s| - i, 1
  {
    if i >= |s| then Ok(Flush(tokens, temp))
    else if s[i] == '\\' then
      if i + 1 >= |s| then Err(EndsWithBackslash) else TokensAt(s, i + 2, temp + [s[i + 1]], tokens)
    else TokensAt(s, i, temp, tokens)
  }

  // The rest of the loop body, which after a backslash looks at the character behind the escaped one.
  function TokensAt(s: string, i: nat, temp: string, tokens: seq<string>): Result<seq<string>>
    decreases |s| - i, 0
  {
    if i >= |s| then Ok(Flush(tokens, temp))
    else if s[i] == '<' || s[i] == '>' || s[i] == '&' then TokensFrom(s, i + 1, "", Flush(tokens, temp) + [[s[i]]])
    else if s[i] == '"' then
      var j := CloseQuote(s, i + 1, |s|);
      if j == |s| then Err(BadQuotes)
      else if i != 0 && s[i - 1] == '/' then TokensFrom(s, j + 1, temp + s[i..j + 1], tokens)
      else TokensFrom(s, j + 1, temp + s[i + 1..j], tokens)
    else if s[i] == ' ' then TokensFrom(s, i + 1, "", Flush(tokens, temp))
    else TokensFrom(s, i + 1, temp + [s[i]], tokens)
  }

  method Tokenise(s: string) returns (r: Result<seq<string>>)
    ensures r == TokensFrom(s, 0, "", [])
  {
    hide CloseQuote;
    var tokens: seq<string> := [];
    var temp := "";
    var i := 0;
    while i < |s|
      invariant 0 <= i
      invariant TokensFrom(s, 0, "", []) == TokensFrom(s, i, temp, tokens)
      decreases |s| - i
    {
      if s[i] == '\\' {
        i := i + 1;
        if i < |s| {
          temp := temp + [s[i]];
          i := i + 1;
        } else {
          return Err(EndsWithBackslash);
        }
      }
      if i == |s| {
        // the character read here is the final NUL, and appending it changes nothing
      } else if s[i] == '<' || s[i] == '>' || s[i] == '&' {
        if temp != "" {
          tokens := tokens + [temp];
        }
        tokens := tokens + [[s[i]]];
        temp := "";
      } else if s[i] == '"' {
        ghost var start, before := i, temp;
        var keep := i != 0 && s[i - 1] == '/';
        if keep {
          temp := temp + [s[i]];
        }
        i, temp := CopyQuoted(s, i + 1, |s|, temp);
        if i == |s| {
          return Err(BadQuotes);
        }
        if keep {
          temp := temp + [s[i]];
          assert temp == before + s[start..i + 1];
        }
      } else if s[i] == ' ' {
        if temp != "" {
          tokens := tokens + [temp];
          temp := "";
        }
      } else {
        temp := temp + [s[i]];
      }
      i := i + 1;
    }
    r := Ok(Flush(tokens, temp));
  }

  // ---------- arguments and redirections ----------

  // A file name must follow, and it must not be another redirection.
  predicate FileFollows(tokens: seq<string>, j: nat) {
    j + 1 < |tokens| && tokens[j + 1] != ">" && tokens[j + 1] != "<"
  }

  predicate IsPattern(token: string) {
    '*' in token || '?' in token
  }

  datatype Outcome = Outcome(cmd: Command, error: Option<Error>)

  // The second loop of cmd_parse from token j on: the fields of the command, and the error if there was one.
  function Sorted(glob: Glob, tokens: seq<string>, j: nat, c: Command): Outcome
    decreases |tokens| - j
  {
    if j >= |tokens| then Outcome(c, None)
    else if tokens[j] == "<" then
      if FileFollows(tokens, j) then Sorted(glob, tokens, j + 2, c.(input := Some(tokens[j + 1])))
      else Outcome(c, Some(BadRedirection))
    else if tokens[j] == ">" then
      if FileFollows(tokens, j) then Sorted(glob, tokens, j + 2, c.(output := Some(tokens[j + 1])))
      else Outcome(c, Some(BadRedirection))
    else if tokens[j] == "&" then
      if j == |tokens| - 1 then Outcome(c.(background := true), None) else Outcome(c, Some(NotLastAmpersand))
    else if IsPattern(tokens[j]) then
      match glob(tokens[j])
      case None => Outcome(c, Some(Error.GlobFailed))
      case Some(paths) => Sorted(glob, tokens, j + 1, c.(args := c.args + paths))
    else Sorted(glob, tokens, j + 1, c.(args := c.args + [tokens[j]]))
  }

  function ParseText(glob: Glob, text: string, background: bool): Outcome {
    var empty := Command([], None, None, background);
    match TokensFrom(text, 0, "", [])
    case Err(e) => Outcome(empty, Some(e))
    case Ok(tokens) => Sorted(glob, tokens, 0, empty)
  }

  class Cmd {
    const fullCmd: string
    var args: seq<string>
    var inputFile: Option<string>
    var outputFile: Option<string>
    var background: bool

    constructor (text: string, background: bool)
      ensures fullCmd == text && Value() == Command([], None, None, background)
    {
      fullCmd, args, inputFile, outputFile, this.background := text, [], None, None, background;
    }

    function Value(): Command
      reads this
    {
      Command(args, inputFile, outputFile, background)
    }

    /** cmd_parse, on a command fresh from tokenise_on_pipe. */
    method Parse(glob: Glob) returns (error: Option<Error>)
      requires args == [] && inputFile == None && outputFile == None
      modifies this
      ensures Outcome(Value(), error) == ParseText(glob, fullCmd, old(background))
    {
      var r := Tokenise(fullCmd);
      if r.Err? {
        return Some(r.error);
      }
      var tokens := r.value;
      var j := 0;
      while j < |tokens|
        invariant 0 <= j
        invariant ParseText(glob, fullCmd, old(background)) == Sorted(glob, tokens, j, Value())
        decreases |tokens| - j
      {
        if tokens[j] == "<" {
          if j == |tokens| - 1 || tokens[j + 1] == ">" || tokens[j + 1] == "<" {
            return Some(BadRedirection);
          }
          inputFile := Some(tokens[j + 1]);
          j := j + 1;
        } else if tokens[j] == ">" {
          if j == |tokens| - 1 || tokens[j + 1] == ">" || tokens[j + 1] == "<" {
            return Some(BadRedirection);
          }
          outputFile := Some(tokens[j + 1]);
          j := j + 1;
        } else if tokens[j] == "&" {
          if j != |tokens| - 1 {
            return Some(NotLastAmpersand);
          }
          background := true;
        } else if '*' in tokens[j] || '?' in tokens[j] {
          var matches := glob(tokens[j]);
          if matches == None {
            return Some(Error.GlobFailed);
          }
          args := args + matches.value;
        } else {
          args := args + [tokens[j]];
        }
        j := j + 1;
      }
      error := None;
    }
  }
}
