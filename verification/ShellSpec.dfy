/** The shell's grammar on character strings. A pointer into the command line is given by the
    characters from there to the end of the line. */
module ShellSpec {

  const MAXARGS: nat := 10

  predicate IsSpace(c: char) {
    c == ' ' || c == '\t' || c == '\r' || c == '\n' || c == '\U{0B}'
  }

  predicate IsSymbol(c: char) {
    c == '<' || c == '|' || c == '>' || c == '&' || c == ';' || c == '(' || c == ')'
  }

  /** A word: where it starts and where it ends. */
  datatype Word = Word(from: string, to: string)

  /** A redirection: to a file opened for writing as descriptor 1, or for reading as descriptor 0. */
  datatype Rd = Rd(out: bool, file: Word)

  datatype Cmd =
    | Exec(argv: seq<Word>)
    | Redir(cmd: Cmd, rd: Rd)
    | Pipe(left: Cmd, right: Cmd)
    | List(left: Cmd, right: Cmd)
    | Back(cmd: Cmd)

  /** A result and the rest of the line; every syntax error ends the shell process. */
  datatype Res<+T> = Err | Ok(value: T, rest: string)

  datatype Token = Token(tok: char, q: string, eq: string, rest: string)

  function SkipSpace(s: string): (r: string)
    ensures |r| <= |s| && (r != "" ==> !IsSpace(r[0]))
  {
    if s != "" && IsSpace(s[0]) then SkipSpace(s[1..]) else s
  }

  function SkipWord(s: string): (r: string)
    ensures |r| <= |s| && (s != "" && !IsSpace(s[0]) && !IsSymbol(s[0]) ==> |r| < |s|)
  {
    if s != "" && !IsSpace(s[0]) && !IsSymbol(s[0]) then SkipWord(s[1..]) else s
  }

  /** The character at the cursor, NUL at the end of the line. */
  function At(s: string): (c: char) {
    if s == "" then '\0' else s[0]
  }

  /** gettoken: the token's kind, its bounds, and where the next token starts. */
  function GetToken(s: string): (t: Token)
    ensures |t.rest| <= |t.eq| <= |t.q| <= |s|
    ensures At(SkipSpace(s)) != '\0' ==> |t.rest| < |s|
  {
    var q := SkipSpace(s);
    if At(q) == '\0' then Token('\0', q, q, q)
    else if q[0] == '>' then
      if At(q[1..]) == '>' then Token('+', q, q[2..], SkipSpace(q[2..])) else Token('>', q, q[1..], SkipSpace(q[1..]))
    else if IsSymbol(q[0]) then Token(q[0], q, q[1..], SkipSpace(q[1..]))
    else Token('a', q, SkipWord(q), SkipSpace(SkipWord(q)))
  }

  /** peek: whether the next character is one of these. */
  predicate Peek(s: string, toks: string) {
    var q := SkipSpace(s);
    At(q) != '\0' && At(q) in toks
  }

  /** parseredirs, as the list of redirections it wraps around its command. */
  function ParseRedirs(rds: seq<Rd>, s: string): (r: Res<seq<Rd>>)
    ensures r.Ok? ==> |r.rest| <= |s|
    decreases |s|
  {
    var s' := SkipSpace(s);
    if !Peek(s, "<>") then Ok(rds, s')
    else
      var op := GetToken(s');
      var file := GetToken(op.rest);
      if file.tok != 'a' then Err else ParseRedirs(rds + [Rd(op.tok != '<', Word(file.q, file.eq))], file.rest)
  }

  /** The command with redirections around it, the first one innermost. */
  function Wrap(c: Cmd, rds: seq<Rd>): (r: Cmd) {
    if rds == [] then c else Redir(Wrap(c, rds[..|rds| - 1]), rds[|rds| - 1])
  }

  /** The argument loop of parseexec: arguments and redirections in any order. */
  function ParseArgs(argv: seq<Word>, rds: seq<Rd>, s: string): (r: Res<Cmd>)
    ensures r.Ok? ==> |r.rest| <= |s|
    decreases |s|
  {
    var s' := SkipSpace(s);
    if Peek(s, "|)&;") then Ok(Wrap(Exec(argv), rds), s')
    else
      var t := GetToken(s');
      if t.tok == '\0' then Ok(Wrap(Exec(argv), rds), t.rest)
      else if t.tok != 'a' then Err
      else if |argv| + 1 >= MAXARGS then Err
      else
        var more := ParseRedirs(rds, t.rest);
        if more.Err? then Err else ParseArgs(argv + [Word(t.q, t.eq)], more.value, more.rest)
  }

  function ParseExec(s: string): (r: Res<Cmd>)
    ensures r.Ok? ==> |r.rest| <= |s|
    decreases |s|, 1
  {
    if Peek(s, "(") then ParseBlock(SkipSpace(s))
    else
      var rds := ParseRedirs([], SkipSpace(s));
      if rds.Err? then Err else ParseArgs([], rds.value, rds.rest)
  }

  /** parseblock, with the cursor on the opening parenthesis. */
  function ParseBlock(s: string): (r: Res<Cmd>)
    requires Peek(s, "(")
    ensures r.Ok? ==> |r.rest| <= |s|
    decreases |s|, 0
  {
    var body := ParseLine(GetToken(s).rest);
    if body.Err? then Err else BlockEnd(body.value, body.rest)
  }

  /** The end of parseblock: the closing parenthesis, then redirections. */
  function BlockEnd(body: Cmd, s: string): (r: Res<Cmd>)
    ensures r.Ok? ==> |r.rest| <= |s|
  {
    if !Peek(s, ")") then Err
    else
      var rds := ParseRedirs([], GetToken(s).rest);
      if rds.Err? then Err else Ok(Wrap(body, rds.value), rds.rest)
  }

  function ParsePipe(s: string): (r: Res<Cmd>)
    ensures r.Ok? ==> |r.rest| <= |s|
    decreases |s|, 2
  {
    var left := ParseExec(s);
    if left.Err? then Err
    else if !Peek(left.rest, "|") then Ok(left.value, SkipSpace(left.rest))
    else
      var right := ParsePipe(GetToken(left.rest).rest);
      if right.Err? then Err else Ok(Pipe(left.value, right.value), right.rest)
  }

  /** The loop of parseline over trailing ampersands. */
  function Backs(c: Cmd, s: string): (r: Res<Cmd>)
    ensures r.Ok? && |r.rest| <= |s|
    decreases |s|
  {
    if Peek(s, "&") then Backs(Back(c), GetToken(s).rest) else Ok(c, SkipSpace(s))
  }

  function ParseLine(s: string): (r: Res<Cmd>)
    ensures r.Ok? ==> |r.rest| <= |s|
    decreases |s|, 3
  {
    var first := ParsePipe(s);
    if first.Err? then Err
    else
      var left := Backs(first.value, first.rest);
      if !Peek(left.rest, ";") then Ok(left.value, SkipSpace(left.rest))
      else
        var right := ParseLine(GetToken(left.rest).rest);
        if right.Err? then Err else Ok(List(left.value, right.value), right.rest)
  }

  /** parsecmd up to nulterminate: the whole line must be used. */
  function ParseCmd(s: string): (r: Res<Cmd>) {
    var line := ParseLine(s);
    if line.Err? || SkipSpace(line.rest) != "" then Err else Ok(line.value, "")
  }
}
