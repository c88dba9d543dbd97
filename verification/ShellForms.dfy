/** How commands may be written: every redirection operator, redirections anywhere among the arguments, blanks
    anywhere between tokens; and what a written command means. */
module ShellForms {
  import opened ShellSpec

  /** What a command means, apart from where its words lie in the line. */
  datatype Tree =
    | TExec(args: seq<string>)
    | TRedir(cmd: Tree, out: bool, file: string)
    | TPipe(left: Tree, right: Tree)
    | TList(left: Tree, right: Tree)
    | TBack(cmd: Tree)

  function Text(w: Word): (t: string) {
    if |w.to| <= |w.from| then w.from[..|w.from| - |w.to|] else ""
  }

  function Texts(ws: seq<Word>): (r: seq<string>)
    ensures |r| == |ws|
  {
    if ws == [] then [] else Texts(ws[..|ws| - 1]) + [Text(ws[|ws| - 1])]
  }

  function Meaning(c: Cmd): (t: Tree) {
    match c
    case Exec(argv) => TExec(Texts(argv))
    case Redir(d, rd) => TRedir(Meaning(d), rd.out, Text(rd.file))
    case Pipe(l, r) => TPipe(Meaning(l), Meaning(r))
    case List(l, r) => TList(Meaning(l), Meaning(r))
    case Back(d) => TBack(Meaning(d))
  }

  datatype TRd = TRd(out: bool, file: string)

  /** Redirections around a command, the first one innermost. */
  function TWrap(t: Tree, rds: seq<TRd>): (r: Tree) {
    if rds == [] then t else TRedir(TWrap(t, rds[..|rds| - 1]), rds[|rds| - 1].out, rds[|rds| - 1].file)
  }

  // ---------------------------------------------------------------- written forms

  /** A redirection: blanks, the operator, blanks, a file. */
  datatype FRd = FRd(before: string, op: string, after: string, file: string)

  /** An argument: blanks, a word, and the redirections behind it. */
  datatype FArg = FArg(before: string, word: string, rds: seq<FRd>)

  /** A command as it is written; the blanks stand before the symbol that follows. */
  datatype Form =
    | FExec(rds: seq<FRd>, args: seq<FArg>)
    | FBlock(before: string, inside: Form, after: string, rds: seq<FRd>)
    | FPipe(left: Form, blank: string, right: Form)
    | FBack(cmd: Form, blank: string)
    | FList(left: Form, blank: string, right: Form)

  function WriteRd(rd: FRd): string {
    rd.before + (rd.op + (rd.after + rd.file))
  }

  function WriteRds(rds: seq<FRd>): string {
    if rds == [] then "" else WriteRd(rds[0]) + WriteRds(rds[1..])
  }

  function WriteArgs(args: seq<FArg>): string {
    if args == [] then ""
    else args[0].before + (args[0].word + (WriteRds(args[0].rds) + WriteArgs(args[1..])))
  }

  function Write(f: Form): string {
    match f
    case FExec(rds, args) => WriteRds(rds) + WriteArgs(args)
    case FBlock(before, inside, after, rds) => before + ("(" + (Write(inside) + (after + (")" + WriteRds(rds)))))
    case FPipe(l, b, r) => Write(l) + (b + ("|" + Write(r)))
    case FBack(c, b) => Write(c) + (b + "&")
    case FList(l, b, r) => Write(l) + (b + (";" + Write(r)))
  }

  // ---------------------------------------------------------------- which forms are commands

  predicate Blank(b: string) {
    forall i :: 0 <= i < |b| ==> b[i] in " \t\r\n\U{0B}"
  }

  predicate LegalWord(w: string) {
    w != "" && forall i :: 0 <= i < |w| ==> w[i] != '\0' && w[i] !in " \t\r\n\U{0B}" && w[i] !in "<|>&;()"
  }

  predicate LegalRd(rd: FRd) {
    && Blank(rd.before) && Blank(rd.after) && LegalWord(rd.file)
    && (rd.op == "<" || rd.op == ">" || rd.op == ">>")
  }

  predicate LegalRds(rds: seq<FRd>) {
    forall i {:trigger LegalRd(rds[i])} :: 0 <= i < |rds| ==> LegalRd(rds[i])
  }

  /** Between two words there must be a blank. */
  predicate LegalArg(a: FArg, first: bool) {
    Blank(a.before) && LegalWord(a.word) && LegalRds(a.rds) && (first || a.before != "")
  }

  predicate LegalArgs(args: seq<FArg>, first: bool) {
    args == [] || (LegalArg(args[0], first) && LegalArgs(args[1..], false))
  }

  /** The level at which a form stands: line, background, pipeline, command. */
  function Level(f: Form): nat {
    match f
    case FList(_, _, _) => 0
    case FBack(_, _) => 1
    case FPipe(_, _, _) => 2
    case _ => 3
  }

  /** At most nine arguments; what stands at a lower level is in parentheses. */
  predicate Legal(f: Form) {
    match f
    case FExec(rds, args) => LegalRds(rds) && LegalArgs(args, rds == []) && |args| < 10
    case FBlock(b, inside, c, rds) => Blank(b) && Legal(inside) && Blank(c) && LegalRds(rds)
    case FPipe(l, b, r) => Legal(l) && Level(l) == 3 && Blank(b) && Legal(r) && Level(r) >= 2
    case FBack(c, b) => Legal(c) && Level(c) >= 1 && Blank(b)
    case FList(l, b, r) => Legal(l) && Level(l) >= 1 && Blank(b) && Legal(r)
  }

  // ---------------------------------------------------------------- what they mean

  function RdsMean(rds: seq<FRd>): (r: seq<TRd>)
    ensures |r| == |rds|
  {
    if rds == [] then [] else [TRd(rds[0].op != "<", rds[0].file)] + RdsMean(rds[1..])
  }

  function WordsMean(args: seq<FArg>): (r: seq<string>)
    ensures |r| == |args|
  {
    if args == [] then [] else [args[0].word] + WordsMean(args[1..])
  }

  /** The redirections behind the arguments. */
  function ArgRdsMean(args: seq<FArg>): seq<TRd> {
    if args == [] then [] else RdsMean(args[0].rds) + ArgRdsMean(args[1..])
  }

  function TreeOf(f: Form): Tree {
    match f
    case FExec(rds, args) => TWrap(TExec(WordsMean(args)), RdsMean(rds) + ArgRdsMean(args))
    case FBlock(_, inside, _, rds) => TWrap(TreeOf(inside), RdsMean(rds))
    case FPipe(l, _, r) => TPipe(TreeOf(l), TreeOf(r))
    case FBack(c, _) => TBack(TreeOf(c))
    case FList(l, _, r) => TList(TreeOf(l), TreeOf(r))
  }

  /** The text is this command, written in one of its forms and followed by blanks. */
  ghost predicate SpelledBy(s: string, t: Tree, f: Form, b: string) {
    Legal(f) && Blank(b) && s == Write(f) + b && TreeOf(f) == t
  }

  ghost predicate Spells(s: string, t: Tree) {
    exists f, b :: SpelledBy(s, t, f, b)
  }

  /** The text is a command. */
  ghost predicate IsCommand(s: string) {
    exists t :: Spells(s, t)
  }

  // ---------------------------------------------------------------- blanks and tokens

  lemma {:induction false} SkipBlank(b: string, r: string)
    requires Blank(b)
    ensures SkipSpace(b + r) == SkipSpace(r)
  {
    if b == "" {
      assert b + r == r;
    } else {
      assert (b + r)[1..] == b[1..] + r;
      SkipBlank(b[1..], r);
    }
  }

  lemma SkipTwice(s: string)
    ensures SkipSpace(SkipSpace(s)) == SkipSpace(s)
  {
  }

  /** What may follow a word. */
  predicate WordEnd(r: string) {
    r == "" || IsSpace(r[0]) || IsSymbol(r[0])
  }

  lemma {:induction false} SkipWordOver(w: string, r: string)
    requires (forall i :: 0 <= i < |w| ==> !IsSpace(w[i]) && !IsSymbol(w[i])) && WordEnd(r)
    ensures SkipWord(w + r) == r
  {
    if w == "" {
      assert w + r == r;
    } else {
      assert (w + r)[1..] == w[1..] + r;
      SkipWordOver(w[1..], r);
    }
  }

  lemma WordToken(w: string, r: string)
    requires LegalWord(w) && WordEnd(r)
    ensures SkipSpace(w + r) == w + r && w + r != "" && !IsSymbol((w + r)[0]) && (w + r)[0] != '\0'
    ensures GetToken(w + r) == Token('a', w + r, r, SkipSpace(r)) && Text(Word(w + r, r)) == w
  {
    SkipWordOver(w, r);
    assert (w + r)[0] == w[0];
    assert (w + r)[..|w|] == w;
  }

  /** A symbol, with anything behind it that does not make it a `>>`. */
  lemma SymbolToken(c: char, r: string)
    requires IsSymbol(c) && (c == '>' ==> r == "" || r[0] != '>')
    ensures GetToken([c] + r) == Token(c, [c] + r, r, SkipSpace(r)) && SkipSpace([c] + r) == [c] + r
  {
    assert ([c] + r)[1..] == r;
  }

  lemma AppendToken(r: string)
    ensures GetToken(">>" + r) == Token('+', ">>" + r, r, SkipSpace(r)) && SkipSpace(">>" + r) == ">>" + r
  {
    assert (">>" + r)[0] == '>' && (">>" + r)[1..] == ">" + r && (">>" + r)[2..] == r && (">" + r)[0] == '>';
  }

  lemma TokenSkips(s: string)
    ensures GetToken(SkipSpace(s)) == GetToken(s)
  {
  }

  lemma Regroup<T>(a: seq<T>, b: seq<T>, c: seq<T>)
    ensures a + b + c == a + (b + c)
  {
  }
}
