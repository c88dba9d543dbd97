/** A written command parses to what it means. */
module ShellBack {
  import opened ShellSpec
  import opened ShellForms

  /** The text ends or goes on with one of the characters that end a command of level k. */
  predicate Stop(k: nat, r: string) {
    r == "" || r[0] == ')' || (k >= 1 && r[0] == ';') || (k >= 2 && r[0] == '&') || (k >= 3 && r[0] == '|')
  }

  /** That is so behind blanks. */
  predicate Ends(k: nat, r: string) {
    Stop(k, SkipSpace(r))
  }

  lemma EndsWord(k: nat, r: string)
    requires Ends(k, r)
    ensures WordEnd(r) && Ends(3, r)
  {
  }

  lemma SymbolEnds(k: nat, b: string, c: char, r: string)
    requires Blank(b) && Stop(k, [c] + r) && IsSymbol(c)
    ensures Ends(k, b + ([c] + r)) && SkipSpace(b + ([c] + r)) == [c] + r
  {
    SkipBlank(b, [c] + r);
  }

  // ---------------------------------------------------------------- redirections

  function RdMeaning(rd: Rd): (r: TRd) {
    TRd(rd.out, Text(rd.file))
  }

  /** The redirections read stand for those meant. */
  ghost predicate Reads(rds: seq<Rd>, want: seq<TRd>) {
    |rds| == |want| && forall i :: 0 <= i < |rds| ==> RdMeaning(rds[i]) == want[i]
  }

  lemma {:induction false} WrapMeaning(c: Cmd, rds: seq<Rd>, want: seq<TRd>)
    requires Reads(rds, want)
    ensures Meaning(Wrap(c, rds)) == TWrap(Meaning(c), want)
  {
    if rds != [] {
      WrapMeaning(c, rds[..|rds| - 1], want[..|want| - 1]);
      assert RdMeaning(rds[|rds| - 1]) == want[|want| - 1];
    }
  }

  lemma ReadsMore(acc: seq<Rd>, done: seq<TRd>, rd: Rd, want: TRd)
    requires Reads(acc, done) && RdMeaning(rd) == want
    ensures Reads(acc + [rd], done + [want])
  {
  }

  lemma RedirsSkip(acc: seq<Rd>, s: string)
    ensures ParseRedirs(acc, SkipSpace(s)) == ParseRedirs(acc, s)
  {
    SkipTwice(s);
  }

  /** The operator of a redirection, read off the front of what is behind the blanks. */
  lemma Operator(op: string, r: string)
    requires op == "<" || op == ">" || op == ">>"
    requires r != "" && r[0] != '>'
    ensures var s := op + r; var t := GetToken(s);
      && s != "" && (s[0] == '<' || s[0] == '>') && SkipSpace(s) == s
      && t.rest == SkipSpace(r) && (t.tok != '<' <==> op != "<")
  {
    if op == ">>" {
      AppendToken(r);
    } else if op == ">" {
      SymbolToken('>', r);
    } else {
      SymbolToken('<', r);
    }
  }

  lemma BlankThen(b: string, w: string, r: string)
    requires Blank(b) && LegalWord(w)
    ensures b + (w + r) != "" && (b + (w + r))[0] != '>'
  {
    if b == "" {
      assert b + (w + r) == w + r && (w + r)[0] == w[0];
    } else {
      assert (b + (w + r))[0] == b[0];
    }
  }

  /** One redirection read off the front. */
  lemma OneRedir(acc: seq<Rd>, rd: FRd, more: string)
    requires LegalRd(rd) && WordEnd(more)
    ensures ParseRedirs(acc, WriteRd(rd) + more) ==
      ParseRedirs(acc + [Rd(rd.op != "<", Word(rd.file + more, more))], more)
    ensures Text(Word(rd.file + more, more)) == rd.file
  {
    var tail := rd.after + (rd.file + more);
    assert WriteRd(rd) + more == rd.before + (rd.op + tail);
    SkipBlank(rd.before, rd.op + tail);
    BlankThen(rd.after, rd.file, more);
    Operator(rd.op, tail);
    SkipBlank(rd.after, rd.file + more);
    WordToken(rd.file, more);
    TokenSkips(tail);
    RedirsSkip(acc + [Rd(rd.op != "<", Word(rd.file + more, more))], more);
  }

  lemma RedirsStart(rds: seq<FRd>, r: string)
    requires LegalRds(rds) && WordEnd(r)
    ensures WordEnd(WriteRds(rds) + r)
  {
    if rds == [] {
      assert WriteRds(rds) + r == r;
    } else {
      assert LegalRd(rds[0]);
      var s := WriteRds(rds) + r;
      if rds[0].before == "" {
        assert s[0] == rds[0].op[0];
      } else {
        assert s[0] == rds[0].before[0];
      }
    }
  }

  lemma {:induction false} RedirsBack(acc: seq<Rd>, done: seq<TRd>, rds: seq<FRd>, r: string) returns (all: seq<Rd>)
    requires LegalRds(rds) && Reads(acc, done) && (rds != [] ==> WordEnd(r))
    requires var q := SkipSpace(r); q == "" || (q[0] != '<' && q[0] != '>')
    ensures ParseRedirs(acc, WriteRds(rds) + r) == Ok(all, SkipSpace(r)) && Reads(all, done + RdsMean(rds))
    decreases |rds|
  {
    if rds == [] {
      assert WriteRds(rds) + r == r && done + RdsMean(rds) == done;
      return acc;
    }
    var rd, more := rds[0], WriteRds(rds[1..]) + r;
    assert LegalRd(rd);
    FirstRd(rds, r, done);
    RedirsStart(rds[1..], r);
    OneRedir(acc, rd, more);
    var read := Rd(rd.op != "<", Word(rd.file + more, more));
    ReadsMore(acc, done, read, TRd(rd.op != "<", rd.file));
    all := RedirsBack(acc + [read], done + [TRd(rd.op != "<", rd.file)], rds[1..], r);
  }

  /** Redirections as a first one and the others. */
  lemma {:induction false} FirstRd(rds: seq<FRd>, r: string, done: seq<TRd>)
    requires rds != []
    ensures WriteRds(rds) + r == WriteRd(rds[0]) + (WriteRds(rds[1..]) + r)
    ensures done + RdsMean(rds) == done + [TRd(rds[0].op != "<", rds[0].file)] + RdsMean(rds[1..])
  {
    Regroup(WriteRd(rds[0]), WriteRds(rds[1..]), r);
    assert RdsMean(rds) == [TRd(rds[0].op != "<", rds[0].file)] + RdsMean(rds[1..]);
  }

  // ---------------------------------------------------------------- simple commands

  lemma TextsMore(ws: seq<Word>, w: Word)
    ensures Texts(ws + [w]) == Texts(ws) + [Text(w)]
  {
    assert (ws + [w])[..|ws|] == ws;
  }

  lemma ArgsSkip(argv: seq<Word>, rds: seq<Rd>, s: string)
    ensures ParseArgs(argv, rds, SkipSpace(s)) == ParseArgs(argv, rds, s)
  {
    SkipTwice(s);
  }

  /** At the end of a simple command the argument loop stops. */
  lemma ArgsEnd(argv: seq<Word>, rds: seq<Rd>, r: string)
    requires Ends(3, r)
    ensures ParseArgs(argv, rds, r) == Ok(Wrap(Exec(argv), rds), SkipSpace(r))
  {
  }

  lemma {:induction false} ArgsText(args: seq<FArg>, r: string)
    requires args != []
    ensures WriteArgs(args) + r ==
      args[0].before + (args[0].word + (WriteRds(args[0].rds) + (WriteArgs(args[1..]) + r)))
  {
    var a, rest := args[0], WriteArgs(args[1..]);
    assert WriteArgs(args) == a.before + (a.word + (WriteRds(a.rds) + rest));
    assert WriteRds(a.rds) + rest + r == WriteRds(a.rds) + (rest + r);
  }

  lemma WordFirst(b: string, w: string, tail: string)
    requires Blank(b) && LegalWord(w)
    ensures var q := SkipSpace(b + (w + tail)); q != "" && q[0] == w[0] && (b != "" ==> WordEnd(b + (w + tail)))
  {
    SkipBlank(b, w + tail);
    assert (w + tail)[0] == w[0];
    assert b != "" ==> (b + (w + tail))[0] == b[0];
  }

  /** How what is left of a simple command starts. */
  lemma ArgsStart(args: seq<FArg>, first: bool, r: string)
    requires LegalArgs(args, first) && Ends(3, r)
    ensures var s := WriteArgs(args) + r; var q := SkipSpace(s);
      (!first ==> WordEnd(s)) && (q == "" || (q[0] != '<' && q[0] != '>' && q[0] != '('))
  {
    if args == [] {
      assert WriteArgs(args) + r == r;
    } else {
      ArgsText(args, r);
      WordFirst(args[0].before, args[0].word, WriteRds(args[0].rds) + (WriteArgs(args[1..]) + r));
    }
  }

  /** One argument with its redirections read off the front. */
  lemma OneArg(argv: seq<Word>, acc: seq<Rd>, done: seq<TRd>, a: FArg, first: bool, more: string) returns (all: seq<Rd>)
    requires LegalArg(a, first) && |argv| + 1 < MAXARGS && Reads(acc, done) && WordEnd(more)
    requires var q := SkipSpace(more); q == "" || (q[0] != '<' && q[0] != '>')
    ensures var tail := WriteRds(a.rds) + more; var w := Word(a.word + tail, tail);
      && ParseArgs(argv, acc, a.before + (a.word + tail)) == ParseArgs(argv + [w], all, more)
      && Text(w) == a.word && Reads(all, done + RdsMean(a.rds))
  {
    var tail := WriteRds(a.rds) + more;
    var s := a.word + tail;
    RedirsStart(a.rds, more);
    SkipBlank(a.before, s);
    WordToken(a.word, tail);
    all := RedirsBack(acc, done, a.rds, more);
    RedirsSkip(acc, tail);
    ArgsSkip(argv + [Word(s, tail)], all, more);
    assert !Peek(a.before + s, "|)&;");
  }

  /** What is meant when one argument has been read and the others follow. */
  lemma {:induction false} MeansMore(argv: seq<Word>, w: Word, done: seq<TRd>, args: seq<FArg>)
    requires args != [] && Text(w) == args[0].word
    ensures Texts(argv + [w]) + WordsMean(args[1..]) == Texts(argv) + WordsMean(args)
    ensures done + RdsMean(args[0].rds) + ArgRdsMean(args[1..]) == done + ArgRdsMean(args)
  {
    TextsMore(argv, w);
    assert WordsMean(args) == [args[0].word] + WordsMean(args[1..]);
    assert ArgRdsMean(args) == RdsMean(args[0].rds) + ArgRdsMean(args[1..]);
  }

  lemma NoArgsBack(argv: seq<Word>, acc: seq<Rd>, done: seq<TRd>, r: string)
    requires Reads(acc, done) && Ends(3, r)
    ensures var p := ParseArgs(argv, acc, WriteArgs([]) + r);
      p.Ok? && p.rest == SkipSpace(r) && Meaning(p.value) == TWrap(TExec(Texts(argv) + []), done + [])
  {
    assert WriteArgs([]) + r == r && done + [] == done && Texts(argv) + [] == Texts(argv);
    ArgsEnd(argv, acc, r);
    WrapMeaning(Exec(argv), acc, done);
  }

  lemma {:induction false} ArgsBack(argv: seq<Word>, acc: seq<Rd>, done: seq<TRd>, args: seq<FArg>, first: bool,
                                    r: string)
    requires LegalArgs(args, first) && |argv| + |args| < MAXARGS && Reads(acc, done) && Ends(3, r)
    ensures var p := ParseArgs(argv, acc, WriteArgs(args) + r);
      && p.Ok? && p.rest == SkipSpace(r)
      && Meaning(p.value) == TWrap(TExec(Texts(argv) + WordsMean(args)), done + ArgRdsMean(args))
    decreases |args|
  {
    if args == [] {
      NoArgsBack(argv, acc, done, r);
    } else {
      var a, more := args[0], WriteArgs(args[1..]) + r;
      var tail := WriteRds(a.rds) + more;
      ArgsText(args, r);
      ArgsStart(args[1..], false, r);
      var all := OneArg(argv, acc, done, a, first, more);
      var w := Word(a.word + tail, tail);
      MeansMore(argv, w, done, args);
      ArgsBack(argv + [w], all, done + RdsMean(a.rds), args[1..], false, r);
    }
  }

  lemma RedirsFirst(rds: seq<FRd>, more: string)
    requires rds != [] && LegalRds(rds)
    ensures !Peek(WriteRds(rds) + more, "(")
  {
    var rd := rds[0];
    assert LegalRd(rd);
    var tail := rd.after + rd.file + WriteRds(rds[1..]) + more;
    assert WriteRds(rds) + more == rd.before + (rd.op + tail);
    SkipBlank(rd.before, rd.op + tail);
    assert (rd.op + tail)[0] == rd.op[0];
  }

  /** parseexec on a text that does not open a block: redirections, then arguments. */
  lemma ExecParts(s: string, all: seq<Rd>, more: string)
    requires !Peek(s, "(") && ParseRedirs([], s) == Ok(all, SkipSpace(more))
    ensures ParseExec(s) == ParseArgs([], all, more)
  {
    RedirsSkip([], s);
    ArgsSkip([], all, more);
  }

  /** A simple command. */
  lemma {:induction false} SimpleBack(rds: seq<FRd>, args: seq<FArg>, r: string)
    requires LegalRds(rds) && LegalArgs(args, rds == []) && |args| < MAXARGS && Ends(3, r)
    ensures var p := ParseExec(WriteRds(rds) + (WriteArgs(args) + r));
      && p.Ok? && p.rest == SkipSpace(r)
      && Meaning(p.value) == TWrap(TExec(WordsMean(args)), RdsMean(rds) + ArgRdsMean(args))
  {
    var more := WriteArgs(args) + r;
    ArgsStart(args, rds == [], r);
    var all := FrontBack(rds, more);
    ArgsBack([], all, RdsMean(rds), args, rds == [], r);
    assert Texts([]) + WordsMean(args) == WordsMean(args);
  }

  /** The redirections that a simple command starts with. */
  lemma FrontBack(rds: seq<FRd>, more: string) returns (all: seq<Rd>)
    requires LegalRds(rds) && (rds != [] ==> WordEnd(more))
    requires var q := SkipSpace(more); q == "" || (q[0] != '<' && q[0] != '>' && q[0] != '(')
    ensures ParseExec(WriteRds(rds) + more) == ParseArgs([], all, more) && Reads(all, RdsMean(rds))
  {
    if rds == [] {
      assert WriteRds(rds) + more == more;
    } else {
      RedirsFirst(rds, more);
    }
    all := RedirsBack([], [], rds, more);
    assert [] + RdsMean(rds) == RdsMean(rds);
    ExecParts(WriteRds(rds) + more, all, more);
  }

  // ---------------------------------------------------------------- the grammar

  lemma LineSkip(s: string)
    ensures ParseExec(SkipSpace(s)) == ParseExec(s)
    ensures ParsePipe(SkipSpace(s)) == ParsePipe(s) && ParseLine(SkipSpace(s)) == ParseLine(s)
  {
    SkipTwice(s);
  }

  lemma BlockStep(b: string, inside: string, rest: string, all: seq<Rd>, r: string)
    requires Blank(b) && ParseLine(inside).Ok? && ParseLine(inside).rest == ")" + rest
    requires ParseRedirs([], rest) == Ok(all, r)
    ensures ParseExec(b + ("(" + inside)) == Ok(Wrap(ParseLine(inside).value, all), r)
  {
    SkipBlank(b, "(" + inside);
    SymbolToken('(', inside);
    SymbolToken(')', rest);
    LineSkip(inside);
    RedirsSkip([], rest);
  }

  lemma {:induction false} ExecBack(f: Form, r: string)
    requires Legal(f) && Level(f) == 3 && Ends(3, r)
    ensures var p := ParseExec(Write(f) + r); p.Ok? && p.rest == SkipSpace(r) && Meaning(p.value) == TreeOf(f)
    decreases f, 0
  {
    if f.FExec? {
      Regroup(WriteRds(f.rds), WriteArgs(f.args), r);
      SimpleBack(f.rds, f.args, r);
    } else {
      var rest := WriteRds(f.rds) + r;
      var close := f.after + (")" + rest);
      var inside := Write(f.inside) + close;
      assert Write(f) + r == f.before + ("(" + inside);
      SymbolEnds(0, f.after, ')', rest);
      LineBack(f.inside, close);
      EndsWord(3, r);
      var all := RedirsBack([], [], f.rds, r);
      assert [] + RdsMean(f.rds) == RdsMean(f.rds);
      BlockStep(f.before, inside, rest, all, SkipSpace(r));
      WrapMeaning(ParseLine(inside).value, all, RdsMean(f.rds));
    }
  }

  lemma PipeStep(s: string, right: string)
    requires ParseExec(s).Ok? && ParseExec(s).rest == "|" + right && ParsePipe(right).Ok?
    ensures ParsePipe(s) == Ok(Pipe(ParseExec(s).value, ParsePipe(right).value), ParsePipe(right).rest)
  {
    SymbolToken('|', right);
    LineSkip(right);
  }

  lemma PipeStop(s: string, r: string)
    requires ParseExec(s).Ok? && ParseExec(s).rest == SkipSpace(r) && Ends(2, r)
    ensures ParsePipe(s) == Ok(ParseExec(s).value, SkipSpace(r))
  {
    SkipTwice(r);
  }

  lemma {:induction false} PipeBack(f: Form, r: string)
    requires Legal(f) && Level(f) >= 2 && Ends(2, r)
    ensures var p := ParsePipe(Write(f) + r); p.Ok? && p.rest == SkipSpace(r) && Meaning(p.value) == TreeOf(f)
    decreases f, 1
  {
    var s := Write(f) + r;
    if f.FPipe? {
      var right := Write(f.right) + r;
      var rest := f.blank + ("|" + right);
      assert s == Write(f.left) + rest;
      SymbolEnds(3, f.blank, '|', right);
      ExecBack(f.left, rest);
      PipeBack(f.right, r);
      PipeStep(s, right);
    } else {
      ExecBack(f, r);
      PipeStop(s, r);
    }
  }

  /** The text parses as a pipeline, behind which parseline's loop over ampersands is where it would be
      after c, with r still to come. */
  ghost predicate LoopsTo(text: string, c: Cmd, r: string) {
    var p := ParsePipe(text);
    p.Ok? && Backs(p.value, p.rest) == Backs(c, r)
  }

  lemma BacksSkip(c: Cmd, s: string)
    ensures Backs(c, SkipSpace(s)) == Backs(c, s)
  {
    SkipTwice(s);
  }

  lemma BacksStep(d: Cmd, b: string, r: string)
    requires Blank(b)
    ensures Backs(d, b + ("&" + r)) == Backs(Back(d), r)
  {
    SkipBlank(b, "&" + r);
    SymbolToken('&', r);
    BacksSkip(Back(d), r);
    TokenSkips(b + ("&" + r));
  }

  /** A pipeline with ampersands behind it: when parseline's loop has taken them all, it is where
      it would be after any command with this meaning. */
  lemma {:induction false} BackBack(f: Form, r: string) returns (c: Cmd)
    requires Legal(f) && Level(f) >= 1 && Ends(2, r)
    ensures LoopsTo(Write(f) + r, c, r) && Meaning(c) == TreeOf(f)
    decreases f, 3
  {
    if f.FBack? {
      var rest := f.blank + ("&" + r);
      assert Write(f) + r == Write(f.cmd) + rest;
      SymbolEnds(2, f.blank, '&', r);
      var d := BackBack(f.cmd, rest);
      BacksStep(d, f.blank, r);
      c := Back(d);
    } else {
      c := LastBack(f, r);
    }
  }

  lemma {:induction false} LastBack(f: Form, r: string) returns (c: Cmd)
    requires Legal(f) && Level(f) >= 2 && Ends(2, r)
    ensures LoopsTo(Write(f) + r, c, r) && Meaning(c) == TreeOf(f)
    decreases f, 2
  {
    PipeBack(f, r);
    c := ParsePipe(Write(f) + r).value;
    BacksSkip(c, r);
  }

  lemma {:induction false} LineStep(s: string, c: Cmd, b: string, right: string)
    requires Blank(b) && LoopsTo(s, c, b + (";" + right)) && ParseLine(right).Ok?
    ensures ParseLine(s) == Ok(List(c, ParseLine(right).value), ParseLine(right).rest)
  {
    SkipBlank(b, ";" + right);
    SymbolToken(';', right);
    LineSkip(right);
  }

  lemma LineStop(s: string, c: Cmd, r: string)
    requires LoopsTo(s, c, r) && Ends(0, r)
    ensures ParseLine(s) == Ok(c, SkipSpace(r))
  {
    SkipTwice(r);
  }

  /** A form read back: the parse has come to the blanks behind it, with its meaning. */
  ghost predicate ReadBack(p: Res<Cmd>, f: Form, r: string) {
    p.Ok? && p.rest == SkipSpace(r) && Meaning(p.value) == TreeOf(f)
  }

  lemma {:induction false} LineBack(f: Form, r: string)
    requires Legal(f) && Ends(0, r)
    ensures ReadBack(ParseLine(Write(f) + r), f, r)
    decreases f, 4
  {
    if f.FList? {
      var right := Write(f.right) + r;
      var rest := f.blank + (";" + right);
      assert Write(f) + r == Write(f.left) + rest;
      SymbolEnds(2, f.blank, ';', right);
      var c := BackBack(f.left, rest);
      LineBack(f.right, r);
      ListRead(Write(f) + r, f, r, c, right);
    } else {
      var c := BackBack(f, r);
      LineStop(Write(f) + r, c, r);
    }
  }

  lemma {:induction false} ListRead(s: string, f: Form, r: string, c: Cmd, right: string)
    requires f.FList? && Blank(f.blank) && LoopsTo(s, c, f.blank + (";" + right)) && Meaning(c) == TreeOf(f.left)
    requires ReadBack(ParseLine(right), f.right, r)
    ensures ReadBack(ParseLine(s), f, r)
  {
    LineStep(s, c, f.blank, right);
  }

  /** However a command is written, it parses, and to what it means. */
  lemma FormParses(f: Form, b: string)
    requires Legal(f) && Blank(b)
    ensures ParseCmd(Write(f) + b).Ok? && Meaning(ParseCmd(Write(f) + b).value) == TreeOf(f)
  {
    SkipBlank(b, "");
    assert b + "" == b;
    LineBack(f, b);
    SkipTwice(b);
  }

  /** A text is at most one command. */
  lemma Unambiguous(s: string, t: Tree, u: Tree)
    requires Spells(s, t) && Spells(s, u)
    ensures t == u
  {
    var f, b :| SpelledBy(s, t, f, b);
    var g, d :| SpelledBy(s, u, g, d);
    FormParses(f, b);
    FormParses(g, d);
  }
}
