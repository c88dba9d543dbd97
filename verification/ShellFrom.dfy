/** Whatever parses is a written command. */
module ShellFrom {
  import opened ShellSpec
  import opened ShellForms
  import opened ShellBack

  predicate NoNul(s: string) {
    forall i :: 0 <= i < |s| ==> s[i] != '\0'
  }

  lemma NoNulParts(a: string, b: string)
    ensures NoNul(a + b) ==> NoNul(a) && NoNul(b)
  {
    if NoNul(a + b) {
      assert forall i :: 0 <= i < |a| ==> (a + b)[i] == a[i];
      assert forall i :: 0 <= i < |b| ==> (a + b)[|a| + i] == b[i];
    }
  }

  /** A text is blanks and what SkipSpace leaves of it. */
  lemma {:induction false} BlanksOff(s: string) returns (b: string)
    ensures Blank(b) && s == b + SkipSpace(s)
  {
    if s != "" && IsSpace(s[0]) {
      var c := BlanksOff(s[1..]);
      b := [s[0]] + c;
    } else {
      b := "";
    }
  }

  lemma {:induction false} WordOff(s: string) returns (w: string)
    requires NoNul(s)
    ensures s == w + SkipWord(s) && WordEnd(SkipWord(s))
    ensures forall i :: 0 <= i < |w| ==> w[i] != '\0' && !IsSpace(w[i]) && !IsSymbol(w[i])
    ensures s != "" && !WordEnd(s) ==> w != ""
  {
    if s != "" && !IsSpace(s[0]) && !IsSymbol(s[0]) {
      var v := WordOff(s[1..]);
      w := [s[0]] + v;
    } else {
      w := "";
    }
  }

  lemma Kinds(c: char)
    ensures IsSpace(c) <==> c in " \t\r\n\U{0B}"
    ensures IsSymbol(c) <==> c in "<|>&;()"
  {
  }

  lemma WordLegal(w: string)
    requires w != "" && forall i :: 0 <= i < |w| ==> w[i] != '\0' && !IsSpace(w[i]) && !IsSymbol(w[i])
    ensures LegalWord(w)
  {
    forall i | 0 <= i < |w| ensures w[i] !in " \t\r\n\U{0B}" && w[i] !in "<|>&;()" {
      Kinds(w[i]);
    }
  }

  /** What a word token is made of. */
  lemma TokenIsWord(s: string)
    requires GetToken(s).tok == 'a'
    ensures var q := SkipSpace(s);
      && q != "" && q[0] != '\0' && !WordEnd(q)
      && GetToken(s) == Token('a', q, SkipWord(q), SkipSpace(SkipWord(q)))
  {
  }

  /** A word token, with the blanks before it. */
  lemma WordFrom(s: string) returns (b: string, w: string, r: string)
    requires NoNul(s) && GetToken(s).tok == 'a'
    ensures Blank(b) && LegalWord(w) && WordEnd(r) && s == b + (w + r) && |r| < |s|
    ensures var t := GetToken(s); t.eq == r && t.rest == SkipSpace(r) && Text(Word(t.q, t.eq)) == w && t.q == w + r
  {
    TokenIsWord(s);
    b := BlanksOff(s);
    var q := SkipSpace(s);
    NoNulParts(b, q);
    w := WordOff(q);
    r := SkipWord(q);
    WordLegal(w);
    TextIs(w, r);
  }

  lemma TextIs(w: string, r: string)
    ensures Text(Word(w + r, r)) == w
  {
    assert (w + r)[..|w|] == w;
  }

  /** The operator of a redirection at the front of a text. */
  lemma OperatorAt(q: string) returns (op: string, r: string)
    requires q != "" && (q[0] == '<' || q[0] == '>')
    ensures (op == "<" || op == ">" || op == ">>") && q == op + r && |r| < |q|
    ensures var t := GetToken(q); t.rest == SkipSpace(r) && (t.tok != '<' <==> op != "<")
  {
    if q[0] == '<' {
      op, r := "<", q[1..];
      assert q == op + r;
      SymbolToken('<', r);
    } else if |q| > 1 && q[1] == '>' {
      op, r := ">>", q[2..];
      assert q == op + r;
      AppendToken(r);
    } else {
      op, r := ">", q[1..];
      assert q == op + r;
      SymbolToken('>', r);
      assert op[0] != "<"[0];
    }
  }

  /** The same, with the blanks before it. */
  lemma OperatorFrom(s: string) returns (b: string, op: string, r: string)
    requires Peek(s, "<>")
    ensures Blank(b) && (op == "<" || op == ">" || op == ">>") && s == b + (op + r) && |r| < |s|
    ensures var t := GetToken(SkipSpace(s)); t.rest == SkipSpace(r) && (t.tok != '<' <==> op != "<")
  {
    b := BlanksOff(s);
    op, r := OperatorAt(SkipSpace(s));
  }

  /** A text that goes on with a symbol. */
  lemma SymbolFrom(s: string, c: char) returns (r: string)
    requires Peek(s, [c]) && SkipSpace(s) == s && IsSymbol(c) && c != '>'
    ensures s == [c] + r && GetToken(s).rest == SkipSpace(r)
  {
    r := s[1..];
    assert s == [c] + r;
    SymbolToken(c, r);
  }

  // ---------------------------------------------------------------- redirections

  /** The redirections rds, blanks and the rest of the parse p are the text, and v is what was parsed of them. */
  ghost predicate RdsFrom(acc: seq<Rd>, s: string, p: Res<seq<Rd>>, rds: seq<FRd>, v: seq<Rd>, b: string) {
    && p.Ok? && p.value == acc + v && Reads(v, RdsMean(rds)) && LegalRds(rds) && Blank(b) && SkipSpace(p.rest) == p.rest
    && s == WriteRds(rds) + (b + p.rest) && (rds != [] ==> WordEnd(b + p.rest))
  }

  lemma NoRds(acc: seq<Rd>, s: string) returns (b: string)
    requires !Peek(s, "<>")
    ensures RdsFrom(acc, s, ParseRedirs(acc, s), [], [], b)
  {
    SkipTwice(s);
    b := BlanksOff(s);
    assert acc + [] == acc && WriteRds([]) + (b + SkipSpace(s)) == s;
  }

  /** One redirection in front of others. */
  lemma {:induction false} MoreRds(acc: seq<Rd>, s: string, p: Res<seq<Rd>>, rd: FRd, read: Rd, r: string,
                                   rds: seq<FRd>, v: seq<Rd>, b: string)
    requires RdsFrom(acc + [read], r, p, rds, v, b) && LegalRd(rd) && RdMeaning(read) == TRd(rd.op != "<", rd.file)
    requires s == WriteRd(rd) + r && WordEnd(r)
    ensures RdsFrom(acc, s, p, [rd] + rds, [read] + v, b)
  {
    var more := b + p.rest;
    ConsRds(rd, rds, more);
    Regroup(acc, [read], v);
    ConsMean(rd, read, rds, v);
    if rds == [] {
      assert WriteRds(rds) + more == more;
    }
  }

  lemma {:induction false} ConsMean(rd: FRd, read: Rd, rds: seq<FRd>, v: seq<Rd>)
    requires RdMeaning(read) == TRd(rd.op != "<", rd.file) && Reads(v, RdsMean(rds))
    ensures Reads([read] + v, RdsMean([rd] + rds))
  {
    ReadsJoin([read], [RdMeaning(read)], v, RdsMean(rds));
    assert ([rd] + rds)[1..] == rds;
  }

  lemma {:induction false} ConsRds(rd: FRd, rds: seq<FRd>, more: string)
    ensures WriteRds([rd] + rds) + more == WriteRd(rd) + (WriteRds(rds) + more)
    ensures RdsMean([rd] + rds) == [TRd(rd.op != "<", rd.file)] + RdsMean(rds)
    ensures LegalRd(rd) && LegalRds(rds) ==> LegalRds([rd] + rds)
  {
    assert ([rd] + rds)[1..] == rds;
    Regroup(WriteRd(rd), WriteRds(rds), more);
  }

  lemma {:induction false} RedirsFrom(acc: seq<Rd>, s: string) returns (rds: seq<FRd>, v: seq<Rd>, b: string)
    requires NoNul(s) && ParseRedirs(acc, s).Ok?
    ensures RdsFrom(acc, s, ParseRedirs(acc, s), rds, v, b)
    decreases |s|
  {
    if !Peek(s, "<>") {
      rds, v := [], [];
      b := NoRds(acc, s);
    } else {
      var rd, read, r := RedirFrom(acc, s);
      rds, v, b := RedirsFrom(acc + [read], r);
      MoreRds(acc, s, ParseRedirs(acc, s), rd, read, r, rds, v, b);
      rds, v := [rd] + rds, [read] + v;
    }
  }

  /** One redirection, and what is left to parse. */
  lemma {:induction false} RedirFrom(acc: seq<Rd>, s: string) returns (rd: FRd, read: Rd, r: string)
    requires NoNul(s) && ParseRedirs(acc, s).Ok? && Peek(s, "<>")
    ensures LegalRd(rd) && RdMeaning(read) == TRd(rd.op != "<", rd.file) && s == WriteRd(rd) + r && WordEnd(r)
    ensures NoNul(r) && |r| < |s| && ParseRedirs(acc, s) == ParseRedirs(acc + [read], r)
  {
    var b1, op, x := OperatorFrom(s);
    var b2, file, r' := FileFrom(acc, s, b1, op, x);
    r := r';
    rd, read := FRd(b1, op, b2, file), Rd(op != "<", Word(file + r, r));
    RdText(rd, r);
  }

  lemma RdText(rd: FRd, more: string)
    ensures WriteRd(rd) + more == rd.before + (rd.op + (rd.after + (rd.file + more)))
  {
  }

  /** The file of a redirection, and what is left to parse. */
  lemma FileFrom(acc: seq<Rd>, s: string, b1: string, op: string, x: string)
    returns (b2: string, file: string, r: string)
    requires NoNul(s) && ParseRedirs(acc, s).Ok? && Peek(s, "<>") && s == b1 + (op + x)
    requires var t := GetToken(SkipSpace(s)); t.rest == SkipSpace(x) && (t.tok != '<' <==> op != "<")
    ensures Blank(b2) && LegalWord(file) && x == b2 + (file + r) && WordEnd(r) && NoNul(r) && |r| <= |x|
    ensures ParseRedirs(acc, s) == ParseRedirs(acc + [Rd(op != "<", Word(file + r, r))], r)
    ensures Text(Word(file + r, r)) == file
  {
    NoNulParts(b1, op + x);
    NoNulParts(op, x);
    TokenSkips(x);
    b2, file, r := WordFrom(x);
    NoNulParts(b2, file + r);
    NoNulParts(file, r);
    RedirsSkip(acc + [Rd(op != "<", Word(file + r, r))], r);
  }

  // ---------------------------------------------------------------- simple commands

  lemma {:induction false} ConsArgs(a: FArg, args: seq<FArg>, more: string)
    ensures WriteArgs([a] + args) + more == a.before + (a.word + (WriteRds(a.rds) + (WriteArgs(args) + more)))
    ensures WordsMean([a] + args) == [a.word] + WordsMean(args)
    ensures ArgRdsMean([a] + args) == RdsMean(a.rds) + ArgRdsMean(args)
  {
    assert ([a] + args)[1..] == args;
    ArgsText([a] + args, more);
  }

  lemma ConsLegal(a: FArg, args: seq<FArg>, first: bool)
    requires LegalArg(a, first) && LegalArgs(args, false)
    ensures LegalArgs([a] + args, first)
  {
    assert ([a] + args)[1..] == args;
  }

  lemma {:induction false} TextsCons(w: Word, ws: seq<Word>)
    ensures Texts([w] + ws) == [Text(w)] + Texts(ws)
  {
    if ws == [] {
      assert [w] + ws == [w] && [w][..0] == [];
    } else {
      var n := |ws| - 1;
      assert ([w] + ws)[..|ws|] == [w] + ws[..n];
      TextsCons(w, ws[..n]);
    }
  }

  /** The word of an argument, and the parse behind it. */
  lemma ArgWordFrom(argv: seq<Word>, acc: seq<Rd>, s: string) returns (b: string, word: string, r: string)
    requires NoNul(s) && ParseArgs(argv, acc, s).Ok? && !Peek(s, "|)&;") && SkipSpace(s) != ""
    ensures Blank(b) && LegalWord(word) && WordEnd(r) && NoNul(r) && s == b + (word + r) && |r| < |s|
    ensures |argv| + 1 < MAXARGS && Text(Word(word + r, r)) == word && ParseRedirs(acc, r).Ok?
    ensures var more := ParseRedirs(acc, r);
      ParseArgs(argv, acc, s) == ParseArgs(argv + [Word(word + r, r)], more.value, more.rest)
  {
    TokenSkips(s);
    NotEnd(s);
    b, word, r := WordFrom(s);
    NoNulParts(b, word + r);
    NoNulParts(word, r);
    RedirsSkip(acc, r);
  }

  lemma NotEnd(s: string)
    requires NoNul(s) && SkipSpace(s) != ""
    ensures GetToken(s).tok != '\0'
  {
    var b := BlanksOff(s);
    NoNulParts(b, SkipSpace(s));
  }

  /** One argument with its redirections, and what is left to parse. */
  lemma ArgFrom(argv: seq<Word>, acc: seq<Rd>, s: string, first: bool)
    returns (a: FArg, w: Word, v: seq<Rd>, more: string)
    requires NoNul(s) && ParseArgs(argv, acc, s).Ok? && (!first ==> WordEnd(s))
    requires !Peek(s, "|)&;") && SkipSpace(s) != ""
    ensures LegalArg(a, first) && |argv| + 1 < MAXARGS && Text(w) == a.word && Reads(v, RdsMean(a.rds))
    ensures s == a.before + (a.word + (WriteRds(a.rds) + more)) && WordEnd(more) && NoNul(more) && |more| < |s|
    ensures ParseArgs(argv, acc, s) == ParseArgs(argv + [w], acc + v, more)
  {
    var b, word, r := ArgWordFrom(argv, acc, s);
    w := Word(word + r, r);
    var rds, read, c := RedirsFrom(acc, r);
    var rest := ParseRedirs(acc, r).rest;
    more, v, a := c + rest, read, FArg(b, word, rds);
    NoNulParts(WriteRds(rds), more);
    SkipBlank(c, rest);
    ArgsSkip(argv + [w], acc + v, more);
    assert rds == [] ==> WriteRds(rds) + more == more;
    assert b == "" ==> s == word + r && s[0] == word[0];
    WordStarts(word);
  }

  lemma WordStarts(w: string)
    requires LegalWord(w)
    ensures !IsSpace(w[0]) && !IsSymbol(w[0])
  {
    Kinds(w[0]);
  }

  /** The arguments, blanks and the rest of the parse p are the text; ws and v are what was parsed of them. */
  ghost predicate ArgsAre(argv: seq<Word>, acc: seq<Rd>, s: string, first: bool, p: Res<Cmd>, args: seq<FArg>,
                          ws: seq<Word>, v: seq<Rd>, b: string) {
    && p.Ok? && p.value == Wrap(Exec(argv + ws), acc + v) && SkipSpace(p.rest) == p.rest
    && LegalArgs(args, first) && (args != [] ==> |argv| + |args| < MAXARGS) && Blank(b)
    && Texts(ws) == WordsMean(args) && Reads(v, ArgRdsMean(args)) && s == WriteArgs(args) + (b + p.rest)
  }

  lemma NoArgs(argv: seq<Word>, acc: seq<Rd>, s: string, first: bool) returns (b: string)
    requires Peek(s, "|)&;") || SkipSpace(s) == ""
    ensures ArgsAre(argv, acc, s, first, ParseArgs(argv, acc, s), [], [], [], b)
  {
    SkipTwice(s);
    b := BlanksOff(s);
    assert argv + [] == argv && acc + [] == acc && WriteArgs([]) + (b + SkipSpace(s)) == s;
  }

  /** One argument in front of others. */
  lemma {:induction false} MoreArgs(argv: seq<Word>, acc: seq<Rd>, s: string, first: bool, p: Res<Cmd>, a: FArg,
                                    w: Word, read: seq<Rd>, more: string, args: seq<FArg>, ws: seq<Word>, v: seq<Rd>,
                                    b: string)
    requires ArgsAre(argv + [w], acc + read, more, false, p, args, ws, v, b) && LegalArg(a, first)
    requires Text(w) == a.word && Reads(read, RdsMean(a.rds)) && |argv| + 1 < MAXARGS
    requires s == a.before + (a.word + (WriteRds(a.rds) + more))
    ensures ArgsAre(argv, acc, s, first, p, [a] + args, [w] + ws, read + v, b)
  {
    ConsArgs(a, args, b + p.rest);
    ConsLegal(a, args, first);
    ArgsMean(a, w, read, args, ws, v);
    Regroup(argv, [w], ws);
    Regroup(acc, read, v);
  }

  lemma {:induction false} ArgsMean(a: FArg, w: Word, read: seq<Rd>, args: seq<FArg>, ws: seq<Word>, v: seq<Rd>)
    requires Text(w) == a.word && Reads(read, RdsMean(a.rds))
    requires Texts(ws) == WordsMean(args) && Reads(v, ArgRdsMean(args))
    ensures Texts([w] + ws) == WordsMean([a] + args) && Reads(read + v, ArgRdsMean([a] + args))
  {
    ConsArgs(a, args, "");
    TextsCons(w, ws);
    ReadsJoin(read, RdsMean(a.rds), v, ArgRdsMean(args));
  }

  /** The parse of what is left of a simple command, as arguments. */
  lemma {:induction false} ArgsFrom(argv: seq<Word>, acc: seq<Rd>, s: string, first: bool)
    returns (args: seq<FArg>, ws: seq<Word>, v: seq<Rd>, b: string)
    requires NoNul(s) && ParseArgs(argv, acc, s).Ok? && (!first ==> WordEnd(s))
    ensures ArgsAre(argv, acc, s, first, ParseArgs(argv, acc, s), args, ws, v, b)
    decreases |s|
  {
    if Peek(s, "|)&;") || SkipSpace(s) == "" {
      args, ws, v := [], [], [];
      b := NoArgs(argv, acc, s, first);
    } else {
      var a, w, read, more := ArgFrom(argv, acc, s, first);
      args, ws, v, b := ArgsFrom(argv + [w], acc + read, more, false);
      MoreArgs(argv, acc, s, first, ParseArgs(argv, acc, s), a, w, read, more, args, ws, v, b);
      args, ws, v := [a] + args, [w] + ws, read + v;
    }
  }

  lemma ReadsJoin(a: seq<Rd>, x: seq<TRd>, b: seq<Rd>, y: seq<TRd>)
    requires Reads(a, x) && Reads(b, y)
    ensures Reads(a + b, x + y)
  {
  }

  // ---------------------------------------------------------------- the grammar

  /** Form f, blanks and the rest of the parse p are the text, and f means what was parsed. */
  ghost predicate From(s: string, p: Res<Cmd>, f: Form, b: string) {
    && p.Ok? && Legal(f) && Blank(b) && SkipSpace(p.rest) == p.rest
    && s == Write(f) + (b + p.rest) && Meaning(p.value) == TreeOf(f)
  }

  lemma FromNoNul(s: string, p: Res<Cmd>, f: Form, b: string)
    requires From(s, p, f, b) && NoNul(s)
    ensures NoNul(p.rest) && |p.rest| <= |s|
  {
    NoNulParts(Write(f), b + p.rest);
    NoNulParts(b, p.rest);
  }

  /** A simple command, from its parts. */
  lemma {:induction false} SimpleParts(s: string, p: Res<Cmd>, rds: seq<FRd>, v: seq<Rd>, more: string,
                                       args: seq<FArg>, ws: seq<Word>, u: seq<Rd>, b: string)
    requires LegalRds(rds) && Reads(v, RdsMean(rds)) && s == WriteRds(rds) + more
    requires ArgsAre([], v, more, rds == [], p, args, ws, u, b)
    ensures From(s, p, FExec(rds, args), b)
  {
    Regroup(WriteRds(rds), WriteArgs(args), b + p.rest);
    assert [] + ws == ws;
    ReadsJoin(v, RdsMean(rds), u, ArgRdsMean(args));
    WrapMeaning(Exec(ws), v + u, RdsMean(rds) + ArgRdsMean(args));
  }

  lemma SimpleFrom(s: string) returns (f: Form, b: string)
    requires NoNul(s) && ParseExec(s).Ok? && !Peek(s, "(")
    ensures From(s, ParseExec(s), f, b) && Level(f) == 3
  {
    RedirsSkip([], s);
    var rds, v, c := RedirsFrom([], s);
    var rest := ParseRedirs([], s).rest;
    var more := c + rest;
    assert [] + v == v;
    NoNulParts(WriteRds(rds), more);
    SkipBlank(c, rest);
    ArgsSkip([], v, more);
    var args, ws, u;
    args, ws, u, b := ArgsFrom([], v, more, rds == []);
    f := FExec(rds, args);
    SimpleParts(s, ParseExec(s), rds, v, more, args, ws, u, b);
  }

  lemma {:induction false} ExecFrom(s: string) returns (f: Form, b: string)
    requires NoNul(s) && ParseExec(s).Ok?
    ensures From(s, ParseExec(s), f, b) && Level(f) == 3
    decreases |s|, 1
  {
    if Peek(s, "(") {
      f, b := BlockFrom(s);
    } else {
      f, b := SimpleFrom(s);
    }
  }

  lemma {:induction false} BlockFrom(s: string) returns (f: Form, b: string)
    requires NoNul(s) && ParseExec(s).Ok? && Peek(s, "(")
    ensures From(s, ParseExec(s), f, b) && Level(f) == 3
    decreases |s|, 0
  {
    SkipTwice(s);
    var b1 := BlanksOff(s);
    var x := SymbolFrom(SkipSpace(s), '(');
    NoNulParts(b1, "(" + x);
    NoNulParts("(", x);
    LineSkip(x);
    var g, b2 := LineFrom(x);
    var body := ParseLine(x);
    FromNoNul(x, body, g, b2);
    var y := SymbolFrom(body.rest, ')');
    NoNulParts(")", y);
    RedirsSkip([], y);
    var rds, v;
    rds, v, b := RedirsFrom([], y);
    assert [] + v == v;
    f := FBlock(b1, g, b2, rds);
    var rest := ParseExec(s).rest;
    BlockText(s, f, x, y, b + rest);
    WrapMeaning(body.value, v, RdsMean(rds));
  }

  lemma BlockText(s: string, f: Form, x: string, y: string, more: string)
    requires f.FBlock? && s == f.before + ("(" + x) && x == Write(f.inside) + (f.after + (")" + y))
    requires y == WriteRds(f.rds) + more
    ensures s == Write(f) + more
  {
  }

  lemma {:induction false} PipeFrom(s: string) returns (f: Form, b: string)
    requires NoNul(s) && ParsePipe(s).Ok?
    ensures From(s, ParsePipe(s), f, b) && Level(f) >= 2
    decreases |s|, 2
  {
    var left := ParseExec(s);
    var g, c := ExecFrom(s);
    FromNoNul(s, left, g, c);
    if Peek(left.rest, "|") {
      var y := SymbolFrom(left.rest, '|');
      NoNulParts("|", y);
      PipeParts(s, y);
      var h;
      h, b := PipeFrom(y);
      f := FPipe(g, c, h);
      PipeText(s, left, g, c, y, ParsePipe(y), h, b);
    } else {
      f, b := g, c;
    }
  }

  /** parsepipe, when a bar follows its first command. */
  lemma PipeParts(s: string, y: string)
    requires ParseExec(s).Ok? && Peek(ParseExec(s).rest, "|") && GetToken(ParseExec(s).rest).rest == SkipSpace(y)
    ensures var left, right := ParseExec(s), ParsePipe(y);
      ParsePipe(s) == if right.Err? then Err else Ok(Pipe(left.value, right.value), right.rest)
  {
    LineSkip(y);
  }

  lemma PipeText(s: string, left: Res<Cmd>, g: Form, c: string, y: string, right: Res<Cmd>, h: Form, b: string)
    requires From(s, left, g, c) && Level(g) == 3 && left.rest == "|" + y && From(y, right, h, b) && Level(h) >= 2
    ensures From(s, Ok(Pipe(left.value, right.value), right.rest), FPipe(g, c, h), b)
  {
    MiddleText(s, Write(g), c, "|", Write(h), b + right.rest);
  }

  lemma MiddleText(s: string, left: string, b: string, c: string, right: string, more: string)
    requires s == left + (b + (c + (right + more)))
    ensures s == left + (b + (c + right)) + more
  {
  }

  lemma BackText(f: Form, b: string, y: string)
    ensures Write(f) + (b + ("&" + y)) == Write(FBack(f, b)) + y
  {
    assert Write(FBack(f, b)) == Write(f) + (b + "&");
  }

  lemma {:induction false} BacksFrom(f: Form, c: Cmd, s: string) returns (g: Form, b: string)
    requires NoNul(s) && Legal(f) && Level(f) >= 1 && Meaning(c) == TreeOf(f)
    ensures From(Write(f) + s, Backs(c, s), g, b) && Level(g) >= 1
    decreases |s|
  {
    SkipTwice(s);
    var b1 := BlanksOff(s);
    var q := SkipSpace(s);
    if Peek(s, "&") {
      var y := SymbolFrom(q, '&');
      NoNulParts(b1, q);
      NoNulParts("&", y);
      BacksStep(c, b1, y);
      BackText(f, b1, y);
      g, b := BacksFrom(FBack(f, b1), Back(c), y);
    } else {
      g, b := f, b1;
    }
  }

  /** The first pipeline of a line, with its ampersands. */
  lemma {:induction false} FirstFrom(s: string) returns (h: Form, d: string)
    requires NoNul(s) && ParsePipe(s).Ok?
    ensures From(s, Backs(ParsePipe(s).value, ParsePipe(s).rest), h, d) && Level(h) >= 1
    decreases |s|, 3
  {
    var first := ParsePipe(s);
    var g, c := PipeFrom(s);
    SkipBlank(c, first.rest);
    BacksSkip(first.value, c + first.rest);
    NoNulParts(Write(g), c + first.rest);
    h, d := BacksFrom(g, first.value, c + first.rest);
  }

  lemma {:induction false} LineFrom(s: string) returns (f: Form, b: string)
    requires NoNul(s) && ParseLine(s).Ok?
    ensures From(s, ParseLine(s), f, b)
    decreases |s|, 4
  {
    var h, d := FirstFrom(s);
    var left := Backs(ParsePipe(s).value, ParsePipe(s).rest);
    FromNoNul(s, left, h, d);
    if Peek(left.rest, ";") {
      var y := SymbolFrom(left.rest, ';');
      NoNulParts(";", y);
      ListParts(s, y);
      var k;
      k, b := LineFrom(y);
      f := FList(h, d, k);
      ListText(s, left, h, d, y, ParseLine(y), k, b);
    } else {
      f, b := h, d;
    }
  }

  /** parseline, when a semicolon follows its first pipeline. */
  lemma ListParts(s: string, y: string)
    requires ParsePipe(s).Ok?
    requires var left := Backs(ParsePipe(s).value, ParsePipe(s).rest);
      Peek(left.rest, ";") && GetToken(left.rest).rest == SkipSpace(y)
    ensures var left, right := Backs(ParsePipe(s).value, ParsePipe(s).rest), ParseLine(y);
      ParseLine(s) == if right.Err? then Err else Ok(List(left.value, right.value), right.rest)
  {
    LineSkip(y);
  }

  lemma ListText(s: string, left: Res<Cmd>, h: Form, d: string, y: string, right: Res<Cmd>, k: Form, b: string)
    requires From(s, left, h, d) && Level(h) >= 1 && left.rest == ";" + y && From(y, right, k, b)
    ensures From(s, Ok(List(left.value, right.value), right.rest), FList(h, d, k), b)
  {
    MiddleText(s, Write(h), d, ";", Write(k), b + right.rest);
  }

  /** A line parses exactly if it is a written command, and then to what that means. */
  lemma ParsesIff(s: string)
    requires NoNul(s)
    ensures ParseCmd(s).Ok? <==> IsCommand(s)
    ensures ParseCmd(s).Ok? ==> Spells(s, Meaning(ParseCmd(s).value))
  {
    if ParseCmd(s).Ok? {
      var f, b := LineFrom(s);
      assert b + "" == b;
      assert SpelledBy(s, Meaning(ParseCmd(s).value), f, b);
      assert Spells(s, Meaning(ParseCmd(s).value));
    } else {
      forall t ensures !Spells(s, t) {
        if Spells(s, t) {
          var f, b :| SpelledBy(s, t, f, b);
          FormParses(f, b);
        }
      }
    }
  }

  // ---------------------------------------------------------------- every command can be written

  /** Words that can be written, and at most nine arguments. */
  predicate LegalTree(t: Tree) {
    match t
    case TExec(args) => |args| < 10 && forall i :: 0 <= i < |args| ==> LegalWord(args[i])
    case TRedir(d, _, f) => LegalTree(d) && LegalWord(f)
    case TPipe(l, r) => LegalTree(l) && LegalTree(r)
    case TList(l, r) => LegalTree(l) && LegalTree(r)
    case TBack(d) => LegalTree(d)
  }

  /** The same command, in parentheses if it stands below this level. */
  lemma Raised(f: Form, k: nat) returns (g: Form)
    requires Legal(f) && k <= 3
    ensures Legal(g) && Level(g) >= k && TreeOf(g) == TreeOf(f)
  {
    g := if Level(f) >= k then f else FBlock("", f, "", []);
  }

  lemma {:induction false} ArgsWritten(args: seq<string>, first: bool) returns (fs: seq<FArg>)
    requires forall i :: 0 <= i < |args| ==> LegalWord(args[i])
    ensures LegalArgs(fs, first) && |fs| == |args| && WordsMean(fs) == args && ArgRdsMean(fs) == []
    decreases |args|
  {
    if args == [] {
      return [];
    }
    var rest := ArgsWritten(args[1..], false);
    var a := FArg(" ", args[0], []);
    ConsLegal(a, rest, first);
    ConsArgs(a, rest, "");
    fs := [a] + rest;
  }

  lemma ExecWritten(args: seq<string>) returns (f: Form)
    requires |args| < 10 && forall i :: 0 <= i < |args| ==> LegalWord(args[i])
    ensures Legal(f) && TreeOf(f) == TExec(args)
  {
    var fs := ArgsWritten(args, true);
    f := FExec([], fs);
    assert RdsMean([]) + ArgRdsMean(fs) == [];
  }

  lemma RedirWritten(g: Form, out: bool, file: string) returns (f: Form)
    requires Legal(g) && LegalWord(file)
    ensures Legal(f) && TreeOf(f) == TRedir(TreeOf(g), out, file)
  {
    var rd := FRd("", if out then ">" else "<", "", file);
    f := FBlock("", g, "", [rd]);
    assert ">"[0] != "<"[0];
    var one := [TRd(out, file)];
    ConsRds(rd, [], "");
    assert [rd] + [] == [rd] && RdsMean([rd]) == one;
    assert one[..|one| - 1] == [] && TWrap(TreeOf(g), []) == TreeOf(g);
  }

  lemma {:induction false} Written(t: Tree) returns (f: Form)
    requires LegalTree(t)
    ensures Legal(f) && TreeOf(f) == t
  {
    match t {
      case TExec(args) => f := ExecWritten(args);
      case TRedir(d, out, file) =>
        var g := Written(d);
        f := RedirWritten(g, out, file);
      case TPipe(l, r) =>
        var g := Written(l);
        var h := Written(r);
        g := Raised(g, 3);
        h := Raised(h, 2);
        f := FPipe(g, "", h);
      case TBack(d) =>
        var g := Written(d);
        g := Raised(g, 1);
        f := FBack(g, "");
      case TList(l, r) =>
        var g := Written(l);
        var h := Written(r);
        g := Raised(g, 1);
        f := FList(g, "", h);
    }
  }

  /** Every command can be written. */
  lemma EveryTree(t: Tree) returns (s: string)
    requires LegalTree(t)
    ensures Spells(s, t)
  {
    var f := Written(t);
    s := Write(f);
    assert s + "" == s;
    assert SpelledBy(s, t, f, "");
  }
}
