/** Where the words of a parsed command lie in the line: inside it, in order and apart. */
module ShellWords {
  import opened ShellSpec
  import opened ShellForms

  ghost predicate Suffix(a: string, b: string) {
    |a| <= |b| && b[|b| - |a|..] == a
  }

  lemma SuffixTrans(a: string, b: string, c: string)
    requires Suffix(a, b) && Suffix(b, c)
    ensures Suffix(a, c)
  {
    assert c[|c| - |a|..] == c[|c| - |b|..][|b| - |a|..];
  }

  lemma {:induction false} SkipSpaceSuffix(s: string)
    ensures Suffix(SkipSpace(s), s)
  {
    if s != "" && IsSpace(s[0]) {
      SkipSpaceSuffix(s[1..]);
      SuffixTrans(SkipSpace(s), s[1..], s);
    }
  }

  lemma {:induction false} SkipWordSuffix(s: string)
    ensures Suffix(SkipWord(s), s)
    ensures SkipWord(s) != "" ==> IsSpace(SkipWord(s)[0]) || IsSymbol(SkipWord(s)[0])
  {
    if s != "" && !IsSpace(s[0]) && !IsSymbol(s[0]) {
      SkipWordSuffix(s[1..]);
      SuffixTrans(SkipWord(s), s[1..], s);
    }
  }

  lemma DropSuffix(s: string, n: nat)
    requires n <= |s|
    ensures Suffix(s[n..], s)
  {
  }

  /** A token ends inside the text that it starts with. */
  lemma TokenEnd(s: string)
    ensures var t := GetToken(s); t.q == SkipSpace(s) && Suffix(t.eq, t.q) && t.rest == SkipSpace(t.eq)
  {
    var q := SkipSpace(s);
    if At(q) == '\0' {
      DropSuffix(q, 0);
      assert q[0..] == q;
    } else if q[0] == '>' {
      if At(q[1..]) == '>' {
        DropSuffix(q, 2);
      } else {
        DropSuffix(q, 1);
      }
    } else if IsSymbol(q[0]) {
      DropSuffix(q, 1);
    } else {
      SkipWordSuffix(q);
    }
  }

  lemma TokenSuffix(s: string)
    ensures var t := GetToken(s); Suffix(t.q, s) && Suffix(t.eq, s) && Suffix(t.rest, s)
  {
    var t := GetToken(s);
    TokenEnd(s);
    SkipSpaceSuffix(s);
    SkipSpaceSuffix(t.eq);
    SuffixTrans(t.eq, t.q, s);
    SuffixTrans(t.rest, t.eq, s);
  }

  // ----- the words of a command -----

  function FileWords(rds: seq<Rd>): (r: set<Word>) {
    set i | 0 <= i < |rds| :: rds[i].file
  }

  function WordsOf(c: Cmd): (r: set<Word>) {
    match c
    case Exec(argv) => set w | w in argv
    case Redir(d, rd) => WordsOf(d) + {rd.file}
    case Pipe(l, r) => WordsOf(l) + WordsOf(r)
    case List(l, r) => WordsOf(l) + WordsOf(r)
    case Back(d) => WordsOf(d)
  }

  lemma {:induction false} WrapWords(c: Cmd, rds: seq<Rd>)
    ensures WordsOf(Wrap(c, rds)) == WordsOf(c) + FileWords(rds)
  {
    if rds != [] {
      var front := rds[..|rds| - 1];
      WrapWords(c, front);
      FilesMore(front, rds[|rds| - 1]);
      assert rds == front + [rds[|rds| - 1]];
    }
  }

  lemma FilesMore(rds: seq<Rd>, rd: Rd)
    ensures FileWords(rds + [rd]) == FileWords(rds) + {rd.file}
  {
    var all := rds + [rd];
    forall w | w in FileWords(rds) ensures w in FileWords(all) {
      var i :| 0 <= i < |rds| && rds[i].file == w;
      assert all[i].file == w;
    }
    assert all[|rds|].file == rd.file;
  }

  ghost predicate WordIn(w: Word, line: string) {
    Suffix(w.from, line) && Suffix(w.to, line) && |w.to| < |w.from|
  }

  /** One of the words ends before the other begins, with a character between them. */
  ghost predicate Apart(v: Word, w: Word) {
    |v.to| > |w.from| || |w.to| > |v.from|
  }

  /** The cursor s is behind the word, and not on a word that would touch it. */
  ghost predicate Behind(w: Word, s: string) {
    |w.to| > |s| || (|w.to| == |s| && (s == "" || IsSymbol(s[0])))
  }

  /** Words collected so far, with the cursor at s. */
  ghost predicate Good(ws: set<Word>, line: string, s: string) {
    && Suffix(s, line)
    && (forall w :: w in ws ==> WordIn(w, line) && Behind(w, s))
    && (forall v, w {:trigger Apart(v, w)} :: v in ws && w in ws && v != w ==> Apart(v, w))
  }

  lemma GoodFurther(ws: set<Word>, line: string, s: string, s': string)
    requires Good(ws, line, s) && Suffix(s', s) && (s' == s || |s'| < |s|)
    ensures Good(ws, line, s')
  {
    SuffixTrans(s', s, line);
  }

  lemma GoodSkip(ws: set<Word>, line: string, s: string)
    requires Good(ws, line, s)
    ensures Good(ws, line, SkipSpace(s))
  {
    SkipSpaceSuffix(s);
    assert |SkipSpace(s)| == |s| ==> SkipSpace(s) == s;
    GoodFurther(ws, line, s, SkipSpace(s));
  }

  lemma GoodToken(ws: set<Word>, line: string, s: string)
    requires Good(ws, line, s)
    ensures Good(ws, line, GetToken(s).rest)
  {
    TokenSuffix(s);
    var r := GetToken(s).rest;
    assert |r| == |s| ==> r == s;
    GoodFurther(ws, line, s, r);
  }

  lemma TokenWord(s: string)
    requires GetToken(s).tok == 'a'
    ensures var t := GetToken(s);
      t.q != "" && !IsSymbol(t.q[0]) && |t.eq| < |t.q| && (t.eq != "" ==> IsSpace(t.eq[0]) || IsSymbol(t.eq[0]))
  {
    SkipWordSuffix(SkipSpace(s));
  }

  /** The word of a word token lies in the line and ends behind the cursor. */
  lemma NewWord(line: string, s: string)
    requires Suffix(s, line) && GetToken(s).tok == 'a'
    ensures var t := GetToken(s); WordIn(Word(t.q, t.eq), line) && Behind(Word(t.q, t.eq), t.rest)
  {
    var t := GetToken(s);
    TokenSuffix(s);
    TokenEnd(s);
    TokenWord(s);
    SuffixTrans(t.q, s, line);
    SuffixTrans(t.eq, s, line);
    SkipSpaceSuffix(t.eq);
    assert |t.rest| == |t.eq| ==> t.rest == t.eq;
  }

  /** An earlier word ends before the token starts. */
  lemma EarlierWord(w: Word, s: string)
    requires Behind(w, s) && GetToken(s).tok == 'a'
    ensures |w.to| > |GetToken(s).q|
  {
    TokenEnd(s);
    TokenWord(s);
    SkipSpaceSuffix(s);
    assert |GetToken(s).q| == |s| ==> GetToken(s).q == s;
  }

  /** A word token adds one word, apart from all the others. */
  lemma GoodWord(ws: set<Word>, line: string, s: string)
    requires Good(ws, line, s) && GetToken(s).tok == 'a'
    ensures var t := GetToken(s); Good(ws + {Word(t.q, t.eq)}, line, t.rest)
  {
    var t := GetToken(s);
    var w := Word(t.q, t.eq);
    GoodToken(ws, line, s);
    NewWord(line, s);
    forall v | v in ws ensures |v.to| > |w.from| {
      EarlierWord(v, s);
    }
  }

  // ----- the parser keeps words apart -----

  lemma {:induction false} RedirsGood(ws: set<Word>, line: string, rds: seq<Rd>, s: string)
    requires Good(ws, line, s) && FileWords(rds) <= ws && ParseRedirs(rds, s).Ok?
    ensures var p := ParseRedirs(rds, s); Good(ws + FileWords(p.value), line, p.rest)
    decreases |s|
  {
    var s' := SkipSpace(s);
    GoodSkip(ws, line, s);
    if Peek(s, "<>") {
      var op := GetToken(s');
      var file := GetToken(op.rest);
      GoodToken(ws, line, s');
      GoodWord(ws, line, op.rest);
      var w := Word(file.q, file.eq);
      var more := rds + [Rd(op.tok != '<', w)];
      FilesMore(rds, Rd(op.tok != '<', w));
      RedirsGood(ws + {w}, line, more, file.rest);
      RedirsGrow(more, file.rest);
      assert ws + {w} + FileWords(ParseRedirs(rds, s).value) == ws + FileWords(ParseRedirs(rds, s).value);
    } else {
      assert ws + FileWords(rds) == ws;
    }
  }

  lemma {:induction false} RedirsGrow(rds: seq<Rd>, s: string)
    requires ParseRedirs(rds, s).Ok?
    ensures FileWords(rds) <= FileWords(ParseRedirs(rds, s).value)
    decreases |s|
  {
    if Peek(s, "<>") {
      var op := GetToken(SkipSpace(s));
      var file := GetToken(op.rest);
      var rd := Rd(op.tok != '<', Word(file.q, file.eq));
      FilesMore(rds, rd);
      RedirsGrow(rds + [rd], file.rest);
    }
  }

  function ArgWords(argv: seq<Word>): (r: set<Word>) {
    set w | w in argv
  }

  lemma Absorb(a: set<Word>, b: set<Word>, c: set<Word>, d: set<Word>)
    requires b <= d && c <= d
    ensures a + b + c + d == a + d
  {
  }

  lemma {:induction false} ArgsGood(ws: set<Word>, line: string, argv: seq<Word>, rds: seq<Rd>, s: string)
    requires Good(ws, line, s) && ArgWords(argv) <= ws && FileWords(rds) <= ws && ParseArgs(argv, rds, s).Ok?
    ensures var p := ParseArgs(argv, rds, s); Good(ws + WordsOf(p.value), line, p.rest)
    ensures WordsOf(ParseArgs(argv, rds, s).value) >= ArgWords(argv) + FileWords(rds)
    decreases |s|
  {
    var s' := SkipSpace(s);
    GoodSkip(ws, line, s);
    var t := GetToken(s');
    WrapWords(Exec(argv), rds);
    if Peek(s, "|)&;") {
      assert ws + WordsOf(Wrap(Exec(argv), rds)) == ws;
    } else if t.tok == '\0' {
      GoodToken(ws, line, s');
      assert ws + WordsOf(Wrap(Exec(argv), rds)) == ws;
    } else {
      GoodWord(ws, line, s');
      var w := Word(t.q, t.eq);
      var more := ParseRedirs(rds, t.rest);
      RedirsGood(ws + {w}, line, rds, t.rest);
      RedirsGrow(rds, t.rest);
      var ws' := ws + {w} + FileWords(more.value);
      assert ArgWords(argv + [w]) == ArgWords(argv) + {w};
      ArgsGood(ws', line, argv + [w], more.value, more.rest);
      var p := ParseArgs(argv, rds, s);
      Absorb(ws, {w}, FileWords(more.value), WordsOf(p.value));
    }
  }

  lemma {:induction false} ExecGood(ws: set<Word>, line: string, s: string)
    requires Good(ws, line, s) && ParseExec(s).Ok?
    ensures Good(ws + WordsOf(ParseExec(s).value), line, ParseExec(s).rest)
    decreases |s|, 1
  {
    var s' := SkipSpace(s);
    GoodSkip(ws, line, s);
    if Peek(s, "(") {
      BlockGood(ws, line, s');
    } else {
      var rds := ParseRedirs([], s');
      RedirsGood(ws, line, [], s');
      var ws' := ws + FileWords(rds.value);
      ArgsGood(ws', line, [], rds.value, rds.rest);
      assert ws' + WordsOf(ParseExec(s).value) == ws + WordsOf(ParseExec(s).value);
    }
  }

  lemma {:induction false} BlockGood(ws: set<Word>, line: string, s: string)
    requires Good(ws, line, s) && Peek(s, "(") && ParseBlock(s).Ok?
    ensures Good(ws + WordsOf(ParseBlock(s).value), line, ParseBlock(s).rest)
    decreases |s|, 0
  {
    var inside := GetToken(s).rest;
    GoodToken(ws, line, s);
    var body := ParseLine(inside);
    LineGood(ws, line, inside);
    var ws' := ws + WordsOf(body.value);
    var after := GetToken(body.rest).rest;
    GoodToken(ws', line, body.rest);
    RedirsGood(ws', line, [], after);
    var rds := ParseRedirs([], after).value;
    WrapWords(body.value, rds);
    assert ws' + FileWords(rds) == ws + WordsOf(ParseBlock(s).value);
  }

  lemma {:induction false} PipeGood(ws: set<Word>, line: string, s: string)
    requires Good(ws, line, s) && ParsePipe(s).Ok?
    ensures Good(ws + WordsOf(ParsePipe(s).value), line, ParsePipe(s).rest)
    decreases |s|, 2
  {
    var left := ParseExec(s);
    ExecGood(ws, line, s);
    var ws' := ws + WordsOf(left.value);
    if Peek(left.rest, "|") {
      var more := GetToken(left.rest).rest;
      GoodToken(ws', line, left.rest);
      PipeGood(ws', line, more);
      assert ws' + WordsOf(ParsePipe(more).value) == ws + WordsOf(ParsePipe(s).value);
    } else {
      GoodSkip(ws', line, left.rest);
    }
  }

  lemma {:induction false} BacksGood(ws: set<Word>, line: string, c: Cmd, s: string)
    requires Good(ws, line, s)
    ensures Good(ws, line, Backs(c, s).rest) && WordsOf(Backs(c, s).value) == WordsOf(c)
    decreases |s|
  {
    if Peek(s, "&") {
      GoodToken(ws, line, s);
      BacksGood(ws, line, Back(c), GetToken(s).rest);
    } else {
      GoodSkip(ws, line, s);
    }
  }

  lemma {:induction false} LineGood(ws: set<Word>, line: string, s: string)
    requires Good(ws, line, s) && ParseLine(s).Ok?
    ensures Good(ws + WordsOf(ParseLine(s).value), line, ParseLine(s).rest)
    decreases |s|, 3
  {
    var first := ParsePipe(s);
    PipeGood(ws, line, s);
    var ws' := ws + WordsOf(first.value);
    BacksGood(ws', line, first.value, first.rest);
    var left := Backs(first.value, first.rest);
    if Peek(left.rest, ";") {
      var more := GetToken(left.rest).rest;
      GoodToken(ws', line, left.rest);
      LineGood(ws', line, more);
      assert ws' + WordsOf(ParseLine(more).value) == ws + WordsOf(ParseLine(s).value);
    } else {
      GoodSkip(ws', line, left.rest);
    }
  }

  /** The words of a parsed line lie in it, each apart from the others. */
  lemma WordsApart(line: string)
    requires ParseCmd(line).Ok?
    ensures var ws := WordsOf(ParseCmd(line).value);
      && (forall w :: w in ws ==> WordIn(w, line))
      && (forall v, w {:trigger Apart(v, w)} :: v in ws && w in ws && v != w ==> Apart(v, w))
  {
    LineGood({}, line, line);
  }
}
