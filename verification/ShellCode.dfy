/** The parser of sh.c with its cursor, and nulterminate writing into the line. */
module ShellCode {
  import opened ShellSpec
  import opened ShellForms
  import opened ShellWords
  import opened ShellFrom

  datatype Parsed = Syntax | Tree(cmd: Cmd)

  class Parser {
    const line: string             // the command line, without its final NUL
    var ps: nat                    // the cursor

    constructor (s: string)
      ensures line == s && ps == 0
    {
      line, ps := s, 0;
    }

    ghost predicate Valid()
      reads this
    {
      ps <= |line|
    }

    /** What is left of the line. */
    function Left(): (s: string)
      reads this
      requires Valid()
    {
      line[ps..]
    }

    /** The loop over white space. */
    method SkipBlanks(start: nat) returns (s: nat)
      requires start <= |line|
      ensures start <= s <= |line| && line[s..] == SkipSpace(line[start..])
    {
      s := start;
      while s < |line| && IsSpace(line[s])
        invariant start <= s <= |line| && SkipSpace(line[s..]) == SkipSpace(line[start..])
      {
        assert line[s..][1..] == line[s + 1..];
        s := s + 1;
      }
    }

    /** gettoken: the kind of the next token and its bounds; the cursor moves behind it. */
    method Gettoken() returns (ret: char, q: nat, eq: nat)
      requires Valid()
      modifies this
      ensures Valid() && old(ps) <= q <= eq <= ps
      ensures GetToken(old(Left())) == Token(ret, line[q..], line[eq..], Left())
    {
      var s := SkipBlanks(ps);
      q := s;
      ret := if s < |line| then line[s] else '\0';
      assert At(line[q..]) == ret;
      if ret == '\0' {
        assert SkipSpace(line[q..]) == line[q..];
      } else if ret == '|' || ret == '(' || ret == ')' || ret == ';' || ret == '&' || ret == '<' {
        s := s + 1;
        assert line[q..][1..] == line[s..];
      } else if ret == '>' {
        s := s + 1;
        assert line[q..][1..] == line[s..];
        if s < |line| && line[s] == '>' {
          ret := '+';
          s := s + 1;
          assert line[q..][2..] == line[s..];
        }
      } else {
        ret := 'a';
        while s < |line| && !IsSpace(line[s]) && !IsSymbol(line[s])
          invariant q <= s <= |line| && SkipWord(line[s..]) == SkipWord(line[q..])
        {
          assert line[s..][1..] == line[s + 1..];
          s := s + 1;
        }
      }
      eq := s;
      ps := SkipBlanks(s);
    }

    /** peek: moves over white space and looks at the next character. */
    method PeekAt(toks: string) returns (b: bool)
      requires Valid()
      modifies this
      ensures Valid() && old(ps) <= ps && Left() == SkipSpace(old(Left())) && b == Peek(old(Left()), toks)
    {
      ps := SkipBlanks(ps);
      b := ps < |line| && line[ps] != '\0' && line[ps] in toks;
    }

    /** parseredirs, given the redirections already around the command. */
    method Parseredirs(rds0: seq<Rd>) returns (ok: bool, rds: seq<Rd>)
      requires Valid()
      modifies this
      ensures Valid() && old(ps) <= ps
      ensures ok ==> ParseRedirs(rds0, old(Left())) == Ok(rds, Left())
      ensures !ok ==> ParseRedirs(rds0, old(Left())).Err?
    {
      rds := rds0;
      var more := PeekAt("<>");
      assert ParseRedirs(rds, Left()) == ParseRedirs(rds0, old(Left())) by { SkipTwice(old(Left())); }
      while more
        invariant Valid() && old(ps) <= ps && ParseRedirs(rds, Left()) == ParseRedirs(rds0, old(Left()))
        invariant more == Peek(Left(), "<>") && SkipSpace(Left()) == Left()
        decreases |line| - ps
      {
        ghost var before := Left();
        var tok, _, _ := Gettoken();
        var kind, q, eq := Gettoken();
        if kind != 'a' {
          return false, rds;
        }
        rds := rds + [Rd(tok != '<', Word(line[q..], line[eq..]))];
        assert |Left()| < |before|;
        ghost var after := Left();
        more := PeekAt("<>");
        SkipTwice(after);
      }
      ok := true;
    }

    /** parseexec: a block, or arguments and redirections up to the end of a command. */
    method Parseexec() returns (r: Parsed)
      requires Valid()
      modifies this
      ensures Valid() && old(ps) <= ps && Agrees(r, ParseExec(old(Left())), Left())
      decreases |line| - ps, 1
    {
      var open := PeekAt("(");
      if open {
        SkipTwice(old(Left()));
        r := Parseblock();
        return;
      }
      var ok, rds := Parseredirs([]);
      if !ok {
        return Syntax;
      }
      r := Parseargs(rds);
    }

    /** The argument loop of parseexec. */
    method Parseargs(rds0: seq<Rd>) returns (r: Parsed)
      requires Valid()
      modifies this
      ensures Valid() && old(ps) <= ps && Agrees(r, ParseArgs([], rds0, old(Left())), Left())
    {
      var argv: seq<Word> := [];
      var rds := rds0;
      var stop := PeekAt("|)&;");
      SkipTwice(old(Left()));
      while !stop
        invariant Valid() && old(ps) <= ps && ParseArgs(argv, rds, Left()) == ParseArgs([], rds0, old(Left()))
        invariant stop == Peek(Left(), "|)&;") && SkipSpace(Left()) == Left()
        decreases |line| - ps
      {
        ghost var before := Left();
        var tok, q, eq := Gettoken();
        if tok == '\0' {
          break;
        }
        if tok != 'a' {
          return Syntax;
        }
        argv := argv + [Word(line[q..], line[eq..])];
        if |argv| >= MAXARGS {
          return Syntax;
        }
        assert |Left()| < |before|;
        var ok;
        ok, rds := Parseredirs(rds);
        if !ok {
          return Syntax;
        }
        ghost var after := Left();
        stop := PeekAt("|)&;");
        SkipTwice(after);
      }
      r := Tree(Wrap(Exec(argv), rds));
    }

    /** parseblock: a line in parentheses, then redirections. */
    method Parseblock() returns (r: Parsed)
      requires Valid() && Peek(Left(), "(")
      modifies this
      ensures Valid() && old(ps) <= ps && Agrees(r, ParseBlock(old(Left())), Left())
      decreases |line| - ps, 0
    {
      var _, _, _ := Gettoken();
      assert |Left()| < |old(Left())|;
      r := Parseline();
      if r.Tree? {
        r := Blockend(r.cmd);
      }
    }

    /** The end of parseblock. */
    method Blockend(body: Cmd) returns (r: Parsed)
      requires Valid()
      modifies this
      ensures Valid() && old(ps) <= ps && Agrees(r, BlockEnd(body, old(Left())), Left())
    {
      var close := PeekAt(")");
      if !close {
        return Syntax;
      }
      SkipTwice(old(Left()));
      var _, _, _ := Gettoken();
      var ok, rds := Parseredirs([]);
      if !ok {
        return Syntax;
      }
      r := Tree(Wrap(body, rds));
    }

    /** parsepipe. */
    method Parsepipe() returns (r: Parsed)
      requires Valid()
      modifies this
      ensures Valid() && old(ps) <= ps && Agrees(r, ParsePipe(old(Left())), Left())
      decreases |line| - ps, 2
    {
      r := Parseexec();
      if r.Syntax? {
        return;
      }
      ghost var after := Left();
      var bar := PeekAt("|");
      if bar {
        SkipTwice(after);
        var _, _, _ := Gettoken();
        assert |Left()| < |after|;
        var right := Parsepipe();
        if right.Syntax? {
          return Syntax;
        }
        r := Tree(Pipe(r.cmd, right.cmd));
      }
    }

    /** parseline: a pipeline, its ampersands, and the line behind a semicolon. */
    method Parseline() returns (r: Parsed)
      requires Valid()
      modifies this
      ensures Valid() && old(ps) <= ps && Agrees(r, ParseLine(old(Left())), Left())
      decreases |line| - ps, 3
    {
      r := Parsepipe();
      if r.Syntax? {
        return;
      }
      var c := Parsebacks(r.cmd);
      r := Tree(c);
      ghost var after := Left();
      var semi := PeekAt(";");
      if semi {
        SkipTwice(after);
        var _, _, _ := Gettoken();
        assert |Left()| < |after|;
        var right := Parseline();
        if right.Syntax? {
          return Syntax;
        }
        r := Tree(List(r.cmd, right.cmd));
      }
    }

    /** parseline's loop over ampersands. */
    method Parsebacks(c0: Cmd) returns (c: Cmd)
      requires Valid()
      modifies this
      ensures Valid() && old(ps) <= ps && Backs(c0, old(Left())) == Ok(c, Left())
    {
      c := c0;
      var more := PeekAt("&");
      SkipTwice(old(Left()));
      while more
        invariant Valid() && old(ps) <= ps && Backs(c, Left()) == Backs(c0, old(Left()))
        invariant more == Peek(Left(), "&") && SkipSpace(Left()) == Left()
        decreases |line| - ps
      {
        ghost var before := Left();
        var _, _, _ := Gettoken();
        assert |Left()| < |before|;
        c := Back(c);
        ghost var after := Left();
        more := PeekAt("&");
        SkipTwice(after);
      }
    }
  }

  /** A method's result and final cursor are those of the grammar. */
  ghost predicate Agrees(r: Parsed, want: Res<Cmd>, left: string) {
    if r.Syntax? then want.Err? else want == Ok(r.cmd, left)
  }

  /** parsecmd: the command of a whole line, with its words NUL-terminated in the buffer. It fails exactly if the
      line is no command in any of its spellings; otherwise the tree, with every word read as a C string in the
      buffer, is the command that the line spells. */
  method Parsecmd(buf: array<char>, line: string) returns (r: Parsed)
    requires buf.Length == |line| + 1 && buf[..|line|] == line && buf[|line|] == '\0' && '\0' !in line
    modifies buf
    ensures r.Syntax? <==> ParseCmd(line).Err?
    ensures r.Tree? ==> ParseCmd(line).Ok? && r.cmd == ParseCmd(line).value
    ensures r.Syntax? <==> !IsCommand(line)
    ensures r.Tree? ==> Spells(line, TreeIn(r.cmd, buf[..], |line|))
    ensures r.Tree? ==> forall w :: w in WordsOf(r.cmd) ==>
      |w.from| <= |line| && CString(buf[..], |line| - |w.from|) == Text(w)
  {
    r := ParseWhole(line);
    ParsesIff(line);
    if r.Tree? {
      EndWords(r.cmd, buf, line);
    }
  }

  /** The parser on a line, all of which must be used. */
  method ParseWhole(line: string) returns (r: Parsed)
    ensures r.Syntax? <==> ParseCmd(line).Err?
    ensures r.Tree? ==> ParseCmd(line).Ok? && r.cmd == ParseCmd(line).value
  {
    var p := new Parser(line);
    assert p.Left() == line;
    r := p.Parseline();
    if r.Syntax? {
      return;
    }
    var _ := p.PeekAt("");
    if p.ps != |line| {
      return Syntax;
    }
  }

  /** nulterminate, and how the words read then. */
  method EndWords(cmd: Cmd, buf: array<char>, line: string)
    requires buf.Length == |line| + 1 && buf[..|line|] == line && buf[|line|] == '\0' && '\0' !in line
    requires ParseCmd(line).Ok? && cmd == ParseCmd(line).value
    modifies buf
    ensures TreeIn(cmd, buf[..], |line|) == Meaning(cmd)
    ensures forall w :: w in WordsOf(cmd) ==> |w.from| <= |line| && CString(buf[..], |line| - |w.from|) == Text(w)
  {
    WordsApart(line);
    assert buf[..] == line + ['\0'];
    Nulterminate(cmd, buf, |line|);
    forall w | w in WordsOf(cmd) ensures |w.from| <= |line| && CString(buf[..], |line| - |w.from|) == Text(w) {
      WordReads(WordsOf(cmd), line, buf[..], w);
    }
    TreeReads(cmd, buf[..], |line|);
  }

  /** The word that a pointer into the buffer leads to. */
  function ReadAt(w: Word, buf: seq<char>, n: nat): string
    requires n <= |buf|
  {
    if |w.from| <= n then CString(buf, n - |w.from|) else ""
  }

  /** The command that the parsed structure stands for once its words are read in the buffer. */
  function TreeIn(c: Cmd, buf: seq<char>, n: nat): Tree
    requires n <= |buf|
  {
    match c
    case Exec(argv) => TExec(seq(|argv|, i requires 0 <= i < |argv| => ReadAt(argv[i], buf, n)))
    case Redir(d, rd) => TRedir(TreeIn(d, buf, n), rd.out, ReadAt(rd.file, buf, n))
    case Pipe(l, r) => TPipe(TreeIn(l, buf, n), TreeIn(r, buf, n))
    case List(l, r) => TList(TreeIn(l, buf, n), TreeIn(r, buf, n))
    case Back(d) => TBack(TreeIn(d, buf, n))
  }

  lemma {:induction false} TextsAt(ws: seq<Word>, i: nat)
    requires i < |ws|
    ensures Texts(ws)[i] == Text(ws[i])
  {
    if i < |ws| - 1 {
      TextsAt(ws[..|ws| - 1], i);
    }
  }

  lemma {:induction false} TreeReads(c: Cmd, buf: seq<char>, n: nat)
    requires n <= |buf| && forall w :: w in WordsOf(c) ==> |w.from| <= n && CString(buf, n - |w.from|) == Text(w)
    ensures TreeIn(c, buf, n) == Meaning(c)
    decreases c
  {
    match c
    case Exec(argv) =>
      var read := seq(|argv|, i requires 0 <= i < |argv| => ReadAt(argv[i], buf, n));
      forall i | 0 <= i < |argv| ensures read[i] == Texts(argv)[i] {
        assert argv[i] in WordsOf(c);
        TextsAt(argv, i);
      }
      assert read == Texts(argv);
    case Redir(d, rd) => TreeReads(d, buf, n);
    case Pipe(l, r) =>
      TreeReads(l, buf, n);
      TreeReads(r, buf, n);
    case List(l, r) =>
      TreeReads(l, buf, n);
      TreeReads(r, buf, n);
    case Back(d) => TreeReads(d, buf, n);
  }

  /** The characters from a position up to the first NUL. */
  function CString(s: seq<char>, i: nat): (r: string)
    requires i <= |s|
    decreases |s| - i
  {
    if i == |s| || s[i] == '\0' then [] else [s[i]] + CString(s, i + 1)
  }

  /** Position p is the end of one of the words. */
  ghost predicate EndsAt(ws: set<Word>, n: nat, p: nat) {
    exists w :: w in ws && n - |w.to| == p
  }

  /** The buffer after NULs have been written at the ends of these words. */
  ghost predicate Terminated(before: seq<char>, after: seq<char>, ws: set<Word>, n: nat) {
    && |after| == |before|
    && forall p :: 0 <= p < |before| ==> after[p] == if EndsAt(ws, n, p) then '\0' else before[p]
  }

  lemma TerminatedTwice(a: seq<char>, b: seq<char>, c: seq<char>, v: set<Word>, w: set<Word>, n: nat)
    requires Terminated(a, b, v, n) && Terminated(b, c, w, n)
    ensures Terminated(a, c, v + w, n)
  {
    forall p | 0 <= p < |a| ensures c[p] == if EndsAt(v + w, n, p) then '\0' else a[p] {
      if EndsAt(v, n, p) {
        var x :| x in v && n - |x.to| == p;
        assert x in v + w;
      }
      if EndsAt(w, n, p) {
        var x :| x in w && n - |x.to| == p;
        assert x in v + w;
      }
    }
  }

  /** nulterminate: writes a NUL at the end of every word of the command. */
  method Nulterminate(cmd: Cmd, buf: array<char>, n: nat)
    requires buf.Length == n + 1 && forall w :: w in WordsOf(cmd) ==> |w.to| <= n
    modifies buf
    ensures Terminated(old(buf[..]), buf[..], WordsOf(cmd), n)
    decreases cmd
  {
    match cmd
    case Exec(argv) =>
      var i := 0;
      assert ArgWords(argv[..0]) == {};
      while i < |argv|
        invariant 0 <= i <= |argv| && Terminated(old(buf[..]), buf[..], ArgWords(argv[..i]), n)
      {
        ghost var before := buf[..];
        buf[n - |argv[i].to|] := '\0';
        assert Terminated(before, buf[..], {argv[i]}, n) by { OneTerminated(before, buf[..], argv[i], n); }
        TerminatedTwice(old(buf[..]), before, buf[..], ArgWords(argv[..i]), {argv[i]}, n);
        assert ArgWords(argv[..i + 1]) == ArgWords(argv[..i]) + {argv[i]};
        i := i + 1;
      }
      assert argv[..i] == argv;
    case Redir(d, rd) =>
      Nulterminate(d, buf, n);
      ghost var before := buf[..];
      buf[n - |rd.file.to|] := '\0';
      OneTerminated(before, buf[..], rd.file, n);
      TerminatedTwice(old(buf[..]), before, buf[..], WordsOf(d), {rd.file}, n);
    case Pipe(l, r) =>
      Nulterminate(l, buf, n);
      ghost var before := buf[..];
      Nulterminate(r, buf, n);
      TerminatedTwice(old(buf[..]), before, buf[..], WordsOf(l), WordsOf(r), n);
    case List(l, r) =>
      Nulterminate(l, buf, n);
      ghost var before := buf[..];
      Nulterminate(r, buf, n);
      TerminatedTwice(old(buf[..]), before, buf[..], WordsOf(l), WordsOf(r), n);
    case Back(d) =>
      Nulterminate(d, buf, n);
  }

  lemma OneTerminated(before: seq<char>, after: seq<char>, w: Word, n: nat)
    requires |w.to| <= n && |before| == n + 1 && after == before[n - |w.to| := '\0']
    ensures Terminated(before, after, {w}, n)
  {
    assert EndsAt({w}, n, n - |w.to|);
  }

  lemma {:induction false} CStringIs(s: seq<char>, i: nat, j: nat)
    requires i <= j < |s| && s[j] == '\0' && forall k :: i <= k < j ==> s[k] != '\0'
    ensures CString(s, i) == s[i..j]
    decreases j - i
  {
    if i < j {
      CStringIs(s, i + 1, j);
    }
  }

  /** No NUL falls inside a word, so each word reads back as its text. */
  lemma WordReads(ws: set<Word>, line: string, buf: seq<char>, w: Word)
    requires forall v :: v in ws ==> WordIn(v, line)
    requires forall u, v {:trigger Apart(u, v)} :: u in ws && v in ws && u != v ==> Apart(u, v)
    requires Terminated(line + ['\0'], buf, ws, |line|) && '\0' !in line && w in ws
    ensures |w.from| <= |line| && CString(buf, |line| - |w.from|) == Text(w)
  {
    var n := |line|;
    var i, j := n - |w.from|, n - |w.to|;
    assert EndsAt(ws, n, j);
    forall k | i <= k < j ensures buf[k] == line[k] {
      assert forall v :: v in ws && n - |v.to| == k ==> v == w || Apart(v, w);
    }
    CStringIs(buf, i, j);
    assert line[n - |w.from|..] == w.from;
    assert buf[i..j] == line[i..j] == w.from[..|w.from| - |w.to|];
  }
}
