/** The parser of the shell with its loops and its cursor. */
module ShellCode {
  import opened Basics
  import opened Shell

  /** `while(s < es && strchr(whitespace, *s)) s++` */
  method SkipBlanks(buf: CString, s: int) returns (r: int)
    requires Within(buf, s)
    ensures r == Skip(buf, s)
  {
    r := s;
    while r < |buf| && IsSpace(buf[r])
      invariant s <= r <= |buf| && Skip(buf, r) == Skip(buf, s)
    {
      r := r + 1;
    }
  }

  /** `gettoken` */
  method NextToken(buf: CString, s: int) returns (t: Token)
    requires Within(buf, s)
    ensures t == GetToken(buf, s)
  {
    var q := SkipBlanks(buf, s);
    var c, e := At(buf, q), q;
    var kind := c;
    if c == '\0' {
    } else if c in "|();&<" {
      e := e + 1;
    } else if c == '>' {
      e := e + 1;
      if At(buf, e) == '>' {
        kind := '+';
        e := e + 1;
      }
    } else {
      kind := 'a';
      while e < |buf| && !IsSpace(buf[e]) && !IsSymbol(buf[e])
        invariant q <= e <= |buf| && WordEnd(buf, e) == WordEnd(buf, q)
      {
        e := e + 1;
      }
    }
    var next := SkipBlanks(buf, e);
    t := Token(kind, q, e, next);
  }

  /** `peek`: moves the cursor past blanks and tells what is there. */
  method PeekAt(buf: CString, s: int, toks: string) returns (found: bool, r: int)
    requires Within(buf, s)
    ensures r == Skip(buf, s) && found == Peek(buf, s, toks)
  {
    r := SkipBlanks(buf, s);
    found := At(buf, r) != '\0' && At(buf, r) in toks;
  }

  lemma SkipTwice(buf: CString, s: int)
    requires Within(buf, s)
    ensures Skip(buf, Skip(buf, s)) == Skip(buf, s)
  {
  }

  /** `parseredirs` */
  method Redirs(buf: CString, cmd: Cmd, s: int) returns (r: Result)
    requires Within(buf, s)
    ensures r == ParseRedirs(buf, cmd, s)
  {
    hide GetToken, Skip;
    var c, p := cmd, s;
    while true
      invariant Within(buf, p) && ParseRedirs(buf, c, p) == ParseRedirs(buf, cmd, s)
      decreases |buf| - p
    {
      var more, at := PeekAt(buf, p, "<>");
      if !more {
        return Parsed(c, at);
      }
      var tok := NextToken(buf, at);
      var f := NextToken(buf, tok.next);
      if f.kind != 'a' {
        return Panic;
      }
      c := if tok.kind == '<' then Redir(c, Span(f.q, f.eq), true) else Redir(c, Span(f.q, f.eq), false);
      p := f.next;
    }
  }

  /** `parseexec` */
  method ExecCmd(buf: CString, s: int) returns (r: Result)
    requires Within(buf, s)
    ensures r == ParseExec(buf, s)
    decreases |buf| - s, 1
  {
    hide GetToken, Skip, AddArg, ParseRedirs;
    var block, at := PeekAt(buf, s, "(");
    if block {
      SkipTwice(buf, s);
      r := BlockCmd(buf, at);
      return;
    }
    r := Redirs(buf, Exec([]), at);
    if r.Panic? {
      return;
    }
    var c, p, argc := r.cmd, r.s, 0;
    while true
      invariant Within(buf, p) && 0 <= argc < MAXARGS && ParseArgs(buf, c, argc, p) == ParseExec(buf, s)
      decreases |buf| - p
    {
      var stop, at := PeekAt(buf, p, "|)&;");
      if stop {
        return Parsed(c, at);
      }
      var tok := NextToken(buf, at);
      if tok.kind == '\0' {
        return Parsed(c, tok.next);
      }
      if tok.kind != 'a' {
        return Panic;
      }
      c := AddArg(c, Span(tok.q, tok.eq));
      argc := argc + 1;
      if argc >= MAXARGS {
        return Panic;
      }
      var d := Redirs(buf, c, tok.next);
      if d.Panic? {
        return Panic;
      }
      c, p := d.cmd, d.s;
    }
  }

  /** `parseblock` */
  method BlockCmd(buf: CString, s: int) returns (r: Result)
    requires Within(buf, s) && Peek(buf, s, "(")
    ensures r == ParseBlock(buf, s)
    decreases |buf| - s, 0
  {
    hide GetToken, Skip, ParseRedirs, ParseLine;
    var _, at := PeekAt(buf, s, "(");
    var tok := NextToken(buf, at);
    OpenToken(buf, at);
    r := LineCmd(buf, tok.next);
    if r.Panic? {
      return;
    }
    var closed, at' := PeekAt(buf, r.s, ")");
    if !closed {
      return Panic;
    }
    tok := NextToken(buf, at');
    r := Redirs(buf, r.cmd, tok.next);
  }

  /** A symbol is at least one character. */
  lemma OpenToken(buf: CString, s: int)
    requires 0 <= s < |buf| && !IsSpace(buf[s])
    ensures GetToken(buf, s).next > s
  {
  }

  /** `parsepipe` */
  method PipeCmd(buf: CString, s: int) returns (r: Result)
    requires Within(buf, s)
    ensures r == ParsePipe(buf, s)
    decreases |buf| - s, 2
  {
    hide GetToken, Skip, ParseExec;
    r := ExecCmd(buf, s);
    if r.Panic? {
      return;
    }
    var bar, at := PeekAt(buf, r.s, "|");
    if !bar {
      return Parsed(r.cmd, at);
    }
    var tok := NextToken(buf, at);
    OpenToken(buf, at);
    var d := PipeCmd(buf, tok.next);
    r := if d.Panic? then Panic else Parsed(Pipe(r.cmd, d.cmd), d.s);
  }

  /** `parseline` */
  method LineCmd(buf: CString, s: int) returns (r: Result)
    requires Within(buf, s)
    ensures r == ParseLine(buf, s)
    decreases |buf| - s, 3
  {
    hide GetToken, Skip, ParsePipe;
    r := PipeCmd(buf, s);
    if r.Panic? {
      return;
    }
    var c, p := r.cmd, r.s;
    var amp, at := PeekAt(buf, p, "&");
    while amp
      invariant s <= p <= |buf| && at == Skip(buf, p) && amp == Peek(buf, p, "&")
      invariant ParseBacks(buf, c, p) == ParseBacks(buf, r.cmd, r.s)
      decreases |buf| - p
    {
      var tok := NextToken(buf, at);
      OpenToken(buf, at);
      c, p := Back(c), tok.next;
      amp, at := PeekAt(buf, p, "&");
    }
    SkipTwice(buf, p);
    var semi, at' := PeekAt(buf, at, ";");
    if !semi {
      return Parsed(c, at');
    }
    var tok := NextToken(buf, at');
    OpenToken(buf, at');
    var d := LineCmd(buf, tok.next);
    r := if d.Panic? then Panic else Parsed(List(c, d.cmd), d.s);
  }
}
