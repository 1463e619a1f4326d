/** nulterminate, which cuts the tokens of a parsed line apart in the buffer, and parsecmd. */
module ShellTerminate {
  import opened Basics
  import opened Shell
  import opened ShellRoundTrip
  import opened ShellCode

  /** Every string of the command is a whole word of the buffer. */
  ghost predicate AllWords(buf: CString, cmd: Cmd) {
    match cmd
    case Exec(argv) => forall i | 0 <= i < |argv| :: WordAt(buf, argv[i].q, argv[i].eq)
    case Redir(c, file, _) => AllWords(buf, c) && WordAt(buf, file.q, file.eq)
    case Pipe(l, r) => AllWords(buf, l) && AllWords(buf, r)
    case List(l, r) => AllWords(buf, l) && AllWords(buf, r)
    case Back(c) => AllWords(buf, c)
  }

  lemma {:induction false} AddArgWords(buf: CString, cmd: Cmd, a: Span)
    requires AllWords(buf, cmd) && WordAt(buf, a.q, a.eq)
    ensures AllWords(buf, AddArg(cmd, a))
    decreases cmd
  {
    if cmd.Redir? {
      AddArgWords(buf, cmd.cmd, a);
    }
  }

  lemma {:induction false} RedirsWords(buf: CString, cmd: Cmd, s: int)
    requires Within(buf, s) && AllWords(buf, cmd)
    ensures ParseRedirs(buf, cmd, s).Parsed? ==> AllWords(buf, ParseRedirs(buf, cmd, s).cmd)
    decreases |buf| - s
  {
    hide GetToken, Skip, WordAt;
    if Peek(buf, s, "<>") {
      var t := GetToken(buf, Skip(buf, s));
      var f := GetToken(buf, t.next);
      if f.kind == 'a' {
        RedirsWords(buf, Redir(cmd, Span(f.q, f.eq), t.kind == '<'), f.next);
      }
    }
  }

  lemma {:induction false} ArgsWords(buf: CString, cmd: Cmd, argc: nat, s: int)
    requires Within(buf, s) && AllWords(buf, cmd)
    ensures ParseArgs(buf, cmd, argc, s).Parsed? ==> AllWords(buf, ParseArgs(buf, cmd, argc, s).cmd)
    decreases |buf| - s
  {
    hide GetToken, Skip, WordAt, ParseRedirs, AddArg;
    if !Peek(buf, s, "|)&;") {
      var t := GetToken(buf, Skip(buf, s));
      if t.kind == 'a' && argc + 1 < MAXARGS {
        AddArgWords(buf, cmd, Span(t.q, t.eq));
        RedirsWords(buf, AddArg(cmd, Span(t.q, t.eq)), t.next);
        var d := ParseRedirs(buf, AddArg(cmd, Span(t.q, t.eq)), t.next);
        if d.Parsed? {
          ArgsWords(buf, d.cmd, argc + 1, d.s);
        }
      }
    }
  }

  lemma {:induction false} ExecWords(buf: CString, s: int)
    requires Within(buf, s)
    ensures ParseExec(buf, s).Parsed? ==> AllWords(buf, ParseExec(buf, s).cmd)
    decreases |buf| - s, 1
  {
    hide GetToken, Skip, ParseRedirs, ParseArgs;
    if Peek(buf, s, "(") {
      SkipTwice(buf, s);
      BlockWords(buf, Skip(buf, s));
    } else {
      RedirsWords(buf, Exec([]), Skip(buf, s));
      var d := ParseRedirs(buf, Exec([]), Skip(buf, s));
      if d.Parsed? {
        ArgsWords(buf, d.cmd, 0, d.s);
      }
    }
  }

  lemma {:induction false} BlockWords(buf: CString, s: int)
    requires Within(buf, s) && Peek(buf, s, "(")
    ensures ParseBlock(buf, s).Parsed? ==> AllWords(buf, ParseBlock(buf, s).cmd)
    decreases |buf| - s, 0
  {
    hide GetToken, Skip, ParseRedirs, ParseLine;
    var t := GetToken(buf, Skip(buf, s));
    OpenToken(buf, Skip(buf, s));
    LineWords(buf, t.next);
    var d := ParseLine(buf, t.next);
    if d.Parsed? && Peek(buf, d.s, ")") {
      RedirsWords(buf, d.cmd, GetToken(buf, Skip(buf, d.s)).next);
    }
  }

  lemma {:induction false} PipeWords(buf: CString, s: int)
    requires Within(buf, s)
    ensures ParsePipe(buf, s).Parsed? ==> AllWords(buf, ParsePipe(buf, s).cmd)
    decreases |buf| - s, 2
  {
    hide GetToken, Skip, ParseExec;
    ExecWords(buf, s);
    var d := ParseExec(buf, s);
    if d.Parsed? && Peek(buf, d.s, "|") {
      OpenToken(buf, Skip(buf, d.s));
      PipeWords(buf, GetToken(buf, Skip(buf, d.s)).next);
    }
  }

  lemma {:induction false} BacksWords(buf: CString, cmd: Cmd, s: int)
    requires Within(buf, s) && AllWords(buf, cmd)
    ensures AllWords(buf, ParseBacks(buf, cmd, s).cmd)
    decreases |buf| - s
  {
    hide GetToken, Skip;
    if Peek(buf, s, "&") {
      OpenToken(buf, Skip(buf, s));
      BacksWords(buf, Back(cmd), GetToken(buf, Skip(buf, s)).next);
    }
  }

  /** The strings of every command the parser returns are whole words of the line. */
  lemma {:induction false} LineWords(buf: CString, s: int)
    requires Within(buf, s)
    ensures ParseLine(buf, s).Parsed? ==> AllWords(buf, ParseLine(buf, s).cmd)
    decreases |buf| - s, 3
  {
    hide GetToken, Skip, ParsePipe, ParseBacks;
    PipeWords(buf, s);
    var p := ParsePipe(buf, s);
    if p.Parsed? {
      BacksWords(buf, p.cmd, p.s);
      var d := ParseBacks(buf, p.cmd, p.s);
      if Peek(buf, d.s, ";") {
        OpenToken(buf, Skip(buf, d.s));
        LineWords(buf, GetToken(buf, Skip(buf, d.s)).next);
      }
    }
  }

  // ---------------------------------------------------------------- cutting

  /** The buffer still holds the line, except for some characters outside words that are now NUL. */
  ghost predicate CutFrom(buf: CString, a: seq<char>) {
    && |buf| < |a|
    && forall i | 0 <= i <= |buf| :: a[i] == At(buf, i) || (a[i] == '\0' && !InWord(At(buf, i)))
  }

  /** The C string that begins at q. */
  function StringAt(a: seq<char>, q: int): string
    requires 0 <= q
    decreases |a| - q
  {
    if q < |a| && a[q] != '\0' then [a[q]] + StringAt(a, q + 1) else []
  }

  lemma {:induction false} CutString(buf: CString, a: seq<char>, q: int, eq: int)
    requires CutFrom(buf, a) && 0 <= q <= eq <= |buf| && (forall i | q <= i < eq :: InWord(buf[i])) && a[eq] == '\0'
    ensures StringAt(a, q) == buf[q..eq]
    decreases eq - q
  {
    if q < eq {
      CutString(buf, a, q + 1, eq);
      assert buf[q..eq] == [buf[q]] + buf[q + 1..eq];
    }
  }

  /** A terminator stands after every string of the command. */
  ghost predicate Terminated(a: seq<char>, cmd: Cmd) {
    match cmd
    case Exec(argv) => forall i | 0 <= i < |argv| :: EndsAt(a, argv[i])
    case Redir(c, file, _) => Terminated(a, c) && EndsAt(a, file)
    case Pipe(l, r) => Terminated(a, l) && Terminated(a, r)
    case List(l, r) => Terminated(a, l) && Terminated(a, r)
    case Back(c) => Terminated(a, c)
  }

  predicate EndsAt(a: seq<char>, x: Span) { 0 <= x.q < x.eq < |a| && a[x.eq] == '\0' }

  /** More characters became NUL. */
  ghost predicate MoreCut(a: seq<char>, b: seq<char>) {
    |a| == |b| && forall i | 0 <= i < |a| :: b[i] == a[i] || b[i] == '\0'
  }

  lemma {:induction false} StaysTerminated(a: seq<char>, b: seq<char>, cmd: Cmd)
    requires Terminated(a, cmd) && MoreCut(a, b)
    ensures Terminated(b, cmd)
    decreases cmd
  {
    match cmd
    case Exec(argv) =>
      forall i | 0 <= i < |argv| ensures EndsAt(b, argv[i]) { assert EndsAt(a, argv[i]); }
    case Redir(c, file, _) => StaysTerminated(a, b, c);
    case Pipe(l, r) => StaysTerminated(a, b, l); StaysTerminated(a, b, r);
    case List(l, r) => StaysTerminated(a, b, l); StaysTerminated(a, b, r);
    case Back(c) => StaysTerminated(a, b, c);
  }

  /** The tree with the C strings that its pointers now point to. */
  function Strings(a: seq<char>, cmd: Cmd): Tree {
    match cmd
    case Exec(argv) =>
      Run(seq(|argv|, i requires 0 <= i < |argv| => if argv[i].q < 0 then [] else StringAt(a, argv[i].q)))
    case Redir(c, file, input) => Redirect(Strings(a, c), if file.q < 0 then [] else StringAt(a, file.q), input)
    case Pipe(l, r) => Piped(Strings(a, l), Strings(a, r))
    case List(l, r) => Listed(Strings(a, l), Strings(a, r))
    case Back(c) => Background(Strings(a, c))
  }

  /** Once every string is terminated, the C strings are the tokens. */
  lemma {:induction false} CutStrings(buf: CString, a: seq<char>, cmd: Cmd)
    requires CutFrom(buf, a) && AllWords(buf, cmd) && Terminated(a, cmd)
    ensures Strings(a, cmd) == Deref(buf, cmd)
    decreases cmd
  {
    match cmd
    case Exec(argv) =>
      forall i | 0 <= i < |argv| ensures argv[i].q >= 0 && StringAt(a, argv[i].q) == Text(buf, argv[i]) {
        assert EndsAt(a, argv[i]);
        CutString(buf, a, argv[i].q, argv[i].eq);
      }
    case Redir(c, file, _) => CutStrings(buf, a, c); CutString(buf, a, file.q, file.eq);
    case Pipe(l, r) => CutStrings(buf, a, l); CutStrings(buf, a, r);
    case List(l, r) => CutStrings(buf, a, l); CutStrings(buf, a, r);
    case Back(c) => CutStrings(buf, a, c);
  }

  lemma CutOne(buf: CString, a: seq<char>, x: Span)
    requires CutFrom(buf, a) && WordAt(buf, x.q, x.eq)
    ensures 0 <= x.eq < |a| && CutFrom(buf, a[x.eq := '\0']) && MoreCut(a, a[x.eq := '\0'])
            && EndsAt(a[x.eq := '\0'], x)
  {
  }

  /** `nulterminate` */
  method NulTerminate(a: array<char>, cmd: Cmd, ghost buf: CString)
    requires CutFrom(buf, a[..]) && AllWords(buf, cmd)
    modifies a
    ensures CutFrom(buf, a[..]) && Terminated(a[..], cmd) && MoreCut(old(a[..]), a[..])
    decreases cmd
  {
    hide CutFrom, MoreCut, WordAt;
    MoreCutSelf(a[..]);
    match cmd
    case Exec(argv) =>
      CutArgs(a, argv, buf);
    case Redir(c, file, _) =>
      NulTerminate(a, c, buf);
      ghost var b := a[..];
      CutOne(buf, b, file);
      a[file.eq] := '\0';
      assert a[..] == b[file.eq := '\0'];
      StaysTerminated(b, a[..], c);
      MoreCutTrans(old(a[..]), b, a[..]);
    case Pipe(l, r) =>
      NulTerminate(a, l, buf);
      ghost var b := a[..];
      NulTerminate(a, r, buf);
      StaysTerminated(b, a[..], l);
      MoreCutTrans(old(a[..]), b, a[..]);
    case List(l, r) =>
      NulTerminate(a, l, buf);
      ghost var b := a[..];
      NulTerminate(a, r, buf);
      StaysTerminated(b, a[..], l);
      MoreCutTrans(old(a[..]), b, a[..]);
    case Back(c) =>
      NulTerminate(a, c, buf);
  }

  /** The loop over the arguments. */
  method CutArgs(a: array<char>, argv: seq<Span>, ghost buf: CString)
    requires CutFrom(buf, a[..]) && forall i | 0 <= i < |argv| :: WordAt(buf, argv[i].q, argv[i].eq)
    modifies a
    ensures CutFrom(buf, a[..]) && MoreCut(old(a[..]), a[..]) && forall i | 0 <= i < |argv| :: EndsAt(a[..], argv[i])
  {
    hide WordAt, CutFrom;
    var i := 0;
    while i < |argv|
      invariant 0 <= i <= |argv| && CutFrom(buf, a[..]) && MoreCut(old(a[..]), a[..])
      invariant forall k | 0 <= k < i :: EndsAt(a[..], argv[k])
    {
      ghost var b := a[..];
      CutOne(buf, b, argv[i]);
      a[argv[i].eq] := '\0';
      assert a[..] == b[argv[i].eq := '\0'];
      forall k | 0 <= k < i ensures EndsAt(a[..], argv[k]) { assert EndsAt(b, argv[k]); }
      i := i + 1;
    }
  }

  lemma MoreCutSelf(a: seq<char>)
    ensures MoreCut(a, a)
  {
  }

  lemma MoreCutTrans(a: seq<char>, b: seq<char>, c: seq<char>)
    requires MoreCut(a, b) && MoreCut(b, c)
    ensures MoreCut(a, c)
  {
  }

  /** `parsecmd`, on a line of n characters and its terminator: the tree of the grammar, with every
      argument and file name, now a C string in the buffer, equal to its token; or the panic. */
  method Parse(a: array<char>, n: nat) returns (r: Result)
    requires n < a.Length && a[n] == '\0' && '\0' !in a[..n]
    modifies a
    ensures r == ParseCmd(old(a[..n]))
    ensures r.Panic? ==> a[..] == old(a[..])
    ensures r.Parsed? ==> Strings(a[..], r.cmd) == Deref(old(a[..n]), r.cmd)
  {
    hide Skip, ParseLine, WordAt;
    var buf: CString := a[..n];
    r := LineCmd(buf, 0);
    if r.Panic? {
      return;
    }
    var _, at := PeekAt(buf, r.s, "");
    if at != n {
      return Panic;
    }
    LineWords(buf, 0);
    assert CutFrom(buf, a[..]);
    NulTerminate(a, r.cmd, buf);
    CutStrings(buf, a[..], r.cmd);
    r := Parsed(r.cmd, n);
  }
}
