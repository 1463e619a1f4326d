/** The grammar of the shell, as its parser reads it: tokens, and the tree that each parse function
    returns with the place where it stopped. Trees hold pointers into the buffer; a string is the span
    from its first character to the one after its last. */
module Shell {
  import opened Basics

  const MAXARGS := 20

  predicate IsSpace(c: char) { c in " \t\r\n\U{0B}" }
  predicate IsSymbol(c: char) { c in "<|>&;()" }
  predicate InWord(c: char) { c != '\0' && !IsSpace(c) && !IsSymbol(c) }

  /** A place in the buffer, up to the terminator. */
  predicate Within(buf: CString, s: int) { 0 <= s <= |buf| }

  /** Past the blanks. */
  function Skip(buf: CString, s: int): (r: int)
    requires Within(buf, s)
    ensures s <= r <= |buf| && !IsSpace(At(buf, r))
    decreases |buf| - s
  {
    if s < |buf| && IsSpace(buf[s]) then Skip(buf, s + 1) else s
  }

  /** Past the word that s is in. */
  function WordEnd(buf: CString, s: int): (r: int)
    requires Within(buf, s)
    ensures s <= r <= |buf| && !InWord(At(buf, r)) && forall i | s <= i < r :: InWord(buf[i])
    decreases |buf| - s
  {
    if s < |buf| && InWord(buf[s]) then WordEnd(buf, s + 1) else s
  }

  /** kind is the token: a symbol, '+' for two '>', 'a' for a word, NUL at the end. */
  datatype Token = Token(kind: char, q: int, eq: int, next: int)

  function TokenEnd(buf: CString, s: int): (r: int)
    requires Within(buf, s)
    ensures s <= r <= |buf| && (s < |buf| && !IsSpace(At(buf, s)) ==> s < r)
  {
    var c := At(buf, s);
    if c == '\0' then s
    else if c == '>' && At(buf, s + 1) == '>' then s + 2
    else if IsSymbol(c) then s + 1
    else WordEnd(buf, s)
  }

  /** `gettoken` */
  function GetToken(buf: CString, s: int): (t: Token)
    requires Within(buf, s)
    ensures s <= t.q <= t.eq <= t.next <= |buf| && (t.kind != '\0' ==> t.q < t.eq)
    ensures t.kind == 'a' ==> WordAt(buf, t.q, t.eq)
  {
    var q := Skip(buf, s);
    var c, eq := At(buf, q), TokenEnd(buf, q);
    var kind := if c == '\0' then c else if c == '>' && eq == q + 2 then '+' else if IsSymbol(c) then c else 'a';
    Token(kind, q, eq, Skip(buf, eq))
  }

  /** A whole word of the buffer: the longest run of word characters that begins at q. */
  predicate WordAt(buf: CString, q: int, eq: int) {
    && 0 <= q < eq <= |buf| && !InWord(At(buf, eq))
    && forall i | q <= i < eq :: InWord(buf[i])
  }

  /** `peek`: the next character is one of toks. */
  predicate Peek(buf: CString, s: int, toks: string)
    requires Within(buf, s)
  {
    At(buf, Skip(buf, s)) in toks && At(buf, Skip(buf, s)) != '\0'
  }

  datatype Span = Span(q: int, eq: int)

  /** input: "<", on descriptor 0; else ">" or ">>", on descriptor 1, both opened in the same mode. */
  datatype Cmd =
    | Exec(argv: seq<Span>)
    | Redir(cmd: Cmd, file: Span, input: bool)
    | Pipe(left: Cmd, right: Cmd)
    | List(left: Cmd, right: Cmd)
    | Back(cmd: Cmd)

  datatype Result = Parsed(cmd: Cmd, s: int) | Panic

  /** The result is a panic, or a tree and a place not before s. */
  predicate From(buf: CString, s: int, r: Result) { r.Parsed? ==> s <= r.s <= |buf| }

  /** `parseredirs` */
  function ParseRedirs(buf: CString, cmd: Cmd, s: int): (r: Result)
    requires Within(buf, s)
    ensures From(buf, s, r)
    decreases |buf| - s
  {
    if !Peek(buf, s, "<>") then Parsed(cmd, Skip(buf, s))
    else
      var t := GetToken(buf, Skip(buf, s));
      var f := GetToken(buf, t.next);
      if f.kind != 'a' then Panic
      else ParseRedirs(buf, Redir(cmd, Span(f.q, f.eq), t.kind == '<'), f.next)
  }

  /** The exec node that redirections were wrapped around: it is filled in place, below them. */
  function AddArg(cmd: Cmd, a: Span): Cmd {
    match cmd
    case Exec(argv) => Exec(argv + [a])
    case Redir(c, file, input) => Redir(AddArg(c, a), file, input)
    case _ => cmd
  }

  /** `parseexec`, from the loop over the arguments on. */
  function ParseArgs(buf: CString, cmd: Cmd, argc: nat, s: int): (r: Result)
    requires Within(buf, s)
    ensures From(buf, s, r)
    decreases |buf| - s
  {
    if Peek(buf, s, "|)&;") then Parsed(cmd, Skip(buf, s))
    else
      var t := GetToken(buf, Skip(buf, s));
      if t.kind == '\0' then Parsed(cmd, t.next)
      else if t.kind != 'a' || argc + 1 >= MAXARGS then Panic
      else
        var d := ParseRedirs(buf, AddArg(cmd, Span(t.q, t.eq)), t.next);
        if d.Panic? then Panic else ParseArgs(buf, d.cmd, argc + 1, d.s)
  }

  /** `parseexec` */
  function ParseExec(buf: CString, s: int): (r: Result)
    requires Within(buf, s)
    ensures From(buf, s, r)
    decreases |buf| - s, 1
  {
    if Peek(buf, s, "(") then ParseBlock(buf, Skip(buf, s))
    else
      var d := ParseRedirs(buf, Exec([]), Skip(buf, s));
      if d.Panic? then Panic else ParseArgs(buf, d.cmd, 0, d.s)
  }

  /** `parseblock`, at an opening parenthesis. */
  function ParseBlock(buf: CString, s: int): (r: Result)
    requires Within(buf, s) && Peek(buf, s, "(")
    ensures From(buf, s, r)
    decreases |buf| - s, 0
  {
    var t := GetToken(buf, Skip(buf, s));
    var d := ParseLine(buf, t.next);
    if d.Panic? || !Peek(buf, d.s, ")") then Panic
    else ParseRedirs(buf, d.cmd, GetToken(buf, Skip(buf, d.s)).next)
  }

  /** `parsepipe` */
  function ParsePipe(buf: CString, s: int): (r: Result)
    requires Within(buf, s)
    ensures From(buf, s, r)
    decreases |buf| - s, 2
  {
    var d := ParseExec(buf, s);
    if d.Panic? then Panic
    else if !Peek(buf, d.s, "|") then Parsed(d.cmd, Skip(buf, d.s))
    else
      var e := ParsePipe(buf, GetToken(buf, Skip(buf, d.s)).next);
      if e.Panic? then Panic else Parsed(Pipe(d.cmd, e.cmd), e.s)
  }

  /** `parseline`, the loop over '&'. */
  function ParseBacks(buf: CString, cmd: Cmd, s: int): (r: Result)
    requires Within(buf, s)
    ensures r.Parsed? && From(buf, s, r) && !Peek(buf, r.s, "&")
    decreases |buf| - s
  {
    if !Peek(buf, s, "&") then Parsed(cmd, Skip(buf, s))
    else ParseBacks(buf, Back(cmd), GetToken(buf, Skip(buf, s)).next)
  }

  /** `parseline` */
  function ParseLine(buf: CString, s: int): (r: Result)
    requires Within(buf, s)
    ensures From(buf, s, r)
    decreases |buf| - s, 3
  {
    var p := ParsePipe(buf, s);
    if p.Panic? then Panic
    else
      var d := ParseBacks(buf, p.cmd, p.s);
      if !Peek(buf, d.s, ";") then Parsed(d.cmd, Skip(buf, d.s))
      else
        var e := ParseLine(buf, GetToken(buf, Skip(buf, d.s)).next);
        if e.Panic? then Panic else Parsed(List(d.cmd, e.cmd), e.s)
  }

  /** `parsecmd`: a whole line, with nothing left over. */
  function ParseCmd(buf: CString): Result
  {
    var d := ParseLine(buf, 0);
    if d.Panic? || Skip(buf, d.s) != |buf| then Panic else Parsed(d.cmd, |buf|)
  }
}
