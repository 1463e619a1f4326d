/** Blanks: a line may have any run of space, tab, carriage return, newline and vertical tab before, between
    and after its tokens, and is parsed as the same tree. */
module ShellBlanks {
  import opened Basics
  import opened Shell
  import opened ShellRoundTrip
  import opened ShellTerse

  // ---------------------------------------------------------------- tokens and the blanks around them

  predicate Blank(c: char) { c == ' ' || c == '\t' || c == '\r' || c == '\n' || c == '\U{0B}' }
  predicate Blanks(g: string) { forall i | 0 <= i < |g| :: Blank(g[i]) }

  predicate Symbol(c: char) { c == '<' || c == '|' || c == '>' || c == '&' || c == ';' || c == '(' || c == ')' }

  /** A token as it is written. */
  predicate Lexeme(x: string) {
    x != "" && (x == ">>" || (|x| == 1 && Symbol(x[0])) || PlainWord(x))
  }

  /** A word: any other characters. */
  predicate PlainWord(x: string) {
    forall i | 0 <= i < |x| :: x[i] != '\0' && !Blank(x[i]) && !Symbol(x[i])
  }

  /** Two tokens that would be read as other ones if nothing stood between them. */
  predicate Touchy(x: string, y: string)
    requires Lexeme(x) && Lexeme(y)
  {
    (PlainWord(x) && PlainWord(y)) || (x == ">" && y[0] == '>')
  }

  /** The tokens, with the blanks before, between and after them. */
  function Spaced(xs: seq<string>, gaps: seq<string>): string
    requires |gaps| == |xs| + 1
  {
    if xs == [] then gaps[0] else gaps[0] + xs[0] + Spaced(xs[1..], gaps[1..])
  }

  ghost predicate Fitting(xs: seq<string>, gaps: seq<string>) {
    && |gaps| == |xs| + 1 && (forall i | 0 <= i < |xs| :: Lexeme(xs[i]))
    && (forall i | 0 <= i < |gaps| :: Blanks(gaps[i]))
    && (forall i | 0 < i < |xs| && Touchy(xs[i - 1], xs[i]) :: gaps[i] != "")
  }

  /** The two texts differ in blanks only. */
  ghost predicate Respaced(a: string, b: string) {
    exists xs, g, h :: Fitting(xs, g) && Fitting(xs, h) && a == Spaced(xs, g) && b == Spaced(xs, h)
  }

  // ---------------------------------------------------------------- the tokens of a buffer

  /** What gettoken returns, call after call, up to the end. */
  function Tokens(buf: CString, s: int): seq<string>
    requires Within(buf, s)
    decreases |buf| - s
  {
    var t := GetToken(buf, s);
    if t.kind == '\0' then [] else [buf[t.q..t.eq]] + Tokens(buf, t.next)
  }

  lemma {:induction false} SkipTwice(buf: CString, s: int)
    requires Within(buf, s)
    ensures Skip(buf, Skip(buf, s)) == Skip(buf, s)
  {
    SolidSkip(buf, Skip(buf, s));
  }

  lemma TokensSkip(buf: CString, s: int)
    requires Within(buf, s)
    ensures Tokens(buf, Skip(buf, s)) == Tokens(buf, s)
  {
    SkipTwice(buf, s);
  }

  // ---------------------------------------------------------------- parsing sees the tokens only

  ghost predicate Same(a: CString, s: int, b: CString, r: int) {
    Within(a, s) && Within(b, r) && Tokens(a, s) == Tokens(b, r)
  }

  lemma SameSkip(a: CString, s: int, b: CString, r: int)
    requires Same(a, s, b, r)
    ensures Same(a, Skip(a, s), b, Skip(b, r))
  {
    hide Tokens;
    TokensSkip(a, s);
    TokensSkip(b, r);
  }

  /** The first token: its kind is known from its text. */
  function KindOf(x: string): char
    requires x != ""
  {
    if x == ">>" then '+' else if IsSymbol(x[0]) then x[0] else 'a'
  }

  lemma FirstToken(buf: CString, s: int)
    requires Within(buf, s)
    ensures var t := GetToken(buf, s);
            && (t.kind == '\0' <==> Tokens(buf, s) == [])
            && (t.kind == '\0' <==> Skip(buf, s) == |buf|) && (t.kind == '\0' ==> t.next == |buf|)
            && (t.kind != '\0' ==>
                  && t.next > s && Tokens(buf, s) == [buf[t.q..t.eq]] + Tokens(buf, t.next)
                  && t.kind == KindOf(buf[t.q..t.eq]) && At(buf, Skip(buf, s)) == buf[t.q..t.eq][0]
                  && Text(buf, Span(t.q, t.eq)) == buf[t.q..t.eq])
            && (t.kind == '\0' ==> At(buf, Skip(buf, s)) == '\0')
  {
    var t := GetToken(buf, s);
    if t.kind != '\0' {
      var x := buf[t.q..t.eq];
      assert x[0] == buf[t.q];
      if t.kind == '+' {
        assert x[1] == buf[t.q + 1];
        assert x == ">>";
      } else if buf[t.q] == '>' {
        assert |x| == 1;
      }
    }
  }

  lemma SamePeek(a: CString, s: int, b: CString, r: int, toks: string)
    requires Same(a, s, b, r)
    ensures Peek(a, s, toks) <==> Peek(b, r, toks)
  {
    hide Tokens, GetToken, Skip;
    FirstToken(a, s);
    FirstToken(b, r);
    if Tokens(a, s) != [] {
      assert Tokens(a, s)[0] == Tokens(b, r)[0];
    }
  }

  lemma SameToken(a: CString, s: int, b: CString, r: int)
    requires Same(a, s, b, r)
    ensures var t, u := GetToken(a, s), GetToken(b, r);
            && t.kind == u.kind && Same(a, t.next, b, u.next)
            && (t.kind != '\0' ==> t.next > s && Text(a, Span(t.q, t.eq)) == Text(b, Span(u.q, u.eq)))
  {
    hide GetToken, Skip;
    FirstToken(a, s);
    FirstToken(b, r);
    var t, u := GetToken(a, s), GetToken(b, r);
    if t.kind == '\0' {
      AtEnd(a);
      AtEnd(b);
    } else {
      assert Tokens(a, s)[1..] == Tokens(a, t.next) && Tokens(b, r)[1..] == Tokens(b, u.next);
      assert Tokens(a, s)[0] == Tokens(b, r)[0];
    }
  }

  lemma AtEnd(buf: CString)
    ensures Tokens(buf, |buf|) == []
  {
  }

  /** Two results that mean the same, with the same tokens left. */
  ghost predicate Agree(a: CString, x: Result, b: CString, y: Result) {
    && (x.Panic? <==> y.Panic?)
    && (x.Parsed? ==> Deref(a, x.cmd) == Deref(b, y.cmd) && Same(a, x.s, b, y.s))
  }

  lemma {:induction false} SameRedirs(a: CString, c: Cmd, s: int, b: CString, d: Cmd, r: int)
    requires Same(a, s, b, r) && Deref(a, c) == Deref(b, d)
    ensures Agree(a, ParseRedirs(a, c, s), b, ParseRedirs(b, d, r))
    decreases |a| - s
  {
    hide Tokens, GetToken, Skip, Text, Peek;
    SamePeek(a, s, b, r, "<>");
    SameSkip(a, s, b, r);
    if Peek(a, s, "<>") {
      PeekToken(a, s, "<>");
      SameToken(a, Skip(a, s), b, Skip(b, r));
      var t, u := GetToken(a, Skip(a, s)), GetToken(b, Skip(b, r));
      SameToken(a, t.next, b, u.next);
      var f, g := GetToken(a, t.next), GetToken(b, u.next);
      if f.kind == 'a' {
        SameRedirs(a, Redir(c, Span(f.q, f.eq), t.kind == '<'), f.next,
                   b, Redir(d, Span(g.q, g.eq), u.kind == '<'), g.next);
      }
    }
  }

  /** Where peek finds a character there is a token. */
  lemma PeekToken(buf: CString, s: int, toks: string)
    requires Within(buf, s) && Peek(buf, s, toks)
    ensures GetToken(buf, Skip(buf, s)).kind != '\0' && GetToken(buf, Skip(buf, s)).next > s
  {
    SkipTwice(buf, s);
  }

  lemma {:induction false} SameArgs(a: CString, c: Cmd, s: int, b: CString, d: Cmd, r: int, argc: nat)
    requires Same(a, s, b, r) && Deref(a, c) == Deref(b, d)
    ensures Agree(a, ParseArgs(a, c, argc, s), b, ParseArgs(b, d, argc, r))
    decreases |a| - s
  {
    hide Tokens, GetToken, Skip, Text, Peek, ParseRedirs, Deref, AddArg;
    SamePeek(a, s, b, r, "|)&;");
    SameSkip(a, s, b, r);
    if !Peek(a, s, "|)&;") {
      SameToken(a, Skip(a, s), b, Skip(b, r));
      var t, u := GetToken(a, Skip(a, s)), GetToken(b, Skip(b, r));
      if t.kind == 'a' && argc + 1 < MAXARGS {
        DerefAdd(a, c, Span(t.q, t.eq));
        DerefAdd(b, d, Span(u.q, u.eq));
        var c', d' := AddArg(c, Span(t.q, t.eq)), AddArg(d, Span(u.q, u.eq));
        SameRedirs(a, c', t.next, b, d', u.next);
        var x, y := ParseRedirs(a, c', t.next), ParseRedirs(b, d', u.next);
        if x.Parsed? {
          SameArgs(a, x.cmd, x.s, b, y.cmd, y.s, argc + 1);
        }
      }
    }
  }

  lemma {:induction false} SameExec(a: CString, s: int, b: CString, r: int)
    requires Same(a, s, b, r)
    ensures Agree(a, ParseExec(a, s), b, ParseExec(b, r))
    decreases |a| - s, 1
  {
    hide Tokens, GetToken, Skip, Text, Peek, ParseRedirs, ParseArgs, ParseBlock;
    SamePeek(a, s, b, r, "(");
    SameSkip(a, s, b, r);
    if Peek(a, s, "(") {
      PeekSkip(a, s, "(");
      PeekSkip(b, r, "(");
      SameBlock(a, Skip(a, s), b, Skip(b, r));
    } else {
      assert Texts(a, []) == Texts(b, []);
      SameRedirs(a, Exec([]), Skip(a, s), b, Exec([]), Skip(b, r));
      var x, y := ParseRedirs(a, Exec([]), Skip(a, s)), ParseRedirs(b, Exec([]), Skip(b, r));
      if x.Parsed? {
        SameArgs(a, x.cmd, x.s, b, y.cmd, y.s, 0);
      }
    }
  }

  lemma PeekSkip(buf: CString, s: int, toks: string)
    requires Within(buf, s) && Peek(buf, s, toks)
    ensures s <= Skip(buf, s) && Peek(buf, Skip(buf, s), toks)
  {
    SkipTwice(buf, s);
  }

  lemma {:induction false} SameBlock(a: CString, s: int, b: CString, r: int)
    requires Same(a, s, b, r) && Peek(a, s, "(") && Peek(b, r, "(")
    ensures Agree(a, ParseBlock(a, s), b, ParseBlock(b, r))
    decreases |a| - s, 0
  {
    hide Tokens, GetToken, Skip, Text, Peek, ParseRedirs, ParseLine, Deref;
    SameSkip(a, s, b, r);
    PeekToken(a, s, "(");
    SameToken(a, Skip(a, s), b, Skip(b, r));
    var t, u := GetToken(a, Skip(a, s)), GetToken(b, Skip(b, r));
    SameLine(a, t.next, b, u.next);
    var x, y := ParseLine(a, t.next), ParseLine(b, u.next);
    if x.Parsed? {
      SamePeek(a, x.s, b, y.s, ")");
      if Peek(a, x.s, ")") {
        SameSkip(a, x.s, b, y.s);
        SameToken(a, Skip(a, x.s), b, Skip(b, y.s));
        SameRedirs(a, x.cmd, GetToken(a, Skip(a, x.s)).next, b, y.cmd, GetToken(b, Skip(b, y.s)).next);
      }
    }
  }

  lemma {:induction false} SamePipe(a: CString, s: int, b: CString, r: int)
    requires Same(a, s, b, r)
    ensures Agree(a, ParsePipe(a, s), b, ParsePipe(b, r))
    decreases |a| - s, 2
  {
    hide Tokens, GetToken, Skip, Text, Peek, ParseExec;
    SameExec(a, s, b, r);
    var x, y := ParseExec(a, s), ParseExec(b, r);
    if x.Parsed? {
      SamePeek(a, x.s, b, y.s, "|");
      SameSkip(a, x.s, b, y.s);
      if Peek(a, x.s, "|") {
        PeekToken(a, x.s, "|");
        SameToken(a, Skip(a, x.s), b, Skip(b, y.s));
        SamePipe(a, GetToken(a, Skip(a, x.s)).next, b, GetToken(b, Skip(b, y.s)).next);
      }
    }
  }

  lemma {:induction false} SameBacks(a: CString, c: Cmd, s: int, b: CString, d: Cmd, r: int)
    requires Same(a, s, b, r) && Deref(a, c) == Deref(b, d)
    ensures Agree(a, ParseBacks(a, c, s), b, ParseBacks(b, d, r))
    decreases |a| - s
  {
    hide Tokens, GetToken, Skip, Text, Peek;
    SamePeek(a, s, b, r, "&");
    SameSkip(a, s, b, r);
    if Peek(a, s, "&") {
      PeekToken(a, s, "&");
      SameToken(a, Skip(a, s), b, Skip(b, r));
      SameBacks(a, Back(c), GetToken(a, Skip(a, s)).next, b, Back(d), GetToken(b, Skip(b, r)).next);
    }
  }

  lemma {:induction false} SameLine(a: CString, s: int, b: CString, r: int)
    requires Same(a, s, b, r)
    ensures Agree(a, ParseLine(a, s), b, ParseLine(b, r))
    decreases |a| - s, 3
  {
    hide Tokens, GetToken, Skip, Text, Peek, ParsePipe, ParseBacks;
    SamePipe(a, s, b, r);
    var p, q := ParsePipe(a, s), ParsePipe(b, r);
    if p.Parsed? {
      SameBacks(a, p.cmd, p.s, b, q.cmd, q.s);
      var x, y := ParseBacks(a, p.cmd, p.s), ParseBacks(b, q.cmd, q.s);
      SamePeek(a, x.s, b, y.s, ";");
      SameSkip(a, x.s, b, y.s);
      if Peek(a, x.s, ";") {
        PeekToken(a, x.s, ";");
        SameToken(a, Skip(a, x.s), b, Skip(b, y.s));
        SameLine(a, GetToken(a, Skip(a, x.s)).next, b, GetToken(b, Skip(b, y.s)).next);
      }
    }
  }

  /** The same command, or a panic for both. */
  ghost predicate SameCommand(a: CString, b: CString) {
    && (ParseCmd(a).Parsed? <==> ParseCmd(b).Parsed?)
    && (ParseCmd(a).Parsed? ==> Deref(a, ParseCmd(a).cmd) == Deref(b, ParseCmd(b).cmd))
  }

  /** `parsecmd` depends on the tokens only. */
  lemma SameTokensSameCommand(a: CString, b: CString)
    requires Tokens(a, 0) == Tokens(b, 0)
    ensures SameCommand(a, b)
  {
    hide Tokens, GetToken, Skip, ParseLine, Deref;
    SameLine(a, 0, b, 0);
    var x, y := ParseLine(a, 0), ParseLine(b, 0);
    if x.Parsed? {
      FirstToken(a, x.s);
      FirstToken(b, y.s);
    }
  }

  // ---------------------------------------------------------------- the tokens of a text with blanks

  lemma CharKinds(c: char)
    ensures IsSpace(c) <==> Blank(c)
    ensures IsSymbol(c) <==> Symbol(c)
    ensures InWord(c) <==> c != '\0' && !Blank(c) && !Symbol(c)
  {
  }

  lemma {:induction false} SkipGap(buf: CString, s: int, e: int)
    requires 0 <= s <= e <= |buf| && (forall i | s <= i < e :: Blank(buf[i])) && !Blank(At(buf, e))
    ensures Skip(buf, s) == e
    decreases e - s
  {
    if s < e {
      CharKinds(buf[s]);
      SkipGap(buf, s + 1, e);
    } else {
      CharKinds(At(buf, e));
    }
  }

  /** A token that stands at q is read as such, given what follows it. */
  lemma LexemeEnd(buf: CString, q: int, x: string)
    requires Lexeme(x) && Here(buf, q, x)
    requires PlainWord(x) ==> !InWord(At(buf, q + |x|))
    requires x == ">" ==> At(buf, q + |x|) != '>'
    ensures Solid(buf, q) && At(buf, q) != '\0' && TokenEnd(buf, q) == q + |x|
  {
    HereAt(buf, q, x, 0);
    CharKinds(x[0]);
    if PlainWord(x) {
      forall i | q <= i < q + |x| ensures InWord(buf[i]) {
        HereAt(buf, q, x, i - q);
        CharKinds(x[i - q]);
      }
      WordEndIs(buf, q, q + |x|);
    } else if x == ">>" {
      HereAt(buf, q, x, 1);
    }
  }

  lemma HereGap(buf: CString, s: int, g: string)
    requires Here(buf, s, g) && Blanks(g)
    ensures forall i | s <= i < s + |g| :: Blank(buf[i])
  {
    forall i | s <= i < s + |g| ensures Blank(buf[i]) { HereAt(buf, s, g, i - s); }
  }

  /** The character at the end of a token: of its gap, of the next token, or the terminator. */
  lemma Following(buf: CString, e: int, x: string, xs: seq<string>, gaps: seq<string>)
    requires Fitting([x] + xs, [""] + gaps) && |gaps| == |xs| + 1
    requires Here(buf, e, Spaced(xs, gaps)) && e + |Spaced(xs, gaps)| == |buf|
    ensures PlainWord(x) ==> !InWord(At(buf, e))
    ensures x == ">" ==> At(buf, e) != '>'
  {
    CharKinds(At(buf, e));
    var all, g := [x] + xs, [""] + gaps;
    if gaps[0] != "" {
      assert g[1] == gaps[0] && Blanks(g[1]);
      HereAt(buf, e, Spaced(xs, gaps), 0);
      assert Spaced(xs, gaps)[0] == gaps[0][0];
    } else if xs != [] {
      assert all[0] == x && all[1] == xs[0] && Lexeme(all[0]) && Lexeme(all[1]) && g[1] == "";
      assert !Touchy(all[0], all[1]);
      HereAt(buf, e, Spaced(xs, gaps), 0);
      assert Spaced(xs, gaps)[0] == xs[0][0];
    }
  }

  lemma FittingTail(xs: seq<string>, gaps: seq<string>)
    requires Fitting(xs, gaps) && xs != []
    ensures Fitting(xs[1..], gaps[1..]) && Fitting([xs[0]] + xs[1..], [""] + gaps[1..])
    ensures Lexeme(xs[0]) && Blanks(gaps[0])
  {
    var ys, hs := [xs[0]] + xs[1..], [""] + gaps[1..];
    assert ys == xs;
    forall i | 0 <= i < |hs| ensures Blanks(hs[i]) { assert i > 0 ==> hs[i] == gaps[i]; }
    forall i | 0 < i < |ys| && Touchy(ys[i - 1], ys[i]) ensures hs[i] != "" { assert hs[i] == gaps[i]; }
    forall i | 0 < i < |xs[1..]| && Touchy(xs[1..][i - 1], xs[1..][i]) ensures gaps[1..][i] != "" {
      assert Touchy(xs[i], xs[i + 1]);
    }
  }

  lemma SpacedParts(buf: CString, s: int, xs: seq<string>, gaps: seq<string>)
    requires xs != [] && |gaps| == |xs| + 1 && Here(buf, s, Spaced(xs, gaps))
    ensures var q := s + |gaps[0]|;
            && Here(buf, s, gaps[0]) && Here(buf, q, xs[0]) && Here(buf, q + |xs[0]|, Spaced(xs[1..], gaps[1..]))
            && s + |Spaced(xs, gaps)| == q + |xs[0]| + |Spaced(xs[1..], gaps[1..])|
  {
    HereSplit(buf, s, gaps[0] + xs[0], Spaced(xs[1..], gaps[1..]));
    HereSplit(buf, s, gaps[0], xs[0]);
  }

  lemma FirstLexeme(buf: CString, s: int, q: int, e: int)
    requires 0 <= s <= q <= e <= |buf| && Skip(buf, s) == q && At(buf, q) != '\0' && TokenEnd(buf, q) == e
    ensures Tokens(buf, s) == [buf[q..e]] + Tokens(buf, e)
  {
    assert GetToken(buf, s).kind != '\0';
    TokensSkip(buf, e);
  }

  lemma {:induction false} TokensOfSpaced(buf: CString, s: int, xs: seq<string>, gaps: seq<string>)
    requires Fitting(xs, gaps) && Here(buf, s, Spaced(xs, gaps)) && s + |Spaced(xs, gaps)| == |buf|
    ensures Within(buf, s) && Tokens(buf, s) == xs
    decreases |xs|
  {
    hide Tokens, Here, TokenEnd, Skip;
    if xs == [] {
      HereGap(buf, s, gaps[0]);
      HereWithin(buf, s, gaps[0]);
      SkipGap(buf, s, |buf|);
      FirstToken(buf, s);
    } else {
      SpacedParts(buf, s, xs, gaps);
      FittingTail(xs, gaps);
      var q := s + |gaps[0]|;
      var e := q + |xs[0]|;
      HereWithin(buf, s, gaps[0]);
      HereWithin(buf, e, Spaced(xs[1..], gaps[1..]));
      Following(buf, e, xs[0], xs[1..], gaps[1..]);
      LexemeEnd(buf, q, xs[0]);
      CharKinds(At(buf, q));
      HereGap(buf, s, gaps[0]);
      SkipGap(buf, s, q);
      FirstLexeme(buf, s, q, e);
      TokensOfSpaced(buf, e, xs[1..], gaps[1..]);
      HereText(buf, q, xs[0]);
    }
  }

  lemma HereText(buf: CString, q: int, x: string)
    requires Here(buf, q, x)
    ensures 0 <= q <= q + |x| <= |buf| && buf[q..q + |x|] == x
  {
  }

  lemma {:induction false} SpacedNoNul(xs: seq<string>, gaps: seq<string>)
    requires Fitting(xs, gaps)
    ensures '\0' !in Spaced(xs, gaps)
    decreases |xs|
  {
    assert Blanks(gaps[0]);
    if xs != [] {
      FittingTail(xs, gaps);
      SpacedNoNul(xs[1..], gaps[1..]);
    }
  }

  lemma SpacedTokens(xs: seq<string>, gaps: seq<string>)
    requires Fitting(xs, gaps)
    ensures '\0' !in Spaced(xs, gaps) && Tokens(Spaced(xs, gaps), 0) == xs
  {
    hide Tokens, Spaced;
    SpacedNoNul(xs, gaps);
    var buf: CString := Spaced(xs, gaps);
    assert buf[0..|buf|] == buf;
    TokensOfSpaced(buf, 0, xs, gaps);
  }

  /** Blanks do not matter: two texts that differ in blanks only are parsed as the same command, or not at all. */
  lemma BlanksDoNotMatter(a: string, b: string)
    requires Respaced(a, b)
    ensures '\0' !in a && '\0' !in b && SameCommand(a, b)
  {
    hide Tokens, Spaced, SameCommand;
    var xs, g, h :| Fitting(xs, g) && Fitting(xs, h) && a == Spaced(xs, g) && b == Spaced(xs, h);
    SpacedTokens(xs, g);
    SpacedTokens(xs, h);
    SameTokensSameCommand(a, b);
  }

  /** The round trip, with any blanks: a tree within MAXARGS is read back from every text that differs in
      blanks only from the one with a single space after each word. */
  lemma SpacedRoundTrip(t: Tree, text: string)
    requires TreeFits(t) && Respaced(LineText(t), text)
    ensures '\0' !in text && ParseCmd(text).Parsed? && Deref(text, ParseCmd(text).cmd) == t
  {
    hide LineText, Deref, ParseCmd;
    TerseRoundTrip(t);
    BlanksDoNotMatter(LineText(t), text);
  }

  // ---------------------------------------------------------------- every text has such a form

  lemma LexemeRead(buf: CString, q: int)
    requires 0 <= q < |buf| && !IsSpace(buf[q])
    ensures var x := buf[q..TokenEnd(buf, q)];
            && Lexeme(x) && x[0] == buf[q] && (PlainWord(x) ==> !InWord(At(buf, TokenEnd(buf, q))))
            && (x == ">" ==> At(buf, TokenEnd(buf, q)) != '>')
  {
    var e := TokenEnd(buf, q);
    var x := buf[q..e];
    CharKinds(buf[q]);
    if !IsSymbol(buf[q]) {
      forall i | 0 <= i < |x| ensures x[i] != '\0' && !Blank(x[i]) && !Symbol(x[i]) {
        assert x[i] == buf[q + i];
        CharKinds(x[i]);
      }
    } else if e == q + 2 {
      assert x == ">>";
    }
  }

  lemma {:induction false} SkipBlanks(buf: CString, s: int)
    requires Within(buf, s)
    ensures Blanks(buf[s..Skip(buf, s)])
    decreases |buf| - s
  {
    if s < |buf| && IsSpace(buf[s]) {
      SkipBlanks(buf, s + 1);
      CharKinds(buf[s]);
      assert buf[s..Skip(buf, s)] == [buf[s]] + buf[s + 1..Skip(buf, s)];
    }
  }

  /** `gettoken`, in terms of characters: blanks before and after, and between them nothing, at the end of the
      buffer, or a symbol, two '>', or a word, as long as can be. */
  lemma GetTokenMeans(buf: CString, s: int)
    requires Within(buf, s)
    ensures var t := GetToken(buf, s);
            && Blanks(buf[s..t.q]) && Blanks(buf[t.eq..t.next]) && !Blank(At(buf, t.q)) && !Blank(At(buf, t.next))
            && if t.q == |buf| then t == Token('\0', |buf|, |buf|, |buf|)
               else
                 var x := buf[t.q..t.eq];
                 && Lexeme(x) && t.kind == (if x == ">>" then '+' else if Symbol(x[0]) then x[0] else 'a')
                 && (x == ">" ==> At(buf, t.eq) != '>')
                 && (PlainWord(x) ==> At(buf, t.eq) == '\0' || Blank(At(buf, t.eq)) || Symbol(At(buf, t.eq)))
  {
    var t := GetToken(buf, s);
    SkipBlanks(buf, s);
    SkipBlanks(buf, t.eq);
    FirstToken(buf, s);
    CharKinds(At(buf, t.q));
    CharKinds(At(buf, t.next));
    CharKinds(At(buf, t.eq));
    if t.q < |buf| {
      LexemeRead(buf, t.q);
    }
  }

  lemma FittingCons(x: string, g: string, xs: seq<string>, gaps: seq<string>)
    requires Fitting(xs, gaps) && Lexeme(x) && Blanks(g)
    requires xs != [] && Lexeme(xs[0]) && Touchy(x, xs[0]) ==> gaps[0] != ""
    ensures Fitting([x] + xs, [g] + gaps)
    ensures Spaced([x] + xs, [g] + gaps) == g + x + Spaced(xs, gaps)
  {
    var ys, hs := [x] + xs, [g] + gaps;
    assert ys[1..] == xs && hs[1..] == gaps;
    forall i | 0 <= i < |ys| ensures Lexeme(ys[i]) { assert i > 0 ==> ys[i] == xs[i - 1]; }
    forall i | 0 <= i < |hs| ensures Blanks(hs[i]) { assert i > 0 ==> hs[i] == gaps[i - 1]; }
    forall i | 0 < i < |ys| && Touchy(ys[i - 1], ys[i]) ensures hs[i] != "" {
      assert hs[i] == gaps[i - 1] && ys[i] == xs[i - 1];
      if i > 1 {
        assert ys[i - 1] == xs[i - 2];
      }
    }
  }

  lemma {:induction false} TextIsSpaced(buf: CString, s: int) returns (gaps: seq<string>)
    requires Within(buf, s)
    ensures Fitting(Tokens(buf, s), gaps) && buf[s..] == Spaced(Tokens(buf, s), gaps)
    ensures gaps[0] == buf[s..Skip(buf, s)]
    ensures Tokens(buf, s) != [] ==> Skip(buf, s) < |buf| && Tokens(buf, s)[0][..1] == [buf[Skip(buf, s)]]
    decreases |buf| - s
  {
    hide Tokens, Skip, TokenEnd;
    FirstToken(buf, s);
    SkipBlanks(buf, s);
    var q := Skip(buf, s);
    gaps := [buf[s..q]];
    if q < |buf| {
      var e := TokenEnd(buf, q);
      LexemeRead(buf, q);
      FirstLexeme(buf, s, q, e);
      var rest := TextIsSpaced(buf, e);
      var x, xs := buf[q..e], Tokens(buf, e);
      NotTouching(buf, e, x, xs, rest);
      FittingCons(x, buf[s..q], xs, rest);
      gaps := [buf[s..q]] + rest;
      assert Tokens(buf, s) == [x] + xs;
      assert buf[s..] == buf[s..q] + x + buf[e..];
      assert x[..1] == [buf[q]];
    } else {
      assert Tokens(buf, s) == [] && buf[s..] == buf[s..q];
    }
  }

  lemma NotTouching(buf: CString, e: int, x: string, xs: seq<string>, gaps: seq<string>)
    requires Within(buf, e) && Lexeme(x) && Fitting(xs, gaps) && gaps[0] == buf[e..Skip(buf, e)]
    requires xs != [] ==> Skip(buf, e) < |buf| && xs[0][..1] == [buf[Skip(buf, e)]]
    requires (PlainWord(x) ==> !InWord(At(buf, e))) && (x == ">" ==> At(buf, e) != '>')
    ensures xs != [] && Lexeme(xs[0]) && Touchy(x, xs[0]) ==> gaps[0] != ""
  {
    if xs != [] && gaps[0] == "" {
      assert Skip(buf, e) == e && xs[0][0] == xs[0][..1][0] == buf[e];
      CharKinds(buf[e]);
    }
  }

  lemma SpacedAround(xs: seq<string>, gaps: seq<string>, g: string, h: string) returns (more: seq<string>)
    requires Fitting(xs, gaps) && Blanks(g) && Blanks(h)
    ensures Fitting(xs, more) && Spaced(xs, more) == g + Spaced(xs, gaps) + h
  {
    var ext := SpacedAfter(xs, gaps, h);
    more := ext[0 := g + ext[0]];
    assert more[1..] == ext[1..];
    assert Spaced(xs, more) == g + Spaced(xs, ext);
    assert g + (Spaced(xs, gaps) + h) == g + Spaced(xs, gaps) + h;
  }

  lemma {:induction false} SpacedAfter(xs: seq<string>, gaps: seq<string>, h: string) returns (more: seq<string>)
    requires Fitting(xs, gaps) && Blanks(h)
    ensures Fitting(xs, more) && Spaced(xs, more) == Spaced(xs, gaps) + h
    ensures xs != [] ==> more[0] == gaps[0]
    decreases |xs|
  {
    if xs == [] {
      more := [gaps[0] + h];
    } else {
      FittingTail(xs, gaps);
      var rest := SpacedAfter(xs[1..], gaps[1..], h);
      if |xs| > 1 {
        assert Touchy(xs[0], xs[1]) ==> gaps[1] != "";
        assert rest[0] == gaps[1..][0] == gaps[1];
      }
      FittingCons(xs[0], gaps[0], xs[1..], rest);
      more := [gaps[0]] + rest;
      assert [xs[0]] + xs[1..] == xs;
    }
  }

  /** Any line, with any blanks in front of it and after it, is parsed as it is without them: a newline at its
      end, which the shell's input leaves there, makes no difference. */
  lemma BlanksAround(text: CString, g: string, h: string)
    requires Blanks(g) && Blanks(h)
    ensures '\0' !in g + text + h && SameCommand(g + text + h, text)
  {
    hide Tokens, Spaced, Fitting, SameCommand;
    var gaps := TextIsSpaced(text, 0);
    var more := SpacedAround(Tokens(text, 0), gaps, g, h);
    assert text[0..] == text;
    BlanksDoNotMatter(g + text + h, text);
  }

  lemma NewlineAtEnd(text: CString)
    ensures '\0' !in text + "\n" && SameCommand(text + "\n", text)
  {
    hide SameCommand;
    BlanksAround(text, "", "\n");
    assert "" + text + "\n" == text + "\n";
  }
}
